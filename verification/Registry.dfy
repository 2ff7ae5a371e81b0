/** What the registries answer and the endpoints taken from an answer (src/discovery, `health_check`). */
module Registry {
  import opened Text

  datatype ConsulService = ConsulService(address: string, port: nat, checks: seq<string>)

  /** The keys and values of an Etcd answer, after the base64 and UTF-8 decoding. */
  datatype EtcdEntry = EtcdEntry(key: string, value: string)

  datatype Answer = ConsulAnswer(services: seq<ConsulService>) | EtcdAnswer(kvs: seq<EtcdEntry>)

  /// Consul

  predicate IsHealthy(svc: ConsulService) {
    && (forall i | 0 <= i < |svc.checks| :: svc.checks[i] == "passing")
    && svc.address != ""
  }

  function Url(svc: ConsulService): string {
    "http://" + svc.address + ":" + Decimal(svc.port)
  }

  function Healthy(services: seq<ConsulService>): seq<string> {
    if services == [] then []
    else if IsHealthy(services[0]) then [Url(services[0])] + Healthy(services[1..])
    else Healthy(services[1..])
  }

  method HealthyEndpoints(services: seq<ConsulService>) returns (endpoints: seq<string>)
    ensures endpoints == Healthy(services)
  {
    endpoints := [];
    for k := 0 to |services|
      invariant endpoints + Healthy(services[k..]) == Healthy(services)
    {
      var svc := services[k];
      var healthy := forall i | 0 <= i < |svc.checks| :: svc.checks[i] == "passing";
      if !healthy {
        continue;
      }
      if svc.address == "" {
        continue;
      }
      endpoints := endpoints + ["http://" + svc.address + ":" + Decimal(svc.port)];
    }
  }

  /** The service may be used: it has an address, and no check of it says anything but "passing". */
  ghost predicate Passes(svc: ConsulService) {
    svc.address != "" && forall c | c in svc.checks :: c == "passing"
  }

  lemma PassesIsHealthy(svc: ConsulService)
    ensures IsHealthy(svc) <==> Passes(svc)
  {
    if Passes(svc) {
      forall i | 0 <= i < |svc.checks| ensures svc.checks[i] == "passing" { assert svc.checks[i] in svc.checks; }
    }
  }

  /** An endpoint is listed exactly when a service that passes gives it. */
  lemma {:induction false} HealthyMembers(services: seq<ConsulService>, u: string)
    ensures u in Healthy(services)
       <==> exists svc :: svc in services && Passes(svc) && u == "http://" + svc.address + ":" + Decimal(svc.port)
  {
    if services != [] {
      HealthyMembers(services[1..], u);
      assert forall svc :: svc in services <==> svc == services[0] || svc in services[1..];
      PassesIsHealthy(services[0]);
    }
  }

  /** The order is that of the answer: one more service adds its endpoint at the end, or nothing. */
  lemma {:induction false} HealthyAppend(services: seq<ConsulService>, svc: ConsulService)
    ensures Passes(svc) ==>
              Healthy(services + [svc]) == Healthy(services) + ["http://" + svc.address + ":" + Decimal(svc.port)]
    ensures !Passes(svc) ==> Healthy(services + [svc]) == Healthy(services)
  {
    if services == [] {
      PassesIsHealthy(svc);
      assert services + [svc] == [svc] && [svc][1..] == [];
    } else {
      HealthyAppend(services[1..], svc);
      assert (services + [svc])[1..] == services[1..] + [svc];
    }
  }

  /** The head is the endpoint of the first service that passes. */
  lemma {:induction false} HealthyHead(services: seq<ConsulService>) returns (i: nat)
    requires Healthy(services) != []
    ensures i < |services| && Passes(services[i]) && forall j | 0 <= j < i :: !Passes(services[j])
    ensures Healthy(services)[0] == "http://" + services[i].address + ":" + Decimal(services[i].port)
  {
    PassesIsHealthy(services[0]);
    if IsHealthy(services[0]) {
      i := 0;
    } else {
      var k := HealthyHead(services[1..]);
      i := k + 1;
      forall j | 0 <= j < i ensures !Passes(services[j]) {
        if j > 0 { assert services[1..][j - 1] == services[j]; }
      }
    }
  }

  /// Etcd

  function Listed(kvs: seq<EtcdEntry>): seq<string> {
    if kvs == [] then []
    else if Trim(kvs[0].value) != "" then [Trim(kvs[0].value)] + Listed(kvs[1..])
    else Listed(kvs[1..])
  }

  method ListedEndpoints(kvs: seq<EtcdEntry>) returns (endpoints: seq<string>)
    ensures endpoints == Listed(kvs)
  {
    endpoints := [];
    for k := 0 to |kvs|
      invariant endpoints + Listed(kvs[k..]) == Listed(kvs)
    {
      var endpointUrl := Trim(kvs[k].value);
      if endpointUrl != "" {
        endpoints := endpoints + [endpointUrl];
      }
    }
  }

  lemma {:induction false} ListedMembers(kvs: seq<EtcdEntry>, u: string)
    ensures u in Listed(kvs) <==> u != "" && exists kv :: kv in kvs && u == Trim(kv.value)
  {
    if kvs != [] {
      ListedMembers(kvs[1..], u);
      assert forall kv :: kv in kvs <==> kv == kvs[0] || kv in kvs[1..];
    }
  }

  lemma {:induction false} ListedAppend(kvs: seq<EtcdEntry>, kv: EtcdEntry)
    ensures Listed(kvs + [kv]) == Listed(kvs) + if Trim(kv.value) != "" then [Trim(kv.value)] else []
  {
    if kvs == [] {
      assert kvs + [kv] == [kv] && [kv][1..] == [];
    } else {
      ListedAppend(kvs[1..], kv);
      assert (kvs + [kv])[1..] == kvs[1..] + [kv];
    }
  }

  /** The head is the first value that is not blank. */
  lemma {:induction false} ListedHead(kvs: seq<EtcdEntry>) returns (i: nat)
    requires Listed(kvs) != []
    ensures i < |kvs| && Listed(kvs)[0] == Trim(kvs[i].value) != ""
    ensures forall j | 0 <= j < i :: Trim(kvs[j].value) == ""
  {
    if Trim(kvs[0].value) != "" {
      i := 0;
    } else {
      var k := ListedHead(kvs[1..]);
      i := k + 1;
      forall j | 0 <= j < i ensures Trim(kvs[j].value) == "" {
        if j > 0 { assert kvs[1..][j - 1] == kvs[j]; }
      }
    }
  }

  function Endpoints(answer: Answer): seq<string> {
    match answer
    case ConsulAnswer(services) => Healthy(services)
    case EtcdAnswer(kvs) => Listed(kvs)
  }
}

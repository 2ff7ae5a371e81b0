/**
 Resolvers and watchers sharing one cache (src/discovery/consul.rs and etcd.rs, `resolve` and
 `watch`). A step runs between two awaits: a read of the cache, the arrival of the registry's
 answer, or a write of the cache. Any number of tasks interleave their steps in any order, a
 query may fail, and a resolver may be dropped at any await.
 */
module Discovery {
  import opened Config
  import opened Registry
  import opened Text
  import opened Wrappers

  datatype Provider = Consul | Etcd

  datatype Kind = Resolver | Watcher

  /**
   `readAt` is the step that found no cached list, `source` the answer the task holds.
   `Rewriting` is an Etcd watcher between the write inside `health_check` and its own.
   */
  datatype Phase =
    | Start
    | Asking(readAt: nat)
    | Answered(readAt: nat, source: nat)
    | Rewriting(source: nat)
    | Resolved(result: Result<string, GatewayError>)

  datatype Task = Task(kind: Kind, name: string, phase: Phase)

  datatype Entry = Entry(endpoints: seq<string>, writtenAt: nat, source: nat)

  /** A successful answer of the registry to a query for a name. */
  datatype Reply = Reply(name: string, answer: Answer)

  /**
   The cache and the tasks, with a record of the run: the answers so far, which of them were held
   by a task that was dropped, and the number of steps taken.
   */
  datatype State = State(
    cache: map<string, Entry>,
    tasks: map<nat, Task>,
    history: seq<Reply>,
    dropped: set<nat>,
    now: nat)

  const INIT := State(map[], map[], [], {}, 0)

  datatype Event =
    | Spawn(id: nat, kind: Kind, name: string)
    | Read(id: nat)
    | Respond(id: nat, answer: Result<Answer, GatewayError>)
    | Write(id: nat)
    | Cancel(id: nat)

  predicate Fits(provider: Provider, answer: Answer) {
    provider.Consul? <==> answer.ConsulAnswer?
  }

  /** The cached list for a name, empty when there is none. */
  function Cached(s: State, name: string): seq<string> {
    if name in s.cache then s.cache[name].endpoints else []
  }

  /** The list a held answer gives. */
  function ListOf(history: seq<Reply>, source: nat): seq<string> {
    if source < |history| then Endpoints(history[source].answer) else []
  }

  function WithPhase(s: State, id: nat, phase: Phase): State
    requires id in s.tasks
  {
    s.(tasks := s.tasks[id := s.tasks[id].(phase := phase)])
  }

  function WithEntry(s: State, name: string, source: nat): State {
    s.(cache := s.cache[name := Entry(ListOf(s.history, source), s.now, source)])
  }

  /** What `resolve` returns once it holds the list for its name. */
  function Choice(endpoints: seq<string>): Result<string, GatewayError> {
    if endpoints == [] then Failure(UpstreamUnavailable) else Success(endpoints[0])
  }

  function ReadStep(s: State, id: nat): State
    requires id in s.tasks
  {
    var task := s.tasks[id];
    if task.phase != Start then s
    else if task.kind == Resolver && Cached(s, task.name) != [] then
      WithPhase(s, id, Resolved(Success(Cached(s, task.name)[0])))
    else WithPhase(s, id, Asking(s.now))
  }

  function RespondStep(provider: Provider, s: State, id: nat, answer: Result<Answer, GatewayError>): State
    requires id in s.tasks
  {
    var task := s.tasks[id];
    if !task.phase.Asking? then s
    else
      match answer
      case Failure(error) =>
        WithPhase(s, id, if task.kind == Resolver then Resolved(Failure(error)) else Start)
      case Success(a) =>
        if Fits(provider, a) then
          WithPhase(s, id, Answered(task.phase.readAt, |s.history|)).(history := s.history + [Reply(task.name, a)])
        else s
  }

  /** A Consul resolver does not write an empty list; an Etcd query always writes what it got. */
  function WriteStep(provider: Provider, s: State, id: nat): State
    requires id in s.tasks
  {
    var task := s.tasks[id];
    match task.phase
    case Answered(_, source) =>
      var endpoints := ListOf(s.history, source);
      if task.kind == Resolver then
        if provider == Consul && endpoints == [] then WithPhase(s, id, Resolved(Choice(endpoints)))
        else WithPhase(WithEntry(s, task.name, source), id, Resolved(Choice(endpoints)))
      else if provider == Consul then WithPhase(WithEntry(s, task.name, source), id, Start)
      else WithPhase(WithEntry(s, task.name, source), id, Rewriting(source))
    case Rewriting(source) => WithPhase(WithEntry(s, task.name, source), id, Start)
    case _ => s
  }

  /**
   A resolver is dropped together with the request it serves; it runs nothing more, and an answer it
   holds is not written. A watcher is a detached task that nothing stops.
   */
  function CancelStep(s: State, id: nat): State {
    if id !in s.tasks || s.tasks[id].kind == Watcher then s
    else
      var rest := s.(tasks := s.tasks - {id});
      if s.tasks[id].phase.Answered? then rest.(dropped := s.dropped + {s.tasks[id].phase.source}) else rest
  }

  /** The state change of a step, before the step is counted. */
  function Effect(provider: Provider, s: State, e: Event): State {
    match e
    case Spawn(id, kind, name) =>
      if id in s.tasks then s else s.(tasks := s.tasks[id := Task(kind, name, Start)])
    case Read(id) => if id in s.tasks then ReadStep(s, id) else s
    case Respond(id, answer) => if id in s.tasks then RespondStep(provider, s, id, answer) else s
    case Write(id) => if id in s.tasks then WriteStep(provider, s, id) else s
    case Cancel(id) => CancelStep(s, id)
  }

  /** One step; an event that is not possible now changes nothing but the step count. */
  function Step(provider: Provider, s: State, e: Event): State {
    Effect(provider, s, e).(now := s.now + 1)
  }

  function Run(provider: Provider, s: State, events: seq<Event>): State
    decreases events
  {
    if events == [] then s else Run(provider, Step(provider, s, events[0]), events[1..])
  }

  lemma TwoSteps(provider: Provider, s: State, d: Event, e: Event)
    ensures Run(provider, s, [d, e]) == Step(provider, Step(provider, s, d), e)
  {
    assert [d, e][1..] == [e];
    assert Run(provider, Step(provider, s, d), [e]) == Step(provider, Step(provider, s, d), e);
  }

  lemma {:induction false} RunConcat(provider: Provider, s: State, one: seq<Event>, two: seq<Event>)
    ensures Run(provider, s, one + two) == Run(provider, Run(provider, s, one), two)
    decreases one
  {
    if one == [] {
      assert one + two == two;
    } else {
      RunConcat(provider, Step(provider, s, one[0]), one[1..], two);
      assert (one + two)[1..] == one[1..] + two;
    }
  }

  /// Safety

  /** Some answer for this very name gives a list that starts with `u`. */
  ghost predicate HeadOfAnswer(history: seq<Reply>, name: string, u: string) {
    exists k: nat | k < |history| ::
      history[k].name == name && Endpoints(history[k].answer) != [] && Endpoints(history[k].answer)[0] == u
  }

  ghost predicate EntrySound(history: seq<Reply>, name: string, e: Entry) {
    && e.source < |history|
    && history[e.source].name == name
    && e.endpoints == Endpoints(history[e.source].answer)
  }

  ghost predicate TaskSound(history: seq<Reply>, task: Task) {
    match task.phase
    case Answered(_, source) => source < |history| && history[source].name == task.name
    case Rewriting(source) => source < |history| && history[source].name == task.name
    case Resolved(Success(u)) => HeadOfAnswer(history, task.name, u)
    case _ => true
  }

  ghost predicate Sound(provider: Provider, s: State) {
    && (forall name | name in s.cache :: EntrySound(s.history, name, s.cache[name]))
    && (forall id | id in s.tasks :: TaskSound(s.history, s.tasks[id]))
    && (forall r | r in s.history :: Fits(provider, r.answer))
  }

  lemma PhaseKeepsSound(provider: Provider, s: State, id: nat, phase: Phase)
    requires Sound(provider, s) && id in s.tasks && TaskSound(s.history, s.tasks[id].(phase := phase))
    ensures Sound(provider, WithPhase(s, id, phase))
  {
  }

  lemma EntryKeepsSound(provider: Provider, s: State, name: string, source: nat)
    requires Sound(provider, s) && source < |s.history| && s.history[source].name == name
    ensures Sound(provider, WithEntry(s, name, source))
  {
  }

  lemma HeadLater(history: seq<Reply>, r: Reply, name: string, u: string)
    requires HeadOfAnswer(history, name, u)
    ensures HeadOfAnswer(history + [r], name, u)
  {
    var k: nat :| k < |history| && history[k].name == name
                  && Endpoints(history[k].answer) != [] && Endpoints(history[k].answer)[0] == u;
    assert (history + [r])[k] == history[k];
  }

  lemma ReplyKeepsSound(provider: Provider, s: State, r: Reply)
    requires Sound(provider, s) && Fits(provider, r.answer)
    ensures Sound(provider, s.(history := s.history + [r]))
  {
    var longer := s.history + [r];
    forall name | name in s.cache ensures EntrySound(longer, name, s.cache[name]) {
      assert EntrySound(s.history, name, s.cache[name]);
    }
    forall id | id in s.tasks ensures TaskSound(longer, s.tasks[id]) {
      var task := s.tasks[id];
      assert TaskSound(s.history, task);
      if task.phase.Resolved? && task.phase.result.Success? {
        HeadLater(s.history, r, task.name, task.phase.result.value);
      }
    }
  }

  lemma ReadKeepsSound(provider: Provider, s: State, id: nat)
    requires Sound(provider, s) && id in s.tasks
    ensures Sound(provider, ReadStep(s, id))
  {
    var task := s.tasks[id];
    if task.phase == Start {
      if task.kind == Resolver && Cached(s, task.name) != [] {
        assert EntrySound(s.history, task.name, s.cache[task.name]);
        PhaseKeepsSound(provider, s, id, Resolved(Success(Cached(s, task.name)[0])));
      } else {
        PhaseKeepsSound(provider, s, id, Asking(s.now));
      }
    }
  }

  lemma RespondKeepsSound(provider: Provider, s: State, id: nat, answer: Result<Answer, GatewayError>)
    requires Sound(provider, s) && id in s.tasks
    ensures Sound(provider, RespondStep(provider, s, id, answer))
  {
    var task := s.tasks[id];
    if task.phase.Asking? {
      match answer
      case Failure(error) =>
        PhaseKeepsSound(provider, s, id, if task.kind == Resolver then Resolved(Failure(error)) else Start);
      case Success(a) =>
        if Fits(provider, a) {
          var r := Reply(task.name, a);
          var s' := s.(history := s.history + [r]);
          ReplyKeepsSound(provider, s, r);
          assert s'.history[|s.history|] == r;
          PhaseKeepsSound(provider, s', id, Answered(task.phase.readAt, |s.history|));
        }
    }
  }

  lemma WriteKeepsSound(provider: Provider, s: State, id: nat)
    requires Sound(provider, s) && id in s.tasks
    ensures Sound(provider, WriteStep(provider, s, id))
  {
    var task := s.tasks[id];
    assert TaskSound(s.history, task);
    if task.phase.Answered? || task.phase.Rewriting? {
      var source := task.phase.source;
      var endpoints := ListOf(s.history, source);
      var phase := WriteStep(provider, s, id).tasks[id].phase;
      assert phase.Resolved? && phase.result.Success? ==> HeadOfAnswer(s.history, task.name, phase.result.value);
      EntryKeepsSound(provider, s, task.name, source);
      PhaseKeepsSound(provider, s, id, phase);
      PhaseKeepsSound(provider, WithEntry(s, task.name, source), id, phase);
    }
  }

  lemma StepKeepsSound(provider: Provider, s: State, e: Event)
    requires Sound(provider, s)
    ensures Sound(provider, Step(provider, s, e))
  {
    match e
    case Read(id) => if id in s.tasks { ReadKeepsSound(provider, s, id); }
    case Respond(id, answer) => if id in s.tasks { RespondKeepsSound(provider, s, id, answer); }
    case Write(id) => if id in s.tasks { WriteKeepsSound(provider, s, id); }
    case _ =>
  }

  lemma {:induction false} RunKeepsSound(provider: Provider, s: State, events: seq<Event>)
    requires Sound(provider, s)
    ensures Sound(provider, Run(provider, s, events))
    decreases events
  {
    if events != [] {
      StepKeepsSound(provider, s, events[0]);
      RunKeepsSound(provider, Step(provider, s, events[0]), events[1..]);
    }
  }

  /** In every run, each cached list is what some answer for that name gave, and each result heads such a list. */
  lemma DiscoverySafety(provider: Provider, events: seq<Event>)
    ensures Sound(provider, Run(provider, INIT, events))
  {
    RunKeepsSound(provider, INIT, events);
  }

  /** Some answer for the task's name has this list's head. */
  lemma ResultHeadsAnswer(provider: Provider, events: seq<Event>, id: nat) returns (k: nat)
    requires var s := Run(provider, INIT, events);
             id in s.tasks && s.tasks[id].phase.Resolved? && s.tasks[id].phase.result.Success?
    ensures var s := Run(provider, INIT, events);
            && k < |s.history| && s.history[k].name == s.tasks[id].name && Fits(provider, s.history[k].answer)
            && Endpoints(s.history[k].answer) != []
            && Endpoints(s.history[k].answer)[0] == s.tasks[id].phase.result.value
  {
    var s := Run(provider, INIT, events);
    DiscoverySafety(provider, events);
    assert TaskSound(s.history, s.tasks[id]);
    k :| k < |s.history| && s.history[k].name == s.tasks[id].name && Endpoints(s.history[k].answer) != []
         && Endpoints(s.history[k].answer)[0] == s.tasks[id].phase.result.value;
    assert s.history[k] in s.history;
  }

  /** So a Consul result is the URL of the first service of an answer that passed all its checks and has an address. */
  lemma ConsulResultsAreHealthy(events: seq<Event>, id: nat)
    requires var s := Run(Consul, INIT, events);
             id in s.tasks && s.tasks[id].phase.Resolved? && s.tasks[id].phase.result.Success?
    ensures var s := Run(Consul, INIT, events);
            exists k: nat, i: nat | k < |s.history| && s.history[k].answer.ConsulAnswer? ::
              var services := s.history[k].answer.services;
              && s.history[k].name == s.tasks[id].name && i < |services|
              && services[i].address != "" && (forall c | c in services[i].checks :: c == "passing")
              && (forall j | 0 <= j < i ::
                    services[j].address == "" || exists c :: c in services[j].checks && c != "passing")
              && s.tasks[id].phase.result.value == "http://" + services[i].address + ":" + Decimal(services[i].port)
  {
    var k := ResultHeadsAnswer(Consul, events, id);
    var services := Run(Consul, INIT, events).history[k].answer.services;
    var i := HealthyHead(services);
    assert Passes(services[i]) && forall j | 0 <= j < i :: !Passes(services[j]);
  }

  /** And an Etcd result the first value of an answer that is not blank, without the white space around it. */
  lemma EtcdResultsAreListed(events: seq<Event>, id: nat)
    requires var s := Run(Etcd, INIT, events);
             id in s.tasks && s.tasks[id].phase.Resolved? && s.tasks[id].phase.result.Success?
    ensures var s := Run(Etcd, INIT, events);
            exists k: nat, i: nat | k < |s.history| && s.history[k].answer.EtcdAnswer? ::
              var kvs := s.history[k].answer.kvs;
              && s.history[k].name == s.tasks[id].name && i < |kvs|
              && s.tasks[id].phase.result.value == Trim(kvs[i].value) != ""
              && forall j | 0 <= j < i :: Trim(kvs[j].value) == ""
  {
    var k := ResultHeadsAnswer(Etcd, events, id);
    var i := ListedHead(Run(Etcd, INIT, events).history[k].answer.kvs);
  }

  /// Bounded staleness

  predicate Querying(task: Task) {
    task.phase.Asking? || task.phase.Answered?
  }

  /** A list that is cached now was written after a pending resolver of that name looked. */
  ghost predicate ReadPrecedes(now: nat, cache: map<string, Entry>, task: Task) {
    Querying(task) ==>
      && task.phase.readAt < now
      && (task.kind == Resolver && task.name in cache && cache[task.name].endpoints != [] ==>
            task.phase.readAt < cache[task.name].writtenAt)
  }

  ghost predicate ReadsPrecede(s: State) {
    forall id | id in s.tasks :: ReadPrecedes(s.now, s.cache, s.tasks[id])
  }

  /** The effect on the tasks and on the cache, when each is as it should be one step later. */
  lemma PrecedesAfter(s: State, t: State)
    requires ReadsPrecede(s) && t.now == s.now + 1
    requires forall id | id in t.tasks ::
               (id in s.tasks && t.tasks[id] == s.tasks[id]) || ReadPrecedes(t.now, t.cache, t.tasks[id])
    requires forall n | n in t.cache :: (n in s.cache && t.cache[n] == s.cache[n]) || t.cache[n].writtenAt == s.now
    ensures ReadsPrecede(t)
  {
  }

  lemma RespondKeepsReads(provider: Provider, s: State, id: nat, answer: Result<Answer, GatewayError>)
    requires ReadsPrecede(s) && id in s.tasks
    ensures ReadsPrecede(Step(provider, s, Respond(id, answer)))
  {
  }

  lemma WriteKeepsReads(provider: Provider, s: State, id: nat)
    requires ReadsPrecede(s) && id in s.tasks
    ensures ReadsPrecede(Step(provider, s, Write(id)))
  {
  }

  lemma StepKeepsReads(provider: Provider, s: State, e: Event)
    requires ReadsPrecede(s)
    ensures ReadsPrecede(Step(provider, s, e))
  {
    if (e.Respond? || e.Write?) && e.id in s.tasks {
      match e
      case Respond(id, answer) => RespondKeepsReads(provider, s, id, answer);
      case Write(id) => WriteKeepsReads(provider, s, id);
    } else {
      PrecedesAfter(s, Step(provider, s, e));
    }
  }

  lemma {:induction false} RunKeepsReads(provider: Provider, s: State, events: seq<Event>)
    requires ReadsPrecede(s)
    ensures ReadsPrecede(Run(provider, s, events))
    decreases events
  {
    if events != [] {
      StepKeepsReads(provider, s, events[0]);
      RunKeepsReads(provider, Step(provider, s, events[0]), events[1..]);
    }
  }

  /** A resolver that replaces a non-empty list replaces one written after its own read. */
  lemma ReplacedListIsNewer(provider: Provider, events: seq<Event>, id: nat)
    requires var s := Run(provider, INIT, events);
             && id in s.tasks && s.tasks[id].kind == Resolver && s.tasks[id].phase.Answered?
             && Cached(s, s.tasks[id].name) != []
    ensures var s := Run(provider, INIT, events);
            s.tasks[id].phase.readAt < s.cache[s.tasks[id].name].writtenAt
  {
    RunKeepsReads(provider, INIT, events);
  }

  /// One `resolve` with nothing in between

  /** The lists of a cache, without the bookkeeping. */
  function Lists(cache: map<string, Entry>): map<string, seq<string>> {
    map name | name in cache :: cache[name].endpoints
  }

  class ServiceDiscovery {
    const provider: Provider
    var cache: map<string, seq<string>>

    constructor (provider: Provider)
      ensures this.provider == provider && cache == map[]
    {
      this.provider := provider;
      cache := map[];
    }

    /** `query` is what the registry would answer; an Etcd query stores its list itself. */
    method HealthCheck(name: string, query: Result<Answer, GatewayError>)
      returns (endpoints: Result<seq<string>, GatewayError>)
      requires query.Success? ==> Fits(provider, query.value)
      modifies this
      ensures endpoints == (match query
                            case Success(a) => Success(Endpoints(a))
                            case Failure(e) => Failure(e))
      ensures cache == if provider == Etcd && query.Success? then old(cache)[name := Endpoints(query.value)]
                       else old(cache)
    {
      match query
      case Failure(e) =>
        return Failure(e);
      case Success(ConsulAnswer(services)) =>
        var healthy := HealthyEndpoints(services);
        return Success(healthy);
      case Success(EtcdAnswer(kvs)) =>
        var listed := ListedEndpoints(kvs);
        cache := cache[name := listed];
        return Success(listed);
    }

    method Resolve(name: string, query: Result<Answer, GatewayError>) returns (result: Result<string, GatewayError>)
      requires query.Success? ==> Fits(provider, query.value)
      modifies this
      ensures (cache, result) == Resolution(provider, old(cache), name, query)
      ensures var had := if name in old(cache) then old(cache)[name] else [];
              && (had != [] ==> result == Success(had[0]) && cache == old(cache))
              && (had == [] && query.Failure? ==> result == Failure(query.error) && cache == old(cache))
              && (had == [] && query.Success? && Endpoints(query.value) != [] ==>
                    && result == Success(Endpoints(query.value)[0])
                    && cache == old(cache)[name := Endpoints(query.value)])
              && (had == [] && query.Success? && Endpoints(query.value) == [] ==>
                    && result == Failure(UpstreamUnavailable)
                    && cache == if provider == Etcd then old(cache)[name := []] else old(cache))
    {
      if name in cache {
        var endpoints := cache[name];
        if endpoints != [] {
          return Success(endpoints[0]);
        }
      }
      var fetched := HealthCheck(name, query);
      if fetched.Failure? {
        return Failure(fetched.error);
      }
      if fetched.value == [] {
        return Failure(UpstreamUnavailable);
      }
      if provider == Consul {
        cache := cache[name := fetched.value];
      }
      return Success(fetched.value[0]);
    }
  }

  /** The cache and the result after one `resolve` that runs alone. */
  function Resolution(provider: Provider, cache: map<string, seq<string>>, name: string,
                      query: Result<Answer, GatewayError>)
    : (map<string, seq<string>>, Result<string, GatewayError>)
  {
    if name in cache && cache[name] != [] then (cache, Success(cache[name][0]))
    else
      match query
      case Failure(e) => (cache, Failure(e))
      case Success(a) =>
        (if provider == Consul && Endpoints(a) == [] then cache else cache[name := Endpoints(a)], Choice(Endpoints(a)))
  }

  lemma ListsAfterWrite(s: State, name: string, source: nat)
    ensures Lists(WithEntry(s, name, source).cache) == Lists(s.cache)[name := ListOf(s.history, source)]
  {
  }

  lemma AnswerAndWrite(provider: Provider, s: State, id: nat, query: Result<Answer, GatewayError>)
    requires id in s.tasks && s.tasks[id].kind == Resolver && s.tasks[id].phase.Asking?
    requires Cached(s, s.tasks[id].name) == [] && (query.Success? ==> Fits(provider, query.value))
    ensures var t := Step(provider, Step(provider, s, Respond(id, query)), Write(id));
            && id in t.tasks && t.tasks[id].phase.Resolved?
            && (Lists(t.cache), t.tasks[id].phase.result)
                 == Resolution(provider, Lists(s.cache), s.tasks[id].name, query)
  {
    var s1 := Step(provider, s, Respond(id, query));
    if query.Success? {
      assert ListOf(s1.history, |s.history|) == Endpoints(query.value);
      ListsAfterWrite(s1, s.tasks[id].name, |s.history|);
    }
  }

  /** The steps of one resolver, taken without interruption, are that call. */
  lemma UninterruptedResolve(provider: Provider, s: State, id: nat, name: string, query: Result<Answer, GatewayError>)
    requires id !in s.tasks && (query.Success? ==> Fits(provider, query.value))
    ensures var t := Run(provider, s, [Spawn(id, Resolver, name), Read(id)] + [Respond(id, query), Write(id)]);
            && id in t.tasks && t.tasks[id].phase.Resolved?
            && (Lists(t.cache), t.tasks[id].phase.result) == Resolution(provider, Lists(s.cache), name, query)
  {
    var s2 := Step(provider, Step(provider, s, Spawn(id, Resolver, name)), Read(id));
    TwoSteps(provider, s, Spawn(id, Resolver, name), Read(id));
    TwoSteps(provider, s2, Respond(id, query), Write(id));
    RunConcat(provider, s, [Spawn(id, Resolver, name), Read(id)], [Respond(id, query), Write(id)]);
    assert s2.cache == s.cache && s2.tasks[id].name == name;
    if Cached(s, name) == [] {
      AnswerAndWrite(provider, s2, id, query);
    }
  }

  /// One turn of `watch`

  /** A watcher asks whatever is cached, and a failed query leaves the cache as it is. */
  lemma WatcherAsks(provider: Provider, s: State, id: nat, error: GatewayError)
    requires id in s.tasks && s.tasks[id].kind == Watcher && s.tasks[id].phase == Start
    ensures var t := Step(provider, Step(provider, s, Read(id)), Respond(id, Failure(error)));
            t.cache == s.cache && t.tasks == s.tasks && t.history == s.history
  {
    assert s.tasks[id := s.tasks[id]] == s.tasks;
  }

  /** A list that arrives is held until it is written. */
  lemma WatcherHolds(provider: Provider, s: State, id: nat, answer: Answer)
    requires id in s.tasks && s.tasks[id].kind == Watcher && s.tasks[id].phase == Start && Fits(provider, answer)
    ensures var t := Step(provider, Step(provider, s, Read(id)), Respond(id, Success(answer)));
            && t.cache == s.cache && t.history == s.history + [Reply(s.tasks[id].name, answer)]
            && t.tasks == s.tasks[id := s.tasks[id].(phase := Answered(s.now, |s.history|))]
  {
  }

  /**
   It is written whatever it holds, once by Consul and twice by Etcd, the second time over any newer
   list; then the next turn starts.
   */
  lemma WatcherWrites(provider: Provider, s: State, id: nat, between: map<string, Entry>)
    requires id in s.tasks && s.tasks[id].kind == Watcher && s.tasks[id].phase.Answered?
    ensures var name, list := s.tasks[id].name, ListOf(s.history, s.tasks[id].phase.source);
            var once := Step(provider, s, Write(id));
            var twice := Step(provider, once.(cache := between), Write(id));
            && Lists(once.cache) == Lists(s.cache)[name := list]
            && Lists(twice.cache) == (if provider == Etcd then Lists(between)[name := list] else Lists(between))
            && twice.tasks == s.tasks[id := s.tasks[id].(phase := Start)]
  {
    var source := s.tasks[id].phase.source;
    ListsAfterWrite(s, s.tasks[id].name, source);
    ListsAfterWrite(Step(provider, s, Write(id)).(cache := between), s.tasks[id].name, source);
  }
}

/**
 The response cache in front of an inner service (src/middleware/cache.rs). Any number of requests
 are in flight; a step of one runs between two awaits. The backend may lose an entry at any time,
 answer a read with an error or a miss, and fail to store.
 */
module CacheMiddleware {
  import opened CacheKey
  import opened Http
  import opened Wrappers

  /** What the inner service answers; a response is stored as it is. */
  type Answer = Result<Response, string>

  type Service = Request -> Answer

  /** Which requests arrive at the service. */
  type Traffic = Request -> bool

  function Tagged(r: Response, tag: string): Response {
    r.(headers := r.headers + [Header("x-cache", tag)])
  }

  /** Copies a stored or fetched response header by header and appends the tag. */
  method Rebuild(status: nat, headers: seq<Header>, body: string, tag: string) returns (r: Response)
    ensures r == Tagged(Response(status, headers, body), tag)
    ensures r.status == status && r.body == body && r.headers == headers + [Header("x-cache", tag)]
  {
    var built: seq<Header> := [];
    for k := 0 to |headers|
      invariant built == headers[..k]
    {
      built := built + [headers[k]];
    }
    built := built + [Header("x-cache", tag)];
    r := Response(status, built, body);
  }

  /// The interleaving model

  /** `tag` records how the request was answered: untouched, or with the header `x-cache: tag`. */
  datatype Phase =
    | Arrived
    | Missed
    | Fetched(response: Response)
    | Done(answer: Answer, tag: Option<string>)

  datatype Task = Task(req: Request, phase: Phase)

  datatype State = State(store: map<string, Response>, tasks: map<nat, Task>)

  const INIT := State(map[], map[])

  datatype Event =
    | Arrive(id: nat, req: Request)
    | Forward(id: nat)
    | Lookup(id: nat, readable: bool)
    | Fetch(id: nat)
    | Store(id: nat, works: bool)
    | Evict(key: string)
    | Cancel(id: nat)

  function WithPhase(s: State, id: nat, phase: Phase): State
    requires id in s.tasks
  {
    s.(tasks := s.tasks[id := s.tasks[id].(phase := phase)])
  }

  /** Requests that are not GET go straight through. */
  function ForwardStep(inner: Service, s: State, id: nat): State
    requires id in s.tasks
  {
    var task := s.tasks[id];
    if task.phase.Arrived? && task.req.verb != "GET" then WithPhase(s, id, Done(inner(task.req), None)) else s
  }

  function LookupStep(config: CacheConfig, s: State, id: nat, readable: bool): State
    requires id in s.tasks
  {
    var task := s.tasks[id];
    if !task.phase.Arrived? || task.req.verb != "GET" then s
    else
      var key := Key(config.keyStrategy, task.req);
      if readable && key in s.store then WithPhase(s, id, Done(Success(Tagged(s.store[key], "HIT")), Some("HIT")))
      else WithPhase(s, id, Missed)
  }

  function FetchStep(config: CacheConfig, inner: Service, s: State, id: nat): State
    requires id in s.tasks
  {
    var task := s.tasks[id];
    if !task.phase.Missed? then s
    else
      match inner(task.req)
      case Failure(e) => WithPhase(s, id, Done(Failure(e), None))
      case Success(r) =>
        if ShouldStore(config, r.status) then WithPhase(s, id, Fetched(r))
        else WithPhase(s, id, Done(Success(r), None))
  }

  function StoreStep(config: CacheConfig, s: State, id: nat, works: bool): State
    requires id in s.tasks
  {
    var task := s.tasks[id];
    match task.phase
    case Fetched(r) =>
      WithPhase(if works then s.(store := s.store[Key(config.keyStrategy, task.req) := r]) else s,
                id, Done(Success(Tagged(r, "MISS")), Some("MISS")))
    case _ => s
  }

  function Step(config: CacheConfig, inner: Service, traffic: Traffic, s: State, e: Event): State {
    match e
    case Arrive(id, req) => if id in s.tasks || !traffic(req) then s else s.(tasks := s.tasks[id := Task(req, Arrived)])
    case Forward(id) => if id in s.tasks then ForwardStep(inner, s, id) else s
    case Lookup(id, readable) => if id in s.tasks then LookupStep(config, s, id, readable) else s
    case Fetch(id) => if id in s.tasks then FetchStep(config, inner, s, id) else s
    case Store(id, works) => if id in s.tasks then StoreStep(config, s, id, works) else s
    case Evict(key) => s.(store := s.store - {key})
    case Cancel(id) => s.(tasks := s.tasks - {id})
  }

  function Run(config: CacheConfig, inner: Service, traffic: Traffic, s: State, events: seq<Event>): State
    decreases events
  {
    if events == [] then s
    else Run(config, inner, traffic, Step(config, inner, traffic, s, events[0]), events[1..])
  }

  /// Transparency

  predicate Storable(config: CacheConfig, answer: Answer) {
    answer.Success? && ShouldStore(config, answer.value.status)
  }

  /** Equal keys mean equal answers, wherever one of the two answers may be stored. */
  ghost predicate KeyDecides(config: CacheConfig, inner: Service, traffic: Traffic) {
    forall a: Request, b: Request |
      && traffic(a) && traffic(b) && a.verb == "GET" && b.verb == "GET"
      && Storable(config, inner(a)) && Key(config.keyStrategy, a) == Key(config.keyStrategy, b) ::
      inner(a) == inner(b)
  }

  /** A finished request got the inner answer, up to the one appended header its tag names. */
  ghost predicate Transparent(inner: Service, task: Task) {
    match task.phase
    case Done(answer, None) => answer == inner(task.req)
    case Done(answer, Some(tag)) =>
      && task.req.verb == "GET" && inner(task.req).Success?
      && answer == Success(Tagged(inner(task.req).value, tag))
    case _ => true
  }

  ghost predicate AllTransparent(inner: Service, s: State) {
    forall id | id in s.tasks :: Transparent(inner, s.tasks[id])
  }

  /** A stored entry is the answer to some GET request of its key, with a status that may be stored. */
  ghost predicate EntrySound(config: CacheConfig, inner: Service, traffic: Traffic, key: string, r: Response) {
    exists a: Request :: traffic(a) && a.verb == "GET" && Key(config.keyStrategy, a) == key
                         && inner(a) == Success(r) && Storable(config, inner(a))
  }

  ghost predicate TaskSound(config: CacheConfig, inner: Service, traffic: Traffic, task: Task) {
    && traffic(task.req)
    && (task.phase.Missed? ==> task.req.verb == "GET")
    && (task.phase.Fetched? ==>
          && task.req.verb == "GET" && inner(task.req) == Success(task.phase.response)
          && Storable(config, inner(task.req)))
  }

  ghost predicate Sound(config: CacheConfig, inner: Service, traffic: Traffic, s: State) {
    && (forall key | key in s.store :: EntrySound(config, inner, traffic, key, s.store[key]))
    && (forall id | id in s.tasks :: TaskSound(config, inner, traffic, s.tasks[id]))
  }

  lemma StepKeepsSound(config: CacheConfig, inner: Service, traffic: Traffic, s: State, e: Event)
    requires Sound(config, inner, traffic, s)
    ensures Sound(config, inner, traffic, Step(config, inner, traffic, s, e))
  {
    if e.Store? && e.id in s.tasks && s.tasks[e.id].phase.Fetched? {
      var req := s.tasks[e.id].req;
      assert TaskSound(config, inner, traffic, s.tasks[e.id]);
      assert EntrySound(config, inner, traffic, Key(config.keyStrategy, req), s.tasks[e.id].phase.response);
    }
  }

  lemma StepKeepsTransparent(config: CacheConfig, inner: Service, traffic: Traffic, s: State, e: Event)
    requires KeyDecides(config, inner, traffic)
    requires Sound(config, inner, traffic, s) && AllTransparent(inner, s)
    ensures AllTransparent(inner, Step(config, inner, traffic, s, e))
  {
    if e.Lookup? && e.id in s.tasks {
      var req := s.tasks[e.id].req;
      var key := Key(config.keyStrategy, req);
      assert TaskSound(config, inner, traffic, s.tasks[e.id]);
      if req.verb == "GET" && key in s.store {
        var a: Request :| traffic(a) && a.verb == "GET" && Key(config.keyStrategy, a) == key
                          && inner(a) == Success(s.store[key]) && Storable(config, inner(a));
        assert inner(a) == inner(req);
      }
    } else if e.Store? && e.id in s.tasks {
      assert TaskSound(config, inner, traffic, s.tasks[e.id]);
    }
  }

  lemma {:induction false} RunIsSound(config: CacheConfig, inner: Service, traffic: Traffic, s: State,
                                      events: seq<Event>)
    requires Sound(config, inner, traffic, s)
    ensures Sound(config, inner, traffic, Run(config, inner, traffic, s, events))
    ensures KeyDecides(config, inner, traffic) && AllTransparent(inner, s) ==>
              AllTransparent(inner, Run(config, inner, traffic, s, events))
    decreases events
  {
    if events != [] {
      StepKeepsSound(config, inner, traffic, s, events[0]);
      if KeyDecides(config, inner, traffic) && AllTransparent(inner, s) {
        StepKeepsTransparent(config, inner, traffic, s, events[0]);
      }
      RunIsSound(config, inner, traffic, Step(config, inner, traffic, s, events[0]), events[1..]);
    }
  }

  /**
   Whatever the key strategy and the interleaving: stored entries are answers of the inner service
   to GET requests of their key, with a cacheable status.
   */
  lemma StoreHoldsAnswers(config: CacheConfig, inner: Service, traffic: Traffic, events: seq<Event>, key: string)
    requires key in Run(config, inner, traffic, INIT, events).store
    ensures EntrySound(config, inner, traffic, key, Run(config, inner, traffic, INIT, events).store[key])
    ensures config.enabled && Run(config, inner, traffic, INIT, events).store[key].status in config.cacheableStatuses
  {
    RunIsSound(config, inner, traffic, INIT, events);
  }

  /** The cache is invisible in every run exactly when equal keys mean equal answers. */
  lemma TransparentExactlyWhenKeyDecides(config: CacheConfig, inner: Service, traffic: Traffic)
    ensures KeyDecides(config, inner, traffic)
       <==> forall events :: AllTransparent(inner, Run(config, inner, traffic, INIT, events))
  {
    if KeyDecides(config, inner, traffic) {
      forall events ensures AllTransparent(inner, Run(config, inner, traffic, INIT, events)) {
        RunIsSound(config, inner, traffic, INIT, events);
      }
    } else {
      var a: Request, b: Request :|
        && traffic(a) && traffic(b) && a.verb == "GET" && b.verb == "GET"
        && Storable(config, inner(a)) && Key(config.keyStrategy, a) == Key(config.keyStrategy, b)
        && inner(a) != inner(b);
      var events := WrongHit(config, inner, traffic, a, b);
    }
  }

  /** The first request fills the entry and the second is answered from it. */
  lemma WrongHit(config: CacheConfig, inner: Service, traffic: Traffic, a: Request, b: Request)
    returns (events: seq<Event>)
    requires traffic(a) && traffic(b) && a.verb == "GET" && b.verb == "GET"
    requires Storable(config, inner(a)) && Key(config.keyStrategy, a) == Key(config.keyStrategy, b)
    requires inner(a) != inner(b)
    ensures !AllTransparent(inner, Run(config, inner, traffic, INIT, events))
  {
    var r := inner(a).value;
    var store := map[Key(config.keyStrategy, a) := r];
    var filled := State(store, map[0 := Task(a, Done(Success(Tagged(r, "MISS")), Some("MISS")))]);
    var fill := [Arrive(0, a), Lookup(0, true), Fetch(0), Store(0, true)];
    assert Run(config, inner, traffic, INIT, fill) == filled by {
      var s1 := State(map[], map[0 := Task(a, Arrived)]);
      var s2 := State(map[], map[0 := Task(a, Missed)]);
      var s3 := State(map[], map[0 := Task(a, Fetched(r))]);
      assert Step(config, inner, traffic, INIT, fill[0]) == s1;
      assert Step(config, inner, traffic, s1, fill[1]) == s2;
      assert Step(config, inner, traffic, s2, fill[2]) == s3;
      assert Step(config, inner, traffic, s3, fill[3]) == filled;
      FourSteps(config, inner, traffic, INIT, fill);
    }
    var hit := [Arrive(1, b), Lookup(1, true)];
    events := fill + hit;
    RunConcat(config, inner, traffic, INIT, fill, hit);
    var s5 := Step(config, inner, traffic, filled, hit[0]);
    var s6 := Step(config, inner, traffic, s5, hit[1]);
    assert hit[1..] == [hit[1]];
    assert Run(config, inner, traffic, s5, [hit[1]]) == s6;
    assert s5.tasks[1] == Task(b, Arrived) && s5.store == store;
    assert s6.tasks[1] == Task(b, Done(Success(Tagged(r, "HIT")), Some("HIT")));
    if inner(b).Success? {
      var x := inner(b).value;
      assert Tagged(x, "HIT").headers[..|x.headers|] == x.headers;
      assert Tagged(r, "HIT").headers[..|r.headers|] == r.headers;
    }
    assert !Transparent(inner, s6.tasks[1]);
  }

  lemma FourSteps(config: CacheConfig, inner: Service, traffic: Traffic, s: State, es: seq<Event>)
    requires |es| == 4
    ensures Run(config, inner, traffic, s, es)
         == Step(config, inner, traffic, Step(config, inner, traffic,
              Step(config, inner, traffic, Step(config, inner, traffic, s, es[0]), es[1]), es[2]), es[3])
  {
    var s1 := Step(config, inner, traffic, s, es[0]);
    var s2 := Step(config, inner, traffic, s1, es[1]);
    var s3 := Step(config, inner, traffic, s2, es[2]);
    var s4 := Step(config, inner, traffic, s3, es[3]);
    assert Run(config, inner, traffic, s3, es[1..][1..][1..]) == s4;
    assert Run(config, inner, traffic, s2, es[1..][1..]) == s4;
    assert Run(config, inner, traffic, s1, es[1..]) == s4;
  }

  lemma {:induction false} RunConcat(config: CacheConfig, inner: Service, traffic: Traffic, s: State,
                                     one: seq<Event>, two: seq<Event>)
    ensures Run(config, inner, traffic, s, one + two)
         == Run(config, inner, traffic, Run(config, inner, traffic, s, one), two)
    decreases one
  {
    if one == [] {
      assert one + two == two;
    } else {
      RunConcat(config, inner, traffic, Step(config, inner, traffic, s, one[0]), one[1..], two);
      assert (one + two)[1..] == one[1..] + two;
    }
  }

  /** The tag tells the truth: a hit came from the entry of its key, a miss from the inner service. */
  lemma TagTellsSource(config: CacheConfig, inner: Service, traffic: Traffic, s: State, e: Event, id: nat)
    requires Sound(config, inner, traffic, s) && id in s.tasks && !s.tasks[id].phase.Done?
    requires var t := Step(config, inner, traffic, s, e);
             id in t.tasks && t.tasks[id].phase.Done? && t.tasks[id].phase.tag.Some?
    ensures var key := Key(config.keyStrategy, s.tasks[id].req);
            var done := Step(config, inner, traffic, s, e).tasks[id].phase;
            || (done.tag.value == "HIT" && key in s.store && done.answer == Success(Tagged(s.store[key], "HIT")))
            || (done.tag.value == "MISS" && Storable(config, inner(s.tasks[id].req))
                && done.answer == Success(Tagged(inner(s.tasks[id].req).value, "MISS")))
  {
    assert TaskSound(config, inner, traffic, s.tasks[id]);
  }

  /** No step of a request that is not GET reads or writes the store: the store and the answer do not meet. */
  lemma NonGetAvoidsStore(config: CacheConfig, inner: Service, traffic: Traffic, s: State, e: Event,
                          store: map<string, Response>)
    requires Sound(config, inner, traffic, s)
    requires !e.Arrive? && !e.Evict? && e.id in s.tasks && s.tasks[e.id].req.verb != "GET"
    ensures Step(config, inner, traffic, s, e).store == s.store
    ensures Step(config, inner, traffic, s.(store := store), e).tasks == Step(config, inner, traffic, s, e).tasks
  {
    assert TaskSound(config, inner, traffic, s.tasks[e.id]);
  }

  /// When the key decides

  /** An inner service that looks at the URI only is cached transparently under the URI alone. */
  lemma UriKeyDecides(config: CacheConfig, inner: Service, traffic: Traffic)
    requires config.keyStrategy == UriOnly
    requires forall a: Request | traffic(a) :: IsTarget(a)
    requires forall a: Request, b: Request |
               traffic(a) && traffic(b) && a.verb == "GET" && b.verb == "GET" && SameUri(a, b) :: inner(a) == inner(b)
    ensures KeyDecides(config, inner, traffic)
  {
    forall a: Request, b: Request |
      && traffic(a) && traffic(b) && a.verb == "GET" && b.verb == "GET"
      && Key(config.keyStrategy, a) == Key(config.keyStrategy, b)
      ensures inner(a) == inner(b)
    {
      UriOnlyKeyDecodes(a, b);
    }
  }

  /** An inner service that looks at the method and the URI only is cached transparently under its full key. */
  lemma MethodUriKeyDecides(config: CacheConfig, inner: Service, traffic: Traffic)
    requires config.keyStrategy == UriWithMethod
    requires forall a: Request, b: Request | traffic(a) && traffic(b) && a.verb == b.verb && Uri(a) == Uri(b) ::
               inner(a) == inner(b)
    ensures KeyDecides(config, inner, traffic)
  {
    forall a: Request, b: Request |
      && traffic(a) && traffic(b) && a.verb == "GET" && b.verb == "GET"
      && Key(config.keyStrategy, a) == Key(config.keyStrategy, b)
      ensures inner(a) == inner(b)
    {
      MethodUriKeyDecodes(a, b);
    }
  }

  /** And one that also looks at listed headers, on traffic that carries them all as colon-free text. */
  lemma HeaderKeyDecides(config: CacheConfig, inner: Service, traffic: Traffic)
    requires config.keyStrategy.UriWithHeaders?
    requires forall a: Request | traffic(a) :: AllListed(a.headers, config.keyStrategy.names)
    requires forall a: Request, b: Request |
               && traffic(a) && traffic(b) && a.verb == b.verb && Uri(a) == Uri(b)
               && SameListed(a.headers, b.headers, config.keyStrategy.names) :: inner(a) == inner(b)
    ensures KeyDecides(config, inner, traffic)
  {
    forall a: Request, b: Request |
      && traffic(a) && traffic(b) && a.verb == "GET" && b.verb == "GET"
      && Key(config.keyStrategy, a) == Key(config.keyStrategy, b)
      ensures inner(a) == inner(b)
    {
      HeaderKeyDecodes(config.keyStrategy.names, a, b);
    }
  }

  /// One call with nothing in between

  const EVERYTHING: Traffic := _ => true

  /** The steps of one request when no other task runs; steps that do not apply change nothing. */
  function CallEvents(req: Request, readable: bool, works: bool): seq<Event> {
    [Arrive(0, req)] + (if req.verb == "GET" then [Lookup(0, readable), Fetch(0), Store(0, works)]
                        else [Forward(0), Fetch(0), Store(0, works)])
  }

  class CacheMiddlewareService {
    const config: CacheConfig
    const inner: Service
    var store: map<string, Response>

    constructor (config: CacheConfig, inner: Service)
      ensures this.config == config && this.inner == inner && store == map[]
    {
      this.config := config;
      this.inner := inner;
      store := map[];
    }

    /** `readable` and `works` are whether the backend answers the read and accepts the write. */
    method Call(req: Request, readable: bool, works: bool) returns (answer: Answer)
      modifies this
      ensures var end := Run(config, inner, EVERYTHING, State(old(store), map[]), CallEvents(req, readable, works));
              && store == end.store
              && 0 in end.tasks && end.tasks[0].phase.Done? && answer == end.tasks[0].phase.answer
      ensures req.verb != "GET" ==> answer == inner(req) && store == old(store)
      ensures req.verb == "GET" ==>
                var key := Key(config.keyStrategy, req);
                if readable && key in old(store) then
                  var r := old(store)[key];
                  answer == Success(Response(r.status, r.headers + [Header("x-cache", "HIT")], r.body))
                  && store == old(store)
                else if inner(req).Success? && ShouldCache(config, "GET", "/", inner(req).value.status) then
                  var r := inner(req).value;
                  answer == Success(Response(r.status, r.headers + [Header("x-cache", "MISS")], r.body))
                  && store == if works then old(store)[key := r] else old(store)
                else answer == inner(req) && store == old(store)
    {
      FourSteps(config, inner, EVERYTHING, State(store, map[]), CallEvents(req, readable, works));
      if req.verb != "GET" {
        return inner(req);
      }
      var cacheKey := BuildKey(config.keyStrategy, req);
      if readable && cacheKey in store {
        var cached := store[cacheKey];
        var hit := Rebuild(cached.status, cached.headers, cached.body, "HIT");
        return Success(hit);
      }
      var response := inner(req);
      if response.Failure? {
        return response;
      }
      var r := response.value;
      if ShouldCache(config, "GET", "/", r.status) {
        if works {
          store := store[cacheKey := r];
        }
        var miss := Rebuild(r.status, r.headers, r.body, "MISS");
        return Success(miss);
      }
      return response;
    }
  }
}

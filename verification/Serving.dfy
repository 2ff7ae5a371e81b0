/**
 Requests served concurrently (src/gateway.rs, `run` and `handle_request`). A request awaits the
 route lookup, the cache read, each send and the response body; everything between two awaits is
 one step, and its future may be dropped at any of them. Steps of different requests interleave.
 */
module Serving {
  import opened Gateway
  import opened Http
  import opened RateLimit
  import opened Wrappers
  import Cors
  import Retry
  import Router

  /** Where a request is; a dropped one stays where it was. */
  datatype Stage =
    | Routing
    | Looking(route: Router.RouteMatch, req: Request)
    | Proxying(route: Router.RouteMatch, req: Request, sent: nat)
    | Finished(handled: Handled)
    | Dropped(at: Stage)

  datatype Flight = Flight(visit: Visit, stage: Stage)

  /** `order` records in which order the requests passed the limiter stage. */
  datatype State<L> = State(limiter: L, counters: Counters, flights: seq<Flight>, order: seq<nat>)

  function Start<L>(limiter: L): State<L> {
    State(limiter, ZERO, [], [])
  }

  datatype Event =
    | Arrive(visit: Visit)
    | Admit(id: nat)
    | Look(id: nat)
    | Send(id: nat)
    | Conclude(id: nat)
    | Drop(id: nat)

  function Moved(flights: seq<Flight>, id: nat, stage: Stage): seq<Flight>
    requires id < |flights|
  {
    flights[id := flights[id].(stage := stage)]
  }

  /** From the route lookup up to the cache read: the limiter after it, and where the request is then. */
  function Admission<L>(config: GatewayConfig, check: Check<L>, limiter: L, v: Visit): (L, Stage) {
    var req := WithRequestId(config, v.req, v.world.requestId);
    match Router.Route(config.routes, req, v.world.discovery)
    case None => (limiter, Finished(Handled(NotFound, None, 0, NO_ROUTE)))
    case Some(route) =>
      if IsPreflight(config, req) then
        (limiter, Finished(Handled(Preflight, None, 0,
                                   Cors.PreflightResponse(config.cors.value, Cors.OriginOf(req.headers)))))
      else
        var (after, screened) := Screening(config, check, limiter, v.world.jwt, req);
        (after, match screened
                case Failure(handled) => Finished(handled)
                case Success(authed) => Looking(route, authed))
  }

  /** The counters an admission moves. */
  function AdmissionCounted(config: GatewayConfig, c: Counters, stage: Stage): Counters {
    var past := stage.Looking? || (stage.Finished? && stage.handled.outcome == RateLimited);
    c.(authFailures := c.authFailures + (if stage.Finished? && stage.handled.outcome == AuthFailed then 1 else 0),
       charges := c.charges + (if past && config.limit.Some? then 1 else 0),
       rateLimited := c.rateLimited + (if stage.Finished? && stage.handled.outcome == RateLimited then 1 else 0))
  }

  function AdmitStep<L>(config: GatewayConfig, check: Check<L>, s: State<L>, id: nat): State<L>
    requires id < |s.flights|
  {
    if s.flights[id].stage != Routing then s
    else
      var (after, stage) := Admission(config, check, s.limiter, s.flights[id].visit);
      State(after, AdmissionCounted(config, s.counters, stage), Moved(s.flights, id, stage), s.order + [id])
  }

  function LookStep<L>(config: GatewayConfig, s: State<L>, id: nat): State<L>
    requires id < |s.flights|
  {
    match s.flights[id].stage
    case Looking(route, req) =>
      (match Hit(config, route, s.flights[id].visit.world, req)
       case Some(cached) =>
         s.(flights := Moved(s.flights, id, Finished(HitResult(req, cached))),
            counters := s.counters.(cacheHits := s.counters.cacheHits + 1))
       case None => s.(flights := Moved(s.flights, id, Proxying(route, req, 0))))
    case _ => s
  }

  /** The loop goes on: the request can be sent, attempts are left, and the last outcome was not final. */
  predicate GoesOn(route: Router.RouteMatch, world: World, req: Request, sent: nat) {
    && world.sendError == None && sent < Retry.MaxAttempts(route.retry)
    && (sent > 0 ==> !Retry.Final(UpstreamOf(route, world, req).outcome(sent)))
  }

  function SendStep<L>(s: State<L>, id: nat): State<L>
    requires id < |s.flights|
  {
    match s.flights[id].stage
    case Proxying(route, req, sent) =>
      if GoesOn(route, s.flights[id].visit.world, req, sent) then
        s.(flights := Moved(s.flights, id, Proxying(route, req, sent + 1)),
           counters := s.counters.(sends := s.counters.sends + 1))
      else s
    case _ => s
  }

  function ConcludeStep<L>(config: GatewayConfig, s: State<L>, id: nat): State<L>
    requires id < |s.flights|
  {
    match s.flights[id].stage
    case Proxying(route, req, sent) =>
      if GoesOn(route, s.flights[id].visit.world, req, sent) then s
      else
        var handled := ProxyResult(config, route, s.flights[id].visit.world, req, sent);
        s.(flights := Moved(s.flights, id, Finished(handled)),
           counters := s.counters.(requests := s.counters.requests + if handled.outcome == ProxiedOk then 1 else 0))
    case _ => s
  }

  function DropStep<L>(s: State<L>, id: nat): State<L>
    requires id < |s.flights|
  {
    var stage := s.flights[id].stage;
    if stage.Finished? || stage.Dropped? then s else s.(flights := Moved(s.flights, id, Dropped(stage)))
  }

  /** One step; an event that is not possible now changes nothing. */
  function Step<L>(config: GatewayConfig, check: Check<L>, s: State<L>, e: Event): State<L> {
    match e
    case Arrive(visit) => s.(flights := s.flights + [Flight(visit, Routing)])
    case Admit(id) => if id < |s.flights| then AdmitStep(config, check, s, id) else s
    case Look(id) => if id < |s.flights| then LookStep(config, s, id) else s
    case Send(id) => if id < |s.flights| then SendStep(s, id) else s
    case Conclude(id) => if id < |s.flights| then ConcludeStep(config, s, id) else s
    case Drop(id) => if id < |s.flights| then DropStep(s, id) else s
  }

  function Execute<L>(config: GatewayConfig, check: Check<L>, s: State<L>, events: seq<Event>): State<L>
    decreases events
  {
    if events == [] then s else Execute(config, check, Step(config, check, s, events[0]), events[1..])
  }

  /// Every interleaving is the sequential run in the order of the limiter stage

  /** Where a request will have got to, in the sequential run, once it has passed the limiter stage so. */
  function Completion(config: GatewayConfig, stage: Stage, world: World): Option<Handled> {
    match stage
    case Routing => None
    case Looking(route, req) => Some(Finish(config, route, req, world))
    case Proxying(route, req, _) => Some(ProxyResult(config, route, world, req, Sends(route, world, req)))
    case Finished(handled) => Some(handled)
    case Dropped(at) => Completion(config, at, world)
  }

  /** The cut at the awaits is right: an admission, completed, is the whole pipeline. */
  lemma AdmissionCompletes<L>(config: GatewayConfig, check: Check<L>, limiter: L, v: Visit)
    ensures var (after, stage) := Admission(config, check, limiter, v);
            var (l, h) := Handle(config, check, limiter, v.req, v.world);
            after == l && Completion(config, stage, v.world) == Some(h)
  {
  }

  function RouteOf(config: GatewayConfig, v: Visit): Option<Router.RouteMatch> {
    Router.Route(config.routes, WithRequestId(config, v.req, v.world.requestId), v.world.discovery)
  }

  /** The attempts the route of a request allows: those configured, or one. */
  function AllowedAttempts(config: GatewayConfig, v: Visit): nat {
    match RouteOf(config, v)
    case Some(route) => if route.retry.Some? then route.retry.value.maxAttempts else 1
    case None => 0
  }

  predicate IsProxied(o: Outcome) {
    o == ProxiedOk || o == ProxiedError
  }

  /** A request in flight is on its own route, and its loop has not passed the attempt that ends it. */
  ghost predicate OnCourse(config: GatewayConfig, stage: Stage, v: Visit) {
    match stage
    case Routing => true
    case Looking(route, _) => RouteOf(config, v) == Some(route)
    case Proxying(route, req, sent) => RouteOf(config, v) == Some(route) && sent <= Sends(route, v.world, req)
    case Finished(handled) => handled.sends <= if IsProxied(handled.outcome) then AllowedAttempts(config, v) else 0
    case Dropped(at) => !at.Finished? && !at.Dropped? && OnCourse(config, at, v)
  }

  lemma GoesOnUntilSends(route: Router.RouteMatch, world: World, req: Request, sent: nat)
    requires sent <= Sends(route, world, req)
    ensures GoesOn(route, world, req, sent) <==> sent < Sends(route, world, req)
  {
    var m, up := Retry.MaxAttempts(route.retry), UpstreamOf(route, world, req);
    if world.sendError == None && m > 0 {
      Retry.LastAttemptEnds(up, m, 1);
      assert Retry.Ends(up, m, Sends(route, world, req));
    }
  }

  /** What becomes of a request, if it has passed the limiter stage. */
  function Fate(config: GatewayConfig, f: Flight): Option<Handled> {
    Completion(config, f.stage, f.visit.world)
  }

  /** The requests that passed the limiter stage, in that order. */
  function Served(flights: seq<Flight>, order: seq<nat>): (visits: seq<Visit>)
    requires forall k | 0 <= k < |order| :: order[k] < |flights|
    ensures |visits| == |order|
  {
    seq(|order|, k requires 0 <= k < |order| => flights[order[k]].visit)
  }

  /** `order` lists each request that has passed the limiter stage once, and no other. */
  ghost predicate Ordered(config: GatewayConfig, flights: seq<Flight>, order: seq<nat>) {
    && (forall k | 0 <= k < |order| :: order[k] < |flights|)
    && (forall j, k | 0 <= j < k < |order| :: order[j] != order[k])
    && (forall i | 0 <= i < |flights| :: i in order <==> Fate(config, flights[i]).Some?)
  }

  ghost predicate AllOnCourse(config: GatewayConfig, flights: seq<Flight>) {
    forall i | 0 <= i < |flights| :: OnCourse(config, flights[i].stage, flights[i].visit)
  }

  /** The limiter is as the sequential run leaves it, and each request is on its way to what it gets there. */
  ghost predicate Follows<L>(config: GatewayConfig, pipeline: Pipeline<L>, start: L, s: State<L>) {
    && Ordered(config, s.flights, s.order)
    && var (l, hs) := Run(pipeline, start, Served(s.flights, s.order));
       && s.limiter == l
       && forall k | 0 <= k < |s.order| :: Fate(config, s.flights[s.order[k]]) == Some(hs[k])
  }

  /** A step of one request that changes neither the limiter nor what becomes of it. */
  lemma MoveFollows<L>(config: GatewayConfig, pipeline: Pipeline<L>, start: L, s: State<L>, t: State<L>, id: nat,
                       stage: Stage)
    requires Follows(config, pipeline, start, s) && id < |s.flights|
    requires t.limiter == s.limiter && t.order == s.order && t.flights == Moved(s.flights, id, stage)
    requires Completion(config, stage, s.flights[id].visit.world) == Fate(config, s.flights[id])
    ensures Follows(config, pipeline, start, t)
  {
    assert forall i | 0 <= i < |s.flights| ::
        t.flights[i].visit == s.flights[i].visit && Fate(config, t.flights[i]) == Fate(config, s.flights[i]);
    assert Served(t.flights, t.order) == Served(s.flights, s.order);
  }

  lemma ArriveFollows<L>(config: GatewayConfig, pipeline: Pipeline<L>, start: L, s: State<L>, visit: Visit)
    requires Follows(config, pipeline, start, s)
    ensures Follows(config, pipeline, start, s.(flights := s.flights + [Flight(visit, Routing)]))
  {
    var flights := s.flights + [Flight(visit, Routing)];
    assert forall i | 0 <= i < |s.flights| :: flights[i] == s.flights[i];
    assert Served(flights, s.order) == Served(s.flights, s.order);
  }

  lemma {:induction false} RunSnoc<L>(pipeline: Pipeline<L>, limiter: L, visits: seq<Visit>, v: Visit)
    ensures var (l, hs) := Run(pipeline, limiter, visits);
            var (l', h) := pipeline(l, v);
            Run(pipeline, limiter, visits + [v]) == (l', hs + [h])
    decreases visits
  {
    if visits == [] {
      var (l, h) := pipeline(limiter, v);
      assert visits + [v] == [v] && [v][1..] == [];
      assert [h] + Run(pipeline, l, []).1 == [] + [h];
    } else {
      var (l0, h0) := pipeline(limiter, visits[0]);
      var hs := Run(pipeline, l0, visits[1..]).1;
      RunSnoc(pipeline, l0, visits[1..], v);
      assert (visits + [v])[0] == visits[0] && (visits + [v])[1..] == visits[1..] + [v];
      var h := Run(pipeline, l0, visits[1..] + [v]).1[|hs|];
      assert [h0] + (hs + [h]) == ([h0] + hs) + [h];
    }
  }

  lemma AdmitKeepsOrder(config: GatewayConfig, flights: seq<Flight>, order: seq<nat>, id: nat, stage: Stage)
    requires Ordered(config, flights, order) && id < |flights| && Fate(config, flights[id]) == None
    requires Completion(config, stage, flights[id].visit.world).Some?
    ensures Ordered(config, Moved(flights, id, stage), order + [id])
    ensures Served(Moved(flights, id, stage), order + [id]) == Served(flights, order) + [flights[id].visit]
  {
    var moved := Moved(flights, id, stage);
    assert id !in order;
    forall i | 0 <= i < |moved| ensures i in order + [id] <==> Fate(config, moved[i]).Some? {
      assert i != id ==> moved[i] == flights[i];
    }
  }

  /** The request that passes the limiter stage is next in the sequential run. */
  lemma AdmitFollows<L>(config: GatewayConfig, pipeline: Pipeline<L>, start: L, s: State<L>, t: State<L>, id: nat,
                        stage: Stage)
    requires Follows(config, pipeline, start, s) && id < |s.flights| && Fate(config, s.flights[id]) == None
    requires t.order == s.order + [id] && t.flights == Moved(s.flights, id, stage)
    requires var v := s.flights[id].visit;
             var (l, h) := pipeline(s.limiter, v);
             t.limiter == l && Completion(config, stage, v.world) == Some(h)
    ensures Follows(config, pipeline, start, t)
  {
    AdmitKeepsOrder(config, s.flights, s.order, id, stage);
    RunSnoc(pipeline, start, Served(s.flights, s.order), s.flights[id].visit);
    forall k | 0 <= k < |s.order| ensures t.flights[t.order[k]] == s.flights[s.order[k]] {
      assert s.order[k] in s.order;
    }
  }

  lemma MoveStaysOnCourse(config: GatewayConfig, flights: seq<Flight>, id: nat, stage: Stage)
    requires AllOnCourse(config, flights) && id < |flights| && OnCourse(config, stage, flights[id].visit)
    ensures AllOnCourse(config, Moved(flights, id, stage))
  {
  }

  lemma AdmissionStaysOnCourse<L>(config: GatewayConfig, check: Check<L>, limiter: L, v: Visit)
    ensures OnCourse(config, Admission(config, check, limiter, v).1, v)
  {
  }

  lemma StepStaysOnCourse<L>(config: GatewayConfig, check: Check<L>, s: State<L>, e: Event)
    requires AllOnCourse(config, s.flights)
    ensures AllOnCourse(config, Step(config, check, s, e).flights)
  {
    var t := Step(config, check, s, e);
    if !e.Arrive? && e.id < |s.flights| && t != s {
      var f := s.flights[e.id];
      assert OnCourse(config, f.stage, f.visit);
      if f.stage.Proxying? { GoesOnUntilSends(f.stage.route, f.visit.world, f.stage.req, f.stage.sent); }
      AdmissionStaysOnCourse(config, check, s.limiter, f.visit);
      MoveStaysOnCourse(config, s.flights, e.id, t.flights[e.id].stage);
    }
  }

  /** Between the limiter stage and its end a request's fate is settled. */
  lemma LaterStepsFollow<L>(config: GatewayConfig, check: Check<L>, pipeline: Pipeline<L>, start: L, s: State<L>,
                            e: Event)
    requires Follows(config, pipeline, start, s) && AllOnCourse(config, s.flights)
    requires !e.Arrive? && !e.Admit? && e.id < |s.flights|
    ensures Follows(config, pipeline, start, Step(config, check, s, e))
  {
    var f, t := s.flights[e.id], Step(config, check, s, e);
    if t != s {
      assert OnCourse(config, f.stage, f.visit);
      if f.stage.Proxying? { GoesOnUntilSends(f.stage.route, f.visit.world, f.stage.req, f.stage.sent); }
      MoveFollows(config, pipeline, start, s, t, e.id, t.flights[e.id].stage);
    }
  }

  lemma StepFollows<L>(config: GatewayConfig, check: Check<L>, start: L, s: State<L>, e: Event)
    requires Follows(config, PipelineOf(config, check), start, s) && AllOnCourse(config, s.flights)
    ensures Follows(config, PipelineOf(config, check), start, Step(config, check, s, e))
  {
    var pipeline := PipelineOf(config, check);
    if e.Arrive? {
      ArriveFollows(config, pipeline, start, s, e.visit);
    } else if e.id < |s.flights| {
      if !e.Admit? {
        LaterStepsFollow(config, check, pipeline, start, s, e);
      } else if s.flights[e.id].stage == Routing {
        var visit := s.flights[e.id].visit;
        AdmissionCompletes(config, check, s.limiter, visit);
        AdmitFollows(config, pipeline, start, s, Step(config, check, s, e), e.id,
                     Admission(config, check, s.limiter, visit).1);
      }
    }
  }

  lemma {:induction false} ExecuteFollows<L>(config: GatewayConfig, check: Check<L>, start: L, s: State<L>,
                                             events: seq<Event>)
    requires Follows(config, PipelineOf(config, check), start, s) && AllOnCourse(config, s.flights)
    ensures Follows(config, PipelineOf(config, check), start, Execute(config, check, s, events))
    ensures AllOnCourse(config, Execute(config, check, s, events).flights)
    decreases events
  {
    if events != [] {
      StepFollows(config, check, start, s, events[0]);
      StepStaysOnCourse(config, check, s, events[0]);
      ExecuteFollows(config, check, start, Step(config, check, s, events[0]), events[1..]);
    }
  }

  /**
   Every interleaving is the sequential run of the same requests in the order in which they passed the
   limiter stage: it leaves the same limiter, and each finished request got what it gets there. That
   covers requests dropped half-way, which count in that run as if they had been served.
   */
  lemma ServingIsSequential<L>(config: GatewayConfig, check: Check<L>, start: L, events: seq<Event>)
    ensures var s := Execute(config, check, Start(start), events);
            && Ordered(config, s.flights, s.order)
            && var (l, hs) := Run(PipelineOf(config, check), start, Served(s.flights, s.order));
               && s.limiter == l
               && (forall k | 0 <= k < |s.order| && s.flights[s.order[k]].stage.Finished? ::
                     s.flights[s.order[k]].stage.handled == hs[k])
               && (forall i | 0 <= i < |s.flights| && s.flights[i].stage.Finished? :: i in s.order)
  {
    ExecuteFollows(config, check, start, Start(start), events);
  }

  /** So with good subjects the limiter is as the composed middleware leaves it, in every interleaving. */
  lemma ServingRefinesMiddleware<L>(config: GatewayConfig, check: Check<L>, start: L, events: seq<Event>)
    requires forall k | 0 <= k < |events| && events[k].Arrive? :: GoodSubject(config, events[k].visit)
    ensures var s := Execute(config, check, Start(start), events);
            && Ordered(config, s.flights, s.order)
            && var visits := Served(s.flights, s.order);
               var (l, hs) := Run(PipelineOf(config, check), start, visits);
               (s.limiter, Stages(hs)) == RunMiddleware(config, check, start, visits)
  {
    var s := Execute(config, check, Start(start), events);
    ServingIsSequential(config, check, start, events);
    OnlyGoodArrive(config, check, Start(start), events);
    PipelineRefinesMiddleware(config, check, start, Served(s.flights, s.order));
  }

  ghost predicate AllGood(config: GatewayConfig, flights: seq<Flight>) {
    forall i | 0 <= i < |flights| :: GoodSubject(config, flights[i].visit)
  }

  lemma {:induction false} OnlyGoodArrive<L>(config: GatewayConfig, check: Check<L>, s: State<L>, events: seq<Event>)
    requires AllGood(config, s.flights)
    requires forall k | 0 <= k < |events| && events[k].Arrive? :: GoodSubject(config, events[k].visit)
    ensures AllGood(config, Execute(config, check, s, events).flights)
    decreases events
  {
    if events != [] {
      VisitsStay(config, check, s, events[0]);
      OnlyGoodArrive(config, check, Step(config, check, s, events[0]), events[1..]);
    }
  }

  /** A step adds a request or leaves every request's own data alone. */
  lemma VisitsStay<L>(config: GatewayConfig, check: Check<L>, s: State<L>, e: Event)
    ensures var t := Step(config, check, s, e);
            && |t.flights| == |s.flights| + (if e.Arrive? then 1 else 0)
            && (e.Arrive? ==> t.flights[|s.flights|].visit == e.visit)
            && forall i | 0 <= i < |s.flights| :: t.flights[i].visit == s.flights[i].visit
  {
  }

  /// Conservation

  function Add(c: Counters, d: Counters): Counters {
    Counters(c.requests + d.requests, c.cacheHits + d.cacheHits, c.rateLimited + d.rateLimited,
             c.authFailures + d.authFailures, c.charges + d.charges, c.sends + d.sends)
  }

  /** What a request has added to the counters by the stage it is at. */
  function Share(config: GatewayConfig, stage: Stage): Counters {
    match stage
    case Routing => ZERO
    case Looking(_, _) => ZERO.(charges := if config.limit.Some? then 1 else 0)
    case Proxying(_, _, sent) => ZERO.(charges := if config.limit.Some? then 1 else 0, sends := sent)
    case Finished(handled) => Counted(config, ZERO, handled)
    case Dropped(at) => Share(config, at)
  }

  function ShareOf(config: GatewayConfig): Flight -> Counters {
    (f: Flight) => Share(config, f.stage)
  }

  function Tally(share: Flight -> Counters, flights: seq<Flight>): Counters {
    if flights == [] then ZERO else Add(Tally(share, flights[..|flights| - 1]), share(flights[|flights| - 1]))
  }

  lemma TallyAppend(share: Flight -> Counters, front: seq<Flight>, last: Flight)
    ensures Tally(share, front + [last]) == Add(Tally(share, front), share(last))
  {
    assert (front + [last])[..|front|] == front;
  }

  lemma AddBoth(a: Counters, x: Counters, b: Counters, y: Counters, c: Counters)
    requires Add(a, x) == Add(b, y)
    ensures Add(Add(a, c), x) == Add(Add(b, c), y)
  {
  }

  /** Replacing one request changes the tally by what its own share changes. */
  lemma {:induction false} TallyReplaced(share: Flight -> Counters, flights: seq<Flight>, id: nat, f: Flight)
    requires id < |flights|
    ensures Add(Tally(share, flights[id := f]), share(flights[id])) == Add(Tally(share, flights), share(f))
    decreases |flights|
  {
    var n := |flights| - 1;
    var front, last := flights[..n], flights[n];
    assert flights == front + [last];
    if id == n {
      assert flights[id := f] == front + [f];
      TallyAppend(share, front, f);
    } else {
      TallyReplaced(share, front, id, f);
      assert flights[id := f] == front[id := f] + [last];
      TallyAppend(share, front[id := f], last);
      AddBoth(Tally(share, front[id := f]), share(flights[id]), Tally(share, front), share(f), share(last));
    }
  }

  /** The counters hold exactly what the requests have added to them. */
  ghost predicate Balanced<L>(config: GatewayConfig, s: State<L>) {
    s.counters == Tally(ShareOf(config), s.flights)
  }

  lemma MoveBalances(share: Flight -> Counters, flights: seq<Flight>, id: nat, f: Flight, c: Counters, d: Counters)
    requires id < |flights| && c == Tally(share, flights)
    requires Add(d, share(flights[id])) == Add(c, share(f))
    ensures d == Tally(share, flights[id := f])
  {
    TallyReplaced(share, flights, id, f);
  }

  lemma AdmissionBalances<L>(config: GatewayConfig, check: Check<L>, limiter: L, v: Visit, c: Counters)
    ensures var stage := Admission(config, check, limiter, v).1;
            AdmissionCounted(config, c, stage) == Add(c, Share(config, stage))
  {
  }

  lemma StepBalances<L>(config: GatewayConfig, check: Check<L>, s: State<L>, e: Event)
    requires Balanced(config, s)
    ensures Balanced(config, Step(config, check, s, e))
  {
    var share, t := ShareOf(config), Step(config, check, s, e);
    if e.Arrive? {
      TallyAppend(share, s.flights, Flight(e.visit, Routing));
    } else if e.id < |s.flights| && t != s {
      var f := t.flights[e.id];
      StepShares(config, check, s, e);
      MoveBalances(share, s.flights, e.id, f, s.counters, t.counters);
    }
  }

  /** A step moves the counters by what it adds to the share of its request. */
  lemma StepShares<L>(config: GatewayConfig, check: Check<L>, s: State<L>, e: Event)
    requires !e.Arrive? && e.id < |s.flights|
    ensures var t := Step(config, check, s, e);
            && t.flights == s.flights[e.id := t.flights[e.id]] && t.flights[e.id].visit == s.flights[e.id].visit
            && Add(t.counters, Share(config, s.flights[e.id].stage))
               == Add(s.counters, Share(config, t.flights[e.id].stage))
  {
    if e.Admit? { AdmissionBalances(config, check, s.limiter, s.flights[e.id].visit, s.counters); }
  }

  lemma {:induction false} ExecuteBalances<L>(config: GatewayConfig, check: Check<L>, s: State<L>,
                                              events: seq<Event>)
    requires Balanced(config, s)
    ensures Balanced(config, Execute(config, check, s, events))
    decreases events
  {
    if events != [] {
      StepBalances(config, check, s, events[0]);
      ExecuteBalances(config, check, Step(config, check, s, events[0]), events[1..]);
    }
  }

  /** Where a request stands: before the limiter stage, past it, ended, or dropped before or past it. */
  datatype Place = Waiting | InService | Ended(outcome: Outcome) | LeftWaiting | LeftInService

  function PlaceOf(stage: Stage): Place {
    match stage
    case Routing => Waiting
    case Looking(_, _) => InService
    case Proxying(_, _, _) => InService
    case Finished(handled) => Ended(handled.outcome)
    case Dropped(at) => if at == Routing then LeftWaiting else LeftInService
  }

  function CountAt(flights: seq<Flight>, place: Place): nat {
    if flights == [] then 0
    else CountAt(flights[..|flights| - 1], place) + if PlaceOf(flights[|flights| - 1].stage) == place then 1 else 0
  }

  function CountEnded(flights: seq<Flight>): nat {
    CountAt(flights, Ended(NotFound)) + CountAt(flights, Ended(Preflight)) + CountAt(flights, Ended(AuthFailed))
    + CountAt(flights, Ended(RateLimited)) + CountAt(flights, Ended(CacheHit))
    + CountAt(flights, Ended(ProxiedOk)) + CountAt(flights, Ended(ProxiedError))
  }

  lemma CountLast(flights: seq<Flight>, place: Place)
    requires flights != []
    ensures CountAt(flights, place)
         == CountAt(flights[..|flights| - 1], place) + if PlaceOf(flights[|flights| - 1].stage) == place then 1 else 0
  {
  }

  lemma {:induction false} PlacesPartition(flights: seq<Flight>)
    ensures |flights| == CountAt(flights, Waiting) + CountAt(flights, InService) + CountEnded(flights)
                         + CountAt(flights, LeftWaiting) + CountAt(flights, LeftInService)
  {
    if flights != [] {
      PlacesPartition(flights[..|flights| - 1]);
      forall place | place in EVERYWHERE
        ensures CountAt(flights, place) == CountAt(flights[..|flights| - 1], place)
                                           + if PlaceOf(flights[|flights| - 1].stage) == place then 1 else 0
      {
        CountLast(flights, place);
      }
      EverywhereIsAll(PlaceOf(flights[|flights| - 1].stage));
    }
  }

  const EVERYWHERE: set<Place> :=
    {Waiting, InService, LeftWaiting, LeftInService, Ended(NotFound), Ended(Preflight), Ended(AuthFailed),
     Ended(RateLimited), Ended(CacheHit), Ended(ProxiedOk), Ended(ProxiedError)}

  lemma EverywhereIsAll(place: Place)
    ensures place in EVERYWHERE
  {
    match place
    case Ended(NotFound) =>
    case Ended(Preflight) =>
    case Ended(AuthFailed) =>
    case Ended(RateLimited) =>
    case Ended(CacheHit) =>
    case Ended(ProxiedOk) =>
    case Ended(ProxiedError) =>
    case _ =>
  }

  /** The requests past the limiter stage, but for those refused before it. */
  function CountLimited(flights: seq<Flight>): nat {
    CountAt(flights, InService) + CountAt(flights, LeftInService) + CountAt(flights, Ended(RateLimited))
    + CountAt(flights, Ended(CacheHit)) + CountAt(flights, Ended(ProxiedOk)) + CountAt(flights, Ended(ProxiedError))
  }

  /** The attempts a request may make: none before it is proxied. */
  function Allowance(config: GatewayConfig, f: Flight): nat {
    var at := if f.stage.Dropped? then f.stage.at else f.stage;
    if at.Proxying? || (at.Finished? && IsProxied(at.handled.outcome)) then AllowedAttempts(config, f.visit) else 0
  }

  function Allowances(config: GatewayConfig, flights: seq<Flight>): nat {
    if flights == [] then 0
    else Allowances(config, flights[..|flights| - 1]) + Allowance(config, flights[|flights| - 1])
  }

  /** The share of one request, by where it stands. */
  lemma ShareByPlace(config: GatewayConfig, f: Flight)
    requires OnCourse(config, f.stage, f.visit)
    ensures var c, p := Share(config, f.stage), PlaceOf(f.stage);
            && c.authFailures == (if p == Ended(AuthFailed) then 1 else 0)
            && c.rateLimited == (if p == Ended(RateLimited) then 1 else 0)
            && c.cacheHits == (if p == Ended(CacheHit) then 1 else 0)
            && c.requests == (if p == Ended(ProxiedOk) then 1 else 0)
            && c.charges == (if config.limit.Some? && p in {InService, LeftInService, Ended(RateLimited),
                                                            Ended(CacheHit), Ended(ProxiedOk), Ended(ProxiedError)}
                             then 1 else 0)
            && c.sends <= Allowance(config, f)
  {
  }

  lemma {:induction false} TallyByPlace(config: GatewayConfig, flights: seq<Flight>)
    requires AllOnCourse(config, flights)
    ensures var c := Tally(ShareOf(config), flights);
            && c.authFailures == CountAt(flights, Ended(AuthFailed))
            && c.rateLimited == CountAt(flights, Ended(RateLimited))
            && c.cacheHits == CountAt(flights, Ended(CacheHit))
            && c.requests == CountAt(flights, Ended(ProxiedOk))
            && c.charges == (if config.limit.Some? then CountLimited(flights) else 0)
            && c.sends <= Allowances(config, flights)
    decreases |flights|
  {
    if flights != [] {
      TallyByPlace(config, flights[..|flights| - 1]);
      ShareByPlace(config, flights[|flights| - 1]);
    }
  }

  function Arrivals(events: seq<Event>): nat {
    if events == [] then 0 else (if events[0].Arrive? then 1 else 0) + Arrivals(events[1..])
  }

  lemma {:induction false} FlightsAreArrivals<L>(config: GatewayConfig, check: Check<L>, s: State<L>,
                                                 events: seq<Event>)
    ensures |Execute(config, check, s, events).flights| == |s.flights| + Arrivals(events)
    decreases events
  {
    if events != [] {
      VisitsStay(config, check, s, events[0]);
      FlightsAreArrivals(config, check, Step(config, check, s, events[0]), events[1..]);
    }
  }

  /**
   At every point of every interleaving: each request that arrived is waiting, in service, ended in
   one of seven ways or dropped; the counters are the counts of the endings; the limiter has been
   charged for exactly the requests that reached it, dropped ones included; and the upstreams got no
   more than the routes of the proxied requests allow.
   */
  lemma OutcomesAreConserved<L>(config: GatewayConfig, check: Check<L>, start: L, events: seq<Event>)
    ensures var s := Execute(config, check, Start(start), events);
            var fs, c := s.flights, s.counters;
            && Arrivals(events) == CountAt(fs, Waiting) + CountAt(fs, InService) + CountEnded(fs)
                                   + CountAt(fs, LeftWaiting) + CountAt(fs, LeftInService)
            && c.authFailures == CountAt(fs, Ended(AuthFailed)) && c.rateLimited == CountAt(fs, Ended(RateLimited))
            && c.cacheHits == CountAt(fs, Ended(CacheHit)) && c.requests == CountAt(fs, Ended(ProxiedOk))
            && c.charges == (if config.limit.Some? then CountLimited(fs) else 0)
            && c.sends <= Allowances(config, fs)
  {
    var s := Execute(config, check, Start(start), events);
    ExecuteFollows(config, check, start, Start(start), events);
    ExecuteBalances(config, check, Start(start), events);
    TallyByPlace(config, s.flights);
    PlacesPartition(s.flights);
    FlightsAreArrivals(config, check, Start(start), events);
  }

  /** A measure of the limiter's state that every check raises by one counts the checks. */
  ghost predicate CountsChecks<L(!new)>(measure: L -> nat, check: Check<L>) {
    forall l, key, at :: measure(check(l, key, at).0) == measure(l) + 1
  }

  lemma StepCharges<L(!new)>(config: GatewayConfig, check: Check<L>, measure: L -> nat, s: State<L>, e: Event)
    requires CountsChecks(measure, check)
    ensures var t := Step(config, check, s, e);
            measure(t.limiter) - measure(s.limiter) == t.counters.charges - s.counters.charges
  {
  }

  lemma {:induction false} ExecuteCharges<L(!new)>(config: GatewayConfig, check: Check<L>, measure: L -> nat,
                                                   s: State<L>, events: seq<Event>)
    requires CountsChecks(measure, check)
    ensures var t := Execute(config, check, s, events);
            measure(t.limiter) - measure(s.limiter) == t.counters.charges - s.counters.charges
    decreases events
  {
    if events != [] {
      StepCharges(config, check, measure, s, events[0]);
      ExecuteCharges(config, check, measure, Step(config, check, s, events[0]), events[1..]);
    }
  }

  /** The charges counted above are the checks made: any limiter that counts its checks agrees. */
  lemma ChargesAreChecks<L(!new)>(config: GatewayConfig, check: Check<L>, measure: L -> nat, start: L,
                                  events: seq<Event>)
    requires CountsChecks(measure, check)
    ensures var s := Execute(config, check, Start(start), events);
            measure(s.limiter) == measure(start) + s.counters.charges
  {
    ExecuteCharges(config, check, measure, Start(start), events);
  }
}

/**
 When the discovery cache holds the latest answer for a name (src/discovery/consul.rs and etcd.rs):
 in terms of what overlaps and what is dropped, and for any set of tasks that ask for the name.
 */
module Freshness {
  import opened Config
  import opened Discovery
  import opened Registry
  import opened Wrappers

  /** The list of the latest successful answer for a name, empty when there is none. */
  function Latest(history: seq<Reply>, name: string): seq<string> {
    if history == [] then []
    else
      var last := history[|history| - 1];
      if last.name == name then Endpoints(last.answer) else Latest(history[..|history| - 1], name)
  }

  /** The same, leaving out the answers that were dropped. */
  function Delivered(history: seq<Reply>, dropped: set<nat>, name: string): seq<string> {
    if history == [] then []
    else
      var k := |history| - 1;
      if history[k].name == name && k !in dropped then Endpoints(history[k].answer)
      else Delivered(history[..k], dropped, name)
  }

  lemma {:induction false} DropOfOtherName(history: seq<Reply>, dropped: set<nat>, k: nat, name: string)
    requires k < |history| ==> history[k].name != name
    ensures Delivered(history, dropped + {k}, name) == Delivered(history, dropped, name)
  {
    if history != [] {
      DropOfOtherName(history[..|history| - 1], dropped, k, name);
    }
  }

  /** The index of the latest answer for a name. */
  function LatestAt(history: seq<Reply>, name: string): (k: Option<nat>)
    ensures k.Some? ==> k.value < |history| && history[k.value].name == name
  {
    if history == [] then None
    else if history[|history| - 1].name == name then Some(|history| - 1)
    else LatestAt(history[..|history| - 1], name)
  }

  /** There is no answer for the name, or the latest one was not dropped. */
  predicate LatestKept(history: seq<Reply>, dropped: set<nat>, name: string) {
    var k := LatestAt(history, name);
    k == None || k.value !in dropped
  }

  lemma {:induction false} DeliveredIsLatest(history: seq<Reply>, dropped: set<nat>, name: string)
    requires LatestKept(history, dropped, name)
    ensures Delivered(history, dropped, name) == Latest(history, name)
  {
    if history != [] && history[|history| - 1].name != name {
      DeliveredIsLatest(history[..|history| - 1], dropped, name);
    }
  }

  predicate InFlight(task: Task, name: string) {
    task.name == name && (Querying(task) || task.phase.Rewriting?)
  }

  /** A task holds an answer it has not written yet. */
  predicate Holding(task: Task, name: string) {
    task.name == name && task.phase.Answered?
  }

  ghost predicate AtRest(s: State, name: string) {
    forall id | id in s.tasks :: !Holding(s.tasks[id], name)
  }

  ghost predicate NoOverlap(s: State, name: string) {
    forall i, j | i in s.tasks && j in s.tasks && InFlight(s.tasks[i], name) && InFlight(s.tasks[j], name) :: i == j
  }

  /** At no point of the run are two queries for the name under way. */
  ghost predicate NeverOverlaps(provider: Provider, s: State, events: seq<Event>, name: string)
    decreases events
  {
    && NoOverlap(s, name)
    && (events == [] || NeverOverlaps(provider, Step(provider, s, events[0]), events[1..], name))
  }

  ghost predicate TaskSettles(s: State, task: Task, name: string) {
    task.name == name ==>
      && (task.phase.Answered? ==>
            && ListOf(s.history, task.phase.source) == Delivered(s.history, s.dropped, name)
            && Cached(s, name) == Delivered(s.history, s.dropped + {task.phase.source}, name))
      && (task.phase.Rewriting? ==>
            ListOf(s.history, task.phase.source) == Delivered(s.history, s.dropped, name) == Cached(s, name))
      && (task.kind == Resolver && Querying(task) ==> Cached(s, name) == [])
  }

  ghost predicate Settles(s: State, name: string) {
    && (forall k | k in s.dropped :: k < |s.history|)
    && (forall id | id in s.tasks :: TaskSettles(s, s.tasks[id], name))
    && (AtRest(s, name) ==> Cached(s, name) == Delivered(s.history, s.dropped, name))
  }

  /** A change of one task's phase that leaves the cached list, the answers and the holding alone. */
  lemma PhaseSettles(s: State, t: State, id: nat, phase: Phase, name: string)
    requires Settles(s, name) && id in s.tasks && t.tasks == s.tasks[id := s.tasks[id].(phase := phase)]
    requires Cached(t, name) == Cached(s, name) && t.history == s.history && t.dropped == s.dropped
    requires TaskSettles(t, t.tasks[id], name)
    requires Holding(t.tasks[id], name) <==> Holding(s.tasks[id], name)
    ensures Settles(t, name)
  {
    forall i | i in t.tasks ensures TaskSettles(t, t.tasks[i], name) {
      if i != id { assert TaskSettles(s, s.tasks[i], name); }
    }
    assert forall i | i in s.tasks :: Holding(s.tasks[i], name) <==> Holding(t.tasks[i], name);
  }

  lemma ReadSettles(s: State, id: nat, name: string)
    requires Settles(s, name) && id in s.tasks
    ensures Settles(ReadStep(s, id), name)
  {
    var t := ReadStep(s, id);
    if s.tasks[id].phase == Start {
      PhaseSettles(s, t, id, t.tasks[id].phase, name);
    }
  }

  lemma ReplyOtherSettles(provider: Provider, s: State, id: nat, a: Answer, name: string)
    requires Settles(s, name) && Sound(provider, s)
    requires id in s.tasks && s.tasks[id].phase.Asking? && Fits(provider, a) && s.tasks[id].name != name
    ensures Settles(RespondStep(provider, s, id, Success(a)), name)
  {
    var t := RespondStep(provider, s, id, Success(a));
    assert t.history[..|s.history|] == s.history;
    forall i | i in t.tasks && i != id ensures TaskSettles(t, t.tasks[i], name) {
      assert TaskSettles(s, s.tasks[i], name) && TaskSound(s.history, s.tasks[i]);
    }
    assert forall i | i in s.tasks :: Holding(s.tasks[i], name) <==> Holding(t.tasks[i], name);
  }

  lemma ReplyOwnSettles(provider: Provider, s: State, id: nat, a: Answer, name: string)
    requires Settles(s, name) && NoOverlap(s, name)
    requires id in s.tasks && s.tasks[id].phase.Asking? && Fits(provider, a) && s.tasks[id].name == name
    ensures Settles(RespondStep(provider, s, id, Success(a)), name)
  {
    var t, k := RespondStep(provider, s, id, Success(a)), |s.history|;
    assert t.history[..k] == s.history;
    assert forall i | i in s.tasks && i != id :: t.tasks[i] == s.tasks[i] && !InFlight(s.tasks[i], name);
    assert AtRest(s, name);
    DropOfOtherName(s.history, s.dropped, k, name);
    assert TaskSettles(s, s.tasks[id], name);
    assert TaskSettles(t, t.tasks[id], name);
    assert Holding(t.tasks[id], name);
  }

  lemma RespondSettles(provider: Provider, s: State, id: nat, answer: Result<Answer, GatewayError>, name: string)
    requires Settles(s, name) && Sound(provider, s) && NoOverlap(s, name) && id in s.tasks
    ensures Settles(RespondStep(provider, s, id, answer), name)
  {
    if s.tasks[id].phase.Asking? {
      match answer
      case Success(a) =>
        if Fits(provider, a) {
          if s.tasks[id].name == name {
            ReplyOwnSettles(provider, s, id, a, name);
          } else {
            ReplyOtherSettles(provider, s, id, a, name);
          }
        }
      case Failure(error) =>
        var t := RespondStep(provider, s, id, answer);
        PhaseSettles(s, t, id, t.tasks[id].phase, name);
    }
  }

  lemma WriteOtherSettles(provider: Provider, s: State, id: nat, name: string)
    requires Settles(s, name) && id in s.tasks && s.tasks[id].name != name
    ensures Settles(WriteStep(provider, s, id), name)
  {
    var t := WriteStep(provider, s, id);
    if s.tasks[id].phase.Answered? || s.tasks[id].phase.Rewriting? {
      PhaseSettles(s, t, id, t.tasks[id].phase, name);
    }
  }

  lemma WriteOwnSettles(provider: Provider, s: State, id: nat, name: string)
    requires Settles(s, name) && NoOverlap(s, name) && id in s.tasks && s.tasks[id].name == name
    ensures Settles(WriteStep(provider, s, id), name)
  {
  }

  lemma SpawnSettles(s: State, id: nat, task: Task, name: string)
    requires Settles(s, name) && id !in s.tasks && task.phase == Start
    ensures Settles(s.(tasks := s.tasks[id := task]), name)
  {
    var t := s.(tasks := s.tasks[id := task]);
    assert forall i | i in s.tasks :: TaskSettles(s, s.tasks[i], name) && i in t.tasks && t.tasks[i] == s.tasks[i];
  }

  lemma RemoveSettles(s: State, id: nat, name: string)
    requires Settles(s, name) && !(id in s.tasks && Holding(s.tasks[id], name))
    ensures Settles(s.(tasks := s.tasks - {id}), name)
  {
    var t := s.(tasks := s.tasks - {id});
    assert forall i | i in s.tasks && i != id :: i in t.tasks && t.tasks[i] == s.tasks[i];
  }

  lemma DropOtherSettles(s: State, k: nat, name: string)
    requires Settles(s, name) && k < |s.history| && s.history[k].name != name
    ensures Settles(s.(dropped := s.dropped + {k}), name)
  {
    var t := s.(dropped := s.dropped + {k});
    DropOfOtherName(s.history, s.dropped, k, name);
    forall id | id in t.tasks ensures TaskSettles(t, t.tasks[id], name) {
      assert TaskSettles(s, s.tasks[id], name);
      if Holding(s.tasks[id], name) {
        var source := s.tasks[id].phase.source;
        DropOfOtherName(s.history, s.dropped + {source}, k, name);
        assert s.dropped + {k} + {source} == s.dropped + {source} + {k};
      }
    }
    assert AtRest(t, name) <==> AtRest(s, name);
  }

  lemma DropOwnSettles(s: State, id: nat, name: string)
    requires Settles(s, name) && NoOverlap(s, name) && id in s.tasks && Holding(s.tasks[id], name)
    requires s.tasks[id].kind == Resolver && s.tasks[id].phase.source < |s.history|
    ensures Settles(CancelStep(s, id), name)
  {
    var t := CancelStep(s, id);
    assert TaskSettles(s, s.tasks[id], name);
    assert forall i | i in t.tasks :: t.tasks[i] == s.tasks[i] && !InFlight(s.tasks[i], name);
  }

  lemma CancelSettles(provider: Provider, s: State, id: nat, name: string)
    requires Settles(s, name) && Sound(provider, s) && NoOverlap(s, name)
    ensures Settles(CancelStep(s, id), name)
  {
    if id in s.tasks && s.tasks[id].kind == Resolver {
      if !s.tasks[id].phase.Answered? {
        RemoveSettles(s, id, name);
      } else {
        assert TaskSound(s.history, s.tasks[id]);
        if s.tasks[id].name == name {
          DropOwnSettles(s, id, name);
        } else {
          RemoveSettles(s, id, name);
          DropOtherSettles(s.(tasks := s.tasks - {id}), s.tasks[id].phase.source, name);
        }
      }
    }
  }

  lemma ClockSettles(s: State, now: nat, name: string)
    requires Settles(s, name)
    ensures Settles(s.(now := now), name)
  {
  }

  lemma EffectSettles(provider: Provider, s: State, e: Event, name: string)
    requires Settles(s, name) && Sound(provider, s) && NoOverlap(s, name)
    ensures Settles(Effect(provider, s, e), name)
  {
    match e
    case Read(id) => if id in s.tasks { ReadSettles(s, id, name); }
    case Respond(id, answer) => if id in s.tasks { RespondSettles(provider, s, id, answer, name); }
    case Write(id) =>
      if id in s.tasks {
        if s.tasks[id].name == name {
          WriteOwnSettles(provider, s, id, name);
        } else {
          WriteOtherSettles(provider, s, id, name);
        }
      }
    case Spawn(id, kind, n) => if id !in s.tasks { SpawnSettles(s, id, Task(kind, n, Start), name); }
    case Cancel(id) => CancelSettles(provider, s, id, name);
  }

  lemma StepSettles(provider: Provider, s: State, t: State, e: Event, name: string)
    requires Settles(s, name) && Sound(provider, s) && NoOverlap(s, name) && t == Effect(provider, s, e)
    ensures Settles(t.(now := s.now + 1), name)
  {
    EffectSettles(provider, s, e, name);
    ClockSettles(t, s.now + 1, name);
  }

  lemma {:induction false} RunSettles(provider: Provider, s: State, events: seq<Event>, name: string)
    requires Settles(s, name) && Sound(provider, s) && NeverOverlaps(provider, s, events, name)
    ensures Settles(Run(provider, s, events), name)
    decreases events
  {
    if events != [] {
      StepSettles(provider, s, Effect(provider, s, events[0]), events[0], name);
      StepKeepsSound(provider, s, events[0]);
      RunSettles(provider, Step(provider, s, events[0]), events[1..], name);
    }
  }

  /**
   Without overlap, whatever is dropped: once no answer waits to be written, the cache holds the
   latest answer that was not dropped, and so the latest answer if that one was not.
   */
  lemma CacheIsLastDelivered(provider: Provider, events: seq<Event>, name: string)
    requires NeverOverlaps(provider, INIT, events, name) && AtRest(Run(provider, INIT, events), name)
    ensures var s := Run(provider, INIT, events);
            && Cached(s, name) == Delivered(s.history, s.dropped, name)
            && (LatestKept(s.history, s.dropped, name) ==> Cached(s, name) == Latest(s.history, name))
  {
    RunSettles(provider, INIT, events, name);
    var s := Run(provider, INIT, events);
    if LatestKept(s.history, s.dropped, name) {
      DeliveredIsLatest(s.history, s.dropped, name);
    }
  }

  /// Exactly which tasks keep the cache fresh

  /** The start of a schedule: these tasks for one name, and nothing else. */
  function Crewed(crew: map<nat, Kind>, name: string): State {
    State(map[], map id | id in crew :: Task(crew[id], name, Start), [], {}, 0)
  }

  /** The schedule adds no task for the name; it may add any for other names. */
  predicate AddsNone(events: seq<Event>, name: string) {
    forall i | 0 <= i < |events| :: events[i].Spawn? ==> events[i].name != name
  }

  ghost predicate DropsNone(s: State, name: string) {
    forall k | k in s.dropped && k < |s.history| :: s.history[k].name != name
  }

  /** Every schedule of the crew that drops no held answer for the name ends up with the latest one. */
  ghost predicate FreshWithoutDrops(provider: Provider, crew: map<nat, Kind>, name: string) {
    forall events |
      && AddsNone(events, name)
      && AtRest(Run(provider, Crewed(crew, name), events), name)
      && DropsNone(Run(provider, Crewed(crew, name), events), name) ::
      var s := Run(provider, Crewed(crew, name), events);
      Cached(s, name) == Latest(s.history, name)
  }

  /** And every schedule at all does. */
  ghost predicate AlwaysFresh(provider: Provider, crew: map<nat, Kind>, name: string) {
    forall events | AddsNone(events, name) && AtRest(Run(provider, Crewed(crew, name), events), name) ::
      var s := Run(provider, Crewed(crew, name), events);
      Cached(s, name) == Latest(s.history, name)
  }

  ghost predicate InCrew(s: State, crew: map<nat, Kind>, name: string) {
    forall id | id in s.tasks && s.tasks[id].name == name :: id in crew
  }

  lemma StepKeepsCrew(provider: Provider, s: State, e: Event, crew: map<nat, Kind>, name: string)
    requires InCrew(s, crew, name) && AddsNone([e], name)
    ensures InCrew(Step(provider, s, e), crew, name)
  {
    assert [e][0] == e;
  }

  lemma AtMostOne(crew: map<nat, Kind>, i: nat, j: nat)
    requires |crew| <= 1 && i in crew && j in crew
    ensures i == j
  {
    assert |crew.Keys - {i}| == |crew| - 1 == 0;
  }

  lemma AloneNeverOverlaps(s: State, crew: map<nat, Kind>, name: string)
    requires InCrew(s, crew, name) && |crew| <= 1
    ensures NoOverlap(s, name)
  {
    forall i, j | i in s.tasks && j in s.tasks && InFlight(s.tasks[i], name) && InFlight(s.tasks[j], name)
      ensures i == j
    {
      AtMostOne(crew, i, j);
    }
  }

  lemma {:induction false} SmallCrewNeverOverlaps(provider: Provider, s: State, events: seq<Event>,
                                                  crew: map<nat, Kind>, name: string)
    requires InCrew(s, crew, name) && |crew| <= 1 && AddsNone(events, name)
    ensures NeverOverlaps(provider, s, events, name)
    decreases events
  {
    AloneNeverOverlaps(s, crew, name);
    if events != [] {
      StepKeepsCrew(provider, s, events[0], crew, name);
      SmallCrewNeverOverlaps(provider, Step(provider, s, events[0]), events[1..], crew, name);
    }
  }

  lemma SmallCrewIsFresh(provider: Provider, crew: map<nat, Kind>, events: seq<Event>, name: string)
    requires |crew| <= 1 && AddsNone(events, name)
    requires AtRest(Run(provider, Crewed(crew, name), events), name)
    requires DropsNone(Run(provider, Crewed(crew, name), events), name)
    ensures var s := Run(provider, Crewed(crew, name), events);
            Cached(s, name) == Latest(s.history, name)
  {
    var start := Crewed(crew, name);
    assert Settles(start, name) && Sound(provider, start) && InCrew(start, crew, name);
    SmallCrewNeverOverlaps(provider, start, events, crew, name);
    RunSettles(provider, start, events, name);
    var s := Run(provider, start, events);
    DeliveredIsLatest(s.history, s.dropped, name);
  }

  lemma Asks(provider: Provider, s: State, id: nat)
    requires id in s.tasks && s.tasks[id].phase == Start && Cached(s, s.tasks[id].name) == []
    ensures Step(provider, s, Read(id)) == WithPhase(s, id, Asking(s.now)).(now := s.now + 1)
  {
  }

  lemma Answers(provider: Provider, s: State, id: nat, a: Answer)
    requires id in s.tasks && s.tasks[id].phase.Asking? && Fits(provider, a)
    ensures Step(provider, s, Respond(id, Success(a)))
         == WithPhase(s, id, Answered(s.tasks[id].phase.readAt, |s.history|))
              .(history := s.history + [Reply(s.tasks[id].name, a)], now := s.now + 1)
  {
  }

  /** Two writes finish any task that holds an answer; the second does nothing but for an Etcd watcher. */
  lemma WritesTwice(provider: Provider, s: State, id: nat)
    requires id in s.tasks && s.tasks[id].phase.Answered?
    ensures var t := Step(provider, Step(provider, s, Write(id)), Write(id));
            var list := ListOf(s.history, s.tasks[id].phase.source);
            var last := if s.tasks[id].kind == Resolver then Resolved(Choice(list)) else Start;
            && t.history == s.history && t.dropped == s.dropped
            && t.tasks == s.tasks[id := s.tasks[id].(phase := last)]
            && (list != [] ==> Cached(t, s.tasks[id].name) == list)
  {
  }

  lemma BothAsk(provider: Provider, s: State, i: nat, j: nat)
    requires i != j && i in s.tasks && j in s.tasks && s.tasks[i].phase == s.tasks[j].phase == Start
    requires Cached(s, s.tasks[i].name) == Cached(s, s.tasks[j].name) == []
    ensures Run(provider, s, [Read(i), Read(j)])
         == WithPhase(WithPhase(s, i, Asking(s.now)), j, Asking(s.now + 1)).(now := s.now + 2)
  {
    TwoSteps(provider, s, Read(i), Read(j));
    Asks(provider, s, i);
    Asks(provider, Step(provider, s, Read(i)), j);
  }

  lemma BothAnswered(provider: Provider, s: State, i: nat, j: nat, older: Answer, newer: Answer)
    requires i != j && i in s.tasks && j in s.tasks && s.tasks[i].phase.Asking? && s.tasks[j].phase.Asking?
    requires Fits(provider, older) && Fits(provider, newer)
    ensures var t := Run(provider, s, [Respond(i, Success(older)), Respond(j, Success(newer))]);
            && t.tasks.Keys == s.tasks.Keys && t.cache == s.cache && t.dropped == s.dropped
            && t.history == s.history + [Reply(s.tasks[i].name, older), Reply(s.tasks[j].name, newer)]
            && t.tasks[i] == s.tasks[i].(phase := Answered(s.tasks[i].phase.readAt, |s.history|))
            && t.tasks[j] == s.tasks[j].(phase := Answered(s.tasks[j].phase.readAt, |s.history| + 1))
            && forall id | id in s.tasks && id != i && id != j :: t.tasks[id] == s.tasks[id]
  {
    TwoSteps(provider, s, Respond(i, Success(older)), Respond(j, Success(newer)));
    Answers(provider, s, i, older);
    Answers(provider, Step(provider, s, Respond(i, Success(older))), j, newer);
  }

  predicate Settled(task: Task) {
    task.phase == Start || task.phase.Resolved?
  }

  lemma BothWritten(provider: Provider, s: State, i: nat, j: nat)
    requires i != j && i in s.tasks && j in s.tasks && s.tasks[i].phase.Answered? && s.tasks[j].phase.Answered?
    ensures var t := Run(provider, s, [Write(j), Write(j)] + [Write(i), Write(i)]);
            var list := ListOf(s.history, s.tasks[i].phase.source);
            && t.history == s.history && t.dropped == s.dropped && t.tasks.Keys == s.tasks.Keys
            && Settled(t.tasks[i]) && Settled(t.tasks[j])
            && (forall id | id in s.tasks && id != i && id != j :: t.tasks[id] == s.tasks[id])
            && (list != [] ==> Cached(t, s.tasks[i].name) == list)
  {
    RunConcat(provider, s, [Write(j), Write(j)], [Write(i), Write(i)]);
    TwoSteps(provider, s, Write(j), Write(j));
    WritesTwice(provider, s, j);
    var u := Run(provider, s, [Write(j), Write(j)]);
    TwoSteps(provider, u, Write(i), Write(i));
    WritesTwice(provider, u, i);
  }

  lemma LatestOfTwo(one: Reply, two: Reply)
    ensures Latest([one, two], two.name) == Endpoints(two.answer)
  {
  }

  /** Any two tasks of a name, answered in one order and written in the other. */
  function Crossing(i: nat, j: nat, older: Answer, newer: Answer): seq<Event> {
    [Read(i), Read(j)] + ([Respond(i, Success(older)), Respond(j, Success(newer))]
                          + ([Write(j), Write(j)] + [Write(i), Write(i)]))
  }

  /** That leaves the older answer in the cache, with no query under way and nothing dropped. */
  lemma OverlapCanGoStale(provider: Provider, crew: map<nat, Kind>, name: string, i: nat, j: nat,
                          older: Answer, newer: Answer)
    requires i in crew && j in crew && i != j
    requires Fits(provider, older) && Fits(provider, newer) && Endpoints(older) != []
    ensures var s := Run(provider, Crewed(crew, name), Crossing(i, j, older, newer));
            && s.dropped == {} && (forall id | id in s.tasks :: Settled(s.tasks[id]))
            && Cached(s, name) == Endpoints(older) && Latest(s.history, name) == Endpoints(newer)
  {
    var start := Crewed(crew, name);
    var asks, answers := [Read(i), Read(j)], [Respond(i, Success(older)), Respond(j, Success(newer))];
    var writes := [Write(j), Write(j)] + [Write(i), Write(i)];
    BothAsk(provider, start, i, j);
    var asking := Run(provider, start, asks);
    BothAnswered(provider, asking, i, j, older, newer);
    var answered := Run(provider, asking, answers);
    assert answered.history == [Reply(name, older), Reply(name, newer)];
    LatestOfTwo(Reply(name, older), Reply(name, newer));
    BothWritten(provider, answered, i, j);
    RunConcat(provider, start, asks, answers + writes);
    RunConcat(provider, asking, answers, writes);
  }

  /** A resolver dropped with its answer in hand leaves the cache without it. */
  lemma DropCanGoStale(provider: Provider, crew: map<nat, Kind>, name: string, i: nat, answer: Answer)
    requires i in crew && crew[i] == Resolver && Fits(provider, answer)
    ensures var s := Run(provider, Crewed(crew, name), [Read(i)] + [Respond(i, Success(answer)), Cancel(i)]);
            && (forall id | id in s.tasks :: Settled(s.tasks[id]))
            && Cached(s, name) == [] && Latest(s.history, name) == Endpoints(answer)
  {
    var start := Crewed(crew, name);
    Asks(provider, start, i);
    var asking := Step(provider, start, Read(i));
    assert Run(provider, start, [Read(i)]) == asking;
    Answers(provider, asking, i, answer);
    TwoSteps(provider, asking, Respond(i, Success(answer)), Cancel(i));
    RunConcat(provider, start, [Read(i)], [Respond(i, Success(answer)), Cancel(i)]);
  }

  /** An answer with one endpoint, and one with none. */
  lemma Samples(provider: Provider) returns (some: Answer, none: Answer)
    ensures Fits(provider, some) && Fits(provider, none) && Endpoints(some) != [] && Endpoints(none) == []
  {
    match provider
    case Consul =>
      some, none := ConsulAnswer([ConsulService("a", 80, [])]), ConsulAnswer([]);
      assert IsHealthy(some.services[0]);
    case Etcd =>
      some, none := EtcdAnswer([EtcdEntry("", "a")]), EtcdAnswer([]);
  }

  lemma TwoMembers(crew: map<nat, Kind>) returns (i: nat, j: nat)
    requires |crew| > 1
    ensures i in crew && j in crew && i != j
  {
    i :| i in crew;
    assert |crew.Keys - {i}| == |crew| - 1;
    j :| j in crew.Keys - {i};
  }

  lemma TwoCanCross(provider: Provider, crew: map<nat, Kind>, name: string)
    requires |crew| > 1
    ensures !FreshWithoutDrops(provider, crew, name)
  {
    var i, j := TwoMembers(crew);
    var some, none := Samples(provider);
    OverlapCanGoStale(provider, crew, name, i, j, some, none);
    assert AddsNone(Crossing(i, j, some, none), name);
  }

  /** Without drops, every schedule is fresh exactly when at most one task asks for the name. */
  lemma FreshExactlyWhenAlone(provider: Provider, crew: map<nat, Kind>, name: string)
    ensures FreshWithoutDrops(provider, crew, name) <==> |crew| <= 1
  {
    if |crew| <= 1 {
      forall events |
        && AddsNone(events, name)
        && AtRest(Run(provider, Crewed(crew, name), events), name)
        && DropsNone(Run(provider, Crewed(crew, name), events), name)
        ensures var s := Run(provider, Crewed(crew, name), events);
                Cached(s, name) == Latest(s.history, name)
      {
        SmallCrewIsFresh(provider, crew, events, name);
      }
    } else {
      TwoCanCross(provider, crew, name);
    }
  }

  predicate AllWatchers(crew: map<nat, Kind>) {
    forall id | id in crew :: crew[id] == Watcher
  }

  /** No resolver asks for the name, and no answer for it was dropped. */
  ghost predicate Watched(s: State, name: string) {
    && (forall id | id in s.tasks && s.tasks[id].name == name :: s.tasks[id].kind == Watcher)
    && (forall k | k in s.dropped :: k < |s.history| && s.history[k].name != name)
  }

  lemma CancelKeepsWatched(provider: Provider, s: State, id: nat, name: string)
    requires Sound(provider, s) && Watched(s, name)
    ensures Watched(CancelStep(s, id), name)
  {
    if id in s.tasks {
      assert TaskSound(s.history, s.tasks[id]);
    }
  }

  /** Any other step drops nothing and changes no task's name or kind. */
  lemma OtherStepsKeepWatched(provider: Provider, s: State, e: Event, name: string)
    requires Watched(s, name) && (e.Spawn? ==> e.name != name) && !e.Cancel?
    ensures Watched(Effect(provider, s, e), name)
  {
  }

  lemma StepKeepsWatched(provider: Provider, s: State, e: Event, name: string)
    requires Sound(provider, s) && Watched(s, name) && (e.Spawn? ==> e.name != name)
    ensures Watched(Step(provider, s, e), name)
  {
    if e.Cancel? {
      CancelKeepsWatched(provider, s, e.id, name);
    } else {
      OtherStepsKeepWatched(provider, s, e, name);
    }
  }

  lemma {:induction false} RunKeepsWatched(provider: Provider, s: State, events: seq<Event>, name: string)
    requires Sound(provider, s) && Watched(s, name) && AddsNone(events, name)
    ensures Watched(Run(provider, s, events), name)
    decreases events
  {
    if events != [] {
      StepKeepsSound(provider, s, events[0]);
      StepKeepsWatched(provider, s, events[0], name);
      RunKeepsWatched(provider, Step(provider, s, events[0]), events[1..], name);
    }
  }

  lemma ResolverGoesStale(provider: Provider, crew: map<nat, Kind>, name: string, i: nat)
    requires i in crew && crew[i] == Resolver
    ensures !AlwaysFresh(provider, crew, name)
  {
    var some, none := Samples(provider);
    DropCanGoStale(provider, crew, name, i, some);
    assert AddsNone([Read(i)] + [Respond(i, Success(some)), Cancel(i)], name);
  }

  /** With resolvers dropped at any await, exactly when no more than one task asks, and that is a watcher. */
  lemma AlwaysFreshExactlyForOneWatcher(provider: Provider, crew: map<nat, Kind>, name: string)
    ensures AlwaysFresh(provider, crew, name) <==> |crew| <= 1 && AllWatchers(crew)
  {
    if |crew| > 1 {
      TwoCanCross(provider, crew, name);
    } else if !AllWatchers(crew) {
      var i :| i in crew && crew[i] != Watcher;
      ResolverGoesStale(provider, crew, name, i);
    } else {
      forall events | AddsNone(events, name) && AtRest(Run(provider, Crewed(crew, name), events), name)
        ensures var s := Run(provider, Crewed(crew, name), events);
                Cached(s, name) == Latest(s.history, name)
      {
        RunKeepsWatched(provider, Crewed(crew, name), events, name);
        SmallCrewIsFresh(provider, crew, events, name);
      }
    }
  }
}

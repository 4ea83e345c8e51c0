/** The life of one agent run row (backend/app/repositories/agent_run_repository.py) and the
    executors that drive it (backend/app/services/run_endpoint_service.py,
    backend/app/services/agent_run_service.py, backend/app/agents/guardrails/escalation.py). */
module AgentRuns {
  import opened Wrappers

  datatype Status = Pending | Running | Completed | Failed

  datatype Run = Run(
    status: Status, startedAt: Option<int>, completedAt: Option<int>, error: Option<string>, result: Option<string>)

  const FRESH := Run(Pending, None, None, None, None)
  const RUN_FAILED := "The run failed."
  const STALE_RUN := "The run went stale."
  const NOT_DELIVERED := "The question could not be posted."

  // ----- One row

  datatype Mark =
    | Start(at: int)
    | Complete(at: int, result: Option<string>)
    | Fail(at: int, error: string)

  function Target(m: Mark): Status {
    match m
    case Start(_) => Running
    case Complete(_, _) => Completed
    case Fail(_, _) => Failed
  }

  function AllowedTargets(s: Status): set<Status> {
    match s
    case Pending => {Running, Failed}
    case Running => {Completed, Failed}
    case Completed => {}
    case Failed => {}
  }

  predicate Permitted(run: Run, m: Mark) {
    Target(m) in AllowedTargets(run.status)
  }

  /** The row after a transition; one that is not permitted raises and writes nothing. */
  function Apply(run: Run, m: Mark): Run {
    if !Permitted(run, m) then run
    else
      match m
      case Start(at) => run.(status := Running, startedAt := if run.startedAt.Some? then run.startedAt else Some(at))
      case Complete(at, result) => run.(status := Completed, completedAt := Some(at), result := result, error := None)
      case Fail(at, error) => run.(status := Failed, completedAt := Some(at), error := Some(error))
  }

  function Marked(run: Run, marks: seq<Mark>): Run {
    if marks == [] then run else Apply(Marked(run, marks[..|marks| - 1]), marks[|marks| - 1])
  }

  predicate Terminal(run: Run) {
    run.status == Completed || run.status == Failed
  }

  /** What the columns of a row always say about each other. */
  predicate ValidRun(run: Run) {
    && (run.completedAt.Some? <==> Terminal(run))
    && (run.error.Some? <==> run.status == Failed)
    && (run.result.Some? ==> run.status == Completed)
    && (run.status == Pending ==> run.startedAt.None?)
    && (run.status == Running || run.status == Completed ==> run.startedAt.Some?)
  }

  /** Whatever is tried on a row: it stays valid, a terminal row never changes again, and a start
      time once set is kept. */
  lemma {:induction false} MarksKeepTheRow(run: Run, marks: seq<Mark>)
    requires ValidRun(run)
    ensures ValidRun(Marked(run, marks))
    ensures Terminal(run) ==> Marked(run, marks) == run
    ensures run.startedAt.Some? ==> Marked(run, marks).startedAt == run.startedAt
    ensures run.status != Pending ==> Marked(run, marks).status != Pending
  {
    if marks != [] { MarksKeepTheRow(run, marks[..|marks| - 1]); }
  }

  // ----- Executors on one row

  datatype Phase =
    | Starting
    | Dispatching
    | InGraph(escalated: bool)
    | Succeeding(result: Option<string>)
    | Failing
    | Recovering
    | Done

  /** `recovers` tells the background executor, which has an outer handler, from the inline one. */
  datatype Executor = Executor(recovers: bool, phase: Phase, dispatched: bool, delivered: bool)

  /** Who marked the run failed. */
  datatype Actor = Nobody | Reclaimer | By(k: nat)

  datatype World = World(run: Run, executors: seq<Executor>, owner: Option<nat>, dispatches: nat, failedBy: Actor)

  /** `Deliver` and `Undelivered` are the node's escalation with its message written or not. */
  datatype Event =
    | GoOn(at: int)
    | CannotPrepare
    | Deliver(at: int)
    | Undelivered(at: int)
    | Return(result: Option<string>)
    | Raise

  datatype Action = Enter(recovers: bool) | Act(k: nat, event: Event) | Reclaim(at: int)

  function AfterRaise(e: Executor): Executor {
    e.(phase := if e.recovers then Recovering else Done)
  }

  /** The world with executor `k` moved on and a transition tried on the row. */
  function Moved(w: World, k: nat, e: Executor, m: Mark): World
    requires k < |w.executors|
  {
    w.(executors := w.executors[k := e], run := Apply(w.run, m),
       failedBy := if m.Fail? && Permitted(w.run, m) then By(k) else w.failedBy)
  }

  function Put(w: World, k: nat, e: Executor): World
    requires k < |w.executors|
  {
    w.(executors := w.executors[k := e])
  }

  function Step(w: World, k: nat, event: Event): World
    requires k < |w.executors|
  {
    var e := w.executors[k];
    match (e.phase, event)
    case (Starting, GoOn(at)) =>
      if Permitted(w.run, Start(at)) then Moved(w, k, e.(phase := Dispatching), Start(at)).(owner := Some(k))
      else Put(w, k, AfterRaise(e))
    case (Dispatching, GoOn(_)) =>
      Put(w, k, e.(phase := InGraph(false), dispatched := true)).(dispatches := w.dispatches + 1)
    case (Dispatching, CannotPrepare) => Put(w, k, AfterRaise(e))
    case (InGraph(false), Deliver(at)) =>
      var next := if Permitted(w.run, Complete(at, None)) then InGraph(true) else Failing;
      Moved(w, k, e.(phase := next, delivered := true), Complete(at, None))
    case (InGraph(false), Undelivered(at)) => Moved(w, k, e.(phase := InGraph(true)), Fail(at, NOT_DELIVERED))
    case (InGraph(_), Return(result)) => Put(w, k, e.(phase := Succeeding(result)))
    case (InGraph(_), Raise) => Put(w, k, e.(phase := Failing))
    case (Succeeding(result), GoOn(at)) =>
      var moved := if Permitted(w.run, Complete(at, result)) then e.(phase := Done) else AfterRaise(e);
      Moved(w, k, moved, Complete(at, result))
    case (Failing, GoOn(at)) =>
      var moved := if Permitted(w.run, Fail(at, RUN_FAILED)) then e.(phase := Done) else AfterRaise(e);
      Moved(w, k, moved, Fail(at, RUN_FAILED))
    case (Recovering, GoOn(at)) => Moved(w, k, e.(phase := Done), Fail(at, RUN_FAILED))
    case _ => w
  }

  function Next(w: World, a: Action): World {
    match a
    case Enter(recovers) => w.(executors := w.executors + [Executor(recovers, Starting, false, false)])
    case Act(k, event) => if k < |w.executors| then Step(w, k, event) else w
    case Reclaim(at) =>
      w.(run := Apply(w.run, Fail(at, STALE_RUN)),
         failedBy := if Permitted(w.run, Fail(at, STALE_RUN)) then Reclaimer else w.failedBy)
  }

  function Exec(w: World, actions: seq<Action>): World {
    if actions == [] then w else Next(Exec(w, actions[..|actions| - 1]), actions[|actions| - 1])
  }

  const CREATED := World(FRESH, [], None, 0, Nobody)

  // ----- What every reachable world satisfies

  /** Phases only the executor that started the run can be in. */
  predicate Owns(p: Phase) {
    p.Dispatching? || p.InGraph? || p.Succeeding? || p.Failing?
  }

  predicate BeforeItsOutcome(p: Phase) {
    p.Starting? || p.Dispatching? || p == InGraph(false)
  }

  predicate ExecutorOk(w: World, k: nat, e: Executor) {
    && (Owns(e.phase) || e.dispatched || e.delivered ==> w.owner == Some(k))
    && (e.phase.Starting? || e.phase.Dispatching? ==> !e.dispatched)
    && (e.phase.InGraph? ==> e.dispatched) && (e.dispatched ==> w.dispatches == 1)
    && (BeforeItsOutcome(e.phase) ==> w.failedBy != By(k) && !e.delivered)
    && (Owns(e.phase) && BeforeItsOutcome(e.phase) ==> w.run.status == Running || w.run.status == Failed)
    && (e.phase.Starting? ==> w.owner != Some(k))
    && (!e.phase.Starting? ==> w.run.status != Pending)
    && (e.phase.Done? && e.recovers ==> Terminal(w.run))
    && (e.delivered ==> Terminal(w.run) && w.failedBy != By(k) && w.run.result.None?)
  }

  predicate RowOk(w: World) {
    && ValidRun(w.run)
    && (w.run.status == Pending ==> w.owner.None?)
    && (w.run.status == Running || w.failedBy.By? ==> w.owner.Some?)
    && (w.run.status == Failed <==> w.failedBy != Nobody)
    && (w.owner.Some? ==> w.owner.value < |w.executors|)
    && (w.failedBy.By? ==> w.failedBy.k < |w.executors|)
    && w.dispatches <= 1
    && (w.dispatches == 1 ==> w.owner.Some? && w.executors[w.owner.value].dispatched)
  }

  predicate Inv(w: World) {
    RowOk(w) && forall k :: 0 <= k < |w.executors| ==> ExecutorOk(w, k, w.executors[k])
  }

  lemma StepKeepsRowOk(w: World, k: nat, event: Event)
    requires Inv(w) && k < |w.executors|
    ensures RowOk(Step(w, k, event))
  {
    assert ExecutorOk(w, k, w.executors[k]);
  }

  lemma StepKeepsMover(w: World, k: nat, event: Event)
    requires Inv(w) && k < |w.executors|
    ensures ExecutorOk(Step(w, k, event), k, Step(w, k, event).executors[k])
  {
    assert ExecutorOk(w, k, w.executors[k]);
  }

  lemma StepKeepsOthers(w: World, k: nat, event: Event, j: nat)
    requires Inv(w) && k < |w.executors| && j < |w.executors| && j != k
    ensures ExecutorOk(Step(w, k, event), j, Step(w, k, event).executors[j])
  {
    assert ExecutorOk(w, k, w.executors[k]);
    assert ExecutorOk(w, j, w.executors[j]);
  }

  lemma NextKeepsInv(w: World, a: Action)
    requires Inv(w)
    ensures Inv(Next(w, a))
  {
    match a
    case Act(k, event) =>
      if k < |w.executors| {
        StepKeepsRowOk(w, k, event);
        StepKeepsMover(w, k, event);
        forall j | 0 <= j < |w.executors|
          ensures ExecutorOk(Step(w, k, event), j, Step(w, k, event).executors[j])
        {
          if j != k { StepKeepsOthers(w, k, event, j); }
        }
      }
    case Enter(recovers) =>
      forall j | 0 <= j < |w.executors| ensures ExecutorOk(Next(w, a), j, w.executors[j]) {
        assert ExecutorOk(w, j, w.executors[j]);
      }
    case Reclaim(at) =>
      forall j | 0 <= j < |w.executors| ensures ExecutorOk(Next(w, a), j, w.executors[j]) {
        assert ExecutorOk(w, j, w.executors[j]);
      }
  }

  lemma {:induction false} ExecKeepsInv(w: World, actions: seq<Action>)
    requires Inv(w)
    ensures Inv(Exec(w, actions))
  {
    if actions != [] {
      ExecKeepsInv(w, actions[..|actions| - 1]);
      NextKeepsInv(Exec(w, actions[..|actions| - 1]), actions[|actions| - 1]);
    }
  }

  /** Every action tries at most one transition on the row. */
  lemma NextMarksOnce(w: World, a: Action)
    ensures Next(w, a).run == w.run || exists m :: Next(w, a).run == Apply(w.run, m)
  {
  }

  // ----- The results

  /** However many executors hold the row, the graph is dispatched at most once, and the columns
      always agree with the status. */
  lemma DispatchedAtMostOnce(actions: seq<Action>)
    ensures Exec(CREATED, actions).dispatches <= 1 && ValidRun(Exec(CREATED, actions).run)
    ensures
      var w := Exec(CREATED, actions);
      w.dispatches == 1 <==> exists k :: 0 <= k < |w.executors| && w.executors[k].dispatched
    ensures
      var executors := Exec(CREATED, actions).executors;
      forall j, k |
        0 <= j < |executors| && 0 <= k < |executors| && executors[j].dispatched && executors[k].dispatched :: j == k
  {
    ExecKeepsInv(CREATED, actions);
    var w := Exec(CREATED, actions);
    if k :| 0 <= k < |w.executors| && w.executors[k].dispatched { assert ExecutorOk(w, k, w.executors[k]); }
    forall j, k |
      0 <= j < |w.executors| && 0 <= k < |w.executors| && w.executors[j].dispatched && w.executors[k].dispatched
      ensures j == k
    {
      assert ExecutorOk(w, j, w.executors[j]) && ExecutorOk(w, k, w.executors[k]);
    }
  }

  /** A terminal run is final, and a start time once set is kept, whatever happens next. */
  lemma {:induction false} TerminalIsFinal(w: World, actions: seq<Action>)
    ensures Terminal(w.run) ==> Exec(w, actions).run == w.run
    ensures w.run.startedAt.Some? ==> Exec(w, actions).run.startedAt == w.run.startedAt
  {
    if actions != [] {
      TerminalIsFinal(w, actions[..|actions| - 1]);
      NextMarksOnce(Exec(w, actions[..|actions| - 1]), actions[|actions| - 1]);
    }
  }

  /** When a background executor returns, the run is terminal, whatever its node did. */
  lemma BackgroundExecutorsSettleTheRun(actions: seq<Action>, k: nat)
    requires k < |Exec(CREATED, actions).executors|
    requires Exec(CREATED, actions).executors[k].recovers && Exec(CREATED, actions).executors[k].phase.Done?
    ensures Terminal(Exec(CREATED, actions).run)
  {
    ExecKeepsInv(CREATED, actions);
    assert ExecutorOk(Exec(CREATED, actions), k, Exec(CREATED, actions).executors[k]);
  }

  /** An escalation that reached the party stands: unless a rival failed the run, the run is
      completed with no error, no matter how far finalisation has come. */
  lemma DeliveredEscalationStands(actions: seq<Action>, k: nat)
    requires k < |Exec(CREATED, actions).executors| && Exec(CREATED, actions).executors[k].delivered
    ensures
      var w := Exec(CREATED, actions);
      if w.failedBy == Nobody then w.run.status == Completed && w.run.error.None? && w.run.result.None?
      else w.failedBy != By(k) && w.run.status == Failed
  {
    ExecKeepsInv(CREATED, actions);
    assert ExecutorOk(Exec(CREATED, actions), k, Exec(CREATED, actions).executors[k]);
  }

  // ----- Left alone, an executor comes to its end

  /** Executor `k` meets these events, one after the other, and nobody else does anything. */
  function Meet(w: World, k: nat, events: seq<Event>): (n: World)
    ensures |n.executors| == |w.executors|
    decreases events
  {
    if events == [] then w else Meet(Next(w, Act(k, events[0])), k, events[1..])
  }

  lemma MeetMore(w: World, k: nat, e: Event, rest: seq<Event>)
    ensures Meet(w, k, [e] + rest) == Meet(Next(w, Act(k, e)), k, rest)
  {
    assert ([e] + rest)[1..] == rest;
  }

  lemma MeetFour(w: World, k: nat, a: Event, b: Event, c: Event, d: Event)
    ensures Meet(w, k, [a, b, c, d]) == Next(Next(Next(Next(w, Act(k, a)), Act(k, b)), Act(k, c)), Act(k, d))
  {
    MeetMore(w, k, a, [b, c, d]);
    assert [a] + [b, c, d] == [a, b, c, d];
    MeetMore(Next(w, Act(k, a)), k, b, [c, d]);
    assert [b] + [c, d] == [b, c, d];
    MeetMore(Next(Next(w, Act(k, a)), Act(k, b)), k, c, [d]);
    assert [c] + [d] == [c, d];
    MeetMore(Next(Next(Next(w, Act(k, a)), Act(k, b)), Act(k, c)), k, d, []);
    assert [d] + [] == [d];
  }

  lemma EndsInTwo(w: World, k: nat, at: int)
    requires k < |w.executors|
    requires var p := w.executors[k].phase; p.Succeeding? || p.Failing? || p.Recovering? || p.Done?
    ensures Meet(w, k, [GoOn(at), GoOn(at)]).executors[k].phase.Done?
  {
    var n := Next(w, Act(k, GoOn(at)));
    MeetMore(w, k, GoOn(at), [GoOn(at)]);
    assert [GoOn(at)] + [GoOn(at)] == [GoOn(at), GoOn(at)];
    assert n.executors[k].phase.Done? || n.executors[k].phase.Recovering?;
    MeetMore(n, k, GoOn(at), []);
    assert [GoOn(at)] + [] == [GoOn(at)];
  }

  lemma EndsInThree(w: World, k: nat, at: int, result: Option<string>)
    requires k < |w.executors|
    requires var p := w.executors[k].phase; p.InGraph? || p.Recovering? || p.Done?
    ensures Meet(w, k, [Return(result), GoOn(at), GoOn(at)]).executors[k].phase.Done?
  {
    MeetMore(w, k, Return(result), [GoOn(at), GoOn(at)]);
    assert [Return(result)] + [GoOn(at), GoOn(at)] == [Return(result), GoOn(at), GoOn(at)];
    EndsInTwo(Next(w, Act(k, Return(result))), k, at);
  }

  lemma EndsInFour(w: World, k: nat, at: int, result: Option<string>)
    requires k < |w.executors|
    requires var p := w.executors[k].phase; p.Dispatching? || p.InGraph? || p.Recovering? || p.Done?
    ensures Meet(w, k, [GoOn(at), Return(result), GoOn(at), GoOn(at)]).executors[k].phase.Done?
  {
    MeetMore(w, k, GoOn(at), [Return(result), GoOn(at), GoOn(at)]);
    assert [GoOn(at)] + [Return(result), GoOn(at), GoOn(at)] == [GoOn(at), Return(result), GoOn(at), GoOn(at)];
    EndsInThree(Next(w, Act(k, GoOn(at))), k, at, result);
  }

  lemma GoesOn(w: World, k: nat, at: int)
    requires k < |w.executors|
    ensures
      var p := Next(w, Act(k, GoOn(at))).executors[k].phase;
      p.Dispatching? || p.InGraph? || p.Recovering? || p.Done?
  {
    var p := w.executors[k].phase;
    if p.Starting? {
    } else if p.Dispatching? {
    } else if p.Succeeding? {
    }
  }

  /** Wherever it is, five events bring an executor that is left alone to its end. */
  lemma LeftAloneItEnds(w: World, k: nat, at: int, result: Option<string>)
    requires k < |w.executors|
    ensures Meet(w, k, [GoOn(at), GoOn(at), Return(result), GoOn(at), GoOn(at)]).executors[k].phase.Done?
  {
    MeetMore(w, k, GoOn(at), [GoOn(at), Return(result), GoOn(at), GoOn(at)]);
    assert [GoOn(at)] + [GoOn(at), Return(result), GoOn(at), GoOn(at)] ==
      [GoOn(at), GoOn(at), Return(result), GoOn(at), GoOn(at)];
    GoesOn(w, k, at);
    EndsInFour(Next(w, Act(k, GoOn(at))), k, at, result);
  }

  /** An executor that finds the row pending and is left alone ends it as its node ended: completed
      with the node's result, or failed if the node raised. */
  lemma UndisturbedRunEndsAsItsNode(w: World, k: nat, at: int, later: int, end: int, result: Option<string>)
    requires k < |w.executors| && w.executors[k].phase.Starting? && w.run == FRESH
    ensures
      var n := Meet(w, k, [GoOn(at), GoOn(later), Return(result), GoOn(end)]);
      && n.run == Run(Completed, Some(at), Some(end), None, result) && n.failedBy == w.failedBy
      && n.executors[k].phase.Done? && n.dispatches == w.dispatches + 1 && n.owner == Some(k)
    ensures
      var n := Meet(w, k, [GoOn(at), GoOn(later), Raise, GoOn(end)]);
      && n.run == Run(Failed, Some(at), Some(end), Some("The run failed."), None) && n.failedBy == By(k)
      && n.executors[k].phase.Done? && n.dispatches == w.dispatches + 1 && n.owner == Some(k)
  {
    MeetFour(w, k, GoOn(at), GoOn(later), Return(result), GoOn(end));
    MeetFour(w, k, GoOn(at), GoOn(later), Raise, GoOn(end));
  }

  /** An escalation ends the row there and then: completed without a result once its message is
      written, failed if it is not; what the node does after that changes nothing. */
  lemma EscalationEndsTheRun(w: World, k: nat, at: int, asked: int, later: int, end: int, result: Option<string>)
    requires k < |w.executors| && w.run.status == Running && w.executors[k].phase == InGraph(false)
    requires w.executors[k].recovers
    ensures
      var n := Meet(w, k, [Deliver(asked), Return(result), GoOn(later), GoOn(end)]);
      && n.run == w.run.(status := Completed, completedAt := Some(asked), result := None, error := None)
      && n.executors[k].phase.Done? && n.executors[k].delivered
    ensures
      var n := Meet(w, k, [Undelivered(asked), Return(result), GoOn(later), GoOn(end)]);
      && n.run == w.run.(status := Failed, completedAt := Some(asked), error := Some(NOT_DELIVERED))
      && n.executors[k].phase.Done? && n.failedBy == By(k)
  {
    MeetFour(w, k, Deliver(asked), Return(result), GoOn(later), GoOn(end));
    MeetFour(w, k, Undelivered(asked), Return(result), GoOn(later), GoOn(end));
  }

  /** An executor that cannot prepare the run it has started fails it without dispatching it. */
  lemma UnpreparedRunFails(w: World, k: nat, at: int, later: int, end: int)
    requires k < |w.executors| && w.executors[k].phase.Starting? && w.executors[k].recovers && w.run == FRESH
    ensures
      var n := Meet(w, k, [GoOn(at), CannotPrepare, GoOn(later), GoOn(end)]);
      && n.run == Run(Failed, Some(at), Some(later), Some("The run failed."), None) && n.failedBy == By(k)
      && n.executors[k].phase.Done? && n.dispatches == w.dispatches
  {
    MeetFour(w, k, GoOn(at), CannotPrepare, GoOn(later), GoOn(end));
  }

  // ----- When a rival fails the run

  /** A background executor that is about to start, and runs on undisturbed for two steps, fails
      the run exactly if it finds the row running: its start is refused, and its outer handler
      then fails the run another executor is still working on. */
  lemma StartingExecutorFailsTheRunExactlyWhen(w: World, j: nat, at: int, later: int)
    requires Inv(w) && j < |w.executors| && w.executors[j].phase.Starting? && w.executors[j].recovers
    ensures
      var n := Next(Next(w, Act(j, GoOn(at))), Act(j, GoOn(later)));
      n.run.status == Failed && n.failedBy == By(j) <==> w.run.status == Running
    ensures w.run.status == Running ==> w.owner.Some? && w.owner != Some(j)
  {
    assert ExecutorOk(w, j, w.executors[j]);
  }

  /** Such a world is reached: two executors of one row, the first of which has started it. */
  lemma SecondExecutorFailsTheFirst(at: int, later: int)
    ensures
      var w := Exec(CREATED, [Enter(true), Enter(true), Act(0, GoOn(at))]);
      && w.run.status == Running && |w.executors| == 2 && w.executors[0].phase.Dispatching?
      && var n := Next(Next(w, Act(1, GoOn(later))), Act(1, GoOn(later)));
         n.run.status == Failed && n.failedBy == By(1) && n.executors[0] == w.executors[0]
  {
    var idle := Executor(true, Starting, false, false);
    var two := [Enter(true), Enter(true)];
    OneMore(CREATED, [], Enter(true));
    OneMore(CREATED, [Enter(true)], Enter(true));
    OneMore(CREATED, two, Act(0, GoOn(at)));
    assert [] + [Enter(true)] == [Enter(true)] && [Enter(true)] + [Enter(true)] == two;
    assert two + [Act(0, GoOn(at))] == [Enter(true), Enter(true), Act(0, GoOn(at))];
    assert [idle] + [idle] == [idle, idle];
    assert Exec(CREATED, two) == World(FRESH, [idle, idle], None, 0, Nobody);
  }

  /** At step `k` the row was running when executor `j` tried to start it. */
  predicate RefusedAt(actions: seq<Action>, k: int, j: nat) {
    && 0 <= k < |actions| && actions[k].Act? && actions[k].k == j && actions[k].event.GoOn?
    && var w := Exec(CREATED, actions[..k]);
       j < |w.executors| && w.executors[j].phase.Starting? && w.run.status == Running
  }

  /** At step `l` the row was still running when executor `j`, which does not own it, recovered. */
  predicate RecoversAt(actions: seq<Action>, l: int, j: nat) {
    && 0 <= l < |actions| && actions[l].Act? && actions[l].k == j && actions[l].event.GoOn?
    && var w := Exec(CREATED, actions[..l]);
       && j < |w.executors| && w.executors[j].phase.Recovering?
       && w.owner != Some(j) && w.run.status == Running
  }

  ghost predicate WasRefused(actions: seq<Action>, j: nat) {
    exists k :: RefusedAt(actions, k, j)
  }

  lemma OneMore(w: World, actions: seq<Action>, a: Action)
    ensures Exec(w, actions + [a]) == Next(Exec(w, actions), a)
  {
    assert (actions + [a])[..|actions|] == actions;
  }

  lemma StillRefused(front: seq<Action>, a: Action, j: nat)
    requires WasRefused(front, j)
    ensures WasRefused(front + [a], j)
  {
    var k :| RefusedAt(front, k, j);
    assert (front + [a])[..k] == front[..k];
    assert RefusedAt(front + [a], k, j);
  }

  /** The step that makes an executor recover from a run it does not own is a refused start. */
  lemma RefusingStep(w: World, a: Action, j: nat)
    requires Inv(w) && j < |Next(w, a).executors|
    requires Next(w, a).executors[j].phase.Recovering? && Next(w, a).owner != Some(j)
    ensures j < |w.executors| && w.owner != Some(j)
    ensures w.executors[j].phase.Recovering? || (a.Act? && a.k == j && a.event.GoOn? && w.executors[j].phase.Starting?)
    ensures Terminal(w.run) ==> Terminal(Next(w, a).run)
  {
    assert j < |w.executors|;
    assert ExecutorOk(w, j, w.executors[j]);
  }

  /** An executor that recovers from a run it does not own was refused while the row was running,
      or the row is terminal by now. */
  lemma {:induction false} RecoveringWasRefused(actions: seq<Action>, j: nat)
    requires j < |Exec(CREATED, actions).executors|
    requires Exec(CREATED, actions).executors[j].phase.Recovering? && Exec(CREATED, actions).owner != Some(j)
    ensures Terminal(Exec(CREATED, actions).run) || WasRefused(actions, j)
  {
    var front, a := actions[..|actions| - 1], actions[|actions| - 1];
    var w := Exec(CREATED, front);
    assert actions == front + [a];
    ExecKeepsInv(CREATED, front);
    RefusingStep(w, a, j);
    if w.executors[j].phase.Recovering? {
      RecoveringWasRefused(front, j);
      if WasRefused(front, j) { StillRefused(front, a, j); }
    } else if w.run.status == Running {
      assert RefusedAt(actions, |front|, j);
    } else {
      assert ExecutorOk(Next(w, a), j, Next(w, a).executors[j]) by { NextKeepsInv(w, a); }
    }
  }

  /** An executor that does not own the run, and somebody's step makes it the one that failed it. */
  lemma FailingStep(w: World, a: Action, j: nat)
    requires Inv(w) && w.failedBy != By(j) && Next(w, a).failedBy == By(j) && Next(w, a).owner != Some(j)
    ensures a.Act? && a.k == j && a.event.GoOn? && j < |w.executors| && w.executors[j].phase.Recovering?
    ensures w.owner != Some(j) && w.run.status == Running
  {
    assert a.Act? && a.k == j;
    assert ExecutorOk(w, j, w.executors[j]);
  }

  /** Over every execution: somebody who does not own the run failed it exactly if that executor
      was refused its start while the row was running, and recovered while it still was. */
  lemma RivalFailedTheRunExactlyWhen(actions: seq<Action>, j: nat)
    ensures
      var w := Exec(CREATED, actions);
      w.failedBy == By(j) && w.owner != Some(j) <==>
        exists k, l :: k < l && RefusedAt(actions, k, j) && RecoversAt(actions, l, j)
  {
    if Exec(CREATED, actions).failedBy == By(j) && Exec(CREATED, actions).owner != Some(j) {
      RivalWasRefused(actions, j);
    }
    if k, l :| k < l && RefusedAt(actions, k, j) && RecoversAt(actions, l, j) {
      RecoveringFails(actions, l, j);
    }
  }

  lemma {:induction false} RivalWasRefused(actions: seq<Action>, j: nat)
    requires Exec(CREATED, actions).failedBy == By(j) && Exec(CREATED, actions).owner != Some(j)
    ensures exists k, l :: k < l && RefusedAt(actions, k, j) && RecoversAt(actions, l, j)
  {
    var front, a := actions[..|actions| - 1], actions[|actions| - 1];
    var w := Exec(CREATED, front);
    assert actions == front + [a];
    ExecKeepsInv(CREATED, front);
    if w.failedBy == By(j) {
      RivalWasRefused(front, j);
      var k, l :| k < l && RefusedAt(front, k, j) && RecoversAt(front, l, j);
      assert actions[..k] == front[..k] && actions[..l] == front[..l];
      assert RefusedAt(actions, k, j) && RecoversAt(actions, l, j);
    } else {
      FailingStep(w, a, j);
      RecoveringWasRefused(front, j);
      var k :| RefusedAt(front, k, j);
      assert actions[..k] == front[..k];
      assert RefusedAt(actions, k, j) && RecoversAt(actions, |front|, j);
    }
  }

  lemma {:induction false} ExecConcat(w: World, xs: seq<Action>, ys: seq<Action>)
    ensures Exec(w, xs + ys) == Exec(Exec(w, xs), ys)
    decreases |ys|
  {
    if ys == [] {
      assert xs + ys == xs;
    } else {
      var front, last := ys[..|ys| - 1], ys[|ys| - 1];
      ExecConcat(w, xs, front);
      assert xs + ys == (xs + front) + [last];
      OneMore(w, xs + front, last);
    }
  }

  /** Who failed a terminal run, and who owns it, stays that way. */
  lemma {:induction false} FailureIsFinal(w: World, actions: seq<Action>)
    requires Terminal(w.run)
    ensures Exec(w, actions).failedBy == w.failedBy && Exec(w, actions).owner == w.owner
  {
    if actions != [] {
      FailureIsFinal(w, actions[..|actions| - 1]);
      TerminalIsFinal(w, actions[..|actions| - 1]);
    }
  }

  lemma RecoveringFails(actions: seq<Action>, l: nat, j: nat)
    requires RecoversAt(actions, l, j)
    ensures Exec(CREATED, actions).failedBy == By(j) && Exec(CREATED, actions).owner != Some(j)
  {
    var before := actions[..l + 1];
    assert before == actions[..l] + [actions[l]] && actions == before + actions[l + 1..];
    OneMore(CREATED, actions[..l], actions[l]);
    ExecConcat(CREATED, before, actions[l + 1..]);
    FailureIsFinal(Exec(CREATED, before), actions[l + 1..]);
  }

  /** Without reclaims and without rivals refused and recovering while the row runs, only the
      executor that dispatched the run can have failed it; and the other way round. */
  lemma OnlyItsOwnerFailsTheRunExactlyWhen(actions: seq<Action>)
    requires forall k :: 0 <= k < |actions| ==> !actions[k].Reclaim?
    ensures
      var w := Exec(CREATED, actions);
      (w.run.status == Failed ==> w.failedBy.By? && w.owner == Some(w.failedBy.k)) <==>
        forall j, k, l :: !(k < l && RefusedAt(actions, k, j) && RecoversAt(actions, l, j))
  {
    var w := Exec(CREATED, actions);
    ExecKeepsInv(CREATED, actions);
    NoReclaimer(actions);
    if w.failedBy.By? { RivalFailedTheRunExactlyWhen(actions, w.failedBy.k); }
    if j: nat, k, l :| k < l && RefusedAt(actions, k, j) && RecoversAt(actions, l, j) {
      RivalFailedTheRunExactlyWhen(actions, j);
    }
  }

  lemma {:induction false} NoReclaimer(actions: seq<Action>)
    requires forall k :: 0 <= k < |actions| ==> !actions[k].Reclaim?
    ensures Exec(CREATED, actions).failedBy != Reclaimer
  {
    if actions != [] { NoReclaimer(actions[..|actions| - 1]); }
  }

  /** With one executor and no reclaim, nobody but that executor fails the run. */
  lemma LoneExecutorIsUndisturbed(actions: seq<Action>)
    requires forall k :: 0 <= k < |actions| ==> !actions[k].Reclaim?
    requires |Exec(CREATED, actions).executors| <= 1
    ensures
      var w := Exec(CREATED, actions);
      w.run.status == Failed ==> w.failedBy == By(0) && w.owner == Some(0)
  {
    ExecKeepsInv(CREATED, actions);
    NoReclaimer(actions);
  }

  // ----- The background executor

  datatype Escalation = NoEscalation | MessageWritten | MessageLost

  /** What happens inside the dispatch: the state may fail to build; the node may escalate; the
      graph returns with a result, or raises (`None`). */
  datatype Script = Script(prepares: bool, escalation: Escalation, outcome: Option<Option<string>>)

  function During(rivals: seq<seq<Mark>>, n: nat): seq<Mark> {
    if n < |rivals| then rivals[n] else []
  }

  /** The rivals try nothing but to start the run. */
  ghost predicate OnlyStarts(marks: seq<Mark>) {
    forall k :: 0 <= k < |marks| ==> marks[k].Start?
  }

  ghost predicate Harmless(rivals: seq<seq<Mark>>) {
    forall n: nat :: OnlyStarts(During(rivals, n))
  }

  lemma {:induction false} StartsChangeNothing(run: Run, marks: seq<Mark>)
    requires OnlyStarts(marks)
    ensures run.status != Pending ==> Marked(run, marks) == run
    ensures !Terminal(run) ==> !Terminal(Marked(run, marks))
  {
    if marks != [] { StartsChangeNothing(run, marks[..|marks| - 1]); }
  }

  class RunRow {
    var status: Status
    var startedAt: Option<int>
    var completedAt: Option<int>
    var error: Option<string>
    var result: Option<string>

    function Value(): Run
      reads this
    {
      Run(status, startedAt, completedAt, error, result)
    }

    constructor CreatePending()
      ensures Value() == FRESH && ValidRun(Value())
    {
      status, startedAt, completedAt, error, result := Pending, None, None, None, None;
    }

    method MarkRunning(at: int) returns (ok: bool)
      modifies this
      ensures Value() == Apply(old(Value()), Start(at)) && ok == Permitted(old(Value()), Start(at))
    {
      if Running !in AllowedTargets(status) {
        return false;
      }
      status := Running;
      if startedAt.None? {
        startedAt := Some(at);
      }
      return true;
    }

    method MarkCompleted(at: int, resultVersion: Option<string>) returns (ok: bool)
      modifies this
      ensures Value() == Apply(old(Value()), Complete(at, resultVersion))
      ensures ok == Permitted(old(Value()), Complete(at, resultVersion))
    {
      if Completed !in AllowedTargets(status) {
        return false;
      }
      status, completedAt, result, error := Completed, Some(at), resultVersion, None;
      return true;
    }

    method MarkFailed(at: int, summary: string) returns (ok: bool)
      modifies this
      ensures Value() == Apply(old(Value()), Fail(at, summary)) && ok == Permitted(old(Value()), Fail(at, summary))
    {
      if Failed !in AllowedTargets(status) {
        return false;
      }
      status, completedAt, error := Failed, Some(at), Some(summary);
      return true;
    }

    /** Other executors and reclaimers between two of this executor's calls. */
    method Meanwhile(marks: seq<Mark>)
      requires ValidRun(Value())
      modifies this
      ensures Value() == Marked(old(Value()), marks) && ValidRun(Value())
      ensures Terminal(old(Value())) ==> Value() == old(Value())
      ensures old(status) != Pending ==> status != Pending
      ensures OnlyStarts(marks) && old(status) != Pending ==> Value() == old(Value())
      ensures OnlyStarts(marks) && !Terminal(old(Value())) ==> !Terminal(Value())
    {
      MarksKeepTheRow(Value(), marks);
      if OnlyStarts(marks) { StartsChangeNothing(Value(), marks); }
      for k := 0 to |marks|
        invariant Value() == Marked(old(Value()), marks[..k])
      {
        assert marks[..k + 1][..k] == marks[..k];
        match marks[k]
        case Start(at) => var _ := MarkRunning(at);
        case Complete(at, r) => var _ := MarkCompleted(at, r);
        case Fail(at, e) => var _ := MarkFailed(at, e);
      }
      assert marks[..|marks|] == marks;
    }

    /** The node's escalation: it completes the run itself once its message is written, and
        tolerates a second failure when it is not. Returns false if it raises. */
    method PerformHumanEscalation(escalation: Escalation, at: int, rivals: seq<Mark>) returns (ok: bool)
      requires ValidRun(Value())
      modifies this
      ensures ValidRun(Value()) && (Terminal(old(Value())) ==> Value() == old(Value()))
      ensures old(status) != Pending ==> status != Pending
      ensures escalation == NoEscalation ==> ok && Value() == Marked(old(Value()), rivals)
      ensures escalation == MessageWritten ==> Value() == Apply(Marked(old(Value()), rivals), Complete(at, None))
      ensures escalation == MessageWritten ==> ok == Permitted(Marked(old(Value()), rivals), Complete(at, None))
      ensures escalation == MessageLost ==>
        ok && Value() == Apply(Marked(old(Value()), rivals), Fail(at, NOT_DELIVERED))
    {
      Meanwhile(rivals);
      match escalation
      case NoEscalation => return true;
      case MessageLost =>
        var _ := MarkFailed(at, NOT_DELIVERED);
        return true;
      case MessageWritten =>
        ok := MarkCompleted(at, None);
    }

    /** What a dispatch that nobody interferes with leaves behind. */
    ghost predicate IsOutcomeOf(script: Script)
      reads this
    {
      match script.escalation
      case MessageWritten => status == Completed && error == None && result == None
      case MessageLost => status == Failed && error == Some(NOT_DELIVERED)
      case NoEscalation =>
        if script.outcome.Some? then status == Completed && result == script.outcome.value
        else status == Failed && error == Some(RUN_FAILED)
    }

    /** The dispatch of a started run, and its finalisation. Returns false if finalising raises. */
    method DispatchAndFinalize(script: Script, rivals: seq<seq<Mark>>, at: int) returns (ok: bool)
      requires ValidRun(Value()) && status == Running
      modifies this
      ensures ValidRun(Value()) && Terminal(Value())
      ensures Harmless(rivals) ==> IsOutcomeOf(script)
    {
      if Harmless(rivals) { StartsChangeNothing(Value(), During(rivals, 1)); }
      var graphOk := PerformHumanEscalation(script.escalation, at, During(rivals, 1));
      Meanwhile(During(rivals, 2));
      if graphOk && script.outcome.Some? {
        ok := MarkCompleted(at, script.outcome.value);
      } else {
        ok := MarkFailed(at, RUN_FAILED);
      }
    }

    /** Drives a pending run through the graph and finalises it; never raises. */
    method ExecuteRun(script: Script, rivals: seq<seq<Mark>>, at: int) returns (dispatched: bool)
      requires ValidRun(Value())
      modifies this
      ensures ValidRun(Value()) && Terminal(Value())
      ensures Terminal(old(Value())) ==> Value() == old(Value()) && !dispatched
      ensures dispatched ==> old(status) == Pending && script.prepares
      ensures old(status) == Pending && script.prepares && During(rivals, 0) == [] ==> dispatched
      ensures Harmless(rivals) && dispatched ==> IsOutcomeOf(script)
      ensures Harmless(rivals) && !dispatched && !Terminal(old(Value())) ==>
        status == Failed && error == Some(RUN_FAILED)
    {
      dispatched := false;
      Meanwhile(During(rivals, 0));
      var ok := MarkRunning(at);
      if ok && script.prepares {
        dispatched := true;
        ok := DispatchAndFinalize(script, rivals, at);
      } else {
        ok := false;
      }
      if !ok {
        Meanwhile(During(rivals, 3));
        var _ := MarkFailed(at, RUN_FAILED);
      }
    }
  }
}

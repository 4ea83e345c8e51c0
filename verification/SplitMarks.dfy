/** The marks of a run row as the repository makes them: one call reads the row and checks the
    transition, another updates the row by its id alone
    (backend/app/repositories/agent_run_repository.py). `AgentRuns` takes each mark as one step;
    here is exactly when that makes no difference. */
module SplitMarks {
  import opened Wrappers
  import opened AgentRuns

  /** A mark that was found permitted on the row it read, and is not written yet. */
  datatype Checked = Checked(seen: Run, mark: Mark)

  datatype Table = Table(row: Run, waiting: map<nat, Checked>)

  datatype Call = Read(id: nat, mark: Mark) | Write(id: nat)

  /** The update sets the columns of the mark, whatever the row has become. */
  function Written(row: Run, p: Checked): Run {
    match p.mark
    case Start(at) => row.(status := Running, startedAt := if p.seen.startedAt.Some? then row.startedAt else Some(at))
    case Complete(at, result) => row.(status := Completed, completedAt := Some(at), result := result, error := None)
    case Fail(at, error) => row.(status := Failed, completedAt := Some(at), error := Some(error))
  }

  function Next(t: Table, c: Call): Table {
    match c
    case Read(id, m) =>
      if id in t.waiting || !Permitted(t.row, m) then t else t.(waiting := t.waiting[id := Checked(t.row, m)])
    case Write(id) =>
      if id in t.waiting then Table(Written(t.row, t.waiting[id]), t.waiting - {id}) else t
  }

  function Exec(t: Table, calls: seq<Call>): Table {
    if calls == [] then t else Next(Exec(t, calls[..|calls| - 1]), calls[|calls| - 1])
  }

  const CREATED := Table(FRESH, map[])

  /** The table before call `k`. */
  function Before(calls: seq<Call>, k: nat): Table
    requires k <= |calls|
  {
    Exec(CREATED, calls[..k])
  }

  lemma StepAt(calls: seq<Call>, k: nat)
    requires k < |calls|
    ensures Before(calls, k + 1) == Next(Before(calls, k), calls[k])
  {
    assert calls[..k + 1][..k] == calls[..k];
  }

  /** A pending row is as it was created. */
  predicate FreshIfPending(run: Run) {
    run.status == Status.Pending ==> run == FRESH
  }

  predicate Sound(t: Table) {
    && FreshIfPending(t.row)
    && forall id :: id in t.waiting ==>
         Permitted(t.waiting[id].seen, t.waiting[id].mark) && FreshIfPending(t.waiting[id].seen)
  }

  lemma {:induction false} AlwaysSound(calls: seq<Call>, k: nat)
    requires k <= |calls|
    ensures Sound(Before(calls, k))
  {
    if k > 0 {
      AlwaysSound(calls, k - 1);
      StepAt(calls, k - 1);
    }
  }

  // ----- A write against an atomic mark

  /** The row already has in every column what the update would write there. */
  predicate HasAlready(row: Run, m: Mark) {
    match m
    case Start(at) => row.status == Running && row.startedAt == Some(at)
    case Complete(at, result) =>
      row.status == Completed && row.completedAt == Some(at) && row.result == result && row.error == None
    case Fail(at, error) => row.status == Failed && row.completedAt == Some(at) && row.error == Some(error)
  }

  /** A write does what the atomic mark would do exactly if the transition is still permitted on
      the row as it is now, or the row already has every column it sets. */
  lemma WriteIsAtomicExactlyWhen(row: Run, p: Checked)
    requires FreshIfPending(row) && FreshIfPending(p.seen) && Permitted(p.seen, p.mark)
    ensures Written(row, p) == Apply(row, p.mark) <==> Permitted(row, p.mark) || HasAlready(row, p.mark)
  {
  }

  // ----- Terminal rows

  /** No mark is waiting that would write anything new: no start, and no outcome but the one the
      row has. */
  ghost predicate NoLateMark(t: Table) {
    forall id :: id in t.waiting ==> HasAlready(t.row, t.waiting[id].mark)
  }

  lemma WriteHasNoEffect(t: Table, id: nat)
    requires Terminal(t.row) && id in t.waiting
    ensures Written(t.row, t.waiting[id]) == t.row <==> HasAlready(t.row, t.waiting[id].mark)
  {
  }

  lemma {:induction false} StaysFinal(t: Table, calls: seq<Call>)
    requires Terminal(t.row) && NoLateMark(t)
    ensures Exec(t, calls).row == t.row && NoLateMark(Exec(t, calls))
  {
    if calls != [] {
      var before, c := Exec(t, calls[..|calls| - 1]), calls[|calls| - 1];
      StaysFinal(t, calls[..|calls| - 1]);
      if c.Write? && c.id in before.waiting { WriteHasNoEffect(before, c.id); }
    }
  }

  ghost predicate FinalForGood(t: Table) {
    forall calls :: Exec(t, calls).row == t.row
  }

  /** A terminal row is final, whatever is called from then on, exactly if no mark is waiting that
      would write anything but what the row has. */
  lemma TerminalIsFinalExactlyWhen(t: Table)
    requires Terminal(t.row)
    ensures FinalForGood(t) <==> NoLateMark(t)
  {
    if NoLateMark(t) {
      forall calls ensures Exec(t, calls).row == t.row { StaysFinal(t, calls); }
    } else {
      var id :| id in t.waiting && !HasAlready(t.row, t.waiting[id].mark);
      WriteHasNoEffect(t, id);
      assert [Write(id)][..0] == [];
      assert Exec(t, [Write(id)]).row != t.row;
    }
  }

  /** A completed run can become a failed one: both outcomes were checked while it was running. */
  lemma CompletedRunCanBeFailed(at: int, later: int, error: string)
    ensures
      var start := [Read(0, Start(at)), Write(0)];
      var calls := start + [Read(0, Complete(later, None)), Read(1, Fail(later, error)), Write(0), Write(1)];
      && Before(calls, 5).row.status == Completed && !NoLateMark(Before(calls, 5))
      && Before(calls, 6).row.status == Failed
  {
    var start := [Read(0, Start(at)), Write(0)];
    var calls := start + [Read(0, Complete(later, None)), Read(1, Fail(later, error)), Write(0), Write(1)];
    var running := FRESH.(status := Running, startedAt := Some(at));
    var done, failed := Checked(running, Complete(later, None)), Checked(running, Fail(later, error));
    assert calls[..0] == [];
    StepAt(calls, 0);
    StepAt(calls, 1);
    assert Before(calls, 2) == Table(running, map[]);
    StepAt(calls, 2);
    StepAt(calls, 3);
    assert Before(calls, 4) == Table(running, map[0 := done, 1 := failed]);
    StepAt(calls, 4);
    assert Before(calls, 5).waiting == map[1 := failed];
    StepAt(calls, 5);
  }

  // ----- Starts

  predicate IsWrite(calls: seq<Call>, k: nat) {
    k < |calls| && calls[k].Write? && calls[k].id in Before(calls, k).waiting
  }

  /** Call `k` writes a start: its executor goes on to dispatch the run. */
  predicate GrantsStart(calls: seq<Call>, k: nat) {
    IsWrite(calls, k) && Before(calls, k).waiting[calls[k].id].mark.Start?
  }

  /** The row has a start time exactly if a start was granted before. */
  lemma {:induction false} StartedBefore(calls: seq<Call>, k: nat)
    requires k <= |calls|
    ensures Before(calls, k).row.startedAt.Some? <==> exists i: nat :: i < k && GrantsStart(calls, i)
  {
    if k > 0 {
      StartedBefore(calls, k - 1);
      AlwaysSound(calls, k - 1);
      StepAt(calls, k - 1);
      if GrantsStart(calls, k - 1) {
        assert Before(calls, k).row.startedAt.Some?;
      }
    }
  }

  /** At most one start is granted, and so the run is dispatched at most once, exactly if every
      granted start still finds the row without a start time when it is written. */
  lemma StartedOnceExactlyWhen(calls: seq<Call>)
    ensures (forall i: nat, k: nat :: GrantsStart(calls, i) && GrantsStart(calls, k) ==> i == k) <==>
      forall k: nat :: GrantsStart(calls, k) ==> Before(calls, k).row.startedAt.None?
  {
    forall k: nat | GrantsStart(calls, k)
      ensures Before(calls, k).row.startedAt.Some? <==> exists i: nat :: i < k && GrantsStart(calls, i)
    {
      StartedBefore(calls, k);
    }
  }

  /** Two executors that both read the pending row are both granted their start. */
  lemma TwoStartsCanBeGranted(at: int, later: int)
    ensures
      var calls := [Read(0, Start(at)), Read(1, Start(later)), Write(0), Write(1)];
      GrantsStart(calls, 2) && GrantsStart(calls, 3)
  {
    var calls := [Read(0, Start(at)), Read(1, Start(later)), Write(0), Write(1)];
    var first, second := Checked(FRESH, Start(at)), Checked(FRESH, Start(later));
    assert calls[..0] == [];
    StepAt(calls, 0);
    StepAt(calls, 1);
    StepAt(calls, 2);
    assert Before(calls, 2) == Table(FRESH, map[0 := first, 1 := second]);
    assert Before(calls, 3).waiting == map[1 := second];
  }

  // ----- Dispatches

  /** The table with the executors whose start was granted: `ready` have yet to dispatch the run.
      `late` tells that some granted start found the row with a start time. */
  datatype Fleet = Fleet(table: Table, ready: nat, dispatches: nat, late: bool)

  datatype Event = Make(call: Call) | Dispatch

  predicate Grants(t: Table, c: Call) {
    c.Write? && c.id in t.waiting && t.waiting[c.id].mark.Start?
  }

  function Happen(f: Fleet, e: Event): Fleet {
    match e
    case Make(c) =>
      var granted := Grants(f.table, c);
      Fleet(Next(f.table, c), if granted then f.ready + 1 else f.ready, f.dispatches,
            f.late || (granted && f.table.row.startedAt.Some?))
    case Dispatch => if f.ready == 0 then f else f.(ready := f.ready - 1, dispatches := f.dispatches + 1)
  }

  function HappenAll(events: seq<Event>): Fleet {
    if events == [] then Fleet(CREATED, 0, 0, false)
    else Happen(HappenAll(events[..|events| - 1]), events[|events| - 1])
  }

  lemma {:induction false} GrantsAreCounted(events: seq<Event>)
    ensures
      var f := HappenAll(events);
      && Sound(f.table)
      && (f.table.row.startedAt.Some? <==> f.ready + f.dispatches >= 1)
      && (f.late <==> f.ready + f.dispatches >= 2)
  {
    if events != [] { GrantsAreCounted(events[..|events| - 1]); }
  }

  /** Once every executor that was granted its start has dispatched the run, it was dispatched at
      most once exactly if every granted start still found the row without a start time. */
  lemma DispatchedAtMostOnceExactlyWhen(events: seq<Event>)
    requires HappenAll(events).ready == 0
    ensures HappenAll(events).dispatches <= 1 <==> !HappenAll(events).late
  {
    GrantsAreCounted(events);
  }
}

/** The version history of one trip, written by agent runs that race for version numbers
    (backend/app/agents/nodes/itinerary.py and
    backend/app/repositories/itinerary_version_repository.py), and the approvals and
    rejections that settle versions (backend/app/services/refine_service.py). */
module ItineraryVersions {
  import opened Wrappers

  /** A run may lose the race for a version number this often and still retry. */
  const MAX_LOST_RACE_CYCLES := 2

  // ----- The table

  datatype Source = Build | Refine

  datatype Status = Proposed | Superseded | Approved | Rejected

  /** `author` is the run that inserted the row; the other fields are the table's columns. */
  datatype Row = Row(author: nat, source: Source, status: Status, plan: string, summary: Option<string>)

  /** The trip's rows by version number: `UNIQUE (trip_id, version)`. */
  type Rows = map<nat, Row>

  lemma {:induction false} SomeHighest(ks: set<nat>)
    requires ks != {}
    ensures exists v :: v in ks && forall w :: w in ks ==> w <= v
  {
    var v :| v in ks;
    if ks != {v} {
      var rest := ks - {v};
      assert exists w :: w in ks && w != v;
      assert rest != {};
      SomeHighest(rest);
      var r :| r in rest && forall w :: w in rest ==> w <= r;
      var top := if v >= r then v else r;
      forall w | w in ks
        ensures w <= top
      {
        assert w == v || w in rest;
      }
      assert top in ks;
    } else {
      assert v in ks && forall w :: w in ks ==> w <= v;
    }
  }

  /** The highest version number, 0 for a trip without an itinerary. */
  function Highest(rows: Rows): (n: nat)
    ensures rows == map[] ==> n == 0
    ensures rows != map[] ==> n in rows
    ensures forall v :: v in rows ==> v <= n
  {
    if rows == map[] then 0
    else
      assert rows.Keys != {} by { var k :| k in rows; assert k in rows.Keys; }
      SomeHighest(rows.Keys);
      var v :| v in rows.Keys && forall w :: w in rows.Keys ==> w <= v;
      v
  }

  /** `CHECK ((version = 1) = (source = 'build'))`. */
  function SourceFor(version: nat): Source {
    if version == 1 then Build else Refine
  }

  /** Older proposals are superseded; settled rows are left alone. */
  function SupersedeBelow(rows: Rows, below: nat): Rows {
    map v | v in rows ::
      if rows[v].status == Proposed && v < below then rows[v].(status := Superseded) else rows[v]
  }

  predicate HasOtherApproved(rows: Rows, version: nat) {
    exists v :: v in rows && v != version && rows[v].status == Approved
  }

  /** One row's status; the unique index on approved rows refuses a second approval. */
  function Decide(rows: Rows, version: nat, approve: bool): Rows {
    if version !in rows || (approve && HasOtherApproved(rows, version)) then rows
    else rows[version := rows[version].(status := if approve then Approved else Rejected)]
  }

  // ----- Runs and decisions in flight

  datatype Phase =
    | Inserting                    // about to insert version `base + 1`
    | Rereading                    // the number was taken
    | Judging                      // asking whether the change still applies
    | Superseding(version: nat)    // inserted, older proposals not yet retired
    | Stored(version: nat)
    | Declined                     // the change no longer applied: nothing written
    | Contended                    // a third collision
    | Misused                      // the intended source does not fit the first number

  /** `base` is the highest version at the run's last read. */
  datatype Run = Run(
    source: Source, plan: string, summary: Option<string>,
    base: nat, lost: nat, inserts: nat, phase: Phase)

  /** A member's decision between checking that the version is proposed and writing. */
  datatype Decision = Decision(version: nat, approve: bool)

  datatype World = World(rows: Rows, runs: map<nat, Run>, decisions: map<nat, Decision>)

  datatype Action =
    | Begin(id: nat, source: Source, plan: string, summary: Option<string>)
    | Insert(id: nat)
    | Reread(id: nat)
    | Judge(id: nat, applicable: bool)
    | Supersede(id: nat)
    | Check(id: nat, version: nat, approve: bool)
    | Mark(id: nat)
    | Abandon(id: nat)             // another version turned out to be approved

  function BeginRun(w: World, source: Source, plan: string, summary: Option<string>): Run {
    Run(source, plan, summary, Highest(w.rows), 0, 0, Inserting)
  }

  function InsertStep(w: World, id: nat): World
    requires id in w.runs
  {
    var r := w.runs[id];
    var version := r.base + 1;
    if r.lost == 0 && r.source != SourceFor(version) then
      w.(runs := w.runs[id := r.(phase := Misused)])
    else if version in w.rows then
      w.(runs := w.runs[id := r.(phase := Rereading, lost := r.lost + 1, inserts := r.inserts + 1)])
    else
      w.(rows := w.rows[version := Row(id, SourceFor(version), Proposed, r.plan, r.summary)],
         runs := w.runs[id := r.(phase := Superseding(version), inserts := r.inserts + 1)])
  }

  function RereadStep(w: World, id: nat): World
    requires id in w.runs
  {
    var r := w.runs[id];
    w.(runs := w.runs[id := r.(
      base := Highest(w.rows),
      phase := if r.lost > MAX_LOST_RACE_CYCLES then Contended else Judging)])
  }

  /** One step of one actor; an action that is not enabled changes nothing. */
  function Next(w: World, a: Action): World {
    match a
    case Begin(id, source, plan, summary) =>
      if id in w.runs then w else w.(runs := w.runs[id := BeginRun(w, source, plan, summary)])
    case Insert(id) =>
      if id in w.runs && w.runs[id].phase == Inserting then InsertStep(w, id) else w
    case Reread(id) =>
      if id in w.runs && w.runs[id].phase == Rereading then RereadStep(w, id) else w
    case Judge(id, applicable) =>
      if id in w.runs && w.runs[id].phase == Judging then
        w.(runs := w.runs[id := w.runs[id].(phase := if applicable then Inserting else Declined)])
      else w
    case Supersede(id) =>
      if id in w.runs && w.runs[id].phase.Superseding? then
        var v := w.runs[id].phase.version;
        w.(rows := SupersedeBelow(w.rows, v), runs := w.runs[id := w.runs[id].(phase := Stored(v))])
      else w
    case Check(id, version, approve) =>
      if id !in w.decisions && version in w.rows && w.rows[version].status == Proposed then
        w.(decisions := w.decisions[id := Decision(version, approve)])
      else w
    case Mark(id) =>
      if id in w.decisions then
        var d := w.decisions[id];
        w.(rows := Decide(w.rows, d.version, d.approve), decisions := w.decisions - {id})
      else w
    case Abandon(id) => w.(decisions := w.decisions - {id})
  }

  function Exec(w: World, actions: seq<Action>): World {
    if actions == [] then w
    else Next(Exec(w, actions[..|actions| - 1]), actions[|actions| - 1])
  }

  const START := World(map[], map[], map[])

  lemma ExecOneMore(w: World, actions: seq<Action>, a: Action)
    ensures Exec(w, actions + [a]) == Next(Exec(w, actions), a)
  {
  }

  lemma {:induction false} ExecConcat(w: World, xs: seq<Action>, ys: seq<Action>)
    ensures Exec(w, xs + ys) == Exec(Exec(w, xs), ys)
  {
    if ys == [] {
      assert xs + ys == xs;
    } else {
      var front, last := ys[..|ys| - 1], ys[|ys| - 1];
      ExecConcat(w, xs, front);
      assert xs + ys == (xs + front) + [last];
      ExecOneMore(w, xs + front, last);
    }
  }

  // ----- The invariant

  /** Version numbers are 1, 2, ... without a gap, and only version 1 is a build. */
  ghost predicate NumberedFromOne(rows: Rows) {
    && (forall v: nat :: v in rows <==> 1 <= v <= Highest(rows))
    && (forall v :: v in rows ==> (rows[v].source == Build <==> v == 1))
  }

  ghost predicate AtMostOneApproved(rows: Rows) {
    forall v, u :: v in rows && u in rows && rows[v].status == Approved && rows[u].status == Approved ==> v == u
  }

  /** Some run that inserted a later version has yet to retire this one. */
  ghost predicate WillBeRetired(w: World, v: nat) {
    exists id :: id in w.runs && w.runs[id].phase.Superseding? && v < w.runs[id].phase.version
  }

  ghost predicate OldProposalsWillBeRetired(w: World) {
    forall v :: v in w.rows && w.rows[v].status == Proposed && v < Highest(w.rows) ==> WillBeRetired(w, v)
  }

  /** The version this run added, if it added one. */
  function Added(r: Run): Option<nat> {
    if r.phase.Superseding? || r.phase.Stored? then Some(r.phase.version) else None
  }

  /** The bookkeeping of one run fits its phase. */
  ghost predicate RunConsistent(r: Run, highest: nat) {
    && r.base <= highest
    && match r.phase
       case Inserting => r.inserts == r.lost <= MAX_LOST_RACE_CYCLES
       case Rereading => 1 <= r.inserts == r.lost <= MAX_LOST_RACE_CYCLES + 1
       case Judging => 1 <= r.inserts == r.lost <= MAX_LOST_RACE_CYCLES
       case Declined => 1 <= r.inserts == r.lost <= MAX_LOST_RACE_CYCLES
       case Contended => r.inserts == r.lost == MAX_LOST_RACE_CYCLES + 1
       case Misused => r.inserts == r.lost == 0
       case Superseding(_) => r.inserts == r.lost + 1 <= MAX_LOST_RACE_CYCLES + 1
       case Stored(_) => r.inserts == r.lost + 1 <= MAX_LOST_RACE_CYCLES + 1
  }

  ghost predicate RunsConsistent(w: World) {
    forall id :: id in w.runs ==> RunConsistent(w.runs[id], Highest(w.rows))
  }

  /** A run that added a version owns exactly that row, with its own plan. */
  ghost predicate RowsHaveAuthors(w: World) {
    && (forall v :: v in w.rows ==>
          w.rows[v].author in w.runs && Added(w.runs[w.rows[v].author]) == Some(v))
    && (forall id :: id in w.runs && Added(w.runs[id]).Some? ==>
          var v := Added(w.runs[id]).value;
          && v in w.rows && w.rows[v].author == id
          && w.rows[v].plan == w.runs[id].plan && w.rows[v].summary == w.runs[id].summary)
  }

  ghost predicate DecisionsPointAtRows(w: World) {
    forall id :: id in w.decisions ==> w.decisions[id].version in w.rows
  }

  ghost predicate Inv(w: World) {
    && NumberedFromOne(w.rows)
    && AtMostOneApproved(w.rows)
    && OldProposalsWillBeRetired(w)
    && RunsConsistent(w)
    && RowsHaveAuthors(w)
    && DecisionsPointAtRows(w)
  }

  lemma SameKeysSameHighest(a: Rows, b: Rows)
    requires a.Keys == b.Keys
    ensures Highest(a) == Highest(b)
  {
  }

  lemma HighestAfterInsert(rows: Rows, row: Row)
    ensures Highest(rows[Highest(rows) + 1 := row]) == Highest(rows) + 1
  {
    var more := rows[Highest(rows) + 1 := row];
    assert Highest(rows) + 1 in more;
    assert Highest(more) in more;
  }

  /** The effect of an insert that succeeds. */
  ghost predicate Appended(w: World, id: nat, n: World) {
    && id in w.runs && w.runs[id].phase == Inserting
    && w.runs[id].lost <= MAX_LOST_RACE_CYCLES && w.runs[id].inserts == w.runs[id].lost
    && var version := Highest(w.rows) + 1;
       && n.rows == w.rows[version :=
            Row(id, SourceFor(version), Proposed, w.runs[id].plan, w.runs[id].summary)]
       && n.runs == w.runs[id :=
            w.runs[id].(phase := Superseding(version), inserts := w.runs[id].inserts + 1)]
       && n.decisions == w.decisions
  }

  lemma AppendKeepsRows(w: World, id: nat, n: World)
    requires NumberedFromOne(w.rows) && AtMostOneApproved(w.rows) && Appended(w, id, n)
    ensures NumberedFromOne(n.rows) && AtMostOneApproved(n.rows)
    ensures Highest(n.rows) == Highest(w.rows) + 1
  {
    HighestAfterInsert(w.rows, n.rows[Highest(w.rows) + 1]);
  }

  lemma AppendKeepsRuns(w: World, id: nat, n: World)
    requires RunsConsistent(w) && NumberedFromOne(w.rows) && AtMostOneApproved(w.rows) && Appended(w, id, n)
    ensures RunsConsistent(n) && OldProposalsWillBeRetired(n)
  {
    AppendKeepsRows(w, id, n);
    forall o | o in n.runs
      ensures RunConsistent(n.runs[o], Highest(n.rows))
    {
      assert o in w.runs && RunConsistent(w.runs[o], Highest(w.rows));
    }
    forall v | v in n.rows && n.rows[v].status == Proposed && v < Highest(n.rows)
      ensures WillBeRetired(n, v)
    {
      assert id in n.runs && n.runs[id].phase == Superseding(Highest(w.rows) + 1);
    }
  }

  lemma AppendKeepsAuthors(w: World, id: nat, n: World)
    requires RowsHaveAuthors(w) && Appended(w, id, n) && Highest(w.rows) + 1 !in w.rows
    requires DecisionsPointAtRows(w)
    ensures RowsHaveAuthors(n) && DecisionsPointAtRows(n)
  {
    var version := Highest(w.rows) + 1;
    assert Added(w.runs[id]).None?;
    forall v | v in n.rows
      ensures n.rows[v].author in n.runs && Added(n.runs[n.rows[v].author]) == Some(v)
    {
      if v != version {
        assert v in w.rows && n.rows[v] == w.rows[v];
        assert w.rows[v].author != id;
      }
    }
    forall o | o in n.runs && Added(n.runs[o]).Some?
      ensures var v := Added(n.runs[o]).value;
              && v in n.rows && n.rows[v].author == o
              && n.rows[v].plan == n.runs[o].plan && n.rows[v].summary == n.runs[o].summary
    {
      if o != id {
        assert o in w.runs && n.runs[o] == w.runs[o];
      }
    }
  }

  lemma AppendKeepsInv(w: World, id: nat, n: World)
    requires Inv(w) && Appended(w, id, n)
    ensures Inv(n)
  {
    AppendKeepsRows(w, id, n);
    AppendKeepsRuns(w, id, n);
    AppendKeepsAuthors(w, id, n);
  }

  lemma InsertKeepsInv(w: World, id: nat)
    requires Inv(w) && id in w.runs && w.runs[id].phase == Inserting
    ensures Inv(InsertStep(w, id))
  {
    var r, n := w.runs[id], InsertStep(w, id);
    assert RunConsistent(r, Highest(w.rows));
    if r.base + 1 in w.rows || n.runs[id].phase == Misused {
      RunsMovedOnly(w, n, id);
    } else {
      AppendKeepsInv(w, id, n);
    }
  }

  /** A step that only moves one run that is not retiring anything, before or after. */
  lemma RunsMovedOnly(w: World, n: World, id: nat)
    requires Inv(w) && id in w.runs && n.rows == w.rows && n.decisions == w.decisions
    requires n.runs.Keys == w.runs.Keys
    requires forall o :: o in w.runs && o != id ==> n.runs[o] == w.runs[o]
    requires Added(w.runs[id]).None? && Added(n.runs[id]).None?
    requires RunConsistent(n.runs[id], Highest(n.rows))
    ensures Inv(n)
  {
    forall v | v in n.rows && n.rows[v].status == Proposed && v < Highest(n.rows)
      ensures WillBeRetired(n, v)
    {
      assert WillBeRetired(w, v);
      var o :| o in w.runs && w.runs[o].phase.Superseding? && v < w.runs[o].phase.version;
      assert o != id && o in n.runs;
    }
  }

  /** Same rows up to status, and no status went back to proposed. */
  ghost predicate OnlyStatusesMoved(before: Rows, after: Rows) {
    && after.Keys == before.Keys
    && forall v :: v in before ==>
         && after[v] == before[v].(status := after[v].status)
         && (after[v].status == Proposed ==> before[v].status == Proposed)
  }

  /** Every run is consistent, and what it added is what it had added before. */
  ghost predicate RunsKeepTheirRows(w: World, n: World) {
    && n.runs.Keys == w.runs.Keys
    && forall o :: o in w.runs ==>
         && RunConsistent(n.runs[o], Highest(w.rows)) && Added(n.runs[o]) == Added(w.runs[o])
         && n.runs[o].plan == w.runs[o].plan && n.runs[o].summary == w.runs[o].summary
  }

  lemma RunsStayConsistent(w: World, n: World)
    requires RunsKeepTheirRows(w, n) && OnlyStatusesMoved(w.rows, n.rows)
    ensures RunsConsistent(n)
  {
    SameKeysSameHighest(n.rows, w.rows);
  }

  lemma AuthorsStay(w: World, n: World)
    requires RowsHaveAuthors(w) && RunsKeepTheirRows(w, n) && OnlyStatusesMoved(w.rows, n.rows)
    ensures RowsHaveAuthors(n)
  {
    assert forall v :: v in n.rows <==> v in w.rows.Keys;
  }

  lemma NumbersStay(w: World, n: World)
    requires NumberedFromOne(w.rows) && OnlyStatusesMoved(w.rows, n.rows)
    ensures NumberedFromOne(n.rows)
  {
    SameKeysSameHighest(n.rows, w.rows);
    assert forall v :: v in n.rows <==> v in w.rows.Keys;
  }

  lemma StatusesMoved(w: World, n: World)
    requires Inv(w) && OnlyStatusesMoved(w.rows, n.rows) && AtMostOneApproved(n.rows)
    requires RunsKeepTheirRows(w, n)
    requires forall o :: o in n.decisions ==> o in w.decisions && n.decisions[o] == w.decisions[o]
    requires OldProposalsWillBeRetired(n)
    ensures Inv(n)
  {
    NumbersStay(w, n);
    RunsStayConsistent(w, n);
    AuthorsStay(w, n);
  }

  lemma SupersedeMovesStatuses(rows: Rows, below: nat)
    ensures OnlyStatusesMoved(rows, SupersedeBelow(rows, below))
    ensures AtMostOneApproved(rows) ==> AtMostOneApproved(SupersedeBelow(rows, below))
  {
  }

  lemma DecideMovesStatuses(rows: Rows, version: nat, approve: bool)
    ensures OnlyStatusesMoved(rows, Decide(rows, version, approve))
    ensures AtMostOneApproved(rows) ==> AtMostOneApproved(Decide(rows, version, approve))
  {
  }

  /** Every old proposal is old and proposed before, and its run still has to retire it. */
  lemma StillToBeRetired(w: World, n: World)
    requires OldProposalsWillBeRetired(w) && OnlyStatusesMoved(w.rows, n.rows)
    requires forall v, o ::
      v in n.rows && n.rows[v].status == Proposed
      && o in w.runs && w.runs[o].phase.Superseding? && v < w.runs[o].phase.version
      ==> o in n.runs && n.runs[o] == w.runs[o]
    ensures OldProposalsWillBeRetired(n)
  {
    SameKeysSameHighest(n.rows, w.rows);
    forall v | v in n.rows && n.rows[v].status == Proposed && v < Highest(n.rows)
      ensures WillBeRetired(n, v)
    {
      assert v in w.rows.Keys;
      assert WillBeRetired(w, v);
      var o :| o in w.runs && w.runs[o].phase.Superseding? && v < w.runs[o].phase.version;
      assert o in n.runs && n.runs[o] == w.runs[o];
    }
  }

  lemma SupersedeKeepsInv(w: World, id: nat, n: World)
    requires Inv(w) && id in w.runs && w.runs[id].phase.Superseding?
    requires n.rows == SupersedeBelow(w.rows, w.runs[id].phase.version)
    requires n.runs == w.runs[id := w.runs[id].(phase := Stored(w.runs[id].phase.version))]
    requires n.decisions == w.decisions
    ensures Inv(n)
  {
    SupersedeMovesStatuses(w.rows, w.runs[id].phase.version);
    SupersedeRetires(w, id, n);
    RunStored(w, id, n);
    StatusesMoved(w, n);
  }

  lemma RunStored(w: World, id: nat, n: World)
    requires RunsConsistent(w) && id in w.runs && w.runs[id].phase.Superseding?
    requires n.runs == w.runs[id := w.runs[id].(phase := Stored(w.runs[id].phase.version))]
    ensures RunsKeepTheirRows(w, n)
  {
    assert RunConsistent(w.runs[id], Highest(w.rows));
  }

  lemma SupersedeRetires(w: World, id: nat, n: World)
    requires OldProposalsWillBeRetired(w) && id in w.runs && w.runs[id].phase.Superseding?
    requires n.rows == SupersedeBelow(w.rows, w.runs[id].phase.version)
    requires n.runs == w.runs[id := w.runs[id].(phase := Stored(w.runs[id].phase.version))]
    ensures OldProposalsWillBeRetired(n)
  {
    SameKeysSameHighest(n.rows, w.rows);
    forall v | v in n.rows && n.rows[v].status == Proposed && v < Highest(n.rows)
      ensures WillBeRetired(n, v)
    {
      assert v in w.rows && w.rows[v].status == Proposed && v >= w.runs[id].phase.version;
      assert WillBeRetired(w, v);
      var o :| o in w.runs && w.runs[o].phase.Superseding? && v < w.runs[o].phase.version;
      assert o in n.runs && n.runs[o] == w.runs[o];
    }
  }

  lemma MarkKeepsInv(w: World, id: nat, n: World)
    requires Inv(w) && id in w.decisions
    requires n.rows == Decide(w.rows, w.decisions[id].version, w.decisions[id].approve)
    requires n.runs == w.runs && n.decisions == w.decisions - {id}
    ensures Inv(n)
  {
    DecideMovesStatuses(w.rows, w.decisions[id].version, w.decisions[id].approve);
    StillToBeRetired(w, n);
    StatusesMoved(w, n);
  }

  lemma BeginKeepsInv(w: World, a: Action)
    requires Inv(w) && a.Begin? && a.id !in w.runs
    ensures Inv(Next(w, a))
  {
    var n := Next(w, a);
    assert forall o :: o in w.runs ==> o in n.runs && n.runs[o] == w.runs[o];
    StillToBeRetired(w, n);
    assert RowsHaveAuthors(n);
  }

  lemma OnlyDecisionsMoved(w: World, n: World)
    requires Inv(w) && n.rows == w.rows && n.runs == w.runs && DecisionsPointAtRows(n)
    ensures Inv(n)
  {
    StillToBeRetired(w, n);
  }

  lemma RereadKeepsInv(w: World, id: nat)
    requires Inv(w) && id in w.runs && w.runs[id].phase == Rereading
    ensures Inv(RereadStep(w, id))
  {
    assert RunConsistent(w.runs[id], Highest(w.rows));
    RunsMovedOnly(w, RereadStep(w, id), id);
  }

  lemma JudgeKeepsInv(w: World, id: nat, n: World)
    requires Inv(w) && id in w.runs && w.runs[id].phase == Judging && n.rows == w.rows && n.decisions == w.decisions
    requires n.runs == w.runs[id := w.runs[id].(phase := Inserting)]
      || n.runs == w.runs[id := w.runs[id].(phase := Declined)]
    ensures Inv(n)
  {
    assert RunConsistent(w.runs[id], Highest(w.rows));
    RunsMovedOnly(w, n, id);
  }

  lemma NextKeepsInv(w: World, a: Action)
    requires Inv(w)
    ensures Inv(Next(w, a))
  {
    if Next(w, a) != w {
      match a
      case Begin(_, _, _, _) => BeginKeepsInv(w, a);
      case Insert(id) => InsertKeepsInv(w, id);
      case Reread(id) => RereadKeepsInv(w, id);
      case Judge(id, _) => JudgeKeepsInv(w, id, Next(w, a));
      case Supersede(id) => SupersedeKeepsInv(w, id, Next(w, a));
      case Check(_, _, _) => OnlyDecisionsMoved(w, Next(w, a));
      case Mark(id) => MarkKeepsInv(w, id, Next(w, a));
      case Abandon(_) => OnlyDecisionsMoved(w, Next(w, a));
    }
  }

  lemma {:induction false} ExecKeepsInv(w: World, actions: seq<Action>)
    requires Inv(w)
    ensures Inv(Exec(w, actions))
  {
    if actions != [] {
      ExecKeepsInv(w, actions[..|actions| - 1]);
      NextKeepsInv(Exec(w, actions[..|actions| - 1]), actions[|actions| - 1]);
    }
  }

  // ----- What holds in every run

  /** Under every interleaving the history is 1..n, only version 1 is a build, and at most one
      version is approved. */
  lemma HistoryIsWellNumbered(actions: seq<Action>)
    ensures var w := Exec(START, actions); Inv(w) && NumberedFromOne(w.rows) && AtMostOneApproved(w.rows)
  {
    ExecKeepsInv(START, actions);
  }

  /** Once nobody is between an insert and its supersede, only the newest can be proposed. */
  lemma QuietTripHasOneProposal(actions: seq<Action>, v: nat)
    requires
      var w := Exec(START, actions);
      && (forall id :: id in w.runs ==> !w.runs[id].phase.Superseding?)
      && v in w.rows && w.rows[v].status == Proposed
    ensures var w := Exec(START, actions); v == Highest(w.rows)
  {
    ExecKeepsInv(START, actions);
    var w := Exec(START, actions);
    assert !WillBeRetired(w, v);
  }

  /** What one step may do to rows that already exist. */
  ghost predicate Extends(before: Rows, after: Rows) {
    && before.Keys <= after.Keys
    && forall v :: v in before ==>
         && after[v] == before[v].(status := after[v].status)
         && (after[v].status == Proposed ==> before[v].status == Proposed)
  }

  /** Rows are never rewritten or lost, and no status goes back to proposed. */
  lemma {:induction false} HistoryOnlyGrows(w: World, actions: seq<Action>)
    ensures Extends(w.rows, Exec(w, actions).rows)
  {
    if actions != [] {
      var front := actions[..|actions| - 1];
      HistoryOnlyGrows(w, front);
      StepExtends(Exec(w, front), actions[|actions| - 1]);
    }
  }

  lemma InsertExtends(w: World, id: nat)
    requires id in w.runs
    ensures Extends(w.rows, InsertStep(w, id).rows)
  {
  }

  lemma StepExtends(w: World, a: Action)
    ensures Extends(w.rows, Next(w, a).rows)
  {
    match a
    case Insert(id) =>
      if id in w.runs && w.runs[id].phase == Inserting {
        InsertExtends(w, id);
      }
    case Supersede(id) =>
      if id in w.runs && w.runs[id].phase.Superseding? {
        SupersedeMovesStatuses(w.rows, w.runs[id].phase.version);
      }
    case Mark(id) =>
      if id in w.decisions {
        DecideMovesStatuses(w.rows, w.decisions[id].version, w.decisions[id].approve);
      }
    case _ =>
  }

  /** Only a member's decision moves a settled row; retiring proposals never does. */
  lemma SettledRowsAreSafe(w: World, a: Action, v: nat)
    requires v in w.rows && w.rows[v].status != Proposed && v in Next(w, a).rows
    requires Next(w, a).rows[v] != w.rows[v]
    ensures a.Mark? && a.id in w.decisions && w.decisions[a.id].version == v
  {
  }

  /** A run that ended without a version has no row; one that ended with a version has one. */
  lemma OneRowPerRunAtMost(actions: seq<Action>, id: nat)
    requires id in Exec(START, actions).runs
    ensures
      var w := Exec(START, actions);
      var r := w.runs[id];
      && r.inserts <= MAX_LOST_RACE_CYCLES + 1
      && (r.phase == Contended ==> r.lost == MAX_LOST_RACE_CYCLES + 1)
      && (r.phase == Declined ==> 1 <= r.lost <= MAX_LOST_RACE_CYCLES)
      && (forall v :: v in w.rows && w.rows[v].author == id <==> Added(r) == Some(v))
  {
    ExecKeepsInv(START, actions);
    assert RunConsistent(Exec(START, actions).runs[id], Highest(Exec(START, actions).rows));
  }

  // ----- Collisions

  /** The action is a read of run `id`: its first one, as it begins, or a re-read. */
  predicate Reads(w: World, a: Action, id: nat) {
    || (a.Begin? && a.id == id && id !in w.runs)
    || (a == Reread(id) && id in w.runs && w.runs[id].phase == Rereading)
  }

  /** The worlds an execution goes through. */
  function History(actions: seq<Action>): (h: seq<World>)
    ensures |h| == |actions| + 1
    ensures forall k :: 0 <= k <= |actions| ==> h[k] == Exec(START, actions[..k])
  {
    seq(|actions| + 1, k requires 0 <= k <= |actions| => Exec(START, actions[..k]))
  }

  /** Step `k` is the last time so far that run `id` read the table. */
  ghost predicate LastReadAt(h: seq<World>, actions: seq<Action>, k: int, id: nat)
    requires |h| == |actions| + 1
  {
    && 0 <= k < |actions| && Reads(h[k], actions[k], id)
    && forall j :: k < j < |actions| ==> !Reads(h[j], actions[j], id)
  }

  /** Step `k` is where another run takes version `v`. */
  predicate TakenAt(h: seq<World>, actions: seq<Action>, k: int, v: nat, id: nat)
    requires |h| == |actions| + 1
  {
    && 0 <= k < |actions|
    && actions[k].Insert? && actions[k].id != id
    && v !in h[k].rows && v in h[k + 1].rows && h[k + 1].rows[v].author == actions[k].id
  }

  /** What a step does to a run's base. */
  ghost predicate MovesBase(before: World, a: Action, after: World, id: nat) {
    if Reads(before, a, id) then
      id in after.runs && after.runs[id].base == Highest(before.rows) && after.rows == before.rows
    else id in after.runs ==> id in before.runs && after.runs[id].base == before.runs[id].base
  }

  lemma StepMovesBase(w: World, a: Action, id: nat)
    ensures MovesBase(w, a, Next(w, a), id)
  {
  }

  lemma {:induction false} BaseComesFrom(h: seq<World>, actions: seq<Action>, id: nat, n: nat) returns (k: nat)
    requires n < |h| == |actions| + 1 && id !in h[0].runs && id in h[n].runs
    requires forall i :: 0 <= i < |actions| ==> MovesBase(h[i], actions[i], h[i + 1], id)
    ensures k < n && Reads(h[k], actions[k], id) && forall j :: k < j < n ==> !Reads(h[j], actions[j], id)
    ensures h[n].runs[id].base == Highest(h[k].rows) && h[k + 1].rows == h[k].rows
  {
    assert n > 0 && MovesBase(h[n - 1], actions[n - 1], h[n], id);
    if Reads(h[n - 1], actions[n - 1], id) {
      k := n - 1;
    } else {
      k := BaseComesFrom(h, actions, id, n - 1);
    }
  }

  /** A run's base is the highest version at its last read. */
  lemma BaseIsTheLastRead(actions: seq<Action>, id: nat) returns (k: nat)
    requires id in Exec(START, actions).runs
    ensures LastReadAt(History(actions), actions, k, id)
    ensures Exec(START, actions).runs[id].base == Highest(History(actions)[k].rows)
    ensures History(actions)[k + 1].rows == History(actions)[k].rows
  {
    var h := History(actions);
    assert actions[..|actions|] == actions && h[0] == START;
    forall i | 0 <= i < |actions|
      ensures MovesBase(h[i], actions[i], h[i + 1], id)
    {
      StepAt(START, actions, i);
      StepMovesBase(h[i], actions[i], id);
    }
    k := BaseComesFrom(h, actions, id, |actions|);
  }

  /** Rows stay with their authors, and a new one is inserted by its author. */
  ghost predicate RowsGrow(before: Rows, a: Action, after: Rows) {
    && (forall v :: v in before ==> v in after && after[v].author == before[v].author)
    && (forall v :: v in after && v !in before ==> a == Insert(after[v].author))
  }

  lemma StepGrows(w: World, a: Action)
    ensures RowsGrow(w.rows, a, Next(w, a).rows)
  {
    StepExtends(w, a);
  }

  lemma AllStepsGrow(actions: seq<Action>)
    ensures
      var h := History(actions);
      forall i :: 0 <= i < |actions| ==> RowsGrow(h[i].rows, actions[i], h[i + 1].rows)
  {
    forall i | 0 <= i < |actions|
      ensures RowsGrow(History(actions)[i].rows, actions[i], History(actions)[i + 1].rows)
    {
      StepAt(START, actions, i);
      StepGrows(History(actions)[i], actions[i]);
    }
  }

  /** A version that was not there yet at step `m` was inserted at a later one, by its author. */
  lemma {:induction false} InsertedLater(h: seq<World>, actions: seq<Action>, m: nat, n: nat, v: nat)
    returns (k: nat)
    requires m <= n < |h| == |actions| + 1 && v !in h[m].rows && v in h[n].rows
    requires forall i :: 0 <= i < |actions| ==> RowsGrow(h[i].rows, actions[i], h[i + 1].rows)
    ensures m <= k < n && actions[k] == Insert(h[n].rows[v].author)
    ensures v !in h[k].rows && v in h[k + 1].rows && h[k + 1].rows[v].author == h[n].rows[v].author
  {
    assert m < n && RowsGrow(h[n - 1].rows, actions[n - 1], h[n].rows);
    if v in h[n - 1].rows {
      k := InsertedLater(h, actions, m, n - 1, v);
    } else {
      k := n - 1;
    }
  }

  lemma {:induction false} RowsStay(h: seq<World>, actions: seq<Action>, m: nat, n: nat, v: nat)
    requires m <= n < |h| == |actions| + 1 && v in h[m].rows
    requires forall i :: 0 <= i < |actions| ==> RowsGrow(h[i].rows, actions[i], h[i + 1].rows)
    ensures v in h[n].rows
  {
    if m < n {
      RowsStay(h, actions, m, n - 1, v);
      assert RowsGrow(h[n - 1].rows, actions[n - 1], h[n].rows);
    }
  }

  ghost predicate TakenAfter(h: seq<World>, actions: seq<Action>, p: int, v: nat, id: nat)
    requires |h| == |actions| + 1
  {
    exists k :: p < k && TakenAt(h, actions, k, v, id)
  }

  /** Since its last read, another run took version `v` from run `id`. */
  ghost predicate Overtaken(h: seq<World>, actions: seq<Action>, id: nat, v: nat)
    requires |h| == |actions| + 1
  {
    exists p :: LastReadAt(h, actions, p, id) && TakenAfter(h, actions, p, v, id)
  }

  /** A version that was not there after step `p` and that is not the run's own was taken later. */
  lemma MissingThenTaken(h: seq<World>, actions: seq<Action>, p: nat, v: nat, id: nat)
    requires p < |actions| == |h| - 1 && v !in h[p + 1].rows
    requires forall i :: 0 <= i < |actions| ==> RowsGrow(h[i].rows, actions[i], h[i + 1].rows)
    requires v in h[|actions|].rows && h[|actions|].rows[v].author != id
    ensures TakenAfter(h, actions, p, v, id)
  {
    var k := InsertedLater(h, actions, p + 1, |actions|, v);
    assert TakenAt(h, actions, k, v, id);
  }

  lemma StaysTaken(h: seq<World>, actions: seq<Action>, id: nat, v: nat)
    requires |h| == |actions| + 1 && Overtaken(h, actions, id, v)
    requires forall i :: 0 <= i < |actions| ==> RowsGrow(h[i].rows, actions[i], h[i + 1].rows)
    ensures v in h[|actions|].rows
  {
    var p :| LastReadAt(h, actions, p, id) && TakenAfter(h, actions, p, v, id);
    var k :| p < k && TakenAt(h, actions, k, v, id);
    RowsStay(h, actions, k + 1, |actions|, v);
  }

  lemma NotItsOwn(actions: seq<Action>, id: nat, v: nat)
    requires
      var w := Exec(START, actions);
      id in w.runs && Added(w.runs[id]).None? && v in w.rows
    ensures Exec(START, actions).rows[v].author != id
  {
    ExecKeepsInv(START, actions);
  }

  /** A run's next number is taken exactly if another run took it since this one last read. */
  lemma OvertakenExactlyWhen(actions: seq<Action>, id: nat, v: nat)
    requires
      var w := Exec(START, actions);
      id in w.runs && Added(w.runs[id]).None? && v == w.runs[id].base + 1
    ensures Overtaken(History(actions), actions, id, v) <==> v in Exec(START, actions).rows
  {
    var h := History(actions);
    assert actions[..|actions|] == actions;
    AllStepsGrow(actions);
    if v in h[|actions|].rows {
      NotItsOwn(actions, id, v);
      var p := BaseIsTheLastRead(actions, id);
      MissingThenTaken(h, actions, p, v, id);
    } else if Overtaken(h, actions, id, v) {
      StaysTaken(h, actions, id, v);
    }
  }

  lemma RereadingStep(w: World, a: Action, id: nat)
    requires id in Next(w, a).runs && Next(w, a).runs[id].phase == Rereading
    ensures id in w.runs && Next(w, a).runs[id].base == w.runs[id].base
    ensures w.runs[id].phase == Rereading || w.runs[id].base + 1 in w.rows
  {
  }

  lemma {:induction false} RereadingMeansTaken(actions: seq<Action>, id: nat)
    requires id in Exec(START, actions).runs && Exec(START, actions).runs[id].phase == Rereading
    ensures Exec(START, actions).runs[id].base + 1 in Exec(START, actions).rows
  {
    var front, a := actions[..|actions| - 1], actions[|actions| - 1];
    RereadingStep(Exec(START, front), a, id);
    if Exec(START, front).runs[id].phase == Rereading { RereadingMeansTaken(front, id); }
    StepExtends(Exec(START, front), a);
    assert Exec(START, front).runs[id].base + 1 in Exec(START, front).rows.Keys;
  }

  /** In every execution, a run that lost the race has been overtaken: since its own begin or its last
      re-read, another run inserted the very number it was about to take. */
  lemma CollisionIsWitnessed(actions: seq<Action>, id: nat)
    requires id in Exec(START, actions).runs && Exec(START, actions).runs[id].phase == Rereading
    ensures Overtaken(History(actions), actions, id, Exec(START, actions).runs[id].base + 1)
  {
    RereadingMeansTaken(actions, id);
    OvertakenExactlyWhen(actions, id, Exec(START, actions).runs[id].base + 1);
  }

  /** The insert added the next version, with the run's plan. */
  ghost predicate AddsTheNext(w: World, n: World, id: nat)
    requires id in w.runs
  {
    var version := Highest(w.rows) + 1;
    && id in n.runs && n.runs[id].phase == Superseding(version)
    && n.rows == w.rows[version := Row(id, SourceFor(version), Proposed, w.runs[id].plan, w.runs[id].summary)]
  }

  ghost predicate Collides(w: World, n: World, id: nat) {
    id in n.runs && n.runs[id].phase == Rereading && n.rows == w.rows
  }

  /** Run `id` is about to insert, and its source fits. */
  predicate MayInsert(w: World, id: nat) {
    && id in w.runs && w.runs[id].phase == Inserting
    && (w.runs[id].lost == 0 ==> w.runs[id].source == SourceFor(w.runs[id].base + 1))
  }

  lemma InsertAddsOrCollides(w: World, id: nat)
    requires Inv(w) && MayInsert(w, id)
    ensures
      if w.runs[id].base + 1 in w.rows then Collides(w, Next(w, Insert(id)), id)
      else AddsTheNext(w, Next(w, Insert(id)), id)
  {
    assert RunConsistent(w.runs[id], Highest(w.rows));
  }

  /** What the insert does, given whether the run's number is taken. */
  ghost predicate InsertGoes(w: World, id: nat, taken: bool)
    requires id in w.runs
  {
    if taken then Collides(w, Next(w, Insert(id)), id) else AddsTheNext(w, Next(w, Insert(id)), id)
  }

  lemma ReachableInsert(actions: seq<Action>, id: nat)
    requires MayInsert(Exec(START, actions), id)
    ensures
      var w := Exec(START, actions);
      InsertGoes(w, id, w.runs[id].base + 1 in w.rows)
  {
    ExecKeepsInv(START, actions);
    InsertAddsOrCollides(Exec(START, actions), id);
  }

  lemma OvertakenIsTaken(actions: seq<Action>, id: nat) returns (taken: bool)
    requires MayInsert(Exec(START, actions), id)
    ensures
      var w := Exec(START, actions);
      && taken == (w.runs[id].base + 1 in w.rows)
      && taken == Overtaken(History(actions), actions, id, w.runs[id].base + 1)
  {
    var w := Exec(START, actions);
    taken := w.runs[id].base + 1 in w.rows;
    OvertakenExactlyWhen(actions, id, w.runs[id].base + 1);
  }

  /** In every execution, the insert of a run whose source fits collides exactly if the run has been
      overtaken; if not, it adds the next version. */
  lemma InsertCollidesExactlyWhen(actions: seq<Action>, id: nat)
    requires MayInsert(Exec(START, actions), id)
    ensures
      var w := Exec(START, actions);
      InsertGoes(w, id, Overtaken(History(actions), actions, id, w.runs[id].base + 1))
  {
    ReachableInsert(actions, id);
    var taken := OvertakenIsTaken(actions, id);
    assert InsertGoes(Exec(START, actions), id, taken);
  }

  /** Run `id` stored the next version of `w` and retired every older proposal; or, where its source
      does not fit, it added nothing. */
  ghost predicate StoresTheNext(
      w: World, n: World, id: nat, source: Source, plan: string, summary: Option<string>)
  {
    var version := Highest(w.rows) + 1;
    && id in n.runs
    && if source == SourceFor(version) then
         && n.runs[id].phase == Phase.Stored(version) && n.rows.Keys == w.rows.Keys + {version}
         && n.rows[version] == Row(id, source, Proposed, plan, summary)
         && forall v :: v in w.rows ==>
              n.rows[v] == w.rows[v].(
                status := if w.rows[v].status == Proposed then Superseded else w.rows[v].status)
       else n.runs[id].phase == Misused && n.rows == w.rows
  }

  lemma OwnStepsAlone(w: World, id: nat, source: Source, plan: string, summary: Option<string>)
    requires id !in w.runs
    ensures
      var n := Next(Next(Next(w, Begin(id, source, plan, summary)), Insert(id)), Supersede(id));
      StoresTheNext(w, n, id, source, plan, summary)
  {
    var version := Highest(w.rows) + 1;
    var one := Next(w, Begin(id, source, plan, summary));
    assert one.runs[id] == Run(source, plan, summary, Highest(w.rows), 0, 0, Inserting) && version !in w.rows;
    var two := Next(one, Insert(id));
    if source == SourceFor(version) {
      assert two.rows == w.rows[version := Row(id, source, Proposed, plan, summary)];
    } else {
      assert two.rows == w.rows && Next(two, Supersede(id)) == two;
    }
  }

  /** A run that begins in a reachable world, and then has the table to itself, stores the next version
      and retires every older proposal; if its source does not fit, it adds nothing. */
  lemma UndisturbedRunStoresTheNext(
      actions: seq<Action>, id: nat, source: Source, plan: string, summary: Option<string>)
    requires id !in Exec(START, actions).runs
    ensures
      var own := [Begin(id, source, plan, summary), Insert(id), Supersede(id)];
      StoresTheNext(Exec(START, actions), Exec(START, actions + own), id, source, plan, summary)
  {
    var begin := Begin(id, source, plan, summary);
    ExecOneMore(START, actions, begin);
    ExecOneMore(START, actions + [begin], Insert(id));
    ExecOneMore(START, actions + [begin] + [Insert(id)], Supersede(id));
    assert actions + [begin] + [Insert(id)] + [Supersede(id)] == actions + [begin, Insert(id), Supersede(id)];
    OwnStepsAlone(Exec(START, actions), id, source, plan, summary);
  }

  /** After a collision the run's next number is strictly higher. */
  lemma CollisionRaisesBase(w: World, id: nat, between: seq<Action>)
    requires id in w.runs && w.runs[id].phase == Inserting
    requires InsertStep(w, id).runs[id].phase == Rereading
    requires forall k :: 0 <= k < |between| ==> !OwnStep(between[k], id)
    ensures
      var collided := Exec(Next(w, Insert(id)), between);
      && id in collided.runs && collided.runs[id].phase == Rereading
      && RereadStep(collided, id).runs[id].base == Highest(collided.rows) > w.runs[id].base
  {
    var n := Next(w, Insert(id));
    assert id in n.runs && n.rows == w.rows && w.runs[id].base + 1 in n.rows;
    HistoryOnlyGrows(n, between);
    OthersLeaveTheRunAlone(n, id, between);
  }

  predicate OwnStep(a: Action, id: nat) {
    (a.Insert? || a.Reread? || a.Supersede? || a.Begin? || a.Judge?) && a.id == id
  }

  lemma {:induction false} OthersLeaveTheRunAlone(w: World, id: nat, actions: seq<Action>)
    requires id in w.runs
    requires forall k :: 0 <= k < |actions| ==> !OwnStep(actions[k], id)
    ensures id in Exec(w, actions).runs && Exec(w, actions).runs[id] == w.runs[id]
    decreases |actions|
  {
    if actions != [] {
      OthersLeaveTheRunAlone(w, id, actions[..|actions| - 1]);
    }
  }

  // ----- A settled version can be settled again

  /** Settled rows are the same afterwards. */
  ghost predicate SettledKept(before: Rows, after: Rows) {
    forall v :: v in before && before[v].status != Proposed ==> v in after && after[v] == before[v]
  }

  /** This decision's write would change a version that is settled by now. */
  predicate Overwrites(w: World, id: nat) {
    id in w.decisions && w.decisions[id].version in w.rows
    && var d := w.decisions[id];
       var status := w.rows[d.version].status;
       status != Proposed
       && if d.approve then status != Approved && !HasOtherApproved(w.rows, d.version) else status != Rejected
  }

  /** A decision's write changes a settled row exactly if its version was settled since its
      check, and the write has an effect. */
  lemma WriteOverwritesExactlyWhen(w: World, id: nat)
    requires DecisionsPointAtRows(w) && id in w.decisions
    ensures !SettledKept(w.rows, Next(w, Mark(id)).rows) <==> Overwrites(w, id)
  {
    var v := w.decisions[id].version;
    if Overwrites(w, id) {
      assert w.rows[v].status != Proposed && Next(w, Mark(id)).rows[v] != w.rows[v];
    }
  }

  lemma StepOverwritesExactlyWhen(w: World, a: Action)
    requires DecisionsPointAtRows(w)
    ensures !SettledKept(w.rows, Next(w, a).rows) <==> a.Mark? && Overwrites(w, a.id)
  {
    if a.Mark? && a.id in w.decisions {
      WriteOverwritesExactlyWhen(w, a.id);
    } else {
      StepExtends(w, a);
      forall v | v in w.rows && w.rows[v].status != Proposed
        ensures Next(w, a).rows[v] == w.rows[v]
      {
        if Next(w, a).rows[v] != w.rows[v] { SettledRowsAreSafe(w, a, v); }
      }
    }
  }

  /** Whatever was settled at some point of the execution is settled the same way ever after. */
  ghost predicate SettledForGood(w: World, actions: seq<Action>) {
    forall i, j :: 0 <= i <= j <= |actions| ==> SettledKept(Exec(w, actions[..i]).rows, Exec(w, actions[..j]).rows)
  }

  /** Every decision that has an effect finds its version still proposed when it is written. */
  ghost predicate DecisionsComeInTime(w: World, actions: seq<Action>) {
    forall k :: 0 <= k < |actions| && actions[k].Mark? ==> !Overwrites(Exec(w, actions[..k]), actions[k].id)
  }

  lemma StepAt(w: World, actions: seq<Action>, k: nat)
    requires k < |actions|
    ensures Exec(w, actions[..k + 1]) == Next(Exec(w, actions[..k]), actions[k])
  {
    assert actions[..k + 1] == actions[..k] + [actions[k]];
    ExecOneMore(w, actions[..k], actions[k]);
  }

  lemma OneStepInTime(w: World, actions: seq<Action>, k: nat)
    requires Inv(w) && k < |actions|
    ensures SettledKept(Exec(w, actions[..k]).rows, Exec(w, actions[..k + 1]).rows) <==>
      !(actions[k].Mark? && Overwrites(Exec(w, actions[..k]), actions[k].id))
  {
    ExecKeepsInv(w, actions[..k]);
    StepAt(w, actions, k);
    StepOverwritesExactlyWhen(Exec(w, actions[..k]), actions[k]);
  }

  lemma {:induction false} KeptAlong(history: seq<Rows>, i: nat, j: nat)
    requires forall k :: 0 < k < |history| ==> SettledKept(history[k - 1], history[k])
    requires i <= j < |history|
    ensures SettledKept(history[i], history[j])
    decreases j - i
  {
    if i < j {
      KeptAlong(history, i, j - 1);
      assert SettledKept(history[j - 1], history[j]);
    }
  }

  lemma InTimeKeepsSettled(w: World, actions: seq<Action>, i: nat, j: nat)
    requires Inv(w) && DecisionsComeInTime(w, actions) && i <= j <= |actions|
    ensures SettledKept(Exec(w, actions[..i]).rows, Exec(w, actions[..j]).rows)
  {
    var history := seq(|actions| + 1, k requires 0 <= k <= |actions| => Exec(w, actions[..k]).rows);
    forall k | 0 < k < |history|
      ensures SettledKept(history[k - 1], history[k])
    {
      OneStepInTime(w, actions, k - 1);
    }
    KeptAlong(history, i, j);
  }

  /** In every execution, settled versions stay settled exactly if every effective decision finds
      its version still proposed at the moment it is written. */
  lemma SettledStaysExactlyWhen(w: World, actions: seq<Action>)
    requires Inv(w)
    ensures SettledForGood(w, actions) <==> DecisionsComeInTime(w, actions)
  {
    if DecisionsComeInTime(w, actions) {
      forall i, j | 0 <= i <= j <= |actions|
        ensures SettledKept(Exec(w, actions[..i]).rows, Exec(w, actions[..j]).rows)
      {
        InTimeKeepsSettled(w, actions, i, j);
      }
    }
    if SettledForGood(w, actions) {
      forall k | 0 <= k < |actions| && actions[k].Mark?
        ensures !Overwrites(Exec(w, actions[..k]), actions[k].id)
      {
        assert SettledKept(Exec(w, actions[..k]).rows, Exec(w, actions[..k + 1]).rows);
        OneStepInTime(w, actions, k);
      }
    }
  }

  lemma {:induction false} DecisionWaits(w: World, id: nat, actions: seq<Action>)
    requires id in w.decisions
    requires forall k :: 0 <= k < |actions| ==> actions[k] != Mark(id) && actions[k] != Abandon(id)
    ensures id in Exec(w, actions).decisions && Exec(w, actions).decisions[id] == w.decisions[id]
  {
    if actions != [] { DecisionWaits(w, id, actions[..|actions| - 1]); }
  }

  /** However long after its check a decision is written, it changes a settled version exactly if
      its own version was settled in between, and the write has an effect. */
  lemma LateDecisionOverwritesExactlyWhen(w: World, check: Action, between: seq<Action>)
    requires Inv(w) && check.Check? && check.id !in w.decisions
    requires check.version in w.rows && w.rows[check.version].status == Proposed
    requires forall k :: 0 <= k < |between| ==> between[k] != Mark(check.id) && between[k] != Abandon(check.id)
    ensures
      var n := Exec(Next(w, check), between);
      && check.version in n.rows
      && var status := n.rows[check.version].status;
         !SettledKept(n.rows, Next(n, Mark(check.id)).rows) <==>
           status != Proposed
           && if check.approve then status != Approved && !HasOtherApproved(n.rows, check.version)
              else status != Rejected
  {
    NextKeepsInv(w, check);
    ExecKeepsInv(Next(w, check), between);
    DecisionWaits(Next(w, check), check.id, between);
    WriteOverwritesExactlyWhen(Exec(Next(w, check), between), check.id);
  }

  /** The check and the write are separate, so two members who both saw the same proposal can
      leave an approved version rejected. */
  lemma StaleCheckOverwritesApproval(w: World, v: nat, a: nat, b: nat)
    requires v in w.rows && w.rows[v].status == Proposed && !HasOtherApproved(w.rows, v)
    requires a != b && a !in w.decisions && b !in w.decisions
    ensures
      var approved := Exec(w, [Check(a, v, true), Check(b, v, false), Mark(a)]).rows;
      v in approved && approved[v].status == Approved
    ensures
      var rejected := Exec(w, [Check(a, v, true), Check(b, v, false), Mark(a), Mark(b)]).rows;
      v in rejected && rejected[v].status == Rejected
  {
    var one := [Check(a, v, true)];
    var two := one + [Check(b, v, false)];
    var three := two + [Mark(a)];
    ExecOneMore(w, [], Check(a, v, true));
    assert [] + [Check(a, v, true)] == one;
    ExecOneMore(w, one, Check(b, v, false));
    ExecOneMore(w, two, Mark(a));
    ExecOneMore(w, three, Mark(b));
    var checked := Exec(w, two);
    assert checked.rows == w.rows && checked.runs == w.runs;
    assert checked.decisions == w.decisions[a := Decision(v, true)][b := Decision(v, false)];
    assert three == [Check(a, v, true), Check(b, v, false), Mark(a)];
    assert three + [Mark(b)] == [Check(a, v, true), Check(b, v, false), Mark(a), Mark(b)];
  }
}

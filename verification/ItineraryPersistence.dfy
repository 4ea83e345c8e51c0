/** The optimistic-lock loop of one run (backend/app/agents/nodes/itinerary.py), against the
    version repository, while other runs and members write between any two of its calls. */
module ItineraryPersistence {
  import opened Wrappers
  import opened ItineraryVersions

  /** None of these steps belongs to run `me`. */
  ghost predicate ByOthers(steps: seq<Action>, me: nat) {
    forall k :: 0 <= k < |steps| ==> !OwnStep(steps[k], me)
  }

  datatype InsertOutcome = Inserted(version: nat) | UniqueVersionViolation

  datatype Outcome =
    | Stored(version: nat)          // the stored row's version
    | Nothing                       // a lost race made the proposal inapplicable
    | RepeatedVersionContention     // a third lost race
    | SourceMismatch                // the caller's source does not fit the first number

  /** The `itinerary_versions` rows of one trip. `runs` and `decisions` record what every
      writer is in the middle of, so that all of them together follow one protocol. */
  class VersionRepository {
    var rows: Rows
    var runs: map<nat, Run>
    var decisions: map<nat, Decision>

    constructor ()
      ensures CurrentWorld() == START
    {
      rows, runs, decisions := map[], map[], map[];
    }

    function CurrentWorld(): World
      reads this
    {
      World(rows, runs, decisions)
    }

    /** Appends a proposed row, unless the number is taken. */
    method InsertVersion(author: nat, version: nat, source: Source, plan: string, summary: Option<string>)
      returns (outcome: InsertOutcome)
      requires source == SourceFor(version)
      modifies this`rows
      ensures outcome == if version in old(rows) then UniqueVersionViolation else Inserted(version)
      ensures rows == if version in old(rows) then old(rows)
                      else old(rows)[version := Row(author, source, Proposed, plan, summary)]
    {
      if version in rows {
        return UniqueVersionViolation;
      }
      rows := rows[version := Row(author, source, Proposed, plan, summary)];
      return Inserted(version);
    }

    /** The highest version number, 0 when there is none. */
    method GetLatest() returns (latest: nat)
      ensures rows == map[] ==> latest == 0
      ensures rows != map[] ==> latest in rows
      ensures forall v :: v in rows ==> v <= latest
    {
      latest := 0;
      var left := rows.Keys;
      while left != {}
        invariant left <= rows.Keys
        invariant left != rows.Keys ==> latest in rows
        invariant left == rows.Keys ==> latest == 0
        invariant forall v :: v in rows && v !in left ==> v <= latest
        decreases left
      {
        var v :| v in left;
        left := left - {v};
        if v >= latest {
          latest := v;
        }
      }
      assert rows != map[] ==> rows.Keys != {};
    }

    /** Retires older proposals; a settled row is never touched. */
    method SupersedeLowerVersions(below: nat)
      modifies this`rows
      ensures rows == SupersedeBelow(old(rows), below)
      ensures forall v :: v in old(rows) && (old(rows)[v].status != Proposed || v >= below) ==>
        v in rows && rows[v] == old(rows)[v]
    {
      rows := SupersedeBelow(rows, below);
    }

    /** Approves a version unless another one is approved already; no other row changes. */
    method MarkApproved(version: nat) returns (ok: bool)
      requires version in rows
      modifies this`rows
      ensures ok <==> forall v :: v in old(rows) && v != version ==> old(rows)[v].status != Approved
      ensures !ok ==> rows == old(rows)
      ensures ok ==> StatusSet(old(rows), version, Approved, rows)
    {
      ok := !HasOtherApproved(rows, version);
      if ok {
        rows := rows[version := rows[version].(status := Approved)];
      }
    }

    /** Rejects a version; no other row changes. */
    method MarkRejected(version: nat)
      requires version in rows
      modifies this`rows
      ensures StatusSet(old(rows), version, Rejected, rows)
    {
      rows := rows[version := rows[version].(status := Rejected)];
    }

    /** The approved version other than this one, if there is one. */
    method GetOtherApproved(version: nat) returns (other: Option<nat>)
      ensures other.Some? ==> other.value in rows && other.value != version && rows[other.value].status == Approved
      ensures other.None? ==> !HasOtherApproved(rows, version)
    {
      var left := rows.Keys;
      while left != {}
        invariant left <= rows.Keys
        invariant forall v :: v in rows && v !in left && v != version ==> rows[v].status != Approved
        decreases left
      {
        var v :| v in left;
        if v != version && rows[v].status == Approved {
          return Some(v);
        }
        left := left - {v};
      }
      return None;
    }

    /** Everybody else's steps while run `me` waits for a call to go through. */
    method Await(me: nat, others: seq<Action>)
      requires me in runs
      requires ByOthers(others, me)
      modifies this
      ensures CurrentWorld() == Exec(old(CurrentWorld()), others)
      ensures me in runs && runs[me] == old(runs[me])
      ensures old(rows).Keys <= rows.Keys
    {
      var w := Exec(CurrentWorld(), others);
      HistoryOnlyGrows(CurrentWorld(), others);
      OthersLeaveTheRunAlone(CurrentWorld(), me, others);
      rows, runs, decisions := w.rows, w.runs, w.decisions;
    }

    /** A run begins: it reads the highest version, after the others' steps. */
    method BeginCall(me: nat, source: Source, plan: string, summary: Option<string>, others: seq<Action>)
      requires me !in runs && ByOthers(others, me)
      modifies this
      ensures CurrentWorld() == Exec(old(CurrentWorld()), others + [Begin(me, source, plan, summary)])
      ensures me in runs && runs[me] == Run(source, plan, summary, runs[me].base, 0, 0, Inserting)
      ensures if rows == map[] then runs[me].base == 0 else runs[me].base in rows
      ensures forall v :: v in rows ==> v <= runs[me].base
    {
      ExecOneMore(CurrentWorld(), others, Begin(me, source, plan, summary));
      OthersBeginTheirOwn(CurrentWorld(), me, others);
      var w := Exec(CurrentWorld(), others);
      rows, runs, decisions := w.rows, w.runs, w.decisions;
      var latest := GetLatest();
      assert latest == Highest(rows);
      runs := runs[me := Run(source, plan, summary, latest, 0, 0, Inserting)];
    }

    /** The insert call of run `me`, after the others' steps. */
    method InsertCall(me: nat, others: seq<Action>) returns (outcome: InsertOutcome)
      requires me in runs && runs[me].phase == Inserting
      requires runs[me].lost == 0 ==> runs[me].source == SourceFor(runs[me].base + 1)
      requires ByOthers(others, me)
      modifies this
      ensures CurrentWorld() == Exec(old(CurrentWorld()), others + [Insert(me)])
      ensures me in runs
      ensures others == [] ==> (outcome == UniqueVersionViolation <==> old(runs[me]).base + 1 in old(rows))
      ensures var r, version := old(runs[me]), old(runs[me]).base + 1;
              && version in rows
              && (outcome == UniqueVersionViolation ==>
                    runs[me] == r.(phase := Rereading, lost := r.lost + 1, inserts := r.inserts + 1))
              && (outcome != UniqueVersionViolation ==>
                    && outcome == Inserted(version)
                    && runs[me] == r.(phase := Superseding(version), inserts := r.inserts + 1))
    {
      ExecOneMore(CurrentWorld(), others, Insert(me));
      Await(me, others);
      var w, r := CurrentWorld(), runs[me];
      outcome := InsertVersion(me, r.base + 1, SourceFor(r.base + 1), r.plan, r.summary);
      runs := Next(w, Insert(me)).runs;
    }

    /** The re-read after a collision. */
    method ReadCall(me: nat, others: seq<Action>) returns (latest: nat)
      requires me in runs && runs[me].phase == Rereading
      requires ByOthers(others, me)
      modifies this
      ensures CurrentWorld() == Exec(old(CurrentWorld()), others + [Reread(me)])
      ensures me in runs && old(rows).Keys <= rows.Keys && latest == Highest(rows)
      ensures runs[me] == old(runs[me]).(base := latest,
        phase := if old(runs[me]).lost > MAX_LOST_RACE_CYCLES then Contended else Judging)
    {
      ExecOneMore(CurrentWorld(), others, Reread(me));
      Await(me, others);
      var w := CurrentWorld();
      latest := GetLatest();
      assert latest == Highest(rows);
      runs := Next(w, Reread(me)).runs;
    }

    /** The caller's applicability check and its verdict. */
    method JudgeCall(me: nat, others: seq<Action>, applicable: bool)
      requires me in runs && runs[me].phase == Judging
      requires ByOthers(others, me)
      modifies this
      ensures CurrentWorld() == Exec(old(CurrentWorld()), others + [Judge(me, applicable)])
      ensures me in runs
      ensures runs[me] == old(runs[me]).(phase := if applicable then Inserting else Declined)
    {
      ExecOneMore(CurrentWorld(), others, Judge(me, applicable));
      Await(me, others);
      runs := runs[me := runs[me].(phase := if applicable then Inserting else Declined)];
    }

    method SupersedeCall(me: nat, others: seq<Action>)
      requires me in runs && runs[me].phase.Superseding?
      requires ByOthers(others, me)
      modifies this
      ensures CurrentWorld() == Exec(old(CurrentWorld()), others + [Supersede(me)])
      ensures me in runs
      ensures runs[me] == old(runs[me]).(phase := Phase.Stored(old(runs[me]).phase.version))
    {
      ExecOneMore(CurrentWorld(), others, Supersede(me));
      Await(me, others);
      var w, version := CurrentWorld(), runs[me].phase.version;
      SupersedeLowerVersions(version);
      runs := Next(w, Supersede(me)).runs;
    }

    /** The caller's source does not fit the first number: nothing is written. */
    method RefuseSource(me: nat)
      requires me in runs && runs[me].phase == Inserting && runs[me].lost == 0
      requires runs[me].source != SourceFor(runs[me].base + 1)
      modifies this`runs
      ensures CurrentWorld() == Exec(old(CurrentWorld()), [Insert(me)])
      ensures me in runs && runs[me] == old(runs[me]).(phase := Misused)
    {
      ExecOneMore(CurrentWorld(), [], Insert(me));
      assert [] + [Insert(me)] == [Insert(me)];
      runs := runs[me := runs[me].(phase := Misused)];
    }

    /** Everybody else's steps while decision `me` waits for a call to go through. */
    method AwaitDecision(me: nat, others: seq<Action>)
      requires forall k :: 0 <= k < |others| ==> !OwnDecisionStep(others[k], me)
      modifies this
      ensures CurrentWorld() == Exec(old(CurrentWorld()), others)
      ensures me in decisions <==> me in old(decisions)
      ensures me in decisions ==> decisions[me] == old(decisions[me])
      ensures old(rows).Keys <= rows.Keys
    {
      var w := Exec(CurrentWorld(), others);
      HistoryOnlyGrows(CurrentWorld(), others);
      OthersLeaveTheDecisionAlone(CurrentWorld(), me, others);
      rows, runs, decisions := w.rows, w.runs, w.decisions;
    }

    /** Reads the version's status; only a proposed version may be decided. */
    method CheckCall(me: nat, version: nat, approve: bool, others: seq<Action>) returns (found: Option<Status>)
      requires me !in decisions && forall k :: 0 <= k < |others| ==> !OwnDecisionStep(others[k], me)
      modifies this
      ensures CurrentWorld() == Exec(old(CurrentWorld()), others + [Check(me, version, approve)])
      ensures found == if version in rows then Some(rows[version].status) else None
      ensures found == Some(Proposed) ==> me in decisions && decisions[me] == Decision(version, approve)
      ensures found != Some(Proposed) ==> me !in decisions
    {
      ExecOneMore(CurrentWorld(), others, Check(me, version, approve));
      AwaitDecision(me, others);
      if version !in rows {
        return None;
      }
      found := Some(rows[version].status);
      if found == Some(Proposed) {
        decisions := decisions[me := Decision(version, approve)];
      }
    }

    /** Before an approval is written: gives up if another version is approved. */
    method PrecheckCall(me: nat, others: seq<Action>) returns (duplicate: bool)
      requires me in decisions && decisions[me].version in rows
      requires forall k :: 0 <= k < |others| ==> !OwnDecisionStep(others[k], me)
      modifies this
      ensures CurrentWorld() == Exec(old(CurrentWorld()), others + if duplicate then [Abandon(me)] else [])
      ensures duplicate <==> HasOtherApproved(rows, old(decisions[me].version))
      ensures if duplicate then me !in decisions else me in decisions && decisions[me] == old(decisions[me])
      ensures old(rows).Keys <= rows.Keys
    {
      ExecOneMore(CurrentWorld(), others, Abandon(me));
      assert others + [] == others;
      AwaitDecision(me, others);
      var already := GetOtherApproved(decisions[me].version);
      duplicate := already.Some?;
      if duplicate {
        decisions := decisions - {me};
      }
    }

    /** Writes the decision. */
    method MarkCall(me: nat, others: seq<Action>) returns (ok: bool)
      requires me in decisions && decisions[me].version in rows
      requires forall k :: 0 <= k < |others| ==> !OwnDecisionStep(others[k], me)
      modifies this
      ensures CurrentWorld() == Exec(old(CurrentWorld()), others + [Mark(me)])
      ensures me !in decisions
      ensures
        var d := old(decisions[me]);
        && d.version in rows
        && (ok ==> rows[d.version].status == if d.approve then Approved else Rejected)
        && (!ok ==> d.approve && HasOtherApproved(rows, d.version))
    {
      var d := decisions[me];
      assert d.version in rows.Keys;
      ExecOneMore(CurrentWorld(), others, Mark(me));
      AwaitDecision(me, others);
      assert d.version in rows.Keys;
      ghost var before := rows;
      if d.approve {
        ok := MarkApproved(d.version);
      } else {
        MarkRejected(d.version);
        ok := true;
      }
      MarkingDecides(before, d, rows);
      decisions := decisions - {me};
    }
  }

  /** Exactly one row's status is set. */
  ghost predicate StatusSet(before: Rows, version: nat, status: Status, after: Rows)
    requires version in before
  {
    && after.Keys == before.Keys
    && after[version] == before[version].(status := status)
    && forall v :: v in before && v != version ==> after[v] == before[v]
  }

  lemma MarkingDecides(before: Rows, d: Decision, after: Rows)
    requires d.version in before
    requires if d.approve && HasOtherApproved(before, d.version) then after == before
             else StatusSet(before, d.version, if d.approve then Approved else Rejected, after)
    ensures after == Decide(before, d.version, d.approve)
  {
  }

  predicate OwnDecisionStep(a: Action, id: nat) {
    (a.Check? || a.Mark? || a.Abandon?) && a.id == id
  }

  lemma {:induction false} OthersLeaveTheDecisionAlone(w: World, id: nat, actions: seq<Action>)
    requires forall k :: 0 <= k < |actions| ==> !OwnDecisionStep(actions[k], id)
    ensures id in Exec(w, actions).decisions <==> id in w.decisions
    ensures id in w.decisions ==> Exec(w, actions).decisions[id] == w.decisions[id]
  {
    if actions != [] {
      OthersLeaveTheDecisionAlone(w, id, actions[..|actions| - 1]);
    }
  }

  lemma {:induction false} OthersBeginTheirOwn(w: World, me: nat, others: seq<Action>)
    requires me !in w.runs && ByOthers(others, me)
    ensures me !in Exec(w, others).runs
  {
    if others != [] {
      OthersBeginTheirOwn(w, me, others[..|others| - 1]);
    }
  }

  /** What others do while the run waits for its `k`-th call. */
  function During(others: seq<seq<Action>>, k: nat): seq<Action> {
    if k < |others| then others[k] else []
  }

  /** The rows of run `me` are exactly what its phase says, with its own plan. */
  ghost predicate OwnsWhatItAdded(rows: Rows, me: nat, r: Run) {
    match Added(r)
    case None => forall v :: v in rows ==> rows[v].author != me
    case Some(v) =>
      && v in rows && rows[v].author == me && rows[v].plan == r.plan && rows[v].summary == r.summary
      && forall u :: u in rows && rows[u].author == me ==> u == v
  }

  lemma RowsOf(w0: World, trace: seq<Action>, me: nat)
    requires Inv(w0) && me in Exec(w0, trace).runs
    ensures OwnsWhatItAdded(Exec(w0, trace).rows, me, Exec(w0, trace).runs[me])
  {
    ExecKeepsInv(w0, trace);
  }

  /** What the loop reports, read off the phase it ends in. */
  function Report(p: Phase): Option<Outcome> {
    match p
    case Stored(version) => Some(Outcome.Stored(version))
    case Declined => Some(Nothing)
    case Contended => Some(RepeatedVersionContention)
    case Misused => Some(SourceMismatch)
    case _ => None
  }

  /** How the loop may end, given the verdicts and the run before and after. */
  ghost predicate EndsWell(answers: seq<bool>, before: Run, after: Run)
    requires |answers| == MAX_LOST_RACE_CYCLES
  {
    var lost := after.lost;
    && after == Run(before.source, before.plan, before.summary, after.base, lost, after.inserts, after.phase)
    && after.base >= before.base + lost
    && lost <= MAX_LOST_RACE_CYCLES + 1
    && after.inserts == (if after.phase.Stored? then lost + 1 else lost)
    && after.phase ==
         if before.source != SourceFor(before.base + 1) then Misused
         else if lost > MAX_LOST_RACE_CYCLES then Contended
         else if lost > 0 && !answers[lost - 1] then Declined
         else Phase.Stored(after.base + 1)
  }

  /** The run just read the table, its source fits, and nobody else does anything. */
  ghost predicate Undisturbed(rows: Rows, r: Run, others: seq<seq<Action>>) {
    r.base == Highest(rows) && r.source == SourceFor(r.base + 1) && forall k: nat :: During(others, k) == []
  }

  /** Inserts run `me`'s plan as the next version, retrying through at most two lost races.

      `others` lists everybody else's steps before each call of this run; `answers` are the
      verdicts of the applicability check. The loop's own calls and the others' steps together
      are one execution of the protocol, so every invariant of the protocol holds of it. */
  method PersistItineraryVersion(
      repo: VersionRepository, me: nat, others: seq<seq<Action>>, answers: seq<bool>)
    returns (outcome: Outcome, ghost trace: seq<Action>)
    requires me in repo.runs && repo.runs[me].phase == Inserting && repo.runs[me].lost == repo.runs[me].inserts == 0
    requires forall k :: 0 <= k < |others| ==> ByOthers(others[k], me)
    requires |answers| == MAX_LOST_RACE_CYCLES
    modifies repo
    ensures repo.CurrentWorld() == Exec(old(repo.CurrentWorld()), trace)
    ensures me in repo.runs
    ensures Some(outcome) == Report(repo.runs[me].phase)
    ensures EndsWell(answers, old(repo.runs[me]), repo.runs[me])
    ensures Undisturbed(old(repo.rows), old(repo.runs[me]), others) ==>
      outcome == Outcome.Stored(old(repo.runs[me]).base + 1)
  {
    ghost var alone := Undisturbed(repo.rows, repo.runs[me], others);
    ghost var w0 := repo.CurrentWorld();
    var run := repo.runs[me];
    var lostRaceCount: nat, call: nat := 0, 0;
    trace := [];
    if run.source != SourceFor(run.base + 1) {
      repo.RefuseSource(me);
      return SourceMismatch, [Insert(me)];
    }
    while lostRaceCount <= MAX_LOST_RACE_CYCLES
      invariant repo.CurrentWorld() == Exec(w0, trace)
      invariant me in repo.runs && StillTrying(answers, run, repo.runs[me]) && repo.runs[me].lost == lostRaceCount
      invariant alone ==> lostRaceCount == 0 && repo.CurrentWorld() == w0
      decreases MAX_LOST_RACE_CYCLES + 1 - lostRaceCount
    {
      var stored, applicable := false, lostRaceCount < MAX_LOST_RACE_CYCLES && answers[lostRaceCount];
      ghost var before := repo.runs[me];
      stored, trace := Attempt(
        repo, me, During(others, call), During(others, call + 1), During(others, call + 2), applicable, w0, trace);
      AfterAttempt(answers, run, before, repo.runs[me], stored, applicable);
      if stored {
        return Outcome.Stored(repo.runs[me].phase.version), trace;
      }
      lostRaceCount, call := lostRaceCount + 1, call + 3;
      if lostRaceCount <= MAX_LOST_RACE_CYCLES && !applicable {
        return Nothing, trace;
      }
    }
    return RepeatedVersionContention, trace;
  }

  /** The run after `lost` collisions whose verdicts were all favourable: about to insert again,
      or contended after the third. */
  ghost predicate StillTrying(answers: seq<bool>, first: Run, now: Run)
    requires |answers| == MAX_LOST_RACE_CYCLES
  {
    && first.source == SourceFor(first.base + 1)
    && now.lost <= MAX_LOST_RACE_CYCLES + 1
    && now == Run(first.source, first.plan, first.summary, now.base, now.lost, now.lost,
                  if now.lost <= MAX_LOST_RACE_CYCLES then Inserting else Contended)
    && now.base >= first.base + now.lost
    && (now.lost == 0 ==> now.base == first.base)
    && (1 <= now.lost <= MAX_LOST_RACE_CYCLES ==> answers[now.lost - 1])
  }

  /** What an attempt makes of a run that is still trying. */
  ghost predicate Attempted(before: Run, after: Run, stored: bool, applicable: bool) {
    if stored then
      after == before.(inserts := before.inserts + 1, phase := Phase.Stored(before.base + 1))
    else
      && after.base > before.base
      && after == before.(base := after.base, lost := before.lost + 1, inserts := before.inserts + 1,
                          phase := if before.lost >= MAX_LOST_RACE_CYCLES then Contended
                                   else if applicable then Inserting else Declined)
  }

  lemma AfterAttempt(answers: seq<bool>, first: Run, before: Run, after: Run, stored: bool, applicable: bool)
    requires |answers| == MAX_LOST_RACE_CYCLES
    requires StillTrying(answers, first, before) && before.lost <= MAX_LOST_RACE_CYCLES
    requires applicable == (before.lost < MAX_LOST_RACE_CYCLES && answers[before.lost])
    requires Attempted(before, after, stored, applicable)
    ensures stored || (before.lost < MAX_LOST_RACE_CYCLES && !applicable) ==> EndsWell(answers, first, after)
    ensures !stored && (before.lost == MAX_LOST_RACE_CYCLES || applicable) ==> StillTrying(answers, first, after)
  {
  }

  /** One attempt: insert and supersede, or lose the race, re-read, and ask whether the change
      still applies unless this was the third collision. */
  method Attempt(
      repo: VersionRepository, me: nat,
      before1: seq<Action>, before2: seq<Action>, before3: seq<Action>, applicable: bool,
      ghost w0: World, ghost trace: seq<Action>)
    returns (stored: bool, ghost longer: seq<Action>)
    requires repo.CurrentWorld() == Exec(w0, trace)
    requires me in repo.runs && repo.runs[me].phase == Inserting
    requires repo.runs[me].lost == 0 ==> repo.runs[me].source == SourceFor(repo.runs[me].base + 1)
    requires ByOthers(before1, me) && ByOthers(before2, me) && ByOthers(before3, me)
    modifies repo
    ensures repo.CurrentWorld() == Exec(w0, longer)
    ensures me in repo.runs
    ensures Attempted(old(repo.runs[me]), repo.runs[me], stored, applicable)
    ensures before1 == [] ==> (stored <==> old(repo.runs[me]).base + 1 !in old(repo.rows))
  {
    var inserted := repo.InsertCall(me, before1);
    longer := Longer(w0, trace, before1 + [Insert(me)]);
    if inserted != UniqueVersionViolation {
      repo.SupersedeCall(me, before2);
      longer := Longer(w0, longer, before2 + [Supersede(me)]);
      return true, longer;
    }
    longer := LostRace(repo, me, before2, before3, applicable, w0, longer);
    return false, longer;
  }

  method LostRace(
      repo: VersionRepository, me: nat, before1: seq<Action>, before2: seq<Action>, applicable: bool,
      ghost w0: World, ghost trace: seq<Action>)
    returns (ghost longer: seq<Action>)
    requires repo.CurrentWorld() == Exec(w0, trace)
    requires me in repo.runs && repo.runs[me].phase == Rereading
    requires ByOthers(before1, me) && ByOthers(before2, me)
    modifies repo
    ensures repo.CurrentWorld() == Exec(w0, longer)
    ensures me in repo.runs && forall v :: v in old(repo.rows) ==> v <= repo.runs[me].base
    ensures
      var r := old(repo.runs[me]);
      repo.runs[me] == Run(
        r.source, r.plan, r.summary, repo.runs[me].base, r.lost, r.inserts,
        if r.lost > MAX_LOST_RACE_CYCLES then Contended else if applicable then Inserting else Declined)
  {
    var lost := repo.runs[me].lost;
    var latest := repo.ReadCall(me, before1);
    longer := Longer(w0, trace, before1 + [Reread(me)]);
    assert forall v :: v in old(repo.rows).Keys ==> v in repo.rows.Keys;
    if lost <= MAX_LOST_RACE_CYCLES {
      repo.JudgeCall(me, before2, applicable);
      longer := Longer(w0, longer, before2 + [Judge(me, applicable)]);
    }
  }

  ghost function Longer(w0: World, trace: seq<Action>, more: seq<Action>): (longer: seq<Action>)
    ensures Exec(w0, longer) == Exec(Exec(w0, trace), more)
  {
    ExecConcat(w0, trace, more);
    trace + more
  }

  // ----- A member's decision

  datatype DecisionOutcome = Decided | VersionNotFound | VersionNotProposed | DuplicateApproval

  /** Approves or rejects a proposed version, in separate calls to check and to write it.

      The calls and the others' steps between them are one execution of the protocol. */
  method DecideVersion(
      repo: VersionRepository, me: nat, version: nat, approve: bool, others: seq<seq<Action>>)
    returns (outcome: DecisionOutcome, ghost trace: seq<Action>)
    requires me !in repo.decisions
    requires forall k, j :: 0 <= k < |others| && 0 <= j < |others[k]| ==> !OwnDecisionStep(others[k][j], me)
    modifies repo
    ensures repo.CurrentWorld() == Exec(old(repo.CurrentWorld()), trace) && me !in repo.decisions
    ensures
      match outcome
      case Decided =>
        && Mark(me) in trace
        && version in repo.rows && repo.rows[version].status == if approve then Approved else Rejected
      case VersionNotFound => version !in repo.rows && Mark(me) !in trace
      case VersionNotProposed =>
        version in repo.rows && repo.rows[version].status != Proposed && Mark(me) !in trace
      case DuplicateApproval => approve && HasOtherApproved(repo.rows, version)
  {
    ghost var w0 := repo.CurrentWorld();
    var found := repo.CheckCall(me, version, approve, During(others, 0));
    trace := During(others, 0) + [Check(me, version, approve)];
    if found.None? {
      return VersionNotFound, trace;
    }
    if found.value != Proposed {
      return VersionNotProposed, trace;
    }
    if approve {
      var duplicate := repo.PrecheckCall(me, During(others, 1));
      var more := During(others, 1) + if duplicate then [Abandon(me)] else [];
      ExecConcat(w0, trace, more);
      trace := trace + more;
      if duplicate {
        return DuplicateApproval, trace;
      }
    }
    var ok := repo.MarkCall(me, During(others, 2));
    ExecConcat(w0, trace, During(others, 2) + [Mark(me)]);
    trace := trace + (During(others, 2) + [Mark(me)]);
    return if ok then Decided else DuplicateApproval, trace;
  }
}

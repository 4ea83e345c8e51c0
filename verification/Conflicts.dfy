/** Conflicting feedback and the one row per target that is applied
    (backend/app/agents/nodes/negotiation.py). */
module Conflicts {
  import opened Wrappers
  import opened Sorting
  import opened Itineraries
  import Text

  // ----- Grouping rows by target

  /** The rows aimed at `t`, oldest first. */
  function RowsFor(reqs: seq<Request>, t: Target): seq<Feedback> {
    if reqs == [] then []
    else
      var rest, last := RowsFor(reqs[..|reqs| - 1], t), reqs[|reqs| - 1];
      if last.target == t then rest + [last.row] else rest
  }

  /** The targets in order of first appearance. */
  function TargetsOf(reqs: seq<Request>): seq<Target> {
    if reqs == [] then []
    else
      var rest, last := TargetsOf(reqs[..|reqs| - 1]), reqs[|reqs| - 1];
      if last.target in rest then rest else rest + [last.target]
  }

  lemma {:induction false} TargetsHaveRows(reqs: seq<Request>, t: Target)
    ensures t in TargetsOf(reqs) <==> RowsFor(reqs, t) != []
    ensures t in TargetsOf(reqs) <==> exists k :: 0 <= k < |reqs| && reqs[k].target == t
    ensures forall i, j :: 0 <= i < j < |TargetsOf(reqs)| ==> TargetsOf(reqs)[i] != TargetsOf(reqs)[j]
  {
    if reqs != [] {
      var front, last := reqs[..|reqs| - 1], reqs[|reqs| - 1];
      TargetsHaveRows(front, t);
      assert reqs == front + [last];
      if k :| 0 <= k < |front| && front[k].target == t { assert reqs[k].target == t; }
      if last.target == t { assert reqs[|reqs| - 1].target == t; }
    }
  }

  lemma {:induction false} RowsComeFromRequests(reqs: seq<Request>, t: Target, row: Feedback)
    ensures row in RowsFor(reqs, t) <==> Request(row, t) in reqs
  {
    if reqs != [] {
      var front, last := reqs[..|reqs| - 1], reqs[|reqs| - 1];
      RowsComeFromRequests(front, t, row);
      assert reqs == front + [last];
    }
  }

  /** The first and the last row of a target are its first and its last request. */
  lemma {:induction false} OldestAndNewest(reqs: seq<Request>, t: Target, k: nat)
    requires k < |reqs| && reqs[k].target == t
    ensures RowsFor(reqs, t) != []
    ensures (forall j :: 0 <= j < k ==> reqs[j].target != t) ==> RowsFor(reqs, t)[0] == reqs[k].row
    ensures (forall j :: k < j < |reqs| ==> reqs[j].target != t) ==>
      RowsFor(reqs, t)[|RowsFor(reqs, t)| - 1] == reqs[k].row
  {
    var front, last := reqs[..|reqs| - 1], reqs[|reqs| - 1];
    if k < |front| {
      OldestAndNewest(front, t, k);
    } else {
      TargetsHaveRows(front, t);
      if forall j :: 0 <= j < k ==> reqs[j].target != t {
        assert forall j :: 0 <= j < |front| ==> front[j] == reqs[j];
        assert RowsFor(front, t) == [];
      }
    }
  }

  method Group(reqs: seq<Request>) returns (order: seq<Target>, grouped: map<Target, seq<Feedback>>)
    ensures order == TargetsOf(reqs)
    ensures forall t :: t in grouped <==> t in order
    ensures forall t :: t in grouped ==> grouped[t] == RowsFor(reqs, t) && grouped[t] != []
  {
    order, grouped := [], map[];
    for k := 0 to |reqs|
      invariant order == TargetsOf(reqs[..k])
      invariant forall t :: t in grouped <==> t in order
      invariant forall t :: t in grouped ==> grouped[t] == RowsFor(reqs[..k], t)
    {
      var r := reqs[k];
      assert reqs[..k + 1][..k] == reqs[..k];
      TargetsHaveRows(reqs[..k], r.target);
      if r.target in grouped {
        grouped := grouped[r.target := grouped[r.target] + [r.row]];
      } else {
        order := order + [r.target];
        grouped := grouped[r.target := [r.row]];
      }
    }
    assert reqs[..|reqs|] == reqs;
    forall t | t in grouped
      ensures grouped[t] != []
    {
      TargetsHaveRows(reqs, t);
    }
  }

  // ----- What a conflict is

  predicate Rewords(o: Outcome) {
    o == Edit || o == Add
  }

  /** Two rows that cannot both be honoured. */
  predicate Incompatible(a: Feedback, b: Feedback) {
    || (a.outcome == Remove && (b.outcome == Retain || Rewords(b.outcome)))
    || (b.outcome == Remove && (a.outcome == Retain || Rewords(a.outcome)))
    || (Rewords(a.outcome) && Rewords(b.outcome) && Text.Strip(a.comment) != Text.Strip(b.comment))
  }

  ghost predicate Conflicting(rows: seq<Feedback>) {
    exists i, j :: 0 <= i < |rows| && 0 <= j < |rows| && Incompatible(rows[i], rows[j])
  }

  function Outcomes(rows: seq<Feedback>): set<Outcome> {
    set k | 0 <= k < |rows| :: rows[k].outcome
  }

  /** The trimmed comments of the rows that ask for new wording. */
  function Wordings(rows: seq<Feedback>): set<string> {
    set k | 0 <= k < |rows| && Rewords(rows[k].outcome) :: Text.Strip(rows[k].comment)
  }

  /** The rule as the code applies it, to all rows of a target at once. */
  predicate ConflictRule(rows: seq<Feedback>) {
    var outcomes := Outcomes(rows);
    && |rows| >= 2
    && ( || (Remove in outcomes && Retain in outcomes)
         || (Remove in outcomes && (Edit in outcomes || Add in outcomes))
         || |Wordings(rows)| > 1)
  }

  lemma TwoMembers<T>(s: set<T>, a: T, b: T)
    requires a in s && b in s && a != b
    ensures |s| > 1
  {
    assert {a, b} <= s;
    assert |s - {a, b}| + |{a, b}| == |s|;
  }

  lemma PickTwo<T>(s: set<T>) returns (a: T, b: T)
    requires |s| > 1
    ensures a in s && b in s && a != b
  {
    a :| a in s;
    assert |s - {a}| > 0;
    b :| b in s - {a};
  }

  /** The rule finds exactly the targets with two incompatible rows. */
  lemma RuleFindsConflicts(rows: seq<Feedback>)
    ensures ConflictRule(rows) <==> Conflicting(rows)
  {
    if Conflicting(rows) {
      var i, j :| 0 <= i < |rows| && 0 <= j < |rows| && Incompatible(rows[i], rows[j]);
      assert i != j;
      assert rows[i].outcome in Outcomes(rows) && rows[j].outcome in Outcomes(rows);
      if Rewords(rows[i].outcome) && Rewords(rows[j].outcome) {
        TwoMembers(Wordings(rows), Text.Strip(rows[i].comment), Text.Strip(rows[j].comment));
      }
    }
    if ConflictRule(rows) {
      if |Wordings(rows)| > 1 {
        var a, b := PickTwo(Wordings(rows));
        var i :| 0 <= i < |rows| && Rewords(rows[i].outcome) && Text.Strip(rows[i].comment) == a;
        var j :| 0 <= j < |rows| && Rewords(rows[j].outcome) && Text.Strip(rows[j].comment) == b;
        assert Incompatible(rows[i], rows[j]);
      } else {
        var i :| 0 <= i < |rows| && rows[i].outcome == Remove;
        var other :| other in Outcomes(rows) && (other == Retain || Rewords(other));
        var j :| 0 <= j < |rows| && rows[j].outcome == other;
        assert Incompatible(rows[i], rows[j]);
      }
    }
  }

  // ----- The conflict report

  /** `outcomes` and `feedbackIds` are sorted lists. */
  datatype Conflict = Conflict(target: Target, feedbackIds: seq<string>, outcomes: seq<Outcome>)

  function RowId(row: Feedback): string {
    row.id
  }

  function RowIds(rows: seq<Feedback>): seq<string> {
    MapSeq(RowId, rows)
  }

  /** The outcomes in alphabetical order. */
  function Alphabetical(s: set<Outcome>): seq<Outcome> {
    (if Add in s then [Add] else []) + (if Edit in s then [Edit] else [])
    + (if Remove in s then [Remove] else []) + (if Retain in s then [Retain] else [])
    + (if Unresolved in s then [Unresolved] else [])
  }

  function ConflictOf(t: Target, rows: seq<Feedback>): Conflict {
    Conflict(t, SortBy(RowIds(rows), Text.Before), Alphabetical(Outcomes(rows)))
  }

  function SortText(t: Target): string {
    t.itemId.GetOr("")
  }

  /** The report's order: by day, then by item id, a whole day before its items. */
  predicate Earlier(a: Conflict, b: Conflict) {
    a.target.day < b.target.day
    || (a.target.day == b.target.day && Text.Before(SortText(a.target), SortText(b.target)))
  }

  lemma EarlierIsTotal()
    ensures IsTotal(Earlier)
  {
    Text.BeforeIsTotalOrder();
    forall a, b ensures Earlier(a, b) || Earlier(b, a) {
      assert Text.Before(SortText(a.target), SortText(b.target)) || Text.Before(SortText(b.target), SortText(a.target));
    }
    forall a, b, c | Earlier(a, b) && Earlier(b, c) ensures Earlier(a, c) {
      if a.target.day == b.target.day == c.target.day {
        Text.BeforeTransitive(SortText(a.target), SortText(b.target), SortText(c.target));
      }
    }
  }

  /** One entry per conflicting target, in the report's order. */
  ghost predicate IsReport(reqs: seq<Request>, report: seq<Conflict>) {
    && (forall t :: Conflicting(RowsFor(reqs, t)) <==> Reports(report, t))
    && (forall k :: 0 <= k < |report| ==> report[k] == ConflictOf(report[k].target, RowsFor(reqs, report[k].target)))
    && DistinctTargets(report)
    && Sorted(report, Earlier)
  }

  ghost predicate Reports(report: seq<Conflict>, t: Target) {
    exists k :: 0 <= k < |report| && report[k].target == t
  }

  /** The entry's target conflicts, and the entry says what its rows say. */
  ghost predicate GoodEntry(reqs: seq<Request>, c: Conflict) {
    var rows := RowsFor(reqs, c.target);
    ConflictRule(rows) && c == ConflictOf(c.target, rows)
  }

  ghost predicate DistinctTargets(found: seq<Conflict>) {
    forall i, j :: 0 <= i < j < |found| ==> found[i].target != found[j].target
  }

  /** The entries for the conflicting ones among these targets. */
  ghost predicate FoundAmong(reqs: seq<Request>, targets: seq<Target>, found: seq<Conflict>) {
    && (forall i :: 0 <= i < |found| ==> found[i].target in targets && GoodEntry(reqs, found[i]))
    && (forall j :: 0 <= j < |targets| && ConflictRule(RowsFor(reqs, targets[j])) ==> Reports(found, targets[j]))
    && DistinctTargets(found)
  }

  lemma OneMoreFound(reqs: seq<Request>, targets: seq<Target>, found: seq<Conflict>, c: Conflict)
    requires FoundAmong(reqs, targets, found) && GoodEntry(reqs, c) && c.target !in targets
    ensures FoundAmong(reqs, targets + [c.target], found + [c])
  {
    var more, next := targets + [c.target], found + [c];
    assert next[|found|].target == c.target;
    forall j | 0 <= j < |more| && ConflictRule(RowsFor(reqs, more[j]))
      ensures Reports(next, more[j])
    {
      if j < |targets| {
        var i :| 0 <= i < |found| && found[i].target == targets[j];
        assert next[i].target == more[j];
      }
    }
  }

  /** Reports every conflicting target, in a stable order. */
  method DetectConflicts(reqs: seq<Request>) returns (report: seq<Conflict>)
    ensures IsReport(reqs, report)
  {
    var order, grouped := Group(reqs);
    assert forall i, j :: 0 <= i < j < |order| ==> order[i] != order[j] by {
      TargetsHaveRows(reqs, Target(0, None));
    }
    var found: seq<Conflict> := [];
    for k := 0 to |order|
      invariant FoundAmong(reqs, order[..k], found)
    {
      var entries := grouped[order[k]];
      assert order[..k + 1] == order[..k] + [order[k]];
      if ConflictRule(entries) {
        var c := ConflictOf(order[k], entries);
        OneMoreFound(reqs, order[..k], found, c);
        found := found + [c];
      }
    }
    assert order[..|order|] == order;
    EarlierIsTotal();
    SortBySorts(found, Earlier);
    report := SortBy(found, Earlier);
    ReportIsSortedFindings(reqs, found, report, order);
  }

  lemma ReportIsSortedFindings(reqs: seq<Request>, found: seq<Conflict>, report: seq<Conflict>, order: seq<Target>)
    requires order == TargetsOf(reqs) && report == SortBy(found, Earlier) && Sorted(report, Earlier)
    requires FoundAmong(reqs, order, found)
    ensures IsReport(reqs, report)
  {
    SortByPermutes(found, Earlier);
    assert forall c :: c in report <==> c in multiset(report);
    assert forall c :: c in found <==> c in multiset(found);
    forall t
      ensures Conflicting(RowsFor(reqs, t)) <==> Reports(report, t)
    {
      RuleFindsConflicts(RowsFor(reqs, t));
      if Conflicting(RowsFor(reqs, t)) {
        TargetsHaveRows(reqs, t);
        var j :| 0 <= j < |order| && order[j] == t;
        assert Reports(found, order[j]);
        var i :| 0 <= i < |found| && found[i].target == t;
        assert found[i] in report;
      }
      if k :| 0 <= k < |report| && report[k].target == t {
        assert report[k] in found;
      }
    }
    forall k | 0 <= k < |report|
      ensures report[k] == ConflictOf(report[k].target, RowsFor(reqs, report[k].target))
    {
      assert report[k] in found;
    }
    DistinctTargetsSurviveSorting(found, report);
  }

  lemma DistinctTargetsSurviveSorting(found: seq<Conflict>, report: seq<Conflict>)
    requires multiset(found) == multiset(report)
    requires DistinctTargets(found)
    ensures DistinctTargets(report)
  {
    forall i, j | 0 <= i < j < |report|
      ensures report[i].target != report[j].target
    {
      if report[i].target == report[j].target {
        assert report[i] in multiset(found) && report[j] in multiset(found);
        assert report[i] in found && report[j] in found;
        var a :| 0 <= a < |found| && found[a] == report[i];
        var b :| 0 <= b < |found| && found[b] == report[j];
        assert a == b;
        TwiceInMultiset(report, i, j);
        OnceInMultiset(found, a);
      }
    }
  }

  lemma TwiceInMultiset<T>(s: seq<T>, i: nat, j: nat)
    requires i < j < |s| && s[i] == s[j]
    ensures multiset(s)[s[i]] >= 2
  {
    assert s == s[..j] + s[j..];
    assert s[..j][i] == s[i] && s[j..][0] == s[i];
    assert s[i] in multiset(s[..j]) && s[i] in multiset(s[j..]);
  }

  lemma OnceInMultiset<T>(s: seq<T>, i: nat)
    requires i < |s| && forall j :: 0 <= j < |s| && j != i ==> s[j] != s[i]
    ensures multiset(s)[s[i]] == 1
  {
    assert s == s[..i] + [s[i]] + s[i + 1..];
    assert s[i] !in multiset(s[..i]) && s[i] !in multiset(s[i + 1..]);
  }

  // ----- The report does not depend on the order of the rows

  /** Item ids are never empty: the plan's schema demands it. */
  ghost predicate NamedTargets(reqs: seq<Request>) {
    forall k :: 0 <= k < |reqs| ==> reqs[k].target.itemId != Some("")
  }

  lemma {:induction false} RowsAsMultiset(reqs: seq<Request>, t: Target, row: Feedback)
    ensures multiset(RowsFor(reqs, t))[row] == multiset(reqs)[Request(row, t)]
  {
    if reqs != [] {
      var front, last := reqs[..|reqs| - 1], reqs[|reqs| - 1];
      RowsAsMultiset(front, t, row);
      assert reqs == front + [last];
      assert multiset(reqs) == multiset(front) + multiset{last};
    }
  }

  lemma PermutedRows(p: seq<Request>, q: seq<Request>, t: Target)
    requires multiset(p) == multiset(q)
    ensures multiset(RowsFor(p, t)) == multiset(RowsFor(q, t))
  {
    forall row
      ensures multiset(RowsFor(p, t))[row] == multiset(RowsFor(q, t))[row]
    {
      RowsAsMultiset(p, t, row);
      RowsAsMultiset(q, t, row);
    }
  }

  lemma SortedIdsPermute(a: seq<Feedback>, b: seq<Feedback>)
    requires multiset(a) == multiset(b)
    ensures SortBy(RowIds(a), Text.Before) == SortBy(RowIds(b), Text.Before)
  {
    MapPermutes(RowId, a, b);
    Text.BeforeIsTotalOrder();
    SortBySorts(RowIds(a), Text.Before);
    SortBySorts(RowIds(b), Text.Before);
    SortByPermutes(RowIds(a), Text.Before);
    SortByPermutes(RowIds(b), Text.Before);
    SortedUnique(SortBy(RowIds(a), Text.Before), SortBy(RowIds(b), Text.Before), Text.Before);
  }

  lemma PermutedConflict(p: seq<Request>, q: seq<Request>, t: Target)
    requires multiset(p) == multiset(q)
    ensures ConflictOf(t, RowsFor(p, t)) == ConflictOf(t, RowsFor(q, t))
    ensures Conflicting(RowsFor(p, t)) <==> Conflicting(RowsFor(q, t))
  {
    var a, b := RowsFor(p, t), RowsFor(q, t);
    PermutedRows(p, q, t);
    SameElements(a, b);
    OutcomesCarryOver(a, b);
    OutcomesCarryOver(b, a);
    SortedIdsPermute(a, b);
    ConflictingCarriesOver(a, b);
    ConflictingCarriesOver(b, a);
  }

  lemma OutcomesCarryOver(a: seq<Feedback>, b: seq<Feedback>)
    requires forall x :: x in a ==> x in b
    ensures Outcomes(a) <= Outcomes(b)
  {
    forall o | o in Outcomes(a)
      ensures o in Outcomes(b)
    {
      var k :| 0 <= k < |a| && a[k].outcome == o;
      assert a[k] in b;
    }
  }

  lemma ConflictingCarriesOver(a: seq<Feedback>, b: seq<Feedback>)
    requires forall x :: x in a <==> x in b
    ensures Conflicting(a) ==> Conflicting(b)
  {
    if i, j :| 0 <= i < |a| && 0 <= j < |a| && Incompatible(a[i], a[j]) {
      assert a[i] in a && a[j] in a;
      assert a[i] in b && a[j] in b;
      var k :| 0 <= k < |b| && b[k] == a[i];
      var l :| 0 <= l < |b| && b[l] == a[j];
      assert Incompatible(b[k], b[l]);
    }
  }

  /** Reordering the rows changes nothing in the report. */
  lemma ReportIgnoresRowOrder(
      p: seq<Request>, q: seq<Request>, a: seq<Conflict>, b: seq<Conflict>)
    requires multiset(p) == multiset(q) && NamedTargets(p) && IsReport(p, a) && IsReport(q, b)
    ensures a == b
  {
    SameEntries(p, q, a, b);
    forall i, j | 0 <= i < |a| && 0 <= j < |a| && Earlier(a[i], a[j]) && Earlier(a[j], a[i])
      ensures a[i] == a[j]
    {
      Text.BeforeTotal(SortText(a[i].target), SortText(a[j].target));
      ReportedTargetsAreNamed(p, a, i);
      ReportedTargetsAreNamed(p, a, j);
      assert a[i].target == a[j].target;
    }
    SortedUnique(a, b, Earlier);
  }

  lemma ReportedTargetsAreNamed(reqs: seq<Request>, report: seq<Conflict>, k: nat)
    requires NamedTargets(reqs) && IsReport(reqs, report) && k < |report|
    ensures report[k].target.itemId != Some("")
  {
    var t := report[k].target;
    assert Reports(report, t);
    TargetsHaveRows(reqs, t);
  }

  lemma SameEntries(p: seq<Request>, q: seq<Request>, a: seq<Conflict>, b: seq<Conflict>)
    requires multiset(p) == multiset(q) && IsReport(p, a) && IsReport(q, b)
    ensures multiset(a) == multiset(b)
  {
    forall c
      ensures multiset(a)[c] == multiset(b)[c]
    {
      PermutedConflict(p, q, c.target);
      EntryOnceOrNever(p, a, c);
      EntryOnceOrNever(q, b, c);
    }
  }

  /** A report holds each target's entry once, and nothing else. */
  lemma EntryOnceOrNever(reqs: seq<Request>, report: seq<Conflict>, c: Conflict)
    requires IsReport(reqs, report)
    ensures multiset(report)[c] ==
      if Conflicting(RowsFor(reqs, c.target)) && c == ConflictOf(c.target, RowsFor(reqs, c.target)) then 1 else 0
  {
    if c in report {
      var k :| 0 <= k < |report| && report[k] == c;
      forall j | 0 <= j < |report| && j != k
        ensures report[j] != report[k]
      {
        if j < k { assert report[j].target != report[k].target; }
        if k < j { assert report[k].target != report[j].target; }
      }
      OnceInMultiset(report, k);
      assert Reports(report, c.target);
    } else {
      assert c !in multiset(report);
      if Reports(report, c.target) {
        var k :| 0 <= k < |report| && report[k].target == c.target;
        assert report[k] in report;
      }
    }
  }

  // ----- The row that is applied

  /** One row per target, in order of the targets' first appearance. */
  datatype Winners = Winners(order: seq<Target>, row: map<Target, Feedback>)

  /** The first row of a reported target, the last row of any other. */
  function Chosen(rows: seq<Feedback>, reported: bool): Feedback
    requires rows != []
  {
    if reported then rows[0] else rows[|rows| - 1]
  }

  ghost predicate AreWinners(reqs: seq<Request>, report: seq<Conflict>, w: Winners) {
    && w.order == TargetsOf(reqs)
    && (forall t :: t in w.row <==> t in w.order)
    && forall t :: t in w.row ==> RowsFor(reqs, t) != [] && w.row[t] == Chosen(RowsFor(reqs, t), Reports(report, t))
  }

  method ReportedTargets(report: seq<Conflict>) returns (targets: set<Target>)
    ensures forall t :: t in targets <==> Reports(report, t)
  {
    targets := {};
    for k := 0 to |report|
      invariant forall t :: t in targets <==> exists i :: 0 <= i < k && report[i].target == t
    {
      targets := targets + {report[k].target};
    }
  }

  method WinningFeedback(reqs: seq<Request>, report: seq<Conflict>) returns (w: Winners)
    ensures AreWinners(reqs, report, w)
  {
    var conflictKeys := ReportedTargets(report);
    var order, grouped := Group(reqs);
    var row: map<Target, Feedback> := map[];
    for k := 0 to |order|
      invariant forall t :: t in row <==> t in order[..k]
      invariant forall t :: t in row ==> t in grouped && row[t] == Chosen(grouped[t], t in conflictKeys)
    {
      assert order[..k + 1] == order[..k] + [order[k]];
      row := row[order[k] := Chosen(grouped[order[k]], order[k] in conflictKeys)];
    }
    assert order[..|order|] == order;
    w := Winners(order, row);
  }

  /** The winners that the rows and the report determine. */
  ghost function WinnersOf(reqs: seq<Request>, report: seq<Conflict>): (w: Winners)
    ensures AreWinners(reqs, report, w)
  {
    assert forall t :: t in TargetsOf(reqs) ==> RowsFor(reqs, t) != [] by {
      forall t | t in TargetsOf(reqs) ensures RowsFor(reqs, t) != [] { TargetsHaveRows(reqs, t); }
    }
    Winners(TargetsOf(reqs), map t | t in TargetsOf(reqs) :: Chosen(RowsFor(reqs, t), Reports(report, t)))
  }

  lemma WinnersAreUnique(reqs: seq<Request>, report: seq<Conflict>, w: Winners)
    requires AreWinners(reqs, report, w)
    ensures w == WinnersOf(reqs, report)
  {
    assert w.row == WinnersOf(reqs, report).row;
  }

  /** On a conflicting target the oldest row wins, on any other the newest. */
  lemma {:induction false} OldestWinsConflictsNewestOtherwise(
      reqs: seq<Request>, report: seq<Conflict>, w: Winners, k: nat)
    requires IsReport(reqs, report) && AreWinners(reqs, report, w) && k < |reqs|
    ensures reqs[k].target in w.row
    ensures
      var t := reqs[k].target;
      Conflicting(RowsFor(reqs, t)) && (forall j :: 0 <= j < k ==> reqs[j].target != t) ==>
        w.row[t] == reqs[k].row
    ensures
      var t := reqs[k].target;
      !Conflicting(RowsFor(reqs, t)) && (forall j :: k < j < |reqs| ==> reqs[j].target != t) ==>
        w.row[t] == reqs[k].row
  {
    TargetsHaveRows(reqs, reqs[k].target);
    OldestAndNewest(reqs, reqs[k].target, k);
  }

  /** The rows chosen for different targets are different rows, each aimed at its target. */
  ghost predicate WellAimed(it: Itinerary, w: Winners) {
    && (forall t :: t in w.row <==> t in w.order)
    && (forall i, j :: 0 <= i < j < |w.order| ==> w.order[i] != w.order[j])
    && (forall t :: t in w.row ==> Resolved(it, t))
    && (forall t, u :: t in w.row && u in w.row && w.row[t].id == w.row[u].id ==> t == u)
  }

  lemma WinnersAreWellAimed(it: Itinerary, reqs: seq<Request>, report: seq<Conflict>, w: Winners)
    requires AllResolved(it, reqs) && DistinctRows(reqs) && AreWinners(reqs, report, w)
    ensures WellAimed(it, w)
    ensures forall t :: t in w.row ==> Request(w.row[t], t) in reqs
  {
    forall t | t in w.row
      ensures Request(w.row[t], t) in reqs
    {
      RowsComeFromRequests(reqs, t, w.row[t]);
    }
    TargetsHaveRows(reqs, Target(0, None));
    forall t, u | t in w.row && u in w.row && w.row[t].id == w.row[u].id
      ensures t == u
    {
      var i :| 0 <= i < |reqs| && reqs[i] == Request(w.row[t], t);
      var j :| 0 <= j < |reqs| && reqs[j] == Request(w.row[u], u);
      assert i == j;
    }
  }
}

/** When a party is free together (backend/app/agents/group_profile.py).

    Members give closed ranges of dates. Two ranges that merely sit on consecutive days
    are not joined, so the meaning of a list of ranges is not a set of days. It is a set
    of half days: day `d` is the point `2 * d`, and the night after it is `2 * d + 1`.
    A range from `s` to `e` covers its days and the nights between them, but not the
    night after `e`. */
module Availability {
  import opened Sorting
  import opened Wrappers

  datatype Range = Range(start: int, end: int)

  /** One entry of a member's `available_dates`, after its two dates have been parsed. */
  datatype Entry = NotAMapping | Dates(start: Option<int>, end: Option<int>)

  /** A member's raw `available_dates`. */
  datatype AvailableDates = NotAList | Entries(entries: seq<Entry>)

  // ----- What a list of ranges means

  ghost predicate Covers(r: Range, h: int) {
    2 * r.start <= h <= 2 * r.end
  }

  ghost predicate Free(rs: seq<Range>, h: int) {
    exists i :: 0 <= i < |rs| && Covers(rs[i], h)
  }

  ghost predicate SameTime(a: seq<Range>, b: seq<Range>) {
    forall h :: Free(a, h) <==> Free(b, h)
  }

  ghost predicate WellFormed(rs: seq<Range>) {
    forall i :: 0 <= i < |rs| ==> rs[i].start <= rs[i].end
  }

  /** Sorted and strictly separated: no two ranges touch. */
  ghost predicate Canonical(rs: seq<Range>) {
    && WellFormed(rs)
    && forall i, j :: 0 <= i < j < |rs| ==> rs[i].end < rs[j].start
  }

  // ----- A canonical list is determined by the time it covers

  lemma FirstStarts(a: seq<Range>, b: seq<Range>)
    requires Canonical(a) && Canonical(b) && SameTime(a, b) && a != []
    ensures b != [] && b[0].start <= a[0].start
  {
    assert Covers(a[0], 2 * a[0].start);
    assert Free(a, 2 * a[0].start);
    var i :| 0 <= i < |b| && Covers(b[i], 2 * a[0].start);
    if i > 0 {
      assert b[0].end < b[i].start;
    }
  }

  /** Nobody is counted on for the night after a range ends. */
  lemma NightAfter(rs: seq<Range>, i: nat)
    requires Canonical(rs) && i < |rs|
    ensures !Free(rs, 2 * rs[i].end + 1)
  {
  }

  /** If `a`'s first range ended before `b`'s, the night after it would be free in `b` only. */
  lemma FirstEnds(a: seq<Range>, b: seq<Range>)
    requires Canonical(a) && Canonical(b) && SameTime(a, b) && a != [] && b != []
    requires a[0].start == b[0].start
    ensures b[0].end <= a[0].end
  {
    if a[0].end < b[0].end {
      assert Covers(b[0], 2 * a[0].end + 1);
      NightAfter(a, 0);
    }
  }

  lemma CanonicalTail(a: seq<Range>, b: seq<Range>)
    requires Canonical(a) && Canonical(b) && SameTime(a, b)
    requires a != [] && b != [] && a[0] == b[0]
    ensures Canonical(a[1..]) && Canonical(b[1..]) && SameTime(a[1..], b[1..])
  {
    forall h
      ensures Free(a[1..], h) <==> Free(b[1..], h)
    {
      TailFree(a, h);
      TailFree(b, h);
    }
  }

  lemma TailFree(a: seq<Range>, h: int)
    requires Canonical(a) && a != []
    ensures Free(a[1..], h) <==> Free(a, h) && h > 2 * a[0].end
  {
  }

  /** Two canonical lists that cover the same time are the same list. */
  lemma {:induction false} CanonicalUnique(a: seq<Range>, b: seq<Range>)
    requires Canonical(a) && Canonical(b) && SameTime(a, b)
    ensures a == b
  {
    if a == [] && b == [] {
    } else {
      if a != [] { FirstStarts(a, b); }
      if b != [] { FirstStarts(b, a); }
      FirstEnds(a, b);
      FirstEnds(b, a);
      CanonicalTail(a, b);
      CanonicalUnique(a[1..], b[1..]);
      assert a == [a[0]] + a[1..];
      assert b == [b[0]] + b[1..];
    }
  }

  /** A stretch of days fits inside one range exactly when every half day of it is free. */
  lemma StretchInOneRange(rs: seq<Range>, first: int, last: int)
    requires Canonical(rs) && first <= last
    ensures (exists i :: 0 <= i < |rs| && rs[i].start <= first && last <= rs[i].end)
       <==> (forall h :: 2 * first <= h <= 2 * last ==> Free(rs, h))
  {
    if i :| 0 <= i < |rs| && rs[i].start <= first && last <= rs[i].end {
      forall h | 2 * first <= h <= 2 * last
        ensures Free(rs, h)
      {
        assert Covers(rs[i], h);
      }
    }
    if forall h :: 2 * first <= h <= 2 * last ==> Free(rs, h) {
      assert Free(rs, 2 * first);
      var i :| 0 <= i < |rs| && Covers(rs[i], 2 * first);
      if rs[i].end < last {
        NightAfter(rs, i);
      }
    }
  }

  // ----- Reading a member's ranges

  predicate Usable(e: Entry) {
    e.Dates? && e.start.Some? && e.end.Some? && e.start.value <= e.end.value
  }

  /** The usable ranges of a list of entries, in order. */
  function UsableEntries(entries: seq<Entry>): seq<Range> {
    if entries == [] then []
    else
      var rest := UsableEntries(entries[..|entries| - 1]);
      var e := entries[|entries| - 1];
      if Usable(e) then rest + [Range(e.start.value, e.end.value)] else rest
  }

  function UsableRanges(d: AvailableDates): seq<Range> {
    match d
    case NotAList => []
    case Entries(entries) => UsableEntries(entries)
  }

  /** Exactly the well-formed entries are kept; sloppy ones constrain nothing. */
  lemma {:induction false} UsableEntriesAreTheWellFormedOnes(entries: seq<Entry>, r: Range)
    ensures WellFormed(UsableEntries(entries))
    ensures r in UsableEntries(entries)
       <==> r.start <= r.end && Dates(Some(r.start), Some(r.end)) in entries
  {
    if entries != [] {
      var front, e := entries[..|entries| - 1], entries[|entries| - 1];
      UsableEntriesAreTheWellFormedOnes(front, r);
      assert entries == front + [e];
    }
  }

  method ExtractRanges(d: AvailableDates) returns (ranges: seq<Range>)
    ensures ranges == UsableRanges(d)
    ensures WellFormed(ranges)
  {
    if d.NotAList? {
      return [];
    }
    ranges := [];
    for k := 0 to |d.entries|
      invariant ranges == UsableEntries(d.entries[..k])
      invariant WellFormed(ranges)
    {
      var e := d.entries[k];
      assert d.entries[..k + 1][..k] == d.entries[..k];
      if !e.Dates? || e.start.None? || e.end.None? || e.end.value < e.start.value {
        continue;
      }
      ranges := ranges + [Range(e.start.value, e.end.value)];
    }
    assert d.entries[..|d.entries|] == d.entries;
  }

  // ----- Sorting

  predicate Before(a: Range, b: Range) {
    a.start < b.start || (a.start == b.start && a.end <= b.end)
  }

  lemma SameElementsSameTime(a: seq<Range>, b: seq<Range>)
    requires multiset(a) == multiset(b)
    ensures SameTime(a, b)
    ensures WellFormed(a) ==> WellFormed(b)
  {
    assert forall r :: r in a <==> r in multiset(a);
    assert forall r :: r in b <==> r in multiset(b);
    forall h
      ensures Free(a, h) <==> Free(b, h)
    {
      if i :| 0 <= i < |a| && Covers(a[i], h) { assert a[i] in b; }
      if i :| 0 <= i < |b| && Covers(b[i], h) { assert b[i] in a; }
    }
    if WellFormed(a) {
      forall i | 0 <= i < |b|
        ensures b[i].start <= b[i].end
      {
        assert b[i] in a;
      }
    }
  }

  // ----- Merging and intersecting

  lemma FreeAppend(rs: seq<Range>, r: Range, h: int)
    ensures Free(rs + [r], h) <==> Free(rs, h) || Covers(r, h)
  {
    if Free(rs, h) {
      var i :| 0 <= i < |rs| && Covers(rs[i], h);
      assert Covers((rs + [r])[i], h);
    }
    if Covers(r, h) {
      assert Covers((rs + [r])[|rs|], h);
    }
  }

  /** Widening the last range by one that starts inside it. */
  lemma Coalesce(front: seq<Range>, last: Range, r: Range)
    requires Canonical(front + [last]) && r.start <= r.end && last.start <= r.start <= last.end
    ensures var wider := Range(last.start, if last.end >= r.end then last.end else r.end);
            && Canonical(front + [wider])
            && forall h :: Free(front + [wider], h) <==> Free(front + [last], h) || Covers(r, h)
  {
    var wider := Range(last.start, if last.end >= r.end then last.end else r.end);
    var was, now := front + [last], front + [wider];
    forall i, j | 0 <= i < j < |now|
      ensures now[i].end < now[j].start
    {
      assert was[i].end < was[j].start;
    }
    forall i | 0 <= i < |now|
      ensures now[i].start <= now[i].end
    {
      assert was[i].start <= was[i].end;
    }
    forall h
      ensures Free(now, h) <==> Free(was, h) || Covers(r, h)
    {
      FreeAppend(front, last, h);
      FreeAppend(front, wider, h);
    }
  }

  /** Appending a range that starts after the last one ends. */
  lemma StartNew(merged: seq<Range>, r: Range)
    requires Canonical(merged) && merged != [] && r.start <= r.end
    requires merged[|merged| - 1].end < r.start
    ensures Canonical(merged + [r])
    ensures forall h :: Free(merged + [r], h) <==> Free(merged, h) || Covers(r, h)
  {
    forall i | 0 <= i < |merged|
      ensures merged[i].end < r.start
    {
      if i < |merged| - 1 { assert merged[i].end < merged[|merged| - 1].start; }
    }
    forall h
      ensures Free(merged + [r], h) <==> Free(merged, h) || Covers(r, h)
    {
      FreeAppend(merged, r, h);
    }
  }

  /** What one turn of the merging loop makes of the list so far. */
  ghost predicate Extended(merged: seq<Range>, r: Range, next: seq<Range>)
    requires merged != []
  {
    var last := merged[|merged| - 1];
    next == if r.start <= last.end
            then merged[|merged| - 1 := Range(last.start, if last.end >= r.end then last.end else r.end)]
            else merged + [r]
  }

  ghost predicate MergedSoFar(merged: seq<Range>, ordered: seq<Range>, k: nat) {
    && 1 <= k <= |ordered|
    && merged != []
    && Canonical(merged)
    && merged[|merged| - 1].start <= ordered[k - 1].start
    && SameTime(merged, ordered[..k])
  }

  lemma OneMoreMerged(merged: seq<Range>, ordered: seq<Range>, k: nat, next: seq<Range>)
    requires Sorted(ordered, Before) && WellFormed(ordered) && k < |ordered|
    requires MergedSoFar(merged, ordered, k) && Extended(merged, ordered[k], next)
    ensures MergedSoFar(next, ordered, k + 1)
  {
    var r, last := ordered[k], merged[|merged| - 1];
    assert Before(ordered[k - 1], r);
    if r.start <= last.end {
      var front := merged[..|merged| - 1];
      assert merged == front + [last];
      Coalesce(front, last, r);
      assert next == front + [Range(last.start, if last.end >= r.end then last.end else r.end)];
    } else {
      StartNew(merged, r);
    }
    assert ordered[..k + 1] == ordered[..k] + [r];
    forall h
      ensures Free(next, h) <==> Free(ordered[..k + 1], h)
    {
      FreeAppend(ordered[..k], r, h);
    }
  }

  /** Sorts and coalesces: the canonical list of the same time. */
  method Merge(ranges: seq<Range>) returns (merged: seq<Range>)
    requires WellFormed(ranges)
    ensures Canonical(merged) && SameTime(merged, ranges)
  {
    if ranges == [] {
      return [];
    }
    var ordered := SortBy(ranges, Before);
    assert ordered != [] && Sorted(ordered, Before) && WellFormed(ordered) && SameTime(ordered, ranges) by {
      SortBySorts(ranges, Before);
      SortByPermutes(ranges, Before);
      SameElementsSameTime(ranges, ordered);
    }
    merged := [ordered[0]];
    assert ordered[..1] == merged;
    var k := 1;
    while k < |ordered|
      invariant MergedSoFar(merged, ordered, k)
    {
      var r, last := ordered[k], merged[|merged| - 1];
      ghost var before := merged;
      if r.start <= last.end {
        merged := merged[|merged| - 1 := Range(last.start, if last.end >= r.end then last.end else r.end)];
      } else {
        merged := merged + [r];
      }
      OneMoreMerged(before, ordered, k, merged);
      k := k + 1;
    }
    assert ordered[..|ordered|] == ordered;
  }

  /** The canonical list of the time that is free in both. */
  method Intersect(left: seq<Range>, right: seq<Range>) returns (overlaps: seq<Range>)
    requires WellFormed(left) && WellFormed(right)
    ensures Canonical(overlaps)
    ensures forall h :: Free(overlaps, h) <==> Free(left, h) && Free(right, h)
  {
    var common: seq<Range> := [];
    for i := 0 to |left|
      invariant WellFormed(common)
      invariant forall h :: Free(common, h) <==> Free(left[..i], h) && Free(right, h)
    {
      ghost var before := common;
      for j := 0 to |right|
        invariant WellFormed(common)
        invariant forall h :: Free(common, h)
                         <==> Free(before, h) || (Covers(left[i], h) && Free(right[..j], h))
      {
        var start := if left[i].start >= right[j].start then left[i].start else right[j].start;
        var end := if left[i].end <= right[j].end then left[i].end else right[j].end;
        ghost var sofar := common;
        if start <= end {
          common := common + [Range(start, end)];
        }
        assert right[..j + 1] == right[..j] + [right[j]];
        forall h
          ensures Free(common, h)
             <==> Free(before, h) || (Covers(left[i], h) && Free(right[..j + 1], h))
        {
          assert Free(sofar, h) <==> Free(before, h) || (Covers(left[i], h) && Free(right[..j], h));
          FreeAppend(right[..j], right[j], h);
          FreeAppend(sofar, Range(start, end), h);
        }
      }
      assert right[..|right|] == right;
      assert left[..i + 1] == left[..i] + [left[i]];
      forall h
        ensures Free(common, h) <==> Free(left[..i + 1], h) && Free(right, h)
      {
        assert Free(before, h) <==> Free(left[..i], h) && Free(right, h);
        FreeAppend(left[..i], left[i], h);
      }
    }
    assert left[..|left|] == left;
    overlaps := Merge(common);
  }

  // ----- The party's overlap

  predicate SuppliesDates(d: AvailableDates) {
    UsableRanges(d) != []
  }

  /** Every member who supplied dates is free at `h`, and somebody supplied dates. */
  ghost predicate SharedBy(party: seq<AvailableDates>, h: int) {
    && (exists i :: 0 <= i < |party| && SuppliesDates(party[i]))
    && forall i :: 0 <= i < |party| && SuppliesDates(party[i]) ==> Free(UsableRanges(party[i]), h)
  }

  /** `overlap` is the canonical list of the time the date-supplying members share. */
  ghost predicate IsOverlap(party: seq<AvailableDates>, overlap: seq<Range>) {
    Canonical(overlap) && forall h :: Free(overlap, h) <==> SharedBy(party, h)
  }

  /** The non-empty range lists of the party, in order. */
  function RangeLists(party: seq<AvailableDates>): seq<seq<Range>> {
    if party == [] then []
    else
      var rest := RangeLists(party[..|party| - 1]);
      var last := party[|party| - 1];
      if SuppliesDates(last) then rest + [UsableRanges(last)] else rest
  }

  lemma {:induction false} RangeListsAreTheSuppliers(party: seq<AvailableDates>, rs: seq<Range>)
    ensures rs in RangeLists(party)
       <==> exists i :: 0 <= i < |party| && SuppliesDates(party[i]) && UsableRanges(party[i]) == rs
  {
    if party != [] {
      var front, last := party[..|party| - 1], party[|party| - 1];
      RangeListsAreTheSuppliers(front, rs);
      assert party == front + [last];
      if i :| 0 <= i < |front| && SuppliesDates(front[i]) && UsableRanges(front[i]) == rs {
        assert party[i] == front[i];
      }
      if SuppliesDates(last) && UsableRanges(last) == rs {
        assert party[|party| - 1] == last;
      }
    }
  }

  ghost predicate FreeInAll(lists: seq<seq<Range>>, h: int) {
    forall k :: 0 <= k < |lists| ==> Free(lists[k], h)
  }

  lemma SharedMeansFreeInAll(party: seq<AvailableDates>, h: int)
    ensures SharedBy(party, h) <==> RangeLists(party) != [] && FreeInAll(RangeLists(party), h)
  {
    var lists := RangeLists(party);
    forall k | 0 <= k < |lists|
      ensures exists i :: 0 <= i < |party| && SuppliesDates(party[i]) && UsableRanges(party[i]) == lists[k]
    {
      RangeListsAreTheSuppliers(party, lists[k]);
    }
    forall i | 0 <= i < |party| && SuppliesDates(party[i])
      ensures UsableRanges(party[i]) in lists
    {
      RangeListsAreTheSuppliers(party, UsableRanges(party[i]));
    }
    if lists != [] {
      var i :| 0 <= i < |party| && SuppliesDates(party[i]) && UsableRanges(party[i]) == lists[0];
      assert SuppliesDates(party[i]);
    }
  }

  /** Time shared by nobody among the first members is shared by nobody: stopping early is safe. */
  lemma EmptyStaysEmpty(lists: seq<seq<Range>>, k: nat)
    requires 0 < k <= |lists|
    requires forall h :: !FreeInAll(lists[..k], h)
    ensures forall h :: !FreeInAll(lists, h)
  {
    forall h
      ensures !FreeInAll(lists, h)
    {
      assert !FreeInAll(lists[..k], h);
      var j :| 0 <= j < k && !Free(lists[..k][j], h);
      assert lists[..k][j] == lists[j];
    }
  }

  method ComputeAvailabilityOverlap(party: seq<AvailableDates>) returns (overlap: seq<Range>)
    ensures IsOverlap(party, overlap)
  {
    var perMember: seq<seq<Range>> := [];
    for i := 0 to |party|
      invariant perMember == RangeLists(party[..i])
      invariant forall k :: 0 <= k < |perMember| ==> WellFormed(perMember[k])
    {
      assert party[..i + 1][..i] == party[..i];
      var ranges := ExtractRanges(party[i]);
      if ranges != [] {
        perMember := perMember + [ranges];
      }
    }
    assert party[..|party|] == party;
    forall h
      ensures SharedBy(party, h) <==> perMember != [] && FreeInAll(perMember, h)
    {
      SharedMeansFreeInAll(party, h);
    }
    if perMember == [] {
      return [];
    }
    overlap := Merge(perMember[0]);
    var k := 1;
    while k < |perMember|
      invariant 1 <= k <= |perMember|
      invariant Canonical(overlap)
      invariant forall h :: Free(overlap, h) <==> FreeInAll(perMember[..k], h)
    {
      ghost var before := overlap;
      overlap := Intersect(overlap, perMember[k]);
      forall h
        ensures Free(overlap, h) <==> FreeInAll(perMember[..k + 1], h)
      {
        assert Free(before, h) <==> FreeInAll(perMember[..k], h);
        FreeInOneMore(perMember, k, h);
      }
      k := k + 1;
      if overlap == [] {
        EmptyStaysEmpty(perMember, k);
        return;
      }
    }
    assert perMember[..|perMember|] == perMember;
  }

  lemma FreeInOneMore(lists: seq<seq<Range>>, k: nat, h: int)
    requires k < |lists|
    ensures FreeInAll(lists[..k + 1], h) <==> FreeInAll(lists[..k], h) && Free(lists[k], h)
  {
  }

  // ----- What the party's overlap depends on

  /** Both parties ask for the same time, in any order and any number of pieces. */
  ghost predicate SameAvailability(p: seq<AvailableDates>, q: seq<AvailableDates>) {
    && Within(p, q)
    && Within(q, p)
  }

  /** Every supplier of `p` has a supplier in `q` with the same time. */
  ghost predicate Within(p: seq<AvailableDates>, q: seq<AvailableDates>) {
    forall i {:trigger HasMatch(p[i], q)} :: 0 <= i < |p| && SuppliesDates(p[i]) ==> HasMatch(p[i], q)
  }

  ghost predicate HasMatch(d: AvailableDates, q: seq<AvailableDates>) {
    exists j :: 0 <= j < |q| && SuppliesDates(q[j]) && SameTime(UsableRanges(d), UsableRanges(q[j]))
  }

  lemma MatchIsFree(d: AvailableDates, p: seq<AvailableDates>, h: int)
    requires HasMatch(d, p) && SharedBy(p, h)
    ensures Free(UsableRanges(d), h)
  {
  }

  lemma SomebodySupplies(p: seq<AvailableDates>, q: seq<AvailableDates>)
    requires Within(p, q) && exists i :: 0 <= i < |p| && SuppliesDates(p[i])
    ensures exists j :: 0 <= j < |q| && SuppliesDates(q[j])
  {
    var i :| 0 <= i < |p| && SuppliesDates(p[i]);
    assert HasMatch(p[i], q);
  }

  lemma SharedCarriesOver(p: seq<AvailableDates>, q: seq<AvailableDates>, h: int)
    requires Within(q, p) && SharedBy(p, h)
    requires exists j :: 0 <= j < |q| && SuppliesDates(q[j])
    ensures SharedBy(q, h)
  {
    forall j | 0 <= j < |q| && SuppliesDates(q[j])
      ensures Free(UsableRanges(q[j]), h)
    {
      MatchIsFree(q[j], p, h);
    }
  }

  /** The overlap depends only on the time each supplier asks for. */
  lemma OverlapDependsOnTimeOnly(p: seq<AvailableDates>, q: seq<AvailableDates>, a: seq<Range>, b: seq<Range>)
    requires SameAvailability(p, q) && IsOverlap(p, a) && IsOverlap(q, b)
    ensures a == b
  {
    forall h
      ensures Free(a, h) <==> Free(b, h)
    {
      if SharedBy(p, h) { SomebodySupplies(p, q); SharedCarriesOver(p, q, h); }
      if SharedBy(q, h) { SomebodySupplies(q, p); SharedCarriesOver(q, p, h); }
    }
    CanonicalUnique(a, b);
  }

  /** The order of the members does not matter. */
  lemma MemberOrderIrrelevant(p: seq<AvailableDates>, q: seq<AvailableDates>, a: seq<Range>, b: seq<Range>)
    requires multiset(p) == multiset(q) && IsOverlap(p, a) && IsOverlap(q, b)
    ensures a == b
  {
    PermutedWithin(p, q);
    PermutedWithin(q, p);
    OverlapDependsOnTimeOnly(p, q, a, b);
  }

  lemma PermutedWithin(p: seq<AvailableDates>, q: seq<AvailableDates>)
    requires multiset(p) == multiset(q)
    ensures Within(p, q)
  {
    forall i | 0 <= i < |p| && SuppliesDates(p[i])
      ensures HasMatch(p[i], q)
    {
      assert p[i] in multiset(p);
      assert p[i] in q;
    }
  }

  /** One member may restate the same time: reordered, split where pieces touch, or merged. */
  lemma RestatingOneMemberIrrelevant(
      p: seq<AvailableDates>, m: nat, d: AvailableDates, a: seq<Range>, b: seq<Range>)
    requires m < |p| && SameTime(UsableRanges(p[m]), UsableRanges(d))
    requires WellFormed(UsableRanges(p[m])) && WellFormed(UsableRanges(d))
    requires IsOverlap(p, a) && IsOverlap(p[m := d], b)
    ensures a == b
  {
    var q := p[m := d];
    SameTimeSameSupply(UsableRanges(p[m]), UsableRanges(d));
    forall i | 0 <= i < |p| && SuppliesDates(p[i])
      ensures HasMatch(p[i], q)
    {
      assert q[i] == if i == m then d else p[i];
      assert SuppliesDates(q[i]) && SameTime(UsableRanges(p[i]), UsableRanges(q[i]));
    }
    forall i | 0 <= i < |q| && SuppliesDates(q[i])
      ensures HasMatch(q[i], p)
    {
      assert q[i] == if i == m then d else p[i];
      assert SuppliesDates(p[i]) && SameTime(UsableRanges(q[i]), UsableRanges(p[i]));
    }
    OverlapDependsOnTimeOnly(p, q, a, b);
  }

  lemma SameTimeSameSupply(a: seq<Range>, b: seq<Range>)
    requires WellFormed(a) && WellFormed(b) && SameTime(a, b)
    ensures a == [] <==> b == []
  {
    if a != [] {
      assert Covers(a[0], 2 * a[0].start);
      assert Free(a, 2 * a[0].start);
      assert Free(b, 2 * a[0].start);
    }
    if b != [] {
      assert Covers(b[0], 2 * b[0].start);
      assert Free(b, 2 * b[0].start);
      assert Free(a, 2 * b[0].start);
    }
  }

  /** Cutting a range at a day both pieces keep is the same time; at consecutive days it is not. */
  lemma WhereARangeMayBeCut(pre: seq<Range>, post: seq<Range>, start: int, end: int, left: int, right: int)
    requires start <= left <= end && start <= right <= end
    ensures left == right ==> SameTime(
      pre + [Range(start, end)] + post, pre + [Range(start, left), Range(right, end)] + post)
    ensures right == left + 1 ==> !SameTime(
      [Range(start, end)], [Range(start, left), Range(right, end)])
  {
    var whole, pieces := [Range(start, end)], [Range(start, left), Range(right, end)];
    if left == right {
      forall h
        ensures Free(pre + whole + post, h) <==> Free(pre + pieces + post, h)
      {
        FreeConcat(pre + whole, post, h);
        FreeConcat(pre + pieces, post, h);
        FreeConcat(pre, whole, h);
        FreeConcat(pre, pieces, h);
        assert Free(whole, h) <==> Covers(whole[0], h);
        assert Free(pieces, h) <==> Covers(pieces[0], h) || Covers(pieces[1], h);
      }
    }
    if right == left + 1 {
      assert Covers(whole[0], 2 * left + 1);
      assert Free(whole, 2 * left + 1) && !Free(pieces, 2 * left + 1);
    }
  }

  lemma FreeConcat(a: seq<Range>, b: seq<Range>, h: int)
    ensures Free(a + b, h) <==> Free(a, h) || Free(b, h)
  {
    if i :| 0 <= i < |a| && Covers(a[i], h) { assert Covers((a + b)[i], h); }
    if i :| 0 <= i < |b| && Covers(b[i], h) { assert Covers((a + b)[|a| + i], h); }
    if i :| 0 <= i < |a + b| && Covers((a + b)[i], h) {
      if i < |a| { assert Covers(a[i], h); } else { assert Covers(b[i - |a|], h); }
    }
  }
}

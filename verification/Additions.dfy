/** Which drafted activities are accepted (`draft_activity_additions` in
    backend/app/agents/nodes/negotiation.py): all of a row's drafts, or none of them. */
module Additions {
  import opened Wrappers
  import opened Itineraries
  import opened Conflicts
  import opened Regeneration
  import opened RegenerationFacts
  import opened Refinement

  /** One drafted activity, its texts already clipped: empty where there was no real value.
      `breaksConstraint` is the hard-constraint check on those texts. */
  datatype Draft = Draft(
    feedbackId: string, anchor: string, placement: Placement, minutes: nat,
    title: string, description: string, location: Option<string>, breaksConstraint: bool)

  /** Names a row's drafts: the day, the feedback id and the draft's index give the item id. */
  type Naming = (int, string, nat) -> string

  /** Different drafts get different, non-empty ids. */
  ghost predicate NamesApart(naming: Naming) {
    && (forall d, f, i :: naming(d, f, i) != "")
    && forall d, e, f, g, i, j :: naming(d, f, i) == naming(e, g, j) ==> f == g && i == j
  }

  // ----- Which rows may have drafts

  predicate Requested(base: Itinerary, w: Winners, t: Target) {
    && t in w.row && w.row[t].outcome == Add
    && HasDay(base, t.day) && |ItemsOf(base, t.day)| < MAX_ITEMS_PER_DAY
  }

  method Requests(base: Itinerary, w: Winners) returns (requests: map<string, Target>)
    requires WellAimed(base, w)
    ensures forall id :: id in requests ==> Requested(base, w, requests[id]) && w.row[requests[id]].id == id
    ensures forall t :: Requested(base, w, t) ==> w.row[t].id in requests && requests[w.row[t].id] == t
  {
    requests := map[];
    for k := 0 to |w.order|
      invariant forall id :: id in requests ==> Requested(base, w, requests[id]) && w.row[requests[id]].id == id
      invariant forall t :: Requested(base, w, t) && t in w.order[..k] ==> w.row[t].id in requests
    {
      var t := w.order[k];
      if w.row[t].outcome == Add && |ItemsOf(base, t.day)| < MAX_ITEMS_PER_DAY {
        requests := requests[w.row[t].id := t];
      }
      assert w.order[..k + 1] == w.order[..k] + [t];
    }
    assert w.order[..|w.order|] == w.order;
  }

  function EntriesFor(batch: seq<Draft>, id: string): seq<Draft> {
    if batch == [] then []
    else
      var rest, last := EntriesFor(batch[..|batch| - 1], id), batch[|batch| - 1];
      if last.feedbackId == id then rest + [last] else rest
  }

  lemma EntriesForOneMore(a: seq<Draft>, e: Draft, id: string)
    ensures EntriesFor(a + [e], id) == EntriesFor(a, id) + if e.feedbackId == id then [e] else []
  {
    assert (a + [e])[..|a|] == a;
  }

  /** A row gets the drafts that name it, all of them, in the order of the batch. */
  lemma {:induction false} EntriesForSplits(a: seq<Draft>, b: seq<Draft>, id: string)
    ensures EntriesFor(a + b, id) == EntriesFor(a, id) + EntriesFor(b, id)
  {
    if b == [] {
      assert a + b == a;
    } else {
      var front, last := b[..|b| - 1], b[|b| - 1];
      var one := if last.feedbackId == id then [last] else [];
      calc {
        EntriesFor(a + b, id);
        { assert a + b == (a + front) + [last]; }
        EntriesFor((a + front) + [last], id);
        { EntriesForOneMore(a + front, last, id); }
        EntriesFor(a + front, id) + one;
        { EntriesForSplits(a, front, id); }
        EntriesFor(a, id) + EntriesFor(front, id) + one;
        EntriesFor(a, id) + (EntriesFor(front, id) + one);
        { EntriesForOneMore(front, last, id); assert b == front + [last]; }
        EntriesFor(a, id) + EntriesFor(b, id);
      }
    }
  }

  method GroupEntries(batch: seq<Draft>, requests: map<string, Target>)
    returns (order: seq<string>, grouped: map<string, seq<Draft>>)
    ensures forall id :: id in order <==> id in grouped
    ensures forall i, j :: 0 <= i < j < |order| ==> order[i] != order[j]
    ensures forall id :: id in grouped <==> id in requests && EntriesFor(batch, id) != []
    ensures forall id :: id in grouped ==> grouped[id] == EntriesFor(batch, id)
  {
    order, grouped := [], map[];
    for k := 0 to |batch|
      invariant forall id :: id in order <==> id in grouped
      invariant forall i, j :: 0 <= i < j < |order| ==> order[i] != order[j]
      invariant forall id :: id in grouped <==> id in requests && EntriesFor(batch[..k], id) != []
      invariant forall id :: id in grouped ==> grouped[id] == EntriesFor(batch[..k], id)
    {
      var entry := batch[k];
      assert batch[..k + 1][..k] == batch[..k];
      if entry.feedbackId in requests {
        if entry.feedbackId in grouped {
          grouped := grouped[entry.feedbackId := grouped[entry.feedbackId] + [entry]];
        } else {
          order := order + [entry.feedbackId];
          grouped := grouped[entry.feedbackId := [entry]];
        }
      }
    }
    assert batch[..|batch|] == batch;
  }

  // ----- Whether one row's drafts are acceptable

  /** Position at which a new item lands: right before or right after its anchor. */
  function Gap(anchorIndex: nat, placement: Placement): nat {
    if placement == BeforeAnchor then anchorIndex else anchorIndex + 1
  }

  /** The time lies strictly between the clock times around the gap, where those are known. */
  predicate FitsGap(items: seq<Item>, gap: nat, minutes: nat)
    requires gap <= |items|
  {
    && (gap > 0 ==>
          var before := items[gap - 1].time;
          before.Some? && before.value.Clock? ==> before.value.minutes < minutes)
    && (gap < |items| ==>
          var after := items[gap].time;
          after.Some? && after.value.Clock? ==> minutes < after.value.minutes)
  }

  predicate Acceptable(
      existing: set<string>, naming: Naming, items: seq<Item>, t: Target, row: Feedback, entry: Draft, index: nat)
  {
    var at := IndexOf(items, entry.anchor);
    && at.Some?
    && (t.itemId.Some? ==> entry.anchor == t.itemId.value)
    && (|row.directions| == 1 ==> entry.placement in row.directions)
    && FitsGap(items, Gap(at.value, entry.placement), entry.minutes)
    && entry.title != "" && entry.description != ""
    && !entry.breaksConstraint
    && naming(t.day, row.id, index) !in existing
  }

  function Prepare(naming: Naming, t: Target, row: Feedback, entry: Draft, index: nat): Addition {
    Addition(entry.anchor, entry.placement,
             Item(naming(t.day, row.id, index), entry.title, Some(Clock(entry.minutes)), Some(entry.description),
                  entry.location, None, [], None))
  }

  function PrepareAll(naming: Naming, t: Target, row: Feedback, entries: seq<Draft>): (p: seq<Addition>)
    ensures |p| == |entries|
    ensures forall k :: 0 <= k < |entries| ==> p[k] == Prepare(naming, t, row, entries[k], k)
  {
    seq(|entries|, k requires 0 <= k < |entries| => Prepare(naming, t, row, entries[k], k))
  }

  /** As many drafts as asked for, room for all of them, and each one acceptable. */
  predicate AllAcceptable(
      existing: set<string>, naming: Naming, items: seq<Item>, t: Target, row: Feedback, entries: seq<Draft>)
  {
    && entries != [] && |entries| == row.additionCount
    && |items| + |entries| <= MAX_ITEMS_PER_DAY
    && forall k :: 0 <= k < |entries| ==> Acceptable(existing, naming, items, t, row, entries[k], k)
  }

  method PrepareRow(
      existing: set<string>, naming: Naming, items: seq<Item>, t: Target, row: Feedback, entries: seq<Draft>)
    returns (prepared: Option<seq<Addition>>)
    requires entries != []
    ensures prepared == if AllAcceptable(existing, naming, items, t, row, entries)
                        then Some(PrepareAll(naming, t, row, entries)) else None
  {
    if |entries| != row.additionCount || |items| + |entries| > MAX_ITEMS_PER_DAY {
      return None;
    }
    var done: seq<Addition> := [];
    for index := 0 to |entries|
      invariant forall k :: 0 <= k < index ==> Acceptable(existing, naming, items, t, row, entries[k], k)
      invariant |done| == index
      invariant forall k :: 0 <= k < index ==> done[k] == Prepare(naming, t, row, entries[k], k)
    {
      var entry := entries[index];
      var at := IndexOf(items, entry.anchor);
      if at.None? || (t.itemId.Some? && entry.anchor != t.itemId.value) {
        return None;
      }
      if |row.directions| == 1 && entry.placement !in row.directions {
        return None;
      }
      if !FitsGap(items, Gap(at.value, entry.placement), entry.minutes) {
        return None;
      }
      if entry.title == "" || entry.description == "" || entry.breaksConstraint {
        return None;
      }
      if naming(t.day, row.id, index) in existing {
        return None;
      }
      done := done + [Prepare(naming, t, row, entry, index)];
    }
    assert done == PrepareAll(naming, t, row, entries);
    return Some(done);
  }

  // ----- All rows

  function ExistingIds(base: Itinerary): set<string> {
    set n, k | 0 <= n < |base.days| && 0 <= k < |base.days[n].items| :: base.days[n].items[k].id
  }

  ghost predicate AcceptedFor(
      base: Itinerary, w: Winners, batch: seq<Draft>, naming: Naming, t: Target)
  {
    && Requested(base, w, t)
    && AllAcceptable(ExistingIds(base), naming, ItemsOf(base, t.day), t, w.row[t], EntriesFor(batch, w.row[t].id))
  }

  /** Exactly the acceptable rows have drafts, and each has all of them. */
  ghost predicate IsAccepted(
      base: Itinerary, w: Winners, batch: seq<Draft>, naming: Naming, accepted: Additions)
  {
    && (forall t :: t in w.row && AcceptedFor(base, w, batch, naming, t) ==> w.row[t].id in accepted)
    && forall id :: id in accepted ==>
         exists t :: && AcceptedFor(base, w, batch, naming, t) && w.row[t].id == id
                     && accepted[id] == PrepareAll(naming, t, w.row[t], EntriesFor(batch, id))
  }

  ghost function RowDrafts(
      base: Itinerary, w: Winners, batch: seq<Draft>, naming: Naming, t: Target): Option<seq<Addition>>
    requires t in w.row
  {
    if AcceptedFor(base, w, batch, naming, t)
    then Some(PrepareAll(naming, t, w.row[t], EntriesFor(batch, w.row[t].id))) else None
  }

  method DecideRow(
      base: Itinerary, w: Winners, ghost batch: seq<Draft>, naming: Naming, existing: set<string>,
      t: Target, entries: seq<Draft>)
    returns (prepared: Option<seq<Addition>>)
    requires Requested(base, w, t) && existing == ExistingIds(base)
    requires entries == EntriesFor(batch, w.row[t].id) && entries != []
    ensures prepared == RowDrafts(base, w, batch, naming, t)
  {
    prepared := PrepareRow(existing, naming, ItemsOf(base, t.day), t, w.row[t], entries);
  }

  /** The requested rows among `ids` that are decided: accepted with all their drafts, or left out. */
  ghost predicate Decided(
      base: Itinerary, w: Winners, batch: seq<Draft>, naming: Naming, requests: map<string, Target>,
      ids: seq<string>, accepted: Additions)
  {
    && (forall id :: id in accepted ==> id in ids)
    && forall id :: id in ids && id in requests ==> DecidedRow(base, w, batch, naming, requests[id], id, accepted)
  }

  ghost predicate DecidedRow(
      base: Itinerary, w: Winners, batch: seq<Draft>, naming: Naming, t: Target, id: string, accepted: Additions)
  {
    && Requested(base, w, t)
    && w.row[t].id == id
    && (id in accepted <==> AcceptedFor(base, w, batch, naming, t))
    && (id in accepted ==> accepted[id] == PrepareAll(naming, t, w.row[t], EntriesFor(batch, id)))
  }

  lemma OneMoreDecided(
      base: Itinerary, w: Winners, batch: seq<Draft>, naming: Naming, requests: map<string, Target>,
      ids: seq<string>, accepted: Additions, id: string, prepared: Option<seq<Addition>>)
    requires Decided(base, w, batch, naming, requests, ids, accepted) && id !in ids && id in requests
    requires Requested(base, w, requests[id]) && w.row[requests[id]].id == id
    requires prepared == RowDrafts(base, w, batch, naming, requests[id])
    ensures Decided(base, w, batch, naming, requests, ids + [id],
                    if prepared.Some? then accepted[id := prepared.value] else accepted)
  {
  }

  lemma AllDecided(
      base: Itinerary, w: Winners, batch: seq<Draft>, naming: Naming, requests: map<string, Target>,
      ids: seq<string>, accepted: Additions)
    requires forall t :: Requested(base, w, t) ==> w.row[t].id in requests && requests[w.row[t].id] == t
    requires forall id :: id in ids <==> id in requests && EntriesFor(batch, id) != []
    requires Decided(base, w, batch, naming, requests, ids, accepted)
    ensures IsAccepted(base, w, batch, naming, accepted)
  {
  }

  method AcceptDrafts(base: Itinerary, w: Winners, batch: seq<Draft>, naming: Naming) returns (accepted: Additions)
    requires WellAimed(base, w)
    ensures IsAccepted(base, w, batch, naming, accepted)
  {
    var requests := Requests(base, w);
    accepted := map[];
    if requests == map[] {
      AllDecided(base, w, batch, naming, requests, [], accepted);
      return;
    }
    var order, grouped := GroupEntries(batch, requests);
    var existing := ExistingIds(base);
    for k := 0 to |order|
      invariant Decided(base, w, batch, naming, requests, order[..k], accepted)
    {
      var fid := order[k];
      assert order[..k + 1] == order[..k] + [fid];
      var prepared := DecideRow(base, w, batch, naming, existing, requests[fid], grouped[fid]);
      OneMoreDecided(base, w, batch, naming, requests, order[..k], accepted, fid, prepared);
      if prepared.Some? {
        accepted := accepted[fid := prepared.value];
      }
    }
    assert order[..|order|] == order;
    AllDecided(base, w, batch, naming, requests, order, accepted);
  }

  // ----- What acceptance guarantees

  lemma NewIdOf(naming: Naming, t: Target, row: Feedback, entries: seq<Draft>, x: string) returns (k: nat)
    requires x in NewIds(PrepareAll(naming, t, row, entries))
    ensures k < |entries| && x == naming(t.day, row.id, k)
  {
    var p := PrepareAll(naming, t, row, entries);
    var ids := NewIds(p);
    k :| k < |ids| && ids[k] == x;
    assert ids[k] == AdditionId(p[k]);
  }

  lemma NewIdsAreDifferent(naming: Naming, t: Target, row: Feedback, entries: seq<Draft>, x: string)
    requires NamesApart(naming)
    ensures multiset(NewIds(PrepareAll(naming, t, row, entries)))[x] <= 1
  {
    var p := PrepareAll(naming, t, row, entries);
    var ids := NewIds(p);
    if x in ids {
      var i :| 0 <= i < |ids| && ids[i] == x;
      forall j | 0 <= j < |ids| && j != i
        ensures ids[j] != ids[i]
      {
        assert ids[j] == AdditionId(p[j]) && ids[i] == AdditionId(p[i]);
      }
      OnceInMultiset(ids, i);
    } else {
      assert x !in multiset(ids);
    }
  }

  lemma AcceptedIdsAreNew(
      base: Itinerary, w: Winners, batch: seq<Draft>, naming: Naming, accepted: Additions,
      id: string, x: string, n: nat)
    requires IsAccepted(base, w, batch, naming, accepted)
    requires id in accepted && x in NewIds(accepted[id]) && n < |base.days|
    ensures x !in Ids(base.days[n].items)
  {
    var t :| && AcceptedFor(base, w, batch, naming, t) && w.row[t].id == id
             && accepted[id] == PrepareAll(naming, t, w.row[t], EntriesFor(batch, id));
    var entries := EntriesFor(batch, id);
    var k := NewIdOf(naming, t, w.row[t], entries, x);
    assert Acceptable(ExistingIds(base), naming, ItemsOf(base, t.day), t, w.row[t], entries[k], k);
    IdsHas(base.days[n].items, x);
  }

  /** Whatever the model answers, what is accepted is fit for rebuilding the plan. */
  lemma AcceptedDraftsAreFresh(base: Itinerary, w: Winners, batch: seq<Draft>, naming: Naming, accepted: Additions)
    requires NamesApart(naming) && IsAccepted(base, w, batch, naming, accepted)
    ensures FreshAdditions(base, accepted)
  {
    forall id | id in accepted
      ensures forall k :: 0 <= k < |accepted[id]| ==> ValidItem(accepted[id][k].item)
      ensures forall x :: multiset(NewIds(accepted[id]))[x] <= 1
    {
      var t :| && AcceptedFor(base, w, batch, naming, t) && w.row[t].id == id
               && accepted[id] == PrepareAll(naming, t, w.row[t], EntriesFor(batch, id));
      forall x ensures multiset(NewIds(accepted[id]))[x] <= 1 {
        NewIdsAreDifferent(naming, t, w.row[t], EntriesFor(batch, id), x);
      }
    }
    forall id, other, x |
      id in accepted && other in accepted && x in NewIds(accepted[id]) && x in NewIds(accepted[other])
      ensures id == other
    {
      var t :| && AcceptedFor(base, w, batch, naming, t) && w.row[t].id == id
               && accepted[id] == PrepareAll(naming, t, w.row[t], EntriesFor(batch, id));
      var u :| && AcceptedFor(base, w, batch, naming, u) && w.row[u].id == other
               && accepted[other] == PrepareAll(naming, u, w.row[u], EntriesFor(batch, other));
      var i := NewIdOf(naming, t, w.row[t], EntriesFor(batch, id), x);
      var j := NewIdOf(naming, u, w.row[u], EntriesFor(batch, other), x);
    }
    forall n | 0 <= n < |base.days|
      ensures NoNewIds(accepted, base.days[n].items)
    {
      forall id, x | id in accepted && x in NewIds(accepted[id])
        ensures x !in Ids(base.days[n].items)
      {
        AcceptedIdsAreNew(base, w, batch, naming, accepted, id, x, n);
      }
    }
  }

  /** An accepted row's drafts fit its day as it stood; only other feedback can keep them out. */
  lemma AcceptedDraftsFitTheirDay(
      base: Itinerary, w: Winners, batch: seq<Draft>, naming: Naming, accepted: Additions, t: Target)
    requires WellAimed(base, w) && IsAccepted(base, w, batch, naming, accepted)
    requires t in w.row && w.row[t].id in accepted
    ensures Requested(base, w, t) && |accepted[w.row[t].id]| == w.row[t].additionCount
    ensures CanInsert(ItemsOf(base, t.day), accepted[w.row[t].id])
    ensures t.itemId.Some? ==>
      forall k :: 0 <= k < |accepted[w.row[t].id]| ==> accepted[w.row[t].id][k].anchor == t.itemId.value
  {
    var id := w.row[t].id;
    var u :| && AcceptedFor(base, w, batch, naming, u) && w.row[u].id == id
             && accepted[id] == PrepareAll(naming, u, w.row[u], EntriesFor(batch, id));
    assert u == t;
    var items, entries := ItemsOf(base, t.day), EntriesFor(batch, id);
    forall k | 0 <= k < |accepted[id]|
      ensures accepted[id][k].anchor in Ids(items)
      ensures t.itemId.Some? ==> accepted[id][k].anchor == t.itemId.value
    {
      assert Acceptable(ExistingIds(base), naming, items, t, w.row[t], entries[k], k);
      IdsHas(items, entries[k].anchor);
    }
  }
}

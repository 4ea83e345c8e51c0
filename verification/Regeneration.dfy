/** Rebuilding only the affected days of a plan (`regenerate_affected_only` in
    backend/app/agents/nodes/negotiation.py).

    This module says what is computed; `RegenerationFacts` says what that guarantees. */
module Regeneration {
  import opened Wrappers
  import opened Sorting
  import opened Itineraries
  import opened Conflicts
  import Text

  /** A drafted rewrite of one item: it has no id of its own. */
  datatype Revision = Revision(
    title: string, time: Option<Time>, description: Option<string>, location: Option<string>)

  /** A drafted new item and where it goes. */
  datatype Addition = Addition(anchor: string, placement: Placement, item: Item)

  type Revisions = map<string, Revision>

  /** Drafted additions by feedback id. */
  type Additions = map<string, seq<Addition>>

  // ----- One item

  function Revise(item: Item, r: Revision): Item {
    item.(title := r.title, time := r.time, description := r.description, location := r.location,
          locationId := if r.location != item.location then None else item.locationId)
  }

  function Annotate(item: Item, note: string): Item {
    item.(description := Some(Text.Strip(
      Text.Strip(item.description.GetOr("")) + " (Updated per feedback: " + note + ")")))
  }

  /** The item after one winning outcome; `None` drops it. */
  function ApplyOutcome(item: Item, outcome: Outcome, comment: string, revision: Option<Revision>): Option<Item> {
    if outcome == Remove then None
    else if outcome == Retain then Some(item)
    else if revision.Some? then Some(Revise(item, revision.value))
    else if Text.Strip(comment) == "" then Some(item)
    else Some(Annotate(item, Text.Strip(comment)))
  }

  /** What becomes of an item: left alone, or settled by a feedback row. */
  datatype Fate = LeftAlone | Settled(row: string, becomes: Option<Item>)

  function FateOf(w: Winners, revisions: Revisions, day: int, item: Item): Fate {
    var own, whole := Target(day, Some(item.id)), Target(day, None);
    if own !in w.row && whole !in w.row then LeftAlone
    else
      var row := if own in w.row then w.row[own] else w.row[whole];
      if row.outcome == Add || row.outcome == Unresolved then LeftAlone
      else if row.outcome == Remove && own !in w.row then LeftAlone
      else
        var revision := if item.id in revisions then Some(revisions[item.id]) else None;
        Settled(row.id, ApplyOutcome(item, row.outcome, row.comment, revision))
  }

  // ----- One day: edits and removals

  function Fates(w: Winners, revisions: Revisions, day: int): Item -> Fate {
    (item: Item) => FateOf(w, revisions, day, item)
  }

  function Edited(fate: Item -> Fate, items: seq<Item>): seq<Item> {
    if items == [] then []
    else
      var rest, last := Edited(fate, items[..|items| - 1]), items[|items| - 1];
      match fate(last)
      case LeftAlone => rest + [last]
      case Settled(_, None) => rest
      case Settled(_, Some(item)) => rest + [item]
  }

  /** The rows that settled an item of this day. */
  function SettlingRows(fate: Item -> Fate, items: seq<Item>): seq<string> {
    if items == [] then []
    else
      var rest := SettlingRows(fate, items[..|items| - 1]);
      match fate(items[|items| - 1])
      case LeftAlone => rest
      case Settled(row, _) => rest + [row]
  }

  method EditDay(w: Winners, revisions: Revisions, day: int, items: seq<Item>)
    returns (newItems: seq<Item>, addressed: seq<string>)
    ensures newItems == Edited(Fates(w, revisions, day), items)
    ensures addressed == SettlingRows(Fates(w, revisions, day), items)
  {
    newItems, addressed := [], [];
    for k := 0 to |items|
      invariant newItems == Edited(Fates(w, revisions, day), items[..k])
      invariant addressed == SettlingRows(Fates(w, revisions, day), items[..k])
    {
      var item := items[k];
      assert items[..k + 1][..k] == items[..k];
      var own, whole := Target(day, Some(item.id)), Target(day, None);
      if own !in w.row && whole !in w.row {
        newItems := newItems + [item];
        continue;
      }
      var row := if own in w.row then w.row[own] else w.row[whole];
      if row.outcome == Add || row.outcome == Unresolved {
        newItems := newItems + [item];
        continue;
      }
      if row.outcome == Remove && own !in w.row {
        newItems := newItems + [item];
        continue;
      }
      var revision := if item.id in revisions then Some(revisions[item.id]) else None;
      var updated := ApplyOutcome(item, row.outcome, row.comment, revision);
      if updated.Some? {
        newItems := newItems + [updated.value];
      }
      addressed := addressed + [row.id];
    }
    assert items[..|items|] == items;
  }

  // ----- One day: insertions

  function MinutesOf(a: Addition): nat {
    if a.item.time.Some? && a.item.time.value.Clock? then a.item.time.value.minutes else 0
  }

  predicate NotLater(a: Addition, b: Addition) {
    MinutesOf(a) <= MinutesOf(b)
  }

  /** The new items that go on one side of an anchor, in the order drafted. */
  function At(drafted: seq<Addition>, anchor: string, side: Placement): seq<Item> {
    if drafted == [] then []
    else
      var rest, last := At(drafted[..|drafted| - 1], anchor, side), drafted[|drafted| - 1];
      if last.anchor == anchor && last.placement == side then rest + [last.item] else rest
  }

  /** The day's items with the drafted ones around their anchors. */
  function Around(items: seq<Item>, drafted: seq<Addition>): seq<Item> {
    if items == [] then []
    else
      var last := items[|items| - 1];
      Around(items[..|items| - 1], drafted)
      + At(drafted, last.id, BeforeAnchor) + [last] + At(drafted, last.id, AfterAnchor)
  }

  /** The row's additions go in: they exist, they fit, and every anchor is still there. */
  predicate CanInsert(items: seq<Item>, drafted: seq<Addition>) {
    && drafted != []
    && |items| + |drafted| <= MAX_ITEMS_PER_DAY
    && forall k :: 0 <= k < |drafted| ==> drafted[k].anchor in Ids(items)
  }

  function Drafted(additions: Additions, id: string): seq<Addition> {
    if id in additions then additions[id] else []
  }

  predicate Inserts(w: Winners, additions: Additions, day: int, t: Target, items: seq<Item>)
    requires t in w.row
  {
    t.day == day && w.row[t].outcome == Add && CanInsert(items, Drafted(additions, w.row[t].id))
  }

  /** The items and the inserted rows after the targets of `order` have had their turn. */
  function WithAdditions(w: Winners, order: seq<Target>, additions: Additions, day: int, items: seq<Item>)
    : (seq<Item>, seq<string>)
    requires forall t :: t in order ==> t in w.row
  {
    if order == [] then (items, [])
    else
      var (sofar, ids) := WithAdditions(w, order[..|order| - 1], additions, day, items);
      var t := order[|order| - 1];
      if Inserts(w, additions, day, t, sofar) then
        (Around(sofar, SortBy(Drafted(additions, w.row[t].id), NotLater)), ids + [w.row[t].id])
      else (sofar, ids)
  }

  method CollectAt(drafted: seq<Addition>, anchor: string, side: Placement) returns (items: seq<Item>)
    ensures items == At(drafted, anchor, side)
  {
    items := [];
    for k := 0 to |drafted|
      invariant items == At(drafted[..k], anchor, side)
    {
      assert drafted[..k + 1][..k] == drafted[..k];
      if drafted[k].anchor == anchor && drafted[k].placement == side {
        items := items + [drafted[k].item];
      }
    }
    assert drafted[..|drafted|] == drafted;
  }

  method Expand(items: seq<Item>, ordered: seq<Addition>) returns (expanded: seq<Item>)
    ensures expanded == Around(items, ordered)
  {
    expanded := [];
    for j := 0 to |items|
      invariant expanded == Around(items[..j], ordered)
    {
      assert items[..j + 1][..j] == items[..j];
      var left := CollectAt(ordered, items[j].id, BeforeAnchor);
      var right := CollectAt(ordered, items[j].id, AfterAnchor);
      expanded := expanded + left + [items[j]] + right;
    }
    assert items[..|items|] == items;
  }

  method InsertAdditions(w: Winners, additions: Additions, day: int, items: seq<Item>)
    returns (newItems: seq<Item>, addressed: seq<string>)
    requires forall t :: t in w.order ==> t in w.row
    ensures (newItems, addressed) == WithAdditions(w, w.order, additions, day, items)
  {
    newItems, addressed := items, [];
    for k := 0 to |w.order|
      invariant (newItems, addressed) == WithAdditions(w, w.order[..k], additions, day, items)
    {
      var t := w.order[k];
      assert w.order[..k + 1][..k] == w.order[..k];
      if t.day != day || w.row[t].outcome != Add {
        continue;
      }
      var inserted := Drafted(additions, w.row[t].id);
      var anchors := Ids(newItems);
      if inserted == [] || |newItems| + |inserted| > MAX_ITEMS_PER_DAY {
        continue;
      }
      if exists j :: 0 <= j < |inserted| && inserted[j].anchor !in anchors {
        continue;
      }
      newItems := Expand(newItems, SortBy(inserted, NotLater));
      addressed := addressed + [w.row[t].id];
    }
    assert w.order[..|w.order|] == w.order;
  }

  // ----- The whole plan

  /** A day's new items and the rows honoured in it, before the empty-day rule. */
  function Rebuilt(w: Winners, revisions: Revisions, additions: Additions, d: Day): (seq<Item>, seq<string>)
    requires forall t :: t in w.order ==> t in w.row
  {
    var (items, inserted) := WithAdditions(w, w.order, additions, d.day, Edited(Fates(w, revisions, d.day), d.items));
    (items, SettlingRows(Fates(w, revisions, d.day), d.items) + inserted)
  }

  /** A day outside the scope, or one that would end up empty, is the old day. */
  function NewDay(w: Winners, scope: Scope, revisions: Revisions, additions: Additions, d: Day): (Day, seq<string>)
    requires forall t :: t in w.order ==> t in w.row
  {
    var (items, addressed) := Rebuilt(w, revisions, additions, d);
    if d.day !in AffectedDays(scope) || items == [] then (d, []) else (d.(items := items), addressed)
  }

  function NewDays(w: Winners, scope: Scope, revisions: Revisions, additions: Additions, days: seq<Day>)
    : (seq<Day>, seq<string>)
    requires forall t :: t in w.order ==> t in w.row
  {
    if days == [] then ([], [])
    else
      var (rest, ids) := NewDays(w, scope, revisions, additions, days[..|days| - 1]);
      var (day, more) := NewDay(w, scope, revisions, additions, days[|days| - 1]);
      (rest + [day], ids + more)
  }

  /** First occurrences only. */
  function Once(ids: seq<string>): seq<string> {
    if ids == [] then []
    else
      var rest, last := Once(ids[..|ids| - 1]), ids[|ids| - 1];
      if last in rest then rest else rest + [last]
  }

  /** One affected day; a day that would end up empty stays as it was, and settles nothing. */
  method RebuildDay(w: Winners, scope: Scope, revisions: Revisions, additions: Additions, day: Day)
    returns (newDay: Day, addressed: seq<string>)
    requires forall t :: t in w.order ==> t in w.row
    requires day.day in AffectedDays(scope)
    ensures (newDay, addressed) == NewDay(w, scope, revisions, additions, day)
  {
    var edited, settled := EditDay(w, revisions, day.day, day.items);
    var newItems, inserted := InsertAdditions(w, additions, day.day, edited);
    if newItems == [] {
      return day, [];
    }
    return day.(items := newItems), settled + inserted;
  }

  /** The days of the new plan and the rows honoured in them. */
  method RebuildDays(days: seq<Day>, w: Winners, scope: Scope, revisions: Revisions, additions: Additions)
    returns (newDays: seq<Day>, addressedIds: seq<string>)
    requires forall t :: t in w.order ==> t in w.row
    ensures (newDays, addressedIds) == NewDays(w, scope, revisions, additions, days)
  {
    var inScopeDays := AffectedDays(scope);
    newDays, addressedIds := [], [];
    for n := 0 to |days|
      invariant (newDays, addressedIds) == NewDays(w, scope, revisions, additions, days[..n])
    {
      var day := days[n];
      assert days[..n + 1][..n] == days[..n];
      if day.day !in inScopeDays {
        newDays := newDays + [day];
        assert NewDay(w, scope, revisions, additions, day) == (day, []);
        assert addressedIds + [] == addressedIds;
        continue;
      }
      var newDay, dayAddressed := RebuildDay(w, scope, revisions, additions, day);
      addressedIds := addressedIds + dayAddressed;
      newDays := newDays + [newDay];
    }
    assert days[..|days|] == days;
  }

  method RegenerateAffectedOnly(
      base: Itinerary, scope: Scope, reqs: seq<Request>, report: seq<Conflict>,
      revisions: Revisions, additions: Additions)
    returns (plan: Itinerary, addressed: seq<string>)
    ensures
      var w := WinnersOf(reqs, report);
      plan == base.(days := NewDays(w, scope, revisions, additions, base.days).0)
      && addressed == Once(NewDays(w, scope, revisions, additions, base.days).1)
  {
    var winners := WinningFeedback(reqs, report);
    WinnersAreUnique(reqs, report, winners);
    var newDays, addressedIds := RebuildDays(base.days, winners, scope, revisions, additions);
    plan := base.(days := newDays);
    addressed := KeepFirst(addressedIds);
  }

  method KeepFirst(ids: seq<string>) returns (kept: seq<string>)
    ensures kept == Once(ids)
  {
    kept := [];
    for k := 0 to |ids|
      invariant kept == Once(ids[..k])
    {
      assert ids[..k + 1][..k] == ids[..k];
      if ids[k] !in kept {
        kept := kept + [ids[k]];
      }
    }
    assert ids[..|ids|] == ids;
  }
}

/** The guarantees of one refinement: the plan stays valid, only the scope moves, and exactly
    the honoured feedback is settled. */
module Refinement {
  import opened Sorting
  import opened Itineraries
  import opened Conflicts
  import opened Regeneration
  import opened RegenerationFacts

  // ----- What is asked of the drafts

  ghost predicate ValidRevisions(revisions: Revisions) {
    forall id :: id in revisions ==> revisions[id].title != ""
  }

  /** No drafted id occurs twice, within one row's drafts or across rows. */
  ghost predicate NewIdsDistinct(additions: Additions) {
    && (forall id, x :: id in additions ==> multiset(NewIds(additions[id]))[x] <= 1)
    && forall id, other, x ::
         id in additions && other in additions && x in NewIds(additions[id]) && x in NewIds(additions[other])
         ==> id == other
  }

  /** Nothing in `items` carries an id of a drafted item. */
  ghost predicate NoNewIds(additions: Additions, items: seq<Item>) {
    forall id, x :: id in additions && x in NewIds(additions[id]) ==> x !in Ids(items)
  }

  /** Drafted items are valid, and their ids are new and all different. */
  ghost predicate FreshAdditions(base: Itinerary, additions: Additions) {
    && (forall id, k :: id in additions && 0 <= k < |additions[id]| ==> ValidItem(additions[id][k].item))
    && NewIdsDistinct(additions)
    && forall n :: 0 <= n < |base.days| ==> NoNewIds(additions, base.days[n].items)
  }

  ghost predicate IsDraftedFor(additions: Additions, id: string, x: Item) {
    exists k :: 0 <= k < |Drafted(additions, id)| && Drafted(additions, id)[k].item == x
  }

  lemma DraftedHasNewId(additions: Additions, id: string, x: Item)
    requires IsDraftedFor(additions, id, x)
    ensures id in additions && x.id in NewIds(additions[id])
  {
    var k :| 0 <= k < |Drafted(additions, id)| && Drafted(additions, id)[k].item == x;
    assert NewIds(additions[id])[k] == AdditionId(additions[id][k]);
  }

  lemma DraftedIsValid(base: Itinerary, additions: Additions, id: string, x: Item)
    requires IsDraftedFor(additions, id, x) && FreshAdditions(base, additions)
    ensures ValidItem(x)
  {
  }

  lemma SortedHasSame(drafted: seq<Addition>, a: Addition)
    ensures a in SortBy(drafted, NotLater) <==> a in drafted
  {
    SortByPermutes(drafted, NotLater);
    SameElements(SortBy(drafted, NotLater), drafted);
  }

  // ----- The insertion pass over one day

  lemma {:induction false} PassComesFrom(
      w: Winners, order: seq<Target>, additions: Additions, day: int, items: seq<Item>, x: Item)
    requires forall t :: t in order ==> t in w.row
    requires x in WithAdditions(w, order, additions, day, items).0
    ensures x in items
      || exists id :: id in WithAdditions(w, order, additions, day, items).1 && IsDraftedFor(additions, id, x)
  {
    if order != [] {
      var front, t := order[..|order| - 1], order[|order| - 1];
      var (sofar, ids) := WithAdditions(w, front, additions, day, items);
      if x in sofar {
        PassComesFrom(w, front, additions, day, items, x);
      } else {
        var drafted := Drafted(additions, w.row[t].id);
        var sorted := SortBy(drafted, NotLater);
        AroundComesFrom(sofar, sorted, x);
        var k :| 0 <= k < |sorted| && sorted[k].item == x;
        SortedHasSame(drafted, sorted[k]);
        assert IsDraftedFor(additions, w.row[t].id, x);
      }
    }
  }

  lemma {:induction false} PassKeeps(
      w: Winners, order: seq<Target>, additions: Additions, day: int, items: seq<Item>, x: Item)
    requires forall t :: t in order ==> t in w.row
    requires x in items
    ensures x in WithAdditions(w, order, additions, day, items).0
  {
    if order != [] {
      var front, t := order[..|order| - 1], order[|order| - 1];
      PassKeeps(w, front, additions, day, items, x);
      var drafted := Drafted(additions, w.row[t].id);
      AroundKeeps(WithAdditions(w, front, additions, day, items).0, SortBy(drafted, NotLater), x);
    }
  }

  lemma {:induction false} PassKeepsOrder(
      w: Winners, order: seq<Target>, additions: Additions, day: int, items: seq<Item>, x: string, y: string)
    requires forall t :: t in order ==> t in w.row
    requires Precedes(items, x, y)
    ensures Precedes(WithAdditions(w, order, additions, day, items).0, x, y)
  {
    if order != [] {
      var front, t := order[..|order| - 1], order[|order| - 1];
      PassKeepsOrder(w, front, additions, day, items, x, y);
      AroundKeepsOrder(
        WithAdditions(w, front, additions, day, items).0, SortBy(Drafted(additions, w.row[t].id), NotLater), x, y);
    }
  }

  /** The row of target `t` had its additions inserted into `items`, each on its side. */
  ghost predicate Honoured(w: Winners, additions: Additions, day: int, t: Target, id: string, items: seq<Item>) {
    && t in w.row && w.row[t].id == id && w.row[t].outcome == Add && t.day == day
    && Drafted(additions, id) != []
    && forall k :: 0 <= k < |Drafted(additions, id)| ==> OnItsSide(items, Drafted(additions, id)[k])
  }

  lemma StillOnItsSide(items: seq<Item>, drafted: seq<Addition>, a: Addition)
    requires OnItsSide(items, a)
    ensures OnItsSide(Around(items, drafted), a)
  {
    AroundKeeps(items, drafted, a.item);
    match a.placement
    case BeforeAnchor => AroundKeepsOrder(items, drafted, a.item.id, a.anchor);
    case AfterAnchor => AroundKeepsOrder(items, drafted, a.anchor, a.item.id);
  }

  lemma JustInserted(
      w: Winners, additions: Additions, day: int, t: Target, items: seq<Item>)
    requires t in w.row && Inserts(w, additions, day, t, items)
    ensures Honoured(w, additions, day, t, w.row[t].id,
                     Around(items, SortBy(Drafted(additions, w.row[t].id), NotLater)))
  {
    var drafted := Drafted(additions, w.row[t].id);
    var sorted := SortBy(drafted, NotLater);
    forall k | 0 <= k < |drafted|
      ensures OnItsSide(Around(items, sorted), drafted[k])
    {
      SortedHasSame(drafted, drafted[k]);
      var j :| 0 <= j < |sorted| && sorted[j] == drafted[k];
      AroundPlaces(items, sorted, j);
    }
  }

  lemma {:induction false} PassHonours(
      w: Winners, order: seq<Target>, additions: Additions, day: int, items: seq<Item>, id: string)
    requires forall t :: t in order ==> t in w.row
    requires id in WithAdditions(w, order, additions, day, items).1
    ensures
      var now := WithAdditions(w, order, additions, day, items).0;
      exists t :: t in order && Honoured(w, additions, day, t, id, now)
  {
    var front, last := order[..|order| - 1], order[|order| - 1];
    assert order == front + [last];
    var (sofar, ids) := WithAdditions(w, front, additions, day, items);
    if id in ids {
      PassHonours(w, front, additions, day, items, id);
      var t :| t in front && Honoured(w, additions, day, t, id, sofar);
      if Inserts(w, additions, day, last, sofar) {
        var sorted := SortBy(Drafted(additions, w.row[last].id), NotLater);
        forall k | 0 <= k < |Drafted(additions, id)|
          ensures OnItsSide(Around(sofar, sorted), Drafted(additions, id)[k])
        {
          StillOnItsSide(sofar, sorted, Drafted(additions, id)[k]);
        }
      }
      assert t in order && Honoured(w, additions, day, t, id, WithAdditions(w, order, additions, day, items).0);
    } else {
      JustInserted(w, additions, day, last, sofar);
    }
  }

  /** Inserting drafts whose ids are not there yet repeats nothing and adds just them. */
  lemma AroundNoRepeats(items: seq<Item>, drafted: seq<Addition>)
    requires NoRepeats(items) && CanInsert(items, drafted)
    requires forall x :: multiset(NewIds(drafted))[x] <= 1
    requires forall x :: x in NewIds(drafted) ==> x !in Ids(items)
    ensures
      var now := Around(items, SortBy(drafted, NotLater));
      NoRepeats(now) && |now| == |items| + |drafted| && Ids(now) == Ids(items) + multiset(NewIds(drafted))
  {
    var sorted := SortBy(drafted, NotLater);
    var now := Around(items, sorted);
    SortByPermutes(drafted, NotLater);
    MapPermutes(AdditionId, sorted, drafted);
    forall k | 0 <= k < |sorted|
      ensures sorted[k].anchor in IdSet(items)
    {
      SortedHasSame(drafted, sorted[k]);
      IdsHas(items, sorted[k].anchor);
    }
    ChosenIdsAll(sorted, IdSet(items));
    AroundIds(items, sorted);
    assert Ids(now) == Ids(items) + multiset(NewIds(drafted));
    assert |IdList(now)| == |Ids(now)|;
    forall x
      ensures Ids(now)[x] <= 1
    {
      assert x in multiset(NewIds(drafted)) <==> x in NewIds(drafted);
      assert Ids(items)[x] <= 1;
    }
  }

  ghost predicate DistinctRowIds(w: Winners, order: seq<Target>) {
    && (forall t :: t in order ==> t in w.row)
    && forall i, j :: 0 <= i < j < |order| ==> w.row[order[i]].id != w.row[order[j]].id
  }

  lemma {:induction false} PassIdsAreEarlierRows(
      w: Winners, order: seq<Target>, additions: Additions, day: int, items: seq<Item>, id: string)
    requires forall t :: t in order ==> t in w.row
    requires id in WithAdditions(w, order, additions, day, items).1
    ensures exists i :: 0 <= i < |order| && w.row[order[i]].id == id && order[i].day == day
  {
    PassHonours(w, order, additions, day, items, id);
  }

  lemma {:induction false} PassNoRepeats(
      w: Winners, order: seq<Target>, additions: Additions, day: int, items: seq<Item>)
    requires DistinctRowIds(w, order)
    requires NewIdsDistinct(additions) && NoNewIds(additions, items)
    requires NoRepeats(items) && |items| <= MAX_ITEMS_PER_DAY
    ensures
      var now := WithAdditions(w, order, additions, day, items).0;
      NoRepeats(now) && |items| <= |now| <= MAX_ITEMS_PER_DAY
  {
    if order != [] {
      var front, t := order[..|order| - 1], order[|order| - 1];
      assert order == front + [t];
      PassNoRepeats(w, front, additions, day, items);
      var (sofar, ids) := WithAdditions(w, front, additions, day, items);
      if Inserts(w, additions, day, t, sofar) {
        var drafted := Drafted(additions, w.row[t].id);
        forall x | x in NewIds(drafted)
          ensures x !in Ids(sofar)
        {
          NotInsertedYet(w, front, additions, day, items, w.row[t].id, x);
        }
        AroundNoRepeats(sofar, drafted);
      }
    }
  }

  /** Before a row has its turn, none of its drafted ids is among the items. */
  lemma NotInsertedYet(
      w: Winners, order: seq<Target>, additions: Additions, day: int, items: seq<Item>, id: string, x: string)
    requires forall t :: t in order ==> t in w.row && w.row[t].id != id
    requires NewIdsDistinct(additions) && NoNewIds(additions, items)
    requires id in additions && x in NewIds(additions[id])
    ensures x !in Ids(WithAdditions(w, order, additions, day, items).0)
  {
    var (now, ids) := WithAdditions(w, order, additions, day, items);
    if x in Ids(now) {
      IdsHas(now, x);
      var k :| 0 <= k < |now| && now[k].id == x;
      PassComesFrom(w, order, additions, day, items, now[k]);
      if now[k] in items {
        MemberHasId(items, now[k]);
      } else {
        var other :| other in ids && IsDraftedFor(additions, other, now[k]);
        DraftedHasNewId(additions, other, now[k]);
        PassIdsAreEarlierRows(w, order, additions, day, items, other);
      }
    }
  }

  // ----- One day

  lemma RebuiltComesFrom(w: Winners, revisions: Revisions, additions: Additions, d: Day, x: Item)
    requires forall t :: t in w.order ==> t in w.row
    requires x in Rebuilt(w, revisions, additions, d).0
    ensures
      || (exists k :: 0 <= k < |d.items| && TurnsInto(Fates(w, revisions, d.day), d.items[k], x))
      || exists i, id :: 0 <= i < |w.order| && w.order[i].day == d.day && w.row[w.order[i]].id == id
           && id in Rebuilt(w, revisions, additions, d).1 && IsDraftedFor(additions, id, x)
  {
    var fate := Fates(w, revisions, d.day);
    var edited := Edited(fate, d.items);
    PassComesFrom(w, w.order, additions, d.day, edited, x);
    if x in edited {
      EditedComesFrom(fate, d.items, x);
    } else {
      var id :| id in WithAdditions(w, w.order, additions, d.day, edited).1 && IsDraftedFor(additions, id, x);
      PassIdsAreEarlierRows(w, w.order, additions, d.day, edited, id);
      var i :| 0 <= i < |w.order| && w.row[w.order[i]].id == id && w.order[i].day == d.day;
      assert id in Rebuilt(w, revisions, additions, d).1;
    }
  }

  lemma EditedKeepsNewIdsOut(fate: Item -> Fate, additions: Additions, items: seq<Item>)
    requires KeepsIds(fate) && NoNewIds(additions, items)
    ensures NoNewIds(additions, Edited(fate, items))
  {
    EditedIds(fate, items);
    forall id, x | id in additions && x in NewIds(additions[id])
      ensures x !in Ids(Edited(fate, items))
    {
      assert Ids(Edited(fate, items))[x] <= Ids(items)[x];
    }
  }

  lemma RebuiltNoRepeats(w: Winners, revisions: Revisions, additions: Additions, d: Day)
    requires DistinctRowIds(w, w.order) && NewIdsDistinct(additions) && NoNewIds(additions, d.items)
    requires NoRepeats(d.items) && |d.items| <= MAX_ITEMS_PER_DAY
    ensures NoRepeats(Rebuilt(w, revisions, additions, d).0)
    ensures |Rebuilt(w, revisions, additions, d).0| <= MAX_ITEMS_PER_DAY
  {
    var fate := Fates(w, revisions, d.day);
    FatesKeepIds(w, revisions, d.day);
    EditedNoRepeats(fate, d.items);
    EditedSize(fate, d.items);
    EditedKeepsNewIdsOut(fate, additions, d.items);
    PassNoRepeats(w, w.order, additions, d.day, Edited(fate, d.items));
  }

  lemma BecomesValid(w: Winners, revisions: Revisions, day: int, item: Item, x: Item)
    requires ValidRevisions(revisions) && ValidItem(item) && TurnsInto(Fates(w, revisions, day), item, x)
    ensures ValidItem(x) && x.id == item.id
  {
  }

  lemma NewDayIsValid(
      base: Itinerary, w: Winners, scope: Scope, revisions: Revisions, additions: Additions, d: Day)
    requires ValidDay(d) && ValidRevisions(revisions) && FreshAdditions(base, additions)
    requires NoNewIds(additions, d.items) && DistinctRowIds(w, w.order)
    ensures
      var now := NewDay(w, scope, revisions, additions, d).0;
      ValidDay(now) && now.day == d.day && now.date == d.date
  {
    var items := Rebuilt(w, revisions, additions, d).0;
    RebuiltNoRepeats(w, revisions, additions, d);
    forall x | x in items
      ensures ValidItem(x)
    {
      RebuiltComesFrom(w, revisions, additions, d, x);
      if k :| 0 <= k < |d.items| && TurnsInto(Fates(w, revisions, d.day), d.items[k], x) {
        BecomesValid(w, revisions, d.day, d.items[k], x);
      } else {
        var i, id :| 0 <= i < |w.order| && w.row[w.order[i]].id == id && IsDraftedFor(additions, id, x);
        DraftedIsValid(base, additions, id, x);
      }
    }
  }

  /** An id of a rebuilt day is an old id of that day, or was drafted for a row aimed at it. */
  ghost predicate BelongsTo(w: Winners, additions: Additions, d: Day, x: string) {
    x in Ids(d.items)
    || exists i :: 0 <= i < |w.order| && w.order[i] in w.row && w.order[i].day == d.day
         && w.row[w.order[i]].id in additions && x in NewIds(additions[w.row[w.order[i]].id])
  }

  lemma NewIdsBelong(w: Winners, scope: Scope, revisions: Revisions, additions: Additions, d: Day, x: string)
    requires forall t :: t in w.order ==> t in w.row
    requires x in Ids(NewDay(w, scope, revisions, additions, d).0.items)
    ensures BelongsTo(w, additions, d, x)
  {
    var items := Rebuilt(w, revisions, additions, d).0;
    if NewDay(w, scope, revisions, additions, d).0 != d {
      IdsHas(items, x);
      var j :| 0 <= j < |items| && items[j].id == x;
      RebuiltComesFrom(w, revisions, additions, d, items[j]);
      if k :| 0 <= k < |d.items| && TurnsInto(Fates(w, revisions, d.day), d.items[k], items[j]) {
        FatesKeepIds(w, revisions, d.day);
        MemberHasId(d.items, d.items[k]);
      } else {
        var i, id :| 0 <= i < |w.order| && w.order[i].day == d.day && w.row[w.order[i]].id == id
          && IsDraftedFor(additions, id, items[j]);
        DraftedHasNewId(additions, id, items[j]);
      }
    }
  }

  // ----- The whole plan

  lemma {:induction false} DayByDay(
      w: Winners, scope: Scope, revisions: Revisions, additions: Additions, days: seq<Day>)
    requires forall t :: t in w.order ==> t in w.row
    ensures |NewDays(w, scope, revisions, additions, days).0| == |days|
    ensures forall n :: 0 <= n < |days| ==>
      NewDays(w, scope, revisions, additions, days).0[n] == NewDay(w, scope, revisions, additions, days[n]).0
  {
    if days != [] { DayByDay(w, scope, revisions, additions, days[..|days| - 1]); }
  }

  lemma {:induction false} AddressedByDay(
      w: Winners, scope: Scope, revisions: Revisions, additions: Additions, days: seq<Day>, id: string)
    requires forall t :: t in w.order ==> t in w.row
    ensures id in NewDays(w, scope, revisions, additions, days).1 <==>
      exists n :: 0 <= n < |days| && id in NewDay(w, scope, revisions, additions, days[n]).1
  {
    if days != [] {
      var front, last := days[..|days| - 1], days[|days| - 1];
      AddressedByDay(w, scope, revisions, additions, front, id);
      assert days == front + [last];
      if n :| 0 <= n < |front| && id in NewDay(w, scope, revisions, additions, front[n]).1 {
        assert days[n] == front[n];
      }
      assert days[|days| - 1] == last;
    }
  }

  lemma {:induction false} OnceKeepsAll(ids: seq<string>)
    ensures forall x :: x in Once(ids) <==> x in ids
    ensures forall i, j :: 0 <= i < j < |Once(ids)| ==> Once(ids)[i] != Once(ids)[j]
  {
    if ids != [] {
      OnceKeepsAll(ids[..|ids| - 1]);
      assert ids == ids[..|ids| - 1] + [ids[|ids| - 1]];
    }
  }

  /** The new plan and the honoured rows, as the regeneration computes them. */
  ghost function NewPlan(
      base: Itinerary, w: Winners, scope: Scope, revisions: Revisions, additions: Additions): Itinerary
    requires forall t :: t in w.order ==> t in w.row
  {
    base.(days := NewDays(w, scope, revisions, additions, base.days).0)
  }

  ghost function Addressed(
      base: Itinerary, w: Winners, scope: Scope, revisions: Revisions, additions: Additions): seq<string>
    requires forall t :: t in w.order ==> t in w.row
  {
    Once(NewDays(w, scope, revisions, additions, base.days).1)
  }

  lemma WellAimedRowsDiffer(it: Itinerary, w: Winners)
    requires WellAimed(it, w)
    ensures DistinctRowIds(w, w.order)
  {
  }

  /** The refined plan is valid again: same days, 1 to 10 items each, unique ids. */
  lemma RefinedPlanIsValid(
      base: Itinerary, w: Winners, scope: Scope, revisions: Revisions, additions: Additions)
    requires ValidItinerary(base) && WellAimed(base, w)
    requires ValidRevisions(revisions) && FreshAdditions(base, additions)
    ensures ValidItinerary(NewPlan(base, w, scope, revisions, additions))
    ensures |NewPlan(base, w, scope, revisions, additions).days| == |base.days|
  {
    var plan := NewPlan(base, w, scope, revisions, additions);
    DayByDay(w, scope, revisions, additions, base.days);
    WellAimedRowsDiffer(base, w);
    forall n | 0 <= n < |plan.days|
      ensures plan.days[n].day == n + 1 && ValidDay(plan.days[n])
    {
      NewDayIsValid(base, w, scope, revisions, additions, base.days[n]);
    }
    forall n, m, x | 0 <= n < m < |plan.days| && x in Ids(plan.days[n].items)
      ensures x !in Ids(plan.days[m].items)
    {
      OneHome(base, w, scope, revisions, additions, n, m, x);
    }
  }

  /** An id in a rebuilt day cannot turn up in a later one. */
  lemma OneHome(
      base: Itinerary, w: Winners, scope: Scope, revisions: Revisions, additions: Additions, n: nat, m: nat, x: string)
    requires ValidItinerary(base) && WellAimed(base, w) && FreshAdditions(base, additions)
    requires n < m < |base.days|
    requires x in Ids(NewDay(w, scope, revisions, additions, base.days[n]).0.items)
    ensures x !in Ids(NewDay(w, scope, revisions, additions, base.days[m]).0.items)
  {
    NewIdsBelong(w, scope, revisions, additions, base.days[n], x);
    assert !BelongsTo(w, additions, base.days[m], x) by {
      HomesDiffer(base, w, additions, n, m, x);
    }
    if x in Ids(NewDay(w, scope, revisions, additions, base.days[m]).0.items) {
      NewIdsBelong(w, scope, revisions, additions, base.days[m], x);
    }
  }

  lemma HomesDiffer(base: Itinerary, w: Winners, additions: Additions, n: nat, m: nat, x: string)
    requires ValidItinerary(base) && WellAimed(base, w) && FreshAdditions(base, additions)
    requires n < m < |base.days| && BelongsTo(w, additions, base.days[n], x)
    ensures !BelongsTo(w, additions, base.days[m], x)
  {
  }
}

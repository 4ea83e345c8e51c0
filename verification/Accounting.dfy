/** Which feedback a refinement may report as addressed, and what that means for the plan. */
module Accounting {
  import opened Wrappers
  import opened Sorting
  import opened Itineraries
  import opened Conflicts
  import opened Regeneration
  import opened RegenerationFacts
  import opened Refinement

  // ----- Only the scope moves

  /** A day outside the scope is carried forward as it is. */
  lemma OtherDaysAreIdentical(
      base: Itinerary, w: Winners, scope: Scope, revisions: Revisions, additions: Additions, n: nat)
    requires forall t :: t in w.order ==> t in w.row
    requires n < |base.days| && base.days[n].day !in AffectedDays(scope)
    ensures |NewPlan(base, w, scope, revisions, additions).days| == |base.days|
    ensures NewPlan(base, w, scope, revisions, additions).days[n] == base.days[n]
  {
    DayByDay(w, scope, revisions, additions, base.days);
  }

  lemma LeftAloneStays(w: Winners, revisions: Revisions, additions: Additions, d: Day, k: nat)
    requires forall t :: t in w.order ==> t in w.row
    requires k < |d.items| && TurnsInto(Fates(w, revisions, d.day), d.items[k], d.items[k])
    ensures d.items[k] in Rebuilt(w, revisions, additions, d).0
  {
    var fate := Fates(w, revisions, d.day);
    EditedComesFrom(fate, d.items, d.items[k]);
    PassKeeps(w, w.order, additions, d.day, Edited(fate, d.items), d.items[k]);
  }

  /** Every old item that was changed or dropped was in the computed scope. */
  lemma OnlyScopedItemsChange(
      base: Itinerary, reqs: seq<Request>, report: seq<Conflict>, w: Winners, scope: Scope,
      revisions: Revisions, additions: Additions, n: nat, k: nat)
    requires ValidItinerary(base) && AllResolved(base, reqs) && DistinctRows(reqs)
    requires AreWinners(reqs, report, w) && IsScopeOf(base, reqs, scope)
    requires n < |base.days| && k < |base.days[n].items|
    requires base.days[n].items[k] !in NewDay(w, scope, revisions, additions, base.days[n]).0.items
    ensures InScope(scope, n + 1, base.days[n].items[k].id)
  {
    var d, item := base.days[n], base.days[n].items[k];
    WinnersAreWellAimed(base, reqs, report, w);
    assert !TurnsInto(Fates(w, revisions, d.day), item, item) by {
      if TurnsInto(Fates(w, revisions, d.day), item, item) {
        LeftAloneStays(w, revisions, additions, d, k);
      }
    }
    var own, whole := Target(d.day, Some(item.id)), Target(d.day, None);
    var t := if own in w.row then own else whole;
    assert t in w.row;
    assert Request(w.row[t], t) in reqs;
    var r :| 0 <= r < |reqs| && reqs[r] == Request(w.row[t], t);
    assert ItemsOf(base, n + 1) == d.items;
    assert NextTo(d.items, k, k);
    assert Touches(d.items, t, k);
    assert TouchesId(d.items, reqs[r].target, item.id);
    assert TouchedBy(base, reqs, n + 1, item.id);
  }

  // ----- Old items keep their place

  lemma OldIdIsNotDrafted(base: Itinerary, additions: Additions, n: nat, x: Item, id: string)
    requires FreshAdditions(base, additions) && n < |base.days| && IsDraftedFor(additions, id, x)
    ensures x.id !in Ids(base.days[n].items)
  {
    DraftedHasNewId(additions, id, x);
    assert NoNewIds(additions, base.days[n].items);
  }

  lemma SurvivorWasNotDropped(
      base: Itinerary, w: Winners, revisions: Revisions, additions: Additions, n: nat, k: nat)
    requires ValidItinerary(base) && WellAimed(base, w) && FreshAdditions(base, additions)
    requires n < |base.days| && k < |base.days[n].items|
    requires base.days[n].items[k].id in Ids(Rebuilt(w, revisions, additions, base.days[n]).0)
    ensures !Dropped(Fates(w, revisions, base.days[n].day)(base.days[n].items[k]))
  {
    var d, fate := base.days[n], Fates(w, revisions, base.days[n].day);
    var now := Rebuilt(w, revisions, additions, d).0;
    IdsHas(now, d.items[k].id);
    var j :| 0 <= j < |now| && now[j].id == d.items[k].id;
    RebuiltComesFrom(w, revisions, additions, d, now[j]);
    MemberHasId(d.items, d.items[k]);
    if i :| 0 <= i < |d.items| && TurnsInto(fate, d.items[i], now[j]) {
      FatesKeepIds(w, revisions, d.day);
      IdNamesOnePosition(d.items, i, k);
    } else {
      var i, id :| 0 <= i < |w.order| && w.row[w.order[i]].id == id && IsDraftedFor(additions, id, now[j]);
      OldIdIsNotDrafted(base, additions, n, now[j], id);
    }
  }

  /** Old items that survive stay in their old relative order. */
  lemma SurvivorsKeepTheirOrder(
      base: Itinerary, w: Winners, scope: Scope, revisions: Revisions, additions: Additions, n: nat, i: nat, j: nat)
    requires ValidItinerary(base) && WellAimed(base, w) && FreshAdditions(base, additions)
    requires n < |base.days| && i < j < |base.days[n].items|
    requires base.days[n].items[i].id in Ids(NewDay(w, scope, revisions, additions, base.days[n]).0.items)
    requires base.days[n].items[j].id in Ids(NewDay(w, scope, revisions, additions, base.days[n]).0.items)
    ensures Precedes(NewDay(w, scope, revisions, additions, base.days[n]).0.items,
                     base.days[n].items[i].id, base.days[n].items[j].id)
  {
    var d, fate := base.days[n], Fates(w, revisions, base.days[n].day);
    if NewDay(w, scope, revisions, additions, d).0 == d {
      assert d.items[i].id == d.items[i].id;
    } else {
      SurvivorWasNotDropped(base, w, revisions, additions, n, i);
      SurvivorWasNotDropped(base, w, revisions, additions, n, j);
      FatesKeepIds(w, revisions, d.day);
      EditedKeepsOrder(fate, d.items, i, j);
      PassKeepsOrder(w, w.order, additions, d.day, Edited(fate, d.items), d.items[i].id, d.items[j].id);
    }
  }

  /** An old id is never found on another day. */
  lemma OldIdStaysHome(
      base: Itinerary, w: Winners, scope: Scope, revisions: Revisions, additions: Additions, n: nat, m: nat, x: string)
    requires ValidItinerary(base) && WellAimed(base, w) && FreshAdditions(base, additions)
    requires n < |base.days| && m < |base.days| && x in Ids(base.days[n].items)
    requires x in Ids(NewDay(w, scope, revisions, additions, base.days[m]).0.items)
    ensures n == m
  {
    NewIdsBelong(w, scope, revisions, additions, base.days[m], x);
    assert BelongsTo(w, additions, base.days[n], x);
    if n < m { HomesDiffer(base, w, additions, n, m, x); }
    if m < n { HomesDiffer(base, w, additions, m, n, x); }
  }

  // ----- Where an addressed row comes from

  /** The row of `t` decides about this item: its own row, or else the day's. */
  predicate Governs(w: Winners, t: Target, day: int, item: Item) {
    && t.day == day
    && (t.itemId == Some(item.id) || (t.itemId.None? && Target(day, Some(item.id)) !in w.row))
  }

  /** Rows that can be settled by editing or removing: not a removal of a whole day. */
  predicate CanSettle(t: Target, o: Outcome) {
    o == Edit || o == Retain || (o == Remove && t.itemId.Some?)
  }

  /** What the row of `t` makes of an item it governs. */
  function Result(w: Winners, revisions: Revisions, t: Target, item: Item): Option<Item>
    requires t in w.row
  {
    ApplyOutcome(item, w.row[t].outcome, w.row[t].comment,
                 if item.id in revisions then Some(revisions[item.id]) else None)
  }

  lemma FateOfGoverned(w: Winners, revisions: Revisions, t: Target, day: int, item: Item)
    requires t in w.row && Governs(w, t, day, item)
    ensures FateOf(w, revisions, day, item) ==
      if CanSettle(t, w.row[t].outcome) then Settled(w.row[t].id, Result(w, revisions, t, item)) else LeftAlone
  {
  }

  ghost predicate SettledBy(w: Winners, d: Day, t: Target, id: string) {
    && t in w.row && w.row[t].id == id && CanSettle(t, w.row[t].outcome)
    && exists k :: 0 <= k < |d.items| && Governs(w, t, d.day, d.items[k])
  }

  lemma SettlingRowHasTarget(w: Winners, revisions: Revisions, d: Day, id: string)
    requires id in SettlingRows(Fates(w, revisions, d.day), d.items)
    ensures exists t :: SettledBy(w, d, t, id)
  {
    var fate := Fates(w, revisions, d.day);
    SettlingRowsAre(fate, d.items, id);
    var k :| 0 <= k < |d.items| && fate(d.items[k]).Settled? && fate(d.items[k]).row == id;
    var own := Target(d.day, Some(d.items[k].id));
    var t := if own in w.row then own else Target(d.day, None);
    FateOfGoverned(w, revisions, t, d.day, d.items[k]);
    assert SettledBy(w, d, t, id);
  }

  /** A row addressed on a day was settled there by an edit, or had its additions inserted there. */
  lemma AddressedOnDay(
      base: Itinerary, w: Winners, scope: Scope, revisions: Revisions, additions: Additions, n: nat, t: Target)
    requires WellAimed(base, w) && n < |base.days| && t in w.row
    requires w.row[t].id in NewDay(w, scope, revisions, additions, base.days[n]).1
    ensures || SettledBy(w, base.days[n], t, w.row[t].id)
            || Honoured(w, additions, base.days[n].day, t, w.row[t].id,
                        NewDay(w, scope, revisions, additions, base.days[n]).0.items)
  {
    var d, fate := base.days[n], Fates(w, revisions, base.days[n].day);
    if w.row[t].id in SettlingRows(fate, d.items) {
      SettlingRowHasTarget(w, revisions, d, w.row[t].id);
      var u :| SettledBy(w, d, u, w.row[t].id);
      assert u == t;
    } else {
      PassHonours(w, w.order, additions, d.day, Edited(fate, d.items), w.row[t].id);
      var u :| u in w.order && Honoured(w, additions, d.day, u, w.row[t].id, Rebuilt(w, revisions, additions, d).0);
      assert u == t;
    }
  }

  lemma AddressedSomewhere(
      base: Itinerary, w: Winners, scope: Scope, revisions: Revisions, additions: Additions, id: string)
    requires forall t :: t in w.order ==> t in w.row
    ensures id in Addressed(base, w, scope, revisions, additions) <==>
      exists n :: 0 <= n < |base.days| && id in NewDay(w, scope, revisions, additions, base.days[n]).1
  {
    OnceKeepsAll(NewDays(w, scope, revisions, additions, base.days).1);
    AddressedByDay(w, scope, revisions, additions, base.days, id);
  }

  lemma AddressedOnItsOwnDay(
      base: Itinerary, w: Winners, scope: Scope, revisions: Revisions, additions: Additions, n: nat, t: Target)
    requires WellAimed(base, w) && n < |base.days| && t in w.row
    requires w.row[t].id in NewDay(w, scope, revisions, additions, base.days[n]).1
    ensures base.days[n].day == t.day
  {
    AddressedOnDay(base, w, scope, revisions, additions, n, t);
  }

  lemma AddressedAtHome(
      base: Itinerary, w: Winners, scope: Scope, revisions: Revisions, additions: Additions, t: Target)
    requires ValidItinerary(base) && WellAimed(base, w) && t in w.row
    requires w.row[t].id in Addressed(base, w, scope, revisions, additions)
    ensures HasDay(base, t.day) && base.days[t.day - 1].day == t.day
    ensures w.row[t].id in NewDay(w, scope, revisions, additions, base.days[t.day - 1]).1
  {
    AddressedSomewhere(base, w, scope, revisions, additions, w.row[t].id);
    var n :| 0 <= n < |base.days| && w.row[t].id in NewDay(w, scope, revisions, additions, base.days[n]).1;
    AddressedOnItsOwnDay(base, w, scope, revisions, additions, n, t);
    assert base.days[n].day == n + 1;
  }

  /** Every addressed id is the winner of exactly one target, and is listed once. */
  lemma AddressedRowsAreWinners(
      base: Itinerary, w: Winners, scope: Scope, revisions: Revisions, additions: Additions, id: string)
    requires WellAimed(base, w) && id in Addressed(base, w, scope, revisions, additions)
    ensures exists t :: t in w.row && w.row[t].id == id && forall u :: u in w.row && w.row[u].id == id ==> u == t
    ensures multiset(Addressed(base, w, scope, revisions, additions))[id] == 1
  {
    var ids := Addressed(base, w, scope, revisions, additions);
    AddressedSomewhere(base, w, scope, revisions, additions, id);
    var n :| 0 <= n < |base.days| && id in NewDay(w, scope, revisions, additions, base.days[n]).1;
    var d := base.days[n];
    if id in SettlingRows(Fates(w, revisions, d.day), d.items) {
      SettlingRowHasTarget(w, revisions, d, id);
      var t :| SettledBy(w, d, t, id);
    } else {
      PassIdsAreEarlierRows(w, w.order, additions, d.day, Edited(Fates(w, revisions, d.day), d.items), id);
    }
    OnceKeepsAll(NewDays(w, scope, revisions, additions, base.days).1);
    var i :| 0 <= i < |ids| && ids[i] == id;
    forall j | 0 <= j < |ids| && j != i ensures ids[j] != ids[i] {
      if j < i { assert ids[j] != ids[i]; } else { assert ids[i] != ids[j]; }
    }
    OnceInMultiset(ids, i);
  }

  // ----- What "addressed" promises

  /** An addressed addition has every drafted item in its day once, on its side of its anchor. */
  lemma AddressedAdditionIsIn(
      base: Itinerary, w: Winners, scope: Scope, revisions: Revisions, additions: Additions, t: Target, k: nat)
    requires ValidItinerary(base) && WellAimed(base, w) && t in w.row && w.row[t].outcome == Add
    requires ValidRevisions(revisions) && FreshAdditions(base, additions)
    requires w.row[t].id in Addressed(base, w, scope, revisions, additions)
    ensures HasDay(base, t.day) && Drafted(additions, w.row[t].id) != []
    ensures k < |Drafted(additions, w.row[t].id)| ==>
      var a := Drafted(additions, w.row[t].id)[k];
      var items := NewDay(w, scope, revisions, additions, base.days[t.day - 1]).0.items;
      OnItsSide(items, a) && Ids(items)[a.item.id] == 1
  {
    AddressedAtHome(base, w, scope, revisions, additions, t);
    var n := t.day - 1;
    AddressedOnDay(base, w, scope, revisions, additions, n, t);
    WellAimedRowsDiffer(base, w);
    NewDayIsValid(base, w, scope, revisions, additions, base.days[n]);
    if k < |Drafted(additions, w.row[t].id)| {
      var a := Drafted(additions, w.row[t].id)[k];
      var items := NewDay(w, scope, revisions, additions, base.days[n]).0.items;
      assert OnItsSide(items, a);
      MemberHasId(items, a.item);
      assert Ids(items)[a.item.id] <= 1;
    }
  }

  /** An addition that is not addressed left nothing behind, on any day. */
  lemma UnaddressedAdditionIsOut(
      base: Itinerary, w: Winners, scope: Scope, revisions: Revisions, additions: Additions,
      t: Target, n: nat, x: string)
    requires ValidItinerary(base) && WellAimed(base, w) && FreshAdditions(base, additions)
    requires t in w.row && w.row[t].id in additions && x in NewIds(additions[w.row[t].id])
    requires w.row[t].id !in Addressed(base, w, scope, revisions, additions)
    requires n < |base.days|
    ensures x !in Ids(NewDay(w, scope, revisions, additions, base.days[n]).0.items)
  {
    var d := base.days[n];
    assert NoNewIds(additions, d.items);
    AddressedSomewhere(base, w, scope, revisions, additions, w.row[t].id);
    assert w.row[t].id !in NewDay(w, scope, revisions, additions, d).1;
    if NewDay(w, scope, revisions, additions, d).0 != d {
      assert NewDay(w, scope, revisions, additions, d) ==
             (d.(items := Rebuilt(w, revisions, additions, d).0), Rebuilt(w, revisions, additions, d).1);
      UnaddressedAdditionIsOutOfDay(base, w, revisions, additions, n, w.row[t].id, x);
    }
  }

  lemma UnaddressedAdditionIsOutOfDay(
      base: Itinerary, w: Winners, revisions: Revisions, additions: Additions, n: nat, id: string, x: string)
    requires WellAimed(base, w) && FreshAdditions(base, additions) && n < |base.days|
    requires id in additions && x in NewIds(additions[id])
    requires id !in Rebuilt(w, revisions, additions, base.days[n]).1
    ensures x !in Ids(Rebuilt(w, revisions, additions, base.days[n]).0)
  {
    var d := base.days[n];
    var now := Rebuilt(w, revisions, additions, d).0;
    assert NoNewIds(additions, d.items);
    if x in Ids(now) {
      IdsHas(now, x);
      var j :| 0 <= j < |now| && now[j].id == x;
      RebuiltComesFrom(w, revisions, additions, d, now[j]);
      if k :| 0 <= k < |d.items| && TurnsInto(Fates(w, revisions, d.day), d.items[k], now[j]) {
        FatesKeepIds(w, revisions, d.day);
        MemberHasId(d.items, d.items[k]);
      } else {
        var i, other :| 0 <= i < |w.order| && w.row[w.order[i]].id == other
          && other in Rebuilt(w, revisions, additions, d).1 && IsDraftedFor(additions, other, now[j]);
        DraftedHasNewId(additions, other, now[j]);
      }
    }
  }

  /** An addressed removal names one item, and that item is gone from every day. */
  lemma AddressedRemovalIsGone(
      base: Itinerary, w: Winners, scope: Scope, revisions: Revisions, additions: Additions, t: Target)
    requires ValidItinerary(base) && WellAimed(base, w) && FreshAdditions(base, additions)
    requires t in w.row && w.row[t].outcome == Remove
    requires w.row[t].id in Addressed(base, w, scope, revisions, additions)
    ensures t.itemId.Some?
    ensures forall n :: 0 <= n < |base.days| ==>
      t.itemId.value !in Ids(NewDay(w, scope, revisions, additions, base.days[n]).0.items)
  {
    AddressedAtHome(base, w, scope, revisions, additions, t);
    var h := t.day - 1;
    var d, x := base.days[h], t.itemId;
    AddressedOnDay(base, w, scope, revisions, additions, h, t);
    var k :| 0 <= k < |d.items| && Governs(w, t, d.day, d.items[k]);
    FateOfGoverned(w, revisions, t, d.day, d.items[k]);
    assert Dropped(Fates(w, revisions, d.day)(d.items[k]));
    MemberHasId(d.items, d.items[k]);
    forall n | 0 <= n < |base.days|
      ensures t.itemId.value !in Ids(NewDay(w, scope, revisions, additions, base.days[n]).0.items)
    {
      if t.itemId.value in Ids(NewDay(w, scope, revisions, additions, base.days[n]).0.items) {
        OldIdStaysHome(base, w, scope, revisions, additions, h, n, t.itemId.value);
        SurvivorWasNotDropped(base, w, revisions, additions, h, k);
      }
    }
  }

  /** An addressed edit or retain row did its work on every item it governs. */
  lemma AddressedEditIsDone(
      base: Itinerary, w: Winners, scope: Scope, revisions: Revisions, additions: Additions, t: Target, k: nat)
    requires ValidItinerary(base) && WellAimed(base, w)
    requires t in w.row && (w.row[t].outcome == Edit || w.row[t].outcome == Retain)
    requires w.row[t].id in Addressed(base, w, scope, revisions, additions)
    requires k < |base.days[t.day - 1].items| && Governs(w, t, t.day, base.days[t.day - 1].items[k])
    ensures
      var done := Result(w, revisions, t, base.days[t.day - 1].items[k]);
      done.Some? && done.value in NewDay(w, scope, revisions, additions, base.days[t.day - 1]).0.items
  {
    AddressedAtHome(base, w, scope, revisions, additions, t);
    var d := base.days[t.day - 1];
    var fate := Fates(w, revisions, d.day);
    FateOfGoverned(w, revisions, t, d.day, d.items[k]);
    var done := Result(w, revisions, t, d.items[k]);
    assert TurnsInto(fate, d.items[k], done.value);
    EditedComesFrom(fate, d.items, done.value);
    PassKeeps(w, w.order, additions, d.day, Edited(fate, d.items), done.value);
    assert NewDay(w, scope, revisions, additions, d).0.items == Rebuilt(w, revisions, additions, d).0;
  }

  /** A winning row that is not addressed changed none of the items it governs. */
  lemma UnaddressedRowsChangeNothing(
      base: Itinerary, w: Winners, scope: Scope, revisions: Revisions, additions: Additions, t: Target, k: nat)
    requires ValidItinerary(base) && WellAimed(base, w) && t in w.row
    requires w.row[t].id !in Addressed(base, w, scope, revisions, additions)
    requires k < |base.days[t.day - 1].items| && Governs(w, t, t.day, base.days[t.day - 1].items[k])
    ensures base.days[t.day - 1].items[k] in NewDay(w, scope, revisions, additions, base.days[t.day - 1]).0.items
  {
    var n := t.day - 1;
    var d := base.days[n];
    var fate := Fates(w, revisions, d.day);
    AddressedSomewhere(base, w, scope, revisions, additions, w.row[t].id);
    assert w.row[t].id !in NewDay(w, scope, revisions, additions, d).1;
    if NewDay(w, scope, revisions, additions, d).0 != d {
      assert w.row[t].id !in SettlingRows(fate, d.items);
      SettlingRowsAre(fate, d.items, w.row[t].id);
      FateOfGoverned(w, revisions, t, d.day, d.items[k]);
      assert fate(d.items[k]).LeftAlone?;
      LeftAloneStays(w, revisions, additions, d, k);
    }
  }

  lemma AddressedRowCouldBeSettled(
      base: Itinerary, w: Winners, scope: Scope, revisions: Revisions, additions: Additions, n: nat, t: Target)
    requires WellAimed(base, w) && n < |base.days| && t in w.row
    requires w.row[t].id in NewDay(w, scope, revisions, additions, base.days[n]).1
    ensures CanSettle(t, w.row[t].outcome) || w.row[t].outcome == Add
  {
    AddressedOnDay(base, w, scope, revisions, additions, n, t);
  }

  /** Removing a whole day, or a comment with no clear wish, is never reported as addressed. */
  lemma DayRemovalStaysOpen(
      base: Itinerary, w: Winners, scope: Scope, revisions: Revisions, additions: Additions, t: Target)
    requires WellAimed(base, w) && t in w.row
    requires (w.row[t].outcome == Remove && t.itemId.None?) || w.row[t].outcome == Unresolved
    ensures w.row[t].id !in Addressed(base, w, scope, revisions, additions)
  {
    AddressedSomewhere(base, w, scope, revisions, additions, w.row[t].id);
    if n :| 0 <= n < |base.days| && w.row[t].id in NewDay(w, scope, revisions, additions, base.days[n]).1 {
      AddressedRowCouldBeSettled(base, w, scope, revisions, additions, n, t);
    }
  }

  // ----- Exactly when an item's row is addressed

  /** Every item of the day has a removal of its own as its winning row. */
  ghost predicate AllRemoved(w: Winners, d: Day) {
    forall k :: 0 <= k < |d.items| ==>
      var own := Target(d.day, Some(d.items[k].id));
      own in w.row && w.row[own].outcome == Remove
  }

  lemma NothingFitsNowhere(drafted: seq<Addition>)
    ensures !CanInsert([], drafted)
  {
    assert IdList([]) == [];
    if drafted != [] { assert drafted[0].anchor !in Ids([]); }
  }

  lemma {:induction false} NothingToAnchorTo(
      w: Winners, order: seq<Target>, additions: Additions, day: int, items: seq<Item>)
    requires forall t :: t in order ==> t in w.row
    ensures WithAdditions(w, order, additions, day, items).0 == [] <==> items == []
    ensures items == [] ==> WithAdditions(w, order, additions, day, items).1 == []
  {
    if order != [] {
      var front, t := order[..|order| - 1], order[|order| - 1];
      NothingToAnchorTo(w, front, additions, day, items);
      var sofar := WithAdditions(w, front, additions, day, items).0;
      if sofar == [] {
        NothingFitsNowhere(Drafted(additions, w.row[t].id));
      } else {
        AroundKeeps(sofar, SortBy(Drafted(additions, w.row[t].id), NotLater), sofar[0]);
      }
    }
  }

  lemma DayEmpties(w: Winners, revisions: Revisions, additions: Additions, d: Day)
    requires forall t :: t in w.order ==> t in w.row
    ensures Rebuilt(w, revisions, additions, d).0 == [] <==> AllRemoved(w, d)
  {
    var fate := Fates(w, revisions, d.day);
    var edited := Edited(fate, d.items);
    NothingToAnchorTo(w, w.order, additions, d.day, edited);
    if AllRemoved(w, d) && edited != [] {
      EditedComesFrom(fate, d.items, edited[0]);
    }
    if edited == [] {
      forall k | 0 <= k < |d.items|
        ensures
          var own := Target(d.day, Some(d.items[k].id));
          own in w.row && w.row[own].outcome == Remove
      {
        var x := Becomes(fate, d.items[k]);
        EditedComesFrom(fate, d.items, x);
        assert !TurnsInto(fate, d.items[k], x);
      }
    }
  }

  lemma NamedItem(base: Itinerary, t: Target) returns (k: nat)
    requires ValidItinerary(base) && Resolved(base, t) && t.itemId.Some?
    ensures base.days[t.day - 1].day == t.day && k < |base.days[t.day - 1].items|
    ensures t == Target(t.day, Some(base.days[t.day - 1].items[k].id))
  {
    k := IndexOf(ItemsOf(base, t.day), t.itemId.value).value;
  }

  lemma ItemRowIsSettledOnItsDay(
      w: Winners, scope: Scope, revisions: Revisions, additions: Additions, t: Target, d: Day, k: nat)
    requires forall u :: u in w.order ==> u in w.row
    requires t in w.row && CanSettle(t, w.row[t].outcome) && d.day in AffectedDays(scope)
    requires k < |d.items| && t == Target(d.day, Some(d.items[k].id))
    ensures if AllRemoved(w, d) then NewDay(w, scope, revisions, additions, d).1 == []
            else w.row[t].id in NewDay(w, scope, revisions, additions, d).1
  {
    FateOfGoverned(w, revisions, t, d.day, d.items[k]);
    SettlingRowsAre(Fates(w, revisions, d.day), d.items, w.row[t].id);
    DayEmpties(w, revisions, additions, d);
  }

  /** A row on one item is settled unless removals would empty its day; then it stays open. */
  lemma ItemRowIsAddressedUnlessDayEmpties(
      base: Itinerary, reqs: seq<Request>, report: seq<Conflict>, w: Winners, scope: Scope,
      revisions: Revisions, additions: Additions, t: Target)
    requires ValidItinerary(base) && AllResolved(base, reqs) && DistinctRows(reqs)
    requires AreWinners(reqs, report, w) && IsScopeOf(base, reqs, scope)
    requires t in w.row && t.itemId.Some? && CanSettle(t, w.row[t].outcome)
    ensures HasDay(base, t.day)
    ensures w.row[t].id in Addressed(base, w, scope, revisions, additions) <==> !AllRemoved(w, base.days[t.day - 1])
  {
    WinnersAreWellAimed(base, reqs, report, w);
    var k := NamedItem(base, t);
    TargetedDayIsAffected(base, reqs, scope, t, w.row[t], k);
    ItemRowIsSettledOnItsDay(w, scope, revisions, additions, t, base.days[t.day - 1], k);
    if w.row[t].id in Addressed(base, w, scope, revisions, additions) {
      AddressedAtHome(base, w, scope, revisions, additions, t);
    } else {
      AddressedSomewhere(base, w, scope, revisions, additions, w.row[t].id);
    }
  }

  lemma TargetedDayIsAffected(base: Itinerary, reqs: seq<Request>, scope: Scope, t: Target, row: Feedback, k: nat)
    requires IsScopeOf(base, reqs, scope) && Request(row, t) in reqs
    requires HasDay(base, t.day) && k < |ItemsOf(base, t.day)| && t.itemId == Some(ItemsOf(base, t.day)[k].id)
    ensures t.day in AffectedDays(scope)
  {
    var r :| 0 <= r < |reqs| && reqs[r] == Request(row, t);
    var items := ItemsOf(base, t.day);
    assert NextTo(items, k, k);
    assert Touches(items, t, k);
    assert TouchesId(items, reqs[r].target, items[k].id);
    assert TouchedBy(base, reqs, t.day, items[k].id);
    assert InScope(scope, t.day, items[k].id);
  }

  lemma NamedDayIsAffected(base: Itinerary, reqs: seq<Request>, scope: Scope, t: Target, row: Feedback)
    requires ValidItinerary(base) && IsScopeOf(base, reqs, scope) && Request(row, t) in reqs && Resolved(base, t)
    ensures t.day in AffectedDays(scope)
  {
    if t.itemId.Some? {
      var k := NamedItem(base, t);
      TargetedDayIsAffected(base, reqs, scope, t, row, k);
    } else {
      var r :| 0 <= r < |reqs| && reqs[r] == Request(row, t);
      assert NamedWhole(base, reqs, t.day);
    }
  }

  /** Every winning row's day is in scope. */
  ghost predicate TargetsInScope(w: Winners, scope: Scope) {
    forall t :: t in w.row ==> t.day in AffectedDays(scope)
  }

  lemma WinnersAreInScope(
      base: Itinerary, reqs: seq<Request>, report: seq<Conflict>, w: Winners, scope: Scope)
    requires ValidItinerary(base) && AllResolved(base, reqs) && DistinctRows(reqs)
    requires AreWinners(reqs, report, w) && IsScopeOf(base, reqs, scope)
    ensures WellAimed(base, w) && TargetsInScope(w, scope)
  {
    WinnersAreWellAimed(base, reqs, report, w);
    forall t | t in w.row
      ensures t.day in AffectedDays(scope)
    {
      NamedDayIsAffected(base, reqs, scope, t, w.row[t]);
    }
  }

  /** Some item of the day has no winning row of its own. */
  ghost predicate SomeUnclaimed(w: Winners, d: Day) {
    exists k :: 0 <= k < |d.items| && Target(d.day, Some(d.items[k].id)) !in w.row
  }

  /** An edit or retain row on a whole day is addressed exactly if some item is left to it. */
  lemma DayRowIsAddressedExactlyWhen(
      base: Itinerary, w: Winners, scope: Scope, revisions: Revisions, additions: Additions, t: Target)
    requires ValidItinerary(base) && WellAimed(base, w) && TargetsInScope(w, scope)
    requires t in w.row && t.itemId.None? && (w.row[t].outcome == Edit || w.row[t].outcome == Retain)
    ensures HasDay(base, t.day)
    ensures w.row[t].id in Addressed(base, w, scope, revisions, additions) <==> SomeUnclaimed(w, base.days[t.day - 1])
  {
    var d := base.days[t.day - 1];
    AddressedExactlyOnItsDay(base, w, scope, revisions, additions, t);
    if w.row[t].id in NewDay(w, scope, revisions, additions, d).1 {
      AddressedOnDay(base, w, scope, revisions, additions, t.day - 1, t);
    }
    if SomeUnclaimed(w, d) { UnclaimedItemSettles(w, scope, revisions, additions, t, d); }
  }

  lemma UnclaimedItemSettles(
      w: Winners, scope: Scope, revisions: Revisions, additions: Additions, t: Target, d: Day)
    requires forall u :: u in w.order ==> u in w.row
    requires t in w.row && t == Target(d.day, None) && CanSettle(t, w.row[t].outcome)
    requires d.day in AffectedDays(scope) && SomeUnclaimed(w, d)
    ensures w.row[t].id in NewDay(w, scope, revisions, additions, d).1
  {
    var k :| 0 <= k < |d.items| && Target(d.day, Some(d.items[k].id)) !in w.row;
    FateOfGoverned(w, revisions, t, d.day, d.items[k]);
    SettlingRowsAre(Fates(w, revisions, d.day), d.items, w.row[t].id);
    DayEmpties(w, revisions, additions, d);
  }

  /** The items of the day when the `i`-th target has its turn to insert. */
  function ItemsAtTurn(
      w: Winners, revisions: Revisions, additions: Additions, d: Day, i: nat): seq<Item>
    requires i <= |w.order| && forall t :: t in w.order ==> t in w.row
  {
    WithAdditions(w, w.order[..i], additions, d.day, Edited(Fates(w, revisions, d.day), d.items)).0
  }

  predicate InsertsAt(
      w: Winners, order: seq<Target>, additions: Additions, day: int, items: seq<Item>, i: nat)
    requires i < |order| && forall t :: t in order ==> t in w.row
  {
    Inserts(w, additions, day, order[i], WithAdditions(w, order[..i], additions, day, items).0)
  }

  lemma {:induction false} PassInsertsExactly(
      w: Winners, order: seq<Target>, additions: Additions, day: int, items: seq<Item>, id: string)
    requires forall t :: t in order ==> t in w.row
    ensures id in WithAdditions(w, order, additions, day, items).1 <==>
      exists i :: 0 <= i < |order| && w.row[order[i]].id == id && InsertsAt(w, order, additions, day, items, i)
  {
    if order != [] {
      var front, t := order[..|order| - 1], order[|order| - 1];
      PassInsertsExactly(w, front, additions, day, items, id);
      assert order == front + [t] && order[..|front|] == front;
      assert forall i :: 0 <= i < |front| ==> order[..i] == front[..i] && order[i] == front[i];
      assert forall i :: 0 <= i < |front| ==>
        (InsertsAt(w, order, additions, day, items, i) <==> InsertsAt(w, front, additions, day, items, i));
    }
  }

  lemma InsertedAtItsTurn(
      base: Itinerary, w: Winners, additions: Additions, day: int, items: seq<Item>, i: nat)
    requires WellAimed(base, w) && i < |w.order|
    ensures w.row[w.order[i]].id in WithAdditions(w, w.order, additions, day, items).1 <==>
      InsertsAt(w, w.order, additions, day, items, i)
  {
    var id := w.row[w.order[i]].id;
    PassInsertsExactly(w, w.order, additions, day, items, id);
    forall j | 0 <= j < |w.order| && w.row[w.order[j]].id == id
      ensures j == i
    {
      assert w.order[j] == w.order[i];
    }
  }

  lemma AdditionSettlesNothing(base: Itinerary, w: Winners, revisions: Revisions, d: Day, t: Target)
    requires WellAimed(base, w) && t in w.row && w.row[t].outcome == Add
    ensures w.row[t].id !in SettlingRows(Fates(w, revisions, d.day), d.items)
  {
    if w.row[t].id in SettlingRows(Fates(w, revisions, d.day), d.items) {
      SettlingRowHasTarget(w, revisions, d, w.row[t].id);
    }
  }

  lemma InsertedOnItsDay(
      base: Itinerary, w: Winners, scope: Scope, revisions: Revisions, additions: Additions, d: Day, i: nat)
    requires WellAimed(base, w) && i < |w.order| && w.row[w.order[i]].outcome == Add
    requires w.order[i].day == d.day && d.day in AffectedDays(scope)
    ensures
      var id := w.row[w.order[i]].id;
      id in NewDay(w, scope, revisions, additions, d).1 <==>
        CanInsert(ItemsAtTurn(w, revisions, additions, d, i), Drafted(additions, id))
  {
    var edited := Edited(Fates(w, revisions, d.day), d.items);
    InsertedAtItsTurn(base, w, additions, d.day, edited, i);
    AdditionSettlesNothing(base, w, revisions, d, w.order[i]);
    NothingToAnchorTo(w, w.order, additions, d.day, edited);
  }

  lemma AddressedExactlyOnItsDay(
      base: Itinerary, w: Winners, scope: Scope, revisions: Revisions, additions: Additions, t: Target)
    requires ValidItinerary(base) && WellAimed(base, w) && t in w.row
    ensures HasDay(base, t.day) && base.days[t.day - 1].day == t.day
    ensures w.row[t].id in Addressed(base, w, scope, revisions, additions) <==>
      w.row[t].id in NewDay(w, scope, revisions, additions, base.days[t.day - 1]).1
  {
    if w.row[t].id in Addressed(base, w, scope, revisions, additions) {
      AddressedAtHome(base, w, scope, revisions, additions, t);
    } else {
      AddressedSomewhere(base, w, scope, revisions, additions, w.row[t].id);
    }
  }

  lemma AddressedExactlyOnDay(
      base: Itinerary, w: Winners, scope: Scope, revisions: Revisions, additions: Additions, t: Target, d: Day)
    requires ValidItinerary(base) && WellAimed(base, w) && t in w.row && d in base.days && d.day == t.day
    ensures w.row[t].id in Addressed(base, w, scope, revisions, additions) <==>
      w.row[t].id in NewDay(w, scope, revisions, additions, d).1
  {
    AddressedExactlyOnItsDay(base, w, scope, revisions, additions, t);
    assert d == base.days[t.day - 1];
  }

  /** An addition is addressed exactly if, when its target has its turn, it has drafts, they fit,
      and every anchor is still there. */
  lemma AdditionIsAddressedExactlyWhen(
      base: Itinerary, w: Winners, scope: Scope, revisions: Revisions, additions: Additions, i: nat, d: Day)
    requires ValidItinerary(base) && WellAimed(base, w) && TargetsInScope(w, scope)
    requires i < |w.order| && w.row[w.order[i]].outcome == Add
    requires d in base.days && d.day == w.order[i].day
    ensures
      var id := w.row[w.order[i]].id;
      id in Addressed(base, w, scope, revisions, additions) <==>
        CanInsert(ItemsAtTurn(w, revisions, additions, d, i), Drafted(additions, id))
  {
    AddressedExactlyOnDay(base, w, scope, revisions, additions, w.order[i], d);
    InsertedOnItsDay(base, w, scope, revisions, additions, d, i);
  }

  // ----- Nothing is lost between addressed and open

  /** The open rows that were not addressed. */
  function StillOpen(openIds: seq<string>, addressed: seq<string>): seq<string> {
    if openIds == [] then []
    else
      var rest, last := StillOpen(openIds[..|openIds| - 1], addressed), openIds[|openIds| - 1];
      if last in addressed then rest else rest + [last]
  }

  lemma {:induction false} StillOpenCounts(openIds: seq<string>, addressed: seq<string>, x: string)
    ensures multiset(StillOpen(openIds, addressed))[x] == if x in addressed then 0 else multiset(openIds)[x]
  {
    if openIds != [] {
      var front, last := openIds[..|openIds| - 1], openIds[|openIds| - 1];
      StillOpenCounts(front, addressed, x);
      assert openIds == front + [last];
    }
  }

  /** The open feedback is exactly the addressed rows together with the unresolved ones. */
  lemma OpenFeedbackIsPartitioned(
      base: Itinerary, reqs: seq<Request>, report: seq<Conflict>, w: Winners, scope: Scope,
      revisions: Revisions, additions: Additions, openIds: seq<string>)
    requires AllResolved(base, reqs) && DistinctRows(reqs) && AreWinners(reqs, report, w)
    requires forall k :: 0 <= k < |reqs| ==> reqs[k].row.id in openIds
    requires forall x :: multiset(openIds)[x] <= 1
    ensures
      var addressed := Addressed(base, w, scope, revisions, additions);
      multiset(openIds) == multiset(addressed) + multiset(StillOpen(openIds, addressed))
  {
    WinnersAreWellAimed(base, reqs, report, w);
    var addressed := Addressed(base, w, scope, revisions, additions);
    forall x
      ensures multiset(openIds)[x] == (multiset(addressed) + multiset(StillOpen(openIds, addressed)))[x]
    {
      StillOpenCounts(openIds, addressed, x);
      if x in addressed {
        AddressedRowsAreWinners(base, w, scope, revisions, additions, x);
        var t :| t in w.row && w.row[t].id == x;
        assert Request(w.row[t], t) in reqs;
        assert x in multiset(openIds);
      } else {
        assert x !in multiset(addressed);
      }
    }
  }

  // ----- After a lost race

  function DayOf(it: Itinerary, day: int): Option<Day> {
    if HasDay(it, day) then Some(it.days[day - 1]) else None
  }

  /** The two versions agree on every day in scope. */
  ghost predicate SameInScope(base: Itinerary, latest: Itinerary, scope: Scope) {
    forall d :: d in AffectedDays(scope) ==> DayOf(base, d) == DayOf(latest, d)
  }

  method IndexDays(it: Itinerary) returns (byNumber: map<int, Day>)
    requires ValidItinerary(it)
    ensures forall d :: d in byNumber <==> HasDay(it, d)
    ensures forall d :: d in byNumber ==> DayOf(it, d) == Some(byNumber[d])
  {
    byNumber := map[];
    for n := 0 to |it.days|
      invariant forall d :: d in byNumber <==> 1 <= d <= n
      invariant forall d :: d in byNumber ==> byNumber[d] == it.days[d - 1]
    {
      byNumber := byNumber[it.days[n].day := it.days[n]];
    }
  }

  /** Walks the days in scope until one differs. */
  method ScopeContentDiffers(base: Itinerary, latest: Itinerary, scope: Scope) returns (differs: bool)
    requires ValidItinerary(base) && ValidItinerary(latest)
    ensures differs <==> !SameInScope(base, latest, scope)
  {
    var baseDays := IndexDays(base);
    var latestDays := IndexDays(latest);
    var left := AffectedDays(scope);
    while left != {}
      invariant left <= AffectedDays(scope)
      invariant forall d :: d in AffectedDays(scope) && d !in left ==> DayOf(base, d) == DayOf(latest, d)
      decreases left
    {
      var d := AnyOf(left);
      var before := if d in baseDays then Some(baseDays[d]) else None;
      var now := if d in latestDays then Some(latestDays[d]) else None;
      assert before == DayOf(base, d) && now == DayOf(latest, d);
      if before != now {
        return true;
      }
      left := left - {d};
    }
    return false;
  }

  /** What the applicability check reads besides the versions: the rows this refinement considered,
      those still open, and the locked selections, if the trip has a room. */
  datatype Circumstances<S> = Circumstances(
    feedbackIds: set<string>, openIds: set<string>, room: Option<(map<string, S>, map<string, S>)>)

  function Selected<S>(selections: map<string, S>, kind: string): Option<S> {
    if kind in selections then Some(selections[kind]) else None
  }

  /** A lost race's proposal is still worth retrying: its scope was left alone, some of its
      feedback is still open, and neither locked selection has changed. */
  ghost predicate Applicable<S>(base: Itinerary, latest: Itinerary, scope: Scope, c: Circumstances<S>) {
    && SameInScope(base, latest, scope)
    && (c.feedbackIds == {} || exists id :: id in c.feedbackIds && id in c.openIds)
    && (c.room.Some? ==> forall kind :: kind == "destination" || kind == "flight" ==>
          Selected(c.room.value.0, kind) == Selected(c.room.value.1, kind))
  }

  /** Decides it, ground by ground. */
  method IsStillApplicable<S(==)>(
      base: Itinerary, latest: Itinerary, scope: Scope, c: Circumstances<S>)
    returns (applicable: bool)
    requires ValidItinerary(base) && ValidItinerary(latest)
    ensures applicable <==> Applicable(base, latest, scope, c)
  {
    var differs := ScopeContentDiffers(base, latest, scope);
    if differs {
      return false;
    }
    if c.feedbackIds != {} && c.feedbackIds * c.openIds == {} {
      assert forall id :: id in c.feedbackIds && id in c.openIds ==> id in c.feedbackIds * c.openIds;
      return false;
    }
    if c.room.Some? {
      var kinds := ["destination", "flight"];
      for k := 0 to |kinds|
        invariant forall i :: 0 <= i < k ==>
          Selected(c.room.value.0, kinds[i]) == Selected(c.room.value.1, kinds[i])
      {
        if Selected(c.room.value.0, kinds[k]) != Selected(c.room.value.1, kinds[k]) {
          return false;
        }
      }
      assert kinds[0] == "destination" && kinds[1] == "flight";
    }
    if c.feedbackIds != {} {
      var id :| id in c.feedbackIds * c.openIds;
      assert id in c.feedbackIds && id in c.openIds;
    }
    return true;
  }

  lemma SameBaseWhenSamePlan(
      base: Itinerary, latest: Itinerary, w: Winners, scope: Scope, revisions: Revisions, additions: Additions,
      days: seq<Day>)
    requires ValidItinerary(base) && ValidItinerary(latest) && forall t :: t in w.order ==> t in w.row
    requires SameInScope(base, latest, scope)
    requires |days| == |base.days| == |latest.days|
    requires forall n :: 0 <= n < |days| ==> days[n] == NewDay(w, scope, revisions, additions, base.days[n]).0
    requires forall n :: 0 <= n < |days| ==> days[n] == NewDay(w, scope, revisions, additions, latest.days[n]).0
    ensures base.days == latest.days
  {
  }

  /** A retry re-inserts the plan built from the old base. Even when it is still applicable, that
      is the plan the same feedback would give on the latest version only if the winner of the
      race changed nothing at all: a change outside the scope is undone. */
  lemma RetryMatchesLatestExactlyWhen(
      base: Itinerary, latest: Itinerary, w: Winners, scope: Scope, revisions: Revisions, additions: Additions)
    requires ValidItinerary(base) && ValidItinerary(latest) && forall t :: t in w.order ==> t in w.row
    requires SameInScope(base, latest, scope)
    ensures NewPlan(base, w, scope, revisions, additions) == NewPlan(latest, w, scope, revisions, additions)
      <==> base == latest
  {
    if NewPlan(base, w, scope, revisions, additions) == NewPlan(latest, w, scope, revisions, additions) {
      var days := NewPlan(base, w, scope, revisions, additions).days;
      DayByDay(w, scope, revisions, additions, base.days);
      DayByDay(w, scope, revisions, additions, latest.days);
      SameBaseWhenSamePlan(base, latest, w, scope, revisions, additions, days);
    }
  }

  function OneItemDay(day: int, id: string, title: string): Day {
    Day(day, None, [Item(id, title, None, None, None, None, [], None)])
  }

  function TwoDayPlan(title: string): Itinerary {
    Itinerary("", [OneItemDay(1, "a", "Museum"), OneItemDay(2, "b", title)])
  }

  lemma TwoDayPlanIsValid(title: string)
    requires title != ""
    ensures ValidItinerary(TwoDayPlan(title))
  {
    var days := TwoDayPlan(title).days;
    assert IdList(days[0].items) == ["a"] && IdList(days[1].items) == ["b"];
    assert ValidDay(days[0]) && ValidDay(days[1]);
  }

  /** One row, asking for longer at the museum on day 1. */
  const LONGER_VISIT := Feedback("row", "A longer visit, please", Edit, 0, {})
  const ON_DAY_ONE := [Request(LONGER_VISIT, Target(1, None))]
  const DAY_ONE := Scope({1}, map[1 := {"a"}])

  lemma TouchedOnDayOne(title: string, day: int, x: string)
    ensures TouchedBy(TwoDayPlan(title), ON_DAY_ONE, day, x) <==> day == 1 && x == "a"
  {
    var it := TwoDayPlan(title);
    if day == 1 && x == "a" {
      assert ItemsOf(it, 1)[0].id == "a" && Touches(ItemsOf(it, 1), ON_DAY_ONE[0].target, 0);
      assert TouchesId(ItemsOf(it, 1), ON_DAY_ONE[0].target, x);
    }
  }

  lemma ScopeIsDayOne(title: string)
    ensures AllResolved(TwoDayPlan(title), ON_DAY_ONE) && DistinctRows(ON_DAY_ONE)
    ensures IsScopeOf(TwoDayPlan(title), ON_DAY_ONE, DAY_ONE)
  {
    forall d, x ensures InScope(DAY_ONE, d, x) <==> TouchedBy(TwoDayPlan(title), ON_DAY_ONE, d, x) {
      TouchedOnDayOne(title, d, x);
    }
    assert ON_DAY_ONE[0].target == Target(1, None);
  }

  /** A single row conflicts with nothing, and wins. */
  lemma LoneRowWins()
    ensures IsReport(ON_DAY_ONE, [])
    ensures WinnersOf(ON_DAY_ONE, []).order == [Target(1, None)]
    ensures WinnersOf(ON_DAY_ONE, []).row == map[Target(1, None) := LONGER_VISIT]
  {
    assert ON_DAY_ONE[..0] == [];
    assert TargetsOf(ON_DAY_ONE) == [Target(1, None)];
    assert RowsFor(ON_DAY_ONE, Target(1, None)) == [LONGER_VISIT];
  }

  /** The race was won by somebody who renamed something on day 2. A retry of feedback on day 1 is
      applicable, its feedback open and the selections unchanged, and puts the old name back. */
  lemma RetryCanUndoTheWinnersChange<S>(
      revisions: Revisions, additions: Additions, selections: map<string, S>)
    ensures
      var base, latest, w := TwoDayPlan("Beach"), TwoDayPlan("Harbour"), WinnersOf(ON_DAY_ONE, []);
      && ValidItinerary(base) && ValidItinerary(latest)
      && AllResolved(base, ON_DAY_ONE) && DistinctRows(ON_DAY_ONE) && IsReport(ON_DAY_ONE, [])
      && IsScopeOf(base, ON_DAY_ONE, DAY_ONE)
      && Applicable(base, latest, DAY_ONE, Circumstances({"row"}, {"row"}, Some((selections, selections))))
      && var plan := NewPlan(base, w, DAY_ONE, revisions, additions);
         |plan.days| == 2 && plan.days[1] == base.days[1] && plan.days[1] != latest.days[1]
  {
    var base, w := TwoDayPlan("Beach"), WinnersOf(ON_DAY_ONE, []);
    TwoDayPlanIsValid("Beach");
    TwoDayPlanIsValid("Harbour");
    ScopeIsDayOne("Beach");
    LoneRowWins();
    OtherDaysAreIdentical(base, w, DAY_ONE, revisions, additions, 1);
    assert OneItemDay(2, "b", "Beach").items[0].title == "Beach";
    assert OneItemDay(2, "b", "Harbour").items[0].title == "Harbour";
  }
}

/** Whether a day is in time order once drafted activities have gone in (`draft_activity_additions`
    and `regenerate_affected_only` in backend/app/agents/nodes/negotiation.py). */
module TimeOrder {
  import opened Wrappers
  import opened Sorting
  import opened Itineraries
  import opened Conflicts
  import opened Regeneration
  import opened RegenerationFacts
  import opened Refinement
  import opened Accounting
  import opened Drafting = Additions

  // ----- Time order

  predicate IsClock(item: Item) {
    item.time.Some? && item.time.value.Clock?
  }

  function Minutes(item: Item): nat
    requires IsClock(item)
  {
    item.time.value.minutes
  }

  predicate Earlier(x: Item, y: Item) {
    IsClock(x) && IsClock(y) && Minutes(x) < Minutes(y)
  }

  ghost predicate AllEarlier(a: seq<Item>, b: seq<Item>) {
    forall x, y :: x in a && y in b ==> Earlier(x, y)
  }

  /** Every item has a clock time, and each is later than the ones before it. */
  ghost predicate InTimeOrder(items: seq<Item>) {
    && (forall k :: 0 <= k < |items| ==> IsClock(items[k]))
    && forall i, j :: 0 <= i < j < |items| ==> Earlier(items[i], items[j])
  }

  lemma OrderOfConcat(a: seq<Item>, b: seq<Item>)
    ensures InTimeOrder(a + b) <==> InTimeOrder(a) && InTimeOrder(b) && AllEarlier(a, b)
  {
    var all := a + b;
    assert forall k :: 0 <= k < |a| ==> all[k] == a[k];
    assert forall k :: 0 <= k < |b| ==> all[|a| + k] == b[k];
    if InTimeOrder(all) {
      forall x, y | x in a && y in b
        ensures Earlier(x, y)
      {
        var i :| 0 <= i < |a| && a[i] == x;
        var j :| 0 <= j < |b| && b[j] == y;
        assert Earlier(all[i], all[|a| + j]);
      }
      forall i, j | 0 <= i < j < |b|
        ensures Earlier(b[i], b[j])
      {
        assert Earlier(all[|a| + i], all[|a| + j]);
      }
    }
    if InTimeOrder(a) && InTimeOrder(b) && AllEarlier(a, b) {
      forall i, j | 0 <= i < j < |all|
        ensures Earlier(all[i], all[j])
      {
        if i < |a| <= j { assert all[i] in a && all[j] in b; }
      }
    }
  }

  lemma DifferentTimes(items: seq<Item>, x: Item, y: Item)
    requires InTimeOrder(items) && x in items && y in items && x != y
    ensures IsClock(x) && IsClock(y) && Minutes(x) != Minutes(y)
  {
    var i :| 0 <= i < |items| && items[i] == x;
    var j :| 0 <= j < |items| && items[j] == y;
    assert Earlier(items[i], items[j]) || Earlier(items[j], items[i]);
  }

  // ----- Drafts in their gaps

  predicate HasAnchor(items: seq<Item>, a: Addition) {
    IndexOf(items, a.anchor).Some?
  }

  function GapOf(items: seq<Item>, a: Addition): nat
    requires HasAnchor(items, a)
  {
    Gap(IndexOf(items, a.anchor).value, a.placement)
  }

  /** The draft hangs on an item of the day and fits the time between its new neighbours. */
  predicate Fitting(items: seq<Item>, a: Addition) {
    HasAnchor(items, a) && IsClock(a.item) && FitsGap(items, GapOf(items, a), Minutes(a.item))
  }

  ghost predicate AllFitting(items: seq<Item>, drafted: seq<Addition>) {
    forall a :: a in drafted ==> Fitting(items, a)
  }

  /** Two drafts for the same gap: different times, and what follows the left neighbour is earlier
      than what precedes the right one. */
  predicate Agree(items: seq<Item>, a: Addition, b: Addition)
    requires Fitting(items, a) && Fitting(items, b)
  {
    GapOf(items, a) == GapOf(items, b) ==>
      && Minutes(a.item) != Minutes(b.item)
      && (a.placement == AfterAnchor && b.placement == BeforeAnchor ==> Minutes(a.item) < Minutes(b.item))
  }

  ghost predicate DraftsInOrder(items: seq<Item>, drafted: seq<Addition>)
    requires AllFitting(items, drafted)
  {
    forall a, b :: a in drafted && b in drafted && a != b ==> Agree(items, a, b)
  }

  ghost predicate NoDuplicates(drafted: seq<Addition>) {
    forall i, j :: 0 <= i < j < |drafted| ==> drafted[i] != drafted[j]
  }

  lemma IndexOfItem(items: seq<Item>, m: nat)
    requires NoRepeats(items) && m < |items|
    ensures IndexOf(items, items[m].id) == Some(m)
  {
    IdNamesOnePosition(items, IndexOf(items, items[m].id).value, m);
  }

  /** A draft inserted beside item `m` lies in time between its new neighbours. */
  lemma DraftBetween(items: seq<Item>, drafted: seq<Addition>, m: nat, side: Placement, x: Item)
    requires NoRepeats(items) && InTimeOrder(items) && AllFitting(items, drafted) && m < |items|
    requires x in At(drafted, items[m].id, side)
    ensures Addition(items[m].id, side, x) in drafted && GapOf(items, Addition(items[m].id, side, x)) == Gap(m, side)
    ensures side == BeforeAnchor ==> Earlier(x, items[m]) && (m > 0 ==> Earlier(items[m - 1], x))
    ensures side == AfterAnchor ==> Earlier(items[m], x) && (m + 1 < |items| ==> Earlier(x, items[m + 1]))
  {
    AtHas(drafted, items[m].id, side, x);
    IndexOfItem(items, m);
    var a := Addition(items[m].id, side, x);
    assert Fitting(items, a);
  }

  predicate IsAt(a: Addition, anchor: string, side: Placement) {
    a.anchor == anchor && a.placement == side
  }

  /** The drafts on one side of one item are listed in time order. */
  ghost predicate ListedInOrder(drafted: seq<Addition>, anchor: string, side: Placement) {
    && (forall k :: 0 <= k < |drafted| && IsAt(drafted[k], anchor, side) ==> IsClock(drafted[k].item))
    && forall i, j :: 0 <= i < j < |drafted| && IsAt(drafted[i], anchor, side) && IsAt(drafted[j], anchor, side) ==>
         Earlier(drafted[i].item, drafted[j].item)
  }

  lemma {:induction false} AtInOrder(drafted: seq<Addition>, anchor: string, side: Placement)
    requires ListedInOrder(drafted, anchor, side)
    ensures InTimeOrder(At(drafted, anchor, side))
  {
    if drafted != [] {
      var front, last := drafted[..|drafted| - 1], drafted[|drafted| - 1];
      AtInOrder(front, anchor, side);
      if IsAt(last, anchor, side) {
        forall x | x in At(front, anchor, side)
          ensures Earlier(x, last.item)
        {
          AtHas(front, anchor, side, x);
          var k :| 0 <= k < |front| && front[k] == Addition(anchor, side, x);
          assert drafted[k] == front[k];
        }
        OrderOfConcat(At(front, anchor, side), [last.item]);
      }
    }
  }

  lemma SortedIsListedInOrder(items: seq<Item>, drafted: seq<Addition>, anchor: string, side: Placement)
    requires AllFitting(items, drafted) && DraftsInOrder(items, drafted)
    requires Sorted(drafted, NotLater) && NoDuplicates(drafted)
    ensures ListedInOrder(drafted, anchor, side)
  {
    forall k | 0 <= k < |drafted|
      ensures Fitting(items, drafted[k])
    {
      assert drafted[k] in drafted;
    }
    forall i, j | 0 <= i < j < |drafted| && IsAt(drafted[i], anchor, side) && IsAt(drafted[j], anchor, side)
      ensures Earlier(drafted[i].item, drafted[j].item)
    {
      assert drafted[i] in drafted && drafted[j] in drafted && drafted[i] != drafted[j];
      assert Agree(items, drafted[i], drafted[j]) && NotLater(drafted[i], drafted[j]);
    }
  }

  // ----- The day, item by item

  lemma OneMoreBlock(items: seq<Item>, drafted: seq<Addition>, n: nat)
    requires n < |items|
    ensures Around(items[..n + 1], drafted) == Around(items[..n], drafted) + Block(drafted, items[n])
  {
    assert items[..n + 1][..n] == items[..n];
    AroundLast(items[..n + 1], drafted);
  }

  /** Everything up to item `n` is no later than item `n`, or was drafted to come after it. */
  lemma {:induction false} UpToItem(items: seq<Item>, drafted: seq<Addition>, n: nat, x: Item)
    requires NoRepeats(items) && InTimeOrder(items) && AllFitting(items, drafted) && n < |items|
    requires x in Around(items[..n + 1], drafted)
    ensures x == items[n] || Earlier(x, items[n]) || x in At(drafted, items[n].id, AfterAnchor)
  {
    OneMoreBlock(items, drafted, n);
    if x in At(drafted, items[n].id, BeforeAnchor) {
      DraftBetween(items, drafted, n, BeforeAnchor, x);
    } else if x in Around(items[..n], drafted) {
      if n > 0 {
        UpToItem(items, drafted, n - 1, x);
        assert Earlier(items[n - 1], items[n]);
        if x in At(drafted, items[n - 1].id, AfterAnchor) {
          DraftBetween(items, drafted, n - 1, AfterAnchor, x);
        }
      }
    }
  }

  lemma BlockInOrder(items: seq<Item>, drafted: seq<Addition>, n: nat)
    requires NoRepeats(items) && InTimeOrder(items) && AllFitting(items, drafted) && n < |items|
    ensures
      var before, after := At(drafted, items[n].id, BeforeAnchor), At(drafted, items[n].id, AfterAnchor);
      InTimeOrder(Block(drafted, items[n])) <==> InTimeOrder(before) && InTimeOrder(after)
  {
    var before, after := At(drafted, items[n].id, BeforeAnchor), At(drafted, items[n].id, AfterAnchor);
    forall x | x in before ensures Earlier(x, items[n]) { DraftBetween(items, drafted, n, BeforeAnchor, x); }
    forall x | x in after ensures Earlier(items[n], x) { DraftBetween(items, drafted, n, AfterAnchor, x); }
    OrderOfConcat([items[n]], after);
    OrderOfConcat(before, [items[n]] + after);
  }

  /** What stands before item `n` and its drafts is earlier than they are. */
  lemma EarlierThanBlock(items: seq<Item>, drafted: seq<Addition>, n: nat, x: Item, y: Item)
    requires NoRepeats(items) && InTimeOrder(items) && AllFitting(items, drafted) && DraftsInOrder(items, drafted)
    requires n < |items| && x in Around(items[..n], drafted) && y in Block(drafted, items[n])
    ensures Earlier(x, y)
  {
    assert n > 0;
    UpToItem(items, drafted, n - 1, x);
    assert Earlier(items[n - 1], items[n]);
    if x in At(drafted, items[n - 1].id, AfterAnchor) { DraftBetween(items, drafted, n - 1, AfterAnchor, x); }
    if y in At(drafted, items[n].id, BeforeAnchor) {
      DraftBetween(items, drafted, n, BeforeAnchor, y);
      if x in At(drafted, items[n - 1].id, AfterAnchor) {
        assert Agree(items, Addition(items[n - 1].id, AfterAnchor, x), Addition(items[n].id, BeforeAnchor, y));
      }
    } else if y in At(drafted, items[n].id, AfterAnchor) {
      DraftBetween(items, drafted, n, AfterAnchor, y);
    }
  }

  lemma {:induction false} AroundInOrder(items: seq<Item>, drafted: seq<Addition>, n: nat)
    requires NoRepeats(items) && InTimeOrder(items) && AllFitting(items, drafted) && DraftsInOrder(items, drafted)
    requires Sorted(drafted, NotLater) && NoDuplicates(drafted) && n <= |items|
    ensures InTimeOrder(Around(items[..n], drafted))
  {
    if n > 0 {
      var item := items[n - 1];
      AroundInOrder(items, drafted, n - 1);
      OneMoreBlock(items, drafted, n - 1);
      SortedIsListedInOrder(items, drafted, item.id, BeforeAnchor);
      SortedIsListedInOrder(items, drafted, item.id, AfterAnchor);
      AtInOrder(drafted, item.id, BeforeAnchor);
      AtInOrder(drafted, item.id, AfterAnchor);
      BlockInOrder(items, drafted, n - 1);
      forall x, y | x in Around(items[..n - 1], drafted) && y in Block(drafted, item)
        ensures Earlier(x, y)
      {
        EarlierThanBlock(items, drafted, n - 1, x, y);
      }
      OrderOfConcat(Around(items[..n - 1], drafted), Block(drafted, item));
    }
  }

  lemma {:induction false} PrefixInOrder(items: seq<Item>, drafted: seq<Addition>, n: nat)
    requires n <= |items| && InTimeOrder(Around(items, drafted))
    ensures InTimeOrder(Around(items[..n], drafted))
    decreases |items| - n
  {
    if n < |items| {
      PrefixInOrder(items, drafted, n + 1);
      OneMoreBlock(items, drafted, n);
      OrderOfConcat(Around(items[..n], drafted), Block(drafted, items[n]));
    } else {
      assert items[..n] == items;
    }
  }

  lemma BlockOfOrdered(items: seq<Item>, drafted: seq<Addition>, n: nat)
    requires n < |items| && InTimeOrder(Around(items, drafted))
    ensures InTimeOrder(Block(drafted, items[n])) && AllEarlier(Around(items[..n], drafted), Block(drafted, items[n]))
  {
    PrefixInOrder(items, drafted, n + 1);
    OneMoreBlock(items, drafted, n);
    OrderOfConcat(Around(items[..n], drafted), Block(drafted, items[n]));
  }

  /** If the day came out in order, any two drafts for one gap agree. */
  lemma OrderedDraftsAgree(items: seq<Item>, drafted: seq<Addition>, a: Addition, b: Addition)
    requires NoRepeats(items) && InTimeOrder(items) && AllFitting(items, drafted)
    requires InTimeOrder(Around(items, drafted)) && a in drafted && b in drafted && a != b
    ensures Agree(items, a, b)
  {
    if GapOf(items, a) == GapOf(items, b) {
      var m, n := IndexOf(items, a.anchor).value, IndexOf(items, b.anchor).value;
      AtHas(drafted, a.anchor, a.placement, a.item);
      AtHas(drafted, b.anchor, b.placement, b.item);
      assert a.item in Block(drafted, items[m]) && b.item in Block(drafted, items[n]);
      BlockOfOrdered(items, drafted, m);
      BlockOfOrdered(items, drafted, n);
      if m == n {
        DifferentTimes(Block(drafted, items[m]), a.item, b.item);
      } else if m < n {
        OneMoreBlock(items, drafted, m);
        assert n == m + 1 && a.item in Around(items[..n], drafted);
        assert Earlier(a.item, b.item);
      } else {
        OneMoreBlock(items, drafted, n);
        assert m == n + 1 && b.item in Around(items[..m], drafted);
        assert Earlier(b.item, a.item);
      }
    }
  }

  // ----- The whole draft list

  lemma SortedDrafts(items: seq<Item>, drafted: seq<Addition>)
    requires AllFitting(items, drafted) && NoDuplicates(drafted)
    ensures
      var sorted := SortBy(drafted, NotLater);
      && Sorted(sorted, NotLater) && NoDuplicates(sorted) && AllFitting(items, sorted)
      && (DraftsInOrder(items, sorted) <==> DraftsInOrder(items, drafted))
  {
    var sorted := SortBy(drafted, NotLater);
    NotLaterIsTotal();
    SortBySorts(drafted, NotLater);
    SortByPermutes(drafted, NotLater);
    SameElements(sorted, drafted);
    forall i, j | 0 <= i < j < |sorted|
      ensures sorted[i] != sorted[j]
    {
      if sorted[i] == sorted[j] { TwiceInMultiset(sorted, i, j); }
      assert sorted[i] in drafted;
      var k :| 0 <= k < |drafted| && drafted[k] == sorted[i];
      OnceInMultiset(drafted, k);
    }
  }

  lemma NotLaterIsTotal()
    ensures IsTotal(NotLater)
  {
  }

  /** Into a day in time order, drafts that fit their gaps leave it in time order exactly if any two
      of them for the same gap agree. */
  lemma InsertionKeepsTimeOrderExactlyWhen(items: seq<Item>, drafted: seq<Addition>)
    requires NoRepeats(items) && InTimeOrder(items) && AllFitting(items, drafted) && NoDuplicates(drafted)
    ensures InTimeOrder(Around(items, SortBy(drafted, NotLater))) <==> DraftsInOrder(items, drafted)
  {
    var sorted := SortBy(drafted, NotLater);
    SortedDrafts(items, drafted);
    if DraftsInOrder(items, sorted) {
      AroundInOrder(items, sorted, |items|);
      assert items[..|items|] == items;
    }
    if InTimeOrder(Around(items, sorted)) {
      forall a, b | a in sorted && b in sorted && a != b
        ensures Agree(items, a, b)
      {
        OrderedDraftsAgree(items, sorted, a, b);
      }
    }
  }

  /** The same condition on a row's drafted entries, before they are accepted. */
  ghost predicate EntriesInOrder(items: seq<Item>, entries: seq<Draft>) {
    forall i, j :: 0 <= i < |entries| && 0 <= j < |entries| && i != j ==> EntriesAgree(items, entries[i], entries[j])
  }

  predicate EntriesAgree(items: seq<Item>, e: Draft, f: Draft) {
    var m, n := IndexOf(items, e.anchor), IndexOf(items, f.anchor);
    m.Some? && n.Some? && Gap(m.value, e.placement) == Gap(n.value, f.placement) ==>
      && e.minutes != f.minutes
      && (e.placement == AfterAnchor && f.placement == BeforeAnchor ==> e.minutes < f.minutes)
  }

  lemma PreparedFits(
      existing: set<string>, naming: Naming, items: seq<Item>, t: Target, row: Feedback, entries: seq<Draft>)
    requires NamesApart(naming) && AllAcceptable(existing, naming, items, t, row, entries)
    ensures
      var drafted := PrepareAll(naming, t, row, entries);
      && AllFitting(items, drafted) && NoDuplicates(drafted)
      && (DraftsInOrder(items, drafted) <==> EntriesInOrder(items, entries))
  {
    var drafted := PrepareAll(naming, t, row, entries);
    forall a | a in drafted
      ensures Fitting(items, a)
    {
      var k :| 0 <= k < |drafted| && drafted[k] == a;
      assert Acceptable(existing, naming, items, t, row, entries[k], k);
    }
    forall i, j | 0 <= i < j < |drafted|
      ensures drafted[i] != drafted[j]
    {
      assert drafted[i].item.id == naming(t.day, row.id, i) && drafted[j].item.id == naming(t.day, row.id, j);
    }
    forall i, j | 0 <= i < |entries| && 0 <= j < |entries| && i != j
      ensures drafted[i] in drafted && drafted[j] in drafted && drafted[i] != drafted[j]
      ensures Agree(items, drafted[i], drafted[j]) <==> EntriesAgree(items, entries[i], entries[j])
    {
      if i < j { assert drafted[i] != drafted[j]; } else { assert drafted[j] != drafted[i]; }
    }
  }

  /** A row's accepted drafts leave a day in time order in time order exactly if, in each gap, their
      times differ and those after the left neighbour precede those before the right one. */
  lemma AcceptedDraftsKeepTimeOrderExactlyWhen(
      existing: set<string>, naming: Naming, items: seq<Item>, t: Target, row: Feedback, entries: seq<Draft>)
    requires NoRepeats(items) && InTimeOrder(items) && NamesApart(naming)
    requires AllAcceptable(existing, naming, items, t, row, entries)
    ensures InTimeOrder(Around(items, SortBy(PrepareAll(naming, t, row, entries), NotLater))) <==>
      EntriesInOrder(items, entries)
  {
    PreparedFits(existing, naming, items, t, row, entries);
    InsertionKeepsTimeOrderExactlyWhen(items, PrepareAll(naming, t, row, entries));
  }

  /** A single draft, which is the usual case, always does. */
  lemma OneAdditionKeepsTimeOrder(
      existing: set<string>, naming: Naming, items: seq<Item>, t: Target, row: Feedback, entry: Draft)
    requires NoRepeats(items) && InTimeOrder(items) && Acceptable(existing, naming, items, t, row, entry, 0)
    ensures InTimeOrder(Around(items, [Prepare(naming, t, row, entry, 0)]))
  {
    var a := Prepare(naming, t, row, entry, 0);
    assert Fitting(items, a);
    InsertionKeepsTimeOrderExactlyWhen(items, [a]);
    assert [a][..0] == [] && SortBy([a], NotLater) == [a];
  }

  // ----- All rows of a day

  /** The drafts fit their gaps, and any two for the same gap agree. */
  ghost predicate FitInOrder(items: seq<Item>, drafted: seq<Addition>) {
    AllFitting(items, drafted) && DraftsInOrder(items, drafted)
  }

  /** Taking the drafts out again leaves the order as it is. */
  lemma {:induction false} OldItemsInOrder(items: seq<Item>, drafted: seq<Addition>, n: nat)
    requires n <= |items| && InTimeOrder(Around(items, drafted))
    ensures InTimeOrder(items[..n])
  {
    if n > 0 {
      OldItemsInOrder(items, drafted, n - 1);
      BlockOfOrdered(items, drafted, n - 1);
      BlockHas(drafted, items[n - 1]);
      forall x, y | x in items[..n - 1] && y in [items[n - 1]]
        ensures Earlier(x, y)
      {
        AroundKeeps(items[..n - 1], drafted, x);
      }
      assert items[..n] == items[..n - 1] + [items[n - 1]];
      ClockInOrder(Block(drafted, items[n - 1]), items[n - 1]);
      OrderOfConcat(items[..n - 1], [items[n - 1]]);
    }
  }

  lemma BlockHas(drafted: seq<Addition>, item: Item)
    ensures item in Block(drafted, item)
    ensures forall x :: x in At(drafted, item.id, BeforeAnchor) || x in At(drafted, item.id, AfterAnchor) ==>
      x in Block(drafted, item)
  {
    assert item in [item] + At(drafted, item.id, AfterAnchor);
  }

  lemma ClockInOrder(items: seq<Item>, x: Item)
    requires InTimeOrder(items) && x in items
    ensures IsClock(x)
  {
  }

  lemma OrderedBefore(items: seq<Item>, drafted: seq<Addition>, m: nat, x: Item)
    requires InTimeOrder(Around(items, drafted)) && m < |items| && x in At(drafted, items[m].id, BeforeAnchor)
    ensures Earlier(x, items[m]) && (m > 0 ==> Earlier(items[m - 1], x))
  {
    BlockOfOrdered(items, drafted, m);
    OrderOfConcat(At(drafted, items[m].id, BeforeAnchor), [items[m]] + At(drafted, items[m].id, AfterAnchor));
    assert items[m] in [items[m]] + At(drafted, items[m].id, AfterAnchor);
    BlockHas(drafted, items[m]);
    if m > 0 { AroundKeeps(items[..m], drafted, items[m - 1]); }
  }

  lemma OrderedAfter(items: seq<Item>, drafted: seq<Addition>, m: nat, x: Item)
    requires InTimeOrder(Around(items, drafted)) && m < |items| && x in At(drafted, items[m].id, AfterAnchor)
    ensures Earlier(items[m], x) && (m + 1 < |items| ==> Earlier(x, items[m + 1]))
  {
    var before, after := At(drafted, items[m].id, BeforeAnchor), At(drafted, items[m].id, AfterAnchor);
    BlockOfOrdered(items, drafted, m);
    OrderOfConcat(before, [items[m]] + after);
    OrderOfConcat([items[m]], after);
    if m + 1 < |items| {
      BlockOfOrdered(items, drafted, m + 1);
      BlockHas(drafted, items[m]);
      BlockHas(drafted, items[m + 1]);
      OneMoreBlock(items, drafted, m);
    }
  }

  /** In a day that came out in order, each draft lies between the two items around its gap. */
  lemma OrderedDraftFits(items: seq<Item>, drafted: seq<Addition>, a: Addition)
    requires InTimeOrder(Around(items, drafted)) && a in drafted && HasAnchor(items, a)
    ensures Fitting(items, a)
  {
    var m := IndexOf(items, a.anchor).value;
    AtHas(drafted, a.anchor, a.placement, a.item);
    match a.placement
    case BeforeAnchor => OrderedBefore(items, drafted, m, a.item);
    case AfterAnchor => OrderedAfter(items, drafted, m, a.item);
  }

  /** After inserting drafts whose anchors are all there, a day is in time order exactly if it was
      before, the drafts fit their gaps, and any two for the same gap agree. */
  lemma DayInTimeOrderExactlyWhen(items: seq<Item>, drafted: seq<Addition>)
    requires NoRepeats(items) && NoDuplicates(drafted) && forall a :: a in drafted ==> HasAnchor(items, a)
    ensures InTimeOrder(Around(items, SortBy(drafted, NotLater))) <==> InTimeOrder(items) && FitInOrder(items, drafted)
  {
    var sorted := SortBy(drafted, NotLater);
    if InTimeOrder(Around(items, sorted)) {
      OldItemsInOrder(items, sorted, |items|);
      assert items[..|items|] == items;
      SortByPermutes(drafted, NotLater);
      SameElements(sorted, drafted);
      forall a | a in drafted
        ensures Fitting(items, a)
      {
        OrderedDraftFits(items, sorted, a);
      }
    }
    if InTimeOrder(items) && AllFitting(items, drafted) {
      InsertionKeepsTimeOrderExactlyWhen(items, drafted);
    }
  }

  lemma DraftsDiffer(drafted: seq<Addition>)
    requires forall x :: multiset(NewIds(drafted))[x] <= 1
    ensures NoDuplicates(drafted)
  {
    var ids := NewIds(drafted);
    forall i, j | 0 <= i < j < |drafted|
      ensures drafted[i] != drafted[j]
    {
      if drafted[i] == drafted[j] {
        assert ids[i] == AdditionId(drafted[i]) && ids[j] == AdditionId(drafted[j]);
        TwiceInMultiset(ids, i, j);
      }
    }
  }

  /** If the `i`-th row inserts at its turn, its drafts fit the day as it then stands. */
  ghost predicate FitsAtTurn(
      w: Winners, order: seq<Target>, additions: Additions, day: int, items: seq<Item>, i: nat)
    requires i < |order| && forall t :: t in order ==> t in w.row
  {
    InsertsAt(w, order, additions, day, items, i) ==>
      FitInOrder(WithAdditions(w, order[..i], additions, day, items).0, Drafted(additions, w.row[order[i]].id))
  }

  /** Every row that inserts fits at its turn: the last one, and those before it. */
  ghost predicate AllFitAtTurn(w: Winners, order: seq<Target>, additions: Additions, day: int, items: seq<Item>)
    requires forall t :: t in order ==> t in w.row
  {
    order == [] ||
    (&& AllFitAtTurn(w, order[..|order| - 1], additions, day, items)
     && FitsAtTurn(w, order, additions, day, items, |order| - 1))
  }

  lemma LastTurn(w: Winners, order: seq<Target>, additions: Additions, day: int, items: seq<Item>)
    requires DistinctRowIds(w, order) && order != [] && NewIdsDistinct(additions)
    requires NoRepeats(WithAdditions(w, order[..|order| - 1], additions, day, items).0)
    ensures
      InTimeOrder(WithAdditions(w, order, additions, day, items).0) <==>
        && InTimeOrder(WithAdditions(w, order[..|order| - 1], additions, day, items).0)
        && FitsAtTurn(w, order, additions, day, items, |order| - 1)
  {
    var front, t := order[..|order| - 1], order[|order| - 1];
    var sofar := WithAdditions(w, front, additions, day, items).0;
    if Inserts(w, additions, day, t, sofar) {
      var drafted := Drafted(additions, w.row[t].id);
      DraftsDiffer(drafted);
      forall a | a in drafted
        ensures HasAnchor(sofar, a)
      {
        IdsHas(sofar, a.anchor);
      }
      DayInTimeOrderExactlyWhen(sofar, drafted);
    }
  }

  /** However many rows add to a day, it comes out in time order exactly if it went in so, and every
      row's drafts fit the day as it stands when that row has its turn. */
  lemma {:induction false} PassKeepsTimeOrderExactlyWhen(
      w: Winners, order: seq<Target>, additions: Additions, day: int, items: seq<Item>)
    requires DistinctRowIds(w, order) && NewIdsDistinct(additions) && NoNewIds(additions, items)
    requires NoRepeats(items) && |items| <= MAX_ITEMS_PER_DAY
    ensures InTimeOrder(WithAdditions(w, order, additions, day, items).0) <==>
      InTimeOrder(items) && AllFitAtTurn(w, order, additions, day, items)
  {
    if order != [] {
      var front := order[..|order| - 1];
      PassKeepsTimeOrderExactlyWhen(w, front, additions, day, items);
      PassNoRepeats(w, front, additions, day, items);
      LastTurn(w, order, additions, day, items);
    }
  }

  /** A rebuilt day is in time order exactly if its edits and removals left it so, and every row's
      drafts fit the day as it stands at that row's turn. */
  lemma RebuiltDayInTimeOrderExactlyWhen(w: Winners, revisions: Revisions, additions: Additions, d: Day)
    requires DistinctRowIds(w, w.order) && NewIdsDistinct(additions) && NoNewIds(additions, d.items) && ValidDay(d)
    ensures
      var edited := Edited(Fates(w, revisions, d.day), d.items);
      InTimeOrder(Rebuilt(w, revisions, additions, d).0) <==>
        InTimeOrder(edited) && AllFitAtTurn(w, w.order, additions, d.day, edited)
  {
    var fate := Fates(w, revisions, d.day);
    FatesKeepIds(w, revisions, d.day);
    EditedNoRepeats(fate, d.items);
    EditedSize(fate, d.items);
    EditedKeepsNewIdsOut(fate, additions, d.items);
    PassKeepsTimeOrderExactlyWhen(w, w.order, additions, d.day, Edited(fate, d.items));
  }

  // ----- Two drafts that break it

  function Plain(id: string, minutes: nat): Item {
    Item(id, id, Some(Clock(minutes)), None, None, None, [], None)
  }

  function Sketch(anchor: string, placement: Placement, minutes: nat): Draft {
    Draft("row", anchor, placement, minutes, "title", "description", None, false)
  }

  /** A day with something at 09:00 and something at 11:00. */
  const MORNING := [Plain("a", 540), Plain("b", 660)]

  /** One activity after the first at 10:30, and one before the second at 10:00. */
  const CROSSING := [Sketch("a", AfterAnchor, 630), Sketch("b", BeforeAnchor, 600)]

  const ADD_TWO :=
    Feedback("row", "Add two stops, one after the museum and one before lunch", Add, 2, {BeforeAnchor, AfterAnchor})

  lemma MorningIsInOrder()
    ensures NoRepeats(MORNING) && InTimeOrder(MORNING)
    ensures IndexOf(MORNING, "a") == Some(0) && IndexOf(MORNING, "b") == Some(1)
  {
    assert IdList(MORNING) == ["a", "b"];
    assert MORNING[1..][0] == MORNING[1];
    assert IndexOf(MORNING[1..], "b") == Some(0);
  }

  /** Two accepted drafts can put a day out of order. */
  lemma TwoDraftsCanBreakTimeOrder(naming: Naming)
    requires NamesApart(naming) && forall k: nat :: naming(1, "row", k) !in {"a", "b"}
    ensures AllAcceptable({"a", "b"}, naming, MORNING, Target(1, None), ADD_TWO, CROSSING)
    ensures !InTimeOrder(Around(MORNING, SortBy(PrepareAll(naming, Target(1, None), ADD_TWO, CROSSING), NotLater)))
  {
    MorningIsInOrder();
    assert !EntriesAgree(MORNING, CROSSING[0], CROSSING[1]);
    AcceptedDraftsKeepTimeOrderExactlyWhen({"a", "b"}, naming, MORNING, Target(1, None), ADD_TWO, CROSSING);
  }

  // ----- Where a single draft lands

  /** With one addition, only the anchor's neighbourhood grows. */
  lemma OneMoreAround(items: seq<Item>, a: Addition)
    requires items != []
    ensures
      var front, last := items[..|items| - 1], items[|items| - 1];
      Around(items, [a]) ==
        if last.id != a.anchor then Around(front, [a]) + [last]
        else if a.placement == BeforeAnchor then Around(front, [a]) + [a.item] + [last]
        else Around(front, [a]) + [last] + [a.item]
  {
    AtOne(a, items[|items| - 1].id, BeforeAnchor);
    AtOne(a, items[|items| - 1].id, AfterAnchor);
    assert forall xs: seq<Item> :: xs + [] == xs;
  }

  lemma AtOne(a: Addition, anchor: string, side: Placement)
    ensures At([a], anchor, side) == if a.anchor == anchor && a.placement == side then [a.item] else []
  {
  }

  lemma {:induction false} NoneInserted(items: seq<Item>, a: Addition)
    requires forall k :: 0 <= k < |items| ==> items[k].id != a.anchor
    ensures Around(items, [a]) == items
  {
    if items != [] {
      NoneInserted(items[..|items| - 1], a);
      OneMoreAround(items, a);
    }
  }

  lemma PutNextToLast(front: seq<Item>, last: Item, x: Item)
    ensures
      var all := front + [last];
      && front + [x] + [last] == all[..|front|] + [x] + all[|front|..]
      && front + [last] + [x] == all[..|all|] + [x] + all[|all|..]
  {
  }

  lemma PutEarlier(front: seq<Item>, last: Item, x: Item, gap: nat)
    requires gap <= |front|
    ensures
      var all := front + [last];
      front[..gap] + [x] + front[gap..] + [last] == all[..gap] + [x] + all[gap..]
  {
  }

  lemma {:induction false} OneInserted(items: seq<Item>, a: Addition, at: nat, gap: nat)
    requires at < |items| && items[at].id == a.anchor && gap == Gap(at, a.placement)
    requires forall k :: 0 <= k < |items| && k != at ==> items[k].id != a.anchor
    ensures Around(items, [a]) == items[..gap] + [a.item] + items[gap..]
  {
    var front, last := items[..|items| - 1], items[|items| - 1];
    OneMoreAround(items, a);
    if at == |front| {
      NoneInserted(front, a);
      PutNextToLast(front, last, a.item);
    } else {
      OneInserted(front, a, at, gap);
      PutEarlier(front, last, a.item, gap);
    }
    assert items == front + [last];
  }
}

/** What rebuilding the affected days guarantees. */
module RegenerationFacts {
  import opened Wrappers
  import opened Sorting
  import opened Itineraries
  import opened Conflicts
  import opened Regeneration
  import Text

  // ----- Order of ids in a list of items

  ghost predicate Precedes(items: seq<Item>, x: string, y: string) {
    exists i, j :: 0 <= i < j < |items| && items[i].id == x && items[j].id == y
  }

  lemma PrecedesWithin(pre: seq<Item>, mid: seq<Item>, post: seq<Item>, x: string, y: string)
    requires Precedes(mid, x, y)
    ensures Precedes(pre + mid + post, x, y)
  {
    var i, j :| 0 <= i < j < |mid| && mid[i].id == x && mid[j].id == y;
    var all := pre + mid + post;
    assert all[|pre| + i].id == x && all[|pre| + j].id == y;
  }

  lemma PrecedesAcross(a: seq<Item>, b: seq<Item>, x: string, y: string)
    requires x in Ids(a) && y in Ids(b)
    ensures Precedes(a + b, x, y)
  {
    IdsHas(a, x);
    IdsHas(b, y);
    var i :| 0 <= i < |a| && a[i].id == x;
    var j :| 0 <= j < |b| && b[j].id == y;
    assert (a + b)[i].id == x && (a + b)[|a| + j].id == y;
  }

  lemma MemberHasId(items: seq<Item>, x: Item)
    requires x in items
    ensures x.id in Ids(items)
  {
    var k :| 0 <= k < |items| && items[k] == x;
    IdsHas(items, x.id);
  }

  // ----- One edited item

  /** An edit keeps the item's identity, tags and cost; a changed place drops its old place entry. */
  lemma EditsKeepIdentity(item: Item, outcome: Outcome, comment: string, revision: Option<Revision>)
    ensures
      var x := ApplyOutcome(item, outcome, comment, revision);
      && (x.None? <==> outcome == Remove)
      && (x.Some? ==>
            && x.value.id == item.id && x.value.tags == item.tags && x.value.cost == item.cost
            && (x.value.location == item.location ==> x.value.locationId == item.locationId)
            && (x.value.location != item.location ==> x.value.locationId.None?))
  {
  }

  /** Without a drafted rewrite an edit is not lost: the comment ends the new description, after
      what was there before, and nothing else changes. */
  lemma UndraftedEditKeepsTheComment(item: Item, comment: string)
    requires Text.Strip(comment) != ""
    ensures
      var note := "(Updated per feedback: " + Text.Strip(comment) + ")";
      var before := Text.Strip(item.description.GetOr(""));
      ApplyOutcome(item, Edit, comment, None) ==
        Some(item.(description := Some(Text.StripLeft(before + " ") + note)))
  {
    NoteIsTheCore(Text.Strip(item.description.GetOr("")), Text.Strip(comment));
  }

  lemma NoteIsTheCore(before: string, comment: string)
    ensures
      var note := "(Updated per feedback: " + comment + ")";
      Text.Strip(before + " (Updated per feedback: " + comment + ")") == Text.StripLeft(before + " ") + note
  {
    var note := "(Updated per feedback: " + comment + ")";
    Text.StripKeepsCore(before + " ", note);
    assert " (Updated per feedback: " == " " + "(Updated per feedback: ";
    assert before + " (Updated per feedback: " + comment + ")" == (before + " ") + note;
  }

  // ----- Edits and removals of one day

  ghost predicate Dropped(f: Fate) {
    f.Settled? && f.becomes.None?
  }

  /** What an item that is not dropped turns into. */
  function Becomes(fate: Item -> Fate, item: Item): Item {
    match fate(item)
    case Settled(_, Some(x)) => x
    case _ => item
  }

  ghost predicate KeepsIds(fate: Item -> Fate) {
    forall item :: Becomes(fate, item).id == item.id
  }

  lemma FatesKeepIds(w: Winners, revisions: Revisions, day: int)
    ensures KeepsIds(Fates(w, revisions, day))
  {
  }

  ghost predicate TurnsInto(fate: Item -> Fate, item: Item, x: Item) {
    !Dropped(fate(item)) && x == Becomes(fate, item)
  }

  lemma {:induction false} EditedComesFrom(fate: Item -> Fate, items: seq<Item>, x: Item)
    ensures x in Edited(fate, items) <==> exists k :: 0 <= k < |items| && TurnsInto(fate, items[k], x)
  {
    if items != [] {
      var front, last := items[..|items| - 1], items[|items| - 1];
      EditedComesFrom(fate, front, x);
      assert items == front + [last];
      if k :| 0 <= k < |front| && TurnsInto(fate, front[k], x) {
        assert items[k] == front[k];
      }
      if TurnsInto(fate, last, x) {
        assert items[|items| - 1] == last;
      }
    }
  }

  lemma {:induction false} EditedSize(fate: Item -> Fate, items: seq<Item>)
    ensures |Edited(fate, items)| <= |items|
  {
    if items != [] { EditedSize(fate, items[..|items| - 1]); }
  }

  lemma {:induction false} EditedIds(fate: Item -> Fate, items: seq<Item>)
    requires KeepsIds(fate)
    ensures Ids(Edited(fate, items)) <= Ids(items)
  {
    if items != [] {
      var front, last := items[..|items| - 1], items[|items| - 1];
      EditedIds(fate, front);
      assert items == front + [last];
      IdsConcat(front, [last]);
      var rest, x := Edited(fate, front), Becomes(fate, last);
      IdsConcat(rest, [x]);
      assert IdList([x]) == IdList([last]);
    }
  }

  lemma EditedNoRepeats(fate: Item -> Fate, items: seq<Item>)
    requires KeepsIds(fate) && NoRepeats(items)
    ensures NoRepeats(Edited(fate, items))
  {
    EditedIds(fate, items);
    assert forall x :: Ids(Edited(fate, items))[x] <= Ids(items)[x] <= 1;
  }

  /** An item is still there, under its id, exactly when it was not dropped. */
  lemma EditedHasId(fate: Item -> Fate, items: seq<Item>, k: nat)
    requires KeepsIds(fate) && NoRepeats(items) && k < |items|
    ensures items[k].id in Ids(Edited(fate, items)) <==> !Dropped(fate(items[k]))
  {
    var now := Edited(fate, items);
    if !Dropped(fate(items[k])) {
      var x := Becomes(fate, items[k]);
      assert TurnsInto(fate, items[k], x);
      EditedComesFrom(fate, items, x);
      MemberHasId(now, x);
    }
    if items[k].id in Ids(now) {
      IdsHas(now, items[k].id);
      var j :| 0 <= j < |now| && now[j].id == items[k].id;
      EditedComesFrom(fate, items, now[j]);
      var i :| 0 <= i < |items| && TurnsInto(fate, items[i], now[j]);
      IdNamesOnePosition(items, i, k);
    }
  }

  lemma {:induction false} EditedKeepsOrder(fate: Item -> Fate, items: seq<Item>, i: nat, j: nat)
    requires KeepsIds(fate) && i < j < |items| && !Dropped(fate(items[i])) && !Dropped(fate(items[j]))
    ensures Precedes(Edited(fate, items), items[i].id, items[j].id)
  {
    var front, last := items[..|items| - 1], items[|items| - 1];
    var rest := Edited(fate, front);
    var more := if Dropped(fate(last)) then [] else [Becomes(fate, last)];
    assert Edited(fate, items) == rest + more;
    if j < |front| {
      EditedKeepsOrder(fate, front, i, j);
      PrecedesWithin([], rest, more, items[i].id, items[j].id);
      assert [] + rest == rest;
    } else {
      EditedComesFrom(fate, front, Becomes(fate, front[i]));
      assert TurnsInto(fate, front[i], Becomes(fate, front[i]));
      MemberHasId(rest, Becomes(fate, front[i]));
      MemberHasId(more, Becomes(fate, last));
      PrecedesAcross(rest, more, items[i].id, items[j].id);
    }
  }

  lemma {:induction false} SettlingRowsAre(fate: Item -> Fate, items: seq<Item>, id: string)
    ensures id in SettlingRows(fate, items) <==>
      exists k :: 0 <= k < |items| && fate(items[k]).Settled? && fate(items[k]).row == id
  {
    if items != [] {
      var front, last := items[..|items| - 1], items[|items| - 1];
      SettlingRowsAre(fate, front, id);
      assert items == front + [last];
      if k :| 0 <= k < |front| && fate(front[k]).Settled? && fate(front[k]).row == id {
        assert items[k] == front[k];
      }
      assert items[|items| - 1] == last;
    }
  }

  // ----- Putting drafted items around their anchors

  function AdditionId(a: Addition): string {
    a.item.id
  }

  function NewIds(drafted: seq<Addition>): seq<string> {
    MapSeq(AdditionId, drafted)
  }

  /** The ids of the drafted items whose anchors are among these. */
  ghost function ChosenIds(drafted: seq<Addition>, anchors: set<string>): multiset<string> {
    if drafted == [] then multiset{}
    else
      var rest, last := ChosenIds(drafted[..|drafted| - 1], anchors), drafted[|drafted| - 1];
      if last.anchor in anchors then rest + multiset{last.item.id} else rest
  }

  lemma {:induction false} ChosenIdsAll(drafted: seq<Addition>, anchors: set<string>)
    requires forall k :: 0 <= k < |drafted| ==> drafted[k].anchor in anchors
    ensures ChosenIds(drafted, anchors) == multiset(NewIds(drafted))
  {
    if drafted != [] {
      var front, last := drafted[..|drafted| - 1], drafted[|drafted| - 1];
      ChosenIdsAll(front, anchors);
      assert drafted == front + [last];
      assert NewIds(drafted) == NewIds(front) + [AdditionId(last)];
    }
  }

  lemma {:induction false} ChosenIdsNone(drafted: seq<Addition>)
    ensures ChosenIds(drafted, {}) == multiset{}
  {
    if drafted != [] { ChosenIdsNone(drafted[..|drafted| - 1]); }
  }

  lemma AtOneMore(drafted: seq<Addition>, x: string, side: Placement)
    requires drafted != []
    ensures
      var front, last := drafted[..|drafted| - 1], drafted[|drafted| - 1];
      Ids(At(drafted, x, side)) == Ids(At(front, x, side))
        + if last.anchor == x && last.placement == side then multiset{last.item.id} else multiset{}
  {
    var front, last := drafted[..|drafted| - 1], drafted[|drafted| - 1];
    IdsConcat(At(front, x, side), [last.item]);
    assert IdList([last.item]) == [last.item.id];
  }

  /** The ids of the drafts on either side of an anchor. */
  ghost function IdsBeside(drafted: seq<Addition>, x: string): multiset<string> {
    if drafted == [] then multiset{}
    else
      var rest, last := IdsBeside(drafted[..|drafted| - 1], x), drafted[|drafted| - 1];
      if last.anchor == x then rest + multiset{last.item.id} else rest
  }

  lemma {:induction false} BesideIsEitherSide(drafted: seq<Addition>, x: string)
    ensures IdsBeside(drafted, x) == Ids(At(drafted, x, BeforeAnchor)) + Ids(At(drafted, x, AfterAnchor))
  {
    if drafted == [] {
      assert IdList([]) == [];
    } else {
      var front, last := drafted[..|drafted| - 1], drafted[|drafted| - 1];
      BesideIsEitherSide(front, x);
      AtOneMore(drafted, x, BeforeAnchor);
      AtOneMore(drafted, x, AfterAnchor);
      assert last.placement == BeforeAnchor || last.placement == AfterAnchor;
    }
  }

  lemma {:induction false} ChosenIdsOneMore(drafted: seq<Addition>, anchors: set<string>, x: string)
    requires x !in anchors
    ensures ChosenIds(drafted, anchors + {x}) == ChosenIds(drafted, anchors) + IdsBeside(drafted, x)
  {
    if drafted != [] { ChosenIdsOneMore(drafted[..|drafted| - 1], anchors, x); }
  }

  ghost function IdSet(items: seq<Item>): set<string> {
    set k | 0 <= k < |items| :: items[k].id
  }

  lemma {:induction false} AroundIds(items: seq<Item>, drafted: seq<Addition>)
    requires NoRepeats(items)
    ensures Ids(Around(items, drafted)) == Ids(items) + ChosenIds(drafted, IdSet(items))
  {
    if items == [] {
      assert IdSet(items) == {};
      ChosenIdsNone(drafted);
    } else {
      var front, last := items[..|items| - 1], items[|items| - 1];
      assert items == front + [last];
      IdsConcat(front, [last]);
      assert IdList([last]) == [last.id];
      assert NoRepeats(front) && last.id !in Ids(front) by {
        assert forall x :: Ids(front)[x] <= Ids(items)[x] <= 1;
        assert Ids(items)[last.id] <= 1;
      }
      AroundIds(front, drafted);
      assert last.id !in IdSet(front) by { IdsHas(front, last.id); }
      assert IdSet(items) == IdSet(front) + {last.id};
      ChosenIdsOneMore(drafted, IdSet(front), last.id);
      BesideIsEitherSide(drafted, last.id);
      var before, after := At(drafted, last.id, BeforeAnchor), At(drafted, last.id, AfterAnchor);
      IdsConcat(Around(front, drafted), before);
      IdsConcat(Around(front, drafted) + before, [last]);
      IdsConcat(Around(front, drafted) + before + [last], after);
    }
  }

  lemma {:induction false} AtHas(drafted: seq<Addition>, anchor: string, side: Placement, x: Item)
    ensures x in At(drafted, anchor, side) <==>
      exists k :: 0 <= k < |drafted| && drafted[k] == Addition(anchor, side, x)
  {
    if drafted != [] {
      var front, last := drafted[..|drafted| - 1], drafted[|drafted| - 1];
      AtHas(front, anchor, side, x);
      assert drafted == front + [last];
      if k :| 0 <= k < |front| && front[k] == Addition(anchor, side, x) {
        assert drafted[k] == front[k];
      }
      assert drafted[|drafted| - 1] == last;
    }
  }

  lemma {:induction false} AroundComesFrom(items: seq<Item>, drafted: seq<Addition>, x: Item)
    requires x in Around(items, drafted)
    ensures x in items || exists k :: 0 <= k < |drafted| && drafted[k].item == x
  {
    var front, last := items[..|items| - 1], items[|items| - 1];
    assert items == front + [last];
    if x in Around(front, drafted) {
      AroundComesFrom(front, drafted, x);
    } else if x in At(drafted, last.id, BeforeAnchor) {
      AtHas(drafted, last.id, BeforeAnchor, x);
    } else if x in At(drafted, last.id, AfterAnchor) {
      AtHas(drafted, last.id, AfterAnchor, x);
    }
  }

  lemma {:induction false} AroundKeeps(items: seq<Item>, drafted: seq<Addition>, x: Item)
    requires x in items
    ensures x in Around(items, drafted)
  {
    var front, last := items[..|items| - 1], items[|items| - 1];
    assert items == front + [last];
    if x in front { AroundKeeps(front, drafted, x); }
  }

  /** An item with the drafts on its two sides. */
  function Block(drafted: seq<Addition>, item: Item): seq<Item> {
    At(drafted, item.id, BeforeAnchor) + ([item] + At(drafted, item.id, AfterAnchor))
  }

  lemma AroundLast(items: seq<Item>, drafted: seq<Addition>)
    requires items != []
    ensures Around(items, drafted) == Around(items[..|items| - 1], drafted) + Block(drafted, items[|items| - 1])
  {
  }

  lemma PrecedesFirst(a: seq<Item>, b: seq<Item>, x: string, y: string)
    requires Precedes(a, x, y)
    ensures Precedes(a + b, x, y)
  {
    var i, j :| 0 <= i < j < |a| && a[i].id == x && a[j].id == y;
    assert (a + b)[i].id == x && (a + b)[j].id == y;
  }

  lemma {:induction false} AroundKeepsOrder(items: seq<Item>, drafted: seq<Addition>, x: string, y: string)
    requires Precedes(items, x, y)
    ensures Precedes(Around(items, drafted), x, y)
  {
    var i, j :| 0 <= i < j < |items| && items[i].id == x && items[j].id == y;
    var front, last := items[..|items| - 1], items[|items| - 1];
    AroundLast(items, drafted);
    if j < |front| {
      assert front[i].id == x && front[j].id == y;
      AroundKeepsOrder(front, drafted, x, y);
      PrecedesFirst(Around(front, drafted), Block(drafted, last), x, y);
    } else {
      assert front[i] in front;
      AroundKeeps(front, drafted, front[i]);
      MemberHasId(Around(front, drafted), front[i]);
      MemberHasId(Block(drafted, last), last);
      PrecedesAcross(Around(front, drafted), Block(drafted, last), x, y);
    }
  }

  /** A drafted item stands on the requested side of its anchor. */
  ghost predicate OnItsSide(items: seq<Item>, a: Addition) {
    && a.item in items
    && match a.placement
       case BeforeAnchor => Precedes(items, a.item.id, a.anchor)
       case AfterAnchor => Precedes(items, a.anchor, a.item.id)
  }

  lemma PlacedAtLast(left: seq<Item>, before: seq<Item>, last: Item, after: seq<Item>, a: Addition)
    requires a.anchor == last.id
    requires a.item in (if a.placement == BeforeAnchor then before else after)
    ensures OnItsSide(left + (before + [last] + after), a)
  {
    MemberHasId([last], last);
    if a.placement == BeforeAnchor {
      MemberHasId(before, a.item);
      PrecedesAcross(before, [last], a.item.id, last.id);
      PrecedesWithin(left, before + [last], after, a.item.id, last.id);
      assert left + (before + [last]) + after == left + (before + [last] + after);
    } else {
      MemberHasId(after, a.item);
      PrecedesAcross([last], after, last.id, a.item.id);
      PrecedesWithin(left + before, [last] + after, [], last.id, a.item.id);
      assert left + before + ([last] + after) + [] == left + (before + [last] + after);
    }
  }

  lemma PlacedBefore(left: seq<Item>, right: seq<Item>, a: Addition)
    requires OnItsSide(left, a)
    ensures OnItsSide(left + right, a)
  {
    assert [] + left == left;
    if a.placement == BeforeAnchor {
      PrecedesWithin([], left, right, a.item.id, a.anchor);
    } else {
      PrecedesWithin([], left, right, a.anchor, a.item.id);
    }
  }

  lemma {:induction false} AroundPlaces(items: seq<Item>, drafted: seq<Addition>, k: nat)
    requires k < |drafted| && drafted[k].anchor in Ids(items)
    ensures OnItsSide(Around(items, drafted), drafted[k])
  {
    var a := drafted[k];
    IdsHas(items, a.anchor);
    var front, last := items[..|items| - 1], items[|items| - 1];
    assert items == front + [last];
    var left := Around(front, drafted);
    var before, after := At(drafted, last.id, BeforeAnchor), At(drafted, last.id, AfterAnchor);
    assert Around(items, drafted) == left + (before + [last] + after);
    if a.anchor in Ids(front) {
      AroundPlaces(front, drafted, k);
      PlacedBefore(left, before + [last] + after, a);
    } else {
      IdsConcat(front, [last]);
      assert IdList([last]) == [last.id];
      AtHas(drafted, last.id, a.placement, a.item);
      PlacedAtLast(left, before, last, after, a);
    }
  }
}

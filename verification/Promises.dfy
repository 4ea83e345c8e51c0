/** What a refinement promises about the feedback it was given, read off the proposal it makes
    (`negotiation_node` in backend/app/agents/nodes/negotiation.py). */
module Promises {
  import opened Wrappers
  import opened Sorting
  import opened Itineraries
  import opened Conflicts
  import opened Regeneration
  import opened RegenerationFacts
  import opened Refinement
  import opened Accounting
  import opened Drafting = Additions
  import Text

  /** What a refinement proposes. */
  datatype Proposal = Proposal(
    itinerary: Itinerary, addressed: seq<string>, unresolved: seq<string>, scope: Scope, conflicts: seq<Conflict>)

  /** What was decided before anything was rebuilt: the winning rows, the drafted rewrites and the
      accepted additions. */
  datatype Round = Round(base: Itinerary, w: Winners, revisions: Revisions, accepted: Additions)

  ghost predicate ValidRound(r: Round) {
    && ValidItinerary(r.base) && WellAimed(r.base, r.w)
    && ValidRevisions(r.revisions) && FreshAdditions(r.base, r.accepted)
  }

  /** The proposal is what regeneration makes of the round. */
  ghost predicate Regenerated(r: Round, p: Proposal)
    requires ValidRound(r)
  {
    && TargetsInScope(r.w, p.scope)
    && p.itinerary == NewPlan(r.base, r.w, p.scope, r.revisions, r.accepted)
    && p.addressed == Addressed(r.base, r.w, p.scope, r.revisions, r.accepted)
  }

  /** The row of target `t` won, asks for one of these, and is reported as addressed. */
  predicate Done(r: Round, p: Proposal, t: Target, asked: set<Outcome>) {
    t in r.w.row && r.w.row[t].outcome in asked && r.w.row[t].id in p.addressed
  }

  lemma NewDays(r: Round, p: Proposal, n: nat)
    requires ValidRound(r) && Regenerated(r, p) && n < |r.base.days|
    ensures |p.itinerary.days| == |r.base.days|
    ensures p.itinerary.days[n] == NewDay(r.w, p.scope, r.revisions, r.accepted, r.base.days[n]).0
  {
    DayByDay(r.w, p.scope, r.revisions, r.accepted, r.base.days);
  }

  lemma NewItems(r: Round, p: Proposal, day: int)
    requires ValidRound(r) && Regenerated(r, p) && HasDay(r.base, day)
    ensures HasDay(p.itinerary, day)
    ensures ItemsOf(p.itinerary, day) == NewDay(r.w, p.scope, r.revisions, r.accepted, r.base.days[day - 1]).0.items
  {
    NewDays(r, p, day - 1);
  }

  // ----- Which rows are addressed

  /** A row about one item is addressed unless removals would empty its day. */
  ghost predicate ItemRowsAreAddressed(r: Round, p: Proposal) {
    forall t :: t in r.w.row && t.itemId.Some? && r.w.row[t].outcome in {Edit, Retain, Remove} ==>
      HasDay(r.base, t.day) && (r.w.row[t].id in p.addressed <==> !AllRemoved(r.w, r.base.days[t.day - 1]))
  }

  lemma ItemRowsFollow(r: Round, p: Proposal)
    requires ValidRound(r) && Regenerated(r, p)
    ensures ItemRowsAreAddressed(r, p)
  {
    forall t | t in r.w.row && t.itemId.Some? && r.w.row[t].outcome in {Edit, Retain, Remove}
      ensures HasDay(r.base, t.day)
      ensures r.w.row[t].id in p.addressed <==> !AllRemoved(r.w, r.base.days[t.day - 1])
    {
      var k := NamedItem(r.base, t);
      ItemRowIsSettledOnItsDay(r.w, p.scope, r.revisions, r.accepted, t, r.base.days[t.day - 1], k);
      AddressedExactlyOnItsDay(r.base, r.w, p.scope, r.revisions, r.accepted, t);
    }
  }

  /** An edit or retain row about a whole day is addressed exactly if some item has no row of its own;
      a removal of a whole day, and a row with no clear wish, never is. */
  ghost predicate DayRowsAreAddressed(r: Round, p: Proposal) {
    forall t :: t in r.w.row && (t.itemId.None? || r.w.row[t].outcome == Unresolved) ==>
      && HasDay(r.base, t.day)
      && (r.w.row[t].outcome in {Edit, Retain} ==>
            (r.w.row[t].id in p.addressed <==> SomeUnclaimed(r.w, r.base.days[t.day - 1])))
      && (r.w.row[t].outcome in {Remove, Unresolved} ==> r.w.row[t].id !in p.addressed)
  }

  lemma DayRowsFollow(r: Round, p: Proposal)
    requires ValidRound(r) && Regenerated(r, p)
    ensures DayRowsAreAddressed(r, p)
  {
    forall t | t in r.w.row && (t.itemId.None? || r.w.row[t].outcome == Unresolved)
      ensures HasDay(r.base, t.day)
      ensures r.w.row[t].outcome in {Edit, Retain} ==>
        (r.w.row[t].id in p.addressed <==> SomeUnclaimed(r.w, r.base.days[t.day - 1]))
      ensures r.w.row[t].outcome in {Remove, Unresolved} ==> r.w.row[t].id !in p.addressed
    {
      if r.w.row[t].outcome in {Edit, Retain} {
        DayRowIsAddressedExactlyWhen(r.base, r.w, p.scope, r.revisions, r.accepted, t);
      } else if r.w.row[t].outcome in {Remove, Unresolved} {
        DayRemovalStaysOpen(r.base, r.w, p.scope, r.revisions, r.accepted, t);
      }
    }
  }

  // ----- Removals

  /** An addressed removal names an item, which is on no day any more. */
  ghost predicate RemovedItemsAreGone(r: Round, p: Proposal) {
    forall t :: Done(r, p, t, {Remove}) ==> t.itemId.Some? && IsGone(p.itinerary, t.itemId.value)
  }

  ghost predicate IsGone(plan: Itinerary, id: string) {
    forall n :: 0 <= n < |plan.days| ==> id !in Ids(plan.days[n].items)
  }

  lemma RemovalsFollow(r: Round, p: Proposal)
    requires ValidRound(r) && Regenerated(r, p)
    ensures RemovedItemsAreGone(r, p)
  {
    forall t | Done(r, p, t, {Remove})
      ensures t.itemId.Some? && IsGone(p.itinerary, t.itemId.value)
    {
      AddressedRemovalIsGone(r.base, r.w, p.scope, r.revisions, r.accepted, t);
      forall n | 0 <= n < |p.itinerary.days|
        ensures t.itemId.value !in Ids(p.itinerary.days[n].items)
      {
        DayByDay(r.w, p.scope, r.revisions, r.accepted, r.base.days);
        NewDays(r, p, n);
      }
    }
  }

  // ----- Edits

  /** `x` is what the row asks of `item`: the item itself, its drafted rewrite, or the item with the
      comment as a note. */
  ghost predicate IsAnswer(item: Item, row: Feedback, revisions: Revisions, x: Item) {
    && x.id == item.id && x.tags == item.tags && x.cost == item.cost
    && if row.outcome == Edit && item.id in revisions then
         var drafted := revisions[item.id];
         && x.title == drafted.title && x.time == drafted.time
         && x.description == drafted.description && x.location == drafted.location
         && x.locationId == if drafted.location == item.location then item.locationId else None
       else if row.outcome == Edit && Text.Strip(row.comment) != "" then
         && x == item.(description := x.description) && x.description.Some?
         && x.description.value == Text.StripLeft(Text.Strip(item.description.GetOr("")) + " ")
              + "(Updated per feedback: " + Text.Strip(row.comment) + ")"
       else x == item
  }

  ghost predicate IsAnswered(item: Item, row: Feedback, revisions: Revisions, items: seq<Item>) {
    exists x :: x in items && IsAnswer(item, row, revisions, x)
  }

  /** The row of target `t` decides about the `k`-th item of its day. */
  predicate DecidesAbout(r: Round, t: Target, k: int) {
    HasDay(r.base, t.day) && 0 <= k < |ItemsOf(r.base, t.day)| && Governs(r.w, t, t.day, ItemsOf(r.base, t.day)[k])
  }

  /** An addressed edit or retain row is answered on every item it decides about. */
  ghost predicate EditsAreMade(r: Round, p: Proposal) {
    forall t, k :: Done(r, p, t, {Edit, Retain}) && DecidesAbout(r, t, k) && HasDay(p.itinerary, t.day) ==>
      IsAnswered(ItemsOf(r.base, t.day)[k], r.w.row[t], r.revisions, ItemsOf(p.itinerary, t.day))
  }

  lemma ResultIsAnswer(item: Item, row: Feedback, revisions: Revisions)
    requires row.outcome == Edit || row.outcome == Retain
    ensures
      var x := ApplyOutcome(item, row.outcome, row.comment,
                            if item.id in revisions then Some(revisions[item.id]) else None);
      x.Some? && IsAnswer(item, row, revisions, x.value)
  {
    if row.outcome == Edit && item.id !in revisions && Text.Strip(row.comment) != "" {
      UndraftedEditKeepsTheComment(item, row.comment);
    }
  }

  lemma ResultIsInDay(
      base: Itinerary, w: Winners, scope: Scope, revisions: Revisions, additions: Additions, t: Target, k: nat)
    requires ValidItinerary(base) && WellAimed(base, w) && t in w.row && HasDay(base, t.day)
    requires w.row[t].outcome in {Edit, Retain} && w.row[t].id in Addressed(base, w, scope, revisions, additions)
    requires k < |ItemsOf(base, t.day)| && Governs(w, t, t.day, ItemsOf(base, t.day)[k])
    ensures
      var x := Result(w, revisions, t, ItemsOf(base, t.day)[k]);
      x.Some? && x.value in NewDay(w, scope, revisions, additions, base.days[t.day - 1]).0.items
  {
    AddressedEditIsDone(base, w, scope, revisions, additions, t, k);
  }

  lemma ResultIsIn(r: Round, p: Proposal, t: Target, k: nat)
    requires ValidRound(r) && Regenerated(r, p) && Done(r, p, t, {Edit, Retain}) && DecidesAbout(r, t, k)
    ensures HasDay(p.itinerary, t.day)
    ensures
      var x := Result(r.w, r.revisions, t, ItemsOf(r.base, t.day)[k]);
      x.Some? && x.value in ItemsOf(p.itinerary, t.day)
  {
    NewItems(r, p, t.day);
    ResultIsInDay(r.base, r.w, p.scope, r.revisions, r.accepted, t, k);
  }

  lemma EditIsMade(r: Round, p: Proposal, t: Target, k: nat)
    requires ValidRound(r) && Regenerated(r, p) && Done(r, p, t, {Edit, Retain}) && DecidesAbout(r, t, k)
    requires HasDay(p.itinerary, t.day)
    ensures IsAnswered(ItemsOf(r.base, t.day)[k], r.w.row[t], r.revisions, ItemsOf(p.itinerary, t.day))
  {
    ResultIsIn(r, p, t, k);
    ResultAnswers(r, t, ItemsOf(r.base, t.day)[k], ItemsOf(p.itinerary, t.day));
  }

  lemma ResultAnswers(r: Round, t: Target, item: Item, items: seq<Item>)
    requires t in r.w.row && r.w.row[t].outcome in {Edit, Retain}
    requires Result(r.w, r.revisions, t, item).Some? && Result(r.w, r.revisions, t, item).value in items
    ensures IsAnswered(item, r.w.row[t], r.revisions, items)
  {
    ResultIsAnswer(item, r.w.row[t], r.revisions);
  }

  lemma EditsFollow(r: Round, p: Proposal)
    requires ValidRound(r) && Regenerated(r, p)
    ensures EditsAreMade(r, p)
  {
    forall t, k | Done(r, p, t, {Edit, Retain}) && DecidesAbout(r, t, k) && HasDay(p.itinerary, t.day)
      ensures IsAnswered(ItemsOf(r.base, t.day)[k], r.w.row[t], r.revisions, ItemsOf(p.itinerary, t.day))
    {
      EditIsMade(r, p, t, k);
    }
  }

  /** No addressed row decides about the item. */
  ghost predicate Undecided(r: Round, p: Proposal, day: int, item: Item) {
    forall t :: Done(r, p, t, {Edit, Retain, Remove}) ==> !Governs(r.w, t, day, item)
  }

  /** What no addressed row decides about stays as it is. */
  ghost predicate TheRestStays(r: Round, p: Proposal) {
    forall day, k :: HasDay(r.base, day) && HasDay(p.itinerary, day) && 0 <= k < |ItemsOf(r.base, day)| ==>
      Undecided(r, p, day, ItemsOf(r.base, day)[k]) ==> ItemsOf(r.base, day)[k] in ItemsOf(p.itinerary, day)
  }

  lemma OpenRowKeeps(
      base: Itinerary, w: Winners, scope: Scope, revisions: Revisions, additions: Additions, t: Target, k: nat)
    requires ValidItinerary(base) && WellAimed(base, w) && t in w.row && HasDay(base, t.day)
    requires w.row[t].id !in Addressed(base, w, scope, revisions, additions)
    requires k < |ItemsOf(base, t.day)| && Governs(w, t, t.day, ItemsOf(base, t.day)[k])
    ensures ItemsOf(base, t.day)[k] in NewDay(w, scope, revisions, additions, base.days[t.day - 1]).0.items
  {
    UnaddressedRowsChangeNothing(base, w, scope, revisions, additions, t, k);
  }

  lemma OpenRowLeavesItem(r: Round, p: Proposal, t: Target, k: nat)
    requires ValidRound(r) && Regenerated(r, p) && t in r.w.row && r.w.row[t].id !in p.addressed
    requires DecidesAbout(r, t, k)
    ensures HasDay(p.itinerary, t.day) && ItemsOf(r.base, t.day)[k] in ItemsOf(p.itinerary, t.day)
  {
    NewItems(r, p, t.day);
    OpenRowKeeps(r.base, r.w, p.scope, r.revisions, r.accepted, t, k);
  }

  lemma LeftAloneKeeps(
      base: Itinerary, w: Winners, scope: Scope, revisions: Revisions, additions: Additions, day: int, k: nat)
    requires ValidItinerary(base) && (forall t :: t in w.order ==> t in w.row)
    requires HasDay(base, day) && k < |ItemsOf(base, day)|
    requires FateOf(w, revisions, day, ItemsOf(base, day)[k]).LeftAlone?
    ensures ItemsOf(base, day)[k] in NewDay(w, scope, revisions, additions, base.days[day - 1]).0.items
  {
    LeftAloneStays(w, revisions, additions, base.days[day - 1], k);
  }

  lemma LeftAloneIsIn(r: Round, p: Proposal, day: int, k: nat)
    requires ValidRound(r) && Regenerated(r, p) && HasDay(r.base, day) && k < |ItemsOf(r.base, day)|
    requires FateOf(r.w, r.revisions, day, ItemsOf(r.base, day)[k]).LeftAlone?
    ensures HasDay(p.itinerary, day) && ItemsOf(r.base, day)[k] in ItemsOf(p.itinerary, day)
  {
    NewItems(r, p, day);
    LeftAloneKeeps(r.base, r.w, p.scope, r.revisions, r.accepted, day, k);
  }

  /** If no addressed row decides about the item, it is left alone, or an open row decides. */
  lemma OpenRowOrNone(r: Round, p: Proposal, day: int, item: Item) returns (t: Target)
    requires Undecided(r, p, day, item)
    ensures
      || FateOf(r.w, r.revisions, day, item).LeftAlone?
      || (t in r.w.row && Governs(r.w, t, day, item) && r.w.row[t].id !in p.addressed)
  {
    var own, whole := Target(day, Some(item.id)), Target(day, None);
    t := if own in r.w.row then own else whole;
    if t in r.w.row && r.w.row[t].id in p.addressed {
      assert Governs(r.w, t, day, item) && !Done(r, p, t, {Edit, Retain, Remove});
      FateOfGoverned(r.w, r.revisions, t, day, item);
    }
  }

  lemma ItemStays(r: Round, p: Proposal, day: int, k: nat)
    requires ValidRound(r) && Regenerated(r, p) && HasDay(r.base, day) && k < |ItemsOf(r.base, day)|
    requires Undecided(r, p, day, ItemsOf(r.base, day)[k])
    ensures HasDay(p.itinerary, day) && ItemsOf(r.base, day)[k] in ItemsOf(p.itinerary, day)
  {
    var t := OpenRowOrNone(r, p, day, ItemsOf(r.base, day)[k]);
    if FateOf(r.w, r.revisions, day, ItemsOf(r.base, day)[k]).LeftAlone? {
      LeftAloneIsIn(r, p, day, k);
    } else {
      OpenRowLeavesItem(r, p, t, k);
    }
  }

  lemma RestFollows(r: Round, p: Proposal)
    requires ValidRound(r) && Regenerated(r, p)
    ensures TheRestStays(r, p)
  {
    forall day, k | HasDay(r.base, day) && HasDay(p.itinerary, day) && 0 <= k < |ItemsOf(r.base, day)|
      ensures Undecided(r, p, day, ItemsOf(r.base, day)[k]) ==>
        ItemsOf(r.base, day)[k] in ItemsOf(p.itinerary, day)
    {
      if Undecided(r, p, day, ItemsOf(r.base, day)[k]) { ItemStays(r, p, day, k); }
    }
  }

  // ----- Additions

  /** The drafted activity is among the items once, as it was drafted, on its side of its anchor. */
  ghost predicate IsAdded(items: seq<Item>, id: string, e: Draft) {
    && Ids(items)[id] == 1
    && exists x ::
         && x in items && x.id == id && x.title == e.title && x.time == Some(Clock(e.minutes))
         && x.description == Some(e.description) && x.location == e.location
         && match e.placement
            case BeforeAnchor => Precedes(items, id, e.anchor)
            case AfterAnchor => Precedes(items, e.anchor, id)
  }

  /** The draft breaks no hard constraint, says what it is, goes where the comment wants it, beside the
      named item if one is named, and in time between the two items around its place. */
  predicate KeepsTheRules(items: seq<Item>, t: Target, row: Feedback, e: Draft) {
    && !e.breaksConstraint && e.title != "" && e.description != ""
    && (row.directions == {BeforeAnchor} ==> e.placement == BeforeAnchor)
    && (row.directions == {AfterAnchor} ==> e.placement == AfterAnchor)
    && (t.itemId.Some? ==> e.anchor == t.itemId.value)
    && exists k :: 0 <= k < |items| && items[k].id == e.anchor && LiesBeside(items, k, e)
  }

  /** In time, the draft lies between the `k`-th item and the one before or after it. */
  predicate LiesBeside(items: seq<Item>, k: int, e: Draft)
    requires 0 <= k < |items|
  {
    match e.placement
    case BeforeAnchor => (k > 0 ==> Before(items[k - 1], e)) && After(items[k], e)
    case AfterAnchor => Before(items[k], e) && (k + 1 < |items| ==> After(items[k + 1], e))
  }

  predicate Before(x: Item, e: Draft) {
    x.time.Some? && x.time.value.Clock? ==> x.time.value.minutes < e.minutes
  }

  predicate After(x: Item, e: Draft) {
    x.time.Some? && x.time.value.Clock? ==> e.minutes < x.time.value.minutes
  }

  lemma AcceptedKeepsTheRules(
      existing: set<string>, naming: Naming, items: seq<Item>, t: Target, row: Feedback, e: Draft, index: nat)
    requires Acceptable(existing, naming, items, t, row, e, index)
    ensures KeepsTheRules(items, t, row, e) && naming(t.day, row.id, index) !in existing
  {
    var k := IndexOf(items, e.anchor).value;
    assert items[k].id == e.anchor && LiesBeside(items, k, e);
    assert |{BeforeAnchor}| == 1 && |{AfterAnchor}| == 1;
  }

  /** An addressed addition has as many new activities on its day as it asked for, each within the
      rules and with an id that is new to the plan. */
  ghost predicate AdditionsAreIn(r: Round, batch: seq<Draft>, naming: Naming, p: Proposal) {
    forall t :: Done(r, p, t, {Add}) ==>
      var entries := EntriesFor(batch, r.w.row[t].id);
      && HasDay(p.itinerary, t.day) && |entries| == r.w.row[t].additionCount > 0
      && forall k :: 0 <= k < |entries| ==>
           && IsAdded(ItemsOf(p.itinerary, t.day), naming(t.day, r.w.row[t].id, k), entries[k])
           && HasDay(r.base, t.day) && KeepsTheRules(ItemsOf(r.base, t.day), t, r.w.row[t], entries[k])
           && naming(t.day, r.w.row[t].id, k) !in ExistingIds(r.base)
  }

  lemma AcceptedAsDrafted(r: Round, batch: seq<Draft>, naming: Naming, t: Target)
    requires WellAimed(r.base, r.w) && IsAccepted(r.base, r.w, batch, naming, r.accepted)
    requires t in r.w.row && r.w.row[t].id in r.accepted
    ensures AcceptedFor(r.base, r.w, batch, naming, t)
    ensures r.accepted[r.w.row[t].id] ==
      PrepareAll(naming, t, r.w.row[t], EntriesFor(batch, r.w.row[t].id))
  {
    var id := r.w.row[t].id;
    var u :| && AcceptedFor(r.base, r.w, batch, naming, u) && r.w.row[u].id == id
             && r.accepted[id] == PrepareAll(naming, u, r.w.row[u], EntriesFor(batch, id));
    assert u == t;
  }

  ghost predicate Stands(items: seq<Item>, a: Addition) {
    OnItsSide(items, a) && Ids(items)[a.item.id] == 1
  }

  lemma PreparedIsAdded(
      items: seq<Item>, naming: Naming, t: Target, row: Feedback, entries: seq<Draft>, k: nat)
    requires k < |entries| && Stands(items, PrepareAll(naming, t, row, entries)[k])
    ensures IsAdded(items, naming(t.day, row.id, k), entries[k])
  {
    assert PrepareAll(naming, t, row, entries)[k] == Prepare(naming, t, row, entries[k], k);
  }

  lemma AddressedStands(
      base: Itinerary, w: Winners, scope: Scope, revisions: Revisions, additions: Additions, t: Target, k: nat)
    requires ValidItinerary(base) && WellAimed(base, w) && t in w.row && w.row[t].outcome == Add
    requires ValidRevisions(revisions) && FreshAdditions(base, additions)
    requires w.row[t].id in Addressed(base, w, scope, revisions, additions)
    ensures HasDay(base, t.day) && w.row[t].id in additions
    ensures k < |additions[w.row[t].id]| ==>
      Stands(NewDay(w, scope, revisions, additions, base.days[t.day - 1]).0.items, additions[w.row[t].id][k])
  {
    AddressedAdditionIsIn(base, w, scope, revisions, additions, t, k);
  }

  lemma DraftStands(r: Round, p: Proposal, t: Target, k: nat)
    requires ValidRound(r) && Regenerated(r, p) && Done(r, p, t, {Add})
    ensures HasDay(p.itinerary, t.day) && r.w.row[t].id in r.accepted
    ensures k < |r.accepted[r.w.row[t].id]| ==>
      Stands(ItemsOf(p.itinerary, t.day), r.accepted[r.w.row[t].id][k])
  {
    AddressedStands(r.base, r.w, p.scope, r.revisions, r.accepted, t, k);
    NewItems(r, p, t.day);
  }

  lemma DraftIsIn(r: Round, batch: seq<Draft>, naming: Naming, p: Proposal, t: Target, k: nat)
    requires ValidRound(r) && Regenerated(r, p) && IsAccepted(r.base, r.w, batch, naming, r.accepted)
    requires Done(r, p, t, {Add}) && k < |EntriesFor(batch, r.w.row[t].id)|
    ensures HasDay(p.itinerary, t.day)
    ensures IsAdded(ItemsOf(p.itinerary, t.day), naming(t.day, r.w.row[t].id, k), EntriesFor(batch, r.w.row[t].id)[k])
  {
    DraftStands(r, p, t, k);
    AcceptedAsDrafted(r, batch, naming, t);
    PreparedIsAdded(
      ItemsOf(p.itinerary, t.day), naming, t, r.w.row[t], EntriesFor(batch, r.w.row[t].id), k);
  }

  lemma AdditionsFollow(r: Round, batch: seq<Draft>, naming: Naming, p: Proposal)
    requires ValidRound(r) && Regenerated(r, p) && IsAccepted(r.base, r.w, batch, naming, r.accepted)
    ensures AdditionsAreIn(r, batch, naming, p)
  {
    forall t | Done(r, p, t, {Add})
      ensures
        var entries := EntriesFor(batch, r.w.row[t].id);
        && HasDay(p.itinerary, t.day) && |entries| == r.w.row[t].additionCount > 0
        && forall k :: 0 <= k < |entries| ==>
             && IsAdded(ItemsOf(p.itinerary, t.day), naming(t.day, r.w.row[t].id, k), entries[k])
             && HasDay(r.base, t.day) && KeepsTheRules(ItemsOf(r.base, t.day), t, r.w.row[t], entries[k])
             && naming(t.day, r.w.row[t].id, k) !in ExistingIds(r.base)
    {
      DraftStands(r, p, t, 0);
      AcceptedAsDrafted(r, batch, naming, t);
      forall k | 0 <= k < |EntriesFor(batch, r.w.row[t].id)|
        ensures IsAdded(ItemsOf(p.itinerary, t.day), naming(t.day, r.w.row[t].id, k),
                        EntriesFor(batch, r.w.row[t].id)[k])
        ensures KeepsTheRules(ItemsOf(r.base, t.day), t, r.w.row[t], EntriesFor(batch, r.w.row[t].id)[k])
        ensures naming(t.day, r.w.row[t].id, k) !in ExistingIds(r.base)
      {
        DraftIsIn(r, batch, naming, p, t, k);
        AcceptedKeepsTheRules(
          ExistingIds(r.base), naming, ItemsOf(r.base, t.day), t, r.w.row[t], EntriesFor(batch, r.w.row[t].id)[k], k);
      }
    }
  }

  /** An addition is addressed exactly if, at its target's turn, it has accepted drafts, they fit and
      every anchor is still there. */
  ghost predicate AdditionsAreAddressed(r: Round, p: Proposal)
    requires forall t :: t in r.w.order ==> t in r.w.row
  {
    forall i :: 0 <= i < |r.w.order| && r.w.row[r.w.order[i]].outcome == Add ==>
      && HasDay(r.base, r.w.order[i].day)
      && (r.w.row[r.w.order[i]].id in p.addressed <==>
            CanInsert(ItemsAtTurn(r.w, r.revisions, r.accepted, r.base.days[r.w.order[i].day - 1], i),
                      Drafted(r.accepted, r.w.row[r.w.order[i]].id)))
  }

  lemma AdditionsAreAddressedAtTheirTurn(r: Round, p: Proposal)
    requires ValidRound(r) && Regenerated(r, p)
    ensures AdditionsAreAddressed(r, p)
  {
    forall i | 0 <= i < |r.w.order| && r.w.row[r.w.order[i]].outcome == Add
      ensures HasDay(r.base, r.w.order[i].day)
      ensures r.w.row[r.w.order[i]].id in p.addressed <==>
        CanInsert(ItemsAtTurn(r.w, r.revisions, r.accepted, r.base.days[r.w.order[i].day - 1], i),
                  Drafted(r.accepted, r.w.row[r.w.order[i]].id))
    {
      assert Resolved(r.base, r.w.order[i]);
      AdditionIsAddressedExactlyWhen(
        r.base, r.w, p.scope, r.revisions, r.accepted, i, r.base.days[r.w.order[i].day - 1]);
    }
  }

  /** No other winning row is about the day of `t`. */
  predicate AloneOnItsDay(w: Winners, t: Target) {
    forall u :: u in w.row && u.day == t.day ==> u == t
  }

  /** The addition of `t` was accepted, and nothing else is to do on its day. */
  ghost predicate IsLoneAddition(r: Round, batch: seq<Draft>, naming: Naming, t: Target) {
    t in r.w.row && r.w.row[t].outcome == Add && AloneOnItsDay(r.w, t) && AcceptedFor(r.base, r.w, batch, naming, t)
  }

  /** With nothing else to do on its day, every acceptable addition is addressed. */
  ghost predicate LoneAdditionsAreAddressed(r: Round, batch: seq<Draft>, naming: Naming, p: Proposal) {
    forall t :: IsLoneAddition(r, batch, naming, t) ==> r.w.row[t].id in p.addressed
  }

  lemma {:induction false} NothingEdited(fate: Item -> Fate, items: seq<Item>)
    requires forall k :: 0 <= k < |items| ==> fate(items[k]).LeftAlone?
    ensures Edited(fate, items) == items
  {
    if items != [] {
      NothingEdited(fate, items[..|items| - 1]);
      assert items == items[..|items| - 1] + [items[|items| - 1]];
    }
  }

  lemma {:induction false} NothingInserted(
      w: Winners, order: seq<Target>, additions: Additions, day: int, items: seq<Item>)
    requires (forall t :: t in order ==> t in w.row) && forall t :: t in order ==> t.day != day
    ensures WithAdditions(w, order, additions, day, items).0 == items
  {
    if order != [] {
      NothingInserted(w, order[..|order| - 1], additions, day, items);
    }
  }

  lemma DayAsItStood(r: Round, t: Target, i: nat)
    requires ValidRound(r) && i < |r.w.order| && r.w.order[i] == t && r.w.row[t].outcome == Add
    requires AloneOnItsDay(r.w, t)
    ensures HasDay(r.base, t.day)
    ensures ItemsAtTurn(r.w, r.revisions, r.accepted, r.base.days[t.day - 1], i) == ItemsOf(r.base, t.day)
  {
    assert Resolved(r.base, t);
    var d := r.base.days[t.day - 1];
    forall k | 0 <= k < |d.items|
      ensures Fates(r.w, r.revisions, d.day)(d.items[k]).LeftAlone?
    {
      var own, whole := Target(d.day, Some(d.items[k].id)), Target(d.day, None);
      assert own in r.w.row ==> own == t;
      assert whole in r.w.row ==> whole == t;
    }
    NothingEdited(Fates(r.w, r.revisions, d.day), d.items);
    forall u | u in r.w.order[..i]
      ensures u.day != d.day
    {
      var j :| 0 <= j < i && r.w.order[j] == u;
      assert r.w.order[j] != r.w.order[i];
    }
    NothingInserted(r.w, r.w.order[..i], r.accepted, d.day, d.items);
  }

  lemma LoneAdditionIsAddressed(r: Round, batch: seq<Draft>, naming: Naming, p: Proposal, t: Target)
    requires ValidRound(r) && Regenerated(r, p) && IsAccepted(r.base, r.w, batch, naming, r.accepted)
    requires IsLoneAddition(r, batch, naming, t)
    ensures r.w.row[t].id in p.addressed
  {
    var i :| 0 <= i < |r.w.order| && r.w.order[i] == t;
    DayAsItStood(r, t, i);
    AcceptedDraftsFitTheirDay(r.base, r.w, batch, naming, r.accepted, t);
    AdditionIsAddressedExactlyWhen(
      r.base, r.w, p.scope, r.revisions, r.accepted, i, r.base.days[t.day - 1]);
  }

  lemma LoneAdditionsFollow(r: Round, batch: seq<Draft>, naming: Naming, p: Proposal)
    requires ValidRound(r) && Regenerated(r, p) && IsAccepted(r.base, r.w, batch, naming, r.accepted)
    ensures LoneAdditionsAreAddressed(r, batch, naming, p)
  {
    forall t | IsLoneAddition(r, batch, naming, t)
      ensures r.w.row[t].id in p.addressed
    {
      LoneAdditionIsAddressed(r, batch, naming, p, t);
    }
  }

  /** The `k`-th draft of the addition of `t` was accepted, but the row is not addressed. */
  predicate IsOpenDraft(r: Round, batch: seq<Draft>, p: Proposal, t: Target, k: int) {
    && t in r.w.row && r.w.row[t].id in r.accepted && r.w.row[t].id !in p.addressed
    && 0 <= k < |EntriesFor(batch, r.w.row[t].id)|
  }

  /** An addition that is not addressed left none of its drafts on any day. */
  ghost predicate OpenAdditionsAreOut(r: Round, batch: seq<Draft>, naming: Naming, p: Proposal) {
    forall t, k :: IsOpenDraft(r, batch, p, t, k) ==> IsGone(p.itinerary, naming(t.day, r.w.row[t].id, k))
  }

  lemma OpenAdditionIsOut(r: Round, batch: seq<Draft>, naming: Naming, p: Proposal, t: Target, k: nat)
    requires ValidRound(r) && Regenerated(r, p) && IsAccepted(r.base, r.w, batch, naming, r.accepted)
    requires IsOpenDraft(r, batch, p, t, k)
    ensures IsGone(p.itinerary, naming(t.day, r.w.row[t].id, k))
  {
    AcceptedAsDrafted(r, batch, naming, t);
    var x, drafted := naming(t.day, r.w.row[t].id, k), r.accepted[r.w.row[t].id];
    assert NewIds(drafted)[k] == AdditionId(drafted[k]) == x;
    DayByDay(r.w, p.scope, r.revisions, r.accepted, r.base.days);
    forall n | 0 <= n < |p.itinerary.days|
      ensures x !in Ids(p.itinerary.days[n].items)
    {
      UnaddressedAdditionIsOut(r.base, r.w, p.scope, r.revisions, r.accepted, t, n, x);
      NewDays(r, p, n);
    }
  }

  lemma OpenAdditionsFollow(r: Round, batch: seq<Draft>, naming: Naming, p: Proposal)
    requires ValidRound(r) && Regenerated(r, p) && IsAccepted(r.base, r.w, batch, naming, r.accepted)
    ensures OpenAdditionsAreOut(r, batch, naming, p)
  {
    forall t, k | IsOpenDraft(r, batch, p, t, k)
      ensures IsGone(p.itinerary, naming(t.day, r.w.row[t].id, k))
    {
      OpenAdditionIsOut(r, batch, naming, p, t, k);
    }
  }

  // ----- All of it

  /** Exactly the rows that can be honoured are addressed. */
  ghost predicate AddressesTheRightRows(r: Round, batch: seq<Draft>, naming: Naming, p: Proposal)
    requires ValidRound(r)
  {
    && ItemRowsAreAddressed(r, p) && DayRowsAreAddressed(r, p)
    && AdditionsAreAddressed(r, p) && LoneAdditionsAreAddressed(r, batch, naming, p)
  }

  /** What is addressed is done, and nothing else is. */
  ghost predicate DoesWhatItAddresses(r: Round, batch: seq<Draft>, naming: Naming, p: Proposal) {
    && RemovedItemsAreGone(r, p) && EditsAreMade(r, p) && TheRestStays(r, p)
    && AdditionsAreIn(r, batch, naming, p) && OpenAdditionsAreOut(r, batch, naming, p)
  }

  lemma RegenerationKeepsItsPromises(r: Round, batch: seq<Draft>, naming: Naming, p: Proposal)
    requires ValidRound(r) && Regenerated(r, p) && IsAccepted(r.base, r.w, batch, naming, r.accepted)
    ensures AddressesTheRightRows(r, batch, naming, p)
    ensures DoesWhatItAddresses(r, batch, naming, p)
  {
    ItemRowsFollow(r, p);
    DayRowsFollow(r, p);
    RemovalsFollow(r, p);
    EditsFollow(r, p);
    RestFollows(r, p);
    AdditionsAreAddressedAtTheirTurn(r, p);
    LoneAdditionsFollow(r, batch, naming, p);
    AdditionsFollow(r, batch, naming, p);
    OpenAdditionsFollow(r, batch, naming, p);
  }
}

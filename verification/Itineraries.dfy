/** The trip plan and the feedback on it (backend/app/agents/proposals.py and
    backend/app/agents/nodes/negotiation.py). */
module Itineraries {
  import opened Wrappers

  const MAX_ITEMS_PER_DAY := 10

  /** A time field: a clock time in minutes after midnight, or any other text. */
  datatype Time = Clock(minutes: nat) | Words(text: string)

  datatype Item = Item(
    id: string, title: string, time: Option<Time>, description: Option<string>,
    location: Option<string>, locationId: Option<string>, tags: seq<string>, cost: Option<real>)

  datatype Day = Day(day: int, date: Option<string>, items: seq<Item>)

  /** `details` stands for the fields that refinement carries along unread. */
  datatype Itinerary = Itinerary(details: string, days: seq<Day>)

  // ----- What a valid itinerary is

  function IdList(items: seq<Item>): seq<string> {
    seq(|items|, k requires 0 <= k < |items| => items[k].id)
  }

  /** How often each item id occurs. */
  function Ids(items: seq<Item>): multiset<string> {
    multiset(IdList(items))
  }

  ghost predicate ValidItem(i: Item) {
    i.id != "" && i.title != "" && (i.cost.Some? ==> i.cost.value >= 0.0)
  }

  ghost predicate NoRepeats(items: seq<Item>) {
    forall x :: Ids(items)[x] <= 1
  }

  ghost predicate ValidDay(d: Day) {
    && 1 <= |d.items| <= MAX_ITEMS_PER_DAY
    && NoRepeats(d.items)
    && forall k :: 0 <= k < |d.items| ==> ValidItem(d.items[k])
  }

  /** Days 1..n, each with 1 to 10 items, and every item id unique in the whole plan. */
  ghost predicate ValidItinerary(it: Itinerary) {
    && it.days != []
    && (forall n :: 0 <= n < |it.days| ==> it.days[n].day == n + 1 && ValidDay(it.days[n]))
    && forall n, m, x :: 0 <= n < m < |it.days| && x in Ids(it.days[n].items) ==> x !in Ids(it.days[m].items)
  }

  lemma IdsHas(items: seq<Item>, x: string)
    ensures x in Ids(items) <==> exists k :: 0 <= k < |items| && items[k].id == x
  {
    var ids := IdList(items);
    if x in Ids(items) {
      assert x in ids;
      var k :| 0 <= k < |ids| && ids[k] == x;
      assert items[k].id == x;
    }
    if k :| 0 <= k < |items| && items[k].id == x {
      assert ids[k] in multiset(ids);
    }
  }

  lemma IdsConcat(a: seq<Item>, b: seq<Item>)
    ensures Ids(a + b) == Ids(a) + Ids(b)
  {
    assert IdList(a + b) == IdList(a) + IdList(b);
  }

  /** Without repeats, an id names one position. */
  lemma IdNamesOnePosition(items: seq<Item>, i: nat, j: nat)
    requires NoRepeats(items) && i < |items| && j < |items| && items[i].id == items[j].id
    ensures i == j
  {
    if i < j { RepeatShows(items, i, j); }
    if j < i { RepeatShows(items, j, i); }
  }

  lemma RepeatShows(items: seq<Item>, i: nat, j: nat)
    requires i < j < |items| && items[i].id == items[j].id
    ensures Ids(items)[items[i].id] >= 2
  {
    var left, right := items[..j], items[j..];
    assert items == left + right;
    IdsConcat(left, right);
    IdsHas(left, left[i].id);
    IdsHas(right, right[0].id);
  }

  // ----- Feedback

  datatype Placement = BeforeAnchor | AfterAnchor

  /** What a comment asks for, as interpreted once per run. */
  datatype Outcome = Add | Edit | Remove | Retain | Unresolved

  /** `additionCount` and `directions` are what was read from the comment for additions. */
  datatype Feedback = Feedback(
    id: string, comment: string, outcome: Outcome, additionCount: nat, directions: set<Placement>)

  /** A day, or one item of a day. */
  datatype Target = Target(day: int, itemId: Option<string>)

  /** An open row with its resolved target; requests arrive oldest first. */
  datatype Request = Request(row: Feedback, target: Target)

  /** A row's raw target. `day` is absent, unreadable or a number; likewise `number` is the text
      read as a number. */
  datatype RawTarget =
    | Mapping(itemId: Option<string>, day: Option<Option<int>>)
    | Flat(text: string, number: Option<int>)
    | Unusable

  predicate HasDay(it: Itinerary, day: int) {
    1 <= day <= |it.days|
  }

  function ItemsOf(it: Itinerary, day: int): seq<Item>
    requires HasDay(it, day)
  {
    it.days[day - 1].items
  }

  function IndexOf(items: seq<Item>, id: string): (k: Option<nat>)
    ensures k.Some? ==> k.value < |items| && items[k.value].id == id
    ensures k.None? ==> forall j :: 0 <= j < |items| ==> items[j].id != id
  {
    if items == [] then None
    else if items[0].id == id then Some(0)
    else match IndexOf(items[1..], id)
      case None => None
      case Some(k) => Some(k + 1)
  }

  /** The target names a day of the plan, or an item of that day. */
  ghost predicate Resolved(it: Itinerary, t: Target) {
    HasDay(it, t.day) && (t.itemId.Some? ==> IndexOf(ItemsOf(it, t.day), t.itemId.value).Some?)
  }

  ghost predicate AllResolved(it: Itinerary, reqs: seq<Request>) {
    forall k :: 0 <= k < |reqs| ==> Resolved(it, reqs[k].target)
  }

  /** Feedback rows are distinct rows of one table. */
  ghost predicate DistinctRows(reqs: seq<Request>) {
    forall i, j :: 0 <= i < j < |reqs| ==> reqs[i].row.id != reqs[j].row.id
  }

  /** The day of the item with this id. */
  method LocateItem(it: Itinerary, id: string) returns (day: Option<int>)
    requires ValidItinerary(it)
    ensures day.Some? ==> Resolved(it, Target(day.value, Some(id)))
    ensures day.None? ==> forall n :: 0 <= n < |it.days| ==> id !in Ids(it.days[n].items)
  {
    for n := 0 to |it.days|
      invariant forall m :: 0 <= m < n ==> id !in Ids(it.days[m].items)
    {
      assert ItemsOf(it, n + 1) == it.days[n].items;
      if IndexOf(it.days[n].items, id).Some? {
        return Some(n + 1);
      }
      IdsHas(it.days[n].items, id);
    }
    return None;
  }

  ghost predicate NamesAnItem(it: Itinerary, id: string) {
    exists n :: 0 <= n < |it.days| && id in Ids(it.days[n].items)
  }

  lemma ResolvedNamesAnItem(it: Itinerary, t: Target)
    requires Resolved(it, t) && t.itemId.Some?
    ensures NamesAnItem(it, t.itemId.value)
  {
    IdsHas(ItemsOf(it, t.day), t.itemId.value);
    assert it.days[t.day - 1].items == ItemsOf(it, t.day);
  }

  /** An exact item id first, a day number second; anything else stays open. */
  method ResolveTarget(it: Itinerary, raw: RawTarget) returns (t: Option<Target>)
    requires ValidItinerary(it)
    ensures t.Some? ==> Resolved(it, t.value)
    ensures
      match raw
      case Unusable => t.None?
      case Mapping(Some(id), _) => if NamesAnItem(it, id) then t.Some? && t.value.itemId == Some(id) else t.None?
      case Mapping(None, day) =>
        t == if day.Some? && day.value.Some? && HasDay(it, day.value.value) then Some(Target(day.value.value, None))
             else None
      case Flat(text, number) =>
        if text != "" && NamesAnItem(it, text) then t.Some? && t.value.itemId == Some(text)
        else t == if text != "" && number.Some? && HasDay(it, number.value) then Some(Target(number.value, None))
                  else None
  {
    match raw
    case Unusable => return None;
    case Mapping(Some(id), _) =>
      var day := LocateItem(it, id);
      if day.Some? {
        ResolvedNamesAnItem(it, Target(day.value, Some(id)));
        return Some(Target(day.value, Some(id)));
      }
      return None;
    case Mapping(None, day) =>
      if day.Some? && day.value.Some? && HasDay(it, day.value.value) {
        return Some(Target(day.value.value, None));
      }
      return None;
    case Flat(text, number) =>
      if text == "" {
        return None;
      }
      var day := LocateItem(it, text);
      if day.Some? {
        ResolvedNamesAnItem(it, Target(day.value, Some(text)));
        return Some(Target(day.value, Some(text)));
      }
      if number.Some? && HasDay(it, number.value) {
        return Some(Target(number.value, None));
      }
      return None;
  }

  // ----- The affected scope

  /** Days and items a refinement may touch. */
  datatype Scope = Scope(wholeDays: set<int>, items: map<int, set<string>>)

  predicate Stated(t: Option<Time>) {
    t.Some? && t.value != Words("")
  }

  /** Target `t` puts the item at position `k` of its day in scope: the day itself is named, or
      the item, a neighbour of it, or one that shares its stated time. */
  ghost predicate Touches(items: seq<Item>, t: Target, k: int)
    requires 0 <= k < |items|
  {
    t.itemId.None? ||
    exists j :: 0 <= j < |items| && items[j].id == t.itemId.value && NextTo(items, j, k)
  }

  ghost predicate NextTo(items: seq<Item>, j: int, k: int)
    requires 0 <= j < |items| && 0 <= k < |items|
  {
    j - 1 <= k <= j + 1 || (Stated(items[j].time) && items[k].time == items[j].time)
  }

  ghost predicate TouchesId(items: seq<Item>, t: Target, id: string) {
    exists k :: 0 <= k < |items| && items[k].id == id && Touches(items, t, k)
  }

  ghost predicate InScope(scope: Scope, day: int, id: string) {
    day in scope.items && id in scope.items[day]
  }

  ghost predicate TouchedBy(it: Itinerary, reqs: seq<Request>, day: int, id: string) {
    && HasDay(it, day)
    && exists r :: 0 <= r < |reqs| && reqs[r].target.day == day && TouchesId(ItemsOf(it, day), reqs[r].target, id)
  }

  ghost predicate NamedWhole(it: Itinerary, reqs: seq<Request>, day: int) {
    HasDay(it, day) && exists r :: 0 <= r < |reqs| && reqs[r].target == Target(day, None)
  }

  ghost predicate IsScopeOf(it: Itinerary, reqs: seq<Request>, scope: Scope) {
    && (forall d :: d in scope.wholeDays <==> NamedWhole(it, reqs, d))
    && (forall d, x :: InScope(scope, d, x) <==> TouchedBy(it, reqs, d, x))
    && (forall d :: d in scope.items ==> scope.items[d] != {})
  }

  function AffectedDays(scope: Scope): set<int> {
    scope.wholeDays + scope.items.Keys
  }

  /** The ids one target touches in its day. */
  method TouchedIds(items: seq<Item>, t: Target) returns (ids: set<string>)
    requires NoRepeats(items)
    ensures forall x :: x in ids <==> TouchesId(items, t, x)
  {
    ids := {};
    if t.itemId.None? {
      for k := 0 to |items|
        invariant forall x :: x in ids <==> exists j :: 0 <= j < k && items[j].id == x
      {
        ids := ids + {items[k].id};
      }
      return;
    }
    var found := IndexOf(items, t.itemId.value);
    if found.None? {
      return;
    }
    var idx := found.value;
    ids := {items[idx].id};
    if Stated(items[idx].time) {
      for k := 0 to |items|
        invariant forall x :: x in ids <==>
          (x == items[idx].id || exists j :: 0 <= j < k && items[j].id == x && items[j].time == items[idx].time)
      {
        if items[k].time == items[idx].time {
          ids := ids + {items[k].id};
        }
      }
    }
    if idx > 0 {
      ids := ids + {items[idx - 1].id};
    }
    if idx < |items| - 1 {
      ids := ids + {items[idx + 1].id};
    }
    forall k | 0 <= k < |items|
      ensures Touches(items, t, k) <==> NextTo(items, idx, k)
    {
      if j :| 0 <= j < |items| && items[j].id == t.itemId.value && NextTo(items, j, k) {
        IdNamesOnePosition(items, j, idx);
      }
    }
    forall x
      ensures x in ids <==> exists k :: 0 <= k < |items| && items[k].id == x && NextTo(items, idx, k)
    {
      if x == items[idx].id { assert NextTo(items, idx, idx); }
      if idx > 0 && x == items[idx - 1].id { assert NextTo(items, idx, idx - 1); }
      if idx < |items| - 1 && x == items[idx + 1].id { assert NextTo(items, idx, idx + 1); }
    }
  }

  /** The scope with one more target's day and ids. */
  ghost predicate Widened(before: Scope, t: Target, ids: set<string>, after: Scope) {
    && after.wholeDays == (if t.itemId.None? then before.wholeDays + {t.day} else before.wholeDays)
    && after.items == if ids == {} then before.items
                      else before.items[t.day := (if t.day in before.items then before.items[t.day] else {}) + ids]
  }

  lemma ScopeOfOneMore(it: Itinerary, reqs: seq<Request>, r: nat, before: Scope, ids: set<string>, after: Scope)
    requires r < |reqs| && IsScopeOf(it, reqs[..r], before) && HasDay(it, reqs[r].target.day)
    requires forall x :: x in ids <==> TouchesId(ItemsOf(it, reqs[r].target.day), reqs[r].target, x)
    requires Widened(before, reqs[r].target, ids, after)
    ensures IsScopeOf(it, reqs[..r + 1], after)
  {
    var t := reqs[r].target;
    forall d, x
      ensures InScope(after, d, x) <==> TouchedBy(it, reqs[..r + 1], d, x)
    {
      TouchedByOneMore(it, reqs, r, d, x);
      assert InScope(before, d, x) <==> TouchedBy(it, reqs[..r], d, x);
      assert InScope(after, d, x) <==> InScope(before, d, x) || (d == t.day && x in ids);
    }
    WholeDaysOneMore(it, reqs, r, before, after);
  }

  lemma WholeDaysOneMore(it: Itinerary, reqs: seq<Request>, r: nat, before: Scope, after: Scope)
    requires r < |reqs| && IsScopeOf(it, reqs[..r], before) && HasDay(it, reqs[r].target.day)
    requires after.wholeDays ==
      if reqs[r].target.itemId.None? then before.wholeDays + {reqs[r].target.day} else before.wholeDays
    ensures forall d :: d in after.wholeDays <==> NamedWhole(it, reqs[..r + 1], d)
  {
  }

  lemma TouchedByOneMore(it: Itinerary, reqs: seq<Request>, r: nat, d: int, x: string)
    requires r < |reqs|
    ensures TouchedBy(it, reqs[..r + 1], d, x) <==>
      || TouchedBy(it, reqs[..r], d, x)
      || (HasDay(it, d) && reqs[r].target.day == d && TouchesId(ItemsOf(it, d), reqs[r].target, x))
  {
  }

  /** A target on a day the plan does not have touches nothing. */
  lemma NothingOneMore(it: Itinerary, reqs: seq<Request>, r: nat, scope: Scope)
    requires r < |reqs| && IsScopeOf(it, reqs[..r], scope) && !HasDay(it, reqs[r].target.day)
    ensures IsScopeOf(it, reqs[..r + 1], scope)
  {
  }

  method ComputeAffectedScope(it: Itinerary, reqs: seq<Request>) returns (scope: Scope)
    requires ValidItinerary(it)
    ensures IsScopeOf(it, reqs, scope)
  {
    scope := Scope({}, map[]);
    for r := 0 to |reqs|
      invariant IsScopeOf(it, reqs[..r], scope)
    {
      var t := reqs[r].target;
      if !HasDay(it, t.day) {
        NothingOneMore(it, reqs, r, scope);
        continue;
      }
      ghost var before := scope;
      var ids := TouchedIds(ItemsOf(it, t.day), t);
      if ids != {} {
        var known := if t.day in scope.items then scope.items[t.day] else {};
        scope := scope.(items := scope.items[t.day := known + ids]);
      }
      if t.itemId.None? {
        scope := scope.(wholeDays := scope.wholeDays + {t.day});
      }
      ScopeOfOneMore(it, reqs, r, before, ids, scope);
    }
    assert reqs[..|reqs|] == reqs;
  }
}

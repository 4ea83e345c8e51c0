/** How long a trip is and on which days it falls (backend/app/core/trip_dates.py), and the
    leader's later change of those dates (backend/app/services/trip_dates_service.py).

    A date is its proleptic day number: day 1 is 1 January of year 1, a Monday. */
module TripDates {
  import opened Wrappers
  import opened Availability

  const MIN_TRIP_DAYS := 2
  const MAX_TRIP_DAYS := 14
  const DEFAULT_TRIP_DAYS := 5
  const EARLIEST_START_DAYS := 1
  const STAY_BUDGET_SHARE := 0.6

  // ----- Shared windows

  /** The valid windows of a stored overlap. */
  method Windows(overlap: seq<Entry>) returns (result: seq<Range>)
    ensures result == UsableEntries(overlap)
  {
    result := [];
    for k := 0 to |overlap|
      invariant result == UsableEntries(overlap[..k])
    {
      var e := overlap[k];
      assert overlap[..k + 1][..k] == overlap[..k];
      if e.Dates? && e.start.Some? && e.end.Some? && e.end.value >= e.start.value {
        result := result + [Range(e.start.value, e.end.value)];
      }
    }
    assert overlap[..|overlap|] == overlap;
  }

  /** The overlap as it is stored, one entry per range. */
  function AsEntries(ws: seq<Range>): seq<Entry> {
    seq(|ws|, i requires 0 <= i < |ws| => Dates(Some(ws[i].start), Some(ws[i].end)))
  }

  /** Storing the party's overlap and reading its windows back loses nothing. */
  lemma {:induction false} StoredOverlapReadsBack(ws: seq<Range>)
    requires WellFormed(ws)
    ensures UsableEntries(AsEntries(ws)) == ws
  {
    if ws != [] {
      var front := ws[..|ws| - 1];
      assert AsEntries(ws)[..|ws| - 1] == AsEntries(front);
      StoredOverlapReadsBack(front);
      assert ws == front + [ws[|ws| - 1]];
    }
  }

  function Length(w: Range): int {
    w.end - w.start + 1
  }

  /** Length of the longest window, 0 when there is none. */
  function Longest(ws: seq<Range>): (n: int)
    ensures ws == [] ==> n == 0
    ensures ws != [] ==> exists i :: 0 <= i < |ws| && Length(ws[i]) == n
    ensures forall i :: 0 <= i < |ws| ==> Length(ws[i]) <= n
  {
    if |ws| == 0 then 0
    else if |ws| == 1 then Length(ws[0])
    else
      var front := ws[..|ws| - 1];
      var n, l := Longest(front), Length(ws[|ws| - 1]);
      assert forall i :: 0 <= i < |front| ==> ws[i] == front[i];
      if l > n then l else n
  }

  // ----- Picking dates

  predicate IsWeekend(day: int) {
    (day + 6) % 7 >= 5
  }

  lemma SaturdayOrSunday(day: int)
    ensures IsWeekend(day) <==> day % 7 == 6 || day % 7 == 0
  {
  }

  /** The Saturdays and Sundays from `start` up to, but not including, `end`. */
  ghost function Weekends(start: int, end: int): set<int> {
    set d | start <= d < end && (d % 7 == 6 || d % 7 == 0)
  }

  lemma OneMoreDay(start: int, last: int)
    requires start <= last
    ensures |Weekends(start, last + 1)| == |Weekends(start, last)| + if IsWeekend(last) then 1 else 0
  {
    SaturdayOrSunday(last);
    assert Weekends(start, last + 1) == Weekends(start, last) + if IsWeekend(last) then {last} else {};
  }

  /** How many of the `days` days from `start` on are a Saturday or a Sunday: day 6 is the first
      Saturday. */
  function WeekendDays(start: int, days: int): (n: int)
    ensures n == |set d | start <= d < start + days && (d % 7 == 6 || d % 7 == 0)|
    decreases days
  {
    assert (set d | start <= d < start + days && (d % 7 == 6 || d % 7 == 0)) == Weekends(start, start + days);
    if days <= 0 then
      assert Weekends(start, start + days) == {};
      0
    else
      OneMoreDay(start, start + days - 1);
      WeekendDays(start, days - 1) + if IsWeekend(start + days - 1) then 1 else 0
  }

  /** `days` days from `d` on lie inside one window. */
  ghost predicate IsCandidate(ws: seq<Range>, days: int, d: int) {
    exists i :: 0 <= i < |ws| && ws[i].start <= d && d + days - 1 <= ws[i].end
  }

  /** Tomorrow or later is best, then today, then the past. */
  function Tier(d: int, today: int): int {
    if d >= today + EARLIEST_START_DAYS then 0 else if d >= today then 1 else 2
  }

  /** `a` is the better start: earlier tier, then more weekend days, then the earlier day. */
  predicate AtLeastAsGood(a: int, b: int, days: int, today: int) {
    var ta, tb, wa, wb := Tier(a, today), Tier(b, today), WeekendDays(a, days), WeekendDays(b, days);
    ta < tb || (ta == tb && (wa > wb || (wa == wb && a <= b)))
  }

  ghost predicate IsBestStart(ws: seq<Range>, days: int, today: int, d: int) {
    && IsCandidate(ws, days, d)
    && forall other :: IsCandidate(ws, days, other) ==> AtLeastAsGood(d, other, days, today)
  }

  method PickDates(overlap: seq<Entry>, days: int, today: int) returns (dates: Option<(int, int)>)
    ensures dates.None? <==> forall d :: !IsCandidate(UsableEntries(overlap), days, d)
    ensures dates.Some? ==>
      && IsBestStart(UsableEntries(overlap), days, today, dates.value.0)
      && dates.value.1 == dates.value.0 + days - 1
  {
    var ws := Windows(overlap);
    var candidates := CandidateStarts(ws, days);
    if candidates == [] {
      return None;
    }
    assert candidates[0] in candidates;
    var fromTomorrow := From(candidates, today + EARLIEST_START_DAYS);
    var notPast := From(candidates, today);
    var pool := if fromTomorrow != [] then fromTomorrow
                else if notPast != [] then notPast
                else candidates;
    var best := MostWeekend(pool, days);
    assert best in pool && best in candidates;
    forall d | d in candidates
      ensures AtLeastAsGood(best, d, days, today)
    {
      if fromTomorrow != [] {
        assert d in fromTomorrow <==> d >= today + EARLIEST_START_DAYS;
      } else if notPast != [] {
        assert d !in fromTomorrow;
        assert d in notPast <==> d >= today;
      } else {
        assert d !in notPast;
        assert d in pool;
      }
    }
    return Some((best, best + days - 1));
  }

  /** Every start from which `days` days stay inside a window. */
  method CandidateStarts(ws: seq<Range>, days: int) returns (candidates: seq<int>)
    ensures forall d :: d in candidates <==> IsCandidate(ws, days, d)
  {
    candidates := [];
    for i := 0 to |ws|
      invariant forall d :: d in candidates <==> IsCandidate(ws[..i], days, d)
    {
      ghost var before := candidates;
      var lastStart := ws[i].end - (days - 1);
      var day := ws[i].start;
      while day <= lastStart
        invariant ws[i].start <= day
        invariant day <= lastStart + 1 || day == ws[i].start
        invariant forall d :: d in candidates <==> d in before || ws[i].start <= d < day
        decreases lastStart - day
      {
        candidates := candidates + [day];
        day := day + 1;
      }
      forall d
        ensures d in candidates <==> IsCandidate(ws[..i + 1], days, d)
      {
        OneMoreWindow(ws, i, days, d);
      }
    }
    assert ws[..|ws|] == ws;
  }

  lemma OneMoreWindow(ws: seq<Range>, i: nat, days: int, d: int)
    requires i < |ws|
    ensures IsCandidate(ws[..i + 1], days, d)
       <==> IsCandidate(ws[..i], days, d) || (ws[i].start <= d && d + days - 1 <= ws[i].end)
  {
  }

  method From(candidates: seq<int>, earliest: int) returns (kept: seq<int>)
    ensures forall d :: d in kept <==> d in candidates && d >= earliest
  {
    kept := [];
    for k := 0 to |candidates|
      invariant forall d :: d in kept <==> d in candidates[..k] && d >= earliest
    {
      if candidates[k] >= earliest {
        kept := kept + [candidates[k]];
      }
      assert candidates[..k + 1] == candidates[..k] + [candidates[k]];
    }
    assert candidates[..|candidates|] == candidates;
  }

  /** The pool's start with the most weekend days, the earliest among equals. */
  method MostWeekend(pool: seq<int>, days: int) returns (best: int)
    requires pool != []
    ensures best in pool
    ensures forall d :: d in pool ==>
      || WeekendDays(best, days) > WeekendDays(d, days)
      || (WeekendDays(best, days) == WeekendDays(d, days) && best <= d)
  {
    best := pool[0];
    for k := 1 to |pool|
      invariant best in pool
      invariant forall d :: d in pool[..k] ==>
        || WeekendDays(best, days) > WeekendDays(d, days)
        || (WeekendDays(best, days) == WeekendDays(d, days) && best <= d)
    {
      var d := pool[k];
      var wb, wd := WeekendDays(best, days), WeekendDays(d, days);
      if wd > wb || (wd == wb && d < best) {
        best := d;
      }
      assert pool[..k + 1] == pool[..k] + [d];
    }
    assert pool[..|pool|] == pool;
  }

  /** A start is best if none is later than today unless it is, none is today or later unless it is,
      and among those like it none has more weekend days, or as many and comes earlier. */
  lemma BestStartMeans(ws: seq<Range>, days: int, today: int, d: int)
    ensures IsBestStart(ws, days, today, d) <==>
      && IsCandidate(ws, days, d)
      && forall other :: IsCandidate(ws, days, other) ==>
           && (other > today ==> d > today) && (other >= today ==> d >= today)
           && ((other > today <==> d > today) && (other >= today <==> d >= today) ==>
                 || WeekendDays(d, days) > WeekendDays(other, days)
                 || (WeekendDays(d, days) == WeekendDays(other, days) && d <= other))
  {
    assert forall other :: Tier(other, today) == if other > today then 0 else if other == today then 1 else 2;
  }

  /** Two days out of a week that begins on Monday 8: the weekend, Saturday 13 and Sunday 14. */
  lemma AWeekGivesItsWeekend(d: int)
    requires IsBestStart([Range(8, 14)], 2, 1, d)
    ensures d == 13
  {
    assert IsCandidate([Range(8, 14)], 2, 13);
    assert WeekendDays(13, 1) == 1 && WeekendDays(13, 2) == 2;
    assert WeekendDays(d, 2) == WeekendDays(d, 1) + if IsWeekend(d + 1) then 1 else 0;
  }

  /** The best start is unique: the choice does not depend on the order of the windows. */
  lemma BestStartUnique(ws: seq<Range>, vs: seq<Range>, days: int, today: int, a: int, b: int)
    requires IsBestStart(ws, days, today, a) && IsBestStart(vs, days, today, b)
    requires forall d :: IsCandidate(ws, days, d) <==> IsCandidate(vs, days, d)
    ensures a == b
  {
  }

  /** `merged` lists, per member, the canonical ranges of that member. */
  ghost predicate MergedPerMember(party: seq<AvailableDates>, merged: seq<seq<Range>>) {
    && |merged| == |party|
    && forall m :: 0 <= m < |party| ==> Canonical(merged[m]) && SameTime(merged[m], UsableRanges(party[m]))
  }

  ghost predicate InsideOneRange(rs: seq<Range>, first: int, last: int) {
    exists i :: 0 <= i < |rs| && rs[i].start <= first && last <= rs[i].end
  }

  /** A stretch is a candidate exactly when each date-supplying member can take it in one piece. */
  lemma CandidateMeansFreeForEveryone(
      party: seq<AvailableDates>, merged: seq<seq<Range>>, overlap: seq<Range>, days: int, d: int)
    requires days >= 1 && IsOverlap(party, overlap) && MergedPerMember(party, merged)
    requires exists m :: 0 <= m < |party| && SuppliesDates(party[m])
    ensures IsCandidate(overlap, days, d)
       <==> forall m :: 0 <= m < |party| && SuppliesDates(party[m]) ==> InsideOneRange(merged[m], d, d + days - 1)
  {
    var last := d + days - 1;
    StretchInOneRange(overlap, d, last);
    forall m | 0 <= m < |party|
      ensures InsideOneRange(merged[m], d, last)
         <==> forall h :: 2 * d <= h <= 2 * last ==> Free(UsableRanges(party[m]), h)
    {
      StretchInOneRange(merged[m], d, last);
      assert forall h :: Free(merged[m], h) <==> Free(UsableRanges(party[m]), h);
    }
    if forall m :: 0 <= m < |party| && SuppliesDates(party[m]) ==> InsideOneRange(merged[m], d, last) {
      forall h | 2 * d <= h <= 2 * last
        ensures Free(overlap, h)
      {
        assert SharedBy(party, h);
      }
    }
    if IsCandidate(overlap, days, d) {
      forall m | 0 <= m < |party| && SuppliesDates(party[m])
        ensures InsideOneRange(merged[m], d, last)
      {
        forall h | 2 * d <= h <= 2 * last
          ensures Free(UsableRanges(party[m]), h)
        {
          assert Free(overlap, h);
          assert SharedBy(party, h);
        }
      }
    }
  }

  // ----- Planning a trip

  datatype Note = WindowTooShort | OverBudget

  datatype TripPlan = TripPlan(days: int, start: int, end: int, note: Option<Note>)

  /** The length asked for, before windows and money are looked at. */
  function WantedDays(suggested: Option<int>): int {
    var wanted := if suggested.Some? && suggested.value > 0 then suggested.value else DEFAULT_TRIP_DAYS;
    if wanted < MIN_TRIP_DAYS then MIN_TRIP_DAYS
    else if wanted > MAX_TRIP_DAYS then MAX_TRIP_DAYS
    else wanted
  }

  function AtMost(a: int, b: int): int {
    if a <= b then a else b
  }

  /** A limit and a positive daily cost are both stated. */
  predicate HasBudget(dailyCost: Option<real>, limit: Option<real>) {
    limit.Some? && limit.value != 0.0 && dailyCost.Some? && dailyCost.value > 0.0
  }

  predicate Fits(days: int, cost: real, budget: real) {
    days as real * cost <= budget
  }

  predicate Affordable(days: int, dailyCost: Option<real>, limit: Option<real>) {
    HasBudget(dailyCost, limit) ==> Fits(days, dailyCost.value, limit.value * STAY_BUDGET_SHARE)
  }

  /** The length is the most that was wanted, is free and is affordable, down to a floor. */
  ghost predicate LengthIsRight(
      days: int, longest: int, suggested: Option<int>, dailyCost: Option<real>, limit: Option<real>)
  {
    var most, floor := AtMost(WantedDays(suggested), longest), AtMost(MIN_TRIP_DAYS, longest);
    && floor <= days <= most
    && (days > floor ==> Affordable(days, dailyCost, limit))
    && (forall longer :: days < longer <= most ==> !Affordable(longer, dailyCost, limit))
  }

  /** Money is named when the most that was wanted and is free is not affordable, else the window
      when it is shorter than wanted. */
  ghost predicate NoteIsRight(
      note: Option<Note>, longest: int, suggested: Option<int>, dailyCost: Option<real>, limit: Option<real>)
  {
    var most := AtMost(WantedDays(suggested), longest);
    note == if !Affordable(most, dailyCost, limit) then Some(OverBudget)
            else if most < WantedDays(suggested) then Some(WindowTooShort)
            else None
  }

  method PlanTrip(
      overlap: seq<Entry>, suggested: Option<int>, dailyCost: Option<real>, limit: Option<real>, today: int)
    returns (plan: Option<TripPlan>)
    ensures plan.None? <==> UsableEntries(overlap) == []
    ensures plan.Some? ==>
      var ws, p := UsableEntries(overlap), plan.value;
      && 1 <= p.days
      && LengthIsRight(p.days, Longest(ws), suggested, dailyCost, limit)
      && IsBestStart(ws, p.days, today, p.start)
      && p.end == p.start + p.days - 1
    ensures plan.Some? ==>
      NoteIsRight(plan.value.note, Longest(UsableEntries(overlap)), suggested, dailyCost, limit)
  {
    var ws := Windows(overlap);
    if ws == [] {
      return None;
    }
    var available := Longest(ws);
    assert available >= 1 by {
      UsableEntriesAreTheWellFormedOnes(overlap, Range(0, 0));
      assert ws[0].start <= ws[0].end;
    }
    var days, note := ChooseLength(available, suggested, dailyCost, limit);
    var dates := PickDates(overlap, days, today);
    assert dates.Some? by {
      var i :| 0 <= i < |ws| && Length(ws[i]) == available;
      assert IsCandidate(ws, days, ws[i].start);
    }
    return Some(TripPlan(days, dates.value.0, dates.value.1, note));
  }

  /** The length of the plan and why it was shortened, given the longest shared window. */
  method ChooseLength(available: int, suggested: Option<int>, dailyCost: Option<real>, limit: Option<real>)
    returns (days: int, note: Option<Note>)
    requires available >= 1
    ensures days >= 1 && LengthIsRight(days, available, suggested, dailyCost, limit)
    ensures NoteIsRight(note, available, suggested, dailyCost, limit)
  {
    days := WantedDays(suggested);
    note := None;
    if days > available {
      days := available;
      note := Some(WindowTooShort);
    }
    if HasBudget(dailyCost, limit) {
      var budget := limit.value * STAY_BUDGET_SHARE;
      var affordable := (budget / dailyCost.value).Floor;
      AffordableUpTo(affordable, dailyCost.value, budget);
      assert Fits(days, dailyCost.value, budget) <==> days <= affordable;
      if affordable < days {
        var floor := AtMost(MIN_TRIP_DAYS, available);
        days := if floor >= affordable then floor else affordable;
        note := Some(OverBudget);
      }
    }
    days := if days >= 1 then days else 1;
  }

  /** What is suggested is what the trip gets, between two days and fourteen, where it is free and
      affordable; without a suggestion it is five days. */
  lemma SuggestionIsFollowed(
      days: int, longest: int, suggested: Option<int>, dailyCost: Option<real>, limit: Option<real>)
    requires LengthIsRight(days, longest, suggested, dailyCost, limit) && Affordable(days + 1, dailyCost, limit)
    ensures days < longest ==>
      && (suggested.None? || suggested.value <= 0 ==> days == 5)
      && (suggested.Some? && 1 <= suggested.value <= 2 ==> days == 2)
      && (suggested.Some? && 2 <= suggested.value <= 14 ==> days == suggested.value)
      && (suggested.Some? && suggested.value >= 14 ==> days == 14)
  {
  }

  /** The stay takes at most six tenths of the limit unless the trip is at its shortest, and one day
      more would take more, unless the trip is as long as was asked for or is free. */
  lemma PlanFitsTheBudget(
      days: int, longest: int, suggested: Option<int>, cost: real, limit: real)
    requires LengthIsRight(days, longest, suggested, Some(cost), Some(limit)) && cost > 0.0 && limit != 0.0
    ensures days > 2 ==> days as real * cost <= limit * 0.6
    ensures days < longest && days < WantedDays(suggested) ==> (days + 1) as real * cost > limit * 0.6
  {
    if days < longest && days < WantedDays(suggested) {
      assert !Affordable(days + 1, Some(cost), Some(limit));
    }
  }

  /** The note blames the budget although money shortened nothing, exactly if the stay is not
      affordable and is already no longer than the floor of two days. */
  lemma BudgetNoteIsIdleExactlyWhen(
      days: int, note: Option<Note>, longest: int, suggested: Option<int>, dailyCost: Option<real>, limit: Option<real>)
    requires longest >= 1 && LengthIsRight(days, longest, suggested, dailyCost, limit)
    requires NoteIsRight(note, longest, suggested, dailyCost, limit)
    ensures
      var most := AtMost(WantedDays(suggested), longest);
      note == Some(OverBudget) && days == most <==>
        !Affordable(most, dailyCost, limit) && most <= MIN_TRIP_DAYS
  {
  }

  /** Such a plan: the party shares two days, five are asked for, and not even one is affordable.
      The trip is two days long, as without a budget, and yet the note blames the budget. */
  lemma BudgetNoteCanBeIdle(days: int, note: Option<Note>)
    requires LengthIsRight(days, 2, Some(5), Some(100.0), Some(100.0))
    requires NoteIsRight(note, 2, Some(5), Some(100.0), Some(100.0))
    ensures days == 2 && note == Some(OverBudget)
    ensures LengthIsRight(days, 2, Some(5), None, None)
  {
  }

  /** Flooring the quotient gives exactly the lengths that fit the budget. */
  lemma AffordableUpTo(affordable: int, cost: real, budget: real)
    requires cost > 0.0 && affordable == (budget / cost).Floor
    ensures forall days: int :: Fits(days, cost, budget) <==> days <= affordable
  {
    var q := budget / cost;
    assert q * cost == budget;
    forall days: int
      ensures Fits(days, cost, budget) <==> days <= affordable
    {
      MultiplyKeepsOrder(days as real, q, cost);
    }
  }

  lemma MultiplyKeepsOrder(a: real, b: real, cost: real)
    requires cost > 0.0
    ensures a * cost <= b * cost <==> a <= b
  {
  }

  // ----- Changing the dates later

  datatype ChangeError = BadLength | InThePast | OutsideWindows

  function LeastDays(ws: seq<Range>): int {
    var n := AtMost(MIN_TRIP_DAYS, Longest(ws));
    if n >= 1 then n else 1
  }

  function MostDays(ws: seq<Range>): int {
    var n := AtMost(MAX_TRIP_DAYS, Longest(ws));
    if n >= 1 then n else 1
  }

  /** A change may ask for two to fourteen days, as far as the longest window goes; where that is a
      single day, for that one. */
  lemma AllowedLengths(ws: seq<Range>, days: int)
    requires Longest(ws) >= 1
    ensures LeastDays(ws) <= days <= MostDays(ws) <==>
      1 <= days <= 14 && days <= Longest(ws) && (days >= 2 || Longest(ws) == 1)
  {
  }

  /** The checks the leader's change of dates must pass, in order; `None` accepts. */
  method CheckChange(ws: seq<Range>, days: int, start: int, today: int) returns (error: Option<ChangeError>)
    ensures error.None? <==>
      LeastDays(ws) <= days <= MostDays(ws) && start >= today && IsCandidate(ws, days, start)
    ensures error == Some(BadLength) <==> !(LeastDays(ws) <= days <= MostDays(ws))
    ensures error == Some(InThePast) <==> LeastDays(ws) <= days <= MostDays(ws) && start < today
  {
    var end := start + days - 1;
    if !(LeastDays(ws) <= days <= MostDays(ws)) {
      return Some(BadLength);
    }
    if start < today {
      return Some(InThePast);
    }
    for i := 0 to |ws|
      invariant forall k :: 0 <= k < i ==> !(ws[k].start <= start && end <= ws[k].end)
    {
      if ws[i].start <= start && end <= ws[i].end {
        return None;
      }
    }
    return Some(OutsideWindows);
  }

  /** Every plan that does not start in the past is one the leader could also set by hand. */
  lemma PlansPassTheChangeChecks(
      ws: seq<Range>, p: TripPlan, suggested: Option<int>, dailyCost: Option<real>, limit: Option<real>,
      today: int)
    requires ws != [] && 1 <= p.days && IsBestStart(ws, p.days, today, p.start)
    requires LengthIsRight(p.days, Longest(ws), suggested, dailyCost, limit)
    ensures LeastDays(ws) <= p.days <= MostDays(ws)
    ensures p.days <= MAX_TRIP_DAYS && IsCandidate(ws, p.days, p.start)
    ensures HasBudget(dailyCost, limit) ==>
      Affordable(p.days, dailyCost, limit) || p.days == LeastDays(ws)
    ensures (p.start < today) ==> forall d :: IsCandidate(ws, p.days, d) ==> d < today
  {
  }
}

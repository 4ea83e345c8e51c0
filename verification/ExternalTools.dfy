/** Capped, cached, retried calls of external tools (backend/app/agents/tools/base.py, with the
    accumulators of backend/app/agents/state.py). */
module ExternalTools {
  import opened Wrappers

  const MAX_ATTEMPTS := 2

  /** What one attempt brings: a valid response, an answer of the wrong shape, a transport error,
      or any other failure. */
  datatype Reply = Valid(response: string) | WrongShape | TransportError | OtherError

  /** The part of the run state that tools use. */
  datatype State = State(calls: nat, responses: seq<string>, cap: nat)

  function WithFailedToolAttempt(s: State): State {
    s.(calls := s.calls + 1)
  }

  function AppendToolResponse(s: State, response: string): (next: Option<State>)
    ensures next.Some? <==> |s.responses| < s.cap
  {
    if |s.responses| + 1 > s.cap then None
    else Some(s.(responses := s.responses + [response], calls := s.calls + 1))
  }

  datatype Outcome = Ok(response: string, state: State) | CapExceeded | Unavailable | BoundExceeded

  type Cache = map<string, string>

  // ----- One invocation

  /** The response the attempts from `attempt` on bring, and how many attempts that takes. */
  function Attempts(replies: nat -> Reply, attempt: nat): (r: (Option<string>, nat))
    requires attempt < MAX_ATTEMPTS
    ensures 1 <= r.1 <= MAX_ATTEMPTS - attempt
    decreases MAX_ATTEMPTS - attempt
  {
    match replies(attempt)
    case Valid(response) => (Some(response), 1)
    case TransportError =>
      if attempt == MAX_ATTEMPTS - 1 then (None, 1)
      else
        var (response, more) := Attempts(replies, attempt + 1);
        (response, more + 1)
    case _ => (None, 1)
  }

  /** A cached answer is free. Otherwise, below the cap, the attempts are counted, and a response
      is recorded and counted once more. */
  function Invocation(cache: Cache, s: State, params: string, replies: nat -> Reply): (Outcome, Cache) {
    if params in cache then (Ok(cache[params], s), cache)
    else if s.calls >= s.cap then (CapExceeded, cache)
    else
      var (response, attempts) := Attempts(replies, 0);
      match response
      case None => (Unavailable, cache)
      case Some(r) =>
        match AppendToolResponse(s.(calls := s.calls + attempts), r)
        case None => (BoundExceeded, cache[params := r])
        case Some(next) => (Ok(r, next), cache[params := r])
  }

  class ExternalTool {
    var cache: Cache

    constructor ()
      ensures cache == map[]
    {
      cache := map[];
    }

    method Invoke(state: State, params: string, replies: nat -> Reply) returns (out: Outcome)
      modifies this
      ensures (out, cache) == Invocation(old(cache), state, params, replies)
    {
      if params in cache {
        return Ok(cache[params], state);
      }
      if state.calls >= state.cap {
        return CapExceeded;
      }
      var lastState := state;
      for attempt := 0 to MAX_ATTEMPTS
        invariant cache == old(cache) && lastState == state.(calls := state.calls + attempt)
        invariant attempt == MAX_ATTEMPTS ==> Attempts(replies, 0).0.None?
        invariant attempt < MAX_ATTEMPTS ==>
          var (response, more) := Attempts(replies, attempt);
          Attempts(replies, 0) == (response, more + attempt)
      {
        lastState := WithFailedToolAttempt(lastState);
        match replies(attempt) {
          case TransportError =>
            if attempt == MAX_ATTEMPTS - 1 {
              return Unavailable;
            }
          case Valid(response) =>
            cache := cache[params := response];
            var updated := AppendToolResponse(lastState, response);
            return if updated.Some? then Ok(response, updated.value) else BoundExceeded;
          case _ => return Unavailable;
        }
      }
      return Unavailable;
    }
  }

  // ----- A run's invocations, of any tools in any order

  datatype Call = Call(tool: string, params: string, replies: nat -> Reply)

  /** The threaded run state and each tool's cache. */
  datatype Session = Session(state: State, caches: map<string, Cache>)

  function CacheOf(s: Session, tool: string): Cache {
    if tool in s.caches then s.caches[tool] else map[]
  }

  /** A failed invocation returns no state, so the caller keeps the one it had. */
  function Perform(s: Session, c: Call): (Outcome, Session) {
    var (out, cache) := Invocation(CacheOf(s, c.tool), s.state, c.params, c.replies);
    (out, Session(if out.Ok? then out.state else s.state, s.caches[c.tool := cache]))
  }

  function PerformAll(s: Session, calls: seq<Call>): Session {
    if calls == [] then s else Perform(PerformAll(s, calls[..|calls| - 1]), calls[|calls| - 1]).1
  }

  function Fresh(cap: nat): Session {
    Session(State(0, [], cap), map[])
  }

  predicate Budgeted(s: State) {
    2 * |s.responses| <= s.calls <= s.cap + 2
  }

  lemma PerformKeepsBudget(s: Session, c: Call)
    requires Budgeted(s.state)
    ensures Budgeted(Perform(s, c).1.state) && Perform(s, c).1.state.cap == s.state.cap
    ensures !Perform(s, c).0.BoundExceeded?
  {
  }

  /** Whatever is invoked, the call count is at least twice the recorded responses and at most two
      over the cap, so recording a response never overruns its list. */
  lemma {:induction false} CallsStayBudgeted(cap: nat, calls: seq<Call>)
    ensures Budgeted(PerformAll(Fresh(cap), calls).state) && PerformAll(Fresh(cap), calls).state.cap == cap
    ensures forall c :: !Perform(PerformAll(Fresh(cap), calls), c).0.BoundExceeded?
  {
    if calls != [] {
      CallsStayBudgeted(cap, calls[..|calls| - 1]);
      PerformKeepsBudget(PerformAll(Fresh(cap), calls[..|calls| - 1]), calls[|calls| - 1]);
    }
    forall c ensures !Perform(PerformAll(Fresh(cap), calls), c).0.BoundExceeded? {
      PerformKeepsBudget(PerformAll(Fresh(cap), calls), c);
    }
  }

  lemma {:induction false} CachesOnlyGrow(s: Session, calls: seq<Call>, tool: string, params: string)
    requires params in CacheOf(s, tool)
    ensures params in CacheOf(PerformAll(s, calls), tool)
    ensures CacheOf(PerformAll(s, calls), tool)[params] == CacheOf(s, tool)[params]
  {
    if calls != [] { CachesOnlyGrow(s, calls[..|calls| - 1], tool, params); }
  }

  /** Asking a tool the same again, however much later, gives the same response and costs nothing. */
  lemma {:induction false} RepeatingIsFree(s: Session, c: Call, between: seq<Call>, again: Call)
    requires Perform(s, c).0.Ok? && again.tool == c.tool && again.params == c.params
    ensures
      var later := PerformAll(Perform(s, c).1, between);
      Perform(later, again).0 == Ok(Perform(s, c).0.response, later.state)
      && Perform(later, again).1.state == later.state
  {
    CachesOnlyGrow(Perform(s, c).1, between, c.tool, c.params);
  }

  // ----- Which attempts the cap counts

  /** The invocation goes past the cache and the cap, and calls the provider. */
  predicate IsFresh(s: Session, c: Call) {
    c.params !in CacheOf(s, c.tool) && s.state.calls < s.state.cap
  }

  /** A valid response comes at once, or at the one retry after a transport error. */
  predicate Answers(replies: nat -> Reply) {
    replies(0).Valid? || (replies(0).TransportError? && replies(1).Valid?)
  }

  /** The attempts an invocation makes. */
  function Tries(s: Session, c: Call): nat {
    if IsFresh(s, c) then Attempts(c.replies, 0).1 else 0
  }

  /** An invocation's attempts are counted exactly if one of them brings a valid response; the
      response is then counted once more. Otherwise, whatever went wrong, nothing is counted. */
  lemma AttemptsAreCountedExactlyWhen(s: Session, c: Call)
    requires Budgeted(s.state) && IsFresh(s, c)
    ensures Perform(s, c).1.state.calls >= s.state.calls + Tries(s, c) <==> Answers(c.replies)
    ensures Answers(c.replies) ==> Perform(s, c).1.state.calls == s.state.calls + Tries(s, c) + 1
    ensures Answers(c.replies) ==> |Perform(s, c).1.state.responses| == |s.state.responses| + 1
    ensures !Answers(c.replies) ==> Perform(s, c).0.Unavailable? && Perform(s, c).1.state == s.state
    ensures !Answers(c.replies) ==> forall tool :: CacheOf(Perform(s, c).1, tool) == CacheOf(s, tool)
  {
    if c.replies(0).TransportError? {
      assert Attempts(c.replies, 0) == (Attempts(c.replies, 1).0, Attempts(c.replies, 1).1 + 1);
    }
  }

  /** The response of an invocation that answers. */
  function ResponseOf(replies: nat -> Reply): string
    requires Answers(replies)
  {
    if replies(0).Valid? then replies(0).response else replies(1).response
  }

  /** What an invocation returns and records: the cached response for nothing; at the cap, nothing;
      else the first valid response, which is recorded last and cached under its parameters. */
  lemma InvocationReturns(s: Session, c: Call)
    requires Budgeted(s.state)
    ensures
      var (out, n) := Perform(s, c);
      if c.params in CacheOf(s, c.tool) then out == Ok(CacheOf(s, c.tool)[c.params], s.state) && n.state == s.state
      else if s.state.calls >= s.state.cap then out == CapExceeded && n.state == s.state
      else if !Answers(c.replies) then out == Unavailable && n.state == s.state
      else && out == Ok(ResponseOf(c.replies), n.state)
           && n.state.responses == s.state.responses + [ResponseOf(c.replies)]
           && CacheOf(n, c.tool) == CacheOf(s, c.tool)[c.params := ResponseOf(c.replies)]
    ensures forall tool :: tool != c.tool ==> CacheOf(Perform(s, c).1, tool) == CacheOf(s, tool)
    ensures !(IsFresh(s, c) && Answers(c.replies)) ==>
      CacheOf(Perform(s, c).1, c.tool) == CacheOf(s, c.tool)
  {
    if IsFresh(s, c) {
      AttemptsAreCountedExactlyWhen(s, c);
      if c.replies(0).TransportError? {
        assert Attempts(c.replies, 0) == (Attempts(c.replies, 1).0, Attempts(c.replies, 1).1 + 1);
      }
    }
  }

  /** The responses a run's invocations brought from their providers, in order. */
  function Brought(s: Session, calls: seq<Call>): seq<string> {
    if calls == [] then []
    else
      var front, last := calls[..|calls| - 1], calls[|calls| - 1];
      Brought(s, front) +
      if IsFresh(PerformAll(s, front), last) && Answers(last.replies) then [ResponseOf(last.replies)] else []
  }

  /** Over a run, the recorded responses are the ones brought, in order. */
  lemma {:induction false} ResponsesAreRecordedInOrder(cap: nat, calls: seq<Call>)
    ensures PerformAll(Fresh(cap), calls).state.responses == Brought(Fresh(cap), calls)
  {
    if calls != [] {
      var front, last := calls[..|calls| - 1], calls[|calls| - 1];
      ResponsesAreRecordedInOrder(cap, front);
      CallsStayBudgeted(cap, front);
      InvocationReturns(PerformAll(Fresh(cap), front), last);
    }
  }

  /** All attempts of a run's invocations. */
  function AllTries(s: Session, calls: seq<Call>): nat {
    if calls == [] then 0
    else
      var front, last := calls[..|calls| - 1], calls[|calls| - 1];
      AllTries(s, front) + Tries(PerformAll(s, front), last)
  }

  /** The attempts of those invocations that failed after calling the provider. */
  function LostTries(s: Session, calls: seq<Call>): nat {
    if calls == [] then 0
    else
      var front, last := calls[..|calls| - 1], calls[|calls| - 1];
      var now := PerformAll(s, front);
      LostTries(s, front) + if IsFresh(now, last) && !Answers(last.replies) then Tries(now, last) else 0
  }

  /** Over any invocations of any tools, the call count is the attempts made, less those of failed
      invocations, plus one for each response. */
  lemma {:induction false} CallCountOverARun(cap: nat, calls: seq<Call>)
    ensures
      var s := PerformAll(Fresh(cap), calls);
      s.state.calls == AllTries(Fresh(cap), calls) - LostTries(Fresh(cap), calls) + |s.state.responses|
    ensures LostTries(Fresh(cap), calls) <= AllTries(Fresh(cap), calls)
  {
    if calls != [] {
      var front, last := calls[..|calls| - 1], calls[|calls| - 1];
      CallCountOverARun(cap, front);
      CallsStayBudgeted(cap, front);
      var s := PerformAll(Fresh(cap), front);
      if IsFresh(s, last) {
        AttemptsAreCountedExactlyWhen(s, last);
      }
    }
  }

  /** Invocation `k` calls the provider and fails. */
  predicate FailsAt(cap: nat, calls: seq<Call>, k: int) {
    0 <= k < |calls| && IsFresh(PerformAll(Fresh(cap), calls[..k]), calls[k]) && !Answers(calls[k].replies)
  }

  ghost predicate SomeFail(cap: nat, calls: seq<Call>) {
    exists k :: FailsAt(cap, calls, k)
  }

  lemma OneMoreMayFail(cap: nat, front: seq<Call>, last: Call)
    ensures SomeFail(cap, front + [last]) <==>
      SomeFail(cap, front) || (IsFresh(PerformAll(Fresh(cap), front), last) && !Answers(last.replies))
  {
    var calls := front + [last];
    assert calls[..|front|] == front && calls[|front|] == last;
    if k :| FailsAt(cap, front, k) {
      assert calls[..k] == front[..k];
      assert FailsAt(cap, calls, k);
    }
    if k :| FailsAt(cap, calls, k) && k < |front| {
      assert calls[..k] == front[..k];
      assert FailsAt(cap, front, k);
    }
    assert FailsAt(cap, calls, |front|) <==> IsFresh(PerformAll(Fresh(cap), front), last) && !Answers(last.replies);
  }

  lemma {:induction false} LostExactlyWhen(cap: nat, calls: seq<Call>)
    ensures LostTries(Fresh(cap), calls) > 0 <==> SomeFail(cap, calls)
  {
    if calls != [] {
      var front, last := calls[..|calls| - 1], calls[|calls| - 1];
      LostExactlyWhen(cap, front);
      OneMoreMayFail(cap, front, last);
      assert calls == front + [last];
    }
  }

  /** Every attempt of a run is counted exactly if no invocation in it fails. */
  lemma EveryAttemptIsCountedExactlyWhen(cap: nat, calls: seq<Call>)
    ensures
      var s := PerformAll(Fresh(cap), calls);
      s.state.calls == AllTries(Fresh(cap), calls) + |s.state.responses| <==> !SomeFail(cap, calls)
  {
    CallCountOverARun(cap, calls);
    LostExactlyWhen(cap, calls);
  }

  /** Any number of invocations that fail, of any tools and in any way, leave the state as it was:
      the cap never stops them. */
  lemma {:induction false} FailedInvocationsAreNotCounted(cap: nat, calls: seq<Call>)
    requires cap > 0 && forall k :: 0 <= k < |calls| ==> !Answers(calls[k].replies)
    ensures PerformAll(Fresh(cap), calls).state == Fresh(cap).state
    ensures forall tool :: CacheOf(PerformAll(Fresh(cap), calls), tool) == map[]
    ensures AllTries(Fresh(cap), calls) >= |calls|
  {
    if calls != [] {
      var front, last := calls[..|calls| - 1], calls[|calls| - 1];
      FailedInvocationsAreNotCounted(cap, front);
      AttemptsAreCountedExactlyWhen(PerformAll(Fresh(cap), front), last);
    }
  }
}

/** The chain of language models with its retries and cooldowns (backend/app/agents/llm.py). */
module LlmClient {
  import opened Wrappers
  import Text

  const MODEL_COOLDOWN := 300.0
  const FAILURE_COOLDOWN := 60.0

  /** What one contact brings: an answer of the right or the wrong shape, a timeout or transport
      error, a model out of quota, or a refusal of this request. */
  datatype Reply = Answer(text: string) | WrongShape | TimedOut | OutOfQuota | RequestRejected

  /** A reply and the time it is in. */
  datatype Timed = Timed(reply: Reply, at: real)

  /** One contact: what was asked of whom, when it was sent and when it ended. */
  datatype Contact = Contact(model: string, sent: real, at: real, reply: Reply)

  // ----- The chain

  ghost predicate Distinct(chain: seq<string>) {
    forall i, j :: 0 <= i < j < |chain| ==> chain[i] != chain[j]
  }

  /** `a` turns up among the names before `b` does. */
  ghost predicate ComesBefore(names: seq<string>, a: string, b: string) {
    exists p :: 0 <= p < |names| && Text.Strip(names[p]) == a && forall q :: 0 <= q <= p ==> Text.Strip(names[q]) != b
  }

  /** The primary model, then the fallbacks: trimmed, without blanks, each once, in the order in
      which they first turn up. */
  method ModelChain(primary: string, fallbacks: seq<string>) returns (chain: seq<string>)
    ensures Distinct(chain) && "" !in chain
    ensures forall m :: m in chain <==>
      m != "" && exists k :: 0 <= k <= |fallbacks| && m == Text.Strip(([primary] + fallbacks)[k])
    ensures forall i, j :: 0 <= i < j < |chain| ==> ComesBefore([primary] + fallbacks, chain[i], chain[j])
    ensures Text.Strip(primary) != "" ==> chain != [] && chain[0] == Text.Strip(primary)
  {
    var names := [primary] + fallbacks;
    chain := [];
    for k := 0 to |names|
      invariant Distinct(chain) && "" !in chain
      invariant forall m :: m in chain <==> m != "" && exists j :: 0 <= j < k && m == Text.Strip(names[j])
      invariant forall i, j :: 0 <= i < j < |chain| ==> ComesBefore(names, chain[i], chain[j])
      invariant k > 0 && Text.Strip(primary) != "" ==> chain != [] && chain[0] == Text.Strip(primary)
    {
      var cleaned := Text.Strip(names[k]);
      if cleaned != "" && cleaned !in chain {
        forall i | 0 <= i < |chain|
          ensures ComesBefore(names, chain[i], cleaned)
        {
          assert chain[i] in chain;
          var p :| 0 <= p < k && chain[i] == Text.Strip(names[p]);
          assert forall q :: 0 <= q <= p && Text.Strip(names[q]) == cleaned ==> cleaned in chain;
        }
        chain := chain + [cleaned];
      }
    }
  }

  type Rests = map<string, real>

  predicate IsUsable(rests: Rests, model: string, now: real) {
    model in rests ==> rests[model] <= now
  }

  function Usable(chain: seq<string>, rests: Rests, now: real): (u: seq<string>)
    ensures forall m :: m in u <==> m in chain && IsUsable(rests, m, now)
    ensures forall m :: m in u <==> m in chain && (m in rests ==> rests[m] <= now)
  {
    if chain == [] then []
    else if IsUsable(rests, chain[0], now) then [chain[0]] + Usable(chain[1..], rests, now)
    else Usable(chain[1..], rests, now)
  }

  ghost predicate InOrder(chain: seq<string>, x: string, y: string) {
    exists p, q :: 0 <= p < q < |chain| && chain[p] == x && chain[q] == y
  }

  lemma InOrderFurtherOn(chain: seq<string>, x: string, y: string)
    requires chain != [] && InOrder(chain[1..], x, y)
    ensures InOrder(chain, x, y)
  {
    var p, q :| 0 <= p < q < |chain[1..]| && chain[1..][p] == x && chain[1..][q] == y;
    assert chain[p + 1] == x && chain[q + 1] == y;
  }

  lemma FirstInOrder(chain: seq<string>, y: string)
    requires chain != [] && y in chain[1..]
    ensures InOrder(chain, chain[0], y)
  {
    var q :| 0 <= q < |chain[1..]| && chain[1..][q] == y;
    assert chain[q + 1] == y;
  }

  /** Skipping the resting models keeps the order of the chain. */
  lemma {:induction false} UsableIsInChainOrder(chain: seq<string>, rests: Rests, now: real, i: nat, j: nat)
    requires i < j < |Usable(chain, rests, now)|
    ensures InOrder(chain, Usable(chain, rests, now)[i], Usable(chain, rests, now)[j])
  {
    var usable, rest := Usable(chain, rests, now), Usable(chain[1..], rests, now);
    if !IsUsable(rests, chain[0], now) {
      UsableIsInChainOrder(chain[1..], rests, now, i, j);
      InOrderFurtherOn(chain, usable[i], usable[j]);
    } else if i > 0 {
      UsableIsInChainOrder(chain[1..], rests, now, i - 1, j - 1);
      InOrderFurtherOn(chain, usable[i], usable[j]);
    } else {
      assert rest[j - 1] in rest;
      FirstInOrder(chain, usable[j]);
    }
  }

  lemma {:induction false} UsableIsDistinct(chain: seq<string>, rests: Rests, now: real)
    requires Distinct(chain)
    ensures Distinct(Usable(chain, rests, now))
  {
    if chain != [] {
      UsableIsDistinct(chain[1..], rests, now);
      assert forall m :: m in chain[1..] ==> m != chain[0];
    }
  }

  // ----- One model's turn

  datatype Verdict = Answered(text: string) | Misshapen | GaveUp

  function VerdictOf(reply: Reply): Verdict {
    match reply
    case Answer(text) => Answered(text)
    case WrongShape => Misshapen
    case _ => GaveUp
  }

  /** One contact, or two if the first timed out or failed in transit. */
  ghost predicate IsTurn(model: string, turn: seq<Contact>) {
    && 1 <= |turn| <= 2
    && (forall k :: 0 <= k < |turn| ==> turn[k].model == model)
    && (|turn| == 2 <==> turn[0].reply.TimedOut?)
  }

  function Last(turn: seq<Contact>): Contact
    requires turn != []
  {
    turn[|turn| - 1]
  }

  /** What a turn does to the rest times. */
  function Rested(rests: Rests, c: Contact): Rests {
    match c.reply
    case TimedOut => rests[c.model := c.at + FAILURE_COOLDOWN]
    case OutOfQuota => rests[c.model := c.at + MODEL_COOLDOWN]
    case _ => rests
  }

  function AllRested(rests: Rests, turns: seq<seq<Contact>>): Rests
    requires forall k :: 0 <= k < |turns| ==> turns[k] != []
  {
    if turns == [] then rests
    else Rested(AllRested(rests, turns[..|turns| - 1]), Last(turns[|turns| - 1]))
  }

  function Joined(turns: seq<seq<Contact>>): seq<Contact> {
    if turns == [] then [] else Joined(turns[..|turns| - 1]) + turns[|turns| - 1]
  }

  // ----- One call

  /** The turns of one call: the usable models in order, each giving up but the last, which
      answers, misanswers, or is the last of all. */
  ghost predicate IsCall(usable: seq<string>, turns: seq<seq<Contact>>, answer: Option<string>) {
    && |turns| <= |usable|
    && (forall k :: 0 <= k < |turns| ==> IsTurn(usable[k], turns[k]))
    && (forall k :: 0 <= k < |turns| - 1 ==> VerdictOf(Last(turns[k]).reply).GaveUp?)
    && match answer
       case Some(text) => turns != [] && Last(turns[|turns| - 1]).reply == Answer(text)
       case None =>
         || (turns != [] && Last(turns[|turns| - 1]).reply.WrongShape?)
         || (|turns| == |usable| && (turns != [] ==> VerdictOf(Last(turns[|turns| - 1]).reply).GaveUp?))
  }

  /** Contacts of one call happen one after the other, from `start` to `end`. */
  ghost predicate InTime(contacts: seq<Contact>, start: real, end: real) {
    && start <= end
    && (forall k :: 0 <= k < |contacts| ==> start <= contacts[k].sent <= contacts[k].at <= end)
    && forall j, k :: 0 <= j < k < |contacts| ==> contacts[j].at <= contacts[k].sent
  }

  /** Every model that ran out of quota is resting for 300 seconds from then, and nothing was sent
      to it in that time. */
  ghost predicate QuotaRespected(log: seq<Contact>, rests: Rests) {
    && (forall i :: 0 <= i < |log| && log[i].reply.OutOfQuota? ==>
          log[i].model in rests && rests[log[i].model] >= log[i].at + MODEL_COOLDOWN)
    && forall i, j :: 0 <= i < j < |log| && log[i].reply.OutOfQuota? && log[j].model == log[i].model ==>
         log[j].sent >= log[i].at + MODEL_COOLDOWN
  }

  ghost predicate NeverEarlier(before: Rests, after: Rests) {
    forall m :: m in before ==> m in after && before[m] <= after[m]
  }

  /** The contacts brought the replies from the `n`-th on, each once and when it came. */
  ghost predicate Heard(contacts: seq<Contact>, next: nat -> Timed, n: nat) {
    forall k :: 0 <= k < |contacts| ==> Timed(contacts[k].reply, contacts[k].at) == next(n + k)
  }

  lemma HeardOn(a: seq<Contact>, b: seq<Contact>, next: nat -> Timed, n: nat)
    requires Heard(a, next, n) && Heard(b, next, n + |a|)
    ensures Heard(a + b, next, n)
  {
    var all := a + b;
    forall k | 0 <= k < |all|
      ensures Timed(all[k].reply, all[k].at) == next(n + k)
    {
      if k >= |a| { assert all[k] == b[k - |a|] && next(n + |a| + (k - |a|)) == next(n + k); }
    }
  }

  /** The turns of a call brought the first `n` replies. */
  ghost predicate HeardSoFar(turns: seq<seq<Contact>>, next: nat -> Timed, n: nat) {
    n == |Joined(turns)| && Heard(Joined(turns), next, 0)
  }

  lemma HeardOneMore(turns: seq<seq<Contact>>, turn: seq<Contact>, next: nat -> Timed, n: nat)
    requires HeardSoFar(turns, next, n) && Heard(turn, next, n)
    ensures HeardSoFar(turns + [turn], next, n + |turn|)
  {
    HeardOn(Joined(turns), turn, next, 0);
    assert (turns + [turn])[..|turns|] == turns;
  }

  /** A turn at a model that has had its rest keeps the quota rule. */
  lemma OneMoreTurn(log: seq<Contact>, rests: Rests, model: string, turn: seq<Contact>, start: real, end: real)
    requires QuotaRespected(log, rests) && IsTurn(model, turn) && InTime(turn, start, end)
    requires IsUsable(rests, model, start)
    ensures QuotaRespected(log + turn, Rested(rests, Last(turn)))
    ensures NeverEarlier(rests, Rested(rests, Last(turn)))
  {
  }

  class Client {
    const chain: seq<string>
    const configured: bool
    var rests: Rests
    var clock: real
    ghost var log: seq<Contact>

    ghost predicate Valid()
      reads this
    {
      Distinct(chain) && QuotaRespected(log, rests)
    }

    constructor (chain: seq<string>, configured: bool, now: real)
      requires Distinct(chain)
      ensures Valid() && this.chain == chain && this.configured == configured
      ensures log == [] && clock == now
    {
      this.chain, this.configured := chain, configured;
      rests, clock, log := map[], now, [];
    }

    /** One model's turn, and what it does to the model's rest. */
    method TakeTurn(model: string, next: nat -> Timed, n: nat)
      returns (last: Reply, used: nat, ghost turn: seq<Contact>)
      requires QuotaRespected(log, rests) && IsUsable(rests, model, clock) && Ordered(next, n, clock)
      modifies this`rests, this`clock, this`log
      ensures IsTurn(model, turn) && InTime(turn, old(clock), clock) && last == Last(turn).reply
      ensures log == old(log) + turn && rests == Rested(old(rests), Last(turn))
      ensures Ordered(next, used, clock) && used == n + |turn| && Heard(turn, next, n)
      ensures QuotaRespected(log, rests) && NeverEarlier(old(rests), rests)
    {
      var at;
      last, at, used, turn := Ask(model, next, n, clock);
      OneMoreTurn(log, rests, model, turn, clock, at);
      clock, log := at, log + turn;
      match last {
        case TimedOut => rests := rests[model := at + FAILURE_COOLDOWN];
        case OutOfQuota => rests := rests[model := at + MODEL_COOLDOWN];
        case _ =>
      }
    }

    /** Asks the usable models in turn, until one answers, or one answers in the wrong shape. */
    method GenerateStructured(next: nat -> Timed, start: real)
      returns (answer: Option<string>, ghost turns: seq<seq<Contact>>)
      requires Valid() && start >= clock && Ordered(next, 0, start)
      modifies this`rests, this`clock, this`log
      ensures Valid()
      ensures !configured ==> answer == None && turns == []
      ensures configured ==> IsCall(Usable(chain, old(rests), start), turns, answer)
      ensures Asked(old(rests), old(log), start, turns, rests, log, clock) && HeardSoFar(turns, next, |Joined(turns)|)
    {
      turns, answer, clock := [], None, start;
      NothingAsked(rests, log, clock);
      if !configured {
        return;
      }
      var usable := Usable(chain, rests, clock);
      UsableIsDistinct(chain, rests, clock);
      var n: nat := 0;
      for k := 0 to |usable|
        invariant |turns| == k && AllGaveUp(usable, turns) && Ordered(next, n, clock)
        invariant Asked(old(rests), old(log), start, turns, rests, log, clock)
        invariant HeardSoFar(turns, next, n)
        invariant forall i :: k <= i < |usable| ==> IsUsable(rests, usable[i], start)
      {
        ghost var before, heard, logBefore, clockBefore, restsBefore := turns, n, log, clock, rests;
        var last;
        ghost var turn;
        last, n, turn := TakeTurn(usable[k], next, n);
        turns := turns + [turn];
        HeardOneMore(before, turn, next, heard);
        OneMoreAsked(old(rests), old(log), start, before, turn, restsBefore, logBefore, clockBefore, rests, log, clock);
        OneMoreInCall(usable, before, turn);
        OthersStayUsable(usable, k, restsBefore, Last(turn), start);
        match VerdictOf(last) {
          case Answered(text) =>
            answer := Some(text);
            return;
          case Misshapen => return;
          case GaveUp =>
        }
      }
    }
  }

  /** The log and the rests are the old ones with these turns, in time, quotas respected, and no
      model rests shorter than before. */
  ghost predicate Asked(
      rests0: Rests, log0: seq<Contact>, start: real, turns: seq<seq<Contact>>,
      rests: Rests, log: seq<Contact>, now: real)
  {
    && (forall k :: 0 <= k < |turns| ==> turns[k] != [])
    && log == log0 + Joined(turns) && rests == AllRested(rests0, turns)
    && InTime(Joined(turns), start, now) && NeverEarlier(rests0, rests)
    && QuotaRespected(log, rests)
  }

  lemma NothingAsked(rests: Rests, log: seq<Contact>, now: real)
    requires QuotaRespected(log, rests)
    ensures Asked(rests, log, now, [], rests, log, now)
  {
  }

  lemma OneMoreAsked(
      rests0: Rests, log0: seq<Contact>, start: real, turns: seq<seq<Contact>>, turn: seq<Contact>,
      rests: Rests, log: seq<Contact>, now: real, rests1: Rests, log1: seq<Contact>, end: real)
    requires Asked(rests0, log0, start, turns, rests, log, now)
    requires turn != [] && InTime(turn, now, end)
    requires log1 == log + turn && rests1 == Rested(rests, Last(turn))
    requires QuotaRespected(log1, rests1) && NeverEarlier(rests, rests1)
    ensures Asked(rests0, log0, start, turns + [turn], rests1, log1, end)
  {
  }

  /** The models so far were all tried, and gave up. */
  ghost predicate AllGaveUp(usable: seq<string>, turns: seq<seq<Contact>>) {
    && |turns| <= |usable|
    && forall k :: 0 <= k < |turns| ==> IsTurn(usable[k], turns[k]) && VerdictOf(Last(turns[k]).reply).GaveUp?
  }

  lemma OneMoreInCall(usable: seq<string>, turns: seq<seq<Contact>>, turn: seq<Contact>)
    requires AllGaveUp(usable, turns) && |turns| < |usable| && IsTurn(usable[|turns|], turn)
    ensures
      match VerdictOf(Last(turn).reply)
      case Answered(text) => IsCall(usable, turns + [turn], Some(text))
      case Misshapen => IsCall(usable, turns + [turn], None)
      case GaveUp => AllGaveUp(usable, turns + [turn])
  {
  }

  lemma JoinInTime(a: seq<Contact>, b: seq<Contact>, start: real, mid: real, end: real)
    requires InTime(a, start, mid) && InTime(b, mid, end)
    ensures InTime(a + b, start, end)
  {
  }

  lemma OthersStayUsable(usable: seq<string>, k: nat, rests: Rests, c: Contact, start: real)
    requires Distinct(usable) && k < |usable| && c.model == usable[k]
    requires forall i :: k <= i < |usable| ==> IsUsable(rests, usable[i], start)
    ensures forall i :: k < i < |usable| ==> IsUsable(Rested(rests, c), usable[i], start)
  {
  }

  /** The contacts so far all failed in transit. */
  ghost predicate InVain(
      model: string, next: nat -> Timed, n: nat, start: real, turn: seq<Contact>, used: nat, at: real)
  {
    && used == n + |turn| && InTime(turn, start, at) && Ordered(next, used, at) && Heard(turn, next, n)
    && forall k :: 0 <= k < |turn| ==> turn[k].model == model && turn[k].reply.TimedOut?
  }

  lemma OneMoreContact(
      model: string, next: nat -> Timed, n: nat, start: real, turn: seq<Contact>, used: nat, at: real)
    requires InVain(model, next, n, start, turn, used, at) && |turn| < MAX_ATTEMPTS
    ensures
      var reply := next(used);
      var more := turn + [Contact(model, at, reply.at, reply.reply)];
      && InTime(more, start, reply.at) && Ordered(next, used + 1, reply.at) && Heard(more, next, n)
      && (if reply.reply.TimedOut? then InVain(model, next, n, start, more, used + 1, reply.at)
          else IsTurn(model, more))
  {
    var reply := next(used);
    var contact := Contact(model, at, reply.at, reply.reply);
    JoinInTime(turn, [contact], start, at, reply.at);
    HeardOn(turn, [contact], next, n);
  }

  /** Up to two contacts with one model; only a timeout or a failure in transit is tried again. */
  method Ask(model: string, next: nat -> Timed, n: nat, start: real)
    returns (last: Reply, at: real, used: nat, ghost turn: seq<Contact>)
    requires Ordered(next, n, start)
    ensures IsTurn(model, turn) && InTime(turn, start, at) && Ordered(next, used, at)
    ensures Last(turn) == Contact(model, Last(turn).sent, at, last)
    ensures used == n + |turn| && Heard(turn, next, n)
  {
    turn, used, at, last := [], n, start, TimedOut;
    for attempt := 0 to MAX_ATTEMPTS
      invariant |turn| == attempt && InVain(model, next, n, start, turn, used, at)
      invariant turn != [] ==> Last(turn) == Contact(model, Last(turn).sent, at, TimedOut) && last.TimedOut?
    {
      var reply := next(used);
      OneMoreContact(model, next, n, start, turn, used, at);
      turn := turn + [Contact(model, at, reply.at, reply.reply)];
      last, at, used := reply.reply, reply.at, used + 1;
      if !last.TimedOut? {
        return;
      }
    }
  }

  // ----- What a call guarantees

  lemma {:induction false} NoAnswerAmong(usable: seq<string>, turns: seq<seq<Contact>>, c: Contact)
    requires AllGaveUp(usable, turns) && c in Joined(turns)
    ensures VerdictOf(c.reply).GaveUp?
  {
    var front, last := turns[..|turns| - 1], turns[|turns| - 1];
    if c in last {
      var k :| 0 <= k < |last| && last[k] == c;
      assert k < |last| - 1 ==> last[k] == last[0];
    } else {
      NoAnswerAmong(usable, front, c);
    }
  }

  /** The call returns the first answer of the right shape, and nothing is asked after it. */
  lemma FirstAnswerWins(usable: seq<string>, turns: seq<seq<Contact>>, text: string)
    requires IsCall(usable, turns, Some(text))
    ensures
      var all := Joined(turns);
      all != [] && all[|all| - 1].reply == Answer(text)
      && forall k :: 0 <= k < |all| - 1 ==> VerdictOf(all[k].reply).GaveUp?
  {
    var front, last, all := turns[..|turns| - 1], turns[|turns| - 1], Joined(turns);
    assert AllGaveUp(usable, front);
    forall k | 0 <= k < |all| - 1
      ensures VerdictOf(all[k].reply).GaveUp?
    {
      if k < |Joined(front)| {
        assert all[k] in Joined(front);
        NoAnswerAmong(usable, front, all[k]);
      } else {
        assert all[k] == last[k - |Joined(front)|];
      }
    }
  }

  /** The model rests for at least a minute after its turn, unless it only refused the request. */
  ghost predicate RestsAfter(rests: Rests, c: Contact) {
    c.reply.RequestRejected? || (c.model in rests && rests[c.model] >= c.at + FAILURE_COOLDOWN)
  }

  /** When no model could help, each one that was tried is resting, or refused the request. */
  lemma {:induction false} ExhaustedModelsRest(rests: Rests, usable: seq<string>, turns: seq<seq<Contact>>, k: nat)
    requires Distinct(usable) && AllGaveUp(usable, turns) && k < |turns|
    ensures RestsAfter(AllRested(rests, turns), Last(turns[k]))
  {
    var front := turns[..|turns| - 1];
    if k < |front| {
      ExhaustedModelsRest(rests, usable, front, k);
      assert usable[k] != usable[|turns| - 1];
    }
  }

  /** What a turn leaves of the rest of the model it asked: five minutes without quota, one minute
      after failing twice in transit, and what it was after an answer or a refusal. */
  ghost predicate RestFollows(before: Rests, after: Rests, c: Contact) {
    match c.reply
    case OutOfQuota => c.model in after && after[c.model] == c.at + 300.0
    case TimedOut => c.model in after && after[c.model] == c.at + 60.0
    case _ => SameRest(before, after, c.model)
  }

  predicate SameRest(before: Rests, after: Rests, m: string) {
    (m in before <==> m in after) && (m in before ==> before[m] == after[m])
  }

  /** After a call, each model that was asked rests as its turn ended, and every other one as before. */
  lemma {:induction false} RestsFollowTheTurns(rests: Rests, usable: seq<string>, turns: seq<seq<Contact>>)
    requires Distinct(usable) && |turns| <= |usable|
    requires forall k :: 0 <= k < |turns| ==> turns[k] != [] && IsTurn(usable[k], turns[k])
    ensures forall k :: 0 <= k < |turns| ==> RestFollows(rests, AllRested(rests, turns), Last(turns[k]))
    ensures forall m :: m !in usable[..|turns|] ==> SameRest(rests, AllRested(rests, turns), m)
  {
    if turns != [] {
      var front, last := turns[..|turns| - 1], turns[|turns| - 1];
      RestsFollowTheTurns(rests, usable, front);
      assert usable[..|turns|] == usable[..|front|] + [usable[|front|]];
      assert Last(last).model == usable[|front|];
      forall k | 0 <= k < |front|
        ensures RestFollows(rests, AllRested(rests, turns), Last(turns[k]))
      {
        assert turns[k] == front[k] && Last(front[k]).model == usable[k] != usable[|front|];
      }
      assert usable[|front|] !in usable[..|front|];
    }
  }

  const MAX_ATTEMPTS := 2

  /** Replies from the `n`-th on are in at or after `from`, one after the other. */
  ghost predicate Ordered(next: nat -> Timed, n: nat, from: real) {
    && next(n).at >= from
    && forall i, j | n <= i < j :: next(i).at <= next(j).at
  }
}

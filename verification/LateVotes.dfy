/** What closing a vote still promises when operations interleave between their reads and writes
    (backend/app/services/vote_service.py). */
module LateVotes {
  import opened Wrappers
  import opened Tallies
  import opened VoteSessions
  import opened Calls = VoteProgress

  // ----- What closing a vote still promises between calls

  ghost predicate VotesKept(r: Room, n: Room, s: string) {
    forall v: Vote :: v.session == s ==> (v in r.votes <==> v in n.votes)
  }

  /** Activity `k` has read the session as open and is about to store a new vote in it. */
  predicate LateWrite(w: World, k: nat, s: string) {
    && k < |w.activities| && w.activities[k].op.Cast? && w.activities[k].op.session == s
    && w.activities[k].phase.Writing?
    && Vote(s, w.activities[k].op.member, w.activities[k].op.option) !in w.room.votes
  }

  /** The session is closed, and nobody is about to store a new vote in it. */
  ghost predicate ShutFast(w: World, s: string) {
    s in w.room.sessions && !w.room.sessions[s].open && forall k: nat :: !LateWrite(w, k, s)
  }

  lemma RepeatedVoteChangesNothing(votes: seq<Vote>, v: Vote)
    requires OneVoteEach(votes) && v in votes
    ensures forall x :: x in Upsert(votes, v) <==> x in votes
  {
    UpsertReplaces(votes, v);
    forall x | x in votes && SameVoter(x, v) ensures x == v { OneVoteOnly(votes, x, v); }
  }

  lemma AdvanceKeepsVotes(w: World, k: nat, s: string)
    requires Calls.Inv(w) && ShutFast(w, s) && k < |w.activities|
    ensures
      var n := Advance(w.room, w.activities[k]).0;
      VotesKept(w.room, n, s) && s in n.sessions && !n.sessions[s].open
  {
    var t := w.activities[k];
    assert ActivityOk(w.room, t) && !LateWrite(w, k, s);
    if t.phase.Writing? {
      var v := Vote(t.op.session, t.op.member, t.op.option);
      if v in w.room.votes {
        RepeatedVoteChangesNothing(w.room.votes, v);
      } else {
        UpsertReplaces(w.room.votes, v);
      }
    }
  }

  lemma StepKeepsShutFast(w: World, k: nat, s: string)
    requires Calls.Inv(w) && ShutFast(w, s) && k < |w.activities|
    ensures ShutFast(Calls.Next(w, Step(k)), s) && VotesKept(w.room, Calls.Next(w, Step(k)).room, s)
  {
    var n := Calls.Next(w, Step(k));
    AdvanceKeepsVotes(w, k, s);
    assert ActivityOk(w.room, w.activities[k]);
    forall j: nat
      ensures !LateWrite(n, j, s)
    {
      assert !LateWrite(w, j, s);
    }
  }

  lemma NextKeepsShutFast(w: World, a: Action, s: string)
    requires Calls.Inv(w) && ShutFast(w, s)
    ensures ShutFast(Calls.Next(w, a), s) && VotesKept(w.room, Calls.Next(w, a).room, s)
  {
    match a
    case Step(k) => if k < |w.activities| { StepKeepsShutFast(w, k, s); }
    case Begin(op) =>
      forall j: nat ensures !LateWrite(Calls.Next(w, a), j, s) { assert !LateWrite(w, j, s); }
    case Whole(op) =>
      forall j: nat ensures !LateWrite(Calls.Next(w, a), j, s) { assert !LateWrite(w, j, s); }
  }

  lemma {:induction false} ShutFastStays(w: World, actions: seq<Action>, s: string)
    requires Calls.Inv(w) && ShutFast(w, s)
    ensures ShutFast(Calls.Exec(w, actions), s) && VotesKept(w.room, Calls.Exec(w, actions).room, s)
  {
    if actions != [] {
      var front, last := actions[..|actions| - 1], actions[|actions| - 1];
      ShutFastStays(w, front, s);
      Calls.ExecKeepsInv(w, front);
      NextKeepsShutFast(Calls.Exec(w, front), last, s);
    }
  }

  lemma LateWriteLands(w: World, k: nat, s: string)
    requires Calls.Inv(w) && s in w.room.sessions && LateWrite(w, k, s)
    ensures !VotesKept(w.room, Calls.Exec(w, [Step(k)]).room, s)
  {
    var v := Vote(s, w.activities[k].op.member, w.activities[k].op.option);
    UpsertReplaces(w.room.votes, v);
    assert [Step(k)][..0] == [];
    assert v in Calls.Next(w, Step(k)).room.votes;
  }

  ghost predicate FrozenForGood(w: World, s: string) {
    forall actions :: VotesKept(w.room, Calls.Exec(w, actions).room, s)
  }

  /** However the operations interleave, a closed vote takes no further vote exactly if, at that
      point, no cast that read it as open still has a new vote to store. */
  lemma ClosedVoteIsFrozenExactlyWhen(w: World, s: string)
    requires Calls.Inv(w) && s in w.room.sessions && !w.room.sessions[s].open
    ensures FrozenForGood(w, s) <==> forall k: nat :: !LateWrite(w, k, s)
  {
    if forall k: nat :: !LateWrite(w, k, s) {
      forall actions ensures VotesKept(w.room, Calls.Exec(w, actions).room, s) { ShutFastStays(w, actions, s); }
    } else {
      var k: nat :| LateWrite(w, k, s);
      LateWriteLands(w, k, s);
    }
  }

  /** The option a tally picks leads among the votes it counted, and goes on leading for as long as
      those stay the eligible votes. */
  lemma PickedWinnerLeads(r: Room, t: Activity, n: Room)
    requires IsVoting(t.op) && t.op.session in r.sessions && t.phase.Tallying?
    requires Advance(r, t).1.phase.Selecting?
    requires SameVotes(r.(members := t.phase.eligible), n, t.op.session)
    ensures Leads(n.votes, t.op.session, n.members, Advance(r, t).1.phase.winner)
    ensures Advance(r, t).1.phase.winner in r.sessions[t.op.session].options
  {
    SameVotesSameLeaders(r.(members := t.phase.eligible), n, t.op.session, Advance(r, t).1.phase.winner);
  }

  // ----- A late vote

  /** A party of one casts twice at once, for `late` and for `prompt`. Both casts read the vote as
      open; then the second one runs to its end. */
  function TwoCastsAtOnce(owner: string, s: string, prompt: string, late: string): seq<Action> {
    BothBegin(owner, s, prompt, late) + Steps(1, 9)
  }

  function BothBegin(owner: string, s: string, prompt: string, late: string): seq<Action> {
    [Whole(Create(s, [prompt, late], map[], A_DESTINATION)), Begin(Cast(s, owner, late)), Step(0),
     Begin(Cast(s, owner, prompt))]
  }

  const A_DESTINATION := Some(Message(Some(Destination), map[]))

  function ChoiceRoom(owner: string, s: string, prompt: string, late: string, votes: seq<Vote>): Room {
    LoneRoom(owner, Untouched([prompt, late], A_DESTINATION), s, votes)
  }

  /** The late cast is about to write; the prompt one is where `p` says. */
  function BothCasting(owner: string, s: string, prompt: string, late: string, p: Point): World {
    World(p.room, [Activity(Cast(s, owner, late), Writing), Activity(Cast(s, owner, prompt), p.phase)])
  }

  lemma BothCastsBegin(owner: string, s: string, prompt: string, late: string)
    ensures Calls.Exec(Calls.Start(owner), BothBegin(owner, s, prompt, late)) ==
      BothCasting(owner, s, prompt, late, Point(ChoiceRoom(owner, s, prompt, late, []), Reading))
  {
    var create, first := Whole(Create(s, [prompt, late], map[], A_DESTINATION)), Cast(s, owner, late);
    var second := Begin(Cast(s, owner, prompt));
    CreatedAndBegun(owner, [prompt, late], A_DESTINATION, s, first);
    OneMore(Calls.Start(owner), [create, Begin(first)], Step(0));
    OneMore(Calls.Start(owner), [create, Begin(first), Step(0)], second);
    assert [create, Begin(first)] + [Step(0)] == [create, Begin(first), Step(0)];
    assert [create, Begin(first), Step(0)] + [second] == BothBegin(owner, s, prompt, late);
  }

  lemma OnlyVoteLeads(r: Room, s: string, owner: string, o: string, p: string)
    requires r.members == {owner} && r.votes == [Vote(s, owner, o)] && p != o
    ensures Leaders(r, s) == {o}
    ensures Leads(r.votes, s, r.members, o) && !Leads(r.votes, s, r.members, p)
  {
    assert Vote(s, owner, o) in r.votes;
    assert Supporters(r.votes, s, r.members, o) == {owner};
    forall q | q != o ensures Supporters(r.votes, s, r.members, q) == {} {}
    assert Count(r.votes, s, r.members, p) == 0 && Count(r.votes, s, r.members, o) == 1;
  }

  /** The path of the prompt cast from its tally to its end. */
  function ClosePath(owner: string, s: string, prompt: string, late: string): seq<Point> {
    var r := ChoiceRoom(owner, s, prompt, late, [Vote(s, owner, prompt)]);
    [Point(r, ListingVoters), Point(r, Tallying({owner})), Point(r, Selecting(prompt)),
     Point(WithSelection(r, s, prompt), Closing), Point(Shut(WithSelection(r, s, prompt), s), Finished)]
  }

  lemma PromptIsPicked(owner: string, s: string, prompt: string, late: string)
    requires prompt != late
    ensures
      var r, cast := ChoiceRoom(owner, s, prompt, late, [Vote(s, owner, prompt)]), Cast(s, owner, prompt);
      Advance(r, Activity(cast, Tallying({owner}))) == (r, Activity(cast, Selecting(prompt)))
  {
    var r := ChoiceRoom(owner, s, prompt, late, [Vote(s, owner, prompt)]);
    OnlyVoteLeads(r, s, owner, prompt, late);
    assert r.(members := {owner}) == r;
  }

  lemma ClosePathIsLinked(owner: string, s: string, prompt: string, late: string)
    requires prompt != late
    ensures Linked(Cast(s, owner, prompt), ClosePath(owner, s, prompt, late))
  {
    var op, path := Cast(s, owner, prompt), ClosePath(owner, s, prompt, late);
    PromptIsPicked(owner, s, prompt, late);
    assert LinkedAt(op, path, 0);
    assert LinkedAt(op, path, 1);
    assert LinkedAt(op, path, 2);
    assert LinkedAt(op, path, 3);
  }

  /** The first path goes on with the second. */
  lemma LinkedPaths(op: Operation, p: seq<Point>, q: seq<Point>)
    requires IsVoting(op) && p != [] && q != [] && Linked(op, p) && Linked(op, q)
    requires Advance(p[|p| - 1].room, Activity(op, p[|p| - 1].phase)) == (q[0].room, Activity(op, q[0].phase))
    ensures Linked(op, p + q)
  {
    forall i | 0 <= i < |p + q| - 1
      ensures LinkedAt(op, p + q, i)
    {
      if i < |p| - 1 {
        assert LinkedAt(op, p, i);
      } else if i >= |p| {
        assert LinkedAt(op, q, i - |p|);
      }
    }
  }

  /** Where the two casts end: the vote is closed, `prompt` is locked, the late cast still writes. */
  function PromptLocked(owner: string, s: string, prompt: string, late: string): World {
    var r := ChoiceRoom(owner, s, prompt, late, [Vote(s, owner, prompt)]);
    BothCasting(owner, s, prompt, late, Point(Shut(WithSelection(r, s, prompt), s), Finished))
  }

  function PromptPath(owner: string, s: string, prompt: string, late: string): (path: seq<Point>)
    ensures |path| == 10
    ensures path[0] == Point(ChoiceRoom(owner, s, prompt, late, []), Reading)
    ensures BothCasting(owner, s, prompt, late, path[9]) == PromptLocked(owner, s, prompt, late)
  {
    CastPath(owner, Untouched([prompt, late], A_DESTINATION), s, prompt) + ClosePath(owner, s, prompt, late)
  }

  lemma PromptPathIsLinked(owner: string, s: string, prompt: string, late: string)
    requires prompt != late
    ensures Linked(Cast(s, owner, prompt), PromptPath(owner, s, prompt, late))
  {
    var session, cast := Untouched([prompt, late], A_DESTINATION), Cast(s, owner, prompt);
    CastPathIsLinked(owner, session, s, prompt);
    ClosePathIsLinked(owner, s, prompt, late);
    LinkedPaths(cast, CastPath(owner, session, s, prompt), ClosePath(owner, s, prompt, late));
  }

  lemma PromptCastLocks(owner: string, s: string, prompt: string, late: string)
    requires prompt != late
    ensures Calls.Exec(Calls.Start(owner), TwoCastsAtOnce(owner, s, prompt, late)) ==
      PromptLocked(owner, s, prompt, late)
  {
    var cast, path := Cast(s, owner, prompt), PromptPath(owner, s, prompt, late);
    var begun := BothCasting(owner, s, prompt, late, path[0]);
    BothCastsBegin(owner, s, prompt, late);
    PromptPathIsLinked(owner, s, prompt, late);
    GoesAlong(begun, 1, cast, path, 9);
    calc {
      Calls.Exec(Calls.Start(owner), TwoCastsAtOnce(owner, s, prompt, late));
      { ExecAppend(Calls.Start(owner), BothBegin(owner, s, prompt, late), Steps(1, 9)); }
      Calls.Exec(begun, Steps(1, 9));
      { assert At(begun, 1, cast, path[0]) == begun; }
      At(begun, 1, cast, path[9]);
      PromptLocked(owner, s, prompt, late);
    }
  }

  lemma LateCastVotes(owner: string, s: string, prompt: string, late: string)
    ensures
      var w := PromptLocked(owner, s, prompt, late);
      Calls.Exec(w, [Step(0)]).room == w.room.(votes := [Vote(s, owner, late)])
  {
    var w := PromptLocked(owner, s, prompt, late);
    OneMore(w, [], Step(0));
    assert [] + [Step(0)] == [Step(0)];
    assert w.activities[0] == Activity(Cast(s, owner, late), Writing);
  }

  /** The vote is closed and `prompt` is locked; then the late vote is stored, and `prompt`, which
      had the only vote, has none. */
  lemma LateVoteOvertakesTheLock(owner: string, s: string, prompt: string, late: string)
    requires prompt != late
    ensures
      var w := Calls.Exec(Calls.Start(owner), TwoCastsAtOnce(owner, s, prompt, late));
      && s in w.room.sessions && !w.room.sessions[s].open && LateWrite(w, 0, s)
      && Destination in w.room.selections && w.room.selections[Destination].option == prompt
      && Leads(w.room.votes, s, w.room.members, prompt)
      && var n := Calls.Exec(w, [Step(0)]);
         n.room.votes == [Vote(s, owner, late)] && !Leads(n.room.votes, s, n.room.members, prompt)
  {
    var w := PromptLocked(owner, s, prompt, late);
    PromptCastLocks(owner, s, prompt, late);
    OnlyVoteLeads(w.room, s, owner, prompt, late);
    LateCastVotes(owner, s, prompt, late);
    OnlyVoteLeads(w.room.(votes := [Vote(s, owner, late)]), s, owner, late, prompt);
  }

  // ----- When a lead survives the late votes

  /** The activity is about to store member `m`'s vote in session `s`. */
  predicate IsWriting(t: Activity, s: string, m: string) {
    t.op.Cast? && t.op.session == s && t.op.member == m && t.phase.Writing?
  }

  /** The options the member is about to vote for. */
  function Pending(w: World, s: string, m: string): set<string> {
    set k | 0 <= k < |w.activities| && IsWriting(w.activities[k], s, m) :: w.activities[k].op.option
  }

  /** The option the member has voted for, if any. */
  function Standing(w: World, s: string, m: string): set<string> {
    set v | v in w.room.votes && v.session == s && v.member == m :: v.option
  }

  /** The members whose vote is or may yet become one for `p`. */
  function CanEndWith(w: World, s: string, p: string): set<string> {
    set m | m in w.room.members && (p in Standing(w, s, m) || p in Pending(w, s, m))
  }

  /** The members whose vote is one for `o` and will stay one. */
  function BoundTo(w: World, s: string, o: string): set<string> {
    set m | m in w.room.members && o in Standing(w, s, m) && Pending(w, s, m) <= {o}
  }

  ghost predicate IsClosed(w: World, s: string) {
    s in w.room.sessions && !w.room.sessions[s].open
  }

  lemma OneStanding(w: World, s: string, m: string, o: string, p: string)
    requires OneVoteEach(w.room.votes) && o in Standing(w, s, m) && p in Standing(w, s, m)
    ensures o == p
  {
    OneVoteOnly(w.room.votes, Vote(s, m, o), Vote(s, m, p));
  }

  /** Member `m` has fewer options to come to: each is one it had, and a vote cast stays cast. */
  ghost predicate Narrower(w: World, n: World, s: string, m: string) {
    && Pending(n, s, m) <= Pending(w, s, m)
    && Standing(n, s, m) <= Standing(w, s, m) + Pending(w, s, m)
    && (Standing(w, s, m) != {} ==> Standing(n, s, m) != {})
  }

  ghost predicate Narrows(w: World, n: World, s: string) {
    w.room.members <= n.room.members && forall m :: Narrower(w, n, s, m)
  }

  /** Writing a vote settles it for its member and for nobody else. */
  lemma WriteSettles(w: World, k: nat, s: string, m: string)
    requires Calls.Inv(w) && s in w.room.sessions && k < |w.activities| && w.activities[k].phase.Writing?
    requires w.activities[k].op.Cast? && w.activities[k].op.session == s
    ensures
      var n, voter := Calls.Next(w, Step(k)), w.activities[k].op.member;
      && Standing(n, s, m) == (if m == voter then {w.activities[k].op.option} else Standing(w, s, m))
      && Pending(n, s, m) <= Pending(w, s, m)
      && (m != voter ==> Pending(n, s, m) == Pending(w, s, m))
      && n.room == Voted(w.room, Vote(s, voter, w.activities[k].op.option))
  {
    var n, v := Calls.Next(w, Step(k)), Vote(s, w.activities[k].op.member, w.activities[k].op.option);
    UpsertReplaces(w.room.votes, v);
    forall j | 0 <= j < |n.activities| && j != k ensures n.activities[j] == w.activities[j] {}
    assert n.activities[k].phase.Listing?;
    forall o | o in Pending(w, s, m) && m != v.member
      ensures o in Pending(n, s, m)
    {
      var j :| 0 <= j < |w.activities| && IsWriting(w.activities[j], s, m) && w.activities[j].op.option == o;
      assert IsWriting(n.activities[j], s, m);
    }
  }

  lemma SameVotesStand(w: World, n: World, s: string, m: string)
    requires VotesKept(w.room, n.room, s)
    ensures Standing(n, s, m) == Standing(w, s, m)
  {
  }

  /** Any other step leaves the votes of a closed session, and what is about to be written. */
  lemma OtherStepsNarrow(w: World, k: nat, s: string, m: string)
    requires Calls.Inv(w) && IsClosed(w, s) && k < |w.activities|
    requires !(w.activities[k].phase.Writing? && w.activities[k].op.Cast? && w.activities[k].op.session == s)
    ensures Narrower(w, Calls.Next(w, Step(k)), s, m)
  {
    var n, t := Calls.Next(w, Step(k)), w.activities[k];
    assert ActivityOk(w.room, t);
    if t.phase.Writing? { UpsertReplaces(w.room.votes, Vote(t.op.session, t.op.member, t.op.option)); }
    SameVotesStand(w, n, s, m);
    assert !IsWriting(n.activities[k], s, m);
  }

  lemma NextNarrows(w: World, a: Action, s: string)
    requires Calls.Inv(w) && IsClosed(w, s)
    ensures Narrows(w, Calls.Next(w, a), s) && IsClosed(Calls.Next(w, a), s)
  {
    var n := Calls.Next(w, a);
    if a.Step? && a.k < |w.activities| {
      var t := w.activities[a.k];
      AdvanceKeepsRoomOk(w.room, t);
      AdvanceKeepsClosed(w.room, t, s);
      forall m
        ensures Narrower(w, n, s, m)
      {
        if t.phase.Writing? && t.op.Cast? && t.op.session == s {
          WriteSettles(w, a.k, s, m);
        } else {
          OtherStepsNarrow(w, a.k, s, m);
        }
      }
    } else {
      forall m
        ensures Narrower(w, n, s, m)
      {
        SameVotesStand(w, n, s, m);
        BeginningWritesNothing(w, a, s, m);
      }
    }
  }

  lemma AdvanceKeepsClosed(r: Room, t: Activity, s: string)
    requires ActivityOk(r, t) && s in r.sessions && !r.sessions[s].open
    ensures s in Advance(r, t).0.sessions && !Advance(r, t).0.sessions[s].open
  {
  }

  lemma BeginningWritesNothing(w: World, a: Action, s: string, m: string)
    requires Calls.Inv(w) && !(a.Step? && a.k < |w.activities|)
    ensures Pending(Calls.Next(w, a), s, m) <= Pending(w, s, m)
  {
  }

  lemma {:induction false} ExecNarrows(w: World, actions: seq<Action>, s: string)
    requires Calls.Inv(w) && IsClosed(w, s)
    ensures Narrows(w, Calls.Exec(w, actions), s) && IsClosed(Calls.Exec(w, actions), s)
  {
    if actions != [] {
      var front, last := actions[..|actions| - 1], actions[|actions| - 1];
      ExecNarrows(w, front, s);
      Calls.ExecKeepsInv(w, front);
      NextNarrows(Calls.Exec(w, front), last, s);
      NarrowsOn(w, Calls.Exec(w, front), Calls.Exec(w, actions), s);
    }
  }

  lemma NarrowsOn(w: World, n: World, x: World, s: string)
    requires Narrows(w, n, s) && Narrows(n, x, s)
    ensures Narrows(w, x, s)
  {
    forall m
      ensures Narrower(w, x, s, m)
    {
      assert Narrower(w, n, s, m) && Narrower(n, x, s, m);
    }
  }

  lemma SmallerSubset<T>(a: set<T>, b: set<T>)
    requires a <= b
    ensures |a| <= |b|
  {
    assert b == a + (b - a);
  }

  lemma CanEndWithBounds(w: World, n: World, s: string, p: string)
    requires Calls.Inv(w) && Narrows(w, n, s)
    ensures Count(n.room.votes, s, n.room.members, p) <= |CanEndWith(w, s, p)|
  {
    var supporters := Supporters(n.room.votes, s, n.room.members, p);
    forall m | m in supporters
      ensures m in CanEndWith(w, s, p)
    {
      assert Narrower(w, n, s, m) && p in Standing(n, s, m);
    }
    SmallerSubset(supporters, CanEndWith(w, s, p));
  }

  lemma BoundToBounds(w: World, n: World, s: string, o: string)
    requires Calls.Inv(w) && Narrows(w, n, s)
    ensures |BoundTo(w, s, o)| <= Count(n.room.votes, s, n.room.members, o)
  {
    var supporters := Supporters(n.room.votes, s, n.room.members, o);
    forall m | m in BoundTo(w, s, o)
      ensures m in supporters
    {
      assert Narrower(w, n, s, m);
      forall q | q in Standing(w, s, m) ensures q == o { OneStanding(w, s, m, q, o); }
      var q :| q in Standing(n, s, m);
      assert q == o;
    }
    SmallerSubset(BoundTo(w, s, o), supporters);
  }

  // ----- The execution that takes the lead away

  /** Who could still vote for `p` or away from `o`, but has not. */
  function Astray(w: World, s: string, o: string, p: string): set<string> {
    set m | m in w.room.members && IsAstray(w, s, o, p, m)
  }

  predicate IsAstray(w: World, s: string, o: string, p: string, m: string) {
    if p in Pending(w, s, m) then p !in Standing(w, s, m)
    else p !in Standing(w, s, m) && o in Standing(w, s, m) && !(Pending(w, s, m) <= {o})
  }

  lemma PickWrite(w: World, s: string, o: string, p: string, m: string) returns (k: nat)
    requires IsAstray(w, s, o, p, m)
    ensures k < |w.activities| && IsWriting(w.activities[k], s, m)
    ensures if p in Pending(w, s, m) then w.activities[k].op.option == p else w.activities[k].op.option != o
  {
    if p in Pending(w, s, m) {
      k :| 0 <= k < |w.activities| && IsWriting(w.activities[k], s, m) && w.activities[k].op.option == p;
    } else {
      var q :| q in Pending(w, s, m) && q != o;
      k :| 0 <= k < |w.activities| && IsWriting(w.activities[k], s, m) && w.activities[k].op.option == q;
    }
  }

  /** One write that settles an astray member changes neither who can end with `p` nor who is bound
      to `o`. */
  lemma OneLessAstray(w: World, s: string, o: string, p: string, m: string, k: nat)
    requires Calls.Inv(w) && IsClosed(w, s) && p != o && IsAstray(w, s, o, p, m) && m in w.room.members
    requires k < |w.activities| && IsWriting(w.activities[k], s, m)
    requires if p in Pending(w, s, m) then w.activities[k].op.option == p else w.activities[k].op.option != o
    ensures
      var n := Calls.Next(w, Step(k));
      && n.room.members == w.room.members
      && CanEndWith(n, s, p) == CanEndWith(w, s, p) && BoundTo(n, s, o) == BoundTo(w, s, o)
      && Astray(n, s, o, p) <= Astray(w, s, o, p) - {m}
  {
    var n := Calls.Next(w, Step(k));
    forall x | x in w.room.members
      ensures x in CanEndWith(n, s, p) <==> x in CanEndWith(w, s, p)
      ensures x in BoundTo(n, s, o) <==> x in BoundTo(w, s, o)
      ensures IsAstray(n, s, o, p, x) ==> x != m && IsAstray(w, s, o, p, x)
    {
      WriteSettles(w, k, s, x);
    }
    WriteSettles(w, k, s, m);
  }

  lemma {:induction false} SettleAll(w: World, s: string, o: string, p: string) returns (actions: seq<Action>)
    requires Calls.Inv(w) && IsClosed(w, s) && p != o
    ensures
      var n := Calls.Exec(w, actions);
      && Calls.Inv(n) && CanEndWith(n, s, p) == CanEndWith(w, s, p) && BoundTo(n, s, o) == BoundTo(w, s, o)
      && Astray(n, s, o, p) == {}
    decreases |Astray(w, s, o, p)|
  {
    actions := [];
    if astray :| astray in Astray(w, s, o, p) {
      var k := PickWrite(w, s, o, p, astray);
      var n := Calls.Next(w, Step(k));
      OneLessAstray(w, s, o, p, astray, k);
      SmallerSubset(Astray(n, s, o, p), Astray(w, s, o, p) - {astray});
      Calls.NextKeepsInv(w, Step(k));
      NextNarrows(w, Step(k), s);
      var rest := SettleAll(n, s, o, p);
      actions := [Step(k)] + rest;
      OneMore(w, [], Step(k));
      assert [] + [Step(k)] == [Step(k)];
      ExecAppend(w, [Step(k)], rest);
    }
  }

  lemma SettledCounts(n: World, s: string, o: string, p: string)
    requires Calls.Inv(n) && p != o && Astray(n, s, o, p) == {}
    ensures |CanEndWith(n, s, p)| <= Count(n.room.votes, s, n.room.members, p)
    ensures Count(n.room.votes, s, n.room.members, o) <= |BoundTo(n, s, o)|
  {
    var forP := Supporters(n.room.votes, s, n.room.members, p);
    var forO := Supporters(n.room.votes, s, n.room.members, o);
    forall m | m in n.room.members
      ensures m in CanEndWith(n, s, p) ==> m in forP
      ensures m in forO ==> m in BoundTo(n, s, o)
    {
      assert m !in Astray(n, s, o, p);
      if o in Standing(n, s, m) && p in Standing(n, s, m) { OneStanding(n, s, m, o, p); }
    }
    SmallerSubset(CanEndWith(n, s, p), forP);
    SmallerSubset(forO, BoundTo(n, s, o));
  }

  ghost predicate LeadsForGood(w: World, s: string, o: string) {
    forall actions :: var r := Calls.Exec(w, actions).room; Leads(r.votes, s, r.members, o)
  }

  /** However the operations go on, an option of a closed vote keeps the lead exactly if no other
      option can end with more members than are bound to it. */
  lemma LeadSurvivesExactlyWhen(w: World, s: string, o: string)
    requires Calls.Inv(w) && IsClosed(w, s)
    ensures LeadsForGood(w, s, o) <==>
      forall p :: p != o ==> |CanEndWith(w, s, p)| <= |BoundTo(w, s, o)|
  {
    if p :| p != o && |CanEndWith(w, s, p)| > |BoundTo(w, s, o)| {
      var actions := SettleAll(w, s, o, p);
      SettledCounts(Calls.Exec(w, actions), s, o, p);
    } else {
      forall actions
        ensures var r := Calls.Exec(w, actions).room; Leads(r.votes, s, r.members, o)
      {
        var n := Calls.Exec(w, actions);
        ExecNarrows(w, actions, s);
        BoundToBounds(w, n, s, o);
        forall p
          ensures Count(n.room.votes, s, n.room.members, p) <= |CanEndWith(w, s, p)|
        {
          CanEndWithBounds(w, n, s, p);
        }
      }
    }
  }

}

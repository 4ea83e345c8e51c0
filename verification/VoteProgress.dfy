/** No vote gets stuck, even when operations interleave between their reads and writes
    (backend/app/services/vote_service.py). */
module VoteProgress {
  import opened Wrappers
  import opened Tallies
  import opened VoteSessions

  /** Where an operation is between two database calls. */
  datatype Phase =
    | Reading
    | Writing
    | Listing
    | Counting(seen: set<string>)
    | Resolving
    | ListingVoters
    | Tallying(eligible: set<string>)
    | HoldingTie(tied: set<string>)
    | Clearing
    | Selecting(winner: string)
    | Closing
    | Finished

  /** A cast, an early close or a tie-break under way. */
  datatype Activity = Activity(op: Operation, phase: Phase)

  datatype World = World(room: Room, activities: seq<Activity>)

  datatype Action =
    | Whole(op: Operation)
    | Begin(op: Operation)
    | Step(k: nat)

  predicate IsVoting(op: Operation) {
    op.Cast? || op.CloseEarly? || op.BreakTie?
  }

  ghost function WithTie(r: Room, s: string, tied: set<string>): Room
    requires s in r.sessions
  {
    var session := r.sessions[s];
    r.(sessions := r.sessions[s := session.(tiePending := true, tied := tied, category := CategoryOf(session))])
  }

  function WithSelection(r: Room, s: string, o: string): Room
    requires s in r.sessions
  {
    match CategoryOf(r.sessions[s])
    case None => r
    case Some(c) => r.(selections := r.selections[c := Selection(o, s, SelectionData(r.sessions[s], o))])
  }

  function Shut(r: Room, s: string): Room
    requires s in r.sessions
  {
    r.(sessions := r.sessions[s := r.sessions[s].(open := false)])
  }

  /** One database call of an activity, with what it decides from the answer. A closed session cannot
      be marked as tied, nor a tied one closed: the table refuses both. */
  ghost function Advance(r: Room, t: Activity): (n: (Room, Activity))
    requires IsVoting(t.op)
    ensures n.1.op == t.op
  {
    var s := t.op.session;
    var done := t.(phase := Finished);
    if s !in r.sessions then (r, done)
    else
      match t.phase
      case Reading =>
        if Refused(r, t.op).Some? then (r, done)
        else if t.op.Cast? then (r, t.(phase := Writing))
        else if t.op.CloseEarly? then (r, t.(phase := Resolving))
        else (r, t.(phase := Clearing))
      case Writing =>
        if t.op.Cast? then (Voted(r, Vote(s, t.op.member, t.op.option)), t.(phase := Listing)) else (r, done)
      case Listing => (r, t.(phase := Counting(r.members)))
      case Counting(seen) =>
        (r, if Voters(r.votes, s, seen) == seen then t.(phase := Resolving) else done)
      case Resolving => (r, if CategoryOf(r.sessions[s]).Some? then t.(phase := ListingVoters) else done)
      case ListingVoters => (r, t.(phase := Tallying(r.members)))
      case Tallying(eligible) =>
        var leaders := Leaders(r.(members := eligible), s);
        if leaders == {} || !(forall o :: o in leaders ==> o in r.sessions[s].options) then (r, done)
        else
          var leader :| leader in leaders;
          (r, t.(phase := if leaders == {leader} then Selecting(leader) else HoldingTie(leaders)))
      case HoldingTie(tied) => (if r.sessions[s].open then WithTie(r, s, tied) else r, done)
      case Clearing => (Untied(r, s), if t.op.BreakTie? then t.(phase := Selecting(t.op.option)) else done)
      case Selecting(o) => (WithSelection(r, s, o), t.(phase := Closing))
      case Closing => (if r.sessions[s].tiePending then r else Shut(r, s), done)
      case Finished => (r, t)
  }

  ghost function Next(w: World, a: Action): World {
    match a
    case Whole(op) => if IsVoting(op) then w else w.(room := VoteSessions.Next(w.room, op))
    case Begin(op) => if IsVoting(op) then w.(activities := w.activities + [Activity(op, Reading)]) else w
    case Step(k) =>
      if k < |w.activities| && IsVoting(w.activities[k].op) then
        var (r, t) := Advance(w.room, w.activities[k]);
        World(r, w.activities[k := t])
      else w
  }

  ghost function Exec(w: World, actions: seq<Action>): World {
    if actions == [] then w else Next(Exec(w, actions[..|actions| - 1]), actions[|actions| - 1])
  }

  function Start(owner: string): World {
    World(VoteSessions.Start(owner), [])
  }

  // ----- Who still has to act

  /** Everyone has voted, yet the session is neither decided nor held as a tie. */
  predicate Due(r: Room, s: string) {
    s in r.sessions && r.sessions[s].open && !r.sessions[s].tiePending && AllVoted(r, s)
  }

  /** The activity is past its own write and will still settle the session. */
  predicate Responsible(p: Phase) {
    !p.Reading? && !p.Writing? && !p.Finished?
  }

  predicate MustAct(t: Activity, s: string) {
    IsVoting(t.op) && t.op.session == s && Responsible(t.phase)
  }

  ghost predicate ActivityOk(r: Room, t: Activity) {
    && IsVoting(t.op)
    && (!t.phase.Reading? && !t.phase.Finished? ==> t.op.session in r.sessions)
    && (t.phase.Writing? ==> t.op.Cast? && t.op.member in r.members && t.op.option in r.sessions[t.op.session].options)
    && (t.phase.Clearing? ==> t.op.BreakTie?)
    && (t.phase.Counting? ==> t.phase.seen <= r.members)
    && (t.phase.Tallying? ==> t.phase.eligible <= r.members && t.phase.eligible != {})
  }

  ghost predicate RoomOk(r: Room) {
    VotesBelong(r) && r.members != {}
  }

  ghost predicate Covered(w: World, s: string) {
    Due(w.room, s) && CategoryOf(w.room.sessions[s]).Some? ==>
      exists k :: 0 <= k < |w.activities| && MustAct(w.activities[k], s)
  }

  ghost predicate Inv(w: World) {
    && RoomOk(w.room)
    && (forall k :: 0 <= k < |w.activities| ==> ActivityOk(w.room, w.activities[k]))
    && forall s :: Covered(w, s)
  }

  // ----- One step

  /** Nothing about the session changes. */
  ghost predicate SameSession(r: Room, n: Room, s: string) {
    && (s in r.sessions <==> s in n.sessions)
    && (s in r.sessions ==> r.sessions[s] == n.sessions[s])
    && Voters(n.votes, s, n.members) == Voters(r.votes, s, r.members) && n.members == r.members
  }

  lemma AllVotedLeavesLeaders(r: Room, s: string, eligible: set<string>)
    requires RoomOk(r) && s in r.sessions && AllVoted(r, s) && eligible <= r.members && eligible != {}
    ensures
      var leaders := Leaders(r.(members := eligible), s);
      leaders != {} && forall o :: o in leaders ==> o in r.sessions[s].options
  {
    var m :| m in eligible;
    assert m in Voters(r.votes, s, r.members);
    var tally := TallyOf(r.votes, s, eligible);
    LeadersAreTops(r.(members := eligible), s, tally);
    TallyEmptyWithoutVoters(tally, r.votes, s, eligible);
    assert m in Voters(r.votes, s, eligible);
  }

  lemma WritingKeepsRoomOk(r: Room, v: Vote)
    requires RoomOk(r) && v.session in r.sessions && v.member in r.members && v.option in r.sessions[v.session].options
    ensures RoomOk(Voted(r, v))
    ensures forall s :: s != v.session ==> SameSession(r, Voted(r, v), s)
  {
    UpsertReplaces(r.votes, v);
  }

  lemma AdvanceKeepsRoomOk(r: Room, t: Activity)
    requires RoomOk(r) && ActivityOk(r, t)
    ensures
      var (n, u) := Advance(r, t);
      RoomOk(n) && n.members == r.members && u.op == t.op && ActivityOk(n, u)
    ensures forall s :: s in r.sessions ==>
      s in Advance(r, t).0.sessions && Advance(r, t).0.sessions[s].options == r.sessions[s].options
  {
    if t.phase.Writing? {
      WritingKeepsRoomOk(r, Vote(t.op.session, t.op.member, t.op.option));
    }
  }

  lemma OtherSessionsStay(r: Room, t: Activity, s: string)
    requires RoomOk(r) && ActivityOk(r, t) && s != t.op.session
    ensures SameSession(r, Advance(r, t).0, s)
  {
    if t.phase.Writing? {
      WritingKeepsRoomOk(r, Vote(t.op.session, t.op.member, t.op.option));
    }
  }

  /** After a step, the activity's session is due only if the activity, or some other one, must act. */
  lemma AdvanceIsSafe(r: Room, t: Activity)
    requires RoomOk(r) && ActivityOk(r, t)
    ensures
      var (n, u) := Advance(r, t);
      var s := t.op.session;
      Due(n, s) && CategoryOf(n.sessions[s]).Some? ==>
        Responsible(u.phase) || (Due(r, s) && CategoryOf(r.sessions[s]).Some? && !Responsible(t.phase))
  {
    var s := t.op.session;
    if t.phase.Tallying? && Due(r, s) {
      AllVotedLeavesLeaders(r, s, t.phase.eligible);
    }
  }

  lemma ActivityStaysOk(r: Room, n: Room, t: Activity)
    requires ActivityOk(r, t) && r.members <= n.members
    requires forall s :: s in r.sessions ==> s in n.sessions && n.sessions[s].options == r.sessions[s].options
    ensures ActivityOk(n, t)
  {
  }

  /** Another activity that was responsible still is. */
  lemma StillCovered(w: World, n: World, k: nat, s: string)
    requires k < |w.activities| == |n.activities| && Covered(w, s)
    requires Due(w.room, s) && CategoryOf(w.room.sessions[s]).Some?
    requires forall j :: 0 <= j < |w.activities| && j != k ==> n.activities[j] == w.activities[j]
    requires !MustAct(w.activities[k], s)
    ensures Covered(n, s)
  {
  }

  lemma CoveredAfterStep(w: World, n: World, k: nat, s: string)
    requires k < |w.activities| == |n.activities| && Covered(w, s)
    requires forall j :: 0 <= j < |w.activities| && j != k ==> n.activities[j] == w.activities[j]
    requires RoomOk(w.room) && ActivityOk(w.room, w.activities[k])
    requires (n.room, n.activities[k]) == Advance(w.room, w.activities[k])
    ensures Covered(n, s)
  {
    var t, u := w.activities[k], n.activities[k];
    AdvanceKeepsRoomOk(w.room, t);
    AdvanceIsSafe(w.room, t);
    if Due(n.room, s) && CategoryOf(n.room.sessions[s]).Some? {
      if s != t.op.session {
        OtherSessionsStay(w.room, t, s);
        StillCovered(w, n, k, s);
      } else if Responsible(u.phase) {
        assert MustAct(n.activities[k], s);
      } else {
        StillCovered(w, n, k, s);
      }
    }
  }

  lemma StepKeepsInv(w: World, k: nat)
    requires Inv(w) && k < |w.activities|
    ensures Inv(Next(w, Step(k)))
  {
    var n := Next(w, Step(k));
    AdvanceKeepsRoomOk(w.room, w.activities[k]);
    forall j | 0 <= j < |n.activities|
      ensures ActivityOk(n.room, n.activities[j])
    {
      if j != k { ActivityStaysOk(w.room, n.room, w.activities[j]); }
    }
    forall s
      ensures Covered(n, s)
    {
      CoveredAfterStep(w, n, k, s);
    }
  }

  /** Creating, joining and retiring make no session due. */
  lemma WholeKeepsInv(w: World, op: Operation)
    requires Inv(w) && !IsVoting(op)
    ensures Inv(Next(w, Whole(op)))
  {
    var r, n := w.room, VoteSessions.Next(w.room, op);
    assert RoomOk(n);
    forall j | 0 <= j < |w.activities|
      ensures ActivityOk(n, w.activities[j])
    {
      ActivityStaysOk(r, n, w.activities[j]);
    }
    forall s
      ensures Covered(Next(w, Whole(op)), s)
    {
      assert Covered(w, s);
      if Due(n, s) {
        StillDue(r, op, s);
      }
    }
  }

  lemma StillDue(r: Room, op: Operation, s: string)
    requires RoomOk(r) && !IsVoting(op) && Due(VoteSessions.Next(r, op), s)
    ensures Due(r, s) && CategoryOf(VoteSessions.Next(r, op).sessions[s]) == CategoryOf(r.sessions[s])
  {
  }

  lemma NextKeepsInv(w: World, a: Action)
    requires Inv(w)
    ensures Inv(Next(w, a))
  {
    match a
    case Whole(op) =>
      if !IsVoting(op) { WholeKeepsInv(w, op); }
    case Begin(op) =>
      var n := Next(w, a);
      forall s
        ensures Covered(n, s)
      {
        assert Covered(w, s);
        if k :| 0 <= k < |w.activities| && MustAct(w.activities[k], s) {
          assert n.activities[k] == w.activities[k];
        }
      }
    case Step(k) =>
      if k < |w.activities| { StepKeepsInv(w, k); }
  }

  lemma {:induction false} ExecKeepsInv(w: World, actions: seq<Action>)
    requires Inv(w)
    ensures Inv(Exec(w, actions))
  {
    if actions != [] {
      ExecKeepsInv(w, actions[..|actions| - 1]);
      NextKeepsInv(Exec(w, actions[..|actions| - 1]), actions[|actions| - 1]);
    }
  }

  // ----- The results

  ghost predicate Quiet(w: World) {
    forall k :: 0 <= k < |w.activities| ==> w.activities[k].phase.Finished?
  }

  /** Once all operations have finished, a vote that is still open and not held as a tie waits for
      somebody: a member of the room who has not voted. */
  lemma NoVoteGetsStuck(owner: string, actions: seq<Action>, s: string)
    requires
      var w := Exec(Start(owner), actions);
      && Quiet(w) && s in w.room.sessions && CategoryOf(w.room.sessions[s]).Some?
      && w.room.sessions[s].open && !w.room.sessions[s].tiePending
    ensures
      var r := Exec(Start(owner), actions).room;
      exists m :: m in r.members && forall v :: v in r.votes && v.session == s ==> v.member != m
  {
    ExecKeepsInv(Start(owner), actions);
    var w := Exec(Start(owner), actions);
    assert Covered(w, s);
    var m :| m in w.room.members && m !in Voters(w.room.votes, s, w.room.members);
  }

  // ----- Without a category

  /** The activity has not found a category. */
  predicate Early(p: Phase) {
    p.Reading? || p.Writing? || p.Listing? || p.Counting? || p.Resolving? || p.Finished?
  }

  predicate EarlyOn(t: Activity, s: string) {
    IsVoting(t.op) && t.op.session == s ==> Early(t.phase)
  }

  /** Without a category the session is open and holds no tie, and nothing on it got any further. */
  ghost predicate NothingSettles(w: World, s: string) {
    || Categorised(w.room, s)
    || (Unsettled(w.room, s) && forall k :: 0 <= k < |w.activities| ==> EarlyOn(w.activities[k], s))
  }

  predicate Categorised(r: Room, s: string) {
    s in r.sessions && CategoryOf(r.sessions[s]).Some?
  }

  predicate Unsettled(r: Room, s: string) {
    s in r.sessions ==> r.sessions[s].open && !r.sessions[s].tiePending
  }

  lemma AdvanceSettlesNothing(r: Room, t: Activity, s: string)
    requires RoomOk(r) && ActivityOk(r, t)
    ensures Categorised(r, s) ==> Categorised(Advance(r, t).0, s)
    ensures !Categorised(r, s) && Unsettled(r, s) && EarlyOn(t, s) ==>
      Unsettled(Advance(r, t).0, s) && EarlyOn(Advance(r, t).1, s)
  {
  }

  lemma NextSettlesNothing(w: World, a: Action, s: string)
    requires Inv(w) && NothingSettles(w, s) && a != Whole(Retire(s))
    ensures NothingSettles(Next(w, a), s)
  {
    if a.Step? && a.k < |w.activities| {
      AdvanceSettlesNothing(w.room, w.activities[a.k], s);
    }
  }

  lemma {:induction false} ExecSettlesNothing(w: World, actions: seq<Action>, s: string)
    requires Inv(w) && NothingSettles(w, s) && Whole(Retire(s)) !in actions
    ensures NothingSettles(Exec(w, actions), s)
  {
    if actions != [] {
      var front, last := actions[..|actions| - 1], actions[|actions| - 1];
      ExecSettlesNothing(w, front, s);
      ExecKeepsInv(w, front);
      NextSettlesNothing(Exec(w, front), last, s);
    }
  }

  /** A vote without a category is closed by no call but a retirement, and never held as a tie. */
  lemma WithoutCategoryOnlyRetiringCloses(owner: string, actions: seq<Action>, s: string)
    requires Whole(Retire(s)) !in actions
    requires var r := Exec(Start(owner), actions).room; s in r.sessions && CategoryOf(r.sessions[s]).None?
    ensures
      var session := Exec(Start(owner), actions).room.sessions[s];
      session.open && !session.tiePending
  {
    ExecSettlesNothing(Start(owner), actions, s);
  }

  /** Once everyone has voted and all operations have finished, a vote that nobody retired is closed
      or held as a tie exactly if its category is known. */
  lemma FullVoteIsSettledExactlyWhen(owner: string, actions: seq<Action>, s: string)
    requires Whole(Retire(s)) !in actions
    requires
      var w := Exec(Start(owner), actions);
      Quiet(w) && s in w.room.sessions && AllVoted(w.room, s)
    ensures
      var session := Exec(Start(owner), actions).room.sessions[s];
      !session.open || session.tiePending <==> CategoryOf(session).Some?
  {
    var w := Exec(Start(owner), actions);
    if CategoryOf(w.room.sessions[s]).None? {
      WithoutCategoryOnlyRetiringCloses(owner, actions, s);
    } else {
      ExecKeepsInv(Start(owner), actions);
      assert Covered(w, s);
    }
  }

  // ----- One activity after another

  function Steps(k: nat, n: nat): seq<Action> {
    if n == 0 then [] else Steps(k, n - 1) + [Step(k)]
  }

  lemma OneMore(w: World, actions: seq<Action>, a: Action)
    ensures Exec(w, actions + [a]) == Next(Exec(w, actions), a)
  {
  }

  lemma {:induction false} ExecAppend(w: World, first: seq<Action>, rest: seq<Action>)
    ensures Exec(w, first + rest) == Exec(Exec(w, first), rest)
  {
    if rest == [] {
      assert first + rest == first;
    } else {
      var front, last := rest[..|rest| - 1], rest[|rest| - 1];
      ExecAppend(w, first, front);
      assert first + rest == (first + front) + [last] && rest == front + [last];
      OneMore(w, first + front, last);
    }
  }

  /** What the room is, and how far the activity has got. */
  datatype Point = Point(room: Room, phase: Phase)

  ghost predicate Linked(op: Operation, path: seq<Point>)
    requires IsVoting(op)
  {
    forall i :: 0 <= i < |path| - 1 ==> LinkedAt(op, path, i)
  }

  ghost predicate LinkedAt(op: Operation, path: seq<Point>, i: nat)
    requires IsVoting(op) && i + 1 < |path|
  {
    Advance(path[i].room, Activity(op, path[i].phase)) == (path[i + 1].room, Activity(op, path[i + 1].phase))
  }

  function At(w: World, k: nat, op: Operation, p: Point): World
    requires k < |w.activities|
  {
    World(p.room, w.activities[k := Activity(op, p.phase)])
  }

  lemma OneStepAlong(w: World, k: nat, op: Operation, path: seq<Point>, i: nat)
    requires IsVoting(op) && k < |w.activities| && i + 1 < |path| && LinkedAt(op, path, i)
    ensures Next(At(w, k, op, path[i]), Step(k)) == At(w, k, op, path[i + 1])
  {
  }

  /** An activity that nobody interrupts goes along its path. */
  lemma {:induction false} GoesAlong(w: World, k: nat, op: Operation, path: seq<Point>, n: nat)
    requires IsVoting(op) && k < |w.activities| && n < |path| && Linked(op, path)
    ensures Exec(At(w, k, op, path[0]), Steps(k, n)) == At(w, k, op, path[n])
  {
    if n > 0 {
      calc {
        Exec(At(w, k, op, path[0]), Steps(k, n));
        { OneMore(At(w, k, op, path[0]), Steps(k, n - 1), Step(k)); }
        Next(Exec(At(w, k, op, path[0]), Steps(k, n - 1)), Step(k));
        { GoesAlong(w, k, op, path, n - 1); }
        Next(At(w, k, op, path[n - 1]), Step(k));
        { OneStepAlong(w, k, op, path, n - 1); }
        At(w, k, op, path[n]);
      }
    }
  }

  // ----- A vote that gets stuck

  function SoloVote(owner: string, s: string, option: string): seq<Action> {
    [Whole(Create(s, [option], map[], None)), Begin(Cast(s, owner, option))] + Steps(0, 5)
  }

  function LoneRoom(owner: string, session: Session, s: string, votes: seq<Vote>): Room {
    VoteSessions.Start(owner).(sessions := map[s := session], votes := votes)
  }

  function Untouched(options: seq<string>, linked: Option<Message>): Session {
    Session(options, map[], linked, None, true, false, {})
  }

  /** The path of the only member's cast up to the start of the resolution. */
  function CastPath(owner: string, session: Session, s: string, o: string): seq<Point> {
    var before, after := LoneRoom(owner, session, s, []), LoneRoom(owner, session, s, [Vote(s, owner, o)]);
    [Point(before, Reading), Point(before, Writing), Point(after, Listing), Point(after, Counting({owner})),
     Point(after, Resolving)]
  }

  lemma CastPathIsLinked(owner: string, session: Session, s: string, o: string)
    requires session.open && !session.tiePending && o in session.options
    ensures Linked(Cast(s, owner, o), CastPath(owner, session, s, o))
  {
    var op, path := Cast(s, owner, o), CastPath(owner, session, s, o);
    OnlyVote(path[2].room, s, owner, o);
    assert LinkedAt(op, path, 0);
    assert LinkedAt(op, path, 1);
    assert LinkedAt(op, path, 2);
    assert LinkedAt(op, path, 3);
  }

  lemma OnlyVote(r: Room, s: string, owner: string, o: string)
    requires r.members == {owner} && r.votes == [Vote(s, owner, o)]
    ensures Voters(r.votes, s, r.members) == {owner}
  {
    assert Vote(s, owner, o) in r.votes;
  }

  lemma CreatedAndBegun(owner: string, options: seq<string>, linked: Option<Message>, s: string, op: Operation)
    requires IsVoting(op)
    ensures Exec(Start(owner), [Whole(Create(s, options, map[], linked)), Begin(op)]) ==
      World(LoneRoom(owner, Untouched(options, linked), s, []), [Activity(op, Reading)])
  {
    var create := Whole(Create(s, options, map[], linked));
    OneMore(Start(owner), [], create);
    OneMore(Start(owner), [create], Begin(op));
    assert [] + [create] == [create] && [create] + [Begin(op)] == [create, Begin(op)];
  }

  lemma LinkedOneMore(op: Operation, path: seq<Point>, p: Point)
    requires IsVoting(op) && path != [] && Linked(op, path)
    requires
      var last := path[|path| - 1];
      Advance(last.room, Activity(op, last.phase)) == (p.room, Activity(op, p.phase))
    ensures Linked(op, path + [p])
  {
    forall i | 0 <= i < |path|
      ensures LinkedAt(op, path + [p], i)
    {
      if i < |path| - 1 { assert LinkedAt(op, path, i); }
    }
  }

  function SoloPath(owner: string, s: string, option: string): (path: seq<Point>)
    ensures |path| == 6 && path[0] == Point(LoneRoom(owner, Untouched([option], None), s, []), Reading)
  {
    var session := Untouched([option], None);
    CastPath(owner, session, s, option) + [Point(LoneRoom(owner, session, s, [Vote(s, owner, option)]), Finished)]
  }

  lemma SoloVoteEnds(owner: string, s: string, option: string)
    ensures Exec(Start(owner), SoloVote(owner, s, option)) ==
      World(LoneRoom(owner, Untouched([option], None), s, [Vote(s, owner, option)]),
            [Activity(Cast(s, owner, option), Finished)])
  {
    var session, cast, path := Untouched([option], None), Cast(s, owner, option), SoloPath(owner, s, option);
    var begun := World(path[0].room, [Activity(cast, Reading)]);
    CreatedAndBegun(owner, [option], None, s, cast);
    CastPathIsLinked(owner, session, s, option);
    LinkedOneMore(cast, CastPath(owner, session, s, option), path[5]);
    GoesAlong(begun, 0, cast, path, 5);
    calc {
      Exec(Start(owner), SoloVote(owner, s, option));
      { ExecAppend(Start(owner), [Whole(Create(s, [option], map[], None)), Begin(cast)], Steps(0, 5)); }
      Exec(begun, Steps(0, 5));
      { assert At(begun, 0, cast, path[0]) == begun; }
      At(begun, 0, cast, path[5]);
    }
  }

  /** Without a category it does get stuck: a party of one votes, the resolution fails, and the
      vote stays open with nobody left to vote. */
  lemma VoteWithoutCategoryGetsStuck(owner: string, s: string, option: string)
    ensures
      var w := Exec(Start(owner), SoloVote(owner, s, option));
      Quiet(w) && Due(w.room, s)
  {
    SoloVoteEnds(owner, s, option);
    OnlyVote(Exec(Start(owner), SoloVote(owner, s, option)).room, s, owner, option);
  }
}

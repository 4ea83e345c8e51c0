/** A cast, an early close or a tie-break that nobody interrupts does, call by call, exactly what it
    does as a whole (backend/app/services/vote_service.py). */
module UninterruptedVotes {
  import opened Wrappers
  import opened Tallies
  import opened VoteSessions
  import opened Calls = VoteProgress

  /** The room without the history of its locks, which only whole operations keep. */
  function NoHistory(r: Room): Room {
    r.(locks := [])
  }

  /** `n` calls of one activity in a row. */
  ghost function Run(r: Room, t: Activity, n: nat): (Room, Activity)
    requires IsVoting(t.op)
    decreases n
  {
    if n == 0 then (r, t)
    else
      var (m, u) := Advance(r, t);
      Run(m, u, n - 1)
  }

  lemma {:induction false} RunOn(r: Room, t: Activity, m: nat, n: nat)
    requires IsVoting(t.op)
    ensures Run(r, t, m).1.op == t.op
    ensures Run(r, t, m + n) == Run(Run(r, t, m).0, Run(r, t, m).1, n)
    decreases m
  {
    if m > 0 {
      var (x, u) := Advance(r, t);
      RunOn(x, u, m - 1, n);
    }
  }

  lemma {:induction false} FinishedStays(r: Room, t: Activity, n: nat)
    requires IsVoting(t.op) && t.phase.Finished?
    ensures Run(r, t, n) == (r, t)
  {
    if n > 0 {
      assert Advance(r, t) == (r, t);
      FinishedStays(r, t, n - 1);
    }
  }

  /** After `n` calls the activity has finished, and the room is `after`. */
  ghost predicate EndsAs(r: Room, t: Activity, n: nat, after: Room)
    requires IsVoting(t.op)
  {
    NoHistory(Run(r, t, n).0) == NoHistory(after) && Run(r, t, n).1 == t.(phase := Finished)
  }

  lemma OneCallOn(r: Room, t: Activity, m: Room, u: Activity, n: nat, after: Room)
    requires IsVoting(t.op) && Advance(r, t) == (m, u) && n > 0 && EndsAs(m, u, n - 1, after)
    ensures EndsAs(r, t, n, after)
  {
  }

  lemma DoneOn(r: Room, t: Activity, n: nat)
    requires IsVoting(t.op) && n > 0 && Advance(r, t) == (r, t.(phase := Finished))
    ensures EndsAs(r, t, n, r)
  {
    FinishedStays(r, t.(phase := Finished), n - 1);
    OneCallOn(r, t, r, t.(phase := Finished), n, r);
  }

  lemma SelectingLocks(r: Room, t: Activity, s: string, o: string, c: Category, n: nat)
    requires IsVoting(t.op) && t.op.session == s && s in r.sessions && !r.sessions[s].tiePending
    requires CategoryOf(r.sessions[s]) == Some(c) && t.phase == Selecting(o) && n >= 2
    ensures EndsAs(r, t, n, Locked(r, s, c, o))
  {
    var m := WithSelection(r, s, o);
    var u, done := t.(phase := Closing), t.(phase := Finished);
    assert Advance(r, t) == (m, u);
    assert Advance(m, u) == (Shut(m, s), done);
    FinishedStays(Shut(m, s), done, n - 2);
    OneCallOn(m, u, Shut(m, s), done, n - 1, Locked(r, s, c, o));
    OneCallOn(r, t, m, u, n, Locked(r, s, c, o));
  }

  lemma HoldingHolds(r: Room, t: Activity, s: string, tied: set<string>, n: nat)
    requires IsVoting(t.op) && t.op.session == s && s in r.sessions && r.sessions[s].open
    requires t.phase == HoldingTie(tied) && n >= 1
    ensures EndsAs(r, t, n, WithTie(r, s, tied))
  {
    var done := t.(phase := Finished);
    assert Advance(r, t) == (WithTie(r, s, tied), done);
    FinishedStays(WithTie(r, s, tied), done, n - 1);
    OneCallOn(r, t, WithTie(r, s, tied), done, n, WithTie(r, s, tied));
  }

  lemma TallyingResolves(r: Room, t: Activity, s: string, n: nat)
    requires IsVoting(t.op) && t.op.session == s && s in r.sessions
    requires r.sessions[s].open && !r.sessions[s].tiePending && CategoryOf(r.sessions[s]).Some?
    requires t.phase == Tallying(r.members) && n >= 3
    ensures EndsAs(r, t, n, Resolution(r, s))
  {
    var leaders, c := Leaders(r, s), CategoryOf(r.sessions[s]).value;
    assert r.(members := r.members) == r;
    if !CanResolve(r, s) {
      DoneOn(r, t, n);
    } else if leader :| leader in leaders && leaders == {leader} {
      var u := t.(phase := Selecting(leader));
      assert Advance(r, t) == (r, u);
      SelectingLocks(r, u, s, leader, c, n - 1);
      OneCallOn(r, t, r, u, n, Resolution(r, s));
    } else {
      var u := t.(phase := HoldingTie(leaders));
      assert Advance(r, t) == (r, u);
      HoldingHolds(r, u, s, leaders, n - 1);
      OneCallOn(r, t, r, u, n, Resolution(r, s));
    }
  }

  lemma ResolvingResolves(r: Room, t: Activity, s: string, n: nat)
    requires IsVoting(t.op) && t.op.session == s && s in r.sessions
    requires r.sessions[s].open && !r.sessions[s].tiePending && t.phase.Resolving? && n >= 5
    ensures EndsAs(r, t, n, Resolution(r, s))
  {
    if CategoryOf(r.sessions[s]).None? {
      DoneOn(r, t, n);
    } else {
      var u, v := t.(phase := ListingVoters), t.(phase := Tallying(r.members));
      assert Advance(r, t) == (r, u) && Advance(r, u) == (r, v);
      TallyingResolves(r, v, s, n - 2);
      OneCallOn(r, u, r, v, n - 1, Resolution(r, s));
      OneCallOn(r, t, r, u, n, Resolution(r, s));
    }
  }

  lemma CountingSettles(r: Room, t: Activity, s: string, n: nat)
    requires IsVoting(t.op) && t.op.session == s && s in r.sessions
    requires r.sessions[s].open && !r.sessions[s].tiePending && t.phase.Listing? && n >= 7
    ensures EndsAs(r, t, n, if AllVoted(r, s) then Resolution(r, s) else r)
  {
    var u := t.(phase := Counting(r.members));
    assert Advance(r, t) == (r, u);
    if AllVoted(r, s) {
      var v := t.(phase := Resolving);
      assert Advance(r, u) == (r, v);
      ResolvingResolves(r, v, s, n - 2);
      OneCallOn(r, u, r, v, n - 1, Resolution(r, s));
      OneCallOn(r, t, r, u, n, Resolution(r, s));
    } else {
      DoneOn(r, u, n - 1);
      OneCallOn(r, t, r, u, n, r);
    }
  }

  lemma CastInARow(r: Room, op: Operation)
    requires op.Cast? && Refused(r, op).None?
    ensures EndsAs(r, Activity(op, Reading), 9, VoteSessions.Next(r, op))
  {
    var t, now := Activity(op, Reading), Voted(r, Vote(op.session, op.member, op.option));
    var u, v := t.(phase := Writing), t.(phase := Listing);
    assert Advance(r, t) == (r, u) && Advance(r, u) == (now, v);
    CountingSettles(now, v, op.session, 7);
    OneCallOn(r, u, now, v, 8, VoteSessions.Next(r, op));
    OneCallOn(r, t, r, u, 9, VoteSessions.Next(r, op));
  }

  lemma TieBreakInARow(r: Room, op: Operation)
    requires op.BreakTie? && Refused(r, op).None? && TieHolds(r, op.session)
    ensures EndsAs(r, Activity(op, Reading), 9, VoteSessions.Next(r, op))
  {
    var t, s, c := Activity(op, Reading), op.session, CategoryOf(r.sessions[op.session]).value;
    var m, u, v := Untied(r, s), t.(phase := Clearing), t.(phase := Selecting(op.option));
    assert Advance(r, t) == (r, u) && Advance(r, u) == (m, v);
    SelectingLocks(m, v, s, op.option, c, 7);
    OneCallOn(r, u, m, v, 8, VoteSessions.Next(r, op));
    OneCallOn(r, t, r, u, 9, VoteSessions.Next(r, op));
  }

  /** The calls of one operation in a row, from its first read to its end. */
  lemma CallsInARow(r: Room, op: Operation)
    requires VoteSessions.Inv(r) && IsVoting(op)
    ensures EndsAs(r, Activity(op, Reading), 9, VoteSessions.Next(r, op))
  {
    var t, s := Activity(op, Reading), op.session;
    if Refused(r, op).Some? {
      DoneOn(r, t, 9);
    } else if op.Cast? {
      CastInARow(r, op);
    } else if op.BreakTie? {
      assert TieHolds(r, s);
      TieBreakInARow(r, op);
    } else {
      var u := t.(phase := Resolving);
      assert Advance(r, t) == (r, u);
      ResolvingResolves(r, u, s, 8);
      OneCallOn(r, t, r, u, 9, VoteSessions.Next(r, op));
    }
  }

  /** The world after `n` calls of activity `k` in a row. */
  ghost function Ran(w: World, k: nat, n: nat): World
    requires k < |w.activities| && IsVoting(w.activities[k].op)
  {
    var (r, t) := Run(w.room, w.activities[k], n);
    World(r, w.activities[k := t])
  }

  lemma OneMoreRun(r: Room, t: Activity, n: nat)
    requires IsVoting(t.op)
    ensures Run(r, t, n).1.op == t.op
    ensures Run(r, t, n + 1) == Advance(Run(r, t, n).0, Run(r, t, n).1)
  {
    RunOn(r, t, n, 1);
    var (m, u) := Run(r, t, n);
    assert Run(m, u, 1) == Run(Advance(m, u).0, Advance(m, u).1, 0);
  }

  lemma StepAdvances(w: World, k: nat, r: Room, t: Activity)
    requires k < |w.activities| && IsVoting(t.op)
    ensures
      var (n, u) := Advance(r, t);
      Calls.Next(World(r, w.activities[k := t]), Step(k)) == World(n, w.activities[k := u])
  {
  }

  lemma StepRuns(w: World, k: nat, n: nat)
    requires k < |w.activities| && IsVoting(w.activities[k].op)
    ensures Calls.Next(Ran(w, k, n), Step(k)) == Ran(w, k, n + 1)
  {
    var (r, t) := Run(w.room, w.activities[k], n);
    OneMoreRun(w.room, w.activities[k], n);
    StepAdvances(w, k, r, t);
  }

  lemma {:induction false} StepsRun(w: World, k: nat, n: nat)
    requires k < |w.activities| && IsVoting(w.activities[k].op)
    ensures Calls.Exec(w, Steps(k, n)) == Ran(w, k, n)
  {
    if n > 0 {
      calc {
        Calls.Exec(w, Steps(k, n));
        { OneMore(w, Steps(k, n - 1), Step(k)); }
        Calls.Next(Calls.Exec(w, Steps(k, n - 1)), Step(k));
        { StepsRun(w, k, n - 1); }
        Calls.Next(Ran(w, k, n - 1), Step(k));
        { StepRuns(w, k, n - 1); }
        Ran(w, k, n);
      }
    }
  }

  /** An operation whose nine calls nobody interrupts does what the whole operation does, and has
      finished. */
  lemma UninterruptedIsWhole(w: World, op: Operation)
    requires VoteSessions.Inv(w.room) && IsVoting(op)
    ensures
      var n := Calls.Exec(w, [Begin(op)] + Steps(|w.activities|, 9));
      && NoHistory(n.room) == NoHistory(VoteSessions.Next(w.room, op))
      && n.activities == w.activities + [Activity(op, Finished)]
  {
    var k := |w.activities|;
    var begun := World(w.room, w.activities + [Activity(op, Reading)]);
    OneMore(w, [], Begin(op));
    assert [] + [Begin(op)] == [Begin(op)];
    ExecAppend(w, [Begin(op)], Steps(k, 9));
    StepsRun(begun, k, 9);
    CallsInARow(w.room, op);
  }
}

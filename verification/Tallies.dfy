/** Votes, tallies and winners (backend/app/repositories/vote_repository.py and `pick_winner` in
    backend/app/services/vote_service.py). */
module Tallies {
  import opened Wrappers

  datatype Vote = Vote(session: string, member: string, option: string)

  /** The table's uniqueness rule: one vote per member and session. */
  ghost predicate OneVoteEach(votes: seq<Vote>) {
    forall i, j :: 0 <= i < j < |votes| ==> !SameVoter(votes[i], votes[j])
  }

  lemma OneVoteOnly(votes: seq<Vote>, u: Vote, v: Vote)
    requires OneVoteEach(votes) && u in votes && v in votes && SameVoter(u, v)
    ensures u == v
  {
  }

  predicate SameVoter(a: Vote, b: Vote) {
    a.session == b.session && a.member == b.member
  }

  /** Eligible members who voted in the session. */
  function Voters(votes: seq<Vote>, session: string, eligible: set<string>): set<string> {
    set v | v in votes && v.session == session && v.member in eligible :: v.member
  }

  function Supporters(votes: seq<Vote>, session: string, eligible: set<string>, option: string): set<string> {
    set v | v in votes && v.session == session && v.member in eligible && v.option == option :: v.member
  }

  function Count(votes: seq<Vote>, session: string, eligible: set<string>, option: string): nat {
    |Supporters(votes, session, eligible, option)|
  }

  /** No option has more eligible votes. */
  ghost predicate Leads(votes: seq<Vote>, session: string, eligible: set<string>, option: string) {
    forall other :: Count(votes, session, eligible, other) <= Count(votes, session, eligible, option)
  }

  // ----- Replacing a vote

  function Upsert(votes: seq<Vote>, v: Vote): seq<Vote> {
    if votes == [] then [v]
    else if SameVoter(votes[0], v) then [v] + votes[1..]
    else [votes[0]] + Upsert(votes[1..], v)
  }

  /** A member's new vote replaces the old one and touches nobody else's. */
  lemma {:induction false} UpsertReplaces(votes: seq<Vote>, v: Vote)
    requires OneVoteEach(votes)
    ensures forall x :: x in Upsert(votes, v) <==> x == v || (x in votes && !SameVoter(x, v))
    ensures OneVoteEach(Upsert(votes, v))
  {
    if votes != [] {
      var head, tail := votes[0], votes[1..];
      assert votes == [head] + tail;
      if SameVoter(head, v) {
        assert forall x :: x in tail ==> !SameVoter(x, v);
      } else {
        UpsertReplaces(tail, v);
        var rest := Upsert(tail, v);
        assert forall k :: 0 <= k < |rest| ==> rest[k] in rest;
        assert forall x :: x in tail ==> !SameVoter(head, x);
      }
    }
  }

  // ----- Tallying

  lemma OneMoreVote(votes: seq<Vote>, k: nat, session: string, eligible: set<string>, option: string)
    requires OneVoteEach(votes) && k < |votes|
    ensures Count(votes[..k + 1], session, eligible, option) ==
      Count(votes[..k], session, eligible, option)
      + if votes[k].session == session && votes[k].member in eligible && votes[k].option == option then 1 else 0
  {
    var less, more, v := votes[..k], votes[..k + 1], votes[k];
    assert more == less + [v];
    if v.session == session && v.member in eligible && v.option == option {
      assert Supporters(more, session, eligible, option) == Supporters(less, session, eligible, option) + {v.member};
      assert v.member !in Supporters(less, session, eligible, option);
    } else {
      assert Supporters(more, session, eligible, option) == Supporters(less, session, eligible, option);
    }
  }

  /** The tally holds exactly the options that got eligible votes, with their numbers. */
  ghost predicate IsTally(tally: map<string, nat>, votes: seq<Vote>, session: string, eligible: set<string>) {
    forall o :: && (o in tally <==> Count(votes, session, eligible, o) > 0)
                && (o in tally ==> tally[o] == Count(votes, session, eligible, o))
  }

  method CountByOption(votes: seq<Vote>, session: string, eligible: set<string>) returns (tally: map<string, nat>)
    requires OneVoteEach(votes)
    ensures IsTally(tally, votes, session, eligible)
  {
    tally := map[];
    for k := 0 to |votes|
      invariant IsTally(tally, votes[..k], session, eligible)
    {
      var v := votes[k];
      forall o ensures Count(votes[..k + 1], session, eligible, o) ==
        Count(votes[..k], session, eligible, o)
        + if v.session == session && v.member in eligible && v.option == o then 1 else 0
      {
        OneMoreVote(votes, k, session, eligible, o);
      }
      if v.session == session && v.member in eligible {
        tally := tally[v.option := (if v.option in tally then tally[v.option] else 0) + 1];
      }
    }
    assert votes[..|votes|] == votes;
  }

  method CountDistinctVoters(votes: seq<Vote>, session: string, eligible: set<string>) returns (n: nat)
    ensures n == |Voters(votes, session, eligible)|
    ensures n == |eligible| <==> Voters(votes, session, eligible) == eligible
  {
    var members := set v | v in votes && v.session == session :: v.member;
    n := |members * eligible|;
    assert members * eligible == Voters(votes, session, eligible);
    if n == |eligible| { SameSizeSubset(members * eligible, eligible); }
  }

  lemma SameSizeSubset<T>(a: set<T>, b: set<T>)
    requires a <= b && |a| == |b|
    ensures a == b
  {
    assert |b - a| == |b| - |a|;
  }

  ghost function Total(votes: seq<Vote>, session: string, eligible: set<string>, options: seq<string>): nat {
    if options == [] then 0
    else Total(votes, session, eligible, options[1..]) + Count(votes, session, eligible, options[0])
  }

  ghost function SupportersOfAny(
      votes: seq<Vote>, session: string, eligible: set<string>, options: seq<string>): set<string>
  {
    set v | v in votes && v.session == session && v.member in eligible && v.option in options :: v.member
  }

  lemma {:induction false} TotalCountsEachVoterOnce(
      votes: seq<Vote>, session: string, eligible: set<string>, options: seq<string>)
    requires OneVoteEach(votes) && forall i, j :: 0 <= i < j < |options| ==> options[i] != options[j]
    ensures Total(votes, session, eligible, options) == |SupportersOfAny(votes, session, eligible, options)|
  {
    if options != [] {
      var first, rest := options[0], options[1..];
      TotalCountsEachVoterOnce(votes, session, eligible, rest);
      var a, b := Supporters(votes, session, eligible, first), SupportersOfAny(votes, session, eligible, rest);
      assert SupportersOfAny(votes, session, eligible, options) == b + a;
      forall m | m in a
        ensures m !in b
      {
        var v :| v in votes && v.session == session && v.option == first && v.member == m;
        forall u | u in votes && SameVoter(u, v) ensures u.option !in rest {
          OneVoteOnly(votes, u, v);
        }
      }
      assert a !! b;
    } else {
      assert SupportersOfAny(votes, session, eligible, options) == {};
    }
  }

  /** The counts of all options add up to the number of eligible members who voted. */
  lemma TallyAddsUp(votes: seq<Vote>, session: string, eligible: set<string>, options: seq<string>)
    requires OneVoteEach(votes) && forall i, j :: 0 <= i < j < |options| ==> options[i] != options[j]
    requires forall v :: v in votes && v.session == session ==> v.option in options
    ensures Total(votes, session, eligible, options) == |Voters(votes, session, eligible)|
  {
    TotalCountsEachVoterOnce(votes, session, eligible, options);
    assert SupportersOfAny(votes, session, eligible, options) == Voters(votes, session, eligible);
  }

  /** Someone voted exactly if the tally is not empty. */
  lemma TallyEmptyWithoutVoters(tally: map<string, nat>, votes: seq<Vote>, session: string, eligible: set<string>)
    requires IsTally(tally, votes, session, eligible)
    ensures tally == map[] <==> Voters(votes, session, eligible) == {}
  {
    forall v | v in votes && v.session == session && v.member in eligible
      ensures v.option in tally
    {
      assert v.member in Supporters(votes, session, eligible, v.option);
    }
    if o :| o in tally {
      var m :| m in Supporters(votes, session, eligible, o);
      assert m in Voters(votes, session, eligible);
    }
  }

  // ----- The winner

  ghost predicate IsTop(counts: map<string, nat>, o: string) {
    o in counts && forall p :: p in counts ==> counts[p] <= counts[o]
  }

  method Highest(counts: map<string, nat>) returns (highest: nat)
    requires counts != map[]
    ensures exists o :: IsTop(counts, o) && counts[o] == highest
  {
    var best :| best in counts;
    var left := counts.Keys - {best};
    while left != {}
      invariant left <= counts.Keys && best in counts && best !in left
      invariant forall p :: p in counts && p !in left ==> counts[p] <= counts[best]
      decreases left
    {
      var p :| p in left;
      left := left - {p};
      if counts[p] > counts[best] {
        best := p;
      }
    }
    assert IsTop(counts, best);
    return counts[best];
  }

  /** The winning option, and all leaders when there are several. */
  datatype Pick = Pick(winner: string, tied: Option<set<string>>)

  /** Highest count, then lowest position among the options. Nothing can be picked from an empty
      tally, or when a leader is not one of the options. */
  method PickWinner(counts: map<string, nat>, options: seq<string>) returns (pick: Option<Pick>)
    ensures pick.None? <==> counts == map[] || exists o :: IsTop(counts, o) && o !in options
    ensures pick.Some? ==>
      && IsTop(counts, pick.value.winner)
      && (exists k :: && 0 <= k < |options| && options[k] == pick.value.winner
                      && forall j :: 0 <= j < k ==> !IsTop(counts, options[j]))
      && (pick.value.tied.None? <==> forall o :: IsTop(counts, o) ==> o == pick.value.winner)
      && (pick.value.tied.Some? ==> forall o :: o in pick.value.tied.value <==> IsTop(counts, o))
  {
    if counts == map[] {
      return None;
    }
    var highest := Highest(counts);
    var winners := set o | o in counts && counts[o] == highest;
    assert forall o :: o in winners <==> IsTop(counts, o);
    if exists o :: o in winners && o !in options {
      return None;
    }
    var k := 0;
    while options[k] !in winners
      invariant 0 <= k < |options|
      invariant forall j :: 0 <= j < k ==> options[j] !in winners
      invariant exists j :: k <= j < |options| && options[j] in winners
      decreases |options| - k
    {
      k := k + 1;
    }
    OneOrMore(winners, options[k]);
    return Some(Pick(options[k], if |winners| > 1 then Some(winners) else None));
  }

  lemma OneOrMore<T>(s: set<T>, x: T)
    requires x in s
    ensures |s| > 1 <==> exists y :: y in s && y != x
  {
    var rest := s - {x};
    assert s == rest + {x};
    if rest != {} {
      var y :| y in rest;
    }
  }

  /** The top of a tally leads the vote, and the other way round. */
  lemma TopsLead(tally: map<string, nat>, votes: seq<Vote>, session: string, eligible: set<string>, o: string)
    requires IsTally(tally, votes, session, eligible) && tally != map[]
    ensures IsTop(tally, o) <==> Leads(votes, session, eligible, o)
  {
  }
}

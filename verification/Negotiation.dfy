/** One refinement from feedback to plan (the computing part of `negotiation_node` in
    backend/app/agents/nodes/negotiation.py). */
module Negotiation {
  import opened Itineraries
  import opened Conflicts
  import opened Regeneration
  import opened Refinement
  import opened Accounting
  import opened Drafting = Additions
  import opened Promises

  /** The open rows that were not addressed, in order. */
  method Unresolved(openIds: seq<string>, addressed: seq<string>) returns (unresolved: seq<string>)
    ensures unresolved == StillOpen(openIds, addressed)
  {
    unresolved := [];
    for k := 0 to |openIds|
      invariant unresolved == StillOpen(openIds[..k], addressed)
    {
      assert openIds[..k + 1][..k] == openIds[..k];
      if openIds[k] !in addressed {
        unresolved := unresolved + [openIds[k]];
      }
    }
    assert openIds[..|openIds|] == openIds;
  }

  /** Whatever the model drafted: the plan is valid again with the same number of days, days out
      of scope are identical, and the open feedback splits into addressed and unresolved. The rows
      that win under the reported conflicts are addressed exactly where they can be honoured, and
      what is addressed is done. */
  method Refine(
      base: Itinerary, reqs: seq<Request>, openIds: seq<string>, revisions: Revisions, batch: seq<Draft>,
      naming: Naming)
    returns (p: Proposal, ghost r: Round)
    requires ValidItinerary(base) && AllResolved(base, reqs) && DistinctRows(reqs)
    requires forall k :: 0 <= k < |reqs| ==> reqs[k].row.id in openIds
    requires forall x :: multiset(openIds)[x] <= 1
    requires ValidRevisions(revisions) && NamesApart(naming)
    ensures ValidItinerary(p.itinerary) && |p.itinerary.days| == |base.days|
    ensures IsScopeOf(base, reqs, p.scope) && IsReport(reqs, p.conflicts)
    ensures forall n :: 0 <= n < |base.days| && n + 1 !in AffectedDays(p.scope) ==> p.itinerary.days[n] == base.days[n]
    ensures multiset(openIds) == multiset(p.addressed) + multiset(p.unresolved)
    ensures r == Round(base, WinnersOf(reqs, p.conflicts), revisions, r.accepted)
    ensures IsAccepted(base, r.w, batch, naming, r.accepted)
    ensures ValidRound(r) && Regenerated(r, p)
    ensures AddressesTheRightRows(r, batch, naming, p) && DoesWhatItAddresses(r, batch, naming, p)
  {
    var scope := ComputeAffectedScope(base, reqs);
    var conflicts := DetectConflicts(reqs);
    var winners := WinningFeedback(reqs, conflicts);
    WinnersAreWellAimed(base, reqs, conflicts, winners);
    var additions := AcceptDrafts(base, winners, batch, naming);
    AcceptedDraftsAreFresh(base, winners, batch, naming, additions);
    var plan, addressed := RegenerateAffectedOnly(base, scope, reqs, conflicts, revisions, additions);
    WinnersAreUnique(reqs, conflicts, winners);
    assert plan == NewPlan(base, winners, scope, revisions, additions);
    assert addressed == Addressed(base, winners, scope, revisions, additions);
    var unresolved := Unresolved(openIds, addressed);
    p := Proposal(plan, addressed, unresolved, scope, conflicts);
    r := Round(base, winners, revisions, additions);
    RegeneratedIsSound(reqs, openIds, r, p);
    RegenerationKeepsItsPromises(r, batch, naming, p);
  }

  lemma RegeneratedIsSound(reqs: seq<Request>, openIds: seq<string>, r: Round, p: Proposal)
    requires ValidRound(r) && AllResolved(r.base, reqs) && DistinctRows(reqs)
    requires IsScopeOf(r.base, reqs, p.scope) && AreWinners(reqs, p.conflicts, r.w)
    requires forall k :: 0 <= k < |reqs| ==> reqs[k].row.id in openIds
    requires forall x :: multiset(openIds)[x] <= 1
    requires p.itinerary == NewPlan(r.base, r.w, p.scope, r.revisions, r.accepted)
    requires p.addressed == Addressed(r.base, r.w, p.scope, r.revisions, r.accepted)
    requires p.unresolved == StillOpen(openIds, p.addressed)
    ensures Regenerated(r, p)
    ensures ValidItinerary(p.itinerary) && |p.itinerary.days| == |r.base.days|
    ensures forall n :: 0 <= n < |r.base.days| && n + 1 !in AffectedDays(p.scope) ==>
      p.itinerary.days[n] == r.base.days[n]
    ensures multiset(openIds) == multiset(p.addressed) + multiset(p.unresolved)
  {
    WinnersAreInScope(r.base, reqs, p.conflicts, r.w, p.scope);
    RefinedPlanIsValid(r.base, r.w, p.scope, r.revisions, r.accepted);
    OpenFeedbackIsPartitioned(
      r.base, reqs, p.conflicts, r.w, p.scope, r.revisions, r.accepted, openIds);
    forall n | 0 <= n < |r.base.days| && n + 1 !in AffectedDays(p.scope)
      ensures p.itinerary.days[n] == r.base.days[n]
    {
      OtherDaysAreIdentical(r.base, r.w, p.scope, r.revisions, r.accepted, n);
    }
  }
}

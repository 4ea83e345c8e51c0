/** The guardrail pipeline and its bounded repair loop (backend/app/agents/guardrails/__init__.py,
    with the state transitions of backend/app/agents/state.py). */
module Guardrails {
  const MAX_GUARDRAIL_FINDINGS := 100

  // ----- The pipeline

  /** Each layer judges a proposal; the structural one also normalises it, the factual one also
      corrects it. */
  datatype Layers<!P> = Layers(
    structural: P -> (P, seq<string>), business: P -> seq<string>, factual: P -> (P, seq<string>))

  datatype Verdict<P> = Passed(proposal: P) | Rejected(findings: seq<string>)

  /** The first layer with findings rejects; the later ones do not run. */
  function Pipeline<P>(layers: Layers<P>, raw: P): (v: Verdict<P>)
    ensures v.Rejected? ==> v.findings != []
  {
    var (validated, structural) := layers.structural(raw);
    if structural != [] then Rejected(structural)
    else
      var business := layers.business(validated);
      if business != [] then Rejected(business)
      else
        var (corrected, factual) := layers.factual(validated);
        if factual != [] then Rejected(factual) else Passed(corrected)
  }

  /** What each layer finds: the structural one in the raw proposal, the others in what the
      structural one made of it. */
  function Findings<P>(layers: Layers<P>, raw: P): (found: seq<seq<string>>)
    ensures |found| == 3
  {
    var validated := layers.structural(raw).0;
    [layers.structural(raw).1, layers.business(validated), layers.factual(validated).1]
  }

  ghost predicate AllSilent(found: seq<seq<string>>) {
    forall k :: 0 <= k < |found| ==> found[k] == []
  }

  /** `findings` are those of the first layer that has any. */
  ghost predicate AreTheFirst(found: seq<seq<string>>, findings: seq<string>) {
    exists k :: 0 <= k < |found| && AllSilent(found[..k]) && found[k] == findings != []
  }

  /** A proposal passes exactly if no layer finds anything in what it is given; what passes is the
      factual layer's correction of the structural layer's result. A rejection carries the findings
      of the first layer that has any. */
  lemma PassesExactlyWhenAllLayersAreSilent<P>(layers: Layers<P>, raw: P)
    ensures
      match Pipeline(layers, raw)
      case Passed(p) => AllSilent(Findings(layers, raw)) && p == layers.factual(layers.structural(raw).0).0
      case Rejected(findings) => AreTheFirst(Findings(layers, raw), findings)
    ensures Pipeline(layers, raw).Passed? <==> AllSilent(Findings(layers, raw))
  {
    var found := Findings(layers, raw);
    assert found[..0] == [] && found[..1] == [found[0]] && found[..2] == [found[0], found[1]];
    if found[0] != [] {
      assert AllSilent(found[..0]);
    } else if found[1] != [] {
      assert AllSilent(found[..1]);
    } else if found[2] != [] {
      assert AllSilent(found[..2]);
    }
  }

  /** The pipeline as the loop uses it: profile and tool responses stay the same throughout. */
  function Judge<P>(layers: Layers<P>): P -> Verdict<P> {
    (raw: P) => Pipeline(layers, raw)
  }

  // ----- The run state

  datatype State = State(iteration: nat, findings: seq<string>, repairFeedback: seq<string>)

  /** The state one repair later. */
  function Repaired(s: State, findings: seq<string>): State {
    State(s.iteration + 1, s.findings + findings, findings)
  }

  // ----- The attempts a run would make

  /** The state and proposal at the `k`-th evaluation, counted from zero, if all before it were
      rejected. */
  function Attempt<P>(judge: P -> Verdict<P>, producer: State -> P, start: State, first: P, k: nat): (State, P) {
    if k == 0 then (start, first)
    else
      var (s, p) := Attempt(judge, producer, start, first, k - 1);
      match judge(p)
      case Passed(_) => (s, p)
      case Rejected(findings) => (Repaired(s, findings), producer(Repaired(s, findings)))
  }

  ghost predicate AllRejected<P(!new)>(judge: P -> Verdict<P>, producer: State -> P, start: State, first: P, n: nat) {
    forall k: nat :: k < n ==> judge(Attempt(judge, producer, start, first, k).1).Rejected?
  }

  /** The findings of the first `n` evaluations, in order. */
  function Rejections<P>(judge: P -> Verdict<P>, producer: State -> P, start: State, first: P, n: nat): seq<string> {
    if n == 0 then []
    else
      Rejections(judge, producer, start, first, n - 1) +
      match judge(Attempt(judge, producer, start, first, n - 1).1)
      case Passed(_) => []
      case Rejected(findings) => findings
  }

  // ----- The loop

  datatype LoopOutcome<P> =
    | Accepted(state: State, proposal: P, evaluations: nat)
    | Escalated(state: State, evaluations: nat)
    | BoundExceeded(evaluations: nat)

  /** Evaluations a run that starts at this count can make. */
  function Budget(iteration: nat, cap: nat): nat {
    if iteration < cap then cap - iteration + 1 else 1
  }

  predicate Fits(start: State, findings: seq<string>) {
    |start.findings + findings| <= MAX_GUARDRAIL_FINDINGS
  }

  /** What the loop may report, in terms of the attempts alone. */
  ghost predicate IsOutcome<P(!new)>(
      judge: P -> Verdict<P>, producer: State -> P, start: State, first: P, cap: nat, out: LoopOutcome<P>)
  {
    match out
    case Accepted(s, p, n) =>
      && 1 <= n <= Budget(start.iteration, cap)
      && AllRejected(judge, producer, start, first, n - 1)
      && judge(Attempt(judge, producer, start, first, n - 1).1) == Passed(p)
      && (n > 1 ==> Fits(start, Rejections(judge, producer, start, first, n - 1)))
      && s.iteration == start.iteration + n - 1
      && s.findings == start.findings + Rejections(judge, producer, start, first, n - 1)
    case Escalated(s, n) =>
      && n == Budget(start.iteration, cap)
      && AllRejected(judge, producer, start, first, n)
      && Fits(start, Rejections(judge, producer, start, first, n))
      && s.iteration == start.iteration + n - 1
      && s.findings == start.findings + Rejections(judge, producer, start, first, n)
    case BoundExceeded(n) =>
      && 1 <= n <= Budget(start.iteration, cap)
      && AllRejected(judge, producer, start, first, n)
      && !Fits(start, Rejections(judge, producer, start, first, n))
      && (n > 1 ==> Fits(start, Rejections(judge, producer, start, first, n - 1)))
  }

  lemma {:induction false} AttemptState<P(!new)>(
      judge: P -> Verdict<P>, producer: State -> P, start: State, first: P, k: nat)
    requires AllRejected(judge, producer, start, first, k)
    ensures Attempt(judge, producer, start, first, k).0.iteration == start.iteration + k
    ensures Attempt(judge, producer, start, first, k).0.findings ==
            start.findings + Rejections(judge, producer, start, first, k)
  {
    if k == 0 {
      assert start.findings + [] == start.findings;
    } else {
      AttemptState(judge, producer, start, first, k - 1);
      assert judge(Attempt(judge, producer, start, first, k - 1).1).Rejected?;
    }
  }

  /** Evaluates, repairs and escalates until a proposal passes or the cap is hit. */
  method RunGuardrailLoop<P(!new)>(judge: P -> Verdict<P>, producer: State -> P, start: State, first: P, cap: nat)
    returns (out: LoopOutcome<P>)
    ensures IsOutcome(judge, producer, start, first, cap, out)
  {
    var state, current, evaluations := start, first, 0;
    while true
      invariant (state, current) == Attempt(judge, producer, start, first, evaluations)
      invariant AllRejected(judge, producer, start, first, evaluations)
      invariant evaluations > 0 ==> Fits(start, Rejections(judge, producer, start, first, evaluations))
      invariant evaluations < Budget(start.iteration, cap)
      decreases Budget(start.iteration, cap) - evaluations
    {
      AttemptState(judge, producer, start, first, evaluations);
      var verdict := judge(current);
      evaluations := evaluations + 1;
      if verdict.Passed? {
        return Accepted(state, verdict.proposal, evaluations);
      }
      var combined := state.findings + verdict.findings;
      assert combined == start.findings + Rejections(judge, producer, start, first, evaluations);
      if |combined| > MAX_GUARDRAIL_FINDINGS {
        return BoundExceeded(evaluations);
      }
      if state.iteration >= cap {
        return Escalated(state.(findings := combined), evaluations);
      }
      state := State(state.iteration + 1, combined, verdict.findings);
      current := producer(state);
    }
  }

  // ----- What the loop guarantees

  /** The attempts determine the outcome. */
  lemma OutcomeIsDetermined<P(!new)>(
      judge: P -> Verdict<P>, producer: State -> P, start: State, first: P, cap: nat,
      a: LoopOutcome<P>, b: LoopOutcome<P>)
    requires IsOutcome(judge, producer, start, first, cap, a) && IsOutcome(judge, producer, start, first, cap, b)
    ensures a.evaluations == b.evaluations
    ensures a.Accepted? <==> b.Accepted?
    ensures a.Escalated? <==> b.Escalated?
    ensures a.Accepted? ==> a.proposal == b.proposal && a.state.findings == b.state.findings
  {
    RunsNoLonger(judge, producer, start, first, cap, a, b);
    RunsNoLonger(judge, producer, start, first, cap, b, a);
  }

  lemma {:induction false} RejectionsGrow<P>(
      judge: P -> Verdict<P>, producer: State -> P, start: State, first: P, m: nat, n: nat)
    requires m <= n
    ensures |Rejections(judge, producer, start, first, m)| <= |Rejections(judge, producer, start, first, n)|
  {
    if m < n { RejectionsGrow(judge, producer, start, first, m, n - 1); }
  }

  lemma PassedIsNotRejected<P(!new)>(
      judge: P -> Verdict<P>, producer: State -> P, start: State, first: P, k: nat, n: nat)
    requires k < n && judge(Attempt(judge, producer, start, first, k).1).Passed?
    ensures !AllRejected(judge, producer, start, first, n)
  {
  }

  lemma RunsNoLonger<P(!new)>(
      judge: P -> Verdict<P>, producer: State -> P, start: State, first: P, cap: nat,
      a: LoopOutcome<P>, b: LoopOutcome<P>)
    requires IsOutcome(judge, producer, start, first, cap, a) && IsOutcome(judge, producer, start, first, cap, b)
    ensures a.evaluations <= b.evaluations
  {
    if b.evaluations < a.evaluations {
      RejectionsGrow(judge, producer, start, first, b.evaluations, a.evaluations - 1);
    }
  }

  /** Evaluations, count and cap: one evaluation more than repairs, and the count stops at the cap. */
  lemma CountStopsAtTheCap<P(!new)>(
      judge: P -> Verdict<P>, producer: State -> P, start: State, first: P, cap: nat, out: LoopOutcome<P>)
    requires IsOutcome(judge, producer, start, first, cap, out) && start.iteration <= cap && !out.BoundExceeded?
    ensures out.evaluations == out.state.iteration - start.iteration + 1
    ensures out.state.iteration <= cap
    ensures out.Escalated? ==> out.state.iteration == cap
  {
  }

  /** The loop escalates exactly when every evaluation it can afford rejects and all findings fit. */
  lemma EscalatesExactlyWhen<P(!new)>(
      judge: P -> Verdict<P>, producer: State -> P, start: State, first: P, cap: nat, out: LoopOutcome<P>)
    requires IsOutcome(judge, producer, start, first, cap, out)
    ensures
      var n := Budget(start.iteration, cap);
      out.Escalated? <==>
        AllRejected(judge, producer, start, first, n) && Fits(start, Rejections(judge, producer, start, first, n))
  {
    var n := Budget(start.iteration, cap);
    if out.BoundExceeded? {
      RejectionsGrow(judge, producer, start, first, out.evaluations, n);
    }
    if out.Accepted? {
      PassedIsNotRejected(judge, producer, start, first, out.evaluations - 1, n);
    }
  }

  lemma {:induction false} StubbornAttempt<P(!new)>(
      judge: P -> Verdict<P>, producer: State -> P, start: State, first: P, k: nat)
    requires forall s :: producer(s) == first
    ensures Attempt(judge, producer, start, first, k).1 == first
  {
    if k > 0 { StubbornAttempt(judge, producer, start, first, k - 1); }
  }

  /** The same findings, `n` times over. */
  function Repeated(findings: seq<string>, n: nat): seq<string> {
    if n == 0 then [] else Repeated(findings, n - 1) + findings
  }

  lemma {:induction false} RepeatedLength(findings: seq<string>, n: nat)
    ensures |Repeated(findings, n)| == n * |findings|
  {
    if n > 0 {
      RepeatedLength(findings, n - 1);
      assert n * |findings| == (n - 1) * |findings| + |findings|;
    }
  }

  lemma {:induction false} StubbornRejections<P(!new)>(
      judge: P -> Verdict<P>, producer: State -> P, start: State, first: P, n: nat)
    requires (forall s :: producer(s) == first) && judge(first).Rejected?
    ensures Rejections(judge, producer, start, first, n) == Repeated(judge(first).findings, n)
    ensures AllRejected(judge, producer, start, first, n)
  {
    forall k: nat | k < n ensures judge(Attempt(judge, producer, start, first, k).1).Rejected? {
      StubbornAttempt(judge, producer, start, first, k);
    }
    if n > 0 {
      StubbornRejections(judge, producer, start, first, n - 1);
      StubbornAttempt(judge, producer, start, first, n - 1);
    }
  }

  /** A producer that only ever returns the first proposal passes at once or never; if never, it
      escalates after the whole budget, exactly when that many copies of its findings fit. */
  lemma StubbornProducer<P(!new)>(
      judge: P -> Verdict<P>, producer: State -> P, start: State, first: P, cap: nat, out: LoopOutcome<P>)
    requires IsOutcome(judge, producer, start, first, cap, out) && forall s :: producer(s) == first
    ensures out.Accepted? <==> judge(first).Passed?
    ensures out.Accepted? ==> out.evaluations == 1
    ensures
      var n := Budget(start.iteration, cap);
      out.Escalated? <==>
        judge(first).Rejected? && |start.findings| + n * |judge(first).findings| <= MAX_GUARDRAIL_FINDINGS
    ensures out.Escalated? ==>
      && out.evaluations == Budget(start.iteration, cap)
      && out.state.findings == start.findings + Repeated(judge(first).findings, out.evaluations)
  {
    var n := Budget(start.iteration, cap);
    StubbornAttempt(judge, producer, start, first, out.evaluations - 1);
    EscalatesExactlyWhen(judge, producer, start, first, cap, out);
    if judge(first).Rejected? {
      StubbornRejections(judge, producer, start, first, n);
      RepeatedLength(judge(first).findings, n);
    } else {
      PassedIsNotRejected(judge, producer, start, first, 0, n);
    }
  }

  /** What the loop accepts has passed all three layers, and is the factual layer's correction of the
      structural layer's reading of the last proposal made. */
  lemma AcceptedPassedAllLayers<P(!new)>(
      layers: Layers<P>, producer: State -> P, start: State, first: P, cap: nat, out: LoopOutcome<P>)
    requires IsOutcome(Judge(layers), producer, start, first, cap, out) && out.Accepted?
    ensures
      var raw := Attempt(Judge(layers), producer, start, first, out.evaluations - 1).1;
      var validated := layers.structural(raw).0;
      && layers.structural(raw).1 == [] && layers.business(validated) == [] && layers.factual(validated).1 == []
      && out.proposal == layers.factual(validated).0
  {
    var raw := Attempt(Judge(layers), producer, start, first, out.evaluations - 1).1;
    assert Judge(layers)(raw) == Pipeline(layers, raw) == Passed(out.proposal);
    PassesExactlyWhenAllLayersAreSilent(layers, raw);
    assert Findings(layers, raw)[0] == [] && Findings(layers, raw)[1] == [] && Findings(layers, raw)[2] == [];
  }

  /** Each repair is asked for with one more on the count, with the findings of the last evaluation
      as feedback, and with those of all evaluations on record. */
  lemma ProducerGetsTheFindings<P(!new)>(
      judge: P -> Verdict<P>, producer: State -> P, start: State, first: P, k: nat)
    requires AllRejected(judge, producer, start, first, k + 1)
    ensures
      var last := judge(Attempt(judge, producer, start, first, k).1);
      var asked := State(
        start.iteration + k + 1, start.findings + Rejections(judge, producer, start, first, k + 1), last.findings);
      Attempt(judge, producer, start, first, k + 1) == (asked, producer(asked))
  {
    AttemptState(judge, producer, start, first, k + 1);
    assert judge(Attempt(judge, producer, start, first, k).1).Rejected?;
  }

  /** The pipeline never rejects without saying why: `n` rejections leave at least `n` findings. */
  lemma {:induction false} EveryRejectionSaysWhy<P(!new)>(
      layers: Layers<P>, producer: State -> P, start: State, first: P, n: nat)
    requires AllRejected(Judge(layers), producer, start, first, n)
    ensures |Rejections(Judge(layers), producer, start, first, n)| >= n
  {
    if n > 0 {
      EveryRejectionSaysWhy(layers, producer, start, first, n - 1);
      assert Judge(layers)(Attempt(Judge(layers), producer, start, first, n - 1).1).Rejected?;
    }
  }
}

/** The two-gate envelope: an edge action is admitted when its endpoints are sound and the budget allows it. */
module Envelope {
  import opened Base

  datatype ActionType = EdgeObserve | EdgeContest | AnythingElse

  datatype EndpointState = EndpointState(path: Path, provenanceKnown: bool, decayBlocking: bool, hasUnresolvedTension: bool)

  datatype Context = Context(action: ActionType, endpoints: seq<EndpointState>, impact: real, budget: real)

  datatype Gate = InvariantsGate | BudgetGate

  datatype Refusal =
    | MissingEndpoints(supplied: nat)
    | BadNumbers
    | NeverDelete
    | UnknownProvenance(path: Path)
    | StalePremise(path: Path)
    | UnresolvedTension(path: Path)
    | BudgetExhausted

  /** `gate` is None exactly when the action is admitted; `impact` is what the caller then deducts. */
  datatype Verdict = Verdict(admit: bool, gate: Option<Gate>, refusal: Option<Refusal>, impact: real)

  function Refuse(gate: Gate, why: Refusal, impact: real): Verdict {
    Verdict(false, Some(gate), Some(why), impact)
  }

  function Fault(e: EndpointState): Option<Refusal> {
    if !e.provenanceKnown then Some(UnknownProvenance(e.path))
    else if e.decayBlocking then Some(StalePremise(e.path))
    else if e.hasUnresolvedTension then Some(UnresolvedTension(e.path))
    else None
  }

  function FirstFault(endpoints: seq<EndpointState>): Option<Refusal> {
    if endpoints == [] then None
    else if Fault(endpoints[0]).Some? then Fault(endpoints[0])
    else FirstFault(endpoints[1..])
  }

  function EvaluateEnvelope(ctx: Context, spent: real): Verdict {
    if |ctx.endpoints| < 2 then
      Refuse(InvariantsGate, MissingEndpoints(|ctx.endpoints|), ctx.impact)
    else if ctx.impact < 0.0 || ctx.budget < 0.0 || spent < 0.0 then
      Refuse(InvariantsGate, BadNumbers, ctx.impact)
    else if ctx.action.AnythingElse? then
      Refuse(InvariantsGate, NeverDelete, ctx.impact)
    else if FirstFault(ctx.endpoints).Some? then
      Refuse(InvariantsGate, FirstFault(ctx.endpoints).value, ctx.impact)
    else if spent + ctx.impact > ctx.budget then
      Refuse(BudgetGate, BudgetExhausted, ctx.impact)
    else
      Verdict(true, None, None, ctx.impact)
  }

  predicate Clean(e: EndpointState) {
    e.provenanceKnown && !e.decayBlocking && !e.hasUnresolvedTension
  }

  /** The invariants gate lets the context through. */
  ghost predicate Sound(ctx: Context, spent: real) {
    && |ctx.endpoints| >= 2
    && ctx.impact >= 0.0 && ctx.budget >= 0.0 && spent >= 0.0
    && !ctx.action.AnythingElse?
    && forall e :: e in ctx.endpoints ==> Clean(e)
  }

  /** The endpoints before `k` are clean, and `why` is the fault of the `k`th that is checked first. */
  ghost predicate IsFirstFault(endpoints: seq<EndpointState>, k: nat, why: Refusal) {
    && k < |endpoints|
    && (forall i :: 0 <= i < k ==> Clean(endpoints[i]))
    && !Clean(endpoints[k])
    && (why == UnknownProvenance(endpoints[k].path) <==> !endpoints[k].provenanceKnown)
    && (why == StalePremise(endpoints[k].path) <==> endpoints[k].provenanceKnown && endpoints[k].decayBlocking)
    && (why == UnresolvedTension(endpoints[k].path) <==> endpoints[k].provenanceKnown && !endpoints[k].decayBlocking)
  }

  lemma {:induction false} FirstFaultFound(endpoints: seq<EndpointState>)
    ensures FirstFault(endpoints).None? <==> forall e :: e in endpoints ==> Clean(e)
    ensures FirstFault(endpoints).Some? ==> exists k: nat :: IsFirstFault(endpoints, k, FirstFault(endpoints).value)
  {
    if endpoints != [] {
      if Fault(endpoints[0]).Some? {
        assert IsFirstFault(endpoints, 0, Fault(endpoints[0]).value);
        assert endpoints[0] in endpoints && !Clean(endpoints[0]);
      } else {
        FirstFaultFound(endpoints[1..]);
        assert endpoints == [endpoints[0]] + endpoints[1..];
        if FirstFault(endpoints).Some? {
          var k: nat :| IsFirstFault(endpoints[1..], k, FirstFault(endpoints).value);
          assert IsFirstFault(endpoints, k + 1, FirstFault(endpoints).value);
        }
      }
    }
  }

  /** What each verdict means: admission needs both gates, and the budget gate speaks only when the
      invariants hold. */
  lemma VerdictMeaning(ctx: Context, spent: real)
    ensures
      var v := EvaluateEnvelope(ctx, spent);
      && v.impact == ctx.impact
      && (v.admit <==> Sound(ctx, spent) && spent + ctx.impact <= ctx.budget)
      && (v.gate == Some(BudgetGate) <==> Sound(ctx, spent) && spent + ctx.impact > ctx.budget)
      && (v.gate == Some(InvariantsGate) <==> !Sound(ctx, spent))
      && (v.admit <==> v.gate.None?) && (v.admit <==> v.refusal.None?)
  {
    FirstFaultFound(ctx.endpoints);
  }

  /** The refusal of a well-formed context names the first faulty endpoint and its gravest fault. */
  lemma RefusalNamesFirstFault(ctx: Context, spent: real)
    requires |ctx.endpoints| >= 2 && ctx.impact >= 0.0 && ctx.budget >= 0.0 && spent >= 0.0
    requires !ctx.action.AnythingElse? && exists e :: e in ctx.endpoints && !Clean(e)
    ensures
      var v := EvaluateEnvelope(ctx, spent);
      v.refusal.Some? && exists k: nat :: IsFirstFault(ctx.endpoints, k, v.refusal.value)
  {
    FirstFaultFound(ctx.endpoints);
  }

  // ----- a session of decisions

  function Charge(v: Verdict): real {
    if v.admit then v.impact else 0.0
  }

  /** The verdicts on a run of contexts, deducting on admission only. */
  function Verdicts(ctxs: seq<Context>, spent: real): (vs: seq<Verdict>)
    ensures |vs| == |ctxs|
  {
    if ctxs == [] then []
    else
      var v := EvaluateEnvelope(ctxs[0], spent);
      [v] + Verdicts(ctxs[1..], spent + Charge(v))
  }

  /** The contexts that were admitted, in order. */
  ghost function AdmittedOnly(ctxs: seq<Context>, vs: seq<Verdict>): seq<Context>
    requires |ctxs| == |vs|
  {
    if ctxs == [] then []
    else if vs[0].admit then [ctxs[0]] + AdmittedOnly(ctxs[1..], vs[1..])
    else AdmittedOnly(ctxs[1..], vs[1..])
  }

  /** A gated action leaves no mark: drop every gated one, and the rest are still all admitted. */
  lemma {:induction false} GatedLeavesNoMark(ctxs: seq<Context>, spent: real)
    ensures
      var kept := AdmittedOnly(ctxs, Verdicts(ctxs, spent));
      forall v :: v in Verdicts(kept, spent) ==> v.admit
  {
    if ctxs != [] {
      var v := EvaluateEnvelope(ctxs[0], spent);
      var vs := Verdicts(ctxs, spent);
      assert vs[1..] == Verdicts(ctxs[1..], spent + Charge(v));
      GatedLeavesNoMark(ctxs[1..], spent + Charge(v));
      var rest := AdmittedOnly(ctxs[1..], vs[1..]);
      if v.admit {
        assert ([ctxs[0]] + rest)[1..] == rest;
        assert AdmittedOnly(ctxs, vs) == [ctxs[0]] + rest;
      }
    }
  }
}

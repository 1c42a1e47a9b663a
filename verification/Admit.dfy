/** The consolidation session's gate: endpoint states from the loaded vault, one spend scalar, one journal. */
module Admit {
  import opened Base
  import opened Envelope
  import opened TensionBlast

  datatype DecayLevel = Aging | Warn | Deprecated

  /** A loaded document: whether its schema holds and what the decay rules say of it. */
  datatype LoadedDoc = LoadedDoc(path: Path, valid: bool, decay: Option<DecayLevel>)

  /** A tension's two sides and whether it is settled. */
  datatype Dispute = Dispute(sourceA: Path, sourceB: Path, resolved: bool)

  datatype Request = Request(action: ActionType, fromPath: Path, toPath: Path)

  datatype Decision = Decision(request: Request, verdict: Verdict)

  /** x to the power 1.5 on whole numbers, as far as the gate relies on it. */
  type Power = p: nat -> real | p(0) == 0.0 && forall n :: p(n) >= 0.0 witness n => 0.0

  const I_OBSERVE: real := 0.05
  const I_CONTEST: real := 0.1
  const I_DEFAULT: real := 0.2
  const K_BLAST: real := 0.05
  const B0_BASE: real := 0.5
  const B0_PER_PENDING: real := 0.25

  function MinReal(a: real, b: real): real {
    if a <= b then a else b
  }

  function MaxReal(a: real, b: real): real {
    if a >= b then a else b
  }

  function BaseImpact(action: ActionType): real {
    match action
    case EdgeObserve => I_OBSERVE
    case EdgeContest => I_CONTEST
    case AnythingElse => I_DEFAULT
  }

  function ShadowImpact(action: ActionType, blast: nat, power: Power): (impact: real)
    ensures 0.0 < impact <= 1.0
  {
    var b := if blast < 1 then 1 else blast;
    MinReal(BaseImpact(action) + K_BLAST * power(b - 1), 1.0)
  }

  /** `logDocs` is the natural logarithm of the number of documents. */
  function ShadowBudget(pending: nat, logDocs: real): (budget: real)
    ensures budget >= 0.5
  {
    MinReal(B0_BASE + B0_PER_PENDING * pending as real, MaxReal(1.0, logDocs))
  }

  /** What an action costs: an observation a twentieth, a contest twice that, and for documents downstream more, but
      never more than one. */
  lemma ImpactMeans(blast: nat, power: Power)
    requires blast > 0
    ensures ShadowImpact(EdgeObserve, 1, power) == 0.05 && ShadowImpact(EdgeContest, 1, power) == 0.1
    ensures 0.05 + 0.05 * power(blast - 1) <= 1.0 ==> ShadowImpact(EdgeObserve, blast, power) == 0.05 + 0.05 * power(blast - 1)
    ensures 0.1 + 0.05 * power(blast - 1) <= 1.0 ==> ShadowImpact(EdgeContest, blast, power) == 0.1 + 0.05 * power(blast - 1)
    ensures 0.05 + 0.05 * power(blast - 1) >= 1.0 ==>
      ShadowImpact(EdgeObserve, blast, power) == ShadowImpact(EdgeContest, blast, power) == 1.0
  {
  }

  /** A session has half a point, and a quarter more for each pending action, up to the logarithm of the vault. */
  lemma BudgetMeans(pending: nat, logDocs: real)
    ensures ShadowBudget(0, logDocs) == 0.5
    ensures ShadowBudget(pending, logDocs) <= 1.0 || ShadowBudget(pending, logDocs) <= logDocs
    ensures 0.5 + 0.25 * pending as real <= 1.0 || 0.5 + 0.25 * pending as real <= logDocs ==>
      ShadowBudget(pending, logDocs) == 0.5 + 0.25 * pending as real
    ensures 0.5 + 0.25 * pending as real > 1.0 && 0.5 + 0.25 * pending as real > logDocs ==>
      ShadowBudget(pending, logDocs) >= 1.0 && ShadowBudget(pending, logDocs) >= logDocs
  {
  }

  /** What the admitted decisions cost together. */
  ghost function SpendOf(ds: seq<Decision>): real {
    if ds == [] then 0.0 else SpendOf(ds[..|ds| - 1]) + Charge(ds[|ds| - 1].verdict)
  }

  /** `d` is the last document loaded for its path, at place `i`. */
  ghost predicate LastAt(loaded: seq<LoadedDoc>, i: nat, d: LoadedDoc) {
    i < |loaded| && loaded[i] == d && forall j :: i < j < |loaded| ==> loaded[j].path != d.path
  }

  ghost predicate IsLast(loaded: seq<LoadedDoc>, d: LoadedDoc) {
    exists i: nat :: LastAt(loaded, i, d)
  }

  /** The cache holds the last loaded document at each path. */
  ghost predicate CachesLast(loaded: seq<LoadedDoc>, cache: map<Path, LoadedDoc>) {
    && (forall d :: d in loaded ==> d.path in cache)
    && (forall p :: p in cache ==> cache[p].path == p && IsLast(loaded, cache[p]))
  }

  method CacheDocs(loaded: seq<LoadedDoc>) returns (cache: map<Path, LoadedDoc>)
    ensures CachesLast(loaded, cache)
  {
    cache := map[];
    for n := 0 to |loaded|
      invariant CachesLast(loaded[..n], cache)
    {
      ghost var before := cache;
      cache := cache[loaded[n].path := loaded[n]];
      assert loaded[..n + 1] == loaded[..n] + [loaded[n]];
      forall p | p in cache ensures IsLast(loaded[..n + 1], cache[p]) {
        if p == loaded[n].path {
          assert LastAt(loaded[..n + 1], n, cache[p]);
        } else {
          assert IsLast(loaded[..n], before[p]);
          var i: nat :| LastAt(loaded[..n], i, before[p]);
          assert LastAt(loaded[..n + 1], i, cache[p]);
        }
      }
    }
    assert loaded[..|loaded|] == loaded;
  }

  ghost predicate Touched(disputes: seq<Dispute>, p: Path) {
    exists d :: d in disputes && !d.resolved && (d.sourceA == p || d.sourceB == p)
  }

  method UnresolvedPaths(disputes: seq<Dispute>) returns (paths: set<Path>)
    ensures forall p :: p in paths <==> Touched(disputes, p)
  {
    paths := {};
    for n := 0 to |disputes|
      invariant forall p :: p in paths <==> Touched(disputes[..n], p)
    {
      assert disputes[..n + 1] == disputes[..n] + [disputes[n]];
      if !disputes[n].resolved {
        paths := paths + {disputes[n].sourceA, disputes[n].sourceB};
      }
      forall p ensures p in paths <==> Touched(disputes[..n + 1], p) {
        assert Touched(disputes[..n], p) ==> Touched(disputes[..n + 1], p);
        assert disputes[n] in disputes[..n + 1];
      }
    }
    assert disputes[..|disputes|] == disputes;
  }

  function LivePending(expiries: seq<int>, now: int): nat {
    if expiries == [] then 0
    else LivePending(expiries[1..], now) + if expiries[0] > now then 1 else 0
  }

  /** The pending actions that count are, one by one, those whose time has not run out. */
  lemma {:induction false} LivePendingMeans(expiries: seq<int>, more: seq<int>, expiry: int, now: int)
    ensures LivePending([], now) == 0
    ensures LivePending([expiry], now) == if expiry > now then 1 else 0
    ensures LivePending(expiries + more, now) == LivePending(expiries, now) + LivePending(more, now)
  {
    assert [expiry][1..] == [];
    if expiries == [] {
      assert expiries + more == more;
    } else {
      LivePendingMeans(expiries[1..], more, expiry, now);
      assert (expiries + more)[1..] == expiries[1..] + more;
    }
  }

  class Session {
    const docs: map<Path, LoadedDoc>
    const unresolved: set<Path>
    const source: Reverse
    const link: Reverse
    const power: Power
    const budget: real

    var spent: real
    var journal: seq<Decision>
    var journalFailures: nat
    ghost var decisions: seq<Decision>

    /** The session never spends beyond its budget, spends exactly what was admitted, admits only eligible
        documents, and accounts for every decision in the journal or in the count of journal failures. */
    ghost predicate Valid()
      reads this
    {
      && 0.0 <= spent <= budget
      && spent == SpendOf(decisions)
      && |journal| + journalFailures == |decisions|
      && (forall d :: d in journal ==> d in decisions)
      && (forall d :: d in decisions && d.verdict.admit ==> Eligible(d.request.fromPath) && Eligible(d.request.toPath))
    }

    constructor (loaded: seq<LoadedDoc>, disputes: seq<Dispute>, expiries: seq<int>, now: int,
                 source: Reverse, link: Reverse, logDocs: real, power: Power)
      ensures Valid() && spent == 0.0 && decisions == [] && journal == []
      ensures budget == ShadowBudget(LivePending(expiries, now), logDocs)
      ensures CachesLast(loaded, docs) && forall p :: p in unresolved <==> Touched(disputes, p)
      ensures this.source == source && this.link == link && this.power == power
    {
      var cache := CacheDocs(loaded);
      var open := UnresolvedPaths(disputes);
      this.docs, this.unresolved := cache, open;
      this.source, this.link, this.power := source, link, power;
      this.budget := ShadowBudget(LivePending(expiries, now), logDocs);
      spent, journal, journalFailures, decisions := 0.0, [], 0, [];
    }

    /** A path outside the loaded set has unknown provenance. */
    function EndpointOf(path: Path): EndpointState {
      if path !in docs then EndpointState(path, false, false, false)
      else
        var d := docs[path];
        EndpointState(path, d.valid, d.decay.Some? && !d.decay.value.Aging?, path in unresolved)
    }

    /** What the envelope is asked about a request that reaches `downstream` further documents. */
    function ContextOf(r: Request, downstream: nat): Context {
      Context(r.action, [EndpointOf(r.fromPath), EndpointOf(r.toPath)],
              ShadowImpact(r.action, 1 + downstream, power), budget)
    }

    method Admit(r: Request, journalWritable: bool) returns (verdict: Verdict, ghost blast: Blast)
      requires Valid()
      modifies this
      ensures Valid()
      ensures IsBlast({r.fromPath, r.toPath}, source, link, blast)
      ensures verdict == EvaluateEnvelope(ContextOf(r, |blast.downstream|), old(spent))
      ensures decisions == old(decisions) + [Decision(r, verdict)]
      ensures spent == old(spent) + Charge(verdict)
      ensures journal == old(journal) + if journalWritable then [Decision(r, verdict)] else []
      ensures journalFailures == old(journalFailures) + if journalWritable then 0 else 1
    {
      var reach := ComputeBlast([r.fromPath, r.toPath], source, link);
      assert ToSet([r.fromPath, r.toPath]) == {r.fromPath, r.toPath};
      blast := reach;
      var ctx := ContextOf(r, |reach.downstream|);
      verdict := EvaluateEnvelope(ctx, spent);
      AdmittedExactly(r, |reach.downstream|, spent);
      if journalWritable {
        journal := journal + [Decision(r, verdict)];
      } else {
        journalFailures := journalFailures + 1;
      }
      decisions := decisions + [Decision(r, verdict)];
      assert decisions[..|decisions| - 1] == old(decisions);
      if verdict.admit {
        spent := spent + verdict.impact;
      }
    }

    /** Loaded, valid, not formally stale, and outside every tension open when the session began. */
    predicate Eligible(p: Path) {
      p in docs && docs[p].valid && (docs[p].decay.None? || docs[p].decay.value.Aging?) && p !in unresolved
    }

    /** A document is eligible unless it is not loaded or invalid, its decay is a warning or a deprecation, or it was
        in an open tension when the session began. */
    lemma EligibleMeans(p: Path)
      ensures Eligible(p) <==>
        p in docs && docs[p].valid && docs[p].decay !in {Some(Warn), Some(Deprecated)} && p !in unresolved
    {
    }

    /** A request is admitted exactly when both documents are eligible and its price fits in what is left
        of the budget. */
    lemma AdmittedExactly(r: Request, downstream: nat, before: real)
      requires 0.0 <= before <= budget
      ensures
        EvaluateEnvelope(ContextOf(r, downstream), before).admit <==>
        && !r.action.AnythingElse? && Eligible(r.fromPath) && Eligible(r.toPath)
        && before + ShadowImpact(r.action, 1 + downstream, power) <= budget
    {
      var ctx := ContextOf(r, downstream);
      VerdictMeaning(ctx, before);
      assert ctx.endpoints[0] == EndpointOf(r.fromPath) && ctx.endpoints[1] == EndpointOf(r.toPath);
      assert Clean(EndpointOf(r.fromPath)) <==> Eligible(r.fromPath);
      assert Clean(EndpointOf(r.toPath)) <==> Eligible(r.toPath);
    }
  }
}

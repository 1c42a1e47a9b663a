/** Walks along a functional pointer graph: at most one successor per document, loops allowed. */
module Pointers {
  import opened Base

  type Graph = map<Path, Path>

  /** Where `n` hops from `p` lead, unless the walk stops before. */
  ghost function At(g: Graph, p: Path, n: nat): Option<Path> {
    if n == 0 then Some(p)
    else
      var q := At(g, p, n - 1);
      if q.Some? && q.value in g then Some(g[q.value]) else None
  }

  lemma {:induction false} AtSplit(g: Graph, p: Path, m: nat, n: nat)
    requires At(g, p, m).Some?
    ensures At(g, p, m + n) == At(g, At(g, p, m).value, n)
  {
    if n > 0 {
      AtSplit(g, p, m, n - 1);
    }
  }

  /** A walk that goes `n` hops passes through every shorter distance. */
  lemma {:induction false} AtPrefix(g: Graph, p: Path, m: nat, n: nat)
    requires m <= n && At(g, p, n).Some?
    ensures At(g, p, m).Some?
    ensures m < n ==> At(g, p, m).value in g
  {
    if m < n {
      AtPrefix(g, p, m, n - 1);
    }
  }

  ghost predicate Reaches(g: Graph, p: Path, q: Path) {
    exists n: nat :: At(g, p, n) == Some(q)
  }

  ghost predicate OnLoop(g: Graph, p: Path) {
    exists n: nat :: n > 0 && At(g, p, n) == Some(p)
  }

  lemma ReachesTransitive(g: Graph, p: Path, q: Path, r: Path)
    requires Reaches(g, p, q) && Reaches(g, q, r)
    ensures Reaches(g, p, r)
  {
    var m: nat :| At(g, p, m) == Some(q);
    var n: nat :| At(g, q, n) == Some(r);
    AtSplit(g, p, m, n);
    assert At(g, p, m + n) == Some(r);
  }

  /** Once round the loop and `n` hops more is `n` hops. */
  lemma LoopRepeats(g: Graph, p: Path, k: nat, n: nat)
    requires At(g, p, k) == Some(p)
    ensures At(g, p, k + n) == At(g, p, n)
  {
    AtSplit(g, p, k, n);
  }

  lemma {:induction false} LoopNeverStops(g: Graph, p: Path, k: nat, n: nat)
    requires k > 0 && At(g, p, k) == Some(p)
    ensures At(g, p, n).Some?
  {
    if n < k {
      AtPrefix(g, p, n, k);
    } else {
      LoopNeverStops(g, p, k, n - k);
      LoopRepeats(g, p, k, n - k);
    }
  }

  /** From anywhere a loop leads, it leads back. */
  lemma {:induction false} LoopReturns(g: Graph, p: Path, k: nat, n: nat)
    requires k > 0 && At(g, p, k) == Some(p)
    requires At(g, p, n).Some?
    ensures OnLoop(g, At(g, p, n).value) && Reaches(g, At(g, p, n).value, p)
    decreases n
  {
    var q := At(g, p, n).value;
    if n >= k {
      LoopRepeats(g, p, k, n - k);
      LoopReturns(g, p, k, n - k);
    } else {
      AtSplit(g, p, n, k - n);
      assert At(g, q, k - n) == Some(p);
      AtSplit(g, q, k - n, n);
      assert At(g, q, k - n + n) == Some(q);
    }
  }

  lemma LoopIsMutual(g: Graph, p: Path, q: Path)
    requires OnLoop(g, p) && Reaches(g, p, q)
    ensures OnLoop(g, q) && Reaches(g, q, p)
  {
    var k: nat :| k > 0 && At(g, p, k) == Some(p);
    var n: nat :| At(g, p, n) == Some(q);
    LoopReturns(g, p, k, n);
  }

  /** `ms` is the loop through `m`. */
  ghost predicate IsLoop(g: Graph, m: Path, ms: set<Path>) {
    OnLoop(g, m) && forall q :: q in ms <==> Reaches(g, m, q)
  }

  lemma LoopFromAnyMember(g: Graph, m: Path, ms: set<Path>, q: Path)
    requires IsLoop(g, m, ms) && q in ms
    ensures IsLoop(g, q, ms)
  {
    LoopIsMutual(g, m, q);
    forall r ensures r in ms <==> Reaches(g, q, r) {
      if Reaches(g, q, r) {
        ReachesTransitive(g, m, q, r);
      }
      if r in ms {
        ReachesTransitive(g, q, m, r);
      }
    }
  }

  lemma LoopUnique(g: Graph, m: Path, a: set<Path>, b: set<Path>)
    requires IsLoop(g, m, a) && IsLoop(g, m, b)
    ensures a == b
  {
    assert forall q :: q in a <==> Reaches(g, m, q);
    assert forall q :: q in b <==> Reaches(g, m, q);
    assert forall q | q in a :: q in b;
    assert forall q | q in b :: q in a;
  }

  lemma LoopMember(g: Graph, m: Path, ms: set<Path>)
    requires IsLoop(g, m, ms)
    ensures m in ms
  {
    assert At(g, m, 0) == Some(m);
  }

  /** The trail of a walk: `trail[i]` is `i` hops from its start, and no document repeats. */
  ghost predicate IsTrail(g: Graph, trail: seq<Path>) {
    && trail != []
    && Distinct(trail)
    && forall i :: 0 <= i < |trail| ==> At(g, trail[0], i) == Some(trail[i])
  }

  lemma TrailExtends(g: Graph, trail: seq<Path>)
    requires IsTrail(g, trail)
    requires trail[|trail| - 1] in g && g[trail[|trail| - 1]] !in trail
    ensures IsTrail(g, trail + [g[trail[|trail| - 1]]])
  {
    assert At(g, trail[0], |trail| - 1) == Some(trail[|trail| - 1]);
  }

  /** A trail whose last document points back into it closes exactly one loop: the rest of the trail from there. */
  lemma TrailCloses(g: Graph, trail: seq<Path>, seenAt: nat)
    requires IsTrail(g, trail) && seenAt < |trail|
    requires trail[|trail| - 1] in g && g[trail[|trail| - 1]] == trail[seenAt]
    ensures IsLoop(g, trail[seenAt], ToSet(trail[seenAt..]))
    ensures forall i :: 0 <= i < seenAt ==> trail[i] !in trail[seenAt..]
  {
    var m, k, cycle := trail[seenAt], |trail| - seenAt, trail[seenAt..];
    forall i: nat | i < k ensures At(g, m, i) == Some(cycle[i]) {
      AtSplit(g, trail[0], seenAt, i);
      assert At(g, trail[0], seenAt) == Some(m);
    }
    assert At(g, m, k - 1) == Some(cycle[k - 1]);
    assert At(g, m, k) == Some(m);
    forall q ensures q in ToSet(cycle) <==> Reaches(g, m, q) {
      if q in cycle {
        var i :| 0 <= i < k && cycle[i] == q;
        assert At(g, m, i) == Some(q);
      }
      if Reaches(g, m, q) {
        var n: nat :| At(g, m, n) == Some(q);
        ReducesModulo(g, m, k, n);
      }
    }
  }

  lemma {:induction false} ReducesModulo(g: Graph, m: Path, k: nat, n: nat)
    requires k > 0 && At(g, m, k) == Some(m)
    ensures exists i: nat :: i < k && At(g, m, i) == At(g, m, n)
  {
    if n >= k {
      LoopRepeats(g, m, k, n - k);
      ReducesModulo(g, m, k, n - k);
      var i: nat :| i < k && At(g, m, i) == At(g, m, n - k);
      assert At(g, m, i) == At(g, m, n);
    }
  }

  lemma TrailFits(g: Graph, trail: seq<Path>, universe: set<Path>)
    requires Distinct(trail) && forall p :: p in trail ==> p in universe
    ensures |trail| <= |universe|
  {
    DistinctCardinality(trail);
    SubsetCardinality(ToSet(trail), universe);
  }
}

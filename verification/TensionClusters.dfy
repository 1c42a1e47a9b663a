/** Tension clusters: the connected components of the live contested tensions. */
module TensionClusters {
  import opened Base
  import opened Sorting
  import opened UnionFind

  datatype Kind = Temporal | Factual | Interpretive | InterProposal | Positional | Unspecified

  /** A logged tension; a malformed entry lacks an endpoint. `dated` is midnight of its date, when that parses. */
  datatype Tension = Tension(sourceA: Option<Path>, sourceB: Option<Path>, resolved: bool, accepted: bool,
                             kind: Kind, dated: Option<int>)

  predicate InScope(t: Tension) {
    !t.resolved && !t.accepted && t.sourceA != t.sourceB && t.sourceA.Some? && t.sourceB.Some?
  }

  type Link = t: Tension | InScope(t) witness Tension(Some(0), Some(1), false, false, Factual, None)

  function AgeInDays(dated: Option<int>, now: int): int {
    if dated.None? then 0 else (now - dated.value) / 86_400_000
  }

  // ----- specification: connectivity

  ghost predicate Joins(t: Link, a: Path, b: Path) {
    (t.sourceA.value == a && t.sourceB.value == b) || (t.sourceA.value == b && t.sourceB.value == a)
  }

  ghost predicate Adjacent(ts: seq<Link>, a: Path, b: Path) {
    exists t: Link :: t in ts && Joins(t, a, b)
  }

  ghost predicate IsPath(ts: seq<Link>, p: seq<Path>) {
    p != [] && forall i :: 0 <= i < |p| - 1 ==> Adjacent(ts, p[i], p[i + 1])
  }

  /** A chain of tensions leads from `a` to `b`. */
  ghost predicate Connected(ts: seq<Link>, a: Path, b: Path) {
    exists p :: IsPath(ts, p) && p[0] == a && p[|p| - 1] == b
  }

  ghost function Endpoints(ts: seq<Link>): (s: set<Path>)
  {
    (set t: Link | t in ts :: t.sourceA.value) + (set t: Link | t in ts :: t.sourceB.value)
  }

  lemma ConnectedReflexive(ts: seq<Link>, a: Path)
    ensures Connected(ts, a, a)
  {
    assert IsPath(ts, [a]);
  }

  lemma ConnectedSymmetric(ts: seq<Link>, a: Path, b: Path)
    requires Connected(ts, a, b)
    ensures Connected(ts, b, a)
  {
    var p :| IsPath(ts, p) && p[0] == a && p[|p| - 1] == b;
    var q := seq(|p|, i requires 0 <= i < |p| => p[|p| - 1 - i]);
    forall i | 0 <= i < |q| - 1 ensures Adjacent(ts, q[i], q[i + 1]) {
      assert Adjacent(ts, p[|p| - 2 - i], p[|p| - 2 - i + 1]);
      var t: Link :| t in ts && Joins(t, p[|p| - 2 - i], p[|p| - 2 - i + 1]);
      assert Joins(t, q[i], q[i + 1]);
    }
    assert IsPath(ts, q);
  }

  lemma ConnectedTransitive(ts: seq<Link>, a: Path, b: Path, c: Path)
    requires Connected(ts, a, b) && Connected(ts, b, c)
    ensures Connected(ts, a, c)
  {
    var p :| IsPath(ts, p) && p[0] == a && p[|p| - 1] == b;
    var q :| IsPath(ts, q) && q[0] == b && q[|q| - 1] == c;
    var r := p + q[1..];
    forall i | 0 <= i < |r| - 1 ensures Adjacent(ts, r[i], r[i + 1]) {
      if i < |p| - 1 {
        assert Adjacent(ts, p[i], p[i + 1]);
      } else {
        var j := i - (|p| - 1);
        assert Adjacent(ts, q[j], q[j + 1]);
        assert r[i] == q[j] && r[i + 1] == q[j + 1];
      }
    }
    assert IsPath(ts, r);
  }

  lemma ConnectedMonotone(ts: seq<Link>, t: Link, a: Path, b: Path)
    requires Connected(ts, a, b)
    ensures Connected(ts + [t], a, b)
  {
    var p :| IsPath(ts, p) && p[0] == a && p[|p| - 1] == b;
    forall i | 0 <= i < |p| - 1 ensures Adjacent(ts + [t], p[i], p[i + 1]) {
      assert Adjacent(ts, p[i], p[i + 1]);
      var u: Link :| u in ts && Joins(u, p[i], p[i + 1]);
      assert u in ts + [t];
    }
    assert IsPath(ts + [t], p);
  }

  lemma ConnectedByLast(ts: seq<Link>, t: Link)
    ensures Connected(ts + [t], t.sourceA.value, t.sourceB.value)
  {
    var p := [t.sourceA.value, t.sourceB.value];
    assert t in ts + [t] && Joins(t, p[0], p[1]);
    assert IsPath(ts + [t], p);
  }

  // ----- roots are components

  ghost predicate RootsAreComponents(ts: seq<Link>, root: Links) {
    && root.Keys == Endpoints(ts)
    && forall a, b :: a in root && b in root ==> (root[a] == root[b] <==> Connected(ts, a, b))
  }

  lemma {:induction false} PathKeepsRoot(ts: seq<Link>, root: Links, p: seq<Path>)
    requires IsPath(ts, p) && p[0] in root
    requires forall t: Link :: t in ts ==>
      t.sourceA.value in root && t.sourceB.value in root && root[t.sourceA.value] == root[t.sourceB.value]
    ensures p[|p| - 1] in root && root[p[|p| - 1]] == root[p[0]]
  {
    if |p| > 1 {
      var front := p[..|p| - 1];
      forall i | 0 <= i < |front| - 1 ensures Adjacent(ts, front[i], front[i + 1]) {
        assert Adjacent(ts, p[i], p[i + 1]);
      }
      PathKeepsRoot(ts, root, front);
      assert Adjacent(ts, p[|p| - 2], p[|p| - 2 + 1]);
    }
  }

  lemma EndpointsAppend(ts: seq<Link>, t: Link)
    ensures Endpoints(ts + [t]) == Endpoints(ts) + {t.sourceA.value, t.sourceB.value}
  {
    var a, b := t.sourceA.value, t.sourceB.value;
    assert t in ts + [t];
    assert forall u: Link :: u in ts ==> u in ts + [t];
  }

  lemma EdgeHasOneRoot(ts: seq<Link>, root: Links, u: Link)
    requires RootsAreComponents(ts, root) && u in ts
    ensures u.sourceA.value in root && u.sourceB.value in root && root[u.sourceA.value] == root[u.sourceB.value]
  {
    EdgeConnects(ts, u);
  }

  lemma EdgeConnects(ts: seq<Link>, u: Link)
    requires u in ts
    ensures Connected(ts, u.sourceA.value, u.sourceB.value) && Connected(ts, u.sourceB.value, u.sourceA.value)
  {
    var a, b := u.sourceA.value, u.sourceB.value;
    assert Joins(u, a, b) && Joins(u, b, a);
    var p, q := [a, b], [b, a];
    assert IsPath(ts, p) && p[0] == a && p[|p| - 1] == b;
    assert IsPath(ts, q) && q[0] == b && q[|q| - 1] == a;
  }

  lemma UnionKeepsEdge(ts: seq<Link>, t: Link, root: Links, u: Link)
    requires RootsAreComponents(ts, root) && u in ts + [t]
    ensures
      var root' := Merged(root, t.sourceA.value, t.sourceB.value);
      u.sourceA.value in root' && u.sourceB.value in root' && root'[u.sourceA.value] == root'[u.sourceB.value]
  {
    if u in ts {
      EdgeHasOneRoot(ts, root, u);
    }
  }

  lemma UnionKeepsEdges(ts: seq<Link>, t: Link, root: Links)
    requires RootsAreComponents(ts, root)
    ensures
      var root' := Merged(root, t.sourceA.value, t.sourceB.value);
      && root'.Keys == Endpoints(ts + [t])
      && forall u: Link :: u in ts + [t] ==>
        u.sourceA.value in root' && u.sourceB.value in root' && root'[u.sourceA.value] == root'[u.sourceB.value]
  {
    EndpointsAppend(ts, t);
    forall u: Link | u in ts + [t] ensures
      var root' := Merged(root, t.sourceA.value, t.sourceB.value);
      u.sourceA.value in root' && u.sourceB.value in root' && root'[u.sourceA.value] == root'[u.sourceB.value]
    {
      UnionKeepsEdge(ts, t, root, u);
    }
  }

  /** Documents a union puts under one root are connected by the tensions so far. */
  lemma MergedAreConnected(ts: seq<Link>, t: Link, root: Links, x: Path, y: Path)
    requires RootsAreComponents(ts, root)
    requires RootIsMember(root)
    requires
      var root' := Merged(root, t.sourceA.value, t.sourceB.value);
      x in root' && y in root' && root'[x] == root'[y]
    ensures Connected(ts + [t], x, y)
  {
    var a, b := t.sourceA.value, t.sourceB.value;
    var both := WithSingleton(WithSingleton(root, a), b);
    ConnectedByLast(ts, t);
    ConnectedSymmetric(ts + [t], a, b);
    if both[x] == both[y] {
      SameRootConnected(ts, t, root, both, x, y);
    } else if both[x] == both[a] && both[y] == both[b] {
      SameRootConnected(ts, t, root, both, x, a);
      SameRootConnected(ts, t, root, both, b, y);
      ConnectedTransitive(ts + [t], x, a, b);
      ConnectedTransitive(ts + [t], x, b, y);
    } else {
      SameRootConnected(ts, t, root, both, x, b);
      SameRootConnected(ts, t, root, both, a, y);
      ConnectedTransitive(ts + [t], x, b, a);
      ConnectedTransitive(ts + [t], x, a, y);
    }
  }

  ghost predicate RootIsMember(root: Links) {
    forall x :: x in root ==> root[x] in root.Keys
  }

  lemma SameRootConnected(ts: seq<Link>, t: Link, root: Links, both: Links, x: Path, y: Path)
    requires RootsAreComponents(ts, root) && RootIsMember(root)
    requires both == WithSingleton(WithSingleton(root, t.sourceA.value), t.sourceB.value)
    requires x in both && y in both && both[x] == both[y]
    ensures Connected(ts + [t], x, y)
  {
    if x in root && y in root {
      ConnectedMonotone(ts, t, x, y);
    } else {
      assert x == y;
      ConnectedReflexive(ts + [t], x);
    }
  }

  lemma UnionStep(ts: seq<Link>, t: Link, root: Links)
    requires RootsAreComponents(ts, root) && RootIsMember(root)
    ensures RootsAreComponents(ts + [t], Merged(root, t.sourceA.value, t.sourceB.value))
  {
    var root' := Merged(root, t.sourceA.value, t.sourceB.value);
    UnionKeepsEdges(ts, t, root);
    forall x, y | x in root' && y in root' ensures root'[x] == root'[y] <==> Connected(ts + [t], x, y) {
      if Connected(ts + [t], x, y) {
        var p :| IsPath(ts + [t], p) && p[0] == x && p[|p| - 1] == y;
        PathKeepsRoot(ts + [t], root', p);
      }
      if root'[x] == root'[y] {
        MergedAreConnected(ts, t, root, x, y);
      }
    }
  }

  // ----- clusters

  datatype Cluster = Cluster(id: int, size: nat, documents: seq<Path>, tensionCount: nat, kinds: map<Kind, nat>,
                             oldest: int, newest: int)

  const KINDS := {Temporal, Factual, Interpretive, InterProposal, Positional, Unspecified}

  lemma AllKindsListed(k: Kind)
    ensures k in KINDS
  {
    match k
    case Temporal =>
    case Factual =>
    case Interpretive =>
    case InterProposal =>
    case Positional =>
    case Unspecified =>
  }

  predicate Leq(a: Path, b: Path) {
    a <= b
  }

  /** Largest cluster first, ties by id. */
  predicate LargestFirst(a: Cluster, b: Cluster) {
    a.size > b.size || (a.size == b.size && a.id <= b.id)
  }

  /** The tensions whose endpoints both lie in `docs`. */
  ghost function Inside(ts: seq<Link>, docs: set<Path>): seq<Link> {
    if ts == [] then []
    else
      var front, t := Inside(ts[..|ts| - 1], docs), ts[|ts| - 1];
      if t.sourceA.value in docs && t.sourceB.value in docs then front + [t] else front
  }

  ghost function KindCount(ts: seq<Link>, k: Kind): nat {
    if ts == [] then 0 else KindCount(ts[..|ts| - 1], k) + if ts[|ts| - 1].kind == k then 1 else 0
  }

  ghost predicate IsOldest(ts: seq<Link>, now: int, age: int) {
    && age >= 0
    && (forall t :: t in ts ==> AgeInDays(t.dated, now) <= age)
    && (age == 0 || exists t :: t in ts && AgeInDays(t.dated, now) == age)
  }

  ghost predicate IsNewest(ts: seq<Link>, now: int, age: int) {
    && (forall t :: t in ts ==> age <= AgeInDays(t.dated, now))
    && (if ts == [] then age == 0 else exists t :: t in ts && AgeInDays(t.dated, now) == age)
  }

  ghost predicate Summarizes(c: Cluster, ts: seq<Link>, now: int) {
    && c.tensionCount == |ts|
    && c.kinds.Keys == KINDS
    && (forall k :: k in KINDS ==> c.kinds[k] == KindCount(ts, k))
    && IsOldest(ts, now, c.oldest)
    && IsNewest(ts, now, c.newest)
  }

  /** `docs` is a whole connected component. */
  ghost predicate IsComponent(ts: seq<Link>, docs: seq<Path>) {
    && docs != []
    && forall d, x :: d in docs ==> (x in docs <==> x in Endpoints(ts) && Connected(ts, d, x))
  }

  ghost predicate IsClusterOf(ts: seq<Link>, now: int, idOf: seq<Path> -> int, c: Cluster) {
    && SortedBy(c.documents, Leq) && Distinct(c.documents)
    && IsComponent(ts, c.documents)
    && c.size == |c.documents| && c.id == idOf(c.documents)
    && Summarizes(c, Inside(ts, ToSet(c.documents)), now)
  }

  ghost predicate NoSharedDocuments(out: seq<Cluster>) {
    forall i, j, d {:trigger d in out[i].documents, d in out[j].documents} ::
      0 <= i < j < |out| ==> !(d in out[i].documents && d in out[j].documents)
  }

  /** `out` is exactly the connected components, every document in one of them, in order. */
  ghost predicate IsClustering(ts: seq<Link>, now: int, idOf: seq<Path> -> int, out: seq<Cluster>) {
    && SortedBy(out, LargestFirst)
    && (forall c :: c in out ==> IsClusterOf(ts, now, idOf, c))
    && (forall d :: d in Endpoints(ts) ==> exists c :: c in out && d in c.documents)
    && NoSharedDocuments(out)
  }

  /** A tension is as many whole days old as have gone by since its date, and no days old without one. */
  lemma AgeMeans(dated: Option<int>, now: int)
    ensures dated.None? ==> AgeInDays(dated, now) == 0
    ensures dated.Some? ==>
      86_400_000 * AgeInDays(dated, now) <= now - dated.value < 86_400_000 * (AgeInDays(dated, now) + 1)
  {
  }

  /** The largest clusters come first, those of one size by id, and each lists its documents in order. */
  lemma ClusteringOrder(ts: seq<Link>, now: int, idOf: seq<Path> -> int, out: seq<Cluster>)
    requires IsClustering(ts, now, idOf, out)
    ensures forall i, j :: 0 <= i < j < |out| ==>
      |out[i].documents| > |out[j].documents| || (|out[i].documents| == |out[j].documents| && out[i].id <= out[j].id)
    ensures forall c :: c in out ==> c.size == |c.documents|
    ensures forall c, i, j :: c in out && 0 <= i < j < |c.documents| ==> c.documents[i] < c.documents[j]
  {
    forall i, j | 0 <= i < j < |out| ensures LargestFirst(out[i], out[j]) && out[i] in out && out[j] in out {
    }
    forall c | c in out ensures IsClusterOf(ts, now, idOf, c) {
    }
    forall c, i, j | c in out && 0 <= i < j < |c.documents| ensures c.documents[i] < c.documents[j] {
      assert Leq(c.documents[i], c.documents[j]);
    }
  }

  ghost function OfKind(ts: seq<Link>, k: Kind): set<nat> {
    set i: nat | i < |ts| && ts[i].kind == k
  }

  lemma OfKindSnoc(ts: seq<Link>, t: Link, k: Kind)
    ensures OfKind(ts + [t], k) == if t.kind == k then OfKind(ts, k) + {|ts|} else OfKind(ts, k)
    ensures |ts| !in OfKind(ts, k)
  {
  }

  /** A cluster's kinds count its tensions of each kind. */
  lemma {:induction false} KindCountMeans(ts: seq<Link>, k: Kind)
    ensures KindCount(ts, k) == |OfKind(ts, k)|
  {
    if ts != [] {
      var front, last := ts[..|ts| - 1], ts[|ts| - 1];
      assert ts == front + [last];
      KindCountMeans(front, k);
      OfKindSnoc(front, last, k);
      KindCountSnoc(front, last, k);
    }
  }

  // ----- the result does not depend on the order of the log

  lemma SameTensionsSameGraph(ts: seq<Link>, ts': seq<Link>, a: Path, b: Path)
    requires forall t :: t in ts <==> t in ts'
    requires Connected(ts, a, b)
    ensures Connected(ts', a, b)
  {
    var p :| IsPath(ts, p) && p[0] == a && p[|p| - 1] == b;
    forall i | 0 <= i < |p| - 1 ensures Adjacent(ts', p[i], p[i + 1]) {
      assert Adjacent(ts, p[i], p[i + 1]);
      var t: Link :| t in ts && Joins(t, p[i], p[i + 1]);
      assert t in ts';
    }
    assert IsPath(ts', p);
  }

  lemma {:induction false} InsideMultiset(ts: seq<Link>, docs: set<Path>, t: Link)
    ensures multiset(Inside(ts, docs))[t] ==
            if t.sourceA.value in docs && t.sourceB.value in docs then multiset(ts)[t] else 0
  {
    if ts != [] {
      InsideMultiset(ts[..|ts| - 1], docs, t);
      assert ts == ts[..|ts| - 1] + [ts[|ts| - 1]];
    }
  }

  lemma SameInside(ts: seq<Link>, ts': seq<Link>, docs: set<Path>)
    requires multiset(ts) == multiset(ts')
    ensures multiset(Inside(ts, docs)) == multiset(Inside(ts', docs))
  {
    forall t: Link ensures multiset(Inside(ts, docs))[t] == multiset(Inside(ts', docs))[t] {
      InsideMultiset(ts, docs, t);
      InsideMultiset(ts', docs, t);
    }
  }

  lemma KindCountSnoc(ts: seq<Link>, t: Link, k: Kind)
    ensures KindCount(ts + [t], k) == KindCount(ts, k) + if t.kind == k then 1 else 0
  {
    assert (ts + [t])[..|ts|] == ts;
  }

  lemma {:induction false} KindCountRemove(ts: seq<Link>, i: nat, k: Kind)
    requires i < |ts|
    ensures KindCount(ts, k) == KindCount(ts[..i] + ts[i + 1..], k) + if ts[i].kind == k then 1 else 0
  {
    var front, last := ts[..|ts| - 1], ts[|ts| - 1];
    assert ts == front + [last];
    KindCountSnoc(front, last, k);
    if i == |front| {
      assert ts[..i] + ts[i + 1..] == front;
    } else {
      KindCountRemove(front, i, k);
      KindCountSnoc(front[..i] + front[i + 1..], last, k);
      assert ts[..i] == front[..i] && ts[i + 1..] == front[i + 1..] + [last];
      assert ts[..i] + ts[i + 1..] == front[..i] + front[i + 1..] + [last];
    }
  }

  lemma RemoveAt(ts: seq<Link>, i: nat)
    requires i < |ts|
    ensures multiset(ts[..i] + ts[i + 1..]) == multiset(ts) - multiset{ts[i]}
  {
    assert ts == ts[..i] + [ts[i]] + ts[i + 1..];
  }

  lemma {:induction false} SameKindCount(ts: seq<Link>, ts': seq<Link>, k: Kind)
    requires multiset(ts) == multiset(ts')
    ensures KindCount(ts, k) == KindCount(ts', k)
  {
    SameElements(ts, ts');
    if ts != [] {
      var n := |ts| - 1;
      assert ts[n] in ts';
      var i :| 0 <= i < |ts'| && ts'[i] == ts[n];
      var rest := ts'[..i] + ts'[i + 1..];
      RemoveAt(ts', i);
      RemoveAt(ts, n);
      assert ts[..n] + ts[n + 1..] == ts[..n];
      SameKindCount(ts[..n], rest, k);
      KindCountRemove(ts', i, k);
    }
  }

  lemma SummaryUnique(c: Cluster, c': Cluster, ts: seq<Link>, ts': seq<Link>, now: int)
    requires multiset(ts) == multiset(ts')
    requires Summarizes(c, ts, now) && Summarizes(c', ts', now)
    ensures c.tensionCount == c'.tensionCount && c.kinds == c'.kinds && c.oldest == c'.oldest && c.newest == c'.newest
  {
    SameElements(ts, ts');
    forall k | k in KINDS ensures c.kinds[k] == c'.kinds[k] {
      SameKindCount(ts, ts', k);
    }
  }

  lemma SameDocumentsSameCluster(ts: seq<Link>, ts': seq<Link>, now: int, idOf: seq<Path> -> int, c: Cluster, c': Cluster)
    requires multiset(ts) == multiset(ts')
    requires IsClusterOf(ts, now, idOf, c) && IsClusterOf(ts', now, idOf, c')
    requires forall d :: d in c.documents <==> d in c'.documents
    ensures c == c'
  {
    SameEntriesSameMultiset(c.documents, c'.documents);
    SortedUnique(c.documents, c'.documents, Leq);
    SameInside(ts, ts', ToSet(c.documents));
    SummaryUnique(c, c', Inside(ts, ToSet(c.documents)), Inside(ts', ToSet(c.documents)), now);
  }

  lemma ClustersCarryOver(ts: seq<Link>, ts': seq<Link>, now: int, idOf: seq<Path> -> int,
                          out: seq<Cluster>, out': seq<Cluster>, c: Cluster)
    requires multiset(ts) == multiset(ts')
    requires IsClustering(ts, now, idOf, out) && IsClustering(ts', now, idOf, out')
    requires c in out
    ensures c in out'
  {
    SameElements(ts, ts');
    assert Endpoints(ts) == Endpoints(ts');
    var d := c.documents[0];
    ConnectedReflexive(ts, d);
    assert d in c.documents && d in Endpoints(ts);
    var c' :| c' in out' && d in c'.documents;
    forall x ensures x in c.documents <==> x in c'.documents {
      if Connected(ts, d, x) {
        SameTensionsSameGraph(ts, ts', d, x);
      }
      if Connected(ts', d, x) {
        SameTensionsSameGraph(ts', ts, d, x);
      }
    }
    SameDocumentsSameCluster(ts, ts', now, idOf, c, c');
  }

  lemma ClustersDistinct(ts: seq<Link>, now: int, idOf: seq<Path> -> int, out: seq<Cluster>)
    requires IsClustering(ts, now, idOf, out)
    ensures Distinct(out)
  {
    forall i, j | 0 <= i < j < |out| ensures out[i] != out[j] {
      assert out[i] in out;
      var d := out[i].documents[0];
      assert d in out[i].documents;
      assert d !in out[j].documents;
    }
  }

  /** Given ids that tell memberships apart, any order of the same tensions gives the same answer. */
  lemma OrderIndependent(ts: seq<Link>, ts': seq<Link>, now: int, idOf: seq<Path> -> int,
                         out: seq<Cluster>, out': seq<Cluster>)
    requires multiset(ts) == multiset(ts')
    requires forall a, b :: idOf(a) == idOf(b) ==> a == b
    requires IsClustering(ts, now, idOf, out) && IsClustering(ts', now, idOf, out')
    ensures out == out'
  {
    ClustersDistinct(ts, now, idOf, out);
    ClustersDistinct(ts', now, idOf, out');
    forall c ensures c in out <==> c in out' {
      if c in out {
        ClustersCarryOver(ts, ts', now, idOf, out, out', c);
      }
      if c in out' {
        ClustersCarryOver(ts', ts, now, idOf, out', out, c);
      }
    }
    SameEntriesSameMultiset(out, out');
    forall c, e | c in out && e in out && LargestFirst(c, e) && LargestFirst(e, c) ensures c == e {
      SameDocumentsSameCluster(ts, ts, now, idOf, c, e);
    }
    SortedUnique(out, out', LargestFirst);
  }

  // ----- every tension is counted once

  /** What the reported tension counts add up to. */
  ghost function TotalCount(out: seq<Cluster>): nat {
    if out == [] then 0 else TotalCount(out[..|out| - 1]) + out[|out| - 1].tensionCount
  }

  ghost function InsideTotal(ts: seq<Link>, out: seq<Cluster>): nat {
    if out == [] then 0
    else InsideTotal(ts, out[..|out| - 1]) + |Inside(ts, ToSet(out[|out| - 1].documents))|
  }

  lemma {:induction false} ReportedIsInside(ts: seq<Link>, out: seq<Cluster>)
    requires forall c :: c in out ==> c.tensionCount == |Inside(ts, ToSet(c.documents))|
    ensures TotalCount(out) == InsideTotal(ts, out)
  {
    if out != [] {
      ReportedIsInside(ts, out[..|out| - 1]);
    }
  }

  ghost function Homes(t: Link, out: seq<Cluster>): nat {
    if out == [] then 0
    else
      var docs := out[|out| - 1].documents;
      Homes(t, out[..|out| - 1]) + if t.sourceA.value in docs && t.sourceB.value in docs then 1 else 0
  }

  lemma {:induction false} InsideTotalStep(ts: seq<Link>, t: Link, out: seq<Cluster>)
    ensures InsideTotal(ts + [t], out) == InsideTotal(ts, out) + Homes(t, out)
  {
    if out != [] {
      InsideTotalStep(ts, t, out[..|out| - 1]);
      assert (ts + [t])[..|ts|] == ts;
    }
  }

  lemma {:induction false} InsideTotalEmpty(out: seq<Cluster>)
    ensures InsideTotal([], out) == 0
  {
    if out != [] {
      InsideTotalEmpty(out[..|out| - 1]);
    }
  }

  lemma LastSharesNothing(out: seq<Cluster>, d: Path)
    requires out != [] && NoSharedDocuments(out)
    ensures NoSharedDocuments(out[..|out| - 1])
    ensures d in out[|out| - 1].documents ==> forall c :: c in out[..|out| - 1] ==> d !in c.documents
  {
    var front, j := out[..|out| - 1], |out| - 1;
    forall c | c in front ensures !(d in out[j].documents && d in c.documents) {
      var i :| 0 <= i < |front| && front[i] == c;
      assert !(d in out[i].documents && d in out[j].documents);
    }
  }

  lemma {:induction false} HomesUnique(t: Link, out: seq<Cluster>)
    requires NoSharedDocuments(out)
    requires forall c :: c in out ==> (t.sourceA.value in c.documents <==> t.sourceB.value in c.documents)
    ensures Homes(t, out) == if exists c :: c in out && t.sourceA.value in c.documents then 1 else 0
  {
    if out != [] {
      var front, last := out[..|out| - 1], out[|out| - 1];
      LastSharesNothing(out, t.sourceA.value);
      HomesUnique(t, front);
      assert out == front + [last];
      assert last in out;
    }
  }

  lemma ComponentTakesBoth(ts: seq<Link>, docs: seq<Path>, t: Link)
    requires IsComponent(ts, docs) && t in ts
    ensures t.sourceA.value in docs <==> t.sourceB.value in docs
  {
    EdgeConnects(ts, t);
  }

  lemma EndpointsContain(ts: seq<Link>, t: Link)
    requires t in ts
    ensures t.sourceA.value in Endpoints(ts) && t.sourceB.value in Endpoints(ts)
  {
  }

  lemma OneHome(ts: seq<Link>, out: seq<Cluster>, t: Link)
    requires forall c {:trigger c.documents} :: c in out ==> IsComponent(ts, c.documents)
    requires exists c :: c in out && t.sourceA.value in c.documents
    requires NoSharedDocuments(out) && t in ts
    ensures Homes(t, out) == 1
  {
    forall c | c in out ensures t.sourceA.value in c.documents <==> t.sourceB.value in c.documents {
      ComponentTakesBoth(ts, c.documents, t);
    }
    HomesUnique(t, out);
  }

  lemma ClustersAreComponents(ts: seq<Link>, now: int, idOf: seq<Path> -> int, out: seq<Cluster>)
    requires IsClustering(ts, now, idOf, out)
    ensures forall c {:trigger c.documents} :: c in out ==> IsComponent(ts, c.documents)
    ensures NoSharedDocuments(out)
  {
  }

  lemma EndpointsAreCovered(ts: seq<Link>, now: int, idOf: seq<Path> -> int, out: seq<Cluster>, d: Path)
    requires IsClustering(ts, now, idOf, out) && d in Endpoints(ts)
    ensures exists c :: c in out && d in c.documents
  {
  }

  lemma TensionHasOneHome(ts: seq<Link>, now: int, idOf: seq<Path> -> int, out: seq<Cluster>, t: Link)
    requires IsClustering(ts, now, idOf, out) && t in ts
    ensures Homes(t, out) == 1
  {
    EndpointsContain(ts, t);
    EndpointsAreCovered(ts, now, idOf, out, t.sourceA.value);
    ClustersAreComponents(ts, now, idOf, out);
    OneHome(ts, out, t);
  }

  lemma {:induction false} CountedOnce(ts: seq<Link>, n: nat, out: seq<Cluster>)
    requires n <= |ts|
    requires forall t :: t in ts ==> Homes(t, out) == 1
    ensures InsideTotal(ts[..n], out) == n
  {
    if n == 0 {
      InsideTotalEmpty(out);
      assert ts[..0] == [];
    } else {
      CountedOnce(ts, n - 1, out);
      InsideTotalStep(ts[..n - 1], ts[n - 1], out);
      assert ts[..n] == ts[..n - 1] + [ts[n - 1]];
    }
  }

  /** The tension counts of the clusters add up to the number of live contested tensions. */
  lemma EveryTensionCountedOnce(ts: seq<Link>, now: int, idOf: seq<Path> -> int, out: seq<Cluster>)
    requires IsClustering(ts, now, idOf, out)
    ensures TotalCount(out) == |ts|
  {
    forall t | t in ts ensures Homes(t, out) == 1 {
      TensionHasOneHome(ts, now, idOf, out, t);
    }
    CountedOnce(ts, |ts|, out);
    assert ts[..|ts|] == ts;
    ReportedIsInside(ts, out);
  }

  // ----- the computation

  ghost function Scoped(tensions: seq<Tension>): seq<Link> {
    if tensions == [] then []
    else
      var front, t := Scoped(tensions[..|tensions| - 1]), tensions[|tensions| - 1];
      if InScope(t) then front + [t] else front
  }

  /** The tensions that count: open, not accepted, between two documents. */
  lemma {:induction false} ScopedMeans(tensions: seq<Tension>, t: Tension)
    ensures multiset(AsTensions(Scoped(tensions)))[t] ==
      if !t.resolved && !t.accepted && t.sourceA.Some? && t.sourceB.Some? && t.sourceA != t.sourceB then multiset(tensions)[t] else 0
  {
    if tensions != [] {
      var front, last := tensions[..|tensions| - 1], tensions[|tensions| - 1];
      ScopedMeans(front, t);
      assert tensions == front + [last];
      if InScope(last) {
        assert AsTensions(Scoped(tensions)) == AsTensions(Scoped(front)) + [last];
      }
    }
  }

  ghost function AsTensions(ts: seq<Link>): (r: seq<Tension>)
    ensures |r| == |ts| && forall i :: 0 <= i < |ts| ==> r[i] == ts[i]
  {
    ts
  }

  method FilterScoped(tensions: seq<Tension>) returns (scoped: seq<Link>)
    ensures scoped == Scoped(tensions)
  {
    scoped := [];
    for n := 0 to |tensions|
      invariant scoped == Scoped(tensions[..n])
    {
      assert tensions[..n + 1][..n] == tensions[..n];
      if InScope(tensions[n]) {
        scoped := scoped + [tensions[n]];
      }
    }
    assert tensions[..|tensions|] == tensions;
  }

  ghost function Members(root: Links, r: Path): set<Path> {
    set x | x in root && root[x] == r
  }

  /** `r` is the root of some document outside `todo`. */
  ghost predicate IsRoot(root: Links, todo: set<Path>, r: Path) {
    exists x :: x in root && x !in todo && root[x] == r
  }

  /** `docsByRoot` groups the documents seen so far, those outside `todo`, under their roots. */
  ghost predicate Groups(root: Links, todo: set<Path>, docsByRoot: map<Path, set<Path>>) {
    && todo <= root.Keys
    && (forall r :: r in docsByRoot <==> IsRoot(root, todo, r))
    && (forall r :: r in docsByRoot ==> docsByRoot[r] == Members(root, r) - todo)
  }

  lemma GroupOne(root: Links, todo: set<Path>, docsByRoot: map<Path, set<Path>>, doc: Path)
    requires Groups(root, todo, docsByRoot) && doc in todo
    ensures
      var r := root[doc];
      var others := if r in docsByRoot then docsByRoot[r] else {};
      Groups(root, todo - {doc}, docsByRoot[r := others + {doc}])
  {
    var r := root[doc];
    var others := if r in docsByRoot then docsByRoot[r] else {};
    if r !in docsByRoot {
      forall x | x in Members(root, r) ensures x in todo {}
    }
    assert others == Members(root, r) - todo;
    assert others + {doc} == Members(root, r) - (todo - {doc});
    forall q | q in docsByRoot && q != r ensures docsByRoot[q] == Members(root, q) - (todo - {doc}) {
      assert doc !in Members(root, q);
    }
    var docsByRoot' := docsByRoot[r := others + {doc}];
    forall q ensures q in docsByRoot' <==> IsRoot(root, todo - {doc}, q) {
      if q == r {
        assert doc in root && doc !in todo - {doc};
      } else if q in docsByRoot {
        var x :| x in root && x !in todo && root[x] == q;
        assert x !in todo - {doc};
      }
    }
  }

  /** Groups every document under its root. */
  method GroupDocuments(forest: Forest) returns (docsByRoot: map<Path, set<Path>>)
    requires forest.Valid()
    modifies forest
    ensures forest.Valid() && forest.root == old(forest.root)
    ensures Groups(forest.root, {}, docsByRoot)
  {
    docsByRoot := map[];
    ghost var root := forest.root;
    var todo: set<Path> := forest.parent.Keys;
    while todo != {}
      invariant forest.Valid() && forest.root == root
      invariant Groups(root, todo, docsByRoot)
      decreases |todo|
    {
      var doc := AnyOf(todo);
      GroupOne(root, todo, docsByRoot, doc);
      todo := todo - {doc};
      var r := forest.Find(doc);
      if r !in docsByRoot {
        docsByRoot := docsByRoot[r := {}];
      }
      docsByRoot := docsByRoot[r := docsByRoot[r] + {doc}];
    }
  }

  lemma InsideGrows(ts: seq<Link>, n: nat, docs: set<Path>)
    requires n < |ts|
    ensures Inside(ts[..n + 1], docs) ==
            if ts[n].sourceA.value in docs && ts[n].sourceB.value in docs
            then Inside(ts[..n], docs) + [ts[n]] else Inside(ts[..n], docs)
  {
    assert ts[..n + 1][..n] == ts[..n];
  }

  function Get(m: map<Path, seq<Link>>, r: Path): seq<Link> {
    if r in m then m[r] else []
  }

  /** Groups every tension under the root both its endpoints share. */
  method GroupTensions(forest: Forest, ts: seq<Link>) returns (tensionsByRoot: map<Path, seq<Link>>)
    requires forest.Valid() && Endpoints(ts) <= forest.root.Keys
    modifies forest
    ensures forest.Valid() && forest.root == old(forest.root)
    ensures forall r :: Get(tensionsByRoot, r) == Inside(ts, Members(forest.root, r))
  {
    tensionsByRoot := map[];
    ghost var root := forest.root;
    for n := 0 to |ts|
      invariant forest.Valid() && forest.root == root
      invariant forall r :: Get(tensionsByRoot, r) == Inside(ts[..n], Members(root, r))
    {
      var t := ts[n];
      assert t in ts;
      var r := forest.Find(t.sourceA.value);
      var other := forest.Find(t.sourceB.value);
      ghost var before := tensionsByRoot;
      if r == other {
        if r !in tensionsByRoot {
          tensionsByRoot := tensionsByRoot[r := []];
        }
        tensionsByRoot := tensionsByRoot[r := tensionsByRoot[r] + [t]];
      }
      forall q ensures Get(tensionsByRoot, q) == Inside(ts[..n + 1], Members(root, q)) {
        InsideGrows(ts, n, Members(root, q));
        assert Get(before, q) == Inside(ts[..n], Members(root, q));
      }
    }
    assert ts[..|ts|] == ts;
  }

  lemma KindsStep(ts: seq<Link>, t: Link, kinds: map<Kind, nat>)
    requires kinds.Keys == KINDS && forall k :: k in KINDS ==> kinds[k] == KindCount(ts, k)
    ensures t.kind in kinds
    ensures forall k :: k in KINDS ==> kinds[t.kind := kinds[t.kind] + 1][k] == KindCount(ts + [t], k)
  {
    AllKindsListed(t.kind);
    assert (ts + [t])[..|ts|] == ts;
  }

  lemma OldestStep(ts: seq<Link>, t: Link, now: int, oldest: int)
    requires IsOldest(ts, now, oldest)
    ensures
      var age := AgeInDays(t.dated, now);
      IsOldest(ts + [t], now, if age > oldest then age else oldest)
  {
    assert t in ts + [t];
    forall u | u in ts ensures u in ts + [t] {
    }
  }

  lemma NewestStep(ts: seq<Link>, t: Link, now: int, least: Option<int>)
    requires if ts == [] then least.None? else least.Some? && IsNewest(ts, now, least.value)
    ensures
      var age := AgeInDays(t.dated, now);
      IsNewest(ts + [t], now, if least.None? || age < least.value then age else least.value)
  {
    assert t in ts + [t];
    forall u | u in ts ensures u in ts + [t] {
    }
  }

  /** The summary of the first `n` tensions. */
  ghost predicate SummarySoFar(ts: seq<Link>, n: nat, now: int, kinds: map<Kind, nat>, oldest: int, least: Option<int>) {
    n <= |ts| && KindsCounted(ts[..n], kinds) && IsOldest(ts[..n], now, oldest) && IsLeast(ts[..n], now, least)
  }

  ghost predicate KindsCounted(ts: seq<Link>, kinds: map<Kind, nat>) {
    kinds.Keys == KINDS && forall k :: k in KINDS ==> kinds[k] == KindCount(ts, k)
  }

  ghost predicate IsLeast(ts: seq<Link>, now: int, least: Option<int>) {
    if ts == [] then least.None? else least.Some? && IsNewest(ts, now, least.value)
  }

  lemma SummaryStep(ts: seq<Link>, n: nat, now: int, kinds: map<Kind, nat>, oldest: int, least: Option<int>)
    requires n < |ts| && SummarySoFar(ts, n, now, kinds, oldest, least)
    ensures ts[n].kind in kinds
    ensures
      var (t, age) := (ts[n], AgeInDays(ts[n].dated, now));
      SummarySoFar(ts, n + 1, now, kinds[t.kind := kinds[t.kind] + 1], if age > oldest then age else oldest,
                   if least.None? || age < least.value then Some(age) else least)
  {
    PrefixStep(ts, n);
    KindsStep(ts[..n], ts[n], kinds);
    OldestStep(ts[..n], ts[n], now, oldest);
    NewestStep(ts[..n], ts[n], now, least);
  }

  /** The kind counts and the age range of a cluster's tensions. */
  method Summarize(ts: seq<Link>, now: int) returns (kinds: map<Kind, nat>, oldest: int, newest: int)
    ensures KindsCounted(ts, kinds)
    ensures IsOldest(ts, now, oldest) && IsNewest(ts, now, newest)
  {
    kinds := map k | k in KINDS :: 0;
    oldest := 0;
    var least: Option<int> := None;
    for n := 0 to |ts|
      invariant SummarySoFar(ts, n, now, kinds, oldest, least)
    {
      var t := ts[n];
      SummaryStep(ts, n, now, kinds, oldest, least);
      kinds := kinds[t.kind := kinds[t.kind] + 1];
      var age := AgeInDays(t.dated, now);
      if age > oldest {
        oldest := age;
      }
      if least.None? || age < least.value {
        least := Some(age);
      }
    }
    assert ts[..|ts|] == ts;
    newest := if least.None? then 0 else least.value;
  }

  lemma LeqIsTotal()
    ensures TotalPreorder(Leq)
  {
  }

  lemma LargestFirstIsTotal()
    ensures TotalPreorder(LargestFirst)
  {
  }

  method SortedMembers(docs: set<Path>) returns (members: seq<Path>)
    ensures SortedBy(members, Leq) && Distinct(members) && ToSet(members) == docs
  {
    var listed: seq<Path> := [];
    var todo := docs;
    while todo != {}
      invariant todo <= docs && Distinct(listed) && ToSet(listed) == docs - todo
      decreases |todo|
    {
      var x := AnyOf(todo);
      listed := listed + [x];
      todo := todo - {x};
    }
    members := SortBy(listed, Leq);
    LeqIsTotal();
    SortBySorted(listed, Leq);
    SameElements(members, listed);
    DistinctByCount(listed, members);
  }

  /** The cluster of one root. */
  method BuildCluster(ts: seq<Link>, now: int, idOf: seq<Path> -> int, docs: set<Path>, inside: seq<Link>)
    returns (c: Cluster)
    requires inside == Inside(ts, docs)
    ensures ToSet(c.documents) == docs
    ensures SortedBy(c.documents, Leq) && Distinct(c.documents)
    ensures c.size == |c.documents| && c.id == idOf(c.documents)
    ensures Summarizes(c, Inside(ts, ToSet(c.documents)), now)
  {
    var members := SortedMembers(docs);
    var kinds, oldest, newest := Summarize(inside, now);
    c := Cluster(idOf(members), |members|, members, |inside|, kinds, oldest, newest);
  }

  lemma MembersAreComponent(ts: seq<Link>, root: Links, r: Path, docs: seq<Path>)
    requires RootsAreComponents(ts, root) && ToSet(docs) == Members(root, r)
    requires IsRoot(root, {}, r)
    ensures IsComponent(ts, docs)
  {
    var x :| x in root && root[x] == r;
    assert x in ToSet(docs);
    forall d, y | d in docs ensures y in docs <==> y in Endpoints(ts) && Connected(ts, d, y) {
      assert d in ToSet(docs) && (y in docs <==> y in ToSet(docs));
    }
  }

  /** The clusters built so far hold the documents of the roots outside `todo`, root by root. */
  ghost predicate Built(root: Links, todo: set<Path>, roots: seq<Path>, built: seq<Cluster>) {
    && |roots| == |built| && Distinct(roots)
    && (forall r :: r in roots <==> IsRoot(root, {}, r) && r !in todo)
    && (forall i :: 0 <= i < |built| ==> ToSet(built[i].documents) == Members(root, roots[i]))
  }

  lemma BuiltCovers(root: Links, roots: seq<Path>, built: seq<Cluster>, d: Path)
    requires Built(root, {}, roots, built) && d in root
    ensures exists c :: c in built && d in c.documents
  {
    assert IsRoot(root, {}, root[d]);
    var i :| 0 <= i < |roots| && roots[i] == root[d];
    assert d in ToSet(built[i].documents);
    assert built[i] in built;
  }

  lemma BuiltSharesNothing(root: Links, roots: seq<Path>, built: seq<Cluster>, i: nat, j: nat, d: Path)
    requires Built(root, {}, roots, built) && i < |built| && j < |built|
    requires d in built[i].documents && d in built[j].documents
    ensures i == j
  {
    assert d in ToSet(built[i].documents) && d in ToSet(built[j].documents);
    assert roots[i] == roots[j];
  }

  lemma BuiltDistinct(root: Links, roots: seq<Path>, built: seq<Cluster>)
    requires Built(root, {}, roots, built)
    requires forall c :: c in built ==> c.documents != []
    ensures Distinct(built)
  {
    forall i, j | 0 <= i < j < |built| ensures built[i] != built[j] {
      assert built[i] in built;
      var d := built[i].documents[0];
      if d in built[j].documents {
        BuiltSharesNothing(root, roots, built, i, j, d);
      }
    }
  }

  lemma ReorderedSharesNothing(root: Links, roots: seq<Path>, built: seq<Cluster>, out: seq<Cluster>)
    requires Built(root, {}, roots, built) && multiset(built) == multiset(out)
    requires Distinct(built)
    ensures NoSharedDocuments(out)
  {
    SameElements(out, built);
    DistinctByCount(built, out);
    forall k, l, d | 0 <= k < l < |out| && d in out[k].documents && d in out[l].documents ensures false {
      assert out[k] in built && out[l] in built;
      var i :| 0 <= i < |built| && built[i] == out[k];
      var j :| 0 <= j < |built| && built[j] == out[l];
      BuiltSharesNothing(root, roots, built, i, j, d);
    }
  }

  lemma BuiltIsClustering(ts: seq<Link>, now: int, idOf: seq<Path> -> int, root: Links, roots: seq<Path>,
                          built: seq<Cluster>)
    requires RootsAreComponents(ts, root) && Built(root, {}, roots, built)
    requires forall c :: c in built ==> IsClusterOf(ts, now, idOf, c)
    ensures IsClustering(ts, now, idOf, SortBy(built, LargestFirst))
  {
    var out := SortBy(built, LargestFirst);
    LargestFirstIsTotal();
    SortBySorted(built, LargestFirst);
    SameElements(out, built);
    BuiltDistinct(root, roots, built);
    ReorderedSharesNothing(root, roots, built, out);
    forall d | d in Endpoints(ts) ensures exists c :: c in out && d in c.documents {
      BuiltCovers(root, roots, built, d);
      var c :| c in built && d in c.documents;
    }
  }

  /** Unites the endpoints of every tension. */
  method UnionAll(ts: seq<Link>) returns (forest: Forest)
    ensures forest.Valid() && fresh(forest)
    ensures RootsAreComponents(ts, forest.root)
  {
    forest := new Forest();
    assert RootsSoFar(ts, 0, forest.root);
    for n := 0 to |ts|
      invariant forest.Valid() && fresh(forest)
      invariant RootsSoFar(ts, n, forest.root)
    {
      RootsSoFarStep(ts, n, forest.root);
      forest.Union(ts[n].sourceA.value, ts[n].sourceB.value);
    }
    assert ts[..|ts|] == ts;
  }

  ghost predicate RootsSoFar(ts: seq<Link>, n: nat, root: Links) {
    n <= |ts| && RootsAreComponents(ts[..n], root) && RootIsMember(root)
  }

  lemma RootsSoFarStep(ts: seq<Link>, n: nat, root: Links)
    requires n < |ts| && RootsSoFar(ts, n, root)
    ensures RootsSoFar(ts, n + 1, Merged(root, ts[n].sourceA.value, ts[n].sourceB.value))
  {
    UnionStep(ts[..n], ts[n], root);
    MergedIsMember(root, ts[n].sourceA.value, ts[n].sourceB.value);
    assert ts[..n + 1] == ts[..n] + [ts[n]];
  }

  lemma MergedIsMember(root: Links, a: Path, b: Path)
    requires RootIsMember(root)
    ensures RootIsMember(Merged(root, a, b))
  {
  }

  /** One cluster per root. */
  method BuildAll(ts: seq<Link>, now: int, idOf: seq<Path> -> int, docsByRoot: map<Path, set<Path>>,
                  tensionsByRoot: map<Path, seq<Link>>, ghost root: Links)
    returns (built: seq<Cluster>, ghost roots: seq<Path>)
    requires RootsAreComponents(ts, root) && Groups(root, {}, docsByRoot)
    requires forall r :: Get(tensionsByRoot, r) == Inside(ts, Members(root, r))
    ensures Built(root, {}, roots, built)
    ensures forall c :: c in built ==> IsClusterOf(ts, now, idOf, c)
  {
    built, roots := [], [];
    assert forall r :: r in docsByRoot <==> IsRoot(root, {}, r);
    var todo := docsByRoot.Keys;
    while todo != {}
      invariant todo <= docsByRoot.Keys
      invariant Built(root, todo, roots, built)
      invariant forall c :: c in built ==> IsClusterOf(ts, now, idOf, c)
      decreases |todo|
    {
      var r := AnyOf(todo);
      todo := todo - {r};
      var inside := if r in tensionsByRoot then tensionsByRoot[r] else [];
      assert inside == Get(tensionsByRoot, r);
      assert docsByRoot[r] == Members(root, r);
      var c := BuildCluster(ts, now, idOf, docsByRoot[r], inside);
      MembersAreComponent(ts, root, r, c.documents);
      built := built + [c];
      roots := roots + [r];
    }
  }

  /** The clusters of a tension log: one per connected component, largest first. */
  method ComputeTensionClusters(tensions: seq<Tension>, now: int, idOf: seq<Path> -> int)
    returns (clusters: seq<Cluster>)
    ensures IsClustering(Scoped(tensions), now, idOf, clusters)
  {
    var scoped := FilterScoped(tensions);
    var forest := UnionAll(scoped);
    var docsByRoot := GroupDocuments(forest);
    var tensionsByRoot := GroupTensions(forest, scoped);
    var built;
    ghost var roots;
    built, roots := BuildAll(scoped, now, idOf, docsByRoot, tensionsByRoot, forest.root);
    BuiltIsClustering(scoped, now, idOf, forest.root, roots, built);
    clusters := SortBy(built, LargestFirst);
  }
}

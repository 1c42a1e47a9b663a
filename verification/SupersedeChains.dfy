/** `superseded_by` pointers between documents: the loop guard on edits, and the lint findings. */
module SupersedeChains {
  import opened Base
  import opened Documents
  import opened Sorting
  import opened Pointers

  type Name = int

  /** A raw pointer as link resolution sees it from one document: the paths it may mean, most literal
      first, and, for a bare name only, the basename to fall back to. */
  datatype Link = Link(candidates: seq<Path>, bare: Option<Name>)

  /** One document's pointer; None when it has none or an edit clears it. */
  datatype Write = Write(path: Path, pointer: Option<Link>)

  // ----- specification: which graph a list of writes amounts to

  ghost function PathsOf(writes: seq<Write>): (s: set<Path>)
    ensures forall p :: p in s <==> exists i :: 0 <= i < |writes| && writes[i].path == p
  {
    set i | 0 <= i < |writes| :: writes[i].path
  }

  ghost predicate OnlyBearer(paths: set<Path>, baseOf: Path -> Name, name: Name, p: Path) {
    p in paths && baseOf(p) == name && forall q :: q in paths && baseOf(q) == name ==> q == p
  }

  ghost predicate FirstKnown(paths: set<Path>, candidates: seq<Path>, p: Path) {
    p in paths && exists i :: 0 <= i < |candidates| && candidates[i] == p && forall j :: 0 <= j < i ==> candidates[j] !in paths
  }

  /** `link` resolves to `p`: its first candidate that exists, or else the only bearer of its bare name. */
  ghost predicate ResolvesTo(link: Link, paths: set<Path>, baseOf: Path -> Name, p: Path) {
    || FirstKnown(paths, link.candidates, p)
    || ((forall c :: c in link.candidates ==> c !in paths) && link.bare.Some? && OnlyBearer(paths, baseOf, link.bare.value, p))
  }

  ghost function LastPointer(writes: seq<Write>, p: Path): Option<Link> {
    if writes == [] then None
    else if writes[|writes| - 1].path == p then writes[|writes| - 1].pointer
    else LastPointer(writes[..|writes| - 1], p)
  }

  ghost predicate HasEdge(writes: seq<Write>, baseOf: Path -> Name, p: Path, q: Path) {
    PointerResolves(writes, PathsOf(writes), baseOf, p, q)
  }

  /** The pointer `writes` leaves on `p` resolves to `q` among `paths`. */
  ghost predicate PointerResolves(writes: seq<Write>, paths: set<Path>, baseOf: Path -> Name, p: Path, q: Path) {
    LastPointer(writes, p).Some? && ResolvesTo(LastPointer(writes, p).value, paths, baseOf, q)
  }

  ghost predicate PointsTo(g: Graph, p: Path, q: Path) {
    p in g && g[p] == q
  }

  /** `g` is the successor graph of the documents after `writes`. */
  ghost predicate IsGraph(writes: seq<Write>, baseOf: Path -> Name, g: Graph) {
    forall p, q :: PointsTo(g, p, q) <==> HasEdge(writes, baseOf, p, q)
  }

  /** The edited graph has a loop through an edited document. */
  ghost predicate Closes(docs: seq<Write>, edits: seq<Write>, baseOf: Path -> Name) {
    exists g :: IsGraph(docs + edits, baseOf, g) && exists i :: 0 <= i < |edits| && OnLoop(g, edits[i].path)
  }

  lemma GraphUnique(writes: seq<Write>, baseOf: Path -> Name, g: Graph, h: Graph)
    requires IsGraph(writes, baseOf, g) && IsGraph(writes, baseOf, h)
    ensures g == h
  {
    forall p | p in g ensures p in h && h[p] == g[p] {
      assert PointsTo(g, p, g[p]);
      assert PointsTo(h, p, g[p]);
    }
    forall p | p in h ensures p in g {
      assert PointsTo(h, p, h[p]);
      assert PointsTo(g, p, h[p]);
    }
  }

  // ----- resolution

  /** Every basename, with the one path that bears it, or None when several do. */
  ghost predicate IsBasenameIndex(paths: set<Path>, baseOf: Path -> Name, index: map<Name, Option<Path>>) {
    && (forall n :: n in index <==> exists p :: p in paths && baseOf(p) == n)
    && (forall n, p :: n in index && index[n] == Some(p) ==> OnlyBearer(paths, baseOf, n, p))
    && (forall n, p :: n in index && OnlyBearer(paths, baseOf, n, p) ==> index[n] == Some(p))
  }

  method BuildBasenameIndex(paths: set<Path>, baseOf: Path -> Name) returns (index: map<Name, Option<Path>>)
    ensures IsBasenameIndex(paths, baseOf, index)
  {
    index := map[];
    var todo := paths;
    while todo != {}
      invariant todo <= paths && IsBasenameIndex(paths - todo, baseOf, index)
      decreases |todo|
    {
      var p := AnyOf(todo);
      ghost var seen := paths - todo;
      todo := todo - {p};
      assert paths - todo == seen + {p};
      IndexOne(seen, baseOf, index, p);
      var base := baseOf(p);
      if base !in index {
        index := index[base := Some(p)];
      } else {
        index := index[base := None];
      }
    }
    assert paths - {} == paths;
  }

  lemma IndexOne(paths: set<Path>, baseOf: Path -> Name, index: map<Name, Option<Path>>, p: Path)
    requires IsBasenameIndex(paths, baseOf, index) && p !in paths
    ensures
      var base := baseOf(p);
      IsBasenameIndex(paths + {p}, baseOf, index[base := if base in index then None else Some(p)])
  {
    var base := baseOf(p);
    var index' := index[base := if base in index then None else Some(p)];
    forall n ensures n in index' <==> exists q :: q in paths + {p} && baseOf(q) == n {
      if n == base {
        assert p in paths + {p};
      } else if n in index {
        var q :| q in paths && baseOf(q) == n;
        assert q in paths + {p};
      }
    }
    forall n, q | n in index' && index'[n] == Some(q) ensures OnlyBearer(paths + {p}, baseOf, n, q) {
      if n != base {
        assert OnlyBearer(paths, baseOf, n, q);
      }
    }
    forall n, q | n in index' && OnlyBearer(paths + {p}, baseOf, n, q) ensures index'[n] == Some(q) {
      if n == base {
        assert q == p;
        assert forall r :: r in paths ==> baseOf(r) != base;
      } else {
        assert OnlyBearer(paths, baseOf, n, q);
      }
    }
  }

  lemma OnlyFirstKnown(link: Link, paths: set<Path>, baseOf: Path -> Name, i: nat)
    requires i < |link.candidates| && link.candidates[i] in paths
    requires forall j :: 0 <= j < i ==> link.candidates[j] !in paths
    ensures forall p :: ResolvesTo(link, paths, baseOf, p) <==> p == link.candidates[i]
  {
    assert FirstKnown(paths, link.candidates, link.candidates[i]);
    assert link.candidates[i] in link.candidates;
    forall p | FirstKnown(paths, link.candidates, p) ensures p == link.candidates[i] {
      var k :| 0 <= k < |link.candidates| && link.candidates[k] == p && forall j :: 0 <= j < k ==> link.candidates[j] !in paths;
      assert k == i;
    }
  }

  method ResolveLink(link: Link, paths: set<Path>, index: map<Name, Option<Path>>, ghost baseOf: Path -> Name)
    returns (target: Option<Path>)
    requires IsBasenameIndex(paths, baseOf, index)
    ensures forall p {:trigger ResolvesTo(link, paths, baseOf, p)} :: target == Some(p) <==> ResolvesTo(link, paths, baseOf, p)
  {
    for i := 0 to |link.candidates|
      invariant forall j :: 0 <= j < i ==> link.candidates[j] !in paths
    {
      if link.candidates[i] in paths {
        OnlyFirstKnown(link, paths, baseOf, i);
        return Some(link.candidates[i]);
      }
    }
    assert forall p :: !FirstKnown(paths, link.candidates, p);
    assert forall c :: c in link.candidates ==> c !in paths;
    if link.bare.None? {
      assert forall p :: !ResolvesTo(link, paths, baseOf, p);
      return None;
    }
    target := if link.bare.value in index then index[link.bare.value] else None;
    forall p ensures target == Some(p) <==> OnlyBearer(paths, baseOf, link.bare.value, p) {
      if OnlyBearer(paths, baseOf, link.bare.value, p) {
        assert link.bare.value in index;
      }
    }
    forall p ensures target == Some(p) <==> ResolvesTo(link, paths, baseOf, p) {
      assert ResolvesTo(link, paths, baseOf, p) <==> OnlyBearer(paths, baseOf, link.bare.value, p);
    }
  }

  method SupersedeEdges(docs: seq<Write>, edits: seq<Write>, baseOf: Path -> Name) returns (edges: Graph)
    ensures IsGraph(docs + edits, baseOf, edges)
  {
    var writes := docs + edits;
    var paths: set<Path> := {};
    for n := 0 to |writes|
      invariant paths == PathsOf(writes[..n])
    {
      paths := paths + {writes[n].path};
    }
    assert writes[..|writes|] == writes;
    var index := BuildBasenameIndex(paths, baseOf);
    edges := map[];
    for n := 0 to |writes|
      invariant Resolved(writes[..n], paths, baseOf, edges)
    {
      var w := writes[n];
      var target := None;
      if w.pointer.Some? {
        target := ResolveLink(w.pointer.value, paths, index, baseOf);
      }
      PutOne(writes[..n], paths, baseOf, edges, w, target);
      if target.Some? {
        edges := edges[w.path := target.value];
      } else {
        edges := edges - {w.path};
      }
      assert writes[..n + 1] == writes[..n] + [w];
    }
    assert writes[..|writes|] == writes;
  }

  /** `edges` holds the pointers of `writes`, resolved among `paths`. */
  ghost predicate Resolved(writes: seq<Write>, paths: set<Path>, baseOf: Path -> Name, edges: Graph) {
    forall p, q :: PointsTo(edges, p, q) <==> PointerResolves(writes, paths, baseOf, p, q)
  }

  lemma PutOne(writes: seq<Write>, paths: set<Path>, baseOf: Path -> Name, edges: Graph, w: Write, target: Option<Path>)
    requires Resolved(writes, paths, baseOf, edges)
    requires w.pointer.None? ==> target.None?
    requires w.pointer.Some? ==>
      forall p {:trigger ResolvesTo(w.pointer.value, paths, baseOf, p)} ::
        target == Some(p) <==> ResolvesTo(w.pointer.value, paths, baseOf, p)
    ensures Resolved(writes + [w], paths, baseOf, if target.Some? then edges[w.path := target.value] else edges - {w.path})
  {
    assert (writes + [w])[..|writes|] == writes;
    var edges' := if target.Some? then edges[w.path := target.value] else edges - {w.path};
    forall p, q ensures PointsTo(edges', p, q) <==> PointerResolves(writes + [w], paths, baseOf, p, q) {
      if p != w.path {
        assert PointsTo(edges', p, q) <==> PointsTo(edges, p, q);
        assert PointerResolves(writes, paths, baseOf, p, q) <==> PointsTo(edges, p, q);
      }
    }
  }

  // ----- the guard

  /** Would these edits leave an edited document on a loop? */
  method ClosesSupersedeLoop(docs: seq<Write>, edits: seq<Write>, baseOf: Path -> Name) returns (closes: bool)
    ensures closes <==> Closes(docs, edits, baseOf)
    ensures exists g :: IsGraph(docs + edits, baseOf, g)
  {
    var edges := SupersedeEdges(docs, edits, baseOf);
    forall g | IsGraph(docs + edits, baseOf, g) ensures g == edges {
      GraphUnique(docs + edits, baseOf, g, edges);
    }
    for n := 0 to |edits|
      invariant forall i :: 0 <= i < n ==> !OnLoop(edges, edits[i].path)
    {
      var onLoop := WalksBack(edges, edits[n].path);
      if onLoop {
        return true;
      }
    }
    return false;
  }

  /** `trail` lists the documents 1, 2, ... hops from `start`, all new; `at` is the next one, if any. */
  ghost predicate Walked(g: Graph, start: Path, trail: seq<Path>, seen: set<Path>, at: Option<Path>) {
    && at == At(g, start, |trail| + 1)
    && ToSet(trail) == seen && seen <= g.Values
    && (forall i :: 0 <= i < |trail| ==> At(g, start, i + 1) == Some(trail[i]))
    && start !in trail
  }

  lemma WalkedStep(g: Graph, start: Path, trail: seq<Path>, seen: set<Path>, at: Path)
    requires Walked(g, start, trail, seen, Some(at)) && at != start
    ensures Walked(g, start, trail + [at], seen + {at}, if at in g then Some(g[at]) else None)
    ensures at in g.Values
  {
    AtPrefix(g, start, |trail|, |trail| + 1);
    assert ToSet(trail + [at]) == ToSet(trail) + {at};
  }

  /** Does the walk from `start` come back to it? */
  method WalksBack(edges: Graph, start: Path) returns (back: bool)
    ensures back <==> OnLoop(edges, start)
  {
    var seen: set<Path> := {};
    assert At(edges, start, 0) == Some(start);
    var at: Option<Path> := if start in edges then Some(edges[start]) else None;
    ghost var trail: seq<Path> := [];
    while at.Some? && at.value !in seen
      invariant Walked(edges, start, trail, seen, at)
      decreases |edges.Values - seen|
    {
      if at.value == start {
        return true;
      }
      WalkedStep(edges, start, trail, seen, at.value);
      SubsetCardinality(edges.Values - (seen + {at.value}), edges.Values - seen);
      seen := seen + {at.value};
      trail := trail + [at.value];
      at := if at.value in edges then Some(edges[at.value]) else None;
    }
    WalkNeverReturns(edges, start, trail, at);
    return false;
  }

  /** A walk that stops, or runs into a loop that misses its start, never comes back to its start. */
  lemma WalkNeverReturns(g: Graph, start: Path, trail: seq<Path>, at: Option<Path>)
    requires at == At(g, start, |trail| + 1)
    requires at.None? || at.value in trail
    requires forall i :: 0 <= i < |trail| ==> At(g, start, i + 1) == Some(trail[i])
    requires start !in trail
    ensures !OnLoop(g, start)
  {
    forall n: nat | n > 0 ensures At(g, start, n) != Some(start) {
      StaysOnTrail(g, start, trail, at, n);
    }
  }

  lemma {:induction false} StaysOnTrail(g: Graph, start: Path, trail: seq<Path>, at: Option<Path>, n: nat)
    requires at == At(g, start, |trail| + 1)
    requires at.None? || at.value in trail
    requires forall i :: 0 <= i < |trail| ==> At(g, start, i + 1) == Some(trail[i])
    requires n > 0
    ensures At(g, start, n).Some? ==> At(g, start, n).value in trail
  {
    if n <= |trail| {
      assert At(g, start, (n - 1) + 1) == Some(trail[n - 1]);
    } else if n > |trail| + 1 && At(g, start, n).Some? {
      StaysOnTrail(g, start, trail, at, n - 1);
      var q := At(g, start, n - 1).value;
      var i :| 0 <= i < |trail| && trail[i] == q;
      if i + 1 < |trail| {
        assert At(g, start, i + 1 + 1) == Some(trail[i + 1]);
      } else {
        assert At(g, start, |trail| + 1) == at;
      }
    }
  }

  // ----- what the guard is for

  /** A pointer between unedited documents already resolved that way before the edits. */
  lemma OldEdge(docs: seq<Write>, edits: seq<Write>, baseOf: Path -> Name, p: Path, q: Path)
    requires HasEdge(docs + edits, baseOf, p, q)
    requires p !in PathsOf(edits) && q !in PathsOf(edits)
    ensures HasEdge(docs, baseOf, p, q)
  {
    LastPointerUnedited(docs, edits, p);
    assert forall r :: r in PathsOf(docs) ==> r in PathsOf(docs + edits) by {
      forall r | r in PathsOf(docs) ensures r in PathsOf(docs + edits) {
        var i :| 0 <= i < |docs| && docs[i].path == r;
        assert (docs + edits)[i].path == r;
      }
    }
    var link := LastPointer(docs, p).value;
    assert q in PathsOf(docs + edits);
    var i :| 0 <= i < |docs + edits| && (docs + edits)[i].path == q;
    assert forall j :: 0 <= j < |edits| ==> edits[j].path != q;
    assert i < |docs|;
    assert docs[i].path == q;
  }

  lemma {:induction false} LastPointerUnedited(docs: seq<Write>, edits: seq<Write>, p: Path)
    requires p !in PathsOf(edits)
    ensures LastPointer(docs + edits, p) == LastPointer(docs, p)
  {
    if edits == [] {
      assert docs + edits == docs;
    } else {
      var front := edits[..|edits| - 1];
      forall q | q in PathsOf(front) ensures q in PathsOf(edits) {
        var i :| 0 <= i < |front| && front[i].path == q;
        assert edits[i].path == q;
      }
      LastPointerUnedited(docs, front, p);
      assert (docs + edits)[..|docs + edits| - 1] == docs + front;
    }
  }

  lemma {:induction false} OldWalk(docs: seq<Write>, edits: seq<Write>, baseOf: Path -> Name, g: Graph, g': Graph,
                                   p: Path, n: nat)
    requires IsGraph(docs, baseOf, g) && IsGraph(docs + edits, baseOf, g')
    requires At(g', p, n).Some?
    requires forall q :: Reaches(g', p, q) ==> q !in PathsOf(edits)
    ensures At(g, p, n) == At(g', p, n)
  {
    if n > 0 {
      AtPrefix(g', p, n - 1, n);
      OldWalk(docs, edits, baseOf, g, g', p, n - 1);
      var u, v := At(g', p, n - 1).value, At(g', p, n).value;
      assert Reaches(g', p, u) && Reaches(g', p, v);
      assert PointsTo(g', u, v);
      OldEdge(docs, edits, baseOf, u, v);
      assert PointsTo(g, u, v);
    }
  }

  /** A loop that no edited document is on was there before the edits, just as it is. */
  lemma UneditedLoopWasThere(docs: seq<Write>, edits: seq<Write>, baseOf: Path -> Name, g: Graph, g': Graph, p: Path)
    requires IsGraph(docs, baseOf, g) && IsGraph(docs + edits, baseOf, g')
    requires OnLoop(g', p) && forall q :: Reaches(g', p, q) ==> q !in PathsOf(edits)
    ensures OnLoop(g, p) && forall q :: Reaches(g', p, q) <==> Reaches(g, p, q)
  {
    var k: nat :| k > 0 && At(g', p, k) == Some(p);
    forall n: nat ensures At(g, p, n) == At(g', p, n) {
      LoopNeverStops(g', p, k, n);
      OldWalk(docs, edits, baseOf, g, g', p, n);
    }
    assert At(g, p, k) == Some(p);
    forall q ensures Reaches(g', p, q) <==> Reaches(g, p, q) {
      assert Reaches(g', p, q) <==> exists n: nat :: At(g', p, n) == Some(q);
      assert Reaches(g, p, q) <==> exists n: nat :: At(g, p, n) == Some(q);
    }
  }

  /** Edits the guard lets through, shown the whole vault, add no loop: a document on one afterwards was on
      the same one before. */
  lemma GuardedEditAddsNoLoop(docs: seq<Write>, edits: seq<Write>, baseOf: Path -> Name, g: Graph, g': Graph, p: Path)
    requires IsGraph(docs, baseOf, g) && IsGraph(docs + edits, baseOf, g')
    requires !exists i :: 0 <= i < |edits| && OnLoop(g', edits[i].path)
    requires OnLoop(g', p)
    ensures OnLoop(g, p)
    ensures forall q :: Reaches(g', p, q) ==> q !in PathsOf(edits) && Reaches(g, p, q)
  {
    forall q | Reaches(g', p, q) ensures q !in PathsOf(edits) {
      LoopIsMutual(g', p, q);
      assert forall i :: 0 <= i < |edits| ==> edits[i].path != q;
    }
    UneditedLoopWasThere(docs, edits, baseOf, g, g', p);
  }

  // ----- lint findings

  datatype LoadedDoc = LoadedDoc(write: Write, status: Status)

  datatype Finding =
    | LoopFinding(path: Path, loop: seq<Path>)
    | EndFinding(path: Path, heads: seq<Path>, status: Status)

  ghost function Writes(docs: seq<LoadedDoc>): (w: seq<Write>)
    ensures |w| == |docs| && forall i :: 0 <= i < |docs| ==> w[i] == docs[i].write
  {
    seq(|docs|, i requires 0 <= i < |docs| => docs[i].write)
  }

  /** Once round a loop: every document points to the next, the last to the first. */
  ghost predicate IsRound(g: Graph, loop: seq<Path>) {
    && loop != [] && Distinct(loop)
    && (forall i :: 0 <= i < |loop| ==> loop[i] in g)
    && (forall i :: 0 <= i < |loop| - 1 ==> g[loop[i]] == loop[i + 1])
    && g[loop[|loop| - 1]] == loop[0]
  }

  /** The finding for a loop: on its least member, the round from there. */
  ghost predicate IsLoopFinding(g: Graph, path: Path, loop: seq<Path>) {
    && IsRound(g, loop) && loop[0] == path
    && forall q :: q in loop ==> path <= q
  }

  /** The documents nothing points to whose walk ends at `path`. */
  ghost predicate AreHeads(g: Graph, path: Path, heads: seq<Path>) {
    && heads != [] && Distinct(heads)
    && forall h :: h in heads <==> h in g && h !in g.Values && Reaches(g, h, path)
  }

  ghost predicate IsEndFinding(docs: seq<LoadedDoc>, g: Graph, path: Path, heads: seq<Path>, status: Status) {
    && path !in g && AreHeads(g, path, heads) && SortedBy(heads, PathLeq)
    && !status.Canonical?
    && LoadedDoc(Write(path, None), status) in docs
  }

  ghost predicate IsFinding(docs: seq<LoadedDoc>, g: Graph, f: Finding) {
    match f
    case LoopFinding(path, loop) => IsLoopFinding(g, path, loop)
    case EndFinding(path, heads, status) => IsEndFinding(docs, g, path, heads, status)
  }

  predicate PathLeq(a: Path, b: Path) {
    a <= b
  }

  predicate ByPath(a: Finding, b: Finding) {
    a.path <= b.path
  }

  lemma {:induction false} RoundSteps(g: Graph, loop: seq<Path>, n: nat)
    requires IsRound(g, loop) && n < |loop|
    ensures At(g, loop[0], n) == Some(loop[n])
  {
    if n > 0 {
      RoundSteps(g, loop, n - 1);
    }
  }

  /** A round is a whole loop. */
  lemma RoundIsLoop(g: Graph, loop: seq<Path>)
    requires IsRound(g, loop)
    ensures IsLoop(g, loop[0], ToSet(loop))
  {
    RoundSteps(g, loop, |loop| - 1);
    assert At(g, loop[0], |loop|) == Some(loop[0]);
    forall q ensures q in ToSet(loop) <==> Reaches(g, loop[0], q) {
      if q in loop {
        var i :| 0 <= i < |loop| && loop[i] == q;
        RoundSteps(g, loop, i);
      }
      if Reaches(g, loop[0], q) {
        var n: nat :| At(g, loop[0], n) == Some(q);
        ReducesModulo(g, loop[0], |loop|, n);
        var i: nat :| i < |loop| && At(g, loop[0], i) == At(g, loop[0], n);
        RoundSteps(g, loop, i);
      }
    }
  }

  /** Rounds that meet have the same members. */
  lemma RoundsThatMeet(g: Graph, a: seq<Path>, b: seq<Path>, p: Path)
    requires IsRound(g, a) && IsRound(g, b) && p in a && p in b
    ensures forall q :: q in a <==> q in b
  {
    RoundIsLoop(g, a);
    RoundIsLoop(g, b);
    assert p in ToSet(a) && p in ToSet(b);
    LoopFromAnyMember(g, a[0], ToSet(a), p);
    LoopFromAnyMember(g, b[0], ToSet(b), p);
    forall q ensures q in a <==> q in b {
      assert q in ToSet(a) <==> Reaches(g, p, q);
      assert q in ToSet(b) <==> Reaches(g, p, q);
    }
  }

  lemma {:induction false} RoundUnique(g: Graph, a: seq<Path>, b: seq<Path>)
    requires IsRound(g, a) && IsRound(g, b) && a[0] == b[0]
    ensures a == b
  {
    RoundsThatMeet(g, a, b, a[0]);
    assert forall q :: q in ToSet(a) <==> q in ToSet(b);
    assert ToSet(a) == ToSet(b);
    DistinctCardinality(a);
    DistinctCardinality(b);
    forall i: nat | i < |a| ensures a[i] == b[i] {
      RoundSteps(g, a, i);
      RoundSteps(g, b, i);
    }
  }

  /** A walk that stops somewhere stops only there. */
  lemma StopsOnce(g: Graph, p: Path, e: Path, e': Path)
    requires Reaches(g, p, e) && e !in g && Reaches(g, p, e') && e' !in g
    ensures e == e'
  {
    var n: nat :| At(g, p, n) == Some(e);
    var m: nat :| At(g, p, m) == Some(e');
    if m < n {
      AtPrefix(g, p, m, n);
    } else if n < m {
      AtPrefix(g, p, n, m);
    }
  }

  /** A walk into a loop stops nowhere. */
  lemma LoopBoundNeverStops(g: Graph, p: Path, m: Path, e: Path)
    requires Reaches(g, p, m) && OnLoop(g, m) && Reaches(g, p, e)
    ensures e in g
  {
    var i: nat :| At(g, p, i) == Some(m);
    var n: nat :| At(g, p, n) == Some(e);
    var k: nat :| k > 0 && At(g, m, k) == Some(m);
    LoopNeverStops(g, m, k, n + 1);
    AtSplit(g, p, i, n + 1);
    AtPrefix(g, p, n, i + (n + 1));
  }

  /** Follows the pointers from `start` until they end or repeat. */
  method WalkOut(edges: Graph, start: Path) returns (walk: seq<Path>, at: Option<Path>)
    requires start in edges
    ensures IsTrail(edges, walk) && walk[0] == start
    ensures at.Some? ==> walk[|walk| - 1] in edges && edges[walk[|walk| - 1]] == at.value && at.value in walk
    ensures at.None? ==> walk[|walk| - 1] !in edges
  {
    walk := [start];
    at := Some(edges[start]);
    ghost var universe := edges.Keys + edges.Values;
    while at.Some? && at.value !in walk
      invariant IsTrail(edges, walk) && walk[0] == start
      invariant at.Some? ==> walk[|walk| - 1] in edges && edges[walk[|walk| - 1]] == at.value
      invariant at.None? ==> walk[|walk| - 1] !in edges
      invariant forall p :: p in walk ==> p in universe
      decreases |universe| + 1 - |walk|, at.Some?
    {
      TrailExtends(edges, walk);
      TrailFits(edges, walk + [at.value], universe);
      walk := walk + [at.value];
      at := if at.value in edges then Some(edges[at.value]) else None;
    }
  }

  lemma TrailTailIsRound(g: Graph, walk: seq<Path>, seenAt: nat)
    requires IsTrail(g, walk) && seenAt < |walk|
    requires walk[|walk| - 1] in g && g[walk[|walk| - 1]] == walk[seenAt]
    ensures IsRound(g, walk[seenAt..])
  {
    forall i | 0 <= i < |walk| - 1 ensures walk[i] in g && g[walk[i]] == walk[i + 1] {
      assert At(g, walk[0], i) == Some(walk[i]) && At(g, walk[0], i + 1) == Some(walk[i + 1]);
    }
  }

  function Rotate(loop: seq<Path>, pivot: nat): (r: seq<Path>)
    requires pivot < |loop|
    ensures |r| == |loop| && r[0] == loop[pivot]
    ensures forall q :: q in r <==> q in loop
  {
    assert loop == loop[..pivot] + loop[pivot..];
    loop[pivot..] + loop[..pivot]
  }

  lemma RotationIsRound(g: Graph, loop: seq<Path>, pivot: nat)
    requires IsRound(g, loop) && pivot < |loop|
    ensures IsRound(g, Rotate(loop, pivot))
  {
    var r, k := Rotate(loop, pivot), |loop| - pivot;
    forall i | 0 <= i < |r| ensures r[i] in g && g[r[i]] == r[if i + 1 < |r| then i + 1 else 0] {
      if i < k {
        assert r[i] == loop[pivot + i];
      } else {
        assert r[i] == loop[i - k];
      }
    }
  }

  /** A document on a loop is a member of whatever round its walk closes. */
  lemma OnLoopIsMember(g: Graph, start: Path, loop: seq<Path>)
    requires IsRound(g, loop) && OnLoop(g, start) && Reaches(g, start, loop[0])
    ensures start in loop
  {
    RoundIsLoop(g, loop);
    LoopIsMutual(g, start, loop[0]);
    assert start in ToSet(loop);
  }

  ghost predicate LoopsSoFar(g: Graph, done: set<Path>, loops: map<Path, seq<Path>>) {
    && (forall p :: p in loops ==> IsLoopFinding(g, p, loops[p]))
    && (forall s :: s in done && OnLoop(g, s) ==> exists p :: p in loops && s in loops[p])
  }

  lemma LoopsStep(g: Graph, done: set<Path>, loops: map<Path, seq<Path>>, start: Path, loop: seq<Path>)
    requires LoopsSoFar(g, done, loops)
    requires loop != [] && IsLoopFinding(g, loop[0], loop)
    requires OnLoop(g, start) ==> start in loop
    ensures LoopsSoFar(g, done + {start}, loops[loop[0] := loop])
  {
    var loops' := loops[loop[0] := loop];
    if loop[0] in loops {
      RoundUnique(g, loop, loops[loop[0]]);
    }
    forall s | s in done + {start} && OnLoop(g, s) ensures exists p :: p in loops' && s in loops'[p] {
      if s == start {
        assert loop[0] in loops' && start in loops'[loop[0]];
      } else {
        var p :| p in loops && s in loops[p];
        assert p in loops' && s in loops'[p];
      }
    }
  }

  ghost predicate HeadsSoFar(g: Graph, done: set<Path>, headsByEnd: map<Path, seq<Path>>) {
    && done <= g.Keys
    && (forall e :: e in headsByEnd ==>
          && e !in g && headsByEnd[e] != [] && Distinct(headsByEnd[e])
          && forall h :: h in headsByEnd[e] <==> h in done && h !in g.Values && Reaches(g, h, e))
    && (forall e, h :: h in done && h !in g.Values && Reaches(g, h, e) && e !in g ==> e in headsByEnd)
  }

  lemma HeadsStep(g: Graph, done: set<Path>, headsByEnd: map<Path, seq<Path>>, start: Path, end: Path)
    requires HeadsSoFar(g, done, headsByEnd) && start in g && start !in done
    requires start !in g.Values && Reaches(g, start, end) && end !in g
    ensures HeadsSoFar(g, done + {start}, headsByEnd[end := (if end in headsByEnd then headsByEnd[end] else []) + [start]])
  {
    forall e | Reaches(g, start, e) && e !in g ensures e == end {
      StopsOnce(g, start, e, end);
    }
  }

  lemma HeadsSkip(g: Graph, done: set<Path>, headsByEnd: map<Path, seq<Path>>, start: Path)
    requires HeadsSoFar(g, done, headsByEnd) && start in g
    requires start in g.Values || forall e :: Reaches(g, start, e) ==> e in g
    ensures HeadsSoFar(g, done + {start}, headsByEnd)
  {
  }

  method CollectLoopsAndEnds(edges: Graph) returns (loops: map<Path, seq<Path>>, headsByEnd: map<Path, seq<Path>>)
    ensures LoopsSoFar(edges, edges.Keys, loops) && HeadsSoFar(edges, edges.Keys, headsByEnd)
  {
    loops, headsByEnd := map[], map[];
    var successors := edges.Values;
    var todo := edges.Keys;
    while todo != {}
      invariant todo <= edges.Keys
      invariant LoopsSoFar(edges, edges.Keys - todo, loops)
      invariant HeadsSoFar(edges, edges.Keys - todo, headsByEnd)
      decreases |todo|
    {
      var start := AnyOf(todo);
      ghost var done := edges.Keys - todo;
      todo := todo - {start};
      assert edges.Keys - todo == done + {start};
      var walk, at := WalkOut(edges, start);
      ghost var last := |walk| - 1;
      assert At(edges, start, last) == Some(walk[last]);
      if at.Some? {
        var loop := ClosedLoop(edges, walk, at.value);
        assert Reaches(edges, start, loop[0]);
        if OnLoop(edges, start) {
          OnLoopIsMember(edges, start, loop);
        }
        LoopsStep(edges, done, loops, start, loop);
        RoundIsLoop(edges, loop);
        forall e | Reaches(edges, start, e) ensures e in edges {
          LoopBoundNeverStops(edges, start, loop[0], e);
        }
        HeadsSkip(edges, done, headsByEnd, start);
        loops := loops[loop[0] := loop];
      } else {
        var end := walk[|walk| - 1];
        assert Reaches(edges, start, end);
        assert !OnLoop(edges, start) by {
          if OnLoop(edges, start) {
            assert At(edges, start, 0) == Some(start);
            LoopBoundNeverStops(edges, start, start, end);
          }
        }
        if start !in successors {
          HeadsStep(edges, done, headsByEnd, start, end);
          headsByEnd := headsByEnd[end := (if end in headsByEnd then headsByEnd[end] else []) + [start]];
        } else {
          HeadsSkip(edges, done, headsByEnd, start);
        }
      }
    }
    assert edges.Keys - {} == edges.Keys;
  }

  function LeastOf(s: seq<Path>): (p: Path)
    requires s != []
    ensures p in s && forall q :: q in s ==> p <= q
  {
    if |s| == 1 then s[0]
    else
      var least := LeastOf(s[..|s| - 1]);
      assert s == s[..|s| - 1] + [s[|s| - 1]];
      if s[|s| - 1] < least then s[|s| - 1] else least
  }

  method IndexOf(s: seq<Path>, p: Path) returns (i: nat)
    requires p in s
    ensures i < |s| && s[i] == p
  {
    i := 0;
    while s[i] != p
      invariant i < |s| && p !in s[..i]
      decreases |s| - i
    {
      assert p in s[i..] by {
        assert s == s[..i] + s[i..];
      }
      i := i + 1;
    }
  }

  /** The loop a walk ran into, from its least member round. */
  method ClosedLoop(edges: Graph, walk: seq<Path>, at: Path) returns (loop: seq<Path>)
    requires IsTrail(edges, walk) && at in walk
    requires walk[|walk| - 1] in edges && edges[walk[|walk| - 1]] == at
    ensures loop != [] && IsLoopFinding(edges, loop[0], loop)
    ensures Reaches(edges, walk[0], loop[0])
  {
    var seenAt := IndexOf(walk, at);
    var tail := walk[seenAt..];
    TrailTailIsRound(edges, walk, seenAt);
    var first := LeastOf(tail);
    var pivot := IndexOf(tail, first);
    loop := Rotate(tail, pivot);
    RotationIsRound(edges, tail, pivot);
    assert At(edges, walk[0], seenAt + pivot) == Some(walk[seenAt + pivot]);
  }

  ghost predicate OneDocPerPath(docs: seq<LoadedDoc>) {
    forall i, j :: 0 <= i < j < |docs| ==> docs[i].write.path != docs[j].write.path
  }

  /** A path carries at most one finding. */
  lemma FindingUnique(docs: seq<LoadedDoc>, g: Graph, a: Finding, b: Finding)
    requires OneDocPerPath(docs)
    requires IsFinding(docs, g, a) && IsFinding(docs, g, b) && a.path == b.path
    ensures a == b
  {
    match a
    case LoopFinding(p, loop) =>
      assert loop[0] in g;
      if b.LoopFinding? {
        RoundUnique(g, loop, b.loop);
      }
    case EndFinding(p, heads, status) =>
      if b.EndFinding? {
        forall h ensures h in heads <==> h in b.heads {
          assert h in heads <==> h in g && h !in g.Values && Reaches(g, h, p);
          assert h in b.heads <==> h in g && h !in g.Values && Reaches(g, h, p);
        }
        SameEntriesSameMultiset(heads, b.heads);
        SortedUnique(heads, b.heads, PathLeq);
      }
  }

  /** The loop findings, one per collected loop. */
  method EmitLoops(docs: seq<LoadedDoc>, g: Graph, loops: map<Path, seq<Path>>) returns (out: seq<Finding>)
    requires LoopsSoFar(g, g.Keys, loops)
    ensures Distinct(out)
    ensures forall f :: f in out <==> f.LoopFinding? && IsFinding(docs, g, f)
  {
    out := [];
    var todo := loops.Keys;
    while todo != {}
      invariant todo <= loops.Keys && Distinct(out)
      invariant forall f :: f in out <==> f.LoopFinding? && f.path in loops && f.path !in todo && f.loop == loops[f.path]
      decreases |todo|
    {
      var p := AnyOf(todo);
      todo := todo - {p};
      out := out + [LoopFinding(p, loops[p])];
    }
    forall f: Finding | f.LoopFinding? && IsFinding(docs, g, f) ensures f in out {
      RoundIsLoop(g, f.loop);
      assert f.path in f.loop;
      assert f.path in ToSet(f.loop);
      var p :| p in loops && f.path in loops[p];
      RoundsThatMeet(g, f.loop, loops[p], f.path);
      assert p in loops[p] && f.path in f.loop;
      RoundUnique(g, f.loop, loops[p]);
    }
  }

  /** The findings on last entries that are not canonical and carry no pointer of their own. */
  method EmitEnds(docs: seq<LoadedDoc>, g: Graph, headsByEnd: map<Path, seq<Path>>) returns (out: seq<Finding>)
    requires OneDocPerPath(docs) && HeadsSoFar(g, g.Keys, headsByEnd)
    ensures Distinct(out)
    ensures forall f :: f in out <==> f.EndFinding? && IsFinding(docs, g, f)
  {
    out := [];
    for n := 0 to |docs|
      invariant Distinct(out)
      invariant forall f :: f in out ==> f.EndFinding? && exists i :: 0 <= i < n && docs[i].write.path == f.path
      invariant forall f :: f in out ==> IsFinding(docs, g, f)
      invariant forall f: Finding, i :: 0 <= i < n && f.EndFinding? && IsFinding(docs, g, f) && docs[i].write.path == f.path ==> f in out
    {
      var doc := docs[n];
      var path := doc.write.path;
      if path in headsByEnd && !doc.status.Canonical? && doc.write.pointer.None? {
        var heads := SortBy(headsByEnd[path], PathLeq);
        EndFindingFor(docs, g, headsByEnd, n);
        out := out + [EndFinding(path, heads, doc.status)];
      }
      forall f: Finding | f.EndFinding? && IsFinding(docs, g, f) && path == f.path ensures f in out {
        EndFindingIs(docs, g, headsByEnd, n, f);
      }
    }
    forall f: Finding | f.EndFinding? && IsFinding(docs, g, f) ensures f in out {
      var i :| 0 <= i < |docs| && docs[i] == LoadedDoc(Write(f.path, None), f.status);
    }
  }

  lemma EndFindingFor(docs: seq<LoadedDoc>, g: Graph, headsByEnd: map<Path, seq<Path>>, n: nat)
    requires HeadsSoFar(g, g.Keys, headsByEnd) && n < |docs| && docs[n].write.path in headsByEnd
    requires !docs[n].status.Canonical? && docs[n].write.pointer.None?
    ensures
      var path := docs[n].write.path;
      IsFinding(docs, g, EndFinding(path, SortBy(headsByEnd[path], PathLeq), docs[n].status))
  {
    var path := docs[n].write.path;
    var heads := SortBy(headsByEnd[path], PathLeq);
    PathLeqIsTotal();
    SortBySorted(headsByEnd[path], PathLeq);
    SameElements(headsByEnd[path], heads);
    DistinctByCount(headsByEnd[path], heads);
    assert docs[n] in docs;
  }

  lemma EndFindingIs(docs: seq<LoadedDoc>, g: Graph, headsByEnd: map<Path, seq<Path>>, n: nat, f: Finding)
    requires OneDocPerPath(docs) && HeadsSoFar(g, g.Keys, headsByEnd) && n < |docs|
    requires f.EndFinding? && IsFinding(docs, g, f) && docs[n].write.path == f.path
    ensures f.path in headsByEnd && docs[n] == LoadedDoc(Write(f.path, None), f.status)
    ensures f == EndFinding(f.path, SortBy(headsByEnd[f.path], PathLeq), f.status)
  {
    var h := f.heads[0];
    assert h in f.heads;
    EndFindingFor(docs, g, headsByEnd, n);
    FindingUnique(docs, g, f, EndFinding(f.path, SortBy(headsByEnd[f.path], PathLeq), docs[n].status));
  }

  lemma PathLeqIsTotal()
    ensures TotalPreorder(PathLeq)
  {
  }

  lemma ByPathIsTotal()
    ensures TotalPreorder(ByPath)
  {
  }

  /** Every loop is reported once, under its smallest path; a walk that stops at a document not canonical is
      reported there, with the documents such walks start from. Sorted, and no path twice. */
  method SupersedeChainFindings(docs: seq<LoadedDoc>, baseOf: Path -> Name)
    returns (findings: seq<Finding>, ghost g: Graph)
    requires OneDocPerPath(docs)
    ensures IsGraph(Writes(docs), baseOf, g)
    ensures forall f :: f in findings <==> IsFinding(docs, g, f)
    ensures SortedBy(findings, ByPath)
    ensures forall i, j :: 0 <= i < j < |findings| ==> findings[i].path != findings[j].path
    ensures forall p :: OnLoop(g, p) ==> exists f :: f in findings && f.LoopFinding? && p in f.loop
  {
    var writes: seq<Write> := [];
    for n := 0 to |docs|
      invariant writes == Writes(docs)[..n]
    {
      writes := writes + [docs[n].write];
    }
    var edges := SupersedeEdges(writes, [], baseOf);
    g := edges;
    assert writes + [] == writes == Writes(docs);
    var loops, headsByEnd := CollectLoopsAndEnds(edges);
    var onLoops := EmitLoops(docs, edges, loops);
    var onEnds := EmitEnds(docs, edges, headsByEnd);
    var all := onLoops + onEnds;
    findings := SortBy(all, ByPath);
    BothKinds(docs, g, onLoops, onEnds);
    SortedFindings(docs, g, all, findings);
    forall p | OnLoop(g, p) ensures exists f :: f in findings && f.LoopFinding? && p in f.loop {
      LoopsAreFound(docs, g, loops, p);
    }
  }

  ghost predicate EndReported(findings: seq<Finding>, path: Path) {
    exists f :: f in findings && f.EndFinding? && f.path == path
  }

  ghost predicate HasHead(g: Graph, path: Path) {
    exists h :: h in g && h !in g.Values && Reaches(g, h, path)
  }

  /** What the findings say, in path order: a document is reported as the end of a chain exactly when it carries no
      pointer, is not canonical, and a document nothing points to leads there; and its report names just those. */
  lemma FindingsMean(docs: seq<LoadedDoc>, g: Graph, findings: seq<Finding>, d: LoadedDoc)
    requires forall f :: f in findings <==> IsFinding(docs, g, f)
    requires SortedBy(findings, ByPath) && d in docs && OneDocPerPath(docs)
    ensures EndReported(findings, d.write.path) <==>
      && d.write.path !in g && d.write.pointer.None? && HasHead(g, d.write.path)
      && (d.status.Draft? || d.status.Superseded? || d.status.Deprecated? || d.status.Archived?)
    ensures forall f, h :: f in findings && f.EndFinding? ==>
      (h in f.heads <==> h in g && h !in g.Values && Reaches(g, h, f.path))
    ensures forall i, j :: 0 <= i < j < |findings| ==> findings[i].path <= findings[j].path
    ensures forall f, i, j :: f in findings && f.EndFinding? && 0 <= i < j < |f.heads| ==> f.heads[i] <= f.heads[j]
  {
    forall i, j | 0 <= i < j < |findings| ensures ByPath(findings[i], findings[j]) {
    }
    forall f, i, j | f in findings && f.EndFinding? && 0 <= i < j < |f.heads| ensures f.heads[i] <= f.heads[j] {
      assert IsFinding(docs, g, f);
      assert PathLeq(f.heads[i], f.heads[j]);
    }
    EndReportedExactly(docs, g, findings, d);
  }

  lemma EndReportedExactly(docs: seq<LoadedDoc>, g: Graph, findings: seq<Finding>, d: LoadedDoc)
    requires forall f :: f in findings <==> IsFinding(docs, g, f)
    requires d in docs && OneDocPerPath(docs)
    ensures EndReported(findings, d.write.path) <==>
      && d.write.path !in g && d.write.pointer.None? && HasHead(g, d.write.path) && !d.status.Canonical?
  {
    var path := d.write.path;
    if EndReported(findings, path) {
      var f :| f in findings && f.EndFinding? && f.path == path;
      var d' := LoadedDoc(Write(path, None), f.status);
      assert d' in docs;
      var i :| 0 <= i < |docs| && docs[i] == d;
      var j :| 0 <= j < |docs| && docs[j] == d';
      assert d == d';
      assert IsEndFinding(docs, g, path, f.heads, f.status);
      var h := f.heads[0];
      assert h in f.heads && Reaches(g, h, path);
    }
    if path !in g && d.write.pointer.None? && HasHead(g, path) && !d.status.Canonical? {
      var heads := SortedHeads(g, path);
      assert d == LoadedDoc(Write(path, None), d.status);
      assert IsFinding(docs, g, EndFinding(path, heads, d.status));
    }
  }

  lemma SortedHeads(g: Graph, path: Path) returns (heads: seq<Path>)
    requires HasHead(g, path)
    ensures AreHeads(g, path, heads) && SortedBy(heads, PathLeq)
  {
    var all := set h | h in g.Keys && h !in g.Values && Reaches(g, h, path);
    var listed: seq<Path>, todo := [], all;
    while todo != {}
      invariant todo <= all && Distinct(listed) && ToSet(listed) == all - todo
      decreases |todo|
    {
      var x :| x in todo;
      listed, todo := listed + [x], todo - {x};
    }
    heads := SortBy(listed, PathLeq);
    PathLeqIsTotal();
    SortBySorted(listed, PathLeq);
    SameElements(heads, listed);
    DistinctByCount(listed, heads);
    forall h ensures h in heads <==> h in all {
      assert h in listed <==> h in ToSet(listed);
    }
    var h :| h in g && h !in g.Values && Reaches(g, h, path);
    assert h in heads;
  }

  lemma BothKinds(docs: seq<LoadedDoc>, g: Graph, onLoops: seq<Finding>, onEnds: seq<Finding>)
    requires Distinct(onLoops) && Distinct(onEnds)
    requires forall f :: f in onLoops <==> f.LoopFinding? && IsFinding(docs, g, f)
    requires forall f :: f in onEnds <==> f.EndFinding? && IsFinding(docs, g, f)
    ensures Distinct(onLoops + onEnds)
    ensures forall f :: f in onLoops + onEnds <==> IsFinding(docs, g, f)
  {
    var all := onLoops + onEnds;
    forall i, j | 0 <= i < j < |all| ensures all[i] != all[j] {
      if i < |onLoops| <= j {
        assert all[i] in onLoops && all[j] in onEnds;
      }
    }
  }

  lemma SortedFindings(docs: seq<LoadedDoc>, g: Graph, all: seq<Finding>, findings: seq<Finding>)
    requires OneDocPerPath(docs) && Distinct(all) && findings == SortBy(all, ByPath)
    requires forall f :: f in all <==> IsFinding(docs, g, f)
    ensures SortedBy(findings, ByPath)
    ensures forall f :: f in findings <==> IsFinding(docs, g, f)
    ensures forall i, j :: 0 <= i < j < |findings| ==> findings[i].path != findings[j].path
  {
    ByPathIsTotal();
    SortBySorted(all, ByPath);
    SameElements(findings, all);
    DistinctByCount(all, findings);
    OnePerPathFound(docs, g, findings);
  }

  lemma OnePerPathFound(docs: seq<LoadedDoc>, g: Graph, findings: seq<Finding>)
    requires OneDocPerPath(docs) && Distinct(findings) && forall f :: f in findings ==> IsFinding(docs, g, f)
    ensures forall i, j :: 0 <= i < j < |findings| ==> findings[i].path != findings[j].path
  {
    forall i, j | 0 <= i < j < |findings| ensures findings[i].path != findings[j].path {
      assert findings[i] in findings && findings[j] in findings;
      if findings[i].path == findings[j].path {
        FindingUnique(docs, g, findings[i], findings[j]);
      }
    }
  }

  lemma LoopsAreFound(docs: seq<LoadedDoc>, g: Graph, loops: map<Path, seq<Path>>, p: Path)
    requires LoopsSoFar(g, g.Keys, loops) && OnLoop(g, p)
    ensures exists f: Finding :: f.LoopFinding? && IsFinding(docs, g, f) && p in f.loop
  {
    var n: nat :| n > 0 && At(g, p, n) == Some(p);
    AtPrefix(g, p, 0, n);
    var q :| q in loops && p in loops[q];
    assert IsFinding(docs, g, LoopFinding(q, loops[q]));
  }

  /** Every loop has exactly one finding, and it sits on the loop. */
  lemma OneFindingPerLoop(docs: seq<LoadedDoc>, g: Graph, p: Path, f: Finding, f': Finding)
    requires OnLoop(g, p)
    requires f.LoopFinding? && IsFinding(docs, g, f) && p in f.loop
    requires f'.LoopFinding? && IsFinding(docs, g, f') && p in f'.loop
    ensures f == f'
  {
    RoundsThatMeet(g, f.loop, f'.loop, p);
    assert f.path in f.loop && f'.path in f'.loop;
    RoundUnique(g, f.loop, f'.loop);
  }
}

/** The blast of a contested set: everything downstream of it, with exact distances and channels. */
module TensionBlast {
  import opened Base
  import opened Sorting

  /** Which documents cite a document. */
  type Reverse = map<Path, set<Path>>

  datatype Dependency = Source | Link

  datatype Entry = Entry(path: Path, dependency: Dependency, distance: nat)

  datatype Blast = Blast(downstream: seq<Entry>, primary: nat, advisory: nat, maxDepth: nat)

  function Citing(r: Reverse, p: Path): set<Path> {
    if p in r then r[p] else {}
  }

  function Successors(source: Reverse, link: Reverse, p: Path): set<Path> {
    Citing(source, p) + Citing(link, p)
  }

  // ----- specification

  /** Some chain of exactly `n` citations leads from a seed to `p`. */
  ghost predicate ReachedIn(seeds: set<Path>, source: Reverse, link: Reverse, p: Path, n: nat)
    decreases n
  {
    if n == 0 then p in seeds
    else exists u :: ReachedIn(seeds, source, link, u, n - 1) && p in Successors(source, link, u)
  }

  /** `d` is the fewest citations that lead from a seed to `p`. */
  ghost predicate Distance(seeds: set<Path>, source: Reverse, link: Reverse, p: Path, d: nat) {
    ReachedIn(seeds, source, link, p, d) && forall k: nat :: k < d ==> !ReachedIn(seeds, source, link, p, k)
  }

  ghost predicate Reached(seeds: set<Path>, source: Reverse, link: Reverse, p: Path) {
    exists n: nat :: ReachedIn(seeds, source, link, p, n)
  }

  /** Some document in the blast, seeds included, is cited by `p` as a source. */
  ghost predicate CitesBlast(seeds: set<Path>, source: Reverse, link: Reverse, p: Path) {
    exists u :: Reached(seeds, source, link, u) && p in Citing(source, u)
  }

  ghost predicate IsDownstream(seeds: set<Path>, source: Reverse, link: Reverse, e: Entry) {
    && e.path !in seeds
    && Distance(seeds, source, link, e.path, e.distance)
    && (e.dependency.Source? <==> CitesBlast(seeds, source, link, e.path))
  }

  function CountOf(es: seq<Entry>, d: Dependency): nat {
    if es == [] then 0 else CountOf(es[..|es| - 1], d) + if es[|es| - 1].dependency == d then 1 else 0
  }

  ghost predicate IsMaxDepth(es: seq<Entry>, m: nat) {
    && (forall e :: e in es ==> e.distance <= m)
    && (m == 0 || exists e :: e in es && e.distance == m)
  }

  /** Nearest first; at equal distance, source citations first; then by path. */
  predicate EntryLeq(a: Entry, b: Entry) {
    if a.distance != b.distance then a.distance < b.distance
    else if a.dependency != b.dependency then a.dependency.Source?
    else a.path <= b.path
  }

  ghost predicate IsBlast(seeds: set<Path>, source: Reverse, link: Reverse, b: Blast) {
    && SortedBy(b.downstream, EntryLeq) && Distinct(b.downstream)
    && (forall e :: e in b.downstream <==> IsDownstream(seeds, source, link, e))
    && b.primary == CountOf(b.downstream, Source) && b.advisory == CountOf(b.downstream, Link)
    && IsMaxDepth(b.downstream, b.maxDepth)
  }

  lemma DistanceUnique(seeds: set<Path>, source: Reverse, link: Reverse, p: Path, d: nat, d': nat)
    requires Distance(seeds, source, link, p, d) && Distance(seeds, source, link, p, d')
    ensures d == d'
  {
  }

  lemma {:induction false} ChannelsPartition(es: seq<Entry>)
    ensures CountOf(es, Source) + CountOf(es, Link) == |es|
  {
    if es != [] {
      ChannelsPartition(es[..|es| - 1]);
    }
  }

  lemma {:induction false} ReachedHasDistance(seeds: set<Path>, source: Reverse, link: Reverse, p: Path, n: nat)
    returns (d: nat)
    requires ReachedIn(seeds, source, link, p, n)
    ensures d <= n && Distance(seeds, source, link, p, d)
  {
    if k: nat :| k < n && ReachedIn(seeds, source, link, p, k) {
      d := ReachedHasDistance(seeds, source, link, p, k);
    } else {
      d := n;
    }
  }

  /** Every reached document other than the seeds is listed exactly once, and nothing else is. */
  lemma ListedIffReached(seeds: set<Path>, source: Reverse, link: Reverse, b: Blast, p: Path)
    requires IsBlast(seeds, source, link, b)
    ensures (exists e :: e in b.downstream && e.path == p) <==> p !in seeds && Reached(seeds, source, link, p)
    ensures forall e, f :: e in b.downstream && f in b.downstream && e.path == f.path ==> e == f
    ensures b.primary + b.advisory == |b.downstream|
  {
    ChannelsPartition(b.downstream);
    if p !in seeds && Reached(seeds, source, link, p) {
      var n: nat :| ReachedIn(seeds, source, link, p, n);
      var d := ReachedHasDistance(seeds, source, link, p, n);
      var e := Entry(p, if CitesBlast(seeds, source, link, p) then Source else Link, d);
      assert IsDownstream(seeds, source, link, e);
    }
    forall e, f | e in b.downstream && f in b.downstream && e.path == f.path ensures e == f {
      DistanceUnique(seeds, source, link, e.path, e.distance, f.distance);
    }
  }

  /** The answer depends on the graph and the set of seeds only. */
  lemma BlastUnique(seeds: set<Path>, source: Reverse, link: Reverse, b: Blast, b': Blast)
    requires IsBlast(seeds, source, link, b) && IsBlast(seeds, source, link, b')
    ensures b == b'
  {
    SameEntriesSameMultiset(b.downstream, b'.downstream);
    SortedUnique(b.downstream, b'.downstream, EntryLeq);
  }

  // ----- what a blast says, told from the citations

  /** `p` cites `u`, as a source or by a link. */
  ghost predicate Cites(source: Reverse, link: Reverse, u: Path, p: Path) {
    (u in source && p in source[u]) || (u in link && p in link[u])
  }

  /** `u` is in the blast, `d` citations out; the seeds are in it, unlisted. */
  ghost predicate InBlast(seeds: set<Path>, b: Blast, u: Path, d: nat) {
    (u in seeds && d == 0) || exists e :: e in b.downstream && e.path == u && e.distance == d
  }

  ghost predicate NoFartherThan(seeds: set<Path>, b: Blast, p: Path, d: nat) {
    exists d': nat :: d' <= d && InBlast(seeds, b, p, d')
  }

  ghost predicate FollowsFrom(seeds: set<Path>, source: Reverse, link: Reverse, b: Blast, e: Entry, u: Path) {
    e.distance > 0 && InBlast(seeds, b, u, e.distance - 1) && Cites(source, link, u, e.path)
  }

  ghost predicate CitesAsSource(seeds: set<Path>, source: Reverse, b: Blast, p: Path) {
    exists u, d :: InBlast(seeds, b, u, d) && u in source && p in source[u]
  }

  lemma InBlastIsDistance(seeds: set<Path>, source: Reverse, link: Reverse, b: Blast, u: Path, d: nat)
    requires IsBlast(seeds, source, link, b)
    ensures InBlast(seeds, b, u, d) <==> Distance(seeds, source, link, u, d)
  {
    if Distance(seeds, source, link, u, d) && u !in seeds {
      var e := Entry(u, if CitesBlast(seeds, source, link, u) then Source else Link, d);
      assert IsDownstream(seeds, source, link, e);
    }
    if Distance(seeds, source, link, u, d) && u in seeds {
      assert ReachedIn(seeds, source, link, u, 0);
    }
  }

  lemma CitesIsSuccessor(source: Reverse, link: Reverse, u: Path, p: Path)
    ensures Cites(source, link, u, p) <==> p in Successors(source, link, u)
  {
  }

  /** Whatever cites a document of the blast, by either channel, is in it too, at most one citation farther out. */
  lemma BlastTakesCiters(seeds: set<Path>, source: Reverse, link: Reverse, b: Blast, u: Path, p: Path, d: nat)
    requires IsBlast(seeds, source, link, b)
    requires InBlast(seeds, b, u, d) && Cites(source, link, u, p)
    ensures NoFartherThan(seeds, b, p, d + 1)
  {
    InBlastIsDistance(seeds, source, link, b, u, d);
    CitesIsSuccessor(source, link, u, p);
    StepReaches(seeds, source, link, u, p, d);
    var d' := ReachedHasDistance(seeds, source, link, p, d + 1);
    InBlastIsDistance(seeds, source, link, b, p, d');
  }

  /** Everything listed cites a document of the blast one citation nearer. */
  lemma ListedFollows(seeds: set<Path>, source: Reverse, link: Reverse, b: Blast, e: Entry) returns (u: Path)
    requires IsBlast(seeds, source, link, b) && e in b.downstream
    ensures FollowsFrom(seeds, source, link, b, e, u)
  {
    assert IsDownstream(seeds, source, link, e);
    assert ReachedIn(seeds, source, link, e.path, 0) <==> e.path in seeds;
    u := NearerByOne(seeds, source, link, e.path, e.distance - 1);
    InBlastIsDistance(seeds, source, link, b, u, e.distance - 1);
    CitesIsSuccessor(source, link, u, e.path);
  }

  /** An entry is a link exactly when it cites nothing of the blast as a source. */
  lemma LinkCitesNoSource(seeds: set<Path>, source: Reverse, link: Reverse, b: Blast, e: Entry)
    requires IsBlast(seeds, source, link, b) && e in b.downstream
    ensures e.dependency.Link? <==> !CitesAsSource(seeds, source, b, e.path)
  {
    assert IsDownstream(seeds, source, link, e);
    if u :| Reached(seeds, source, link, u) && e.path in Citing(source, u) {
      var n: nat :| ReachedIn(seeds, source, link, u, n);
      var d := ReachedHasDistance(seeds, source, link, u, n);
      InBlastIsDistance(seeds, source, link, b, u, d);
    }
    if u, d :| InBlast(seeds, b, u, d) && u in source && e.path in source[u] {
      InBlastIsDistance(seeds, source, link, b, u, d);
      assert e.path in Citing(source, u);
    }
  }

  /** The nearest come first, at one distance those that cite a source, and then by path; the counts are those of
      the two channels, and the depth is the largest distance. */
  lemma BlastOrder(seeds: set<Path>, source: Reverse, link: Reverse, b: Blast)
    requires IsBlast(seeds, source, link, b)
    ensures forall i, j :: 0 <= i < j < |b.downstream| ==>
      var (x, y) := (b.downstream[i], b.downstream[j]);
      && x.distance <= y.distance
      && (x.distance == y.distance ==>
            (x.dependency.Source? && y.dependency.Link?) || (x.dependency == y.dependency && x.path <= y.path))
    ensures b.primary == |OfKind(b.downstream, Source)| && b.advisory == |OfKind(b.downstream, Link)|
    ensures b.maxDepth == 0 <==> b.downstream == []
    ensures b.downstream != [] ==> b.maxDepth == b.downstream[|b.downstream| - 1].distance
  {
    var es := b.downstream;
    CountIsCardinality(es, Source);
    CountIsCardinality(es, Link);
    forall i, j | 0 <= i < j < |es| ensures EntryLeq(es[i], es[j]) {
    }
    forall e | e in es ensures e.distance > 0 {
      var u := ListedFollows(seeds, source, link, b, e);
    }
    LastIsDeepest(es, b.maxDepth);
  }

  lemma LastIsDeepest(es: seq<Entry>, m: nat)
    requires SortedBy(es, EntryLeq) && IsMaxDepth(es, m) && forall e :: e in es ==> e.distance > 0
    ensures m == 0 <==> es == []
    ensures es != [] ==> m == es[|es| - 1].distance
  {
    if es != [] {
      assert es[|es| - 1] in es;
      var e :| e in es && e.distance == m;
      var i :| 0 <= i < |es| && es[i] == e;
      assert i < |es| - 1 ==> EntryLeq(es[i], es[|es| - 1]);
    }
  }

  ghost function OfKind(es: seq<Entry>, d: Dependency): set<Entry> {
    set e | e in es && e.dependency == d
  }

  lemma OfKindSnoc(es: seq<Entry>, e: Entry, d: Dependency)
    requires e !in es
    ensures OfKind(es + [e], d) == if e.dependency == d then OfKind(es, d) + {e} else OfKind(es, d)
    ensures e !in OfKind(es, d)
  {
    forall x ensures x in es + [e] <==> x in es || x == e {
    }
  }

  lemma {:induction false} CountIsCardinality(es: seq<Entry>, d: Dependency)
    requires Distinct(es)
    ensures CountOf(es, d) == |OfKind(es, d)|
  {
    if es != [] {
      var front, last := es[..|es| - 1], es[|es| - 1];
      CountIsCardinality(front, d);
      assert es == front + [last];
      OfKindSnoc(front, last, d);
    }
  }

  // ----- breadth first, layer by layer

  ghost predicate Within(seeds: set<Path>, source: Reverse, link: Reverse, p: Path, depth: nat) {
    exists k: nat :: k <= depth && ReachedIn(seeds, source, link, p, k)
  }

  lemma WithinStep(seeds: set<Path>, source: Reverse, link: Reverse, p: Path, depth: nat)
    ensures Within(seeds, source, link, p, depth + 1) <==>
            Within(seeds, source, link, p, depth) || ReachedIn(seeds, source, link, p, depth + 1)
    ensures Distance(seeds, source, link, p, depth + 1) <==>
            !Within(seeds, source, link, p, depth) && ReachedIn(seeds, source, link, p, depth + 1)
  {
    if Within(seeds, source, link, p, depth) {
      var k: nat :| k <= depth && ReachedIn(seeds, source, link, p, k);
      assert k <= depth + 1;
    }
  }

  ghost predicate Layered(seeds: set<Path>, source: Reverse, link: Reverse, visited: set<Path>, distance: map<Path, nat>,
                          frontier: set<Path>, depth: nat) {
    VisitedTo(seeds, source, link, visited, frontier, depth) && Measured(seeds, source, link, visited, distance)
  }

  ghost predicate VisitedTo(seeds: set<Path>, source: Reverse, link: Reverse, visited: set<Path>, frontier: set<Path>, depth: nat) {
    && (forall p :: p in visited <==> Within(seeds, source, link, p, depth))
    && (forall p :: p in frontier <==> Distance(seeds, source, link, p, depth))
  }

  ghost predicate Measured(seeds: set<Path>, source: Reverse, link: Reverse, visited: set<Path>, distance: map<Path, nat>) {
    && (forall p :: p in distance <==> p in visited && p !in seeds)
    && (forall p :: p in distance ==> Distance(seeds, source, link, p, distance[p]))
  }

  /** The unvisited documents one citation beyond the frontier. */
  ghost predicate IsNextLayer(source: Reverse, link: Reverse, visited: set<Path>, frontier: set<Path>, next: set<Path>) {
    forall p :: p in next <==> p !in visited && exists u :: u in frontier && p in Successors(source, link, u)
  }

  lemma StepReaches(seeds: set<Path>, source: Reverse, link: Reverse, u: Path, p: Path, k: nat)
    requires ReachedIn(seeds, source, link, u, k) && p in Successors(source, link, u)
    ensures ReachedIn(seeds, source, link, p, k + 1)
  {
  }

  /** A document's predecessor on a shortest chain is one step nearer. */
  lemma NearerByOne(seeds: set<Path>, source: Reverse, link: Reverse, p: Path, depth: nat) returns (u: Path)
    requires Distance(seeds, source, link, p, depth + 1)
    ensures Distance(seeds, source, link, u, depth) && p in Successors(source, link, u)
  {
    u :| ReachedIn(seeds, source, link, u, depth) && p in Successors(source, link, u);
    forall k: nat | k < depth ensures !ReachedIn(seeds, source, link, u, k) {
      if ReachedIn(seeds, source, link, u, k) {
        StepReaches(seeds, source, link, u, p, k);
      }
    }
  }

  lemma NextLayer(seeds: set<Path>, source: Reverse, link: Reverse, visited: set<Path>, distance: map<Path, nat>,
                  frontier: set<Path>, depth: nat, next: set<Path>, p: Path)
    requires Layered(seeds, source, link, visited, distance, frontier, depth)
    requires IsNextLayer(source, link, visited, frontier, next)
    ensures p in next <==> Distance(seeds, source, link, p, depth + 1)
  {
    WithinStep(seeds, source, link, p, depth);
    if Distance(seeds, source, link, p, depth + 1) {
      var u := NearerByOne(seeds, source, link, p, depth);
      assert u in frontier;
    }
    if p in next {
      var u :| u in frontier && p in Successors(source, link, u);
      StepReaches(seeds, source, link, u, p, depth);
    }
  }

  lemma LayerStep(seeds: set<Path>, source: Reverse, link: Reverse, visited: set<Path>, distance: map<Path, nat>,
                  frontier: set<Path>, depth: nat, next: set<Path>, distance': map<Path, nat>)
    requires Layered(seeds, source, link, visited, distance, frontier, depth)
    requires IsNextLayer(source, link, visited, frontier, next)
    requires forall p :: p in distance' <==> p in distance || p in next
    requires forall p :: p in distance' ==> distance'[p] == if p in next then depth + 1 else distance[p]
    ensures Layered(seeds, source, link, visited + next, distance', next, depth + 1)
  {
    LayerVisits(seeds, source, link, visited, distance, frontier, depth, next);
    LayerDistances(seeds, source, link, visited, distance, frontier, depth, next, distance');
  }

  lemma LayerVisits(seeds: set<Path>, source: Reverse, link: Reverse, visited: set<Path>, distance: map<Path, nat>,
                    frontier: set<Path>, depth: nat, next: set<Path>)
    requires Layered(seeds, source, link, visited, distance, frontier, depth)
    requires IsNextLayer(source, link, visited, frontier, next)
    ensures VisitedTo(seeds, source, link, visited + next, next, depth + 1)
  {
    forall p
      ensures p in visited + next <==> Within(seeds, source, link, p, depth + 1)
      ensures p in next <==> Distance(seeds, source, link, p, depth + 1)
    {
      LayerDocument(seeds, source, link, visited, distance, frontier, depth, next, p);
    }
  }

  lemma LayerDistances(seeds: set<Path>, source: Reverse, link: Reverse, visited: set<Path>, distance: map<Path, nat>,
                       frontier: set<Path>, depth: nat, next: set<Path>, distance': map<Path, nat>)
    requires Layered(seeds, source, link, visited, distance, frontier, depth)
    requires IsNextLayer(source, link, visited, frontier, next)
    requires forall p :: p in distance' <==> p in distance || p in next
    requires forall p :: p in distance' ==> distance'[p] == if p in next then depth + 1 else distance[p]
    ensures Measured(seeds, source, link, visited + next, distance')
  {
    forall p ensures p in distance' <==> p in visited + next && p !in seeds {
      LayerDocument(seeds, source, link, visited, distance, frontier, depth, next, p);
    }
    forall p | p in distance' ensures Distance(seeds, source, link, p, distance'[p]) {
      LayerDocument(seeds, source, link, visited, distance, frontier, depth, next, p);
    }
  }

  lemma LayerDocument(seeds: set<Path>, source: Reverse, link: Reverse, visited: set<Path>, distance: map<Path, nat>,
                      frontier: set<Path>, depth: nat, next: set<Path>, p: Path)
    requires Layered(seeds, source, link, visited, distance, frontier, depth)
    requires IsNextLayer(source, link, visited, frontier, next)
    ensures p in next <==> Distance(seeds, source, link, p, depth + 1)
    ensures p in visited + next <==> Within(seeds, source, link, p, depth + 1)
    ensures p in next ==> p !in seeds
  {
    NextLayer(seeds, source, link, visited, distance, frontier, depth, next, p);
    WithinStep(seeds, source, link, p, depth);
    assert ReachedIn(seeds, source, link, p, 0) <==> p in seeds;
  }

  /** Once a layer is empty, nothing lies beyond it. */
  lemma {:induction false} NothingBeyond(seeds: set<Path>, source: Reverse, link: Reverse, depth: nat, p: Path, d: nat)
    requires forall q :: !Distance(seeds, source, link, q, depth)
    requires Distance(seeds, source, link, p, d)
    ensures d < depth
    decreases d
  {
    if d > depth {
      var u := NearerByOne(seeds, source, link, p, d - 1);
      NothingBeyond(seeds, source, link, depth, u, d - 1);
    }
  }

  lemma LastLayerCoversAll(seeds: set<Path>, source: Reverse, link: Reverse, visited: set<Path>, distance: map<Path, nat>,
                           depth: nat)
    requires Layered(seeds, source, link, visited, distance, {}, depth)
    ensures forall p :: p in visited <==> Reached(seeds, source, link, p)
  {
    forall p ensures p in visited <==> Reached(seeds, source, link, p) {
      if p in visited {
        var k: nat :| k <= depth && ReachedIn(seeds, source, link, p, k);
      }
      if Reached(seeds, source, link, p) {
        var n: nat :| ReachedIn(seeds, source, link, p, n);
        var d := ReachedHasDistance(seeds, source, link, p, n);
        NothingBeyond(seeds, source, link, depth, p, d);
        assert Within(seeds, source, link, p, depth);
      }
    }
  }

  lemma FirstLayer(seeds: set<Path>, source: Reverse, link: Reverse)
    ensures Layered(seeds, source, link, seeds, map[], seeds, 0)
  {
    forall p ensures p in seeds <==> Within(seeds, source, link, p, 0) {
      assert ReachedIn(seeds, source, link, p, 0) <==> p in seeds;
    }
  }

  ghost function Universe(seeds: set<Path>, source: Reverse, link: Reverse): set<Path> {
    seeds + (set u, p | u in source && p in source[u] :: p) + (set u, p | u in link && p in link[u] :: p)
  }

  /** What one layer has put into `visited` and `distance` so far: the documents in `next`. */
  ghost predicate Booked(visited0: set<Path>, distance0: map<Path, nat>, depth: nat, visited: set<Path>,
                         distance: map<Path, nat>, next: set<Path>)
  {
    && visited == visited0 + next
    && (forall p :: p in distance <==> p in distance0 || p in next)
    && (forall p :: p in distance ==> distance[p] == if p in next then depth + 1 else distance0[p])
  }

  /** Visits the successors of one document. */
  method VisitSuccessors(successors0: set<Path>, ghost visited0: set<Path>, ghost distance0: map<Path, nat>, depth: nat,
                         visited1: set<Path>, distance1: map<Path, nat>, next1: set<Path>)
    returns (visited: set<Path>, distance: map<Path, nat>, next: set<Path>)
    requires Booked(visited0, distance0, depth, visited1, distance1, next1)
    ensures Booked(visited0, distance0, depth, visited, distance, next)
    ensures forall p :: p in next <==> p in next1 || (p !in visited0 && p in successors0)
  {
    visited, distance, next := visited1, distance1, next1;
    var successors := successors0;
    while successors != {}
      invariant successors <= successors0
      invariant Booked(visited0, distance0, depth, visited, distance, next)
      invariant forall p :: p in next <==> p in next1 || (p !in visited0 && p in successors0 && p !in successors)
      decreases |successors|
    {
      var succ := AnyOf(successors);
      successors := successors - {succ};
      if succ in visited {
        continue;
      }
      visited := visited + {succ};
      distance := distance[succ := depth + 1];
      next := next + {succ};
    }
  }

  /** Visits the successors of one layer. */
  method ExpandLayer(source: Reverse, link: Reverse, visited0: set<Path>, distance0: map<Path, nat>,
                     frontier: set<Path>, depth: nat)
    returns (visited: set<Path>, distance: map<Path, nat>, next: set<Path>)
    ensures IsNextLayer(source, link, visited0, frontier, next)
    ensures visited == visited0 + next
    ensures forall p :: p in distance <==> p in distance0 || p in next
    ensures forall p :: p in distance ==> distance[p] == if p in next then depth + 1 else distance0[p]
  {
    visited, distance, next := visited0, distance0, {};
    var todo := frontier;
    while todo != {}
      invariant todo <= frontier
      invariant IsNextLayer(source, link, visited0, frontier - todo, next)
      invariant Booked(visited0, distance0, depth, visited, distance, next)
      decreases |todo|
    {
      var node := AnyOf(todo);
      ghost var done, next0 := frontier - todo, next;
      todo := todo - {node};
      assert frontier - todo == done + {node};
      visited, distance, next :=
        VisitSuccessors(Successors(source, link, node), visited0, distance0, depth, visited, distance, next);
      LayerGrows(source, link, visited0, done, next0, node, next);
    }
    assert frontier - {} == frontier;
  }

  lemma LayerGrows(source: Reverse, link: Reverse, visited: set<Path>, done: set<Path>, next0: set<Path>, node: Path,
                   next: set<Path>)
    requires IsNextLayer(source, link, visited, done, next0)
    requires forall p :: p in next <==> p in next0 || (p !in visited && p in Successors(source, link, node))
    ensures IsNextLayer(source, link, visited, done + {node}, next)
  {
    forall p ensures p in next <==> p !in visited && exists u :: u in done + {node} && p in Successors(source, link, u) {
      if p in next0 {
        var u :| u in done && p in Successors(source, link, u);
        assert u in done + {node};
      } else if p in next {
        assert node in done + {node};
      } else {
        assert forall u :: u in done + {node} ==> u in done || u == node;
      }
    }
  }

  /** The distances of everything downstream. */
  method Distances(seeds: seq<Path>, source: Reverse, link: Reverse)
    returns (visited: set<Path>, distance: map<Path, nat>)
    ensures
      var s := ToSet(seeds);
      && (forall p :: p in visited <==> Reached(s, source, link, p))
      && (forall p :: p in distance <==> p in visited && p !in s)
      && (forall p :: p in distance ==> Distance(s, source, link, p, distance[p]))
  {
    ghost var s := ToSet(seeds);
    ghost var universe := Universe(s, source, link);
    visited, distance := (set p | p in seeds), map[];
    var frontier := visited;
    var depth := 0;
    FirstLayer(s, source, link);
    while frontier != {}
      invariant Layered(s, source, link, visited, distance, frontier, depth)
      invariant visited <= universe
      decreases |universe - visited| + if frontier != {} then 1 else 0
    {
      ghost var visited0, distance0 := visited, distance;
      var next;
      visited, distance, next := ExpandLayer(source, link, visited, distance, frontier, depth);
      LayerStep(s, source, link, visited0, distance0, frontier, depth, next, distance);
      NextStaysInUniverse(s, source, link, visited0, frontier, next);
      LayerShrinksRest(universe, visited0, next);
      frontier := next;
      depth := depth + 1;
    }
    LastLayerCoversAll(s, source, link, visited, distance, depth);
  }

  lemma NextStaysInUniverse(seeds: set<Path>, source: Reverse, link: Reverse, visited: set<Path>, frontier: set<Path>,
                            next: set<Path>)
    requires IsNextLayer(source, link, visited, frontier, next)
    ensures next <= Universe(seeds, source, link)
  {
    forall p | p in next ensures p in Universe(seeds, source, link) {
      var u :| u in frontier && p in Successors(source, link, u);
    }
  }

  lemma LayerShrinksRest(universe: set<Path>, visited: set<Path>, next: set<Path>)
    requires next <= universe && forall p :: p in next ==> p !in visited
    ensures |universe - (visited + next)| <= |universe - visited|
    ensures next != {} ==> |universe - (visited + next)| < |universe - visited|
  {
    var rest := universe - (visited + next);
    assert forall q :: q in universe - visited <==> q in rest + next;
    assert universe - visited == rest + next;
    assert |rest + next| == |rest| + |next|;
  }

  // ----- channels and counts

  /** The documents outside the seeds that cite some visited document as a source. */
  method PrimaryDownstream(visited: set<Path>, seedSet: set<Path>, source: Reverse) returns (primary: set<Path>)
    ensures forall p :: p in primary <==> p !in seedSet && exists u :: u in visited && p in Citing(source, u)
  {
    primary := {};
    var todo := visited;
    while todo != {}
      invariant todo <= visited
      invariant forall p :: p in primary <==> p !in seedSet && exists u :: u in visited - todo && p in Citing(source, u)
      decreases |todo|
    {
      var v := AnyOf(todo);
      ghost var done, primary0 := visited - todo, primary;
      todo := todo - {v};
      assert visited - todo == done + {v};
      primary := primary + (Citing(source, v) - seedSet);
      forall p ensures p in primary <==> p !in seedSet && exists u :: u in done + {v} && p in Citing(source, u) {
        if p in primary0 {
          var u :| u in done && p in Citing(source, u);
          assert u in done + {v};
        } else if p in primary {
          assert v in done + {v};
        } else {
          assert forall u :: u in done + {v} ==> u in done || u == v;
        }
      }
    }
    assert visited - {} == visited;
  }

  method BuildEntries(distance: map<Path, nat>, primary: set<Path>) returns (entries: seq<Entry>)
    ensures Distinct(entries)
    ensures forall e :: e in entries <==>
      e.path in distance && e.distance == distance[e.path] && (e.dependency.Source? <==> e.path in primary)
  {
    entries := [];
    var todo := distance.Keys;
    while todo != {}
      invariant todo <= distance.Keys && Distinct(entries)
      invariant forall e :: e in entries <==>
        e.path in distance && e.path !in todo && e.distance == distance[e.path] && (e.dependency.Source? <==> e.path in primary)
      decreases |todo|
    {
      var p := AnyOf(todo);
      todo := todo - {p};
      entries := entries + [Entry(p, if p in primary then Source else Link, distance[p])];
    }
  }

  lemma EntryLeqIsTotal()
    ensures TotalPreorder(EntryLeq)
  {
  }

  method CountChannels(entries: seq<Entry>) returns (primary: nat, advisory: nat, maxDepth: nat)
    ensures primary == CountOf(entries, Source) && advisory == CountOf(entries, Link)
    ensures IsMaxDepth(entries, maxDepth)
  {
    primary, advisory, maxDepth := 0, 0, 0;
    for n := 0 to |entries|
      invariant primary == CountOf(entries[..n], Source) && advisory == CountOf(entries[..n], Link)
      invariant IsMaxDepth(entries[..n], maxDepth)
    {
      var e := entries[n];
      assert entries[..n + 1][..n] == entries[..n];
      assert entries[..n + 1] == entries[..n] + [e];
      if e.dependency.Source? {
        primary := primary + 1;
      } else {
        advisory := advisory + 1;
      }
      if e.distance > maxDepth {
        maxDepth := e.distance;
      }
    }
    assert entries[..|entries|] == entries;
  }

  /** The blast of `seeds` over both kinds of citation. */
  method ComputeBlast(seeds: seq<Path>, source: Reverse, link: Reverse) returns (blast: Blast)
    ensures IsBlast(ToSet(seeds), source, link, blast)
  {
    ghost var s := ToSet(seeds);
    var seedSet := set p | p in seeds;
    var visited, distance := Distances(seeds, source, link);
    var primaryDownstream := PrimaryDownstream(visited, seedSet, source);
    var found := BuildEntries(distance, primaryDownstream);
    var entries := SortBy(found, EntryLeq);
    EntryLeqIsTotal();
    SortBySorted(found, EntryLeq);
    SameElements(found, entries);
    DistinctByCount(found, entries);
    var primary, advisory, maxDepth := CountChannels(entries);
    blast := Blast(entries, primary, advisory, maxDepth);
    forall e ensures e in found <==> IsDownstream(s, source, link, e) {
      FoundIsDownstream(s, source, link, visited, distance, primaryDownstream, e);
    }
  }

  lemma FoundIsDownstream(s: set<Path>, source: Reverse, link: Reverse, visited: set<Path>, distance: map<Path, nat>,
                          primary: set<Path>, e: Entry)
    requires forall p :: p in visited <==> Reached(s, source, link, p)
    requires forall p :: p in distance <==> p in visited && p !in s
    requires forall p :: p in distance ==> Distance(s, source, link, p, distance[p])
    requires forall p :: p in primary <==> p !in s && exists u :: u in visited && p in Citing(source, u)
    ensures e.path in distance && e.distance == distance[e.path] && (e.dependency.Source? <==> e.path in primary)
            <==> IsDownstream(s, source, link, e)
  {
    if e.path !in s {
      assert e.path in primary <==> CitesBlast(s, source, link, e.path) by {
        if e.path in primary {
          var u :| u in visited && e.path in Citing(source, u);
          assert Reached(s, source, link, u);
        }
        if CitesBlast(s, source, link, e.path) {
          var u :| Reached(s, source, link, u) && e.path in Citing(source, u);
          assert u in visited;
        }
      }
      if Distance(s, source, link, e.path, e.distance) {
        assert Reached(s, source, link, e.path);
        DistanceUnique(s, source, link, e.path, e.distance, distance[e.path]);
      }
    }
  }
}

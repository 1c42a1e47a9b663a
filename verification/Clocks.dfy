/** The event clock: which derivation edges a set of changed documents makes due for review. */
module Clocks {
  import opened Base
  import opened EdgeTypes

  /** A change signal that falls below this strength goes no further. */
  const PATH_STRENGTH_FLOOR: real := 0.1

  datatype DueEdge = DueEdge(fromPath: Path, toPath: Path, strength: real)

  function Key(e: DerivesFromEdge): (Path, Path) {
    (e.fromPath, e.toPath)
  }

  function DueKey(d: DueEdge): (Path, Path) {
    (d.fromPath, d.toPath)
  }

  function AsDue(e: DerivesFromEdge): DueEdge {
    DueEdge(e.fromPath, e.toPath, e.strength)
  }

  /** Revoked edges and edges whose direction is unconfirmed bear no triggers. */
  predicate Carries(e: DerivesFromEdge) {
    !e.status.Revoked? && !e.directionVerdict.Symmetric?
  }

  /** Edge strength as an attenuation in [0,1]. */
  function Factor(e: DerivesFromEdge): (f: real)
    ensures 0.0 <= f <= 1.0
  {
    var scaled := e.strength / (K_CAP as real);
    if scaled < 0.0 then 0.0 else if scaled > 1.0 then 1.0 else scaled
  }

  /** What is left of a signal of strength `p` after it crosses `e`. */
  function Attenuated(p: real, e: DerivesFromEdge): (q: real)
    requires 0.0 <= p
    ensures 0.0 <= q <= p
  {
    p * Factor(e)
  }

  lemma AttenuatedMonotone(p: real, q: real, e: DerivesFromEdge)
    requires 0.0 <= p <= q
    ensures Attenuated(p, e) <= Attenuated(q, e)
  {
  }

  // ----- specification: trails, and the edges they make due

  /** `w` leads from a changed document to `v`, every hop from a premise to its dependent. */
  ghost predicate Trail(changed: seq<Path>, edges: seq<DerivesFromEdge>, w: seq<DerivesFromEdge>, v: Path) {
    if w == [] then v in changed
    else
      var e := w[|w| - 1];
      e in edges && Carries(e) && e.fromPath == v && Trail(changed, edges, w[..|w| - 1], e.toPath)
  }

  ghost function Product(w: seq<DerivesFromEdge>): (p: real)
    ensures 0.0 <= p <= 1.0
  {
    if w == [] then 1.0 else Attenuated(Product(w[..|w| - 1]), w[|w| - 1])
  }

  /** `e` is due: over some trail to its premise, the signal still reaches the floor after `e`. */
  ghost predicate IsDue(changed: seq<Path>, edges: seq<DerivesFromEdge>, e: DerivesFromEdge) {
    e in edges && Carries(e) &&
    exists w :: Trail(changed, edges, w, e.toPath) && Attenuated(Product(w), e) >= PATH_STRENGTH_FLOOR
  }

  /** What is due depends on which documents changed and which edges exist, never on their order. */
  lemma OrderIrrelevant(changed: seq<Path>, edges: seq<DerivesFromEdge>,
                        changed': seq<Path>, edges': seq<DerivesFromEdge>, e: DerivesFromEdge)
    requires ToSet(changed) == ToSet(changed') && ToSet(edges) == ToSet(edges')
    ensures IsDue(changed, edges, e) <==> IsDue(changed', edges', e)
  {
    forall w, v ensures Trail(changed, edges, w, v) <==> Trail(changed', edges', w, v) {
      SameTrails(changed, edges, changed', edges', w, v);
    }
    assert e in edges <==> e in ToSet(edges);
    assert e in edges' <==> e in ToSet(edges');
  }

  lemma {:induction false} SameTrails(changed: seq<Path>, edges: seq<DerivesFromEdge>, changed': seq<Path>,
                                      edges': seq<DerivesFromEdge>, w: seq<DerivesFromEdge>, v: Path)
    requires ToSet(changed) == ToSet(changed') && ToSet(edges) == ToSet(edges')
    ensures Trail(changed, edges, w, v) <==> Trail(changed', edges', w, v)
  {
    assert v in ToSet(changed) <==> v in changed;
    assert v in ToSet(changed') <==> v in changed';
    if w != [] {
      var e := w[|w| - 1];
      assert e in ToSet(edges) <==> e in edges;
      assert e in ToSet(edges') <==> e in edges';
      SameTrails(changed, edges, changed', edges', w[..|w| - 1], e.toPath);
    }
  }

  // ----- what being due means, told from the strengths

  /** With its premise changed, an edge is due exactly when it is live, directed and at least half a vote strong. */
  lemma DirectlyDue(changed: seq<Path>, edges: seq<DerivesFromEdge>, e: DerivesFromEdge)
    requires e.toPath in changed
    ensures IsDue(changed, edges, e) <==>
      && e in edges && !e.status.Revoked? && !e.directionVerdict.Symmetric?
      && e.strength >= PATH_STRENGTH_FLOOR * K_CAP as real
  {
    assert Trail(changed, edges, [], e.toPath) && Attenuated(Product([]), e) == Factor(e);
    forall w ensures Attenuated(Product(w), e) <= Factor(e) {
      AttenuatedMonotone(Product(w), 1.0, e);
    }
  }

  /** `w` is a chain of live, directed edges from a changed premise, each hop from a dependent to what derives from it. */
  ghost predicate IsChain(changed: seq<Path>, edges: seq<DerivesFromEdge>, w: seq<DerivesFromEdge>) {
    && w != [] && w[0].toPath in changed
    && (forall i :: 0 <= i < |w| ==> w[i] in edges && !w[i].status.Revoked? && !w[i].directionVerdict.Symmetric?)
    && (forall i :: 0 < i < |w| ==> w[i].toPath == w[i - 1].fromPath)
  }

  ghost predicate InRange(w: seq<DerivesFromEdge>) {
    forall e :: e in w ==> 0.0 <= e.strength <= K_CAP as real
  }

  /** The product of the edges' shares of full strength. */
  ghost function Shares(w: seq<DerivesFromEdge>): real {
    if w == [] then 1.0 else Shares(w[..|w| - 1]) * (w[|w| - 1].strength / 5.0)
  }

  lemma {:induction false} SharesAreProduct(w: seq<DerivesFromEdge>)
    requires InRange(w)
    ensures Product(w) == Shares(w)
  {
    if w != [] {
      SharesAreProduct(w[..|w| - 1]);
      ShareIsFactor(w[|w| - 1]);
    }
  }

  lemma ShareIsFactor(e: DerivesFromEdge)
    requires 0.0 <= e.strength <= K_CAP as real
    ensures Factor(e) == e.strength / 5.0
  {
  }

  lemma {:induction false} TrailIsChain(changed: seq<Path>, edges: seq<DerivesFromEdge>, w: seq<DerivesFromEdge>)
    requires w != []
    ensures IsChain(changed, edges, w) <==> Trail(changed, edges, w, w[|w| - 1].fromPath)
  {
    var n := |w| - 1;
    if n > 0 {
      TrailIsChain(changed, edges, w[..n]);
      if IsChain(changed, edges, w) {
        assert w[n].toPath == w[n - 1].fromPath;
      }
      if Trail(changed, edges, w, w[n].fromPath) {
        TrailEndsAt(changed, edges, w[..n], w[n].toPath);
      }
    } else {
      assert w[..n] == [];
    }
  }

  lemma TrailEndsAt(changed: seq<Path>, edges: seq<DerivesFromEdge>, w: seq<DerivesFromEdge>, v: Path)
    requires w != [] && Trail(changed, edges, w, v)
    ensures v == w[|w| - 1].fromPath
  {
  }

  ghost predicate BringsDue(changed: seq<Path>, edges: seq<DerivesFromEdge>, e: DerivesFromEdge, w: seq<DerivesFromEdge>) {
    IsChain(changed, edges, w) && w[|w| - 1] == e && Shares(w) >= PATH_STRENGTH_FLOOR
  }

  /** An edge is due exactly when it ends a chain from a changed document along which the shares of full strength
      still multiply to the floor. */
  lemma DueExactly(changed: seq<Path>, edges: seq<DerivesFromEdge>, e: DerivesFromEdge)
    requires InRange(edges)
    ensures IsDue(changed, edges, e) <==> exists w :: BringsDue(changed, edges, e, w)
  {
    if IsDue(changed, edges, e) {
      var w :| Trail(changed, edges, w, e.toPath) && Attenuated(Product(w), e) >= PATH_STRENGTH_FLOOR;
      var w' := w + [e];
      assert w'[..|w|] == w;
      TrailIsChain(changed, edges, w');
      SharesAreProduct(w');
      assert BringsDue(changed, edges, e, w');
    }
    if w :| BringsDue(changed, edges, e, w) {
      TrailIsChain(changed, edges, w);
      SharesAreProduct(w);
      assert w[|w| - 1] in edges;
    }
  }

  function Raised(e: DerivesFromEdge, x: DerivesFromEdge, strength: real): DerivesFromEdge {
    if x == e then e.(strength := strength) else x
  }

  /** A stronger edge makes no other edge less due, nor itself. */
  lemma RaisingKeepsDue(changed: seq<Path>, edges: seq<DerivesFromEdge>, e: DerivesFromEdge, strength: real,
                        edges': seq<DerivesFromEdge>, d: DerivesFromEdge)
    requires strength >= e.strength
    requires forall x :: x in edges ==> Raised(e, x, strength) in edges'
    requires IsDue(changed, edges, d)
    ensures IsDue(changed, edges', Raised(e, d, strength))
  {
    var w :| Trail(changed, edges, w, d.toPath) && Attenuated(Product(w), d) >= PATH_STRENGTH_FLOOR;
    var w' := RaisedTrail(changed, edges, e, strength, edges', w, d.toPath);
    RaisedAttenuates(Product(w), Product(w'), e, d, strength);
    assert Attenuated(Product(w'), Raised(e, d, strength)) >= PATH_STRENGTH_FLOOR;
  }

  lemma RaisedAttenuates(p: real, q: real, e: DerivesFromEdge, x: DerivesFromEdge, strength: real)
    requires strength >= e.strength && 0.0 <= p <= q
    ensures Attenuated(p, x) <= Attenuated(q, Raised(e, x, strength))
  {
    ProductsGrow(p, q, Factor(x), Factor(Raised(e, x, strength)));
  }

  lemma ProductsGrow(p: real, q: real, f: real, f': real)
    requires 0.0 <= p <= q && 0.0 <= f <= f'
    ensures p * f <= q * f'
  {
    assert p * f <= q * f;
    assert q * f <= q * f';
  }

  lemma {:induction false} RaisedTrail(changed: seq<Path>, edges: seq<DerivesFromEdge>, e: DerivesFromEdge, strength: real,
                                       edges': seq<DerivesFromEdge>, w: seq<DerivesFromEdge>, v: Path)
    returns (w': seq<DerivesFromEdge>)
    requires strength >= e.strength
    requires forall x :: x in edges ==> Raised(e, x, strength) in edges'
    requires Trail(changed, edges, w, v)
    ensures Trail(changed, edges', w', v) && Product(w') >= Product(w)
  {
    if w == [] {
      return [];
    }
    var front, last := w[..|w| - 1], w[|w| - 1];
    var front' := RaisedTrail(changed, edges, e, strength, edges', front, last.toPath);
    w' := front' + [Raised(e, last, strength)];
    assert w'[..|front'|] == front';
    RaisedAttenuates(Product(front), Product(front'), e, last, strength);
  }

  // ----- the worklist and its history

  datatype Item = Item(path: Path, product: real)

  /** How a worklist entry came to be: level 0 for a changed document, otherwise pushed by
      relaxing edge number `via` while expanding entry number `parent`. */
  datatype Origin = Origin(parent: nat, via: nat, level: nat)

  ghost predicate OriginOk(changed: seq<Path>, edges: seq<DerivesFromEdge>, queue: seq<Item>, info: seq<Origin>, k: nat)
    requires |queue| == |info| && k < |queue|
  {
    var o := info[k];
    if o.level == 0 then queue[k].path in changed && queue[k].product == 1.0
    else
      && o.parent < k && o.via < |edges|
      && Carries(edges[o.via])
      && edges[o.via].toPath == queue[o.parent].path
      && edges[o.via].fromPath == queue[k].path
      && 0.0 <= queue[o.parent].product
      && queue[k].product == Attenuated(queue[o.parent].product, edges[o.via])
      && o.level == info[o.parent].level + 1
  }

  ghost predicate History(changed: seq<Path>, edges: seq<DerivesFromEdge>, queue: seq<Item>, info: seq<Origin>) {
    && |queue| == |info|
    && (forall k :: 0 <= k < |queue| ==> OriginOk(changed, edges, queue, info, k))
    && (forall k :: 0 <= k < |queue| ==> queue[k].product >= PATH_STRENGTH_FLOOR)
    && (forall i, j :: 0 <= i < j < |queue| ==> info[i].level <= info[j].level)
    && (forall i, j :: 0 <= i < j < |queue| && queue[i].path == queue[j].path ==> queue[i].product < queue[j].product)
  }

  /** The edge numbers an entry's signal crossed. */
  ghost function Chain(changed: seq<Path>, edges: seq<DerivesFromEdge>, queue: seq<Item>, info: seq<Origin>, k: nat): (c: seq<nat>)
    requires History(changed, edges, queue, info) && k < |queue|
    ensures |c| == info[k].level
    ensures forall x :: x in c ==> x < |edges|
    decreases k
  {
    assert OriginOk(changed, edges, queue, info, k);
    if info[k].level == 0 then []
    else Chain(changed, edges, queue, info, info[k].parent) + [info[k].via]
  }

  /** Every edge on an entry's chain was crossed by an earlier entry that was at least as strong. */
  lemma {:induction false} ChainAncestors(changed: seq<Path>, edges: seq<DerivesFromEdge>, queue: seq<Item>,
                                          info: seq<Origin>, k: nat, x: nat)
    returns (a: nat)
    requires History(changed, edges, queue, info) && k < |queue|
    requires x in Chain(changed, edges, queue, info, k)
    ensures a <= k && x < |edges| && queue[a].path == edges[x].fromPath && queue[a].product >= queue[k].product
    decreases k
  {
    assert OriginOk(changed, edges, queue, info, k);
    if info[k].via == x {
      a := k;
    } else {
      a := ChainAncestors(changed, edges, queue, info, info[k].parent, x);
    }
  }

  /** A signal never crosses an edge twice: the second crossing could not have been an improvement. */
  lemma {:induction false} ChainDistinct(changed: seq<Path>, edges: seq<DerivesFromEdge>, queue: seq<Item>,
                                         info: seq<Origin>, k: nat)
    requires History(changed, edges, queue, info) && k < |queue|
    ensures Distinct(Chain(changed, edges, queue, info, k))
    decreases k
  {
    assert OriginOk(changed, edges, queue, info, k);
    if info[k].level > 0 {
      var p := info[k].parent;
      ChainDistinct(changed, edges, queue, info, p);
      if info[k].via in Chain(changed, edges, queue, info, p) {
        var a := ChainAncestors(changed, edges, queue, info, p, info[k].via);
        assert false;
      }
    }
  }

  /** Hence no entry lies deeper than there are edges. */
  lemma LevelBound(changed: seq<Path>, edges: seq<DerivesFromEdge>, queue: seq<Item>, info: seq<Origin>, k: nat)
    requires History(changed, edges, queue, info) && k < |queue|
    ensures info[k].level <= |edges|
  {
    ChainDistinct(changed, edges, queue, info, k);
    Pigeonhole(Chain(changed, edges, queue, info, k), |edges|);
  }

  /** And an entry's product is the product of a trail to its document. */
  lemma {:induction false} ChainTrail(changed: seq<Path>, edges: seq<DerivesFromEdge>, queue: seq<Item>,
                                      info: seq<Origin>, k: nat)
    returns (w: seq<DerivesFromEdge>)
    requires History(changed, edges, queue, info) && k < |queue|
    ensures Trail(changed, edges, w, queue[k].path) && Product(w) == queue[k].product
    decreases k
  {
    assert OriginOk(changed, edges, queue, info, k);
    if info[k].level == 0 {
      w := [];
    } else {
      var w' := ChainTrail(changed, edges, queue, info, info[k].parent);
      w := w' + [edges[info[k].via]];
      assert w[..|w| - 1] == w';
    }
  }

  /** No edge is crossed twice at the same level. */
  ghost predicate OncePerLevel(info: seq<Origin>, seeds: nat) {
    && seeds <= |info|
    && (forall k :: 0 <= k < |info| ==> (k < seeds <==> info[k].level == 0))
    && (forall i, j :: seeds <= i < j < |info| ==> info[i].level != info[j].level || info[i].via != info[j].via)
  }

  /** The worklist as a whole never outgrows its seeds plus one push per edge and level. */
  lemma QueueBound(changed: seq<Path>, edges: seq<DerivesFromEdge>, queue: seq<Item>, info: seq<Origin>, seeds: nat)
    requires History(changed, edges, queue, info) && OncePerLevel(info, seeds)
    ensures |queue| <= seeds + |edges| * |edges|
  {
    forall k | seeds <= k < |info| ensures 1 <= info[k].level <= |edges| && info[k].via < |edges| {
      LevelBound(changed, edges, queue, info, k);
      assert OriginOk(changed, edges, queue, info, k);
    }
    var crossings := seq(|info| - seeds, i requires 0 <= i < |info| - seeds && 1 <= info[seeds + i].level =>
      ((info[seeds + i].level - 1) as nat, info[seeds + i].via));
    PairPigeonhole(crossings, |edges|, |edges|);
  }

  // ----- what the loop maintains

  /** Every entry is dominated by the best known product, which some entry attains. */
  ghost predicate BestKnown(queue: seq<Item>, best: map<Path, real>) {
    && (forall k :: 0 <= k < |queue| ==> queue[k].path in best && queue[k].product <= best[queue[k].path])
    && (forall v :: v in best ==> exists k :: 0 <= k < |queue| && queue[k] == Item(v, best[v]))
  }

  /** Entries pushed after an expansion of their document lie on a deeper level. */
  ghost predicate FreshAfter(queue: seq<Item>, info: seq<Origin>, expanded: set<nat>)
    requires |queue| == |info|
  {
    && (forall i :: i in expanded ==> i < |queue|)
    && (forall i, j :: i in expanded && i < j < |queue| && queue[i].path == queue[j].path ==> info[i].level < info[j].level)
    && (forall k :: 0 <= k < |info| && info[k].level > 0 ==> info[k].parent in expanded)
  }

  /** Entries before `head` were expanded, unless a later entry for the same document supersedes them. */
  ghost predicate StaleOrExpanded(queue: seq<Item>, expanded: set<nat>, head: nat) {
    forall i :: 0 <= i < head && i < |queue| && i !in expanded ==>
      exists j :: i < j < |queue| && queue[i].path == queue[j].path
  }

  /** Edge `e` has been relaxed with a signal of strength `p` at its premise. */
  ghost predicate Relaxed(p: real, e: DerivesFromEdge, best: map<Path, real>, due: seq<DueEdge>) {
    p >= 0.0 && Attenuated(p, e) >= PATH_STRENGTH_FLOOR ==>
      && e.fromPath in best && best[e.fromPath] >= Attenuated(p, e)
      && exists d :: d in due && DueKey(d) == Key(e)
  }

  ghost predicate Settled(edges: seq<DerivesFromEdge>, item: Item, best: map<Path, real>, due: seq<DueEdge>) {
    forall e :: e in edges && Carries(e) && e.toPath == item.path ==> Relaxed(item.product, e, best, due)
  }

  ghost predicate DueSound(changed: seq<Path>, edges: seq<DerivesFromEdge>, due: seq<DueEdge>) {
    && (forall d :: d in due ==> exists e :: IsDue(changed, edges, e) && d == AsDue(e))
    && (forall i, j :: 0 <= i < j < |due| ==> DueKey(due[i]) != DueKey(due[j]))
  }

  ghost predicate Worklist(changed: seq<Path>, edges: seq<DerivesFromEdge>, queue: seq<Item>, info: seq<Origin>,
                           seeds: nat, best: map<Path, real>, expanded: set<nat>) {
    && History(changed, edges, queue, info)
    && OncePerLevel(info, seeds)
    && BestKnown(queue, best)
    && FreshAfter(queue, info, expanded)
  }

  /** The entry pushed when edge number `via` improves on what was known, from entry number `h`. */
  ghost function Pushed(edges: seq<DerivesFromEdge>, queue: seq<Item>, h: nat, via: nat): Item
    requires h < |queue| && via < |edges| && queue[h].product >= 0.0
  {
    Item(edges[via].fromPath, Attenuated(queue[h].product, edges[via]))
  }

  /** Expanding entry `h` is about to push over edge number `via`, for the first time and as an improvement. */
  ghost predicate MayPush(changed: seq<Path>, edges: seq<DerivesFromEdge>, queue: seq<Item>, info: seq<Origin>,
                          seeds: nat, best: map<Path, real>, expanded: set<nat>, h: nat, via: nat) {
    && Worklist(changed, edges, queue, info, seeds, best, expanded)
    && h in expanded && (forall i :: i in expanded ==> i <= h)
    && via < |edges| && Carries(edges[via]) && edges[via].toPath == queue[h].path
    && Attenuated(queue[h].product, edges[via]) >= PATH_STRENGTH_FLOOR
    && (edges[via].fromPath in best ==> Attenuated(queue[h].product, edges[via]) > best[edges[via].fromPath])
    && (forall k :: 0 <= k < |info| && info[k].level > 0 && info[k].parent == h ==> info[k].via != via)
  }

  lemma PushBoundsLevels(changed: seq<Path>, edges: seq<DerivesFromEdge>, queue: seq<Item>, info: seq<Origin>,
                         seeds: nat, best: map<Path, real>, expanded: set<nat>, h: nat, via: nat)
    requires MayPush(changed, edges, queue, info, seeds, best, expanded, h, via)
    ensures forall k :: 0 <= k < |info| ==> info[k].level <= info[h].level + 1
  {
    forall k | 0 <= k < |queue| ensures info[k].level <= info[h].level + 1 {
      assert OriginOk(changed, edges, queue, info, k);
    }
  }

  lemma PushKeepsHistory(changed: seq<Path>, edges: seq<DerivesFromEdge>, queue: seq<Item>, info: seq<Origin>,
                         seeds: nat, best: map<Path, real>, expanded: set<nat>, h: nat, via: nat)
    requires MayPush(changed, edges, queue, info, seeds, best, expanded, h, via)
    ensures History(changed, edges, queue + [Pushed(edges, queue, h, via)], info + [Origin(h, via, info[h].level + 1)])
  {
    PushBoundsLevels(changed, edges, queue, info, seeds, best, expanded, h, via);
    var queue', info' := queue + [Pushed(edges, queue, h, via)], info + [Origin(h, via, info[h].level + 1)];
    forall k | 0 <= k < |queue'| ensures OriginOk(changed, edges, queue', info', k) {
      if k < |queue| {
        assert OriginOk(changed, edges, queue, info, k);
      }
    }
  }

  lemma PushKeepsOncePerLevel(changed: seq<Path>, edges: seq<DerivesFromEdge>, queue: seq<Item>, info: seq<Origin>,
                              seeds: nat, best: map<Path, real>, expanded: set<nat>, h: nat, via: nat)
    requires MayPush(changed, edges, queue, info, seeds, best, expanded, h, via)
    ensures OncePerLevel(info + [Origin(h, via, info[h].level + 1)], seeds)
  {
    forall k | seeds <= k < |info| ensures info[k].level != info[h].level + 1 || info[k].via != via {
      assert OriginOk(changed, edges, queue, info, k);
    }
  }

  lemma PushKeepsBest(changed: seq<Path>, edges: seq<DerivesFromEdge>, queue: seq<Item>, info: seq<Origin>,
                      seeds: nat, best: map<Path, real>, expanded: set<nat>, h: nat, via: nat)
    requires MayPush(changed, edges, queue, info, seeds, best, expanded, h, via)
    ensures
      var item := Pushed(edges, queue, h, via);
      BestKnown(queue + [item], best[item.path := item.product])
  {
    var item := Pushed(edges, queue, h, via);
    var queue', best' := queue + [item], best[item.path := item.product];
    forall v | v in best' ensures exists k :: 0 <= k < |queue'| && queue'[k] == Item(v, best'[v]) {
      if v == item.path {
        assert queue'[|queue|] == item;
      } else {
        var k :| 0 <= k < |queue| && queue[k] == Item(v, best[v]);
        assert queue'[k] == queue[k];
      }
    }
  }

  lemma PushKeepsFresh(changed: seq<Path>, edges: seq<DerivesFromEdge>, queue: seq<Item>, info: seq<Origin>,
                       seeds: nat, best: map<Path, real>, expanded: set<nat>, h: nat, via: nat)
    requires MayPush(changed, edges, queue, info, seeds, best, expanded, h, via)
    ensures FreshAfter(queue + [Pushed(edges, queue, h, via)], info + [Origin(h, via, info[h].level + 1)], expanded)
  {
    forall i | i in expanded ensures i <= h && info[i].level <= info[h].level {
    }
  }

  /** Pushing an improvement found while expanding entry `h` keeps the worklist in order. */
  lemma PushKeepsWorklist(changed: seq<Path>, edges: seq<DerivesFromEdge>, queue: seq<Item>, info: seq<Origin>,
                          seeds: nat, best: map<Path, real>, expanded: set<nat>, h: nat, via: nat)
    requires MayPush(changed, edges, queue, info, seeds, best, expanded, h, via)
    ensures
      var item := Pushed(edges, queue, h, via);
      Worklist(changed, edges, queue + [item], info + [Origin(h, via, info[h].level + 1)], seeds,
               best[item.path := item.product], expanded)
  {
    PushKeepsHistory(changed, edges, queue, info, seeds, best, expanded, h, via);
    PushKeepsOncePerLevel(changed, edges, queue, info, seeds, best, expanded, h, via);
    PushKeepsBest(changed, edges, queue, info, seeds, best, expanded, h, via);
    PushKeepsFresh(changed, edges, queue, info, seeds, best, expanded, h, via);
  }

  // ----- a drained worklist is complete

  ghost predicate Drained(changed: seq<Path>, edges: seq<DerivesFromEdge>, queue: seq<Item>,
                          best: map<Path, real>, due: seq<DueEdge>) {
    && BestKnown(queue, best)
    && (forall k :: 0 <= k < |queue| ==> queue[k].product >= 0.0)
    && (forall p :: p in changed ==> p in best && best[p] >= 1.0)
    && (forall v :: v in best ==> Settled(edges, Item(v, best[v]), best, due))
  }

  /** No trail beats the best known product of its document. */
  lemma {:induction false} TrailsAreDominated(changed: seq<Path>, edges: seq<DerivesFromEdge>, queue: seq<Item>,
                                              best: map<Path, real>, due: seq<DueEdge>, w: seq<DerivesFromEdge>, v: Path)
    requires Drained(changed, edges, queue, best, due)
    requires Trail(changed, edges, w, v) && Product(w) >= PATH_STRENGTH_FLOOR
    ensures v in best && best[v] >= Product(w)
  {
    if w != [] {
      var e, w' := w[|w| - 1], w[..|w| - 1];
      TrailsAreDominated(changed, edges, queue, best, due, w', e.toPath);
      assert Settled(edges, Item(e.toPath, best[e.toPath]), best, due);
      AttenuatedMonotone(Product(w'), best[e.toPath], e);
    }
  }

  lemma DueEdgesAreFound(changed: seq<Path>, edges: seq<DerivesFromEdge>, queue: seq<Item>,
                         best: map<Path, real>, due: seq<DueEdge>, e: DerivesFromEdge)
    requires Drained(changed, edges, queue, best, due)
    requires IsDue(changed, edges, e)
    ensures exists d :: d in due && DueKey(d) == Key(e)
  {
    var w :| Trail(changed, edges, w, e.toPath) && Attenuated(Product(w), e) >= PATH_STRENGTH_FLOOR;
    TrailsAreDominated(changed, edges, queue, best, due, w, e.toPath);
    assert Settled(edges, Item(e.toPath, best[e.toPath]), best, due);
    AttenuatedMonotone(Product(w), best[e.toPath], e);
  }

  /** Once every entry is stale or expanded, each document's best entry is an expanded one. */
  lemma BestEntriesAreExpanded(changed: seq<Path>, edges: seq<DerivesFromEdge>, queue: seq<Item>, info: seq<Origin>,
                               best: map<Path, real>, expanded: set<nat>, v: Path)
    returns (k: nat)
    requires History(changed, edges, queue, info) && BestKnown(queue, best)
    requires StaleOrExpanded(queue, expanded, |queue|)
    requires v in best
    ensures k in expanded && k < |queue| && queue[k] == Item(v, best[v])
  {
    k :| 0 <= k < |queue| && queue[k] == Item(v, best[v]);
    assert forall j :: k < j < |queue| ==> queue[j].path != queue[k].path;
  }

  /** The live edges grouped by premise, as positions in `edges`, in input order. */
  ghost predicate Grouped(edges: seq<DerivesFromEdge>, n: nat, byPremise: map<Path, seq<nat>>) {
    && n <= |edges|
    && (forall v :: v in byPremise ==>
        && (forall t :: 0 <= t < |byPremise[v]| ==>
              byPremise[v][t] < n && Carries(edges[byPremise[v][t]]) && edges[byPremise[v][t]].toPath == v)
        && (forall s, t :: 0 <= s < t < |byPremise[v]| ==> byPremise[v][s] < byPremise[v][t]))
    && (forall x :: 0 <= x < n && Carries(edges[x]) ==>
          edges[x].toPath in byPremise && x in byPremise[edges[x].toPath])
  }

  method GroupByPremise(edges: seq<DerivesFromEdge>) returns (byPremise: map<Path, seq<nat>>)
    ensures Grouped(edges, |edges|, byPremise)
  {
    byPremise := map[];
    for x: nat := 0 to |edges|
      invariant Grouped(edges, x, byPremise)
    {
      var e := edges[x];
      if !Carries(e) {
        continue;
      }
      var list := if e.toPath in byPremise then byPremise[e.toPath] else [];
      byPremise := byPremise[e.toPath := list + [x]];
    }
  }

  lemma SeedKeepsHistory(changed: seq<Path>, edges: seq<DerivesFromEdge>, queue: seq<Item>, info: seq<Origin>,
                         best: map<Path, real>, p: Path)
    requires Worklist(changed, edges, queue, info, |queue|, best, {})
    requires p in changed && p !in best
    ensures History(changed, edges, queue + [Item(p, 1.0)], info + [Origin(0, 0, 0)])
  {
    var queue', info' := queue + [Item(p, 1.0)], info + [Origin(0, 0, 0)];
    forall k | 0 <= k < |queue'| ensures OriginOk(changed, edges, queue', info', k) {
      if k < |queue| {
        assert OriginOk(changed, edges, queue, info, k);
      }
    }
  }

  lemma SeedKeepsBest(queue: seq<Item>, best: map<Path, real>, p: Path)
    requires BestKnown(queue, best) && p !in best
    ensures BestKnown(queue + [Item(p, 1.0)], best[p := 1.0])
  {
    var queue', best' := queue + [Item(p, 1.0)], best[p := 1.0];
    forall v | v in best' ensures exists k :: 0 <= k < |queue'| && queue'[k] == Item(v, best'[v]) {
      if v == p {
        assert queue'[|queue|] == Item(p, 1.0);
      } else {
        var k :| 0 <= k < |queue| && queue[k] == Item(v, best[v]);
        assert queue'[k] == queue[k];
      }
    }
  }

  /** Seeds the worklist with the changed documents, each once. */
  method Seed(changed: seq<Path>, ghost edges: seq<DerivesFromEdge>)
    returns (queue: seq<Item>, best: map<Path, real>, ghost info: seq<Origin>)
    ensures Worklist(changed, edges, queue, info, |queue|, best, {})
    ensures |queue| <= |changed|
    ensures forall p :: p in changed ==> p in best && best[p] >= 1.0
  {
    queue, best, info := [], map[], [];
    for n := 0 to |changed|
      invariant Worklist(changed, edges, queue, info, |queue|, best, {})
      invariant |queue| <= n
      invariant forall v :: v in best ==> best[v] == 1.0
      invariant forall k :: 0 <= k < n ==> changed[k] in best
    {
      var p := changed[n];
      if p !in best || best[p] < 1.0 {
        SeedKeepsHistory(changed, edges, queue, info, best, p);
        SeedKeepsBest(queue, best, p);
        best := best[p := 1.0];
        queue := queue + [Item(p, 1.0)];
        info := info + [Origin(0, 0, 0)];
      }
    }
  }

  /** Relaxing more edges only ever raises what is known, so nothing already settled comes undone. */
  ghost predicate Grows(best: map<Path, real>, due: seq<DueEdge>, best': map<Path, real>, due': seq<DueEdge>) {
    && (forall v :: v in best ==> v in best' && best'[v] >= best[v])
    && (forall d :: d in due ==> d in due')
  }

  lemma DueStaysSound(changed: seq<Path>, edges: seq<DerivesFromEdge>, due: seq<DueEdge>, e: DerivesFromEdge)
    requires DueSound(changed, edges, due) && IsDue(changed, edges, e)
    requires forall d :: d in due ==> DueKey(d) != Key(e)
    ensures DueSound(changed, edges, due + [AsDue(e)])
  {
    assert forall i :: 0 <= i < |due| ==> due[i] in due;
  }

  /** Relaxes edge number `via` while entry `h` is being expanded: the body of the inner loop. */
  method Relax(changed: seq<Path>, edges: seq<DerivesFromEdge>, via: nat, ghost h: nat, item: Item,
               queue0: seq<Item>, best0: map<Path, real>, due0: seq<DueEdge>,
               ghost info0: seq<Origin>, ghost seeds: nat, ghost expanded: set<nat>)
    returns (queue: seq<Item>, best: map<Path, real>, due: seq<DueEdge>, ghost info: seq<Origin>)
    requires Worklist(changed, edges, queue0, info0, seeds, best0, expanded)
    requires h in expanded && (forall i :: i in expanded ==> i <= h) && queue0[h] == item
    requires forall k :: 0 <= k < |info0| && info0[k].level > 0 && info0[k].parent == h ==> info0[k].via != via
    requires via < |edges| && Carries(edges[via]) && edges[via].toPath == item.path
    requires DueSound(changed, edges, due0)
    ensures Worklist(changed, edges, queue, info, seeds, best, expanded)
    ensures queue0 <= queue && Grows(best0, due0, best, due)
    ensures info == info0 || info == info0 + [Origin(h, via, info0[h].level + 1)]
    ensures DueSound(changed, edges, due)
    ensures Relaxed(item.product, edges[via], best, due)
  {
    queue, best, due, info := queue0, best0, due0, info0;
    var e := edges[via];
    var carried := Attenuated(item.product, e);
    if carried < PATH_STRENGTH_FLOOR {
      return;
    }
    if forall d :: d in due ==> DueKey(d) != Key(e) {
      ghost var trail := ChainTrail(changed, edges, queue0, info0, h);
      DueStaysSound(changed, edges, due, e);
      due := due + [AsDue(e)];
      assert due[|due| - 1] in due;
    }
    var known := if e.fromPath in best then best[e.fromPath] else 0.0;
    if carried > known {
      PushKeepsWorklist(changed, edges, queue, info, seeds, best, expanded, h, via);
      best := best[e.fromPath := carried];
      queue := queue + [Item(e.fromPath, carried)];
      info := info + [Origin(h, via, info[h].level + 1)];
    }
  }

  /** The expansion of entry `h` has not pushed over any of these edge numbers. */
  ghost predicate NotYetPushed(info: seq<Origin>, h: nat, vias: seq<nat>) {
    forall k :: 0 <= k < |info| && info[k].level > 0 && info[k].parent == h ==> info[k].via !in vias
  }

  lemma StaysRelaxed(p: real, e: DerivesFromEdge, best: map<Path, real>, due: seq<DueEdge>,
                     best': map<Path, real>, due': seq<DueEdge>)
    requires Relaxed(p, e, best, due) && Grows(best, due, best', due')
    ensures Relaxed(p, e, best', due')
  {
  }

  /** Relaxes every edge out of entry `h` of the worklist: the inner loop of the event clock. */
  method Expand(changed: seq<Path>, edges: seq<DerivesFromEdge>, outgoing: seq<nat>, ghost h: nat, item: Item,
                queue0: seq<Item>, best0: map<Path, real>, due0: seq<DueEdge>,
                ghost info0: seq<Origin>, ghost seeds: nat, ghost expanded: set<nat>)
    returns (queue: seq<Item>, best: map<Path, real>, due: seq<DueEdge>, ghost info: seq<Origin>)
    requires Worklist(changed, edges, queue0, info0, seeds, best0, expanded)
    requires h in expanded && (forall i :: i in expanded ==> i <= h) && queue0[h] == item
    requires forall k :: 0 <= k < |info0| && info0[k].level > 0 ==> info0[k].parent != h
    requires forall t :: 0 <= t < |outgoing| ==>
      outgoing[t] < |edges| && Carries(edges[outgoing[t]]) && edges[outgoing[t]].toPath == item.path
    requires forall s, t :: 0 <= s < t < |outgoing| ==> outgoing[s] < outgoing[t]
    requires DueSound(changed, edges, due0)
    ensures Worklist(changed, edges, queue, info, seeds, best, expanded)
    ensures queue0 <= queue && Grows(best0, due0, best, due)
    ensures DueSound(changed, edges, due)
    ensures forall t :: 0 <= t < |outgoing| ==> Relaxed(item.product, edges[outgoing[t]], best, due)
    ensures forall k :: 0 <= k < |info| && info[k].level > 0 ==> info[k].parent <= h
  {
    queue, best, due, info := queue0, best0, due0, info0;
    for t := 0 to |outgoing|
      invariant Worklist(changed, edges, queue, info, seeds, best, expanded)
      invariant queue0 <= queue && Grows(best0, due0, best, due)
      invariant NotYetPushed(info, h, outgoing[t..])
      invariant DueSound(changed, edges, due)
      invariant forall s :: 0 <= s < t ==> Relaxed(item.product, edges[outgoing[s]], best, due)
    {
      ghost var best1, due1 := best, due;
      queue, best, due, info :=
        Relax(changed, edges, outgoing[t], h, item, queue, best, due, info, seeds, expanded);
      forall s | 0 <= s < t ensures Relaxed(item.product, edges[outgoing[s]], best, due) {
        StaysRelaxed(item.product, edges[outgoing[s]], best1, due1, best, due);
      }
    }
  }

  lemma CurrentEntryIsLast(changed: seq<Path>, edges: seq<DerivesFromEdge>, queue: seq<Item>, info: seq<Origin>,
                           seeds: nat, best: map<Path, real>, expanded: set<nat>, h: nat)
    requires Worklist(changed, edges, queue, info, seeds, best, expanded)
    requires h < |queue| && queue[h].product >= best[queue[h].path]
    ensures Worklist(changed, edges, queue, info, seeds, best, expanded + {h})
    ensures forall j :: h < j < |queue| ==> queue[j].path != queue[h].path
  {
  }

  lemma StaleEntryIsSuperseded(changed: seq<Path>, edges: seq<DerivesFromEdge>, queue: seq<Item>, info: seq<Origin>,
                               best: map<Path, real>, h: nat)
    returns (j: nat)
    requires History(changed, edges, queue, info) && BestKnown(queue, best)
    requires h < |queue| && queue[h].product < best[queue[h].path]
    ensures h < j < |queue| && queue[j].path == queue[h].path
  {
    var v := queue[h].path;
    j :| 0 <= j < |queue| && queue[j] == Item(v, best[v]);
  }

  lemma StaysSettled(edges: seq<DerivesFromEdge>, item: Item, best: map<Path, real>, due: seq<DueEdge>,
                     best': map<Path, real>, due': seq<DueEdge>)
    requires Settled(edges, item, best, due) && Grows(best, due, best', due')
    ensures Settled(edges, item, best', due')
  {
    forall e | e in edges && Carries(e) && e.toPath == item.path ensures Relaxed(item.product, e, best', due') {
      StaysRelaxed(item.product, e, best, due, best', due');
    }
  }

  lemma ExpandedIsSettled(edges: seq<DerivesFromEdge>, byPremise: map<Path, seq<nat>>, outgoing: seq<nat>, item: Item,
                          best: map<Path, real>, due: seq<DueEdge>)
    requires Grouped(edges, |edges|, byPremise)
    requires outgoing == if item.path in byPremise then byPremise[item.path] else []
    requires forall t :: 0 <= t < |outgoing| ==> outgoing[t] < |edges|
    requires forall t :: 0 <= t < |outgoing| ==> Relaxed(item.product, edges[outgoing[t]], best, due)
    ensures Settled(edges, item, best, due)
  {
    forall e | e in edges && Carries(e) && e.toPath == item.path ensures Relaxed(item.product, e, best, due) {
      var x :| 0 <= x < |edges| && edges[x] == e;
      var t :| 0 <= t < |outgoing| && outgoing[t] == x;
    }
  }

  /** The state of the loop after `head` entries have been taken off the worklist. */
  ghost predicate Progress(changed: seq<Path>, edges: seq<DerivesFromEdge>, queue: seq<Item>, info: seq<Origin>,
                           seeds: nat, best: map<Path, real>, due: seq<DueEdge>, expanded: set<nat>, head: nat) {
    && head <= |queue|
    && Worklist(changed, edges, queue, info, seeds, best, expanded)
    && (forall i :: i in expanded ==> i < head)
    && StaleOrExpanded(queue, expanded, head)
    && (forall i :: i in expanded ==> Settled(edges, queue[i], best, due))
    && (forall p :: p in changed ==> p in best && best[p] >= 1.0)
    && DueSound(changed, edges, due)
  }

  lemma StaleAfterExpand(queue: seq<Item>, expanded: set<nat>, head: nat, queue': seq<Item>)
    requires StaleOrExpanded(queue, expanded, head) && head < |queue| && queue <= queue'
    ensures StaleOrExpanded(queue', expanded + {head}, head + 1)
  {
    forall i | 0 <= i < head && i !in expanded ensures exists j :: i < j < |queue'| && queue'[i].path == queue'[j].path {
      var j :| i < j < |queue| && queue[i].path == queue[j].path;
      assert queue'[j] == queue[j];
    }
  }

  lemma SettledAfterExpand(edges: seq<DerivesFromEdge>, queue: seq<Item>, best: map<Path, real>, due: seq<DueEdge>,
                           expanded: set<nat>, head: nat,
                           queue': seq<Item>, best': map<Path, real>, due': seq<DueEdge>)
    requires head < |queue| && queue <= queue' && Grows(best, due, best', due')
    requires forall i :: i in expanded ==> i < head && Settled(edges, queue[i], best, due)
    requires Settled(edges, queue[head], best', due')
    ensures forall i :: i in expanded + {head} ==> i < |queue'| && Settled(edges, queue'[i], best', due')
  {
    forall i | i in expanded ensures Settled(edges, queue'[i], best', due') {
      StaysSettled(edges, queue[i], best, due, best', due');
    }
  }

  /** Takes one entry off the worklist: the body of the outer loop. */
  method Step(changed: seq<Path>, edges: seq<DerivesFromEdge>, byPremise: map<Path, seq<nat>>, head: nat,
              queue0: seq<Item>, best0: map<Path, real>, due0: seq<DueEdge>,
              ghost info0: seq<Origin>, ghost seeds: nat, ghost expanded0: set<nat>)
    returns (queue: seq<Item>, best: map<Path, real>, due: seq<DueEdge>, ghost info: seq<Origin>, ghost expanded: set<nat>)
    requires Grouped(edges, |edges|, byPremise)
    requires Progress(changed, edges, queue0, info0, seeds, best0, due0, expanded0, head) && head < |queue0|
    ensures Progress(changed, edges, queue, info, seeds, best, due, expanded, head + 1)
  {
    queue, best, due, info, expanded := queue0, best0, due0, info0, expanded0;
    var item := queue[head];
    if item.product < best[item.path] {
      ghost var j := StaleEntryIsSuperseded(changed, edges, queue, info, best, head);
      return;
    }
    CurrentEntryIsLast(changed, edges, queue, info, seeds, best, expanded, head);
    expanded := expanded + {head};
    var outgoing := if item.path in byPremise then byPremise[item.path] else [];
    queue, best, due, info := Expand(changed, edges, outgoing, head, item, queue, best, due, info, seeds, expanded);
    ExpandedIsSettled(edges, byPremise, outgoing, item, best, due);
    StaleAfterExpand(queue0, expanded0, head, queue);
    SettledAfterExpand(edges, queue0, best0, due0, expanded0, head, queue, best, due);
  }

  lemma DrainedAtEnd(changed: seq<Path>, edges: seq<DerivesFromEdge>, queue: seq<Item>, info: seq<Origin>,
                     seeds: nat, best: map<Path, real>, due: seq<DueEdge>, expanded: set<nat>)
    requires Progress(changed, edges, queue, info, seeds, best, due, expanded, |queue|)
    ensures Drained(changed, edges, queue, best, due)
  {
    forall v | v in best ensures Settled(edges, Item(v, best[v]), best, due) {
      var k := BestEntriesAreExpanded(changed, edges, queue, info, best, expanded, v);
    }
  }

  /** The event clock.

      The result holds exactly the due edges, each (from, to) pair once. The expansion cap never
      decides it: the worklist drains within `|changed| + |edges|^2` expansions, short of the cap. */
  method EventDue(changed: seq<Path>, edges: seq<DerivesFromEdge>)
    returns (due: seq<DueEdge>, ghost expansionsMade: nat)
    ensures forall d :: d in due ==> exists e :: IsDue(changed, edges, e) && d == DueEdge(e.fromPath, e.toPath, e.strength)
    ensures forall e :: IsDue(changed, edges, e) ==> exists d :: d in due && DueKey(d) == Key(e)
    ensures forall i, j :: 0 <= i < j < |due| ==> DueKey(due[i]) != DueKey(due[j])
    ensures expansionsMade <= |changed| + |edges| * |edges|
  {
    var byPremise := GroupByPremise(edges);
    due := [];
    var queue, best;
    ghost var info, expanded: set<nat>;
    queue, best, info := Seed(changed, edges);
    ghost var seeds := |queue|;
    expanded := {};
    var maxExpansions := |edges| * |edges| + |edges| + |changed| + 16;
    var head, expansions := 0, 0;
    while head < |queue| && expansions < maxExpansions
      invariant head == expansions
      invariant Progress(changed, edges, queue, info, seeds, best, due, expanded, head)
      decreases maxExpansions - expansions
    {
      queue, best, due, info, expanded :=
        Step(changed, edges, byPremise, head, queue, best, due, info, seeds, expanded);
      head := head + 1;
      expansions := expansions + 1;
    }
    QueueBound(changed, edges, queue, info, seeds);
    expansionsMade := expansions;
    DrainedAtEnd(changed, edges, queue, info, seeds, best, due, expanded);
    forall e | IsDue(changed, edges, e) ensures exists d :: d in due && DueKey(d) == Key(e) {
      DueEdgesAreFound(changed, edges, queue, best, due, e);
    }
  }

  /** When no two edges join the same ordered pair, the result is exactly the due edges. */
  lemma DistinctKeysGiveExactResult(changed: seq<Path>, edges: seq<DerivesFromEdge>, due: seq<DueEdge>)
    requires forall e, f :: e in edges && f in edges && Key(e) == Key(f) ==> e == f
    requires forall d :: d in due ==> exists e :: IsDue(changed, edges, e) && d == AsDue(e)
    requires forall e :: IsDue(changed, edges, e) ==> exists d :: d in due && DueKey(d) == Key(e)
    ensures forall d :: d in due <==> exists e :: IsDue(changed, edges, e) && d == AsDue(e)
  {
    forall e | IsDue(changed, edges, e) ensures AsDue(e) in due {
      var d :| d in due && DueKey(d) == Key(e);
      var f :| IsDue(changed, edges, f) && d == AsDue(f);
      assert Key(f) == Key(e);
    }
  }
}

/** The loop guard as callers use it: each judged on the documents its caller can read, as they stood when the
    guard read them. */
module SupersedeRuns {
  import opened Base
  import opened Pointers
  import opened SupersedeChains

  /** The documents a caller can read. */
  function Seen(docs: seq<Write>, sees: Path -> bool): seq<Write> {
    if docs == [] then []
    else
      var last := docs[|docs| - 1];
      Seen(docs[..|docs| - 1], sees) + if sees(last.path) then [last] else []
  }

  /** Refuses edits that would close a loop, as far as the caller can see. */
  method RefuseSupersedeLoop(docs: seq<Write>, edits: seq<Write>, sees: Path -> bool, baseOf: Path -> Name)
    returns (refused: bool)
    ensures refused <==> Closes(Seen(docs, sees), edits, baseOf)
  {
    var visible: seq<Write> := [];
    for n := 0 to |docs|
      invariant visible == Seen(docs[..n], sees)
    {
      assert docs[..n + 1][..n] == docs[..n];
      if sees(docs[n].path) {
        visible := visible + [docs[n]];
      }
    }
    assert docs[..|docs|] == docs;
    refused := ClosesSupersedeLoop(visible, edits, baseOf);
  }

  // ----- what the caller's graph has in common with the vault's

  lemma PathsOfAppend(a: seq<Write>, b: seq<Write>, p: Path)
    ensures p in PathsOf(a + b) <==> p in PathsOf(a) || p in PathsOf(b)
  {
    if p in PathsOf(a) {
      var i :| 0 <= i < |a| && a[i].path == p;
      assert (a + b)[i].path == p;
    }
    if p in PathsOf(b) {
      var i :| 0 <= i < |b| && b[i].path == p;
      assert (a + b)[|a| + i].path == p;
    }
  }

  lemma {:induction false} SeenPaths(docs: seq<Write>, sees: Path -> bool, p: Path)
    ensures p in PathsOf(Seen(docs, sees)) <==> p in PathsOf(docs) && sees(p)
  {
    if docs != [] {
      var front, last := docs[..|docs| - 1], docs[|docs| - 1];
      SeenPaths(front, sees, p);
      assert docs == front + [last];
      PathsOfAppend(front, [last], p);
      PathsOfAppend(Seen(front, sees), if sees(last.path) then [last] else [], p);
      assert [last][0] == last;
    }
  }

  lemma {:induction false} SeenPointer(docs: seq<Write>, sees: Path -> bool, p: Path)
    requires sees(p)
    ensures LastPointer(Seen(docs, sees), p) == LastPointer(docs, p)
  {
    if docs != [] {
      var front, last := docs[..|docs| - 1], docs[|docs| - 1];
      SeenPointer(front, sees, p);
      if sees(last.path) {
        assert Seen(docs, sees)[..|Seen(docs, sees)| - 1] == Seen(front, sees);
      } else {
        assert Seen(docs, sees) == Seen(front, sees);
      }
    }
  }

  lemma {:induction false} EditedPointer(docs: seq<Write>, edits: seq<Write>, p: Path)
    requires p in PathsOf(edits)
    ensures LastPointer(docs + edits, p) == LastPointer(edits, p)
  {
    var front, last := edits[..|edits| - 1], edits[|edits| - 1];
    assert edits == front + [last] && (docs + edits)[..|docs + edits| - 1] == docs + front;
    if last.path != p {
      PathsOfAppend(front, [last], p);
      EditedPointer(docs, front, p);
    }
  }

  /** `p` is edited, or the caller sees it as it stood when it was read. */
  ghost predicate Current(since: seq<Write>, edits: seq<Write>, sees: Path -> bool, p: Path) {
    p in PathsOf(edits) || (sees(p) && p !in PathsOf(since))
  }

  lemma CurrentPointer(read: seq<Write>, since: seq<Write>, edits: seq<Write>, sees: Path -> bool, p: Path)
    requires Current(since, edits, sees, p)
    ensures LastPointer(Seen(read, sees) + edits, p) == LastPointer(read + since + edits, p)
  {
    if p in PathsOf(edits) {
      EditedPointer(Seen(read, sees), edits, p);
      EditedPointer(read + since, edits, p);
    } else {
      LastPointerUnedited(Seen(read, sees), edits, p);
      LastPointerUnedited(read + since, edits, p);
      LastPointerUnedited(read, since, p);
      SeenPointer(read, sees, p);
    }
  }

  lemma FewerPathsResolve(link: Link, paths: set<Path>, fewer: set<Path>, baseOf: Path -> Name, q: Path)
    requires fewer <= paths && q in fewer && ResolvesTo(link, paths, baseOf, q)
    ensures ResolvesTo(link, fewer, baseOf, q)
  {
  }

  /** A pointer between current documents resolves for the caller as it does in the vault. */
  lemma CurrentEdge(read: seq<Write>, since: seq<Write>, edits: seq<Write>, sees: Path -> bool, baseOf: Path -> Name,
                    p: Path, q: Path)
    requires HasEdge(read + since + edits, baseOf, p, q)
    requires Current(since, edits, sees, p) && Current(since, edits, sees, q)
    ensures HasEdge(Seen(read, sees) + edits, baseOf, p, q)
  {
    CurrentPointer(read, since, edits, sees, p);
    forall r ensures r in PathsOf(Seen(read, sees) + edits) <==> (r in PathsOf(read) && sees(r)) || r in PathsOf(edits) {
      PathsOfAppend(Seen(read, sees), edits, r);
      SeenPaths(read, sees, r);
    }
    forall r ensures r in PathsOf(read + since + edits) <==> r in PathsOf(read) || r in PathsOf(since) || r in PathsOf(edits) {
      PathsOfAppend(read + since, edits, r);
      PathsOfAppend(read, since, r);
    }
    FewerPathsResolve(LastPointer(read + since + edits, p).value, PathsOf(read + since + edits),
                      PathsOf(Seen(read, sees) + edits), baseOf, q);
  }

  lemma {:induction false} CurrentWalk(read: seq<Write>, since: seq<Write>, edits: seq<Write>, sees: Path -> bool,
                                       baseOf: Path -> Name, g: Graph, h: Graph, p: Path, n: nat)
    requires IsGraph(read + since + edits, baseOf, g) && IsGraph(Seen(read, sees) + edits, baseOf, h)
    requires At(g, p, n).Some?
    requires forall q :: Reaches(g, p, q) ==> Current(since, edits, sees, q)
    ensures At(h, p, n) == At(g, p, n)
  {
    if n > 0 {
      AtPrefix(g, p, n - 1, n);
      CurrentWalk(read, since, edits, sees, baseOf, g, h, p, n - 1);
      var u, v := At(g, p, n - 1).value, At(g, p, n).value;
      assert Reaches(g, p, u) && Reaches(g, p, v);
      assert PointsTo(g, u, v);
      CurrentEdge(read, since, edits, sees, baseOf, u, v);
      assert PointsTo(h, u, v);
    }
  }

  /** Edits let through put an edited document on a loop only if that loop passes through a document the caller
      could not see, or that was written after the guard had read it. */
  lemma AdmittedLoopPassesUnseen(read: seq<Write>, since: seq<Write>, edits: seq<Write>, sees: Path -> bool,
                                 baseOf: Path -> Name, g: Graph, p: Path)
    requires !Closes(Seen(read, sees), edits, baseOf)
    requires IsGraph(read + since + edits, baseOf, g) && OnLoop(g, p) && p in PathsOf(edits)
    ensures exists q :: Reaches(g, p, q) && !Current(since, edits, sees, q)
  {
    if forall q :: Reaches(g, p, q) ==> Current(since, edits, sees, q) {
      var h := GraphExists(Seen(read, sees) + edits, baseOf);
      var n: nat :| n > 0 && At(g, p, n) == Some(p);
      CurrentWalk(read, since, edits, sees, baseOf, g, h, p, n);
      assert OnLoop(h, p);
      assert false;
    }
  }

  lemma ResolvesOnce(link: Link, paths: set<Path>, baseOf: Path -> Name, p: Path, q: Path)
    requires ResolvesTo(link, paths, baseOf, p) && ResolvesTo(link, paths, baseOf, q)
    ensures p == q && p in paths
  {
  }

  lemma {:induction false} PointerHasPath(writes: seq<Write>, p: Path)
    requires LastPointer(writes, p).Some?
    ensures p in PathsOf(writes)
  {
    if writes[|writes| - 1].path != p {
      PointerHasPath(writes[..|writes| - 1], p);
      var i :| 0 <= i < |writes| - 1 && writes[..|writes| - 1][i].path == p;
      assert writes[i].path == p;
    }
  }

  lemma GraphExists(writes: seq<Write>, baseOf: Path -> Name) returns (g: Graph)
    ensures IsGraph(writes, baseOf, g)
  {
    g := map p | p in PathsOf(writes) && exists q :: HasEdge(writes, baseOf, p, q) :: EdgeOf(writes, baseOf, p);
    forall p, q ensures PointsTo(g, p, q) <==> HasEdge(writes, baseOf, p, q) {
      if HasEdge(writes, baseOf, p, q) {
        PointerHasPath(writes, p);
        ResolvesOnce(LastPointer(writes, p).value, PathsOf(writes), baseOf, q, EdgeOf(writes, baseOf, p));
      }
    }
  }

  ghost function EdgeOf(writes: seq<Write>, baseOf: Path -> Name, p: Path): (q: Path)
    requires exists q :: HasEdge(writes, baseOf, p, q)
    ensures HasEdge(writes, baseOf, p, q)
  {
    var q :| HasEdge(writes, baseOf, p, q);
    q
  }

  // ----- runs

  /** One call: its edits, what its caller sees, and how many batches were over when its guard read the vault. */
  datatype Batch = Batch(edits: seq<Write>, sees: Path -> bool, read: nat)

  function ReadAt(b: Batch, n: nat): (r: nat)
    ensures r <= n
  {
    if b.read < n then b.read else n
  }

  /** The vault after a run of batches, each written unless its guard refuses it. */
  ghost function AfterEdits(docs: seq<Write>, batches: seq<Batch>, baseOf: Path -> Name): seq<Write>
    decreases |batches|
  {
    if batches == [] then docs
    else
      var front, last := batches[..|batches| - 1], batches[|batches| - 1];
      var read := AfterEdits(docs, front[..ReadAt(last, |front|)], baseOf);
      AfterEdits(docs, front, baseOf) + if Closes(Seen(read, last.sees), last.edits, baseOf) then [] else last.edits
  }

  lemma {:induction false} VaultGrows(docs: seq<Write>, batches: seq<Batch>, baseOf: Path -> Name, k: nat)
    requires k <= |batches|
    ensures AfterEdits(docs, batches[..k], baseOf) <= AfterEdits(docs, batches, baseOf)
  {
    if k == |batches| {
      assert batches[..k] == batches;
    } else {
      var front := batches[..|batches| - 1];
      VaultGrows(docs, front, baseOf, k);
      assert front[..k] == batches[..k];
    }
  }

  /** What the `n`th guard read. */
  ghost function ReadBy(docs: seq<Write>, batches: seq<Batch>, baseOf: Path -> Name, n: nat): seq<Write>
    requires n < |batches|
  {
    AfterEdits(docs, batches[..ReadAt(batches[n], n)], baseOf)
  }

  ghost predicate Admitted(docs: seq<Write>, batches: seq<Batch>, baseOf: Path -> Name, n: nat)
    requires n < |batches|
  {
    !Closes(Seen(ReadBy(docs, batches, baseOf, n), batches[n].sees), batches[n].edits, baseOf)
  }

  /** What was written between the `n`th guard's reading and its batch's writing. */
  ghost function Since(docs: seq<Write>, batches: seq<Batch>, baseOf: Path -> Name, n: nat): (since: seq<Write>)
    requires n < |batches|
    ensures AfterEdits(docs, batches[..n], baseOf) == ReadBy(docs, batches, baseOf, n) + since
  {
    VaultGrows(docs, batches[..n], baseOf, ReadAt(batches[n], n));
    assert batches[..n][..ReadAt(batches[n], n)] == batches[..ReadAt(batches[n], n)];
    AfterEdits(docs, batches[..n], baseOf)[|ReadBy(docs, batches, baseOf, n)|..]
  }

  /** The loop through `p` passes through a document that batch `n` edited and one its guard was blind to. */
  ghost predicate Blamed(docs: seq<Write>, batches: seq<Batch>, baseOf: Path -> Name, g: Graph, p: Path, n: nat)
    requires n < |batches|
  {
    var b := batches[n];
    && Admitted(docs, batches, baseOf, n)
    && (exists e :: Reaches(g, p, e) && e in PathsOf(b.edits))
    && (exists q :: Reaches(g, p, q) && !Current(Since(docs, batches, baseOf, n), b.edits, b.sees, q))
  }

  lemma BlameStays(docs: seq<Write>, batches: seq<Batch>, baseOf: Path -> Name, g: Graph, g': Graph, p: Path, n: nat)
    requires n < |batches| - 1 && Blamed(docs, batches[..|batches| - 1], baseOf, g, p, n)
    requires forall q :: Reaches(g', p, q) <==> Reaches(g, p, q)
    ensures Blamed(docs, batches, baseOf, g', p, n)
  {
    var front := batches[..|batches| - 1];
    assert front[n] == batches[n] && front[..n] == batches[..n];
    assert front[..ReadAt(batches[n], n)] == batches[..ReadAt(batches[n], n)];
    var e :| Reaches(g, p, e) && e in PathsOf(batches[n].edits);
    var q :| Reaches(g, p, q) && !Current(Since(docs, front, baseOf, n), batches[n].edits, batches[n].sees, q);
    assert Reaches(g', p, e) && Reaches(g', p, q);
  }

  /** Every loop in the vault after a run was there at the start, or passes through a document that an admitted
      batch edited and one that its guard could not see or saw before it was rewritten. */
  lemma {:induction false} NewLoopsWereUnseen(docs: seq<Write>, batches: seq<Batch>, baseOf: Path -> Name, g0: Graph, g: Graph,
                                              p: Path)
    requires IsGraph(docs, baseOf, g0) && IsGraph(AfterEdits(docs, batches, baseOf), baseOf, g) && OnLoop(g, p)
    ensures OnLoop(g0, p) || exists n :: 0 <= n < |batches| && Blamed(docs, batches, baseOf, g, p, n)
  {
    if batches == [] {
      GraphUnique(docs, baseOf, g0, g);
      return;
    }
    var n := |batches| - 1;
    var front, before := batches[..n], AfterEdits(docs, batches[..n], baseOf);
    assert front[..ReadAt(batches[n], n)] == batches[..ReadAt(batches[n], n)];
    var f := GraphExists(before, baseOf);
    if Admitted(docs, batches, baseOf, n) && exists e :: Reaches(g, p, e) && e in PathsOf(batches[n].edits) {
      var e :| Reaches(g, p, e) && e in PathsOf(batches[n].edits);
      LastIsBlamed(docs, batches, baseOf, g, p, e);
      return;
    }
    if Admitted(docs, batches, baseOf, n) {
      UneditedLoopWasThere(before, batches[n].edits, baseOf, f, g, p);
    } else {
      assert before + [] == before;
      GraphUnique(before, baseOf, f, g);
    }
    NewLoopsWereUnseen(docs, front, baseOf, g0, f, p);
    if !OnLoop(g0, p) {
      var k :| 0 <= k < n && Blamed(docs, front, baseOf, f, p, k);
      BlameStays(docs, batches, baseOf, f, g, p, k);
    }
  }

  lemma LastIsBlamed(docs: seq<Write>, batches: seq<Batch>, baseOf: Path -> Name, g: Graph, p: Path, e: Path)
    requires batches != [] && Admitted(docs, batches, baseOf, |batches| - 1)
    requires IsGraph(AfterEdits(docs, batches[..|batches| - 1], baseOf) + batches[|batches| - 1].edits, baseOf, g)
    requires OnLoop(g, p) && Reaches(g, p, e) && e in PathsOf(batches[|batches| - 1].edits)
    ensures Blamed(docs, batches, baseOf, g, p, |batches| - 1)
  {
    var n := |batches| - 1;
    var b, read, since := batches[n], ReadBy(docs, batches, baseOf, n), Since(docs, batches, baseOf, n);
    LoopIsMutual(g, p, e);
    AdmittedLoopPassesUnseen(read, since, b.edits, b.sees, baseOf, g, e);
    var q :| Reaches(g, e, q) && !Current(since, b.edits, b.sees, q);
    ReachesTransitive(g, p, e, q);
  }

  /** The caller sees all there is, and nothing was written since the guard read it. */
  ghost predicate SeesAll(docs: seq<Write>, batches: seq<Batch>, baseOf: Path -> Name, n: nat)
    requires n < |batches|
  {
    batches[n].read >= n && forall q :: q in PathsOf(AfterEdits(docs, batches, baseOf)) ==> batches[n].sees(q)
  }

  /** A run whose callers read everything, one after the other, adds no loop. */
  lemma SightedRunsAddNoLoop(docs: seq<Write>, batches: seq<Batch>, baseOf: Path -> Name, g0: Graph, g: Graph, p: Path)
    requires IsGraph(docs, baseOf, g0) && IsGraph(AfterEdits(docs, batches, baseOf), baseOf, g) && OnLoop(g, p)
    requires forall n :: 0 <= n < |batches| ==> SeesAll(docs, batches, baseOf, n)
    ensures OnLoop(g0, p)
  {
    NewLoopsWereUnseen(docs, batches, baseOf, g0, g, p);
    if !OnLoop(g0, p) {
      var n :| 0 <= n < |batches| && Blamed(docs, batches, baseOf, g, p, n);
      var b, since := batches[n], Since(docs, batches, baseOf, n);
      var q :| Reaches(g, p, q) && !Current(since, b.edits, b.sees, q);
      assert SeesAll(docs, batches, baseOf, n);
      assert since == [];
      LoopMemberHasPath(AfterEdits(docs, batches, baseOf), baseOf, g, p, q);
      assert false;
    }
  }

  lemma LoopMemberHasPath(writes: seq<Write>, baseOf: Path -> Name, g: Graph, p: Path, q: Path)
    requires IsGraph(writes, baseOf, g) && OnLoop(g, p) && Reaches(g, p, q)
    ensures q in PathsOf(writes)
  {
    LoopIsMutual(g, p, q);
    var k: nat :| k > 0 && At(g, q, k) == Some(q);
    AtPrefix(g, q, 0, k);
    assert At(g, q, 0) == Some(q);
    assert PointsTo(g, q, g[q]);
    PointerHasPath(writes, q);
  }

  // ----- what gets past it, and what is refused for nothing

  /** A pointer that names `p` outright. */
  function To(p: Path): Option<Link> {
    Some(Link([p], None))
  }

  lemma ToResolves(paths: set<Path>, baseOf: Path -> Name, p: Path, q: Path)
    ensures ResolvesTo(To(p).value, paths, baseOf, q) <==> q == p && p in paths
  {
    var link := To(p).value;
    assert link.candidates[0] == p && link.bare.None?;
    if ResolvesTo(link, paths, baseOf, q) {
      assert FirstKnown(paths, link.candidates, q);
    }
  }

  lemma LastWritten(a: Write, b: Write, c: Write, d: Write)
    ensures forall p ::
      LastPointer([a, b, c], p) ==
      if c.path == p then c.pointer else if b.path == p then b.pointer else if a.path == p then a.pointer else None
    ensures forall p :: LastPointer([a, b, c, d], p) == if d.path == p then d.pointer else LastPointer([a, b, c], p)
    ensures PathsOf([a, b, c]) == {a.path, b.path, c.path} && PathsOf([a, b, c, d]) == {a.path, b.path, c.path, d.path}
  {
    var three, four := [a, b, c], [a, b, c, d];
    assert four[..3] == three && three[..2] == [a, b] && [a, b][..1] == [a];
    forall p
      ensures LastPointer(four, p) == if d.path == p then d.pointer else LastPointer(three, p)
      ensures
        LastPointer(three, p) ==
        if c.path == p then c.pointer else if b.path == p then b.pointer else if a.path == p then a.pointer else None
    {
      assert LastPointer([a], p) == if a.path == p then a.pointer else None;
      assert LastPointer([a, b], p) == if b.path == p then b.pointer else LastPointer([a], p);
    }
    assert three[0] == a && three[1] == b && three[2] == c;
    assert four[0] == a && four[1] == b && four[2] == c && four[3] == d;
  }

  lemma NamedEdge(w: seq<Write>, baseOf: Path -> Name, g: Graph, p: Path, q: Path)
    requires IsGraph(w, baseOf, g) && LastPointer(w, p) == To(q)
    ensures q in PathsOf(w) ==> PointsTo(g, p, q)
    ensures q !in PathsOf(w) ==> p !in g
  {
    ToResolves(PathsOf(w), baseOf, q, q);
    if p in g {
      assert PointsTo(g, p, g[p]);
      ToResolves(PathsOf(w), baseOf, q, g[p]);
    }
  }

  lemma NoEdge(w: seq<Write>, baseOf: Path -> Name, g: Graph, p: Path)
    requires IsGraph(w, baseOf, g) && LastPointer(w, p).None?
    ensures p !in g
  {
    if p in g {
      assert PointsTo(g, p, g[p]);
    }
  }

  lemma AmbiguousNoEdge(w: seq<Write>, baseOf: Path -> Name, g: Graph, p: Path, q: Path, r: Path)
    requires IsGraph(w, baseOf, g) && LastPointer(w, p) == Some(Link([], Some(baseOf(q))))
    requires {q, r} <= PathsOf(w) && q != r && baseOf(q) == baseOf(r)
    ensures p !in g
  {
    if p in g {
      assert PointsTo(g, p, g[p]);
    }
  }

  lemma StopsAfter(g: Graph, p: Path, q: Path)
    requires p != q && q !in g && (p in g ==> g[p] == q)
    ensures !OnLoop(g, p)
  {
    assert At(g, p, 0) == Some(p);
    forall n: nat | n > 0 ensures At(g, p, n) != Some(p) {
      if At(g, p, n).Some? {
        AtPrefix(g, p, 0, n);
        if n > 1 {
          AtPrefix(g, p, 1, n);
        }
      }
    }
  }

  lemma NoPointerNoLoop(g: Graph, p: Path)
    requires p !in g
    ensures !OnLoop(g, p)
  {
    forall n: nat | n > 0 ensures At(g, p, n) != Some(p) {
      if At(g, p, n).Some? {
        AtPrefix(g, p, 0, n);
      }
    }
  }

  lemma LoopOfTwo(g: Graph, p: Path, q: Path)
    requires PointsTo(g, p, q) && PointsTo(g, q, p)
    ensures OnLoop(g, p)
  {
    assert At(g, p, 0) == Some(p);
    assert At(g, p, 1) == Some(q);
    assert At(g, p, 2) == Some(p);
  }

  lemma LoopOfThree(g: Graph, p: Path, q: Path, r: Path)
    requires PointsTo(g, p, q) && PointsTo(g, q, r) && PointsTo(g, r, p)
    ensures OnLoop(g, p)
  {
    assert At(g, p, 0) == Some(p);
    assert At(g, p, 1) == Some(q);
    assert At(g, p, 2) == Some(r);
    assert At(g, p, 3) == Some(p);
  }

  /** A hidden hop lets a loop in: 2 leads to 1 through 3, which the caller who points 1 to 2 cannot see. */
  lemma HiddenHopLetsLoopIn(baseOf: Path -> Name, sees: Path -> bool)
    requires sees(1) && sees(2) && !sees(3)
    ensures
      var docs, edits := [Write(1, None), Write(2, To(3)), Write(3, To(1))], [Write(1, To(2))];
      Closes(docs, edits, baseOf) && !Closes(Seen(docs, sees), edits, baseOf)
  {
    var a, b, c, e := Write(1, None), Write(2, To(3)), Write(3, To(1)), Write(1, To(2));
    LastWritten(a, b, c, e);
    LastWritten(a, b, e, e);
    assert [a, b, c] + [e] == [a, b, c, e];
    var g := GraphExists([a, b, c, e], baseOf);
    NamedEdge([a, b, c, e], baseOf, g, 1, 2);
    NamedEdge([a, b, c, e], baseOf, g, 2, 3);
    NamedEdge([a, b, c, e], baseOf, g, 3, 1);
    LoopOfThree(g, 1, 2, 3);
    assert [e][0].path == 1;
    SeenTwo(a, b, c, sees);
    assert [a, b] + [e] == [a, b, e];
    forall h | IsGraph([a, b, e], baseOf, h) ensures !OnLoop(h, 1) {
      NamedEdge([a, b, e], baseOf, h, 1, 2);
      NamedEdge([a, b, e], baseOf, h, 2, 3);
      StopsAfter(h, 1, 2);
    }
  }

  lemma SeenTwo(a: Write, b: Write, c: Write, sees: Path -> bool)
    requires sees(a.path) && sees(b.path) && !sees(c.path)
    ensures Seen([a, b, c], sees) == [a, b]
  {
    assert [a, b, c][..2] == [a, b] && [a, b][..1] == [a];
    assert Seen([a], sees) == [a];
    assert Seen([a, b], sees) == [a, b];
  }

  /** A hidden namesake gets an edit refused for nothing: the caller takes the bare name for document 2, which
      leads back to 1; in the vault the name is ambiguous. */
  lemma HiddenNamesakeRefuses(baseOf: Path -> Name, sees: Path -> bool)
    requires sees(1) && sees(2) && !sees(3) && baseOf(2) == baseOf(3) != baseOf(1)
    ensures
      var docs, edits := [Write(1, None), Write(2, To(1)), Write(3, None)], [Write(1, Some(Link([], Some(baseOf(2)))))];
      !Closes(docs, edits, baseOf) && Closes(Seen(docs, sees), edits, baseOf)
  {
    var name := Link([], Some(baseOf(2)));
    var a, b, c, e := Write(1, None), Write(2, To(1)), Write(3, None), Write(1, Some(name));
    LastWritten(a, b, c, e);
    LastWritten(a, b, e, e);
    assert [a, b, c] + [e] == [a, b, c, e] && [a, b] + [e] == [a, b, e];
    SeenTwo(a, b, c, sees);
    var g := GraphExists([a, b, e], baseOf);
    NamedEdge([a, b, e], baseOf, g, 2, 1);
    assert OnlyBearer({1, 2}, baseOf, baseOf(2), 2);
    assert HasEdge([a, b, e], baseOf, 1, 2);
    assert PointsTo(g, 1, 2);
    LoopOfTwo(g, 1, 2);
    assert [e][0].path == 1;
    forall h | IsGraph([a, b, c, e], baseOf, h) ensures !OnLoop(h, 1) {
      AmbiguousNoEdge([a, b, c, e], baseOf, h, 1, 2, 3);
      NoPointerNoLoop(h, 1);
    }
  }

  /** Two guards that read the vault before either wrote let a loop in, though both callers see everything. */
  lemma OverlapLetsLoopIn(baseOf: Path -> Name, sees: Path -> bool, g: Graph)
    requires forall p :: sees(p)
    requires
      var batches := [Batch([Write(1, To(2))], sees, 0), Batch([Write(2, To(1))], sees, 0)];
      IsGraph(AfterEdits([Write(1, None), Write(2, None)], batches, baseOf), baseOf, g)
    ensures OnLoop(g, 1)
  {
    var docs, d, e := [Write(1, None), Write(2, None)], Write(1, To(2)), Write(2, To(1));
    var one, two := Batch([d], sees, 0), Batch([e], sees, 0);
    SeenAll(docs, sees);
    LonePointerPasses(baseOf, 1, 2);
    LonePointerPasses(baseOf, 2, 1);
    assert docs + [d] + [e] == [Write(1, None), Write(2, None), d, e];
    assert [one, two][..1] == [one] && [one][..0] == [];
    assert AfterEdits(docs, [], baseOf) == docs;
    assert AfterEdits(docs, [one], baseOf) == docs + [d];
    assert AfterEdits(docs, [one, two], baseOf) == docs + [d] + [e];
    LastWritten(Write(1, None), Write(2, None), d, e);
    NamedEdge(docs + [d] + [e], baseOf, g, 1, 2);
    NamedEdge(docs + [d] + [e], baseOf, g, 2, 1);
    LoopOfTwo(g, 1, 2);
  }

  lemma {:induction false} SeenAll(docs: seq<Write>, sees: Path -> bool)
    requires forall p :: sees(p)
    ensures Seen(docs, sees) == docs
  {
    if docs != [] {
      SeenAll(docs[..|docs| - 1], sees);
    }
  }

  /** One pointer between two documents that have none makes no loop. */
  lemma LonePointerPasses(baseOf: Path -> Name, p: Path, q: Path)
    requires (p == 1 && q == 2) || (p == 2 && q == 1)
    ensures !Closes([Write(1, None), Write(2, None)], [Write(p, To(q))], baseOf)
  {
    var a, b, e := Write(1, None), Write(2, None), Write(p, To(q));
    assert [a, b] + [e] == [a, b, e];
    LastWritten(a, b, e, e);
    forall h | IsGraph([a, b, e], baseOf, h) ensures !OnLoop(h, p) {
      NoEdge([a, b, e], baseOf, h, q);
      NamedEdge([a, b, e], baseOf, h, p, q);
      StopsAfter(h, p, q);
    }
    assert forall i :: 0 <= i < |[e]| ==> [e][i].path == p;
  }
}

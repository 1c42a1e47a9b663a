/** Where every `superseded_by` chain in the vault ends, as one caller may see it. */
module Chains {
  import opened Base
  import opened Documents
  import opened Pointers
  import opened Sorting

  datatype Doc = Doc(path: Path, supersededBy: Option<Path>, status: Status, updated: int)

  datatype Flag = FlagDraft | FlagRetired | FlagUnforwarded | FlagDangling | FlagLoop | FlagRestricted

  datatype Member = Member(path: Path, status: Status, updated: int)

  datatype Replaced = Replaced(path: Path, status: Status, updated: int, depth: nat)

  datatype Hidden = NoneHidden | SomeHidden | ManyHidden

  datatype Chain = Chain(head: Option<Member>, replaced: seq<Replaced>, hidden: Hidden, flags: seq<Flag>)

  /** The vault as the walks see it: every document by its path, and which of them the caller can read. */
  datatype View = View(byPath: map<Path, Doc>, readable: set<Path>)

  ghost predicate Coherent(v: View) {
    forall p :: p in v.byPath ==> v.byPath[p].path == p
  }

  predicate Visible(v: View, p: Path) {
    p in v.byPath && p in v.readable
  }

  /** Hops between readable documents. */
  ghost function ReadableGraph(v: View): Graph {
    map p | p in v.byPath && p in v.readable && v.byPath[p].supersededBy.Some? && Visible(v, v.byPath[p].supersededBy.value)
      :: v.byPath[p].supersededBy.value
  }

  /** All hops, hidden documents included. */
  ghost function FullGraph(v: View): Graph {
    map p | p in v.byPath && v.byPath[p].supersededBy.Some? && v.byPath[p].supersededBy.value in v.byPath
      :: v.byPath[p].supersededBy.value
  }

  // ----- specification: where a readable document's walk ends

  datatype End = HeadEnd(head: Path) | HopEnd(hop: Path) | LoopEnd(members: set<Path>)

  /** The walk from `p`, staying on readable documents, ends at `e` after `depth` hops: hops to the head,
      to the hidden document, or to the first document of the loop. */
  ghost predicate EndsAt(v: View, p: Path, e: End, depth: nat) {
    var g := ReadableGraph(v);
    match e
    case HeadEnd(h) =>
      && At(g, p, depth) == Some(h) && h in v.byPath
      && (v.byPath[h].supersededBy.Some? ==> v.byPath[h].supersededBy.value !in v.byPath)
    case HopEnd(q) =>
      && depth > 0 && q in v.byPath && q !in v.readable
      && At(g, p, depth - 1).Some?
      && At(g, p, depth - 1).value in v.byPath
      && v.byPath[At(g, p, depth - 1).value].supersededBy == Some(q)
    case LoopEnd(ms) =>
      && At(g, p, depth).Some? && IsLoop(g, At(g, p, depth).value, ms)
      && forall i :: 0 <= i < depth && At(g, p, i).Some? ==> At(g, p, i).value !in ms
  }

  /** A walk that stops for want of a readable next hop stops for good. */
  lemma StopsForGood(v: View, p: Path, n: nat, m: nat)
    requires At(ReadableGraph(v), p, n).Some? && At(ReadableGraph(v), p, n).value !in ReadableGraph(v)
    requires At(ReadableGraph(v), p, m).Some?
    ensures m <= n
  {
    if n < m {
      AtPrefix(ReadableGraph(v), p, n, m);
    }
  }

  /** The number of hops a walk takes before it stops, if it stops. */
  ghost function Length(e: End, depth: nat): nat
    requires e.HopEnd? ==> depth > 0
  {
    if e.HopEnd? then depth - 1 else depth
  }

  lemma EndStops(v: View, p: Path, e: End, depth: nat)
    requires EndsAt(v, p, e, depth) && !e.LoopEnd?
    ensures
      var u := At(ReadableGraph(v), p, Length(e, depth));
      u.Some? && u.value !in ReadableGraph(v)
  {
  }

  lemma LoopGoesOn(v: View, p: Path, e: End, depth: nat, n: nat)
    requires EndsAt(v, p, e, depth) && e.LoopEnd?
    ensures At(ReadableGraph(v), p, n).Some? && At(ReadableGraph(v), p, n).value in ReadableGraph(v)
  {
    var g := ReadableGraph(v);
    var m := At(g, p, depth).value;
    var k: nat :| k > 0 && At(g, m, k) == Some(m);
    LoopNeverStops(g, m, k, n + 1);
    AtSplit(g, p, depth, n + 1);
    AtPrefix(g, p, n, depth + (n + 1));
  }

  lemma SameLoop(v: View, p: Path, a: set<Path>, i: nat, b: set<Path>, j: nat)
    requires EndsAt(v, p, LoopEnd(a), i) && EndsAt(v, p, LoopEnd(b), j) && i <= j
    ensures a == b && i == j
  {
    var g := ReadableGraph(v);
    var x, y := At(g, p, i).value, At(g, p, j).value;
    AtSplit(g, p, i, j - i);
    assert Reaches(g, x, y);
    LoopFromAnyMember(g, x, a, y);
    LoopUnique(g, y, a, b);
    LoopMember(g, x, a);
    assert i < j ==> x !in b;
  }

  /** A walk has only one end, at only one depth. */
  lemma EndUnique(v: View, p: Path, e: End, depth: nat, e': End, depth': nat)
    requires EndsAt(v, p, e, depth) && EndsAt(v, p, e', depth')
    ensures e == e' && depth == depth'
  {
    if e.LoopEnd? && e'.LoopEnd? {
      if depth <= depth' {
        SameLoop(v, p, e.members, depth, e'.members, depth');
      } else {
        SameLoop(v, p, e'.members, depth', e.members, depth);
      }
    } else if e.LoopEnd? {
      LoopGoesOn(v, p, e, depth, Length(e', depth'));
    } else if e'.LoopEnd? {
      LoopGoesOn(v, p, e', depth', Length(e, depth));
    } else {
      EndStops(v, p, e, depth);
      EndStops(v, p, e', depth');
      StopsForGood(v, p, Length(e, depth), Length(e', depth'));
      StopsForGood(v, p, Length(e', depth'), Length(e, depth));
    }
  }

  // ----- the walk

  datatype WalkEnd =
    | WalkHead(doc: Doc, depth: nat, dangling: bool)
    | WalkRestricted(hop: Doc, depth: nat)
    | WalkLoop(cycle: seq<Doc>, depth: nat)

  function Paths(docs: seq<Doc>): (ps: seq<Path>)
    ensures |ps| == |docs| && forall i :: 0 <= i < |docs| ==> ps[i] == docs[i].path
  {
    seq(|docs|, i requires 0 <= i < |docs| => docs[i].path)
  }

  ghost function EndOf(w: WalkEnd): End {
    match w
    case WalkHead(doc, _, _) => HeadEnd(doc.path)
    case WalkRestricted(hop, _) => HopEnd(hop.path)
    case WalkLoop(cycle, _) => LoopEnd(ToSet(Paths(cycle)))
  }

  ghost predicate WalkTrail(v: View, start: Doc, trail: seq<Doc>, positions: map<Path, nat>) {
    && IsTrail(ReadableGraph(v), Paths(trail)) && trail[0] == start
    && (forall i :: 0 <= i < |trail| ==> Visible(v, trail[i].path) && v.byPath[trail[i].path] == trail[i])
    && (forall p :: p in positions <==> p in Paths(trail))
    && (forall p :: p in positions ==> positions[p] < |trail| && trail[positions[p]].path == p)
  }

  lemma WalkCloses(v: View, start: Doc, trail: seq<Doc>, positions: map<Path, nat>, next: Doc)
    requires WalkTrail(v, start, trail, positions) && next.path in positions
    requires trail[|trail| - 1].path in ReadableGraph(v) && ReadableGraph(v)[trail[|trail| - 1].path] == next.path
    ensures
      var seenAt := positions[next.path];
      EndsAt(v, start.path, LoopEnd(ToSet(Paths(trail[seenAt..]))), seenAt) && Distinct(Paths(trail[seenAt..]))
  {
    var seenAt := positions[next.path];
    TrailCloses(ReadableGraph(v), Paths(trail), seenAt);
    assert Paths(trail)[seenAt..] == Paths(trail[seenAt..]);
  }

  lemma WalkGoesOn(v: View, start: Doc, trail: seq<Doc>, positions: map<Path, nat>, next: Doc)
    requires Coherent(v) && WalkTrail(v, start, trail, positions) && next.path !in positions
    requires trail[|trail| - 1].path in ReadableGraph(v) && ReadableGraph(v)[trail[|trail| - 1].path] == next.path
    requires Visible(v, next.path) && v.byPath[next.path] == next
    ensures WalkTrail(v, start, trail + [next], positions[next.path := |trail|])
    ensures |trail| < |v.byPath.Keys|
  {
    TrailExtends(ReadableGraph(v), Paths(trail));
    assert Paths(trail + [next]) == Paths(trail) + [next.path];
    TrailFits(ReadableGraph(v), Paths(trail + [next]), v.byPath.Keys);
  }

  /** Follows a readable document's chain to where it stops for this reader. Terminates on every graph. */
  method WalkForward(start: Doc, v: View) returns (end: WalkEnd)
    requires Coherent(v) && Visible(v, start.path) && v.byPath[start.path] == start
    ensures EndsAt(v, start.path, EndOf(end), end.depth)
    ensures end.WalkHead? ==> Visible(v, end.doc.path) && v.byPath[end.doc.path] == end.doc && end.dangling == end.doc.supersededBy.Some?
    ensures end.WalkRestricted? ==> end.hop.path in v.byPath && v.byPath[end.hop.path] == end.hop
    ensures end.WalkLoop? ==> end.cycle != [] && Distinct(Paths(end.cycle))
  {
    var trail := [start];
    var positions: map<Path, nat> := map[start.path := 0];
    var current := start;
    ghost var g := ReadableGraph(v);
    while current.supersededBy.Some?
      invariant WalkTrail(v, start, trail, positions)
      invariant current == trail[|trail| - 1]
      decreases |v.byPath.Keys| + 1 - |trail|
    {
      var depth := |trail|;
      var target := current.supersededBy.value;
      assert At(g, start.path, depth - 1) == Some(current.path);
      if target !in v.byPath {
        return WalkHead(current, depth - 1, true);
      }
      var next := v.byPath[target];
      if next.path !in v.readable {
        return WalkRestricted(next, depth);
      }
      assert current.path in g && g[current.path] == next.path;
      if next.path in positions {
        var seenAt := positions[next.path];
        WalkCloses(v, start, trail, positions, next);
        return WalkLoop(trail[seenAt..], seenAt);
      }
      WalkGoesOn(v, start, trail, positions, next);
      positions := positions[next.path := depth];
      trail := trail + [next];
      current := next;
    }
    assert At(g, start.path, |trail| - 1) == Some(current.path);
    return WalkHead(current, |trail| - 1, false);
  }

  // ----- specification: the chains

  function ToMember(d: Doc): Member {
    Member(d.path, d.status, d.updated)
  }

  function StatusFlags(d: Doc, dangling: bool): seq<Flag> {
    (if d.status.Draft? then [FlagDraft] else [])
    + (if d.status.Deprecated? || d.status.Archived? then [FlagRetired] else [])
    + (if d.status.Superseded? && !dangling then [FlagUnforwarded] else [])
    + (if dangling then [FlagDangling] else [])
  }

  /** Some readable document's walk ends at `e`. */
  ghost predicate IsEnd(v: View, e: End) {
    exists p, depth :: Visible(v, p) && EndsAt(v, p, e, depth)
  }

  ghost predicate Replaces(v: View, h: Path) {
    exists p :: p in v.byPath && v.byPath[p].supersededBy == Some(h)
  }

  /** A lone draft or retired document is no chain; anything that replaced something, dangles, or says
      it is superseded without saying by what, is one. */
  ghost predicate HasChain(v: View, e: End)
    requires e.HeadEnd? ==> e.head in v.byPath
  {
    e.HeadEnd? ==>
      Replaces(v, e.head) || v.byPath[e.head].supersededBy.Some? || v.byPath[e.head].status.Superseded?
  }

  ghost function HeadFor(v: View, e: End): Option<Member>
    requires e.HeadEnd? ==> e.head in v.byPath
  {
    if e.HeadEnd? then Some(ToMember(v.byPath[e.head])) else None
  }

  ghost function FlagsFor(v: View, e: End): seq<Flag>
    requires e.HeadEnd? ==> e.head in v.byPath
  {
    match e
    case HeadEnd(h) => StatusFlags(v.byPath[h], v.byPath[h].supersededBy.Some?)
    case HopEnd(_) => [FlagRestricted]
    case LoopEnd(_) => [FlagLoop]
  }

  /** `r` belongs behind the end `e`: a readable document, at its exact distance. */
  ghost predicate IsEntry(v: View, e: End, r: Replaced) {
    && Visible(v, r.path) && EndsAt(v, r.path, e, r.depth)
    && r.status == v.byPath[r.path].status && r.updated == v.byPath[r.path].updated
    && (e.HeadEnd? ==> r.depth > 0)
  }

  /** The documents a hidden document's walk may pass through to feed the chain ending at `e`. */
  function Keys(e: End): set<Path> {
    match e
    case HeadEnd(h) => {h}
    case HopEnd(q) => {q}
    case LoopEnd(ms) => ms
  }

  /** Following every pointer from `p`, hidden documents included, leads past `p` into the chain of `e`. */
  ghost predicate Feeds(v: View, p: Path, e: End) {
    exists q :: q in Keys(e) && q != p && Reaches(FullGraph(v), p, q)
  }

  ghost function Feeders(v: View, e: End): set<Path> {
    set p | p in v.byPath && p !in v.readable && Feeds(v, p, e)
  }

  function Bucket(hidden: nat): Hidden {
    if hidden == 0 then NoneHidden else if hidden >= 5 then ManyHidden else SomeHidden
  }

  predicate ReplacedLeq(a: Replaced, b: Replaced) {
    a.depth < b.depth || (a.depth == b.depth && a.path <= b.path)
  }

  ghost predicate IsChainOf(v: View, e: End, c: Chain)
    requires e.HeadEnd? ==> e.head in v.byPath
  {
    && c.head == HeadFor(v, e) && c.flags == FlagsFor(v, e)
    && SortedBy(c.replaced, ReplacedLeq) && Distinct(c.replaced)
    && (forall r :: r in c.replaced <==> IsEntry(v, e, r))
    && c.hidden == Bucket(|Feeders(v, e)|)
  }

  function Smallest(rs: seq<Replaced>): (p: Option<Path>)
    ensures p.None? <==> rs == []
    ensures p.Some? ==> (exists r :: r in rs && r.path == p.value) && forall r :: r in rs ==> p.value <= r.path
  {
    if rs == [] then None
    else
      var rest, last := Smallest(rs[..|rs| - 1]), rs[|rs| - 1];
      assert rs == rs[..|rs| - 1] + [last];
      if rest.Some? && rest.value <= last.path then rest else Some(last.path)
  }

  predicate OptionLeq(a: Option<Path>, b: Option<Path>) {
    a.None? || (b.Some? && a.value <= b.value)
  }

  /** Headed chains first, by head; the others by the smallest path in them. */
  predicate ChainLeq(a: Chain, b: Chain) {
    if a.head.Some? && b.head.Some? then a.head.value.path <= b.head.value.path
    else if a.head.Some? then true
    else if b.head.Some? then false
    else OptionLeq(Smallest(a.replaced), Smallest(b.replaced))
  }

  /** `e` is an end that has a chain. */
  ghost predicate Warrants(v: View, e: End) {
    IsEnd(v, e) && (e.HeadEnd? ==> e.head in v.byPath) && HasChain(v, e)
  }

  ghost predicate ChainAt(v: View, e: End, c: Chain) {
    Warrants(v, e) && IsChainOf(v, e, c)
  }

  ghost predicate Justified(v: View, c: Chain) {
    exists e :: ChainAt(v, e, c)
  }

  ghost predicate Represented(v: View, out: seq<Chain>, e: End) {
    exists c :: c in out && ChainAt(v, e, c)
  }

  /** `out` holds one chain for every end that has one, and nothing else, in order. */
  ghost predicate IsAnswer(v: View, out: seq<Chain>) {
    && SortedBy(out, ChainLeq)
    && Distinct(out)
    && (forall c :: c in out ==> Justified(v, c))
    && (forall e {:trigger Represented(v, out, e)} :: Warrants(v, e) ==> Represented(v, out, e))
  }

  // ----- ends and their keys

  lemma {:induction false} StaysVisible(v: View, p: Path, n: nat)
    requires Visible(v, p) && At(ReadableGraph(v), p, n).Some?
    ensures Visible(v, At(ReadableGraph(v), p, n).value)
  {
    if n > 0 {
      StaysVisible(v, p, n - 1);
    }
  }

  lemma LoopMembersMove(v: View, p: Path, ms: set<Path>, depth: nat, m: Path)
    requires Visible(v, p) && EndsAt(v, p, LoopEnd(ms), depth) && m in ms
    ensures m in ReadableGraph(v) && IsLoop(ReadableGraph(v), m, ms) && Visible(v, m)
  {
    var g := ReadableGraph(v);
    var x := At(g, p, depth).value;
    LoopFromAnyMember(g, x, ms, m);
    var k: nat :| k > 0 && At(g, m, k) == Some(m);
    AtPrefix(g, m, 0, k);
  }

  /** What kind of document a key is gives away the kind of end, and the key the end itself. */
  lemma KeyDeterminesEnd(v: View, e: End, e': End, k: Path)
    requires IsEnd(v, e) && IsEnd(v, e') && k in Keys(e) && k in Keys(e')
    ensures e == e'
  {
    var p, depth :| Visible(v, p) && EndsAt(v, p, e, depth);
    var p', depth' :| Visible(v, p') && EndsAt(v, p', e', depth');
    if e.LoopEnd? {
      LoopMembersMove(v, p, e.members, depth, k);
    }
    if e'.LoopEnd? {
      LoopMembersMove(v, p', e'.members, depth', k);
    }
    if e.LoopEnd? && e'.LoopEnd? {
      LoopUnique(ReadableGraph(v), k, e.members, e'.members);
    }
    if e.HeadEnd? {
      StaysVisible(v, p, depth);
    }
    if e'.HeadEnd? {
      StaysVisible(v, p', depth');
    }
  }

  // ----- what the answer means

  /** `p` is in `c`, as its head or among the replaced. */
  ghost predicate InChain(c: Chain, p: Path) {
    (c.head.Some? && c.head.value.path == p) || exists r :: r in c.replaced && r.path == p
  }

  lemma InChainMeansSameEnd(v: View, e: End, c: Chain, p: Path)
    requires Coherent(v) && ChainAt(v, e, c)
    ensures InChain(c, p) <==> Visible(v, p) && exists depth :: EndsAt(v, p, e, depth)
  {
    if InChain(c, p) {
      if e.HeadEnd? && e.head == p {
        var q, depth :| Visible(v, q) && EndsAt(v, q, e, depth);
        StaysVisible(v, q, depth);
        assert At(ReadableGraph(v), p, 0) == Some(p);
        assert EndsAt(v, p, e, 0);
      } else {
        var r :| r in c.replaced && r.path == p;
        assert IsEntry(v, e, r);
      }
    }
    if Visible(v, p) && exists depth :: EndsAt(v, p, e, depth) {
      var depth :| EndsAt(v, p, e, depth);
      if e.HeadEnd? && depth == 0 {
        assert e.head == p;
      } else {
        var r := Replaced(p, v.byPath[p].status, v.byPath[p].updated, depth);
        assert IsEntry(v, e, r);
      }
    }
  }

  /** A readable document heads a chain exactly when its own pointer, if any, names nothing there is, and it replaced
      something, has such a pointer, or says it is superseded. */
  lemma HeadMeans(v: View, h: Path)
    requires Coherent(v)
    ensures Warrants(v, HeadEnd(h)) <==>
      && h in v.byPath && h in v.readable
      && (v.byPath[h].supersededBy.Some? ==> v.byPath[h].supersededBy.value !in v.byPath)
      && ((exists p :: p in v.byPath && v.byPath[p].supersededBy == Some(h))
          || v.byPath[h].supersededBy.Some? || v.byPath[h].status.Superseded?)
  {
    if Warrants(v, HeadEnd(h)) {
      var p, depth :| Visible(v, p) && EndsAt(v, p, HeadEnd(h), depth);
      StaysVisible(v, p, depth);
    } else if Visible(v, h) && (v.byPath[h].supersededBy.Some? ==> v.byPath[h].supersededBy.value !in v.byPath) {
      assert At(ReadableGraph(v), h, 0) == Some(h);
      assert EndsAt(v, h, HeadEnd(h), 0);
    }
  }

  /** What a chain shows of its end: the head and its state, or that the rest is hidden, or that it goes round. */
  lemma ChainMeans(v: View, e: End, c: Chain)
    requires ChainAt(v, e, c)
    ensures
      match e
      case HeadEnd(h) =>
        var d := v.byPath[h];
        && c.head == Some(Member(d.path, d.status, d.updated))
        && (FlagDraft in c.flags <==> d.status.Draft?)
        && (FlagRetired in c.flags <==> d.status.Deprecated? || d.status.Archived?)
        && (FlagUnforwarded in c.flags <==> d.status.Superseded? && d.supersededBy.None?)
        && (FlagDangling in c.flags <==> d.supersededBy.Some?)
        && FlagLoop !in c.flags && FlagRestricted !in c.flags
      case HopEnd(_) => c.head.None? && c.flags == [FlagRestricted]
      case LoopEnd(_) => c.head.None? && c.flags == [FlagLoop]
    ensures c.hidden.NoneHidden? <==> Feeders(v, e) == {}
    ensures c.hidden.ManyHidden? <==> |Feeders(v, e)| >= 5
    ensures forall i, j :: 0 <= i < j < |c.replaced| ==>
      var (x, y) := (c.replaced[i], c.replaced[j]);
      x.depth < y.depth || (x.depth == y.depth && x.path <= y.path)
  {
    forall i, j | 0 <= i < j < |c.replaced| ensures ReplacedLeq(c.replaced[i], c.replaced[j]) {
    }
  }

  /** Some path in `a` comes before every path in `b`. */
  ghost predicate Leads(a: Chain, b: Chain) {
    exists r :: r in a.replaced && forall r' :: r' in b.replaced ==> r.path <= r'.path
  }

  /** Headed chains come first, by their heads; the others by a path in them. */
  lemma HeadedFirst(v: View, out: seq<Chain>)
    requires IsAnswer(v, out)
    ensures forall i, j :: 0 <= i < j < |out| && out[j].head.Some? ==>
      out[i].head.Some? && out[i].head.value.path <= out[j].head.value.path
    ensures forall i, j :: 0 <= i < j < |out| && out[i].head.None? && out[i].replaced != [] ==> Leads(out[i], out[j])
  {
    forall i, j | 0 <= i < j < |out| ensures ChainLeq(out[i], out[j]) {
    }
    forall i, j | 0 <= i < j < |out| && out[i].head.None? && out[i].replaced != []
      ensures Leads(out[i], out[j])
    {
      assert ChainLeq(out[i], out[j]);
      var r :| r in out[i].replaced && r.path == Smallest(out[i].replaced).value;
    }
  }

  lemma {:induction false} SameEndSameChain(v: View, e: End, c: Chain, c': Chain)
    requires ChainAt(v, e, c) && ChainAt(v, e, c')
    ensures c == c'
  {
    forall r ensures r in c.replaced <==> r in c'.replaced {
      assert r in c.replaced <==> IsEntry(v, e, r);
      assert r in c'.replaced <==> IsEntry(v, e, r);
    }
    SameEntriesSameMultiset(c.replaced, c'.replaced);
    forall a, b | a in c.replaced && b in c.replaced && ReplacedLeq(a, b) && ReplacedLeq(b, a) ensures a == b {
      assert IsEntry(v, e, a) && IsEntry(v, e, b);
    }
    SortedUnique(c.replaced, c'.replaced, ReplacedLeq);
  }

  lemma WalkIntoChain(v: View, c: Chain, p: Path) returns (e: End, depth: nat)
    requires Coherent(v) && Justified(v, c) && InChain(c, p)
    ensures ChainAt(v, e, c) && EndsAt(v, p, e, depth)
  {
    e :| ChainAt(v, e, c);
    InChainMeansSameEnd(v, e, c, p);
    depth :| EndsAt(v, p, e, depth);
  }

  lemma SharedMemberSameChain(v: View, c: Chain, c': Chain, p: Path)
    requires Coherent(v) && Justified(v, c) && Justified(v, c')
    requires InChain(c, p) && InChain(c', p)
    ensures c == c'
  {
    var e, depth := WalkIntoChain(v, c, p);
    var e', depth' := WalkIntoChain(v, c', p);
    EndUnique(v, p, e, depth, e', depth');
    SameEndSameChain(v, e, c, c');
  }

  /** A readable document is in at most one chain. */
  lemma AtMostOneChain(v: View, out: seq<Chain>, c: Chain, c': Chain, p: Path)
    requires Coherent(v) && IsAnswer(v, out) && c in out && c' in out && InChain(c, p) && InChain(c', p)
    ensures c == c'
  {
    SharedMemberSameChain(v, c, c', p);
  }

  lemma MembersShareEnd(v: View, c: Chain, p: Path, e: End, d: nat)
    requires Coherent(v) && Justified(v, c) && InChain(c, p) && EndsAt(v, p, e, d)
    ensures ChainAt(v, e, c)
  {
    var f, i := WalkIntoChain(v, c, p);
    EndUnique(v, p, e, d, f, i);
  }

  lemma ChainEndUnique(v: View, c: Chain, p: Path, e: End, e': End, d': nat)
    requires Coherent(v) && ChainAt(v, e, c) && InChain(c, p) && EndsAt(v, p, e', d')
    ensures e == e'
  {
    InChainMeansSameEnd(v, e, c, p);
    var d :| EndsAt(v, p, e, d);
    EndUnique(v, p, e, d, e', d');
  }

  /** Two readable documents are in one chain together exactly when their walks end at the same head,
      hidden document or loop, and that end has a chain. */
  lemma TogetherIffSameEnd(v: View, out: seq<Chain>, p: Path, e: End, d: nat, q: Path, e': End, d': nat)
    requires Coherent(v) && IsAnswer(v, out)
    requires Visible(v, p) && EndsAt(v, p, e, d) && Visible(v, q) && EndsAt(v, q, e', d')
    ensures (exists c :: c in out && InChain(c, p) && InChain(c, q)) <==> e == e' && Warrants(v, e)
  {
    if e == e' && Warrants(v, e) {
      EndHasMembers(v, out, e, p, d, q, d');
    }
    if exists c :: c in out && InChain(c, p) && InChain(c, q) {
      var c :| c in out && InChain(c, p) && InChain(c, q);
      MembersShareEnd(v, c, p, e, d);
      ChainEndUnique(v, c, q, e, e', d');
    }
  }

  lemma EndHasMembers(v: View, out: seq<Chain>, e: End, p: Path, d: nat, q: Path, d': nat)
    requires Coherent(v) && IsAnswer(v, out)
    requires Visible(v, p) && EndsAt(v, p, e, d) && Visible(v, q) && EndsAt(v, q, e, d')
    requires Warrants(v, e)
    ensures exists c :: c in out && InChain(c, p) && InChain(c, q)
  {
    assert Represented(v, out, e);
    var c :| c in out && ChainAt(v, e, c);
    InChainMeansSameEnd(v, e, c, p);
    InChainMeansSameEnd(v, e, c, q);
  }

  lemma HeadlessHasMembers(v: View, e: End, c: Chain)
    requires ChainAt(v, e, c) && !e.HeadEnd?
    ensures c.replaced != []
  {
    var p, depth :| Visible(v, p) && EndsAt(v, p, e, depth);
    assert IsEntry(v, e, Replaced(p, v.byPath[p].status, v.byPath[p].updated, depth));
  }

  /** No two different chains of an answer tie. */
  lemma ChainsNeverTie(v: View, c: Chain, c': Chain)
    requires Coherent(v) && Justified(v, c) && Justified(v, c')
    requires ChainLeq(c, c') && ChainLeq(c', c)
    ensures c == c'
  {
    var e :| ChainAt(v, e, c);
    var e' :| ChainAt(v, e', c');
    if c.head.Some? {
      assert e == e';
      SameEndSameChain(v, e, c, c');
    } else {
      HeadlessHasMembers(v, e, c);
      HeadlessHasMembers(v, e', c');
      SharedMemberSameChain(v, c, c', Smallest(c.replaced).value);
    }
  }

  lemma AnswerIncludes(v: View, out: seq<Chain>, out': seq<Chain>, c: Chain)
    requires IsAnswer(v, out) && IsAnswer(v, out') && c in out
    ensures c in out'
  {
    assert Justified(v, c);
    var e :| ChainAt(v, e, c);
    assert Represented(v, out', e);
    var c' :| c' in out' && ChainAt(v, e, c');
    SameEndSameChain(v, e, c, c');
  }

  /** There is only one answer. */
  lemma AnswerUnique(v: View, out: seq<Chain>, out': seq<Chain>)
    requires Coherent(v) && IsAnswer(v, out) && IsAnswer(v, out')
    ensures out == out'
  {
    forall c ensures c in out <==> c in out' {
      if c in out {
        AnswerIncludes(v, out, out', c);
      }
      if c in out' {
        AnswerIncludes(v, out', out, c);
      }
    }
    SameEntriesSameMultiset(out, out');
    forall c, c' | c in out && c' in out && ChainLeq(c, c') && ChainLeq(c', c) ensures c == c' {
      ChainsNeverTie(v, c, c');
    }
    SortedUnique(out, out', ChainLeq);
  }

  // ----- non-interference

  /** Two vaults the caller cannot tell apart: hidden documents may differ in status and date only. */
  ghost predicate LooksAlike(v: View, v': View) {
    && v.readable == v'.readable && v.byPath.Keys == v'.byPath.Keys
    && (forall p :: p in v.byPath ==> v.byPath[p].supersededBy == v'.byPath[p].supersededBy)
    && (forall p :: Visible(v, p) ==> v.byPath[p] == v'.byPath[p])
  }

  lemma AlikeGraphs(v: View, v': View)
    requires LooksAlike(v, v')
    ensures ReadableGraph(v) == ReadableGraph(v') && FullGraph(v) == FullGraph(v')
  {
    var g, g' := ReadableGraph(v), ReadableGraph(v');
    assert forall p | p in v.byPath :: Visible(v, p) <==> Visible(v', p);
    assert forall p | p in g :: p in g' && g[p] == g'[p];
    assert forall p | p in g' :: p in g;
    assert g.Keys == g'.Keys;
    var f, f' := FullGraph(v), FullGraph(v');
    assert forall p | p in f :: p in f' && f[p] == f'[p];
    assert forall p | p in f' :: p in f;
    assert f.Keys == f'.Keys;
  }

  lemma AlikeChains(v: View, v': View, e: End, c: Chain)
    requires LooksAlike(v, v') && ChainAt(v, e, c)
    ensures ChainAt(v', e, c)
  {
    AlikeGraphs(v, v');
    var p, depth :| Visible(v, p) && EndsAt(v, p, e, depth);
    assert Visible(v', p) && EndsAt(v', p, e, depth);
    if e.HeadEnd? {
      StaysVisible(v, p, depth);
      if Replaces(v, e.head) {
        var q :| q in v.byPath && v.byPath[q].supersededBy == Some(e.head);
        assert q in v'.byPath && v'.byPath[q].supersededBy == Some(e.head);
      }
    }
    forall r ensures IsEntry(v, e, r) <==> IsEntry(v', e, r) {}
    assert Feeders(v, e) == Feeders(v', e) by {
      forall q ensures q in Feeders(v, e) <==> q in Feeders(v', e) {}
    }
  }

  /** The status and dates of hidden documents never show in the answer. */
  lemma HiddenDocumentsStayHidden(v: View, v': View, out: seq<Chain>, out': seq<Chain>)
    requires Coherent(v) && Coherent(v') && LooksAlike(v, v')
    requires IsAnswer(v, out) && IsAnswer(v', out')
    ensures out == out'
  {
    forall c | c in out ensures Justified(v', c) {
      assert Justified(v, c);
      var e :| ChainAt(v, e, c);
      AlikeChains(v, v', e, c);
    }
    forall e | Warrants(v', e) ensures Represented(v', out, e) {
      assert Represented(v', out', e);
      var c' :| c' in out' && ChainAt(v', e, c');
      AlikeChains(v', v, e, c');
      assert Represented(v, out, e);
      var c :| c in out && ChainAt(v, e, c);
      AlikeChains(v, v', e, c);
    }
    AnswerUnique(v', out, out');
  }

  // ----- the computation

  /** A chain under construction. Drafts live in an arena and are shared by index, as every member of a
      loop leads to the same one. */
  datatype Draft = NewDraft(head: Option<Member>, replaced: seq<Replaced>, hidden: nat, flags: seq<Flag>)

  ghost predicate DraftOk(v: View, e: End, d: Draft, done: set<Path>) {
    && Warrants(v, e)
    && d.head == HeadFor(v, e) && d.flags == FlagsFor(v, e)
    && Distinct(d.replaced)
    && forall r :: r in d.replaced <==> IsEntry(v, e, r) && r.path in done
  }

  /** A key leads to the draft of the one end it belongs to. */
  ghost predicate KeysIndexed(drafts: map<Path, nat>, ends: seq<End>) {
    && (forall k :: k in drafts ==> drafts[k] < |ends| && k in Keys(ends[drafts[k]]))
    && (forall i, k {:trigger k in Keys(ends[i])} :: 0 <= i < |ends| && k in Keys(ends[i]) ==> k in drafts && drafts[k] == i)
  }

  ghost predicate Covered(v: View, ends: seq<End>, p: Path) {
    forall e, d :: EndsAt(v, p, e, d) && Warrants(v, e) ==> e in ends
  }

  ghost predicate Drafting(v: View, done: set<Path>, drafts: map<Path, nat>, arena: seq<Draft>, ends: seq<End>) {
    && |arena| == |ends|
    && (forall i :: 0 <= i < |ends| ==> DraftOk(v, ends[i], arena[i], done))
    && KeysIndexed(drafts, ends)
    && (forall p :: p in done ==> Covered(v, ends, p))
  }

  lemma EntryOnlyAt(v: View, p: Path, e: End, depth: nat, f: End, r: Replaced)
    requires EndsAt(v, p, e, depth) && IsEntry(v, f, r) && r.path == p
    ensures f == e && r.depth == depth
  {
    EndUnique(v, p, e, depth, f, r.depth);
  }

  /** A document of no chain, or one already reckoned with, adds nothing to a draft. */
  lemma DraftUnmoved(v: View, f: End, d: Draft, done: set<Path>, p: Path, e: End, depth: nat)
    requires DraftOk(v, f, d, done) && EndsAt(v, p, e, depth)
    requires f == e ==> e.HeadEnd? && depth == 0
    ensures DraftOk(v, f, d, done + {p})
  {
    forall r | IsEntry(v, f, r) && r.path == p ensures false {
      EntryOnlyAt(v, p, e, depth, f, r);
    }
  }

  lemma DraftPushed(v: View, d: Draft, done: set<Path>, p: Path, e: End, depth: nat)
    requires DraftOk(v, e, d, done) && EndsAt(v, p, e, depth) && Visible(v, p) && p !in done
    requires e.HeadEnd? ==> depth > 0
    ensures DraftOk(v, e, d.(replaced := d.replaced + [Replaced(p, v.byPath[p].status, v.byPath[p].updated, depth)]), done + {p})
  {
    var entry := Replaced(p, v.byPath[p].status, v.byPath[p].updated, depth);
    assert IsEntry(v, e, entry);
    forall r | IsEntry(v, e, r) && r.path == p ensures r == entry {
      EntryOnlyAt(v, p, e, depth, e, r);
    }
  }

  lemma SkipKeepsDrafting(v: View, done: set<Path>, drafts: map<Path, nat>, arena: seq<Draft>, ends: seq<End>,
                          p: Path, e: End, depth: nat)
    requires Drafting(v, done, drafts, arena, ends) && EndsAt(v, p, e, depth) && !Warrants(v, e)
    ensures Drafting(v, done + {p}, drafts, arena, ends)
  {
    forall i | 0 <= i < |ends| ensures DraftOk(v, ends[i], arena[i], done + {p}) {
      DraftUnmoved(v, ends[i], arena[i], done, p, e, depth);
    }
    forall f, d | EndsAt(v, p, f, d) && Warrants(v, f) ensures false {
      EndUnique(v, p, e, depth, f, d);
    }
  }

  lemma PushKeepsDrafting(v: View, done: set<Path>, drafts: map<Path, nat>, arena: seq<Draft>, ends: seq<End>,
                          p: Path, e: End, depth: nat, at: nat, d: Draft)
    requires Drafting(v, done, drafts, arena, ends) && EndsAt(v, p, e, depth)
    requires at < |ends| && ends[at] == e
    requires DraftOk(v, e, d, done + {p})
    ensures Drafting(v, done + {p}, drafts, arena[at := d], ends)
  {
    forall i | 0 <= i < |ends| && i != at ensures DraftOk(v, ends[i], arena[i], done + {p}) {
      EndsDistinct(v, drafts, ends, i, at);
      DraftUnmoved(v, ends[i], arena[i], done, p, e, depth);
    }
    forall f, n | EndsAt(v, p, f, n) && Warrants(v, f) ensures f in ends {
      EndUnique(v, p, e, depth, f, n);
    }
  }

  lemma EndsDistinct(v: View, drafts: map<Path, nat>, ends: seq<End>, i: nat, j: nat)
    requires KeysIndexed(drafts, ends) && i < |ends| && j < |ends| && i != j
    requires Warrants(v, ends[i])
    ensures ends[i] != ends[j]
  {
    var k := SomeKey(v, ends[i]);
    assert k in Keys(ends[i]) && drafts[k] == i;
  }

  lemma SomeKey(v: View, e: End) returns (k: Path)
    requires IsEnd(v, e)
    ensures k in Keys(e)
  {
    match e
    case HeadEnd(h) => k := h;
    case HopEnd(q) => k := q;
    case LoopEnd(ms) =>
      var p, depth :| Visible(v, p) && EndsAt(v, p, e, depth);
      k := At(ReadableGraph(v), p, depth).value;
      LoopMember(ReadableGraph(v), k, ms);
  }

  lemma OpenKeepsIndex(drafts: map<Path, nat>, ends: seq<End>, e: End, drafts': map<Path, nat>)
    requires KeysIndexed(drafts, ends)
    requires forall k :: k in Keys(e) ==> k !in drafts
    requires forall k :: k in drafts' <==> k in drafts || k in Keys(e)
    requires forall k :: k in drafts' ==> drafts'[k] == if k in Keys(e) then |ends| else drafts[k]
    ensures KeysIndexed(drafts', ends + [e])
  {
    var ends' := ends + [e];
    forall i, k | 0 <= i < |ends'| && k in Keys(ends'[i]) ensures k in drafts' && drafts'[k] == i {
      if i < |ends| {
        assert k in Keys(ends[i]);
      }
    }
  }

  /** No document placed so far ends where no draft has been opened. */
  lemma UnopenedIsEmpty(v: View, done: set<Path>, drafts: map<Path, nat>, ends: seq<End>, e: End)
    requires KeysIndexed(drafts, ends) && Warrants(v, e)
    requires forall p :: p in done ==> Covered(v, ends, p)
    requires forall k :: k in Keys(e) ==> k !in drafts
    ensures forall r: Replaced :: r.path in done ==> !IsEntry(v, e, r)
  {
    var k := SomeKey(v, e);
    forall i | 0 <= i < |ends| ensures ends[i] != e {
      assert k in Keys(e);
    }
  }

  /** Opening a draft for an end that has none yet, under all of its keys. */
  lemma OpenKeepsDrafting(v: View, done: set<Path>, drafts: map<Path, nat>, arena: seq<Draft>, ends: seq<End>,
                          e: End, drafts': map<Path, nat>, d: Draft)
    requires Drafting(v, done, drafts, arena, ends) && Warrants(v, e)
    requires forall k :: k in Keys(e) ==> k !in drafts
    requires d == NewDraft(HeadFor(v, e), [], 0, FlagsFor(v, e))
    requires KeysIndexed(drafts', ends + [e])
    ensures Drafting(v, done, drafts', arena + [d], ends + [e])
  {
    UnopenedIsEmpty(v, done, drafts, ends, e);
    assert DraftOk(v, e, d, done);
    forall p | p in done ensures Covered(v, ends + [e], p) {
      assert Covered(v, ends, p);
    }
  }

  /** An end with one key already in use has a draft, under that key. */
  lemma UsedKeyFindsDraft(v: View, done: set<Path>, drafts: map<Path, nat>, arena: seq<Draft>, ends: seq<End>, e: End, k: Path)
    requires Drafting(v, done, drafts, arena, ends) && Warrants(v, e) && k in Keys(e) && k in drafts
    ensures ends[drafts[k]] == e
  {
    assert DraftOk(v, ends[drafts[k]], arena[drafts[k]], done);
    KeyDeterminesEnd(v, ends[drafts[k]], e, k);
  }

  lemma HasPredecessor(v: View, p: Path, h: Path, depth: nat)
    requires EndsAt(v, p, HeadEnd(h), depth) && depth > 0
    ensures Replaces(v, h)
  {
    var g := ReadableGraph(v);
    AtPrefix(g, p, depth - 1, depth);
    var u := At(g, p, depth - 1).value;
    assert u in v.byPath && v.byPath[u].supersededBy == Some(h);
  }

  /** The draft under `key`, opened there if none is. */
  method DraftAt(v: View, drafts0: map<Path, nat>, arena0: seq<Draft>, key: Path, keys: seq<Path>,
                 head: Option<Member>, flags: seq<Flag>, ghost done: set<Path>, ghost ends0: seq<End>, ghost e: End)
    returns (drafts: map<Path, nat>, arena: seq<Draft>, ghost ends: seq<End>, at: nat)
    requires Drafting(v, done, drafts0, arena0, ends0) && Warrants(v, e)
    requires key in keys && ToSet(keys) == Keys(e)
    requires head == HeadFor(v, e) && flags == FlagsFor(v, e)
    ensures Drafting(v, done, drafts, arena, ends)
    ensures at < |ends| && ends[at] == e
    ensures NothingHidden(arena0) ==> NothingHidden(arena)
  {
    drafts, arena, ends := drafts0, arena0, ends0;
    assert key in ToSet(keys);
    if key in drafts {
      at := drafts[key];
      UsedKeyFindsDraft(v, done, drafts, arena, ends, e, key);
      return;
    }
    NoKeyUsed(v, done, drafts, arena, ends, e, key);
    at := |arena|;
    for n := 0 to |keys|
      invariant forall k :: k in drafts <==> k in drafts0 || k in keys[..n]
      invariant forall k :: k in drafts ==> drafts[k] == if k in keys[..n] then |ends0| else drafts0[k]
    {
      drafts := drafts[keys[n] := at];
    }
    assert keys[..|keys|] == keys;
    assert forall k :: k in keys <==> k in Keys(e) by {
      forall k ensures k in keys <==> k in Keys(e) {
        assert k in keys <==> k in ToSet(keys);
      }
    }
    OpenKeepsIndex(drafts0, ends0, e, drafts);
    OpenKeepsDrafting(v, done, drafts0, arena0, ends0, e, drafts, NewDraft(head, [], 0, flags));
    arena := arena + [NewDraft(head, [], 0, flags)];
    ends := ends + [e];
  }

  /** All the keys of an end are in use, or none is. */
  lemma NoKeyUsed(v: View, done: set<Path>, drafts: map<Path, nat>, arena: seq<Draft>, ends: seq<End>, e: End, key: Path)
    requires Drafting(v, done, drafts, arena, ends) && Warrants(v, e) && key in Keys(e) && key !in drafts
    ensures forall k :: k in Keys(e) ==> k !in drafts
  {
    forall k | k in Keys(e) ensures k !in drafts {
      if k in drafts {
        UsedKeyFindsDraft(v, done, drafts, arena, ends, e, k);
      }
    }
  }

  /** Adds one readable document to the chain its walk ends in. */
  method PlaceReadable(v: View, doc: Doc, replacedSomething: set<Path>, drafts0: map<Path, nat>, arena0: seq<Draft>,
                       ghost done: set<Path>, ghost ends0: seq<End>)
    returns (drafts: map<Path, nat>, arena: seq<Draft>, ghost ends: seq<End>)
    requires Coherent(v) && Visible(v, doc.path) && v.byPath[doc.path] == doc && doc.path !in done
    requires forall h :: h in v.byPath ==> (h in replacedSomething <==> Replaces(v, h))
    requires Drafting(v, done, drafts0, arena0, ends0)
    ensures Drafting(v, done + {doc.path}, drafts, arena, ends)
    ensures NothingHidden(arena0) ==> NothingHidden(arena)
  {
    var end := WalkForward(doc, v);
    ghost var e := EndOf(end);
    assert IsEnd(v, e);
    var key, keys, head, flags;
    match end {
      case WalkHead(last, depth, dangling) =>
        if depth > 0 {
          HasPredecessor(v, doc.path, last.path, depth);
        }
        var isChain := depth > 0 || last.path in replacedSomething || dangling || last.status.Superseded?;
        assert isChain <==> Warrants(v, e);
        if !isChain {
          SkipKeepsDrafting(v, done, drafts0, arena0, ends0, doc.path, e, end.depth);
          return drafts0, arena0, ends0;
        }
        key, keys, head, flags := last.path, [last.path], Some(ToMember(last)), StatusFlags(last, dangling);
      case WalkRestricted(hop, depth) =>
        key, keys, head, flags := hop.path, [hop.path], None, [FlagRestricted];
      case WalkLoop(cycle, depth) =>
        key, keys, head, flags := cycle[0].path, Paths(cycle), None, [FlagLoop];
        assert key == keys[0];
    }
    assert ToSet(keys) == Keys(e);
    var at;
    drafts, arena, ends, at := DraftAt(v, drafts0, arena0, key, keys, head, flags, done, ends0, e);
    if !end.WalkHead? || end.depth > 0 {
      DraftPushed(v, arena[at], done, doc.path, e, end.depth);
      var entry := Replaced(doc.path, doc.status, doc.updated, end.depth);
      var d := arena[at].(replaced := arena[at].replaced + [entry]);
      PushKeepsDrafting(v, done, drafts, arena, ends, doc.path, e, end.depth, at, d);
      arena := arena[at := d];
    } else {
      DraftUnmoved(v, e, arena[at], done, doc.path, e, end.depth);
      PushKeepsDrafting(v, done, drafts, arena, ends, doc.path, e, end.depth, at, arena[at]);
      assert arena[at := arena[at]] == arena;
    }
  }

  // ----- crediting hidden predecessors

  /** After `n` hops from `p`: the documents passed, the next one, and the drafts fed on the way. */
  ghost predicate HiddenWalk(v: View, ends: seq<End>, p: Path, n: nat, seen: set<Path>, next: Option<Path>, fed: set<nat>) {
    && next == At(FullGraph(v), p, n + 1)
    && (forall q :: q in seen <==> PassedBy(v, p, n, q))
    && (forall i: nat :: i in fed <==> i < |ends| && FedVia(ends[i], p, seen))
  }

  ghost predicate PassedBy(v: View, p: Path, n: nat, q: Path) {
    exists i: nat :: i <= n && At(FullGraph(v), p, i) == Some(q)
  }

  ghost predicate FedVia(e: End, p: Path, seen: set<Path>) {
    exists q :: q in seen && q != p && q in Keys(e)
  }

  lemma HiddenWalkStep(v: View, drafts: map<Path, nat>, ends: seq<End>, p: Path, n: nat, seen: set<Path>,
                       next: Path, fed: set<nat>)
    requires HiddenWalk(v, ends, p, n, seen, Some(next), fed) && KeysIndexed(drafts, ends) && next != p
    ensures HiddenWalk(v, ends, p, n + 1, seen + {next}, if next in FullGraph(v) then Some(FullGraph(v)[next]) else None,
                       if next in drafts then fed + {drafts[next]} else fed)
  {
    var fed' := if next in drafts then fed + {drafts[next]} else fed;
    forall q ensures q in seen + {next} <==> PassedBy(v, p, n + 1, q) {
      if q in seen {
        var i: nat :| i <= n && At(FullGraph(v), p, i) == Some(q);
        assert i <= n + 1;
      }
    }
    forall i: nat ensures i in fed' <==> i < |ends| && FedVia(ends[i], p, seen + {next}) {
      if i < |ends| && FedVia(ends[i], p, seen + {next}) && !FedVia(ends[i], p, seen) {
        var q :| q in seen + {next} && q != p && q in Keys(ends[i]);
        assert q == next;
      }
      if i < |ends| && FedVia(ends[i], p, seen) {
        var q :| q in seen && q != p && q in Keys(ends[i]);
        assert q in seen + {next};
      }
      if i in fed' && i !in fed {
        assert next in seen + {next} && next in Keys(ends[i]);
      }
    }
  }

  /** A finished walk has passed everything it can reach. */
  lemma {:induction false} NothingBeyond(v: View, ends: seq<End>, p: Path, n: nat, seen: set<Path>,
                                         next: Option<Path>, fed: set<nat>, m: nat)
    requires HiddenWalk(v, ends, p, n, seen, next, fed) && (next.None? || next.value in seen)
    requires At(FullGraph(v), p, m).Some?
    ensures At(FullGraph(v), p, m).value in seen
  {
    if m > n + 1 {
      NothingBeyond(v, ends, p, n, seen, next, fed, m - 1);
      var q := At(FullGraph(v), p, m - 1).value;
      assert PassedBy(v, p, n, q);
      var i: nat :| i <= n && At(FullGraph(v), p, i) == Some(q);
      assert At(FullGraph(v), p, i + 1) == At(FullGraph(v), p, m);
      if i + 1 <= n {
        assert PassedBy(v, p, n, At(FullGraph(v), p, i + 1).value);
      }
    } else if m <= n {
      assert PassedBy(v, p, n, At(FullGraph(v), p, m).value);
    }
  }

  lemma FinishedWalkFeeds(v: View, ends: seq<End>, p: Path, n: nat, seen: set<Path>, next: Option<Path>, fed: set<nat>)
    requires HiddenWalk(v, ends, p, n, seen, next, fed) && (next.None? || next.value in seen)
    ensures forall i: nat :: i in fed <==> i < |ends| && Feeds(v, p, ends[i])
  {
    forall i | 0 <= i < |ends| ensures FedVia(ends[i], p, seen) <==> Feeds(v, p, ends[i]) {
      if FedVia(ends[i], p, seen) {
        var q :| q in seen && q != p && q in Keys(ends[i]);
        assert PassedBy(v, p, n, q);
        assert Reaches(FullGraph(v), p, q);
      }
      if Feeds(v, p, ends[i]) {
        var q :| q in Keys(ends[i]) && q != p && Reaches(FullGraph(v), p, q);
        var m: nat :| At(FullGraph(v), p, m) == Some(q);
        NothingBeyond(v, ends, p, n, seen, next, fed, m);
      }
    }
  }

  function Successor(v: View, doc: Doc): (next: Option<Path>) {
    if doc.supersededBy.Some? && doc.supersededBy.value in v.byPath then doc.supersededBy else None
  }

  lemma SuccessorIsEdge(v: View, p: Path)
    requires Coherent(v) && p in v.byPath
    ensures Successor(v, v.byPath[p]) == if p in FullGraph(v) then Some(FullGraph(v)[p]) else None
    ensures Successor(v, v.byPath[p]).Some? ==> Successor(v, v.byPath[p]).value in v.byPath
  {
  }

  /** The drafts a hidden document's walk passes through, each once however often it is passed. */
  method FedDrafts(v: View, doc: Doc, drafts: map<Path, nat>, ghost ends: seq<End>) returns (fed: set<nat>)
    requires Coherent(v) && doc.path in v.byPath && v.byPath[doc.path] == doc && KeysIndexed(drafts, ends)
    ensures forall i: nat :: i in fed <==> i < |ends| && Feeds(v, doc.path, ends[i])
  {
    fed := {};
    var seen := {doc.path};
    var next := Successor(v, doc);
    ghost var n: nat := 0;
    SuccessorIsEdge(v, doc.path);
    assert At(FullGraph(v), doc.path, 0) == Some(doc.path);
    while next.Some? && next.value !in seen
      invariant HiddenWalk(v, ends, doc.path, n, seen, next, fed)
      invariant doc.path in seen && seen <= v.byPath.Keys && (next.Some? ==> next.value in v.byPath)
      decreases |v.byPath.Keys - seen|
    {
      HiddenWalkStep(v, drafts, ends, doc.path, n, seen, next.value, fed);
      SuccessorIsEdge(v, next.value);
      SubsetCardinality(v.byPath.Keys - (seen + {next.value}), v.byPath.Keys - seen);
      seen := seen + {next.value};
      if next.value in drafts {
        fed := fed + {drafts[next.value]};
      }
      next := Successor(v, v.byPath[next.value]);
      n := n + 1;
    }
    FinishedWalkFeeds(v, ends, doc.path, n, seen, next, fed);
  }

  ghost predicate NothingHidden(arena: seq<Draft>) {
    forall i :: 0 <= i < |arena| ==> arena[i].hidden == 0
  }

  ghost predicate SameButHidden(arena: seq<Draft>, arena': seq<Draft>) {
    |arena| == |arena'| && forall i :: 0 <= i < |arena| ==> arena'[i] == arena[i].(hidden := arena'[i].hidden)
  }

  method Credit(arena0: seq<Draft>, fed: set<nat>) returns (arena: seq<Draft>)
    requires forall i :: i in fed ==> i < |arena0|
    ensures SameButHidden(arena0, arena)
    ensures forall i :: 0 <= i < |arena| ==> arena[i].hidden == arena0[i].hidden + if i in fed then 1 else 0
  {
    arena := arena0;
    var todo := fed;
    while todo != {}
      invariant todo <= fed && SameButHidden(arena0, arena)
      invariant forall i :: 0 <= i < |arena| ==>
        arena[i].hidden == arena0[i].hidden + if i in fed && i !in todo then 1 else 0
      decreases |todo|
    {
      var i := AnyOf(todo);
      todo := todo - {i};
      arena := arena[i := arena[i].(hidden := arena[i].hidden + 1)];
    }
  }

  // ----- the whole computation

  /** Each draft counts the hidden documents of `credited` that feed it. */
  ghost predicate Credited(v: View, credited: set<Path>, arena: seq<Draft>, ends: seq<End>) {
    && |arena| == |ends|
    && forall i :: 0 <= i < |ends| ==> arena[i].hidden == |Feeders(v, ends[i]) * credited|
  }

  lemma CreditOne(v: View, credited: set<Path>, arena: seq<Draft>, ends: seq<End>, p: Path, fed: set<nat>, arena': seq<Draft>)
    requires Credited(v, credited, arena, ends) && p in v.byPath && p !in v.readable && p !in credited
    requires forall i: nat :: i in fed <==> i < |ends| && Feeds(v, p, ends[i])
    requires |arena'| == |arena|
    requires forall i :: 0 <= i < |arena'| ==> arena'[i].hidden == arena[i].hidden + if i in fed then 1 else 0
    ensures Credited(v, credited + {p}, arena', ends)
  {
    forall i | 0 <= i < |ends| ensures arena'[i].hidden == |Feeders(v, ends[i]) * (credited + {p})| {
      var feeders := Feeders(v, ends[i]);
      assert p in feeders <==> i in fed;
      if p in feeders {
        assert feeders * (credited + {p}) == feeders * credited + {p};
      } else {
        assert feeders * (credited + {p}) == feeders * credited;
      }
    }
  }

  lemma HiddenKeepsDrafting(v: View, done: set<Path>, drafts: map<Path, nat>, arena: seq<Draft>, ends: seq<End>, arena': seq<Draft>)
    requires Drafting(v, done, drafts, arena, ends) && SameButHidden(arena, arena')
    ensures Drafting(v, done, drafts, arena', ends)
  {
    forall i | 0 <= i < |ends| ensures DraftOk(v, ends[i], arena'[i], done) {
      assert DraftOk(v, ends[i], arena[i], done);
    }
  }

  function Finish(d: Draft): Chain {
    Chain(d.head, SortBy(d.replaced, ReplacedLeq), Bucket(d.hidden), d.flags)
  }

  lemma ReplacedLeqIsTotal()
    ensures TotalPreorder(ReplacedLeq)
  {
  }

  lemma ChainLeqIsTotal()
    ensures TotalPreorder(ChainLeq)
  {
  }

  lemma FinishedDraft(v: View, e: End, d: Draft, done: set<Path>, credited: set<Path>)
    requires DraftOk(v, e, d, done) && d.hidden == |Feeders(v, e) * credited|
    requires forall p :: Visible(v, p) ==> p in done
    requires forall p :: p in v.byPath && p !in v.readable ==> p in credited
    ensures ChainAt(v, e, Finish(d))
  {
    ReplacedLeqIsTotal();
    SortBySorted(d.replaced, ReplacedLeq);
    SameElements(d.replaced, SortBy(d.replaced, ReplacedLeq));
    DistinctByCount(d.replaced, SortBy(d.replaced, ReplacedLeq));
    assert Feeders(v, e) * credited == Feeders(v, e);
  }

  lemma ChainDeterminesEnd(v: View, e: End, e': End, c: Chain)
    requires Coherent(v) && ChainAt(v, e, c) && ChainAt(v, e', c)
    ensures e == e'
  {
    if !e.HeadEnd? {
      HeadlessHasMembers(v, e, c);
      var r := c.replaced[0];
      assert IsEntry(v, e, r) && IsEntry(v, e', r);
      EndUnique(v, r.path, e, r.depth, e', r.depth);
    }
  }

  ghost predicate AllFinished(v: View, ends: seq<End>, chains: seq<Chain>) {
    |chains| == |ends| && forall i :: 0 <= i < |ends| ==> ChainAt(v, ends[i], chains[i])
  }

  lemma FinishedDistinct(v: View, drafts: map<Path, nat>, ends: seq<End>, chains: seq<Chain>)
    requires Coherent(v) && KeysIndexed(drafts, ends) && AllFinished(v, ends, chains)
    ensures Distinct(chains)
  {
    forall i, j | 0 <= i < j < |chains| ensures chains[i] != chains[j] {
      assert ChainAt(v, ends[i], chains[i]) && ChainAt(v, ends[j], chains[j]);
      EndsDistinct(v, drafts, ends, i, j);
      if chains[i] == chains[j] {
        ChainDeterminesEnd(v, ends[i], ends[j], chains[i]);
      }
    }
  }

  lemma FinishedJustified(v: View, ends: seq<End>, chains: seq<Chain>, c: Chain)
    requires AllFinished(v, ends, chains) && c in chains
    ensures Justified(v, c)
  {
    var i :| 0 <= i < |chains| && chains[i] == c;
    assert ChainAt(v, ends[i], c);
  }

  lemma FinishedRepresented(v: View, done: set<Path>, ends: seq<End>, chains: seq<Chain>, out: seq<Chain>, e: End)
    requires AllFinished(v, ends, chains) && Warrants(v, e)
    requires forall p :: Visible(v, p) ==> p in done && Covered(v, ends, p)
    requires forall c :: c in chains ==> c in out
    ensures Represented(v, out, e)
  {
    EndIsListed(v, done, ends, e);
    var i :| 0 <= i < |ends| && ends[i] == e;
    assert chains[i] in out && ChainAt(v, e, chains[i]);
  }

  lemma FinishedIsAnswer(v: View, done: set<Path>, drafts: map<Path, nat>, ends: seq<End>, chains: seq<Chain>)
    requires Coherent(v) && KeysIndexed(drafts, ends) && AllFinished(v, ends, chains)
    requires forall p :: Visible(v, p) ==> p in done && Covered(v, ends, p)
    ensures IsAnswer(v, SortBy(chains, ChainLeq))
  {
    var out := SortBy(chains, ChainLeq);
    ChainLeqIsTotal();
    SortBySorted(chains, ChainLeq);
    SameElements(chains, out);
    FinishedDistinct(v, drafts, ends, chains);
    DistinctByCount(chains, out);
    forall c | c in out ensures Justified(v, c) {
      FinishedJustified(v, ends, chains, c);
    }
    forall e | Warrants(v, e) ensures Represented(v, out, e) {
      FinishedRepresented(v, done, ends, chains, out, e);
    }
  }

  lemma EndIsListed(v: View, done: set<Path>, ends: seq<End>, e: End)
    requires Warrants(v, e)
    requires forall p :: Visible(v, p) ==> p in done && Covered(v, ends, p)
    ensures e in ends
  {
    var p, depth :| Visible(v, p) && EndsAt(v, p, e, depth);
    assert Covered(v, ends, p);
  }

  ghost predicate OnePerPath(docs: seq<Doc>) {
    Distinct(Paths(docs))
  }

  /** The vault as these documents make it up. */
  ghost predicate ViewOf(docs: seq<Doc>, readable: set<Path>, v: View) {
    && v.readable == readable
    && (forall p :: p in v.byPath <==> p in Paths(docs))
    && (forall i :: 0 <= i < |docs| ==> v.byPath[docs[i].path] == docs[i])
  }

  method IndexDocs(docs: seq<Doc>, readable: set<Path>) returns (v: View)
    requires OnePerPath(docs)
    ensures ViewOf(docs, readable, v) && Coherent(v)
  {
    var byPath: map<Path, Doc> := map[];
    for n := 0 to |docs|
      invariant forall p :: p in byPath <==> p in Paths(docs)[..n]
      invariant forall i :: 0 <= i < n ==> byPath[docs[i].path] == docs[i]
    {
      assert Paths(docs)[n] == docs[n].path;
      byPath := byPath[docs[n].path := docs[n]];
    }
    v := View(byPath, readable);
    forall p | p in byPath ensures byPath[p].path == p {
      var i :| 0 <= i < |docs| && Paths(docs)[i] == p;
    }
  }

  method ReplacedTargets(docs: seq<Doc>, v: View) returns (targets: set<Path>)
    requires OnePerPath(docs) && ViewOf(docs, v.readable, v)
    ensures forall h :: h in v.byPath ==> (h in targets <==> Replaces(v, h))
  {
    targets := {};
    for n := 0 to |docs|
      invariant forall h :: h in targets <==> h in v.byPath && exists i :: 0 <= i < n && docs[i].supersededBy == Some(h)
    {
      var doc := docs[n];
      if doc.supersededBy.Some? && doc.supersededBy.value in v.byPath {
        targets := targets + {doc.supersededBy.value};
      }
    }
    forall h | h in v.byPath ensures h in targets <==> Replaces(v, h) {
      if h in targets {
        var i :| 0 <= i < |docs| && docs[i].supersededBy == Some(h);
        assert Paths(docs)[i] in v.byPath;
        assert docs[i].path in v.byPath && v.byPath[docs[i].path].supersededBy == Some(h);
      }
      if Replaces(v, h) {
        var p :| p in v.byPath && v.byPath[p].supersededBy == Some(h);
        var i :| 0 <= i < |docs| && Paths(docs)[i] == p;
      }
    }
  }

  /** Places every readable document. */
  method PlaceAll(docs: seq<Doc>, v: View)
    returns (drafts: map<Path, nat>, arena: seq<Draft>, ghost ends: seq<End>, ghost done: set<Path>)
    requires OnePerPath(docs) && ViewOf(docs, v.readable, v) && Coherent(v)
    ensures Drafting(v, done, drafts, arena, ends)
    ensures forall p :: Visible(v, p) ==> p in done
    ensures NothingHidden(arena)
  {
    var replacedSomething := ReplacedTargets(docs, v);
    drafts, arena, ends, done := map[], [], [], {};
    for n := 0 to |docs|
      invariant Drafting(v, done, drafts, arena, ends)
      invariant forall p :: p in done <==> p in Paths(docs)[..n] && p in v.readable
      invariant NothingHidden(arena)
    {
      assert Paths(docs)[n] == docs[n].path;
      if docs[n].path !in v.readable {
        continue;
      }
      drafts, arena, ends := PlaceReadable(v, docs[n], replacedSomething, drafts, arena, done, ends);
      done := done + {docs[n].path};
    }
    assert Paths(docs)[..|docs|] == Paths(docs);
  }

  /** Credits every chain with the hidden documents that feed it. */
  method CreditAll(docs: seq<Doc>, v: View, drafts: map<Path, nat>, arena0: seq<Draft>, ghost ends: seq<End>)
    returns (arena: seq<Draft>, ghost credited: set<Path>)
    requires OnePerPath(docs) && ViewOf(docs, v.readable, v) && Coherent(v)
    requires KeysIndexed(drafts, ends) && |arena0| == |ends|
    requires NothingHidden(arena0)
    ensures SameButHidden(arena0, arena) && Credited(v, credited, arena, ends)
    ensures forall p :: p in v.byPath && p !in v.readable ==> p in credited
  {
    arena, credited := arena0, {};
    for n := 0 to |docs|
      invariant SameButHidden(arena0, arena) && Credited(v, credited, arena, ends)
      invariant forall p :: p in credited <==> p in Paths(docs)[..n] && p !in v.readable
    {
      assert Paths(docs)[n] == docs[n].path;
      if docs[n].path in v.readable {
        continue;
      }
      var fed := FedDrafts(v, docs[n], drafts, ends);
      ghost var before := arena;
      arena := Credit(arena, fed);
      CreditOne(v, credited, before, ends, docs[n].path, fed, arena);
      credited := credited + {docs[n].path};
    }
    assert Paths(docs)[..|docs|] == Paths(docs);
  }

  lemma FinishedAt(v: View, arena: seq<Draft>, done: set<Path>, credited: set<Path>, drafts: map<Path, nat>, ends: seq<End>,
                   n: nat)
    requires Drafting(v, done, drafts, arena, ends) && Credited(v, credited, arena, ends) && n < |arena|
    requires forall p :: Visible(v, p) ==> p in done
    requires forall p :: p in v.byPath && p !in v.readable ==> p in credited
    ensures ChainAt(v, ends[n], Finish(arena[n]))
  {
    FinishedDraft(v, ends[n], arena[n], done, credited);
  }

  /** Turns every draft into the chain the caller sees. */
  method FinishAll(v: View, arena: seq<Draft>, ghost done: set<Path>, ghost credited: set<Path>,
                   ghost drafts: map<Path, nat>, ghost ends: seq<End>)
    returns (chains: seq<Chain>)
    requires Drafting(v, done, drafts, arena, ends) && Credited(v, credited, arena, ends)
    requires forall p :: Visible(v, p) ==> p in done
    requires forall p :: p in v.byPath && p !in v.readable ==> p in credited
    ensures AllFinished(v, ends, chains)
  {
    chains := [];
    assert FinishedSoFar(v, ends, chains, 0);
    for n := 0 to |arena|
      invariant FinishedSoFar(v, ends, chains, n)
    {
      FinishedAt(v, arena, done, credited, drafts, ends, n);
      FinishedStep(v, ends, chains, n, Finish(arena[n]));
      chains := chains + [Finish(arena[n])];
    }
  }

  ghost predicate FinishedSoFar(v: View, ends: seq<End>, chains: seq<Chain>, n: nat) {
    n == |chains| <= |ends| && forall i :: 0 <= i < n ==> ChainAt(v, ends[i], chains[i])
  }

  lemma FinishedStep(v: View, ends: seq<End>, chains: seq<Chain>, n: nat, c: Chain)
    requires FinishedSoFar(v, ends, chains, n) && n < |ends| && ChainAt(v, ends[n], c)
    ensures FinishedSoFar(v, ends, chains + [c], n + 1)
  {
  }

  /** Every chain the caller may see: one per end that has one, each readable document behind it at its
      exact depth, hidden predecessors only as a coarse bucket. */
  method ComputeChains(docs: seq<Doc>, readable: set<Path>) returns (out: seq<Chain>)
    requires OnePerPath(docs)
    ensures exists v :: ViewOf(docs, readable, v)
    ensures forall v :: ViewOf(docs, readable, v) ==> Coherent(v) && IsAnswer(v, out)
  {
    var view := IndexDocs(docs, readable);
    ghost var v := view;
    var drafts, arena;
    ghost var ends, done, credited;
    drafts, arena, ends, done := PlaceAll(docs, view);
    ghost var placed := arena;
    arena, credited := CreditAll(docs, view, drafts, arena, ends);
    HiddenKeepsDrafting(v, done, drafts, placed, ends, arena);
    var chains := FinishAll(view, arena, done, credited, drafts, ends);
    FinishedIsAnswer(v, done, drafts, ends, chains);
    out := SortBy(chains, ChainLeq);
    forall w | ViewOf(docs, readable, w) ensures w == v {
      ViewUnique(docs, readable, w, v);
    }
  }

  lemma ViewUnique(docs: seq<Doc>, readable: set<Path>, v: View, w: View)
    requires ViewOf(docs, readable, v) && ViewOf(docs, readable, w)
    ensures v == w
  {
    forall p ensures p in v.byPath <==> p in w.byPath {
      assert p in v.byPath <==> p in Paths(docs);
    }
    forall p | p in v.byPath ensures w.byPath[p] == v.byPath[p] {
      var i :| 0 <= i < |docs| && Paths(docs)[i] == p;
      assert v.byPath[docs[i].path] == docs[i] && w.byPath[docs[i].path] == docs[i];
    }
    assert v.byPath == w.byPath;
  }
}

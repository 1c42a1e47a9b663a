/** Positions of several principals on one claim: assertion, self-supersession, conflict and its record. */
module Positions {
  import opened Base
  import opened SequentialIds

  datatype Stance = Asserts | Disputes | Qualifies

  datatype Confidence = Low | Medium | High

  datatype Provenance = Direct | Synthesized | Inferred

  datatype Position = Position(id: string, principal: string, stance: Stance, statement: Option<string>,
                               confidence: Confidence, provenance: Provenance, validFrom: Option<string>,
                               supersededBy: Option<string>, created: string, sources: seq<string>)

  datatype AssertInput = AssertInput(principal: string, stance: Stance, statement: Option<string>,
                                     confidence: Confidence, provenance: Provenance, validFrom: Option<string>,
                                     created: string, sources: seq<string>)

  const PREFIX := "pos-"

  function Ids(ps: seq<Position>): (ids: seq<string>)
    ensures |ids| == |ps| && forall i :: 0 <= i < |ps| ==> ids[i] == ps[i].id
  {
    seq(|ps|, i requires 0 <= i < |ps| => ps[i].id)
  }

  predicate Live(p: Position) {
    p.supersededBy.None?
  }

  function LegacySnapshot(confidence: Confidence, provenance: Provenance, validFrom: Option<string>, updated: string): Position {
    Position("pos-000", "unknown", Asserts, None, confidence, provenance, validFrom, None, updated, [])
  }

  // ----- assertion

  function NewPosition(existing: seq<Position>, input: AssertInput): Position {
    Position(NextId(PREFIX, Ids(existing)), input.principal, input.stance, input.statement, input.confidence,
             input.provenance, input.validFrom, None, input.created, input.sources)
  }

  function Revised(p: Position, principal: string, id: string): Position {
    if p.principal == principal && Live(p) then p.(supersededBy := Some(id)) else p
  }

  /** The caller's prior live position is superseded by the new one, which goes last. */
  function ApplyAssert(positions: Option<seq<Position>>, input: AssertInput): (r: seq<Position>) {
    var existing := if positions.Some? then positions.value else [];
    var incoming := NewPosition(existing, input);
    seq(|existing|, i requires 0 <= i < |existing| => Revised(existing[i], input.principal, incoming.id)) + [incoming]
  }

  // ----- what every reachable set of positions keeps

  /** A superseded position is superseded by a later one of the same principal. */
  ghost predicate PointsForward(ps: seq<Position>, i: nat)
    requires i < |ps|
  {
    ps[i].supersededBy.Some? ==>
      exists j :: i < j < |ps| && ps[j].id == ps[i].supersededBy.value && ps[j].principal == ps[i].principal
  }

  ghost predicate Orderly(ps: seq<Position>) {
    && Distinct(Ids(ps))
    && (forall i {:trigger PointsForward(ps, i)} :: 0 <= i < |ps| ==> PointsForward(ps, i))
    && (forall i, j :: 0 <= i < j < |ps| && ps[i].principal == ps[j].principal ==> !Live(ps[i]))
  }

  lemma AssertShape(ps: seq<Position>, input: AssertInput)
    ensures
      var next := ApplyAssert(Some(ps), input);
      && |next| == |ps| + 1 && next[|ps|] == NewPosition(ps, input)
      && forall i :: 0 <= i < |ps| ==> next[i] == Revised(ps[i], input.principal, next[|ps|].id)
  {
  }

  lemma AssertKeepsIdsDistinct(ps: seq<Position>, input: AssertInput)
    requires Distinct(Ids(ps))
    ensures Distinct(Ids(ApplyAssert(Some(ps), input)))
  {
    AssertShape(ps, input);
    var next := ApplyAssert(Some(ps), input);
    NextIdIsFresh(PREFIX, Ids(ps));
    forall i, j | 0 <= i < j < |next| ensures Ids(next)[i] != Ids(next)[j] {
      assert Ids(next)[i] == Ids(ps)[i];
      if j < |ps| {
        assert Ids(next)[j] == Ids(ps)[j];
      }
    }
  }

  lemma AssertStaysOrderly(ps: seq<Position>, input: AssertInput)
    requires Orderly(ps)
    ensures Orderly(ApplyAssert(Some(ps), input))
  {
    AssertShape(ps, input);
    AssertKeepsIdsDistinct(ps, input);
    var next := ApplyAssert(Some(ps), input);
    forall i | 0 <= i < |next| ensures PointsForward(next, i) {
      if i < |ps| {
        assert PointsForward(ps, i);
        if ps[i].supersededBy.Some? {
          var j :| i < j < |ps| && ps[j].id == ps[i].supersededBy.value && ps[j].principal == ps[i].principal;
          assert next[j].id == ps[j].id && next[j].principal == ps[j].principal;
        } else {
          assert next[|ps|].principal == input.principal;
        }
      }
    }
  }

  ghost function RunFrom(start: seq<Position>, inputs: seq<AssertInput>): seq<Position> {
    if inputs == [] then start else ApplyAssert(Some(RunFrom(start, inputs[..|inputs| - 1])), inputs[|inputs| - 1])
  }

  /** A claim starts without positions, or from the snapshot of a legacy document. */
  ghost predicate IsStart(ps: seq<Position>) {
    ps == [] || exists c, p, v, u :: ps == [LegacySnapshot(c, p, v, u)]
  }

  /** Every reachable set of positions is orderly. */
  lemma {:induction false} ReachableIsOrderly(start: seq<Position>, inputs: seq<AssertInput>)
    requires IsStart(start)
    ensures Orderly(RunFrom(start, inputs))
  {
    if inputs != [] {
      ReachableIsOrderly(start, inputs[..|inputs| - 1]);
      AssertStaysOrderly(RunFrom(start, inputs[..|inputs| - 1]), inputs[|inputs| - 1]);
    }
  }

  // ----- following a chain of revisions

  type ById = map<string, Position>

  /** Every entry under its id; of several with one id, the last. */
  function IndexById(ps: seq<Position>): (m: ById)
    ensures forall id :: id in m <==> id in Ids(ps)
    ensures forall id :: id in m ==> m[id].id == id && m[id] in ps
  {
    if ps == [] then map[]
    else
      assert ps == ps[..|ps| - 1] + [ps[|ps| - 1]];
      assert Ids(ps) == Ids(ps[..|ps| - 1]) + [ps[|ps| - 1].id];
      IndexById(ps[..|ps| - 1])[ps[|ps| - 1].id := ps[|ps| - 1]]
  }

  lemma {:induction false} IndexFinds(ps: seq<Position>, i: nat)
    requires Distinct(Ids(ps)) && i < |ps|
    ensures ps[i].id in IndexById(ps) && IndexById(ps)[ps[i].id] == ps[i]
  {
    var front := ps[..|ps| - 1];
    assert Ids(ps)[i] == ps[i].id && Ids(ps)[|ps| - 1] == ps[|ps| - 1].id;
    if i < |ps| - 1 {
      forall j, k | 0 <= j < k < |front| ensures Ids(front)[j] != Ids(front)[k] {
        assert Ids(ps)[j] != Ids(ps)[k];
      }
      IndexFinds(front, i);
    }
  }

  /** The entry `n` revisions after `id`, unless the chain has ended or broken off by then. */
  ghost function After(byId: ById, id: string, n: nat): Option<Position> {
    if n == 0 then (if id in byId then Some(byId[id]) else None)
    else
      var p := After(byId, id, n - 1);
      if p.Some? && p.value.supersededBy.Some? && p.value.supersededBy.value in byId then Some(byId[p.value.supersededBy.value])
      else None
  }

  /** The chain from `id` ends at the live entry `e`. */
  ghost predicate EndsIn(byId: ById, id: string, e: Position) {
    Live(e) && exists n: nat :: After(byId, id, n) == Some(e)
  }

  /** Walks the revisions of an entry until one is live. Ids that lead nowhere, or round and round, have no end. */
  method ChainEnd(byId: ById, id: string) returns (end: Option<Position>)
    requires forall k :: k in byId ==> byId[k].id == k
    ensures end.Some? ==> EndsIn(byId, id, end.value)
    ensures end.None? ==> forall e :: !EndsIn(byId, id, e)
  {
    if id !in byId {
      forall n: nat ensures After(byId, id, n).None? {
        NothingAfterNothing(byId, id, 0, n);
      }
      return None;
    }
    var cur := byId[id];
    var seen := {cur.id};
    ghost var n: nat := 0;
    while cur.supersededBy.Some?
      invariant cur.id in byId && byId[cur.id] == cur
      invariant Passed(byId, id, n, cur, seen)
      decreases |byId.Keys - seen|
    {
      var target := cur.supersededBy.value;
      if target !in byId {
        BrokenOff(byId, id, n, cur, seen);
        return None;
      }
      if target in seen {
        GoesRound(byId, id, n, cur, seen);
        return None;
      }
      SubsetCardinality(byId.Keys - (seen + {target}), byId.Keys - seen);
      PassOn(byId, id, n, cur, seen);
      cur := byId[target];
      seen := seen + {target};
      n := n + 1;
    }
    return Some(cur);
  }

  /** Entry `s` comes up within `n` hops from `id`. */
  ghost predicate SeenBy(byId: ById, id: string, n: nat, s: string) {
    exists k: nat :: k <= n && After(byId, id, k).Some? && After(byId, id, k).value.id == s
  }

  /** After `n` revisions the walk is at `cur`, having met exactly `seen`, nothing live before. */
  ghost predicate Passed(byId: ById, id: string, n: nat, cur: Position, seen: set<string>) {
    && After(byId, id, n) == Some(cur)
    && (forall k: nat :: k <= n ==> After(byId, id, k).Some? && After(byId, id, k).value.id in seen)
    && (forall s :: s in seen ==> SeenBy(byId, id, n, s))
    && (forall k: nat :: k < n ==> After(byId, id, k).Some? && !Live(After(byId, id, k).value))
  }

  lemma PassOn(byId: ById, id: string, n: nat, cur: Position, seen: set<string>)
    requires forall k :: k in byId ==> byId[k].id == k
    requires Passed(byId, id, n, cur, seen) && cur.supersededBy.Some? && cur.supersededBy.value in byId
    ensures Passed(byId, id, n + 1, byId[cur.supersededBy.value], seen + {cur.supersededBy.value})
  {
    var target := cur.supersededBy.value;
    assert After(byId, id, n + 1) == Some(byId[target]);
    forall s | s in seen + {target} ensures SeenBy(byId, id, n + 1, s) {
      if s == target {
        assert After(byId, id, n + 1).value.id == s;
      } else {
        assert SeenBy(byId, id, n, s);
        var k: nat :| k <= n && After(byId, id, k).Some? && After(byId, id, k).value.id == s;
        assert k <= n + 1;
      }
    }
  }

  lemma {:induction false} NothingAfterNothing(byId: ById, id: string, n: nat, k: nat)
    requires n <= k && After(byId, id, n).None?
    ensures After(byId, id, k).None?
  {
    if n < k {
      NothingAfterNothing(byId, id, n, k - 1);
    }
  }

  lemma BrokenOff(byId: ById, id: string, n: nat, cur: Position, seen: set<string>)
    requires Passed(byId, id, n, cur, seen) && cur.supersededBy.Some? && cur.supersededBy.value !in byId
    ensures forall e :: !EndsIn(byId, id, e)
  {
    forall k: nat ensures After(byId, id, k).Some? ==> !Live(After(byId, id, k).value) {
      if k > n {
        NothingAfterNothing(byId, id, n + 1, k);
      }
    }
  }

  lemma GoesRound(byId: ById, id: string, n: nat, cur: Position, seen: set<string>)
    requires forall k :: k in byId ==> byId[k].id == k
    requires Passed(byId, id, n, cur, seen) && cur.supersededBy.Some? && cur.supersededBy.value in byId
    requires cur.supersededBy.value in seen
    ensures forall e :: !EndsIn(byId, id, e)
  {
    var target := cur.supersededBy.value;
    var m: nat :| m <= n && After(byId, id, m).Some? && After(byId, id, m).value.id == target;
    AfterIsIndexed(byId, id, m);
    assert After(byId, id, n + 1) == Some(byId[target]) == After(byId, id, m);
    forall k: nat ensures After(byId, id, k).Some? ==> !Live(After(byId, id, k).value) {
      var i := StaysSeen(byId, id, n, m, k);
    }
  }

  /** A chain that comes back to entry `m` after `n` never shows anything but its first `n + 1` entries. */
  lemma {:induction false} StaysSeen(byId: ById, id: string, n: nat, m: nat, k: nat) returns (i: nat)
    requires m <= n && After(byId, id, n + 1) == After(byId, id, m)
    ensures i <= n && After(byId, id, k) == After(byId, id, i)
  {
    if k <= n {
      i := k;
    } else {
      var h := StaysSeen(byId, id, n, m, k - 1);
      assert After(byId, id, k) == After(byId, id, h + 1);
      i := if h == n then m else h + 1;
    }
  }

  lemma AfterIsIndexed(byId: ById, id: string, n: nat)
    requires forall k :: k in byId ==> byId[k].id == k
    requires After(byId, id, n).Some?
    ensures After(byId, id, n).value.id in byId && byId[After(byId, id, n).value.id] == After(byId, id, n).value
  {
  }

  lemma NextRevision(ps: seq<Position>, i: nat) returns (k: nat)
    requires Orderly(ps) && i < |ps| && !Live(ps[i])
    ensures i < k < |ps| && ps[k].principal == ps[i].principal
    ensures
      var byId := IndexById(ps);
      ps[i].id in byId && byId[ps[i].id].supersededBy == Some(ps[k].id) && ps[k].id in byId
  {
    assert PointsForward(ps, i);
    k :| i < k < |ps| && ps[k].id == ps[i].supersededBy.value && ps[k].principal == ps[i].principal;
    IndexFinds(ps, i);
    IndexFinds(ps, k);
  }

  lemma AtItself(ps: seq<Position>, byId: ById, i: nat)
    requires Orderly(ps) && i < |ps| && byId == IndexById(ps)
    ensures After(byId, ps[i].id, 0) == Some(ps[i])
  {
    IndexFinds(ps, i);
  }

  /** `e` is what `n` revisions from entry `id` lead to, live and of `principal`. */
  ghost predicate LeadsTo(byId: ById, id: string, n: nat, e: Position, principal: string) {
    After(byId, id, n) == Some(e) && Live(e) && e.principal == principal
  }

  lemma ThroughRevision(ps: seq<Position>, byId: ById, i: nat, k: nat, m: nat, e: Position)
    requires i < |ps| && k < |ps| && ps[k].principal == ps[i].principal
    requires ps[i].id in byId && byId[ps[i].id].supersededBy == Some(ps[k].id) && ps[k].id in byId
    requires LeadsTo(byId, ps[k].id, m, e, ps[k].principal)
    ensures LeadsTo(byId, ps[i].id, m + 1, e, ps[i].principal)
  {
    AfterOneRevision(byId, ps[i].id, ps[k].id, m);
  }

  /** On an orderly set every chain ends, in the one live position of the same principal. */
  lemma {:induction false} ChainsEndLive(ps: seq<Position>, byId: ById, i: nat) returns (j: nat, n: nat)
    requires Orderly(ps) && i < |ps| && byId == IndexById(ps)
    ensures i <= j < |ps| && LeadsTo(byId, ps[i].id, n, ps[j], ps[i].principal)
    decreases |ps| - i
  {
    if Live(ps[i]) {
      AtItself(ps, byId, i);
      j, n := i, 0;
    } else {
      var k := NextRevision(ps, i);
      j, n := ChainsEndLive(ps, byId, k);
      ThroughRevision(ps, byId, i, k, n, ps[j]);
      n := n + 1;
    }
  }

  lemma {:induction false} AfterOneRevision(byId: ById, id: string, next: string, n: nat)
    requires id in byId && byId[id].supersededBy == Some(next) && next in byId
    ensures After(byId, id, n + 1) == After(byId, next, n)
  {
    if n == 0 {
      assert After(byId, id, 0) == Some(byId[id]);
    } else {
      AfterOneRevision(byId, id, next, n - 1);
    }
  }

  lemma OneLivePerPrincipal(ps: seq<Position>, i: nat, j: nat)
    requires Orderly(ps) && i < |ps| && j < |ps| && Live(ps[i]) && Live(ps[j]) && ps[i].principal == ps[j].principal
    ensures i == j
  {
  }

  /** On every reachable set, the chain end of any entry is its principal's live entry, and there is one. */
  lemma ChainEndIsPrincipalsLive(start: seq<Position>, inputs: seq<AssertInput>, i: nat, e: Position)
    requires IsStart(start) && i < |RunFrom(start, inputs)|
    ensures
      var ps := RunFrom(start, inputs);
      EndsIn(IndexById(ps), ps[i].id, e) <==> e in ps && Live(e) && e.principal == ps[i].principal
  {
    var ps := RunFrom(start, inputs);
    ReachableIsOrderly(start, inputs);
    var j, n := ChainsEndLive(ps, IndexById(ps), i);
    if EndsIn(IndexById(ps), ps[i].id, e) {
      var m: nat :| After(IndexById(ps), ps[i].id, m) == Some(e);
      EndsOnce(IndexById(ps), ps[i].id, n, m);
    }
    if e in ps && Live(e) && e.principal == ps[i].principal {
      var k :| 0 <= k < |ps| && ps[k] == e;
      OneLivePerPrincipal(ps, j, k);
    }
  }

  lemma EndsOnce(byId: ById, id: string, n: nat, m: nat)
    requires After(byId, id, n).Some? && Live(After(byId, id, n).value)
    requires After(byId, id, m).Some? && Live(After(byId, id, m).value)
    ensures n == m
  {
    if n < m {
      NothingAfterLive(byId, id, n, m);
    } else if m < n {
      NothingAfterLive(byId, id, m, n);
    }
  }

  lemma NothingAfterLive(byId: ById, id: string, n: nat, k: nat)
    requires After(byId, id, n).Some? && Live(After(byId, id, n).value) && n < k
    ensures After(byId, id, k).None?
  {
    NothingAfterNothing(byId, id, n + 1, k);
  }

  // ----- the foreign-position guard

  datatype Violation = Removes(id: string, principal: string) | Alters(id: string, principal: string)

  /** `next` is `held` with nothing changed but that it is now superseded, by an entry of its own principal. */
  ghost predicate SelfSuperseded(held: Position, next: Position, after: ById) {
    Live(held) && exists id :: id in after && after[id].principal == held.principal && next == held.(supersededBy := Some(id))
  }

  /** What the guard tolerates of another principal's entry: it stays, or it is superseded by its own principal. */
  ghost predicate Tolerated(held: Position, after: ById) {
    held.id in after && (after[held.id] == held || SelfSuperseded(held, after[held.id], after))
  }

  /** What the guard answers: whether everybody else's entries are tolerated. */
  ghost predicate Accepts(before: seq<Position>, after: seq<Position>, user: string) {
    forall p :: p in before && p.principal != user ==> Tolerated(p, IndexById(after))
  }

  method ForeignPositionViolation(before: seq<Position>, after: Option<seq<Position>>, user: string)
    returns (v: Option<Violation>)
    ensures v.None? <==> Accepts(before, if after.Some? then after.value else [], user)
  {
    var incoming := if after.Some? then after.value else [];
    var byId := IndexById(incoming);
    for n := 0 to |before|
      invariant forall p :: p in before[..n] && p.principal != user ==> Tolerated(p, byId)
    {
      var held := before[n];
      assert held in before;
      PrefixStep(before, n);
      if held.principal == user {
        continue;
      }
      if held.id !in byId {
        return Some(Removes(held.id, held.principal));
      }
      var next := byId[held.id];
      if held == next {
        continue;
      }
      var onlySupersededByChanged := held == next.(supersededBy := held.supersededBy);
      if onlySupersededByChanged && held.supersededBy.None? && next.supersededBy.Some?
         && next.supersededBy.value in byId && byId[next.supersededBy.value].principal == held.principal {
        continue;
      }
      return Some(Alters(held.id, held.principal));
    }
    assert before[..|before|] == before;
    return None;
  }

  /** Entry `p` is neither removed nor altered: it is still there, or superseded by its own principal. */
  ghost predicate Kept(p: Position, after: seq<Position>) {
    p in after || exists q :: q in after && SelfSuperseded(p, q, IndexById(after))
  }

  ghost predicate AllKept(before: seq<Position>, after: seq<Position>, user: string) {
    forall p :: p in before && p.principal != user ==> Kept(p, after)
  }

  ghost predicate RightAbout(after: seq<Position>, user: string, before: seq<Position>) {
    Accepts(before, after, user) <==> AllKept(before, after, user)
  }

  lemma KeptIsTolerated(p: Position, after: seq<Position>)
    requires Kept(p, after)
    requires forall q :: q in after && q.principal == p.principal ==> Tolerated(q, IndexById(after))
    ensures Tolerated(p, IndexById(after))
  {
    if p !in after {
      var q :| q in after && SelfSuperseded(p, q, IndexById(after));
      assert Tolerated(q, IndexById(after));
    }
  }

  /** Whatever the documents, a change the guard accepts removes and alters nothing of anybody else's. It also
      accepts every such change exactly when it would accept the new document left as it is. */
  lemma GuardIsExact(after: seq<Position>, user: string)
    ensures forall before :: Accepts(before, after, user) ==> AllKept(before, after, user)
    ensures (forall before :: RightAbout(after, user, before)) <==> Accepts(after, after, user)
    ensures Distinct(Ids(after)) ==> Accepts(after, after, user)
  {
    assert forall p: Position :: Tolerated(p, IndexById(after)) ==> Kept(p, after);
    assert AllKept(after, after, user);
    if !Accepts(after, after, user) {
      assert !RightAbout(after, user, after);
    } else {
      forall before: seq<Position> ensures RightAbout(after, user, before) {
        forall p: Position | p in before && p.principal != user && Kept(p, after) ensures Tolerated(p, IndexById(after)) {
          KeptIsTolerated(p, after);
        }
      }
    }
    if Distinct(Ids(after)) {
      forall q | q in after ensures Tolerated(q, IndexById(after)) {
        var i :| 0 <= i < |after| && after[i] == q;
        IndexFinds(after, i);
      }
    }
  }

  /** An unchanged document is refused when it has two entries of somebody else's under one id, unless the
      later is the earlier superseded by its own principal. */
  lemma RepeatedIdIsRefused(x: Position, y: Position, user: string)
    requires x.id == y.id && x != y && x.principal != user && !SelfSuperseded(x, y, IndexById([x, y]))
    ensures AllKept([x, y], [x, y], user) && !Accepts([x, y], [x, y], user)
  {
    var after := [x, y];
    assert after[..1] == [x] && after[1] == y;
    assert IndexById(after)[x.id] == y;
    assert x in after;
  }

  /** The guard lets every assertion through, whoever replays it. */
  lemma AssertIsTolerated(ps: seq<Position>, input: AssertInput, p: Position)
    requires Orderly(ps) && p in ps
    ensures Tolerated(p, IndexById(ApplyAssert(Some(ps), input)))
  {
    AssertShape(ps, input);
    AssertKeepsIdsDistinct(ps, input);
    var next := ApplyAssert(Some(ps), input);
    var i :| 0 <= i < |ps| && ps[i] == p;
    IndexFinds(next, i);
    IndexFinds(next, |ps|);
  }

  /** What an assertion records: the principal's own words, in a new live entry, with its former live entry, if it had
      one, pointing there, and everything else as it was. */
  lemma AssertRecords(ps: seq<Position>, input: AssertInput)
    ensures
      var r := ApplyAssert(Some(ps), input);
      && |r| == |ps| + 1
      && var incoming := r[|ps|];
         && incoming.id !in Ids(ps) && incoming.supersededBy.None?
         && incoming.principal == input.principal && incoming.stance == input.stance && incoming.statement == input.statement
         && incoming.confidence == input.confidence && incoming.provenance == input.provenance
         && incoming.validFrom == input.validFrom && incoming.created == input.created && incoming.sources == input.sources
         && (forall i :: 0 <= i < |ps| ==>
               r[i] == if ps[i].principal == input.principal && ps[i].supersededBy.None?
                       then ps[i].(supersededBy := Some(incoming.id)) else ps[i])
    ensures ApplyAssert(None, input) == ApplyAssert(Some([]), input)
  {
    AssertShape(ps, input);
    NextIdIsFresh(PREFIX, Ids(ps));
  }

  /** What a claim written before positions counts as: one live assertion, of nobody known. */
  lemma LegacyMeans(confidence: Confidence, provenance: Provenance, validFrom: Option<string>, updated: string)
    ensures
      var p := LegacySnapshot(confidence, provenance, validFrom, updated);
      && p.id == "pos-000" && p.principal == "unknown" && p.stance.Asserts? && p.supersededBy.None?
      && p.confidence == confidence && p.provenance == provenance && p.validFrom == validFrom && p.created == updated
  {
  }

  // ----- conflict

  function Opposite(s: Stance): Option<Stance> {
    match s
    case Asserts => Some(Disputes)
    case Disputes => Some(Asserts)
    case Qualifies => None
  }

  /** The live positions the incoming one conflicts with. */
  function Opponents(incoming: Position, ps: seq<Position>): (r: seq<Position>)
    ensures forall p :: p in r <==> p in ps && Live(p) && p.id != incoming.id && Opposite(incoming.stance) == Some(p.stance)
  {
    if ps == [] then []
    else
      var last := ps[|ps| - 1];
      assert ps == ps[..|ps| - 1] + [last];
      Opponents(incoming, ps[..|ps| - 1]) +
      if Live(last) && last.id != incoming.id && Opposite(incoming.stance) == Some(last.stance) then [last] else []
  }

  /** An assertion opposes live disputes, a dispute live assertions, and a qualification nothing. */
  lemma OpponentsMean(incoming: Position, ps: seq<Position>, p: Position)
    ensures p in Opponents(incoming, ps) <==>
      && p in ps && p.supersededBy.None? && p.id != incoming.id
      && ((incoming.stance.Asserts? && p.stance.Disputes?) || (incoming.stance.Disputes? && p.stance.Asserts?))
  {
  }

  datatype Resolution = Superseded | Corrected | Accepted | Invalid | Consolidated

  /** A logged tension between two positions; `kind` says how it was resolved, if it was. */
  datatype Tension = Tension(positionA: string, positionB: string, resolved: bool, kind: Option<Resolution>)

  predicate Names(t: Tension, a: string, b: string) {
    (t.positionA == a && t.positionB == b) || (t.positionA == b && t.positionB == a)
  }

  /** Resolutions that keep the conflict on record. */
  predicate Keeps(kind: Option<Resolution>) {
    kind == Some(Accepted) || kind == Some(Consolidated)
  }

  predicate StandsFor(t: Tension, a: string, b: string) {
    Names(t, a, b) && (!t.resolved || Keeps(t.kind))
  }

  ghost predicate IsCovered(ts: seq<Tension>, a: string, b: string) {
    exists t :: t in ts && StandsFor(t, a, b)
  }

  /** `a` and `b` are live, and one asserts what the other disputes. */
  ghost predicate Opposed(ps: seq<Position>, a: Position, b: Position) {
    a in ps && Live(a) && a.stance.Asserts? && b in ps && Live(b) && b.stance.Disputes?
  }

  ghost predicate IsUncovered(ps: seq<Position>, ts: seq<Tension>, a: Position, b: Position) {
    Opposed(ps, a, b) && !IsCovered(ts, a.id, b.id)
  }

  /** How the tensions on record between two positions were resolved, in log order. */
  function KindsOf(ts: seq<Tension>, a: string, b: string): seq<Resolution> {
    if ts == [] then []
    else
      var last := ts[|ts| - 1];
      KindsOf(ts[..|ts| - 1], a, b) + if Names(last, a, b) && last.kind.Some? then [last.kind.value] else []
  }

  /** An opposing pair is uncovered when every tension that names the two is resolved, as neither accepted nor
      consolidated. */
  lemma UncoveredMeans(ps: seq<Position>, ts: seq<Tension>, a: Position, b: Position)
    ensures IsUncovered(ps, ts, a, b) <==>
      && a in ps && b in ps && a.supersededBy.None? && b.supersededBy.None? && a.stance.Asserts? && b.stance.Disputes?
      && forall t :: t in ts && {t.positionA, t.positionB} == {a.id, b.id} ==>
           t.resolved && t.kind !in {Some(Accepted), Some(Consolidated)}
  {
    forall t: Tension ensures {t.positionA, t.positionB} == {a.id, b.id} <==> Names(t, a.id, b.id) {
      assert t.positionA in {t.positionA, t.positionB} && t.positionB in {t.positionA, t.positionB};
      assert a.id in {a.id, b.id} && b.id in {a.id, b.id};
    }
    forall t | t in ts && Names(t, a.id, b.id)
      ensures StandsFor(t, a.id, b.id) <==> !(t.resolved && t.kind !in {Some(Accepted), Some(Consolidated)})
    {
    }
  }

  lemma {:induction false} KindsMean(ts: seq<Tension>, a: string, b: string, k: Resolution)
    ensures k in KindsOf(ts, a, b) <==>
      exists t :: t in ts && t.kind == Some(k) && ((t.positionA == a && t.positionB == b) || (t.positionA == b && t.positionB == a))
  {
    if ts != [] {
      var front, last := ts[..|ts| - 1], ts[|ts| - 1];
      KindsMean(front, a, b, k);
      assert ts == front + [last] && last in ts;
      assert forall t :: t in ts <==> t in front || t == last;
    }
  }

  method LiveWithStance(ps: seq<Position>, stance: Stance) returns (r: seq<Position>)
    ensures forall p :: p in r <==> p in ps && Live(p) && p.stance == stance
  {
    r := [];
    for n := 0 to |ps|
      invariant forall p :: p in r <==> p in ps[..n] && Live(p) && p.stance == stance
    {
      PrefixStep(ps, n);
      if Live(ps[n]) && ps[n].stance == stance {
        r := r + [ps[n]];
      }
    }
    assert ps[..|ps|] == ps;
  }

  method Covering(ts: seq<Tension>, a: string, b: string) returns (covered: bool, kinds: seq<Resolution>)
    ensures covered <==> IsCovered(ts, a, b)
    ensures kinds == KindsOf(ts, a, b)
  {
    covered, kinds := false, [];
    for n := 0 to |ts|
      invariant covered <==> exists i :: 0 <= i < n && StandsFor(ts[i], a, b)
      invariant kinds == KindsOf(ts[..n], a, b)
    {
      assert ts[..n + 1][..n] == ts[..n];
      if Names(ts[n], a, b) {
        covered := covered || !ts[n].resolved || Keeps(ts[n].kind);
        if ts[n].kind.Some? {
          kinds := kinds + [ts[n].kind.value];
        }
      }
    }
    assert ts[..|ts|] == ts;
  }

  datatype Report = Report(a: Position, b: Position, resolvedKinds: seq<Resolution>)

  /** `r` reports an opposing pair that nothing on record accounts for, and how its tensions ended. */
  ghost predicate IsReport(ps: seq<Position>, ts: seq<Tension>, r: Report) {
    IsUncovered(ps, ts, r.a, r.b) && r.resolvedKinds == KindsOf(ts, r.a.id, r.b.id)
  }

  method UncoveredAgainst(a: Position, disputes: seq<Position>, ts: seq<Tension>) returns (reports: seq<Report>)
    ensures forall r :: r in reports <==>
      r.a == a && r.b in disputes && !IsCovered(ts, a.id, r.b.id) && r.resolvedKinds == KindsOf(ts, a.id, r.b.id)
  {
    reports := [];
    for m := 0 to |disputes|
      invariant forall r :: r in reports <==>
        r.a == a && r.b in disputes[..m] && !IsCovered(ts, a.id, r.b.id) && r.resolvedKinds == KindsOf(ts, a.id, r.b.id)
    {
      PrefixStep(disputes, m);
      var covered, kinds := Covering(ts, a.id, disputes[m].id);
      if covered {
        continue;
      }
      reports := reports + [Report(a, disputes[m], kinds)];
    }
    assert disputes[..|disputes|] == disputes;
  }

  /** The live opposing pairs that nothing on record accounts for, each with how its tensions ended. */
  method UncoveredConflictPairs(ps: seq<Position>, ts: seq<Tension>) returns (reports: seq<Report>)
    ensures forall r :: r in reports <==> IsReport(ps, ts, r)
  {
    var asserts := LiveWithStance(ps, Asserts);
    var disputes := LiveWithStance(ps, Disputes);
    reports := [];
    for n := 0 to |asserts|
      invariant forall r :: r in reports <==>
        r.a in asserts[..n] && r.b in disputes && !IsCovered(ts, r.a.id, r.b.id) && r.resolvedKinds == KindsOf(ts, r.a.id, r.b.id)
    {
      PrefixStep(asserts, n);
      var more := UncoveredAgainst(asserts[n], disputes, ts);
      reports := reports + more;
    }
    assert asserts[..|asserts|] == asserts;
  }

  /** The tensions speak of positions that are there. */
  ghost predicate Known(ps: seq<Position>, ts: seq<Tension>) {
    forall t :: t in ts ==> t.positionA in Ids(ps) && t.positionB in Ids(ps)
  }

  /** What an assertion does to coverage, when the tensions it adds all name the incoming position: old pairs
      stand as they stood, and the pairs it forms are covered exactly by the tensions added for them. */
  lemma CoverageAfterAssert(ps: seq<Position>, ts: seq<Tension>, added: seq<Tension>, input: AssertInput, a: Position, b: Position)
    requires Orderly(ps) && Known(ps, ts)
    requires forall t :: t in added ==> t.positionB == NewPosition(ps, input).id
    ensures
      var (next, incoming) := (ApplyAssert(Some(ps), input), NewPosition(ps, input));
      Opposed(next, a, b) ==>
        if a == incoming || b == incoming then
          && (if a == incoming then b in Opponents(incoming, next) else a in Opponents(incoming, next))
          && (IsCovered(ts + added, a.id, b.id) <==> IsCovered(added, a.id, b.id))
        else
          Opposed(ps, a, b) && (IsCovered(ts + added, a.id, b.id) <==> IsCovered(ts, a.id, b.id))
  {
    var (next, incoming) := (ApplyAssert(Some(ps), input), NewPosition(ps, input));
    NextIdIsFresh(PREFIX, Ids(ps));
    if Opposed(next, a, b) {
      if a == incoming || b == incoming {
        OldIdDiffers(ps, input, if a == incoming then b else a);
        forall t | t in ts ensures !Names(t, a.id, b.id) {
        }
      } else {
        OldLiveWasThere(ps, input, a);
        OldLiveWasThere(ps, input, b);
        OldIdDiffers(ps, input, a);
        OldIdDiffers(ps, input, b);
        forall t | t in added ensures !Names(t, a.id, b.id) {
        }
      }
      CoveredByEither(ts, added, a.id, b.id);
    }
  }

  lemma CoveredByEither(ts: seq<Tension>, added: seq<Tension>, a: string, b: string)
    ensures IsCovered(ts + added, a, b) <==> IsCovered(ts, a, b) || IsCovered(added, a, b)
  {
    forall t ensures t in ts + added <==> t in ts || t in added {
    }
  }

  lemma OldLiveWasThere(ps: seq<Position>, input: AssertInput, p: Position)
    requires p in ApplyAssert(Some(ps), input) && Live(p) && p != NewPosition(ps, input)
    ensures p in ps
  {
    AssertShape(ps, input);
  }

  lemma OldIdDiffers(ps: seq<Position>, input: AssertInput, p: Position)
    requires p in ApplyAssert(Some(ps), input) && p != NewPosition(ps, input)
    ensures p.id != NewPosition(ps, input).id
  {
    AssertShape(ps, input);
    NextIdIsFresh(PREFIX, Ids(ps));
    var next := ApplyAssert(Some(ps), input);
    var i :| 0 <= i < |next| && next[i] == p;
    assert Ids(ps)[i] == p.id;
  }

  // ----- one claim document over time

  type IdPair = (string, string)

  /** The ids of a conflict the incoming position forms, the asserting side first. */
  function ConflictIds(incoming: Position, opponent: Position): IdPair {
    if incoming.stance.Asserts? then (incoming.id, opponent.id) else (opponent.id, incoming.id)
  }

  /** The conflicts formed whose tension could not be logged: those with the opponents in `lost`. */
  ghost function LostPairs(incoming: Position, opponents: seq<Position>, lost: set<string>): set<IdPair> {
    set o | o in opponents && o.id in lost :: ConflictIds(incoming, o)
  }

  /** The tensions logged for the conflicts formed, the older position first. */
  function Minted(incoming: Position, opponents: seq<Position>, lost: set<string>): (ts: seq<Tension>)
    ensures forall t :: t in ts <==> exists o :: o in opponents && o.id !in lost && t == Tension(o.id, incoming.id, false, None)
  {
    if opponents == [] then []
    else
      var last := opponents[|opponents| - 1];
      assert opponents == opponents[..|opponents| - 1] + [last];
      Minted(incoming, opponents[..|opponents| - 1], lost) + if last.id in lost then [] else [Tension(last.id, incoming.id, false, None)]
  }

  /** A pair is unlogged when its tension was lost, or dissolved by its resolution with none left standing. */
  ghost predicate Accounted(ps: seq<Position>, ts: seq<Tension>, unlogged: set<IdPair>) {
    forall a, b {:trigger Opposed(ps, a, b)} :: Opposed(ps, a, b) ==> (!IsCovered(ts, a.id, b.id) <==> (a.id, b.id) in unlogged)
  }

  lemma AssertStaysAccounted(ps: seq<Position>, ts: seq<Tension>, unlogged: set<IdPair>, input: AssertInput, lost: set<string>)
    requires Orderly(ps) && Known(ps, ts) && Accounted(ps, ts, unlogged)
    requires forall u :: u in unlogged ==> u.0 in Ids(ps) && u.1 in Ids(ps)
    ensures
      var (next, incoming) := (ApplyAssert(Some(ps), input), NewPosition(ps, input));
      Accounted(next, ts + Minted(incoming, Opponents(incoming, next), lost),
                unlogged + LostPairs(incoming, Opponents(incoming, next), lost))
  {
    var (next, incoming) := (ApplyAssert(Some(ps), input), NewPosition(ps, input));
    var opponents := Opponents(incoming, next);
    var minted := Minted(incoming, opponents, lost);
    NextIdIsFresh(PREFIX, Ids(ps));
    forall a, b | Opposed(next, a, b)
      ensures !IsCovered(ts + minted, a.id, b.id) <==> (a.id, b.id) in unlogged + LostPairs(incoming, opponents, lost)
    {
      CoverageAfterAssert(ps, ts, minted, input, a, b);
      if a == incoming || b == incoming {
        FormedPair(ps, input, a, b, lost);
      } else {
        OldIdDiffers(ps, input, a);
        OldIdDiffers(ps, input, b);
        assert (a.id, b.id) !in LostPairs(incoming, opponents, lost);
      }
    }
  }

  /** A pair the incoming position forms is covered by the tensions minted unless it is among the lost. */
  lemma FormedPair(ps: seq<Position>, input: AssertInput, a: Position, b: Position, lost: set<string>)
    requires Distinct(Ids(ps))
    requires Opposed(ApplyAssert(Some(ps), input), a, b) && NewPosition(ps, input) in {a, b}
    ensures
      var (next, incoming) := (ApplyAssert(Some(ps), input), NewPosition(ps, input));
      var opponents := Opponents(incoming, next);
      IsCovered(Minted(incoming, opponents, lost), a.id, b.id) <==> (a.id, b.id) !in LostPairs(incoming, opponents, lost)
  {
    var (next, incoming) := (ApplyAssert(Some(ps), input), NewPosition(ps, input));
    var opponents := Opponents(incoming, next);
    var other := if a == incoming then b else a;
    OldIdDiffers(ps, input, other);
    assert other in opponents && ConflictIds(incoming, other) == (a.id, b.id);
    AssertKeepsIdsDistinct(ps, input);
    forall o | o in opponents && o.id == other.id ensures o == other {
      SameIdSameEntry(next, o, other);
    }
    MintedUnlessLost(incoming, opponents, other, lost);
    CoveredBothWays(Minted(incoming, opponents, lost), other.id, incoming.id);
  }

  lemma MintedUnlessLost(incoming: Position, opponents: seq<Position>, other: Position, lost: set<string>)
    requires other in opponents && other.id != incoming.id
    requires forall o :: o in opponents && o.id == other.id ==> o == other
    ensures IsCovered(Minted(incoming, opponents, lost), other.id, incoming.id) <==> other.id !in lost
    ensures ConflictIds(incoming, other) in LostPairs(incoming, opponents, lost) <==> other.id in lost
  {
    var ts := Minted(incoming, opponents, lost);
    if other.id !in lost {
      var t := Tension(other.id, incoming.id, false, None);
      assert t in ts && StandsFor(t, other.id, incoming.id);
    } else if IsCovered(ts, other.id, incoming.id) {
      assert false;
    }
  }

  lemma SameIdSameEntry(ps: seq<Position>, p: Position, q: Position)
    requires Distinct(Ids(ps)) && p in ps && q in ps && p.id == q.id
    ensures p == q
  {
    var i :| 0 <= i < |ps| && ps[i] == p;
    var j :| 0 <= j < |ps| && ps[j] == q;
    assert Ids(ps)[i] == Ids(ps)[j];
  }

  class Claim {
    var positions: seq<Position>
    var tensions: seq<Tension>
    ghost var unlogged: set<IdPair>

    /** Whatever writes fail, the opposing pairs that nothing on record accounts for are exactly the live ones
        among those unlogged. */
    ghost predicate Valid()
      reads this
    {
      && Orderly(positions) && Known(positions, tensions)
      && Accounted(positions, tensions, unlogged)
      && (forall u :: u in unlogged ==> u.0 in Ids(positions) && u.1 in Ids(positions))
    }

    constructor ()
      ensures Valid() && positions == [] && tensions == [] && unlogged == {}
    {
      positions, tensions, unlogged := [], [], {};
    }

    constructor Legacy(confidence: Confidence, provenance: Provenance, validFrom: Option<string>, updated: string)
      ensures Valid() && tensions == [] && unlogged == {}
      ensures positions == [LegacySnapshot(confidence, provenance, validFrom, updated)]
    {
      positions, tensions, unlogged := [LegacySnapshot(confidence, provenance, validFrom, updated)], [], {};
    }

    /** A principal takes a position. Each conflict it forms is logged as an open tension, except those with
        the opponents in `lost`, whose write fails. */
    method TakePosition(input: AssertInput, lost: set<string>)
      requires Valid()
      modifies this
      ensures Valid()
      ensures positions == ApplyAssert(Some(old(positions)), input)
      ensures forall p :: p in old(positions) ==> Tolerated(p, IndexById(positions))
      ensures
        var incoming := NewPosition(old(positions), input);
        && tensions == old(tensions) + Minted(incoming, Opponents(incoming, positions), lost)
        && unlogged == old(unlogged) + LostPairs(incoming, Opponents(incoming, positions), lost)
    {
      var next := ApplyAssert(Some(positions), input);
      var incoming := next[|next| - 1];
      var opponents := Opponents(incoming, next);
      AssertStaysAccounted(positions, tensions, unlogged, input, lost);
      AssertStaysOrderly(positions, input);
      AssertStaysKnown(positions, tensions, unlogged, input, lost);
      forall p | p in positions ensures Tolerated(p, IndexById(next)) {
        AssertIsTolerated(positions, input, p);
      }
      unlogged := unlogged + LostPairs(incoming, opponents, lost);
      positions := next;
      LogConflicts(incoming, opponents, lost);
    }

    method LogConflicts(incoming: Position, opponents: seq<Position>, lost: set<string>)
      modifies this`tensions
      ensures tensions == old(tensions) + Minted(incoming, opponents, lost)
    {
      for n := 0 to |opponents|
        invariant tensions == old(tensions) + Minted(incoming, opponents[..n], lost)
      {
        assert opponents[..n + 1][..n] == opponents[..n];
        if opponents[n].id !in lost {
          tensions := tensions + [Tension(opponents[n].id, incoming.id, false, None)];
        }
      }
      assert opponents[..|opponents|] == opponents;
    }

    /** Resolves an open tension. A resolution that dissolves the conflict leaves a live pair unlogged again,
        unless another tension stands for it. */
    method Resolve(i: nat, kind: Resolution) returns (ok: bool)
      requires Valid() && i < |tensions|
      modifies this
      ensures Valid() && positions == old(positions)
      ensures ok <==> !old(tensions)[i].resolved
      ensures tensions == if ok then old(tensions)[i := old(tensions)[i].(resolved := true, kind := Some(kind))] else old(tensions)
      ensures
        var (a, b) := (old(tensions)[i].positionA, old(tensions)[i].positionB);
        unlogged == old(unlogged) + if ok && !IsCovered(tensions, a, b) then {(a, b), (b, a)} else {}
    {
      if tensions[i].resolved {
        return false;
      }
      ghost var ts := tensions;
      var t := tensions[i];
      tensions := tensions[i := t.(resolved := true, kind := Some(kind))];
      if !IsCovered(tensions, t.positionA, t.positionB) {
        unlogged := unlogged + {(t.positionA, t.positionB), (t.positionB, t.positionA)};
      }
      assert t in ts;
      ResolutionStaysAccounted(positions, ts, tensions, i, old(unlogged), unlogged);
      return true;
    }

    /** The uncovered pairs as reported: exactly the live ones among the unlogged. */
    method Uncovered() returns (reports: seq<Report>)
      requires Valid()
      ensures forall r :: r in reports <==>
        Opposed(positions, r.a, r.b) && (r.a.id, r.b.id) in unlogged && r.resolvedKinds == KindsOf(tensions, r.a.id, r.b.id)
    {
      reports := UncoveredConflictPairs(positions, tensions);
    }
  }

  lemma AssertStaysKnown(ps: seq<Position>, ts: seq<Tension>, unlogged: set<IdPair>, input: AssertInput, lost: set<string>)
    requires Known(ps, ts) && forall u :: u in unlogged ==> u.0 in Ids(ps) && u.1 in Ids(ps)
    ensures
      var (next, incoming) := (ApplyAssert(Some(ps), input), NewPosition(ps, input));
      var opponents := Opponents(incoming, next);
      && Known(next, ts + Minted(incoming, opponents, lost))
      && (forall u :: u in unlogged + LostPairs(incoming, opponents, lost) ==> u.0 in Ids(next) && u.1 in Ids(next))
  {
    var next := ApplyAssert(Some(ps), input);
    AssertShape(ps, input);
    forall id | id in Ids(ps) ensures id in Ids(next) {
      var i :| 0 <= i < |ps| && Ids(ps)[i] == id;
      assert Ids(next)[i] == id;
    }
    assert Ids(next)[|ps|] == NewPosition(ps, input).id;
    forall p | p in next ensures p.id in Ids(next) {
      var i :| 0 <= i < |next| && next[i] == p;
      assert Ids(next)[i] == p.id;
    }
  }

  lemma ResolutionStaysAccounted(ps: seq<Position>, ts: seq<Tension>, ts': seq<Tension>, i: nat, unlogged: set<IdPair>,
                                 unlogged': set<IdPair>)
    requires i < |ts| == |ts'| && !ts[i].resolved && Accounted(ps, ts, unlogged)
    requires ts'[i].positionA == ts[i].positionA && ts'[i].positionB == ts[i].positionB
    requires forall j :: 0 <= j < |ts| && j != i ==> ts'[j] == ts[j]
    requires
      var (a, b) := (ts[i].positionA, ts[i].positionB);
      unlogged' == unlogged + if !IsCovered(ts', a, b) then {(a, b), (b, a)} else {}
    ensures Accounted(ps, ts', unlogged')
  {
    forall a, b | Opposed(ps, a, b) ensures !IsCovered(ts', a.id, b.id) <==> (a.id, b.id) in unlogged' {
      if Names(ts[i], a.id, b.id) {
        assert ts[i] in ts && StandsFor(ts[i], a.id, b.id);
        CoveredBothWays(ts', a.id, b.id);
      } else {
        OthersStand(ts, ts', i, a.id, b.id);
      }
    }
  }

  lemma OthersStand(ts: seq<Tension>, ts': seq<Tension>, i: nat, a: string, b: string)
    requires i < |ts| == |ts'| && !Names(ts[i], a, b) && !Names(ts'[i], a, b)
    requires forall j :: 0 <= j < |ts| && j != i ==> ts'[j] == ts[j]
    ensures IsCovered(ts, a, b) <==> IsCovered(ts', a, b)
  {
    if IsCovered(ts, a, b) {
      var t :| t in ts && StandsFor(t, a, b);
      var j :| 0 <= j < |ts| && ts[j] == t;
      assert ts'[j] in ts';
    }
    if IsCovered(ts', a, b) {
      var t :| t in ts' && StandsFor(t, a, b);
      var j :| 0 <= j < |ts'| && ts'[j] == t;
      assert ts[j] in ts;
    }
  }

  lemma CoveredBothWays(ts: seq<Tension>, a: string, b: string)
    ensures IsCovered(ts, a, b) <==> IsCovered(ts, b, a)
  {
    if IsCovered(ts, a, b) {
      var t :| t in ts && StandsFor(t, a, b);
      assert StandsFor(t, b, a);
    }
    if IsCovered(ts, b, a) {
      var t :| t in ts && StandsFor(t, b, a);
      assert StandsFor(t, a, b);
    }
  }
}

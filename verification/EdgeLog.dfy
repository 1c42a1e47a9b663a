/** The earned-edge log: collapsing observe/contest records to one state per document pair. */
module EdgeLog {
  import opened Base
  import opened EdgeTypes

  /** The same attestation counts again only after this many milliseconds (one day). */
  const REPLAY_GAP: nat := 86_400_000

  const TRIGGER_STRENGTH: real := 0.5

  datatype Axis = Prompt | InputNeighborhood | Model

  datatype PremiseVote = VoteFrom | VoteTo | VoteSymmetric

  /** Who re-derived the edge, varying what, with which model ("" when unrecorded). */
  datatype Attestation = Attestation(observer: string, axis: Axis, model: string)

  /** A log line that parsed. An empty `observer` or an absent axis is how an unattested sighting reads. */
  datatype Record =
    | Observe(from: Path, to: Path, at: int, observer: string, blind: bool, axis: Option<Axis>, vote: Option<PremiseVote>, model: string)
    | Contest(from: Path, to: Path, at: int, reason: Option<string>)

  datatype EdgeState = EdgeState(
    fromPath: Path,
    toPath: Path,
    seedFrom: Path,
    seedTo: Path,
    kSurvived: nat,
    firstObserved: int,
    lastRederived: int,
    observations: nat,
    revoked: bool,
    contestedAt: Option<int>,
    contestReason: Option<string>,
    voted: set<Attestation>,
    premiseVotes: set<PremiseVote>)

  type Pair = (Path, Path)

  function CanonPair(from: Path, to: Path): Pair {
    if from <= to then (from, to) else (to, from)
  }

  function PairOf(rec: Record): Pair {
    CanonPair(rec.from, rec.to)
  }

  /** The vote expressed on the canonical endpoints instead of the record's own. */
  function CanonVote(rec: Record): Option<PremiseVote>
    requires rec.Observe?
  {
    match rec.vote
    case None => None
    case Some(VoteSymmetric) => Some(VoteSymmetric)
    case Some(v) =>
      var premise := if v.VoteTo? then rec.to else rec.from;
      Some(if premise == PairOf(rec).0 then VoteFrom else VoteTo)
  }

  /** The attestation a qualifying observation makes: blind, on a recorded axis, by a named observer. */
  function Attested(rec: Record): Option<Attestation> {
    if rec.Observe? && rec.blind && rec.axis.Some? && rec.observer != "" then
      Some(Attestation(rec.observer, rec.axis.value, rec.model))
    else None
  }

  function OptionSet<T(==)>(o: Option<T>): (s: set<T>)
    ensures o.None? ==> s == {}
    ensures o.Some? ==> s == {o.value}
  {
    if o.Some? then {o.value} else {}
  }

  function MinCap(k: nat): nat {
    if k < K_CAP then k else K_CAP
  }

  function SeedState(rec: Record): EdgeState
    requires rec.Observe?
  {
    EdgeState(PairOf(rec).0, PairOf(rec).1, rec.from, rec.to, 0, rec.at, rec.at, 1, false, None, None,
              OptionSet(Attested(rec)), OptionSet(CanonVote(rec)))
  }

  function WithVote(votes: set<PremiseVote>, vote: Option<PremiseVote>): set<PremiseVote> {
    if vote.Some? then votes + {vote.value} else votes
  }

  /** A sighting of a live edge. It counts as a vote unless it replays an attestation too soon. */
  function Sighted(s: EdgeState, rec: Record): EdgeState
    requires rec.Observe?
  {
    var s1 := s.(observations := s.observations + 1, premiseVotes := WithVote(s.premiseVotes, CanonVote(rec)));
    match Attested(rec)
    case None => s1
    case Some(a) =>
      if a in s.voted && rec.at - s.lastRederived < REPLAY_GAP then s1
      else s1.(voted := s.voted + {a}, kSurvived := MinCap(s.kSurvived + 1), lastRederived := rec.at)
  }

  /** One record's effect on its own pair. */
  function Apply(st: Option<EdgeState>, rec: Record): Option<EdgeState> {
    match rec
    case Contest(_, _, at, reason) =>
      if st.None? || st.value.revoked then st
      else Some(st.value.(revoked := true, contestedAt := Some(at), contestReason := reason))
    case Observe(_, _, _, _, _, _, _, _) =>
      if st.None? || st.value.revoked then Some(SeedState(rec)) else Some(Sighted(st.value, rec))
  }

  function Replay(records: seq<Record>): Option<EdgeState> {
    if records == [] then None else Apply(Replay(records[..|records| - 1]), records[|records| - 1])
  }

  function ForPair(records: seq<Record>, p: Pair): (r: seq<Record>)
    ensures forall x :: x in r <==> x in records && PairOf(x) == p
  {
    if records == [] then []
    else
      var front, last := ForPair(records[..|records| - 1], p), records[|records| - 1];
      if PairOf(last) == p then front + [last] else front
  }

  /** `states` is the collapse of `records`: each pair's state comes from that pair's records alone. */
  ghost predicate IsCollapse(records: seq<Record>, states: map<Pair, EdgeState>) {
    forall p: Pair :: Lookup(states, p) == Replay(ForPair(records, p))
  }

  function Lookup<K, V>(m: map<K, V>, k: K): Option<V> {
    if k in m then Some(m[k]) else None
  }

  lemma CollapseStep(records: seq<Record>, rec: Record, states: map<Pair, EdgeState>, states': map<Pair, EdgeState>)
    requires IsCollapse(records, states)
    requires Lookup(states', PairOf(rec)) == Apply(Lookup(states, PairOf(rec)), rec)
    requires forall p: Pair :: p != PairOf(rec) ==> Lookup(states', p) == Lookup(states, p)
    ensures IsCollapse(records + [rec], states')
  {
    assert (records + [rec])[..|records|] == records;
    forall p: Pair ensures Lookup(states', p) == Replay(ForPair(records + [rec], p)) {
      assert Lookup(states, p) == Replay(ForPair(records, p));
      var mine := ForPair(records, p);
      assert (mine + [rec])[..|mine|] == mine;
    }
  }

  method Collapse(records: seq<Record>) returns (states: map<Pair, EdgeState>)
    ensures IsCollapse(records, states)
  {
    states := map[];
    for n := 0 to |records|
      invariant IsCollapse(records[..n], states)
    {
      var rec := records[n];
      var key := PairOf(rec);
      ghost var states0 := states;
      if rec.Contest? {
        if key in states && !states[key].revoked {
          states := states[key := states[key].(revoked := true, contestedAt := Some(rec.at), contestReason := rec.reason)];
        }
      } else if key !in states || states[key].revoked {
        states := states[key := SeedState(rec)];
      } else {
        var s := states[key];
        s := s.(observations := s.observations + 1);
        if CanonVote(rec).Some? {
          s := s.(premiseVotes := s.premiseVotes + {CanonVote(rec).value});
        }
        if Attested(rec).Some? {
          var a := Attested(rec).value;
          var isReplay := a in s.voted;
          var gap := rec.at - s.lastRederived;
          if !isReplay || gap >= REPLAY_GAP {
            s := s.(voted := s.voted + {a});
            s := s.(kSurvived := MinCap(s.kSurvived + 1));
            s := s.(lastRederived := rec.at);
          }
        }
        states := states[key := s];
      }
      CollapseStep(records[..n], rec, states0, states);
      assert records[..n + 1] == records[..n] + [rec];
    }
    assert records[..|records|] == records;
  }

  // ----- the public edge derived from a state

  /** `decay(age)` is the share of strength left `age` milliseconds after the last counted vote. */
  type Decay = int -> real

  function AgedStrength(kSurvived: nat, lastRederived: int, now: int, decay: Decay): real {
    var k := MinCap(kSurvived);
    if k == 0 then 0.0
    else
      var age := if now - lastRederived < 0 then 0 else now - lastRederived;
      (k as real) * decay(age)
  }

  function StatusFor(revoked: bool, strength: real): EdgeStatus {
    if revoked then Revoked else if strength >= TRIGGER_STRENGTH then TriggerBearing else Candidate
  }

  function VerdictOf(votes: set<PremiseVote>): DirectionVerdict {
    if VoteSymmetric in votes then Symmetric
    else if VoteFrom in votes && VoteTo in votes then Symmetric
    else Directed
  }

  function OutputPair(s: EdgeState): Pair {
    if VerdictOf(s.premiseVotes).Symmetric? then (s.fromPath, s.toPath)
    else if s.premiseVotes == {} then (s.seedFrom, s.seedTo)
    else if VoteFrom in s.premiseVotes then (s.toPath, s.fromPath)
    else (s.fromPath, s.toPath)
  }

  function DeriveEdge(s: EdgeState, now: int, decay: Decay): DerivesFromEdge {
    var strength := if s.revoked then 0.0 else AgedStrength(s.kSurvived, s.lastRederived, now, decay);
    var out := OutputPair(s);
    DerivesFromEdge(out.0, out.1, strength, s.kSurvived, s.firstObserved, s.lastRederived,
                    StatusFor(s.revoked, strength), VerdictOf(s.premiseVotes),
                    s.observations, s.contestedAt, s.contestReason)
  }

  // ----- identity: a state belongs to one pair, and so does its output

  ghost predicate AllOf(records: seq<Record>, p: Pair) {
    forall r :: r in records ==> PairOf(r) == p
  }

  lemma {:induction false} StateBelongsToPair(records: seq<Record>, p: Pair)
    requires AllOf(records, p) && Replay(records).Some?
    ensures
      var s := Replay(records).value;
      (s.fromPath, s.toPath) == p && CanonPair(s.seedFrom, s.seedTo) == p && CanonPair(p.0, p.1) == p
  {
    var front, last := records[..|records| - 1], records[|records| - 1];
    assert last in records;
    if Replay(front).Some? {
      StateBelongsToPair(front, p);
    }
  }

  /** The edges of two different pairs never come out under the same (from, to). */
  lemma OutputKeysAreDistinct(records: seq<Record>, states: map<Pair, EdgeState>, p: Pair, q: Pair)
    requires IsCollapse(records, states)
    requires p in states && q in states && OutputPair(states[p]) == OutputPair(states[q])
    ensures p == q
  {
    assert Lookup(states, p) == Replay(ForPair(records, p));
    assert Lookup(states, q) == Replay(ForPair(records, q));
    StateBelongsToPair(ForPair(records, p), p);
    StateBelongsToPair(ForPair(records, q), q);
  }

  // ----- orientation: which way round a record names the pair does not matter

  function FlipVote(v: Option<PremiseVote>): Option<PremiseVote> {
    match v
    case None => None
    case Some(VoteFrom) => Some(VoteTo)
    case Some(VoteTo) => Some(VoteFrom)
    case Some(VoteSymmetric) => Some(VoteSymmetric)
  }

  /** The same statement with the endpoints, and the endpoint voted for, named the other way round. */
  function Flip(rec: Record): Record {
    match rec
    case Observe(from, to, at, observer, blind, axis, vote, model) =>
      Observe(to, from, at, observer, blind, axis, FlipVote(vote), model)
    case Contest(from, to, at, reason) => Contest(to, from, at, reason)
  }

  function FlipSome(records: seq<Record>, flips: seq<bool>): (r: seq<Record>)
    requires |records| == |flips|
    ensures |r| == |records|
  {
    if records == [] then []
    else
      var n := |records| - 1;
      FlipSome(records[..n], flips[..n]) + [if flips[n] then Flip(records[n]) else records[n]]
  }

  /** Equal but for the seed, which names the same two endpoints. */
  ghost predicate SameButSeed(a: Option<EdgeState>, b: Option<EdgeState>) {
    && (a.Some? <==> b.Some?)
    && (a.Some? ==>
          && a.value == b.value.(seedFrom := a.value.seedFrom, seedTo := a.value.seedTo)
          && CanonPair(a.value.seedFrom, a.value.seedTo) == CanonPair(b.value.seedFrom, b.value.seedTo))
  }

  lemma ApplyIgnoresOrientation(a: Option<EdgeState>, b: Option<EdgeState>, rec: Record, flip: bool)
    requires SameButSeed(a, b)
    ensures SameButSeed(Apply(a, rec), Apply(b, if flip then Flip(rec) else rec))
  {
    if flip && rec.Observe? {
      assert PairOf(Flip(rec)) == PairOf(rec);
      assert CanonVote(Flip(rec)) == CanonVote(rec);
      assert Attested(Flip(rec)) == Attested(rec);
    }
  }

  lemma {:induction false} FlippedLogCollapsesAlike(records: seq<Record>, flips: seq<bool>, p: Pair)
    requires |records| == |flips|
    ensures SameButSeed(Replay(ForPair(records, p)), Replay(ForPair(FlipSome(records, flips), p)))
  {
    if records != [] {
      var n := |records| - 1;
      var rec := if flips[n] then Flip(records[n]) else records[n];
      var front, front' := records[..n], FlipSome(records[..n], flips[..n]);
      FlippedLogCollapsesAlike(front, flips[..n], p);
      assert FlipSome(records, flips)[..n] == front';
      assert PairOf(rec) == PairOf(records[n]);
      if PairOf(rec) == p {
        var mine, mine' := ForPair(front, p), ForPair(front', p);
        assert (mine + [records[n]])[..|mine|] == mine;
        assert (mine' + [rec])[..|mine'|] == mine';
        ApplyIgnoresOrientation(Replay(mine), Replay(mine'), records[n], flips[n]);
      }
    }
  }

  /** Flipping any records of a log leaves every edge as it was, save that an edge no premise vote
      was ever cast on keeps pointing the way its own seed did. */
  lemma OrientationIrrelevant(records: seq<Record>, flips: seq<bool>, p: Pair, now: int, decay: Decay)
    requires |records| == |flips|
    ensures
      var a, b := Replay(ForPair(records, p)), Replay(ForPair(FlipSome(records, flips), p));
      && (a.Some? <==> b.Some?)
      && (a.Some? ==>
            var x, y := DeriveEdge(a.value, now, decay), DeriveEdge(b.value, now, decay);
            && x == y.(fromPath := x.fromPath, toPath := x.toPath)
            && CanonPair(x.fromPath, x.toPath) == CanonPair(y.fromPath, y.toPath)
            && (a.value.premiseVotes != {} ==> x == y)
            && (a.value.premiseVotes == {} ==> (y.fromPath, y.toPath) == (b.value.seedFrom, b.value.seedTo)))
  {
    FlippedLogCollapsesAlike(records, flips, p);
  }

  // ----- the replay guard

  ghost predicate Chronological(records: seq<Record>) {
    forall i, j :: 0 <= i < j < |records| ==> records[i].at <= records[j].at
  }

  /** The records of the current earning cycle: everything since the observation that seeded it. */
  ghost function Cycle(records: seq<Record>): seq<Record> {
    if records == [] then []
    else
      var front, last := records[..|records| - 1], records[|records| - 1];
      var st := Replay(front);
      if last.Observe? && (st.None? || st.value.revoked) then [last]
      else if st.None? then []
      else Cycle(front) + [last]
  }

  ghost function Attestations(records: seq<Record>): set<Attestation> {
    set r | r in records && Attested(r).Some? :: Attested(r).value
  }

  /** The distinct attestations of a cycle, its seed's own aside. */
  ghost function FreshAttestations(cycle: seq<Record>): set<Attestation>
    requires cycle != []
  {
    Attestations(cycle) - OptionSet(Attested(cycle[0]))
  }

  lemma {:induction false} CycleShape(records: seq<Record>)
    requires Replay(records).Some?
    ensures
      var s, cycle := Replay(records).value, Cycle(records);
      && cycle != [] && cycle[0].Observe? && cycle[0].at == s.firstObserved
      && s.voted == Attestations(cycle)
  {
    var front, last := records[..|records| - 1], records[|records| - 1];
    if last.Observe? && (Replay(front).None? || Replay(front).value.revoked) {
      assert Cycle(records) == [last];
    } else {
      CycleShape(front);
      assert Cycle(records) == Cycle(front) + [last];
      assert Attestations(Cycle(records)) == Attestations(Cycle(front)) + OptionSet(Attested(last));
    }
  }

  // ----- what the log says, told from the records of the cycle

  /** `r` votes for document `q` as the premise of the pair. */
  ghost predicate NamesPremise(r: Record, q: Path) {
    r.Observe? && ((r.vote == Some(VoteTo) && r.to == q) || (r.vote == Some(VoteFrom) && r.from == q))
  }

  /** Some vote says neither document carries the other, or two votes name different ones. */
  ghost predicate Disputed(cycle: seq<Record>) {
    || (exists r :: r in cycle && r.Observe? && r.vote == Some(VoteSymmetric))
    || (exists r, r', q, q' :: r in cycle && r' in cycle && NamesPremise(r, q) && NamesPremise(r', q') && q != q')
  }

  ghost function VotesOf(cycle: seq<Record>): set<PremiseVote> {
    set r | r in cycle && r.Observe? && CanonVote(r).Some? :: CanonVote(r).value
  }

  lemma {:induction false} CycleVotes(records: seq<Record>)
    requires Replay(records).Some?
    ensures Replay(records).value.premiseVotes == VotesOf(Cycle(records))
    ensures forall r :: r in Cycle(records) ==> r in records
    ensures Cycle(records) != [] && Cycle(records)[0].Observe?
    ensures (Replay(records).value.seedFrom, Replay(records).value.seedTo) == (Cycle(records)[0].from, Cycle(records)[0].to)
  {
    var front, last := records[..|records| - 1], records[|records| - 1];
    if last.Observe? && (Replay(front).None? || Replay(front).value.revoked) {
      assert Cycle(records) == [last];
    } else {
      CycleVotes(front);
      assert Cycle(records) == Cycle(front) + [last];
      assert VotesOf(Cycle(records)) == VotesOf(Cycle(front)) + if last.Observe? then OptionSet(CanonVote(last)) else {};
    }
  }

  lemma VoteNames(r: Record, p: Pair, q: Path)
    requires PairOf(r) == p && NamesPremise(r, q)
    ensures CanonVote(r) == Some(if q == p.0 then VoteFrom else VoteTo) && q in {p.0, p.1}
  {
  }

  lemma DisputeShows(cycle: seq<Record>, p: Pair)
    requires forall r :: r in cycle ==> PairOf(r) == p
    ensures VerdictOf(VotesOf(cycle)).Symmetric? <==> Disputed(cycle)
  {
    if Disputed(cycle) {
      if r :| r in cycle && r.Observe? && r.vote == Some(VoteSymmetric) {
        assert CanonVote(r).value in VotesOf(cycle);
      } else {
        var r, r', q, q' :| r in cycle && r' in cycle && NamesPremise(r, q) && NamesPremise(r', q') && q != q';
        VoteNames(r, p, q);
        VoteNames(r', p, q');
        assert CanonVote(r).value in VotesOf(cycle) && CanonVote(r').value in VotesOf(cycle);
      }
    }
    if VoteFrom in VotesOf(cycle) && VoteTo in VotesOf(cycle) {
      var r :| r in cycle && r.Observe? && CanonVote(r) == Some(VoteFrom);
      var r' :| r' in cycle && r'.Observe? && CanonVote(r') == Some(VoteTo);
      assert NamesPremise(r, p.0) && NamesPremise(r', p.1);
      assert p.0 != p.1;
    }
  }

  /** Which way a pair's edge points: at the document its cycle's votes agree on, both ways when they do not
      agree, and as the cycle's first sighting put it when there are none. */
  lemma DirectionIsVoted(records: seq<Record>, p: Pair, now: int, decay: Decay)
    requires AllOf(records, p) && Replay(records).Some?
    ensures
      var (cycle, e) := (Cycle(records), DeriveEdge(Replay(records).value, now, decay));
      && (e.directionVerdict.Symmetric? <==> Disputed(cycle))
      && (Disputed(cycle) ==> (e.fromPath, e.toPath) == p)
      && (forall r, q :: r in cycle && NamesPremise(r, q) && !Disputed(cycle) ==>
            e.toPath == q && CanonPair(e.fromPath, e.toPath) == p)
      && ((forall r :: r in cycle && r.Observe? ==> r.vote.None?) ==> (e.fromPath, e.toPath) == (cycle[0].from, cycle[0].to))
  {
    var cycle, e := Cycle(records), DeriveEdge(Replay(records).value, now, decay);
    CycleVotes(records);
    StateBelongsToPair(records, p);
    DisputeShows(cycle, p);
    forall r, q | r in cycle && NamesPremise(r, q) && !Disputed(cycle) ensures e.toPath == q && CanonPair(e.fromPath, e.toPath) == p {
      VoteNames(r, p, q);
      assert CanonVote(r).value in VotesOf(cycle);
    }
  }

  lemma OneMoreOfPair(records: seq<Record>, r: Record, p: Pair)
    requires PairOf(r) == p
    ensures ForPair(records + [r], p) == ForPair(records, p) + [r]
  {
    assert (records + [r])[..|records|] == records;
  }

  lemma SightingJoinsCycle(records: seq<Record>, r: Record)
    requires r.Observe?
    ensures Replay(records + [r]).Some? && r in Cycle(records + [r])
    ensures forall x :: x in Cycle(records + [r]) ==> x == r || x in Cycle(records)
  {
    assert (records + [r])[..|records|] == records;
  }

  /** A vote just cast directs the edge, unless other votes of the cycle dispute it; without others, none do. */
  lemma LastVoteDirects(records: seq<Record>, r: Record, p: Pair, q: Path, now: int, decay: Decay)
    requires AllOf(records, p) && PairOf(r) == p && NamesPremise(r, q)
    ensures Replay(records + [r]).Some?
    ensures
      var (cycle, e) := (Cycle(records + [r]), DeriveEdge(Replay(records + [r]).value, now, decay));
      && (e.directionVerdict.Symmetric? <==> Disputed(cycle))
      && (!Disputed(cycle) ==> e.toPath == q && CanonPair(e.fromPath, e.toPath) == p)
      && ((forall x :: x in Cycle(records) && x.Observe? ==> x.vote.None?) ==> !Disputed(cycle))
  {
    SightingJoinsCycle(records, r);
    DirectionIsVoted(records + [r], p, now, decay);
  }

  lemma LastVoteLeavesOpen(records: seq<Record>, r: Record, p: Pair, now: int, decay: Decay)
    requires AllOf(records, p) && PairOf(r) == p && r.Observe? && r.vote == Some(VoteSymmetric)
    ensures Replay(records + [r]).Some?
    ensures DeriveEdge(Replay(records + [r]).value, now, decay).directionVerdict.Symmetric?
  {
    SightingJoinsCycle(records, r);
    DirectionIsVoted(records + [r], p, now, decay);
  }

  /** Sightings, and then, in a revoked cycle, contests only; record `k` is the first contest, if any. */
  ghost predicate EndsInContests(cycle: seq<Record>, k: nat) {
    && k <= |cycle|
    && forall i :: 0 <= i < |cycle| ==> (cycle[i].Observe? <==> i < k)
  }

  ghost predicate TellsCycle(s: EdgeState, cycle: seq<Record>, k: nat) {
    && EndsInContests(cycle, k) && k > 0
    && s.firstObserved == cycle[0].at && s.observations == k
    && (s.revoked <==> k < |cycle|)
    && s.contestedAt == (if k < |cycle| then Some(cycle[k].at) else None)
    && s.contestReason == (if k < |cycle| then cycle[k].reason else None)
  }

  lemma OneMoreTold(s: EdgeState, cycle: seq<Record>, k: nat, r: Record)
    requires TellsCycle(s, cycle, k) && (r.Observe? ==> !s.revoked)
    ensures TellsCycle(Apply(Some(s), r).value, cycle + [r], if r.Observe? then k + 1 else k)
  {
    assert (cycle + [r])[..|cycle|] == cycle;
  }

  lemma {:induction false} StateTellsCycle(records: seq<Record>) returns (k: nat)
    requires Replay(records).Some?
    ensures TellsCycle(Replay(records).value, Cycle(records), k)
  {
    var front, last := records[..|records| - 1], records[|records| - 1];
    if last.Observe? && (Replay(front).None? || Replay(front).value.revoked) {
      k := 1;
    } else {
      k := StateTellsCycle(front);
      OneMoreTold(Replay(front).value, Cycle(front), k, last);
      k := if last.Observe? then k + 1 else k;
    }
  }

  /** What else a pair's edge tells of its cycle: when it began, how often it was seen, and by which contest, if
      any, it was ended; a revoked edge has no strength, a live one bears triggers from half a vote up. */
  lemma EdgeTellsCycle(records: seq<Record>, now: int, decay: Decay) returns (k: nat)
    requires Replay(records).Some?
    ensures
      var (cycle, e) := (Cycle(records), DeriveEdge(Replay(records).value, now, decay));
      && EndsInContests(cycle, k) && k > 0
      && e.firstObserved == cycle[0].at && e.observations == k
      && (e.status.Revoked? <==> k < |cycle|)
      && e.contestedAt == (if k < |cycle| then Some(cycle[k].at) else None)
      && e.contestReason == (if k < |cycle| then cycle[k].reason else None)
      && (k < |cycle| ==> e.strength == 0.0)
      && (k == |cycle| ==> (e.status.TriggerBearing? <==> e.strength >= 0.5))
  {
    k := StateTellsCycle(records);
  }

  /** A live edge's strength: its count, at most five, aged since the last counted vote. */
  lemma StrengthIsAgedCount(records: seq<Record>, now: int, decay: Decay)
    requires Replay(records).Some? && !Replay(records).value.revoked
    ensures
      var e := DeriveEdge(Replay(records).value, now, decay);
      && e.kSurvived <= 5
      && (now > e.lastRederived ==> e.strength == e.kSurvived as real * decay(now - e.lastRederived))
      && (now <= e.lastRederived ==> e.strength == e.kSurvived as real * decay(0))
  {
    CountStaysCapped(records);
  }

  /** Some blind sighting of the cycle says the same, on the same axis by the same observer with the same model. */
  ghost predicate AttestedBefore(cycle: seq<Record>, r: Record)
    requires r.Observe?
  {
    exists x :: x in cycle && x.Observe? && x.blind && x.axis == r.axis && x.observer == r.observer && x.model == r.model
  }

  lemma AttestedBeforeIsVoted(records: seq<Record>, r: Record)
    requires r.Observe? && Replay(records).Some? && Attested(r).Some?
    ensures AttestedBefore(Cycle(records), r) <==> Attested(r).value in Replay(records).value.voted
  {
    CycleShape(records);
    var cycle := Cycle(records);
    if Attested(r).value in Attestations(cycle) {
      var x :| x in cycle && Attested(x) == Attested(r);
      assert x.Observe? && x.blind;
    }
    if x :| x in cycle && x.Observe? && x.blind && x.axis == r.axis && x.observer == r.observer && x.model == r.model {
      assert Attested(x) == Attested(r);
    }
  }

  /** One more sighting of a live edge: it is worth one vote, up to five, when it was blind, on a recorded axis, by
      a named observer, and either nobody had attested the same in this cycle or a day has gone by since the last
      counted vote; otherwise it is worth nothing. */
  lemma WhatCounts(records: seq<Record>, r: Record)
    requires r.Observe? && Replay(records).Some? && !Replay(records).value.revoked
    ensures Replay(records + [r]).Some?
    ensures
      var (s, s') := (Replay(records).value, Replay(records + [r]).value);
      if r.blind && r.axis.Some? && r.observer != ""
         && (!AttestedBefore(Cycle(records), r) || r.at - s.lastRederived >= 86_400_000) then
        s'.kSurvived == (if s.kSurvived < 5 then s.kSurvived + 1 else 5) && s'.lastRederived == r.at
      else
        s'.kSurvived == s.kSurvived && s'.lastRederived == s.lastRederived
  {
    assert (records + [r])[..|records|] == records;
    CountStaysCapped(records);
    if Attested(r).Some? {
      AttestedBeforeIsVoted(records, r);
    }
  }

  /** A cycle begins with the first sighting of a pair, or the first after a contest, worth no vote yet. */
  lemma WhatSeeds(records: seq<Record>, r: Record)
    requires r.Observe? && (Replay(records).Some? ==> Replay(records).value.revoked)
    ensures Replay(records + [r]) == Some(SeedState(r)) && Cycle(records + [r]) == [r]
    ensures
      var s := Replay(records + [r]).value;
      s.kSurvived == 0 && s.firstObserved == s.lastRederived == r.at && !s.revoked
  {
    assert (records + [r])[..|records|] == records;
  }

  /** A pair has a state once it was sighted, and its cycle runs from the last sighting that came first or right
      after a contest. */
  lemma {:induction false} CycleIsSuffix(records: seq<Record>) returns (i: nat)
    requires exists r :: r in records && r.Observe?
    ensures Replay(records).Some?
    ensures i < |records| && Cycle(records) == records[i..] && (i > 0 ==> records[i - 1].Contest?)
  {
    var front, last := records[..|records| - 1], records[|records| - 1];
    assert records == front + [last];
    NeverSightedIsNothing(front);
    if last.Observe? && (Replay(front).None? || Replay(front).value.revoked) {
      i := |front|;
      assert records[i..] == [last];
      if Replay(front).Some? {
        var k := StateTellsCycle(front);
        var j := CycleIsSuffix(front);
        assert front[i - 1] == Cycle(front)[|Cycle(front)| - 1];
      } else if i > 0 {
        assert front[i - 1] in front;
      }
    } else {
      i := CycleIsSuffix(front);
      assert records[i..] == front[i..] + [last];
    }
  }

  lemma {:induction false} NeverSightedIsNothing(records: seq<Record>)
    ensures Replay(records).None? <==> forall r :: r in records ==> r.Contest?
  {
    if records != [] {
      var front, last := records[..|records| - 1], records[|records| - 1];
      NeverSightedIsNothing(front);
      assert records == front + [last];
      assert last in records && forall r :: r in records <==> r in front || r == last;
    }
  }

  /** How far a cycle can have raised the count: each vote needed an attestation the cycle had not
      seen, or a full replay gap since the one before. And every fresh attestation did count, up to the cap. */
  ghost predicate Guarded(s: EdgeState, cycle: seq<Record>) {
    && cycle != []
    && s.firstObserved <= s.lastRederived
    && s.kSurvived <= K_CAP
    && s.kSurvived <= |FreshAttestations(cycle)| + (s.lastRederived - s.firstObserved) / REPLAY_GAP
    && s.kSurvived >= MinCap(|FreshAttestations(cycle)|)
  }

  lemma FreshAttestationsGrow(cycle: seq<Record>, rec: Record)
    requires cycle != []
    ensures
      FreshAttestations(cycle + [rec]) ==
      if Attested(rec).Some? && Attested(rec).value !in Attestations(cycle)
      then FreshAttestations(cycle) + {Attested(rec).value} else FreshAttestations(cycle)
    ensures
      Attested(rec).Some? && Attested(rec).value !in Attestations(cycle) ==>
      Attested(rec).value !in FreshAttestations(cycle)
  {
    assert Attestations(cycle + [rec]) == Attestations(cycle) + OptionSet(Attested(rec));
    if Attested(cycle[0]).Some? {
      assert cycle[0] in cycle;
      assert Attested(cycle[0]).value in Attestations(cycle);
    }
  }

  lemma SightingStaysGuarded(s: EdgeState, cycle: seq<Record>, rec: Record)
    requires Guarded(s, cycle) && s.voted == Attestations(cycle)
    requires rec.Observe? && s.lastRederived <= rec.at
    ensures Guarded(Sighted(s, rec), cycle + [rec])
  {
    FreshAttestationsGrow(cycle, rec);
  }

  lemma {:induction false} ReplayGuard(records: seq<Record>)
    requires Chronological(records) && Replay(records).Some?
    ensures Replay(records).value.lastRederived <= records[|records| - 1].at
    ensures Guarded(Replay(records).value, Cycle(records))
  {
    var front, last := records[..|records| - 1], records[|records| - 1];
    if last.Observe? && (Replay(front).None? || Replay(front).value.revoked) {
      assert Cycle(records) == [last];
      assert FreshAttestations(Cycle(records)) == {};
    } else {
      ReplayGuard(front);
      CycleShape(front);
      if last.Observe? {
        SightingStaysGuarded(Replay(front).value, Cycle(front), last);
      } else {
        FreshAttestationsGrow(Cycle(front), last);
      }
    }
  }

  /** One caller repeating one claim in one sitting earns nothing, however often it is repeated. */
  lemma NoPumpingInOneSitting(records: seq<Record>)
    requires Chronological(records) && Replay(records).Some?
    requires forall r :: r in Cycle(records) && Attested(r).Some? ==> Attested(r) == Attested(Cycle(records)[0])
    requires records[|records| - 1].at - Replay(records).value.firstObserved < REPLAY_GAP
    ensures Replay(records).value.kSurvived == 0
  {
    ReplayGuard(records);
    assert FreshAttestations(Cycle(records)) == {};
  }

  lemma {:induction false} CountStaysCapped(records: seq<Record>)
    requires Replay(records).Some?
    ensures Replay(records).value.kSurvived <= K_CAP
  {
    var front := records[..|records| - 1];
    if Replay(front).Some? {
      CountStaysCapped(front);
    }
  }

  lemma {:induction false} ForPairKeepsOrder(records: seq<Record>, p: Pair)
    requires Chronological(records)
    ensures Chronological(ForPair(records, p))
  {
    if records != [] {
      var front, last := records[..|records| - 1], records[|records| - 1];
      ForPairKeepsOrder(front, p);
      forall r | r in ForPair(front, p) ensures r.at <= last.at {
        var k :| 0 <= k < |front| && front[k] == r;
      }
    }
  }

  /** The guard holds for every pair of a whole log, whatever the records of other pairs in between. */
  lemma ReplayGuardInLog(records: seq<Record>, p: Pair)
    requires Chronological(records) && Replay(ForPair(records, p)).Some?
    ensures Guarded(Replay(ForPair(records, p)).value, Cycle(ForPair(records, p)))
  {
    ForPairKeepsOrder(records, p);
    ReplayGuard(ForPair(records, p));
  }

  lemma {:induction false} ForPairAppend(a: seq<Record>, b: seq<Record>, p: Pair)
    ensures ForPair(a + b, p) == ForPair(a, p) + ForPair(b, p)
  {
    if b == [] {
      assert a + b == a;
    } else {
      ForPairAppend(a, b[..|b| - 1], p);
      assert (a + b)[..|a + b| - 1] == a + b[..|b| - 1];
    }
  }

  lemma {:induction false} OnceObservedAlwaysListed(a: seq<Record>, b: seq<Record>)
    requires Replay(a).Some?
    ensures Replay(a + b).Some?
  {
    if b == [] {
      assert a + b == a;
    } else {
      OnceObservedAlwaysListed(a, b[..|b| - 1]);
      assert (a + b)[..|a + b| - 1] == a + b[..|b| - 1];
    }
  }
}

/** The materialized edge table: a cache of the collapsed log that reads trust by a stat marker. */
module EdgeStore {
  import opened Base
  import opened EdgeTypes
  import opened EdgeLog
  import opened Sorting

  /** One line of the log file, of `payload + 1` bytes; a corrupt line holds no record. */
  datatype Line = Line(payload: nat, record: Option<Record>)

  function FileSize(log: seq<Line>): nat {
    if log == [] then 0 else FileSize(log[..|log| - 1]) + log[|log| - 1].payload + 1
  }

  function Records(log: seq<Line>): seq<Record> {
    if log == [] then []
    else
      var front, last := Records(log[..|log| - 1]), log[|log| - 1];
      if last.record.Some? then front + [last.record.value] else front
  }

  /** What a stat of the log file shows. */
  datatype Marker = Absent | Stat(size: nat, mtime: int)

  ghost predicate Describes(m: Marker, log: seq<Line>) {
    match m
    case Absent => log == []
    case Stat(size, _) => size == FileSize(log)
  }

  /** Only appends happen to the log, so its size identifies its version. */
  lemma {:induction false} SizeIdentifiesVersion(early: seq<Line>, late: seq<Line>)
    requires early <= late
    ensures FileSize(early) <= FileSize(late)
    ensures FileSize(early) == FileSize(late) ==> early == late
  {
    if early != late {
      SizeIdentifiesVersion(early, late[..|late| - 1]);
    }
  }

  datatype Row = Row(
    strength: real,
    kSurvived: nat,
    firstObserved: int,
    lastRederived: int,
    lastAgeDecay: int,
    status: EdgeStatus,
    directionVerdict: DirectionVerdict,
    observations: nat,
    contestedAt: Option<int>,
    contestReason: Option<string>)

  function RowOf(e: DerivesFromEdge, at: int): Row {
    Row(e.strength, e.kSurvived, e.firstObserved, e.lastRederived, at, e.status, e.directionVerdict,
        e.observations, e.contestedAt, e.contestReason)
  }

  /** The public edge read back from a row: strength and status are recomputed as of `now`. */
  function EdgeFromRow(key: Pair, row: Row, now: int, decay: Decay): DerivesFromEdge {
    var revoked := row.status.Revoked?;
    var strength := if revoked then 0.0 else AgedStrength(row.kSurvived, row.lastRederived, now, decay);
    DerivesFromEdge(key.0, key.1, strength, row.kSurvived, row.firstObserved, row.lastRederived,
                    StatusFor(revoked, strength), row.directionVerdict,
                    row.observations, row.contestedAt, row.contestReason)
  }

  /** A row stored at any instant reads back, at any other, as the edge derived from the state itself. */
  lemma RowRoundTrip(s: EdgeState, stored: int, now: int, decay: Decay)
    ensures EdgeFromRow(OutputPair(s), RowOf(DeriveEdge(s, stored, decay), stored), now, decay) == DeriveEdge(s, now, decay)
  {
  }

  ghost function StateOf(records: seq<Record>, p: Pair): Option<EdgeState> {
    Replay(ForPair(records, p))
  }

  ghost function OfPair(p: Pair): Pair {
    CanonPair(p.0, p.1)
  }

  /** `rows` is the materialization, as of `at`, of the collapse of `records`. */
  ghost predicate IsTable(records: seq<Record>, rows: map<Pair, Row>, at: int, decay: Decay) {
    && (forall p: Pair :: StateOf(records, p).Some? ==>
          var s := StateOf(records, p).value;
          OutputPair(s) in rows && rows[OutputPair(s)] == RowOf(DeriveEdge(s, at, decay), at))
    && (forall k :: k in rows ==> StateOf(records, OfPair(k)).Some? && OutputPair(StateOf(records, OfPair(k)).value) == k)
  }

  datatype Filter = Filter(fromPath: Option<Path>, toPath: Option<Path>, status: Option<EdgeStatus>)

  predicate Matches(e: DerivesFromEdge, f: Filter) {
    && (f.fromPath.Some? ==> e.fromPath == f.fromPath.value)
    && (f.toPath.Some? ==> e.toPath == f.toPath.value)
    && (f.status.Some? ==> e.status == f.status.value)
  }

  /** Strongest first, ties by (from, to). */
  predicate Before(a: DerivesFromEdge, b: DerivesFromEdge) {
    a.strength > b.strength ||
    (a.strength == b.strength && (a.fromPath < b.fromPath || (a.fromPath == b.fromPath && a.toPath <= b.toPath)))
  }

  /** `e` is an edge of the collapsed log, as of `now`. */
  ghost predicate IsEdge(records: seq<Record>, e: DerivesFromEdge, now: int, decay: Decay) {
    var st := StateOf(records, CanonPair(e.fromPath, e.toPath));
    st.Some? && e == DeriveEdge(st.value, now, decay)
  }

  /** `r` lists exactly the matching edges of the log, each once, in order. */
  ghost predicate IsListing(records: seq<Record>, f: Filter, now: int, decay: Decay, r: seq<DerivesFromEdge>) {
    && SortedBy(r, Before)
    && Distinct(r)
    && (forall e :: e in r <==> IsEdge(records, e, now, decay) && Matches(e, f))
  }

  /** There is only one such list, so two readers that both list the log agree entry by entry. */
  lemma ListingUnique(records: seq<Record>, f: Filter, now: int, decay: Decay,
                      r: seq<DerivesFromEdge>, r': seq<DerivesFromEdge>)
    requires IsListing(records, f, now, decay, r) && IsListing(records, f, now, decay, r')
    ensures r == r'
  {
    SameEntriesSameMultiset(r, r');
    forall x, y | x in r && y in r && Before(x, y) && Before(y, x) ensures x == y {
      assert IsEdge(records, x, now, decay) && IsEdge(records, y, now, decay);
    }
    SortedUnique(r, r', Before);
  }

  lemma StatesAreEdges(records: seq<Record>, p: Pair, now: int, decay: Decay)
    requires StateOf(records, p).Some?
    ensures IsEdge(records, DeriveEdge(StateOf(records, p).value, now, decay), now, decay)
    ensures OfPair(OutputPair(StateOf(records, p).value)) == p
  {
    StateBelongsToPair(ForPair(records, p), p);
  }

  lemma SortedListing(records: seq<Record>, f: Filter, now: int, decay: Decay, found: seq<DerivesFromEdge>)
    requires Distinct(found)
    requires forall e :: e in found <==> IsEdge(records, e, now, decay) && Matches(e, f)
    ensures IsListing(records, f, now, decay, SortBy(found, Before))
  {
    var r := SortBy(found, Before);
    SortBySorted(found, Before);
    SameElements(r, found);
    DistinctByCount(found, r);
  }

  /** What can go wrong around one call, and what another process appends between stat and read. */
  datatype Weather = Weather(appendFails: bool, logUnreadable: bool, dbOpens: bool, commitFails: bool,
                             arriving: seq<Line>, mtime: int)

  datatype ObserveInput = ObserveInput(from: Path, to: Path, at: int, observer: string, blind: bool,
                                       axis: Option<Axis>, vote: Option<PremiseVote>, model: string)

  function AsRecord(input: ObserveInput): Record {
    Observe(input.from, input.to, input.at, input.observer, input.blind, input.axis, input.vote, input.model)
  }

  /** The edge a call answers with when it opens a cycle: seen once and worth no vote, it points from `from` to `to`,
      unless the vote says the other way or neither. */
  lemma FirstSightingDecides(records: seq<Record>, input: ObserveInput, now: int, decay: Decay)
    requires input.from != input.to
    requires
      var st := StateOf(records, CanonPair(input.from, input.to));
      st.Some? ==> st.value.revoked
    ensures
      var st := StateOf(records + [AsRecord(input)], CanonPair(input.from, input.to));
      && st.Some?
      && var e := DeriveEdge(st.value, now, decay);
         && e.kSurvived == 0 && e.observations == 1 && e.firstObserved == input.at && e.status.Candidate?
         && (input.vote == Some(VoteSymmetric) <==> e.directionVerdict.Symmetric?)
         && (input.vote == Some(VoteFrom) ==> (e.fromPath, e.toPath) == (input.to, input.from))
         && (input.vote in {None, Some(VoteTo)} ==> (e.fromPath, e.toPath) == (input.from, input.to))
  {
    var p, r := CanonPair(input.from, input.to), AsRecord(input);
    OneMoreOfPair(records, r, p);
    WhatSeeds(ForPair(records, p), r);
    SeedDecides(input, now, decay);
  }

  lemma SeedDecides(input: ObserveInput, now: int, decay: Decay)
    requires input.from != input.to
    ensures
      var e := DeriveEdge(SeedState(AsRecord(input)), now, decay);
      && e.kSurvived == 0 && e.observations == 1 && e.firstObserved == input.at && e.status.Candidate?
      && (input.vote == Some(VoteSymmetric) <==> e.directionVerdict.Symmetric?)
      && (input.vote == Some(VoteFrom) ==> (e.fromPath, e.toPath) == (input.to, input.from))
      && (input.vote in {None, Some(VoteTo)} ==> (e.fromPath, e.toPath) == (input.from, input.to))
  {
  }

  /** What a later call is worth: one vote when blind, on an axis, by a named observer, and attested anew. */
  lemma FreshSightingCounts(records: seq<Record>, input: ObserveInput, now: int, decay: Decay)
    requires
      var st := StateOf(records, CanonPair(input.from, input.to));
      st.Some? && !st.value.revoked
    requires forall x :: x in Cycle(ForPair(records, CanonPair(input.from, input.to))) && x.Observe? ==>
      x.axis != input.axis || x.observer != input.observer || x.model != input.model
    ensures
      var (st, st') := (StateOf(records, CanonPair(input.from, input.to)),
                        StateOf(records + [AsRecord(input)], CanonPair(input.from, input.to)));
      && st'.Some?
      && var (k, e) := (st.value.kSurvived, DeriveEdge(st'.value, now, decay));
         if input.blind && input.axis.Some? && input.observer != "" then
           e.kSurvived == (if k < 5 then k + 1 else 5) && e.lastRederived == input.at
         else
           e.kSurvived == k && e.lastRederived == st.value.lastRederived
  {
    var p, r := CanonPair(input.from, input.to), AsRecord(input);
    OneMoreOfPair(records, r, p);
    WhatCounts(ForPair(records, p), r);
  }

  /** Every list of edges is the strongest first, ties by path, and shows what was asked for and nothing else. */
  lemma ListingMeans(records: seq<Record>, f: Filter, now: int, decay: Decay, r: seq<DerivesFromEdge>)
    requires IsListing(records, f, now, decay, r)
    ensures forall e :: e in r <==>
      && IsEdge(records, e, now, decay)
      && f.fromPath in {None, Some(e.fromPath)} && f.toPath in {None, Some(e.toPath)} && f.status in {None, Some(e.status)}
    ensures forall i, j :: 0 <= i < j < |r| ==>
      && r[i].strength >= r[j].strength
      && (r[i].strength == r[j].strength ==>
            r[i].fromPath < r[j].fromPath || (r[i].fromPath == r[j].fromPath && r[i].toPath <= r[j].toPath))
  {
    forall i, j | 0 <= i < j < |r| ensures Before(r[i], r[j]) {
    }
  }

  class Vault {
    const decay: Decay
    // the canonical log file
    var present: bool
    var log: seq<Line>
    var mtime: int
    // the index database
    var rows: map<Pair, Row>
    var marker: Option<Marker>
    // the log as it was when the stored marker was taken, and when the stored rows were read
    ghost var statted: seq<Line>
    ghost var readAt: seq<Line>
    ghost var storedAt: int

    /** The stored marker was taken no later than the log was read for the stored rows. */
    ghost predicate Valid()
      reads this
    {
      && (!present ==> log == [])
      && (marker.Some? ==>
            && statted <= readAt <= log
            && Describes(marker.value, statted)
            && IsTable(Records(readAt), rows, storedAt, decay))
    }

    function StatLog(): (m: Marker)
      requires Valid()
      reads this
      ensures Describes(m, log)
    {
      if present then Stat(FileSize(log), mtime) else Absent
    }

    constructor (decay: Decay)
      ensures Valid() && log == [] && marker.None?
    {
      this.decay := decay;
      present, log, mtime, rows, marker := false, [], 0, map[], None;
      statted, readAt, storedAt := [], [], 0;
    }

    /** A marker equal to the current stat proves that the table is the collapse of the current log. */
    lemma FreshMarkerMeansFreshTable()
      requires Valid() && marker == Some(StatLog())
      ensures IsTable(Records(log), rows, storedAt, decay)
    {
      SizeIdentifiesVersion(statted, log);
      assert readAt == log;
    }

    /** Another process appends, or merely touches the file. */
    method ExternalAppend(lines: seq<Line>, mtime': int)
      requires Valid()
      modifies this`present, this`log, this`mtime
      ensures Valid() && log == old(log) + lines
    {
      if lines != [] {
        present := true;
      }
      log := log + lines;
      mtime := mtime';
    }

    /** Replaces the table by the materialization of `states`, in one transaction. */
    method StoreStates(states: map<Pair, EdgeState>, m: Marker, now: int, commitFails: bool,
                       ghost log0: seq<Line>, ghost log1: seq<Line>)
      returns (ok: bool)
      requires Valid() && log0 <= log1 <= log && Describes(m, log0) && IsCollapse(Records(log1), states)
      modifies this`rows, this`marker, this`statted, this`readAt, this`storedAt
      ensures Valid() && ok == !commitFails
      ensures commitFails ==> rows == old(rows) && marker == old(marker)
      ensures !commitFails ==> IsTable(Records(log1), rows, now, decay) && marker == Some(m)
    {
      if commitFails {
        return false;
      }
      var table := Materialize(states, now, decay, Records(log1));
      rows, marker := table, Some(m);
      statted, readAt, storedAt := log0, log1, now;
      return true;
    }

    /** Rebuilds the table from the log. The stat comes first: whatever another process appends
        between the stat and the read makes the marker older than the rows, never newer. */
    method Rebuild(now: int, w: Weather) returns (ok: bool)
      requires Valid()
      modifies this
      ensures Valid() && log == old(log) + w.arriving && ok == !w.commitFails
      ensures ok ==> IsTable(Records(log), rows, storedAt, decay)
      ensures !ok ==> rows == old(rows)
    {
      var m := StatLog();
      ghost var log0 := log;
      ExternalAppend(w.arriving, w.mtime);
      var states := Collapse(Records(log));
      ok := StoreStates(states, m, now, w.commitFails, log0, log);
    }

    /** Rebuilds only when the stored marker no longer matches the log. */
    method EnsureFresh(now: int, w: Weather) returns (ok: bool)
      requires Valid()
      modifies this
      ensures Valid() && (log == old(log) || log == old(log) + w.arriving)
      ensures ok ==> IsTable(Records(log), rows, storedAt, decay)
      ensures !ok ==> w.commitFails && rows == old(rows)
    {
      if marker == Some(StatLog()) {
        FreshMarkerMeansFreshTable();
        return true;
      }
      ok := Rebuild(now, w);
    }

    /** After an append: refreshes the table if it can, and returns the collapse of what it read. */
    method WriteThrough(now: int, w: Weather) returns (states: Option<map<Pair, EdgeState>>)
      requires Valid()
      modifies this
      ensures Valid() && (log == old(log) || log == old(log) + w.arriving)
      ensures states.Some? ==> IsCollapse(Records(log), states.value)
    {
      if w.logUnreadable {
        return None;
      }
      var m := StatLog();
      ghost var log0 := log;
      ExternalAppend(w.arriving, w.mtime);
      var collapsed := Collapse(Records(log));
      if w.dbOpens {
        var stored := StoreStates(collapsed, m, now, w.commitFails, log0, log);
      }
      return Some(collapsed);
    }

    method AppendLine(line: Line, mtime': int)
      requires Valid()
      modifies this`present, this`log, this`mtime
      ensures Valid() && log == old(log) + [line]
    {
      present, log, mtime := true, log + [line], mtime';
    }

    /** Records an observation and answers with the edge as the log, now, has it. */
    method ObserveEdge(input: ObserveInput, payload: nat, now: int, w: Weather)
      returns (r: Result<DerivesFromEdge, string>)
      requires Valid()
      modifies this
      ensures Valid()
      ensures input.from == input.to || w.appendFails ==> r.Err? && log == old(log) && rows == old(rows)
      ensures !(input.from == input.to || w.appendFails) ==>
        && old(log) + [Line(payload, Some(AsRecord(input)))] <= log
        && |log| <= |old(log)| + 1 + |w.arriving|
        && StateOf(Records(log), PairOf(AsRecord(input))).Some?
        && r == Ok(DeriveEdge(StateOf(Records(log), PairOf(AsRecord(input))).value, now, decay))
    {
      if input.from == input.to {
        return Err("a document cannot derive from itself");
      }
      if w.appendFails {
        return Err("cannot record edge observation");
      }
      var line := Line(payload, Some(AsRecord(input)));
      AppendLine(line, w.mtime);
      ghost var log1 := log;
      var states := WriteThrough(now, w);
      var known: map<Pair, EdgeState>;
      if states.Some? {
        known := states.value;
      } else {
        known := Collapse(Records(log));
      }
      ObservedIsListed(old(log), line, log);
      assert Lookup(known, PairOf(AsRecord(input))) == StateOf(Records(log), PairOf(AsRecord(input)));
      return Ok(DeriveEdge(known[PairOf(AsRecord(input))], now, decay));
    }

    /** Contests a live edge, which revokes it. An unknown or already revoked edge is refused unrecorded. */
    method ContestEdge(from: Path, to: Path, at: int, reason: string, payload: nat, now: int, w: Weather)
      returns (r: Result<DerivesFromEdge, string>)
      requires Valid()
      modifies this
      ensures Valid()
      ensures
        var st := StateOf(Records(old(log)), CanonPair(from, to));
        if st.None? || st.value.revoked || w.appendFails then
          r.Err? && log == old(log) && rows == old(rows)
        else
          && old(log) + [Line(payload, Some(Contest(from, to, at, Some(reason))))] <= log
          && |log| <= |old(log)| + 1 + |w.arriving|
          && StateOf(Records(log), CanonPair(from, to)).Some?
          && r == Ok(DeriveEdge(StateOf(Records(log), CanonPair(from, to)).value, now, decay))
    {
      var key := CanonPair(from, to);
      var before := Collapse(Records(log));
      assert Lookup(before, key) == StateOf(Records(log), key);
      if key !in before {
        return Err("no such edge");
      }
      if before[key].revoked {
        return Err("edge already revoked");
      }
      if w.appendFails {
        return Err("cannot record edge contest");
      }
      var line := Line(payload, Some(Contest(from, to, at, Some(reason))));
      AppendLine(line, w.mtime);
      var states := WriteThrough(now, w);
      var known: map<Pair, EdgeState>;
      if states.Some? {
        known := states.value;
      } else {
        known := Collapse(Records(log));
      }
      StaysListed(old(log), log, key);
      assert Lookup(known, key) == StateOf(Records(log), key);
      return Ok(DeriveEdge(known[key], now, decay));
    }

    /** The degraded read: collapse the log and list from that. */
    method ListFromLog(f: Filter, now: int) returns (r: seq<DerivesFromEdge>)
      requires Valid()
      ensures IsListing(Records(log), f, now, decay, r)
    {
      var states := Collapse(Records(log));
      var found := DeriveAll(states, now, decay, Records(log));
      found := Filtered(found, f);
      SortedListing(Records(log), f, now, decay, found);
      return SortBy(found, Before);
    }

    /** The read everyone uses. Whatever was appended, lost or left stale before, what it lists at any
        instant is what the degraded read would list from the log itself. */
    method ListEdges(f: Filter, now: int, rebuiltAt: int, w: Weather)
      returns (r: Result<seq<DerivesFromEdge>, string>)
      requires Valid()
      modifies this
      ensures Valid() && (log == old(log) || log == old(log) + w.arriving)
      ensures r.Ok? ==> IsListing(Records(log), f, now, decay, r.value)
      ensures r.Err? ==> w.dbOpens && w.commitFails
    {
      if !w.dbOpens {
        var listed := ListFromLog(f, now);
        return Ok(listed);
      }
      var isFresh := EnsureFresh(rebuiltAt, w);
      if !isFresh {
        return Err("cannot read edges");
      }
      var found := SelectRows(rows, f, now, decay, Records(log), storedAt);
      SortedListing(Records(log), f, now, decay, found);
      return Ok(SortBy(found, Before));
    }

    /** Looks one pair up, whichever way round it is named. */
    method GetEdge(a: Path, b: Path, now: int, rebuiltAt: int, w: Weather)
      returns (r: Result<Option<DerivesFromEdge>, string>)
      requires Valid()
      modifies this
      ensures Valid() && (log == old(log) || log == old(log) + w.arriving)
      ensures r.Err? ==> w.dbOpens && w.commitFails
      ensures r.Ok? ==>
        var st := StateOf(Records(log), CanonPair(a, b));
        r.value == if st.Some? then Some(DeriveEdge(st.value, now, decay)) else None
    {
      if !w.dbOpens {
        var states := Collapse(Records(log));
        assert Lookup(states, CanonPair(a, b)) == StateOf(Records(log), CanonPair(a, b));
        return Ok(if CanonPair(a, b) in states then Some(DeriveEdge(states[CanonPair(a, b)], now, decay)) else None);
      }
      var isFresh := EnsureFresh(rebuiltAt, w);
      if !isFresh {
        return Err("cannot read edge");
      }
      ghost var st := StateOf(Records(log), CanonPair(a, b));
      if st.Some? {
        StatesAreEdges(Records(log), CanonPair(a, b), now, decay);
        RowRoundTrip(st.value, storedAt, now, decay);
      }
      if (a, b) in rows {
        return Ok(Some(EdgeFromRow((a, b), rows[(a, b)], now, decay)));
      }
      if (b, a) in rows {
        return Ok(Some(EdgeFromRow((b, a), rows[(b, a)], now, decay)));
      }
      return Ok(None);
    }
  }

  /** Upserts one row per state, under the state's output key. */
  method Materialize(states: map<Pair, EdgeState>, now: int, decay: Decay, ghost records: seq<Record>)
    returns (table: map<Pair, Row>)
    requires IsCollapse(records, states)
    ensures IsTable(records, table, now, decay)
  {
    table := map[];
    var todo := states.Keys;
    while todo != {}
      invariant todo <= states.Keys
      invariant forall p :: p in states && p !in todo ==>
        OutputPair(states[p]) in table && table[OutputPair(states[p])] == RowOf(DeriveEdge(states[p], now, decay), now)
      invariant forall k :: k in table ==> OfPair(k) in states && OutputPair(states[OfPair(k)]) == k
      decreases |todo|
    {
      var p :| p in todo;
      todo := todo - {p};
      var e := DeriveEdge(states[p], now, decay);
      assert Lookup(states, p) == StateOf(records, p);
      StatesAreEdges(records, p, now, decay);
      forall q | q in states && OutputPair(states[q]) == OutputPair(states[p]) ensures q == p {
        OutputKeysAreDistinct(records, states, p, q);
      }
      table := table[(e.fromPath, e.toPath) := RowOf(e, now)];
    }
    forall p: Pair ensures Lookup(states, p) == StateOf(records, p) {}
  }

  lemma {:induction false} RecordsAppend(a: seq<Line>, b: seq<Line>)
    ensures Records(a + b) == Records(a) + Records(b)
  {
    if b == [] {
      assert a + b == a;
    } else {
      RecordsAppend(a, b[..|b| - 1]);
      assert (a + b)[..|a + b| - 1] == a + b[..|b| - 1];
    }
  }

  lemma StaysListed(early: seq<Line>, late: seq<Line>, p: Pair)
    requires early <= late && StateOf(Records(early), p).Some?
    ensures StateOf(Records(late), p).Some?
  {
    var rest := late[|early|..];
    assert late == early + rest;
    RecordsAppend(early, rest);
    ForPairAppend(Records(early), Records(rest), p);
    OnceObservedAlwaysListed(ForPair(Records(early), p), ForPair(Records(rest), p));
  }

  lemma ObservedIsListed(before: seq<Line>, line: Line, after: seq<Line>)
    requires before + [line] <= after && line.record.Some? && line.record.value.Observe?
    ensures StateOf(Records(after), PairOf(line.record.value)).Some?
  {
    var p, rec := PairOf(line.record.value), line.record.value;
    assert (before + [line])[..|before|] == before;
    ForPairAppend(Records(before), [rec], p);
    assert ForPair([rec], p) == [rec];
    var mine := ForPair(Records(before), p);
    assert (mine + [rec])[..|mine|] == mine;
    StaysListed(before + [line], after, p);
  }

  /** The edges of every collapsed state, each once. */
  method DeriveAll(states: map<Pair, EdgeState>, now: int, decay: Decay, ghost records: seq<Record>)
    returns (found: seq<DerivesFromEdge>)
    requires IsCollapse(records, states)
    ensures Distinct(found)
    ensures forall e :: e in found <==> IsEdge(records, e, now, decay)
  {
    found := [];
    var todo := states.Keys;
    while todo != {}
      invariant todo <= states.Keys
      invariant Distinct(found)
      invariant forall e :: e in found <==> IsEdge(records, e, now, decay) && CanonPair(e.fromPath, e.toPath) !in todo
      decreases |todo|
    {
      var p :| p in todo;
      todo := todo - {p};
      assert Lookup(states, p) == StateOf(records, p);
      StatesAreEdges(records, p, now, decay);
      found := found + [DeriveEdge(states[p], now, decay)];
    }
    forall e ensures e in found <==> IsEdge(records, e, now, decay) {
      assert Lookup(states, CanonPair(e.fromPath, e.toPath)) == StateOf(records, CanonPair(e.fromPath, e.toPath));
    }
  }

  method Filtered(edges: seq<DerivesFromEdge>, f: Filter) returns (found: seq<DerivesFromEdge>)
    requires Distinct(edges)
    ensures Distinct(found)
    ensures forall e :: e in found <==> e in edges && Matches(e, f)
  {
    found := [];
    for n := 0 to |edges|
      invariant Distinct(found)
      invariant forall e :: e in found <==> e in edges[..n] && Matches(e, f)
    {
      if Matches(edges[n], f) {
        found := found + [edges[n]];
      }
    }
  }

  /** The status column narrows the query only as far as aging cannot have changed the answer since. */
  predicate StatusPrefilter(stored: EdgeStatus, wanted: Option<EdgeStatus>) {
    wanted.None? || (wanted.value.Revoked? <==> stored.Revoked?)
  }

  ghost predicate Wanted(records: seq<Record>, e: DerivesFromEdge, f: Filter, now: int, decay: Decay) {
    IsEdge(records, e, now, decay) && Matches(e, f)
  }

  /** A row answers for its own edge, and the narrowed query keeps it exactly when that edge matches. */
  lemma RowAnswers(records: seq<Record>, rows: map<Pair, Row>, k: Pair, at: int, f: Filter, now: int, decay: Decay)
    requires IsTable(records, rows, at, decay) && k in rows
    ensures
      var e := EdgeFromRow(k, rows[k], now, decay);
      && (e.fromPath, e.toPath) == k
      && (forall e' {:trigger Wanted(records, e', f, now, decay)} ::
            Wanted(records, e', f, now, decay) && (e'.fromPath, e'.toPath) == k <==> Kept(k, rows[k], e, f) && e' == e)
  {
    StatesAreEdges(records, OfPair(k), now, decay);
    RowRoundTrip(StateOf(records, OfPair(k)).value, at, now, decay);
    var e := EdgeFromRow(k, rows[k], now, decay);
    assert IsEdge(records, e, now, decay);
    assert Matches(e, f) <==> Kept(k, rows[k], e, f);
  }

  predicate Kept(k: Pair, row: Row, e: DerivesFromEdge, f: Filter) {
    && (f.fromPath.Some? ==> k.0 == f.fromPath.value) && (f.toPath.Some? ==> k.1 == f.toPath.value)
    && StatusPrefilter(row.status, f.status) && (f.status.Some? ==> e.status == f.status.value)
  }

  lemma EdgesHaveRows(records: seq<Record>, rows: map<Pair, Row>, at: int, e: DerivesFromEdge, now: int, decay: Decay)
    requires IsTable(records, rows, at, decay) && IsEdge(records, e, now, decay)
    ensures (e.fromPath, e.toPath) in rows
  {
  }

  /** The wanted edges whose row is no longer to be looked at, each once. */
  ghost predicate FoundOutside(records: seq<Record>, todo: set<Pair>, f: Filter, now: int, decay: Decay,
                               found: seq<DerivesFromEdge>)
  {
    && Distinct(found)
    && (forall e :: e in found <==> Wanted(records, e, f, now, decay) && (e.fromPath, e.toPath) !in todo)
  }

  lemma LookedAt(records: seq<Record>, todo: set<Pair>, k: Pair, e: DerivesFromEdge, keep: bool, f: Filter, now: int,
                 decay: Decay, found: seq<DerivesFromEdge>)
    requires FoundOutside(records, todo, f, now, decay, found) && k in todo
    requires (e.fromPath, e.toPath) == k
    requires forall e' {:trigger Wanted(records, e', f, now, decay)} ::
      Wanted(records, e', f, now, decay) && (e'.fromPath, e'.toPath) == k <==> keep && e' == e
    ensures FoundOutside(records, todo - {k}, f, now, decay, if keep then found + [e] else found)
  {
  }

  method SelectRows(rows: map<Pair, Row>, f: Filter, now: int, decay: Decay, ghost records: seq<Record>, ghost at: int)
    returns (found: seq<DerivesFromEdge>)
    requires IsTable(records, rows, at, decay)
    ensures Distinct(found)
    ensures forall e :: e in found <==> IsEdge(records, e, now, decay) && Matches(e, f)
  {
    found := [];
    var todo := rows.Keys;
    forall e | Wanted(records, e, f, now, decay) ensures (e.fromPath, e.toPath) in rows {
      EdgesHaveRows(records, rows, at, e, now, decay);
    }
    while todo != {}
      invariant todo <= rows.Keys
      invariant FoundOutside(records, todo, f, now, decay, found)
      decreases |todo|
    {
      var k :| k in todo;
      var e := EdgeFromRow(k, rows[k], now, decay);
      var keep := Kept(k, rows[k], e, f);
      RowAnswers(records, rows, k, at, f, now, decay);
      LookedAt(records, todo, k, e, keep, f, now, decay, found);
      todo := todo - {k};
      if keep {
        found := found + [e];
      }
    }
    forall e ensures e in found <==> IsEdge(records, e, now, decay) && Matches(e, f) {
      assert e in found <==> Wanted(records, e, f, now, decay);
    }
  }

  /** Why the stat must come before the read. Had the marker been taken after the append of `line` but
      the rows read before it, the marker would match the log while the rows lack the line's edge. */
  lemma StatAfterReadWouldServeStaleRows(before: seq<Line>, line: Line, rows: map<Pair, Row>, at: int, at': int,
                                         decay: Decay)
    requires line.record.Some? && line.record.value.Observe?
    requires StateOf(Records(before), PairOf(line.record.value)).None?
    requires IsTable(Records(before), rows, at, decay)
    ensures !IsTable(Records(before + [line]), rows, at', decay)
  {
    ObservedIsListed(before, line, before + [line]);
    StatesAreEdges(Records(before + [line]), PairOf(line.record.value), at', decay);
  }
}

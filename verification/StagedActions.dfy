/** The staged-action log: proposals and decisions appended, current rows read back by collapsing it. */
module StagedActions {
  import opened Base
  import opened Sorting
  import SequentialIds

  type Id = string

  datatype Status = Pending | Ratified | Rejected | Expired | RatifiedPendingTool | Unknown(name: string)

  /** What a proposal says once and for all. An expiry that does not parse is None. */
  datatype Content = Content(actionType: string, target: string, proposedBy: string, proposedAt: int,
                             expiresAt: Option<int>, rationale: string, diff: string, runId: Option<string>,
                             baseVersion: Option<string>)

  /** The fields a decision overwrites. */
  datatype Ratification = Ratification(at: Option<int>, actor: Option<string>, reason: Option<string>,
                                       principal: Option<string>)

  datatype RawRecord =
    | Proposal(id: Id, content: Content, status: Option<Status>)
    | Decision(id: Id, status: Option<Status>, ratification: Ratification)

  datatype Row = Row(id: Id, content: Content, status: Status, ratification: Ratification)

  const PREFIX := "stage-"
  const SWEEP_PRINCIPAL := "system:lint-sweep"
  const DAY: int := 86_400_000
  const UNDECIDED := Ratification(None, None, None, None)

  function Defaulted(s: Option<Status>, otherwise: Status): Status {
    if s.Some? then s.value else otherwise
  }

  /** One record's effect on the row of its own id. */
  function Apply(row: Option<Row>, rec: RawRecord): Option<Row> {
    match rec
    case Proposal(id, content, status) => Some(Row(id, content, Defaulted(status, Pending), UNDECIDED))
    case Decision(_, status, ratification) =>
      if row.None? then None
      else Some(row.value.(status := Defaulted(status, row.value.status), ratification := ratification))
  }

  function RowOf(log: seq<RawRecord>, id: Id): Option<Row> {
    if log == [] then None
    else
      var front, last := RowOf(log[..|log| - 1], id), log[|log| - 1];
      if last.id == id then Apply(front, last) else front
  }

  function Ids(log: seq<RawRecord>): (r: seq<Id>)
    ensures |r| == |log| && forall i :: 0 <= i < |log| ==> r[i] == log[i].id
  {
    seq(|log|, i requires 0 <= i < |log| => log[i].id)
  }

  /** `order` lists each proposed id once; `rows` has its current row. */
  ghost predicate IsCollapse(log: seq<RawRecord>, order: seq<Id>, rows: map<Id, Row>) {
    && Distinct(order)
    && (forall id: Id :: id in order <==> id in rows)
    && (forall id: Id :: id in rows <==> RowOf(log, id).Some?)
    && (forall id: Id :: id in rows ==> RowOf(log, id) == Some(rows[id]))
  }

  lemma RowStep(log: seq<RawRecord>, rec: RawRecord, id: Id)
    ensures RowOf(log + [rec], id) == if rec.id == id then Apply(RowOf(log, id), rec) else RowOf(log, id)
  {
    assert (log + [rec])[..|log|] == log;
  }

  lemma {:induction false} RowKeepsId(log: seq<RawRecord>, id: Id)
    requires RowOf(log, id).Some?
    ensures RowOf(log, id).value.id == id && id in Ids(log)
  {
    var front, last := log[..|log| - 1], log[|log| - 1];
    assert Ids(log) == Ids(front) + [last.id];
    if RowOf(front, id).Some? {
      RowKeepsId(front, id);
    }
  }

  method Collapse(log: seq<RawRecord>) returns (order: seq<Id>, rows: map<Id, Row>)
    ensures IsCollapse(log, order, rows)
  {
    order, rows := [], map[];
    for n := 0 to |log|
      invariant IsCollapse(log[..n], order, rows)
    {
      var rec := log[n];
      assert log[..n + 1] == log[..n] + [rec];
      forall id: Id ensures RowOf(log[..n + 1], id) == if rec.id == id then Apply(RowOf(log[..n], id), rec) else RowOf(log[..n], id) {
        RowStep(log[..n], rec, id);
      }
      match rec
      case Proposal(id, content, status) =>
        if id !in rows {
          order := order + [id];
        }
        rows := rows[id := Row(id, content, Defaulted(status, Pending), UNDECIDED)];
      case Decision(id, status, ratification) =>
        if id in rows {
          rows := rows[id := rows[id].(status := Defaulted(status, rows[id].status), ratification := ratification)];
        }
    }
    assert log[..|log|] == log;
  }

  // ----- what a row says: the last proposal, and the last decision after it

  ghost predicate LastProposal(log: seq<RawRecord>, id: Id, i: nat) {
    && i < |log| && log[i].Proposal? && log[i].id == id
    && forall k :: i < k < |log| && log[k].id == id ==> log[k].Decision?
  }

  ghost predicate LastDecision(log: seq<RawRecord>, id: Id, j: nat) {
    && j < |log| && log[j].Decision? && log[j].id == id
    && forall k :: j < k < |log| ==> log[k].id != id
  }

  /** A row has the content of its last proposal, undecided unless a decision came after it. */
  lemma {:induction false} RowIsLastProposal(log: seq<RawRecord>, id: Id, i: nat)
    requires LastProposal(log, id, i)
    ensures RowOf(log, id).Some? && RowOf(log, id).value.content == log[i].content
    ensures (forall k :: i < k < |log| ==> log[k].id != id) ==>
              RowOf(log, id) == Some(Row(id, log[i].content, Defaulted(log[i].status, Pending), UNDECIDED))
  {
    var m := |log| - 1;
    if i < m {
      assert LastProposal(log[..m], id, i);
      RowIsLastProposal(log[..m], id, i);
    }
  }

  /** A decision after the last proposal, itself the last, settles the row's status and ratification. */
  lemma {:induction false} RowIsLastDecision(log: seq<RawRecord>, id: Id, i: nat, j: nat)
    requires LastProposal(log, id, i) && LastDecision(log, id, j) && i < j
    ensures
      var row := RowOf(log, id);
      && row.Some? && row.value.ratification == log[j].ratification
      && (log[j].status.Some? ==> row.value.status == log[j].status.value)
  {
    var m := |log| - 1;
    assert LastProposal(log[..m], id, i);
    if j < m {
      assert LastDecision(log[..m], id, j);
      RowIsLastDecision(log[..m], id, i, j);
    } else {
      RowIsLastProposal(log[..m], id, i);
    }
  }

  /** A decision without a proposal makes no row. */
  lemma {:induction false} RowNeedsProposal(log: seq<RawRecord>, id: Id) returns (i: nat)
    requires RowOf(log, id).Some?
    ensures LastProposal(log, id, i)
  {
    var m := |log| - 1;
    if log[m].Proposal? && log[m].id == id {
      i := m;
    } else {
      i := RowNeedsProposal(log[..m], id);
    }
  }

  // ----- expiry

  ghost predicate IsStale(row: Option<Row>, now: int) {
    row.Some? && row.value.status.Pending? && row.value.content.expiresAt.Some? && row.value.content.expiresAt.value < now
  }

  function Expiry(id: Id, now: int): RawRecord {
    Decision(id, Some(Expired), Ratification(Some(now), Some(SWEEP_PRINCIPAL), None, None))
  }

  function Expiries(ids: seq<Id>, now: int): (r: seq<RawRecord>)
    ensures |r| == |ids| && forall i :: 0 <= i < |ids| ==> r[i] == Expiry(ids[i], now)
  {
    seq(|ids|, i requires 0 <= i < |ids| => Expiry(ids[i], now))
  }

  ghost function AfterExpiry(row: Row, now: int): Row {
    row.(status := Expired, ratification := Ratification(Some(now), Some(SWEEP_PRINCIPAL), None, None))
  }

  /** Expiry decisions change the rows they name and no others. */
  lemma {:induction false} ExpiriesTouchTheirRows(log: seq<RawRecord>, ids: seq<Id>, now: int, id: Id)
    ensures RowOf(log + Expiries(ids, now), id) ==
            if id in ids && RowOf(log, id).Some? then Some(AfterExpiry(RowOf(log, id).value, now)) else RowOf(log, id)
  {
    if ids == [] {
      assert log + Expiries(ids, now) == log;
    } else {
      var n := |ids| - 1;
      ExpiriesTouchTheirRows(log, ids[..n], now, id);
      assert log + Expiries(ids, now) == (log + Expiries(ids[..n], now)) + [Expiry(ids[n], now)];
      RowStep(log + Expiries(ids[..n], now), Expiry(ids[n], now), id);
      assert ids == ids[..n] + [ids[n]];
    }
  }

  predicate SoonestFirst(a: Row, b: Row) {
    (if a.content.expiresAt.Some? then a.content.expiresAt.value else 0) <=
    (if b.content.expiresAt.Some? then b.content.expiresAt.value else 0)
  }

  function IdsOfRows(rows: seq<Row>): (r: seq<Id>)
    ensures |r| == |rows| && forall i :: 0 <= i < |rows| ==> r[i] == rows[i].id
  {
    seq(|rows|, i requires 0 <= i < |rows| => rows[i].id)
  }

  /** The pending rows past their expiry, soonest-expired first. */
  ghost predicate IsSweepList(log: seq<RawRecord>, now: int, rows: seq<Row>) {
    && (forall i, j :: 0 <= i < j < |rows| ==> rows[i].id != rows[j].id)
    && (forall r :: r in rows ==> RowOf(log, r.id) == Some(r) && IsStale(Some(r), now))
    && (forall id: Id :: IsStale(RowOf(log, id), now) ==> id in IdsOfRows(rows))
    && SortedBy(rows, SoonestFirst)
  }

  /** The stale rows among the ids in `order`, each once. */
  ghost predicate StaleAmong(order: seq<Id>, rows: map<Id, Row>, now: int, found: seq<Row>) {
    && (forall i, j :: 0 <= i < j < |found| ==> found[i].id != found[j].id)
    && (forall r :: r in found ==> r.id in order && r.id in rows && rows[r.id] == r && IsStale(Some(r), now))
    && (forall id :: id in order && id in rows && IsStale(Some(rows[id]), now) ==> id in IdsOfRows(found))
  }

  lemma StaleStep(order: seq<Id>, rows: map<Id, Row>, now: int, found: seq<Row>, id: Id)
    requires StaleAmong(order, rows, now, found) && id !in order && id in rows && rows[id].id == id
    ensures StaleAmong(order + [id], rows, now, if IsStale(Some(rows[id]), now) then found + [rows[id]] else found)
  {
    assert IdsOfRows(found + [rows[id]]) == IdsOfRows(found) + [id];
  }

  method StaleRows(log: seq<RawRecord>, now: int) returns (stale: seq<Row>)
    ensures IsSweepList(log, now, stale)
  {
    var order, rows := Collapse(log);
    var found: seq<Row> := [];
    for n := 0 to |order|
      invariant StaleAmong(order[..n], rows, now, found)
    {
      var row := rows[order[n]];
      RowKeepsId(log, order[n]);
      PrefixStep(order, n);
      StaleStep(order[..n], rows, now, found, order[n]);
      if row.status.Pending? && row.content.expiresAt.Some? && row.content.expiresAt.value < now {
        found := found + [row];
      }
    }
    assert order[..|order|] == order;
    stale := SortBy(found, SoonestFirst);
    SortBySorted(found, SoonestFirst);
    SweepListFound(log, order, rows, now, found);
    SortedSweepList(log, now, found, stale);
  }

  lemma SweepListFound(log: seq<RawRecord>, order: seq<Id>, rows: map<Id, Row>, now: int, found: seq<Row>)
    requires IsCollapse(log, order, rows) && StaleAmong(order, rows, now, found)
    ensures forall i, j :: 0 <= i < j < |found| ==> found[i].id != found[j].id
    ensures forall r :: r in found ==> RowOf(log, r.id) == Some(r) && IsStale(Some(r), now)
    ensures forall id: Id :: IsStale(RowOf(log, id), now) ==> id in IdsOfRows(found)
  {
  }

  lemma SortedSweepList(log: seq<RawRecord>, now: int, found: seq<Row>, stale: seq<Row>)
    requires multiset(found) == multiset(stale) && SortedBy(stale, SoonestFirst)
    requires forall i, j :: 0 <= i < j < |found| ==> found[i].id != found[j].id
    requires forall r :: r in found ==> RowOf(log, r.id) == Some(r) && IsStale(Some(r), now)
    requires forall id: Id :: IsStale(RowOf(log, id), now) ==> id in IdsOfRows(found)
    ensures IsSweepList(log, now, stale)
  {
    SameElements(found, stale);
    DistinctByCount(found, stale);
    forall i, j | 0 <= i < j < |stale| ensures stale[i].id != stale[j].id {
      assert stale[i] in found && stale[j] in found;
    }
    forall id: Id | IsStale(RowOf(log, id), now) ensures id in IdsOfRows(stale) {
      var k :| 0 <= k < |found| && found[k].id == id;
      assert found[k] in stale;
      var m :| 0 <= m < |stale| && stale[m] == found[k];
      assert IdsOfRows(stale)[m] == id;
    }
  }

  // ----- whole runs: each id proposed once, decisions only on what was proposed

  ghost predicate Follows(before: seq<RawRecord>, rec: RawRecord) {
    if rec.Proposal? then rec.id !in Ids(before) else RowOf(before, rec.id).Some?
  }

  ghost predicate Orderly(log: seq<RawRecord>) {
    forall i :: 0 <= i < |log| ==> Follows(log[..i], log[i])
  }

  lemma OrderlyStep(log: seq<RawRecord>, rec: RawRecord)
    requires Orderly(log) && Follows(log, rec)
    ensures Orderly(log + [rec])
  {
    forall i | 0 <= i < |log + [rec]| ensures Follows((log + [rec])[..i], (log + [rec])[i]) {
      assert (log + [rec])[..i] == if i < |log| then log[..i] else log;
    }
  }

  lemma {:induction false} ExpiriesAreOrderly(log: seq<RawRecord>, ids: seq<Id>, now: int)
    requires Orderly(log) && forall id: Id :: id in ids ==> RowOf(log, id).Some?
    ensures Orderly(log + Expiries(ids, now))
  {
    if ids == [] {
      assert log + Expiries(ids, now) == log;
    } else {
      var n := |ids| - 1;
      ExpiriesAreOrderly(log, ids[..n], now);
      assert log + Expiries(ids, now) == (log + Expiries(ids[..n], now)) + [Expiry(ids[n], now)];
      ExpiriesTouchTheirRows(log, ids[..n], now, ids[n]);
      OrderlyStep(log + Expiries(ids[..n], now), Expiry(ids[n], now));
    }
  }

  /** However the log of an orderly run grows, what was proposed stays proposed, word for word. */
  lemma {:induction false} ProposalsAreForever(log: seq<RawRecord>, more: seq<RawRecord>, id: Id)
    requires Orderly(log + more) && RowOf(log, id).Some?
    ensures RowOf(log + more, id).Some? && RowOf(log + more, id).value.content == RowOf(log, id).value.content
  {
    if more == [] {
      assert log + more == log;
    } else {
      var n := |more| - 1;
      var front := log + more[..n];
      assert log + more == front + [more[n]];
      assert forall i :: 0 <= i < |front| ==> front[..i] == (log + more)[..i];
      ProposalsAreForever(log, more[..n], id);
      RowStep(front, more[n], id);
      assert Follows((log + more)[..|front|], more[n]);
      assert (log + more)[..|front|] == front;
      RowKeepsId(front, id);
    }
  }

  // ----- the operations

  datatype StageInput = StageInput(actionType: string, target: string, proposedBy: string, rationale: string,
                                   diff: Option<string>, ttlDays: int, runId: Option<string>, baseVersion: Option<string>)

  datatype TensionOutcome = NoTension | TensionLogged | TensionFailed

  datatype StageOutcome = StageOutcome(id: Id, expiresAt: int, conflictsWith: seq<Id>, tension: TensionOutcome)

  datatype Failure = InvalidInput | NotFound | LogUnwritable

  const ACTION_TYPES: seq<string> := ["promote", "deprecate", "supersede", "unsupersede", "merge", "confidence-up", "write", "repin"]

  predicate IsValidInput(input: StageInput) {
    && input.actionType in ACTION_TYPES
    && input.target != "" && input.proposedBy != "" && input.rationale != ""
    && input.diff.Some?
    && input.ttlDays > 0
  }

  /** What may be staged: one of the eight actions, on a target, by somebody, with a reason, a diff and time to live. */
  lemma InputMeans(input: StageInput)
    ensures IsValidInput(input) <==>
      && input.actionType in {"promote", "deprecate", "supersede", "unsupersede", "merge", "confidence-up", "write", "repin"}
      && |input.target| > 0 && |input.proposedBy| > 0 && |input.rationale| > 0
      && input.diff.Some? && input.ttlDays >= 1
  {
    var t := input.actionType;
    assert ACTION_TYPES[0] == "promote" && ACTION_TYPES[1] == "deprecate" && ACTION_TYPES[2] == "supersede"
           && ACTION_TYPES[3] == "unsupersede" && ACTION_TYPES[4] == "merge" && ACTION_TYPES[5] == "confidence-up"
           && ACTION_TYPES[6] == "write" && ACTION_TYPES[7] == "repin";
  }

  function ContentOf(input: StageInput, now: int): Content
    requires input.diff.Some?
  {
    Content(input.actionType, input.target, input.proposedBy, now, Some(now + input.ttlDays * DAY), input.rationale,
            input.diff.value, input.runId, input.baseVersion)
  }

  /** `row` is the pending row of `input`, word for word, running out at `expiresAt`. */
  ghost predicate IsStaged(row: Option<Row>, id: Id, input: StageInput, now: int, expiresAt: int) {
    input.diff.Some? &&
    var content := Content(input.actionType, input.target, input.proposedBy, now, Some(expiresAt), input.rationale,
                           input.diff.value, input.runId, input.baseVersion);
    row == Some(Row(id, content, Pending, UNDECIDED))
  }

  lemma StagedRow(log: seq<RawRecord>, id: Id, input: StageInput, now: int)
    requires input.diff.Some?
    ensures IsStaged(RowOf(log + [Proposal(id, ContentOf(input, now), Some(Pending))], id), id, input, now, now + input.ttlDays * DAY)
  {
    RowStep(log, Proposal(id, ContentOf(input, now), Some(Pending)), id);
  }

  ghost predicate Contends(row: Option<Row>, target: string) {
    row.Some? && row.value.status.Pending? && row.value.content.target == target
  }

  /** What contends: a row as staged does with its own target and no other; once decided or expired, with none. */
  lemma ContendersMean(row: Row, id: Id, input: StageInput, now: int, expiresAt: int, target: string)
    requires IsStaged(Some(row), id, input, now, expiresAt)
    ensures Contends(Some(row), target) <==> target == input.target
    ensures forall s: Status :: s != Pending ==> !Contends(Some(row.(status := s)), target)
    ensures !Contends(None, target)
  {
  }

  class StagedLog {
    var log: seq<RawRecord>

    constructor ()
      ensures log == []
    {
      log := [];
    }

    /** The ids of the pending proposals on `target`. */
    method Contenders(target: string) returns (ids: seq<Id>)
      ensures Distinct(ids) && forall id: Id :: id in ids <==> Contends(RowOf(log, id), target)
    {
      var order, rows := Collapse(log);
      ids := [];
      for n := 0 to |order|
        invariant Distinct(ids)
        invariant forall id: Id :: id in ids <==> id in order[..n] && Contends(RowOf(log, id), target)
      {
        var row := rows[order[n]];
        assert order[..n + 1] == order[..n] + [order[n]];
        assert order[n] !in order[..n];
        if row.status.Pending? && row.content.target == target {
          ids := ids + [order[n]];
        }
      }
      assert order[..|order|] == order;
    }

    /** Stages a proposal, naming every proposal already pending on its target. */
    method StageActionWithConflictCheck(input: StageInput, now: int, appendFails: bool, tensionFails: bool)
      returns (result: Result<StageOutcome, Failure>)
      modifies this
      ensures result.Err? <==> !IsValidInput(input) || appendFails
      ensures result.Err? ==> log == old(log) && result.error == if !IsValidInput(input) then InvalidInput else LogUnwritable
      ensures result.Ok? ==>
        && result.value.id !in Ids(old(log)) && result.value.expiresAt == now + input.ttlDays * DAY
        && IsStaged(RowOf(log, result.value.id), result.value.id, input, now, result.value.expiresAt)
        && (forall id: Id :: id != result.value.id ==> RowOf(log, id) == RowOf(old(log), id))
        && Distinct(result.value.conflictsWith)
        && (forall id: Id :: id in result.value.conflictsWith <==> Contends(RowOf(old(log), id), input.target))
        && (result.value.tension.NoTension? <==> result.value.conflictsWith == [])
        && (result.value.tension.TensionFailed? <==> tensionFails && result.value.conflictsWith != [])
      ensures old(log) <= log
      ensures old(Orderly(log)) ==> Orderly(log)
    {
      if !IsValidInput(input) {
        return Err(InvalidInput);
      }
      var conflicts := Contenders(input.target);
      var id := SequentialIds.AllocateId(PREFIX, Ids(log));
      if appendFails {
        return Err(LogUnwritable);
      }
      var rec := Proposal(id, ContentOf(input, now), Some(Pending));
      forall other: Id ensures RowOf(log + [rec], other) == if other == id then Apply(RowOf(log, id), rec) else RowOf(log, other) {
        RowStep(log, rec, other);
      }
      if Orderly(log) {
        OrderlyStep(log, rec);
      }
      StagedRow(log, id, input, now);
      log := log + [rec];
      var tension := if conflicts == [] then NoTension else if tensionFails then TensionFailed else TensionLogged;
      return Ok(StageOutcome(id, now + input.ttlDays * DAY, conflicts, tension));
    }

    /** Appends a decision; the row returned is the one the log now collapses to. */
    method RecordDecision(id: Id, status: Status, ratification: Ratification, appendFails: bool)
      returns (result: Result<Row, Failure>)
      modifies this
      ensures result.Err? ==> log == old(log)
      ensures RowOf(old(log), id).None? ==> result == Err(NotFound)
      ensures RowOf(old(log), id).Some? && appendFails ==> result == Err(LogUnwritable)
      ensures RowOf(old(log), id).Some? && !appendFails ==> result.Ok?
      ensures result.Ok? ==>
        && RowOf(log, id) == Some(result.value)
        && result.value.status == status && result.value.ratification == ratification
        && result.value.content == RowOf(old(log), id).value.content
        && (forall other: Id :: other != id ==> RowOf(log, other) == RowOf(old(log), other))
        && |log| == |old(log)| + 1
      ensures old(log) <= log
      ensures old(Orderly(log)) ==> Orderly(log)
    {
      var order, rows := Collapse(log);
      if id !in rows {
        return Err(NotFound);
      }
      if appendFails {
        return Err(LogUnwritable);
      }
      var rec := Decision(id, Some(status), ratification);
      forall other: Id ensures RowOf(log + [rec], other) == if other == id then Apply(RowOf(log, id), rec) else RowOf(log, other) {
        RowStep(log, rec, other);
      }
      if Orderly(log) {
        OrderlyStep(log, rec);
      }
      log := log + [rec];
      return Ok(rows[id].(status := status, ratification := ratification));
    }

    /** Expires every pending action past its expiry, one decision each, soonest-expired first. `appends`
        bounds how many appends succeed before the log becomes unwritable. */
    method SweepExpiredActions(now: int, appends: nat) returns (result: Result<seq<Id>, Failure>, ghost due: seq<Row>)
      modifies this
      ensures IsSweepList(old(log), now, due)
      ensures result == if appends < |due| then Err(LogUnwritable) else Ok(IdsOfRows(due))
      ensures log == old(log) + Expiries(IdsOfRows(due)[..if appends < |due| then appends else |due|], now)
      ensures old(Orderly(log)) ==> Orderly(log)
    {
      var stale := StaleRows(log, now);
      due := stale;
      ghost var before := log;
      var expired: seq<Id> := [];
      for n := 0 to |stale|
        invariant n <= appends && expired == IdsOfRows(stale)[..n]
        invariant log == before + Expiries(IdsOfRows(stale)[..n], now)
        invariant Orderly(before) ==> Orderly(log)
      {
        if n == appends {
          return Err(LogUnwritable), due;
        }
        assert Expiries(IdsOfRows(stale)[..n + 1], now) == Expiries(IdsOfRows(stale)[..n], now) + [Expiry(stale[n].id, now)];
        if Orderly(before) {
          ExpiriesTouchTheirRows(before, IdsOfRows(stale)[..n], now, stale[n].id);
          assert stale[n] in stale;
          OrderlyStep(log, Expiry(stale[n].id, now));
        }
        log := log + [Expiry(stale[n].id, now)];
        expired := expired + [stale[n].id];
      }
      assert IdsOfRows(stale)[..|stale|] == IdsOfRows(stale);
      return Ok(expired), due;
    }

    /** Current rows, all or those with one status. */
    method ListStagedActions(status: Option<Status>) returns (listed: seq<Row>)
      ensures forall i, j :: 0 <= i < j < |listed| ==> listed[i].id != listed[j].id
      ensures forall r :: r in listed <==> RowOf(log, r.id) == Some(r) && (status.Some? ==> r.status == status.value)
    {
      var order, rows := Collapse(log);
      listed := [];
      for n := 0 to |order|
        invariant forall i, j :: 0 <= i < j < |listed| ==> listed[i].id != listed[j].id
        invariant forall r :: r in listed <==>
                    r.id in order[..n] && rows[r.id] == r && (status.Some? ==> r.status == status.value)
      {
        RowKeepsId(log, order[n]);
        assert order[..n + 1] == order[..n] + [order[n]];
        assert order[n] !in order[..n];
        var row := rows[order[n]];
        if status.None? || row.status == status.value {
          listed := listed + [row];
        }
      }
      assert order[..|order|] == order;
    }
  }

  /** What a sweep does: the rows it takes are the pending ones past their expiry, soonest first, and each ends as
      expired, at the time of the sweep and by the sweeper. */
  lemma SweepMeans(log: seq<RawRecord>, now: int, due: seq<Row>, id: Id)
    requires IsSweepList(log, now, due)
    ensures
      var row := RowOf(log, id);
      (exists r :: r in due && r.id == id) <==>
        && row.Some? && row.value.status.Pending?
        && row.value.content.expiresAt.Some? && row.value.content.expiresAt.value < now
    ensures forall i, j :: 0 <= i < j < |due| ==>
      && due[i].content.expiresAt.Some? && due[j].content.expiresAt.Some?
      && due[i].content.expiresAt.value <= due[j].content.expiresAt.value
    ensures forall r :: r in due ==>
      RowOf(log + Expiries(IdsOfRows(due), now), r.id) ==
      Some(r.(status := Expired, ratification := Ratification(Some(now), Some(SWEEP_PRINCIPAL), None, None)))
  {
    if id in IdsOfRows(due) {
      var k :| 0 <= k < |due| && due[k].id == id;
      assert due[k] in due;
    }
    forall r | r in due ensures r.id in IdsOfRows(due) {
      var k :| 0 <= k < |due| && due[k] == r;
      assert IdsOfRows(due)[k] == r.id;
    }
    forall i, j | 0 <= i < j < |due| ensures SoonestFirst(due[i], due[j]) && due[i] in due && due[j] in due {
    }
    forall r | r in due
      ensures RowOf(log + Expiries(IdsOfRows(due), now), r.id) == Some(AfterExpiry(r, now))
    {
      ExpiriesTouchTheirRows(log, IdsOfRows(due), now, r.id);
    }
  }

  /** After a full sweep nothing pending is past expiry, every row that was not is untouched, and sweeping
      again then, or at any earlier time, finds nothing. */
  lemma SweepSettles(log: seq<RawRecord>, now: int, due: seq<Row>, later: seq<Row>, again: int)
    requires IsSweepList(log, now, due) && again <= now
    requires IsSweepList(log + Expiries(IdsOfRows(due), now), again, later)
    ensures forall id: Id :: !IsStale(RowOf(log + Expiries(IdsOfRows(due), now), id), now)
    ensures forall id: Id :: !IsStale(RowOf(log, id), now) ==> RowOf(log + Expiries(IdsOfRows(due), now), id) == RowOf(log, id)
    ensures later == []
  {
    var after := log + Expiries(IdsOfRows(due), now);
    forall id: Id
      ensures !IsStale(RowOf(after, id), now)
      ensures !IsStale(RowOf(log, id), now) ==> RowOf(after, id) == RowOf(log, id)
    {
      ExpiriesTouchTheirRows(log, IdsOfRows(due), now, id);
      if id in IdsOfRows(due) {
        var k :| 0 <= k < |due| && due[k].id == id;
        assert due[k] in due;
      }
    }
    if later != [] {
      assert later[0] in later;
    }
  }

  /** A sweep cut short by a failing append is finished by the next one: what is left is just the rest. */
  lemma InterruptedSweepResumes(log: seq<RawRecord>, now: int, due: seq<Row>, done: nat, rest: seq<Row>)
    requires IsSweepList(log, now, due) && done <= |due|
    requires IsSweepList(log + Expiries(IdsOfRows(due)[..done], now), now, rest)
    ensures forall id: Id :: id in IdsOfRows(rest) <==> id in IdsOfRows(due)[done..]
  {
    var first := IdsOfRows(due)[..done];
    var after := log + Expiries(first, now);
    forall id: Id ensures IsStale(RowOf(after, id), now) <==> id in IdsOfRows(due)[done..] {
      StaleAfterPart(log, now, due, done, id);
    }
    forall id: Id ensures id in IdsOfRows(rest) <==> IsStale(RowOf(after, id), now) {
      SweepListHolds(after, now, rest, id);
    }
  }

  lemma SweepListHolds(log: seq<RawRecord>, now: int, rows: seq<Row>, id: Id)
    requires IsSweepList(log, now, rows)
    ensures id in IdsOfRows(rows) <==> IsStale(RowOf(log, id), now)
  {
    if id in IdsOfRows(rows) {
      var k :| 0 <= k < |rows| && rows[k].id == id;
      assert rows[k] in rows;
    }
  }

  lemma StaleAfterPart(log: seq<RawRecord>, now: int, due: seq<Row>, done: nat, id: Id)
    requires IsSweepList(log, now, due) && done <= |due|
    ensures IsStale(RowOf(log + Expiries(IdsOfRows(due)[..done], now), id), now) <==> id in IdsOfRows(due)[done..]
  {
    var ids := IdsOfRows(due);
    ExpiriesTouchTheirRows(log, ids[..done], now, id);
    SweepListHolds(log, now, due, id);
    OnOneSide(ids, done, id);
  }

  lemma OnOneSide(ids: seq<Id>, done: nat, id: Id)
    requires Distinct(ids) && done <= |ids|
    ensures id in ids <==> id in ids[..done] || id in ids[done..]
    ensures !(id in ids[..done] && id in ids[done..])
  {
    assert ids == ids[..done] + ids[done..];
  }
}

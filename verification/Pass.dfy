/** Everything one consolidation pass does to the vault, in order, beside the session that gates it. */
module Pass {
  import opened Base
  import opened Envelope
  import opened Admit
  import opened EdgeLog

  datatype Event =
    | Asked(decision: Decision)
    | AskFailed(request: Request)
    | Wrote(record: Record, landed: bool)
    | LoggedTension(sideA: Path, sideB: Path, landed: bool)
    | LoggedLineage(path: Path, landed: bool)

  function RequestFor(rec: Record): Request {
    Request(if rec.Observe? then EdgeObserve else EdgeContest, rec.from, rec.to)
  }

  /** The decision in force: the latest answer of the gate. A gate that failed to answer leaves none. */
  ghost function InForce(events: seq<Event>): Option<Decision> {
    if events == [] then None
    else
      match events[|events| - 1]
      case Asked(d) => Some(d)
      case AskFailed(_) => None
      case _ => InForce(events[..|events| - 1])
  }

  ghost predicate Admits(d: Option<Decision>, r: Request) {
    d.Some? && d.value.verdict.admit && d.value.request == r
  }

  /** `e` may follow `before`: an edge write needs an admission of that very action on that very pair in
      force, a direction tension an admitted observation of the pair, a lineage entry an edge write from
      that document. */
  ghost predicate MayFollow(before: seq<Event>, e: Event) {
    match e
    case Wrote(rec, _) => Admits(InForce(before), RequestFor(rec))
    case LoggedTension(a, b, _) =>
      Admits(InForce(before), Request(EdgeObserve, a, b)) || Admits(InForce(before), Request(EdgeObserve, b, a))
    case LoggedLineage(p, _) => exists x :: x in before && x.Wrote? && x.landed && x.record.from == p
    case _ => true
  }

  ghost predicate Covered(events: seq<Event>) {
    forall i :: 0 <= i < |events| ==> MayFollow(events[..i], events[i])
  }

  function DecisionsOf(events: seq<Event>): seq<Decision> {
    if events == [] then []
    else
      var front, last := DecisionsOf(events[..|events| - 1]), events[|events| - 1];
      if last.Asked? then front + [last.decision] else front
  }

  /** The edge records that reached the log, in order. */
  function LandedRecords(events: seq<Event>): seq<Record> {
    if events == [] then []
    else
      var front, last := LandedRecords(events[..|events| - 1]), events[|events| - 1];
      if last.Wrote? && last.landed then front + [last.record] else front
  }

  /** How many of the records are observations, or else contests. */
  function CountKind(recs: seq<Record>, observing: bool): nat {
    if recs == [] then 0
    else CountKind(recs[..|recs| - 1], observing) + if recs[|recs| - 1].Observe? == observing then 1 else 0
  }

  lemma {:induction false} CountKindAppend(a: seq<Record>, b: seq<Record>, observing: bool)
    ensures CountKind(a + b, observing) == CountKind(a, observing) + CountKind(b, observing)
  {
    if b == [] {
      assert a + b == a;
    } else {
      CountKindAppend(a, b[..|b| - 1], observing);
      assert (a + b)[..|a + b| - 1] == a + b[..|b| - 1];
    }
  }

  lemma {:induction false} CountOneKind(recs: seq<Record>, observing: bool)
    requires forall r :: r in recs ==> r.Observe? == observing
    ensures CountKind(recs, observing) == |recs| && CountKind(recs, !observing) == 0
  {
    if recs != [] {
      CountOneKind(recs[..|recs| - 1], observing);
    }
  }

  /** Questions the gate refused, or failed to answer. */
  function Refusals(events: seq<Event>): nat {
    if events == [] then 0
    else
      var last := events[|events| - 1];
      Refusals(events[..|events| - 1]) + if last.AskFailed? || (last.Asked? && !last.decision.verdict.admit) then 1 else 0
  }

  /** Admitted writes that did not reach the log. */
  function LostWrites(events: seq<Event>): nat {
    if events == [] then 0
    else
      var last := events[|events| - 1];
      LostWrites(events[..|events| - 1]) + if last.Wrote? && !last.landed then 1 else 0
  }

  lemma {:induction false} CountsAppend(a: seq<Event>, b: seq<Event>)
    ensures Refusals(a + b) == Refusals(a) + Refusals(b) && LostWrites(a + b) == LostWrites(a) + LostWrites(b)
  {
    if b == [] {
      assert a + b == a;
    } else {
      CountsAppend(a, b[..|b| - 1]);
      assert (a + b)[..|a + b| - 1] == a + b[..|b| - 1];
    }
  }

  lemma CoveredStep(events: seq<Event>, e: Event)
    requires Covered(events) && MayFollow(events, e)
    ensures Covered(events + [e])
  {
    var all := events + [e];
    forall i | 0 <= i < |all| ensures MayFollow(all[..i], all[i]) {
      assert all[..i] == if i < |events| then events[..i] else events;
    }
  }

  lemma {:induction false} LandedRecordsAppend(a: seq<Event>, b: seq<Event>)
    ensures LandedRecords(a + b) == LandedRecords(a) + LandedRecords(b)
  {
    if b == [] {
      assert a + b == a;
    } else {
      LandedRecordsAppend(a, b[..|b| - 1]);
      assert (a + b)[..|a + b| - 1] == a + b[..|b| - 1];
    }
  }

  lemma {:induction false} InForceWasAsked(events: seq<Event>)
    requires InForce(events).Some?
    ensures InForce(events).value in DecisionsOf(events)
  {
    var last := events[|events| - 1];
    if !last.Asked? {
      InForceWasAsked(events[..|events| - 1]);
    }
  }

  lemma {:induction false} DecisionsOfPrefix(events: seq<Event>, i: nat)
    requires i <= |events|
    ensures forall d :: d in DecisionsOf(events[..i]) ==> d in DecisionsOf(events)
  {
    if i < |events| {
      var front := events[..|events| - 1];
      DecisionsOfPrefix(front, i);
      assert front[..i] == events[..i];
    } else {
      assert events[..i] == events;
    }
  }

  class ConsolidationPass {
    const session: Session
    var events: seq<Event>

    ghost predicate Valid()
      reads this, session
    {
      && session.Valid()
      && DecisionsOf(events) == session.decisions
      && Covered(events)
    }

    constructor (session: Session)
      requires session.Valid() && session.decisions == []
      ensures Valid() && this.session == session && events == []
    {
      this.session := session;
      events := [];
    }

    /** Asks the gate. A gate that throws counts as a refusal. */
    method Consult(r: Request, throws: bool, journalWritable: bool) returns (verdict: Verdict)
      requires Valid()
      modifies this, session
      ensures Valid()
      ensures throws ==> !verdict.admit && verdict.gate == Some(InvariantsGate)
      ensures events == old(events) + [if throws then AskFailed(r) else Asked(Decision(r, verdict))]
      ensures session.spent == old(session.spent) + if throws then 0.0 else Charge(verdict)
    {
      if throws {
        verdict := Verdict(false, Some(InvariantsGate), None, 0.0);
        CoveredStep(events, AskFailed(r));
        events := events + [AskFailed(r)];
      } else {
        ghost var blast;
        verdict, blast := session.Admit(r, journalWritable);
        CoveredStep(events, Asked(Decision(r, verdict)));
        events := events + [Asked(Decision(r, verdict))];
      }
      assert events[..|events| - 1] == old(events);
    }

    method Perform(e: Event)
      requires Valid() && !e.Asked? && MayFollow(events, e)
      modifies this
      ensures Valid() && events == old(events) + [e]
    {
      CoveredStep(events, e);
      events := events + [e];
      assert events[..|events| - 1] == old(events);
    }

    /** Over the whole pass: every edge written joins two documents that are loaded, valid, fresh and out of
        every tension open when the session began, and all admissions together cost no more than the budget. */
    lemma WritesAreEligibleAndPaid(i: nat)
      requires Valid() && i < |events| && events[i].Wrote?
      ensures session.Eligible(events[i].record.from) && session.Eligible(events[i].record.to)
      ensures SpendOf(DecisionsOf(events)) == session.spent <= session.budget
      ensures
        var rec := events[i].record;
        exists d :: d in session.decisions && d.verdict.admit
                    && d.request == Request(if rec.Observe? then EdgeObserve else EdgeContest, rec.from, rec.to)
    {
      assert MayFollow(events[..i], events[i]);
      InForceWasAsked(events[..i]);
      DecisionsOfPrefix(events, i);
    }
  }
}

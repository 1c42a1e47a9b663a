/** A consolidation session: the births of its queue, then its revision panels, behind one gate. */
module SessionRun {
  import opened Base
  import opened EdgeLog
  import opened Admit
  import opened Pass
  import Birth
  import Revision
  import Envelope

  datatype BirthJob = BirthJob(doc: Path, retrieved: Option<seq<Path>>, scripts: seq<Birth.Script>)

  datatype PanelJob = PanelJob(from: Path, to: Path, script: Revision.Script)

  datatype Totals = Totals(observed: nat, contested: nat, gated: nat, llmCalls: nat)

  /** The totals tell what the pass did: every observation and every contest that reached the edge log, and
      every refusal. */
  ghost predicate Reports(t: Totals, did: seq<Event>) {
    && t.observed == CountKind(LandedRecords(did), true)
    && t.contested == CountKind(LandedRecords(did), false)
    && t.gated == Refusals(did)
  }

  predicate IsBirthJob(j: BirthJob) {
    j.retrieved.Some? ==> |j.scripts| == |Birth.Others(j.retrieved.value, j.doc)|
  }

  predicate IsPanelJob(j: PanelJob) {
    |j.script.ballots| == Revision.TEMPLATES == |j.script.lands|
  }

  lemma ReportsAppend(t: Totals, did: seq<Event>, one: Totals, more: seq<Event>)
    requires Reports(t, did) && Reports(one, more)
    ensures Reports(Sum(t, one), did + more)
  {
    LandedRecordsAppend(did, more);
    CountKindAppend(LandedRecords(did), LandedRecords(more), true);
    CountKindAppend(LandedRecords(did), LandedRecords(more), false);
    CountsAppend(did, more);
  }

  /** One birth, reported. A birth whose neighbours could not be retrieved reports nothing. */
  method RunBirth(job: BirthJob, budget: int, at: int, who: Birth.Observer, pass: ConsolidationPass)
    returns (totals: Totals, ghost did: seq<Event>)
    requires pass.Valid() && IsBirthJob(job)
    modifies pass, pass.session
    ensures pass.Valid() && pass.events == old(pass.events) + did
    ensures Reports(totals, did) && totals.contested == 0
  {
    var out;
    ghost var verdicts;
    out, verdicts, did := Birth.BirthOne(job.doc, job.retrieved, job.scripts, budget, at, who, pass);
    if out.Some? {
      CountOneKind(LandedRecords(did), true);
    }
    totals := if out.None? then Totals(0, 0, 0, 0)
              else Totals(|out.value.observations|, 0, out.value.gatedCount, out.value.llmCalls);
  }

  /** One panel, reported. A panel whose documents could not be loaded reports nothing. */
  method RunPanel(job: PanelJob, panelSize: int, budget: int, at: int, agent: string, pass: ConsolidationPass)
    returns (totals: Totals, ghost did: seq<Event>)
    requires pass.Valid() && IsPanelJob(job)
    modifies pass, pass.session
    ensures pass.Valid() && pass.events == old(pass.events) + did
    ensures Reports(totals, did)
  {
    var out;
    ghost var verdict;
    out, verdict, did := Revision.RevisionPanel(job.from, job.to, panelSize, budget, at, agent, job.script, pass);
    totals := if out.None? then Totals(0, 0, 0, 0)
              else Totals(out.value.observedCount, out.value.contestedCount, if out.value.decision.Gated? then 1 else 0,
                          out.value.llmCalls);
  }

  function Sum(a: Totals, b: Totals): Totals {
    Totals(a.observed + b.observed, a.contested + b.contested, a.gated + b.gated, a.llmCalls + b.llmCalls)
  }

  method RunBirths(jobs: seq<BirthJob>, budget: int, at: int, who: Birth.Observer, pass: ConsolidationPass)
    returns (totals: Totals, ghost did: seq<Event>)
    requires pass.Valid() && forall j :: j in jobs ==> IsBirthJob(j)
    modifies pass, pass.session
    ensures pass.Valid() && pass.events == old(pass.events) + did
    ensures Reports(totals, did) && totals.contested == 0
  {
    totals, did := Totals(0, 0, 0, 0), [];
    for n := 0 to |jobs|
      invariant pass.Valid() && pass.events == old(pass.events) + did
      invariant Reports(totals, did) && totals.contested == 0
    {
      assert jobs[n] in jobs;
      ghost var more;
      var one;
      one, more := RunBirth(jobs[n], budget, at, who, pass);
      ReportsAppend(totals, did, one, more);
      Birth.AppendAssociates(old(pass.events), did, more);
      totals, did := Sum(totals, one), did + more;
    }
  }

  method RunPanels(jobs: seq<PanelJob>, panelSize: int, budget: int, at: int, agent: string, pass: ConsolidationPass)
    returns (totals: Totals, ghost did: seq<Event>)
    requires pass.Valid() && forall j :: j in jobs ==> IsPanelJob(j)
    modifies pass, pass.session
    ensures pass.Valid() && pass.events == old(pass.events) + did
    ensures Reports(totals, did)
  {
    totals, did := Totals(0, 0, 0, 0), [];
    for n := 0 to |jobs|
      invariant pass.Valid() && pass.events == old(pass.events) + did
      invariant Reports(totals, did)
    {
      assert jobs[n] in jobs;
      ghost var more;
      var one;
      one, more := RunPanel(jobs[n], panelSize, budget, at, agent, pass);
      ReportsAppend(totals, did, one, more);
      Birth.AppendAssociates(old(pass.events), did, more);
      totals, did := Sum(totals, one), did + more;
    }
  }

  /** A whole session from an empty record: its report is the truth about the edge log and the gate, every
      write joins two eligible documents, and all that was admitted together stays within the budget. */
  method RunSession(births: seq<BirthJob>, panels: seq<PanelJob>, panelSize: int, budget: int, at: int,
                    who: Birth.Observer, pass: ConsolidationPass)
    returns (totals: Totals)
    requires pass.Valid() && pass.events == []
    requires (forall j :: j in births ==> IsBirthJob(j)) && (forall j :: j in panels ==> IsPanelJob(j))
    modifies pass, pass.session
    ensures pass.Valid() && Reports(totals, pass.events)
    ensures forall i :: 0 <= i < |pass.events| && pass.events[i].Wrote? ==>
              pass.session.Eligible(pass.events[i].record.from) && pass.session.Eligible(pass.events[i].record.to)
    ensures SpendOf(DecisionsOf(pass.events)) <= pass.session.budget
  {
    var b, p;
    ghost var didBirths, didPanels;
    b, didBirths := RunBirths(births, budget, at, who, pass);
    p, didPanels := RunPanels(panels, panelSize, budget, at, who.agent, pass);
    totals := Sum(b, p);
    ReportsAppend(b, didBirths, p, didPanels);
    assert pass.events == didBirths + didPanels;
    forall i | 0 <= i < |pass.events| && pass.events[i].Wrote?
      ensures pass.session.Eligible(pass.events[i].record.from) && pass.session.Eligible(pass.events[i].record.to)
    {
      pass.WritesAreEligibleAndPaid(i);
    }
  }
}

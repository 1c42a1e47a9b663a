/** Revision mode: a panel of votes on a due edge, one decision, and what it earns or revokes. */
module Revision {
  import opened Base
  import opened EdgeTypes
  import opened Envelope
  import opened Admit
  import opened EdgeLog
  import opened Pass
  import SequentialIds

  /** What one panel call came to. */
  datatype Ballot = CallFailed | Unreadable | Survives | Fails(reason: string)

  const TEMPLATES: nat := 3

  /** Everything the outside world decides during one panel. `lands` says which edge writes reach the log. */
  datatype Script = Script(loadsFrom: bool, loadsTo: bool, ballots: seq<Ballot>, gateThrows: bool, journalWritable: bool,
                           lands: seq<bool>, lineageLands: bool)

  datatype Ruling = NoVote | Tie | Contesting | Surviving

  datatype Decision = Ruled(ruling: Ruling) | Gated(gate: Option<Gate>)

  datatype Outcome = Outcome(votes: seq<Ballot>, decision: Decision, observedCount: nat, contestedCount: nat,
                             writeErrors: nat, llmCalls: nat)

  /** Templates polled: at least one, at most all of them. */
  function PanelWidth(panelSize: int): (k: nat)
    ensures 1 <= k <= TEMPLATES
  {
    if panelSize < 1 then 1 else if panelSize > TEMPLATES then TEMPLATES else panelSize
  }

  function Survivals(votes: seq<Ballot>): (n: nat)
    ensures n <= |votes|
  {
    if votes == [] then 0 else Survivals(votes[..|votes| - 1]) + if votes[|votes| - 1].Survives? then 1 else 0
  }

  function Failures(votes: seq<Ballot>): (n: nat)
    ensures n + Survivals(votes) <= |votes|
  {
    if votes == [] then 0 else Failures(votes[..|votes| - 1]) + if votes[|votes| - 1].Fails? then 1 else 0
  }

  function FirstFailure(votes: seq<Ballot>): string {
    if votes == [] then "re-derivation failed"
    else if Failures(votes[..|votes| - 1]) > 0 || !votes[|votes| - 1].Fails? then FirstFailure(votes[..|votes| - 1])
    else votes[|votes| - 1].reason
  }

  function Rule(survives: nat, fails: nat): Ruling {
    if survives == 0 && fails == 0 then NoVote
    else if fails > survives then Contesting
    else if survives > fails then Surviving
    else Tie
  }

  function StoreAxis(i: nat): Axis {
    if i % 3 == 0 then Prompt else if i % 3 == 1 then InputNeighborhood else Axis.Model
  }

  /** The observation the `i`th surviving vote makes. */
  function PanelRecord(from: Path, to: Path, at: int, agent: string, i: nat): Record {
    Observe(from, to, at, agent, true, Some(StoreAxis(i)), None, "")
  }

  function ContestRecord(from: Path, to: Path, at: int, votes: seq<Ballot>): Record {
    Contest(from, to, at, Some("revision panel (" + SequentialIds.Decimal(Failures(votes)) + "/" +
                               SequentialIds.Decimal(Survivals(votes) + Failures(votes)) + " fail): " + FirstFailure(votes)))
  }

  // ----- what a panel decides does not depend on the order of its votes

  lemma {:induction false} CountsAreMultiplicities(a: seq<Ballot>, b: seq<Ballot>)
    requires multiset(Kinds(a)) == multiset(Kinds(b))
    ensures Survivals(a) == Survivals(b) && Failures(a) == Failures(b)
  {
    TallyByKind(a);
    TallyByKind(b);
  }

  datatype Kind = Lost | Yes | No

  function KindOf(b: Ballot): Kind {
    match b
    case Survives => Yes
    case Fails(_) => No
    case _ => Lost
  }

  function Kinds(votes: seq<Ballot>): (ks: seq<Kind>)
    ensures |ks| == |votes| && forall i :: 0 <= i < |votes| ==> ks[i] == KindOf(votes[i])
  {
    seq(|votes|, i requires 0 <= i < |votes| => KindOf(votes[i]))
  }

  lemma {:induction false} TallyByKind(votes: seq<Ballot>)
    ensures Survivals(votes) == multiset(Kinds(votes))[Yes] && Failures(votes) == multiset(Kinds(votes))[No]
  {
    if votes != [] {
      var m := |votes| - 1;
      TallyByKind(votes[..m]);
      assert Kinds(votes) == Kinds(votes[..m]) + [KindOf(votes[m])];
    }
  }

  /** The ruling depends only on how many vote each way: no order of the votes, and no single dissent in a
      panel that otherwise survives, can revoke an edge. */
  lemma RulingIgnoresOrder(a: seq<Ballot>, b: seq<Ballot>)
    requires multiset(Kinds(a)) == multiset(Kinds(b))
    ensures Rule(Survivals(a), Failures(a)) == Rule(Survivals(b), Failures(b))
    ensures Rule(Survivals(a), Failures(a)).Contesting? <==> 2 * Failures(a) > Survivals(a) + Failures(a)
    ensures Failures(a) <= 1 <= Survivals(a) ==> !Rule(Survivals(a), Failures(a)).Contesting?
  {
    CountsAreMultiplicities(a, b);
  }

  // ----- what a panel does

  ghost function PanelWrites(from: Path, to: Path, at: int, agent: string, lands: seq<bool>, n: nat): (w: seq<Event>)
    requires n <= |lands|
    ensures |w| == n && forall i :: 0 <= i < n ==> w[i] == Wrote(PanelRecord(from, to, at, agent, i), lands[i])
  {
    seq(n, i requires 0 <= i < n => Wrote(PanelRecord(from, to, at, agent, i), lands[i]))
  }

  function Landed(lands: seq<bool>, n: nat): (k: nat)
    requires n <= |lands|
    ensures k <= n
  {
    if n == 0 then 0 else Landed(lands, n - 1) + if lands[n - 1] then 1 else 0
  }

  /** The action a ruling calls for, if any. */
  function ActionFor(r: Ruling): Option<ActionType> {
    match r
    case Surviving => Some(EdgeObserve)
    case Contesting => Some(EdgeContest)
    case _ => None
  }

  ghost function RulingWrites(from: Path, to: Path, at: int, agent: string, votes: seq<Ballot>, lands: seq<bool>): seq<Event>
    requires |votes| <= TEMPLATES == |lands|
  {
    match Rule(Survivals(votes), Failures(votes))
    case Contesting => [Wrote(ContestRecord(from, to, at, votes), lands[0])]
    case Surviving => PanelWrites(from, to, at, agent, lands, Survivals(votes))
    case _ => []
  }

  function WritesLanded(votes: seq<Ballot>, lands: seq<bool>): (n: nat)
    requires |votes| <= TEMPLATES == |lands|
  {
    match Rule(Survivals(votes), Failures(votes))
    case Contesting => Landed(lands, 1)
    case Surviving => Landed(lands, Survivals(votes))
    case _ => 0
  }

  /** One panel's whole effect, given the gate's verdict: nothing without a majority; one question to the
      gate; then, only if admitted, one contest or one observation a surviving vote; and one lineage entry
      exactly when some write landed. */
  ghost function PanelEvents(from: Path, to: Path, at: int, agent: string, votes: seq<Ballot>, sc: Script,
                             v: Envelope.Verdict): seq<Event>
    requires |votes| <= TEMPLATES == |sc.lands|
  {
    var action := ActionFor(Rule(Survivals(votes), Failures(votes)));
    if action.None? then []
    else
      AskedFirst(Request(action.value, from, to), sc.gateThrows, v, RulingWrites(from, to, at, agent, votes, sc.lands),
                 LineageAfter(from, votes, sc))
  }

  /** One question, and the writes and the lineage entry only after a yes. */
  ghost function AskedFirst(r: Request, gateThrows: bool, v: Envelope.Verdict, writes: seq<Event>, lineage: seq<Event>): seq<Event> {
    if gateThrows then [AskFailed(r)]
    else if !v.admit then [Asked(Admit.Decision(r, v))]
    else [Asked(Admit.Decision(r, v))] + writes + lineage
  }

  lemma TallyStep(votes: seq<Ballot>, b: Ballot)
    ensures Survivals(votes + [b]) == Survivals(votes) + (if b.Survives? then 1 else 0)
    ensures Failures(votes + [b]) == Failures(votes) + (if b.Fails? then 1 else 0)
    ensures FirstFailure(votes + [b]) == if Failures(votes) == 0 && b.Fails? then b.reason else FirstFailure(votes)
  {
    assert (votes + [b])[..|votes|] == votes;
  }

  /** How many of `width` templates a budget pays for. */
  function Polled(width: nat, budgetRemaining: int): nat {
    if budgetRemaining < 0 then 0 else if budgetRemaining < width then budgetRemaining else width
  }

  datatype Tally = Tally(votes: seq<Ballot>, surviving: nat, failing: nat, firstFailure: string)

  ghost predicate IsTally(t: Tally) {
    t.surviving == Survivals(t.votes) && t.failing == Failures(t.votes) && t.firstFailure == FirstFailure(t.votes)
  }

  method Count(t: Tally, ballot: Ballot) returns (t': Tally)
    requires IsTally(t)
    ensures IsTally(t') && t'.votes == t.votes + [ballot]
  {
    TallyStep(t.votes, ballot);
    t' := t.(votes := t.votes + [ballot]);
    if ballot.Survives? {
      t' := t'.(surviving := t.surviving + 1);
    } else if ballot.Fails? {
      if t.failing == 0 {
        t' := t'.(firstFailure := ballot.reason);
      }
      t' := t'.(failing := t.failing + 1);
    }
  }

  /** Polls the templates in turn while the budget lasts. */
  method Elicit(width: nat, budgetRemaining: int, ballots: seq<Ballot>) returns (t: Tally)
    requires width <= |ballots|
    ensures IsTally(t) && t.votes == ballots[..Polled(width, budgetRemaining)]
  {
    t := Tally([], 0, 0, "re-derivation failed");
    for i := 0 to width
      invariant IsTally(t) && t.votes == ballots[..i]
      invariant i > 0 ==> i <= budgetRemaining
    {
      if |t.votes| >= budgetRemaining {
        break;
      }
      t := Count(t, ballots[i]);
    }
  }

  lemma WriteKeepsForce(before: seq<Event>, rec: Record, lands: bool)
    ensures InForce(before + [Wrote(rec, lands)]) == InForce(before)
  {
    assert (before + [Wrote(rec, lands)])[..|before|] == before;
  }

  lemma OneMoreWrite(start: seq<Event>, from: Path, to: Path, at: int, agent: string, lands: seq<bool>, i: nat)
    requires i < |lands|
    ensures start + PanelWrites(from, to, at, agent, lands, i + 1) ==
            (start + PanelWrites(from, to, at, agent, lands, i)) + [Wrote(PanelRecord(from, to, at, agent, i), lands[i])]
  {
  }

  /** Writes one observation for each of the first `n` surviving votes. */
  method ObserveAll(from: Path, to: Path, at: int, agent: string, lands: seq<bool>, n: nat, pass: ConsolidationPass)
    returns (observed: nat)
    requires pass.Valid() && n <= |lands| && Admits(InForce(pass.events), Request(EdgeObserve, from, to))
    modifies pass
    ensures pass.Valid() && observed == Landed(lands, n)
    ensures pass.events == old(pass.events) + PanelWrites(from, to, at, agent, lands, n)
  {
    observed := 0;
    for i := 0 to n
      invariant pass.Valid() && observed == Landed(lands, i)
      invariant pass.events == old(pass.events) + PanelWrites(from, to, at, agent, lands, i)
      invariant Admits(InForce(pass.events), Request(EdgeObserve, from, to))
    {
      ghost var before := pass.events;
      pass.Perform(Wrote(PanelRecord(from, to, at, agent, i), lands[i]));
      WriteKeepsForce(before, PanelRecord(from, to, at, agent, i), lands[i]);
      OneMoreWrite(old(pass.events), from, to, at, agent, lands, i);
      if lands[i] {
        observed := observed + 1;
      }
    }
  }

  /** A write that landed for `from` lets the lineage entry follow. */
  lemma LineageMayFollow(events: seq<Event>, i: nat, from: Path)
    requires i < |events| && events[i].Wrote? && events[i].landed && events[i].record.from == from
    ensures forall lands :: MayFollow(events, LoggedLineage(from, lands))
  {
    assert events[i] in events;
  }

  lemma {:induction false} SomeLanded(lands: seq<bool>, n: nat)
    requires n <= |lands| && Landed(lands, n) > 0
    ensures exists i :: 0 <= i < n && lands[i]
  {
    if !lands[n - 1] {
      SomeLanded(lands, n - 1);
    }
  }

  /** One write of the contested edge, or all the observations, once the gate has let the ruling through. */
  method WriteRuling(from: Path, to: Path, at: int, agent: string, t: Tally, sc: Script, pass: ConsolidationPass)
    returns (observed: nat, contested: nat)
    requires pass.Valid() && IsTally(t) && |t.votes| <= TEMPLATES == |sc.lands|
    requires ActionFor(Rule(t.surviving, t.failing)).Some?
    requires Admits(InForce(pass.events), Request(ActionFor(Rule(t.surviving, t.failing)).value, from, to))
    modifies pass
    ensures pass.Valid()
    ensures pass.events == old(pass.events) + RulingWrites(from, to, at, agent, t.votes, sc.lands)
    ensures observed + contested == WritesLanded(t.votes, sc.lands)
    ensures if Rule(t.surviving, t.failing).Surviving? then contested == 0 else observed == 0
    ensures observed + contested > 0 ==> forall lands :: MayFollow(pass.events, LoggedLineage(from, lands))
  {
    observed, contested := 0, 0;
    if t.failing > t.surviving {
      pass.Perform(Wrote(ContestRecord(from, to, at, t.votes), sc.lands[0]));
      assert Landed(sc.lands, 1) == Landed(sc.lands, 0) + if sc.lands[0] then 1 else 0;
      if sc.lands[0] {
        contested := 1;
        LineageMayFollow(pass.events, |pass.events| - 1, from);
      }
    } else {
      observed := ObserveAll(from, to, at, agent, sc.lands, t.surviving, pass);
      if observed > 0 {
        SomeLanded(sc.lands, t.surviving);
        var i :| 0 <= i < t.surviving && sc.lands[i];
        assert pass.events[|old(pass.events)| + i] == PanelWrites(from, to, at, agent, sc.lands, t.surviving)[i];
        LineageMayFollow(pass.events, |old(pass.events)| + i, from);
      }
    }
  }

  lemma AppendsAssociate<T>(before: seq<T>, ask: seq<T>, writes: seq<T>, lineage: seq<T>)
    ensures ((before + ask) + writes) + lineage == before + ((ask + writes) + lineage)
  {
  }

  /** The lineage entry due when some write landed. */
  ghost function LineageAfter(from: Path, votes: seq<Ballot>, sc: Script): seq<Event>
    requires |votes| <= TEMPLATES == |sc.lands|
  {
    if WritesLanded(votes, sc.lands) > 0 then [LoggedLineage(from, sc.lineageLands)] else []
  }

  /** The writes of an admitted ruling, then its lineage entry; every write that is lost is counted. */
  method WriteAdmitted(from: Path, to: Path, at: int, agent: string, t: Tally, sc: Script, pass: ConsolidationPass)
    returns (observed: nat, contested: nat, writeErrors: nat)
    requires pass.Valid() && IsTally(t) && |t.votes| <= TEMPLATES == |sc.lands|
    requires ActionFor(Rule(t.surviving, t.failing)).Some?
    requires Admits(InForce(pass.events), Request(ActionFor(Rule(t.surviving, t.failing)).value, from, to))
    modifies pass
    ensures pass.Valid()
    ensures pass.events == old(pass.events) + RulingWrites(from, to, at, agent, t.votes, sc.lands) + LineageAfter(from, t.votes, sc)
    ensures
      var landed := WritesLanded(t.votes, sc.lands);
      && observed == (if Rule(t.surviving, t.failing).Surviving? then landed else 0)
      && contested == (if Rule(t.surviving, t.failing).Contesting? then landed else 0)
      && writeErrors == (if Rule(t.surviving, t.failing).Surviving? then t.surviving else 1) - landed
                        + (if landed > 0 && !sc.lineageLands then 1 else 0)
  {
    observed, contested := WriteRuling(from, to, at, agent, t, sc, pass);
    writeErrors := (if Rule(t.surviving, t.failing).Surviving? then t.surviving else 1) - (observed + contested);
    if observed + contested > 0 {
      pass.Perform(LoggedLineage(from, sc.lineageLands));
      writeErrors := writeErrors + if sc.lineageLands then 0 else 1;
    }
  }

  /** Asks the gate once about a ruling, and writes it if admitted. */
  method ApplyRuling(from: Path, to: Path, at: int, agent: string, t: Tally, sc: Script, pass: ConsolidationPass)
    returns (decision: Decision, observed: nat, contested: nat, writeErrors: nat, verdict: Envelope.Verdict)
    requires pass.Valid() && IsTally(t) && |t.votes| <= TEMPLATES == |sc.lands|
    modifies pass, pass.session
    ensures pass.Valid()
    ensures pass.events == old(pass.events) + PanelEvents(from, to, at, agent, t.votes, sc, verdict)
    ensures
      var ruling := Rule(t.surviving, t.failing);
      var admitted := ActionFor(ruling).Some? && !sc.gateThrows && verdict.admit;
      && decision == (if ActionFor(ruling).Some? && !admitted then Gated(verdict.gate) else Ruled(ruling))
      && observed == (if admitted && ruling.Surviving? then WritesLanded(t.votes, sc.lands) else 0)
      && contested == (if admitted && ruling.Contesting? then WritesLanded(t.votes, sc.lands) else 0)
      && writeErrors == (if !admitted then 0
                         else (if ruling.Surviving? then t.surviving else 1) - WritesLanded(t.votes, sc.lands)
                              + (if WritesLanded(t.votes, sc.lands) > 0 && !sc.lineageLands then 1 else 0))
  {
    verdict := Envelope.Verdict(false, None, None, 0.0);
    observed, contested, writeErrors := 0, 0, 0;
    var ruling := Rule(t.surviving, t.failing);
    decision := Ruled(ruling);
    var action := ActionFor(ruling);
    if action.None? {
      return;
    }
    verdict := pass.Consult(Request(action.value, from, to), sc.gateThrows, sc.journalWritable);
    if !verdict.admit {
      decision := Gated(verdict.gate);
      return;
    }
    AppendsAssociate(old(pass.events), [Asked(Admit.Decision(Request(action.value, from, to), verdict))],
                     RulingWrites(from, to, at, agent, t.votes, sc.lands), LineageAfter(from, t.votes, sc));
    observed, contested, writeErrors := WriteAdmitted(from, to, at, agent, t, sc, pass);
  }

  lemma {:induction false} PanelWritesLanded(from: Path, to: Path, at: int, agent: string, lands: seq<bool>, n: nat)
    requires n <= |lands|
    ensures |LandedRecords(PanelWrites(from, to, at, agent, lands, n))| == Landed(lands, n)
    ensures forall r :: r in LandedRecords(PanelWrites(from, to, at, agent, lands, n)) ==> r.Observe?
    ensures Refusals(PanelWrites(from, to, at, agent, lands, n)) == 0
  {
    if n > 0 {
      var w := PanelWrites(from, to, at, agent, lands, n);
      PanelWritesLanded(from, to, at, agent, lands, n - 1);
      assert w[..|w| - 1] == PanelWrites(from, to, at, agent, lands, n - 1);
    }
  }

  lemma RulingWritesLanded(from: Path, to: Path, at: int, agent: string, votes: seq<Ballot>, lands: seq<bool>)
    requires |votes| <= TEMPLATES == |lands|
    ensures |LandedRecords(RulingWrites(from, to, at, agent, votes, lands))| == WritesLanded(votes, lands)
    ensures forall r :: r in LandedRecords(RulingWrites(from, to, at, agent, votes, lands)) ==>
              r.Observe? == Rule(Survivals(votes), Failures(votes)).Surviving?
    ensures Refusals(RulingWrites(from, to, at, agent, votes, lands)) == 0
  {
    match Rule(Survivals(votes), Failures(votes))
    case Contesting =>
      var e := Wrote(ContestRecord(from, to, at, votes), lands[0]);
      assert [e][..|[e]| - 1] == [];
      assert Landed(lands, 1) == Landed(lands, 0) + if lands[0] then 1 else 0;
    case Surviving => PanelWritesLanded(from, to, at, agent, lands, Survivals(votes));
    case _ =>
  }

  lemma SurroundedCounts(ask: Event, writes: seq<Event>, lineage: seq<Event>)
    requires !ask.Wrote? && |lineage| <= 1 && (lineage != [] ==> lineage[0].LoggedLineage?)
    ensures LandedRecords([ask] + writes + lineage) == LandedRecords(writes)
    ensures Refusals([ask] + writes + lineage) == Refusals([ask]) + Refusals(writes)
  {
    LandedRecordsAppend([ask] + writes, lineage);
    LandedRecordsAppend([ask], writes);
    CountsAppend([ask] + writes, lineage);
    CountsAppend([ask], writes);
    assert [ask][..0] == [];
    assert lineage != [] ==> lineage[..|lineage| - 1] == [];
  }

  /** A panel's books balance: what it counts as written is what reached the log, and it asks the gate at
      most once. */
  lemma PanelBalances(from: Path, to: Path, at: int, agent: string, votes: seq<Ballot>, sc: Script, v: Envelope.Verdict)
    requires |votes| <= TEMPLATES == |sc.lands|
    ensures
      var did := PanelEvents(from, to, at, agent, votes, sc, v);
      var action := ActionFor(Rule(Survivals(votes), Failures(votes)));
      var admitted := action.Some? && !sc.gateThrows && v.admit;
      && |LandedRecords(did)| == (if admitted then WritesLanded(votes, sc.lands) else 0)
      && (forall r :: r in LandedRecords(did) ==> r.Observe? == Rule(Survivals(votes), Failures(votes)).Surviving?)
      && Refusals(did) == (if action.Some? && !admitted then 1 else 0)
  {
    var action := ActionFor(Rule(Survivals(votes), Failures(votes)));
    if action.Some? {
      var r := Request(action.value, from, to);
      if sc.gateThrows {
        assert [AskFailed(r)][..0] == [];
      } else {
        var ask := Asked(Admit.Decision(r, v));
        assert [ask][..0] == [];
        RulingWritesLanded(from, to, at, agent, votes, sc.lands);
        SurroundedCounts(ask, RulingWrites(from, to, at, agent, votes, sc.lands), LineageAfter(from, votes, sc));
      }
    }
  }

  /** A whole panel on one edge. */
  method RevisionPanel(from: Path, to: Path, panelSize: int, budgetRemaining: int, at: int, agent: string, sc: Script,
                       pass: ConsolidationPass)
    returns (result: Option<Outcome>, ghost verdict: Envelope.Verdict, ghost did: seq<Event>)
    requires pass.Valid() && TEMPLATES == |sc.ballots| == |sc.lands|
    modifies pass, pass.session
    ensures pass.Valid() && pass.events == old(pass.events) + did
    ensures if !sc.loadsFrom || !sc.loadsTo then result.None? && did == []
            else result.Some? && IsPanel(from, to, panelSize, budgetRemaining, at, agent, sc, verdict, did, result.value)
  {
    verdict, did := Envelope.Verdict(false, None, None, 0.0), [];
    if !sc.loadsFrom || !sc.loadsTo {
      return None, verdict, did;
    }
    var t := Elicit(PanelWidth(panelSize), budgetRemaining, sc.ballots);
    var decision, observed, contested, writeErrors, v := ApplyRuling(from, to, at, agent, t, sc, pass);
    verdict, did := v, PanelEvents(from, to, at, agent, t.votes, sc, v);
    PanelBalances(from, to, at, agent, t.votes, sc, v);
    CountOneKind(LandedRecords(did), Rule(t.surviving, t.failing).Surviving?);
    result := Some(Outcome(t.votes, decision, observed, contested, writeErrors, |t.votes|));
  }

  /** What a panel reports: the votes the budget paid for, the ruling of their majority unless it was gated,
      and as many observations or contests as reached the log. */
  ghost predicate IsPanel(from: Path, to: Path, panelSize: int, budgetRemaining: int, at: int, agent: string, sc: Script,
                          v: Envelope.Verdict, did: seq<Event>, o: Outcome)
    requires TEMPLATES == |sc.ballots| == |sc.lands|
  {
    var votes := sc.ballots[..Polled(PanelWidth(panelSize), budgetRemaining)];
    && o.votes == votes && o.llmCalls == |votes|
    && did == PanelEvents(from, to, at, agent, votes, sc, v)
    && Refusals(did) == (if o.decision.Gated? then 1 else 0)
    && (o.decision.Ruled? ==> o.decision.ruling == Rule(Survivals(votes), Failures(votes)))
    && o.observedCount == CountKind(LandedRecords(did), true)
    && o.contestedCount == CountKind(LandedRecords(did), false)
    && (o.observedCount > 0 ==> o.decision == Ruled(Surviving))
    && (o.contestedCount > 0 ==> o.decision == Ruled(Contesting) && o.contestedCount == 1)
  }

  // ----- what a panel does, told from its votes

  ghost function VotesFor(votes: seq<Ballot>): set<nat> {
    set i: nat | i < |votes| && votes[i].Survives?
  }

  ghost function VotesAgainst(votes: seq<Ballot>): set<nat> {
    set i: nat | i < |votes| && votes[i].Fails?
  }

  lemma {:induction false} TallyIsCardinality(votes: seq<Ballot>)
    ensures Survivals(votes) == |VotesFor(votes)| && Failures(votes) == |VotesAgainst(votes)|
  {
    if votes != [] {
      TallyIsCardinality(votes[..|votes| - 1]);
      OneVoteMore(votes[..|votes| - 1], votes[|votes| - 1]);
      assert votes == votes[..|votes| - 1] + [votes[|votes| - 1]];
    }
  }

  lemma OneVoteMore(votes: seq<Ballot>, b: Ballot)
    ensures VotesFor(votes + [b]) == if b.Survives? then VotesFor(votes) + {|votes|} else VotesFor(votes)
    ensures VotesAgainst(votes + [b]) == if b.Fails? then VotesAgainst(votes) + {|votes|} else VotesAgainst(votes)
    ensures |votes| !in VotesFor(votes) && |votes| !in VotesAgainst(votes)
  {
  }

  predicate IsQuestion(e: Event) {
    e.Asked? || e.AskFailed?
  }

  /** `e` asks the gate for `action` on the panel's edge. */
  predicate AsksFor(e: Event, action: ActionType, from: Path, to: Path) {
    e == AskFailed(Request(action, from, to)) || (e.Asked? && e.decision.request == Request(action, from, to))
  }

  /** As many votes are polled as there are templates, the panel is wide and the budget pays for, but one if the
      panel is narrower than that. */
  lemma PollsAsPaidFor(panelSize: int, budgetRemaining: int)
    ensures
      var n := Polled(PanelWidth(panelSize), budgetRemaining);
      && n <= 3 && (n <= budgetRemaining || n == 0) && (n <= panelSize || n <= 1)
      && (n == 3 || n == budgetRemaining || n == panelSize || (n == 1 && panelSize < 1) || (n == 0 && budgetRemaining < 0))
  {
  }

  /** As many votes for as against, or none: the panel asks nothing and writes nothing. Otherwise it asks once, to
      observe exactly when the votes that survive are more and to contest exactly when those that fail are; nothing
      else comes before its answer, nothing is written unless it is yes, and what is written is of the kind asked. */
  lemma PanelFollowsMajority(from: Path, to: Path, panelSize: int, budgetRemaining: int, at: int, agent: string, sc: Script,
                             v: Envelope.Verdict, did: seq<Event>, o: Outcome)
    requires TEMPLATES == |sc.ballots| == |sc.lands|
    requires IsPanel(from, to, panelSize, budgetRemaining, at, agent, sc, v, did, o)
    ensures
      var (yes, no) := (|VotesFor(o.votes)|, |VotesAgainst(o.votes)|);
      && (yes == no ==> did == [] && o.observedCount == 0 == o.contestedCount && !o.decision.Gated?)
      && (yes != no ==>
            && did != [] && AsksFor(did[0], if yes > no then EdgeObserve else EdgeContest, from, to)
            && (forall i :: 0 < i < |did| ==> !IsQuestion(did[i])))
      && (forall e :: e in did && e.Wrote? ==>
            && !sc.gateThrows && v.admit && (e.record.Observe? ==> yes > no) && (e.record.Contest? ==> no > yes))
      && (o.observedCount > 0 ==> yes > no) && (o.contestedCount > 0 ==> no > yes)
      && (did != [] ==> (o.decision.Gated? <==> sc.gateThrows || !v.admit))
  {
    TallyIsCardinality(o.votes);
    PanelAsksOnce(from, to, at, agent, o.votes, sc, v);
    PanelBalances(from, to, at, agent, o.votes, sc, v);
  }

  lemma PanelAsksOnce(from: Path, to: Path, at: int, agent: string, votes: seq<Ballot>, sc: Script, v: Envelope.Verdict)
    requires |votes| <= TEMPLATES == |sc.lands|
    ensures
      var (yes, no, did) := (Survivals(votes), Failures(votes), PanelEvents(from, to, at, agent, votes, sc, v));
      && (yes == no ==> did == [])
      && (yes != no ==>
            && did != [] && AsksFor(did[0], if yes > no then EdgeObserve else EdgeContest, from, to)
            && (forall i :: 0 < i < |did| ==> !IsQuestion(did[i])))
      && (forall e :: e in did && e.Wrote? ==>
            && !sc.gateThrows && v.admit && (e.record.Observe? ==> yes > no) && (e.record.Contest? ==> no > yes))
  {
    var action := ActionFor(Rule(Survivals(votes), Failures(votes)));
    if action.Some? {
      RulingWritesOnly(from, to, at, agent, votes, sc.lands);
      AsksOnce(action.value, from, to, sc.gateThrows, v, RulingWrites(from, to, at, agent, votes, sc.lands),
               LineageAfter(from, votes, sc));
    }
  }

  lemma AsksOnce(action: ActionType, from: Path, to: Path, gateThrows: bool, v: Envelope.Verdict, writes: seq<Event>,
                 lineage: seq<Event>)
    requires (forall e :: e in writes ==> e.Wrote?) && (forall e :: e in lineage ==> e.LoggedLineage?)
    ensures
      var did := AskedFirst(Request(action, from, to), gateThrows, v, writes, lineage);
      && did != [] && AsksFor(did[0], action, from, to)
      && (forall i :: 0 < i < |did| ==> !IsQuestion(did[i]))
      && (forall e :: e in did && e.Wrote? ==> !gateThrows && v.admit && e in writes)
  {
    var did := AskedFirst(Request(action, from, to), gateThrows, v, writes, lineage);
    if !gateThrows && v.admit {
      forall i | 0 < i < |did| ensures did[i] in writes || did[i] in lineage {
        assert did[i] == (writes + lineage)[i - 1];
      }
    }
  }

  lemma RulingWritesOnly(from: Path, to: Path, at: int, agent: string, votes: seq<Ballot>, lands: seq<bool>)
    requires |votes| <= TEMPLATES == |lands|
    ensures forall e :: e in RulingWrites(from, to, at, agent, votes, lands) ==>
      && e.Wrote?
      && (e.record.Observe? ==> Survivals(votes) > Failures(votes))
      && (e.record.Contest? ==> Failures(votes) > Survivals(votes))
  {
  }

  ghost predicate LogsLineage(did: seq<Event>) {
    exists e :: e in did && e.LoggedLineage?
  }

  /** A panel logs its lineage, once and last, exactly when some of its writes landed. */
  lemma LineageFollowsWrites(from: Path, to: Path, at: int, agent: string, votes: seq<Ballot>, sc: Script, v: Envelope.Verdict)
    requires |votes| <= TEMPLATES == |sc.lands|
    ensures
      var did := PanelEvents(from, to, at, agent, votes, sc, v);
      && (LogsLineage(did) <==> LandedRecords(did) != [])
      && (LogsLineage(did) ==> did[|did| - 1] == LoggedLineage(from, sc.lineageLands))
      && (forall i :: 0 <= i < |did| - 1 ==> !did[i].LoggedLineage?)
  {
    PanelBalances(from, to, at, agent, votes, sc, v);
    var action := ActionFor(Rule(Survivals(votes), Failures(votes)));
    if action.Some? {
      RulingWritesOnly(from, to, at, agent, votes, sc.lands);
      LineageIsLast(Request(action.value, from, to), sc.gateThrows, v, RulingWrites(from, to, at, agent, votes, sc.lands),
                    LineageAfter(from, votes, sc));
    }
  }

  lemma LineageIsLast(r: Request, gateThrows: bool, v: Envelope.Verdict, writes: seq<Event>, lineage: seq<Event>)
    requires (forall e :: e in writes ==> e.Wrote?) && |lineage| <= 1 && (lineage != [] ==> lineage[0].LoggedLineage?)
    ensures
      var did := AskedFirst(r, gateThrows, v, writes, lineage);
      && (LogsLineage(did) <==> !gateThrows && v.admit && lineage != [])
      && (LogsLineage(did) ==> did[|did| - 1] == lineage[0])
      && (forall i :: 0 <= i < |did| - 1 ==> !did[i].LoggedLineage?)
  {
    var did := AskedFirst(r, gateThrows, v, writes, lineage);
    if !gateThrows && v.admit {
      forall i | 0 < i < |did| ensures if i <= |writes| then did[i] in writes else did[i] == lineage[0] {
        assert did[i] == (writes + lineage)[i - 1];
      }
      if lineage != [] {
        assert did[|did| - 1] in did;
      }
    }
  }

  /** A contest gives the reason of the first vote that failed. */
  lemma {:induction false} FirstFailureMeans(votes: seq<Ballot>, i: nat)
    requires i < |votes| && votes[i].Fails? && forall j :: 0 <= j < i ==> !votes[j].Fails?
    ensures FirstFailure(votes) == votes[i].reason
  {
    var front := votes[..|votes| - 1];
    TallyIsCardinality(front);
    if i < |front| {
      FirstFailureMeans(front, i);
      assert front[i] == votes[i];
      assert i in VotesAgainst(front);
    } else {
      assert VotesAgainst(front) == {};
    }
  }

  /** A panel's observations attest for its agent, blind, each on an axis of its own. */
  lemma PanelAttests(from: Path, to: Path, at: int, agent: string, i: nat, j: nat)
    requires i < j < TEMPLATES
    ensures
      var (x, y) := (PanelRecord(from, to, at, agent, i), PanelRecord(from, to, at, agent, j));
      && x.blind && y.blind && x.observer == agent == y.observer && x.at == at == y.at
      && x.axis.Some? && y.axis.Some? && x.axis != y.axis && x.vote.None? && y.vote.None?
  {
  }

  // ----- what an admitted panel is worth on the edge log

  /** The records a panel of `n` surviving votes adds to the log, when all of them land. */
  function PanelRecords(from: Path, to: Path, at: int, agent: string, n: nat): (r: seq<Record>)
    ensures |r| == n
  {
    seq(n, i requires 0 <= i < n => PanelRecord(from, to, at, agent, i))
  }

  /** Whether the `i`th vote of a panel counts on an edge in state `s`: its attestation is new, or it opens
      the panel a full replay gap after the last counted sighting. */
  predicate Counts(s: EdgeState, agent: string, at: int, i: nat) {
    Attestation(agent, StoreAxis(i), "") !in s.voted || (i == 0 && at - s.lastRederived >= REPLAY_GAP)
  }

  function Earned(s: EdgeState, agent: string, at: int, n: nat): (k: nat)
    ensures k <= n
  {
    if n == 0 then 0 else Earned(s, agent, at, n - 1) + if Counts(s, agent, at, n - 1) then 1 else 0
  }

  /** Where an edge stands after `n` votes of one panel: what is counted so far, and what may still count. */
  ghost predicate AfterVotes(s: EdgeState, s': EdgeState, agent: string, at: int, n: nat) {
    && !s'.revoked
    && s'.kSurvived == MinCap(s.kSurvived + Earned(s, agent, at, n))
    && (Earned(s, agent, at, n) == 0 ==> s'.lastRederived == s.lastRederived)
    && (Earned(s, agent, at, n) > 0 ==> s'.lastRederived == at)
    && (forall i: nat :: n <= i < TEMPLATES ==>
          (Attestation(agent, StoreAxis(i), "") in s'.voted <==> Attestation(agent, StoreAxis(i), "") in s.voted))
  }

  lemma OneMoreVote(s: EdgeState, s': EdgeState, from: Path, to: Path, agent: string, at: int, n: nat)
    requires agent != "" && n < TEMPLATES && s.kSurvived <= K_CAP
    requires AfterVotes(s, s', agent, at, n)
    requires n > 0 && at - s.lastRederived >= REPLAY_GAP ==> Earned(s, agent, at, n) > 0
    ensures AfterVotes(s, Sighted(s', PanelRecord(from, to, at, agent, n)), agent, at, n + 1)
    ensures at - s.lastRederived >= REPLAY_GAP ==> Earned(s, agent, at, n + 1) > 0
  {
    var rec := PanelRecord(from, to, at, agent, n);
    assert Attested(rec) == Some(Attestation(agent, StoreAxis(n), ""));
  }

  ghost function AfterPanel(s: EdgeState, from: Path, to: Path, at: int, agent: string, n: nat): EdgeState {
    if n == 0 then s else Sighted(AfterPanel(s, from, to, at, agent, n - 1), PanelRecord(from, to, at, agent, n - 1))
  }

  lemma {:induction false} PanelOnState(s: EdgeState, from: Path, to: Path, at: int, agent: string, n: nat)
    requires agent != "" && n <= TEMPLATES && !s.revoked && s.kSurvived <= K_CAP
    ensures AfterVotes(s, AfterPanel(s, from, to, at, agent, n), agent, at, n)
    ensures n > 0 && at - s.lastRederived >= REPLAY_GAP ==> Earned(s, agent, at, n) > 0
  {
    if n > 0 {
      PanelOnState(s, from, to, at, agent, n - 1);
      OneMoreVote(s, AfterPanel(s, from, to, at, agent, n - 1), from, to, agent, at, n - 1);
    }
  }

  lemma SightingReplays(records: seq<Record>, rec: Record)
    requires rec.Observe? && Replay(records).Some? && !Replay(records).value.revoked
    ensures Replay(records + [rec]) == Some(Sighted(Replay(records).value, rec))
  {
    assert (records + [rec])[..|records|] == records;
  }

  lemma {:induction false} PanelReplays(records: seq<Record>, from: Path, to: Path, at: int, agent: string, n: nat)
    requires Replay(records).Some? && !Replay(records).value.revoked
    ensures Replay(records + PanelRecords(from, to, at, agent, n)) ==
            Some(AfterPanel(Replay(records).value, from, to, at, agent, n))
    ensures !AfterPanel(Replay(records).value, from, to, at, agent, n).revoked
  {
    var after := records + PanelRecords(from, to, at, agent, n);
    if n == 0 {
      assert after == records;
    } else {
      PanelReplays(records, from, to, at, agent, n - 1);
      var before := records + PanelRecords(from, to, at, agent, n - 1);
      assert after == before + [PanelRecord(from, to, at, agent, n - 1)];
      SightingReplays(before, PanelRecord(from, to, at, agent, n - 1));
    }
  }

  lemma {:induction false} PanelIsOfPair(from: Path, to: Path, at: int, agent: string, n: nat)
    ensures ForPair(PanelRecords(from, to, at, agent, n), CanonPair(from, to)) == PanelRecords(from, to, at, agent, n)
  {
    var r := PanelRecords(from, to, at, agent, n);
    if n > 0 {
      PanelIsOfPair(from, to, at, agent, n - 1);
      assert r[..n - 1] == PanelRecords(from, to, at, agent, n - 1);
      assert PairOf(r[n - 1]) == CanonPair(from, to);
    }
  }

  lemma PanelOnRecords(mine: seq<Record>, from: Path, to: Path, at: int, agent: string, n: nat)
    requires agent != "" && n <= TEMPLATES && Replay(mine).Some? && !Replay(mine).value.revoked
    ensures
      var after := Replay(mine + PanelRecords(from, to, at, agent, n));
      && after.Some? && !after.value.revoked
      && after.value.kSurvived == MinCap(Replay(mine).value.kSurvived + Earned(Replay(mine).value, agent, at, n))
  {
    CountStaysCapped(mine);
    PanelReplays(mine, from, to, at, agent, n);
    PanelOnState(Replay(mine).value, from, to, at, agent, n);
  }

  /** The exact worth of an admitted panel: on a live edge, `n` surviving votes written at one moment raise
      the count by the number of new attestations among them, plus one if the panel opens with a repeated
      attestation a full replay gap after the last counted sighting; never past the cap. */
  lemma PanelEarns(log: seq<Record>, mine: seq<Record>, from: Path, to: Path, at: int, agent: string, n: nat)
    requires mine == ForPair(log, CanonPair(from, to))
    requires agent != "" && n <= TEMPLATES && Replay(mine).Some? && !Replay(mine).value.revoked
    ensures
      var after := Replay(ForPair(log + PanelRecords(from, to, at, agent, n), CanonPair(from, to)));
      && after.Some? && !after.value.revoked
      && after.value.kSurvived == MinCap(Replay(mine).value.kSurvived + Earned(Replay(mine).value, agent, at, n))
  {
    ForPairAppend(log, PanelRecords(from, to, at, agent, n), CanonPair(from, to));
    PanelIsOfPair(from, to, at, agent, n);
    PanelOnRecords(mine, from, to, at, agent, n);
  }

  /** An admitted surviving panel whose writes all land adds just those records to the edge log. */
  lemma PanelLands(from: Path, to: Path, at: int, agent: string, votes: seq<Ballot>, sc: Script, v: Envelope.Verdict)
    requires |votes| <= TEMPLATES == |sc.lands| && !sc.gateThrows && v.admit
    requires Rule(Survivals(votes), Failures(votes)).Surviving? && forall b :: b in sc.lands ==> b
    ensures LandedRecords(PanelEvents(from, to, at, agent, votes, sc, v)) ==
            PanelRecords(from, to, at, agent, Survivals(votes))
  {
    SurroundedCounts(Asked(Admit.Decision(Request(EdgeObserve, from, to), v)),
                     PanelWrites(from, to, at, agent, sc.lands, Survivals(votes)), LineageAfter(from, votes, sc));
    WritesLandInOrder(from, to, at, agent, sc.lands, Survivals(votes));
  }

  lemma {:induction false} WritesLandInOrder(from: Path, to: Path, at: int, agent: string, lands: seq<bool>, n: nat)
    requires n <= |lands| && forall b :: b in lands ==> b
    ensures LandedRecords(PanelWrites(from, to, at, agent, lands, n)) == PanelRecords(from, to, at, agent, n)
  {
    if n > 0 {
      var w := PanelWrites(from, to, at, agent, lands, n);
      WritesLandInOrder(from, to, at, agent, lands, n - 1);
      assert w[..|w| - 1] == PanelWrites(from, to, at, agent, lands, n - 1);
      assert lands[n - 1] in lands;
    }
  }

  ghost predicate AllCount(s: EdgeState, agent: string, at: int, n: nat) {
    forall i: nat :: i < n ==> Counts(s, agent, at, i)
  }

  lemma {:induction false} EarnedInFull(s: EdgeState, agent: string, at: int, n: nat)
    ensures Earned(s, agent, at, n) == n <==> AllCount(s, agent, at, n)
  {
    if n > 0 {
      EarnedInFull(s, agent, at, n - 1);
    }
  }

  /** A panel of `n` surviving votes raises the count of a live edge by `n` exactly when the cap leaves room and
      each vote is either new to the edge or the opening vote after a full gap. */
  lemma AllVotesCount(mine: seq<Record>, from: Path, to: Path, at: int, agent: string, n: nat)
    requires agent != "" && n <= TEMPLATES && Replay(mine).Some? && !Replay(mine).value.revoked
    ensures
      var s, after := Replay(mine).value, Replay(mine + PanelRecords(from, to, at, agent, n));
      && after.Some?
      && (after.value.kSurvived == s.kSurvived + n <==> s.kSurvived + n <= K_CAP && AllCount(s, agent, at, n))
  {
    CountStaysCapped(mine);
    PanelOnRecords(mine, from, to, at, agent, n);
    EarnedInFull(Replay(mine).value, agent, at, n);
  }

  /** Each of the first `n` store axes has had this agent's vote. */
  ghost predicate VotedOn(s: EdgeState, agent: string, n: nat) {
    forall i: nat :: i < n ==> Attestation(agent, StoreAxis(i), "") in s.voted
  }

  lemma {:induction false} PanelLeavesVotes(s: EdgeState, from: Path, to: Path, at: int, agent: string, n: nat)
    requires agent != ""
    ensures VotedOn(AfterPanel(s, from, to, at, agent, n), agent, n)
  {
    if n > 0 {
      PanelLeavesVotes(s, from, to, at, agent, n - 1);
      assert Attested(PanelRecord(from, to, at, agent, n - 1)) == Some(Attestation(agent, StoreAxis(n - 1), ""));
    }
  }

  lemma {:induction false} VotesStay(records: seq<Record>, more: seq<Record>)
    requires Replay(records).Some? && !Replay(records).value.revoked && forall r :: r in more ==> r.Observe?
    ensures
      var after := Replay(records + more);
      after.Some? && !after.value.revoked && Replay(records).value.voted <= after.value.voted
  {
    if more == [] {
      assert records + more == records;
    } else {
      var front, last := more[..|more| - 1], more[|more| - 1];
      VotesStay(records, front);
      assert records + more == (records + front) + [last] && last in more;
      SightingReplays(records + front, last);
    }
  }

  lemma {:induction false} RepeatedVotesEarn(s: EdgeState, agent: string, at: int, m: nat)
    requires VotedOn(s, agent, m)
    ensures Earned(s, agent, at, m) == if m > 0 && at - s.lastRederived >= REPLAY_GAP then 1 else 0
  {
    if m > 0 {
      RepeatedVotesEarn(s, agent, at, m - 1);
    }
  }

  lemma RepeatedPanelEarns(records: seq<Record>, from: Path, to: Path, agent: string, at: int, m: nat)
    requires agent != "" && 0 < m <= TEMPLATES && Replay(records).Some? && !Replay(records).value.revoked
    requires VotedOn(Replay(records).value, agent, m)
    ensures
      var (s, after) := (Replay(records).value, Replay(records + PanelRecords(from, to, at, agent, m)));
      after.Some? && after.value.kSurvived == MinCap(s.kSurvived + if at - s.lastRederived >= REPLAY_GAP then 1 else 0)
  {
    RepeatedVotesEarn(Replay(records).value, agent, at, m);
    PanelOnRecords(records, from, to, at, agent, m);
  }

  lemma PanelThenMore(mine: seq<Record>, between: seq<Record>, from: Path, to: Path, agent: string, at: int, n: nat, m: nat)
    requires agent != "" && m <= n
    requires Replay(mine).Some? && !Replay(mine).value.revoked && forall r :: r in between ==> r.Observe?
    ensures
      var st := Replay(mine + PanelRecords(from, to, at, agent, n) + between);
      st.Some? && !st.value.revoked && VotedOn(st.value, agent, m)
  {
    var panel := mine + PanelRecords(from, to, at, agent, n);
    PanelReplays(mine, from, to, at, agent, n);
    PanelLeavesVotes(Replay(mine).value, from, to, at, agent, n);
    VotesStay(panel, between);
    MoreVotedOn(Replay(panel).value, Replay(panel + between).value, agent, n, m);
  }

  lemma MoreVotedOn(s: EdgeState, s': EdgeState, agent: string, n: nat, m: nat)
    requires VotedOn(s, agent, n) && s.voted <= s'.voted && m <= n
    ensures VotedOn(s', agent, m)
  {
  }

  /** The same agent's next panel on a live edge, no wider than its last, earns one survival if a full gap has
      passed since the last counted sighting and none otherwise, whatever sightings came in between: its
      opening vote restarts the gap for the rest. */
  lemma SecondPanelEarnsAtMostOne(mine: seq<Record>, between: seq<Record>, from: Path, to: Path, agent: string,
                                  at: int, n: nat, at2: int, m: nat)
    requires agent != "" && 0 < m <= n <= TEMPLATES
    requires Replay(mine).Some? && !Replay(mine).value.revoked && forall r :: r in between ==> r.Observe?
    ensures
      var first := Replay(mine + PanelRecords(from, to, at, agent, n) + between);
      var second := Replay(mine + PanelRecords(from, to, at, agent, n) + between + PanelRecords(from, to, at2, agent, m));
      && first.Some? && second.Some?
      && second.value.kSurvived ==
           MinCap(first.value.kSurvived + if at2 - first.value.lastRederived >= REPLAY_GAP then 1 else 0)
  {
    PanelThenMore(mine, between, from, to, agent, at, n, m);
    RepeatedPanelEarns(mine + PanelRecords(from, to, at, agent, n) + between, from, to, agent, at2, m);
  }
}

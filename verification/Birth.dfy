/** Birth mode: judging an unprocessed document against each neighbour, in both presentation orders. */
module Birth {
  import opened Base
  import opened Envelope
  import opened Admit
  import opened EdgeLog
  import opened Pass

  /** Which of the two presented documents carries the other. */
  datatype Premise = PremiseA | PremiseB | BothSides

  datatype Judgement = NotRelated | Related(premise: Premise)

  datatype Side = Doc | Neighbor

  datatype Direction = Unrelated | Directed(premise: Side) | Undirected(contested: bool)

  /** What a model call came to. */
  datatype Answer = CallFailed | Unreadable | Judged(judgement: Judgement)

  /** Everything the outside world decides while one neighbour is visited. */
  datatype Script = Script(loads: bool, order1: Answer, order2: Answer, gateThrows: bool, journalWritable: bool,
                           observeLands: bool, tensionLands: bool)

  datatype Row =
    | Verdict(neighbor: Path, direction: Direction, gated: bool, gate: Option<Gate>)
    | Failed(neighbor: Path, step: Step)

  datatype Step = Loading | Calling | Reading | Observing | Tensioning

  datatype Outcome = Outcome(rows: seq<Row>, observations: seq<(Path, Path)>, gatedCount: nat, llmCalls: nat)

  /** Who observes: the agent and model named in each record. */
  datatype Observer = Observer(agent: string, model: string)

  // ----- direction

  /** The premise named when A is the document being born. */
  function Premise1(p: Premise): Option<Side> {
    match p
    case PremiseA => Some(Doc)
    case PremiseB => Some(Neighbor)
    case BothSides => None
  }

  function Premise2(p: Premise): Option<Side> {
    match p
    case PremiseA => Some(Neighbor)
    case PremiseB => Some(Doc)
    case BothSides => None
  }

  function ReconcileDirection(order1: Judgement, order2: Judgement): Direction {
    if order1.NotRelated? || order2.NotRelated? then Unrelated
    else if order1.premise.BothSides? || order2.premise.BothSides? then Undirected(false)
    else if Premise1(order1.premise) == Premise2(order2.premise) then Directed(Premise1(order1.premise).value)
    else Undirected(true)
  }

  /** The edge asked for: from the dependent to its premise, or the two paths in order when undirected. */
  function EdgeFor(doc: Path, neighbor: Path, d: Direction): (Path, Path)
    requires !d.Unrelated?
  {
    match d
    case Directed(Doc) => (neighbor, doc)
    case Directed(Neighbor) => (doc, neighbor)
    case Undirected(_) => if doc <= neighbor then (doc, neighbor) else (neighbor, doc)
  }

  function VoteFor(d: Direction): PremiseVote
    requires !d.Unrelated?
  {
    if d.Directed? then VoteTo else VoteSymmetric
  }

  /** `p` is judged the premise of the pair when it is shown as A and when it is shown as B. */
  ghost predicate AgreedPremise(whenDocIsA: Judgement, whenDocIsB: Judgement, s: Side) {
    && whenDocIsA == Related(if s.Doc? then PremiseA else PremiseB)
    && whenDocIsB == Related(if s.Doc? then PremiseB else PremiseA)
  }

  /** A direction is trusted exactly when both orders name the same document; an edge is proposed exactly
      when neither order denies the relation; and which of the two documents is being born makes no
      difference to the edge, given the same answer to each of the two prompts. */
  lemma BothOrdersDecide(doc: Path, neighbor: Path, order1: Judgement, order2: Judgement)
    requires doc != neighbor
    ensures
      var d, mirrored := ReconcileDirection(order1, order2), ReconcileDirection(order2, order1);
      && (d.Unrelated? <==> order1.NotRelated? || order2.NotRelated?)
      && (forall s: Side :: d == Directed(s) <==> AgreedPremise(order1, order2, s))
      && (d == Undirected(true) <==>
            order1.Related? && order1 == order2 && !order1.premise.BothSides?)
      && (d.Unrelated? <==> mirrored.Unrelated?)
      && (!d.Unrelated? ==>
            EdgeFor(doc, neighbor, d) == EdgeFor(neighbor, doc, mirrored) && VoteFor(d) == VoteFor(mirrored))
  {
    forall s: Side ensures ReconcileDirection(order1, order2) == Directed(s) <==> AgreedPremise(order1, order2, s) {
      if order1.Related? && order2.Related? {
        assert order1 == Related(order1.premise) && order2 == Related(order2.premise);
      }
    }
  }

  // ----- what a visit amounts to

  /** The direction found, unless loading or either call failed. */
  function Found(sc: Script): Option<Direction> {
    if sc.loads && sc.order1.Judged? && sc.order2.Judged? then
      Some(ReconcileDirection(sc.order1.judgement, sc.order2.judgement))
    else None
  }

  /** Model calls spent: the second order is asked only after a readable first answer. */
  function CallsFor(sc: Script): (n: nat)
    ensures n <= 2
  {
    if !sc.loads then 0 else if sc.order1.Judged? then 2 else 1
  }

  function Calls(scripts: seq<Script>): (n: nat)
    ensures n <= 2 * |scripts|
  {
    if scripts == [] then 0 else Calls(scripts[..|scripts| - 1]) + CallsFor(scripts[|scripts| - 1])
  }

  predicate FindsEdge(sc: Script) {
    Found(sc).Some? && !Found(sc).value.Unrelated?
  }

  function RecordFor(doc: Path, neighbor: Path, d: Direction, at: int, who: Observer): (rec: Record)
    requires !d.Unrelated?
    ensures rec.Observe? && (rec.from, rec.to) == EdgeFor(doc, neighbor, d)
  {
    var (from, to) := EdgeFor(doc, neighbor, d);
    Observe(from, to, at, who.agent, true, Some(Prompt), Some(VoteFor(d)), who.model)
  }

  /** The gate, if it answered at all, said yes. */
  predicate GoesAhead(sc: Script, v: Envelope.Verdict) {
    !sc.gateThrows && v.admit
  }

  /** What is done about an edge found: one question to the gate; then, only if admitted, one observation;
      then, only if that landed on an edge whose direction is pending, one tension. */
  ghost function EdgeEvents(rec: Record, pending: bool, doc: Path, neighbor: Path, sc: Script, v: Envelope.Verdict): seq<Event> {
    if sc.gateThrows then [AskFailed(RequestFor(rec))]
    else if !v.admit then [Asked(Decision(RequestFor(rec), v))]
    else if sc.observeLands && pending then
      [Asked(Decision(RequestFor(rec), v)), Wrote(rec, true), LoggedTension(doc, neighbor, sc.tensionLands)]
    else [Asked(Decision(RequestFor(rec), v)), Wrote(rec, sc.observeLands)]
  }

  /** What visiting one neighbour does, given the gate's verdict. */
  ghost function VisitEvents(doc: Path, neighbor: Path, sc: Script, at: int, who: Observer, v: Envelope.Verdict): seq<Event> {
    if !FindsEdge(sc) then []
    else
      var d := Found(sc).value;
      EdgeEvents(RecordFor(doc, neighbor, d, at, who), d.Undirected?, doc, neighbor, sc, v)
  }

  /** What visiting the first `|verdicts|` neighbours does. */
  ghost function BirthEvents(doc: Path, neighbors: seq<Path>, scripts: seq<Script>, at: int, who: Observer,
                             verdicts: seq<Envelope.Verdict>): seq<Event>
    requires |verdicts| <= |neighbors| == |scripts|
  {
    if verdicts == [] then []
    else
      var m := |verdicts| - 1;
      BirthEvents(doc, neighbors, scripts, at, who, verdicts[..m])
      + VisitEvents(doc, neighbors[m], scripts[m], at, who, verdicts[m])
  }

  function RowsFor(neighbor: Path, sc: Script, v: Envelope.Verdict): seq<Row> {
    if !sc.loads then [Failed(neighbor, Loading)]
    else if !sc.order1.Judged? then [Failed(neighbor, if sc.order1.CallFailed? then Calling else Reading)]
    else if !sc.order2.Judged? then [Failed(neighbor, if sc.order2.CallFailed? then Calling else Reading)]
    else
      var d := Found(sc).value;
      if d.Unrelated? then [Row.Verdict(neighbor, d, false, None)]
      else if !GoesAhead(sc, v) then [Row.Verdict(neighbor, d, true, v.gate)]
      else
        [Row.Verdict(neighbor, d, false, None)]
        + (if !sc.observeLands then [Failed(neighbor, Observing)] else [])
        + (if sc.observeLands && d.Undirected? && !sc.tensionLands then [Failed(neighbor, Tensioning)] else [])
  }

  /** After `j` visits there is still room for both orders of one more neighbour. */
  ghost predicate HasRoom(scripts: seq<Script>, budget: int, j: nat)
    requires j <= |scripts|
  {
    Calls(scripts[..j]) + 2 <= budget
  }

  /** There was room before the last of the first `m` visits, and, unless all are visited, none is left. */
  ghost predicate IsAffordable(scripts: seq<Script>, budget: int, m: nat) {
    && m <= |scripts|
    && (m > 0 ==> HasRoom(scripts, budget, m - 1))
    && (m < |scripts| ==> !HasRoom(scripts, budget, m))
  }

  lemma {:induction false} CallsGrow(scripts: seq<Script>, i: nat, j: nat)
    requires i <= j <= |scripts|
    ensures Calls(scripts[..i]) <= Calls(scripts[..j])
  {
    if i < j {
      CallsGrow(scripts, i, j - 1);
      assert scripts[..j][..j - 1] == scripts[..j - 1];
    }
  }

  /** The budget alone decides how many neighbours are visited. */
  lemma VisitedUnique(scripts: seq<Script>, budget: int, m: nat, m': nat)
    requires IsAffordable(scripts, budget, m) && IsAffordable(scripts, budget, m')
    ensures m == m'
  {
    if m < m' {
      CallsGrow(scripts, m, m' - 1);
    } else if m' < m {
      CallsGrow(scripts, m', m - 1);
    }
  }

  function Endpoints(recs: seq<Record>): (r: seq<(Path, Path)>)
    ensures |r| == |recs| && forall i :: 0 <= i < |recs| ==> r[i] == (recs[i].from, recs[i].to)
  {
    seq(|recs|, i requires 0 <= i < |recs| => (recs[i].from, recs[i].to))
  }

  function EdgesFound(scripts: seq<Script>): nat {
    if scripts == [] then 0
    else EdgesFound(scripts[..|scripts| - 1]) + if FindsEdge(scripts[|scripts| - 1]) then 1 else 0
  }

  lemma EdgeBalances(rec: Record, pending: bool, doc: Path, neighbor: Path, sc: Script, v: Envelope.Verdict)
    ensures
      var did := EdgeEvents(rec, pending, doc, neighbor, sc, v);
      && Refusals(did) == (if GoesAhead(sc, v) then 0 else 1)
      && LostWrites(did) == (if GoesAhead(sc, v) && !sc.observeLands then 1 else 0)
      && LandedRecords(did) == (if GoesAhead(sc, v) && sc.observeLands then [rec] else [])
  {
    var did := EdgeEvents(rec, pending, doc, neighbor, sc, v);
    if GoesAhead(sc, v) {
      var asked := [Asked(Decision(RequestFor(rec), v))];
      var wrote := asked + [Wrote(rec, sc.observeLands)];
      assert asked[..|asked| - 1] == [] && wrote[..|wrote| - 1] == asked;
      assert Refusals(asked) == 0 && LostWrites(asked) == 0 && LandedRecords(asked) == [];
      assert LandedRecords(wrote) == if sc.observeLands then [rec] else [];
      assert |did| == 3 ==> did[..|did| - 1] == wrote;
      assert |did| == 2 ==> did == wrote;
    } else {
      assert |did| == 1 && did[..|did| - 1] == [];
    }
  }

  /** One visit's books balance: an edge found is refused, observed or lost in writing, and nothing else. */
  lemma VisitBalances(doc: Path, neighbor: Path, sc: Script, at: int, who: Observer, v: Envelope.Verdict)
    ensures
      var did := VisitEvents(doc, neighbor, sc, at, who, v);
      && Refusals(did) == (if FindsEdge(sc) && !GoesAhead(sc, v) then 1 else 0)
      && LostWrites(did) == (if FindsEdge(sc) && GoesAhead(sc, v) && !sc.observeLands then 1 else 0)
      && LandedRecords(did) == (if FindsEdge(sc) && GoesAhead(sc, v) && sc.observeLands
                                then [RecordFor(doc, neighbor, Found(sc).value, at, who)] else [])
  {
    if FindsEdge(sc) {
      var d := Found(sc).value;
      EdgeBalances(RecordFor(doc, neighbor, d, at, who), d.Undirected?, doc, neighbor, sc, v);
    }
  }

  /** Over the whole birth: every edge found was refused, observed or lost in writing, exactly once. */
  lemma {:induction false} BirthBalances(doc: Path, neighbors: seq<Path>, scripts: seq<Script>, at: int, who: Observer,
                                         verdicts: seq<Envelope.Verdict>)
    requires |verdicts| <= |neighbors| == |scripts|
    ensures
      var did := BirthEvents(doc, neighbors, scripts, at, who, verdicts);
      Refusals(did) + |LandedRecords(did)| + LostWrites(did) == EdgesFound(scripts[..|verdicts|])
  {
    if verdicts != [] {
      var m := |verdicts| - 1;
      BirthBalances(doc, neighbors, scripts, at, who, verdicts[..m]);
      VisitBalances(doc, neighbors[m], scripts[m], at, who, verdicts[m]);
      var before := BirthEvents(doc, neighbors, scripts, at, who, verdicts[..m]);
      CountsAppend(before, VisitEvents(doc, neighbors[m], scripts[m], at, who, verdicts[m]));
      LandedRecordsAppend(before, VisitEvents(doc, neighbors[m], scripts[m], at, who, verdicts[m]));
      assert scripts[..m + 1][..m] == scripts[..m];
    }
  }

  // ----- what a visit says, told from its script

  ghost predicate BothRelated(sc: Script) {
    sc.loads && sc.order1.Judged? && sc.order2.Judged? && sc.order1.judgement.Related? && sc.order2.judgement.Related?
  }

  /** Both orders name one document as the premise. */
  ghost predicate Agreed(sc: Script) {
    BothRelated(sc) && exists s :: AgreedPremise(sc.order1.judgement, sc.order2.judgement, s)
  }

  ghost predicate LogsTension(did: seq<Event>) {
    exists e :: e in did && e.LoggedTension?
  }

  /** What a visit does: it asks, about an observation, exactly when neither order denies the relation, and it logs a
      tension exactly when it then lands an observation whose direction the orders do not agree on. */
  lemma VisitActs(doc: Path, neighbor: Path, sc: Script, at: int, who: Observer, v: Envelope.Verdict)
    requires doc != neighbor
    ensures
      var did := VisitEvents(doc, neighbor, sc, at, who, v);
      && (did == [] <==> !BothRelated(sc))
      && (did != [] && sc.gateThrows ==> did[0].AskFailed? && did[0].request.action.EdgeObserve?)
      && (did != [] && !sc.gateThrows ==> did[0].Asked? && did[0].decision.request.action.EdgeObserve?)
      && (LogsTension(did) <==> BothRelated(sc) && !Agreed(sc) && !sc.gateThrows && v.admit && sc.observeLands)
  {
    var did := VisitEvents(doc, neighbor, sc, at, who, v);
    if BothRelated(sc) {
      BothOrdersDecide(doc, neighbor, sc.order1.judgement, sc.order2.judgement);
      var d := Found(sc).value;
      if Agreed(sc) {
        var s :| AgreedPremise(sc.order1.judgement, sc.order2.judgement, s);
        assert d == Directed(s);
      } else {
        assert d != Directed(Doc) && d != Directed(Neighbor);
      }
      if |did| == 3 {
        assert did[2] in did;
      }
    }
  }

  /** What a visit reports and costs: a failed step for a neighbour that could not be judged, or its verdict, marked
      gated when the gate said no; and then the write that was lost, if one was. */
  lemma VisitReports(neighbor: Path, sc: Script, v: Envelope.Verdict)
    ensures
      var rows := RowsFor(neighbor, sc, v);
      && (!sc.loads ==> rows == [Failed(neighbor, Loading)])
      && (sc.loads ==>
            && (sc.order1.CallFailed? || (sc.order1.Judged? && sc.order2.CallFailed?) ==> rows == [Failed(neighbor, Calling)])
            && (sc.order1.Unreadable? || (sc.order1.Judged? && sc.order2.Unreadable?) ==> rows == [Failed(neighbor, Reading)]))
      && (sc.loads && sc.order1.Judged? && sc.order2.Judged? ==>
            && rows != [] && rows[0].Verdict?
            && (rows[0].gated <==> BothRelated(sc) && (sc.gateThrows || !v.admit))
            && (rows[0].direction.Directed? <==> Agreed(sc))
            && (Failed(neighbor, Observing) in rows <==> BothRelated(sc) && !rows[0].gated && !sc.observeLands)
            && (Failed(neighbor, Tensioning) in rows <==>
                  BothRelated(sc) && !Agreed(sc) && !rows[0].gated && sc.observeLands && !sc.tensionLands))
      && CallsFor(sc) == if !sc.loads then 0 else if !sc.order1.Judged? then 1 else 2
  {
    if BothRelated(sc) {
      BothOrdersDecide(0, 1, sc.order1.judgement, sc.order2.judgement);
      var d := Found(sc).value;
      if Agreed(sc) {
        var s :| AgreedPremise(sc.order1.judgement, sc.order2.judgement, s);
        assert d == Directed(s);
      } else {
        assert d != Directed(Doc) && d != Directed(Neighbor);
      }
    }
  }

  function PathOf(doc: Path, neighbor: Path, s: Side): Path {
    if s.Doc? then doc else neighbor
  }

  /** The edge of a log that takes a directed birth's record points at the premise both orders agreed on, unless other
      votes of its cycle dispute it; no other votes, no dispute. */
  lemma BirthPointsAtPremise(log: seq<Record>, doc: Path, neighbor: Path, order1: Judgement, order2: Judgement, s: Side,
                             at: int, who: Observer, now: int, decay: Decay)
    requires doc != neighbor && AgreedPremise(order1, order2, s)
    ensures
      var rec := RecordFor(doc, neighbor, ReconcileDirection(order1, order2), at, who);
      var (p, premise) := (CanonPair(doc, neighbor), PathOf(doc, neighbor, s));
      var mine := ForPair(log + [rec], p);
      && Replay(mine).Some?
      && var e := DeriveEdge(Replay(mine).value, now, decay);
         && (e.directionVerdict.Symmetric? <==> Disputed(Cycle(mine)))
         && (!Disputed(Cycle(mine)) ==> e.toPath == premise && CanonPair(e.fromPath, e.toPath) == p)
         && ((forall x :: x in Cycle(ForPair(log, p)) && x.Observe? ==> x.vote.None?) ==> !Disputed(Cycle(mine)))
  {
    BothOrdersDecide(doc, neighbor, order1, order2);
    var rec := RecordFor(doc, neighbor, ReconcileDirection(order1, order2), at, who);
    OneMoreOfPair(log, rec, CanonPair(doc, neighbor));
    LastVoteDirects(ForPair(log, CanonPair(doc, neighbor)), rec, CanonPair(doc, neighbor), PathOf(doc, neighbor, s), now, decay);
  }

  /** A birth whose orders do not agree leaves the pair's edge pointing neither way. */
  lemma UnagreedBirthIsSymmetric(log: seq<Record>, doc: Path, neighbor: Path, order1: Judgement, order2: Judgement,
                                 at: int, who: Observer, now: int, decay: Decay)
    requires doc != neighbor && order1.Related? && order2.Related?
    requires forall s :: !AgreedPremise(order1, order2, s)
    ensures
      var rec := RecordFor(doc, neighbor, ReconcileDirection(order1, order2), at, who);
      var mine := ForPair(log + [rec], CanonPair(doc, neighbor));
      Replay(mine).Some? && DeriveEdge(Replay(mine).value, now, decay).directionVerdict.Symmetric?
  {
    BothOrdersDecide(doc, neighbor, order1, order2);
    var d := ReconcileDirection(order1, order2);
    assert d != Directed(Doc) && d != Directed(Neighbor);
    var rec := RecordFor(doc, neighbor, d, at, who);
    OneMoreOfPair(log, rec, CanonPair(doc, neighbor));
    LastVoteLeavesOpen(ForPair(log, CanonPair(doc, neighbor)), rec, CanonPair(doc, neighbor), now, decay);
  }

  /** A directed birth's record runs from the dependent to the agreed premise, any other from the lesser path. */
  lemma BirthRecordRuns(doc: Path, neighbor: Path, order1: Judgement, order2: Judgement, at: int, who: Observer, s: Side)
    requires doc != neighbor && order1.Related? && order2.Related?
    ensures
      var rec := RecordFor(doc, neighbor, ReconcileDirection(order1, order2), at, who);
      && {rec.from, rec.to} == {doc, neighbor}
      && (AgreedPremise(order1, order2, s) ==> rec.to == PathOf(doc, neighbor, s))
      && (!AgreedPremise(order1, order2, Doc) && !AgreedPremise(order1, order2, Neighbor) ==> rec.from < rec.to)
  {
    BothOrdersDecide(doc, neighbor, order1, order2);
  }

  /** A birth stops just where two more calls no longer fit in the budget, and not before. */
  lemma AffordableMeans(scripts: seq<Script>, budget: int, m: nat)
    requires IsAffordable(scripts, budget, m)
    ensures m < |scripts| ==> Calls(scripts[..m]) + 2 > budget
    ensures forall j :: 0 <= j < m ==> Calls(scripts[..j]) + 2 <= budget
  {
    forall j | 0 <= j < m ensures Calls(scripts[..j]) + 2 <= budget {
      CallsGrow(scripts, j, m - 1);
      assert HasRoom(scripts, budget, m - 1);
    }
  }

  /** A birth's record attests for its observer, blind and on the prompt axis. */
  lemma BirthAttests(doc: Path, neighbor: Path, d: Direction, at: int, who: Observer)
    requires !d.Unrelated?
    ensures
      var rec := RecordFor(doc, neighbor, d, at, who);
      rec.blind && rec.axis == Some(Prompt) && rec.observer == who.agent && rec.model == who.model && rec.at == at
  {
  }

  // ----- the pass over the neighbours

  /** An admission just given allows the write it admits, and then a tension on the same pair. */
  lemma AdmissionAllows(before: seq<Event>, rec: Record, lands: bool, doc: Path, neighbor: Path, ask: Event)
    requires rec.Observe? && (rec.from, rec.to) in {(doc, neighbor), (neighbor, doc)}
    requires ask.Asked? && Admits(Some(ask.decision), RequestFor(rec))
    ensures MayFollow(before + [ask], Wrote(rec, lands))
    ensures forall t :: MayFollow(before + [ask] + [Wrote(rec, lands)], LoggedTension(doc, neighbor, t))
    ensures before + [ask] + [Wrote(rec, lands)] == before + [ask, Wrote(rec, lands)]
    ensures forall t: Event :: before + [ask] + [Wrote(rec, lands)] + [t] == before + [ask, Wrote(rec, lands), t]
  {
    var wrote := before + [ask] + [Wrote(rec, lands)];
    assert wrote[..|wrote| - 1] == before + [ask];
    assert InForce(wrote) == InForce(before + [ask]) == Some(ask.decision);
  }

  /** Asks the gate about an edge found, then writes what it may. */
  method ActOnEdge(rec: Record, pending: bool, doc: Path, neighbor: Path, sc: Script, pass: ConsolidationPass)
    returns (verdict: Envelope.Verdict, failed: Option<Step>)
    requires pass.Valid() && rec.Observe? && (rec.from, rec.to) in {(doc, neighbor), (neighbor, doc)}
    modifies pass, pass.session
    ensures pass.Valid()
    ensures pass.events == old(pass.events) + EdgeEvents(rec, pending, doc, neighbor, sc, verdict)
    ensures verdict.admit == GoesAhead(sc, verdict)
    ensures failed == if !verdict.admit then None
                      else if !sc.observeLands then Some(Observing)
                      else if pending && !sc.tensionLands then Some(Tensioning)
                      else None
  {
    ghost var before := pass.events;
    verdict := pass.Consult(RequestFor(rec), sc.gateThrows, sc.journalWritable);
    failed := None;
    if !verdict.admit {
      return;
    }
    AdmissionAllows(before, rec, sc.observeLands, doc, neighbor, Asked(Decision(RequestFor(rec), verdict)));
    pass.Perform(Wrote(rec, sc.observeLands));
    if !sc.observeLands {
      failed := Some(Observing);
      return;
    }
    if pending {
      pass.Perform(LoggedTension(doc, neighbor, sc.tensionLands));
      if !sc.tensionLands {
        failed := Some(Tensioning);
      }
    }
  }

  /** The model calls never exceed what the pass could afford. */
  lemma CallsWithinBudget(scripts: seq<Script>, budget: int, m: nat)
    requires IsAffordable(scripts, budget, m)
    ensures Calls(scripts[..m]) <= if budget < 0 then 0 else budget
  {
    if m > 0 {
      assert scripts[..m][..m - 1] == scripts[..m - 1];
      assert HasRoom(scripts, budget, m - 1);
    }
  }

  function RowsOf(neighbors: seq<Path>, scripts: seq<Script>, verdicts: seq<Envelope.Verdict>): seq<Row>
    requires |verdicts| <= |neighbors| == |scripts|
  {
    if verdicts == [] then []
    else
      var m := |verdicts| - 1;
      RowsOf(neighbors, scripts, verdicts[..m]) + RowsFor(neighbors[m], scripts[m], verdicts[m])
  }

  /** A birth in progress, told by the verdicts the gate gave so far: what was done, and the books kept. */
  ghost predicate IsTold(doc: Path, neighbors: seq<Path>, scripts: seq<Script>, at: int, who: Observer,
                         verdicts: seq<Envelope.Verdict>, did: seq<Event>, outcome: Outcome)
  {
    && |verdicts| <= |neighbors| == |scripts|
    && did == BirthEvents(doc, neighbors, scripts, at, who, verdicts)
    && outcome.rows == RowsOf(neighbors, scripts, verdicts)
    && outcome.observations == Endpoints(LandedRecords(did))
    && (forall r :: r in LandedRecords(did) ==> r.Observe?)
    && outcome.gatedCount == Refusals(did)
    && outcome.llmCalls == Calls(scripts[..|verdicts|])
  }

  /** What one more visit adds to the books. */
  function Booked(o: Outcome, rows: seq<Row>, calls: nat, observed: Option<(Path, Path)>, gated: bool): Outcome {
    Outcome(o.rows + rows, if observed.Some? then o.observations + [observed.value] else o.observations,
            o.gatedCount + (if gated then 1 else 0), o.llmCalls + calls)
  }

  ghost function ObservedBy(doc: Path, n: Path, sc: Script, v: Envelope.Verdict): Option<(Path, Path)> {
    if FindsEdge(sc) && GoesAhead(sc, v) && sc.observeLands then Some(EdgeFor(doc, n, Found(sc).value)) else None
  }

  lemma TellingStep(doc: Path, neighbors: seq<Path>, scripts: seq<Script>, at: int, who: Observer,
                    verdicts: seq<Envelope.Verdict>, v: Envelope.Verdict)
    requires |verdicts| < |neighbors| == |scripts|
    ensures
      var m := |verdicts|;
      && BirthEvents(doc, neighbors, scripts, at, who, verdicts + [v]) ==
           BirthEvents(doc, neighbors, scripts, at, who, verdicts) + VisitEvents(doc, neighbors[m], scripts[m], at, who, v)
      && RowsOf(neighbors, scripts, verdicts + [v]) ==
           RowsOf(neighbors, scripts, verdicts) + RowsFor(neighbors[m], scripts[m], v)
      && Calls(scripts[..m + 1]) == Calls(scripts[..m]) + CallsFor(scripts[m])
  {
    var m := |verdicts|;
    assert (verdicts + [v])[..m] == verdicts;
    assert scripts[..m + 1][..m] == scripts[..m];
  }

  lemma BookingStep(doc: Path, neighbor: Path, sc: Script, at: int, who: Observer, did: seq<Event>, v: Envelope.Verdict)
    requires forall r :: r in LandedRecords(did) ==> r.Observe?
    ensures
      var more := did + VisitEvents(doc, neighbor, sc, at, who, v);
      && (forall r :: r in LandedRecords(more) ==> r.Observe?)
      && Endpoints(LandedRecords(more)) == Endpoints(LandedRecords(did)) +
           (if ObservedBy(doc, neighbor, sc, v).Some? then [ObservedBy(doc, neighbor, sc, v).value] else [])
      && Refusals(more) == Refusals(did) + (if FindsEdge(sc) && !GoesAhead(sc, v) then 1 else 0)
  {
    var visit := VisitEvents(doc, neighbor, sc, at, who, v);
    VisitBalances(doc, neighbor, sc, at, who, v);
    CountsAppend(did, visit);
    LandedRecordsAppend(did, visit);
  }

  lemma BirthStep(doc: Path, neighbors: seq<Path>, scripts: seq<Script>, at: int, who: Observer,
                  verdicts: seq<Envelope.Verdict>, did: seq<Event>, o: Outcome, v: Envelope.Verdict)
    requires IsTold(doc, neighbors, scripts, at, who, verdicts, did, o) && |verdicts| < |neighbors|
    ensures
      var (n, sc) := (neighbors[|verdicts|], scripts[|verdicts|]);
      IsTold(doc, neighbors, scripts, at, who, verdicts + [v], did + VisitEvents(doc, n, sc, at, who, v),
             Booked(o, RowsFor(n, sc, v), CallsFor(sc), ObservedBy(doc, n, sc, v), FindsEdge(sc) && !GoesAhead(sc, v)))
  {
    TellingStep(doc, neighbors, scripts, at, who, verdicts, v);
    BookingStep(doc, neighbors[|verdicts|], scripts[|verdicts|], at, who, did, v);
  }

  lemma AppendAssociates<T>(a: seq<T>, b: seq<T>, c: seq<T>)
    ensures (a + b) + c == a + (b + c)
  {
  }

  function Others(paths: seq<Path>, doc: Path): (r: seq<Path>)
    ensures forall p :: p in r <==> p in paths && p != doc
  {
    if paths == [] then [] else (if paths[0] != doc then [paths[0]] else []) + Others(paths[1..], doc)
  }

  /** Judges one neighbour in both orders and acts on what was found. */
  method Visit(doc: Path, neighbor: Path, sc: Script, at: int, who: Observer, pass: ConsolidationPass)
    returns (rows: seq<Row>, calls: nat, observed: Option<(Path, Path)>, gated: bool, v: Envelope.Verdict)
    requires pass.Valid()
    modifies pass, pass.session
    ensures pass.Valid()
    ensures pass.events == old(pass.events) + VisitEvents(doc, neighbor, sc, at, who, v)
    ensures rows == RowsFor(neighbor, sc, v) && calls == CallsFor(sc)
    ensures gated == (FindsEdge(sc) && !GoesAhead(sc, v)) && observed == ObservedBy(doc, neighbor, sc, v)
  {
    calls, observed, gated, v := 0, None, false, Envelope.Verdict(false, None, None, 0.0);
    if !sc.loads {
      return [Failed(neighbor, Loading)], calls, observed, gated, v;
    }
    calls := 1;
    if !sc.order1.Judged? {
      return [Failed(neighbor, if sc.order1.CallFailed? then Calling else Reading)], calls, observed, gated, v;
    }
    calls := 2;
    if !sc.order2.Judged? {
      return [Failed(neighbor, if sc.order2.CallFailed? then Calling else Reading)], calls, observed, gated, v;
    }
    var d := ReconcileDirection(sc.order1.judgement, sc.order2.judgement);
    if d.Unrelated? {
      return [Row.Verdict(neighbor, d, false, None)], calls, observed, gated, v;
    }
    var (from, to) := EdgeFor(doc, neighbor, d);
    var failed;
    v, failed := ActOnEdge(RecordFor(doc, neighbor, d, at, who), d.Undirected?, doc, neighbor, sc, pass);
    if !v.admit {
      gated := true;
      return [Row.Verdict(neighbor, d, true, v.gate)], calls, observed, gated, v;
    }
    rows := [Row.Verdict(neighbor, d, false, None)];
    if failed.Some? {
      rows := rows + [Failed(neighbor, failed.value)];
    }
    if failed != Some(Observing) {
      observed := Some((from, to));
    }
  }

  /** Birth of `doc` against the neighbours retrieved for it, itself left out. */
  method BirthOne(doc: Path, retrieved: Option<seq<Path>>, scripts: seq<Script>, budgetRemaining: int, at: int,
                  who: Observer, pass: ConsolidationPass)
    returns (result: Option<Outcome>, ghost verdicts: seq<Envelope.Verdict>, ghost did: seq<Event>)
    requires pass.Valid()
    requires retrieved.Some? ==> |scripts| == |Others(retrieved.value, doc)|
    modifies pass, pass.session
    ensures pass.Valid() && pass.events == old(pass.events) + did
    ensures if retrieved.None? then result.None? && did == []
            else
              && result.Some?
              && IsTold(doc, Others(retrieved.value, doc), scripts, at, who, verdicts, did, result.value)
              && IsAffordable(scripts, budgetRemaining, |verdicts|)
              && result.value.llmCalls <= (if budgetRemaining < 0 then 0 else budgetRemaining)
  {
    verdicts, did := [], [];
    if retrieved.None? {
      return None, verdicts, did;
    }
    var neighbors := Others(retrieved.value, doc);
    var outcome := Outcome([], [], 0, 0);
    var i := 0;
    while i < |neighbors|
      invariant 0 <= i == |verdicts| <= |neighbors|
      invariant pass.Valid() && pass.events == old(pass.events) + did
      invariant IsTold(doc, neighbors, scripts, at, who, verdicts, did, outcome)
      invariant i > 0 ==> HasRoom(scripts, budgetRemaining, i - 1)
    {
      if outcome.llmCalls + 2 > budgetRemaining {
        break;
      }
      assert HasRoom(scripts, budgetRemaining, i);
      var rows, calls, observed, gated, v := Visit(doc, neighbors[i], scripts[i], at, who, pass);
      ghost var visit := VisitEvents(doc, neighbors[i], scripts[i], at, who, v);
      BirthStep(doc, neighbors, scripts, at, who, verdicts, did, outcome, v);
      AppendAssociates(old(pass.events), did, visit);
      outcome, did := Booked(outcome, rows, calls, observed, gated), did + visit;
      verdicts := verdicts + [v];
      i := i + 1;
    }
    assert scripts[..|scripts|] == scripts;
    CallsWithinBudget(scripts, budgetRemaining, i);
    result := Some(outcome);
  }
}

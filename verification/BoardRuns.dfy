/** The board over time: what whole runs of human decisions and listings keep, one after the other or overlapping. */
module BoardRuns {
  import opened Base
  import opened Board

  // ----- where system events stand in a finding's history

  /** A resolution directly follows an accept or a reopening, a reopening a resolution or a reopening. */
  ghost predicate Grounded(events: seq<Event>, i: nat)
    requires i < |events|
  {
    && (events[i].kind.Resolved? ==> i > 0 && (events[i - 1].kind.Accept? || events[i - 1].kind.Reopened?))
    && (events[i].kind.Reopened? ==> i > 0 && IsMarker(events[i - 1]))
  }

  ghost predicate WellGrounded(events: seq<Event>) {
    forall i {:trigger Grounded(events, i)} :: 0 <= i < |events| ==> Grounded(events, i)
  }

  /** A reopening directly follows a resolution. */
  ghost predicate Answers(events: seq<Event>, i: nat)
    requires i < |events|
  {
    events[i].kind.Reopened? ==> i > 0 && events[i - 1].kind.Resolved?
  }

  ghost predicate ReopensOnce(events: seq<Event>) {
    forall i {:trigger Answers(events, i)} :: 0 <= i < |events| ==> Answers(events, i)
  }

  lemma OneMoreGrounded(events: seq<Event>, e: Event)
    ensures WellGrounded(events + [e]) <==>
      && WellGrounded(events)
      && (e.kind.Resolved? ==> WentAway(events))
      && (e.kind.Reopened? ==> events != [] && IsMarker(Latest(events)))
  {
    var more := events + [e];
    if WellGrounded(more) {
      forall i | 0 <= i < |events| ensures Grounded(events, i) {
        assert Grounded(more, i);
      }
      assert Grounded(more, |events|);
    } else {
      var i :| 0 <= i < |more| && !Grounded(more, i);
      assert i < |events| ==> !Grounded(events, i);
    }
  }

  lemma OneMoreAnswer(events: seq<Event>, e: Event)
    ensures ReopensOnce(events + [e]) <==> ReopensOnce(events) && (e.kind.Reopened? ==> CameBack(events))
  {
    var more := events + [e];
    if ReopensOnce(more) {
      forall i | 0 <= i < |events| ensures Answers(events, i) {
        assert Answers(more, i);
      }
      assert Answers(more, |events|);
    } else {
      var i :| 0 <= i < |more| && !Answers(more, i);
      assert i < |events| ==> !Answers(events, i);
    }
  }

  /** In a grounded history, whatever was resolved or came back goes back to accepted. */
  lemma {:induction false} ComesBackAccepted(events: seq<Event>)
    requires WellGrounded(events) && events != [] && IsMarker(Latest(events))
    ensures PriorColumn(events) == ColAccepted
  {
    var front := events[..|events| - 1];
    assert events == front + [Latest(events)];
    OneMoreGrounded(front, Latest(events));
    if !Latest(front).kind.Accept? {
      ComesBackAccepted(front);
      HumanIsPrior(front);
    }
  }

  lemma HumanIsPrior(events: seq<Event>)
    requires events != [] && IsMarker(Latest(events))
    ensures HumanColumn(events) == PriorColumn(events)
  {
  }

  // ----- what a listing appends, even one cut short

  /** How many live findings a listing has dealt with when its first `n` events are on the ledger. */
  function Reached(live: seq<Finding>, log: seq<Event>, now: int, n: nat): (m: nat)
    ensures m <= |live|
  {
    if |LiveEmit(live, log, now)| <= n then |live| else Reached(live[..|live| - 1], log, now, n)
  }

  lemma {:induction false} ReachedIsPrefix(live: seq<Finding>, log: seq<Event>, now: int, n: nat)
    requires n <= |LiveEmit(live, log, now)|
    ensures LiveEmit(live[..Reached(live, log, now, n)], log, now) == LiveEmit(live, log, now)[..n]
  {
    var emit := LiveEmit(live, log, now);
    if n == |emit| {
      assert live[..|live|] == live && emit[..n] == emit;
    } else {
      var front := live[..|live| - 1];
      ReachedIsPrefix(front, log, now, n);
      assert front[..Reached(front, log, now, n)] == live[..Reached(front, log, now, n)];
      assert emit[..n] == LiveEmit(front, log, now)[..n];
    }
  }

  /** The events a listing leaves on the ledger when its append fails after `appends` of them. */
  function Kept(live: seq<Finding>, log: seq<Event>, now: int, appends: nat): seq<Event> {
    var emit := Emit(live, log, now);
    if appends < |emit| then emit[..appends] else emit
  }

  /** The live findings whose reopenings, if due, are among the events kept. */
  function Handled(live: seq<Finding>, log: seq<Event>, now: int, appends: nat): seq<Finding> {
    live[..Reached(live, log, now, appends)]
  }

  lemma EventsOfPrefix(a: seq<Event>, n: nat, key: Key)
    requires n <= |a|
    ensures EventsOf(a[..n], key) <= EventsOf(a, key)
  {
    EventsOfAppend(a[..n], a[n..], key);
    assert a[..n] + a[n..] == a;
  }

  /** What is kept splits into the reopenings of the findings handled and a part of the resolutions. */
  lemma KeptSplits(live: seq<Finding>, log: seq<Event>, now: int, appends: nat) returns (rest: nat)
    ensures
      var absent := AbsentEmit(KeysOf(log), live, log, now);
      && rest <= |absent|
      && Kept(live, log, now, appends) == LiveEmit(Handled(live, log, now, appends), log, now) + absent[..rest]
  {
    var reopens, absent := LiveEmit(live, log, now), AbsentEmit(KeysOf(log), live, log, now);
    if appends < |reopens| {
      rest := 0;
      ReachedIsPrefix(live, log, now, appends);
      assert (reopens + absent)[..appends] == reopens[..appends] + absent[..0];
    } else {
      rest := if appends - |reopens| < |absent| then appends - |reopens| else |absent|;
      assert Handled(live, log, now, appends) == live[..|live|] == live && absent[..|absent|] == absent;
      if appends < |reopens + absent| {
        assert (reopens + absent)[..appends] == reopens + absent[..rest];
      }
    }
  }

  /** Per finding, what is kept is one reopening per report handled, if it came back, or at most one
      resolution, if it went away. */
  lemma KeptOf(live: seq<Finding>, log: seq<Event>, now: int, appends: nat, key: Key)
    ensures
      var events, added := EventsOf(log, key), EventsOf(Kept(live, log, now, appends), key);
      && EventsOf(log + Kept(live, log, now, appends), key) == events + added
      && (CameBack(events) ==>
            && (forall e :: e in added ==> e.kind.Reopened?)
            && |added| == Occurrences(Handled(live, log, now, appends), key))
      && (!CameBack(events) ==> |added| <= 1 && forall e :: e in added ==> WentAway(events) && e.kind.Resolved?)
  {
    var handled := Handled(live, log, now, appends);
    var absent := AbsentEmit(KeysOf(log), live, log, now);
    var rest := KeptSplits(live, log, now, appends);
    EventsOfAppend(log, Kept(live, log, now, appends), key);
    EventsOfAppend(LiveEmit(handled, log, now), absent[..rest], key);
    LiveEmitOf(handled, log, now, key);
    EventsOfPrefix(absent, rest, key);
    AbsentEmitOf(KeysOf(log), live, log, now, key);
  }

  // ----- runs

  /** Human decisions; system events come from reconciliation alone. */
  predicate IsHuman(kind: EventType) {
    kind.Accept? || kind.Defer? || kind.Dismiss? || kind.Reassign?
  }

  /** What happens to a board: somebody decides, or somebody lists it and the events emitted are appended,
      all of them unless an append fails after `appends`. */
  datatype Move = Decision(e: Event) | Listing(live: seq<Finding>, now: int, appends: nat)

  function Appended(log: seq<Event>, move: Move): seq<Event> {
    match move
    case Decision(e) => [e]
    case Listing(live, now, appends) => Kept(live, log, now, appends)
  }

  function LogAfter(moves: seq<Move>): seq<Event> {
    if moves == [] then []
    else
      var log := LogAfter(moves[..|moves| - 1]);
      log + Appended(log, moves[|moves| - 1])
  }

  ghost predicate ByHumans(moves: seq<Move>) {
    forall i :: 0 <= i < |moves| && moves[i].Decision? ==> IsHuman(moves[i].e.kind)
  }

  ghost predicate GroundedLog(log: seq<Event>) {
    forall k :: WellGrounded(EventsOf(log, k))
  }

  ghost predicate ReopensOnceLog(log: seq<Event>) {
    forall k :: ReopensOnce(EventsOf(log, k))
  }

  lemma DecisionOf(log: seq<Event>, e: Event, key: Key)
    ensures EventsOf(log + [e], key) == if e.findingId == key then EventsOf(log, key) + [e] else EventsOf(log, key)
  {
    EventsOfAppend(log, [e], key);
    EventsOfShort([e], key);
  }

  lemma MoveStaysGrounded(log: seq<Event>, move: Move)
    requires GroundedLog(log) && (move.Decision? ==> IsHuman(move.e.kind))
    ensures GroundedLog(log + Appended(log, move))
  {
    forall k ensures WellGrounded(EventsOf(log + Appended(log, move), k)) {
      assert WellGrounded(EventsOf(log, k));
      match move
      case Decision(e) =>
        DecisionOf(log, e, k);
        OneMoreGrounded(EventsOf(log, k), e);
      case Listing(live, now, appends) =>
        KeptOf(live, log, now, appends, k);
        AddedStaysGrounded(EventsOf(log, k), EventsOf(Kept(live, log, now, appends), k));
    }
  }

  lemma {:induction false} AddedStaysGrounded(events: seq<Event>, added: seq<Event>)
    requires WellGrounded(events)
    requires CameBack(events) ==> forall e :: e in added ==> e.kind.Reopened?
    requires !CameBack(events) ==> |added| <= 1 && forall e :: e in added ==> WentAway(events) && e.kind.Resolved?
    ensures WellGrounded(events + added)
  {
    if added == [] {
      assert events + added == events;
    } else {
      var front, last := added[..|added| - 1], added[|added| - 1];
      AddedStaysGrounded(events, front);
      assert last in added && events + added == (events + front) + [last];
      if front != [] {
        assert Latest(events + front) == front[|front| - 1] && front[|front| - 1] in added;
      } else {
        assert events + front == events;
      }
      OneMoreGrounded(events + front, last);
    }
  }

  /** Over every run of listings one after the other, whatever they report and wherever an append fails, each
      resolution directly follows an accept or a reopening, and each reopening a resolution or another reopening. */
  lemma {:induction false} RunsStayGrounded(moves: seq<Move>)
    requires ByHumans(moves)
    ensures GroundedLog(LogAfter(moves))
  {
    if moves == [] {
      assert forall k :: EventsOf([], k) == [];
    } else {
      RunsStayGrounded(moves[..|moves| - 1]);
      MoveStaysGrounded(LogAfter(moves[..|moves| - 1]), moves[|moves| - 1]);
    }
  }

  /** On every run, a finding that was resolved or came back is shown as accepted when it is reported. */
  lemma CameBackMeansAccepted(moves: seq<Move>, f: Finding, now: int, card: Finding)
    requires ByHumans(moves) && IsLiveCard(f, card, LogAfter(moves), now)
    requires EventsOf(LogAfter(moves), f.key) != [] && IsMarker(Latest(EventsOf(LogAfter(moves), f.key)))
    ensures card.column == ColAccepted
  {
    RunsStayGrounded(moves);
    assert WellGrounded(EventsOf(LogAfter(moves), f.key));
    ComesBackAccepted(EventsOf(LogAfter(moves), f.key));
  }

  // ----- when a finding is reopened just once

  ghost predicate OnceIfCameBack(live: seq<Finding>, log: seq<Event>, k: Key) {
    CameBack(EventsOf(log, k)) ==> Occurrences(live, k) <= 1
  }

  /** No finding that came back is reported twice among `live`. */
  ghost predicate NoneCameBackTwice(live: seq<Finding>, log: seq<Event>) {
    forall k :: OnceIfCameBack(live, log, k)
  }

  /** The findings a move reports, as far as it got. */
  function ReportedBy(log: seq<Event>, move: Move): seq<Finding> {
    match move
    case Decision(_) => []
    case Listing(live, now, appends) => Handled(live, log, now, appends)
  }

  /** No listing of the run got to report twice a finding that had come back. */
  ghost predicate NeverReportedTwice(moves: seq<Move>) {
    moves == [] ||
    var log, front := LogAfter(moves[..|moves| - 1]), moves[..|moves| - 1];
    NeverReportedTwice(front) && NoneCameBackTwice(ReportedBy(log, moves[|moves| - 1]), log)
  }

  lemma {:induction false} AddedReopensOnce(events: seq<Event>, added: seq<Event>)
    requires CameBack(events) ==> forall e :: e in added ==> e.kind.Reopened?
    requires !CameBack(events) ==> forall e :: e in added ==> !e.kind.Reopened?
    ensures ReopensOnce(events + added) <==> ReopensOnce(events) && (CameBack(events) ==> |added| <= 1)
  {
    if added == [] {
      assert events + added == events;
    } else {
      var front, last := added[..|added| - 1], added[|added| - 1];
      AddedReopensOnce(events, front);
      assert last in added && events + added == (events + front) + [last];
      if front != [] {
        assert Latest(events + front) == front[|front| - 1] && front[|front| - 1] in added;
      } else {
        assert events + front == events;
      }
      OneMoreAnswer(events + front, last);
    }
  }

  lemma MoveReopensOnce(log: seq<Event>, move: Move, k: Key)
    requires move.Decision? ==> IsHuman(move.e.kind)
    ensures ReopensOnce(EventsOf(log + Appended(log, move), k)) <==>
            ReopensOnce(EventsOf(log, k)) && OnceIfCameBack(ReportedBy(log, move), log, k)
  {
    match move
    case Decision(e) =>
      DecisionOf(log, e, k);
      OneMoreAnswer(EventsOf(log, k), e);
    case Listing(live, now, appends) =>
      KeptOf(live, log, now, appends, k);
      AddedReopensOnce(EventsOf(log, k), EventsOf(Kept(live, log, now, appends), k));
  }

  lemma MoveReopensOnceExactly(log: seq<Event>, move: Move)
    requires move.Decision? ==> IsHuman(move.e.kind)
    ensures ReopensOnceLog(log + Appended(log, move)) <==>
            ReopensOnceLog(log) && NoneCameBackTwice(ReportedBy(log, move), log)
  {
    forall k ensures ReopensOnce(EventsOf(log + Appended(log, move), k)) <==>
                     ReopensOnce(EventsOf(log, k)) && OnceIfCameBack(ReportedBy(log, move), log, k) {
      MoveReopensOnce(log, move, k);
    }
  }

  /** Over a whole run, each reopening directly follows a resolution exactly when no listing got to report
      twice a finding that had come back; and once that fails it stays so. */
  lemma {:induction false} RunsReopenOnceExactly(moves: seq<Move>)
    requires ByHumans(moves)
    ensures ReopensOnceLog(LogAfter(moves)) <==> NeverReportedTwice(moves)
  {
    if moves == [] {
      assert forall k :: EventsOf([], k) == [];
    } else {
      var n := |moves| - 1;
      RunsReopenOnceExactly(moves[..n]);
      MoveReopensOnceExactly(LogAfter(moves[..n]), moves[n]);
    }
  }

  /** Detectors that report each finding once per listing are enough for that. */
  lemma DistinctReportsReopenOnce(moves: seq<Move>)
    requires ByHumans(moves)
    requires forall m :: m in moves && m.Listing? ==> OnePerKey(m.live)
    ensures ReopensOnceLog(LogAfter(moves))
  {
    DistinctReportsNeverTwice(moves);
    RunsReopenOnceExactly(moves);
  }

  lemma {:induction false} DistinctReportsNeverTwice(moves: seq<Move>)
    requires forall m :: m in moves && m.Listing? ==> OnePerKey(m.live)
    ensures NeverReportedTwice(moves)
  {
    if moves != [] {
      var front, last := moves[..|moves| - 1], moves[|moves| - 1];
      DistinctReportsNeverTwice(front);
      assert last in moves;
      forall k ensures OnceIfCameBack(ReportedBy(LogAfter(front), last), LogAfter(front), k) {
        OccursOnce(ReportedBy(LogAfter(front), last), k);
      }
    }
  }

  lemma {:induction false} OccursOnce(live: seq<Finding>, k: Key)
    requires OnePerKey(live)
    ensures Occurrences(live, k) <= 1
  {
    if live != [] {
      OccursOnce(live[..|live| - 1], k);
      OccursIffLive(live[..|live| - 1], k);
    }
  }

  function Bare(f: Finding, kind: EventType): Event {
    Event(f.key, kind, 0, f.fingerprint, None, None, None)
  }

  /** The failing family is inhabited: one finding reported twice after its resolution. */
  lemma ReportedTwiceReopensTwice(f: Finding, now: int)
    ensures
      var log := [Bare(f, Accept), Bare(f, Resolved)];
      ReopensOnceLog(log) && !ReopensOnceLog(log + Emit([f, f], log, now))
  {
    var accept, resolved := Bare(f, Accept), Bare(f, Resolved);
    var log := [accept, resolved];
    forall k ensures ReopensOnce(EventsOf(log, k)) {
      TwoEvents(accept, resolved, k);
    }
    TwoEvents(accept, resolved, f.key);
    assert [f, f][..1] == [f] && [f][..0] == [];
    assert Occurrences([f], f.key) == 1;
    assert Occurrences([f, f], f.key) == 2;
    var all := |Emit([f, f], log, now)|;
    assert [f, f][..2] == [f, f];
    assert Handled([f, f], log, now, all) == [f, f];
    MoveReopensOnce(log, Listing([f, f], now, all), f.key);
  }

  lemma TwoEvents(a: Event, b: Event, k: Key)
    requires a.findingId == b.findingId
    ensures EventsOf([a, b], k) == if k == a.findingId then [a, b] else []
  {
    EventsOfShort([a], k);
    EventsOfShort([b], k);
    EventsOfAppend([a], [b], k);
    assert [a] + [b] == [a, b];
  }

  // ----- listings that overlap

  /** One write to a ledger that several listings may be working on: a decision, or the `i`th event of a listing
      that read the ledger when it was `read` events long. */
  datatype Step = Decide(e: Event) | Persist(live: seq<Finding>, now: int, read: nat, i: nat)

  function Upto(n: nat, most: nat): (r: nat)
    ensures r <= most
  {
    if n < most then n else most
  }

  /** What a step appends; nothing when the listing emitted fewer events. */
  function Written(log: seq<Event>, step: Step): seq<Event> {
    match step
    case Decide(e) => [e]
    case Persist(live, now, read, i) =>
      var emit := Emit(live, log[..Upto(read, |log|)], now);
      if i < |emit| then [emit[i]] else []
  }

  function LogOf(steps: seq<Step>): seq<Event> {
    if steps == [] then []
    else LogOf(steps[..|steps| - 1]) + Written(LogOf(steps[..|steps| - 1]), steps[|steps| - 1])
  }

  ghost predicate DecidedByHumans(steps: seq<Step>) {
    forall s :: s in steps && s.Decide? ==> IsHuman(s.e.kind)
  }

  /** A system event directly follows an accept or another system event. */
  ghost predicate Rooted(events: seq<Event>, i: nat)
    requires i < |events|
  {
    IsMarker(events[i]) ==> i > 0 && (events[i - 1].kind.Accept? || IsMarker(events[i - 1]))
  }

  ghost predicate WellRooted(events: seq<Event>) {
    forall i {:trigger Rooted(events, i)} :: 0 <= i < |events| ==> Rooted(events, i)
  }

  ghost predicate RootedLog(log: seq<Event>) {
    forall k :: WellRooted(EventsOf(log, k))
  }

  lemma OneMoreRooted(events: seq<Event>, e: Event)
    ensures WellRooted(events + [e]) <==>
      WellRooted(events) && (IsMarker(e) ==> events != [] && (Latest(events).kind.Accept? || IsMarker(Latest(events))))
  {
    var more := events + [e];
    if WellRooted(more) {
      forall i | 0 <= i < |events| ensures Rooted(events, i) {
        assert Rooted(more, i);
      }
      assert Rooted(more, |events|);
    } else {
      var i :| 0 <= i < |more| && !Rooted(more, i);
      assert i < |events| ==> !Rooted(events, i);
    }
  }

  /** In a rooted history, whatever was resolved or came back goes back to accepted. */
  lemma {:induction false} RootedComesBackAccepted(events: seq<Event>)
    requires WellRooted(events) && events != [] && IsMarker(Latest(events))
    ensures PriorColumn(events) == ColAccepted
  {
    var front := events[..|events| - 1];
    assert events == front + [Latest(events)];
    OneMoreRooted(front, Latest(events));
    if !Latest(front).kind.Accept? {
      RootedComesBackAccepted(front);
      HumanIsPrior(front);
    }
  }

  /** The finding's latest event is a decision, no accept, that came after the listing had read the ledger. */
  ghost predicate Overtaken(log: seq<Event>, step: Step) {
    step.Persist? && Written(log, step) != [] &&
    var later := EventsOf(log[Upto(step.read, |log|)..], Written(log, step)[0].findingId);
    later != [] && IsHuman(Latest(later).kind) && !Latest(later).kind.Accept?
  }

  ghost predicate NeverOvertaken(steps: seq<Step>) {
    steps == [] ||
    var front, last := steps[..|steps| - 1], steps[|steps| - 1];
    NeverOvertaken(front) && !Overtaken(LogOf(front), last)
  }

  lemma {:induction false} ElementOf(events: seq<Event>, i: nat)
    requires i < |events|
    ensures events[i] in EventsOf(events, events[i].findingId)
  {
    var front := events[..|events| - 1];
    if i < |front| {
      ElementOf(front, i);
      assert events[i] == front[i];
    }
  }

  /** What a listing emits for a finding follows, as far as it had read, an accept or a system event. */
  lemma EmittedFollows(live: seq<Finding>, log: seq<Event>, now: int, i: nat)
    requires i < |Emit(live, log, now)|
    ensures
      var e := Emit(live, log, now)[i];
      var events := EventsOf(log, e.findingId);
      IsMarker(e) && events != [] && (Latest(events).kind.Accept? || IsMarker(Latest(events)))
  {
    var e := Emit(live, log, now)[i];
    ElementOf(Emit(live, log, now), i);
    EmitOf(live, log, now, e.findingId);
  }

  /** A system event, when it is appended, follows an accept or a system event unless it was overtaken. */
  lemma AppendedFollows(log: seq<Event>, step: Step, e: Event)
    requires step.Persist? && Written(log, step) == [e]
    requires forall d :: d in log ==> IsHuman(d.kind) || IsMarker(d)
    ensures
      var events := EventsOf(log, e.findingId);
      && IsMarker(e)
      && (!Overtaken(log, step) <==> events != [] && (Latest(events).kind.Accept? || IsMarker(Latest(events))))
  {
    var read := Upto(step.read, |log|);
    var before, later := EventsOf(log[..read], e.findingId), EventsOf(log[read..], e.findingId);
    EmittedFollows(step.live, log[..read], step.now, step.i);
    ReadAndLater(log, read, e.findingId);
    EventsAreLogged(log[read..], e.findingId);
    LatestOfBoth(before, later);
  }

  lemma LatestOfBoth(before: seq<Event>, later: seq<Event>)
    requires before != [] && (Latest(before).kind.Accept? || IsMarker(Latest(before)))
    requires forall d :: d in later ==> IsHuman(d.kind) || IsMarker(d)
    ensures
      var events := before + later;
      Latest(events).kind.Accept? || IsMarker(Latest(events)) <==>
      later == [] || !IsHuman(Latest(later).kind) || Latest(later).kind.Accept?
  {
    if later == [] {
      assert before + later == before;
    } else {
      assert Latest(before + later) == Latest(later) && Latest(later) in later;
    }
  }

  lemma ReadAndLater(log: seq<Event>, read: nat, key: Key)
    requires read <= |log|
    ensures EventsOf(log, key) == EventsOf(log[..read], key) + EventsOf(log[read..], key)
    ensures EventsOf(log[read..], key) == [] ==> EventsOf(log, key) == EventsOf(log[..read], key)
  {
    EventsOfAppend(log[..read], log[read..], key);
    assert log[..read] + log[read..] == log;
  }

  lemma {:induction false} EventsAreLogged(log: seq<Event>, key: Key)
    ensures forall e :: e in EventsOf(log, key) ==> e in log
  {
    if log != [] {
      EventsAreLogged(log[..|log| - 1], key);
    }
  }

  lemma StepRootedExactly(log: seq<Event>, step: Step)
    requires step.Decide? ==> IsHuman(step.e.kind)
    requires forall d :: d in log ==> IsHuman(d.kind) || IsMarker(d)
    ensures RootedLog(log + Written(log, step)) <==> RootedLog(log) && !Overtaken(log, step)
    ensures forall d :: d in log + Written(log, step) ==> IsHuman(d.kind) || IsMarker(d)
  {
    if Written(log, step) == [] {
      assert log + [] == log;
      return;
    }
    var e := Written(log, step)[0];
    assert Written(log, step) == [e];
    if step.Persist? {
      AppendedFollows(log, step, e);
    }
    OneMoreRooted(EventsOf(log, e.findingId), e);
    forall k
      ensures WellRooted(EventsOf(log + [e], k)) <==>
              WellRooted(EventsOf(log, k)) && (k == e.findingId ==> !Overtaken(log, step))
    {
      DecisionOf(log, e, k);
    }
  }

  /** Over every run, listings overlapping as they may and appends failing anywhere, each system event directly
      follows an accept or a system event exactly when no event appended was overtaken by a decision. */
  lemma {:induction false} OverlapsRootedExactly(steps: seq<Step>)
    requires DecidedByHumans(steps)
    ensures RootedLog(LogOf(steps)) <==> NeverOvertaken(steps)
    ensures forall d :: d in LogOf(steps) ==> IsHuman(d.kind) || IsMarker(d)
  {
    if steps == [] {
      assert forall k :: EventsOf([], k) == [];
    } else {
      var front, last := steps[..|steps| - 1], steps[|steps| - 1];
      assert last in steps;
      OverlapsRootedExactly(front);
      StepRootedExactly(LogOf(front), last);
    }
  }

  /** So then too a finding that was resolved or came back is shown as accepted when it is reported. */
  lemma OverlapsRestoreAccepted(steps: seq<Step>, f: Finding, now: int, card: Finding)
    requires DecidedByHumans(steps) && NeverOvertaken(steps) && IsLiveCard(f, card, LogOf(steps), now)
    requires EventsOf(LogOf(steps), f.key) != [] && IsMarker(Latest(EventsOf(LogOf(steps), f.key)))
    ensures card.column == ColAccepted
  {
    OverlapsRootedExactly(steps);
    assert WellRooted(EventsOf(LogOf(steps), f.key));
    RootedComesBackAccepted(EventsOf(LogOf(steps), f.key));
  }

  /** Overtaken, a finding goes back elsewhere: accepted, found gone by a listing, deferred, and then resolved
      by that listing, it is shown as waiting. */
  lemma OvertakenIsNotRestored(f: Finding, now: int, log: seq<Event>, card: Finding)
    requires log == LogOf([Decide(Bare(f, Accept)), Decide(Bare(f, Defer)), Persist([], now, 1, 0)])
    requires IsLiveCard(f, card, log, now)
    ensures card.column == ColWaiting
  {
    var resolved := GoneIsResolved(f, now);
    OvertakenLog(Bare(f, Accept), Bare(f, Defer), resolved, now);
    OvertakenCard(f, now, log, resolved, card);
  }

  lemma OvertakenCard(f: Finding, now: int, log: seq<Event>, resolved: Event, card: Finding)
    requires log == [Bare(f, Accept), Bare(f, Defer)] + [resolved]
    requires resolved.findingId == f.key && resolved.kind.Resolved?
    requires IsLiveCard(f, card, log, now)
    ensures card.column == ColWaiting
  {
    TwoEvents(Bare(f, Accept), Bare(f, Defer), f.key);
    DecisionOf([Bare(f, Accept), Bare(f, Defer)], resolved, f.key);
    ResolvedFromWaiting(Bare(f, Accept), Bare(f, Defer), resolved);
    MarkedCard(f, now, log, card);
  }

  lemma MarkedCard(f: Finding, now: int, log: seq<Event>, card: Finding)
    requires EventsOf(log, f.key) != [] && IsMarker(Latest(EventsOf(log, f.key))) && IsLiveCard(f, card, log, now)
    ensures card.column == PriorColumn(EventsOf(log, f.key))
  {
    MarkedColumn(f, EventsOf(log, f.key), now);
  }

  lemma MarkedColumn(f: Finding, events: seq<Event>, now: int)
    requires events != [] && IsMarker(Latest(events))
    ensures LiveColumn(f, events, now) == PriorColumn(events)
  {
  }

  lemma OvertakenLog(accept: Event, defer: Event, resolved: Event, now: int)
    requires Emit([], [accept], now) == [resolved]
    ensures LogOf([Decide(accept), Decide(defer), Persist([], now, 1, 0)]) == [accept, defer] + [resolved]
  {
    var one, two := [Decide(accept)], [Decide(accept), Decide(defer)];
    var three := [Decide(accept), Decide(defer), Persist([], now, 1, 0)];
    assert three[..2] == two && two[..1] == one && one[..0] == [];
    assert LogOf(one) == [accept];
    assert LogOf(two) == [accept, defer];
    assert [accept, defer][..1] == [accept];
  }

  lemma ResolvedFromWaiting(accept: Event, defer: Event, resolved: Event)
    requires defer.kind.Defer? && resolved.kind.Resolved?
    ensures PriorColumn([accept, defer] + [resolved]) == ColWaiting
  {
    assert ([accept, defer] + [resolved])[..2] == [accept, defer];
  }

  lemma GoneIsResolved(f: Finding, now: int) returns (resolved: Event)
    ensures Emit([], [Bare(f, Accept)], now) == [resolved] && resolved.findingId == f.key && resolved.kind.Resolved?
  {
    var log := [Bare(f, Accept)];
    assert log[..0] == [];
    assert KeysOf([]) == [];
    assert KeysOf(log) == [f.key];
    KeyIsResolved(f.key, log, now);
    EventsOfShort(log, f.key);
    resolved := SystemEvent(f.key, Resolved, f.fingerprint, now, log);
  }

  lemma KeyIsResolved(key: Key, log: seq<Event>, now: int)
    ensures AbsentEmit([key], [], log, now) == ResolveFor(key, EventsOf(log, key), now)
  {
    assert [key][..0] == [] && key !in LiveKeys([]);
    assert AbsentEmit([], [], log, now) == [];
  }

  // ----- the ledger as an object

  class BoardLedger {
    var log: seq<Event>

    constructor ()
      ensures log == LogAfter([])
    {
      log := [];
    }

    /** A human decision on a finding. */
    method Dispose(e: Event)
      modifies this
      ensures log == old(log) + Appended(old(log), Decision(e))
    {
      log := log + [e];
    }

    /** Reads the board: reconciles, persists what that emitted, and only then narrows the view. An append
        that fails after `appends` events stops it there. */
    method ListBoard(live: seq<Finding>, now: int, keep: Finding -> bool, appends: nat)
      returns (r: Result<seq<Finding>, string>)
      modifies this
      ensures r.Ok? <==> appends >= |Emit(live, old(log), now)|
      ensures log == old(log) + Appended(old(log), Listing(live, now, appends))
      ensures r.Ok? ==> exists cards :: AreCards(live, old(log), now, cards) && r.value == Visible(cards, keep)
    {
      var keys, byFinding := LoadLedger(log);
      var cards, emit := Reconcile(live, keys, byFinding, now, log);
      var ok := Persist(emit, appends);
      if !ok {
        return Err("cannot append system event");
      }
      return Ok(Visible(cards, keep));
    }

    /** Appends the events one by one; the first failure, after `appends` of them, stops it. */
    method Persist(emit: seq<Event>, appends: nat) returns (ok: bool)
      modifies this
      ensures ok <==> appends >= |emit|
      ensures log == old(log) + if ok then emit else emit[..appends]
    {
      for n := 0 to |emit|
        invariant log == old(log) + emit[..n] && n <= appends
      {
        if n == appends {
          return false;
        }
        log := log + [emit[n]];
        assert emit[..n + 1] == emit[..n] + [emit[n]];
      }
      assert emit[..|emit|] == emit;
      return true;
    }
  }

  /** The cards a view keeps, in order. */
  function Visible(cards: seq<Finding>, keep: Finding -> bool): (r: seq<Finding>)
    ensures forall c :: c in r <==> c in cards && keep(c)
  {
    if cards == [] then []
    else
      var last := cards[|cards| - 1];
      assert cards == cards[..|cards| - 1] + [last];
      Visible(cards[..|cards| - 1], keep) + if keep(last) then [last] else []
  }
}

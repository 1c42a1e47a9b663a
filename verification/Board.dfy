/** The disposition board: an append-only ledger of events per finding, and its reconciliation with what
    the detectors currently report. */
module Board {
  import opened Base

  datatype EventType = New | Accept | Defer | Dismiss | Reassign | Resolved | Reopened

  /** What identifies a finding across listings. */
  type Key = int

  type Descriptor = int
  type Fingerprint = int

  datatype Event = Event(findingId: Key, kind: EventType, at: int, fingerprint: Fingerprint,
                         expiry: Option<int>, owner: Option<string>, descriptor: Option<Descriptor>)

  datatype Column = ColNew | ColAccepted | ColWaiting | ColResolved | ColDismissed

  /** What a card shows of the finding itself; a resolved card rebuilt from a ledger without a display
      snapshot has only a placeholder. */
  datatype Detail = Shown(descriptor: Descriptor) | Placeholder

  datatype Finding = Finding(key: Key, fingerprint: Fingerprint, detail: Detail, owner: string,
                             firstSeen: int, lastSeen: int, column: Column, history: seq<Event>)

  // ----- the ledger as a log grouped by finding

  function EventsOf(log: seq<Event>, key: Key): (r: seq<Event>)
    ensures forall e :: e in r ==> e.findingId == key
  {
    if log == [] then []
    else
      var front, last := EventsOf(log[..|log| - 1], key), log[|log| - 1];
      if last.findingId == key then front + [last] else front
  }

  /** The findings with events, in the order of their first event. */
  function KeysOf(log: seq<Event>): (r: seq<Key>)
    ensures Distinct(r)
    ensures forall k :: k in r <==> exists i :: 0 <= i < |log| && log[i].findingId == k
  {
    if log == [] then []
    else
      var front, last := KeysOf(log[..|log| - 1]), log[|log| - 1];
      assert forall i :: 0 <= i < |log| - 1 ==> log[..|log| - 1][i] == log[i];
      if last.findingId in front then front else front + [last.findingId]
  }

  method LoadLedger(log: seq<Event>) returns (keys: seq<Key>, byFinding: map<Key, seq<Event>>)
    ensures keys == KeysOf(log)
    ensures forall k :: k in byFinding <==> k in keys
    ensures forall k :: k in byFinding ==> byFinding[k] == EventsOf(log, k) && byFinding[k] != []
  {
    keys, byFinding := [], map[];
    for n := 0 to |log|
      invariant keys == KeysOf(log[..n])
      invariant forall k :: k in byFinding <==> k in keys
      invariant forall k :: k in byFinding ==> byFinding[k] == EventsOf(log[..n], k) && byFinding[k] != []
      invariant forall k :: k !in byFinding ==> EventsOf(log[..n], k) == []
    {
      var e := log[n];
      assert log[..n + 1][..n] == log[..n];
      if e.findingId in byFinding {
        byFinding := byFinding[e.findingId := byFinding[e.findingId] + [e]];
      } else {
        keys := keys + [e.findingId];
        byFinding := byFinding[e.findingId := [e]];
      }
    }
    assert log[..|log|] == log;
  }

  lemma {:induction false} EventsOfAppend(a: seq<Event>, b: seq<Event>, key: Key)
    ensures EventsOf(a + b, key) == EventsOf(a, key) + EventsOf(b, key)
  {
    if b == [] {
      assert a + b == a;
    } else {
      EventsOfAppend(a, b[..|b| - 1], key);
      assert (a + b)[..|a + b| - 1] == a + b[..|b| - 1];
    }
  }

  // ----- folds over one finding's events

  function Latest(events: seq<Event>): Event
    requires events != []
  {
    events[|events| - 1]
  }

  /** The deferral or dismissal timer in force: the one the latest defer or dismiss set, unless an accept or
      a resolution came after it. */
  function StandingExpiry(events: seq<Event>): Option<int> {
    if events == [] then None
    else
      match Latest(events).kind
      case Defer => Latest(events).expiry
      case Dismiss => Latest(events).expiry
      case Accept => None
      case Resolved => None
      case _ => StandingExpiry(events[..|events| - 1])
  }

  function LatestOwner(events: seq<Event>): Option<string> {
    if events == [] then None
    else if Latest(events).kind.Reassign? && Latest(events).owner.Some? then Latest(events).owner
    else LatestOwner(events[..|events| - 1])
  }

  datatype Disposition = Disposition(kind: EventType, fingerprint: Fingerprint, expiry: Option<int>, owner: Option<string>, expired: bool)

  function DispositionOf(events: seq<Event>, now: int): Disposition
    requires events != []
  {
    var expiry := StandingExpiry(events);
    Disposition(Latest(events).kind, Latest(events).fingerprint, expiry, LatestOwner(events), expiry.Some? && expiry.value < now)
  }

  method CurrentDisposition(events: seq<Event>, now: int) returns (d: Disposition)
    requires events != []
    ensures d == DispositionOf(events, now)
  {
    var owner: Option<string>, expiry: Option<int> := None, None;
    for n := 0 to |events|
      invariant owner == LatestOwner(events[..n]) && expiry == StandingExpiry(events[..n])
    {
      var e := events[n];
      assert events[..n + 1][..n] == events[..n];
      if e.kind.Reassign? && e.owner.Some? {
        owner := e.owner;
      }
      if e.kind.Defer? || e.kind.Dismiss? {
        expiry := e.expiry;
      }
      if e.kind.Accept? || e.kind.Resolved? {
        expiry := None;
      }
    }
    assert events[..|events|] == events;
    d := Disposition(Latest(events).kind, Latest(events).fingerprint, expiry, owner, expiry.Some? && expiry.value < now);
  }

  predicate IsMarker(e: Event) {
    e.kind.Resolved? || e.kind.Reopened?
  }

  /** The column the latest human decision among `events` stands for. */
  function HumanColumn(events: seq<Event>): Column {
    if events == [] then ColNew
    else
      match Latest(events).kind
      case Accept => ColAccepted
      case Defer => ColWaiting
      case Dismiss => ColDismissed
      case _ => HumanColumn(events[..|events| - 1])
  }

  /** The column in force before the latest resolution or reopening. */
  function PriorColumn(events: seq<Event>): Column {
    if events == [] then ColNew
    else if IsMarker(Latest(events)) then HumanColumn(events[..|events| - 1])
    else PriorColumn(events[..|events| - 1])
  }

  method PriorHumanDisposition(events: seq<Event>) returns (c: Column)
    ensures c == PriorColumn(events)
  {
    var passedMarker := false;
    var i := |events|;
    assert events[..i] == events;
    while i > 0
      invariant 0 <= i <= |events|
      invariant PriorColumn(events) == if passedMarker then HumanColumn(events[..i]) else PriorColumn(events[..i])
    {
      i := i - 1;
      var e := events[i];
      assert events[..i + 1][..i] == events[..i];
      if !passedMarker {
        if e.kind.Resolved? || e.kind.Reopened? {
          passedMarker := true;
        }
        continue;
      }
      match e.kind {
        case Accept => return ColAccepted;
        case Defer => return ColWaiting;
        case Dismiss => return ColDismissed;
        case _ =>
      }
    }
    return ColNew;
  }

  function DescriptorOf(events: seq<Event>): Option<Descriptor> {
    if events == [] then None
    else if Latest(events).descriptor.Some? then Latest(events).descriptor
    else DescriptorOf(events[..|events| - 1])
  }

  method LatestDescriptor(events: seq<Event>) returns (d: Option<Descriptor>)
    ensures d == DescriptorOf(events)
  {
    var i := |events|;
    assert events[..i] == events;
    while i > 0
      invariant 0 <= i <= |events| && DescriptorOf(events) == DescriptorOf(events[..i])
    {
      i := i - 1;
      assert events[..i + 1][..i] == events[..i];
      if events[i].descriptor.Some? {
        return events[i].descriptor;
      }
    }
    return None;
  }

  function AnyOwner(events: seq<Event>): string {
    if events == [] then ""
    else if Latest(events).owner.Some? then Latest(events).owner.value
    else AnyOwner(events[..|events| - 1])
  }

  ghost predicate SpansTimes(events: seq<Event>, first: int, last: int) {
    && (forall e :: e in events ==> first <= e.at <= last)
    && (exists e :: e in events && e.at == first)
    && (exists e :: e in events && e.at == last)
  }

  method EventTimestamps(events: seq<Event>) returns (first: int, last: int)
    requires events != []
    ensures SpansTimes(events, first, last)
  {
    first, last := events[0].at, events[0].at;
    for n := 0 to |events|
      invariant forall e :: e in events[..n] ==> first <= e.at <= last
      invariant exists e :: e in events && e.at == first
      invariant exists e :: e in events && e.at == last
    {
      var e := events[n];
      assert e in events;
      assert events[..n + 1] == events[..n] + [e];
      if e.at < first {
        first := e.at;
      }
      if e.at > last {
        last := e.at;
      }
    }
    assert events[..|events|] == events;
  }

  // ----- reconciliation

  /** The column of a live finding, from its ledger. */
  function LiveColumn(f: Finding, events: seq<Event>, now: int): Column {
    if events == [] then ColNew
    else
      var d := DispositionOf(events, now);
      match d.kind
      case Accept => ColAccepted
      case Defer => if d.expired then ColNew else ColWaiting
      case Dismiss => if d.fingerprint != f.fingerprint || d.expired then ColNew else ColDismissed
      case Resolved => PriorColumn(events)
      case Reopened => PriorColumn(events)
      case _ => ColNew
  }

  /** A live finding whose latest event says it was resolved has come back. */
  predicate CameBack(events: seq<Event>) {
    events != [] && Latest(events).kind.Resolved?
  }

  /** An absent finding whose latest event says work on it was accepted, or it had come back, is resolved. */
  predicate WentAway(events: seq<Event>) {
    events != [] && (Latest(events).kind.Accept? || Latest(events).kind.Reopened?)
  }

  function SystemEvent(key: Key, kind: EventType, fingerprint: Fingerprint, now: int, events: seq<Event>): Event {
    Event(key, kind, now, fingerprint, None, None, DescriptorOf(events))
  }

  function ReopenFor(f: Finding, events: seq<Event>, now: int): seq<Event> {
    if CameBack(events) then [SystemEvent(f.key, Reopened, f.fingerprint, now, events)] else []
  }

  function ResolveFor(key: Key, events: seq<Event>, now: int): seq<Event> {
    if WentAway(events) then [SystemEvent(key, Resolved, Latest(events).fingerprint, now, events)] else []
  }

  function LiveEmit(live: seq<Finding>, log: seq<Event>, now: int): seq<Event> {
    if live == [] then []
    else
      var f := live[|live| - 1];
      LiveEmit(live[..|live| - 1], log, now) + ReopenFor(f, EventsOf(log, f.key), now)
  }

  function AbsentEmit(keys: seq<Key>, live: seq<Finding>, log: seq<Event>, now: int): seq<Event> {
    if keys == [] then []
    else
      var k := keys[|keys| - 1];
      AbsentEmit(keys[..|keys| - 1], live, log, now) + if k in LiveKeys(live) then [] else ResolveFor(k, EventsOf(log, k), now)
  }

  function LiveKeys(live: seq<Finding>): (s: set<Key>)
    ensures forall k :: k in s <==> exists i :: 0 <= i < |live| && live[i].key == k
  {
    set i | 0 <= i < |live| :: live[i].key
  }

  /** The system events a reconciliation hands back to be persisted. */
  function Emit(live: seq<Finding>, log: seq<Event>, now: int): seq<Event> {
    LiveEmit(live, log, now) + AbsentEmit(KeysOf(log), live, log, now)
  }

  /** The absent findings that keep a resolved card. */
  function ResolvedKeys(keys: seq<Key>, live: seq<Finding>, log: seq<Event>): seq<Key> {
    if keys == [] then []
    else
      var k := keys[|keys| - 1];
      ResolvedKeys(keys[..|keys| - 1], live, log) +
      if k !in LiveKeys(live) && (WentAway(EventsOf(log, k)) || CameBack(EventsOf(log, k))) then [k] else []
  }

  ghost predicate IsLiveCard(f: Finding, card: Finding, log: seq<Event>, now: int) {
    var events := EventsOf(log, f.key);
    if events == [] then card == f.(column := ColNew, history := [])
    else
      && card == f.(column := LiveColumn(f, events, now), history := events, firstSeen := card.firstSeen, lastSeen := card.lastSeen)
      && SpansTimes(events, card.firstSeen, card.lastSeen)
  }

  ghost predicate IsResolvedCard(key: Key, card: Finding, log: seq<Event>) {
    var events := EventsOf(log, key);
    && events != []
    && card == Finding(key, Latest(events).fingerprint,
                       if DescriptorOf(events).Some? then Shown(DescriptorOf(events).value) else Placeholder,
                       AnyOwner(events), card.firstSeen, card.lastSeen, ColResolved, events)
    && SpansTimes(events, card.firstSeen, card.lastSeen)
  }

  ghost predicate AreLiveCards(live: seq<Finding>, cards: seq<Finding>, log: seq<Event>, now: int) {
    |cards| == |live| &&
    forall i {:trigger IsLiveCard(live[i], cards[i], log, now)} :: 0 <= i < |live| ==> IsLiveCard(live[i], cards[i], log, now)
  }

  ghost predicate AreResolvedCards(resolved: seq<Key>, cards: seq<Finding>, log: seq<Event>) {
    |cards| == |resolved| &&
    forall i {:trigger IsResolvedCard(resolved[i], cards[i], log)} :: 0 <= i < |resolved| ==> IsResolvedCard(resolved[i], cards[i], log)
  }

  /** The cards: the live findings in order, then the resolved ones in ledger order. */
  ghost predicate AreCards(live: seq<Finding>, log: seq<Event>, now: int, cards: seq<Finding>) {
    && |live| <= |cards|
    && AreLiveCards(live, cards[..|live|], log, now)
    && AreResolvedCards(ResolvedKeys(KeysOf(log), live, log), cards[|live|..], log)
  }

  lemma LiveCardsAppend(live: seq<Finding>, cards: seq<Finding>, log: seq<Event>, now: int, f: Finding, card: Finding)
    requires AreLiveCards(live, cards, log, now) && IsLiveCard(f, card, log, now)
    ensures AreLiveCards(live + [f], cards + [card], log, now)
  {
    forall i | 0 <= i < |live| + 1 ensures IsLiveCard((live + [f])[i], (cards + [card])[i], log, now) {
      if i < |live| {
        assert IsLiveCard(live[i], cards[i], log, now);
      }
    }
  }

  lemma ResolvedCardsAppend(keys: seq<Key>, cards: seq<Finding>, log: seq<Event>, k: Key, card: Finding)
    requires AreResolvedCards(keys, cards, log) && IsResolvedCard(k, card, log)
    ensures AreResolvedCards(keys + [k], cards + [card], log)
  {
    forall i | 0 <= i < |keys| + 1 ensures IsResolvedCard((keys + [k])[i], (cards + [card])[i], log) {
      if i < |keys| {
        assert IsResolvedCard(keys[i], cards[i], log);
      }
    }
  }

  // ----- the reconciler

  method LiveCard(f: Finding, events: seq<Event>, ghost log: seq<Event>, now: int)
    returns (card: Finding, reopen: seq<Event>)
    requires events == EventsOf(log, f.key)
    ensures IsLiveCard(f, card, log, now)
    ensures reopen == ReopenFor(f, events, now)
  {
    if events == [] {
      return f.(column := ColNew, history := []), [];
    }
    var first, last := EventTimestamps(events);
    var d := CurrentDisposition(events, now);
    var column;
    reopen := [];
    match d.kind {
      case Accept => column := ColAccepted;
      case Defer => column := if d.expired then ColNew else ColWaiting;
      case Dismiss =>
        var drifted := d.fingerprint != f.fingerprint;
        column := if drifted || d.expired then ColNew else ColDismissed;
      case Resolved =>
        column := PriorHumanDisposition(events);
        var descriptor := LatestDescriptor(events);
        reopen := [Event(f.key, Reopened, now, f.fingerprint, None, None, descriptor)];
      case Reopened => column := PriorHumanDisposition(events);
      case _ => column := ColNew;
    }
    card := f.(column := column, history := events, firstSeen := first, lastSeen := last);
  }

  method SkeletonFinding(key: Key, events: seq<Event>, ghost log: seq<Event>) returns (card: Finding)
    requires events == EventsOf(log, key) && events != []
    ensures IsResolvedCard(key, card, log)
  {
    var first, last := EventTimestamps(events);
    var descriptor := LatestDescriptor(events);
    card := Finding(key, Latest(events).fingerprint,
                    if descriptor.Some? then Shown(descriptor.value) else Placeholder,
                    AnyOwner(events), first, last, ColResolved, events);
  }

  ghost predicate IsLedger(log: seq<Event>, keys: seq<Key>, byFinding: map<Key, seq<Event>>) {
    && keys == KeysOf(log)
    && (forall k :: k in byFinding <==> k in keys)
    && (forall k :: k in byFinding ==> byFinding[k] == EventsOf(log, k) && byFinding[k] != [])
  }

  /** The live findings dealt with so far: their cards, their reopenings and their keys. */
  ghost predicate LiveSoFar(live: seq<Finding>, cards: seq<Finding>, emit: seq<Event>, byKey: set<Key>, log: seq<Event>, now: int) {
    AreLiveCards(live, cards, log, now) && emit == LiveEmit(live, log, now) && byKey == LiveKeys(live)
  }

  lemma OneMoreLive(live: seq<Finding>, n: nat, cards: seq<Finding>, emit: seq<Event>, byKey: set<Key>, log: seq<Event>, now: int,
                    card: Finding)
    requires n < |live| && LiveSoFar(live[..n], cards, emit, byKey, log, now) && IsLiveCard(live[n], card, log, now)
    ensures
      LiveSoFar(live[..n + 1], cards + [card], emit + ReopenFor(live[n], EventsOf(log, live[n].key), now), byKey + {live[n].key},
                log, now)
  {
    var f := live[n];
    PrefixStep(live, n);
    LiveCardsAppend(live[..n], cards, log, now, f, card);
    assert live[..n + 1][..n] == live[..n];
    forall k ensures k in LiveKeys(live[..n + 1]) <==> k in byKey + {f.key} {
      assert live[..n + 1][n] == f;
      if k in byKey {
        var i :| 0 <= i < n && live[..n][i].key == k;
        assert live[..n + 1][i].key == k;
      }
    }
  }

  function Recorded(byFinding: map<Key, seq<Event>>, key: Key): seq<Event> {
    if key in byFinding then byFinding[key] else []
  }

  lemma RecordedIsLog(log: seq<Event>, byFinding: map<Key, seq<Event>>, key: Key)
    requires IsLedger(log, KeysOf(log), byFinding)
    ensures Recorded(byFinding, key) == EventsOf(log, key)
  {
    UnrecordedHasNoEvents(log, key);
  }

  /** Cases A and B: every live finding, with or without a ledger. */
  method ReconcileLive(live: seq<Finding>, byFinding: map<Key, seq<Event>>, now: int, ghost log: seq<Event>)
    returns (cards: seq<Finding>, emit: seq<Event>, liveByKey: set<Key>)
    requires IsLedger(log, KeysOf(log), byFinding)
    ensures AreLiveCards(live, cards, log, now)
    ensures emit == LiveEmit(live, log, now) && liveByKey == LiveKeys(live)
  {
    cards, emit, liveByKey := [], [], {};
    for n := 0 to |live|
      invariant LiveSoFar(live[..n], cards, emit, liveByKey, log, now)
    {
      var f := live[n];
      RecordedIsLog(log, byFinding, f.key);
      var card, reopen := LiveCard(f, Recorded(byFinding, f.key), log, now);
      OneMoreLive(live, n, cards, emit, liveByKey, log, now, card);
      liveByKey := liveByKey + {f.key};
      cards, emit := cards + [card], emit + reopen;
    }
    assert live[..|live|] == live;
  }

  /** The absent findings dealt with so far: their resolutions and the cards that stay. */
  ghost predicate AbsentSoFar(keys: seq<Key>, live: seq<Finding>, log: seq<Event>, now: int, cards: seq<Finding>, emit: seq<Event>) {
    emit == AbsentEmit(keys, live, log, now) && AreResolvedCards(ResolvedKeys(keys, live, log), cards, log)
  }

  /** One more ledger key: its card stays when it is absent and was resolved or just went away. */
  lemma OneMoreKey(keys: seq<Key>, live: seq<Finding>, log: seq<Event>, now: int, cards: seq<Finding>, emit: seq<Event>,
                   k: Key, card: Option<Finding>)
    requires AbsentSoFar(keys, live, log, now, cards, emit)
    requires card.Some? <==> ResolvedKeys([k], live, log) == [k]
    requires card.Some? ==> IsResolvedCard(k, card.value, log)
    ensures AbsentSoFar(keys + [k], live, log, now, if card.Some? then cards + [card.value] else cards,
                        emit + if k in LiveKeys(live) then [] else ResolveFor(k, EventsOf(log, k), now))
  {
    assert (keys + [k])[..|keys|] == keys && [k][..0] == [];
    if card.Some? {
      ResolvedCardsAppend(ResolvedKeys(keys, live, log), cards, log, k, card.value);
    }
  }

  /** An absent finding's resolution, if it just went away, and its card, if it keeps one. */
  method AbsentCard(k: Key, events: seq<Event>, now: int, ghost live: seq<Finding>, ghost log: seq<Event>)
    returns (card: Option<Finding>, resolve: seq<Event>)
    requires events == EventsOf(log, k) && events != [] && k !in LiveKeys(live)
    ensures resolve == ResolveFor(k, events, now)
    ensures card.Some? <==> ResolvedKeys([k], live, log) == [k]
    ensures card.Some? ==> IsResolvedCard(k, card.value, log)
  {
    assert [k][..0] == [];
    card, resolve := None, [];
    var d := CurrentDisposition(events, now);
    if d.kind.Accept? || d.kind.Reopened? {
      var descriptor := LatestDescriptor(events);
      resolve := [Event(k, Resolved, now, d.fingerprint, None, None, descriptor)];
      var skeleton := SkeletonFinding(k, events, log);
      card := Some(skeleton);
    } else if d.kind.Resolved? {
      var skeleton := SkeletonFinding(k, events, log);
      card := Some(skeleton);
    }
  }

  /** Case C: the ledger's findings that are not live. */
  method ReconcileAbsent(live: seq<Finding>, keys: seq<Key>, byFinding: map<Key, seq<Event>>, now: int,
                         liveByKey: set<Key>, ghost log: seq<Event>)
    returns (cards: seq<Finding>, emit: seq<Event>)
    requires IsLedger(log, keys, byFinding) && liveByKey == LiveKeys(live)
    ensures AreResolvedCards(ResolvedKeys(keys, live, log), cards, log)
    ensures emit == AbsentEmit(keys, live, log, now)
  {
    cards, emit := [], [];
    for n := 0 to |keys|
      invariant AbsentSoFar(keys[..n], live, log, now, cards, emit)
    {
      var k := keys[n];
      PrefixStep(keys, n);
      if k in liveByKey {
        LiveKeyKeepsNothing(k, live, log);
        OneMoreKey(keys[..n], live, log, now, cards, emit, k, None);
        continue;
      }
      var card, resolve := AbsentCard(k, byFinding[k], now, live, log);
      OneMoreKey(keys[..n], live, log, now, cards, emit, k, card);
      emit := emit + resolve;
      if card.Some? {
        cards := cards + [card.value];
      }
    }
    assert keys[..|keys|] == keys;
  }

  lemma LiveKeyKeepsNothing(k: Key, live: seq<Finding>, log: seq<Event>)
    requires k in LiveKeys(live)
    ensures ResolvedKeys([k], live, log) == []
  {
    assert [k][..0] == [];
  }

  method Reconcile(live: seq<Finding>, keys: seq<Key>, byFinding: map<Key, seq<Event>>, now: int, ghost log: seq<Event>)
    returns (cards: seq<Finding>, emit: seq<Event>)
    requires IsLedger(log, keys, byFinding)
    ensures AreCards(live, log, now, cards)
    ensures emit == Emit(live, log, now)
  {
    var liveCards, reopens, liveByKey := ReconcileLive(live, byFinding, now, log);
    var resolvedCards, resolves := ReconcileAbsent(live, keys, byFinding, now, liveByKey, log);
    cards, emit := liveCards + resolvedCards, reopens + resolves;
    assert cards[..|live|] == liveCards && cards[|live|..] == resolvedCards;
  }

  lemma {:induction false} UnrecordedHasNoEvents(log: seq<Event>, key: Key)
    ensures key in KeysOf(log) <==> EventsOf(log, key) != []
  {
    if log != [] {
      UnrecordedHasNoEvents(log[..|log| - 1], key);
    }
  }

  // ----- what persisting the emitted events does to each finding's history

  lemma {:induction false} LiveEmitOf(live: seq<Finding>, log: seq<Event>, now: int, key: Key)
    ensures forall e :: e in EventsOf(LiveEmit(live, log, now), key) ==> e.kind.Reopened?
    ensures |EventsOf(LiveEmit(live, log, now), key)| == if CameBack(EventsOf(log, key)) then Occurrences(live, key) else 0
  {
    if live != [] {
      var front, f := live[..|live| - 1], live[|live| - 1];
      LiveEmitOf(front, log, now, key);
      var reopen := ReopenFor(f, EventsOf(log, f.key), now);
      EventsOfAppend(LiveEmit(front, log, now), reopen, key);
      EventsOfShort(reopen, key);
    }
  }

  /** How often `key` is reported live. */
  function Occurrences(live: seq<Finding>, key: Key): nat {
    if live == [] then 0
    else Occurrences(live[..|live| - 1], key) + if live[|live| - 1].key == key then 1 else 0
  }

  lemma {:induction false} OccursIffLive(live: seq<Finding>, key: Key)
    ensures Occurrences(live, key) > 0 <==> key in LiveKeys(live)
  {
    if live != [] {
      var front := live[..|live| - 1];
      OccursIffLive(front, key);
      if key in LiveKeys(front) {
        var i :| 0 <= i < |front| && front[i].key == key;
        assert live[i].key == key;
      }
    }
  }

  lemma EventsOfShort(events: seq<Event>, key: Key)
    requires |events| <= 1
    ensures EventsOf(events, key) == if events != [] && events[0].findingId == key then events else []
  {
    if events != [] {
      assert events[..0] == [];
      assert events == [events[0]];
    }
  }

  /** A resolution is an event of its own finding. */
  lemma ResolutionIsOwn(k: Key, events: seq<Event>, now: int, key: Key)
    ensures EventsOf(ResolveFor(k, events, now), key) == if k == key then ResolveFor(k, events, now) else []
  {
    EventsOfShort(ResolveFor(k, events, now), key);
  }

  lemma OneMoreAbsent(keys: seq<Key>, k: Key, live: seq<Finding>, log: seq<Event>, now: int, key: Key)
    ensures
      var emitted := AbsentEmit(keys, live, log, now);
      EventsOf(AbsentEmit(keys + [k], live, log, now), key) ==
      EventsOf(emitted, key) + if k == key && k !in LiveKeys(live) then ResolveFor(k, EventsOf(log, k), now) else []
  {
    assert (keys + [k])[..|keys|] == keys;
    var resolve := if k in LiveKeys(live) then [] else ResolveFor(k, EventsOf(log, k), now);
    EventsOfAppend(AbsentEmit(keys, live, log, now), resolve, key);
    if k !in LiveKeys(live) {
      ResolutionIsOwn(k, EventsOf(log, k), now, key);
    }
  }

  lemma {:induction false} AbsentEmitOf(keys: seq<Key>, live: seq<Finding>, log: seq<Event>, now: int, key: Key)
    requires Distinct(keys)
    ensures EventsOf(AbsentEmit(keys, live, log, now), key) ==
            if key in keys && key !in LiveKeys(live) then ResolveFor(key, EventsOf(log, key), now) else []
  {
    if keys != [] {
      var front, k := keys[..|keys| - 1], keys[|keys| - 1];
      assert keys == front + [k] && (key == k ==> key !in front);
      AbsentEmitOf(front, live, log, now, key);
      OneMoreAbsent(front, k, live, log, now, key);
    }
  }

  /** A finding that came back is reopened once per time it is reported; one that went away is resolved
      once; every other history stays as it was. */
  lemma EmitOf(live: seq<Finding>, log: seq<Event>, now: int, key: Key)
    ensures
      var events, added := EventsOf(log, key), EventsOf(Emit(live, log, now), key);
      && EventsOf(log + Emit(live, log, now), key) == events + added
      && (key in LiveKeys(live) ==>
            (forall e :: e in added ==> e.kind.Reopened?) && |added| == if CameBack(events) then Occurrences(live, key) else 0)
      && (key !in LiveKeys(live) ==> added == ResolveFor(key, events, now))
  {
    EventsOfAppend(log, Emit(live, log, now), key);
    EventsOfAppend(LiveEmit(live, log, now), AbsentEmit(KeysOf(log), live, log, now), key);
    LiveEmitOf(live, log, now, key);
    AbsentEmitOf(KeysOf(log), live, log, now, key);
    OccursIffLive(live, key);
    UnrecordedHasNoEvents(log, key);
  }

  // ----- idempotence

  lemma {:induction false} HumanColumnIgnoresSystem(events: seq<Event>, added: seq<Event>)
    requires forall e :: e in added ==> IsMarker(e)
    ensures HumanColumn(events + added) == HumanColumn(events)
  {
    if added == [] {
      assert events + added == events;
    } else {
      HumanColumnIgnoresSystem(events, added[..|added| - 1]);
      assert Latest(events + added) == Latest(added) && Latest(added) in added;
      assert (events + added)[..|events + added| - 1] == events + added[..|added| - 1];
    }
  }

  /** Reopening markers after a resolution change nothing about the column to go back to. */
  lemma PriorColumnIgnoresReopens(events: seq<Event>, added: seq<Event>)
    requires CameBack(events) && forall e :: e in added ==> e.kind.Reopened?
    ensures PriorColumn(events + added) == PriorColumn(events)
  {
    if added == [] {
      assert events + added == events;
    } else {
      HumanColumnIgnoresSystem(events[..|events| - 1], [Latest(events)] + added[..|added| - 1]);
      assert (events + added)[..|events + added| - 1] == events[..|events| - 1] + ([Latest(events)] + added[..|added| - 1]);
      assert Latest(events + added) == Latest(added) && Latest(added) in added;
    }
  }

  lemma SecondRunSettled(live: seq<Finding>, log: seq<Event>, now: int, key: Key)
    ensures
      var log' := log + Emit(live, log, now);
      && (key in LiveKeys(live) ==> !CameBack(EventsOf(log', key)))
      && (key !in LiveKeys(live) ==>
            && !WentAway(EventsOf(log', key))
            && (CameBack(EventsOf(log', key)) <==> WentAway(EventsOf(log, key)) || CameBack(EventsOf(log, key))))
  {
    EmitOf(live, log, now, key);
    OccursIffLive(live, key);
    var events, added := EventsOf(log, key), EventsOf(Emit(live, log, now), key);
    if added != [] {
      assert Latest(events + added) == Latest(added) && Latest(added) in added;
    } else {
      assert events + added == events;
    }
  }

  lemma {:induction false} NoReopens(live: seq<Finding>, n: nat, log: seq<Event>, now: int)
    requires n <= |live| && forall k :: k in LiveKeys(live) ==> !CameBack(EventsOf(log, k))
    ensures LiveEmit(live[..n], log, now) == []
  {
    if n > 0 {
      NoReopens(live, n - 1, log, now);
      assert live[..n][..n - 1] == live[..n - 1];
      assert live[n - 1].key in LiveKeys(live);
    }
  }

  lemma {:induction false} NoResolves(keys: seq<Key>, live: seq<Finding>, log: seq<Event>, now: int)
    requires forall k :: k !in LiveKeys(live) ==> !WentAway(EventsOf(log, k))
    ensures AbsentEmit(keys, live, log, now) == []
  {
    if keys != [] {
      NoResolves(keys[..|keys| - 1], live, log, now);
    }
  }

  /** Reconciling again after persisting what the first run emitted emits nothing. */
  lemma SecondRunEmitsNothing(live: seq<Finding>, log: seq<Event>, now: int, later: int)
    ensures Emit(live, log + Emit(live, log, now), later) == []
  {
    var log' := log + Emit(live, log, now);
    forall k ensures (k in LiveKeys(live) ==> !CameBack(EventsOf(log', k))) && (k !in LiveKeys(live) ==> !WentAway(EventsOf(log', k))) {
      SecondRunSettled(live, log, now, k);
    }
    NoReopens(live, |live|, log', later);
    assert live[..|live|] == live;
    NoResolves(KeysOf(log'), live, log', later);
  }

  lemma {:induction false} NoNewKeys(log: seq<Event>, added: seq<Event>)
    requires forall e :: e in added ==> e.findingId in KeysOf(log)
    ensures KeysOf(log + added) == KeysOf(log)
  {
    if added == [] {
      assert log + added == log;
    } else {
      NoNewKeys(log, added[..|added| - 1]);
      assert (log + added)[..|log + added| - 1] == log + added[..|added| - 1];
      assert Latest(log + added) == Latest(added) && Latest(added) in added;
    }
  }

  lemma EmitsForRecordedOnly(live: seq<Finding>, log: seq<Event>, now: int)
    ensures forall e :: e in Emit(live, log, now) ==> e.findingId in KeysOf(log)
  {
    forall e | e in Emit(live, log, now) ensures e.findingId in KeysOf(log) {
      var k := e.findingId;
      InEventsOf(Emit(live, log, now), e);
      EmitOf(live, log, now, k);
      UnrecordedHasNoEvents(log, k);
    }
  }

  lemma {:induction false} InEventsOf(log: seq<Event>, e: Event)
    requires e in log
    ensures e in EventsOf(log, e.findingId)
  {
    if log[|log| - 1] != e {
      assert log == log[..|log| - 1] + [log[|log| - 1]];
      InEventsOf(log[..|log| - 1], e);
    }
  }

  lemma {:induction false} ResolvedKeysStay(keys: seq<Key>, live: seq<Finding>, log: seq<Event>, now: int)
    ensures ResolvedKeys(keys, live, log + Emit(live, log, now)) == ResolvedKeys(keys, live, log)
  {
    if keys != [] {
      ResolvedKeysStay(keys[..|keys| - 1], live, log, now);
      SecondRunSettled(live, log, now, keys[|keys| - 1]);
    }
  }

  lemma LiveColumnStays(live: seq<Finding>, log: seq<Event>, now: int, i: nat)
    requires i < |live|
    ensures LiveColumn(live[i], EventsOf(log + Emit(live, log, now), live[i].key), now) ==
            LiveColumn(live[i], EventsOf(log, live[i].key), now)
  {
    var key := live[i].key;
    EmitOf(live, log, now, key);
    OccursIffLive(live, key);
    var events, added := EventsOf(log, key), EventsOf(Emit(live, log, now), key);
    if added == [] {
      assert events + added == events;
    } else {
      PriorColumnIgnoresReopens(events, added);
      assert Latest(events + added) == Latest(added) && Latest(added) in added;
    }
  }

  lemma SameResolvedKeys(live: seq<Finding>, log: seq<Event>, now: int)
    ensures
      var log' := log + Emit(live, log, now);
      ResolvedKeys(KeysOf(log'), live, log') == ResolvedKeys(KeysOf(log), live, log)
  {
    EmitsForRecordedOnly(live, log, now);
    NoNewKeys(log, Emit(live, log, now));
    ResolvedKeysStay(KeysOf(log), live, log, now);
  }

  /** Reconciling again at the same instant, after persisting, shows the same cards in the same columns. */
  lemma SecondRunKeepsColumns(live: seq<Finding>, log: seq<Event>, now: int, cards: seq<Finding>, cards': seq<Finding>)
    requires AreCards(live, log, now, cards)
    requires AreCards(live, log + Emit(live, log, now), now, cards')
    ensures |cards'| == |cards|
    ensures forall i :: 0 <= i < |cards| ==> cards'[i].key == cards[i].key && cards'[i].column == cards[i].column
  {
    SameResolvedKeys(live, log, now);
    CardCount(live, log, now, cards);
    CardCount(live, log + Emit(live, log, now), now, cards');
    forall i | 0 <= i < |cards| ensures cards'[i].key == cards[i].key && cards'[i].column == cards[i].column {
      CardKeepsColumn(live, log, now, cards, cards', i);
    }
  }

  lemma CardCount(live: seq<Finding>, log: seq<Event>, now: int, cards: seq<Finding>)
    requires AreCards(live, log, now, cards)
    ensures |cards| == |live| + |ResolvedKeys(KeysOf(log), live, log)|
  {
  }

  lemma CardKeepsColumn(live: seq<Finding>, log: seq<Event>, now: int, cards: seq<Finding>, cards': seq<Finding>, i: nat)
    requires AreCards(live, log, now, cards) && i < |cards| == |cards'|
    requires AreCards(live, log + Emit(live, log, now), now, cards')
    ensures cards'[i].key == cards[i].key && cards'[i].column == cards[i].column
  {
    if i < |live| {
      LiveCardKeepsColumn(live, log, now, cards, cards', i);
    } else {
      ResolvedCardKeepsColumn(live, log, now, cards, cards', i - |live|);
    }
  }

  lemma LiveCardKeepsColumn(live: seq<Finding>, log: seq<Event>, now: int, cards: seq<Finding>, cards': seq<Finding>, i: nat)
    requires i < |live|
    requires AreCards(live, log, now, cards) && AreCards(live, log + Emit(live, log, now), now, cards')
    ensures cards'[i].key == cards[i].key && cards'[i].column == cards[i].column
  {
    LiveColumnStays(live, log, now, i);
    LiveCardColumn(live, log, now, cards, i);
    LiveCardColumn(live, log + Emit(live, log, now), now, cards', i);
  }

  lemma ResolvedCardKeepsColumn(live: seq<Finding>, log: seq<Event>, now: int, cards: seq<Finding>, cards': seq<Finding>, i: nat)
    requires AreCards(live, log, now, cards) && i < |cards| - |live| && |cards| == |cards'|
    requires AreCards(live, log + Emit(live, log, now), now, cards')
    ensures cards'[|live| + i].key == cards[|live| + i].key && cards'[|live| + i].column == cards[|live| + i].column
  {
    SameResolvedKeys(live, log, now);
    ResolvedCardColumn(live, log, now, cards, i);
    ResolvedCardColumn(live, log + Emit(live, log, now), now, cards', i);
  }

  lemma LiveCardColumn(live: seq<Finding>, log: seq<Event>, now: int, cards: seq<Finding>, i: nat)
    requires AreCards(live, log, now, cards) && i < |live|
    ensures cards[i].key == live[i].key && cards[i].column == LiveColumn(live[i], EventsOf(log, live[i].key), now)
  {
    assert IsLiveCard(live[i], cards[..|live|][i], log, now);
  }

  lemma ResolvedCardColumn(live: seq<Finding>, log: seq<Event>, now: int, cards: seq<Finding>, i: nat)
    requires AreCards(live, log, now, cards) && i < |cards| - |live|
    ensures cards[|live| + i].key == ResolvedKeys(KeysOf(log), live, log)[i] && cards[|live| + i].column == ColResolved
  {
    assert IsResolvedCard(ResolvedKeys(KeysOf(log), live, log)[i], cards[|live|..][i], log);
  }

  // ----- what a card shows, told from the finding's events

  /** The last event that is `such` is number `i`. */
  ghost predicate LastSuch(events: seq<Event>, such: Event -> bool, i: nat) {
    i < |events| && such(events[i]) && forall j :: i < j < |events| ==> !such(events[j])
  }

  ghost predicate NoneSuch(events: seq<Event>, such: Event -> bool) {
    forall e :: e in events ==> !such(e)
  }

  lemma LastSuchSnoc(events: seq<Event>, such: Event -> bool, i: nat)
    requires events != []
    ensures
      var n := |events| - 1;
      && (NoneSuch(events, such) <==> NoneSuch(events[..n], such) && !such(events[n]))
      && (LastSuch(events, such, i) <==> if such(events[n]) then i == n else LastSuch(events[..n], such, i))
  {
    var front, last := events[..|events| - 1], events[|events| - 1];
    assert events == front + [last] && last in events;
    assert forall e :: e in events <==> e in front || e == last;
    if LastSuch(events, such, i) && i < |front| {
      assert events[|front|] == last;
    }
  }

  /** An accept, deferral or dismissal; what a reopened finding goes back to. */
  predicate Decides(e: Event) {
    e.kind.Accept? || e.kind.Defer? || e.kind.Dismiss?
  }

  lemma {:induction false} HumanColumnMeans(events: seq<Event>, i: nat)
    ensures NoneSuch(events, Decides) ==> HumanColumn(events) == ColNew
    ensures LastSuch(events, Decides, i) ==>
      && (HumanColumn(events) == ColAccepted <==> events[i].kind.Accept?)
      && (HumanColumn(events) == ColWaiting <==> events[i].kind.Defer?)
      && (HumanColumn(events) == ColDismissed <==> events[i].kind.Dismiss?)
  {
    if events != [] {
      LastSuchSnoc(events, Decides, i);
      HumanColumnMeans(events[..|events| - 1], i);
    }
  }

  /** Its time has not run out: it has none, or not before now. */
  predicate Runs(e: Event, now: int) {
    e.expiry.None? || e.expiry.value >= now
  }

  /** Where a live finding's card stands: with no events, or none that decides, it is new; a deferral holds it
      waiting and a dismissal of what it still is holds it dismissed, until its time runs out; an accept holds. */
  lemma CardShows(f: Finding, card: Finding, log: seq<Event>, now: int)
    requires IsLiveCard(f, card, log, now)
    ensures card.key == f.key && card.fingerprint == f.fingerprint && card.history == EventsOf(log, f.key)
    ensures EventsOf(log, f.key) == [] ==> card.column == ColNew
    ensures
      var events := EventsOf(log, f.key);
      events != [] && !IsMarker(Latest(events)) ==>
        var last := Latest(events);
        && (card.column == ColWaiting <==> last.kind.Defer? && Runs(last, now))
        && (card.column == ColDismissed <==> last.kind.Dismiss? && last.fingerprint == f.fingerprint && Runs(last, now))
        && (card.column == ColAccepted <==> last.kind.Accept?)
        && card.column != ColResolved
  {
  }

  /** A finding that was resolved or came back stands where its last decision before that had put it. */
  lemma ReturnedCardShows(f: Finding, card: Finding, log: seq<Event>, now: int, i: nat)
    requires IsLiveCard(f, card, log, now)
    requires EventsOf(log, f.key) != [] && (Latest(EventsOf(log, f.key)).kind.Resolved? || Latest(EventsOf(log, f.key)).kind.Reopened?)
    ensures
      var before := EventsOf(log, f.key)[..|EventsOf(log, f.key)| - 1];
      && (NoneSuch(before, Decides) ==> card.column == ColNew)
      && (LastSuch(before, Decides, i) ==>
            && (card.column == ColAccepted <==> before[i].kind.Accept?)
            && (card.column == ColWaiting <==> before[i].kind.Defer?)
            && (card.column == ColDismissed <==> before[i].kind.Dismiss?))
  {
    HumanColumnMeans(EventsOf(log, f.key)[..|EventsOf(log, f.key)| - 1], i);
  }

  /** Time alone moves a card only out of waiting or dismissed, and only to new. */
  lemma TimeOnlyFrees(f: Finding, card: Finding, card': Finding, log: seq<Event>, now: int, now': int)
    requires now <= now' && IsLiveCard(f, card, log, now) && IsLiveCard(f, card', log, now')
    ensures card'.column != card.column ==> card.column in {ColWaiting, ColDismissed} && card'.column == ColNew
  {
    CardShows(f, card, log, now);
    CardShows(f, card', log, now');
  }

  predicate SetsExpiry(e: Event) {
    e.kind.Defer? || e.kind.Dismiss? || e.kind.Accept? || e.kind.Resolved?
  }

  predicate SetsOwner(e: Event) {
    e.kind.Reassign? && e.owner.Some?
  }

  predicate HasOwner(e: Event) {
    e.owner.Some?
  }

  predicate HasDescriptor(e: Event) {
    e.descriptor.Some?
  }

  lemma {:induction false} FoldsMean(events: seq<Event>, x: nat, o: nat, a: nat, d: nat)
    ensures LastSuch(events, SetsExpiry, x) ==>
      StandingExpiry(events) == if events[x].kind.Defer? || events[x].kind.Dismiss? then events[x].expiry else None
    ensures NoneSuch(events, SetsExpiry) ==> StandingExpiry(events).None?
    ensures LastSuch(events, SetsOwner, o) ==> LatestOwner(events) == events[o].owner
    ensures NoneSuch(events, SetsOwner) ==> LatestOwner(events).None?
    ensures LastSuch(events, HasOwner, a) ==> Some(AnyOwner(events)) == events[a].owner
    ensures NoneSuch(events, HasOwner) ==> AnyOwner(events) == ""
    ensures LastSuch(events, HasDescriptor, d) ==> DescriptorOf(events) == events[d].descriptor
    ensures NoneSuch(events, HasDescriptor) ==> DescriptorOf(events).None?
  {
    if events != [] {
      LastSuchSnoc(events, SetsExpiry, x);
      LastSuchSnoc(events, SetsOwner, o);
      LastSuchSnoc(events, HasOwner, a);
      LastSuchSnoc(events, HasDescriptor, d);
      FoldsMean(events[..|events| - 1], x, o, a, d);
    }
  }

  /** What a finding's disposition says: the latest event's kind and fingerprint, the owner it was last reassigned
      to, and the time set by the last deferral or dismissal, unless an accept or a resolution came after it. */
  lemma DispositionMeans(events: seq<Event>, now: int, x: nat, o: nat)
    requires events != []
    ensures
      var d := DispositionOf(events, now);
      && d.kind == events[|events| - 1].kind && d.fingerprint == events[|events| - 1].fingerprint
      && (LastSuch(events, SetsOwner, o) ==> d.owner == events[o].owner)
      && (NoneSuch(events, SetsOwner) ==> d.owner.None?)
      && (LastSuch(events, SetsExpiry, x) ==>
            d.expiry == if events[x].kind.Defer? || events[x].kind.Dismiss? then events[x].expiry else None)
      && (NoneSuch(events, SetsExpiry) ==> d.expiry.None?)
      && (d.expired <==> d.expiry.Some? && d.expiry.value < now)
  {
    FoldsMean(events, x, o, 0, 0);
  }

  /** What an absent finding's card shows: its latest fingerprint, and the last owner and description on record. */
  lemma ResolvedCardShows(key: Key, card: Finding, log: seq<Event>, a: nat, d: nat)
    requires IsResolvedCard(key, card, log)
    ensures
      var events := EventsOf(log, key);
      && card.key == key && card.column == ColResolved && card.history == events
      && card.fingerprint == events[|events| - 1].fingerprint
      && (LastSuch(events, HasOwner, a) ==> Some(card.owner) == events[a].owner)
      && (NoneSuch(events, HasOwner) ==> card.owner == "")
      && (LastSuch(events, HasDescriptor, d) ==> card.detail == Shown(events[d].descriptor.value))
      && (NoneSuch(events, HasDescriptor) ==> card.detail == Placeholder)
  {
    FoldsMean(EventsOf(log, key), 0, 0, a, d);
  }

  /** A system event says what happened now to whom: a reopening shows the finding as reported, a resolution as it
      was last seen. */
  ghost predicate Says(e: Event, live: seq<Finding>, log: seq<Event>, now: int) {
    && e.at == now && e.expiry.None? && e.owner.None?
    && (e.kind.Reopened? ==> exists f :: f in live && f.key == e.findingId && f.fingerprint == e.fingerprint)
    && (e.kind.Resolved? ==>
          EventsOf(log, e.findingId) != [] && e.fingerprint == Latest(EventsOf(log, e.findingId)).fingerprint)
  }

  lemma {:induction false} LiveEmitSays(live: seq<Finding>, log: seq<Event>, now: int)
    ensures forall e :: e in LiveEmit(live, log, now) ==> e.kind.Reopened? && Says(e, live, log, now)
  {
    if live != [] {
      var front, f := live[..|live| - 1], live[|live| - 1];
      LiveEmitSays(front, log, now);
      assert live == front + [f];
      forall e | e in LiveEmit(live, log, now) ensures e.kind.Reopened? && Says(e, live, log, now) {
        if e in LiveEmit(front, log, now) {
          var g :| g in front && g.key == e.findingId && g.fingerprint == e.fingerprint;
          assert g in live;
        } else {
          assert f in live;
        }
      }
    }
  }

  lemma {:induction false} AbsentEmitSays(keys: seq<Key>, live: seq<Finding>, log: seq<Event>, now: int)
    ensures forall e :: e in AbsentEmit(keys, live, log, now) ==> e.kind.Resolved? && Says(e, live, log, now)
  {
    if keys != [] {
      AbsentEmitSays(keys[..|keys| - 1], live, log, now);
    }
  }

  lemma EmittedSays(live: seq<Finding>, log: seq<Event>, now: int)
    ensures forall e :: e in Emit(live, log, now) ==> Says(e, live, log, now)
  {
    LiveEmitSays(live, log, now);
    AbsentEmitSays(KeysOf(log), live, log, now);
  }

  // ----- one card a key

  ghost predicate OnePerKey(live: seq<Finding>) {
    forall i, j :: 0 <= i < j < |live| ==> live[i].key != live[j].key
  }

  lemma {:induction false} ResolvedKeysAreAbsent(keys: seq<Key>, live: seq<Finding>, log: seq<Event>)
    requires Distinct(keys)
    ensures Distinct(ResolvedKeys(keys, live, log))
    ensures forall k :: k in ResolvedKeys(keys, live, log) ==> k in keys && k !in LiveKeys(live)
  {
    if keys != [] {
      ResolvedKeysAreAbsent(keys[..|keys| - 1], live, log);
    }
  }

  /** The keys of the cards: those of the live findings, then those of the absent findings that stay. */
  lemma CardKeys(live: seq<Finding>, log: seq<Event>, now: int, cards: seq<Finding>, i: nat)
    requires AreCards(live, log, now, cards) && i < |cards|
    ensures |cards| == |live| + |ResolvedKeys(KeysOf(log), live, log)|
    ensures cards[i].key == if i < |live| then live[i].key else ResolvedKeys(KeysOf(log), live, log)[i - |live|]
  {
    if i < |live| {
      LiveCardColumn(live, log, now, cards, i);
    } else {
      ResolvedCardColumn(live, log, now, cards, i - |live|);
    }
  }

  /** The cards show each finding once exactly when the detectors report each finding once. */
  lemma OneCardPerKeyExactly(live: seq<Finding>, log: seq<Event>, now: int, cards: seq<Finding>)
    requires AreCards(live, log, now, cards)
    ensures OnePerKey(cards) <==> OnePerKey(live)
  {
    ResolvedKeysAreAbsent(KeysOf(log), live, log);
    forall i, j | 0 <= i < j < |cards| ensures cards[i].key == cards[j].key <==> j < |live| && live[i].key == live[j].key {
      CardKeys(live, log, now, cards, i);
      CardKeys(live, log, now, cards, j);
      if i < |live| <= j {
        assert live[i].key in LiveKeys(live);
        assert ResolvedKeys(KeysOf(log), live, log)[j - |live|] in ResolvedKeys(KeysOf(log), live, log);
      }
    }
  }

  /** A finding reported twice is shown twice, on any ledger. */
  lemma ReportedTwiceIsShownTwice(f: Finding, log: seq<Event>, now: int, cards: seq<Finding>)
    requires AreCards([f, f], log, now, cards)
    ensures !OnePerKey(cards) && cards[0].key == cards[1].key == f.key
  {
    OneCardPerKeyExactly([f, f], log, now, cards);
    CardKeys([f, f], log, now, cards, 0);
    CardKeys([f, f], log, now, cards, 1);
  }
}

/** One session's work queue: due edges and unprocessed documents under a compute budget, in four slices. */
module Priority {
  import opened Base
  import opened EdgeTypes
  import opened Sorting

  datatype Reason = Backstop | Decay | Event

  datatype Due = Due(fromPath: Path, toPath: Path, strength: real, reason: Reason)

  datatype Slice = BackstopSlice | MainSlice | PeripherySlice

  datatype QueueItem =
    | EdgeItem(fromPath: Path, toPath: Path, reason: Reason, slice: Slice)
    | BirthItem(path: Path)

  function Key(d: Due): (Path, Path) {
    (d.fromPath, d.toPath)
  }

  function Rank(r: Reason): nat {
    match r
    case Backstop => 3
    case Event => 2
    case Decay => 1
  }

  function Min(a: nat, b: nat): nat {
    if a <= b then a else b
  }

  /** Slots reserved by a slice with `percent` of the budget: at least one whenever there is a budget. */
  function Slot(budget: nat, percent: nat): nat {
    if budget * percent == 0 then 0 else if budget * percent / 100 < 1 then 1 else budget * percent / 100
  }

  const BACKSTOP_PERCENT: nat := 25
  const PERIPHERY_PERCENT: nat := 15
  const BIRTH_PERCENT: nat := 15

  // ----- how many of each are served

  datatype Served = Served(backstop: nat, periphery: nat, main: nat, birth: nat)

  ghost function Total(s: Served): nat {
    s.backstop + s.periphery + s.main + s.birth
  }

  /** The split of a budget between overdue edges, other due edges and births waiting. */
  function Allocate(budget: nat, overdue: nat, others: nat, births: nat): Served {
    var reservedPeriphery := Min(Slot(budget, PERIPHERY_PERCENT), others);
    var reservedBirth := Min(Slot(budget, BIRTH_PERCENT), births);
    var base := Min(Min(Slot(budget, BACKSTOP_PERCENT), overdue), budget);
    var room := if budget < base + reservedPeriphery + reservedBirth then 0
                else budget - base - reservedPeriphery - reservedBirth;
    var backstop := base + Min(overdue - base, room);
    var periphery := Min(reservedPeriphery, budget - backstop);
    var rest := budget - backstop - periphery;
    var main := Min(others - periphery, if rest < reservedBirth then 0 else rest - reservedBirth);
    Served(backstop, periphery, main, Min(births, rest - main))
  }

  /** The budget is never left idle while anything waits, and never exceeded. */
  lemma WorkConserving(budget: nat, overdue: nat, others: nat, births: nat)
    ensures
      var s := Allocate(budget, overdue, others, births);
      && Total(s) == Min(budget, overdue + others + births)
      && s.backstop <= overdue && s.periphery + s.main <= others && s.birth <= births
      && (s.backstop < overdue ==> Total(s) == budget)
  {
  }

  /** Each protected slice gets its reservation, or all it asks for. */
  ghost predicate FloorsHold(budget: nat, overdue: nat, others: nat, births: nat) {
    var s := Allocate(budget, overdue, others, births);
    && s.backstop >= Min(Slot(budget, BACKSTOP_PERCENT), overdue)
    && s.periphery >= Min(Slot(budget, PERIPHERY_PERCENT), others)
    && s.birth >= Min(Slot(budget, BIRTH_PERCENT), births)
  }

  lemma SlotsFit(budget: nat)
    requires budget >= 3
    ensures Slot(budget, BACKSTOP_PERCENT) + Slot(budget, PERIPHERY_PERCENT) + Slot(budget, BIRTH_PERCENT) <= budget
  {
  }

  /** The floors hold whatever the demand exactly when the budget covers one slot per protected slice. */
  lemma FloorsHoldExactly(budget: nat)
    ensures (forall overdue: nat, others: nat, births: nat :: FloorsHold(budget, overdue, others, births))
            <==> budget == 0 || budget >= 3
  {
    if budget >= 3 {
      SlotsFit(budget);
    }
    if budget == 1 || budget == 2 {
      assert !FloorsHold(budget, 1, 1, 1);
    }
  }

  /** A slice's reservation: its share of the budget, rounded down, but one slot whenever there is a budget. */
  lemma SlotMeans(budget: nat, percent: nat)
    requires percent > 0
    ensures Slot(budget, percent) == 0 <==> budget == 0
    ensures Slot(budget, percent) > 1 ==> 100 * Slot(budget, percent) <= budget * percent
    ensures 100 * (Slot(budget, percent) + 1) > budget * percent
  {
  }

  /** Who is served: overdue edges up to their reservation, then the periphery and the births up to theirs; what is
      left goes to overdue edges first, then to the main slice, and to births only when nothing else waits. */
  ghost predicate IsAllocation(budget: nat, overdue: nat, others: nat, births: nat, s: Served) {
    var reservedPeriphery := Min(Slot(budget, PERIPHERY_PERCENT), others);
    var reservedBirth := Min(Slot(budget, BIRTH_PERCENT), births);
    var base := Min(Slot(budget, BACKSTOP_PERCENT), overdue);
    && s.backstop <= overdue && s.periphery + s.main <= others && s.birth <= births
    && Total(s) == Min(budget, overdue + others + births)
    && s.backstop >= Min(base, budget)
    && s.periphery == Min(reservedPeriphery, budget - s.backstop)
    && s.birth >= Min(reservedBirth, budget - s.backstop - s.periphery)
    && (s.backstop > base ==> s.periphery == reservedPeriphery && s.birth >= reservedBirth)
    && (s.backstop < overdue ==> s.main == 0 && s.birth <= reservedBirth)
    && (s.main < others - s.periphery ==> s.birth <= reservedBirth)
  }

  lemma AllocationUnique(budget: nat, overdue: nat, others: nat, births: nat, s: Served)
    ensures IsAllocation(budget, overdue, others, births, s) <==> s == Allocate(budget, overdue, others, births)
  {
    if budget >= 3 {
      SlotsFit(budget);
    }
    WorkConserving(budget, overdue, others, births);
  }

  /** A backstop outranks an event, and an event a decay. */
  lemma ReasonsRank()
    ensures Rank(Backstop) > Rank(Event) > Rank(Decay)
  {
  }

  // ----- one entry per edge, for its strongest reason

  ghost predicate OnePerEdge(s: seq<Due>) {
    forall i, j :: 0 <= i < j < |s| ==> Key(s[i]) != Key(s[j])
  }

  ghost function KeysOf(s: seq<Due>): (k: set<(Path, Path)>)
    ensures forall x :: x in k <==> exists d :: d in s && Key(d) == x
  {
    set d | d in s :: Key(d)
  }

  /** `best` has an entry for `d`'s edge, for a reason at least as strong. */
  ghost predicate Represented(best: seq<Due>, d: Due) {
    exists i :: 0 <= i < |best| && Key(best[i]) == Key(d) && Rank(best[i].reason) >= Rank(d.reason)
  }

  /** `best` holds each due edge once, for the strongest of its reasons. */
  ghost predicate IsBest(due: seq<Due>, best: seq<Due>) {
    && OnePerEdge(best)
    && (forall b :: b in best ==> b in due)
    && (forall d {:trigger Represented(best, d)} :: d in due ==> Represented(best, d))
  }

  lemma {:induction false} OnePerEdgeCount(s: seq<Due>)
    requires OnePerEdge(s)
    ensures |KeysOf(s)| == |s|
  {
    if s != [] {
      var front, last := s[..|s| - 1], s[|s| - 1];
      OnePerEdgeCount(front);
      assert s == front + [last];
      assert KeysOf(s) == KeysOf(front) + {Key(last)};
    }
  }

  lemma BestHasAllKeys(due: seq<Due>, best: seq<Due>)
    requires IsBest(due, best)
    ensures KeysOf(best) == KeysOf(due) && |best| == |KeysOf(due)|
  {
    OnePerEdgeCount(best);
    forall x ensures x in KeysOf(best) <==> x in KeysOf(due) {
      if x in KeysOf(due) {
        var d :| d in due && Key(d) == x;
        assert Represented(best, d);
        var i :| 0 <= i < |best| && Key(best[i]) == Key(d);
        assert best[i] in best;
      }
    }
  }

  method Dedup(due: seq<Due>) returns (best: seq<Due>)
    ensures IsBest(due, best)
  {
    best := [];
    var at: map<(Path, Path), nat> := map[];
    for n := 0 to |due|
      invariant IsBest(due[..n], best)
      invariant forall k :: k in at ==> at[k] < |best| && Key(best[at[k]]) == k
      invariant forall i :: 0 <= i < |best| ==> Key(best[i]) in at
    {
      var d := due[n];
      ghost var best0 := best;
      if Key(d) !in at {
        at := at[Key(d) := |best|];
        best := best + [d];
      } else if Rank(d.reason) > Rank(best[at[Key(d)]].reason) {
        best := best[at[Key(d)] := d];
      }
      assert due[..n + 1] == due[..n] + [d];
      BestStep(due[..n], best0, d, at[Key(d)], best);
    }
    assert due[..|due|] == due;
  }

  /** `best'` is `best` with `d` taken in at position `k`: appended when its edge is new, or put in place
      of a weaker reason. */
  ghost predicate TakesIn(best: seq<Due>, d: Due, k: nat, best': seq<Due>) {
    if k < |best| then
      Key(best[k]) == Key(d) && best' == if Rank(d.reason) > Rank(best[k].reason) then best[k := d] else best
    else
      k == |best| && best' == best + [d] && forall i :: 0 <= i < |best| ==> Key(best[i]) != Key(d)
  }

  lemma BestStep(due: seq<Due>, best: seq<Due>, d: Due, k: nat, best': seq<Due>)
    requires IsBest(due, best) && TakesIn(best, d, k, best')
    ensures IsBest(due + [d], best')
  {
    forall x | x in due + [d] ensures Represented(best', x) {
      if x in due {
        assert Represented(best, x);
        var i :| 0 <= i < |best| && Key(best[i]) == Key(x) && Rank(best[i].reason) >= Rank(x.reason);
        assert Key(best'[i]) == Key(x) && Rank(best'[i].reason) >= Rank(x.reason);
      } else {
        assert Key(best'[k]) == Key(d) && Rank(best'[k].reason) >= Rank(d.reason);
      }
    }
  }

  // ----- the queue

  type Ages = map<Path, real>

  /** Days since last review; unknown and future dates count as fresh. */
  function AgeOf(ages: Ages, p: Path): (age: real)
    ensures age >= 0.0
  {
    if p in ages && ages[p] > 0.0 then ages[p] else 0.0
  }

  function Fragility(strength: real): real {
    1.0 - (if strength < K_CAP as real then strength else K_CAP as real) / K_CAP as real
  }

  function StalestFirst(ages: Ages): (Due, Due) -> bool {
    (a: Due, b: Due) => AgeOf(ages, a.fromPath) >= AgeOf(ages, b.fromPath)
  }

  predicate MainFirst(a: Due, b: Due) {
    Rank(a.reason) > Rank(b.reason) ||
    (Rank(a.reason) == Rank(b.reason) && Fragility(a.strength) >= Fragility(b.strength))
  }

  /** Which due edges each slice takes, and which are left for another session. */
  datatype Plan = Plan(overdue: seq<Due>, overdueLeft: seq<Due>, periphery: seq<Due>, main: seq<Due>, othersLeft: seq<Due>)

  /** An edge's age is its dependent's, where known and not in the future. */
  lemma AgeMeans(ages: Ages, p: Path)
    ensures p in ages && ages[p] >= 0.0 ==> AgeOf(ages, p) == ages[p]
    ensures p !in ages || ages[p] < 0.0 ==> AgeOf(ages, p) == 0.0
  {
  }

  /** The main slice takes events before decays, and at one reason the weakest edges first. */
  lemma MainFirstMeans(a: Due, b: Due)
    requires !a.reason.Backstop? && !b.reason.Backstop?
    requires a.strength <= K_CAP as real && b.strength <= K_CAP as real
    ensures MainFirst(a, b) <==> (a.reason.Event? && b.reason.Decay?) || (a.reason == b.reason && a.strength <= b.strength)
  {
  }

  ghost predicate NoneStaler(taken: seq<Due>, left: seq<Due>, ages: Ages) {
    forall t, l :: t in taken && l in left ==> AgeOf(ages, t.fromPath) >= AgeOf(ages, l.fromPath)
  }

  ghost function AllOf(p: Plan): seq<Due> {
    p.overdue + p.overdueLeft + p.periphery + p.main + p.othersLeft
  }

  /** Every due edge is in exactly one place; the overdue and the periphery slices took the stalest, and
      the main slice the most pressing of what the periphery left. */
  ghost predicate IsSplit(due: seq<Due>, ages: Ages, p: Plan) {
    && IsBest(due, AllOf(p))
    && (forall d :: d in p.overdue + p.overdueLeft ==> d.reason.Backstop?)
    && (forall d :: d in p.periphery + p.main + p.othersLeft ==> !d.reason.Backstop?)
    && NoneStaler(p.overdue, p.overdueLeft, ages)
    && NoneStaler(p.periphery, p.main + p.othersLeft, ages)
    && (forall m, l :: m in p.main && l in p.othersLeft ==> MainFirst(m, l))
  }

  /** The slices have the sizes the budget allots. */
  ghost predicate IsSized(p: Plan, births: nat, budget: nat, served: Served) {
    && served == Allocate(budget, |p.overdue| + |p.overdueLeft|, |p.periphery| + |p.main| + |p.othersLeft|, births)
    && |p.overdue| == served.backstop && |p.periphery| == served.periphery && |p.main| == served.main
  }

  ghost predicate IsPlan(due: seq<Due>, births: nat, budget: nat, ages: Ages, p: Plan, served: Served) {
    IsSplit(due, ages, p) && IsSized(p, births, budget, served)
  }

  function Items(s: seq<Due>, slice: Slice): (q: seq<QueueItem>)
    ensures |q| == |s|
    ensures forall i :: 0 <= i < |s| ==> q[i] == EdgeItem(s[i].fromPath, s[i].toPath, s[i].reason, slice)
  {
    seq(|s|, i requires 0 <= i < |s| => EdgeItem(s[i].fromPath, s[i].toPath, s[i].reason, slice))
  }

  function Births(paths: seq<Path>): (q: seq<QueueItem>)
    ensures |q| == |paths| && forall i :: 0 <= i < |paths| ==> q[i] == BirthItem(paths[i])
  {
    seq(|paths|, i requires 0 <= i < |paths| => BirthItem(paths[i]))
  }

  function QueueOf(p: Plan, births: seq<Path>): seq<QueueItem> {
    Items(p.overdue, BackstopSlice) + Items(p.periphery, PeripherySlice) + Items(p.main, MainSlice) + Births(births)
  }

  /** What a plan amounts to: the budget is used up or nothing waits, no edge is queued twice, an overdue
      edge goes unserved only when the budget is exhausted, and the reserved slices get their floor. */
  lemma PlanIsFair(due: seq<Due>, births: seq<Path>, budget: nat, ages: Ages, p: Plan, served: Served)
    requires IsPlan(due, |births|, budget, ages, p, served)
    ensures served.birth <= |births|
    ensures
      var queue := QueueOf(p, births[..served.birth]);
      && |queue| == Min(budget, |KeysOf(due)| + |births|)
      && (p.overdueLeft != [] ==> |queue| == budget)
      && (forall i, j :: 0 <= i < j < |queue| && queue[i].EdgeItem? && queue[j].EdgeItem? ==>
            (queue[i].fromPath, queue[i].toPath) != (queue[j].fromPath, queue[j].toPath))
    ensures budget >= 3 ==>
      FloorsHold(budget, |p.overdue| + |p.overdueLeft|, |p.periphery| + |p.main| + |p.othersLeft|, |births|)
  {
    BestHasAllKeys(due, AllOf(p));
    SizedIsFair(p, |births|, budget, served);
    if budget >= 3 {
      SizedKeepsFloors(p, |births|, budget);
    }
    QueuedOnce(p, births[..served.birth]);
  }

  lemma SizedIsFair(p: Plan, births: nat, budget: nat, served: Served)
    requires IsSized(p, births, budget, served)
    ensures served.birth <= births
    ensures Total(served) == Min(budget, |AllOf(p)| + births)
    ensures p.overdueLeft != [] ==> Total(served) == budget
  {
    WorkConserving(budget, |p.overdue| + |p.overdueLeft|, |p.periphery| + |p.main| + |p.othersLeft|, births);
  }

  lemma SizedKeepsFloors(p: Plan, births: nat, budget: nat)
    requires budget >= 3
    ensures FloorsHold(budget, |p.overdue| + |p.overdueLeft|, |p.periphery| + |p.main| + |p.othersLeft|, births)
  {
    FloorsHoldExactly(budget);
  }

  /** No edge is queued twice. */
  lemma QueuedOnce(p: Plan, births: seq<Path>)
    requires OnePerEdge(AllOf(p))
    ensures
      var queue := QueueOf(p, births);
      forall i, j :: 0 <= i < j < |queue| && queue[i].EdgeItem? && queue[j].EdgeItem? ==>
        (queue[i].fromPath, queue[i].toPath) != (queue[j].fromPath, queue[j].toPath)
  {
    var queue := QueueOf(p, births);
    forall i, j | 0 <= i < j < |queue| && queue[i].EdgeItem? && queue[j].EdgeItem?
      ensures (queue[i].fromPath, queue[i].toPath) != (queue[j].fromPath, queue[j].toPath)
    {
      QueueItemOrigin(p, births, i);
      QueueItemOrigin(p, births, j);
    }
  }

  /** Where a queued edge sits among all due edges. */
  /** The queue in order: the overdue edges taken, then the periphery, then the main slice, then the births. */
  lemma QueueMeans(p: Plan, births: seq<Path>, i: nat)
    requires i < |QueueOf(p, births)|
    ensures
      var q := QueueOf(p, births)[i];
      var (a, b, c) := (|p.overdue|, |p.overdue| + |p.periphery|, |p.overdue| + |p.periphery| + |p.main|);
      if i < a then q == EdgeItem(p.overdue[i].fromPath, p.overdue[i].toPath, p.overdue[i].reason, BackstopSlice)
      else if i < b then
        q == EdgeItem(p.periphery[i - a].fromPath, p.periphery[i - a].toPath, p.periphery[i - a].reason, PeripherySlice)
      else if i < c then q == EdgeItem(p.main[i - b].fromPath, p.main[i - b].toPath, p.main[i - b].reason, MainSlice)
      else i - c < |births| && q == BirthItem(births[i - c])
  {
  }

  ghost function Origin(p: Plan, i: nat): nat {
    if i < |p.overdue| then i else i + |p.overdueLeft|
  }

  lemma QueueItemOrigin(p: Plan, births: seq<Path>, i: nat)
    requires i < |QueueOf(p, births)| && QueueOf(p, births)[i].EdgeItem?
    ensures Origin(p, i) < |AllOf(p)|
    ensures
      var q, d := QueueOf(p, births)[i], AllOf(p)[Origin(p, i)];
      q.fromPath == d.fromPath && q.toPath == d.toPath && q.reason == d.reason
  {
  }

  lemma StalestFirstIsTotal(ages: Ages)
    ensures TotalPreorder(StalestFirst(ages))
  {
  }

  lemma MainFirstIsTotal()
    ensures TotalPreorder(MainFirst)
  {
  }

  /** Taking the first `n` of a list sorted stalest first leaves nothing staler behind. */
  lemma TakeStalest(s: seq<Due>, ages: Ages, n: nat)
    requires SortedBy(s, StalestFirst(ages)) && n <= |s|
    ensures NoneStaler(s[..n], s[n..], ages)
  {
    forall t, l | t in s[..n] && l in s[n..] ensures AgeOf(ages, t.fromPath) >= AgeOf(ages, l.fromPath) {
      var i :| 0 <= i < n && s[i] == t;
      var j :| n <= j < |s| && s[j] == l;
    }
  }

  function Select(s: seq<Due>, backstop: bool): (r: seq<Due>)
    ensures forall d :: d in r <==> d in s && d.reason.Backstop? == backstop
    ensures OnePerEdge(s) ==> OnePerEdge(r)
  {
    if s == [] then []
    else
      var front, last := s[..|s| - 1], s[|s| - 1];
      assert s == front + [last];
      var r := Select(front, backstop);
      OneMoreEdge(front, r, last);
      if last.reason.Backstop? == backstop then r + [last] else r
  }

  lemma OneMoreEdge(front: seq<Due>, r: seq<Due>, last: Due)
    requires forall d :: d in r ==> d in front
    requires OnePerEdge(front) ==> OnePerEdge(r)
    ensures OnePerEdge(front + [last]) ==> OnePerEdge(r) && OnePerEdge(r + [last])
  {
    var s := front + [last];
    if OnePerEdge(s) {
      forall i, j | 0 <= i < j < |front| ensures Key(front[i]) != Key(front[j]) {
        assert s[i] == front[i] && s[j] == front[j];
      }
      forall d | d in front ensures Key(d) != Key(last) {
        var i :| 0 <= i < |front| && front[i] == d;
        assert s[i] == d && s[|front|] == last;
      }
    }
  }

  lemma SamePlaces(best: seq<Due>, due: seq<Due>, all: seq<Due>)
    requires IsBest(due, best) && multiset(all) == multiset(Select(best, true)) + multiset(Select(best, false))
    ensures IsBest(due, all)
  {
    var parts := Select(best, true) + Select(best, false);
    assert multiset(parts) == multiset(all);
    SameElements(all, parts);
    assert OnePerEdge(parts);
    OnePerEdgeByCount(parts, all);
    forall d | d in due ensures Represented(all, d) {
      assert Represented(best, d);
      var i :| 0 <= i < |best| && Key(best[i]) == Key(d) && Rank(best[i].reason) >= Rank(d.reason);
      assert best[i] in best;
      assert best[i] in parts;
      var j :| 0 <= j < |all| && all[j] == best[i];
    }
  }

  lemma OnePerEdgeByCount(a: seq<Due>, b: seq<Due>)
    requires OnePerEdge(a) && multiset(a) == multiset(b)
    ensures OnePerEdge(b)
  {
    SameElements(a, b);
    DistinctByCount(a, b);
    forall i, j | 0 <= i < j < |b| ensures Key(b[i]) != Key(b[j]) {
      assert b[i] in a && b[j] in a;
    }
  }

  /** `r` is `s` put in order. */
  ghost predicate IsSorting(r: seq<Due>, s: seq<Due>, leq: (Due, Due) -> bool) {
    multiset(r) == multiset(s) && SortedBy(r, leq)
  }

  method Sort(s: seq<Due>, leq: (Due, Due) -> bool) returns (r: seq<Due>)
    requires TotalPreorder(leq)
    ensures IsSorting(r, s, leq) && |r| == |s|
  {
    r := SortBy(s, leq);
    SortBySorted(s, leq);
    SameElements(r, s);
  }

  /** The plan that serves the first `b` of the overdue, the first `n` of the others, and the first `m` of
      what those leave. */
  ghost function PlanOf(bk: seq<Due>, peri: seq<Due>, main: seq<Due>, b: nat, n: nat, m: nat): Plan
    requires b <= |bk| && n <= |peri| && m <= |main|
  {
    Plan(bk[..b], bk[b..], peri[..n], main[..m], main[m..])
  }

  lemma PlanCovers(bk: seq<Due>, peri: seq<Due>, main: seq<Due>, b: nat, n: nat, m: nat)
    requires b <= |bk| && n <= |peri| && m <= |main| && multiset(main) == multiset(peri[n..])
    ensures multiset(AllOf(PlanOf(bk, peri, main, b, n, m))) == multiset(bk) + multiset(peri)
  {
    assert bk == bk[..b] + bk[b..];
    assert peri == peri[..n] + peri[n..];
    assert main == main[..m] + main[m..];
    assert AllOf(PlanOf(bk, peri, main, b, n, m)) == bk + (peri[..n] + main);
  }

  lemma PlanReasons(best: seq<Due>, bk: seq<Due>, peri: seq<Due>, main: seq<Due>, b: nat, n: nat, m: nat)
    requires b <= |bk| && n <= |peri| && m <= |main| && multiset(main) == multiset(peri[n..])
    requires multiset(bk) == multiset(Select(best, true)) && multiset(peri) == multiset(Select(best, false))
    ensures
      var p := PlanOf(bk, peri, main, b, n, m);
      && (forall d :: d in p.overdue + p.overdueLeft ==> d.reason.Backstop?)
      && (forall d :: d in p.periphery + p.main + p.othersLeft ==> !d.reason.Backstop?)
  {
    SameElements(bk, Select(best, true));
    SameElements(peri, Select(best, false));
    SameElements(main, peri[n..]);
    forall d | d in main ensures d in peri {
      assert d in peri[n..];
    }
  }

  lemma PlanOrder(bk: seq<Due>, peri: seq<Due>, main: seq<Due>, b: nat, n: nat, m: nat, ages: Ages)
    requires b <= |bk| && n <= |peri| && m <= |main|
    requires SortedBy(bk, StalestFirst(ages)) && SortedBy(peri, StalestFirst(ages))
    requires IsSorting(main, peri[n..], MainFirst)
    ensures
      var p := PlanOf(bk, peri, main, b, n, m);
      && NoneStaler(p.overdue, p.overdueLeft, ages)
      && NoneStaler(p.periphery, p.main + p.othersLeft, ages)
      && (forall t, l :: t in p.main && l in p.othersLeft ==> MainFirst(t, l))
  {
    SameElements(main, peri[n..]);
    assert main == main[..m] + main[m..];
    TakeStalest(bk, ages, b);
    TakeStalest(peri, ages, n);
    forall t, l | t in main[..m] && l in main[m..] ensures MainFirst(t, l) {
      var i :| 0 <= i < m && main[i] == t;
      var j :| m <= j < |main| && main[j] == l;
    }
  }

  lemma PlanFromSorted(due: seq<Due>, best: seq<Due>, ages: Ages, bk: seq<Due>, peri: seq<Due>, main: seq<Due>,
                       b: nat, n: nat, m: nat)
    requires IsBest(due, best)
    requires IsSorting(bk, Select(best, true), StalestFirst(ages)) && b <= |bk|
    requires IsSorting(peri, Select(best, false), StalestFirst(ages)) && n <= |peri|
    requires IsSorting(main, peri[n..], MainFirst) && m <= |main|
    ensures IsSplit(due, ages, PlanOf(bk, peri, main, b, n, m))
  {
    PlanCovers(bk, peri, main, b, n, m);
    SamePlaces(best, due, AllOf(PlanOf(bk, peri, main, b, n, m)));
    PlanReasons(best, bk, peri, main, b, n, m);
    PlanOrder(bk, peri, main, b, n, m, ages);
  }

  lemma PlanSized(bk: seq<Due>, peri: seq<Due>, main: seq<Due>, births: nat, budget: nat, served: Served)
    requires served == Allocate(budget, |bk|, |peri|, births)
    requires served.backstop <= |bk| && served.periphery <= |peri| && served.main <= |main| == |peri| - served.periphery
    ensures IsSized(PlanOf(bk, peri, main, served.backstop, served.periphery, served.main), births, budget, served)
  {
    var p := PlanOf(bk, peri, main, served.backstop, served.periphery, served.main);
    assert |p.overdue| + |p.overdueLeft| == |bk|;
    assert |p.periphery| + |p.main| + |p.othersLeft| == |peri|;
  }

  /** Dedups, sorts and slices the due edges, and fills the rest of the budget with births. */
  method Prioritize(edgeDue: seq<Due>, birth: seq<Path>, budget: nat, ages: Ages)
    returns (queue: seq<QueueItem>, backstopOverdueRemaining: nat, ghost plan: Plan, ghost served: Served)
    ensures IsPlan(edgeDue, |birth|, budget, ages, plan, served) && served.birth <= |birth|
    ensures queue == QueueOf(plan, birth[..served.birth])
    ensures backstopOverdueRemaining == |plan.overdueLeft|
    ensures |queue| == Min(budget, |KeysOf(edgeDue)| + |birth|)
    ensures backstopOverdueRemaining > 0 ==> |queue| == budget
  {
    StalestFirstIsTotal(ages);
    MainFirstIsTotal();
    var best := Dedup(edgeDue);
    var peripherySorted := Sort(Select(best, false), StalestFirst(ages));
    var bkSorted := Sort(Select(best, true), StalestFirst(ages));
    var backstopServe, servePeri, serveMain, serveBirth :=
      Slices(budget, |bkSorted|, |peripherySorted|, |birth|);
    backstopOverdueRemaining := |bkSorted| - backstopServe;
    var mainSorted := Sort(peripherySorted[servePeri..], MainFirst);
    queue := Items(bkSorted[..backstopServe], BackstopSlice) + Items(peripherySorted[..servePeri], PeripherySlice)
           + Items(mainSorted[..serveMain], MainSlice) + Births(birth[..serveBirth]);
    plan := PlanOf(bkSorted, peripherySorted, mainSorted, backstopServe, servePeri, serveMain);
    served := Served(backstopServe, servePeri, serveMain, serveBirth);
    PlanFromSorted(edgeDue, best, ages, bkSorted, peripherySorted, mainSorted, backstopServe, servePeri, serveMain);
    PlanSized(bkSorted, peripherySorted, mainSorted, |birth|, budget, served);
    PlanIsFair(edgeDue, birth, budget, ages, plan, served);
  }

  /** The allocation itself, spending `remaining` slice by slice. */
  method Slices(budget: nat, overdue: nat, others: nat, births: nat)
    returns (backstopServe: nat, servePeri: nat, serveMain: nat, serveBirth: nat)
    ensures Served(backstopServe, servePeri, serveMain, serveBirth) == Allocate(budget, overdue, others, births)
    ensures backstopServe <= overdue && servePeri + serveMain <= others && serveBirth <= births
  {
    var reservedPeri := Min(Slot(budget, PERIPHERY_PERCENT), others);
    var reservedBirth := Min(Slot(budget, BIRTH_PERCENT), births);
    var remaining := budget;
    var bkBase := Min(Min(Slot(budget, BACKSTOP_PERCENT), overdue), remaining);
    var bkOverflowRoom := if remaining < bkBase + reservedPeri + reservedBirth then 0
                          else remaining - bkBase - reservedPeri - reservedBirth;
    backstopServe := bkBase + Min(overdue - bkBase, bkOverflowRoom);
    remaining := remaining - backstopServe;
    servePeri := Min(reservedPeri, remaining);
    remaining := remaining - servePeri;
    serveMain := Min(others - servePeri, if remaining < reservedBirth then 0 else remaining - reservedBirth);
    remaining := remaining - serveMain;
    serveBirth := Min(births, remaining);
  }
}

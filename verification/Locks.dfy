/** File write locks: one row a path, a holder and an expiry, enforced lazily. */
module Locks {
  import opened Base

  type Holder = string

  const LOCK_TTL_MS: int := 60_000

  datatype Lock = Lock(holder: Holder, acquiredAt: int, expiresAt: int)

  type Table = map<string, Lock>

  datatype Failure = EmptyPath | EmptyHolder | HeldBy(holder: Holder, remaining: int)

  /** `path` is held by `h` at `now`: the lock is there and its time has not come. */
  predicate HeldAt(t: Table, path: string, h: Holder, now: int) {
    path in t && t[path].holder == h && t[path].expiresAt > now
  }

  predicate FreeAt(t: Table, path: string, now: int) {
    path !in t || t[path].expiresAt <= now
  }

  function Purged(t: Table, now: int): Table {
    map p | p in t && t[p].expiresAt > now :: t[p]
  }

  class LockTable {
    var locks: Table

    constructor ()
      ensures locks == map[]
    {
      locks := map[];
    }

    method PurgeExpired(now: int)
      modifies this
      ensures locks == Purged(old(locks), now)
    {
      locks := map p | p in locks && locks[p].expiresAt > now :: locks[p];
    }

    /** Succeeds exactly when the path is free or already the caller's, and then holds it for a full TTL;
        otherwise names the live holder in the way. */
    method AcquireLock(path: string, holder: Holder, now: int) returns (result: Result<Lock, Failure>)
      modifies this
      ensures locks == After(old(locks), Acquire(path, holder, now))
      ensures result.Ok? <==> Grants(old(locks), Acquire(path, holder, now))
      ensures result.Ok? ==> result.value == Lock(holder, now, now + LOCK_TTL_MS) && locks[path] == result.value
      ensures result.Err? && path != "" && holder != "" ==>
                && path in old(locks) && result.error == HeldBy(old(locks)[path].holder, old(locks)[path].expiresAt - now)
                && result.error.holder != holder && result.error.remaining > 0
    {
      if path == "" {
        return Err(EmptyPath);
      }
      if holder == "" {
        return Err(EmptyHolder);
      }
      PurgeExpired(now);
      if path in locks && locks[path].holder != holder {
        var remaining := locks[path].expiresAt - now;
        return Err(HeldBy(locks[path].holder, if remaining < 0 then 0 else remaining));
      }
      var lock := Lock(holder, now, now + LOCK_TTL_MS);
      locks := locks[path := lock];
      return Ok(lock);
    }

    /** Drops the caller's own lock; anybody else's is left alone. */
    method ReleaseLock(path: string, holder: Holder, ghost at: int) returns (released: bool)
      modifies this
      ensures released <==> path in old(locks) && old(locks)[path].holder == holder
      ensures locks == After(old(locks), Release(path, holder, at))
      ensures !released ==> locks == old(locks)
    {
      released := path in locks && locks[path].holder == holder;
      if released {
        locks := locks - {path};
      }
    }

    method IsLocked(path: string, now: int) returns (locked: bool)
      ensures locked <==> !FreeAt(locks, path, now)
    {
      locked := path in locks && locks[path].expiresAt > now;
    }

    method GetLock(path: string, now: int) returns (lock: Option<Lock>)
      ensures lock.Some? <==> !FreeAt(locks, path, now)
      ensures lock.Some? ==> path in locks && lock.value == locks[path]
    {
      if path !in locks || locks[path].expiresAt <= now {
        return None;
      }
      return Some(locks[path]);
    }
  }

  // ----- runs

  /** One call. Reads of the table change nothing and are left out of runs. */
  datatype Call = Acquire(path: string, holder: Holder, at: int) | Release(path: string, holder: Holder, at: int)

  /** The two methods above, as a step of a run. */
  function Grants(t: Table, c: Call): bool
    requires c.Acquire?
  {
    c.path != "" && c.holder != "" && (FreeAt(t, c.path, c.at) || HeldAt(t, c.path, c.holder, c.at))
  }

  function After(t: Table, c: Call): Table {
    match c
    case Acquire(path, holder, at) =>
      if path == "" || holder == "" then t
      else if Grants(t, c) then Purged(t, at)[path := Lock(holder, at, at + LOCK_TTL_MS)]
      else Purged(t, at)
    case Release(path, holder, _) =>
      if path in t && t[path].holder == holder then t - {path} else t
  }

  function Run(t: Table, calls: seq<Call>): Table {
    if calls == [] then t else After(Run(t, calls[..|calls| - 1]), calls[|calls| - 1])
  }

  ghost predicate ClockNeverBack(calls: seq<Call>) {
    forall i, j :: 0 <= i < j < |calls| ==> calls[i].at <= calls[j].at
  }

  /** The table the `k`th call finds. */
  ghost function Before(t: Table, calls: seq<Call>, k: nat): Table
    requires k <= |calls|
  {
    Run(t, calls[..k])
  }

  /** The `k`th call is an acquire of `path` by `h`, and it succeeds. */
  ghost predicate GrantedAt(t: Table, calls: seq<Call>, k: nat, path: string, h: Holder) {
    k < |calls| && calls[k] == Acquire(path, h, calls[k].at) && Grants(Before(t, calls, k), calls[k])
  }

  lemma NextTable(t: Table, calls: seq<Call>, k: nat)
    requires k < |calls|
    ensures Before(t, calls, k + 1) == After(Before(t, calls, k), calls[k])
  {
    assert calls[..k + 1][..k] == calls[..k];
  }

  /** From a grant on, the holder keeps the path while it does not release it and the TTL has not run out. */
  lemma {:induction false} HeldThroughout(t: Table, calls: seq<Call>, i: nat, k: nat, path: string, h: Holder)
    requires ClockNeverBack(calls) && GrantedAt(t, calls, i, path, h) && i < k <= |calls|
    requires forall m :: i < m < k ==> calls[m] != Release(path, h, calls[m].at)
    requires calls[k - 1].at < calls[i].at + LOCK_TTL_MS
    ensures path in Before(t, calls, k) && Before(t, calls, k)[path].holder == h
    ensures Before(t, calls, k)[path].expiresAt >= calls[i].at + LOCK_TTL_MS
  {
    NextTable(t, calls, k - 1);
    if k - 1 > i {
      HeldThroughout(t, calls, i, k - 1, path, h);
    }
  }

  /** Exclusion: when two holders are granted the same path one after the other, the first released it in
      between or its TTL had run out. */
  lemma GrantsDoNotOverlap(t: Table, calls: seq<Call>, i: nat, j: nat, path: string, h: Holder, other: Holder)
    requires ClockNeverBack(calls) && i < j && h != other
    requires GrantedAt(t, calls, i, path, h) && GrantedAt(t, calls, j, path, other)
    ensures
      || calls[j].at >= calls[i].at + LOCK_TTL_MS
      || exists m :: i < m < j && calls[m] == Release(path, h, calls[m].at)
  {
    if calls[j].at < calls[i].at + LOCK_TTL_MS && forall m :: i < m < j ==> calls[m] != Release(path, h, calls[m].at) {
      HeldThroughout(t, calls, i, j, path, h);
    }
  }

  /** No lock outlives the clock by more than a TTL. */
  ghost predicate Bounded(t: Table, now: int) {
    forall p :: p in t ==> t[p].expiresAt <= now + LOCK_TTL_MS
  }

  lemma {:induction false} RunStaysBounded(t: Table, calls: seq<Call>, now: int)
    requires Bounded(t, now) && ClockNeverBack(calls) && (calls != [] ==> now <= calls[0].at)
    ensures Bounded(Run(t, calls), if calls == [] then now else calls[|calls| - 1].at)
  {
    if calls != [] {
      RunStaysBounded(t, calls[..|calls| - 1], now);
    }
  }

  /** No crashed writer wedges a file: a TTL after the last call, any holder can take any path. */
  lemma NothingStaysWedged(t: Table, calls: seq<Call>, now: int, path: string, holder: Holder, at: int)
    requires Bounded(t, now) && ClockNeverBack(calls) && calls != [] && now <= calls[0].at
    requires path != "" && holder != "" && at >= calls[|calls| - 1].at + LOCK_TTL_MS
    ensures Grants(Run(t, calls), Acquire(path, holder, at))
  {
    RunStaysBounded(t, calls, now);
  }

  /** A grant is refused only because somebody else was granted the path within the last TTL and has not
      released it: the holder in the way acquired it at a call of this run. */
  lemma {:induction false} RefusalHasCause(calls: seq<Call>, c: Call) returns (i: nat)
    requires ClockNeverBack(calls + [c]) && c.Acquire? && c.path != "" && c.holder != ""
    requires !Grants(Run(map[], calls), c)
    ensures i < |calls| && calls[i].Acquire? && calls[i].holder != c.holder
    ensures c.path in Run(map[], calls) && Run(map[], calls)[c.path].holder == calls[i].holder
    ensures GrantedAt(map[], calls, i, c.path, calls[i].holder) && c.at < calls[i].at + LOCK_TTL_MS
    ensures forall m :: i < m < |calls| ==> calls[m] != Release(c.path, calls[i].holder, calls[m].at)
  {
    var n := |calls| - 1;
    var front, last := calls[..n], calls[n];
    var t := Run(map[], front);
    if GrantedAt(map[], calls, n, c.path, last.holder) {
      i := n;
    } else {
      assert c.path in t && t[c.path] == Run(map[], calls)[c.path];
      forall x, y | 0 <= x < y < |front + [c]| ensures (front + [c])[x].at <= (front + [c])[y].at {
        assert (front + [c])[x] == (calls + [c])[x];
        assert (front + [c])[y] == (calls + [c])[if y < n then y else n + 1];
      }
      i := RefusalHasCause(front, c);
      assert forall k: nat :: k <= n ==> front[..k] == calls[..k];
    }
  }
}

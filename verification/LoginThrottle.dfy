/**
 The failed-login throttle (``LoginRateLimiter``, app/ratelimit.py) and the way ``login_post``
 uses it (app/routes/ui.py).  Time is a nonnegative real that never runs backwards.
 */
module LoginThrottle {
  import opened Wrappers
  import opened BoundedMaps

  datatype Limits = Limits(maxAttempts: int, window: real, lockout: real)

  datatype Entry = Entry(failures: int, windowStart: real, lockedUntil: real)

  type Table = map<string, Entry>

  // ------------------------------------------------------------------ one key

  /** The seconds to wait, when the key is locked. */
  function RetryAfterOf(e: Option<Entry>, now: real): Option<int> {
    if e.None? then None
    else
      var remaining := e.value.lockedUntil - now;
      if remaining > 0.0 then Some(remaining.Floor + 1) else None
  }

  /** The entry after one more failure: a fresh window if there is none or it has elapsed. */
  function Failed(l: Limits, e: Option<Entry>, now: real): Entry {
    var base := if e.None? || now - e.value.windowStart > l.window then Entry(0, now, 0.0) else e.value;
    var counted := base.(failures := base.failures + 1);
    if counted.failures >= l.maxAttempts then counted.(lockedUntil := now + l.lockout) else counted
  }

  /** Neither the window nor the lock of the entry matters any more. */
  predicate Expired(l: Limits, e: Entry, now: real) {
    e.lockedUntil <= now && now - e.windowStart > l.window
  }

  // ------------------------------------------------------------------ the table

  function Recorded(l: Limits, m: Table, key: string, now: real): Table {
    m[key := Failed(l, Get(m, key), now)]
  }

  /** The first stage of pruning. */
  function Pruned(l: Limits, m: Table, now: real): Table {
    if |m| <= MAX_ENTRIES then m else map k | k in m && !Expired(l, m[k], now) :: m[k]
  }

  /** The second stage, when the first is not enough: all but the most recent windows are dropped. */
  ghost predicate EvictedOldest(live: Table, kept: Table) {
    && kept.Keys <= live.Keys
    && (forall k | k in kept :: kept[k] == live[k])
    && |kept| == MAX_ENTRIES
    && (forall k, d | k in kept && d in live && d !in kept :: live[d].windowStart <= live[k].windowStart)
  }

  class LoginRateLimiter {
    const limits: Limits
    var entries: Table

    constructor (limits: Limits)
      ensures this.limits == limits && entries == map[]
    {
      this.limits := limits;
      entries := map[];
    }

    method RetryAfter(key: string, now: real) returns (r: Option<int>)
      ensures r == RetryAfterOf(Get(entries, key), now)
    {
      if key !in entries {
        return None;
      }
      var remaining := entries[key].lockedUntil - now;
      r := if remaining > 0.0 then Some(remaining.Floor + 1) else None;
    }

    /** ``later`` is the second clock reading, taken by the pruning. */
    method RecordFailure(key: string, now: real, later: real)
      modifies this
      ensures var live := Pruned(limits, Recorded(limits, old(entries), key, now), later);
              if |live| <= MAX_ENTRIES then entries == live else EvictedOldest(live, entries)
      ensures |entries| <= MAX_ENTRIES
    {
      var entry := Entry(0, now, 0.0);
      if key in entries && now - entries[key].windowStart <= limits.window {
        entry := entries[key];
      }
      entry := entry.(failures := entry.failures + 1);
      if entry.failures >= limits.maxAttempts {
        entry := entry.(lockedUntil := now + limits.lockout);
      }
      entries := entries[key := entry];
      MaybePrune(later);
    }

    method Reset(key: string)
      modifies this
      ensures entries == old(entries) - {key}
    {
      entries := entries - {key};
    }

    method MaybePrune(now: real)
      modifies this
      ensures var live := Pruned(limits, old(entries), now);
              if |live| <= MAX_ENTRIES then entries == live else EvictedOldest(live, entries)
    {
      if |entries| <= MAX_ENTRIES {
        return;
      }
      entries := map k | k in entries && !Expired(limits, entries[k], now) :: entries[k];
      ghost var live := entries;
      while |entries| > MAX_ENTRIES
        invariant entries.Keys <= live.Keys
        invariant forall k | k in entries :: entries[k] == live[k]
        invariant |live| > MAX_ENTRIES ==> |entries| >= MAX_ENTRIES
        invariant |live| <= MAX_ENTRIES ==> entries == live
        invariant forall k, d | k in entries && d in live && d !in entries :: live[d].windowStart <= live[k].windowStart
        decreases |entries|
      {
        var oldest := OldestKey(entries);
        DropOne(entries, oldest);
        entries := entries - {oldest};
      }
    }
  }

  method OldestKey(m: Table) returns (oldest: string)
    requires m != map[]
    ensures oldest in m && forall k | k in m :: m[oldest].windowStart <= m[k].windowStart
  {
    NonEmptyKeys(m);
    var left := m.Keys;
    oldest := PickOne(left);
    left := left - {oldest};
    while left != {}
      invariant left <= m.Keys && oldest in m
      invariant forall k | k in m.Keys - left :: m[oldest].windowStart <= m[k].windowStart
      decreases left
    {
      var k := PickOne(left);
      left := left - {k};
      if m[k].windowStart < m[oldest].windowStart {
        oldest := k;
      }
    }
  }

  // ------------------------------------------------------------------ runs

  /** A call with the clock readings it takes. */
  datatype Call =
    | Check(key: string, now: real)
    | Fail(key: string, now: real, later: real)
    | Reset(key: string)

  /** The calls are made in time order, none before ``t``. */
  predicate Ordered(calls: seq<Call>, t: real)
    decreases |calls|
  {
    calls == [] || (
      match calls[0]
      case Check(_, now) => t <= now && Ordered(calls[1..], now)
      case Fail(_, now, later) => t <= now <= later && Ordered(calls[1..], later)
      case Reset(_) => Ordered(calls[1..], t))
  }

  /** The table after a call of a limiter that prunes, if ``prunes``, but never evicts. */
  function After(l: Limits, m: Table, call: Call, prunes: bool): Table {
    match call
    case Check(_, _) => m
    case Fail(key, now, later) =>
      var recorded := Recorded(l, m, key, now);
      if prunes then Pruned(l, recorded, later) else recorded
    case Reset(key) => m - {key}
  }

  /** The answers to the checks of a run. */
  function Answers(l: Limits, m: Table, calls: seq<Call>, prunes: bool): seq<Option<int>>
    decreases |calls|
  {
    if calls == [] then []
    else
      (if calls[0].Check? then [RetryAfterOf(Get(m, calls[0].key), calls[0].now)] else [])
      + Answers(l, After(l, m, calls[0], prunes), calls[1..], prunes)
  }

  /** Pruning always gets the table within its budget, so no live entry is ever evicted. */
  predicate WithinBudget(l: Limits, m: Table, calls: seq<Call>)
    decreases |calls|
  {
    calls == [] || (
      var next := After(l, m, calls[0], true);
      (calls[0].Fail? ==> |next| <= MAX_ENTRIES) && WithinBudget(l, next, calls[1..]))
  }

  // ------------------------------------------------------------------ pruning is invisible

  /** ``pruned`` is ``full`` without some expired entries. */
  ghost predicate Refines(l: Limits, pruned: Table, full: Table, t: real) {
    && pruned.Keys <= full.Keys
    && (forall k | k in pruned :: pruned[k] == full[k])
    && (forall k | k in full && k !in pruned :: Expired(l, full[k], t))
  }

  lemma RefinesAfter(l: Limits, pruned: Table, full: Table, t: real, call: Call)
    requires Refines(l, pruned, full, t) && Ordered([call], t)
    ensures Refines(l, After(l, pruned, call, true), After(l, full, call, false),
                    if call.Fail? then call.later else if call.Check? then call.now else t)
    ensures call.Check? ==> RetryAfterOf(Get(pruned, call.key), call.now) == RetryAfterOf(Get(full, call.key), call.now)
  {
    if call.Fail? {
      assert Failed(l, Get(pruned, call.key), call.now) == Failed(l, Get(full, call.key), call.now);
    }
  }

  /** Every sequence of calls gets the same answers as from a limiter that never prunes, as long as
      nothing live has to be evicted. */
  lemma {:induction false} PruningInvisible(l: Limits, pruned: Table, full: Table, t: real, calls: seq<Call>)
    requires Refines(l, pruned, full, t) && Ordered(calls, t) && WithinBudget(l, pruned, calls)
    ensures Answers(l, pruned, calls, true) == Answers(l, full, calls, false)
    decreases |calls|
  {
    if calls != [] {
      var call := calls[0];
      RefinesAfter(l, pruned, full, t, call);
      PruningInvisible(l, After(l, pruned, call, true), After(l, full, call, false),
                       if call.Fail? then call.later else if call.Check? then call.now else t, calls[1..]);
    }
  }

  /** Pruning drops exactly the entries that no later call can tell from none. */
  lemma ExpiredIff(l: Limits, e: Entry, now: real)
    requires e.failures >= 1
    ensures Expired(l, e, now) <==>
            forall t | t >= now :: RetryAfterOf(Some(e), t).None? && Failed(l, Some(e), t) == Failed(l, None, t)
  {
    if forall t | t >= now :: RetryAfterOf(Some(e), t).None? && Failed(l, Some(e), t) == Failed(l, None, t) {
      assert RetryAfterOf(Some(e), now).None? && Failed(l, Some(e), now) == Failed(l, None, now);
    }
  }

  /** With one live entry too many, the one whose window started first goes. */
  lemma OldestWindowGoes(live: Table, kept: Table, key: string)
    requires |live| == MAX_ENTRIES + 1 && key in live && EvictedOldest(live, kept)
    requires forall k | k in live && k != key :: live[key].windowStart < live[k].windowStart
    ensures kept.Keys == live.Keys - {key}
  {
    var gone := live.Keys - kept.Keys;
    assert live.Keys == kept.Keys + gone;
    assert |live.Keys| == |live| && |kept.Keys| == |kept|;
    assert |gone| == 1 && gone != {};
    if key in kept {
      assert false;
    }
    assert |gone - {key}| == 0;
  }

  /** A successful login forgets the failures before it: the next failure is the first of a new window. */
  lemma ResetForgets(l: Limits, m: Table, key: string, now: real)
    requires 0.0 <= now
    ensures RetryAfterOf(Get(After(l, m, Reset(key), true), key), now).None?
    ensures var e := Failed(l, Get(After(l, m, Reset(key), true), key), now);
            e.failures == 1 && e.windowStart == now && (l.maxAttempts > 1 ==> RetryAfterOf(Some(e), now).None?)
    ensures forall k | k != key :: Get(After(l, m, Reset(key), true), k) == Get(m, k)
  {
  }

  // ------------------------------------------------------------------ the throttle bound

  /** ``login_post`` on one key: a failure is recorded only after a check let the attempt through,
      attempts on the key do not overlap, and none succeeds.  ``open``: an attempt was let through. */
  predicate Guarded(l: Limits, m: Table, calls: seq<Call>, key: string, open: bool)
    decreases |calls|
  {
    calls == [] || (
      var next := After(l, m, calls[0], true);
      if calls[0].key != key then Guarded(l, next, calls[1..], key, open)
      else match calls[0]
        case Check(_, now) => Guarded(l, next, calls[1..], key, RetryAfterOf(Get(m, key), now).None?)
        case Fail(_, _, _) => open && Guarded(l, next, calls[1..], key, false)
        case Reset(_) => false)
  }

  /** The failures recorded for the key in the interval from ``a`` to ``b``. */
  function FailuresIn(calls: seq<Call>, key: string, a: real, b: real): nat
    decreases |calls|
  {
    if calls == [] then 0
    else (if calls[0].Fail? && calls[0].key == key && a <= calls[0].now <= b then 1 else 0)
         + FailuresIn(calls[1..], key, a, b)
  }

  /** The configured threshold; one failure always locks when it is lower. */
  function Threshold(l: Limits): int { if l.maxAttempts >= 1 then l.maxAttempts else 1 }

  function Bound(l: Limits): int {
    if Threshold(l) == 1 then 1 else 2 * Threshold(l) - 2
  }

  /** An interval shorter than both the window and the lockout. */
  predicate Short(l: Limits, a: real, b: real) { b - a < l.window && b - a < l.lockout && 0.0 <= a }

  /** What the entries of a limiter look like at time ``t``. */
  ghost predicate WellFormed(l: Limits, e: Option<Entry>, t: real) {
    e.Some? ==>
      && e.value.failures >= 1
      && e.value.windowStart <= t
      && e.value.lockedUntil <= t + l.lockout
      && (e.value.failures >= l.maxAttempts ==> e.value.lockedUntil >= e.value.windowStart + l.lockout)
      && (e.value.failures < l.maxAttempts ==> e.value.lockedUntil == 0.0)
  }

  /** How many more failures the key can have recorded by time ``b`` when its entry at time ``t``,
      inside the interval, is ``e``. */
  function Budget(l: Limits, e: Option<Entry>, t: real, a: real, b: real): int {
    var m := Threshold(l);
    if t > b then 0
    else if e.None? then m
    else if e.value.lockedUntil > b then 0
    else if e.value.windowStart >= a then (if m > e.value.failures then m - e.value.failures else 0)
    else if m - 1 > e.value.failures then m + (m - 1 - e.value.failures) else m
  }

  lemma BudgetDrops(l: Limits, e: Option<Entry>, t: real, now: real, a: real, b: real)
    requires Short(l, a, b) && WellFormed(l, e, t) && t <= now && a <= now <= b
    requires RetryAfterOf(e, now).None?
    ensures Budget(l, Some(Failed(l, e, now)), now, a, b) + 1 <= Budget(l, e, now, a, b)
  {
  }

  lemma FailedWellFormed(l: Limits, e: Option<Entry>, t: real, now: real)
    requires WellFormed(l, e, t) && t <= now && 0.0 <= now && 0.0 <= l.lockout
    ensures WellFormed(l, Some(Failed(l, e, now)), now)
  {
  }

  /** Time and pruning only lower the budget. */
  lemma BudgetOfPruned(l: Limits, e: Option<Entry>, t: real, later: real, a: real, b: real)
    requires Short(l, a, b) && WellFormed(l, e, t) && t <= later && a <= later
    ensures Budget(l, e, later, a, b) <= Budget(l, e, t, a, b)
    ensures e.Some? && Expired(l, e.value, later) ==> Budget(l, None, later, a, b) <= Budget(l, e, later, a, b)
  {
  }

  /** The key's entry after any call, given the guard: unchanged, pruned as expired, or one failure on. */
  lemma EntryAfter(l: Limits, m: Table, call: Call, key: string)
    requires call.Reset? ==> call.key != key
    ensures var e, e' := Get(m, key), Get(After(l, m, call, true), key);
            var moved := if call.Fail? && call.key == key then Some(Failed(l, e, call.now)) else e;
            e' == moved || (call.Fail? && moved.Some? && e'.None? && Expired(l, moved.value, call.later))
  {
  }

  /** Inside the interval: no more failures than the budget. */
  lemma {:induction false} WithinInterval(l: Limits, m: Table, t: real, calls: seq<Call>, key: string, open: bool,
                                          a: real, b: real)
    requires Short(l, a, b) && 0.0 <= l.lockout && a <= t && Ordered(calls, t) && Guarded(l, m, calls, key, open)
    requires WellFormed(l, Get(m, key), t)
    requires open ==> RetryAfterOf(Get(m, key), t).None?
    ensures FailuresIn(calls, key, a, b) <= Budget(l, Get(m, key), t, a, b)
    decreases |calls|
  {
    if calls != [] {
      var call, rest := calls[0], calls[1..];
      var next := After(l, m, call, true);
      EntryAfter(l, m, call, key);
      var e, e' := Get(m, key), Get(next, key);
      match call
      case Check(k, now) =>
        BudgetOfPruned(l, e, t, now, a, b);
        WithinInterval(l, next, now, rest, key, if k == key then RetryAfterOf(e, now).None? else open, a, b);
      case Fail(k, now, later) =>
        BudgetOfPruned(l, e, t, now, a, b);
        var moved := if k == key then Some(Failed(l, e, now)) else e;
        if k == key {
          FailedWellFormed(l, e, t, now);
          if now <= b {
            BudgetDrops(l, e, t, now, a, b);
          }
        }
        BudgetOfPruned(l, moved, now, later, a, b);
        WithinInterval(l, next, later, rest, key, open && k != key, a, b);
      case Reset(k) =>
        WithinInterval(l, next, t, rest, key, open, a, b);
    }
  }

  lemma BudgetAtMostBound(l: Limits, e: Option<Entry>, t: real, a: real, b: real)
    requires WellFormed(l, e, t) && t < a
    ensures Budget(l, e, a, a, b) <= Bound(l) && Threshold(l) <= Bound(l)
  {
  }

  /** Any interval shorter than both the window and the lockout holds at most 2 * max_attempts - 2
      recorded failures of one key (1 when max_attempts is at most 1), over every run of calls on
      any keys in which the key's attempts are guarded and nothing live is evicted. */
  lemma {:induction false} ThrottleBound(l: Limits, m: Table, t: real, calls: seq<Call>, key: string, open: bool,
                                         a: real, b: real)
    requires Short(l, a, b) && 0.0 <= l.lockout && 0.0 <= t && Ordered(calls, t) && Guarded(l, m, calls, key, open)
    requires WellFormed(l, Get(m, key), t) && t < a
    requires open ==> RetryAfterOf(Get(m, key), t).None?
    ensures FailuresIn(calls, key, a, b) <= Bound(l)
    decreases |calls|
  {
    if calls != [] {
      var call, rest := calls[0], calls[1..];
      var next := After(l, m, call, true);
      EntryAfter(l, m, call, key);
      var e, e' := Get(m, key), Get(next, key);
      if call.Reset? {
        ThrottleBound(l, next, t, rest, key, open, a, b);
      } else if call.now >= a {
        BudgetAtMostBound(l, e, t, a, b);
        WithinInterval(l, m, a, calls, key, open, a, b);
      } else if call.Check? {
        ThrottleBound(l, next, call.now, rest, key,
                      if call.key == key then RetryAfterOf(e, call.now).None? else open, a, b);
      } else {
        if call.key == key {
          FailedWellFormed(l, e, t, call.now);
        }
        if call.later < a {
          ThrottleBound(l, next, call.later, rest, key, open && call.key != key, a, b);
        } else {
          BudgetAtMostBound(l, e', call.now, a, b);
          BudgetOfPruned(l, e', a, call.later, a, b);
          WithinInterval(l, next, call.later, rest, key, open && call.key != key, a, b);
        }
      }
    }
  }

  /** From a new limiter on, every interval of every guarded run is covered. */
  lemma LoginsThrottled(l: Limits, calls: seq<Call>, key: string, a: real, b: real)
    requires Short(l, a, b) && 0.0 <= l.lockout && Ordered(calls, 0.0) && Guarded(l, map[], calls, key, false)
    ensures FailuresIn(calls, key, a, b) <= Bound(l) <= 2 * Threshold(l) - 1
  {
    if a == 0.0 {
      WithinInterval(l, map[], 0.0, calls, key, false, a, b);
    } else {
      ThrottleBound(l, map[], 0.0, calls, key, false, a, b);
    }
  }

  // ------------------------------------------------------------------ locks

  /** Until ``u`` every check of the key is refused and no failure of it is recorded. */
  predicate RefusedUntil(l: Limits, m: Table, calls: seq<Call>, key: string, u: real)
    decreases |calls|
  {
    calls == [] || (
      var call := calls[0];
      && (call.Check? && call.key == key && call.now < u ==> RetryAfterOf(Get(m, key), call.now).Some?)
      && (call.Fail? && call.key == key ==> call.now >= u)
      && RefusedUntil(l, After(l, m, call, true), calls[1..], key, u))
  }

  lemma {:induction false} NothingLeftToRefuse(l: Limits, m: Table, t: real, calls: seq<Call>, key: string, u: real)
    requires Ordered(calls, t) && u <= t
    ensures RefusedUntil(l, m, calls, key, u)
    decreases |calls|
  {
    if calls != [] {
      var next := After(l, m, calls[0], true);
      match calls[0]
      case Check(_, now) => NothingLeftToRefuse(l, next, now, calls[1..], key, u);
      case Fail(_, _, later) => NothingLeftToRefuse(l, next, later, calls[1..], key, u);
      case Reset(_) => NothingLeftToRefuse(l, next, t, calls[1..], key, u);
    }
  }

  /** A lock, once set, holds until it expires, over every guarded run. */
  lemma {:induction false} LockHolds(l: Limits, m: Table, t: real, calls: seq<Call>, key: string, u: real)
    requires Ordered(calls, t) && Guarded(l, m, calls, key, false)
    requires key in m && u <= m[key].lockedUntil
    ensures RefusedUntil(l, m, calls, key, u)
    decreases |calls|
  {
    if calls != [] {
      var call, next := calls[0], After(l, m, calls[0], true);
      var end := match call case Check(_, now) => now case Fail(_, _, later) => later case Reset(_) => t;
      if end >= u {
        NothingLeftToRefuse(l, next, end, calls[1..], key, u);
      } else {
        EntryAfter(l, m, call, key);
        LockHolds(l, next, end, calls[1..], key, u);
      }
    }
  }

  /** A refused caller that waits the seconds it was told is let through, one that waits less than the
      true time is not, and the answer overstates the true time by at most one second. */
  lemma WaitSuffices(e: Entry, now: real, wait: real)
    requires RetryAfterOf(Some(e), now).Some? && wait >= 0.0
    ensures var told, needed := RetryAfterOf(Some(e), now).value as real, e.lockedUntil - now;
            && (RetryAfterOf(Some(e), now + wait).None? <==> wait >= needed)
            && needed < told <= needed + 1.0
  {
  }

  /** Without the guard a lock can be lost: a failure recorded while the key is locked, by an attempt
      that was let through earlier, keeps the lock exactly when the window has not elapsed or one
      failure locks. */
  lemma OverlappingFailureKeepsLockIff(l: Limits, e: Entry, t: real, now: real)
    requires WellFormed(l, Some(e), t) && t <= now < e.lockedUntil && 0.0 <= now && 0.0 <= l.lockout
    ensures Failed(l, Some(e), now).lockedUntil >= e.lockedUntil <==>
            now - e.windowStart <= l.window || l.maxAttempts <= 1
  {
  }

  // ------------------------------------------------------------------ the bound is reached

  /** A guarded failure: the check and the record at one instant. */
  function Attempts(key: string, times: seq<real>): seq<Call> {
    if times == [] then []
    else [Check(key, times[0]), Fail(key, times[0], times[0])] + Attempts(key, times[1..])
  }

  lemma OneMoreKey(m: Table, key: string, e: Entry)
    ensures |m[key := e]| <= |m| + 1
  {
    assert m[key := e].Keys == m.Keys + {key};
    assert |m[key := e].Keys| == |m[key := e]| && |m.Keys| == |m|;
  }

  /** The failures of an unlocked key, one after the other. */
  lemma AttemptsStep(l: Limits, m: Table, key: string, times: seq<real>, t: real, a: real, b: real)
    requires times != [] && t <= times[0] && |m| < MAX_ENTRIES && RetryAfterOf(Get(m, key), times[0]).None?
    ensures var next := m[key := Failed(l, Get(m, key), times[0])];
            var calls, rest := Attempts(key, times), Attempts(key, times[1..]);
            && (Ordered(calls, t) <==> Ordered(rest, times[0]))
            && (Guarded(l, m, calls, key, false) <==> Guarded(l, next, rest, key, false))
            && FailuresIn(calls, key, a, b) == (if a <= times[0] <= b then 1 else 0) + FailuresIn(rest, key, a, b)
  {
    var now := times[0];
    var calls, rest := Attempts(key, times), Attempts(key, times[1..]);
    var tail := [Fail(key, now, now)] + rest;
    var next := m[key := Failed(l, Get(m, key), now)];
    assert calls[1..] == tail && tail[1..] == rest;
    OneMoreKey(m, key, next[key]);
    assert After(l, m, calls[0], true) == m && After(l, m, tail[0], true) == next;
    assert Guarded(l, m, calls, key, false) <==> Guarded(l, m, tail, key, true);
    assert FailuresIn(calls, key, a, b) == FailuresIn(tail, key, a, b);
  }

  /** The guarded failures at ``times``, the first of them at ``t`` or later, put ``n`` into the interval. */
  ghost predicate CountsAs(l: Limits, m: Table, times: seq<real>, t: real, key: string, a: real, b: real, n: nat) {
    var calls := Attempts(key, times);
    Ordered(calls, t) && Guarded(l, m, calls, key, false) && FailuresIn(calls, key, a, b) == n
  }

  /** One more failure before the others, of a key that is alone in the table or not there yet. */
  lemma CountsStep(l: Limits, e: Option<Entry>, key: string, now: real, times: seq<real>, t: real, a: real, b: real,
                   n: nat)
    requires t <= now && RetryAfterOf(e, now).None?
    requires CountsAs(l, Alone(key, Some(Failed(l, e, now))), times, now, key, a, b, n)
    ensures CountsAs(l, Alone(key, e), [now] + times, t, key, a, b, n + if a <= now <= b then 1 else 0)
  {
    var m, all := Alone(key, e), [now] + times;
    assert all[1..] == times && |m| <= 1;
    assert m[key := Failed(l, e, now)] == Alone(key, Some(Failed(l, e, now)));
    AttemptsStep(l, m, key, all, t, a, b);
  }

  function Alone(key: string, e: Option<Entry>): Table { if e.Some? then map[key := e.value] else map[] }

  function Repeat(now: real, n: nat): (r: seq<real>)
    ensures |r| == n
  {
    seq(n, k => now)
  }

  lemma RepeatNext(now: real, n: nat, tail: seq<real>)
    requires n > 0
    ensures Repeat(now, n) + tail == [now] + (Repeat(now, n - 1) + tail)
  {
  }

  lemma CountsFromEarlier(l: Limits, m: Table, times: seq<real>, t: real, now: real, key: string, a: real, b: real,
                          n: nat)
    requires t <= now && CountsAs(l, m, times, now, key, a, b, n)
    ensures CountsAs(l, m, times, t, key, a, b, n)
  {
  }

  /** ``n`` failures at one instant in the interval that do not lock the key, before others. */
  lemma {:induction false} CountsBurst(l: Limits, key: string, start: real, failures: int, now: real, n: nat,
                                       tail: seq<real>, t: real, a: real, b: real, k: nat)
    requires t <= now && start <= now <= start + l.window && 0.0 <= now && a <= now <= b
    requires failures + n < l.maxAttempts
    requires CountsAs(l, Alone(key, Some(Entry(failures + n, start, 0.0))), tail, now, key, a, b, k)
    ensures CountsAs(l, Alone(key, Some(Entry(failures, start, 0.0))), Repeat(now, n) + tail, t, key, a, b, n + k)
    decreases n
  {
    if n == 0 {
      assert Repeat(now, 0) + tail == tail;
      CountsFromEarlier(l, Alone(key, Some(Entry(failures, start, 0.0))), tail, t, now, key, a, b, k);
    } else {
      CountsBurst(l, key, start, failures + 1, now, n - 1, tail, now, a, b, k);
      RepeatNext(now, n, tail);
      CountsStep(l, Some(Entry(failures, start, 0.0)), key, now, Repeat(now, n - 1) + tail, t, a, b, n - 1 + k);
    }
  }

  /** All the failures that lock, at ``now`` in a new window. */
  lemma CountsLocking(l: Limits, key: string, e: Entry, now: real, a: real, b: real)
    requires l.maxAttempts >= 2 && 0.0 <= now && a <= now <= b && 0.0 <= l.window
    requires e.lockedUntil == 0.0 && now - e.windowStart > l.window
    ensures CountsAs(l, Alone(key, Some(e)), [now] + (Repeat(now, l.maxAttempts - 2) + [now]), now, key, a, b,
                     l.maxAttempts)
  {
    var n := l.maxAttempts - 2;
    var last := Entry(n + 1, now, 0.0);
    assert CountsAs(l, Alone(key, Some(Failed(l, Some(last), now))), [], now, key, a, b, 0);
    CountsStep(l, Some(last), key, now, [], now, a, b, 0);
    assert [now] + [] == [now];
    CountsBurst(l, key, now, 1, now, n, [now], now, a, b, 1);
    CountsStep(l, Some(e), key, now, Repeat(now, n) + [now], now, a, b, n + 1);
  }

  /** The failures of the run that reaches the bound: one, then, when its window is about to end, all but
      one of those that would lock, then, in a new window, all that lock. */
  function Tight(l: Limits, late: real): seq<real>
    requires l.maxAttempts >= 2
  {
    [0.0] + (Repeat(l.window, l.maxAttempts - 2) + ([late] + (Repeat(late, l.maxAttempts - 2) + [late])))
  }

  /** For every threshold of at least two, every window and every lockout, a guarded run on a new limiter
      puts 2 * max_attempts - 2 failures into an interval shorter than both: the bound cannot be lowered. */
  lemma BoundIsReached(l: Limits, key: string)
    requires l.maxAttempts >= 2 && l.window > 0.0 && l.lockout > 0.0
    ensures var half := (if l.window <= l.lockout then l.window else l.lockout) / 2.0;
            var a, b := l.window, l.window + half;
            && Short(l, a, b)
            && CountsAs(l, map[], Tight(l, b), 0.0, key, a, b, 2 * l.maxAttempts - 2)
            && Bound(l) == 2 * l.maxAttempts - 2
  {
    var half := (if l.window <= l.lockout then l.window else l.lockout) / 2.0;
    var a, b, n := l.window, l.window + half, l.maxAttempts - 2;
    var locking := [b] + (Repeat(b, n) + [b]);
    CountsLocking(l, key, Entry(n + 1, 0.0, 0.0), b, a, b);
    CountsFromEarlier(l, Alone(key, Some(Entry(n + 1, 0.0, 0.0))), locking, a, b, key, a, b, n + 2);
    CountsBurst(l, key, 0.0, 1, a, n, locking, 0.0, a, b, n + 2);
    CountsStep(l, None, key, 0.0, Repeat(a, n) + locking, 0.0, a, b, 2 * n + 2);
  }
}

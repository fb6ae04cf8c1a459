/**
 The request-rate limiter (``RequestRateLimiter``, app/ratelimit.py): one token bucket per key.
 Time is a real that never runs backwards; token counts are exact.
 */
module TokenBucket {
  import opened Wrappers
  import opened BoundedMaps

  /** Refill rate in tokens per second, and bucket capacity. */
  datatype Config = Config(rate: real, burst: real)

  datatype Bucket = Bucket(tokens: real, updated: real)

  type Table = map<string, Bucket>

  // ------------------------------------------------------------------ one key

  function Lesser(a: real, b: real): real { if a <= b then a else b }

  /** The bucket brought up to date; a new client starts with a full one. */
  function Refilled(c: Config, b: Option<Bucket>, now: real): Bucket {
    if b.None? then Bucket(c.burst, now)
    else Bucket(Lesser(c.burst, b.value.tokens + (now - b.value.updated) * c.rate), now)
  }

  predicate Allowed(c: Config, b: Option<Bucket>, now: real) { Refilled(c, b, now).tokens >= 1.0 }

  /** The bucket after a check: an allowed one takes a token. */
  function Checked(c: Config, b: Option<Bucket>, now: real): Bucket {
    var full := Refilled(c, b, now);
    if full.tokens >= 1.0 then full.(tokens := full.tokens - 1.0) else full
  }

  /** ``None`` when allowed, else the whole seconds to wait. */
  function Answer(c: Config, b: Option<Bucket>, now: real): Option<int>
    requires c.rate > 0.0
  {
    var full := Refilled(c, b, now);
    if full.tokens >= 1.0 then None else Some(((1.0 - full.tokens) / c.rate).Floor + 1)
  }

  /** Back at capacity: the bucket carries nothing a new one would not. */
  predicate Idle(c: Config, b: Bucket, now: real) { b.tokens + (now - b.updated) * c.rate >= c.burst }

  // ------------------------------------------------------------------ the table

  function CheckedTable(c: Config, m: Table, key: string, now: real): Table {
    m[key := Checked(c, Get(m, key), now)]
  }

  function Pruned(c: Config, m: Table, now: real): Table {
    if |m| <= MAX_ENTRIES then m else map k | k in m && !Idle(c, m[k], now) :: m[k]
  }

  ghost predicate EvictedOldest(live: Table, kept: Table) {
    && kept.Keys <= live.Keys
    && (forall k | k in kept :: kept[k] == live[k])
    && |kept| == MAX_ENTRIES
    && (forall k, d | k in kept && d in live && d !in kept :: live[d].updated <= live[k].updated)
  }

  class RequestRateLimiter {
    const config: Config
    var buckets: Table

    constructor (perMinute: int, burst: int)
      ensures config == Config(perMinute as real / 60.0, burst as real) && buckets == map[]
    {
      config := Config(perMinute as real / 60.0, burst as real);
      buckets := map[];
    }

    /** ``later`` is the second clock reading, taken by the pruning of an allowed check. */
    method Check(key: string, now: real, later: real) returns (r: Option<int>)
      requires config.rate > 0.0
      modifies this
      ensures r == Answer(config, Get(old(buckets), key), now)
      ensures var checked := CheckedTable(config, old(buckets), key, now);
              var live := Pruned(config, checked, later);
              if r.Some? then buckets == checked
              else if |live| <= MAX_ENTRIES then buckets == live
              else EvictedOldest(live, buckets)
      ensures config.burst >= 1.0 && |old(buckets)| <= MAX_ENTRIES ==> |buckets| <= MAX_ENTRIES
    {
      var bucket: Bucket;
      if key !in buckets {
        bucket := Bucket(config.burst, now);
      } else {
        var elapsed := now - buckets[key].updated;
        bucket := Bucket(Lesser(config.burst, buckets[key].tokens + elapsed * config.rate), now);
      }
      assert bucket == Refilled(config, Get(buckets, key), now);
      if bucket.tokens >= 1.0 {
        bucket := bucket.(tokens := bucket.tokens - 1.0);
        assert bucket == Checked(config, Get(buckets, key), now);
        buckets := buckets[key := bucket];
        MaybePrune(later);
        return None;
      }
      KeysKeepSize(buckets, key, bucket);
      buckets := buckets[key := bucket];
      return Some(((1.0 - bucket.tokens) / config.rate).Floor + 1);
    }

    method MaybePrune(now: real)
      modifies this
      ensures var live := Pruned(config, old(buckets), now);
              if |live| <= MAX_ENTRIES then buckets == live else EvictedOldest(live, buckets)
    {
      if |buckets| <= MAX_ENTRIES {
        return;
      }
      buckets := map k | k in buckets && !Idle(config, buckets[k], now) :: buckets[k];
      ghost var live := buckets;
      while |buckets| > MAX_ENTRIES
        invariant buckets.Keys <= live.Keys
        invariant forall k | k in buckets :: buckets[k] == live[k]
        invariant |live| > MAX_ENTRIES ==> |buckets| >= MAX_ENTRIES
        invariant |live| <= MAX_ENTRIES ==> buckets == live
        invariant forall k, d | k in buckets && d in live && d !in buckets :: live[d].updated <= live[k].updated
        decreases |buckets|
      {
        var oldest := LeastRecent(buckets);
        DropOne(buckets, oldest);
        buckets := buckets - {oldest};
      }
    }
  }

  lemma KeysKeepSize(m: Table, key: string, b: Bucket)
    ensures key in m ==> |m[key := b]| == |m|
  {
    if key in m {
      assert m[key := b].Keys == m.Keys;
      assert |m[key := b].Keys| == |m[key := b]| && |m.Keys| == |m|;
    }
  }

  method LeastRecent(m: Table) returns (oldest: string)
    requires m != map[]
    ensures oldest in m && forall k | k in m :: m[oldest].updated <= m[k].updated
  {
    NonEmptyKeys(m);
    var left := m.Keys;
    oldest := PickOne(left);
    left := left - {oldest};
    while left != {}
      invariant left <= m.Keys && oldest in m
      invariant forall k | k in m.Keys - left :: m[oldest].updated <= m[k].updated
      decreases left
    {
      var k := PickOne(left);
      left := left - {k};
      if m[k].updated < m[oldest].updated {
        oldest := k;
      }
    }
  }

  // ------------------------------------------------------------------ runs

  /** A check with its two clock readings. */
  datatype Call = Call(key: string, now: real, later: real)

  predicate Ordered(calls: seq<Call>, t: real)
    decreases |calls|
  {
    calls == [] || (t <= calls[0].now <= calls[0].later && Ordered(calls[1..], calls[0].later))
  }

  /** The table after a check of a limiter that prunes, if ``prunes``, but never evicts. */
  function After(c: Config, m: Table, call: Call, prunes: bool): Table {
    var checked := CheckedTable(c, m, call.key, call.now);
    if prunes && Allowed(c, Get(m, call.key), call.now) then Pruned(c, checked, call.later) else checked
  }

  function Answers(c: Config, m: Table, calls: seq<Call>, prunes: bool): seq<Option<int>>
    requires c.rate > 0.0
    decreases |calls|
  {
    if calls == [] then []
    else [Answer(c, Get(m, calls[0].key), calls[0].now)] + Answers(c, After(c, m, calls[0], prunes), calls[1..], prunes)
  }

  /** Pruning always gets the table within its budget, so no live bucket is ever evicted. */
  predicate WithinBudget(c: Config, m: Table, calls: seq<Call>)
    decreases |calls|
  {
    calls == [] || (
      var next := After(c, m, calls[0], true);
      (Allowed(c, Get(m, calls[0].key), calls[0].now) ==> |next| <= MAX_ENTRIES) && WithinBudget(c, next, calls[1..]))
  }

  // ------------------------------------------------------------------ pruning is invisible

  /** ``pruned`` is ``full`` without some idle buckets. */
  ghost predicate Refines(c: Config, pruned: Table, full: Table, t: real) {
    && pruned.Keys <= full.Keys
    && (forall k | k in pruned :: pruned[k] == full[k])
    && (forall k | k in full && k !in pruned :: Idle(c, full[k], t))
  }

  lemma IdleStays(c: Config, b: Bucket, t: real, now: real)
    requires c.rate > 0.0 && t <= now && Idle(c, b, t)
    ensures Idle(c, b, now)
  {
    assert (now - b.updated) * c.rate == (t - b.updated) * c.rate + (now - t) * c.rate;
    assert (now - t) * c.rate >= 0.0;
  }

  lemma SameRefillSameAnswer(c: Config, e: Option<Bucket>, f: Option<Bucket>, now: real)
    requires c.rate > 0.0 && Refilled(c, e, now) == Refilled(c, f, now)
    ensures Answer(c, e, now) == Answer(c, f, now)
  {
  }

  /** A new bucket and an idle one look the same. */
  lemma IdleRefills(c: Config, b: Bucket, now: real)
    requires Idle(c, b, now)
    ensures Refilled(c, Some(b), now) == Refilled(c, None, now)
  {
  }

  lemma RefinesChecked(c: Config, pruned: Table, full: Table, t: real, key: string, now: real)
    requires c.rate > 0.0 && Refines(c, pruned, full, t) && t <= now
    ensures Refilled(c, Get(pruned, key), now) == Refilled(c, Get(full, key), now)
    ensures Refines(c, CheckedTable(c, pruned, key, now), CheckedTable(c, full, key, now), t)
  {
    if key in full && key !in pruned {
      IdleStays(c, full[key], t, now);
      IdleRefills(c, full[key], now);
    }
  }

  lemma RefinesPruned(c: Config, pruned: Table, full: Table, t: real, now: real)
    requires c.rate > 0.0 && Refines(c, pruned, full, t) && t <= now
    ensures Refines(c, Pruned(c, pruned, now), full, now)
    ensures Refines(c, pruned, full, now)
  {
    forall k | k in full && k !in pruned ensures Idle(c, full[k], now) {
      IdleStays(c, full[k], t, now);
    }
  }

  lemma RefinesAfter(c: Config, pruned: Table, full: Table, t: real, call: Call)
    requires c.rate > 0.0 && Refines(c, pruned, full, t) && t <= call.now <= call.later
    ensures Refines(c, After(c, pruned, call, true), After(c, full, call, false), call.later)
    ensures Refilled(c, Get(pruned, call.key), call.now) == Refilled(c, Get(full, call.key), call.now)
  {
    RefinesChecked(c, pruned, full, t, call.key, call.now);
    var p, f := CheckedTable(c, pruned, call.key, call.now), CheckedTable(c, full, call.key, call.now);
    RefinesPruned(c, p, f, t, call.later);
    assert After(c, full, call, false) == f;
    assert After(c, pruned, call, true) == p || After(c, pruned, call, true) == Pruned(c, p, call.later);
  }

  /** Every sequence of checks gets the same answers as from a limiter that never prunes, as long
      as no live bucket has to be evicted. */
  lemma {:induction false} PruningInvisible(c: Config, pruned: Table, full: Table, t: real, calls: seq<Call>)
    requires c.rate > 0.0 && Refines(c, pruned, full, t) && Ordered(calls, t) && WithinBudget(c, pruned, calls)
    ensures Answers(c, pruned, calls, true) == Answers(c, full, calls, false)
    decreases |calls|
  {
    if calls != [] {
      var call := calls[0];
      RefinesAfter(c, pruned, full, t, call);
      SameRefillSameAnswer(c, Get(pruned, call.key), Get(full, call.key), call.now);
      PruningInvisible(c, After(c, pruned, call, true), After(c, full, call, false), call.later, calls[1..]);
    }
  }

  /** Pruning drops exactly the buckets that no later check can tell from a new one. */
  lemma IdleIff(c: Config, b: Bucket, now: real)
    requires c.rate > 0.0
    ensures Idle(c, b, now) <==> forall t | t >= now :: Refilled(c, Some(b), t) == Refilled(c, None, t)
  {
    if Idle(c, b, now) {
      forall t | t >= now ensures Refilled(c, Some(b), t) == Refilled(c, None, t) {
        IdleStays(c, b, now, t);
      }
    } else {
      assert Refilled(c, Some(b), now) != Refilled(c, None, now);
    }
  }

  // ------------------------------------------------------------------ the rate bound

  /** The checks of the key that the run allows between ``a`` and ``b``. */
  function AllowedIn(c: Config, m: Table, calls: seq<Call>, key: string, a: real, b: real): nat
    decreases |calls|
  {
    if calls == [] then 0
    else
      var call := calls[0];
      (if call.key == key && a <= call.now <= b && Allowed(c, Get(m, key), call.now) then 1 else 0)
      + AllowedIn(c, After(c, m, call, true), calls[1..], key, a, b)
  }

  /** What the bucket can still pay for until time ``b``. */
  function Credit(c: Config, e: Option<Bucket>, t: real, b: real): real {
    Refilled(c, e, t).tokens + (b - t) * c.rate
  }

  /** A refill in two steps is a refill in one. */
  lemma RefillTwice(c: Config, e: Option<Bucket>, t: real, now: real)
    requires c.rate > 0.0 && c.burst >= 0.0 && t <= now
    ensures Refilled(c, Some(Refilled(c, e, t)), now) == if e.Some? then Refilled(c, e, now) else Bucket(c.burst, now)
  {
    assert (now - t) * c.rate >= 0.0;
    if e.Some? {
      var u := e.value.updated;
      assert (now - u) * c.rate == (t - u) * c.rate + (now - t) * c.rate;
    }
  }

  /** Waiting never gains credit. */
  lemma CreditFalls(c: Config, e: Option<Bucket>, t: real, now: real, b: real)
    requires c.rate > 0.0 && c.burst >= 0.0 && t <= now
    ensures Credit(c, e, now, b) <= Credit(c, e, t, b)
  {
    RefillTwice(c, e, t, now);
    assert (b - t) * c.rate == (b - now) * c.rate + (now - t) * c.rate;
    assert (now - t) * c.rate >= 0.0;
  }

  /** The key's bucket after any check: another key's check leaves it or finds it idle. */
  lemma BucketAfter(c: Config, m: Table, call: Call, key: string)
    requires c.rate > 0.0 && call.now <= call.later
    ensures var e, e' := Get(m, key), Get(After(c, m, call, true), key);
            var moved := if call.key == key then Some(Checked(c, e, call.now)) else e;
            e' == moved || (moved.Some? && e'.None? && Idle(c, moved.value, call.later))
  {
  }

  /** Dropping an idle bucket does not change what it can pay for. */
  lemma IdleCredit(c: Config, e: Option<Bucket>, t: real, b: real)
    requires e.Some? && Idle(c, e.value, t)
    ensures Credit(c, None, t, b) == Credit(c, e, t, b)
  {
  }

  /** An allowed check costs one token of credit, a refused one nothing. */
  lemma CreditOfChecked(c: Config, e: Option<Bucket>, now: real, b: real)
    requires c.rate > 0.0 && c.burst >= 1.0
    ensures Credit(c, Some(Checked(c, e, now)), now, b) ==
            Credit(c, e, now, b) - (if Allowed(c, e, now) then 1.0 else 0.0)
  {
    var left := Checked(c, e, now);
    assert (now - left.updated) * c.rate == 0.0;
    assert left.tokens <= c.burst && Refilled(c, Some(left), now) == left;
  }

  /** What one check of any key does to the credit of ``key``. */
  lemma CreditAfter(c: Config, m: Table, t: real, call: Call, key: string, b: real)
    requires c.rate > 0.0 && c.burst >= 1.0 && t <= call.now <= call.later
    ensures var e, e' := Get(m, key), Get(After(c, m, call, true), key);
            var spent := if call.key == key && Allowed(c, e, call.now) then 1.0 else 0.0;
            Credit(c, e', call.later, b) + spent <= Credit(c, e, t, b)
  {
    var e, e' := Get(m, key), Get(After(c, m, call, true), key);
    var moved := if call.key == key then Some(Checked(c, e, call.now)) else e;
    BucketAfter(c, m, call, key);
    CreditFalls(c, e, t, call.now, b);
    CreditOfChecked(c, e, call.now, b);
    CreditFalls(c, moved, call.now, call.later, b);
    if e' != moved {
      IdleCredit(c, moved, call.later, b);
    }
  }

  /** An allowed check leaves room for itself. */
  lemma CreditOfAllowed(c: Config, e: Option<Bucket>, t: real, now: real, b: real)
    requires c.rate > 0.0 && c.burst >= 1.0 && t <= now <= b && Allowed(c, e, now)
    ensures Credit(c, e, t, b) >= 1.0
  {
    CreditFalls(c, e, t, now, b);
    assert (b - now) * c.rate >= 0.0;
    assert Credit(c, e, now, b) == Refilled(c, e, now).tokens + (b - now) * c.rate;
  }

  lemma {:induction false} AllowedWithinCredit(c: Config, m: Table, t: real, calls: seq<Call>, key: string, a: real,
                                               b: real)
    requires c.rate > 0.0 && c.burst >= 1.0 && a <= t && Ordered(calls, t)
    ensures var n := AllowedIn(c, m, calls, key, a, b);
            n > 0 ==> n as real <= Credit(c, Get(m, key), t, b)
    decreases |calls|
  {
    if calls != [] {
      var call := calls[0];
      CreditAfter(c, m, t, call, key, b);
      AllowedWithinCredit(c, After(c, m, call, true), call.later, calls[1..], key, a, b);
      if call.key == key && call.now <= b && Allowed(c, Get(m, key), call.now) {
        CreditOfAllowed(c, Get(m, key), t, call.now, b);
      }
    }
  }

  lemma CreditAtMostBound(c: Config, e: Option<Bucket>, t: real, a: real, b: real)
    requires c.rate > 0.0 && a <= t
    ensures Credit(c, e, t, b) <= c.burst + c.rate * (b - a)
  {
    assert (b - t) * c.rate == c.rate * (b - a) - (t - a) * c.rate;
    assert (t - a) * c.rate >= 0.0;
  }

  lemma {:induction false} AllowedWithinBound(c: Config, m: Table, t: real, calls: seq<Call>, key: string, a: real,
                                              b: real, bound: real)
    requires c.rate > 0.0 && c.burst >= 1.0 && a <= b && Ordered(calls, t)
    requires bound >= 0.0 && forall e, from | a <= from :: Credit(c, e, from, b) <= bound
    ensures AllowedIn(c, m, calls, key, a, b) as real <= bound
    decreases |calls|
  {
    if calls != [] && calls[0].now >= a {
      AllowedWithinCredit(c, m, if t >= a then t else a, calls, key, a, b);
    } else if calls != [] {
      AllowedWithinBound(c, After(c, m, calls[0], true), calls[0].later, calls[1..], key, a, b, bound);
    }
  }

  /** In any interval of length ``b - a`` a key is allowed at most burst + rate * (b - a) requests,
      over every run of checks of any keys in which nothing live is evicted. */
  lemma RateBound(c: Config, m: Table, t: real, calls: seq<Call>, key: string, a: real, b: real)
    requires c.rate > 0.0 && c.burst >= 1.0 && a <= b && Ordered(calls, t)
    ensures AllowedIn(c, m, calls, key, a, b) as real <= c.burst + c.rate * (b - a)
  {
    forall e, from | a <= from ensures Credit(c, e, from, b) <= c.burst + c.rate * (b - a) {
      CreditAtMostBound(c, e, from, a, b);
    }
    AllowedWithinBound(c, m, t, calls, key, a, b, c.burst + c.rate * (b - a));
  }

  // ------------------------------------------------------------------ refused checks and waiting

  /** The same with no check in between. */
  lemma WaitOnce(c: Config, e: Option<Bucket>, now: real, wait: real)
    requires c.rate > 0.0 && c.burst >= 1.0 && !Allowed(c, e, now) && wait >= 0.0
    ensures var told, needed := Answer(c, e, now).value as real, (1.0 - Refilled(c, e, now).tokens) / c.rate;
            && (Allowed(c, Some(Checked(c, e, now)), now + wait) <==> wait >= needed)
            && needed < told <= needed + 1.0
  {
    var missing := 1.0 - Refilled(c, e, now).tokens;
    var needed := missing / c.rate;
    assert needed * c.rate == missing;
    if wait >= needed {
      assert (wait - needed) * c.rate >= 0.0;
      assert wait * c.rate == needed * c.rate + (wait - needed) * c.rate;
    } else {
      assert (needed - wait) * c.rate > 0.0;
      assert wait * c.rate == needed * c.rate - (needed - wait) * c.rate;
    }
  }

  /** The bucket a refused check leaves behaves, at every later time, as the bucket it found. */
  lemma RefusalRefillsAlike(c: Config, e: Option<Bucket>, now: real, later: real)
    requires c.rate > 0.0 && c.burst >= 1.0 && now <= later && !Allowed(c, e, now)
    ensures Refilled(c, Some(Checked(c, e, now)), later) == Refilled(c, e, later)
  {
    RefillTwice(c, e, now, later);
  }

  /** On one line of tokens over time. */
  predicate SameLine(c: Config, x: Bucket, y: Bucket) {
    x.tokens - x.updated * c.rate == y.tokens - y.updated * c.rate
  }

  /** The tables differ in when their buckets were last brought up to date only. */
  ghost predicate Alike(c: Config, a: Table, b: Table) {
    a.Keys == b.Keys && forall k | k in a :: SameLine(c, a[k], b[k])
  }

  lemma SameLineRefills(c: Config, x: Bucket, y: Bucket, now: real)
    requires SameLine(c, x, y)
    ensures Refilled(c, Some(x), now) == Refilled(c, Some(y), now)
    ensures Idle(c, x, now) <==> Idle(c, y, now)
  {
    assert (now - x.updated) * c.rate == now * c.rate - x.updated * c.rate;
    assert (now - y.updated) * c.rate == now * c.rate - y.updated * c.rate;
  }

  lemma SizeOfKeys(a: Table, b: Table)
    requires a.Keys == b.Keys
    ensures |a| == |b|
  {
    assert |a.Keys| == |a| && |b.Keys| == |b|;
  }

  lemma AlikePruned(c: Config, a: Table, b: Table, now: real)
    requires Alike(c, a, b)
    ensures Alike(c, Pruned(c, a, now), Pruned(c, b, now))
  {
    SizeOfKeys(a, b);
    forall k | k in a ensures Idle(c, a[k], now) <==> Idle(c, b[k], now) {
      SameLineRefills(c, a[k], b[k], now);
    }
  }

  lemma AlikeAfter(c: Config, a: Table, b: Table, call: Call)
    requires c.rate > 0.0 && Alike(c, a, b)
    ensures Answer(c, Get(a, call.key), call.now) == Answer(c, Get(b, call.key), call.now)
    ensures Allowed(c, Get(a, call.key), call.now) == Allowed(c, Get(b, call.key), call.now)
    ensures Alike(c, After(c, a, call, true), After(c, b, call, true))
  {
    if call.key in a {
      SameLineRefills(c, a[call.key], b[call.key], call.now);
    }
    SameRefillSameAnswer(c, Get(a, call.key), Get(b, call.key), call.now);
    AlikePruned(c, CheckedTable(c, a, call.key, call.now), CheckedTable(c, b, call.key, call.now), call.later);
  }

  lemma {:induction false} AlikeAnswers(c: Config, a: Table, b: Table, calls: seq<Call>)
    requires c.rate > 0.0 && Alike(c, a, b)
    ensures Answers(c, a, calls, true) == Answers(c, b, calls, true)
    ensures WithinBudget(c, a, calls) <==> WithinBudget(c, b, calls)
    decreases |calls|
  {
    if calls != [] {
      AlikeAfter(c, a, b, calls[0]);
      AlikeAnswers(c, After(c, a, calls[0], true), After(c, b, calls[0], true), calls[1..]);
      SizeOfKeys(After(c, a, calls[0], true), After(c, b, calls[0], true));
    }
  }

  lemma RefusalAlike(c: Config, m: Table, refused: Call)
    requires c.rate > 0.0 && c.burst >= 1.0 && !Allowed(c, Get(m, refused.key), refused.now)
    ensures Alike(c, After(c, m, refused, true), m)
    ensures After(c, m, refused, true) == m[refused.key := m[refused.key].(
              tokens := Refilled(c, Get(m, refused.key), refused.now).tokens, updated := refused.now)]
  {
    var b := m[refused.key];
    assert (refused.now - b.updated) * c.rate == refused.now * c.rate - b.updated * c.rate;
    assert SameLine(c, Checked(c, Some(b), refused.now), b);
  }

  /** A refused check never changes a later decision, on any key, over every run in which nothing live
      is evicted; nor does it change whether a run is one. */
  lemma RefusalChangesNothing(c: Config, m: Table, call: Call, rest: seq<Call>)
    requires c.rate > 0.0 && c.burst >= 1.0 && !Allowed(c, Get(m, call.key), call.now)
    ensures Answers(c, After(c, m, call, true), rest, true) == Answers(c, m, rest, true)
    ensures WithinBudget(c, After(c, m, call, true), rest) <==> WithinBudget(c, m, rest)
  {
    RefusalAlike(c, m, call);
    AlikeAnswers(c, After(c, m, call, true), m, rest);
  }

  // ------------------------------------------------------------------ runs with eviction

  /** An allowed check after which pruning alone does not bring the table within its budget. */
  predicate Evicts(c: Config, m: Table, call: Call) {
    Allowed(c, Get(m, call.key), call.now) && |After(c, m, call, true)| > MAX_ENTRIES
  }

  /** The table a check of the limiter leaves, as ``RequestRateLimiter.Check`` promises. */
  ghost predicate Leaves(c: Config, m: Table, call: Call, next: Table) {
    if Evicts(c, m, call) then EvictedOldest(After(c, m, call, true), next) else next == After(c, m, call, true)
  }

  /** The tables before and after each check of a run of the limiter. */
  ghost predicate TablesOf(c: Config, tables: seq<Table>, calls: seq<Call>) {
    |tables| == |calls| + 1 && forall i | 0 <= i < |calls| :: Leaves(c, tables[i], calls[i], tables[i + 1])
  }

  lemma AlikeEvicts(c: Config, a: Table, b: Table, call: Call)
    requires c.rate > 0.0 && Alike(c, a, b)
    ensures Evicts(c, a, call) <==> Evicts(c, b, call)
  {
    AlikeAfter(c, a, b, call);
    SizeOfKeys(After(c, a, call, true), After(c, b, call, true));
  }

  lemma {:induction false} AlikeUntilEviction(c: Config, a: seq<Table>, b: seq<Table>, calls: seq<Call>, i: nat)
    requires c.rate > 0.0 && TablesOf(c, a, calls) && TablesOf(c, b, calls) && Alike(c, a[0], b[0]) && i <= |calls|
    requires forall j | 0 <= j < i :: !Evicts(c, b[j], calls[j])
    ensures Alike(c, a[i], b[i])
  {
    if i > 0 {
      AlikeUntilEviction(c, a, b, calls, i - 1);
      AlikeEvicts(c, a[i - 1], b[i - 1], calls[i - 1]);
      AlikeAfter(c, a[i - 1], b[i - 1], calls[i - 1]);
      assert Leaves(c, a[i - 1], calls[i - 1], a[i]) && Leaves(c, b[i - 1], calls[i - 1], b[i]);
    }
  }

  /** A refused check can matter through an eviction only: whatever the limiter evicts, when it answers the
      calls with the refusal before them otherwise than without, some earlier one of them evicted. */
  lemma RefusalMattersThroughEviction(c: Config, m: Table, refused: Call, calls: seq<Call>,
                                      with: seq<Table>, without: seq<Table>, i: nat)
    requires c.rate > 0.0 && c.burst >= 1.0 && !Allowed(c, Get(m, refused.key), refused.now)
    requires TablesOf(c, with, calls) && with[0] == After(c, m, refused, true)
    requires TablesOf(c, without, calls) && without[0] == m
    requires i < |calls|
    requires Answer(c, Get(with[i], calls[i].key), calls[i].now) !=
             Answer(c, Get(without[i], calls[i].key), calls[i].now)
    ensures exists j :: 0 <= j < i && Evicts(c, without[j], calls[j])
  {
    RefusalAlike(c, m, refused);
    if forall j | 0 <= j < i :: !Evicts(c, without[j], calls[j]) {
      AlikeUntilEviction(c, with, without, calls, i);
      AlikeAfter(c, with[i], without[i], calls[i]);
      assert false;
    }
  }

  /** The table is full of live buckets, ``key`` and then ``other`` are the least recently checked ones, a
      check of ``key`` is refused, and a new key is then allowed. */
  ghost predicate FullWhenNewKeyComes(c: Config, m: Table, key: string, other: string, refused: Call, newcomer: Call) {
    && |m| == MAX_ENTRIES && key in m && other in m && key != other
    && (forall k | k in m && k != key :: m[key].updated < m[k].updated)
    && (forall k | k in m && k != key && k != other :: m[other].updated < m[k].updated)
    && refused.key == key && m[other].updated < refused.now <= newcomer.now && !Allowed(c, Get(m, key), refused.now)
    && newcomer.key !in m
    && (forall k | k in m :: !Idle(c, m[k], newcomer.later))
    && !Idle(c, Checked(c, None, newcomer.now), newcomer.later)
  }

  /** In that situation the new key's check evicts the least recently checked bucket, debt and all: that of
      ``key`` without the refused check, so that ``key`` is allowed at once, and that of ``other`` with it, so
      that ``key`` has to wait as it had to before. */
  lemma RefusalMovesEviction(c: Config, m: Table, key: string, other: string, refused: Call, newcomer: Call,
                             without: Table, with: Table, later: real)
    requires c.rate > 0.0 && c.burst >= 1.0 && FullWhenNewKeyComes(c, m, key, other, refused, newcomer)
    requires Leaves(c, m, newcomer, without)
    requires Leaves(c, After(c, m, refused, true), newcomer, with)
    ensures Evicts(c, m, newcomer) && Evicts(c, After(c, m, refused, true), newcomer)
    ensures without.Keys == m.Keys + {newcomer.key} - {key}
    ensures with.Keys == m.Keys + {newcomer.key} - {other}
    ensures Answer(c, Get(without, key), later) == None
    ensures Answer(c, Get(with, key), later) == Answer(c, Get(m, key), later)
  {
    var m' := After(c, m, refused, true);
    RefusalAlike(c, m, refused);
    RefusedStaysFull(c, m, key, other, refused, newcomer);
    NewKeyEvicts(c, m, key, newcomer, without);
    NewKeyEvicts(c, m', other, newcomer, with);
    SameLineRefills(c, m'[key], m[key], later);
    SameRefillSameAnswer(c, Get(with, key), Get(m, key), later);
  }

  lemma RefusedStaysFull(c: Config, m: Table, key: string, other: string, refused: Call, newcomer: Call)
    requires c.rate > 0.0 && c.burst >= 1.0 && FullWhenNewKeyComes(c, m, key, other, refused, newcomer)
    ensures var m' := After(c, m, refused, true);
            && |m'| == MAX_ENTRIES && m'.Keys == m.Keys && Alike(c, m', m)
            && (forall k | k in m' && k != other :: m'[other].updated < m'[k].updated)
            && (forall k | k in m' :: !Idle(c, m'[k], newcomer.later))
  {
    var m' := After(c, m, refused, true);
    RefusalAlike(c, m, refused);
    SizeOfKeys(m', m);
    forall k | k in m' ensures !Idle(c, m'[k], newcomer.later) {
      SameLineRefills(c, m'[k], m[k], newcomer.later);
    }
  }

  /** A new key in a full table of live buckets evicts the least recently checked one. */
  lemma NewKeyEvicts(c: Config, m: Table, key: string, newcomer: Call, next: Table)
    requires c.burst >= 1.0 && |m| == MAX_ENTRIES && newcomer.key !in m && key in m
    requires forall k | k in m :: !Idle(c, m[k], newcomer.later)
    requires !Idle(c, Checked(c, None, newcomer.now), newcomer.later)
    requires m[key].updated < newcomer.now && forall k | k in m && k != key :: m[key].updated < m[k].updated
    requires Leaves(c, m, newcomer, next)
    ensures Evicts(c, m, newcomer) && next.Keys == m.Keys + {newcomer.key} - {key}
    ensures forall k | k in m && k != key :: next[k] == m[k]
  {
    NewKeyOverflows(c, m, newcomer);
    LeastRecentGoes(After(c, m, newcomer, true), next, key);
  }

  /** A new key in a full table of live buckets. */
  lemma NewKeyOverflows(c: Config, m: Table, newcomer: Call)
    requires c.burst >= 1.0 && |m| == MAX_ENTRIES && newcomer.key !in m
    requires forall k | k in m :: !Idle(c, m[k], newcomer.later)
    requires !Idle(c, Checked(c, None, newcomer.now), newcomer.later)
    ensures var over := m[newcomer.key := Checked(c, None, newcomer.now)];
            After(c, m, newcomer, true) == over && |over| == MAX_ENTRIES + 1 && Evicts(c, m, newcomer)
  {
    var over := m[newcomer.key := Checked(c, None, newcomer.now)];
    assert over.Keys == m.Keys + {newcomer.key};
    assert |over.Keys| == |over| && |m.Keys| == |m|;
  }

  lemma LeastRecentGoes(live: Table, kept: Table, key: string)
    requires |live| == MAX_ENTRIES + 1 && key in live && EvictedOldest(live, kept)
    requires forall k | k in live && k != key :: live[key].updated < live[k].updated
    ensures kept.Keys == live.Keys - {key}
  {
    var gone := live.Keys - kept.Keys;
    assert live.Keys == kept.Keys + gone;
    assert |live.Keys| == |live| && |kept.Keys| == |kept|;
    assert |gone| == 1 && gone != {};
    if key in kept {
      assert false;
    }
    assert |gone - {key}| == 0;
  }

  /** A table of ``n`` empty buckets checked one second after the other. */
  function Filled(n: nat): Table {
    if n == 0 then map[] else Filled(n - 1)[Name(n - 1) := Bucket(0.0, (n - 1) as real)]
  }

  function Name(n: nat): (s: string)
    ensures |s| == n
  {
    seq(n, i => 'k')
  }

  lemma {:induction false} FilledIs(n: nat)
    ensures |Filled(n)| == n
    ensures forall k :: k in Filled(n) <==> |k| < n && k == Name(|k|)
    ensures forall k | k in Filled(n) :: Filled(n)[k] == Bucket(0.0, |k| as real)
  {
    if n > 0 {
      FilledIs(n - 1);
      assert Name(n - 1) !in Filled(n - 1);
    }
  }

  const SLOW := Config(1.0 / 20_000.0, 1.0)

  /** An empty bucket takes more than 10,000 seconds to refill. */
  lemma RefillsSlowly(updated: real, now: real)
    requires 0.0 <= updated <= now <= 10_000.0
    ensures !Idle(SLOW, Bucket(0.0, updated), now) && !Allowed(SLOW, Some(Bucket(0.0, updated)), now)
    ensures Checked(SLOW, None, now) == Bucket(0.0, now)
  {
  }

  /** The situation arises: with one token every 20,000 seconds and 10,000 keys checked a second apart. */
  lemma FullTableExists()
    ensures FullWhenNewKeyComes(SLOW, Filled(MAX_ENTRIES), Name(0), Name(1),
                                Call(Name(0), 10_000.0, 10_000.0), Call(Name(MAX_ENTRIES), 10_000.0, 10_000.0))
  {
    var m := Filled(MAX_ENTRIES);
    FilledIs(MAX_ENTRIES);
    forall k | k in m ensures !Idle(SLOW, m[k], 10_000.0) {
      RefillsSlowly(m[k].updated, 10_000.0);
    }
    RefillsSlowly(0.0, 10_000.0);
    RefillsSlowly(10_000.0, 10_000.0);
    forall k | k in m && k != Name(0) ensures |k| >= 1 && (k != Name(1) ==> |k| >= 2) {
    }
    assert Name(0) in m && Name(1) in m && Name(MAX_ENTRIES) !in m;
    assert Get(m, Name(0)) == Some(Bucket(0.0, 0.0)) && m[Name(1)].updated == 1.0;
  }

  // ------------------------------------------------------------------ waiting

  /** Every check of the key in the run is refused. */
  predicate Refused(c: Config, m: Table, calls: seq<Call>, key: string)
    decreases |calls|
  {
    calls == [] || (
      && (calls[0].key == key ==> !Allowed(c, Get(m, key), calls[0].now))
      && Refused(c, After(c, m, calls[0], true), calls[1..], key))
  }

  function AfterAll(c: Config, m: Table, calls: seq<Call>): Table
    decreases |calls|
  {
    if calls == [] then m else AfterAll(c, After(c, m, calls[0], true), calls[1..])
  }

  /** Refused checks of the key and any checks of others leave open the same later times. */
  lemma {:induction false} AllowedAfterRefusals(c: Config, m: Table, t: real, calls: seq<Call>, key: string, end: real)
    requires c.rate > 0.0 && c.burst >= 1.0 && Ordered(calls, t) && t <= end
    requires calls != [] ==> calls[|calls| - 1].later <= end
    requires Refused(c, m, calls, key)
    ensures Allowed(c, Get(AfterAll(c, m, calls), key), end) <==> Allowed(c, Get(m, key), end)
    decreases |calls|
  {
    if calls != [] {
      var call, next := calls[0], After(c, m, calls[0], true);
      OrderedUpTo(calls, t, end);
      BucketAfter(c, m, call, key);
      if call.key == key {
        RefusalRefillsAlike(c, Get(m, key), call.now, end);
      }
      var moved := if call.key == key then Some(Checked(c, Get(m, key), call.now)) else Get(m, key);
      if Get(next, key) != moved {
        IdleStays(c, moved.value, call.later, end);
        IdleRefills(c, moved.value, end);
      }
      AllowedAfterRefusals(c, next, call.later, calls[1..], key, end);
    }
  }

  lemma {:induction false} OrderedUpTo(calls: seq<Call>, t: real, end: real)
    requires calls != [] && Ordered(calls, t) && calls[|calls| - 1].later <= end
    ensures calls[0].later <= end
    decreases |calls|
  {
    if |calls| > 1 {
      OrderedUpTo(calls[1..], calls[0].later, end);
    }
  }

  /** A refused caller that tries again after the seconds it was told is allowed, and before the true
      time it is not, however often it was refused in between and whatever others did; the answer
      overstates the true time by at most one second. */
  lemma WaitSuffices(c: Config, m: Table, call: Call, between: seq<Call>, wait: real)
    requires c.rate > 0.0 && c.burst >= 1.0 && !Allowed(c, Get(m, call.key), call.now)
    requires call.now <= call.later <= call.now + wait && Ordered(between, call.later)
    requires between != [] ==> between[|between| - 1].later <= call.now + wait
    requires Refused(c, After(c, m, call, true), between, call.key)
    ensures var e := Get(m, call.key);
            var told, needed := Answer(c, e, call.now).value as real, (1.0 - Refilled(c, e, call.now).tokens) / c.rate;
            var m' := AfterAll(c, After(c, m, call, true), between);
            && (Allowed(c, Get(m', call.key), call.now + wait) <==> wait >= needed)
            && needed < told <= needed + 1.0
  {
    AllowedAfterRefusals(c, After(c, m, call, true), call.later, between, call.key, call.now + wait);
    WaitOnce(c, Get(m, call.key), call.now, wait);
  }
}

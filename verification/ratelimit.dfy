/** The fixed-window rate limiter (`RateLimiter.Allow`, internal/httpx/middleware.go). */
module RateLimit {
  import opened Numbers
  import opened Options

  datatype Bucket = Bucket(count: int, reset: int)

  type Buckets = map<string, Bucket>

  datatype Limits = Limits(limit: int, window: int)

  // ----- one key

  datatype Served = Served(bucket: Option<Bucket>, allowed: bool)

  /** One request of a key whose bucket, if any, is `b`. */
  function Serve(b: Option<Bucket>, now: int, l: Limits): Served {
    if b.None? || now > b.value.reset then Served(Some(Bucket(1, now + l.window)), true)
    else if b.value.count >= l.limit then Served(b, false)
    else Served(Some(b.value.(count := b.value.count + 1)), true)
  }

  /** The bucket left by a key's requests at the given times. */
  function BucketAfter(times: seq<int>, l: Limits): Option<Bucket> {
    if times == [] then None
    else Serve(BucketAfter(times[..|times| - 1], l), times[|times| - 1], l).bucket
  }

  /** An allowed request: when, in the bucket begun when, as the how-manieth. */
  datatype Grant = Grant(time: int, begun: int, place: int)

  function Grants(times: seq<int>, l: Limits): seq<Grant> {
    if times == [] then []
    else
      var before, now := times[..|times| - 1], times[|times| - 1];
      var served := Serve(BucketAfter(before, l), now, l);
      Grants(before, l) +
      if served.allowed then [Grant(now, served.bucket.value.reset - l.window, served.bucket.value.count)] else []
  }

  predicate Monotone(times: seq<int>) {
    forall i, j | 0 <= i <= j < |times| :: times[i] <= times[j]
  }

  /** What one bucket can grant. A limit below one still lets the first request through. */
  function Quota(l: Limits): int { Max(l.limit, 1) }

  /** Grants come in order; each bucket begins with its first one, holds at most the quota,
      and is over a full window after it began. */
  ghost predicate WellGranted(grants: seq<Grant>, l: Limits) {
    && (forall i, j | 0 <= i <= j < |grants| :: grants[i].time <= grants[j].time)
    && (forall i | 0 <= i < |grants| ::
          && 1 <= grants[i].place <= Quota(l) && grants[i].begun <= grants[i].time
          && (grants[i].place > 1 ==> grants[i].time <= grants[i].begun + l.window)
          && (grants[i].place == 1 ==> grants[i].begun == grants[i].time))
    && forall i | 0 < i < |grants| :: Follows(grants[i - 1], grants[i], l)
  }

  predicate Follows(g: Grant, h: Grant, l: Limits) {
    if h.place == 1 then h.begun > g.begun + l.window
    else h.begun == g.begun && h.place == g.place + 1
  }

  /** The bucket at hand is that of the last grant. */
  ghost predicate Tracks(b: Option<Bucket>, g: seq<Grant>, last: int, l: Limits) {
    && (b.None? <==> g == [])
    && (g != [] ==>
          && b.value.count == g[|g| - 1].place && b.value.reset == g[|g| - 1].begun + l.window
          && g[|g| - 1].time <= last)
  }

  lemma ServeGrants(b: Option<Bucket>, g: seq<Grant>, now: int, l: Limits)
    requires WellGranted(g, l) && Tracks(b, g, now, l)
    ensures var served := Serve(b, now, l);
            var more := if served.allowed then [Grant(now, served.bucket.value.reset - l.window, served.bucket.value.count)] else [];
            served.bucket.Some? && WellGranted(g + more, l) && Tracks(served.bucket, g + more, now, l)
  {
    if g != [] { LastPlace(g, l); }
    var served := Serve(b, now, l);
    hide WellGranted;
    if served.allowed {
      GrantExtends(g, Grant(now, served.bucket.value.reset - l.window, served.bucket.value.count), l);
    } else {
      assert g + [] == g;
    }
  }

  lemma {:induction false} RunIsWellGranted(times: seq<int>, l: Limits)
    requires Monotone(times)
    ensures WellGranted(Grants(times, l), l)
    ensures BucketAfter(times, l).Some? <==> times != []
    ensures times != [] ==> Tracks(BucketAfter(times, l), Grants(times, l), times[|times| - 1], l)
    decreases |times|
  {
    if times != [] {
      var before, now := times[..|times| - 1], times[|times| - 1];
      RunIsWellGranted(before, l);
      if before != [] { assert before[|before| - 1] <= now; }
      assert Tracks(BucketAfter(before, l), Grants(before, l), now, l);
      hide Tracks;
      hide WellGranted;
      hide Serve;
      ServeGrants(BucketAfter(before, l), Grants(before, l), now, l);
    }
  }

  lemma LastPlace(g: seq<Grant>, l: Limits)
    requires WellGranted(g, l) && g != []
    ensures 1 <= g[|g| - 1].place <= Quota(l) && g[|g| - 1].begun <= g[|g| - 1].time
  {
  }

  lemma GrantExtends(g: seq<Grant>, h: Grant, l: Limits)
    requires WellGranted(g, l)
    requires 1 <= h.place <= Quota(l) && h.begun <= h.time
    requires (h.place > 1 ==> h.time <= h.begun + l.window) && (h.place == 1 ==> h.begun == h.time)
    requires g != [] ==> g[|g| - 1].time <= h.time && Follows(g[|g| - 1], h, l)
    ensures WellGranted(g + [h], l)
  {
    var s := g + [h];
    hide Quota;
    assert forall i | 0 <= i < |g| :: s[i] == g[i];
    forall i | 0 < i < |s|
      ensures Follows(s[i - 1], s[i], l)
    {
      if i < |g| { assert Follows(g[i - 1], g[i], l); }
    }
    hide Follows;
  }

  /** A bucket ends within its quota: another begins no later than that. */
  lemma {:induction false} NextBucket(grants: seq<Grant>, l: Limits, i: nat, end: nat) returns (j: nat)
    requires WellGranted(grants, l) && i < |grants| && i + Quota(l) - grants[i].place + 1 <= end < |grants|
    ensures i < j <= i + Quota(l) - grants[i].place + 1 && grants[j].place == 1
    ensures grants[j].time > grants[i].begun + l.window
    decreases Quota(l) - grants[i].place
  {
    assert Follows(grants[i], grants[i + 1], l);
    if grants[i + 1].place == 1 {
      j := i + 1;
    } else {
      j := NextBucket(grants, l, i + 1, end);
    }
  }

  /** Any 2 * quota consecutive allowed requests of a key span more than the window: a closed
      interval of that length holds at most 2 * quota - 1 of them. */
  lemma {:induction false} WindowBound(times: seq<int>, l: Limits, i: nat)
    requires Monotone(times)
    requires i + 2 * Quota(l) - 1 < |Grants(times, l)|
    ensures Grants(times, l)[i + 2 * Quota(l) - 1].time > Grants(times, l)[i].time + l.window
  {
    RunIsWellGranted(times, l);
    var g, end := Grants(times, l), i + 2 * Quota(l) - 1;
    hide Grants;
    hide BucketAfter;
    var j := NextBucket(g, l, i, end);
    if g[i].place > 1 {
      var k := NextBucket(g, l, j, end);
      assert g[k].time <= g[end].time && g[i].time <= g[j].time;
    } else {
      assert g[j].time <= g[end].time;
    }
  }

  /** One bucket grants at most the quota, all within the window after it began. */
  lemma {:induction false} BucketBound(times: seq<int>, l: Limits, i: nat, j: nat)
    requires Monotone(times) && i <= j < |Grants(times, l)|
    requires Grants(times, l)[i].begun == Grants(times, l)[j].begun
    requires l.window >= 0
    ensures j - i < Quota(l) && Grants(times, l)[j].time <= Grants(times, l)[i].begun + l.window
  {
    RunIsWellGranted(times, l);
    var g := Grants(times, l);
    hide Grants;
    hide BucketAfter;
    if i < j { SameBucket(g, l, i, j); }
  }

  lemma {:induction false} SameBucket(g: seq<Grant>, l: Limits, i: nat, j: nat)
    requires WellGranted(g, l) && i < j < |g| && l.window >= 0
    ensures g[i].begun <= g[j].begun
    ensures g[i].begun == g[j].begun ==> g[j].place == g[i].place + (j - i)
    decreases j
  {
    assert Follows(g[j - 1], g[j], l);
    if i < j - 1 { SameBucket(g, l, i, j - 1); }
  }

  // ----- the bound is reached

  function Repeat(t: int, n: nat): (r: seq<int>)
    ensures |r| == n
  {
    seq(n, i requires 0 <= i < n => t)
  }

  /** One request, quota - 1 at the last moment of its bucket, and a quota just after it. */
  function Burst(l: Limits, n: nat, m: nat): seq<int> {
    [0] + Repeat(l.window, n) + Repeat(l.window + 1, m)
  }

  lemma {:induction false} BurstServed(l: Limits, n: nat, m: nat)
    requires l.window >= 0 && n < Quota(l) && (m > 0 ==> n == Quota(l) - 1) && m <= Quota(l)
    ensures BucketAfter(Burst(l, n, m), l) == Some(if m == 0 then Bucket(n + 1, l.window) else Bucket(m, 2 * l.window + 1))
    ensures var g := Grants(Burst(l, n, m), l);
            && |g| == 1 + n + m
            && (forall i | 0 < i <= n :: g[i].time == l.window)
            && (forall i | n < i < |g| :: g[i].time == l.window + 1)
    decreases n + m
  {
    hide BucketAfter;
    hide Grants;
    if m > 0 {
      BurstServed(l, n, m - 1);
      assert Burst(l, n, m) == Burst(l, n, m - 1) + [l.window + 1];
      ServedNext(Burst(l, n, m - 1), l.window + 1, l);
    } else if n > 0 {
      BurstServed(l, n - 1, 0);
      assert Burst(l, n, 0) == Burst(l, n - 1, 0) + [l.window];
      ServedNext(Burst(l, n - 1, 0), l.window, l);
    } else {
      assert Burst(l, 0, 0) == [] + [0];
      ServedNext([], 0, l);
    }
  }

  lemma ServedNext(times: seq<int>, now: int, l: Limits)
    ensures var served := Serve(BucketAfter(times, l), now, l);
            && BucketAfter(times + [now], l) == served.bucket
            && Grants(times + [now], l) == Grants(times, l) +
                 if served.allowed then [Grant(now, served.bucket.value.reset - l.window, served.bucket.value.count)] else []
    ensures times == [] ==> BucketAfter(times, l) == None && Grants(times, l) == []
  {
    assert (times + [now])[..|times|] == times;
  }

  /** For every limit and positive window there are requests of which 2 * quota - 1 are
      allowed within the window's length. */
  lemma WindowBoundReached(l: Limits) returns (times: seq<int>, i: nat)
    requires l.window >= 1
    ensures Monotone(times) && i + 2 * Quota(l) - 2 < |Grants(times, l)|
    ensures Grants(times, l)[i + 2 * Quota(l) - 2].time <= Grants(times, l)[i].time + l.window
  {
    times, i := Burst(l, Quota(l) - 1, Quota(l)), 1;
    BurstServed(l, Quota(l) - 1, Quota(l));
  }

  // ----- all keys

  datatype Request = Request(key: string, time: int)

  function Get(buckets: Buckets, key: string): Option<Bucket> {
    if key in buckets then Some(buckets[key]) else None
  }

  function Pruned(buckets: Buckets, now: int): Buckets {
    map k | k in buckets && now <= buckets[k].reset :: buckets[k]
  }

  function Put(buckets: Buckets, key: string, b: Option<Bucket>): Buckets {
    if b.Some? then buckets[key := b.value] else buckets
  }

  /** The table after the requests, dropping the expired buckets at each, or keeping them all. */
  function TableAfter(requests: seq<Request>, l: Limits, prune: bool): Buckets {
    if requests == [] then map[]
    else
      var r := requests[|requests| - 1];
      var before := TableAfter(requests[..|requests| - 1], l, prune);
      Put(if prune then Pruned(before, r.time) else before, r.key, Serve(Get(before, r.key), r.time, l).bucket)
  }

  /** The answer to the last request. */
  function LastAnswer(requests: seq<Request>, l: Limits, prune: bool): bool
    requires requests != []
  {
    var r := requests[|requests| - 1];
    Serve(Get(TableAfter(requests[..|requests| - 1], l, prune), r.key), r.time, l).allowed
  }

  predicate InOrder(requests: seq<Request>) {
    forall i, j | 0 <= i <= j < |requests| :: requests[i].time <= requests[j].time
  }

  function TimesOf(requests: seq<Request>, key: string): seq<int> {
    if requests == [] then []
    else
      TimesOf(requests[..|requests| - 1], key) +
      if requests[|requests| - 1].key == key then [requests[|requests| - 1].time] else []
  }

  lemma {:induction false} TimesOfOrdered(requests: seq<Request>, key: string)
    requires InOrder(requests)
    ensures Monotone(TimesOf(requests, key))
    ensures TimesOf(requests, key) != [] ==> TimesOf(requests, key)[|TimesOf(requests, key)| - 1] <= requests[|requests| - 1].time
  {
    if requests != [] {
      TimesOfOrdered(requests[..|requests| - 1], key);
    }
  }

  /** A limiter that keeps every bucket treats each key as if it were alone. */
  lemma {:induction false} KeysApart(requests: seq<Request>, l: Limits, key: string)
    ensures Get(TableAfter(requests, l, false), key) == BucketAfter(TimesOf(requests, key), l)
  {
    if requests != [] {
      var before, r := requests[..|requests| - 1], requests[|requests| - 1];
      KeysApart(before, l, key);
      var times := TimesOf(requests, key);
      if r.key == key {
        assert times == TimesOf(before, key) + [r.time];
        assert times[..|times| - 1] == TimesOf(before, key);
        assert BucketAfter(times, l) == Serve(BucketAfter(TimesOf(before, key), l), r.time, l).bucket;
      } else {
        assert times == TimesOf(before, key);
      }
    }
  }

  /** Two tables that differ only in buckets expired at `now`. */
  ghost predicate SameLive(kept: Buckets, pruned: Buckets, now: int) {
    && (forall k | k in pruned :: k in kept && pruned[k] == kept[k])
    && forall k | k in kept && k !in pruned :: kept[k].reset < now
  }

  lemma SameServe(kept: Buckets, pruned: Buckets, now: int, key: string, l: Limits)
    requires SameLive(kept, pruned, now)
    ensures Serve(Get(kept, key), now, l) == Serve(Get(pruned, key), now, l)
  {
  }

  lemma PutSame(kept: Buckets, pruned: Buckets, now: int, key: string, b: Option<Bucket>)
    requires SameLive(kept, pruned, now) && b.Some?
    ensures SameLive(Put(kept, key, b), Put(Pruned(pruned, now), key, b), now)
  {
  }

  lemma ServeFills(b: Option<Bucket>, now: int, l: Limits)
    ensures Serve(b, now, l).bucket.Some?
  {
  }

  /** Pruning drops only buckets that have expired. */
  lemma {:induction false} PruningKeepsLive(requests: seq<Request>, l: Limits)
    requires InOrder(requests) && requests != []
    ensures SameLive(TableAfter(requests, l, false), TableAfter(requests, l, true), requests[|requests| - 1].time)
    ensures LastAnswer(requests, l, true) == LastAnswer(requests, l, false)
  {
    var before, r := requests[..|requests| - 1], requests[|requests| - 1];
    var kept, pruned := TableAfter(before, l, false), TableAfter(before, l, true);
    if before != [] {
      PruningKeepsLive(before, l);
      assert before[|before| - 1].time <= r.time;
    }
    assert SameLive(kept, pruned, r.time);
    SameServe(kept, pruned, r.time, r.key, l);
    ServeFills(Get(kept, r.key), r.time, l);
    PutSame(kept, pruned, r.time, r.key, Serve(Get(kept, r.key), r.time, l).bucket);
    hide Serve;
    hide Get;
    hide Put;
    hide Pruned;
    hide SameLive;
  }

  /** Over every run with a monotone clock the pruning limiter answers each request as one
      that keeps every bucket, and as if its key were the only one. */
  lemma {:induction false} PruningInvisible(requests: seq<Request>, l: Limits)
    requires InOrder(requests) && requests != []
    ensures var r := requests[|requests| - 1];
            && LastAnswer(requests, l, true) == LastAnswer(requests, l, false)
            && LastAnswer(requests, l, true) == Serve(BucketAfter(TimesOf(requests[..|requests| - 1], r.key), l), r.time, l).allowed
  {
    PruningKeepsLive(requests, l);
    KeysApart(requests[..|requests| - 1], l, requests[|requests| - 1].key);
  }

  /** When the pruning limiter let `key` through. */
  function AllowedTimes(requests: seq<Request>, key: string, l: Limits): seq<int> {
    if requests == [] then []
    else
      AllowedTimes(requests[..|requests| - 1], key, l) +
      if requests[|requests| - 1].key == key && LastAnswer(requests, l, true) then [requests[|requests| - 1].time] else []
  }

  lemma {:induction false} AllowedAreGrants(requests: seq<Request>, key: string, l: Limits)
    requires InOrder(requests)
    ensures var allowed, g := AllowedTimes(requests, key, l), Grants(TimesOf(requests, key), l);
            |allowed| == |g| && forall i | 0 <= i < |g| :: allowed[i] == g[i].time
    decreases |requests|
  {
    if requests != [] {
      var before, r := requests[..|requests| - 1], requests[|requests| - 1];
      AllowedAreGrants(before, key, l);
      PruningInvisible(requests, l);
      var times := TimesOf(requests, key);
      if r.key == key {
        assert times == TimesOf(before, key) + [r.time];
        assert times[..|times| - 1] == TimesOf(before, key);
      } else {
        assert times == TimesOf(before, key);
      }
      hide LastAnswer;
      hide Serve;
      hide BucketAfter;
      hide InOrder;
    }
  }

  /** However the requests of all keys interleave, no closed interval as long as the window
      sees 2 * quota requests of one key allowed. */
  lemma {:induction false} LimiterBound(requests: seq<Request>, key: string, l: Limits, i: nat)
    requires InOrder(requests) && i + 2 * Quota(l) - 1 < |AllowedTimes(requests, key, l)|
    ensures AllowedTimes(requests, key, l)[i + 2 * Quota(l) - 1] > AllowedTimes(requests, key, l)[i] + l.window
  {
    AllowedAreGrants(requests, key, l);
    TimesOfOrdered(requests, key);
    WindowBound(TimesOf(requests, key), l, i);
  }

  // ----- the code

  class RateLimiter {
    var buckets: Buckets
    const l: Limits
    ghost var requests: seq<Request>

    ghost predicate Valid()
      reads this
    {
      InOrder(requests) && buckets == TableAfter(requests, l, true)
    }

    constructor (l: Limits)
      ensures Valid() && this.l == l && requests == []
    {
      this.l, buckets, requests := l, map[], [];
    }

    method Allow(key: string, now: int) returns (ok: bool)
      requires Valid() && (requests != [] ==> requests[|requests| - 1].time <= now)
      modifies this
      ensures Valid() && requests == old(requests) + [Request(key, now)]
      ensures ok == LastAnswer(requests, l, true)
      ensures ok == LastAnswer(requests, l, false)
    {
      AllowStep(requests, buckets, key, now, l);
      requests := requests + [Request(key, now)];
      hide TableAfter;
      hide LastAnswer;
      hide InOrder;
      hide Pruned;
      hide Put;
      hide Get;
      hide Serve;
      Prune(now);
      ok := Charge(key, now);
    }

    /** What follows the pruning. */
    method Charge(key: string, now: int) returns (ok: bool)
      modifies this`buckets
      ensures buckets == Put(old(buckets), key, Serve(Get(old(buckets), key), now, l).bucket)
      ensures ok == Serve(Get(old(buckets), key), now, l).allowed
    {
      if key !in buckets || now > buckets[key].reset {
        buckets := buckets[key := Bucket(1, now + l.window)];
        return true;
      }
      var b := buckets[key];
      if b.count >= l.limit {
        assert buckets == buckets[key := b];
        return false;
      }
      buckets := buckets[key := b.(count := b.count + 1)];
      return true;
    }

    /** The loop that deletes the expired buckets. */
    method Prune(now: int)
      modifies this`buckets
      ensures buckets == Pruned(old(buckets), now)
    {
      var left := buckets.Keys;
      while left != {}
        invariant left <= old(buckets).Keys
        invariant forall k :: k in buckets <==> k in old(buckets) && (k in left || now <= old(buckets)[k].reset)
        invariant forall k | k in buckets :: buckets[k] == old(buckets)[k]
        decreases left
      {
        var k :| k in left;
        if now > buckets[k].reset {
          buckets := buckets - {k};
        }
        left := left - {k};
      }
    }
  }

  lemma {:induction false} AllowStep(requests: seq<Request>, buckets: Buckets, key: string, now: int, l: Limits)
    requires InOrder(requests) && (requests != [] ==> requests[|requests| - 1].time <= now)
    requires buckets == TableAfter(requests, l, true)
    ensures var more, served := requests + [Request(key, now)], Serve(Get(Pruned(buckets, now), key), now, l);
            && InOrder(more) && TableAfter(more, l, true) == Put(Pruned(buckets, now), key, served.bucket)
            && LastAnswer(more, l, true) == served.allowed && LastAnswer(more, l, false) == served.allowed
  {
    var more := requests + [Request(key, now)];
    assert more[..|requests|] == requests;
    assert InOrder(more) by {
      hide TableAfter;
      if requests != [] { assert forall i | 0 <= i < |requests| :: requests[i].time <= requests[|requests| - 1].time; }
    }
    assert Serve(Get(Pruned(buckets, now), key), now, l) == Serve(Get(buckets, key), now, l);
    PruningKeepsLive(more, l);
  }
}

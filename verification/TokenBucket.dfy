// Token buckets, one per (capability, principal hash): continuous refill, one token a
// call. Clock readings are integer nanoseconds; tokens are reals (see README).
module TokenBucket {
  import opened Seqs

  datatype Config = Config(capacity: real, refill: real)

  datatype Bucket = Bucket(tokens: real, last: int)

  function Normalized(cfg: Config): (r: Config)
    ensures r.capacity > 0.0 && r.refill > 0.0
  {
    var c := if cfg.capacity <= 0.0 then 60.0 else cfg.capacity;
    Config(c, if cfg.refill <= 0.0 then c / 60.0 else cfg.refill)
  }

  predicate ValidConfig(cfg: Config) {
    cfg.capacity > 0.0 && cfg.refill > 0.0
  }

  function Seconds(nanos: int): real {
    nanos as real / 1000000000.0
  }

  function MinReal(a: real, b: real): real {
    if a < b then a else b
  }

  // The refill half of a take: nothing unless the clock has moved forward.
  function Refilled(cfg: Config, b: Bucket, now: int): Bucket {
    if Seconds(now - b.last) > 0.0
    then Bucket(MinReal(cfg.capacity, b.tokens + Seconds(now - b.last) * cfg.refill), now)
    else b
  }

  function TakeOne(cfg: Config, b: Bucket, now: int): (Bucket, bool) {
    var f := Refilled(cfg, b, now);
    if f.tokens >= 1.0 then (f.(tokens := f.tokens - 1.0), true) else (f, false)
  }

  function Key(capID: string, hash: string): string {
    capID + ":" + hash
  }

  function BucketAt(cfg: Config, buckets: map<string, Bucket>, key: string, now: int): Bucket {
    if key in buckets then buckets[key] else Bucket(cfg.capacity, now)
  }

  function TakeFrom(cfg: Config, buckets: map<string, Bucket>, key: string, now: int): (map<string, Bucket>, bool) {
    var t := TakeOne(cfg, BucketAt(cfg, buckets, key, now), now);
    (buckets[key := t.0], t.1)
  }

  ghost predicate WithinCapacity(cfg: Config, buckets: map<string, Bucket>) {
    forall k :: k in buckets ==> 0.0 <= buckets[k].tokens <= cfg.capacity
  }

  class TokenBucketSet {
    const cfg: Config
    var buckets: map<string, Bucket>

    ghost predicate Valid()
      reads this
    {
      ValidConfig(cfg) && WithinCapacity(cfg, buckets)
    }

    constructor (c: Config)
      ensures Valid() && cfg == Normalized(c) && buckets == map[]
    {
      cfg := Normalized(c);
      buckets := map[];
    }

    method Take(capID: string, hash: string, now: int) returns (ok: bool)
      requires Valid()
      modifies this
      ensures Valid()
      ensures (buckets, ok) == TakeFrom(cfg, old(buckets), Key(capID, hash), now)
    {
      var key := Key(capID, hash);
      if key !in buckets {
        buckets := buckets[key := Bucket(cfg.capacity, now)];
      }
      var tokens, last := buckets[key].tokens, buckets[key].last;
      if Seconds(now - last) > 0.0 {
        RefillStaysPositive(cfg, tokens, now - last);
        tokens := MinReal(cfg.capacity, tokens + Seconds(now - last) * cfg.refill);
        last := now;
      }
      ok := tokens >= 1.0;
      if ok {
        tokens := tokens - 1.0;
      }
      buckets := buckets[key := Bucket(tokens, last)];
      assert buckets == old(buckets)[key := Bucket(tokens, last)];
    }
  }

  lemma RefillStaysPositive(cfg: Config, tokens: real, elapsed: int)
    requires ValidConfig(cfg) && tokens >= 0.0 && Seconds(elapsed) > 0.0
    ensures tokens + Seconds(elapsed) * cfg.refill >= tokens
  {
    assert Seconds(elapsed) * cfg.refill >= 0.0;
  }

  // ----- one bucket per pair -----

  lemma LastColon(a: string, h: string)
    requires ':' !in h
    ensures var s := a + ":" + h; s[|a|] == ':' && forall i :: |a| < i < |s| ==> s[i] != ':'
  {
    var s := a + ":" + h;
    forall i | |a| < i < |s| ensures s[i] != ':' {
      assert s[i] == h[i - |a| - 1];
    }
  }

  lemma SplitAtLastColon(a: string, b: string, h: string, k: string)
    requires a + ":" + h == b + ":" + k && ':' !in h && ':' !in k
    ensures a == b && h == k
  {
    var s := a + ":" + h;
    LastColon(a, h);
    LastColon(b, k);
    assert |a| == |b|;
    assert a == s[..|a|] && b == s[..|b|] && h == s[|a| + 1..] && k == s[|b| + 1..];
  }

  // Hashes are hexadecimal, so two pairs share a bucket only when they are equal and
  // a take for one pair leaves every other pair's bucket alone.
  lemma PairsHaveTheirOwnBucket(cfg: Config, buckets: map<string, Bucket>, c: string, h: string, d: string, k: string, now: int)
    requires ':' !in h && ':' !in k && (c, h) != (d, k)
    ensures Key(c, h) != Key(d, k)
    ensures var after := TakeFrom(cfg, buckets, Key(c, h), now).0;
            BucketAt(cfg, after, Key(d, k), now) == BucketAt(cfg, buckets, Key(d, k), now)
  {
    if Key(c, h) == Key(d, k) {
      SplitAtLastColon(c, d, h, k);
    }
  }

  // ----- the rate bound -----

  datatype Call = Call(key: string, now: int)

  // How many of the calls on one key are granted, over a run of calls on any keys.
  function Granted(cfg: Config, buckets: map<string, Bucket>, calls: seq<Call>, key: string): nat
    decreases |calls|
  {
    if calls == [] then 0
    else
      var t := TakeFrom(cfg, buckets, calls[0].key, calls[0].now);
      (if calls[0].key == key && t.1 then 1 else 0) + Granted(cfg, t.0, calls[1..], key)
  }

  // The most a bucket can still grant to readings in [lo, hi].
  function Allowance(cfg: Config, b: Bucket, lo: int, hi: int): real {
    if b.last < lo then cfg.capacity + cfg.refill * Seconds(hi - lo)
    else if b.last <= hi then b.tokens + cfg.refill * Seconds(hi - b.last)
    else b.tokens
  }

  function AllowanceAt(cfg: Config, buckets: map<string, Bucket>, key: string, lo: int, hi: int): real {
    if key in buckets then Allowance(cfg, buckets[key], lo, hi) else cfg.capacity + cfg.refill * Seconds(hi - lo)
  }

  lemma RateIsLinear(cfg: Config, a: int, b: int, c: int)
    requires ValidConfig(cfg) && a <= b <= c
    ensures Seconds(b - a) * cfg.refill + cfg.refill * Seconds(c - b) == cfg.refill * Seconds(c - a)
    ensures Seconds(b - a) * cfg.refill >= 0.0 && cfg.refill * Seconds(c - b) >= 0.0
    ensures a < b <==> Seconds(b - a) > 0.0
  {
    assert Seconds(b - a) + Seconds(c - b) == Seconds(c - a);
    assert cfg.refill * (Seconds(b - a) + Seconds(c - b)) == cfg.refill * Seconds(b - a) + cfg.refill * Seconds(c - b);
    assert Seconds(b - a) >= 0.0 && Seconds(c - b) >= 0.0;
  }

  // One call: what it grants comes out of the allowance.
  lemma TakeSpendsAllowance(cfg: Config, b: Bucket, now: int, lo: int, hi: int)
    requires ValidConfig(cfg) && 0.0 <= b.tokens <= cfg.capacity && lo <= now <= hi
    ensures var t := TakeOne(cfg, b, now);
            && 0.0 <= t.0.tokens <= cfg.capacity
            && Allowance(cfg, t.0, lo, hi) + (if t.1 then 1.0 else 0.0) <= Allowance(cfg, b, lo, hi)
  {
    RateIsLinear(cfg, lo, now, hi);
    if b.last < now {
      RateIsLinear(cfg, b.last, now, hi);
    } else {
      BackwardClockAddsNothing(cfg, b, now);
    }
  }

  lemma FreshAllowance(cfg: Config, now: int, lo: int, hi: int)
    requires ValidConfig(cfg) && lo <= now <= hi
    ensures Allowance(cfg, Bucket(cfg.capacity, now), lo, hi) <= cfg.capacity + cfg.refill * Seconds(hi - lo)
  {
    RateIsLinear(cfg, lo, now, hi);
  }

  lemma AllowanceIsBounded(cfg: Config, buckets: map<string, Bucket>, key: string, lo: int, hi: int)
    requires ValidConfig(cfg) && WithinCapacity(cfg, buckets) && lo <= hi
    ensures 0.0 <= AllowanceAt(cfg, buckets, key, lo, hi) <= cfg.capacity + cfg.refill * Seconds(hi - lo)
  {
    RateIsLinear(cfg, lo, lo, hi);
    if key in buckets && lo <= buckets[key].last <= hi {
      RateIsLinear(cfg, lo, buckets[key].last, hi);
    }
  }

  lemma CallSpendsAllowance(cfg: Config, buckets: map<string, Bucket>, c: Call, key: string, lo: int, hi: int)
    requires ValidConfig(cfg) && WithinCapacity(cfg, buckets) && (c.key == key ==> lo <= c.now <= hi)
    ensures var t := TakeFrom(cfg, buckets, c.key, c.now);
            && WithinCapacity(cfg, t.0)
            && AllowanceAt(cfg, t.0, key, lo, hi) + (if c.key == key && t.1 then 1.0 else 0.0)
               <= AllowanceAt(cfg, buckets, key, lo, hi)
  {
    var b := BucketAt(cfg, buckets, c.key, c.now);
    TakeSpendsAllowance(cfg, b, c.now, c.now, c.now);
    if c.key == key {
      TakeSpendsAllowance(cfg, b, c.now, lo, hi);
      FreshAllowance(cfg, c.now, lo, hi);
    }
    hide TakeOne, Allowance;
  }

  // Over any run of calls, from any reachable bucket state, the calls on one key whose
  // readings lie in [lo, hi] are granted at most capacity + refill * (hi - lo) tokens.
  // Readings may jump back and forth within the stretch.
  lemma {:induction false} RateBound(cfg: Config, buckets: map<string, Bucket>, calls: seq<Call>, key: string, lo: int, hi: int)
    requires ValidConfig(cfg) && WithinCapacity(cfg, buckets) && lo <= hi
    requires forall c :: c in calls && c.key == key ==> lo <= c.now <= hi
    ensures Granted(cfg, buckets, calls, key) as real <= AllowanceAt(cfg, buckets, key, lo, hi)
    ensures Granted(cfg, buckets, calls, key) as real <= cfg.capacity + cfg.refill * Seconds(hi - lo)
    decreases |calls|
  {
    AllowanceIsBounded(cfg, buckets, key, lo, hi);
    if calls != [] {
      CallSpendsAllowance(cfg, buckets, calls[0], key, lo, hi);
      hide WithinCapacity, TakeFrom, AllowanceAt;
      RateBound(cfg, TakeFrom(cfg, buckets, calls[0].key, calls[0].now).0, calls[1..], key, lo, hi);
    }
  }

  // A reading at or before the last one adds nothing: the call is granted exactly when
  // a whole token is already there.
  lemma BackwardClockAddsNothing(cfg: Config, b: Bucket, now: int)
    requires now <= b.last
    ensures var t := TakeOne(cfg, b, now);
            && t.1 == (b.tokens >= 1.0) && t.0.last == b.last
            && t.0.tokens == b.tokens - (if t.1 then 1.0 else 0.0)
  {
    assert Seconds(now - b.last) <= 0.0;
  }

  // When a call is granted, told from the level before it: a whole token must be there
  // or have accrued, and a capacity below one token never grants anything.
  lemma GrantedIff(cfg: Config, b: Bucket, now: int)
    requires ValidConfig(cfg) && 0.0 <= b.tokens <= cfg.capacity && b.last <= now
    ensures TakeOne(cfg, b, now).1 <==> cfg.capacity >= 1.0 && b.tokens + cfg.refill * Seconds(now - b.last) >= 1.0
  {
    RateIsLinear(cfg, b.last, now, now);
  }

  // Waiting 1/refill seconds after a rejection is enough to be served.
  lemma WaitingIsRewarded(cfg: Config, b: Bucket, now: int, later: int)
    requires ValidConfig(cfg) && cfg.capacity >= 1.0 && 0.0 <= b.tokens <= cfg.capacity && b.last <= now <= later
    requires cfg.refill * Seconds(later - now) >= 1.0
    ensures TakeOne(cfg, TakeOne(cfg, b, now).0, later).1
  {
    var c := TakeOne(cfg, b, now).0;
    RateIsLinear(cfg, b.last, now, later);
    RateIsLinear(cfg, now, now, later);
    if c.last == now {
      GrantedIff(cfg, c, later);
    } else {
      RateIsLinear(cfg, c.last, now, later);
      GrantedIff(cfg, c, later);
    }
  }
}

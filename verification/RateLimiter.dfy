/** internal/api/ratelimit.go: token buckets keyed by client, over reals. The
    mutex makes each Allow one step; the clock reading is a parameter. */
module RateLimiter {
  import opened SqlAst
  import opened RealSums

  datatype Limits = Limits(rps: real, capacity: real)
  datatype Bucket = Bucket(tokens: real, last: real)

  function LimitsFor(rps: int): Limits {
    var r := if rps <= 0 then 100 else rps;
    Limits(r as real, r as real * 2.0)
  }

  ghost predicate ProperLimits(lim: Limits) {
    lim.rps > 0.0 && lim.capacity >= 1.0
  }

  function Min(a: real, b: real): real {
    if a < b then a else b
  }

  function Refilled(lim: Limits, b: Bucket, now: real): real {
    Min(lim.capacity, b.tokens + Times(now - b.last, lim.rps))
  }

  function Taken(lim: Limits, b: Bucket, now: real): (Bucket, bool) {
    var t := Refilled(lim, b, now);
    if t >= 1.0 then (Bucket(t - 1.0, now), true) else (Bucket(t, now), false)
  }

  /** A key seen for the first time starts with a full bucket. */
  function BucketOf(lim: Limits, b: Option<Bucket>, now: real): Bucket {
    if b.Some? then b.value else Bucket(lim.capacity, now)
  }

  type State = map<string, Bucket>

  function Lookup(st: State, key: string): Option<Bucket> {
    if key in st then Some(st[key]) else None
  }

  function Allowed(lim: Limits, st: State, key: string, now: real): (State, bool) {
    var (b, ok) := Taken(lim, BucketOf(lim, Lookup(st, key), now), now);
    (st[key := b], ok)
  }

  /** Putting a new key's full bucket in first changes nothing. */
  lemma CreationIsNeutral(lim: Limits, st: State, key: string, now: real)
    ensures Allowed(lim, st[key := BucketOf(lim, Lookup(st, key), now)], key, now) == Allowed(lim, st, key, now)
  {
    var b := BucketOf(lim, Lookup(st, key), now);
    var b' := Taken(lim, b, now).0;
    assert st[key := b][key := b'] == st[key := b'];
  }

  // ---- the objects --------------------------------------------------------------------

  class TokenBucket {
    var tokens: real
    var last: real
    const capacity: real
    const rps: real

    constructor (tokens: real, last: real, capacity: real, rps: real)
      ensures View() == Bucket(tokens, last) && this.capacity == capacity && this.rps == rps
    {
      this.tokens, this.last, this.capacity, this.rps := tokens, last, capacity, rps;
    }

    function View(): Bucket
      reads this
    {
      Bucket(tokens, last)
    }

    method Take(now: real) returns (ok: bool)
      modifies this
      ensures (View(), ok) == Taken(Limits(rps, capacity), old(View()), now)
    {
      var elapsed := now - last;
      tokens := Min(capacity, tokens + Times(elapsed, rps));
      last := now;
      if tokens >= 1.0 {
        tokens := tokens - 1.0;
        return true;
      }
      ok := false;
    }
  }

  class Limiter {
    var buckets: map<string, TokenBucket>
    const rps: real
    const capacity: real
    ghost var Repr: set<object>

    ghost predicate Valid()
      reads this, Repr
    {
      this in Repr
      && (forall k :: k in buckets ==>
            buckets[k] in Repr && buckets[k].rps == rps && buckets[k].capacity == capacity)
      && (forall j, k :: j in buckets && k in buckets && j != k ==> buckets[j] != buckets[k])
    }

    ghost function Limit(): Limits {
      Limits(rps, capacity)
    }

    ghost function View(): State
      requires Valid()
      reads this, Repr
    {
      map k | k in buckets :: buckets[k].View()
    }

    constructor (rps: int)
      ensures Valid() && fresh(Repr) && View() == map[] && Limit() == LimitsFor(rps)
    {
      var r := if rps <= 0 then 100 else rps;
      this.buckets := map[];
      this.rps := r as real;
      this.capacity := r as real * 2.0;
      this.Repr := {this};
    }

    method Allow(key: string, now: real) returns (ok: bool)
      requires Valid()
      modifies Repr
      ensures Valid() && fresh(Repr - old(Repr))
      ensures (View(), ok) == Allowed(Limit(), old(View()), key, now)
    {
      ghost var before := View();
      if key !in buckets {
        var b := new TokenBucket(capacity, now, capacity, rps);
        buckets := buckets[key := b];
        Repr := Repr + {b};
      }
      assert View() == before[key := BucketOf(Limit(), Lookup(before, key), now)];
      CreationIsNeutral(Limit(), before, key, now);
      ok := TakeFrom(key, now);
    }

    /** The take on a key that has its bucket. */
    method TakeFrom(key: string, now: real) returns (ok: bool)
      requires Valid() && key in buckets
      modifies buckets[key]
      ensures Valid()
      ensures (View(), ok) == Allowed(Limit(), old(View()), key, now)
    {
      var b := buckets[key];
      ok := b.Take(now);
      ghost var before, after := old(View()), View();
      assert forall k :: k in buckets && k != key ==> after[k] == before[k];
      assert after == before[key := after[key]];
    }
  }

  // ---- runs -----------------------------------------------------------------------------

  datatype Request = Request(key: string, at: real)

  /** Serve requests in order, from no buckets: the state and the decisions. */
  function Run(lim: Limits, reqs: seq<Request>): (State, seq<bool>) {
    if |reqs| == 0 then (map[], [])
    else
      var (st, ds) := Run(lim, reqs[..|reqs| - 1]);
      var r := reqs[|reqs| - 1];
      var (st', ok) := Allowed(lim, st, r.key, r.at);
      (st', ds + [ok])
  }

  /** One client alone, asking at these times. */
  function Solo(lim: Limits, ts: seq<real>): (Option<Bucket>, seq<bool>) {
    if |ts| == 0 then (None, [])
    else
      var (b, ds) := Solo(lim, ts[..|ts| - 1]);
      var t := ts[|ts| - 1];
      var (b', ok) := Taken(lim, BucketOf(lim, b, t), t);
      (Some(b'), ds + [ok])
  }

  function TimesOf(reqs: seq<Request>, key: string): seq<real> {
    if |reqs| == 0 then []
    else
      var r := reqs[|reqs| - 1];
      TimesOf(reqs[..|reqs| - 1], key) + if r.key == key then [r.at] else []
  }

  function DecisionsFor(reqs: seq<Request>, ds: seq<bool>, key: string): seq<bool>
    requires |reqs| == |ds|
  {
    if |reqs| == 0 then []
    else
      var n := |reqs| - 1;
      DecisionsFor(reqs[..n], ds[..n], key) + if reqs[n].key == key then [ds[n]] else []
  }

  lemma RunLength(lim: Limits, reqs: seq<Request>)
    ensures |Run(lim, reqs).1| == |reqs|
  {
  }

  lemma SoloLength(lim: Limits, ts: seq<real>)
    ensures |Solo(lim, ts).1| == |ts| && (|ts| > 0 ==> Solo(lim, ts).0.Some?)
  {
  }

  /** Main result: keys never affect each other. In any interleaving each key
      gets exactly the decisions it would get alone. */
  lemma {:induction false} KeysAreIndependent(lim: Limits, reqs: seq<Request>, key: string)
    ensures |Run(lim, reqs).1| == |reqs|
    ensures var (st, ds) := Run(lim, reqs);
            (Lookup(st, key), DecisionsFor(reqs, ds, key)) == Solo(lim, TimesOf(reqs, key))
  {
    RunLength(lim, reqs);
    if |reqs| > 0 {
      var n := |reqs| - 1;
      KeysAreIndependent(lim, reqs[..n], key);
      var (st, ds) := Run(lim, reqs);
      assert ds[..n] == Run(lim, reqs[..n]).1;
      if reqs[n].key == key {
        assert TimesOf(reqs, key)[..|TimesOf(reqs[..n], key)|] == TimesOf(reqs[..n], key);
      } else {
        assert TimesOf(reqs[..n], key) + [] == TimesOf(reqs[..n], key);
        assert DecisionsFor(reqs[..n], ds[..n], key) + [] == DecisionsFor(reqs[..n], ds[..n], key);
      }
    }
  }

  ghost predicate Nondecreasing(ts: seq<real>) {
    forall i, j :: 0 <= i < j < |ts| ==> ts[i] <= ts[j]
  }

  ghost predicate ClockOrdered(reqs: seq<Request>) {
    forall i, j :: 0 <= i < j < |reqs| ==> reqs[i].at <= reqs[j].at
  }

  lemma TimesOfOrdered(reqs: seq<Request>, key: string)
    requires ClockOrdered(reqs)
    ensures Nondecreasing(TimesOf(reqs, key))
    ensures |reqs| > 0 ==> forall t :: t in TimesOf(reqs, key) ==> t <= reqs[|reqs| - 1].at
  {
    if |reqs| > 0 {
      var n := |reqs| - 1;
      TimesOfOrdered(reqs[..n], key);
      var ts := TimesOf(reqs[..n], key);
      if n > 0 {
        assert reqs[n - 1].at <= reqs[n].at;
        assert reqs[..n][n - 1] == reqs[n - 1];
      }
      assert forall t :: t in ts ==> t <= reqs[n].at;
      assert forall i :: 0 <= i < |ts| ==> ts[i] in ts;
    }
  }

  // ---- one step -----------------------------------------------------------------------

  /** Tokens spent or kept never exceed the capacity, nor what was there plus
      what flowed in. */
  lemma StepBound(lim: Limits, b: Bucket, now: real)
    requires ProperLimits(lim) && 0.0 <= b.tokens <= lim.capacity && b.last <= now
    ensures var (b', ok) := Taken(lim, b, now);
            var spent := b'.tokens + if ok then 1.0 else 0.0;
            0.0 <= b'.tokens <= lim.capacity && b'.last == now
            && spent <= lim.capacity && spent <= b.tokens + Times(now - b.last, lim.rps)
  {
    NonNegativeTimes(now - b.last, lim.rps);
  }

  ghost function Count(ds: seq<bool>): nat {
    if |ds| == 0 then 0 else Count(ds[..|ds| - 1]) + if ds[|ds| - 1] then 1 else 0
  }

  lemma CountSnoc(ds: seq<bool>, d: bool)
    ensures Count(ds + [d]) == Count(ds) + if d then 1 else 0
  {
    assert (ds + [d])[..|ds|] == ds;
  }

  lemma SoloPrefix(lim: Limits, ts: seq<real>, j: nat)
    requires j <= |ts|
    ensures |Solo(lim, ts).1| == |ts| && Solo(lim, ts[..j]).1 == Solo(lim, ts).1[..j]
  {
    SoloLength(lim, ts);
    SoloLength(lim, ts[..j]);
    if j < |ts| {
      SoloPrefix(lim, ts[..|ts| - 1], j);
      assert ts[..|ts| - 1][..j] == ts[..j];
      SoloLength(lim, ts[..|ts| - 1]);
    } else {
      assert ts[..j] == ts;
    }
  }

  /** Main result: a client's tokens stay within [0, capacity]. */
  lemma {:induction false} SoloTokens(lim: Limits, ts: seq<real>)
    requires ProperLimits(lim) && Nondecreasing(ts) && |ts| > 0
    ensures Solo(lim, ts).0.Some?
    ensures var b := Solo(lim, ts).0.value; 0.0 <= b.tokens <= lim.capacity && b.last == ts[|ts| - 1]
  {
    var n := |ts| - 1;
    if n > 0 {
      SoloTokens(lim, ts[..n]);
      StepBound(lim, Solo(lim, ts[..n]).0.value, ts[n]);
    } else {
      StepBound(lim, Bucket(lim.capacity, ts[n]), ts[n]);
    }
  }

  lemma Accrue(rps: real, a: real, b: real, c: real)
    ensures Times(b - a, rps) + Times(c - b, rps) == Times(c - a, rps)
  {
  }

  /** One more request at time t, after the window from start to last held. */
  lemma WindowStep(lim: Limits, start: real, last: real, t: real,
                   tokens: real, allowed: real, left: real, spent: real)
    requires tokens + allowed <= lim.capacity + Times(last - start, lim.rps)
    requires left + spent <= tokens + Times(t - last, lim.rps)
    ensures left + (allowed + spent) <= lim.capacity + Times(t - start, lim.rps)
  {
    Accrue(lim.rps, start, last, t);
  }

  lemma WindowStart(lim: Limits, t: real, left: real, spent: real)
    requires left + spent <= lim.capacity
    ensures left + (0.0 + spent) <= lim.capacity + Times(t - t, lim.rps)
  {
  }

  /** One more request of a lone client, unfolded. */
  lemma {:induction false} SoloSnoc(lim: Limits, ts: seq<real>, j: nat)
    requires 0 < j <= |ts|
    ensures |Solo(lim, ts[..j - 1]).1| == j - 1
    ensures var (b, ds) := Solo(lim, ts[..j - 1]);
            var (b', ok) := Taken(lim, BucketOf(lim, b, ts[j - 1]), ts[j - 1]);
            Solo(lim, ts[..j]) == (Some(b'), ds + [ok])
    ensures j > 1 ==> Solo(lim, ts[..j - 1]).0.Some?
  {
    SoloLength(lim, ts[..j - 1]);
    assert ts[..j][..j - 1] == ts[..j - 1];
  }

  ghost function AllowedSince(lim: Limits, ts: seq<real>, i: nat, j: nat): real
    requires i <= j <= |ts|
  {
    SoloLength(lim, ts[..j]);
    Count(Solo(lim, ts[..j]).1[i..]) as real
  }

  lemma {:induction false} AllowedSinceSnoc(lim: Limits, ts: seq<real>, i: nat, j: nat)
    requires i < j <= |ts| && |Solo(lim, ts[..j]).1| == j
    ensures AllowedSince(lim, ts, i, j)
         == AllowedSince(lim, ts, i, j - 1) + if Solo(lim, ts[..j]).1[j - 1] then 1.0 else 0.0
  {
    SoloSnoc(lim, ts, j);
    var ds, ok := Solo(lim, ts[..j - 1]).1, Solo(lim, ts[..j]).1[j - 1];
    assert (ds + [ok])[i..] == ds[i..] + [ok];
    CountSnoc(ds[i..], ok);
  }

  /** What is left plus what was allowed since request i. */
  lemma {:induction false} SoloWindow(lim: Limits, ts: seq<real>, i: nat, j: nat)
    requires ProperLimits(lim) && Nondecreasing(ts) && i < j <= |ts|
    ensures Solo(lim, ts[..j]).0.Some?
    ensures Solo(lim, ts[..j]).0.value.tokens + AllowedSince(lim, ts, i, j)
         <= lim.capacity + Times(ts[j - 1] - ts[i], lim.rps)
    decreases j
  {
    SoloSnoc(lim, ts, j);
    AllowedSinceSnoc(lim, ts, i, j);
    var b, t := Solo(lim, ts[..j - 1]).0, ts[j - 1];
    if j > 1 {
      PrefixOrdered(ts, j - 1);
      SoloTokens(lim, ts[..j - 1]);
    }
    var b0 := BucketOf(lim, b, t);
    StepBound(lim, b0, t);
    var left, spent := Taken(lim, b0, t).0.tokens, if Taken(lim, b0, t).1 then 1.0 else 0.0;
    if i < j - 1 {
      SoloWindow(lim, ts, i, j - 1);
      WindowStep(lim, ts[i], ts[j - 2], t, b0.tokens, AllowedSince(lim, ts, i, j - 1), left, spent);
    } else {
      WindowStart(lim, t, left, spent);
    }
  }

  lemma Scale(rps: real, a: real, b: real)
    requires a <= b && rps > 0.0
    ensures Times(a, rps) <= Times(b, rps)
  {
    NonNegativeTimes(b - a, rps);
  }

  /** Main result: in any interleaving, however busy the other keys, the
      requests of one key allowed within any window of length T number at most
      capacity + rps * T. */
  lemma WindowBound(lim: Limits, reqs: seq<Request>, key: string, i: nat, j: nat, T: real)
    requires ProperLimits(lim) && ClockOrdered(reqs)
    requires i < j <= |TimesOf(reqs, key)| && TimesOf(reqs, key)[j - 1] - TimesOf(reqs, key)[i] <= T
    ensures |Run(lim, reqs).1| == |reqs|
    ensures |DecisionsFor(reqs, Run(lim, reqs).1, key)| == |TimesOf(reqs, key)|
    ensures Count(DecisionsFor(reqs, Run(lim, reqs).1, key)[i..j]) as real <= lim.capacity + Times(T, lim.rps)
  {
    var ts := TimesOf(reqs, key);
    KeysAreIndependent(lim, reqs, key);
    TimesOfOrdered(reqs, key);
    SoloPrefix(lim, ts, j);
    SoloWindow(lim, ts, i, j);
    PrefixOrdered(ts, j);
    SoloTokens(lim, ts[..j]);
    Scale(lim.rps, ts[j - 1] - ts[i], T);
    assert Solo(lim, ts).1[..j][i..] == Solo(lim, ts).1[i..j];
  }

  lemma PrefixOrdered(ts: seq<real>, j: nat)
    requires Nondecreasing(ts) && j <= |ts|
    ensures Nondecreasing(ts[..j])
  {
  }

  /** Main result: tokens of every key stay within [0, capacity] over any run. */
  lemma TokensBounded(lim: Limits, reqs: seq<Request>, key: string)
    requires ProperLimits(lim) && ClockOrdered(reqs) && key in Run(lim, reqs).0
    ensures 0.0 <= Run(lim, reqs).0[key].tokens <= lim.capacity
  {
    KeysAreIndependent(lim, reqs, key);
    TimesOfOrdered(reqs, key);
    SoloTokens(lim, TimesOf(reqs, key));
  }

  lemma OneToken(rps: real, gap: real)
    requires rps > 0.0 && gap >= 1.0 / rps
    ensures Times(gap, rps) >= 1.0
  {
    Scale(rps, 1.0 / rps, gap);
    assert Times(1.0 / rps, rps) == 1.0;
  }

  lemma {:induction false} RefilledBucketAdmits(lim: Limits, b: Bucket, now: real)
    requires ProperLimits(lim) && b.tokens >= 0.0 && now - b.last >= 1.0 / lim.rps
    ensures Taken(lim, b, now).1
  {
    OneToken(lim.rps, now - b.last);
  }

  lemma {:induction false} SpacedSoloIsAllowed(lim: Limits, ts: seq<real>, k: nat)
    requires ProperLimits(lim) && Nondecreasing(ts) && k < |ts|
    requires k > 0 ==> ts[k] - ts[k - 1] >= 1.0 / lim.rps
    ensures |Solo(lim, ts[..k + 1]).1| == k + 1 && Solo(lim, ts[..k + 1]).1[k]
  {
    SoloSnoc(lim, ts, k + 1);
    if k > 0 {
      PrefixOrdered(ts, k);
      SoloTokens(lim, ts[..k]);
      RefilledBucketAdmits(lim, Solo(lim, ts[..k]).0.value, ts[k]);
    } else {
      FullBucketAdmits(lim, ts[0]);
    }
  }

  lemma FullBucketAdmits(lim: Limits, now: real)
    requires ProperLimits(lim)
    ensures Taken(lim, Bucket(lim.capacity, now), now).1
  {
    assert Times(now - now, lim.rps) == 0.0;
  }

  /** Main result: a request at least 1/rps after the same key's previous one,
      or its first, is never refused, whatever went before. */
  lemma SpacedRequestIsAllowed(lim: Limits, reqs: seq<Request>, key: string, k: nat)
    requires ProperLimits(lim) && ClockOrdered(reqs) && k < |TimesOf(reqs, key)|
    requires k > 0 ==> TimesOf(reqs, key)[k] - TimesOf(reqs, key)[k - 1] >= 1.0 / lim.rps
    ensures |Run(lim, reqs).1| == |reqs|
    ensures |DecisionsFor(reqs, Run(lim, reqs).1, key)| == |TimesOf(reqs, key)|
    ensures DecisionsFor(reqs, Run(lim, reqs).1, key)[k]
  {
    var ts := TimesOf(reqs, key);
    KeysAreIndependent(lim, reqs, key);
    TimesOfOrdered(reqs, key);
    SoloPrefix(lim, ts, k + 1);
    SpacedSoloIsAllowed(lim, ts, k);
  }

  // ---- exactly which requests are refused ---------------------------------------------------

  /** The capacity and what flowed in since request i, less what was allowed. */
  ghost predicate AccountedFrom(lim: Limits, ts: seq<real>, i: nat, j: nat)
    requires i < j <= |ts|
  {
    Solo(lim, ts[..j]).0.Some?
    && Solo(lim, ts[..j]).0.value.tokens + AllowedSince(lim, ts, i, j)
       == lim.capacity + Times(ts[j - 1] - ts[i], lim.rps)
  }

  lemma SingleAllowed(lim: Limits, ts: seq<real>, j: nat)
    requires 0 < j <= |ts| && |Solo(lim, ts[..j]).1| == j
    ensures AllowedSince(lim, ts, j - 1, j) == if Solo(lim, ts[..j]).1[j - 1] then 1.0 else 0.0
  {
    AllowedSinceSnoc(lim, ts, j - 1, j);
    SoloLength(lim, ts[..j - 1]);
    assert Solo(lim, ts[..j - 1]).1[j - 1..] == [];
  }

  /** Since the last request that found the bucket full, if only the first, no
      token has been lost. */
  lemma {:induction false} LastFull(lim: Limits, ts: seq<real>, j: nat) returns (i: nat)
    requires ProperLimits(lim) && Nondecreasing(ts) && 0 < j <= |ts|
    ensures i < j && AccountedFrom(lim, ts, i, j)
  {
    SoloSnoc(lim, ts, j);
    var b, t := Solo(lim, ts[..j - 1]).0, ts[j - 1];
    var (left, ok) := Taken(lim, BucketOf(lim, b, t), t);
    SingleAllowed(lim, ts, j);
    if j == 1 || Refilled(lim, b.value, t) == lim.capacity {
      i := j - 1;
      assert Times(t - t, lim.rps) == 0.0;
    } else {
      i := LastFull(lim, ts, j - 1);
      PrefixOrdered(ts, j - 1);
      SoloTokens(lim, ts[..j - 1]);
      AllowedSinceSnoc(lim, ts, i, j);
      Accrue(lim.rps, ts[i], ts[j - 2], t);
    }
  }

  /** Too many were allowed from request i on for request k to get a token. */
  ghost predicate Overdrawn(lim: Limits, ts: seq<real>, ds: seq<bool>, i: nat, k: nat)
    requires i < k < |ts| == |ds|
  {
    Count(ds[i..k]) as real + 1.0 > lim.capacity + Times(ts[k] - ts[i], lim.rps)
  }

  lemma AllowedBefore(lim: Limits, ts: seq<real>, i: nat, k: nat)
    requires i <= k < |ts|
    ensures |Solo(lim, ts).1| == |ts|
    ensures var ds := Solo(lim, ts).1;
            AllowedSince(lim, ts, i, k + 1) == Count(ds[i..k]) as real + if ds[k] then 1.0 else 0.0
  {
    hide Count;
    var ds := Solo(lim, ts).1;
    SoloPrefix(lim, ts, k + 1);
    SoloPrefix(lim, ts, k);
    AllowedSinceSnoc(lim, ts, i, k + 1);
    assert ds[..k][i..] == ds[i..k] && ds[..k + 1][k] == ds[k];
  }

  lemma {:induction false} RefusedIsOverdrawn(lim: Limits, ts: seq<real>, k: nat)
    requires ProperLimits(lim) && Nondecreasing(ts) && k < |ts|
    requires |Solo(lim, ts).1| == |ts| && !Solo(lim, ts).1[k]
    ensures exists i: nat :: i < k && Overdrawn(lim, ts, Solo(lim, ts).1, i, k)
  {
    hide Count, AllowedSince, Taken, BucketOf;
    SoloPrefix(lim, ts, k + 1);
    SoloSnoc(lim, ts, k + 1);
    assert Solo(lim, ts).1[..k + 1][k] == Solo(lim, ts).1[k];
    var i := LastFull(lim, ts, k + 1);
    AllowedBefore(lim, ts, i, k);
    RefusedIsBelowOne(lim, BucketOf(lim, Solo(lim, ts[..k]).0, ts[k]), ts[k]);
    NothingSince(Solo(lim, ts).1, k);
    assert Times(ts[k] - ts[k], lim.rps) == 0.0;
    if i < k {
      assert Overdrawn(lim, ts, Solo(lim, ts).1, i, k);
    }
  }

  lemma NothingSince(ds: seq<bool>, k: nat)
    requires k <= |ds|
    ensures Count(ds[k..k]) == 0
  {
  }

  lemma {:induction false} SoloRefusedIff(lim: Limits, ts: seq<real>, k: nat)
    requires ProperLimits(lim) && Nondecreasing(ts) && k < |ts|
    ensures |Solo(lim, ts).1| == |ts|
    ensures !Solo(lim, ts).1[k] <==> exists i: nat :: i < k && Overdrawn(lim, ts, Solo(lim, ts).1, i, k)
  {
    hide Count, AllowedSince, Solo;
    SoloLength(lim, ts);
    if Solo(lim, ts).1[k] {
      forall i: nat | i < k ensures !Overdrawn(lim, ts, Solo(lim, ts).1, i, k) {
        AllowedBefore(lim, ts, i, k);
        SoloWindow(lim, ts, i, k + 1);
        PrefixOrdered(ts, k + 1);
        SoloTokens(lim, ts[..k + 1]);
      }
    } else {
      RefusedIsOverdrawn(lim, ts, k);
    }
  }

  lemma RefusedIsBelowOne(lim: Limits, b: Bucket, now: real)
    ensures !Taken(lim, b, now).1 ==> Taken(lim, b, now).0.tokens < 1.0
  {
  }

  /** Main result: which requests are refused, told from the earlier decisions of
      the key alone. Request k is refused exactly when, from some earlier request
      i on, the allowed ones and this one would exceed capacity + rps * (tk - ti). */
  lemma RefusedIff(lim: Limits, reqs: seq<Request>, key: string, k: nat)
    requires ProperLimits(lim) && ClockOrdered(reqs) && k < |TimesOf(reqs, key)|
    ensures |Run(lim, reqs).1| == |reqs|
    ensures var ts, ds := TimesOf(reqs, key), DecisionsFor(reqs, Run(lim, reqs).1, key);
            |ds| == |ts| && (!ds[k] <==> exists i: nat :: i < k && Overdrawn(lim, ts, ds, i, k))
  {
    KeysAreIndependent(lim, reqs, key);
    TimesOfOrdered(reqs, key);
    SoloRefusedIff(lim, TimesOf(reqs, key), k);
  }

  lemma {:induction false} CountFits(ds: seq<bool>)
    ensures Count(ds) <= |ds|
  {
    if |ds| > 0 {
      CountFits(ds[..|ds| - 1]);
    }
  }

  /** A request among the first floor(capacity) of a key is never refused. */
  lemma BurstIsAllowed(lim: Limits, reqs: seq<Request>, key: string, k: nat)
    requires ProperLimits(lim) && ClockOrdered(reqs) && k < |TimesOf(reqs, key)|
    requires (k + 1) as real <= lim.capacity
    ensures |Run(lim, reqs).1| == |reqs|
    ensures |DecisionsFor(reqs, Run(lim, reqs).1, key)| == |TimesOf(reqs, key)|
    ensures DecisionsFor(reqs, Run(lim, reqs).1, key)[k]
  {
    RefusedIff(lim, reqs, key, k);
    TimesOfOrdered(reqs, key);
    var ts, ds := TimesOf(reqs, key), DecisionsFor(reqs, Run(lim, reqs).1, key);
    forall i: nat | i < k ensures !Overdrawn(lim, ts, ds, i, k) {
      CountFits(ds[i..k]);
      NonNegativeTimes(ts[k] - ts[i], lim.rps);
    }
  }

  /** What a constructed limiter promises: NewLimiter(n), 100 standing in for a
      missing rate, lets every new client burst 2n requests and sustain n a second. */
  lemma ConstructedLimitsAreProper(rps: int)
    ensures ProperLimits(LimitsFor(rps)) && LimitsFor(rps).capacity == 2.0 * LimitsFor(rps).rps
    ensures LimitsFor(rps).rps == (if rps <= 0 then 100.0 else rps as real)
  {
  }

  /** Main result: from NewLimiter(n) a client's first 2n requests, 200 for a
      missing rate, are allowed whatever their spacing and the other clients. */
  lemma NewClientBurst(rps: int, reqs: seq<Request>, key: string, k: nat)
    requires ClockOrdered(reqs) && k < |TimesOf(reqs, key)|
    requires k < if rps <= 0 then 200 else 2 * rps
    ensures |Run(LimitsFor(rps), reqs).1| == |reqs|
    ensures |DecisionsFor(reqs, Run(LimitsFor(rps), reqs).1, key)| == |TimesOf(reqs, key)|
    ensures DecisionsFor(reqs, Run(LimitsFor(rps), reqs).1, key)[k]
  {
    ConstructedLimitsAreProper(rps);
    BurstIsAllowed(LimitsFor(rps), reqs, key, k);
  }
}

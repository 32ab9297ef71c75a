/** The token bucket per namespace that paces the executor
    (internal/metastructure/changeset/rate_limiter.go). Clock readings are arguments. */
module RateLimiting {
  import opened Common

  function Min(x: int, y: int): int { if x < y then x else y }

  datatype Bucket = Bucket(tokens: int, capacity: int, lastRefill: real) {
    ghost predicate Valid() { 0 <= tokens <= capacity }
  }

  /** A request for n tokens, with the clock as read by the refill check and by the refill itself. */
  datatype Request = Request(n: int, checkAt: real, refillAt: real)

  predicate Refills(b: Bucket, r: Request) { r.checkAt - b.lastRefill > 1.0 }

  function Replenished(b: Bucket, r: Request): Bucket {
    if Refills(b, r) then b.(tokens := b.capacity, lastRefill := r.refillAt) else b
  }

  function Grant(b: Bucket, r: Request): int { Min(r.n, Replenished(b, r).tokens) }

  function Served(b: Bucket, r: Request): Bucket {
    var f := Replenished(b, r);
    f.(tokens := f.tokens - Grant(b, r))
  }

  // ----- Runs of one bucket -----

  function After(b: Bucket, rs: seq<Request>): Bucket {
    if rs == [] then b else Served(After(b, rs[..|rs| - 1]), rs[|rs| - 1])
  }

  function TotalGranted(b: Bucket, rs: seq<Request>): int {
    if rs == [] then 0
    else TotalGranted(b, rs[..|rs| - 1]) + Grant(After(b, rs[..|rs| - 1]), rs[|rs| - 1])
  }

  function RefillCount(b: Bucket, rs: seq<Request>): nat {
    if rs == [] then 0
    else RefillCount(b, rs[..|rs| - 1]) + (if Refills(After(b, rs[..|rs| - 1]), rs[|rs| - 1]) then 1 else 0)
  }

  /** Non-negative requests on a clock that never goes back. */
  ghost predicate Monotone(rs: seq<Request>) {
    && (forall i | 0 <= i < |rs| :: rs[i].n >= 0 && rs[i].checkAt <= rs[i].refillAt)
    && (forall i, j | 0 <= i < j < |rs| :: rs[i].refillAt <= rs[j].checkAt)
  }

  function Ceil(t: real): int { -((-t).Floor) }

  lemma {:induction false} TokensStayInRange(b: Bucket, rs: seq<Request>)
    requires b.Valid() && forall r | r in rs :: r.n >= 0
    ensures After(b, rs).Valid() && After(b, rs).capacity == b.capacity
    ensures TotalGranted(b, rs) >= 0
  {
    if rs != [] {
      assert rs[|rs| - 1] in rs;
      TokensStayInRange(b, rs[..|rs| - 1]);
    }
  }

  /** Tokens come from the bucket's first filling and from its refills. */
  lemma {:induction false} GrantedBound(b: Bucket, rs: seq<Request>)
    requires b.Valid() && forall r | r in rs :: r.n >= 0
    ensures TotalGranted(b, rs) + After(b, rs).tokens <= b.tokens + b.capacity * RefillCount(b, rs)
  {
    if rs != [] {
      var init, r := rs[..|rs| - 1], rs[|rs| - 1];
      GrantedBound(b, init);
      TokensStayInRange(b, init);
      var a := After(b, init);
      if Refills(a, r) {
        assert b.capacity * (RefillCount(b, init) + 1) == b.capacity * RefillCount(b, init) + b.capacity;
      }
    }
  }

  /** Refills are more than a second apart, so k of them span more than k - 1 seconds. */
  lemma {:induction false} RefillSpacing(b: Bucket, rs: seq<Request>) returns (first: real)
    requires Monotone(rs) && RefillCount(b, rs) >= 1
    ensures exists r | r in rs :: r.refillAt == first
    ensures exists r | r in rs :: r.refillAt == After(b, rs).lastRefill
    ensures After(b, rs).lastRefill - first >= (RefillCount(b, rs) - 1) as real
    ensures RefillCount(b, rs) >= 2 ==> After(b, rs).lastRefill - first > (RefillCount(b, rs) - 1) as real
  {
    var init, r := rs[..|rs| - 1], rs[|rs| - 1];
    assert r in rs && rs == init + [r];
    if RefillCount(b, init) == 0 {
      first := r.refillAt;
    } else {
      first := RefillSpacing(b, init);
      assert r.checkAt <= r.refillAt;
    }
  }

  lemma {:induction false} RefillsInWindow(b: Bucket, rs: seq<Request>, from: real, length: real)
    requires Monotone(rs) && length > 0.0
    requires forall r | r in rs :: from <= r.refillAt <= from + length
    ensures RefillCount(b, rs) <= Ceil(length)
  {
    if RefillCount(b, rs) >= 1 {
      var first := RefillSpacing(b, rs);
      var k := RefillCount(b, rs) - 1;
      assert k >= 1 ==> (k as real) < length;
      assert (-length).Floor <= -k - 1;
    }
  }

  /** In any stretch of a run that lies within a window of `length` seconds, at most
      Capacity * (ceil(length) + 1) tokens are granted. */
  lemma {:induction false} WindowBound(b: Bucket, rs: seq<Request>, i: nat, j: nat, from: real, length: real)
    requires b.Valid() && Monotone(rs) && i <= j <= |rs| && length > 0.0
    requires forall r | r in rs[i..j] :: from <= r.refillAt <= from + length
    ensures TotalGranted(After(b, rs[..i]), rs[i..j]) <= b.capacity * (Ceil(length) + 1)
  {
    TokensStayInRange(b, rs[..i]);
    var c, w := After(b, rs[..i]), rs[i..j];
    hide After, TotalGranted, RefillCount, Ceil;
    assert forall k | 0 <= k < |w| :: w[k] == rs[i + k];
    GrantedBound(c, w);
    TokensStayInRange(c, w);
    RefillsInWindow(c, w, from, length);
    CapacityTimes(c.capacity, c.tokens, RefillCount(c, w), Ceil(length));
  }

  lemma {:induction false} CapacityTimes(capacity: int, tokens: int, k: int, bound: int)
    requires 0 <= tokens <= capacity && k <= bound
    ensures tokens + capacity * k <= capacity * (bound + 1)
  {
    assert 0 <= capacity * (bound - k);
  }

  /** So no window of one second sees more than twice the capacity. */
  lemma {:induction false} OneSecondBound(b: Bucket, rs: seq<Request>, i: nat, j: nat, from: real)
    requires b.Valid() && Monotone(rs) && i <= j <= |rs|
    requires forall r | r in rs[i..j] :: from <= r.refillAt <= from + 1.0
    ensures TotalGranted(After(b, rs[..i]), rs[i..j]) <= 2 * b.capacity
  {
    WindowBound(b, rs, i, j, from, 1.0);
    assert Ceil(1.0) == 1;
    assert b.capacity * 2 == 2 * b.capacity;
  }

  // ----- The limiter -----

  class RateLimiter {
    var buckets: map<string, Bucket>

    ghost predicate Valid()
      reads this
    {
      forall ns | ns in buckets :: buckets[ns].Valid()
    }

    constructor (rates: map<string, nat>, now: real)
      ensures buckets == map ns | ns in rates :: Bucket(rates[ns], rates[ns], now)
      ensures Valid()
    {
      buckets := map ns | ns in rates :: Bucket(rates[ns], rates[ns], now);
    }

    /** Grants what the namespace's bucket can give. A namespace without a bucket has no answer. */
    method RequestTokens(namespace: string, r: Request) returns (granted: Option<int>)
      requires Valid()
      modifies this
      ensures granted.None? <==> namespace !in old(buckets)
      ensures granted.None? ==> buckets == old(buckets)
      ensures granted.Some? ==> granted.value == Grant(old(buckets)[namespace], r)
      ensures granted.Some? ==> buckets == old(buckets)[namespace := Served(old(buckets)[namespace], r)]
      ensures granted.Some? ==>
                var b := old(buckets)[namespace];
                if r.checkAt - b.lastRefill > 1.0
                then
                  && granted.value == (if r.n < b.capacity then r.n else b.capacity)
                  && buckets[namespace] == Bucket(b.capacity - granted.value, b.capacity, r.refillAt)
                else
                  && granted.value == (if r.n < b.tokens then r.n else b.tokens)
                  && buckets[namespace] == Bucket(b.tokens - granted.value, b.capacity, b.lastRefill)
      ensures r.n >= 0 ==> Valid() && (granted.Some? ==> 0 <= granted.value <= r.n)
    {
      if namespace !in buckets {
        return None;
      }
      Replenish(namespace, r);
      var n := Min(r.n, buckets[namespace].tokens);
      Consume(namespace, n);
      return Some(n);
    }

    method Replenish(namespace: string, r: Request)
      requires namespace in buckets
      modifies this
      ensures buckets == old(buckets)[namespace := Replenished(old(buckets)[namespace], r)]
    {
      var b := buckets[namespace];
      if r.checkAt - b.lastRefill > 1.0 {
        buckets := buckets[namespace := b.(tokens := b.capacity, lastRefill := r.refillAt)];
      }
    }

    method Consume(namespace: string, n: int)
      requires namespace in buckets
      modifies this
      ensures buckets == old(buckets)[namespace := old(buckets)[namespace].(tokens :=
                old(buckets)[namespace].tokens - n)]
    {
      buckets := buckets[namespace := buckets[namespace].(tokens := buckets[namespace].tokens - n)];
    }
  }
}

/** The token bucket of the policy engine: whole tokens, a 50 ms quantum, a lazy clock mark,
    and the machine's 32- and 64-bit wrap-around. Times are nanoseconds. */
module TokenBuckets {
  const NANOS_PER_MS: nat := 1_000_000
  const NANOS_PER_SEC: nat := 1_000_000_000
  const QUANTUM: nat := 50 * NANOS_PER_MS
  const U32: nat := 0x1_0000_0000
  const U64: nat := 0x1_0000_0000_0000_0000

  datatype Bucket = Bucket(rps: nat, capacity: nat, tokens: nat, last: nat)

  predicate WellFormed(b: Bucket) {
    1 <= b.rps < U32 && 1 <= b.capacity < U32 && b.tokens <= b.capacity
  }

  function Max(a: nat, b: nat): nat { if a >= b then a else b }

  function Min(a: nat, b: nat): nat { if a <= b then a else b }

  function New(rps: nat, burst: nat, now: nat): Bucket {
    Bucket(Max(rps, 1), Max(burst, 1), Max(burst, 1), now)
  }

  /** `duration_since` is zero for an earlier instant. */
  function Elapsed(b: Bucket, now: nat): nat {
    if now < b.last then 0 else now - b.last
  }

  /** Tokens for the elapsed whole milliseconds: a 64-bit product, cut off to 32 bits. */
  function Credit(b: Bucket, elapsed: nat): nat {
    ((elapsed / NANOS_PER_MS % U64) * b.rps % U64 / 1000) % U32
  }

  function Refill(b: Bucket, now: nat): Bucket {
    var elapsed := Elapsed(b, now);
    if elapsed < QUANTUM then b
    else
      var add := Credit(b, elapsed);
      if add > 0 then b.(tokens := Min((b.tokens + add) % U32, b.capacity), last := now) else b
  }

  predicate Allowed(b: Bucket, now: nat) {
    Refill(b, now).tokens > 0
  }

  function Allow(b: Bucket, now: nat): Bucket {
    var r := Refill(b, now);
    if r.tokens == 0 then r else r.(tokens := r.tokens - 1)
  }

  class TokenBucket {
    const rps: nat
    const capacity: nat
    var tokens: nat
    var last: nat

    function View(): Bucket
      reads this
    {
      Bucket(rps, capacity, tokens, last)
    }

    constructor (rps: nat, burst: nat, now: nat)
      requires rps < U32 && burst < U32
      ensures View() == New(rps, burst, now) && WellFormed(View())
    {
      this.rps := if rps > 1 then rps else 1;
      var cap := if burst > 1 then burst else 1;
      this.capacity := cap;
      this.tokens := cap;
      this.last := now;
    }

    method RefillAt(now: nat)
      modifies this
      ensures View() == Refill(old(View()), now)
    {
      var elapsed := if now < last then 0 else now - last;
      if elapsed < QUANTUM { return; }
      var add := ((elapsed / NANOS_PER_MS % U64) * rps % U64 / 1000) % U32;
      if add > 0 {
        tokens := Min((tokens + add) % U32, capacity);
        last := now;
      }
    }

    method AllowAt(now: nat) returns (ok: bool)
      modifies this
      ensures ok == Allowed(old(View()), now)
      ensures View() == Allow(old(View()), now)
    {
      RefillAt(now);
      if tokens == 0 { return false; }
      tokens := tokens - 1;
      return true;
    }
  }

  // ---- arithmetic ----

  lemma MulMono(a: nat, b: nat, c: nat)
    requires a <= b
    ensures a * c <= b * c
  {
  }

  lemma Modest(a: nat, m: nat)
    requires m > 0
    ensures a % m <= a
    ensures a < m ==> a % m == a
  {
  }

  /** Wrapping only ever loses credit. */
  lemma CreditAtMost(b: Bucket, elapsed: nat)
    ensures NANOS_PER_SEC * Credit(b, elapsed) <= elapsed * b.rps
  {
    var ms := elapsed / NANOS_PER_MS;
    Modest(ms, U64);
    var product := (ms % U64) * b.rps;
    MulMono(ms % U64, ms, b.rps);
    Modest(product, U64);
    Modest(product % U64 / 1000, U32);
    assert 1000 * Credit(b, elapsed) <= product <= ms * b.rps;
    MulMono(ms * NANOS_PER_MS, elapsed, b.rps);
    assert ms * NANOS_PER_MS * b.rps == NANOS_PER_MS * (ms * b.rps);
  }

  /** Nothing wraps when the uncapped sum fits 32 bits. */
  predicate Fits(b: Bucket, elapsed: nat) {
    b.capacity + Earned(b, elapsed) < U32
  }

  lemma CreditExact(b: Bucket, elapsed: nat)
    requires WellFormed(b) && Fits(b, elapsed)
    ensures Credit(b, elapsed) == Earned(b, elapsed)
  {
    var ms := elapsed / NANOS_PER_MS;
    assert ms * b.rps < U64;
    MulMono(1, b.rps, ms);
    assert ms <= ms * b.rps;
    Modest(ms, U64);
    Modest(ms * b.rps, U64);
    Modest(ms * b.rps / 1000, U32);
  }

  // ---- one call ----

  /** Tokens never exceed the capacity. */
  lemma AllowWellFormed(b: Bucket, now: nat)
    requires WellFormed(b)
    ensures WellFormed(Refill(b, now)) && WellFormed(Allow(b, now))
    ensures Allow(b, now).rps == b.rps && Allow(b, now).capacity == b.capacity
    ensures b.last <= Allow(b, now).last <= Max(b.last, now)
  {
  }

  /** Tokens are paid for by the movement of the clock mark. */
  lemma AllowPays(b: Bucket, now: nat)
    requires WellFormed(b)
    ensures NANOS_PER_SEC * ((if Allowed(b, now) then 1 else 0) + Allow(b, now).tokens)
         <= NANOS_PER_SEC * b.tokens + (Allow(b, now).last - b.last) * b.rps
  {
    var elapsed := Elapsed(b, now);
    CreditAtMost(b, elapsed);
    var add := Credit(b, elapsed);
    Modest(b.tokens + add, U32);
    hide Credit;
    var r := Refill(b, now);
    if r != b {
      assert r.tokens <= b.tokens + add && r.last - b.last == elapsed;
      assert NANOS_PER_SEC * r.tokens <= NANOS_PER_SEC * b.tokens + elapsed * b.rps;
    }
  }

  lemma RemainderUnique(q: nat, r: nat, p: nat, s: nat, m: nat)
    requires q * m + r == p * m + s && r < m && s < m
    ensures r == s
  {
    if q < p { MulMono(q + 1, p, m); }
    if p < q { MulMono(p + 1, q, m); }
  }

  lemma ModAdd(q: nat, r: nat, m: nat)
    requires m > 0
    ensures (q * m + r) % m == r % m
  {
    var x := q * m + r;
    Distributes(q, r / m, m);
    RemainderUnique(x / m, x % m, q + r / m, r % m, m);
  }

  /** Truncating a factor first does not change a truncated product. */
  lemma ModFactor(x: nat, k: nat, m: nat)
    requires m > 0
    ensures (x % m) * k % m == x * k % m
  {
    FactorParts(x, x / m, x % m, k, m);
  }

  lemma FactorParts(x: nat, q: nat, r: nat, k: nat, m: nat)
    requires m > 0 && x == q * m + r
    ensures r * k % m == x * k % m
  {
    Distributes(q * m, r, k);
    assert q * m * k == q * k * m;
    ModAdd(q * k, r * k, m);
  }

  /** Truncating a summand first does not change a truncated sum. */
  lemma ModSummand(a: nat, x: nat, m: nat)
    requires m > 0
    ensures (a + x % m) % m == (a + x) % m
  {
    ModAdd(x / m, a + x % m, m);
  }

  /** What refilling adds when nothing is cut off. */
  function Earned(b: Bucket, elapsed: nat): nat {
    elapsed / NANOS_PER_MS * b.rps / 1000
  }

  lemma AllowedByCredit(b: Bucket, now: nat)
    requires WellFormed(b)
    ensures Elapsed(b, now) < QUANTUM ==> (Allowed(b, now) <==> b.tokens > 0)
    ensures Elapsed(b, now) >= QUANTUM ==>
              (Allowed(b, now) <==> (b.tokens + Credit(b, Elapsed(b, now))) % U32 != 0)
  {
    hide Credit;
    Modest(b.tokens, U32);
  }

  /** Exactly when a call succeeds. Within the quantum: when a token is left. After it, as long
      as the 64-bit product does not wrap: unless tokens and earnings together are a multiple
      of 2^32, none included. */
  lemma AllowedIff(b: Bucket, now: nat)
    requires WellFormed(b)
    ensures Elapsed(b, now) < QUANTUM ==> (Allowed(b, now) <==> b.tokens > 0)
    ensures Elapsed(b, now) >= QUANTUM && Elapsed(b, now) / NANOS_PER_MS * b.rps < U64 ==>
              (Allowed(b, now) <==> (b.tokens + Earned(b, Elapsed(b, now))) % U32 != 0)
  {
    hide Allowed;
    AllowedByCredit(b, now);
    var ms := Elapsed(b, now) / NANOS_PER_MS;
    ModFactor(ms, b.rps, U64);
    Modest(ms * b.rps, U64);
    ModSummand(b.tokens, ms * b.rps % U64 / 1000, U32);
  }

  /** max(50 ms, ceil(1000 / rps) ms) */
  function WaitMs(rps: nat): nat
    requires rps >= 1
  {
    Max(50, (1000 + rps - 1) / rps)
  }

  lemma WaitPaysOne(rps: nat, ms: nat)
    requires rps >= 1 && ms >= WaitMs(rps)
    ensures ms >= 50 && ms * rps / 1000 >= 1
  {
    var w := (1000 + rps - 1) / rps;
    assert w * rps >= 1000;
    MulMono(w, ms, rps);
  }

  /** Without wrap-around, a call that long after the mark succeeds. */
  lemma WaitSuffices(b: Bucket, now: nat)
    requires WellFormed(b) && Fits(b, Elapsed(b, now))
    requires Elapsed(b, now) >= WaitMs(b.rps) * NANOS_PER_MS
    ensures Allowed(b, now)
  {
    hide Credit, WaitMs;
    var elapsed := Elapsed(b, now);
    CreditExact(b, elapsed);
    assert elapsed / NANOS_PER_MS >= WaitMs(b.rps);
    WaitPaysOne(b.rps, elapsed / NANOS_PER_MS);
    AllowedByCredit(b, now);
    Modest(b.tokens + Credit(b, elapsed), U32);
  }

  /** With wrap-around it may not: after 2^32 ms an empty bucket of 1000 per second denies. */
  lemma LongIdleDenied()
    ensures var b := Bucket(1000, 1, 0, 0);
            var now := U32 * NANOS_PER_MS;
            WellFormed(b) && Elapsed(b, now) >= WaitMs(b.rps) * NANOS_PER_MS && !Allowed(b, now)
  {
  }

  /** A denied call without wrap-around leaves the bucket as it was, mark included. */
  lemma DeniedUnchanged(b: Bucket, now: nat)
    requires WellFormed(b) && Fits(b, Elapsed(b, now)) && !Allowed(b, now)
    ensures Allow(b, now) == b
  {
    hide Credit;
    var elapsed := Elapsed(b, now);
    CreditExact(b, elapsed);
    Modest(b.tokens + Credit(b, elapsed), U32);
  }

  // ---- runs ----

  function AllowAll(b: Bucket, times: seq<nat>): Bucket
    decreases |times|
  {
    if |times| == 0 then b else AllowAll(Allow(b, times[0]), times[1..])
  }

  function Admissions(b: Bucket, times: seq<nat>): nat
    decreases |times|
  {
    if |times| == 0 then 0
    else (if Allowed(b, times[0]) then 1 else 0) + Admissions(Allow(b, times[0]), times[1..])
  }

  predicate UpTo(times: seq<nat>, end: nat) {
    forall i :: 0 <= i < |times| ==> times[i] <= end
  }

  lemma {:induction false} RunPays(b: Bucket, times: seq<nat>, end: nat)
    requires WellFormed(b) && b.last <= end && UpTo(times, end)
    ensures var f := AllowAll(b, times);
            && WellFormed(f) && f.rps == b.rps && f.capacity == b.capacity && b.last <= f.last <= end
            && NANOS_PER_SEC * (Admissions(b, times) + f.tokens) <= NANOS_PER_SEC * b.tokens + (f.last - b.last) * b.rps
    decreases |times|
  {
    hide Allow, Allowed;
    if |times| != 0 {
      var b1 := Allow(b, times[0]);
      AllowWellFormed(b, times[0]);
      AllowPays(b, times[0]);
      RunPays(b1, times[1..], end);
      var f := AllowAll(b1, times[1..]);
      assert (f.last - b.last) * b.rps == (f.last - b1.last) * b.rps + (b1.last - b.last) * b.rps;
    }
  }

  /** Since creation, N admissions by time `end` satisfy N <= capacity + rps * T. */
  lemma RateSinceCreation(rps: nat, burst: nat, start: nat, times: seq<nat>, end: nat)
    requires rps < U32 && burst < U32 && start <= end && UpTo(times, end)
    ensures NANOS_PER_SEC * Admissions(New(rps, burst, start), times)
         <= NANOS_PER_SEC * Max(burst, 1) + (end - start) * Max(rps, 1)
  {
    hide AllowAll, Admissions;
    var b := New(rps, burst, start);
    RunPays(b, times, end);
    MulMono(AllowAll(b, times).last - start, end - start, b.rps);
  }

  /** What a lagging clock mark can add: less than the wait that is sure to move it. */
  function Slack(rps: nat): nat
    requires rps >= 1
  {
    WaitMs(rps) * NANOS_PER_MS * rps
  }

  lemma LagBelowSlack(elapsed: nat, rps: nat)
    requires rps >= 1
    requires elapsed < QUANTUM || elapsed / NANOS_PER_MS * rps / 1000 == 0
    ensures elapsed * rps < Slack(rps)
  {
    var wait := WaitMs(rps);
    if elapsed >= wait * NANOS_PER_MS {
      hide WaitMs;
      assert elapsed / NANOS_PER_MS >= wait;
      WaitPaysOne(rps, elapsed / NANOS_PER_MS);
      assert false;
    }
    MulMono(elapsed + 1, wait * NANOS_PER_MS, rps);
  }

  /** The slack is sharp: the mark of a bucket still lags one nanosecond before that wait. */
  lemma LagAttained(b: Bucket)
    requires WellFormed(b)
    ensures Refill(b, b.last + WaitMs(b.rps) * NANOS_PER_MS - 1) == b
  {
    var elapsed := WaitMs(b.rps) * NANOS_PER_MS - 1;
    var ms := WaitMs(b.rps) - 1;
    assert elapsed / NANOS_PER_MS == ms;
    if elapsed >= QUANTUM {
      assert ms * b.rps < 1000 by { CeilShort(b.rps); }
      Modest(ms, U64);
      Modest(ms * b.rps, U64);
    }
  }

  lemma CeilShort(rps: nat)
    requires rps >= 1
    ensures ((1000 + rps - 1) / rps - 1) * rps < 1000
  {
    var w := (1000 + rps - 1) / rps;
    assert w * rps <= 1000 + rps - 1;
  }

  /** After the refill of a call, the mark lags by less than the slack. */
  lemma MarkLag(b: Bucket, now: nat)
    requires WellFormed(b) && b.last <= now && Fits(b, now - b.last)
    ensures (now - Refill(b, now).last) * b.rps < Slack(b.rps)
  {
    hide Credit, Slack;
    CreditExact(b, now - b.last);
    LagBelowSlack(0, b.rps);
    if Refill(b, now).last == b.last { LagBelowSlack(now - b.last, b.rps); }
  }

  lemma Distributes(a: nat, b: nat, k: nat)
    ensures (a + b) * k == a * k + b * k
  {
  }

  /** The first call of a window takes its token, if any, from the refilled bucket. */
  lemma FirstCall(b: Bucket, start: nat)
    requires WellFormed(b)
    ensures Allow(b, start).last == Refill(b, start).last
    ensures (if Allowed(b, start) then 1 else 0) + Allow(b, start).tokens <= b.capacity
  {
    AllowWellFormed(b, start);
  }

  /** Over any window that starts at a call, N < capacity + rps * T + slack. */
  lemma RateInWindow(b: Bucket, start: nat, times: seq<nat>, end: nat)
    requires WellFormed(b) && b.last <= start <= end && Fits(b, start - b.last)
    requires UpTo(times, end)
    ensures NANOS_PER_SEC * Admissions(b, [start] + times)
          < NANOS_PER_SEC * b.capacity + (end - start) * b.rps + Slack(b.rps)
  {
    hide Slack, Refill, Allow, Allowed, AllowAll;
    var r := Refill(b, start);
    MarkLag(b, start);
    FirstCall(b, start);
    AllowWellFormed(b, start);
    var b1 := Allow(b, start);
    RunPays(b1, times, end);
    AdmissionsSplit(b, start, times);
    var f := AllowAll(b1, times);
    Distributes(end - start, start - r.last, b.rps);
    MulMono(f.last - r.last, (end - start) + (start - r.last), b.rps);
  }

  lemma AdmissionsSplit(b: Bucket, start: nat, times: seq<nat>)
    ensures Admissions(b, [start] + times) == (if Allowed(b, start) then 1 else 0) + Admissions(Allow(b, start), times)
  {
    hide Allow, Allowed;
    assert ([start] + times)[1..] == times;
  }

  /** Denied polling, however dense, never postpones the next token. */
  lemma {:induction false} PollingNeverStarves(b: Bucket, polls: seq<nat>, now: nat)
    requires WellFormed(b) && b.last <= now && UpTo(polls, now) && Fits(b, now - b.last)
    requires Admissions(b, polls) == 0
    requires now - b.last >= WaitMs(b.rps) * NANOS_PER_MS
    ensures AllowAll(b, polls) == b && Allowed(AllowAll(b, polls), now)
    decreases |polls|
  {
    hide WaitMs;
    if |polls| == 0 {
      WaitSuffices(b, now);
    } else {
      FitsEarlier(b, Elapsed(b, polls[0]), now - b.last);
      DeniedUnchanged(b, polls[0]);
      hide Allowed, Allow;
      PollingNeverStarves(b, polls[1..], now);
    }
  }

  lemma FitsEarlier(b: Bucket, e: nat, later: nat)
    requires e <= later && Fits(b, later)
    ensures Fits(b, e)
  {
    MulMono(e / NANOS_PER_MS, later / NANOS_PER_MS, b.rps);
  }

  // ---- what is served ----

  /** What a refill leaves when the sum fits 32 bits: nothing happens in less than 50 ms or
      before a token is earned; after that everything earned is added, up to the capacity. */
  lemma RefillExact(b: Bucket, now: nat)
    requires WellFormed(b) && b.last <= now && Fits(b, now - b.last)
    ensures var ms := (now - b.last) / 1_000_000;
            var sum := b.tokens + ms * b.rps / 1000;
            var due := now - b.last >= 50_000_000 && ms * b.rps >= 1000;
            Refill(b, now) == Bucket(b.rps, b.capacity,
                                     if due then (if sum <= b.capacity then sum else b.capacity) else b.tokens,
                                     if due then now else b.last)
  {
    hide Credit;
    var elapsed := now - b.last;
    CreditExact(b, elapsed);
    Modest(b.tokens + Credit(b, elapsed), U32);
    assert Earned(b, elapsed) == elapsed / 1_000_000 * b.rps / 1000;
  }

  /** Within one quantum of the mark calls are served from the tokens held, and from nothing
      else, whatever the range. */
  lemma {:induction false} QuantumExact(b: Bucket, times: seq<nat>)
    requires WellFormed(b) && forall i :: 0 <= i < |times| ==> times[i] < b.last + 50_000_000
    ensures Admissions(b, times) == Min(|times|, b.tokens)
    decreases |times|
  {
    if |times| != 0 {
      assert Refill(b, times[0]) == b;
      QuantumExact(Allow(b, times[0]), times[1..]);
    }
  }

  /** A new bucket serves its whole burst at once. */
  lemma NewServesBurst(rps: nat, burst: nat, start: nat, times: seq<nat>)
    requires rps < U32 && burst < U32
    requires forall i :: 0 <= i < |times| ==> times[i] < start + 50_000_000
    ensures Admissions(New(rps, burst, start), times) == Min(|times|, Max(burst, 1))
  {
    QuantumExact(New(rps, burst, start), times);
  }

  /** One call in range takes at most one token. */
  lemma AllowKeeps(b: Bucket, now: nat)
    requires WellFormed(b) && Fits(b, Elapsed(b, now))
    ensures Allowed(b, now) <== b.tokens > 0
    ensures Allow(b, now).tokens + 1 >= b.tokens
    ensures WellFormed(Allow(b, now)) && b.last <= Allow(b, now).last
  {
    hide Credit;
    var elapsed := Elapsed(b, now);
    CreditExact(b, elapsed);
    Modest(b.tokens + Credit(b, elapsed), U32);
  }

  /** In range, a bucket with n tokens serves at least the next n calls, whenever they come. */
  lemma {:induction false} TokensServed(b: Bucket, times: seq<nat>, end: nat)
    requires WellFormed(b) && b.last <= end && UpTo(times, end) && Fits(b, end - b.last)
    ensures Admissions(b, times) >= Min(|times|, b.tokens)
    decreases |times|
  {
    if |times| != 0 {
      FitsEarlier(b, Elapsed(b, times[0]), end - b.last);
      AllowKeeps(b, times[0]);
      AllowWellFormed(b, times[0]);
      var b1 := Allow(b, times[0]);
      FitsEarlier(b1, end - b1.last, end - b.last);
      hide Allow, Allowed;
      TokensServed(b1, times[1..], end);
    }
  }

  /** After a pause that earns the capacity, as many calls in a row as the capacity pass. */
  lemma PauseServesCapacity(b: Bucket, now: nat, times: seq<nat>)
    requires WellFormed(b) && b.last <= now && Fits(b, now - b.last)
    requires now - b.last >= 50_000_000 && (now - b.last) / 1_000_000 * b.rps >= 1000 * b.capacity
    requires forall i :: 0 <= i < |times| ==> times[i] < now + 50_000_000
    ensures Admissions(b, [now] + times) == Min(1 + |times|, b.capacity)
  {
    RefillExact(b, now);
    hide Refill;
    AllowWellFormed(b, now);
    QuantumExact(Allow(b, now), times);
    AdmissionsSplit(b, now, times);
  }
}

/** The handshake defender: a global and a per-address leaky bucket with Retry-After, and
    eviction of addresses. Tokens and seconds are reals. */
module Handshake {
  // ---- one bucket ----

  datatype Leaky = Leaky(capacity: nat, tokens: real, rate: real, last: real)

  /** `Err` carries the Retry-After seconds. */
  datatype Verdict = Ok | Err(retryAfter: nat)

  function AtLeastOne(n: nat): nat {
    if n > 1 then n else 1
  }

  function MinReal(a: real, b: real): real {
    if a <= b then a else b
  }

  function New(capacity: nat, refillPerSec: nat, now: real): Leaky {
    Leaky(AtLeastOne(capacity), AtLeastOne(capacity) as real, AtLeastOne(refillPerSec) as real, now)
  }

  predicate WellFormed(b: Leaky) {
    b.capacity >= 1 && 0.0 <= b.tokens <= b.capacity as real && b.rate >= 1.0
  }

  function Refill(b: Leaky, now: real): Leaky {
    var elapsed := if now < b.last then 0.0 else now - b.last;
    b.(tokens := MinReal(b.tokens + elapsed * b.rate, b.capacity as real), last := now)
  }

  function Ceil(x: real): int {
    if x.Floor as real == x then x.Floor else x.Floor + 1
  }

  function Wait(missing: real, rate: real): nat
    requires rate > 0.0
  {
    var wait := Ceil(missing / rate);
    if wait > 1 then wait else 1
  }

  function Take(b: Leaky, now: real, cost: nat): (Leaky, Verdict)
    requires b.rate > 0.0
  {
    var r := Refill(b, now);
    var c := AtLeastOne(cost) as real;
    if r.tokens >= c then (r.(tokens := r.tokens - c), Ok)
    else (r, Err(Wait(c - r.tokens, r.rate)))
  }

  class LeakyBucket {
    const capacity: nat
    const rate: real
    var tokens: real
    var last: real

    function View(): Leaky
      reads this
    {
      Leaky(capacity, tokens, rate, last)
    }

    constructor (capacity: nat, refillPerSec: nat, now: real)
      ensures View() == New(capacity, refillPerSec, now)
    {
      var cap := if capacity > 1 then capacity else 1;
      this.capacity := cap;
      this.tokens := cap as real;
      this.rate := if refillPerSec > 1 then refillPerSec as real else 1.0;
      this.last := now;
    }

    method RefillAt(now: real)
      modifies this
      ensures View() == Refill(old(View()), now)
    {
      var elapsed := if now < last then 0.0 else now - last;
      last := now;
      var filled := tokens + elapsed * rate;
      tokens := if filled <= capacity as real then filled else capacity as real;
    }

    method TryTake(now: real, cost: nat) returns (verdict: Verdict)
      requires rate > 0.0
      modifies this
      ensures (View(), verdict) == Take(old(View()), now, cost)
    {
      RefillAt(now);
      var c := if cost > 1 then cost as real else 1.0;
      if tokens >= c {
        tokens := tokens - c;
        return Ok;
      }
      var wait := Ceil((c - tokens) / rate);
      return Err(if wait > 1 then wait else 1);
    }
  }

  // ---- refilling and Retry-After ----

  lemma MulMono(a: real, b: real, k: real)
    requires a <= b && k >= 0.0
    ensures a * k <= b * k
  {
  }

  /** Refilling in pieces is refilling once. */
  lemma RefillSplits(b: Leaky, mid: real, now: real)
    requires WellFormed(b) && b.last <= mid <= now
    ensures Refill(Refill(b, mid), now) == Refill(b, now)
  {
    var x, y := (mid - b.last) * b.rate, (now - mid) * b.rate;
    NonNegative(mid - b.last, b.rate);
    NonNegative(now - mid, b.rate);
    assert (now - b.last) * b.rate == x + y;
  }

  lemma CeilBounds(x: real)
    ensures Ceil(x) as real >= x && Ceil(x) as real - 1.0 < x
  {
  }

  lemma MulLess(a: real, b: real, k: real)
    requires a < b && k > 0.0
    ensures a * k < b * k
  {
  }

  lemma NonNegative(a: real, k: real)
    requires a >= 0.0 && k >= 0.0
    ensures a * k >= 0.0
  {
  }

  lemma SecondsCover(need: real, rate: real, seconds: nat)
    requires rate > 0.0 && need > 0.0 && seconds >= 1
    ensures seconds as real * rate >= need * rate <==> seconds >= (if Ceil(need) > 1 then Ceil(need) else 1)
  {
    CeilBounds(need);
    if seconds as real >= need {
      MulMono(need, seconds as real, rate);
    } else {
      MulLess(seconds as real, need, rate);
    }
  }

  /** The wait is the least positive whole number of seconds that covers what is missing. */
  lemma WaitIsLeast(missing: real, rate: real, seconds: nat)
    requires rate > 0.0 && missing > 0.0 && seconds >= 1
    ensures seconds as real * rate >= missing <==> seconds >= Wait(missing, rate)
  {
    hide Ceil;
    var need := missing / rate;
    assert need * rate == missing;
    SecondsCover(need, rate, seconds);
  }

  /** When a take is refused with `w`, then with no take in between the same take succeeds
      after s >= 1 whole seconds exactly if s >= w and the cost fits the capacity at all. */
  lemma RetryAfterExact(b: Leaky, now: real, cost: nat, seconds: nat)
    requires WellFormed(b) && Take(b, now, cost).1.Err? && seconds >= 1
    ensures var (refused, verdict) := Take(b, now, cost);
            var later := Take(refused, now + seconds as real, cost).1;
            later.Ok? <==> seconds >= verdict.retryAfter && AtLeastOne(cost) <= b.capacity
  {
    hide Wait, Refill, AtLeastOne;
    var r := Refill(b, now);
    var c := AtLeastOne(cost);
    RefillMark(b, now);
    RefillLater(r, now, seconds as real);
    WaitIsLeast(c as real - r.tokens, r.rate, seconds);
  }

  lemma RefillMark(b: Leaky, now: real)
    ensures Refill(b, now).last == now && Refill(b, now).capacity == b.capacity && Refill(b, now).rate == b.rate
  {
  }

  lemma RefillLater(r: Leaky, now: real, seconds: real)
    requires r.last == now && seconds >= 0.0
    ensures Refill(r, now + seconds).tokens == MinReal(r.tokens + seconds * r.rate, r.capacity as real)
  {
    assert now + seconds - r.last == seconds;
  }

  // ---- levels ----

  /** The tokens a refill at `t` would leave. */
  function Level(b: Leaky, t: real): real {
    Refill(b, t).tokens
  }

  /** Between takes the level rises at most at the refill rate. */
  lemma LevelRises(b: Leaky, s: real, t: real, rate: real)
    requires WellFormed(b) && b.last <= s <= t && b.rate == rate
    ensures 0.0 <= Level(b, t) <= Level(b, s) + (t - s) * rate
    ensures Level(b, s) <= b.capacity as real
  {
    RefillSplits(b, s, t);
    NonNegative(t - s, b.rate);
    NonNegative(s - b.last, b.rate);
  }

  /** A take of one lowers the level by one exactly when it succeeds. */
  lemma TakeLevel(b: Leaky, t: real)
    requires WellFormed(b) && b.last <= t
    ensures var (next, verdict) := Take(b, t, 1);
            && WellFormed(next) && next.capacity == b.capacity && next.rate == b.rate && next.last == t
            && Level(next, t) == Level(b, t) - if verdict.Ok? then 1.0 else 0.0
  {
    NonNegative(t - b.last, b.rate);
  }

  /** A take costs exactly its cost, or nothing. */
  lemma TakeExact(b: Leaky, t: real, cost: nat)
    requires WellFormed(b) && b.last <= t && cost >= 1
    ensures var (next, verdict) := Take(b, t, cost);
            && (verdict.Ok? <==> Level(b, t) >= cost as real)
            && Level(next, t) == Level(b, t) - if verdict.Ok? then cost as real else 0.0
  {
    NonNegative(t - b.last, b.rate);
  }

  // ---- the defender ----

  datatype Config = Config(
    enabled: bool,
    globalBurst: nat,
    globalRps: nat,
    perIpBurst: nat,
    perIpRps: nat,
    maxIpEntries: nat)

  type Ip = nat

  datatype State = State(global: Leaky, perIp: map<Ip, Leaky>)

  function Init(cfg: Config, now: real): State {
    State(New(cfg.globalBurst, cfg.globalRps, now), map[])
  }

  function Entry(cfg: Config, st: State, ip: Ip, now: real): Leaky {
    if ip in st.perIp then st.perIp[ip] else New(cfg.perIpBurst, cfg.perIpRps, now)
  }

  ghost predicate StateOk(cfg: Config, st: State, now: real) {
    && WellFormed(st.global) && st.global.last <= now
    && st.global.capacity == AtLeastOne(cfg.globalBurst) && st.global.rate == AtLeastOne(cfg.globalRps) as real
    && forall ip :: ip in st.perIp ==>
         && WellFormed(st.perIp[ip]) && st.perIp[ip].last <= now
         && st.perIp[ip].capacity == AtLeastOne(cfg.perIpBurst) && st.perIp[ip].rate == AtLeastOne(cfg.perIpRps) as real
  }

  /** `victims` are the entries that the clock-seeded trimming would pick, possibly none. */
  datatype Attempt = Attempt(ip: Ip, now: real, victims: set<Ip>)

  predicate Rates(st: State) {
    st.global.rate > 0.0 && forall ip :: ip in st.perIp ==> st.perIp[ip].rate > 0.0
  }

  function Check(cfg: Config, st: State, a: Attempt): (State, Verdict)
    requires Rates(st)
  {
    if !cfg.enabled then (st, Ok)
    else
      var (global, gv) := Take(st.global, a.now, 1);
      if gv.Err? then (st.(global := global), gv)
      else
        var (bucket, v) := Take(Entry(cfg, st, a.ip, a.now), a.now, 1);
        var perIp := st.perIp[a.ip := bucket];
        if v.Err? then (State(global, perIp), v)
        else (State(global, if |perIp| > cfg.maxIpEntries then perIp - a.victims else perIp), Ok)
  }

  /** The map owns the per-address buckets. */
  class HandshakeDefender {
    const cfg: Config
    const global: LeakyBucket
    var perIp: map<Ip, Leaky>

    function View(): State
      reads this, global
    {
      State(global.View(), perIp)
    }

    constructor (cfg: Config, now: real)
      ensures View() == Init(cfg, now) && this.cfg == cfg
      ensures fresh(global)
    {
      this.cfg := cfg;
      this.global := new LeakyBucket(cfg.globalBurst, cfg.globalRps, now);
      this.perIp := map[];
    }

    method CheckAt(ip: Ip, now: real, victims: set<Ip>) returns (verdict: Verdict)
      requires Rates(View())
      modifies this, global
      ensures (View(), verdict) == Check(cfg, old(View()), Attempt(ip, now, victims))
    {
      hide Refill, Wait;
      if !cfg.enabled { return Ok; }
      verdict := global.TryTake(now, 1);
      if verdict.Err? { return; }
      if ip !in perIp { perIp := perIp[ip := New(cfg.perIpBurst, cfg.perIpRps, now)]; }
      var (bucket, v) := Take(perIp[ip], now, 1);
      verdict := v;
      perIp := perIp[ip := bucket];
      assert perIp == old(perIp)[ip := bucket];
      if verdict.Ok? && |perIp| > cfg.maxIpEntries {
        perIp := perIp - victims;
      }
    }
  }

  /** An attempt is admitted exactly when both levels hold a token. A global refusal leaves
      the addresses alone and takes no token; a refusal for the address has still cost a
      global token. */
  lemma AdmittedIff(cfg: Config, st: State, a: Attempt)
    requires cfg.enabled && Rates(st) && WellFormed(st.global) && st.global.last <= a.now
    ensures var (next, v) := Check(cfg, st, a);
            var held := Level(st.global, a.now) >= 1.0;
            && (v.Ok? <==> held && Level(Entry(cfg, st, a.ip, a.now), a.now) >= 1.0)
            && (!held ==> next.perIp == st.perIp)
            && Level(next.global, a.now) == Level(st.global, a.now) - if held then 1.0 else 0.0
  {
    TakeLevel(st.global, a.now);
    hide WellFormed, Entry, Wait, Refill;
  }

  lemma LeastWait(missing: real, rate: real)
    requires 0.0 < missing <= 1.0 && rate >= 1.0
    ensures Wait(missing, rate) == 1
  {
    hide Ceil;
    WaitIsLeast(missing, rate, 1);
  }

  /** A take of one that is refused asks for one second. */
  lemma RefusedForOne(b: Leaky, t: real)
    requires WellFormed(b) && b.last <= t && Take(b, t, 1).1.Err?
    ensures Take(b, t, 1).1.retryAfter == 1
  {
    TakeLevel(b, t);
    LevelRises(b, t, t, b.rate);
    hide Refill, Wait;
    LeastWait(1.0 - Refill(b, t).tokens, b.rate);
  }

  /** One second is enough for a token, at the least rate and capacity. */
  lemma SecondEarnsOne(b: Leaky, t: real)
    requires WellFormed(b) && b.last <= t
    ensures Level(b, t + 1.0) >= 1.0
  {
    NonNegative(t - b.last, b.rate);
    Distributes(t - b.last, 1.0, b.rate);
    assert t + 1.0 - b.last == (t - b.last) + 1.0;
  }

  /** Whichever level refuses an attempt, the answer is one second, and with no check in between
      the same address is admitted one second later. */
  lemma RefusalLastsOneSecond(cfg: Config, st: State, a: Attempt, victims: set<Ip>)
    requires StateOk(cfg, st, a.now) && Rates(st) && Check(cfg, st, a).1.Err?
    ensures var (next, refusal) := Check(cfg, st, a);
            && refusal.retryAfter == 1
            && Rates(next) && Check(cfg, next, Attempt(a.ip, a.now + 1.0, victims)).1.Ok?
  {
    var (next, _) := Check(cfg, st, a);
    var later := Attempt(a.ip, a.now + 1.0, victims);
    FreshLevel(cfg, a.now);
    FreshLevel(cfg, later.now);
    if Take(st.global, a.now, 1).1.Err? {
      RefusedForOne(st.global, a.now);
    } else {
      RefusedForOne(Entry(cfg, st, a.ip, a.now), a.now);
    }
    CheckOk(cfg, st, a, a.now);
    OkRates(cfg, next, a.now);
    hide Take, Check, Level, New, AtLeastOne;
    SecondEarnsOne(next.global, a.now);
    if a.ip in next.perIp { SecondEarnsOne(next.perIp[a.ip], a.now); }
    AdmittedIff(cfg, next, later);
  }

  // ---- admission bounds ----

  predicate Timely(attempts: seq<Attempt>, start: real, end: real) {
    if |attempts| == 0 then start <= end
    else start <= attempts[0].now && Timely(attempts[1..], attempts[0].now, end)
  }

  lemma {:induction false} TimelyEnds(attempts: seq<Attempt>, start: real, end: real)
    requires Timely(attempts, start, end)
    ensures start <= end
  {
    if |attempts| != 0 { TimelyEnds(attempts[1..], attempts[0].now, end); }
  }

  /** Checks keep every bucket well formed and at its configured burst and rate. */
  lemma CheckOk(cfg: Config, st: State, a: Attempt, now: real)
    requires StateOk(cfg, st, now) && now <= a.now
    ensures Rates(st) && StateOk(cfg, Check(cfg, st, a).0, a.now)
  {
    TakeLevel(st.global, a.now);
    FreshLevel(cfg, a.now);
    TakeLevel(Entry(cfg, st, a.ip, a.now), a.now);
    hide Take, Level, WellFormed, New, AtLeastOne;
  }

  ghost function Admitted(cfg: Config, st: State, attempts: seq<Attempt>): nat
    requires Rates(st)
    decreases |attempts|
  {
    if |attempts| == 0 then 0
    else
      var (next, v) := Check(cfg, st, attempts[0]);
      var ok := if v.Ok? then 1 else 0;
      ok + if Rates(next) then Admitted(cfg, next, attempts[1..]) else 0
  }

  /** Admissions of one address. */
  ghost function AdmittedOf(cfg: Config, st: State, attempts: seq<Attempt>, ip: Ip): nat
    requires Rates(st)
    decreases |attempts|
  {
    if |attempts| == 0 then 0
    else
      var (next, v) := Check(cfg, st, attempts[0]);
      var ok := if v.Ok? && attempts[0].ip == ip then 1 else 0;
      ok + if Rates(next) then AdmittedOf(cfg, next, attempts[1..], ip) else 0
  }

  predicate Evicts(cfg: Config, st: State, a: Attempt, ip: Ip)
    requires Rates(st)
  {
    (ip in st.perIp || ip == a.ip) && cfg.enabled && Check(cfg, st, a).1.Ok? && ip !in Check(cfg, st, a).0.perIp
  }

  /** How often the trimming removes the address's entry. */
  ghost function Evictions(cfg: Config, st: State, attempts: seq<Attempt>, ip: Ip): nat
    requires Rates(st)
    decreases |attempts|
  {
    if |attempts| == 0 then 0
    else
      var next := Check(cfg, st, attempts[0]).0;
      var out := if Evicts(cfg, st, attempts[0], ip) then 1 else 0;
      out + if Rates(next) then Evictions(cfg, next, attempts[1..], ip) else 0
  }

  lemma OkRates(cfg: Config, st: State, now: real)
    requires StateOk(cfg, st, now)
    ensures Rates(st)
  {
  }

  lemma GlobalGain(cfg: Config, st: State, a: Attempt)
    requires cfg.enabled && Rates(st) && WellFormed(st.global) && st.global.last <= a.now
    ensures var (next, v) := Check(cfg, st, a);
            Level(next.global, a.now) + (if v.Ok? then 1.0 else 0.0) <= Level(st.global, a.now)
  {
    TakeLevel(st.global, a.now);
    hide Level, WellFormed, AtLeastOne, Take, Entry;
  }

  lemma GlobalStep(cfg: Config, st: State, a: Attempt, start: real)
    requires cfg.enabled && StateOk(cfg, st, start) && start <= a.now && Rates(st)
    ensures var (next, v) := Check(cfg, st, a);
            Level(next.global, a.now) + (if v.Ok? then 1.0 else 0.0)
              <= Level(st.global, start) + (a.now - start) * AtLeastOne(cfg.globalRps) as real
  {
    hide Level, WellFormed, AtLeastOne, Check;
    LevelRises(st.global, start, a.now, AtLeastOne(cfg.globalRps) as real);
    GlobalGain(cfg, st, a);
  }

  lemma {:induction false} GlobalPays(cfg: Config, st: State, attempts: seq<Attempt>, start: real, end: real)
    requires cfg.enabled && StateOk(cfg, st, start) && Timely(attempts, start, end)
    ensures Rates(st)
    ensures Admitted(cfg, st, attempts) as real
         <= Level(st.global, start) + (end - start) * AtLeastOne(cfg.globalRps) as real
    decreases |attempts|
  {
    hide Check, Level, WellFormed, AtLeastOne, Admitted, Rates;
    OkRates(cfg, st, start);
    LevelRises(st.global, start, start, st.global.rate);
    AdmittedUnfolds(cfg, st, attempts);
    TimelyEnds(attempts, start, end);
    var k := AtLeastOne(cfg.globalRps) as real;
    if |attempts| == 0 {
      NonNegative(end - start, k);
    } else {
      var a := attempts[0];
      CheckOk(cfg, st, a, start);
      GlobalStep(cfg, st, a, start);
      var (next, v) := Check(cfg, st, a);
      OkRates(cfg, next, a.now);
      GlobalPays(cfg, next, attempts[1..], a.now, end);
      Chain(Admitted(cfg, next, attempts[1..]), if v.Ok? then 1 else 0,
            Level(next.global, a.now), Level(st.global, start), start, a.now, end, k, 0, 0, 0.0);
    }
  }

  lemma Distributes(a: real, b: real, k: real)
    ensures (a + b) * k == a * k + b * k
  {
  }

  lemma AdmittedUnfolds(cfg: Config, st: State, attempts: seq<Attempt>)
    requires Rates(st)
    ensures |attempts| == 0 ==> Admitted(cfg, st, attempts) == 0
    ensures |attempts| != 0 && Rates(Check(cfg, st, attempts[0]).0) ==>
      var (next, v) := Check(cfg, st, attempts[0]);
      Admitted(cfg, st, attempts) == (if v.Ok? then 1 else 0) + Admitted(cfg, next, attempts[1..])
  {
    hide Check, Rates;
  }

  lemma GlobalWindow(cfg: Config, st: State, attempts: seq<Attempt>, start: real, end: real)
    requires cfg.enabled && StateOk(cfg, st, start) && Timely(attempts, start, end)
    ensures Rates(st)
    ensures Admitted(cfg, st, attempts) as real
         <= AtLeastOne(cfg.globalBurst) as real + (end - start) * AtLeastOne(cfg.globalRps) as real
  {
    hide Admitted, Timely;
    GlobalPays(cfg, st, attempts, start, end);
    LevelRises(st.global, start, start, st.global.rate);
  }

  /** An absent address counts as a full bucket. */
  function LevelOf(cfg: Config, st: State, ip: Ip, t: real): real {
    if ip in st.perIp then Level(st.perIp[ip], t) else AtLeastOne(cfg.perIpBurst) as real
  }

  lemma FreshLevel(cfg: Config, now: real)
    ensures var e := New(cfg.perIpBurst, cfg.perIpRps, now);
            && WellFormed(e) && e.last == now && e.rate == AtLeastOne(cfg.perIpRps) as real
            && e.capacity == AtLeastOne(cfg.perIpBurst) && Level(e, now) == e.capacity as real
  {
  }

  lemma EntryLevel(cfg: Config, st: State, ip: Ip, start: real, now: real)
    requires StateOk(cfg, st, start) && start <= now
    ensures var e := Entry(cfg, st, ip, now);
            && WellFormed(e) && e.last <= now && e.rate == AtLeastOne(cfg.perIpRps) as real
            && 0.0 <= Level(e, now) <= LevelOf(cfg, st, ip, start) + (now - start) * AtLeastOne(cfg.perIpRps) as real
            && LevelOf(cfg, st, ip, start) <= AtLeastOne(cfg.perIpBurst) as real
            && LevelOf(cfg, st, ip, now) == Level(e, now)
  {
    NonNegative(now - start, AtLeastOne(cfg.perIpRps) as real);
    FreshLevel(cfg, now);
    hide Level, WellFormed, New;
    if ip in st.perIp { LevelRises(st.perIp[ip], start, now, AtLeastOne(cfg.perIpRps) as real); }
  }

  /** A check leaves an address, its admission included, at most at `base`, or one burst
      higher when its entry is evicted. */
  ghost predicate IpGain(cfg: Config, st: State, a: Attempt, ip: Ip, base: real)
    requires Rates(st)
  {
    var (next, v) := Check(cfg, st, a);
    var ok := if v.Ok? && a.ip == ip then 1.0 else 0.0;
    var refund := if Evicts(cfg, st, a, ip) then AtLeastOne(cfg.perIpBurst) as real else 0.0;
    LevelOf(cfg, next, ip, a.now) + ok <= base + refund
  }

  lemma IpGainOther(cfg: Config, st: State, a: Attempt, ip: Ip, base: real)
    requires cfg.enabled && a.ip != ip && Rates(st)
    requires 0.0 <= LevelOf(cfg, st, ip, a.now) <= base
    ensures IpGain(cfg, st, a, ip, base)
  {
    hide Level, Take, AtLeastOne, Entry;
  }

  lemma IpGainOwn(cfg: Config, st: State, a: Attempt, base: real)
    requires cfg.enabled && Rates(st)
    requires var entry := Entry(cfg, st, a.ip, a.now);
             WellFormed(entry) && entry.last <= a.now && Level(entry, a.now) <= base
    requires LevelOf(cfg, st, a.ip, a.now) <= base
    ensures IpGain(cfg, st, a, a.ip, base)
  {
    var entry := Entry(cfg, st, a.ip, a.now);
    TakeLevel(entry, a.now);
    LevelRises(Take(entry, a.now, 1).0, a.now, a.now, entry.rate);
    hide Level, WellFormed, Take, New, AtLeastOne, Entry;
  }

  lemma IpStep(cfg: Config, st: State, a: Attempt, ip: Ip, start: real)
    requires cfg.enabled && StateOk(cfg, st, start) && start <= a.now && Rates(st)
    ensures IpGain(cfg, st, a, ip, LevelOf(cfg, st, ip, start) + (a.now - start) * AtLeastOne(cfg.perIpRps) as real)
  {
    hide Check, IpGain, WellFormed, AtLeastOne, Level;
    var rise := (a.now - start) * AtLeastOne(cfg.perIpRps) as real;
    EntryLevel(cfg, st, ip, start, a.now);
    NonNegative(a.now - start, AtLeastOne(cfg.perIpRps) as real);
    if a.ip == ip {
      IpGainOwn(cfg, st, a, LevelOf(cfg, st, ip, start) + rise);
    } else {
      IpGainOther(cfg, st, a, ip, LevelOf(cfg, st, ip, start) + rise);
    }
  }

  /** Adding one step's account to the rest of the window. */
  lemma Chain(rest: nat, ok: nat, level: real, before: real, start: real, mid: real, end: real, k: real,
              evicted: nat, out: nat, burst: real)
    requires rest as real <= level + (end - mid) * k + evicted as real * burst
    requires out <= 1 && level + ok as real <= before + (mid - start) * k + (if out == 1 then burst else 0.0)
    ensures (ok + rest) as real <= before + (end - start) * k + (out + evicted) as real * burst
  {
    Distributes(end - mid, mid - start, k);
    Distributes(evicted as real, out as real, burst);
  }

  lemma {:induction false} IpPays(cfg: Config, st: State, attempts: seq<Attempt>, ip: Ip, start: real, end: real)
    requires cfg.enabled && StateOk(cfg, st, start) && Timely(attempts, start, end)
    ensures Rates(st)
    ensures AdmittedOf(cfg, st, attempts, ip) as real
         <= LevelOf(cfg, st, ip, start) + (end - start) * AtLeastOne(cfg.perIpRps) as real
          + Evictions(cfg, st, attempts, ip) as real * AtLeastOne(cfg.perIpBurst) as real
    decreases |attempts|
  {
    hide Check, LevelOf, WellFormed, Evicts, StateOk, AtLeastOne, Rates, AdmittedOf, Evictions;
    TimelyEnds(attempts, start, end);
    EntryLevelOnly(cfg, st, ip, start);
    CountsUnfold(cfg, st, attempts, ip);
    var k, burst := AtLeastOne(cfg.perIpRps) as real, AtLeastOne(cfg.perIpBurst) as real;
    if |attempts| == 0 {
      NonNegative(end - start, k);
    } else {
      var a := attempts[0];
      CheckOk(cfg, st, a, start);
      IpStep(cfg, st, a, ip, start);
      var (next, v) := Check(cfg, st, a);
      OkRates(cfg, next, a.now);
      IpPays(cfg, next, attempts[1..], ip, a.now, end);
      Chain(AdmittedOf(cfg, next, attempts[1..], ip), if v.Ok? && a.ip == ip then 1 else 0,
            LevelOf(cfg, next, ip, a.now), LevelOf(cfg, st, ip, start), start, a.now, end, k,
            Evictions(cfg, next, attempts[1..], ip), if Evicts(cfg, st, a, ip) then 1 else 0, burst);
    }
  }

  lemma CountsUnfold(cfg: Config, st: State, attempts: seq<Attempt>, ip: Ip)
    requires Rates(st)
    ensures |attempts| == 0 ==> AdmittedOf(cfg, st, attempts, ip) == 0 && Evictions(cfg, st, attempts, ip) == 0
    ensures |attempts| != 0 && Rates(Check(cfg, st, attempts[0]).0) ==>
      var (next, v) := Check(cfg, st, attempts[0]);
      && AdmittedOf(cfg, st, attempts, ip)
           == (if v.Ok? && attempts[0].ip == ip then 1 else 0) + AdmittedOf(cfg, next, attempts[1..], ip)
      && Evictions(cfg, st, attempts, ip)
           == (if Evicts(cfg, st, attempts[0], ip) then 1 else 0) + Evictions(cfg, next, attempts[1..], ip)
  {
    hide Check, Rates, Evicts;
  }

  lemma EntryLevelOnly(cfg: Config, st: State, ip: Ip, start: real)
    requires StateOk(cfg, st, start)
    ensures Rates(st) && 0.0 <= LevelOf(cfg, st, ip, start) <= AtLeastOne(cfg.perIpBurst) as real
  {
    EntryLevel(cfg, st, ip, start, start);
    if ip in st.perIp { LevelRises(st.perIp[ip], start, start, st.perIp[ip].rate); }
  }

  lemma IpWindow(cfg: Config, st: State, attempts: seq<Attempt>, ip: Ip, start: real, end: real)
    requires cfg.enabled && StateOk(cfg, st, start) && Timely(attempts, start, end)
    ensures Rates(st)
    ensures AdmittedOf(cfg, st, attempts, ip) as real
         <= (Evictions(cfg, st, attempts, ip) + 1) as real * AtLeastOne(cfg.perIpBurst) as real
          + (end - start) * AtLeastOne(cfg.perIpRps) as real
  {
    hide AdmittedOf, Timely, Evictions, LevelOf, StateOk;
    IpPays(cfg, st, attempts, ip, start, end);
    EntryLevelOnly(cfg, st, ip, start);
    Distributes(Evictions(cfg, st, attempts, ip) as real, 1.0, AtLeastOne(cfg.perIpBurst) as real);
  }

  // ---- every window of every run ----

  ghost function After(cfg: Config, st: State, attempts: seq<Attempt>): State
    decreases |attempts|
  {
    if |attempts| == 0 || !Rates(st) then st else After(cfg, Check(cfg, st, attempts[0]).0, attempts[1..])
  }

  lemma {:induction false} AfterOk(cfg: Config, st: State, attempts: seq<Attempt>, start: real, end: real)
    requires StateOk(cfg, st, start) && Timely(attempts, start, end)
    ensures StateOk(cfg, After(cfg, st, attempts), end)
    decreases |attempts|
  {
    hide Check, Rates, WellFormed, AtLeastOne;
    OkRates(cfg, st, start);
    if |attempts| != 0 {
      CheckOk(cfg, st, attempts[0], start);
      AfterOk(cfg, Check(cfg, st, attempts[0]).0, attempts[1..], attempts[0].now, end);
    }
  }

  lemma InitOk(cfg: Config, now: real)
    ensures StateOk(cfg, Init(cfg, now), now)
  {
  }

  /** Over any window, whatever came before it, all admissions together: at most the global
      burst plus rps * T. */
  lemma GlobalBound(cfg: Config, birth: real, before: seq<Attempt>, attempts: seq<Attempt>, start: real, end: real)
    requires cfg.enabled && Timely(before, birth, start) && Timely(attempts, start, end)
    ensures var st := After(cfg, Init(cfg, birth), before);
            && Rates(st)
            && Admitted(cfg, st, attempts) as real
                 <= AtLeastOne(cfg.globalBurst) as real + (end - start) * AtLeastOne(cfg.globalRps) as real
  {
    hide Admitted, Timely, After, StateOk, Rates, Init;
    InitOk(cfg, birth);
    AfterOk(cfg, Init(cfg, birth), before, birth, start);
    GlobalWindow(cfg, After(cfg, Init(cfg, birth), before), attempts, start, end);
  }

  /** One address whose entry is evicted k times in the window: at most k + 1 per-address
      bursts plus rps * T. */
  lemma IpBound(cfg: Config, birth: real, before: seq<Attempt>, attempts: seq<Attempt>, ip: Ip, start: real, end: real)
    requires cfg.enabled && Timely(before, birth, start) && Timely(attempts, start, end)
    ensures var st := After(cfg, Init(cfg, birth), before);
            && Rates(st)
            && AdmittedOf(cfg, st, attempts, ip) as real
                 <= (Evictions(cfg, st, attempts, ip) + 1) as real * AtLeastOne(cfg.perIpBurst) as real
                  + (end - start) * AtLeastOne(cfg.perIpRps) as real
  {
    hide AdmittedOf, Evictions, Timely, After, StateOk, Rates, Init;
    InitOk(cfg, birth);
    AfterOk(cfg, Init(cfg, birth), before, birth, start);
    IpWindow(cfg, After(cfg, Init(cfg, birth), before), attempts, ip, start, end);
  }

  // ---- what is served ----

  /** With protection off every attempt is admitted and nothing changes. */
  lemma {:induction false} OffAdmitsAll(cfg: Config, st: State, attempts: seq<Attempt>)
    requires !cfg.enabled && Rates(st)
    ensures After(cfg, st, attempts) == st && Admitted(cfg, st, attempts) == |attempts|
    decreases |attempts|
  {
    if |attempts| != 0 { OffAdmitsAll(cfg, st, attempts[1..]); }
  }

  /** Whose entries an attempt adds, keeps and trims: only an admission over the size limit
      trims, and then the picked ones. */
  lemma CheckEntries(cfg: Config, st: State, a: Attempt)
    requires cfg.enabled && Rates(st)
    ensures var (next, v) := Check(cfg, st, a);
            var seen := st.perIp.Keys + {a.ip};
            && (Level(st.global, a.now) < 1.0 ==> next.perIp == st.perIp)
            && (Level(st.global, a.now) >= 1.0 ==>
                  next.perIp.Keys == if v.Ok? && |seen| > cfg.maxIpEntries then seen - a.victims else seen)
            && forall ip :: ip in next.perIp && ip != a.ip ==> ip in st.perIp && next.perIp[ip] == st.perIp[ip]
  {
    hide Refill, Wait;
    var entries := st.perIp[a.ip := Take(Entry(cfg, st, a.ip, a.now), a.now, 1).0];
    assert entries.Keys == st.perIp.Keys + {a.ip};
    assert |entries| == |entries.Keys|;
  }

  /** What an attempt costs its address once the global level holds: one token if admitted,
      nothing if refused, as long as the entry stays. */
  lemma CheckCharges(cfg: Config, st: State, a: Attempt)
    requires cfg.enabled && StateOk(cfg, st, a.now) && Rates(st)
    ensures var (next, v) := Check(cfg, st, a);
            && (Level(st.global, a.now) >= 1.0 && a.ip in next.perIp ==>
                  LevelOf(cfg, next, a.ip, a.now) == LevelOf(cfg, st, a.ip, a.now) - if v.Ok? then 1.0 else 0.0)
            && (Level(st.global, a.now) >= 1.0 ==> (v.Ok? <==> LevelOf(cfg, st, a.ip, a.now) >= 1.0))
  {
    EntryLevel(cfg, st, a.ip, a.now, a.now);
    TakeLevel(Entry(cfg, st, a.ip, a.now), a.now);
    TakeExact(Entry(cfg, st, a.ip, a.now), a.now, 1);
    TakeExact(st.global, a.now, 1);
    hide Take, Level, WellFormed, New, AtLeastOne;
  }

  /** The level of a bucket never falls with time alone. */
  lemma LevelKeeps(b: Leaky, s: real, t: real)
    requires WellFormed(b) && b.last <= s <= t
    ensures Level(b, t) >= Level(b, s)
  {
    RefillSplits(b, s, t);
    NonNegative(t - s, b.rate);
    NonNegative(s - b.last, b.rate);
  }

  /** The address's attempts among some. */
  function AttemptsOf(attempts: seq<Attempt>, ip: Ip): nat
    decreases |attempts|
  {
    if |attempts| == 0 then 0 else (if attempts[0].ip == ip then 1 else 0) + AttemptsOf(attempts[1..], ip)
  }

  /** Whenever the address tries, the global bucket holds a token. */
  ghost predicate GlobalHolds(cfg: Config, st: State, attempts: seq<Attempt>, ip: Ip)
    requires Rates(st)
    decreases |attempts|
  {
    |attempts| == 0 ||
    (var next := Check(cfg, st, attempts[0]).0;
     && (attempts[0].ip == ip ==> Level(st.global, attempts[0].now) >= 1.0)
     && (Rates(next) ==> GlobalHolds(cfg, next, attempts[1..], ip)))
  }

  lemma StepServes(cfg: Config, st: State, a: Attempt, ip: Ip, start: real)
    requires cfg.enabled && StateOk(cfg, st, start) && start <= a.now && Rates(st) && !Evicts(cfg, st, a, ip)
    requires a.ip == ip ==> Level(st.global, a.now) >= 1.0 && LevelOf(cfg, st, ip, start) >= 1.0
    ensures var (next, v) := Check(cfg, st, a);
            && (a.ip == ip ==> v.Ok?)
            && LevelOf(cfg, next, ip, a.now) >= LevelOf(cfg, st, ip, start) - if a.ip == ip then 1.0 else 0.0
  {
    StateLater(cfg, st, start, a.now);
    CheckEntries(cfg, st, a);
    CheckCharges(cfg, st, a);
    if ip in st.perIp { LevelKeeps(st.perIp[ip], start, a.now); }
    hide Check, Level, WellFormed, AtLeastOne;
    assert LevelOf(cfg, st, ip, a.now) >= LevelOf(cfg, st, ip, start);
  }

  lemma StateLater(cfg: Config, st: State, start: real, now: real)
    requires StateOk(cfg, st, start) && start <= now
    ensures StateOk(cfg, st, now)
  {
    hide WellFormed, AtLeastOne;
  }

  /** An address gets all its tokens: as long as the global bucket holds and its entry is not
      trimmed, at least as many of its attempts are admitted as its level allows, however the
      attempts of others are mixed in. */
  lemma {:induction false} AddressServed(cfg: Config, st: State, attempts: seq<Attempt>, ip: Ip, start: real, end: real)
    requires cfg.enabled && StateOk(cfg, st, start) && Timely(attempts, start, end) && Rates(st)
    requires GlobalHolds(cfg, st, attempts, ip) && Evictions(cfg, st, attempts, ip) == 0
    requires AttemptsOf(attempts, ip) as real <= LevelOf(cfg, st, ip, start)
    ensures AdmittedOf(cfg, st, attempts, ip) == AttemptsOf(attempts, ip)
    decreases |attempts|
  {
    hide Check, LevelOf, Level, WellFormed, Evicts, StateOk, AtLeastOne, Rates;
    if |attempts| != 0 {
      var a := attempts[0];
      CheckOk(cfg, st, a, start);
      var (next, v) := Check(cfg, st, a);
      OkRates(cfg, next, a.now);
      StepServes(cfg, st, a, ip, start);
      AddressServed(cfg, next, attempts[1..], ip, a.now, end);
    }
  }

  /** So an address that is new gets its whole burst. */
  lemma NewAddressGetsBurst(cfg: Config, st: State, attempts: seq<Attempt>, ip: Ip, start: real, end: real)
    requires cfg.enabled && StateOk(cfg, st, start) && Timely(attempts, start, end) && Rates(st)
    requires GlobalHolds(cfg, st, attempts, ip) && Evictions(cfg, st, attempts, ip) == 0
    requires ip !in st.perIp && AttemptsOf(attempts, ip) <= AtLeastOne(cfg.perIpBurst)
    ensures AdmittedOf(cfg, st, attempts, ip) == AttemptsOf(attempts, ip)
  {
    hide Level, AtLeastOne, StateOk, GlobalHolds, Evictions, AdmittedOf, Timely;
    AddressServed(cfg, st, attempts, ip, start, end);
  }
}

/** The per-message policy pipeline of both lanes: frame size, tenant rate limit, allowlist. */
module Policy {
  import opened Options
  import opened Config
  import opened Allowlist
  import opened TokenBuckets

  datatype Decision = Pass | Drop | Reject(msg: string) | Close(msg: string)

  datatype Request =
    | Text(now: nat, bytesLen: nat, svc: string, msgType: string)
    | Hot(now: nat, bytesLen: nat, svcId: nat, opcode: nat)

  datatype Rules = Rules(maxFrameBytes: nat, ext: seq<ExtRule>, hot: seq<HotRule>)

  /** The decision once the size and the limiter have been consulted. */
  function Match(rules: Rules, req: Request): Decision {
    match req
    case Text(_, _, svc, msgType) =>
      if rules.ext == [] then Reject("ext_allowlist empty (strict deny)")
      else if !IsExtAllowed(rules.ext, svc, msgType) then Reject("svc/type not allowed")
      else Pass
    case Hot(_, _, svcId, opcode) =>
      if rules.hot == [] || !IsHotAllowed(rules.hot, svcId, opcode) then Drop else Pass
  }

  function Check(rules: Rules, limiter: Option<Bucket>, req: Request): Decision {
    if req.bytesLen > rules.maxFrameBytes then Close("frame too large")
    else if limiter.Some? && !Allowed(limiter.value, req.now) then Drop
    else Match(rules, req)
  }

  /** Oversized frames cost no token; every other request asks the limiter. */
  function Charge(rules: Rules, limiter: Option<Bucket>, req: Request): Option<Bucket> {
    if req.bytesLen > rules.maxFrameBytes || limiter.None? then limiter
    else Some(Allow(limiter.value, req.now))
  }

  class PolicyRuntime {
    const rules: Rules
    const limiter: TokenBucket?

    function Limiter(): Option<Bucket>
      reads limiter
    {
      if limiter == null then None else Some(limiter.View())
    }

    constructor (rules: Rules, limiter: TokenBucket?)
      ensures this.rules == rules && this.limiter == limiter
    {
      this.rules, this.limiter := rules, limiter;
    }

    method CheckText(now: nat, bytesLen: nat, svc: string, msgType: string) returns (decision: Decision)
      modifies limiter
      ensures decision == Check(rules, old(Limiter()), Text(now, bytesLen, svc, msgType))
      ensures Limiter() == Charge(rules, old(Limiter()), Text(now, bytesLen, svc, msgType))
    {
      if bytesLen > rules.maxFrameBytes { return Close("frame too large"); }
      if limiter != null {
        var ok := limiter.AllowAt(now);
        if !ok { return Drop; }
      }
      if |rules.ext| == 0 { return Reject("ext_allowlist empty (strict deny)"); }
      if !IsExtAllowed(rules.ext, svc, msgType) { return Reject("svc/type not allowed"); }
      return Pass;
    }

    method CheckHot(now: nat, bytesLen: nat, svcId: nat, opcode: nat) returns (decision: Decision)
      modifies limiter
      ensures decision == Check(rules, old(Limiter()), Hot(now, bytesLen, svcId, opcode))
      ensures Limiter() == Charge(rules, old(Limiter()), Hot(now, bytesLen, svcId, opcode))
    {
      if bytesLen > rules.maxFrameBytes { return Close("frame too large"); }
      if limiter != null {
        var ok := limiter.AllowAt(now);
        if !ok { return Drop; }
      }
      if |rules.hot| == 0 { return Drop; }
      if !IsHotAllowed(rules.hot, svcId, opcode) { return Drop; }
      return Pass;
    }
  }

  function Passes(rules: Rules, limiter: Option<Bucket>, reqs: seq<Request>): nat
    decreases |reqs|
  {
    if |reqs| == 0 then 0
    else
      var passed := if Check(rules, limiter, reqs[0]) == Pass then 1 else 0;
      passed + Passes(rules, Charge(rules, limiter, reqs[0]), reqs[1..])
  }

  lemma {:induction false} PassesPaid(rules: Rules, b: Bucket, reqs: seq<Request>, end: nat)
    requires TokenBuckets.WellFormed(b) && b.last <= end
    requires forall i :: 0 <= i < |reqs| ==> reqs[i].now <= end
    ensures NANOS_PER_SEC * Passes(rules, Some(b), reqs) <= NANOS_PER_SEC * b.tokens + (end - b.last) * b.rps
    decreases |reqs|
  {
    hide Allow, Allowed, Match;
    if |reqs| != 0 {
      var now := reqs[0].now;
      AllowWellFormed(b, now);
      AllowPays(b, now);
      var b1 := if reqs[0].bytesLen > rules.maxFrameBytes then b else Allow(b, now);
      PassesPaid(rules, b1, reqs[1..], end);
      Distributes(end - b1.last, b1.last - b.last, b.rps);
    }
  }

  /** With a tenant limiter, all passes of both lanes together keep its rate. */
  lemma TenantRateCoversBothLanes(rules: Rules, rps: nat, burst: nat, start: nat, reqs: seq<Request>, end: nat)
    requires rps < U32 && burst < U32 && start <= end
    requires forall i :: 0 <= i < |reqs| ==> reqs[i].now <= end
    ensures NANOS_PER_SEC * Passes(rules, Some(New(rps, burst, start)), reqs)
         <= NANOS_PER_SEC * Max(burst, 1) + (end - start) * Max(rps, 1)
  {
    hide Passes;
    PassesPaid(rules, New(rps, burst, start), reqs, end);
  }

  /** The window bound for all passes of both lanes: the first request of the window consults
      the limiter, whatever its lane. */
  lemma BothLanesInWindow(rules: Rules, b: Bucket, first: Request, reqs: seq<Request>, end: nat)
    requires TokenBuckets.WellFormed(b) && b.last <= first.now <= end && Fits(b, first.now - b.last)
    requires first.bytesLen <= rules.maxFrameBytes
    requires forall i :: 0 <= i < |reqs| ==> reqs[i].now <= end
    ensures NANOS_PER_SEC * Passes(rules, Some(b), [first] + reqs)
          < NANOS_PER_SEC * b.capacity + (end - first.now) * b.rps + Slack(b.rps)
  {
    hide Slack, Refill, Allow, Allowed, Match, Passes, Fits;
    var now := first.now;
    var mark := Refill(b, now).last;
    MarkLag(b, now);
    FirstCall(b, now);
    AllowWellFormed(b, now);
    PassesPaid(rules, Allow(b, now), reqs, end);
    PassesSplit(rules, b, first, reqs);
    Distributes(end - now, now - mark, b.rps);
  }

  lemma PassesSplit(rules: Rules, b: Bucket, first: Request, reqs: seq<Request>)
    requires first.bytesLen <= rules.maxFrameBytes
    ensures Passes(rules, Some(b), [first] + reqs)
         <= (if Allowed(b, first.now) then 1 else 0) + Passes(rules, Some(Allow(b, first.now)), reqs)
  {
    hide Allow, Allowed, Match;
    assert ([first] + reqs)[1..] == reqs;
  }

  /** What it takes for a text message to pass, in terms of the configured list. */
  lemma TextPassesIff(rules: Rules, raw: seq<string>, limiter: Option<Bucket>, req: Request)
    requires req.Text? && |rules.ext| == |raw|
    requires forall i :: 0 <= i < |raw| ==> ExtEntry(raw[i]) == Some(rules.ext[i])
    ensures Check(rules, limiter, req) == Pass
       <==> && req.bytesLen <= rules.maxFrameBytes
            && (limiter.Some? ==> Allowed(limiter.value, req.now))
            && ':' !in req.svc
            && (req.svc + ":" + "*" in raw || req.svc + ":" + req.msgType in raw)
  {
    hide Allowed, ExtEntry;
    ExtMeaning(raw, rules.ext, req.svc, req.msgType);
  }

  /** The same for a hot frame. */
  lemma HotPassesIff(rules: Rules, raw: seq<string>, limiter: Option<Bucket>, req: Request)
    requires req.Hot? && |rules.hot| == |raw|
    requires forall i :: 0 <= i < |raw| ==> HotEntry(raw[i]) == Some(rules.hot[i])
    ensures Check(rules, limiter, req) == Pass
       <==> && req.bytesLen <= rules.maxFrameBytes
            && (limiter.Some? ==> Allowed(limiter.value, req.now))
            && exists line :: line in raw && HotGrants(line, req.svcId, req.opcode)
  {
    hide Allowed, HotEntry, HotGrants;
    HotMeaning(raw, rules.hot, req.svcId, req.opcode);
  }

  /** For a validated policy the configured numbers are the bound, unclamped. */
  lemma ValidatedTenantRate(policy: TenantPolicy, rules: Rules, start: nat, reqs: seq<Request>, end: nat)
    requires Validate(policy) == None && policy.rateLimitRps < U32 && policy.rateLimitBurst < U32 && start <= end
    requires forall i :: 0 <= i < |reqs| ==> reqs[i].now <= end
    ensures NANOS_PER_SEC * Passes(rules, Some(New(policy.rateLimitRps, policy.rateLimitBurst, start)), reqs)
         <= NANOS_PER_SEC * policy.rateLimitBurst + (end - start) * policy.rateLimitRps
  {
    hide Passes, New;
    TenantRateCoversBothLanes(rules, policy.rateLimitRps, policy.rateLimitBurst, start, reqs, end);
  }

  // ---- what every request gets and pays ----

  /** The answer to a text message, whatever it is. */
  lemma TextAnswer(rules: Rules, raw: seq<string>, limiter: Option<Bucket>, req: Request)
    requires req.Text? && |rules.ext| == |raw|
    requires forall i :: 0 <= i < |raw| ==> ExtEntry(raw[i]) == Some(rules.ext[i])
    ensures var listed := ':' !in req.svc && (req.svc + ":" + "*" in raw || req.svc + ":" + req.msgType in raw);
            Check(rules, limiter, req) ==
              if req.bytesLen > rules.maxFrameBytes then Close("frame too large")
              else if limiter.Some? && !Allowed(limiter.value, req.now) then Drop
              else if listed then Pass
              else Reject(if raw == [] then "ext_allowlist empty (strict deny)" else "svc/type not allowed")
  {
    TextPassesIff(rules, raw, limiter, req);
    hide Allowed, ExtEntry, IsExtAllowed;
  }

  /** The answer to a hot frame: it is closed for its size, and else passes or is dropped. */
  lemma HotAnswer(rules: Rules, raw: seq<string>, limiter: Option<Bucket>, req: Request)
    requires req.Hot? && |rules.hot| == |raw|
    requires forall i :: 0 <= i < |raw| ==> HotEntry(raw[i]) == Some(rules.hot[i])
    ensures var granted := exists line :: line in raw && HotGrants(line, req.svcId, req.opcode);
            Check(rules, limiter, req) ==
              if req.bytesLen > rules.maxFrameBytes then Close("frame too large")
              else if limiter.Some? && !Allowed(limiter.value, req.now) then Drop
              else if granted then Pass else Drop
  {
    HotPassesIff(rules, raw, limiter, req);
    hide Allowed, HotEntry, HotGrants, IsHotAllowed;
  }

  function ChargeAll(rules: Rules, limiter: Option<Bucket>, reqs: seq<Request>): Option<Bucket>
    decreases |reqs|
  {
    if |reqs| == 0 then limiter else ChargeAll(rules, Charge(rules, limiter, reqs[0]), reqs[1..])
  }

  /** When the requests came that are not oversized. */
  function FittingTimes(rules: Rules, reqs: seq<Request>): seq<nat>
    decreases |reqs|
  {
    if |reqs| == 0 then []
    else (if reqs[0].bytesLen <= rules.maxFrameBytes then [reqs[0].now] else []) + FittingTimes(rules, reqs[1..])
  }

  /** Every request that fits is one call of the tenant's limiter, in either lane and whether or
      not the allowlist then passes it; an oversized one costs nothing. */
  lemma {:induction false} FittingRequestsPay(rules: Rules, b: Bucket, reqs: seq<Request>)
    ensures ChargeAll(rules, Some(b), reqs) == Some(AllowAll(b, FittingTimes(rules, reqs)))
    decreases |reqs|
  {
    hide Allow;
    if |reqs| != 0 {
      var times := FittingTimes(rules, reqs[1..]);
      if reqs[0].bytesLen <= rules.maxFrameBytes {
        FittingRequestsPay(rules, Allow(b, reqs[0].now), reqs[1..]);
        assert ([reqs[0].now] + times)[1..] == times;
      } else {
        FittingRequestsPay(rules, b, reqs[1..]);
        assert [] + times == times;
      }
    }
  }
}

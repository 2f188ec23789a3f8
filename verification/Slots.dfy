/** What is left of a tenant's session count: exactly when it returns to 0, and how many of a
    capped tenant's slots a repeated session key can take for good. */
module Slots {
  import opened Keys
  import opened Multimaps
  import opened Options
  import opened Config
  import Reg = RegistrySpec
  import Pres = PresenceSpec
  import opened PresenceLimits
  import opened Gateway
  import opened Lifecycle

  // ---- exactly when the counts return ----

  /** An admission that is not refused brings a key that is not registered. */
  predicate Fresh(cfg: Tenants, g: State, e: Event) {
    e.Admit? && Enabled(g, e)
      && !Reg.Full(g.reg, g.conns[e.c].id.tenant, cfg(g.conns[e.c].id.tenant).limits.maxSessionsTotal) ==>
      Key(g.conns[e.c]) !in g.reg.sessions
  }

  ghost predicate FreshRun(cfg: Tenants, g: State, events: seq<Event>)
    decreases |events|
  {
    |events| == 0 ||
    (Fresh(cfg, g, events[0])
      && FreshRun(cfg, if Enabled(g, events[0]) then Step(cfg, g, events[0]) else g, events[1..]))
  }

  lemma AdmitCountsIff(cfg: Tenants, g: State, c: nat)
    requires Coherent(cfg, g) && Enabled(g, Admit(c))
    ensures Reg.CountsExact(OnAdmit(cfg, g, c).reg) <==> Reg.CountsExact(g.reg) && Fresh(cfg, g, Admit(c))
  {
    hide Sound, Backed, Housed, WellFormed, UserKey, SessionKey, TenantOf, Reg.CountsExact, Reg.CountsCover,
      Reg.Indexed, Reg.Stamped, Reg.Tenanted, Reg.Insert, Reg.Full;
    var id := g.conns[c].id;
    IdentityReadsBack(id, "");
    Reg.InsertExactIff(g.reg, id.tenant, UserKey(id), SessionKey(id), c);
  }

  lemma RemoveCountsIff(reg: Reg.State, user: string, session: string)
    requires Reg.Agrees(reg)
    ensures Reg.CountsExact(Reg.Remove(reg, user, session)) <==> Reg.CountsExact(reg)
  {
    hide Reg.CountsExact, Reg.CountsCover, Reg.Indexed, Reg.Stamped, Reg.Tenanted, Reg.Remove;
    Reg.RemoveCounts(reg, user, session);
  }

  lemma StepCountsIff(cfg: Tenants, g: State, e: Event)
    requires Coherent(cfg, g) && Enabled(g, e)
    ensures Reg.CountsExact(Step(cfg, g, e).reg) <==> Reg.CountsExact(g.reg) && Fresh(cfg, g, e)
  {
    hide Sound, Backed, Housed, Identified, UserKey, SessionKey, RoomKey, Reg.Agrees, Reg.CountsExact, Reg.Remove,
      Reg.Insert, Reg.Full, Reg.IsOldest, Pres.Cleanup, Pres.Admit, Pres.Leave, Pres.Verdict, OnAdmit;
    match e
    case Evict(c) =>
      var victim := Reg.Oldest(g.reg, UserKey(g.conns[c].id));
      if victim.Some? { RemoveCountsIff(g.reg, UserKey(g.conns[c].id), victim.value); }
    case Admit(c) => AdmitCountsIff(cfg, g, c);
    case Disconnect(c) => RemoveCountsIff(g.reg, UserKey(g.conns[c].id), SessionKey(g.conns[c].id));
    case _ =>
  }

  lemma {:induction false} RunCountsIff(cfg: Tenants, g: State, events: seq<Event>)
    requires Coherent(cfg, g) && WellFormedEvents(events)
    ensures Reg.CountsExact(Execute(cfg, g, events).reg) <==> Reg.CountsExact(g.reg) && FreshRun(cfg, g, events)
    decreases |events|
  {
    hide Coherent, WellFormed, Step, Reg.CountsExact, Reg.Full, Key;
    if |events| != 0 {
      var next := if Enabled(g, events[0]) then Step(cfg, g, events[0]) else g;
      if Enabled(g, events[0]) {
        StepCoherent(cfg, g, events[0]);
        StepCountsIff(cfg, g, events[0]);
      }
      hide Enabled, Fresh;
      RunCountsIff(cfg, next, events[1..]);
    }
  }

  /** In any run, once everybody is down, all tenant session counts are 0 if and only if no
      admission brought a session key that was registered at that moment. */
  lemma TeardownCountsIff(cfg: Tenants, events: seq<Event>)
    requires WellFormedEvents(events) && AllDown(Execute(cfg, INIT, events))
    ensures (forall t :: CountOf(Execute(cfg, INIT, events).reg.tenantCounts, t) == 0) <==> FreshRun(cfg, INIT, events)
  {
    hide Coherent, AllDown, Execute, FreshRun, TenantOf;
    InitCoherent(cfg);
    Reg.EmptyAgrees();
    RunCoherent(cfg, INIT, events);
    RunCountsIff(cfg, INIT, events);
    var reg := Execute(cfg, INIT, events).reg;
    DownEmpties(cfg, Execute(cfg, INIT, events));
    assert forall t :: Reg.TenantSessions(reg.sessions, t) == {};
  }

  // ---- the last slot is never lost ----

  /** A capped tenant with nobody registered is not full. */
  ghost predicate Spare(cfg: Tenants, reg: Reg.State) {
    forall t :: cfg(t).limits.maxSessionsTotal > 0 && Reg.TenantSessions(reg.sessions, t) == {} ==>
      CountOf(reg.tenantCounts, t) < cfg(t).limits.maxSessionsTotal
  }

  lemma AdmitSpare(cfg: Tenants, g: State, c: nat)
    requires Coherent(cfg, g) && Enabled(g, Admit(c)) && Spare(cfg, g.reg)
    ensures Spare(cfg, OnAdmit(cfg, g, c).reg)
  {
    hide Sound, Backed, Housed, WellFormed, UserKey, SessionKey, TenantOf, Reg.Agrees, Reg.Full, Put;
    var id := g.conns[c].id;
    IdentityReadsBack(id, "");
    var reg := OnAdmit(cfg, g, c).reg;
    forall t ensures reg == g.reg || t == id.tenant || CountOf(reg.tenantCounts, t) == CountOf(g.reg.tenantCounts, t) {}
    forall t ensures Reg.TenantSessions(reg.sessions, t) >= Reg.TenantSessions(g.reg.sessions, t) {}
    assert reg == g.reg || SessionKey(id) in Reg.TenantSessions(reg.sessions, id.tenant);
  }

  lemma RemoveSpare(cfg: Tenants, reg: Reg.State, user: string, session: string)
    requires Reg.Agrees(reg) && Spare(cfg, reg) && Capped(cfg, reg.tenantCounts)
    ensures Spare(cfg, Reg.Remove(reg, user, session))
  {
    hide Reg.Indexed, Reg.Stamped, ConsistentSession, TenantOf, Del;
    var next := Reg.Remove(reg, user, session);
    if session in reg.sessions { Reg.Registered(reg, session); } else { assert next.sessions == reg.sessions; }
    forall t | cfg(t).limits.maxSessionsTotal > 0 && Reg.TenantSessions(next.sessions, t) == {}
      ensures CountOf(next.tenantCounts, t) < cfg(t).limits.maxSessionsTotal
    {
      assert CountOf(reg.tenantCounts, t) <= cfg(t).limits.maxSessionsTotal;
      if !(session in reg.sessions && TenantOf(session) == t) {
        assert Reg.TenantSessions(reg.sessions, t) == Reg.TenantSessions(next.sessions, t);
      }
    }
  }

  lemma StepSpare(cfg: Tenants, g: State, e: Event)
    requires Coherent(cfg, g) && Enabled(g, e) && Spare(cfg, g.reg) && Capped(cfg, g.reg.tenantCounts)
    ensures Spare(cfg, Step(cfg, g, e).reg)
  {
    hide Sound, Backed, Housed, Identified, UserKey, SessionKey, RoomKey, Reg.Agrees, Spare, Capped, Reg.Remove,
      Reg.Insert, Reg.Full, Reg.IsOldest, Pres.Cleanup, Pres.Admit, Pres.Leave, Pres.Verdict, OnAdmit;
    match e
    case Evict(c) =>
      var victim := Reg.Oldest(g.reg, UserKey(g.conns[c].id));
      if victim.Some? { RemoveSpare(cfg, g.reg, UserKey(g.conns[c].id), victim.value); }
    case Admit(c) => AdmitSpare(cfg, g, c);
    case Disconnect(c) => RemoveSpare(cfg, g.reg, UserKey(g.conns[c].id), SessionKey(g.conns[c].id));
    case _ =>
  }

  lemma {:induction false} RunSpare(cfg: Tenants, g: State, events: seq<Event>)
    requires Coherent(cfg, g) && WellFormedEvents(events) && Spare(cfg, g.reg) && Capped(cfg, g.reg.tenantCounts)
    ensures Spare(cfg, Execute(cfg, g, events).reg)
    decreases |events|
  {
    hide Coherent, WellFormed, Enabled, Step, Spare, Capped;
    if |events| != 0 {
      if Enabled(g, events[0]) {
        StepCoherent(cfg, g, events[0]);
        StepCapped(cfg, g, events[0]);
        StepSpare(cfg, g, events[0]);
      }
      RunSpare(cfg, if Enabled(g, events[0]) then Step(cfg, g, events[0]) else g, events[1..]);
    }
  }

  /** In every run, whatever session keys repeat, a capped tenant with nobody registered still
      takes a session: at most all slots but one are lost. */
  lemma LastSlotStays(cfg: Tenants, events: seq<Event>, tenant: string)
    requires WellFormedEvents(events) && cfg(tenant).limits.maxSessionsTotal > 0
    requires Reg.TenantSessions(Execute(cfg, INIT, events).reg.sessions, tenant) == {}
    ensures !Reg.Full(Execute(cfg, INIT, events).reg, tenant, cfg(tenant).limits.maxSessionsTotal)
  {
    hide Execute, Coherent, Reg.TenantSessions;
    InitCoherent(cfg);
    RunSpare(cfg, INIT, events);
  }

  // ---- all the others can be lost ----

  /** One session key connects `n` times, each time before the last connection is gone. */
  function Repeats(id: Identity, n: nat): seq<Event> {
    if n == 0 then [] else Repeats(id, n - 1) + [Arrive(n - 1, id), Admit(n - 1)]
  }

  function Hangups(n: nat): seq<Event> {
    if n == 0 then [] else Hangups(n - 1) + [Disconnect(n - 1), Sweep(n - 1)]
  }

  /** `n` connections with one session key, of which the first `d` are gone. */
  ghost predicate Echoes(g: State, id: Identity, n: nat, d: nat) {
    && (forall c :: c in g.conns <==> 0 <= c < n)
    && (forall c :: 0 <= c < n ==> g.conns[c] == Conn(id, if c < d then Gone else Live(None)))
    && (forall s :: s in g.reg.sessions <==> d == 0 < n && s == SessionKey(id))
    && (forall s :: s in g.reg.sessions ==> g.reg.sessions[s].tenant == id.tenant)
    && At(g.reg.userIndex, UserKey(id)) <= {SessionKey(id)}
    && CountOf(g.reg.tenantCounts, id.tenant) == (if d == 0 then n else n - 1)
    && g.pres == Pres.EMPTY
  }

  lemma RepeatArrives(cfg: Tenants, g: State, id: Identity, n: nat)
    requires Echoes(g, id, n, 0) && cfg(id.tenant).policy.sessions.maxSessionsPerUser >= 2
    ensures n !in g.conns && OnArrive(cfg, g, n, id) == g.(conns := g.conns[n := Conn(id, Pending)])
  {
    hide UserKey, SessionKey;
    CardSubset(At(g.reg.userIndex, UserKey(id)), {SessionKey(id)});
  }

  lemma RepeatStep(cfg: Tenants, g: State, id: Identity, n: nat)
    requires Echoes(g, id, n, 0) && cfg(id.tenant).policy.sessions.maxSessionsPerUser >= 2
    requires var cap := cfg(id.tenant).limits.maxSessionsTotal; cap == 0 || n < cap
    ensures Echoes(Execute(cfg, g, [Arrive(n, id), Admit(n)]), id, n + 1, 0)
  {
    hide Execute, UserKey, SessionKey, OnArrive;
    RepeatArrives(cfg, g, id, n);
    ExecuteTwo(cfg, g, Arrive(n, id), Admit(n));
  }

  lemma HangupStep(cfg: Tenants, g: State, id: Identity, n: nat, d: nat)
    requires Echoes(g, id, n, d) && d < n
    ensures Echoes(Execute(cfg, g, [Disconnect(d), Sweep(d)]), id, n, d + 1)
  {
    hide Execute, UserKey, SessionKey;
    assert Pres.Cleanup(Pres.EMPTY, id.tenant, UserKey(id), SessionKey(id)) == Pres.EMPTY;
    hide Pres.Cleanup;
    ExecuteTwo(cfg, g, Disconnect(d), Sweep(d));
  }

  lemma {:induction false} RepeatsRun(cfg: Tenants, id: Identity, n: nat)
    requires cfg(id.tenant).policy.sessions.maxSessionsPerUser >= 2
    requires var cap := cfg(id.tenant).limits.maxSessionsTotal; cap == 0 || n <= cap
    ensures Echoes(Execute(cfg, INIT, Repeats(id, n)), id, n, 0)
  {
    if n > 0 {
      hide Echoes, Execute;
      RepeatsRun(cfg, id, n - 1);
      RepeatStep(cfg, Execute(cfg, INIT, Repeats(id, n - 1)), id, n - 1);
      ExecuteConcat(cfg, INIT, Repeats(id, n - 1), [Arrive(n - 1, id), Admit(n - 1)]);
    }
  }

  lemma {:induction false} HangupsRun(cfg: Tenants, g: State, id: Identity, n: nat, d: nat)
    requires Echoes(g, id, n, 0) && d <= n
    ensures Echoes(Execute(cfg, g, Hangups(d)), id, n, d)
  {
    hide Echoes, Execute;
    if d > 0 {
      HangupsRun(cfg, g, id, n, d - 1);
      HangupStep(cfg, Execute(cfg, g, Hangups(d - 1)), id, n, d - 1);
      ExecuteConcat(cfg, g, Hangups(d - 1), [Disconnect(d - 1), Sweep(d - 1)]);
    } else {
      ExecuteNone(cfg, g);
    }
  }

  /** A session key that connects `n` times before its first connection goes away leaves
      nobody, and a session count of n - 1. A page that reconnects with its session id before
      its old socket is closed is the case of two. */
  lemma RepeatsLeak(cfg: Tenants, id: Identity, n: nat)
    requires n >= 1 && cfg(id.tenant).policy.sessions.maxSessionsPerUser >= 2
    requires var cap := cfg(id.tenant).limits.maxSessionsTotal; cap == 0 || n <= cap
    ensures var gone := Execute(cfg, INIT, Repeats(id, n) + Hangups(n));
            && AllDown(gone) && gone.reg.sessions == map[] && gone.pres == Pres.EMPTY
            && CountOf(gone.reg.tenantCounts, id.tenant) == n - 1
  {
    hide Execute;
    RepeatsRun(cfg, id, n);
    HangupsRun(cfg, Execute(cfg, INIT, Repeats(id, n)), id, n, n);
    ExecuteConcat(cfg, INIT, Repeats(id, n), Hangups(n));
  }

  /** The loss attains its bound: in a tenant with any cap that run leaves nobody registered and
      a single slot, so that whoever takes it fills the tenant. */
  lemma OneSlotLeft(cfg: Tenants, id: Identity, next: Identity, conn: nat)
    requires cfg(id.tenant).policy.sessions.maxSessionsPerUser >= 2 && cfg(id.tenant).limits.maxSessionsTotal >= 1
    requires next.tenant == id.tenant
    ensures var cap := cfg(id.tenant).limits.maxSessionsTotal;
            var gone := Execute(cfg, INIT, Repeats(id, cap) + Hangups(cap));
            && gone.reg.sessions == map[]
            && !Reg.Full(gone.reg, id.tenant, cap)
            && Reg.Full(Reg.Insert(gone.reg, id.tenant, UserKey(next), SessionKey(next), conn), id.tenant, cap)
  {
    hide Execute, UserKey, SessionKey, Put;
    RepeatsLeak(cfg, id, cfg(id.tenant).limits.maxSessionsTotal);
  }
}

/** How far the per-user session limit can be overshot when admissions of one user overlap. */
module Admission {
  import opened Keys
  import opened Multimaps
  import opened Options
  import opened Config
  import Reg = RegistrySpec
  import Pres = PresenceSpec
  import opened PresenceLimits
  import opened Gateway
  import opened Lifecycle

  /** The session limit of each tenant's users. */
  function PerUser(cfg: Tenants): string -> nat {
    tenant => cfg(tenant).policy.sessions.maxSessionsPerUser
  }

  predicate Waiting(conn: Conn, user: string) {
    UserKey(conn.id) == user && (conn.phase.Evicting? || conn.phase.Kicking? || conn.phase.Pending?)
  }

  /** Past the count and any eviction, not yet inserted. */
  predicate Cleared(conn: Conn, user: string) {
    UserKey(conn.id) == user && (conn.phase.Kicking? || conn.phase.Pending?)
  }

  function InFlight(conns: map<nat, Conn>, user: string): set<nat> {
    set c | c in conns && Waiting(conns[c], user)
  }

  function ClearedOf(conns: map<nat, Conn>, user: string): set<nat> {
    set c | c in conns && Cleared(conns[c], user)
  }

  /** At most `k` admissions of the user overlap, at every point of the run. */
  ghost predicate AtMostInFlight(cfg: Tenants, g: State, events: seq<Event>, user: string, k: nat)
    decreases |events|
  {
    |InFlight(g.conns, user)| <= k &&
    (|events| == 0 ||
      AtMostInFlight(cfg, if Enabled(g, events[0]) then Step(cfg, g, events[0]) else g, events[1..], user, k))
  }

  /** Registered plus cleared sessions stay below the limit plus the overlap. */
  ghost predicate Bounded(g: State, user: string, max: nat, k: nat) {
    |At(g.reg.userIndex, user)| + |ClearedOf(g.conns, user)| <= max + k - 1
  }

  lemma ClearedAfter(conns: map<nat, Conn>, c: nat, conn: Conn, user: string)
    ensures |ClearedOf(conns[c := conn], user)| == |ClearedOf(conns, user)|
         - (if c in conns && Cleared(conns[c], user) then 1 else 0)
         + (if Cleared(conn, user) then 1 else 0)
  {
    hide Cleared;
    var others := ClearedOf(conns, user) - {c};
    CardRemove(ClearedOf(conns, user), c);
    CardAdd(others, c);
    assert ClearedOf(conns[c := conn], user) == if Cleared(conn, user) then others + {c} else others;
  }

  lemma ClearedWithin(conns: map<nat, Conn>, user: string)
    ensures |ClearedOf(conns, user)| <= |InFlight(conns, user)|
  {
    hide UserKey;
    CardSubset(ClearedOf(conns, user), InFlight(conns, user));
  }

  lemma IndexAfterRemove(reg: Reg.State, user: string, other: string, session: string)
    requires Reg.Agrees(reg)
    ensures |At(Reg.Remove(reg, user, session).userIndex, other)| == |At(reg.userIndex, other)|
         - if other == user && session in At(reg.userIndex, user) then 1 else 0
  {
    hide Owner, Reg.Stamped, Reg.Tenanted, Reg.CountsCover;
    CardRemove(At(reg.userIndex, other), session);
  }

  lemma IndexAfterInsert(reg: Reg.State, tenant: string, user: string, session: string, conn: nat, other: string)
    ensures |At(Reg.Insert(reg, tenant, user, session, conn).userIndex, other)|
         <= |At(reg.userIndex, other)| + if other == user then 1 else 0
  {
    CardAdd(At(reg.userIndex, other), session);
  }

  /** One step of any connection. `max` is the limit of the user's tenant. */
  lemma StepBounded(cfg: Tenants, g: State, e: Event, user: string, max: nat, k: nat)
    requires Reg.Agrees(g.reg) && Enabled(g, e)
    requires max >= 1 && k >= 1 && Bounded(g, user, max, k)
    requires e.Arrive? && UserKey(e.id) == user ==> cfg(e.id.tenant).policy.sessions.maxSessionsPerUser == max
    requires |InFlight(Step(cfg, g, e).conns, user)| <= k
    ensures Bounded(Step(cfg, g, e), user, max, k)
  {
    hide UserKey, SessionKey, RoomKey, At, ClearedOf, InFlight, Reg.Agrees, Reg.Remove, Reg.Insert, Reg.Full,
      Pres.Cleanup, Pres.Admit, Pres.Leave, Pres.Verdict;
    var next := Step(cfg, g, e);
    ClearedWithin(next.conns, user);
    match e
    case Arrive(c, id) => ClearedAfter(g.conns, c, next.conns[c], user);
    case Evict(c) =>
      ClearedAfter(g.conns, c, next.conns[c], user);
      EvictBounded(g, c, user);
    case Kick(c) => ClearedAfter(g.conns, c, next.conns[c], user);
    case Admit(c) =>
      ClearedAfter(g.conns, c, next.conns[c], user);
      var id := g.conns[c].id;
      IndexAfterInsert(g.reg, id.tenant, UserKey(id), SessionKey(id), c, user);
    case JoinRoom(c, _) => ClearedAfter(g.conns, c, next.conns[c], user);
    case LeaveActive(c) => ClearedAfter(g.conns, c, next.conns[c], user);
    case Disconnect(c) =>
      ClearedAfter(g.conns, c, next.conns[c], user);
      IndexAfterRemove(g.reg, UserKey(g.conns[c].id), user, SessionKey(g.conns[c].id));
    case Sweep(c) => ClearedAfter(g.conns, c, next.conns[c], user);
  }

  /** Eviction makes the room that its own connection then takes. */
  lemma EvictBounded(g: State, c: nat, user: string)
    requires Reg.Agrees(g.reg) && c in g.conns
    ensures UserKey(g.conns[c].id) == user && At(g.reg.userIndex, user) != {} ==>
              |At(OnEvict(g, c).reg.userIndex, user)| == |At(g.reg.userIndex, user)| - 1
    ensures UserKey(g.conns[c].id) != user || At(g.reg.userIndex, user) == {} ==>
              |At(OnEvict(g, c).reg.userIndex, user)| == |At(g.reg.userIndex, user)|
  {
    hide UserKey, At, Reg.Agrees, Reg.Remove;
    var owner := UserKey(g.conns[c].id);
    var victim := Reg.Oldest(g.reg, owner);
    Reg.OldestExists(g.reg, owner);
    if victim.Some? { IndexAfterRemove(g.reg, owner, user, victim.value); }
  }

  lemma {:induction false} RunBounded(cfg: Tenants, g: State, events: seq<Event>, user: string, max: nat, k: nat)
    requires Coherent(cfg, g) && WellFormedEvents(events) && max >= 1 && k >= 1
    requires forall id :: WellFormed(id) && UserKey(id) == user ==>
               cfg(id.tenant).policy.sessions.maxSessionsPerUser == max
    requires Bounded(g, user, max, k) && AtMostInFlight(cfg, g, events, user, k)
    ensures Bounded(Execute(cfg, g, events), user, max, k)
    decreases |events|
  {
    hide Bounded, Enabled, Step, InFlight, UserKey, WellFormed, Reg.Agrees, Sound, Identified, Backed, Housed;
    if |events| != 0 {
      var next := if Enabled(g, events[0]) then Step(cfg, g, events[0]) else g;
      if Enabled(g, events[0]) {
        StepCoherent(cfg, g, events[0]);
        assert AtMostInFlight(cfg, next, events[1..], user, k);
        StepBounded(cfg, g, events[0], user, max, k);
      }
      RunBounded(cfg, next, events[1..], user, max, k);
    }
  }

  /** With at most `k` overlapping connects, a user never has more than the limit plus k - 1
      registered sessions, in both the deny and the kick-oldest mode. */
  lemma OvershootBounded(cfg: Tenants, events: seq<Event>, id: Identity, k: nat)
    requires Validated(cfg) && WellFormedEvents(events) && WellFormed(id) && k >= 1
    requires AtMostInFlight(cfg, INIT, events, UserKey(id), k)
    ensures |At(Execute(cfg, INIT, events).reg.userIndex, UserKey(id))|
         <= cfg(id.tenant).policy.sessions.maxSessionsPerUser + k - 1
  {
    hide AtMostInFlight, Execute, UserKey, WellFormed, Coherent;
    var max := cfg(id.tenant).policy.sessions.maxSessionsPerUser;
    assert max >= 1 by { ValidatedPositive(cfg, id.tenant); }
    InitCoherent(cfg);
    forall other | WellFormed(other) && UserKey(other) == UserKey(id) ensures other.tenant == id.tenant {
      IdentityReadsBack(other, "");
      IdentityReadsBack(id, "");
    }
    assert ClearedOf(INIT.conns, UserKey(id)) == {};
    RunBounded(cfg, INIT, events, UserKey(id), max, k);
  }

  lemma ValidatedPositive(cfg: Tenants, tenant: string)
    requires Validated(cfg)
    ensures cfg(tenant).policy.sessions.maxSessionsPerUser >= 1
    ensures cfg(tenant).policy.sessions.mode == Single ==> cfg(tenant).policy.sessions.maxSessionsPerUser == 1
  {
    assert Validate(cfg(tenant).policy) == None;
  }

  /** One connect at a time under a validated single-session policy: at most one session. */
  lemma SingleMeansOne(cfg: Tenants, events: seq<Event>, id: Identity)
    requires Validated(cfg) && WellFormedEvents(events) && WellFormed(id)
    requires cfg(id.tenant).policy.sessions.mode == Single
    requires AtMostInFlight(cfg, INIT, events, UserKey(id), 1)
    ensures |At(Execute(cfg, INIT, events).reg.userIndex, UserKey(id))| <= 1
  {
    hide AtMostInFlight, Execute, UserKey, WellFormed;
    ValidatedPositive(cfg, id.tenant);
    OvershootBounded(cfg, events, id, 1);
  }

  // ---- the bound is attained ----

  /** The user's connection number `i`, with a session id of its own. */
  function Tab(id: Identity, i: nat): Identity {
    id.(sid := seq(i, _ => 'x'))
  }

  lemma TabKeys(id: Identity, i: nat)
    ensures UserKey(Tab(id, i)) == UserKey(id) && |SessionKey(Tab(id, i))| == |UserKey(id)| + 2 + i
    ensures Tab(id, i).tenant == id.tenant && (WellFormed(id) ==> WellFormed(Tab(id, i)))
  {
  }

  /** Fill up to one below the limit one connect at a time, then let `k` connects count before
      any of them inserts. `n` connections are registered by now and `p` more have counted. */
  function Pileup(id: Identity, max: nat, k: nat, n: nat, p: nat): seq<Event>
    requires n + p < max + k
    decreases 2 * (max + k - n) - p
  {
    if n + p < max + k - 1 && !(n < max - 1 && p == 1)
    then [Arrive(n + p, Tab(id, n + p))] + Pileup(id, max, k, n, p + 1)
    else if p > 0 then [Admit(n)] + Pileup(id, max, k, n + 1, p - 1)
    else []
  }

  ghost predicate Stage(g: State, id: Identity, n: nat, p: nat) {
    && (forall c :: c in g.conns <==> 0 <= c < n + p)
    && (forall c :: 0 <= c < n + p ==> g.conns[c] == Conn(Tab(id, c), if c < n then Live(None) else Pending))
    && At(g.reg.userIndex, UserKey(id)) == (set i | 0 <= i < n :: SessionKey(Tab(id, i)))
    && CountOf(g.reg.tenantCounts, id.tenant) == n
  }

  lemma {:induction false} TabCount(id: Identity, n: nat)
    ensures |set i | 0 <= i < n :: SessionKey(Tab(id, i))| == n
  {
    var keys := set i | 0 <= i < n :: SessionKey(Tab(id, i));
    if n > 0 {
      TabCount(id, n - 1);
      var fewer := set i | 0 <= i < n - 1 :: SessionKey(Tab(id, i));
      var last := SessionKey(Tab(id, n - 1));
      assert keys == fewer + {last};
      forall i | 0 <= i < n ensures |SessionKey(Tab(id, i))| == |UserKey(id)| + 2 + i { TabKeys(id, i); }
      assert last !in fewer;
    }
  }

  lemma {:induction false} RangeCount(waiting: set<nat>, n: nat, p: nat)
    requires forall c :: c in waiting <==> n <= c < n + p
    ensures |waiting| == p
  {
    if p > 0 { RangeCount(waiting - {n + p - 1}, n, p - 1); } else { assert waiting == {}; }
  }

  lemma StageInFlight(g: State, id: Identity, n: nat, p: nat)
    requires Stage(g, id, n, p)
    ensures |InFlight(g.conns, UserKey(id))| == p
  {
    hide SessionKey;
    RangeCount(InFlight(g.conns, UserKey(id)), n, p);
  }

  lemma StageArrives(cfg: Tenants, g: State, id: Identity, n: nat, p: nat)
    requires Stage(g, id, n, p) && n < cfg(id.tenant).policy.sessions.maxSessionsPerUser
    ensures Enabled(g, Arrive(n + p, Tab(id, n + p)))
    ensures Step(cfg, g, Arrive(n + p, Tab(id, n + p))) == OnArrive(cfg, g, n + p, Tab(id, n + p))
    ensures Stage(OnArrive(cfg, g, n + p, Tab(id, n + p)), id, n, p + 1)
  {
    hide SessionKey, UserKey, Tab, WellFormed;
    TabKeys(id, n + p);
    TabCount(id, n);
  }

  lemma StageAdmits(cfg: Tenants, g: State, id: Identity, n: nat, p: nat)
    requires Stage(g, id, n, p) && p > 0
    requires var cap := cfg(id.tenant).limits.maxSessionsTotal; cap == 0 || n < cap
    ensures n in g.conns && Enabled(g, Admit(n)) && Step(cfg, g, Admit(n)) == OnAdmit(cfg, g, n)
    ensures Stage(OnAdmit(cfg, g, n), id, n + 1, p - 1)
  {
    hide SessionKey, UserKey, Tab, WellFormed;
    TabKeys(id, n);
    assert (set i | 0 <= i < n + 1 :: SessionKey(Tab(id, i)))
        == (set i | 0 <= i < n :: SessionKey(Tab(id, i))) + {SessionKey(Tab(id, n))};
  }

  /** How many are registered at the end, and that at most `k` overlap on the way, when filling
      up to `max` does not pass the user's limit nor the whole of it the tenant's cap. */
  lemma {:induction false} PileupRuns(cfg: Tenants, g: State, id: Identity, max: nat, k: nat, n: nat, p: nat)
    requires WellFormed(id) && 1 <= max <= PerUser(cfg)(id.tenant) && k >= 1
    requires var cap := cfg(id.tenant).limits.maxSessionsTotal; cap == 0 || max + k - 1 <= cap
    requires n + p < max + k && p <= k && (n < max - 1 ==> p <= 1) && (n >= max ==> n + p == max + k - 1)
    requires Stage(g, id, n, p)
    ensures var events := Pileup(id, max, k, n, p);
            && WellFormedEvents(events)
            && AtMostInFlight(cfg, g, events, UserKey(id), k)
            && |At(Execute(cfg, g, events).reg.userIndex, UserKey(id))| == max + k - 1
    decreases 2 * (max + k - n) - p
  {
    hide Stage, Enabled, Step, OnArrive, OnAdmit, WellFormed, UserKey, SessionKey, Tab, InFlight, AtMostInFlight,
      Execute, WellFormedEvents;
    var user := UserKey(id);
    StageInFlight(g, id, n, p);
    if n + p < max + k - 1 && !(n < max - 1 && p == 1) {
      var next := OnArrive(cfg, g, n + p, Tab(id, n + p));
      StageArrives(cfg, g, id, n, p);
      TabKeys(id, n + p);
      PileupRuns(cfg, next, id, max, k, n, p + 1);
      RunsOn(cfg, g, next, Arrive(n + p, Tab(id, n + p)), Pileup(id, max, k, n, p + 1), user, k);
    } else if p > 0 {
      StageAdmits(cfg, g, id, n, p);
      PileupRuns(cfg, OnAdmit(cfg, g, n), id, max, k, n + 1, p - 1);
      RunsOn(cfg, g, OnAdmit(cfg, g, n), Admit(n), Pileup(id, max, k, n + 1, p - 1), user, k);
    } else {
      StageCount(g, id, n, p);
      RunsOut(cfg, g, user, k);
    }
  }

  /** A step in front of a run. */
  lemma RunsOn(cfg: Tenants, g: State, next: State, e: Event, rest: seq<Event>, user: string, k: nat)
    requires Enabled(g, e) && Step(cfg, g, e) == next && (e.Arrive? ==> WellFormed(e.id))
    requires |InFlight(g.conns, user)| <= k
    requires WellFormedEvents(rest) && AtMostInFlight(cfg, next, rest, user, k)
    ensures WellFormedEvents([e] + rest) && AtMostInFlight(cfg, g, [e] + rest, user, k)
    ensures Execute(cfg, g, [e] + rest) == Execute(cfg, next, rest)
  {
    hide Enabled, Step, WellFormed, InFlight;
    assert ([e] + rest)[1..] == rest;
  }

  lemma RunsOut(cfg: Tenants, g: State, user: string, k: nat)
    requires |InFlight(g.conns, user)| <= k
    ensures WellFormedEvents([]) && AtMostInFlight(cfg, g, [], user, k) && Execute(cfg, g, []) == g
  {
  }

  lemma StageCount(g: State, id: Identity, n: nat, p: nat)
    requires Stage(g, id, n, p)
    ensures |At(g.reg.userIndex, UserKey(id))| == n
  {
    TabCount(id, n);
  }

  lemma StageInit(id: Identity)
    ensures Stage(INIT, id, 0, 0)
  {
  }

  /** The most sessions that `k` overlapping connects can give a user: the limit plus k - 1, or
      the tenant's cap if that is less. */
  function Peak(tenant: TenantConfig, k: nat): nat
    requires k >= 1
  {
    var cap, most := tenant.limits.maxSessionsTotal, tenant.policy.sessions.maxSessionsPerUser + k - 1;
    if cap == 0 || most <= cap then most else cap
  }

  lemma {:induction false} FewerInFlight(cfg: Tenants, g: State, events: seq<Event>, user: string, j: nat, k: nat)
    requires j <= k && AtMostInFlight(cfg, g, events, user, j)
    ensures AtMostInFlight(cfg, g, events, user, k)
    decreases |events|
  {
    hide Enabled, Step, InFlight;
    if |events| != 0 {
      FewerInFlight(cfg, if Enabled(g, events[0]) then Step(cfg, g, events[0]) else g, events[1..], user, j, k);
    }
  }

  /** A run that reaches the peak: how far it fills up, and how many then overlap. */
  function PeakRun(tenant: TenantConfig, id: Identity, k: nat): seq<Event>
    requires k >= 1
  {
    var cap, max := tenant.limits.maxSessionsTotal, tenant.policy.sessions.maxSessionsPerUser;
    if cap == 0 || max + k - 1 <= cap then Pileup(id, max, k, 0, 0)
    else if cap >= max then Pileup(id, max, cap - max + 1, 0, 0)
    else Pileup(id, cap, 1, 0, 0)
  }

  /** For every limit, cap, overlap and either mode that run registers as many as the peak. */
  lemma OvershootAttained(cfg: Tenants, id: Identity, k: nat)
    requires Validated(cfg) && WellFormed(id) && k >= 1
    ensures var events := PeakRun(cfg(id.tenant), id, k);
            && WellFormedEvents(events) && AtMostInFlight(cfg, INIT, events, UserKey(id), k)
            && |At(Execute(cfg, INIT, events).reg.userIndex, UserKey(id))| == Peak(cfg(id.tenant), k)
  {
    hide UserKey, Execute, AtMostInFlight, WellFormed, Pileup;
    ValidatedPositive(cfg, id.tenant);
    assert Stage(INIT, id, 0, 0) by { StageInit(id); }
    hide Stage;
    var cap, max := cfg(id.tenant).limits.maxSessionsTotal, PerUser(cfg)(id.tenant);
    if cap == 0 || max + k - 1 <= cap {
      PileupRuns(cfg, INIT, id, max, k, 0, 0);
    } else if cap >= max {
      PileupRuns(cfg, INIT, id, max, cap - max + 1, 0, 0);
      FewerInFlight(cfg, INIT, PeakRun(cfg(id.tenant), id, k), UserKey(id), cap - max + 1, k);
    } else {
      PileupRuns(cfg, INIT, id, cap, 1, 0, 0);
      FewerInFlight(cfg, INIT, PeakRun(cfg(id.tenant), id, k), UserKey(id), 1, k);
    }
  }

  lemma UserWithinTenant(reg: Reg.State, id: Identity)
    requires Reg.Agrees(reg) && WellFormed(id)
    ensures |At(reg.userIndex, UserKey(id))| <= |Reg.TenantSessions(reg.sessions, id.tenant)|
  {
    hide Owner, TenantOf, ProperUser, UserKey, WellFormed, Reg.Stamped, Reg.CountsCover;
    IdentityReadsBack(id, "");
    forall s | s in At(reg.userIndex, UserKey(id)) ensures s in Reg.TenantSessions(reg.sessions, id.tenant) {}
    CardSubset(At(reg.userIndex, UserKey(id)), Reg.TenantSessions(reg.sessions, id.tenant));
  }

  /** No run with at most `k` overlapping connects passes the peak, which `OvershootAttained`
      reaches. */
  lemma PeakBounds(cfg: Tenants, events: seq<Event>, id: Identity, k: nat)
    requires Validated(cfg) && WellFormedEvents(events) && WellFormed(id) && k >= 1
    requires AtMostInFlight(cfg, INIT, events, UserKey(id), k)
    ensures |At(Execute(cfg, INIT, events).reg.userIndex, UserKey(id))| <= Peak(cfg(id.tenant), k)
  {
    hide UserKey, Execute, AtMostInFlight, WellFormed, Sound, Identified, Backed, Housed, Reg.Agrees,
      Reg.TenantSessions;
    OvershootBounded(cfg, events, id, k);
    if cfg(id.tenant).limits.maxSessionsTotal > 0 {
      InitCoherent(cfg);
      RunCoherent(cfg, INIT, events);
      UserWithinTenant(Execute(cfg, INIT, events).reg, id);
      TenantSessionsCapped(cfg, events, id.tenant);
    }
  }

  /** The configured limit holds in every run with at most `k` overlapping connects exactly
      when connects do not overlap, or the tenant's cap is no higher than the limit. */
  lemma LimitHoldsIff(cfg: Tenants, id: Identity, k: nat)
    requires Validated(cfg) && WellFormed(id) && k >= 1
    ensures (forall events :: WellFormedEvents(events) && AtMostInFlight(cfg, INIT, events, UserKey(id), k) ==>
              |At(Execute(cfg, INIT, events).reg.userIndex, UserKey(id))| <= PerUser(cfg)(id.tenant))
       <==> k == 1 || 0 < cfg(id.tenant).limits.maxSessionsTotal <= PerUser(cfg)(id.tenant)
  {
    hide UserKey, Execute, AtMostInFlight, WellFormed, PeakRun;
    OvershootAttained(cfg, id, k);
    if Peak(cfg(id.tenant), k) <= PerUser(cfg)(id.tenant) {
      forall events | WellFormedEvents(events) && AtMostInFlight(cfg, INIT, events, UserKey(id), k)
        ensures |At(Execute(cfg, INIT, events).reg.userIndex, UserKey(id))| <= PerUser(cfg)(id.tenant)
      {
        PeakBounds(cfg, events, id, k);
      }
    }
  }

  // ---- connect-only runs ----

  /** Connects one after another, each undisturbed; a connection's number is its position. */
  function Serially(ids: seq<Identity>): seq<Event> {
    if |ids| == 0 then []
    else
      var c := |ids|;
      Serially(ids[..c - 1]) + [Arrive(c, ids[c - 1]), Evict(c), Kick(c), Admit(c)]
  }

  /** The tenant kicks its users' oldest sessions and has no cap of its own. */
  predicate Kicks(tenant: TenantConfig) {
    && tenant.policy.sessions.onExceed == KickOldest && tenant.limits.maxSessionsTotal == 0
    && tenant.policy.sessions.maxSessionsPerUser >= 1
  }

  lemma ConnectSteps(cfg: Tenants, g: State, c: nat, id: Identity)
    requires Kicks(cfg(id.tenant)) && Reg.Agrees(g.reg) && c !in g.conns
    ensures var next := Execute(cfg, g, [Arrive(c, id), Evict(c), Kick(c), Admit(c)]);
            && next.reg == Reg.Connect(g.reg, PerUser(cfg)(id.tenant), id, c)
            && next.conns.Keys == g.conns.Keys + {c}
  {
    hide Execute, UserKey, SessionKey, At, Reg.Agrees, Reg.IsOldest, Reg.Remove, Reg.Insert, Pres.Cleanup;
    Reg.OldestExists(g.reg, UserKey(id));
    ExecuteFour(cfg, g, Arrive(c, id), Evict(c), Kick(c), Admit(c));
  }

  lemma {:induction false} SerialConnects(cfg: Tenants, ids: seq<Identity>)
    requires Reg.FreshKeys(ids) && forall i :: 0 <= i < |ids| ==> Kicks(cfg(ids[i].tenant))
    ensures Execute(cfg, INIT, Serially(ids)).reg == Reg.ConnectAll(PerUser(cfg), ids)
    ensures forall c :: c in Execute(cfg, INIT, Serially(ids)).conns ==> 1 <= c <= |ids|
    decreases |ids|
  {
    hide Execute, UserKey, SessionKey, WellFormed, Reg.Agrees, Reg.Lists, Reg.Connect;
    if |ids| == 0 {
      ExecuteNone(cfg, INIT);
    } else {
      var init, c, id := ids[..|ids| - 1], |ids|, ids[|ids| - 1];
      SerialConnects(cfg, init);
      Reg.ConnectAllLists(PerUser(cfg), init, "");
      ExecuteConcat(cfg, INIT, Serially(init), [Arrive(c, id), Evict(c), Kick(c), Admit(c)]);
      ConnectSteps(cfg, Execute(cfg, INIT, Serially(init)), c, id);
    }
  }

  /** A connect-only kick-oldest run with fresh keys leaves each user exactly the last
      `max_sessions_per_user` admissions. */
  lemma LastAdmissionsRemain(cfg: Tenants, ids: seq<Identity>, user: string, session: string)
    requires Reg.FreshKeys(ids) && forall i :: 0 <= i < |ids| ==> Kicks(cfg(ids[i].tenant))
    ensures session in Execute(cfg, INIT, Serially(ids)).reg.sessions && Owner(session) == user
       <==> session in Reg.LastOf(Reg.KeysOf(ids, user), PerUser(cfg)(TenantOf(user)))
  {
    hide Execute, Owner, TenantOf, Reg.ConnectAll, Reg.KeysOf, Reg.LastOf, Reg.FreshKeys;
    SerialConnects(cfg, ids);
    Reg.LastConnectsRemain(PerUser(cfg), ids, user, session);
  }
}

/** Theorems about whole runs of the connection protocol. */
module Lifecycle {
  import opened Keys
  import opened Multimaps
  import opened Options
  import opened Config
  import Reg = RegistrySpec
  import Pres = PresenceSpec
  import opened PresenceLimits
  import opened PresenceInvariants
  import opened PresenceRefinement
  import opened Gateway

  // ---- teardown conservation ----

  /** Every admitted connection has run its cleanup. */
  ghost predicate AllDown(g: State) {
    forall c :: c in g.conns ==> !g.conns[c].phase.Live? && !g.conns[c].phase.Leaving?
  }

  lemma EmptyByContents(m: Multimap)
    requires NoEmptySets(m) && forall k :: At(m, k) == {}
    ensures m == map[]
  {
    Extensional(m, map[]);
  }

  lemma DownEmpties(cfg: Tenants, g: State)
    requires Coherent(cfg, g) && AllDown(g)
    ensures g.reg.sessions == map[] && g.reg.userIndex == map[]
    ensures g.pres.roomSessions == map[] && g.pres.sessionRooms == map[]
    ensures forall tenant :: CountOf(g.pres.roomCounts, tenant) == 0
  {
    hide Within, Owned, RefsMatch, TenantOf, Owner, Key, Reg.Stamped, Reg.Tenanted, Reg.CountsCover;
    forall s ensures s !in g.reg.sessions {}
    forall u ensures At(g.reg.userIndex, u) == {} {
      forall s ensures s !in At(g.reg.userIndex, u) {
        assert Reg.Indexed(g.reg);
        assert s in At(g.reg.userIndex, u) <==> s in g.reg.sessions && Owner(s) == u;
      }
    }
    EmptyByContents(g.reg.userIndex);
    forall s ensures At(g.pres.sessionRooms, s) == {} {}
    EmptyByContents(g.pres.sessionRooms);
    forall r ensures At(g.pres.roomSessions, r) == {} {
      forall s ensures s !in At(g.pres.roomSessions, r) {
        assert s in At(g.pres.roomSessions, r) <==> r in At(g.pres.sessionRooms, s);
      }
    }
    EmptyByContents(g.pres.roomSessions);
    forall tenant ensures CountOf(g.pres.roomCounts, tenant) == 0 {
      assert TenantRooms(g.pres.roomSessions, tenant) == {};
    }
  }

  /** Any run: once everybody is down, the session table, its index and both routing maps
      are empty and every tenant's room counter is 0. */
  lemma TeardownEmpties(cfg: Tenants, events: seq<Event>)
    requires WellFormedEvents(events) && AllDown(Execute(cfg, INIT, events))
    ensures var g := Execute(cfg, INIT, events);
            && g.reg.sessions == map[] && g.reg.userIndex == map[]
            && g.pres.roomSessions == map[] && g.pres.sessionRooms == map[]
            && forall tenant :: CountOf(g.pres.roomCounts, tenant) == 0
  {
    hide Coherent, AllDown, Execute;
    InitCoherent(cfg);
    RunCoherent(cfg, INIT, events);
    DownEmpties(cfg, Execute(cfg, INIT, events));
  }

  // ---- fresh keys and quiet victims ----

  /** No two connections ever carry one session key. */
  ghost predicate Unique(conns: map<nat, Conn>) {
    forall c, d :: c in conns && d in conns && Key(conns[c]) == Key(conns[d]) ==> c == d
  }

  /** The caller's side: an arriving connection brings a new session key, and a connection
      that has lost its registration does not leave a room that it was cleared from while its
      user is still listed there. */
  ghost predicate Courteous(g: State, e: Event) {
    match e
    case Arrive(_, id) => WellFormed(id) && forall d :: d in g.conns ==> Key(g.conns[d]) != SessionKey(id)
    case LeaveActive(c) => c in g.conns && g.conns[c].phase.Live? ==>
      || Key(g.conns[c]) in g.reg.sessions
      || g.conns[c].phase.activeRoom.None?
      || InActiveRoom(g, g.conns[c])
      || !UserListed(g, g.conns[c])
    case _ => true
  }

  /** The connection's user has a reference in its active room. */
  predicate UserListed(g: State, conn: Conn)
    requires conn.phase.Live? && conn.phase.activeRoom.Some?
  {
    RefKey(UserKey(conn.id), RoomKey(conn.id.tenant, conn.phase.activeRoom.value)) in g.pres.refs
  }

  /** The connection's active room holds its session. */
  predicate InActiveRoom(g: State, conn: Conn)
    requires conn.phase.Live? && conn.phase.activeRoom.Some?
  {
    Key(conn) in At(g.pres.roomSessions, RoomKey(conn.id.tenant, conn.phase.activeRoom.value))
  }

  /** Courteous, and joining only rooms the session is not in. */
  ghost predicate Careful(g: State, e: Event) {
    Courteous(g, e) &&
    (e.JoinRoom? && e.c in g.conns ==>
      Key(g.conns[e.c]) !in At(g.pres.roomSessions, RoomKey(g.conns[e.c].id.tenant, e.room)))
  }

  ghost predicate CourteousRun(cfg: Tenants, g: State, events: seq<Event>)
    decreases |events|
  {
    |events| == 0 ||
    (Enabled(g, events[0]) && Courteous(g, events[0]) && CourteousRun(cfg, Step(cfg, g, events[0]), events[1..]))
  }

  ghost predicate CarefulRun(cfg: Tenants, g: State, events: seq<Event>)
    decreases |events|
  {
    |events| == 0 ||
    (Enabled(g, events[0]) && Careful(g, events[0]) && CarefulRun(cfg, Step(cfg, g, events[0]), events[1..]))
  }

  ghost predicate Admitted(conns: map<nat, Conn>, s: string) {
    exists d :: d in conns && Key(conns[d]) == s
      && (conns[d].phase.Live? || conns[d].phase.Leaving? || conns[d].phase.Gone?)
  }

  /** A victim being cleared is unregistered, and its connection was admitted before. */
  ghost predicate VictimsOut(g: State) {
    forall c :: c in g.conns && g.conns[c].phase.Kicking? ==>
      g.conns[c].phase.victim !in g.reg.sessions && Admitted(g.conns, g.conns[c].phase.victim)
  }

  /** A registered connection's active room holds its session. */
  ghost predicate ActiveSound(g: State) {
    forall c :: c in g.conns && g.conns[c].phase.Live? && g.conns[c].phase.activeRoom.Some?
                && Key(g.conns[c]) in g.reg.sessions ==>
      InActiveRoom(g, g.conns[c])
  }

  ghost predicate Orderly(cfg: Tenants, g: State) {
    Coherent(cfg, g) && Unique(g.conns) && VictimsOut(g) && ActiveSound(g) && Covered(g.pres)
  }

  lemma InitOrderly(cfg: Tenants)
    ensures Orderly(cfg, INIT) && Exact(INIT.pres) && Reg.CountsExact(INIT.reg)
  {
    InitCoherent(cfg);
    EmptyRepresents();
    Reg.EmptyAgrees();
  }

  lemma AdmittedGrows(conns: map<nat, Conn>, c: nat, conn: Conn, s: string)
    requires Admitted(conns, s)
    requires c in conns ==> conn.id == conns[c].id
    requires c in conns && (conns[c].phase.Live? || conns[c].phase.Leaving? || conns[c].phase.Gone?) ==>
               conn.phase.Live? || conn.phase.Leaving? || conn.phase.Gone?
    ensures Admitted(conns[c := conn], s)
  {
    hide SessionKey;
    var d :| d in conns && Key(conns[d]) == s
      && (conns[d].phase.Live? || conns[d].phase.Leaving? || conns[d].phase.Gone?);
    assert d in conns[c := conn] && Key(conns[c := conn][d]) == s;
  }

  /** Under unique keys nobody else can hold the key of a connection still to be admitted. */
  lemma PendingUnregistered(g: State, c: nat)
    requires Unique(g.conns) && Backed(g) && c in g.conns && g.conns[c].phase.Pending?
    ensures Key(g.conns[c]) !in g.reg.sessions
    ensures !Admitted(g.conns, Key(g.conns[c]))
  {
    hide SessionKey;
  }

  lemma ArriveOrderly(cfg: Tenants, g: State, c: nat, id: Identity)
    requires Orderly(cfg, g) && Enabled(g, Arrive(c, id)) && Courteous(g, Arrive(c, id))
    ensures Orderly(cfg, OnArrive(cfg, g, c, id))
  {
    hide Backed, Coherent, Covered, WellFormed, UserKey, SessionKey, RoomKey, At, Admitted;
    ArriveCoherent(cfg, g, c, id);
    var next := OnArrive(cfg, g, c, id);
    forall d | d in g.conns && g.conns[d].phase.Kicking? ensures Admitted(next.conns, g.conns[d].phase.victim) {
      AdmittedGrows(g.conns, c, next.conns[c], g.conns[d].phase.victim);
    }
  }

  lemma EvictOrderly(cfg: Tenants, g: State, c: nat)
    requires Orderly(cfg, g) && Enabled(g, Evict(c))
    ensures Orderly(cfg, OnEvict(g, c))
  {
    hide Coherent, Covered, WellFormed, UserKey, SessionKey, RoomKey, At, Del, Admitted, Reg.IsOldest;
    EvictCoherent(cfg, g, c);
    var next := OnEvict(g, c);
    forall d | d in g.conns && g.conns[d].phase.Kicking? ensures Admitted(next.conns, g.conns[d].phase.victim) {
      AdmittedGrows(g.conns, c, next.conns[c], g.conns[d].phase.victim);
    }
    var victim := Reg.Oldest(g.reg, UserKey(g.conns[c].id));
    if victim.Some? {
      assert victim.value in g.reg.sessions by { OldestRegistered(g.reg, UserKey(g.conns[c].id), victim.value); }
      RegisteredAdmitted(cfg, g, victim.value);
      AdmittedGrows(g.conns, c, next.conns[c], victim.value);
    }
  }

  lemma OldestRegistered(reg: Reg.State, user: string, victim: string)
    requires Reg.IsOldest(reg, user, victim)
    ensures victim in reg.sessions
  {
  }

  lemma RegisteredAdmitted(cfg: Tenants, g: State, s: string)
    requires Coherent(cfg, g) && s in g.reg.sessions
    ensures Admitted(g.conns, s)
  {
    hide Sound, Housed, Reg.Agrees, Identified, SessionKey;
    assert g.reg.sessions[s].conn in g.conns;
  }

  /** Clearing rooms of an unregistered session keeps the registered ones where they are. */
  lemma CleanupKeepsActive(g: State, g1: State, session: string)
    requires ActiveSound(g) && g1.conns == g.conns && g1.reg == g.reg
    requires forall c :: c in g.conns && g.conns[c].phase.Live? && Key(g.conns[c]) in g.reg.sessions ==>
               Key(g.conns[c]) != session
    requires forall room :: At(g1.pres.roomSessions, room) == At(g.pres.roomSessions, room) - {session}
    ensures ActiveSound(g1)
  {
    hide SessionKey, RoomKey, At;
  }

  lemma KickOrderly(cfg: Tenants, g: State, c: nat)
    requires Orderly(cfg, g) && Enabled(g, Kick(c))
    ensures Orderly(cfg, OnKick(g, c))
    ensures Exact(OnKick(g, c).pres) <==> Exact(g.pres)
  {
    hide Backed, Housed, Reg.Agrees, Covered, Exact, Structured, Owned, Within, WellFormed, UserKey, SessionKey,
      RoomKey, ConsistentSession, At, Admitted, Pres.Cleanup;
    KickCoherent(cfg, g, c);
    var id, victim := g.conns[c].id, g.conns[c].phase.victim;
    CleanupSound(g.pres, id.tenant, UserKey(id), victim, LimitsOf(cfg));
    CleanupCounts(g.pres, id.tenant, UserKey(id), victim);
    var next := OnKick(g, c);
    forall d | d in g.conns && g.conns[d].phase.Kicking? ensures Admitted(next.conns, g.conns[d].phase.victim) {
      AdmittedGrows(g.conns, c, next.conns[c], g.conns[d].phase.victim);
    }
    CleanupKeepsActive(g, g.(pres := next.pres), victim);
  }

  lemma AdmitOrderly(cfg: Tenants, g: State, c: nat)
    requires Orderly(cfg, g) && Enabled(g, Admit(c))
    ensures Orderly(cfg, OnAdmit(cfg, g, c))
    ensures Reg.CountsExact(g.reg) ==> Reg.CountsExact(OnAdmit(cfg, g, c).reg)
  {
    hide Housed, Reg.Agrees, Sound, Backed, Covered, Exact, WellFormed, UserKey, SessionKey, RoomKey,
      ConsistentSession, At, Put, Admitted, Reg.Full, Reg.CountsExact;
    AdmitCoherent(cfg, g, c);
    var id := g.conns[c].id;
    PendingUnregistered(g, c);
    assert TenantOf(SessionKey(id)) == id.tenant by { IdentityReadsBack(id, ""); }
    Reg.InsertCounts(g.reg, id.tenant, UserKey(id), SessionKey(id), c);
    var next := OnAdmit(cfg, g, c);
    forall d | d in g.conns && g.conns[d].phase.Kicking?
      ensures Admitted(next.conns, g.conns[d].phase.victim) && g.conns[d].phase.victim != SessionKey(id)
    {
      AdmittedGrows(g.conns, c, next.conns[c], g.conns[d].phase.victim);
    }
  }

  lemma JoinInexact(pres: Pres.State, tenant: string, room: string, user: string, session: string)
    requires Structured(pres) && Consistent(tenant, room, user, session) && session in At(pres.roomSessions, room)
    requires Covered(pres)
    ensures !Exact(Pres.Admit(pres, tenant, room, user, session))
  {
    hide Structured, Consistent, Exact, Covered, At, Pres.Admit;
    if Exact(pres) {
      JoinExactIff(pres, tenant, room, user, session);
    } else {
      AdmitCounts(pres, tenant, room, user, session);
    }
  }

  lemma JoinOrderly(cfg: Tenants, g: State, c: nat, room: string)
    requires Orderly(cfg, g) && Enabled(g, JoinRoom(c, room)) && Courteous(g, JoinRoom(c, room))
    ensures Orderly(cfg, OnJoin(cfg, g, c, room))
    ensures Exact(OnJoin(cfg, g, c, room).pres) <==> Exact(g.pres) && Careful(g, JoinRoom(c, room))
  {
    hide Housed, Reg.Agrees, Structured, Owned, Within, Backed, Covered, Exact, WellFormed, UserKey, SessionKey,
      RoomKey, RefKey, Consistent, At, Put, Admitted, Pres.Verdict;
    JoinCoherent(cfg, g, c, room);
    var id := g.conns[c].id;
    KeysConsistent(id, room);
    AdmitCounts(g.pres, id.tenant, RoomKey(id.tenant, room), UserKey(id), SessionKey(id));
    if !Careful(g, JoinRoom(c, room)) {
      RejoinAccepted(g.pres, id.tenant, RoomKey(id.tenant, room), UserKey(id), SessionKey(id), cfg(id.tenant).limits);
      JoinInexact(g.pres, id.tenant, RoomKey(id.tenant, room), UserKey(id), SessionKey(id));
    }
    var next := OnJoin(cfg, g, c, room);
    forall d | d in g.conns && g.conns[d].phase.Kicking? ensures Admitted(next.conns, g.conns[d].phase.victim) {
      AdmittedGrows(g.conns, c, next.conns[c], g.conns[d].phase.victim);
    }
  }

  lemma LeaveOrderly(cfg: Tenants, g: State, c: nat)
    requires Orderly(cfg, g) && Enabled(g, LeaveActive(c)) && Courteous(g, LeaveActive(c))
    ensures Orderly(cfg, OnLeave(g, c))
    ensures Exact(OnLeave(g, c).pres) <==> Exact(g.pres)
  {
    hide Housed, Reg.Agrees, Owned, Within, Governance, Inverse, Counted, Backed, Covered, Exact, WellFormed,
      UserKey, SessionKey, RoomKey, Consistent, At, Admitted, Pres.Leave;
    LeaveCoherent(cfg, g, c);
    var id := g.conns[c].id;
    if g.conns[c].phase.activeRoom.Some? {
      var key := RoomKey(id.tenant, g.conns[c].phase.activeRoom.value);
      KeysConsistent(id, g.conns[c].phase.activeRoom.value);
      if SessionKey(id) in At(g.pres.roomSessions, key) {
        LeaveCounts(g.pres, id.tenant, key, UserKey(id), SessionKey(id));
      } else {
        assert Key(g.conns[c]) == SessionKey(id);
        LeaveNothing(g.pres, id.tenant, key, UserKey(id), SessionKey(id));
      }
      SoundNoEmpty(g.pres, LimitsOf(cfg));
      LeaveMembers(g.pres, id.tenant, key, UserKey(id), SessionKey(id));
      var next := OnLeave(g, c);
      forall d | d in g.conns && g.conns[d].phase.Kicking? ensures Admitted(next.conns, g.conns[d].phase.victim) {
        AdmittedGrows(g.conns, c, next.conns[c], g.conns[d].phase.victim);
      }
      LeaveKeepsActive(g, next, c);
    }
  }

  lemma SoundNoEmpty(pres: Pres.State, limits: Limits)
    requires Sound(pres, limits)
    ensures Pres.NoEmpty(pres)
  {
  }

  lemma LeaveKeepsActive(g: State, next: State, c: nat)
    requires ActiveSound(g) && Unique(g.conns) && c in g.conns && g.conns[c].phase.Live? && next.reg == g.reg
    requires next.conns == g.conns[c := g.conns[c].(phase := Live(None))]
    requires forall room :: At(g.pres.roomSessions, room) - {Key(g.conns[c])} <= At(next.pres.roomSessions, room)
    ensures ActiveSound(next)
  {
    hide SessionKey, RoomKey, At;
    forall d | d in next.conns && next.conns[d].phase.Live? && next.conns[d].phase.activeRoom.Some?
      && Key(next.conns[d]) in g.reg.sessions
      ensures Key(next.conns[d]) in At(next.pres.roomSessions,
                RoomKey(next.conns[d].id.tenant, next.conns[d].phase.activeRoom.value))
    {
      assert d != c && next.conns[d] == g.conns[d] && Key(g.conns[d]) != Key(g.conns[c]);
    }
  }

  lemma DisconnectOrderly(cfg: Tenants, g: State, c: nat)
    requires Orderly(cfg, g) && Enabled(g, Disconnect(c))
    ensures Orderly(cfg, OnDisconnect(g, c))
    ensures Reg.CountsExact(g.reg) ==> Reg.CountsExact(OnDisconnect(g, c).reg)
  {
    hide Housed, Sound, Backed, Covered, WellFormed, UserKey, SessionKey, RoomKey, At, Del, Admitted,
      Reg.CountsExact, Reg.CountsCover, Reg.Indexed, Reg.Stamped, Reg.Tenanted;
    DisconnectCoherent(cfg, g, c);
    var id := g.conns[c].id;
    Reg.RemoveCounts(g.reg, UserKey(id), SessionKey(id));
    var next := OnDisconnect(g, c);
    forall d | d in g.conns && g.conns[d].phase.Kicking? ensures Admitted(next.conns, g.conns[d].phase.victim) {
      AdmittedGrows(g.conns, c, next.conns[c], g.conns[d].phase.victim);
    }
  }

  lemma SweepOrderly(cfg: Tenants, g: State, c: nat)
    requires Orderly(cfg, g) && Enabled(g, Sweep(c))
    ensures Orderly(cfg, OnSweep(g, c))
    ensures Exact(OnSweep(g, c).pres) <==> Exact(g.pres)
  {
    hide Backed, Housed, Reg.Agrees, Covered, Exact, Structured, Owned, Within, WellFormed, UserKey, SessionKey,
      RoomKey, ConsistentSession, At, Admitted, Pres.Cleanup;
    SweepCoherent(cfg, g, c);
    var id := g.conns[c].id;
    SessionConsistent(id);
    CleanupSound(g.pres, id.tenant, UserKey(id), SessionKey(id), LimitsOf(cfg));
    CleanupCounts(g.pres, id.tenant, UserKey(id), SessionKey(id));
    var next := OnSweep(g, c);
    forall d | d in g.conns && g.conns[d].phase.Kicking? ensures Admitted(next.conns, g.conns[d].phase.victim) {
      AdmittedGrows(g.conns, c, next.conns[c], g.conns[d].phase.victim);
    }
    CleanupKeepsActive(g, g.(pres := next.pres), SessionKey(id));
  }

  lemma EvictExact(cfg: Tenants, g: State, c: nat)
    requires Orderly(cfg, g) && Enabled(g, Evict(c)) && Reg.CountsExact(g.reg)
    ensures Reg.CountsExact(OnEvict(g, c).reg)
  {
    hide Sound, Housed, Backed, Covered, UserKey, Reg.CountsExact, Reg.CountsCover, Reg.Indexed, Reg.Stamped,
      Reg.Tenanted, Reg.IsOldest, Reg.Remove;
    var victim := Reg.Oldest(g.reg, UserKey(g.conns[c].id));
    if victim.Some? { Reg.RemoveCounts(g.reg, UserKey(g.conns[c].id), victim.value); }
  }

  lemma StepOrderly(cfg: Tenants, g: State, e: Event)
    requires Orderly(cfg, g) && Enabled(g, e) && Courteous(g, e)
    ensures Orderly(cfg, Step(cfg, g, e))
    ensures Exact(Step(cfg, g, e).pres) <==> Exact(g.pres) && Careful(g, e)
    ensures Reg.CountsExact(g.reg) ==> Reg.CountsExact(Step(cfg, g, e).reg)
  {
    hide Orderly, Courteous, Exact, Reg.CountsExact, Enabled, At, Key, RoomKey, Pres.Cleanup, Reg.Remove, Reg.Insert,
      Pres.Admit, Pres.Leave;
    match e
    case Arrive(c, id) => ArriveOrderly(cfg, g, c, id);
    case Evict(c) => { EvictOrderly(cfg, g, c); if Reg.CountsExact(g.reg) { EvictExact(cfg, g, c); } }
    case Kick(c) => KickOrderly(cfg, g, c);
    case Admit(c) => AdmitOrderly(cfg, g, c);
    case JoinRoom(c, room) => JoinOrderly(cfg, g, c, room);
    case LeaveActive(c) => LeaveOrderly(cfg, g, c);
    case Disconnect(c) => DisconnectOrderly(cfg, g, c);
    case Sweep(c) => SweepOrderly(cfg, g, c);
  }

  lemma {:induction false} CourteousRunOrderly(cfg: Tenants, g: State, events: seq<Event>)
    requires Orderly(cfg, g) && CourteousRun(cfg, g, events)
    ensures Orderly(cfg, Execute(cfg, g, events))
    ensures Reg.CountsExact(g.reg) ==> Reg.CountsExact(Execute(cfg, g, events).reg)
    ensures Exact(Execute(cfg, g, events).pres) <==> Exact(g.pres) && CarefulRun(cfg, g, events)
    decreases |events|
  {
    hide Orderly, Courteous, Careful, Exact, Reg.CountsExact, Enabled, Step;
    if |events| != 0 {
      StepOrderly(cfg, g, events[0]);
      CourteousRunOrderly(cfg, Step(cfg, g, events[0]), events[1..]);
    }
  }

  /** In every courteous run a registered connection's active room holds its session, so each
      leave the message loop issues is a real one; and every reference count is at least the
      number of that user's sessions in the room, repeated joins included. */
  lemma ActiveRoomIsJoined(cfg: Tenants, events: seq<Event>)
    requires CourteousRun(cfg, INIT, events)
    ensures ActiveSound(Execute(cfg, INIT, events)) && Covered(Execute(cfg, INIT, events).pres)
  {
    hide ActiveSound, Coherent, Covered, VictimsOut, Unique, CourteousRun, Execute;
    InitOrderly(cfg);
    CourteousRunOrderly(cfg, INIT, events);
  }

  // ---- the victim's own teardown ----

  /** A session key of which neither the registry nor presence knows anything. */
  ghost predicate Forgotten(g: State, session: string) {
    session !in g.reg.sessions && At(g.pres.sessionRooms, session) == {}
  }

  /** Clearing an evicted session's rooms leaves no trace of it. */
  lemma KickForgets(cfg: Tenants, g: State, c: nat)
    requires Coherent(cfg, g) && Enabled(g, Kick(c)) && g.conns[c].phase.victim !in g.reg.sessions
    ensures Forgotten(OnKick(g, c), g.conns[c].phase.victim)
  {
    hide Housed, Backed, Reg.Agrees, Structured, Owned, Within, ConsistentSession, At, UserKey, WellFormed,
      Pres.Cleanup;
    var id := g.conns[c].id;
    CleanupSound(g.pres, id.tenant, UserKey(id), g.conns[c].phase.victim, LimitsOf(cfg));
  }

  /** The steps by which a connection with this session key could register or join again. */
  ghost predicate Revives(g: State, e: Event, session: string) {
    (e.Admit? || e.JoinRoom?) && e.c in g.conns && Key(g.conns[e.c]) == session
  }

  lemma StepKeepsForgotten(cfg: Tenants, g: State, e: Event, session: string)
    requires Coherent(cfg, g) && Enabled(g, e) && Forgotten(g, session) && !Revives(g, e, session)
    ensures Forgotten(Step(cfg, g, e), session)
  {
    hide UserKey, SessionKey, RoomKey, RefKey, WellFormed, ConsistentSession, Sound, Backed, Housed, Pres.Cleanup,
      At, Reg.Agrees, Reg.Oldest, OnJoin, OnLeave, Put, Del, DecrAt;
    match e
    case Arrive(_, _) =>
    case Evict(_) =>
    case Kick(c) => CleanupKeepsForgotten(cfg, g, g.conns[c].id, g.conns[c].phase.victim, session);
    case Admit(c) => assert Key(g.conns[c]) == SessionKey(g.conns[c].id);
    case JoinRoom(c, room) => JoinKeepsForgotten(cfg, g, c, room, session);
    case LeaveActive(c) => LeaveKeepsForgotten(cfg, g, c, session);
    case Disconnect(_) =>
    case Sweep(c) =>
      SessionConsistent(g.conns[c].id);
      CleanupKeepsForgotten(cfg, g, g.conns[c].id, SessionKey(g.conns[c].id), session);
  }

  lemma CleanupKeepsForgotten(cfg: Tenants, g: State, id: Identity, swept: string, session: string)
    requires Sound(g.pres, LimitsOf(cfg)) && ConsistentSession(id.tenant, UserKey(id), swept)
    requires At(g.pres.sessionRooms, session) == {}
    ensures At(Pres.Cleanup(g.pres, id.tenant, UserKey(id), swept).sessionRooms, session) == {}
  {
    hide UserKey, ConsistentSession, Sound, At, Pres.Cleanup;
    CleanupSound(g.pres, id.tenant, UserKey(id), swept, LimitsOf(cfg));
  }

  lemma JoinKeepsForgotten(cfg: Tenants, g: State, c: nat, room: string, session: string)
    requires c in g.conns && Forgotten(g, session) && Key(g.conns[c]) != session
    ensures Forgotten(OnJoin(cfg, g, c, room), session)
  {
    hide UserKey, SessionKey, RoomKey, RefKey, Pres.Verdict;
  }

  lemma LeaveKeepsForgotten(cfg: Tenants, g: State, c: nat, session: string)
    requires Coherent(cfg, g) && c in g.conns && g.conns[c].phase.Live? && Forgotten(g, session)
    ensures Forgotten(OnLeave(g, c), session)
  {
    hide UserKey, SessionKey, RoomKey, RefKey, WellFormed, Owned, Within, Backed, Housed, Identified, Reg.Agrees, At,
      Pres.Leave;
    if g.conns[c].phase.activeRoom.Some? {
      var id := g.conns[c].id;
      LeaveShrinks(g.pres, id.tenant, RoomKey(id.tenant, g.conns[c].phase.activeRoom.value), UserKey(id),
        SessionKey(id), LimitsOf(cfg));
    }
  }

  ghost predicate NeverRevived(cfg: Tenants, g: State, events: seq<Event>, session: string)
    decreases |events|
  {
    |events| == 0 ||
    (&& Enabled(g, events[0]) && !Revives(g, events[0], session)
     && NeverRevived(cfg, Step(cfg, g, events[0]), events[1..], session))
  }

  lemma {:induction false} RunKeepsForgotten(cfg: Tenants, g: State, events: seq<Event>, session: string)
    requires Coherent(cfg, g) && WellFormedEvents(events)
    requires Forgotten(g, session) && NeverRevived(cfg, g, events, session)
    ensures Coherent(cfg, Execute(cfg, g, events)) && Forgotten(Execute(cfg, g, events), session)
    decreases |events|
  {
    hide Coherent, WellFormed, Enabled, Step, Forgotten, Revives;
    if |events| != 0 {
      StepCoherent(cfg, g, events[0]);
      StepKeepsForgotten(cfg, g, events[0], session);
      RunKeepsForgotten(cfg, Step(cfg, g, events[0]), events[1..], session);
    }
  }

  lemma ForgottenTeardown(cfg: Tenants, g: State, c: nat)
    requires Coherent(cfg, g) && c in g.conns && g.conns[c].phase.Live? && Forgotten(g, Key(g.conns[c]))
    ensures var g1 := OnDisconnect(g, c);
            g1.reg == g.reg && g1.pres == g.pres && OnSweep(g1, c).reg == g.reg && OnSweep(g1, c).pres == g.pres
  {
    hide UserKey, SessionKey, WellFormed, ConsistentSession, Owner, Sound, Backed, Housed, Pres.Leave, Reg.Stamped,
      Reg.Tenanted, Reg.CountsCover;
    var id := g.conns[c].id;
    assert Owner(SessionKey(id)) == UserKey(id) by { IdentityReadsBack(id, ""); }
    assert g.reg.sessions - {SessionKey(id)} == g.reg.sessions;
    DelAbsent(g.reg.userIndex, UserKey(id), SessionKey(id));
  }

  /** After a kick, however others go on, the victim's own teardown changes neither the
      registry nor presence, unless its key registers or joins again in between. */
  lemma VictimTeardownIsNoOp(cfg: Tenants, g: State, kicker: nat, events: seq<Event>, victim: nat)
    requires Coherent(cfg, g) && Enabled(g, Kick(kicker)) && g.conns[kicker].phase.victim !in g.reg.sessions
    requires WellFormedEvents(events)
    requires NeverRevived(cfg, OnKick(g, kicker), events, g.conns[kicker].phase.victim)
    requires var after := Execute(cfg, OnKick(g, kicker), events);
             && victim in after.conns && after.conns[victim].phase.Live?
             && Key(after.conns[victim]) == g.conns[kicker].phase.victim
    ensures var after := Execute(cfg, OnKick(g, kicker), events);
            var down := OnSweep(OnDisconnect(after, victim), victim);
            down.reg == after.reg && down.pres == after.pres
  {
    hide Coherent, Forgotten, NeverRevived, Execute, OnKick, OnDisconnect, OnSweep, Key;
    KickForgets(cfg, g, kicker);
    StepCoherent(cfg, g, Kick(kicker));
    RunKeepsForgotten(cfg, OnKick(g, kicker), events, g.conns[kicker].phase.victim);
    ForgottenTeardown(cfg, Execute(cfg, OnKick(g, kicker), events), victim);
    SweepAfterDisconnect(Execute(cfg, OnKick(g, kicker), events), victim);
  }

  lemma SweepAfterDisconnect(g: State, c: nat)
    requires c in g.conns
    ensures c in OnDisconnect(g, c).conns
  {
  }

  // ---- join and leave ----

  /** A connection's leave right after its accepted join of a new room undoes the join. */
  lemma LeaveUndoesJoinMessage(cfg: Tenants, g: State, c: nat, room: string)
    requires Coherent(cfg, g) && c in g.conns && g.conns[c].phase.Live?
    requires Key(g.conns[c]) !in At(g.pres.roomSessions, RoomKey(g.conns[c].id.tenant, room))
    requires OnJoin(cfg, g, c, room) != g
    ensures var joined := OnJoin(cfg, g, c, room);
            var back := OnLeave(joined, c);
            && joined.conns[c].phase == Live(Some(room))
            && back.reg == g.reg && back.conns[c].phase == Live(None)
            && back.pres.(roomCounts := g.pres.roomCounts) == g.pres
            && forall t :: CountOf(back.pres.roomCounts, t) == CountOf(g.pres.roomCounts, t)
  {
    hide UserKey, SessionKey, RoomKey, WellFormed, Structured, Owned, Within, Backed, Housed, Reg.Agrees, Consistent,
      At, Pres.Admit, Pres.Leave, Pres.Verdict;
    var id := g.conns[c].id;
    KeysConsistent(id, room);
    LeaveUndoesJoin(g.pres, id.tenant, RoomKey(id.tenant, room), UserKey(id), SessionKey(id));
  }

  // ---- the tenant cap, atomically ----

  /** Every capped tenant's counter is within its cap. */
  ghost predicate Capped(cfg: Tenants, counts: map<string, nat>) {
    forall t :: cfg(t).limits.maxSessionsTotal > 0 ==> CountOf(counts, t) <= cfg(t).limits.maxSessionsTotal
  }

  lemma RemoveCapped(cfg: Tenants, reg: Reg.State, user: string, session: string)
    requires Reg.Agrees(reg) && Capped(cfg, reg.tenantCounts)
    ensures Capped(cfg, Reg.Remove(reg, user, session).tenantCounts)
  {
    hide Reg.Indexed, Reg.Stamped, ConsistentSession, TenantOf;
    if session in reg.sessions { Reg.Registered(reg, session); }
    forall t ensures CountOf(Reg.Remove(reg, user, session).tenantCounts, t) <= CountOf(reg.tenantCounts, t) {}
  }

  lemma AdmitCapped(cfg: Tenants, g: State, c: nat)
    requires c in g.conns && Capped(cfg, g.reg.tenantCounts)
    ensures Capped(cfg, OnAdmit(cfg, g, c).reg.tenantCounts)
  {
    hide UserKey, SessionKey, Put;
  }

  lemma StepCapped(cfg: Tenants, g: State, e: Event)
    requires Coherent(cfg, g) && Enabled(g, e) && Capped(cfg, g.reg.tenantCounts)
    ensures Capped(cfg, Step(cfg, g, e).reg.tenantCounts)
  {
    hide Capped, UserKey, SessionKey, RoomKey, Reg.Agrees, Sound, Identified, Backed, Housed, Reg.Remove, Reg.Insert,
      Reg.Full, Pres.Cleanup, Pres.Admit, Pres.Leave, Pres.Verdict;
    match e
    case Evict(c) =>
      var victim := Reg.Oldest(g.reg, UserKey(g.conns[c].id));
      if victim.Some? { RemoveCapped(cfg, g.reg, UserKey(g.conns[c].id), victim.value); }
    case Admit(c) => AdmitCapped(cfg, g, c);
    case Disconnect(c) => RemoveCapped(cfg, g.reg, UserKey(g.conns[c].id), SessionKey(g.conns[c].id));
    case _ =>
  }

  lemma {:induction false} RunCapped(cfg: Tenants, g: State, events: seq<Event>)
    requires Coherent(cfg, g) && WellFormedEvents(events) && Capped(cfg, g.reg.tenantCounts)
    ensures Capped(cfg, Execute(cfg, g, events).reg.tenantCounts)
    decreases |events|
  {
    hide Coherent, WellFormed, Enabled, Step, Capped;
    if |events| != 0 {
      if Enabled(g, events[0]) {
        StepCoherent(cfg, g, events[0]);
        StepCapped(cfg, g, events[0]);
      }
      RunCapped(cfg, if Enabled(g, events[0]) then Step(cfg, g, events[0]) else g, events[1..]);
    }
  }

  /** In every run, with client-chosen session keys too, a capped tenant never has more
      registered sessions than its cap. */
  lemma TenantSessionsCapped(cfg: Tenants, events: seq<Event>, tenant: string)
    requires WellFormedEvents(events) && cfg(tenant).limits.maxSessionsTotal > 0
    ensures |Reg.TenantSessions(Execute(cfg, INIT, events).reg.sessions, tenant)| <= cfg(tenant).limits.maxSessionsTotal
  {
    hide Execute, Sound, Backed, Housed, Identified, Reg.Indexed, Reg.Stamped, Reg.Tenanted;
    InitCoherent(cfg);
    RunCoherent(cfg, INIT, events);
    RunCapped(cfg, INIT, events);
    var reg := Execute(cfg, INIT, events).reg;
    assert CountOf(reg.tenantCounts, tenant) >= |Reg.TenantSessions(reg.sessions, tenant)|;
  }
}

/** What is left over once every connection is gone: exactly when nothing is, and the runs
    that leave a user in a room for good. */
module Residue {
  import opened Keys
  import opened Multimaps
  import opened Options
  import opened Config
  import Reg = RegistrySpec
  import Pres = PresenceSpec
  import opened PresenceLimits
  import opened PresenceInvariants
  import opened PresenceRefinement
  import opened Gateway
  import opened Lifecycle

  // ---- exactly when nothing is left ----

  /** Without sessions, exact counts are no counts, and then no user is listed anywhere. */
  lemma ExactMeansNothing(pres: Pres.State)
    requires Structured(pres) && pres.roomSessions == map[]
    ensures Exact(pres) <==> pres.refs == map[]
    ensures pres.refs == map[] <==> pres.roomUsers == map[]
    ensures pres.refs == map[] <==> pres.userRooms == map[]
  {
    hide ProperUser, RefKey, RefUser, RefRoom, Counted, Routing;
    assert forall user, room :: Members(pres.roomSessions, user, room) == {};
    if Exact(pres) {
      forall key ensures key !in pres.refs {
        assert key in pres.refs ==> CountOf(pres.refs, RefKey(RefUser(key), RefRoom(key))) >= 1;
      }
    }
    UsersAreRefs(pres);
    UserMapsAgree(pres.roomUsers, pres.userRooms);
    UserMapsAgree(pres.userRooms, pres.roomUsers);
  }

  lemma UsersAreRefs(pres: Pres.State)
    requires Governance(pres)
    ensures pres.refs == map[] <==> pres.roomUsers == map[]
  {
    hide ProperUser, RefKey, RefUser, RefRoom, Inverse;
    if pres.refs == map[] {
      forall room ensures At(pres.roomUsers, room) == {} {
        forall user ensures user !in At(pres.roomUsers, room) {
          assert user in At(pres.roomUsers, room) ==> RefKey(user, room) in pres.refs;
        }
      }
      EmptyByContents(pres.roomUsers);
    }
    if pres.roomUsers == map[] {
      forall key ensures key !in pres.refs {
        assert key in pres.refs ==> RefKey(RefUser(key), RefRoom(key)) == key;
        assert key in pres.refs ==> RefUser(key) in At(pres.roomUsers, RefRoom(key));
      }
    }
  }

  lemma UserMapsAgree(m: Multimap, w: Multimap)
    requires NoEmptySets(m) && Inverse(m, w)
    ensures w == map[] ==> m == map[]
  {
    if w == map[] {
      forall k ensures At(m, k) == {} {
        forall x ensures x !in At(m, k) { assert x in At(m, k) <==> k in At(w, x); }
      }
      EmptyByContents(m);
    }
  }

  lemma NoSessionsNoCounts(reg: Reg.State)
    requires Reg.CountsExact(reg) && reg.sessions == map[]
    ensures forall tenant :: CountOf(reg.tenantCounts, tenant) == 0
  {
    assert forall tenant :: Reg.TenantSessions(reg.sessions, tenant) == {};
  }

  /** A courteous run, once everybody is down: the tenant session counts are back to 0, and the
      reference counts and both user maps are empty exactly when no session ever joined a room
      it was in. */
  lemma TeardownRestoresIff(cfg: Tenants, events: seq<Event>)
    requires CourteousRun(cfg, INIT, events) && AllDown(Execute(cfg, INIT, events))
    ensures var g := Execute(cfg, INIT, events);
            && (forall tenant :: CountOf(g.reg.tenantCounts, tenant) == 0)
            && (g.pres.refs == map[] <==> CarefulRun(cfg, INIT, events))
            && (g.pres.roomUsers == map[] <==> CarefulRun(cfg, INIT, events))
            && (g.pres.userRooms == map[] <==> CarefulRun(cfg, INIT, events))
  {
    hide AllDown, Execute, CourteousRun, CarefulRun, VictimsOut, ActiveSound, Covered, Unique, Structured, Owned,
      Within, Exact, Reg.Agrees, Reg.CountsExact, Identified, Backed, Housed;
    InitOrderly(cfg);
    CourteousRunOrderly(cfg, INIT, events);
    var g := Execute(cfg, INIT, events);
    DownEmpties(cfg, g);
    ExactMeansNothing(g.pres);
    NoSessionsNoCounts(g.reg);
  }

  lemma {:induction false} CarefulIsCourteous(cfg: Tenants, g: State, events: seq<Event>)
    requires CarefulRun(cfg, g, events)
    ensures CourteousRun(cfg, g, events)
    decreases |events|
  {
    hide Step, Enabled, Courteous;
    if |events| != 0 { CarefulIsCourteous(cfg, Step(cfg, g, events[0]), events[1..]); }
  }

  /** After a careful run, once everybody is down, nothing is left in any map and all
      counters are back to 0. */
  lemma TeardownRestores(cfg: Tenants, events: seq<Event>)
    requires CarefulRun(cfg, INIT, events) && AllDown(Execute(cfg, INIT, events))
    ensures var g := Execute(cfg, INIT, events);
            && g.reg.sessions == map[] && g.reg.userIndex == map[]
            && g.pres.(roomCounts := map[]) == Pres.EMPTY
            && (forall tenant :: CountOf(g.pres.roomCounts, tenant) == 0)
            && (forall tenant :: CountOf(g.reg.tenantCounts, tenant) == 0)
  {
    hide AllDown, Execute, CourteousRun, CarefulRun, Orderly;
    CarefulIsCourteous(cfg, INIT, events);
    TeardownRestoresIff(cfg, events);
    InitOrderly(cfg);
    CourteousRunOrderly(cfg, INIT, events);
    assert Coherent(cfg, Execute(cfg, INIT, events)) by { OrderlyCoherent(cfg, Execute(cfg, INIT, events)); }
    DownEmpties(cfg, Execute(cfg, INIT, events));
  }

  lemma OrderlyCoherent(cfg: Tenants, g: State)
    requires Orderly(cfg, g)
    ensures Coherent(cfg, g)
  {
  }

  // ---- a repeated join leaves its user behind ----

  /** Presence with one user listed in one room that has no session. */
  function Ghost(tenant: string, room: string, user: string): Pres.State {
    Pres.State(map[], map[], map[room := {user}], map[user := {room}], map[RefKey(user, room) := 1], map[tenant := 0])
  }

  /** Presence with one session in one room. */
  function Alone(tenant: string, room: string, user: string, session: string): Pres.State {
    Pres.State(map[room := {session}], map[session := {room}], map[room := {user}], map[user := {room}],
               map[RefKey(user, room) := 1], map[tenant := 1])
  }

  lemma JoinedOnce(tenant: string, room: string, user: string, session: string, counts: map<string, nat>)
    requires counts == map[] || counts == map[tenant := 0]
    ensures Pres.Admit(Pres.EMPTY.(roomCounts := counts), tenant, room, user, session)
         == Alone(tenant, room, user, session)
  {
    hide RefKey;
    assert {} + {session} == {session} && {} + {room} == {room} && {} + {user} == {user};
  }

  lemma JoinedTwice(tenant: string, room: string, user: string, session: string)
    ensures Pres.Admit(Alone(tenant, room, user, session), tenant, room, user, session)
         == Alone(tenant, room, user, session).(refs := map[RefKey(user, room) := 2])
  {
    hide RefKey;
    assert {session} + {session} == {session} && {room} + {room} == {room};
  }

  lemma JoinTwiceLeaveOnce(tenant: string, room: string, user: string, session: string)
    ensures var once := Pres.Admit(Pres.EMPTY, tenant, room, user, session);
            var twice := Pres.Admit(once, tenant, room, user, session);
            && Pres.Leave(twice, tenant, room, user, session) == Ghost(tenant, room, user)
            && Pres.Cleanup(twice, tenant, user, session) == Ghost(tenant, room, user)
  {
    hide RefKey, Pres.Admit;
    JoinedOnce(tenant, room, user, session, map[]);
    JoinedTwice(tenant, room, user, session);
    var twice := Pres.Admit(Pres.Admit(Pres.EMPTY, tenant, room, user, session), tenant, room, user, session);
    assert {session} - {session} == {} && {room} - {room} == {};
    var left := Pres.Leave(twice, tenant, room, user, session);
    assert left == Ghost(tenant, room, user);
    assert At(twice.sessionRooms, session) == {room};
    hide Pres.Leave, Ghost;
    assert Pres.LeaveAll(twice, tenant, {room}, user, session) == left;
  }

  /** Connect and join the same room twice. */
  function Rejoin(id: Identity, room: string): seq<Event> {
    [Arrive(0, id), Admit(0), JoinRoom(0, room), JoinRoom(0, room)]
  }

  lemma Rejoined(cfg: Tenants, id: Identity, room: string)
    requires Validated(cfg)
    ensures var key := RoomKey(id.tenant, room);
            var once := Pres.Admit(Pres.EMPTY, id.tenant, key, UserKey(id), SessionKey(id));
            var g := Execute(cfg, INIT, Rejoin(id, room));
            && g.pres == Pres.Admit(once, id.tenant, key, UserKey(id), SessionKey(id))
            && g.conns == map[0 := Conn(id, Live(Some(room)))]
  {
    hide Execute, UserKey, SessionKey, RoomKey, Pres.Admit, Pres.Verdict, OnArrive, OnAdmit, OnJoin;
    ExecuteFour(cfg, INIT, Arrive(0, id), Admit(0), JoinRoom(0, room), JoinRoom(0, room));
    assert Validate(cfg(id.tenant).policy) == None;
    Opened(cfg, id);
    FirstVerdicts(id.tenant, RoomKey(id.tenant, room), UserKey(id), SessionKey(id), cfg(id.tenant).limits);
    var g2 := OnAdmit(cfg, OnArrive(cfg, INIT, 0, id), 0);
    JoinMessage(cfg, g2, id, None, room);
    JoinMessage(cfg, OnJoin(cfg, g2, 0, room), id, Some(room), room);
  }

  lemma Down(cfg: Tenants, g: State, id: Identity, room: string)
    requires g.conns == map[0 := Conn(id, Live(Some(room)))]
    ensures OnLeave(g, 0).pres == Pres.Leave(g.pres, id.tenant, RoomKey(id.tenant, room), UserKey(id), SessionKey(id))
    ensures var gone := Execute(cfg, g, [Disconnect(0), Sweep(0)]);
            && gone.pres == Pres.Cleanup(g.pres, id.tenant, UserKey(id), SessionKey(id))
            && gone.conns == map[0 := Conn(id, Gone)]
  {
    hide Execute, UserKey, SessionKey, RoomKey, Pres.Leave, Pres.Cleanup, Reg.Remove;
    ExecuteTwo(cfg, g, Disconnect(0), Sweep(0));
    assert OnDisconnect(g, 0).conns == map[0 := Conn(id, Leaving)];
  }

  /** Whoever joins a room twice and then leaves it, or goes away, is listed there for good:
      without any session, yet with a reference. */
  lemma RejoinLeaks(cfg: Tenants, id: Identity, room: string)
    requires Validated(cfg)
    ensures var left := Execute(cfg, INIT, Rejoin(id, room) + [LeaveActive(0)]);
            var gone := Execute(cfg, INIT, Rejoin(id, room) + [Disconnect(0), Sweep(0)]);
            && left.pres == Ghost(id.tenant, RoomKey(id.tenant, room), UserKey(id))
            && gone.pres == Ghost(id.tenant, RoomKey(id.tenant, room), UserKey(id))
            && AllDown(gone)
  {
    hide Execute, UserKey, SessionKey, RoomKey, Ghost, Pres.Admit, Pres.Leave, Pres.Cleanup, Rejoin, OnLeave;
    Rejoined(cfg, id, room);
    JoinTwiceLeaveOnce(id.tenant, RoomKey(id.tenant, room), UserKey(id), SessionKey(id));
    var g := Execute(cfg, INIT, Rejoin(id, room));
    Down(cfg, g, id, room);
    ExecuteConcat(cfg, INIT, Rejoin(id, room), [LeaveActive(0)]);
    ExecuteLast(cfg, g, LeaveActive(0));
    ExecuteConcat(cfg, INIT, Rejoin(id, room), [Disconnect(0), Sweep(0)]);
  }

  /** The listing left behind uses up the limits: it shuts others out of the empty room, and
      its user out of other rooms. */
  lemma GhostBlocks(tenant: string, room: string, user: string, other: string, elsewhere: string, limits: TenantLimits)
    requires other != user && elsewhere != room
    ensures limits.maxUsersPerRoom == 1 ==>
              Pres.Verdict(Ghost(tenant, room, user), tenant, room, other, limits) == Some(Pres.RoomUserLimit)
    ensures limits.maxRoomsPerUser == 1 ==>
              Pres.Verdict(Ghost(tenant, room, user), tenant, elsewhere, user, limits) == Some(Pres.UserRoomLimit)
  {
    hide RefKey;
  }

  // ---- a leave by a kicked connection unlists its successor ----

  /** One session connects and joins; the user's next one takes its place and joins too; then
      the kicked connection leaves what it still takes for its active room. */
  function StrayLeave(id: Identity, sid: string, room: string): seq<Event> {
    [Arrive(0, id), Admit(0), JoinRoom(0, room), Arrive(1, id.(sid := sid))]
      + [Evict(1), Kick(1), Admit(1), JoinRoom(1, room)]
      + [LeaveActive(0)]
  }

  lemma AloneCleared(tenant: string, room: string, user: string, session: string)
    ensures Pres.Cleanup(Alone(tenant, room, user, session), tenant, user, session)
         == Pres.EMPTY.(roomCounts := map[tenant := 0])
  {
    hide RefKey;
    var cleared := Pres.EMPTY.(roomCounts := map[tenant := 0]);
    assert {session} - {session} == {} && {room} - {room} == {} && {user} - {user} == {};
    assert Pres.Leave(Alone(tenant, room, user, session), tenant, room, user, session) == cleared;
    assert At(Alone(tenant, room, user, session).sessionRooms, session) == {room};
    hide Pres.Leave, Alone;
    assert Pres.LeaveAll(Alone(tenant, room, user, session), tenant, {room}, user, session) == cleared;
  }

  /** Presence with one session in one room, its user listed nowhere. */
  function Unlisted(tenant: string, room: string, session: string): Pres.State {
    Pres.State(map[room := {session}], map[session := {room}], map[], map[], map[], map[tenant := 1])
  }

  lemma StrayLeft(tenant: string, room: string, user: string, session: string, other: string)
    requires session != other
    ensures Pres.Leave(Alone(tenant, room, user, other), tenant, room, user, session) == Unlisted(tenant, room, other)
  {
    hide RefKey;
    assert {other} - {session} == {other} && {room} - {room} == {} && {user} - {user} == {};
  }

  lemma SecondArrives(cfg: Tenants, g: State, id: Identity, other: Identity, room: string)
    requires UserKey(other) == UserKey(id) && other.tenant == id.tenant
    requires cfg(id.tenant).policy.sessions.maxSessionsPerUser == 1
    requires cfg(id.tenant).policy.sessions.onExceed == KickOldest
    requires g.reg == Reg.Insert(Reg.EMPTY, id.tenant, UserKey(id), SessionKey(id), 0)
    requires g.conns == map[0 := Conn(id, Live(Some(room)))]
    ensures var g1 := OnArrive(cfg, g, 1, other);
            var g2 := OnEvict(g1, 1);
            && g1.conns == map[0 := Conn(id, Live(Some(room))), 1 := Conn(other, Evicting)]
            && g2.conns == map[0 := Conn(id, Live(Some(room))), 1 := Conn(other, Kicking(SessionKey(id)))]
            && g2.pres == g.pres && CountOf(g2.reg.tenantCounts, id.tenant) == 0
  {
    hide UserKey, SessionKey;
    assert At(g.reg.userIndex, UserKey(id)) == {SessionKey(id)};
    assert Reg.IsOldest(g.reg, UserKey(id), SessionKey(id));
  }

  lemma SecondAdmitted(cfg: Tenants, g: State, id: Identity, other: Identity, room: string)
    requires UserKey(other) == UserKey(id) && other.tenant == id.tenant
    requires g.conns == map[0 := Conn(id, Live(Some(room))), 1 := Conn(other, Kicking(SessionKey(id)))]
    requires CountOf(g.reg.tenantCounts, id.tenant) == 0
    ensures var g1 := OnKick(g, 1);
            var g2 := OnAdmit(cfg, g1, 1);
            && g1.conns == map[0 := Conn(id, Live(Some(room))), 1 := Conn(other, Pending)]
            && g2.pres == Pres.Cleanup(g.pres, id.tenant, UserKey(id), SessionKey(id))
            && g2.conns == map[0 := Conn(id, Live(Some(room))), 1 := Conn(other, Live(None))]
  {
    hide UserKey, SessionKey, Pres.Cleanup, Reg.Insert;
  }

  lemma LastSteps(cfg: Tenants, g: State, id: Identity, other: Identity, room: string)
    requires UserKey(other) == UserKey(id) && other.tenant == id.tenant && SessionKey(other) != SessionKey(id)
    requires g.conns == map[0 := Conn(id, Live(Some(room))), 1 := Conn(other, Live(None))]
    requires g.pres == Pres.EMPTY.(roomCounts := map[id.tenant := 0])
    ensures var key := RoomKey(id.tenant, room);
            var g1 := OnJoin(cfg, g, 1, room);
            && g1.conns == map[0 := Conn(id, Live(Some(room))), 1 := Conn(other, Live(Some(room)))]
            && OnLeave(g1, 0).pres == Unlisted(id.tenant, key, SessionKey(other))
            && 1 in OnLeave(g1, 0).conns && OnLeave(g1, 0).conns[1] == Conn(other, Live(Some(room)))
  {
    hide UserKey, SessionKey, RoomKey, Pres.Admit, Pres.Leave, Unlisted, Alone;
    var key := RoomKey(id.tenant, room);
    JoinedOnce(id.tenant, key, UserKey(id), SessionKey(other), map[id.tenant := 0]);
    StrayLeft(id.tenant, key, UserKey(id), SessionKey(id), SessionKey(other));
  }

  /** The first four steps. */
  lemma FirstSteps(cfg: Tenants, id: Identity, other: Identity, room: string)
    requires UserKey(other) == UserKey(id) && other.tenant == id.tenant
    requires cfg(id.tenant).policy.sessions.maxSessionsPerUser == 1
    requires cfg(id.tenant).policy.sessions.onExceed == KickOldest
    ensures var g := Execute(cfg, INIT, [Arrive(0, id), Admit(0), JoinRoom(0, room), Arrive(1, other)]);
            && Enabled(g, Evict(1))
            && OnEvict(g, 1).conns == map[0 := Conn(id, Live(Some(room))), 1 := Conn(other, Kicking(SessionKey(id)))]
            && OnEvict(g, 1).pres == Alone(id.tenant, RoomKey(id.tenant, room), UserKey(id), SessionKey(id))
            && CountOf(OnEvict(g, 1).reg.tenantCounts, id.tenant) == 0
  {
    hide Execute, UserKey, SessionKey, RoomKey, Pres.Admit, Pres.Verdict, OnArrive, OnAdmit, OnJoin, OnEvict, Alone;
    ExecuteFour(cfg, INIT, Arrive(0, id), Admit(0), JoinRoom(0, room), Arrive(1, other));
    Opened(cfg, id);
    FirstVerdicts(id.tenant, RoomKey(id.tenant, room), UserKey(id), SessionKey(id), cfg(id.tenant).limits);
    var g2 := OnAdmit(cfg, OnArrive(cfg, INIT, 0, id), 0);
    JoinMessage(cfg, g2, id, None, room);
    JoinedOnce(id.tenant, RoomKey(id.tenant, room), UserKey(id), SessionKey(id), map[]);
    SecondArrives(cfg, OnJoin(cfg, g2, 0, room), id, other, room);
  }

  /** The next four, and what the last one then does. */
  lemma NextSteps(cfg: Tenants, g: State, id: Identity, other: Identity, room: string)
    requires UserKey(other) == UserKey(id) && other.tenant == id.tenant && SessionKey(other) != SessionKey(id)
    requires Enabled(g, Evict(1))
    requires OnEvict(g, 1).conns == map[0 := Conn(id, Live(Some(room))), 1 := Conn(other, Kicking(SessionKey(id)))]
    requires OnEvict(g, 1).pres == Alone(id.tenant, RoomKey(id.tenant, room), UserKey(id), SessionKey(id))
    requires CountOf(OnEvict(g, 1).reg.tenantCounts, id.tenant) == 0
    ensures var g4 := Execute(cfg, g, [Evict(1), Kick(1), Admit(1), JoinRoom(1, room)]);
            && Enabled(g4, LeaveActive(0))
            && 1 in OnLeave(g4, 0).conns && OnLeave(g4, 0).conns[1] == Conn(other, Live(Some(room)))
            && OnLeave(g4, 0).pres == Unlisted(id.tenant, RoomKey(id.tenant, room), SessionKey(other))
  {
    hide Execute, UserKey, SessionKey, RoomKey, OnArrive, OnAdmit, OnJoin, OnEvict, OnKick, OnLeave, Alone, Unlisted;
    SecondAdmitted(cfg, OnEvict(g, 1), id, other, room);
    AloneCleared(id.tenant, RoomKey(id.tenant, room), UserKey(id), SessionKey(id));
    LastSteps(cfg, OnAdmit(cfg, OnKick(OnEvict(g, 1), 1), 1), id, other, room);
    ExecuteFour(cfg, g, Evict(1), Kick(1), Admit(1), JoinRoom(1, room));
  }

  /** Under a single-session kick-oldest policy that run ends with the new session in the room
      and its user listed nowhere. */
  lemma StrayLeaveUnlists(cfg: Tenants, id: Identity, sid: string, room: string)
    requires cfg(id.tenant).policy.sessions.maxSessionsPerUser == 1
    requires cfg(id.tenant).policy.sessions.onExceed == KickOldest
    requires sid != id.sid
    ensures var g := Execute(cfg, INIT, StrayLeave(id, sid, room));
            && 1 in g.conns && g.conns[1] == Conn(id.(sid := sid), Live(Some(room)))
            && g.pres == Unlisted(id.tenant, RoomKey(id.tenant, room), SessionKey(id.(sid := sid)))
  {
    hide Execute, UserKey, SessionKey, RoomKey, OnEvict, OnLeave, Alone, Unlisted;
    var other := id.(sid := sid);
    SidsDiffer(id, sid);
    var first := [Arrive(0, id), Admit(0), JoinRoom(0, room), Arrive(1, other)];
    var next := [Evict(1), Kick(1), Admit(1), JoinRoom(1, room)];
    var g := Execute(cfg, INIT, first);
    FirstSteps(cfg, id, other, room);
    NextSteps(cfg, g, id, other, room);
    ExecuteConcat(cfg, INIT, first, next);
    ExecuteConcat(cfg, INIT, first + next, [LeaveActive(0)]);
    ExecuteLast(cfg, Execute(cfg, g, next), LeaveActive(0));
    assert Step(cfg, Execute(cfg, g, next), LeaveActive(0)) == OnLeave(Execute(cfg, g, next), 0);
  }

  lemma SidsDiffer(id: Identity, sid: string)
    requires sid != id.sid
    ensures UserKey(id.(sid := sid)) == UserKey(id) && SessionKey(id.(sid := sid)) != SessionKey(id)
  {
    var n := |id.tenant + SEP + id.user + SEP|;
    assert SessionKey(id)[n..] == id.sid && SessionKey(id.(sid := sid))[n..] == sid;
  }
}

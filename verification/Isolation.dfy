/** Exactly when tenants are kept apart, for tenant ids of any form: no hypothesis on ids here
    but the one that turns out to decide it. */
module Isolation {
  import opened Keys
  import opened Multimaps
  import opened Options
  import opened Config
  import Reg = RegistrySpec
  import Pres = PresenceSpec
  import opened Gateway
  import opened FanoutSpec

  /** No tenant's key prefix starts another's. */
  predicate PrefixFree(tenants: set<string>) {
    forall t, v :: t in tenants && v in tenants && t != v ==> !(t + SEP <= v + SEP)
  }

  /** Only configured tenants connect. */
  predicate Configured(events: seq<Event>, tenants: set<string>) {
    forall i :: 0 <= i < |events| && events[i].Arrive? ==> events[i].id.tenant in tenants
  }

  /** A publish of the tenant is offered to a connection that is not the tenant's. */
  ghost predicate Crosses(cfg: Tenants, events: seq<Event>, tenant: string, room: string, c: nat) {
    var g := Execute(cfg, INIT, events);
    && c in Targets(g.reg.sessions, At(g.pres.roomSessions, RoomKey(tenant, room)))
    && !(c in g.conns && g.conns[c].id.tenant == tenant)
  }

  // ---- whose keys are in the maps ----

  /** Some connection with this session key has the room in its tenant's namespace. */
  ghost predicate JoinedAs(conns: map<nat, Conn>, session: string, room: string) {
    exists c :: c in conns && Key(conns[c]) == session && conns[c].id.tenant + SEP <= room
  }

  ghost predicate RoomsKnown(conns: map<nat, Conn>, rooms: Multimap) {
    forall room, session :: session in At(rooms, room) ==> JoinedAs(conns, session, room)
  }

  ghost predicate SessionsKnown(conns: map<nat, Conn>, sessions: map<string, Reg.Entry>) {
    forall s :: s in sessions ==> sessions[s].conn in conns && Key(conns[sessions[s].conn]) == s
  }

  ghost predicate TenantsKnown(conns: map<nat, Conn>, tenants: set<string>) {
    forall c :: c in conns ==> conns[c].id.tenant in tenants
  }

  ghost predicate Known(g: State, tenants: set<string>) {
    && RoomsKnown(g.conns, g.pres.roomSessions)
    && SessionsKnown(g.conns, g.reg.sessions)
    && TenantsKnown(g.conns, tenants)
  }

  /** Identities persist. */
  ghost predicate Extends(conns: map<nat, Conn>, next: map<nat, Conn>) {
    forall c :: c in conns ==> c in next && next[c].id == conns[c].id
  }

  lemma RoomsStayKnown(conns: map<nat, Conn>, next: map<nat, Conn>, rooms: Multimap, rooms': Multimap)
    requires RoomsKnown(conns, rooms) && Extends(conns, next)
    requires forall room, session :: session in At(rooms', room) ==>
               session in At(rooms, room) || JoinedAs(next, session, room)
    ensures RoomsKnown(next, rooms')
  {
    hide SessionKey, At;
    forall room, session | session in At(rooms', room) ensures JoinedAs(next, session, room) {
      if session in At(rooms, room) {
        var c :| c in conns && Key(conns[c]) == session && conns[c].id.tenant + SEP <= room;
        assert c in next && Key(next[c]) == session && next[c].id.tenant + SEP <= room;
      }
    }
  }

  lemma LeaveRemoves(st: Pres.State, tenant: string, room: string, user: string, session: string)
    ensures forall r :: At(Pres.Leave(st, tenant, room, user, session).roomSessions, r) <= At(st.roomSessions, r)
  {
    hide RefKey, Pres.DropRef, Pres.IsLast;
  }

  lemma {:induction false} LeaveAllRemoves(st: Pres.State, tenant: string, rooms: set<string>, user: string,
      session: string)
    ensures forall r :: At(Pres.LeaveAll(st, tenant, rooms, user, session).roomSessions, r) <= At(st.roomSessions, r)
    decreases |rooms|
  {
    hide Pres.Leave, At;
    if rooms != {} {
      var room := Pres.Pick(rooms);
      LeaveRemoves(st, tenant, room, user, session);
      LeaveAllRemoves(Pres.Leave(st, tenant, room, user, session), tenant, rooms - {room}, user, session);
    }
  }

  /** The only additions to a room are a joining connection's own. */
  lemma StepRooms(cfg: Tenants, g: State, e: Event)
    requires Enabled(g, e)
    ensures forall room, session :: session in At(Step(cfg, g, e).pres.roomSessions, room) ==>
              session in At(g.pres.roomSessions, room) || JoinedAs(Step(cfg, g, e).conns, session, room)
  {
    hide UserKey, SessionKey, RefKey, Pres.Leave, Pres.LeaveAll, Pres.Verdict, Reg.Oldest, Reg.Remove, Reg.Insert,
      Reg.Full;
    var st := g.pres;
    match e
    case Kick(c) =>
      var id, victim := g.conns[c].id, g.conns[c].phase.victim;
      LeaveAllRemoves(st, id.tenant, At(st.sessionRooms, victim), UserKey(id), victim);
    case Sweep(c) =>
      var id := g.conns[c].id;
      LeaveAllRemoves(st, id.tenant, At(st.sessionRooms, SessionKey(id)), UserKey(id), SessionKey(id));
    case LeaveActive(c) =>
      var id := g.conns[c].id;
      if g.conns[c].phase.activeRoom.Some? {
        LeaveRemoves(st, id.tenant, RoomKey(id.tenant, g.conns[c].phase.activeRoom.value), UserKey(id), SessionKey(id));
      }
    case JoinRoom(c, room) => JoinAdds(cfg, g, c, room);
    case _ =>
  }

  lemma JoinAdds(cfg: Tenants, g: State, c: nat, joined: string)
    requires c in g.conns
    ensures forall room, session :: session in At(OnJoin(cfg, g, c, joined).pres.roomSessions, room) ==>
              session in At(g.pres.roomSessions, room) || JoinedAs(OnJoin(cfg, g, c, joined).conns, session, room)
  {
    hide UserKey, SessionKey, RefKey, Pres.Verdict;
    var next := OnJoin(cfg, g, c, joined);
    var id := g.conns[c].id;
    assert c in next.conns && Key(next.conns[c]) == SessionKey(id)
      && next.conns[c].id.tenant + SEP <= RoomKey(id.tenant, joined);
    assert JoinedAs(next.conns, SessionKey(id), RoomKey(id.tenant, joined));
  }

  lemma StepSessions(cfg: Tenants, g: State, e: Event)
    requires Enabled(g, e) && SessionsKnown(g.conns, g.reg.sessions)
    ensures SessionsKnown(Step(cfg, g, e).conns, Step(cfg, g, e).reg.sessions)
  {
    hide UserKey, SessionKey, RoomKey, At, Put, Del, Reg.Oldest, Reg.Full, Pres.Cleanup, Pres.Admit, Pres.Leave,
      Pres.Verdict;
  }

  lemma StepKnown(cfg: Tenants, g: State, e: Event, tenants: set<string>)
    requires Known(g, tenants) && Enabled(g, e) && (e.Arrive? ==> e.id.tenant in tenants)
    ensures Known(Step(cfg, g, e), tenants)
  {
    IdsKept(cfg, g, e);
    StepRooms(cfg, g, e);
    StepSessions(cfg, g, e);
    var next := Step(cfg, g, e);
    assert TenantsKnown(next.conns, tenants) by {
      assert e.Arrive? ==> next.conns[e.c].id == e.id;
    }
    hide Step, Enabled, RoomsKnown, SessionsKnown, JoinedAs, At;
    RoomsStayKnown(g.conns, next.conns, g.pres.roomSessions, next.pres.roomSessions);
  }

  lemma {:induction false} RunKnown(cfg: Tenants, g: State, events: seq<Event>, tenants: set<string>)
    requires Known(g, tenants) && Configured(events, tenants)
    ensures Known(Execute(cfg, g, events), tenants)
    decreases |events|
  {
    hide Known, Step, Enabled;
    if |events| != 0 {
      if Enabled(g, events[0]) { StepKnown(cfg, g, events[0], tenants); }
      RunKnown(cfg, if Enabled(g, events[0]) then Step(cfg, g, events[0]) else g, events[1..], tenants);
    }
  }

  // ---- apart, if no prefix starts another ----

  lemma OnePrefix(tenants: set<string>, t: string, v: string, key: string)
    requires PrefixFree(tenants) && t in tenants && v in tenants
    requires t + SEP <= key && v + SEP <= key
    ensures t == v
  {
    PrefixesCompare(t + SEP, v + SEP, key);
  }

  lemma PrefixesCompare(a: string, b: string, key: string)
    requires a <= key && b <= key
    ensures a <= b || b <= a
  {
    assert |a| <= |b| ==> a == b[..|a|];
    assert |b| <= |a| ==> b == a[..|b|];
  }

  lemma StaysApart(cfg: Tenants, events: seq<Event>, tenants: set<string>, tenant: string, room: string, c: nat)
    requires PrefixFree(tenants) && Configured(events, tenants) && tenant in tenants
    ensures !Crosses(cfg, events, tenant, room, c)
  {
    hide Execute, PrefixFree;
    assert Known(INIT, tenants);
    RunKnown(cfg, INIT, events, tenants);
    var g := Execute(cfg, INIT, events);
    var key := RoomKey(tenant, room);
    if c in Targets(g.reg.sessions, At(g.pres.roomSessions, key)) {
      var s :| s in At(g.pres.roomSessions, key) && s in g.reg.sessions && g.reg.sessions[s].conn == c;
      assert JoinedAs(g.conns, s, key);
      var d :| d in g.conns && Key(g.conns[d]) == s && g.conns[d].id.tenant + SEP <= key;
      OnePrefix(tenants, tenant, g.conns[d].id.tenant, key);
      OnePrefix(tenants, g.conns[c].id.tenant, g.conns[d].id.tenant, s);
    }
  }

  // ---- not apart, if one does ----

  /** One connection joins a room. */
  function Joining(id: Identity, room: string): seq<Event> {
    [Arrive(0, id), Admit(0)] + [JoinRoom(0, room)]
  }

  lemma Joined(cfg: Tenants, id: Identity, room: string)
    requires cfg(id.tenant).policy.sessions.maxSessionsPerUser >= 1
    ensures var g := Execute(cfg, INIT, Joining(id, room));
            && 0 in Targets(g.reg.sessions, At(g.pres.roomSessions, RoomKey(id.tenant, room)))
            && 0 in g.conns && g.conns[0].id == id
  {
    hide Execute, UserKey, SessionKey, RoomKey, Targets, At, Pres.Verdict, Pres.Admit, OnArrive, OnAdmit, OnJoin;
    Opened(cfg, id);
    FirstVerdicts(id.tenant, RoomKey(id.tenant, room), UserKey(id), SessionKey(id), cfg(id.tenant).limits);
    var g2 := OnAdmit(cfg, OnArrive(cfg, INIT, 0, id), 0);
    JoinMessage(cfg, g2, id, None, room);
    ExecuteTwo(cfg, INIT, Arrive(0, id), Admit(0));
    ExecuteConcat(cfg, INIT, [Arrive(0, id), Admit(0)], [JoinRoom(0, room)]);
    ExecuteLast(cfg, g2, JoinRoom(0, room));
    var g := OnJoin(cfg, g2, 0, room);
    assert g.reg.sessions[SessionKey(id)].conn == 0;
    JoinedTargeted(g2.pres, g.reg, id.tenant, RoomKey(id.tenant, room), UserKey(id), SessionKey(id));
  }

  lemma JoinedTargeted(pres: Pres.State, reg: Reg.State, tenant: string, room: string, user: string, session: string)
    requires session in reg.sessions
    ensures reg.sessions[session].conn
         in Targets(reg.sessions, At(Pres.Admit(pres, tenant, room, user, session).roomSessions, room))
  {
    hide RefKey;
  }

  /** If one tenant's prefix starts another's, the first can publish into every room of the
      other: the longer room name makes up for the shorter tenant id. */
  lemma PrefixCrosses(cfg: Tenants, t: string, id: Identity, room: string)
    requires cfg(id.tenant).policy.sessions.maxSessionsPerUser >= 1
    requires t != id.tenant && t + SEP <= id.tenant + SEP
    ensures Crosses(cfg, Joining(id, room), t, (id.tenant + SEP)[|t| + 2..] + room, 0)
  {
    hide Execute, Joining;
    Joined(cfg, id, room);
    assert RoomKey(t, (id.tenant + SEP)[|t| + 2..] + room) == RoomKey(id.tenant, room);
  }

  /** Room publishes stay within their tenant, in all runs of a set of configured tenants, if and
      only if no tenant's prefix starts another's. */
  lemma IsolatedIff(cfg: Tenants, tenants: set<string>)
    requires Validated(cfg)
    ensures (forall events, tenant, room, c :: Configured(events, tenants) && tenant in tenants ==>
              !Crosses(cfg, events, tenant, room, c))
       <==> PrefixFree(tenants)
  {
    hide Crosses, Execute;
    forall events, tenant, room, c | PrefixFree(tenants) && Configured(events, tenants) && tenant in tenants
      ensures !Crosses(cfg, events, tenant, room, c)
    {
      StaysApart(cfg, events, tenants, tenant, room, c);
    }
    if t, v :| t in tenants && v in tenants && t != v && t + SEP <= v + SEP {
      var id := Identity(v, DEV, "");
      assert Validate(cfg(v).policy) == None;
      PrefixCrosses(cfg, t, id, "");
      assert Configured(Joining(id, ""), tenants);
    }
  }
}

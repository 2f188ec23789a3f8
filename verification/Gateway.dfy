/** The connection protocol: admission, room messages and teardown of every connection, as
    one state machine over the shared registry and presence.

    Counting, eviction, clearing the victim's rooms and inserting are separate steps of one
    admission, and unregistering and clearing the rooms are separate steps of one teardown;
    steps of different connections interleave freely. */
module Gateway {
  import opened Keys
  import opened Multimaps
  import opened Options
  import opened Config
  import Reg = RegistrySpec
  import Pres = PresenceSpec
  import opened PresenceLimits
  import opened PresenceInvariants
  import opened PresenceRefinement

  /** `Evicting`: over the user's limit, about to evict. `Kicking`: about to clear the victim's
      rooms. `Pending`: about to insert. `Live`: in the message loop. `Leaving`: unregistered,
      about to clear its rooms. `Gone`: refused or torn down. */
  datatype Phase =
    | Evicting
    | Kicking(victim: string)
    | Pending
    | Live(activeRoom: Option<string>)
    | Leaving
    | Gone

  datatype Conn = Conn(id: Identity, phase: Phase)

  datatype State = State(reg: Reg.State, pres: Pres.State, conns: map<nat, Conn>)

  const INIT := State(Reg.EMPTY, Pres.EMPTY, map[])

  datatype Event =
    | Arrive(c: nat, id: Identity)
    | Evict(c: nat)
    | Kick(c: nat)
    | Admit(c: nat)
    | JoinRoom(c: nat, room: string)
    | LeaveActive(c: nat)
    | Disconnect(c: nat)
    | Sweep(c: nat)

  function Key(conn: Conn): string {
    SessionKey(conn.id)
  }

  function SetPhase(g: State, c: nat, phase: Phase): State
    requires c in g.conns
  {
    g.(conns := g.conns[c := g.conns[c].(phase := phase)])
  }

  // ---- the steps ----

  /** The count of the user's sessions and the decision on it. */
  function OnArrive(cfg: Tenants, g: State, c: nat, id: Identity): State
  {
    var policy := cfg(id.tenant).policy.sessions;
    var phase :=
      if |At(g.reg.userIndex, UserKey(id))| < policy.maxSessionsPerUser then Pending
      else if policy.onExceed == Deny then Gone
      else Evicting;
    g.(conns := g.conns[c := Conn(id, phase)])
  }

  ghost function OnEvict(g: State, c: nat): State
    requires c in g.conns
  {
    var user := UserKey(g.conns[c].id);
    var victim := Reg.Oldest(g.reg, user);
    if victim.None? then SetPhase(g, c, Pending)
    else SetPhase(g.(reg := Reg.Remove(g.reg, user, victim.value)), c, Kicking(victim.value))
  }

  ghost function OnKick(g: State, c: nat): State
    requires c in g.conns && g.conns[c].phase.Kicking?
  {
    var id := g.conns[c].id;
    SetPhase(g.(pres := Pres.Cleanup(g.pres, id.tenant, UserKey(id), g.conns[c].phase.victim)), c, Pending)
  }

  function OnAdmit(cfg: Tenants, g: State, c: nat): State
    requires c in g.conns
  {
    var id := g.conns[c].id;
    var cap := cfg(id.tenant).limits.maxSessionsTotal;
    if Reg.Full(g.reg, id.tenant, cap) then SetPhase(g, c, Gone)
    else SetPhase(g.(reg := Reg.Insert(g.reg, id.tenant, UserKey(id), SessionKey(id), c)), c, Live(None))
  }

  function OnJoin(cfg: Tenants, g: State, c: nat, room: string): State
    requires c in g.conns
  {
    var id := g.conns[c].id;
    var key := RoomKey(id.tenant, room);
    if Pres.Verdict(g.pres, id.tenant, key, UserKey(id), cfg(id.tenant).limits) == None
    then SetPhase(g.(pres := Pres.Admit(g.pres, id.tenant, key, UserKey(id), SessionKey(id))), c, Live(Some(room)))
    else g
  }

  function OnLeave(g: State, c: nat): State
    requires c in g.conns && g.conns[c].phase.Live?
  {
    var id := g.conns[c].id;
    match g.conns[c].phase.activeRoom
    case None => g
    case Some(room) =>
      var key := RoomKey(id.tenant, room);
      SetPhase(g.(pres := Pres.Leave(g.pres, id.tenant, key, UserKey(id), SessionKey(id))), c, Live(None))
  }

  function OnDisconnect(g: State, c: nat): State
    requires c in g.conns
  {
    var id := g.conns[c].id;
    SetPhase(g.(reg := Reg.Remove(g.reg, UserKey(id), SessionKey(id))), c, Leaving)
  }

  ghost function OnSweep(g: State, c: nat): State
    requires c in g.conns
  {
    var id := g.conns[c].id;
    SetPhase(g.(pres := Pres.Cleanup(g.pres, id.tenant, UserKey(id), SessionKey(id))), c, Gone)
  }

  /** When a connection can take the step. */
  predicate Enabled(g: State, e: Event) {
    if e.Arrive? then e.c !in g.conns
    else e.c in g.conns && match e
      case Evict(c) => g.conns[c].phase.Evicting?
      case Kick(c) => g.conns[c].phase.Kicking?
      case Admit(c) => g.conns[c].phase.Pending?
      case Sweep(c) => g.conns[c].phase.Leaving?
      case _ => g.conns[e.c].phase.Live?
  }

  ghost function Step(cfg: Tenants, g: State, e: Event): State
    requires Enabled(g, e)
  {
    match e
    case Arrive(c, id) => OnArrive(cfg, g, c, id)
    case Evict(c) => OnEvict(g, c)
    case Kick(c) => OnKick(g, c)
    case Admit(c) => OnAdmit(cfg, g, c)
    case JoinRoom(c, room) => OnJoin(cfg, g, c, room)
    case LeaveActive(c) => OnLeave(g, c)
    case Disconnect(c) => OnDisconnect(g, c)
    case Sweep(c) => OnSweep(g, c)
  }

  /** A run: events, each enabled where it occurs; others are skipped. */
  ghost function Execute(cfg: Tenants, g: State, events: seq<Event>): State
    decreases |events|
  {
    if |events| == 0 then g
    else Execute(cfg, if Enabled(g, events[0]) then Step(cfg, g, events[0]) else g, events[1..])
  }

  lemma ExecuteOne(cfg: Tenants, g: State, events: seq<Event>)
    requires events != []
    ensures Execute(cfg, g, events)
         == Execute(cfg, if Enabled(g, events[0]) then Step(cfg, g, events[0]) else g, events[1..])
  {
  }

  lemma ExecuteNone(cfg: Tenants, g: State)
    ensures Execute(cfg, g, []) == g
  {
  }

  lemma ExecuteLast(cfg: Tenants, g: State, e: Event)
    ensures Execute(cfg, g, [e]) == if Enabled(g, e) then Step(cfg, g, e) else g
  {
    hide Execute, Step, Enabled;
    assert [e][1..] == [];
    ExecuteOne(cfg, g, [e]);
    ExecuteNone(cfg, if Enabled(g, e) then Step(cfg, g, e) else g);
  }

  lemma ExecuteTwo(cfg: Tenants, g: State, a: Event, b: Event)
    ensures var g1 := if Enabled(g, a) then Step(cfg, g, a) else g;
            Execute(cfg, g, [a, b]) == if Enabled(g1, b) then Step(cfg, g1, b) else g1
  {
    hide Step, Enabled, Execute;
    var g1 := if Enabled(g, a) then Step(cfg, g, a) else g;
    assert [a, b][1..] == [b] && [b][1..] == [];
    ExecuteOne(cfg, g, [a, b]);
    ExecuteOne(cfg, g1, [b]);
    ExecuteNone(cfg, if Enabled(g1, b) then Step(cfg, g1, b) else g1);
  }

  lemma ExecuteFour(cfg: Tenants, g: State, a: Event, b: Event, c: Event, d: Event)
    ensures var g1 := if Enabled(g, a) then Step(cfg, g, a) else g;
            var g2 := if Enabled(g1, b) then Step(cfg, g1, b) else g1;
            var g3 := if Enabled(g2, c) then Step(cfg, g2, c) else g2;
            Execute(cfg, g, [a, b, c, d]) == if Enabled(g3, d) then Step(cfg, g3, d) else g3
  {
    hide Step, Enabled, Execute;
    var g1 := if Enabled(g, a) then Step(cfg, g, a) else g;
    var g2 := if Enabled(g1, b) then Step(cfg, g1, b) else g1;
    assert [a, b, c, d][1..] == [b, c, d] && [b, c, d][1..] == [c, d];
    ExecuteOne(cfg, g, [a, b, c, d]);
    ExecuteOne(cfg, g1, [b, c, d]);
    ExecuteTwo(cfg, g2, c, d);
  }

  lemma {:induction false} ExecuteConcat(cfg: Tenants, g: State, first: seq<Event>, rest: seq<Event>)
    ensures Execute(cfg, g, first + rest) == Execute(cfg, Execute(cfg, g, first), rest)
    decreases |first|
  {
    hide Step, Enabled;
    if first == [] {
      assert first + rest == rest;
    } else {
      assert (first + rest)[0] == first[0] && (first + rest)[1..] == first[1..] + rest;
      ExecuteConcat(cfg, if Enabled(g, first[0]) then Step(cfg, g, first[0]) else g, first[1..], rest);
    }
  }

  /** Every arriving identity is well formed. */
  predicate WellFormedEvents(events: seq<Event>) {
    forall i :: 0 <= i < |events| && events[i].Arrive? ==> WellFormed(events[i].id)
  }

  function LimitsOf(cfg: Tenants): Limits {
    tenant => cfg(tenant).limits
  }

  // ---- coherence: what holds in every reachable state ----

  ghost predicate Identified(conns: map<nat, Conn>) {
    forall c :: c in conns ==>
      && WellFormed(conns[c].id)
      && (conns[c].phase.Kicking? ==>
           ConsistentSession(conns[c].id.tenant, UserKey(conns[c].id), conns[c].phase.victim))
  }

  /** Each registered session is that of the live connection that its entry names. */
  ghost predicate Backed(g: State) {
    forall s :: s in g.reg.sessions ==>
      var c := g.reg.sessions[s].conn;
      c in g.conns && g.conns[c].phase.Live? && Key(g.conns[c]) == s
  }

  ghost predicate Held(conns: map<nat, Conn>, s: string) {
    exists c :: c in conns && (conns[c].phase.Live? || conns[c].phase.Leaving?) && Key(conns[c]) == s
  }

  /** Each session in some room is held by a connection that has still to sweep. */
  ghost predicate Housed(g: State) {
    forall s :: At(g.pres.sessionRooms, s) != {} ==> Held(g.conns, s)
  }

  ghost predicate Coherent(cfg: Tenants, g: State) {
    && Reg.Agrees(g.reg)
    && Sound(g.pres, LimitsOf(cfg))
    && Identified(g.conns)
    && Backed(g)
    && Housed(g)
  }

  lemma InitCoherent(cfg: Tenants)
    ensures Coherent(cfg, INIT)
  {
    Reg.EmptyAgrees();
    EmptySound(LimitsOf(cfg));
  }

  /** A connection outside the message loop and teardown changes phase to another such one. */
  lemma PhaseOnly(g: State, c: nat, conn: Conn)
    requires Identified(g.conns) && Backed(g) && Housed(g)
    requires c in g.conns ==> !g.conns[c].phase.Live? && !g.conns[c].phase.Leaving?
    requires Identified(map[c := conn])
    ensures var next := g.(conns := g.conns[c := conn]);
            Identified(next.conns) && Backed(next) && Housed(next)
  {
    hide WellFormed, SessionKey, UserKey, ConsistentSession;
    var next := g.(conns := g.conns[c := conn]);
    assert c in map[c := conn];
    forall s | At(g.pres.sessionRooms, s) != {} ensures Held(next.conns, s) {
      var d :| d in g.conns && (g.conns[d].phase.Live? || g.conns[d].phase.Leaving?) && Key(g.conns[d]) == s;
      assert d in next.conns && next.conns[d] == g.conns[d];
    }
  }

  lemma ArriveCoherent(cfg: Tenants, g: State, c: nat, id: Identity)
    requires Coherent(cfg, g) && c !in g.conns && WellFormed(id)
    ensures Coherent(cfg, OnArrive(cfg, g, c, id))
  {
    hide Reg.Agrees, Sound, Backed, Housed, WellFormed, UserKey;
    PhaseOnly(g, c, OnArrive(cfg, g, c, id).conns[c]);
  }

  lemma RemoveBacked(g: State, user: string, session: string)
    requires Backed(g)
    ensures Backed(g.(reg := Reg.Remove(g.reg, user, session)))
  {
    hide Key;
  }

  lemma VictimConsistent(g: State, id: Identity, victim: string)
    requires Reg.Agrees(g.reg) && WellFormed(id) && Reg.IsOldest(g.reg, UserKey(id), victim)
    ensures ConsistentSession(id.tenant, UserKey(id), victim) && Owner(victim) == UserKey(id)
    ensures victim in g.reg.sessions
  {
    hide TenantOf, Owner, UserKey, ProperUser, WellFormed, Reg.CountsCover, Reg.Stamped;
    IdentityReadsBack(id, "");
  }

  lemma EvictCoherent(cfg: Tenants, g: State, c: nat)
    requires Coherent(cfg, g) && c in g.conns && g.conns[c].phase.Evicting?
    ensures Coherent(cfg, OnEvict(g, c))
  {
    hide Reg.Agrees, Sound, Backed, Housed, WellFormed, UserKey, ConsistentSession, Reg.Remove, Owner;
    var id := g.conns[c].id;
    var victim := Reg.Oldest(g.reg, UserKey(id));
    if victim.None? {
      PhaseOnly(g, c, Conn(id, Pending));
    } else {
      VictimConsistent(g, id, victim.value);
      Reg.RemoveAgrees(g.reg, UserKey(id), victim.value);
      RemoveBacked(g, UserKey(id), victim.value);
      var g1 := g.(reg := Reg.Remove(g.reg, UserKey(id), victim.value));
      assert Housed(g1) by { SameRoomsHoused(g, g1); }
      PhaseOnly(g1, c, Conn(id, Kicking(victim.value)));
    }
  }

  lemma SameRoomsHoused(g: State, g1: State)
    requires Housed(g) && g1.conns == g.conns
    requires forall s :: At(g1.pres.sessionRooms, s) <= At(g.pres.sessionRooms, s)
    ensures Housed(g1)
  {
    hide Key, Held, At;
  }

  lemma SameTableBacked(g: State, g1: State)
    requires Backed(g) && g1.conns == g.conns && g1.reg == g.reg
    ensures Backed(g1)
  {
    hide Key;
  }

  lemma KickCoherent(cfg: Tenants, g: State, c: nat)
    requires Coherent(cfg, g) && c in g.conns && g.conns[c].phase.Kicking?
    ensures Coherent(cfg, OnKick(g, c))
  {
    hide Reg.Agrees, Sound, Backed, Housed, WellFormed, UserKey, ConsistentSession, Pres.Cleanup, At;
    var id := g.conns[c].id;
    CleanupSound(g.pres, id.tenant, UserKey(id), g.conns[c].phase.victim, LimitsOf(cfg));
    var g1 := g.(pres := Pres.Cleanup(g.pres, id.tenant, UserKey(id), g.conns[c].phase.victim));
    SameRoomsHoused(g, g1);
    SameTableBacked(g, g1);
    PhaseOnly(g1, c, Conn(id, Pending));
  }

  lemma AdmitCoherent(cfg: Tenants, g: State, c: nat)
    requires Coherent(cfg, g) && c in g.conns && g.conns[c].phase.Pending?
    ensures Coherent(cfg, OnAdmit(cfg, g, c))
  {
    hide Reg.Agrees, Sound, Backed, Housed, WellFormed, UserKey, SessionKey, ConsistentSession, Reg.Insert, Reg.Full;
    var id := g.conns[c].id;
    PhaseOnly(g, c, Conn(id, Gone));
    PhaseOnly(g, c, Conn(id, Live(None)));
    SessionConsistent(id);
    Reg.InsertAgrees(g.reg, id.tenant, UserKey(id), SessionKey(id), c);
    var g1 := g.(conns := g.conns[c := Conn(id, Live(None))]);
    var g2 := g1.(reg := Reg.Insert(g.reg, id.tenant, UserKey(id), SessionKey(id), c));
    InsertBacked(g1, c);
    SameRoomsHoused(g1, g2);
  }

  lemma InsertBacked(g: State, c: nat)
    requires Backed(g) && c in g.conns && g.conns[c].phase.Live?
    ensures var id := g.conns[c].id;
            Backed(g.(reg := Reg.Insert(g.reg, id.tenant, UserKey(id), SessionKey(id), c)))
  {
    hide SessionKey, UserKey, Put;
  }

  /** A live connection changes its active room; teardown of `c` is accounted for below. */
  lemma LiveOnly(g: State, c: nat, room: Option<string>)
    requires Identified(g.conns) && Backed(g) && Housed(g)
    requires c in g.conns && g.conns[c].phase.Live?
    ensures var next := SetPhase(g, c, Live(room));
            Identified(next.conns) && Backed(next) && Housed(next)
  {
    hide WellFormed, SessionKey, UserKey, ConsistentSession;
    var next := SetPhase(g, c, Live(room));
    forall s | At(g.pres.sessionRooms, s) != {} ensures Held(next.conns, s) {
      var d :| d in g.conns && (g.conns[d].phase.Live? || g.conns[d].phase.Leaving?) && Key(g.conns[d]) == s;
      assert d in next.conns && (next.conns[d].phase.Live? || next.conns[d].phase.Leaving?) && Key(next.conns[d]) == s;
    }
  }

  lemma JoinCoherent(cfg: Tenants, g: State, c: nat, room: string)
    requires Coherent(cfg, g) && c in g.conns && g.conns[c].phase.Live?
    ensures Coherent(cfg, OnJoin(cfg, g, c, room))
  {
    hide Reg.Agrees, Sound, Backed, Housed, WellFormed, UserKey, SessionKey, RoomKey, ConsistentSession, Pres.Admit,
      Pres.Verdict, Consistent;
    var id := g.conns[c].id;
    var key := RoomKey(id.tenant, room);
    if Pres.Verdict(g.pres, id.tenant, key, UserKey(id), cfg(id.tenant).limits) == None {
      KeysConsistent(id, room);
      JoinSound(g.pres, id.tenant, key, UserKey(id), SessionKey(id), LimitsOf(cfg));
      var g1 := g.(pres := Pres.Admit(g.pres, id.tenant, key, UserKey(id), SessionKey(id)));
      SameTableBacked(g, g1);
      JoinHoused(g, c, key);
      LiveOnly(g1, c, Some(room));
    }
  }

  lemma JoinHoused(g: State, c: nat, key: string)
    requires Housed(g) && c in g.conns && g.conns[c].phase.Live?
    ensures var id := g.conns[c].id;
            Housed(g.(pres := Pres.Admit(g.pres, id.tenant, key, UserKey(id), SessionKey(id))))
  {
    hide SessionKey, UserKey, RefKey;
    var id := g.conns[c].id;
    var g1 := g.(pres := Pres.Admit(g.pres, id.tenant, key, UserKey(id), SessionKey(id)));
    forall s | At(g1.pres.sessionRooms, s) != {} ensures Held(g1.conns, s) {
      if s == SessionKey(id) { assert Key(g.conns[c]) == s; }
      else { assert At(g.pres.sessionRooms, s) != {}; }
    }
  }

  lemma LeaveCoherent(cfg: Tenants, g: State, c: nat)
    requires Coherent(cfg, g) && c in g.conns && g.conns[c].phase.Live?
    ensures Coherent(cfg, OnLeave(g, c))
  {
    hide Reg.Agrees, Sound, Backed, Housed, WellFormed, UserKey, SessionKey, RoomKey, ConsistentSession, Pres.Leave,
      Consistent;
    var id := g.conns[c].id;
    if g.conns[c].phase.activeRoom.Some? {
      var room := g.conns[c].phase.activeRoom.value;
      var key := RoomKey(id.tenant, room);
      KeysConsistent(id, room);
      LeaveSound(g.pres, id.tenant, key, UserKey(id), SessionKey(id), LimitsOf(cfg));
      var g1 := g.(pres := Pres.Leave(g.pres, id.tenant, key, UserKey(id), SessionKey(id)));
      SameTableBacked(g, g1);
      LeaveShrinks(g.pres, id.tenant, key, UserKey(id), SessionKey(id), LimitsOf(cfg));
      SameRoomsHoused(g, g1);
      LiveOnly(g1, c, None);
    }
  }

  lemma LeaveShrinks(pres: Pres.State, tenant: string, room: string, user: string, session: string, limits: Limits)
    requires Sound(pres, limits)
    ensures forall s :: At(Pres.Leave(pres, tenant, room, user, session).sessionRooms, s) <= At(pres.sessionRooms, s)
  {
    hide Owned, Within, Counted, Inverse, RefsMatch, RefKey;
  }

  lemma DisconnectCoherent(cfg: Tenants, g: State, c: nat)
    requires Coherent(cfg, g) && c in g.conns && g.conns[c].phase.Live?
    ensures Coherent(cfg, OnDisconnect(g, c))
  {
    hide Reg.Agrees, Sound, WellFormed, UserKey, SessionKey, ConsistentSession, Reg.Remove;
    var id := g.conns[c].id;
    SessionConsistent(id);
    assert Owner(SessionKey(id)) == UserKey(id) by { IdentityReadsBack(id, ""); }
    Reg.RemoveAgrees(g.reg, UserKey(id), SessionKey(id));
    DisconnectHolds(g, c);
  }

  lemma DisconnectHolds(g: State, c: nat)
    requires Identified(g.conns) && Backed(g) && Housed(g) && c in g.conns && g.conns[c].phase.Live?
    ensures Identified(OnDisconnect(g, c).conns) && Backed(OnDisconnect(g, c)) && Housed(OnDisconnect(g, c))
  {
    hide WellFormed, UserKey, SessionKey, ConsistentSession, Del;
    var next := OnDisconnect(g, c);
    forall s | At(g.pres.sessionRooms, s) != {} ensures Held(next.conns, s) {
      var d :| d in g.conns && (g.conns[d].phase.Live? || g.conns[d].phase.Leaving?) && Key(g.conns[d]) == s;
      assert d in next.conns && (next.conns[d].phase.Live? || next.conns[d].phase.Leaving?) && Key(next.conns[d]) == s;
    }
  }

  lemma SweepCoherent(cfg: Tenants, g: State, c: nat)
    requires Coherent(cfg, g) && c in g.conns && g.conns[c].phase.Leaving?
    ensures Coherent(cfg, OnSweep(g, c))
  {
    hide Reg.Agrees, Sound, WellFormed, UserKey, SessionKey, ConsistentSession, Pres.Cleanup;
    var id := g.conns[c].id;
    SessionConsistent(id);
    CleanupSound(g.pres, id.tenant, UserKey(id), SessionKey(id), LimitsOf(cfg));
    SweepHolds(g, c);
  }

  lemma SweepHolds(g: State, c: nat)
    requires Identified(g.conns) && Backed(g) && Housed(g) && c in g.conns && g.conns[c].phase.Leaving?
    requires forall s :: At(OnSweep(g, c).pres.sessionRooms, s)
                      == if s == Key(g.conns[c]) then {} else At(g.pres.sessionRooms, s)
    ensures Identified(OnSweep(g, c).conns) && Backed(OnSweep(g, c)) && Housed(OnSweep(g, c))
  {
    hide WellFormed, UserKey, SessionKey, ConsistentSession, Pres.Cleanup;
    var next := OnSweep(g, c);
    forall s | At(next.pres.sessionRooms, s) != {} ensures Held(next.conns, s) {
      assert At(g.pres.sessionRooms, s) != {};
      var d :| d in g.conns && (g.conns[d].phase.Live? || g.conns[d].phase.Leaving?) && Key(g.conns[d]) == s;
      assert d in next.conns && next.conns[d] == g.conns[d];
    }
  }

  lemma StepCoherent(cfg: Tenants, g: State, e: Event)
    requires Coherent(cfg, g) && Enabled(g, e) && (e.Arrive? ==> WellFormed(e.id))
    ensures Coherent(cfg, Step(cfg, g, e))
  {
    hide Coherent, WellFormed, OnArrive, OnEvict, OnKick, OnAdmit, OnJoin, OnLeave, OnDisconnect, OnSweep;
    match e
    case Arrive(c, id) => ArriveCoherent(cfg, g, c, id);
    case Evict(c) => EvictCoherent(cfg, g, c);
    case Kick(c) => KickCoherent(cfg, g, c);
    case Admit(c) => AdmitCoherent(cfg, g, c);
    case JoinRoom(c, room) => JoinCoherent(cfg, g, c, room);
    case LeaveActive(c) => LeaveCoherent(cfg, g, c);
    case Disconnect(c) => DisconnectCoherent(cfg, g, c);
    case Sweep(c) => SweepCoherent(cfg, g, c);
  }

  lemma {:induction false} RunCoherent(cfg: Tenants, g: State, events: seq<Event>)
    requires Coherent(cfg, g) && WellFormedEvents(events)
    ensures Coherent(cfg, Execute(cfg, g, events))
    decreases |events|
  {
    hide Coherent, WellFormed, Enabled, Step;
    if |events| != 0 {
      if Enabled(g, events[0]) { StepCoherent(cfg, g, events[0]); }
      RunCoherent(cfg, if Enabled(g, events[0]) then Step(cfg, g, events[0]) else g, events[1..]);
    }
  }

  /** Connections keep their identity; only an arrival adds one. */
  lemma IdsKept(cfg: Tenants, g: State, e: Event)
    requires Enabled(g, e)
    ensures Step(cfg, g, e).conns.Keys == if e.Arrive? then g.conns.Keys + {e.c} else g.conns.Keys
    ensures forall c :: c in g.conns ==> Step(cfg, g, e).conns[c].id == g.conns[c].id
  {
    hide UserKey, SessionKey, RoomKey, At, Reg.Oldest, Reg.Remove, Reg.Insert, Reg.Full, Pres.Cleanup, Pres.Admit,
      Pres.Leave, Pres.Verdict;
  }

  // ---- the first steps ----

  lemma Opened(cfg: Tenants, id: Identity)
    requires cfg(id.tenant).policy.sessions.maxSessionsPerUser >= 1
    ensures var g := OnArrive(cfg, INIT, 0, id);
            && g.conns == map[0 := Conn(id, Pending)]
            && OnAdmit(cfg, g, 0).pres == Pres.EMPTY
            && OnAdmit(cfg, g, 0).reg == Reg.Insert(Reg.EMPTY, id.tenant, UserKey(id), SessionKey(id), 0)
            && OnAdmit(cfg, g, 0).conns == map[0 := Conn(id, Live(None))]
  {
    hide UserKey, SessionKey, Reg.Insert;
  }

  lemma JoinMessage(cfg: Tenants, g: State, id: Identity, active: Option<string>, room: string)
    requires g.conns == map[0 := Conn(id, Live(active))]
    requires Pres.Verdict(g.pres, id.tenant, RoomKey(id.tenant, room), UserKey(id), cfg(id.tenant).limits) == None
    ensures var next := OnJoin(cfg, g, 0, room);
            && next.pres == Pres.Admit(g.pres, id.tenant, RoomKey(id.tenant, room), UserKey(id), SessionKey(id))
            && next.reg == g.reg && next.conns == map[0 := Conn(id, Live(Some(room)))]
  {
    hide Pres.Verdict, Pres.Admit, UserKey, SessionKey, RoomKey;
  }

  lemma FirstVerdicts(tenant: string, room: string, user: string, session: string, limits: TenantLimits)
    ensures Pres.Verdict(Pres.EMPTY, tenant, room, user, limits) == None
    ensures Pres.Verdict(Pres.Admit(Pres.EMPTY, tenant, room, user, session), tenant, room, user, limits) == None
  {
    hide RefKey;
  }
}

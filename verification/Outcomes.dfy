/** What each step of the protocol does, exactly and in terms of who is registered and who sits
    in which room; and what an admission as a whole comes to, in both modes. */
module Outcomes {
  import opened Keys
  import opened Multimaps
  import opened Options
  import opened Config
  import Reg = RegistrySpec
  import Pres = PresenceSpec
  import opened PresenceLimits
  import opened PresenceInvariants
  import opened Gateway
  import opened FanoutSpec
  import opened Lifecycle

  // ---- the registry, step by step ----

  /** The event registers the key for its connection. */
  predicate Accepts(cfg: Tenants, g: State, e: Event, key: string) {
    && e.Admit? && Enabled(g, e) && Key(g.conns[e.c]) == key
    && (var limits := cfg(g.conns[e.c].id.tenant).limits;
        limits.maxSessionsTotal == 0 || CountOf(g.reg.tenantCounts, g.conns[e.c].id.tenant) < limits.maxSessionsTotal)
  }

  /** The event takes the key out: its connection's own disconnect, or an eviction for which it
      is the oldest of its user's. */
  ghost predicate TakesOut(g: State, e: Event, key: string) {
    && Enabled(g, e)
    && (|| (e.Disconnect? && Key(g.conns[e.c]) == key)
        || (e.Evict? && Reg.Oldest(g.reg, UserKey(g.conns[e.c].id)) == Some(key)))
  }

  /** Exactly what a step does to the session table: an accepted admission puts its connection's
      entry under its key, in place of any older one and newer than all others; eviction and
      disconnect take one key out; no other entry changes. */
  lemma StepSessions(cfg: Tenants, g: State, e: Event, key: string)
    requires Coherent(cfg, g) && Enabled(g, e)
    ensures var before, after := g.reg.sessions, Step(cfg, g, e).reg.sessions;
            && (Accepts(cfg, g, e, key) ==>
                  && key in after && after[key].conn == e.c
                  && forall s :: s in after && s != key ==> s in before && after[s].createdSeq < after[key].createdSeq)
            && (!Accepts(cfg, g, e, key) ==>
                  && (key in after <==> key in before && !TakesOut(g, e, key))
                  && (key in after ==> after[key] == before[key]))
  {
    hide UserKey, SessionKey, RoomKey, At, Put, Del, Sound, Backed, Housed, Identified, Reg.IsOldest, Reg.Indexed,
      Reg.Tenanted, Reg.CountsCover, Pres.Cleanup, Pres.Admit, Pres.Leave, Pres.Verdict;
  }

  // ---- the rooms, step by step ----

  /** The event takes the session into the room: an accepted join of its connection. */
  predicate Enters(cfg: Tenants, g: State, e: Event, room: string, session: string) {
    && e.JoinRoom? && Enabled(g, e) && Key(g.conns[e.c]) == session && RoomKey(g.conns[e.c].id.tenant, e.room) == room
    && Pres.Verdict(g.pres, g.conns[e.c].id.tenant, room, UserKey(g.conns[e.c].id), cfg(g.conns[e.c].id.tenant).limits)
      == None
  }

  /** The event takes the session out of the room: its connection's leave of this active room, or
      the clearing of all its rooms, by itself or by the connection that evicted it. */
  predicate Exits(g: State, e: Event, room: string, session: string) {
    && Enabled(g, e)
    && match e
       case LeaveActive(c) =>
         && Key(g.conns[c]) == session && g.conns[c].phase.activeRoom.Some?
         && RoomKey(g.conns[c].id.tenant, g.conns[c].phase.activeRoom.value) == room
       case Kick(c) => g.conns[c].phase.victim == session
       case Sweep(c) => Key(g.conns[c]) == session
       case _ => false
  }

  /** Exactly what a step does to who sits in which room. */
  lemma StepMembers(cfg: Tenants, g: State, e: Event, room: string, session: string)
    requires Coherent(cfg, g) && Enabled(g, e)
    ensures session in At(Step(cfg, g, e).pres.roomSessions, room)
       <==> || Enters(cfg, g, e, room, session)
            || (session in At(g.pres.roomSessions, room) && !Exits(g, e, room, session))
  {
    hide UserKey, SessionKey, RoomKey, At, Reg.Agrees, Backed, Housed, WellFormed, Owned, Within, Governance,
      Inverse, Counted, ConsistentSession, Pres.Cleanup, Pres.Leave, Pres.Verdict, Reg.Oldest, Reg.Remove,
      Reg.Insert, Reg.Full;
    match e
    case Kick(c) =>
      var id := g.conns[c].id;
      CleanupSound(g.pres, id.tenant, UserKey(id), g.conns[c].phase.victim, LimitsOf(cfg));
    case Sweep(c) =>
      var id := g.conns[c].id;
      SessionConsistent(id);
      CleanupSound(g.pres, id.tenant, UserKey(id), SessionKey(id), LimitsOf(cfg));
    case LeaveActive(c) =>
      var id := g.conns[c].id;
      if g.conns[c].phase.activeRoom.Some? {
        SoundNoEmpty(g.pres, LimitsOf(cfg));
        LeaveMembers(g.pres, id.tenant, RoomKey(id.tenant, g.conns[c].phase.activeRoom.value), UserKey(id),
          SessionKey(id));
      }
    case _ =>
  }

  /** What a step does to a connection in the message loop: only its own join, leave and
      disconnect concern it; an accepted join makes the room active, a refused one changes
      nothing, and a leave gives up the active room. */
  lemma StepLive(cfg: Tenants, g: State, e: Event, c: nat)
    requires Enabled(g, e) && c in g.conns && g.conns[c].phase.Live?
    ensures var next := Step(cfg, g, e);
            && c in next.conns && next.conns[c].id == g.conns[c].id
            && (next.conns[c].phase.Live? <==> e != Disconnect(c))
            && (e.c != c ==> next.conns[c] == g.conns[c])
            && (e == LeaveActive(c) ==> next.conns[c].phase == Live(None))
            && (e.JoinRoom? && e.c == c ==>
                  if Enters(cfg, g, e, RoomKey(g.conns[c].id.tenant, e.room), Key(g.conns[c]))
                  then next.conns[c].phase == Live(Some(e.room)) else next == g)
  {
    hide UserKey, SessionKey, RoomKey, At, Pres.Cleanup, Pres.Admit, Pres.Leave, Pres.Verdict, Reg.Oldest,
      Reg.Remove, Reg.Insert, Reg.Full;
  }

  // ---- the last connection accepted with a key owns it ----

  /** The last connection of a run that was accepted with the key; `last` before the run. */
  ghost function LastAccepted(cfg: Tenants, g: State, events: seq<Event>, key: string, last: Option<nat>): Option<nat>
    decreases |events|
  {
    if |events| == 0 then last
    else
      LastAccepted(cfg, if Enabled(g, events[0]) then Step(cfg, g, events[0]) else g, events[1..], key,
                   if Accepts(cfg, g, events[0], key) then Some(events[0].c) else last)
  }

  lemma {:induction false} RunOwner(cfg: Tenants, g: State, events: seq<Event>, key: string, last: Option<nat>)
    requires Coherent(cfg, g) && WellFormedEvents(events)
    requires key in g.reg.sessions ==> last == Some(g.reg.sessions[key].conn)
    ensures var sessions := Execute(cfg, g, events).reg.sessions;
            key in sessions ==> LastAccepted(cfg, g, events, key, last) == Some(sessions[key].conn)
    decreases |events|
  {
    hide Coherent, WellFormed, Step;
    if |events| != 0 {
      var next := if Enabled(g, events[0]) then Step(cfg, g, events[0]) else g;
      var last' := if Accepts(cfg, g, events[0], key) then Some(events[0].c) else last;
      if Enabled(g, events[0]) {
        StepCoherent(cfg, g, events[0]);
        StepSessions(cfg, g, events[0], key);
      }
      hide Enabled, Accepts, TakesOut;
      RunOwner(cfg, next, events[1..], key, last');
    }
  }

  /** In every reachable state a registered key names the queue of the last connection accepted
      with it, however often the key was registered before; a send to that session is offered to
      this connection and to no other. */
  lemma LastAcceptedOwns(cfg: Tenants, events: seq<Event>, key: string)
    requires WellFormedEvents(events) && key in Execute(cfg, INIT, events).reg.sessions
    ensures var sessions := Execute(cfg, INIT, events).reg.sessions;
            var last := LastAccepted(cfg, INIT, events, key, None);
            && last == Some(sessions[key].conn)
            && Targets(sessions, {key}) == {last.value}
  {
    hide Execute, Coherent, WellFormed;
    InitCoherent(cfg);
    RunOwner(cfg, INIT, events, key, None);
  }

  // ---- a whole admission ----

  function Admission(c: nat, id: Identity): seq<Event> {
    [Arrive(c, id), Evict(c), Kick(c), Admit(c)]
  }

  /** The user has as many listed sessions as the policy allows. */
  predicate AtLimit(cfg: Tenants, g: State, id: Identity) {
    |At(g.reg.userIndex, UserKey(id))| >= cfg(id.tenant).policy.sessions.maxSessionsPerUser
  }

  /** In deny mode a connect at the limit is turned away: nobody is evicted, nothing is
      registered, and the connection never enters the message loop. */
  lemma DeniedAtLimit(cfg: Tenants, g: State, c: nat, id: Identity)
    requires c !in g.conns && AtLimit(cfg, g, id) && cfg(id.tenant).policy.sessions.onExceed == Deny
    ensures Execute(cfg, g, Admission(c, id)) == State(g.reg, g.pres, g.conns[c := Conn(id, Gone)])
  {
    hide Execute, UserKey, SessionKey, At;
    ExecuteFour(cfg, g, Arrive(c, id), Evict(c), Kick(c), Admit(c));
  }

  /** Below the limit, in either mode, a connect is accepted exactly when the tenant has a slot,
      and concerns nobody else's session unless the key is theirs. */
  lemma BelowLimit(cfg: Tenants, g: State, c: nat, id: Identity)
    requires c !in g.conns && !AtLimit(cfg, g, id)
    ensures var cap := cfg(id.tenant).limits.maxSessionsTotal;
            var slot := cap == 0 || CountOf(g.reg.tenantCounts, id.tenant) < cap;
            var after := Execute(cfg, g, Admission(c, id));
            && after.pres == g.pres
            && after.conns == g.conns[c := Conn(id, if slot then Live(None) else Gone)]
            && after.reg == if slot then Reg.Insert(g.reg, id.tenant, UserKey(id), SessionKey(id), c) else g.reg
  {
    hide Execute, UserKey, SessionKey, At, Reg.Insert;
    ExecuteFour(cfg, g, Arrive(c, id), Evict(c), Kick(c), Admit(c));
  }

  lemma EvictFreesSlot(cfg: Tenants, g: State, id: Identity)
    requires Coherent(cfg, g) && Capped(cfg, g.reg.tenantCounts) && WellFormed(id)
    requires At(g.reg.userIndex, UserKey(id)) != {}
    ensures Reg.Oldest(g.reg, UserKey(id)).Some?
    ensures !Reg.Full(Reg.Remove(g.reg, UserKey(id), Reg.Oldest(g.reg, UserKey(id)).value), id.tenant,
                      cfg(id.tenant).limits.maxSessionsTotal)
  {
    hide Sound, Backed, Housed, Identified, UserKey, WellFormed, TenantOf, Owner, ProperUser, At, Reg.Stamped,
      Reg.Indexed;
    Reg.OldestExists(g.reg, UserKey(id));
    var victim := Reg.Oldest(g.reg, UserKey(id)).value;
    VictimConsistent(g, id, victim);
    Reg.Registered(g.reg, victim);
  }

  /** In kick-oldest mode a connect at the limit always gets in, whatever the tenant's cap: the
      user's oldest session goes, from the registry and from every room, and makes the slot. */
  lemma KickedIn(cfg: Tenants, g: State, c: nat, id: Identity)
    requires Coherent(cfg, g) && Capped(cfg, g.reg.tenantCounts) && WellFormed(id) && c !in g.conns
    requires AtLimit(cfg, g, id) && cfg(id.tenant).policy.sessions.onExceed == KickOldest
    requires cfg(id.tenant).policy.sessions.maxSessionsPerUser >= 1
    ensures var user := UserKey(id);
            var oldest := Reg.Oldest(g.reg, user);
            var after := Execute(cfg, g, Admission(c, id));
            && oldest.Some? && Reg.IsOldest(g.reg, user, oldest.value)
            && after.reg == Reg.Insert(Reg.Remove(g.reg, user, oldest.value), id.tenant, user, SessionKey(id), c)
            && after.pres == Pres.Cleanup(g.pres, id.tenant, user, oldest.value)
            && after.conns == g.conns[c := Conn(id, Live(None))]
  {
    hide Execute, Coherent, Capped, Admission, UserKey, Reg.IsOldest, Reg.Remove, Reg.Insert, Reg.Full, Pres.Cleanup;
    EvictFreesSlot(cfg, g, id);
    KickSteps(cfg, g, c, id, Reg.Oldest(g.reg, UserKey(id)).value);
  }

  lemma KickSteps(cfg: Tenants, g: State, c: nat, id: Identity, victim: string)
    requires c !in g.conns && AtLimit(cfg, g, id) && cfg(id.tenant).policy.sessions.onExceed == KickOldest
    requires Reg.Oldest(g.reg, UserKey(id)) == Some(victim)
    requires !Reg.Full(Reg.Remove(g.reg, UserKey(id), victim), id.tenant, cfg(id.tenant).limits.maxSessionsTotal)
    ensures var user := UserKey(id);
            Execute(cfg, g, Admission(c, id))
              == State(Reg.Insert(Reg.Remove(g.reg, user, victim), id.tenant, user, SessionKey(id), c),
                       Pres.Cleanup(g.pres, id.tenant, user, victim),
                       g.conns[c := Conn(id, Live(None))])
  {
    hide Execute, UserKey, SessionKey, At, Reg.Oldest, Reg.Remove, Reg.Insert, Reg.Full, Pres.Cleanup;
    ExecuteFour(cfg, g, Arrive(c, id), Evict(c), Kick(c), Admit(c));
    var arrived := OnArrive(cfg, g, c, id);
    assert arrived == g.(conns := g.conns[c := Conn(id, Evicting)]);
    var kicking := OnEvict(arrived, c);
    assert kicking == State(Reg.Remove(g.reg, UserKey(id), victim), g.pres, g.conns[c := Conn(id, Kicking(victim))]);
    var pending := OnKick(kicking, c);
    assert pending.conns == g.conns[c := Conn(id, Pending)];
  }

  // ---- tenants that deny ----

  ghost predicate Denying(cfg: Tenants, events: seq<Event>) {
    forall i :: 0 <= i < |events| && events[i].Arrive? ==> cfg(events[i].id.tenant).policy.sessions.onExceed == Deny
  }

  predicate NobodyEvicts(conns: map<nat, Conn>) {
    forall c :: c in conns ==> !conns[c].phase.Evicting? && !conns[c].phase.Kicking?
  }

  lemma {:induction false} RunDenies(cfg: Tenants, g: State, events: seq<Event>)
    requires NobodyEvicts(g.conns) && Denying(cfg, events)
    ensures NobodyEvicts(Execute(cfg, g, events).conns)
    decreases |events|
  {
    hide UserKey, SessionKey, RoomKey, At, Pres.Cleanup, Pres.Admit, Pres.Leave, Pres.Verdict, Reg.Oldest,
      Reg.Remove, Reg.Insert, Reg.Full;
    if |events| != 0 {
      RunDenies(cfg, if Enabled(g, events[0]) then Step(cfg, g, events[0]) else g, events[1..]);
    }
  }

  /** If every arriving tenant denies, no run ever comes to an eviction, and a registered session
      ends only with the disconnect of a connection with its own key. */
  lemma DenyNeverEvicts(cfg: Tenants, events: seq<Event>, e: Event, key: string)
    requires WellFormedEvents(events) && Denying(cfg, events) && Enabled(Execute(cfg, INIT, events), e)
    ensures !e.Evict? && !e.Kick?
    ensures var g := Execute(cfg, INIT, events);
            key in g.reg.sessions && key !in Step(cfg, g, e).reg.sessions ==> e.Disconnect? && Key(g.conns[e.c]) == key
  {
    hide Execute, Coherent, WellFormed, Step;
    InitCoherent(cfg);
    RunCoherent(cfg, INIT, events);
    RunDenies(cfg, INIT, events);
    StepSessions(cfg, Execute(cfg, INIT, events), e, key);
  }
}

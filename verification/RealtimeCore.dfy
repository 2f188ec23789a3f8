/** The shared core that connection tasks work on: registry, presence and outbound queues.
    Each method is a piece of a connection's task, proved to be the corresponding protocol
    steps of `Gateway` or the broadcast of `FanoutSpec`. */
module RealtimeCores {
  import opened Keys
  import opened Multimaps
  import opened Options
  import opened Config
  import Pres = PresenceSpec
  import Reg = RegistrySpec
  import opened SessionRegistries
  import opened Presences
  import opened Gateway
  import opened FanoutSpec

  class RealtimeCore {
    const sessions: SessionRegistry
    const presence: Presence
    var conns: map<nat, Conn>
    var queues: map<nat, Queue>
    var drops: nat

    function View(): State
      reads this, sessions, presence
    {
      State(sessions.View(), presence.View(), conns)
    }

    function Outbound(): Hub
      reads this
    {
      Hub(queues, drops)
    }

    ghost predicate Valid()
      reads this, sessions, presence
    {
      sessions.Valid() && presence.Valid()
    }

    constructor ()
      ensures Valid() && View() == INIT && Outbound() == Hub(map[], 0)
      ensures fresh(sessions) && fresh(presence)
    {
      sessions := new SessionRegistry();
      presence := new Presence();
      conns, queues, drops := map[], map[], 0;
    }

    // ---- admission, one atomic step each ----

    method Arrive(cfg: Tenants, c: nat, id: Identity)
      requires Valid() && Enabled(View(), Event.Arrive(c, id))
      modifies this`conns
      ensures Valid() && View() == OnArrive(cfg, old(View()), c, id)
    {
      var policy := cfg(id.tenant).policy.sessions;
      var count := sessions.CountUserSessions(UserKey(id));
      var phase := Pending;
      if count >= policy.maxSessionsPerUser {
        match policy.onExceed {
          case Deny => phase := Gone;
          case KickOldest => phase := Evicting;
        }
      }
      conns := conns[c := Conn(id, phase)];
    }

    method EvictFor(c: nat)
      requires Valid() && Enabled(View(), Event.Evict(c))
      modifies this`conns, sessions
      ensures Valid() && View() == OnEvict(old(View()), c) && sessions.nextSeq == old(sessions.nextSeq)
    {
      var victim := sessions.EvictOldest(UserKey(conns[c].id));
      var phase := if victim.None? then Pending else Kicking(victim.value.0);
      conns := conns[c := conns[c].(phase := phase)];
    }

    method KickFor(c: nat)
      requires Valid() && Enabled(View(), Event.Kick(c))
      modifies this`conns, presence
      ensures Valid() && View() == OnKick(old(View()), c)
    {
      var id := conns[c].id;
      presence.CleanupSession(id.tenant, UserKey(id), conns[c].phase.victim);
      conns := conns[c := conns[c].(phase := Pending)];
    }

    method Admit(cfg: Tenants, c: nat) returns (ok: bool)
      requires Valid() && Enabled(View(), Event.Admit(c)) && sessions.nextSeq < U64_MAX
      modifies this`conns, sessions
      ensures Valid() && View() == OnAdmit(cfg, old(View()), c)
      ensures ok == conns[c].phase.Live?
    {
      var id := conns[c].id;
      ok := sessions.TryInsert(id.tenant, UserKey(id), SessionKey(id), c, cfg(id.tenant).limits.maxSessionsTotal);
      conns := conns[c := conns[c].(phase := if ok then Live(None) else Gone)];
    }

    /** The whole admission without interruption is its steps in order; those that the
        decision made unnecessary are skipped. */
    method Open(cfg: Tenants, c: nat, id: Identity) returns (ok: bool)
      requires Valid() && Enabled(View(), Event.Arrive(c, id)) && sessions.nextSeq < U64_MAX
      modifies this`conns, sessions, presence
      ensures Valid()
      ensures View() == Execute(cfg, old(View()), [Event.Arrive(c, id), Event.Evict(c), Event.Kick(c), Event.Admit(c)])
      ensures c in conns && (ok <==> conns[c].phase.Live?)
    {
      ExecuteFour(cfg, View(), Event.Arrive(c, id), Event.Evict(c), Event.Kick(c), Event.Admit(c));
      hide Execute, Reg.Oldest, Reg.Full, Reg.Insert, Pres.Cleanup, Reg.Remove, UserKey, SessionKey, At, Reg.Stamped,
        Pres.NoEmpty;
      Arrive(cfg, c, id);
      if conns[c].phase.Evicting? { EvictFor(c); }
      if conns[c].phase.Kicking? { KickFor(c); }
      ok := false;
      if conns[c].phase.Pending? { ok := Admit(cfg, c); }
    }

    // ---- the message loop ----

    method HandleJoin(cfg: Tenants, c: nat, room: string) returns (error: Option<Pres.JoinError>)
      requires Valid() && Enabled(View(), Event.JoinRoom(c, room))
      modifies this`conns, presence
      ensures Valid() && View() == OnJoin(cfg, old(View()), c, room)
      ensures error == Pres.Verdict(old(presence.View()), conns[c].id.tenant, RoomKey(conns[c].id.tenant, room),
                                    UserKey(conns[c].id), cfg(conns[c].id.tenant).limits)
    {
      var id := conns[c].id;
      error := presence.TryJoin(id.tenant, RoomKey(id.tenant, room), UserKey(id), SessionKey(id),
        cfg(id.tenant).limits);
      if error == None {
        conns := conns[c := conns[c].(phase := Live(Some(room)))];
      }
    }

    method HandleLeave(c: nat)
      requires Valid() && Enabled(View(), Event.LeaveActive(c))
      modifies this`conns, presence
      ensures Valid() && View() == OnLeave(old(View()), c)
    {
      var id := conns[c].id;
      var active := conns[c].phase.activeRoom;
      if active.Some? {
        conns := conns[c := conns[c].(phase := Live(None))];
        presence.Leave(id.tenant, RoomKey(id.tenant, active.value), UserKey(id), SessionKey(id));
      }
    }

    /** The cleanup guard of a connection, run once on every exit. */
    method Teardown(cfg: Tenants, c: nat)
      requires Valid() && Enabled(View(), Event.Disconnect(c))
      modifies this`conns, sessions, presence
      ensures Valid()
      ensures View() == Execute(cfg, old(View()), [Event.Disconnect(c), Event.Sweep(c)])
    {
      ExecuteTwo(cfg, View(), Event.Disconnect(c), Event.Sweep(c));
      hide Execute, Pres.Cleanup, Reg.Remove, UserKey, SessionKey;
      var id := conns[c].id;
      var _ := sessions.RemoveSession(UserKey(id), SessionKey(id));
      conns := conns[c := conns[c].(phase := Leaving)];
      presence.CleanupSession(id.tenant, UserKey(id), SessionKey(id));
      conns := conns[c := conns[c].(phase := Gone)];
    }

    // ---- egress ----

    /** Offers the message to the queue of every registered key, in any order. */
    method Broadcast(keys: set<string>, m: Msg)
      requires OwnQueues(sessions.sessions)
      modifies this`queues, this`drops
      ensures Outbound() == Deliver(old(Outbound()), Targets(sessions.sessions, keys), m)
      ensures Offered(old(Outbound()), Outbound(), Targets(sessions.sessions, keys), m)
    {
      var todo := keys;
      assert Targets(sessions.sessions, keys - todo) == {};
      assert Outbound() == Deliver(Outbound(), {}, m) by { assert Refusing(queues, {}) == {}; }
      while todo != {}
        invariant todo <= keys
        invariant Outbound() == Deliver(old(Outbound()), Targets(sessions.sessions, keys - todo), m)
        decreases todo
      {
        hide Deliver, SessionKey;
        var s :| s in todo;
        var conn := sessions.GetSession(s);
        ghost var sent := Targets(sessions.sessions, keys - todo);
        if conn.Some? {
          assert conn.value !in sent;
          TrySendOne(old(Outbound()), sent, conn.value, m);
          assert Targets(sessions.sessions, keys - (todo - {s})) == sent + {conn.value};
          if conn.value in queues && queues[conn.value].open && |queues[conn.value].items| < CAPACITY {
            queues := queues[conn.value := Queue(queues[conn.value].items + [m], true)];
          } else {
            drops := drops + 1;
          }
        } else {
          assert Targets(sessions.sessions, keys - (todo - {s})) == sent;
        }
        todo := todo - {s};
      }
      assert keys - todo == keys;
      hide Deliver, Offered;
      DeliverOffers(old(Outbound()), Targets(sessions.sessions, keys), m);
    }

    /** `prepared` is the encoded payload, or nothing when it could not be encoded. */
    method PublishRoomLossy(room: string, prepared: Option<Msg>) returns (ok: bool)
      requires OwnQueues(sessions.sessions)
      modifies this`queues, this`drops
      ensures ok == prepared.Some?
      ensures Outbound() == if ok
        then Deliver(old(Outbound()), Targets(sessions.sessions, At(presence.roomSessions, room)), prepared.value)
        else old(Outbound())
    {
      if prepared.None? { return false; }
      var members := presence.SessionsIn(room);
      Broadcast(members, prepared.value);
      return true;
    }

    method SendToUser(user: string, prepared: Option<Msg>) returns (ok: bool)
      requires OwnQueues(sessions.sessions)
      modifies this`queues, this`drops
      ensures var targets := Targets(sessions.sessions, At(sessions.userIndex, user));
              && ok == (targets != {} && prepared.Some?)
              && Outbound() == if ok then Deliver(old(Outbound()), targets, prepared.value) else old(Outbound())
    {
      var keys := if user in sessions.userIndex then sessions.userIndex[user] else {};
      var registered := set s | s in keys && s in sessions.sessions;
      if registered == {} {
        forall s | s in keys ensures s !in sessions.sessions { assert s !in registered; }
        assert Targets(sessions.sessions, keys) == {};
        return false;
      }
      var any :| any in registered;
      assert sessions.sessions[any].conn in Targets(sessions.sessions, keys);
      if prepared.None? { return false; }
      Broadcast(registered, prepared.value);
      assert Targets(sessions.sessions, registered) == Targets(sessions.sessions, keys);
      return true;
    }

    method SendToSession(session: string, prepared: Option<Msg>) returns (ok: bool)
      requires OwnQueues(sessions.sessions)
      modifies this`queues, this`drops
      ensures ok == (session in sessions.sessions && prepared.Some?)
      ensures Outbound() == if ok
        then Deliver(old(Outbound()), {sessions.sessions[session].conn}, prepared.value)
        else old(Outbound())
    {
      var conn := sessions.GetSession(session);
      if conn.None? || prepared.None? { return false; }
      Broadcast({session}, prepared.value);
      assert Targets(sessions.sessions, {session}) == {conn.value};
      return true;
    }
  }
}

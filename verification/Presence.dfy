/** The room-presence object: six maps updated in place, each operation one atomic step. */
module Presences {
  import opened Keys
  import opened Multimaps
  import opened Options
  import opened Config
  import Spec = PresenceSpec

  class Presence {
    // routing
    var roomSessions: Multimap
    var sessionRooms: Multimap
    // governance
    var roomUsers: Multimap
    var userRooms: Multimap
    var refs: map<string, nat>
    var roomCounts: map<string, nat>

    function View(): Spec.State
      reads this
    {
      Spec.State(roomSessions, sessionRooms, roomUsers, userRooms, refs, roomCounts)
    }

    ghost predicate Valid()
      reads this
    {
      Spec.NoEmpty(View())
    }

    constructor ()
      ensures Valid() && View() == Spec.EMPTY
    {
      roomSessions, sessionRooms, roomUsers, userRooms := map[], map[], map[], map[];
      refs, roomCounts := map[], map[];
    }

    method TryJoin(tenant: string, room: string, user: string, session: string, limits: TenantLimits)
      returns (error: Option<Spec.JoinError>)
      requires Valid()
      modifies this
      ensures Valid()
      ensures error == Spec.Verdict(old(View()), tenant, room, user, limits)
      ensures View() == Spec.TryJoin(old(View()), tenant, room, user, session, limits)
    {
      hide RefKey, Spec.NoEmpty, Put, At;
      // room capacity
      if limits.maxUsersPerRoom > 0 && room in roomUsers {
        var users := roomUsers[room];
        if |users| >= limits.maxUsersPerRoom && user !in users {
          return Some(Spec.RoomUserLimit);
        }
      }
      // the user's rooms
      if limits.maxRoomsPerUser > 0 && user in userRooms {
        var rooms := userRooms[user];
        if |rooms| >= limits.maxRoomsPerUser && room !in rooms {
          return Some(Spec.UserRoomLimit);
        }
      }
      // the tenant's rooms: the counter entry is created before it is read
      if room !in roomSessions {
        if tenant !in roomCounts { roomCounts := roomCounts[tenant := 0]; }
        if limits.maxRoomsTotal > 0 && roomCounts[tenant] >= limits.maxRoomsTotal {
          return Some(Spec.TenantRoomLimit);
        }
        roomCounts := roomCounts[tenant := roomCounts[tenant] + 1];
      }
      assert roomCounts == if room !in roomSessions then Incr(old(roomCounts), tenant) else old(roomCounts);
      Record(room, user, session);
      Spec.AdmitNoEmpty(old(View()), tenant, room, user, session);
      return None;
    }

    /** The insertions of an accepted join: routing, then governance. */
    method Record(room: string, user: string, session: string)
      modifies this`roomSessions, this`sessionRooms, this`refs, this`roomUsers, this`userRooms
      ensures roomSessions == Put(old(roomSessions), room, session)
      ensures sessionRooms == Put(old(sessionRooms), session, room)
      ensures refs == Incr(old(refs), RefKey(user, room))
      ensures var first := CountOf(old(refs), RefKey(user, room)) == 0;
              && roomUsers == (if first then Put(old(roomUsers), room, user) else old(roomUsers))
              && userRooms == (if first then Put(old(userRooms), user, room) else old(userRooms))
    {
      hide RefKey, At, Put;
      roomSessions := Put(roomSessions, room, session);
      sessionRooms := Put(sessionRooms, session, room);
      var key := RefKey(user, room);
      if key !in refs { refs := refs[key := 0]; }
      refs := refs[key := refs[key] + 1];
      assert refs == Incr(old(refs), key);
      if refs[key] == 1 {
        roomUsers := Put(roomUsers, room, user);
        userRooms := Put(userRooms, user, room);
      }
    }

    method Leave(tenant: string, room: string, user: string, session: string)
      requires Valid()
      modifies this
      ensures Valid()
      ensures View() == Spec.Leave(old(View()), tenant, room, user, session)
    {
      hide RefKey, At, Del, Spec.NoEmpty, Spec.DropRef, Spec.IsLast, Spec.Empties;
      Spec.LeaveNoEmpty(View(), tenant, room, user, session);
      var roomEmpty := Unroute(room, session);
      Release(room, user);
      if roomEmpty && tenant in roomCounts {
        roomCounts := roomCounts[tenant := Decr(roomCounts[tenant])];
      }
    }

    /** Takes the session out of the routing maps and tells whether the room is now gone. */
    method Unroute(room: string, session: string) returns (roomEmpty: bool)
      modifies this`roomSessions, this`sessionRooms
      ensures roomEmpty == Spec.Empties(old(roomSessions), room, session)
      ensures roomSessions == Del(old(roomSessions), room, session)
      ensures sessionRooms == Del(old(sessionRooms), session, room)
    {
      roomEmpty := false;
      if room in roomSessions {
        var rest := roomSessions[room] - {session};
        roomEmpty := rest == {};
        roomSessions := if roomEmpty then roomSessions - {room} else roomSessions[room := rest];
      }
      if session in sessionRooms {
        var rest := sessionRooms[session] - {room};
        sessionRooms := if rest == {} then sessionRooms - {session} else sessionRooms[session := rest];
      }
    }

    /** Gives back one reference; the user indices go with the last one. */
    method Release(room: string, user: string)
      modifies this`refs, this`roomUsers, this`userRooms
      ensures refs == Spec.DropRef(old(refs), RefKey(user, room))
      ensures var last := Spec.IsLast(old(refs), RefKey(user, room));
              && roomUsers == (if last then Del(old(roomUsers), room, user) else old(roomUsers))
              && userRooms == (if last then Del(old(userRooms), user, room) else old(userRooms))
    {
      hide RefKey, Del;
      var key := RefKey(user, room);
      if key in refs {
        refs := refs[key := Decr(refs[key])];
        if refs[key] == 0 {
          refs := refs - {key};
          userRooms := Del(userRooms, user, room);
          roomUsers := Del(roomUsers, room, user);
        }
      }
    }

    method SessionsIn(room: string) returns (sessions: set<string>)
      ensures sessions == At(roomSessions, room)
    {
      sessions := if room in roomSessions then roomSessions[room] else {};
    }

    /** The session's room set is taken out first; the loop may visit it in any order. */
    method CleanupSession(tenant: string, user: string, session: string)
      requires Valid()
      modifies this
      ensures Valid()
      ensures View() == Spec.Cleanup(old(View()), tenant, user, session)
    {
      if session in sessionRooms {
        var todo := sessionRooms[session];
        sessionRooms := sessionRooms - {session};
        ghost var without := sessionRooms;
        ghost var whole := old(View());  // the same run with the session's room set left in place
        while todo != {}
          invariant Valid() && Spec.NoEmpty(whole)
          invariant View() == whole.(sessionRooms := without)
          invariant without == old(sessionRooms) - {session}
          invariant forall k :: At(whole.sessionRooms, k) == if k == session then todo else At(without, k)
          invariant Spec.LeaveAll(whole, tenant, todo, user, session)
                 == Spec.Cleanup(old(View()), tenant, user, session)
          decreases todo
        {
          var room :| room in todo;
          Spec.LeaveAllAnyOrder(whole, tenant, todo, user, session, room);
          Spec.LeaveIgnoresSessionRooms(whole, without, tenant, room, user, session);
          Leave(tenant, room, user, session);
          whole := Spec.Leave(whole, tenant, room, user, session);
          todo := todo - {room};
        }
        Extensional(whole.sessionRooms, without);
      }
    }
  }
}

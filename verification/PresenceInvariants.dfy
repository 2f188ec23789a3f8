/** What every join, leave and cleanup keeps: the six maps agree with each other, and no
    decrement reaches below zero. Nothing is asked of the callers here beyond building
    their keys from well-formed ids. */
module PresenceInvariants {
  import opened Keys
  import opened Multimaps
  import opened PresenceSpec

  /** The four keys of a call belong together. */
  predicate Consistent(tenant: string, room: string, user: string, session: string) {
    && ProperUser(user) && Owner(session) == user
    && TenantOf(room) == tenant && TenantOf(user) == tenant && TenantOf(session) == tenant
  }

  lemma KeysConsistent(id: Identity, room: string)
    requires WellFormed(id)
    ensures Consistent(id.tenant, RoomKey(id.tenant, room), UserKey(id), SessionKey(id))
  {
    IdentityReadsBack(id, room);
  }

  // ---- structure ----

  ghost predicate Routing(st: State) {
    && NoEmptySets(st.roomSessions) && NoEmptySets(st.sessionRooms)
    && Inverse(st.roomSessions, st.sessionRooms)
  }

  /** A reference count, at least 1, is stored for exactly the pairs of the user index. */
  ghost predicate RefsMatch(roomUsers: Multimap, refs: map<string, nat>) {
    && (forall room, user :: user in At(roomUsers, room) ==> ProperUser(user))
    && (forall user, room :: ProperUser(user) ==> (user in At(roomUsers, room) <==> RefKey(user, room) in refs))
    && (forall key :: key in refs ==> refs[key] >= 1 && IsRefKey(key))
  }

  ghost predicate Governance(st: State) {
    && NoEmptySets(st.roomUsers) && NoEmptySets(st.userRooms)
    && Inverse(st.roomUsers, st.userRooms)
    && RefsMatch(st.roomUsers, st.refs)
  }

  function TenantRooms(rooms: Multimap, tenant: string): set<string> {
    set room | room in rooms && TenantOf(room) == tenant
  }

  /** Each tenant counter is the number of its stored rooms. */
  ghost predicate Counted(rooms: Multimap, counts: map<string, nat>) {
    forall tenant :: CountOf(counts, tenant) == |TenantRooms(rooms, tenant)|
  }

  ghost predicate Structured(st: State) {
    Routing(st) && Governance(st) && Counted(st.roomSessions, st.roomCounts)
  }

  lemma TenantRoomsAfterPut(rooms: Multimap, room: string, session: string, tenant: string)
    ensures TenantRooms(Put(rooms, room, session), tenant)
         == if TenantOf(room) == tenant then TenantRooms(rooms, tenant) + {room} else TenantRooms(rooms, tenant)
  {
  }

  lemma CountedUpAt(rooms: Multimap, counts: map<string, nat>, room: string, session: string, tenant: string)
    requires CountOf(counts, tenant) == |TenantRooms(rooms, tenant)|
    ensures CountOf(if room !in rooms then Incr(counts, TenantOf(room)) else counts, tenant)
         == |TenantRooms(Put(rooms, room, session), tenant)|
  {
    TenantRoomsAfterPut(rooms, room, session, tenant);
    CardAdd(TenantRooms(rooms, tenant), room);
  }

  lemma CountedUp(rooms: Multimap, counts: map<string, nat>, room: string, session: string)
    requires Counted(rooms, counts)
    ensures Counted(Put(rooms, room, session), if room !in rooms then Incr(counts, TenantOf(room)) else counts)
  {
    forall t ensures CountOf(if room !in rooms then Incr(counts, TenantOf(room)) else counts, t)
                  == |TenantRooms(Put(rooms, room, session), t)| {
      CountedUpAt(rooms, counts, room, session, t);
    }
  }

  lemma TenantRoomsAfterDel(rooms: Multimap, room: string, session: string, tenant: string)
    ensures TenantRooms(Del(rooms, room, session), tenant)
         == if Empties(rooms, room, session) then TenantRooms(rooms, tenant) - {room} else TenantRooms(rooms, tenant)
  {
  }

  lemma CountedDownAt(rooms: Multimap, counts: map<string, nat>, room: string, session: string, tenant: string)
    requires CountOf(counts, tenant) == |TenantRooms(rooms, tenant)|
    ensures CountOf(if Empties(rooms, room, session) then DecrAt(counts, TenantOf(room)) else counts, tenant)
         == |TenantRooms(Del(rooms, room, session), tenant)|
    ensures Empties(rooms, room, session) && TenantOf(room) == tenant ==> CountOf(counts, tenant) >= 1
  {
    TenantRoomsAfterDel(rooms, room, session, tenant);
    CardRemove(TenantRooms(rooms, tenant), room);
  }

  lemma CountedDown(rooms: Multimap, counts: map<string, nat>, room: string, session: string)
    requires Counted(rooms, counts)
    ensures Counted(Del(rooms, room, session),
                    if Empties(rooms, room, session) then DecrAt(counts, TenantOf(room)) else counts)
  {
    forall t ensures CountOf(if Empties(rooms, room, session) then DecrAt(counts, TenantOf(room)) else counts, t)
                  == |TenantRooms(Del(rooms, room, session), t)| {
      CountedDownAt(rooms, counts, room, session, t);
    }
  }

  function UsersAfterJoin(roomUsers: Multimap, refs: map<string, nat>, user: string, room: string): Multimap {
    if CountOf(refs, RefKey(user, room)) == 0 then Put(roomUsers, room, user) else roomUsers
  }

  function UsersAfterLeave(roomUsers: Multimap, refs: map<string, nat>, user: string, room: string): Multimap {
    if IsLast(refs, RefKey(user, room)) then Del(roomUsers, room, user) else roomUsers
  }

  lemma RefsUp(roomUsers: Multimap, refs: map<string, nat>, user: string, room: string)
    requires RefsMatch(roomUsers, refs) && ProperUser(user)
    ensures RefsMatch(UsersAfterJoin(roomUsers, refs, user, room), Incr(refs, RefKey(user, room)))
  {
    hide ProperUser, RefKey, IsRefKey;
    RefKeyUnique(user, room);
    var users := UsersAfterJoin(roomUsers, refs, user, room);
    forall u, r | ProperUser(u) ensures u in At(users, r) <==> RefKey(u, r) in Incr(refs, RefKey(user, room)) {
      assert u in At(roomUsers, r) <==> RefKey(u, r) in refs;
    }
  }

  lemma RefsDown(roomUsers: Multimap, refs: map<string, nat>, user: string, room: string)
    requires NoEmptySets(roomUsers) && RefsMatch(roomUsers, refs) && ProperUser(user)
    ensures RefsMatch(UsersAfterLeave(roomUsers, refs, user, room), DropRef(refs, RefKey(user, room)))
  {
    hide ProperUser, RefKey, IsRefKey;
    if IsLast(refs, RefKey(user, room)) {
      LastRefDown(roomUsers, refs, user, room);
    } else {
      assert DropRef(refs, RefKey(user, room)).Keys == refs.Keys;
    }
  }

  lemma LastRefDown(roomUsers: Multimap, refs: map<string, nat>, user: string, room: string)
    requires NoEmptySets(roomUsers) && RefsMatch(roomUsers, refs) && ProperUser(user)
    ensures RefsMatch(Del(roomUsers, room, user), refs - {RefKey(user, room)})
  {
    hide ProperUser, RefKey, IsRefKey;
    RefKeyUnique(user, room);
    forall u, r | ProperUser(u)
      ensures u in At(Del(roomUsers, room, user), r) <==> RefKey(u, r) in refs - {RefKey(user, room)} {
      assert u in At(roomUsers, r) <==> RefKey(u, r) in refs;
    }
  }

  lemma AdmitStructured(st: State, tenant: string, room: string, user: string, session: string)
    requires Structured(st) && Consistent(tenant, room, user, session)
    ensures Structured(Admit(st, tenant, room, user, session))
  {
    InverseAfterPut(st.roomSessions, st.sessionRooms, room, session);
    InverseAfterPut(st.roomUsers, st.userRooms, room, user);
    CountedUp(st.roomSessions, st.roomCounts, room, session);
    RefsUp(st.roomUsers, st.refs, user, room);
  }

  lemma LeaveStructured(st: State, tenant: string, room: string, user: string, session: string)
    requires Structured(st) && Consistent(tenant, room, user, session)
    ensures Structured(Leave(st, tenant, room, user, session))
  {
    InverseAfterDel(st.roomSessions, st.sessionRooms, room, session);
    InverseAfterDel(st.roomUsers, st.userRooms, room, user);
    CountedDown(st.roomSessions, st.roomCounts, room, session);
    RefsDown(st.roomUsers, st.refs, user, room);
  }

  /** The user indices and the reference keys list the same pairs. */
  lemma UserIndexed(st: State, user: string, room: string)
    requires Structured(st) && ProperUser(user)
    ensures user in At(st.roomUsers, room) <==> CountOf(st.refs, RefKey(user, room)) != 0
    ensures user in At(st.roomUsers, room) <==> room in At(st.userRooms, user)
  {
  }

  /** Neither decrement of a leave meets a zero: the wrapped value never arises. */
  lemma LeaveNeverWraps(st: State, tenant: string, room: string, user: string, session: string)
    requires Structured(st) && Consistent(tenant, room, user, session)
    ensures RefKey(user, room) in st.refs ==> st.refs[RefKey(user, room)] >= 1
    ensures Empties(st.roomSessions, room, session) ==> CountOf(st.roomCounts, tenant) >= 1
  {
    CountedDownAt(st.roomSessions, st.roomCounts, room, session, tenant);
  }
}

/** The six room-presence maps as one value, the three operations on them, and what every
    sequence of operations keeps. */
module PresenceSpec {
  import opened Keys
  import opened Multimaps
  import opened Options
  import opened Config

  datatype JoinError = RoomUserLimit | UserRoomLimit | TenantRoomLimit

  datatype State = State(
    roomSessions: Multimap,
    sessionRooms: Multimap,
    roomUsers: Multimap,
    userRooms: Multimap,
    refs: map<string, nat>,
    roomCounts: map<string, nat>)

  const EMPTY := State(map[], map[], map[], map[], map[], map[])

  // ---- operations ----

  /** The three checks of a join, in order. */
  function Verdict(st: State, tenant: string, room: string, user: string, limits: TenantLimits): Option<JoinError> {
    if limits.maxUsersPerRoom > 0 && room in st.roomUsers
       && |st.roomUsers[room]| >= limits.maxUsersPerRoom && user !in st.roomUsers[room]
    then Some(RoomUserLimit)
    else if limits.maxRoomsPerUser > 0 && user in st.userRooms
       && |st.userRooms[user]| >= limits.maxRoomsPerUser && room !in st.userRooms[user]
    then Some(UserRoomLimit)
    else if room !in st.roomSessions && limits.maxRoomsTotal > 0
       && CountOf(st.roomCounts, tenant) >= limits.maxRoomsTotal
    then Some(TenantRoomLimit)
    else None
  }

  /** A join whose checks passed. */
  function Admit(st: State, tenant: string, room: string, user: string, session: string): State {
    var key := RefKey(user, room);
    var first := CountOf(st.refs, key) == 0;
    State(
      Put(st.roomSessions, room, session),
      Put(st.sessionRooms, session, room),
      if first then Put(st.roomUsers, room, user) else st.roomUsers,
      if first then Put(st.userRooms, user, room) else st.userRooms,
      Incr(st.refs, key),
      if room !in st.roomSessions then Incr(st.roomCounts, tenant) else st.roomCounts)
  }

  function TryJoin(st: State, tenant: string, room: string, user: string, session: string,
      limits: TenantLimits): State {
    if Verdict(st, tenant, room, user, limits) == None then Admit(st, tenant, room, user, session) else st
  }

  predicate Empties(m: Multimap, k: string, x: string) {
    k in m && m[k] - {x} == {}
  }

  predicate IsLast(refs: map<string, nat>, key: string) {
    key in refs && Decr(refs[key]) == 0
  }

  /** One reference fewer; the entry goes with the last one. */
  function DropRef(refs: map<string, nat>, key: string): map<string, nat> {
    if IsLast(refs, key) then refs - {key} else DecrAt(refs, key)
  }

  function Leave(st: State, tenant: string, room: string, user: string, session: string): State {
    var key := RefKey(user, room);
    var last := IsLast(st.refs, key);
    State(
      Del(st.roomSessions, room, session),
      Del(st.sessionRooms, session, room),
      if last then Del(st.roomUsers, room, user) else st.roomUsers,
      if last then Del(st.userRooms, user, room) else st.userRooms,
      DropRef(st.refs, key),
      if Empties(st.roomSessions, room, session) then DecrAt(st.roomCounts, tenant) else st.roomCounts)
  }

  ghost function Pick(rooms: set<string>): (room: string)
    requires rooms != {}
    ensures room in rooms
  {
    var room :| room in rooms;
    room
  }

  /** Leaving a set of rooms one by one; `LeaveAllAnyOrder` shows the order is immaterial. */
  ghost function LeaveAll(st: State, tenant: string, rooms: set<string>, user: string, session: string): State
    decreases |rooms|
  {
    if rooms == {} then st
    else
      var room := Pick(rooms);
      LeaveAll(Leave(st, tenant, room, user, session), tenant, rooms - {room}, user, session)
  }

  ghost function Cleanup(st: State, tenant: string, user: string, session: string): State {
    LeaveAll(st, tenant, At(st.sessionRooms, session), user, session)
  }

  // ---- cleanup does not depend on the iteration order ----

  ghost predicate NoEmpty(st: State) {
    && NoEmptySets(st.roomSessions) && NoEmptySets(st.sessionRooms)
    && NoEmptySets(st.roomUsers) && NoEmptySets(st.userRooms)
  }

  lemma AdmitNoEmpty(st: State, tenant: string, room: string, user: string, session: string)
    requires NoEmpty(st)
    ensures NoEmpty(Admit(st, tenant, room, user, session))
  {
  }

  lemma LeaveNoEmpty(st: State, tenant: string, room: string, user: string, session: string)
    requires NoEmpty(st)
    ensures NoEmpty(Leave(st, tenant, room, user, session))
  {
  }

  lemma DelsCommute(m: Multimap, k: string, x: string, j: string, y: string)
    requires NoEmptySets(m)
    ensures Del(Del(m, k, x), j, y) == Del(Del(m, j, y), k, x)
  {
    Extensional(Del(Del(m, k, x), j, y), Del(Del(m, j, y), k, x));
  }

  lemma RefKeysDiffer(user: string, a: string, b: string)
    requires a != b
    ensures RefKey(user, a) != RefKey(user, b)
  {
    assert a == RefKey(user, a)[|user| + 2..];
    assert b == RefKey(user, b)[|user| + 2..];
  }

  lemma DropRefsCommute(refs: map<string, nat>, a: string, b: string)
    requires a != b
    ensures DropRef(DropRef(refs, a), b) == DropRef(DropRef(refs, b), a)
    ensures IsLast(DropRef(refs, a), b) == IsLast(refs, b)
  {
  }

  lemma LeavesCommute(st: State, tenant: string, a: string, b: string, user: string, session: string)
    requires NoEmpty(st)
    ensures Leave(Leave(st, tenant, a, user, session), tenant, b, user, session)
         == Leave(Leave(st, tenant, b, user, session), tenant, a, user, session)
  {
    if a != b {
      RefKeysDiffer(user, a, b);
      DelsCommute(st.roomSessions, a, session, b, session);
      DelsCommute(st.sessionRooms, session, a, session, b);
      DelsCommute(st.roomUsers, a, user, b, user);
      DelsCommute(st.userRooms, user, a, user, b);
      DropRefsCommute(st.refs, RefKey(user, a), RefKey(user, b));
      DropRefsCommute(st.refs, RefKey(user, b), RefKey(user, a));
      EmptiesIndependent(st.roomSessions, a, b, session);
      EmptiesIndependent(st.roomSessions, b, a, session);
    }
  }

  lemma EmptiesIndependent(m: Multimap, a: string, b: string, x: string)
    requires a != b
    ensures Empties(Del(m, a, x), b, x) == Empties(m, b, x)
  {
  }

  /** Whatever room is taken first, the rest of the cleanup ends in the same state. */
  lemma {:induction false} LeaveAllAnyOrder(st: State, tenant: string, rooms: set<string>, user: string,
      session: string, room: string)
    requires NoEmpty(st) && room in rooms
    ensures LeaveAll(st, tenant, rooms, user, session)
         == LeaveAll(Leave(st, tenant, room, user, session), tenant, rooms - {room}, user, session)
    decreases |rooms|
  {
    var pick := Pick(rooms);
    if pick != room {
      LeaveAllAnyOrder(Leave(st, tenant, pick, user, session), tenant, rooms - {pick}, user, session, room);
      LeaveAllAnyOrder(Leave(st, tenant, room, user, session), tenant, rooms - {room}, user, session, pick);
      LeavesCommute(st, tenant, pick, room, user, session);
      assert rooms - {pick} - {room} == rooms - {room} - {pick};
    }
  }

  /** All of a leave except the session's own room set ignores that set, so it may run
      after `session_to_rooms` has lost the session, as it does during cleanup. */
  lemma LeaveIgnoresSessionRooms(st: State, m: Multimap, tenant: string, room: string, user: string, session: string)
    ensures Leave(st.(sessionRooms := m), tenant, room, user, session)
         == Leave(st, tenant, room, user, session).(sessionRooms := Del(m, session, room))
  {
  }
}

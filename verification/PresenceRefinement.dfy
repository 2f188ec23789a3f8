/** The simple meaning of the six maps: one set of (session, room) pairs.

    When sessions join only rooms they are not in and leave only rooms they are in, every
    run of the six-map code is a run of the set. Reference counts are covered even when
    joins repeat. */
module PresenceRefinement {
  import opened Keys
  import opened Multimaps
  import opened Options
  import opened Config
  import opened PresenceSpec
  import opened PresenceInvariants
  import opened PresenceLimits

  // ---- reference counts against membership ----

  /** A user's sessions in a room. */
  function Members(rooms: Multimap, user: string, room: string): set<string> {
    set session | session in At(rooms, room) && Owner(session) == user
  }

  /** Each reference count is the number of that user's sessions in the room. */
  ghost predicate Exact(st: State) {
    forall user, room :: ProperUser(user) ==>
      CountOf(st.refs, RefKey(user, room)) == |Members(st.roomSessions, user, room)|
  }

  /** Each reference count is at least that number. */
  ghost predicate Covered(st: State) {
    forall user, room :: ProperUser(user) ==>
      CountOf(st.refs, RefKey(user, room)) >= |Members(st.roomSessions, user, room)|
  }

  lemma CountAfterJoin(refs: map<string, nat>, user: string, room: string, u: string, r: string)
    requires ProperUser(user) && ProperUser(u)
    ensures CountOf(Incr(refs, RefKey(user, room)), RefKey(u, r))
         == CountOf(refs, RefKey(u, r)) + if u == user && r == room then 1 else 0
  {
    hide ProperUser, RefKey;
    RefKeyUnique(user, room);
  }

  lemma CountAfterLeave(refs: map<string, nat>, user: string, room: string, u: string, r: string)
    requires ProperUser(user) && ProperUser(u)
    requires forall key :: key in refs ==> refs[key] >= 1
    ensures CountOf(DropRef(refs, RefKey(user, room)), RefKey(u, r))
         == CountOf(refs, RefKey(u, r)) - if u == user && r == room && CountOf(refs, RefKey(u, r)) > 0 then 1 else 0
  {
    hide ProperUser, RefKey;
    RefKeyUnique(user, room);
  }

  lemma MembersAfterJoin(rooms: Multimap, room: string, session: string, u: string, r: string)
    ensures |Members(Put(rooms, room, session), u, r)| == |Members(rooms, u, r)|
         + if u == Owner(session) && r == room && session !in At(rooms, room) then 1 else 0
  {
    hide Owner;
    assert Members(Put(rooms, room, session), u, r)
        == if u == Owner(session) && r == room then Members(rooms, u, r) + {session} else Members(rooms, u, r);
    CardAdd(Members(rooms, u, r), session);
  }

  lemma MembersAfterLeave(rooms: Multimap, room: string, session: string, u: string, r: string)
    requires NoEmptySets(rooms)
    ensures |Members(Del(rooms, room, session), u, r)| == |Members(rooms, u, r)|
         - if u == Owner(session) && r == room && session in At(rooms, room) then 1 else 0
  {
    hide Owner;
    assert Members(Del(rooms, room, session), u, r)
        == if u == Owner(session) && r == room then Members(rooms, u, r) - {session} else Members(rooms, u, r);
    CardRemove(Members(rooms, u, r), session);
  }

  lemma AdmitCounts(st: State, tenant: string, room: string, user: string, session: string)
    requires Structured(st) && Consistent(tenant, room, user, session)
    ensures Covered(st) ==> Covered(Admit(st, tenant, room, user, session))
    ensures Exact(st) && session !in At(st.roomSessions, room) ==> Exact(Admit(st, tenant, room, user, session))
    ensures Covered(st) && !Exact(st) ==> !Exact(Admit(st, tenant, room, user, session))
  {
    hide ProperUser, RefKey, Owner, TenantOf, Members, At, Put, Structured;
    var next := Admit(st, tenant, room, user, session);
    forall u, r | ProperUser(u)
      ensures CountOf(next.refs, RefKey(u, r)) - |Members(next.roomSessions, u, r)|
           == CountOf(st.refs, RefKey(u, r)) - |Members(st.roomSessions, u, r)|
            + if u == user && r == room && session in At(st.roomSessions, room) then 1 else 0
    {
      CountAfterJoin(st.refs, user, room, u, r);
      MembersAfterJoin(st.roomSessions, room, session, u, r);
    }
  }

  lemma LeaveCounts(st: State, tenant: string, room: string, user: string, session: string)
    requires Structured(st) && Consistent(tenant, room, user, session)
    requires session in At(st.roomSessions, room)
    ensures Covered(st) ==> Covered(Leave(st, tenant, room, user, session))
    ensures Exact(st) ==> Exact(Leave(st, tenant, room, user, session))
    ensures Covered(st) && !Exact(st) ==> !Exact(Leave(st, tenant, room, user, session))
  {
    hide ProperUser, RefKey, Owner, TenantOf, Members, At, Del, DropRef, Inverse, Counted, IsRefKey;
    var next := Leave(st, tenant, room, user, session);
    MemberCounted(st, user, room, session);
    forall u, r | ProperUser(u)
      ensures CountOf(st.refs, RefKey(u, r)) < |Members(st.roomSessions, u, r)|
           || CountOf(next.refs, RefKey(u, r)) - |Members(next.roomSessions, u, r)|
              == CountOf(st.refs, RefKey(u, r)) - |Members(st.roomSessions, u, r)|
    {
      CountAfterLeave(st.refs, user, room, u, r);
      MembersAfterLeave(st.roomSessions, room, session, u, r);
    }
  }

  /** A join keeps exact counts exactly when the session was not in the room. */
  lemma JoinExactIff(st: State, tenant: string, room: string, user: string, session: string)
    requires Structured(st) && Exact(st) && Consistent(tenant, room, user, session)
    ensures Exact(Admit(st, tenant, room, user, session)) <==> session !in At(st.roomSessions, room)
  {
    hide ProperUser, RefKey, Owner, TenantOf, Members, At, Put, Structured;
    AdmitCounts(st, tenant, room, user, session);
    CountAfterJoin(st.refs, user, room, user, room);
    MembersAfterJoin(st.roomSessions, room, session, user, room);
  }

  /** A session already in the room is always let in again: no limit stops the second count. */
  lemma RejoinAccepted(st: State, tenant: string, room: string, user: string, session: string, limits: TenantLimits)
    requires Structured(st) && Covered(st) && Consistent(tenant, room, user, session)
    requires session in At(st.roomSessions, room)
    ensures Verdict(st, tenant, room, user, limits) == None
  {
    hide ProperUser, RefKey, Owner, TenantOf, Members, Structured;
    MemberCounted(st, user, room, session);
    assert CountOf(st.refs, RefKey(user, room)) >= |Members(st.roomSessions, user, room)|;
    UserIndexed(st, user, room);
  }

  /** A leave keeps exact counts exactly when the session was in the room, or its user had no
      session there at all; otherwise it takes a count from the user's other sessions. */
  lemma LeaveExactIff(st: State, tenant: string, room: string, user: string, session: string)
    requires Structured(st) && Exact(st) && Consistent(tenant, room, user, session)
    ensures Exact(Leave(st, tenant, room, user, session))
       <==> session in At(st.roomSessions, room) || Members(st.roomSessions, user, room) == {}
    ensures Covered(Leave(st, tenant, room, user, session))
       <==> session in At(st.roomSessions, room) || Members(st.roomSessions, user, room) == {}
  {
    hide ProperUser, RefKey, Owner, TenantOf, Members, At, Del, DropRef, Inverse, Counted, IsRefKey;
    var next := Leave(st, tenant, room, user, session);
    if session in At(st.roomSessions, room) {
      assert Covered(st);
      LeaveCounts(st, tenant, room, user, session);
    } else {
      forall u, r | ProperUser(u)
        ensures CountOf(next.refs, RefKey(u, r)) == CountOf(st.refs, RefKey(u, r))
                  - if u == user && r == room && Members(st.roomSessions, user, room) != {} then 1 else 0
        ensures |Members(next.roomSessions, u, r)| == |Members(st.roomSessions, u, r)|
      {
        CountAfterLeave(st.refs, user, room, u, r);
        MembersAfterLeave(st.roomSessions, room, session, u, r);
      }
    }
  }

  /** The same for coverage alone, whatever repeated joins have left: a leave keeps the counts
      at least the number of sessions exactly when the session was in the room, or its user
      had none there, or the count had something to spare. */
  lemma LeaveCoveredIff(st: State, tenant: string, room: string, user: string, session: string)
    requires Structured(st) && Covered(st) && Consistent(tenant, room, user, session)
    ensures Covered(Leave(st, tenant, room, user, session))
       <==> || session in At(st.roomSessions, room)
            || Members(st.roomSessions, user, room) == {}
            || CountOf(st.refs, RefKey(user, room)) > |Members(st.roomSessions, user, room)|
  {
    hide ProperUser, RefKey, Owner, TenantOf, Members, At, Del, DropRef, Inverse, Counted, IsRefKey;
    var next := Leave(st, tenant, room, user, session);
    if session in At(st.roomSessions, room) {
      LeaveCounts(st, tenant, room, user, session);
    } else {
      forall u, r | ProperUser(u)
        ensures CountOf(next.refs, RefKey(u, r)) == CountOf(st.refs, RefKey(u, r))
                  - if u == user && r == room && CountOf(st.refs, RefKey(u, r)) > 0 then 1 else 0
        ensures |Members(next.roomSessions, u, r)| == |Members(st.roomSessions, u, r)|
      {
        CountAfterLeave(st.refs, user, room, u, r);
        MembersAfterLeave(st.roomSessions, room, session, u, r);
      }
    }
  }

  /** A leave of a room in which neither the session nor its user is listed changes nothing. */
  lemma LeaveNothing(st: State, tenant: string, room: string, user: string, session: string)
    requires Structured(st) && session !in At(st.roomSessions, room) && RefKey(user, room) !in st.refs
    ensures Leave(st, tenant, room, user, session) == st
  {
    hide RefKey, RefsMatch, Counted;
    assert room !in At(st.sessionRooms, session);
    DelAbsent(st.roomSessions, room, session);
    DelAbsent(st.sessionRooms, session, room);
    assert room in st.roomSessions ==> At(st.roomSessions, room) != {};
  }

  lemma DelAbsent(m: Multimap, k: string, x: string)
    requires NoEmptySets(m) && x !in At(m, k)
    ensures Del(m, k, x) == m
  {
    Extensional(Del(m, k, x), m);
  }

  lemma PutThenDel(m: Multimap, k: string, x: string)
    requires NoEmptySets(m) && x !in At(m, k)
    ensures Del(Put(m, k, x), k, x) == m
  {
    Extensional(Del(Put(m, k, x), k, x), m);
  }

  lemma IncrThenDrop(refs: map<string, nat>, key: string)
    requires key in refs ==> refs[key] >= 1
    ensures DropRef(Incr(refs, key), key) == refs
    ensures IsLast(Incr(refs, key), key) <==> CountOf(refs, key) == 0
  {
  }

  lemma AbsentBothWays(st: State, room: string, user: string, session: string)
    requires Structured(st) && ProperUser(user) && session !in At(st.roomSessions, room)
    ensures NoEmpty(st) && room !in At(st.sessionRooms, session)
    ensures RefKey(user, room) in st.refs ==> st.refs[RefKey(user, room)] >= 1
    ensures CountOf(st.refs, RefKey(user, room)) == 0 ==>
              user !in At(st.roomUsers, room) && room !in At(st.userRooms, user)
  {
    hide ProperUser, RefKey, IsRefKey, Counted;
    UserIndexed(st, user, room);
  }

  lemma CountersBack(st: State, tenant: string, room: string, session: string)
    requires NoEmptySets(st.roomSessions) && session !in At(st.roomSessions, room)
    ensures Empties(Put(st.roomSessions, room, session), room, session) <==> room !in st.roomSessions
    ensures forall t :: CountOf(DecrAt(Incr(st.roomCounts, tenant), tenant), t) == CountOf(st.roomCounts, t)
  {
    assert room in st.roomSessions ==> st.roomSessions[room] == At(st.roomSessions, room);
    assert (At(st.roomSessions, room) + {session}) - {session} == At(st.roomSessions, room);
  }

  /** A leave undoes the join before it, whatever else the maps hold: every index is back,
      and every tenant counter has its old value. */
  lemma LeaveUndoesJoin(st: State, tenant: string, room: string, user: string, session: string)
    requires Structured(st) && Consistent(tenant, room, user, session) && session !in At(st.roomSessions, room)
    ensures var back := Leave(Admit(st, tenant, room, user, session), tenant, room, user, session);
            && back.(roomCounts := st.roomCounts) == st
            && forall t :: CountOf(back.roomCounts, t) == CountOf(st.roomCounts, t)
  {
    hide ProperUser, RefKey, Owner, TenantOf, Put, Del, DropRef, Incr, IsRefKey, IsLast, Structured;
    AbsentBothWays(st, room, user, session);
    PutThenDel(st.roomSessions, room, session);
    PutThenDel(st.sessionRooms, session, room);
    IncrThenDrop(st.refs, RefKey(user, room));
    if CountOf(st.refs, RefKey(user, room)) == 0 {
      PutThenDel(st.roomUsers, room, user);
      PutThenDel(st.userRooms, user, room);
    }
    CountersBack(st, tenant, room, session);
  }

  lemma MemberCounted(st: State, user: string, room: string, session: string)
    requires session in At(st.roomSessions, room) && Owner(session) == user
    ensures |Members(st.roomSessions, user, room)| >= 1
  {
    assert session in Members(st.roomSessions, user, room);
  }

  lemma {:induction false} LeaveAllCounts(st: State, tenant: string, rooms: set<string>, user: string, session: string)
    requires Structured(st)
    requires forall room :: room in rooms ==>
               Consistent(tenant, room, user, session) && session in At(st.roomSessions, room)
    ensures Covered(st) ==> Covered(LeaveAll(st, tenant, rooms, user, session))
    ensures Exact(st) ==> Exact(LeaveAll(st, tenant, rooms, user, session))
    ensures Covered(st) && !Exact(st) ==> !Exact(LeaveAll(st, tenant, rooms, user, session))
    decreases |rooms|
  {
    hide Consistent, Leave, Covered, Exact, At, Inverse, NoEmptySets, Counted, RefsMatch;
    if rooms != {} {
      var room := Pick(rooms);
      LeaveStructured(st, tenant, room, user, session);
      LeaveCounts(st, tenant, room, user, session);
      LeaveMembers(st, tenant, room, user, session);
      LeaveAllCounts(Leave(st, tenant, room, user, session), tenant, rooms - {room}, user, session);
    }
  }

  lemma CleanupCounts(st: State, tenant: string, user: string, session: string)
    requires Structured(st) && Owned(st) && ConsistentSession(tenant, user, session)
    ensures Covered(st) ==> Covered(Cleanup(st, tenant, user, session))
    ensures Exact(st) ==> Exact(Cleanup(st, tenant, user, session))
    ensures Covered(st) && !Exact(st) ==> !Exact(Cleanup(st, tenant, user, session))
  {
    hide TenantOf, Owner, ProperUser, Covered, Exact, At, LeaveAll, NoEmptySets, Counted, RefsMatch;
    forall room | room in At(st.sessionRooms, session) ensures session in At(st.roomSessions, room) {}
    LeaveAllCounts(st, tenant, At(st.sessionRooms, session), user, session);
  }

  // ---- the set of pairs ----

  type Pairs = set<(string, string)>

  function SessionsIn(pairs: Pairs, room: string): set<string> {
    set p | p in pairs && p.1 == room :: p.0
  }

  function RoomsOf(pairs: Pairs, session: string): set<string> {
    set p | p in pairs && p.0 == session :: p.1
  }

  function UsersIn(pairs: Pairs, room: string): set<string> {
    set p | p in pairs && p.1 == room :: Owner(p.0)
  }

  function RoomsOfUser(pairs: Pairs, user: string): set<string> {
    set p | p in pairs && Owner(p.0) == user :: p.1
  }

  function UserSessions(pairs: Pairs, user: string, room: string): set<string> {
    set p | p in pairs && p.1 == room && Owner(p.0) == user :: p.0
  }

  function ActiveRooms(pairs: Pairs, tenant: string): set<string> {
    set p | p in pairs && TenantOf(p.1) == tenant :: p.1
  }

  /** The join decision, on pairs alone. */
  function PairVerdict(pairs: Pairs, tenant: string, room: string, user: string,
      limits: TenantLimits): Option<JoinError> {
    if limits.maxUsersPerRoom > 0 && |UsersIn(pairs, room)| >= limits.maxUsersPerRoom && user !in UsersIn(pairs, room)
    then Some(RoomUserLimit)
    else if limits.maxRoomsPerUser > 0 && |RoomsOfUser(pairs, user)| >= limits.maxRoomsPerUser
      && room !in RoomsOfUser(pairs, user)
    then Some(UserRoomLimit)
    else if limits.maxRoomsTotal > 0 && |ActiveRooms(pairs, tenant)| >= limits.maxRoomsTotal
      && room !in ActiveRooms(pairs, tenant)
    then Some(TenantRoomLimit)
    else None
  }

  ghost function PairApply(pairs: Pairs, limits: Limits, op: Op): Pairs {
    var session := SessionKey(op.id);
    match op
    case Join(id, room) =>
      var key := RoomKey(id.tenant, room);
      var admitted := PairVerdict(pairs, id.tenant, key, UserKey(id), limits(id.tenant)) == None;
      if admitted then pairs + {(session, key)} else pairs
    case LeaveRoom(id, room) => pairs - {(session, RoomKey(id.tenant, room))}
    case Drop(_) => set p | p in pairs && p.0 != session
  }

  /** Join when absent, leave when present. */
  predicate Disciplined(pairs: Pairs, op: Op) {
    && WellFormed(op.id)
    && (op.Join? ==> (SessionKey(op.id), RoomKey(op.id.tenant, op.room)) !in pairs)
    && (op.LeaveRoom? ==> (SessionKey(op.id), RoomKey(op.id.tenant, op.room)) in pairs)
  }

  ghost predicate DisciplinedRun(pairs: Pairs, limits: Limits, ops: seq<Op>)
    decreases |ops|
  {
    |ops| == 0 || (Disciplined(pairs, ops[0]) && DisciplinedRun(PairApply(pairs, limits, ops[0]), limits, ops[1..]))
  }

  ghost function PairRun(pairs: Pairs, limits: Limits, ops: seq<Op>): Pairs
    decreases |ops|
  {
    if |ops| == 0 then pairs else PairRun(PairApply(pairs, limits, ops[0]), limits, ops[1..])
  }

  // ---- representation ----

  ghost predicate Routes(rooms: Multimap, pairs: Pairs) {
    forall room, session :: session in At(rooms, room) <==> (session, room) in pairs
  }

  ghost predicate Represents(st: State, pairs: Pairs) {
    Structured(st) && Owned(st) && Exact(st) && Routes(st.roomSessions, pairs)
  }

  lemma RoutingViews(st: State, pairs: Pairs, room: string, session: string, tenant: string)
    requires Structured(st) && Routes(st.roomSessions, pairs)
    ensures At(st.roomSessions, room) == SessionsIn(pairs, room)
    ensures At(st.sessionRooms, session) == RoomsOf(pairs, session)
    ensures TenantRooms(st.roomSessions, tenant) == ActiveRooms(pairs, tenant)
    ensures CountOf(st.roomCounts, tenant) == |ActiveRooms(pairs, tenant)|
    ensures room in st.roomSessions <==> room in ActiveRooms(pairs, TenantOf(room))
  {
    hide TenantOf, RefsMatch;
    assert forall r :: r in At(st.sessionRooms, session) <==> session in At(st.roomSessions, r);
    forall r ensures r in st.roomSessions <==> exists s :: (s, r) in pairs {
      if r in st.roomSessions {
        var s :| s in st.roomSessions[r];
        assert s in At(st.roomSessions, r);
      }
      if s :| (s, r) in pairs { assert s in At(st.roomSessions, r); }
    }
    forall r | r in TenantRooms(st.roomSessions, tenant) ensures r in ActiveRooms(pairs, tenant) {
      var s :| (s, r) in pairs;
      assert (s, r).1 == r;
    }
    if room in st.roomSessions {
      var s :| (s, room) in pairs;
      assert (s, room).1 == room;
    }
  }

  lemma UserViewAt(st: State, pairs: Pairs, room: string, user: string)
    requires Represents(st, pairs) && ProperUser(user)
    ensures Members(st.roomSessions, user, room) == UserSessions(pairs, user, room)
    ensures user in At(st.roomUsers, room) <==> UserSessions(pairs, user, room) != {}
    ensures room in At(st.userRooms, user) <==> UserSessions(pairs, user, room) != {}
  {
    hide TenantOf, Owner, ProperUser, Owned, Routing, Counted;
    UserIndexed(st, user, room);
    assert Members(st.roomSessions, user, room) == UserSessions(pairs, user, room) by {
      forall s ensures s in Members(st.roomSessions, user, room) <==> s in UserSessions(pairs, user, room) {
        assert s in At(st.roomSessions, room) <==> (s, room) in pairs;
        if (s, room) in pairs { assert (s, room).0 == s; }
      }
    }
  }

  lemma ViewsFromSessions(pairs: Pairs, room: string, user: string)
    ensures user in UsersIn(pairs, room) <==> UserSessions(pairs, user, room) != {}
    ensures room in RoomsOfUser(pairs, user) <==> UserSessions(pairs, user, room) != {}
  {
    hide Owner;
    if p :| p in pairs && p.1 == room && Owner(p.0) == user {
      assert p.0 in UserSessions(pairs, user, room);
    }
  }

  lemma UserViews(st: State, pairs: Pairs, room: string, user: string)
    requires Represents(st, pairs) && ProperUser(user)
    ensures At(st.roomUsers, room) == UsersIn(pairs, room)
    ensures At(st.userRooms, user) == RoomsOfUser(pairs, user)
  {
    hide Represents, At, UsersIn, RoomsOfUser, UserSessions, ProperUser;
    forall u ensures u in At(st.roomUsers, room) <==> u in UsersIn(pairs, room) {
      ListedUserProper(st, pairs, room, u);
      ViewsFromSessions(pairs, room, u);
      if ProperUser(u) { UserViewAt(st, pairs, room, u); }
    }
    forall r ensures r in At(st.userRooms, user) <==> r in RoomsOfUser(pairs, user) {
      ViewsFromSessions(pairs, r, user);
      UserViewAt(st, pairs, r, user);
    }
  }

  lemma ListedUserProper(st: State, pairs: Pairs, room: string, user: string)
    requires Represents(st, pairs)
    ensures user in At(st.roomUsers, room) || user in UsersIn(pairs, room) ==> ProperUser(user)
  {
    hide TenantOf, Owner, ProperUser, Exact, Routing, Counted;
    if user in UsersIn(pairs, room) {
      var p :| p in pairs && p.1 == room && Owner(p.0) == user;
      assert p.0 in At(st.roomSessions, room);
    }
  }

  lemma VerdictOnPairs(st: State, pairs: Pairs, tenant: string, room: string, user: string, limits: TenantLimits)
    requires Represents(st, pairs) && ProperUser(user) && TenantOf(room) == tenant
    ensures Verdict(st, tenant, room, user, limits) == PairVerdict(pairs, tenant, room, user, limits)
  {
    hide TenantOf, Owner, ProperUser, Exact, Structured, UsersIn, RoomsOfUser, ActiveRooms;
    RoutingViews(st, pairs, room, "", tenant);
    UserViews(st, pairs, room, user);
  }

  lemma PutRoutes(rooms: Multimap, pairs: Pairs, room: string, session: string)
    requires Routes(rooms, pairs)
    ensures Routes(Put(rooms, room, session), pairs + {(session, room)})
  {
  }

  lemma JoinRefines(st: State, pairs: Pairs, limits: Limits, id: Identity, room: string)
    requires Represents(st, pairs) && Disciplined(pairs, Join(id, room))
    ensures Represents(Apply(st, limits, Join(id, room)), PairApply(pairs, limits, Join(id, room)))
  {
    hide TenantOf, Owner, ProperUser, UserKey, SessionKey, RoomKey, WellFormed, Exact, Structured, Owned, Verdict,
      PairVerdict, Routes, Put;
    var t, r, u, s := id.tenant, RoomKey(id.tenant, room), UserKey(id), SessionKey(id);
    KeysConsistent(id, room);
    VerdictOnPairs(st, pairs, t, r, u, limits(t));
    AdmitStructured(st, t, r, u, s);
    AdmitOwned(st, t, r, u, s);
    AdmitCounts(st, t, r, u, s);
    PutRoutes(st.roomSessions, pairs, r, s);
    assert s !in At(st.roomSessions, r) by { NotRouted(st.roomSessions, pairs, r, s); }
  }

  lemma NotRouted(rooms: Multimap, pairs: Pairs, room: string, session: string)
    requires Routes(rooms, pairs) && (session, room) !in pairs
    ensures session !in At(rooms, room)
  {
  }

  lemma LeaveRefines(st: State, pairs: Pairs, limits: Limits, id: Identity, room: string)
    requires Represents(st, pairs) && Disciplined(pairs, LeaveRoom(id, room))
    ensures Represents(Apply(st, limits, LeaveRoom(id, room)), PairApply(pairs, limits, LeaveRoom(id, room)))
  {
    hide TenantOf, Owner, ProperUser, UserKey, SessionKey, RoomKey, WellFormed, Exact, Owned, Leave, Inverse,
      Counted, RefsMatch;
    var t, r, u, s := id.tenant, RoomKey(id.tenant, room), UserKey(id), SessionKey(id);
    KeysConsistent(id, room);
    assert s in At(st.roomSessions, r);
    LeaveStructured(st, t, r, u, s);
    LeaveOwned(st, t, r, u, s);
    LeaveCounts(st, t, r, u, s);
    LeaveMembers(st, t, r, u, s);
  }

  const NO_LIMITS: Limits := (tenant: string) => TenantLimits(0, 0, 0, 0)

  lemma DropRefines(st: State, pairs: Pairs, limits: Limits, id: Identity)
    requires Represents(st, pairs) && Disciplined(pairs, Drop(id))
    ensures Represents(Apply(st, limits, Drop(id)), PairApply(pairs, limits, Drop(id)))
  {
    hide TenantOf, Owner, ProperUser, UserKey, SessionKey, WellFormed, Exact, Owned, Structured, Cleanup, Routes, At;
    IdentityReadsBack(id, "");
    UnlimitedSound(st);
    CleanupSound(st, id.tenant, UserKey(id), SessionKey(id), NO_LIMITS);
    CleanupCounts(st, id.tenant, UserKey(id), SessionKey(id));
    DropRoutes(st.roomSessions, Apply(st, limits, Drop(id)).roomSessions, pairs, SessionKey(id));
  }

  lemma DropRoutes(rooms: Multimap, rooms': Multimap, pairs: Pairs, session: string)
    requires Routes(rooms, pairs)
    requires forall room :: At(rooms', room) == At(rooms, room) - {session}
    ensures Routes(rooms', set p | p in pairs && p.0 != session)
  {
  }

  lemma UnlimitedSound(st: State)
    requires Structured(st) && Owned(st)
    ensures Sound(st, NO_LIMITS)
  {
    hide Structured, Owned, TenantOf;
  }

  /** Over every disciplined run the six maps represent the set of pairs the run leaves. */
  lemma {:induction false} RunRefines(st: State, pairs: Pairs, limits: Limits, ops: seq<Op>)
    requires Represents(st, pairs) && DisciplinedRun(pairs, limits, ops)
    ensures Represents(Run(st, limits, ops), PairRun(pairs, limits, ops))
    decreases |ops|
  {
    hide Represents, Disciplined, Apply, PairApply;
    if |ops| != 0 {
      match ops[0] {
        case Join(id, room) => JoinRefines(st, pairs, limits, id, room);
        case LeaveRoom(id, room) => LeaveRefines(st, pairs, limits, id, room);
        case Drop(id) => DropRefines(st, pairs, limits, id);
      }
      RunRefines(Apply(st, limits, ops[0]), PairApply(pairs, limits, ops[0]), limits, ops[1..]);
    }
  }

  // ---- the maps as functions of the set ----

  function Keyed(keys: set<string>, f: string -> set<string>): Multimap {
    map k | k in keys :: f(k)
  }

  /** The five index maps of a set of pairs. */
  function Concrete(pairs: Pairs): State {
    State(
      Keyed(set p | p in pairs :: p.1, room => SessionsIn(pairs, room)),
      Keyed(set p | p in pairs :: p.0, session => RoomsOf(pairs, session)),
      Keyed(set p | p in pairs :: p.1, room => UsersIn(pairs, room)),
      Keyed(set p | p in pairs :: Owner(p.0), user => RoomsOfUser(pairs, user)),
      map key | key in (set p | p in pairs :: RefKey(Owner(p.0), p.1)) ::
        |UserSessions(pairs, RefUser(key), RefRoom(key))|,
      map[])
  }

  /** A multimap without empty sets is keyed by whatever keys its contents use. */
  lemma KeyedUnique(m: Multimap, keys: set<string>, f: string -> set<string>)
    requires NoEmptySets(m)
    requires forall k :: At(m, k) == f(k)
    requires forall k :: k in keys <==> f(k) != {}
    ensures m == Keyed(keys, f)
  {
    forall k ensures k in m <==> k in keys { assert At(m, k) == f(k); }
    forall k | k in m ensures m[k] == f(k) { assert At(m, k) == f(k); }
  }

  lemma RoomKeyed(st: State, pairs: Pairs)
    requires Represents(st, pairs)
    ensures st.roomSessions == Concrete(pairs).roomSessions
    ensures st.roomUsers == Concrete(pairs).roomUsers
  {
    hide TenantOf, Owner, ProperUser, Inverse, RefsMatch, Counted, Owned, Exact, RefKey, RefUser, RefRoom;
    forall room
      ensures At(st.roomSessions, room) == SessionsIn(pairs, room) && At(st.roomUsers, room) == UsersIn(pairs, room)
      ensures room in (set p | p in pairs :: p.1) <==> SessionsIn(pairs, room) != {}
      ensures room in (set p | p in pairs :: p.1) <==> UsersIn(pairs, room) != {}
    {
      RoutingViews(st, pairs, room, "", "");
      RoomUsersView(st, pairs, room);
      if p :| p in pairs && p.1 == room {
        assert p.0 in SessionsIn(pairs, room) && Owner(p.0) in UsersIn(pairs, room);
      }
    }
    KeyedUnique(st.roomSessions, set p | p in pairs :: p.1, room => SessionsIn(pairs, room));
    KeyedUnique(st.roomUsers, set p | p in pairs :: p.1, room => UsersIn(pairs, room));
  }

  lemma RoomUsersView(st: State, pairs: Pairs, room: string)
    requires Represents(st, pairs)
    ensures At(st.roomUsers, room) == UsersIn(pairs, room)
  {
    var probe := Identity("", "", "");
    IdentityReadsBack(probe, "");
    UserViews(st, pairs, room, UserKey(probe));
  }

  lemma SessionKeyed(st: State, pairs: Pairs)
    requires Represents(st, pairs)
    ensures st.sessionRooms == Concrete(pairs).sessionRooms
  {
    hide TenantOf, Owner, ProperUser, Inverse, RefsMatch, Counted, Owned, Exact, RefKey, RefUser, RefRoom;
    forall session
      ensures At(st.sessionRooms, session) == RoomsOf(pairs, session)
      ensures session in (set p | p in pairs :: p.0) <==> RoomsOf(pairs, session) != {}
    {
      RoutingViews(st, pairs, "", session, "");
      if p :| p in pairs && p.0 == session { assert p.1 in RoomsOf(pairs, session); }
    }
    KeyedUnique(st.sessionRooms, set p | p in pairs :: p.0, session => RoomsOf(pairs, session));
  }

  lemma UserKeyed(st: State, pairs: Pairs)
    requires Represents(st, pairs)
    ensures st.userRooms == Concrete(pairs).userRooms
  {
    hide TenantOf, Owner, ProperUser, Inverse, RefsMatch, Counted, Owned, Exact, RefKey, RefUser, RefRoom;
    forall user
      ensures At(st.userRooms, user) == RoomsOfUser(pairs, user)
      ensures user in (set p | p in pairs :: Owner(p.0)) <==> RoomsOfUser(pairs, user) != {}
    {
      UserRoomsView(st, pairs, user);
      if p :| p in pairs && Owner(p.0) == user { assert p.1 in RoomsOfUser(pairs, user); }
    }
    KeyedUnique(st.userRooms, set p | p in pairs :: Owner(p.0), user => RoomsOfUser(pairs, user));
  }

  lemma UserRoomsView(st: State, pairs: Pairs, user: string)
    requires Represents(st, pairs)
    ensures At(st.userRooms, user) == RoomsOfUser(pairs, user)
  {
    hide TenantOf, Owner, ProperUser, Exact, Counted, Routing;
    if ProperUser(user) {
      UserViews(st, pairs, "", user);
    } else {
      forall room ensures room !in At(st.userRooms, user) && room !in RoomsOfUser(pairs, user) {
        assert room in At(st.userRooms, user) <==> user in At(st.roomUsers, room);
        ListedUserProper(st, pairs, room, user);
        ViewsFromSessions(pairs, room, user);
      }
    }
  }

  lemma RefsKeyed(st: State, pairs: Pairs)
    requires Represents(st, pairs)
    ensures st.refs == Concrete(pairs).refs
  {
    hide TenantOf, Owner, ProperUser, Inverse, Counted, At, Routing, RefUser, RefRoom, RefKey;
    var refs := Concrete(pairs).refs;
    forall key | key in st.refs || key in refs
      ensures key in st.refs && key in refs && st.refs[key] == refs[key]
    {
      var user, room := RefUser(key), RefRoom(key);
      RefListed(st, pairs, key);
      UserViewAt(st, pairs, room, user);
      UserIndexed(st, user, room);
      assert CountOf(st.refs, key) == |UserSessions(pairs, user, room)|;
      if s :| s in UserSessions(pairs, user, room) {
        var p :| p in pairs && p.1 == room && Owner(p.0) == user;
        assert RefKey(Owner(p.0), p.1) == key;
      }
    }
  }

  lemma RefListed(st: State, pairs: Pairs, key: string)
    requires Represents(st, pairs)
    requires key in st.refs || key in Concrete(pairs).refs
    ensures ProperUser(RefUser(key)) && RefKey(RefUser(key), RefRoom(key)) == key
    ensures key in st.refs || UserSessions(pairs, RefUser(key), RefRoom(key)) != {}
  {
    hide TenantOf, Owner, ProperUser, Counted, RefUser, RefRoom, RefKey;
    if key !in st.refs {
      var p :| p in pairs && key == RefKey(Owner(p.0), p.1);
      assert p.0 in At(st.roomSessions, p.1);
      RefKeyReadsBack(Owner(p.0), p.1);
      assert p.0 in UserSessions(pairs, Owner(p.0), p.1);
    }
  }

  /** After any disciplined run from the empty gateway, the five index maps are computed from
      one set of pairs, and each tenant counter is the number of its rooms with a session. */
  lemma SixMapsAreOneSet(limits: Limits, ops: seq<Op>)
    requires DisciplinedRun({}, limits, ops)
    ensures var st, pairs := Run(EMPTY, limits, ops), PairRun({}, limits, ops);
            && st.(roomCounts := map[]) == Concrete(pairs)
            && forall tenant :: CountOf(st.roomCounts, tenant) == |ActiveRooms(pairs, tenant)|
  {
    hide Represents, Concrete, ActiveRooms;
    var st, pairs := Run(EMPTY, limits, ops), PairRun({}, limits, ops);
    EmptyRepresents();
    RunRefines(EMPTY, {}, limits, ops);
    RoomKeyed(st, pairs);
    SessionKeyed(st, pairs);
    UserKeyed(st, pairs);
    RefsKeyed(st, pairs);
    assert Concrete(pairs).roomCounts == map[] by { ConcreteCounts(pairs); }
    forall tenant ensures CountOf(st.roomCounts, tenant) == |ActiveRooms(pairs, tenant)| {
      ActiveCounted(st, pairs, tenant);
    }
  }

  lemma ConcreteCounts(pairs: Pairs)
    ensures Concrete(pairs).roomCounts == map[]
  {
  }

  lemma ActiveCounted(st: State, pairs: Pairs, tenant: string)
    requires Represents(st, pairs)
    ensures CountOf(st.roomCounts, tenant) == |ActiveRooms(pairs, tenant)|
  {
    RoutingViews(st, pairs, "", "", tenant);
  }

  lemma EmptyRepresents()
    ensures Represents(EMPTY, {})
  {
    EmptySound(NO_LIMITS);
    forall user, room ensures Members(EMPTY.roomSessions, user, room) == {} {}
  }
}

/** Resource limits and tenant ownership over runs of room operations. */
module PresenceLimits {
  import opened Keys
  import opened Multimaps
  import opened Options
  import opened Config
  import opened PresenceSpec
  import opened PresenceInvariants

  /** Limits are fixed per tenant. */
  type Limits = string -> TenantLimits

  predicate Fits(n: nat, cap: nat) {
    cap == 0 || n <= cap
  }

  ghost predicate UsersFit(roomUsers: Multimap, limits: Limits) {
    forall room :: Fits(|At(roomUsers, room)|, limits(TenantOf(room)).maxUsersPerRoom)
  }

  ghost predicate RoomsFit(userRooms: Multimap, limits: Limits) {
    forall user :: Fits(|At(userRooms, user)|, limits(TenantOf(user)).maxRoomsPerUser)
  }

  ghost predicate TotalsFit(counts: map<string, nat>, limits: Limits) {
    forall tenant :: Fits(CountOf(counts, tenant), limits(tenant).maxRoomsTotal)
  }

  ghost predicate Within(st: State, limits: Limits) {
    UsersFit(st.roomUsers, limits) && RoomsFit(st.userRooms, limits) && TotalsFit(st.roomCounts, limits)
  }

  /** Sessions sit only in rooms of their own tenant. */
  ghost predicate Owned(st: State) {
    forall room, session :: session in At(st.roomSessions, room) ==>
      TenantOf(session) == TenantOf(room) && ProperUser(Owner(session)) && TenantOf(Owner(session)) == TenantOf(room)
  }

  ghost predicate Sound(st: State, limits: Limits) {
    Structured(st) && Owned(st) && Within(st, limits)
  }

  // ---- join ----

  /** The limit, if any, that an admitted join would break first. */
  function Broken(next: State, tenant: string, room: string, user: string, limits: TenantLimits): Option<JoinError> {
    if !Fits(|At(next.roomUsers, room)|, limits.maxUsersPerRoom) then Some(RoomUserLimit)
    else if !Fits(|At(next.userRooms, user)|, limits.maxRoomsPerUser) then Some(UserRoomLimit)
    else if !Fits(CountOf(next.roomCounts, tenant), limits.maxRoomsTotal) then Some(TenantRoomLimit)
    else None
  }

  /** A join is rejected exactly when admitting it would break a limit, with the error of
      the first limit it would break. */
  lemma VerdictIsFirstBrokenLimit(st: State, tenant: string, room: string, user: string, session: string,
      limits: Limits)
    requires Sound(st, limits) && Consistent(tenant, room, user, session)
    ensures Verdict(st, tenant, room, user, limits(tenant))
         == Broken(Admit(st, tenant, room, user, session), tenant, room, user, limits(tenant))
  {
    hide TenantOf, Owner, ProperUser, RefKey, Structured, Within, Owned;
    UserIndexed(st, user, room);
    CardAdd(At(st.roomUsers, room), user);
    CardAdd(At(st.userRooms, user), room);
    WithinAt(st, tenant, room, user, limits);
  }

  lemma WithinAt(st: State, tenant: string, room: string, user: string, limits: Limits)
    requires Within(st, limits) && TenantOf(room) == TenantOf(user) == tenant
    ensures Fits(|At(st.roomUsers, room)|, limits(tenant).maxUsersPerRoom)
    ensures Fits(|At(st.userRooms, user)|, limits(tenant).maxRoomsPerUser)
    ensures Fits(CountOf(st.roomCounts, tenant), limits(tenant).maxRoomsTotal)
  {
  }

  lemma PutFits(m: Multimap, k: string, x: string, limits: Limits)
    ensures UsersFit(m, limits) && Fits(|At(Put(m, k, x), k)|, limits(TenantOf(k)).maxUsersPerRoom) ==>
              UsersFit(Put(m, k, x), limits)
    ensures RoomsFit(m, limits) && Fits(|At(Put(m, k, x), k)|, limits(TenantOf(k)).maxRoomsPerUser) ==>
              RoomsFit(Put(m, k, x), limits)
  {
  }

  lemma DelFits(m: Multimap, k: string, x: string, limits: Limits)
    requires NoEmptySets(m)
    ensures UsersFit(m, limits) ==> UsersFit(Del(m, k, x), limits)
    ensures RoomsFit(m, limits) ==> RoomsFit(Del(m, k, x), limits)
  {
    forall j ensures |At(Del(m, k, x), j)| <= |At(m, j)| {
      CardSubset(At(Del(m, k, x), j), At(m, j));
    }
  }

  lemma IncrFits(counts: map<string, nat>, tenant: string, limits: Limits)
    requires TotalsFit(counts, limits)
    ensures Fits(CountOf(counts, tenant) + 1, limits(tenant).maxRoomsTotal) ==> TotalsFit(Incr(counts, tenant), limits)
  {
    forall t ensures Fits(CountOf(counts, t), limits(t).maxRoomsTotal) {}
  }

  lemma DecrFits(counts: map<string, nat>, tenant: string, limits: Limits)
    requires TotalsFit(counts, limits) && CountOf(counts, tenant) >= 1
    ensures TotalsFit(DecrAt(counts, tenant), limits)
  {
    forall t ensures Fits(CountOf(DecrAt(counts, tenant), t), limits(t).maxRoomsTotal) {
      assert Fits(CountOf(counts, t), limits(t).maxRoomsTotal);
    }
  }

  lemma AdmitOwned(st: State, tenant: string, room: string, user: string, session: string)
    requires Owned(st) && Consistent(tenant, room, user, session)
    ensures Owned(Admit(st, tenant, room, user, session))
  {
    hide TenantOf, Owner, ProperUser, RefKey;
  }

  lemma AdmitWithin(st: State, tenant: string, room: string, user: string, session: string, limits: Limits)
    requires Within(st, limits) && Consistent(tenant, room, user, session)
    requires Broken(Admit(st, tenant, room, user, session), tenant, room, user, limits(tenant)) == None
    ensures Within(Admit(st, tenant, room, user, session), limits)
  {
    hide TenantOf, Owner, ProperUser, RefKey, UsersFit, RoomsFit, TotalsFit, At;
    PutFits(st.roomUsers, room, user, limits);
    PutFits(st.userRooms, user, room, limits);
    IncrFits(st.roomCounts, tenant, limits);
  }

  lemma JoinSound(st: State, tenant: string, room: string, user: string, session: string, limits: Limits)
    requires Sound(st, limits) && Consistent(tenant, room, user, session)
    ensures Sound(TryJoin(st, tenant, room, user, session, limits(tenant)), limits)
  {
    hide Consistent, Structured, Owned, Within, Admit, Verdict, Broken;
    VerdictIsFirstBrokenLimit(st, tenant, room, user, session, limits);
    if Verdict(st, tenant, room, user, limits(tenant)) == None {
      AdmitStructured(st, tenant, room, user, session);
      AdmitOwned(st, tenant, room, user, session);
      AdmitWithin(st, tenant, room, user, session, limits);
    }
  }

  // ---- leave and cleanup ----

  lemma LeaveOwned(st: State, tenant: string, room: string, user: string, session: string)
    requires Owned(st) && NoEmptySets(st.roomSessions)
    ensures Owned(Leave(st, tenant, room, user, session))
  {
    hide TenantOf, Owner, ProperUser, RefKey;
  }

  lemma LeaveWithin(st: State, tenant: string, room: string, user: string, session: string, limits: Limits)
    requires Within(st, limits) && NoEmpty(st)
    requires Empties(st.roomSessions, room, session) ==> CountOf(st.roomCounts, tenant) >= 1
    ensures Within(Leave(st, tenant, room, user, session), limits)
  {
    hide RefKey, UsersFit, RoomsFit, TotalsFit, At;
    DelFits(st.roomUsers, room, user, limits);
    DelFits(st.userRooms, user, room, limits);
    if Empties(st.roomSessions, room, session) { DecrFits(st.roomCounts, tenant, limits); }
  }

  lemma LeaveSound(st: State, tenant: string, room: string, user: string, session: string, limits: Limits)
    requires Sound(st, limits) && Consistent(tenant, room, user, session)
    ensures Sound(Leave(st, tenant, room, user, session), limits)
  {
    hide Consistent, Owned, Within, Leave, NoEmptySets, Inverse, Counted, RefsMatch;
    LeaveStructured(st, tenant, room, user, session);
    LeaveNeverWraps(st, tenant, room, user, session);
    LeaveOwned(st, tenant, room, user, session);
    LeaveWithin(st, tenant, room, user, session, limits);
  }

  lemma {:induction false} LeaveAllSound(st: State, tenant: string, rooms: set<string>, user: string, session: string,
      limits: Limits)
    requires Sound(st, limits)
    requires forall room :: room in rooms ==> Consistent(tenant, room, user, session)
    ensures Sound(LeaveAll(st, tenant, rooms, user, session), limits)
    decreases |rooms|
  {
    hide Sound, Consistent, Leave;
    if rooms != {} {
      var room := Pick(rooms);
      LeaveSound(st, tenant, room, user, session, limits);
      LeaveAllSound(Leave(st, tenant, room, user, session), tenant, rooms - {room}, user, session, limits);
    }
  }

  lemma LeaveMembers(st: State, tenant: string, room: string, user: string, session: string)
    requires NoEmpty(st)
    ensures NoEmpty(Leave(st, tenant, room, user, session))
    ensures forall r :: At(Leave(st, tenant, room, user, session).roomSessions, r)
                     == if r == room then At(st.roomSessions, r) - {session} else At(st.roomSessions, r)
  {
  }

  lemma {:induction false} LeaveAllMembers(st: State, tenant: string, rooms: set<string>, user: string, session: string)
    requires NoEmpty(st)
    ensures forall r :: At(LeaveAll(st, tenant, rooms, user, session).roomSessions, r)
                     == if r in rooms then At(st.roomSessions, r) - {session} else At(st.roomSessions, r)
    decreases |rooms|
  {
    hide NoEmpty, Leave, At;
    if rooms != {} {
      var room := Pick(rooms);
      LeaveMembers(st, tenant, room, user, session);
      LeaveAllMembers(Leave(st, tenant, room, user, session), tenant, rooms - {room}, user, session);
    }
  }

  lemma InverseOfRemoval(m: Multimap, w: Multimap, m': Multimap, w': Multimap, session: string)
    requires Inverse(m, w) && Inverse(m', w')
    requires forall room :: At(m', room) == At(m, room) - {session}
    ensures forall other :: At(w', other) == if other == session then {} else At(w, other)
  {
    forall other, room ensures room in At(w', other) <==> other != session && room in At(w, other) {
      assert room in At(w', other) <==> other in At(m', room);
      assert room in At(w, other) <==> other in At(m, room);
    }
  }

  /** Cleanup takes the session out of every room, and changes no other membership. */
  lemma CleanupSound(st: State, tenant: string, user: string, session: string, limits: Limits)
    requires Sound(st, limits) && ConsistentSession(tenant, user, session)
    ensures Sound(Cleanup(st, tenant, user, session), limits)
    ensures forall room :: At(Cleanup(st, tenant, user, session).roomSessions, room)
                        == At(st.roomSessions, room) - {session}
    ensures forall other :: At(Cleanup(st, tenant, user, session).sessionRooms, other)
                         == if other == session then {} else At(st.sessionRooms, other)
  {
    hide TenantOf, Owner, ProperUser, Within, Counted, RefsMatch, At, LeaveAll, NoEmptySets;
    var rooms := At(st.sessionRooms, session);
    assert forall room :: room in rooms <==> session in At(st.roomSessions, room);
    LeaveAllSound(st, tenant, rooms, user, session, limits);
    LeaveAllMembers(st, tenant, rooms, user, session);
    var next := Cleanup(st, tenant, user, session);
    InverseOfRemoval(st.roomSessions, st.sessionRooms, next.roomSessions, next.sessionRooms, session);
  }

  // ---- runs ----

  datatype Op = Join(id: Identity, room: string) | LeaveRoom(id: Identity, room: string) | Drop(id: Identity)

  ghost function Apply(st: State, limits: Limits, op: Op): State {
    var id := op.id;
    match op
    case Join(_, room) =>
      TryJoin(st, id.tenant, RoomKey(id.tenant, room), UserKey(id), SessionKey(id), limits(id.tenant))
    case LeaveRoom(_, room) => Leave(st, id.tenant, RoomKey(id.tenant, room), UserKey(id), SessionKey(id))
    case Drop(_) => Cleanup(st, id.tenant, UserKey(id), SessionKey(id))
  }

  ghost function Run(st: State, limits: Limits, ops: seq<Op>): State
    decreases |ops|
  {
    if |ops| == 0 then st else Run(Apply(st, limits, ops[0]), limits, ops[1..])
  }

  lemma EmptySound(limits: Limits)
    ensures Sound(EMPTY, limits)
  {
    forall tenant ensures TenantRooms(EMPTY.roomSessions, tenant) == {} {}
  }

  lemma ApplySound(st: State, limits: Limits, op: Op)
    requires Sound(st, limits) && WellFormed(op.id)
    ensures Sound(Apply(st, limits, op), limits)
  {
    hide Sound, TryJoin, Leave, Cleanup, UserKey, SessionKey, RoomKey, TenantOf, Owner, ProperUser;
    var id := op.id;
    IdentityReadsBack(id, "");
    match op
    case Join(_, room) =>
      KeysConsistent(id, room);
      JoinSound(st, id.tenant, RoomKey(id.tenant, room), UserKey(id), SessionKey(id), limits);
    case LeaveRoom(_, room) =>
      KeysConsistent(id, room);
      LeaveSound(st, id.tenant, RoomKey(id.tenant, room), UserKey(id), SessionKey(id), limits);
    case Drop(_) =>
      CleanupSound(st, id.tenant, UserKey(id), SessionKey(id), limits);
  }

  /** Every run, repeated joins and stray leaves included, ends structured and within the limits. */
  lemma {:induction false} RunSound(st: State, limits: Limits, ops: seq<Op>)
    requires Sound(st, limits)
    requires forall i :: 0 <= i < |ops| ==> WellFormed(ops[i].id)
    ensures Sound(Run(st, limits, ops), limits)
    decreases |ops|
  {
    hide Sound, Apply, WellFormed;
    if ops != [] {
      ApplySound(st, limits, ops[0]);
      RunSound(Apply(st, limits, ops[0]), limits, ops[1..]);
    }
  }
}

/** The session registry as a value: the session table, the per-user index and the
    per-tenant counters, and what insert, remove and evict keep. */
module RegistrySpec {
  import opened Keys
  import opened Multimaps
  import opened Options

  /** `conn` names the outbound queue of the connection that registered the session. */
  datatype Entry = Entry(conn: nat, createdSeq: nat, tenant: string)

  datatype State = State(
    sessions: map<string, Entry>,
    userIndex: Multimap,
    tenantCounts: map<string, nat>,
    nextSeq: nat)

  const EMPTY := State(map[], map[], map[], 1)

  // ---- operations ----

  predicate Full(st: State, tenant: string, maxTotal: nat) {
    maxTotal > 0 && CountOf(st.tenantCounts, tenant) >= maxTotal
  }

  function Insert(st: State, tenant: string, user: string, session: string, conn: nat): State {
    State(
      st.sessions[session := Entry(conn, st.nextSeq, tenant)],
      Put(st.userIndex, user, session),
      Incr(st.tenantCounts, tenant),
      st.nextSeq + 1)
  }

  function TryInsert(st: State, tenant: string, user: string, session: string, conn: nat, maxTotal: nat): State {
    if Full(st, tenant, maxTotal) then st else Insert(st, tenant, user, session, conn)
  }

  function Remove(st: State, user: string, session: string): State {
    State(
      st.sessions - {session},
      Del(st.userIndex, user, session),
      if session in st.sessions then DecrAt(st.tenantCounts, st.sessions[session].tenant) else st.tenantCounts,
      st.nextSeq)
  }

  /** A user's registered session with no older one. */
  ghost predicate IsOldest(st: State, user: string, victim: string) {
    && victim in At(st.userIndex, user) && victim in st.sessions
    && forall other :: other in At(st.userIndex, user) && other in st.sessions ==>
         st.sessions[victim].createdSeq <= st.sessions[other].createdSeq
  }

  ghost function Oldest(st: State, user: string): (victim: Option<string>)
    ensures victim.Some? ==> IsOldest(st, user, victim.value)
    ensures victim.None? ==> !exists v :: IsOldest(st, user, v)
  {
    if v :| IsOldest(st, user, v) then Some(v) else None
  }

  ghost function Evict(st: State, user: string): State {
    var victim := Oldest(st, user);
    if victim.Some? then Remove(st, user, victim.value) else st
  }

  // ---- agreement ----

  /** The index lists, under their owners, exactly the sessions of the table. */
  ghost predicate Indexed(st: State) {
    && NoEmptySets(st.userIndex)
    && forall user, session :: session in At(st.userIndex, user) <==> session in st.sessions && Owner(session) == user
  }

  ghost predicate Stamped(st: State) {
    && (forall s :: s in st.sessions ==> st.sessions[s].createdSeq < st.nextSeq)
    && (forall s, t ::
         s in st.sessions && t in st.sessions && st.sessions[s].createdSeq == st.sessions[t].createdSeq ==> s == t)
  }

  lemma InsertStamped(st: State, tenant: string, user: string, session: string, conn: nat)
    requires Stamped(st)
    ensures Stamped(Insert(st, tenant, user, session, conn))
  {
  }

  ghost predicate Tenanted(sessions: map<string, Entry>) {
    forall s :: s in sessions ==> sessions[s].tenant == TenantOf(s) && ConsistentSession(TenantOf(s), Owner(s), s)
  }

  function TenantSessions(sessions: map<string, Entry>, tenant: string): set<string> {
    set s | s in sessions && TenantOf(s) == tenant
  }

  ghost predicate CountsCover(st: State) {
    forall tenant :: CountOf(st.tenantCounts, tenant) >= |TenantSessions(st.sessions, tenant)|
  }

  ghost predicate CountsExact(st: State) {
    forall tenant :: CountOf(st.tenantCounts, tenant) == |TenantSessions(st.sessions, tenant)|
  }

  ghost predicate Agrees(st: State) {
    Indexed(st) && Stamped(st) && Tenanted(st.sessions) && CountsCover(st)
  }

  lemma EmptyAgrees()
    ensures Agrees(EMPTY) && CountsExact(EMPTY)
  {
    forall tenant ensures TenantSessions(EMPTY.sessions, tenant) == {} {}
  }

  lemma TenantSessionsAfterInsert(sessions: map<string, Entry>, session: string, e: Entry, tenant: string)
    ensures |TenantSessions(sessions[session := e], tenant)| == |TenantSessions(sessions, tenant)|
         + if TenantOf(session) == tenant && session !in sessions then 1 else 0
  {
    hide TenantOf;
    var after := TenantSessions(sessions[session := e], tenant);
    var before := TenantSessions(sessions, tenant);
    assert after == if TenantOf(session) == tenant then before + {session} else before;
    CardAdd(TenantSessions(sessions, tenant), session);
  }

  lemma TenantSessionsAfterRemove(sessions: map<string, Entry>, session: string, tenant: string)
    ensures |TenantSessions(sessions - {session}, tenant)| == |TenantSessions(sessions, tenant)|
         - if TenantOf(session) == tenant && session in sessions then 1 else 0
  {
    hide TenantOf;
    assert TenantSessions(sessions - {session}, tenant) == TenantSessions(sessions, tenant) - {session};
    CardRemove(TenantSessions(sessions, tenant), session);
  }

  lemma InsertCounts(st: State, tenant: string, user: string, session: string, conn: nat)
    requires TenantOf(session) == tenant
    ensures CountsCover(st) ==> CountsCover(Insert(st, tenant, user, session, conn))
    ensures CountsExact(st) && session !in st.sessions ==> CountsExact(Insert(st, tenant, user, session, conn))
  {
    hide TenantOf, TenantSessions, Put;
    var next := Insert(st, tenant, user, session, conn);
    forall t ensures |TenantSessions(next.sessions, t)| == |TenantSessions(st.sessions, t)|
                       + if t == tenant && session !in st.sessions then 1 else 0 {
      TenantSessionsAfterInsert(st.sessions, session, Entry(conn, st.nextSeq, tenant), t);
    }
  }

  /** Tenant counts are exact after an insertion exactly when they were before and the key is
      fresh: a surplus is never made good. */
  lemma InsertExactIff(st: State, tenant: string, user: string, session: string, conn: nat)
    requires TenantOf(session) == tenant && CountsCover(st)
    ensures CountsExact(Insert(st, tenant, user, session, conn)) <==> CountsExact(st) && session !in st.sessions
  {
    hide TenantOf, TenantSessions, Put;
    var next := Insert(st, tenant, user, session, conn);
    forall t
      ensures CountOf(next.tenantCounts, t) - |TenantSessions(next.sessions, t)|
           == CountOf(st.tenantCounts, t) - |TenantSessions(st.sessions, t)|
            + if t == tenant && session in st.sessions then 1 else 0
    {
      TenantSessionsAfterInsert(st.sessions, session, Entry(conn, st.nextSeq, tenant), t);
    }
  }

  /** Insertion keeps the agreement. */
  lemma InsertAgrees(st: State, tenant: string, user: string, session: string, conn: nat)
    requires Agrees(st) && ConsistentSession(tenant, user, session)
    ensures Agrees(Insert(st, tenant, user, session, conn))
  {
    hide TenantOf, Owner, ProperUser, CountsCover, Stamped;
    InsertStamped(st, tenant, user, session, conn);
    InsertCounts(st, tenant, user, session, conn);
  }

  lemma RemoveCounts(st: State, user: string, session: string)
    requires Tenanted(st.sessions) && CountsCover(st)
    ensures session in st.sessions ==> CountOf(st.tenantCounts, st.sessions[session].tenant) >= 1
    ensures CountsCover(Remove(st, user, session))
    ensures CountsExact(Remove(st, user, session)) <==> CountsExact(st)
  {
    hide TenantOf, TenantSessions, Del;
    var next := Remove(st, user, session);
    if session in st.sessions { Registered(st, session); }
    forall t
      ensures CountOf(next.tenantCounts, t) - |TenantSessions(next.sessions, t)|
           == CountOf(st.tenantCounts, t) - |TenantSessions(st.sessions, t)|
    {
      TenantSessionsAfterRemove(st.sessions, session, t);
    }
  }

  /** A registered session's tenant counter is positive: the decrement never wraps. */
  lemma Registered(st: State, session: string)
    requires Tenanted(st.sessions) && CountsCover(st) && session in st.sessions
    ensures CountOf(st.tenantCounts, st.sessions[session].tenant) >= 1
  {
    hide TenantOf;
    assert session in TenantSessions(st.sessions, TenantOf(session));
  }

  lemma RemoveAgrees(st: State, user: string, session: string)
    requires Agrees(st) && Owner(session) == user
    ensures Agrees(Remove(st, user, session))
  {
    hide TenantOf, Owner, CountsCover, CountsExact, TenantSessions, ProperUser;
    RemoveCounts(st, user, session);
  }

  // ---- eviction ----

  lemma {:induction false} MinimumExists(sessions: map<string, Entry>, keys: set<string>) returns (victim: string)
    requires keys != {} && forall k :: k in keys ==> k in sessions
    ensures victim in keys
    ensures forall k :: k in keys ==> sessions[victim].createdSeq <= sessions[k].createdSeq
    decreases |keys|
  {
    victim :| victim in keys;
    if keys != {victim} {
      assert keys - {victim} != {};
      var other := MinimumExists(sessions, keys - {victim});
      if sessions[other].createdSeq < sessions[victim].createdSeq { victim := other; }
    }
  }

  /** A user with a listed session has one to evict, and only one. */
  lemma OldestExists(st: State, user: string)
    requires Agrees(st)
    ensures Oldest(st, user).Some? <==> At(st.userIndex, user) != {}
    ensures forall a, b :: IsOldest(st, user, a) && IsOldest(st, user, b) ==> a == b
  {
    hide Owner, TenantOf, CountsCover;
    if At(st.userIndex, user) != {} {
      var victim := MinimumExists(st.sessions, At(st.userIndex, user));
      assert IsOldest(st, user, victim);
    }
  }

  /** Eviction removes exactly one session of the user, older than every survivor. */
  lemma EvictTakesOldest(st: State, user: string)
    requires Agrees(st) && At(st.userIndex, user) != {}
    ensures Oldest(st, user).Some? && Agrees(Evict(st, user))
    ensures var victim := Oldest(st, user).value;
            && victim in At(st.userIndex, user) && victim in st.sessions
            && At(Evict(st, user).userIndex, user) == At(st.userIndex, user) - {victim}
            && forall other :: other in At(st.userIndex, user) && other != victim ==>
                 other in st.sessions && st.sessions[victim].createdSeq < st.sessions[other].createdSeq
  {
    hide Owner, TenantOf, CountsCover, Tenanted;
    OldestExists(st, user);
    var victim := Oldest(st, user).value;
    RemoveAgrees(st, user, victim);
    forall other | other in At(st.userIndex, user) && other != victim
      ensures other in st.sessions && st.sessions[victim].createdSeq < st.sessions[other].createdSeq {}
  }

  // ---- connect-only runs ----

  /** Admission with kick-oldest and no tenant cap. */
  ghost function Connect(st: State, max: nat, id: Identity, conn: nat): State {
    var user := UserKey(id);
    var room := if |At(st.userIndex, user)| >= max then Evict(st, user) else st;
    Insert(room, id.tenant, user, SessionKey(id), conn)
  }

  /** Connects in order; `max` is the per-user limit of each tenant. */
  ghost function ConnectAll(max: string -> nat, ids: seq<Identity>): State {
    if |ids| == 0 then EMPTY
    else
      var last := ids[|ids| - 1];
      Connect(ConnectAll(max, ids[..|ids| - 1]), max(last.tenant), last, |ids|)
  }

  /** The session keys of one user, in order of admission. */
  ghost function KeysOf(ids: seq<Identity>, user: string): seq<string> {
    if |ids| == 0 then []
    else
      var last := ids[|ids| - 1];
      KeysOf(ids[..|ids| - 1], user) + if UserKey(last) == user then [SessionKey(last)] else []
  }

  function LastOf(keys: seq<string>, max: nat): seq<string> {
    if |keys| <= max then keys else keys[|keys| - max..]
  }

  /** The user's registered sessions are `kept`, oldest first. */
  ghost predicate Lists(st: State, user: string, kept: seq<string>) {
    && (forall s :: s in kept <==> s in At(st.userIndex, user))
    && (forall i :: 0 <= i < |kept| ==> kept[i] in st.sessions)
    && (forall i, j :: 0 <= i < j < |kept| ==> st.sessions[kept[i]].createdSeq < st.sessions[kept[j]].createdSeq)
  }

  lemma {:induction false} ListsCount(st: State, user: string, kept: seq<string>)
    requires Lists(st, user, kept)
    ensures |At(st.userIndex, user)| == |kept|
  {
    var listed := set s | s in kept;
    assert listed == At(st.userIndex, user);
    DistinctCount(kept);
  }

  lemma {:induction false} DistinctCount(kept: seq<string>)
    requires forall i, j :: 0 <= i < j < |kept| ==> kept[i] != kept[j]
    ensures |set s | s in kept| == |kept|
  {
    if kept != [] {
      var init, last := kept[..|kept| - 1], kept[|kept| - 1];
      DistinctCount(init);
      assert (set s | s in kept) == (set s | s in init) + {last};
    }
  }

  lemma RemoveLists(st: State, user: string, kept: seq<string>)
    requires NoEmptySets(st.userIndex) && Lists(st, user, kept) && kept != []
    ensures Lists(Remove(st, user, kept[0]), user, kept[1..])
  {
    var next := Remove(st, user, kept[0]);
    forall i | 0 <= i < |kept| - 1 ensures kept[1..][i] == kept[i + 1] && kept[i + 1] != kept[0] {}
    forall s ensures s in kept[1..] <==> s in At(next.userIndex, user) {
      assert s in kept <==> s == kept[0] || s in kept[1..];
    }
  }

  lemma FirstIsOldest(st: State, user: string, kept: seq<string>)
    requires Lists(st, user, kept) && kept != []
    ensures IsOldest(st, user, kept[0])
  {
  }

  lemma EvictLists(st: State, user: string, kept: seq<string>)
    requires Agrees(st) && Lists(st, user, kept) && kept != []
    ensures Agrees(Evict(st, user)) && Lists(Evict(st, user), user, kept[1..])
    ensures Evict(st, user) == Remove(st, user, kept[0])
  {
    hide Agrees, Lists, IsOldest, Remove;
    OldestExists(st, user);
    FirstIsOldest(st, user, kept);
    RemoveAgreesListed(st, user, kept);
    RemoveLists(st, user, kept);
  }

  lemma RemoveAgreesListed(st: State, user: string, kept: seq<string>)
    requires Agrees(st) && Lists(st, user, kept) && kept != []
    ensures NoEmptySets(st.userIndex) && Agrees(Remove(st, user, kept[0]))
  {
    hide Owner, TenantOf, CountsCover, Tenanted, Stamped;
    assert kept[0] in kept;
    RemoveAgrees(st, user, kept[0]);
  }

  lemma ConnectLists(st: State, max: nat, id: Identity, conn: nat, kept: seq<string>)
    requires Agrees(st) && WellFormed(id) && max >= 1 && |kept| <= max
    requires Lists(st, UserKey(id), kept) && SessionKey(id) !in st.sessions
    ensures Agrees(Connect(st, max, id, conn))
    ensures Lists(Connect(st, max, id, conn), UserKey(id),
              (if |kept| >= max then kept[1..] else kept) + [SessionKey(id)])
  {
    hide Owner, TenantOf, CountsCover, UserKey, SessionKey, WellFormed, Evict, Tenanted;
    SessionConsistent(id);
    var user := UserKey(id);
    ListsCount(st, user, kept);
    var room, rest := st, kept;
    if |kept| >= max {
      EvictLists(st, user, kept);
      room, rest := Evict(st, user), kept[1..];
    }
    InsertAgrees(room, id.tenant, user, SessionKey(id), conn);
    InsertLists(room, id.tenant, user, SessionKey(id), conn, rest);
  }

  lemma InsertLists(st: State, tenant: string, user: string, session: string, conn: nat, kept: seq<string>)
    requires Stamped(st) && Lists(st, user, kept) && session !in st.sessions
    ensures Lists(Insert(st, tenant, user, session, conn), user, kept + [session])
  {
    var next, all := Insert(st, tenant, user, session, conn), kept + [session];
    forall s ensures s in all <==> s in At(next.userIndex, user) {}
    forall i | 0 <= i < |kept| ensures all[i] == kept[i] && all[i] in st.sessions && all[i] != session {}
  }

  lemma ListsAfterRemove(st: State, user: string, kept: seq<string>, other: string, session: string)
    requires NoEmptySets(st.userIndex) && Lists(st, user, kept) && other != user && session !in kept
    ensures Lists(Remove(st, other, session), user, kept)
  {
  }

  lemma ListsAfterInsert(st: State, user: string, kept: seq<string>, tenant: string, other: string, session: string,
      conn: nat)
    requires Lists(st, user, kept) && other != user && session !in kept
    ensures Lists(Insert(st, tenant, other, session, conn), user, kept)
  {
  }

  lemma ListedOwned(st: State, user: string, kept: seq<string>, session: string)
    requires Indexed(st) && Lists(st, user, kept) && Owner(session) != user
    ensures session !in kept
  {
  }

  lemma ConnectOthers(st: State, max: nat, id: Identity, conn: nat, user: string, kept: seq<string>)
    requires Agrees(st) && WellFormed(id) && max >= 1 && user != UserKey(id)
    requires Lists(st, user, kept)
    ensures Lists(Connect(st, max, id, conn), user, kept)
  {
    hide Owner, TenantOf, CountsCover, Tenanted, Stamped, UserKey, SessionKey, WellFormed, Lists, Remove, Insert;
    IdentityReadsBack(id, "");
    ListedOwned(st, user, kept, SessionKey(id));
    var victim := Oldest(st, UserKey(id));
    if victim.Some? {
      assert Owner(victim.value) == UserKey(id);
      ListedOwned(st, user, kept, victim.value);
      ListsAfterRemove(st, user, kept, UserKey(id), victim.value);
    }
    var room := if |At(st.userIndex, UserKey(id))| >= max then Evict(st, UserKey(id)) else st;
    ListsAfterInsert(room, user, kept, id.tenant, UserKey(id), SessionKey(id), conn);
  }

  /** Fresh keys: no session is admitted twice. */
  ghost predicate FreshKeys(ids: seq<Identity>) {
    && (forall i :: 0 <= i < |ids| ==> WellFormed(ids[i]))
    && (forall i, j :: 0 <= i < j < |ids| ==> SessionKey(ids[i]) != SessionKey(ids[j]))
  }

  lemma {:induction false} ConnectAllLists(max: string -> nat, ids: seq<Identity>, user: string)
    requires FreshKeys(ids) && forall i :: 0 <= i < |ids| ==> max(ids[i].tenant) >= 1
    ensures Agrees(ConnectAll(max, ids))
    ensures forall s :: s in ConnectAll(max, ids).sessions ==> exists i :: 0 <= i < |ids| && s == SessionKey(ids[i])
    ensures Lists(ConnectAll(max, ids), user, LastOf(KeysOf(ids, user), max(TenantOf(user))))
    decreases |ids|
  {
    hide UserKey, SessionKey, TenantOf, WellFormed, Agrees, Lists, Connect;
    if |ids| == 0 {
      EmptyAgrees();
      assert Lists(EMPTY, user, []) by { EmptyLists(user); }
    } else {
      var init, id := ids[..|ids| - 1], ids[|ids| - 1];
      var st := ConnectAll(max, init);
      ConnectAllLists(max, init, user);
      ConnectAllLists(max, init, UserKey(id));
      IdentityReadsBack(id, "");
      var cap := max(id.tenant);
      ConnectLists(st, cap, id, |ids|, LastOf(KeysOf(init, UserKey(id)), cap));
      ConnectKeys(st, cap, id, |ids|);
      assert KeysOf(ids, user)
          == if UserKey(id) == user then KeysOf(init, user) + [SessionKey(id)] else KeysOf(init, user);
      if user != UserKey(id) {
        ConnectOthers(st, cap, id, |ids|, user, LastOf(KeysOf(init, user), max(TenantOf(user))));
      } else {
        LastOfExtend(KeysOf(init, user), SessionKey(id), cap);
      }
      forall s | s in ConnectAll(max, ids).sessions ensures exists i :: 0 <= i < |ids| && s == SessionKey(ids[i]) {
        if s == SessionKey(id) { assert s == SessionKey(ids[|ids| - 1]); }
        else {
          var i :| 0 <= i < |init| && s == SessionKey(init[i]);
          assert s == SessionKey(ids[i]);
        }
      }
    }
  }

  lemma EmptyLists(user: string)
    ensures Lists(EMPTY, user, [])
  {
  }

  lemma ConnectKeys(st: State, max: nat, id: Identity, conn: nat)
    ensures forall s :: s in Connect(st, max, id, conn).sessions ==> s in st.sessions || s == SessionKey(id)
  {
  }

  lemma LastOfExtend(keys: seq<string>, s: string, max: nat)
    requires max >= 1
    ensures LastOf(keys + [s], max)
         == (if |LastOf(keys, max)| >= max then LastOf(keys, max)[1..] else LastOf(keys, max)) + [s]
  {
  }

  /** Such a run leaves each user exactly the last `max` admissions. */
  lemma LastConnectsRemain(max: string -> nat, ids: seq<Identity>, user: string, session: string)
    requires FreshKeys(ids) && forall i :: 0 <= i < |ids| ==> max(ids[i].tenant) >= 1
    ensures session in ConnectAll(max, ids).sessions && Owner(session) == user
       <==> session in LastOf(KeysOf(ids, user), max(TenantOf(user)))
  {
    hide Owner, TenantOf, CountsCover, ConnectAll, KeysOf, LastOf, FreshKeys;
    ConnectAllLists(max, ids, user);
  }
}

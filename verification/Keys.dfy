/** Identifiers and the `::`-joined keys under which the gateway indexes them.

    A tenant id or user id is *separable* when it neither contains `::` nor ends in `:`.
    Separable parts can be read back from the joined key; that is what makes the keys
    injective, and what makes one session key belong to exactly one user and tenant. */
module Keys {

  datatype Identity = Identity(tenant: string, user: string, sid: string)

  const SEP := "::"

  predicate Separable(a: string) {
    && (forall i :: 0 <= i < |a| - 1 ==> !(a[i] == ':' && a[i + 1] == ':'))
    && (a != "" ==> a[|a| - 1] != ':')
  }

  predicate WellFormed(id: Identity) {
    Separable(id.tenant) && Separable(id.user)
  }

  // ---- reading a key back ----

  /** Position of the first `::`, or the length when there is none. */
  function Cut(k: string): (n: nat)
    ensures n <= |k|
  {
    if |k| < 2 then |k|
    else if k[0] == ':' && k[1] == ':' then 0
    else 1 + Cut(k[1..])
  }

  function Head(k: string): string {
    k[..Cut(k)]
  }

  function Tail(k: string): string {
    if Cut(k) + 2 <= |k| then k[Cut(k) + 2..] else ""
  }

  /** The first `::` of a join is the one the join wrote, if the left part is separable. */
  lemma {:induction false} JoinReadsBack(a: string, x: string)
    requires Separable(a)
    ensures Head(a + SEP + x) == a
    ensures Tail(a + SEP + x) == x
  {
    CutOfJoin(a, x);
  }

  lemma {:induction false} CutOfJoin(a: string, x: string)
    requires Separable(a)
    ensures Cut(a + SEP + x) == |a|
  {
    var k := a + SEP + x;
    if a == "" {
      assert k[0] == ':' && k[1] == ':';
    } else {
      assert k[1..] == a[1..] + SEP + x;
      assert a[1..] != "" ==> a[1..][|a| - 2] == a[|a| - 1];
      CutOfJoin(a[1..], x);
    }
  }

  function TenantOf(k: string): string {
    Head(k)
  }

  /** The user key embedded in a session key. */
  function Owner(sessionKey: string): string {
    Head(sessionKey) + SEP + Head(Tail(sessionKey))
  }

  /** A user key whose two parts are separable. */
  predicate ProperUser(userKey: string) {
    && Separable(Head(userKey))
    && Separable(Tail(userKey))
    && userKey == Head(userKey) + SEP + Tail(userKey)
  }

  function RefUser(refKey: string): string {
    Owner(refKey)
  }

  function RefRoom(refKey: string): string {
    Tail(Tail(refKey))
  }

  // ---- building keys ----

  function UserKey(id: Identity): string {
    id.tenant + SEP + id.user
  }

  function SessionKey(id: Identity): string {
    id.tenant + SEP + id.user + SEP + id.sid
  }

  function RoomKey(tenant: string, room: string): string {
    tenant + SEP + room
  }

  /** Key of the per-(user, room) reference count. */
  function RefKey(userKey: string, roomKey: string): string {
    userKey + SEP + roomKey
  }

  predicate IsRefKey(k: string) {
    ProperUser(RefUser(k)) && RefKey(RefUser(k), RefRoom(k)) == k
  }

  /** The keys of a connection, independent of any room. */
  predicate ConsistentSession(tenant: string, user: string, session: string) {
    ProperUser(user) && Owner(session) == user && TenantOf(user) == tenant && TenantOf(session) == tenant
  }

  lemma SessionConsistent(id: Identity)
    requires WellFormed(id)
    ensures ConsistentSession(id.tenant, UserKey(id), SessionKey(id))
  {
    IdentityReadsBack(id, "");
  }

  lemma IdentityReadsBack(id: Identity, room: string)
    requires WellFormed(id)
    ensures ProperUser(UserKey(id))
    ensures Owner(SessionKey(id)) == UserKey(id)
    ensures TenantOf(UserKey(id)) == TenantOf(SessionKey(id)) == TenantOf(RoomKey(id.tenant, room)) == id.tenant
    ensures Tail(UserKey(id)) == id.user && Tail(Tail(SessionKey(id))) == id.sid
    ensures Tail(RoomKey(id.tenant, room)) == room
  {
    hide Cut, Head, Tail, Separable;
    JoinReadsBack(id.tenant, id.user);
    JoinReadsBack(id.tenant, room);
    assert SessionKey(id) == id.tenant + SEP + (id.user + SEP + id.sid);
    JoinReadsBack(id.tenant, id.user + SEP + id.sid);
    JoinReadsBack(id.user, id.sid);
  }

  lemma RefKeyReadsBack(userKey: string, roomKey: string)
    requires ProperUser(userKey)
    ensures RefUser(RefKey(userKey, roomKey)) == userKey && RefRoom(RefKey(userKey, roomKey)) == roomKey
    ensures IsRefKey(RefKey(userKey, roomKey))
  {
    hide Cut, Head, Tail, Separable;
    var t, u := Head(userKey), Tail(userKey);
    assert RefKey(userKey, roomKey) == t + SEP + (u + SEP + roomKey);
    JoinReadsBack(t, u + SEP + roomKey);
    JoinReadsBack(u, roomKey);
  }

  /** No other proper user and room share a reference key. */
  lemma RefKeyUnique(userKey: string, roomKey: string)
    requires ProperUser(userKey)
    ensures IsRefKey(RefKey(userKey, roomKey))
    ensures forall u, r :: ProperUser(u) && RefKey(u, r) == RefKey(userKey, roomKey) ==> u == userKey && r == roomKey
  {
    hide ProperUser, RefUser, RefRoom, RefKey;
    RefKeyReadsBack(userKey, roomKey);
    forall u, r | ProperUser(u) && RefKey(u, r) == RefKey(userKey, roomKey)
      ensures u == userKey && r == roomKey
    {
      RefKeyReadsBack(u, r);
    }
  }

  // ---- injectivity ----

  /** Session, user, room and reference keys determine their parts. */
  lemma KeysInjective(a: Identity, b: Identity, ra: string, rb: string)
    requires WellFormed(a) && WellFormed(b)
    ensures UserKey(a) == UserKey(b) <==> a.tenant == b.tenant && a.user == b.user
    ensures SessionKey(a) == SessionKey(b) <==> a == b
    ensures RoomKey(a.tenant, ra) == RoomKey(b.tenant, rb) <==> a.tenant == b.tenant && ra == rb
    ensures RefKey(UserKey(a), RoomKey(a.tenant, ra)) == RefKey(UserKey(b), RoomKey(b.tenant, rb))
       <==> a.tenant == b.tenant && a.user == b.user && ra == rb
  {
    hide Cut, Head, Tail, Separable, ProperUser, RefUser, RefRoom, WellFormed;
    IdentityReadsBack(a, ra);
    IdentityReadsBack(b, rb);
    RefKeyReadsBack(UserKey(a), RoomKey(a.tenant, ra));
    RefKeyReadsBack(UserKey(b), RoomKey(b.tenant, rb));
  }

  /** The only user id that tickets resolve to. */
  const DEV := "user:dev"

  lemma Regroup(t: string, user: string, s: string)
    ensures SessionKey(Identity(t, user, user + SEP + s)) == SessionKey(Identity(t + SEP + user, user, s))
  {
    assert user + SEP + (user + SEP + s) == user + SEP + user + SEP + s;
  }

  /** Without the hypothesis the claim fails: with a tenant id that configuration accepts and
      a session id that a client may send, two tenants share one session key. */
  lemma SharedSessionKey()
    ensures var a := Identity("acme", DEV, "user:dev::w");
            var b := Identity("acme::user:dev", DEV, "w");
            a.tenant != b.tenant && Separable(DEV) && SessionKey(a) == SessionKey(b)
  {
    assert "user:dev::w" == DEV + SEP + "w";
    assert "acme::user:dev" == "acme" + SEP + DEV;
    Regroup("acme", DEV, "w");
  }

  /** Exactly when the room namespaces of two tenants meet: one tenant's prefix is a
      prefix of the other's. */
  lemma NamespacesMeetIff(t: string, v: string)
    ensures (exists ra, rb :: RoomKey(t, ra) == RoomKey(v, rb))
       <==> t + SEP <= v + SEP || v + SEP <= t + SEP
  {
    if t + SEP <= v + SEP {
      var ra := (v + SEP)[|t| + 2..];
      assert RoomKey(t, ra) == RoomKey(v, "");
    } else if v + SEP <= t + SEP {
      var rb := (t + SEP)[|v| + 2..];
      assert RoomKey(t, "") == RoomKey(v, rb);
    }
    forall ra, rb | RoomKey(t, ra) == RoomKey(v, rb)
      ensures t + SEP <= v + SEP || v + SEP <= t + SEP
    {
      var k := RoomKey(t, ra);
      assert k[..|t| + 2] == t + SEP;
      assert k[..|v| + 2] == v + SEP;
    }
  }

  /** Exactly when two users' session ids can be chosen so that their session keys collide. */
  lemma SessionsMeetIff(a: Identity, b: Identity)
    ensures (exists sa, sb :: SessionKey(a.(sid := sa)) == SessionKey(b.(sid := sb)))
       <==> UserKey(a) + SEP <= UserKey(b) + SEP || UserKey(b) + SEP <= UserKey(a) + SEP
  {
    forall id: Identity, s ensures SessionKey(id.(sid := s)) == RoomKey(UserKey(id), s) {}
    NamespacesMeetIff(UserKey(a), UserKey(b));
    if ra, rb :| RoomKey(UserKey(a), ra) == RoomKey(UserKey(b), rb) {
      assert SessionKey(a.(sid := ra)) == SessionKey(b.(sid := rb));
    }
    if sa, sb :| SessionKey(a.(sid := sa)) == SessionKey(b.(sid := sb)) {
      assert RoomKey(UserKey(a), sa) == RoomKey(UserKey(b), sb);
    }
  }

  /** For the one user id that tickets resolve to: exactly when session keys of two tenants
      can collide. */
  lemma DevSessionsMeetIff(t: string, v: string)
    ensures (exists sa, sb :: SessionKey(Identity(t, DEV, sa)) == SessionKey(Identity(v, DEV, sb)))
       <==> t + SEP + DEV + SEP <= v + SEP + DEV + SEP || v + SEP + DEV + SEP <= t + SEP + DEV + SEP
  {
    var a, b := Identity(t, DEV, ""), Identity(v, DEV, "");
    SessionsMeetIff(a, b);
    forall s ensures a.(sid := s) == Identity(t, DEV, s) && b.(sid := s) == Identity(v, DEV, s) {}
    if sa, sb :| SessionKey(Identity(t, DEV, sa)) == SessionKey(Identity(v, DEV, sb)) {
      assert SessionKey(a.(sid := sa)) == SessionKey(b.(sid := sb));
    }
  }
}

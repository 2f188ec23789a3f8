/** The session registry object, each operation one atomic step. */
module SessionRegistries {
  import opened Keys
  import opened Multimaps
  import opened Options
  import Spec = RegistrySpec

  class SessionRegistry {
    var sessions: map<string, Spec.Entry>
    var userIndex: Multimap
    var tenantCounts: map<string, nat>
    var nextSeq: nat

    function View(): Spec.State
      reads this
    {
      Spec.State(sessions, userIndex, tenantCounts, nextSeq)
    }

    /** Creation stamps are distinct and below the largest 64-bit value. */
    ghost predicate Valid()
      reads this
    {
      Spec.Stamped(View()) && nextSeq <= U64_MAX
    }

    constructor ()
      ensures Valid() && View() == Spec.EMPTY
    {
      sessions, userIndex, tenantCounts, nextSeq := map[], map[], map[], 1;
    }

    /** Stamps run out only after 2^64 - 2 admissions. */
    method TryInsert(tenant: string, user: string, session: string, conn: nat, maxTotal: nat) returns (ok: bool)
      requires Valid() && nextSeq < U64_MAX
      modifies this
      ensures Valid()
      ensures ok == !Spec.Full(old(View()), tenant, maxTotal)
      ensures View() == Spec.TryInsert(old(View()), tenant, user, session, conn, maxTotal)
    {
      hide Spec.Stamped, Put, At;
      Spec.InsertStamped(View(), tenant, user, session, conn);
      if tenant !in tenantCounts { tenantCounts := tenantCounts[tenant := 0]; }
      if maxTotal > 0 && tenantCounts[tenant] >= maxTotal {
        return false;
      }
      tenantCounts := tenantCounts[tenant := tenantCounts[tenant] + 1];
      if maxTotal > 0 && tenantCounts[tenant] > maxTotal {
        assert false;  // only a concurrent increment can make the second check fail
      }
      assert tenantCounts == Incr(old(tenantCounts), tenant);
      userIndex := Put(userIndex, user, session);
      sessions := sessions[session := Spec.Entry(conn, nextSeq, tenant)];
      nextSeq := nextSeq + 1;
      return true;
    }

    method RemoveSession(user: string, session: string) returns (conn: Option<nat>)
      requires Valid()
      modifies this
      ensures Valid()
      ensures conn == if session in old(sessions) then Some(old(sessions)[session].conn) else None
      ensures View() == Spec.Remove(old(View()), user, session)
    {
      userIndex := Del(userIndex, user, session);
      conn := None;
      if session in sessions {
        var entry := sessions[session];
        sessions := sessions - {session};
        if entry.tenant in tenantCounts {
          tenantCounts := tenantCounts[entry.tenant := Decr(tenantCounts[entry.tenant])];
        }
        conn := Some(entry.conn);
      }
      assert sessions == old(sessions) - {session};
    }

    method GetSession(session: string) returns (conn: Option<nat>)
      ensures conn.Some? <==> session in sessions
      ensures conn.Some? ==> sessions[session].conn == conn.value
    {
      conn := if session in sessions then Some(sessions[session].conn) else None;
    }

    method CountUserSessions(user: string) returns (n: nat)
      ensures n == |At(userIndex, user)|
    {
      n := if user in userIndex then |userIndex[user]| else 0;
    }

    /** The minimum search visits the user's keys in any order. */
    method EvictOldest(user: string) returns (victim: Option<(string, nat)>)
      requires Valid()
      modifies this
      ensures Valid()
      ensures View() == Spec.Evict(old(View()), user)
      ensures match victim
              case None => Spec.Oldest(old(View()), user).None?
              case Some((key, conn)) => Spec.Oldest(old(View()), user) == Some(key) && conn == old(sessions)[key].conn
    {
      if user !in userIndex { return None; }
      var keys := userIndex[user];
      var oldest: Option<string> := None;
      var oldestSeq := U64_MAX;
      var todo := keys;
      while todo != {}
        invariant todo <= keys
        invariant oldest.None? ==> oldestSeq == U64_MAX && forall k :: k in keys - todo ==> k !in sessions
        invariant oldest.Some? ==>
          && oldest.value in keys && oldest.value in sessions && sessions[oldest.value].createdSeq == oldestSeq
          && forall k :: k in keys - todo && k in sessions ==> oldestSeq <= sessions[k].createdSeq
        decreases todo
      {
        var k :| k in todo;
        if k in sessions && sessions[k].createdSeq < oldestSeq {
          oldestSeq := sessions[k].createdSeq;
          oldest := Some(k);
        }
        todo := todo - {k};
      }
      if oldest.None? { return None; }
      assert Spec.IsOldest(View(), user, oldest.value);
      var conn := RemoveSession(user, oldest.value);
      return Some((oldest.value, conn.value));
    }
  }
}

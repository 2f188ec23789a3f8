# wsPrism gateway core: a Dafny model

wsPrism is a multi-tenant WebSocket gateway. This project models its in-memory core and proves
properties of it that hold over every run:

- **Presence** (`PresenceSpec`, `PresenceInvariants`, `PresenceLimits`, `PresenceRefinement`,
  `Presences`): six mutually redundant maps of rooms, sessions, users, reference counts and
  tenant counters. They stay consistent under every sequence of operations, and under a join /
  leave discipline they are functions of one set of (session, room) pairs.
- **Registry and connection protocol** (`RegistrySpec`, `SessionRegistries`, `TenantCap`,
  `Gateway`, `Outcomes`, `Lifecycle`, `Residue`, `Slots`, `Admission`, `RealtimeCores`): the
  session table and its index, the optimistic tenant cap at the granularity of single atomic operations, and
  the admission, message loop and teardown of all connections as one interleaved state machine.
  Teardown always empties the session table and the routing maps. It brings the tenant session
  counts back to 0 exactly when no admission repeated a registered session key and, in courteous
  runs, leaves no user listed exactly when no session joined a room it was in. With `k`
  overlapping connects a user has at most limit + `k` - 1 sessions, or the tenant's cap, and can
  have that many. Each step's effect on the session table and on the rooms is stated exactly, as
  is what a whole admission comes to in either mode. In courteous runs a registered connection's active room is a joined room.
- **Fan-out** (`FanoutSpec`, `Traffic`, `Isolation`, `RealtimeCores`): lossy broadcast over bounded queues,
  alone and together with the protocol; tenants stay apart, and a message offered to a
  registered session is queued exactly when its queue has room, and else counted as a drop.
- **Rate limiters** (`TokenBuckets`, `Policy`, `Handshake`): bounds on admissions from above and
  from below, and exactly when a later call succeeds.
- **Codecs and matchers** (`HotFrames`, `Labels`, `Allowlist`, `Keys`): round trips and exact
  meanings.

Objects that the gateway updates in place are classes; each of their methods is proved equal to
a function on values, and the theorems are about those functions. Protocol steps that interleave
in the gateway are events of a state machine; `RealtimeCores.RealtimeCore` ties the connection
task's code to those events. `dafny verify dfyconfig.toml` checks the whole project.

## Hypotheses

The theorems carry what they need in their `requires` clauses:

- *Well-formed ids.* A tenant id or user id neither contains `::` nor ends in `:`
  (`Keys.Separable`); session ids and room names are arbitrary. The only user id that tickets
  resolve to, `user:dev`, is well formed (app_state.rs:134-139), but configuration accepts any
  non-blank tenant id (schema.rs:30-41). `Keys.SharedSessionKey` shows two tenants sharing a
  session key then; `Keys.NamespacesMeetIff` and `Keys.SessionsMeetIff` say exactly when the
  room namespaces of two tenants, and the session keys of two users, can meet.
  `Isolation.IsolatedIff` asks nothing of ids: it says for which sets of tenants room publishes
  stay apart in all runs.
- *Atomic presence and registry calls.* Each call is one step. The source promises only best
  effort when calls on one room race (presence.rs:40-47); only the tenant cap is modelled below
  that granularity.
- *Courteous runs* (`Lifecycle.Courteous`): arriving connections bring new session keys, and a
  kicked connection does not leave a room that it was cleared from while its user is listed
  there; it may go on joining, and may leave what it has joined since. Both are real
  restrictions: session ids may come from the client (ws.rs:121), and a kicked connection's task
  keeps running, with its old active room, until its socket closes (ws.rs:143-149).
  `Residue.StrayLeaveUnlists` is the run in which such a leave takes the listing of the user's
  next session; `PresenceRefinement.LeaveCoveredIff` and `PresenceRefinement.LeaveExactIff` say
  exactly when a leave spoils the reference counts.
- *Fresh keys* for exact tenant session counts. Registering a key that is registered counts twice
  and is given back once (session_registry.rs:71-105). `Slots.RepeatsLeak` is the run: a session
  id that reconnects before its old socket is closed leaves nobody and a count of 1.
  `Slots.TeardownCountsIff` gives the exact condition for whole runs, courteous or not. Such
  repeats can take all slots of a capped tenant but one (`Slots.OneSlotLeft`), and never the last
  (`Slots.LastSlotStays`).
- *Join when absent* for exact reference counts. `try_join` counts a repeated join again
  (presence.rs:99-100) and one `leave` takes only one count back. `Residue.RejoinLeaks` is the
  run: after join, join and a leave or a disconnect the user occupies the room without a session
  for good. `PresenceRefinement.JoinExactIff` gives the exact condition for one step, and
  `Residue.TeardownRestoresIff` for whole runs. Consistency, limits and coverage of the counts
  need no such discipline.
- *The range of the token bucket.* Some of its theorems ask that the sum of capacity and
  earnings fits 32 bits (`TokenBuckets.Fits`); `TokenBuckets.LongIdleDenied` is a bucket outside.
- *Times* are parameters. Token-bucket times are nanoseconds; leaky buckets use real numbers.

Where the repository's texts disagree with its code the model follows the code: the English
readme draws the hot frame without its version byte, while hot.rs and docs/PROTOCOL.md have it.

## Model

| member | source | states |
|---|---|---|
| Keys.KeysInjective | crates/wsprism-gateway/src/realtime/core/realtime.rs:153-175 | user, session, room and reference keys of well-formed ids are equal exactly when their parts are |
| Keys.IdentityReadsBack | crates/wsprism-gateway/src/realtime/core/realtime.rs:153-175 | tenant, owner, user and session id can be read back out of the joined keys |
| Keys.RefKeyUnique | crates/wsprism-gateway/src/realtime/core/presence.rs:98 | no two (user, room) pairs share a reference key |
| Keys.SharedSessionKey | crates/wsprism-gateway/src/realtime/core/realtime.rs:154 | with a tenant id that configuration accepts, the one user id that tickets resolve to and a client's session id, two tenants share one session key |
| Keys.NamespacesMeetIff | crates/wsprism-gateway/src/realtime/core/realtime.rs:175 | two tenants can produce the same room key exactly when one tenant prefix is a prefix of the other |
| Keys.SessionsMeetIff | crates/wsprism-gateway/src/realtime/core/realtime.rs:154 | session ids of two users can be chosen to give one session key exactly when one user-key prefix is a prefix of the other |
| Keys.DevSessionsMeetIff | crates/wsprism-gateway/src/app_state.rs:134-139 | the same for two tenants and the one user id that tickets resolve to |
| Multimaps.Put | crates/wsprism-gateway/src/realtime/core/presence.rs:94-95 | inserting changes the contents under one key by one element and never leaves an empty set |
| Multimaps.Del | crates/wsprism-gateway/src/realtime/core/presence.rs:114-124 | removing changes the contents under one key by one element and drops an emptied set |
| Multimaps.Extensional | crates/wsprism-gateway/src/realtime/core/presence.rs:118-124 | because emptied sets are dropped, a map is determined by its contents |
| PresenceSpec.LeavesCommute | crates/wsprism-gateway/src/realtime/core/presence.rs:111-158 | one session's leaves of two rooms can be exchanged: all six maps end the same |
| PresenceSpec.LeaveAllAnyOrder | crates/wsprism-gateway/src/realtime/core/presence.rs:167-175 | cleanup ends in the same state whichever room the iteration takes first |
| PresenceSpec.LeaveIgnoresSessionRooms | crates/wsprism-gateway/src/realtime/core/presence.rs:168-172 | a leave works the same after the session's own room set has been taken out, as cleanup does |
| PresenceInvariants.AdmitStructured | crates/wsprism-gateway/src/realtime/core/presence.rs:79-106 | any join, repeated or not, keeps the routing maps inverse, the user maps and stored reference counts on the same pairs, and each tenant counter equal to its number of stored rooms |
| PresenceInvariants.LeaveStructured | crates/wsprism-gateway/src/realtime/core/presence.rs:111-158 | any leave, member or not, keeps the same agreement |
| PresenceInvariants.LeaveNeverWraps | crates/wsprism-gateway/src/realtime/core/presence.rs:130-157 | neither the reference count nor the tenant counter is zero when it is decremented |
| PresenceInvariants.UserIndexed | crates/wsprism-gateway/src/realtime/core/presence.rs:97-106 | a user is listed in a room exactly when the room is listed for the user, exactly when a count is stored |
| PresenceLimits.VerdictIsFirstBrokenLimit | crates/wsprism-gateway/src/realtime/core/presence.rs:57-89 | a join is rejected exactly when admitting it would break a limit, with the error of the first limit it would break |
| PresenceLimits.JoinSound | crates/wsprism-gateway/src/realtime/core/presence.rs:48-109 | a join, accepted or rejected, keeps agreement, tenant ownership of rooms and all three limits |
| PresenceLimits.LeaveSound | crates/wsprism-gateway/src/realtime/core/presence.rs:111-158 | so does a leave |
| PresenceLimits.CleanupSound | crates/wsprism-gateway/src/realtime/core/presence.rs:167-175 | cleanup takes the session out of every room, touches no other membership, and keeps agreement and limits |
| PresenceLimits.RunSound | crates/wsprism-gateway/src/realtime/core/presence.rs:48-175 | every run of joins, leaves and cleanups, repeated joins and stray leaves included, ends consistent and within the limits |
| PresenceRefinement.AdmitCounts | crates/wsprism-gateway/src/realtime/core/presence.rs:97-106 | every join keeps each reference count at least the number of that user's sessions in the room; a join of an absent session keeps it equal |
| PresenceRefinement.LeaveCounts | crates/wsprism-gateway/src/realtime/core/presence.rs:126-150 | a leave by a member keeps both |
| PresenceRefinement.CleanupCounts | crates/wsprism-gateway/src/realtime/core/presence.rs:167-175 | cleanup keeps both |
| PresenceRefinement.JoinExactIff | crates/wsprism-gateway/src/realtime/core/presence.rs:99-100 | a join keeps exact counts if and only if the session was not in the room |
| PresenceRefinement.RejoinAccepted | crates/wsprism-gateway/src/realtime/core/presence.rs:57-89 | as long as the reference counts cover the sessions, no limit stops a repeated join: a session already in the room is accepted |
| PresenceRefinement.LeaveExactIff | crates/wsprism-gateway/src/realtime/core/presence.rs:130-135 | a leave keeps exact (and covering) counts if and only if the session was in the room or its user had no session there |
| PresenceRefinement.LeaveCoveredIff | crates/wsprism-gateway/src/realtime/core/presence.rs:130-135 | from any covering counts, a leave keeps them covering if and only if the session was in the room, its user had no session there, or the count had one to spare |
| PresenceRefinement.LeaveNothing | crates/wsprism-gateway/src/realtime/core/presence.rs:111-158 | a leave of a room where neither the session nor its user is listed changes nothing |
| PresenceRefinement.LeaveUndoesJoin | crates/wsprism-gateway/src/realtime/core/presence.rs:91-158 | leaving after joining restores all five index maps and every tenant counter's value |
| PresenceRefinement.VerdictOnPairs | crates/wsprism-gateway/src/realtime/core/presence.rs:57-89 | the join decision on the maps is the decision computed from the set of pairs |
| PresenceRefinement.RunRefines | crates/wsprism-gateway/src/realtime/core/presence.rs:48-175 | every disciplined run of the six maps is a run of the set of pairs, decisions included; cleanup removes exactly the session's pairs |
| PresenceRefinement.SixMapsAreOneSet | crates/wsprism-gateway/src/realtime/core/presence.rs:12-26 | after any disciplined run from empty, the five index maps are functions of that set, and each tenant counter is its number of rooms with a session |
| Presences.Presence.constructor | crates/wsprism-gateway/src/realtime/core/presence.rs:29-38 | starts with six empty maps |
| Presences.Presence.TryJoin | crates/wsprism-gateway/src/realtime/core/presence.rs:48-109 | the in-place code returns the verdict of the three checks and leaves the state of the specified join; a rejected join changes nothing |
| Presences.Presence.Record | crates/wsprism-gateway/src/realtime/core/presence.rs:93-106 | the insertions of an accepted join, the user maps only with the first reference |
| Presences.Presence.Leave | crates/wsprism-gateway/src/realtime/core/presence.rs:111-158 | the in-place code is the specified leave |
| Presences.Presence.Unroute | crates/wsprism-gateway/src/realtime/core/presence.rs:112-124 | removes the session from both routing maps and reports whether the room is gone |
| Presences.Presence.Release | crates/wsprism-gateway/src/realtime/core/presence.rs:126-150 | gives back one reference, and the user entries with the last one |
| Presences.Presence.SessionsIn | crates/wsprism-gateway/src/realtime/core/presence.rs:160-164 | the sessions of a room, none for an unknown room |
| Presences.Presence.CleanupSession | crates/wsprism-gateway/src/realtime/core/presence.rs:167-175 | the loop, in any order, over rooms taken out beforehand equals leaving them all |
| RegistrySpec.InsertAgrees | crates/wsprism-gateway/src/realtime/core/session_registry.rs:70-90 | insertion keeps the index listing exactly the table's sessions, stamps distinct, and tenant counts at least the entries |
| RegistrySpec.InsertExactIff | crates/wsprism-gateway/src/realtime/core/session_registry.rs:71-87 | tenant counts are exact after an insertion if and only if they were before and the session key is fresh |
| RegistrySpec.RemoveAgrees | crates/wsprism-gateway/src/realtime/core/session_registry.rs:92-110 | removal keeps the agreement |
| RegistrySpec.RemoveCounts | crates/wsprism-gateway/src/realtime/core/session_registry.rs:101-105 | the decremented tenant count is positive, and covering counts stay so, and counts are exact after it if and only if they were before |
| RegistrySpec.OldestExists | crates/wsprism-gateway/src/realtime/core/session_registry.rs:149-165 | a user with a listed session has an oldest one, and only one |
| RegistrySpec.EvictTakesOldest | crates/wsprism-gateway/src/realtime/core/session_registry.rs:149-168 | eviction removes exactly one of the user's sessions, strictly older than every survivor |
| SessionRegistries.SessionRegistry.constructor | crates/wsprism-gateway/src/realtime/core/session_registry.rs:36-43 | starts empty with stamp 1 |
| SessionRegistries.SessionRegistry.TryInsert | crates/wsprism-gateway/src/realtime/core/session_registry.rs:52-90 | refuses exactly a full tenant and changes nothing then; as one step its second check cannot fail |
| SessionRegistries.SessionRegistry.RemoveSession | crates/wsprism-gateway/src/realtime/core/session_registry.rs:92-110 | removes from table, index and count, and returns the entry's queue |
| SessionRegistries.SessionRegistry.CountUserSessions | crates/wsprism-gateway/src/realtime/core/session_registry.rs:123-125 | the size of the user's index set |
| SessionRegistries.SessionRegistry.EvictOldest | crates/wsprism-gateway/src/realtime/core/session_registry.rs:149-168 | the minimum search, in any order, finds the oldest registered session and removes it |
| TenantCap.StepKeepsInv | crates/wsprism-gateway/src/realtime/core/session_registry.rs:60-109 | each atomic load, add, subtract or table access of any thread keeps the counter's meaning and the cap |
| TenantCap.CapHolds | crates/wsprism-gateway/src/realtime/core/session_registry.rs:46-109 | under every interleaving the counter is registered + passed + tentative + removed-not-subtracted; registered + passed never exceed the cap; the counter overshoots by at most the tentative and removed ones |
| TenantCap.SubtractionsNeverWrap | crates/wsprism-gateway/src/realtime/core/session_registry.rs:76 | no subtraction under any interleaving meets a zero counter |
| TenantCap.NobodyRefused | crates/wsprism-gateway/src/realtime/core/session_registry.rs:60-77 | as long as no more threads come than the cap allows, no load and no recheck of any interleaving turns one away |
| TenantCap.CounterMayOvershoot | crates/wsprism-gateway/src/realtime/core/session_registry.rs:49-51 | a schedule of two threads under a cap of 1 takes the counter to 2, after which both back out |
| Gateway.StepCoherent | crates/wsprism-gateway/src/transport/ws.rs:118-315 | every protocol step of any connection keeps registry agreement, presence soundness, entries backed by live connections, and rooms held only by connections that have still to clean up |
| Gateway.RunCoherent | crates/wsprism-gateway/src/transport/ws.rs:118-315 | hence every interleaved run of connections does |
| Outcomes.StepSessions | crates/wsprism-gateway/src/realtime/core/session_registry.rs:70-110 | what each protocol step does to the session table: an accepted admission puts its own connection under its key, newer than every other entry and in place of any older one; eviction and disconnect take out one key; nothing else changes |
| Outcomes.LastAcceptedOwns | crates/wsprism-gateway/src/realtime/core/session_registry.rs:87 | in every reachable state a registered key names the queue of the last connection accepted with it, and a send to that session targets this connection alone |
| Outcomes.StepMembers | crates/wsprism-gateway/src/realtime/core/presence.rs:91-175 | what each protocol step does to who sits in which room: an accepted join, the leave of the active room, and the clearing of a session, and nothing else |
| Outcomes.StepLive | crates/wsprism-gateway/src/transport/ws.rs:224-246 | a connection in the loop is concerned only by its own steps; an accepted join makes the room active, a refused one changes nothing, a leave gives the active room up |
| Outcomes.DeniedAtLimit | crates/wsprism-gateway/src/transport/ws.rs:135-142 | in deny mode a connect at the limit leaves registry and presence as they were and never enters the loop |
| Outcomes.DenyNeverEvicts | crates/wsprism-gateway/src/transport/ws.rs:138-142 | if every arriving tenant denies, no run comes to an eviction, and a session ends only with a disconnect under its own key |
| Outcomes.BelowLimit | crates/wsprism-gateway/src/transport/ws.rs:135-157 | below the limit a connect is accepted exactly when the tenant has a slot, and otherwise ends outside the loop with nothing changed |
| Outcomes.KickedIn | crates/wsprism-gateway/src/transport/ws.rs:143-157 | in kick-oldest mode a connect at the limit always gets in, whatever the cap: the user's oldest session goes from registry and rooms and makes the slot |
| Lifecycle.TeardownEmpties | crates/wsprism-gateway/src/transport/ws.rs:79-86 | in any run, once every admitted connection has cleaned up, sessions, user index and both routing maps are empty and all room counters are 0 |
| Residue.TeardownRestoresIff | crates/wsprism-gateway/src/transport/ws.rs:79-86 | after a courteous run with everybody down the tenant session counts are 0, and the reference counts, and each of the two user maps, are empty if and only if no session joined a room it was in |
| Residue.TeardownRestores | crates/wsprism-gateway/src/transport/ws.rs:79-86 | after such a run without repeated joins nothing is left in any map and every counter is 0 |
| Residue.RejoinLeaks | crates/wsprism-gateway/src/realtime/core/presence.rs:99-100 | for any id, room and validated configuration: join, join, leave, and join, join, disconnect, end with the user listed in a room without sessions |
| Residue.GhostBlocks | crates/wsprism-gateway/src/realtime/core/presence.rs:57-77 | such a listing shuts others out of the empty room, and its user out of other rooms |
| Residue.StrayLeaveUnlists | crates/wsprism-gateway/src/transport/ws.rs:239-246 | a kicked connection's leave of its old active room leaves its successor in the room with its user listed nowhere |
| Slots.TeardownCountsIff | crates/wsprism-gateway/src/realtime/core/session_registry.rs:71-105 | in any run, with everybody down all tenant session counts are 0 if and only if no accepted admission brought a key that was registered at that moment |
| Slots.RepeatsLeak | crates/wsprism-gateway/src/realtime/core/session_registry.rs:71-87 | one session key connecting n times before its first connection goes away ends with nobody registered, presence empty and a session count of n - 1 |
| Slots.LastSlotStays | crates/wsprism-gateway/src/realtime/core/session_registry.rs:60-77 | in every run a capped tenant with nobody registered is not full |
| Slots.OneSlotLeft | crates/wsprism-gateway/src/realtime/core/session_registry.rs:60-87 | for every cap some run leaves nobody registered and a tenant that the next session fills |
| Lifecycle.ActiveRoomIsJoined | crates/wsprism-gateway/src/transport/ws.rs:224-246 | in every courteous run a registered connection's active room holds its session, and reference counts cover the sessions even with repeated joins and joins of kicked connections |
| Lifecycle.LeaveUndoesJoinMessage | crates/wsprism-gateway/src/transport/ws.rs:224-246 | an accepted join makes the room active, and the connection's next leave undoes it |
| Lifecycle.KickForgets | crates/wsprism-gateway/src/transport/ws.rs:143-149 | unless the victim's key has registered again since its eviction, neither the registry nor presence knows it after the kick |
| Lifecycle.VictimTeardownIsNoOp | crates/wsprism-gateway/src/transport/ws.rs:79-86 | however others go on after a kick, in any coherent state, the victim's own cleanup changes neither registry nor presence unless its key registered or joined again since the eviction |
| Lifecycle.TenantSessionsCapped | crates/wsprism-gateway/src/transport/ws.rs:154-155 | in every run, repeated session keys included, a capped tenant's registered sessions stay within its cap |
| Admission.StepBounded | crates/wsprism-gateway/src/transport/ws.rs:133-155 | no step of any connection raises registered plus cleared sessions of a user beyond limit + k - 1 |
| Admission.OvershootBounded | crates/wsprism-gateway/src/transport/ws.rs:133-155 | with at most k overlapping connects a user has at most limit + k - 1 registered sessions, in both modes |
| Admission.PeakBounds | crates/wsprism-gateway/src/transport/ws.rs:133-155 | under a validated configuration no run with at most k overlapping connects registers more than limit + k - 1 sessions of a user, nor more than the tenant's cap |
| Admission.OvershootAttained | crates/wsprism-gateway/src/transport/ws.rs:133-155 | for every validated limit, cap, k and both modes some run with at most k overlapping connects registers the lesser of the two |
| Admission.LimitHoldsIff | crates/wsprism-gateway/src/transport/ws.rs:133-155 | under a validated configuration the limit holds in all runs with at most k overlapping connects if and only if k = 1 or the tenant has a cap no higher than the limit |
| Admission.SerialConnects | crates/wsprism-gateway/src/transport/ws.rs:133-157 | undisturbed connects are, on the registry, an eviction when the limit is reached and an insertion |
| Admission.LastAdmissionsRemain | crates/wsprism-gateway/src/transport/ws.rs:135-155 | a connect-only kick-oldest run of the protocol, without tenant caps and with fresh keys, leaves each user exactly the last `max_sessions_per_user` admissions |
| Admission.SingleMeansOne | crates/wsprism-gateway/src/config/schema.rs:364-371 | one connect at a time under a validated single-session policy never leaves a user two sessions |
| Config.ValidateIff | crates/wsprism-gateway/src/config/schema.rs:356-381 | validation accepts exactly the policies with positive rate, burst and session limit, one session in single mode |
| Admission.ValidatedPositive | crates/wsprism-gateway/src/config/schema.rs:356-381 | a validated policy allows at least one session per user, and exactly one in single mode |
| RealtimeCores.RealtimeCore.constructor | crates/wsprism-gateway/src/realtime/core/realtime.rs:34-39 | starts in the protocol's initial state |
| RealtimeCores.RealtimeCore.Arrive | crates/wsprism-gateway/src/transport/ws.rs:133-142 | the count and decision are the arrival step |
| RealtimeCores.RealtimeCore.EvictFor | crates/wsprism-gateway/src/transport/ws.rs:143-144 | the eviction is the evict step |
| RealtimeCores.RealtimeCore.KickFor | crates/wsprism-gateway/src/transport/ws.rs:147 | clearing the victim's rooms is the kick step |
| RealtimeCores.RealtimeCore.Admit | crates/wsprism-gateway/src/transport/ws.rs:154-157 | the insertion is the admit step; only a success arms the cleanup |
| RealtimeCores.RealtimeCore.Open | crates/wsprism-gateway/src/transport/ws.rs:133-157 | an undisturbed admission is its four steps in order, and reports whether the connection is in the loop |
| RealtimeCores.RealtimeCore.HandleJoin | crates/wsprism-gateway/src/transport/ws.rs:224-238 | a join message is the join step; the active room changes only on success |
| RealtimeCores.RealtimeCore.HandleLeave | crates/wsprism-gateway/src/transport/ws.rs:239-246 | a leave message leaves the active room, or nothing |
| RealtimeCores.RealtimeCore.Teardown | crates/wsprism-gateway/src/transport/ws.rs:79-86 | the drop guard is unregistration followed by clearing the rooms |
| RealtimeCores.RealtimeCore.Broadcast | crates/wsprism-gateway/src/realtime/core/realtime.rs:88-95 | offering the message session by session, in any order, serves every accepting target once and counts every other as a drop |
| RealtimeCores.RealtimeCore.PublishRoomLossy | crates/wsprism-gateway/src/realtime/core/realtime.rs:85-97 | serves the registered sessions of the room, and nothing when the payload cannot be encoded |
| RealtimeCores.RealtimeCore.SendToUser | crates/wsprism-gateway/src/realtime/core/realtime.rs:58-71 | serves the user's registered sessions, and fails without effect when there are none |
| RealtimeCores.RealtimeCore.SendToSession | crates/wsprism-gateway/src/realtime/core/realtime.rs:74-83 | serves one registered session, and fails without effect otherwise |
| FanoutSpec.RegisteredQueues | crates/wsprism-gateway/src/realtime/core/session_registry.rs:112-114 | in every reachable state a registered session's queue is that of a live connection with its session key, and no two registered sessions share one |
| FanoutSpec.DeliverOffers | crates/wsprism-gateway/src/realtime/core/realtime.rs:88-95 | each target whose queue is open and holds fewer than 1024 has the message once, at the end; every other queue is unchanged; drops rise by the number of the other targets |
| FanoutSpec.PublishStaysInTenant | crates/wsprism-gateway/src/realtime/core/realtime.rs:85-97 | in every reachable state a room publish changes only queues of live connections of the publisher's tenant |
| Isolation.IsolatedIff | crates/wsprism-gateway/src/realtime/core/realtime.rs:175-193 | for any set of tenant ids, room publishes are offered to the publisher's tenant only, in all runs, if and only if no tenant's key prefix starts another's |
| Isolation.PrefixCrosses | crates/wsprism-gateway/src/realtime/core/realtime.rs:175-193 | a tenant whose prefix starts another's can publish into every room of the other |
| Traffic.RunConserves | crates/wsprism-gateway/src/realtime/core/realtime.rs:58-97 | over any run of the protocol and of sends to the sessions registered at that moment, queues hold at most 1024 messages, what a queue took in is what it gave out plus what it holds and an in-order subsequence of what was addressed to it, and targets offered = served + dropped |
| Traffic.QueueAfter | crates/wsprism-gateway/src/realtime/core/realtime.rs:58-97 | what each event does to a queue: a message addressed to a registered session is appended if the queue is open and holds fewer than 1024, the writer takes the first, closing closes, and nothing else changes it |
| Traffic.DropsAfter | crates/wsprism-gateway/src/realtime/core/realtime.rs:58-97 | each event raises the drops by the number of addressed connections whose queue is closed, missing or at 1024 |
| Traffic.AllTakenIff | crates/wsprism-gateway/src/transport/ws.rs:130 | over any run a queue takes in all that is addressed to it if and only if it is open and below 1024 whenever it is addressed |
| Traffic.ArrivalOpens | crates/wsprism-gateway/src/transport/ws.rs:130 | a connection starts with an open, empty queue |
| Traffic.TrafficStaysInTenant | crates/wsprism-gateway/src/realtime/core/realtime.rs:185-193 | over any such run, what is addressed to a connection's queue is an in-order subsequence of what was sent in its own tenant and its own notices |
| TokenBuckets.AllowWellFormed | crates/wsprism-gateway/src/policy/engine.rs:228-250 | tokens never exceed the capacity, wrap-around included, and the clock mark never runs ahead |
| TokenBuckets.AllowPays | crates/wsprism-gateway/src/policy/engine.rs:228-250 | what a call admits and keeps is paid by the movement of the clock mark |
| TokenBuckets.AllowedIff | crates/wsprism-gateway/src/policy/engine.rs:228-250 | after a quantum a call is denied exactly when tokens plus ms * rps / 1000 is a multiple of 2^32, as long as the 64-bit product does not wrap; within a quantum exactly when no token is left |
| TokenBuckets.RefillExact | crates/wsprism-gateway/src/policy/engine.rs:238-250 | if the sum fits 32 bits, a refill after 50 ms that earns a token leaves exactly min(capacity, tokens + ms * rps / 1000) and moves the mark, and any other changes nothing |
| TokenBuckets.QuantumExact | crates/wsprism-gateway/src/policy/engine.rs:228-250 | within one quantum of the mark exactly the tokens held are served |
| TokenBuckets.NewServesBurst | crates/wsprism-gateway/src/policy/engine.rs:217-226 | a new bucket serves its whole burst at once |
| TokenBuckets.TokensServed | crates/wsprism-gateway/src/policy/engine.rs:228-250 | while the sum fits 32 bits, a bucket with n tokens serves at least the next n calls, whenever they come |
| TokenBuckets.PauseServesCapacity | crates/wsprism-gateway/src/policy/engine.rs:228-250 | after a pause that earns the capacity, as many calls in a row as the capacity pass |
| TokenBuckets.WaitSuffices | crates/wsprism-gateway/src/policy/engine.rs:238-250 | a call max(50, ceil(1000/rps)) ms after the mark succeeds if the sum fits 32 bits |
| TokenBuckets.LongIdleDenied | crates/wsprism-gateway/src/policy/engine.rs:245 | without that range condition an idle bucket can deny (2^32 ms at 1000 per second) |
| TokenBuckets.DeniedUnchanged | crates/wsprism-gateway/src/policy/engine.rs:228-250 | if the sum fits 32 bits, a denied call leaves tokens and mark as they were |
| TokenBuckets.RateSinceCreation | crates/wsprism-gateway/src/policy/engine.rs:208-251 | admissions since creation are at most capacity + rps * T, with no range condition |
| TokenBuckets.RateInWindow | crates/wsprism-gateway/src/policy/engine.rs:208-251 | over a window starting at a call whose sum fits 32 bits, admissions stay below capacity + rps * T + what a mark that lags by up to max(50, ceil(1000/rps)) ms can add |
| TokenBuckets.LagAttained | crates/wsprism-gateway/src/policy/engine.rs:238-250 | that lag is sharp: one nanosecond before, the mark has not moved |
| TokenBuckets.PollingNeverStarves | crates/wsprism-gateway/src/policy/engine.rs:228-250 | while the sum fits 32 bits, denied polling, however dense, never postpones the next token |
| TokenBuckets.TokenBucket.constructor | crates/wsprism-gateway/src/policy/engine.rs:217-226 | starts full, with rate and burst at least 1 |
| TokenBuckets.TokenBucket.RefillAt | crates/wsprism-gateway/src/policy/engine.rs:238-250 | the in-place refill is the specified one |
| TokenBuckets.TokenBucket.AllowAt | crates/wsprism-gateway/src/policy/engine.rs:228-236 | the in-place call is the specified one |
| Policy.PolicyRuntime.CheckText | crates/wsprism-gateway/src/policy/engine.rs:113-140 | size, then limiter, then allowlist; an oversized frame costs no token |
| Policy.PolicyRuntime.CheckHot | crates/wsprism-gateway/src/policy/engine.rs:143-164 | the same order for the hot lane, which drops where text rejects |
| Policy.TextPassesIff | crates/wsprism-gateway/src/policy/engine.rs:113-140 | a text message passes exactly when it fits, a token is left, and the raw list holds `svc:*` or `svc:type` |
| Policy.HotPassesIff | crates/wsprism-gateway/src/policy/engine.rs:143-164 | a hot frame passes exactly when it fits, a token is left, and some raw line grants it |
| Policy.TextAnswer | crates/wsprism-gateway/src/policy/engine.rs:113-140 | which of close, drop, reject and pass a text message gets, over the raw list |
| Policy.HotAnswer | crates/wsprism-gateway/src/policy/engine.rs:143-164 | the same for a hot frame, which is never rejected |
| Policy.FittingRequestsPay | crates/wsprism-gateway/src/policy/engine.rs:113-164 | over any mix of both lanes the requests that fit are, passed or not, one call of the tenant's limiter each, and oversized ones none |
| Policy.TenantRateCoversBothLanes | crates/wsprism-gateway/src/policy/engine.rs:113-164 | with a tenant limiter the passes of both lanes together since creation are at most burst + rps * T |
| Policy.BothLanesInWindow | crates/wsprism-gateway/src/policy/engine.rs:113-164 | over a window starting at a request that reaches the limiter, and whose sum fits 32 bits, the passes of both lanes stay below capacity + rps * T + the slack of a lagging mark |
| Policy.ValidatedTenantRate | crates/wsprism-gateway/src/config/schema.rs:358-362 | for a validated policy that bound uses the configured numbers as they are |
| Allowlist.SplitOnceIff | crates/wsprism-gateway/src/policy/allowlist.rs:26 | the split is the one at the first `:`, and fails exactly without one |
| Allowlist.ParseU8Iff | crates/wsprism-gateway/src/policy/allowlist.rs:43-54 | service ids and opcodes parse exactly as the decimal numerals of 0 to 255, leading zeros and one `+` aside |
| Allowlist.CompileExt | crates/wsprism-gateway/src/policy/allowlist.rs:22-33 | succeeds exactly when every entry has a `:`, and otherwise names the first that has none |
| Allowlist.CompileHot | crates/wsprism-gateway/src/policy/allowlist.rs:35-58 | succeeds exactly when every entry parses, and otherwise names the first that does not |
| Allowlist.ExtMeaning | crates/wsprism-gateway/src/policy/allowlist.rs:60-68 | (svc, type) is allowed exactly when svc has no `:` and `svc:*` or `svc:type` is literally in the raw list |
| Allowlist.HotMeaning | crates/wsprism-gateway/src/policy/allowlist.rs:70-78 | a frame is allowed exactly when some raw line is `id:op` with its service id and `*` or its opcode in decimal |
| Handshake.LeakyBucket.constructor | crates/wsprism-gateway/src/transport/handshake.rs:27-35 | starts full, capacity and rate at least 1 |
| Handshake.LeakyBucket.RefillAt | crates/wsprism-gateway/src/transport/handshake.rs:37-42 | the in-place refill is the specified one |
| Handshake.LeakyBucket.TryTake | crates/wsprism-gateway/src/transport/handshake.rs:45-56 | the in-place take is the specified one, Retry-After included |
| Handshake.RefillSplits | crates/wsprism-gateway/src/transport/handshake.rs:37-42 | refilling in pieces equals refilling once |
| Handshake.WaitIsLeast | crates/wsprism-gateway/src/transport/handshake.rs:52-54 | the wait is the least positive whole number of seconds that covers what is missing |
| Handshake.RetryAfterExact | crates/wsprism-gateway/src/transport/handshake.rs:45-56 | after a refusal with w, the same take succeeds s whole seconds later exactly if s >= w and the cost fits the capacity (delay-seconds of section 10.2.3 of RFC 9110) |
| Handshake.HandshakeDefender.constructor | crates/wsprism-gateway/src/transport/handshake.rs:73-79 | starts with a full global bucket and no addresses |
| Handshake.HandshakeDefender.CheckAt | crates/wsprism-gateway/src/transport/handshake.rs:87-137 | the check is global first, then the address, then trimming of any entries |
| Handshake.AdmittedIff | crates/wsprism-gateway/src/transport/handshake.rs:87-110 | admitted exactly when both levels hold a token; a global refusal leaves the addresses alone, an address refusal has cost a global token |
| Handshake.RefusalLastsOneSecond | crates/wsprism-gateway/src/transport/handshake.rs:87-110 | whichever level refuses, the answer is one second, and without a check in between the same address is admitted one second later |
| Handshake.TakeExact | crates/wsprism-gateway/src/transport/handshake.rs:45-56 | a take succeeds exactly when the level covers its cost, and then costs exactly that |
| Handshake.CheckCharges | crates/wsprism-gateway/src/transport/handshake.rs:98-110 | once the global level holds, an address is admitted exactly when it holds a token, and is charged one if admitted and none if refused |
| Handshake.CheckEntries | crates/wsprism-gateway/src/transport/handshake.rs:98-137 | which entries an attempt adds, keeps and trims: other addresses keep their buckets, and only an admission over the size limit trims, and then the picked ones |
| Handshake.OffAdmitsAll | crates/wsprism-gateway/src/transport/handshake.rs:88-90 | with protection off every attempt is admitted and nothing changes |
| Handshake.AddressServed | crates/wsprism-gateway/src/transport/handshake.rs:87-137 | while the global bucket holds and its entry stays, an address gets all the tokens of its level, whatever others do in between |
| Handshake.NewAddressGetsBurst | crates/wsprism-gateway/src/transport/handshake.rs:98-110 | a new address gets its whole burst |
| Handshake.GlobalBound | crates/wsprism-gateway/src/transport/handshake.rs:87-137 | over any window of any run since creation all admissions are at most global burst + global rps * T |
| Handshake.IpBound | crates/wsprism-gateway/src/transport/handshake.rs:87-137 | over any window of any run since creation an address whose entry is evicted k times is admitted at most (k + 1) per-address bursts + rps * T |
| Labels.EscapeIsOnePass | crates/wsprism-gateway/src/obs/metrics.rs:14-16 | the three whole-string replacements in this order are the one-pass character escape |
| Labels.OtherOrderDiffers | crates/wsprism-gateway/src/obs/metrics.rs:15 | replacing backslashes last would not be |
| Labels.UnescapeInverts | crates/wsprism-gateway/src/obs/metrics.rs:14-16 | unescaping returns the label value |
| Labels.EscapeInjective | crates/wsprism-gateway/src/obs/metrics.rs:14-16 | distinct label values stay distinct |
| Labels.EscapedIsQuotable | crates/wsprism-gateway/src/obs/metrics.rs:14-16 | the output has no line feed, and every quote and backslash is part of an escape |
| HotFrames.Decode | crates/wsprism-core/src/protocol/hot.rs:37-74 | the cursor walk returns exactly the well-formed frame whose encoding the bytes are, or the first defect in check order |
| HotFrames.LayoutByIndex | docs/PROTOCOL.md:53-68 | each header field, the four sequence bytes, lowest first, and the payload at their byte positions |
| HotFrames.EncodeInjective | docs/PROTOCOL.md:53-68 | the documented layout is unambiguous |
| HotFrames.AcceptedIffEncoded | crates/wsprism-core/src/protocol/hot.rs:37-74 | the accepted byte strings are exactly the encodings of well-formed frames |

## Left out

- Sockets, upgrade, `select!` scheduling, write timeouts, pings, idle ticks, tracing, JSON and YAML parsing, operations endpoints: input and output.
- Races between calls on one room: each presence call is one step, so two interleaved leaves that both see an empty room are not modelled.
- Memory orderings and map shard locks: the tenant cap is modelled over sequentially consistent steps.
- Overflow of increments (2^64 joins, admissions or drops): counters only count up without bound; every decrement is modelled with its wrap-around.
- Debug builds, where the token bucket's 32-bit sum panics instead of wrapping: the release arithmetic is modelled.
- Rounding of floating-point tokens in the leaky bucket: modelled over the reals.
- The clock-seeded choice of addresses to trim: any set of addresses, including none.
- Interleaving of one handshake check between its two buckets: a check is one step.
- Reliable publishing, its timeouts and failure counter.
- The notices pushed to a kicked connection's queue, and shutdown broadcasts.
- The active-sessions gauge, which a kick and the victim's own cleanup both decrement.
- Per-connection limiting before the text policy check: the same token bucket, consulted once more.
- Counters, histograms, sampling, error codes, dispatcher lookup, tickets, trace ids and range checks of the gateway section: easy members.

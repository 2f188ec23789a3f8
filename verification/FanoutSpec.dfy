/** Lossy fan-out over bounded outbound queues: what one broadcast does, and what every
    broadcast, own send and drain keeps. */
module FanoutSpec {
  import opened Keys
  import opened Multimaps
  import opened Config
  import opened PresenceLimits
  import Reg = RegistrySpec
  import opened Gateway

  type Msg = string

  /** Outbound channel capacity of every connection. */
  const CAPACITY := 1024

  /** A connection's outbound queue; it is closed once its receiver is gone. */
  datatype Queue = Queue(items: seq<Msg>, open: bool)

  datatype Hub = Hub(queues: map<nat, Queue>, drops: nat)

  predicate Accepts(queues: map<nat, Queue>, c: nat) {
    c in queues && queues[c].open && |queues[c].items| < CAPACITY
  }

  /** The queues of the registered ones among some sessions. */
  function Targets(table: map<string, Reg.Entry>, members: set<string>): set<nat> {
    set s | s in members && s in table :: table[s].conn
  }

  function Refusing(queues: map<nat, Queue>, targets: set<nat>): set<nat> {
    set c | c in targets && !Accepts(queues, c)
  }

  /** Every accepting target gets the message once; every other target is one drop. */
  function Deliver(hub: Hub, targets: set<nat>, m: Msg): Hub {
    Hub(
      map c | c in hub.queues ::
        if c in targets && Accepts(hub.queues, c) then Queue(hub.queues[c].items + [m], true) else hub.queues[c],
      hub.drops + |Refusing(hub.queues, targets)|)
  }

  /** An open queue that holds fewer than 1024 messages. */
  predicate HasRoom(queues: map<nat, Queue>, c: nat) {
    c in queues && queues[c].open && |queues[c].items| < 1024
  }

  /** What a message offered to some queues comes to: each of them that is open and holds fewer
      than 1024 has it once, at its end; no other queue changes; the drops rise by the number of
      the others that were addressed. */
  ghost predicate Offered(before: Hub, after: Hub, targets: set<nat>, m: Msg) {
    && after.queues.Keys == before.queues.Keys
    && (forall c :: c in before.queues ==>
          after.queues[c] == if c in targets && HasRoom(before.queues, c)
                             then Queue(before.queues[c].items + [m], true) else before.queues[c])
    && after.drops == before.drops + |set c | c in targets && !HasRoom(before.queues, c)|
  }

  /** Delivery is complete: nothing that has room goes without. */
  lemma DeliverOffers(hub: Hub, targets: set<nat>, m: Msg)
    ensures Offered(hub, Deliver(hub, targets, m), targets, m)
  {
    assert Refusing(hub.queues, targets) == set c | c in targets && !HasRoom(hub.queues, c);
  }

  /** No two registered sessions share a queue. */
  ghost predicate OwnQueues(table: map<string, Reg.Entry>) {
    forall s, t :: s in table && t in table && table[s].conn == table[t].conn ==> s == t
  }

  /** In every reachable state a registered session's entry names the queue of a live
      connection with that session key, and no two registered sessions share a queue. */
  lemma RegisteredQueues(cfg: Tenants, events: seq<Event>)
    requires WellFormedEvents(events)
    ensures var g := Execute(cfg, INIT, events);
            && OwnQueues(g.reg.sessions)
            && forall s :: s in g.reg.sessions ==>
                 var c := g.reg.sessions[s].conn;
                 c in g.conns && g.conns[c].phase.Live? && Key(g.conns[c]) == s
  {
    hide SessionKey, Execute, Reg.Agrees, Sound, Identified, Housed;
    InitCoherent(cfg);
    RunCoherent(cfg, INIT, events);
    assert Backed(Execute(cfg, INIT, events));
  }

  lemma TrySendOne(hub: Hub, sent: set<nat>, c: nat, m: Msg)
    requires c !in sent
    ensures Deliver(hub, sent + {c}, m)
         == if Accepts(hub.queues, c)
            then Hub(Deliver(hub, sent, m).queues[c := Queue(hub.queues[c].items + [m], true)],
                     Deliver(hub, sent, m).drops)
            else Deliver(hub, sent, m).(drops := Deliver(hub, sent, m).drops + 1)
    ensures Accepts(Deliver(hub, sent, m).queues, c) == Accepts(hub.queues, c)
    ensures c in hub.queues ==> Deliver(hub, sent, m).queues[c] == hub.queues[c]
  {
    assert Refusing(hub.queues, sent + {c})
        == if Accepts(hub.queues, c) then Refusing(hub.queues, sent) else Refusing(hub.queues, sent) + {c};
  }

  // ---- tenant isolation ----

  /** A room publish reaches only queues of live connections of the publisher's tenant. */
  lemma PublishStaysInTenant(cfg: Tenants, events: seq<Event>, hub: Hub, tenant: string, room: string, m: Msg, c: nat)
    requires WellFormedEvents(events) && Separable(tenant) && c in hub.queues
    ensures var g := Execute(cfg, INIT, events);
            var targets := Targets(g.reg.sessions, At(g.pres.roomSessions, RoomKey(tenant, room)));
            Deliver(hub, targets, m).queues[c] != hub.queues[c] ==>
              c in g.conns && g.conns[c].phase.Live? && g.conns[c].id.tenant == tenant
  {
    hide Coherent, Execute, WellFormed, RoomKey;
    InitCoherent(cfg);
    RunCoherent(cfg, INIT, events);
    var g := Execute(cfg, INIT, events);
    RoomTenant(tenant, room);
    if c in Targets(g.reg.sessions, At(g.pres.roomSessions, RoomKey(tenant, room))) {
      MemberTenant(cfg, g, RoomKey(tenant, room), c);
    }
  }

  lemma RoomTenant(tenant: string, room: string)
    requires Separable(tenant)
    ensures TenantOf(RoomKey(tenant, room)) == tenant
  {
    JoinReadsBack(tenant, room);
  }

  lemma MemberTenant(cfg: Tenants, g: State, room: string, c: nat)
    requires Coherent(cfg, g) && c in Targets(g.reg.sessions, At(g.pres.roomSessions, room))
    ensures c in g.conns && g.conns[c].phase.Live? && g.conns[c].id.tenant == TenantOf(room)
  {
    hide TenantOf, SessionKey, WellFormed, Owner, ProperUser, Within, Housed, Reg.Agrees;
    var s :| s in At(g.pres.roomSessions, room) && s in g.reg.sessions && g.reg.sessions[s].conn == c;
    assert Key(g.conns[c]) == s && WellFormed(g.conns[c].id);
    IdentityReadsBack(g.conns[c].id, "");
  }

  // ---- what becomes of messages ----

  /** What was addressed to a queue, what it took in, and what its writer took out. */
  datatype Trace = Trace(addressed: seq<Msg>, accepted: seq<Msg>, drained: seq<Msg>)

  /** `offered` and `taken` count broadcast targets. */
  datatype World = World(hub: Hub, traces: map<nat, Trace>, offered: nat, taken: nat)

  const START := World(Hub(map[], 0), map[], 0, 0)

  /** `Own` is a connection's own `send().await`, which completes only when there is room. */
  datatype Act =
    | Open(c: nat)
    | Broadcast(targets: set<nat>, m: Msg)
    | Own(c: nat, m: Msg)
    | Drain(c: nat)
    | Close(c: nat)

  function Log(queues: map<nat, Queue>, traces: map<nat, Trace>, targets: set<nat>, m: Msg): map<nat, Trace> {
    map c | c in traces ::
      if c !in targets then traces[c]
      else if Accepts(queues, c)
      then Trace(traces[c].addressed + [m], traces[c].accepted + [m], traces[c].drained)
      else traces[c].(addressed := traces[c].addressed + [m])
  }

  function Do(w: World, a: Act): World {
    var queues := w.hub.queues;
    match a
    case Open(c) =>
      if c in queues || c in w.traces then w
      else w.(hub := w.hub.(queues := queues[c := Queue([], true)]), traces := w.traces[c := Trace([], [], [])])
    case Broadcast(targets, m) =>
      World(Deliver(w.hub, targets, m), Log(queues, w.traces, targets, m),
            w.offered + |targets|, w.taken + |targets - Refusing(queues, targets)|)
    case Own(c, m) =>
      if Accepts(queues, c)
      then w.(hub := w.hub.(queues := queues[c := Queue(queues[c].items + [m], true)]),
              traces := Log(queues, w.traces, {c}, m))
      else w
    case Drain(c) =>
      if c in queues && c in w.traces && queues[c].open && queues[c].items != []
      then w.(hub := w.hub.(queues := queues[c := Queue(queues[c].items[1..], true)]),
              traces := w.traces[c := w.traces[c].(drained := w.traces[c].drained + [queues[c].items[0]])])
      else w
    case Close(c) =>
      if c in queues then w.(hub := w.hub.(queues := queues[c := queues[c].(open := false)])) else w
  }

  /** `a` is what remains of `b` when some elements are left out. */
  ghost predicate Subsequence(a: seq<Msg>, b: seq<Msg>)
    decreases |b|
  {
    if |b| == 0 then |a| == 0
    else
      || Subsequence(a, b[..|b| - 1])
      || (|a| > 0 && a[|a| - 1] == b[|b| - 1] && Subsequence(a[..|a| - 1], b[..|b| - 1]))
  }

  lemma SubsequenceExtends(a: seq<Msg>, b: seq<Msg>, m: Msg)
    requires Subsequence(a, b)
    ensures Subsequence(a, b + [m])
    ensures Subsequence(a + [m], b + [m])
  {
    assert (b + [m])[..|b|] == b && (a + [m])[..|a|] == a;
  }

  ghost predicate QueueOk(q: Queue, t: Trace) {
    && |q.items| <= CAPACITY
    && t.accepted == t.drained + q.items
    && Subsequence(t.accepted, t.addressed)
  }

  ghost predicate WorldOk(w: World) {
    && w.traces.Keys == w.hub.queues.Keys
    && (forall c :: c in w.traces ==> QueueOk(w.hub.queues[c], w.traces[c]))
    && w.offered == w.taken + w.hub.drops
  }

  lemma AppendOk(q: Queue, t: Trace, m: Msg)
    requires QueueOk(q, t)
    ensures QueueOk(q, t.(addressed := t.addressed + [m]))
    ensures |q.items| < CAPACITY ==>
              QueueOk(Queue(q.items + [m], true), Trace(t.addressed + [m], t.accepted + [m], t.drained))
  {
    SubsequenceExtends(t.accepted, t.addressed, m);
  }

  lemma DrainOk(q: Queue, t: Trace)
    requires QueueOk(q, t) && q.items != []
    ensures QueueOk(Queue(q.items[1..], true), t.(drained := t.drained + [q.items[0]]))
  {
    assert q.items == [q.items[0]] + q.items[1..];
  }

  lemma BroadcastOk(w: World, targets: set<nat>, m: Msg)
    requires WorldOk(w)
    ensures WorldOk(Do(w, Broadcast(targets, m)))
  {
    hide QueueOk;
    var next := Do(w, Broadcast(targets, m));
    forall c | c in w.traces ensures QueueOk(next.hub.queues[c], next.traces[c]) {
      AppendOk(w.hub.queues[c], w.traces[c], m);
    }
    var refusing := Refusing(w.hub.queues, targets);
    assert |targets - refusing| + |refusing| == |targets| by {
      assert (targets - refusing) + refusing == targets;
    }
  }

  lemma DoOk(w: World, a: Act)
    requires WorldOk(w)
    ensures WorldOk(Do(w, a))
  {
    match a
    case Open(c) =>
    case Broadcast(targets, m) => BroadcastOk(w, targets, m);
    case Own(c, m) => if Accepts(w.hub.queues, c) { AppendOk(w.hub.queues[c], w.traces[c], m); }
    case Drain(c) =>
      if c in w.hub.queues && w.hub.queues[c].items != [] { DrainOk(w.hub.queues[c], w.traces[c]); }
    case Close(c) =>
  }

  lemma StartOk()
    ensures WorldOk(START)
  {
  }
}

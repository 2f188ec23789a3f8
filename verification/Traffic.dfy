/** Connections and their outbound queues together: over every run of the protocol and of
    publishing, where each message that a queue takes in comes from, and what becomes of it. */
module Traffic {
  import opened Keys
  import opened Multimaps
  import opened Config
  import Reg = RegistrySpec
  import Pres = PresenceSpec
  import opened PresenceLimits
  import opened Gateway
  import opened FanoutSpec

  datatype Net = Net(g: State, w: World)

  const QUIET := Net(INIT, START)

  /** `Publish` goes to a room, `ToUser` and `ToSession` to the sender's own user or session.
      `Notice` is a connection's send to its own queue, `Take` its writer's next message, and
      `Shut` the end of its receiver. */
  datatype NetEvent =
    | Protocol(e: Event)
    | Publish(tenant: string, room: string, m: Msg)
    | ToUser(id: Identity, m: Msg)
    | ToSession(id: Identity, m: Msg)
    | Notice(c: nat, m: Msg)
    | Take(c: nat)
    | Shut(c: nat)

  /** The queues that a message is offered to. */
  function TargetsOf(g: State, e: NetEvent): set<nat> {
    match e
    case Publish(tenant, room, _) => Targets(g.reg.sessions, At(g.pres.roomSessions, RoomKey(tenant, room)))
    case ToUser(id, _) => Targets(g.reg.sessions, At(g.reg.userIndex, UserKey(id)))
    case ToSession(id, _) => Targets(g.reg.sessions, {SessionKey(id)})
    case _ => {}
  }

  function SenderTenant(e: NetEvent): string
    requires e.Publish? || e.ToUser? || e.ToSession?
  {
    if e.Publish? then e.tenant else e.id.tenant
  }

  /** An arriving connection gets a queue of its own. */
  ghost function NetStep(cfg: Tenants, n: Net, e: NetEvent): Net {
    match e
    case Protocol(p) =>
      if !Enabled(n.g, p) then n
      else Net(Step(cfg, n.g, p), if p.Arrive? then Do(n.w, Open(p.c)) else n.w)
    case Notice(c, m) => n.(w := Do(n.w, Own(c, m)))
    case Take(c) => n.(w := Do(n.w, Drain(c)))
    case Shut(c) => n.(w := Do(n.w, Close(c)))
    case _ => n.(w := Do(n.w, Broadcast(TargetsOf(n.g, e), e.m)))
  }

  ghost function NetRun(cfg: Tenants, events: seq<NetEvent>): Net {
    if |events| == 0 then QUIET
    else NetStep(cfg, NetRun(cfg, events[..|events| - 1]), events[|events| - 1])
  }

  /** Every id is well formed. */
  predicate WellFormedNet(e: NetEvent) {
    match e
    case Protocol(p) => p.Arrive? ==> WellFormed(p.id)
    case Publish(tenant, _, _) => Separable(tenant)
    case ToUser(id, _) => WellFormed(id)
    case ToSession(id, _) => WellFormed(id)
    case _ => true
  }

  predicate WellFormedRun(events: seq<NetEvent>) {
    forall i :: 0 <= i < |events| ==> WellFormedNet(events[i])
  }

  /** The event sends in the tenant, or is the connection's own notice. */
  predicate SendsIn(e: NetEvent, tenant: string, c: nat) {
    if e.Notice? then e.c == c else (e.Publish? || e.ToUser? || e.ToSession?) && SenderTenant(e) == tenant
  }

  /** All that was sent in a tenant, and a connection's own notices, in order. */
  function SentIn(events: seq<NetEvent>, tenant: string, c: nat): seq<Msg> {
    if |events| == 0 then []
    else
      var last := events[|events| - 1];
      SentIn(events[..|events| - 1], tenant, c) + if SendsIn(last, tenant, c) then [last.m] else []
  }

  // ---- targets belong to the sender's tenant ----

  lemma UserTenant(cfg: Tenants, g: State, id: Identity, c: nat)
    requires Coherent(cfg, g) && WellFormed(id) && c in Targets(g.reg.sessions, At(g.reg.userIndex, UserKey(id)))
    ensures c in g.conns && g.conns[c].id.tenant == id.tenant
  {
    hide TenantOf, SessionKey, UserKey, WellFormed, Owner, ProperUser, Sound, Housed, Reg.Stamped, Reg.Tenanted,
      Reg.CountsCover;
    var s :| s in At(g.reg.userIndex, UserKey(id)) && s in g.reg.sessions && g.reg.sessions[s].conn == c;
    assert Key(g.conns[c]) == s && WellFormed(g.conns[c].id) && Owner(s) == UserKey(id);
    IdentityReadsBack(g.conns[c].id, "");
    IdentityReadsBack(id, "");
  }

  lemma SessionTenant(cfg: Tenants, g: State, id: Identity, c: nat)
    requires Coherent(cfg, g) && WellFormed(id) && c in Targets(g.reg.sessions, {SessionKey(id)})
    ensures c in g.conns && g.conns[c].id.tenant == id.tenant
  {
    hide TenantOf, SessionKey, UserKey, WellFormed, Owner, ProperUser, Sound, Housed, Reg.Agrees;
    assert Key(g.conns[c]) == SessionKey(id) && WellFormed(g.conns[c].id);
    IdentityReadsBack(g.conns[c].id, "");
    IdentityReadsBack(id, "");
  }

  lemma TargetTenant(cfg: Tenants, g: State, e: NetEvent, c: nat)
    requires Coherent(cfg, g) && WellFormedNet(e) && c in TargetsOf(g, e)
    ensures c in g.conns && SendsIn(e, g.conns[c].id.tenant, c)
  {
    hide Coherent, WellFormed, UserKey, SessionKey, RoomKey, TenantOf, At, Targets;
    match e
    case Publish(tenant, room, _) =>
      MemberTenant(cfg, g, RoomKey(tenant, room), c);
      RoomTenant(tenant, room);
    case ToUser(id, _) => UserTenant(cfg, g, id, c);
    case ToSession(id, _) => SessionTenant(cfg, g, id, c);
    case _ =>
  }

  // ---- what every event keeps ----

  ghost predicate NetOk(cfg: Tenants, n: Net) {
    Coherent(cfg, n.g) && WorldOk(n.w) && n.w.traces.Keys == n.g.conns.Keys
  }

  lemma DoKeys(w: World, a: Act)
    requires WorldOk(w)
    ensures Do(w, a).traces.Keys == if a.Open? then w.traces.Keys + {a.c} else w.traces.Keys
  {
  }

  lemma NetStepOk(cfg: Tenants, n: Net, e: NetEvent)
    requires NetOk(cfg, n) && WellFormedNet(e)
    ensures NetOk(cfg, NetStep(cfg, n, e))
  {
    hide Coherent, WorldOk, Enabled, Step, Do, WellFormed, TargetsOf;
    match e
    case Protocol(p) =>
      if Enabled(n.g, p) {
        StepCoherent(cfg, n.g, p);
        IdsKept(cfg, n.g, p);
        if p.Arrive? { DoOk(n.w, Open(p.c)); DoKeys(n.w, Open(p.c)); }
      }
    case Notice(c, m) => DoOk(n.w, Own(c, m)); DoKeys(n.w, Own(c, m));
    case Take(c) => DoOk(n.w, Drain(c)); DoKeys(n.w, Drain(c));
    case Shut(c) => DoOk(n.w, Close(c)); DoKeys(n.w, Close(c));
    case _ => DoOk(n.w, Broadcast(TargetsOf(n.g, e), e.m)); DoKeys(n.w, Broadcast(TargetsOf(n.g, e), e.m));
  }

  lemma {:induction false} NetRunOk(cfg: Tenants, events: seq<NetEvent>)
    requires WellFormedRun(events)
    ensures NetOk(cfg, NetRun(cfg, events))
  {
    hide Coherent, WorldOk, NetStep, WellFormedNet;
    if |events| == 0 {
      InitCoherent(cfg);
      StartOk();
    } else {
      NetRunOk(cfg, events[..|events| - 1]);
      NetStepOk(cfg, NetRun(cfg, events[..|events| - 1]), events[|events| - 1]);
    }
  }

  /** Over any run of connections and messages every queue stays within its capacity, what it
      took in is what it gave out followed by what it holds, that is an in-order subsequence of
      what was addressed to it, and every broadcast target was either served or counted as a
      drop. */
  lemma RunConserves(cfg: Tenants, events: seq<NetEvent>, c: nat)
    requires WellFormedRun(events)
    ensures var n := NetRun(cfg, events);
            && n.w.offered == n.w.taken + n.w.hub.drops
            && (c in n.g.conns ==> c in n.w.hub.queues && c in n.w.traces && QueueOk(n.w.hub.queues[c], n.w.traces[c]))
  {
    hide Coherent, NetRun, WellFormedRun, QueueOk;
    NetRunOk(cfg, events);
  }

  // ---- provenance ----

  /** How one event can change a trace: not at all as to what came in, or by its message. */
  ghost predicate Grows(t: Trace, t': Trace, e: NetEvent, tenant: string, c: nat) {
    || (t'.addressed == t.addressed && t'.accepted == t.accepted)
    || (SendsIn(e, tenant, c) && t'.addressed == t.addressed + [e.m]
        && (t'.accepted == t.accepted || t'.accepted == t.accepted + [e.m]))
  }

  lemma TraceGrows(cfg: Tenants, n: Net, e: NetEvent, c: nat)
    requires NetOk(cfg, n) && WellFormedNet(e) && c in n.w.traces
    ensures var n' := NetStep(cfg, n, e);
            && c in n'.g.conns && c in n'.w.traces && n'.g.conns[c].id == n.g.conns[c].id
            && Grows(n.w.traces[c], n'.w.traces[c], e, n.g.conns[c].id.tenant, c)
  {
    hide Coherent, QueueOk, Enabled, Step, WellFormedNet, TargetsOf, SenderTenant;
    match e
    case Protocol(p) => if Enabled(n.g, p) { IdsKept(cfg, n.g, p); }
    case Notice(_, _) =>
    case Take(_) =>
    case Shut(_) =>
    case _ => if c in TargetsOf(n.g, e) { TargetTenant(cfg, n.g, e, c); }
  }

  lemma GrowsWithin(t: Trace, t': Trace, e: NetEvent, tenant: string, c: nat, sent: seq<Msg>)
    requires Grows(t, t', e, tenant, c) && Subsequence(t.addressed, sent) && Subsequence(t.accepted, sent)
    ensures var sent' := sent + if SendsIn(e, tenant, c) then [e.m] else [];
            Subsequence(t'.addressed, sent') && Subsequence(t'.accepted, sent')
  {
    hide Subsequence, SenderTenant;
    if SendsIn(e, tenant, c) {
      SubsequenceExtends(t.addressed, sent, e.m);
      SubsequenceExtends(t.accepted, sent, e.m);
    } else {
      assert sent + [] == sent;
    }
  }

  /** Only an arrival opens a trace, and an empty one. */
  lemma TraceFresh(cfg: Tenants, n: Net, e: NetEvent, c: nat)
    requires NetOk(cfg, n) && c !in n.w.traces && c in NetStep(cfg, n, e).w.traces
    ensures NetStep(cfg, n, e).w.traces[c] == Trace([], [], []) && c in NetStep(cfg, n, e).g.conns
  {
    hide Coherent, QueueOk, TargetsOf;
    match e
    case Protocol(p) => if Enabled(n.g, p) { IdsKept(cfg, n.g, p); }
    case _ =>
  }

  lemma {:induction false} NothingWithin(sent: seq<Msg>)
    ensures Subsequence([], sent)
  {
    if sent != [] { NothingWithin(sent[..|sent| - 1]); }
  }

  /** Over any run, what is addressed to a connection's queue, and so what the queue takes in,
      is an in-order subsequence of what was sent in the connection's own tenant, next to the
      connection's own notices: nothing comes in from elsewhere, twice, or out of order. */
  lemma {:induction false} TrafficStaysInTenant(cfg: Tenants, events: seq<NetEvent>, c: nat)
    requires WellFormedRun(events) && c in NetRun(cfg, events).w.traces
    ensures var n := NetRun(cfg, events);
            && c in n.g.conns
            && Subsequence(n.w.traces[c].addressed, SentIn(events, n.g.conns[c].id.tenant, c))
            && Subsequence(n.w.traces[c].accepted, SentIn(events, n.g.conns[c].id.tenant, c))
  {
    hide NetOk, NetStep, WellFormedNet, Grows, Subsequence, SendsIn;
    if |events| != 0 {
      var init, e := events[..|events| - 1], events[|events| - 1];
      var n := NetRun(cfg, init);
      NetRunOk(cfg, init);
      if c in n.w.traces {
        TrafficStaysInTenant(cfg, init, c);
        TraceGrows(cfg, n, e, c);
        var tenant := n.g.conns[c].id.tenant;
        GrowsWithin(n.w.traces[c], NetStep(cfg, n, e).w.traces[c], e, tenant, c, SentIn(init, tenant, c));
      } else {
        TraceFresh(cfg, n, e, c);
        NothingWithin(SentIn(events, NetStep(cfg, n, e).g.conns[c].id.tenant, c));
      }
    }
  }

  // ---- delivery is complete ----

  /** The connection is addressed: it is registered under a key that the message goes to. */
  ghost predicate Addressed(g: State, e: NetEvent, c: nat) {
    exists s :: s in g.reg.sessions && g.reg.sessions[s].conn == c && GoesTo(g, e, s)
  }

  predicate GoesTo(g: State, e: NetEvent, session: string) {
    match e
    case Publish(tenant, room, _) => session in At(g.pres.roomSessions, RoomKey(tenant, room))
    case ToUser(id, _) => session in At(g.reg.userIndex, UserKey(id))
    case ToSession(id, _) => session == SessionKey(id)
    case _ => false
  }

  lemma AddressedTargets(g: State, e: NetEvent, c: nat)
    ensures c in TargetsOf(g, e) <==> Addressed(g, e, c)
  {
    hide UserKey, SessionKey, RoomKey, At;
    if c in TargetsOf(g, e) && e.ToSession? { assert GoesTo(g, e, SessionKey(e.id)); }
  }

  /** The message reaches the queue: it is addressed to it or the connection's own notice, and
      the queue is open and holds fewer than 1024. */
  ghost predicate Lands(n: Net, e: NetEvent, c: nat) {
    (Addressed(n.g, e, c) || (e.Notice? && e.c == c)) && HasRoom(n.w.hub.queues, c)
  }

  /** Exactly what one event does to a queue: a message that lands is appended, the writer takes
      the first one of an open queue, and the end of the receiver closes it. */
  lemma QueueAfter(cfg: Tenants, n: Net, e: NetEvent, c: nat)
    requires NetOk(cfg, n) && c in n.g.conns
    ensures c in n.w.hub.queues && c in NetStep(cfg, n, e).w.hub.queues
    ensures var q := n.w.hub.queues[c];
            NetStep(cfg, n, e).w.hub.queues[c]
              == if Lands(n, e, c) then Queue(q.items + [e.m], true)
                 else if e == Take(c) && q.open && q.items != [] then Queue(q.items[1..], true)
                 else if e == Shut(c) then q.(open := false)
                 else q
  {
    hide Coherent, QueueOk, Enabled, Step, Addressed, TargetsOf;
    AddressedTargets(n.g, e, c);
    NotAddressed(n.g, e, c);
    match e
    case Protocol(p) => if Enabled(n.g, p) && p.Arrive? { IdsKept(cfg, n.g, p); ArrivesNew(n.g, p); }
    case _ =>
  }

  lemma NotAddressed(g: State, e: NetEvent, c: nat)
    ensures Addressed(g, e, c) ==> e.Publish? || e.ToUser? || e.ToSession?
  {
  }

  lemma ArrivesNew(g: State, p: Event)
    requires Enabled(g, p) && p.Arrive?
    ensures p.c !in g.conns
  {
  }

  /** The drops count exactly the addressed connections whose queue is closed, missing or at
      1024; no other event counts any. */
  lemma DropsAfter(cfg: Tenants, n: Net, e: NetEvent)
    ensures forall c :: c in TargetsOf(n.g, e) <==> Addressed(n.g, e, c)
    ensures NetStep(cfg, n, e).w.hub.drops
         == n.w.hub.drops + |set c | c in TargetsOf(n.g, e) && !HasRoom(n.w.hub.queues, c)|
  {
    forall c ensures c in TargetsOf(n.g, e) <==> Addressed(n.g, e, c) { AddressedTargets(n.g, e, c); }
    hide Enabled, Step, Addressed, Targets, UserKey, SessionKey, RoomKey;
    if e.Publish? || e.ToUser? || e.ToSession? {
      DeliverOffers(n.w.hub, TargetsOf(n.g, e), e.m);
      hide Deliver, TargetsOf;
    } else {
      assert TargetsOf(n.g, e) == {};
      assert (set c | c in TargetsOf(n.g, e) && !HasRoom(n.w.hub.queues, c)) == {};
    }
  }

  /** Whenever the connection was addressed, its queue was open and held fewer than 1024. */
  ghost predicate AlwaysRoom(cfg: Tenants, events: seq<NetEvent>, c: nat) {
    |events| == 0 ||
    (var n, e := NetRun(cfg, events[..|events| - 1]), events[|events| - 1];
     && AlwaysRoom(cfg, events[..|events| - 1], c)
     && (Addressed(n.g, e, c) ==> HasRoom(n.w.hub.queues, c)))
  }

  /** What one event does to a trace: a message that lands comes in, one that is addressed and
      does not land is only noted. */
  lemma TraceAfter(cfg: Tenants, n: Net, e: NetEvent, c: nat)
    requires NetOk(cfg, n) && c in n.w.traces
    ensures c in NetStep(cfg, n, e).w.traces
    ensures var t, t' := n.w.traces[c], NetStep(cfg, n, e).w.traces[c];
            && (Addressed(n.g, e, c) || Lands(n, e, c) ==> t'.addressed == t.addressed + [e.m])
            && (Lands(n, e, c) ==> t'.accepted == t.accepted + [e.m])
            && (!Addressed(n.g, e, c) && !Lands(n, e, c) ==> t'.addressed == t.addressed)
            && (!Lands(n, e, c) ==> t'.accepted == t.accepted)
  {
    hide Coherent, QueueOk, Enabled, Step, Addressed, TargetsOf;
    AddressedTargets(n.g, e, c);
    NotAddressed(n.g, e, c);
    match e
    case Protocol(p) => if Enabled(n.g, p) && p.Arrive? { IdsKept(cfg, n.g, p); ArrivesNew(n.g, p); }
    case _ =>
  }

  /** A connection is addressed only once it has arrived. */
  lemma AddressedArrived(cfg: Tenants, n: Net, e: NetEvent, c: nat)
    requires NetOk(cfg, n) && Addressed(n.g, e, c)
    ensures c in n.w.traces
  {
    hide WorldOk, GoesTo, Sound, Housed, Identified, Reg.Agrees, SessionKey;
  }

  lemma {:induction false} NotYetAddressed(cfg: Tenants, events: seq<NetEvent>, c: nat)
    requires WellFormedRun(events) && c !in NetRun(cfg, events).w.traces
    ensures AlwaysRoom(cfg, events, c)
  {
    hide NetOk, NetStep, WellFormedNet, Addressed;
    if |events| != 0 {
      var init, e := events[..|events| - 1], events[|events| - 1];
      NetRunOk(cfg, init);
      TracesStay(cfg, NetRun(cfg, init), e, c);
      NotYetAddressed(cfg, init, c);
      if Addressed(NetRun(cfg, init).g, e, c) { AddressedArrived(cfg, NetRun(cfg, init), e, c); }
    }
  }

  lemma TracesStay(cfg: Tenants, n: Net, e: NetEvent, c: nat)
    requires NetOk(cfg, n)
    ensures c in n.w.traces ==> c in NetStep(cfg, n, e).w.traces
  {
    hide Addressed, Lands;
    if c in n.w.traces { TraceAfter(cfg, n, e, c); }
  }

  lemma {:induction false} TakenCounts(cfg: Tenants, events: seq<NetEvent>, c: nat)
    requires WellFormedRun(events) && c in NetRun(cfg, events).w.traces
    ensures var t := NetRun(cfg, events).w.traces[c];
            && |t.accepted| <= |t.addressed|
            && (AlwaysRoom(cfg, events, c) ==> t.accepted == t.addressed)
            && (!AlwaysRoom(cfg, events, c) ==> |t.accepted| < |t.addressed|)
  {
    hide NetOk, NetStep, WellFormedNet, Addressed, HasRoom;
    if |events| != 0 {
      var init, e := events[..|events| - 1], events[|events| - 1];
      var n := NetRun(cfg, init);
      NetRunOk(cfg, init);
      if c in n.w.traces {
        TakenCounts(cfg, init, c);
        TraceAfter(cfg, n, e, c);
      } else {
        NotYetAddressed(cfg, init, c);
        TraceFresh(cfg, n, e, c);
        if Addressed(n.g, e, c) { AddressedArrived(cfg, n, e, c); }
      }
    }
  }

  /** Over any run a queue takes in everything that is addressed to it if and only if it is open
      and holds fewer than 1024 messages whenever it is addressed. */
  lemma AllTakenIff(cfg: Tenants, events: seq<NetEvent>, c: nat)
    requires WellFormedRun(events) && c in NetRun(cfg, events).w.traces
    ensures var t := NetRun(cfg, events).w.traces[c];
            t.accepted == t.addressed <==> AlwaysRoom(cfg, events, c)
  {
    hide NetRun, AlwaysRoom, WellFormedRun;
    TakenCounts(cfg, events, c);
  }

  /** An arriving connection starts with an open, empty queue. */
  lemma ArrivalOpens(cfg: Tenants, n: Net, c: nat, id: Identity)
    requires NetOk(cfg, n) && c !in n.g.conns
    ensures var next := NetStep(cfg, n, Protocol(Arrive(c, id)));
            c in next.w.hub.queues && next.w.hub.queues[c] == Queue([], true)
  {
    hide Coherent, QueueOk, Step;
  }
}

/** The channel carrying out scripts of commands: each is an operation of `ChannelSpec`, and every run conserves. */
module ChannelRun {
  import opened Messages
  import opened ChannelLaws
  import opened ChannelSpec
  import opened Wrappers
  import C = Channel

  /** A pump with nothing to send and a subscription over the limit do nothing; what a scan finds is the channel's. */
  datatype Command =
    | Publish(m: Msg)
    | PublishDeferred(m: Msg, due: int)
    | PumpMemory(client: int, now: int, timeout: int)
    | PumpBackend(client: int, now: int, timeout: int)
    | Finish(client: int, id: MessageID)
    | Requeue(client: int, id: MessageID, requested: int, maxReqTimeout: int, now: int)
    | TouchMessage(client: int, id: MessageID, now: int, timeout: int)
    | ScanInFlight(t: int)
    | ScanDeferred(t: int)
    | Subscribe(client: int, maxChannelConsumers: nat)
    | Unsubscribe(client: int)

  predicate Idle(c: Command, v: View) {
    || (c.PumpMemory? && v.memory == [])
    || (c.PumpBackend? && v.backend == [])
    || (c.Subscribe? && c.maxChannelConsumers != 0 && |v.counts| >= c.maxChannelConsumers)
  }

  /** The operation that a command is. */
  predicate Matches(c: Command, op: Op) {
    match c
    case Publish(m) => op == PutOp(m)
    case PublishDeferred(m, due) => op == DeferOp(m, due)
    case PumpMemory(client, now, timeout) => op == SendMemory(client, now, timeout)
    case PumpBackend(client, now, timeout) => op == SendBackend(client, now, timeout)
    case Finish(client, id) => op == FinOp(client, id)
    case Requeue(client, id, requested, maxReqTimeout, now) =>
      var delay := ClampedDelay(requested, maxReqTimeout);
      op == ReqOp(client, id, delay, now + delay)
    case TouchMessage(client, id, now, timeout) => op == TouchOp(client, id, now, timeout)
    case ScanInFlight(t) => op.TimeoutScan? && op.t == t
    case ScanDeferred(t) => op.DeferredScan? && op.t == t
    case Subscribe(client, _) => op == Attach(client)
    case Unsubscribe(client) => op == Detach(client)
  }

  /** What a channel has been told to hold. */
  function Published(c: Command): set<Msg> {
    if c.Publish? || c.PublishDeferred? then {Payload(c.m)} else {}
  }

  /** The client that a command can make an owner of messages, or attach. */
  function Joining(c: Command): set<int> {
    if c.PumpMemory? || c.PumpBackend? || c.Subscribe? then {c.client} else {}
  }

  function Owners(v: View): set<int> {
    set id | id in v.inFlight :: v.inFlight[id].client
  }

  function Clients(v: View): set<int> {
    v.counts.Keys + Owners(v)
  }

  /** IDs are not used twice, neither a message's nor a client's, and messages are small enough to store. */
  predicate Admissible(cfg: Config, h: History, c: Command) {
    match c
    case Publish(m) => Fits(cfg, m) && m.ID !in KnownIDs(h)
    case PublishDeferred(m, _) => Fits(cfg, m) && m.ID !in KnownIDs(h)
    case Subscribe(client, _) => client !in Clients(h.view)
    case _ => true
  }

  /** Carrying out `c` leads from `h` to the channel's state `v`, by the operation `op` if it does anything. */
  ghost predicate CarriedOut(cfg: Config, h: History, c: Command, op: Option<Op>, v: View) {
    match op
    case None => Idle(c, h.view) && v == h.view
    case Some(o) => !Idle(c, h.view) && Matches(c, o) && Enabled(cfg, h, o) && v == Next(cfg, h, o).view
  }

  lemma OwnsNothing(v: View, client: int)
    requires client !in Owners(v)
    ensures OwnedBy(v, client) == {}
  {
    assert forall id | id in OwnedBy(v, client) :: v.inFlight[id].client in Owners(v);
  }

  method ExecutePublish(ch: C.Channel, m: Msg, ghost h: History) returns (ghost op: Option<Op>)
    requires ch.Agree() && !ch.exiting && h.view == ch.State()
    requires Admissible(ch.cfg, h, Publish(m))
    modifies ch`memoryMsgChan, ch`backend, ch`stored, ch`messageCount
    ensures ch.Agree()
    ensures CarriedOut(ch.cfg, h, Publish(m), op, ch.State())
  {
    var _ := ch.PutMessage(m);
    op := Some(PutOp(m));
  }

  method ExecutePublishDeferred(ch: C.Channel, m: Msg, due: int, ghost h: History) returns (ghost op: Option<Op>)
    requires ch.Agree() && !ch.exiting && h.view == ch.State()
    requires Admissible(ch.cfg, h, PublishDeferred(m, due))
    modifies ch`messageCount
    modifies ch`deferredMessages, ch`deferrals, ch.deferredPQ, ch.deferredPQ.data, ch.deferredPQ.members`Index
    ensures ch.Agree() && ch.FlightsWithin() && ch.DeferralsWithin()
    ensures CarriedOut(ch.cfg, h, PublishDeferred(m, due), op, ch.State())
  {
    ch.PutMessageDeferred(m, due);
    op := Some(DeferOp(m, due));
  }

  method ExecutePumpMemory(ch: C.Channel, client: int, now: int, timeout: int, ghost h: History)
    returns (ghost op: Option<Op>)
    requires ch.Agree() && !ch.exiting && h.view == ch.State()
    modifies ch`clients, ch`memoryMsgChan
    modifies ch`inFlightMessages, ch`flights, ch.inFlightPQ, ch.inFlightPQ.data, ch.inFlightPQ.members`index
    ensures ch.Agree() && ch.FlightsWithin() && ch.DeferralsWithin()
    ensures CarriedOut(ch.cfg, h, PumpMemory(client, now, timeout), op, ch.State())
  {
    op := None;
    if ch.memoryMsgChan != [] {
      ch.DeliverFromMemory(client, now, timeout);
      op := Some(SendMemory(client, now, timeout));
    }
  }

  method ExecutePumpBackend(ch: C.Channel, client: int, now: int, timeout: int, ghost h: History)
    returns (ghost op: Option<Op>)
    requires ch.Agree() && !ch.exiting && h.view == ch.State()
    modifies ch`clients, ch`backend, ch`stored
    modifies ch`inFlightMessages, ch`flights, ch.inFlightPQ, ch.inFlightPQ.data, ch.inFlightPQ.members`index
    ensures ch.Agree() && ch.FlightsWithin() && ch.DeferralsWithin()
    ensures CarriedOut(ch.cfg, h, PumpBackend(client, now, timeout), op, ch.State())
  {
    op := None;
    if ch.backend != [] {
      ch.DeliverFromBackend(client, now, timeout);
      op := Some(SendBackend(client, now, timeout));
    }
  }

  method ExecuteFinish(ch: C.Channel, client: int, id: MessageID, ghost h: History) returns (ghost op: Option<Op>)
    requires ch.Agree() && !ch.exiting && h.view == ch.State()
    modifies ch`clients
    modifies ch`inFlightMessages, ch`flights, ch.inFlightPQ, ch.inFlightPQ.data, ch.inFlightPQ.members`index
    ensures ch.Agree() && ch.FlightsWithin() && ch.DeferralsWithin()
    ensures CarriedOut(ch.cfg, h, Finish(client, id), op, ch.State())
  {
    var _ := ch.Fin(client, id);
    op := Some(FinOp(client, id));
  }

  method ExecuteRequeue(ch: C.Channel, client: int, id: MessageID, requested: int, maxReqTimeout: int, now: int,
                        ghost h: History)
    returns (ghost op: Option<Op>)
    requires ch.Agree() && !ch.exiting && h.view == ch.State()
    modifies ch`clients, ch`requeueCount
    modifies ch`memoryMsgChan, ch`backend, ch`stored
    modifies ch`inFlightMessages, ch`flights, ch.inFlightPQ, ch.inFlightPQ.data, ch.inFlightPQ.members`index
    modifies ch`deferredMessages, ch`deferrals, ch.deferredPQ, ch.deferredPQ.data, ch.deferredPQ.members`Index
    ensures ch.Agree() && ch.FlightsWithin() && ch.DeferralsWithin()
    ensures CarriedOut(ch.cfg, h, Requeue(client, id, requested, maxReqTimeout, now), op, ch.State())
  {
    ghost var delay := ClampedDelay(requested, maxReqTimeout);
    ghost var due := now + delay;
    ReqWithinLimit(ch.cfg, ch.State(), client, id, requested, maxReqTimeout, now, due);
    var _ := ch.Req(client, id, requested, maxReqTimeout, now);
    op := Some(ReqOp(client, id, delay, due));
  }

  method ExecuteTouch(ch: C.Channel, client: int, id: MessageID, now: int, timeout: int, ghost h: History)
    returns (ghost op: Option<Op>)
    requires ch.Agree() && !ch.exiting && h.view == ch.State()
    modifies ch`inFlightMessages, ch`flights
    modifies ch.inFlightPQ, ch.inFlightPQ.data, ch.inFlightPQ.members`index, ch.inFlightPQ.members`pri
    ensures ch.Agree() && ch.FlightsWithin() && ch.DeferralsWithin()
    ensures CarriedOut(ch.cfg, h, TouchMessage(client, id, now, timeout), op, ch.State())
  {
    var _ := ch.TouchMessage(client, id, now, timeout);
    op := Some(TouchOp(client, id, now, timeout));
  }

  method ExecuteScanInFlight(ch: C.Channel, t: int, ghost h: History) returns (ghost op: Option<Op>)
    requires ch.Agree() && !ch.exiting && h.view == ch.State()
    modifies ch`clients, ch`timeoutCount
    modifies ch`memoryMsgChan, ch`backend, ch`stored
    modifies ch`inFlightMessages, ch`flights, ch.inFlightPQ, ch.inFlightPQ.data, ch.inFlightPQ.members`index
    ensures ch.Agree() && ch.FlightsWithin() && ch.DeferralsWithin()
    ensures CarriedOut(ch.cfg, h, ScanInFlight(t), op, ch.State())
  {
    var _, order := ch.ProcessInFlightQueue(t);
    op := Some(TimeoutScan(t, order));
  }

  method ExecuteScanDeferred(ch: C.Channel, t: int, ghost h: History) returns (ghost op: Option<Op>)
    requires ch.Agree() && !ch.exiting && h.view == ch.State()
    modifies ch`memoryMsgChan, ch`backend, ch`stored
    modifies ch`deferredMessages, ch`deferrals, ch.deferredPQ, ch.deferredPQ.data, ch.deferredPQ.members`Index
    ensures ch.Agree() && ch.FlightsWithin() && ch.DeferralsWithin()
    ensures CarriedOut(ch.cfg, h, ScanDeferred(t), op, ch.State())
  {
    var _, order := ch.ProcessDeferredQueue(t);
    op := Some(DeferredScan(t, order));
  }

  method ExecuteSubscribe(ch: C.Channel, client: int, maxChannelConsumers: nat, ghost h: History)
    returns (ghost op: Option<Op>)
    requires ch.Agree() && !ch.exiting && h.view == ch.State()
    requires Admissible(ch.cfg, h, Subscribe(client, maxChannelConsumers))
    modifies ch`clients
    ensures ch.Agree()
    ensures CarriedOut(ch.cfg, h, Subscribe(client, maxChannelConsumers), op, ch.State())
  {
    OwnsNothing(h.view, client);
    var ok := ch.AddClient(client, maxChannelConsumers);
    op := if ok then Some(Attach(client)) else None;
  }

  method ExecuteUnsubscribe(ch: C.Channel, client: int, ghost h: History) returns (ghost op: Option<Op>)
    requires ch.Agree() && !ch.exiting && h.view == ch.State()
    modifies ch`clients
    ensures ch.Agree()
    ensures CarriedOut(ch.cfg, h, Unsubscribe(client), op, ch.State())
  {
    ch.RemoveClient(client);
    op := Some(Detach(client));
  }

  /** What puts messages into the channel, and hands them out. */
  method ExecuteFlow(ch: C.Channel, c: Command, ghost h: History) returns (ghost op: Option<Op>)
    requires ch.Agree() && !ch.exiting && h.view == ch.State() && Admissible(ch.cfg, h, c)
    requires c.Publish? || c.PublishDeferred? || c.PumpMemory? || c.PumpBackend?
    modifies ch`messageCount, ch`clients, ch`memoryMsgChan, ch`backend, ch`stored
    modifies ch`inFlightMessages, ch`flights, ch.inFlightPQ, ch.inFlightPQ.data, ch.inFlightPQ.members`index
    modifies ch`deferredMessages, ch`deferrals, ch.deferredPQ, ch.deferredPQ.data, ch.deferredPQ.members`Index
    ensures ch.Agree() && ch.FlightsWithin() && ch.DeferralsWithin()
    ensures CarriedOut(ch.cfg, h, c, op, ch.State())
  {
    match c
    case Publish(m) => op := ExecutePublish(ch, m, h);
    case PublishDeferred(m, due) => op := ExecutePublishDeferred(ch, m, due, h);
    case PumpMemory(client, now, timeout) => op := ExecutePumpMemory(ch, client, now, timeout, h);
    case PumpBackend(client, now, timeout) => op := ExecutePumpBackend(ch, client, now, timeout, h);
  }

  method ExecuteAnswer(ch: C.Channel, c: Command, ghost h: History) returns (ghost op: Option<Op>)
    requires ch.Agree() && !ch.exiting && h.view == ch.State() && (c.Finish? || c.Requeue? || c.TouchMessage?)
    modifies ch`clients, ch`requeueCount, ch`memoryMsgChan, ch`backend, ch`stored
    modifies ch`inFlightMessages, ch`flights, ch.inFlightPQ, ch.inFlightPQ.data
    modifies ch.inFlightPQ.members`index, ch.inFlightPQ.members`pri
    modifies ch`deferredMessages, ch`deferrals, ch.deferredPQ, ch.deferredPQ.data, ch.deferredPQ.members`Index
    ensures ch.Agree() && ch.FlightsWithin() && ch.DeferralsWithin()
    ensures CarriedOut(ch.cfg, h, c, op, ch.State())
  {
    match c
    case Finish(client, id) => op := ExecuteFinish(ch, client, id, h);
    case Requeue(client, id, requested, limit, now) => op := ExecuteRequeue(ch, client, id, requested, limit, now, h);
    case TouchMessage(client, id, now, timeout) => op := ExecuteTouch(ch, client, id, now, timeout, h);
  }

  /** Scans, and clients that come and go. */
  method ExecuteUpkeep(ch: C.Channel, c: Command, ghost h: History) returns (ghost op: Option<Op>)
    requires ch.Agree() && !ch.exiting && h.view == ch.State() && Admissible(ch.cfg, h, c)
    requires c.ScanInFlight? || c.ScanDeferred? || c.Subscribe? || c.Unsubscribe?
    modifies ch`clients, ch`timeoutCount, ch`memoryMsgChan, ch`backend, ch`stored
    modifies ch`inFlightMessages, ch`flights, ch.inFlightPQ, ch.inFlightPQ.data, ch.inFlightPQ.members`index
    modifies ch`deferredMessages, ch`deferrals, ch.deferredPQ, ch.deferredPQ.data, ch.deferredPQ.members`Index
    ensures ch.Agree() && ch.FlightsWithin() && ch.DeferralsWithin()
    ensures CarriedOut(ch.cfg, h, c, op, ch.State())
  {
    match c
    case ScanInFlight(t) => op := ExecuteScanInFlight(ch, t, h);
    case ScanDeferred(t) => op := ExecuteScanDeferred(ch, t, h);
    case Subscribe(client, maxChannelConsumers) => op := ExecuteSubscribe(ch, client, maxChannelConsumers, h);
    case Unsubscribe(client) => op := ExecuteUnsubscribe(ch, client, h);
  }

  /** One command, whatever it is. */
  method Execute(ch: C.Channel, c: Command, ghost h: History) returns (ghost op: Option<Op>)
    requires ch.Agree() && !ch.exiting && h.view == ch.State() && Admissible(ch.cfg, h, c)
    modifies ch, ch.inFlightPQ, ch.inFlightPQ.data, ch.inFlightPQ.members`index, ch.inFlightPQ.members`pri
    modifies ch.deferredPQ, ch.deferredPQ.data, ch.deferredPQ.members`Index
    ensures ch.Agree() && ch.FlightsWithin() && ch.DeferralsWithin()
    ensures CarriedOut(ch.cfg, h, c, op, ch.State())
  {
    if c.Publish? || c.PublishDeferred? || c.PumpMemory? || c.PumpBackend? {
      op := ExecuteFlow(ch, c, h);
    } else if c.Finish? || c.Requeue? || c.TouchMessage? {
      op := ExecuteAnswer(ch, c, h);
    } else {
      op := ExecuteUpkeep(ch, c, h);
    }
  }

  // ---- What commands do ----

  predicate OwnedIn(v: View, client: int, id: MessageID) {
    id in v.inFlight && v.inFlight[id].client == client
  }

  /** The message is with the client from `now` until `deadline`. */
  ghost predicate HandedTo(v: View, m: Msg, client: int, now: int, deadline: int) {
    && m.ID in v.inFlight && OneAttemptMore(m, v.inFlight[m.ID].msg)
    && v.inFlight[m.ID] == Flight(v.inFlight[m.ID].msg, client, now, deadline)
  }

  lemma PublishMeans(cfg: Config, h: History, c: Command, op: Option<Op>, v: View)
    requires Conserved(cfg, h) && Admissible(cfg, h, c) && CarriedOut(cfg, h, c, op, v)
    requires c.Publish? || c.PublishDeferred?
    ensures c.Publish? ==> QueuedLast(cfg, h.view, v, c.m) && v.deferred == h.view.deferred
    ensures c.PublishDeferred? ==>
              v.deferred == h.view.deferred[c.m.ID := Deferral(c.m, c.due)] && SameQueues(h.view, v)
  {
    UnknownIsFree(cfg, h, c.m);
  }

  /** The first message of the memory queue, if there is one, is handed to the client. */
  lemma PumpMemoryMeans(cfg: Config, h: History, client: int, now: int, timeout: int, op: Option<Op>, v: View)
    requires Conserved(cfg, h) && CarriedOut(cfg, h, PumpMemory(client, now, timeout), op, v)
    ensures var u := h.view;
            if u.memory == [] then v == u
            else v.memory == u.memory[1..] && v.backend == u.backend
                 && HandedTo(v, u.memory[0], client, now, now + timeout)
  {
    var u := h.view;
    if u.memory != [] {
      assert u.memory[0].ID in IDs(u.memory);
      SendMeans(u.(memory := u.memory[1..]), u.memory[0], client, now, timeout);
    }
  }

  lemma PumpBackendMeans(cfg: Config, h: History, client: int, now: int, timeout: int, op: Option<Op>, v: View)
    requires Conserved(cfg, h) && CarriedOut(cfg, h, PumpBackend(client, now, timeout), op, v)
    ensures var u := h.view;
            if u.backend == [] then v == u
            else v.backend == u.backend[1..] && v.memory == u.memory
                 && HandedTo(v, u.backend[0], client, now, now + timeout)
  {
    var u := h.view;
    if u.backend != [] {
      assert u.backend[0].ID in IDs(u.backend);
      SendMeans(u.(backend := u.backend[1..]), u.backend[0], client, now, timeout);
    }
  }

  /** Requeued for later, or queued; nobody else's message is. */
  lemma RequeueMeans(cfg: Config, h: History, c: Command, op: Option<Op>, v: View)
    requires Conserved(cfg, h) && CarriedOut(cfg, h, c, op, v) && c.Requeue?
    ensures !OwnedIn(h.view, c.client, c.id) ==> v == h.view
    ensures OwnedIn(h.view, c.client, c.id) ==>
              var delay := if c.requested < 0 then 0
                           else if c.requested > c.maxReqTimeout then c.maxReqTimeout else c.requested;
              var m := h.view.inFlight[c.id].msg;
              && v.inFlight == h.view.inFlight - {c.id}
              && if delay != 0 then v.deferred == h.view.deferred[c.id := Deferral(m, c.now + delay)]
                 else QueuedLast(cfg, h.view, v, m)
  {
    if OwnedIn(h.view, c.client, c.id) {
      OwnedReqMeans(cfg, h.view, c.client, c.id, op.value.timeout, op.value.due);
    }
  }

  lemma FinishMeans(cfg: Config, h: History, client: int, id: MessageID, op: Option<Op>, v: View)
    requires CarriedOut(cfg, h, Finish(client, id), op, v)
    ensures if OwnedIn(h.view, client, id) then v.inFlight == h.view.inFlight - {id} else v == h.view
  {
  }

  lemma TouchMeans(cfg: Config, h: History, client: int, id: MessageID, now: int, timeout: int, op: Option<Op>, v: View)
    requires CarriedOut(cfg, h, TouchMessage(client, id, now, timeout), op, v)
    ensures if OwnedIn(h.view, client, id) then
              var f := h.view.inFlight[id];
              var asked, last := now + timeout, f.delivered + cfg.maxMsgTimeout;
              v.inFlight == h.view.inFlight[id := f.(deadline := if asked < last then asked else last)]
            else v == h.view
  {
  }

  lemma ScanMeans(cfg: Config, h: History, c: Command, op: Option<Op>, v: View)
    requires Conserved(cfg, h) && CarriedOut(cfg, h, c, op, v) && (c.ScanInFlight? || c.ScanDeferred?)
    ensures c.ScanInFlight? ==>
              v.inFlight == map id | id in h.view.inFlight && h.view.inFlight[id].deadline > c.t :: h.view.inFlight[id]
    ensures c.ScanDeferred? ==>
              v.deferred == map id | id in h.view.deferred && h.view.deferred[id].due > c.t :: h.view.deferred[id]
  {
    if c.ScanInFlight? {
      ScanIsExact(cfg, h.view, c.t, op.value.expired);
    } else {
      DueScanIsExact(cfg, h.view, c.t, op.value.dueNow);
    }
  }

  lemma SubscribeMeans(cfg: Config, h: History, client: int, limit: nat, op: Option<Op>, v: View)
    requires CarriedOut(cfg, h, Subscribe(client, limit), op, v)
    ensures op.Some? <==> limit == 0 || |h.view.counts| < limit
    ensures op.Some? ==> client in v.counts && v.counts.Keys == h.view.counts.Keys + {client}
    ensures op.None? ==> v == h.view
  {
    assert op == None || op == Some(Attach(client));
    assert op.Some? ==> v == Attached(h.view, client);
  }

  lemma UnsubscribeMeans(cfg: Config, h: History, client: int, op: Option<Op>, v: View)
    requires CarriedOut(cfg, h, Unsubscribe(client), op, v)
    ensures v.counts.Keys == h.view.counts.Keys - {client}
  {
    AttachmentMeans(h.view, client);
  }

  // ---- Scripts ----

  ghost function After(cfg: Config, h: History, op: Option<Op>): History
    requires op.Some? ==> Enabled(cfg, h, op.value)
  {
    if op.None? then h else Next(cfg, h, op.value)
  }

  /** No operation makes anyone an owner, or attaches anyone, but the client it is about. */
  ghost predicate FewerClients(v: View, w: View) {
    && w.counts.Keys <= v.counts.Keys
    && forall id | id in w.inFlight :: id in v.inFlight && w.inFlight[id].client == v.inFlight[id].client
  }

  lemma FewerClientsFewer(v: View, w: View)
    requires FewerClients(v, w)
    ensures Clients(w) <= Clients(v)
  {
  }

  lemma {:induction false} ExpireAllClients(cfg: Config, v: View, order: seq<MessageID>)
    ensures FewerClients(v, ExpireAll(cfg, v, order))
    decreases |order|
  {
    if order != [] {
      ExpireAllClients(cfg, v, order[..|order| - 1]);
    }
  }

  lemma {:induction false} ReleaseAllClients(cfg: Config, v: View, order: seq<MessageID>)
    ensures FewerClients(v, ReleaseAll(cfg, v, order))
    decreases |order|
  {
    if order != [] {
      ReleaseAllClients(cfg, v, order[..|order| - 1]);
    }
  }

  lemma SendClients(v: View, m: Msg, client: int, now: int, timeout: int)
    ensures Clients(Send(v, m, client, now, timeout)) <= Clients(v) + {client}
  {
  }

  lemma OtherClients(cfg: Config, h: History, op: Op)
    requires Enabled(cfg, h, op)
    requires op.PutOp? || op.DeferOp? || op.FinOp? || op.ReqOp? || op.TouchOp? || op.Detach?
    ensures FewerClients(h.view, Next(cfg, h, op).view)
  {
  }

  lemma MoveClients(cfg: Config, h: History, c: Command, op: Op)
    requires Matches(c, op) && Enabled(cfg, h, op)
    ensures Clients(Next(cfg, h, op).view) <= Clients(h.view) + Joining(c)
  {
    var v, w := h.view, Next(cfg, h, op).view;
    match op
    case SendMemory(client, now, timeout) =>
      SendClients(v.(memory := v.memory[1..]), v.memory[0], client, now, timeout);
    case SendBackend(client, now, timeout) =>
      SendClients(v.(backend := v.backend[1..]), v.backend[0], client, now, timeout);
    case TimeoutScan(_, order) =>
      ExpireAllClients(cfg, v, order);
      FewerClientsFewer(v, w);
    case DeferredScan(_, order) =>
      ReleaseAllClients(cfg, v, order);
      FewerClientsFewer(v, w);
    case Attach(client) =>
      assert Owners(w) == Owners(v);
    case _ =>
      OtherClients(cfg, h, op);
      FewerClientsFewer(v, w);
  }

  function AllPublished(commands: seq<Command>): set<Msg> {
    if commands == [] then {}
    else AllPublished(commands[..|commands| - 1]) + Published(commands[|commands| - 1])
  }

  function AllJoining(commands: seq<Command>): set<int> {
    if commands == [] then {}
    else AllJoining(commands[..|commands| - 1]) + Joining(commands[|commands| - 1])
  }

  /** IDs are not used twice in a script. */
  ghost predicate FreshIDs(cfg: Config, commands: seq<Command>) {
    forall i | 0 <= i < |commands| :: FreshAfter(cfg, commands[..i], commands[i])
  }

  ghost predicate FreshAfter(cfg: Config, before: seq<Command>, c: Command) {
    match c
    case Publish(m) => Fits(cfg, m) && forall p | p in AllPublished(before) :: p.ID != m.ID
    case PublishDeferred(m, _) => Fits(cfg, m) && forall p | p in AllPublished(before) :: p.ID != m.ID
    case Subscribe(client, _) => client !in AllJoining(before)
    case _ => true
  }

  /** What holds of a channel's history after `commands`. */
  ghost predicate Reached(cfg: Config, commands: seq<Command>, h: History) {
    Conserved(cfg, h) && h.accepted == AllPublished(commands) && Clients(h.view) <= AllJoining(commands)
  }

  lemma ReachedAdmits(cfg: Config, before: seq<Command>, h: History, c: Command)
    requires Reached(cfg, before, h) && FreshAfter(cfg, before, c)
    ensures Admissible(cfg, h, c)
  {
  }

  lemma ReachesOn(cfg: Config, before: seq<Command>, h: History, c: Command, op: Op)
    requires Reached(cfg, before, h) && Matches(c, op) && Enabled(cfg, h, op)
    ensures Reached(cfg, before + [c], Next(cfg, h, op))
  {
    assert (before + [c])[..|before|] == before;
    StepConserves(cfg, h, op);
    MoveClients(cfg, h, c, op);
    Accepting(cfg, h, c, op);
  }

  lemma Accepting(cfg: Config, h: History, c: Command, op: Op)
    requires Matches(c, op) && Enabled(cfg, h, op)
    ensures Next(cfg, h, op).accepted == h.accepted + Published(c)
  {
  }

  lemma StaysReached(cfg: Config, before: seq<Command>, h: History, c: Command)
    requires Reached(cfg, before, h) && Idle(c, h.view)
    ensures Reached(cfg, before + [c], h)
  {
    assert (before + [c])[..|before|] == before;
  }

  /**
   The operations are the commands, in their order, but for those that found nothing to do: `done` is how many there
   were before each command.
   */
  ghost predicate Scripted(commands: seq<Command>, hs: seq<History>, ops: seq<Op>, done: seq<nat>)
    requires |hs| == |ops| + 1
  {
    && |done| == |commands| + 1 && done[0] == 0 && done[|commands|] == |ops|
    && (forall i | 0 <= i < |done| :: done[i] <= |ops|)
    && forall i | 0 <= i < |commands| :: DoneAt(commands[i], hs, ops, done[i], done[i + 1])
  }

  ghost predicate DoneAt(c: Command, hs: seq<History>, ops: seq<Op>, n: nat, n': nat)
    requires |hs| == |ops| + 1 && n <= |ops|
  {
    if Idle(c, hs[n].view) then n' == n else n < |ops| && n' == n + 1 && Matches(c, ops[n])
  }

  lemma DoneStays(c: Command, hs: seq<History>, ops: seq<Op>, n: nat, n': nat, h: History, op: Op)
    requires |hs| == |ops| + 1 && n <= |ops| && n' <= |ops| && DoneAt(c, hs, ops, n, n')
    ensures DoneAt(c, hs + [h], ops + [op], n, n')
  {
  }

  lemma ScriptedOn(before: seq<Command>, hs: seq<History>, ops: seq<Op>, done: seq<nat>, c: Command, h: History, op: Op)
    requires |hs| == |ops| + 1 && Scripted(before, hs, ops, done) && !Idle(c, hs[|ops|].view) && Matches(c, op)
    ensures Scripted(before + [c], hs + [h], ops + [op], done + [|ops| + 1])
  {
    var commands, done' := before + [c], done + [|ops| + 1];
    forall i | 0 <= i < |commands| ensures DoneAt(commands[i], hs + [h], ops + [op], done'[i], done'[i + 1]) {
      if i < |before| {
        DoneStays(before[i], hs, ops, done[i], done[i + 1], h, op);
      }
    }
  }

  lemma ScriptedIdle(before: seq<Command>, hs: seq<History>, ops: seq<Op>, done: seq<nat>, c: Command)
    requires |hs| == |ops| + 1 && Scripted(before, hs, ops, done) && Idle(c, hs[|ops|].view)
    ensures Scripted(before + [c], hs, ops, done + [|ops|])
  {
  }

  /** After `commands` a new channel has come through the states `hs` to `v`. */
  ghost predicate Ran(cfg: Config, commands: seq<Command>, hs: seq<History>, ops: seq<Op>, done: seq<nat>, v: View) {
    && IsRun(cfg, hs, ops) && hs[0] == NEW_CHANNEL && hs[|ops|].view == v
    && Reached(cfg, commands, hs[|ops|]) && Scripted(commands, hs, ops, done)
  }

  lemma RunLonger(cfg: Config, hs: seq<History>, ops: seq<Op>, op: Op)
    requires IsRun(cfg, hs, ops) && Enabled(cfg, hs[|ops|], op)
    ensures IsRun(cfg, hs + [Next(cfg, hs[|ops|], op)], ops + [op])
  {
  }

  lemma IdlesOn(cfg: Config, before: seq<Command>, hs: seq<History>, ops: seq<Op>, done: seq<nat>, v: View, c: Command)
    requires Ran(cfg, before, hs, ops, done, v) && Idle(c, v)
    ensures Ran(cfg, before + [c], hs, ops, done + [|ops|], v)
  {
    StaysReached(cfg, before, hs[|ops|], c);
    ScriptedIdle(before, hs, ops, done, c);
  }

  lemma RunsOn(cfg: Config, before: seq<Command>, hs: seq<History>, ops: seq<Op>, done: seq<nat>, u: View, c: Command,
               op: Op, v: View)
    requires Ran(cfg, before, hs, ops, done, u)
    requires !Idle(c, u) && Matches(c, op) && Enabled(cfg, hs[|ops|], op) && v == Next(cfg, hs[|ops|], op).view
    ensures Ran(cfg, before + [c], hs + [Next(cfg, hs[|ops|], op)], ops + [op], done + [|ops| + 1], v)
  {
    ReachesOn(cfg, before, hs[|ops|], c, op);
    RunLonger(cfg, hs, ops, op);
    ScriptedOn(before, hs, ops, done, c, Next(cfg, hs[|ops|], op), op);
  }

  lemma GoesOn(cfg: Config, before: seq<Command>, hs: seq<History>, ops: seq<Op>, done: seq<nat>, c: Command,
               op: Option<Op>, v: View)
    returns (hs': seq<History>, ops': seq<Op>, done': seq<nat>)
    requires |hs| == |ops| + 1 && Ran(cfg, before, hs, ops, done, hs[|ops|].view)
    requires CarriedOut(cfg, hs[|ops|], c, op, v)
    ensures Ran(cfg, before + [c], hs', ops', done', v)
  {
    match op
    case Some(o) =>
      var h := Next(cfg, hs[|ops|], o);
      hs', ops', done' := hs + [h], ops + [o], done + [|ops| + 1];
      assert Ran(cfg, before + [c], hs', ops', done', v) by {
        RunsOn(cfg, before, hs, ops, done, hs[|ops|].view, c, o, v);
      }
    case None =>
      hs', ops', done' := hs, ops, done + [|ops|];
      assert Ran(cfg, before + [c], hs', ops', done', v) by {
        IdlesOn(cfg, before, hs, ops, done, v, c);
      }
  }

  lemma StartsRan(cfg: Config)
    ensures Ran(cfg, [], [NEW_CHANNEL], [], [0], NEW_CHANNEL.view)
  {
    NewChannelConserves(cfg);
  }

  lemma RanConserves(cfg: Config, commands: seq<Command>, hs: seq<History>, ops: seq<Op>, done: seq<nat>, v: View)
    requires Ran(cfg, commands, hs, ops, done, v)
    ensures IsRun(cfg, hs, ops) && hs[0] == NEW_CHANNEL && forall i | 0 <= i < |hs| :: Conserved(cfg, hs[i])
    ensures v == hs[|ops|].view && hs[|ops|].accepted == AllPublished(commands) && Scripted(commands, hs, ops, done)
  {
    NewChannelConserves(cfg);
    forall i | 0 <= i < |hs| ensures Conserved(cfg, hs[i]) {
      RunConserves(cfg, hs, ops, i);
    }
  }

  /** One more command. */
  method RunOne(ch: C.Channel, ghost before: seq<Command>, c: Command, ghost hs: seq<History>, ghost ops: seq<Op>,
                ghost done: seq<nat>)
    returns (ghost hs': seq<History>, ghost ops': seq<Op>, ghost done': seq<nat>)
    requires ch.Agree() && Ran(ch.cfg, before, hs, ops, done, ch.State()) && FreshAfter(ch.cfg, before, c)
    modifies ch, ch.inFlightPQ, ch.inFlightPQ.data, ch.inFlightPQ.members`index, ch.inFlightPQ.members`pri
    modifies ch.deferredPQ, ch.deferredPQ.data, ch.deferredPQ.members`Index
    ensures ch.Agree() && ch.FlightsWithin() && ch.DeferralsWithin()
    ensures Ran(ch.cfg, before + [c], hs', ops', done', ch.State())
  {
    ghost var h := hs[|ops|];
    ReachedAdmits(ch.cfg, before, h, c);
    ghost var op := Execute(ch, c, h);
    hs', ops', done' := GoesOn(ch.cfg, before, hs, ops, done, c, op, ch.State());
  }

  lemma OneMore(commands: seq<Command>, i: nat)
    requires i < |commands|
    ensures commands[..i + 1] == commands[..i] + [commands[i]]
  {
  }

  lemma AllOf(commands: seq<Command>)
    ensures commands[..|commands|] == commands
  {
  }

  method RunNext(ch: C.Channel, commands: seq<Command>, i: nat, ghost hs: seq<History>, ghost ops: seq<Op>,
                ghost done: seq<nat>)
    returns (ghost hs': seq<History>, ghost ops': seq<Op>, ghost done': seq<nat>)
    requires i < |commands| && FreshIDs(ch.cfg, commands)
    requires ch.Agree() && Ran(ch.cfg, commands[..i], hs, ops, done, ch.State())
    modifies ch, ch.inFlightPQ, ch.inFlightPQ.data, ch.inFlightPQ.members`index, ch.inFlightPQ.members`pri
    modifies ch.deferredPQ, ch.deferredPQ.data, ch.deferredPQ.members`Index
    ensures ch.Agree() && ch.FlightsWithin() && ch.DeferralsWithin()
    ensures Ran(ch.cfg, commands[..i + 1], hs', ops', done', ch.State())
  {
    OneMore(commands, i);
    hs', ops', done' := RunOne(ch, commands[..i], commands[i], hs, ops, done);
  }

  method RunAll(ch: C.Channel, commands: seq<Command>)
    returns (ghost hs: seq<History>, ghost ops: seq<Op>, ghost done: seq<nat>)
    requires FreshIDs(ch.cfg, commands)
    requires ch.Agree() && ch.State() == NEW_CHANNEL.view
    modifies ch, ch.inFlightPQ, ch.inFlightPQ.data, ch.inFlightPQ.members`index, ch.inFlightPQ.members`pri
    modifies ch.deferredPQ, ch.deferredPQ.data, ch.deferredPQ.members`Index
    ensures ch.Agree() && Ran(ch.cfg, commands, hs, ops, done, ch.State())
  {
    StartsRan(ch.cfg);
    hs, ops, done := [NEW_CHANNEL], [], [0];
    for i := 0 to |commands|
      invariant ch.Agree() && ch.FlightsWithin() && ch.DeferralsWithin()
      invariant Ran(ch.cfg, commands[..i], hs, ops, done, ch.State())
    {
      hs, ops, done := RunNext(ch, commands, i, hs, ops, done);
    }
    AllOf(commands);
  }

  /**
   A new channel carries out any script. Its states are a run of `ChannelSpec`, command by command, so that in each
   of them whatever was published and not finished is held in exactly one place, and nothing else is.
   */
  method Run(cfg: Config, commands: seq<Command>)
    returns (ch: C.Channel, ghost hs: seq<History>, ghost ops: seq<Op>, ghost done: seq<nat>)
    requires FreshIDs(cfg, commands)
    ensures fresh(ch) && ch.cfg == cfg && ch.Agree()
    ensures IsRun(cfg, hs, ops) && hs[0] == NEW_CHANNEL && forall i | 0 <= i < |hs| :: Conserved(cfg, hs[i])
    ensures Scripted(commands, hs, ops, done)
    ensures ch.State() == hs[|ops|].view && hs[|ops|].accepted == AllPublished(commands)
  {
    ch := new C.Channel(cfg, []);
    hs, ops, done := RunAll(ch, commands);
    RanConserves(cfg, commands, hs, ops, done, ch.State());
  }
}

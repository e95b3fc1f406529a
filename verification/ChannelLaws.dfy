/**
 What each operation of a channel does to every part of it, told place by place and counter by counter; and how
 long a run leaves a message deferred, or with its client.
 */
module ChannelLaws {
  import opened Messages
  import opened ChannelSpec

  // ---- Parts that stay as they are ----

  ghost predicate SameQueues(v: View, w: View) {
    w.memory == v.memory && w.backend == v.backend
  }

  ghost predicate SameCounters(v: View, w: View) {
    w.messageCount == v.messageCount && w.requeueCount == v.requeueCount && w.timeoutCount == v.timeoutCount
  }

  /** `m` is queued last: in memory if there is room, and otherwise in the backend. */
  ghost predicate QueuedLast(cfg: Config, v: View, w: View, m: Msg) {
    if |v.memory| < cfg.memQueueSize then w.memory == v.memory + [m] && w.backend == v.backend
    else w.memory == v.memory && w.backend == v.backend + [m]
  }

  /** Just the client's own count is changed, if it is attached. */
  ghost predicate CountChanged(v: View, w: View, client: int, change: int) {
    && w.counts.Keys == v.counts.Keys
    && forall c | c in v.counts :: w.counts[c] == if c == client then v.counts[c] + change else v.counts[c]
  }

  // ---- Putting ----

  /** A put on a running channel is counted if it succeeds; the message is queued last. */
  lemma PutMessageMeans(cfg: Config, v: View, m: Msg)
    requires |m.Body| + 26 <= 0x7fff_ffff
    ensures var (w, r) := PutMessage(cfg, v, m);
            var fits := |v.memory| < cfg.memQueueSize || |m.Body| + 26 <= cfg.lim.maxMsgSize;
            && r == (if v.exiting then Exiting else if fits then Ok else Refused)
            && (r != Ok ==> w == v)
            && (r == Ok ==> && QueuedLast(cfg, v, w, m) && w.inFlight == v.inFlight && w.deferred == v.deferred
                            && w.counts == v.counts && w.messageCount == v.messageCount + 1
                            && w.requeueCount == v.requeueCount && w.timeoutCount == v.timeoutCount && !w.exiting)
  {
  }

  /** A deferred put keeps the message until `due`, and queues nothing. It is counted in any case. */
  lemma PutMessageDeferredMeans(v: View, m: Msg, due: int)
    ensures var w := PutMessageDeferred(v, m, due);
            && w.deferred == (if m.ID in v.deferred then v.deferred else v.deferred[m.ID := Deferral(m, due)])
            && SameQueues(v, w) && w.inFlight == v.inFlight && w.counts == v.counts && w.exiting == v.exiting
            && w.messageCount == v.messageCount + 1 && w.requeueCount == v.requeueCount
            && w.timeoutCount == v.timeoutCount
  {
  }

  lemma DeferralAnswers(v: View, m: Msg, due: int)
    ensures StartDeferred(v, m, due).1 == if m.ID in v.deferred then AlreadyDeferred else Ok
  {
  }

  // ---- Sending and answering ----

  /** Attempts are 16 bits wide and start over. */
  ghost predicate OneAttemptMore(m: Msg, n: Msg) {
    && n.ID == m.ID && n.Body == m.Body && n.Timestamp == m.Timestamp
    && n.Attempts == if m.Attempts == 0xffff then 0 else m.Attempts + 1
  }

  /** A message sent is its client's, counted, until its deadline, with one attempt more. */
  lemma SendMeans(v: View, m: Msg, client: int, now: int, timeout: int)
    requires m.ID !in v.inFlight
    ensures var w := Send(v, m, client, now, timeout);
            && m.ID in w.inFlight && OneAttemptMore(m, w.inFlight[m.ID].msg)
            && w.inFlight == v.inFlight[m.ID := Flight(w.inFlight[m.ID].msg, client, now, now + timeout)]
            && CountChanged(v, w, client, 1)
            && SameQueues(v, w) && w.deferred == v.deferred && SameCounters(v, w) && w.exiting == v.exiting
  {
  }

  /** The pump takes the first message of the memory queue, or of the backend. */
  lemma DeliverMeans(v: View, client: int, now: int, timeout: int)
    ensures v.memory != [] ==> DeliverMemory(v, client, now, timeout)
                               == Send(v.(memory := v.memory[1..]), v.memory[0], client, now, timeout)
    ensures v.backend != [] ==> DeliverBackend(v, client, now, timeout)
                                == Send(v.(backend := v.backend[1..]), v.backend[0], client, now, timeout)
  {
  }

  lemma FlightAnswers(v: View, m: Msg, client: int, now: int, timeout: int)
    ensures StartInFlight(v, m, client, now, timeout).1 == if m.ID in v.inFlight then AlreadyInFlight else Ok
  {
  }

  /** Who may answer a message, and what anyone else is told. */
  ghost predicate Judged(v: View, client: int, id: MessageID, r: Outcome) {
    && (id !in v.inFlight <==> r == NotInFlight)
    && (id in v.inFlight && v.inFlight[id].client != client <==> r == NotOwner)
    && (id in v.inFlight && v.inFlight[id].client == client <==> r != NotInFlight && r != NotOwner)
  }

  /** FIN takes the message out of flight, and off the client's count; nothing else changes. */
  lemma FinMeans(v: View, client: int, id: MessageID)
    ensures var (w, r) := Fin(v, client, id);
            && Judged(v, client, id, r) && (r != Ok ==> w == v)
            && (r == Ok ==> && w.inFlight == v.inFlight - {id} && CountChanged(v, w, client, -1)
                            && SameQueues(v, w) && w.deferred == v.deferred && SameCounters(v, w)
                            && w.exiting == v.exiting)
  {
  }

  lemma TouchAnswers(cfg: Config, v: View, client: int, id: MessageID, now: int, timeout: int)
    ensures Judged(v, client, id, Touch(cfg, v, client, id, now, timeout).1)
  {
  }

  /** The delay that REQ grants. */
  ghost predicate Granted(requested: int, maxReqTimeout: int, delay: int) {
    && (requested < 0 ==> delay == 0)
    && (0 <= requested <= maxReqTimeout ==> delay == requested)
    && (requested >= 0 && requested > maxReqTimeout ==> delay == maxReqTimeout)
  }

  lemma DelayIsGranted(requested: int, maxReqTimeout: int)
    ensures Granted(requested, maxReqTimeout, ClampedDelay(requested, maxReqTimeout))
  {
  }

  /**
   REQ of an owned message takes it out of flight, counts a requeue, and takes it off the client's count. With
   a delay it is then deferred by that from now, without one queued last.
   */
  lemma ReqMeans(cfg: Config, v: View, client: int, id: MessageID, requested: int, maxReqTimeout: int, now: int)
    requires Consistent(cfg, v) && !v.exiting
    ensures var delay := ClampedDelay(requested, maxReqTimeout);
            var (w, r) := ReqWithin(cfg, v, client, id, requested, maxReqTimeout, now);
            && Judged(v, client, id, r) && (r != Ok ==> r in {NotInFlight, NotOwner} && w == v)
            && (r == Ok ==>
                  var m := v.inFlight[id].msg;
                  && w.inFlight == v.inFlight - {id} && CountChanged(v, w, client, -1)
                  && w.requeueCount == v.requeueCount + 1 && w.messageCount == v.messageCount
                  && w.timeoutCount == v.timeoutCount && !w.exiting
                  && if delay != 0 then w.deferred == v.deferred[id := Deferral(m, now + delay)] && SameQueues(v, w)
                     else w.deferred == v.deferred && QueuedLast(cfg, v, w, m))
  {
    var delay := ClampedDelay(requested, maxReqTimeout);
    var due := now + delay;
    ReqWithinLimit(cfg, v, client, id, requested, maxReqTimeout, now, due);
    if Owned(v, client, id) == Ok {
      OwnedReqMeans(cfg, v, client, id, delay, due);
    }
  }

  lemma OwnedReqMeans(cfg: Config, v: View, client: int, id: MessageID, delay: int, due: int)
    requires Consistent(cfg, v) && !v.exiting && id in v.inFlight && v.inFlight[id].client == client
    ensures var (w, r) := Req(cfg, v, client, id, delay, due);
            var m := v.inFlight[id].msg;
            && r == Ok
            && w.inFlight == v.inFlight - {id} && CountChanged(v, w, client, -1)
            && w.requeueCount == v.requeueCount + 1 && w.messageCount == v.messageCount
            && w.timeoutCount == v.timeoutCount && !w.exiting
            && if delay != 0 then w.deferred == v.deferred[id := Deferral(m, due)] && SameQueues(v, w)
               else w.deferred == v.deferred && QueuedLast(cfg, v, w, m)
  {
    assert id !in v.deferred;
    RequeuedIsReq(cfg, v, id, delay, due);
    RequeuedMeans(cfg, v, id, delay, due);
    CountedMeans(Requeued(cfg, v, id, delay, due), client);
  }

  lemma RequeuedMeans(cfg: Config, v: View, id: MessageID, delay: int, due: int)
    requires Consistent(cfg, v) && !v.exiting && id in v.inFlight && id !in v.deferred
    ensures var w, m := Requeued(cfg, v, id, delay, due), v.inFlight[id].msg;
            && w.inFlight == v.inFlight - {id} && w.counts == v.counts
            && w.requeueCount == v.requeueCount + 1 && w.messageCount == v.messageCount
            && w.timeoutCount == v.timeoutCount && !w.exiting
            && if delay != 0 then w.deferred == v.deferred[id := Deferral(m, due)] && SameQueues(v, w)
               else w.deferred == v.deferred && QueuedLast(cfg, v, w, m)
  {
  }

  lemma CountedMeans(v: View, client: int)
    ensures var w := Counted(v, client, -1);
            CountChanged(v, w, client, -1) && w == v.(counts := w.counts)
  {
  }

  /** After closing began a delayed REQ is still deferred; one without is refused, and its message gone. */
  lemma ReqWhileExiting(cfg: Config, v: View, client: int, id: MessageID, delay: int, due: int)
    requires Placed(cfg, v.(exiting := false)) && v.exiting && id in v.inFlight && v.inFlight[id].client == client
    ensures var (w, r) := Req(cfg, v, client, id, delay, due);
            && r == (if delay != 0 then Ok else Exiting) && w.inFlight == v.inFlight - {id} && SameQueues(v, w)
            && w.deferred == (if delay != 0 then v.deferred[id := Deferral(v.inFlight[id].msg, due)] else v.deferred)
            && (r != Ok ==> w.counts == v.counts) && w.requeueCount == v.requeueCount + 1
  {
  }

  // ---- Timing out ----

  /** A timeout is counted, comes off its owner's count, and the message is queued last. */
  lemma ExpireMeans(cfg: Config, v: View, id: MessageID)
    requires id in v.inFlight && Fits(cfg, v.inFlight[id].msg)
    ensures var w := Expire(cfg, v, id);
            && w.inFlight == v.inFlight - {id} && CountChanged(v, w, v.inFlight[id].client, -1)
            && QueuedLast(cfg, v, w, v.inFlight[id].msg) && w.deferred == v.deferred
            && w.timeoutCount == v.timeoutCount + 1 && w.requeueCount == v.requeueCount
            && w.messageCount == v.messageCount && w.exiting == v.exiting
  {
  }

  lemma ReleaseMeans(cfg: Config, v: View, id: MessageID)
    requires id in v.deferred && Fits(cfg, v.deferred[id].msg)
    ensures var w := Release(cfg, v, id);
            && w.deferred == v.deferred - {id} && QueuedLast(cfg, v, w, v.deferred[id].msg)
            && w.inFlight == v.inFlight && w.counts == v.counts && SameCounters(v, w) && w.exiting == v.exiting
  {
  }

  // ---- Clients, emptying, closing ----

  lemma AttachmentMeans(v: View, client: int)
    ensures var w := Attached(v, client);
            && w.counts.Keys == v.counts.Keys + {client} && w.counts[client] == 0
            && (forall c | c in v.counts && c != client :: w.counts[c] == v.counts[c])
            && w == v.(counts := w.counts)
    ensures var w := Detached(v, client);
            && w.counts.Keys == v.counts.Keys - {client}
            && (forall c | c in w.counts :: w.counts[c] == v.counts[c])
            && w == v.(counts := w.counts)
  {
  }

  /** After an Empty nothing is held anywhere, and the same clients are attached, each with a count of 0. */
  lemma EmptiedMeans(cfg: Config, v: View)
    requires Consistent(cfg, v)
    ensures var w := Emptied(v);
            && Consistent(cfg, w) && Holdings(w) == {} && AllMessages(w) == {}
            && w.memory == [] && w.backend == [] && |w.inFlight| == 0 && |w.deferred| == 0
            && w.counts.Keys == v.counts.Keys && (forall c | c in w.counts :: w.counts[c] == 0)
            && SameCounters(v, w) && w.exiting == v.exiting
  {
    EmptiedPlaces(cfg, v);
    assert forall c :: OwnedBy(Emptied(v), c) == {};
  }

  lemma EmptiedPlaces(cfg: Config, v: View)
    ensures var w := Emptied(v); Placed(cfg, w) && Holdings(w) == {} && AllMessages(w) == {}
  {
  }

  /** Closing empties the memory queue, sets the flag for good, and leaves the maps and clients as they are. */
  lemma ClosedMeans(cfg: Config, v: View, flights: seq<MessageID>, deferrals: seq<MessageID>)
    requires forall id | id in flights :: id in v.inFlight
    requires forall id | id in deferrals :: id in v.deferred
    ensures var (w, r) := Closed(cfg, v, flights, deferrals);
            && r == (if v.exiting then Exiting else Ok) && w.exiting && (v.exiting ==> w == v)
            && (!v.exiting ==> w.memory == []) && w.inFlight == v.inFlight && w.deferred == v.deferred
            && w.counts == v.counts && SameCounters(v, w)
  {
  }

  // ---- Over runs ----

  /** `id` is deferred, and how. */
  predicate Defers(v: View, id: MessageID, d: Deferral) {
    id in v.deferred && v.deferred[id] == d
  }

  /** An operation by which a message may leave deferral. */
  predicate Releases(op: Op, d: Deferral) {
    op.DeferredScan? && op.t >= d.due
  }

  lemma DeferralStays(cfg: Config, h: History, op: Op, id: MessageID, d: Deferral)
    requires Conserved(cfg, h) && Enabled(cfg, h, op)
    requires Defers(h.view, id, d) && !Releases(op, d)
    ensures Defers(Next(cfg, h, op).view, id, d)
  {
    var v := h.view;
    match op
    case TimeoutScan(t, order) => ExpireAllKeeps(cfg, v, order);
    case DeferredScan(t, order) => DueScanIsExact(cfg, v, t, order);
    case ReqOp(client, x, timeout, due) =>
      if Owned(v, client, x) == Ok {
        OwnedReqMeans(cfg, v, client, x, timeout, due);
      }
    case _ =>
  }

  lemma DeferredNowhereElse(cfg: Config, v: View, id: MessageID)
    requires Placed(cfg, v) && id in v.deferred
    ensures id !in IDs(v.memory) && id !in IDs(v.backend) && id !in v.inFlight
  {
  }

  /** In any run a deferred message stays where it is, and nowhere else, until a scan at or after it is due. */
  lemma {:induction false} HeldUntilDue(cfg: Config, hs: seq<History>, ops: seq<Op>, i: nat, j: nat, id: MessageID,
        d: Deferral)
    requires IsRun(cfg, hs, ops) && Conserved(cfg, hs[0]) && i <= j < |hs| && Defers(hs[i].view, id, d)
    requires forall k | i <= k < j :: !Releases(ops[k], d)
    ensures var v := hs[j].view;
            Defers(v, id, d) && id !in IDs(v.memory) && id !in IDs(v.backend) && id !in v.inFlight
    decreases j - i
  {
    if i < j {
      HeldUntilDue(cfg, hs, ops, i, j - 1, id, d);
      DeferralStaysAt(cfg, hs, ops, j - 1, id, d);
    }
    RunConserves(cfg, hs, ops, j);
    DeferredNowhereElse(cfg, hs[j].view, id);
  }

  lemma DeferralStaysAt(cfg: Config, hs: seq<History>, ops: seq<Op>, k: nat, id: MessageID, d: Deferral)
    requires IsRun(cfg, hs, ops) && Conserved(cfg, hs[0]) && k < |ops|
    requires Defers(hs[k].view, id, d) && !Releases(ops[k], d)
    ensures Defers(hs[k + 1].view, id, d)
  {
    RunConserves(cfg, hs, ops, k);
    DeferralStays(cfg, hs[k], ops[k], id, d);
  }

  predicate Flies(v: View, id: MessageID, f: Flight) {
    id in v.inFlight && v.inFlight[id] == f
  }

  /** An operation by which a message may leave its client, or get another deadline. */
  predicate Answers(op: Op, id: MessageID, f: Flight) {
    || ((op.FinOp? || op.ReqOp? || op.TouchOp?) && op.client == f.client && op.id == id)
    || (op.TimeoutScan? && op.t >= f.deadline)
  }

  lemma FlightStaysOnSend(cfg: Config, h: History, op: Op, id: MessageID, f: Flight)
    requires Conserved(cfg, h) && Enabled(cfg, h, op) && (op.SendMemory? || op.SendBackend?)
    requires Flies(h.view, id, f)
    ensures Flies(Next(cfg, h, op).view, id, f)
  {
    var v := h.view;
    assert op.SendMemory? ==> v.memory[0].ID in IDs(v.memory);
    assert op.SendBackend? ==> v.backend[0].ID in IDs(v.backend);
  }

  lemma FlightStays(cfg: Config, h: History, op: Op, id: MessageID, f: Flight)
    requires Conserved(cfg, h) && Enabled(cfg, h, op)
    requires Flies(h.view, id, f) && !Answers(op, id, f)
    ensures Flies(Next(cfg, h, op).view, id, f)
  {
    match op
    case SendMemory(_, _, _) => FlightStaysOnSend(cfg, h, op, id, f);
    case SendBackend(_, _, _) => FlightStaysOnSend(cfg, h, op, id, f);
    case TimeoutScan(_, _) => FlightStaysOnScan(cfg, h, op, id, f);
    case DeferredScan(_, _) => FlightStaysOnScan(cfg, h, op, id, f);
    case ReqOp(_, _, _, _) => FlightStaysOnReq(cfg, h, op, id, f);
    case FinOp(_, _) => FlightStaysOnAnswer(cfg, h, op, id, f);
    case TouchOp(_, _, _, _) => FlightStaysOnAnswer(cfg, h, op, id, f);
    case _ =>
  }

  lemma FlightStaysOnAnswer(cfg: Config, h: History, op: Op, id: MessageID, f: Flight)
    requires Conserved(cfg, h) && Enabled(cfg, h, op) && (op.FinOp? || op.TouchOp?)
    requires Flies(h.view, id, f) && !Answers(op, id, f)
    ensures Flies(Next(cfg, h, op).view, id, f)
  {
  }

  lemma FlightStaysOnReq(cfg: Config, h: History, op: Op, id: MessageID, f: Flight)
    requires Conserved(cfg, h) && Enabled(cfg, h, op) && op.ReqOp?
    requires Flies(h.view, id, f) && !Answers(op, id, f)
    ensures Flies(Next(cfg, h, op).view, id, f)
  {
    if Owned(h.view, op.client, op.id) == Ok {
      OwnedReqMeans(cfg, h.view, op.client, op.id, op.timeout, op.due);
    }
  }

  lemma FlightStaysOnScan(cfg: Config, h: History, op: Op, id: MessageID, f: Flight)
    requires Conserved(cfg, h) && Enabled(cfg, h, op) && (op.TimeoutScan? || op.DeferredScan?)
    requires Flies(h.view, id, f) && !Answers(op, id, f)
    ensures Flies(Next(cfg, h, op).view, id, f)
  {
    match op
    case TimeoutScan(t, order) => ScanIsExact(cfg, h.view, t, order);
    case DeferredScan(t, order) => ReleaseAllKeeps(cfg, h.view, order);
  }

  /** In any run a message sent stays its client's until the client answers it, or a scan at or after its deadline. */
  lemma {:induction false} OwnedUntilAnswered(cfg: Config, hs: seq<History>, ops: seq<Op>, i: nat, j: nat,
        id: MessageID, f: Flight)
    requires IsRun(cfg, hs, ops) && Conserved(cfg, hs[0]) && i <= j < |hs| && Flies(hs[i].view, id, f)
    requires forall k | i <= k < j :: !Answers(ops[k], id, f)
    ensures Flies(hs[j].view, id, f)
    decreases j - i
  {
    if i < j {
      OwnedUntilAnswered(cfg, hs, ops, i, j - 1, id, f);
      FlightStaysAt(cfg, hs, ops, j - 1, id, f);
    }
  }

  lemma FlightStaysAt(cfg: Config, hs: seq<History>, ops: seq<Op>, k: nat, id: MessageID, f: Flight)
    requires IsRun(cfg, hs, ops) && Conserved(cfg, hs[0]) && k < |ops|
    requires Flies(hs[k].view, id, f) && !Answers(ops[k], id, f)
    ensures Flies(hs[k + 1].view, id, f)
  {
    RunConserves(cfg, hs, ops, k);
    FlightStays(cfg, hs[k], ops[k], id, f);
  }
}

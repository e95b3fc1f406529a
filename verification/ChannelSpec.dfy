/**
 A channel's state as a value, its operations as functions on it, and the conservation of
 messages: whatever is delivered, requeued, touched, deferred or timed out, every accepted
 message is in exactly one of four places until the client that owns it finishes it.
 */
module ChannelSpec {
  import opened Bytes
  import opened BackendQueue
  import opened Messages

  datatype ConfigBase = Config(memQueueSize: nat, lim: Limits, maxMsgTimeout: int)

  /** The backend is opened for records of at least the 26 bytes of an encoded empty message. */
  type Config = c: ConfigBase | c.lim.minMsgSize == MIN_VALID_MSG_LENGTH
    witness Config(0, Limits(26, 26), 0)

  /** A message sent to a client and not yet answered. */
  datatype Flight = Flight(msg: Msg, client: int, delivered: int, deadline: int)

  datatype Deferral = Deferral(msg: Msg, due: int)

  /**
   `memory` and `backend` are the queued messages, the backend's decoded. `counts` has an entry for
   each attached client: its in-flight count.
   */
  datatype View = View(
    memory: seq<Msg>, backend: seq<Msg>,
    inFlight: map<MessageID, Flight>, deferred: map<MessageID, Deferral>,
    counts: map<int, int>,
    messageCount: nat, requeueCount: nat, timeoutCount: nat,
    exiting: bool)

  datatype Outcome = Ok | Exiting | NotInFlight | NotOwner | AlreadyInFlight | AlreadyDeferred | Refused

  // ---- Operations ----

  function Put(cfg: Config, v: View, m: Msg): (View, Outcome) {
    if |v.memory| < cfg.memQueueSize then (v.(memory := v.memory + [m]), Ok)
    else if AcceptsSize(cfg.lim, MIN_VALID_MSG_LENGTH + |m.Body|) then (v.(backend := v.backend + [m]), Ok)
    else (v, Refused)
  }

  function PutMessage(cfg: Config, v: View, m: Msg): (View, Outcome) {
    if v.exiting then (v, Exiting)
    else
      var (w, r) := Put(cfg, v, m);
      if r == Ok then (w.(messageCount := w.messageCount + 1), Ok) else (w, r)
  }

  function StartDeferred(v: View, m: Msg, due: int): (View, Outcome) {
    if m.ID in v.deferred then (v, AlreadyDeferred)
    else (v.(deferred := v.deferred[m.ID := Deferral(m, due)]), Ok)
  }

  function PutMessageDeferred(v: View, m: Msg, due: int): View {
    StartDeferred(v.(messageCount := v.messageCount + 1), m, due).0
  }

  function StartInFlight(v: View, m: Msg, client: int, now: int, timeout: int): (View, Outcome) {
    if m.ID in v.inFlight then (v, AlreadyInFlight)
    else (v.(inFlight := v.inFlight[m.ID := Flight(m, client, now, now + timeout)]), Ok)
  }

  function Counted(v: View, client: int, change: int): View {
    if client in v.counts then v.(counts := v.counts[client := v.counts[client] + change]) else v
  }

  /** The attempts counter is 16 bits wide and wraps. */
  function Attempted(m: Msg): Msg {
    m.(Attempts := (m.Attempts + 1) % 0x1_0000)
  }

  /** The pump sends a message to its client; that it could not be put in flight goes unnoticed. */
  function Send(v: View, m: Msg, client: int, now: int, timeout: int): View {
    Counted(StartInFlight(v, Attempted(m), client, now, timeout).0, client, 1)
  }

  function DeliverMemory(v: View, client: int, now: int, timeout: int): View
    requires v.memory != []
  {
    Send(v.(memory := v.memory[1..]), v.memory[0], client, now, timeout)
  }

  function DeliverBackend(v: View, client: int, now: int, timeout: int): View
    requires v.backend != []
  {
    Send(v.(backend := v.backend[1..]), v.backend[0], client, now, timeout)
  }

  function Owner(inFlight: map<MessageID, Flight>, client: int, id: MessageID): Outcome {
    if id !in inFlight then NotInFlight
    else if inFlight[id].client != client then NotOwner
    else Ok
  }

  function Owned(v: View, client: int, id: MessageID): Outcome {
    Owner(v.inFlight, client, id)
  }

  function Landed(v: View, id: MessageID): View {
    v.(inFlight := v.inFlight - {id})
  }

  function Fin(v: View, client: int, id: MessageID): (View, Outcome) {
    var r := Owned(v, client, id);
    if r != Ok then (v, r) else (Counted(Landed(v, id), client, -1), Ok)
  }

  function Requeueing(v: View, id: MessageID): View {
    Landed(v, id).(requeueCount := v.requeueCount + 1)
  }

  /** The delay a client asks for is brought into the range from 0 to the largest allowed. */
  function ClampedDelay(requested: int, maxReqTimeout: int): (delay: int)
    ensures 0 <= maxReqTimeout ==> 0 <= delay <= maxReqTimeout
    ensures 0 <= requested <= maxReqTimeout ==> delay == requested
  {
    if requested < 0 then 0 else if requested > maxReqTimeout then maxReqTimeout else requested
  }

  /** With `timeout` 0 the message is queued again at once, otherwise when `due`. */
  function Requeue(cfg: Config, v: View, m: Msg, timeout: int, due: int): (View, Outcome) {
    if timeout != 0 then StartDeferred(v, m, due)
    else if v.exiting then (v, Exiting)
    else Put(cfg, v, m)
  }

  function Req(cfg: Config, v: View, client: int, id: MessageID, timeout: int, due: int): (View, Outcome) {
    var r := Owned(v, client, id);
    if r != Ok then (v, r)
    else
      var (x, s) := Requeue(cfg, Requeueing(v, id), v.inFlight[id].msg, timeout, due);
      if s == Ok then (Counted(x, client, -1), Ok) else (x, s)
  }

  /** REQ as the protocol handles it: the delay asked for is brought within the limit. */
  function ReqWithin(cfg: Config, v: View, client: int, id: MessageID, requested: int, maxReqTimeout: int, now: int)
    : (View, Outcome)
  {
    var delay := ClampedDelay(requested, maxReqTimeout);
    Req(cfg, v, client, id, delay, now + delay)
  }

  lemma ReqWithinLimit(cfg: Config, v: View, client: int, id: MessageID, requested: int, maxReqTimeout: int, now: int,
                       due: int)
    requires due == now + ClampedDelay(requested, maxReqTimeout)
    ensures ReqWithin(cfg, v, client, id, requested, maxReqTimeout, now)
         == Req(cfg, v, client, id, ClampedDelay(requested, maxReqTimeout), due)
  {
  }

  function TouchedDeadline(cfg: Config, delivered: int, now: int, timeout: int): int {
    if now + timeout - delivered >= cfg.maxMsgTimeout then delivered + cfg.maxMsgTimeout else now + timeout
  }

  function Touched(cfg: Config, fs: map<MessageID, Flight>, client: int, id: MessageID, now: int, timeout: int)
    : map<MessageID, Flight>
  {
    if Owner(fs, client, id) != Ok then fs
    else fs[id := fs[id].(deadline := TouchedDeadline(cfg, fs[id].delivered, now, timeout))]
  }

  function Touch(cfg: Config, v: View, client: int, id: MessageID, now: int, timeout: int): (View, Outcome) {
    (v.(inFlight := Touched(cfg, v.inFlight, client, id, now, timeout)), Owned(v, client, id))
  }

  function TimedOut(v: View, id: MessageID): View
    requires id in v.inFlight
  {
    Counted(Landed(v, id).(timeoutCount := v.timeoutCount + 1), v.inFlight[id].client, -1)
  }

  /** One message timed out: off its client's count and back to the queue. */
  function Expire(cfg: Config, v: View, id: MessageID): View
    requires id in v.inFlight
  {
    Put(cfg, TimedOut(v, id), v.inFlight[id].msg).0
  }

  function Release(cfg: Config, v: View, id: MessageID): View
    requires id in v.deferred
  {
    Put(cfg, v.(deferred := v.deferred - {id}), v.deferred[id].msg).0
  }

  ghost predicate NoDuplicates<T(!new)>(s: seq<T>) {
    forall i, j | 0 <= i < j < |s| :: s[i] != s[j]
  }

  function Members<T>(s: seq<T>): set<T> {
    set x | x in s
  }

  /** `order` lists the messages in flight past their deadline at `t`, earliest deadline first. */
  ghost predicate ExpiryOrder(v: View, t: int, order: seq<MessageID>) {
    && NoDuplicates(order)
    && (forall id :: id in order <==> id in v.inFlight && v.inFlight[id].deadline <= t)
    && (forall i, j | 0 <= i < j < |order| :: v.inFlight[order[i]].deadline <= v.inFlight[order[j]].deadline)
  }

  ghost predicate DueOrder(v: View, t: int, order: seq<MessageID>) {
    && NoDuplicates(order)
    && (forall id :: id in order <==> id in v.deferred && v.deferred[id].due <= t)
    && (forall i, j | 0 <= i < j < |order| :: v.deferred[order[i]].due <= v.deferred[order[j]].due)
  }

  function ExpireAll(cfg: Config, v: View, order: seq<MessageID>): (w: View)
    decreases |order|
  {
    if order == [] then v
    else
      var w := ExpireAll(cfg, v, order[..|order| - 1]);
      var id := order[|order| - 1];
      if id in w.inFlight then Expire(cfg, w, id) else w
  }

  function ReleaseAll(cfg: Config, v: View, order: seq<MessageID>): (w: View)
    decreases |order|
  {
    if order == [] then v
    else
      var w := ReleaseAll(cfg, v, order[..|order| - 1]);
      var id := order[|order| - 1];
      if id in w.deferred then Release(cfg, w, id) else w
  }

  function Emptied(v: View): View {
    v.(memory := [], backend := [], inFlight := map[], deferred := map[], counts := map c | c in v.counts :: 0)
  }

  /** A client attaches with an in-flight count of zero. */
  function Attached(v: View, client: int): View {
    v.(counts := v.counts[client := 0])
  }

  function Detached(v: View, client: int): View {
    v.(counts := v.counts - {client})
  }

  // ---- Where messages are ----

  /** What must survive of a message: all but its attempts. */
  function Payload(m: Msg): Msg {
    m.(Attempts := 0)
  }

  predicate Fits(cfg: Config, m: Msg) {
    MIN_VALID_MSG_LENGTH + |m.Body| <= cfg.lim.maxMsgSize
  }

  /** The messages a sequence of records decodes to. */
  ghost function Stored(bs: seq<Data>): (ms: seq<Msg>)
    requires forall b | b in bs :: Decode(b).Decoded?
    ensures |ms| == |bs| && forall i | 0 <= i < |bs| :: ms[i] == Decode(bs[i]).msg
  {
    seq(|bs|, i requires 0 <= i < |bs| => assert bs[i] in bs; Decode(bs[i]).msg)
  }

  ghost function IDs(ms: seq<Msg>): set<MessageID> {
    set m | m in ms :: m.ID
  }

  ghost function Payloads(ms: seq<Msg>): set<Msg> {
    set m | m in ms :: Payload(m)
  }

  ghost predicate DistinctIDs(ms: seq<Msg>) {
    forall i, j | 0 <= i < j < |ms| :: ms[i].ID != ms[j].ID
  }

  /** Every message is in exactly one of the four places, at most once, and small enough to store. */
  ghost predicate Placed(cfg: Config, v: View) {
    && DistinctIDs(v.memory) && DistinctIDs(v.backend)
    && IDs(v.memory) !! IDs(v.backend) !! v.inFlight.Keys !! v.deferred.Keys
    && (forall id | id in v.inFlight :: v.inFlight[id].msg.ID == id && Fits(cfg, v.inFlight[id].msg))
    && (forall id | id in v.deferred :: v.deferred[id].msg.ID == id && Fits(cfg, v.deferred[id].msg))
    && (forall m | m in v.memory || m in v.backend :: Fits(cfg, m))
  }

  ghost predicate Free(v: View, id: MessageID)
  {
    id !in IDs(v.memory) && id !in IDs(v.backend) && id !in v.inFlight && id !in v.deferred
  }

  ghost function FlightPayloads(v: View): set<Msg> {
    set id | id in v.inFlight :: Payload(v.inFlight[id].msg)
  }

  ghost function DeferredPayloads(v: View): set<Msg> {
    set id | id in v.deferred :: Payload(v.deferred[id].msg)
  }

  /** The payloads of all messages the channel holds. */
  ghost function Holdings(v: View): set<Msg>
  {
    Payloads(v.memory) + Payloads(v.backend) + FlightPayloads(v) + DeferredPayloads(v)
  }

  ghost function OwnedBy(v: View, client: int): set<MessageID> {
    set id | id in v.inFlight && v.inFlight[id].client == client
  }

  /** Every attached client's in-flight count is the number of messages it owns. */
  ghost predicate CountsExact(v: View) {
    forall c | c in v.counts :: v.counts[c] == |OwnedBy(v, c)|
  }

  ghost predicate Consistent(cfg: Config, v: View) {
    Placed(cfg, v) && CountsExact(v)
  }

  // ---- Single moves ----

  lemma Appended(ms: seq<Msg>, m: Msg)
    ensures IDs(ms + [m]) == IDs(ms) + {m.ID}
    ensures Payloads(ms + [m]) == Payloads(ms) + {Payload(m)}
    ensures DistinctIDs(ms) && m.ID !in IDs(ms) ==> DistinctIDs(ms + [m])
  {
    assert forall x :: x in ms + [m] <==> x in ms || x == m;
    assert m in ms + [m];
  }

  lemma HeadRemoved(ms: seq<Msg>)
    requires ms != [] && DistinctIDs(ms)
    ensures IDs(ms) == IDs(ms[1..]) + {ms[0].ID} && ms[0].ID !in IDs(ms[1..])
    ensures Payloads(ms) == Payloads(ms[1..]) + {Payload(ms[0])}
    ensures DistinctIDs(ms[1..])
    ensures forall m | m in ms[1..] :: m in ms
  {
    assert ms == [ms[0]] + ms[1..];
    assert forall x :: x in ms <==> x == ms[0] || x in ms[1..];
    forall m | m in ms[1..] ensures m.ID != ms[0].ID {
      var i :| 0 <= i < |ms[1..]| && ms[1..][i] == m;
      assert ms[i + 1] == m;
    }
  }

  /** Queueing a message the channel does not hold always succeeds and adds just it. */
  lemma PutPlaces(cfg: Config, v: View, m: Msg)
    requires Placed(cfg, v) && Free(v, m.ID) && Fits(cfg, m)
    ensures var (w, r) := Put(cfg, v, m);
            && r == Ok && Placed(cfg, w)
            && w.inFlight == v.inFlight && w.deferred == v.deferred && w.counts == v.counts
            && Holdings(w) == Holdings(v) + {Payload(m)}
  {
    var w := Put(cfg, v, m).0;
    if |v.memory| < cfg.memQueueSize {
      Appended(v.memory, m);
    } else {
      Appended(v.backend, m);
    }
  }

  lemma FreePayloadAbsent(cfg: Config, v: View, m: Msg)
    requires Placed(cfg, v) && Free(v, m.ID)
    ensures Payload(m) !in Holdings(v)
  {
    assert forall x | x in v.memory :: x.ID in IDs(v.memory);
    assert forall x | x in v.backend :: x.ID in IDs(v.backend);
  }

  /** `w` is `v` without the message `m`, whose place is now free. */
  ghost predicate TakenOut(cfg: Config, v: View, m: Msg, w: View)
    requires Placed(cfg, v)
  {
    && Placed(cfg, w) && Free(w, m.ID) && Fits(cfg, m)
    && Holdings(v) == Holdings(w) + {Payload(m)}
  }

  lemma MemoryHead(cfg: Config, v: View)
    requires Placed(cfg, v) && v.memory != []
    ensures TakenOut(cfg, v, v.memory[0], v.(memory := v.memory[1..]))
  {
    HeadRemoved(v.memory);
    assert v.memory[0] in v.memory;
  }

  lemma BackendHead(cfg: Config, v: View)
    requires Placed(cfg, v) && v.backend != []
    ensures TakenOut(cfg, v, v.backend[0], v.(backend := v.backend[1..]))
  {
    HeadRemoved(v.backend);
    assert v.backend[0] in v.backend;
  }

  lemma LandedPlaces(cfg: Config, v: View, id: MessageID)
    requires Placed(cfg, v) && id in v.inFlight
    ensures TakenOut(cfg, v, v.inFlight[id].msg, Landed(v, id))
  {
    var w := Landed(v, id);
    assert forall x | x in v.inFlight :: x == id || x in w.inFlight;
  }

  lemma UndeferredPlaces(cfg: Config, v: View, id: MessageID)
    requires Placed(cfg, v) && id in v.deferred
    ensures TakenOut(cfg, v, v.deferred[id].msg, v.(deferred := v.deferred - {id}))
  {
    var w := v.(deferred := v.deferred - {id});
    assert forall x | x in v.deferred :: x == id || x in w.deferred;
  }

  lemma StartInFlightPlaces(cfg: Config, v: View, m: Msg, client: int, now: int, timeout: int)
    requires Placed(cfg, v) && Free(v, m.ID) && Fits(cfg, m)
    ensures var (w, r) := StartInFlight(v, m, client, now, timeout);
            r == Ok && Placed(cfg, w) && Holdings(w) == Holdings(v) + {Payload(m)}
  {
    var w := StartInFlight(v, m, client, now, timeout).0;
    assert forall id | id in v.inFlight :: id in w.inFlight && w.inFlight[id] == v.inFlight[id];
    assert m.ID in w.inFlight;
  }

  lemma StartDeferredPlaces(cfg: Config, v: View, m: Msg, due: int)
    requires Placed(cfg, v) && Free(v, m.ID) && Fits(cfg, m)
    ensures var (w, r) := StartDeferred(v, m, due);
            r == Ok && Placed(cfg, w) && w.inFlight == v.inFlight && w.counts == v.counts
            && Holdings(w) == Holdings(v) + {Payload(m)}
  {
    var w := StartDeferred(v, m, due).0;
    assert forall id | id in v.deferred :: id in w.deferred && w.deferred[id] == v.deferred[id];
    assert m.ID in w.deferred;
  }

  // ---- In-flight counts ----

  lemma SendCounts(v: View, m: Msg, client: int, now: int, timeout: int)
    requires CountsExact(v) && m.ID !in v.inFlight
    ensures CountsExact(Send(v, m, client, now, timeout))
  {
    var w := Send(v, m, client, now, timeout);
    forall c | c in w.counts ensures w.counts[c] == |OwnedBy(w, c)| {
      if c == client {
        assert OwnedBy(w, c) == OwnedBy(v, c) + {m.ID};
      } else {
        assert OwnedBy(w, c) == OwnedBy(v, c);
      }
    }
  }

  lemma LandedCounts(v: View, id: MessageID, w: View)
    requires CountsExact(v) && id in v.inFlight
    requires w.inFlight == v.inFlight - {id} && w.counts == Counted(v, v.inFlight[id].client, -1).counts
    ensures CountsExact(w)
  {
    var client := v.inFlight[id].client;
    forall c | c in w.counts ensures w.counts[c] == |OwnedBy(w, c)| {
      if c == client {
        assert OwnedBy(w, c) == OwnedBy(v, c) - {id};
      } else {
        assert OwnedBy(w, c) == OwnedBy(v, c);
      }
    }
  }

  /** Only the flights and the counts matter to the counts. */
  lemma CountsLocal(v: View, w: View)
    requires CountsExact(v) && w.inFlight == v.inFlight && w.counts == v.counts
    ensures CountsExact(w)
  {
    assert forall c :: OwnedBy(w, c) == OwnedBy(v, c);
  }

  // ---- Whole operations ----

  lemma SendKeeps(cfg: Config, v: View, m: Msg, client: int, now: int, timeout: int)
    requires Consistent(cfg, v) && Free(v, m.ID) && Fits(cfg, m)
    ensures var w := Send(v, m, client, now, timeout);
            && Consistent(cfg, w) && Holdings(w) == Holdings(v) + {Payload(m)}
            && w.inFlight == v.inFlight[m.ID := Flight(Attempted(m), client, now, now + timeout)]
  {
    StartInFlightPlaces(cfg, v, Attempted(m), client, now, timeout);
    SendCounts(v, m, client, now, timeout);
  }

  lemma DeliverMemoryKeeps(cfg: Config, v: View, client: int, now: int, timeout: int)
    requires Consistent(cfg, v) && v.memory != []
    ensures var w := DeliverMemory(v, client, now, timeout);
            && Consistent(cfg, w) && Holdings(w) == Holdings(v)
            && Owned(w, client, v.memory[0].ID) == Ok
  {
    var u := v.(memory := v.memory[1..]);
    MemoryHead(cfg, v);
    CountsLocal(v, u);
    SendKeeps(cfg, u, v.memory[0], client, now, timeout);
  }

  lemma DeliverBackendKeeps(cfg: Config, v: View, client: int, now: int, timeout: int)
    requires Consistent(cfg, v) && v.backend != []
    ensures var w := DeliverBackend(v, client, now, timeout);
            && Consistent(cfg, w) && Holdings(w) == Holdings(v)
            && Owned(w, client, v.backend[0].ID) == Ok
  {
    var u := v.(backend := v.backend[1..]);
    BackendHead(cfg, v);
    CountsLocal(v, u);
    SendKeeps(cfg, u, v.backend[0], client, now, timeout);
  }

  /** A message leaves the channel only when the client that owns it finishes it. */
  lemma FinKeeps(cfg: Config, v: View, client: int, id: MessageID)
    requires Consistent(cfg, v)
    ensures var (w, r) := Fin(v, client, id);
            && Consistent(cfg, w)
            && (r == Ok <==> id in v.inFlight && v.inFlight[id].client == client)
            && (r == Ok ==> Free(w, id) && Holdings(w) == Holdings(v) - {Payload(v.inFlight[id].msg)})
            && (r != Ok ==> w == v)
  {
    var (w, r) := Fin(v, client, id);
    if r == Ok {
      LandedPlaces(cfg, v, id);
      LandedCounts(v, id, w);
      FreePayloadAbsent(cfg, Landed(v, id), v.inFlight[id].msg);
      assert Holdings(w) == Holdings(Landed(v, id));
    }
  }

  /** Only the four places matter to where messages are. */
  lemma PlacesLocal(cfg: Config, v: View, m: Msg, u: View, w: View)
    requires Placed(cfg, v) && TakenOut(cfg, v, m, u)
    requires w == u.(counts := w.counts, requeueCount := w.requeueCount, timeoutCount := w.timeoutCount)
    ensures TakenOut(cfg, v, m, w)
  {
  }

  lemma CountedPlaces(cfg: Config, v: View, client: int, change: int)
    requires Placed(cfg, v)
    ensures Placed(cfg, Counted(v, client, change)) && Holdings(Counted(v, client, change)) == Holdings(v)
  {
  }

  lemma RequeuedFields(cfg: Config, v: View, id: MessageID, timeout: int, due: int)
    requires id in v.inFlight
    ensures var x := Requeued(cfg, v, id, timeout, due);
            x.inFlight == v.inFlight - {id} && x.counts == v.counts
  {
    var w := Requeueing(v, id);
    assert w.inFlight == v.inFlight - {id} && w.counts == v.counts;
  }

  lemma RequeuedIsReq(cfg: Config, v: View, id: MessageID, timeout: int, due: int)
    requires Placed(cfg, v) && id in v.inFlight && !v.exiting
    ensures Req(cfg, v, v.inFlight[id].client, id, timeout, due)
         == (Counted(Requeued(cfg, v, id, timeout, due), v.inFlight[id].client, -1), Ok)
  {
  }

  /** A requeue that succeeds, before the client's count goes down. */
  function Requeued(cfg: Config, v: View, id: MessageID, timeout: int, due: int): View
    requires id in v.inFlight
  {
    if timeout != 0 then StartDeferred(Requeueing(v, id), v.inFlight[id].msg, due).0
    else Put(cfg, Requeueing(v, id), v.inFlight[id].msg).0
  }

  lemma PutBack(cfg: Config, v: View, m: Msg, w: View)
    requires Placed(cfg, v) && TakenOut(cfg, v, m, w)
    ensures Placed(cfg, Put(cfg, w, m).0) && Holdings(Put(cfg, w, m).0) == Holdings(v)
  {
    PutPlaces(cfg, w, m);
  }

  lemma DeferBack(cfg: Config, v: View, m: Msg, w: View, due: int)
    requires Placed(cfg, v) && TakenOut(cfg, v, m, w)
    ensures Placed(cfg, StartDeferred(w, m, due).0) && Holdings(StartDeferred(w, m, due).0) == Holdings(v)
  {
    StartDeferredPlaces(cfg, w, m, due);
  }

  lemma RequeuedPlaces(cfg: Config, v: View, id: MessageID, timeout: int, due: int)
    requires Placed(cfg, v) && id in v.inFlight && !v.exiting
    ensures var x := Requeued(cfg, v, id, timeout, due);
            Placed(cfg, x) && Holdings(x) == Holdings(v)
  {
    var m, w := v.inFlight[id].msg, Requeueing(v, id);
    assert TakenOut(cfg, v, m, w) by {
      LandedPlaces(cfg, v, id);
      PlacesLocal(cfg, v, m, Landed(v, id), w);
    }
    if timeout != 0 {
      DeferBack(cfg, v, m, w, due);
    } else {
      PutBack(cfg, v, m, w);
    }
  }

  lemma ReqKeeps(cfg: Config, v: View, client: int, id: MessageID, timeout: int, due: int)
    requires Consistent(cfg, v) && !v.exiting
    ensures var (w, r) := Req(cfg, v, client, id, timeout, due);
            && Consistent(cfg, w) && Holdings(w) == Holdings(v)
            && (r == Ok <==> id in v.inFlight && v.inFlight[id].client == client)
            && (r == Ok ==> id !in w.inFlight) && (r != Ok ==> w == v)
  {
    if Owned(v, client, id) == Ok {
      var x := Requeued(cfg, v, id, timeout, due);
      RequeuedPlaces(cfg, v, id, timeout, due);
      RequeuedFields(cfg, v, id, timeout, due);
      RequeuedIsReq(cfg, v, id, timeout, due);
      CountedPlaces(cfg, x, client, -1);
      LandedCounts(v, id, Counted(x, client, -1));
    }
  }

  /**
   Touching moves only the deadline: by `timeout` from now, but never past the longest the message may
   stay in flight. Owner, delivery time and all other messages stay as they are.
   */
  lemma TouchKeeps(cfg: Config, v: View, client: int, id: MessageID, now: int, timeout: int)
    requires Consistent(cfg, v)
    ensures var (w, r) := Touch(cfg, v, client, id, now, timeout);
            && Consistent(cfg, w) && Holdings(w) == Holdings(v)
            && (r == Ok <==> id in v.inFlight && v.inFlight[id].client == client)
            && w == v.(inFlight := w.inFlight) && w.inFlight.Keys == v.inFlight.Keys
            && (forall x | x in v.inFlight && (x != id || r != Ok) :: w.inFlight[x] == v.inFlight[x])
            && (r == Ok ==>
                  var f, g := v.inFlight[id], w.inFlight[id];
                  && g == f.(deadline := g.deadline)
                  && g.deadline <= f.delivered + cfg.maxMsgTimeout && g.deadline <= now + timeout
                  && (g.deadline == f.delivered + cfg.maxMsgTimeout || g.deadline == now + timeout))
  {
    var (w, r) := Touch(cfg, v, client, id, now, timeout);
    if r == Ok {
      assert w.inFlight.Keys == v.inFlight.Keys;
      assert forall c :: OwnedBy(w, c) == OwnedBy(v, c);
      assert forall x | x in v.inFlight :: w.inFlight[x].msg == v.inFlight[x].msg;
      assert FlightPayloads(w) == FlightPayloads(v);
    }
  }

  lemma ExpireFields(cfg: Config, v: View, id: MessageID)
    requires id in v.inFlight
    ensures var w := Expire(cfg, v, id);
            && w.inFlight == v.inFlight - {id} && w.deferred == v.deferred
            && w.counts == Counted(v, v.inFlight[id].client, -1).counts
            && w.timeoutCount == v.timeoutCount + 1 && w.exiting == v.exiting
  {
  }

  lemma ExpirePlaces(cfg: Config, v: View, id: MessageID)
    requires Placed(cfg, v) && id in v.inFlight
    ensures var w := Expire(cfg, v, id);
            Placed(cfg, w) && Holdings(w) == Holdings(v)
  {
    var m := v.inFlight[id].msg;
    LandedPlaces(cfg, v, id);
    PlacesLocal(cfg, v, m, Landed(v, id), TimedOut(v, id));
    PutPlaces(cfg, TimedOut(v, id), m);
  }

  lemma ExpireKeeps(cfg: Config, v: View, id: MessageID)
    requires Consistent(cfg, v) && id in v.inFlight
    ensures var w := Expire(cfg, v, id);
            && Consistent(cfg, w) && Holdings(w) == Holdings(v)
            && w.inFlight == v.inFlight - {id} && w.timeoutCount == v.timeoutCount + 1
            && w.deferred == v.deferred && w.exiting == v.exiting
  {
    ExpireFields(cfg, v, id);
    ExpirePlaces(cfg, v, id);
    LandedCounts(v, id, Expire(cfg, v, id));
  }

  lemma ReleaseKeeps(cfg: Config, v: View, id: MessageID)
    requires Consistent(cfg, v) && id in v.deferred
    ensures var w := Release(cfg, v, id);
            && Consistent(cfg, w) && Holdings(w) == Holdings(v)
            && w.deferred == v.deferred - {id} && w.inFlight == v.inFlight && w.exiting == v.exiting
  {
    var m := v.deferred[id].msg;
    var u := v.(deferred := v.deferred - {id});
    UndeferredPlaces(cfg, v, id);
    PutPlaces(cfg, u, m);
    CountsLocal(v, Release(cfg, v, id));
  }

  lemma MinusOneMore<K, V>(m: map<K, V>, xs: set<K>, x: K)
    ensures m - (xs + {x}) == m - xs - {x}
  {
  }

  lemma LastOf(order: seq<MessageID>)
    requires order != [] && NoDuplicates(order)
    ensures var before, id := order[..|order| - 1], order[|order| - 1];
            && NoDuplicates(before) && id !in before && id in order
            && Members(order) == Members(before) + {id}
            && (forall x | x in before :: x in order)
  {
    assert order == order[..|order| - 1] + [order[|order| - 1]];
  }

  lemma {:induction false} ExpireAllKeeps(cfg: Config, v: View, order: seq<MessageID>)
    requires Consistent(cfg, v)
    requires NoDuplicates(order) && forall id | id in order :: id in v.inFlight
    ensures var w := ExpireAll(cfg, v, order);
            && Consistent(cfg, w) && Holdings(w) == Holdings(v)
            && w.inFlight == v.inFlight - Members(order) && w.timeoutCount == v.timeoutCount + |order|
            && w.deferred == v.deferred && w.exiting == v.exiting
    decreases |order|
  {
    if order != [] {
      var before, id := order[..|order| - 1], order[|order| - 1];
      LastOf(order);
      ExpireAllKeeps(cfg, v, before);
      var w := ExpireAll(cfg, v, before);
      assert id in w.inFlight;
      ExpireKeeps(cfg, w, id);
      MinusOneMore(v.inFlight, Members(before), id);
    }
  }

  lemma {:induction false} ReleaseAllKeeps(cfg: Config, v: View, order: seq<MessageID>)
    requires Consistent(cfg, v)
    requires NoDuplicates(order) && forall id | id in order :: id in v.deferred
    ensures var w := ReleaseAll(cfg, v, order);
            && Consistent(cfg, w) && Holdings(w) == Holdings(v)
            && w.deferred == v.deferred - Members(order)
            && w.inFlight == v.inFlight && w.exiting == v.exiting
    decreases |order|
  {
    if order != [] {
      var before, id := order[..|order| - 1], order[|order| - 1];
      LastOf(order);
      ReleaseAllKeeps(cfg, v, before);
      var w := ReleaseAll(cfg, v, before);
      assert id in w.deferred;
      ReleaseKeeps(cfg, w, id);
      MinusOneMore(v.deferred, Members(before), id);
    }
  }

  /** A timeout scan requeues exactly the expired messages and leaves exactly the others in flight. */
  lemma ScanIsExact(cfg: Config, v: View, t: int, order: seq<MessageID>)
    requires Consistent(cfg, v) && ExpiryOrder(v, t, order)
    ensures var w := ExpireAll(cfg, v, order);
            && Consistent(cfg, w) && Holdings(w) == Holdings(v)
            && w.inFlight == (map id | id in v.inFlight && v.inFlight[id].deadline > t :: v.inFlight[id])
            && w.timeoutCount == v.timeoutCount + |order|
            && w.exiting == v.exiting
  {
    ExpireAllKeeps(cfg, v, order);
  }

  lemma DueScanIsExact(cfg: Config, v: View, t: int, order: seq<MessageID>)
    requires Consistent(cfg, v) && DueOrder(v, t, order)
    ensures var w := ReleaseAll(cfg, v, order);
            && Consistent(cfg, w) && Holdings(w) == Holdings(v)
            && w.deferred == (map id | id in v.deferred && v.deferred[id].due > t :: v.deferred[id])
            && w.exiting == v.exiting
  {
    ReleaseAllKeeps(cfg, v, order);
  }

  // ---- What a scan queues, and in which order ----

  function FlightMessages(v: View, order: seq<MessageID>): (ms: seq<Msg>)
    requires forall id | id in order :: id in v.inFlight
    ensures |ms| == |order|
  {
    seq(|order|, i requires 0 <= i < |order| => assert order[i] in order; v.inFlight[order[i]].msg)
  }

  function DeferredMessages(v: View, order: seq<MessageID>): (ms: seq<Msg>)
    requires forall id | id in order :: id in v.deferred
    ensures |ms| == |order|
  {
    seq(|order|, i requires 0 <= i < |order| => assert order[i] in order; v.deferred[order[i]].msg)
  }

  /** `ms` queued in order: as many in memory as there is room, the rest in the backend. */
  ghost predicate QueuedInOrder(cfg: Config, v: View, ms: seq<Msg>, w: View) {
    var room := if |v.memory| < cfg.memQueueSize then cfg.memQueueSize - |v.memory| else 0;
    var k := if |ms| <= room then |ms| else room;
    w.memory == v.memory + ms[..k] && w.backend == v.backend + ms[k..]
  }

  lemma QueueOneMore(cfg: Config, v: View, ms: seq<Msg>, w: View, m: Msg)
    requires QueuedInOrder(cfg, v, ms, w) && Fits(cfg, m)
    ensures QueuedInOrder(cfg, v, ms + [m], Put(cfg, w, m).0)
  {
    var room := if |v.memory| < cfg.memQueueSize then cfg.memQueueSize - |v.memory| else 0;
    if |ms| < room {
      assert ms[..|ms|] == ms && ms[|ms|..] == [];
      assert (ms + [m])[..|ms| + 1] == ms + [m] && (ms + [m])[|ms| + 1..] == [];
      assert v.memory + (ms + [m]) == v.memory + ms + [m];
    } else {
      assert (ms + [m])[..room] == ms[..room];
      assert (ms + [m])[room..] == ms[room..] + [m];
    }
  }

  lemma FlightsSnoc(v: View, order: seq<MessageID>)
    requires order != [] && forall id | id in order :: id in v.inFlight
    ensures var before, id := order[..|order| - 1], order[|order| - 1];
            && id in v.inFlight && (forall x | x in before :: x in v.inFlight)
            && FlightMessages(v, order) == FlightMessages(v, before) + [v.inFlight[id].msg]
  {
  }

  /** The expired messages are queued earliest deadline first, none refused. */
  lemma {:induction false} ExpiredQueueInOrder(cfg: Config, v: View, order: seq<MessageID>)
    requires Consistent(cfg, v)
    requires NoDuplicates(order) && forall id | id in order :: id in v.inFlight
    ensures QueuedInOrder(cfg, v, FlightMessages(v, order), ExpireAll(cfg, v, order))
    decreases |order|
  {
    if order != [] {
      var before, id := order[..|order| - 1], order[|order| - 1];
      LastOf(order);
      ExpiredQueueInOrder(cfg, v, before);
      ExpireAllKeeps(cfg, v, before);
      var w := ExpireAll(cfg, v, before);
      assert id in w.inFlight && w.inFlight[id] == v.inFlight[id];
      FlightsSnoc(v, order);
      assert TimedOut(w, id).memory == w.memory && TimedOut(w, id).backend == w.backend;
      QueueOneMore(cfg, v, FlightMessages(v, before), TimedOut(w, id), v.inFlight[id].msg);
    }
  }

  lemma DeferredSnoc(v: View, order: seq<MessageID>)
    requires order != [] && forall id | id in order :: id in v.deferred
    ensures var before, id := order[..|order| - 1], order[|order| - 1];
            && id in v.deferred && (forall x | x in before :: x in v.deferred)
            && DeferredMessages(v, order) == DeferredMessages(v, before) + [v.deferred[id].msg]
  {
  }

  /** What is due is queued earliest first, none refused. */
  lemma {:induction false} DueQueueInOrder(cfg: Config, v: View, order: seq<MessageID>)
    requires Consistent(cfg, v)
    requires NoDuplicates(order) && forall id | id in order :: id in v.deferred
    ensures QueuedInOrder(cfg, v, DeferredMessages(v, order), ReleaseAll(cfg, v, order))
    decreases |order|
  {
    if order != [] {
      var before, id := order[..|order| - 1], order[|order| - 1];
      LastOf(order);
      DueQueueInOrder(cfg, v, before);
      ReleaseAllKeeps(cfg, v, before);
      var w := ReleaseAll(cfg, v, before);
      assert id in w.deferred && w.deferred[id] == v.deferred[id];
      DeferredSnoc(v, order);
      QueueOneMore(cfg, v, DeferredMessages(v, before), w.(deferred := w.deferred - {id}), v.deferred[id].msg);
    }
  }

  // ---- Shutdown ----

  /** Writing messages to the backend one by one; one it refuses is dropped. */
  function FlushTo(cfg: Config, backend: seq<Msg>, ms: seq<Msg>): seq<Msg>
    decreases |ms|
  {
    if ms == [] then backend
    else
      var accepted := AcceptsSize(cfg.lim, MIN_VALID_MSG_LENGTH + |ms[0].Body|);
      FlushTo(cfg, if accepted then backend + [ms[0]] else backend, ms[1..])
  }

  lemma {:induction false} FlushKeepsAll(cfg: Config, backend: seq<Msg>, ms: seq<Msg>)
    requires forall m | m in ms :: Fits(cfg, m)
    ensures FlushTo(cfg, backend, ms) == backend + ms
    decreases |ms|
  {
    if ms == [] {
      assert backend + ms == backend;
    } else {
      assert ms[0] in ms;
      FlushKeepsAll(cfg, backend + [ms[0]], ms[1..]);
      assert backend + ms == backend + [ms[0]] + ms[1..];
    }
  }

  /**
   Everything goes to the backend: memory, then what is in flight, then what is deferred, in any order of the two
   maps.
   */
  function Flushed(cfg: Config, v: View, flights: seq<MessageID>, deferrals: seq<MessageID>): View
    requires forall id | id in flights :: id in v.inFlight
    requires forall id | id in deferrals :: id in v.deferred
  {
    var b := FlushTo(cfg, v.backend, v.memory);
    var c := FlushTo(cfg, b, FlightMessages(v, flights));
    v.(memory := [], backend := FlushTo(cfg, c, DeferredMessages(v, deferrals)))
  }

  function Closed(cfg: Config, v: View, flights: seq<MessageID>, deferrals: seq<MessageID>): (View, Outcome)
    requires forall id | id in flights :: id in v.inFlight
    requires forall id | id in deferrals :: id in v.deferred
  {
    if v.exiting then (v, Exiting) else (Flushed(cfg, v.(exiting := true), flights, deferrals), Ok)
  }

  /** The messages a channel holds, attempts included. */
  ghost function AllMessages(v: View): set<Msg> {
    Members(v.memory) + Members(v.backend)
      + (set id | id in v.inFlight :: v.inFlight[id].msg) + (set id | id in v.deferred :: v.deferred[id].msg)
  }

  /** After closing, the backend has every message exactly once, unchanged. */
  lemma ShutdownKeepsAll(cfg: Config, v: View, flights: seq<MessageID>, deferrals: seq<MessageID>)
    requires Placed(cfg, v) && !v.exiting
    requires NoDuplicates(flights) && Members(flights) == v.inFlight.Keys
    requires NoDuplicates(deferrals) && Members(deferrals) == v.deferred.Keys
    ensures forall id | id in flights :: id in v.inFlight
    ensures forall id | id in deferrals :: id in v.deferred
    ensures var (w, r) := Closed(cfg, v, flights, deferrals);
            && r == Ok
            && w.backend == v.backend + v.memory + FlightMessages(v, flights) + DeferredMessages(v, deferrals)
            && Members(w.backend) == AllMessages(v)
            && DistinctIDs(w.backend)
  {
    assert forall id | id in flights :: id in Members(flights);
    assert forall id | id in deferrals :: id in Members(deferrals);
    var fs, ds := FlightMessages(v, flights), DeferredMessages(v, deferrals);
    FlushKeepsAll(cfg, v.backend, v.memory);
    FlushKeepsAll(cfg, v.backend + v.memory, fs);
    FlushKeepsAll(cfg, v.backend + v.memory + fs, ds);
    FlightsDistinct(cfg, v, flights);
    DeferralsDistinct(cfg, v, deferrals);
    JoinAllDistinct(v.backend, v.memory, fs, ds);
  }

  lemma JoinAllDistinct(a: seq<Msg>, b: seq<Msg>, c: seq<Msg>, d: seq<Msg>)
    requires DistinctIDs(a) && DistinctIDs(b) && DistinctIDs(c) && DistinctIDs(d)
    requires IDs(a) !! IDs(b) !! IDs(c) !! IDs(d)
    ensures DistinctIDs(a + b + c + d)
    ensures Members(a + b + c + d) == Members(a) + Members(b) + Members(c) + Members(d)
  {
    JoinDistinct(a, b);
    JoinDistinct(a + b, c);
    JoinDistinct(a + b + c, d);
  }

  lemma FlightsDistinct(cfg: Config, v: View, flights: seq<MessageID>)
    requires Placed(cfg, v) && NoDuplicates(flights) && Members(flights) == v.inFlight.Keys
    requires forall id | id in flights :: id in v.inFlight
    ensures var ms := FlightMessages(v, flights);
            && DistinctIDs(ms) && IDs(ms) == v.inFlight.Keys
            && Members(ms) == set id | id in v.inFlight :: v.inFlight[id].msg
  {
    var ms := FlightMessages(v, flights);
    forall id | id in v.inFlight ensures v.inFlight[id].msg in ms {
      assert id in Members(flights);
      var i :| 0 <= i < |flights| && flights[i] == id;
      assert ms[i] == v.inFlight[id].msg;
    }
    assert forall id | id in v.inFlight :: v.inFlight[id].msg.ID == id;
    assert forall i | 0 <= i < |ms| :: flights[i] in flights && ms[i].ID == flights[i];
  }

  lemma DeferralsDistinct(cfg: Config, v: View, deferrals: seq<MessageID>)
    requires Placed(cfg, v) && NoDuplicates(deferrals) && Members(deferrals) == v.deferred.Keys
    requires forall id | id in deferrals :: id in v.deferred
    ensures var ms := DeferredMessages(v, deferrals);
            && DistinctIDs(ms) && IDs(ms) == v.deferred.Keys
            && Members(ms) == set id | id in v.deferred :: v.deferred[id].msg
  {
    var ms := DeferredMessages(v, deferrals);
    forall id | id in v.deferred ensures v.deferred[id].msg in ms {
      assert id in Members(deferrals);
      var i :| 0 <= i < |deferrals| && deferrals[i] == id;
      assert ms[i] == v.deferred[id].msg;
    }
    assert forall id | id in v.deferred :: v.deferred[id].msg.ID == id;
    assert forall i | 0 <= i < |ms| :: deferrals[i] in deferrals && ms[i].ID == deferrals[i];
  }

  lemma JoinDistinct(a: seq<Msg>, b: seq<Msg>)
    requires DistinctIDs(a) && DistinctIDs(b) && IDs(a) !! IDs(b)
    ensures DistinctIDs(a + b) && IDs(a + b) == IDs(a) + IDs(b) && Members(a + b) == Members(a) + Members(b)
  {
    assert forall m | m in a :: m.ID in IDs(a);
    assert forall m | m in b :: m.ID in IDs(b);
    assert forall m :: m in a + b <==> m in a || m in b;
  }

  /**
   A requeue of a message that was in flight when the channel was closed: whatever comes of it, the
   backend has the message and is not changed. How requeues fare that run while the channel closes is
   the subject of `ChannelExit`.
   */
  lemma RequeueAfterClose(cfg: Config, v: View, flights: seq<MessageID>, deferrals: seq<MessageID>,
                          client: int, id: MessageID, timeout: int, due: int)
    requires Placed(cfg, v) && !v.exiting && id in v.inFlight && v.inFlight[id].client == client
    requires NoDuplicates(flights) && Members(flights) == v.inFlight.Keys
    requires NoDuplicates(deferrals) && Members(deferrals) == v.deferred.Keys
    ensures forall x | x in flights :: x in v.inFlight
    ensures forall x | x in deferrals :: x in v.deferred
    ensures var closed := Closed(cfg, v, flights, deferrals).0;
            var (w, r) := Req(cfg, closed, client, id, timeout, due);
            && v.inFlight[id].msg in closed.backend && w.backend == closed.backend
            && r == (if timeout == 0 then Exiting else Ok)
            && id !in w.inFlight
  {
    ShutdownKeepsAll(cfg, v, flights, deferrals);
    var closed := Closed(cfg, v, flights, deferrals).0;
    assert v.inFlight[id].msg in AllMessages(v);
    assert v.inFlight[id].msg in Members(closed.backend);
  }

  // ---- How a scan builds up its order ----

  /** `order` is the start of an expiry order: what is left is due no earlier than what was taken. */
  ghost predicate ExpiryPrefix(v: View, t: int, order: seq<MessageID>) {
    && NoDuplicates(order)
    && (forall id | id in order :: id in v.inFlight && v.inFlight[id].deadline <= t)
    && (forall i, j | 0 <= i < j < |order| :: v.inFlight[order[i]].deadline <= v.inFlight[order[j]].deadline)
    && (forall i, id | 0 <= i < |order| && id in v.inFlight && id !in order ::
          v.inFlight[order[i]].deadline <= v.inFlight[id].deadline)
  }

  /** `id` is the message in flight whose deadline is first, and it has passed at `t`. */
  ghost predicate FirstExpired(v: View, t: int, id: MessageID) {
    && id in v.inFlight && v.inFlight[id].deadline <= t
    && forall k | k in v.inFlight :: v.inFlight[id].deadline <= v.inFlight[k].deadline
  }

  ghost predicate NoneExpired(v: View, t: int) {
    forall k | k in v.inFlight :: v.inFlight[k].deadline > t
  }

  lemma {:induction false} ExpireAllFlights(cfg: Config, v: View, order: seq<MessageID>)
    requires NoDuplicates(order) && forall id | id in order :: id in v.inFlight
    ensures ExpireAll(cfg, v, order).inFlight == v.inFlight - Members(order)
    decreases |order|
  {
    if order != [] {
      var before, id := order[..|order| - 1], order[|order| - 1];
      LastOf(order);
      ExpireAllFlights(cfg, v, before);
      ExpireFields(cfg, ExpireAll(cfg, v, before), id);
      MinusOneMore(v.inFlight, Members(before), id);
    }
  }

  lemma ExpiryPrefixGrows(v: View, t: int, order: seq<MessageID>, id: MessageID)
    requires ExpiryPrefix(v, t, order)
    requires id in v.inFlight && id !in order && v.inFlight[id].deadline <= t
    requires forall k | k in v.inFlight && k !in order :: v.inFlight[id].deadline <= v.inFlight[k].deadline
    ensures ExpiryPrefix(v, t, order + [id])
  {
    var longer := order + [id];
    assert forall i | 0 <= i < |order| :: longer[i] == order[i];
  }

  lemma OneFewer<K, V>(m: map<K, V>, k: K)
    requires k in m
    ensures |m - {k}| < |m|
  {
    assert (m - {k}).Keys == m.Keys - {k};
  }

  lemma ExpireShrinks(cfg: Config, v: View, id: MessageID)
    requires id in v.inFlight
    ensures |Expire(cfg, v, id).inFlight| < |v.inFlight|
  {
    ExpireFields(cfg, v, id);
    OneFewer(v.inFlight, id);
  }

  lemma ReleaseShrinks(cfg: Config, v: View, id: MessageID)
    requires id in v.deferred
    ensures |Release(cfg, v, id).deferred| < |v.deferred|
  {
    OneFewer(v.deferred, id);
  }

  lemma ScanStep(cfg: Config, v: View, t: int, order: seq<MessageID>, id: MessageID)
    requires ExpiryPrefix(v, t, order) && FirstExpired(ExpireAll(cfg, v, order), t, id)
    ensures ExpiryPrefix(v, t, order + [id])
    ensures ExpireAll(cfg, v, order + [id]) == Expire(cfg, ExpireAll(cfg, v, order), id)
  {
    ExpireAllFlights(cfg, v, order);
    var left := ExpireAll(cfg, v, order).inFlight;
    assert left == v.inFlight - Members(order);
    assert forall k | k in v.inFlight && k !in order :: k in left && left[k] == v.inFlight[k];
    ExpiryPrefixGrows(v, t, order, id);
    assert (order + [id])[..|order|] == order;
  }

  lemma ScanEnd(cfg: Config, v: View, t: int, order: seq<MessageID>)
    requires ExpiryPrefix(v, t, order) && NoneExpired(ExpireAll(cfg, v, order), t)
    ensures ExpiryOrder(v, t, order)
  {
    ExpireAllFlights(cfg, v, order);
    var w := ExpireAll(cfg, v, order);
    assert forall id | id in v.inFlight && id !in order :: id in w.inFlight && w.inFlight[id] == v.inFlight[id];
  }

  ghost predicate DuePrefix(v: View, t: int, order: seq<MessageID>) {
    && NoDuplicates(order)
    && (forall id | id in order :: id in v.deferred && v.deferred[id].due <= t)
    && (forall i, j | 0 <= i < j < |order| :: v.deferred[order[i]].due <= v.deferred[order[j]].due)
    && (forall i, id | 0 <= i < |order| && id in v.deferred && id !in order ::
          v.deferred[order[i]].due <= v.deferred[id].due)
  }

  ghost predicate FirstDue(v: View, t: int, id: MessageID) {
    && id in v.deferred && v.deferred[id].due <= t
    && forall k | k in v.deferred :: v.deferred[id].due <= v.deferred[k].due
  }

  ghost predicate NoneDue(v: View, t: int) {
    forall k | k in v.deferred :: v.deferred[k].due > t
  }

  lemma {:induction false} ReleaseAllDeferrals(cfg: Config, v: View, order: seq<MessageID>)
    requires NoDuplicates(order) && forall id | id in order :: id in v.deferred
    ensures ReleaseAll(cfg, v, order).deferred == v.deferred - Members(order)
    decreases |order|
  {
    if order != [] {
      var before, id := order[..|order| - 1], order[|order| - 1];
      LastOf(order);
      ReleaseAllDeferrals(cfg, v, before);
      MinusOneMore(v.deferred, Members(before), id);
    }
  }

  lemma DuePrefixGrows(v: View, t: int, order: seq<MessageID>, id: MessageID)
    requires DuePrefix(v, t, order)
    requires id in v.deferred && id !in order && v.deferred[id].due <= t
    requires forall k | k in v.deferred && k !in order :: v.deferred[id].due <= v.deferred[k].due
    ensures DuePrefix(v, t, order + [id])
  {
    var longer := order + [id];
    assert forall i | 0 <= i < |order| :: longer[i] == order[i];
  }

  lemma DueScanStep(cfg: Config, v: View, t: int, order: seq<MessageID>, id: MessageID)
    requires DuePrefix(v, t, order) && FirstDue(ReleaseAll(cfg, v, order), t, id)
    ensures DuePrefix(v, t, order + [id])
    ensures ReleaseAll(cfg, v, order + [id]) == Release(cfg, ReleaseAll(cfg, v, order), id)
  {
    ReleaseAllDeferrals(cfg, v, order);
    var left := ReleaseAll(cfg, v, order).deferred;
    assert left == v.deferred - Members(order);
    assert forall k | k in v.deferred && k !in order :: k in left && left[k] == v.deferred[k];
    DuePrefixGrows(v, t, order, id);
    assert (order + [id])[..|order|] == order;
  }

  lemma DueScanEnd(cfg: Config, v: View, t: int, order: seq<MessageID>)
    requires DuePrefix(v, t, order) && NoneDue(ReleaseAll(cfg, v, order), t)
    ensures DueOrder(v, t, order)
  {
    ReleaseAllDeferrals(cfg, v, order);
    var w := ReleaseAll(cfg, v, order);
    assert forall id | id in v.deferred && id !in order :: id in w.deferred && w.deferred[id] == v.deferred[id];
  }

  lemma FlushSnoc(cfg: Config, backend: seq<Msg>, ms: seq<Msg>, m: Msg)
    ensures FlushTo(cfg, backend, ms + [m]) == FlushTo(cfg, FlushTo(cfg, backend, ms), [m])
    decreases |ms|
  {
    if ms == [] {
      assert ms + [m] == [m];
    } else {
      var b := if AcceptsSize(cfg.lim, MIN_VALID_MSG_LENGTH + |ms[0].Body|) then backend + [ms[0]] else backend;
      FlushSnoc(cfg, b, ms[1..], m);
      assert (ms + [m])[1..] == ms[1..] + [m];
    }
  }

  lemma FlushFlightsStep(cfg: Config, v: View, left: set<MessageID>, b: seq<Msg>, order: seq<MessageID>, id: MessageID)
    requires NoDuplicates(order) && Members(order) == v.inFlight.Keys - left && id in left && left <= v.inFlight.Keys
    ensures var longer := order + [id];
            && NoDuplicates(longer) && Members(longer) == v.inFlight.Keys - (left - {id})
            && (forall x | x in order :: x in v.inFlight) && (forall x | x in longer :: x in v.inFlight)
            && FlushTo(cfg, b, FlightMessages(v, longer))
                  == FlushTo(cfg, FlushTo(cfg, b, FlightMessages(v, order)), [v.inFlight[id].msg])
  {
    var longer := order + [id];
    assert forall x | x in order :: x in Members(order);
    assert forall x :: x in longer <==> x in Members(order) || x == id;
    FlushSnoc(cfg, b, FlightMessages(v, order), v.inFlight[id].msg);
    assert FlightMessages(v, longer) == FlightMessages(v, order) + [v.inFlight[id].msg];
  }

  lemma FlushDeferralsStep(cfg: Config, v: View, left: set<MessageID>, b: seq<Msg>, order: seq<MessageID>,
        id: MessageID)
    requires NoDuplicates(order) && Members(order) == v.deferred.Keys - left && id in left && left <= v.deferred.Keys
    ensures var longer := order + [id];
            && NoDuplicates(longer) && Members(longer) == v.deferred.Keys - (left - {id})
            && (forall x | x in order :: x in v.deferred) && (forall x | x in longer :: x in v.deferred)
            && FlushTo(cfg, b, DeferredMessages(v, longer))
                  == FlushTo(cfg, FlushTo(cfg, b, DeferredMessages(v, order)), [v.deferred[id].msg])
  {
    var longer := order + [id];
    assert forall x | x in order :: x in Members(order);
    assert forall x :: x in longer <==> x in Members(order) || x == id;
    FlushSnoc(cfg, b, DeferredMessages(v, order), v.deferred[id].msg);
    assert DeferredMessages(v, longer) == DeferredMessages(v, order) + [v.deferred[id].msg];
  }

  // ---- Runs ----

  datatype Op =
    | PutOp(m: Msg)
    | DeferOp(m: Msg, due: int)
    | SendMemory(client: int, now: int, timeout: int)
    | SendBackend(client: int, now: int, timeout: int)
    | FinOp(client: int, id: MessageID)
    | ReqOp(client: int, id: MessageID, timeout: int, due: int)
    | TouchOp(client: int, id: MessageID, now: int, timeout: int)
    | TimeoutScan(t: int, expired: seq<MessageID>)
    | DeferredScan(t: int, dueNow: seq<MessageID>)
    | Attach(client: int)
    | Detach(client: int)

  /** The operations that only move messages from one place to another. */
  predicate IsMove(op: Op) {
    op.SendMemory? || op.SendBackend? || op.ReqOp? || op.TouchOp? || op.TimeoutScan? || op.DeferredScan?
  }

  ghost predicate MoveEnabled(v: View, op: Op) {
    match op
    case SendMemory(_, _, _) => v.memory != []
    case SendBackend(_, _, _) => v.backend != []
    case TimeoutScan(t, order) => ExpiryOrder(v, t, order)
    case DeferredScan(t, order) => DueOrder(v, t, order)
    case _ => true
  }

  ghost function Moved(cfg: Config, v: View, op: Op): View
    requires IsMove(op) && MoveEnabled(v, op)
  {
    match op
    case SendMemory(client, now, timeout) => DeliverMemory(v, client, now, timeout)
    case SendBackend(client, now, timeout) => DeliverBackend(v, client, now, timeout)
    case ReqOp(client, id, timeout, due) => Req(cfg, v, client, id, timeout, due).0
    case TouchOp(client, id, now, timeout) => Touch(cfg, v, client, id, now, timeout).0
    case TimeoutScan(_, order) => ExpireAll(cfg, v, order)
    case DeferredScan(_, order) => ReleaseAll(cfg, v, order)
  }

  lemma MovedKeeps(cfg: Config, v: View, op: Op)
    requires Consistent(cfg, v) && !v.exiting && IsMove(op) && MoveEnabled(v, op)
    ensures var w := Moved(cfg, v, op); Consistent(cfg, w) && Holdings(w) == Holdings(v)
  {
    match op
    case SendMemory(client, now, timeout) => DeliverMemoryKeeps(cfg, v, client, now, timeout);
    case SendBackend(client, now, timeout) => DeliverBackendKeeps(cfg, v, client, now, timeout);
    case ReqOp(client, id, timeout, due) => ReqKeeps(cfg, v, client, id, timeout, due);
    case TouchOp(client, id, now, timeout) => TouchKeeps(cfg, v, client, id, now, timeout);
    case TimeoutScan(t, order) => ScanIsExact(cfg, v, t, order);
    case DeferredScan(t, order) => DueScanIsExact(cfg, v, t, order);
  }

  lemma MovedRuns(cfg: Config, v: View, op: Op)
    requires Consistent(cfg, v) && !v.exiting && IsMove(op) && MoveEnabled(v, op)
    ensures !Moved(cfg, v, op).exiting
  {
    match op
    case TimeoutScan(t, order) => ScanIsExact(cfg, v, t, order);
    case DeferredScan(t, order) => DueScanIsExact(cfg, v, t, order);
    case _ =>
  }

  /** A channel with what was ever put in and finished. */
  datatype History = History(view: View, accepted: set<Msg>, finished: set<Msg>)

  function KnownIDs(h: History): set<MessageID> {
    set m | m in h.accepted :: m.ID
  }

  ghost predicate Enabled(cfg: Config, h: History, op: Op) {
    match op
    case PutOp(m) => Fits(cfg, m) && m.ID !in KnownIDs(h)
    case DeferOp(m, _) => Fits(cfg, m) && m.ID !in KnownIDs(h)
    case Attach(client) => client !in h.view.counts && OwnedBy(h.view, client) == {}
    case _ => MoveEnabled(h.view, op)
  }

  ghost function Next(cfg: Config, h: History, op: Op): History
    requires Enabled(cfg, h, op)
  {
    var v := h.view;
    match op
    case PutOp(m) => h.(view := PutMessage(cfg, v, m).0, accepted := h.accepted + {Payload(m)})
    case DeferOp(m, due) => h.(view := PutMessageDeferred(v, m, due), accepted := h.accepted + {Payload(m)})
    case FinOp(client, id) =>
      var (w, r) := Fin(v, client, id);
      h.(view := w, finished := if r == Ok then h.finished + {Payload(v.inFlight[id].msg)} else h.finished)
    case Attach(client) => h.(view := Attached(v, client))
    case Detach(client) => h.(view := Detached(v, client))
    case _ => h.(view := Moved(cfg, v, op))
  }

  /** What was accepted and not finished is held, in one place each, and nothing else is. */
  ghost predicate Conserved(cfg: Config, h: History) {
    Consistent(cfg, h.view) && !h.view.exiting && Balanced(h)
  }

  ghost predicate Balanced(h: History) {
    Balance(Holdings(h.view), h.accepted, h.finished)
  }

  ghost predicate Balance(held: set<Msg>, accepted: set<Msg>, finished: set<Msg>) {
    && finished <= accepted
    && held == accepted - finished
    && (forall m, n | m in accepted && n in accepted && m.ID == n.ID :: m == n)
  }

  lemma UnknownIsFree(cfg: Config, h: History, m: Msg)
    requires Conserved(cfg, h) && m.ID !in KnownIDs(h)
    ensures Free(h.view, m.ID)
  {
    var v := h.view;
    assert forall x | x in v.memory :: Payload(x) in Payloads(v.memory);
    assert forall x | x in v.backend :: Payload(x) in Payloads(v.backend);
    assert forall id | id in v.inFlight :: Payload(v.inFlight[id].msg) in FlightPayloads(v);
    assert forall id | id in v.deferred :: Payload(v.deferred[id].msg) in DeferredPayloads(v);
    assert forall p | p in Holdings(v) :: p.ID in KnownIDs(h);
  }

  lemma AcceptBalances(held: set<Msg>, accepted: set<Msg>, finished: set<Msg>, p: Msg)
    requires Balance(held, accepted, finished)
    requires forall m | m in accepted :: m.ID != p.ID
    ensures Balance(held + {p}, accepted + {p}, finished)
  {
  }

  lemma PutMessageKeeps(cfg: Config, v: View, m: Msg)
    requires Consistent(cfg, v) && !v.exiting && Free(v, m.ID) && Fits(cfg, m)
    ensures var w := PutMessage(cfg, v, m).0;
            Consistent(cfg, w) && !w.exiting && Holdings(w) == Holdings(v) + {Payload(m)}
  {
    var u := Put(cfg, v, m).0;
    PutPlaces(cfg, v, m);
    var w := PutMessage(cfg, v, m).0;
    assert w == u.(messageCount := u.messageCount + 1);
    CountsLocal(v, w);
  }

  lemma PutConserves(cfg: Config, h: History, m: Msg)
    requires Conserved(cfg, h) && Enabled(cfg, h, PutOp(m))
    ensures Conserved(cfg, Next(cfg, h, PutOp(m)))
  {
    UnknownIsFree(cfg, h, m);
    PutMessageKeeps(cfg, h.view, m);
    AcceptBalances(Holdings(h.view), h.accepted, h.finished, Payload(m));
  }

  lemma DeferConserves(cfg: Config, h: History, m: Msg, due: int)
    requires Conserved(cfg, h) && Enabled(cfg, h, DeferOp(m, due))
    ensures Conserved(cfg, Next(cfg, h, DeferOp(m, due)))
  {
    UnknownIsFree(cfg, h, m);
    var v := h.view.(messageCount := h.view.messageCount + 1);
    var w := PutMessageDeferred(h.view, m, due);
    StartDeferredPlaces(cfg, v, m, due);
    CountsLocal(h.view, w);
    AcceptBalances(Holdings(h.view), h.accepted, h.finished, Payload(m));
  }

  lemma FinConserves(cfg: Config, h: History, client: int, id: MessageID)
    requires Conserved(cfg, h)
    ensures Conserved(cfg, Next(cfg, h, FinOp(client, id)))
  {
    var v := h.view;
    FinKeeps(cfg, v, client, id);
    if Owned(v, client, id) == Ok {
      assert Payload(v.inFlight[id].msg) in FlightPayloads(v);
      FinBalances(Holdings(v), h.accepted, h.finished, Payload(v.inFlight[id].msg));
    }
  }

  lemma FinBalances(held: set<Msg>, accepted: set<Msg>, finished: set<Msg>, p: Msg)
    requires Balance(held, accepted, finished) && p in held
    ensures Balance(held - {p}, accepted, finished + {p})
  {
  }

  lemma AttachmentConserves(cfg: Config, h: History, op: Op)
    requires Conserved(cfg, h) && Enabled(cfg, h, op) && (op.Attach? || op.Detach?)
    ensures Conserved(cfg, Next(cfg, h, op))
  {
    var w := Next(cfg, h, op).view;
    assert forall c :: OwnedBy(w, c) == OwnedBy(h.view, c);
  }

  lemma MoveConserves(cfg: Config, h: History, op: Op)
    requires Conserved(cfg, h) && IsMove(op) && MoveEnabled(h.view, op)
    ensures Conserved(cfg, h.(view := Moved(cfg, h.view, op)))
  {
    MovedKeeps(cfg, h.view, op);
    MovedRuns(cfg, h.view, op);
  }

  lemma StepConserves(cfg: Config, h: History, op: Op)
    requires Conserved(cfg, h) && Enabled(cfg, h, op)
    ensures Conserved(cfg, Next(cfg, h, op))
  {
    match op
    case PutOp(m) => PutConserves(cfg, h, m);
    case DeferOp(m, due) => DeferConserves(cfg, h, m, due);
    case FinOp(client, id) => FinConserves(cfg, h, client, id);
    case Attach(client) => AttachmentConserves(cfg, h, op);
    case Detach(client) => AttachmentConserves(cfg, h, op);
    case _ => MoveConserves(cfg, h, op);
  }

  /** A channel that has just been made, over an empty backend. */
  const NEW_CHANNEL := History(View([], [], map[], map[], map[], 0, 0, 0, false), {}, {})

  lemma NewChannelConserves(cfg: Config)
    ensures Conserved(cfg, NEW_CHANNEL)
  {
  }

  /** `hs` is a run of the channel that takes the operations `ops`. */
  ghost predicate IsRun(cfg: Config, hs: seq<History>, ops: seq<Op>) {
    && |hs| == |ops| + 1
    && forall i | 0 <= i < |ops| :: Enabled(cfg, hs[i], ops[i]) && hs[i + 1] == Next(cfg, hs[i], ops[i])
  }

  /** In every state of every run each accepted message is in exactly one place until it is finished. */
  lemma {:induction false} RunConserves(cfg: Config, hs: seq<History>, ops: seq<Op>, i: nat)
    requires IsRun(cfg, hs, ops) && Conserved(cfg, hs[0])
    requires i < |hs|
    ensures Conserved(cfg, hs[i])
    decreases i
  {
    if i > 0 {
      RunConserves(cfg, hs, ops, i - 1);
      StepConserves(cfg, hs[i - 1], ops[i - 1]);
    }
  }
}

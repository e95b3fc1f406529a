/**
 The channel itself: messages in maps and heaps that point back at each other. Each method is
 one atomic step; what it does to the channel's messages is the operation of `ChannelSpec`.
 */
module Channel {
  import opened Bytes
  import opened BackendQueue
  import opened Messages
  import opened ChannelSpec
  import opened Wrappers
  import InFlight = InFlightPqueue
  import Deferred = DeferredPqueue

  ghost function FlightOf(m: Message): Flight
    reads m`clientID, m`deliveryTS, m`pri
  {
    Flight(m.Value, m.clientID, m.deliveryTS, m.pri)
  }

  lemma Reinserted<K, V>(m: map<K, V>, k: K, v: V)
    ensures (m - {k})[k := v] == m[k := v]
  {
  }

  lemma ValuesPlus<T>(ms: map<MessageID, T>, id: MessageID, m: T)
    requires id !in ms
    ensures ms[id := m].Values == ms.Values + {m}
  {
    var ns := ms[id := m];
    assert id in ns && ns[id] == m;
    forall x | x in ms.Values ensures x in ns.Values {
      var k :| k in ms && ms[k] == x;
      assert k in ns && ns[k] == x;
    }
  }

  lemma ValuesMinus<T>(ms: map<MessageID, T>, id: MessageID)
    requires id in ms && forall k | k in ms && k != id :: ms[k] != ms[id]
    ensures (ms - {id}).Values == ms.Values - {ms[id]}
  {
    forall x | x in ms.Values - {ms[id]} ensures x in (ms - {id}).Values {
      var k :| k in ms && ms[k] == x;
      assert k in ms - {id} && (ms - {id})[k] == x;
    }
  }

  lemma StoredSnoc(bs: seq<Data>, m: Msg)
    requires forall b | b in bs :: Decode(b).Decoded?
    ensures forall b | b in bs + [Encode(m)] :: Decode(b).Decoded?
    ensures Stored(bs + [Encode(m)]) == Stored(bs) + [m]
  {
    DecodeOfEncode(m);
  }

  /** What taking the message with the first deadline out of `fs` leaves, if that deadline has passed. */
  ghost predicate FirstOut(fs: map<MessageID, Flight>, t: int, expired: Option<Flight>, left: map<MessageID, Flight>) {
    match expired
    case None => left == fs && forall id | id in fs :: fs[id].deadline > t
    case Some(f) =>
      && f.msg.ID in fs && fs[f.msg.ID] == f && f.deadline <= t
      && (forall k | k in fs :: f.deadline <= fs[k].deadline)
      && left == fs - {f.msg.ID}
  }

  ghost predicate FirstDueOut(ds: map<MessageID, Deferral>, t: int, due: Option<Msg>, left: map<MessageID, Deferral>) {
    match due
    case None => left == ds && forall id | id in ds :: ds[id].due > t
    case Some(m) =>
      && m.ID in ds && ds[m.ID].msg == m && ds[m.ID].due <= t
      && (forall k | k in ds :: ds[m.ID].due <= ds[k].due)
      && left == ds - {m.ID}
  }

  /**
   A timeout scan at `t` of `v` has come to `w` by expiring `order`; if it goes on no more, nothing is left to
   expire.
   */
  ghost predicate Expiring(cfg: Config, v: View, t: int, order: seq<MessageID>, dirty: bool, goesOn: bool, w: View) {
    && ExpiryPrefix(v, t, order) && w == ExpireAll(cfg, v, order) && (!goesOn ==> NoneExpired(w, t))
    && (dirty <==> order != [])
  }

  ghost predicate Releasing(cfg: Config, v: View, t: int, order: seq<MessageID>, dirty: bool, goesOn: bool, w: View) {
    && DuePrefix(v, t, order) && w == ReleaseAll(cfg, v, order) && (!goesOn ==> NoneDue(w, t))
    && (dirty <==> order != [])
  }

  ghost predicate LandsFirst(v: View, t: int, expired: Option<Flight>, w: View) {
    w == v.(inFlight := w.inFlight) && FirstOut(v.inFlight, t, expired, w.inFlight)
  }

  ghost predicate UndefersFirst(v: View, t: int, due: Option<Msg>, w: View) {
    w == v.(deferred := w.deferred) && FirstDueOut(v.deferred, t, due, w.deferred)
  }

  /** One round of a timeout scan leads from `v` to `w`. */
  ghost predicate ExpiresFirst(cfg: Config, v: View, t: int, expired: Option<Flight>, w: View) {
    match expired
    case None => w == v && NoneExpired(v, t)
    case Some(f) => FirstExpired(v, t, f.msg.ID) && w == Expire(cfg, v, f.msg.ID)
  }

  ghost predicate ReleasesFirst(cfg: Config, v: View, t: int, due: Option<Msg>, w: View) {
    match due
    case None => w == v && NoneDue(v, t)
    case Some(m) => FirstDue(v, t, m.ID) && w == Release(cfg, v, m.ID)
  }

  class Channel {
    const cfg: Config
    var memoryMsgChan: seq<Msg>
    var backend: seq<Data>
    var clients: map<int, int> // the in-flight count of each attached client
    var inFlightMessages: map<MessageID, Message>
    var inFlightPQ: InFlight.InFlightPqueue
    var deferredMessages: map<MessageID, Deferred.Item>
    var deferredPQ: Deferred.PriorityQueue
    var messageCount: nat
    var requeueCount: nat
    var timeoutCount: nat
    var exiting: bool

    // what is in the backend, in flight and deferred, as values
    ghost var stored: seq<Msg>
    ghost var flights: map<MessageID, Flight>
    ghost var deferrals: map<MessageID, Deferral>

    ghost predicate BackendMirrored()
      reads this`backend, this`stored
    {
      (forall b | b in backend :: Decode(b).Decoded?) && stored == Stored(backend)
    }

    /** The channel's messages as a value. */
    ghost function State(): View
      reads this
    {
      View(memoryMsgChan, stored, flights, deferrals, clients, messageCount, requeueCount, timeoutCount, exiting)
    }

    /** The map's messages under their own IDs, and what they are as values. */
    ghost predicate FlightsMirrored()
      reads this`inFlightMessages, this`flights, inFlightMessages.Values
    {
      && flights.Keys == inFlightMessages.Keys
      && forall id | id in inFlightMessages ::
           inFlightMessages[id].Value.ID == id && flights[id] == FlightOf(inFlightMessages[id])
    }

    /** An ID is in the map exactly if its message is in the heap, where its index says. */
    ghost predicate FlightsAgree()
      reads this`inFlightMessages, this`inFlightPQ, this`flights, inFlightMessages.Values
      reads inFlightPQ, inFlightPQ.data, inFlightPQ.members
    {
      inFlightPQ.Valid() && inFlightPQ.members == inFlightMessages.Values && FlightsMirrored()
    }

    ghost predicate DeferralsMirrored()
      reads this`deferredMessages, this`deferrals
    {
      && deferrals.Keys == deferredMessages.Keys
      && forall id | id in deferredMessages ::
           && deferredMessages[id].Value.ID == id
           && deferrals[id] == Deferral(deferredMessages[id].Value, deferredMessages[id].Priority)
    }

    ghost predicate DeferralsAgree()
      reads this`deferredMessages, this`deferredPQ, this`deferrals, deferredPQ, deferredPQ.data, deferredPQ.members
    {
      deferredPQ.Valid() && deferredPQ.members == deferredMessages.Values && DeferralsMirrored()
    }

    ghost predicate Agree()
      reads this, inFlightMessages.Values
      reads inFlightPQ, inFlightPQ.data, inFlightPQ.members, deferredPQ, deferredPQ.data, deferredPQ.members
    {
      && FlightsAgree() && DeferralsAgree() && BackendMirrored()
      && (inFlightPQ.data as object) != deferredPQ.data
    }

    /** The heap of what is in flight is made of what it was made of, and of new objects. */
    twostate predicate FlightsWithin()
      reads this`inFlightPQ, inFlightPQ`data, inFlightPQ`members
    {
      && inFlightPQ == old(inFlightPQ) && (inFlightPQ.data == old(inFlightPQ.data) || fresh(inFlightPQ.data))
      && forall m | m in inFlightPQ.members :: m in old(inFlightPQ.members) || fresh(m)
    }

    /** Likewise the heap of what is deferred. */
    twostate predicate DeferralsWithin()
      reads this`deferredPQ, deferredPQ`data, deferredPQ`members
    {
      && deferredPQ == old(deferredPQ) && (deferredPQ.data == old(deferredPQ.data) || fresh(deferredPQ.data))
      && forall i | i in deferredPQ.members :: i in old(deferredPQ.members) || fresh(i)
    }

    /** A channel over what its backend already holds. */
    constructor (cfg: Config, backend: seq<Data>)
      requires forall b | b in backend :: Decode(b).Decoded?
      ensures this.cfg == cfg && Agree()
      ensures State() == View([], Stored(backend), map[], map[], map[], 0, 0, 0, false)
      ensures fresh(inFlightPQ) && fresh(inFlightPQ.data) && inFlightPQ.members == {}
      ensures fresh(deferredPQ) && fresh(deferredPQ.data) && deferredPQ.members == {}
    {
      this.cfg, this.backend, stored := cfg, backend, Stored(backend);
      memoryMsgChan, clients := [], map[];
      messageCount, requeueCount, timeoutCount, exiting := 0, 0, 0, false;
      var pqSize := if cfg.memQueueSize / 10 > 1 then cfg.memQueueSize / 10 else 1;
      inFlightMessages, deferredMessages := map[], map[];
      flights, deferrals := map[], map[];
      inFlightPQ := new InFlight.InFlightPqueue(pqSize);
      deferredPQ := new Deferred.PriorityQueue(pqSize);
    }

    /** The backend answers as the first-in first-out queue does, whatever implements it. */
    method AskBackend(e: Event) returns (response: Response)
      modifies this`backend
      ensures (BackendQueue.State(backend, |backend|, false), response)
           == BackendQueue.Step(cfg.lim, BackendQueue.State(old(backend), |old(backend)|, false), e)
    {
      var (after, answer) := BackendQueue.Step(cfg.lim, BackendQueue.State(backend, |backend|, false), e);
      backend, response := after.pending, answer;
    }

    // ---- In-flight map and heap ----
    //
    // An operation is built up in layers: what it does to one map and its heap; that the other map and heap
    // are untouched; what it makes of the channel's state.

    method PopInFlightMessage(clientID: int, id: MessageID) returns (r: Outcome, msg: Message?)
      requires FlightsMirrored()
      modifies this`inFlightMessages, this`flights
      ensures FlightsMirrored()
      ensures r == Owner(old(flights), clientID, id)
      ensures r == Ok <==> msg != null
      ensures r == Ok ==> id in old(inFlightMessages) && msg == old(inFlightMessages)[id]
      ensures inFlightMessages == if r == Ok then old(inFlightMessages) - {id} else old(inFlightMessages)
      ensures flights == if r == Ok then old(flights) - {id} else old(flights)
    {
      if id !in inFlightMessages {
        return NotInFlight, null;
      }
      if inFlightMessages[id].clientID != clientID {
        return NotOwner, null;
      }
      msg := inFlightMessages[id];
      inFlightMessages, flights := inFlightMessages - {id}, flights - {id};
      r := Ok;
    }

    method RemoveFromInFlightPQ(msg: Message)
      requires inFlightPQ.Valid()
      requires msg.index != -1 ==> msg in inFlightPQ.members
      modifies inFlightPQ, inFlightPQ.data, inFlightPQ.members`index
      ensures inFlightPQ.Valid() && inFlightPQ.data == old(inFlightPQ.data)
      ensures inFlightPQ.members == old(inFlightPQ.members) - {msg}
    {
      if msg.index == -1 {
        return;
      }
      var _ := inFlightPQ.Remove(msg.index);
    }

    /** Takes a message its owner answers out of flight: out of the map and out of the heap. */
    method TakeOut(clientID: int, id: MessageID) returns (r: Outcome, msg: Message?)
      requires FlightsAgree()
      modifies this`inFlightMessages, this`flights
      modifies inFlightPQ, inFlightPQ.data, inFlightPQ.members`index
      ensures FlightsAgree() && inFlightPQ.data == old(inFlightPQ.data)
      ensures inFlightPQ.members <= old(inFlightPQ.members)
      ensures r == Owner(old(flights), clientID, id)
      ensures r == Ok ==> && msg != null && msg.Value.ID == id && FlightOf(msg) == old(flights)[id]
                          && msg !in inFlightPQ.members && msg in old(inFlightPQ.members)
      ensures flights == if r == Ok then old(flights) - {id} else old(flights)
    {
      r, msg := PopInFlightMessage(clientID, id);
      if r != Ok {
        return;
      }
      ValuesMinus(old(inFlightMessages), id);
      assert msg in old(inFlightMessages).Values;
      RemoveFromInFlightPQ(msg);
    }

    /** Puts a message in flight: into the map and into the heap. */
    method PutIn(msg: Message)
      requires FlightsAgree() && msg.Value.ID !in inFlightMessages
      modifies this`inFlightMessages, this`flights
      modifies inFlightPQ, inFlightPQ.data
      modifies inFlightPQ.members`index, msg`index
      ensures FlightsAgree() && (inFlightPQ.data == old(inFlightPQ.data) || fresh(inFlightPQ.data))
      ensures flights == old(flights)[msg.Value.ID := FlightOf(msg)]
      ensures inFlightPQ.members == old(inFlightPQ.members) + {msg}
    {
      ghost var all := inFlightMessages;
      inFlightMessages := inFlightMessages[msg.Value.ID := msg];
      flights := flights[msg.Value.ID := FlightOf(msg)];
      ValuesPlus(all, msg.Value.ID, msg);
      inFlightPQ.Push(msg);
    }

    /** Puts a message in flight until `deadline`. */
    method PutInUntil(msg: Message, deadline: int)
      requires FlightsAgree() && msg.Value.ID !in inFlightMessages && msg !in inFlightPQ.members
      modifies this`inFlightMessages, this`flights
      modifies inFlightPQ, inFlightPQ.data
      modifies inFlightPQ.members`index, msg`index, msg`pri
      ensures FlightsAgree() && (inFlightPQ.data == old(inFlightPQ.data) || fresh(inFlightPQ.data))
      ensures flights == old(flights)[msg.Value.ID := old(FlightOf(msg)).(deadline := deadline)]
      ensures inFlightPQ.members == old(inFlightPQ.members) + {msg}
    {
      msg.pri := deadline;
      PutIn(msg);
    }

    method FinishMessage(clientID: int, id: MessageID) returns (r: Outcome)
      requires Agree()
      modifies this`inFlightMessages, this`flights
      modifies inFlightPQ, inFlightPQ.data, inFlightPQ.members`index
      ensures Agree() && FlightsWithin()
      ensures r == Owned(old(State()), clientID, id)
      ensures State() == if r == Ok then Landed(old(State()), id) else old(State())
    {
      ghost var v := State();
      r := Land(clientID, id);
      assert State() == v.(inFlight := flights);
    }

    method Land(clientID: int, id: MessageID) returns (r: Outcome)
      requires Agree()
      modifies this`inFlightMessages, this`flights
      modifies inFlightPQ, inFlightPQ.data, inFlightPQ.members`index
      ensures Agree() && FlightsWithin()
      ensures r == Owner(old(flights), clientID, id)
      ensures flights == if r == Ok then old(flights) - {id} else old(flights)
    {
      var msg;
      r, msg := TakeOut(clientID, id);
    }

    /** The client's own counter, if it is still attached. */
    method CountClient(clientID: int, change: int)
      requires Agree()
      modifies this`clients
      ensures Agree()
      ensures State() == Counted(old(State()), clientID, change)
    {
      if clientID in clients {
        clients := clients[clientID := clients[clientID] + change];
      }
    }

    /** FIN. */
    method Fin(clientID: int, id: MessageID) returns (r: Outcome)
      requires Agree()
      modifies this`clients
      modifies this`inFlightMessages, this`flights
      modifies inFlightPQ, inFlightPQ.data, inFlightPQ.members`index
      ensures Agree() && FlightsWithin()
      ensures (State(), r) == ChannelSpec.Fin(old(State()), clientID, id)
    {
      r := FinishMessage(clientID, id);
      Uncount(clientID, r);
    }

    /** A message that a client answered is off its count. */
    method Uncount(clientID: int, r: Outcome)
      requires Agree()
      modifies this`clients
      ensures Agree()
      ensures State() == if r == Ok then Counted(old(State()), clientID, -1) else old(State())
    {
      if r == Ok {
        CountClient(clientID, -1);
      }
    }

    /** TOUCH. */
    method TouchMessage(clientID: int, id: MessageID, now: int, timeout: int) returns (r: Outcome)
      requires Agree()
      modifies this`inFlightMessages, this`flights
      modifies inFlightPQ, inFlightPQ.data
      modifies inFlightPQ.members`index, inFlightPQ.members`pri
      ensures Agree() && FlightsWithin()
      ensures (State(), r) == Touch(cfg, old(State()), clientID, id, now, timeout)
    {
      r := Postpone(clientID, id, now, timeout);
    }

    method Postpone(clientID: int, id: MessageID, now: int, timeout: int) returns (r: Outcome)
      requires Agree()
      modifies this`inFlightMessages, this`flights
      modifies inFlightPQ, inFlightPQ.data
      modifies inFlightPQ.members`index, inFlightPQ.members`pri
      ensures Agree() && FlightsWithin()
      ensures r == Owner(old(flights), clientID, id)
      ensures flights == Touched(cfg, old(flights), clientID, id, now, timeout)
    {
      r := MoveDeadline(clientID, id, now, timeout);
    }

    method MoveDeadline(clientID: int, id: MessageID, now: int, timeout: int) returns (r: Outcome)
      requires FlightsAgree()
      modifies this`inFlightMessages, this`flights
      modifies inFlightPQ, inFlightPQ.data
      modifies inFlightPQ.members`index, inFlightPQ.members`pri
      ensures FlightsAgree() && FlightsWithin()
      ensures r == Owner(old(flights), clientID, id)
      ensures flights == Touched(cfg, old(flights), clientID, id, now, timeout)
    {
      ghost var fs := flights;
      var msg;
      r, msg := TakeOut(clientID, id);
      if r != Ok {
        return;
      }
      var newTimeout := now + timeout;
      if newTimeout - msg.deliveryTS >= cfg.maxMsgTimeout {
        newTimeout := msg.deliveryTS + cfg.maxMsgTimeout;
      }
      ghost var touched := fs[id].(deadline := newTimeout);
      Reinserted(fs, id, touched);
      assert Touched(cfg, fs, clientID, id, now, timeout) == (fs - {id})[id := touched];
      PutInUntil(msg, newTimeout);
    }

    /** A message is sent to a client: its owner and deadline are set and it goes in flight. */
    method StartInFlightTimeout(m: Msg, clientID: int, now: int, timeout: int) returns (r: Outcome)
      requires Agree()
      modifies this`inFlightMessages, this`flights
      modifies inFlightPQ, inFlightPQ.data, inFlightPQ.members`index
      ensures Agree() && FlightsWithin()
      ensures (State(), r) == StartInFlight(old(State()), m, clientID, now, timeout)
    {
      if m.ID in inFlightMessages {
        return AlreadyInFlight;
      }
      ghost var v := State();
      LaunchNew(m, clientID, now, timeout);
      assert State() == v.(inFlight := flights);
      r := Ok;
    }

    method LaunchNew(m: Msg, clientID: int, now: int, timeout: int)
      requires Agree() && m.ID !in inFlightMessages
      modifies this`inFlightMessages, this`flights
      modifies inFlightPQ, inFlightPQ.data, inFlightPQ.members`index
      ensures Agree() && FlightsWithin()
      ensures flights == old(flights)[m.ID := Flight(m, clientID, now, now + timeout)]
    {
      Launch(m, clientID, now, timeout);
    }

    method Launch(m: Msg, clientID: int, now: int, timeout: int)
      requires FlightsAgree() && m.ID !in inFlightMessages
      modifies this`inFlightMessages, this`flights
      modifies inFlightPQ, inFlightPQ.data, inFlightPQ.members`index
      ensures FlightsAgree() && FlightsWithin()
      ensures flights == old(flights)[m.ID := Flight(m, clientID, now, now + timeout)]
    {
      var msg := new Message(m, clientID, now, 0);
      PutInUntil(msg, now + timeout);
    }

    /** The pump sends a message, counts it, and does not look whether it went in flight. */
    method SendMessage(m: Msg, clientID: int, now: int, timeout: int)
      requires Agree()
      modifies this`clients
      modifies this`inFlightMessages, this`flights
      modifies inFlightPQ, inFlightPQ.data, inFlightPQ.members`index
      ensures Agree() && FlightsWithin()
      ensures State() == Send(old(State()), m, clientID, now, timeout)
    {
      var msg := m.(Attempts := (m.Attempts + 1) % 0x1_0000);
      var _ := StartInFlightTimeout(msg, clientID, now, timeout);
      CountClient(clientID, 1);
    }

    method DeliverFromMemory(clientID: int, now: int, timeout: int)
      requires Agree() && memoryMsgChan != []
      modifies this`clients, this`memoryMsgChan
      modifies this`inFlightMessages, this`flights
      modifies inFlightPQ, inFlightPQ.data, inFlightPQ.members`index
      ensures Agree() && FlightsWithin()
      ensures State() == DeliverMemory(old(State()), clientID, now, timeout)
    {
      ghost var v := State();
      var msg := memoryMsgChan[0];
      memoryMsgChan := memoryMsgChan[1..];
      assert State() == v.(memory := v.memory[1..]);
      SendMessage(msg, clientID, now, timeout);
    }

    method DeliverFromBackend(clientID: int, now: int, timeout: int)
      requires Agree() && backend != []
      modifies this`clients, this`backend, this`stored
      modifies this`inFlightMessages, this`flights
      modifies inFlightPQ, inFlightPQ.data, inFlightPQ.members`index
      ensures Agree() && FlightsWithin()
      ensures State() == DeliverBackend(old(State()), clientID, now, timeout)
    {
      ghost var v := State();
      StoredTail(backend);
      var response := AskBackend(Deliver);
      stored := stored[1..];
      assert State() == v.(backend := v.backend[1..]);
      SendMessage(Decode(response.data).msg, clientID, now, timeout);
    }

    // ---- Deferred map and heap ----

    method StartDeferredTimeout(m: Msg, due: int) returns (r: Outcome)
      requires Agree()
      modifies this`deferredMessages, this`deferrals
      modifies deferredPQ, deferredPQ.data, deferredPQ.members`Index
      ensures Agree() && DeferralsWithin()
      ensures (State(), r) == StartDeferred(old(State()), m, due)
    {
      if m.ID in deferredMessages {
        return AlreadyDeferred;
      }
      ghost var v := State();
      DeferNew(m, due);
      assert State() == v.(deferred := deferrals);
      r := Ok;
    }

    method DeferNew(m: Msg, due: int)
      requires Agree() && m.ID !in deferredMessages
      modifies this`deferredMessages, this`deferrals
      modifies deferredPQ, deferredPQ.data, deferredPQ.members`Index
      ensures Agree() && DeferralsWithin() && deferrals == old(deferrals)[m.ID := Deferral(m, due)]
    {
      Defer(m, due);
    }

    /** Defers a message: into the map and into the heap. */
    method Defer(m: Msg, due: int)
      requires DeferralsAgree() && m.ID !in deferredMessages
      modifies this`deferredMessages, this`deferrals
      modifies deferredPQ, deferredPQ.data, deferredPQ.members`Index
      ensures DeferralsAgree() && DeferralsWithin()
      ensures deferrals == old(deferrals)[m.ID := Deferral(m, due)]
    {
      var item := new Deferred.Item(m, due);
      ghost var all := deferredMessages;
      deferredMessages := deferredMessages[m.ID := item];
      deferrals := deferrals[m.ID := Deferral(m, due)];
      ValuesPlus(all, m.ID, item);
      deferredPQ.Push(item);
    }

    // ---- Queueing ----

    /** Queues a message: in memory if there is room, otherwise encoded to the backend. */
    method Put(m: Msg) returns (r: Outcome)
      requires Agree()
      modifies this`memoryMsgChan, this`backend, this`stored
      ensures Agree()
      ensures (State(), r) == ChannelSpec.Put(cfg, old(State()), m)
    {
      if |memoryMsgChan| < cfg.memQueueSize {
        memoryMsgChan := memoryMsgChan + [m];
        return Ok;
      }
      r := WriteMessageToBackend(m);
    }

    method WriteMessageToBackend(m: Msg) returns (r: Outcome)
      requires BackendMirrored()
      modifies this`backend, this`stored
      ensures BackendMirrored()
      ensures r == if AcceptsSize(cfg.lim, MIN_VALID_MSG_LENGTH + |m.Body|) then Ok else Refused
      ensures stored == if r == Ok then old(stored) + [m] else old(stored)
    {
      var buf, _ := WriteTo(m, []);
      assert buf == Encode(m);
      var response := AskBackend(BackendQueue.Event.Put(buf));
      if response == Rejected {
        return Refused;
      }
      StoredSnoc(old(backend), m);
      stored := stored + [m];
      r := Ok;
    }

    method PutMessage(m: Msg) returns (r: Outcome)
      requires Agree()
      modifies this`memoryMsgChan, this`backend, this`stored, this`messageCount
      ensures Agree()
      ensures (State(), r) == ChannelSpec.PutMessage(cfg, old(State()), m)
    {
      if exiting {
        return Exiting;
      }
      r := Put(m);
      if r == Ok {
        CountMessage();
      }
    }

    method CountMessage()
      requires Agree()
      modifies this`messageCount
      ensures Agree()
      ensures State() == old(State()).(messageCount := old(State()).messageCount + 1)
    {
      messageCount := messageCount + 1;
    }

    method PutMessageDeferred(m: Msg, due: int)
      requires Agree()
      modifies this`messageCount
      modifies this`deferredMessages, this`deferrals
      modifies deferredPQ, deferredPQ.data, deferredPQ.members`Index
      ensures Agree() && DeferralsWithin()
      ensures State() == ChannelSpec.PutMessageDeferred(old(State()), m, due)
    {
      CountMessage();
      var _ := StartDeferredTimeout(m, due);
    }

    /** REQ: the message is queued again, at once or after the delay asked for, within the limit. */
    method Req(clientID: int, id: MessageID, requested: int, maxReqTimeout: int, now: int) returns (r: Outcome)
      requires Agree()
      modifies this`clients, this`requeueCount, this`memoryMsgChan, this`backend, this`stored
      modifies this`inFlightMessages, this`flights
      modifies inFlightPQ, inFlightPQ.data, inFlightPQ.members`index
      modifies this`deferredMessages, this`deferrals
      modifies deferredPQ, deferredPQ.data, deferredPQ.members`Index
      ensures Agree() && FlightsWithin() && DeferralsWithin()
      ensures (State(), r) == ReqWithin(cfg, old(State()), clientID, id, requested, maxReqTimeout, now)
    {
      var delay := ClampedDelay(requested, maxReqTimeout);
      var due := now + delay;
      ReqWithinLimit(cfg, State(), clientID, id, requested, maxReqTimeout, now, due);
      r := RequeueMessage(clientID, id, delay, due);
    }

    method RequeueMessage(clientID: int, id: MessageID, timeout: int, due: int) returns (r: Outcome)
      requires Agree()
      modifies this`clients, this`requeueCount, this`memoryMsgChan, this`backend, this`stored
      modifies this`inFlightMessages, this`flights
      modifies inFlightPQ, inFlightPQ.data, inFlightPQ.members`index
      modifies this`deferredMessages, this`deferrals
      modifies deferredPQ, deferredPQ.data, deferredPQ.members`Index
      ensures Agree() && FlightsWithin() && DeferralsWithin()
      ensures (State(), r) == ChannelSpec.Req(cfg, old(State()), clientID, id, timeout, due)
    {
      if id !in inFlightMessages {
        return NotInFlight;
      }
      var msg := inFlightMessages[id];
      if msg.clientID != clientID {
        return NotOwner;
      }
      r := RequeueOwned(clientID, id, msg.Value, timeout, due);
    }

    method RequeueOwned(clientID: int, id: MessageID, m: Msg, timeout: int, due: int) returns (r: Outcome)
      requires Agree() && Owned(State(), clientID, id) == Ok && flights[id].msg == m
      modifies this`clients, this`requeueCount, this`memoryMsgChan, this`backend, this`stored
      modifies this`inFlightMessages, this`flights
      modifies inFlightPQ, inFlightPQ.data, inFlightPQ.members`index
      modifies this`deferredMessages, this`deferrals
      modifies deferredPQ, deferredPQ.data, deferredPQ.members`Index
      ensures Agree() && FlightsWithin() && DeferralsWithin()
      ensures (State(), r) == ChannelSpec.Req(cfg, old(State()), clientID, id, timeout, due)
    {
      r := TakeForRequeue(clientID, id);
      r := QueueAgainFor(clientID, m, timeout, due);
    }

    method TakeForRequeue(clientID: int, id: MessageID) returns (r: Outcome)
      requires Agree()
      modifies this`requeueCount
      modifies this`inFlightMessages, this`flights
      modifies inFlightPQ, inFlightPQ.data, inFlightPQ.members`index
      ensures Agree() && FlightsWithin()
      ensures r == Owned(old(State()), clientID, id)
      ensures State() == if r == Ok then Requeueing(old(State()), id) else old(State())
    {
      r := FinishMessage(clientID, id);
      if r == Ok {
        CountRequeue();
      }
    }

    method QueueAgainFor(clientID: int, m: Msg, timeout: int, due: int) returns (r: Outcome)
      requires Agree()
      modifies this`clients, this`memoryMsgChan, this`backend, this`stored
      modifies this`deferredMessages, this`deferrals
      modifies deferredPQ, deferredPQ.data, deferredPQ.members`Index
      ensures Agree() && DeferralsWithin()
      ensures var (w, s) := Requeue(cfg, old(State()), m, timeout, due);
              r == s && State() == if s == Ok then Counted(w, clientID, -1) else w
    {
      r := QueueAgain(m, timeout, due);
      Uncount(clientID, r);
    }

    method CountRequeue()
      requires Agree()
      modifies this`requeueCount
      ensures Agree()
      ensures State() == old(State()).(requeueCount := old(State()).requeueCount + 1)
    {
      requeueCount := requeueCount + 1;
    }

    method QueueAgain(m: Msg, timeout: int, due: int) returns (r: Outcome)
      requires Agree()
      modifies this`memoryMsgChan, this`backend, this`stored
      modifies this`deferredMessages, this`deferrals
      modifies deferredPQ, deferredPQ.data, deferredPQ.members`Index
      ensures Agree() && DeferralsWithin()
      ensures (State(), r) == Requeue(cfg, old(State()), m, timeout, due)
    {
      if timeout != 0 {
        r := StartDeferredTimeout(m, due);
      } else if exiting {
        return Exiting;
      } else {
        r := Put(m);
      }
    }

    // ---- Scans ----

    /** Takes the message with the earliest deadline out of the heap and the map if that deadline has passed. */
    method TakeExpired(t: int) returns (expired: Option<Flight>)
      requires FlightsAgree()
      modifies this`inFlightMessages, this`flights
      modifies inFlightPQ, inFlightPQ.data, inFlightPQ.members`index
      ensures FlightsAgree() && (inFlightPQ.data == old(inFlightPQ.data) || fresh(inFlightPQ.data))
      ensures inFlightPQ.members <= old(inFlightPQ.members)
      ensures FirstOut(old(flights), t, expired, flights)
    {
      ghost var all := inFlightMessages;
      assert forall k | k in all :: all[k] in inFlightPQ.members;
      var msg := PopExpired(t);
      expired := if msg == null then None else Some(Flight(msg.Value, msg.clientID, msg.deliveryTS, msg.pri));
    }

    method PopExpired(t: int) returns (msg: Message?)
      requires FlightsAgree()
      modifies this`inFlightMessages, this`flights
      modifies inFlightPQ, inFlightPQ.data, inFlightPQ.members`index
      ensures FlightsAgree() && (inFlightPQ.data == old(inFlightPQ.data) || fresh(inFlightPQ.data))
      ensures inFlightPQ.members <= old(inFlightPQ.members)
      ensures msg == null ==> flights == old(flights) && forall m | m in inFlightPQ.members :: m.pri > t
      ensures msg == null ==> inFlightMessages == old(inFlightMessages)
      ensures msg != null ==> && msg.Value.ID in old(inFlightMessages)
                              && old(inFlightMessages)[msg.Value.ID] == msg && msg.pri <= t
                              && flights == old(flights) - {msg.Value.ID}
      ensures msg != null ==> forall m | m in old(inFlightPQ.members) :: msg.pri <= m.pri
    {
      ghost var all := inFlightMessages;
      var wait;
      msg, wait := inFlightPQ.PeekAndShift(t);
      if msg == null {
        return;
      }
      assert msg in all.Values;
      ValuesMinus(all, msg.Value.ID);
      var r, popped := PopInFlightMessage(msg.clientID, msg.Value.ID);
      assert r == Ok;
    }

    /** Takes the message whose deadline is first out of flight, if that deadline has passed. */
    method LandExpired(t: int) returns (expired: Option<Flight>)
      requires Agree()
      modifies this`inFlightMessages, this`flights
      modifies inFlightPQ, inFlightPQ.data, inFlightPQ.members`index
      ensures Agree() && (inFlightPQ.data == old(inFlightPQ.data) || fresh(inFlightPQ.data))
      ensures inFlightPQ.members <= old(inFlightPQ.members)
      ensures FirstOut(old(flights), t, expired, flights)
    {
      expired := TakeExpired(t);
    }

    method LandFirst(t: int) returns (expired: Option<Flight>)
      requires Agree()
      modifies this`inFlightMessages, this`flights
      modifies inFlightPQ, inFlightPQ.data, inFlightPQ.members`index
      ensures Agree() && (inFlightPQ.data == old(inFlightPQ.data) || fresh(inFlightPQ.data))
      ensures inFlightPQ.members <= old(inFlightPQ.members)
      ensures LandsFirst(old(State()), t, expired, State())
    {
      ghost var v := State();
      expired := LandExpired(t);
      assert State() == v.(inFlight := flights);
    }

    /** A timeout is counted, and the message is no longer its client's. */
    method CountTimeout(clientID: int, ghost v: View, ghost id: MessageID)
      requires Agree() && id in v.inFlight && clientID == v.inFlight[id].client && State() == Landed(v, id)
      modifies this`timeoutCount, this`clients
      ensures Agree()
      ensures State() == TimedOut(v, id)
    {
      timeoutCount := timeoutCount + 1;
      CountClient(clientID, -1);
    }

    /** An expired message is counted and queued again. */
    method RequeueExpired(f: Flight, ghost v: View)
      requires Agree() && f.msg.ID in v.inFlight && v.inFlight[f.msg.ID] == f && State() == Landed(v, f.msg.ID)
      modifies this`clients, this`timeoutCount, this`memoryMsgChan, this`backend, this`stored
      ensures Agree()
      ensures State() == Expire(cfg, v, f.msg.ID)
    {
      CountTimeout(f.client, v, f.msg.ID);
      var _ := Put(f.msg);
    }

    /** One round of the timeout scan. */
    method ExpireFirst(t: int, ghost v: View) returns (expired: Option<Flight>)
      requires Agree() && v == State()
      modifies this`clients, this`timeoutCount, this`memoryMsgChan, this`backend, this`stored
      modifies this`inFlightMessages, this`flights
      modifies inFlightPQ, inFlightPQ.data, inFlightPQ.members`index
      ensures Agree() && (inFlightPQ.data == old(inFlightPQ.data) || fresh(inFlightPQ.data))
      ensures inFlightPQ.members <= old(inFlightPQ.members)
      ensures ExpiresFirst(cfg, v, t, expired, State())
    {
      expired := LandFirst(t);
      match expired
      case None =>
      case Some(f) =>
        RequeueExpired(f, v);
    }

    /** Requeues every message in flight whose deadline has passed at `t`, earliest deadline first. */
    method ProcessInFlightQueue(t: int) returns (dirty: bool, ghost order: seq<MessageID>)
      requires Agree()
      modifies this`clients, this`timeoutCount, this`memoryMsgChan, this`backend, this`stored
      modifies this`inFlightMessages, this`flights
      modifies inFlightPQ, inFlightPQ.data, inFlightPQ.members`index
      ensures Agree() && FlightsWithin()
      ensures old(exiting) ==> State() == old(State()) && !dirty
      ensures !old(exiting) ==> ExpiryOrder(old(State()), t, order) && State() == ExpireAll(cfg, old(State()), order)
      ensures !old(exiting) ==> (dirty <==> order != [])
    {
      if exiting {
        return false, [];
      }
      ghost var v := State();
      dirty, order := ScanInFlight(t, v);
      ScanEnd(cfg, v, t, order);
    }

    method ScanInFlight(t: int, ghost v: View) returns (dirty: bool, ghost order: seq<MessageID>)
      requires Agree() && v == State()
      modifies this`clients, this`timeoutCount, this`memoryMsgChan, this`backend, this`stored
      modifies this`inFlightMessages, this`flights
      modifies inFlightPQ, inFlightPQ.data, inFlightPQ.members`index
      ensures Agree() && (inFlightPQ.data == old(inFlightPQ.data) || fresh(inFlightPQ.data))
      ensures inFlightPQ.members <= old(inFlightPQ.members)
      ensures Expiring(cfg, v, t, order, dirty, false, State())
    {
      dirty, order := false, [];
      var found := true;
      while found
        invariant Agree() && Expiring(cfg, v, t, order, dirty, found, State())
        invariant inFlightPQ.data == old(inFlightPQ.data) || fresh(inFlightPQ.data)
        invariant inFlightPQ.members <= old(inFlightPQ.members)
        decreases |flights|, found
      {
        found, dirty, order := ExpireNext(t, v, order, dirty);
      }
    }

    /** One round of the scan, after the messages `order` were expired. */
    method ExpireNext(t: int, ghost v: View, ghost order: seq<MessageID>, dirty: bool)
      returns (found: bool, dirtied: bool, ghost longer: seq<MessageID>)
      requires Agree() && Expiring(cfg, v, t, order, dirty, true, State())
      modifies this`clients, this`timeoutCount, this`memoryMsgChan, this`backend, this`stored
      modifies this`inFlightMessages, this`flights
      modifies inFlightPQ, inFlightPQ.data, inFlightPQ.members`index
      ensures Agree() && (inFlightPQ.data == old(inFlightPQ.data) || fresh(inFlightPQ.data))
      ensures inFlightPQ.members <= old(inFlightPQ.members)
      ensures Expiring(cfg, v, t, longer, dirtied, found, State())
      ensures if found then |flights| < |old(flights)| else |flights| == |old(flights)|
    {
      ghost var w := State();
      var expired := ExpireFirst(t, w);
      found := expired.Some?;
      dirtied := dirty || found;
      longer := order;
      if found {
        ScanStep(cfg, v, t, order, expired.value.msg.ID);
        ExpireShrinks(cfg, w, expired.value.msg.ID);
        longer := order + [expired.value.msg.ID];
      }
    }

    /** Takes the deferred message that is due first out of the heap and the map if it is due by `t`. */
    method TakeDue(t: int) returns (due: Option<Msg>)
      requires DeferralsAgree()
      modifies this`deferredMessages, this`deferrals
      modifies deferredPQ, deferredPQ.data, deferredPQ.members`Index
      ensures DeferralsAgree() && (deferredPQ.data == old(deferredPQ.data) || fresh(deferredPQ.data))
      ensures deferredPQ.members <= old(deferredPQ.members)
      ensures FirstDueOut(old(deferrals), t, due, deferrals)
    {
      ghost var all := deferredMessages;
      assert forall k | k in all :: all[k] in deferredPQ.members;
      var item, wait := deferredPQ.PeekAndShift(t);
      if item == null {
        return None;
      }
      assert item in all.Values;
      ValuesMinus(all, item.Value.ID);
      deferredMessages := deferredMessages - {item.Value.ID};
      deferrals := deferrals - {item.Value.ID};
      due := Some(item.Value);
    }

    /** Takes the deferred message that is due first, if it is due by `t`. */
    method Undefer(t: int) returns (due: Option<Msg>)
      requires Agree()
      modifies this`deferredMessages, this`deferrals
      modifies deferredPQ, deferredPQ.data, deferredPQ.members`Index
      ensures Agree() && (deferredPQ.data == old(deferredPQ.data) || fresh(deferredPQ.data))
      ensures deferredPQ.members <= old(deferredPQ.members)
      ensures FirstDueOut(old(deferrals), t, due, deferrals)
    {
      due := TakeDue(t);
    }

    method UndeferFirst(t: int) returns (due: Option<Msg>)
      requires Agree()
      modifies this`deferredMessages, this`deferrals
      modifies deferredPQ, deferredPQ.data, deferredPQ.members`Index
      ensures Agree() && (deferredPQ.data == old(deferredPQ.data) || fresh(deferredPQ.data))
      ensures deferredPQ.members <= old(deferredPQ.members)
      ensures UndefersFirst(old(State()), t, due, State())
    {
      ghost var v := State();
      due := Undefer(t);
      assert State() == v.(deferred := deferrals);
    }

    /** One round of the deferred scan. */
    method ReleaseFirst(t: int, ghost v: View) returns (due: Option<Msg>)
      requires Agree() && v == State()
      modifies this`memoryMsgChan, this`backend, this`stored
      modifies this`deferredMessages, this`deferrals
      modifies deferredPQ, deferredPQ.data, deferredPQ.members`Index
      ensures Agree() && (deferredPQ.data == old(deferredPQ.data) || fresh(deferredPQ.data))
      ensures deferredPQ.members <= old(deferredPQ.members)
      ensures ReleasesFirst(cfg, v, t, due, State())
    {
      due := UndeferFirst(t);
      match due
      case None =>
      case Some(m) => QueueDue(m, v);
    }

    method QueueDue(m: Msg, ghost v: View)
      requires Agree() && m.ID in v.deferred && v.deferred[m.ID].msg == m
            && State() == v.(deferred := v.deferred - {m.ID})
      modifies this`memoryMsgChan, this`backend, this`stored
      ensures Agree()
      ensures State() == Release(cfg, v, m.ID)
    {
      var _ := Put(m);
    }

    /** Queues every deferred message that is due at `t`, earliest first. */
    method ProcessDeferredQueue(t: int) returns (dirty: bool, ghost order: seq<MessageID>)
      requires Agree()
      modifies this`memoryMsgChan, this`backend, this`stored
      modifies this`deferredMessages, this`deferrals
      modifies deferredPQ, deferredPQ.data, deferredPQ.members`Index
      ensures Agree() && DeferralsWithin()
      ensures old(exiting) ==> State() == old(State()) && !dirty
      ensures !old(exiting) ==> DueOrder(old(State()), t, order) && State() == ReleaseAll(cfg, old(State()), order)
      ensures !old(exiting) ==> (dirty <==> order != [])
    {
      if exiting {
        return false, [];
      }
      ghost var v := State();
      dirty, order := ScanDeferred(t, v);
      DueScanEnd(cfg, v, t, order);
    }

    method ScanDeferred(t: int, ghost v: View) returns (dirty: bool, ghost order: seq<MessageID>)
      requires Agree() && v == State()
      modifies this`memoryMsgChan, this`backend, this`stored
      modifies this`deferredMessages, this`deferrals
      modifies deferredPQ, deferredPQ.data, deferredPQ.members`Index
      ensures Agree() && (deferredPQ.data == old(deferredPQ.data) || fresh(deferredPQ.data))
      ensures deferredPQ.members <= old(deferredPQ.members)
      ensures Releasing(cfg, v, t, order, dirty, false, State())
    {
      dirty, order := false, [];
      var found := true;
      while found
        invariant Agree() && Releasing(cfg, v, t, order, dirty, found, State())
        invariant deferredPQ.data == old(deferredPQ.data) || fresh(deferredPQ.data)
        invariant deferredPQ.members <= old(deferredPQ.members)
        decreases |deferrals|, found
      {
        found, dirty, order := ReleaseNext(t, v, order, dirty);
      }
    }

    /** One round of the scan, after the messages `order` were queued. */
    method ReleaseNext(t: int, ghost v: View, ghost order: seq<MessageID>, dirty: bool)
      returns (found: bool, dirtied: bool, ghost longer: seq<MessageID>)
      requires Agree() && Releasing(cfg, v, t, order, dirty, true, State())
      modifies this`memoryMsgChan, this`backend, this`stored
      modifies this`deferredMessages, this`deferrals
      modifies deferredPQ, deferredPQ.data, deferredPQ.members`Index
      ensures Agree() && (deferredPQ.data == old(deferredPQ.data) || fresh(deferredPQ.data))
      ensures deferredPQ.members <= old(deferredPQ.members)
      ensures Releasing(cfg, v, t, longer, dirtied, found, State())
      ensures if found then |deferrals| < |old(deferrals)| else |deferrals| == |old(deferrals)|
    {
      ghost var w := State();
      var due := ReleaseFirst(t, w);
      found := due.Some?;
      dirtied := dirty || found;
      longer := order;
      if found {
        DueScanStep(cfg, v, t, order, due.value.ID);
        ReleaseShrinks(cfg, w, due.value.ID);
        longer := order + [due.value.ID];
      }
    }

    // ---- Clients ----

    /** A limit of 0 on the number of clients means no limit. */
    method AddClient(clientID: int, maxChannelConsumers: nat) returns (ok: bool)
      requires Agree()
      modifies this`clients
      ensures Agree()
      ensures ok <==> clientID in old(clients) || maxChannelConsumers == 0 || |old(clients)| < maxChannelConsumers
      ensures State() == if ok && clientID !in old(clients) then Attached(old(State()), clientID) else old(State())
      ensures ok && maxChannelConsumers != 0 && |old(clients)| <= maxChannelConsumers
            ==> |clients| <= maxChannelConsumers
    {
      if clientID in clients {
        return true;
      }
      if maxChannelConsumers != 0 && |clients| >= maxChannelConsumers {
        return false;
      }
      clients := clients[clientID := 0];
      ok := true;
    }

    method RemoveClient(clientID: int)
      requires Agree()
      modifies this`clients
      ensures Agree()
      ensures State() == Detached(old(State()), clientID)
    {
      clients := clients - {clientID};
    }

    // ---- Emptying and closing ----

    /** Both maps and heaps start afresh. */
    method InitPQ()
      requires BackendMirrored()
      modifies this`inFlightMessages, this`flights, this`inFlightPQ
      modifies this`deferredMessages, this`deferrals, this`deferredPQ
      ensures Agree() && fresh(inFlightPQ) && fresh(deferredPQ)
      ensures flights == map[] && deferrals == map[]
    {
      var pqSize := if cfg.memQueueSize / 10 > 1 then cfg.memQueueSize / 10 else 1;
      inFlightMessages, deferredMessages := map[], map[];
      flights, deferrals := map[], map[];
      inFlightPQ := new InFlight.InFlightPqueue(pqSize);
      deferredPQ := new Deferred.PriorityQueue(pqSize);
    }

    /** Takes out what the memory queue holds, message by message. */
    method DrainMemory()
      requires Agree()
      modifies this`memoryMsgChan
      ensures Agree() && State() == old(State()).(memory := [])
    {
      ghost var v := State();
      while memoryMsgChan != []
        invariant Agree() && State() == v.(memory := memoryMsgChan)
      {
        memoryMsgChan := memoryMsgChan[1..];
      }
    }

    method EmptyFlightsAndDeferrals()
      requires Agree()
      modifies this`inFlightMessages, this`flights, this`inFlightPQ
      modifies this`deferredMessages, this`deferrals, this`deferredPQ
      ensures Agree() && State() == old(State()).(inFlight := map[], deferred := map[])
    {
      InitPQ();
    }

    /** Empties every client's counter. */
    method EmptyClients()
      requires Agree()
      modifies this`clients
      ensures Agree() && State() == old(State()).(counts := map c | c in old(State()).counts :: 0)
    {
      clients := map c | c in clients :: 0;
    }

    method EmptyBackend()
      requires Agree()
      modifies this`backend, this`stored
      ensures Agree() && State() == old(State()).(backend := [])
    {
      var _ := AskBackend(BackendQueue.Event.Empty);
      stored := [];
    }

    /** Everything is dropped, and the clients' counts go to zero. */
    method Empty()
      requires Agree()
      modifies this
      ensures Agree() && State() == ChannelSpec.Emptied(old(State()))
    {
      EmptyFlightsAndDeferrals();
      EmptyClients();
      DrainMemory();
      EmptyBackend();
    }

    /** Writes what is in flight to the backend, in whatever order the map yields it. */
    method FlushInFlight(ghost v: View) returns (ghost order: seq<MessageID>)
      requires BackendMirrored() && FlightsMirrored() && v.inFlight == flights
      modifies this`backend, this`stored
      ensures BackendMirrored()
      ensures NoDuplicates(order) && Members(order) == v.inFlight.Keys && forall id | id in order :: id in v.inFlight
      ensures stored == FlushTo(cfg, old(stored), FlightMessages(v, order))
    {
      order := [];
      ghost var b := stored;
      var left := inFlightMessages.Keys;
      while left != {}
        invariant BackendMirrored() && left <= inFlightMessages.Keys
        invariant NoDuplicates(order) && Members(order) == v.inFlight.Keys - left
              && forall id | id in order :: id in v.inFlight
        invariant stored == FlushTo(cfg, b, FlightMessages(v, order))
        decreases |left|
      {
        var id :| id in left;
        var msg := inFlightMessages[id].Value;
        FlushFlightsStep(cfg, v, left, b, order, id);
        var _ := WriteMessageToBackend(msg);
        left, order := left - {id}, order + [id];
      }
    }

    method FlushDeferred(ghost v: View) returns (ghost order: seq<MessageID>)
      requires BackendMirrored() && DeferralsMirrored() && v.deferred == deferrals
      modifies this`backend, this`stored
      ensures BackendMirrored()
      ensures NoDuplicates(order) && Members(order) == v.deferred.Keys && forall id | id in order :: id in v.deferred
      ensures stored == FlushTo(cfg, old(stored), DeferredMessages(v, order))
    {
      order := [];
      ghost var b := stored;
      var left := deferredMessages.Keys;
      while left != {}
        invariant BackendMirrored() && left <= deferredMessages.Keys
        invariant NoDuplicates(order) && Members(order) == v.deferred.Keys - left
              && forall id | id in order :: id in v.deferred
        invariant stored == FlushTo(cfg, b, DeferredMessages(v, order))
        decreases |left|
      {
        var id :| id in left;
        var msg := deferredMessages[id].Value;
        FlushDeferralsStep(cfg, v, left, b, order, id);
        var _ := WriteMessageToBackend(msg);
        left, order := left - {id}, order + [id];
      }
    }

    method FlushMemory()
      requires BackendMirrored()
      modifies this`memoryMsgChan, this`backend, this`stored
      ensures BackendMirrored() && memoryMsgChan == []
      ensures stored == FlushTo(cfg, old(stored), old(memoryMsgChan))
    {
      while memoryMsgChan != []
        invariant BackendMirrored()
        invariant FlushTo(cfg, stored, memoryMsgChan) == FlushTo(cfg, old(stored), old(memoryMsgChan))
      {
        var msg := memoryMsgChan[0];
        memoryMsgChan := memoryMsgChan[1..];
        var _ := WriteMessageToBackend(msg);
      }
    }

    /** Everything the channel holds goes to the backend: memory, then what is in flight, then what is deferred. */
    method Close() returns (r: Outcome, ghost sent: seq<MessageID>, ghost put: seq<MessageID>)
      requires Agree()
      modifies this`exiting, this`memoryMsgChan, this`backend, this`stored
      ensures Agree()
      ensures r == Ok <==> !old(exiting)
      ensures r != Ok ==> r == Exiting && State() == old(State())
      ensures r == Ok ==> NoDuplicates(sent) && Members(sent) == old(flights).Keys
      ensures r == Ok ==> NoDuplicates(put) && Members(put) == old(deferrals).Keys
      ensures r == Ok ==> && (forall id | id in sent :: id in old(flights))
                          && (forall id | id in put :: id in old(deferrals))
                          && State() == Closed(cfg, old(State()), sent, put).0
    {
      sent, put := [], [];
      if exiting {
        return Exiting, sent, put;
      }
      BeginExit();
      sent, put := Flush(State());
      r := Ok;
    }

    method BeginExit()
      requires Agree()
      modifies this`exiting
      ensures Agree() && State() == old(State()).(exiting := true)
    {
      exiting := true;
    }

    method Flush(ghost v: View) returns (ghost sent: seq<MessageID>, ghost put: seq<MessageID>)
      requires Agree() && v == State()
      modifies this`memoryMsgChan, this`backend, this`stored
      ensures Agree()
      ensures NoDuplicates(sent) && Members(sent) == v.inFlight.Keys && forall id | id in sent :: id in v.inFlight
      ensures NoDuplicates(put) && Members(put) == v.deferred.Keys && forall id | id in put :: id in v.deferred
      ensures State() == Flushed(cfg, v, sent, put)
    {
      MoveMemoryToBackend();
      sent, put := FlushMaps(State());
    }

    method MoveMemoryToBackend()
      requires Agree()
      modifies this`memoryMsgChan, this`backend, this`stored
      ensures Agree()
      ensures State() == old(State()).(memory := [], backend := FlushTo(cfg, old(State()).backend, old(State()).memory))
    {
      FlushMemory();
    }

    method FlushMaps(ghost v: View) returns (ghost sent: seq<MessageID>, ghost put: seq<MessageID>)
      requires Agree() && v == State()
      modifies this`backend, this`stored
      ensures Agree()
      ensures NoDuplicates(sent) && Members(sent) == v.inFlight.Keys && forall id | id in sent :: id in v.inFlight
      ensures NoDuplicates(put) && Members(put) == v.deferred.Keys && forall id | id in put :: id in v.deferred
      ensures var b := FlushTo(cfg, v.backend, FlightMessages(v, sent));
              State() == v.(backend := FlushTo(cfg, b, DeferredMessages(v, put)))
    {
      sent := FlushInFlight(v);
      put := FlushDeferred(v);
    }
  }

  lemma StoredTail(bs: seq<Data>)
    requires bs != [] && forall b | b in bs :: Decode(b).Decoded?
    ensures forall b | b in bs[1..] :: Decode(b).Decoded?
    ensures Decode(bs[0]).Decoded? && Stored(bs)[0] == Decode(bs[0]).msg && Stored(bs[1..]) == Stored(bs)[1..]
  {
    assert bs[0] in bs;
  }
}

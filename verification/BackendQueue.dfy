/**
 The contract behind `BackendQueue`: a first-in first-out queue of byte strings that
 refuses a message whose length (as an int32) is outside its limits. It also tracks the
 depth the queue reports, which need not be the true one after data was lost.
 */
module BackendQueue {
  import opened Bytes

  type Data = seq<byte>

  /** Message size limits. Records carry a 4-byte header whose sum with the size must fit an int32. */
  datatype LimitsBase = Limits(minMsgSize: int, maxMsgSize: int)
  type Limits = l: LimitsBase | 0 <= l.minMsgSize && 4 + l.maxMsgSize <= MAX_INT32
    witness Limits(0, 0)

  /** The size test every put makes, on the length truncated to 32 bits. */
  predicate AcceptsSize(lim: Limits, size: nat) {
    lim.minMsgSize <= ToInt32(size) <= lim.maxMsgSize
  }

  /** Up to the largest int32 the limits are meant, both of them included. */
  lemma AcceptsSizeIff(lim: Limits, size: nat)
    requires size <= 0x7fff_ffff
    ensures AcceptsSize(lim, size) <==> lim.minMsgSize <= size <= lim.maxMsgSize
  {
  }

  predicate Accepts(lim: Limits, data: Data) {
    AcceptsSize(lim, |data|)
  }

  /** One turn of the event loop: which arm of its select fires. */
  datatype Event = Put(data: Data) | Deliver | Empty | Tick

  datatype Response = Accepted | Rejected | Delivered(data: Data) | Blocked | Emptied | Ticked

  /**
   `pending` is what will be delivered. `spoiled` matters only while something is pending: unreadable
   bytes stand behind it, so that delivering the last record does not reach the tail.
   */
  datatype State = State(pending: seq<Data>, depth: int, spoiled: bool)

  const EMPTY := State([], 0, false)

  function Step(lim: Limits, s: State, e: Event): (State, Response) {
    match e
    case Put(data) =>
      if Accepts(lim, data) then (State(s.pending + [data], s.depth + 1, false), Accepted) else (s, Rejected)
    case Deliver =>
      if s.pending == [] then (s, Blocked)
      else
        var reachesTail := |s.pending| == 1 && !s.spoiled;
        (s.(pending := s.pending[1..], depth := if reachesTail then 0 else s.depth - 1), Delivered(s.pending[0]))
    case Empty => (EMPTY, Emptied)
    case Tick => (s, Ticked)
  }

  function Run(lim: Limits, s: State, events: seq<Event>): (r: (State, seq<Response>))
    ensures |r.1| == |events|
    decreases |events|
  {
    if events == [] then (s, [])
    else
      var (t, response) := Step(lim, s, events[0]);
      var (end, rest) := Run(lim, t, events[1..]);
      (end, [response] + rest)
  }

  function DeliveredBy(response: Response): seq<Data> {
    if response.Delivered? then [response.data] else []
  }

  function AcceptedBy(lim: Limits, e: Event): seq<Data> {
    if e.Put? && Accepts(lim, e.data) then [e.data] else []
  }

  /** Each event is answered for what it is: a put by its size, a delivery by whether there is anything to deliver. */
  ghost predicate Answers(lim: Limits, s: State, e: Event, r: Response) {
    match e
    case Put(data) =>
      if |data| <= 0x7fff_ffff then
        r == if lim.minMsgSize <= |data| <= lim.maxMsgSize then Accepted else Rejected
      else r == if Accepts(lim, data) then Accepted else Rejected
    case Deliver => r == if s.pending == [] then Blocked else Delivered(s.pending[0])
    case Empty => r == Emptied
    case Tick => r == Ticked
  }

  /** In any run every event is answered so, in the state that the events before it led to. */
  lemma {:induction false} RunAnswers(lim: Limits, s: State, events: seq<Event>, k: nat)
    requires k < |events|
    ensures Answers(lim, Run(lim, s, events[..k]).0, events[k], Run(lim, s, events).1[k])
    decreases k
  {
    if k > 0 {
      RunAnswers(lim, Step(lim, s, events[0]).0, events[1..], k - 1);
      assert events[1..][..k - 1] == events[..k][1..];
    }
  }

  /** What consumers received, in order. */
  function Deliveries(responses: seq<Response>): seq<Data> {
    if responses == [] then [] else DeliveredBy(responses[0]) + Deliveries(responses[1..])
  }

  /** What producers had accepted, in order. */
  function AcceptedPuts(lim: Limits, events: seq<Event>): seq<Data> {
    if events == [] then [] else AcceptedBy(lim, events[0]) + AcceptedPuts(lim, events[1..])
  }

  lemma FifoStep(lim: Limits, s: State, e: Event)
    requires e != Empty
    ensures var (t, response) := Step(lim, s, e);
            DeliveredBy(response) + t.pending == s.pending + AcceptedBy(lim, e)
  {
  }

  /** Without an Empty nothing is lost, duplicated or reordered. */
  lemma {:induction false} Fifo(lim: Limits, s: State, events: seq<Event>)
    requires Empty !in events
    ensures var (end, responses) := Run(lim, s, events);
            Deliveries(responses) + end.pending == s.pending + AcceptedPuts(lim, events)
    decreases |events|
  {
    if events != [] {
      var (t, response) := Step(lim, s, events[0]);
      var (end, rest) := Run(lim, t, events[1..]);
      Fifo(lim, t, events[1..]);
      FifoStep(lim, s, events[0]);
      DeliveriesCons(response, rest);
      Splice(DeliveredBy(response), Deliveries(rest), end.pending, t.pending,
             AcceptedPuts(lim, events[1..]), s.pending, AcceptedBy(lim, events[0]));
    }
  }

  lemma DeliveriesCons(response: Response, rest: seq<Response>)
    ensures Deliveries([response] + rest) == DeliveredBy(response) + Deliveries(rest)
  {
    assert ([response] + rest)[1..] == rest;
  }

  lemma Splice(d: seq<Data>, ds: seq<Data>, end: seq<Data>, mid: seq<Data>, accs: seq<Data>, start: seq<Data>,
        acc: seq<Data>)
    requires d + mid == start + acc
    requires ds + end == mid + accs
    ensures (d + ds) + end == start + (acc + accs)
  {
    assert (d + ds) + end == d + (ds + end);
    assert d + (mid + accs) == (d + mid) + accs;
    assert (start + acc) + accs == start + (acc + accs);
  }

  lemma {:induction false} RunConcat(lim: Limits, s: State, first: seq<Event>, second: seq<Event>)
    ensures var (mid, a) := Run(lim, s, first);
            var (end, b) := Run(lim, mid, second);
            Run(lim, s, first + second) == (end, a + b)
    decreases |first|
  {
    if first == [] {
      assert first + second == second;
      var b := Run(lim, s, second).1;
      assert [] + b == b;
    } else {
      var (t, response) := Step(lim, s, first[0]);
      RunConcat(lim, t, first[1..], second);
      assert (first + second)[1..] == first[1..] + second;
      var (mid, a) := Run(lim, t, first[1..]);
      var b := Run(lim, mid, second).1;
      assert [response] + (a + b) == ([response] + a) + b;
    }
  }

  lemma RunSnoc(lim: Limits, s: State, events: seq<Event>, e: Event)
    ensures var (mid, a) := Run(lim, s, events);
            var (end, response) := Step(lim, mid, e);
            Run(lim, s, events + [e]) == (end, a + [response])
  {
    var mid := Run(lim, s, events).0;
    var (end, response) := Step(lim, mid, e);
    RunConcat(lim, s, events, [e]);
    assert Run(lim, end, []) == (end, []);
    var tail := Run(lim, end, [e][1..]);
    assert tail == (end, []);
    assert Run(lim, mid, [e]).1 == [response] + tail.1 == [response];
  }

  /** After the last Empty, deliveries are exactly the puts accepted since, in order. */
  lemma FifoSinceEmpty(lim: Limits, s: State, before: seq<Event>, after: seq<Event>)
    requires Empty !in after
    ensures var (end, responses) := Run(lim, s, before + [Empty] + after);
            && |responses| == |before| + 1 + |after|
            && Deliveries(responses[|before| + 1..]) + end.pending == AcceptedPuts(lim, after)
  {
    RunConcat(lim, s, before, [Empty]);
    RunConcat(lim, s, before + [Empty], after);
    var cleared := Run(lim, s, before + [Empty]).0;
    assert cleared.pending == [] by {
      var mid := Run(lim, s, before).0;
      assert Run(lim, mid, [Empty]).0 == Run(lim, Step(lim, mid, Empty).0, []).0;
    }
    Fifo(lim, cleared, after);
    assert Run(lim, s, before + [Empty] + after).1[|before| + 1..] == Run(lim, cleared, after).1;
  }

  /** An exact depth stays exact. */
  lemma {:induction false} DepthStaysExact(lim: Limits, s: State, events: seq<Event>)
    requires s.depth == |s.pending|
    ensures var end := Run(lim, s, events).0; end.depth == |end.pending|
    decreases |events|
  {
    if events != [] {
      DepthStaysExact(lim, Step(lim, s, events[0]).0, events[1..]);
    }
  }

  /** Whatever the depth drifted to, one delivery that reaches the tail makes it exact again for good. */
  lemma {:induction false} DepthHeals(lim: Limits, s: State, events: seq<Event>, k: nat)
    requires k < |events|
    requires var mid := Run(lim, s, events[..k]).0; events[k] == Empty || (mid.pending != [] && !mid.spoiled)
    requires Run(lim, s, events[..k + 1]).0.pending == []
    ensures var end := Run(lim, s, events).0; end.depth == |end.pending|
  {
    RunConcat(lim, s, events[..k], [events[k]]);
    assert events[..k + 1] == events[..k] + [events[k]];
    var mid := Run(lim, s, events[..k]).0;
    var drained := Step(lim, mid, events[k]).0;
    assert Run(lim, mid, [events[k]]).0 == Run(lim, drained, []).0;
    RunConcat(lim, s, events[..k + 1], events[k + 1..]);
    assert events == events[..k + 1] + events[k + 1..];
    DepthStaysExact(lim, drained, events[k + 1..]);
  }
}

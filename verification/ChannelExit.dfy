/**
 Closing a channel while clients requeue messages. Closing holds the exit lock and flushes memory, then what is
 in flight, then what is deferred, each under its own lock; a requeue takes its message out of
 flight first and queues it again later. A step is one such critical section, in any interleaving.
 */
module ChannelExit {
  import opened Messages
  import opened Wrappers

  /** How far closing has come. From Locked to DeferredFlushed the exit lock is held, from Locked on the flag is set. */
  datatype Phase = Running | Locked | MemoryFlushed | FlightsFlushed | DeferredFlushed | Closed

  function Rank(p: Phase): nat {
    match p
    case Running => 0
    case Locked => 1
    case MemoryFlushed => 2
    case FlightsFlushed => 3
    case DeferredFlushed => 4
    case Closed => 5
  }

  predicate Reached(now: Phase, p: Phase) {
    Rank(now) >= Rank(p)
  }

  /** A requeue: with a delay or without, in which phase it took its message, and in which it queued it, if it has. */
  datatype Requeue = Requeue(delayed: bool, takenIn: Phase, queuedIn: Option<Phase>)

  datatype State = State(
    phase: Phase,
    memory: multiset<Msg>, backend: multiset<Msg>,
    inFlight: map<MessageID, Msg>, deferred: map<MessageID, Msg>,
    taken: map<MessageID, Msg>, // by requeues that have not queued them again
    requeues: map<MessageID, Requeue>)

  datatype Step =
    | Lock | FlushMemory | FlushFlights | FlushDeferred | Unlock
    | Take(id: MessageID, delayed: bool)
    | QueueAgain(id: MessageID, room: bool) // whether there is room in memory

  predicate Enabled(s: State, step: Step) {
    match step
    case Lock => s.phase == Running
    case FlushMemory => s.phase == Locked
    case FlushFlights => s.phase == MemoryFlushed
    case FlushDeferred => s.phase == FlightsFlushed
    case Unlock => s.phase == DeferredFlushed
    case Take(id, _) => id in s.inFlight
    case QueueAgain(id, _) =>
      // without a delay it needs the exit lock
      && id in s.taken && id in s.requeues
      && (s.requeues[id].delayed || s.phase == Running || s.phase == Closed)
  }

  ghost function Held(ms: map<MessageID, Msg>): multiset<Msg> {
    multiset(set id | id in ms :: ms[id])
  }

  ghost function Next(s: State, step: Step): State
    requires Enabled(s, step)
  {
    match step
    case Lock => s.(phase := Locked)
    case FlushMemory => s.(phase := MemoryFlushed, memory := multiset{}, backend := s.backend + s.memory)
    case FlushFlights => s.(phase := FlightsFlushed, backend := s.backend + Held(s.inFlight))
    case FlushDeferred => s.(phase := DeferredFlushed, backend := s.backend + Held(s.deferred))
    case Unlock => s.(phase := Closed)
    case Take(id, delayed) =>
      s.(inFlight := s.inFlight - {id}, taken := s.taken[id := s.inFlight[id]],
         requeues := s.requeues[id := Requeue(delayed, s.phase, None)])
    case QueueAgain(id, room) =>
      var t := s.(taken := s.taken - {id}, requeues := s.requeues[id := s.requeues[id].(queuedIn := Some(s.phase))]);
      if s.requeues[id].delayed then
        if id in s.deferred then t else t.(deferred := s.deferred[id := s.taken[id]])
      else if s.phase == Closed then t // the exit flag is set: an error
      else if room then t.(memory := s.memory + multiset{s.taken[id]})
      else t.(backend := s.backend + multiset{s.taken[id]})
  }

  /** Before anything is requeued or closed. */
  ghost predicate Start(s: State) {
    && s.phase == Running && s.taken == map[] && s.requeues == map[]
    && (forall id | id in s.inFlight :: s.inFlight[id].ID == id && id !in s.deferred)
    && (forall id | id in s.deferred :: s.deferred[id].ID == id)
    && (forall id | id in s.inFlight :: s.memory[s.inFlight[id]] == 0 && s.backend[s.inFlight[id]] == 0)
  }

  /** Whether a message that was in flight is, in phase `now`, in the backend through the flush of what is in flight. */
  predicate FlushedInFlight(s: State, id: MessageID) {
    Reached(s.phase, FlightsFlushed) && (id in s.requeues ==> Reached(s.requeues[id].takenIn, FlightsFlushed))
  }

  predicate QueuedAgain(s: State, id: MessageID) {
    id in s.requeues && s.requeues[id].queuedIn.Some?
  }

  /** Through the flush of what is deferred. */
  predicate FlushedDeferred(s: State, id: MessageID) {
    && Reached(s.phase, DeferredFlushed) && QueuedAgain(s, id)
    && s.requeues[id].delayed && !Reached(s.requeues[id].queuedIn.value, DeferredFlushed)
  }

  /** Through being queued at once. */
  predicate QueuedAtOnce(s: State, id: MessageID) {
    QueuedAgain(s, id) && !s.requeues[id].delayed && s.requeues[id].queuedIn.value == Running
  }

  function Times(b: bool): nat {
    if b then 1 else 0
  }

  /** Where a message is that was in flight at the start. */
  ghost predicate Tracked(s: State, id: MessageID, m: Msg) {
    && m.ID == id
    && (id in s.inFlight <==> id !in s.requeues) && (id in s.inFlight ==> s.inFlight[id] == m)
    && (id in s.taken <==> id in s.requeues && s.requeues[id].queuedIn.None?) && (id in s.taken ==> s.taken[id] == m)
    && (id in s.deferred <==> QueuedAgain(s, id) && s.requeues[id].delayed)
          && (id in s.deferred ==> s.deferred[id] == m)
    && s.memory[m] + s.backend[m]
       == Times(FlushedInFlight(s, id)) + Times(FlushedDeferred(s, id)) + Times(QueuedAtOnce(s, id))
  }

  ghost predicate Sound(s: State) {
    && (forall id | id in s.inFlight :: s.inFlight[id].ID == id)
    && (forall id | id in s.deferred :: s.deferred[id].ID == id)
    && (forall id | id in s.taken :: s.taken[id].ID == id)
    && (forall id | id in s.requeues :: Reached(s.phase, s.requeues[id].takenIn))
    && (forall id | id in s.requeues && s.requeues[id].queuedIn.Some? ::
          Reached(s.phase, s.requeues[id].queuedIn.value))
    && (Reached(s.phase, MemoryFlushed) ==> s.memory == multiset{})
  }

  lemma CountOf(ms: map<MessageID, Msg>, m: Msg)
    requires forall id | id in ms :: ms[id].ID == id
    ensures Held(ms)[m] == Times(m.ID in ms && ms[m.ID] == m)
  {
    var all := set id | id in ms :: ms[id];
    assert m in all <==> m.ID in ms && ms[m.ID] == m;
  }

  lemma QueueAgainSound(s: State, id: MessageID, room: bool)
    requires Sound(s) && Enabled(s, QueueAgain(id, room))
    ensures Sound(Next(s, QueueAgain(id, room)))
  {
    assert s.taken[id].ID == id;
  }

  lemma StepSound(s: State, step: Step)
    requires Sound(s) && Enabled(s, step)
    ensures Sound(Next(s, step))
  {
    if step.QueueAgain? {
      QueueAgainSound(s, step.id, step.room);
    }
  }

  lemma FlushTracks(s: State, step: Step, id: MessageID, m: Msg)
    requires Sound(s) && Tracked(s, id, m) && Enabled(s, step) && (step.FlushFlights? || step.FlushDeferred?)
    ensures Tracked(Next(s, step), id, m)
  {
    if step.FlushFlights? {
      CountOf(s.inFlight, m);
    } else {
      CountOf(s.deferred, m);
    }
  }

  lemma PhaseTracks(s: State, step: Step, id: MessageID, m: Msg)
    requires Sound(s) && Tracked(s, id, m) && Enabled(s, step) && (step.Lock? || step.FlushMemory? || step.Unlock?)
    ensures Tracked(Next(s, step), id, m)
  {
  }

  lemma TakeTracks(s: State, x: MessageID, delayed: bool, id: MessageID, m: Msg)
    requires Sound(s) && Tracked(s, id, m) && Enabled(s, Take(x, delayed))
    ensures Tracked(Next(s, Take(x, delayed)), id, m)
  {
  }

  lemma QueueAgainCounts(s: State, x: MessageID, room: bool, m: Msg)
    requires Enabled(s, QueueAgain(x, room))
    ensures var t, put := Next(s, QueueAgain(x, room)), !s.requeues[x].delayed && s.phase == Running;
            t.memory[m] + t.backend[m] == s.memory[m] + s.backend[m] + Times(put && s.taken[x] == m)
  {
  }

  lemma OthersUntouched(s: State, x: MessageID, room: bool, id: MessageID)
    requires Enabled(s, QueueAgain(x, room)) && x != id
    ensures var t := Next(s, QueueAgain(x, room));
            && t.phase == s.phase && t.inFlight == s.inFlight
            && (id in t.requeues <==> id in s.requeues) && (id in s.requeues ==> t.requeues[id] == s.requeues[id])
            && (id in t.taken <==> id in s.taken) && (id in s.taken ==> t.taken[id] == s.taken[id])
            && (id in t.deferred <==> id in s.deferred) && (id in s.deferred ==> t.deferred[id] == s.deferred[id])
  {
  }

  lemma OthersQueueAgain(s: State, x: MessageID, room: bool, id: MessageID, m: Msg)
    requires Sound(s) && Tracked(s, id, m) && Enabled(s, QueueAgain(x, room)) && x != id
    ensures Tracked(Next(s, QueueAgain(x, room)), id, m)
  {
    OthersUntouched(s, x, room, id);
    QueueAgainCounts(s, x, room, m);
    assert s.taken[x].ID == x;
  }

  lemma QueueAgainTracks(s: State, id: MessageID, room: bool, m: Msg)
    requires Sound(s) && Tracked(s, id, m) && Enabled(s, QueueAgain(id, room))
    ensures Tracked(Next(s, QueueAgain(id, room)), id, m)
  {
    QueueAgainCounts(s, id, room, m);
  }

  lemma StepTracks(s: State, step: Step, id: MessageID, m: Msg)
    requires Sound(s) && Tracked(s, id, m) && Enabled(s, step)
    ensures Sound(Next(s, step)) && Tracked(Next(s, step), id, m)
  {
    StepSound(s, step);
    match step
    case Take(x, delayed) => TakeTracks(s, x, delayed, id, m);
    case QueueAgain(x, room) =>
      if x == id {
        QueueAgainTracks(s, id, room, m);
      } else {
        OthersQueueAgain(s, x, room, id, m);
      }
    case FlushFlights => FlushTracks(s, step, id, m);
    case FlushDeferred => FlushTracks(s, step, id, m);
    case _ => PhaseTracks(s, step, id, m);
  }

  ghost predicate IsRun(ss: seq<State>, steps: seq<Step>) {
    && |ss| == |steps| + 1
    && forall i | 0 <= i < |steps| :: Enabled(ss[i], steps[i]) && ss[i + 1] == Next(ss[i], steps[i])
  }

  lemma {:induction false} RunTracks(ss: seq<State>, steps: seq<Step>, i: nat, id: MessageID)
    requires IsRun(ss, steps) && Start(ss[0]) && i < |ss| && id in ss[0].inFlight
    ensures Sound(ss[i]) && Tracked(ss[i], id, ss[0].inFlight[id])
    decreases i
  {
    if i > 0 {
      RunTracks(ss, steps, i - 1, id);
      StepTracks(ss[i - 1], steps[i - 1], id, ss[0].inFlight[id]);
    }
  }

  /**
   In every interleaving the closed channel's backend has a message that was in flight once for not having
   been taken before what is in flight was flushed, and once for having been queued again in time: without
   a delay, before closing began; with one, before what is deferred was flushed.
   */
  lemma CopiesAfterClose(ss: seq<State>, steps: seq<Step>, id: MessageID)
    requires IsRun(ss, steps) && Start(ss[0]) && id in ss[0].inFlight
    requires ss[|steps|].phase == Closed
    ensures var s, m := ss[|steps|], ss[0].inFlight[id];
            var stayed := id !in s.requeues || Reached(s.requeues[id].takenIn, FlightsFlushed);
            var inTime := && id in s.requeues && s.requeues[id].queuedIn.Some?
                          && !Reached(s.requeues[id].queuedIn.value,
                                      if s.requeues[id].delayed then DeferredFlushed else Locked);
            && s.backend[m] == Times(stayed) + Times(inTime)
            && (m in s.backend <==> stayed || inTime)
  {
    RunTracks(ss, steps, |steps|, id);
  }

  /** A channel with one message in flight. */
  function OneInFlight(m: Msg): State {
    State(Running, multiset{}, multiset{}, map[m.ID := m], map[], map[], map[])
  }

  /** The steps `steps` can be taken from `s` and lead to `t`. */
  ghost predicate LeadsTo(s: State, steps: seq<Step>, t: State)
    decreases |steps|
  {
    if steps == [] then s == t else Enabled(s, steps[0]) && LeadsTo(Next(s, steps[0]), steps[1..], t)
  }

  lemma {:induction false} LeadsOn(s: State, first: seq<Step>, t: State, second: seq<Step>, u: State)
    requires LeadsTo(s, first, t) && LeadsTo(t, second, u)
    ensures LeadsTo(s, first + second, u)
    decreases |first|
  {
    if first == [] {
      assert first + second == second;
    } else {
      assert (first + second)[1..] == first[1..] + second;
      LeadsOn(Next(s, first[0]), first[1..], t, second, u);
    }
  }

  lemma LeadsOnce(s: State, step: Step)
    requires Enabled(s, step)
    ensures LeadsTo(s, [step], Next(s, step))
  {
    assert [step][1..] == [] && LeadsTo(Next(s, step), [], Next(s, step));
  }

  const FLUSH_FLIGHTS: seq<Step> := [Lock, FlushMemory, FlushFlights]
  const FLUSH_REST: seq<Step> := [FlushDeferred, Unlock]

  lemma FlightsFlush(s: State)
    requires s.phase == Running
    ensures LeadsTo(s, FLUSH_FLIGHTS, s.(phase := FlightsFlushed, memory := multiset{},
                                         backend := s.backend + s.memory + Held(s.inFlight)))
  {
    var s1 := Next(s, Lock);
    var s2 := Next(s1, FlushMemory);
    LeadsOnce(s, Lock);
    LeadsOnce(s1, FlushMemory);
    LeadsOnce(s2, FlushFlights);
    LeadsOn(s, [Lock], s1, [FlushMemory], s2);
    LeadsOn(s, [Lock] + [FlushMemory], s2, [FlushFlights], Next(s2, FlushFlights));
    assert [Lock] + [FlushMemory] + [FlushFlights] == FLUSH_FLIGHTS;
  }

  lemma RestFlush(s: State)
    requires s.phase == FlightsFlushed
    ensures LeadsTo(s, FLUSH_REST, s.(phase := Closed, backend := s.backend + Held(s.deferred)))
  {
    var s1 := Next(s, FlushDeferred);
    LeadsOnce(s, FlushDeferred);
    LeadsOnce(s1, Unlock);
    LeadsOn(s, [FlushDeferred], s1, [Unlock], Next(s1, Unlock));
    assert [FlushDeferred] + [Unlock] == FLUSH_REST;
  }

  /** With a delay or without: a requeue that takes its message before closing, and queues it after, loses it. */
  lemma RequeueLost(m: Msg, delayed: bool)
    ensures var steps := [Take(m.ID, delayed)] + FLUSH_FLIGHTS + FLUSH_REST + [QueueAgain(m.ID, true)];
            exists t :: LeadsTo(OneInFlight(m), steps, t) && t.phase == Closed && m !in t.backend
  {
    var s, take, again := OneInFlight(m), Take(m.ID, delayed), QueueAgain(m.ID, true);
    var s1 := Next(s, take);
    var s2 := s1.(phase := FlightsFlushed);
    var s3 := s2.(phase := Closed);
    LeadsOnce(s, take);
    FlightsFlush(s1);
    RestFlush(s2);
    LeadsOnce(s3, again);
    LeadsOn(s, [take], s1, FLUSH_FLIGHTS, s2);
    LeadsOn(s, [take] + FLUSH_FLIGHTS, s2, FLUSH_REST, s3);
    LeadsOn(s, [take] + FLUSH_FLIGHTS + FLUSH_REST, s3, [again], Next(s3, again));
  }

  /** A delayed requeue that falls between the two flushes leaves its message in the backend twice. */
  lemma RequeueDoubled(m: Msg)
    ensures var steps := FLUSH_FLIGHTS + [Take(m.ID, true)] + [QueueAgain(m.ID, true)] + FLUSH_REST;
            exists t :: LeadsTo(OneInFlight(m), steps, t) && t.phase == Closed && t.backend[m] == 2
  {
    var s, take, again := OneInFlight(m), Take(m.ID, true), QueueAgain(m.ID, true);
    var s1 := s.(phase := FlightsFlushed, backend := multiset{} + multiset{} + Held(s.inFlight));
    var s2 := Next(s1, take);
    var s3 := Next(s2, again);
    var s4 := s3.(phase := Closed, backend := s3.backend + Held(s3.deferred));
    FlightsFlush(s);
    LeadsOnce(s1, take);
    LeadsOnce(s2, again);
    RestFlush(s3);
    LeadsOn(s, FLUSH_FLIGHTS, s1, [take], s2);
    LeadsOn(s, FLUSH_FLIGHTS + [take], s2, [again], s3);
    LeadsOn(s, FLUSH_FLIGHTS + [take] + [again], s3, FLUSH_REST, s4);
    CountOf(s.inFlight, m);
    CountOf(s3.deferred, m);
  }
}

/**
 Flow control of one consumer: the message pump, the command loop and everybody else who
 changes the client's counters run concurrently. A step is one atomic load or store, one attempt
 to post to the one-slot ready channel, or one critical section of the channel.
 */
module FlowControl {

  /** What the pump has read of the three values it decides on. */
  datatype Seen = SeenPaused | SeenCounts(rdy: int, count: int)

  datatype Pump =
    | Unsubscribed
    | LoopTop
    | Unpaused                // the channel was read as not paused
    | HasRdy(rdy: int)        // and the ready count was loaded
    | Waiting(seen: Seen)     // in the select: message channels are open exactly if what was seen says ready
    | Received(seen: Seen)    // holds a message
    | Launched(seen: Seen)    // the message was put in flight, but is not counted
    | Counted                 // counted, but not written to the client

  datatype CommandLoop =
    | AtRest
    | Removed                 // a FIN or REQ took its message out of flight; the count is unchanged
    | Changed                 // a counter was changed, the token not posted
    | ZeroStored              // CLS stored ready count 0
    | ZeroPosted              // CLS posted its token

  datatype ClientState = Init | Subscribed | Closing

  /**
   `owned` is the number of the client's messages in the channel's in-flight map. Of the other
   goroutines only what they still have to do matters: timed-out messages not yet counted down, tokens not
   yet posted, and Empty calls that have dropped the in-flight map but not yet reset the client.
   `leaked` is what the count contains for messages that will never be counted down.
   */
  datatype State = State(
    paused: bool, rdy: int, count: int, token: bool, client: ClientState, owned: nat,
    pump: Pump, loop: CommandLoop,
    uncounted: nat, posts: nat, pausePosts: nat, empties: nat,
    leaked: nat)

  function Initial(paused: bool): State {
    State(paused, 0, 0, false, Init, 0, Unsubscribed, AtRest, 0, 0, 0, 0, 0)
  }

  datatype Step =
    // the pump
    | GetChannel | ReadPaused | ReadRdy | ReadCount | TakeToken | GoAround
    | Receive | SampleOut | Launch(ok: bool) | CountMessage | WriteMessage
    // the command loop
    | Sub | Rdy(n: int) | Cls | PostChange | PostZero | MarkClosing
    | TakeMessage | CountDown | FailRequeue
    // other goroutines
    | TimeOut | CountTimeout | Post | SetPaused(p: bool) | PostPaused | DropInFlight | ResetCount

  predicate SaysReady(seen: Seen) {
    seen.SeenCounts? && seen.count < seen.rdy && seen.rdy > 0
  }

  predicate Enabled(s: State, step: Step) {
    match step
    case GetChannel => s.pump.Unsubscribed? && s.client != Init
    case ReadPaused => s.pump.LoopTop?
    case ReadRdy => s.pump.Unpaused?
    case ReadCount => s.pump.HasRdy?
    case TakeToken => s.token && (s.pump.Waiting? || s.pump.Unsubscribed?)
    case GoAround => s.pump.Waiting?
    case Receive => s.pump.Waiting? && SaysReady(s.pump.seen)
    case SampleOut => s.pump.Received?
    case Launch(_) => s.pump.Received?
    case CountMessage => s.pump.Launched?
    case WriteMessage => s.pump.Counted?
    case Sub => s.loop.AtRest? && s.client == Init
    case Rdy(_) => s.loop.AtRest?
    case Cls => s.loop.AtRest?
    case PostChange => s.loop.Changed?
    case PostZero => s.loop.ZeroStored?
    case MarkClosing => s.loop.ZeroPosted?
    case TakeMessage => s.loop.AtRest? && s.client != Init && s.owned > 0
    case CountDown => s.loop.Removed?
    case FailRequeue => s.loop.Removed?
    case TimeOut => s.owned > 0
    case CountTimeout => s.uncounted > 0
    case Post => s.posts > 0
    case SetPaused(_) => true
    case PostPaused => s.pausePosts > 0
    case DropInFlight => true
    case ResetCount => s.empties > 0
  }

  function PumpStep(s: State, step: Step): State
    requires Enabled(s, step)
  {
    match step
    case GetChannel => s.(pump := LoopTop)
    case ReadPaused => s.(pump := if s.paused then Waiting(SeenPaused) else Unpaused)
    case ReadRdy => s.(pump := HasRdy(s.rdy))
    case ReadCount => s.(pump := Waiting(SeenCounts(s.pump.rdy, s.count)))
    case TakeToken => s.(token := false, pump := if s.pump.Waiting? then LoopTop else s.pump)
    case GoAround => s.(pump := LoopTop)
    case Receive => s.(pump := Received(s.pump.seen))
    case SampleOut => s.(pump := LoopTop)
    case Launch(ok) =>
      // that a message could not be put in flight goes unnoticed
      if ok then s.(pump := Launched(s.pump.seen), owned := s.owned + 1)
      else s.(pump := Launched(s.pump.seen), leaked := s.leaked + 1)
    case CountMessage => s.(pump := Counted, count := s.count + 1)
    case WriteMessage => s.(pump := LoopTop)
    case _ => s
  }

  function LoopStep(maxRdy: nat, s: State, step: Step): State
    requires Enabled(s, step)
  {
    match step
    case Sub => s.(client := Subscribed)
    case Rdy(n) =>
      // ignored when closing; an error before SUB or out of range
      if s.client != Subscribed || n < 0 || n > maxRdy then s else s.(rdy := n, loop := Changed)
    case Cls => if s.client != Subscribed then s else s.(rdy := 0, loop := ZeroStored)
    case PostChange => s.(token := true, loop := AtRest)
    case PostZero => s.(token := true, loop := ZeroPosted)
    case MarkClosing => s.(client := Closing, loop := AtRest)
    case TakeMessage => s.(owned := s.owned - 1, loop := Removed)
    case CountDown => s.(count := s.count - 1, loop := Changed)
    case FailRequeue => s.(leaked := s.leaked + 1, loop := AtRest)
    case _ => s
  }

  function OtherStep(s: State, step: Step): State
    requires Enabled(s, step)
  {
    match step
    case TimeOut => s.(owned := s.owned - 1, uncounted := s.uncounted + 1)
    case CountTimeout => s.(uncounted := s.uncounted - 1, count := s.count - 1, posts := s.posts + 1)
    case Post => s.(posts := s.posts - 1, token := true)
    case SetPaused(p) => s.(paused := p, pausePosts := s.pausePosts + 1)
    // only clients that are attached by then get a token
    case PostPaused => s.(pausePosts := s.pausePosts - 1, token := s.token || s.client != Init)
    case DropInFlight => s.(leaked := s.leaked + s.owned, owned := 0, empties := s.empties + 1)
    case ResetCount => s.(empties := s.empties - 1, count := 0, leaked := 0, posts := s.posts + 1)
    case _ => s
  }

  predicate ByPump(step: Step) {
    step.GetChannel? || step.ReadPaused? || step.ReadRdy? || step.ReadCount? || step.TakeToken? || step.GoAround?
    || step.Receive? || step.SampleOut? || step.Launch? || step.CountMessage? || step.WriteMessage?
  }

  predicate ByLoop(step: Step) {
    step.Sub? || step.Rdy? || step.Cls? || step.PostChange? || step.PostZero? || step.MarkClosing?
    || step.TakeMessage? || step.CountDown? || step.FailRequeue?
  }

  function Next(maxRdy: nat, s: State, step: Step): State
    requires Enabled(s, step)
  {
    if ByPump(step) then PumpStep(s, step)
    else if ByLoop(step) then LoopStep(maxRdy, s, step)
    else OtherStep(s, step)
  }

  /** `steps` can be taken one after the other from `s`. */
  predicate IsRun(maxRdy: nat, s: State, steps: seq<Step>)
    decreases |steps|
  {
    steps == [] || (Enabled(s, steps[0]) && IsRun(maxRdy, Next(maxRdy, s, steps[0]), steps[1..]))
  }

  function After(maxRdy: nat, s: State, steps: seq<Step>): State
    requires IsRun(maxRdy, s, steps)
    decreases |steps|
  {
    if steps == [] then s else After(maxRdy, Next(maxRdy, s, steps[0]), steps[1..])
  }

  lemma {:induction false} RunConcat(maxRdy: nat, s: State, steps: seq<Step>, more: seq<Step>)
    requires IsRun(maxRdy, s, steps)
    ensures IsRun(maxRdy, s, steps + more) <==> IsRun(maxRdy, After(maxRdy, s, steps), more)
    ensures IsRun(maxRdy, s, steps + more) ==>
              After(maxRdy, s, steps + more) == After(maxRdy, After(maxRdy, s, steps), more)
    decreases |steps|
  {
    if steps == [] {
      assert steps + more == more;
    } else {
      assert (steps + more)[1..] == steps[1..] + more;
      RunConcat(maxRdy, Next(maxRdy, s, steps[0]), steps[1..], more);
    }
  }

  lemma RunSnoc(maxRdy: nat, s: State, steps: seq<Step>, step: Step)
    requires IsRun(maxRdy, s, steps + [step])
    ensures IsRun(maxRdy, s, steps) && Enabled(After(maxRdy, s, steps), step)
    ensures After(maxRdy, s, steps + [step]) == Next(maxRdy, After(maxRdy, s, steps), step)
  {
    RunPrefix(maxRdy, s, steps, [step]);
    RunConcat(maxRdy, s, steps, [step]);
    assert [step][1..] == [];
  }

  lemma {:induction false} RunPrefix(maxRdy: nat, s: State, steps: seq<Step>, more: seq<Step>)
    requires IsRun(maxRdy, s, steps + more)
    ensures IsRun(maxRdy, s, steps)
    decreases |steps|
  {
    if steps != [] {
      assert (steps + more)[1..] == steps[1..] + more;
      RunPrefix(maxRdy, Next(maxRdy, s, steps[0]), steps[1..], more);
    }
  }

  // ---- What the counters say of the steps taken ----

  /** SUB attaches the client, and the end of an accepted CLS lets go of it. */
  function ClientAfter(steps: seq<Step>): ClientState {
    if steps == [] then Init
    else
      match steps[|steps| - 1]
      case Sub => Subscribed
      case MarkClosing => Closing
      case _ => ClientAfter(steps[..|steps| - 1])
  }

  /** A RDY is accepted from a subscribed client, within the limit. */
  predicate AcceptsRdy(maxRdy: nat, before: seq<Step>, n: int) {
    ClientAfter(before) == Subscribed && 0 <= n <= maxRdy
  }

  /** The number the last accepted RDY asked for; 0 if there was none, or a CLS since. */
  function LastRdy(maxRdy: nat, steps: seq<Step>): int {
    if steps == [] then 0
    else
      var before := steps[..|steps| - 1];
      match steps[|steps| - 1]
      case Rdy(n) => if AcceptsRdy(maxRdy, before, n) then n else LastRdy(maxRdy, before)
      case Cls => if ClientAfter(before) == Subscribed then 0 else LastRdy(maxRdy, before)
      case _ => LastRdy(maxRdy, before)
  }

  /** Messages counted and not counted down since the last reset. */
  function CountOf(steps: seq<Step>): int {
    if steps == [] then 0
    else
      var before := steps[..|steps| - 1];
      match steps[|steps| - 1]
      case CountMessage => CountOf(before) + 1
      case CountDown => CountOf(before) - 1
      case CountTimeout => CountOf(before) - 1
      case ResetCount => 0
      case _ => CountOf(before)
  }

  /** Messages put in flight, and not answered, timed out or dropped since. */
  function OwnedOf(steps: seq<Step>): int {
    if steps == [] then 0
    else
      var before := steps[..|steps| - 1];
      match steps[|steps| - 1]
      case Launch(ok) => OwnedOf(before) + if ok then 1 else 0
      case TakeMessage => OwnedOf(before) - 1
      case TimeOut => OwnedOf(before) - 1
      case DropInFlight => 0
      case _ => OwnedOf(before)
  }

  /** Whether the channel was last paused or unpaused. */
  function PausedBy(paused: bool, steps: seq<Step>): bool {
    if steps == [] then paused
    else
      var last := steps[|steps| - 1];
      if last.SetPaused? then last.p else PausedBy(paused, steps[..|steps| - 1])
  }

  /** In every interleaving the ready count is what the client last asked for. */
  lemma {:induction false} RdyIsAsked(maxRdy: nat, paused: bool, steps: seq<Step>)
    requires IsRun(maxRdy, Initial(paused), steps)
    ensures var t := After(maxRdy, Initial(paused), steps);
            t.client == ClientAfter(steps) && t.rdy == LastRdy(maxRdy, steps)
    decreases |steps|
  {
    if steps != [] {
      var before, last := steps[..|steps| - 1], steps[|steps| - 1];
      assert before + [last] == steps;
      RunSnoc(maxRdy, Initial(paused), before, last);
      RdyIsAsked(maxRdy, paused, before);
    }
  }

  /** And the other counters are what the steps taken make them. */
  lemma {:induction false} CountersTell(maxRdy: nat, paused: bool, steps: seq<Step>)
    requires IsRun(maxRdy, Initial(paused), steps)
    ensures var t := After(maxRdy, Initial(paused), steps);
            t.count == CountOf(steps) && t.owned == OwnedOf(steps) && t.paused == PausedBy(paused, steps)
    decreases |steps|
  {
    if steps != [] {
      var before, last := steps[..|steps| - 1], steps[|steps| - 1];
      assert before + [last] == steps;
      RunSnoc(maxRdy, Initial(paused), before, last);
      CountersTell(maxRdy, paused, before);
    }
  }

  // ---- The in-flight bound ----

  /** The pump has seen a ready count that let it take a message, and the message is not counted yet. */
  predicate MayCount(p: Pump) {
    (p.Waiting? && SaysReady(p.seen)) || p.Received? || p.Launched?
  }

  predicate Bounded(maxRdy: nat, s: State) {
    && 0 <= s.rdy <= maxRdy && s.count <= maxRdy
    && (s.pump.HasRdy? ==> s.pump.rdy <= maxRdy)
    && (s.pump.Received? || s.pump.Launched? ==> SaysReady(s.pump.seen))
    && (MayCount(s.pump) ==> s.count < s.pump.seen.rdy <= maxRdy)
  }

  lemma StepBounded(maxRdy: nat, s: State, step: Step)
    requires Bounded(maxRdy, s) && Enabled(s, step)
    ensures Bounded(maxRdy, Next(maxRdy, s, step))
  {
  }

  /**
   In every interleaving the in-flight count stays within the limit on ready counts, although the ready count
   may drop, and the count be reset, between the pump's check and its send.
   */
  lemma {:induction false} CountStaysBounded(maxRdy: nat, s: State, steps: seq<Step>)
    requires Bounded(maxRdy, s) && IsRun(maxRdy, s, steps)
    ensures Bounded(maxRdy, After(maxRdy, s, steps))
    ensures After(maxRdy, s, steps).count <= maxRdy
    decreases |steps|
  {
    if steps != [] {
      StepBounded(maxRdy, s, steps[0]);
      CountStaysBounded(maxRdy, Next(maxRdy, s, steps[0]), steps[1..]);
    }
  }

  /** The accepted RDYs of a run ask for at most `k`. */
  predicate AsksForAtMost(maxRdy: nat, k: nat, steps: seq<Step>) {
    forall i | 0 <= i < |steps| && steps[i].Rdy? && AcceptsRdy(maxRdy, steps[..i], steps[i].n) :: steps[i].n <= k
  }

  lemma AsksForLess(maxRdy: nat, k: nat, before: seq<Step>, last: Step)
    requires AsksForAtMost(maxRdy, k, before + [last])
    ensures AsksForAtMost(maxRdy, k, before)
    ensures last.Rdy? && AcceptsRdy(maxRdy, before, last.n) ==> last.n <= k
  {
    var steps := before + [last];
    assert steps[..|before|] == before && steps[|before|] == last;
    forall i | 0 <= i < |before| && before[i].Rdy? && AcceptsRdy(maxRdy, before[..i], before[i].n)
      ensures before[i].n <= k
    {
      assert steps[..i] == before[..i] && steps[i] == before[i];
    }
  }

  /** So a client never has more messages counted in flight than the most it ever asked for. */
  lemma {:induction false} CountWithinAsked(maxRdy: nat, k: nat, paused: bool, steps: seq<Step>)
    requires IsRun(maxRdy, Initial(paused), steps) && AsksForAtMost(maxRdy, k, steps)
    ensures var t := After(maxRdy, Initial(paused), steps); Bounded(k, t) && t.count <= k
    decreases |steps|
  {
    if steps != [] {
      var before, last := steps[..|steps| - 1], steps[|steps| - 1];
      assert before + [last] == steps;
      RunSnoc(maxRdy, Initial(paused), before, last);
      AsksForLess(maxRdy, k, before, last);
      CountWithinAsked(maxRdy, k, paused, before);
      RdyIsAsked(maxRdy, paused, before);
      StepWithinAsked(maxRdy, k, After(maxRdy, Initial(paused), before), last);
    }
  }

  lemma StepWithinAsked(maxRdy: nat, k: nat, s: State, step: Step)
    requires Bounded(k, s) && Enabled(s, step)
    requires step.Rdy? && s.client == Subscribed && 0 <= step.n <= maxRdy ==> step.n <= k
    ensures Bounded(k, Next(maxRdy, s, step))
  {
  }

  // ---- Closing ----

  /** The number of messages written to the client. */
  function Written(steps: seq<Step>): nat {
    if steps == [] then 0 else (if steps[0].WriteMessage? then 1 else 0) + Written(steps[1..])
  }

  /** From CLS's first store on. */
  predicate Closes(s: State) {
    s.rdy == 0 && (s.loop.ZeroStored? || s.loop.ZeroPosted? || s.client == Closing)
  }

  /** The pump is on its way to write a message. */
  predicate Carries(p: Pump) {
    (p.HasRdy? && p.rdy > 0) || MayCount(p) || p.Counted?
  }

  lemma ClosesForGood(maxRdy: nat, s: State, step: Step)
    requires Closes(s) && Enabled(s, step)
    ensures var t := Next(maxRdy, s, step);
            && Closes(t)
            && (Carries(t.pump) ==> Carries(s.pump) && !step.WriteMessage?)
            && (step.WriteMessage? ==> Carries(s.pump))
  {
  }

  /** Once CLS has stored its 0, at most one more message is written, whatever commands follow. */
  lemma {:induction false} AtMostOneAfterClose(maxRdy: nat, s: State, steps: seq<Step>)
    requires Closes(s) && IsRun(maxRdy, s, steps)
    ensures Written(steps) <= if Carries(s.pump) then 1 else 0
    decreases |steps|
  {
    if steps != [] {
      ClosesForGood(maxRdy, s, steps[0]);
      AtMostOneAfterClose(maxRdy, Next(maxRdy, s, steps[0]), steps[1..]);
    }
  }

  /** So a CLS accepted at any point of a run is followed by at most one message. */
  lemma AtMostOneAfterCls(maxRdy: nat, s: State, before: seq<Step>, after: seq<Step>)
    requires IsRun(maxRdy, s, before)
    requires After(maxRdy, s, before).loop.AtRest? && After(maxRdy, s, before).client == Subscribed
    requires IsRun(maxRdy, s, before + [Cls] + after)
    ensures Written(after) <= 1
    ensures After(maxRdy, s, before + [Cls] + after).rdy == 0
  {
    var t := After(maxRdy, s, before);
    assert before + [Cls] + after == before + ([Cls] + after);
    RunConcat(maxRdy, s, before, [Cls] + after);
    assert ([Cls] + after)[1..] == after;
    var u := Next(maxRdy, t, Cls);
    AtMostOneAfterClose(maxRdy, u, after);
    StaysClosed(maxRdy, u, after);
  }

  lemma {:induction false} StaysClosed(maxRdy: nat, s: State, steps: seq<Step>)
    requires Closes(s) && IsRun(maxRdy, s, steps)
    ensures Closes(After(maxRdy, s, steps))
    decreases |steps|
  {
    if steps != [] {
      ClosesForGood(maxRdy, s, steps[0]);
      StaysClosed(maxRdy, Next(maxRdy, s, steps[0]), steps[1..]);
    }
  }

  // ---- Wakeups ----

  /** A token is there, or somebody who changed a value has yet to post one. */
  predicate WillWake(s: State) {
    s.token || s.posts > 0 || s.pausePosts > 0 || s.loop.Changed? || s.loop.ZeroStored?
  }

  /** What the pump has read so far is still so. */
  predicate UpToDate(s: State) {
    match s.pump
    case Unpaused => !s.paused
    case HasRdy(rdy) => !s.paused && rdy == s.rdy
    case Waiting(SeenPaused) => s.paused
    case Waiting(SeenCounts(rdy, count)) => !s.paused && rdy == s.rdy && count == s.count
    case _ => true
  }

  predicate Wakeable(s: State) {
    && (UpToDate(s) || WillWake(s))
    && (!s.pump.Unsubscribed? ==> s.client != Init)
  }

  lemma StepWakeable(maxRdy: nat, s: State, step: Step)
    requires Wakeable(s) && Enabled(s, step)
    ensures Wakeable(Next(maxRdy, s, step))
  {
  }

  predicate ReadyNow(s: State) {
    !s.paused && s.rdy > 0 && s.count < s.rdy
  }

  /**
   In every interleaving: if a value changed after the pump read it, a token is waiting or still to be
   posted. So the pump never waits for good on a stale decision that the client is not ready.
   */
  lemma {:induction false} NoLostWakeup(maxRdy: nat, s: State, steps: seq<Step>)
    requires Wakeable(s) && IsRun(maxRdy, s, steps)
    ensures var t := After(maxRdy, s, steps);
            && Wakeable(t)
            && (t.pump.Waiting? && SaysReady(t.pump.seen) != ReadyNow(t) ==> WillWake(t))
    decreases |steps|
  {
    if steps != [] {
      StepWakeable(maxRdy, s, steps[0]);
      NoLostWakeup(maxRdy, Next(maxRdy, s, steps[0]), steps[1..]);
    }
  }

  const LOOK: seq<Step> := [ReadPaused, ReadRdy, ReadCount]

  /** The steps by which whoever still has to post does so, and the pump looks again. */
  function WayOut(s: State): seq<Step> {
    if s.token then [TakeToken] + LOOK
    else if s.posts > 0 then [Post, TakeToken] + LOOK
    else if s.pausePosts > 0 then [PostPaused, TakeToken] + LOOK
    else if s.loop.Changed? then [PostChange, TakeToken] + LOOK
    else [PostZero, TakeToken] + LOOK
  }

  /** Of a stale decision there is a way out in at most five steps of the pump and one poster. */
  lemma StaleDecisionEnds(maxRdy: nat, s: State)
    requires Wakeable(s) && s.pump.Waiting? && !SaysReady(s.pump.seen) && ReadyNow(s)
    ensures IsRun(maxRdy, s, WayOut(s)) && |WayOut(s)| <= 5
    ensures var t := After(maxRdy, s, WayOut(s)); t.pump.Waiting? && SaysReady(t.pump.seen) && Enabled(t, Receive)
  {
    var n := |WayOut(s)| - |LOOK|;
    var wake := WayOut(s)[..n];
    assert WayOut(s) == wake + LOOK;
    var t := if s.token then s else Next(maxRdy, s, wake[0]);
    assert [TakeToken][1..] == [];
    assert IsRun(maxRdy, t, [TakeToken]) && After(maxRdy, t, [TakeToken]) == t.(token := false, pump := LoopTop);
    if s.token {
      assert wake == [TakeToken];
    } else {
      assert wake[1..] == [TakeToken];
    }
    Looks(maxRdy, After(maxRdy, s, wake));
    RunConcat(maxRdy, s, wake, LOOK);
  }

  lemma Looks(maxRdy: nat, s: State)
    requires s.pump.LoopTop? && ReadyNow(s)
    ensures IsRun(maxRdy, s, LOOK)
    ensures After(maxRdy, s, LOOK) == s.(pump := Waiting(SeenCounts(s.rdy, s.count)))
  {
    var s2 := s.(pump := HasRdy(s.rdy));
    assert LOOK[1..] == [ReadRdy, ReadCount] && LOOK[1..][1..] == [ReadCount] && [ReadCount][1..] == [];
    assert IsRun(maxRdy, s2, [ReadCount]) && After(maxRdy, s2, [ReadCount]) == Next(maxRdy, s2, ReadCount);
  }

  // ---- What the count counts ----

  /** Messages taken out of flight whose count is still to go down. */
  function BeingRemoved(s: State): nat {
    s.uncounted + if s.loop.Removed? then 1 else 0
  }

  /** Messages put in flight whose count is still to go up. */
  function BeingAdded(s: State): nat {
    if s.pump.Launched? then 1 else 0
  }

  predicate Balanced(s: State) {
    s.count + BeingAdded(s) == s.owned + BeingRemoved(s) + s.leaked
  }

  /** Only the reset that ends Empty can unbalance the count: if a message is just then between its two halves. */
  lemma StepBalances(maxRdy: nat, s: State, step: Step)
    requires Balanced(s) && Enabled(s, step)
    ensures Balanced(Next(maxRdy, s, step)) <==> (step.ResetCount? ==> s.owned + BeingRemoved(s) == BeingAdded(s))
  {
  }

  /** The count covers at least what is in flight, and what is between the two halves of a change. */
  predicate Covered(s: State) {
    s.owned + BeingRemoved(s) + s.leaked <= s.count + BeingAdded(s)
  }

  /** A reset is in time if it finds no more messages there or going than coming. */
  predicate InTime(s: State) {
    s.owned + BeingRemoved(s) <= BeingAdded(s)
  }

  /** Only a reset that comes too early can uncover messages. */
  lemma StepCovers(maxRdy: nat, s: State, step: Step)
    requires Covered(s) && Enabled(s, step)
    ensures Covered(Next(maxRdy, s, step)) <==> (step.ResetCount? ==> InTime(s))
  {
  }

  predicate ResetsInTime(maxRdy: nat, s: State, steps: seq<Step>)
    requires IsRun(maxRdy, s, steps)
    decreases |steps|
  {
    steps == []
    || ((steps[0].ResetCount? ==> InTime(s)) && ResetsInTime(maxRdy, Next(maxRdy, s, steps[0]), steps[1..]))
  }

  /** If all resets are in time the client never has more messages in flight than the limit on ready counts. */
  lemma {:induction false} OwnedStaysBounded(maxRdy: nat, s: State, steps: seq<Step>)
    requires Bounded(maxRdy, s) && Covered(s) && IsRun(maxRdy, s, steps) && ResetsInTime(maxRdy, s, steps)
    ensures var t := After(maxRdy, s, steps);
            && Bounded(maxRdy, t) && Covered(t)
            && t.owned + BeingRemoved(t) + t.leaked <= maxRdy
    decreases |steps|
  {
    if steps != [] {
      StepBounded(maxRdy, s, steps[0]);
      StepCovers(maxRdy, s, steps[0]);
      OwnedStaysBounded(maxRdy, Next(maxRdy, s, steps[0]), steps[1..]);
    }
  }

  const SEND: seq<Step> := [Receive, Launch(true), CountMessage, WriteMessage]
  const SEND_ONE := LOOK + SEND

  /** A timeout caught between Empty's two halves. */
  const EMPTY_RACE: seq<Step> := [TimeOut, DropInFlight, ResetCount, CountTimeout]

  lemma Sends(maxRdy: nat, s: State)
    requires s.pump.Waiting? && SaysReady(s.pump.seen)
    ensures IsRun(maxRdy, s, SEND)
    ensures After(maxRdy, s, SEND) == s.(pump := LoopTop, count := s.count + 1, owned := s.owned + 1)
  {
    var s2 := s.(pump := Launched(s.pump.seen), owned := s.owned + 1);
    assert SEND[1..][1..] == [CountMessage, WriteMessage] && [CountMessage, WriteMessage][1..] == [WriteMessage];
    assert [WriteMessage][1..] == [];
    assert IsRun(maxRdy, s2, [CountMessage, WriteMessage]);
  }

  lemma SendsOne(maxRdy: nat, s: State)
    requires s.pump.LoopTop? && ReadyNow(s)
    ensures IsRun(maxRdy, s, SEND_ONE)
    ensures After(maxRdy, s, SEND_ONE) == s.(count := s.count + 1, owned := s.owned + 1)
  {
    Looks(maxRdy, s);
    Sends(maxRdy, s.(pump := Waiting(SeenCounts(s.rdy, s.count))));
    RunConcat(maxRdy, s, LOOK, SEND);
  }

  lemma RacesEmpty(maxRdy: nat, s: State)
    requires s.owned > 0 && s.empties == 0 && s.uncounted == 0
    ensures IsRun(maxRdy, s, EMPTY_RACE)
    ensures After(maxRdy, s, EMPTY_RACE) == s.(count := -1, owned := 0, leaked := 0, posts := s.posts + 2)
  {
    var r := EMPTY_RACE;
    assert r[1..] == [DropInFlight, ResetCount, CountTimeout] && r[1..][1..] == [ResetCount, CountTimeout];
    assert r[1..][1..][1..] == [CountTimeout] && r[1..][1..][1..][1..] == [];
  }

  /** `n` messages sent one after the other. */
  function SendMany(n: nat): seq<Step> {
    if n == 0 then [] else SEND_ONE + SendMany(n - 1)
  }

  lemma {:induction false} SendsMany(maxRdy: nat, s: State, n: nat)
    requires s.pump.LoopTop? && !s.paused && s.rdy > 0 && s.count + n <= s.rdy
    ensures IsRun(maxRdy, s, SendMany(n)) && NoReset(SendMany(n))
    ensures After(maxRdy, s, SendMany(n)) == s.(count := s.count + n, owned := s.owned + n)
    decreases n
  {
    if n > 0 {
      var t := s.(count := s.count + 1, owned := s.owned + 1);
      SendsOne(maxRdy, s);
      SendsMany(maxRdy, t, n - 1);
      RunConcat(maxRdy, s, SEND_ONE, SendMany(n - 1));
      assert forall step | step in SEND_ONE :: !step.ResetCount?;
    }
  }

  predicate NoReset(steps: seq<Step>) {
    forall step | step in steps :: !step.ResetCount?
  }

  lemma Subscribes(maxRdy: nat)
    ensures var start := [Sub, Rdy(maxRdy), GetChannel];
            && IsRun(maxRdy, Initial(false), start)
            && After(maxRdy, Initial(false), start)
            == Initial(false).(client := Subscribed, rdy := maxRdy, loop := Changed, pump := LoopTop)
  {
    var s0 := Initial(false);
    var s1 := Next(maxRdy, s0, Sub);
    var s2 := Next(maxRdy, s1, Rdy(maxRdy));
    var start := [Sub, Rdy(maxRdy), GetChannel];
    assert start[1..] == [Rdy(maxRdy), GetChannel];
    assert [Rdy(maxRdy), GetChannel][1..] == [GetChannel] && [GetChannel][1..] == [];
    assert IsRun(maxRdy, s2, [GetChannel]) && After(maxRdy, s2, [GetChannel]) == Next(maxRdy, s2, GetChannel);
    assert IsRun(maxRdy, s1, [Rdy(maxRdy), GetChannel]);
  }

  /**
   Otherwise the claim is false, for every limit: a run in which a client that may have `maxRdy` messages in
   flight ends up with one more.
   */
  lemma EmptyRaceOvershoots(maxRdy: nat)
    requires maxRdy >= 1
    ensures var steps := [Sub, Rdy(maxRdy), GetChannel] + SEND_ONE + EMPTY_RACE + SendMany(maxRdy + 1);
            && IsRun(maxRdy, Initial(false), steps)
            && var t := After(maxRdy, Initial(false), steps);
               t.rdy == maxRdy && t.count == maxRdy && t.owned == maxRdy + 1
  {
    var s0, start := Initial(false), [Sub, Rdy(maxRdy), GetChannel];
    Subscribes(maxRdy);
    var s1 := After(maxRdy, s0, start);
    SendsOne(maxRdy, s1);
    RunConcat(maxRdy, s0, start, SEND_ONE);
    var s2 := After(maxRdy, s1, SEND_ONE);
    RacesEmpty(maxRdy, s2);
    RunConcat(maxRdy, s0, start + SEND_ONE, EMPTY_RACE);
    var s3 := After(maxRdy, s2, EMPTY_RACE);
    SendsMany(maxRdy, s3, maxRdy + 1);
    RunConcat(maxRdy, s0, start + SEND_ONE + EMPTY_RACE, SendMany(maxRdy + 1));
  }

  // ---- Exactly which resets are harmful ----

  /** How many messages the count does not cover. */
  function Excess(s: State): int {
    s.owned + BeingRemoved(s) + s.leaked - s.count - BeingAdded(s)
  }

  /** A quiet run: no reset, nothing leaks, and the client stays subscribed. */
  ghost predicate Quiet(maxRdy: nat, s: State, steps: seq<Step>, t: State) {
    && IsRun(maxRdy, s, steps) && After(maxRdy, s, steps) == t && NoReset(steps)
    && t.leaked == s.leaked && Excess(t) == Excess(s) && t.client == s.client
    && (Bounded(maxRdy, s) ==> Bounded(maxRdy, t))
  }

  lemma QuietOn(maxRdy: nat, s: State, first: seq<Step>, t: State, second: seq<Step>, u: State)
    requires Quiet(maxRdy, s, first, t) && Quiet(maxRdy, t, second, u)
    ensures Quiet(maxRdy, s, first + second, u)
  {
    RunConcat(maxRdy, s, first, second);
  }

  lemma QuietStep(maxRdy: nat, s: State, step: Step)
    requires Enabled(s, step) && !step.ResetCount?
    requires var t := Next(maxRdy, s, step);
             t.leaked == s.leaked && Excess(t) == Excess(s) && t.client == s.client
    ensures Quiet(maxRdy, s, [step], Next(maxRdy, s, step))
  {
    var t := Next(maxRdy, s, step);
    assert [step][1..] == [] && IsRun(maxRdy, t, []) && After(maxRdy, t, []) == t;
    if Bounded(maxRdy, s) {
      StepBounded(maxRdy, s, step);
    }
  }

  /** How many steps the pump is from the top of its loop. */
  function StepsToTop(p: Pump): nat {
    match p
    case LoopTop => 0
    case Unsubscribed => 1
    case Waiting(_) => 1
    case Received(_) => 1
    case Counted => 1
    case HasRdy(_) => 2
    case Launched(_) => 2
    case Unpaused => 3
  }

  function StepToTop(p: Pump): Step
    requires !p.LoopTop?
  {
    match p
    case Unsubscribed => GetChannel
    case Waiting(_) => GoAround
    case Received(_) => SampleOut
    case Counted => WriteMessage
    case HasRdy(_) => ReadCount
    case Launched(_) => CountMessage
    case Unpaused => ReadRdy
  }

  lemma {:induction false} PumpComesAround(maxRdy: nat, s: State) returns (steps: seq<Step>, t: State)
    requires s.client == Subscribed
    ensures Quiet(maxRdy, s, steps, t) && t.pump.LoopTop?
    ensures t.loop == s.loop && t.uncounted == s.uncounted
    decreases StepsToTop(s.pump)
  {
    if s.pump.LoopTop? {
      steps, t := [], s;
    } else {
      var step := StepToTop(s.pump);
      QuietStep(maxRdy, s, step);
      var rest, u := PumpComesAround(maxRdy, Next(maxRdy, s, step));
      QuietOn(maxRdy, s, [step], Next(maxRdy, s, step), rest, u);
      steps, t := [step] + rest, u;
    }
  }

  lemma LoopComesToRest(maxRdy: nat, s: State) returns (steps: seq<Step>, t: State)
    requires s.client == Subscribed && !s.loop.ZeroStored? && !s.loop.ZeroPosted?
    ensures Quiet(maxRdy, s, steps, t) && t.loop.AtRest? && t.pump == s.pump && t.uncounted == s.uncounted
  {
    if s.loop.AtRest? {
      steps, t := [], s;
    } else {
      var u := s;
      steps := [];
      if s.loop.Removed? {
        QuietStep(maxRdy, s, CountDown);
        steps, u := [CountDown], Next(maxRdy, s, CountDown);
      }
      QuietStep(maxRdy, u, PostChange);
      t := Next(maxRdy, u, PostChange);
      QuietOn(maxRdy, s, steps, u, [PostChange], t);
      steps := steps + [PostChange];
    }
  }

  lemma {:induction false} TimeoutsAreCounted(maxRdy: nat, s: State) returns (steps: seq<Step>, t: State)
    ensures Quiet(maxRdy, s, steps, t) && t.uncounted == 0 && t.loop == s.loop && t.pump == s.pump
    decreases s.uncounted
  {
    if s.uncounted == 0 {
      steps, t := [], s;
    } else {
      QuietStep(maxRdy, s, CountTimeout);
      var rest, u := TimeoutsAreCounted(maxRdy, Next(maxRdy, s, CountTimeout));
      QuietOn(maxRdy, s, [CountTimeout], Next(maxRdy, s, CountTimeout), rest, u);
      steps, t := [CountTimeout] + rest, u;
    }
  }

  /** The client asks for all it may have, on a channel that is not paused. */
  lemma AsksForAll(maxRdy: nat, s: State) returns (steps: seq<Step>, t: State)
    requires s.client == Subscribed && s.loop.AtRest? && s.pump.LoopTop?
    ensures Quiet(maxRdy, s, steps, t) && t.pump.LoopTop? && t.uncounted == s.uncounted && !t.loop.Removed?
    ensures !t.paused && t.rdy == maxRdy
  {
    QuietStep(maxRdy, s, SetPaused(false));
    var u := Next(maxRdy, s, SetPaused(false));
    QuietStep(maxRdy, u, Rdy(maxRdy));
    t := Next(maxRdy, u, Rdy(maxRdy));
    QuietOn(maxRdy, s, [SetPaused(false)], u, [Rdy(maxRdy)], t);
    steps := [SetPaused(false)] + [Rdy(maxRdy)];
  }

  /** If the count leaves messages uncovered, and nothing leaked, the client can come to have more than it may. */
  lemma ExcessOvershoots(maxRdy: nat, s: State) returns (steps: seq<Step>)
    requires maxRdy >= 1 && Bounded(maxRdy, s) && s.client == Subscribed && !s.loop.ZeroStored? && !s.loop.ZeroPosted?
    requires s.leaked == 0 && Excess(s) > 0
    ensures IsRun(maxRdy, s, steps) && NoReset(steps) && After(maxRdy, s, steps).owned > maxRdy
  {
    var a, s1 := PumpComesAround(maxRdy, s);
    var b, s2 := LoopComesToRest(maxRdy, s1);
    var c, s3 := TimeoutsAreCounted(maxRdy, s2);
    var d, s4 := AsksForAll(maxRdy, s3);
    QuietOn(maxRdy, s, a, s1, b, s2);
    QuietOn(maxRdy, s, a + b, s2, c, s3);
    QuietOn(maxRdy, s, a + b + c, s3, d, s4);
    steps := a + b + c + d;
    SendsMany(maxRdy, s4, maxRdy - s4.count);
    RunConcat(maxRdy, s, steps, SendMany(maxRdy - s4.count));
    steps := steps + SendMany(maxRdy - s4.count);
  }

  /** As long as every reset is in time, the next one is harmless if and only if it is in time too. */
  lemma ResetHarmlessIff(maxRdy: nat, s: State)
    requires maxRdy >= 1 && Bounded(maxRdy, s) && Covered(s) && Enabled(s, ResetCount)
    requires s.client == Subscribed && !s.loop.ZeroStored? && !s.loop.ZeroPosted?
    ensures (forall steps | IsRun(maxRdy, Next(maxRdy, s, ResetCount), steps) && NoReset(steps) ::
               After(maxRdy, Next(maxRdy, s, ResetCount), steps).owned <= maxRdy)
            <==> InTime(s)
  {
    var t := Next(maxRdy, s, ResetCount);
    StepBounded(maxRdy, s, ResetCount);
    if InTime(s) {
      forall steps | IsRun(maxRdy, t, steps) && NoReset(steps) ensures After(maxRdy, t, steps).owned <= maxRdy {
        NoResetInTime(maxRdy, t, steps);
        OwnedStaysBounded(maxRdy, t, steps);
      }
    } else {
      var steps := ExcessOvershoots(maxRdy, t);
    }
  }

  lemma {:induction false} NoResetInTime(maxRdy: nat, s: State, steps: seq<Step>)
    requires IsRun(maxRdy, s, steps) && NoReset(steps)
    ensures ResetsInTime(maxRdy, s, steps)
    decreases |steps|
  {
    if steps != [] {
      NoResetInTime(maxRdy, Next(maxRdy, s, steps[0]), steps[1..]);
    }
  }

  lemma InitialHolds(maxRdy: nat, paused: bool)
    ensures var s := Initial(paused); Bounded(maxRdy, s) && Wakeable(s) && Balanced(s) && Covered(s)
  {
  }
}

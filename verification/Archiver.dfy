/**
 The file archiver's event loop: messages are written to files, and acknowledged only when what was
 written is durable. What the operating system answers comes with each event.
 */
module Archiver {
  import opened Bytes
  import opened Wrappers

  datatype Message = Message(id: int, Body: seq<byte>)

  const NEWLINE: byte := 10

  function Line(m: Message): (l: seq<byte>)
    ensures |l| == |m.Body| + 1 && l[..|m.Body|] == m.Body && l[|m.Body|] == 10
  {
    m.Body + [NEWLINE]
  }

  // ---- Files ----

  /** What was written to a file since it was opened, and what it had then; the first `durable` bytes are on disk. */
  datatype File = File(content: seq<byte>, durable: nat)

  /**
   Every file ever opened, and the logger's own file. `out` is -1 if there is none; an `out` that is
   not open is a file that was closed but not forgotten. `pending` is what a gzip writer still holds
   back: file contents are meant as they read when decompressed.
   */
  datatype Store = Store(gzip: bool, files: seq<File>, out: int, open: bool, pending: seq<byte>)

  /** Where a message's line was written. */
  datatype Place = Place(file: nat, offset: nat)

  ghost predicate WellFormed(s: Store) {
    && -1 <= s.out < |s.files|
    && (s.open ==> s.out >= 0) && (!s.open || !s.gzip ==> s.pending == [])
    && forall f | f in s.files :: f.durable <= |f.content|
  }

  predicate Dangling(s: Store) {
    s.out >= 0 && !s.open
  }

  /** The bytes of a file, those held back included. */
  ghost function Logical(s: Store, f: nat): seq<byte>
    requires f < |s.files|
  {
    s.files[f].content + if s.open && f == s.out then s.pending else []
  }

  ghost predicate LineAt(bytes: seq<byte>, offset: nat, m: Message) {
    offset + |Line(m)| <= |bytes| && bytes[offset..offset + |Line(m)|] == Line(m)
  }

  /** The message's line is in the file that is open, or durable. */
  ghost predicate Held(s: Store, m: Message, p: Place)
    requires WellFormed(s)
  {
    && p.file < |s.files|
    && LineAt(Logical(s, p.file), p.offset, m)
    && ((s.open && p.file == s.out) || p.offset + |Line(m)| <= s.files[p.file].durable)
  }

  ghost predicate DurableAt(s: Store, m: Message, p: Place)
    requires WellFormed(s)
  {
    p.file < |s.files| && LineAt(s.files[p.file].content[..s.files[p.file].durable], p.offset, m)
  }

  ghost predicate Durable(s: Store, m: Message)
    requires WellFormed(s)
  {
    exists p :: DurableAt(s, m, p)
  }

  function Written(s: Store, bytes: seq<byte>): Store
    requires 0 <= s.out < |s.files|
  {
    if s.gzip then s.(pending := s.pending + bytes)
    else
      var f := s.files[s.out];
      s.(files := s.files[s.out := f.(content := f.content + bytes)])
  }

  /** Everything written so far reaches the disk. */
  function Synced(s: Store): Store
    requires 0 <= s.out < |s.files|
  {
    var all := s.files[s.out].content + s.pending;
    s.(files := s.files[s.out := File(all, |all|)], pending := [])
  }

  function Opened(s: Store, content: seq<byte>): Store {
    s.(files := s.files + [File(content, 0)], out := |s.files|, open := true, pending := [])
  }

  function Forgotten(s: Store, keepOut: bool): Store {
    s.(open := false, out := if keepOut then s.out else -1)
  }

  /** Files only grow, and so do their durable parts. */
  ghost predicate Grows(s: Store, t: Store) {
    && |s.files| <= |t.files|
    && forall f | 0 <= f < |s.files| ::
         s.files[f].durable <= t.files[f].durable && s.files[f].content <= t.files[f].content
  }

  lemma DurableStays(s: Store, t: Store, m: Message)
    requires WellFormed(s) && WellFormed(t) && Grows(s, t) && Durable(s, m)
    ensures Durable(t, m)
  {
    var p :| DurableAt(s, m, p);
    var f, g := s.files[p.file], t.files[p.file];
    LineInPrefix(f.content[..f.durable], g.content[..g.durable], p.offset, m);
    assert DurableAt(t, m, p);
  }

  lemma LineInPrefix(a: seq<byte>, b: seq<byte>, offset: nat, m: Message)
    requires LineAt(a, offset, m) && a <= b
    ensures LineAt(b, offset, m)
  {
    var end := offset + |Line(m)|;
    assert b[offset..end] == a[offset..end];
  }

  lemma HeldAfterWrite(s: Store, bytes: seq<byte>, m: Message, p: Place)
    requires WellFormed(s) && s.open && Held(s, m, p)
    ensures Held(Written(s, bytes), m, p)
  {
    WrittenIsAppended(s, bytes);
    var end := p.offset + |Line(m)|;
    assert Logical(Written(s, bytes), p.file)[p.offset..end] == Logical(s, p.file)[p.offset..end];
  }

  lemma WrittenIsAppended(s: Store, bytes: seq<byte>)
    requires WellFormed(s) && s.open
    ensures var t := Written(s, bytes);
            && WellFormed(t) && Grows(s, t) && SameDurable(s, t)
            && forall f: nat | f < |s.files| :: Logical(t, f) == Logical(s, f) + if f == s.out then bytes else []
  {
  }

  lemma HeldAfterSync(s: Store, m: Message, p: Place)
    requires WellFormed(s) && s.open && Held(s, m, p)
    ensures Held(Synced(s), m, p) && DurableAt(Synced(s), m, p)
  {
  }

  lemma HeldAfterClose(s: Store, keepOut: bool, m: Message, p: Place)
    requires WellFormed(s) && s.open && Held(s, m, p)
    ensures Held(Forgotten(Synced(s), keepOut), m, p)
  {
    HeldAfterSync(s, m, p);
  }

  lemma HeldAfterOpen(s: Store, content: seq<byte>, m: Message, p: Place)
    requires WellFormed(s) && !s.open && Held(s, m, p)
    ensures Held(Opened(s, content), m, p)
  {
  }

  ghost predicate AllHeld(s: Store, ms: seq<Message>, ps: seq<Place>)
    requires WellFormed(s)
  {
    |ps| == |ms| && forall k | 0 <= k < |ms| :: Held(s, ms[k], ps[k])
  }

  ghost predicate AllDurable(s: Store, ms: seq<Message>)
    requires WellFormed(s)
  {
    forall m | m in ms :: Durable(s, m)
  }

  lemma AllDurableStays(s: Store, t: Store, ms: seq<Message>)
    requires WellFormed(s) && WellFormed(t) && Grows(s, t) && AllDurable(s, ms)
    ensures AllDurable(t, ms)
  {
    forall m | m in ms ensures Durable(t, m) {
      DurableStays(s, t, m);
    }
  }

  /** Rotation: what waits became durable with the old file. */
  lemma AllHeldAfterRotation(s: Store, keepOut: bool, content: seq<byte>, ms: seq<Message>, ps: seq<Place>)
    requires WellFormed(s) && AllHeld(s, ms, ps) && s.open
    ensures WellFormed(Forgotten(Synced(s), keepOut)) && WellFormed(Opened(Forgotten(Synced(s), keepOut), content))
    ensures AllHeld(Opened(Forgotten(Synced(s), keepOut), content), ms, ps)
  {
    forall k | 0 <= k < |ms| ensures Held(Opened(Forgotten(Synced(s), keepOut), content), ms[k], ps[k]) {
      HeldAfterClose(s, keepOut, ms[k], ps[k]);
      HeldAfterOpen(Forgotten(Synced(s), keepOut), content, ms[k], ps[k]);
    }
  }

  lemma AllHeldAfterWrite(s: Store, bytes: seq<byte>, ms: seq<Message>, ps: seq<Place>)
    requires WellFormed(s) && AllHeld(s, ms, ps) && s.open
    ensures WellFormed(Written(s, bytes)) && AllHeld(Written(s, bytes), ms, ps)
  {
    WrittenIsAppended(s, bytes);
    forall k | 0 <= k < |ms| ensures Held(Written(s, bytes), ms[k], ps[k]) {
      HeldAfterWrite(s, bytes, ms[k], ps[k]);
    }
  }

  /** Once a message's body and newline are written, its line is held where the file ended before. */
  lemma NewlyHeld(s: Store, m: Message)
    requires WellFormed(s) && s.open
    ensures var t := Written(Written(s, m.Body), [NEWLINE]);
            && WellFormed(t) && Held(t, m, Place(s.out, |Logical(s, s.out)|))
            && Appends(Line(m), s, t) && SameDurable(s, t)
  {
    WrittenIsAppended(s, m.Body);
    WrittenIsAppended(Written(s, m.Body), [NEWLINE]);
    var t := Written(Written(s, m.Body), [NEWLINE]);
    assert Logical(t, s.out) == Logical(s, s.out) + Line(m);
  }

  lemma AllDurableAfterSync(s: Store, ms: seq<Message>, ps: seq<Place>)
    requires WellFormed(s) && AllHeld(s, ms, ps) && s.open
    ensures WellFormed(Synced(s)) && AllDurable(Synced(s), ms)
  {
    forall m | m in ms ensures Durable(Synced(s), m) {
      var k :| 0 <= k < |ms| && ms[k] == m;
      HeldAfterSync(s, m, ps[k]);
    }
  }

  // ---- Events ----

  /** `moves` is whether the work directory is not the output directory. */
  datatype Options = Options(maxInFlight: nat, rotateSize: int, skipEmptyFiles: bool, moves: bool, gzip: bool)

  /** How the calls of a Close end; `taken` is how many destination names turn out to exist already. */
  datatype CloseEnv = CloseEnv(gzipOk: bool, syncOk: bool, closeOk: bool, renameOk: bool, taken: nat)

  /**
   `due` is whether the file name or the rotation interval calls for a rotation, `next` what the file
   to write to next already contains, None if it cannot be opened.
   */
  datatype Env = Env(due: bool, starved: bool, rotate: CloseEnv, next: Option<seq<byte>>,
                     bodyOk: bool, newlineOk: bool, gzipOk: bool, syncOk: bool, close: CloseEnv)

  /** No call of a Close fails. */
  predicate CloseOk(env: CloseEnv) {
    env.gzipOk && env.syncOk && env.closeOk && env.renameOk
  }

  /** No call fails. */
  predicate EnvOk(env: Env) {
    && CloseOk(env.rotate) && env.next.Some? && env.bodyOk && env.newlineOk && env.gzipOk && env.syncOk
    && CloseOk(env.close)
  }

  datatype Event =
    | Stop(env: Env)
    | Term(env: Env)
    | Hup(env: Env)
    | Tick(env: Env)
    | Arrive(env: Env, m: Message)

  function Arrivals(events: seq<Event>): seq<Message> {
    if events == [] then []
    else
      var last := events[|events| - 1];
      Arrivals(events[..|events| - 1]) + if last.Arrive? then [last.m] else []
  }

  /** Dead is os.Exit(1), Panicked an index out of range. */
  datatype Fate = Running | Stopped | Dead | Panicked

  predicate Alive(fate: Fate) {
    fate == Running || fate == Stopped
  }

  /** What waits is held by the open file or durable already, unless the logger's file is dangling. */
  ghost predicate Safe(s: Store, waiting: seq<Message>, places: seq<Place>)
    requires WellFormed(s)
  {
    (Dangling(s) || AllHeld(s, waiting, places)) && (waiting != [] ==> s.out >= 0)
  }

  /** A message is finished at most as often as it arrived; while the logger lives the rest waits. */
  ghost predicate Accounted(alive: bool, finished: seq<Message>, waiting: seq<Message>, arrived: seq<Message>) {
    && (alive ==> multiset(finished) + multiset(waiting) == multiset(arrived))
    && multiset(finished) <= multiset(arrived)
  }

  /** What was finished is durable, what waits is safe. */
  ghost predicate Good(alive: bool, s: Store, finished: seq<Message>, waiting: seq<Message>, places: seq<Place>,
        arrived: seq<Message>) {
    && WellFormed(s)
    && (alive ==> Safe(s, waiting, places))
    && Accounted(alive, finished, waiting, arrived)
    && AllDurable(s, finished)
  }

  lemma AccountedArrival(finished: seq<Message>, waiting: seq<Message>, arrived: seq<Message>, m: Message)
    requires Accounted(true, finished, waiting, arrived)
    ensures Accounted(true, finished, waiting + [m], arrived + [m])
    ensures Accounted(false, finished, waiting, arrived + [m])
  {
  }

  lemma AccountedLoss(finished: seq<Message>, waiting: seq<Message>, arrived: seq<Message>, m: Message)
    requires Accounted(false, finished, waiting, arrived)
    ensures Accounted(false, finished, waiting, arrived + [m])
  {
  }

  lemma AccountedFinish(finished: seq<Message>, waiting: seq<Message>, arrived: seq<Message>, m: Message)
    requires Accounted(true, finished, waiting + [m], arrived)
    ensures Accounted(true, finished + [m], waiting, arrived)
  {
  }

  lemma GoodArrival(s: Store, finished: seq<Message>, waiting: seq<Message>, places: seq<Place>, arrived: seq<Message>,
                    m: Message, p: Place)
    requires Good(true, s, finished, waiting, places, arrived) && s.out >= 0
    ensures Good(false, s, finished, waiting, places, arrived + [m])
    ensures (s.open ==> Held(s, m, p)) ==> Good(true, s, finished, waiting + [m], places + [p], arrived + [m])
  {
    AccountedArrival(finished, waiting, arrived, m);
  }

  /** A new file is opened when there is none, or the old one was closed. */
  lemma SafeRotation(s: Store, t: Store, keepOut: bool, content: seq<byte>, waiting: seq<Message>, places: seq<Place>)
    requires WellFormed(s) && Safe(s, waiting, places) && !Dangling(s)
    requires t == if s.open then Forgotten(Synced(s), keepOut) else s
    ensures WellFormed(t) && WellFormed(Opened(t, content)) && Safe(Opened(t, content), waiting, places)
    ensures Grows(t, Opened(t, content))
  {
    if s.open {
      AllHeldAfterRotation(s, keepOut, content, waiting, places);
    }
  }

  lemma SafeSync(s: Store, waiting: seq<Message>, places: seq<Place>)
    requires WellFormed(s) && s.open && Safe(s, waiting, places)
    ensures var t := Synced(s);
            && WellFormed(t) && Grows(s, t) && SameBytes(s, t)
            && Safe(t, waiting, places) && AllDurable(t, waiting)
  {
    AllDurableAfterSync(s, waiting, places);
    forall k | 0 <= k < |waiting| ensures Held(Synced(s), waiting[k], places[k]) {
      HeldAfterSync(s, waiting[k], places[k]);
    }
  }

  lemma GoodFinish(s: Store, finished: seq<Message>, waiting: seq<Message>, places: seq<Place>, arrived: seq<Message>)
    requires Good(true, s, finished, waiting, places, arrived) && s.open && waiting != [] && AllDurable(s, waiting)
    ensures var n := |waiting| - 1;
            && |places| == |waiting| && AllDurable(s, waiting[..n])
            && Good(true, s, finished + [waiting[n]], waiting[..n], places[..n], arrived)
  {
    var n := |waiting| - 1;
    assert waiting[n] in waiting && waiting == waiting[..n] + [waiting[n]];
    AccountedFinish(finished, waiting[..n], arrived, waiting[n]);
  }

  // ---- What the parts of a turn do ----

  /** What a turn of the loop is judged by. */
  datatype Snapshot = Snapshot(store: Store, fate: Fate, pos: nat, finished: seq<Message>)

  /** Writing changes what an open file holds, and nothing else. */
  ghost predicate SameFile(s: Store, t: Store) {
    t.gzip == s.gzip && t.out == s.out && t.open == s.open && (!s.open ==> t == s)
  }

  /** The same bytes in the same files, held back or not. */
  ghost predicate SameBytes(s: Store, t: Store) {
    |t.files| == |s.files| && forall f: nat | f < |s.files| :: Logical(t, f) == Logical(s, f)
  }

  /** No more of any file is on disk than before. */
  ghost predicate SameDurable(s: Store, t: Store) {
    |t.files| == |s.files| && forall f: nat | f < |s.files| :: t.files[f].durable == s.files[f].durable
  }

  /** The bytes are added to the logger's file, and to no other. */
  ghost predicate Appends(bytes: seq<byte>, s: Store, t: Store) {
    && |t.files| == |s.files|
    && forall f: nat | f < |s.files| :: Logical(t, f) == Logical(s, f) + if f == s.out then bytes else []
  }

  /** One more file, which holds the bytes, is the logger's own; the others keep theirs. */
  ghost predicate NewFile(bytes: seq<byte>, s: Store, t: Store) {
    && |t.files| == |s.files| + 1 && t.out == |s.files| && t.open && Logical(t, t.out) == bytes
    && forall f: nat | f < |s.files| :: Logical(t, f) == Logical(s, f)
  }

  /** There is no file, the name or the interval calls for another, or there is too much in this one. */
  ghost predicate TimeToRotate(opts: Options, due: bool, s: Store)
    requires -1 <= s.out < |s.files|
  {
    s.out == -1 || due || (opts.rotateSize > 0 && |Logical(s, s.out)| > opts.rotateSize)
  }

  /** The message's line ends the open file, or the next one if it was time for that. */
  ghost predicate Lands(opts: Options, env: Env, m: Message, s: Store, t: Store)
    requires -1 <= s.out < |s.files|
  {
    if TimeToRotate(opts, env.due, s) then
      env.next.Some? && NewFile((if s.gzip then [] else env.next.value) + Line(m), s, t)
    else
      t.out == s.out && t.open && Appends(Line(m), s, t)
  }

  /** On a tick the next file is opened if it is time for that, unless empty files are to be skipped. */
  ghost predicate Ticks(opts: Options, env: Env, s: Store, t: Store, closeFile: bool)
    requires -1 <= s.out < |s.files|
  {
    var time := TimeToRotate(opts, env.due, s);
    && (closeFile <==> time && opts.skipEmptyFiles)
    && if time && !opts.skipEmptyFiles then
         env.next.Some? && NewFile(if s.gzip then [] else env.next.value, s, t)
       else t == s
  }

  /** Writing a message: it waits in the buffer, or the process died over the file or the buffer's bound. */
  ghost predicate Writes(env: Env, max: nat, m: Message, a: Snapshot, b: Snapshot, full: bool) {
    && SameFile(a.store, b.store) && b.finished == a.finished
    && (b.fate == Running && a.store.open ==>
          Appends(Line(m), a.store, b.store) && SameDurable(a.store, b.store))
    && b.fate == (if !(env.bodyOk && env.newlineOk && (a.store.open || a.store.gzip)) then Dead
                  else if a.pos >= max then Panicked else Running)
    && (b.fate == Running ==> b.pos == a.pos + 1 && (full <==> b.pos == max))
  }

  /** Flushing: nothing waits any more, or the process died over a file it could not sync. */
  ghost predicate Flushes(env: Env, a: Snapshot, b: Snapshot) {
    && (b.fate == Running || b.fate == Dead) && a.finished <= b.finished
    && (b.fate == Running ==> b.pos == 0)
    && b.store.gzip == a.store.gzip && b.store.out == a.store.out && b.store.open == a.store.open
    && SameBytes(a.store, b.store)
    && (Dangling(a.store) ==> b.finished == a.finished)
    && (b.fate == Dead <==> a.pos > 0 && !(a.store.open && (a.store.gzip ==> env.gzipOk) && env.syncOk))
    && (a.pos > 0 ==> a.store.out >= 0)
  }

  /** Closing when nothing waits. */
  ghost predicate Closes(env: CloseEnv, moves: bool, a: Snapshot, b: Snapshot) {
    && (b.fate == Running || b.fate == Dead) && b.pos == a.pos && b.finished == a.finished
    && (b.fate == Running ==> !b.store.open)
    && b.store.gzip == a.store.gzip && SameBytes(a.store, b.store)
    && (a.store.out == -1 ==> b == a)
    && (Dangling(a.store) ==> b.fate == Dead)
    && (CloseOk(env) && !Dangling(a.store) ==> b.fate == Running)
    && (a.store.open && b.fate == Running ==> (Dangling(b.store) <==> moves && env.taken == 0) && !b.store.open)
  }

  /** The rest of a turn: what waits is flushed, the file closed, the loop ended, as asked for. */
  ghost predicate Settles(sync: bool, closeFile: bool, exit: bool, env: Env, moves: bool, a: Snapshot, b: Snapshot) {
    && a.finished <= b.finished && b.store.gzip == a.store.gzip && SameBytes(a.store, b.store)
    && (closeFile && b.fate != Dead ==> !b.store.open)
    && (!closeFile ==> b.store.out == a.store.out && b.store.open == a.store.open)
    && (if sync || env.starved then b.fate == Running ==> b.pos == 0
        else b == a)
    && (match b.fate
        case Running => !exit && b.pos <= a.pos && (sync ==> b.pos == 0)
        case Stopped => exit && b.pos == 0
        case Dead => true
        case Panicked => false)
    && (Dangling(a.store) ==> b.finished == a.finished && (closeFile ==> b.fate == Dead))
    && (closeFile && a.store.open && b.fate != Dead ==> (Dangling(b.store) <==> moves && env.close.taken == 0))
    && (EnvOk(env) && !Dangling(a.store) ==> b.fate != Dead)
  }

  /** What an event asks for; a message has been written. */
  ghost predicate Receives(opts: Options, e: Event, a: Snapshot, b: Snapshot, sync: bool, closeFile: bool, exit: bool)
    requires -1 <= a.store.out < |a.store.files|
  {
    && b.store.gzip == a.store.gzip && b.finished == a.finished
    && (match b.fate
        case Running => && (exit <==> e.Stop?) && (closeFile ==> sync)
                        && (closeFile ==> e.Stop? || e.Hup? || e.Tick?)
                        && (e.Stop? || e.Hup? ==> closeFile)
                        && (e.Stop? || e.Hup? || e.Term? ==> b.store == a.store)
                        && (e.Arrive? ==> b.pos == a.pos + 1 && (b.pos == opts.maxInFlight ==> sync))
        case Dead => e.Tick? || e.Arrive?
        case Panicked => e.Arrive? && a.pos == opts.maxInFlight && (Dangling(a.store) ==> a.store.gzip)
        case Stopped => false)
    && (!e.Arrive? ==> b.pos == a.pos && sync)
    && (Dangling(a.store) && b.fate == Running ==> b.store == a.store && (e.Arrive? ==> b.store.gzip))
    && (EnvOk(e.env) && !Dangling(a.store) ==> b.fate != Dead && !Dangling(b.store))
    && (b.fate == Running && !Dangling(a.store) ==>
          && (e.Arrive? ==> && Lands(opts, e.env, e.m, a.store, b.store)
                            && (sync <==> TimeToRotate(opts, e.env.due, a.store) || b.pos == opts.maxInFlight)
                            && (sync || SameDurable(a.store, b.store)))
          && (e.Tick? ==> Ticks(opts, e.env, a.store, b.store, closeFile)))
  }

  /** What a turn that leaves the logger running does to the files and to what waits. */
  ghost predicate Turned(opts: Options, e: Event, a: Snapshot, b: Snapshot)
    requires -1 <= a.store.out < |a.store.files|
  {
    match e
    case Arrive(env, m) =>
      && Lands(opts, env, m, a.store, b.store)
      && (if TimeToRotate(opts, env.due, a.store) || a.pos + 1 == opts.maxInFlight || env.starved then b.pos == 0
          else b.pos == a.pos + 1 && b.finished == a.finished && SameDurable(a.store, b.store))
    case Tick(env) =>
      && b.pos == 0
      && if !TimeToRotate(opts, env.due, a.store) then SameBytes(a.store, b.store) && b.store.open
         else if opts.skipEmptyFiles then SameBytes(a.store, b.store) && !b.store.open
         else env.next.Some? && NewFile(if a.store.gzip then [] else env.next.value, a.store, b.store)
    case Hup(_) => b.pos == 0 && SameBytes(a.store, b.store) && !b.store.open
    case Term(_) => b.pos == 0 && SameBytes(a.store, b.store) && b.store.open == a.store.open
    case Stop(_) => false
  }

  /**
   One turn. The buffer never overflows if it has room at all; with a file that was closed but not forgotten
   nothing is ever acknowledged again, and any use of it is fatal. Without one the process does not die unless
   a call fails, and each message's line ends one file, a new one exactly if it was time for that.
   */
  ghost predicate Turns(opts: Options, e: Event, a: Snapshot, b: Snapshot)
    requires -1 <= a.store.out < |a.store.files|
  {
    && a.finished <= b.finished && b.store.gzip == a.store.gzip
    && (a.pos < opts.maxInFlight ==> b.fate != Panicked && (b.fate == Running ==> b.pos < opts.maxInFlight))
    && (opts.maxInFlight == 0 && e.Arrive? ==> b.fate == Dead || b.fate == Panicked)
    && (b.fate == Panicked ==> e.Arrive?)
    && (b.fate == Stopped ==> e.Stop?)
    && (e.Stop? ==> b.fate == Dead || (b.fate == Stopped && b.pos == 0))
    && (Dangling(a.store) ==> b.finished == a.finished)
    && (Dangling(a.store) && (e.Stop? || e.Hup? || (e.Arrive? && !b.store.gzip)) ==> b.fate == Dead)
    && (e.Hup? && a.store.open && b.fate == Running ==> (Dangling(b.store) <==> opts.moves && e.env.close.taken == 0))
    && (EnvOk(e.env) && !Dangling(a.store) ==> b.fate != Dead)
    && (b.fate == Running && !Dangling(a.store) ==> Turned(opts, e, a, b))
  }

  lemma WritesInSteps(env: Env, max: nat, m: Message, written: bool, a: Snapshot, b: Snapshot, full: bool)
    requires a.fate == Running && SameFile(a.store, b.store) && b.finished == a.finished
    requires written <==> env.bodyOk && env.newlineOk && (a.store.open || a.store.gzip)
    requires written && a.store.open ==> Appends(Line(m), a.store, b.store) && SameDurable(a.store, b.store)
    requires b.fate == if !written then Dead else if a.pos < max then Running else Panicked
    requires b.fate == Running ==> b.pos == a.pos + 1 && (full <==> b.pos == max)
    ensures Writes(env, max, m, a, b, full)
  {
  }

  lemma LandsInSteps(opts: Options, env: Env, m: Message, s: Store, mid: Store, t: Store)
    requires WellFormed(s) && !Dangling(s) && mid.open && SameFile(mid, t) && Appends(Line(m), mid, t)
    requires if TimeToRotate(opts, env.due, s) then
               env.next.Some? && NewFile(if s.gzip then [] else env.next.value, s, mid)
             else mid == s
    ensures Lands(opts, env, m, s, t)
  {
  }

  lemma FlushesInSteps(env: Env, ok: bool, a: Snapshot, b: Snapshot)
    requires WellFormed(a.store) && a.fate == Running && (a.pos > 0 ==> a.store.out >= 0)
    requires a.pos > 0 ==> (ok <==> a.store.open && (a.store.gzip ==> env.gzipOk) && env.syncOk)
    requires if a.pos == 0 then b == a
             else if !ok then b == a.(fate := Dead)
             else b == Snapshot(Synced(a.store), Running, 0, b.finished) && a.finished <= b.finished
    ensures Flushes(env, a, b)
  {
  }

  lemma SettlesInSteps(sync: bool, closeFile: bool, exit: bool, env: Env, moves: bool, a: Snapshot, b: Snapshot,
                       c: Snapshot, d: Snapshot)
    requires a.fate == Running && (closeFile ==> sync) && (exit ==> closeFile)
    requires if sync || env.starved then Flushes(env, a, b) else b == a
    requires if b.fate == Running && closeFile then Closes(env.close, moves, b, c) else c == b
    requires d == if c.fate == Running && exit then c.(fate := Stopped) else c
    ensures Settles(sync, closeFile, exit, env, moves, a, d)
  {
  }

  lemma TurnsInSteps(opts: Options, e: Event, a: Snapshot, b: Snapshot, c: Snapshot, sync: bool, closeFile: bool,
                     exit: bool)
    requires WellFormed(a.store) && a.pos <= opts.maxInFlight && (b.fate == Running ==> b.pos <= opts.maxInFlight)
    requires Receives(opts, e, a, b, sync, closeFile, exit) && (exit ==> closeFile)
    requires if b.fate == Running then Settles(sync, closeFile, exit, e.env, opts.moves, b, c) else c == b
    ensures Turns(opts, e, a, c)
  {
  }

  class FileLogger {
    const opts: Options
    var store: Store
    var filesize: int
    var output: array<Option<Message>>
    var pos: nat
    var finished: seq<Message> // in the order of their Finish calls
    var fate: Fate
    ghost var waiting: seq<Message>
    ghost var places: seq<Place>
    ghost var arrived: seq<Message>

    /** The buffer's used part holds the messages that wait for a sync. */
    ghost predicate Buffered()
      reads this, output
    {
      && output.Length == opts.maxInFlight && |waiting| == pos <= opts.maxInFlight
      && forall k | 0 <= k < pos :: output[k] == Some(waiting[k])
    }

    ghost function Now(): Snapshot
      reads this
    {
      Snapshot(store, fate, pos, finished)
    }

    /** The counter tells how much is in the open file. */
    ghost predicate Sized()
      requires WellFormed(store)
      reads this`store, this`filesize
    {
      store.open ==> filesize == |Logical(store, store.out)|
    }

    ghost predicate Valid()
      reads this, output
    {
      Buffered() && Good(Alive(fate), store, finished, waiting, places, arrived) && Sized()
    }

    constructor (opts: Options)
      ensures Valid() && fate == Running && arrived == [] && fresh(output)
      ensures this.opts == opts && store == Store(opts.gzip, [], -1, false, [])
    {
      this.opts := opts;
      store, filesize := Store(opts.gzip, [], -1, false, []), 0;
      output := new Option<Message>[opts.maxInFlight](_ => None);
      pos, finished, fate := 0, [], Running;
      waiting, places, arrived := [], [], [];
    }

    /** A destination that was free at once leaves a closed file behind as the logger's own. */
    method Close(env: CloseEnv)
      requires WellFormed(store) && fate == Running
      modifies this`store, this`fate
      ensures SameBytes(old(store), store) && (store.open ==> old(store.open) && store.out == old(store.out))
      ensures fate == Running || fate == Dead
      ensures WellFormed(store) && Grows(old(store), store) && store.gzip == old(store.gzip)
      ensures old(store.out) == -1 ==> store == old(store) && fate == Running
      ensures Dangling(old(store)) ==> store == old(store) && fate == Dead
      ensures old(store.open) ==>
                (fate == Running <==>
                 (store.gzip ==> env.gzipOk) && env.syncOk && env.closeOk && (opts.moves ==> env.renameOk))
      ensures old(store.open) && fate == Running ==>
                store == Forgotten(Synced(old(store)), opts.moves && env.taken == 0)
    {
      if store.out == -1 {
        return;
      }
      if store.gzip && store.open && !env.gzipOk {
        fate := Dead;
        return;
      }
      if !store.open || !env.syncOk {
        fate := Dead;
        return;
      }
      store := Synced(store);
      if !env.closeOk {
        store := Forgotten(store, true);
        fate := Dead;
        return;
      }
      store := store.(open := false);
      if opts.moves {
        if !env.renameOk {
          fate := Dead;
          return;
        }
        if env.taken == 0 {
          return;
        }
      }
      store := store.(out := -1);
    }

    predicate NeedsRotation(due: bool)
      reads this
    {
      store.out == -1 || due || (opts.rotateSize > 0 && filesize > opts.rotateSize)
    }

    /** Close, then open the next file. */
    method UpdateFile(env: Env)
      requires Valid() && fate == Running
      modifies this`store, this`fate, this`filesize
      ensures Valid() && (fate == Running || fate == Dead)
      ensures fate == Running ==>
                && !Dangling(old(store)) && env.next.Some?
                && NewFile(if store.gzip then [] else env.next.value, old(store), store)
      ensures CloseOk(env.rotate) && env.next.Some? && !Dangling(old(store)) ==> fate == Running
      ensures store.gzip == old(store.gzip)
    {
      ghost var s := store;
      Close(env.rotate);
      AllDurableStays(s, store, finished);
      if fate == Running {
        OpenFile(env.next, s, opts.moves && env.rotate.taken == 0);
      }
    }

    method OpenFile(next: Option<seq<byte>>, ghost s: Store, ghost keepOut: bool)
      requires fate == Running && WellFormed(store) && Buffered()
      requires WellFormed(s) && Safe(s, waiting, places) && !Dangling(s)
      requires store == if s.open then Forgotten(Synced(s), keepOut) else s
      requires Accounted(true, finished, waiting, arrived) && AllDurable(store, finished)
      modifies this`store, this`fate, this`filesize
      ensures Valid() && fate == if next.Some? then Running else Dead
      ensures fate == Running ==> NewFile(if store.gzip then [] else next.value, old(store), store)
      ensures store.gzip == old(store.gzip)
    {
      if next.None? {
        fate := Dead;
        return;
      }
      var before := if store.gzip then [] else next.value;
      SafeRotation(s, store, keepOut, before, waiting, places);
      AllDurableStays(store, Opened(store, before), finished);
      store := Opened(store, before);
      filesize := |before|;
    }

    /** A write to a closed file fails, unless a gzip writer, closed as well, buffers it. */
    method Write(p: seq<byte>, ok: bool) returns (written: bool)
      requires Valid() && fate == Running && store.out >= 0
      modifies this`store, this`filesize
      ensures Valid()
      ensures written <==> ok && (store.open || store.gzip)
      ensures store == if written && old(store.open) then Written(old(store), p) else old(store)
    {
      written := ok && (store.open || store.gzip);
      if written {
        if store.open {
          WrittenIsAppended(store, p);
          AllHeldAfterWrite(store, p, waiting, places);
          AllDurableStays(store, Written(store, p), finished);
          store := Written(store, p);
        }
        filesize := filesize + |p|;
      }
    }

    /** Writes a message's body and newline. */
    method WriteLine(m: Message, env: Env) returns (written: bool, ghost place: Place)
      requires Valid() && fate == Running && store.out >= 0
      modifies this`store, this`filesize
      ensures Valid()
      ensures SameFile(old(store), store)
      ensures written <==> env.bodyOk && env.newlineOk && (store.open || store.gzip)
      ensures written && store.open ==>
                Held(store, m, place) && Appends(Line(m), old(store), store) && SameDurable(old(store), store)
    {
      ghost var s := store;
      place := Place(s.out, |Logical(s, s.out)|);
      written := Write(m.Body, env.bodyOk);
      if written {
        written := Write([NEWLINE], env.newlineOk);
        if store.open && written {
          NewlyHeld(s, m);
        }
      }
    }

    /** Writes a message's line and puts the message into the buffer. */
    method WriteMessage(m: Message, env: Env) returns (full: bool)
      requires Valid() && fate == Running && store.out >= 0
      modifies this`store, this`filesize, this`fate, this`pos, this`waiting, this`places, this`arrived, output
      ensures Valid() && arrived == old(arrived) + [m]
      ensures Writes(env, opts.maxInFlight, m, old(Now()), Now(), full)
    {
      ghost var a := Now();
      full := false;
      var written;
      ghost var place;
      written, place := WriteLine(m, env);
      if written {
        full := Enqueue(m, place);
      } else {
        DieOver(m);
      }
      WritesInSteps(env, opts.maxInFlight, m, written, a, Now(), full);
    }

    /** The message could not be written. */
    method DieOver(m: Message)
      requires Valid() && fate == Running
      modifies this`fate, this`arrived
      ensures Valid() && arrived == old(arrived) + [m] && Now() == old(Now()).(fate := Dead)
    {
      fate := Dead;
      LoseArrival(m);
    }

    /** Puts a written message into the buffer. */
    method Enqueue(m: Message, ghost place: Place) returns (full: bool)
      requires Valid() && fate == Running && store.out >= 0 && (store.open ==> Held(store, m, place))
      modifies this`fate, this`pos, this`waiting, this`places, this`arrived, output
      ensures Valid() && arrived == old(arrived) + [m]
      ensures Now() == if old(pos) < opts.maxInFlight then old(Now()).(pos := old(pos) + 1)
                       else old(Now()).(fate := Panicked)
      ensures fate == Running ==> (full <==> pos == opts.maxInFlight)
    {
      if pos >= output.Length {
        fate := Panicked;
        LoseArrival(m);
        return false;
      }
      PutIntoBuffer(m, place);
      full := pos == output.Length;
    }

    method PutIntoBuffer(m: Message, ghost place: Place)
      requires Valid() && fate == Running && store.out >= 0 && (store.open ==> Held(store, m, place))
      requires pos < opts.maxInFlight
      modifies this`pos, this`waiting, this`places, this`arrived, output
      ensures Valid() && arrived == old(arrived) + [m] && pos == old(pos) + 1
    {
      GoodArrival(store, finished, waiting, places, arrived, m, place);
      arrived := arrived + [m];
      output[pos] := Some(m);
      waiting, places := waiting + [m], places + [place];
      pos := pos + 1;
    }

    /** Ends the gzip stream, if there is one, and syncs the file; a closed file cannot be synced. */
    method Sync(env: Env) returns (ok: bool)
      requires WellFormed(store) && store.out >= 0
      modifies this`store
      ensures ok <==> old(store.open) && (store.gzip ==> env.gzipOk) && env.syncOk
      ensures store == if ok then Synced(old(store)) else old(store)
    {
      if store.gzip && store.open && !env.gzipOk {
        return false;
      }
      ok := store.open && env.syncOk;
      if ok {
        store := Synced(store);
      }
    }

    /** Finishes the last message in the buffer. */
    method FinishLast()
      requires Valid() && fate == Running && store.open && AllDurable(store, waiting) && pos > 0
      modifies this`pos, this`finished, this`waiting, this`places, output
      ensures Valid() && AllDurable(store, waiting)
      ensures pos == old(pos) - 1
      ensures waiting == old(waiting[..pos - 1]) && finished == old(finished + [waiting[pos - 1]])
    {
      GoodFinish(store, finished, waiting, places, arrived);
      pos := pos - 1;
      var m := output[pos].value;
      finished := finished + [m];
      output[pos] := None;
      waiting, places := waiting[..pos], places[..pos];
    }

    /** Finishes every message that waits, the last one first. */
    method FinishAll()
      requires Valid() && fate == Running && store.open && AllDurable(store, waiting)
      modifies this`pos, this`finished, this`waiting, this`places, output
      ensures Valid() && pos == 0 && old(finished) <= finished
    {
      while pos > 0
        invariant Valid() && AllDurable(store, waiting) && old(finished) <= finished
        decreases pos
      {
        FinishLast();
      }
    }

    /** Once the file is synced, what waits is durable. */
    method SyncWaiting(env: Env) returns (ok: bool)
      requires Valid() && fate == Running && pos > 0
      modifies this`store
      ensures Valid() && (ok ==> AllDurable(store, waiting))
      ensures ok <==> old(store.open) && (store.gzip ==> env.gzipOk) && env.syncOk
      ensures store == if ok then Synced(old(store)) else old(store)
    {
      ghost var s := store;
      ok := Sync(env);
      if ok {
        SafeSync(s, waiting, places);
        AllDurableStays(s, store, finished);
      }
    }

    /** Syncs if anything waits, and only then acknowledges it. */
    method Flush(env: Env)
      requires Valid() && fate == Running
      modifies this`store, this`fate, this`pos, this`finished, this`waiting, this`places, output
      ensures Valid() && Flushes(env, old(Now()), Now())
    {
      ghost var a := Now();
      var ok := true;
      if pos > 0 {
        ok := SyncWaiting(env);
        if ok {
          FinishAll();
        } else {
          fate := Dead;
        }
      }
      FlushesInSteps(env, ok, a, Now());
    }

    /** Closing when nothing waits. */
    method CloseIdle(env: CloseEnv)
      requires Valid() && fate == Running && pos == 0
      modifies this`store, this`fate
      ensures Valid() && Closes(env, opts.moves, old(Now()), Now())
    {
      ghost var s := store;
      Close(env);
      AllDurableStays(s, store, finished);
    }

    /** Rotates on the tick, unless that would only leave an empty file: then the old one is closed. */
    method OnTick(env: Env) returns (closeFile: bool)
      requires Valid() && fate == Running
      modifies this`store, this`filesize, this`fate
      ensures Valid() && (fate == Running || fate == Dead)
      ensures Dangling(old(store)) && fate == Running ==> store == old(store)
      ensures EnvOk(env) && !Dangling(old(store)) ==> fate == Running && !Dangling(store)
      ensures store.gzip == old(store.gzip)
      ensures fate == Running && !Dangling(old(store)) ==> Ticks(opts, env, old(store), store, closeFile)
    {
      closeFile := false;
      if NeedsRotation(env.due) {
        if opts.skipEmptyFiles {
          closeFile := true;
        } else {
          UpdateFile(env);
        }
      }
    }

    method RotateIfNeeded(env: Env) returns (rotated: bool)
      requires Valid() && fate == Running
      modifies this`store, this`filesize, this`fate
      ensures Valid() && (fate == Running || fate == Dead)
      ensures fate == Running ==> store.out >= 0
      ensures Dangling(old(store)) && fate == Running ==> store == old(store)
      ensures EnvOk(env) && !Dangling(old(store)) ==> fate == Running && store.open
      ensures old(store.open) ==>
                (rotated <==> env.due || (opts.rotateSize > 0 && |old(Logical(store, store.out))| > opts.rotateSize))
      ensures old(store.out) == -1 ==> rotated
      ensures !rotated ==> store == old(store)
      ensures rotated && fate == Running ==>
                env.next.Some? && NewFile(if store.gzip then [] else env.next.value, old(store), store)
      ensures store.gzip == old(store.gzip)
    {
      rotated := NeedsRotation(env.due);
      if rotated {
        UpdateFile(env);
      }
    }

    /** A message is written, to a new file if need be. */
    method OnMessage(env: Env, m: Message) returns (sync: bool)
      requires Valid() && fate == Running
      modifies this`store, this`filesize, this`fate, this`pos, this`waiting, this`places, this`arrived, output
      ensures Valid() && arrived == old(arrived) + [m]
      ensures match fate
              case Running => pos == old(pos) + 1 && (pos == opts.maxInFlight ==> sync)
              case Dead => true
              case Panicked => old(pos) == opts.maxInFlight && (store.open || store.gzip)
              case Stopped => false
      ensures Dangling(old(store)) && fate != Dead ==> store == old(store) && store.gzip
      ensures EnvOk(env) && !Dangling(old(store)) ==> fate != Dead && !Dangling(store)
      ensures store.gzip == old(store.gzip)
      ensures fate == Running && !Dangling(old(store)) ==>
                && Lands(opts, env, m, old(store), store)
                && (sync <==> TimeToRotate(opts, env.due, old(store)) || pos == opts.maxInFlight)
                && (sync || SameDurable(old(store), store))
    {
      ghost var s := store;
      sync := RotateIfNeeded(env);
      if fate == Dead {
        LoseArrival(m);
      } else {
        ghost var mid := store;
        var full := WriteMessage(m, env);
        sync := sync || full;
        if fate == Running && !Dangling(s) {
          LandsInSteps(opts, env, m, s, mid, store);
        }
      }
    }

    /** The process ended before the message got into the buffer. */
    ghost method LoseArrival(m: Message)
      requires Valid() && !Alive(fate)
      modifies this`arrived
      ensures Valid() && arrived == old(arrived) + [m]
    {
      AccountedLoss(finished, waiting, arrived, m);
      arrived := arrived + [m];
    }

    /** The rest of a turn. */
    method Settle(sync: bool, closeFile: bool, exit: bool, env: Env)
      requires Valid() && fate == Running && (closeFile ==> sync) && (exit ==> closeFile)
      modifies this`store, this`fate, this`pos, this`finished, this`waiting, this`places, output
      ensures Valid() && Settles(sync, closeFile, exit, env, opts.moves, old(Now()), Now())
    {
      ghost var a := Now();
      if sync || env.starved {
        Flush(env);
      }
      ghost var b := Now();
      if fate == Running && closeFile {
        CloseIdle(env.close);
      }
      ghost var c := Now();
      if fate == Running && exit {
        fate := Stopped;
      }
      SettlesInSteps(sync, closeFile, exit, env, opts.moves, a, b, c, Now());
    }

    /** What an event asks for: a sync, closing the file, ending the loop. Messages are written here. */
    method Receive(e: Event) returns (sync: bool, closeFile: bool, exit: bool)
      requires Valid() && fate == Running
      modifies this`store, this`filesize, this`fate, this`pos, this`waiting, this`places, this`arrived, output
      ensures Valid() && arrived == old(arrived) + if e.Arrive? then [e.m] else []
      ensures Receives(opts, e, old(Now()), Now(), sync, closeFile, exit) && (exit ==> closeFile)
    {
      sync, closeFile, exit := e.Stop? || e.Term? || e.Hup?, e.Stop? || e.Hup?, e.Stop?;
      match e
      case Tick(env) =>
        closeFile := OnTick(env);
        sync := true;
      case Arrive(env, m) =>
        sync := OnMessage(env, m);
      case _ =>
    }

    /** One turn of the loop. */
    method Turn(e: Event)
      requires Valid() && fate == Running
      modifies this`store, this`filesize, this`fate, this`pos, this`finished, this`waiting, this`places, this`arrived,
               output
      ensures Valid() && arrived == old(arrived) + if e.Arrive? then [e.m] else []
      ensures Turns(opts, e, old(Now()), Now())
    {
      ghost var a := Now();
      var sync, closeFile, exit := Receive(e);
      ghost var b := Now();
      if fate == Running {
        Settle(sync, closeFile, exit, e.env);
      }
      TurnsInSteps(opts, e, a, b, Now(), sync, closeFile, exit);
    }

    /**
     The event loop. Only what is durable was acknowledged, and no message twice; when the loop stops, all that
     arrived was acknowledged. With room for one message the buffer's index is never out of range.
     */
    method Router(events: seq<Event>) returns (n: nat)
      requires Valid() && fate == Running && pos == 0 && arrived == []
      modifies this`store, this`filesize, this`fate, this`pos, this`finished, this`waiting, this`places, this`arrived,
               output
      ensures n <= |events| && (fate == Running ==> n == |events|)
      ensures arrived == Arrivals(events[..n])
      ensures WellFormed(store) && forall m | m in finished :: Durable(store, m)
      ensures multiset(finished) <= multiset(Arrivals(events[..n]))
      ensures fate == Stopped ==> multiset(finished) == multiset(Arrivals(events[..n]))
      ensures opts.maxInFlight >= 1 ==> fate != Panicked
      ensures opts.maxInFlight == 0 && arrived != [] ==> fate == Dead || fate == Panicked
    {
      n := 0;
      while n < |events| && fate == Running
        invariant n <= |events| && Valid() && arrived == Arrivals(events[..n])
        invariant fate == Stopped ==> pos == 0
        invariant opts.maxInFlight >= 1 ==> fate != Panicked && (fate == Running ==> pos < opts.maxInFlight)
        invariant opts.maxInFlight == 0 && arrived != [] ==> fate == Dead || fate == Panicked
        invariant pos <= opts.maxInFlight
      {
        assert events[..n + 1][..n] == events[..n];
        Turn(events[n]);
        n := n + 1;
      }
    }
  }

  /**
   The first message after a hangup ends the process, unacknowledged, if finished files are moved and the
   file's destination name was free; and unless a call fails, only then.
   */
  method MessageAfterHup(logger: FileLogger, hup: Env, env: Env, m: Message)
    requires logger.Valid() && logger.fate == Running && logger.store.open && !logger.store.gzip
    modifies logger, logger.output
    ensures logger.Valid()
    ensures logger.opts.moves && hup.close.taken == 0 ==> logger.fate == Dead
    ensures EnvOk(hup) && EnvOk(env) ==> (logger.fate == Dead <==> logger.opts.moves && hup.close.taken == 0)
  {
    logger.Turn(Hup(hup));
    if logger.fate == Running {
      logger.Turn(Arrive(env, m));
    }
  }
}

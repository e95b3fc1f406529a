/**
 The disk queue's operations as functions on its state: the directory, the three cursors,
 the depth and the event loop's locals. Open file handles do not appear here; that they
 always agree with the cursors is proved of the class that implements these functions.
 */
module DiskQueueSpec {
  import opened Bytes
  import opened BackendQueue
  import opened DiskFormat
  import opened Wrappers

  datatype Config = Config(lim: Limits, maxBytesPerFile: int, syncEvery: int)

  /** The persisted metadata: depth, read cursor and write cursor. */
  datatype Meta = Meta(depth: int, read: Cursor, write: Cursor)

  datatype Queue = Queue(
    files: Files, bad: Files, meta: Option<Meta>,
    read: Cursor, next: Cursor, write: Cursor, depth: int,
    needSync: bool, count: int, dataRead: Data)
  {
    function LayoutNow(): Layout {
      Layout(files, bad, read, write)
    }
  }

  /** A queue opened on a directory: the metadata's state, or zeros without metadata. */
  function Opened(files: Files, bad: Files, meta: Option<Meta>): Queue {
    var m := if meta.Some? then meta.value else Meta(0, Cursor(0, 0), Cursor(0, 0));
    Queue(files, bad, meta, m.read, m.read, m.write, m.depth, false, 0, [])
  }

  function Synced(q: Queue): Queue {
    q.(meta := Some(Meta(q.depth, q.read, q.write)), needSync := false)
  }

  function AfterRead(cfg: Config, q: Queue, data: Data): Queue {
    q.(dataRead := data, next := Advance(q.read, |data|, cfg.maxBytesPerFile))
  }

  /** Opening the write file creates it. */
  function AfterOpenWrite(q: Queue): Queue {
    if q.write.file in q.files then q else q.(files := q.files[q.write.file := []])
  }

  function AfterWrite(cfg: Config, q: Queue, data: Data): Queue
    requires q.write.pos >= 0
  {
    if !Accepts(cfg.lim, data) then AfterOpenWrite(q)
    else
      var w := Advance(q.write, ToInt32(|data|), cfg.maxBytesPerFile);
      var written := q.(files := Written(q.files, q.write, data), write := w, depth := q.depth + 1);
      if w.file == q.write.file then written else Synced(written)
  }

  lemma WrittenAfterOpen(cfg: Config, q: Queue, data: Data)
    requires q.write.pos >= 0
    ensures AfterWrite(cfg, AfterOpenWrite(q), data) == AfterWrite(cfg, q, data)
    ensures Tidy(q) ==> Tidy(AfterOpenWrite(q))
  {
    if q.write.file !in q.files {
      WrittenAfterCreate(q.files, q.write, data);
    }
  }

  function AfterSkipAll(q: Queue): Queue {
    var start := Cursor(q.write.file + 1, 0);
    q.(files := map f | f in q.files && !(q.read.file <= f <= q.write.file) :: q.files[f],
       read := start, next := start, write := start, depth := 0)
  }

  function AfterEmpty(q: Queue): Queue {
    AfterSkipAll(q).(meta := None, count := 0)
  }

  function AfterTailCheck(q: Queue): Queue {
    if HasData(q.read, q.write) then q
    else
      var r := if q.depth != 0 then q.(depth := 0, needSync := true) else q;
      if q.read != q.write then AfterSkipAll(r).(needSync := true) else r
  }

  function AfterDelivery(q: Queue): Queue {
    var moved := q.(read := q.next, depth := q.depth - 1);
    AfterTailCheck(
      if q.read.file != q.next.file then moved.(needSync := true, files := q.files - {q.read.file}) else moved)
  }

  function AfterReadError(q: Queue): Queue {
    var l := SkipFile(q.LayoutNow());
    q.(files := l.files, bad := l.bad, read := l.read, next := l.read, write := l.write, needSync := true)
  }

  function SyncIfDue(cfg: Config, q: Queue): Queue {
    if q.needSync || q.count == cfg.syncEvery then Synced(q).(count := 0) else q
  }

  /** The top of the event loop up to its select, and whether a record is ready to be sent. */
  function Prepared(cfg: Config, q: Queue): (Queue, bool)
    requires q.read.file <= q.write.file
    decreases q.write.file - q.read.file, if HasData(q.read, q.write) then 1 else 0
  {
    var s := SyncIfDue(cfg, q);
    if !HasData(s.read, s.write) then (s, false)
    else if s.next.pos != s.read.pos then (s, true)
    else
      var r := ReadRecord(s.files, cfg.lim, s.read);
      if r.Some? then (AfterRead(cfg, s, r.value), true) else Prepared(cfg, AfterReadError(s))
  }

  /** One arm of the select, on a prepared queue. */
  function Chosen(cfg: Config, q: Queue, ready: bool, e: Event): (Queue, Response)
    requires q.write.pos >= 0
  {
    match e
    case Put(data) =>
      (AfterWrite(cfg, q.(count := q.count + 1), data), if Accepts(cfg.lim, data) then Accepted else Rejected)
    case Deliver => if ready then (AfterDelivery(q.(count := q.count + 1)), Delivered(q.dataRead)) else (q, Blocked)
    case Empty => (AfterEmpty(q), Emptied)
    case Tick => (if q.count == 0 then q else q.(needSync := true), Ticked)
  }

  /** What holds of every queue opened from metadata the queue itself wrote, whatever its files hold. */
  ghost predicate Ordered(cfg: Config, q: Queue) {
    && 0 <= q.read.pos && 0 <= q.write.pos && q.read.file <= q.write.file
    && (q.next == q.read || q.next == Advance(q.read, |q.dataRead|, cfg.maxBytesPerFile))
  }

  lemma OrderedArms(cfg: Config, q: Queue, data: Data)
    requires Ordered(cfg, q)
    ensures Ordered(cfg, SyncIfDue(cfg, q))
    ensures Ordered(cfg, AfterRead(cfg, q, data))
    ensures Ordered(cfg, AfterWrite(cfg, q, data))
    ensures Ordered(cfg, AfterEmpty(q))
    ensures Ordered(cfg, AfterReadError(q))
  {
  }

  /** A queue in which a record is read ahead, as far as it has been read. */
  predicate ReadAhead(cfg: Config, q: Queue, data: Data) {
    q.dataRead == data && q.next == Advance(q.read, |data|, cfg.maxBytesPerFile)
  }

  /** The bound on consecutive read errors needs nothing of the files' contents. */
  function ReadErrors(cfg: Config, q: Queue): (n: nat)
    requires q.read.file <= q.write.file
    ensures n <= q.write.file - q.read.file + 1
    ensures n == Prepared(cfg, q).0.read.file - q.read.file
    decreases q.write.file - q.read.file, if HasData(q.read, q.write) then 1 else 0
  {
    var s := SyncIfDue(cfg, q);
    if HasData(s.read, s.write) && s.next.pos == s.read.pos && ReadRecord(s.files, cfg.lim, s.read).None?
    then
      assert AfterReadError(s).read.file == q.read.file + 1;
      assert q.read.file == q.write.file ==> !HasData(AfterReadError(s).read, AfterReadError(s).write);
      1 + ReadErrors(cfg, AfterReadError(s))
    else 0
  }

  // ---- What a queue holds, whatever its files hold ----

  function ReadingOf(cfg: Config, q: Queue): Reading
    requires q.read.file <= q.write.file
  {
    Read(q.files, cfg.lim, cfg.maxBytesPerFile, q.read, q.write)
  }

  /**
   `q` holds `s`: reading its files, damaged or not, yields what is pending, and does not pass the
   writer. A record that was read ahead is the first of them.
   */
  ghost predicate Holds(cfg: Config, q: Queue, s: State) {
    && Ordered(cfg, q)
    && (var r := ReadingOf(cfg, q);
        && s.pending == r.recs && r.end.file <= q.write.file
        && (s.pending != [] ==> s.spoiled == HasData(r.last, q.write)))
    && q.depth == s.depth
    && (q.next == q.read
        || (HasData(q.read, q.write) && ReadRecord(q.files, cfg.lim, q.read) == Some(q.dataRead)
              && ReadAhead(cfg, q, q.dataRead)))
  }

  /** Reading ends exactly where the writer is: what is put now will be found behind the rest. */
  ghost predicate MeetsWriter(cfg: Config, q: Queue) {
    q.read.file <= q.write.file && ReadingOf(cfg, q).end == q.write
  }

  ghost predicate NoLaterFiles(q: Queue) {
    forall f | f in q.files :: f <= q.write.file
  }

  /**
   Nothing stands behind the write cursor. A put overwrites what does, while the reader may have it in its
   buffer: see `LookAhead.StaleRecordIsRead`.
   */
  ghost predicate Tidy(q: Queue) {
    NoLaterFiles(q) && (q.write.file in q.files ==> |q.files[q.write.file]| <= q.write.pos)
  }

  /** What is put now will be delivered after the rest. */
  ghost predicate Writable(cfg: Config, q: Queue) {
    MeetsWriter(cfg, q) && Tidy(q)
  }

  /** The step from `q` to `t` leaves nothing behind the write cursor. */
  ghost predicate StaysTidy(q: Queue, t: Queue) {
    (NoLaterFiles(q) ==> NoLaterFiles(t)) && (Tidy(q) ==> Tidy(t))
  }

  /** And what is put can still be delivered. */
  ghost predicate StaysWritable(cfg: Config, q: Queue, t: Queue) {
    StaysTidy(q, t) && (MeetsWriter(cfg, q) ==> MeetsWriter(cfg, t))
  }

  lemma HoldsLocally(cfg: Config, p: Queue, q: Queue, s: State)
    requires Holds(cfg, p, s)
    requires q == p.(needSync := q.needSync, count := q.count, meta := q.meta)
    ensures Holds(cfg, q, s) && StaysWritable(cfg, p, q)
  {
  }

  lemma ErrorHolds(cfg: Config, q: Queue, s: State)
    requires Holds(cfg, q, s) && q.next == q.read
    requires HasData(q.read, q.write) && ReadRecord(q.files, cfg.lim, q.read).None?
    ensures Holds(cfg, AfterReadError(q), s)
    ensures StaysWritable(cfg, q, AfterReadError(q))
  {
    SkippingLosesNothing(cfg.lim, cfg.maxBytesPerFile, q.LayoutNow());
  }

  /**
   Before each select a queue skips what it cannot read, one file for each error, and then has the
   first pending record ready, if there is one.
   */
  lemma {:induction false} PreparedHolds(cfg: Config, q: Queue, s: State)
    requires Holds(cfg, q, s)
    ensures var (p, ready) := Prepared(cfg, q);
            && Holds(cfg, p, s) && StaysWritable(cfg, q, p)
            && (ready <==> s.pending != [])
            && (ready ==> HasData(p.read, p.write) && ReadRecord(p.files, cfg.lim, p.read) == Some(s.pending[0])
                          && ReadAhead(cfg, p, s.pending[0]))
            && 0 <= p.read.file - q.read.file <= q.write.file - q.read.file + 1
    decreases q.write.file - q.read.file, if HasData(q.read, q.write) then 1 else 0
  {
    var t := SyncIfDue(cfg, q);
    HoldsLocally(cfg, q, t, s);
    if HasData(t.read, t.write) && t.next.pos == t.read.pos {
      if ReadRecord(t.files, cfg.lim, t.read).None? {
        ErrorHolds(cfg, t, s);
        PreparedHolds(cfg, AfterReadError(t), s);
      }
    }
  }

  /** What reading finds behind a record of the same file, or of the next, once the files before are gone. */
  lemma ReadBehind(cfg: Config, q: Queue)
    requires q.read.file <= q.write.file && HasData(q.read, q.write)
    requires ReadRecord(q.files, cfg.lim, q.read) == Some(q.dataRead) && ReadAhead(cfg, q, q.dataRead)
    requires q.next.file <= q.write.file
    ensures var files := if q.next.file == q.read.file then q.files else q.files - {q.read.file};
            var before, after := ReadingOf(cfg, q), Read(files, cfg.lim, cfg.maxBytesPerFile, q.next, q.write);
            before == after.(recs := [q.dataRead] + after.recs)
  {
    if q.next.file != q.read.file {
      SameFrom(q.files, q.files - {q.read.file}, cfg.lim, q.next.file);
      ReadLocally(q.files, q.files - {q.read.file}, cfg.lim, cfg.maxBytesPerFile, q.next, q.write);
    }
  }

  /** Reading that does not pass the writer does not leave it with its first record either. */
  lemma NextNotPast(cfg: Config, q: Queue)
    requires q.read.file <= q.write.file && HasData(q.read, q.write)
    requires ReadRecord(q.files, cfg.lim, q.read) == Some(q.dataRead) && ReadAhead(cfg, q, q.dataRead)
    requires ReadingOf(cfg, q).end.file <= q.write.file
    ensures q.read.file <= q.next.file <= q.write.file
  {
  }

  lemma DeliveredHolds(cfg: Config, q: Queue, s: State)
    requires Holds(cfg, q, s) && s.pending != [] && HasData(q.read, q.write)
    requires ReadRecord(q.files, cfg.lim, q.read) == Some(s.pending[0]) && ReadAhead(cfg, q, s.pending[0])
    ensures Holds(cfg, AfterDelivery(q), Step(cfg.lim, s, Deliver).0)
    ensures StaysWritable(cfg, q, AfterDelivery(q))
  {
    NextNotPast(cfg, q);
    ReadBehind(cfg, q);
  }

  lemma WrittenHolds(cfg: Config, q: Queue, s: State, data: Data)
    requires Holds(cfg, q, s)
    requires Accepts(cfg.lim, data) ==> |data| <= MAX_INT32 && MeetsWriter(cfg, q)
    ensures Holds(cfg, AfterWrite(cfg, q, data), Step(cfg.lim, s, Put(data)).0)
    ensures StaysWritable(cfg, q, AfterWrite(cfg, q, data))
  {
    WrittenTidy(cfg, q, data);
    if Accepts(cfg.lim, data) {
      AcceptedHolds(cfg, q, s, data);
    } else if q.write.file !in q.files {
      CreationUnnoticed(cfg, q);
    }
  }

  lemma WrittenTidy(cfg: Config, q: Queue, data: Data)
    requires 0 <= q.write.pos
    requires Accepts(cfg.lim, data) ==> |data| <= MAX_INT32
    ensures StaysTidy(q, AfterWrite(cfg, q, data))
  {
  }

  lemma AcceptedHolds(cfg: Config, q: Queue, s: State, data: Data)
    requires Holds(cfg, q, s) && MeetsWriter(cfg, q)
    requires Accepts(cfg.lim, data) && |data| <= MAX_INT32
    ensures Holds(cfg, AfterWrite(cfg, q, data), Step(cfg.lim, s, Put(data)).0)
    ensures MeetsWriter(cfg, AfterWrite(cfg, q, data))
  {
    var t := AfterWrite(cfg, q, data);
    ReadAppended(q.files, cfg.lim, cfg.maxBytesPerFile, q.read, q.write, data);
    assert ReadingOf(cfg, t) == Reading(ReadingOf(cfg, q).recs + [data], t.write, t.write);
    if q.next != q.read {
      NextNotPast(cfg, q);
      ReadBehindMeets(cfg, q);
      ReadRecordBefore(q.files, cfg.lim, q.write, data, q.read);
    }
  }

  lemma ReadBehindMeets(cfg: Config, q: Queue)
    requires MeetsWriter(cfg, q) && HasData(q.read, q.write)
    requires ReadRecord(q.files, cfg.lim, q.read) == Some(q.dataRead) && ReadAhead(cfg, q, q.dataRead)
    requires q.next.file <= q.write.file
    ensures q.read.file != q.write.file || q.read.pos + 4 + |q.dataRead| <= q.write.pos
  {
    MeetsForward(q.files, cfg.lim, cfg.maxBytesPerFile, q.next, q.write);
  }

  /** Creating the write file reads like its absence. */
  lemma CreationUnnoticed(cfg: Config, q: Queue)
    requires q.read.file <= q.write.file && q.write.file !in q.files
    ensures ReadingOf(cfg, q.(files := q.files[q.write.file := []])) == ReadingOf(cfg, q)
    ensures forall c: Cursor :: ReadRecord(q.files[q.write.file := []], cfg.lim, c) == ReadRecord(q.files, cfg.lim, c)
  {
    ReadLocally(q.files, q.files[q.write.file := []], cfg.lim, cfg.maxBytesPerFile, q.read, q.write);
  }

  lemma EmptiedHolds(cfg: Config, q: Queue)
    requires Ordered(cfg, q)
    ensures Holds(cfg, AfterEmpty(q), EMPTY) && MeetsWriter(cfg, AfterEmpty(q))
    ensures NoLaterFiles(q) ==> NoLaterFiles(AfterEmpty(q)) && Tidy(AfterEmpty(q))
  {
  }

  // ---- Refinement of the first-in first-out queue ----

  /**
   The arm that `e` selects is a turn of the first-in first-out queue. A queue that can be written to stays
   one, and becomes one with an Empty unless there are files behind the write file.
   */
  ghost predicate ArmRefines(cfg: Config, p: Queue, ready: bool, s: State, e: Event)
    requires p.write.pos >= 0
  {
    var (t, response) := Chosen(cfg, p, ready, e);
    var (u, expected) := Step(cfg.lim, s, e);
    && Holds(cfg, t, u) && response == expected
    && (NoLaterFiles(p) ==> NoLaterFiles(t))
    && (Writable(cfg, p) || (e == Empty && NoLaterFiles(p)) ==> Writable(cfg, t))
  }

  lemma PutRefines(cfg: Config, p: Queue, ready: bool, s: State, data: Data)
    requires Holds(cfg, p, s)
    requires Accepts(cfg.lim, data) ==> |data| <= MAX_INT32 && MeetsWriter(cfg, p)
    ensures ArmRefines(cfg, p, ready, s, Put(data))
  {
    var c := p.(count := p.count + 1);
    PutChosen(cfg, p, ready, data);
    HoldsLocally(cfg, p, c, s);
    WrittenHolds(cfg, c, s, data);
  }

  lemma DeliverRefines(cfg: Config, p: Queue, ready: bool, s: State)
    requires Holds(cfg, p, s)
    requires ready <==> s.pending != []
    requires ready ==> && HasData(p.read, p.write) && ReadRecord(p.files, cfg.lim, p.read) == Some(s.pending[0])
                       && ReadAhead(cfg, p, s.pending[0])
    ensures ArmRefines(cfg, p, ready, s, Deliver)
  {
    HoldsLocally(cfg, p, p.(count := p.count + 1), s);
    if ready {
      DeliveredHolds(cfg, p.(count := p.count + 1), s);
    }
  }

  lemma OtherArmsRefine(cfg: Config, p: Queue, ready: bool, s: State)
    requires Holds(cfg, p, s)
    ensures ArmRefines(cfg, p, ready, s, Empty)
    ensures ArmRefines(cfg, p, ready, s, Tick)
  {
    EmptiedHolds(cfg, p);
    HoldsLocally(cfg, p, p.(needSync := true), s);
  }

  /**
   Each turn of the event loop is a turn of the first-in first-out queue, with the same response,
   whatever the files hold. Only a put needs the write file to be sound, and nothing to stand behind it.
   */
  lemma StepRefines(cfg: Config, q: Queue, s: State, e: Event)
    requires Holds(cfg, q, s)
    requires e.Put? && Accepts(cfg.lim, e.data) ==> |e.data| <= MAX_INT32 && Writable(cfg, q)
    ensures Ordered(cfg, q) && Ordered(cfg, Prepared(cfg, q).0)
    ensures var (p, ready) := Prepared(cfg, q);
            ready ==> p.read.file <= p.next.file <= p.write.file
    ensures var (p, ready) := Prepared(cfg, q);
            ArmRefines(cfg, p, ready, s, e) && StaysWritable(cfg, q, p)
  {
    PreparedHolds(cfg, q, s);
    var (p, ready) := Prepared(cfg, q);
    if ready {
      NextNotPast(cfg, p);
    }
    match e
    case Put(data) => PutRefines(cfg, p, ready, s, data);
    case Deliver => DeliverRefines(cfg, p, ready, s);
    case Empty => OtherArmsRefine(cfg, p, ready, s);
    case Tick => OtherArmsRefine(cfg, p, ready, s);
  }

  /** Puts can follow the events `before`: the queue is writable, or an Empty makes it so. */
  ghost predicate Puttable(cfg: Config, q: Queue, before: seq<Event>) {
    Writable(cfg, q) || (NoLaterFiles(q) && Empty in before)
  }

  /** The events `es` lead from `q` to `t`, as far as it can be written to. */
  ghost predicate StaysPuttable(cfg: Config, q: Queue, es: seq<Event>, t: Queue) {
    (NoLaterFiles(q) ==> NoLaterFiles(t)) && (Puttable(cfg, q, es) ==> Writable(cfg, t))
  }

  /** A directory that, once opened, holds `s` and can be written to. */
  ghost predicate Stores(cfg: Config, files: Files, bad: Files, meta: Option<Meta>, s: State) {
    var q := Opened(files, bad, meta);
    Holds(cfg, q, s) && Writable(cfg, q)
  }

  /** Closing syncs; reopening finds the same records and depth, a record read ahead included. */
  lemma CleanRestart(cfg: Config, q: Queue, s: State)
    requires Holds(cfg, q, s)
    ensures var closed := Synced(q);
            && Holds(cfg, Opened(closed.files, closed.bad, closed.meta), s)
            && (Writable(cfg, q) ==> Stores(cfg, closed.files, closed.bad, closed.meta, s))
            && (Settled(cfg, q, s) ==> Settled(cfg, Opened(closed.files, closed.bad, closed.meta), s))
  {
    assert Opened(Synced(q).files, Synced(q).bad, Synced(q).meta).LayoutNow() == q.LayoutNow();
  }

  /** An empty directory stores the empty queue, with nothing for any read to fail on. */
  lemma NewDirectory(cfg: Config)
    ensures Settled(cfg, Opened(map[], map[], None), EMPTY)
    ensures Stores(cfg, map[], map[], None, EMPTY)
  {
    SettledHolds(cfg, Opened(map[], map[], None), EMPTY);
  }

  /**
   A directory stores what reading it yields if it was damaged anywhere before the write file: any files
   there may be missing, cut short, or hold anything at all.
   */
  lemma DamagedDirectory(cfg: Config, files: Files, bad: Files, meta: Meta)
    requires meta.read.file < meta.write.file && 0 <= meta.read.pos && 0 <= meta.write.pos
    requires Read(files, cfg.lim, cfg.maxBytesPerFile, Cursor(meta.write.file, 0), meta.write).end == meta.write
    requires Tidy(Opened(files, bad, Some(meta)))
    ensures var q := Opened(files, bad, Some(meta));
            var r := ReadingOf(cfg, q);
            Stores(cfg, files, bad, Some(meta), State(r.recs, meta.depth, HasData(r.last, q.write)))
  {
    EndIsUpToWriteFile(files, cfg.lim, cfg.maxBytesPerFile, meta.read, meta.write);
  }

  // ---- Queues that nothing was done to ----

  /** `q` holds `s` in files just as it wrote them. */
  ghost predicate Settled(cfg: Config, q: Queue, s: State) {
    && Intact(cfg.lim, cfg.maxBytesPerFile, q.LayoutNow(), s.pending)
    && q.depth == s.depth && !s.spoiled
    && (q.next == q.read || (s.pending != [] && ReadAhead(cfg, q, s.pending[0])))
  }

  lemma SettledHolds(cfg: Config, q: Queue, s: State)
    requires Settled(cfg, q, s)
    ensures Holds(cfg, q, s) && Writable(cfg, q)
  {
    IntactRead(cfg.lim, cfg.maxBytesPerFile, q.LayoutNow(), s.pending);
  }

  /** From a settled queue no read fails, no cursor moves, and the first record is read ahead. */
  lemma PreparedSettled(cfg: Config, q: Queue, s: State)
    requires Settled(cfg, q, s)
    ensures q.read.file <= q.write.file && ReadErrors(cfg, q) == 0
    ensures var (p, ready) := Prepared(cfg, q);
            && Settled(cfg, p, s)
            && p.LayoutNow() == q.LayoutNow()
            && (ready <==> s.pending != [])
            && (ready ==> ReadAhead(cfg, p, s.pending[0]))
  {
    IntactRead(cfg.lim, cfg.maxBytesPerFile, q.LayoutNow(), s.pending);
    var t := SyncIfDue(cfg, q);
    assert t.LayoutNow() == q.LayoutNow();
  }

  /** Unless the reader passes the writer, a delivery only moves the reader, and out of a file it is done with. */
  lemma DeliveryMoves(q: Queue)
    requires HasData(q.next, q.write) || q.next == q.write
    ensures var t := AfterDelivery(q);
            && t.read == q.next && t.next == q.next && t.write == q.write
            && t.files == (if q.next.file == q.read.file then q.files else q.files - {q.read.file})
            && t.depth == if q.next == q.write then 0 else q.depth - 1
  {
  }

  /** A delivery removes the delivered record's file exactly when that was the file's last record. */
  lemma DeliveredSettled(cfg: Config, q: Queue, s: State)
    requires Settled(cfg, q, s) && s.pending != [] && ReadAhead(cfg, q, s.pending[0])
    ensures var t := AfterDelivery(q);
            && Settled(cfg, t, Step(cfg.lim, s, Deliver).0)
            && t.read == t.next == q.next && t.write == q.write
            && t.files == (if q.next.file == q.read.file then q.files else q.files - {q.read.file})
  {
    var max, rest := cfg.maxBytesPerFile, s.pending[1..];
    ChainMovesForward(q.files, cfg.lim, max, q.next, rest, q.write);
    DeliveryMoves(q);
    var files := if q.next.file == q.read.file then q.files else q.files - {q.read.file};
    ChainExtends(q.files, files, cfg.lim, max, q.next, rest, q.write);
    TightKept(q.files, files, cfg.lim, max, q.next, rest, q.write);
  }

  /** With an exact depth the tail check after a delivery finds nothing to correct. */
  lemma TailNeverCorrected(cfg: Config, q: Queue, s: State)
    requires Settled(cfg, q, s) && s.pending != [] && s.depth == |s.pending| && ReadAhead(cfg, q, s.pending[0])
    ensures var rolls := q.read.file != q.next.file;
            AfterDelivery(q) == q.(read := q.next, depth := |s.pending| - 1, needSync := q.needSync || rolls,
                                   files := if rolls then q.files - {q.read.file} else q.files)
  {
    ChainMovesForward(q.files, cfg.lim, cfg.maxBytesPerFile, q.next, s.pending[1..], q.write);
  }

  /**
   The reader moves to the next file exactly with the record where the writer did: one that ends its
   file, which is not the write file.
   */
  lemma RollAgreement(cfg: Config, q: Queue, s: State)
    requires Settled(cfg, q, s) && s.pending != [] && ReadAhead(cfg, q, s.pending[0])
    ensures q.next == q.write || Before(q.next, q.write)
    ensures q.read.file in q.files
    ensures q.next.file != q.read.file <==>
            q.read.file < q.write.file && q.read.pos + 4 + |q.dataRead| == |q.files[q.read.file]|
  {
    ChainMovesForward(q.files, cfg.lim, cfg.maxBytesPerFile, q.next, s.pending[1..], q.write);
  }

  lemma WrittenSettled(cfg: Config, q: Queue, s: State, data: Data)
    requires Settled(cfg, q, s)
    requires Accepts(cfg.lim, data) ==> |data| <= MAX_INT32
    ensures Settled(cfg, AfterWrite(cfg, q, data), Step(cfg.lim, s, Put(data)).0)
  {
    if Accepts(cfg.lim, data) {
      IntactAppend(cfg.lim, cfg.maxBytesPerFile, q.LayoutNow(), s.pending, data);
    } else if q.write.file !in q.files {
      IntactCreate(cfg.lim, cfg.maxBytesPerFile, q.LayoutNow(), s.pending);
    }
  }

  lemma EmptiedSettled(cfg: Config, q: Queue, s: State)
    requires Settled(cfg, q, s)
    ensures Settled(cfg, AfterEmpty(q), EMPTY)
    ensures AfterEmpty(q).files == map[] && AfterEmpty(q).meta == None
  {
    ChainMovesForward(q.files, cfg.lim, cfg.maxBytesPerFile, q.read, s.pending, q.write);
  }

  lemma SettledLocally(cfg: Config, p: Queue, q: Queue, s: State)
    requires Settled(cfg, p, s)
    requires q == p.(needSync := q.needSync, count := q.count)
    ensures Settled(cfg, q, s)
  {
    assert q.LayoutNow() == p.LayoutNow();
  }

  /** Only a read error sets a file aside. */
  lemma ArmKeepsBad(cfg: Config, q: Queue, ready: bool, e: Event)
    requires q.write.pos >= 0
    ensures Chosen(cfg, q, ready, e).0.bad == q.bad
  {
  }

  ghost predicate ArmStaysSettled(cfg: Config, p: Queue, ready: bool, s: State, e: Event)
    requires p.write.pos >= 0
  {
    Settled(cfg, Chosen(cfg, p, ready, e).0, Step(cfg.lim, s, e).0)
  }

  lemma PutStaysSettled(cfg: Config, p: Queue, ready: bool, s: State, data: Data)
    requires Settled(cfg, p, s)
    requires Accepts(cfg.lim, data) ==> |data| <= MAX_INT32
    ensures ArmStaysSettled(cfg, p, ready, s, Put(data))
  {
    var c := p.(count := p.count + 1);
    PutChosen(cfg, p, ready, data);
    SettledLocally(cfg, p, c, s);
    WrittenSettled(cfg, c, s, data);
  }

  lemma PutChosen(cfg: Config, p: Queue, ready: bool, data: Data)
    requires p.write.pos >= 0
    ensures Chosen(cfg, p, ready, Put(data))
         == (AfterWrite(cfg, p.(count := p.count + 1), data), if Accepts(cfg.lim, data) then Accepted else Rejected)
  {
  }

  lemma DeliverStaysSettled(cfg: Config, p: Queue, ready: bool, s: State)
    requires Settled(cfg, p, s)
    requires (ready <==> s.pending != []) && (ready ==> ReadAhead(cfg, p, s.pending[0]))
    ensures ArmStaysSettled(cfg, p, ready, s, Deliver)
  {
    if ready {
      var c := p.(count := p.count + 1);
      SettledLocally(cfg, p, c, s);
      DeliveredSettled(cfg, c, s);
      assert Chosen(cfg, p, ready, Deliver).0 == AfterDelivery(c);
    }
  }

  lemma OtherArmsStaySettled(cfg: Config, p: Queue, ready: bool, s: State)
    requires Settled(cfg, p, s)
    ensures ArmStaysSettled(cfg, p, ready, s, Empty)
    ensures ArmStaysSettled(cfg, p, ready, s, Tick)
  {
    EmptiedSettled(cfg, p, s);
    SettledLocally(cfg, p, p.(needSync := true), s);
  }

  /** Every turn keeps a settled queue settled, and sets no file aside: it is never damaged by its own doing. */
  lemma StepStaysSettled(cfg: Config, q: Queue, s: State, e: Event)
    requires Settled(cfg, q, s)
    requires e.Put? && Accepts(cfg.lim, e.data) ==> |e.data| <= MAX_INT32
    ensures q.read.file <= q.write.file && Prepared(cfg, q).0.write.pos >= 0
    ensures var (p, ready) := Prepared(cfg, q);
            ArmStaysSettled(cfg, p, ready, s, e) && Chosen(cfg, p, ready, e).0.bad == q.bad
  {
    PreparedSettled(cfg, q, s);
    var (p, ready) := Prepared(cfg, q);
    ArmKeepsBad(cfg, p, ready, e);
    assert p.LayoutNow().bad == q.LayoutNow().bad;
    match e
    case Put(data) => PutStaysSettled(cfg, p, ready, s, data);
    case Deliver => DeliverStaysSettled(cfg, p, ready, s);
    case Empty => OtherArmsStaySettled(cfg, p, ready, s);
    case Tick => OtherArmsStaySettled(cfg, p, ready, s);
  }

  /** A turn of the event loop from `q` to `t`, seen as a turn of the first-in first-out queue. */
  ghost predicate TurnTaken(cfg: Config, q: Queue, s: State, e: Event, t: Queue, response: Response) {
    && Holds(cfg, t, Step(cfg.lim, s, e).0) && response == Step(cfg.lim, s, e).1
    && StaysPuttable(cfg, q, [e], t)
    && (Settled(cfg, q, s) ==> Settled(cfg, t, Step(cfg.lim, s, e).0) && t.bad == q.bad)
  }

  lemma TurnIsTaken(cfg: Config, q: Queue, s: State, e: Event)
    requires Holds(cfg, q, s)
    requires e.Put? && Accepts(cfg.lim, e.data) ==> |e.data| <= MAX_INT32 && Writable(cfg, q)
    ensures q.read.file <= q.write.file && Prepared(cfg, q).0.write.pos >= 0
    ensures var (p, ready) := Prepared(cfg, q);
            var (t, response) := Chosen(cfg, p, ready, e);
            TurnTaken(cfg, q, s, e, t, response)
  {
    StepRefines(cfg, q, s, e);
    if Settled(cfg, q, s) {
      StepStaysSettled(cfg, q, s, e);
    }
  }
}

/**
 What becomes of each file, of the metadata and of the cursors, told without the functions that compute them:
 no file is lost unseen, and no more than `syncEvery` operations go unsynced.
 */
module DiskQueueLaws {
  import opened BackendQueue
  import opened DiskFormat
  import opened DiskQueueSpec
  import opened Wrappers

  // ---- Files set aside ----

  /** Files only leave the directory for `.bad`, with their contents, and nothing else becomes of that. */
  ghost predicate SetsAside(q: Queue, t: Queue) {
    && t.files.Keys <= q.files.Keys
    && (forall f | f in q.files ::
          if f in t.files then t.files[f] == q.files[f] else f in t.bad && t.bad[f] == q.files[f])
    && (forall f | f !in q.files || f in t.files ::
          (f in t.bad <==> f in q.bad) && (f in t.bad ==> t.bad[f] == q.bad[f]))
  }

  /** From `q` to `p` the reader left just the files that could not be read, and they were set aside. */
  ghost predicate SkipsTo(cfg: Config, q: Queue, p: Queue) {
    && SetsAside(q, p) && q.read.file <= p.read.file
    && (forall f | f in q.files :: f !in p.files <==> q.read.file <= f < p.read.file)
    && (q.read.file < p.read.file ==> ReadRecord(q.files, cfg.lim, q.read).None?)
    && (forall f | q.read.file < f < p.read.file :: ReadRecord(q.files, cfg.lim, Cursor(f, 0)).None?)
  }

  /** One read error. */
  ghost predicate SkipsOne(cfg: Config, q: Queue, t: Queue) {
    && SetsAside(q, t) && t.read == Cursor(q.read.file + 1, 0)
    && ReadRecord(q.files, cfg.lim, q.read).None?
    && (forall f | f in q.files :: f !in t.files <==> f == q.read.file)
    && (forall f | f > q.read.file ::
          ReadRecord(t.files, cfg.lim, Cursor(f, 0)) == ReadRecord(q.files, cfg.lim, Cursor(f, 0)))
  }

  lemma ErrorSkipsOne(cfg: Config, q: Queue)
    requires ReadRecord(q.files, cfg.lim, q.read).None?
    ensures SkipsOne(cfg, q, AfterReadError(q))
  {
  }

  lemma SkipsOn(cfg: Config, q: Queue, t: Queue, p: Queue)
    requires SkipsOne(cfg, q, t) && SkipsTo(cfg, t, p)
    ensures SkipsTo(cfg, q, p)
  {
  }

  lemma SkipsLocally(cfg: Config, q: Queue, s: Queue, p: Queue)
    requires SkipsTo(cfg, s, p) && q.files == s.files && q.bad == s.bad && q.read == s.read
    ensures SkipsTo(cfg, q, p)
  {
  }

  lemma SkipsNone(cfg: Config, q: Queue, p: Queue)
    requires p.files == q.files && p.bad == q.bad && p.read == q.read
    ensures SkipsTo(cfg, q, p)
  {
  }

  /** Before each select just the files that cannot be read are set aside, from the reader's on. */
  lemma {:induction false} PreparedSetsAside(cfg: Config, q: Queue)
    requires q.read.file <= q.write.file
    ensures SkipsTo(cfg, q, Prepared(cfg, q).0)
    decreases q.write.file - q.read.file, if HasData(q.read, q.write) then 1 else 0
  {
    var s, p := SyncIfDue(cfg, q), Prepared(cfg, q).0;
    if HasData(s.read, s.write) && s.next.pos == s.read.pos && ReadRecord(s.files, cfg.lim, s.read).None? {
      ErrorSkipsOne(cfg, s);
      PreparedSetsAside(cfg, AfterReadError(s));
      SkipsOn(cfg, s, AfterReadError(s), p);
      SkipsLocally(cfg, q, s, p);
    } else {
      SkipsNone(cfg, q, p);
    }
  }

  // ---- Files removed ----

  /** The delivered record was the last that is read of its file. */
  predicate DeliveredPast(p: Queue, f: int) {
    f == p.read.file && p.next.file != p.read.file
  }

  /** The reader would stand behind the write cursor of the write file, which is given up. */
  predicate GivenUp(p: Queue, f: int) {
    f == p.write.file == p.next.file && p.next.pos > p.write.pos
  }

  predicate RemovedBy(p: Queue, ready: bool, e: Event, f: int) {
    || (e == Deliver && ready && (DeliveredPast(p, f) || GivenUp(p, f)))
    || (e == Empty && p.read.file <= f <= p.write.file)
  }

  /** Of the select's arms just these remove files, and only a put changes one, the write file. */
  lemma ArmRemovesIff(cfg: Config, p: Queue, ready: bool, e: Event, f: int)
    requires p.write.pos >= 0 && f in p.files
    ensures var t := Chosen(cfg, p, ready, e).0;
            && (f !in t.files <==> RemovedBy(p, ready, e, f))
            && (f in t.files && !(e.Put? && f == p.write.file) ==> t.files[f] == p.files[f])
            && t.bad == p.bad
  {
    if e == Deliver && ready {
      DeliveryRemovesIff(p.(count := p.count + 1), f);
    }
  }

  lemma DeliveryRemovesIff(p: Queue, f: int)
    requires f in p.files
    ensures var t := AfterDelivery(p);
            && (f !in t.files <==> DeliveredPast(p, f) || GivenUp(p, f))
            && (f in t.files ==> t.files[f] == p.files[f])
            && t.bad == p.bad
  {
  }

  /** Files only come to be as the write file of a put. */
  lemma ArmCreates(cfg: Config, p: Queue, ready: bool, e: Event, f: int)
    requires p.write.pos >= 0 && f !in p.files
    ensures f in Chosen(cfg, p, ready, e).0.files <==> e.Put? && f == p.write.file
  {
  }

  /** A turn of the event loop. */
  ghost predicate IsTurn(cfg: Config, q: Queue, e: Event, t: Queue) {
    && q.read.file <= q.write.file
    && var (p, ready) := Prepared(cfg, q);
       p.write.pos >= 0 && t == Chosen(cfg, p, ready, e).0
  }

  /** The states of a run of the event loop, at its turns' beginnings. */
  ghost predicate IsTurns(cfg: Config, qs: seq<Queue>, script: seq<Event>) {
    && |qs| == |script| + 1
    && (forall i | 0 <= i < |qs| :: qs[i].read.file <= qs[i].write.file)
    && forall i | 0 <= i < |script| :: IsTurn(cfg, qs[i], script[i], qs[i + 1])
  }

  /** Turn `k` removes the file `f`, by a delivery or an Empty. */
  ghost predicate RemovedAt(cfg: Config, qs: seq<Queue>, script: seq<Event>, k: nat, f: int)
    requires IsTurns(cfg, qs, script) && k < |script|
  {
    RemovedBy(Prepared(cfg, qs[k]).0, Prepared(cfg, qs[k]).1, script[k], f)
  }

  lemma {:induction false} BadStays(cfg: Config, qs: seq<Queue>, script: seq<Event>, i: nat, j: nat, f: int)
    requires IsTurns(cfg, qs, script) && i <= j < |qs| && f in qs[i].bad
    ensures f in qs[j].bad
    decreases j - i
  {
    if i < j {
      assert IsTurn(cfg, qs[i], script[i], qs[i + 1]);
      PreparedSetsAside(cfg, qs[i]);
      ArmKeepsBad(cfg, Prepared(cfg, qs[i]).0, Prepared(cfg, qs[i]).1, script[i]);
      BadStays(cfg, qs, script, i + 1, j, f);
    }
  }

  /**
   Over any run a file leaves the directory without being set aside only by a delivery that moved past it or
   found the reader behind the write cursor, or by an Empty.
   */
  lemma {:induction false} FilesGoOnlySo(cfg: Config, qs: seq<Queue>, script: seq<Event>, i: nat, j: nat, f: int)
    requires IsTurns(cfg, qs, script) && i <= j < |qs| && f in qs[i].files && f !in qs[j].files
    ensures f in qs[j].bad || exists k: nat | i <= k < j :: RemovedAt(cfg, qs, script, k, f)
    decreases j - i
  {
    assert IsTurn(cfg, qs[i], script[i], qs[i + 1]);
    var (p, ready) := Prepared(cfg, qs[i]);
    PreparedSetsAside(cfg, qs[i]);
    if f !in p.files {
      ArmKeepsBad(cfg, p, ready, script[i]);
      BadStays(cfg, qs, script, i + 1, j, f);
    } else {
      ArmRemovesIff(cfg, p, ready, script[i], f);
      if f in qs[i + 1].files {
        FilesGoOnlySo(cfg, qs, script, i + 1, j, f);
      } else {
        assert RemovedAt(cfg, qs, script, i, f);
      }
    }
  }

  lemma StartTurns(cfg: Config, q: Queue, s: State)
    requires Holds(cfg, q, s)
    ensures IsTurns(cfg, [q], [])
  {
  }

  lemma TurnsOn(cfg: Config, qs: seq<Queue>, script: seq<Event>, e: Event, t: Queue, s: State)
    requires IsTurns(cfg, qs, script) && IsTurn(cfg, qs[|script|], e, t) && Holds(cfg, t, s)
    ensures IsTurns(cfg, qs + [t], script + [e])
  {
  }

  // ---- Metadata ----

  /**
   Before each select the metadata is persisted as it then is, if that was called for, `syncEvery` operations
   went unsynced, or a read failed; and otherwise left alone.
   */
  lemma {:induction false} PreparedSyncs(cfg: Config, q: Queue)
    requires q.read.file <= q.write.file
    ensures var p := Prepared(cfg, q).0;
            && !p.needSync
            && if q.needSync || q.count == cfg.syncEvery || p.read.file != q.read.file
               then p.meta == Some(Meta(p.depth, p.read, p.write)) && p.count == 0
               else p.meta == q.meta && p.count == q.count
    decreases q.write.file - q.read.file, if HasData(q.read, q.write) then 1 else 0
  {
    var s := SyncIfDue(cfg, q);
    if HasData(s.read, s.write) && s.next.pos == s.read.pos && ReadRecord(s.files, cfg.lim, s.read).None? {
      PreparedSyncs(cfg, AfterReadError(s));
      PreparedSetsAside(cfg, AfterReadError(s));
    }
  }

  /** Puts and deliveries count as operations; a tick after any of them, and leaving a file, call for a sync. */
  lemma ArmCounts(cfg: Config, p: Queue, ready: bool, e: Event)
    requires p.write.pos >= 0
    ensures var t := Chosen(cfg, p, ready, e).0;
            && t.count == (match e
                           case Put(_) => p.count + 1
                           case Deliver => if ready then p.count + 1 else p.count
                           case Empty => 0
                           case Tick => p.count)
            && (e == Tick && p.count != 0 ==> t.needSync)
            && (e == Deliver && ready && p.next.file != p.read.file ==> t.needSync)
            && (e.Put? && t.write.file != p.write.file ==> t.meta == Some(Meta(t.depth, t.read, t.write)))
            && (e == Empty ==> t.meta == None)
  {
  }

  /** In no state of a run have more than `syncEvery` operations gone unsynced. */
  lemma {:induction false} UnsyncedStayFew(cfg: Config, qs: seq<Queue>, script: seq<Event>, i: nat)
    requires IsTurns(cfg, qs, script) && i < |qs|
    requires cfg.syncEvery >= 1 && 0 <= qs[0].count <= cfg.syncEvery
    ensures 0 <= qs[i].count <= cfg.syncEvery
    decreases i
  {
    if i > 0 {
      UnsyncedStayFew(cfg, qs, script, i - 1);
      assert IsTurn(cfg, qs[i - 1], script[i - 1], qs[i]);
      PreparedSyncs(cfg, qs[i - 1]);
      ArmCounts(cfg, Prepared(cfg, qs[i - 1]).0, Prepared(cfg, qs[i - 1]).1, script[i - 1]);
    }
  }

  // ---- Cursors ----

  /** Opening takes depth and cursors from the metadata; without it the queue starts at file 0. */
  lemma OpenedMeans(files: Files, bad: Files, meta: Option<Meta>)
    ensures var q := Opened(files, bad, meta);
            && q.files == files && q.bad == bad && q.meta == meta && !q.needSync && q.count == 0
            && q.next == q.read
            && if meta.None? then q.read == q.write == Cursor(0, 0) && q.depth == 0
               else q.read == meta.value.read && q.write == meta.value.write && q.depth == meta.value.depth
  {
  }

  /** All cursors at the start of the file after the write file, with nothing between them. */
  predicate StartsAfresh(p: Queue, t: Queue) {
    var start := Cursor(p.write.file + 1, 0);
    t.read == start && t.next == start && t.write == start && t.depth == 0
  }

  /** A delivery that leaves the reader behind the write cursor gives the write file up: what is put then is found. */
  lemma TailRepaired(cfg: Config, p: Queue)
    requires GivenUp(p, p.write.file)
    ensures var t := AfterDelivery(p);
            && StartsAfresh(p, t) && t.needSync && MeetsWriter(cfg, t) && (NoLaterFiles(p) ==> Tidy(t))
  {
  }

  lemma EmptiedAfresh(p: Queue)
    ensures StartsAfresh(p, AfterEmpty(p))
  {
  }

  /** Delivering moves the reader to where reading got to, and counts the depth down, or at the tail to 0. */
  lemma DeliveredMoves(p: Queue)
    requires !GivenUp(p, p.write.file) && p.next.file <= p.write.file
    ensures var t := AfterDelivery(p);
            && t.read == p.next && t.next == p.next && t.write == p.write && t.dataRead == p.dataRead
            && t.depth == (if p.next == p.write then 0 else p.depth - 1)
            && (t.depth != p.depth - 1 ==> t.needSync)
  {
  }

  /** A put counts the depth up, and moves the writer by the record, to the next file if the limit is passed. */
  lemma PutMoves(cfg: Config, p: Queue, data: Data)
    requires p.write.pos >= 0 && Accepts(cfg.lim, data) && |data| <= 0x7fff_ffff
    ensures var t, end := AfterWrite(cfg, p, data), p.write.pos + 4 + |data|;
            && t.depth == p.depth + 1 && t.read == p.read && t.next == p.next && t.dataRead == p.dataRead
            && t.write == (if end > cfg.maxBytesPerFile then Cursor(p.write.file + 1, 0)
                           else Cursor(p.write.file, end))
  {
  }
}

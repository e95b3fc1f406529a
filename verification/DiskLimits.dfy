/**
 What becomes of a queue's records when it is opened under another limit on the size of its files than the
 one it was written under: exactly when nothing changes, when records are lost, and when the reader
 passes the writer and never comes to an end.
 */
module DiskLimits {
  import opened Bytes
  import opened BackendQueue
  import opened DiskFormat
  import opened DiskQueueSpec

  /** Every record ends its file under the one limit exactly if it does under the other. */
  predicate RollsAlike(max: int, other: int, from: Cursor, recs: seq<Data>)
    decreases |recs|
  {
    recs == []
    || (var end := from.pos + 4 + |recs[0]|;
        && (end > max <==> end > other)
        && RollsAlike(max, other, Advance(from, |recs[0]|, max), recs[1..]))
  }

  lemma {:induction false} AlikeChain(files: Files, lim: Limits, max: int, other: int, from: Cursor, recs: seq<Data>,
        to: Cursor)
    requires Chain(files, lim, max, from, recs, to) && Tight(files, max, from, recs)
    requires RollsAlike(max, other, from, recs)
    ensures Chain(files, lim, other, from, recs, to) && Tight(files, other, from, recs)
    decreases |recs|
  {
    if recs != [] {
      AlikeChain(files, lim, max, other, Advance(from, |recs[0]|, max), recs[1..], to);
    }
  }

  /** A chain that leaves its first file goes on at the start of the next, with fewer records. */
  lemma {:induction false} ChainLeavesFile(files: Files, lim: Limits, max: int, from: Cursor, recs: seq<Data>,
        to: Cursor) returns (k: nat)
    requires Chain(files, lim, max, from, recs, to) && Tight(files, max, from, recs)
    requires from.file < to.file
    ensures 1 <= k <= |recs|
    ensures Chain(files, lim, max, Cursor(from.file + 1, 0), recs[k..], to)
    ensures Tight(files, max, Cursor(from.file + 1, 0), recs[k..])
    decreases |recs|
  {
    var next := Advance(from, |recs[0]|, max);
    if next.file > from.file {
      k := 1;
    } else {
      var j := ChainLeavesFile(files, lim, max, next, recs[1..], to);
      k := j + 1;
      assert recs[1..][j..] == recs[k..];
    }
  }

  /**
   Where the old limit closed a file and the new one does not, reading hits the end of the file and goes on with
   the next.
   */
  lemma EndOfFileSkipped(files: Files, lim: Limits, other: int, c: Cursor, to: Cursor)
    requires c.file < to.file && c.file in files && c.pos == |files[c.file]|
    ensures Read(files, lim, other, c, to).recs == Read(files, lim, other, Cursor(c.file + 1, 0), to).recs
    ensures Read(files, lim, other, c, to).end == Read(files, lim, other, Cursor(c.file + 1, 0), to).end
  {
    assert ReadRecord(files, lim, c).None?;
  }

  /** A higher limit loses nothing. */
  lemma {:induction false} RaisedLimitReadsAll(files: Files, lim: Limits, max: int, other: int, from: Cursor,
        recs: seq<Data>, to: Cursor)
    requires Chain(files, lim, max, from, recs, to) && Tight(files, max, from, recs)
    requires max <= other
    ensures from.file <= to.file && Read(files, lim, other, from, to).recs == recs
    decreases |recs|
  {
    ChainMovesForward(files, lim, max, from, recs, to);
    if recs != [] {
      var next, late := Advance(from, |recs[0]|, max), Advance(from, |recs[0]|, other);
      ChainMovesForward(files, lim, max, next, recs[1..], to);
      RaisedLimitReadsAll(files, lim, max, other, next, recs[1..], to);
      if late != next {
        EndOfFileSkipped(files, lim, other, late, to);
      }
      assert recs == [recs[0]] + recs[1..];
    }
  }

  /** A lower limit never reads more records. */
  lemma {:induction false} LoweredLimitReadsNoMore(files: Files, lim: Limits, max: int, other: int, from: Cursor,
        recs: seq<Data>, to: Cursor)
    requires Chain(files, lim, max, from, recs, to) && Tight(files, max, from, recs)
    requires other <= max
    ensures from.file <= to.file && |Read(files, lim, other, from, to).recs| <= |recs|
    decreases |recs|
  {
    ChainMovesForward(files, lim, max, from, recs, to);
    if recs != [] {
      var next, early := Advance(from, |recs[0]|, max), Advance(from, |recs[0]|, other);
      ChainMovesForward(files, lim, max, next, recs[1..], to);
      if early == next {
        LoweredLimitReadsNoMore(files, lim, max, other, next, recs[1..], to);
      } else if early.file <= to.file {
        var k := ChainLeavesFile(files, lim, max, next, recs[1..], to);
        LoweredLimitReadsNoMore(files, lim, max, other, early, recs[1..][k..], to);
      }
    }
  }

  /** A lower limit reads all, and does not pass the writer, if and only if every record ends its file as before. */
  lemma {:induction false} LoweredLimitReadsAllIff(files: Files, lim: Limits, max: int, other: int, from: Cursor,
        recs: seq<Data>, to: Cursor)
    requires Chain(files, lim, max, from, recs, to) && Tight(files, max, from, recs)
    requires other <= max
    ensures from.file <= to.file
    ensures var r := Read(files, lim, other, from, to);
            (r.recs == recs && r.end.file <= to.file) <==> RollsAlike(max, other, from, recs)
    decreases |recs|
  {
    ChainMovesForward(files, lim, max, from, recs, to);
    if recs != [] {
      var next, early := Advance(from, |recs[0]|, max), Advance(from, |recs[0]|, other);
      ChainMovesForward(files, lim, max, next, recs[1..], to);
      if early == next {
        LoweredLimitReadsAllIff(files, lim, max, other, next, recs[1..], to);
        var rest := Read(files, lim, other, next, to).recs;
        assert recs == [recs[0]] + recs[1..];
        assert ([recs[0]] + rest)[1..] == rest;
      } else if early.file <= to.file {
        var k := ChainLeavesFile(files, lim, max, next, recs[1..], to);
        LoweredLimitReadsNoMore(files, lim, max, other, early, recs[1..][k..], to);
      }
    }
  }

  /** Two limits that both make a chain of the same records roll alike. */
  lemma {:induction false} ChainsRollAlike(files: Files, lim: Limits, max: int, other: int, from: Cursor,
        recs: seq<Data>, to: Cursor)
    requires Chain(files, lim, max, from, recs, to) && Tight(files, max, from, recs)
    requires Chain(files, lim, other, from, recs, to) && max <= other
    ensures RollsAlike(max, other, from, recs)
    decreases |recs|
  {
    if recs != [] {
      var next, late := Advance(from, |recs[0]|, max), Advance(from, |recs[0]|, other);
      ChainMovesForward(files, lim, max, next, recs[1..], to);
      if late == next {
        ChainsRollAlike(files, lim, max, other, next, recs[1..], to);
      }
    }
  }

  /** A layout sound under one limit is sound under another if and only if every record ends its file alike. */
  lemma SoundUnderOtherLimitIff(lim: Limits, max: int, other: int, l: Layout, recs: seq<Data>)
    requires Intact(lim, max, l, recs)
    ensures Intact(lim, other, l, recs) <==> RollsAlike(max, other, l.read, recs)
  {
    if RollsAlike(max, other, l.read, recs) {
      AlikeChain(l.files, lim, max, other, l.read, recs, l.write);
    } else if Intact(lim, other, l, recs) {
      if max <= other {
        ChainsRollAlike(l.files, lim, max, other, l.read, recs, l.write);
      } else {
        IntactRead(lim, other, l, recs);
        LoweredLimitReadsAllIff(l.files, lim, max, other, l.read, recs, l.write);
      }
      assert false;
    }
  }

  /**
   Under whatever other limit, reading ends where the writer is if nothing is left to read, or the
   write file is empty or within the limit; and otherwise it passes the writer.
   */
  lemma {:induction false} MeetsWriterIff(files: Files, lim: Limits, max: int, other: int, from: Cursor,
        recs: seq<Data>, to: Cursor)
    requires Chain(files, lim, max, from, recs, to) && Tight(files, max, from, recs) && 0 <= from.pos
    ensures from.file <= to.file
    ensures var end := Read(files, lim, other, from, to).end;
            && (end == to <==> from == to || to.pos == 0 || to.pos <= other)
            && (end != to ==> end.file > to.file)
    decreases |recs|
  {
    ChainMovesForward(files, lim, max, from, recs, to);
    if recs != [] {
      var next, turned := Advance(from, |recs[0]|, max), Advance(from, |recs[0]|, other);
      ChainMovesForward(files, lim, max, next, recs[1..], to);
      if turned == next {
        MeetsWriterIff(files, lim, max, other, next, recs[1..], to);
      } else if turned.file == from.file {
        EndOfFileSkipped(files, lim, other, turned, to);
        MeetsWriterIff(files, lim, max, other, next, recs[1..], to);
      } else if turned.file <= to.file {
        var k := ChainLeavesFile(files, lim, max, next, recs[1..], to);
        MeetsWriterIff(files, lim, max, other, turned, recs[1..][k..], to);
      }
    }
  }

  // ---- Queues opened under another limit ----

  /** What a settled queue holds when it is closed, and opened with another configuration. */
  ghost function HeldUnder(cfg: Config, q: Queue, depth: int): State
    requires q.read.file <= q.write.file
  {
    var r := Read(q.files, cfg.lim, cfg.maxBytesPerFile, q.read, q.write);
    State(r.recs, depth, HasData(r.last, q.write))
  }

  /** An opened queue works on, on what reading its files yields, if and only if reading it will not pass the writer. */
  lemma ReopenedIff(cfg: Config, other: Config, q: Queue, s: State)
    requires Settled(cfg, q, s) && other.lim == cfg.lim
    ensures q.read.file <= q.write.file
    ensures var closed := Synced(q);
            Stores(other, closed.files, closed.bad, closed.meta, HeldUnder(other, q, s.depth)) <==>
            q.read == q.write || q.write.pos == 0 || q.write.pos <= other.maxBytesPerFile
  {
    var l := q.LayoutNow();
    MeetsWriterIff(q.files, cfg.lim, cfg.maxBytesPerFile, other.maxBytesPerFile, q.read, s.pending, q.write);
    var closed := Synced(q);
    var o := Opened(closed.files, closed.bad, closed.meta);
    assert ReadingOf(other, o) == Read(q.files, other.lim, other.maxBytesPerFile, q.read, q.write);
  }

  /**
   Of what was pending it then delivers all, or under a lower limit all only if every record ends its file as
   before.
   */
  lemma ReopenedKeepsAllIff(cfg: Config, other: Config, q: Queue, s: State)
    requires Settled(cfg, q, s) && other.lim == cfg.lim
    requires q.read == q.write || q.write.pos == 0 || q.write.pos <= other.maxBytesPerFile
    ensures q.read.file <= q.write.file
    ensures HeldUnder(other, q, s.depth).pending == s.pending <==>
            other.maxBytesPerFile >= cfg.maxBytesPerFile
            || RollsAlike(cfg.maxBytesPerFile, other.maxBytesPerFile, q.read, s.pending)
  {
    var max, limit := cfg.maxBytesPerFile, other.maxBytesPerFile;
    MeetsWriterIff(q.files, cfg.lim, max, limit, q.read, s.pending, q.write);
    if limit >= max {
      RaisedLimitReadsAll(q.files, cfg.lim, max, limit, q.read, s.pending, q.write);
    } else {
      LoweredLimitReadsAllIff(q.files, cfg.lim, max, limit, q.read, s.pending, q.write);
    }
  }

  /** Delivering a record that passes the writer leaves a queue that skips files without end. */
  lemma PassingTheWriterStalls(cfg: Config, q: Queue, n: nat)
    requires Ordered(cfg, q) && HasData(q.read, q.write) && ReadAhead(cfg, q, q.dataRead)
    requires q.next.file > q.write.file
    requires forall f | f in q.files :: f <= q.write.file
    ensures var t := AfterDelivery(q);
            && !Ordered(cfg, t)
            && var m := Skipped(t.LayoutNow(), n);
               HasData(m.read, m.write) && ReadRecord(m.files, cfg.lim, m.read).None?
  {
    var t := AfterDelivery(q);
    assert t.read == q.next && t.write == q.write;
    SkippingPastTheWriterNeverEnds(cfg.lim, t.LayoutNow(), n);
  }
}

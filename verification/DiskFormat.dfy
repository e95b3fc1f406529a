/**
 The layout of a disk queue on its numbered data files: length-prefixed records, and the
 cursor arithmetic by which both the reader and the writer move on to the next file.
 */
module DiskFormat {
  import opened Bytes
  import opened BackendQueue
  import opened Wrappers

  type Files = map<int, seq<byte>>

  datatype Cursor = Cursor(file: int, pos: int)

  /** A record as the writer emits it: the length truncated to an int32, then all the data. */
  function Record(data: Data): (bs: seq<byte>)
    ensures |bs| == 4 + |data|
  {
    PutInt32(|data|) + data
  }

  /** The cursor just past a record of `size` data bytes: a file that outgrew its limit is finished. */
  function Advance(c: Cursor, size: int, maxBytesPerFile: int): Cursor {
    if c.pos + 4 + size > maxBytesPerFile then Cursor(c.file + 1, 0) else Cursor(c.file, c.pos + 4 + size)
  }

  /** What a read at `c` finds: the record there, or None where a header, its size or its data is bad. */
  function ReadRecord(files: Files, lim: Limits, c: Cursor): (r: Option<Data>)
    ensures r.Some? ==> lim.minMsgSize <= |r.value| <= lim.maxMsgSize
  {
    if c.file !in files || c.pos < 0 || c.pos + 4 > |files[c.file]| then None
    else
      var content := files[c.file];
      var size := GetInt32(content[c.pos..c.pos + 4]);
      if size < lim.minMsgSize || size > lim.maxMsgSize || c.pos + 4 + size > |content| then None
      else Some(content[c.pos + 4..c.pos + 4 + size])
  }

  /** `bytes` written into a file at offset `at`, any gap before it filled with zeros. */
  function Overwrite(content: seq<byte>, at: nat, bytes: seq<byte>): (r: seq<byte>)
    ensures at <= |content| ==> content[..at] <= r
    ensures at > |content| ==> content <= r
    ensures |r| >= at + |bytes| && r[at..at + |bytes|] == bytes
  {
    var head := if at <= |content| then content[..at] else content + seq(at - |content|, _ => 0);
    var end := at + |bytes|;
    head + bytes + (if end <= |content| then content[end..] else [])
  }

  /** Every byte of the result: what was written, what the file held, or a zero in a gap before it. */
  lemma OverwrittenAt(content: seq<byte>, at: nat, bytes: seq<byte>, i: nat)
    ensures var r := Overwrite(content, at, bytes);
            && |r| == (if |content| > at + |bytes| then |content| else at + |bytes|)
            && (i < |r| ==> r[i] == if at <= i < at + |bytes| then bytes[i - at]
                                    else if i < |content| then content[i] else 0)
  {
  }

  /** Reading from `from`, record after record and file after file, yields `recs` and ends at `to`. */
  ghost predicate Chain(files: Files, lim: Limits, max: int, from: Cursor, recs: seq<Data>, to: Cursor)
    decreases |recs|
  {
    if recs == [] then from == to
    else
      && ReadRecord(files, lim, from) == Some(recs[0])
      && Chain(files, lim, max, Advance(from, |recs[0]|, max), recs[1..], to)
  }

  predicate Before(a: Cursor, b: Cursor) {
    a.file < b.file || (a.file == b.file && a.pos < b.pos)
  }

  /** The event loop's test for data to read. */
  predicate HasData(read: Cursor, write: Cursor) {
    read.file < write.file || read.pos < write.pos
  }

  /** A chain ends where it started exactly if it is empty, and otherwise strictly later. */
  lemma {:induction false} ChainMovesForward(files: Files, lim: Limits, max: int, from: Cursor, recs: seq<Data>,
        to: Cursor)
    requires Chain(files, lim, max, from, recs, to)
    ensures recs == [] ==> from == to
    ensures recs != [] ==> Before(from, to)
    ensures HasData(from, to) <==> recs != []
    decreases |recs|
  {
    if recs != [] {
      ChainMovesForward(files, lim, max, Advance(from, |recs[0]|, max), recs[1..], to);
    }
  }

  /** The files and the two cursors determine the queue's contents. */
  lemma {:induction false} ChainUnique(files: Files, lim: Limits, max: int, from: Cursor, a: seq<Data>, b: seq<Data>,
        to: Cursor)
    requires Chain(files, lim, max, from, a, to)
    requires Chain(files, lim, max, from, b, to)
    ensures a == b
    decreases |a|
  {
    ChainMovesForward(files, lim, max, from, a, to);
    ChainMovesForward(files, lim, max, from, b, to);
    if a != [] {
      ChainUnique(files, lim, max, Advance(from, |a[0]|, max), a[1..], b[1..], to);
      assert a == [a[0]] + a[1..] && b == [b[0]] + b[1..];
    }
  }

  /** Every file from `from` on survives, at most extended at its end. */
  ghost predicate Extends(files: Files, later: Files, from: int) {
    forall f | f in files && f >= from :: f in later && files[f] <= later[f]
  }

  lemma ReadRecordExtends(files: Files, later: Files, lim: Limits, c: Cursor)
    requires Extends(files, later, c.file)
    requires ReadRecord(files, lim, c).Some?
    ensures ReadRecord(later, lim, c) == ReadRecord(files, lim, c)
  {
    var content := files[c.file];
    var size := GetInt32(content[c.pos..c.pos + 4]);
    assert later[c.file][c.pos..c.pos + 4] == content[c.pos..c.pos + 4];
    assert later[c.file][c.pos + 4..c.pos + 4 + size] == content[c.pos + 4..c.pos + 4 + size];
  }

  /** Deleting earlier files, adding new ones and appending disturb no record of a chain. */
  lemma {:induction false} ChainExtends(files: Files, later: Files, lim: Limits, max: int, from: Cursor,
        recs: seq<Data>, to: Cursor)
    requires Chain(files, lim, max, from, recs, to)
    requires Extends(files, later, from.file)
    ensures Chain(later, lim, max, from, recs, to)
    decreases |recs|
  {
    if recs != [] {
      ReadRecordExtends(files, later, lim, from);
      ChainExtends(files, later, lim, max, Advance(from, |recs[0]|, max), recs[1..], to);
    }
  }

  lemma {:induction false} ChainSnoc(files: Files, lim: Limits, max: int, from: Cursor, recs: seq<Data>, to: Cursor,
        data: Data)
    requires Chain(files, lim, max, from, recs, to)
    requires ReadRecord(files, lim, to) == Some(data)
    ensures Chain(files, lim, max, from, recs + [data], Advance(to, |data|, max))
    decreases |recs|
  {
    if recs == [] {
      assert recs + [data] == [data];
      assert Chain(files, lim, max, Advance(to, |data|, max), [], Advance(to, |data|, max));
    } else {
      ChainSnoc(files, lim, max, Advance(from, |recs[0]|, max), recs[1..], to, data);
      assert (recs + [data])[1..] == recs[1..] + [data];
    }
  }

  /** A chain's files before the one it ends in all exist. */
  lemma {:induction false} ChainFilesExist(files: Files, lim: Limits, max: int, from: Cursor, recs: seq<Data>,
        to: Cursor, f: int)
    requires Chain(files, lim, max, from, recs, to)
    requires from.file <= f < to.file
    ensures f in files
    decreases |recs|
  {
    var next := Advance(from, |recs[0]|, max);
    if next.file <= f {
      ChainFilesExist(files, lim, max, next, recs[1..], to, f);
    }
  }

  /** The files after `data` was accepted and written at cursor `at`. */
  function Written(files: Files, at: Cursor, data: Data): Files
    requires at.pos >= 0
  {
    files[at.file := Overwrite(if at.file in files then files[at.file] else [], at.pos, Record(data))]
  }

  lemma WrittenAfterCreate(files: Files, at: Cursor, data: Data)
    requires at.pos >= 0 && at.file !in files
    ensures Written(files[at.file := []], at, data) == Written(files, at, data)
  {
  }

  /**
   An accepted record reads back exactly when its length survives the conversion to int32:
   a longer one is accepted whenever its low 32 bits look like a valid size, but its header
   then names another size than its data has.
   */
  lemma RecordReadsBack(files: Files, lim: Limits, at: Cursor, data: Data)
    requires at.pos >= 0
    requires Accepts(lim, data)
    ensures ReadRecord(Written(files, at, data), lim, at) == Some(data) <==> |data| <= MAX_INT32
  {
    var later := Written(files, at, data);
    var content, bs := later[at.file], Record(data);
    assert content[at.pos..at.pos + |bs|] == bs;
    assert content[at.pos..at.pos + 4] == bs[..4] == PutInt32(|data|);
    assert content[at.pos + 4..at.pos + |bs|] == bs[4..] == data;
    Int32RoundTrip(|data|);
  }

  /** Such a length exists: 2^32 bytes more than an acceptable size. */
  lemma TruncatedLengthIsAccepted(lim: Limits, data: Data)
    requires lim.minMsgSize <= lim.maxMsgSize
    requires |data| == TWO_32 + lim.minMsgSize
    ensures Accepts(lim, data) && |data| > MAX_INT32
  {
  }

  /** Appending at a chain's end, in a file that ends there, extends the chain by that record. */
  lemma ChainAppend(files: Files, lim: Limits, max: int, from: Cursor, recs: seq<Data>, to: Cursor, data: Data)
    requires Chain(files, lim, max, from, recs, to)
    requires to.pos >= 0
    requires if to.file in files then |files[to.file]| == to.pos else to.pos == 0
    requires Accepts(lim, data) && |data| <= MAX_INT32
    ensures Chain(Written(files, to, data), lim, max, from, recs + [data], Advance(to, |data|, max))
  {
    var later := Written(files, to, data);
    assert to.file in files ==> files[to.file] <= later[to.file] by {
      if to.file in files { assert files[to.file][..to.pos] == files[to.file]; }
    }
    ChainExtends(files, later, lim, max, from, recs, to);
    RecordReadsBack(files, lim, to, data);
    ChainSnoc(later, lim, max, from, recs, to, data);
  }

  // ---- What reading finds, whatever the files hold ----

  /** What is left of a file behind a cursor. */
  function Left(files: Files, c: Cursor): nat {
    if c.file in files && c.pos <= |files[c.file]| then |files[c.file]| - c.pos else 0
  }

  /** The records found, the cursor behind the last of them, and the cursor where reading ends. */
  datatype Reading = Reading(recs: seq<Data>, last: Cursor, end: Cursor)

  /**
   Reading from `read` as long as the loop's test says there is data: an unreadable record costs the
   rest of its file. In the write file there is no next file to go on with, nor behind it.
   */
  function Read(files: Files, lim: Limits, max: int, read: Cursor, write: Cursor): (r: Reading)
    requires read.file <= write.file
    ensures r.recs == [] ==> r.last == read
    decreases write.file - read.file, Left(files, read)
  {
    if !HasData(read, write) then Reading([], read, read)
    else
      var found := ReadRecord(files, lim, read);
      if found.None? then
        if read.file == write.file then Reading([], read, read)
        else
          var r := Read(files, lim, max, Cursor(read.file + 1, 0), write);
          if r.recs == [] then r.(last := read) else r
      else
        var next := Advance(read, |found.value|, max);
        if next.file > write.file then Reading([found.value], next, next)
        else
          var r := Read(files, lim, max, next, write);
          r.(recs := [found.value] + r.recs)
  }

  /** Only what can be read at `read` and behind it matters. */
  lemma {:induction false} ReadLocally(files: Files, other: Files, lim: Limits, max: int, read: Cursor, write: Cursor)
    requires read.file <= write.file
    requires forall c: Cursor | c.file >= read.file :: ReadRecord(files, lim, c) == ReadRecord(other, lim, c)
    ensures Read(files, lim, max, read, write) == Read(other, lim, max, read, write)
    decreases write.file - read.file, Left(files, read)
  {
    var found := ReadRecord(files, lim, read);
    assert found == ReadRecord(other, lim, read);
    if HasData(read, write) {
      if found.None? {
        if read.file < write.file {
          ReadLocally(files, other, lim, max, Cursor(read.file + 1, 0), write);
        }
      } else if Advance(read, |found.value|, max).file <= write.file {
        ReadLocally(files, other, lim, max, Advance(read, |found.value|, max), write);
      }
    }
  }

  lemma SameFrom(files: Files, other: Files, lim: Limits, from: int)
    requires forall f | f >= from :: (f in files <==> f in other) && (f in files ==> files[f] == other[f])
    ensures forall c: Cursor | c.file >= from :: ReadRecord(files, lim, c) == ReadRecord(other, lim, c)
  {
  }

  /** The readable records of one file from a cursor on, up to the first bad one or the file's closing. */
  function Parse(files: Files, lim: Limits, max: int, c: Cursor): seq<Data>
    decreases Left(files, c)
  {
    var found := ReadRecord(files, lim, c);
    if found.None? then []
    else
      var next := Advance(c, |found.value|, max);
      [found.value] + if next.file == c.file then Parse(files, lim, max, next) else []
  }

  lemma ReadOnce(files: Files, lim: Limits, max: int, read: Cursor, write: Cursor)
    requires read.file < write.file && ReadRecord(files, lim, read).Some?
    ensures var data := ReadRecord(files, lim, read).value;
            var rest := Read(files, lim, max, Advance(read, |data|, max), write);
            && Read(files, lim, max, read, write).recs == [data] + rest.recs
            && Read(files, lim, max, read, write).end == rest.end
  {
  }

  lemma ConsAppend(x: Data, a: seq<Data>, b: seq<Data>)
    ensures [x] + (a + b) == [x] + a + b
  {
  }

  lemma ReadSkips(files: Files, lim: Limits, max: int, read: Cursor, write: Cursor)
    requires read.file < write.file && ReadRecord(files, lim, read).None?
    ensures var later := Read(files, lim, max, Cursor(read.file + 1, 0), write);
            && Read(files, lim, max, read, write).recs == [] + later.recs
            && Read(files, lim, max, read, write).end == later.end
  {
    assert forall recs: seq<Data> :: [] + recs == recs;
  }

  /** Bad records cost only the rest of their file: each file yields its own records, whatever the others hold. */
  lemma {:induction false} FilesReadIndependently(files: Files, lim: Limits, max: int, read: Cursor, write: Cursor)
    requires read.file < write.file
    ensures var rest := Read(files, lim, max, Cursor(read.file + 1, 0), write);
            && Read(files, lim, max, read, write).recs == Parse(files, lim, max, read) + rest.recs
            && Read(files, lim, max, read, write).end == rest.end
    decreases Left(files, read)
  {
    var found := ReadRecord(files, lim, read);
    var later := Read(files, lim, max, Cursor(read.file + 1, 0), write);
    if found.None? {
      ReadSkips(files, lim, max, read, write);
      assert Parse(files, lim, max, read) == [];
    } else {
      var next := Advance(read, |found.value|, max);
      ReadOnce(files, lim, max, read, write);
      if next.file == read.file {
        FilesReadIndependently(files, lim, max, next, write);
        ConsAppend(found.value, Parse(files, lim, max, next), later.recs);
      } else {
        assert next == Cursor(read.file + 1, 0) && Parse(files, lim, max, read) == [found.value];
      }
    }
  }

  /** Where reading ends is up to the write file alone, whatever is in the files before it. */
  lemma {:induction false} EndIsUpToWriteFile(files: Files, lim: Limits, max: int, read: Cursor, write: Cursor)
    requires read.file < write.file
    ensures Read(files, lim, max, read, write).end == Read(files, lim, max, Cursor(write.file, 0), write).end
    decreases write.file - read.file
  {
    FilesReadIndependently(files, lim, max, read, write);
    if read.file + 1 < write.file {
      EndIsUpToWriteFile(files, lim, max, Cursor(read.file + 1, 0), write);
    }
  }

  /** Along a chain reading finds just its records, and meets the writer. */
  lemma {:induction false} ChainRead(files: Files, lim: Limits, max: int, from: Cursor, recs: seq<Data>, to: Cursor)
    requires Chain(files, lim, max, from, recs, to)
    ensures from.file <= to.file && Read(files, lim, max, from, to) == Reading(recs, to, to)
    decreases |recs|
  {
    ChainMovesForward(files, lim, max, from, recs, to);
    if recs != [] {
      var next := Advance(from, |recs[0]|, max);
      ChainMovesForward(files, lim, max, next, recs[1..], to);
      ChainRead(files, lim, max, next, recs[1..], to);
      assert recs == [recs[0]] + recs[1..];
    }
  }

  /** A write leaves the records before it in place. */
  lemma ReadRecordBefore(files: Files, lim: Limits, at: Cursor, data: Data, c: Cursor)
    requires at.pos >= 0
    requires ReadRecord(files, lim, c).Some?
    requires c.file != at.file || c.pos + 4 + |ReadRecord(files, lim, c).value| <= at.pos
    ensures ReadRecord(Written(files, at, data), lim, c) == ReadRecord(files, lim, c)
  {
    var after := Written(files, at, data);
    ReadInFile(files, lim, c);
    ReadInFile(after, lim, c);
    if c.file == at.file {
      var content := files[c.file];
      var kept := if at.pos <= |content| then at.pos else |content|;
      SamePrefix(content, after[c.file], kept, lim, c);
    }
  }

  /** What is read depends on the reader's file alone. */
  lemma ReadInFile(files: Files, lim: Limits, c: Cursor)
    requires c.file in files
    ensures ReadRecord(files, lim, c) == ReadRecord(map[c.file := files[c.file]], lim, c)
  {
  }

  lemma SamePrefix(a: seq<byte>, b: seq<byte>, n: nat, lim: Limits, c: Cursor)
    requires n <= |a| && a[..n] <= b
    requires var r := ReadRecord(map[c.file := a], lim, c); r.Some? && c.pos + 4 + |r.value| <= n
    ensures ReadRecord(map[c.file := b], lim, c) == ReadRecord(map[c.file := a], lim, c)
  {
    var size := GetInt32(a[c.pos..c.pos + 4]);
    assert forall i | 0 <= i < n :: b[i] == a[..n][i] == a[i];
    assert b[c.pos..c.pos + 4] == a[c.pos..c.pos + 4];
    assert b[c.pos + 4..c.pos + 4 + size] == a[c.pos + 4..c.pos + 4 + size];
  }

  /**
   Where reading meets the writer, a record written is found behind all others, and reading meets the writer
   again.
   */
  lemma {:induction false} ReadAppended(files: Files, lim: Limits, max: int, read: Cursor, write: Cursor, data: Data)
    requires read.file <= write.file && write.pos >= 0
    requires Read(files, lim, max, read, write).end == write
    requires Accepts(lim, data) && |data| <= MAX_INT32
    ensures var next := Advance(write, |data|, max);
            && read.file <= next.file
            && Read(Written(files, write, data), lim, max, read, next)
            == Reading(Read(files, lim, max, read, write).recs + [data], next, next)
    decreases write.file - read.file, Left(files, read)
  {
    var later, to := Written(files, write, data), Advance(write, |data|, max);
    if read == write {
      RecordReadsBack(files, lim, write, data);
      assert Read(later, lim, max, to, to) == Reading([], to, to);
    } else {
      var found := ReadRecord(files, lim, read);
      if found.None? {
        var skipped := Cursor(read.file + 1, 0);
        assert ReadRecord(later, lim, read).None?;
        ReadAppended(files, lim, max, skipped, write, data);
      } else {
        var next := Advance(read, |found.value|, max);
        MeetsForward(files, lim, max, next, write);
        ReadRecordBefore(files, lim, write, data, read);
        ReadAppended(files, lim, max, next, write, data);
        ConsAppend(found.value, Read(files, lim, max, next, write).recs, [data]);
      }
    }
  }

  lemma MeetsForward(files: Files, lim: Limits, max: int, read: Cursor, write: Cursor)
    requires read.file <= write.file && Read(files, lim, max, read, write).end == write
    ensures read == write || HasData(read, write)
  {
  }

  lemma {:induction false} ReadForward(files: Files, lim: Limits, max: int, read: Cursor, write: Cursor)
    requires read.file <= write.file
    ensures var end := Read(files, lim, max, read, write).end; read == end || Before(read, end)
    decreases write.file - read.file, Left(files, read)
  {
    var found := ReadRecord(files, lim, read);
    if HasData(read, write) {
      if found.None? {
        if read.file < write.file {
          ReadForward(files, lim, max, Cursor(read.file + 1, 0), write);
        }
      } else if Advance(read, |found.value|, max).file <= write.file {
        ReadForward(files, lim, max, Advance(read, |found.value|, max), write);
      }
    }
  }

  /** A reading that finds just one record ends right behind it, unless that record ended its file. */
  lemma OneRecordRead(files: Files, lim: Limits, max: int, read: Cursor, write: Cursor, data: Data)
    requires read.file == write.file
    requires Read(files, lim, max, read, write) == Reading([data], write, write)
    ensures Advance(read, |data|, max) == write
  {
    var found := ReadRecord(files, lim, read).value;
    var next := Advance(read, |found|, max);
    var rest := Read(files, lim, max, next, write);
    assert [data] == [found] + rest.recs;
    assert found == [data][0] && rest.recs == [data][1..] == [];
  }

  /**
   Where nothing stands behind the write cursor, and the put does not end the file: a record that is put is found
   behind all others, and reading meets the writer again, if and only if reading met the writer before.
   */
  lemma {:induction false} PutFoundIff(files: Files, lim: Limits, max: int, read: Cursor, write: Cursor, data: Data)
    requires read.file <= write.file && 0 <= write.pos
    requires write.file in files ==> |files[write.file]| <= write.pos
    requires Accepts(lim, data) && |data| <= MAX_INT32 && write.pos + 4 + |data| <= max
    ensures var next := Advance(write, |data|, max);
            Read(Written(files, write, data), lim, max, read, next)
            == Reading(Read(files, lim, max, read, write).recs + [data], next, next)
            <==> Read(files, lim, max, read, write).end == write
    decreases write.file - read.file, Left(files, read)
  {
    var later, to := Written(files, write, data), Advance(write, |data|, max);
    var found := ReadRecord(files, lim, read);
    if Read(files, lim, max, read, write).end == write {
      ReadAppended(files, lim, max, read, write, data);
    } else if !HasData(read, write) || (found.None? && read.file == write.file) {
      if Read(later, lim, max, read, to) == Reading([] + [data], to, to) {
        OneRecordRead(later, lim, max, read, to, data);
        assert false;
      }
    } else if found.None? {
      assert ReadRecord(later, lim, read).None?;
      PutFoundIff(files, lim, max, Cursor(read.file + 1, 0), write, data);
    } else {
      var next := Advance(read, |found.value|, max);
      ReadRecordBefore(files, lim, write, data, read);
      PutFoundIff(files, lim, max, next, write, data);
      var recs := Read(files, lim, max, next, write).recs;
      assert [found.value] + (recs + [data]) == ([found.value] + recs) + [data];
      assert ([found.value] + Read(later, lim, max, next, to).recs)[1..] == Read(later, lim, max, next, to).recs;
      assert (([found.value] + recs) + [data])[1..] == recs + [data];
    }
  }

  /** A header before the write cursor that announces an impossible size: no write ever repairs it. */
  predicate BadHeader(files: Files, lim: Limits, c: Cursor, write: Cursor) {
    && c.file == write.file && c.file in files && 0 <= c.pos && c.pos + 4 <= |files[c.file]| && c.pos + 4 <= write.pos
    && !(lim.minMsgSize <= GetInt32(files[c.file][c.pos..c.pos + 4]) <= lim.maxMsgSize)
  }

  /** Where reading ends at a bad header in the write file, a record that is accepted will never be delivered. */
  lemma {:induction false} PutBehindBadHeaderIsLost(files: Files, lim: Limits, max: int, read: Cursor, write: Cursor,
        data: Data)
    requires read.file <= write.file && 0 <= write.pos
    requires BadHeader(files, lim, Read(files, lim, max, read, write).end, write)
    requires Accepts(lim, data)
    ensures var next := Advance(write, ToInt32(|data|), max);
            Read(Written(files, write, data), lim, max, read, next).recs == Read(files, lim, max, read, write).recs
    decreases write.file - read.file, Left(files, read)
  {
    var later, to := Written(files, write, data), Advance(write, ToInt32(|data|), max);
    var found := ReadRecord(files, lim, read);
    var end := Read(files, lim, max, read, write).end;
    if read == end {
      ReadEndsAtBadHeader(files, lim, max, write, data, read);
    } else if found.None? {
      assert ReadRecord(later, lim, read).None?;
      PutBehindBadHeaderIsLost(files, lim, max, Cursor(read.file + 1, 0), write, data);
    } else {
      var next := Advance(read, |found.value|, max);
      ReadForward(files, lim, max, next, write);
      ReadRecordBefore(files, lim, write, data, read);
      PutBehindBadHeaderIsLost(files, lim, max, next, write, data);
    }
  }

  lemma ReadEndsAtBadHeader(files: Files, lim: Limits, max: int, write: Cursor, data: Data, c: Cursor)
    requires 0 <= write.pos && BadHeader(files, lim, c, write)
    requires Accepts(lim, data)
    ensures var next := Advance(write, ToInt32(|data|), max);
            c.file <= next.file && Read(Written(files, write, data), lim, max, c, next).recs == []
    ensures Read(files, lim, max, c, write).recs == []
  {
    BadHeaderStays(files, lim, write, data, c);
    var later, to := Written(files, write, data), Advance(write, ToInt32(|data|), max);
    assert to.file > write.file ==> Read(later, lim, max, to, to).recs == [];
  }

  lemma BadHeaderStays(files: Files, lim: Limits, write: Cursor, data: Data, c: Cursor)
    requires 0 <= write.pos && BadHeader(files, lim, c, write)
    ensures ReadRecord(files, lim, c).None? && ReadRecord(Written(files, write, data), lim, c).None?
  {
    var content, later := files[c.file], Written(files, write, data)[c.file];
    var kept := if write.pos <= |content| then write.pos else |content|;
    assert forall i | 0 <= i < kept :: later[i] == content[..kept][i] == content[i];
    assert later[c.pos..c.pos + 4] == content[c.pos..c.pos + 4];
  }

  // ---- Recovery from unreadable files ----

  datatype Layout = Layout(files: Files, bad: Files, read: Cursor, write: Cursor)

  /** One read error: the file at the read cursor is set aside, and reading goes on with the next. */
  function SkipFile(l: Layout): Layout {
    Layout(
      l.files - {l.read.file},
      if l.read.file in l.files then l.bad[l.read.file := l.files[l.read.file]] else l.bad,
      Cursor(l.read.file + 1, 0),
      if l.read.file == l.write.file then Cursor(l.write.file + 1, 0) else l.write)
  }

  /** A read error loses no record: reading finds the same before and after it, whatever the files hold. */
  lemma SkippingLosesNothing(lim: Limits, max: int, l: Layout)
    requires l.read.file <= l.write.file && HasData(l.read, l.write)
    requires ReadRecord(l.files, lim, l.read).None?
    ensures var m := SkipFile(l);
            var before, after := Read(l.files, lim, max, l.read, l.write), Read(m.files, lim, max, m.read, m.write);
            && m.read.file <= m.write.file
            && after.recs == before.recs
            && (before.recs != [] ==> after.last == before.last && m.write == l.write)
            && (after.end == if l.read.file == l.write.file then m.write else before.end)
  {
    var m := SkipFile(l);
    if l.read.file < l.write.file {
      SameFrom(l.files, m.files, lim, m.read.file);
      ReadLocally(l.files, m.files, lim, max, m.read, m.write);
    }
  }

  /** A sound layout: the records form a chain, and the files are exactly those between the cursors. */
  ghost predicate Intact(lim: Limits, max: int, l: Layout, recs: seq<Data>) {
    && 0 <= l.read.pos && 0 <= l.write.pos
    && Chain(l.files, lim, max, l.read, recs, l.write)
    && Tight(l.files, max, l.read, recs)
    && (if l.write.file in l.files then |l.files[l.write.file]| == l.write.pos else l.write.pos == 0)
    && (forall f | f in l.files :: l.read.file <= f <= l.write.file)
  }

  /** Every file that the records leave behind ends with the one that closed it. */
  ghost predicate Tight(files: Files, max: int, from: Cursor, recs: seq<Data>)
    decreases |recs|
  {
    recs == []
    || (var next := Advance(from, |recs[0]|, max);
        && (next.file != from.file ==> from.file in files && |files[from.file]| == from.pos + 4 + |recs[0]|)
        && Tight(files, max, next, recs[1..]))
  }

  lemma {:induction false} TightKept(files: Files, later: Files, lim: Limits, max: int, from: Cursor, recs: seq<Data>,
        to: Cursor)
    requires Chain(files, lim, max, from, recs, to) && Tight(files, max, from, recs)
    requires forall f | f in files && from.file <= f < to.file :: f in later && later[f] == files[f]
    ensures Tight(later, max, from, recs)
    decreases |recs|
  {
    if recs != [] {
      var next := Advance(from, |recs[0]|, max);
      ChainMovesForward(files, lim, max, next, recs[1..], to);
      TightKept(files, later, lim, max, next, recs[1..], to);
    }
  }

  lemma {:induction false} TightSnoc(files: Files, lim: Limits, max: int, from: Cursor, recs: seq<Data>, to: Cursor,
        data: Data)
    requires Chain(files, lim, max, from, recs, to) && Tight(files, max, from, recs)
    requires to.file in files && |files[to.file]| == to.pos + 4 + |data|
    ensures Tight(files, max, from, recs + [data])
    decreases |recs|
  {
    if recs == [] {
      assert recs + [data] == [data];
      assert Tight(files, max, Advance(to, |data|, max), []);
    } else {
      TightSnoc(files, lim, max, Advance(from, |recs[0]|, max), recs[1..], to, data);
      assert (recs + [data])[1..] == recs[1..] + [data];
    }
  }

  /** Nothing is skipped in a sound layout: no read in it fails. */
  lemma IntactRead(lim: Limits, max: int, l: Layout, recs: seq<Data>)
    requires Intact(lim, max, l, recs)
    ensures l.read.file <= l.write.file
    ensures Read(l.files, lim, max, l.read, l.write) == Reading(recs, l.write, l.write)
    ensures HasData(l.read, l.write) <==> recs != []
    ensures recs != [] ==> ReadRecord(l.files, lim, l.read) == Some(recs[0])
  {
    ChainMovesForward(l.files, lim, max, l.read, recs, l.write);
    ChainRead(l.files, lim, max, l.read, recs, l.write);
  }

  lemma IntactAppend(lim: Limits, max: int, l: Layout, recs: seq<Data>, data: Data)
    requires Intact(lim, max, l, recs)
    requires Accepts(lim, data) && |data| <= MAX_INT32
    ensures Intact(lim, max, l.(files := Written(l.files, l.write, data), write := Advance(l.write, |data|, max)),
          recs + [data])
  {
    var later := Written(l.files, l.write, data);
    ChainMovesForward(l.files, lim, max, l.read, recs, l.write);
    ChainAppend(l.files, lim, max, l.read, recs, l.write, data);
    TightKept(l.files, later, lim, max, l.read, recs, l.write);
    TailExtended(l.files, l.write, data);
    ChainExtends(l.files, later, lim, max, l.read, recs, l.write);
    TightSnoc(later, lim, max, l.read, recs, l.write, data);
  }

  lemma TailExtended(files: Files, at: Cursor, data: Data)
    requires at.pos >= 0
    requires if at.file in files then |files[at.file]| == at.pos else at.pos == 0
    ensures Extends(files, Written(files, at, data), at.file)
          && |Written(files, at, data)[at.file]| == at.pos + 4 + |data|
    ensures forall f :: Extends(files, Written(files, at, data), f)
  {
    if at.file in files {
      assert files[at.file][..at.pos] == files[at.file];
    }
  }

  lemma IntactCreate(lim: Limits, max: int, l: Layout, recs: seq<Data>)
    requires Intact(lim, max, l, recs)
    requires l.write.file !in l.files
    ensures Intact(lim, max, l.(files := l.files[l.write.file := []]), recs)
  {
    var later := l.files[l.write.file := []];
    ChainMovesForward(l.files, lim, max, l.read, recs, l.write);
    ChainExtends(l.files, later, lim, max, l.read, recs, l.write);
    TightKept(l.files, later, lim, max, l.read, recs, l.write);
  }

  function Skipped(l: Layout, n: nat): Layout {
    if n == 0 then l else SkipFile(Skipped(l, n - 1))
  }

  /**
   Recovery ends only because the read cursor is not past the write file. Past it, with bytes in the
   write file, there is data to read, and none readable, after any number of skips.
   */
  lemma {:induction false} SkippingPastTheWriterNeverEnds(lim: Limits, l: Layout, n: nat)
    requires l.read.file > l.write.file && 0 <= l.read.pos < l.write.pos
    requires forall f | f in l.files :: f < l.read.file
    ensures var m := Skipped(l, n);
            && HasData(m.read, m.write) && ReadRecord(m.files, lim, m.read).None?
            && m.read.file == l.read.file + n && m.write == l.write && m.files == l.files
            && 0 <= m.read.pos <= l.read.pos
  {
    if n > 0 {
      SkippingPastTheWriterNeverEnds(lim, l, n - 1);
    }
  }
}

/**
 The disk queue reads its files through a buffer that is filled ahead of the records asked for. What it
 yields is what the file held when the buffer was filled, which a later write may have overwritten.
 */
module LookAhead {
  import opened Bytes
  import opened BackendQueue
  import opened DiskFormat
  import opened Wrappers

  const BUFFER_SIZE := 4096

  /** Where the next read of the file itself starts, and what has been read of it and not been asked for. */
  datatype Reader = Reader(offset: int, ahead: seq<byte>)

  function Position(r: Reader): int {
    r.offset - |r.ahead|
  }

  /** What one read of the file itself yields; nothing at its end. */
  function Chunk(content: seq<byte>, offset: int, size: nat): (bs: seq<byte>)
    ensures |bs| <= size
  {
    if offset < 0 || offset >= |content| then []
    else if offset + size <= |content| then content[offset..offset + size] else content[offset..]
  }

  /** Reading `n` bytes through the buffer; a read that is no smaller than the buffer bypasses it once it is empty. */
  function ReadFull(content: seq<byte>, r: Reader, n: nat): (x: (Option<seq<byte>>, Reader))
    ensures x.0.Some? ==> |x.0.value| == n && Position(x.1) == Position(r) + n
    decreases n, if r.ahead == [] then 1 else 0
  {
    if n == 0 then (Some([]), r)
    else if r.ahead != [] then
      var k := if n <= |r.ahead| then n else |r.ahead|;
      var (rest, after) := ReadFull(content, r.(ahead := r.ahead[k..]), n - k);
      (if rest.Some? then Some(r.ahead[..k] + rest.value) else None, after)
    else
      var chunk := Chunk(content, r.offset, if n >= BUFFER_SIZE then n else BUFFER_SIZE);
      if chunk == [] then (None, r)
      else if n < BUFFER_SIZE then ReadFull(content, Reader(r.offset + |chunk|, chunk), n)
      else
        var (rest, after) := ReadFull(content, Reader(r.offset + |chunk|, []), n - |chunk|);
        (if rest.Some? then Some(chunk + rest.value) else None, after)
  }

  /** A record read through the buffer: the header, its check, and the data it announces. */
  function ReadThrough(content: seq<byte>, lim: Limits, r: Reader): (x: (Option<Data>, Reader))
    ensures x.0.Some? ==> lim.minMsgSize <= |x.0.value| <= lim.maxMsgSize
    ensures x.0.Some? ==> Position(x.1) == Position(r) + 4 + |x.0.value|
  {
    var (header, s) := ReadFull(content, r, 4);
    if header.None? then (None, s)
    else
      var size := GetInt32(header.value);
      if size < lim.minMsgSize || size > lim.maxMsgSize then (None, s) else ReadFull(content, s, size)
  }

  /** The buffer holds what the file holds there. */
  predicate Fresh(content: seq<byte>, r: Reader) {
    && 0 <= Position(r)
    && (r.ahead != [] ==> r.offset <= |content| && content[Position(r)..r.offset] == r.ahead)
  }

  predicate ReadsAt(content: seq<byte>, at: int, n: nat, x: Option<seq<byte>>, s: Reader)
    requires 0 <= at
  {
    if at + n > |content| then x == None
    else x == Some(content[at..at + n]) && Fresh(content, s) && Position(s) == at + n
  }

  lemma ReadsOn(content: seq<byte>, at: int, k: nat, n: nat, x: Option<seq<byte>>, s: Reader)
    requires 0 <= at && k <= n && at + k <= |content|
    requires ReadsAt(content, at + k, n - k, x, s)
    ensures ReadsAt(content, at, n, if x.Some? then Some(content[at..at + k] + x.value) else None, s)
  {
    assert at + n <= |content| ==> content[at..at + n] == content[at..at + k] + content[at + k..at + n];
  }

  lemma FreshParts(content: seq<byte>, r: Reader, k: nat)
    requires Fresh(content, r) && 0 < k <= |r.ahead|
    ensures var at := Position(r);
            at + k <= |content| && content[at..at + k] == r.ahead[..k] && content[at + k..r.offset] == r.ahead[k..]
  {
    var at, all := Position(r), content[Position(r)..r.offset];
    assert all[..k] == content[at..at + k] && all[k..] == content[at + k..r.offset];
  }

  /** Through a fresh buffer one reads what the file holds, and the buffer stays fresh. */
  lemma {:induction false} FreshReadFull(content: seq<byte>, r: Reader, n: nat)
    requires Fresh(content, r)
    requires n > 0 || Position(r) <= |content|
    ensures ReadsAt(content, Position(r), n, ReadFull(content, r, n).0, ReadFull(content, r, n).1)
    decreases n, if r.ahead == [] then 1 else 0, 1
  {
    var at := Position(r);
    if n == 0 {
      assert content[at..at] == [];
    } else if r.ahead != [] {
      var k := if n <= |r.ahead| then n else |r.ahead|;
      var rest := r.(ahead := r.ahead[k..]);
      FreshParts(content, r, k);
      FreshReadFull(content, rest, n - k);
      var (x, s) := ReadFull(content, rest, n - k);
      ReadsOn(content, at, k, n, x, s);
    } else {
      FreshFill(content, r, n);
    }
  }

  /** With an empty buffer the file is read, into the buffer or past it. */
  lemma {:induction false} FreshFill(content: seq<byte>, r: Reader, n: nat)
    requires 0 <= r.offset && r.ahead == [] && n > 0
    ensures ReadsAt(content, r.offset, n, ReadFull(content, r, n).0, ReadFull(content, r, n).1)
    decreases n, 1, 0
  {
    var chunk := Chunk(content, r.offset, if n >= BUFFER_SIZE then n else BUFFER_SIZE);
    var k := |chunk|;
    if chunk != [] {
      assert content[r.offset..r.offset + k] == chunk;
      if n < BUFFER_SIZE {
        FreshReadFull(content, Reader(r.offset + k, chunk), n);
      } else {
        FreshReadFull(content, Reader(r.offset + k, []), n - k);
        var (x, s) := ReadFull(content, Reader(r.offset + k, []), n - k);
        ReadsOn(content, r.offset, k, n, x, s);
      }
    }
  }

  /** Reading a record through a fresh buffer finds the record that is in the file. */
  lemma FreshReadThrough(content: seq<byte>, lim: Limits, r: Reader)
    requires Fresh(content, r)
    ensures var (x, s) := ReadThrough(content, lim, r);
            && x == ReadRecord(map[0 := content], lim, Cursor(0, Position(r)))
            && (x.Some? ==> Fresh(content, s) && Position(s) == Position(r) + 4 + |x.value|)
  {
    FreshReadFull(content, r, 4);
    var (header, s) := ReadFull(content, r, 4);
    if header.Some? {
      var size := GetInt32(header.value);
      if lim.minMsgSize <= size <= lim.maxMsgSize {
        FreshReadFull(content, s, size);
      }
    }
  }

  /** What is written behind all that the file holds leaves the buffer fresh. */
  lemma FreshAppended(content: seq<byte>, later: seq<byte>, r: Reader)
    requires Fresh(content, r) && content <= later
    ensures Fresh(later, r)
  {
    assert r.ahead != [] ==> later[Position(r)..r.offset] == content[Position(r)..r.offset];
  }

  /** A write leaves a fresh buffer fresh, whatever is written, if and only if it does not reach into the buffer. */
  lemma WritesStayFreshIff(content: seq<byte>, r: Reader, at: nat, n: nat)
    requires Fresh(content, r) && r.ahead != [] && at <= |content| && n > 0
    ensures (forall bytes: seq<byte> | |bytes| == n :: Fresh(Overwrite(content, at, bytes), r))
            <==> r.offset <= at || at + n <= Position(r)
  {
    var from := Position(r);
    if r.offset <= at || at + n <= from {
      forall bytes: seq<byte> | |bytes| == n ensures Fresh(Overwrite(content, at, bytes), r) {
        OverwriteElsewhere(content, at, bytes, from, r.offset);
      }
    } else {
      var p := if at <= from then from else at;
      var other := if r.ahead[p - from] == 0 then 1 else 0;
      var bytes: seq<byte> := seq(n, _ => other);
      var later := Overwrite(content, at, bytes);
      assert later[at..at + n][p - at] == later[p] == other;
      assert |later| >= r.offset ==> later[from..r.offset][p - from] == later[p];
      assert !Fresh(later, r);
    }
  }

  lemma OverwriteElsewhere(content: seq<byte>, at: nat, bytes: seq<byte>, from: nat, to: nat)
    requires at <= |content| && from <= to <= |content|
    requires to <= at || at + |bytes| <= from
    ensures var later := Overwrite(content, at, bytes);
            to <= |later| && later[from..to] == content[from..to]
  {
    var later := Overwrite(content, at, bytes);
    if to <= at {
      assert later[from..to] == content[..at][from..to];
    }
  }

  // ---- A buffer that is not fresh ----

  lemma TakenFromBuffer(content: seq<byte>, r: Reader, n: nat)
    requires n <= |r.ahead|
    ensures ReadFull(content, r, n) == (Some(r.ahead[..n]), r.(ahead := r.ahead[n..]))
  {
    if n > 0 {
      assert ReadFull(content, r.(ahead := r.ahead[n..]), 0).0 == Some([]);
      assert r.ahead[..n] + [] == r.ahead[..n];
    }
  }

  /** A record that is in the buffer is what is read, whatever has become of the file. */
  lemma BufferedRecordIsRead(content: seq<byte>, lim: Limits, offset: int, data: Data, rest: seq<byte>)
    requires Accepts(lim, data) && |data| <= MAX_INT32
    ensures ReadThrough(content, lim, Reader(offset, Record(data) + rest)) == (Some(data), Reader(offset, rest))
  {
    var r, size := Reader(offset, Record(data) + rest), |data|;
    TakenFromBuffer(content, r, 4);
    assert r.ahead[..4] == PutInt32(size) && r.ahead[4..] == data + rest;
    Int32RoundTrip(size);
    TakenFromBuffer(content, r.(ahead := data + rest), size);
    assert (data + rest)[..size] == data && (data + rest)[size..] == rest;
  }

  /** The first read of a file no larger than the buffer reads all of it. */
  lemma SmallFileIsBuffered(content: seq<byte>, lim: Limits)
    requires 0 < |content| <= 4096
    ensures ReadThrough(content, lim, Reader(0, [])) == ReadThrough(content, lim, Reader(|content|, content))
  {
    assert Chunk(content, 0, BUFFER_SIZE) == content;
    assert ReadFull(content, Reader(0, []), 4) == ReadFull(content, Reader(|content|, content), 4);
  }

  /**
   A record written over one that the file still held behind the write cursor: with the first record read the
   old one is in the buffer, and is read in place of the new one.
   */
  lemma StaleRecordIsRead(lim: Limits, a: Data, b: Data, c: Data)
    requires Accepts(lim, a) && Accepts(lim, b) && Accepts(lim, c)
    requires 8 + |a| + |b| <= BUFFER_SIZE && |c| <= MAX_INT32
    ensures var content, at := Record(a) + Record(b), 4 + |a|;
            var later := Overwrite(content, at, Record(c));
            var (first, r) := ReadThrough(content, lim, Reader(0, []));
            && first == Some(a) && r == Reader(|content|, Record(b))
            && ReadThrough(later, lim, r).0 == Some(b)
            && ReadRecord(map[0 := later], lim, Cursor(0, at)) == Some(c)
  {
    var content, at := Record(a) + Record(b), 4 + |a|;
    var later := Overwrite(content, at, Record(c));
    SmallFileIsBuffered(content, lim);
    BufferedRecordIsRead(content, lim, |content|, a, Record(b));
    assert Record(b) + [] == Record(b);
    BufferedRecordIsRead(later, lim, |content|, b, []);
    RecordReadsBack(map[0 := content], lim, Cursor(0, at), c);
  }
}

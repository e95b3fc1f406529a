/** The disk queue itself: fields moved in place by one event loop over open file handles. */
module DiskQueue {
  import opened Bytes
  import opened BackendQueue
  import opened DiskFormat
  import opened DiskQueueSpec
  import opened DiskQueueLaws
  import opened LookAhead
  import opened Wrappers

  /** The data directory: data files, files renamed to `.bad`, and the metadata file. */
  class Disk {
    var files: Files
    var bad: Files
    var meta: Option<Meta>

    constructor ()
      ensures files == map[] && bad == map[] && meta == None
    {
      files, bad, meta := map[], map[], None;
    }
  }

  /** An open file and the offset at which its next read or write starts. */
  datatype Handle = Closed | Open(file: int, offset: int)

  class DiskQueue {
    var readPos: int
    var writePos: int
    var readFileNum: int
    var writeFileNum: int
    var depth: int
    var needSync: bool

    // where reading has got to, ahead of what consumers were sent
    var nextReadPos: int
    var nextReadFileNum: int

    var readFile: Handle
    var writeFile: Handle

    // what the reader has buffered of its file, up to the handle's offset
    var ahead: seq<byte>

    // locals of the event loop
    var dataRead: Data
    var count: int

    const disk: Disk
    const cfg: Config

    ghost function Contents(): Queue
      reads this, disk
    {
      Queue(disk.files, disk.bad, disk.meta,
            Cursor(readFileNum, readPos), Cursor(nextReadFileNum, nextReadPos), Cursor(writeFileNum, writePos),
            depth, needSync, count, dataRead)
    }

    /** An open handle stands exactly at the write cursor, in a file that exists. */
    ghost predicate WriteHandleAgrees()
      reads this, disk
    {
      writeFile.Open? ==> writeFile == Open(writeFileNum, writePos) && writeFileNum in disk.files
    }

    /** Likewise what is read next through the handle for reading stands at the next-read cursor. */
    ghost predicate HandlesAgree()
      reads this, disk
    {
      && WriteHandleAgrees()
      && (readFile.Open? ==> && readFile.file == readFileNum == nextReadFileNum
                             && readFile.offset - |ahead| == nextReadPos && readFileNum in disk.files)
    }

    /** What is buffered is what the file holds. */
    ghost predicate BufferFresh()
      reads this`readFile, this`ahead, disk`files
    {
      readFile.Open? && readFile.file in disk.files ==>
        Fresh(disk.files[readFile.file], Reader(readFile.offset, ahead))
    }

    ghost predicate InStep()
      reads this, disk
    {
      HandlesAgree() && BufferFresh()
    }

    /** The reader that the next read goes through. */
    ghost function Through(): Reader
      reads this`readFile, this`ahead, this`readPos
    {
      if readFile.Open? then Reader(readFile.offset, ahead) else Reader(if readPos > 0 then readPos else 0, [])
    }

    constructor (disk: Disk, cfg: Config)
      ensures this.disk == disk && this.cfg == cfg
      ensures InStep()
      ensures Contents() == Opened(disk.files, disk.bad, disk.meta)
    {
      this.disk, this.cfg := disk, cfg;
      readPos, writePos, readFileNum, writeFileNum, depth := 0, 0, 0, 0, 0;
      nextReadPos, nextReadFileNum := 0, 0;
      needSync, count, dataRead := false, 0, [];
      readFile, writeFile, ahead := Closed, Closed, [];
      new;
      RetrieveMetaData();
    }

    method RetrieveMetaData()
      requires readFile == writeFile == Closed && Contents() == Opened(disk.files, disk.bad, None).(meta := disk.meta)
      modifies this
      ensures readFile == writeFile == Closed
      ensures Contents() == Opened(disk.files, disk.bad, disk.meta)
    {
      if disk.meta.Some? {
        var m := disk.meta.value;
        depth := m.depth;
        readFileNum, readPos := m.read.file, m.read.pos;
        writeFileNum, writePos := m.write.file, m.write.pos;
        nextReadFileNum, nextReadPos := readFileNum, readPos;
      }
    }

    method Sync()
      requires HandlesAgree()
      modifies this`needSync, disk`meta
      ensures HandlesAgree()
      ensures Contents() == Synced(old(Contents()))
    {
      PersistMetaData();
      needSync := false;
    }

    method PersistMetaData()
      modifies disk`meta
      ensures disk.meta == Some(Meta(depth, Contents().read, Contents().write))
    {
      disk.meta := Some(Meta(depth, Cursor(readFileNum, readPos), Cursor(writeFileNum, writePos)));
    }

    /** One record read through the buffer; only the next-read cursor moves. */
    method ReadOne() returns (r: Option<Data>)
      requires HandlesAgree() && nextReadPos == readPos && readPos >= 0
      modifies this`readFile, this`ahead, this`nextReadPos, this`nextReadFileNum, this`dataRead
      ensures HandlesAgree()
      ensures r == if readFileNum !in disk.files then None
                   else ReadThrough(disk.files[readFileNum], cfg.lim, old(Through())).0
      ensures Contents() == if r.Some? then AfterRead(cfg, old(Contents()), r.value) else old(Contents())
      ensures r.None? ==> readFile == Closed
      ensures r.Some? && readFile.Open? ==>
                Through() == ReadThrough(disk.files[readFileNum], cfg.lim, old(Through())).1
      ensures r.Some? && nextReadFileNum == readFileNum ==> readFile.Open?
      // through a fresh buffer it is the record that is in the file
      ensures old(BufferFresh()) ==> BufferFresh() && r == ReadRecord(disk.files, cfg.lim, old(Contents().read))
    {
      var ok := OpenReader();
      if !ok {
        return None;
      }
      r := ReadBuffered();
      if r == None {
        readFile := Closed;
        return;
      }
      AdvanceReader(r.value);
    }

    method OpenReader() returns (ok: bool)
      requires HandlesAgree() && nextReadPos == readPos && readPos >= 0
      modifies this`readFile, this`ahead
      ensures ok <==> readFileNum in disk.files
      ensures if ok then readFile.Open? && readFile.file == readFileNum else readFile == Closed
      ensures Through() == old(Through()) && Position(Through()) == readPos
      ensures old(BufferFresh()) ==> BufferFresh()
    {
      if readFile == Closed {
        if readFileNum !in disk.files {
          return false;
        }
        readFile, ahead := Open(readFileNum, if readPos > 0 then readPos else 0), [];
      }
      ok := true;
    }

    method AdvanceReader(data: Data)
      requires WriteHandleAgrees() && readFile.Open? && readFile.file == readFileNum && readFileNum in disk.files
      requires readFile.offset - |ahead| == readPos + 4 + |data|
      requires |data| <= cfg.lim.maxMsgSize
      modifies this`readFile, this`nextReadPos, this`nextReadFileNum, this`dataRead
      ensures HandlesAgree()
      ensures Contents() == AfterRead(cfg, old(Contents()), data)
      ensures readFile == if nextReadFileNum == readFileNum then old(readFile) else Closed
    {
      dataRead := data;
      var totalBytes := ToInt32(4 + |data|);
      nextReadPos := readPos + totalBytes;
      nextReadFileNum := readFileNum;
      if nextReadPos > cfg.maxBytesPerFile {
        readFile := Closed;
        nextReadFileNum := nextReadFileNum + 1;
        nextReadPos := 0;
      }
    }

    /** Through a fresh buffer the record read is the one in the file. */
    method ReadBuffered() returns (r: Option<Data>)
      requires readFile.Open? && readFile.file in disk.files
      modifies this`readFile, this`ahead
      ensures readFile.Open? && readFile.file == old(readFile.file)
      ensures (r, Through()) == ReadThrough(disk.files[readFile.file], cfg.lim, old(Through()))
      ensures old(BufferFresh()) ==>
                && r == ReadRecord(disk.files, cfg.lim, Cursor(readFile.file, Position(old(Through()))))
                && (r.Some? ==> BufferFresh())
    {
      if BufferFresh() {
        FreshReadThrough(disk.files[readFile.file], cfg.lim, Through());
      }
      r := ReadSized();
    }

    /** The header, its check and the full read of the data it announces. */
    method ReadSized() returns (r: Option<Data>)
      requires readFile.Open? && readFile.file in disk.files
      modifies this`readFile, this`ahead
      ensures readFile.Open? && readFile.file == old(readFile.file)
      ensures (r, Through()) == ReadThrough(disk.files[readFile.file], cfg.lim, old(Through()))
    {
      var header := ReadBytes(4);
      if header.None? {
        return None;
      }
      var msgSize := GetInt32(header.value);
      if msgSize < cfg.lim.minMsgSize || msgSize > cfg.lim.maxMsgSize {
        return None;
      }
      r := ReadBytes(msgSize);
    }

    method ReadBytes(n: nat) returns (bytes: Option<seq<byte>>)
      requires readFile.Open? && readFile.file in disk.files
      modifies this`readFile, this`ahead
      ensures readFile.Open? && readFile.file == old(readFile.file)
      ensures (bytes, Through()) == ReadFull(disk.files[readFile.file], old(Through()), n)
    {
      var (full, after) := ReadFull(disk.files[readFile.file], Reader(readFile.offset, ahead), n);
      bytes, readFile, ahead := full, readFile.(offset := after.offset), after.ahead;
    }

    /** One record written at the write handle, rolling to a new file when this one outgrew its limit. */
    method WriteOne(data: Data) returns (ok: bool)
      requires HandlesAgree() && writePos >= 0
      requires Accepts(cfg.lim, data) ==> |data| <= MAX_INT32
      modifies this`writeFile, this`writePos, this`writeFileNum, this`depth, this`needSync, disk`files, disk`meta
      ensures HandlesAgree()
      ensures ok <==> Accepts(cfg.lim, data)
      ensures Contents() == AfterWrite(cfg, old(Contents()), data)
      ensures old(BufferFresh()) && (ok ==> old(Tidy(Contents()))) ==> BufferFresh()
    {
      WrittenAfterOpen(cfg, Contents(), data);
      OpenWriteFile();
      var dataLen := ToInt32(|data|);
      if dataLen < cfg.lim.minMsgSize || dataLen > cfg.lim.maxMsgSize {
        return false;
      }
      PutRecord(data, dataLen);
      ok := true;
    }

    method PutRecord(data: Data, dataLen: int)
      requires HandlesAgree() && writeFile.Open? && writePos >= 0
      requires Accepts(cfg.lim, data) && |data| <= MAX_INT32 && dataLen == |data|
      modifies this`writeFile, this`writePos, this`writeFileNum, this`depth, this`needSync, disk`files, disk`meta
      ensures HandlesAgree()
      ensures Contents() == AfterWrite(cfg, old(Contents()), data)
      ensures old(BufferFresh()) && old(Tidy(Contents())) ==> BufferFresh()
    {
      Append(PutInt32(dataLen) + data, data);
      AdvanceWriter(dataLen);
    }

    method OpenWriteFile()
      requires HandlesAgree() && writePos >= 0
      modifies this`writeFile, disk`files
      ensures HandlesAgree() && writeFile.Open?
      ensures old(BufferFresh()) ==> BufferFresh()
      ensures Contents() == AfterOpenWrite(old(Contents()))
    {
      if writeFile == Closed {
        if writeFileNum !in disk.files {
          disk.files := disk.files[writeFileNum := []];
        }
        writeFile := Open(writeFileNum, if writePos > 0 then writePos else 0);
      }
    }

    method Append(bytes: seq<byte>, ghost data: Data)
      requires HandlesAgree() && writeFile.Open? && writePos >= 0
      requires bytes == Record(data)
      modifies this`writeFile, disk`files
      ensures Contents() == old(Contents()).(files := Written(old(disk.files), Cursor(writeFileNum, writePos), data))
      ensures writeFile == Open(writeFileNum, writePos + |bytes|)
      ensures readFile.Open? && readFileNum in old(disk.files) ==> readFileNum in disk.files
      ensures old(BufferFresh()) && |old(disk.files)[writeFileNum]| <= writePos ==> BufferFresh()
    {
      ghost var content := disk.files[writeFile.file];
      if readFile.Open? && Fresh(content, Reader(readFile.offset, ahead)) && |content| <= writePos {
        assert content == content[..|content|];
        FreshAppended(content, Overwrite(content, writeFile.offset, bytes), Reader(readFile.offset, ahead));
      }
      disk.files := disk.files[writeFile.file := Overwrite(disk.files[writeFile.file], writeFile.offset, bytes)];
      writeFile := writeFile.(offset := writeFile.offset + |bytes|);
    }

    method AdvanceWriter(dataLen: int)
      requires dataLen <= cfg.lim.maxMsgSize && 0 <= dataLen
      modifies this`writeFileNum, this`writePos, this`depth, this`needSync, this`writeFile, disk`meta
      ensures var w := Advance(old(Contents().write), dataLen, cfg.maxBytesPerFile);
              var moved := old(Contents()).(write := w, depth := old(depth) + 1);
              Contents() == if w.file == old(writeFileNum) then moved else Synced(moved)
      ensures writeFile == if writeFileNum == old(writeFileNum) then old(writeFile) else Closed
    {
      var totalBytes := ToInt32(4 + dataLen);
      writePos := writePos + totalBytes;
      depth := depth + 1;
      if writePos > cfg.maxBytesPerFile {
        writeFileNum := writeFileNum + 1;
        writePos := 0;
        PersistMetaData();
        needSync := false;
        writeFile := Closed;
      }
    }

    method SkipToNextRWFile()
      modifies this, disk`files
      ensures HandlesAgree() && readFile == Closed
      ensures Contents() == AfterSkipAll(old(Contents()))
    {
      readFile, writeFile := Closed, Closed;
      RemoveFiles(readFileNum, writeFileNum);
      StartAfresh();
    }

    /** All cursors at the start of the next file. */
    method StartAfresh()
      requires readFile == writeFile == Closed
      modifies this
      ensures HandlesAgree() && readFile == Closed
      ensures var start := Cursor(old(writeFileNum) + 1, 0);
              Contents() == old(Contents()).(read := start, next := start, write := start, depth := 0)
    {
      writeFileNum := writeFileNum + 1;
      writePos := 0;
      readFileNum := writeFileNum;
      readPos := 0;
      nextReadFileNum := writeFileNum;
      nextReadPos := 0;
      depth := 0;
    }

    method RemoveFiles(from: int, to: int)
      modifies disk`files
      ensures disk.files == map f | f in old(disk.files) && !(from <= f <= to) :: old(disk.files)[f]
    {
      var i := from;
      while i <= to
        invariant from <= i && (i <= to + 1 || i == from)
        invariant disk.files == map f | f in old(disk.files) && !(from <= f < i) :: old(disk.files)[f]
      {
        disk.files := disk.files - {i};
        i := i + 1;
      }
    }

    method DeleteAllFiles()
      modifies this, disk`files, disk`meta
      ensures InStep()
      ensures Contents().(count := 0) == AfterEmpty(old(Contents()))
    {
      SkipToNextRWFile();
      disk.meta := None;
    }

    method CheckTailCorruption(d: int)
      requires d == depth && HandlesAgree()
      modifies this, disk`files
      ensures HandlesAgree()
      ensures readFile == Closed || (readFile == old(readFile) && ahead == old(ahead) && disk.files == old(disk.files))
      ensures old(HasData(Contents().read, Contents().write)) ==> readFile == old(readFile) && ahead == old(ahead)
      ensures Contents() == AfterTailCheck(old(Contents()))
    {
      if readFileNum < writeFileNum || readPos < writePos {
        return;
      }
      if d != 0 {
        depth := 0;
        needSync := true;
      }
      if readFileNum != writeFileNum || readPos != writePos {
        SkipToNextRWFile();
        needSync := true;
      }
    }

    method MoveForward()
      requires HandlesAgree()
      requires readFileNum <= nextReadFileNum <= writeFileNum
      modifies this, disk`files
      ensures HandlesAgree()
      ensures old(HasData(Contents().next, Contents().write)) ==> readFile == old(readFile) && ahead == old(ahead)
      ensures old(BufferFresh()) ==> BufferFresh()
      ensures Contents() == AfterDelivery(old(Contents()))
    {
      var oldReadFileNum := readFileNum;
      readFileNum := nextReadFileNum;
      readPos := nextReadPos;
      depth := depth - 1;
      if oldReadFileNum != nextReadFileNum {
        needSync := true;
        disk.files := disk.files - {oldReadFileNum};
      }
      CheckTailCorruption(depth);
    }

    method HandleReadError()
      requires HandlesAgree() && readFile == Closed
      modifies this, disk`files, disk`bad
      ensures InStep()
      ensures Contents() == AfterReadError(old(Contents()))
    {
      if readFileNum == writeFileNum {
        writeFile := Closed;
        writeFileNum := writeFileNum + 1;
        writePos := 0;
      }
      RenameBadFile();
      readFileNum := readFileNum + 1;
      readPos := 0;
      nextReadFileNum := readFileNum;
      nextReadPos := 0;
      needSync := true;
    }

    method RenameBadFile()
      modifies disk`files, disk`bad
      ensures disk.files == old(disk.files) - {readFileNum}
      ensures disk.bad == if readFileNum !in old(disk.files) then old(disk.bad)
                          else old(disk.bad)[readFileNum := old(disk.files)[readFileNum]]
    {
      if readFileNum in disk.files {
        disk.bad := disk.bad[readFileNum := disk.files[readFileNum]];
        disk.files := disk.files - {readFileNum};
      }
    }

    /** The top of the event loop: sync if due, then read ahead past any unreadable file. */
    method Prepare() returns (ready: bool)
      requires InStep() && Ordered(cfg, Contents())
      modifies this, disk
      ensures InStep() && Ordered(cfg, Contents())
      ensures (Contents(), ready) == Prepared(cfg, old(Contents()))
    {
      while true
        invariant InStep() && Ordered(cfg, Contents())
        invariant Prepared(cfg, Contents()) == Prepared(cfg, old(Contents()))
        decreases writeFileNum - readFileNum, if HasData(Contents().read, Contents().write) then 1 else 0
      {
        OrderedArms(cfg, Contents(), []);
        SyncWhenDue();
        if !(readFileNum < writeFileNum || readPos < writePos) {
          return false;
        }
        if nextReadPos == readPos {
          var ok := ReadOrSkip();
          if !ok {
            continue;
          }
        }
        return true;
      }
    }

    /** One read, and what becomes of an error. */
    method ReadOrSkip() returns (ok: bool)
      requires InStep() && Ordered(cfg, Contents()) && nextReadPos == readPos
      modifies this, disk`files, disk`bad
      ensures InStep() && Ordered(cfg, Contents())
      ensures var r := ReadRecord(old(disk.files), cfg.lim, old(Contents().read));
              && (ok <==> r.Some?)
              && Contents() == if ok then AfterRead(cfg, old(Contents()), r.value) else AfterReadError(old(Contents()))
    {
      ghost var q := Contents();
      var r := ReadOne();
      OrderedArms(cfg, q, if r.Some? then r.value else []);
      if r == None {
        HandleReadError();
      }
      ok := r.Some?;
    }

    method SyncWhenDue()
      requires HandlesAgree()
      modifies this`needSync, this`count, disk`meta
      ensures HandlesAgree()
      ensures Contents() == SyncIfDue(cfg, old(Contents()))
    {
      if count == cfg.syncEvery {
        needSync := true;
      }
      if needSync {
        Sync();
        count := 0;
      }
    }

    /** One select arm. */
    method Select(ready: bool, e: Event) returns (response: Response)
      requires InStep() && Ordered(cfg, Contents())
      requires ready ==> readFileNum <= nextReadFileNum <= writeFileNum
      requires e.Put? && Accepts(cfg.lim, e.data) ==> |e.data| <= MAX_INT32 && Tidy(Contents())
      modifies this, disk
      ensures InStep()
      ensures (Contents(), response) == Chosen(cfg, old(Contents()), ready, e)
    {
      match e
      case Put(data) =>
        count := count + 1;
        var ok := WriteOne(data);
        response := if ok then Accepted else Rejected;
      case Deliver =>
        if ready {
          response := Delivered(dataRead);
          count := count + 1;
          MoveForward();
        } else {
          response := Blocked;
        }
      case Empty =>
        DeleteAllFiles();
        count := 0;
        response := Emptied;
      case Tick =>
        if count != 0 {
          needSync := true;
        }
        response := Ticked;
    }

    /**
     The event loop over any script of select outcomes, until it is told to exit. Whatever the files
     hold, it answers every event as the first-in first-out queue does; puts need a sound write file and
     nothing behind it, as it is after any Empty that no later files survive. Files as the queue wrote them
     stay so, and none is set aside. `qs` are the states at the beginnings of the turns.
     */
    method IoLoop(script: seq<Event>, ghost s: State) returns (responses: seq<Response>, ghost qs: seq<Queue>)
      requires InStep() && Holds(cfg, Contents(), s)
      requires forall e | e in script :: e.Put? && Accepts(cfg.lim, e.data) ==> |e.data| <= MAX_INT32
      requires forall i | 0 <= i < |script| && script[i].Put? && Accepts(cfg.lim, script[i].data) ::
                 Puttable(cfg, Contents(), script[..i])
      modifies this, disk
      ensures InStep() && Holds(cfg, Contents(), Run(cfg.lim, s, script).0)
      ensures responses == Run(cfg.lim, s, script).1
      ensures old(Puttable(cfg, Contents(), script)) ==> Writable(cfg, Contents())
      ensures old(Settled(cfg, Contents(), s)) ==>
                Settled(cfg, Contents(), Run(cfg.lim, s, script).0) && disk.bad == old(disk.bad)
      ensures IsTurns(cfg, qs, script) && qs[0] == old(Contents()) && Contents() == Prepared(cfg, qs[|script|]).0
    {
      responses, qs := [], [Contents()];
      ghost var now, q := s, Contents();
      StartTurns(cfg, q, s);
      for i := 0 to |script|
        invariant InStep() && Holds(cfg, Contents(), now)
        invariant Run(cfg.lim, s, script[..i]) == (now, responses)
        invariant StaysPuttable(cfg, q, script[..i], Contents())
        invariant IsTurns(cfg, qs, script[..i]) && qs[0] == q && qs[i] == Contents()
        invariant Settled(cfg, q, s) ==> Settled(cfg, Contents(), now) && disk.bad == q.bad
      {
        var response := Turn(script[i], now);
        RunSnoc(cfg.lim, s, script[..i], script[i]);
        assert script[..i + 1] == script[..i] + [script[i]];
        now := Step(cfg.lim, now, script[i]).0;
        TurnsOn(cfg, qs, script[..i], script[i], Contents(), now);
        responses, qs := responses + [response], qs + [Contents()];
      }
      assert script[..|script|] == script;
      FinalPass(now);
    }

    /** One turn of the loop. */
    method Turn(e: Event, ghost s: State) returns (response: Response)
      requires InStep() && Holds(cfg, Contents(), s)
      requires e.Put? && Accepts(cfg.lim, e.data) ==> |e.data| <= MAX_INT32 && Writable(cfg, Contents())
      modifies this, disk
      ensures InStep() && TurnTaken(cfg, old(Contents()), s, e, Contents(), response)
      ensures IsTurn(cfg, old(Contents()), e, Contents())
    {
      StepRefines(cfg, Contents(), s, e);
      TurnIsTaken(cfg, Contents(), s, e);
      var ready := Prepare();
      response := Select(ready, e);
    }

    /** The loop's top once more, before its select finds it is told to exit. */
    method FinalPass(ghost s: State)
      requires InStep() && Holds(cfg, Contents(), s)
      modifies this, disk
      ensures InStep() && Holds(cfg, Contents(), s) && Contents() == Prepared(cfg, old(Contents())).0
      ensures StaysWritable(cfg, old(Contents()), Contents())
      ensures old(Settled(cfg, Contents(), s)) ==> Settled(cfg, Contents(), s) && disk.bad == old(disk.bad)
    {
      PreparedHolds(cfg, Contents(), s);
      if Settled(cfg, Contents(), s) {
        PreparedSettled(cfg, Contents(), s);
        assert Prepared(cfg, Contents()).0.LayoutNow().bad == disk.bad;
      }
      var _ := Prepare();
    }

    /** Exit has closed the loop: close the files and persist the metadata. */
    method Close(ghost s: State)
      requires HandlesAgree() && Holds(cfg, Contents(), s)
      modifies this, disk`meta
      ensures disk.files == old(disk.files) && disk.bad == old(disk.bad)
      ensures Holds(cfg, Opened(disk.files, disk.bad, disk.meta), s)
      ensures old(Writable(cfg, Contents())) ==> Stores(cfg, disk.files, disk.bad, disk.meta, s)
      ensures old(Settled(cfg, Contents(), s)) ==> Settled(cfg, Opened(disk.files, disk.bad, disk.meta), s)
    {
      readFile, writeFile := Closed, Closed;
      CleanRestart(cfg, Contents(), s);
      Sync();
    }
  }

  function Flatten<T>(parts: seq<seq<T>>): seq<T> {
    if parts == [] then [] else Flatten(parts[..|parts| - 1]) + parts[|parts| - 1]
  }

  /**
   Any number of New, run, Close cycles on one directory behave like a single run of one
   first-in first-out queue. If its files were as the queue writes them, as in an empty directory, they stay
   so, and no file is ever set aside.
   */
  method Sessions(disk: Disk, cfg: Config, scripts: seq<seq<Event>>, ghost s: State)
    returns (responses: seq<seq<Response>>)
    requires Stores(cfg, disk.files, disk.bad, disk.meta, s)
    requires forall script, e | script in scripts && e in script ::
               e.Put? && Accepts(cfg.lim, e.data) ==> |e.data| <= MAX_INT32
    modifies disk
    ensures |responses| == |scripts|
    ensures Flatten(responses) == Run(cfg.lim, s, Flatten(scripts)).1
    ensures Stores(cfg, disk.files, disk.bad, disk.meta, Run(cfg.lim, s, Flatten(scripts)).0)
    ensures old(Settled(cfg, Opened(disk.files, disk.bad, disk.meta), s)) ==>
              && Settled(cfg, Opened(disk.files, disk.bad, disk.meta), Run(cfg.lim, s, Flatten(scripts)).0)
              && disk.bad == old(disk.bad)
  {
    responses := [];
    ghost var now, bad := s, disk.bad;
    ghost var settled := Settled(cfg, Opened(disk.files, disk.bad, disk.meta), s);
    for i := 0 to |scripts|
      invariant |responses| == i
      invariant Stores(cfg, disk.files, disk.bad, disk.meta, now)
      invariant settled ==> Settled(cfg, Opened(disk.files, disk.bad, disk.meta), now) && disk.bad == bad
      invariant (now, Flatten(responses)) == Run(cfg.lim, s, Flatten(scripts[..i]))
    {
      var queue := new DiskQueue(disk, cfg);
      var answers, _ := queue.IoLoop(scripts[i], now);
      RunConcat(cfg.lim, s, Flatten(scripts[..i]), scripts[i]);
      assert scripts[..i + 1][..i] == scripts[..i];
      now := Run(cfg.lim, now, scripts[i]).0;
      queue.Close(now);
      assert (responses + [answers])[..i] == responses;
      responses := responses + [answers];
    }
    assert scripts[..|scripts|] == scripts;
  }

  /** A queue that holds `a`, in a file where `b` stands behind the write cursor. */
  function StaleQueue(a: Data, b: Data, bad: Files): Queue {
    Opened(map[0 := Record(a) + Record(b)], bad, Some(Meta(1, Cursor(0, 0), Cursor(0, 4 + |a|))))
  }

  /** All that puts need is there, but that nothing stands behind the write cursor. */
  lemma StaleQueueHolds(cfg: Config, a: Data, b: Data, bad: Files)
    requires Accepts(cfg.lim, a) && Accepts(cfg.lim, b)
    requires 8 + |a| + |b| <= BUFFER_SIZE && 4 + |a| <= cfg.maxBytesPerFile
    ensures var q := StaleQueue(a, b, bad);
            && Holds(cfg, q, State([a], 1, false)) && MeetsWriter(cfg, q) && NoLaterFiles(q) && !Tidy(q)
            && ReadRecord(q.files, cfg.lim, q.read) == Some(a)
  {
    var q := StaleQueue(a, b, bad);
    FreshReadThrough(q.files[0], cfg.lim, Reader(0, []));
    StaleRecordIsRead(cfg.lim, a, b, a);
    ReadingOne(cfg, q, a);
  }

  lemma ReadingOne(cfg: Config, q: Queue, a: Data)
    requires q.read == Cursor(0, 0) && q.write == Cursor(0, 4 + |a|) && 4 + |a| <= cfg.maxBytesPerFile
    requires ReadRecord(q.files, cfg.lim, q.read) == Some(a)
    ensures ReadingOf(cfg, q) == Reading([a], q.write, q.write)
  {
    assert Read(q.files, cfg.lim, cfg.maxBytesPerFile, q.write, q.write) == Reading([], q.write, q.write);
    assert [a] + [] == [a];
  }

  /** The queue after reading `a`, after the put of `c`, and after the delivery of `a`. */
  lemma StaleQueueRuns(cfg: Config, q: Queue, a: Data, b: Data, c: Data)
    requires q == StaleQueue(a, b, q.bad)
    requires Accepts(cfg.lim, c) && |c| <= MAX_INT32 && 8 + |a| + |c| <= cfg.maxBytesPerFile
    ensures var at := 4 + |a|;
            var read := AfterRead(cfg, q, a);
            var put := AfterWrite(cfg, read, c);
            var delivered := AfterDelivery(put);
            && read.next == Cursor(0, at)
            && put.read == Cursor(0, 0) && put.next == Cursor(0, at) && put.write == Cursor(0, at + 4 + |c|)
            && put.files == map[0 := Overwrite(Record(a) + Record(b), at, Record(c))]
            && delivered.read == Cursor(0, at) == delivered.next && delivered.files == put.files
  {
  }

  /**
   A put that overwrites `b` is not what the reader delivers next: `b` is, from its buffer. `queue` has
   just been opened.
   */
  method StaleRecordIsDelivered(queue: DiskQueue, a: Data, b: Data, c: Data)
    returns (first: Option<Data>, second: Option<Data>)
    requires Accepts(queue.cfg.lim, a) && Accepts(queue.cfg.lim, b) && Accepts(queue.cfg.lim, c)
    requires 8 + |a| + |b| <= BUFFER_SIZE && |c| <= MAX_INT32 && 8 + |a| + |c| <= queue.cfg.maxBytesPerFile
    requires queue.HandlesAgree() && queue.readFile == Closed
    requires queue.Contents() == StaleQueue(a, b, queue.disk.bad)
    modifies queue, queue.disk
    ensures first == Some(a) && second == Some(b)
    ensures queue.disk.files == map[0 := Overwrite(Record(a) + Record(b), 4 + |a|, Record(c))]
    ensures ReadRecord(queue.disk.files, queue.cfg.lim, Cursor(0, 4 + |a|)) == Some(c)
  {
    StaleRecordIsRead(queue.cfg.lim, a, b, c);
    StaleQueueRuns(queue.cfg, queue.Contents(), a, b, c);
    first := queue.ReadOne();
    var ok := queue.WriteOne(c);
    queue.MoveForward();
    second := queue.ReadOne();
  }
}

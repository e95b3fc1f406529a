/** Message IDs: a clock tick, a node and a sequence number packed into an int64, written in hex. */
module Guid {
  import opened Bytes

  const NODE_ID_SHIFT := 12
  const TIMESTAMP_SHIFT := 22
  const TWEPOCH := 1288834974288
  const SEQUENCES := 4096
  const ID_BYTES: nat := 8

  datatype Error = TimeBackwards | SequenceExpired | IDBackwards
  datatype Result = Ok(id: int) | Err(error: Error)

  function Pow2(k: nat): (p: nat)
    ensures p > 0
  {
    if k == 0 then 1 else 2 * Pow2(k - 1)
  }

  /** Go's `<<` on an int64. */
  function Shl(x: int, k: nat): int {
    ToInt64(x * Pow2(k))
  }

  /** Bitwise or of two naturals. */
  function OrBits(a: nat, b: nat): nat
    decreases a + b
  {
    if a == 0 && b == 0 then 0
    else 2 * OrBits(a / 2, b / 2) + (if a % 2 == 1 || b % 2 == 1 then 1 else 0)
  }

  /** Go's `|` on int64 values. */
  function Or(a: int, b: int): int {
    ToInt64(OrBits(a % TWO_64, b % TWO_64))
  }

  function Pack(ts: int, node: int, sequence: int): int {
    Or(Or(Shl(ToInt64(ts - TWEPOCH), TIMESTAMP_SHIFT), Shl(node, NODE_ID_SHIFT)), sequence)
  }

  predicate ValidTick(ts: int) {
    TWEPOCH < ts < TWEPOCH + 0x200_0000_0000
  }

  predicate ValidNode(node: int) {
    0 <= node < 1024
  }

  lemma {:induction false} OrOfDisjointBits(a: nat, b: nat, k: nat)
    requires b < Pow2(k)
    ensures OrBits(a * Pow2(k), b) == a * Pow2(k) + b
    decreases k
  {
    if k == 0 {
      OrZero(a);
    } else {
      var half := a * Pow2(k - 1);
      assert a * Pow2(k) == 2 * half;
      OrOfDisjointBits(a, b / 2, k - 1);
    }
  }

  lemma {:induction false} OrZero(a: nat)
    ensures OrBits(a, 0) == a
  {
    if a > 0 {
      OrZero(a / 2);
    }
  }

  lemma Shifts()
    ensures Pow2(12) == SEQUENCES
    ensures Pow2(22) == 0x40_0000
  {
    assert Pow2(12) == 4096 by { assert Pow2(6) == 64; }
    assert Pow2(22) == 1024 * Pow2(12) by { assert Pow2(17) == 32 * Pow2(12); }
  }

  lemma ModSmall(n: nat, m: nat)
    requires n < m
    ensures n % m == n
  {
  }

  /** Wrapping the time stamp to 64 bits, before or after shifting it, keeps its low 42 bits. */
  lemma ShlBits(t: int)
    ensures Shl(ToInt64(t), TIMESTAMP_SHIFT) % TWO_64 == (t % 0x400_0000_0000) * 0x40_0000
  {
    Shifts();
    var u := ToInt64(t);
    var q, r := u / 0x400_0000_0000, u % 0x400_0000_0000;
    assert u * 0x40_0000 == q * TWO_64 + r * 0x40_0000;
    assert r == t % 0x400_0000_0000;
    assert (u * 0x40_0000) % TWO_64 == r * 0x40_0000;
  }

  lemma OrIsSum(x: int, a: nat, b: nat, k: nat)
    requires x % TWO_64 == a * Pow2(k) && b < Pow2(k) && b < TWO_64
    ensures Or(x, b) == ToInt64(a * Pow2(k) + b)
  {
    OrOfDisjointBits(a, b, k);
    ModSmall(b, TWO_64);
  }

  lemma OrOfParts(high: int, t: nat, node: nat, sequence: nat)
    requires high % TWO_64 == t * 0x40_0000
    requires t < 0x400_0000_0000 && node < 1024 && sequence < SEQUENCES
    ensures Or(Or(high, node * 0x1000), sequence) == ToInt64(t * 0x40_0000 + node * 0x1000 + sequence)
  {
    Shifts();
    OrIsSum(high, t, node * 0x1000, 22);
    var upper := t * 0x400 + node;
    assert t * 0x40_0000 + node * 0x1000 == upper * 0x1000;
    ToInt64KeepsBits(upper * 0x1000);
    ModSmall(upper * 0x1000, TWO_64);
    OrIsSum(Or(high, node * 0x1000), upper, sequence, 12);
  }

  /** The arithmetic meaning of the packing, wrap-around included. */
  function Packed(ts: int, node: int, sequence: int): int {
    ToInt64((ts - TWEPOCH) * 0x40_0000 + node * 0x1000 + sequence)
  }

  /** For every node and sequence the shifted parts occupy disjoint bits. */
  lemma PackIsPacked(ts: int, node: int, sequence: int)
    requires ValidNode(node) && 0 <= sequence < SEQUENCES
    ensures Pack(ts, node, sequence) == Packed(ts, node, sequence)
  {
    var t := ts - TWEPOCH;
    var low := t % 0x400_0000_0000;
    Shifts();
    ShlBits(t);
    ModSmall(node * 0x1000, TWO_64);
    assert Shl(node, NODE_ID_SHIFT) == node * 0x1000;
    OrOfParts(Shl(ToInt64(t), TIMESTAMP_SHIFT), low, node, sequence);
    SameLowBits(t, node * 0x1000 + sequence);
  }

  lemma SameLowBits(t: int, rest: nat)
    ensures ToInt64(t % 0x400_0000_0000 * 0x40_0000 + rest) == ToInt64(t * 0x40_0000 + rest)
  {
    var q := t / 0x400_0000_0000;
    assert t * 0x40_0000 + rest == q * TWO_64 + (t % 0x400_0000_0000 * 0x40_0000 + rest);
  }

  /** On the ticks of the next 2^41 nothing wraps, and an ID unpacks to what it was made of. */
  lemma Unpacks(ts: int, node: int, sequence: int)
    requires ValidTick(ts) && ValidNode(node) && 0 <= sequence < SEQUENCES
    ensures var id := Packed(ts, node, sequence);
            && 0 < id == (ts - 1288834974288) * 0x40_0000 + node * 0x1000 + sequence
            && id / 0x40_0000 == ts - TWEPOCH && id / 0x1000 % 1024 == node && id % 0x1000 == sequence
  {
    var id := (ts - TWEPOCH) * 0x40_0000 + node * 0x1000 + sequence;
    assert id / 0x1000 == (ts - TWEPOCH) * 0x400 + node;
  }

  /** So IDs of different parts differ. */
  lemma PackedInjective(ts: int, node: int, sequence: int, ts': int, node': int, sequence': int)
    requires ValidTick(ts) && ValidNode(node) && 0 <= sequence < SEQUENCES
    requires ValidTick(ts') && ValidNode(node') && 0 <= sequence' < SEQUENCES
    ensures Packed(ts, node, sequence) == Packed(ts', node', sequence') <==>
            ts == ts' && node == node' && sequence == sequence'
  {
    Unpacks(ts, node, sequence);
    Unpacks(ts', node', sequence');
  }

  // ---- The factory ----

  datatype Factory = Factory(nodeID: int, sequence: int, lastTimestamp: int, lastID: int)

  function NextSequence(f: Factory, ts: int): int {
    if f.lastTimestamp == ts then (f.sequence + 1) % SEQUENCES else 0
  }

  /** A call at tick `ts`, where `id` is the ID it would hand out. */
  function NextWith(f: Factory, ts: int, id: int): (Factory, Result) {
    if ts < f.lastTimestamp then (f, Err(TimeBackwards))
    else
      var g := f.(sequence := NextSequence(f, ts));
      if f.lastTimestamp == ts && g.sequence == 0 then (g, Err(SequenceExpired))
      else
        var h := g.(lastTimestamp := ts);
        if id <= f.lastID then (h, Err(IDBackwards)) else (h.(lastID := id), Ok(id))
  }

  function Next(f: Factory, ts: int): (Factory, Result) {
    NextWith(f, ts, Packed(ts, f.nodeID, NextSequence(f, ts)))
  }

  /** A factory as its calls on valid ticks leave it: no ID is from after its last tick. */
  predicate Consistent(f: Factory) {
    && ValidNode(f.nodeID) && 0 <= f.sequence < SEQUENCES
    && if f.lastTimestamp == 0 then f.lastID == 0
       else ValidTick(f.lastTimestamp) && f.lastID < (f.lastTimestamp - TWEPOCH + 1) * 0x40_0000
  }

  class GuidFactory {
    const nodeID: int
    var sequence: int
    var lastTimestamp: int
    var lastID: int

    constructor (nodeID: int)
      ensures this.nodeID == nodeID
      ensures State() == Factory(nodeID, 0, 0, 0)
      ensures ValidNode(nodeID) ==> Consistent(State())
    {
      this.nodeID, sequence, lastTimestamp, lastID := nodeID, 0, 0, 0;
    }

    ghost function State(): Factory
      reads this
    {
      Factory(nodeID, sequence, lastTimestamp, lastID)
    }

    /** `now` is the clock in nanoseconds; a tick is 2^20 of them. */
    method NewGUID(now: int) returns (r: Result)
      requires ValidNode(nodeID) && 0 <= sequence < SEQUENCES
      modifies this
      ensures 0 <= sequence < SEQUENCES
      ensures (State(), r) == Next(old(State()), now / 0x10_0000)
    {
      var ts := now / 0x10_0000;
      PackIsPacked(ts, nodeID, NextSequence(State(), ts));
      if ts < lastTimestamp {
        return Err(TimeBackwards);
      }
      if lastTimestamp == ts {
        sequence := (sequence + 1) % SEQUENCES;
        if sequence == 0 {
          return Err(SequenceExpired);
        }
      } else {
        sequence := 0;
      }
      lastTimestamp := ts;
      var id := Pack(ts, nodeID, sequence);
      if id <= lastID {
        return Err(IDBackwards);
      }
      lastID := id;
      return Ok(id);
    }
  }

  /** Consistency is kept, and a call at a later tick always succeeds, with sequence 0. */
  lemma NextStaysConsistent(f: Factory, ts: int)
    requires Consistent(f) && ValidTick(ts)
    ensures Consistent(Next(f, ts).0)
    ensures ts > f.lastTimestamp ==> Next(f, ts).1 == Ok(Packed(ts, f.nodeID, 0))
    ensures ts < f.lastTimestamp ==> Next(f, ts) == (f, Err(TimeBackwards))
  {
    if ts > f.lastTimestamp {
      PackIsPacked(ts, f.nodeID, 0);
    } else {
      PackIsPacked(ts, f.nodeID, (f.sequence + 1) % SEQUENCES);
    }
  }

  function Calls(f: Factory, ticks: seq<int>): (r: (Factory, seq<Result>))
    ensures |r.1| == |ticks|
  {
    if ticks == [] then (f, [])
    else
      var (g, before) := Calls(f, ticks[..|ticks| - 1]);
      var (h, last) := Next(g, ticks[|ticks| - 1]);
      (h, before + [last])
  }

  lemma CallsSnoc(f: Factory, ticks: seq<int>, ts: int)
    ensures var (g, rs) := Calls(f, ticks);
            var (h, r) := Next(g, ts);
            Calls(f, ticks + [ts]) == (h, rs + [r])
  {
    assert (ticks + [ts])[..|ticks|] == ticks;
  }

  /** The successful IDs of `rs` strictly increase from above `lo` up to `hi` and name `node`. */
  ghost predicate Ascending(rs: seq<Result>, lo: int, hi: int, node: int) {
    && lo <= hi
    && (forall i | 0 <= i < |rs| && rs[i].Ok? :: lo < rs[i].id <= hi && rs[i].id / 0x1000 % 1024 == node)
    && (forall i, j | 0 <= i < j < |rs| && rs[i].Ok? && rs[j].Ok? :: rs[i].id < rs[j].id)
  }

  lemma NextAscends(f: Factory, ts: int)
    requires Consistent(f) && ValidTick(ts)
    ensures var (g, r) := Next(f, ts);
            Consistent(g) && g.nodeID == f.nodeID && Ascending([r], f.lastID, g.lastID, f.nodeID)
  {
    var sequence := NextSequence(f, ts);
    PackIsPacked(ts, f.nodeID, sequence);
    NextWithAscends(f, ts, Packed(ts, f.nodeID, sequence));
  }

  lemma NextWithAscends(f: Factory, ts: int, id: int)
    requires Consistent(f) && ValidTick(ts)
    requires id == Packed(ts, f.nodeID, NextSequence(f, ts))
    ensures var (g, r) := NextWith(f, ts, id);
            Consistent(g) && g.nodeID == f.nodeID && Ascending([r], f.lastID, g.lastID, f.nodeID)
  {
    Unpacks(ts, f.nodeID, NextSequence(f, ts));
  }

  lemma AscendingSnoc(rs: seq<Result>, r: Result, lo: int, mid: int, hi: int, node: int)
    requires Ascending(rs, lo, mid, node) && Ascending([r], mid, hi, node)
    ensures Ascending(rs + [r], lo, hi, node)
  {
    assert [r][0] == r;
  }

  /** Whatever the clock does, the IDs a factory hands out strictly increase and carry its node. */
  lemma {:induction false} IDsIncrease(f: Factory, ticks: seq<int>)
    requires Consistent(f)
    requires forall ts | ts in ticks :: ValidTick(ts)
    ensures var (g, rs) := Calls(f, ticks);
            Consistent(g) && g.nodeID == f.nodeID && Ascending(rs, f.lastID, g.lastID, f.nodeID)
    decreases |ticks|
  {
    if ticks != [] {
      var before, ts := ticks[..|ticks| - 1], ticks[|ticks| - 1];
      IDsIncrease(f, before);
      var (g, rs) := Calls(f, before);
      NextAscends(g, ts);
      var (h, r) := Next(g, ts);
      AscendingSnoc(rs, r, f.lastID, g.lastID, h.lastID, f.nodeID);
    }
  }

  /** Factories on different nodes never hand out the same ID, whatever their clocks do. */
  lemma NodesNeverCollide(f: Factory, ticks: seq<int>, g: Factory, ticks': seq<int>, i: nat, j: nat)
    requires Consistent(f) && Consistent(g) && f.nodeID != g.nodeID
    requires forall ts | ts in ticks :: ValidTick(ts)
    requires forall ts | ts in ticks' :: ValidTick(ts)
    requires i < |ticks| && j < |ticks'|
    requires Calls(f, ticks).1[i].Ok? && Calls(g, ticks').1[j].Ok?
    ensures Calls(f, ticks).1[i].id != Calls(g, ticks').1[j].id
  {
    IDsIncrease(f, ticks);
    IDsIncrease(g, ticks');
  }

  /** The outcome of the call numbered `k` at one tick, counting from 0. */
  function BurstResult(node: int, ts: int, k: nat): Result {
    if k < SEQUENCES then Ok(Packed(ts, node, k))
    else if k % SEQUENCES == 0 then Err(SequenceExpired) else Err(IDBackwards)
  }

  /** The factory after `k` calls at one tick. */
  function AfterBurst(node: int, ts: int, k: nat): Factory
    requires k > 0
  {
    Factory(node, (k - 1) % SEQUENCES, ts, Packed(ts, node, if k <= SEQUENCES then k - 1 else SEQUENCES - 1))
  }

  lemma BurstStep(node: int, ts: int, k: nat)
    requires ValidNode(node) && ValidTick(ts) && k > 0
    ensures Next(AfterBurst(node, ts, k), ts) == (AfterBurst(node, ts, k + 1), BurstResult(node, ts, k))
  {
    assert ((k - 1) % SEQUENCES + 1) % SEQUENCES == k % SEQUENCES;
    Unpacks(ts, node, k % SEQUENCES);
    Unpacks(ts, node, if k <= SEQUENCES then k - 1 else SEQUENCES - 1);
  }

  lemma BurstStart(f: Factory, ts: int)
    requires Consistent(f) && ValidTick(ts) && ts > f.lastTimestamp
    ensures Next(f, ts) == (AfterBurst(f.nodeID, ts, 1), BurstResult(f.nodeID, ts, 0))
  {
    PackIsPacked(ts, f.nodeID, 0);
    Unpacks(ts, f.nodeID, 0);
  }

  /**
   Of any number of calls at one new tick exactly the first 4096 succeed, with sequence numbers
   0, 1, 2 and so on. Of those after them every 4096th reports the sequence expired; the others
   start the sequence again and fail because their IDs went backwards.
   */
  lemma {:induction false} ExactlyTheFirst4096Succeed(f: Factory, ts: int, n: nat)
    requires Consistent(f) && ValidTick(ts) && ts > f.lastTimestamp
    ensures Calls(f, Repeat(ts, n))
         == (if n == 0 then f else AfterBurst(f.nodeID, ts, n), BurstResults(f.nodeID, ts, n))
    decreases n
  {
    if n > 0 {
      ExactlyTheFirst4096Succeed(f, ts, n - 1);
      CallsSnoc(f, Repeat(ts, n - 1), ts);
      assert Repeat(ts, n) == Repeat(ts, n - 1) + [ts];
      if n == 1 {
        BurstStart(f, ts);
      } else {
        BurstStep(f.nodeID, ts, n - 1);
      }
    }
  }

  function Repeat(ts: int, n: nat): (ticks: seq<int>)
    ensures |ticks| == n && forall k | 0 <= k < n :: ticks[k] == ts
  {
    if n == 0 then [] else Repeat(ts, n - 1) + [ts]
  }

  function BurstResults(node: int, ts: int, n: nat): (rs: seq<Result>)
    ensures |rs| == n && forall k | 0 <= k < n :: rs[k] == BurstResult(node, ts, k)
  {
    if n == 0 then [] else BurstResults(node, ts, n - 1) + [BurstResult(node, ts, n - 1)]
  }

  // ---- Hex form ----

  function HexDigit(d: int): byte
    requires 0 <= d < 16
  {
    if d < 10 then 48 + d else 87 + d
  }

  function HexEncode(bs: seq<byte>): (h: seq<byte>)
    ensures |h| == 2 * |bs|
  {
    if bs == [] then []
    else HexEncode(bs[..|bs| - 1]) + [HexDigit(bs[|bs| - 1] / 16), HexDigit(bs[|bs| - 1] % 16)]
  }

  /** The 8 bytes of the int64, in hex. */
  function Hex(id: int): (h: seq<byte>)
    ensures |h| == 16
  {
    HexEncode(PutInt(id, ID_BYTES))
  }

  /** The low `width` digits of a number in base 16. */
  function Numeral(n: nat, width: nat): (t: string)
    ensures |t| == width
    decreases width
  {
    if width == 0 then "" else Numeral(n / 16, width - 1) + ["0123456789abcdef"[n % 16]]
  }

  /** Bytes that spell a text in ASCII. */
  ghost predicate Spells(bs: seq<byte>, t: string) {
    |bs| == |t| && forall i | 0 <= i < |t| :: bs[i] == t[i] as int
  }

  lemma SpellsByte(bs: seq<byte>, t: string, b: byte)
    requires Spells(bs, t)
    ensures Spells(bs + [HexDigit(b / 16), HexDigit(b % 16)],
                   t + ["0123456789abcdef"[b / 16]] + ["0123456789abcdef"[b % 16]])
  {
    HexDigitIsSpelt(b / 16);
    HexDigitIsSpelt(b % 16);
  }

  lemma HexDigitIsSpelt(d: int)
    requires 0 <= d < 16
    ensures HexDigit(d) == "0123456789abcdef"[d] as int
  {
  }

  lemma NumeralOfByte(n: nat, width: nat)
    ensures n % 256 / 16 == n / 16 % 16 && n % 256 % 16 == n % 16
    ensures Numeral(n, width + 2)
         == Numeral(n / 256, width) + ["0123456789abcdef"[n % 256 / 16]] + ["0123456789abcdef"[n % 256 % 16]]
  {
    assert n / 16 / 16 == n / 256;
  }

  lemma {:induction false} HexEncodeIsNumeral(n: nat, width: nat)
    ensures Spells(HexEncode(BigEndian(n, width)), Numeral(n, 2 * width))
    decreases width
  {
    if width > 0 {
      var bs := BigEndian(n, width);
      assert bs[..width - 1] == BigEndian(n / 256, width - 1) && bs[width - 1] == n % 256;
      HexEncodeIsNumeral(n / 256, width - 1);
      SpellsByte(HexEncode(BigEndian(n / 256, width - 1)), Numeral(n / 256, 2 * width - 2), n % 256);
      NumeralOfByte(n, 2 * width - 2);
    }
  }

  /** The text of an ID is its 16 hexadecimal digits, in lower case. */
  lemma HexIsNumeral(id: int)
    requires 0 <= id < 0x8000_0000_0000_0000
    ensures Spells(Hex(id), Numeral(id, 16))
  {
    Widths();
    ModSmall(id, Pow256(ID_BYTES));
    HexEncodeIsNumeral(id, ID_BYTES);
  }

  /** `a` and `b` agree before position `i` and `a` has the smaller byte there. */
  ghost predicate LessAt(a: seq<byte>, b: seq<byte>, i: nat) {
    i < |a| && i < |b| && a[..i] == b[..i] && a[i] < b[i]
  }

  ghost predicate LexLess(a: seq<byte>, b: seq<byte>) {
    exists i: nat :: LessAt(a, b, i)
  }

  lemma {:induction false} BigEndianOrder(n: nat, m: nat, width: nat) returns (i: nat)
    requires n < m < Pow256(width)
    ensures LessAt(BigEndian(n, width), BigEndian(m, width), i)
    decreases width
  {
    var a, b := BigEndian(n / 256, width - 1), BigEndian(m / 256, width - 1);
    assert BigEndian(n, width)[..width - 1] == a && BigEndian(m, width)[..width - 1] == b;
    if n / 256 < m / 256 {
      i := BigEndianOrder(n / 256, m / 256, width - 1);
      assert BigEndian(n, width)[..i] == a[..i] && BigEndian(m, width)[..i] == b[..i];
    } else {
      i := width - 1;
    }
  }

  lemma {:induction false} HexEncodeSplit(a: seq<byte>, i: nat)
    requires i < |a|
    ensures HexEncode(a[..i]) == HexEncode(a)[..2 * i]
    ensures HexEncode(a)[2 * i] == HexDigit(a[i] / 16) && HexEncode(a)[2 * i + 1] == HexDigit(a[i] % 16)
    decreases |a|
  {
    if i < |a| - 1 {
      HexEncodeSplit(a[..|a| - 1], i);
      assert a[..|a| - 1][..i] == a[..i];
    }
  }

  lemma LessAtNext(x: seq<byte>, y: seq<byte>, j: nat)
    requires j + 1 < |x| && j + 1 < |y|
    requires x[..j] == y[..j] && x[j] == y[j] && x[j + 1] < y[j + 1]
    ensures LessAt(x, y, j + 1)
  {
    assert x[..j + 1] == x[..j] + [x[j]];
    assert y[..j + 1] == y[..j] + [y[j]];
  }

  lemma HexEncodeOrder(a: seq<byte>, b: seq<byte>, i: nat) returns (j: nat)
    requires LessAt(a, b, i)
    ensures LessAt(HexEncode(a), HexEncode(b), j)
  {
    HexEncodeSplit(a, i);
    HexEncodeSplit(b, i);
    if a[i] / 16 < b[i] / 16 {
      j := 2 * i;
    } else {
      j := 2 * i + 1;
      LessAtNext(HexEncode(a), HexEncode(b), 2 * i);
    }
  }

  lemma HexOfOrder(g: nat, h: nat, width: nat) returns (i: nat)
    requires g < h < Pow256(width)
    ensures LessAt(HexEncode(PutInt(g, width)), HexEncode(PutInt(h, width)), i)
  {
    ModSmall(g, Pow256(width));
    ModSmall(h, Pow256(width));
    i := BigEndianOrder(g, h, width);
    i := HexEncodeOrder(BigEndian(g, width), BigEndian(h, width), i);
  }

  /** Hex turns the order of IDs into the lexicographic order of their texts. */
  lemma HexOrder(g: int, h: int)
    requires 0 <= g < h < 0x8000_0000_0000_0000
    ensures LexLess(Hex(g), Hex(h))
  {
    Widths();
    var _ := HexOfOrder(g, h, ID_BYTES);
  }

  /** Different IDs have different texts, so distinct messages have distinct message IDs. */
  lemma HexInjective(g: int, h: int)
    requires 0 <= g < 0x8000_0000_0000_0000 && 0 <= h < 0x8000_0000_0000_0000
    requires Hex(g) == Hex(h)
    ensures g == h
  {
    if g < h {
      HexOrder(g, h);
    } else if h < g {
      HexOrder(h, g);
    }
  }
}

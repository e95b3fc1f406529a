/** Publishing a batch: reading a length-prefixed list of message bodies off a connection. */
module Mpub {
  import opened Bytes
  import opened Wrappers

  datatype Error = BadBody | BadMessage
  datatype Result = Batch(bodies: seq<seq<byte>>) | Refused(error: Error)

  /** Go's integer division truncates toward zero. */
  function TruncatedQuotient(a: int, b: int): int
    requires b > 0
  {
    if a >= 0 then a / b else -((-a) / b)
  }

  /** The smallest message takes a length and one byte, the batch a count. */
  function MaxMessages(maxBodySize: int): int {
    TruncatedQuotient(maxBodySize - 4, 5)
  }

  function Record(body: seq<byte>): (r: seq<byte>)
    ensures |r| == 4 + |body|
  {
    PutInt32(|body|) + body
  }

  function Records(bodies: seq<seq<byte>>): seq<byte> {
    if bodies == [] then [] else Record(bodies[0]) + Records(bodies[1..])
  }

  /** A batch on the wire. */
  function Serialized(bodies: seq<seq<byte>>): seq<byte> {
    PutInt32(|bodies|) + Records(bodies)
  }

  predicate LegalBody(body: seq<byte>, maxMessageSize: int) {
    1 <= |body| <= maxMessageSize && |body| <= MAX_INT32
  }

  predicate Legal(bodies: seq<seq<byte>>, maxMessageSize: int, maxBodySize: int) {
    && 1 <= |bodies| <= MaxMessages(maxBodySize) && |bodies| <= MAX_INT32
    && forall i | 0 <= i < |bodies| :: LegalBody(bodies[i], maxMessageSize)
  }

  lemma {:induction false} RecordsAtLeast(bodies: seq<seq<byte>>)
    requires forall i | 0 <= i < |bodies| :: |bodies[i]| >= 1
    ensures |Records(bodies)| >= 5 * |bodies|
  {
    if bodies != [] {
      RecordsAtLeast(bodies[1..]);
    }
  }

  /** The limit on the count refuses no batch that keeps to the limit on its size. */
  lemma CountFits(bodies: seq<seq<byte>>, maxBodySize: int)
    requires forall i | 0 <= i < |bodies| :: |bodies[i]| >= 1
    requires |Serialized(bodies)| <= maxBodySize
    ensures |bodies| <= MaxMessages(maxBodySize)
  {
    RecordsAtLeast(bodies);
  }

  lemma {:induction false} RecordsSnoc(bodies: seq<seq<byte>>, body: seq<byte>)
    ensures Records(bodies + [body]) == Records(bodies) + Record(body)
  {
    if bodies == [] {
      assert [body][1..] == [];
    } else {
      assert (bodies + [body])[1..] == bodies[1..] + [body];
      RecordsSnoc(bodies[1..], body);
    }
  }

  /** What comes first in the bytes of a batch can be read back. */
  lemma FirstRecord(body: seq<byte>, rest: seq<byte>, input: seq<byte>)
    requires |body| <= MAX_INT32 && input == Record(body) + rest
    ensures |input| >= 4 + |body| && GetInt32(input[..4]) == |body|
    ensures input[4..4 + |body|] == body && input[4 + |body|..] == rest
  {
    Int32RoundTrip(|body|);
    assert input[..4] == PutInt32(|body|);
  }

  lemma RecordsHead(bodies: seq<seq<byte>>, rest: seq<byte>)
    requires bodies != []
    ensures Records(bodies) + rest == Record(bodies[0]) + (Records(bodies[1..]) + rest)
  {
  }

  /** Two readings of the same bytes agree as far as both go. */
  lemma {:induction false} OneReading(a: seq<seq<byte>>, x: seq<byte>, b: seq<seq<byte>>, y: seq<byte>)
    requires Records(a) + x == Records(b) + y && |a| <= |b|
    requires forall i | 0 <= i < |a| :: |a[i]| <= MAX_INT32
    requires forall i | 0 <= i < |b| :: |b[i]| <= MAX_INT32
    ensures a == b[..|a|] && x == Records(b[|a|..]) + y
  {
    if a == [] {
      assert b[0..] == b;
    } else {
      var input := Records(a) + x;
      RecordsHead(a, x);
      RecordsHead(b, y);
      FirstRecord(a[0], Records(a[1..]) + x, input);
      FirstRecord(b[0], Records(b[1..]) + y, input);
      OneReading(a[1..], x, b[1..], y);
      assert b[1..][|a| - 1..] == b[|a|..];
    }
  }

  ghost predicate IsBatch(input: seq<byte>, bodies: seq<seq<byte>>, rest: seq<byte>, maxMessageSize: int,
        maxBodySize: int) {
    Legal(bodies, maxMessageSize, maxBodySize) && input == Serialized(bodies) + rest
  }

  lemma FirstFour(input: seq<byte>, a: seq<byte>, b: seq<byte>, rest: seq<byte>)
    requires |a| == 4 && input == a + b + rest
    ensures |input| >= 4 && input[..4] == a && input[4..] == b + rest
  {
  }

  lemma Reassembled(input: seq<byte>, b: seq<byte>, rest: seq<byte>)
    requires |input| >= 4 && input[4..] == b + rest
    ensures input == PutInt32(GetInt32(input[..4])) + b + rest
  {
    Int32Bytes(input[..4]);
  }

  /** At most one batch can be read from an input. */
  lemma BatchIsUnique(input: seq<byte>, a: seq<seq<byte>>, x: seq<byte>, b: seq<seq<byte>>, y: seq<byte>,
                      maxMessageSize: int, maxBodySize: int)
    requires IsBatch(input, a, x, maxMessageSize, maxBodySize) && IsBatch(input, b, y, maxMessageSize, maxBodySize)
    ensures a == b && x == y
  {
    CountFirst(input, a, x);
    CountFirst(input, b, y);
    OneReading(a, x, b, y);
    assert b[|a|..] == [] && b[..|a|] == b;
  }

  lemma CountFirst(input: seq<byte>, bodies: seq<seq<byte>>, rest: seq<byte>)
    requires |bodies| <= MAX_INT32 && input == Serialized(bodies) + rest
    ensures |input| >= 4 && GetInt32(input[..4]) == |bodies| && input[4..] == Records(bodies) + rest
  {
    Int32RoundTrip(|bodies|);
    FirstFour(input, PutInt32(|bodies|), Records(bodies), rest);
  }

  /** Whatever batch an input holds, after reading part of it a legal record comes next. */
  lemma LegalRecordNext(input: seq<byte>, sofar: seq<seq<byte>>, x: seq<byte>, bodies: seq<seq<byte>>, rest: seq<byte>,
                        maxMessageSize: int, maxBodySize: int)
    requires IsBatch(input, bodies, rest, maxMessageSize, maxBodySize)
    requires |input| >= 4 && input[4..] == Records(sofar) + x
    requires |sofar| < |bodies| && forall i | 0 <= i < |sofar| :: |sofar[i]| <= MAX_INT32
    ensures |x| >= 4 && 1 <= GetInt32(x[..4]) <= maxMessageSize && |x| >= 4 + GetInt32(x[..4])
  {
    CountFirst(input, bodies, rest);
    OneReading(sofar, x, bodies, rest);
    var left := bodies[|sofar|..];
    RecordsHead(left, rest);
    FirstRecord(left[0], Records(left[1..]) + rest, x);
    assert LegalBody(bodies[|sofar|], maxMessageSize);
  }

  lemma NothingRead(x: seq<byte>)
    ensures Records([]) + x == x
  {
  }

  lemma OneMoreRead(bytes: seq<byte>, sofar: seq<seq<byte>>, x: seq<byte>, body: seq<byte>, rest: seq<byte>)
    requires bytes == Records(sofar) + x && x == Record(body) + rest
    ensures bytes == Records(sofar + [body]) + rest
  {
    RecordsSnoc(sofar, body);
  }

  ghost predicate LegalBodies(bodies: seq<seq<byte>>, maxMessageSize: int) {
    forall i | 0 <= i < |bodies| :: LegalBody(bodies[i], maxMessageSize)
  }

  lemma LegalSnoc(bodies: seq<seq<byte>>, body: seq<byte>, maxMessageSize: int)
    requires LegalBodies(bodies, maxMessageSize) && LegalBody(body, maxMessageSize)
    ensures LegalBodies(bodies + [body], maxMessageSize)
  {
  }

  lemma BatchRead(input: seq<byte>, bodies: seq<seq<byte>>, rest: seq<byte>, maxMessageSize: int, maxBodySize: int)
    requires |input| >= 4 && input[4..] == Records(bodies) + rest
    requires |bodies| == GetInt32(input[..4]) && 1 <= |bodies| <= MaxMessages(maxBodySize)
    requires forall k | 0 <= k < |bodies| :: LegalBody(bodies[k], maxMessageSize)
    ensures IsBatch(input, bodies, rest, maxMessageSize, maxBodySize)
  {
    Reassembled(input, Records(bodies), rest);
  }

  ghost predicate Unreadable(input: seq<byte>, maxMessageSize: int, maxBodySize: int) {
    forall bodies, rest :: !IsBatch(input, bodies, rest, maxMessageSize, maxBodySize)
  }

  /** The count is missing or out of range. */
  predicate BadCount(input: seq<byte>, maxBodySize: int) {
    |input| < 4 || GetInt32(input[..4]) <= 0 || GetInt32(input[..4]) > MaxMessages(maxBodySize)
  }

  predicate BadRecord(x: seq<byte>, maxMessageSize: int) {
    |x| < 4 || GetInt32(x[..4]) <= 0 || GetInt32(x[..4]) > maxMessageSize || |x| < 4 + GetInt32(x[..4])
  }

  lemma BadCountUnreadable(input: seq<byte>, maxMessageSize: int, maxBodySize: int)
    requires BadCount(input, maxBodySize)
    ensures Unreadable(input, maxMessageSize, maxBodySize)
  {
    forall bodies, rest ensures !IsBatch(input, bodies, rest, maxMessageSize, maxBodySize) {
      if IsBatch(input, bodies, rest, maxMessageSize, maxBodySize) {
        CountFirst(input, bodies, rest);
        assert false;
      }
    }
  }

  lemma BadRecordUnreadable(input: seq<byte>, sofar: seq<seq<byte>>, x: seq<byte>, maxMessageSize: int,
        maxBodySize: int)
    requires |input| >= 4 && input[4..] == Records(sofar) + x && |sofar| < GetInt32(input[..4])
    requires forall i | 0 <= i < |sofar| :: |sofar[i]| <= MAX_INT32
    requires BadRecord(x, maxMessageSize)
    ensures Unreadable(input, maxMessageSize, maxBodySize)
  {
    forall bodies, rest ensures !IsBatch(input, bodies, rest, maxMessageSize, maxBodySize) {
      if IsBatch(input, bodies, rest, maxMessageSize, maxBodySize) {
        CountFirst(input, bodies, rest);
        LegalRecordNext(input, sofar, x, bodies, rest, maxMessageSize, maxBodySize);
        assert false;
      }
    }
  }

  /** A connection, with what is still to be read from it. */
  class Reader {
    var input: seq<byte>

    constructor (input: seq<byte>)
      ensures this.input == input
    {
      this.input := input;
    }

    /** If there are fewer than `n` bytes they are consumed all the same. */
    method ReadFull(n: nat) returns (bytes: Option<seq<byte>>)
      modifies this
      ensures bytes == if |old(input)| >= n then Some(old(input)[..n]) else None
      ensures input == if |old(input)| >= n then old(input)[n..] else []
    {
      if |input| < n {
        input := [];
        return None;
      }
      bytes := Some(input[..n]);
      input := input[n..];
    }

    method ReadLen() returns (n: Option<int>)
      modifies this
      ensures n == if |old(input)| >= 4 then Some(GetInt32(old(input)[..4])) else None
      ensures input == if |old(input)| >= 4 then old(input)[4..] else []
    {
      var bytes := ReadFull(4);
      n := if bytes.None? then None else Some(GetInt32(bytes.value));
    }

    method ReadRecord(maxMessageSize: int) returns (body: Option<seq<byte>>)
      modifies this
      ensures body.None? <==> BadRecord(old(input), maxMessageSize)
      ensures body.Some? ==> old(input) == Record(body.value) + input && LegalBody(body.value, maxMessageSize)
    {
      ghost var x := input;
      var messageSize := ReadLen();
      if messageSize.None? || messageSize.value <= 0 || messageSize.value > maxMessageSize {
        return None;
      }
      body := ReadFull(messageSize.value);
      if body.Some? {
        Reassembled(x, body.value, input);
      }
    }

    /**
     A batch is read exactly if the input starts with one that keeps to the limits; then its bodies are returned
     and just its bytes are consumed.
     */
    method ReadMPUB(maxMessageSize: int, maxBodySize: int) returns (result: Result)
      modifies this
      ensures match result
              case Batch(bodies) => IsBatch(old(input), bodies, input, maxMessageSize, maxBodySize)
              case Refused(_) => Unreadable(old(input), maxMessageSize, maxBodySize)
      ensures result == Refused(BadBody) <==> BadCount(old(input), maxBodySize)
    {
      ghost var start := input;
      var numMessages := ReadLen();
      var maxMessages := MaxMessages(maxBodySize);
      if numMessages.None? || numMessages.value <= 0 || numMessages.value > maxMessages {
        BadCountUnreadable(start, maxMessageSize, maxBodySize);
        return Refused(BadBody);
      }
      var messages: seq<seq<byte>> := [];
      NothingRead(input);
      for i := 0 to numMessages.value
        invariant |messages| == i && start[4..] == Records(messages) + input
        invariant LegalBodies(messages, maxMessageSize)
      {
        ghost var x := input;
        var msgBody := ReadRecord(maxMessageSize);
        if msgBody.None? {
          BadRecordUnreadable(start, messages, x, maxMessageSize, maxBodySize);
          return Refused(BadMessage);
        }
        OneMoreRead(start[4..], messages, x, msgBody.value, input);
        LegalSnoc(messages, msgBody.value, maxMessageSize);
        messages := messages + [msgBody.value];
      }
      BatchRead(start, messages, input, maxMessageSize, maxBodySize);
      result := Batch(messages);
    }

    /**
     The command. The size it declares is checked against the limit, but not against the batch: the reader ends
     where the declared size says exactly if that is the size of the batch.
     */
    method MPUB(maxMessageSize: int, maxBodySize: int) returns (result: Result)
      modifies this
      ensures result.Batch? ==>
                && |old(input)| >= 4 && 1 <= GetInt32(old(input)[..4]) <= maxBodySize
                && IsBatch(old(input)[4..], result.bodies, input, maxMessageSize, maxBodySize)
                && (input == old(input)[4 + |Serialized(result.bodies)|..])
      ensures result.Refused? ==>
                || |old(input)| < 4 || GetInt32(old(input)[..4]) <= 0 || GetInt32(old(input)[..4]) > maxBodySize
                || Unreadable(old(input)[4..], maxMessageSize, maxBodySize)
      ensures result == Refused(BadBody) <==>
                || |old(input)| < 4 || GetInt32(old(input)[..4]) <= 0 || GetInt32(old(input)[..4]) > maxBodySize
                || BadCount(old(input)[4..], maxBodySize)
    {
      var bodyLen := ReadLen();
      if bodyLen.None? || bodyLen.value <= 0 || bodyLen.value > maxBodySize {
        return Refused(BadBody);
      }
      result := ReadMPUB(maxMessageSize, maxBodySize);
    }
  }

  /** Reading what was written: the same bodies come back, whatever size was declared, and whatever follows is left. */
  method RoundTrip(bodies: seq<seq<byte>>, declared: int, rest: seq<byte>, maxMessageSize: int, maxBodySize: int)
    returns (result: Result, left: seq<byte>)
    requires |bodies| >= 1 && forall i | 0 <= i < |bodies| :: LegalBody(bodies[i], maxMessageSize)
    requires |bodies| <= MAX_INT32 && |Serialized(bodies)| <= maxBodySize
    requires 1 <= declared <= maxBodySize && declared <= MAX_INT32
    ensures result == Batch(bodies) && left == rest
  {
    var input := PutInt32(declared) + Serialized(bodies) + rest;
    Int32RoundTrip(declared);
    assert input[..4] == PutInt32(declared) && input[4..] == Serialized(bodies) + rest;
    CountFits(bodies, maxBodySize);
    assert IsBatch(input[4..], bodies, rest, maxMessageSize, maxBodySize);
    var reader := new Reader(input);
    result := reader.MPUB(maxMessageSize, maxBodySize);
    left := reader.input;
    BatchIsUnique(input[4..], bodies, rest, result.bodies, left, maxMessageSize, maxBodySize);
  }

  function Least(a: int, b: int): int {
    if a <= b then a else b
  }

  lemma OneMoreTimes(k: nat, size: nat)
    ensures (k + 1) * size == size + k * size
  {
  }

  /** No batch is larger than as many messages as allowed, each as large as allowed. */
  lemma {:induction false} RecordsAtMost(bodies: seq<seq<byte>>, size: nat)
    requires forall i | 0 <= i < |bodies| :: |bodies[i]| <= size
    ensures |Records(bodies)| <= |bodies| * (4 + size)
  {
    if bodies != [] {
      RecordsAtMost(bodies[1..], size);
      OneMoreTimes(|bodies| - 1, 4 + size);
    }
  }

  function Copies(body: seq<byte>, n: nat): (bodies: seq<seq<byte>>)
    ensures |bodies| == n && forall i | 0 <= i < n :: bodies[i] == body
  {
    if n == 0 then [] else [body] + Copies(body, n - 1)
  }

  lemma {:induction false} CopiesSize(body: seq<byte>, n: nat)
    ensures |Records(Copies(body, n))| == n * (4 + |body|)
  {
    if n > 0 {
      CopiesSize(body, n - 1);
      assert Copies(body, n)[1..] == Copies(body, n - 1);
      OneMoreTimes(n - 1, 4 + |body|);
    }
  }

  /** The limit on the count is the number of messages of one byte that fit into the limit on the size. */
  lemma CountLimitIsTight(b: byte, n: nat, maxBodySize: int)
    requires n >= 1
    ensures |Serialized(Copies([b], n))| <= maxBodySize <==> n <= MaxMessages(maxBodySize)
  {
    CopiesSize([b], n);
  }

  lemma MoreIsLarger(a: nat, b: nat, size: nat)
    requires a <= b
    ensures a * size <= b * size
  {
  }

  /**
   A batch over the limit on its size is accepted for some bodies, if and only if as many messages as the
   count allows, each as large as a message may be, exceed the limit.
   */
  lemma OversizeIsLegal(maxMessageSize: int, maxBodySize: int)
    ensures (exists bodies :: Legal(bodies, maxMessageSize, maxBodySize) && |Serialized(bodies)| > maxBodySize) <==>
            var n, size := Least(MaxMessages(maxBodySize), MAX_INT32), Least(maxMessageSize, MAX_INT32);
            n >= 1 && size >= 1 && 4 + n * (4 + size) > maxBodySize
  {
    var n, size := Least(MaxMessages(maxBodySize), MAX_INT32), Least(maxMessageSize, MAX_INT32);
    forall bodies | Legal(bodies, maxMessageSize, maxBodySize)
      ensures n >= 1 && size >= 1 && |Serialized(bodies)| <= 4 + n * (4 + size)
    {
      assert LegalBody(bodies[0], maxMessageSize);
      RecordsAtMost(bodies, size);
      MoreIsLarger(|bodies|, n, 4 + size);
    }
    if n >= 1 && size >= 1 && 4 + n * (4 + size) > maxBodySize {
      var body: seq<byte> := seq(size, _ => 0);
      CopiesSize(body, n);
      assert Legal(Copies(body, n), maxMessageSize, maxBodySize);
    }
  }
}

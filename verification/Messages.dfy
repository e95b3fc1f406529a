/** Messages and their encoding in the backend: timestamp, attempts, ID and body. */
module Messages {
  import opened Bytes

  const ID_LENGTH: nat := 16
  const MIN_VALID_MSG_LENGTH: nat := 26

  type MessageID = id: seq<byte> | |id| == ID_LENGTH witness seq(ID_LENGTH, _ => 0)

  /** What a message is, wherever it is kept. */
  datatype Msg = Msg(ID: MessageID, Timestamp: int64, Attempts: uint16, Body: seq<byte>)

  /** A message in flight: what it is, and the bookkeeping that changes while it is out. */
  class Message {
    const Value: Msg

    var deliveryTS: int
    var clientID: int
    var pri: int
    var index: int

    constructor (value: Msg, clientID: int, deliveryTS: int, pri: int)
      ensures Value == value && this.clientID == clientID && this.deliveryTS == deliveryTS && this.pri == pri
    {
      Value := value;
      this.clientID, this.deliveryTS, this.pri, index := clientID, deliveryTS, pri, 0;
    }
  }

  /** Appends the encoding of a message to a buffer, field by field. */
  method WriteTo(m: Msg, buf: seq<byte>) returns (w: seq<byte>, total: nat)
    ensures w == buf + Encode(m)
    ensures total == |w| - |buf|
  {
    w := buf + (PutInt64(m.Timestamp) + PutUint16(m.Attempts));
    total := 10;
    w := w + m.ID;
    total := total + |m.ID|;
    w := w + m.Body;
    total := total + |m.Body|;
    assert w == buf + (PutInt64(m.Timestamp) + PutUint16(m.Attempts) + m.ID + m.Body);
  }

  function Encode(m: Msg): (b: seq<byte>)
    ensures |b| == MIN_VALID_MSG_LENGTH + |m.Body|
  {
    PutInt64(m.Timestamp) + PutUint16(m.Attempts) + m.ID + m.Body
  }

  datatype DecodeResult = Decoded(msg: Msg) | InvalidSize(size: nat)

  function Decode(b: seq<byte>): DecodeResult {
    if |b| < MIN_VALID_MSG_LENGTH then InvalidSize(|b|)
    else Decoded(Msg(b[10..26], GetInt64(b[..8]), GetUint16(b[8..10]), b[26..]))
  }

  /** Decoding an encoded message gives back every field. */
  lemma DecodeOfEncode(m: Msg)
    ensures Decode(Encode(m)) == Decoded(m)
  {
    var b, ts, attempts := Encode(m), PutInt64(m.Timestamp), PutUint16(m.Attempts);
    assert b[..8] == ts && b[8..10] == attempts && b[10..26] == m.ID && b[26..] == m.Body;
    Widths();
    Int64RoundTrip(m.Timestamp);
    Uint16RoundTrip(m.Attempts);
  }

  /** Where each field stands: 8 bytes of timestamp, 2 of attempts, high byte first, 16 of ID, and the body. */
  lemma EncodingMeans(m: Msg)
    ensures var b := Encode(m);
            && (m.Timestamp >= 0 ==> Unsigned(b[..8]) == m.Timestamp)
            && 256 * (b[8] as int) + b[9] as int == m.Attempts as int
            && b[10..26] == m.ID && b[26..] == m.Body
  {
    var b := Encode(m);
    Widths();
    UnsignedOfPutInt(m.Timestamp, 8);
    UnsignedOfPutInt(m.Attempts, 2);
    assert b[..8] == PutInt64(m.Timestamp) && b[8..10] == PutUint16(m.Attempts);
    assert b[8..10] == [b[8], b[9]] && b[8..10][..1] == [b[8]] && [b[8]][..0] == [];
  }

  /** Every buffer of at least 26 bytes is the encoding of what it decodes to; shorter ones are refused. */
  lemma EncodeOfDecode(b: seq<byte>)
    ensures Decode(b).Decoded? <==> |b| >= MIN_VALID_MSG_LENGTH
    ensures Decode(b).Decoded? ==> Encode(Decode(b).msg) == b
  {
    if |b| >= MIN_VALID_MSG_LENGTH {
      Int64Bytes(b[..8]);
      Uint16Bytes(b[8..10]);
      assert b == b[..8] + b[8..10] + b[10..26] + b[26..];
    }
  }
}

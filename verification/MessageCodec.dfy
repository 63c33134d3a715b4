/** The binary message codec: a 32-byte big-endian header followed by the payload. */
module MessageCodec {
  import opened Basics
  import opened BigEndian

  const HEADER_SIZE: nat := 32
  const MAX_DATA_SIZE: nat := 64 * 1024 * 1024 - 32

  /** A point in time: whole seconds since the epoch and the rest. */
  datatype Time = Time(sec: int64, nsec: nat)

  datatype Message = Message(
    kind: uint32,
    flags: uint32,
    sequence: uint32,
    sessionId: uint64,
    source: string,
    destination: string,
    time: Time,
    ttl: uint32,
    data: seq<byte>,
    connectionId: string)

  datatype Error = NilMessage | DataTooLarge | TooShortForHeader | TooShortForMessage

  /** Reinterpretation of an int64 as a uint64 and back. */
  function ToUnsigned(n: int64): uint64 {
    if n < 0 then n + TWO_64 else n
  }

  function ToSigned(n: uint64): int64 {
    if n >= TWO_63 then n - TWO_64 else n
  }

  /** What of a message is on the wire: routing names, TTL, sub-second time and connection id are not. */
  function Wire(m: Message): Message {
    m.(source := "", destination := "", time := Time(m.time.sec, 0), ttl := 0, connectionId := "")
  }

  function HeaderOf(m: Message): (h: seq<byte>)
    ensures |h| == HEADER_SIZE
  {
    ToBytes(4, m.kind) + ToBytes(4, m.flags) + ToBytes(4, m.sequence) + ToBytes(8, m.sessionId) +
    ToBytes(8, ToUnsigned(m.time.sec)) + ToBytes(4, |m.data| % TWO_32)
  }

  /** The encoding of a message that is not too large. */
  function Encoding(m: Message): seq<byte> {
    HeaderOf(m) + m.data
  }

  /** Fills the first 32 bytes of `buf` with the header fields. */
  method PutHeader(buf: array<byte>, m: Message, dataLen: uint32)
    requires buf.Length >= HEADER_SIZE && dataLen == |m.data| % TWO_32
    modifies buf
    ensures buf[..HEADER_SIZE] == HeaderOf(m)
  {
    Put(buf, 0, 4, m.kind);
    ghost var h := ToBytes(4, m.kind);
    assert buf[..4] == h;
    Put(buf, 4, 4, m.flags);
    h := h + ToBytes(4, m.flags);
    assert buf[..8] == h;
    Put(buf, 8, 4, m.sequence);
    h := h + ToBytes(4, m.sequence);
    assert buf[..12] == h;
    Put(buf, 12, 8, m.sessionId);
    h := h + ToBytes(8, m.sessionId);
    assert buf[..20] == h;
    Put(buf, 20, 8, ToUnsigned(m.time.sec));
    h := h + ToBytes(8, ToUnsigned(m.time.sec));
    assert buf[..28] == h;
    Put(buf, 28, 4, dataLen);
  }

  method Encode(msg: Option<Message>) returns (r: Result<seq<byte>, Error>)
    ensures msg.None? ==> r == Err(NilMessage)
    ensures msg.Some? && |msg.value.data| > MAX_DATA_SIZE ==> r == Err(DataTooLarge)
    ensures msg.Some? && |msg.value.data| <= MAX_DATA_SIZE ==> r == Ok(Encoding(msg.value))
  {
    if msg.None? { return Err(NilMessage); }
    var m := msg.value;
    var dataLen := |m.data|;
    if dataLen > MAX_DATA_SIZE { return Err(DataTooLarge); }
    var buf := new byte[HEADER_SIZE + dataLen];
    PutHeader(buf, m, dataLen);
    for i := 0 to dataLen
      invariant buf[..HEADER_SIZE] == HeaderOf(m)
      invariant buf[HEADER_SIZE..HEADER_SIZE + i] == m.data[..i]
    {
      buf[HEADER_SIZE + i] := m.data[i];
    }
    assert m.data[..dataLen] == m.data;
    assert buf[..] == buf[..HEADER_SIZE] + buf[HEADER_SIZE..HEADER_SIZE + dataLen];
    return Ok(buf[..]);
  }

  method EncodeHeader(msg: Option<Message>) returns (r: Result<seq<byte>, Error>)
    ensures msg.None? ==> r == Err(NilMessage)
    ensures msg.Some? ==> r == Ok(HeaderOf(msg.value))
  {
    if msg.None? { return Err(NilMessage); }
    var buf := new byte[HEADER_SIZE];
    PutHeader(buf, msg.value, |msg.value.data| % TWO_32);
    assert buf[..] == buf[..HEADER_SIZE];
    return Ok(buf[..]);
  }

  function Read32(s: seq<byte>): (n: uint32)
    requires |s| == 4
  {
    ToFromBytes(s);
    Widths();
    FromBytes(s)
  }

  function Read64(s: seq<byte>): (n: uint64)
    requires |s| == 8
  {
    ToFromBytes(s);
    Widths();
    FromBytes(s)
  }

  function LengthField(b: seq<byte>): uint32
    requires |b| >= HEADER_SIZE
  {
    Read32(b[28..32])
  }

  function FieldsOf(b: seq<byte>, data: seq<byte>): Message
    requires |b| >= HEADER_SIZE
  {
    Message(Read32(b[0..4]), Read32(b[4..8]), Read32(b[8..12]), Read64(b[12..20]), "", "",
            Time(ToSigned(Read64(b[20..28])), 0), 0, data, "")
  }

  function Decode(b: seq<byte>): Result<Message, Error> {
    if |b| < HEADER_SIZE then Err(TooShortForHeader)
    else if LengthField(b) > MAX_DATA_SIZE then Err(DataTooLarge)
    else if |b| < HEADER_SIZE + LengthField(b) then Err(TooShortForMessage)
    else Ok(FieldsOf(b, b[HEADER_SIZE..HEADER_SIZE + LengthField(b)]))
  }

  /** The header alone, with the payload length it announces. */
  function DecodeHeader(b: seq<byte>): Result<(Message, nat), Error> {
    if |b| < HEADER_SIZE then Err(TooShortForHeader)
    else if LengthField(b) > MAX_DATA_SIZE then Err(DataTooLarge)
    else Ok((FieldsOf(b, []), LengthField(b)))
  }

  /** Where each header field lies, whatever follows. */
  lemma HeaderSlices(m: Message, rest: seq<byte>)
    ensures var b := HeaderOf(m) + rest;
      && b[0..4] == ToBytes(4, m.kind) && b[4..8] == ToBytes(4, m.flags) && b[8..12] == ToBytes(4, m.sequence)
      && b[12..20] == ToBytes(8, m.sessionId) && b[20..28] == ToBytes(8, ToUnsigned(m.time.sec))
      && b[28..32] == ToBytes(4, |m.data| % TWO_32) && b[32..] == rest
  {
  }

  /** Reading a header back gives exactly the fields on the wire. */
  lemma HeaderRoundTrip(m: Message, rest: seq<byte>, data: seq<byte>)
    ensures FieldsOf(HeaderOf(m) + rest, data) == Wire(m).(data := data)
    ensures LengthField(HeaderOf(m) + rest) == |m.data| % TWO_32
  {
    HeaderSlices(m, rest);
    Round32(m.kind);
    Round32(m.flags);
    Round32(m.sequence);
    Round64(m.sessionId);
    Round64(ToUnsigned(m.time.sec));
    Round32(|m.data| % TWO_32);
  }

  /** Decoding an encoding, with anything after it, gives the message's wire projection. */
  lemma DecodeEncode(m: Message, rest: seq<byte>)
    requires |m.data| <= MAX_DATA_SIZE
    ensures Decode(Encoding(m) + rest) == Ok(Wire(m))
  {
    var b := HeaderOf(m) + (m.data + rest);
    assert Encoding(m) + rest == b;
    HeaderRoundTrip(m, m.data + rest, m.data);
    assert b[HEADER_SIZE..HEADER_SIZE + |m.data|] == m.data;
  }

  /** Which error Decode reports, by the buffer's length and its length field. */
  lemma DecodeErrors(b: seq<byte>)
    ensures Decode(b) == Err(TooShortForHeader) <==> |b| < 32
    ensures |b| >= 32 ==>
      var n := FromBytes(b[28..32]);
      && (Decode(b) == Err(DataTooLarge) <==> n > 67108832)
      && (Decode(b) == Err(TooShortForMessage) <==> n <= 67108832 && |b| < 32 + n)
      && (Decode(b).Ok? <==> n <= 67108832 && |b| >= 32 + n)
  {
  }

  lemma Rebuild32(s: seq<byte>)
    requires |s| == 4
    ensures ToBytes(4, Read32(s)) == s
  {
    ToFromBytes(s);
  }

  lemma Rebuild64(s: seq<byte>)
    requires |s| == 8
    ensures ToBytes(8, Read64(s)) == s
    ensures ToBytes(8, ToUnsigned(ToSigned(Read64(s)))) == s
  {
    ToFromBytes(s);
  }

  /** Each field read from a buffer is written as the bytes it was read from. */
  lemma FieldsRebuild(b: seq<byte>, m: Message)
    requires |b| >= HEADER_SIZE && m == FieldsOf(b, m.data)
    ensures ToBytes(4, m.kind) == b[0..4] && ToBytes(4, m.flags) == b[4..8] && ToBytes(4, m.sequence) == b[8..12]
    ensures ToBytes(8, m.sessionId) == b[12..20] && ToBytes(8, ToUnsigned(m.time.sec)) == b[20..28]
  {
    Rebuild32(b[0..4]);
    Rebuild32(b[4..8]);
    Rebuild32(b[8..12]);
    Rebuild64(b[12..20]);
    Rebuild64(b[20..28]);
  }

  lemma FitsWord(n: nat)
    requires n < TWO_32
    ensures n % TWO_32 == n
  {
  }

  lemma LengthRebuilds(b: seq<byte>, n: nat)
    requires |b| >= HEADER_SIZE && n == LengthField(b)
    ensures ToBytes(4, n % TWO_32) == b[28..32]
  {
    Rebuild32(b[28..32]);
    FitsWord(n);
  }

  /** Writing the header fields read from a buffer gives back the buffer's first 32 bytes. */
  lemma HeaderRebuild(b: seq<byte>, data: seq<byte>)
    requires |b| >= HEADER_SIZE && |data| == LengthField(b)
    ensures HeaderOf(FieldsOf(b, data)) == b[..HEADER_SIZE]
  {
    FieldsRebuild(b, FieldsOf(b, data));
    LengthRebuilds(b, |data|);
    JoinFields(b, b[0..4], b[4..8], b[8..12], b[12..20], b[20..28], b[28..32]);
  }

  /** Whatever Decode accepts is the encoding of what it returns, followed by unread bytes. */
  lemma EncodeDecode(b: seq<byte>)
    requires Decode(b).Ok?
    ensures var m := Decode(b).value; |m.data| <= MAX_DATA_SIZE && Encoding(m) == b[..HEADER_SIZE + |m.data|] && Wire(m) == m
  {
    var m := Decode(b).value;
    HeaderRebuild(b, m.data);
    JoinData(b, |m.data|);
  }

  lemma JoinData(b: seq<byte>, n: nat)
    requires HEADER_SIZE + n <= |b|
    ensures b[..HEADER_SIZE] + b[HEADER_SIZE..HEADER_SIZE + n] == b[..HEADER_SIZE + n]
  {
  }

  lemma JoinFields(b: seq<byte>, kind: seq<byte>, flags: seq<byte>, sequence: seq<byte>, session: seq<byte>, sec: seq<byte>,
                   length: seq<byte>)
    requires |b| >= HEADER_SIZE && kind == b[0..4] && flags == b[4..8] && sequence == b[8..12] && session == b[12..20]
    requires sec == b[20..28] && length == b[28..32]
    ensures kind + flags + sequence + session + sec + length == b[..HEADER_SIZE]
  {
    assert kind + flags == b[..8];
    assert b[..8] + sequence == b[..12];
    assert b[..12] + session == b[..20];
    assert b[..20] + sec == b[..28];
  }
}

/** Reading framed messages from a byte stream that arrives in arbitrary chunks. */
module TcpConnection {
  import opened Basics
  import opened Sequences
  import opened BigEndian
  import opened MessageCodec

  datatype ReadError = ConnectionClosed | HeaderUnread | HeaderInvalid | DataUnread

  /** Taking `k` bytes off the first chunk takes them off the stream. */
  lemma FlattenTake(chunks: seq<seq<byte>>, k: nat)
    requires chunks != [] && k <= |chunks[0]|
    ensures k <= |Flatten(chunks)| && Flatten(chunks)[..k] == chunks[0][..k]
    ensures Flatten(chunks)[k..] == Flatten(if k == |chunks[0]| then chunks[1..] else [chunks[0][k..]] + chunks[1..])
  {
    if k < |chunks[0]| {
      var left := [chunks[0][k..]] + chunks[1..];
      assert left[1..] == chunks[1..];
    }
  }

  /** What one ReadMessage on an open connection makes of the bytes still to come: a message or an error, and the rest. */
  function ReadOne(id: string, stream: seq<byte>): (Result<Message, ReadError>, seq<byte>) {
    if |stream| < HEADER_SIZE then (Err(HeaderUnread), [])
    else
      var rest := stream[HEADER_SIZE..];
      match DecodeHeader(stream[..HEADER_SIZE])
      case Err(_) => (Err(HeaderInvalid), rest)
      case Ok((m, n)) =>
        if |rest| < n then (Err(DataUnread), [])
        else (Ok(m.(data := rest[..n], connectionId := id)), rest[n..])
  }

  datatype Reading = Reading(msgs: seq<Message>, error: ReadError)

  /** All messages read until the first error, and that error. */
  function ReadAll(id: string, stream: seq<byte>): Reading
    decreases |stream|
  {
    var (r, rest) := ReadOne(id, stream);
    match r
    case Err(e) => Reading([], e)
    case Ok(m) => Prepend([m], ReadAll(id, rest))
  }

  function Prepend(ms: seq<Message>, r: Reading): Reading {
    Reading(ms + r.msgs, r.error)
  }

  function EncodeAll(ms: seq<Message>): seq<byte> {
    if ms == [] then [] else Encoding(ms[0]) + EncodeAll(ms[1..])
  }

  /** The messages as the reading side sees them. */
  function Arrivals(id: string, ms: seq<Message>): (r: seq<Message>)
    ensures |r| == |ms| && forall i :: 0 <= i < |ms| ==> r[i] == Wire(ms[i]).(connectionId := id)
  {
    seq(|ms|, i requires 0 <= i < |ms| => Wire(ms[i]).(connectionId := id))
  }

  lemma ArrivalsCons(id: string, ms: seq<Message>)
    requires ms != []
    ensures Arrivals(id, ms) == [Wire(ms[0]).(connectionId := id)] + Arrivals(id, ms[1..])
  {
  }

  lemma EncodeAllCons(ms: seq<Message>, tail: seq<byte>)
    requires ms != []
    ensures EncodeAll(ms) + tail == Encoding(ms[0]) + (EncodeAll(ms[1..]) + tail)
  {
    Associative(Encoding(ms[0]), EncodeAll(ms[1..]), tail);
  }

  lemma Associative<T>(a: seq<T>, b: seq<T>, c: seq<T>)
    ensures a + b + c == a + (b + c)
  {
  }

  lemma PrependTwice(a: seq<Message>, b: seq<Message>, r: Reading)
    ensures Prepend(a, Prepend(b, r)) == Prepend(a + b, r)
  {
    assert a + (b + r.msgs) == a + b + r.msgs;
  }

  /** How a read of one message ends, in terms of the bytes to come: the length field alone decides whether a header is
      refused, and exactly the announced bytes are taken. */
  lemma ReadOneExactly(id: string, stream: seq<byte>)
    ensures var (r, rest) := ReadOne(id, stream);
      && (r == Err(HeaderUnread) <==> |stream| < 32)
      && (|stream| >= 32 ==>
            var n := FromBytes(stream[28..32]);
            && (r == Err(HeaderInvalid) <==> n > 67108832)
            && (r == Err(DataUnread) <==> n <= 67108832 && |stream| < 32 + n)
            && (r.Ok? <==> n <= 67108832 && |stream| >= 32 + n)
            && (r.Ok? ==> r.value.data == stream[32..32 + n] && rest == stream[32 + n..] && r.value.connectionId == id))
      && (r.Err? ==> rest == if r.error.HeaderInvalid? then stream[32..] else [])
  {
    if |stream| >= 32 {
      assert stream[..HEADER_SIZE][28..32] == stream[28..32];
      var n: nat := LengthField(stream[..HEADER_SIZE]) as nat;
      if |stream| >= 32 + n { SliceTwice(stream, n); }
    }
  }

  lemma SliceTwice(s: seq<byte>, n: nat)
    requires 32 + n <= |s|
    ensures s[32..][..n] == s[32..32 + n] && s[32..][n..] == s[32 + n..]
  {
  }

  /** One more read of what was still to be read ends the reading or adds a message. */
  lemma ReadOneMore(all: Reading, ms: seq<Message>, now: Reading, r: Result<Message, ReadError>, next: Reading)
    requires all == Prepend(ms, now) && now == match r case Err(e) => Reading([], e) case Ok(m) => Prepend([m], next)
    ensures all == match r case Err(e) => Reading(ms, e) case Ok(m) => Prepend(ms + [m], next)
  {
    if r.Err? {
      assert ms + [] == ms;
    } else {
      PrependTwice(ms, [r.value], next);
    }
  }

  lemma ReadAllUnfold(id: string, stream: seq<byte>)
    ensures var (r, rest) := ReadOne(id, stream);
      && ReadAll(id, stream) == (match r case Err(e) => Reading([], e) case Ok(m) => Prepend([m], ReadAll(id, rest)))
      && (r.Ok? ==> |rest| < |stream|)
  {
  }

  lemma ReadOneEncoding(id: string, m: Message, tail: seq<byte>)
    requires |m.data| <= MAX_DATA_SIZE
    ensures ReadOne(id, Encoding(m) + tail) == (Ok(Wire(m).(connectionId := id)), tail)
  {
    EncodingSlices(HeaderOf(m), m.data, tail);
    assert HeaderOf(m) + [] == HeaderOf(m);
    HeaderRoundTrip(m, [], []);
  }

  lemma EncodingSlices(header: seq<byte>, data: seq<byte>, tail: seq<byte>)
    ensures var stream := header + data + tail;
      && stream[..|header|] == header && stream[|header|..] == data + tail
      && (data + tail)[..|data|] == data && (data + tail)[|data|..] == tail
  {
  }

  /** Reading the concatenated encodings of any messages gives exactly their wire projections, in order, and then
      whatever the remaining bytes give. */
  lemma {:induction false} FramingRoundTrip(id: string, ms: seq<Message>, tail: seq<byte>)
    requires forall i :: 0 <= i < |ms| ==> |ms[i].data| <= MAX_DATA_SIZE
    ensures ReadAll(id, EncodeAll(ms) + tail) == Prepend(Arrivals(id, ms), ReadAll(id, tail))
  {
    if ms == [] {
      assert EncodeAll(ms) + tail == tail;
      assert Prepend(Arrivals(id, ms), ReadAll(id, tail)) == ReadAll(id, tail);
    } else {
      var later := EncodeAll(ms[1..]) + tail;
      EncodeAllCons(ms, tail);
      ReadOneEncoding(id, ms[0], later);
      var first := Wire(ms[0]).(connectionId := id);
      ReadAllUnfold(id, Encoding(ms[0]) + later);
      FramingRoundTrip(id, ms[1..], tail);
      ArrivalsCons(id, ms);
      PrependTwice([first], Arrivals(id, ms[1..]), ReadAll(id, tail));
    }
  }

  /** Nothing but the messages: the reader then stops at the end of the stream. */
  lemma FramingExact(id: string, ms: seq<Message>)
    requires forall i :: 0 <= i < |ms| ==> |ms[i].data| <= MAX_DATA_SIZE
    ensures ReadAll(id, EncodeAll(ms)) == Reading(Arrivals(id, ms), HeaderUnread)
  {
    FramingRoundTrip(id, ms, []);
    assert EncodeAll(ms) + [] == EncodeAll(ms);
    assert Arrivals(id, ms) + [] == Arrivals(id, ms);
  }

  class TcpConnection {
    const id: string
    var closed: bool
    /** What the socket will deliver, one element per Read at most; none of them empty. */
    var incoming: seq<seq<byte>>
    var bytesRead: nat
    var messagesRead: nat

    ghost predicate Valid()
      reads this
    {
      forall i :: 0 <= i < |incoming| ==> incoming[i] != []
    }

    ghost function Stream(): seq<byte>
      reads this
    {
      Flatten(incoming)
    }

    constructor (id: string, incoming: seq<seq<byte>>)
      requires forall i :: 0 <= i < |incoming| ==> incoming[i] != []
      ensures Valid() && this.id == id && !closed && this.incoming == incoming && bytesRead == messagesRead == 0
    {
      this.id, this.incoming := id, incoming;
      closed, bytesRead, messagesRead := false, 0, 0;
    }

    /** One socket Read into buf[from..]: as much of the next chunk as fits, or None at the end of the stream. */
    method Read(buf: array<byte>, from: nat) returns (n: Option<nat>)
      requires Valid() && from < buf.Length
      modifies this`incoming, buf
      ensures Valid()
      ensures n.None? <==> old(Stream()) == []
      ensures n.None? ==> Stream() == []
      ensures n.Some? ==> 0 < n.value <= buf.Length - from && n.value <= |old(Stream())|
      ensures n.Some? ==> buf[from..from + n.value] == old(Stream())[..n.value] && Stream() == old(Stream())[n.value..]
      ensures buf[..from] == old(buf[..from])
    {
      if incoming == [] { return None; }
      var chunk := incoming[0];
      var k := if |chunk| <= buf.Length - from then |chunk| else buf.Length - from;
      forall i | 0 <= i < k {
        buf[from + i] := chunk[i];
      }
      assert buf[from..from + k] == chunk[..k];
      FlattenTake(incoming, k);
      incoming := if k == |chunk| then incoming[1..] else [chunk[k..]] + incoming[1..];
      return Some(k);
    }

    /** Reads until `buf` is full; fails exactly when the stream ends before. */
    method ReadFull(buf: array<byte>) returns (ok: bool)
      requires Valid()
      modifies this`incoming, this`bytesRead, buf
      ensures Valid()
      ensures ok <==> |old(Stream())| >= buf.Length
      ensures ok ==> buf[..] == old(Stream())[..buf.Length] && Stream() == old(Stream())[buf.Length..]
      ensures ok ==> bytesRead == old(bytesRead) + buf.Length
      ensures !ok ==> Stream() == [] && bytesRead == old(bytesRead) + |old(Stream())|
    {
      var total := 0;
      while total < buf.Length
        invariant 0 <= total <= buf.Length && total <= |old(Stream())|
        invariant Valid()
        invariant Stream() == old(Stream())[total..]
        invariant buf[..total] == old(Stream())[..total]
        invariant bytesRead == old(bytesRead) + total
      {
        var n := Read(buf, total);
        if n.None? { return false; }
        assert buf[..total + n.value] == buf[..total] + buf[total..total + n.value];
        total := total + n.value;
        bytesRead := bytesRead + n.value;
      }
      assert buf[..] == buf[..total];
      return true;
    }

    /** Reads one message; depends on the bytes only, not on how they were chunked. */
    method ReadMessage() returns (r: Result<Message, ReadError>)
      requires Valid()
      modifies this`incoming, this`bytesRead, this`messagesRead
      ensures Valid()
      ensures closed ==> r == Err(ConnectionClosed) && Stream() == old(Stream()) && bytesRead == old(bytesRead)
      ensures !closed ==> (r, Stream()) == ReadOne(id, old(Stream())) && bytesRead == old(bytesRead) + |old(Stream())| - |Stream()|
      ensures messagesRead == old(messagesRead) + if r.Ok? then 1 else 0
    {
      if closed { return Err(ConnectionClosed); }
      var headerBuf := new byte[HEADER_SIZE];
      var ok := ReadFull(headerBuf);
      if !ok { return Err(HeaderUnread); }
      var header := DecodeHeader(headerBuf[..]);
      if header.Err? { return Err(HeaderInvalid); }
      var (m, n) := header.value;
      if n > 0 {
        var dataBuf := new byte[n];
        ok := ReadFull(dataBuf);
        if !ok { return Err(DataUnread); }
        m := m.(data := dataBuf[..]);
      }
      messagesRead := messagesRead + 1;
      return Ok(m.(connectionId := id));
    }

    /** The server's loop over one connection: reads messages until the first error, or until it sees the shutdown
        after `shutdown` messages. */
    method Serve(shutdown: Option<nat>) returns (ms: seq<Message>, error: Option<ReadError>)
      requires Valid() && !closed
      modifies this`incoming, this`bytesRead, this`messagesRead
      ensures Valid() && messagesRead == old(messagesRead) + |ms|
      ensures error.Some? ==> Reading(ms, error.value) == ReadAll(id, old(Stream()))
      ensures error.None? ==> ReadAll(id, old(Stream())) == Prepend(ms, ReadAll(id, Stream()))
      ensures (shutdown.Some? ==> |ms| <= shutdown.value) && (error.None? <==> shutdown == Some(|ms|))
    {
      ms := [];
      ghost var all := ReadAll(id, Stream());
      ghost var now := all;
      assert all == Prepend(ms, now);
      while shutdown != Some(|ms|)
        invariant Valid() && messagesRead == old(messagesRead) + |ms|
        invariant now == ReadAll(id, Stream()) && all == Prepend(ms, now)
        invariant shutdown.Some? ==> |ms| <= shutdown.value
        decreases |Stream()|
      {
        ReadAllUnfold(id, Stream());
        var r := ReadMessage();
        ReadOneMore(all, ms, now, r, ReadAll(id, Stream()));
        now := ReadAll(id, Stream());
        if r.Err? {
          return ms, Some(r.error);
        }
        ms := ms + [r.value];
      }
      return ms, None;
    }
  }

  /** However the encodings of `ms` are cut into chunks, the server loop reads exactly `ms` as they look on the wire. */
  method ReceiveAll(id: string, ms: seq<Message>, chunks: seq<seq<byte>>) returns (received: seq<Message>)
    requires forall i :: 0 <= i < |ms| ==> |ms[i].data| <= MAX_DATA_SIZE
    requires forall i :: 0 <= i < |chunks| ==> chunks[i] != []
    requires Flatten(chunks) == EncodeAll(ms)
    ensures received == Arrivals(id, ms)
  {
    var conn := new TcpConnection(id, chunks);
    var error;
    received, error := conn.Serve(None);
    FramingExact(id, ms);
  }
}

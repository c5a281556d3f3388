/**
 * The binary wire format of the speed-enforcement service: the four inbound
 * messages a client may send, and the Ticket, Error and Heartbeat messages
 * the server writes. Every integer is big-endian and unsigned; a string is a
 * one-byte length followed by that many bytes.
 */
module FlockWire {
  import opened Wrappers
  import opened Bytes

  const TAG_ERROR: u8 := 0x10
  const TAG_PLATE: u8 := 0x20
  const TAG_TICKET: u8 := 0x21
  const TAG_WANT_HEARTBEAT: u8 := 0x40
  const TAG_HEARTBEAT: u8 := 0x41
  const TAG_I_AM_CAMERA: u8 := 0x80
  const TAG_I_AM_DISPATCHER: u8 := 0x81

  datatype Inbound =
    | Plate(plate: seq<u8>, timestamp: u32)
    | WantHeartbeat(interval: u32)
    | IAmCamera(road: u16, mile: u16, limit: u16)
    | IAmDispatcher(roads: seq<u16>)

  /**
   * What one call of `read_message` yields: no message (the stream ended at a
   * message boundary), a message together with the number of bytes it took,
   * an `InvalidData` error (unknown tag) or an `UnexpectedEof` error (the
   * stream ended inside a message).
   */
  datatype ReadResult = NoMessage | Message(msg: Inbound, size: nat) | InvalidData | UnexpectedEof

  /** A message a client can actually put on the wire: its counted fields fit in one byte. */
  predicate WellFormed(m: Inbound)
  {
    match m
    case Plate(plate, _) => |plate| < 0x100
    case IAmDispatcher(roads) => |roads| < 0x100
    case _ => true
  }

  function EncodeRoads(roads: seq<u16>): (b: seq<u8>)
    ensures |b| == 2 * |roads|
  {
    if roads == [] then [] else U16ToBe(roads[0]) + EncodeRoads(roads[1..])
  }

  /** Reads `|b| / 2` big-endian road numbers, in wire order (`chunks_exact(2)`). */
  function DecodeRoads(b: seq<u8>): (roads: seq<u16>)
    requires |b| % 2 == 0
    ensures |roads| == |b| / 2
    ensures forall i :: 0 <= i < |roads| ==> roads[i] == U16FromBe(b[2 * i..2 * i + 2])
  {
    if b == [] then []
    else
      var rest := DecodeRoads(b[2..]);
      PairsShift(b);
      [U16FromBe(b[..2])] + rest
  }

  /** The pairs of `b[2..]` are the pairs of `b` after the first. */
  lemma PairsShift(b: seq<u8>)
    requires |b| >= 2
    ensures forall i :: 1 <= i && 2 * i + 2 <= |b| ==> b[2 * i..2 * i + 2] == b[2..][2 * (i - 1)..2 * (i - 1) + 2]
  {
    forall i | 1 <= i && 2 * i + 2 <= |b| ensures b[2 * i..2 * i + 2] == b[2..][2 * (i - 1)..2 * (i - 1) + 2] {
      var x, y := b[2 * i..2 * i + 2], b[2..][2 * (i - 1)..2 * (i - 1) + 2];
      assert |x| == 2 && |y| == 2 && x[0] == y[0] && x[1] == y[1];
    }
  }

  lemma {:induction false} RoadsRoundTrip(roads: seq<u16>)
    ensures DecodeRoads(EncodeRoads(roads)) == roads
  {
    if roads != [] {
      var b := EncodeRoads(roads);
      assert b[2..] == EncodeRoads(roads[1..]);
      RoadsRoundTrip(roads[1..]);
      U16RoundTrip(roads[0], b[..2]);
    }
  }

  /** How a client encodes a message: the reference the decoder is checked against. */
  function Encode(m: Inbound): (b: seq<u8>)
    requires WellFormed(m)
  {
    match m
    case Plate(plate, timestamp) => [TAG_PLATE, |plate|] + plate + U32ToBe(timestamp)
    case WantHeartbeat(interval) => [TAG_WANT_HEARTBEAT] + U32ToBe(interval)
    case IAmCamera(road, mile, limit) => [TAG_I_AM_CAMERA] + U16ToBe(road) + U16ToBe(mile) + U16ToBe(limit)
    case IAmDispatcher(roads) => [TAG_I_AM_DISPATCHER, |roads|] + EncodeRoads(roads)
  }

  /**
   * `read_message` on a stream whose remaining bytes are `s`: dispatch on the
   * tag byte, then read the payload field by field.
   */
  function Decode(s: seq<u8>): (r: ReadResult)
    ensures r == NoMessage <==> s == []
    ensures r == InvalidData <==> s != [] && s[0] !in {TAG_PLATE, TAG_WANT_HEARTBEAT, TAG_I_AM_CAMERA, TAG_I_AM_DISPATCHER}
    ensures r.Message? ==> 0 < r.size <= |s|
  {
    if s == [] then NoMessage
    else if s[0] == TAG_PLATE then
      if |s| < 2 || |s| < 2 + (s[1] as int) + 4 then UnexpectedEof
      else
        var n: int := s[1];
        Message(Plate(s[2..2 + n], U32FromBe(s[2 + n..6 + n])), 6 + n)
    else if s[0] == TAG_WANT_HEARTBEAT then
      if |s| < 5 then UnexpectedEof
      else Message(WantHeartbeat(U32FromBe(s[1..5])), 5)
    else if s[0] == TAG_I_AM_CAMERA then
      if |s| < 7 then UnexpectedEof
      else Message(IAmCamera(U16FromBe(s[1..3]), U16FromBe(s[3..5]), U16FromBe(s[5..7])), 7)
    else if s[0] == TAG_I_AM_DISPATCHER then
      if |s| < 2 || |s| < 2 + 2 * (s[1] as int) then UnexpectedEof
      else
        var n: int := s[1];
        Message(IAmDispatcher(DecodeRoads(s[2..2 + 2 * n])), 2 + 2 * n)
    else InvalidData
  }

  /** Decoding what a client encoded gives back the message, whatever follows it on the stream. */
  lemma DecodeEncode(m: Inbound, rest: seq<u8>)
    requires WellFormed(m)
    ensures Decode(Encode(m) + rest) == Message(m, |Encode(m)|)
  {
    match m {
      case Plate(plate, timestamp) => DecodeEncodePlate(plate, timestamp, rest);
      case WantHeartbeat(interval) => DecodeEncodeWantHeartbeat(interval, rest);
      case IAmCamera(road, mile, limit) => DecodeEncodeIAmCamera(road, mile, limit, rest);
      case IAmDispatcher(roads) => DecodeEncodeIAmDispatcher(roads, rest);
    }
  }

  lemma DecodeEncodePlate(plate: seq<u8>, timestamp: u32, rest: seq<u8>)
    requires |plate| < 0x100
    ensures Decode(Encode(Plate(plate, timestamp)) + rest) == Message(Plate(plate, timestamp), 6 + |plate|)
  {
    var s := Encode(Plate(plate, timestamp)) + rest;
    assert s[2..2 + |plate|] == plate;
    assert s[2 + |plate|..6 + |plate|] == U32ToBe(timestamp);
    U32RoundTrip(timestamp, s[2 + |plate|..6 + |plate|]);
  }

  lemma DecodeEncodeWantHeartbeat(interval: u32, rest: seq<u8>)
    ensures Decode(Encode(WantHeartbeat(interval)) + rest) == Message(WantHeartbeat(interval), 5)
  {
    var s := Encode(WantHeartbeat(interval)) + rest;
    assert s[1..5] == U32ToBe(interval);
    U32RoundTrip(interval, s[1..5]);
  }

  lemma DecodeEncodeIAmCamera(road: u16, mile: u16, limit: u16, rest: seq<u8>)
    ensures Decode(Encode(IAmCamera(road, mile, limit)) + rest) == Message(IAmCamera(road, mile, limit), 7)
  {
    var s := Encode(IAmCamera(road, mile, limit)) + rest;
    assert s[1..3] == U16ToBe(road) && s[3..5] == U16ToBe(mile) && s[5..7] == U16ToBe(limit);
    U16RoundTrip(road, s[1..3]);
    U16RoundTrip(mile, s[3..5]);
    U16RoundTrip(limit, s[5..7]);
  }

  lemma DecodeEncodeIAmDispatcher(roads: seq<u16>, rest: seq<u8>)
    requires |roads| < 0x100
    ensures Decode(Encode(IAmDispatcher(roads)) + rest) == Message(IAmDispatcher(roads), 2 + 2 * |roads|)
  {
    var s := Encode(IAmDispatcher(roads)) + rest;
    assert s[2..2 + 2 * |roads|] == EncodeRoads(roads);
    RoadsRoundTrip(roads);
  }

  lemma {:induction false} EncodeDecodeRoads(b: seq<u8>)
    requires |b| % 2 == 0
    ensures EncodeRoads(DecodeRoads(b)) == b
  {
    if b != [] {
      var roads := DecodeRoads(b);
      assert roads[1..] == DecodeRoads(b[2..]);
      EncodeDecodeRoads(b[2..]);
      U16RoundTrip(0, b[..2]);
      assert b == b[..2] + b[2..];
    }
  }

  /** Conversely, every decoded message is exactly the bytes its encoding would be. */
  lemma EncodeDecode(s: seq<u8>)
    requires Decode(s).Message?
    ensures WellFormed(Decode(s).msg)
    ensures s[..Decode(s).size] == Encode(Decode(s).msg)
  {
    if s[0] == TAG_PLATE {
      EncodeDecodePlate(s);
    } else if s[0] == TAG_WANT_HEARTBEAT {
      EncodeDecodeWantHeartbeat(s);
    } else if s[0] == TAG_I_AM_CAMERA {
      EncodeDecodeIAmCamera(s);
    } else {
      EncodeDecodeIAmDispatcher(s);
    }
  }

  lemma EncodeDecodePlate(s: seq<u8>)
    requires Decode(s).Message? && s[0] == TAG_PLATE
    ensures WellFormed(Decode(s).msg) && s[..Decode(s).size] == Encode(Decode(s).msg)
  {
    var n: int := s[1];
    U32RoundTrip(0, s[2 + n..6 + n]);
    assert s[..6 + n] == s[..2] + s[2..2 + n] + s[2 + n..6 + n];
  }

  lemma EncodeDecodeWantHeartbeat(s: seq<u8>)
    requires Decode(s).Message? && s[0] == TAG_WANT_HEARTBEAT
    ensures WellFormed(Decode(s).msg) && s[..Decode(s).size] == Encode(Decode(s).msg)
  {
    U32RoundTrip(0, s[1..5]);
    assert s[..5] == s[..1] + s[1..5];
  }

  lemma EncodeDecodeIAmCamera(s: seq<u8>)
    requires Decode(s).Message? && s[0] == TAG_I_AM_CAMERA
    ensures WellFormed(Decode(s).msg) && s[..Decode(s).size] == Encode(Decode(s).msg)
  {
    U16RoundTrip(0, s[1..3]);
    U16RoundTrip(0, s[3..5]);
    U16RoundTrip(0, s[5..7]);
    assert s[..7] == s[..1] + s[1..3] + s[3..5] + s[5..7];
  }

  lemma EncodeDecodeIAmDispatcher(s: seq<u8>)
    requires Decode(s).Message? && s[0] == TAG_I_AM_DISPATCHER
    ensures WellFormed(Decode(s).msg) && s[..Decode(s).size] == Encode(Decode(s).msg)
  {
    var n: int := s[1];
    EncodeDecodeRoads(s[2..2 + 2 * n]);
    assert s[..2 + 2 * n] == s[..2] + s[2..2 + 2 * n];
  }

  /** A stream that stops part-way through a message is a read error, not a message. */
  lemma DecodeTruncated(m: Inbound, k: nat)
    requires WellFormed(m) && 0 < k < |Encode(m)|
    ensures Decode(Encode(m)[..k]) == UnexpectedEof
  {
    var s := Encode(m)[..k];
    assert s[0] == Encode(m)[0];
    if m.Plate? || m.IAmDispatcher? {
      assert k >= 2 ==> s[1] == Encode(m)[1];
    }
  }

  /** A Ticket, as stored in the issued set and written to a dispatcher. */
  datatype Ticket = Ticket(plate: seq<u8>, road: u16, mile1: u16, timestamp1: u32,
                           mile2: u16, timestamp2: u32, speed: u16)

  /** `Ticket::write`: the plate length is cast `as u8`. */
  function EncodeTicket(t: Ticket): (b: seq<u8>)
    ensures |b| == 18 + |t.plate|
    ensures b[0] == TAG_TICKET
  {
    [TAG_TICKET, |t.plate| % 0x100] + t.plate + U16ToBe(t.road) + U16ToBe(t.mile1)
      + U32ToBe(t.timestamp1) + U16ToBe(t.mile2) + U32ToBe(t.timestamp2) + U16ToBe(t.speed)
  }

  /** How a dispatcher reads a Ticket message that occupies all of `b`. */
  function DecodeTicket(b: seq<u8>): Option<Ticket>
  {
    if |b| < 2 || b[0] != TAG_TICKET || |b| != 18 + (b[1] as int) then None
    else
      var n: int := b[1];
      var f := b[2 + n..];
      Some(Ticket(b[2..2 + n], U16FromBe(f[0..2]), U16FromBe(f[2..4]), U32FromBe(f[4..8]),
                  U16FromBe(f[8..10]), U32FromBe(f[10..14]), U16FromBe(f[14..16])))
  }

  /** A Ticket whose plate fits the length byte is read back unchanged. */
  lemma TicketRoundTrip(t: Ticket)
    requires |t.plate| < 0x100
    ensures DecodeTicket(EncodeTicket(t)) == Some(t)
  {
    var b := EncodeTicket(t);
    var head := [TAG_TICKET, |t.plate| % 0x100] + t.plate;
    var r1, m1, t1 := U16ToBe(t.road), U16ToBe(t.mile1), U32ToBe(t.timestamp1);
    var m2, t2, sp := U16ToBe(t.mile2), U32ToBe(t.timestamp2), U16ToBe(t.speed);
    SixFields(head, r1, m1, t1, m2, t2, sp);
    assert b[2..2 + |t.plate|] == t.plate;
    U16FromToBe(t.road);
    U16FromToBe(t.mile1);
    U32FromToBe(t.timestamp1);
    U16FromToBe(t.mile2);
    U32FromToBe(t.timestamp2);
    U16FromToBe(t.speed);
  }

  /** Where the six fixed-width fields of a Ticket sit after its variable-length head. */
  lemma SixFields(head: seq<u8>, a: seq<u8>, b: seq<u8>, c: seq<u8>, d: seq<u8>, e: seq<u8>, g: seq<u8>)
    requires |a| == 2 && |b| == 2 && |c| == 4 && |d| == 2 && |e| == 4 && |g| == 2
    ensures var f := (head + a + b + c + d + e + g)[|head|..];
      f[0..2] == a && f[2..4] == b && f[4..8] == c && f[8..10] == d && f[10..14] == e && f[14..16] == g
  {
    var f := (head + a + b + c + d + e + g)[|head|..];
    assert f == a + b + c + d + e + g;
  }

  /** `send_error`: tag 0x10, the length cast `as u8`, then the message bytes. */
  function EncodeError(msg: seq<u8>): (b: seq<u8>)
    ensures |b| == 2 + |msg| && b[0] == TAG_ERROR
  {
    [TAG_ERROR, |msg| % 0x100] + msg
  }

  function DecodeError(b: seq<u8>): Option<seq<u8>>
  {
    if |b| < 2 || b[0] != TAG_ERROR || |b| != 2 + (b[1] as int) then None else Some(b[2..])
  }

  lemma ErrorRoundTrip(msg: seq<u8>)
    requires |msg| < 0x100
    ensures DecodeError(EncodeError(msg)) == Some(msg)
  {
  }

  /** The Heartbeat message the emitter writes: a bare tag. */
  const HEARTBEAT: seq<u8> := [TAG_HEARTBEAT]

  /** The connection's read half: the bytes still to arrive, and a cursor into them. */
  class ByteReader {
    const data: seq<u8>
    var pos: nat

    ghost predicate Valid()
      reads this
    {
      pos <= |data|
    }

    /** The bytes not yet consumed. */
    ghost function Rest(): seq<u8>
      reads this
      requires Valid()
    {
      data[pos..]
    }

    constructor (input: seq<u8>)
      ensures Valid() && data == input && pos == 0
    {
      data := input;
      pos := 0;
    }

    /** `reader.read(&mut [0u8; 1])`: zero bytes only at the end of the stream. */
    method ReadByte() returns (b: Option<u8>)
      requires Valid()
      modifies this
      ensures Valid() && pos >= old(pos)
      ensures old(Rest()) == [] ==> b == None && pos == old(pos)
      ensures old(Rest()) != [] ==> b == Some(old(Rest())[0]) && pos == old(pos) + 1
    {
      if pos == |data| {
        b := None;
      } else {
        b := Some(data[pos]);
        pos := pos + 1;
      }
    }

    /** `reader.read_exact(&mut buf)` with `buf.len() == n`; on failure the rest of the stream is gone. */
    method ReadExact(n: nat) returns (r: Option<seq<u8>>)
      requires Valid()
      modifies this
      ensures Valid() && pos >= old(pos)
      ensures n <= |old(Rest())| ==> r == Some(old(Rest())[..n]) && pos == old(pos) + n
      ensures n > |old(Rest())| ==> r == None
    {
      if pos + n <= |data| {
        assert data[pos..pos + n] == data[pos..][..n];
        r := Some(data[pos..pos + n]);
        pos := pos + n;
      } else {
        r := None;
        pos := |data|;
      }
    }
  }

  /** `read_message`: consumes one message from the reader, field by field. */
  method ReadMessage(reader: ByteReader) returns (r: ReadResult)
    requires reader.Valid()
    modifies reader
    ensures reader.Valid() && reader.pos >= old(reader.pos)
    ensures r == Decode(old(reader.Rest()))
    ensures r.Message? ==> reader.pos == old(reader.pos) + r.size
  {
    ghost var s := reader.Rest();
    var tag := reader.ReadByte();
    if tag.None? {
      return NoMessage;
    }
    assert reader.Rest() == s[1..];
    match tag.value {
      case 0x20 => r := ReadPlate(reader, s);
      case 0x40 => r := ReadWantHeartbeat(reader, s);
      case 0x80 => r := ReadIAmCamera(reader, s);
      case 0x81 => r := ReadIAmDispatcher(reader, s);
      case _ => r := InvalidData;
    }
  }

  /** The payload of a Plate message, after its tag: the counted plate, then the timestamp. */
  method ReadPlate(reader: ByteReader, ghost s: seq<u8>) returns (r: ReadResult)
    requires reader.Valid() && |s| > 0 && s[0] == TAG_PLATE && reader.Rest() == s[1..]
    modifies reader
    ensures reader.Valid() && reader.pos >= old(reader.pos)
    ensures r == Decode(s)
    ensures r.Message? ==> reader.pos == old(reader.pos) + r.size - 1
  {
    var len := reader.ReadExact(1);
    if len.None? { return UnexpectedEof; }
    assert reader.Rest() == s[2..];
    var n: nat := len.value[0];
    var plate := reader.ReadExact(n);
    if plate.None? { return UnexpectedEof; }
    assert reader.Rest() == s[2 + n..];
    var timestamp := reader.ReadExact(4);
    if timestamp.None? { return UnexpectedEof; }
    assert s[2..2 + n] == plate.value && s[2 + n..6 + n] == timestamp.value;
    r := Message(Plate(plate.value, U32FromBe(timestamp.value)), 6 + n);
  }

  /** The payload of a WantHeartbeat message: the interval. */
  method ReadWantHeartbeat(reader: ByteReader, ghost s: seq<u8>) returns (r: ReadResult)
    requires reader.Valid() && |s| > 0 && s[0] == TAG_WANT_HEARTBEAT && reader.Rest() == s[1..]
    modifies reader
    ensures reader.Valid() && reader.pos >= old(reader.pos)
    ensures r == Decode(s)
    ensures r.Message? ==> reader.pos == old(reader.pos) + r.size - 1
  {
    var interval := reader.ReadExact(4);
    if interval.None? { return UnexpectedEof; }
    r := Message(WantHeartbeat(U32FromBe(interval.value)), 5);
  }

  /** The payload of an IAmCamera message: road, mile and limit. */
  method ReadIAmCamera(reader: ByteReader, ghost s: seq<u8>) returns (r: ReadResult)
    requires reader.Valid() && |s| > 0 && s[0] == TAG_I_AM_CAMERA && reader.Rest() == s[1..]
    modifies reader
    ensures reader.Valid() && reader.pos >= old(reader.pos)
    ensures r == Decode(s)
    ensures r.Message? ==> reader.pos == old(reader.pos) + r.size - 1
  {
    var road := reader.ReadExact(2);
    if road.None? { return UnexpectedEof; }
    assert reader.Rest() == s[3..];
    var mile := reader.ReadExact(2);
    if mile.None? { return UnexpectedEof; }
    assert reader.Rest() == s[5..];
    var limit := reader.ReadExact(2);
    if limit.None? { return UnexpectedEof; }
    assert s[1..3] == road.value && s[3..5] == mile.value && s[5..7] == limit.value;
    r := Message(IAmCamera(U16FromBe(road.value), U16FromBe(mile.value), U16FromBe(limit.value)), 7);
  }

  /** The payload of an IAmDispatcher message: the counted roads. */
  method ReadIAmDispatcher(reader: ByteReader, ghost s: seq<u8>) returns (r: ReadResult)
    requires reader.Valid() && |s| > 0 && s[0] == TAG_I_AM_DISPATCHER && reader.Rest() == s[1..]
    modifies reader
    ensures reader.Valid() && reader.pos >= old(reader.pos)
    ensures r == Decode(s)
    ensures r.Message? ==> reader.pos == old(reader.pos) + r.size - 1
  {
    var count := reader.ReadExact(1);
    if count.None? { return UnexpectedEof; }
    assert reader.Rest() == s[2..];
    var n: nat := count.value[0];
    var roads := reader.ReadExact(2 * n);
    if roads.None? { return UnexpectedEof; }
    assert s[2..2 + 2 * n] == roads.value;
    r := Message(IAmDispatcher(DecodeRoads(roads.value)), 2 + 2 * n);
  }
}

/**
 * The line-reversal packet layer: the slash-delimited packet parser and the
 * session-table update with the reply it sends.
 */
module Lrcp {
  import opened Wrappers
  import opened Text

  datatype Packet =
    | Connect(sessionId: string)
    | Data(sessionId: string, pos: nat, data: string)
    | Ack(sessionId: string, length: nat)
    | Close(sessionId: string)

  /** A parse either rejects the packet with a reason or panics on a malformed number. */
  datatype ParseError = Reject(reason: string) | Crash(message: string)

  const NO_LEADING_SLASH := "Expected first character to be '/'"
  const NO_TRAILING_SLASH := "Expected last character to be '/'"
  // The arity message for a bad connect packet names 'data', as in the original.
  const CONNECT_ARITY := "Message with type 'data' should have 4 parts including the type"
  const DATA_ARITY := "Message with type 'data' should have 4 parts including the type"
  const ACK_ARITY := "Message with type 'ack' should have 3 parts including the type"
  const CLOSE_ARITY := "Message with type 'close' should have 2 parts including the type"
  const UNSUPPORTED := "Unsupported message type"
  const BAD_POSITION := "Couldn't parse data position to usize"
  const BAD_LENGTH := "Couldn't parse ack length to usize"

  /** The fields of a packet: the text between its outer slashes, split on '/'. */
  function Fields(raw: string): seq<string>
  {
    Split(TrimMatches(TrimAsciiEnd(raw), '/'), '/')
  }

  predicate Slashed(t: string)
  {
    |t| > 0 && t[0] == '/' && t[|t| - 1] == '/'
  }

  /**
   * `Packet::try_from` on a decoded datagram: trailing ASCII whitespace is
   * dropped, the text must start and end with '/', and the fields' count must
   * match the packet type.
   */
  function ParsePacket(raw: string): (r: Result<Packet, ParseError>)
    ensures var t := TrimAsciiEnd(raw);
      && (|t| == 0 || t[0] != '/' ==> r == Err(Reject(NO_LEADING_SLASH)))
      && (|t| > 0 && t[0] == '/' && t[|t| - 1] != '/' ==> r == Err(Reject(NO_TRAILING_SLASH)))
      && (r.Ok? ==> Slashed(t))
    ensures r.Ok? ==> var f := Fields(raw);
      match r.value
      case Connect(id) => |f| == 2 && f[0] == "connect" && id == f[1]
      case Data(id, pos, data) => |f| == 4 && f[0] == "data" && id == f[1] && ParseUsize(f[2]) == Some(pos) && data == f[3]
      case Ack(id, length) => |f| == 3 && f[0] == "ack" && id == f[1] && ParseUsize(f[2]) == Some(length)
      case Close(id) => |f| == 2 && f[0] == "close" && id == f[1]
  {
    var t := TrimAsciiEnd(raw);
    if |t| == 0 || t[0] != '/' then Err(Reject(NO_LEADING_SLASH))
    else if t[|t| - 1] != '/' then Err(Reject(NO_TRAILING_SLASH))
    else
      var f := Fields(raw);
      if f[0] == "connect" then
        if |f| != 2 then Err(Reject(CONNECT_ARITY)) else Ok(Connect(f[1]))
      else if f[0] == "data" then
        if |f| != 4 then Err(Reject(DATA_ARITY))
        else match ParseUsize(f[2])
          case None => Err(Crash(BAD_POSITION))
          case Some(pos) => Ok(Data(f[1], pos, f[3]))
      else if f[0] == "ack" then
        if |f| != 3 then Err(Reject(ACK_ARITY))
        else match ParseUsize(f[2])
          case None => Err(Crash(BAD_LENGTH))
          case Some(length) => Ok(Ack(f[1], length))
      else if f[0] == "close" then
        if |f| != 2 then Err(Reject(CLOSE_ARITY)) else Ok(Close(f[1]))
      else Err(Reject(UNSUPPORTED))
  }

  /** A field that survives the round trip: non-empty and free of '/'. */
  predicate FieldText(s: string)
  {
    |s| > 0 && '/' !in s
  }

  predicate Renderable(p: Packet)
  {
    FieldText(p.sessionId)
    && (p.Data? ==> FieldText(p.data))
    && (p.Data? ==> p.pos <= USIZE_MAX)
    && (p.Ack? ==> p.length <= USIZE_MAX)
  }

  /** The fields of a packet, type first. */
  function PacketFields(p: Packet): seq<string>
  {
    match p
    case Connect(id) => ["connect", id]
    case Data(id, pos, data) => ["data", id, NatToString(pos), data]
    case Ack(id, length) => ["ack", id, NatToString(length)]
    case Close(id) => ["close", id]
  }

  /** The text form of a packet, as the replies of `handle_packet` are written. */
  function Render(p: Packet): string
  {
    "/" + Join(PacketFields(p), "/") + "/"
  }

  /** The text of each packet type, written out. */
  lemma RenderConnect(id: string)
    ensures Render(Connect(id)) == "/connect/" + id + "/"
  {
    JoinPair("connect", id, "/");
    assert "/" + ("connect" + "/" + id) + "/" == "/connect/" + id + "/";
  }

  lemma RenderData(id: string, pos: nat, data: string)
    ensures Render(Data(id, pos, data)) == "/data/" + id + "/" + NatToString(pos) + "/" + data + "/"
  {
    var n := NatToString(pos);
    JoinQuad("data", id, n, data, "/");
    assert "/" + ("data" + "/" + (id + "/" + (n + "/" + data))) + "/" == "/data/" + id + "/" + n + "/" + data + "/";
  }

  lemma RenderAck(id: string, length: nat)
    ensures Render(Ack(id, length)) == "/ack/" + id + "/" + NatToString(length) + "/"
  {
    var n := NatToString(length);
    JoinTriple("ack", id, n, "/");
    assert "/" + ("ack" + "/" + (id + "/" + n)) + "/" == "/ack/" + id + "/" + n + "/";
  }

  lemma RenderClose(id: string)
    ensures Render(Close(id)) == "/close/" + id + "/"
  {
    JoinPair("close", id, "/");
    assert "/" + ("close" + "/" + id) + "/" == "/close/" + id + "/";
  }

  lemma JoinPair(a: string, b: string, sep: string)
    ensures Join([a, b], sep) == a + sep + b
  {
    assert [a, b][1..] == [b];
  }

  lemma JoinTriple(a: string, b: string, c: string, sep: string)
    ensures Join([a, b, c], sep) == a + sep + (b + sep + c)
  {
    assert [a, b, c][1..] == [b, c];
    JoinPair(b, c, sep);
  }

  lemma JoinQuad(a: string, b: string, c: string, d: string, sep: string)
    ensures Join([a, b, c, d], sep) == a + sep + (b + sep + (c + sep + d))
  {
    assert [a, b, c, d][1..] == [b, c, d];
    JoinTriple(b, c, d, sep);
  }

  /** Slash-free fields between outer slashes are recovered by `Fields`. */
  lemma FieldsOfJoin(f: seq<string>)
    requires |f| >= 2 && FieldText(f[0]) && FieldText(f[|f| - 1])
    requires forall i :: 0 <= i < |f| ==> '/' !in f[i]
    ensures var raw := "/" + Join(f, "/") + "/";
      TrimAsciiEnd(raw) == raw && Slashed(raw) && Fields(raw) == f
  {
    var body := Join(f, "/");
    var raw := "/" + body + "/";
    assert raw[|raw| - 1] == '/';
    assert !IsAsciiWhitespace('/');
    assert TrimAsciiEnd(raw) == raw;
    JoinEdges(f);
    TrimOuterSlashes(body);
    SplitJoin(f, '/');
  }

  /** The text of a renderable packet is slashed and its fields are the packet's fields. */
  lemma FieldsOfRender(p: Packet)
    requires Renderable(p)
    ensures TrimAsciiEnd(Render(p)) == Render(p) && Slashed(Render(p))
    ensures Fields(Render(p)) == PacketFields(p)
  {
    var f := PacketFields(p);
    forall i | 0 <= i < |f| ensures '/' !in f[i] {
      if i == 2 && (p.Data? || p.Ack?) {
        assert forall j :: 0 <= j < |f[i]| ==> IsDigit(f[i][j]);
      }
    }
    FieldsOfJoin(f);
  }

  /** Every renderable packet parses back to itself. */
  lemma ParseRender(p: Packet)
    requires Renderable(p)
    ensures ParsePacket(Render(p)) == Ok(p)
  {
    FieldsOfRender(p);
    match p {
      case Connect(id) => ParseFieldsConnect(Render(p), id);
      case Data(id, pos, data) =>
        ParseNatToString(pos);
        ParseFieldsData(Render(p), id, NatToString(pos), pos, data);
      case Ack(id, length) =>
        ParseNatToString(length);
        ParseFieldsAck(Render(p), id, NatToString(length), length);
      case Close(id) => ParseFieldsClose(Render(p), id);
    }
  }

  lemma ParseFieldsConnect(raw: string, id: string)
    requires TrimAsciiEnd(raw) == raw && Slashed(raw) && Fields(raw) == ["connect", id]
    ensures ParsePacket(raw) == Ok(Connect(id))
  {
  }

  lemma ParseFieldsData(raw: string, id: string, digits: string, pos: nat, data: string)
    requires TrimAsciiEnd(raw) == raw && Slashed(raw) && Fields(raw) == ["data", id, digits, data]
    requires ParseUsize(digits) == Some(pos)
    ensures ParsePacket(raw) == Ok(Data(id, pos, data))
  {
    assert "data" != "connect";
  }

  lemma ParseFieldsAck(raw: string, id: string, digits: string, length: nat)
    requires TrimAsciiEnd(raw) == raw && Slashed(raw) && Fields(raw) == ["ack", id, digits]
    requires ParseUsize(digits) == Some(length)
    ensures ParsePacket(raw) == Ok(Ack(id, length))
  {
    assert "ack" != "connect" && "ack" != "data";
  }

  lemma ParseFieldsClose(raw: string, id: string)
    requires TrimAsciiEnd(raw) == raw && Slashed(raw) && Fields(raw) == ["close", id]
    ensures ParsePacket(raw) == Ok(Close(id))
  {
    assert "close" != "connect" && "close" != "data" && "close" != "ack";
  }

  /** The joined fields neither start nor end with '/'. */
  lemma JoinEdges(f: seq<string>)
    requires |f| >= 2 && FieldText(f[0]) && FieldText(f[|f| - 1])
    ensures var body := Join(f, "/"); |body| > 0 && body[0] != '/' && body[|body| - 1] != '/'
  {
    JoinFirst(f);
    JoinLast(f);
  }

  lemma {:induction false} JoinFirst(f: seq<string>)
    requires |f| >= 1 && |f[0]| > 0
    ensures |Join(f, "/")| > 0 && Join(f, "/")[0] == f[0][0]
  {
  }

  lemma {:induction false} JoinLast(f: seq<string>)
    requires |f| >= 1 && |f[|f| - 1]| > 0
    ensures |Join(f, "/")| > 0 && Join(f, "/")[|Join(f, "/")| - 1] == f[|f| - 1][|f[|f| - 1]| - 1]
  {
    if |f| > 1 {
      JoinLast(f[1..]);
    }
  }

  /** Trimming the outer slashes of "/body/" gives back a body without slashes at its ends. */
  lemma TrimOuterSlashes(body: string)
    requires |body| > 0 && body[0] != '/' && body[|body| - 1] != '/'
    ensures TrimMatches("/" + body + "/", '/') == body
  {
    var s := "/" + body + "/";
    var d := DropTrailing(s, x => x == '/');
    assert s[|body|] == body[|body| - 1];
    assert |d| == |body| + 1;
    assert d == s[..|body| + 1] == "/" + body;
    var r := DropLeading(d, x => x == '/');
    assert d[1] == body[0];
    assert |r| == |body|;
    assert r == d[1..] == body;
  }

  datatype SessionState = Handshake | Established | Closing

  /** The peer's socket address. */
  datatype Address = Address(host: seq<int>, port: nat)

  /**
   * A session. The timing fields (`last_active`, `send_queue`) are not
   * modelled; `pendingData` is the ordered map as a key-sorted list.
   */
  datatype Session = Session(
    id: string,
    source: Address,
    state: SessionState,
    nextExpectedPos: nat,
    pendingData: seq<(nat, string)>,
    nextSeqToSend: nat)

  /** `Session::new` */
  function NewSession(id: string, source: Address): (s: Session)
    ensures Untouched(s) && s.id == id && s.source == source
  {
    Session(id, source, Handshake, 0, [], 0)
  }

  /** A session as `Session::new` left it: nothing ever advances it. */
  predicate Untouched(s: Session)
  {
    s.state == Handshake && s.nextExpectedPos == 0 && s.pendingData == [] && s.nextSeqToSend == 0
  }

  /** The byte lengths of the pending chunks, summed in key order. */
  function PendingLength(pending: seq<(nat, string)>): nat
  {
    if pending == [] then 0 else PendingLength(pending[..|pending| - 1]) + Utf8Len(pending[|pending| - 1].1)
  }

  /** The length acknowledged for a data packet at `pos`. */
  function DataAckLength(s: Session, pos: nat, data: string): nat
  {
    PendingLength(s.pendingData) + (if pos == s.nextExpectedPos then Utf8Len(data) else 0)
  }

  function AckReply(id: string, length: nat): string
  {
    Render(Ack(id, length))
  }

  function CloseReply(id: string): string
  {
    Render(Close(id))
  }

  /** With every session untouched, a data packet is acknowledged with its own length at position 0 and with 0 elsewhere. */
  lemma UntouchedAck(s: Session, pos: nat, data: string)
    requires Untouched(s)
    ensures DataAckLength(s, pos, data) == if pos == 0 then Utf8Len(data) else 0
  {
  }

  /** The replies are packets of the protocol: the peer parses them back. */
  lemma RepliesParse(id: string, length: nat)
    requires FieldText(id) && length <= USIZE_MAX
    ensures ParsePacket(AckReply(id, length)) == Ok(Ack(id, length))
    ensures ParsePacket(CloseReply(id)) == Ok(Close(id))
  {
    ParseRender(Ack(id, length));
    ParseRender(Close(id));
  }

  /** The server's session table. */
  class SessionTable {
    var sessions: map<string, Session>

    /** Every session is keyed by its own id and is as `Session::new` made it. */
    ghost predicate Valid()
      reads this
    {
      forall id :: id in sessions ==> sessions[id].id == id && Untouched(sessions[id])
    }

    constructor()
      ensures Valid() && sessions == map[]
    {
      sessions := map[];
    }

    /**
     * `handle_packet`: updates the table and returns the reply sent to
     * `source`, if any.
     */
    method HandlePacket(packet: Packet, source: Address) returns (reply: Option<string>)
      requires Valid()
      modifies this
      ensures Valid()
      ensures packet.Connect? ==>
        && sessions == (if packet.sessionId in old(sessions) then old(sessions)
                        else old(sessions)[packet.sessionId := NewSession(packet.sessionId, source)])
        && reply == Some(AckReply(packet.sessionId, 0))
      ensures packet.Data? ==>
        && sessions == old(sessions)
        && reply == Some(if packet.sessionId in sessions
                         then AckReply(packet.sessionId, DataAckLength(sessions[packet.sessionId], packet.pos, packet.data))
                         else CloseReply(packet.sessionId))
      ensures packet.Ack? ==>
        && sessions == old(sessions)
        && reply == (if packet.sessionId in sessions then None else Some(CloseReply(packet.sessionId)))
      ensures packet.Close? ==>
        && sessions == old(sessions) - {packet.sessionId}
        && reply == Some(CloseReply(packet.sessionId))
    {
      match packet {
        case Connect(id) =>
          if id !in sessions {
            sessions := sessions[id := NewSession(id, source)];
          }
          reply := Some("/ack/" + id + "/0/");
          assert NatToString(0) == "0";
          RenderAck(id, 0);
          assert "/ack/" + id + "/0/" == "/ack/" + id + "/" + "0" + "/";
        case Data(id, pos, data) =>
          if id in sessions {
            var session := sessions[id];
            var length: nat;
            if session.nextExpectedPos == pos {
              length := PendingLength(session.pendingData) + Utf8Len(data);
            } else if session.pendingData == [] {
              length := 0;
            } else {
              length := PendingLength(session.pendingData);
            }
            reply := Some("/ack/" + id + "/" + NatToString(length) + "/");
            RenderAck(id, length);
          } else {
            reply := Some("/close/" + id + "/");
            RenderClose(id);
          }
        case Ack(id, _) =>
          if id in sessions {
            reply := None;
          } else {
            reply := Some("/close/" + id + "/");
            RenderClose(id);
          }
        case Close(id) =>
          sessions := sessions - {id};
          reply := Some("/close/" + id + "/");
          RenderClose(id);
      }
    }
  }
}

/**
 * The per-connection role state machine of the speed-enforcement service and
 * the shared state it updates: the client registry and the sighting log.
 * Locking is left out: each method is one critical section.
 */
module FlockSession {
  import opened Wrappers
  import opened Bytes
  import opened FlockWire

  /** A connection's identity (a random UUID in the service, minted fresh per connection). */
  type ClientId = nat

  /**
   * A registry entry. The service stores a (type, info) pair whose two halves
   * always agree, so one variant carries both. A dispatcher's stored output
   * stream is its own connection, named by its registry key.
   */
  datatype ClientInfo =
    | Unknown
    | Camera(road: u16, mile: u16, limit: u16)
    | Dispatcher(roads: seq<u16>)

  /** A licence plate: the bytes of its counted string. */
  type Plate = seq<u8>

  datatype Sighting = Sighting(clientId: ClientId, plate: Plate, timestamp: u32)

  /** Every logged sighting was sent by a client that is registered as a camera. */
  predicate LogFromCameras(registry: map<ClientId, ClientInfo>, log: seq<Sighting>)
  {
    forall i :: 0 <= i < |log| ==> log[i].clientId in registry && registry[log[i].clientId].Camera?
  }

  /**
   * What the connection does after one step: keep reading, keep reading with a
   * heartbeat emitter started, write an Error message with this text and close,
   * or close without writing anything.
   */
  datatype Outcome = Continue | StartHeartbeat(interval: u32) | Fail(error: string) | Close

  const ALREADY_IDENTIFIED: string := "Client already identified"
  const ONLY_CAMERAS: string := "Only cameras can send plates"
  const ILLEGAL_MESSAGE: string := "Illegal message type"

  /** The texts the service sends in Error messages. */
  predicate IsErrorText(text: string)
  {
    text == ALREADY_IDENTIFIED || text == ONLY_CAMERAS || text == ILLEGAL_MESSAGE
  }

  predicate IsAscii(text: string)
  {
    forall i :: 0 <= i < |text| ==> text[i] as int < 0x80
  }

  /** The Error message `send_error` writes for one of the texts above. */
  lemma AlreadyIdentifiedAscii()
    ensures IsAscii(ALREADY_IDENTIFIED)
  {
  }

  lemma OnlyCamerasAscii()
    ensures IsAscii(ONLY_CAMERAS)
  {
  }

  lemma IllegalMessageAscii()
    ensures IsAscii(ILLEGAL_MESSAGE)
  {
  }

  lemma ErrorTextsAscii(text: string)
    requires IsErrorText(text)
    ensures IsAscii(text) && |text| < 0x100
  {
    AlreadyIdentifiedAscii();
    OnlyCamerasAscii();
    IllegalMessageAscii();
  }

  function ErrorMessage(text: string): (b: seq<u8>)
    requires IsErrorText(text)
    ensures DecodeError(b) == Some(AsciiBytes(text))
  {
    ErrorTextsAscii(text);
    ErrorRoundTrip(AsciiBytes(text));
    EncodeError(AsciiBytes(text))
  }

  /** The shared state after one message, and what the connection does next. */
  datatype Turn = Turn(registry: map<ClientId, ClientInfo>, log: seq<Sighting>, outcome: Outcome)

  /**
   * The effect `handle_message` has on the shared state, and its outcome, for
   * one message from `id`. A client identifies once, from Unknown; a plate is
   * logged only from a camera; a heartbeat starts only for a non-zero interval.
   */
  function Transition(registry: map<ClientId, ClientInfo>, log: seq<Sighting>, id: ClientId, msg: Inbound): (t: Turn)
    requires (msg.IAmCamera? || msg.Plate?) ==> id in registry
    ensures id in registry ==> id in t.registry
    ensures t.outcome.Fail? ==> IsErrorText(t.outcome.error)
    ensures !t.outcome.Close?
  {
    match msg
    case WantHeartbeat(interval) =>
      Turn(registry, log, if interval == 0 then Continue else StartHeartbeat(interval))
    case IAmCamera(road, mile, limit) =>
      if registry[id].Unknown? then Turn(registry[id := Camera(road, mile, limit)], log, Continue)
      else Turn(registry, log, Fail(ALREADY_IDENTIFIED))
    case IAmDispatcher(roads) =>
      if id in registry && registry[id].Unknown? then Turn(registry[id := Dispatcher(roads)], log, Continue)
      else if id in registry then Turn(registry, log, Fail(ALREADY_IDENTIFIED))
      else Turn(registry, log, Continue)
    case Plate(plate, timestamp) =>
      if registry[id].Camera? then Turn(registry, log + [Sighting(id, plate, timestamp)], Continue)
      else Turn(registry, log, Fail(ONLY_CAMERAS))
  }

  /**
   * How a connection ends: the shared state, the text of the Error message it
   * wrote if it wrote one, and the intervals of the heartbeat emitters started.
   */
  datatype SessionEnd = SessionEnd(registry: map<ClientId, ClientInfo>, log: seq<Sighting>, error: Option<string>, heartbeats: seq<u32>)

  /** A session's ending with `hb` started before the rest of it. */
  function AfterHeartbeats(hb: seq<u32>, e: SessionEnd): SessionEnd
  {
    e.(heartbeats := hb + e.heartbeats)
  }

  /**
   * `handle_client`'s loop over the unread input `input`: handle each decoded
   * message in turn until the stream ends, a message is truncated or has an
   * unknown tag, or a message is refused.
   */
  function Converse(registry: map<ClientId, ClientInfo>, log: seq<Sighting>, id: ClientId, input: seq<u8>): SessionEnd
    requires id in registry
    decreases |input|
  {
    match Decode(input)
    case Message(msg, size) =>
      var t := Transition(registry, log, id, msg);
      if t.outcome.Fail? then SessionEnd(t.registry, t.log, Some(t.outcome.error), [])
      else
        var hb := if t.outcome.StartHeartbeat? then [t.outcome.interval] else [];
        AfterHeartbeats(hb, Converse(t.registry, t.log, id, input[size..]))
    case InvalidData => SessionEnd(registry, log, Some(ILLEGAL_MESSAGE), [])
    case _ => SessionEnd(registry, log, None, [])
  }

  /**
   * One turn of the conversation, as the serving loop takes it: the read
   * result `r` and the turn `t` it led to either end the conversation with
   * the ending `target` predicts, or leave the rest of `target` to the input
   * after the message.
   */
  lemma ConverseAdvance(target: SessionEnd, registry: map<ClientId, ClientInfo>, log: seq<Sighting>, id: ClientId,
                        input: seq<u8>, hb: seq<u32>, r: ReadResult, t: Turn, hb': seq<u32>)
    requires id in registry && target == AfterHeartbeats(hb, Converse(registry, log, id, input))
    requires r == Decode(input)
    requires r.Message? ==> t == Transition(registry, log, id, r.msg)
    requires !r.Message? ==> t == Turn(registry, log, if r.InvalidData? then Fail(ILLEGAL_MESSAGE) else Close)
    requires hb' == hb + (if t.outcome.StartHeartbeat? then [t.outcome.interval] else [])
    ensures !(t.outcome.Fail? || t.outcome.Close?) ==> (r.Message? && id in t.registry
      && target == AfterHeartbeats(hb', Converse(t.registry, t.log, id, input[r.size..])))
    ensures t.outcome.Fail? || t.outcome.Close? ==>
      target == SessionEnd(t.registry, t.log, if t.outcome.Fail? then Some(t.outcome.error) else None, hb')
  {
    if r.Message? {
      ConverseOnMessage(registry, log, id, input);
      if !t.outcome.Fail? {
        HeartbeatsCompose(hb, if t.outcome.StartHeartbeat? then [t.outcome.interval] else [],
                          Converse(t.registry, t.log, id, input[r.size..]));
      }
    }
  }

  /** Heartbeats started in two stretches are those of the two, in order. */
  lemma HeartbeatsCompose(hb: seq<u32>, hb1: seq<u32>, e: SessionEnd)
    ensures AfterHeartbeats(hb, AfterHeartbeats(hb1, e)) == AfterHeartbeats(hb + hb1, e)
  {
    assert hb + (hb1 + e.heartbeats) == (hb + hb1) + e.heartbeats;
  }

  /** The conversation after a decoded message, unfolded once. */
  lemma ConverseOnMessage(registry: map<ClientId, ClientInfo>, log: seq<Sighting>, id: ClientId, input: seq<u8>)
    requires id in registry && Decode(input).Message?
    ensures var t := Transition(registry, log, id, Decode(input).msg);
      Converse(registry, log, id, input)
      == if t.outcome.Fail? then SessionEnd(t.registry, t.log, Some(t.outcome.error), [])
         else AfterHeartbeats(if t.outcome.StartHeartbeat? then [t.outcome.interval] else [],
                              Converse(t.registry, t.log, id, input[Decode(input).size..]))
  {
  }

  /** The registry after `handle_client` has finished with `id`: only a camera stays. */
  function Unregister(registry: map<ClientId, ClientInfo>, id: ClientId): map<ClientId, ClientInfo>
  {
    if id in registry && registry[id].Camera? then registry else registry - {id}
  }

  /** `handle_client` for a connection whose whole input is `input`: register as Unknown, converse, unregister. */
  function Session(registry: map<ClientId, ClientInfo>, log: seq<Sighting>, id: ClientId, input: seq<u8>): SessionEnd
  {
    var e := Converse(registry[id := Unknown], log, id, input);
    e.(registry := Unregister(e.registry, id))
  }

  /** One message changes at most the sender's own entry, only from Unknown, and logs only the sender's sightings. */
  lemma TransitionFrame(registry: map<ClientId, ClientInfo>, log: seq<Sighting>, id: ClientId, msg: Inbound)
    requires id in registry && LogFromCameras(registry, log)
    ensures var t := Transition(registry, log, id, msg);
      && id in t.registry && t.registry.Keys == registry.Keys
      && (forall k :: k != id && k in registry ==> t.registry[k] == registry[k])
      && (!registry[id].Unknown? ==> t.registry[id] == registry[id])
      && log <= t.log && (forall i :: |log| <= i < |t.log| ==> t.log[i].clientId == id)
      && LogFromCameras(t.registry, t.log)
      && !t.outcome.Close? && (t.outcome.StartHeartbeat? ==> t.outcome.interval > 0)
  {
  }

  /** The conversation keeps to the sender's own entry and sightings, and a camera stays the camera it was. */
  lemma {:induction false} ConverseFrame(registry: map<ClientId, ClientInfo>, log: seq<Sighting>, id: ClientId, input: seq<u8>)
    requires id in registry && LogFromCameras(registry, log)
    ensures var e := Converse(registry, log, id, input);
      && id in e.registry && e.registry.Keys == registry.Keys
      && (forall k :: k != id && k in registry ==> e.registry[k] == registry[k])
      && (!registry[id].Unknown? ==> e.registry[id] == registry[id])
      && log <= e.log && (forall i :: |log| <= i < |e.log| ==> e.log[i].clientId == id)
      && LogFromCameras(e.registry, e.log)
      && (e.error.Some? ==> IsErrorText(e.error.value))
      && (forall i :: 0 <= i < |e.heartbeats| ==> e.heartbeats[i] > 0)
    decreases |input|
  {
    var r := Decode(input);
    if r.Message? {
      var t := Transition(registry, log, id, r.msg);
      TransitionFrame(registry, log, id, r.msg);
      if !t.outcome.Fail? {
        ConverseFrame(t.registry, t.log, id, input[r.size..]);
      }
    }
  }

  /**
   * A whole connection changes only its own registry entry and appends only
   * its own sightings; afterwards it is registered only as the camera it
   * identified as; it writes only the service's Error texts and starts
   * heartbeats only for non-zero intervals. Every logged sighting still comes
   * from a registered camera.
   */
  lemma SessionFrame(registry: map<ClientId, ClientInfo>, log: seq<Sighting>, id: ClientId, input: seq<u8>)
    requires id !in registry && LogFromCameras(registry, log)
    ensures var e := Session(registry, log, id, input);
      && (forall k :: k != id ==> (k in e.registry <==> k in registry))
      && (forall k :: k != id && k in registry ==> e.registry[k] == registry[k])
      && (id in e.registry ==> e.registry[id].Camera?)
      && log <= e.log && (forall i :: |log| <= i < |e.log| ==> e.log[i].clientId == id)
      && (|e.log| > |log| ==> id in e.registry)
      && LogFromCameras(e.registry, e.log)
      && (e.error.Some? ==> IsErrorText(e.error.value))
      && (forall i :: 0 <= i < |e.heartbeats| ==> e.heartbeats[i] > 0)
  {
    var start := registry[id := Unknown];
    assert LogFromCameras(start, log);
    ConverseFrame(start, log, id, input);
    var e := Converse(start, log, id, input);
    if |e.log| > |log| {
      assert e.log[|log|].clientId == id;
    }
  }

  /** The bytes of a run of Plate messages. */
  function PlateMessages(plates: seq<(Plate, u32)>): seq<u8>
    requires forall i :: 0 <= i < |plates| ==> |plates[i].0| < 0x100
  {
    if plates == [] then [] else Encode(Plate(plates[0].0, plates[0].1)) + PlateMessages(plates[1..])
  }

  /** The sightings `id` reports with those messages, in order. */
  function SightingsOf(id: ClientId, plates: seq<(Plate, u32)>): (s: seq<Sighting>)
    ensures |s| == |plates|
    ensures forall i :: 0 <= i < |plates| ==> s[i] == Sighting(id, plates[i].0, plates[i].1)
  {
    if plates == [] then [] else [Sighting(id, plates[0].0, plates[0].1)] + SightingsOf(id, plates[1..])
  }

  /** A camera's plates are all logged, in order, and the conversation ends quietly with the input. */
  lemma {:induction false} ConverseCameraPlates(registry: map<ClientId, ClientInfo>, log: seq<Sighting>, id: ClientId,
                                                 plates: seq<(Plate, u32)>)
    requires id in registry && registry[id].Camera?
    requires forall i :: 0 <= i < |plates| ==> |plates[i].0| < 0x100
    ensures Converse(registry, log, id, PlateMessages(plates)) == SessionEnd(registry, log + SightingsOf(id, plates), None, [])
    decreases |plates|
  {
    if plates != [] {
      var m := Plate(plates[0].0, plates[0].1);
      var rest := PlateMessages(plates[1..]);
      DecodeEncode(m, rest);
      assert (Encode(m) + rest)[|Encode(m)|..] == rest;
      ConverseCameraPlates(registry, log + [Sighting(id, plates[0].0, plates[0].1)], id, plates[1..]);
      assert log + [Sighting(id, plates[0].0, plates[0].1)] + SightingsOf(id, plates[1..]) == log + SightingsOf(id, plates);
    }
  }

  /**
   * A client that identifies as a camera and then reports plates stays
   * registered as that camera, and every plate is logged, in order, from it.
   */
  lemma SessionCameraPlates(registry: map<ClientId, ClientInfo>, log: seq<Sighting>, id: ClientId,
                            road: u16, mile: u16, limit: u16, plates: seq<(Plate, u32)>)
    requires id !in registry
    requires forall i :: 0 <= i < |plates| ==> |plates[i].0| < 0x100
    ensures Session(registry, log, id, Encode(IAmCamera(road, mile, limit)) + PlateMessages(plates))
            == SessionEnd(registry[id := Camera(road, mile, limit)], log + SightingsOf(id, plates), None, [])
  {
    var m := IAmCamera(road, mile, limit);
    var rest := PlateMessages(plates);
    DecodeEncode(m, rest);
    assert (Encode(m) + rest)[|Encode(m)|..] == rest;
    var start := registry[id := Unknown];
    assert start[id := Camera(road, mile, limit)] == registry[id := Camera(road, mile, limit)];
    ConverseCameraPlates(registry[id := Camera(road, mile, limit)], log, id, plates);
  }

  /** A plate sent before the client identified as a camera is refused, and nothing is logged or kept. */
  lemma SessionPlateFirst(registry: map<ClientId, ClientInfo>, log: seq<Sighting>, id: ClientId,
                          plate: Plate, timestamp: u32, rest: seq<u8>)
    requires id !in registry && |plate| < 0x100
    ensures Session(registry, log, id, Encode(Plate(plate, timestamp)) + rest) == SessionEnd(registry, log, Some(ONLY_CAMERAS), [])
  {
    DecodeEncode(Plate(plate, timestamp), rest);
    assert registry[id := Unknown] - {id} == registry;
  }

  /**
   * After one identification a second one is refused with "Client already
   * identified": nothing is logged, and the first role stays (until the
   * close unregisters a dispatcher).
   */
  lemma SessionIdentifyTwice(registry: map<ClientId, ClientInfo>, log: seq<Sighting>, id: ClientId,
                             first: Inbound, second: Inbound, rest: seq<u8>)
    requires id !in registry && WellFormed(first) && WellFormed(second)
    requires (first.IAmCamera? || first.IAmDispatcher?) && (second.IAmCamera? || second.IAmDispatcher?)
    ensures var e := Session(registry, log, id, Encode(first) + Encode(second) + rest);
      && e.error == Some(ALREADY_IDENTIFIED) && e.log == log && e.heartbeats == []
      && e.registry == if first.IAmCamera? then registry[id := Camera(first.road, first.mile, first.limit)] else registry
  {
    var tail := Encode(second) + rest;
    DecodeEncode(first, tail);
    assert Encode(first) + Encode(second) + rest == Encode(first) + tail;
    var start := registry[id := Unknown];
    var role := if first.IAmCamera? then Camera(first.road, first.mile, first.limit) else Dispatcher(first.roads);
    var named := start[id := role];
    assert Transition(start, log, id, first) == Turn(named, log, Continue);
    ConverseOnMessage(start, log, id, Encode(first) + tail);
    assert (Encode(first) + tail)[|Encode(first)|..] == tail;
    ConverseIdentifyAgain(named, log, id, second, rest);
    assert named == registry[id := role];
    assert registry[id := role] - {id} == registry;
  }

  /** A client that already has a role is refused any further identification. */
  lemma ConverseIdentifyAgain(registry: map<ClientId, ClientInfo>, log: seq<Sighting>, id: ClientId,
                              second: Inbound, rest: seq<u8>)
    requires id in registry && !registry[id].Unknown? && WellFormed(second)
    requires second.IAmCamera? || second.IAmDispatcher?
    ensures Converse(registry, log, id, Encode(second) + rest) == SessionEnd(registry, log, Some(ALREADY_IDENTIFIED), [])
  {
    DecodeEncode(second, rest);
    ConverseOnMessage(registry, log, id, Encode(second) + rest);
  }

  /** A heartbeat request starts an emitter exactly when its interval is not zero, and changes nothing else. */
  lemma SessionHeartbeat(registry: map<ClientId, ClientInfo>, log: seq<Sighting>, id: ClientId, interval: u32, rest: seq<u8>)
    ensures Session(registry, log, id, Encode(WantHeartbeat(interval)) + rest)
            == AfterHeartbeats(if interval == 0 then [] else [interval], Session(registry, log, id, rest))
  {
    var m := WantHeartbeat(interval);
    DecodeEncode(m, rest);
    assert (Encode(m) + rest)[|Encode(m)|..] == rest;
  }

  /** A message with an unknown tag ends the connection with "Illegal message type". */
  lemma SessionIllegal(registry: map<ClientId, ClientInfo>, log: seq<Sighting>, id: ClientId, input: seq<u8>)
    requires id !in registry
    requires input != [] && input[0] !in {TAG_PLATE, TAG_WANT_HEARTBEAT, TAG_I_AM_CAMERA, TAG_I_AM_DISPATCHER}
    ensures Session(registry, log, id, input) == SessionEnd(registry, log, Some(ILLEGAL_MESSAGE), [])
  {
    assert registry[id := Unknown] - {id} == registry;
  }

  class Flock {
    var registry: map<ClientId, ClientInfo>
    var log: seq<Sighting>

    /**
     * Every logged sighting was sent by a client that is still registered as a
     * camera, so the violation scan can always resolve its road, mile and limit.
     */
    ghost predicate Valid()
      reads this
    {
      LogFromCameras(registry, log)
    }

    /** `FlockState::new` */
    constructor ()
      ensures Valid() && registry == map[] && log == []
    {
      registry := map[];
      log := [];
    }

    /** `handle_client`'s opening: the fresh connection is registered as Unknown. */
    method Connect(id: ClientId)
      requires Valid() && id !in registry
      modifies this
      ensures Valid()
      ensures registry == old(registry)[id := Unknown] && log == old(log)
    {
      registry := registry[id := Unknown];
    }

    /** A registered camera keeps its entry and its data, whatever happens next. */
    twostate predicate CamerasKept()
      reads this
    {
      forall k :: k in old(registry) && old(registry)[k].Camera? ==> k in registry && registry[k] == old(registry)[k]
    }

    /** Only `id`'s own entry may change, it stays registered, and the log only gains sightings from `id`. */
    twostate predicate Confined(id: ClientId)
      reads this
    {
      && (id in old(registry) ==> id in registry)
      && (forall k :: k != id ==> (k in registry <==> k in old(registry)))
      && (forall k :: k != id && k in registry ==> registry[k] == old(registry)[k])
      && old(log) <= log
      && (forall i :: |old(log)| <= i < |log| ==> log[i].clientId == id)
    }

    /**
     * `handle_message`. A client identifies once, from Unknown; a plate is
     * logged only from a camera. The service looks the client up with
     * `expect` for IAmCamera and Plate (a panic if it is missing), and skips
     * silently for IAmDispatcher.
     */
    method HandleMessage(id: ClientId, msg: Inbound) returns (outcome: Outcome)
      requires Valid()
      requires (msg.IAmCamera? || msg.Plate?) ==> id in registry
      modifies this
      ensures Valid() && CamerasKept() && Confined(id)
      ensures Turn(registry, log, outcome) == Transition(old(registry), old(log), id, msg)
      ensures outcome.Fail? ==> IsErrorText(outcome.error)
    {
      match msg {
        case WantHeartbeat(interval) =>
          if interval == 0 {
            outcome := Continue;
          } else {
            outcome := StartHeartbeat(interval);
          }
        case IAmCamera(road, mile, limit) =>
          if registry[id].Unknown? {
            registry := registry[id := Camera(road, mile, limit)];
            outcome := Continue;
          } else {
            outcome := Fail(ALREADY_IDENTIFIED);
          }
        case IAmDispatcher(roads) =>
          if id in registry {
            if registry[id].Unknown? {
              registry := registry[id := Dispatcher(roads)];
              outcome := Continue;
            } else {
              outcome := Fail(ALREADY_IDENTIFIED);
            }
          } else {
            outcome := Continue;
          }
        case Plate(plate, timestamp) =>
          if registry[id].Camera? {
            log := log + [Sighting(id, plate, timestamp)];
            outcome := Continue;
          } else {
            outcome := Fail(ONLY_CAMERAS);
          }
      }
    }

    /**
     * One turn of `handle_client`'s loop: read a message and handle it. The
     * end of the stream and a truncated message close the connection quietly;
     * an unknown tag writes the Error "Illegal message type" first.
     */
    method Step(id: ClientId, reader: ByteReader) returns (r: ReadResult, outcome: Outcome)
      requires Valid() && reader.Valid() && id in registry
      modifies this, reader
      ensures Valid() && CamerasKept() && Confined(id) && reader.Valid() && reader.pos >= old(reader.pos)
      ensures outcome.Fail? ==> IsErrorText(outcome.error)
      ensures r == Decode(old(reader.Rest()))
      ensures r.Message? ==> reader.pos == old(reader.pos) + r.size
      ensures outcome.Continue? || outcome.StartHeartbeat? ==> reader.pos > old(reader.pos)
      ensures r.Message? ==> Turn(registry, log, outcome) == Transition(old(registry), old(log), id, r.msg)
      ensures !r.Message? ==> registry == old(registry) && log == old(log)
      ensures r.NoMessage? || r.UnexpectedEof? ==> outcome == Close
      ensures r.InvalidData? ==> outcome == Fail(ILLEGAL_MESSAGE)
    {
      r := ReadMessage(reader);
      match r {
        case Message(msg, _) =>
          outcome := HandleMessage(id, msg);
        case InvalidData =>
          outcome := Fail(ILLEGAL_MESSAGE);
        case _ =>
          outcome := Close;
      }
    }

    /** The end of `handle_client`: a camera stays registered, any other client is removed. */
    method Disconnect(id: ClientId)
      requires Valid()
      modifies this
      ensures Valid() && CamerasKept()
      ensures id in old(registry) && old(registry)[id].Camera? ==> registry == old(registry)
      ensures !(id in old(registry) && old(registry)[id].Camera?) ==> registry == old(registry) - {id}
      ensures log == old(log)
    {
      if !(id in registry && registry[id].Camera?) {
        registry := registry - {id};
      }
    }

    /**
     * `handle_client` for a connection whose whole input is `input`: register,
     * handle messages until the stream ends or a step fails, then unregister.
     * Returns the text of the Error message the session wrote, if it wrote one
     * (`ErrorMessage` gives its bytes), and the intervals of the heartbeat
     * emitters started; all of it, and the new shared state, as `Session` says.
     */
    method Serve(id: ClientId, input: seq<u8>) returns (error: Option<string>, heartbeats: seq<u32>)
      requires Valid() && id !in registry
      modifies this
      ensures Valid() && CamerasKept()
      ensures SessionEnd(registry, log, error, heartbeats) == Session(old(registry), old(log), id, input)
    {
      Connect(id);
      ghost var target := Converse(registry, log, id, input);
      var reader := new ByteReader(input);
      heartbeats := [];
      assert AfterHeartbeats(heartbeats, target) == target;
      var outcome := Continue;
      while !(outcome.Fail? || outcome.Close?)
        invariant Valid() && reader.Valid() && reader.data == input
        invariant id in registry && CamerasKept()
        invariant outcome.Fail? ==> IsErrorText(outcome.error)
        invariant !(outcome.Fail? || outcome.Close?) ==>
          target == AfterHeartbeats(heartbeats, Converse(registry, log, id, reader.Rest()))
        invariant outcome.Fail? || outcome.Close? ==>
          target == SessionEnd(registry, log, if outcome.Fail? then Some(outcome.error) else None, heartbeats)
        decreases (if outcome.Fail? || outcome.Close? then 0 else 1) + |reader.data| - reader.pos
      {
        ghost var rest, registry0, log0, heartbeats0 := reader.Rest(), registry, log, heartbeats;
        var r;
        r, outcome := Step(id, reader);
        if outcome.StartHeartbeat? {
          heartbeats := heartbeats + [outcome.interval];
        }
        ConverseAdvance(target, registry0, log0, id, rest, heartbeats0, r, Turn(registry, log, outcome), heartbeats);
        if r.Message? {
          assert reader.Rest() == rest[r.size..];
        }
      }
      error := if outcome.Fail? then Some(outcome.error) else None;
      Disconnect(id);
    }
  }
}

# Protohackers servers, modelled in Dafny

This project models the logic of seven small network servers written in
Rust for the Protohackers exercises, and proves properties of each:

- **flock** (speed daemon). The binary wire format covers the four inbound
  messages plus the Ticket and Error messages. The per-connection role state
  machine updates a shared client registry and sighting log. The violation
  scan `check_traffic_log` groups sightings by plate, sorts each group stably
  by timestamp and flags consecutive same-road pairs over the first camera's
  limit. The dispatcher's dedup keeps one ticket per plate per day and
  records only successful deliveries.
- **prices** (means to an end). It covers the 9-byte message codec, the
  per-connection `timestamp -> price` map and the inclusive-range mean with
  i64 accumulators and truncating division.
- **lrcp** (line reversal). It covers the slash-delimited packet parser, the
  text of the replies, and the session-table update `handle_packet` with
  the reply it sends.
- **database** (unusual database program). It covers request parsing
  (insert on the first '=', the `version` query, retrieve otherwise) and the
  key-value store with its replies.
- **proxy** (mob in the middle). It covers the Boguscoin address rewrite of a
  chat line (`intercept_message`).
- **chat** (budget chat). It covers the name check, the filter on incoming
  lines, and the broker that hands out ids and decides who receives each
  announcement and message.
- **prime** (prime time). It covers the trial-division primality test and
  the request handler.

The modules are:

- `Wrappers`: Option and Result.
- `Seqs`: sequences without repeats, for the enumerations of hash-map keys.
- `Bytes`: fixed-width integers and their big-endian bytes.
- `Text`: the parts of Rust's `str` API the servers use, such as trimming,
  `split`, `split_once`, `join` and decimal `usize`.
- One module per server component: `FlockWire`, `FlockSession`,
  `FlockViolations`, `FlockDispatch`, `Prices`, `Lrcp`, `Database`, `Proxy`,
  `Chat` and `Prime`.

State that the servers update in place is modelled as classes whose methods
carry `modifies`:

- `FlockSession.Flock`: the registry and the traffic log.
- `FlockDispatch.TicketLedger`: the `tickets` and `issued_days` sets.
- `FlockWire.ByteReader`: the connection's read cursor.
- `Prices.PriceSession`.
- `Lrcp.SessionTable`.
- `Database.Store`.
- `Chat.Broker`.

Loops become methods with invariants, and each is proved against a pure
function of the inputs:

- `ReadMessage`
- `GroupByPlate`
- `ScanGroup`
- `CheckTrafficLog`
- `Deliver`
- `SendToOthers`
- `Names`
- `Serve`

Hash-map iteration order is arbitrary in the source. The model leaves it
open: the order is chosen by `:|`, and the contracts hold for every order.

## Model

| member | source | states |
|---|---|---|
| `Bytes.U16RoundTrip` | flock/src/main.rs:146-148 | `u16::from_be_bytes` and `to_be_bytes` are inverse on two bytes, both ways |
| `Bytes.U32RoundTrip` | flock/src/main.rs:119-124 | `u32::from_be_bytes` and `to_be_bytes` are inverse on four bytes, both ways |
| `Bytes.I32RoundTrip` | prices/src/main.rs:81-90 | big-endian two's-complement `i32` decoding and encoding are inverse, both ways |
| `Bytes.AsciiBytes` | flock/src/main.rs:98 | `as_bytes` of ASCII text has one byte per character, equal to its code |
| `Text.DropTrailing` | proxy/src/main.rs:11 | trimming at the end keeps a prefix that does not end in a trimmed character, and every dropped character is one |
| `Text.DropLeading` | chat/src/main.rs:51 | trimming at the start keeps a suffix that does not start with a trimmed character, and every dropped character is one |
| `Text.AsciiUtf8Len` | proxy/src/main.rs:17-18 | for ASCII text, `str::len` (bytes) equals the character count |
| `Text.TrimOfTrimmed` | chat/src/main.rs:51-58 | text with no whitespace at either end is its own `trim`, also after a newline is added |
| `Text.Split` | proxy/src/main.rs:13-14 | `split(sep)` gives at least one part, no part holds `sep`, and joining the parts with `sep` gives the input back |
| `Text.SplitJoin` | proxy/src/main.rs:13-28 | splitting a join of separator-free words gives the words back |
| `Text.SplitOnce` | database/src/main.rs:17-18 | `split_once('=')` yields the '='-free text before the first '=' and everything after it, and the input is their join |
| `Text.NatToString` | lrcp/src/main.rs:152 | `format!("{}", n)` is a non-empty run of decimal digits, with a leading zero only for 0 |
| `Text.ParseUsize` | lrcp/src/main.rs:93 | `parse::<usize>` succeeds exactly when the text, less one leading '+', is a non-empty run of digits whose value is at most `usize::MAX`, and then gives that value |
| `Text.ParseUsizeEdges` | lrcp/src/main.rs:93 | the empty text, a lone '+', a non-digit after the first character and a number above `usize::MAX` are refused; a leading '+' is accepted |
| `Text.ParseNatToString` | lrcp/src/main.rs:108 | parsing the decimal text of any `n <= usize::MAX` gives `n` back |
| `FlockWire.DecodeRoads` | flock/src/main.rs:156-165 | `chunks_exact(2)` yields one road per byte pair, road `i` being the big-endian pair at `2i` |
| `FlockWire.RoadsRoundTrip` | flock/src/main.rs:156-165 | decoding encoded roads gives them back |
| `FlockWire.EncodeDecodeRoads` | flock/src/main.rs:156-165 | encoding decoded roads gives the bytes back |
| `FlockWire.Decode` | flock/src/main.rs:103-178 | no message exactly at the end of the stream; `InvalidData` exactly for a tag other than 0x20, 0x40, 0x80, 0x81; a message consumes between 1 and all of the remaining bytes |
| `FlockWire.DecodeEncode` | flock/src/main.rs:111-168 | any well-formed message, followed by any bytes, is read back exactly, consuming its own encoding |
| `FlockWire.DecodeEncodePlate` | flock/src/main.rs:112-126 | a Plate message reads back: length byte, plate, big-endian u32 timestamp |
| `FlockWire.DecodeEncodeWantHeartbeat` | flock/src/main.rs:127-134 | a WantHeartbeat message reads back: big-endian u32 interval |
| `FlockWire.DecodeEncodeIAmCamera` | flock/src/main.rs:135-150 | an IAmCamera message reads back: road, mile, limit as big-endian u16 |
| `FlockWire.DecodeEncodeIAmDispatcher` | flock/src/main.rs:151-168 | an IAmDispatcher message reads back: count byte, then that many u16 roads |
| `FlockWire.EncodeDecode` | flock/src/main.rs:103-178 | conversely, every message read is well formed and the bytes it consumed are exactly its encoding |
| `FlockWire.EncodeDecodePlate` | flock/src/main.rs:112-126 | the bytes a Plate read consumed are its encoding |
| `FlockWire.EncodeDecodeWantHeartbeat` | flock/src/main.rs:127-134 | the bytes a WantHeartbeat read consumed are its encoding |
| `FlockWire.EncodeDecodeIAmCamera` | flock/src/main.rs:135-150 | the bytes an IAmCamera read consumed are its encoding |
| `FlockWire.EncodeDecodeIAmDispatcher` | flock/src/main.rs:151-168 | the bytes an IAmDispatcher read consumed are its encoding |
| `FlockWire.DecodeTruncated` | flock/src/main.rs:113-157 | a stream that ends part-way through a message gives `UnexpectedEof` from `read_exact`, never a message |
| `FlockWire.EncodeTicket` | flock/src/main.rs:22-38 | a Ticket is 18 bytes plus the plate, tagged 0x21 |
| `FlockWire.TicketRoundTrip` | flock/src/main.rs:22-38 | a Ticket whose plate fits the length byte is read back unchanged by a dispatcher |
| `FlockWire.EncodeError` | flock/src/main.rs:95-101 | an Error message is the tag 0x10, the length byte, then the text |
| `FlockWire.ErrorRoundTrip` | flock/src/main.rs:95-101 | an Error text shorter than 256 bytes is read back unchanged |
| `FlockWire.ByteReader.constructor` | flock/src/main.rs:286 | the reader starts at the first byte of the stream |
| `FlockWire.ByteReader.ReadByte` | flock/src/main.rs:104-109 | `read` of one byte returns 0 bytes only at the end of the stream, otherwise the next byte |
| `FlockWire.ByteReader.ReadExact` | flock/src/main.rs:113-117 | `read_exact(n)` returns the next `n` bytes when they exist and fails otherwise |
| `FlockWire.ReadMessage` | flock/src/main.rs:103-178 | reading a message from the stream yields `Decode` of the remaining bytes and advances by the message size |
| `FlockWire.ReadPlate` | flock/src/main.rs:112-126 | the Plate payload read field by field agrees with `Decode` |
| `FlockWire.ReadWantHeartbeat` | flock/src/main.rs:127-134 | the WantHeartbeat payload read agrees with `Decode` |
| `FlockWire.ReadIAmCamera` | flock/src/main.rs:135-150 | the IAmCamera payload read field by field agrees with `Decode` |
| `FlockWire.ReadIAmDispatcher` | flock/src/main.rs:151-168 | the IAmDispatcher payload read agrees with `Decode` |
| `FlockSession.ErrorTextsAscii` | flock/src/main.rs:95-101 | each Error text the service sends is ASCII and fits the `as u8` length byte |
| `FlockSession.ErrorMessage` | flock/src/main.rs:95-101 | the Error message for each of the three texts reads back as that text's bytes, so the length cast never truncates |
| `FlockSession.Flock.constructor` | flock/src/main.rs:84-92 | the registry and the log start empty |
| `FlockSession.Flock.Connect` | flock/src/main.rs:288-293 | a new connection is registered as Unknown, and nothing else changes |
| `FlockSession.Flock.HandleMessage` | flock/src/main.rs:180-282 | roles: one identification from Unknown, else "Client already identified"; a plate is logged only from a camera, else "Only cameras can send plates"; a heartbeat starts only for a non-zero interval. Only the sender's entry changes, cameras keep their data, and every logged sighting comes from a camera |
| `FlockSession.Flock.Step` | flock/src/main.rs:295-314 | one read-and-handle turn: end of stream or truncation closes quietly; an unknown tag fails with "Illegal message type" |
| `FlockSession.Flock.Disconnect` | flock/src/main.rs:317-325 | a camera stays registered at close, and any other client is removed |
| `FlockSession.Transition` | flock/src/main.rs:180-282 | one message keeps the sender registered, and any refusal carries one of the service's Error texts |
| `FlockSession.TransitionFrame` | flock/src/main.rs:180-282 | one message changes only the sender's entry and only from Unknown, logs only the sender's sightings, keeps every sighting from a camera, never closes the connection by itself and starts heartbeats only for non-zero intervals |
| `FlockSession.ConverseFrame` | flock/src/main.rs:295-314 | the read-and-handle loop keeps to the sender's own entry and sightings, a role once taken stays, and only the service's Error texts are written |
| `FlockSession.ConverseAdvance` | flock/src/main.rs:295-314 | one turn of the loop either ends the connection with the ending the whole conversation predicts (a refusal, "Illegal message type" on an unknown tag, quietly at the end of the stream or on truncation) or leaves the rest to the bytes after the message |
| `FlockSession.Flock.Serve` | flock/src/main.rs:284-326 | the shared state after the connection, the Error text written and the heartbeat intervals started are exactly those of `Session`: register as Unknown, handle each decoded message until one is refused or the input stops, then remove any client that is not a camera |
| `FlockSession.SessionFrame` | flock/src/main.rs:284-326 | a whole connection changes only its own entry and appends only its own sightings; afterwards it is registered only as a camera, which it must be if it logged anything; it writes only the service's Error texts and starts heartbeats only for non-zero intervals |
| `FlockSession.ConverseCameraPlates` | flock/src/main.rs:262-277 | a camera's Plate messages are all logged, in order, and the conversation ends quietly with the input |
| `FlockSession.SessionCameraPlates` | flock/src/main.rs:202-217 | a client that identifies as a camera and then sends plates stays registered as that camera, with every plate logged in order |
| `FlockSession.SessionPlateFirst` | flock/src/main.rs:262-272 | a plate sent before identifying as a camera is refused with "Only cameras can send plates"; nothing is logged and the client is removed |
| `FlockSession.SessionIdentifyTwice` | flock/src/main.rs:211-252 | a second identification is refused with "Client already identified"; nothing is logged and the first role stays, a camera staying registered after the close |
| `FlockSession.ConverseIdentifyAgain` | flock/src/main.rs:211-252 | a client that already has a role is refused any further identification with "Client already identified", and the connection ends with nothing changed |
| `FlockSession.SessionHeartbeat` | flock/src/main.rs:187-200 | a heartbeat request starts an emitter exactly when its interval is not zero, and the rest of the connection goes on as without it |
| `FlockSession.SessionIllegal` | flock/src/main.rs:305-312 | a message with an unknown tag ends the connection with "Illegal message type", and the client is removed |
| `FlockViolations.PlateDetailsSound` | flock/src/main.rs:336-350 | every member of a plate's group resolves a logged sighting of that plate from a registered camera |
| `FlockViolations.PlateDetailsComplete` | flock/src/main.rs:336-350 | every logged sighting of the plate from a registered camera is in the group |
| `FlockViolations.PlateDetailsKeepsAll` | flock/src/main.rs:336-350 | on a log whose every sighting comes from a registered camera, as the service keeps it, every sighting resolves and a plate's group has one entry per sighting of the plate |
| `FlockViolations.InsertByTimePermutes` | flock/src/main.rs:353 | inserting into the sorted group adds exactly that one sighting |
| `FlockViolations.InsertByTimeSorted` | flock/src/main.rs:353 | inserting into a sorted group keeps it sorted by timestamp |
| `FlockViolations.SortByTime` | flock/src/main.rs:353 | `sort_by_key(timestamp)` yields a sorted permutation of the group |
| `FlockViolations.InsertByTimeStable` | flock/src/main.rs:353 | an inserted sighting goes after the sightings with its timestamp |
| `FlockViolations.SortByTimeStable` | flock/src/main.rs:353 | the sort is stable: sightings with equal timestamps keep their log order |
| `FlockViolations.Speed100` | flock/src/main.rs:370-371 | the speed in hundredths of mph is truncated (`speed * elapsed <= distance * 360000`) and saturates at 65535 |
| `FlockViolations.OverLimit` | flock/src/main.rs:370-374 | the strict comparison flags a pair exactly when the average speed is at least 0.01 mph over the limit |
| `FlockViolations.PairTicket` | flock/src/main.rs:356-383 | a window gives a ticket exactly when both sightings are on one road, the miles differ, time passed and the speed is over the first camera's limit; the ticket's fields come from that pair |
| `FlockViolations.ScanPairsMembers` | flock/src/main.rs:355-385 | a ticket comes out of the `windows(2)` scan if and only if some consecutive pair of the sorted group flags it |
| `FlockViolations.ScanPairsSound` | flock/src/main.rs:355-385 | every scanned ticket is flagged by some consecutive pair |
| `FlockViolations.ScanPairsComplete` | flock/src/main.rs:355-385 | every flagged consecutive pair's ticket is scanned |
| `FlockViolations.PlateDetailsFit` | flock/src/main.rs:337-348 | the group, sorted or not, carries only limits of registered cameras |
| `FlockViolations.SortedFromLog` | flock/src/main.rs:336-353 | every sighting of the sorted group comes from a logged sighting of that plate |
| `FlockViolations.CandidateFromLog` | flock/src/main.rs:328-389 | every candidate for a plate is a ticket for that plate backed by two logged sightings from cameras on its road, strictly ordered in time, at different miles, with speed over the first camera's limit |
| `FlockViolations.GroupByPlate` | flock/src/main.rs:336-350 | the grouping loop maps exactly the plates with a resolvable sighting, each to its sightings in log order |
| `FlockViolations.ScanGroup` | flock/src/main.rs:355-385 | the window loop over a sorted group produces exactly the scan's candidates, in order |
| `FlockViolations.PlateTickets` | flock/src/main.rs:352-385 | one plate's loop body (sort, then scan) produces that plate's candidates |
| `FlockViolations.CheckTrafficLog` | flock/src/main.rs:328-389 | the candidates are the per-plate candidates concatenated over an order that visits each plate with a resolvable sighting exactly once |
| `FlockDispatch.MarkedDaysAdd` | flock/src/main.rs:454-457 | recording a ticket adds exactly its two (plate, day) marks |
| `FlockDispatch.StepConsistent` | flock/src/main.rs:411-458 | handling one candidate keeps `issued_days` equal to the days of the issued tickets, and keeps two tickets for one plate off a shared day |
| `FlockDispatch.RunConsistent` | flock/src/main.rs:411-459 | a whole pass over the candidates keeps that invariant |
| `FlockDispatch.RunGrows` | flock/src/main.rs:411-459 | the issued tickets and days only grow during a pass |
| `FlockDispatch.DeliveredRecorded` | flock/src/main.rs:411-459 | each delivered ticket was not issued before, is issued afterwards, and is delivered once; the issued set after the pass is the old one plus the deliveries |
| `FlockDispatch.DeliveredDayDisjoint` | flock/src/main.rs:416-423 | no two tickets for one plate, delivered in the pass or issued before, share a day |
| `FlockDispatch.RunIdempotent` | flock/src/main.rs:401-460 | rescanning the same candidates with the same dispatchers delivers nothing new |
| `FlockDispatch.RunSnoc` | flock/src/main.rs:411-459 | one more candidate is one more dedup step, delivering that candidate or nothing |
| `FlockDispatch.TicketLedger.constructor` | flock/src/main.rs:398-399 | both sets start empty |
| `FlockDispatch.TicketLedger.Deliver` | flock/src/main.rs:410-459 | the loop's new sets are the pass of `Run`, the invariant is kept, and each delivered ticket goes to a dispatcher registered for its road |
| `Prices.ParseMessage` | prices/src/main.rs:69-97 | the length is checked first ("Message must be 9 bytes"), then the kind byte ("First byte must be 'I' or 'Q'"); a message parses exactly when it is 9 bytes starting with 'I' or 'Q' |
| `Prices.ParseEncode` | prices/src/main.rs:69-97 | every message parses back from its 9-byte encoding |
| `Prices.EncodeParse` | prices/src/main.rs:69-97 | every parsed buffer is the encoding of its message |
| `Prices.TruncDiv` | prices/src/main.rs:121 | i64 `/` truncates toward zero |
| `Prices.SumBounds` | prices/src/main.rs:115-119 | with every price in range between m and n, the fold's sum lies between count·m and count·n |
| `Prices.CountBound` | prices/src/main.rs:115-119 | the fold's count is at most the number of timestamps in the range |
| `Prices.MeanWithin` | prices/src/main.rs:121 | a truncated mean of values between m and n lies between m and n |
| `Prices.MeanBetween` | prices/src/main.rs:107-124 | the answer lies between any bounds on the prices in range, so the `as i32` cast never wraps |
| `Prices.FoldFitsI64` | prices/src/main.rs:115-119 | the i64 accumulators of the fold never overflow |
| `Prices.MeanEmpty` | prices/src/main.rs:111-121 | an inverted range or a range with no prices is answered with 0 |
| `Prices.RangeIgnoresOutside` | prices/src/main.rs:115-116 | inserting outside the queried range changes neither count nor sum |
| `Prices.QueryAfterInsert` | prices/src/main.rs:99-124 | a query for a single timestamp returns the price last inserted at it |
| `Prices.PriceSession.constructor` | prices/src/main.rs:158 | a connection's data starts empty |
| `Prices.PriceSession.HandleInsert` | prices/src/main.rs:99-105 | an insert sets the price at its timestamp, overwriting |
| `Prices.PriceSession.HandleRequest` | prices/src/main.rs:126-148 | a malformed message is an error and changes nothing; an insert stores and replies nothing; a query replies its mean as 4 big-endian bytes |
| `Lrcp.ParsePacket` | lrcp/src/main.rs:53-129 | "Expected first character to be '/'" and "Expected last character to be '/'" are given exactly for a missing slash after `trim_ascii_end`; each accepted packet has its type's field count, its session id and its parsed number |
| `Lrcp.RenderConnect` | lrcp/src/main.rs:78-86 | the connect packet is `/connect/ID/` |
| `Lrcp.RenderData` | lrcp/src/main.rs:87-101 | the data packet is `/data/ID/POS/DATA/` |
| `Lrcp.RenderAck` | lrcp/src/main.rs:152 | the ack reply is `/ack/ID/LENGTH/` |
| `Lrcp.RenderClose` | lrcp/src/main.rs:175 | the close reply is `/close/ID/` |
| `Lrcp.FieldsOfJoin` | lrcp/src/main.rs:67-70 | stripping the outer slashes and splitting on '/' recovers slash-free fields |
| `Lrcp.FieldsOfRender` | lrcp/src/main.rs:56-70 | a packet's text survives `trim_ascii_end`, has both outer slashes, and splits into the packet's fields |
| `Lrcp.ParseRender` | lrcp/src/main.rs:53-129 | every packet with non-empty, slash-free fields and numbers within `usize` parses back to itself |
| `Lrcp.ParseFieldsConnect` | lrcp/src/main.rs:78-86 | two fields starting with "connect" parse to Connect |
| `Lrcp.ParseFieldsData` | lrcp/src/main.rs:87-101 | four fields starting with "data" and a valid position parse to Data |
| `Lrcp.ParseFieldsAck` | lrcp/src/main.rs:102-114 | three fields starting with "ack" and a valid length parse to Ack |
| `Lrcp.ParseFieldsClose` | lrcp/src/main.rs:115-124 | two fields starting with "close" parse to Close |
| `Lrcp.TrimOuterSlashes` | lrcp/src/main.rs:67 | `trim_matches('/')` removes exactly the outer slashes of a body that neither starts nor ends with one |
| `Lrcp.NewSession` | lrcp/src/main.rs:28-39 | a new session is in Handshake at position 0 with no pending data |
| `Lrcp.UntouchedAck` | lrcp/src/main.rs:143-172 | since nothing advances a session, a data packet is acked with its own byte length at position 0 and with 0 elsewhere |
| `Lrcp.RepliesParse` | lrcp/src/main.rs:139-198 | the ack and close replies are protocol packets that parse back to Ack and Close |
| `Lrcp.SessionTable.constructor` | lrcp/src/main.rs:207 | the table starts empty |
| `Lrcp.SessionTable.HandlePacket` | lrcp/src/main.rs:132-202 | connect adds the session only if absent and acks 0; data acks the pending length (plus the data when at the expected position) or closes an unknown session; ack replies only to an unknown session; close removes and confirms; every session stays keyed by its id |
| `Database.ParseRequestCases` | database/src/main.rs:13-30 | an insert exactly when there is a '=', with the trimmed key before the first '=' and the untrimmed value after it; the version query exactly when there is no '=' and the text trims to "version"; otherwise a retrieve of the untrimmed text |
| `Database.ParseRender` | database/src/main.rs:13-30 | every request a client can send parses back to itself |
| `Database.ParseInsert` | database/src/main.rs:17-22 | "key=value" with a trimmed, '='-free key parses to that insert, whatever the value holds |
| `Database.VersionTrimmed` | database/src/main.rs:24-25 | "version" is its own trim and holds no '=' |
| `Database.RespondFrame` | database/src/main.rs:32-48 | an insert sets only its key and replies nothing; the other requests leave the store alone |
| `Database.RetrieveAfterInsert` | database/src/main.rs:34-42 | a retrieve after an insert of the key replies "key=value" |
| `Database.RetrieveReply` | database/src/main.rs:37-42 | a retrieve replies exactly for stored keys, with "key=stored value" |
| `Database.VersionFixed` | database/src/main.rs:43-46 | a client cannot change the version reply by storing a "version" key |
| `Database.Store.constructor` | database/src/main.rs:52 | the store starts empty |
| `Database.Store.HandleRequest` | database/src/main.rs:32-48 | the store and the reply change as `Respond` says |
| `Proxy.TonysAccountIsAddress` | proxy/src/main.rs:7-21 | Tony's address is itself an address and holds no space |
| `Proxy.RewriteChanges` | proxy/src/main.rs:15-25 | a word changes exactly when it is an address other than Tony's, it then becomes Tony's, and rewriting twice is rewriting once |
| `Proxy.Intercept` | proxy/src/main.rs:9-33 | the output ends with a newline exactly when the input does |
| `Proxy.BodyEnd` | proxy/src/main.rs:11-28 | the rejoined words end in a non-whitespace character or are empty |
| `Proxy.JoinedEnd` | proxy/src/main.rs:13-28 | rewriting the words of text ending in non-whitespace and rejoining them keeps that ending |
| `Proxy.JoinEnd` | proxy/src/main.rs:28 | a join ends with its last word's last character when that word is non-empty, and a join ending in something other than the separator has a non-empty last word |
| `Proxy.RewriteEnd` | proxy/src/main.rs:15-25 | a rewritten word still ends in a non-whitespace character |
| `Proxy.InterceptWords` | proxy/src/main.rs:13-28 | the output's space-separated words are the input's words, each rewritten, one for one |
| `Proxy.RewriteAllIdempotent` | proxy/src/main.rs:15-26 | rewriting the words twice is rewriting them once |
| `Proxy.BodyIdempotent` | proxy/src/main.rs:9-33 | the words of a rewritten line are unchanged by a second rewrite |
| `Proxy.InterceptIdempotent` | proxy/src/main.rs:9-33 | intercepting a line twice gives the same as once |
| `Chat.CheckName` | chat/src/main.rs:47-63 | a name is accepted exactly when the trimmed line is non-empty and alphanumeric, and is then the trimmed line; otherwise the error is "Name cannot be empty, and must be alphanumeric" |
| `Chat.CheckNameAccepts` | chat/src/main.rs:51-58 | an accepted name, sent again with or without its line ending, is accepted unchanged |
| `Chat.ForwardedLine` | chat/src/main.rs:113-118 | a line is forwarded exactly when it is not blank, and then trimmed |
| `Chat.ForwardedTrimmed` | chat/src/main.rs:113-118 | a forwarded message is non-empty, with no whitespace at either end |
| `Chat.NextFresh` | chat/src/main.rs:146-200 | the counter stays above every id. A join adds a fresh id and is announced to everybody already present; a leave removes the id and is announced to everybody who remains; a message changes nothing and never goes back to its sender |
| `Chat.JoinIdsIncrease` | chat/src/main.rs:149-150 | the ids handed out start at the counter and strictly increase, so none is reused |
| `Chat.Enumerate` | chat/src/main.rs:169 | a hash-map iteration visits each key exactly once |
| `Chat.AddressedEach` | chat/src/main.rs:169-175 | over a duplicate-free order, everybody except the skipped id gets the text exactly once |
| `Chat.SendToOthers` | chat/src/main.rs:169-175 | the broadcast loop sends the text once to each client except the skipped one, and to nobody else |
| `Chat.NamesOf` | chat/src/main.rs:152 | the names, position by position, of the listed clients |
| `Chat.Names` | chat/src/main.rs:152 | the collected names are those of all clients, each once, in iteration order |
| `Chat.Broker.constructor` | chat/src/main.rs:143-144 | no clients and a counter of 0 |
| `Chat.Broker.Join` | chat/src/main.rs:148-176 | the new id is the old counter and unused; the welcome lists exactly the names already present (or "...just you it seems..."); the announcement goes to everybody else once |
| `Chat.Broker.Message` | chat/src/main.rs:177-188 | "[name] content" goes once to every other client; nothing for an unknown sender |
| `Chat.Broker.Leave` | chat/src/main.rs:189-200 | the client is removed and "* name has left the room" goes once to every remaining client |
| `Prime.Isqrt` | prime/src/main.rs:60 | `isqrt` is the largest number whose square does not exceed `n` |
| `Prime.AnyDivisorExists` | prime/src/main.rs:61 | the stepped scan finds a divisor exactly when one lies on its stride |
| `Prime.EvenNotPrime` | prime/src/main.rs:58 | even numbers above 2 are reported not prime, and are not prime |
| `Prime.OutsideNotPrime` | prime/src/main.rs:49-51 | negative and fractional numbers are reported not prime |
| `Prime.LimitBelow` | prime/src/main.rs:60-61 | for `n >= 3` the scan limit `isqrt(n) + 1` stays below `n` |
| `Prime.PrimeNotFound` | prime/src/main.rs:59-62 | for a prime, no candidate up to the limit divides it |
| `Prime.CompositeFound` | prime/src/main.rs:59-62 | for an odd composite, some odd candidate from 3 up to the limit divides it |
| `Prime.IsPrimeU64Correct` | prime/src/main.rs:53-63 | the test on a `u64` answers true exactly for primes |
| `Prime.IsPrimeCorrect` | prime/src/main.rs:48-64 | `is_prime` of an integral number within `u64` is true exactly when it is prime |
| `Prime.HandlePrimeRequestAnswers` | prime/src/main.rs:66-87 | a request is answered exactly when its method is "isPrime"; the answer names "isPrime" and tells whether the number is prime |

## Left out

- Sockets, threads, locks and channels. Each method of a class is one
  critical section. The dispatcher's pass reads the registry once, as a
  snapshot. The crossbeam channels of chat become the list of
  (recipient, text) deliveries a broker method returns.
- The read loops of the servers (`handle_client` in prices, prime, proxy and
  chat; the `recv_from` loops in lrcp and database) are left out: they only
  move bytes to the modelled handlers. flock's loop is modelled (`Serve`)
  because it carries the role state machine.
- flock heartbeats: the emitter thread and its sleep are not modelled. The
  model records only that an emitter starts, and with which interval.
- flock connection ids are fresh random UUIDs. The model takes freshness as
  a precondition of `Connect` and `Serve`.
- flock plates are byte sequences. `String::from_utf8(..).expect` on a
  non-UTF-8 plate is a panic that is not modelled, and neither are the
  `str::from_utf8(..).unwrap()`/`expect` panics of lrcp and database.
- FlockViolations.CheckTrafficLog: `s1.limit * 100` is a `u16` multiply.
  Every registered camera is required to have a limit of at most 655
  (`CameraLimitsFit`), so the overflow of larger limits is not modelled.
  A camera may announce any `u16` limit, so the registry the service keeps
  does not always meet this requirement, and the scan is not modelled on
  such a registry.
- FlockViolations.Speed100: the speed is computed on integers
  (`min(65535, distance * 360000 / elapsed)`) rather than in `f64`. The two
  agree except where floating-point rounding moves the product across an
  integer.
- FlockSession.Flock.HandleMessage: the `expect` on a missing registry
  entry (IAmCamera, Plate) is a precondition rather than a panic.
- FlockDispatch.TicketLedger.Deliver: which dispatcher receives a ticket
  when several cover its road (`values().find` over a hash map) is left
  open. So is whether each write succeeds, which is the `writeOk`
  parameter.
- Chat.Broker.Leave: the broker's `unwrap` on an unknown id is a
  precondition rather than a panic.
- Text.IsAlphanumeric: `char::is_alphanumeric` (used by Proxy.IsAddress and
  Chat.CheckName) is modelled on ASCII letters and digits only. Other
  Unicode letters and digits are not accepted by the model.
- Prime: JSON decoding is left out. A request arrives decoded, its number
  as an integer value with a flag saying whether it is integral. `f64`
  magnitudes, and the loss of precision above 2^53, are not modelled. A
  non-integral or negative number is not prime, and an integral one above
  `u64::MAX` saturates to it as `as u64` does.
- Lrcp: the session timing fields (`last_active`, `send_queue`) and the
  timeouts are not modelled, because nothing in `handle_packet` reads or
  writes them. The "Got empty message" branch cannot be reached, since
  `split` always yields a part, and is not modelled. A connect packet with
  the wrong field count is rejected with the same text as a data packet
  ("Message with type 'data' should have 4 parts including the type"), as
  in the source.
- Lrcp.ParsePacket: a number that does not parse as `usize` makes the
  source panic (`expect`). The model returns it as a `Crash` error
  carrying the panic message.
- Proxy: the upstream connection is not modelled, only the rewrite applied
  to each line in either direction.
- Database: the 999-byte receive buffer and the truncation of longer
  datagrams are not modelled. A retrieve's key is the untrimmed request
  text, as in the source.

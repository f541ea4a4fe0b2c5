# Distributed bridge for ns-3, modelled in Dafny

The ns-3 `DistributedBridge` is a net device that joins a simulated network
segment to segments in other simulator processes. Each bridge holds a TCP
connection to a distribution server. After connecting, it sends a one-byte
handshake naming its channel. From then on, every Ethernet frame the bridged
device hears goes to the server as a wire message: a 2-byte length field in
host byte order, then the frame. A reader on the socket
(`DistributedBridgeFdReader::DoRead`) reassembles incoming messages. Each
message is checked (`ReadCallback`), its Ethernet and LLC/SNAP headers are
removed, and the packet is handed back to the bridged device with `SendFrom`
(`ForwardToBridgedDevice`).

The model has these modules:

- `DistTypes` (`model/dist-types.h`): bytes, 16-bit values in either host
  byte order, the buffer sizes, the handshake, and the wire message.
- `Buffers`: a byte array as a sequence, and chunks stored into it.
- `FrameCodec`: building the Ethernet header on the way out, and the drop
  or forward decision of `ForwardToBridgedDevice` on the way in.
- `WireFramer`: the length checks of `ReadCallback`.
- `FrameReader`: the socket's read side, modelled as a class `ReadEnd`.
  It holds the bytes not yet read and a script of what each `read()` call
  does. `DoRead` is a method over the 65538-byte payload buffer, proved
  against the function `ReadMessage`.
- `Bridge`: the device state (`m_fd`, `m_connected`, `m_reader`, `m_isup`)
  plus a trace of observable events. The events are descriptors opened and
  closed, bytes written, reader started and stopped, link-change callbacks,
  and frames forwarded. The pure transitions are `Connect`, `Disconnect`,
  `LinkUp`, `Outbound` and `Inbound`. The class `DistributedBridge` has one
  method per modelled state-changing function, each proved equal to its
  transition. The
  `m_pl` buffer is an array.
- `BridgeProperties`:
  - the results of each operation;
  - the invariant every successful call keeps: the open descriptors
    are exactly the held one, if any; the link-change callbacks have
    fired once if the link is up; and a reader runs exactly while
    connected;
  - the relay of a frame from one bridge through the wire format to
    another.
- `Findings`: the places where the code does not do what it evidently
  means to. Each is modelled as written, with the input that shows it.

Outcomes the simulator treats as fatal return `Fatal(reason)` and end the
run. These are `NS_ABORT_MSG_IF` and `NS_FATAL_ERROR`, which every build
checks, and `NS_ASSERT_MSG`, which only a build with assertions enabled
(`NS3_ASSERT_ENABLE`, a debug build) checks. The model follows a debug
build.

Three facts about the code that the model keeps:

- The code treats a Length/Type of exactly 1500 as a length and takes
  the LLC/SNAP type (`model/distributed-bridge.cc:228`).
- The length field holds the frame size, so on a little-endian host a
  14-byte frame goes out as `[14, 0]` followed by the frame (`model/distributed-bridge.cc:281`;
  lemma `ChannelSevenExchange`).
- In a debug build the code bounds outbound frames at 65536 bytes
  (`model/distributed-bridge.cc:279`). `Bridge.Outbound` refuses
  frames over 65535 bytes instead; see Findings.

Where the code has a defect listed under Findings, the main members
implement the corrected behaviour, and `Findings` holds the code as
written beside it. The affected members are named under "## Left out".

## Model

| member | source | states |
|---|---|---|
| DistTypes.EncodeU16 | model/dist-types.h:5 | a uint16_t occupies two bytes: the low byte first on a little-endian host, the high byte first on a big-endian one |
| DistTypes.DecodeU16 | model/dist-types.h:5 | the value is the low byte plus 256 times the high byte; the low byte is the first of the two on a little-endian host and the second on a big-endian one |
| DistTypes.HandshakeMsg | model/dist-types.h:9-11 | the handshake is one byte, the channel id |
| DistTypes.DecodeEncode | model/dist-types.h:4-7 | reading back the 2-byte length field gives the stored value, in either host byte order |
| DistTypes.EncodeDecode | model/dist-types.h:4-7 | every pair of bytes is the encoding of the value it decodes to, so the field holds exactly 0..65535 |
| DistTypes.WireMessage | model/distributed-bridge.cc:280-283 | a wire message for a payload of at most 65535 bytes is payload + 2 bytes long; its length field decodes to the payload size, and the payload follows it |
| DistTypes.StoredLength | model/distributed-bridge.cc:281 | storing a size in the uint16_t field keeps sizes up to 65535 and turns 65536 into 0 |
| FrameCodec.Encapsulate | model/distributed-bridge.cc:272-277 | the frame is the packet plus 14 bytes: destination, source and Length/Type, followed by the packet unchanged |
| FrameCodec.LengthType | model/distributed-bridge.cc:227 | the Length/Type field is bytes 12 and 13 of the frame, read in network order (high byte first) |
| FrameCodec.LlcSnapType | model/distributed-bridge.cc:234-235 | the LLC/SNAP type is bytes 6 and 7 of that header, read in network order |
| FrameCodec.Decapsulate | model/distributed-bridge.cc:215-239 | drops frames shorter than 14 bytes, and frames with Length/Type <= 1500 that have no full 8-byte LLC/SNAP header; otherwise yields the addresses and either the Length/Type with the remaining bytes or the LLC/SNAP type with the bytes after that header |
| FrameCodec.DecapsulateEncapsulate | model/distributed-bridge.cc:215-239 | a frame built for a protocol above 1500 decodes to the same source, destination, protocol and packet |
| FrameCodec.DecapsulateLlcSnap | model/distributed-bridge.cc:228-236 | with Length/Type <= 1500 (1500 included), the LLC/SNAP type becomes the protocol and the bytes after the LLC/SNAP header are the packet |
| FrameCodec.DecapsulateShortLlcSnap | model/distributed-bridge.cc:228-233 | with Length/Type <= 1500 and fewer than 8 bytes after the Ethernet header, the frame is dropped |
| WireFramer.Unframe | model/distributed-bridge.cc:195-213 | a buffer is kept exactly when it has at least 2 bytes and at least as many after the field as the field declares; all bytes after the field are forwarded |
| WireFramer.UnframeWireMessage | model/distributed-bridge.cc:198-212 | every wire message passes the checks and yields its payload back |
| WireFramer.WireMessageUnframe | model/distributed-bridge.cc:198-212 | a buffer whose field equals its payload size passes, and it is the wire message of what it yields |
| FrameReader.ReadCount | model/distributed-bridge.cc:10 | a read() returns -1 exactly when the call fails; otherwise it returns at most the bytes requested and the bytes available, and 0 only when nothing was requested, nothing is available, or the call delivers nothing |
| FrameReader.Complete | model/distributed-bridge.cc:22-33 | when the completion loop finishes, it has collected exactly the missing bytes, and they were available |
| FrameReader.ReadPayload | model/distributed-bridge.cc:19-33 | a payload read that succeeds yields exactly the declared number of bytes |
| FrameReader.CompleteTakesPrefix | model/distributed-bridge.cc:22-33 | the bytes the loop collects are the next bytes of the stream, in order, and the stream resumes just after them |
| FrameReader.ReadPayloadTakesPrefix | model/distributed-bridge.cc:19-33 | a successful payload read takes the next `len` bytes of the stream, in order |
| FrameReader.ReadMessageFromStream | model/distributed-bridge.cc:7-38 | a message read whole is the header bytes from the stream, then the payload bytes that follow the header read; the stream resumes after them |
| FrameReader.ReadMessageShape | model/distributed-bridge.cc:10-37 | no message when the header read fails or returns 0; otherwise the message is the length field plus exactly the declared payload (size payload_len + 2) |
| FrameReader.ReadEnd.Read | model/distributed-bridge.cc:24 | read() copies the delivered bytes to the given offset of the buffer, leaves the rest of the buffer alone, and consumes those bytes from the stream; a failure changes neither |
| FrameReader.DoRead | model/distributed-bridge.cc:7-38 | the data handed to the callback is the null buffer with size 0 on any failure, or the whole message with size payload_len + 2; on success the socket is left just after the message and none of the reads it made failed, so a read returning -1 in the header, the first payload read or the completion loop yields the null buffer with size 0 |
| FrameReader.ReadBody | model/distributed-bridge.cc:19-37 | after the length field, the payload is read into the buffer just after the two length bytes; on success the data is the length field followed by the payload, and the socket is left just after it |
| FrameReader.ReadPayloadInto | model/distributed-bridge.cc:19-33 | the first payload read, then the completion loop (`CompleteInto`): they succeed exactly when the payload read does, and then hold the payload at offset 2 of the buffer, with the rest of the buffer unchanged |
| FrameReader.CompleteInto | model/distributed-bridge.cc:22-33 | the loop succeeds exactly when the completion loop completes; it then holds the bytes so far followed by the collected chunks at offset 2 of the buffer, the rest of the buffer unchanged, and the socket is where the loop leaves it |
| FrameReader.ReadMessage | model/distributed-bridge.cc:7-38 | no message when the header read fails or returns 0; a message starts with the stream's first byte and holds at least the 2-byte length field |
| FrameReader.CompleteMakesProgress | model/distributed-bridge.cc:22-33 | when the bytes are available and no read fails or comes back empty, the loop completes |
| FrameReader.CompleteNeedsProgress | model/distributed-bridge.cc:22-33 | conversely, a loop that completes made only reads that delivered at least one byte: the reads it made are a prefix of the script, and none of them failed or returned 0 |
| FrameReader.ReadPayloadNeedsNoFailure | model/distributed-bridge.cc:19-33 | a payload read that yields its payload made no failing read, neither the first read nor any completion read |
| FrameReader.PrependNoFailure | model/distributed-bridge.cc:10-33 | a header read that did not fail, followed by a payload read that yields its payload, made no failing read |
| FrameReader.ReadMessageNeedsNoFailure | model/distributed-bridge.cc:7-38 | a message read whole made no failing read, so a read returning -1 anywhere in DoRead yields the null buffer with size 0 |
| FrameReader.CompletionReadFails | model/distributed-bridge.cc:25-30 | the stream `[2, 0, 7, 8]`, whose third read (the completion loop's first) fails, yields no message |
| FrameReader.ReadPayloadMakesProgress | model/distributed-bridge.cc:19-33 | a payload read completes when the bytes are there and every read makes progress |
| FrameReader.ChunkingIrrelevant | model/distributed-bridge.cc:22-33 | a payload arriving one byte per read is reassembled into the same bytes, and leaves the same stream, as one arriving in a single read |
| FrameReader.ReadMessageOfWire | model/distributed-bridge.cc:7-38 | a wire message at the head of the stream is read back whole, and the stream is left at the next message |
| FrameReader.ClosedMidPayload | model/distributed-bridge.cc:22-31 | a stream that ends before the declared payload is complete yields no message |
| FrameReader.OneHeaderByteUsesStaleByte | model/distributed-bridge.cc:10-20 | when the header read returns one byte, the message's length field is that byte followed by the fresh buffer's stale byte; the length they give is the payload size; and the payload starts at the stream's second byte |
| FrameReader.OneHeaderByteAccepted | model/distributed-bridge.cc:10-20 | for the stream [3, 7, 8, 9] with a one-byte first read, the message is [3, stale byte, 7, 8, 9]: the 7 goes into the payload, not the length field |
| Bridge.WriteReturn | model/distributed-bridge.cc:283 | write() returns -1 on failure, otherwise at most the bytes offered, and all of them when the socket accepts that many |
| Bridge.CloseFd | model/distributed-bridge.cc:133-134 | m_fd becomes -1, the only other change is one Closed event for the old descriptor, and the other fields are unchanged |
| Bridge.LinkUp | model/distributed-bridge.cc:319-324 | the link is up afterwards; the callbacks fire (one LinkChange event) only if it was down; nothing else changes |
| Bridge.Connect | model/distributed-bridge.cc:113-171 | while connected: false and no change. On success: it was not connected, and now is, holding the new descriptor with a reader running on it and the link up. On a false return from a disconnected device: still not connected, m_fd = -1, reader and link untouched |
| Bridge.Disconnect | model/distributed-bridge.cc:173-189 | no change when not connected. Otherwise the device ends up not connected with no running reader, the link state kept and the log only extended; a held descriptor is closed and m_fd becomes -1 |
| Bridge.Outbound | model/distributed-bridge.cc:263-288 | only the log changes. The result is false exactly when not connected, and true exactly when connected, the frame fits the length field and write() takes all of it. At most one event is added: a write to m_fd |
| Bridge.Forward | model/distributed-bridge.cc:215-239 | only the log changes. A frame is handed to the bridged device exactly when it decodes, as one Forwarded event carrying its decoding |
| Bridge.Inbound | model/distributed-bridge.cc:195-213 | only the log changes. A buffer that fails the length checks changes nothing; any change is the forward of the bytes after the length field |
| Bridge.Send | model/distributed-bridge.cc:359-362 | Send on the bridge always returns false |
| Bridge.SendFrom | model/distributed-bridge.cc:364-367 | SendFrom on the bridge always returns false |
| Bridge.DiscardFromBridgedDevice | model/distributed-bridge.cc:258-261 | frames addressed to the bridge node are consumed: the result is always true |
| Bridge.DistributedBridge.constructor | model/distributed-bridge.cc:54-66 | no descriptor (-1), no reader, link down, not connected, m_pl zeroed |
| Bridge.DistributedBridge.CloseDescriptor | model/distributed-bridge.cc:133-134 | the descriptor is closed and m_fd becomes -1 |
| Bridge.DistributedBridge.ConnectServer | model/distributed-bridge.cc:113-171 | the new state and the result are those of the transition `Connect` |
| Bridge.DistributedBridge.DisconnectServer | model/distributed-bridge.cc:173-189 | the new state is that of the transition `Disconnect` |
| Bridge.DistributedBridge.NotifyLinkUp | model/distributed-bridge.cc:319-324 | sets the link up, and fires the callbacks only if it was down |
| Bridge.DistributedBridge.ReadCallback | model/distributed-bridge.cc:195-213 | the new state is that of the transition `Inbound`: checked, decoded and forwarded, or dropped |
| Bridge.DistributedBridge.ForwardToBridgedDevice | model/distributed-bridge.cc:215-239 | forwards the decoding of the frame to the bridged device, or changes nothing |
| Bridge.DistributedBridge.ReceiveFromBridgedDevice | model/distributed-bridge.cc:263-288 | the new state and the result are those of `Outbound`; when a frame is sent, m_pl starts with its wire message, and the rest is unchanged |
| BridgeProperties.ConnectWhileConnected | model/distributed-bridge.cc:114-117 | connecting while connected returns false and changes nothing |
| BridgeProperties.ConnectSucceedsIff | model/distributed-bridge.cc:113-171 | connecting succeeds exactly when not connected, no descriptor is held, socket() gives a descriptor, setsockopt() and connect() succeed, and the handshake byte is written whole |
| BridgeProperties.ConnectSuccess | model/distributed-bridge.cc:126-170 | a successful connect holds the new descriptor, runs the reader on it, has the link up and is connected; the trace gains exactly: opened, handshake `[channel id]` written, reader started, and a link change only if the link was down |
| BridgeProperties.ConnectFailureCloses | model/distributed-bridge.cc:129-160 | a failed setsockopt(), connect() or handshake write (or a short one) closes the descriptor it opened, leaves m_fd at -1 and returns false |
| BridgeProperties.DisconnectWhenIdle | model/distributed-bridge.cc:174 | disconnecting while not connected changes nothing |
| BridgeProperties.DisconnectConnected | model/distributed-bridge.cc:173-189 | disconnecting a connected device stops its reader, then closes its descriptor, and leaves it not connected with m_fd = -1 and the link state unchanged |
| BridgeProperties.DisconnectIdempotent | model/distributed-bridge.cc:173-189 | disconnecting twice is the same as disconnecting once |
| BridgeProperties.LinkUpIdempotent | model/distributed-bridge.cc:319-324 | after NotifyLinkUp the link is up, and a second call changes nothing |
| BridgeProperties.InitialInv | model/distributed-bridge.cc:54-66 | a new device satisfies the invariant |
| BridgeProperties.NoLeakedDescriptor | model/distributed-bridge.cc:119-122 | under the invariant, the fatal "m_fd > 0 but not connected" check in ConnectServer never fires |
| BridgeProperties.ConnectKeepsInv | model/distributed-bridge.cc:113-171 | every non-fatal ConnectServer keeps the invariant. The set of open descriptors is exactly {m_fd} while one is held and empty otherwise; a reader runs exactly while connected; the link-change callbacks have fired once if the link is up and never otherwise |
| BridgeProperties.ConnectedKeepsInv | model/distributed-bridge.cc:126-170 | a successful ConnectServer leaves the new descriptor as the only open one, with the callbacks fired once |
| BridgeProperties.ConnectFailedKeepsInv | model/distributed-bridge.cc:129-160 | a ConnectServer that fails after socket() closes the descriptor it opened, so no descriptor is left open |
| BridgeProperties.OpenedThenClosed | model/distributed-bridge.cc:126-159 | opening a descriptor, writing to it at most once and closing it leaves the open descriptors and the link changes as they were |
| BridgeProperties.DisconnectKeepsInv | model/distributed-bridge.cc:173-189 | DisconnetServer keeps the invariant. Since m_fd is -1 afterwards, the set of open descriptors is empty |
| BridgeProperties.OutboundKeepsInv | model/distributed-bridge.cc:263-288 | sending a frame keeps the invariant, whatever the outcome |
| BridgeProperties.InboundKeepsInv | model/distributed-bridge.cc:195-239 | receiving a buffer keeps the invariant |
| BridgeProperties.OutboundWhenDisconnected | model/distributed-bridge.cc:264-267 | a frame arriving while not connected is refused and nothing is written |
| BridgeProperties.OutboundWritesFrame | model/distributed-bridge.cc:269-287 | a connected device writes exactly one message for a frame that fits: the length field holds the frame size, then destination, source, type and packet; the result is true |
| BridgeProperties.InboundForwards | model/distributed-bridge.cc:195-239 | a buffer forwards exactly one frame, its decoding, when it passes the length checks and decodes; otherwise nothing changes; anything forwarded came from a buffer of at least 16 bytes that passed the checks |
| BridgeProperties.RelayRoundTrip | model/distributed-bridge.cc:263-288 | for a protocol above 1500 (an EtherType, so no LLC/SNAP header is involved), a frame one bridge sends, read from the stream and delivered to another bridge, reaches that bridge's device with the same source, destination, protocol and packet; the stream is left at the next message |
| BridgeProperties.ChannelSevenExchange | model/distributed-bridge.cc:146-171 | on channel 7 the handshake byte 7 is written first; a 14-byte frame then goes out with length field 14 |
| Findings.AsWrittenOutboundMessage | model/distributed-bridge.cc:279-283 | as written: frames up to 65536 bytes pass the assertion, and the message is the truncated length field plus the frame |
| Findings.OversizedFrameDesyncs | model/distributed-bridge.cc:279-281 | a 65536-byte frame goes out with length 0: the peer reads an empty message, and the frame's bytes stay in the stream as the next messages |
| Findings.OversizedFrameRefused | model/distributed-bridge.cc:279 | corrected: a frame over 65535 bytes ends the run before anything is written |
| Findings.AsWrittenFirstRead | model/distributed-bridge.cc:19-20 | as written: left is payload_len minus whatever the first read returned, -1 included |
| Findings.AsWrittenTurn | model/distributed-bridge.cc:22-33 | as written: one loop turn stops only on a negative read; the chunk goes len * 65536 bytes past the payload start |
| Findings.AsWrittenLoop | model/distributed-bridge.cc:22-33 | as written, over any number of turns: `left` stays between 0 and its start value, it goes down by exactly the number of stream bytes consumed, and nothing happens after a failed read |
| Findings.AsWrittenLoopStopsAtZero | model/distributed-bridge.cc:19-35 | in the code as written, the first read leaves `left` >= 0, so when the loop stops without a failed read `left` is 0 and the assertion `left == 0` cannot fire |
| Findings.SecondChunkMisplaced | model/distributed-bridge.cc:24 | a 2-byte payload delivered one byte per read has its second byte placed 65536 bytes in, past the buffer; the corrected reader yields [7, 8] |
| Findings.ZeroReadSpins | model/distributed-bridge.cc:22-33 | on a closed stream with bytes missing, no number of loop turns changes left or ends the loop |
| Findings.ClosedStreamSpins | model/distributed-bridge.cc:22-33 | one byte of a 2-byte payload followed by end of stream: the loop as written spins forever, while the corrected reader reports failure |
| Findings.FailedFirstReadUnchecked | model/distributed-bridge.cc:19-24 | a failed first payload read gives left = payload_len + 1, and the next chunk goes 65536 bytes before the buffer; the corrected reader fails |
| Findings.AsWrittenDisconnect | model/distributed-bridge.cc:173-189 | as written: disconnecting leaves descriptor 0 open and still held in m_fd |
| Findings.DescriptorZeroLeaks | model/distributed-bridge.cc:181-184 | as written: connecting on descriptor 0, then disconnecting and reconnecting, leaves descriptors 0 and 3 open with m_fd = 3, which breaks the invariant; the corrected disconnect leaves no descriptor open and keeps the invariant |

## Left out

- Threading: the reader runs on its own thread in `FdReader` and hands
  each buffer back with `Simulator::ScheduleWithContext`. In the model,
  `ReadCallback` runs the forward at once, and `FdReader` is not part of
  this model. The event ordering of the two threads is not modelled.
- The kernel: `socket()`, `setsockopt()`, `connect()`, `read()` and
  `write()`.
  - Their results are parameters: `SocketEnv`, a `WriteOutcome`, and
    the `ReadEnd` script.
  - The server address, the port and `TCP_NODELAY` are not modelled.
  - `close()` is modelled as a `Closed` event.
- Memory management is not modelled: allocation and freeing of the
  buffers, `Ptr` reference counts, `Unref` of the reader, and the
  `new`/`free` mismatch. The reader object is kept after it is stopped,
  as the source keeps `m_reader`.
- ns-3 classes that are not part of this model: `Packet`,
  `EthernetHeader`, `LlcSnapHeader`, `Mac48Address`.
  - Frames are byte sequences, with the header layout written out in
    `FrameCodec`.
  - Of an LLC/SNAP header only the type field (its last two bytes) is
    read. The other six bytes are skipped unread, as the model's
    `LlcSnapType` skips them.
- The helper (`helper/distributed-bridge-helper.cc`).
- `GetTypeId` and its attributes; logging.
- The getters and setters: `SetServer*`, `SetMtu`, `SetAddress`,
  `SetIfIndex`, `SetNode`, and the rest.
- Fixed answers: `IsBroadcast`, `IsMulticast`, `GetMulticast`,
  `NeedsArp`, `SupportsSendFrom`.
- `SetBridgedNetDevice` (checks and callback registration only).
- `DoDispose` and the destructor. The destructor calls
  `DisconnetServer`, which `DisconnectServer` models.
- `m_nodeid` is not modelled; it is used only for scheduling.
- The channel id is fixed when the device is constructed, instead of
  being set by `SetServer` or the `ChannelID` attribute.
- Builds without assertions: the three `NS_ASSERT_MSG` checks of the
  core (`model/distributed-bridge.cc:35`, `:196` and `:279`) are modelled
  as a debug build runs them. An optimized build skips them; there a
  frame over 65536 bytes passes `:279` unchecked and `CopyData` at `:280`
  writes past the end of `m_pl.payload`, which is not modelled.
- `ReadCallback`'s assertion that the buffer is not null is not
  modelled: `FdReader` calls back only with data.
- Bridge.Outbound: implements the corrected bound and refuses frames
  over 65535 bytes, where `model/distributed-bridge.cc:279` admits
  65536 in a debug build. The as-written partner is `Findings.AsWrittenOutboundMessage`.
- Bridge.DistributedBridge.ReceiveFromBridgedDevice: follows
  `Bridge.Outbound`, with the same corrected bound. The as-written
  partner is `Findings.AsWrittenOutboundMessage`.
- Bridge.Disconnect: implements the corrected close, for every
  `m_fd >= 0`, where `model/distributed-bridge.cc:181` closes only when
  `m_fd > 0`. The as-written partner is `Findings.AsWrittenDisconnect`.
- Bridge.DistributedBridge.DisconnectServer: follows `Bridge.Disconnect`,
  with the same corrected close. The as-written partner is
  `Findings.AsWrittenDisconnect`.
- FrameReader.Complete: implements the corrected completion loop,
  unlike `model/distributed-bridge.cc:22-33`. Each chunk is stored after
  the bytes received so far, and a read of 0 ends the message as a
  failure. The as-written partner is `Findings.AsWrittenTurn`, iterated by
  `Findings.AsWrittenLoop`.
- FrameReader.ReadPayload: implements the corrected payload read. The
  first read's result is checked like the later ones, where
  `model/distributed-bridge.cc:19-20` does not check it. The rest follows
  `FrameReader.Complete`. The as-written partners are
  `Findings.AsWrittenFirstRead` and `Findings.AsWrittenTurn`.
- FrameReader.ReadPayloadInto: follows `FrameReader.ReadPayload` on the
  array, with the corrected offsets, the stop on a read of 0, and the
  checked first read. The as-written partners are
  `Findings.AsWrittenFirstRead` and `Findings.AsWrittenTurn`.
- FrameReader.CompleteInto: implements the corrected completion loop of
  `model/distributed-bridge.cc:22-33` on the array: each chunk is stored
  after the bytes received so far, and a read of 0 ends it as a failure.
  The as-written partners are `Findings.AsWrittenTurn` and
  `Findings.AsWrittenLoop`.
- FrameReader.ReadBody: follows `FrameReader.ReadPayloadInto`, with the
  same corrections. The as-written partners are
  `Findings.AsWrittenFirstRead` and `Findings.AsWrittenTurn`.
- FrameReader.DoRead: follows `FrameReader.ReadMessage`. Its header read is
  as written; its payload read is the corrected `ReadPayloadInto`. The
  as-written partners are `Findings.AsWrittenFirstRead` and
  `Findings.AsWrittenTurn`.
- Bridge.Connect: after a fatal exit the returned state is not further
  constrained, since the simulation ends there.
- The header read is modelled as written: a single byte is accepted
  (`OneHeaderByteUsesStaleByte`). A missing second byte of the length field
  is left indeterminate (the ghost `uninit` of `DoRead`).
- FrameReader.ReadEnd.Read: a blocking `read()` is not modelled as
  waiting. `pending` holds every byte the peer sends before it closes
  the stream. When bytes arrive shows only in how many bytes each read
  delivers.
- FrameReader.ReadCount: over-approximates the socket. A `Deliver(0)`
  step returns 0 while bytes are still pending, which a blocking stream
  socket does only at the end of the stream. Properties proved for
  every script therefore hold for the real reads as well.

## Findings

| source | as written | input that shows it | evidently intended | confidence | as-written member | corrected member |
|---|---|---|---|---|---|---|
| model/distributed-bridge.cc:279-281 | frames of up to 65536 bytes pass the assertion (and in an optimized build any size goes unchecked), and the size is stored in a 16-bit length field | a 65536-byte frame (a 65522-byte packet): the length field is 0 | refuse frames over 65535 bytes, the largest size the field can hold | not executed; high | Findings.OversizedFrameDesyncs | Findings.OversizedFrameRefused |
| model/distributed-bridge.cc:24 | each further chunk is read to `(&pl->payload) + len`. That is pointer arithmetic on the 65536-byte array type, offset by the previous read's count, so it lands len * 65536 bytes in, not after the bytes received | stream `[2, 0, 7, 8]` with the payload delivered one byte per read: the second byte goes to offset 65536 | store each chunk after all payload bytes received so far | not executed; high | Findings.SecondChunkMisplaced | FrameReader.ReadPayloadInto |
| model/distributed-bridge.cc:22-33 | a read returning 0 (end of stream) while bytes are missing leaves `left` unchanged, and the loop repeats forever | stream `[2, 0, 7]`, then the peer closes | end the message like a failed read | not executed; high | Findings.ClosedStreamSpins | FrameReader.ClosedMidPayload |
| model/distributed-bridge.cc:19-20 | the first payload read's result is not checked, and -1 makes `left` = payload_len + 1 | the first payload read fails | return the null buffer, as the later reads do | not executed; high | Findings.FailedFirstReadUnchecked | FrameReader.ReadPayloadInto |
| model/distributed-bridge.cc:181-184 | the descriptor is closed only when `m_fd > 0`, so descriptor 0 stays open and held; the next ConnectServer passes its `m_fd > 0` check and opens another | socket() returns 0 (standard input closed); connect, disconnect, connect | close whenever `m_fd >= 0` | not executed; medium | Findings.DescriptorZeroLeaks | BridgeProperties.DisconnectKeepsInv |

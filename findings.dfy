/** Places where model/distributed-bridge.cc does not do what it evidently
    means to. Each is modelled here as written, with an input that shows
    the difference; the rest of the model uses the corrected behaviour
    (FrameReader.ReadPayloadInto, Bridge.Outbound, Bridge.Disconnect). */
module Findings {
  import opened Wrappers
  import opened DistTypes
  import opened FrameCodec
  import opened FrameReader
  import opened Bridge
  import opened BridgeProperties

  // ---------------------------------------------------------------------
  // ReceiveFromBridgedDevice: the size check admits 65536-byte frames.

  /** The message ReceiveFromBridgedDevice writes for a frame, as written
      and with assertions enabled: the assertion lets frames of up to
      MAX_PAYLOAD bytes through, and the uint16_t length field receives the
      size modulo 65536. None when the assertion fails; a build without
      assertions does not check it at all. */
  function AsWrittenOutboundMessage(frame: seq<byte>, order: ByteOrder): (m: Option<seq<byte>>)
    ensures m.Some? <==> |frame| <= MAX_PAYLOAD
    ensures m.Some? ==> |m.value| == |frame| + LENGTH_FIELD_SIZE && m.value[LENGTH_FIELD_SIZE..] == frame
  {
    if |frame| > MAX_PAYLOAD then None
    else Some(EncodeU16(StoredLength(|frame|), order) + frame)
  }

  /** A 65536-byte frame passes the assertion but goes out with a length
      field of 0: the receiving reader takes a message with no payload and
      leaves all 65536 frame bytes in the stream, to be read as the
      following messages. */
  lemma OversizedFrameDesyncs(frame: seq<byte>, order: ByteOrder, script: seq<ReadOutcome>, uninit: byte)
    requires |frame| == MAX_PAYLOAD
    requires AllProgress(script) && (|script| > 0 ==> script[0].limit >= LENGTH_FIELD_SIZE)
    ensures AsWrittenOutboundMessage(frame, order).Some?
    ensures var r := ReadMessage(AsWrittenOutboundMessage(frame, order).value, script, order, uninit);
            r.Some? && |r.value.data| == LENGTH_FIELD_SIZE && r.value.pending == frame
  {
    var m := AsWrittenOutboundMessage(frame, order).value;
    assert StoredLength(|frame|) == 0;
    DecodeEncode(0, order);
    assert ReadCount(m, script, LENGTH_FIELD_SIZE) == 2;
    assert m[2..] == frame;
    assert Complete([], frame, Rest(script), 0) == Some(Progress([], frame, Rest(script)));
  }

  /** Corrected: a frame the length field cannot describe ends the
      simulation before anything is written. */
  lemma OversizedFrameRefused(s: BridgeState, order: ByteOrder, src: Mac48, dst: Mac48, protocol: uint16, packet: seq<byte>, w: WriteOutcome)
    requires s.connected && ETHERNET_HEADER_SIZE + |packet| > MAX_LENGTH
    ensures Outbound(s, order, src, dst, protocol, packet, w) == Step(s, Fatal(FrameTooLarge))
  {
  }

  // ---------------------------------------------------------------------
  // DoRead: the completion loop as written.

  /** A chunk stored by read(): its byte offset from the start of the
      payload array, and its bytes. */
  datatype Placement = Placement(offset: int, bytes: seq<byte>)

  /** The variables of the completion loop as written: the socket, `left`,
      `len` (the last read's result), the chunks stored so far, and whether
      a read failed. */
  datatype LoopState = LoopState(pending: seq<byte>, script: seq<ReadOutcome>, left: int, len: int, stores: seq<Placement>, failed: bool)

  /** The first payload read, as written: its result is not checked, so a
      failure (-1) counts as a chunk of length -1. */
  function AsWrittenFirstRead(pending: seq<byte>, script: seq<ReadOutcome>, payloadLen: nat): (st: LoopState)
    ensures st.left == payloadLen - ReadCount(pending, script, payloadLen) && !st.failed
    ensures st.left >= 0
  {
    var m := ReadCount(pending, script, payloadLen);
    if m < 0 then LoopState(pending, Rest(script), payloadLen - m, m, [], false)
    else LoopState(pending[m..], Rest(script), payloadLen - m, m, [Placement(0, pending[..m])], false)
  }

  /** One turn of `while (left > 0)`, as written: the chunk goes to
      `(&pl->payload) + len`, a pointer to the whole 65536-byte array moved
      by the last read's result, i.e. len * 65536 bytes from the payload;
      only a negative result stops the loop. */
  function AsWrittenTurn(st: LoopState): (r: LoopState)
    requires st.left > 0 && !st.failed
    ensures r.failed <==> ReadCount(st.pending, st.script, st.left) < 0
    ensures 0 <= r.left <= st.left && st.left - r.left == |st.pending| - |r.pending|
  {
    var n := ReadCount(st.pending, st.script, st.left);
    if n < 0 then st.(script := Rest(st.script), failed := true)
    else LoopState(st.pending[n..], Rest(st.script), st.left - n, n, st.stores + [Placement(st.len * MAX_PAYLOAD, st.pending[..n])], false)
  }

  /** `k` turns of the loop, or fewer when it stops. A read never returns
      more than `left`, so `left` stays between 0 and its start value; the
      `left` goes down by exactly the number of stream bytes consumed. */
  function AsWrittenLoop(st: LoopState, k: nat): (r: LoopState)
    ensures st.left >= 0 ==> 0 <= r.left <= st.left
    ensures st.left - r.left == |st.pending| - |r.pending|
    ensures st.failed ==> r == st
    decreases k
  {
    if k == 0 || st.left <= 0 || st.failed then st else AsWrittenLoop(AsWrittenTurn(st), k - 1)
  }

  /** The assertion `left == 0` after the loop cannot fail in the code as
      written: when the loop stops without a failed read, `left` is 0. */
  lemma AsWrittenLoopStopsAtZero(pending: seq<byte>, script: seq<ReadOutcome>, payloadLen: nat, k: nat)
    ensures var r := AsWrittenLoop(AsWrittenFirstRead(pending, script, payloadLen), k);
            !r.failed && r.left <= 0 ==> r.left == 0
  {
  }

  /** A 2-byte payload arriving one byte per read: the second byte is
      stored 65536 bytes after the payload start, past the end of the
      65536-byte payload array, instead of at offset 1. The corrected reader
      stores the payload in order. */
  lemma SecondChunkMisplaced()
    ensures var st := AsWrittenTurn(AsWrittenFirstRead([7, 8], [Deliver(1)], 2));
            && st.left == 0 && !st.failed
            && st.stores == [Placement(0, [7]), Placement(MAX_PAYLOAD, [8])]
            && st.stores[1].offset >= MAX_PAYLOAD
    ensures ReadPayload([7, 8], [Deliver(1)], 2) == Some(Progress([7, 8], [], []))
  {
    var p: seq<byte> := [7, 8];
    assert p[..1] == [7] && p[1..] == [8];
    var st1 := AsWrittenFirstRead(p, [Deliver(1)], 2);
    assert ReadCount(p, [Deliver(1)], 2) == 1;
    assert st1 == LoopState([8], [], 1, 1, [Placement(0, [7])], false);
    assert ReadCount([8], [], 1) == 1;
    var q: seq<byte> := [8];
    assert q[..1] == [8] && q[1..] == [];
    var a: seq<byte> := [7];
    assert a + q[..1] == [7, 8];
    assert Complete([7], [8], [], 1) == Complete([7, 8], [], [], 0);
  }

  /** A stream closed in the middle of a payload: every further read
      returns 0 and the loop as written makes no progress, however many
      turns it runs, so DoRead never returns. */
  lemma {:induction false} ZeroReadSpins(st: LoopState, k: nat)
    requires st.left > 0 && !st.failed && st.pending == [] && st.script == []
    ensures var r := AsWrittenLoop(st, k);
            r.left == st.left && !r.failed && r.pending == [] && r.script == []
    decreases k
  {
    if k > 0 {
      var next := AsWrittenTurn(st);
      assert ReadCount(st.pending, st.script, st.left) == 0;
      assert next.left == st.left && next.pending == [] && next.script == [];
      ZeroReadSpins(next, k - 1);
    }
  }

  /** For example, the stream holds one byte of a 2-byte payload and is
      then closed: the loop as written spins, the corrected reader reports
      the failure. */
  lemma ClosedStreamSpins(k: nat)
    ensures AsWrittenLoop(AsWrittenFirstRead([7], [], 2), k).left == 1
    ensures ReadPayload([7], [], 2) == None
  {
    var st := AsWrittenFirstRead([7], [], 2);
    assert ReadCount([7], [], 2) == 1;
    var q: seq<byte> := [7];
    assert q[..1] == [7] && q[1..] == [];
    ZeroReadSpins(st, k);
  }

  /** A failing first payload read is not detected: the loop runs on with
      left = payload_len + 1 and stores its next chunk 65536 bytes before
      the payload array. The corrected reader reports the failure. */
  lemma FailedFirstReadUnchecked(pending: seq<byte>, payloadLen: nat)
    requires 0 < |pending|
    ensures var st := AsWrittenFirstRead(pending, [Fail], payloadLen);
            var next := AsWrittenTurn(st);
            && st.left == payloadLen + 1
            && !next.failed && next.stores == [Placement(-(MAX_PAYLOAD as int), pending[..ReadCount(pending, [], payloadLen + 1)])]
    ensures ReadPayload(pending, [Fail], payloadLen) == None
  {
  }

  // ---------------------------------------------------------------------
  // DisconnetServer: descriptor 0 is never closed.

  /** DisconnetServer as written: the descriptor is closed only when
      m_fd > 0. */
  function AsWrittenDisconnect(s: BridgeState): (r: BridgeState)
    ensures !r.connected
    ensures s.connected && s.fd == 0 ==> r.fd == 0 && r.trace == s.trace + (if s.reader.NoReader? then [] else [ReaderStopped(s.reader.fd)])
  {
    if !s.connected then s
    else
      var stopped := match s.reader
        case NoReader => s
        case Running(rfd) => s.(reader := Stopped(rfd), trace := s.trace + [ReaderStopped(rfd)])
        case Stopped(rfd) => s.(trace := s.trace + [ReaderStopped(rfd)]);
      var closed := if stopped.fd > 0 then CloseFd(stopped) else stopped;
      closed.(connected := false)
  }

  /** When socket() returns 0 (possible once standard input is closed),
      disconnecting leaves descriptor 0 open and still in m_fd; the next
      ConnectServer passes its m_fd > 0 check and opens a second
      descriptor, so descriptor 0 is leaked. With the corrected
      DisconnetServer the invariant holds: the only open descriptor is
      the held one. */
  lemma DescriptorZeroLeaks(ch: byte)
    ensures var ok := SocketEnv(0, 0, 0, Accepted(1));
            var s1 := Connect(Initial, ch, ok).state;
            var s2 := AsWrittenDisconnect(s1);
            var s3 := Connect(s2, ch, ok.(socketFd := 3));
            && s3.exit == Return(true)
            && s3.state.fd == 3
            && OpenFds(s3.state.trace) == multiset{0, 3}
            && !Inv(s3.state)
    ensures var ok := SocketEnv(0, 0, 0, Accepted(1));
            var s2 := Disconnect(Connect(Initial, ch, ok).state);
            Inv(s2) && s2.fd == -1 && OpenFds(s2.trace) == multiset{}
  {
    var ok := SocketEnv(0, 0, 0, Accepted(1));
    InitialInv();
    ConnectKeepsInv(Initial, ch, ok);
    var s1 := Connect(Initial, ch, ok).state;
    ConnectSuccess(Initial, ch, ok);
    assert s1.trace == [Opened(0), Wrote(0, [ch]), ReaderStarted(0), LinkChange];
    var s2 := AsWrittenDisconnect(s1);
    assert s2.trace == s1.trace + [ReaderStopped(0)];
    OpenFdsAppend(s1.trace, ReaderStopped(0));
    assert OpenFds(s2.trace) == multiset{0};
    var env3 := ok.(socketFd := 3);
    ConnectSuccess(s2, ch, env3);
    var t := s2.trace + [Opened(3), Wrote(3, [ch]), ReaderStarted(3)];
    assert Connect(s2, ch, env3).state.trace == t;
    OpenFdsAppend(s2.trace, Opened(3));
    OpenFdsAppend(s2.trace + [Opened(3)], Wrote(3, [ch]));
    assert s2.trace + [Opened(3)] + [Wrote(3, [ch])] == s2.trace + [Opened(3), Wrote(3, [ch])];
    OpenFdsAppend(s2.trace + [Opened(3), Wrote(3, [ch])], ReaderStarted(3));
    assert s2.trace + [Opened(3), Wrote(3, [ch])] + [ReaderStarted(3)] == t;
    DisconnectKeepsInv(s1);
  }
}

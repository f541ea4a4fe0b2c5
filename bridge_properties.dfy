/** What the connection logic of DistributedBridge guarantees: the results
    of ConnectServer, DisconnetServer, NotifyLinkUp and
    ReceiveFromBridgedDevice, the invariant every successful call keeps,
    and the relay of a frame from one bridge to another. */
module BridgeProperties {
  import opened DistTypes
  import opened FrameCodec
  import opened WireFramer
  import opened FrameReader
  import opened Bridge

  /** ConnectServer while connected returns false and changes nothing. */
  lemma ConnectWhileConnected(s: BridgeState, channelId: byte, env: SocketEnv)
    requires s.connected
    ensures Connect(s, channelId, env) == Step(s, Return(false))
  {
  }

  /** ConnectServer succeeds exactly when the device is not connected,
      holds no descriptor, and socket(), setsockopt(), connect() and the
      1-byte handshake write all succeed. */
  lemma ConnectSucceedsIff(s: BridgeState, channelId: byte, env: SocketEnv)
    ensures Connect(s, channelId, env).exit == Return(true) <==>
      && !s.connected && s.fd <= 0 && env.socketFd >= 0
      && env.setsockoptRet >= 0 && env.connectRet >= 0
      && WriteReturn(env.handshake, HANDSHAKE_SIZE) == HANDSHAKE_SIZE
  {
  }

  /** A successful ConnectServer opens the descriptor, writes exactly one
      handshake byte, the channel id, then starts the reader on the
      descriptor, fires the link-change callbacks only if the link was
      down, and leaves the device connected with the link up. */
  lemma ConnectSuccess(s: BridgeState, channelId: byte, env: SocketEnv)
    requires Connect(s, channelId, env).exit == Return(true)
    ensures var fd := env.socketFd;
            Connect(s, channelId, env).state ==
              BridgeState(fd, true, Running(fd), true,
                s.trace + [Opened(fd), Wrote(fd, [channelId]), ReaderStarted(fd)] + (if s.isup then [] else [LinkChange]))
  {
    var fd := env.socketFd;
    var t := s.trace + [Opened(fd), Wrote(fd, [channelId]), ReaderStarted(fd)];
    assert HandshakeMsg(channelId)[..HANDSHAKE_SIZE] == [channelId];
    assert s.trace + [Opened(fd)] + [Wrote(fd, [channelId])] + [ReaderStarted(fd)] == t;
    assert !s.isup ==> t + [LinkChange] == t + (if s.isup then [] else [LinkChange]);
    assert s.isup ==> t == t + [];
  }

  /** Once the descriptor is open, a failed setsockopt(), connect() or
      handshake write (a short write included) closes it, sets m_fd to -1,
      leaves the device disconnected, the reader and the link untouched,
      and returns false. Only a handshake write that returned 0 leaves a
      (empty) write in the log. */
  lemma ConnectFailureCloses(s: BridgeState, channelId: byte, env: SocketEnv)
    requires !s.connected && s.fd <= 0 && env.socketFd >= 0
    requires env.setsockoptRet < 0 || env.connectRet < 0 || WriteReturn(env.handshake, HANDSHAKE_SIZE) != HANDSHAKE_SIZE
    ensures var fd := env.socketFd;
            var wrote := if env.setsockoptRet < 0 || env.connectRet < 0 || env.handshake.WriteError? then []
                         else [Wrote(fd, [])];
            Connect(s, channelId, env) ==
              Step(BridgeState(-1, false, s.reader, s.isup, s.trace + [Opened(fd)] + wrote + [Closed(fd)]), Return(false))
  {
    var fd := env.socketFd;
    if !(env.setsockoptRet < 0 || env.connectRet < 0 || env.handshake.WriteError?) {
      assert HandshakeMsg(channelId)[..0] == [];
    } else {
      assert s.trace + [Opened(fd)] + [] + [Closed(fd)] == s.trace + [Opened(fd)] + [Closed(fd)];
    }
  }

  /** DisconnetServer is a no-op when not connected. */
  lemma DisconnectWhenIdle(s: BridgeState)
    requires !s.connected
    ensures Disconnect(s) == s
  {
  }

  /** On a device that keeps the invariant, DisconnetServer stops the
      reader, closes the descriptor, sets m_fd to -1 and clears
      m_connected; the link stays up. */
  lemma DisconnectConnected(s: BridgeState)
    requires Inv(s) && s.connected
    ensures Disconnect(s) == BridgeState(-1, false, Stopped(s.fd), s.isup, s.trace + [ReaderStopped(s.fd), Closed(s.fd)])
  {
    assert s.trace + [ReaderStopped(s.fd)] + [Closed(s.fd)] == s.trace + [ReaderStopped(s.fd), Closed(s.fd)];
  }

  /** A second DisconnetServer does nothing. */
  lemma DisconnectIdempotent(s: BridgeState)
    ensures Disconnect(Disconnect(s)) == Disconnect(s)
  {
  }

  /** NotifyLinkUp leaves the link up, and calling it again does nothing. */
  lemma LinkUpIdempotent(s: BridgeState)
    ensures LinkUp(s).isup
    ensures LinkUp(LinkUp(s)) == LinkUp(s)
    ensures s.isup ==> LinkUp(s) == s
  {
  }

  /** The freshly constructed device satisfies the invariant. */
  lemma InitialInv()
    ensures Inv(Initial)
  {
  }

  /** With the invariant, the "m_fd > 0, but m_connected false" fatal error
      of ConnectServer cannot happen. */
  lemma NoLeakedDescriptor(s: BridgeState, channelId: byte, env: SocketEnv)
    requires Inv(s)
    ensures Connect(s, channelId, env).exit != Fatal(LeakedDescriptor)
  {
  }

  /** ConnectServer keeps the invariant unless it ends the simulation. */
  lemma ConnectKeepsInv(s: BridgeState, channelId: byte, env: SocketEnv)
    requires Inv(s)
    requires !Connect(s, channelId, env).exit.Fatal?
    ensures Inv(Connect(s, channelId, env).state)
  {
    if !s.connected {
      if Connect(s, channelId, env).exit == Return(true) {
        ConnectedKeepsInv(s, channelId, env);
      } else {
        ConnectFailedKeepsInv(s, channelId, env);
      }
    }
  }

  /** The failing case of ConnectKeepsInv: the descriptor opened is closed
      again. */
  lemma ConnectFailedKeepsInv(s: BridgeState, channelId: byte, env: SocketEnv)
    requires Inv(s) && !s.connected && env.socketFd >= 0
    requires env.setsockoptRet < 0 || env.connectRet < 0 || WriteReturn(env.handshake, HANDSHAKE_SIZE) != HANDSHAKE_SIZE
    ensures Inv(Connect(s, channelId, env).state)
  {
    ConnectFailureCloses(s, channelId, env);
    var wrote := if env.setsockoptRet < 0 || env.connectRet < 0 || env.handshake.WriteError? then [] else [Wrote(env.socketFd, [])];
    OpenedThenClosed(s.trace, env.socketFd, wrote);
  }

  /** Opening a descriptor, writing to it at most once, and closing it
      again leaves the open descriptors and the link changes as they were. */
  lemma OpenedThenClosed(t: seq<Event>, fd: int, wrote: seq<Event>)
    requires wrote == [] || wrote == [Wrote(fd, [])]
    ensures OpenFds(t + [Opened(fd)] + wrote + [Closed(fd)]) == OpenFds(t)
    ensures LinkChanges(t + [Opened(fd)] + wrote + [Closed(fd)]) == LinkChanges(t)
  {
    var t1 := t + [Opened(fd)];
    OpenFdsAppend(t, Opened(fd));
    LinkChangesAppend(t, Opened(fd));
    if wrote == [] {
      assert t1 + wrote == t1;
    } else {
      OpenFdsAppend(t1, Wrote(fd, []));
      LinkChangesAppend(t1, Wrote(fd, []));
    }
    OpenFdsAppend(t1 + wrote, Closed(fd));
    LinkChangesAppend(t1 + wrote, Closed(fd));
  }

  /** The successful case of ConnectKeepsInv: the new descriptor is the
      only open one, and the callbacks have fired once. */
  lemma ConnectedKeepsInv(s: BridgeState, channelId: byte, env: SocketEnv)
    requires Inv(s)
    requires Connect(s, channelId, env).exit == Return(true)
    ensures Inv(Connect(s, channelId, env).state)
  {
    var fd := env.socketFd;
    ConnectSuccess(s, channelId, env);
    var t1 := s.trace + [Opened(fd)];
    var t2 := t1 + [Wrote(fd, [channelId])];
    var t3 := t2 + [ReaderStarted(fd)];
    OpenFdsAppend(s.trace, Opened(fd));
    LinkChangesAppend(s.trace, Opened(fd));
    OpenFdsAppend(t1, Wrote(fd, [channelId]));
    LinkChangesAppend(t1, Wrote(fd, [channelId]));
    OpenFdsAppend(t2, ReaderStarted(fd));
    LinkChangesAppend(t2, ReaderStarted(fd));
    assert s.trace + [Opened(fd), Wrote(fd, [channelId]), ReaderStarted(fd)] == t3;
    if !s.isup {
      OpenFdsAppend(t3, LinkChange);
      LinkChangesAppend(t3, LinkChange);
    } else {
      assert t3 + [] == t3;
    }
  }

  /** DisconnetServer keeps the invariant. */
  lemma DisconnectKeepsInv(s: BridgeState)
    requires Inv(s)
    ensures Inv(Disconnect(s))
  {
    if s.connected {
      var t1 := s.trace + [ReaderStopped(s.fd)];
      OpenFdsAppend(s.trace, ReaderStopped(s.fd));
      LinkChangesAppend(s.trace, ReaderStopped(s.fd));
      OpenFdsAppend(t1, Closed(s.fd));
      LinkChangesAppend(t1, Closed(s.fd));
    }
  }

  /** ReceiveFromBridgedDevice keeps the invariant, however it ends. */
  lemma OutboundKeepsInv(s: BridgeState, order: ByteOrder, src: Mac48, dst: Mac48, protocol: uint16, packet: seq<byte>, w: WriteOutcome)
    requires Inv(s)
    ensures Inv(Outbound(s, order, src, dst, protocol, packet, w).state)
  {
    var r := Outbound(s, order, src, dst, protocol, packet, w);
    if r.state != s {
      var e := r.state.trace[|s.trace|];
      assert r.state.trace == s.trace + [e];
      OpenFdsAppend(s.trace, e);
      LinkChangesAppend(s.trace, e);
    }
  }

  /** Delivering a buffer from the reader keeps the invariant. */
  lemma InboundKeepsInv(s: BridgeState, order: ByteOrder, msg: seq<byte>)
    requires Inv(s)
    ensures Inv(Inbound(s, order, msg))
  {
    var r := Inbound(s, order, msg);
    if r != s {
      var e := r.trace[|s.trace|];
      assert r.trace == s.trace + [e];
      OpenFdsAppend(s.trace, e);
      LinkChangesAppend(s.trace, e);
    }
  }

  /** ReceiveFromBridgedDevice on a disconnected device returns false and
      writes nothing. */
  lemma OutboundWhenDisconnected(s: BridgeState, order: ByteOrder, src: Mac48, dst: Mac48, protocol: uint16, packet: seq<byte>, w: WriteOutcome)
    requires !s.connected
    ensures Outbound(s, order, src, dst, protocol, packet, w) == Step(s, Return(false))
  {
  }

  /** On a connected device, a frame that fits the length field and is
      written whole is sent as one wire message: the length field holding
      the frame size, then dst, src, protocol and the packet; size + 2
      bytes in all. Nothing else changes. */
  lemma OutboundWritesFrame(s: BridgeState, order: ByteOrder, src: Mac48, dst: Mac48, protocol: uint16, packet: seq<byte>, w: WriteOutcome)
    requires s.connected
    requires ETHERNET_HEADER_SIZE + |packet| <= MAX_LENGTH
    requires WriteReturn(w, LENGTH_FIELD_SIZE + ETHERNET_HEADER_SIZE + |packet|) == LENGTH_FIELD_SIZE + ETHERNET_HEADER_SIZE + |packet|
    ensures var frame := Encapsulate(src, dst, protocol, packet);
            var m := WireMessage(frame, order);
            && Outbound(s, order, src, dst, protocol, packet, w) == Step(s.(trace := s.trace + [Wrote(s.fd, m)]), Return(true))
            && |m| == |frame| + LENGTH_FIELD_SIZE
            && DecodeU16(m[0], m[1], order) as nat == |frame|
            && m[LENGTH_FIELD_SIZE..LENGTH_FIELD_SIZE + MAC_SIZE] == dst
            && m[LENGTH_FIELD_SIZE + MAC_SIZE..LENGTH_FIELD_SIZE + 2 * MAC_SIZE] == src
            && m[LENGTH_FIELD_SIZE + ETHERNET_HEADER_SIZE..] == packet
  {
    var frame := Encapsulate(src, dst, protocol, packet);
    var m := WireMessage(frame, order);
    assert m[..|m|] == m;
    assert m[LENGTH_FIELD_SIZE..LENGTH_FIELD_SIZE + MAC_SIZE] == frame[..6];
    assert m[LENGTH_FIELD_SIZE + MAC_SIZE..LENGTH_FIELD_SIZE + 2 * MAC_SIZE] == frame[6..12];
    assert m[LENGTH_FIELD_SIZE + ETHERNET_HEADER_SIZE..] == frame[ETHERNET_HEADER_SIZE..];
  }

  /** Delivering a buffer forwards exactly one frame, the decoding of the
      bytes after the length field, when the buffer passes the length
      checks and the frame decodes; otherwise it changes nothing. */
  lemma InboundForwards(s: BridgeState, order: ByteOrder, msg: seq<byte>)
    ensures var u := Unframe(msg, order);
            Inbound(s, order, msg) ==
              if u.Some? && Decapsulate(u.value).Some?
              then s.(trace := s.trace + [Forwarded(Decapsulate(u.value).value)])
              else s
    ensures Inbound(s, order, msg) != s ==>
      |msg| >= LENGTH_FIELD_SIZE + ETHERNET_HEADER_SIZE &&
      DecodeU16(msg[0], msg[1], order) as nat <= |msg| - LENGTH_FIELD_SIZE
  {
  }

  /** The relay: the message one connected bridge writes for a frame of
      protocol above 1500, read on a connection whose reads all make
      progress, is delivered to the other bridge, which hands the bridged
      device the same source, destination, protocol and packet, and the
      stream is left at the next message. */
  lemma RelayRoundTrip(s: BridgeState, peer: BridgeState, order: ByteOrder, src: Mac48, dst: Mac48, protocol: uint16, packet: seq<byte>,
                       w: WriteOutcome, rest: seq<byte>, script: seq<ReadOutcome>, uninit: byte)
    requires s.connected
    requires protocol > MAX_ETHERNET_LENGTH && ETHERNET_HEADER_SIZE + |packet| <= MAX_LENGTH
    requires WriteReturn(w, LENGTH_FIELD_SIZE + ETHERNET_HEADER_SIZE + |packet|) == LENGTH_FIELD_SIZE + ETHERNET_HEADER_SIZE + |packet|
    requires AllProgress(script) && (|script| > 0 ==> script[0].limit >= LENGTH_FIELD_SIZE)
    ensures var out := Outbound(s, order, src, dst, protocol, packet, w);
            var sent := out.state.trace[|out.state.trace| - 1];
            && out.exit == Return(true)
            && sent.Wrote?
            && var r := ReadMessage(sent.bytes + rest, script, order, uninit);
               && r.Some? && r.value.pending == rest
               && Inbound(peer, order, r.value.data) == peer.(trace := peer.trace + [Forwarded(DecodedFrame(src, dst, protocol, packet))])
  {
    var frame := Encapsulate(src, dst, protocol, packet);
    var m := WireMessage(frame, order);
    OutboundWritesFrame(s, order, src, dst, protocol, packet, w);
    ReadMessageOfWire(frame, rest, script, order, uninit);
    UnframeWireMessage(frame, order);
    DecapsulateEncapsulate(src, dst, protocol, packet);
  }

  /** A device connected on channel 7 sends the handshake byte 7 before
      anything else. A frame from the bridged device with no payload
      and type 0x0800 (14 bytes) then goes out as 16 bytes, and the
      length field holds 14, the frame's size. */
  lemma ChannelSevenExchange(fd: int, src: Mac48, dst: Mac48)
    requires fd >= 0
    ensures var c := Connect(Initial, 7, SocketEnv(fd, 0, 0, Accepted(1)));
            var o := Outbound(c.state, LittleEndian, src, dst, 0x0800, [], Accepted(16));
            && c.exit == Return(true)
            && c.state.trace == [Opened(fd), Wrote(fd, [7]), ReaderStarted(fd), LinkChange]
            && o.exit == Return(true)
            && o.state.trace == c.state.trace + [Wrote(fd, [14, 0] + Encapsulate(src, dst, 0x0800, []))]
  {
    var env := SocketEnv(fd, 0, 0, Accepted(1));
    ConnectSuccess(Initial, 7, env);
    var c := Connect(Initial, 7, env);
    OutboundWritesFrame(c.state, LittleEndian, src, dst, 0x0800, [], Accepted(16));
    var frame := Encapsulate(src, dst, 0x0800, []);
    assert WireMessage(frame, LittleEndian) == [14, 0] + frame;
  }
}

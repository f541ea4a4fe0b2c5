/** DistributedBridge (model/distributed-bridge.cc): an ns-3 NetDevice that
    relays the frames of a bridged device over a TCP connection to a
    distribution server, and hands the frames coming back to that device.

    The state is the part of the object the connection logic updates:
    m_fd, m_connected, m_reader and m_isup, together with a log of what
    the device did to the outside world (descriptors opened and closed,
    bytes written, the reader started and stopped, link-change callbacks
    fired, frames handed to the bridged device). Each operation is first
    described as a function from the old state to the new one; the class
    DistributedBridge below implements it on fields and is proved to
    follow that function.

    The results of socket(), setsockopt(), connect() and write() are
    parameters (SocketEnv, WriteOutcome). NS_FATAL_ERROR, NS_ABORT_MSG_IF
    and NS_ASSERT_MSG end the simulation; an operation that reaches one
    ends with Fatal and its state is of no further interest. */
module Bridge {
  import opened Wrappers
  import opened DistTypes
  import opened Buffers
  import opened FrameCodec
  import opened WireFramer

  /** m_reader: no reader yet, a reader started on a descriptor, or one
      that has been stopped (the pointer is kept after Stop). */
  datatype ReaderState = NoReader | Running(fd: int) | Stopped(fd: int)

  /** What the device did, in order. */
  datatype Event =
    | Opened(fd: int)
    | Closed(fd: int)
    | Wrote(fd: int, bytes: seq<byte>)
    | ReaderStarted(fd: int)
    | ReaderStopped(fd: int)
    | LinkChange
    | Forwarded(frame: DecodedFrame)

  datatype BridgeState = BridgeState(fd: int, connected: bool, reader: ReaderState, isup: bool, trace: seq<Event>)

  /** Why the simulation was ended. */
  datatype Failure =
    | LeakedDescriptor  // ConnectServer: m_fd > 0 while not connected
    | SocketFailed      // ConnectServer: socket() returned a negative value
    | FrameTooLarge     // ReceiveFromBridgedDevice: frame too big for the length field
    | WriteFailed       // ReceiveFromBridgedDevice: write() returned a negative value
    | ShortWrite        // ReceiveFromBridgedDevice: write() wrote fewer bytes than asked

  /** How an operation ends: a bool returned to the caller, or the end of
      the simulation. */
  datatype Exit = Return(ok: bool) | Fatal(failure: Failure)

  datatype Step = Step(state: BridgeState, exit: Exit)

  /** What a write() call does: fail, or accept at most `limit` bytes. */
  datatype WriteOutcome = WriteError | Accepted(limit: nat)

  /** The results of the calls ConnectServer makes, in order. */
  datatype SocketEnv = SocketEnv(socketFd: int, setsockoptRet: int, connectRet: int, handshake: WriteOutcome)

  /** The return value of write(fd, buf, count). */
  function WriteReturn(w: WriteOutcome, count: nat): (n: int)
    ensures n == -1 || 0 <= n <= count
    ensures n < 0 <==> w.WriteError?
    ensures w.Accepted? && w.limit >= count ==> n == count
  {
    match w
    case WriteError => -1
    case Accepted(limit) => if limit <= count then limit else count
  }

  /** The state of a freshly constructed device. */
  const Initial: BridgeState := BridgeState(-1, false, NoReader, false, [])

  /** close(m_fd); m_fd = -1. */
  function CloseFd(s: BridgeState): (r: BridgeState)
    ensures r.fd == -1 && r.(fd := s.fd, trace := s.trace) == s
    ensures |r.trace| == |s.trace| + 1 && r.trace[..|s.trace|] == s.trace && r.trace[|s.trace|] == Closed(s.fd)
  {
    s.(fd := -1, trace := s.trace + [Closed(s.fd)])
  }

  /** NotifyLinkUp: the link-change callbacks fire only on the first call. */
  function LinkUp(s: BridgeState): (r: BridgeState)
    ensures r.isup && r.(isup := s.isup, trace := s.trace) == s
    ensures r.trace == s.trace || (!s.isup && r.trace == s.trace + [LinkChange])
  {
    if s.isup then s else s.(isup := true, trace := s.trace + [LinkChange])
  }

  /** ConnectServer: refuse when connected; end the simulation when a
      descriptor is held while not connected or when socket() fails; on a
      failed setsockopt(), connect() or handshake write (including a
      short one) close the descriptor and return false; otherwise start
      the reader on the descriptor, signal link up, and mark the device
      connected. */
  function Connect(s: BridgeState, channelId: byte, env: SocketEnv): (r: Step)
    ensures s.connected ==> r == Step(s, Return(false))
    ensures r.exit == Return(true) ==>
      && !s.connected && r.state.connected && r.state.isup
      && r.state.fd == env.socketFd >= 0 && r.state.reader == Running(env.socketFd)
    ensures r.exit == Return(false) && !s.connected ==>
      !r.state.connected && r.state.fd == -1 && r.state.reader == s.reader && r.state.isup == s.isup
  {
    if s.connected then Step(s, Return(false))
    else if s.fd > 0 then Step(s, Fatal(LeakedDescriptor))
    else if env.socketFd < 0 then Step(s.(fd := env.socketFd), Fatal(SocketFailed))
    else
      var fd := env.socketFd;
      var held := s.(fd := fd, trace := s.trace + [Opened(fd)]);
      if env.setsockoptRet < 0 || env.connectRet < 0 then Step(CloseFd(held), Return(false))
      else
        var hs := HandshakeMsg(channelId);
        var n := WriteReturn(env.handshake, |hs|);
        if n < 0 then Step(CloseFd(held), Return(false))
        else
          var written := held.(trace := held.trace + [Wrote(fd, hs[..n])]);
          if n != HANDSHAKE_SIZE then Step(CloseFd(written), Return(false))
          else
            var started := written.(reader := Running(fd), trace := written.trace + [ReaderStarted(fd)]);
            Step(LinkUp(started).(connected := true), Return(true))
  }

  /** DisconnetServer: nothing when not connected; otherwise stop the
      reader, close the descriptor and mark the device disconnected. The
      descriptor is closed whenever it is a valid one (m_fd >= 0; see
      Findings for the source's m_fd > 0). */
  function Disconnect(s: BridgeState): (r: BridgeState)
    ensures !s.connected ==> r == s
    ensures !r.connected && r.isup == s.isup && s.trace <= r.trace
    ensures s.connected ==> !r.reader.Running?
    ensures s.connected && s.fd >= 0 ==> r.fd == -1 && Closed(s.fd) in r.trace[|s.trace|..]
  {
    if !s.connected then s
    else
      var stopped := match s.reader
        case NoReader => s
        case Running(rfd) => s.(reader := Stopped(rfd), trace := s.trace + [ReaderStopped(rfd)])
        case Stopped(rfd) => s.(trace := s.trace + [ReaderStopped(rfd)]);
      var closed := if stopped.fd >= 0 then CloseFd(stopped) else stopped;
      closed.(connected := false)
  }

  /** ReceiveFromBridgedDevice: refuse when not connected; otherwise build
      the Ethernet frame, end the simulation when it does not fit the
      length field (more than 65535 bytes; see Findings for the source's
      bound of 65536), write length field and frame in one write(), and
      end the simulation when that write fails or is short. */
  function Outbound(s: BridgeState, order: ByteOrder, src: Mac48, dst: Mac48, protocol: uint16, packet: seq<byte>, w: WriteOutcome): (r: Step)
    ensures r.state.(trace := s.trace) == s
    ensures r.exit == Return(false) <==> !s.connected
    ensures r.exit == Return(true) <==>
      && s.connected && ETHERNET_HEADER_SIZE + |packet| <= MAX_LENGTH
      && WriteReturn(w, LENGTH_FIELD_SIZE + ETHERNET_HEADER_SIZE + |packet|) == LENGTH_FIELD_SIZE + ETHERNET_HEADER_SIZE + |packet|
    ensures r.state.trace == s.trace ||
      (|r.state.trace| == |s.trace| + 1 && s.trace <= r.state.trace && r.state.trace[|s.trace|].Wrote? && r.state.trace[|s.trace|].fd == s.fd)
  {
    if !s.connected then Step(s, Return(false))
    else
      var frame := Encapsulate(src, dst, protocol, packet);
      if |frame| > MAX_LENGTH then Step(s, Fatal(FrameTooLarge))
      else
        var msg := WireMessage(frame, order);
        var n := WriteReturn(w, |msg|);
        if n < 0 then Step(s, Fatal(WriteFailed))
        else
          var sent := s.(trace := s.trace + [Wrote(s.fd, msg[..n])]);
          if n != |msg| then Step(sent, Fatal(ShortWrite)) else Step(sent, Return(true))
  }

  /** ForwardToBridgedDevice: decode the frame and hand it to the bridged
      device with SendFrom, or drop it silently. */
  function Forward(s: BridgeState, frame: seq<byte>): (r: BridgeState)
    ensures r.(trace := s.trace) == s
    ensures r != s <==> Decapsulate(frame).Some?
    ensures r != s ==> r.trace == s.trace + [Forwarded(Decapsulate(frame).value)]
  {
    match Decapsulate(frame)
    case None => s
    case Some(f) => s.(trace := s.trace + [Forwarded(f)])
  }

  /** ReadCallback followed by the forward it schedules: a buffer that
      fails the length checks is dropped; otherwise the bytes after the
      length field are forwarded. */
  function Inbound(s: BridgeState, order: ByteOrder, msg: seq<byte>): (r: BridgeState)
    ensures r.(trace := s.trace) == s
    ensures r != s ==> Unframe(msg, order).Some? && r == Forward(s, msg[LENGTH_FIELD_SIZE..])
    ensures Unframe(msg, order).None? ==> r == s
  {
    match Unframe(msg, order)
    case None => s
    case Some(frame) => Forward(s, frame)
  }

  /** Send and SendFrom on the bridge itself are refused: frames are sent
      on the bridged device. */
  function Send(packet: seq<byte>, dst: Mac48, protocol: uint16): (ok: bool)
    ensures !ok
  {
    false
  }

  function SendFrom(packet: seq<byte>, src: Mac48, dst: Mac48, protocol: uint16): (ok: bool)
    ensures !ok
  {
    false
  }

  /** DiscardFromBridgedDevice: frames for the bridge node itself are
      consumed and not relayed. */
  function DiscardFromBridgedDevice(packet: seq<byte>, protocol: uint16, src: Mac48): (ok: bool)
    ensures ok
  {
    true
  }

  /** The open descriptors after one more event: an Opened descriptor is
      added, a Closed one is removed, other events change nothing. */
  function Track(open: multiset<int>, e: Event): multiset<int>
  {
    match e
    case Opened(fd) => open + multiset{fd}
    case Closed(fd) => open - multiset{fd}
    case _ => open
  }

  /** The descriptors opened and not yet closed. */
  function OpenFds(t: seq<Event>): multiset<int>
  {
    if |t| == 0 then multiset{} else Track(OpenFds(t[..|t| - 1]), t[|t| - 1])
  }

  lemma OpenFdsAppend(t: seq<Event>, e: Event)
    ensures OpenFds(t + [e]) == Track(OpenFds(t), e)
  {
    assert (t + [e])[..|t|] == t;
  }

  /** The number of times the link-change callbacks fired. */
  function LinkChanges(t: seq<Event>): nat
  {
    if |t| == 0 then 0
    else LinkChanges(t[..|t| - 1]) + if t[|t| - 1] == LinkChange then 1 else 0
  }

  lemma LinkChangesAppend(t: seq<Event>, e: Event)
    ensures LinkChanges(t + [e]) == LinkChanges(t) + (if e == LinkChange then 1 else 0)
  {
    assert (t + [e])[..|t|] == t;
  }

  /** The invariant of the device between calls: connected exactly when a
      reader runs on the held descriptor and the link is up; otherwise no
      descriptor is held and no reader runs; the open descriptors are
      exactly the held one, if any; and the link-change callbacks
      have fired once if the link is up and never otherwise. */
  ghost predicate Inv(s: BridgeState)
  {
    && (s.connected ==> s.fd >= 0 && s.reader == Running(s.fd) && s.isup)
    && (!s.connected ==> s.fd == -1 && !s.reader.Running?)
    && OpenFds(s.trace) == (if s.fd >= 0 then multiset{s.fd} else multiset{})
    && LinkChanges(s.trace) == (if s.isup then 1 else 0)
  }

  /** The device. Its methods follow the functions above; `pl` is the
      member buffer m_pl (length field and payload) that
      ReceiveFromBridgedDevice fills before writing it. */
  class DistributedBridge {
    var fd: int
    var connected: bool
    var reader: ReaderState
    var isup: bool
    var trace: seq<Event>
    const channelId: byte
    const order: ByteOrder
    const pl: array<byte>

    ghost predicate Valid()
      reads this
    {
      pl.Length == PAYLOAD_STRUCT_SIZE
    }

    function State(): BridgeState
      reads this
    {
      BridgeState(fd, connected, reader, isup, trace)
    }

    /** The constructor: no descriptor, no reader, link down, not
        connected, m_pl zeroed. The channel id is fixed here. */
    constructor (channelId: byte, order: ByteOrder)
      ensures Valid() && fresh(pl)
      ensures State() == Initial
      ensures this.channelId == channelId && this.order == order
      ensures forall i :: 0 <= i < pl.Length ==> pl[i] == 0
    {
      fd := -1;
      connected := false;
      reader := NoReader;
      isup := false;
      trace := [];
      this.channelId := channelId;
      this.order := order;
      pl := new byte[PAYLOAD_STRUCT_SIZE](_ => 0);
    }

    method CloseDescriptor()
      modifies this
      ensures State() == CloseFd(old(State()))
    {
      trace := trace + [Closed(fd)];
      fd := -1;
    }

    method ConnectServer(env: SocketEnv) returns (e: Exit)
      modifies this
      ensures var r := Connect(old(State()), channelId, env); State() == r.state && e == r.exit
    {
      if connected {
        return Return(false);
      }
      if fd > 0 {
        return Fatal(LeakedDescriptor);
      }
      fd := env.socketFd;
      if fd < 0 {
        return Fatal(SocketFailed);
      }
      trace := trace + [Opened(fd)];
      if env.setsockoptRet < 0 {
        CloseDescriptor();
        return Return(false);
      }
      if env.connectRet < 0 {
        CloseDescriptor();
        return Return(false);
      }
      var hs := HandshakeMsg(channelId);
      var n := WriteReturn(env.handshake, |hs|);
      if n < 0 {
        CloseDescriptor();
        return Return(false);
      }
      trace := trace + [Wrote(fd, hs[..n])];
      if n != HANDSHAKE_SIZE {
        CloseDescriptor();
        return Return(false);
      }
      reader := Running(fd);
      trace := trace + [ReaderStarted(fd)];
      NotifyLinkUp();
      connected := true;
      return Return(true);
    }

    /** DisconnetServer in the source. */
    method DisconnectServer()
      modifies this
      ensures State() == Disconnect(old(State()))
    {
      if !connected {
        return;
      }
      match reader {
        case NoReader =>
        case Running(rfd) =>
          reader := Stopped(rfd);
          trace := trace + [ReaderStopped(rfd)];
        case Stopped(rfd) =>
          trace := trace + [ReaderStopped(rfd)];
      }
      if fd >= 0 {
        CloseDescriptor();
      }
      connected := false;
    }

    method NotifyLinkUp()
      modifies this
      ensures State() == LinkUp(old(State()))
    {
      if !isup {
        isup := true;
        trace := trace + [LinkChange];
      }
    }

    /** ReadCallback, with the forward it schedules run at once. */
    method ReadCallback(msg: seq<byte>)
      modifies this
      ensures State() == Inbound(old(State()), order, msg)
    {
      if |msg| < LENGTH_FIELD_SIZE {
        return;
      }
      if |msg| - LENGTH_FIELD_SIZE < DecodeU16(msg[0], msg[1], order) as nat {
        return;
      }
      ForwardToBridgedDevice(msg[LENGTH_FIELD_SIZE..]);
    }

    method ForwardToBridgedDevice(frame: seq<byte>)
      modifies this
      ensures State() == Forward(old(State()), frame)
    {
      if |frame| < ETHERNET_HEADER_SIZE {
        return;
      }
      var dst: Mac48 := frame[..MAC_SIZE];
      var src: Mac48 := frame[MAC_SIZE..2 * MAC_SIZE];
      var ethtype := LengthType(frame);
      var rest := frame[ETHERNET_HEADER_SIZE..];
      if ethtype <= MAX_ETHERNET_LENGTH {
        if |rest| < LLC_SNAP_HEADER_SIZE {
          return;
        }
        ethtype := LlcSnapType(rest);
        rest := rest[LLC_SNAP_HEADER_SIZE..];
      }
      trace := trace + [Forwarded(DecodedFrame(src, dst, ethtype, rest))];
    }

    /** ReceiveFromBridgedDevice: the frame is copied into the payload of
        m_pl, its size into the length field, and the first size + 2 bytes
        of m_pl are written. */
    method ReceiveFromBridgedDevice(packet: seq<byte>, protocol: uint16, src: Mac48, dst: Mac48, w: WriteOutcome) returns (e: Exit)
      requires Valid()
      modifies this, pl
      ensures var r := Outbound(old(State()), order, src, dst, protocol, packet, w);
              State() == r.state && e == r.exit
      ensures var frame := Encapsulate(src, dst, protocol, packet);
              pl[..] == if old(connected) && |frame| <= MAX_LENGTH
                        then Splice(old(pl[..]), 0, WireMessage(frame, order))
                        else old(pl[..])
    {
      if !connected {
        return Return(false);
      }
      var frame := Encapsulate(src, dst, protocol, packet);
      if |frame| > MAX_LENGTH {
        return Fatal(FrameTooLarge);
      }
      ghost var before := pl[..];
      Store(pl, LENGTH_FIELD_SIZE, frame);
      var header := EncodeU16(|frame| as uint16, order);
      Store(pl, 0, header);
      var msg := WireMessage(frame, order);
      SpliceBefore(before, 0, header, frame);
      assert pl[..] == Splice(before, 0, msg);
      var n := WriteReturn(w, LENGTH_FIELD_SIZE + |frame|);
      if n < 0 {
        return Fatal(WriteFailed);
      }
      SplicePrefix(before, msg, n);
      trace := trace + [Wrote(fd, pl[..n])];
      if n != LENGTH_FIELD_SIZE + |frame| {
        return Fatal(ShortWrite);
      }
      return Return(true);
    }
  }
}

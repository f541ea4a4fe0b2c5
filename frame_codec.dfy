/** Ethernet and LLC/SNAP headers as the bridge writes and reads them
    (ForwardToBridgedDevice and ReceiveFromBridgedDevice in
    model/distributed-bridge.cc). The Ethernet header has no preamble:
    destination (6), source (6), Length/Type (2, network order), as in
    IEEE 802.3 clause 3.1.1. A Length/Type of at most 1500 is a length
    (IEEE 802.3 clause 3.2.6), and the real protocol is then the type field
    of the 8-byte LLC/SNAP header of RFC 1042 that follows. */
module FrameCodec {
  import opened Wrappers
  import opened DistTypes

  const MAC_SIZE: nat := 6
  const ETHERNET_HEADER_SIZE: nat := 14
  const LLC_SNAP_HEADER_SIZE: nat := 8
  /** The largest Length/Type value that is read as a length. */
  const MAX_ETHERNET_LENGTH: uint16 := 1500
  /** DSAP, SSAP, control and organisation code of an RFC 1042 header. */
  const LLC_SNAP_PREFIX: seq<byte> := [0xAA, 0xAA, 0x03, 0x00, 0x00, 0x00]

  type Mac48 = s: seq<byte> | |s| == MAC_SIZE witness [0, 0, 0, 0, 0, 0]

  /** A frame as handed to the bridged device's SendFrom. */
  datatype DecodedFrame = DecodedFrame(src: Mac48, dst: Mac48, protocol: uint16, payload: seq<byte>)

  /** The Length/Type field of a frame, read in network order. */
  function LengthType(frame: seq<byte>): (t: uint16)
    requires |frame| >= ETHERNET_HEADER_SIZE
    ensures t as int == frame[12] as int * 0x100 + frame[13] as int
  {
    DecodeU16(frame[12], frame[13], BigEndian)
  }

  /** The type field of the LLC/SNAP header at the start of `bytes`. Only
      the type is read: the first six bytes are skipped, not checked. */
  function LlcSnapType(bytes: seq<byte>): (t: uint16)
    requires |bytes| >= LLC_SNAP_HEADER_SIZE
    ensures t as int == bytes[6] as int * 0x100 + bytes[7] as int
  {
    DecodeU16(bytes[6], bytes[7], BigEndian)
  }

  /** An LLC/SNAP header carrying protocol `t`. */
  function LlcSnapHeader(t: uint16): (h: seq<byte>)
    ensures |h| == LLC_SNAP_HEADER_SIZE && LlcSnapType(h) == t
  {
    DecodeEncode(t, BigEndian);
    LLC_SNAP_PREFIX + EncodeU16(t, BigEndian)
  }

  /** Prepends the Ethernet header built from dst, src and the protocol
      to the packet (ReceiveFromBridgedDevice). */
  function Encapsulate(src: Mac48, dst: Mac48, protocol: uint16, packet: seq<byte>): (frame: seq<byte>)
    ensures |frame| == ETHERNET_HEADER_SIZE + |packet|
    ensures frame[..6] == dst && frame[6..12] == src
    ensures LengthType(frame) == protocol
    ensures frame[ETHERNET_HEADER_SIZE..] == packet
  {
    DecodeEncode(protocol, BigEndian);
    dst + src + EncodeU16(protocol, BigEndian) + packet
  }

  /** The decisions of ForwardToBridgedDevice: drop a frame shorter than
      the Ethernet header; with Length/Type <= 1500 drop it when no full
      LLC/SNAP header follows, otherwise take the LLC/SNAP type as the
      protocol; with Length/Type > 1500 the field itself is the protocol. */
  function Decapsulate(frame: seq<byte>): (r: Option<DecodedFrame>)
    ensures |frame| < ETHERNET_HEADER_SIZE ==> r.None?
    ensures |frame| >= ETHERNET_HEADER_SIZE ==>
      var lt := LengthType(frame);
      && (r.None? <==> lt <= MAX_ETHERNET_LENGTH && |frame| < ETHERNET_HEADER_SIZE + LLC_SNAP_HEADER_SIZE)
      && (r.Some? ==> r.value.dst == frame[..6] && r.value.src == frame[6..12])
      && (r.Some? && lt > MAX_ETHERNET_LENGTH ==>
            r.value.protocol == lt && r.value.payload == frame[ETHERNET_HEADER_SIZE..])
      && (r.Some? && lt <= MAX_ETHERNET_LENGTH ==>
            r.value.protocol == LlcSnapType(frame[ETHERNET_HEADER_SIZE..]) &&
            r.value.payload == frame[ETHERNET_HEADER_SIZE + LLC_SNAP_HEADER_SIZE..])
  {
    if |frame| < ETHERNET_HEADER_SIZE then None
    else
      var dst: Mac48 := frame[..6];
      var src: Mac48 := frame[6..12];
      var lt := LengthType(frame);
      var rest := frame[ETHERNET_HEADER_SIZE..];
      if lt <= MAX_ETHERNET_LENGTH then
        if |rest| < LLC_SNAP_HEADER_SIZE then None
        else Some(DecodedFrame(src, dst, LlcSnapType(rest), rest[LLC_SNAP_HEADER_SIZE..]))
      else Some(DecodedFrame(src, dst, lt, rest))
  }

  /** A frame built for a protocol above 1500 decodes to the same
      addresses, protocol and packet. */
  lemma DecapsulateEncapsulate(src: Mac48, dst: Mac48, protocol: uint16, packet: seq<byte>)
    requires protocol > MAX_ETHERNET_LENGTH
    ensures Decapsulate(Encapsulate(src, dst, protocol, packet)) == Some(DecodedFrame(src, dst, protocol, packet))
  {
  }

  /** A frame whose Length/Type is a length (<= 1500) and whose packet
      starts with an LLC/SNAP header decodes to the LLC/SNAP type and the
      bytes after that header. This includes the boundary value 1500. */
  lemma DecapsulateLlcSnap(src: Mac48, dst: Mac48, length: uint16, t: uint16, rest: seq<byte>)
    requires length <= MAX_ETHERNET_LENGTH
    ensures Decapsulate(Encapsulate(src, dst, length, LlcSnapHeader(t) + rest)) == Some(DecodedFrame(src, dst, t, rest))
  {
    var frame := Encapsulate(src, dst, length, LlcSnapHeader(t) + rest);
    assert frame[ETHERNET_HEADER_SIZE..][..LLC_SNAP_HEADER_SIZE] == LlcSnapHeader(t);
  }

  /** A frame whose Length/Type is a length but whose packet is shorter
      than an LLC/SNAP header is dropped. */
  lemma DecapsulateShortLlcSnap(src: Mac48, dst: Mac48, length: uint16, packet: seq<byte>)
    requires length <= MAX_ETHERNET_LENGTH && |packet| < LLC_SNAP_HEADER_SIZE
    ensures Decapsulate(Encapsulate(src, dst, length, packet)) == None
  {
  }
}

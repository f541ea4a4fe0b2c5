/** The wire layout shared by the bridge and the distribution server
    (model/dist-types.h): a 2-byte unsigned length field followed by the
    payload, a 65536-byte payload buffer, and a 1-byte handshake. */
module DistTypes {

  newtype byte = x: int | 0 <= x < 0x100
  newtype uint16 = x: int | 0 <= x < 0x1_0000

  /** MAX_PAYLOAD: capacity of the payload buffer of payload_t. */
  const MAX_PAYLOAD: nat := 65536
  /** sizeof(payload_len): the length field is a uint16_t. */
  const LENGTH_FIELD_SIZE: nat := 2
  /** The largest value the uint16_t length field can hold. */
  const MAX_LENGTH: nat := 65535
  /** sizeof(payload_t): the length field and the payload buffer, no padding. */
  const PAYLOAD_STRUCT_SIZE: nat := LENGTH_FIELD_SIZE + MAX_PAYLOAD
  /** sizeof(handshake_msg_t). */
  const HANDSHAKE_SIZE: nat := 1

  /** The host's representation of a uint16_t. The length field is stored
      and read in host order, so both peers must agree on it. */
  datatype ByteOrder = LittleEndian | BigEndian

  /** The two bytes of a uint16_t in memory: the low byte first on a
      little-endian host, the high byte first on a big-endian one. */
  function EncodeU16(v: uint16, order: ByteOrder): (b: seq<byte>)
    ensures |b| == 2
    ensures b[if order.LittleEndian? then 0 else 1] as int == v as int % 0x100
    ensures b[if order.LittleEndian? then 1 else 0] as int == v as int / 0x100
  {
    var lo := (v as int % 0x100) as byte;
    var hi := (v as int / 0x100) as byte;
    match order
    case LittleEndian => [lo, hi]
    case BigEndian => [hi, lo]
  }

  /** The uint16_t that two bytes in memory hold: the first byte is the
      low byte on a little-endian host and the high byte on a big-endian
      one. */
  function DecodeU16(b0: byte, b1: byte, order: ByteOrder): (v: uint16)
    ensures v as int == (if order.LittleEndian? then b0 else b1) as int + 0x100 * (if order.LittleEndian? then b1 else b0) as int
  {
    match order
    case LittleEndian => (b0 as int + 0x100 * b1 as int) as uint16
    case BigEndian => (0x100 * b0 as int + b1 as int) as uint16
  }

  /** Decoding the two bytes of an encoded value gives the value back. */
  lemma DecodeEncode(v: uint16, order: ByteOrder)
    ensures var b := EncodeU16(v, order); DecodeU16(b[0], b[1], order) == v
  {
  }

  /** Every pair of bytes is the encoding of the value it decodes to, so
      the 2-byte length field represents exactly the values 0..65535. */
  lemma EncodeDecode(b0: byte, b1: byte, order: ByteOrder)
    ensures EncodeU16(DecodeU16(b0, b1, order), order) == [b0, b1]
  {
  }

  /** The handshake message: one byte, the channel id. */
  function HandshakeMsg(channelId: byte): (m: seq<byte>)
    ensures |m| == HANDSHAKE_SIZE && m[0] == channelId
  {
    [channelId]
  }

  /** A wire message: the length field, in host order, then the payload.
      Only payloads of up to MAX_LENGTH bytes can be described by the field. */
  function WireMessage(payload: seq<byte>, order: ByteOrder): (m: seq<byte>)
    requires |payload| <= MAX_LENGTH
    ensures |m| == |payload| + LENGTH_FIELD_SIZE
    ensures DecodeU16(m[0], m[1], order) as nat == |payload|
    ensures m[LENGTH_FIELD_SIZE..] == payload
  {
    DecodeEncode(|payload| as uint16, order);
    EncodeU16(|payload| as uint16, order) + payload
  }

  /** The value a uint16_t field takes when a size is assigned to it: the
      size modulo 65536 (the implicit conversion in `payload_len = size`). */
  function StoredLength(size: nat): (v: uint16)
    ensures size <= MAX_LENGTH ==> v as nat == size
    ensures size == MAX_PAYLOAD ==> v == 0
  {
    (size % 0x1_0000) as uint16
  }
}

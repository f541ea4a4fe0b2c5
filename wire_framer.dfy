/** The length checks of ReadCallback (model/distributed-bridge.cc): a
    buffer handed over by the reader is kept only when it holds the length
    field and at least as many payload bytes as the field declares. */
module WireFramer {
  import opened Wrappers
  import opened DistTypes

  /** The payload of a wire message, or None when ReadCallback drops it.
      What is forwarded is every byte after the length field, `len - 2`
      bytes, even where that is more than the field declares. */
  function Unframe(msg: seq<byte>, order: ByteOrder): (r: Option<seq<byte>>)
    ensures r.Some? <==>
      |msg| >= LENGTH_FIELD_SIZE && DecodeU16(msg[0], msg[1], order) as nat <= |msg| - LENGTH_FIELD_SIZE
    ensures r.Some? ==> |r.value| == |msg| - LENGTH_FIELD_SIZE && msg == msg[..LENGTH_FIELD_SIZE] + r.value
  {
    if |msg| < LENGTH_FIELD_SIZE then None
    else if |msg| - LENGTH_FIELD_SIZE < DecodeU16(msg[0], msg[1], order) as nat then None
    else Some(msg[LENGTH_FIELD_SIZE..])
  }

  /** Unframing a wire message gives its payload back, for every payload
      the length field can describe. */
  lemma UnframeWireMessage(payload: seq<byte>, order: ByteOrder)
    requires |payload| <= MAX_LENGTH
    ensures Unframe(WireMessage(payload, order), order) == Some(payload)
  {
  }

  /** Conversely, a buffer that passes the checks and holds exactly the
      declared number of bytes is the wire message of what is forwarded. */
  lemma WireMessageUnframe(msg: seq<byte>, order: ByteOrder)
    requires |msg| >= LENGTH_FIELD_SIZE && DecodeU16(msg[0], msg[1], order) as nat == |msg| - LENGTH_FIELD_SIZE
    ensures Unframe(msg, order).Some?
    ensures |Unframe(msg, order).value| <= MAX_LENGTH
    ensures WireMessage(Unframe(msg, order).value, order) == msg
  {
    var p := msg[LENGTH_FIELD_SIZE..];
    EncodeDecode(msg[0], msg[1], order);
    assert msg == [msg[0], msg[1]] + p;
  }
}

/** The reader side of the connection: DistributedBridgeFdReader::DoRead
    (model/distributed-bridge.cc:7-38) reads the 2-byte length field, then
    reads until the declared number of payload bytes has arrived.

    The socket is modelled as the bytes the peer has sent and not yet been
    read (`pending`) together with a script saying what each successive
    read() call does: a read delivers at most `limit` bytes, or fails. When
    the script is used up, each read delivers all that is available, so a
    read on an empty `pending` returns 0 (the peer closed the stream).

    The completion loop is modelled as it is evidently meant to work: each
    chunk is stored after all bytes received so far, a read returning 0
    while bytes are missing ends the message like an error, and the first
    payload read is checked like the later ones (see Findings). The header
    read is modelled as written: a read returning a single byte is
    accepted, and the second byte of the length field is then whatever the
    freshly allocated buffer held (`uninit`). */
module FrameReader {
  import opened Wrappers
  import opened DistTypes
  import opened Buffers

  /** What the kernel does with one read() call. */
  datatype ReadOutcome = Deliver(limit: nat) | Fail

  /** FdReader::Data: the buffer handed to the read callback (None for the
      null pointer) and its size. */
  datatype Data = Data(buf: Option<seq<byte>>, len: int)

  /** The bytes read so far and the state of the socket afterwards. */
  datatype Progress = Progress(data: seq<byte>, pending: seq<byte>, script: seq<ReadOutcome>)

  function Min(a: int, b: int): int
  {
    if a <= b then a else b
  }

  /** The return value of read(fd, buf, want): -1 on failure, otherwise
      the number of bytes delivered, never more than asked for or than
      are available. This over-approximates a blocking stream socket: a
      Deliver(0) step returns 0 even while bytes are pending, where the
      kernel returns 0 only at the end of the stream. Every property
      proved here for all scripts holds for the real reads too, and the
      reader treats any 0 as the end of the stream. */
  function ReadCount(pending: seq<byte>, script: seq<ReadOutcome>, want: nat): (n: int)
    ensures -1 <= n <= want && n <= |pending|
    ensures n == -1 <==> |script| > 0 && script[0].Fail?
    ensures n == 0 ==> want == 0 || |pending| == 0 || (|script| > 0 && script[0] == Deliver(0))
  {
    if |script| == 0 then Min(want, |pending|)
    else match script[0]
      case Fail => -1
      case Deliver(limit) => Min(Min(limit, want), |pending|)
  }

  /** The script once one read() has been made. */
  function Rest(script: seq<ReadOutcome>): seq<ReadOutcome>
  {
    if |script| == 0 then [] else script[1..]
  }

  /** The script makes progress: no read fails or delivers nothing. */
  ghost predicate AllProgress(script: seq<ReadOutcome>)
  {
    forall i :: 0 <= i < |script| ==> script[i].Deliver? && script[i].limit > 0
  }

  function Prepend(prefix: seq<byte>, r: Option<Progress>): Option<Progress>
  {
    match r
    case None => None
    case Some(p) => Some(p.(data := prefix + p.data))
  }

  /** The completion loop, with the bytes `got` received so far: read
      until `left` more bytes have arrived. A read returning 0 or less ends
      it without a message. */
  function Complete(got: seq<byte>, pending: seq<byte>, script: seq<ReadOutcome>, left: nat): (r: Option<Progress>)
    ensures r.Some? ==> |r.value.data| == |got| + left && left <= |pending|
    decreases left
  {
    if left == 0 then Some(Progress(got, pending, script))
    else
      var n := ReadCount(pending, script, left);
      if n <= 0 then None
      else Complete(got + pending[..n], pending[n..], Rest(script), left - n)
  }

  /** The part of DoRead after the length field: reads the declared
      payload into `pl` just after the two length bytes, and on success
      hands back the length field followed by the payload. */
  method ReadBody(src: ReadEnd, pl: array<byte>, h0: byte, h1: byte, order: ByteOrder) returns (d: Data)
    requires pl.Length == PAYLOAD_STRUCT_SIZE && pl[0] == h0 && pl[1] == h1
    modifies src, pl
    ensures d == ToData(Prepend([h0, h1], ReadPayload(old(src.pending), old(src.script), DecodeU16(h0, h1, order) as nat)))
    ensures d.buf.Some? ==>
      var r := ReadPayload(old(src.pending), old(src.script), DecodeU16(h0, h1, order) as nat).value;
      src.pending == r.pending && src.script == r.script
  {
    ghost var p1, s1, header := src.pending, src.script, pl[..];
    var len := DecodeU16(h0, h1, order) as nat;
    var ok := ReadPayloadInto(src, pl, len);
    if !ok {
      return Data(None, 0);
    }
    ghost var payload := ReadPayload(p1, s1, len).value;
    var msg := pl[..LENGTH_FIELD_SIZE + len];
    assert msg == [h0, h1] + payload.data by {
      SpliceWindow(header, LENGTH_FIELD_SIZE, payload.data);
      assert header[..LENGTH_FIELD_SIZE] == [h0, h1];
    }
    d := Data(Some(msg), LENGTH_FIELD_SIZE + len);
  }

  /** The payload part of DoRead: one read of the declared length (made
      even when that length is 0), then the completion loop. */
  function ReadPayload(pending: seq<byte>, script: seq<ReadOutcome>, len: nat): (r: Option<Progress>)
    ensures r.Some? ==> |r.value.data| == len <= |pending|
  {
    var m := ReadCount(pending, script, len);
    if m < 0 || (m == 0 && len > 0) then None
    else Complete(pending[..m], pending[m..], Rest(script), len - m)
  }

  /** Whatever the chunking, a completed loop has taken exactly the next
      `left` bytes of the stream, in order, and left the stream after them. */
  lemma {:induction false} CompleteTakesPrefix(got: seq<byte>, pending: seq<byte>, script: seq<ReadOutcome>, left: nat)
    requires Complete(got, pending, script, left).Some?
    ensures var r := Complete(got, pending, script, left).value;
            left <= |pending| && r.data == got + pending[..left] && r.pending == pending[left..]
    decreases left
  {
    if left > 0 {
      var n := ReadCount(pending, script, left);
      CompleteTakesPrefix(got + pending[..n], pending[n..], Rest(script), left - n);
      assert pending[..n] + pending[n..][..left - n] == pending[..left];
      assert (got + pending[..n]) + pending[n..][..left - n] == got + pending[..left];
    }
  }

  /** The same for the payload part, first read included: on success it
      has taken exactly the next `len` bytes of the stream. */
  lemma ReadPayloadTakesPrefix(pending: seq<byte>, script: seq<ReadOutcome>, len: nat)
    requires ReadPayload(pending, script, len).Some?
    ensures var r := ReadPayload(pending, script, len).value;
            len <= |pending| && r.data == pending[..len] && r.pending == pending[len..]
  {
    var m := ReadCount(pending, script, len);
    CompleteTakesPrefix(pending[..m], pending[m..], Rest(script), len - m);
    assert pending[..m] + pending[m..][..len - m] == pending[..len];
  }

  /** One message as DoRead produces it: the header read, then the
      payload. */
  function ReadMessage(pending: seq<byte>, script: seq<ReadOutcome>, order: ByteOrder, uninit: byte): (r: Option<Progress>)
    ensures ReadCount(pending, script, LENGTH_FIELD_SIZE) <= 0 ==> r.None?
    ensures r.Some? ==> |r.value.data| >= LENGTH_FIELD_SIZE && r.value.data[0] == pending[0]
  {
    var n := ReadCount(pending, script, LENGTH_FIELD_SIZE);
    if n <= 0 then None
    else
      var h0 := pending[0];
      var h1 := if n == 2 then pending[1] else uninit;
      Prepend([h0, h1], ReadPayload(pending[n..], Rest(script), DecodeU16(h0, h1, order) as nat))
  }

  /** The message ReadMessage yields is taken from the stream: its first
      byte is the stream's first byte (and so is its second when the header
      read delivered both), its payload is the bytes that follow the header
      read, and the stream is left just after them. */
  lemma ReadMessageFromStream(pending: seq<byte>, script: seq<ReadOutcome>, order: ByteOrder, uninit: byte)
    requires ReadMessage(pending, script, order, uninit).Some?
    ensures var n := ReadCount(pending, script, LENGTH_FIELD_SIZE);
            var r := ReadMessage(pending, script, order, uninit).value;
            var len := |r.data| - LENGTH_FIELD_SIZE;
            && r.data[0] == pending[0]
            && (n == 2 ==> r.data[..LENGTH_FIELD_SIZE] == pending[..LENGTH_FIELD_SIZE])
            && n + len <= |pending|
            && r.data[LENGTH_FIELD_SIZE..] == pending[n..n + len]
            && r.pending == pending[n + len..]
  {
    var n := ReadCount(pending, script, LENGTH_FIELD_SIZE);
    var h1 := if n == 2 then pending[1] else uninit;
    var len := DecodeU16(pending[0], h1, order) as nat;
    var q := ReadPayload(pending[n..], Rest(script), len);
    assert ReadMessage(pending, script, order, uninit) == Prepend([pending[0], h1], q) by {
      ReadMessageUnfold(pending, script, order, uninit, pending[0], h1);
    }
    ReadPayloadTakesPrefix(pending[n..], Rest(script), len);
    var r := ReadMessage(pending, script, order, uninit).value;
    assert r.data == [pending[0], h1] + q.value.data;
    assert q.value.data == pending[n..][..len] == pending[n..n + len];
  }

  /** A message DoRead produces is the length field followed by exactly as
      many payload bytes as the field declares, so its size is
      payload_len + 2; and there is none when the header read fails or
      finds the stream closed. */
  lemma ReadMessageShape(pending: seq<byte>, script: seq<ReadOutcome>, order: ByteOrder, uninit: byte)
    ensures ReadCount(pending, script, LENGTH_FIELD_SIZE) <= 0 ==> ReadMessage(pending, script, order, uninit).None?
    ensures var r := ReadMessage(pending, script, order, uninit);
            r.Some? ==>
              var m := r.value.data;
              |m| >= LENGTH_FIELD_SIZE && DecodeU16(m[0], m[1], order) as nat == |m| - LENGTH_FIELD_SIZE
  {
    var n := ReadCount(pending, script, LENGTH_FIELD_SIZE);
    if n > 0 {
      var h1 := if n == 2 then pending[1] else uninit;
      var len := DecodeU16(pending[0], h1, order) as nat;
      var q := ReadPayload(pending[n..], Rest(script), len);
      if q.Some? {
        ReadPayloadTakesPrefix(pending[n..], Rest(script), len);
        var m := ReadMessage(pending, script, order, uninit).value.data;
        assert m == [pending[0], h1] + q.value.data;
        assert m[0] == pending[0] && m[1] == h1;
      }
    }
  }

  function ToData(r: Option<Progress>): Data
  {
    match r
    case None => Data(None, 0)
    case Some(p) => Data(Some(p.data), |p.data|)
  }

  /** The read side of the connection (the descriptor DoRead reads from). */
  class ReadEnd {
    var pending: seq<byte>
    var script: seq<ReadOutcome>

    constructor (pending: seq<byte>, script: seq<ReadOutcome>)
      ensures this.pending == pending && this.script == script
    {
      this.pending := pending;
      this.script := script;
    }

    /** read(fd, buf + off, want): stores the bytes delivered at `off`
        and returns how many there were, or -1. Nothing else in `buf`
        changes. */
    method Read(buf: array<byte>, off: nat, want: nat) returns (n: int)
      requires off + want <= buf.Length
      modifies this, buf
      ensures n == ReadCount(old(pending), old(script), want)
      ensures script == Rest(old(script))
      ensures n < 0 ==> pending == old(pending) && buf[..] == old(buf[..])
      ensures n >= 0 ==> pending == old(pending)[n..] && buf[..] == Splice(old(buf[..]), off, old(pending)[..n])
    {
      n := ReadCount(pending, script, want);
      if n >= 0 {
        Store(buf, off, pending[..n]);
        pending := pending[n..];
      }
      script := Rest(script);
    }
  }

  /** DistributedBridgeFdReader::DoRead over a fresh payload_t buffer.
      Any failure yields Data(null, 0); a success yields the whole message,
      payload_len + 2 bytes, and leaves the socket just after it. */
  method DoRead(src: ReadEnd, order: ByteOrder) returns (d: Data, ghost uninit: byte)
    modifies src
    ensures d == ToData(ReadMessage(old(src.pending), old(src.script), order, uninit))
    ensures d.buf.Some? ==>
      var r := ReadMessage(old(src.pending), old(src.script), order, uninit).value;
      && src.pending == r.pending && src.script == r.script
      && |r.script| <= |old(src.script)| && NoFailureBefore(old(src.script), |old(src.script)| - |r.script|)
  {
    var pl := new byte[PAYLOAD_STRUCT_SIZE];
    ghost var p0, s0, before := src.pending, src.script, pl[..];
    var n := src.Read(pl, 0, LENGTH_FIELD_SIZE);
    if n <= 0 {
      uninit := 0;
      d := Data(None, 0);
      return;
    }
    var h0, h1 := pl[0], pl[1];
    assert h0 == p0[0] by { SpliceAt(before, 0, p0[..n], 0); }
    assert n == 2 ==> h1 == p0[1] by {
      if n == 2 { SpliceAt(before, 0, p0[..n], 1); }
    }
    uninit := h1;
    ReadMessageUnfold(p0, s0, order, uninit, h0, h1);
    d := ReadBody(src, pl, h0, h1, order);
    if d.buf.Some? {
      ReadMessageNeedsNoFailure(p0, s0, order, uninit);
    }
  }

  /** The payload part of DoRead: the read of the declared length into
      the payload buffer, then the completion loop, which reads until the
      rest has arrived and stops at the first read that returns 0 or less.
      Each chunk is stored right after the bytes received so far. */
  method ReadPayloadInto(src: ReadEnd, pl: array<byte>, len: nat) returns (ok: bool)
    requires LENGTH_FIELD_SIZE + len <= pl.Length
    modifies src, pl
    ensures ok == ReadPayload(old(src.pending), old(src.script), len).Some?
    ensures ok ==>
      var r := ReadPayload(old(src.pending), old(src.script), len).value;
      && pl[..] == Splice(old(pl[..]), LENGTH_FIELD_SIZE, r.data)
      && src.pending == r.pending && src.script == r.script
  {
    ghost var p, s, b := src.pending, src.script, pl[..];
    var m := src.Read(pl, LENGTH_FIELD_SIZE, len);
    if m < 0 || (m == 0 && len > 0) {
      return false;
    }
    assert ReadPayload(p, s, len) == Complete(p[..m], src.pending, src.script, len - m) by {
      ReadPayloadStep(p, s, len);
    }
    ok := CompleteInto(src, pl, b, p[..m], m, len - m);
  }

  /** The completion loop of DoRead: reads until `rem` more bytes have
      arrived, storing each chunk right after the `done` bytes received
      so far, and stops at the first read that returns 0 or less. */
  method CompleteInto(src: ReadEnd, pl: array<byte>, ghost b: seq<byte>, ghost got: seq<byte>, done: nat, rem: nat) returns (ok: bool)
    requires done == |got| && LENGTH_FIELD_SIZE + done + rem <= pl.Length == |b|
    requires pl[..] == Splice(b, LENGTH_FIELD_SIZE, got)
    modifies src, pl
    ensures ok == Complete(got, old(src.pending), old(src.script), rem).Some?
    ensures ok ==>
      var r := Complete(got, old(src.pending), old(src.script), rem).value;
      && pl[..] == Splice(b, LENGTH_FIELD_SIZE, r.data)
      && src.pending == r.pending && src.script == r.script
  {
    ghost var spec := Complete(got, src.pending, src.script, rem);
    ghost var acc := got;
    var n: nat, left: nat := done, rem;
    while left > 0
      invariant n == |acc| && n + left == done + rem
      invariant pl[..] == Splice(b, LENGTH_FIELD_SIZE, acc)
      invariant spec == Complete(acc, src.pending, src.script, left)
    {
      ghost var cur, sc := src.pending, src.script;
      var k := src.Read(pl, LENGTH_FIELD_SIZE + n, left);
      if k <= 0 {
        return false;
      }
      assert k == ReadCount(cur, sc, left) && src.pending == cur[k..] && src.script == Rest(sc);
      assert spec == Complete(acc + cur[..k], cur[k..], Rest(sc), left - k) by {
        CompleteStep(acc, cur, sc, left);
      }
      SpliceTwice(b, LENGTH_FIELD_SIZE, acc, cur[..k]);
      acc := acc + cur[..k];
      n, left := n + k, left - k;
    }
    return true;
  }

  /** One turn of the completion loop when the read delivers something. */
  lemma CompleteStep(got: seq<byte>, pending: seq<byte>, script: seq<ReadOutcome>, left: nat)
    requires left > 0 && ReadCount(pending, script, left) > 0
    ensures var n := ReadCount(pending, script, left);
            Complete(got, pending, script, left) == Complete(got + pending[..n], pending[n..], Rest(script), left - n)
  {
  }

  /** A read that returned more than 0 bytes left a script whose first
      entry, if any, delivers at least one byte. */
  lemma DeliveredRead(pending: seq<byte>, script: seq<ReadOutcome>, want: nat)
    requires ReadCount(pending, script, want) > 0
    ensures |script| > 0 ==> script[0].Deliver? && script[0].limit > 0
  {
  }

  lemma ReadPayloadStep(pending: seq<byte>, script: seq<ReadOutcome>, len: nat)
    requires ReadCount(pending, script, len) >= 0
    requires ReadCount(pending, script, len) > 0 || len == 0
    ensures var m := ReadCount(pending, script, len);
            ReadPayload(pending, script, len) == Complete(pending[..m], pending[m..], Rest(script), len - m)
  {
  }

  lemma ReadMessageUnfold(pending: seq<byte>, script: seq<ReadOutcome>, order: ByteOrder, uninit: byte, h0: byte, h1: byte)
    requires ReadCount(pending, script, LENGTH_FIELD_SIZE) > 0
    requires h0 == pending[0]
    requires h1 == if ReadCount(pending, script, LENGTH_FIELD_SIZE) == 2 then pending[1] else uninit
    ensures var n := ReadCount(pending, script, LENGTH_FIELD_SIZE);
            ReadMessage(pending, script, order, uninit) ==
            Prepend([h0, h1], ReadPayload(pending[n..], Rest(script), DecodeU16(h0, h1, order) as nat))
  {
  }

  /** When the stream holds at least `left` bytes and no read fails or
      comes back empty, the completion loop ends with the message complete. */
  lemma {:induction false} CompleteMakesProgress(got: seq<byte>, pending: seq<byte>, script: seq<ReadOutcome>, left: nat)
    requires left <= |pending| && AllProgress(script)
    ensures Complete(got, pending, script, left).Some?
    decreases left
  {
    if left > 0 {
      var n := ReadCount(pending, script, left);
      assert n > 0;
      assert AllProgress(Rest(script));
      CompleteMakesProgress(got + pending[..n], pending[n..], Rest(script), left - n);
    }
  }

  /** The first `k` reads of `script` all deliver something. */
  ghost predicate ProgressBefore(script: seq<ReadOutcome>, k: nat)
  {
    k <= |script| && forall i :: 0 <= i < k ==> script[i].Deliver? && script[i].limit > 0
  }

  /** None of the first `k` reads of `script` fails. */
  ghost predicate NoFailureBefore(script: seq<ReadOutcome>, k: nat)
  {
    k <= |script| && forall i :: 0 <= i < k ==> script[i].Deliver?
  }

  lemma ProgressHasNoFailure(script: seq<ReadOutcome>, k: nat)
    requires ProgressBefore(script, k)
    ensures NoFailureBefore(script, k)
  {
  }

  /** One read that delivered something, then later reads that all did,
      up to the script `rest`: all of the reads did. */
  lemma ProgressStep(script: seq<ReadOutcome>, rest: seq<ReadOutcome>)
    requires |script| > 0 ==> script[0].Deliver? && script[0].limit > 0
    requires |rest| <= |Rest(script)| && rest == Rest(script)[|Rest(script)| - |rest|..]
    requires ProgressBefore(Rest(script), |Rest(script)| - |rest|)
    ensures |rest| <= |script| && rest == script[|script| - |rest|..]
    ensures ProgressBefore(script, |script| - |rest|)
  {
    if |script| > 0 {
      var k := |script| - |rest|;
      assert script[1..][k - 1..] == script[k..];
      forall i | 0 <= i < k
        ensures script[i].Deliver? && script[i].limit > 0
      {
        if i > 0 { assert script[i] == Rest(script)[i - 1]; }
      }
    }
  }

  /** The same with failures only: a read that did not fail, then later
      reads none of which failed. */
  lemma NoFailureStep(script: seq<ReadOutcome>, rest: seq<ReadOutcome>)
    requires |script| > 0 ==> script[0].Deliver?
    requires |rest| <= |Rest(script)| && rest == Rest(script)[|Rest(script)| - |rest|..]
    requires NoFailureBefore(Rest(script), |Rest(script)| - |rest|)
    ensures |rest| <= |script| && rest == script[|script| - |rest|..]
    ensures NoFailureBefore(script, |script| - |rest|)
  {
    if |script| > 0 {
      var k := |script| - |rest|;
      assert script[1..][k - 1..] == script[k..];
      forall i | 0 <= i < k
        ensures script[i].Deliver?
      {
        if i > 0 { assert script[i] == Rest(script)[i - 1]; }
      }
    }
  }

  /** The converse of CompleteMakesProgress: a completed loop made only
      reads that delivered something. In particular a read returning -1
      (or 0) during the loop always ends it without a message. */
  lemma {:induction false} CompleteNeedsProgress(got: seq<byte>, pending: seq<byte>, script: seq<ReadOutcome>, left: nat)
    requires Complete(got, pending, script, left).Some?
    ensures var r := Complete(got, pending, script, left).value;
            && |r.script| <= |script| && r.script == script[|script| - |r.script|..]
            && ProgressBefore(script, |script| - |r.script|)
    decreases left
  {
    if left > 0 {
      var n := ReadCount(pending, script, left);
      assert n > 0;
      var next := Complete(got + pending[..n], pending[n..], Rest(script), left - n);
      assert Complete(got, pending, script, left) == next by { CompleteStep(got, pending, script, left); }
      CompleteNeedsProgress(got + pending[..n], pending[n..], Rest(script), left - n);
      DeliveredRead(pending, script, left);
      ProgressStep(script, next.value.script);
    }
  }

  /** A payload read that yields its payload made no failing read: the
      first read and every completion read delivered. */
  lemma {:induction false} ReadPayloadNeedsNoFailure(pending: seq<byte>, script: seq<ReadOutcome>, len: nat)
    requires ReadPayload(pending, script, len).Some?
    ensures var r := ReadPayload(pending, script, len).value;
            && |r.script| <= |script| && r.script == script[|script| - |r.script|..]
            && NoFailureBefore(script, |script| - |r.script|)
  {
    var m := ReadCount(pending, script, len);
    assert m >= 0 && (m > 0 || len == 0);
    var c := Complete(pending[..m], pending[m..], Rest(script), len - m);
    assert ReadPayload(pending, script, len) == c by { ReadPayloadStep(pending, script, len); }
    var rest := c.value.script;
    CompleteNeedsProgress(pending[..m], pending[m..], Rest(script), len - m);
    ProgressHasNoFailure(Rest(script), |Rest(script)| - |rest|);
    NoFailureStep(script, rest);
  }

  /** A message DoRead yields was read without a single failing read():
      the header read and every payload read delivered. So any read
      returning -1, in the header, the first payload read or the
      completion loop, ends DoRead with Data(null, 0). */
  lemma {:induction false} ReadMessageNeedsNoFailure(pending: seq<byte>, script: seq<ReadOutcome>, order: ByteOrder, uninit: byte)
    requires ReadMessage(pending, script, order, uninit).Some?
    ensures var r := ReadMessage(pending, script, order, uninit).value;
            && |r.script| <= |script| && r.script == script[|script| - |r.script|..]
            && NoFailureBefore(script, |script| - |r.script|)
  {
    var n := ReadCount(pending, script, LENGTH_FIELD_SIZE);
    var h1 := if n == 2 then pending[1] else uninit;
    ReadMessageUnfold(pending, script, order, uninit, pending[0], h1);
    PrependNoFailure(pending[n..], script, [pending[0], h1], DecodeU16(pending[0], h1, order) as nat);
  }

  /** The step from the header read to the payload read: a header read
      that did not fail, then a payload read that yields its payload. */
  lemma PrependNoFailure(rest: seq<byte>, script: seq<ReadOutcome>, header: seq<byte>, len: nat)
    requires |script| > 0 ==> script[0].Deliver?
    requires ReadPayload(rest, Rest(script), len).Some?
    ensures var r := Prepend(header, ReadPayload(rest, Rest(script), len)).value;
            && |r.script| <= |script| && r.script == script[|script| - |r.script|..]
            && NoFailureBefore(script, |script| - |r.script|)
  {
    ReadPayloadNeedsNoFailure(rest, Rest(script), len);
    NoFailureStep(script, ReadPayload(rest, Rest(script), len).value.script);
  }

  /** For instance, the stream [2, 0, 7, 8] whose payload arrives one byte
      at a time: when the completion read after the 7 fails, there is no
      message, although the stream holds the 8. */
  lemma CompletionReadFails()
    ensures ReadMessage([2, 0, 7, 8], [Deliver(2), Deliver(1), Fail], LittleEndian, 0).None?
  {
    var p: seq<byte> := [2, 0, 7, 8];
    assert ReadCount(p, [Deliver(2), Deliver(1), Fail], LENGTH_FIELD_SIZE) == 2;
    assert p[2..] == [7, 8];
    assert DecodeU16(2, 0, LittleEndian) == 2;
    var q: seq<byte> := [7, 8];
    assert ReadCount(q, [Deliver(1), Fail], 2) == 1;
    assert ReadCount(q[1..], [Fail], 1) == -1;
  }

  /** The same for the payload part, first read included. */
  lemma ReadPayloadMakesProgress(pending: seq<byte>, script: seq<ReadOutcome>, len: nat)
    requires len <= |pending| && AllProgress(script)
    ensures ReadPayload(pending, script, len).Some?
  {
    var m := ReadCount(pending, script, len);
    assert AllProgress(Rest(script));
    CompleteMakesProgress(pending[..m], pending[m..], Rest(script), len - m);
  }

  /** A payload arriving one byte per read is reassembled into the same
      bytes as one arriving in a single read. */
  lemma ChunkingIrrelevant(pending: seq<byte>, left: nat)
    requires left <= |pending|
    ensures var bytewise := Complete([], pending, seq(left, _ => Deliver(1)), left);
            var whole := Complete([], pending, [Deliver(left)], left);
            bytewise.Some? && whole.Some? &&
            bytewise.value.data == whole.value.data == pending[..left] &&
            bytewise.value.pending == whole.value.pending
  {
    if left > 0 {
      CompleteMakesProgress([], pending, seq(left, _ => Deliver(1)), left);
      CompleteMakesProgress([], pending, [Deliver(left)], left);
      CompleteTakesPrefix([], pending, seq(left, _ => Deliver(1)), left);
      CompleteTakesPrefix([], pending, [Deliver(left)], left);
    }
  }

  /** A wire message at the head of the stream is read back whole, and
      the stream is left at the next message, provided that the header read
      delivers both bytes and no read fails or comes back empty. */
  lemma ReadMessageOfWire(payload: seq<byte>, rest: seq<byte>, script: seq<ReadOutcome>, order: ByteOrder, uninit: byte)
    requires |payload| <= MAX_LENGTH
    requires AllProgress(script) && (|script| > 0 ==> script[0].limit >= LENGTH_FIELD_SIZE)
    ensures var r := ReadMessage(WireMessage(payload, order) + rest, script, order, uninit);
            r.Some? && r.value.data == WireMessage(payload, order) && r.value.pending == rest
  {
    var w := WireMessage(payload, order);
    var pending := w + rest;
    assert ReadCount(pending, script, LENGTH_FIELD_SIZE) == 2;
    assert pending[2..] == payload + rest;
    assert AllProgress(Rest(script));
    ReadPayloadMakesProgress(payload + rest, Rest(script), |payload|);
    ReadPayloadTakesPrefix(payload + rest, Rest(script), |payload|);
    assert (payload + rest)[..|payload|] == payload;
    assert w == w[..2] + payload;
  }

  /** A stream that closes before the declared payload is complete yields
      no message, however the reads are chunked. */
  lemma ClosedMidPayload(pending: seq<byte>, script: seq<ReadOutcome>, order: ByteOrder, uninit: byte)
    requires ReadCount(pending, script, LENGTH_FIELD_SIZE) == 2
    requires |pending| < LENGTH_FIELD_SIZE + DecodeU16(pending[0], pending[1], order) as nat
    ensures ReadMessage(pending, script, order, uninit).None?
  {
  }

  /** The header read accepts a single byte: the message is then built
      from that byte and the buffer's stale second byte, which becomes part
      of the length, and the payload starts at the stream's second byte. */
  lemma OneHeaderByteUsesStaleByte(pending: seq<byte>, script: seq<ReadOutcome>, order: ByteOrder, uninit: byte)
    requires ReadCount(pending, script, LENGTH_FIELD_SIZE) == 1
    requires ReadMessage(pending, script, order, uninit).Some?
    ensures var m := ReadMessage(pending, script, order, uninit).value.data;
            && m[..LENGTH_FIELD_SIZE] == [pending[0], uninit]
            && DecodeU16(pending[0], uninit, order) as nat == |m| - LENGTH_FIELD_SIZE
            && m[LENGTH_FIELD_SIZE..] == pending[1..|m| - 1]
  {
    ReadMessageFromStream(pending, script, order, uninit);
    ReadMessageShape(pending, script, order, uninit);
  }

  /** For instance, the stream [3, 7, 8, 9] whose first read delivers one
      byte: the stale byte (here 0) becomes the second byte of the length
      field, and 7 is taken as payload instead. */
  lemma OneHeaderByteAccepted()
    ensures ReadMessage([3, 7, 8, 9], [Deliver(1)], LittleEndian, 0) == Some(Progress([3, 0, 7, 8, 9], [], []))
  {
    var p: seq<byte> := [3, 7, 8, 9];
    assert ReadCount(p, [Deliver(1)], LENGTH_FIELD_SIZE) == 1;
    assert p[1..] == [7, 8, 9];
    assert DecodeU16(3, 0, LittleEndian) == 3;
    var q: seq<byte> := [7, 8, 9];
    assert ReadCount(q, [], 3) == 3;
    assert q[..3] == q && q[3..] == [];
    assert ReadPayload(q, [], 3) == Some(Progress(q, [], []));
    assert [3 as byte, 0] + q == [3, 0, 7, 8, 9];
  }
}

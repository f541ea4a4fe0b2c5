/** Byte buffers written in place: a store of a chunk at an offset, as
    read() and memcpy() do, described by the buffer's contents before and
    after. */
module Buffers {
  import opened DistTypes

  /** The buffer `a` with `chunk` stored at `off` and nothing else changed. */
  function Splice(a: seq<byte>, off: nat, chunk: seq<byte>): (r: seq<byte>)
    requires off + |chunk| <= |a|
    ensures |r| == |a|
  {
    a[..off] + chunk + a[off + |chunk|..]
  }

  /** After the store, the chunk is found at its offset and every other
      byte is as before. */
  lemma SpliceContents(a: seq<byte>, off: nat, chunk: seq<byte>)
    requires off + |chunk| <= |a|
    ensures var r := Splice(a, off, chunk);
            && r[off..off + |chunk|] == chunk
            && (forall i :: 0 <= i < |a| && !(off <= i < off + |chunk|) ==> r[i] == a[i])
  {
    var r := Splice(a, off, chunk);
    forall i | 0 <= i < |a| && !(off <= i < off + |chunk|)
      ensures r[i] == a[i]
    {
      if i < off {
        assert r[i] == a[..off][i];
      } else {
        assert r[i] == a[off + |chunk|..][i - off - |chunk|];
      }
    }
  }

  /** A store at offset 0 leaves the chunk as the buffer's first bytes. */
  lemma SplicePrefix(a: seq<byte>, chunk: seq<byte>, n: nat)
    requires |chunk| <= |a| && n <= |chunk|
    ensures Splice(a, 0, chunk)[..n] == chunk[..n]
  {
    SpliceContents(a, 0, chunk);
    assert Splice(a, 0, chunk)[..n] == Splice(a, 0, chunk)[..|chunk|][..n];
  }

  /** After the store, byte i of the chunk is at offset off + i. */
  lemma SpliceAt(a: seq<byte>, off: nat, chunk: seq<byte>, i: nat)
    requires off + |chunk| <= |a| && i < |chunk|
    ensures Splice(a, off, chunk)[off + i] == chunk[i]
  {
    assert Splice(a, off, chunk)[off + i] == (a[..off] + chunk)[off + i];
  }

  /** After the store, the buffer up to the chunk's end is the bytes
      before the offset followed by the chunk. */
  lemma SpliceWindow(a: seq<byte>, off: nat, chunk: seq<byte>)
    requires off + |chunk| <= |a|
    ensures Splice(a, off, chunk)[..off + |chunk|] == a[..off] + chunk
  {
  }

  /** Storing two adjacent chunks one after the other stores their
      concatenation. */
  lemma SpliceTwice(a: seq<byte>, off: nat, c1: seq<byte>, c2: seq<byte>)
    requires off + |c1| + |c2| <= |a|
    ensures Splice(Splice(a, off, c1), off + |c1|, c2) == Splice(a, off, c1 + c2)
  {
    var b := Splice(a, off, c1);
    assert b[..off + |c1|] == a[..off] + c1;
    assert b[off + |c1| + |c2|..] == a[off + |c1| + |c2|..];
  }

  /** Storing a chunk and then the chunk just before it gives the same
      buffer as storing them in the other order. */
  lemma SpliceBefore(a: seq<byte>, off: nat, c1: seq<byte>, c2: seq<byte>)
    requires off + |c1| + |c2| <= |a|
    ensures Splice(Splice(a, off + |c1|, c2), off, c1) == Splice(a, off, c1 + c2)
  {
    var b := Splice(a, off + |c1|, c2);
    assert b[..off] == a[..off];
    assert b[off + |c1|..] == c2 + a[off + |c1| + |c2|..];
    assert Splice(b, off, c1) == a[..off] + c1 + (c2 + a[off + |c1| + |c2|..]);
  }

  /** memcpy(buf + off, chunk, |chunk|). */
  method Store(buf: array<byte>, off: nat, chunk: seq<byte>)
    requires off + |chunk| <= buf.Length
    modifies buf
    ensures buf[..] == Splice(old(buf[..]), off, chunk)
  {
    ghost var before := buf[..];
    forall i | 0 <= i < |chunk| {
      buf[off + i] := chunk[i];
    }
    assert buf[..] == Splice(before, off, chunk) by {
      var s := Splice(before, off, chunk);
      forall i | 0 <= i < buf.Length
        ensures buf[i] == s[i]
      {
        if i < off {
          assert s[i] == s[..off][i];
        } else if i < off + |chunk| {
          assert s[i] == s[off..off + |chunk|][i - off];
        } else {
          assert s[i] == s[off + |chunk|..][i - off - |chunk|];
        }
      }
    }
  }
}

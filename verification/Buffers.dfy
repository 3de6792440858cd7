// Filling a preallocated byte buffer at an offset.
module Buffers {
  import opened Keys

  method CopyInto(buf: array<bv8>, off: nat, src: Bytes)
    requires off + |src| <= buf.Length
    modifies buf
    ensures buf[off..off + |src|] == src
    ensures buf[..off] == old(buf[..off]) && buf[off + |src|..] == old(buf[off + |src|..])
  {
    for i := 0 to |src|
      invariant forall k :: 0 <= k < i ==> buf[off + k] == src[k]
      invariant forall k :: 0 <= k < buf.Length && !(off <= k < off + i) ==> buf[k] == old(buf[k])
    {
      buf[off + i] := src[i];
    }
  }

  /** Writing right behind what is already written from off extends it. */
  method CopyPrefix(buf: array<bv8>, off: nat, at: nat, src: Bytes)
    requires off + at + |src| <= buf.Length
    modifies buf
    ensures buf[..off] == old(buf[..off])
    ensures buf[off..off + at + |src|] == old(buf[off..off + at]) + src
  {
    CopyInto(buf, off + at, src);
    assert buf[off..off + at + |src|] == buf[..off + at][off..] + buf[off + at..off + at + |src|];
    assert old(buf[off..off + at]) == old(buf[..off + at])[off..];
    assert buf[..off] == buf[..off + at][..off] && old(buf[..off]) == old(buf[..off + at])[..off];
  }
}

/** Copying bytes into buffers in place. */
module Buffers {
  import opened Words

  /** s with the bytes f written over it from position at. */
  function Patch(s: seq<Byte>, at: nat, f: seq<Byte>): (r: seq<Byte>)
    requires at + |f| <= |s|
    ensures |r| == |s|
  {
    s[..at] + f + s[at + |f|..]
  }

  /** memcpy into a buffer. */
  method Blit(dst: array<Byte>, at: nat, f: seq<Byte>)
    requires at + |f| <= dst.Length
    modifies dst
    ensures dst[..] == Patch(old(dst[..]), at, f)
  {
    var i := 0;
    while i < |f|
      invariant 0 <= i <= |f|
      invariant forall j :: 0 <= j < dst.Length ==> dst[j] == if at <= j < at + i then f[j - at] else old(dst[j])
    {
      dst[at + i] := f[i];
      i := i + 1;
    }
    assert dst[..] == Patch(old(dst[..]), at, f);
  }
}

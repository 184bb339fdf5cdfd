/** A file as a plain array of bytes with zero-filled gaps, and how the block-level
    effects of write and truncate look through it. */
module Ext2File {
  import opened Ext2Map
  import opened Ext2Tree
  import opened Ext2Growth

  function Zeros(n: nat): (r: seq<Byte>)
    ensures |r| == n
  {
    seq(n, _ => 0)
  }

  /** Extends with zeros to at least `n` bytes. */
  function Pad(c: seq<Byte>, n: nat): seq<Byte> {
    if n <= |c| then c else c + Zeros(n - |c|)
  }

  /** Writing `d` at `off`: a gap before it is filled with zeros. */
  function ArrayWrite(c: seq<Byte>, off: nat, d: seq<Byte>): seq<Byte> {
    if d == [] then c
    else
      var p := Pad(c, off + |d|);
      p[..off] + d + p[off + |d|..]
  }

  function ArrayResize(c: seq<Byte>, n: nat): seq<Byte> {
    if n <= |c| then c[..n] else Pad(c, n)
  }

  function ArrayRead(c: seq<Byte>, off: nat, len: nat): seq<Byte> {
    if off >= |c| then [] else if len < |c| - off then c[off..off + len] else c[off..]
  }

  /** The bytes of a file of `size` bytes. */
  ghost function ContentOf(g: Geo, s: Store, ino: nat, size: nat): (r: seq<Byte>)
    requires g.apb > 0
    ensures |r| == size && forall i :: 0 <= i < size ==> r[i] == FileByte(g, s, ino, i)
  {
    seq(size, i requires 0 <= i => FileByte(g, s, ino, i))
  }

  /** Bytes beyond the end of the file are zero in the blocks that hold them. */
  ghost predicate TailZero(g: Geo, s: Store, ino: nat, size: nat)
    requires g.apb > 0
  {
    forall x: nat :: x >= size ==> FileByte(g, s, ino, x) == 0
  }

  function SizeAfterWrite(size: nat, off: nat, n: nat): nat {
    if n > 0 && off + n > size then off + n else size
  }

  lemma ArrayWriteAt(c: seq<Byte>, off: nat, d: seq<Byte>, i: nat)
    ensures |ArrayWrite(c, off, d)| == SizeAfterWrite(|c|, off, |d|)
    ensures i < |ArrayWrite(c, off, d)| ==>
              ArrayWrite(c, off, d)[i] == if off <= i < off + |d| then d[i - off] else if i < |c| then c[i] else 0
  {
  }

  lemma WriteIsArrayWrite(g: Geo, s: Store, s': Store, size: nat, ino: nat, off: nat, d: seq<Byte>)
    requires g.apb > 0 && Written(g, s, s', ino, off, d) && TailZero(g, s, ino, size)
    ensures TailZero(g, s', ino, SizeAfterWrite(size, off, |d|))
    ensures ContentOf(g, s', ino, SizeAfterWrite(size, off, |d|)) == ArrayWrite(ContentOf(g, s, ino, size), off, d)
  {
    hide FileByte, ArrayWrite, ContentOf;
    var size' := SizeAfterWrite(size, off, |d|);
    var c, c' := ContentOf(g, s, ino, size), ContentOf(g, s', ino, size');
    ArrayWriteAt(c, off, d, 0);
    forall i: nat | i < size' ensures ArrayWrite(c, off, d)[i] == c'[i] {
      ArrayWriteAt(c, off, d, i);
    }
  }

  /** Bytes from `size` on become zero in one file, nothing else changes. */
  ghost predicate Chopped(g: Geo, s: Store, s': Store, ino: nat, size: nat)
    requires g.apb > 0
  {
    forall ino': nat, x: nat :: FileByte(g, s', ino', x) == if ino' == ino && x >= size then 0 else FileByte(g, s, ino', x)
  }

  lemma ResizeIsArrayResize(g: Geo, s: Store, s': Store, ino: nat, size: nat, size': nat)
    requires g.apb > 0 && TailZero(g, s, ino, size)
    requires if size' < size then Chopped(g, s, s', ino, size') else s' == s
    ensures TailZero(g, s', ino, size')
    ensures ContentOf(g, s', ino, size') == ArrayResize(ContentOf(g, s, ino, size), size')
  {
    hide FileByte;
  }

  lemma OtherFileKept(g: Geo, s: Store, s': Store, ino: nat, size: nat)
    requires g.apb > 0 && forall x: nat :: FileByte(g, s', ino, x) == FileByte(g, s, ino, x)
    ensures ContentOf(g, s', ino, size) == ContentOf(g, s, ino, size)
    ensures TailZero(g, s, ino, size) ==> TailZero(g, s', ino, size)
  {
    hide FileByte;
  }

  lemma ReadPrefix(g: Geo, s: Store, ino: nat, size: nat, off: nat, len: nat, data: seq<Byte>)
    requires g.apb > 0 && Matches(g, s, ino, off, data) && |data| <= |ArrayRead(ContentOf(g, s, ino, size), off, len)|
    ensures data <= ArrayRead(ContentOf(g, s, ino, size), off, len)
  {
    hide FileByte;
  }

  /** Growing after shrinking reads zeros, and a read returns what was last written. */
  lemma ArrayLaws(c: seq<Byte>, n: nat, m: nat, off: nat, d: seq<Byte>)
    ensures n <= |c| && n <= m ==> ArrayResize(ArrayResize(c, n), m) == c[..n] + Zeros(m - n)
    ensures ArrayRead(ArrayWrite(c, off, d), off, |d|) == d
    ensures off > |c| && d != [] ==> ArrayWrite(c, off, d) == c + Zeros(off - |c|) + d
  {
    if d != [] {
      var w := ArrayWrite(c, off, d);
      assert w[off..off + |d|] == d;
    }
  }

  /** ceil(size / block): the number of blocks that stay. */
  function KeepBlocks(g: Geo, size: nat): nat
    requires g.apb > 0
  {
    Quot(size + g.BlockSize() - 1, g.BlockSize())
  }

  lemma CeilDiv(n: nat, d: nat)
    requires d > 0
    ensures (n + d - 1) / d == n / d + if n % d == 0 then 0 else 1
  {
    var q, r := n / d, n % d;
    assert n == q * d + r;
    if r == 0 {
      DivUnique(n + d - 1, d, q, d - 1);
    } else {
      assert (q + 1) * d == q * d + d;
      DivUnique(n + d - 1, d, q + 1, r - 1);
    }
  }

  /** A position lies beyond `size` just when its block is cut off or it lies in the rest of
      the last, partial block. */
  lemma BeyondSize(g: Geo, size: nat, x: nat)
    requires g.apb > 0
    ensures var tail := BlockOffset(g, size);
            x >= size <==> BlockIndex(g, x) >= KeepBlocks(g, size) || (tail > 0 && size <= x < size + (g.BlockSize() - tail))
  {
    CeilDiv(size, g.BlockSize());
    DivMod(size, g.BlockSize());
    DivMod(x, g.BlockSize());
    PositionOrder(g.BlockSize(), size, x, BlockIndex(g, size), BlockOffset(g, size), BlockIndex(g, x), BlockOffset(g, x),
                  KeepBlocks(g, size));
  }

  lemma PositionOrder(d: nat, size: nat, x: nat, q: nat, r: nat, q': nat, r': nat, keep: nat)
    requires r < d && r' < d && size == q * d + r && x == q' * d + r' && keep == q + if r == 0 then 0 else 1
    ensures x >= size <==> q' >= keep || (r > 0 && size <= x < size + (d - r))
  {
    if q < q' {
      MulNext(q, q', d);
    } else if q' < q {
      MulNext(q', q, d);
    }
  }

  /** Cut blocks plus a zeroed tail make a file that is zero from `size` on. */
  lemma ChoppedFrom(g: Geo, s: Store, s1: Store, s2: Store, ino: nat, size: nat)
    requires g.apb > 0
    requires forall ino': nat, x: nat :: FileByte(g, s1, ino', x) ==
               if ino' == ino && BlockIndex(g, x) >= KeepBlocks(g, size) then 0 else FileByte(g, s, ino', x)
    requires var tail := BlockOffset(g, size);
             if tail == 0 then s2 == s1 else Written(g, s1, s2, ino, size, Zeros(g.BlockSize() - tail))
    ensures Chopped(g, s, s2, ino, size)
  {
    hide FileByte, BlockIndex, BlockOffset, KeepBlocks;
    forall ino': nat, x: nat
      ensures FileByte(g, s2, ino', x) == if ino' == ino && x >= size then 0 else FileByte(g, s, ino', x)
    {
      BeyondSize(g, size, x);
    }
  }
}

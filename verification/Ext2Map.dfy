/** The block tree of an ext2 inode (kernel/fs/ext2.c:540-573, 747-784): file block
    numbers, the index path to each, and what a path holds on disk.

    A location is a sequence [ino, slot, i1, i2, ...]: slot `slot` of i_block[15] of
    inode `ino`, then the pointer index in each index block below it. */
module Ext2Map {

  type Byte = x: int | 0 <= x < 256
  type Block = seq<Byte>
  type Loc = seq<nat>

  const NDIR: nat := 12
  const IND: nat := 12
  const DIND: nat := 13
  const TIND: nat := 14
  const NSLOTS: nat := 15

  /** addr_per_block and the block size it comes from. */
  datatype Geo = Geo(apb: nat) {
    function BlockSize(): nat { 4 * apb }
  }

  /** How many pointers are followed from the inode: 1 for a direct slot. */
  function Depth(slot: nat): nat {
    if slot < NDIR then 1 else slot - 10
  }

  predicate ValidLoc(g: Geo, p: Loc) {
    && 2 <= |p| <= 5 && p[1] < NSLOTS && |p| <= Depth(p[1]) + 1
    && (forall i :: 2 <= i < |p| ==> p[i] < g.apb)
  }

  /** Index levels below a location; 0 for a data block. */
  function Height(p: Loc): nat
    requires 2 <= |p| <= Depth(p[1]) + 1
  {
    Depth(p[1]) + 1 - |p|
  }

  /** File blocks covered by a tree of height `h`. */
  function Span(g: Geo, h: nat): nat {
    if h == 0 then 1 else g.apb * Span(g, h - 1)
  }

  function SlotBase(g: Geo, slot: nat): nat {
    if slot <= IND then slot
    else if slot == DIND then NDIR + g.apb
    else NDIR + g.apb + g.apb * g.apb
  }

  function Parent(p: Loc): Loc
    requires |p| > 0
  {
    p[..|p| - 1]
  }

  /** The first file block covered by a location: the `base` argument of trunc_tree. */
  function Base(g: Geo, p: Loc): nat
    requires 2 <= |p| <= Depth(p[1]) + 1
    decreases |p|
  {
    if |p| == 2 then SlotBase(g, p[1]) else Base(g, Parent(p)) + p[|p| - 1] * Span(g, Height(p))
  }

  /** block_path: the location of file block `f`; [] when the file cannot be that large. */
  function BlockPath(g: Geo, ino: nat, f: nat): Loc
    requires g.apb > 0
  {
    var apb := g.apb;
    if f < NDIR then [ino, f]
    else
      var f1 := f - NDIR;
      if f1 < apb then [ino, IND, f1]
      else
        var f2 := f1 - apb;
        if f2 < apb * apb then [ino, DIND, f2 / apb, f2 % apb]
        else
          var f3 := f2 - apb * apb;
          if f3 < apb * apb * apb then [ino, TIND, f3 / (apb * apb), f3 / apb % apb, f3 % apb]
          else []
  }

  /** Number of addressable file blocks. */
  function MaxBlocks(g: Geo): nat {
    NDIR + g.apb + g.apb * g.apb + g.apb * g.apb * g.apb
  }

  function Quot(x: nat, d: nat): nat
    requires d > 0
  {
    x / d
  }

  function Rem(x: nat, d: nat): (r: nat)
    requires d > 0
    ensures r < d
  {
    x % d
  }

  lemma SpanSmall(g: Geo)
    ensures Span(g, 0) == 1 && Span(g, 1) == g.apb && Span(g, 2) == g.apb * g.apb
  {
  }

  lemma MulMono(a: nat, b: nat, c: nat)
    requires a <= b
    ensures a * c <= b * c
  {
  }

  lemma MulNext(a: nat, b: nat, c: nat)
    requires a < b
    ensures a * c + c <= b * c
  {
    MulMono(a + 1, b, c);
    assert (a + 1) * c == a * c + c;
  }

  lemma DivUnique(x: nat, d: nat, q: nat, r: nat)
    requires d > 0 && r < d && x == q * d + r
    ensures x / d == q && x % d == r
  {
    var q' := x / d;
    assert x == q' * d + x % d;
    if q' < q {
      MulNext(q', q, d);
    } else if q < q' {
      MulNext(q, q', d);
    }
  }

  lemma DivBound(x: nat, a: nat, b: nat)
    requires a > 0 && x < a * b
    ensures x / a < b && x == x / a * a + x % a
  {
    assert x == x / a * a + x % a;
    if b <= x / a {
      MulMono(b, x / a, a);
    }
  }

  lemma MulAssoc(x: nat, a: nat)
    ensures x * (a * a) == x * a * a
  {
  }

  /** (x * a + y) * a + z, regrouped. */
  lemma Regroup(x: nat, y: nat, z: nat, a: nat, d: nat, m: nat)
    requires d == a * a && m == x * a + y
    ensures m * a + z == x * d + (y * a + z)
  {
    assert m * a == x * a * a + y * a;
    MulAssoc(x, a);
  }

  /** f3 / (apb * apb) is the leading digit of f3 in base apb. */
  lemma TwoDigits(x: nat, a: nat)
    requires a > 0
    ensures a * a > 0 && x / (a * a) == x / a / a
    ensures x == x / a / a * (a * a) + x / a % a * a + x % a
  {
    var q, z, d := x / a, x % a, a * a;
    assert x == q * a + z;
    var h, y := q / a, q % a;
    assert q == h * a + y;
    Regroup(h, y, z, a, d, q);
    Below(y, z, a, d);
    DivUnique(x, d, h, y * a + z);
  }

  lemma Below(y: nat, z: nat, a: nat, d: nat)
    requires y < a && z < a && d == a * a
    ensures y * a + z < d
  {
    MulNext(y, a, a);
  }

  /** block_path yields a full-depth location whose base is the file block, and
      fails just outside the addressable range. */
  lemma PathHasBase(g: Geo, ino: nat, f: nat)
    requires g.apb > 0
    ensures BlockPath(g, ino, f) == [] <==> f >= MaxBlocks(g)
    ensures f < MaxBlocks(g) ==>
              var p := BlockPath(g, ino, f);
              ValidLoc(g, p) && Height(p) == 0 && p[0] == ino && Base(g, p) == f
  {
    var a := g.apb;
    SpanSmall(g);
    if NDIR <= f < NDIR + a {
      var p := BlockPath(g, ino, f);
      assert Parent(p) == [ino, IND];
    } else if NDIR + a <= f < NDIR + a + a * a {
      var p := BlockPath(g, ino, f);
      DivBound(f - NDIR - a, a, a);
      BaseThree(g, p);
    } else if NDIR + a + a * a <= f < MaxBlocks(g) {
      var x := f - NDIR - a - a * a;
      var p := BlockPath(g, ino, f);
      TwoDigits(x, a);
      assert a * a * a == a * (a * a);
      DivBound(x, a * a, a);
      BaseFour(g, p);
    }
  }

  lemma BaseThree(g: Geo, p: Loc)
    requires |p| == 4 && p[1] == DIND
    ensures Base(g, p) == NDIR + g.apb + p[2] * g.apb + p[3]
  {
    SpanSmall(g);
    var q, r := p[..3], p[..2];
    assert Parent(p) == q && Parent(q) == r;
    assert Base(g, q) == Base(g, r) + p[2] * Span(g, 1);
    assert Base(g, p) == Base(g, q) + p[3] * Span(g, 0);
  }

  lemma BaseFour(g: Geo, p: Loc)
    requires |p| == 5 && p[1] == TIND
    ensures Base(g, p) == NDIR + g.apb + g.apb * g.apb + p[2] * (g.apb * g.apb) + p[3] * g.apb + p[4]
  {
    SpanSmall(g);
    var q, r, s := p[..4], p[..3], p[..2];
    assert Parent(p) == q && Parent(q) == r && Parent(r) == s;
    assert Base(g, r) == Base(g, s) + p[2] * Span(g, 2);
    assert Base(g, q) == Base(g, r) + p[3] * Span(g, 1);
    assert Base(g, p) == Base(g, q) + p[4] * Span(g, 0);
  }

  /** The converse: every full-depth location is the path of its base. */
  lemma BaseHasPath(g: Geo, p: Loc)
    requires g.apb > 0 && ValidLoc(g, p) && Height(p) == 0
    ensures Base(g, p) < MaxBlocks(g) && BlockPath(g, p[0], Base(g, p)) == p
  {
    if p[1] < NDIR {
      assert p == [p[0], p[1]];
    } else if p[1] == IND {
      SpanSmall(g);
      assert Parent(p) == p[..2];
      assert p == [p[0], p[1], p[2]];
    } else if p[1] == DIND {
      DoublePath(g, p);
    } else {
      TriplePath(g, p);
    }
  }

  lemma DoublePath(g: Geo, p: Loc)
    requires g.apb > 0 && ValidLoc(g, p) && Height(p) == 0 && p[1] == DIND
    ensures Base(g, p) < MaxBlocks(g) && BlockPath(g, p[0], Base(g, p)) == p
  {
    var a := g.apb;
    BaseThree(g, p);
    hide Base, Span;
    MulNext(p[2], a, a);
    DivUnique(p[2] * a + p[3], a, p[2], p[3]);
    assert p == [p[0], p[1], p[2], p[3]];
  }

  lemma TriplePath(g: Geo, p: Loc)
    requires g.apb > 0 && ValidLoc(g, p) && Height(p) == 0 && p[1] == TIND
    ensures Base(g, p) < MaxBlocks(g) && BlockPath(g, p[0], Base(g, p)) == p
  {
    BaseFour(g, p);
    ThreeDigits(g.apb, p[2], p[3], p[4]);
    assert p == [p[0], p[1], p[2], p[3], p[4]];
    hide Base, Span;
    PathOfTriple(g, p[0], Base(g, p), p[2], p[3], p[4]);
  }

  lemma PathOfTriple(g: Geo, ino: nat, f: nat, x: nat, y: nat, z: nat)
    requires g.apb > 0
    requires var n := x * (g.apb * g.apb) + y * g.apb + z;
             && f == NDIR + g.apb + g.apb * g.apb + n && n < g.apb * g.apb * g.apb && g.apb * g.apb > 0
             && n / (g.apb * g.apb) == x && n / g.apb % g.apb == y && n % g.apb == z
    ensures BlockPath(g, ino, f) == [ino, TIND, x, y, z]
  {
  }

  lemma ThreeDigits(a: nat, x: nat, y: nat, z: nat)
    requires x < a && y < a && z < a
    ensures var n := x * (a * a) + y * a + z;
            && n < a * a * a && a * a > 0
            && n / (a * a) == x && n / a % a == y && n % a == z
  {
    var d, m := a * a, x * a + y;
    var n := x * d + (y * a + z);
    Below(y, z, a, d);
    TopDigit(a, d, x, y * a + z);
    DivUnique(n, d, x, y * a + z);
    Regroup(x, y, z, a, d, m);
    DivUnique(n, a, m, z);
    DivUnique(m, a, x, y);
  }

  lemma TopDigit(a: nat, d: nat, x: nat, r: nat)
    requires x < a && d == a * a && r < d
    ensures x * d + r < a * a * a
  {
    MulNext(x, a, d);
    MulAssoc(a, a);
  }

  // ---- A subtree covers the interval [Base, Base + Span) ----

  lemma {:induction false} Covers(g: Geo, p: Loc, q: Loc)
    requires ValidLoc(g, p) && ValidLoc(g, q) && p <= q
    ensures Base(g, p) <= Base(g, q)
    ensures Base(g, q) + Span(g, Height(q)) <= Base(g, p) + Span(g, Height(p))
    decreases |q|
  {
    if |p| == |q| {
      assert p == q;
    } else {
      var r := Parent(q);
      assert ValidLoc(g, r) && p <= r;
      Covers(g, p, r);
      var k, s := q[|q| - 1], Span(g, Height(q));
      assert Height(r) == Height(q) + 1 && Span(g, Height(r)) == g.apb * s;
      MulNext(k, g.apb, s);
      assert Base(g, q) == Base(g, r) + k * s;
    }
  }

  // ---- File blocks are in the order of their paths ----

  /** `p` comes before `q`: at the first place where they differ its number is smaller. */
  ghost predicate Earlier(p: Loc, q: Loc) {
    exists i: nat :: DifferAt(p, q, i) && p[i] < q[i]
  }

  ghost predicate DifferAt(p: Loc, q: Loc, i: nat) {
    i < |p| && i < |q| && p[..i] == q[..i] && p[i] != q[i]
  }

  lemma SlotOrder(g: Geo, s: nat, t: nat)
    requires s < t < NSLOTS
    ensures SlotBase(g, s) + Span(g, Depth(s) - 1) <= SlotBase(g, t)
  {
    SpanSmall(g);
    if s == DIND {
      assert t == TIND;
    }
  }

  lemma EarlierBase(g: Geo, p: Loc, q: Loc, i: nat)
    requires ValidLoc(g, p) && ValidLoc(g, q) && Height(p) == 0 && Height(q) == 0 && i > 0 && DifferAt(p, q, i) && p[i] < q[i]
    ensures Base(g, p) < Base(g, q)
  {
    hide Span, SlotBase;
    var r, t := p[..i + 1], q[..i + 1];
    assert p[1] == if i == 1 then p[i] else p[..i][1];
    assert q[1] == if i == 1 then q[i] else q[..i][1];
    Covers(g, r, p);
    Covers(g, t, q);
    SpanSmall(g);
    if i == 1 {
      SlotOrder(g, p[1], q[1]);
    } else {
      assert Parent(r) == p[..i] && Parent(t) == q[..i];
      MulNext(p[i], q[i], Span(g, Height(r)));
    }
  }

  lemma {:induction false} FirstDiffer(p: Loc, q: Loc, n: nat) returns (i: nat)
    requires n <= |p| && n <= |q| && p[..n] == q[..n] && !(p <= q) && !(q <= p)
    ensures n <= i && DifferAt(p, q, i)
    decreases |p| - n
  {
    if p[n] != q[n] {
      return n;
    }
    i := FirstDiffer(p, q, n + 1);
  }

  /** A later file block has a later path: the direct slots first, then below the indirect slot, the
      double and the triple one, pointers in ascending order at every level. */
  lemma PathOrder(g: Geo, ino: nat, f: nat, h: nat)
    requires g.apb > 0 && f < h < MaxBlocks(g)
    ensures Earlier(BlockPath(g, ino, f), BlockPath(g, ino, h))
  {
    hide BlockPath, Base, MaxBlocks;
    PathHasBase(g, ino, f);
    PathHasBase(g, ino, h);
    var p, q := BlockPath(g, ino, f), BlockPath(g, ino, h);
    NotPrefix(g, p, q);
    NotPrefix(g, q, p);
    var i := FirstDiffer(p, q, 1);
    if q[i] < p[i] {
      EarlierBase(g, q, p, i);
    }
  }

  lemma NotPrefix(g: Geo, p: Loc, q: Loc)
    requires ValidLoc(g, p) && ValidLoc(g, q) && Height(p) == 0 && Height(q) == 0 && p != q
    ensures !(p <= q)
  {
  }

  // ---- Pointers in an index block ----

  function Ptr(b: Block, i: nat): nat
    requires 4 * i + 3 < |b|
  {
    b[4 * i] as int + 0x100 * b[4 * i + 1] as int + 0x1_0000 * b[4 * i + 2] as int + 0x100_0000 * b[4 * i + 3] as int
  }

  function WithPtr(b: Block, i: nat, v: nat): (r: Block)
    requires 4 * i + 3 < |b| && v < 0x1_0000_0000
    ensures |r| == |b|
  {
    b[4 * i := v % 0x100][4 * i + 1 := v / 0x100 % 0x100][4 * i + 2 := v / 0x1_0000 % 0x100][4 * i + 3 := v / 0x100_0000]
  }

  /** Writing one 32-bit little-endian pointer changes that pointer and no other. */
  lemma PtrRoundTrip(b: Block, i: nat, v: nat, j: nat)
    requires 4 * i + 3 < |b| && 4 * j + 3 < |b| && v < 0x1_0000_0000
    ensures Ptr(WithPtr(b, i, v), j) == if i == j then v else Ptr(b, j)
  {
    if i == j {
      var w := v / 0x100;
      assert v / 0x1_0000 == w / 0x100 && v / 0x100_0000 == w / 0x100 / 0x100;
    }
  }

  /** Where the bytes of a pointer lie: the lowest one first. */
  lemma PtrBytes(b: Block, i: nat, v: nat)
    requires 4 * i + 3 < |b| && v < 0x1_0000_0000
    ensures var n := Ptr(b, i);
            n < 0x1_0000_0000 && n % 0x100 == b[4 * i] && n / 0x100 % 0x100 == b[4 * i + 1]
            && n / 0x1_0000 % 0x100 == b[4 * i + 2] && n / 0x100_0000 == b[4 * i + 3]
    ensures var w := WithPtr(b, i, v);
            w[4 * i] == v % 0x100 && w[4 * i + 1] == v / 0x100 % 0x100 && w[4 * i + 2] == v / 0x1_0000 % 0x100 && w[4 * i + 3] == v / 0x100_0000
    ensures forall k :: 0 <= k < |b| && !(4 * i <= k < 4 * i + 4) ==> WithPtr(b, i, v)[k] == b[k]
  {
    var a: int, c: int, d: int, e: int := b[4 * i], b[4 * i + 1], b[4 * i + 2], b[4 * i + 3];
    var n := Ptr(b, i);
    assert n == a + 0x100 * (c + 0x100 * (d + 0x100 * e));
    assert n / 0x100 == c + 0x100 * (d + 0x100 * e);
    assert n / 0x1_0000 == d + 0x100 * e;
  }

  function ZeroBlock(g: Geo): Block {
    seq(g.BlockSize(), _ => 0)
  }
}

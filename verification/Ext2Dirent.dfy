/** The bytes of one ext2 directory block (kernel/fs/ext2.c:844-975): linked records that tile it,
    and what splitting, filling and swallowing a record do to the list of records. */
module Ext2Dirent {
  import opened Ext2Map

  type Name = seq<Byte>

  /** The names `.` and `..` in ASCII, and the file type of a directory. */
  const Dot: Name := [46]
  const DotDot: Name := [46, 46]
  const FtDir: Byte := 2

  /** A record as read: `len` is rec_len, the whole room it owns; inode 0 marks a free record. */
  datatype Rec = Rec(ino: nat, len: nat, name: Name, ft: Byte)

  /** Room that a name needs: an 8-byte header and the name, rounded up to 4. */
  function RecSize(n: nat): (r: nat)
    ensures 8 + n <= r < 12 + n && r % 4 == 0
  {
    (8 + n + 3) / 4 * 4
  }

  function Le16(b: Block, o: nat): (r: nat)
    requires o + 2 <= |b|
    ensures r < 0x1_0000
  {
    var lo: int := b[o];
    var hi: int := b[o + 1];
    lo + 0x100 * hi
  }

  function Le32(b: Block, o: nat): (r: nat)
    requires o + 4 <= |b|
    ensures r < 0x1_0000_0000
  {
    Le16(b, o) + 0x1_0000 * Le16(b, o + 2)
  }

  function RecLen(b: Block, o: nat): (r: nat)
    requires o + 8 <= |b|
  {
    Le16(b, o + 4)
  }

  function NameLen(b: Block, o: nat): (r: nat)
    requires o + 8 <= |b|
  {
    b[o + 6]
  }

  /** dirent_ok: a record that may be followed. */
  predicate RecOk(b: Block, o: nat) {
    o + 8 <= |b| && RecLen(b, o) >= 8 && RecLen(b, o) % 4 == 0 && o + RecLen(b, o) <= |b| && RecSize(NameLen(b, o)) <= RecLen(b, o)
  }

  function RecAt(b: Block, o: nat): (r: Rec)
    requires RecOk(b, o)
    ensures r.len == RecLen(b, o) >= RecSize(|r.name|) && r.len % 4 == 0 && |r.name| < 256 && r.ino < 0x1_0000_0000
  {
    Rec(Le32(b, o), RecLen(b, o), b[o + 8..o + 8 + NameLen(b, o)], b[o + 7])
  }

  function Next(b: Block, o: nat): (r: nat)
    requires RecOk(b, o)
    ensures o + 8 <= r <= |b| && r == o + RecAt(b, o).len
  {
    o + RecLen(b, o)
  }

  /** From offset `o` to its end the block is exactly tiled by valid records. */
  ghost predicate Tiled(b: Block, o: nat)
    decreases |b| - o
  {
    o <= |b| && (o == |b| || (RecOk(b, o) && Tiled(b, Next(b, o))))
  }

  /** The records that a walk from offset `o` meets; it stops at the end or at a damaged record. */
  ghost function Recs(b: Block, o: nat): (r: seq<Rec>)
    decreases |b| - o
  {
    if o < |b| && RecOk(b, o) then [RecAt(b, o)] + Recs(b, Next(b, o)) else []
  }

  // ---- Writing ----

  function Write(b: Block, o: nat, d: seq<Byte>): (r: Block)
    requires o + |d| <= |b|
    ensures |r| == |b|
  {
    b[..o] + d + b[o + |d|..]
  }

  function Put16(v: nat): (r: seq<Byte>)
    requires v < 0x1_0000
    ensures |r| == 2
  {
    [v % 0x100, v / 0x100]
  }

  function Put32(v: nat): (r: seq<Byte>)
    requires v < 0x1_0000_0000
    ensures |r| == 4
  {
    Put16(v % 0x1_0000) + Put16(v / 0x1_0000)
  }

  predicate Storable(r: Rec) {
    r.ino < 0x1_0000_0000 && r.len < 0x1_0000 && |r.name| < 256 && r.len % 4 == 0 && RecSize(|r.name|) <= r.len
  }

  /** The bytes of a record, without the room after its name. */
  function Pack(r: Rec): (d: seq<Byte>)
    requires Storable(r)
    ensures |d| == 8 + |r.name|
  {
    Put32(r.ino) + Put16(r.len) + [|r.name|, r.ft] + r.name
  }

  lemma Put16Read(v: nat, b: Block, o: nat)
    requires v < 0x1_0000 && o + 2 <= |b| && b[o..o + 2] == Put16(v)
    ensures Le16(b, o) == v
  {
    assert b[o] == b[o..o + 2][0] && b[o + 1] == b[o..o + 2][1];
  }

  lemma Put32Read(v: nat, b: Block, o: nat)
    requires v < 0x1_0000_0000 && o + 4 <= |b| && b[o..o + 4] == Put32(v)
    ensures Le32(b, o) == v
  {
    var s := b[o..o + 4];
    assert b[o..o + 2] == s[..2] && b[o + 2..o + 4] == s[2..];
    Put16Read(v % 0x1_0000, b, o);
    Put16Read(v / 0x1_0000, b, o + 2);
  }

  /** What is packed at an offset is what is read there. */
  lemma PackRead(r: Rec, b: Block, o: nat)
    requires Storable(r) && o + r.len <= |b| && b[o..o + 8 + |r.name|] == Pack(r)
    ensures RecOk(b, o) && RecAt(b, o) == r
  {
    hide RecSize, Put16, Put32, Le16, Le32;
    var s := b[o..o + 8 + |r.name|];
    assert s[..4] == Put32(r.ino) && s[4..6] == Put16(r.len) && s[6] == |r.name| && s[7] == r.ft && s[8..] == r.name;
    assert forall i :: 0 <= i < |s| ==> s[i] == b[o + i];
    assert b[o..o + 4] == s[..4];
    var p := o + 4;
    assert b[p..p + 2] == s[4..6];
    assert b[o + 6] == s[6] && b[o + 7] == s[7];
    Put32Read(r.ino, b, o);
    Put16Read(r.len, b, p);
    assert b[o + 8..o + 8 + |r.name|] == s[8..];
  }

  /** Where the bytes of a header lie: the inode in four and the length in two, lowest byte first, then
      the length of the name and the file type, then the name. */
  lemma HeaderRead(b: Block, o: nat)
    requires RecOk(b, o)
    ensures var r := RecAt(b, o);
            && r.ino % 0x100 == b[o] && r.ino / 0x100 % 0x100 == b[o + 1] && r.ino / 0x1_0000 % 0x100 == b[o + 2] && r.ino / 0x100_0000 == b[o + 3]
            && r.len % 0x100 == b[o + 4] && r.len / 0x100 == b[o + 5]
            && |r.name| == b[o + 6] && r.ft == b[o + 7] && forall k :: 0 <= k < |r.name| ==> r.name[k] == b[o + 8 + k]
  {
    hide RecSize;
    Le32Bytes(b, o);
    Le16Bytes(b, o + 4);
  }

  lemma Le16Bytes(b: Block, o: nat)
    requires o + 2 <= |b|
    ensures Le16(b, o) % 0x100 == b[o] && Le16(b, o) / 0x100 == b[o + 1]
  {
  }

  lemma Le32Bytes(b: Block, o: nat)
    requires o + 4 <= |b|
    ensures var n := Le32(b, o);
            n % 0x100 == b[o] && n / 0x100 % 0x100 == b[o + 1] && n / 0x1_0000 % 0x100 == b[o + 2] && n / 0x100_0000 == b[o + 3]
  {
    Le16Bytes(b, o);
    Le16Bytes(b, o + 2);
    var lo, hi := Le16(b, o), Le16(b, o + 2);
    assert Le32(b, o) == lo + 0x1_0000 * hi;
    assert Le32(b, o) / 0x1_0000 == hi && Le32(b, o) % 0x1_0000 == lo;
  }

  lemma HeaderWritten(r: Rec)
    requires Storable(r)
    ensures var d := Pack(r);
            && d[0] == r.ino % 0x100 && d[1] == r.ino / 0x100 % 0x100 && d[2] == r.ino / 0x1_0000 % 0x100 && d[3] == r.ino / 0x100_0000
            && d[4] == r.len % 0x100 && d[5] == r.len / 0x100
            && d[6] == |r.name| && d[7] == r.ft && d[8..] == r.name
  {
    assert r.ino % 0x1_0000 % 0x100 == r.ino % 0x100 && r.ino % 0x1_0000 / 0x100 == r.ino / 0x100 % 0x100;
  }

  // ---- A record depends on its own bytes only ----

  lemma SameRec(b: Block, c: Block, o: nat, x: nat)
    requires RecOk(b, o) && Next(b, o) <= x <= |c| && x <= |b| && b[..x] == c[..x]
    ensures RecOk(c, o) && RecAt(c, o) == RecAt(b, o)
  {
    hide RecSize;
    assert forall i :: 0 <= i < x ==> b[i] == b[..x][i] && c[i] == c[..x][i];
  }

  lemma SameRecTail(b: Block, c: Block, o: nat)
    requires RecOk(b, o) && |b| == |c| && b[o..] == c[o..]
    ensures RecOk(c, o) && RecAt(c, o) == RecAt(b, o)
  {
    hide RecSize;
    assert forall i :: o <= i < |b| ==> b[i] == b[o..][i - o] && c[i] == c[o..][i - o];
    assert b[o + 8..o + 8 + NameLen(b, o)] == c[o + 8..o + 8 + NameLen(b, o)];
  }

  /** Equal tails hold equal records. */
  lemma {:induction false} SameTail(b: Block, c: Block, o: nat)
    requires Tiled(b, o) && |b| == |c| && b[o..] == c[o..]
    ensures Tiled(c, o) && Recs(c, o) == Recs(b, o)
    decreases |b| - o
  {
    hide RecOk, RecAt, Next, RecSize;
    if o < |b| {
      var n := Next(b, o);
      SameRecTail(b, c, o);
      assert b[n..] == b[o..][n - o..] && c[n..] == c[o..][n - o..];
      SameTail(b, c, n);
    }
  }

  // ---- Replacing the records from one offset on ----

  /** `x` is met on the walk from `o`. */
  ghost predicate Start(b: Block, o: nat, x: nat)
    decreases |b| - o
  {
    o == x || (RecOk(b, o) && Start(b, Next(b, o), x))
  }

  /** The records from `o` up to `x`. */
  ghost function Before(b: Block, o: nat, x: nat): (r: seq<Rec>)
    requires Start(b, o, x)
    decreases |b| - o
  {
    if o == x then [] else [RecAt(b, o)] + Before(b, Next(b, o), x)
  }

  lemma {:induction false} StartRecs(b: Block, o: nat, x: nat)
    requires Start(b, o, x)
    ensures o <= x && Recs(b, o) == Before(b, o, x) + Recs(b, x)
    decreases |b| - o
  {
    hide RecOk, RecAt, Next, RecSize;
    if o != x {
      var n := Next(b, o);
      StartRecs(b, n, x);
      assert Recs(b, o) == [RecAt(b, o)] + Recs(b, n);
      assert Before(b, o, x) == [RecAt(b, o)] + Before(b, n, x);
    }
  }

  lemma {:induction false} StartTiled(b: Block, o: nat, x: nat)
    requires Tiled(b, o) && Start(b, o, x)
    ensures o <= x <= |b| && Tiled(b, x) && Recs(b, o) == Before(b, o, x) + Recs(b, x)
    decreases |b| - o
  {
    hide RecOk, RecAt, Next, RecSize;
    if o != x {
      var n := Next(b, o);
      StartTiled(b, n, x);
      assert Recs(b, o) == [RecAt(b, o)] + Recs(b, n);
      assert Before(b, o, x) == [RecAt(b, o)] + Before(b, n, x);
    }
  }

  lemma {:induction false} StartNext(b: Block, o: nat, x: nat)
    requires Start(b, o, x) && RecOk(b, x)
    ensures Start(b, o, Next(b, x)) && Before(b, o, Next(b, x)) == Before(b, o, x) + [RecAt(b, x)]
    decreases |b| - o
  {
    hide RecOk, RecAt, Next, RecSize;
    var n := Next(b, x);
    if o != x {
      var m := Next(b, o);
      StartRecs(b, m, x);
      StartNext(b, m, x);
      assert Before(b, o, n) == [RecAt(b, o)] + Before(b, m, n);
    } else {
      assert Start(b, n, n);
    }
  }

  /** A change at or after `x` that leaves the rest tiled leaves the block tiled. */
  lemma {:induction false} Replaced(b: Block, c: Block, o: nat, x: nat)
    requires Tiled(b, o) && Start(b, o, x) && x <= |b| == |c| && b[..x] == c[..x] && Tiled(c, x)
    ensures Tiled(c, o) && Recs(c, o) == Before(b, o, x) + Recs(c, x)
    decreases |b| - o
  {
    hide RecOk, RecAt, Next, RecSize;
    if o != x {
      var n := Next(b, o);
      StartTiled(b, n, x);
      SameRec(b, c, o, x);
      Replaced(b, c, n, x);
      assert Next(c, o) == n;
      assert Recs(c, o) == [RecAt(b, o)] + Recs(c, n);
      assert Before(b, o, x) == [RecAt(b, o)] + Before(b, n, x);
    }
  }

  // ---- The three changes ----

  /** Writing leaves the bytes around it alone. */
  lemma WriteAround(b: Block, o: nat, d: seq<Byte>, x: nat)
    requires o + |d| <= |b|
    ensures x <= o ==> Write(b, o, d)[..x] == b[..x]
    ensures o + |d| <= x <= |b| ==> Write(b, o, d)[x..] == b[x..]
    ensures Write(b, o, d)[o..o + |d|] == d
  {
  }

  lemma SetLen(b: Block, x: nat, v: nat)
    requires RecOk(b, x) && v < 0x1_0000 && v % 4 == 0 && RecSize(NameLen(b, x)) <= v && x + v <= |b|
    ensures var c := Write(b, x + 4, Put16(v)); RecOk(c, x) && RecAt(c, x) == RecAt(b, x).(len := v)
  {
    hide RecSize, Put16;
    var p := x + 4;
    var c := Write(b, p, Put16(v));
    Put16Read(v, c, p);
    assert forall i :: 0 <= i < |b| && (i < p || p + 2 <= i) ==> c[i] == b[i];
    assert c[x + 8..x + 8 + NameLen(b, x)] == b[x + 8..x + 8 + NameLen(b, x)];
  }

  lemma SetIno(b: Block, x: nat, v: nat)
    requires RecOk(b, x) && v < 0x1_0000_0000
    ensures var c := Write(b, x, Put32(v)); RecOk(c, x) && RecAt(c, x) == RecAt(b, x).(ino := v)
  {
    hide RecSize, Put32;
    var c := Write(b, x, Put32(v));
    Put32Read(v, c, x);
    assert forall i :: 0 <= i < |b| && (i < x || x + 4 <= i) ==> c[i] == b[i];
    assert c[x + 8..x + 8 + NameLen(b, x)] == b[x + 8..x + 8 + NameLen(b, x)];
  }

  /** add_visit on a record in use: it keeps what its name needs, the new record gets the rest. */
  function Split(b: Block, x: nat, ino: nat, name: Name, ft: Byte): (r: Block)
    requires RecOk(b, x) && Roomy(RecAt(b, x), name) && RecAt(b, x).ino != 0 && ino < 0x1_0000_0000 && |name| < 256
    ensures |r| == |b|
  {
    var d := RecAt(b, x);
    var used := RecSize(|d.name|);
    SplitStorable(b, x, ino, name, ft);
    Write(Write(b, x + 4, Put16(used)), x + used, Pack(Rec(ino, d.len - used, name, ft)))
  }

  lemma SplitStorable(b: Block, x: nat, ino: nat, name: Name, ft: Byte)
    requires RecOk(b, x) && Roomy(RecAt(b, x), name) && RecAt(b, x).ino != 0 && ino < 0x1_0000_0000 && |name| < 256
    ensures var d := RecAt(b, x); var used := RecSize(|d.name|);
            d.len < 0x1_0000 && used + RecSize(|name|) <= d.len && Storable(Rec(ino, d.len - used, name, ft)) && x + d.len <= |b|
  {
  }

  /** add_visit on a free record: it is taken over whole. */
  function Fill(b: Block, x: nat, ino: nat, name: Name, ft: Byte): (r: Block)
    requires RecOk(b, x) && Roomy(RecAt(b, x), name) && RecAt(b, x).ino == 0 && ino < 0x1_0000_0000 && |name| < 256
    ensures |r| == |b|
  {
    FillStorable(b, x, ino, name, ft);
    Write(b, x, Pack(Rec(ino, RecAt(b, x).len, name, ft)))
  }

  lemma FillStorable(b: Block, x: nat, ino: nat, name: Name, ft: Byte)
    requires RecOk(b, x) && Roomy(RecAt(b, x), name) && RecAt(b, x).ino == 0 && ino < 0x1_0000_0000 && |name| < 256
    ensures var d := RecAt(b, x);
            d.len < 0x1_0000 && Storable(Rec(ino, d.len, name, ft)) && RecSize(|name|) <= d.len && x + d.len <= |b|
  {
  }

  /** The test of add_visit: the unused part of the record has room for the name. */
  predicate Roomy(d: Rec, name: Name) {
    d.len - (if d.ino != 0 then RecSize(|d.name|) else 0) >= RecSize(|name|)
  }

  /** `c` is `b` with the record at `x` replaced by the records `rs`. */
  ghost predicate Swapped(b: Block, c: Block, x: nat, rs: seq<Rec>) {
    && |b| == |c| && Tiled(b, 0) && Start(b, 0, x) && x < |b| && Tiled(b, x) && Tiled(c, 0)
    && Recs(b, 0) == Before(b, 0, x) + ([RecAt(b, x)] + Recs(b, Next(b, x)))
    && Recs(c, 0) == Before(b, 0, x) + (rs + Recs(b, Next(b, x)))
  }

  lemma SwappedIn(b: Block, c: Block, x: nat, rs: seq<Rec>, r: Rec)
    requires Swapped(b, c, x, rs) && r in Recs(c, 0)
    ensures r in Recs(b, 0) || r in rs
  {
    hide RecOk, RecAt, Next, Recs, Before, Tiled, Start;
  }

  lemma Assemble(b: Block, c: Block, x: nat, rs: seq<Rec>)
    requires Tiled(b, 0) && Start(b, 0, x) && x < |b| == |c| && b[..x] == c[..x] && Tiled(b, x) && Tiled(c, x)
    requires Recs(c, x) == rs + Recs(b, Next(b, x))
    ensures Swapped(b, c, x, rs)
  {
    hide RecOk, RecAt, Next, RecSize;
    StartTiled(b, 0, x);
    Replaced(b, c, 0, x);
    assert Recs(b, x) == [RecAt(b, x)] + Recs(b, Next(b, x));
  }

  /** Where the bytes of the two records are. */
  lemma SplitBytes(b: Block, x: nat, ino: nat, name: Name, ft: Byte)
    requires RecOk(b, x) && Roomy(RecAt(b, x), name) && RecAt(b, x).ino != 0 && ino < 0x1_0000_0000 && |name| < 256
    ensures var d := RecAt(b, x); var c := Split(b, x, ino, name, ft); var used := RecSize(|d.name|);
            && c[..x] == b[..x] && c[Next(b, x)..] == b[Next(b, x)..]
            && RecOk(c, x) && RecAt(c, x) == d.(len := used)
            && RecOk(c, x + used) && RecAt(c, x + used) == Rec(ino, d.len - used, name, ft)
  {
    hide RecOk, RecAt, RecSize, Put16, Put32, Le16, Le32, Pack, Write, Roomy, Storable;
    var d := RecAt(b, x);
    var used := RecSize(|d.name|);
    var n := Next(b, x);
    SplitStorable(b, x, ino, name, ft);
    var nd := Rec(ino, d.len - used, name, ft);
    var m := Write(b, x + 4, Put16(used));
    SetLenOf(b, x, used);
    WriteAround(b, x + 4, Put16(used), x);
    WriteAround(b, x + 4, Put16(used), n);
    var y := x + used;
    var c := Write(m, y, Pack(nd));
    WriteAround(m, y, Pack(nd), y);
    WriteAround(m, y, Pack(nd), n);
    WriteAround(m, y, Pack(nd), x);
    SameRec(m, c, x, y);
    PackRead(nd, c, y);
  }

  lemma SplitTail(b: Block, x: nat, ino: nat, name: Name, ft: Byte)
    requires Tiled(b, x) && x < |b| && Roomy(RecAt(b, x), name) && RecAt(b, x).ino != 0 && ino < 0x1_0000_0000 && |name| < 256
    ensures var d := RecAt(b, x); var c := Split(b, x, ino, name, ft); var used := RecSize(|d.name|);
            && c[..x] == b[..x] && Tiled(c, x)
            && Recs(c, x) == [d.(len := used), Rec(ino, d.len - used, name, ft)] + Recs(b, Next(b, x))
  {
    hide RecOk, RecAt, RecSize, Roomy, Split;
    var n := Next(b, x);
    var c := Split(b, x, ino, name, ft);
    SplitBytes(b, x, ino, name, ft);
    SameTail(b, c, n);
    TwoTiled(c, x, Next(c, x), n);
  }

  lemma TwoTiled(b: Block, x: nat, y: nat, n: nat)
    requires RecOk(b, x) && y == Next(b, x) && RecOk(b, y) && n == Next(b, y) && Tiled(b, n)
    ensures Tiled(b, x) && Recs(b, x) == [RecAt(b, x), RecAt(b, y)] + Recs(b, n)
  {
    hide RecOk, RecAt, Next;
    assert Recs(b, y) == [RecAt(b, y)] + Recs(b, n);
    assert Recs(b, x) == [RecAt(b, x)] + Recs(b, y);
  }

  lemma SplitRecs(b: Block, x: nat, ino: nat, name: Name, ft: Byte)
    requires Tiled(b, 0) && Start(b, 0, x) && x < |b| && Tiled(b, x) && Roomy(RecAt(b, x), name) && RecAt(b, x).ino != 0
    requires ino < 0x1_0000_0000 && |name| < 256
    ensures var d := RecAt(b, x); var used := RecSize(|d.name|);
            Swapped(b, Split(b, x, ino, name, ft), x, [d.(len := used), Rec(ino, d.len - used, name, ft)])
  {
    hide RecOk, RecAt, RecSize, Split, Roomy, Swapped, Recs;
    var d := RecAt(b, x);
    var used := RecSize(|d.name|);
    SplitTail(b, x, ino, name, ft);
    Assemble(b, Split(b, x, ino, name, ft), x, [d.(len := used), Rec(ino, d.len - used, name, ft)]);
  }

  lemma FillRecs(b: Block, x: nat, ino: nat, name: Name, ft: Byte)
    requires Tiled(b, 0) && Start(b, 0, x) && x < |b| && Tiled(b, x) && Roomy(RecAt(b, x), name) && RecAt(b, x).ino == 0
    requires ino < 0x1_0000_0000 && |name| < 256
    ensures Swapped(b, Fill(b, x, ino, name, ft), x, [Rec(ino, RecAt(b, x).len, name, ft)])
  {
    hide RecOk, RecAt, RecSize, Put16, Put32, Le16, Le32, Pack, Write, Roomy, Storable, Swapped;
    var nd := Rec(ino, RecAt(b, x).len, name, ft);
    var n := Next(b, x);
    FillStorable(b, x, ino, name, ft);
    var c := Fill(b, x, ino, name, ft);
    WriteAround(b, x, Pack(nd), x);
    WriteAround(b, x, Pack(nd), n);
    PackRead(nd, c, x);
    SameTail(b, c, n);
    assert Next(c, x) == n;
    Assemble(b, c, x, [nd]);
  }

  /** Another inode in a record: dotdot_visit, and remove_visit on the first record of a block. */
  function Numbered(b: Block, x: nat, ino: nat): (r: Block)
    requires RecOk(b, x) && ino < 0x1_0000_0000
    ensures |r| == |b|
  {
    Write(b, x, Put32(ino))
  }

  lemma NumberedRecs(b: Block, x: nat, ino: nat)
    requires Tiled(b, 0) && Start(b, 0, x) && x < |b| && Tiled(b, x) && ino < 0x1_0000_0000
    ensures Swapped(b, Numbered(b, x, ino), x, [RecAt(b, x).(ino := ino)])
  {
    hide RecOk, RecAt, RecSize, Put16, Put32, Le16, Le32, Write, Swapped;
    var c := Numbered(b, x, ino);
    var n := Next(b, x);
    SetIno(b, x, ino);
    WriteAround(b, x, Put32(ino), x);
    WriteAround(b, x, Put32(ino), n);
    SameTail(b, c, n);
    assert Next(c, x) == n;
    Assemble(b, c, x, [RecAt(b, x).(ino := ino)]);
  }

  /** remove_visit on a later record: the one before it, at `x`, takes over its room. */
  function Swallowed(b: Block, x: nat): (r: Block)
    requires RecOk(b, x) && RecOk(b, Next(b, x)) && |b| < 0x1_0000
    ensures |r| == |b|
  {
    Write(b, x + 4, Put16(RecAt(b, x).len + RecAt(b, Next(b, x)).len))
  }

  lemma SwallowedTail(b: Block, x: nat, y: nat, n: nat)
    requires Tiled(b, x) && x < |b| < 0x1_0000 && y == Next(b, x) < |b| && Tiled(b, y) && n == Next(b, y) && Tiled(b, n)
    ensures var c := Swallowed(b, x);
            && c[..x] == b[..x] && Tiled(c, x)
            && Recs(c, x) == [RecAt(b, x).(len := RecAt(b, x).len + RecAt(b, y).len)] + Recs(b, n)
  {
    hide RecOk, RecAt, RecSize, Put16, Put32, Le16, Le32, Write;
    var v := RecAt(b, x).len + RecAt(b, y).len;
    var c := Swallowed(b, x);
    SumAligned(RecAt(b, x).len, RecAt(b, y).len);
    SetLenOf(b, x, v);
    WriteAround(b, x + 4, Put16(v), x);
    WriteAround(b, x + 4, Put16(v), n);
    SameTail(b, c, n);
    assert Next(c, x) == n;
  }

  lemma SwallowedRecs(b: Block, x: nat, y: nat, n: nat)
    requires Tiled(b, 0) && Start(b, 0, x) && Tiled(b, x) && x < |b| < 0x1_0000 && y == Next(b, x) < |b| && Tiled(b, y) && n == Next(b, y) && Tiled(b, n)
    ensures var c := Swallowed(b, x);
            && |c| == |b| && Tiled(c, 0)
            && Recs(b, 0) == Before(b, 0, x) + ([RecAt(b, x), RecAt(b, y)] + Recs(b, n))
            && Recs(c, 0) == Before(b, 0, x) + ([RecAt(b, x).(len := RecAt(b, x).len + RecAt(b, y).len)] + Recs(b, n))
  {
    hide RecOk, RecAt, RecSize, Swallowed, Recs, Next;
    SwallowedTail(b, x, y, n);
    TwoTiled(b, x, y, n);
    StartTiled(b, 0, x);
    Replaced(b, Swallowed(b, x), 0, x);
  }

  lemma SumAligned(m: nat, n: nat)
    requires m % 4 == 0 && n % 4 == 0
    ensures (m + n) % 4 == 0
  {
  }

  lemma SetLenOf(b: Block, x: nat, v: nat)
    requires RecOk(b, x) && v < 0x1_0000 && v % 4 == 0 && RecSize(|RecAt(b, x).name|) <= v && x + v <= |b|
    ensures x + 8 <= |b| && var c := Write(b, x + 4, Put16(v)); RecOk(c, x) && RecAt(c, x) == RecAt(b, x).(len := v)
  {
    SetLen(b, x, v);
  }
}

/** dir_find, dir_add, dir_remove and readdir over all blocks of a directory: it behaves as a map
    from names to inodes (kernel/fs/ext2.c:862-1098). */
module Ext2Directory {
  import opened Ext2Map
  import opened Ext2Dirent
  import opened Ext2Dir

  /** A file block of the directory: a hole, or the bytes of its block. */
  datatype Slot = Hole | Data(bytes: Block)

  datatype Code = Ok | ENOENT | ENOSPC | ENAMETOOLONG

  datatype Entry = Entry(name: Name, target: Target)

  ghost function SlotRecs(s: Slot): (r: seq<Rec>) {
    if s.Hole? then [] else Recs(s.bytes, 0)
  }

  /** All records, in the order of dir_iterate. */
  ghost function All(blocks: seq<Slot>): (r: seq<Rec>) {
    if blocks == [] then [] else SlotRecs(blocks[0]) + All(blocks[1..])
  }

  lemma {:induction false} AllConcat(a: seq<Slot>, b: seq<Slot>)
    ensures All(a + b) == All(a) + All(b)
    decreases |a|
  {
    if a == [] {
      assert a + b == b;
    } else {
      assert (a + b)[1..] == a[1..] + b;
      AllConcat(a[1..], b);
    }
  }

  lemma AllAt(blocks: seq<Slot>, i: nat)
    requires i < |blocks|
    ensures All(blocks) == All(blocks[..i]) + (SlotRecs(blocks[i]) + All(blocks[i + 1..]))
  {
    assert blocks == blocks[..i] + blocks[i..];
    AllConcat(blocks[..i], blocks[i..]);
    assert blocks[i..][1..] == blocks[i + 1..];
  }

  lemma AllNext(blocks: seq<Slot>, i: nat)
    requires i < |blocks|
    ensures All(blocks[..i + 1]) == All(blocks[..i]) + SlotRecs(blocks[i])
  {
    assert blocks[..i + 1] == blocks[..i] + [blocks[i]];
    AllConcat(blocks[..i], [blocks[i]]);
    assert [blocks[i]][1..] == [];
    assert All([blocks[i]]) == SlotRecs(blocks[i]) + [];
  }

  lemma AllSet(blocks: seq<Slot>, i: nat, s: Slot)
    requires i < |blocks|
    ensures All(blocks[i := s]) == All(blocks[..i]) + (SlotRecs(s) + All(blocks[i + 1..]))
  {
    var now := blocks[i := s];
    AllAt(now, i);
    assert now[..i] == blocks[..i] && now[i + 1..] == blocks[i + 1..];
  }

  /** Every block is exactly tiled by valid records, and no name occurs twice. */
  ghost predicate Valid(bs: nat, blocks: seq<Slot>) {
    && 264 <= bs < 0x1_0000 && bs % 4 == 0
    && (forall i :: 0 <= i < |blocks| && blocks[i].Data? ==> |blocks[i].bytes| == bs && Tiled(blocks[i].bytes, 0))
    && Distinct(All(blocks))
  }

  /** What readdir needs: blocks of the block size, whatever they hold. */
  ghost predicate Sized(bs: nat, blocks: seq<Slot>) {
    bs > 0 && forall i :: 0 <= i < |blocks| && blocks[i].Data? ==> |blocks[i].bytes| == bs
  }

  /** The record found first decides what its name is bound to. */
  lemma FirstHit(b: Block, x: nat, name: Name)
    requires Start(b, 0, x) && x < |b| && RecOk(b, x) && Hit(RecAt(b, x), name) && name !in Bind(Before(b, 0, x))
    ensures name in Bind(Recs(b, 0)) && Bind(Recs(b, 0))[name] == Target(RecAt(b, x).ino, RecAt(b, x).ft)
  {
    hide RecOk, RecAt, Next;
    StartRecs(b, 0, x);
    assert Recs(b, x) == [RecAt(b, x)] + Recs(b, Next(b, x));
    BindConcat([RecAt(b, x)], Recs(b, Next(b, x)));
    BindOne(RecAt(b, x));
    BindConcat(Before(b, 0, x), Recs(b, x));
  }

  lemma BindAt(blocks: seq<Slot>, i: nat, name: Name)
    requires i < |blocks| && name !in Bind(All(blocks[..i])) && name in Bind(SlotRecs(blocks[i]))
    ensures name in Bind(All(blocks)) && Bind(All(blocks))[name] == Bind(SlotRecs(blocks[i]))[name]
  {
    hide Bind, All;
    AllAt(blocks, i);
    BindConcat(All(blocks[..i]), SlotRecs(blocks[i]) + All(blocks[i + 1..]));
    BindConcat(SlotRecs(blocks[i]), All(blocks[i + 1..]));
  }

  lemma MissNext(blocks: seq<Slot>, i: nat, name: Name)
    requires i < |blocks| && name !in Bind(All(blocks[..i])) && name !in Bind(SlotRecs(blocks[i]))
    ensures name !in Bind(All(blocks[..i + 1]))
  {
    hide Bind, All;
    AllNext(blocks, i);
    BindConcat(All(blocks[..i]), SlotRecs(blocks[i]));
  }

  /** Changing one block changes the directory by what the block gained or lost. */
  lemma BlockGains(blocks: seq<Slot>, i: nat, s: Slot, name: Name, t: Target)
    requires i < |blocks| && Distinct(All(blocks)) && name !in Bind(All(blocks)) && Gained(SlotRecs(blocks[i]), SlotRecs(s), name, t)
    ensures Gained(All(blocks), All(blocks[i := s]), name, t)
  {
    hide Bind, All, Distinct, SlotRecs, Gained;
    AllAt(blocks, i);
    AllSet(blocks, i, s);
    GainReplace(All(blocks[..i]), SlotRecs(blocks[i]), SlotRecs(s), All(blocks[i + 1..]), name, t);
  }

  lemma BlockLoses(blocks: seq<Slot>, i: nat, s: Slot, name: Name)
    requires i < |blocks| && Distinct(All(blocks)) && name in Bind(SlotRecs(blocks[i])) && Lost(SlotRecs(blocks[i]), SlotRecs(s), name)
    ensures name in Bind(All(blocks)) && Lost(All(blocks), All(blocks[i := s]), name)
  {
    hide Bind, All, Distinct, SlotRecs, Lost;
    AllAt(blocks, i);
    AllSet(blocks, i, s);
    LoseReplace(All(blocks[..i]), SlotRecs(blocks[i]), SlotRecs(s), All(blocks[i + 1..]), name);
  }

  /** A part of a directory without duplicates has none, and a name absent from the whole is absent from it. */
  lemma BlockPart(blocks: seq<Slot>, i: nat)
    requires i < |blocks| && Distinct(All(blocks))
    ensures Distinct(SlotRecs(blocks[i])) && forall n :: n in Bind(SlotRecs(blocks[i])) ==> n in Bind(All(blocks))
  {
    hide Bind, All, Distinct, SlotRecs;
    AllAt(blocks, i);
    BindMiddle(All(blocks[..i]), SlotRecs(blocks[i]), All(blocks[i + 1..]));
  }

  /** dotdot_visit in one block. */
  lemma BlockChanges(blocks: seq<Slot>, i: nat, s: Slot, name: Name, t: Target)
    requires i < |blocks| && Distinct(All(blocks)) && name in Bind(SlotRecs(blocks[i])) && Gained(SlotRecs(blocks[i]), SlotRecs(s), name, t)
    ensures name in Bind(All(blocks)) && Gained(All(blocks), All(blocks[i := s]), name, t)
  {
    hide Bind, All, Distinct, SlotRecs, Gained;
    AllAt(blocks, i);
    AllSet(blocks, i, s);
    ChangeReplace(All(blocks[..i]), SlotRecs(blocks[i]), SlotRecs(s), All(blocks[i + 1..]), name, t);
  }

  /** A change of one block that leaves no free record named `..` there leaves none at all. */
  lemma BlockMarked(blocks: seq<Slot>, i: nat, s: Slot)
    requires i < |blocks| && Marked(All(blocks))
    ensures Marked(SlotRecs(blocks[i]))
    ensures Marked(SlotRecs(s)) ==> Marked(All(blocks[i := s]))
  {
    hide All, SlotRecs;
    AllAt(blocks, i);
    AllSet(blocks, i, s);
    var a, z := All(blocks[..i]), All(blocks[i + 1..]);
    forall r | r in SlotRecs(blocks[i]) || r in a || r in z ensures r in All(blocks) {
      assert r in SlotRecs(blocks[i]) + z || r in a;
    }
  }

  lemma TargetAt(blocks: seq<Slot>, i: nat, x: nat)
    requires i < |blocks| && blocks[i].Data? && Tiled(blocks[i].bytes, 0) && Distinct(All(blocks))
    requires var b := blocks[i].bytes; Start(b, 0, x) && x < |b| && RecOk(b, x) && RecAt(b, x).ino != 0
    ensures var d := RecAt(blocks[i].bytes, x); d.name in Bind(All(blocks)) && Bind(All(blocks))[d.name] == Target(d.ino, d.ft)
  {
    hide RecOk, RecAt, Next, All, Bind, Distinct, Start, Recs, Tiled;
    var b := blocks[i].bytes;
    var d := RecAt(b, x);
    AllAt(blocks, i);
    StartTiled(b, 0, x);
    NextTiled(b, x);
    var a, y, z := All(blocks[..i]) + Before(b, 0, x), Recs(b, Next(b, x)) + All(blocks[i + 1..]), All(blocks);
    assert z == a + ([d] + y);
    BindMiddle(a, [d], y);
    BindOne(d);
  }

  // ---- A new block ----

  /** The block that dir_add appends: one record that owns all of it. */
  function FirstBlock(zero: Block, ino: nat, name: Name, ft: Byte): (b: Block)
    requires 264 <= |zero| < 0x1_0000 && |zero| % 4 == 0 && ino < 0x1_0000_0000 && |name| < 256
    ensures |b| == |zero|
  {
    NameFits(|name|);
    Write(zero, 0, Pack(Rec(ino, |zero|, name, ft)))
  }

  lemma NameFits(n: nat)
    requires n < 256
    ensures RecSize(n) <= 264
  {
  }

  lemma FirstBlockRecs(zero: Block, ino: nat, name: Name, ft: Byte)
    requires 264 <= |zero| < 0x1_0000 && |zero| % 4 == 0 && ino < 0x1_0000_0000 && |name| < 256
    ensures var b := FirstBlock(zero, ino, name, ft); Tiled(b, 0) && Recs(b, 0) == [Rec(ino, |zero|, name, ft)]
  {
    hide RecOk, RecAt, RecSize, Pack, Write;
    NameFits(|name|);
    var r := Rec(ino, |zero|, name, ft);
    var b := FirstBlock(zero, ino, name, ft);
    WriteAround(zero, 0, Pack(r), 0);
    PackRead(r, b, 0);
    assert Next(b, 0) == |b|;
    assert Recs(b, |b|) == [];
  }

  lemma AppendGains(blocks: seq<Slot>, b: Block, ino: nat, len: nat, name: Name, ft: Byte)
    requires Distinct(All(blocks)) && name !in Bind(All(blocks)) && Recs(b, 0) == [Rec(ino, len, name, ft)] && ino != 0
    ensures Gained(All(blocks), All(blocks + [Data(b)]), name, Target(ino, ft))
  {
    hide Recs, RecOk, Bind, Distinct;
    var r := Rec(ino, len, name, ft);
    AllConcat(blocks, [Data(b)]);
    assert [Data(b)][1..] == [];
    assert All([Data(b)]) == [r] + [] == [r];
    BindConcat(All(blocks), [r]);
    DistinctConcat(All(blocks), [r]);
    BindOne(r);
  }

  lemma AppendMarked(blocks: seq<Slot>, b: Block, r: Rec)
    requires Marked(All(blocks)) && Recs(b, 0) == [r] && r.ino != 0
    ensures Marked(All(blocks + [Data(b)]))
  {
    hide Recs, RecOk;
    AllConcat(blocks, [Data(b)]);
    assert [Data(b)][1..] == [];
    assert All([Data(b)]) == [r] + [] == [r];
  }

  /** The directory that mkdir makes. */
  lemma NewDirectory(bs: nat, zero: Block, ino: nat, up: nat)
    requires 264 <= bs < 0x1_0000 && bs % 4 == 0 && |zero| == bs && 0 < ino < 0x1_0000_0000 && 0 < up < 0x1_0000_0000
    ensures var blocks := [Data(DirBlock(zero, ino, up))];
            Valid(bs, blocks) && Marked(All(blocks)) && Bind(All(blocks)) == map[Dot := Target(ino, FtDir), DotDot := Target(up, FtDir)]
  {
    hide Recs, DirBlock, Bind, Distinct, Marked, Tiled;
    var b := DirBlock(zero, ino, up);
    DirBlockRecs(zero, ino, up);
    DirBlockBinds(zero, ino, up);
    var blocks := [Data(b)];
    assert blocks[1..] == [];
    assert All(blocks) == Recs(b, 0) + [] == Recs(b, 0);
  }

  // ---- Live entries in order, for readdir ----

  function LiveOf(r: Rec): (e: seq<Entry>) {
    if r.ino != 0 then [Entry(r.name, Target(r.ino, r.ft))] else []
  }

  ghost function Live(rs: seq<Rec>): (e: seq<Entry>) {
    if rs == [] then [] else LiveOf(rs[0]) + Live(rs[1..])
  }

  lemma LiveNext(rs: seq<Rec>)
    requires rs != []
    ensures Live(rs) == LiveOf(rs[0]) + Live(rs[1..]) && Bind(rs) == Bind(rs[1..]) + Binding(rs[0])
    ensures Distinct(rs) ==> Distinct(rs[1..]) && Bind(rs[1..]).Keys !! Binding(rs[0]).Keys
  {
  }

  lemma {:induction false} LiveSound(rs: seq<Rec>)
    requires Distinct(rs)
    ensures forall e :: e in Live(rs) ==> e.name in Bind(rs) && Bind(rs)[e.name] == e.target
    decreases |rs|
  {
    hide Live, Bind, Distinct;
    if rs != [] {
      LiveNext(rs);
      LiveSound(rs[1..]);
    } else {
      LiveEmpty();
    }
  }

  lemma {:induction false} LiveComplete(rs: seq<Rec>)
    requires Distinct(rs)
    ensures forall n :: n in Bind(rs) ==> Entry(n, Bind(rs)[n]) in Live(rs)
    decreases |rs|
  {
    hide Live, Bind, Distinct;
    if rs != [] {
      LiveNext(rs);
      LiveComplete(rs[1..]);
      assert rs[0].ino != 0 ==> Entry(rs[0].name, Target(rs[0].ino, rs[0].ft)) in LiveOf(rs[0]);
    } else {
      LiveEmpty();
    }
  }

  lemma LiveEmpty()
    ensures Live([]) == [] && Bind([]) == map[]
  {
  }

  lemma MapAdd(m: map<Name, Target>, n: Name, x: Target)
    requires n !in m
    ensures |m + map[n := x]| == |m| + 1
  {
    var u := m + map[n := x];
    assert u.Keys == m.Keys + {n};
    assert |u| == |u.Keys| && |m| == |m.Keys|;
  }

  lemma {:induction false} LiveOnce(rs: seq<Rec>)
    requires Distinct(rs)
    ensures |Live(rs)| == |Bind(rs)|
    ensures forall i, j :: 0 <= i < j < |Live(rs)| ==> Live(rs)[i].name != Live(rs)[j].name
    decreases |rs|
  {
    hide Live, Bind, Distinct;
    if rs != [] {
      LiveNext(rs);
      LiveOnce(rs[1..]);
      LiveSound(rs[1..]);
      var r, m, l := rs[0], Bind(rs[1..]), Live(rs[1..]);
      if r.ino != 0 {
        assert r.name in Binding(r).Keys;
        MapAdd(m, r.name, Target(r.ino, r.ft));
        forall j | 0 <= j < |l| ensures l[j].name != r.name {
          assert l[j] in l;
        }
      } else {
        assert m + map[] == m && [] + l == l;
      }
    } else {
      LiveEmpty();
    }
  }

  /** The records from byte position `off` of block `i` on. */
  ghost function Rest(blocks: seq<Slot>, i: nat, off: nat): (r: seq<Rec>) {
    if i >= |blocks| then []
    else (if blocks[i].Hole? then [] else Recs(blocks[i].bytes, off)) + All(blocks[i + 1..])
  }

  lemma RestStart(blocks: seq<Slot>, i: nat)
    ensures Rest(blocks, i, 0) == if i < |blocks| then All(blocks[i..]) else []
  {
    if i < |blocks| {
      assert blocks[i..][1..] == blocks[i + 1..];
    }
  }

  /** A hole, or a damaged record, sends readdir to the next block. */
  lemma RestSkip(blocks: seq<Slot>, i: nat, off: nat)
    requires i < |blocks| && (blocks[i].Hole? || !RecOk(blocks[i].bytes, off))
    ensures Rest(blocks, i, off) == Rest(blocks, i + 1, 0)
  {
    hide RecOk, RecAt, Next;
    RestStart(blocks, i + 1);
    if i + 1 == |blocks| {
      assert blocks[i + 1..] == [];
    }
  }

  lemma RecsHead(b: Block, o: nat)
    requires o < |b| && RecOk(b, o)
    ensures Recs(b, o) == [RecAt(b, o)] + Recs(b, Next(b, o))
  {
    hide RecOk, RecAt, Next;
  }

  lemma LiveHead(d: Rec, rs: seq<Rec>)
    ensures Live([d] + rs) == LiveOf(d) + Live(rs)
  {
    assert ([d] + rs)[1..] == rs;
  }

  lemma RestFrom(blocks: seq<Slot>, i: nat, n: nat, bs: nat)
    requires i < |blocks| && blocks[i].Data? && |blocks[i].bytes| == bs && n <= bs
    ensures (if n < bs then Rest(blocks, i, n) else Rest(blocks, i + 1, 0)) == Recs(blocks[i].bytes, n) + All(blocks[i + 1..])
  {
    hide RecOk, RecAt, Next;
    if n == bs {
      assert Recs(blocks[i].bytes, n) == [];
      RestStart(blocks, i + 1);
      if i + 1 == |blocks| {
        assert blocks[i + 1..] == [];
      }
    }
  }

  /** A valid record is followed by the rest of its block, or by the next block at its end. */
  lemma RestTake(blocks: seq<Slot>, i: nat, off: nat, bs: nat)
    requires i < |blocks| && blocks[i].Data? && |blocks[i].bytes| == bs && off < bs && RecOk(blocks[i].bytes, off)
    ensures var d := RecAt(blocks[i].bytes, off); var n := off + d.len;
            && 0 < d.len && n <= bs
            && Live(Rest(blocks, i, off)) == LiveOf(d) + Live(if n < bs then Rest(blocks, i, n) else Rest(blocks, i + 1, 0))
  {
    hide RecOk, RecAt, Next, RecSize, RecLen, NameLen, LiveOf, Live, All, Recs;
    var b := blocks[i].bytes;
    var d := RecAt(b, off);
    var n := Next(b, off);
    var z := All(blocks[i + 1..]);
    RecsHead(b, off);
    assert Rest(blocks, i, off) == [d] + (Recs(b, n) + z);
    LiveHead(d, Recs(b, n) + z);
    RestFrom(blocks, i, n, bs);
  }

  lemma RestNone(blocks: seq<Slot>, i: nat, off: nat)
    requires i >= |blocks|
    ensures Live(Rest(blocks, i, off)) == []
  {
  }

  /** The records that readdir has not passed at position `pos`. */
  ghost function RestAt(bs: nat, blocks: seq<Slot>, pos: nat): (r: seq<Rec>) {
    if bs == 0 then [] else Rest(blocks, pos / bs, pos % bs)
  }

  lemma AtSkip(bs: nat, blocks: seq<Slot>, pos: nat, i: nat, off: nat, after: nat)
    requires bs > 0 && i == Quot(pos, bs) && off == Rem(pos, bs) && i < |blocks| && (blocks[i].Hole? || !RecOk(blocks[i].bytes, off))
    requires after == (i + 1) * bs && pos < bs * |blocks|
    ensures RestAt(bs, blocks, pos) == RestAt(bs, blocks, after) && pos < after
  {
    hide Rest, RecOk;
    InBlock(bs, |blocks|, pos);
    NextBlock(bs, i);
    RestSkip(blocks, i, off);
  }

  lemma AtTake(bs: nat, blocks: seq<Slot>, pos: nat, i: nat, off: nat, size: nat)
    requires bs > 0 && i == Quot(pos, bs) && off == Rem(pos, bs) && size == bs * |blocks| && pos < size
    requires i < |blocks| && blocks[i].Data? && |blocks[i].bytes| == bs && RecOk(blocks[i].bytes, off)
    ensures var d := RecAt(blocks[i].bytes, off);
            0 < d.len && pos + d.len <= size && Live(RestAt(bs, blocks, pos)) == LiveOf(d) + Live(RestAt(bs, blocks, pos + d.len))
  {
    hide Rest, RecOk, RecAt, Live, LiveOf;
    InBlock(bs, |blocks|, pos);
    RestTake(blocks, i, off, bs);
    NextInBlock(bs, pos, i, off, RecAt(blocks[i].bytes, off).len);
  }

  lemma BlockOf(bs: nat, n: nat, pos: nat, size: nat)
    requires bs > 0 && size == bs * n && pos < size
    ensures Quot(pos, bs) < n && Rem(pos, bs) < bs
  {
    InBlock(bs, n, pos);
  }

  lemma AtEnd(bs: nat, blocks: seq<Slot>, pos: nat)
    requires bs > 0 && pos >= bs * |blocks|
    ensures Live(RestAt(bs, blocks, pos)) == []
  {
    PastEnd(bs, |blocks|, pos);
    RestNone(blocks, pos / bs, pos % bs);
  }

  lemma AtStart(bs: nat, blocks: seq<Slot>)
    requires bs > 0
    ensures RestAt(bs, blocks, 0) == All(blocks)
  {
    FirstPos(bs);
    RestStart(blocks, 0);
    assert blocks[0..] == blocks;
  }

  // ---- Positions ----

  lemma InBlock(bs: nat, n: nat, pos: nat)
    requires bs > 0 && pos < bs * n
    ensures pos / bs < n && pos % bs < bs && pos == pos / bs * bs + pos % bs && (pos / bs + 1) * bs <= bs * n && pos < (pos / bs + 1) * bs
  {
    var q := pos / bs;
    if q >= n {
      MulLe(n, q, bs);
    } else {
      MulLe(q + 1, n, bs);
    }
  }

  lemma MulLe(a: nat, b: nat, c: nat)
    requires a <= b
    ensures a * c <= b * c
  {
  }

  lemma PosIs(bs: nat, i: nat, off: nat)
    requires off < bs
    ensures (i * bs + off) / bs == i && (i * bs + off) % bs == off
  {
    DivUnique(i * bs + off, bs, i, off);
  }

  lemma NextBlock(bs: nat, i: nat)
    requires bs > 0
    ensures (i + 1) * bs / bs == i + 1 && (i + 1) * bs % bs == 0
  {
    PosIs(bs, i + 1, 0);
  }

  lemma NextInBlock(bs: nat, pos: nat, i: nat, off: nat, len: nat)
    requires bs > 0 && pos == i * bs + off && off + len <= bs
    ensures off + len < bs ==> (pos + len) / bs == i && (pos + len) % bs == off + len
    ensures off + len == bs ==> (pos + len) / bs == i + 1 && (pos + len) % bs == 0
    ensures pos + len <= (i + 1) * bs
  {
    if off + len < bs {
      PosIs(bs, i, off + len);
      assert pos + len == i * bs + (off + len);
    } else {
      assert pos + len == (i + 1) * bs;
      NextBlock(bs, i);
    }
  }

  lemma PastEnd(bs: nat, n: nat, pos: nat)
    requires bs > 0 && pos >= bs * n
    ensures pos / bs >= n
  {
    var q, r := pos / bs, pos % bs;
    assert pos == q * bs + r;
    if q < n {
      MulLe(q + 1, n, bs);
    }
  }

  lemma FirstPos(bs: nat)
    requires bs > 0
    ensures 0 / bs == 0 && 0 % bs == 0
  {
  }

  // ---- Small facts ----

  lemma BindNone()
    ensures Bind([]) == map[]
  {
  }

  lemma AllNone(blocks: seq<Slot>)
    ensures All(blocks[..0]) == []
  {
  }

  lemma RoomInside(blocks: seq<Slot>, i: nat, x: nat)
    requires i < |blocks| && blocks[i].Data? && Start(blocks[i].bytes, 0, x) && x < |blocks[i].bytes| && RecOk(blocks[i].bytes, x)
    ensures RecAt(blocks[i].bytes, x) in All(blocks)
  {
    hide RecOk, RecAt, Next, All;
    var b := blocks[i].bytes;
    AllAt(blocks, i);
    StartRecs(b, 0, x);
    assert RecAt(b, x) in Recs(b, x);
  }

  lemma LiveIff(rs: seq<Rec>, out: seq<Entry>)
    requires out == Live(rs)
    requires forall e :: e in Live(rs) ==> e.name in Bind(rs) && Bind(rs)[e.name] == e.target
    requires forall n :: n in Bind(rs) ==> Entry(n, Bind(rs)[n]) in Live(rs)
    ensures forall n :: n in Bind(rs) ==> exists k :: 0 <= k < |out| && out[k] == Entry(n, Bind(rs)[n])
    ensures forall k :: 0 <= k < |out| ==> out[k].name in Bind(rs) && Bind(rs)[out[k].name] == out[k].target
  {
    hide Live, Bind;
    forall n | n in Bind(rs) ensures exists k :: 0 <= k < |out| && out[k] == Entry(n, Bind(rs)[n]) {
      var e := Entry(n, Bind(rs)[n]);
      assert e in out;
    }
  }

  /** What empty_visit stops at. */
  predicate Other(r: Rec) {
    r.ino != 0 && r.name != Dot && r.name != DotDot
  }

  lemma NotNamed(rs: seq<Rec>, name: Name)
    requires forall r :: r in rs ==> r.name != name
    ensures name !in Bind(rs)
  {
    hide Bind;
    BindMiss(rs, name);
  }

  lemma NoOther(rs: seq<Rec>)
    requires forall r :: r in rs ==> !Other(r)
    ensures Bind(rs).Keys <= {Dot, DotDot}
  {
    hide Bind;
    forall n | n != Dot && n != DotDot ensures n !in Bind(rs) {
      forall i | 0 <= i < |rs| ensures !Hit(rs[i], n) {
        assert !Other(rs[i]);
      }
      BindMiss(rs, n);
    }
  }

  lemma MarkedAt(b: Block, x: nat)
    requires Tiled(b, 0) && Start(b, 0, x) && x < |b| && RecOk(b, x) && Marked(Recs(b, 0)) && RecAt(b, x).name == DotDot
    ensures RecAt(b, x).ino != 0
  {
    hide RecOk, RecAt, Next, Tiled, Start, Recs;
    RecIn(b, x);
  }

  // ---- The directory ----

  class Directory {
    const bs: nat
    var blocks: seq<Slot>

    constructor (bs: nat)
      requires 264 <= bs < 0x1_0000 && bs % 4 == 0
      ensures Valid(bs, blocks) && this.bs == bs && Bind(All(blocks)) == map[]
    {
      this.bs := bs;
      blocks := [];
    }

    /** ext2_iget: the inode in memory of a directory on the disk. */
    constructor Get(bs: nat, blocks: seq<Slot>)
      ensures this.bs == bs && this.blocks == blocks
    {
      this.bs := bs;
      this.blocks := blocks;
    }

    /** dir_find, on any directory, damaged ones included. */
    method Find(name: Name) returns (r: Option<Target>)
      ensures r == if name in Bind(All(blocks)) then Some(Bind(All(blocks))[name]) else None
    {
      hide Bind, RecOk, RecAt, Next, Recs, Before, Start;
      assert blocks[..0] == [];
      BindNone();
      for i := 0 to |blocks|
        invariant name !in Bind(All(blocks[..i]))
      {
        if blocks[i].Data? {
          var b := blocks[i].bytes;
          var at, prev := FindInBlock(b, name);
          if at.Some? {
            var d := RecAt(b, at.value);
            FirstHit(b, at.value, name);
            BindAt(blocks, i, name);
            return Some(Target(d.ino, d.ft));
          }
        } else {
          BindNone();
        }
        MissNext(blocks, i, name);
      }
      assert blocks[..|blocks|] == blocks;
      return None;
    }

    /** dir_add of an absent name adds just that binding; `zero` is the block that bmap attaches
        when no record has room, if the disk has one. */
    method Add(name: Name, ino: nat, ft: Byte, zero: Option<Block>) returns (e: Code)
      requires Valid(bs, blocks) && 0 < ino < 0x1_0000_0000 && name !in Bind(All(blocks)) && (zero.Some? ==> |zero.value| == bs)
      modifies this
      ensures Valid(bs, blocks)
      ensures e == ENAMETOOLONG <==> |name| > 255
      ensures e == ENOSPC <==> |name| <= 255 && zero.None? && forall r :: r in old(All(blocks)) ==> !Roomy(r, name)
      ensures e == Ok ==> Bind(All(blocks)) == old(Bind(All(blocks)))[name := Target(ino, ft)]
      ensures old(Marked(All(blocks))) ==> Marked(All(blocks))
      ensures e != Ok ==> blocks == old(blocks)
      ensures e == Ok || e == ENOSPC || e == ENAMETOOLONG
    {
      hide Bind, RecOk, RecAt, Next, Recs, Before, Start, Tiled, Added, Distinct, Roomy, All, Marked;
      if |name| > 255 {
        return ENAMETOOLONG;
      }
      AllNone(blocks);
      for i := 0 to |blocks|
        invariant blocks == old(blocks)
        invariant forall r :: r in All(blocks[..i]) ==> !Roomy(r, name)
      {
        if blocks[i].Data? {
          var b := blocks[i].bytes;
          var at := Visit(b, r => Roomy(r, name));
          if at.Some? {
            RoomInside(blocks, i, at.value);
            BlockPart(blocks, i);
            AddedGains(b, at.value, ino, name, ft);
            var c := Added(b, at.value, ino, name, ft);
            if Marked(All(blocks)) {
              BlockMarked(blocks, i, Data(c));
              AddedMarked(b, at.value, ino, name, ft);
            }
            BlockGains(blocks, i, Data(c), name, Target(ino, ft));
            blocks := blocks[i := Data(c)];
            return Ok;
          }
        }
        AllNext(blocks, i);
      }
      assert blocks[..|blocks|] == blocks;
      if zero.None? {
        return ENOSPC;
      }
      FirstBlockRecs(zero.value, ino, name, ft);
      var b := FirstBlock(zero.value, ino, name, ft);
      AppendGains(blocks, b, ino, bs, name, ft);
      if Marked(All(blocks)) {
        AppendMarked(blocks, b, Rec(ino, bs, name, ft));
      }
      blocks := blocks + [Data(b)];
      return Ok;
    }

    /** dir_remove deletes just that binding, or reports that there is none. */
    method Remove(name: Name) returns (e: Code)
      requires Valid(bs, blocks)
      modifies this
      ensures Valid(bs, blocks)
      ensures e == if name in old(Bind(All(blocks))) then Ok else ENOENT
      ensures e == Ok ==> Bind(All(blocks)) == old(Bind(All(blocks))) - {name}
      ensures e == Ok && |name| < 256 ==> exists r :: r in All(blocks) && Roomy(r, name)
      ensures old(Marked(All(blocks))) && name != DotDot ==> Marked(All(blocks))
      ensures e != Ok ==> blocks == old(blocks)
    {
      hide Bind, RecOk, RecAt, Next, Recs, Before, Start, Tiled, Removed, Distinct, Roomy, All, Marked;
      AllNone(blocks);
      BindNone();
      for i := 0 to |blocks|
        invariant blocks == old(blocks)
        invariant name !in Bind(All(blocks[..i]))
      {
        if blocks[i].Data? {
          var b := blocks[i].bytes;
          var at, prev := FindInBlock(b, name);
          if at.Some? {
            BlockPart(blocks, i);
            RemovedLoses(b, at.value, prev, name);
            RemovedHasRoom(b, at.value, prev, name);
            var c := Removed(b, at.value, prev);
            BlockLoses(blocks, i, Data(c), name);
            AllSet(blocks, i, Data(c));
            if Marked(All(blocks)) && name != DotDot {
              BlockMarked(blocks, i, Data(c));
              RemovedMarked(b, at.value, prev);
            }
            blocks := blocks[i := Data(c)];
            return Ok;
          }
        } else {
          BindNone();
        }
        MissNext(blocks, i, name);
      }
      assert blocks[..|blocks|] == blocks;
      return ENOENT;
    }

    /** What rename does to a name that exists: dir_remove and then dir_add, which finds room without
        a new block. */
    method Rebind(name: Name, ino: nat, ft: Byte) returns (e: Code)
      requires Valid(bs, blocks) && 0 < ino < 0x1_0000_0000 && |name| <= 255
      modifies this
      ensures Valid(bs, blocks)
      ensures e == if name in old(Bind(All(blocks))) then Ok else ENOENT
      ensures e == Ok ==> Bind(All(blocks)) == old(Bind(All(blocks)))[name := Target(ino, ft)]
      ensures e != Ok ==> blocks == old(blocks)
    {
      hide Valid, Bind, All, Roomy;
      e := Remove(name);
      if e != Ok {
        return;
      }
      ghost var m := Bind(All(blocks));
      e := Add(name, ino, ft, None);
      assert m[name := Target(ino, ft)] == old(Bind(All(blocks)))[name := Target(ino, ft)];
    }

    /** dotdot_visit over the directory: `..` leads to another parent. */
    method SetDotdot(ino: nat)
      requires Valid(bs, blocks) && Marked(All(blocks)) && 0 < ino < 0x1_0000_0000
      modifies this
      ensures Valid(bs, blocks) && Marked(All(blocks))
      ensures DotDot !in old(Bind(All(blocks))) ==> blocks == old(blocks)
      ensures DotDot in old(Bind(All(blocks))) ==>
                Bind(All(blocks)) == old(Bind(All(blocks)))[DotDot := Target(ino, old(Bind(All(blocks)))[DotDot].ft)]
    {
      hide Bind, RecOk, RecAt, Next, Recs, Before, Start, Tiled, Distinct, All, Marked;
      AllNone(blocks);
      for i := 0 to |blocks|
        invariant blocks == old(blocks)
        invariant forall r :: r in All(blocks[..i]) ==> r.name != DotDot
      {
        if blocks[i].Data? {
          var b := blocks[i].bytes;
          var at := Visit(b, (r: Rec) => r.name == DotDot);
          if at.Some? {
            var c := Numbered(b, at.value, ino);
            BlockMarked(blocks, i, Data(c));
            MarkedAt(b, at.value);
            BlockPart(blocks, i);
            TargetAt(blocks, i, at.value);
            NumberedChanges(b, at.value, ino);
            BlockChanges(blocks, i, Data(c), DotDot, Target(ino, RecAt(b, at.value).ft));
            blocks := blocks[i := Data(c)];
            return;
          }
        }
        AllNext(blocks, i);
      }
      assert blocks[..|blocks|] == blocks;
      NotNamed(All(blocks), DotDot);
    }

    /** dir_is_empty: no live record but `.` and `..`. */
    method IsEmpty() returns (r: bool)
      requires Valid(bs, blocks)
      ensures r <==> Bind(All(blocks)).Keys <= {Dot, DotDot}
    {
      hide Bind, RecOk, RecAt, Next, Recs, Before, Start, Tiled, Distinct, All;
      AllNone(blocks);
      for i := 0 to |blocks|
        invariant forall r :: r in All(blocks[..i]) ==> !Other(r)
      {
        if blocks[i].Data? {
          var at := Visit(blocks[i].bytes, r => Other(r));
          if at.Some? {
            TargetAt(blocks, i, at.value);
            return false;
          }
        }
        AllNext(blocks, i);
      }
      assert blocks[..|blocks|] == blocks;
      NoOther(All(blocks));
      return true;
    }

    /** ext2_readdir from position `pos`: the next live entry and the position after it. */
    method Readdir(pos: nat) returns (r: Option<Entry>, next: nat)
      requires Sized(bs, blocks)
      ensures r.None? ==> Live(RestAt(bs, blocks, pos)) == []
      ensures r.Some? ==> Live(RestAt(bs, blocks, pos)) == [r.value] + Live(RestAt(bs, blocks, next))
      ensures r.Some? ==> pos < next <= bs * |blocks|
    {
      hide Recs, RecOk, RecAt, Next, RestAt, All, Live, RecSize, Quot, Rem;
      next := pos;
      var size := bs * |blocks|;
      while next < size
        invariant pos <= next
        invariant Live(RestAt(bs, blocks, pos)) == Live(RestAt(bs, blocks, next))
        decreases size - next
      {
        var i, off := Quot(next, bs), Rem(next, bs);
        BlockOf(bs, |blocks|, next, size);
        if blocks[i].Hole? || !RecOk(blocks[i].bytes, off) {
          var after := (i + 1) * bs;
          AtSkip(bs, blocks, next, i, off, after);
          next := after;
        } else {
          var d := RecAt(blocks[i].bytes, off);
          AtTake(bs, blocks, next, i, off, size);
          next := next + d.len;
          if d.ino != 0 {
            return Some(Entry(d.name, Target(d.ino, d.ft))), next;
          }
          assert LiveOf(d) + Live(RestAt(bs, blocks, next)) == Live(RestAt(bs, blocks, next));
        }
      }
      AtEnd(bs, blocks, next);
      return None, next;
    }

    /** A full pass of readdir over an unmodified directory ends and yields each binding once. */
    method ReadAll() returns (out: seq<Entry>)
      requires Valid(bs, blocks)
      ensures out == Live(All(blocks)) && |out| == |Bind(All(blocks))|
      ensures forall i, j :: 0 <= i < j < |out| ==> out[i].name != out[j].name
      ensures forall n :: n in Bind(All(blocks)) ==> exists k :: 0 <= k < |out| && out[k] == Entry(n, Bind(All(blocks))[n])
      ensures forall k :: 0 <= k < |out| ==> out[k].name in Bind(All(blocks)) && Bind(All(blocks))[out[k].name] == out[k].target
    {
      hide Recs, RecOk, RecAt, Next, RestAt, All, Live, Distinct, Tiled, RecSize, Bind;
      out := [];
      var pos: nat := 0;
      AtStart(bs, blocks);
      var more := true;
      while more
        invariant !more ==> Live(All(blocks)) == out
        invariant more ==> Live(All(blocks)) == out + Live(RestAt(bs, blocks, pos))
        decreases if more then 1 else 0, bs * |blocks| - pos
      {
        var e, next := Readdir(pos);
        if e.None? {
          more := false;
        } else {
          assert out + ([e.value] + Live(RestAt(bs, blocks, next))) == out + [e.value] + Live(RestAt(bs, blocks, next));
          out := out + [e.value];
          pos := next;
        }
      }
      LiveSound(All(blocks));
      LiveComplete(All(blocks));
      LiveOnce(All(blocks));
      LiveIff(All(blocks), out);
    }
  }
}

/** A file system on which ext2_truncate loses a block (kernel/fs/ext2.c:722-745): 21 blocks, all in
    use; inode 1 holds one indirect block, 20, which points to one data block, 21, and there is no
    memory to copy block 20. */
module Ext2Lost {
  import opened Ext2Map
  import opened Ext2Tree
  import opened Ext2Bitmap
  import opened Ext2Growth
  import opened Ext2Cut
  import opened Ext2Shrink
  import opened Ext2File
  import opened Ext2Fs

  const Kib: Geo := Geo(256)                // blocks of 1 KiB, 2 sectors each

  /** The bytes of block 20: 0x15 and 1023 zeros. */
  function Index(): (b: Block)
    ensures |b| == 1024
  {
    seq(1024, i => if i == 0 then 0x15 else 0)
  }

  function OneIndirect(): (s: Store) {
    Store(map b | b in AllBlocks() :: if b == 20 then Index() else ZeroBlock(Kib), map[1 := seq(15, i => if i == 12 then 20 else 0)])
  }

  const Held: set<Loc> := {[1, 12], [1, 12, 0]}

  function BlocksBelow(n: nat): (r: set<nat>)
    ensures forall b: nat :: b in r <==> 0 < b < n
  {
    if n <= 1 then {} else BlocksBelow(n - 1) + {n - 1}
  }

  /** Blocks 1 to 21. */
  function AllBlocks(): (r: set<nat>)
    ensures forall b: nat :: b in r <==> 0 < b < 22
  {
    BlocksBelow(22)
  }

  lemma Pointers(k: nat)
    requires k < 256
    ensures Ptr(Index(), k) == if k == 0 then 21 else 0
    ensures Ptr(ZeroBlock(Kib), k) == 0
  {
  }

  lemma AtOf(p: Loc)
    requires ValidLoc(Kib, p)
    ensures At(OneIndirect(), p) == if p == [1, 12] then 20 else if p == [1, 12, 0] then 21 else 0
  {
    hide Index, ZeroBlock, Ptr;
    var s := OneIndirect();
    if |p| == 2 {
      assert p == [p[0], p[1]];
    } else {
      var u := Parent(p);
      ParentValid(Kib, p);
      if |p| == 3 {
        assert u == [p[0], p[1]] && p == [p[0], p[1], p[2]];
        Pointers(p[2]);
      } else {
        AtDeep(p);
      }
    }
  }

  /** Only the single indirect slot is used, so nothing is held further down. */
  lemma AtDeep(p: Loc)
    requires ValidLoc(Kib, p) && |p| > 3
    ensures At(OneIndirect(), p) == 0
  {
    hide Index, ZeroBlock, Ptr;
    var s := OneIndirect();
    var q := p[..2];
    assert p[1] != 12;
    assert At(s, q) == 0;
    assert At(s, p[..3]) == 0 by { assert Parent(p[..3]) == q; }
    assert At(s, p[..4]) == 0 by { assert Parent(p[..4]) == p[..3]; }
    if |p| == 4 {
      assert p[..4] == p;
    } else {
      assert Parent(p) == p[..4];
    }
  }

  lemma ZeroSize()
    ensures |ZeroBlock(Kib)| == 1024
  {
  }

  lemma HeldForest()
    ensures WellFormed(Kib, OneIndirect()) && Forest(Kib, OneIndirect(), Held) && Owned(OneIndirect(), Held, AllBlocks())
  {
    hide At, Index, ZeroBlock;
    forall p | ValidLoc(Kib, p) ensures At(OneIndirect(), p) == if p == [1, 12] then 20 else if p == [1, 12, 0] then 21 else 0 {
      AtOf(p);
    }
    ZeroSize();
  }

  lemma HeldSectors()
    ensures SectorsExact(Held, map[1 := 0], map[1 := 4], 2)
  {
    var a: Loc, b: Loc := [1, 12], [1, 12, 0];
    assert a != b && Held == {a} + {b};
    assert LiveOf(Held, 1) == Held && |Held| == 2;
  }

  /** The file system is consistent: every invariant that the operations keep holds of it. */
  lemma StartsConsistent()
    ensures Consistent(Kib, OneIndirect(), Held, AllBlocks(), 22, map[1 := 0], map[1 := 4], 2)
  {
    hide WellFormed, Forest, Owned, SectorsExact, Index, ZeroBlock;
    HeldForest();
    HeldSectors();
  }

  /** Truncating to nothing removes both blocks and frees one of them. */
  lemma OneFreed()
    ensures var s, gone := OneIndirect(), Beyond(Kib, Tree(Held, 1), 0);
            gone == Held && Freeable(s, gone, {20}) == {[1, 12]} && Strands(s, gone, {20}, [1, 12], 0) && Blocks(s, {[1, 12]}) == {20}
  {
    hide At, Index, ZeroBlock, Base;
    var s := OneIndirect();
    HeldForest();
    AtOf([1, 12]);
    AtOf([1, 12, 0]);
    TreeIsLiveOf(Kib, s, Held, 1);
    var gone := Beyond(Kib, Tree(Held, 1), 0);
    assert gone == Held;
    var a: Loc, b: Loc := [1, 12], [1, 12, 0];
    assert a < b && a + [0] == b;
    assert Stranded(s, gone, {20}, b);
    assert !Stranded(s, gone, {20}, a);
  }

  /** Whatever the cut leaves on disk, block 21 stays marked used and no location of any inode holds it. */
  lemma BlockLost(s': Store, c: Counters, c': Counters)
    requires Cut(Kib, 2, OneIndirect(), s', Held, 1, 0, c, c', {20}) && 21 in c.used
    ensures 21 in c'.used && 20 !in c'.used && c'.free == c.free + 1
    ensures forall p :: ValidLoc(Kib, p) ==> At(s', p) == 0
  {
    hide At, Index, ZeroBlock, Base, CutIn, SameElse, Beyond, Tree, Freeable, SlotsCut;
    OneFreed();
    CutMapping(Kib, 2, OneIndirect(), s', Held, 1, 0, c, c', {20});
    forall p | ValidLoc(Kib, p) ensures At(s', p) == 0 {
      AtOf(p);
    }
  }

  /** The bitmap of 21 used blocks. */
  const Layout21: Layout := Layout(1, 22, 24)

  lemma LayoutIs()
    ensures Layout21.Valid() && Layout21.Groups() == 1 && Layout21.NBits(0) == 21
  {
    DivUnique(44, 24, 1, 20);
  }

  lemma BitsOn(i: nat)
    requires i < 24
    ensures Bit([0xFF, 0xFF, 0xFF], i)
  {
    hide Test;
    OneBits(i % 8);
  }

  lemma BitmapCounted()
    ensures Layout21.Valid() && Layout21.Groups() == 1 && Counted(Layout21, [[0xFF, 0xFF, 0xFF]], [0], 0)
  {
    hide ZeroBits, Bit, Layout.Groups, Layout.NBits;
    LayoutIs();
    forall i | 0 <= i < 24 ensures Bit([0xFF, 0xFF, 0xFF], i) {
      BitsOn(i);
    }
  }

  lemma BitmapFull()
    ensures Layout21.Valid() && Layout21.Groups() == 1
    ensures Holds(Layout21, [[0xFF, 0xFF, 0xFF]], AllBlocks()) && Counted(Layout21, [[0xFF, 0xFF, 0xFF]], [0], 0)
  {
    hide Counted, Bit, Layout.Groups, Layout.NBits;
    LayoutIs();
    BitmapCounted();
    forall i | 0 <= i < 24 ensures Bit([0xFF, 0xFF, 0xFF], i) {
      BitsOn(i);
    }
  }

  lemma OneBits(k: nat)
    requires k < 8
    ensures Test(0xFF, k)
  {
  }

  lemma AllZero(x: nat)
    ensures FileByte(Kib, OneIndirect(), 1, x) == 0
  {
    hide At, Index, BlockIndex, BlockOffset, BlockPath, MaxBlocks;
    var s := OneIndirect();
    var f := BlockIndex(Kib, x);
    PathHasBase(Kib, 1, f);
    var p := BlockPath(Kib, 1, f);
    if p == [] {
      NoLocation();
    } else {
      AtOf(p);
      assert p != [1, 12];
    }
    assert s.disk[21] == ZeroBlock(Kib);
    assert At(s, p) == 0 || At(s, p) == 21;
  }

  lemma NoLocation()
    ensures At(OneIndirect(), []) == 0
  {
  }

  /** The file system as mounted, with a file of 13 KiB. */
  method Mounted() returns (fs: Ext2)
    ensures fresh(fs) && fresh(fs.alloc) && fs.Valid() && fs.Files() && fs.g == Kib && fs.spb == 2 && fs.s == OneIndirect() && fs.live == Held
    ensures fs.alloc.used == AllBlocks() && fs.size == map[1 := 13312] && 1 in fs.sectors && fs.lost == map[1 := 0]
  {
    hide Consistent, Holds, Counted, OneIndirect, AllBlocks, FileByte;
    BitmapFull();
    StartsConsistent();
    Inodes();
    forall x: nat ensures FileByte(Kib, OneIndirect(), 1, x) == 0 {
      AllZero(x);
    }
    var alloc := new BlockAllocator(Layout21, [[0xFF, 0xFF, 0xFF]], [0], 0, AllBlocks());
    fs := new Ext2(Kib, 2, 1, alloc, OneIndirect(), map[1 := 4], map[1 := 13312], Held, map[1 := 0]);
  }

  /** On these bytes bmap finds block 21 for file block 12, and a hole after it. */
  method FollowBytes() returns (first: nat, second: nat)
    ensures first == 21 && second == 0
  {
    hide *;
    var fs := Mounted();
    Inodes();
    FewBlocks();
    AtOf([1, 12, 0]);
    AtOf([1, 12, 1]);
    ghost var s, sectors, live, used, free := fs.s, fs.sectors, fs.live, fs.alloc.used, fs.alloc.sbFree;
    var err;
    err, first := fs.Bmap(1, 12, false);
    Unmoved(fs, s, sectors, live, used, free);
    s, sectors, live, used, free := fs.s, fs.sectors, fs.live, fs.alloc.used, fs.alloc.sbFree;
    err, second := fs.Bmap(1, 13, false);
    Unmoved(fs, s, sectors, live, used, free);
  }

  lemma Unmoved(fs: Ext2, s: Store, sectors: map<nat, nat>, live: set<Loc>, used: set<nat>, free: nat)
    requires fs.Unchanged(s, sectors, live, used, free)
    ensures fs.s == s
  {
  }

  lemma Inodes()
    ensures OneIndirect().roots.Keys == {1}
  {
  }

  /** What the contract of Truncate means here. */
  lemma Afterwards(s': Store, c: Counters, c': Counters, lost': map<nat, nat>)
    requires c.used == AllBlocks()
    requires var gone := Beyond(Kib, Tree(Held, 1), 0);
             Freed(OneIndirect(), c, c', Freeable(OneIndirect(), gone, {20}), 2)
             && LostMore(map[1 := 0], lost', 1, gone, Freeable(OneIndirect(), gone, {20}))
    requires forall p :: ValidLoc(Kib, p) ==> At(s', p) == if Removed(Kib, 1, 0, p) then 0 else At(OneIndirect(), p)
    ensures 21 in c'.used && 20 !in c'.used && 1 in lost' && lost'[1] == 1
    ensures forall p :: ValidLoc(Kib, p) ==> At(s', p) == 0
  {
    hide At, Index, ZeroBlock, Base, Beyond, Tree, Freeable;
    OneFreed();
    forall p | ValidLoc(Kib, p) ensures At(s', p) == 0 {
      AtOf(p);
    }
    var a: Loc, b: Loc := [1, 12], [1, 12, 0];
    assert a != b && Held == {a} + {b};
    assert |Held| == 2 && |{a}| == 1;
  }

  /** The run: on this file system, truncating inode 1 to nothing leaves block 21 used, held by no
      location of any inode, and counted as lost. */
  method LoseBlock() returns (fs: Ext2)
    ensures fs.Valid() && 21 in fs.alloc.used && 20 !in fs.alloc.used
    ensures forall p :: ValidLoc(Kib, p) ==> At(fs.s, p) == 0
    ensures 1 in fs.lost && fs.lost[1] == 1
  {
    hide *;
    fs := Mounted();
    fs.CtrIs(1);
    ghost var c := fs.Ctr(1);
    NoBlocks();
    Sizes();
    fs.Truncate(1, 0, {20});
    fs.CtrIs(1);
    Afterwards(fs.s, c, fs.Ctr(1), fs.lost);
  }

  lemma FewBlocks()
    ensures BlockPath(Kib, 1, 12) == [1, 12, 0] && BlockPath(Kib, 1, 13) == [1, 12, 1] && 13 < MaxBlocks(Kib)
    ensures ValidLoc(Kib, [1, 12, 0]) && ValidLoc(Kib, [1, 12, 1]) && Kib.apb > 0
  {
  }

  lemma NoBlocks()
    ensures Kib.apb > 0 && KeepBlocks(Kib, 0) == 0
  {
    DivUnique(1023, 1024, 0, 1023);
  }

  lemma Sizes()
    ensures 1 in map[1 := 13312]
  {
  }
}

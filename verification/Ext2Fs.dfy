/** ext2 files over the block forest: bmap, read, write and truncate
    (kernel/fs/ext2.c:575-817). */
module Ext2Fs {
  import opened Ext2Map
  import opened Ext2Tree
  import opened Ext2Bitmap
  import opened Ext2Growth
  import opened Ext2Cut
  import opened Ext2Shrink
  import opened Ext2File

  datatype Errno = OK | EFBIG | ENOSPC

  class Ext2 {
    const g: Geo
    const spb: nat                     // sectors per block
    const ipg: nat                     // s_inodes_per_group
    const alloc: BlockAllocator
    var s: Store
    var sectors: map<nat, nat>         // i_blocks
    var size: map<nat, nat>            // i_size
    ghost var live: set<Loc>           // the locations that hold a block
    ghost var lost: map<nat, nat>      // blocks of each inode leaked by free_tree

    ghost predicate Valid()
      reads this, alloc
    {
      && alloc.Valid() && alloc.l.count <= 0x1_0000_0000
      && Consistent(g, s, live, alloc.used, alloc.l.count, lost, sectors, spb)
      && size.Keys == s.roots.Keys
    }

    /** A mounted file system whose on-disk state is consistent. */
    constructor (g: Geo, spb: nat, ipg: nat, alloc: BlockAllocator, s: Store, sectors: map<nat, nat>, size: map<nat, nat>,
                 ghost live: set<Loc>, ghost lost: map<nat, nat>)
      requires alloc.Valid() && alloc.l.count <= 0x1_0000_0000 && size.Keys == s.roots.Keys
      requires Consistent(g, s, live, alloc.used, alloc.l.count, lost, sectors, spb)
      ensures Valid() && this.alloc == alloc && this.s == s && this.size == size && this.live == live
      ensures this.g == g && this.spb == spb && this.sectors == sectors && this.lost == lost
    {
      this.g, this.spb, this.ipg, this.alloc, this.s := g, spb, ipg, alloc, s;
      this.sectors, this.size, this.live, this.lost := sectors, size, live, lost;
    }

    /** Allocates a zeroed block and stores its number in the hole at `loc`. */
    method Attach(loc: Loc, goal: nat) returns (b: nat)
      requires Valid() && ValidLoc(g, loc) && loc[0] in s.roots && At(s, loc) == 0
      requires |loc| > 2 ==> Parent(loc) in live
      modifies this`s, this`sectors, this`live, alloc
      ensures Valid() && size == old(size) && s.roots.Keys == old(s.roots.Keys)
      ensures b == 0 <==> old(alloc.Full())
      ensures b == 0 ==> s == old(s) && live == old(live) && alloc.used == old(alloc.used) && alloc.Full()
      ensures b != 0 ==> b !in old(alloc.used) && alloc.used == old(alloc.used) + {b}
      ensures b != 0 ==> live == old(live) + {loc} && At(s, loc) == b
      ensures b != 0 ==> Keeps(g, old(s), s, old(live)) && NewZero(g, s, old(live), live)
      ensures b != 0 ==> alloc.l.FirstFree(old(alloc.used), goal, b)
    {
      hide At, Child, SetSlot, HasSlot, ValidLoc, BlockAllocator.Full, BlockAllocator.Valid, Layout.Valid, Parent, Consistent, Keeps, NewZero, CanAttach, ZeroBlock;
      InUse();
      LocLength(g, loc);
      b := alloc.Alloc(goal);
      if b != 0 {
        var s1 := s.(disk := s.disk[b := ZeroBlock(g)]);
        AttachStep(g, s, s1, live, old(alloc.used), alloc.l.count, lost, sectors, spb, loc, b);
        s := SetSlot(s1, loc, b);
        sectors := sectors[loc[0] := sectors[loc[0]] + spb];
        live := live + {loc};
      }
    }

    lemma InUse()
      requires Valid()
      ensures 0 in alloc.used || alloc.l.first > 0
      ensures sectors.Keys == s.roots.Keys == lost.Keys && 0 < g.apb && alloc.Valid()
      ensures WellFormed(g, s) && Forest(g, s, live)
    {
    }

    ghost predicate Unchanged(s0: Store, sectors0: map<nat, nat>, live0: set<Loc>, used0: set<nat>, free0: nat)
      reads this, alloc
    {
      s == s0 && sectors == sectors0 && live == live0 && alloc.used == used0 && alloc.sbFree == free0
    }

    /** One level of bmap: follow the pointer at path[..n + 1], or fill the hole there. */
    method Step(path: Loc, n: nat, create: bool, goal: nat) returns (err: Errno, next: nat)
      requires Valid() && ValidLoc(g, path) && path[0] in s.roots && 1 <= n < |path|
      requires n > 1 ==> path[..n] in live
      modifies this`s, this`sectors, this`live, alloc
      ensures Valid() && err != EFBIG && size == old(size)
      ensures Grew(g, old(s), s, old(live), live, path) && old(alloc.used) <= alloc.used
      ensures err == OK ==> next == At(s, path[..n + 1]) && (create ==> next != 0)
      ensures err == OK && next != 0 ==> path[..n + 1] in live
      ensures !create ==> err == OK && Unchanged(old(s), old(sectors), old(live), old(alloc.used), old(alloc.sbFree))
      ensures err == ENOSPC ==> alloc.Full()
      ensures old(At(s, path[..n + 1])) != 0 ==> err == OK && Unchanged(old(s), old(sectors), old(live), old(alloc.used), old(alloc.sbFree))
      ensures create && err == OK && old(At(s, path[..n + 1])) == 0 ==> alloc.l.FirstFree(old(alloc.used), goal, next)
    {
      hide *;
      InUse();
      LocLength(g, path);
      PathSteps(g, s, path, n + 1);
      if n == 1 {
        RootAt(g, s, path);
        next := s.roots[path[0]][path[1]];
      } else {
        PathSteps(g, s, path, n);
        next := Child(s.disk, At(s, path[..n]), path[n]);
      }
      HeldIsLive(g, s, live, path[..n + 1]);
      GrewSelf(g, s, live, path);
      NothingYet();
      err := OK;
      if next == 0 && create {
        next := Attach(path[..n + 1], goal);
        if next == 0 {
          err := ENOSPC;
        } else {
          GrewAttached(g, old(s), s, old(live), path, n + 1);
        }
      }
    }

    /** Where bmap puts a block when it was the only one missing on the way: the first free one from the start
        of the inode's group on, or from its index block on. */
    ghost predicate Placed(ino: nat, path: Loc, n: nat, s0: Store, used0: set<nat>, out: nat)
      requires 2 <= n <= |path| && alloc.l.Valid()
    {
      && (n == 2 && At(s0, path[..n]) == 0 ==> alloc.l.FirstFree(used0, GroupStart(ino), out))
      && (n > 2 && At(s0, path[..n - 1]) != 0 && At(s0, path[..n]) == 0 ==> alloc.l.FirstFree(used0, At(s0, path[..n - 1]) + 1, out))
    }

    /** One more level of the path. */
    lemma PlacedNext(ino: nat, path: Loc, n: nat, s0: Store, used0: set<nat>, prev: nat, out: nat)
      requires 1 <= n < |path| && alloc.l.Valid()
      requires n == 1 && At(s0, path[..n + 1]) == 0 ==> alloc.l.FirstFree(used0, GroupStart(ino), out)
      requires n > 1 && At(s0, path[..n]) != 0 && At(s0, path[..n + 1]) == 0 ==> prev == At(s0, path[..n]) && alloc.l.FirstFree(used0, prev + 1, out)
      ensures Placed(ino, path, n + 1, s0, used0, out)
    {
      hide At, Layout.FirstFree;
    }

    lemma HeldAbove(path: Loc, n: nat, s0: Store)
      requires WellFormed(g, s0) && 2 <= n < |path| && At(s0, path[..n + 1]) != 0
      ensures At(s0, path[..n]) != 0
    {
      hide At, WellFormed;
      assert path[..n + 1][..n] == path[..n];
      if At(s0, path[..n]) == 0 {
        HoleBelow(g, s0, path[..n + 1], n);
      }
    }

    lemma LayoutOk()
      requires Valid()
      ensures alloc.l.Valid()
    {
    }

    /** bmap: the disk block of file block `f`, filling holes when `create` is set. */
    method Bmap(ino: nat, f: nat, create: bool) returns (err: Errno, out: nat)
      requires Valid() && ino in s.roots
      modifies this`s, this`sectors, this`live, alloc
      ensures Valid() && size == old(size)
      ensures err == EFBIG <==> f >= MaxBlocks(g)
      ensures Grew(g, old(s), s, old(live), live, BlockPath(g, ino, f)) && old(alloc.used) <= alloc.used
      ensures err == OK ==> out == At(s, BlockPath(g, ino, f)) && (create ==> out != 0)
      ensures !create ==> err != ENOSPC && Unchanged(old(s), old(sectors), old(live), old(alloc.used), old(alloc.sbFree))
      ensures err == ENOSPC ==> alloc.Full()
      ensures alloc.l.Valid() && (err == OK ==> |BlockPath(g, ino, f)| >= 2)
      ensures err == OK && create ==> Placed(ino, BlockPath(g, ino, f), |BlockPath(g, ino, f)|, old(s), old(alloc.used), out)
    {
      hide *;
      InUse();
      LayoutOk();
      PathHasBase(g, ino, f);
      var path := BlockPath(g, ino, f);
      GrewSelf(g, s, live, path);
      NothingYet();
      if path == [] {
        return EFBIG, 0;
      }
      LocLength(g, path);
      var n := 1;
      out := 0;
      while n < |path|
        invariant 1 <= n <= |path| && Valid() && size == old(size) && Grew(g, old(s), s, old(live), live, path)
        invariant ino in s.roots && old(alloc.used) <= alloc.used
        invariant n > 1 ==> path[..n] in live && out == At(s, path[..n]) && out != 0
        invariant !create ==> Unchanged(old(s), old(sectors), old(live), old(alloc.used), old(alloc.sbFree))
        invariant n == 1 || At(old(s), path[..n]) != 0 ==> s == old(s) && alloc.used == old(alloc.used)
        invariant n > 1 && create ==> Placed(ino, path, n, old(s), old(alloc.used), out)
      {
        if n > 1 && At(old(s), path[..n + 1]) != 0 {
          HeldAbove(path, n, old(s));
        }
        ghost var prev, held := out, At(s, path[..n + 1]) != 0;
        ghost var s1, sectors1, live1, used1, free1 := s, sectors, live, alloc.used, alloc.sbFree;
        InUse();
        if !create {
          NothingDone(old(s), old(sectors), old(live), old(alloc.used), old(alloc.sbFree));
        }
        err, out := Step(path, n, create, if n == 1 then GroupStart(ino) else out + 1);
        GrewThrough(g, old(s), s1, s, old(live), live1, live, path);
        if !create {
          NothingDone(s1, sectors1, live1, used1, free1);
        }
        if err == ENOSPC {
          return;
        }
        if out == 0 {
          InUse();
          HoleBelow(g, s, path, n + 1);
          return;
        }
        if held {
          NothingDone(s1, sectors1, live1, used1, free1);
        }
        PlacedNext(ino, path, n, old(s), old(alloc.used), prev, out);
        n := n + 1;
      }
      PathSteps(g, s, path, |path|);
      err := OK;
    }

    lemma NothingYet()
      ensures Unchanged(s, sectors, live, alloc.used, alloc.sbFree)
    {
    }

    lemma NothingDone(s0: Store, sectors0: map<nat, nat>, live0: set<Loc>, used0: set<nat>, free0: nat)
      requires Unchanged(s0, sectors0, live0, used0, free0)
      ensures s == s0 && sectors == sectors0 && live == live0 && alloc.used == used0 && alloc.sbFree == free0
    {
    }

    /** The first block of the group of an inode. */
    function GroupStart(ino: nat): nat {
      if ipg == 0 || ino == 0 then alloc.l.first else alloc.l.first + (ino - 1) / ipg * alloc.l.bpg
    }

    /** It is a block of that group when the group is there. */
    lemma GroupStartIs(ino: nat)
      requires alloc.l.Valid() && ipg > 0 && ino > 0 && (ino - 1) / ipg < alloc.l.Groups()
      ensures alloc.l.first <= GroupStart(ino) && alloc.l.GroupOf(GroupStart(ino)) == (ino - 1) / ipg && alloc.l.BitOf(GroupStart(ino)) == 0
    {
      DivUnique((ino - 1) / ipg * alloc.l.bpg, alloc.l.bpg, (ino - 1) / ipg, 0);
    }

    /** How many bytes a read of `len` at `off` may return. */
    function Available(ino: nat, off: nat, len: nat): nat
      reads this
      requires ino in size
    {
      if off >= size[ino] then 0 else if len < size[ino] - off then len else size[ino] - off
    }

    /** The copy loop of ext2_read. */
    method ReadBlocks(ino: nat, off: nat, len: nat) returns (data: seq<Byte>, err: Errno)
      requires Valid() && ino in s.roots && ino in size
      modifies this`s, this`sectors, this`live, alloc
      ensures Valid() && Unchanged(old(s), old(sectors), old(live), old(alloc.used), old(alloc.sbFree))
      ensures g.apb > 0 && Matches(g, s, ino, off, data)
      ensures err != ENOSPC && |data| <= Available(ino, off, len)
      ensures err == OK ==> |data| == Available(ino, off, len)
      ensures err == EFBIG ==> |data| < Available(ino, off, len) && BlockIndex(g, off + |data|) >= MaxBlocks(g)
    {
      hide At, BlockPath, MaxBlocks, BlockIndex, BlockOffset, FileByte, Consistent, BlockAllocator.Valid, Grew;
      InUse();
      data, err := [], OK;
      var want := Available(ino, off, len);
      while |data| < want
        invariant Valid() && Unchanged(old(s), old(sectors), old(live), old(alloc.used), old(alloc.sbFree))
        invariant |data| <= want && err == OK && Matches(g, s, ino, off, data)
      {
        var pos := off + |data|;
        var n := ChunkSize(g, pos, want - |data|);
        var b;
        err, b := Bmap(ino, BlockIndex(g, pos), false);
        if err != OK {
          return;
        }
        HeldOnDisk(ino, BlockIndex(g, pos));
        var chunk := ChunkOf(g, s, b, BlockOffset(g, pos), n);
        ChunkAppend(g, s, ino, off, data, n, chunk);
        data := data + chunk;
      }
    }

    lemma HeldOnDisk(ino: nat, f: nat)
      requires Valid() && g.apb > 0
      ensures WellFormed(g, s) && Forest(g, s, live)
      ensures var p := BlockPath(g, ino, f); At(s, p) != 0 ==> p in live && At(s, p) in s.disk && |s.disk[At(s, p)]| == g.BlockSize()
    {
      PathHasBase(g, ino, f);
    }

    /** One chunk of ext2_write. */
    method WriteChunk(ino: nat, pos: nat, chunk: seq<Byte>, ghost s0: Store, ghost off: nat, ghost data: seq<Byte>) returns (err: Errno)
      requires Valid() && ino in s.roots && g.apb > 0
      requires 0 < |chunk| && BlockOffset(g, pos) + |chunk| <= g.BlockSize()
      requires pos == off + |data| && Written(g, s0, s, ino, off, data)
      modifies this`s, this`sectors, this`live, alloc
      ensures Valid() && size == old(size) && s.roots.Keys == old(s.roots.Keys)
      ensures Written(g, s0, s, ino, off, if err == OK then data + chunk else data)
      ensures err == EFBIG <==> BlockIndex(g, pos) >= MaxBlocks(g)
      ensures err == ENOSPC ==> alloc.Full()
    {
      hide *;
      InUse();
      ghost var s1, live1 := s, live;
      var f := BlockIndex(g, pos);
      var b;
      err, b := Bmap(ino, f, true);
      InUse();
      GrewRoots(g, s1, s, live1, live, BlockPath(g, ino, f));
      WrittenGrow(g, s0, s1, s, live1, live, ino, off, data, BlockPath(g, ino, f));
      if err != OK {
        return;
      }
      HeldOnDisk(ino, f);
      var content := Splice(s.disk[b], BlockOffset(g, pos), chunk);
      ghost var s2 := s;
      StoreBlock(ino, f, content);
      WrittenChunk(g, s0, s2, s, live, ino, off, data, chunk);
    }

    /** bwrite of the data block of file block `f`. */
    method StoreBlock(ino: nat, f: nat, content: Block)
      requires Valid() && g.apb > 0 && f < MaxBlocks(g) && BlockPath(g, ino, f) in live && |content| == g.BlockSize()
      modifies this`s
      ensures Valid()
      ensures s == old(s).(disk := old(s).disk[old(At(s, BlockPath(g, ino, f))) := content])
      ensures forall p :: ValidLoc(g, p) ==> At(s, p) == At(old(s), p)
    {
      hide At, BlockPath, MaxBlocks, Consistent, BlockAllocator.Valid, ValidLoc, Height;
      var p := BlockPath(g, ino, f);
      ghost var s0 := s;
      PathHasBase(g, ino, f);
      s := s.(disk := s.disk[At(s, p) := content]);
      DataWriteConsistent(g, s0, s, live, alloc.used, alloc.l.count, lost, sectors, spb, p, content);
    }

    /** The copy loop of ext2_write: what was accepted is in the file, everything else is
        unchanged; a short count means a full disk or the end of the addressable range. */
    method CopyIn(ino: nat, off: nat, data: seq<Byte>) returns (done: nat, err: Errno)
      requires Valid() && ino in s.roots && g.apb > 0
      modifies this`s, this`sectors, this`live, alloc
      ensures Valid() && done <= |data| && s.roots.Keys == old(s.roots.Keys)
      ensures Written(g, old(s), s, ino, off, data[..done])
      ensures err == OK <==> done == |data|
      ensures err == EFBIG ==> BlockIndex(g, off + done) >= MaxBlocks(g)
      ensures err == ENOSPC ==> alloc.Full()
    {
      hide *;
      done, err := 0, OK;
      assert data[..0] == [];
      WrittenNothing(g, s, ino, off);
      while done < |data|
        invariant done <= |data| && Valid() && s.roots.Keys == old(s.roots.Keys)
        invariant err == OK && Written(g, old(s), s, ino, off, data[..done])
      {
        var pos, n := off + done, ChunkSize(g, off + done, |data| - done);
        var chunk := data[done..done + n];
        err := WriteChunk(ino, pos, chunk, old(s), off, data[..done]);
        if err != OK {
          break;
        }
        assert data[..done] + chunk == data[..done + n];
        done := done + n;
      }
    }

    /** MIN(len - done, block_size - in_block). */
    static function ChunkSize(g: Geo, pos: nat, left: nat): (n: nat)
      requires g.apb > 0
      ensures n <= left && BlockOffset(g, pos) + n <= g.BlockSize() && (left > 0 ==> n > 0)
    {
      if left < g.BlockSize() - BlockOffset(g, pos) then left else g.BlockSize() - BlockOffset(g, pos)
    }

    method WriteBlocks(ino: nat, off: nat, data: seq<Byte>) returns (done: nat, err: Errno)
      requires Valid() && ino in s.roots && ino in size
      modifies this`s, this`size, this`sectors, this`live, alloc
      ensures Valid() && done <= |data| && g.apb > 0
      ensures Written(g, old(s), s, ino, off, data[..done])
      ensures s.roots.Keys == old(s.roots.Keys) && size == old(size)[ino := SizeAfterWrite(old(size[ino]), off, done)]
      ensures err == OK <==> done == |data|
      ensures err == EFBIG ==> BlockIndex(g, off + done) >= MaxBlocks(g)
      ensures err == ENOSPC ==> alloc.Full()
    {
      hide BlockIndex, MaxBlocks, Consistent, BlockAllocator.Valid, Written, BlockAllocator.Full;
      InUse();
      done, err := CopyIn(ino, off, data);
      size := size[ino := SizeAfterWrite(size[ino], off, done)];
    }

    // ---- Truncation ----

    ghost function Ctr(ino: nat): Counters
      reads this, alloc
      requires ino in sectors
    {
      Counters(alloc.used, alloc.sbFree, sectors[ino])
    }

    /** The subtree at `loc` of the store `s0` that the truncation started from is still
        whole: its blocks are unchanged on disk, in use and counted. */
    ghost predicate Whole(s0: Store, loc: Loc)
      reads this, alloc
    {
      && alloc.Valid() && WellFormed(g, s0) && Forest(g, s0, live) && ValidLoc(g, loc) && loc[0] in sectors
      && Intact(s0, s.disk, Under(live, loc))
      && Blocks(s0, Under(live, loc)) <= alloc.used
      && |Under(live, loc)| * spb <= sectors[loc[0]]
    }

    /** free_block of one block of the tree. */
    method FreeOne(ino: nat, blk: nat, ghost s0: Store, ghost loc: Loc)
      requires alloc.Valid() && ino in sectors && blk == At(s0, loc) && blk != 0 && blk in alloc.used && spb <= sectors[ino]
      modifies this`sectors, alloc
      ensures alloc.Valid() && sectors == old(sectors)[ino := old(sectors[ino]) - spb]
      ensures Freed(s0, old(Ctr(ino)), Ctr(ino), {loc}, spb)
    {
      hide BlockAllocator.Valid, At, Freed;
      alloc.Free(blk);
      sectors := sectors[ino := sectors[ino] - spb];
      FreedOne(s0, old(Ctr(ino)), Ctr(ino), loc, spb);
    }

    /** The pointers of an index block that is still whole lead to whole subtrees. */
    lemma ChildWhole(s0: Store, loc: Loc, i: nat, c: Counters, freed: set<Loc>)
      requires alloc.Valid() && WellFormed(g, s0) && Forest(g, s0, live) && ValidLoc(g, loc) && loc[0] in sectors
      requires loc in live && Height(loc) > 0 && i < g.apb
      requires Intact(s0, s.disk, Under(live, loc))
      requires Blocks(s0, Under(live, loc)) <= c.used && |Under(live, loc)| * spb <= c.sectors
      requires Freed(s0, c, Ctr(loc[0]), freed, spb) && freed <= UnderBelow(live, loc, i)
      ensures Whole(s0, loc + [i]) && At(s0, loc + [i]) == Child(s.disk, At(s0, loc), i)
      ensures Height(loc + [i]) == Height(loc) - 1 && (loc + [i])[0] == loc[0]
    {
      hide BlockAllocator.Valid, Freed, Under, UnderBelow, Blocks, Forest, WellFormed, ValidLoc, At, Child, Height, Intact;
      ChildFacts(g, s0, live, s.disk, loc, i);
      RegionLeft(g, s0, live, c, Ctr(loc[0]), freed, Under(live, loc + [i]), Under(live, loc), spb);
    }

    /** free_tree: the block and everything below it. `nomem` are the index blocks for whose copy
        kmalloc has no memory: what lies below one of them is lost, neither freed nor reachable. */
    method FreeTree(ino: nat, blk: nat, h: nat, nomem: set<nat>, ghost s0: Store, ghost loc: Loc)
      requires Whole(s0, loc) && loc[0] == ino && At(s0, loc) == blk && Height(loc) == h
      modifies this`sectors, alloc
      ensures alloc.Valid() && ino in sectors && sectors == old(sectors)[ino := sectors[ino]]
      ensures Freed(s0, old(Ctr(ino)), Ctr(ino), Freeable(s0, Under(live, loc), nomem), spb)
      decreases h, 1
    {
      hide *;
      WholeFacts(s0, loc);
      FreedNone(s0, Ctr(ino), spb);
      FreeableNone(s0, nomem);
      if blk == 0 {
        UnderHole(g, s0, live, loc);
        return;
      }
      FreeableIndex(g, s0, live, loc, nomem);
      ghost var below: set<Loc> := {};
      if h > 0 {
        if blk !in nomem {
          FreeChildren(ino, blk, h, nomem, s0, loc);
          below := Freeable(s0, UnderBelow(live, loc, g.apb), nomem);
        }
      } else {
        LeafBelow(g, s0, live, loc);
      }
      ghost var c := Ctr(ino);
      OneLeft(s0, loc, old(Ctr(ino)), below);
      FreeOne(ino, blk, s0, loc);
      FreedJoin(s0, old(Ctr(ino)), c, Ctr(ino), below, {loc}, spb);
      assert below + {loc} == Freeable(s0, Under(live, loc), nomem);
    }

    lemma WholeFacts(s0: Store, loc: Loc)
      requires Whole(s0, loc)
      ensures alloc.Valid() && WellFormed(g, s0) && Forest(g, s0, live) && ValidLoc(g, loc) && loc[0] in sectors && g.apb > 0
      ensures loc in live <==> At(s0, loc) != 0
      ensures Intact(s0, s.disk, Under(live, loc)) && Blocks(s0, Under(live, loc)) <= Ctr(loc[0]).used
      ensures |Under(live, loc)| * spb <= Ctr(loc[0]).sectors
    {
      hide BlockAllocator.Valid, Intact, Under, Blocks;
    }

    lemma OneLeft(s0: Store, loc: Loc, c: Counters, freed: set<Loc>)
      requires WellFormed(g, s0) && Forest(g, s0, live) && ValidLoc(g, loc) && loc[0] in sectors && loc in live
      requires Blocks(s0, Under(live, loc)) <= c.used && |Under(live, loc)| * spb <= c.sectors
      requires Freed(s0, c, Ctr(loc[0]), freed, spb) && freed <= UnderBelow(live, loc, g.apb)
      ensures At(s0, loc) in alloc.used && spb <= sectors[loc[0]] && loc !in freed
      ensures freed + {loc} <= Under(live, loc)
    {
      hide Freed, Under, UnderBelow, Forest, At;
      UnderAll(g, s0, live, loc);
      UnderLive(live, loc);
      RegionLeft(g, s0, live, c, Ctr(loc[0]), freed, {loc}, Under(live, loc), spb);
      assert At(s0, loc) in Blocks(s0, {loc});
      assert |{loc}| * spb == spb;
    }

    /** The loop of free_tree over the pointers of one index block that was copied. */
    method FreeChildren(ino: nat, blk: nat, h: nat, nomem: set<nat>, ghost s0: Store, ghost loc: Loc)
      requires Whole(s0, loc) && loc[0] == ino && At(s0, loc) == blk && Height(loc) == h && blk != 0 && h > 0
      modifies this`sectors, alloc
      ensures alloc.Valid() && ino in sectors && sectors == old(sectors)[ino := sectors[ino]]
      ensures Freed(s0, old(Ctr(ino)), Ctr(ino), Freeable(s0, UnderBelow(live, loc, g.apb), nomem), spb)
      decreases h, 0
    {
      hide *;
      WholeFacts(s0, loc);
      FreedNone(s0, Ctr(ino), spb);
      FreeableNone(s0, nomem);
      var i := 0;
      UnderNext(live, loc, 0, 1);
      while i < g.apb
        invariant i <= g.apb && alloc.Valid() && ino in sectors && sectors == old(sectors)[ino := sectors[ino]]
        invariant Freed(s0, old(Ctr(ino)), Ctr(ino), Freeable(s0, UnderBelow(live, loc, i), nomem), spb)
      {
        ghost var c, done, more := Ctr(ino), Freeable(s0, UnderBelow(live, loc, i), nomem), Freeable(s0, Under(live, loc + [i]), nomem);
        ChildWhole(s0, loc, i, old(Ctr(ino)), done);
        UnderNext(live, loc, i, i + 1);
        FreeTree(ino, Child(s.disk, blk, i), h - 1, nomem, s0, loc + [i]);
        FreedJoin(s0, old(Ctr(ino)), c, Ctr(ino), done, more, spb);
        UnrelatedChildren(live, loc, i);
        FreeableJoin(s0, UnderBelow(live, loc, i), Under(live, loc + [i]), nomem);
        i := i + 1;
      }
    }

    /** A subtree not yet visited is still whole. */
    lemma TodoWhole(s0: Store, d: map<nat, Block>, c: Counters, done: set<Loc>, all: set<Loc>, loc: Loc, keep: nat, nomem: set<nat>)
      requires alloc.Valid() && WellFormed(g, s0) && Forest(g, s0, live) && ValidLoc(g, loc) && loc[0] in sectors
      requires all <= live && done <= all && Under(live, loc) <= all && done !! Under(live, loc)
      requires Progress(g, spb, s0, d, s.disk, c, Ctr(loc[0]), done, keep, nomem)
      requires Intact(s0, d, all) && Blocks(s0, all) <= c.used && |all| * spb <= c.sectors
      ensures Whole(s0, loc)
    {
      hide BlockAllocator.Valid, WellFormed, Forest, ValidLoc, Progress, Intact, Blocks, Under;
      LocLength(g, loc);
      ProgressLeft(g, spb, s0, live, d, s.disk, c, Ctr(loc[0]), done, Under(live, loc), all, keep, nomem);
    }

    /** trunc_tree: the tree at `blk` covers the file blocks from `base` on; everything at or
        above `keep` is freed. Returns the pointer to store in the parent. */
    method TruncTree(ino: nat, blk: nat, h: nat, base: nat, keep: nat, nomem: set<nat>, ghost s0: Store, ghost loc: Loc)
      returns (ptr: nat)
      requires Whole(s0, loc) && loc[0] == ino && At(s0, loc) == blk && Height(loc) == h && Base(g, loc) == base
      modifies this`s, this`sectors, alloc
      ensures alloc.Valid() && ino in sectors && sectors == old(sectors)[ino := sectors[ino]] && s.roots == old(s.roots)
      ensures Progress(g, spb, s0, old(s.disk), s.disk, old(Ctr(ino)), Ctr(ino), Under(live, loc), keep, nomem)
      ensures ptr == if base >= keep then 0 else blk
      decreases h, 1
    {
      hide *;
      WholeFacts(s0, loc);
      ptr := blk;
      if blk == 0 {
        UnderHole(g, s0, live, loc);
        ProgressNone(g, spb, s0, s.disk, Ctr(ino), keep, nomem);
      } else if base >= keep {
        AllBeyond(g, s0, live, s.disk, loc, keep);
        FreeTree(ino, blk, h, nomem, s0, loc);
        FreedProgress(s0, s.disk, old(Ctr(ino)), Ctr(ino), Under(live, loc), keep, nomem);
        ptr := 0;
      } else if h == 0 || base + Span(g, h) <= keep {
        if h == 0 {
          SpanSmall(g);
        }
        NoneBeyond(g, s0, live, s.disk, loc, keep);
        ProgressSkip(g, spb, s0, s.disk, Ctr(ino), Under(live, loc), keep, nomem);
      } else {
        TruncChildren(ino, blk, h, base, keep, nomem, s0, loc);
      }
    }

    lemma FreedProgress(s0: Store, d: map<nat, Block>, c: Counters, c': Counters, region: set<Loc>, keep: nat, nomem: set<nat>)
      requires Freed(s0, c, c', Freeable(s0, region, nomem), spb)
      requires Beyond(g, region, keep) == region && CutIn(g, s0, d, region, keep)
      ensures Progress(g, spb, s0, d, d, c, c', region, keep, nomem)
    {
      hide Freed, CutIn, Beyond, Freeable;
    }

    /** The loop of trunc_tree over the pointers of one index block that stays. */
    method TruncChildren(ino: nat, blk: nat, h: nat, base: nat, keep: nat, nomem: set<nat>, ghost s0: Store, ghost loc: Loc)
      requires Whole(s0, loc) && loc[0] == ino && At(s0, loc) == blk && Height(loc) == h && Base(g, loc) == base
      requires blk != 0 && h > 0 && base < keep
      modifies this`s, this`sectors, alloc
      ensures alloc.Valid() && ino in sectors && sectors == old(sectors)[ino := sectors[ino]] && s.roots == old(s.roots)
      ensures Progress(g, spb, s0, old(s.disk), s.disk, old(Ctr(ino)), Ctr(ino), Under(live, loc), keep, nomem)
      decreases h, 0
    {
      hide *;
      WholeFacts(s0, loc);
      IndexOnDisk(s0, loc);
      ghost var d, c, was := s.disk, Ctr(ino), s.disk[blk];
      var ptrs, dirty, i := s.disk[blk], false, 0;
      ProgressNone(g, spb, s0, d, c, keep, nomem);
      PtrsStart(g, loc, was, keep);
      UnderNext(live, loc, 0, 1);
      while i < g.apb
        invariant i <= g.apb && alloc.Valid() && ino in sectors && sectors == old(sectors)[ino := sectors[ino]] && s.roots == old(s.roots)
        invariant Progress(g, spb, s0, d, s.disk, c, Ctr(ino), UnderBelow(live, loc, i), keep, nomem)
        invariant PtrsCut(g, loc, was, ptrs, keep, i) && (!dirty ==> ptrs == was)
      {
        ghost var d1, c1 := s.disk, Ctr(ino);
        PtrsLength(g, loc, was, ptrs, keep, i);
        PtrIsChild(s0.disk, blk, i);
        ChildValid(g, loc, i);
        ChildFacts(g, s0, live, d, loc, i);
        UnderNext(live, loc, i, i + 1);
        TodoWhole(s0, d, c, UnderBelow(live, loc, i), Under(live, loc), loc + [i], keep, nomem);
        var p := TruncChild(ino, Ptr(ptrs, i), h - 1, base + i * Span(g, h - 1), keep, nomem, s0, loc, i);
        JoinChild(g, live, loc, i, keep);
        ProgressJoin(g, spb, s0, live, d, d1, s.disk, c, c1, Ctr(ino), UnderBelow(live, loc, i), Under(live, loc + [i]), keep, nomem);
        if p != Ptr(ptrs, i) {
          PtrsDrop(g, loc, was, ptrs, keep, i, i + 1);
          ptrs, dirty := WithPtr(ptrs, i, p), true;
        } else {
          PtrsKeep(g, loc, was, ptrs, keep, i, i + 1);
        }
        i := i + 1;
      }
      FinishIndex(ino, blk, keep, nomem, ptrs, dirty, s0, loc, d, c);
    }

    /** Writes the copy of the index block back if a pointer was dropped. */
    method FinishIndex(ino: nat, blk: nat, keep: nat, nomem: set<nat>, ptrs: Block, dirty: bool, ghost s0: Store, ghost loc: Loc,
                       ghost d: map<nat, Block>, ghost c: Counters)
      requires alloc.Valid() && WellFormed(g, s0) && Forest(g, s0, live) && ValidLoc(g, loc) && loc in live && ino in sectors
      requires blk == At(s0, loc) && Base(g, loc) < keep
      requires blk in d && blk in s0.disk && d[blk] == s0.disk[blk] && |d[blk]| == g.BlockSize()
      requires Progress(g, spb, s0, d, s.disk, c, Ctr(ino), UnderBelow(live, loc, g.apb), keep, nomem)
      requires PtrsCut(g, loc, d[blk], ptrs, keep, g.apb) && (!dirty ==> ptrs == d[blk])
      modifies this`s
      ensures s.roots == old(s.roots) && Progress(g, spb, s0, d, s.disk, c, Ctr(ino), Under(live, loc), keep, nomem)
    {
      hide *;
      ghost var d1, c1 := s.disk, Ctr(ino);
      CtrIs(ino);
      IndexUnchanged(s0, d, d1, c, Ctr(ino), loc, keep, nomem);
      if dirty {
        s := s.(disk := s.disk[blk := ptrs]);
      }
      assert s.disk == d1[blk := ptrs];
      CtrIs(ino);
      IndexWritten(g, spb, s0, live, d1, c1, loc, ptrs, keep, nomem);
      NothingRelated(Beyond(g, UnderBelow(live, loc, g.apb), keep));
      UnderAll(g, s0, live, loc);
      UnderLive(live, loc);
      ProgressJoin(g, spb, s0, live, d, d1, s.disk, c, c1, c1, UnderBelow(live, loc, g.apb), {loc}, keep, nomem);
    }

    /** One pointer of the loop: skipped when it is a hole or lies below `keep`. */
    method TruncChild(ino: nat, blk: nat, h: nat, base: nat, keep: nat, nomem: set<nat>, ghost s0: Store, ghost parent: Loc, ghost i: nat)
      returns (ptr: nat)
      requires Whole(s0, parent + [i]) && (parent + [i])[0] == ino && At(s0, parent + [i]) == blk && Height(parent + [i]) == h
      requires Base(g, parent + [i]) == base
      modifies this`s, this`sectors, alloc
      ensures alloc.Valid() && ino in sectors && sectors == old(sectors)[ino := sectors[ino]] && s.roots == old(s.roots)
      ensures Progress(g, spb, s0, old(s.disk), s.disk, old(Ctr(ino)), Ctr(ino), Under(live, parent + [i]), keep, nomem)
      ensures ptr == if base >= keep then 0 else blk
      decreases h, 2
    {
      hide *;
      ghost var loc := parent + [i];
      WholeFacts(s0, loc);
      if base + Span(g, h) <= keep {
        NoneBeyond(g, s0, live, s.disk, loc, keep);
        ProgressSkip(g, spb, s0, s.disk, Ctr(ino), Under(live, loc), keep, nomem);
        SpanPositive(g, h);
        return blk;
      }
      ptr := TruncTree(ino, blk, h, base, keep, nomem, s0, loc);
    }

    lemma IndexOnDisk(s0: Store, loc: Loc)
      requires Whole(s0, loc) && loc in live
      ensures At(s0, loc) in s.disk && At(s0, loc) in s0.disk && s.disk[At(s0, loc)] == s0.disk[At(s0, loc)]
      ensures |s.disk[At(s0, loc)]| == g.BlockSize() && ValidLoc(g, loc)
    {
      hide BlockAllocator.Valid, At;
      assert loc in Under(live, loc);
    }

    lemma PtrIsChild(disk: map<nat, Block>, b: nat, i: nat)
      requires b in disk && 4 * i + 3 < |disk[b]|
      ensures Child(disk, b, i) == Ptr(disk[b], i)
    {
    }

    lemma CtrIs(ino: nat)
      requires ino in sectors
      ensures Ctr(ino) == Counters(alloc.used, alloc.sbFree, sectors[ino])
    {
    }

    lemma PtrsLength(g: Geo, loc: Loc, was: Block, ptrs: Block, keep: nat, i: nat)
      requires PtrsCut(g, loc, was, ptrs, keep, i) && i < g.apb
      ensures |ptrs| == |was| == 4 * g.apb && Ptr(ptrs, i) == Ptr(was, i)
    {
    }

    /** Work in the children leaves their index block alone. */
    lemma IndexUnchanged(s0: Store, d: map<nat, Block>, d': map<nat, Block>, c: Counters, c': Counters, loc: Loc, keep: nat, nomem: set<nat>)
      requires Forest(g, s0, live) && loc in live && ValidLoc(g, loc) && At(s0, loc) in d
      requires Progress(g, spb, s0, d, d', c, c', UnderBelow(live, loc, g.apb), keep, nomem)
      ensures At(s0, loc) in d' && d'[At(s0, loc)] == d[At(s0, loc)]
    {
      hide At, CutIn, Freed;
      assert At(s0, loc) !in Blocks(s0, UnderBelow(live, loc, g.apb));
    }

    /** The loop of ext2_truncate over i_block[0..14]. */
    method CutSlots(ino: nat, keep: nat, nomem: set<nat>)
      requires Valid() && ino in s.roots && ino in sectors
      modifies this`s, this`sectors, alloc
      ensures alloc.Valid() && ino in sectors && sectors == old(sectors)[ino := sectors[ino]]
      ensures Cut(g, spb, old(s), s, live, ino, keep, old(Ctr(ino)), Ctr(ino), nomem)
    {
      hide *;
      ghost var s0, d, c := s, s.disk, Ctr(ino);
      InUse();
      TreeFacts(ino);
      ProgressNone(g, spb, s0, d, c, keep, nomem);
      UnderNext(live, [ino], 0, 1);
      SlotsStart(ino, keep);
      var i := 0;
      while i < NSLOTS
        invariant i <= NSLOTS && alloc.Valid() && ino in sectors && sectors == old(sectors)[ino := sectors[ino]]
        invariant ino in s.roots && s.roots == s0.roots[ino := s.roots[ino]] && SlotsCut(g, s0.roots[ino], s.roots[ino], keep, i)
        invariant Progress(g, spb, s0, d, s.disk, c, Ctr(ino), UnderBelow(live, [ino], i), keep, nomem)
      {
        ghost var d1, c1 := s.disk, Ctr(ino);
        SlotFacts(s0, ino, i, s.roots[ino], keep);
        UnderNext(live, [ino], i, i + 1);
        TodoWhole(s0, d, c, UnderBelow(live, [ino], i), Tree(live, ino), [ino] + [i], keep, nomem);
        var p := TruncTree(ino, s.roots[ino][i], Depth(i) - 1, SlotBase(g, i), keep, nomem, s0, [ino] + [i]);
        JoinChild(g, live, [ino], i, keep);
        ProgressJoin(g, spb, s0, live, d, d1, s.disk, c, c1, Ctr(ino), UnderBelow(live, [ino], i), Under(live, [ino] + [i]), keep, nomem);
        SlotsNext(g, s0.roots[ino], s.roots[ino], keep, i, p);
        StoreSlot(ino, i, p);
        i := i + 1;
      }
      CutDone(g, spb, s0, s, live, ino, keep, c, Ctr(ino), nomem);
    }

    method StoreSlot(ino: nat, i: nat, p: nat)
      requires ino in s.roots && i < |s.roots[ino]| && ino in sectors
      modifies this`s
      ensures s.disk == old(s.disk) && Ctr(ino) == old(Ctr(ino))
      ensures s.roots == old(s.roots)[ino := PutSlot(old(s.roots[ino]), i, p)]
    {
      s := s.(roots := s.roots[ino := PutSlot(s.roots[ino], i, p)]);
    }

    static function PutSlot(slots: seq<nat>, i: nat, p: nat): seq<nat>
      requires i < |slots|
    {
      slots[i := p]
    }

    lemma TreeFacts(ino: nat)
      requires Valid() && ino in sectors
      ensures Tree(live, ino) <= live && Intact(s, s.disk, Tree(live, ino))
      ensures Blocks(s, Tree(live, ino)) <= Ctr(ino).used && |Tree(live, ino)| * spb <= Ctr(ino).sectors
    {
      hide BlockAllocator.Valid, At, Tree, UnderBelow, LiveOf, SectorsExact;
      TreeIsLiveOf(g, s, live, ino);
      SectorsCover(live, lost, sectors, spb, ino);
    }

    lemma SlotsStart(ino: nat, keep: nat)
      requires Valid() && ino in s.roots
      ensures SlotsCut(g, s.roots[ino], s.roots[ino], keep, 0)
    {
      hide BlockAllocator.Valid, Forest, Owned, SectorsExact;
    }

    lemma SlotsNext(g: Geo, was: seq<nat>, now: seq<nat>, keep: nat, i: nat, p: nat)
      requires SlotsCut(g, was, now, keep, i) && i < NSLOTS
      requires p == if SlotBase(g, i) >= keep then 0 else now[i]
      ensures SlotsCut(g, was, PutSlot(now, i, p), keep, i + 1)
    {
    }

    lemma SlotFacts(s0: Store, ino: nat, i: nat, slots: seq<nat>, keep: nat)
      requires WellFormed(g, s0) && Forest(g, s0, live) && ino in s0.roots && i < NSLOTS
      requires SlotsCut(g, s0.roots[ino], slots, keep, i)
      ensures |slots| == NSLOTS && ValidLoc(g, [ino] + [i]) && ([ino] + [i])[0] == ino
      ensures At(s0, [ino] + [i]) == slots[i] && Height([ino] + [i]) == Depth(i) - 1 && Base(g, [ino] + [i]) == SlotBase(g, i)
      ensures Under(live, [ino] + [i]) <= Tree(live, ino) && UnderBelow(live, [ino], i) <= Tree(live, ino) <= live
    {
      hide Forest;
      UnderNext(live, [ino], i, i + 1);
    }

    /** Cuts the file to its first `keep` blocks. */
    method Shrink(ino: nat, keep: nat, nomem: set<nat>)
      requires Valid() && ino in s.roots && ino in sectors
      modifies this`s, this`sectors, this`live, this`lost, alloc
      ensures Valid() && s.roots.Keys == old(s.roots.Keys) && ino in sectors
      ensures Cut(g, spb, old(s), s, old(live), ino, keep, old(Ctr(ino)), Ctr(ino), nomem)
      ensures live == old(live) - Beyond(g, Tree(old(live), ino), keep)
      ensures LostMore(old(lost), lost, ino, Beyond(g, Tree(old(live), ino), keep), Cleared(g, old(s), Tree(old(live), ino), keep, nomem))
    {
      hide BlockAllocator.Valid, Consistent, Cut, Tree, Beyond, Cleared;
      InUse();
      CutSlots(ino, keep, nomem);
      ghost var gone, freed := Beyond(g, Tree(live, ino), keep), Cleared(g, old(s), Tree(live, ino), keep, nomem);
      CutWellFormed(g, spb, old(s), s, live, ino, keep, old(Ctr(ino)), Ctr(ino), nomem);
      CutConsistent(g, spb, old(s), s, live, ino, keep, old(Ctr(ino)), Ctr(ino), nomem,
                    alloc.l.count, lost, old(sectors), sectors[ino]);
      lost := lost[ino := lost[ino] + |gone| - |freed|];
      live := live - gone;
    }

    lemma ShrunkBytes(s0: Store, live0: set<Loc>, ino: nat, size: nat, c: Counters, c': Counters, nomem: set<nat>)
      requires g.apb > 0 && Cut(g, spb, s0, s, live0, ino, KeepBlocks(g, size), c, c', nomem)
      ensures forall ino': nat, x: nat :: FileByte(g, s, ino', x) ==
                if ino' == ino && BlockIndex(g, x) >= KeepBlocks(g, size) then 0 else FileByte(g, s0, ino', x)
    {
      hide Cut, DataByte, BlockIndex, BlockOffset, KeepBlocks;
      forall ino': nat, x: nat
        ensures FileByte(g, s, ino', x) == if ino' == ino && BlockIndex(g, x) >= KeepBlocks(g, size) then 0 else FileByte(g, s0, ino', x)
      {
        CutBytes(g, spb, s0, s, live0, ino, KeepBlocks(g, size), c, c', nomem, ino', BlockIndex(g, x), BlockOffset(g, x));
      }
    }

    /** Zeroes the rest of the last, partial block, if there is a block there. */
    method ZeroTail(ino: nat, size: nat)
      requires Valid() && ino in s.roots && g.apb > 0
      modifies this`s, this`sectors, this`live, alloc
      ensures Valid() && live == old(live) && alloc.used == old(alloc.used) && s.roots.Keys == old(s.roots.Keys)
      ensures sectors == old(sectors) && alloc.sbFree == old(alloc.sbFree)
      ensures forall p :: ValidLoc(g, p) ==> At(s, p) == At(old(s), p)
      ensures var tail := BlockOffset(g, size);
              if tail == 0 then s == old(s) else Written(g, old(s), s, ino, size, Zeros(g.BlockSize() - tail))
    {
      hide *;
      var tail := BlockOffset(g, size);
      if tail == 0 {
        return;
      }
      var f := BlockIndex(g, size);
      var err, blk := Bmap(ino, f, false);
      NothingDone(old(s), old(sectors), old(live), old(alloc.used), old(alloc.sbFree));
      InUse();
      HeldOnDisk(ino, f);
      if err == OK && blk != 0 {
        ghost var s1 := s;
        StoreBlock(ino, f, Splice(s.disk[blk], tail, Zeros(g.BlockSize() - tail)));
        WrittenNothing(g, s1, ino, size);
        WrittenChunk(g, s1, s1, s, live, ino, size, [], Zeros(g.BlockSize() - tail));
        assert [] + Zeros(g.BlockSize() - tail) == Zeros(g.BlockSize() - tail);
      } else {
        TooFar(ino, f);
        HoleIsZero(ino, size);
      }
    }

    lemma TooFar(ino: nat, f: nat)
      requires g.apb > 0
      ensures f >= MaxBlocks(g) ==> At(s, BlockPath(g, ino, f)) == 0
    {
      PathHasBase(g, ino, f);
    }

    lemma HoleIsZero(ino: nat, size: nat)
      requires WellFormed(g, s) && At(s, BlockPath(g, ino, BlockIndex(g, size))) == 0
      ensures Written(g, s, s, ino, size, Zeros(g.BlockSize() - BlockOffset(g, size)))
    {
      hide At, BlockPath, BlockIndex, BlockOffset;
      var n := g.BlockSize() - BlockOffset(g, size);
      forall x: nat | size <= x < size + n ensures FileByte(g, s, ino, x) == 0 {
        ChunkRange(g, size, n, x);
      }
      hide FileByte;
    }

    // ---- The files as byte arrays ----

    /** Every file is zero beyond its size. */
    ghost predicate Files()
      reads this
    {
      g.apb > 0 && forall ino: nat :: ino in size ==> TailZero(g, s, ino, size[ino])
    }

    ghost function Content(ino: nat): seq<Byte>
      reads this
      requires g.apb > 0 && ino in size
    {
      ContentOf(g, s, ino, size[ino])
    }

    /** ext2_read: the array read of the file contents, cut short only by the end of the
        addressable range. */
    method Read(ino: nat, off: nat, len: nat) returns (data: seq<Byte>, err: Errno)
      requires Valid() && Files() && ino in size
      modifies this`s, this`sectors, this`live, alloc
      ensures Valid() && Unchanged(old(s), old(sectors), old(live), old(alloc.used), old(alloc.sbFree))
      ensures err == OK ==> data == ArrayRead(Content(ino), off, len)
      ensures err != OK ==> err == EFBIG && BlockIndex(g, off + |data|) >= MaxBlocks(g)
      ensures data <= ArrayRead(Content(ino), off, len)
    {
      hide Consistent, BlockAllocator.Valid, FileByte, BlockIndex, MaxBlocks, TailZero;
      InUse();
      data, err := ReadBlocks(ino, off, len);
      ReadPrefix(g, s, ino, size[ino], off, len, data);
    }

    /** ext2_write on byte arrays: the accepted prefix is written, a gap before it reads as
        zeros, and every other file is unchanged. */
    method Write(ino: nat, off: nat, data: seq<Byte>) returns (done: nat, err: Errno)
      requires Valid() && Files() && ino in size
      modifies this`s, this`size, this`sectors, this`live, alloc
      ensures Valid() && Files() && size.Keys == old(size.Keys)
      ensures done <= |data| && Content(ino) == ArrayWrite(old(Content(ino)), off, data[..done])
      ensures forall i: nat :: i in size && i != ino ==> Content(i) == old(Content(i))
      ensures err == OK <==> done == |data|
      ensures err == EFBIG ==> BlockIndex(g, off + done) >= MaxBlocks(g)
      ensures err == ENOSPC ==> alloc.Full()
    {
      hide Consistent, BlockAllocator.Valid, FileByte, BlockIndex, MaxBlocks, TailZero, BlockAllocator.Full, Written;
      done, err := WriteBlocks(ino, off, data);
      WriteIsArrayWrite(g, old(s), s, old(size[ino]), ino, off, data[..done]);
      forall i: nat | i in size && i != ino
        ensures TailZero(g, s, i, size[i]) && ContentOf(g, s, i, size[i]) == ContentOf(g, old(s), i, size[i])
      {
        OtherFile(g, old(s), s, ino, off, data[..done], i, size[i]);
      }
    }

    lemma OtherFile(g: Geo, s0: Store, s1: Store, ino: nat, off: nat, d: seq<Byte>, i: nat, size: nat)
      requires g.apb > 0 && Written(g, s0, s1, ino, off, d) && i != ino && TailZero(g, s0, i, size)
      ensures TailZero(g, s1, i, size) && ContentOf(g, s1, i, size) == ContentOf(g, s0, i, size)
    {
      hide FileByte;
      OtherFileKept(g, s0, s1, i, size);
    }

    lemma OtherFileChopped(g: Geo, s0: Store, s1: Store, ino: nat, n: nat, i: nat, size: nat)
      requires g.apb > 0 && Chopped(g, s0, s1, ino, n) && i != ino && TailZero(g, s0, i, size)
      ensures TailZero(g, s1, i, size) && ContentOf(g, s1, i, size) == ContentOf(g, s0, i, size)
    {
      hide FileByte;
      OtherFileKept(g, s0, s1, i, size);
    }

    /** The block work of a shrinking ext2_truncate: bytes from `n` on are zero, file blocks
        at or above ceil(n / block) are holes, all others keep their mapping. The blocks freed, once
        each, are the removed ones that are not below an index block without a copy; the others
        are lost and counted. */
    method ShrinkTo(ino: nat, n: nat, nomem: set<nat>)
      requires Valid() && ino in size && ino in sectors && g.apb > 0
      modifies this`s, this`sectors, this`live, this`lost, alloc
      ensures Valid() && s.roots.Keys == old(s.roots.Keys) && ino in sectors && ino in lost
      ensures Chopped(g, old(s), s, ino, n)
      ensures live == old(live) - Beyond(g, Tree(old(live), ino), KeepBlocks(g, n))
      ensures forall p :: ValidLoc(g, p) ==> At(s, p) == if Removed(g, ino, KeepBlocks(g, n), p) then 0 else At(old(s), p)
      ensures var gone := Beyond(g, Tree(old(live), ino), KeepBlocks(g, n));
              && Freed(old(s), old(Ctr(ino)), Ctr(ino), Freeable(old(s), gone, nomem), spb)
              && LostMore(old(lost), lost, ino, gone, Freeable(old(s), gone, nomem))
    {
      hide *;
      SameInodes();
      var keep := KeepBlocks(g, n);
      Shrink(ino, keep, nomem);
      CutMapping(g, spb, old(s), s, old(live), ino, keep, old(Ctr(ino)), Ctr(ino), nomem);
      ShrunkBytes(old(s), old(live), ino, n, old(Ctr(ino)), Ctr(ino), nomem);
      CutFreed(old(s), s, old(live), ino, keep, old(Ctr(ino)), Ctr(ino), nomem);
      SameInodes();
      CtrIs(ino);
      ghost var s1, c1 := s, Ctr(ino);
      ZeroTail(ino, n);
      CtrIs(ino);
      SameInodes();
      ChoppedFrom(g, old(s), s1, s, ino, n);
    }

    lemma CutFreed(s0: Store, s1: Store, live0: set<Loc>, ino: nat, keep: nat, c: Counters, c': Counters, nomem: set<nat>)
      requires Cut(g, spb, s0, s1, live0, ino, keep, c, c', nomem)
      ensures Freed(s0, c, c', Freeable(s0, Beyond(g, Tree(live0, ino), keep), nomem), spb)
      ensures Cleared(g, s0, Tree(live0, ino), keep, nomem) == Freeable(s0, Beyond(g, Tree(live0, ino), keep), nomem)
    {
      hide CutIn, SameElse, Beyond, Tree, Freeable;
    }

    lemma SameInodes()
      requires Valid()
      ensures size.Keys == s.roots.Keys == sectors.Keys == lost.Keys
    {
      InUse();
    }

    /** ext2_truncate on byte arrays: shrinking drops the end, growing appends zeros. Bitmap, free
        count and i_blocks move by exactly the blocks that can be freed; FreeableIff says when these
        are all that were removed. */
    method Truncate(ino: nat, n: nat, nomem: set<nat>)
      requires Valid() && Files() && ino in size && ino in sectors
      modifies this`s, this`size, this`sectors, this`live, this`lost, alloc
      ensures Valid() && Files() && size == old(size)[ino := n] && ino in sectors
      ensures Content(ino) == ArrayResize(old(Content(ino)), n)
      ensures forall i: nat :: i in size && i != ino ==> Content(i) == old(Content(i))
      ensures n >= old(size[ino]) ==> s == old(s) && live == old(live) && Ctr(ino) == old(Ctr(ino)) && lost == old(lost)
      ensures n < old(size[ino]) ==>
                forall p :: ValidLoc(g, p) ==> At(s, p) == if Removed(g, ino, KeepBlocks(g, n), p) then 0 else At(old(s), p)
      ensures n < old(size[ino]) ==>
                var gone := Beyond(g, Tree(old(live), ino), KeepBlocks(g, n));
                && live == old(live) - gone
                && Freed(old(s), old(Ctr(ino)), Ctr(ino), Freeable(old(s), gone, nomem), spb)
                && LostMore(old(lost), lost, ino, gone, Freeable(old(s), gone, nomem))
    {
      hide Consistent, BlockAllocator.Valid, FileByte, TailZero, Chopped, Freed, At, ValidLoc, Beyond, Tree, KeepBlocks, Removed,
           Freeable, LostMore;
      if n < size[ino] {
        ShrinkTo(ino, n, nomem);
      }
      ResizeIsArrayResize(g, old(s), s, ino, size[ino], n);
      forall i: nat | i in size && i != ino
        ensures TailZero(g, s, i, size[i]) && ContentOf(g, s, i, size[i]) == ContentOf(g, old(s), i, size[i])
      {
        if n < old(size[ino]) {
          OtherFileChopped(g, old(s), s, ino, n, i, size[i]);
        }
      }
      size := size[ino := n];
    }
  }
}

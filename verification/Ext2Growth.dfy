/** What bmap and a block write leave alone: consistency of the forest with the bitmap
    and i_blocks, and the bytes of every file (kernel/fs/ext2.c:575-719). */
module Ext2Growth {
  import opened Ext2Map
  import opened Ext2Tree

  // ---- Counting ----

  ghost function LiveOf(live: set<Loc>, ino: nat): set<Loc> {
    set p | p in live && |p| > 0 && p[0] == ino
  }

  /** i_blocks of every inode, in 512-byte sectors, counts just the blocks its tree holds,
      and those lost when free_tree could not allocate its pointer copy. */
  ghost predicate SectorsExact(live: set<Loc>, lost: map<nat, nat>, sectors: map<nat, nat>, spb: nat) {
    && lost.Keys == sectors.Keys
    && forall ino: nat :: ino in sectors ==> sectors[ino] == (|LiveOf(live, ino)| + lost[ino]) * spb
  }

  lemma SectorsMore(live: set<Loc>, lost: map<nat, nat>, sectors: map<nat, nat>, spb: nat, loc: Loc)
    requires SectorsExact(live, lost, sectors, spb) && loc !in live && |loc| > 0 && loc[0] in sectors
    ensures SectorsExact(live + {loc}, lost, sectors[loc[0] := sectors[loc[0]] + spb], spb)
  {
    var more, ino0 := live + {loc}, loc[0];
    assert LiveOf(more, ino0) == LiveOf(live, ino0) + {loc};
    var n := |LiveOf(live, ino0)| + lost[ino0];
    assert |LiveOf(more, ino0)| + lost[ino0] == n + 1;
    assert (n + 1) * spb == n * spb + spb;
    forall ino: nat | ino in sectors && ino != ino0 ensures LiveOf(more, ino) == LiveOf(live, ino) {
    }
  }

  lemma SectorsCover(live: set<Loc>, lost: map<nat, nat>, sectors: map<nat, nat>, spb: nat, ino: nat)
    requires SectorsExact(live, lost, sectors, spb) && ino in sectors
    ensures |LiveOf(live, ino)| * spb <= sectors[ino]
  {
    var n, m := |LiveOf(live, ino)|, lost[ino];
    assert (n + m) * spb == n * spb + m * spb;
  }

  // ---- What a change of the store leaves alone ----

  /** Every held location still holds the same block, and data blocks their bytes. */
  ghost predicate Keeps(g: Geo, s: Store, s': Store, live: set<Loc>) {
    forall p {:trigger At(s, p)} {:trigger At(s', p)} :: p in live && ValidLoc(g, p) ==>
      && At(s', p) == At(s, p)
      && (Height(p) == 0 && At(s, p) in s.disk ==> At(s, p) in s'.disk && s'.disk[At(s, p)] == s.disk[At(s, p)])
  }

  /** Data blocks that are new hold zeros. */
  ghost predicate NewZero(g: Geo, s': Store, live: set<Loc>, live': set<Loc>) {
    forall p {:trigger At(s', p)} :: p in live' && p !in live && ValidLoc(g, p) && Height(p) == 0 ==>
      At(s', p) in s'.disk && s'.disk[At(s', p)] == ZeroBlock(g)
  }

  lemma KeepsThrough(g: Geo, s: Store, s1: Store, s2: Store, live: set<Loc>, live1: set<Loc>, live2: set<Loc>)
    requires live <= live1 <= live2 && Forest(g, s, live) && Forest(g, s1, live1)
    requires Keeps(g, s, s1, live) && Keeps(g, s1, s2, live1)
    requires NewZero(g, s1, live, live1) && NewZero(g, s2, live1, live2)
    ensures Keeps(g, s, s2, live) && NewZero(g, s2, live, live2)
  {
    hide At;
  }

  /** The byte at offset `off` of file block `f`, with zeros in holes. */
  function DataByte(g: Geo, s: Store, ino: nat, f: nat, off: nat): Byte
    requires g.apb > 0
  {
    var b := At(s, BlockPath(g, ino, f));
    if b in s.disk && off < |s.disk[b]| then s.disk[b][off] else 0
  }

  function BlockIndex(g: Geo, pos: nat): nat
    requires g.apb > 0
  {
    Quot(pos, g.BlockSize())
  }

  function BlockOffset(g: Geo, pos: nat): (r: nat)
    requires g.apb > 0
    ensures r < g.BlockSize()
  {
    Rem(pos, g.BlockSize())
  }

  /** The byte of a file at a position. */
  function FileByte(g: Geo, s: Store, ino: nat, pos: nat): Byte
    requires g.apb > 0
  {
    DataByte(g, s, ino, BlockIndex(g, pos), BlockOffset(g, pos))
  }

  lemma BytesKept(g: Geo, s: Store, s': Store, live: set<Loc>, live': set<Loc>, ino: nat, f: nat, off: nat)
    requires WellFormed(g, s) && Forest(g, s, live) && Forest(g, s', live')
    requires live <= live' && Keeps(g, s, s', live) && NewZero(g, s', live, live')
    requires 0 !in s'.disk
    ensures DataByte(g, s', ino, f, off) == DataByte(g, s, ino, f, off)
  {
    PathHasBase(g, ino, f);
    var p := BlockPath(g, ino, f);
    hide BlockPath, MaxBlocks;
    if p != [] {
      assert ValidLoc(g, p);
      hide At;
      if At(s, p) == 0 && At(s', p) != 0 {
        assert s'.disk[At(s', p)] == ZeroBlock(g);
      }
    }
  }

  // ---- Attaching, seen through Keeps ----

  lemma AttachKeeps(g: Geo, s: Store, s1: Store, live: set<Loc>, loc: Loc, b: nat)
    requires WellFormed(g, s) && Forest(g, s, live) && b in s.disk
    requires forall p :: p in live ==> At(s, p) != b
    requires s1 == s.(disk := s.disk[b := ZeroBlock(g)])
    requires ValidLoc(g, loc) && loc[0] in s.roots && At(s, loc) == 0 && (|loc| > 2 ==> Parent(loc) in live)
    ensures CanAttach(g, s1, live, loc, b)
    ensures Keeps(g, s, SetSlot(s1, loc, b), live) && NewZero(g, SetSlot(s1, loc, b), live, live + {loc})
    ensures At(SetSlot(s1, loc, b), loc) == b
  {
    FreshWrite(g, s, s1, live, b);
    assert CanAttach(g, s1, live, loc, b);
    var s2 := SetSlot(s1, loc, b);
    forall p | ValidLoc(g, p) ensures At(s2, p) == if p == loc then b else At(s1, p) {
      AttachAt(g, s1, live, loc, b, p);
    }
    if |loc| > 2 {
      ParentValid(g, loc);
    }
    hide At, Child;
  }

  /** Zeroing a block that nothing refers to changes no location and no data. */
  lemma FreshWrite(g: Geo, s: Store, s1: Store, live: set<Loc>, b: nat)
    requires WellFormed(g, s) && Forest(g, s, live) && b in s.disk
    requires forall p :: p in live ==> At(s, p) != b
    requires s1 == s.(disk := s.disk[b := ZeroBlock(g)])
    ensures WellFormed(g, s1) && Forest(g, s1, live) && Keeps(g, s, s1, live)
    ensures forall p :: ValidLoc(g, p) ==> At(s1, p) == At(s, p)
  {
    forall p | ValidLoc(g, p) ensures At(s1, p) == At(s, p) {
      DataWriteAt(g, s, b, ZeroBlock(g), p);
    }
    hide At;
  }

  /** Blocks held by a tree are in use, and belong to a known inode. */
  ghost predicate Owned(s: Store, live: set<Loc>, used: set<nat>) {
    forall p :: p in live ==> At(s, p) in used && |p| > 0 && p[0] in s.roots
  }

  lemma OwnedMore(g: Geo, s: Store, s': Store, live: set<Loc>, used: set<nat>, loc: Loc, b: nat)
    requires Forest(g, s, live) && Owned(s, live, used) && Keeps(g, s, s', live) && s'.roots.Keys == s.roots.Keys
    requires |loc| > 0 && loc[0] in s.roots && At(s', loc) == b
    ensures Owned(s', live + {loc}, used + {b})
  {
    hide At;
  }

  lemma SlotKeys(s: Store, loc: Loc, v: nat)
    requires HasSlot(s, loc) && v < 0x1_0000_0000
    ensures SetSlot(s, loc, v).roots.Keys == s.roots.Keys && SetSlot(s, loc, v).disk.Keys == s.disk.Keys
  {
  }

  /** Exclusive ownership: every reachable block is in use, none is reachable twice, and
      i_blocks counts just the reachable blocks of each inode. */
  ghost predicate Consistent(g: Geo, s: Store, live: set<Loc>, used: set<nat>, count: nat, lost: map<nat, nat>, sectors: map<nat, nat>, spb: nat) {
    && WellFormed(g, s) && Forest(g, s, live) && Owned(s, live, used)
    && (forall b: nat :: b in s.disk <==> 0 < b < count)
    && sectors.Keys == s.roots.Keys && SectorsExact(live, lost, sectors, spb)
  }

  /** Attaching a block that was not in use keeps the file system consistent. */
  lemma AttachStep(g: Geo, s: Store, s1: Store, live: set<Loc>, used: set<nat>, count: nat, lost: map<nat, nat>, sectors: map<nat, nat>, spb: nat,
                   loc: Loc, b: nat)
    requires Consistent(g, s, live, used, count, lost, sectors, spb)
    requires ValidLoc(g, loc) && loc[0] in s.roots && At(s, loc) == 0 && (|loc| > 2 ==> Parent(loc) in live)
    requires b !in used && 0 < b < count && s1 == s.(disk := s.disk[b := ZeroBlock(g)])
    ensures HasSlot(s1, loc) && b < 0x1_0000_0000
    ensures var s2 := SetSlot(s1, loc, b);
            && Consistent(g, s2, live + {loc}, used + {b}, count, lost, sectors[loc[0] := sectors[loc[0]] + spb], spb)
            && At(s2, loc) == b && Keeps(g, s, s2, live) && NewZero(g, s2, live, live + {loc})
            && s2.roots.Keys == s.roots.Keys
  {
    hide At, Child, SetSlot, LiveOf, HasSlot;
    AttachKeeps(g, s, s1, live, loc, b);
    AttachHasSlot(g, s1, live, loc, b);
    AttachForest(g, s1, live, loc, b);
    SectorsMore(live, lost, sectors, spb, loc);
    SlotKeys(s1, loc, b);
    OwnedMore(g, s, SetSlot(s1, loc, b), live, used, loc, b);
  }

  lemma LocLength(g: Geo, p: Loc)
    requires ValidLoc(g, p)
    ensures 2 <= |p|
  {
  }

  /** A hole anywhere on the way makes the whole path a hole. */
  lemma {:induction false} HoleBelow(g: Geo, s: Store, p: Loc, n: nat)
    requires WellFormed(g, s) && 2 <= n <= |p| && At(s, p[..n]) == 0
    ensures At(s, p) == 0
    decreases |p|
  {
    if n < |p| {
      assert Parent(p)[..n] == p[..n];
      HoleBelow(g, s, Parent(p), n);
    } else {
      assert p[..n] == p;
    }
  }

  /** The way to a location, one pointer at a time. */
  lemma PathSteps(g: Geo, s: Store, p: Loc, n: nat)
    requires ValidLoc(g, p) && 2 <= n <= |p|
    ensures ValidLoc(g, p[..n]) && p[..n][0] == p[0] && p[..n][1] == p[1] && |p[..n]| == n && p[..n] <= p
    ensures n == |p| ==> p[..n] == p
    ensures n < |p| ==> Parent(p[..n + 1]) == p[..n] && At(s, p[..n + 1]) == Child(s.disk, At(s, p[..n]), p[n])
  {
    if n < |p| {
      assert p[..n + 1][..n] == p[..n];
    }
  }

  lemma RootAt(g: Geo, s: Store, p: Loc)
    requires WellFormed(g, s) && ValidLoc(g, p) && p[0] in s.roots
    ensures p[1] < |s.roots[p[0]]| && At(s, p[..2]) == s.roots[p[0]][p[1]]
  {
  }

  lemma HeldIsLive(g: Geo, s: Store, live: set<Loc>, p: Loc)
    requires Forest(g, s, live) && ValidLoc(g, p)
    ensures p in live <==> At(s, p) != 0
  {
  }

  /** What bmap may change: the trees grow along one path; blocks and bytes in place stay. */
  ghost predicate Grew(g: Geo, s: Store, s': Store, live: set<Loc>, live': set<Loc>, path: Loc) {
    && live <= live' && s'.roots.Keys == s.roots.Keys
    && Keeps(g, s, s', live) && NewZero(g, s', live, live')
    && forall p :: p in live' && p !in live ==> p <= path
  }

  lemma GrewSelf(g: Geo, s: Store, live: set<Loc>, path: Loc)
    ensures Grew(g, s, s, live, live, path)
  {
  }

  lemma GrewRoots(g: Geo, s: Store, s': Store, live: set<Loc>, live': set<Loc>, path: Loc)
    requires Grew(g, s, s', live, live', path)
    ensures s'.roots.Keys == s.roots.Keys
  {
  }

  lemma GrewThrough(g: Geo, s: Store, s1: Store, s2: Store, live: set<Loc>, live1: set<Loc>, live2: set<Loc>, path: Loc)
    requires Forest(g, s, live) && Forest(g, s1, live1)
    requires Grew(g, s, s1, live, live1, path) && Grew(g, s1, s2, live1, live2, path)
    ensures Grew(g, s, s2, live, live2, path)
  {
    KeepsThrough(g, s, s1, s2, live, live1, live2);
  }

  lemma GrewAttached(g: Geo, s: Store, s': Store, live: set<Loc>, path: Loc, n: nat)
    requires n <= |path| && s'.roots.Keys == s.roots.Keys
    requires Keeps(g, s, s', live) && NewZero(g, s', live, live + {path[..n]})
    ensures Grew(g, s, s', live, live + {path[..n]}, path)
  {
  }

  // ---- Writing into a data block ----

  /** A data block is not an index block of any inode. */
  lemma DataNotIndex(g: Geo, s: Store, live: set<Loc>, p: Loc)
    requires Forest(g, s, live) && p in live && ValidLoc(g, p) && Height(p) == 0
    ensures NotIndex(g, s, At(s, p))
  {
    hide At;
    forall q | ValidLoc(g, q) && Height(q) > 0 ensures At(s, q) != At(s, p) {
      assert At(s, q) != 0 ==> q in live;
    }
  }

  lemma DataWriteConsistent(g: Geo, s: Store, s': Store, live: set<Loc>, used: set<nat>, count: nat, lost: map<nat, nat>, sectors: map<nat, nat>, spb: nat,
                            p: Loc, content: Block)
    requires Consistent(g, s, live, used, count, lost, sectors, spb)
    requires p in live && ValidLoc(g, p) && Height(p) == 0 && |content| == g.BlockSize()
    requires s' == s.(disk := s.disk[At(s, p) := content])
    ensures Consistent(g, s', live, used, count, lost, sectors, spb)
    ensures forall q :: ValidLoc(g, q) ==> At(s', q) == At(s, q)
  {
    hide At, SectorsExact, Ptr;
    DataWriteAll(g, s, s', live, p, content);
  }

  lemma DataWriteAll(g: Geo, s: Store, s': Store, live: set<Loc>, p: Loc, content: Block)
    requires Forest(g, s, live) && p in live && ValidLoc(g, p) && Height(p) == 0
    requires s' == s.(disk := s.disk[At(s, p) := content])
    ensures forall q :: ValidLoc(g, q) ==> At(s', q) == At(s, q)
  {
    hide At, ValidLoc, Forest;
    DataNotIndex(g, s, live, p);
    forall q | ValidLoc(g, q) ensures At(s', q) == At(s, q) {
      DataWriteAt(g, s, At(s, p), content, q);
    }
  }

  /** Replacing the contents of one data block changes the bytes of that file block only. */
  lemma DataWriteBytes(g: Geo, s: Store, s': Store, live: set<Loc>, ino: nat, f: nat, content: Block, ino': nat, f': nat, off: nat)
    requires WellFormed(g, s) && Forest(g, s, live) && f < MaxBlocks(g)
    requires BlockPath(g, ino, f) in live && |content| == g.BlockSize()
    requires s' == s.(disk := s.disk[At(s, BlockPath(g, ino, f)) := content])
    ensures DataByte(g, s', ino', f', off) ==
            if ino' == ino && f' == f then (if off < |content| then content[off] else 0)
            else DataByte(g, s, ino', f', off)
  {
    hide At, BlockPath, MaxBlocks, Base;
    var p, q := BlockPath(g, ino, f), BlockPath(g, ino', f');
    PathHasBase(g, ino, f);
    PathHasBase(g, ino', f');
    DataNotIndex(g, s, live, p);
    if q == [] {
      NoPath(s, s');
    } else {
      DataWriteAt(g, s, At(s, p), content, q);
      if At(s, q) == At(s, p) {
        assert q in live;
        assert q == p;
      }
    }
  }

  lemma NoPath(s: Store, s': Store)
    ensures At(s, []) == 0 && At(s', []) == 0
  {
  }

  /** memcpy of `chunk` into a block at offset `off`. */
  function Splice(b: Block, off: nat, chunk: seq<Byte>): (r: Block)
    requires off + |chunk| <= |b|
    ensures |r| == |b|
  {
    b[..off] + chunk + b[off + |chunk|..]
  }

  /** The positions of a chunk that does not cross a block boundary. */
  lemma ChunkRange(g: Geo, pos: nat, n: nat, x: nat)
    requires g.apb > 0 && 0 < n && BlockOffset(g, pos) + n <= g.BlockSize()
    ensures pos <= x < pos + n <==>
            BlockIndex(g, x) == BlockIndex(g, pos) && BlockOffset(g, pos) <= BlockOffset(g, x) < BlockOffset(g, pos) + n
    ensures pos <= x < pos + n ==> BlockOffset(g, x) - BlockOffset(g, pos) == x - pos
  {
    DivMod(pos, g.BlockSize());
    DivMod(x, g.BlockSize());
    SameBlock(g.BlockSize(), n, BlockIndex(g, pos), BlockOffset(g, pos), BlockIndex(g, x), BlockOffset(g, x));
  }

  lemma DivMod(x: nat, d: nat)
    requires d > 0
    ensures x == x / d * d + x % d
  {
  }

  lemma SameBlock(d: nat, n: nat, f: nat, o: nat, f': nat, o': nat)
    requires o + n <= d && o' < d
    ensures var pos, x := f * d + o, f' * d + o';
            && (pos <= x < pos + n <==> f' == f && o <= o' < o + n)
            && (f == f' ==> x - pos == o' - o)
  {
    if f < f' {
      MulNext(f, f', d);
    } else if f' < f {
      MulNext(f', f, d);
    }
  }

  /** One chunk of ext2_write: the file bytes it covers become the chunk, all others stay. */
  lemma ChunkWritten(g: Geo, s: Store, s': Store, live: set<Loc>, ino: nat, pos: nat, chunk: seq<Byte>, ino': nat, x: nat)
    requires WellFormed(g, s) && Forest(g, s, live) && BlockIndex(g, pos) < MaxBlocks(g)
    requires BlockPath(g, ino, BlockIndex(g, pos)) in live
    requires 0 < |chunk| && BlockOffset(g, pos) + |chunk| <= g.BlockSize()
    requires var b := At(s, BlockPath(g, ino, BlockIndex(g, pos)));
             && b in s.disk && |s.disk[b]| == g.BlockSize()
             && s' == s.(disk := s.disk[b := Splice(s.disk[b], BlockOffset(g, pos), chunk)])
    ensures FileByte(g, s', ino', x) == if ino' == ino && pos <= x < pos + |chunk| then chunk[x - pos] else FileByte(g, s, ino', x)
  {
    hide At, BlockPath, MaxBlocks, BlockIndex, BlockOffset, Forest, WellFormed;
    var f, o := BlockIndex(g, pos), BlockOffset(g, pos);
    var b := At(s, BlockPath(g, ino, f));
    ChunkRange(g, pos, |chunk|, x);
    DataWriteBytes(g, s, s', live, ino, f, Splice(s.disk[b], o, chunk), ino', BlockIndex(g, x), BlockOffset(g, x));
  }

  /** The bytes of a chunk that does not cross a block boundary, as the source copies them. */
  function ChunkOf(g: Geo, s: Store, b: nat, off: nat, n: nat): (r: seq<Byte>)
    requires WellFormed(g, s) && off + n <= g.BlockSize() && (b != 0 ==> b in s.disk)
    ensures |r| == n
  {
    if b == 0 then seq(n, _ => 0) else s.disk[b][off..off + n]
  }

  lemma ChunkRead(g: Geo, s: Store, ino: nat, pos: nat, n: nat, i: nat)
    requires WellFormed(g, s) && i < n && BlockOffset(g, pos) + n <= g.BlockSize()
    requires var b := At(s, BlockPath(g, ino, BlockIndex(g, pos))); b != 0 ==> b in s.disk
    ensures ChunkOf(g, s, At(s, BlockPath(g, ino, BlockIndex(g, pos))), BlockOffset(g, pos), n)[i] == FileByte(g, s, ino, pos + i)
  {
    hide At, BlockPath, BlockIndex, BlockOffset;
    ChunkRange(g, pos, n, pos + i);
  }

  lemma ChunkAppend(g: Geo, s: Store, ino: nat, off: nat, data: seq<Byte>, n: nat, chunk: seq<Byte>)
    requires WellFormed(g, s) && Matches(g, s, ino, off, data)
    requires BlockOffset(g, off + |data|) + n <= g.BlockSize()
    requires var b := At(s, BlockPath(g, ino, BlockIndex(g, off + |data|)));
             (b != 0 ==> b in s.disk) && chunk == ChunkOf(g, s, b, BlockOffset(g, off + |data|), n)
    ensures Matches(g, s, ino, off, data + chunk)
  {
    hide At, BlockPath, BlockIndex, BlockOffset, FileByte, ChunkOf;
    forall i | 0 <= i < n ensures chunk[i] == FileByte(g, s, ino, off + |data| + i) {
      ChunkRead(g, s, ino, off + |data|, n, i);
    }
  }

  /** `data` is what the file holds from `off` on. */
  ghost predicate Matches(g: Geo, s: Store, ino: nat, off: nat, data: seq<Byte>)
    requires g.apb > 0
  {
    forall i :: 0 <= i < |data| ==> data[i] == FileByte(g, s, ino, off + i)
  }

  /** After writing `data` at `off` of inode `ino`, all other bytes of all files are as before. */
  ghost predicate Written(g: Geo, s: Store, s': Store, ino: nat, off: nat, data: seq<Byte>)
    requires g.apb > 0
  {
    forall ino': nat, x: nat ::
      FileByte(g, s', ino', x) == if ino' == ino && off <= x < off + |data| then data[x - off] else FileByte(g, s, ino', x)
  }

  lemma WrittenNothing(g: Geo, s: Store, ino: nat, off: nat)
    requires g.apb > 0
    ensures Written(g, s, s, ino, off, [])
  {
  }

  lemma WrittenGrow(g: Geo, s: Store, s1: Store, s2: Store, live1: set<Loc>, live2: set<Loc>, ino: nat, off: nat, data: seq<Byte>, path: Loc)
    requires WellFormed(g, s1) && Forest(g, s1, live1) && WellFormed(g, s2) && Forest(g, s2, live2)
    requires Written(g, s, s1, ino, off, data) && Grew(g, s1, s2, live1, live2, path)
    ensures Written(g, s, s2, ino, off, data)
  {
    hide At, BlockPath, BlockIndex, BlockOffset, DataByte, Keeps, NewZero, Forest, WellFormed;
    ApbPositive(g, s1, s2);
    forall ino': nat, x: nat ensures FileByte(g, s2, ino', x) == FileByte(g, s1, ino', x) {
      BytesKept(g, s1, s2, live1, live2, ino', BlockIndex(g, x), BlockOffset(g, x));
    }
  }

  lemma ApbPositive(g: Geo, s1: Store, s2: Store)
    requires WellFormed(g, s1) && WellFormed(g, s2)
    ensures g.apb > 0 && 0 !in s2.disk
  {
  }

  lemma WrittenChunk(g: Geo, s: Store, s1: Store, s2: Store, live: set<Loc>, ino: nat, off: nat, data: seq<Byte>, chunk: seq<Byte>)
    requires WellFormed(g, s1) && Forest(g, s1, live) && Written(g, s, s1, ino, off, data)
    requires var pos := off + |data|;
             && BlockIndex(g, pos) < MaxBlocks(g) && BlockPath(g, ino, BlockIndex(g, pos)) in live
             && 0 < |chunk| && BlockOffset(g, pos) + |chunk| <= g.BlockSize()
             && var b := At(s1, BlockPath(g, ino, BlockIndex(g, pos)));
             && b in s1.disk && |s1.disk[b]| == g.BlockSize()
             && s2 == s1.(disk := s1.disk[b := Splice(s1.disk[b], BlockOffset(g, pos), chunk)])
    ensures Written(g, s, s2, ino, off, data + chunk)
  {
    hide At, BlockPath, BlockIndex, BlockOffset, FileByte, MaxBlocks, Forest;
    var pos := off + |data|;
    forall ino': nat, x: nat
      ensures FileByte(g, s2, ino', x) == if ino' == ino && pos <= x < pos + |chunk| then chunk[x - pos] else FileByte(g, s1, ino', x)
    {
      ChunkWritten(g, s1, s2, live, ino, pos, chunk, ino', x);
    }
  }
}

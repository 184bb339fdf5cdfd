/** A finished truncation (kernel/fs/ext2.c:787-800): the forest, the counters and the bytes
    of every file after all fifteen slots of an inode have been cut. */
module Ext2Shrink {
  import opened Ext2Map
  import opened Ext2Tree
  import opened Ext2Growth
  import opened Ext2Cut

  /** All held locations of one inode. */
  ghost function Tree(live: set<Loc>, ino: nat): set<Loc> {
    UnderBelow(live, [ino], NSLOTS)
  }

  lemma TreeIsLiveOf(g: Geo, s: Store, live: set<Loc>, ino: nat)
    requires Forest(g, s, live)
    ensures Tree(live, ino) == LiveOf(live, ino)
    ensures forall p :: p in Tree(live, ino) <==> p in live && ValidLoc(g, p) && p[0] == ino
  {
    hide At;
    forall p | p in live ensures p in Tree(live, ino) <==> p[0] == ino {
      assert [ino] <= p <==> p[0] == ino;
    }
  }

  /** Slots of i_block: those that start at or above `keep` are zero. */
  ghost predicate SlotsCut(g: Geo, was: seq<nat>, now: seq<nat>, keep: nat, i: nat) {
    && |was| == |now| == NSLOTS
    && forall k :: 0 <= k < NSLOTS ==> now[k] == if k < i && SlotBase(g, k) >= keep then 0 else was[k]
  }

  /** What the fifteen calls of trunc_tree leave behind. */
  ghost predicate Cut(g: Geo, spb: nat, s: Store, s': Store, live: set<Loc>, ino: nat, keep: nat, c: Counters, c': Counters, nomem: set<nat>) {
    && WellFormed(g, s) && Forest(g, s, live) && ino in s.roots && ino in s'.roots
    && SlotsCut(g, s.roots[ino], s'.roots[ino], keep, NSLOTS)
    && s'.roots == s.roots[ino := s'.roots[ino]]
    && Progress(g, spb, s, s.disk, s'.disk, c, c', Tree(live, ino), keep, nomem)
  }

  lemma CutDone(g: Geo, spb: nat, s: Store, s': Store, live: set<Loc>, ino: nat, keep: nat, c: Counters, c': Counters, nomem: set<nat>)
    requires WellFormed(g, s) && Forest(g, s, live) && ino in s.roots && ino in s'.roots
    requires SlotsCut(g, s.roots[ino], s'.roots[ino], keep, NSLOTS)
    requires s'.roots == s.roots[ino := s'.roots[ino]]
    requires Progress(g, spb, s, s.disk, s'.disk, c, c', UnderBelow(live, [ino], NSLOTS), keep, nomem)
    ensures Cut(g, spb, s, s', live, ino, keep, c, c', nomem)
  {
    hide WellFormed, Forest, SlotsCut, Progress;
  }

  lemma CutWellFormed(g: Geo, spb: nat, s: Store, s': Store, live: set<Loc>, ino: nat, keep: nat, c: Counters, c': Counters, nomem: set<nat>)
    requires Cut(g, spb, s, s', live, ino, keep, c, c', nomem)
    ensures WellFormed(g, s') && s'.disk.Keys == s.disk.Keys && s'.roots.Keys == s.roots.Keys
  {
    hide Forest, CutIn, Freed, Base;
  }

  /** Index blocks of other inodes are untouched. */
  lemma OthersUntouched(g: Geo, spb: nat, s: Store, s': Store, live: set<Loc>, ino: nat, keep: nat, c: Counters, c': Counters, nomem: set<nat>, p: Loc)
    requires Cut(g, spb, s, s', live, ino, keep, c, c', nomem) && p in live && ValidLoc(g, p) && p[0] != ino
    ensures At(s, p) in s.disk && At(s, p) in s'.disk && s'.disk[At(s, p)] == s.disk[At(s, p)]
  {
    hide At, Base, CutIn, Freed, Beyond;
    TreeIsLiveOf(g, s, live, ino);
    hide Tree;
    assert At(s, p) !in Blocks(s, Tree(live, ino));
  }

  lemma CutPointers(g: Geo, spb: nat, s: Store, s': Store, live: set<Loc>, ino: nat, keep: nat, c: Counters, c': Counters, nomem: set<nat>)
    requires Cut(g, spb, s, s', live, ino, keep, c, c', nomem)
    ensures PointersCut(g, s, s', live, ino, keep)
  {
    hide Base, Freed, Beyond, Ptr, UnderBelow, SameElse, Forest, WellFormed;
    TreeIsLiveOf(g, s, live, ino);
    CutWellFormed(g, spb, s, s', live, ino, keep, c, c', nomem);
    forall p | ValidLoc(g, p) && |p| == 2
      ensures At(s', p) == if Removed(g, ino, keep, p) then 0 else At(s, p)
    {
      RootBase(g, p);
    }
    forall p, k: nat | p in live && ValidLoc(g, p) && Height(p) > 0 && k < g.apb && !Removed(g, ino, keep, p)
      ensures Child(s'.disk, At(s, p), k) ==
              if ValidLoc(g, p + [k]) && Removed(g, ino, keep, p + [k]) then 0 else Child(s.disk, At(s, p), k)
    {
      ChildValid(g, p, k);
      if p[0] != ino {
        OthersUntouched(g, spb, s, s', live, ino, keep, c, c', nomem, p);
      } else {
        assert p in Tree(live, ino);
      }
    }
  }

  lemma RootBase(g: Geo, p: Loc)
    requires |p| == 2 && p[1] < NSLOTS
    ensures Base(g, p) == SlotBase(g, p[1])
  {
  }

  /** Every location at or above `keep` of that inode is a hole; all others are unchanged. */
  lemma CutMapping(g: Geo, spb: nat, s: Store, s': Store, live: set<Loc>, ino: nat, keep: nat, c: Counters, c': Counters, nomem: set<nat>)
    requires Cut(g, spb, s, s', live, ino, keep, c, c', nomem)
    ensures forall p :: ValidLoc(g, p) ==> At(s', p) == if Removed(g, ino, keep, p) then 0 else At(s, p)
  {
    CutPointers(g, spb, s, s', live, ino, keep, c, c', nomem);
    CutWellFormed(g, spb, s, s', live, ino, keep, c, c', nomem);
    forall p | ValidLoc(g, p) ensures At(s', p) == if Removed(g, ino, keep, p) then 0 else At(s, p) {
      CutAt(g, s, s', live, ino, keep, p);
    }
  }

  lemma CutForest(g: Geo, spb: nat, s: Store, s': Store, live: set<Loc>, ino: nat, keep: nat, c: Counters, c': Counters, nomem: set<nat>)
    requires Cut(g, spb, s, s', live, ino, keep, c, c', nomem)
    ensures Forest(g, s', live - Beyond(g, Tree(live, ino), keep))
  {
    hide At, Base, CutIn, Freed, SlotsCut, WellFormed, Progress;
    TreeIsLiveOf(g, s, live, ino);
    hide Tree;
    CutWellFormed(g, spb, s, s', live, ino, keep, c, c', nomem);
    CutMapping(g, spb, s, s', live, ino, keep, c, c', nomem);
  }

  lemma CutOwned(g: Geo, spb: nat, s: Store, s': Store, live: set<Loc>, ino: nat, keep: nat, c: Counters, c': Counters, nomem: set<nat>)
    requires Cut(g, spb, s, s', live, ino, keep, c, c', nomem) && Owned(s, live, c.used)
    ensures Owned(s', live - Beyond(g, Tree(live, ino), keep), c'.used)
  {
    hide At, Base, CutIn, SlotsCut, WellFormed, SameElse;
    TreeIsLiveOf(g, s, live, ino);
    CutMapping(g, spb, s, s', live, ino, keep, c, c', nomem);
    CutWellFormed(g, spb, s, s', live, ino, keep, c, c', nomem);
    hide Tree;
    forall p | p in live - Beyond(g, Tree(live, ino), keep) ensures At(s', p) in c'.used {
      assert At(s', p) == At(s, p);
      StillUsed(g, s, live, c, c', Cleared(g, s, Tree(live, ino), keep, nomem), spb, p);
    }
  }

  lemma CutSectors(live: set<Loc>, lost: map<nat, nat>, sectors: map<nat, nat>, spb: nat, ino: nat, gone: set<Loc>, freed: set<Loc>, n: nat)
    requires SectorsExact(live, lost, sectors, spb) && ino in sectors
    requires freed <= gone <= LiveOf(live, ino) && n + |freed| * spb == sectors[ino]
    ensures |freed| <= |gone|
    ensures SectorsExact(live - gone, lost[ino := lost[ino] + |gone| - |freed|], sectors[ino := n], spb)
  {
    SubsetSize(freed, gone);
    var all := LiveOf(live, ino);
    assert LiveOf(live - gone, ino) == all - gone;
    assert |all - gone| == |all| - |gone|;
    var a, f := |all| + lost[ino], |freed|;
    assert (a - f) * spb == a * spb - f * spb;
    forall i: nat | i in sectors && i != ino ensures LiveOf(live - gone, i) == LiveOf(live, i) {
    }
  }

  /** The blocks of `gone` that are not in `freed` are added to those lost by the inode. */
  ghost predicate LostMore(lost: map<nat, nat>, lost': map<nat, nat>, ino: nat, gone: set<Loc>, freed: set<Loc>) {
    && ino in lost && ino in lost' && lost' == lost[ino := lost'[ino]] && freed <= gone
    && lost'[ino] + |freed| == lost[ino] + |gone|
  }

  /** The file system stays consistent, with the blocks that could not be freed counted as lost. */
  lemma CutConsistent(g: Geo, spb: nat, s: Store, s': Store, live: set<Loc>, ino: nat, keep: nat, c: Counters, c': Counters, nomem: set<nat>,
                      count: nat, lost: map<nat, nat>, sectors: map<nat, nat>, n: nat)
    requires Cut(g, spb, s, s', live, ino, keep, c, c', nomem)
    requires Consistent(g, s, live, c.used, count, lost, sectors, spb) && ino in sectors
    requires c.sectors == sectors[ino] && c'.sectors == n
    ensures var gone, freed := Beyond(g, Tree(live, ino), keep), Cleared(g, s, Tree(live, ino), keep, nomem);
            && |freed| <= |gone|
            && Consistent(g, s', live - gone, c'.used, count, lost[ino := lost[ino] + |gone| - |freed|], sectors[ino := n], spb)
  {
    hide At, CutIn, SlotsCut, SameElse, Forest, WellFormed, Owned, SectorsExact, Tree, Base, LiveOf;
    TreeIsLiveOf(g, s, live, ino);
    CutWellFormed(g, spb, s, s', live, ino, keep, c, c', nomem);
    CutForest(g, spb, s, s', live, ino, keep, c, c', nomem);
    CutOwned(g, spb, s, s', live, ino, keep, c, c', nomem);
    CutSectors(live, lost, sectors, spb, ino, Beyond(g, Tree(live, ino), keep), Cleared(g, s, Tree(live, ino), keep, nomem), n);
  }

  /** File blocks at or above `keep` read as zeros, all other bytes of all files stay. */
  lemma CutBytes(g: Geo, spb: nat, s: Store, s': Store, live: set<Loc>, ino: nat, keep: nat, c: Counters, c': Counters, nomem: set<nat>,
                 ino': nat, f: nat, off: nat)
    requires Cut(g, spb, s, s', live, ino, keep, c, c', nomem) && g.apb > 0
    ensures DataByte(g, s', ino', f, off) == if ino' == ino && f >= keep then 0 else DataByte(g, s, ino', f, off)
  {
    hide At, Base, BlockPath, MaxBlocks, Freed, SlotsCut, SameElse, Beyond;
    PathHasBase(g, ino', f);
    CutMapping(g, spb, s, s', live, ino, keep, c, c', nomem);
    CutWellFormed(g, spb, s, s', live, ino, keep, c, c', nomem);
    TreeIsLiveOf(g, s, live, ino);
    hide Tree;
    var p := BlockPath(g, ino', f);
    if p == [] {
      NoPath(s, s');
    } else if At(s, p) != 0 && !Removed(g, ino, keep, p) {
      if ino' != ino {
        OthersUntouched(g, spb, s, s', live, ino, keep, c, c', nomem, p);
      } else {
        assert p in Tree(live, ino);
      }
    }
  }
}

/** The forest of block trees of all inodes as it lies on disk, and how one pointer
    write or one truncation changes what every location holds. */
module Ext2Tree {
  import opened Ext2Map

  /** Disk blocks by number, and i_block[15] of each inode. */
  datatype Store = Store(disk: map<nat, Block>, roots: map<nat, seq<nat>>)

  function Child(disk: map<nat, Block>, b: nat, k: nat): nat {
    if b in disk && 4 * k + 3 < |disk[b]| then Ptr(disk[b], k) else 0
  }

  /** The block number stored at a location; 0 is a hole. */
  function At(s: Store, p: Loc): nat
    decreases |p|
  {
    if |p| < 2 then 0
    else if |p| == 2 then
      if p[0] in s.roots && p[1] < |s.roots[p[0]]| then s.roots[p[0]][p[1]] else 0
    else Child(s.disk, At(s, Parent(p)), p[|p| - 1])
  }

  ghost predicate WellFormed(g: Geo, s: Store) {
    && 0 < g.apb && 0 !in s.disk
    && (forall b: nat :: b in s.disk ==> b < 0x1_0000_0000 && |s.disk[b]| == g.BlockSize())
    && (forall ino: nat :: ino in s.roots ==> |s.roots[ino]| == NSLOTS)
  }

  /** `live` is the set of locations that hold a block, and no block is held twice. */
  ghost predicate Forest(g: Geo, s: Store, live: set<Loc>) {
    && (forall p :: p in live ==> ValidLoc(g, p) && At(s, p) != 0 && At(s, p) in s.disk)
    && (forall p :: ValidLoc(g, p) && At(s, p) != 0 ==> p in live)
    && (forall p, q {:trigger At(s, p), At(s, q)} :: p in live && q in live && At(s, p) == At(s, q) ==> p == q)
  }

  lemma ParentValid(g: Geo, p: Loc)
    requires ValidLoc(g, p) && |p| > 2
    ensures ValidLoc(g, Parent(p)) && Height(Parent(p)) == Height(p) + 1
    ensures Parent(p)[0] == p[0] && Parent(p)[1] == p[1] && p == Parent(p) + [p[|p| - 1]]
  {
  }

  lemma ChildValid(g: Geo, p: Loc, k: nat)
    requires ValidLoc(g, p) && Height(p) > 0 && k < g.apb
    ensures ValidLoc(g, p + [k]) && Parent(p + [k]) == p && Height(p + [k]) == Height(p) - 1
    ensures Base(g, p + [k]) == Base(g, p) + k * Span(g, Height(p) - 1)
  {
  }

  /** A hole has nothing below it, so the parent of a held location is held. */
  lemma ParentLive(g: Geo, s: Store, live: set<Loc>, p: Loc)
    requires WellFormed(g, s) && Forest(g, s, live) && p in live && |p| > 2
    ensures Parent(p) in live
  {
    ParentValid(g, p);
  }

  lemma {:induction false} PrefixLive(g: Geo, s: Store, live: set<Loc>, p: Loc, q: Loc)
    requires WellFormed(g, s) && Forest(g, s, live) && ValidLoc(g, p) && p <= q && q in live
    ensures p in live
    decreases |q|
  {
    if p != q {
      ParentLive(g, s, live, q);
      PrefixLive(g, s, live, p, Parent(q));
    }
  }

  // ---- Writing a block that is not an index block ----

  ghost predicate NotIndex(g: Geo, s: Store, b: nat) {
    forall q :: ValidLoc(g, q) && Height(q) > 0 ==> At(s, q) != b
  }

  lemma {:induction false} DataWriteAt(g: Geo, s: Store, b: nat, content: Block, p: Loc)
    requires ValidLoc(g, p) && NotIndex(g, s, b)
    ensures At(s.(disk := s.disk[b := content]), p) == At(s, p)
    decreases |p|
  {
    if |p| > 2 {
      ParentValid(g, p);
      DataWriteAt(g, s, b, content, Parent(p));
    }
  }

  // ---- Attaching a fresh zeroed block to a hole ----

  predicate HasSlot(s: Store, loc: Loc) {
    && |loc| >= 2
    && (|loc| == 2 ==> loc[0] in s.roots && loc[1] < |s.roots[loc[0]]|)
    && (|loc| > 2 ==> At(s, Parent(loc)) in s.disk && 4 * loc[|loc| - 1] + 3 < |s.disk[At(s, Parent(loc))]|)
  }

  /** Stores `v` in the pointer at `loc`. */
  function SetSlot(s: Store, loc: Loc, v: nat): Store
    requires HasSlot(s, loc) && v < 0x1_0000_0000
  {
    if |loc| == 2 then
      var slots: seq<nat> := s.roots[loc[0]][loc[1] := v];
      s.(roots := s.roots[loc[0] := slots])
    else
      var b := At(s, Parent(loc));
      s.(disk := s.disk[b := WithPtr(s.disk[b], loc[|loc| - 1], v)])
  }

  ghost predicate CanAttach(g: Geo, s: Store, live: set<Loc>, loc: Loc, b: nat) {
    && WellFormed(g, s) && Forest(g, s, live)
    && ValidLoc(g, loc) && loc[0] in s.roots && At(s, loc) == 0
    && (|loc| > 2 ==> Parent(loc) in live)
    && b in s.disk && (forall p :: p in live ==> At(s, p) != b)
    && s.disk[b] == ZeroBlock(g)
  }

  lemma AttachHasSlot(g: Geo, s: Store, live: set<Loc>, loc: Loc, b: nat)
    requires CanAttach(g, s, live, loc, b)
    ensures HasSlot(s, loc) && b < 0x1_0000_0000
  {
  }

  /** The pointer written is the only one that changes. */
  lemma SlotOnly(g: Geo, s: Store, live: set<Loc>, loc: Loc, b: nat, p: Loc)
    requires CanAttach(g, s, live, loc, b)
    requires ValidLoc(g, p) && |p| > 2 && Parent(p) in live
    ensures Child(SetSlot(s, loc, b).disk, At(s, Parent(p)), p[|p| - 1]) ==
            if p == loc then b else Child(s.disk, At(s, Parent(p)), p[|p| - 1])
  {
    if |loc| > 2 && At(s, Parent(p)) == At(s, Parent(loc)) {
      assert Parent(p) == Parent(loc);
      assert p == Parent(p) + [p[|p| - 1]] && loc == Parent(loc) + [loc[|loc| - 1]];
      PtrRoundTrip(s.disk[At(s, Parent(p))], loc[|loc| - 1], b, p[|p| - 1]);
    } else if p == loc {
      assert false;
    }
  }

  lemma ZeroChild(g: Geo, s: Store, b: nat, k: nat)
    requires b in s.disk && s.disk[b] == ZeroBlock(g)
    ensures Child(s.disk, b, k) == 0
  {
  }

  lemma {:induction false} AttachAt(g: Geo, s: Store, live: set<Loc>, loc: Loc, b: nat, p: Loc)
    requires CanAttach(g, s, live, loc, b) && ValidLoc(g, p)
    ensures At(SetSlot(s, loc, b), p) == if p == loc then b else At(s, p)
    decreases |p|
  {
    if |p| == 2 {
      if p != loc && |loc| == 2 {
        assert p[0] != loc[0] || p[1] != loc[1];
      }
    } else {
      ParentValid(g, p);
      var q := Parent(p);
      AttachAt(g, s, live, loc, b, q);
      if q == loc {
        AttachedEmpty(g, s, live, loc, b, p[|p| - 1]);
      } else if At(s, q) != 0 {
        SlotOnly(g, s, live, loc, b, p);
      }
    }
  }

  /** The new block itself is not touched by the pointer write, so it has no children. */
  lemma AttachedEmpty(g: Geo, s: Store, live: set<Loc>, loc: Loc, b: nat, k: nat)
    requires CanAttach(g, s, live, loc, b)
    ensures Child(SetSlot(s, loc, b).disk, b, k) == 0 && Child(s.disk, At(s, loc), k) == 0
  {
    ZeroChild(g, s, b, k);
  }

  /** The forest grows by just that location. */
  lemma AttachForest(g: Geo, s: Store, live: set<Loc>, loc: Loc, b: nat)
    requires CanAttach(g, s, live, loc, b)
    ensures WellFormed(g, SetSlot(s, loc, b)) && Forest(g, SetSlot(s, loc, b), live + {loc})
    ensures SetSlot(s, loc, b).disk.Keys == s.disk.Keys && loc !in live
  {
    var s' := SetSlot(s, loc, b);
    forall p | ValidLoc(g, p) ensures At(s', p) == if p == loc then b else At(s, p) {
      AttachAt(g, s, live, loc, b, p);
    }
    assert s'.disk.Keys == s.disk.Keys;
    hide At, SetSlot, Child;
    assert Forest(g, s', live + {loc});
  }

  // ---- Cutting every location at or above a file block ----

  predicate Removed(g: Geo, ino: nat, keep: nat, p: Loc)
    requires ValidLoc(g, p)
  {
    p[0] == ino && Base(g, p) >= keep
  }

  /** What trunc_tree leaves on disk: pointers to removed children are zero in every
      index block that stays, and all other pointers are as before. */
  ghost predicate PointersCut(g: Geo, s: Store, s': Store, live: set<Loc>, ino: nat, keep: nat) {
    && s'.roots.Keys == s.roots.Keys
    && (forall p :: ValidLoc(g, p) && |p| == 2 ==> At(s', p) == if Removed(g, ino, keep, p) then 0 else At(s, p))
    && (forall p, k: nat {:trigger Child(s.disk, At(s, p), k)} {:trigger Child(s'.disk, At(s, p), k)} ::
          p in live && ValidLoc(g, p) && Height(p) > 0 && k < g.apb && !Removed(g, ino, keep, p) ==>
            Child(s'.disk, At(s, p), k) ==
            if ValidLoc(g, p + [k]) && Removed(g, ino, keep, p + [k]) then 0 else Child(s.disk, At(s, p), k))
  }

  lemma {:induction false} CutAt(g: Geo, s: Store, s': Store, live: set<Loc>, ino: nat, keep: nat, p: Loc)
    requires WellFormed(g, s) && Forest(g, s, live) && 0 !in s'.disk
    requires PointersCut(g, s, s', live, ino, keep) && ValidLoc(g, p)
    ensures At(s', p) == if Removed(g, ino, keep, p) then 0 else At(s, p)
    decreases |p|
  {
    if |p| > 2 {
      ParentValid(g, p);
      var q := Parent(p);
      CutAt(g, s, s', live, ino, keep, q);
      Covers(g, q, p);
      if At(s, q) != 0 && !Removed(g, ino, keep, q) {
        var k := p[|p| - 1];
        assert q in live;
        assert Child(s'.disk, At(s, q), k) == if Removed(g, ino, keep, p) then 0 else Child(s.disk, At(s, q), k);
      }
    }
  }
}

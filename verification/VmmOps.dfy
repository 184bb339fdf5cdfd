/** The operations on one address space: walking with table creation, mapping, unmapping,
    translating, and building the kernel's linear map (kernel/mm/vmm.c:94-161, 264-361, 413-462). */
module VmmOps {
  import opened PageTables
  import opened Vmm
  import opened VmmPrune

  const UserEnd: nat := 0x7_FFFF_FFFF      // USER_SPACE_END, in pages

  /** Same translations, and every table that was there still is. */
  ghost predicate Grew(mem: Mem, m: Mem, root: nat) {
    && (forall v :: 0 <= v < Pages ==> Tr(m, root, v) == Tr(mem, root, v))
    && (forall q: Path {:trigger Node(m, root, q)} :: |q| <= 3 && Node(mem, root, q).Some? ==> Node(m, root, q) == Node(mem, root, q))
  }

  lemma GrewRefl(mem: Mem, root: nat)
    ensures Grew(mem, mem, root)
  {
  }

  lemma GrewTrans(a: Mem, b: Mem, c: Mem, root: nat)
    requires Grew(a, b, root) && Grew(b, c, root)
    ensures Grew(a, c, root)
  {
    hide Node, Tr;
    forall q: Path | |q| <= 3 && Node(a, root, q).Some? ensures Node(c, root, q) == Node(a, root, q) {
      assert Node(b, root, q) == Node(a, root, q);
    }
  }

  lemma GrownGrew(mem: Mem, root: nat, p: Path, f: nat, i: nat, t: nat)
    requires CanGrow(mem, root, p, f, i, t)
    ensures var m := Grown(mem, f, i, t); Tree(m, root) && Node(m, root, p + [i]) == Some(t) && Grew(mem, m, root)
    ensures OneEntry(mem, Grown(mem, f, i, t), root, p, i, Sub(t))
  {
    hide Tree, Node, Tr;
    var m := Grown(mem, f, i, t);
    GrownEntries(mem, root, p, f, i, t);
    GrownAbsent(mem, root, p, f, i, t);
    NodeStep(mem, root, p, i);
    assert SameLeaves(mem, m, root);
    SameLeavesTr(mem, m, root);
  }

  lemma GrownAbsent(mem: Mem, root: nat, p: Path, f: nat, i: nat, t: nat)
    requires CanGrow(mem, root, p, f, i, t)
    ensures EntryAt(mem, root, p, i) == Absent
  {
  }

  /** The entry that a table holds is the entry at its path. */
  lemma EntryIs(mem: Mem, root: nat, p: Path, f: nat, i: nat)
    requires Tree(mem, root) && |p| <= 3 && Node(mem, root, p) == Some(f) && i < 512
    ensures f in mem && |mem[f]| == 512 && EntryAt(mem, root, p, i) == mem[f][i]
    ensures p == [] ==> !mem[f][i].Leaf?
    ensures |p| == 3 ==> !mem[f][i].Sub?
  {
  }

  lemma RootNode(mem: Mem, root: nat)
    ensures Node(mem, root, []) == Some(root)
  {
  }

  /** The 2 MiB run of a page begins in the range (rounded down), and in the user half. */
  predicate Visited(start: nat, end: nat, v: nat) {
    start / Mib2 * Mib2 <= v / Mib2 * Mib2 < end && v / Mib2 * Mib2 < UserEnd
  }

  class AddressSpace {
    const root: nat
    var mem: Mem            // the frames that hold tables
    var pool: set<nat>      // the frames that the page allocator can give

    ghost predicate Valid()
      reads this
    {
      Tree(mem, root) && mem.Keys !! pool
    }

    /** next_level: the table below entry `i`, made if asked for. */
    method NextLevel(ghost p: Path, f: nat, i: nat, create: bool) returns (r: Option<nat>)
      requires Valid() && |p| <= 2 && Node(mem, root, p) == Some(f) && i < 512
      modifies this
      ensures Valid() && Grew(old(mem), mem, root) && mem.Keys + pool == old(mem.Keys + pool)
      ensures r.Some? ==> Node(mem, root, p + [i]) == r && OneEntry(old(mem), mem, root, p, i, Sub(r.value))
      ensures r.None? ==> mem == old(mem) && pool == old(pool) && !EntryAt(mem, root, p, i).Sub?
      ensures r.None? && create ==> pool == {} || (p != [] && EntryAt(mem, root, p, i).Leaf?)
      ensures !create ==> mem == old(mem) && pool == old(pool)
    {
      hide Tree, Node, Tr, EntryAt, Grew;
      EntryIs(mem, root, p, f, i);
      NodeStep(mem, root, p, i);
      GrewRefl(mem, root);
      var e := mem[f][i];
      if e.Sub? {
        return Some(e.t);
      }
      if e.Leaf? || !create || pool == {} {
        return None;
      }
      var t: nat :| t in pool;
      GrownGrew(mem, root, p, f, i, t);
      mem := Grown(mem, f, i, t);
      pool := pool - {t};
      return Some(t);
    }

    /** vmm_get_pte: the last-level table on the way to a page. */
    method GetPte(v: nat, create: bool) returns (r: Option<nat>)
      requires Valid() && v < Pages
      modifies this
      ensures Valid() && Grew(old(mem), mem, root) && mem.Keys + pool == old(mem.Keys + pool)
      ensures r.Some? ==> Node(mem, root, P3(v)) == r
      ensures r.None? && create ==> pool == {} || Huge(mem, root, v)
      ensures !create ==> mem == old(mem) && pool == old(pool)
      ensures !create && r.None? ==> Node(mem, root, P3(v)) == None
    {
      hide Tree, Node, Tr, EntryAt, Grew, I1, I2, I3, I4;
      RootNode(mem, root);
      ghost var m0 := mem;
      var t4 := NextLevel([], root, I4(v), create);
      assert [] + [I4(v)] == P1(v) && P1(v) + [I3(v)] == P2(v) && P2(v) + [I2(v)] == P3(v);
      if t4.None? {
        NoneBelow(mem, root, v);
        return None;
      }
      ghost var m1 := mem;
      var t3 := NextLevel(P1(v), t4.value, I3(v), create);
      GrewTrans(m0, m1, mem, root);
      if t3.None? {
        NoneBelow(mem, root, v);
        return None;
      }
      ghost var m2 := mem;
      r := NextLevel(P2(v), t3.value, I2(v), create);
      GrewTrans(m0, m2, mem, root);
      if r.None? {
        NoneBelow(mem, root, v);
      }
    }

    /** vmm_map_page (which panics on a page that has a last-level entry already): on success just
        this page is mapped; on failure nothing is, and there is no frame left or a huge page. */
    method MapPage(v: nat, pfn: nat, flags: nat) returns (ok: bool)
      requires Valid() && v < Pages && !EntryAt(mem, root, P3(v), I1(v)).Leaf?
      modifies this
      ensures Valid() && mem.Keys + pool == old(mem.Keys + pool)
      ensures ok ==> forall w :: 0 <= w < Pages ==> Tr(mem, root, w) == if w == v then Some(To(pfn, flags)) else Tr(old(mem), root, w)
      ensures !ok ==> (forall w :: 0 <= w < Pages ==> Tr(mem, root, w) == Tr(old(mem), root, w)) && (pool == {} || Huge(mem, root, v))
    {
      hide Tree, Node, Tr, EntryAt, I1, I2, I3, I4;
      var pt := GetPte(v, true);
      if pt.None? {
        return false;
      }
      PutSmall(mem, root, v, pt.value, Leaf(pfn, flags));
      mem := Poke(mem, pt.value, I1(v), Leaf(pfn, flags));
      return true;
    }

    /** vmm_unmap_page: the frame of a 4 KiB mapping, which is gone; nothing else changes. */
    method UnmapPage(v: nat) returns (r: Option<nat>)
      requires Valid() && v < Pages
      modifies this
      ensures Valid() && mem.Keys + pool == old(mem.Keys + pool)
      ensures r.Some? <==> Tr(old(mem), root, v).Some? && !Huge(old(mem), root, v)
      ensures r.Some? ==> r.value == Tr(old(mem), root, v).value.pfn
      ensures r.Some? ==> forall w :: 0 <= w < Pages ==> Tr(mem, root, w) == if w == v then None else Tr(old(mem), root, w)
      ensures r.None? ==> mem == old(mem)
      ensures NoHuge(old(mem), root) ==> NoHuge(mem, root)
    {
      hide Tree, Node, EntryAt, I1, I2, I3, I4, NoHuge;
      var pt := GetPte(v, false);
      OnWay(mem, root, v);
      BelowNone(mem, root, v);
      if pt.None? {
        return None;
      }
      EntryIs(mem, root, P3(v), pt.value, I1(v));
      var e := mem[pt.value][I1(v)];
      if !e.Leaf? {
        return None;
      }
      PutNoHuge(mem, root, v, pt.value, Absent);
      PutSmall(mem, root, v, pt.value, Absent);
      mem := Poke(mem, pt.value, I1(v), Absent);
      return Some(e.pfn);
    }

    /** vmm_update_flags: new permissions for a 4 KiB mapping, same frame. */
    method UpdateFlags(v: nat, flags: nat) returns (ok: bool)
      requires Valid() && v < Pages
      modifies this
      ensures Valid() && mem.Keys + pool == old(mem.Keys + pool)
      ensures ok <==> Tr(old(mem), root, v).Some? && !Huge(old(mem), root, v)
      ensures ok ==> forall w :: 0 <= w < Pages ==>
                Tr(mem, root, w) == if w == v then Some(To(Tr(old(mem), root, v).value.pfn, flags)) else Tr(old(mem), root, w)
      ensures !ok ==> mem == old(mem)
    {
      hide Tree, Node, EntryAt, I1, I2, I3, I4;
      var pt := GetPte(v, false);
      OnWay(mem, root, v);
      BelowNone(mem, root, v);
      if pt.None? {
        return false;
      }
      EntryIs(mem, root, P3(v), pt.value, I1(v));
      var e := mem[pt.value][I1(v)];
      if !e.Leaf? {
        return false;
      }
      PutSmall(mem, root, v, pt.value, Leaf(e.pfn, flags));
      mem := Poke(mem, pt.value, I1(v), Leaf(e.pfn, flags));
      return true;
    }

    /** vmm_translate: the walk agrees with the map. */
    method Translate(v: nat) returns (r: Option<To>)
      requires Valid() && v < Pages
      ensures r == Tr(mem, root, v)
    {
      hide Tree, Node, EntryAt, I1, I2, I3, I4;
      RootNode(mem, root);
      OnWay(mem, root, v);
      BelowNone(mem, root, v);
      EntryIs(mem, root, [], root, I4(v));
      var e4 := mem[root][I4(v)];
      if !e4.Sub? {
        NoneAt(mem, root, v);
        return None;
      }
      EntryIs(mem, root, P1(v), e4.t, I3(v));
      var e3 := mem[e4.t][I3(v)];
      if e3.Absent? {
        return None;
      }
      if e3.Leaf? {
        return Some(To(e3.pfn / Gib * Gib + v % Gib, e3.flags));
      }
      EntryIs(mem, root, P2(v), e3.t, I2(v));
      var e2 := mem[e3.t][I2(v)];
      if e2.Absent? {
        return None;
      }
      if e2.Leaf? {
        return Some(To(e2.pfn / Mib2 * Mib2 + v % Mib2, e2.flags));
      }
      EntryIs(mem, root, P3(v), e2.t, I1(v));
      var e1 := mem[e2.t][I1(v)];
      return if e1.Leaf? then Some(To(e1.pfn, e1.flags)) else None;
    }

    /** One round of map_range: the number of pages mapped at `v` with one entry, or 0 where the
        source panics (no frame left, or a huge page in the way). */
    method MapStep(v: nat, pfn: nat, left: nat, flags: nat, page1gb: bool) returns (n: nat)
      requires Valid() && v + left <= Pages && left > 0
      modifies this
      ensures Valid() && n <= left
      ensures n == 0 ==> forall w :: 0 <= w < Pages ==> Tr(mem, root, w) == Tr(old(mem), root, w)
      ensures n > 0 ==> Linear(old(mem), mem, root, v, pfn, n, flags)
      ensures n == 0 ==> pool == {} || Huge(mem, root, v)
      ensures n > 0 ==>
                n == if page1gb && v % 262144 == 0 && pfn % 262144 == 0 && left >= 262144 && EntryAt(old(mem), root, P1(v), I3(v)).Absent? then 262144
                     else if v % 512 == 0 && pfn % 512 == 0 && left >= 512 && EntryAt(old(mem), root, P2(v), I2(v)).Absent? then 512
                     else 1
    {
      hide Tree, Node, Tr, EntryAt, Grew, Linear, I1, I2, I3, I4;
      RootNode(mem, root);
      ghost var m0 := mem;
      assert [] + [I4(v)] == P1(v) && P1(v) + [I3(v)] == P2(v) && P2(v) + [I2(v)] == P3(v);
      var pdpt := NextLevel([], root, I4(v), true);
      GrewTr(m0, mem, root);
      if pdpt.None? {
        return 0;
      }
      EntryIs(mem, root, P1(v), pdpt.value, I3(v));
      if page1gb && v % Gib == 0 && pfn % Gib == 0 && left >= Gib && mem[pdpt.value][I3(v)].Absent? {
        PutBig(mem, root, v, pdpt.value, pfn, flags);
        LinearFrom(m0, mem, Poke(mem, pdpt.value, I3(v), Leaf(pfn, flags)), root, v, pfn, Gib, flags);
        mem := Poke(mem, pdpt.value, I3(v), Leaf(pfn, flags));
        return Gib;
      }
      ghost var m1 := mem;
      var pd := NextLevel(P1(v), pdpt.value, I3(v), true);
      GrewTr(m1, mem, root);
      if pd.None? {
        return 0;
      }
      EntryIs(mem, root, P2(v), pd.value, I2(v));
      if v % Mib2 == 0 && pfn % Mib2 == 0 && left >= Mib2 && mem[pd.value][I2(v)].Absent? {
        PutMid(mem, root, v, pd.value, pfn, flags);
        LinearFrom(m0, mem, Poke(mem, pd.value, I2(v), Leaf(pfn, flags)), root, v, pfn, Mib2, flags);
        mem := Poke(mem, pd.value, I2(v), Leaf(pfn, flags));
        return Mib2;
      }
      ghost var m2 := mem;
      var pt := NextLevel(P2(v), pd.value, I2(v), true);
      GrewTr(m2, mem, root);
      if pt.None? {
        return 0;
      }
      PutSmall(mem, root, v, pt.value, Leaf(pfn, flags));
      LinearOne(mem, Poke(mem, pt.value, I1(v), Leaf(pfn, flags)), root, v, pfn, flags);
      LinearFrom(m0, mem, Poke(mem, pt.value, I1(v), Leaf(pfn, flags)), root, v, pfn, 1, flags);
      mem := Poke(mem, pt.value, I1(v), Leaf(pfn, flags));
      return 1;
    }

    /** map_range: with any mix of page sizes the range translates like the page-by-page linear map,
        and everything else as before. */
    method MapRange(v: nat, pfn: nat, size: nat, flags: nat, page1gb: bool) returns (ok: bool)
      requires Valid() && v + size <= Pages
      modifies this
      ensures Valid()
      ensures ok ==> forall w :: 0 <= w < Pages ==>
                Tr(mem, root, w) == if v <= w < v + size then Some(To(pfn + (w - v), flags)) else Tr(old(mem), root, w)
      ensures !ok ==> forall w :: 0 <= w < Pages && !(v <= w < v + size) ==> Tr(mem, root, w) == Tr(old(mem), root, w)
      ensures !ok ==> pool == {} || exists w :: v <= w < v + size && Huge(mem, root, w)
    {
      hide Tree, Node, Tr, EntryAt;
      ghost var m0 := mem;
      var at := v;
      while at < v + size
        invariant Valid() && v <= at <= v + size
        invariant Linear(m0, mem, root, v, pfn, at - v, flags)
      {
        ghost var m := mem;
        var n := MapStep(at, pfn + (at - v), v + size - at, flags, page1gb);
        if n == 0 {
          return false;
        }
        LinearJoin(m0, m, mem, root, v, pfn, at - v, n, flags);
        at := at + n;
      }
      return true;
    }

    /** One round of vmm_prune_tables at the 2 MiB run of `va`: drops its last-level table if that is
        empty, and then the tables above it that have become empty. */
    method PruneStep(va: nat) returns (next: nat)
      requires Valid() && va < UserEnd && va % Mib2 == 0
      modifies this
      ensures Valid() && Shrunk(old(mem), mem, root) && mem.Keys + pool == old(mem.Keys + pool)
      ensures next > va && next % Mib2 == 0
      ensures forall w :: va <= w < next && w < Pages ==> PtUsed(mem, root, w)
      ensures forall q: Path :: |q| == 3 && q != P3(va) ==> Node(mem, root, q) == Node(old(mem), root, q)
    {
      hide Tree, Node, Tr, EntryAt, Shrunk, PtUsed, EmptyTable, I1, I2, I3, I4, NextRun;
      ghost var m0 := mem;
      ShrunkRefl(mem, root);
      RootNode(mem, root);
      OnWay(mem, root, va);
      assert [] + [I4(va)] == P1(va) && P1(va) + [I3(va)] == P2(va) && P2(va) + [I2(va)] == P3(va);
      EntryIs(mem, root, [], root, I4(va));
      var e4 := mem[root][I4(va)];
      if !e4.Sub? {
        next := NextRun(va, Pml4);
        CoverPml4(mem, root, va, next);
        return;
      }
      var l3 := e4.t;
      EntryIs(mem, root, P1(va), l3, I3(va));
      var e3 := mem[l3][I3(va)];
      if !e3.Sub? {
        next := NextRun(va, Gib);
        CoverGib(mem, root, va, next);
        return;
      }
      var l2 := e3.t;
      PruneLast(va, l2);
      ghost var m1 := mem;
      OnWay(m1, root, va);
      EntryIs(mem, root, P2(va), l2, 0);
      if EmptyTable(mem[l2]) {
        PruneUpper(va, l3, l2);
        ShrunkTrans(m0, m1, mem, root);
        next := NextRun(va, Gib);
        CoverGib(mem, root, va, next);
      } else {
        next := va + Mib2;
        CoverMib(mem, root, va, next);
      }
    }

    /** The last-level table of the run, if empty, is freed. */
    method PruneLast(va: nat, l2: nat)
      requires Valid() && va < Pages && Node(mem, root, P2(va)) == Some(l2)
      modifies this
      ensures Valid() && Shrunk(old(mem), mem, root) && mem.Keys + pool == old(mem.Keys + pool)
      ensures Node(mem, root, P2(va)) == Some(l2) && Node(mem, root, P1(va)) == Node(old(mem), root, P1(va))
      ensures forall q: Path :: |q| == 3 && q != P3(va) ==> Node(mem, root, q) == Node(old(mem), root, q)
      ensures forall w :: 0 <= w < Pages && w / Mib2 == va / Mib2 ==> PtUsed(mem, root, w)
    {
      hide Tree, Node, Tr, EntryAt, PtUsed, Shrunk, EmptyTable, I1, I2, I3, I4;
      ShrunkRefl(mem, root);
      EntryIs(mem, root, P2(va), l2, I2(va));
      OnWay(mem, root, va);
      var e2 := mem[l2][I2(va)];
      if e2.Sub? {
        assert P2(va) + [I2(va)] == P3(va);
        SubTable(mem, root, P2(va), l2, I2(va));
        if EmptyTable(mem[e2.t]) {
          PrunedShrunk(mem, root, P2(va), l2, I2(va));
          PrunedEntries(mem, root, P2(va), l2, I2(va));
          mem, pool := Pruned(mem, l2, I2(va)), pool + {e2.t};
          GoneHere(mem, root, va);
        } else {
          UsedHere(mem, root, va, e2.t);
        }
      } else {
        GoneHere(mem, root, va);
      }
    }

    /** The empty directory `l2` is freed, and the table above it if that is empty then. */
    method PruneUpper(va: nat, l3: nat, l2: nat)
      requires Valid() && va < Pages && Node(mem, root, P1(va)) == Some(l3) && Node(mem, root, P2(va)) == Some(l2)
      requires l2 in mem && EmptyTable(mem[l2])
      modifies this
      ensures Valid() && Shrunk(old(mem), mem, root) && mem.Keys + pool == old(mem.Keys + pool)
      ensures Node(mem, root, P2(va)) == None
      ensures forall q: Path :: |q| == 3 ==> Node(mem, root, q) == Node(old(mem), root, q)
    {
      hide Tree, Node, Tr, EntryAt, PtUsed, Shrunk, EmptyTable, I1, I2, I3, I4;
      ghost var m0 := mem;
      OnWay(mem, root, va);
      assert [] + [I4(va)] == P1(va) && P1(va) + [I3(va)] == P2(va);
      EntryIs(mem, root, P1(va), l3, I3(va));
      SubTable(mem, root, P1(va), l3, I3(va));
      PrunedShrunk(mem, root, P1(va), l3, I3(va));
      PrunedEntries(mem, root, P1(va), l3, I3(va));
      mem, pool := Pruned(mem, l3, I3(va)), pool + {l2};
      RootNode(mem, root);
      OnWay(mem, root, va);
      EntryIs(mem, root, P1(va), l3, I3(va));
      if EmptyTable(mem[l3]) {
        ghost var m1 := mem;
        EntryIs(mem, root, [], root, I4(va));
        SubTable(mem, root, [], root, I4(va));
        PrunedShrunk(mem, root, [], root, I4(va));
        PrunedEntries(mem, root, [], root, I4(va));
        mem, pool := Pruned(mem, root, I4(va)), pool + {l3};
        BelowNone(mem, root, va);
        ShrunkTrans(m0, m1, mem, root);
      }
    }

    lemma OtherRun(start: nat, end: nat, va: nat)
      requires start / Mib2 * Mib2 <= va < end && va < UserEnd && va % Mib2 == 0
      ensures forall w :: 0 <= w < Pages && !Visited(start, end, w) ==> P3(w) != P3(va)
    {
      hide I1, I2, I3, I4;
      forall w: nat | w < Pages && !Visited(start, end, w) ensures P3(w) != P3(va) {
        SamePage(w, va);
        assert P3(w)[0] == I4(w) && P3(w)[1] == I3(w) && P3(w)[2] == I2(w);
      }
    }

    /** vmm_prune_tables: no translation changes, only tables go, and no empty last-level table is
        left in the range. The user half holds no huge pages, as the source assumes. */
    method Prune(start: nat, end: nat)
      requires Valid() && forall v :: 0 <= v < UserEnd ==> !Huge(mem, root, v)
      modifies this
      ensures Valid() && Shrunk(old(mem), mem, root) && mem.Keys + pool == old(mem.Keys + pool)
      ensures forall v :: start <= v < end && v < UserEnd ==> PtUsed(mem, root, v)
      ensures forall v :: 0 <= v < Pages && !Visited(start, end, v) ==> Node(mem, root, P3(v)) == Node(old(mem), root, P3(v))
    {
      hide Tree, Node, Tr, PtUsed, Huge, I1, I2, I3, I4, Visited, OnlyEmpty;
      var stop := if end > UserEnd then UserEnd else end;
      var va := start / Mib2 * Mib2;
      ghost var m0 := mem;
      ShrunkRefl(mem, root);
      while va < stop
        invariant Valid() && Shrunk(m0, mem, root) && mem.Keys + pool == m0.Keys + old(pool) && va % Mib2 == 0
        invariant forall w :: start <= w < va && w < Pages ==> PtUsed(mem, root, w)
        invariant start / Mib2 * Mib2 <= va
        invariant forall w :: 0 <= w < Pages && !Visited(start, end, w) ==> Node(mem, root, P3(w)) == Node(m0, root, P3(w))
        decreases stop - va
      {
        ghost var m := mem;
        OtherRun(start, end, va);
        var next := PruneStep(va);
        ShrunkTrans(m0, m, mem, root);
        va := next;
      }
    }

    /** release_user_frame for each page of one last-level table. */
    method DropPt(i: nat, j: nat, k: nat, f: nat, ram: set<nat>) returns (d: seq<Drop>)
      requires Valid() && i < 512 && j < 512 && k < 512 && Node(mem, root, [i, j, k]) == Some(f)
      ensures First(i, j, k) + 512 <= Pages && Exact(mem, root, ram, d, First(i, j, k), First(i, j, k) + 512)
    {
      hide Tree, Node, Small, Exact, First;
      var base := First(i, j, k);
      SmallIs(mem, root, ram, i, j, k, f, 511);
      d := [];
      ExactNone(mem, root, ram, base, base);
      for m := 0 to 512
        invariant Exact(mem, root, ram, d, base, base + m)
      {
        SmallIs(mem, root, ram, i, j, k, f, m);
        var e := mem[f][m];
        if e.Leaf? && e.pfn in ram {
          ExactOne(mem, root, ram, base + m, e.pfn);
          ExactJoin(mem, root, ram, d, [Drop(base + m, e.pfn)], base, base + m, base + m + 1);
          d := d + [Drop(base + m, e.pfn)];
        } else {
          ExactNone(mem, root, ram, base + m, base + m + 1);
          ExactJoin(mem, root, ram, d, [], base, base + m, base + m + 1);
          assert d + [] == d;
        }
      }
    }

    /** The loop over a page directory: each last-level table is read and then freed. */
    method DropPd(i: nat, j: nat, l2: nat, ram: set<nat>, fr: seq<nat>, ghost ps: seq<Path>) returns (d: seq<Drop>, fr': seq<nat>, ghost ps': seq<Path>)
      requires Valid() && i < 512 && j < 512 && Node(mem, root, [i, j]) == Some(l2) && FreedTo(mem, root, fr, ps, i, j, 0)
      ensures FreedTo(mem, root, fr', ps', i, j, 512)
      ensures First(i, j, 512) <= Pages && Exact(mem, root, ram, d, First(i, j, 0), First(i, j, 512))
    {
      hide Tree, Node, Small, Exact, FreedTo, First, Passed, P3, I1;
      d, fr', ps' := [], fr, ps;
      FirstBound(i, j, 0);
      ExactNone(mem, root, ram, First(i, j, 0), First(i, j, 0));
      for k := 0 to 512
        invariant FreedTo(mem, root, fr', ps', i, j, k)
        invariant First(i, j, k) <= Pages && Exact(mem, root, ram, d, First(i, j, 0), First(i, j, k))
      {
        FirstNext(i, j, k);
        FirstBound(i, j, k + 1);
        NotPassed(i, j, k);
        NotFreed(mem, root, fr', ps', i, j, k, [i, j], l2);
        assert l2 !in fr';
        EntryIs(mem, root, [i, j], l2, k);
        NodeStep(mem, root, [i, j], k);
        assert [i, j] + [k] == [i, j, k];
        FreedStep3(mem, root, fr', ps', i, j, k);
        var e := mem[l2][k];
        if e.Sub? {
          NotFreed(mem, root, fr', ps', i, j, k, [i, j, k], e.t);
          assert e.t !in fr';
          var d1 := DropPt(i, j, k, e.t, ram);
          ExactJoin(mem, root, ram, d, d1, First(i, j, 0), First(i, j, k), First(i, j, k + 1));
          d, fr', ps' := d + d1, fr' + [e.t], ps' + [[i, j, k]];
        } else {
          NoneMapped3(mem, root, ram, i, j, k);
          ExactJoin(mem, root, ram, d, [], First(i, j, 0), First(i, j, k), First(i, j, k + 1));
          assert d + [] == d;
        }
      }
    }

    /** The loop over a directory pointer table. */
    method DropPdpt(i: nat, l3: nat, ram: set<nat>, fr: seq<nat>, ghost ps: seq<Path>) returns (d: seq<Drop>, fr': seq<nat>, ghost ps': seq<Path>)
      requires Valid() && i < 512 && Node(mem, root, [i]) == Some(l3) && FreedTo(mem, root, fr, ps, i, 0, 0)
      ensures FreedTo(mem, root, fr', ps', i, 512, 0)
      ensures First(i, 512, 0) <= Pages && Exact(mem, root, ram, d, First(i, 0, 0), First(i, 512, 0))
    {
      hide Tree, Node, Small, Exact, FreedTo, First, Passed, P3, I1;
      d, fr', ps' := [], fr, ps;
      FirstBound(i, 0, 0);
      ExactNone(mem, root, ram, First(i, 0, 0), First(i, 0, 0));
      for j := 0 to 512
        invariant FreedTo(mem, root, fr', ps', i, j, 0)
        invariant First(i, j, 0) <= Pages && Exact(mem, root, ram, d, First(i, 0, 0), First(i, j, 0))
      {
        FirstNext(i, j, 0);
        FirstBound(i, j + 1, 0);
        NotPassed(i, j, 0);
        NotFreed(mem, root, fr', ps', i, j, 0, [i], l3);
        assert l3 !in fr';
        EntryIs(mem, root, [i], l3, j);
        NodeStep(mem, root, [i], j);
        assert [i] + [j] == [i, j];
        var e := mem[l3][j];
        if e.Sub? {
          var d1;
          d1, fr', ps' := DropPd(i, j, e.t, ram, fr', ps');
          FreedStep2(mem, root, fr', ps', i, j, 512);
          ExactJoin(mem, root, ram, d, d1, First(i, 0, 0), First(i, j, 0), First(i, j + 1, 0));
          d, fr', ps' := d + d1, fr' + [e.t], ps' + [[i, j]];
        } else {
          FreedStep2(mem, root, fr', ps', i, j, 0);
          NoneMapped2(mem, root, ram, i, j, 512);
          ExactJoin(mem, root, ram, d, [], First(i, 0, 0), First(i, j, 0), First(i, j + 1, 0));
          assert d + [] == d;
        }
      }
    }

    /** vmm_destroy_address_space: every table of the user half is freed exactly once, after it was
        last read, and then the PML4; one reference is dropped for each page that was mapped to one of
        the counted frames `ram`. */
    method Destroy(ram: set<nat>) returns (d: seq<Drop>, freed: seq<nat>)
      requires Valid() && forall v :: 0 <= v < UserHalf ==> !Huge(mem, root, v)
      modifies this
      ensures forall a, b :: 0 <= a < b < |d| ==> d[a].page < d[b].page
      ensures forall a :: 0 <= a < |d| ==> d[a].page < UserHalf
      ensures forall v, x :: 0 <= v < UserHalf ==> (Drop(v, x) in d <==> Tr(old(mem), root, v).Some? && Tr(old(mem), root, v).value.pfn == x && x in ram)
      ensures forall a, b :: 0 <= a < b < |freed| ==> freed[a] != freed[b]
      ensures forall f :: f in freed <==> f == root || IsUserTable(old(mem), root, f)
      ensures mem == old(mem) - (set f | f in freed) && pool == old(pool) + (set f | f in freed)
    {
      hide Tree, Node, Small, Exact, FreedTo, Huge, First, Passed;
      freed := [];
      ghost var ps: seq<Path> := [];
      d := [];
      RootNode(mem, root);
      FreedNone(mem, root);
      FirstNext(0, 0, 0);
      ExactNone(mem, root, ram, 0, 0);
      for i := 0 to 256
        invariant mem == old(mem) && pool == old(pool)
        invariant FreedTo(mem, root, freed, ps, i, 0, 0)
        invariant First(i, 0, 0) <= Pages && Exact(mem, root, ram, d, 0, First(i, 0, 0))
      {
        FirstNext(i, 512, 0);
        FirstBound(i + 1, 0, 0);
        NotPassed(i, 0, 0);
        NotFreed(mem, root, freed, ps, i, 0, 0, [], root);
        assert root !in freed;
        EntryIs(mem, root, [], root, i);
        NodeStep(mem, root, [], i);
        assert [] + [i] == [i];
        var e := mem[root][i];
        if e.Sub? {
          var d1;
          d1, freed, ps := DropPdpt(i, e.t, ram, freed, ps);
          FreedStep1(mem, root, freed, ps, i, 512);
          ExactJoin(mem, root, ram, d, d1, 0, First(i, 0, 0), First(i + 1, 0, 0));
          d, freed, ps := d + d1, freed + [e.t], ps + [[i]];
        } else {
          FreedStep1(mem, root, freed, ps, i, 0);
          NoneMapped1(mem, root, ram, i, 512);
          ExactJoin(mem, root, ram, d, [], 0, First(i, 0, 0), First(i + 1, 0, 0));
          assert d + [] == d;
        }
      }
      FirstNext(256, 0, 0);
      NotPassed(256, 0, 0);
      NotFreed(mem, root, freed, ps, 256, 0, 0, [], root);
      FreedDistinct(mem, root, freed, ps, 256, 0, 0);
      FreedAll(mem, root, freed, ps);
      DropsAreMappings(mem, root, ram, d);
      freed := freed + [root];
      mem := mem - (set f | f in freed);
      pool := pool + (set f | f in freed);
    }
  }

  /** A table below one of the first 256 entries of the PML4. */
  ghost predicate IsUserTable(mem: Mem, root: nat, f: nat) {
    exists p: Path :: 1 <= |p| <= 3 && p[0] < 256 && Node(mem, root, p) == Some(f)
  }

  /** Without huge pages the 4 KiB mappings are all mappings. */
  lemma DropsAreMappings(mem: Mem, root: nat, ram: set<nat>, d: seq<Drop>)
    requires Exact(mem, root, ram, d, 0, UserHalf) && forall v :: 0 <= v < UserHalf ==> !Huge(mem, root, v)
    ensures forall a, b :: 0 <= a < b < |d| ==> d[a].page < d[b].page
    ensures forall a :: 0 <= a < |d| ==> d[a].page < UserHalf
    ensures forall v, x :: 0 <= v < UserHalf ==> (Drop(v, x) in d <==> Tr(mem, root, v).Some? && Tr(mem, root, v).value.pfn == x && x in ram)
  {
    hide EntryAt, P1, P2, P3, I1, I2, I3, I4;
    forall v: nat | v < UserHalf
      ensures Small(mem, root, ram, v) == if Tr(mem, root, v).Some? && Tr(mem, root, v).value.pfn in ram then Some(Tr(mem, root, v).value.pfn) else None
    {
      assert !Huge(mem, root, v);
    }
  }

  lemma NotPassed(i: nat, j: nat, k: nat)
    ensures !Passed([], i, j, k) && !Passed([i], i, j, k) && !Passed([i, j], i, j, k) && !Passed([i, j, k], i, j, k)
  {
  }

  lemma FreedNone(mem: Mem, root: nat)
    ensures FreedTo(mem, root, [], [], 0, 0, 0)
  {
  }

  lemma FreedAll(mem: Mem, root: nat, fr: seq<nat>, ps: seq<Path>)
    requires FreedTo(mem, root, fr, ps, 256, 0, 0)
    ensures forall f :: f in fr <==> IsUserTable(mem, root, f)
  {
    hide Node;
    forall f ensures f in fr <==> IsUserTable(mem, root, f) {
      if f in fr {
        var a :| 0 <= a < |fr| && fr[a] == f;
        assert Passed(ps[a], 256, 0, 0) && Node(mem, root, ps[a]) == Some(f);
      }
      if IsUserTable(mem, root, f) {
        var p: Path :| 1 <= |p| <= 3 && p[0] < 256 && Node(mem, root, p) == Some(f);
        assert Passed(p, 256, 0, 0);
        assert p in ps;
        var a :| 0 <= a < |ps| && ps[a] == p;
        assert fr[a] == f;
      }
    }
  }

  lemma CoverPml4(mem: Mem, root: nat, va: nat, next: nat)
    requires va < Pages && Node(mem, root, P1(va)) == None && next == NextRun(va, Pml4)
    ensures next % Mib2 == 0 && forall w :: va <= w < next && w < Pages ==> PtUsed(mem, root, w)
  {
    hide Node, I1, I2, I3, I4, NextRun;
    NoneInPml4(mem, root, va);
    RunEnd(va);
    forall w | va <= w < next && w < Pages ensures PtUsed(mem, root, w) {
      RunOf(va, w, Pml4);
    }
  }

  lemma CoverGib(mem: Mem, root: nat, va: nat, next: nat)
    requires va < Pages && Node(mem, root, P2(va)) == None && next == NextRun(va, Gib)
    ensures next % Mib2 == 0 && forall w :: va <= w < next && w < Pages ==> PtUsed(mem, root, w)
  {
    hide Node, I1, I2, I3, I4, NextRun;
    NoneInGib(mem, root, va);
    RunEnd(va);
    forall w | va <= w < next && w < Pages ensures PtUsed(mem, root, w) {
      RunOf(va, w, Gib);
    }
  }

  lemma CoverMib(mem: Mem, root: nat, va: nat, next: nat)
    requires va < Pages && va % Mib2 == 0 && next == va + Mib2
    requires forall w :: 0 <= w < Pages && w / Mib2 == va / Mib2 ==> PtUsed(mem, root, w)
    ensures next % Mib2 == 0 && forall w :: va <= w < next && w < Pages ==> PtUsed(mem, root, w)
  {
    hide PtUsed;
    forall w: nat | va <= w < next && w < Pages ensures PtUsed(mem, root, w) {
      InRun(va, w, Mib2);
    }
  }

  /** `n` pages from `v` on are mapped to the frames from `pfn` on; the rest is as in `mem`. */
  ghost predicate Linear(mem: Mem, m: Mem, root: nat, v: nat, pfn: nat, n: nat, flags: nat) {
    forall w :: 0 <= w < Pages ==> Tr(m, root, w) == if v <= w < v + n then Some(To(pfn + (w - v), flags)) else Tr(mem, root, w)
  }

  lemma LinearJoin(a: Mem, b: Mem, c: Mem, root: nat, v: nat, pfn: nat, n: nat, k: nat, flags: nat)
    requires Linear(a, b, root, v, pfn, n, flags) && Linear(b, c, root, v + n, pfn + n, k, flags)
    ensures Linear(a, c, root, v, pfn, n + k, flags)
  {
    hide Tr;
  }

  lemma LinearFrom(a: Mem, b: Mem, c: Mem, root: nat, v: nat, pfn: nat, n: nat, flags: nat)
    requires Linear(b, c, root, v, pfn, n, flags) && forall w :: 0 <= w < Pages ==> Tr(b, root, w) == Tr(a, root, w)
    ensures Linear(a, c, root, v, pfn, n, flags)
  {
    hide Tr;
  }

  lemma LinearOne(mem: Mem, m: Mem, root: nat, v: nat, pfn: nat, flags: nat)
    requires forall w :: 0 <= w < Pages ==> Tr(m, root, w) == if w == v then Some(To(pfn, flags)) else Tr(mem, root, w)
    ensures Linear(mem, m, root, v, pfn, 1, flags)
  {
    hide Tr;
  }

  lemma GrewTr(mem: Mem, m: Mem, root: nat)
    requires Grew(mem, m, root)
    ensures forall w :: 0 <= w < Pages ==> Tr(m, root, w) == Tr(mem, root, w)
  {
  }

  /** Writing a last-level entry. */
  lemma PutSmall(mem: Mem, root: nat, v: nat, f: nat, e: Entry)
    requires Tree(mem, root) && v < Pages && Node(mem, root, P3(v)) == Some(f) && !e.Sub?
    ensures f in mem && |mem[f]| == 512 && Tree(Poke(mem, f, I1(v), e), root)
    ensures forall w :: 0 <= w < Pages ==> Tr(Poke(mem, f, I1(v), e), root, w) == if w == v then LeafTo(e) else Tr(mem, root, w)
  {
    hide Tree, Node, Tr, EntryAt, I1, I2, I3, I4;
    EntryIs(mem, root, P3(v), f, I1(v));
    PokeEntries(mem, root, P3(v), f, I1(v), e);
    SmallTr(mem, Poke(mem, f, I1(v), e), root, v, e);
  }

  lemma PutMid(mem: Mem, root: nat, v: nat, f: nat, pfn: nat, flags: nat)
    requires Tree(mem, root) && v < Pages && v % Mib2 == 0 && pfn % Mib2 == 0 && Node(mem, root, P2(v)) == Some(f)
    requires f in mem && |mem[f]| == 512 && mem[f][I2(v)] == Absent
    ensures Tree(Poke(mem, f, I2(v), Leaf(pfn, flags)), root)
    ensures Linear(mem, Poke(mem, f, I2(v), Leaf(pfn, flags)), root, v, pfn, Mib2, flags)
  {
    hide Tree, Node, Tr, EntryAt, I1, I2, I3, I4;
    var m := Poke(mem, f, I2(v), Leaf(pfn, flags));
    EntryIs(mem, root, P2(v), f, I2(v));
    PokeEntries(mem, root, P2(v), f, I2(v), Leaf(pfn, flags));
    MidTr(mem, m, root, v, pfn, flags);
    forall w: nat | w < Pages
      ensures Tr(m, root, w) == if v <= w < v + Mib2 then Some(To(pfn + (w - v), flags)) else Tr(mem, root, w)
    {
      InRun(v, w, Mib2);
    }
  }

  lemma PutBig(mem: Mem, root: nat, v: nat, f: nat, pfn: nat, flags: nat)
    requires Tree(mem, root) && v < Pages && v % Gib == 0 && pfn % Gib == 0 && Node(mem, root, P1(v)) == Some(f)
    requires f in mem && |mem[f]| == 512 && mem[f][I3(v)] == Absent
    ensures Tree(Poke(mem, f, I3(v), Leaf(pfn, flags)), root)
    ensures Linear(mem, Poke(mem, f, I3(v), Leaf(pfn, flags)), root, v, pfn, Gib, flags)
  {
    hide Tree, Node, Tr, EntryAt, I1, I2, I3, I4;
    var m := Poke(mem, f, I3(v), Leaf(pfn, flags));
    EntryIs(mem, root, P1(v), f, I3(v));
    PokeEntries(mem, root, P1(v), f, I3(v), Leaf(pfn, flags));
    BigTr(mem, m, root, v, pfn, flags);
    forall w: nat | w < Pages
      ensures Tr(m, root, w) == if v <= w < v + Gib then Some(To(pfn + (w - v), flags)) else Tr(mem, root, w)
    {
      InRun(v, w, Gib);
    }
  }

  /** The pages of one aligned run are those with the same quotient. */
  lemma InRun(v: nat, w: nat, d: nat)
    requires d > 0 && v % d == 0
    ensures w / d == v / d <==> v <= w < v + d
    ensures v <= w < v + d ==> w % d == w - v
  {
    var q := v / d;
    assert v == q * d;
    var r, s := w / d, w % d;
    assert w == r * d + s;
    if r < q {
      assert (r + 1) * d <= q * d by { MulMono(r + 1, q, d); }
    } else if r > q {
      assert (q + 1) * d <= r * d by { MulMono(q + 1, r, d); }
    }
  }

  lemma MulMono(a: nat, b: nat, d: nat)
    requires a <= b
    ensures a * d <= b * d
  {
  }

  lemma NoneAt(mem: Mem, root: nat, v: nat)
    requires v < Pages && Node(mem, root, P1(v)) == None
    ensures Tr(mem, root, v) == None
  {
    hide I1, I2, I3, I4;
    assert P3(v)[..2] == P2(v) && P2(v)[..1] == P1(v);
  }

  /** A huge page on the way to a page. */
  ghost predicate Huge(mem: Mem, root: nat, v: nat)
    requires v < Pages
  {
    EntryAt(mem, root, P1(v), I3(v)).Leaf? || EntryAt(mem, root, P2(v), I2(v)).Leaf?
  }

  /** User memory is mapped with 4 KiB pages only. */
  ghost predicate NoHuge(mem: Mem, root: nat) {
    forall v :: 0 <= v < UserHalf ==> !Huge(mem, root, v)
  }

  /** Making tables makes no huge page: there was no translation to be one. */
  lemma GrewNoHuge(mem: Mem, m: Mem, root: nat)
    requires Grew(mem, m, root) && NoHuge(mem, root)
    ensures NoHuge(m, root)
  {
    hide Node, EntryAt, I1, I2, I3, I4;
    forall v: nat | v < UserHalf ensures !Huge(m, root, v) {
      assert !Huge(mem, root, v);
      OnWay(mem, root, v);
      BelowNone(mem, root, v);
      OnWay(m, root, v);
      if Node(mem, root, P3(v)).Some? {
        assert Node(m, root, P3(v)) == Node(mem, root, P3(v)) && Node(m, root, P2(v)) == Node(mem, root, P2(v));
      } else {
        assert Tr(mem, root, v) == None;
      }
    }
  }

  /** A last-level entry is no huge page. */
  lemma PutNoHuge(mem: Mem, root: nat, v: nat, f: nat, e: Entry)
    requires Tree(mem, root) && v < Pages && Node(mem, root, P3(v)) == Some(f) && !e.Sub? && f in mem && |mem[f]| == 512
    ensures NoHuge(mem, root) ==> NoHuge(Poke(mem, f, I1(v), e), root)
  {
    hide Tree, Node, EntryAt, I1, I2, I3, I4;
    EntryIs(mem, root, P3(v), f, I1(v));
    PokeEntries(mem, root, P3(v), f, I1(v), e);
    if NoHuge(mem, root) {
      forall w: nat | w < UserHalf ensures !Huge(Poke(mem, f, I1(v), e), root, w) {
        assert !Huge(mem, root, w);
      }
    }
  }

  lemma NoneBelow(mem: Mem, root: nat, v: nat)
    requires v < Pages
    requires !EntryAt(mem, root, [], I4(v)).Sub? || !EntryAt(mem, root, P1(v), I3(v)).Sub? || !EntryAt(mem, root, P2(v), I2(v)).Sub?
    ensures Node(mem, root, P3(v)) == None
  {
    OnWay(mem, root, v);
    BelowNone(mem, root, v);
  }
}

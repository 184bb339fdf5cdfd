/** Address spaces with demand paging and copy-on-write (kernel/mm/mm.c). */
module Mm {
  import V = Vma
  import opened Cow
  import opened Access

  datatype Option<T> = None | Some(value: T)

  /** Every mapped page lies in an area of its address space. */
  ghost predicate Inside(mem: Mem, areas: Areas) {
    forall k :: k in mem.pt ==> k.0 in areas && V.Aligned(k.1) && V.Covered(areas[k.0], k.1)
  }

  /** The memory a process sees at the page of address `v`: a frame where a page is mapped, zeros
      elsewhere in its areas, nothing outside. `v` is page-aligned, as every key of the page tables
      is; an address inside a page is seen through the page it lies in. */
  ghost function View(mem: Mem, areas: Areas, m: nat, v: nat): Option<seq<Byte>> {
    if (m, v) in mem.pt && mem.pt[(m, v)].frame in mem.frames then Some(Bytes(mem, (m, v)))
    else if m in areas && V.Covered(areas[m], v) then Some(ZeroPage())
    else None
  }

  /** Whatever a process could see before, it sees unchanged. */
  ghost predicate Preserved(mem: Mem, areas: Areas, mem': Mem, areas': Areas) {
    forall m: nat, v: nat :: View(mem, areas, m, v).Some? ==> View(mem', areas', m, v) == View(mem, areas, m, v)
  }

  ghost predicate SameView(mem: Mem, areas: Areas, mem': Mem, areas': Areas) {
    forall m: nat, v: nat :: View(mem', areas', m, v) == View(mem, areas, m, v)
  }

  /** New pages read as the zeros they replace, old pages are the same: nobody notices. */
  lemma FillIsInvisible(mem: Mem, mem': Mem, areas: Areas, k: Key)
    requires Sound(mem) && Sound(mem') && Inside(mem, areas) && Inside(mem', areas)
    requires SamePages(mem, mem', mem.pt.Keys) && mem'.pt.Keys <= mem.pt.Keys + {k}
    requires k in mem'.pt && k !in mem.pt ==> Bytes(mem', k) == ZeroPage()
    ensures SameView(mem, areas, mem', areas)
  {
    forall m: nat, v: nat ensures View(mem', areas, m, v) == View(mem, areas, m, v) {
      if (m, v) in mem.pt {
        assert Same(mem, mem', (m, v));
      }
    }
  }

  lemma GrowPreserves(mem: Mem, areas: Areas, m: nat, vs: seq<V.Area>)
    requires m in areas && forall x: nat :: V.Covered(areas[m], x) ==> V.Covered(vs, x)
    ensures Preserved(mem, areas, mem, areas[m := vs])
    ensures Inside(mem, areas) ==> Inside(mem, areas[m := vs])
  {
    hide V.Covered;
  }

  lemma PreservedThrough(mem: Mem, areas: Areas, mem1: Mem, areas1: Areas, mem2: Mem)
    requires Preserved(mem, areas, mem1, areas1) && SameView(mem1, areas1, mem2, areas1)
    ensures Preserved(mem, areas, mem2, areas1)
  {
    hide View;
  }

  /** The pages of one address space in [lo, hi) are gone, all others are as before. */
  ghost predicate Unmapped(mem: Mem, mem': Mem, m: nat, lo: nat, hi: nat) {
    && (forall k :: k in mem'.pt <==> k in mem.pt && !(k.0 == m && lo <= k.1 < hi))
    && SamePages(mem, mem', mem'.pt.Keys) && SameEntries(mem, mem')
  }

  /** Entries go, but none comes or changes. */
  ghost predicate SameEntries(mem: Mem, mem': Mem) {
    forall k :: k in mem'.pt ==> k in mem.pt && mem'.pt[k] == mem.pt[k]
  }

  lemma UnmappedNone(mem: Mem, m: nat, lo: nat)
    requires Sound(mem)
    ensures Unmapped(mem, mem, m, lo, lo)
  {
  }

  lemma UnmappedMore(mem: Mem, mem1: Mem, mem2: Mem, m: nat, lo: nat, va: nat, va': nat)
    requires Sound(mem) && Sound(mem1) && Unmapped(mem, mem1, m, lo, va) && lo <= va <= va'
    requires forall k :: k in mem2.pt <==> k in mem1.pt && !(k.0 == m && va <= k.1 < va')
    requires SamePages(mem1, mem2, mem2.pt.Keys) && SameEntries(mem1, mem2)
    ensures Unmapped(mem, mem2, m, lo, va')
  {
    forall k | k in mem2.pt ensures Same(mem, mem2, k) {
      assert Same(mem1, mem2, k) && Same(mem, mem1, k);
    }
  }

  lemma UnmappedView(mem: Mem, mem': Mem, areas: Areas, areas': Areas, m: nat, v: nat, m': nat, lo: nat, hi: nat)
    requires Sound(mem) && Sound(mem') && Unmapped(mem, mem', m, lo, hi)
    requires m' in areas && m' in areas' && (V.Covered(areas'[m'], v) <==> V.Covered(areas[m'], v))
    requires m' != m || !(lo <= v < hi)
    ensures View(mem', areas', m', v) == View(mem, areas, m', v)
  {
    hide V.Covered;
    if (m', v) in mem'.pt {
      assert Same(mem, mem', (m', v));
    }
  }

  /** An address space without areas has no memory. */
  lemma NoSpace(mem: Mem, areas: Areas, m: nat, v: nat)
    requires Inside(mem, areas) && m !in areas
    ensures (m, v) !in mem.pt && View(mem, areas, m, v) == None
  {
    hide V.Covered;
  }

  /** Some area would have to be split to remove [lo, hi). */
  ghost predicate Splits(vs: seq<V.Area>, lo: nat, hi: nat) {
    exists k :: 0 <= k < |vs| && V.Middle(vs[k], lo, hi)
  }

  /** What removing [lo, hi) leaves covered: all of it stays when a split has no node. */
  lemma CarvedCovers(vs: seq<V.Area>, lo: nat, hi: nat, node: bool, x: nat)
    requires V.Valid(vs) && lo < hi
    ensures node || !Splits(vs, lo, hi) ==> (V.Covered(V.Carve(vs, lo, hi, node), x) <==> V.Covered(vs, x) && !(lo <= x < hi))
    ensures !node && Splits(vs, lo, hi) ==> V.Carve(vs, lo, hi, node) == vs && (lo <= x < hi ==> V.Covered(vs, x))
  {
    if !node && Splits(vs, lo, hi) {
      var k: nat :| k < |vs| && V.Middle(vs[k], lo, hi);
      V.CarveStuck(vs, lo, hi, k);
      assert lo <= x < hi ==> V.Holds(vs[k], x);
    } else {
      V.CarveCovers(vs, lo, hi, node, x);
    }
  }

  /** mm_unmap as every process sees it: the range is gone from one address space, or reads as zeros
      there when an area had to be split and could not be; nothing else has changed. */
  ghost predicate UnmapSeen(mem: Mem, areas: Areas, mem': Mem, areas': Areas, m: nat, lo: nat, hi: nat, stuck: bool) {
    forall m': nat, v: nat ::
      View(mem', areas', m', v) ==
        if m' == m && lo <= v < hi then (if stuck then Some(ZeroPage()) else None) else View(mem, areas, m', v)
  }

  lemma UnmapViews(mem: Mem, mem': Mem, areas: Areas, m: nat, lo: nat, hi: nat, node: bool)
    requires m in areas && AreasOk(areas) && Inside(mem, areas) && Sound(mem) && Sound(mem') && Unmapped(mem, mem', m, lo, hi) && lo < hi
    requires Inside(mem', areas[m := V.Carve(areas[m], lo, hi, node)])
    ensures UnmapSeen(mem, areas, mem', areas[m := V.Carve(areas[m], lo, hi, node)], m, lo, hi, !node && Splits(areas[m], lo, hi))
  {
    hide V.Covered, V.Carve, V.Valid, Sound, Inside, Splits, SamePages;
    var areas' := areas[m := V.Carve(areas[m], lo, hi, node)];
    var stuck := !node && Splits(areas[m], lo, hi);
    forall m': nat, v: nat
      ensures View(mem', areas', m', v) ==
              if m' == m && lo <= v < hi then (if stuck then Some(ZeroPage()) else None) else View(mem, areas, m', v)
    {
      CarvedCovers(areas[m], lo, hi, node, v);
      if m' !in areas {
        NoSpace(mem, areas, m', v);
        NoSpace(mem', areas', m', v);
      } else if m' == m && lo <= v < hi {
        assert (m, v) !in mem'.pt;
      } else {
        UnmappedView(mem, mem', areas, areas', m, v, m', lo, hi);
      }
    }
  }

  /** mm_sbrk as every process sees it: memory above a lower end is gone, memory below a higher end
      reads as zeros, and nothing else has changed. */
  ghost predicate HeapSeen(mem: Mem, areas: Areas, mem': Mem, areas': Areas, m: nat, was: nat, end: nat) {
    forall m': nat, v: nat ::
      View(mem', areas', m', v) ==
        if m' == m && end <= v < was then None else if m' == m && was <= v < end then Some(ZeroPage()) else View(mem, areas, m', v)
  }

  /** Moving the end of one area of a valid list. */
  lemma EndCovers(vs: seq<V.Area>, h: nat, end: nat, x: nat)
    requires V.Valid(vs) && h < |vs| && V.Valid(vs[h := vs[h].(end := end)])
    ensures V.Covered(vs[h := vs[h].(end := end)], x) <==>
            (V.Covered(vs, x) && !(end <= x < vs[h].end)) || vs[h].end <= x < end
    ensures vs[h].end <= x < end ==> !V.Covered(vs, x)
  {
    var now := vs[h := vs[h].(end := end)];
    assert V.AreaOk(vs[h]) && V.AreaOk(now[h]);
    if V.Covered(vs, x) {
      var i :| 0 <= i < |vs| && V.Holds(vs[i], x);
      assert i != h ==> V.Holds(now[i], x);
      assert i == h && x < end ==> V.Holds(now[h], x);
      assert i < h ==> vs[i].end <= vs[h].start;
      assert i > h ==> vs[h].end <= vs[i].start && now[h].end <= now[i].start;
    }
    if V.Covered(now, x) {
      var i :| 0 <= i < |now| && V.Holds(now[i], x);
      assert i != h ==> V.Holds(vs[i], x);
      assert i == h && x < vs[h].end ==> V.Holds(vs[h], x);
      assert i < h ==> now[i].end <= now[h].start && vs[i].end <= vs[h].start;
      assert i > h ==> now[h].end <= now[i].start && vs[h].end <= vs[i].start;
    }
    if vs[h].end <= x < end {
      assert V.Holds(now[h], x);
    }
  }

  lemma HeapViews(mem: Mem, mem': Mem, areas: Areas, m: nat, h: nat, end: nat)
    requires m in areas && AreasOk(areas) && Inside(mem, areas) && Sound(mem) && Sound(mem') && h < |areas[m]|
    requires V.Valid(areas[m][h := areas[m][h].(end := end)]) && Inside(mem', areas[m := areas[m][h := areas[m][h].(end := end)]])
    requires if end < areas[m][h].end then Unmapped(mem, mem', m, end, areas[m][h].end) else mem' == mem
    ensures HeapSeen(mem, areas, mem', areas[m := areas[m][h := areas[m][h].(end := end)]], m, areas[m][h].end, end)
  {
    hide V.Covered, V.Valid, Sound, SamePages;
    var vs, was := areas[m], areas[m][h].end;
    var areas' := areas[m := vs[h := vs[h].(end := end)]];
    if end >= was {
      UnmappedNone(mem, m, end);
    }
    forall m': nat, v: nat
      ensures View(mem', areas', m', v) ==
              if m' == m && end <= v < was then None else if m' == m && was <= v < end then Some(ZeroPage()) else View(mem, areas, m', v)
    {
      EndCovers(vs, h, end, v);
      if m' !in areas {
        NoSpace(mem, areas, m', v);
        NoSpace(mem', areas', m', v);
      } else if m' == m && end <= v < was {
        assert (m, v) !in mem'.pt;
      } else if m' == m && was <= v < end {
        assert (m, v) !in mem.pt;
      } else {
        UnmappedView(mem, mem', areas, areas', m, v, m', end, if end < was then was else end);
      }
    }
  }

  /** Of [lo, hi), the pages in the first i areas are gone. */
  ghost predicate Remains(mem: Mem, mem': Mem, vs: seq<V.Area>, m: nat, lo: nat, hi: nat, i: nat)
    requires i <= |vs|
  {
    && (forall k :: k in mem'.pt <==> k in mem.pt && !(k.0 == m && lo <= k.1 < hi && V.Covered(vs[..i], k.1)))
    && SamePages(mem, mem', mem'.pt.Keys) && SameEntries(mem, mem')
  }

  lemma RemainsAll(mem: Mem, vs: seq<V.Area>, m: nat, lo: nat, hi: nat)
    requires Sound(mem)
    ensures Remains(mem, mem, vs, m, lo, hi, 0)
  {
  }

  lemma RemainsNext(mem: Mem, mem1: Mem, mem2: Mem, vs: seq<V.Area>, m: nat, lo: nat, hi: nat, i: nat, lo': nat, hi': nat)
    requires i < |vs| && Remains(mem, mem1, vs, m, lo, hi, i)
    requires Unmapped(mem1, mem2, m, lo', hi')
    requires forall x: nat :: lo' <= x < hi' <==> lo <= x < hi && V.Holds(vs[i], x)
    ensures Remains(mem, mem2, vs, m, lo, hi, i + 1)
  {
    forall x: nat ensures V.Covered(vs[..i + 1], x) <==> V.Covered(vs[..i], x) || V.Holds(vs[i], x) {
      CoveredNext(vs, i, x);
    }
    forall k: Key ensures k in mem2.pt <==> k in mem.pt && !(k.0 == m && lo <= k.1 < hi && V.Covered(vs[..i + 1], k.1)) {
      var inside := V.Holds(vs[i], k.1);
      assert lo' <= k.1 < hi' <==> lo <= k.1 < hi && inside;
    }
    forall k | k in mem2.pt ensures Same(mem, mem2, k) {
      assert Same(mem1, mem2, k) && Same(mem, mem1, k);
    }
  }

  lemma CoveredNext(vs: seq<V.Area>, i: nat, x: int)
    requires i < |vs|
    ensures V.Covered(vs[..i + 1], x) <==> V.Covered(vs[..i], x) || V.Holds(vs[i], x)
  {
    assert vs[..i + 1] == vs[..i] + [vs[i]];
    V.CoveredConcat(vs[..i], [vs[i]], x);
    assert [vs[i]][0] == vs[i];
  }

  lemma RemainsDone(mem: Mem, mem': Mem, areas: Areas, m: nat, lo: nat, hi: nat)
    requires m in areas && Inside(mem, areas) && Remains(mem, mem', areas[m], m, lo, hi, |areas[m]|)
    ensures Unmapped(mem, mem', m, lo, hi)
  {
    hide V.Covered;
    assert areas[m][..|areas[m]|] == areas[m];
  }

  lemma InsideLess(mem: Mem, mem': Mem, areas: Areas)
    requires Inside(mem, areas) && forall k :: k in mem'.pt ==> k in mem.pt
    ensures Inside(mem', areas)
  {
  }

  /** After the pages of [lo, hi) are gone, carving the areas uncovers no mapped page. */
  lemma CarveFits(mem: Mem, mem': Mem, areas: Areas, m: nat, lo: nat, hi: nat, node: bool)
    requires m in areas && AreasOk(areas) && Inside(mem, areas) && Unmapped(mem, mem', m, lo, hi)
    requires V.Aligned(lo) && V.Aligned(hi) && lo < hi
    ensures AreasOk(areas[m := V.Carve(areas[m], lo, hi, node)])
    ensures Inside(mem', areas[m := V.Carve(areas[m], lo, hi, node)])
    ensures Guarded(mem, areas) ==> Guarded(mem', areas[m := V.Carve(areas[m], lo, hi, node)])
  {
    hide V.Covered, V.Carve, V.Valid, Guarded, SameProt, Grants;
    V.CarveKeeps(areas[m], lo, hi, node);
    forall k | k in mem'.pt && k.0 == m
      ensures V.Covered(V.Carve(areas[m], lo, hi, node), k.1) && SameProt(areas[m], V.Carve(areas[m], lo, hi, node), k.1)
    {
      CarveKeepsPoint(areas[m], lo, hi, node, k.1);
      CarveProt(areas[m], lo, hi, node, k.1);
    }
    if Guarded(mem, areas) {
      GuardedKept(mem, mem', areas, areas[m := V.Carve(areas[m], lo, hi, node)]);
    }
  }

  lemma CarveKeepsPoint(vs: seq<V.Area>, lo: nat, hi: nat, node: bool, x: nat)
    requires V.Valid(vs) && lo < hi && V.Covered(vs, x) && !(lo <= x < hi)
    ensures V.Covered(V.Carve(vs, lo, hi, node), x)
  {
    if k: nat :| k < |vs| && V.Middle(vs[k], lo, hi) && !node {
      V.CarveStuck(vs, lo, hi, k);
    } else {
      V.CarveCovers(vs, lo, hi, node, x);
    }
  }

  /** The child holds copies of pages of the parent, and nothing else has changed. */
  ghost predicate Copied(mem: Mem, mem': Mem, parent: nat, child: nat) {
    && SamePages(mem, mem', mem.pt.Keys)
    && (forall k :: k in mem.pt && k in mem'.pt ==> Grants(mem'.pt[k]) == Grants(mem.pt[k]))
    && forall k :: k in mem'.pt && k !in mem.pt ==>
         k.0 == child && (parent, k.1) in mem.pt && Grants(mem'.pt[k]) == Grants(mem.pt[(parent, k.1)])
         && mem.pt[(parent, k.1)].frame in mem.frames
         && mem'.pt[k].frame in mem'.frames && Bytes(mem', k) == Bytes(mem, (parent, k.1))
  }

  lemma CopiedNone(mem: Mem, parent: nat, child: nat)
    requires Sound(mem)
    ensures Copied(mem, mem, parent, child)
  {
  }

  lemma CopiedMore(mem: Mem, mem1: Mem, mem2: Mem, parent: nat, child: nat, v: nat)
    requires Copied(mem, mem1, parent, child) && SamePages(mem1, mem2, mem1.pt.Keys) && mem.pt.Keys <= mem1.pt.Keys
    requires mem1.pt.Keys <= mem2.pt.Keys <= mem1.pt.Keys + {(child, v)}
    requires (parent, v) in mem.pt && Sound(mem1) && Sound(mem2)
    requires (child, v) in mem2.pt && (child, v) !in mem1.pt ==> Bytes(mem2, (child, v)) == Bytes(mem1, (parent, v))
    requires (parent, v) in mem1.pt && ((child, v) in mem2.pt && (child, v) !in mem1.pt ==> Grants(mem2.pt[(child, v)]) == Grants(mem1.pt[(parent, v)]))
    requires forall j :: j in mem1.pt ==> Grants(mem2.pt[j]) == Grants(mem1.pt[j])
    ensures Copied(mem, mem2, parent, child)
  {
    hide Sound, Bytes, Grants;
    SameThrough(mem, mem1, mem2, mem.pt.Keys, mem1.pt.Keys);
    assert Same(mem, mem1, (parent, v));
    forall k | k in mem2.pt && k !in mem.pt
      ensures k.0 == child && (parent, k.1) in mem.pt && mem2.pt[k].frame in mem2.frames
      ensures mem.pt[(parent, k.1)].frame in mem.frames && Bytes(mem2, k) == Bytes(mem, (parent, k.1))
      ensures Grants(mem2.pt[k]) == Grants(mem.pt[(parent, k.1)])
    {
      if k in mem1.pt {
        assert Same(mem1, mem2, k);
      } else {
        Known(mem2, k);
      }
    }
  }

  /** Sharing a page, or marking it only, leaves what the entries grant. */
  lemma ShareGrants(mem: Mem, k: Key, c: Key)
    requires k in mem.pt && mem.pt[k].frame in mem.frames && c !in mem.pt
    ensures forall j :: j in mem.pt ==> j in MarkCow(mem, k).pt && Grants(MarkCow(mem, k).pt[j]) == Grants(mem.pt[j])
    ensures forall j :: j in mem.pt ==> j in Share(mem, k, c).pt && Grants(Share(mem, k, c).pt[j]) == Grants(mem.pt[j])
    ensures c in Share(mem, k, c).pt && Grants(Share(mem, k, c).pt[c]) == Grants(mem.pt[k])
  {
  }

  lemma CopiedGuarded(mem: Mem, mem': Mem, areas: Areas, parent: nat, child: nat)
    requires Guarded(mem, areas) && Copied(mem, mem', parent, child)
    requires parent in areas && child in areas && areas[child] == areas[parent]
    ensures Guarded(mem', areas)
  {
    hide Grants, MayWrite, Bytes;
    forall k | k in mem'.pt && k.0 in areas ensures GuardedAt(mem', areas, k) {
      if k in mem.pt {
        assert GuardedAt(mem, areas, k);
      } else {
        assert GuardedAt(mem, areas, (parent, k.1));
      }
    }
  }

  lemma Known(mem: Mem, k: Key)
    requires Sound(mem) && k in mem.pt
    ensures mem.pt[k].frame in mem.frames
  {
  }

  lemma CopiedInside(mem: Mem, mem': Mem, areas: Areas, parent: nat, child: nat)
    requires Inside(mem, areas) && Copied(mem, mem', parent, child)
    requires parent in areas && child in areas && areas[child] == areas[parent]
    ensures Inside(mem', areas)
  {
    forall k | k in mem'.pt ensures k.0 in areas && V.Aligned(k.1) && V.Covered(areas[k.0], k.1) {
      if k !in mem.pt {
        assert (parent, k.1) in mem.pt;
      }
    }
  }

  /** fork as every process sees it: the child starts with the parent's memory. */
  lemma ForkViews(mem: Mem, mem': Mem, areas: Areas, parent: nat, child: nat)
    requires Sound(mem) && Sound(mem') && parent in areas && child !in areas
    requires (forall k :: k in mem.pt ==> k.0 in areas) && Copied(mem, mem', parent, child)
    requires forall v: nat :: (parent, v) in mem.pt ==> (child, v) in mem'.pt
    ensures forall m: nat, v: nat :: m != child ==> View(mem', areas[child := areas[parent]], m, v) == View(mem, areas, m, v)
    ensures forall v: nat :: View(mem', areas[child := areas[parent]], child, v) == View(mem, areas, parent, v)
  {
    hide V.Covered;
    forall m: nat, v: nat | m != child
      ensures View(mem', areas[child := areas[parent]], m, v) == View(mem, areas, m, v)
    {
      if (m, v) in mem.pt {
        assert Same(mem, mem', (m, v));
      }
    }
    forall v: nat ensures View(mem', areas[child := areas[parent]], child, v) == View(mem, areas, parent, v) {
      if (parent, v) in mem.pt {
        assert (child, v) !in mem.pt;
      } else {
        assert (child, v) !in mem.pt;
      }
    }
  }

  /** A failed fork, cleaned up: what is left are the old pages with their old bytes. */
  lemma UndoneViews(mem: Mem, mem1: Mem, mem2: Mem, areas: Areas, parent: nat, child: nat)
    requires Sound(mem) && Sound(mem2) && child !in areas && (forall k :: k in mem.pt ==> k.0 in areas)
    requires Copied(mem, mem1, parent, child)
    requires (forall k :: k in mem2.pt <==> k in mem1.pt && k.0 != child) && SamePages(mem1, mem2, mem2.pt.Keys)
    ensures SameView(mem, areas, mem2, areas) && mem2.pt.Keys == mem.pt.Keys
  {
    forall k | k in mem.pt ensures k in mem2.pt && Same(mem, mem2, k) {
      assert Same(mem, mem1, k) && Same(mem1, mem2, k);
    }
    forall k | k in mem2.pt ensures k in mem.pt {
    }
    hide V.Covered;
    forall m: nat, v: nat ensures View(mem2, areas, m, v) == View(mem, areas, m, v) {
      if (m, v) in mem.pt {
        assert Same(mem, mem2, (m, v));
      }
    }
  }

  class Machine {
    var mem: Mem
    var areas: Areas

    ghost predicate Valid()
      reads this
    {
      Sound(mem) && AreasOk(areas) && Inside(mem, areas) && Guarded(mem, areas)
    }

    /** Boot: `free` are the frames of the page allocator, and there is no address space. */
    constructor (free: set<nat>)
      ensures Valid() && areas == map[] && mem.pt == map[] && mem.frames.Keys == free
    {
      mem := Mem(map f | f in free :: Frame(0, ZeroPage()), map[]);
      areas := map[];
    }

    /** mm_create: an address space without areas. */
    method Create(m: nat)
      requires Valid() && m !in areas
      modifies this`areas
      ensures Valid() && areas == old(areas)[m := []] && forall v: nat :: View(mem, areas, m, v) == None
      ensures forall m': nat, v: nat :: m' != m ==> View(mem, areas, m', v) == old(View(mem, areas, m', v))
    {
      hide V.Covered;
      NothingCovered();
      PagesKnown();
      areas := areas[m := []];
    }

    lemma NothingCovered()
      ensures forall v: int :: !V.Covered([], v)
    {
    }

    /** Every frame is in use. */
    ghost predicate NoneFree()
      reads this
    {
      forall g: nat :: g in mem.frames ==> mem.frames[g].refs != 0
    }

    /** alloc_pages(0): a frame nobody refers to; `frame` is whether the allocator finds one. */
    method AllocFrame(frame: bool) returns (f: Option<nat>)
      ensures f.Some? ==> f.value in mem.frames && mem.frames[f.value].refs == 0
      ensures f.None? ==> !frame || NoneFree()
    {
      if frame && exists g: nat :: g in mem.frames && mem.frames[g].refs == 0 {
        var g: nat :| g in mem.frames && mem.frames[g].refs == 0;
        return Some(g);
      }
      return None;
    }

    /** fault_page: maps a zero page on first touch, and breaks sharing on a write to a COW
        page. No process notices, also when memory runs out; after a successful write fault
        the page is writable. Nothing but missing memory makes it fail: `table` and `frame` are whether
        there is some for a page table and for a page. */
    method FaultPage(m: nat, area: V.Area, v: nat, write: bool, table: bool, frame: bool) returns (ok: bool)
      requires Valid() && m in areas && area in areas[m] && V.Holds(area, v) && V.Aligned(v)
      requires write ==> CanWrite(area.prot)
      modifies this`mem
      ensures Valid() && SameView(old(mem), areas, mem, areas)
      ensures ok ==> (m, v) in mem.pt && (write ==> mem.pt[(m, v)].writable)
      ensures ok && (m, v) !in old(mem).pt ==> mem.pt[(m, v)].writable == CanWrite(area.prot)
      ensures (m, v) in old(mem).pt && !(write && old(mem).pt[(m, v)].cow) ==> mem == old(mem)
      ensures !ok ==> mem == old(mem) && (!table || !frame || NoneFree())
    {
      hide Sound, Inside, Guarded, View, V.Covered, V.Valid, Bytes;
      var k := (m, v);
      SameSelf(mem);
      FillIsInvisible(mem, mem, areas, k);
      if !table {
        return false;
      }
      if k !in mem.pt {
        ok := FillPage(m, area, v, frame);
        return;
      }
      Granted(m, area, v);
      if write && mem.pt[k].cow {
        ok := BreakCow(k, area, frame);
        return;
      }
      ok := true;
    }

    /** A page touched for the first time: zeros, with the protection of its area. */
    method FillPage(m: nat, area: V.Area, v: nat, frame: bool) returns (ok: bool)
      requires Valid() && m in areas && area in areas[m] && V.Holds(area, v) && V.Aligned(v) && (m, v) !in mem.pt
      modifies this`mem
      ensures Valid() && SameView(old(mem), areas, mem, areas)
      ensures ok ==> (m, v) in mem.pt && mem.pt[(m, v)].writable == CanWrite(area.prot)
      ensures !ok ==> mem == old(mem) && (!frame || NoneFree())
    {
      hide Sound, Guarded, View, V.Covered, V.Valid, AreasOk;
      var k := (m, v);
      SameSelf(mem);
      FillIsInvisible(mem, mem, areas, k);
      var f := AllocFrame(frame);
      if f.None? {
        return false;
      }
      MapFreshSound(mem, k, f.value, CanWrite(area.prot), ZeroPage());
      mem := MapFresh(mem, k, f.value, CanWrite(area.prot), ZeroPage());
      CoveredBy(m, area, v);
      FillIsInvisible(old(mem), mem, areas, k);
      GuardedPut(old(mem), mem, areas, k, area);
      return true;
    }

    /** A mapped page of an area that permits writing can be written, now or after a copy. */
    lemma Granted(m: nat, area: V.Area, v: nat)
      requires Valid() && m in areas && area in areas[m] && V.Holds(area, v) && (m, v) in mem.pt
      ensures Grants(mem.pt[(m, v)]) <==> CanWrite(area.prot)
    {
      hide MayWrite, Grants;
      assert GuardedAt(mem, areas, (m, v));
      MayWriteIs(areas[m], area, v);
    }

    /** A write to a COW page: the last owner takes the frame over, others get a copy. */
    method BreakCow(k: Key, area: V.Area, frame: bool) returns (ok: bool)
      requires Valid() && k in mem.pt && k.0 in areas && area in areas[k.0] && V.Holds(area, k.1) && CanWrite(area.prot)
      modifies this`mem
      ensures Valid() && SameView(old(mem), areas, mem, areas)
      ensures ok ==> k in mem.pt && mem.pt[k].writable
      ensures !ok ==> mem == old(mem) && (!frame || NoneFree())
    {
      hide Sound, Guarded, View, V.Covered, V.Valid, AreasOk;
      SameSelf(mem);
      FillIsInvisible(mem, mem, areas, k);
      FrameKnown(mem, k);
      if mem.frames[mem.pt[k].frame].refs == 1 {
        AdoptSound(mem, k);
        mem := Adopt(mem, k);
      } else {
        var f := AllocFrame(frame);
        if f.None? {
          return false;
        }
        CopySound(mem, k, f.value, CanWrite(area.prot));
        mem := MapFresh(Drop(mem, k), k, f.value, CanWrite(area.prot), Bytes(mem, k));
      }
      FillIsInvisible(old(mem), mem, areas, k);
      GuardedPut(old(mem), mem, areas, k, area);
      ok := true;
    }

    lemma FrameKnown(mem0: Mem, k: Key)
      requires Sound(mem0) && k in mem0.pt
      ensures mem0.pt[k].frame in mem0.frames
    {
    }

    lemma CoveredBy(m: nat, area: V.Area, v: nat)
      requires m in areas && area in areas[m] && V.Holds(area, v)
      ensures V.Covered(areas[m], v)
    {
      V.CoveredIn(areas[m], v);
    }

    /** The access is to an address of the process that its area permits. */
    ghost predicate Permitted(m: nat, a: nat, write: bool, fetch: bool)
      requires m in areas
      reads this
    {
      && a < V.USER_END && V.Covered(areas[m], a)
      && (write ==> MayWrite(areas[m], a)) && (fetch ==> MayExec(areas[m], a))
    }

    /** mm_handle_fault: finds or grows the area, checks its protection, then fault_page.
        No process loses or changes memory it had, whether the fault is resolved or not. It is resolved
        only for an access that the area permits, and then unless memory is missing. */
    method HandleFault(m: nat, a: nat, write: bool, fetch: bool, table: bool, frame: bool) returns (ok: bool)
      requires Valid() && m in areas
      modifies this
      ensures Valid() && areas.Keys == old(areas.Keys) && Preserved(old(mem), old(areas), mem, areas)
      ensures ok ==> (m, V.AlignDown(a)) in mem.pt && (write ==> mem.pt[(m, V.AlignDown(a))].writable)
      ensures ok ==> Permitted(m, a, write, fetch)
      ensures Permitted(m, a, write, fetch) && table && frame && !NoneFree() ==> ok
      ensures areas == old(areas)
              || (exists i :: V.StackAbove(old(areas)[m], i, a) && !V.Covered(old(areas)[m], a)
                              && areas == old(areas)[m := old(areas)[m][i := old(areas)[m][i].(start := V.AlignDown(a))]])
      ensures a < V.USER_END ==>
                (V.Covered(areas[m], a) <==> V.Covered(old(areas)[m], a) || V.StackReaches(old(areas)[m], a))
    {
      hide View, V.Covered, V.Valid, Sound, Guarded, AreasOk, V.Holds, Inside, NoneFree;
      if a >= V.USER_END {
        return false;
      }
      var vs := areas[m];
      ListOk(m);
      var i := V.Find(vs, a);
      if i < 0 {
        i, vs := V.GrowStack(areas[m], a);
        if i < 0 {
          return false;
        }
        GrownStack(m, a, i, vs);
        areas := areas[m := vs];
      }
      V.CoveredIn(vs, a);
      MayWriteIs(vs, vs[i], a);
      if (write && !CanWrite(vs[i].prot)) || (fetch && !CanExec(vs[i].prot)) {
        return false;
      }
      PageInArea(vs, i, a);
      ghost var mem1 := mem;
      ok := FaultPage(m, vs[i], V.AlignDown(a), write, table, frame);
      PreservedThrough(old(mem), old(areas), mem1, areas, mem);
    }

    lemma ListOk(m: nat)
      requires AreasOk(areas) && m in areas
      ensures V.Valid(areas[m])
    {
    }

    /** A stack grown downwards keeps everything else. */
    lemma GrownStack(m: nat, a: nat, i: nat, vs: seq<V.Area>)
      requires Valid() && m in areas && V.StackAbove(areas[m], i, a) && V.Valid(vs)
      requires vs == areas[m][i := areas[m][i].(start := V.AlignDown(a))] && forall x :: V.Covered(areas[m], x) ==> V.Covered(vs, x)
      ensures Preserved(mem, areas, mem, areas[m := vs])
      ensures Inside(mem, areas[m := vs]) && AreasOk(areas[m := vs]) && Guarded(mem, areas[m := vs])
    {
      hide V.Valid, V.Covered, Sound, Guarded, SameProt;
      GrowPreserves(mem, areas, m, vs);
      forall k | k in mem.pt && k.0 == m ensures SameProt(areas[m], vs, k.1) {
        ReplacedProt(areas[m], i, vs[i], k.1);
      }
      GuardedKept(mem, mem, areas, areas[m := vs]);
    }

    lemma PageInArea(vs: seq<V.Area>, i: nat, a: nat)
      requires V.Valid(vs) && i < |vs| && V.Holds(vs[i], a)
      ensures V.Holds(vs[i], V.AlignDown(a)) && V.Aligned(V.AlignDown(a))
    {
      assert V.AreaOk(vs[i]);
    }

    /** A user store to a writable page is seen by its own process only. */
    method StoreByte(m: nat, v: nat, off: nat, b: Byte)
      requires Valid() && (m, v) in mem.pt && mem.pt[(m, v)].writable && off < PAGE_BYTES
      modifies this`mem
      ensures Valid() && old(View(mem, areas, m, v).Some?)
      ensures m in areas && MayWrite(areas[m], v)
      ensures View(mem, areas, m, v) == Some(old(View(mem, areas, m, v)).value[off := b])
      ensures forall m': nat, v': nat :: (m', v') != (m, v) ==> View(mem, areas, m', v') == old(View(mem, areas, m', v'))
    {
      hide V.Covered, V.Valid;
      assert GuardedAt(mem, areas, (m, v));
      StorePrivate(mem, (m, v), off, b);
      mem := Store(mem, (m, v), off, b);
      forall m': nat, v': nat | (m', v') != (m, v) ensures View(mem, areas, m', v') == View(old(mem), areas, m', v') {
        if (m', v') in mem.pt {
          assert Same(old(mem), mem, (m', v'));
        }
      }
    }

    /** unmap_pages. */
    method UnmapPages(m: nat, lo: nat, hi: nat)
      requires Sound(mem) && V.Aligned(lo) && V.Aligned(hi) && lo <= hi
      requires forall k :: k in mem.pt ==> V.Aligned(k.1)
      modifies this`mem
      ensures Sound(mem) && Unmapped(old(mem), mem, m, lo, hi)
    {
      hide Sound, Bytes, SamePages, Unmapped, V.Aligned;
      var va: nat := lo;
      UnmappedNone(mem, m, lo);
      while va < hi
        invariant lo <= va <= hi && V.Aligned(va) && Sound(mem) && Unmapped(old(mem), mem, m, lo, va)
      {
        ghost var before := mem;
        var next := va + V.PAGE;
        NextPage(va, hi);
        StillAligned(old(mem), mem, m, lo, va);
        if (m, va) in mem.pt {
          DropSound(mem, (m, va));
          mem := Drop(mem, (m, va));
        } else {
          SameSelf(mem);
        }
        OnePage(before, mem, m, va, next);
        UnmappedMore(old(mem), before, mem, m, lo, va, next);
        va := next;
      }
    }

    lemma NextPage(va: nat, hi: nat)
      requires V.Aligned(va) && V.Aligned(hi) && va < hi
      ensures V.Aligned(va + V.PAGE) && va + V.PAGE <= hi
    {
    }

    lemma StillAligned(mem0: Mem, mem1: Mem, m: nat, lo: nat, va: nat)
      requires Unmapped(mem0, mem1, m, lo, va) && forall k :: k in mem0.pt ==> V.Aligned(k.1)
      ensures forall k :: k in mem1.pt ==> V.Aligned(k.1)
    {
    }

    lemma OnePage(mem0: Mem, mem1: Mem, m: nat, va: nat, next: nat)
      requires V.Aligned(va) && next == va + V.PAGE && (forall k :: k in mem0.pt ==> V.Aligned(k.1))
      requires mem1.pt.Keys == mem0.pt.Keys - {(m, va)}
      ensures forall k :: k in mem1.pt <==> k in mem0.pt && !(k.0 == m && va <= k.1 < next)
    {
      forall k | k in mem0.pt && k.0 == m && va <= k.1 < next ensures k == (m, va) {
      }
    }

    /** mm_unmap: pages and areas in [a, a + len) go, everything else stays; when an area had
        to be split and no node was available, it stays as zero-filled memory. */
    method Unmap(m: nat, a: V.U64, length: V.U64, node: bool) returns (ok: bool)
      requires Valid() && m in areas
      modifies this
      ensures Valid() && areas.Keys == old(areas.Keys)
      ensures ok <==> V.Aligned(a) && V.AlignUp(length) > 0 && a + V.AlignUp(length) < V.TWO64
      ensures !ok ==> mem == old(mem) && areas == old(areas)
      ensures ok ==> areas == old(areas)[m := V.Carve(old(areas)[m], a, a + V.AlignUp(length), node)]
      ensures ok ==> Unmapped(old(mem), mem, m, a, a + V.AlignUp(length))
      ensures ok ==> UnmapSeen(old(mem), old(areas), mem, areas, m, a, a + V.AlignUp(length),
                               !node && Splits(old(areas)[m], a, a + V.AlignUp(length)))
    {
      hide View, Sound, Bytes, SamePages, V.Carve, V.Valid, V.Covered, Unmapped, UnmapSeen, Splits, Guarded;
      var len := V.AlignUp(length);
      if !V.Aligned(a) || len == 0 || V.Add(a, len) < a {
        return false;
      }
      ok := true;
      var lo, hi := a, a + len;
      UnmapInAreas(m, lo, hi);
      var vs := V.UnmapAreas(areas[m], lo, hi, node);
      CarveFits(old(mem), mem, areas, m, lo, hi, node);
      UnmapViews(old(mem), mem, areas, m, lo, hi, node);
      areas := areas[m := vs];
    }

    /** The pages of every area that meets [lo, hi). */
    method UnmapInAreas(m: nat, lo: nat, hi: nat)
      requires Valid() && m in areas && V.Aligned(lo) && V.Aligned(hi) && lo < hi
      modifies this`mem
      ensures Valid() && Unmapped(old(mem), mem, m, lo, hi)
    {
      hide View, Bytes, SamePages, V.Covered, Unmapped, Sound, Remains, Inside, Guarded, AreasOk, Grants;
      var vs, i := areas[m], 0;
      RemainsAll(mem, vs, m, lo, hi);
      while i < |vs|
        invariant 0 <= i <= |vs| && Sound(mem) && Remains(old(mem), mem, vs, m, lo, hi, i)
      {
        ghost var before := mem;
        var lo', hi' := if lo < vs[i].start then vs[i].start else lo, if hi < vs[i].end then hi else vs[i].end;
        AreaAt(m, i);
        if hi <= vs[i].start || lo >= vs[i].end {
          lo', hi' := lo, lo;
          UnmappedNone(mem, m, lo);
        } else {
          PagesAligned(old(mem), mem, vs, m, lo, hi, i);
          UnmapPages(m, lo', hi');
        }
        RemainsNext(old(mem), before, mem, vs, m, lo, hi, i, lo', hi');
        i := i + 1;
      }
      RemainsDone(old(mem), mem, areas, m, lo, hi);
      FewerPages(old(mem), mem, m, lo, hi);
      InsideLess(old(mem), mem, areas);
      GuardedKept(old(mem), mem, areas, areas);
    }

    lemma AreaAt(m: nat, i: nat)
      requires AreasOk(areas) && m in areas && i < |areas[m]|
      ensures V.AreaOk(areas[m][i])
    {
    }

    lemma FewerPages(mem0: Mem, mem1: Mem, m: nat, lo: nat, hi: nat)
      requires Unmapped(mem0, mem1, m, lo, hi)
      ensures forall k :: k in mem1.pt ==> k in mem0.pt && mem1.pt[k] == mem0.pt[k]
    {
    }

    lemma PagesAligned(mem0: Mem, mem1: Mem, vs: seq<V.Area>, m: nat, lo: nat, hi: nat, i: nat)
      requires i <= |vs| && Inside(mem0, areas) && Remains(mem0, mem1, vs, m, lo, hi, i)
      ensures forall k :: k in mem1.pt ==> V.Aligned(k.1)
    {
    }

    /** mm_map: a new area; no page changes and no process loses memory. */
    method MapArea(m: nat, a: V.U64, length: V.U64, prot: nat, kind: V.Kind, node: bool) returns (r: V.U64)
      requires Valid() && m in areas
      modifies this`areas
      ensures Valid() && areas.Keys == old(areas.Keys) && Preserved(mem, old(areas), mem, areas)
      ensures areas == old(areas)[m := areas[m]] && (r == 0 ==> areas == old(areas))
      ensures r != 0 ==> forall v :: v in areas[m] <==> v in old(areas)[m] || v == V.Area(r, r + V.AlignUp(length), prot, kind)
      ensures r != 0 ==> r % V.PAGE == 0 && V.USER_START <= r && r + V.AlignUp(length) <= V.USER_END && (a != 0 ==> r == a)
      ensures r != 0 ==> forall v: nat :: r <= v < r + V.AlignUp(length) ==>
                           !V.Covered(old(areas)[m], v) && View(mem, areas, m, v) == Some(ZeroPage())
    {
      hide V.Valid, V.Covered, Sound, Bytes, Guarded;
      var vs;
      r, vs := V.MapArea(areas[m], a, length, prot, kind, node);
      GrowPreserves(mem, areas, m, vs);
      NothingThere(areas[m], r, V.AlignUp(length), m);
      MoreAreas(m, vs);
      areas := areas[m := vs];
    }

    lemma MoreAreas(m: nat, vs: seq<V.Area>)
      requires Valid() && m in areas && V.Valid(vs) && forall v :: v in areas[m] ==> v in vs
      ensures Guarded(mem, areas[m := vs])
    {
      hide V.Valid, V.Covered, Sound, Guarded, SameProt;
      forall k | k in mem.pt && k.0 == m ensures SameProt(areas[m], vs, k.1) {
        MoreProt(areas[m], vs, k.1);
      }
      GuardedKept(mem, mem, areas, areas[m := vs]);
    }

    lemma NothingThere(vs: seq<V.Area>, r: nat, len: nat, m: nat)
      requires Inside(mem, areas) && m in areas && vs == areas[m]
      ensures forall v: nat :: !V.Covered(vs, v) ==> (m, v) !in mem.pt
    {
      hide V.Covered;
      assert forall v: nat :: (m, v) in mem.pt ==> V.Covered(areas[(m, v).0], (m, v).1);
    }

    /** mm_sbrk: moves the end of the heap area and gives back the pages above a lower end. */
    method Sbrk(m: nat, brkStart: V.U64, brk: V.U64, inc: int) returns (ok: bool, brk': V.U64)
      requires Valid() && m in areas && -0x8000_0000_0000_0000 <= inc < 0x8000_0000_0000_0000
      modifies this
      ensures Valid() && areas.Keys == old(areas.Keys)
      ensures !ok ==> mem == old(mem) && areas == old(areas) && brk' == brk
      ensures ok <==> exists h :: V.IsHeap(old(areas)[m], h) && V.MayMoveBreak(old(areas)[m], h, brkStart, brk, inc)
      ensures ok ==> brk' == brk + inc && brk' <= V.MMAP_TOP
      ensures ok ==> exists h :: V.IsHeap(old(areas)[m], h) &&
                       var end := V.HeapEnd(brk', old(areas)[m][h].start);
                       && areas == old(areas)[m := old(areas)[m][h := old(areas)[m][h].(end := end)]]
                       && (if end < old(areas)[m][h].end then Unmapped(old(mem), mem, m, end, old(areas)[m][h].end) else mem == old(mem))
                       && HeapSeen(old(mem), old(areas), mem, areas, m, old(areas)[m][h].end, end)
    {
      hide V.Valid, V.Covered, Sound, Bytes, Unmapped, Inside, HeapSeen, View, Guarded, V.HeapEnd;
      var vs, lo, hi;
      ok, vs, brk', lo, hi := V.SbrkAreas(areas[m], brkStart, brk, inc);
      if !ok {
        return;
      }
      if lo < hi {
        AllAligned();
        UnmapPages(m, lo, hi);
      }
      ghost var h :| V.BreakMoved(areas[m], vs, brk', h, lo, hi);
      EndFits(old(mem), mem, areas, m, vs, brk', h, lo, hi);
      HeapViews(old(mem), mem, areas, m, h, V.HeapEnd(brk', areas[m][h].start));
      areas := areas[m := vs];
    }

    lemma AllAligned()
      requires Inside(mem, areas)
      ensures forall k :: k in mem.pt ==> V.Aligned(k.1)
    {
    }

    lemma EndFits(mem0: Mem, mem1: Mem, areas: Areas, m: nat, vs: seq<V.Area>, brk: V.U64, h: int, lo: nat, hi: nat)
      requires m in areas && Inside(mem0, areas) && AreasOk(areas) && V.Valid(vs) && Guarded(mem0, areas)
      requires if lo < hi then Unmapped(mem0, mem1, m, lo, hi) else mem1 == mem0
      requires V.BreakMoved(areas[m], vs, brk, h, lo, hi)
      ensures Inside(mem1, areas[m := vs]) && Guarded(mem1, areas[m := vs])
    {
      hide V.Valid, Guarded, SameProt, V.HeapEnd, Grants, Bytes;
      forall k | k in mem1.pt && k.0 == m ensures V.Covered(vs, k.1) && SameProt(areas[m], vs, k.1) {
        assert k in mem0.pt && V.Covered(areas[m], k.1);
        var j :| 0 <= j < |areas[m]| && V.Holds(areas[m][j], k.1);
        assert V.Holds(vs[j], k.1);
        ReplacedProt(areas[m], h, vs[h], k.1);
        assert areas[m][h := vs[h]] == vs;
      }
      GuardedKept(mem0, mem1, areas, areas[m := vs]);
    }

    // ---- fork ----

    /** mm_destroy: drops one reference per mapped page and forgets the areas. */
    method Destroy(m: nat)
      requires Sound(mem)
      modifies this
      ensures Sound(mem) && areas == old(areas) - {m}
      ensures (forall k :: k in mem.pt <==> k in old(mem).pt && k.0 != m) && SamePages(old(mem), mem, mem.pt.Keys)
      ensures SameEntries(old(mem), mem)
    {
      hide Sound, Bytes;
      var todo := set k | k in mem.pt && k.0 == m;
      SameSelf(mem);
      while todo != {}
        invariant Sound(mem) && areas == old(areas) && todo <= mem.pt.Keys && (forall k :: k in todo ==> k.0 == m)
        invariant forall k :: k in mem.pt <==> k in old(mem).pt && (k.0 == m ==> k in todo)
        invariant SamePages(old(mem), mem, mem.pt.Keys) && SameEntries(old(mem), mem)
        decreases todo
      {
        var k :| k in todo;
        ghost var before := mem;
        DropSound(mem, k);
        mem := Drop(mem, k);
        SamePart(old(mem), before, mem);
        todo := todo - {k};
      }
      areas := areas - {m};
    }

    lemma SamePart(mem0: Mem, mem1: Mem, mem2: Mem)
      requires SamePages(mem0, mem1, mem1.pt.Keys) && SamePages(mem1, mem2, mem2.pt.Keys) && mem2.pt.Keys <= mem1.pt.Keys
      ensures SamePages(mem0, mem2, mem2.pt.Keys)
    {
      forall k | k in mem2.pt ensures Same(mem0, mem2, k) {
        assert Same(mem0, mem1, k) && Same(mem1, mem2, k);
      }
    }

    /** The pages of an address space. */
    ghost function PagesOf(m: nat): set<Key>
      reads this`mem
    {
      set k | k in mem.pt && k.0 == m
    }

    /** copy_user_tables: shares every page of the parent, until a page table of the child
        cannot be allocated: after `tables` pages. The pages are visited in no particular order. */
    method CopyTables(parent: nat, child: nat, tables: nat) returns (ok: bool)
      requires Valid() && parent in areas && child in areas && parent != child && areas[child] == areas[parent]
      requires forall k :: k in mem.pt ==> k.0 != child
      modifies this`mem
      ensures Valid() && Copied(old(mem), mem, parent, child) && old(mem).pt.Keys <= mem.pt.Keys
      ensures ok ==> forall v: nat :: (parent, v) in old(mem).pt ==> (child, v) in mem.pt
      ensures ok <==> tables >= |old(PagesOf(parent))|
    {
      hide Sound, Bytes, Inside, Copied, SamePages, Guarded, Grants;
      var todo := set k | k in mem.pt && k.0 == parent;
      var done: nat := 0;
      CopiedNone(mem, parent, child);
      ok := true;
      while todo != {}
        invariant Sound(mem) && Copied(old(mem), mem, parent, child) && old(mem).pt.Keys <= mem.pt.Keys
        invariant todo <= old(mem).pt.Keys && (forall k :: k in todo ==> k.0 == parent && (child, k.1) !in mem.pt)
        invariant done + |todo| == |old(PagesOf(parent))| && done <= tables
        invariant forall v: nat :: (parent, v) in old(mem).pt && (parent, v) !in todo ==> (child, v) in mem.pt
        decreases todo
      {
        var k :| k in todo;
        ghost var before := mem;
        var table := done < tables;
        Known(mem, k);
        ShareGrants(mem, k, (child, k.1));
        if table {
          ShareSound(mem, k, (child, k.1));
          mem := Share(mem, k, (child, k.1));
        } else {
          MarkCowSound(mem, k);         // the parent's entry stays read-only, the reference is put back
          mem := MarkCow(mem, k);
        }
        CopiedMore(old(mem), before, mem, parent, child, k.1);
        if !table {
          CopiedInside(old(mem), mem, areas, parent, child);
          CopiedGuarded(old(mem), mem, areas, parent, child);
          return false;
        }
        todo := todo - {k};
        done := done + 1;
      }
      CopiedInside(old(mem), mem, areas, parent, child);
      CopiedGuarded(old(mem), mem, areas, parent, child);
    }

    lemma PagesKnown()
      requires Valid()
      ensures forall k :: k in mem.pt ==> k.0 in areas
    {
    }

    /** Copies the list of areas, one node at a time; `nodes` is how many there are. */
    method CopyAreas(parent: nat, child: nat, nodes: nat) returns (ok: bool)
      requires Valid() && parent in areas && child !in areas
      modifies this`areas
      ensures Valid() && child in areas && areas - {child} == old(areas)
      ensures ok ==> areas == old(areas)[child := old(areas)[parent]]
      ensures ok <==> nodes >= |old(areas)[parent]|
    {
      hide Sound, V.Covered;
      var vs, i := areas[parent], 0;
      areas := areas[child := []];
      while i < |vs|
        invariant 0 <= i <= |vs| && i <= nodes && areas == old(areas)[child := vs[..i]]
      {
        if i == nodes {
          return false;
        }
        i := i + 1;
        areas := areas[child := vs[..i]];
      }
      assert vs[..|vs|] == vs;
      ok := true;
    }

    /** mm_fork. It fails only for missing memory: for the child itself (`created`), for one of its areas
        (`nodes` are left) or for its page tables (after `tables` pages). */
    method Fork(parent: nat, id: nat, created: bool, nodes: nat, tables: nat) returns (child: Option<nat>)
      requires Valid() && parent in areas && id !in areas
      modifies this
      ensures Valid()
      ensures child.None? ==> areas == old(areas) && SameView(old(mem), areas, mem, areas) && mem.pt.Keys == old(mem).pt.Keys
      ensures child.Some? <==> created && nodes >= |old(areas)[parent]| && tables >= |old(PagesOf(parent))|
      ensures child.Some? ==> child.value == id && areas == old(areas)[id := old(areas)[parent]]
      ensures child.Some? ==> forall v: nat :: View(mem, areas, id, v) == old(View(mem, areas, parent, v))
      ensures child.Some? ==> forall m: nat, v: nat :: m != id ==> View(mem, areas, m, v) == old(View(mem, areas, m, v))
    {
      hide Sound, Bytes, Inside, Copied, SamePages, View, V.Valid, V.Covered, Guarded, SameEntries;
      PagesKnown();
      if !created {
        return None;
      }
      CopiedNone(mem, parent, id);
      var ok := CopyAreas(parent, id, nodes);
      if ok {
        ok := CopyTables(parent, id, tables);
      }
      if ok {
        ForkViews(old(mem), mem, old(areas), parent, id);
        return Some(id);
      }
      ghost var mem1 := mem;
      Destroy(id);
      UndoneViews(old(mem), mem1, mem, old(areas), parent, id);
      BackInside(old(mem), mem);
      BackGuarded(old(mem), mem1, mem, old(areas), parent, id);
      return None;
    }

    lemma BackGuarded(mem0: Mem, mem1: Mem, mem2: Mem, areas0: Areas, parent: nat, child: nat)
      requires Guarded(mem0, areas0) && AreasOk(areas0) && Copied(mem0, mem1, parent, child) && SameEntries(mem1, mem2) && mem2.pt.Keys == mem0.pt.Keys
      ensures Guarded(mem2, areas0)
    {
      hide Grants, Guarded, V.Valid, Bytes;
      GuardedKept(mem0, mem2, areas0, areas0);
    }

    lemma BackInside(mem0: Mem, mem1: Mem)
      requires Inside(mem0, areas) && mem1.pt.Keys == mem0.pt.Keys
      ensures Inside(mem1, areas)
    {
    }
  }
}

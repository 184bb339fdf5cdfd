/** alloc_pages and free_pages (kernel/mm/pmm.c:139-190): which block each caller holds, that free
    pages and held blocks always partition a zone, and the choice between the two zones. */
module Pmm {
  import opened BuddyBlocks
  import opened BuddyZone

  lemma PagesSize(k: nat, o: nat)
    ensures |Pages(k, o)| == Pow2(o)
  {
    assert Pages(k, o) == Interval(Start(k, o), Pow2(o)) by {
      forall p: nat ensures p in Pages(k, o) <==> p in Interval(Start(k, o), Pow2(o)) {
        IdxRange(p, k, o);
      }
    }
  }

  /** `owner` maps each allocated page to the head of the one block that holds it. */
  ghost predicate Owned(blocks: map<nat, set<nat>>, owner: map<nat, nat>) {
    && (forall p: nat {:trigger owner[p]} :: p in owner ==> owner[p] in blocks && p in blocks[owner[p]])
    && (forall h: nat, p: nat {:trigger p in blocks[h]} :: h in blocks && p in blocks[h] ==> p in owner && owner[p] == h)
  }

  ghost function Claim(owner: map<nat, nat>, b: set<nat>, h: nat): (r: map<nat, nat>)
    ensures r.Keys == owner.Keys + b
    ensures forall p: nat :: p in b ==> r[p] == h
    ensures forall p: nat :: p in owner && p !in b ==> r[p] == owner[p]
  {
    owner + (map p: nat | p in b :: h)
  }

  lemma OwnMore(blocks: map<nat, set<nat>>, owner: map<nat, nat>, h: nat, b: set<nat>)
    requires Owned(blocks, owner) && h !in blocks && b !! owner.Keys
    ensures Owned(blocks[h := b], Claim(owner, b, h))
  {
  }

  lemma OwnLess(blocks: map<nat, set<nat>>, owner: map<nat, nat>, h: nat)
    requires Owned(blocks, owner) && h in blocks
    ensures Owned(blocks - {h}, owner - blocks[h])
    ensures blocks[h] <= owner.Keys
  {
    forall g: nat, p: nat | g in blocks && g != h && p in blocks[g]
      ensures p in owner && owner[p] == g && p !in blocks[h]
    {
    }
  }

  ghost function BlockMap(held: map<nat, nat>): (r: map<nat, set<nat>>)
    ensures r.Keys == held.Keys
  {
    map h: nat | h in held :: Pages(Idx(h, held[h]), held[h])
  }

  lemma BlockMapAdd(held: map<nat, nat>, pfn: nat, o: nat)
    ensures BlockMap(held)[pfn := Pages(Idx(pfn, o), o)] == BlockMap(held[pfn := o])
  {
  }

  lemma BlockMapDel(held: map<nat, nat>, pfn: nat)
    requires pfn in held
    ensures BlockMap(held) - {pfn} == BlockMap(held - {pfn})
    ensures BlockMap(held)[pfn] == Pages(Idx(pfn, held[pfn]), held[pfn])
  {
  }

  /** Free pages and held blocks partition the managed pages, and the counter is exact. */
  ghost predicate Partition(free: set<nat>, count: nat, blocks: map<nat, set<nat>>, owner: map<nat, nat>, managed: set<nat>) {
    && Owned(blocks, owner)
    && free !! owner.Keys && managed == free + owner.Keys && count == |free|
  }

  lemma TakeKeeps(free: set<nat>, count: nat, count': nat, blocks: map<nat, set<nat>>, more: map<nat, set<nat>>,
                  owner: map<nat, nat>, managed: set<nat>, h: nat, b: set<nat>)
    requires Partition(free, count, blocks, owner, managed) && b <= free && h in b
    requires h in blocks ==> h in blocks[h]
    requires more == blocks[h := b] && count == count' + |b|
    ensures h !in blocks && Partition(free - b, count', more, Claim(owner, b, h), managed)
  {
    assert |free - b| == |free| - |b|;
    assert h !in owner;
    OwnMore(blocks, owner, h, b);
    assert managed == (free - b) + (owner.Keys + b);
  }

  lemma GiveKeeps(free: set<nat>, count: nat, count': nat, blocks: map<nat, set<nat>>, rest: map<nat, set<nat>>,
                  owner: map<nat, nat>, managed: set<nat>, h: nat, b: set<nat>)
    requires Partition(free, count, blocks, owner, managed)
    requires h in blocks && b == blocks[h] && rest == blocks - {h} && count' == count + |b|
    ensures b !! free && Partition(free + b, count', rest, owner - b, managed)
  {
    OwnLess(blocks, owner, h);
    assert |free + b| == |free| + |b|;
    assert (owner - b).Keys == owner.Keys - b;
  }

  lemma MoreKeeps(free: set<nat>, free': set<nat>, count: nat, count': nat, blocks: map<nat, set<nat>>, owner: map<nat, nat>,
                  managed: set<nat>, managed': set<nat>, x: set<nat>)
    requires Partition(free, count, blocks, owner, managed) && x !! managed
    requires free' == free + x && managed' == managed + x && count' == count + |x|
    ensures Partition(free', count', blocks, owner, managed')
  {
    assert |free + x| == |free| + |x|;
  }

  lemma ManagedApart(free: set<nat>, count: nat, blocks: map<nat, set<nat>>, owner: map<nat, nat>, managed: set<nat>, x: set<nat>)
    requires Partition(free, count, blocks, owner, managed) && x !! managed
    ensures x !! free
  {
  }

  /** The pages of a region. */
  ghost predicate Spans(x: set<nat>, a: nat, b: nat) {
    forall p: nat :: p in x <==> a <= p < b
  }

  lemma SpansSize(x: set<nat>, a: nat, b: nat)
    requires Spans(x, a, b) && a <= b
    ensures |x| == b - a
  {
    assert x == Interval(a, b - a);
  }

  /** A region is cut in two. */
  lemma RegionSplit(x: set<nat>, a: nat, m: nat, b: nat) returns (y: set<nat>, z: set<nat>)
    requires a <= m <= b && Spans(x, a, b)
    ensures Spans(y, a, m) && Spans(z, m, b) && x == y + z
    ensures (m == a ==> y == {}) && (m == b ==> z == {})
  {
    y, z := Interval(a, m - a), Interval(m, b - m);
  }

  lemma RangeAdded(free: set<nat>, free': set<nat>, x: set<nat>, a: nat, b: nat)
    requires Spans(x, a, b) && forall p: nat :: p in free' <==> p in free || a <= p < b
    ensures free' == free + x
  {
  }

  lemma NotFreeYet(free: set<nat>, x: set<nat>, a: nat, b: nat)
    requires Spans(x, a, b) && x !! free
    ensures forall p: nat :: a <= p < b ==> p !in free
  {
  }

  lemma DisjointIsApart(free: set<nat>, k: nat, o: nat)
    requires Pages(k, o) !! free
    ensures Apart(free, k, o)
  {
    forall p: nat | Idx(p, o) == k ensures p !in free {
      assert p in Pages(k, o);
    }
  }

  lemma EnoughCounted(free: set<nat>, count: nat, held: map<nat, nat>, owner: map<nat, nat>, managed: set<nat>, pfn: nat, o: nat)
    requires Partition(free, count, BlockMap(held), owner, managed)
    requires Whole(free, Idx(pfn, o), o)
    ensures Pow2(o) <= count
  {
    var b := Pages(Idx(pfn, o), o);
    assert b <= free;
    assert |free - b| == |free| - |b|;
    PagesSize(Idx(pfn, o), o);
  }

  lemma TakeStep(free: set<nat>, count: nat, count': nat, held: map<nat, nat>, owner: map<nat, nat>, managed: set<nat>,
                 pfn: nat, o: nat)
    requires Partition(free, count, BlockMap(held), owner, managed)
    requires Aligned(pfn, o) && Whole(free, Idx(pfn, o), o) && count == count' + Pow2(o)
    ensures pfn !in held
    ensures Partition(free - Pages(Idx(pfn, o), o), count', BlockMap(held[pfn := o]),
                      Claim(owner, Pages(Idx(pfn, o), o), pfn), managed)
  {
    var b := Pages(Idx(pfn, o), o);
    assert b <= free && pfn in b;
    PagesSize(Idx(pfn, o), o);
    BlockMapAdd(held, pfn, o);
    if pfn in held {
      BlockMapDel(held, pfn);
    }
    hide Idx, Start, Pow2, Whole, Aligned, BlockMap, Owned, Partition, Interval;
    TakeKeeps(free, count, count', BlockMap(held), BlockMap(held[pfn := o]), owner, managed, pfn, b);
  }

  lemma GiveStep(free: set<nat>, count: nat, count': nat, held: map<nat, nat>, owner: map<nat, nat>, managed: set<nat>,
                 pfn: nat, o: nat)
    requires Partition(free, count, BlockMap(held), owner, managed) && pfn in held && held[pfn] == o
    requires count' == count + Pow2(o)
    ensures Apart(free, Idx(pfn, o), o)
    ensures Partition(free + Pages(Idx(pfn, o), o), count', BlockMap(held - {pfn}), owner - Pages(Idx(pfn, o), o), managed)
  {
    hide Idx, Start, Pow2, BlockMap, Owned, Partition, Interval;
    BlockMapDel(held, pfn);
    PagesSize(Idx(pfn, o), o);
    GiveKeeps(free, count, count', BlockMap(held), BlockMap(held - {pfn}), owner, managed, pfn, Pages(Idx(pfn, o), o));
    DisjointIsApart(free, Idx(pfn, o), o);
  }

  class PageAllocator {
    const zone: Zone
    var held: map<nat, nat>        // pages flagged PG_HEAD, with the order of their block
    var freePages: nat             // zone->free_pages
    ghost var owner: map<nat, nat>
    ghost var managed: set<nat>    // the pages handed over at start-up

    ghost predicate Valid()
      reads this, zone
    {
      && zone.Valid()
      && Partition(zone.free, freePages, BlockMap(held), owner, managed)
      && HeldOk(held)
    }

    ghost predicate HeldOk(held: map<nat, nat>) {
      forall h: nat :: h in held ==> held[h] < MAX_ORDER && Aligned(h, held[h]) && zone.Inside(h, held[h])
    }

    lemma HeldMore(held: map<nat, nat>, pfn: nat, o: nat)
      requires HeldOk(held) && o < MAX_ORDER && Aligned(pfn, o) && zone.Inside(pfn, o)
      ensures HeldOk(held[pfn := o])
    {
    }

    lemma HeldLess(held: map<nat, nat>, pfn: nat)
      requires HeldOk(held) && pfn in held
      ensures HeldOk(held - {pfn})
      ensures held[pfn] < MAX_ORDER && Aligned(pfn, held[pfn]) && zone.Inside(pfn, held[pfn])
    {
    }

    /** A zone without pages. */
    constructor (start: nat, end: nat)
      requires start <= end
      ensures Valid() && fresh(zone) && zone.start == start && zone.end == end && held == map[] && managed == {} && zone.free == {}
    {
      zone := new Zone(start, end, map[]);
      held, freePages, owner, managed := map[], 0, map[], {};
    }

    /** free_range for a usable region [a, b) of the zone, the pages `x`. */
    method FreeRegion(a: nat, b: nat, ghost x: set<nat>)
      requires Valid() && zone.start <= a <= b <= zone.end && Spans(x, a, b) && x !! managed
      modifies this, zone
      ensures Valid() && held == old(held) && managed == old(managed) + x && zone.free == old(zone.free) + x
    {
      hide Zone.Valid, Idx, Start, Pow2, Pages, BlockMap, Owned, Partition, Represents, Apart, Aligned, Zone.Inside, HeldOk, Zone.SameOutside, Tagged, Interval, Spans;
      ManagedApart(zone.free, freePages, BlockMap(held), owner, managed, x);
      SpansSize(x, a, b);
      HandOver(a, b, x);
      freePages, managed := freePages + (b - a), managed + x;
      MoreKeeps(old(zone.free), zone.free, old(freePages), freePages, BlockMap(held), owner, old(managed), managed, x);
    }

    method HandOver(a: nat, b: nat, ghost x: set<nat>)
      requires zone.Valid() && zone.start <= a <= b <= zone.end && Spans(x, a, b) && x !! zone.free
      modifies zone
      ensures zone.Valid() && zone.free == old(zone.free) + x
    {
      hide Zone.Valid;
      NotFreeYet(zone.free, x, a, b);
      zone.FreeRange(a, b);
      RangeAdded(old(zone.free), zone.free, x, a, b);
    }

    /** alloc_pages: None only when the zone has no aligned free run of that size. */
    method AllocPages(order: nat) returns (r: Option<nat>)
      requires Valid()
      modifies this, zone
      ensures Valid() && managed == old(managed)
      ensures r.None? <==> order >= MAX_ORDER || forall k: nat :: !Whole(old(zone.free), k, order)
      ensures r.None? ==> held == old(held) && zone.free == old(zone.free)
      ensures r.Some? ==> r.value !in old(held) && held == old(held)[r.value := order]
      ensures r.Some? ==> zone.free == old(zone.free) - Pages(Idx(r.value, order), order)
      ensures r.Some? ==> Whole(old(zone.free), Idx(r.value, order), order)
    {
      if order >= MAX_ORDER {
        return None;
      }
      hide Zone.Valid, Idx, Start, Pow2, Pages, BlockMap, Owned, Partition, Represents, Whole, Claim, Aligned, Zone.Inside, HeldOk, Zone.SameOutside, Tagged, Interval;
      r := zone.BuddyAlloc(order);
      if r.Some? {
        Record(r.value, order, old(zone.free));
      }
    }

    /** Sets PG_HEAD and the counters for a block just taken off the free lists. */
    method Record(pfn: nat, order: nat, ghost before: set<nat>)
      requires order < MAX_ORDER && Aligned(pfn, order) && zone.Inside(pfn, order)
      requires Whole(before, Idx(pfn, order), order) && zone.free == before - Pages(Idx(pfn, order), order)
      requires zone.Valid() && HeldOk(held) && Partition(before, freePages, BlockMap(held), owner, managed)
      modifies this
      ensures Valid() && managed == old(managed)
      ensures pfn !in old(held) && held == old(held)[pfn := order]
    {
      hide Zone.Valid, Idx, Start, Pow2, Pages, BlockMap, Owned, Partition, Represents, Whole, Claim, Aligned, Zone.Inside, HeldOk, Zone.SameOutside, Tagged, Interval;
      HeldMore(held, pfn, order);
      EnoughCounted(before, freePages, held, owner, managed, pfn, order);
      freePages := freePages - Pow2(order);
      TakeStep(before, old(freePages), freePages, held, owner, managed, pfn, order);
      held := held[pfn := order];
      owner := Claim(owner, Pages(Idx(pfn, order), order), pfn);
    }

    /** free_pages: the checks that panic in the source are the caller's obligation here. */
    method FreePages(pfn: nat, order: nat)
      requires Valid() && pfn in held && held[pfn] == order
      modifies this, zone
      ensures Valid() && managed == old(managed) && held == old(held) - {pfn}
      ensures zone.free == old(zone.free) + Pages(Idx(pfn, order), order)
    {
      hide Zone.Valid, Idx, Start, Pow2, Pages, BlockMap, Owned, Partition, Represents, Apart, Aligned, Zone.Inside, HeldOk, Zone.SameOutside, Tagged, Interval;
      HeldLess(held, pfn);
      freePages := freePages + Pow2(order);
      GiveStep(zone.free, old(freePages), freePages, held, owner, managed, pfn, order);
      zone.BuddyFree(pfn, order);
      held := held - {pfn};
      owner := owner - Pages(Idx(pfn, order), order);
    }

    /** With every allocation returned, in whatever order, the free pages are the
        managed pages again; ListsDetermined then fixes every free list. */
    lemma AllReturned()
      requires Valid() && held == map[]
      ensures zone.free == managed && Represents(zone.lists, managed)
    {
      assert forall p: nat :: p in owner ==> owner[p] in BlockMap(held);
      assert owner.Keys == {};
    }
  }

  const PFN_4G: nat := 0x10_0000

  /** The DMA32 zone below 4 GiB and the normal zone above. */
  class Memory {
    const low: PageAllocator
    const high: PageAllocator

    ghost predicate Valid()
      reads this, low, low.zone, high, high.zone
    {
      && low.Valid() && high.Valid() && low != high && low.zone != high.zone
      && low.zone.end <= PFN_4G <= high.zone.start
    }

    /** pmm_init before any region is handed over. */
    constructor (maxPfn: nat)
      ensures Valid() && fresh(low) && fresh(low.zone) && fresh(high) && fresh(high.zone)
      ensures low.managed == {} && high.managed == {} && low.held == map[] && high.held == map[]
      ensures low.zone.start == 0 && low.zone.end == (if maxPfn < PFN_4G then maxPfn else PFN_4G)
      ensures high.zone.start == PFN_4G && high.zone.end == (if maxPfn < PFN_4G then PFN_4G else maxPfn)
    {
      var lo := new PageAllocator(0, if maxPfn < PFN_4G then maxPfn else PFN_4G);
      var hi := new PageAllocator(PFN_4G, if maxPfn < PFN_4G then PFN_4G else maxPfn);
      low, high := lo, hi;
    }

    /** free_range of one usable region [a, b), the pages `x`: each zone gets its part. */
    method FreeRegion(a: nat, b: nat, ghost x: set<nat>)
      requires Valid() && low.zone.start <= a <= b <= high.zone.end && (b <= low.zone.end || low.zone.end == PFN_4G == high.zone.start)
      requires Spans(x, a, b) && x !! low.managed + high.managed
      modifies low, low.zone, high, high.zone
      ensures Valid() && low.held == old(low.held) && high.held == old(high.held)
      ensures low.managed + high.managed == old(low.managed + high.managed) + x
      ensures low.zone.free + high.zone.free == old(low.zone.free + high.zone.free) + x
    {
      hide PageAllocator.Valid, Spans;
      var m := if b <= PFN_4G then b else if a < PFN_4G then PFN_4G else a;
      ghost var y, z := RegionSplit(x, a, m, b);
      if a < m {
        low.FreeRegion(a, m, y);
      }
      if m < b {
        high.FreeRegion(m, b, z);
      }
    }

    /** alloc_pages: an ordinary request tries the normal zone first and falls back to DMA32, a DMA32
        request takes that zone only. */
    method Alloc(order: nat, dma32: bool) returns (r: Option<nat>)
      requires Valid()
      modifies low, low.zone, high, high.zone
      ensures Valid() && low.managed == old(low.managed) && high.managed == old(high.managed)
      ensures r.None? <==> order >= MAX_ORDER ||
                           ((forall k: nat :: !Whole(old(low.zone.free), k, order)) && (dma32 || forall k: nat :: !Whole(old(high.zone.free), k, order)))
      ensures r.None? ==> low.held == old(low.held) && high.held == old(high.held)
                          && low.zone.free == old(low.zone.free) && high.zone.free == old(high.zone.free)
      ensures r.Some? && (dma32 || forall k: nat :: !Whole(old(high.zone.free), k, order)) ==>
                r.value !in old(low.held) && low.held == old(low.held)[r.value := order] && high.held == old(high.held)
                && low.zone.free == old(low.zone.free) - Pages(Idx(r.value, order), order) && high.zone.free == old(high.zone.free)
      ensures r.Some? && !(dma32 || forall k: nat :: !Whole(old(high.zone.free), k, order)) ==>
                r.value !in old(high.held) && high.held == old(high.held)[r.value := order] && low.held == old(low.held)
                && high.zone.free == old(high.zone.free) - Pages(Idx(r.value, order), order) && low.zone.free == old(low.zone.free)
    {
      hide PageAllocator.Valid, Whole, Pages, Idx;
      r := None;
      if !dma32 {
        r := high.AllocPages(order);
      }
      if r.None? {
        r := low.AllocPages(order);
      }
    }

    /** free_pages: the page number tells the zone. */
    method Free(pfn: nat, order: nat)
      requires Valid() && (pfn in low.held || pfn in high.held)
      requires pfn in low.held ==> low.held[pfn] == order
      requires pfn in high.held ==> high.held[pfn] == order
      modifies low, low.zone, high, high.zone
      ensures Valid() && low.managed == old(low.managed) && high.managed == old(high.managed)
      ensures low.held == old(low.held) - {pfn} && high.held == old(high.held) - {pfn}
      ensures low.zone.free + high.zone.free == old(low.zone.free + high.zone.free) + Pages(Idx(pfn, order), order)
    {
      hide PageAllocator.Valid, Pages, Idx;
      HeldZone(pfn);
      if pfn < PFN_4G {
        low.FreePages(pfn, order);
      } else {
        high.FreePages(pfn, order);
      }
    }

    /** A block is in the zone that its page number says. */
    lemma HeldZone(pfn: nat)
      requires Valid()
      ensures pfn in low.held ==> pfn < PFN_4G
      ensures pfn in high.held ==> pfn >= PFN_4G
    {
      hide Partition, Zone.Valid, Aligned, Pow2;
      if pfn in low.held {
        assert low.zone.Inside(pfn, low.held[pfn]);
      }
      if pfn in high.held {
        assert high.zone.Inside(pfn, high.held[pfn]);
      }
      PowPositive(pfn, low.held);
    }

    lemma PowPositive(pfn: nat, held: map<nat, nat>)
      ensures pfn in held ==> Pow2(held[pfn]) > 0
    {
    }
  }
}

/** An object cache on the page allocator (kernel/mm/slab.c:102-111, 161-257): slabs are blocks that
    alloc_pages handed out, so different slabs are apart because different allocations are. */
module SlabPages {
  import opened BuddyBlocks
  import BuddyZone
  import P = Pmm
  import S = Slab

  const PageSize: nat := 4096

  /** A slab lies where its block of pages begins. */
  ghost predicate Backed(slabs: set<nat>, held: map<nat, nat>, order: nat) {
    forall s :: s in slabs ==> s % PageSize == 0 && s / PageSize in held && held[s / PageSize] == order
  }

  /** Blocks of one order that are held by different callers are at least a block apart. */
  lemma HeldApart(free: set<nat>, count: nat, held: map<nat, nat>, owner: map<nat, nat>, managed: set<nat>, h: nat, g: nat, order: nat)
    requires P.Partition(free, count, P.BlockMap(held), owner, managed)
    requires h in held && g in held && h != g && held[h] == order && held[g] == order
    requires BuddyZone.Aligned(h, order) && BuddyZone.Aligned(g, order)
    ensures h + Pow2(order) <= g || g + Pow2(order) <= h
  {
    var blocks := P.BlockMap(held);
    var k, l := Idx(h, order), Idx(g, order);
    assert h in blocks[h] && g in blocks[g];
    assert blocks[h] == Pages(k, order) && blocks[g] == Pages(l, order);
    assert h !in Pages(l, order);
    IdxRange(g, k, order);
    IdxRange(h, l, order);
  }

  lemma Scaled(a: nat, b: nat, n: nat, bytes: nat)
    requires a + n <= b && bytes == n * PageSize
    ensures a * PageSize + bytes <= b * PageSize
  {
  }

  lemma PageOf(s: nat)
    requires s % PageSize == 0
    ensures s / PageSize * PageSize == s
  {
  }

  lemma AddressOf(p: nat)
    ensures p * PageSize % PageSize == 0 && p * PageSize / PageSize == p
  {
  }

  /** A block just handed out is apart from every slab. */
  lemma NewApart(slabs: set<nat>, p: nat, held: map<nat, nat>, order: nat, bytes: nat)
    requires Backed(slabs, held, order) && p !in held && bytes == Pow2(order) * PageSize && S.Apart(slabs, bytes)
    requires forall h :: h in held && held[h] == order ==> h + Pow2(order) <= p || p + Pow2(order) <= h
    ensures p * PageSize !in slabs && S.Apart(slabs + {p * PageSize}, bytes)
  {
    hide Pow2;
    AddressOf(p);
    var a := p * PageSize;
    forall s | s in slabs ensures s + bytes <= a || a + bytes <= s {
      PageOf(s);
      var h := s / PageSize;
      if h + Pow2(order) <= p {
        Scaled(h, p, Pow2(order), bytes);
      } else {
        Scaled(p, h, Pow2(order), bytes);
      }
    }
  }

  lemma BackedMore(slabs: set<nat>, held: map<nat, nat>, order: nat, p: nat)
    requires Backed(slabs, held, order) && p !in held
    ensures Backed(slabs, held[p := order], order) && Backed(slabs + {p * PageSize}, held[p := order], order)
  {
    AddressOf(p);
  }

  lemma BackedLess(slabs: set<nat>, held: map<nat, nat>, order: nat, s: nat)
    requires Backed(slabs, held, order) && s % PageSize == 0
    ensures Backed(slabs - {s}, held - {s / PageSize}, order)
  {
    PageOf(s);
    forall t | t in slabs - {s} ensures t / PageSize != s / PageSize {
      PageOf(t);
    }
  }

  /** One cache with the page allocator behind it. */
  class Kmem {
    const cache: S.Cache
    const pages: P.PageAllocator
    const order: nat

    ghost predicate Valid()
      reads this, cache, pages, pages.zone
    {
      && cache.Valid() && pages.Valid() && order < MAX_ORDER && cache.bytes == Pow2(order) * PageSize
      && Backed(cache.slabs.Keys, pages.held, order)
    }

    constructor (pages: P.PageAllocator, n: nat, stride: nat, order: nat)
      requires pages.Valid() && order < MAX_ORDER && 0 < n && n * stride <= Pow2(order) * PageSize
      ensures Valid() && fresh(cache) && this.pages == pages && this.order == order && cache.live == {}
    {
      this.pages, this.order := pages, order;
      cache := new S.Cache(n, stride, Pow2(order) * PageSize);
    }

    ghost predicate AllLive()
      reads cache
    {
      forall s, i :: s in cache.slabs && 0 <= i < cache.n ==> S.Obj(s, i) in cache.live
    }

    /** kmem_cache_alloc with alloc_pages behind it: fails exactly when every object is live and no
        run of pages is free; pages are taken only when every object is live. */
    method Alloc() returns (r: S.Option<S.Obj>)
      requires Valid()
      modifies cache, pages, pages.zone
      ensures Valid()
      ensures r.Some? ==> r.value !in old(cache.live) && cache.live == old(cache.live) + {r.value}
      ensures r.None? <==> old(AllLive()) && forall k: nat :: !Whole(old(pages.zone.free), k, order)
      ensures !old(AllLive()) ==> pages.held == old(pages.held) && pages.zone.free == old(pages.zone.free)
    {
      hide S.Cache.Valid, P.PageAllocator.Valid, Whole, Pages, Idx, Pow2, S.Apart, Backed;
      S.NeedsSlab(cache);
      CacheApart();
      var page: S.Option<nat> := S.None;
      if cache.lists.partial == [] && cache.lists.empty == [] {
        var p := pages.AllocPages(order);
        if p.Some? {
          BlocksApart(p.value, old(pages.held));
          NewApart(cache.slabs.Keys, p.value, old(pages.held), order, cache.bytes);
          BackedMore(cache.slabs.Keys, old(pages.held), order, p.value);
          page := S.Some(p.value * PageSize);
        }
      }
      r := cache.Alloc(page);
      if page.Some? {
        assert cache.slabs.Keys == old(cache.slabs.Keys) + {page.value};
      } else {
        assert cache.slabs.Keys == old(cache.slabs.Keys);
        assert pages.held == old(pages.held);
      }
    }

    lemma CacheApart()
      requires cache.Valid()
      ensures S.Apart(cache.slabs.Keys, cache.bytes)
    {
    }

    /** The block just taken is apart from the others that are held. */
    lemma BlocksApart(p: nat, before: map<nat, nat>)
      requires pages.Valid() && p !in before && pages.held == before[p := order]
      ensures forall h :: h in before && before[h] == order ==> h + Pow2(order) <= p || p + Pow2(order) <= h
    {
      hide P.Partition, Pow2, BuddyZone.Zone.Valid, BuddyZone.Aligned, BuddyZone.Zone.Inside;
      forall h | h in before && before[h] == order ensures h + Pow2(order) <= p || p + Pow2(order) <= h {
        HeldApart(pages.zone.free, pages.freePages, pages.held, pages.owner, pages.managed, h, p, order);
      }
    }

    /** kmem_cache_free: a slab that is given up goes back to the page allocator. */
    method Free(o: S.Obj)
      requires Valid() && o in cache.live
      modifies cache, pages, pages.zone
      ensures Valid() && cache.live == old(cache.live) - {o}
      ensures pages.held == old(pages.held) || pages.held == old(pages.held) - {o.slab / PageSize}
    {
      hide S.Cache.Valid, P.PageAllocator.Valid, Pages, Idx, Pow2, Backed;
      SlabHeld(o);
      cache.Free(o);
      if o.slab !in cache.slabs {
        BackedLess(old(cache.slabs.Keys), pages.held, order, o.slab);
        assert cache.slabs.Keys == old(cache.slabs.Keys) - {o.slab};
        pages.FreePages(o.slab / PageSize, order);
      } else {
        assert cache.slabs.Keys == old(cache.slabs.Keys);
      }
    }

    lemma SlabHeld(o: S.Obj)
      requires Valid() && o in cache.live
      ensures o.slab in cache.slabs && o.slab % PageSize == 0 && o.slab / PageSize in pages.held && pages.held[o.slab / PageSize] == order
    {
      hide P.PageAllocator.Valid;
      S.UsedSlab(cache.slabs, cache.chain, cache.live, cache.n, o);
    }
  }
}

/** Object caches (kernel/mm/slab.c:61-91, 102-111, 131-257): free lists threaded through free
    objects, and the lists of partial, full and empty slabs. A slab is named by its base address,
    an object by its slab and its index there. */
module Slab {
  datatype Option<T> = None | Some(value: T)

  /** An object: object `index` of the slab at `slab`. */
  datatype Obj = Obj(slab: nat, index: nat)

  /** A slab: the first free object, the counter, and the link in each free object. */
  datatype Slab = Slab(freelist: Option<nat>, inuse: nat, next: map<nat, Option<nat>>)

  datatype Lists = Lists(partial: seq<nat>, full: seq<nat>, empty: seq<nat>)

  // ---- Free lists ----

  /** The links from `at` visit the objects of `l` in order and then end. */
  ghost predicate Chain(next: map<nat, Option<nat>>, at: Option<nat>, l: seq<nat>)
    decreases |l|
  {
    if l == [] then at == None
    else at == Some(l[0]) && l[0] in next && Chain(next, next[l[0]], l[1..])
  }

  ghost predicate Distinct(l: seq<nat>) {
    forall i, j :: 0 <= i < j < |l| ==> l[i] != l[j]
  }

  /** The free list is an acyclic chain of distinct objects of the slab, and the counter counts the rest. */
  ghost predicate SlabOk(s: Slab, n: nat, l: seq<nat>) {
    Chain(s.next, s.freelist, l) && Distinct(l) && (forall i :: i in l ==> i < n) && s.inuse + |l| == n
  }

  /** A link outside the chain does not matter. */
  lemma {:induction false} ChainFrame(next: map<nat, Option<nat>>, at: Option<nat>, l: seq<nat>, o: nat, x: Option<nat>)
    requires Chain(next, at, l) && o !in l
    ensures Chain(next[o := x], at, l)
    decreases |l|
  {
    if l != [] {
      ChainFrame(next, next[l[0]], l[1..], o, x);
    }
  }

  lemma Tail(l: seq<nat>)
    requires l != [] && Distinct(l)
    ensures Distinct(l[1..]) && forall i :: i in l[1..] <==> i in l && i != l[0]
  {
    assert l == [l[0]] + l[1..];
  }

  /** Taking the first free object. */
  function Taken(s: Slab): (r: Slab)
    requires s.freelist.Some? && s.freelist.value in s.next
  {
    Slab(s.next[s.freelist.value], s.inuse + 1, s.next)
  }

  lemma TakenOk(s: Slab, n: nat, l: seq<nat>)
    requires SlabOk(s, n, l) && s.inuse < n
    ensures l != [] && s.freelist == Some(l[0]) && l[0] in s.next && l[0] < n && l[0] !in l[1..]
    ensures SlabOk(Taken(s), n, l[1..])
    ensures forall i :: i in l[1..] <==> i in l && i != l[0]
  {
    hide Distinct;
    assert l[0] in l;
    Tail(l);
  }

  /** make_free: the object becomes the head of the free list. */
  function Given(s: Slab, o: nat): (r: Slab)
    requires s.inuse > 0
  {
    Slab(Some(o), s.inuse - 1, s.next[o := s.freelist])
  }

  lemma GivenOk(s: Slab, n: nat, l: seq<nat>, o: nat)
    requires SlabOk(s, n, l) && o < n && o !in l && s.inuse > 0
    ensures SlabOk(Given(s, o), n, [o] + l)
  {
    ChainFrame(s.next, s.freelist, l, o, s.freelist);
    assert ([o] + l)[1..] == l;
  }

  function UpTo(i: nat, n: nat): (l: seq<nat>)
    requires i <= n
    ensures |l| == n - i && forall k :: 0 <= k < n - i ==> l[k] == i + k
  {
    seq(n - i, k => i + k)
  }

  /** The loop of new_slab: it threads the objects from the last to the first. */
  method NewSlab(n: nat) returns (s: Slab)
    ensures SlabOk(s, n, UpTo(0, n)) && s.inuse == 0
  {
    var next: Option<nat> := None;
    var links: map<nat, Option<nat>> := map[];
    var i := n;
    while i > 0
      invariant 0 <= i <= n && Chain(links, next, UpTo(i, n))
    {
      i := i - 1;
      ChainFrame(links, next, UpTo(i + 1, n), i, next);
      links := links[i := next];
      next := Some(i);
      assert UpTo(i, n)[1..] == UpTo(i + 1, n);
    }
    s := Slab(next, 0, links);
  }

  // ---- The three lists ----

  function Without(l: seq<nat>, x: nat): (r: seq<nat>)
    ensures forall i :: i in r <==> i in l && i != x
  {
    if l == [] then [] else if l[0] == x then Without(l[1..], x) else [l[0]] + Without(l[1..], x)
  }

  lemma {:induction false} WithoutDistinct(l: seq<nat>, x: nat)
    requires Distinct(l)
    ensures Distinct(Without(l, x)) && |Without(l, x)| == if x in l then |l| - 1 else |l|
    decreases |l|
  {
    if l != [] {
      WithoutDistinct(l[1..], x);
      var r := Without(l[1..], x);
      if l[0] == x {
        assert x !in l[1..];
      } else {
        forall j | 0 <= j < |r| ensures r[j] != l[0] {
          assert r[j] in r;
          assert l[0] !in l[1..];
        }
      }
    }
  }

  /** Which list a slab belongs on. */
  ghost predicate Partition(ls: Lists, slabs: map<nat, Slab>, n: nat) {
    && Distinct(ls.partial) && Distinct(ls.full) && Distinct(ls.empty) && |ls.empty| <= 1
    && (forall s :: s in ls.partial <==> s in slabs && 0 < slabs[s].inuse < n)
    && (forall s :: s in ls.full <==> s in slabs && 0 < slabs[s].inuse && slabs[s].inuse == n)
    && (forall s :: s in ls.empty <==> s in slabs && slabs[s].inuse == 0)
  }

  // ---- What the slabs hold ----

  type Slabs = map<nat, Slab>
  type Chains = map<nat, seq<nat>>

  /** Slabs are whole and apart from each other. */
  ghost predicate Apart(keys: set<nat>, bytes: nat) {
    forall s, t :: s in keys && t in keys && s != t ==> s + bytes <= t || t + bytes <= s
  }

  ghost predicate ChainsOk(slabs: Slabs, chain: Chains, n: nat) {
    chain.Keys == slabs.Keys && forall s :: s in slabs ==> SlabOk(slabs[s], n, chain[s])
  }

  /** The live objects are those on no free list. */
  ghost predicate LiveIs(live: set<Obj>, chain: Chains, n: nat) {
    forall o :: o in live <==> o.slab in chain && o.index < n && o.index !in chain[o.slab]
  }

  lemma TakeLive(live: set<Obj>, chain: Chains, n: nat, s: nat, l: seq<nat>)
    requires LiveIs(live, chain, n) && s in chain && l == chain[s] && l != [] && l[0] < n
    requires forall i :: i in l[1..] <==> i in l && i != l[0]
    ensures Obj(s, l[0]) !in live && LiveIs(live + {Obj(s, l[0])}, chain[s := l[1..]], n)
  {
    assert l[0] in l;
  }

  lemma GiveLive(live: set<Obj>, chain: Chains, n: nat, o: Obj)
    requires LiveIs(live, chain, n) && o in live
    ensures o.slab in chain && LiveIs(live - {o}, chain[o.slab := [o.index] + chain[o.slab]], n)
  {
  }

  lemma NewLive(live: set<Obj>, chain: Chains, n: nat, s: nat)
    requires LiveIs(live, chain, n) && s !in chain
    ensures LiveIs(live, chain[s := UpTo(0, n)], n)
  {
    forall i | 0 <= i < n ensures i in UpTo(0, n) {
      assert UpTo(0, n)[i] == i;
    }
  }

  /** All objects of a slab that is not in use are on its free list. */
  lemma DropLive(live: set<Obj>, chain: Chains, n: nat, s: nat, x: Slab)
    requires LiveIs(live, chain, n) && s in chain && SlabOk(x, n, chain[s]) && x.inuse == 0
    ensures LiveIs(live, chain - {s}, n)
  {
    hide SlabOk;
    forall i: nat | i < n ensures i in chain[s] {
      EmptyChain(x, n, chain[s], i);
    }
  }

  lemma EmptyChain(x: Slab, n: nat, l: seq<nat>, i: nat)
    requires SlabOk(x, n, l) && i < n && x.inuse == 0
    ensures i in l
  {
    hide Chain, Distinct, Elems;
    DistinctSet(l);
    Below(Elems(l), n);
  }

  function Elems(l: seq<nat>): (r: set<nat>)
    ensures forall k :: k in r <==> k in l
  {
    set k | k in l
  }

  lemma {:induction false} DistinctSet(l: seq<nat>)
    requires Distinct(l)
    ensures |Elems(l)| == |l|
    decreases |l|
  {
    hide Distinct, Elems;
    if l != [] {
      Tail(l);
      DistinctSet(l[1..]);
      assert l == [l[0]] + l[1..];
      assert Elems(l) == Elems(l[1..]) + {l[0]};
    } else {
      assert Elems(l) == {};
    }
  }

  /** n numbers below n are all of them. */
  lemma {:induction false} Below(a: set<nat>, n: nat)
    requires forall k :: k in a ==> k < n
    ensures |a| <= n && (|a| == n ==> forall k: nat :: k < n ==> k in a)
    decreases n
  {
    if n > 0 {
      var b := a - {n - 1};
      Below(b, n - 1);
      if n - 1 in a {
        assert |a| == |b| + 1;
        forall k: nat | |a| == n && k < n ensures k in a {
          if k < n - 1 {
            assert k in b;
          }
        }
      } else {
        assert a == b;
      }
    } else {
      assert a == {};
    }
  }

  lemma ChainsSet(slabs: Slabs, chain: Chains, n: nat, s: nat, x: Slab, l: seq<nat>)
    requires ChainsOk(slabs, chain, n) && SlabOk(x, n, l)
    ensures ChainsOk(slabs[s := x], chain[s := l], n)
  {
    hide SlabOk;
  }

  lemma ChainKeys(slabs: Slabs, chain: Chains, n: nat)
    requires ChainsOk(slabs, chain, n)
    ensures chain.Keys == slabs.Keys && forall s :: s in slabs ==> SlabOk(slabs[s], n, chain[s])
  {
  }

  lemma ChainsDrop(slabs: Slabs, chain: Chains, n: nat, s: nat)
    requires ChainsOk(slabs, chain, n)
    ensures ChainsOk(slabs - {s}, chain - {s}, n)
  {
    hide SlabOk;
  }

  // ---- The cache ----

  class Cache {
    const n: nat                // objs_per_slab
    const stride: nat
    const bytes: nat            // of one slab: PAGE_SIZE << order
    var slabs: Slabs
    var lists: Lists
    var active: int             // active_objs
    ghost var chain: Chains
    ghost var live: set<Obj>

    ghost predicate Sized() {
      0 < n && n * stride <= bytes
    }

    ghost predicate Valid()
      reads this
    {
      && Sized() && Apart(slabs.Keys, bytes) && Partition(lists, slabs, n)
      && ChainsOk(slabs, chain, n) && LiveIs(live, chain, n) && active == |live|
    }

    constructor (n: nat, stride: nat, bytes: nat)
      requires 0 < n && n * stride <= bytes
      ensures Valid() && live == {} && slabs == map[] && this.n == n && this.stride == stride && this.bytes == bytes
    {
      this.n, this.stride, this.bytes := n, stride, bytes;
      slabs, lists, active := map[], Lists([], [], []), 0;
      chain, live := map[], {};
    }

    /** kmem_cache_alloc: an object that was not live, unless there is no free one and the page
        allocator gives nothing; `page` is what it would give for a new slab. */
    method Alloc(page: Option<nat>) returns (r: Option<Obj>)
      requires Valid()
      requires page.Some? ==> page.value !in slabs && Apart(slabs.Keys + {page.value}, bytes)
      modifies this
      ensures Valid()
      ensures r.Some? ==> r.value !in old(live) && live == old(live) + {r.value}
      ensures r.None? <==> page.None? && forall s, i :: s in old(slabs) && 0 <= i < n ==> Obj(s, i) in old(live)
      ensures r.None? ==> slabs == old(slabs) && lists == old(lists) && live == old(live)
      ensures slabs.Keys == old(slabs.Keys) + if old(lists.partial == [] && lists.empty == []) && page.Some? then {page.value} else {}
    {
      hide Distinct, Chain, Without, SlabOk, Apart, LiveIs, ChainsOk;
      var s: nat;
      if lists.partial != [] {
        s := lists.partial[0];
        assert s in lists.partial;
        HasFree(slabs, chain, live, n, s);
      } else if lists.empty != [] {
        s := lists.empty[0];
        assert s in lists.empty;
        HasFree(slabs, chain, live, n, s);
      } else if page.None? {
        AllLive(lists, slabs, chain, live, n);
        return None;
      } else {
        s := page.value;
        AddSlab(s);
      }
      r := TakeFrom(s);
    }

    /** Adds a new slab, as if it had been kept empty. */
    method AddSlab(s: nat)
      requires Valid() && lists.empty == [] && s !in slabs && Apart(slabs.Keys + {s}, bytes)
      modifies this
      ensures Valid() && live == old(live) && s in slabs && slabs[s].inuse == 0 && slabs.Keys == old(slabs.Keys) + {s}
    {
      hide Chain, SlabOk, LiveIs, Distinct, Apart, ChainsOk;
      var x := NewSlab(n);
      ChainKeys(slabs, chain, n);
      NewLive(live, chain, n, s);
      ChainsSet(slabs, chain, n, s, x, UpTo(0, n));
      OneDistinct(s);
      assert (slabs[s := x]).Keys == slabs.Keys + {s};
      slabs := slabs[s := x];
      lists := lists.(empty := [s]);
      chain := chain[s := UpTo(0, n)];
    }

    /** Takes the first free object of a slab that is partial or empty. */
    method TakeFrom(s: nat) returns (r: Option<Obj>)
      requires Valid() && s in slabs && slabs[s].inuse < n
      modifies this
      ensures Valid() && r.Some? && r.value !in old(live) && live == old(live) + {r.value} && slabs.Keys == old(slabs.Keys)
    {
      hide Chain, Without, SlabOk, Distinct, LiveIs, Apart, Sized, ChainsOk, Partition;
      ChainKeys(slabs, chain, n);
      ghost var l := chain[s];
      TakenOk(slabs[s], n, l);
      ChainsSet(slabs, chain, n, s, Taken(slabs[s]), l[1..]);
      TakeLive(live, chain, n, s, l);
      var o := slabs[s].freelist.value;
      var wasEmpty := slabs[s].inuse == 0;
      assert slabs[s := Taken(slabs[s])].Keys == slabs.Keys;
      Bumped(lists, slabs, n, s, Taken(slabs[s]), slabs[s]);
      slabs := slabs[s := Taken(slabs[s])];
      chain := chain[s := l[1..]];
      live := live + {Obj(s, o)};
      active := active + 1;
      MoveLists(s, wasEmpty);
      return Some(Obj(s, o));
    }

    /** The list moves of kmem_cache_alloc, after the counter went up. */
    method MoveLists(s: nat, wasEmpty: bool)
      requires s in slabs && 0 < slabs[s].inuse <= n
      requires Partition(lists, slabs[s := slabs[s].(inuse := slabs[s].inuse - 1)], n) && wasEmpty == (slabs[s].inuse == 1)
      modifies this`lists
      ensures Partition(lists, slabs, n)
    {
      hide Distinct, Without;
      WithoutDistinct(lists.empty, s);
      if wasEmpty {
        assert s in lists.empty && s !in lists.partial;
        FrontDistinct(lists.partial, s);
        lists := lists.(empty := Without(lists.empty, s), partial := [s] + lists.partial);
      }
      WithoutDistinct(lists.partial, s);
      if slabs[s].inuse == n {
        FrontDistinct(lists.full, s);
        lists := lists.(partial := Without(lists.partial, s), full := [s] + lists.full);
      }
    }

    /** kmem_cache_free of a live object; anything else panics. */
    method Free(o: Obj)
      requires Valid() && o in live
      modifies this
      ensures Valid() && live == old(live) - {o}
      ensures old(slabs.Keys) - {o.slab} <= slabs.Keys <= old(slabs.Keys)
    {
      hide Chain, Without, SlabOk, Distinct, LiveIs, Apart, Sized, ChainsOk, Partition;
      var s := o.slab;
      ChainKeys(slabs, chain, n);
      UsedSlab(slabs, chain, live, n, o);
      ghost var l := chain[s];
      GivenOk(slabs[s], n, l, o.index);
      ChainsSet(slabs, chain, n, s, Given(slabs[s], o.index), [o.index] + l);
      GiveLive(live, chain, n, o);
      var wasFull := slabs[s].inuse == n;
      assert slabs[s := Given(slabs[s], o.index)].Keys == slabs.Keys;
      Bumped(lists, slabs, n, s, Given(slabs[s], o.index), slabs[s]);
      slabs := slabs[s := Given(slabs[s], o.index)];
      chain := chain[s := [o.index] + l];
      live := live - {o};
      active := active - 1;
      Sort(s, wasFull);
    }

    /** The list moves of kmem_cache_free; a second empty slab goes back to the page allocator. */
    method Sort(s: nat, wasFull: bool)
      requires s in slabs && slabs[s].inuse < n && Sized() && Apart(slabs.Keys, bytes) && active == |live|
      requires Partition(lists, slabs[s := slabs[s].(inuse := slabs[s].inuse + 1)], n) && wasFull == (slabs[s].inuse + 1 == n)
      requires ChainsOk(slabs, chain, n) && LiveIs(live, chain, n)
      modifies this
      ensures Valid() && live == old(live) && old(slabs.Keys) - {s} <= slabs.Keys <= old(slabs.Keys)
    {
      hide Chain, Without, SlabOk, Distinct, LiveIs, Sized, ChainsOk, Apart, Partition, AllBut;
      LeaveFull(s, wasFull);
      SortUsed(lists, slabs, n, s);
      if slabs[s].inuse == 0 {
        if lists.empty == [] {
          SortKept(lists, slabs, n, s);
          lists := Lists(Without(lists.partial, s), lists.full, [s]);
        } else {
          ChainKeys(slabs, chain, n);
          DropLive(live, chain, n, s, slabs[s]);
          ChainsDrop(slabs, chain, n, s);
          ApartLess(slabs.Keys, s, bytes);
          SortDropped(lists, slabs, n, s);
          assert (slabs - {s}).Keys == slabs.Keys - {s};
          lists := lists.(partial := Without(lists.partial, s));
          slabs := slabs - {s};
          chain := chain - {s};
        }
      }
    }

    /** A slab that was full goes to the partial list, where a slab that is partial is already. */
    method LeaveFull(s: nat, wasFull: bool)
      requires s in slabs && slabs[s].inuse < n
      requires Partition(lists, slabs[s := slabs[s].(inuse := slabs[s].inuse + 1)], n) && wasFull == (slabs[s].inuse + 1 == n)
      modifies this`lists
      ensures AllBut(lists, slabs, n, s)
    {
      hide Distinct, Without;
      WithoutDistinct(lists.full, s);
      if wasFull {
        FrontDistinct(lists.partial, s);
        lists := lists.(full := Without(lists.full, s), partial := [s] + lists.partial);
      }
    }
  }

  // ---- Facts about a valid cache ----

  /** Only the counter of a slab decides its list. */
  lemma Bumped(ls: Lists, slabs: Slabs, n: nat, s: nat, x: Slab, was: Slab)
    requires Partition(ls, slabs, n) && s in slabs && slabs[s] == was
    ensures Partition(ls, slabs[s := x][s := x.(inuse := was.inuse)], n)
  {
    hide Distinct;
  }

  lemma HasFree(slabs: Slabs, chain: Chains, live: set<Obj>, n: nat, s: nat)
    requires ChainsOk(slabs, chain, n) && LiveIs(live, chain, n) && s in slabs && slabs[s].inuse < n
    ensures exists i :: 0 <= i < n && Obj(s, i) !in live
  {
    hide Distinct, Chain;
    var l := chain[s];
    TakenOk(slabs[s], n, l);
    assert l[0] in l && Obj(s, l[0]) !in live;
  }

  lemma AllLive(ls: Lists, slabs: Slabs, chain: Chains, live: set<Obj>, n: nat)
    requires Partition(ls, slabs, n) && ChainsOk(slabs, chain, n) && LiveIs(live, chain, n) && ls.partial == [] && ls.empty == []
    ensures forall s, i :: s in slabs && 0 <= i < n ==> Obj(s, i) in live
  {
    hide Distinct, Chain;
    forall s | s in slabs ensures chain[s] == [] {
      assert s !in ls.partial && s !in ls.empty;
      assert SlabOk(slabs[s], n, chain[s]);
    }
  }

  /** A new slab is needed exactly when every object is live. */
  lemma NeedsSlab(c: Cache)
    requires c.Valid()
    ensures c.lists.partial == [] && c.lists.empty == [] <==>
            forall s, i :: s in c.slabs && 0 <= i < c.n ==> Obj(s, i) in c.live
  {
    hide Distinct, Chain, SlabOk, LiveIs, ChainsOk, Apart;
    if c.lists.partial == [] && c.lists.empty == [] {
      AllLive(c.lists, c.slabs, c.chain, c.live, c.n);
    } else {
      var s := if c.lists.partial != [] then c.lists.partial[0] else c.lists.empty[0];
      assert s in c.lists.partial || s in c.lists.empty;
      HasFree(c.slabs, c.chain, c.live, c.n, s);
    }
  }

  lemma UsedSlab(slabs: Slabs, chain: Chains, live: set<Obj>, n: nat, o: Obj)
    requires ChainsOk(slabs, chain, n) && LiveIs(live, chain, n) && o in live
    ensures o.slab in slabs && slabs[o.slab].inuse > 0 && o.index < n && o.index !in chain[o.slab]
  {
    hide Distinct, Chain, SlabOk;
    if slabs[o.slab].inuse == 0 {
      EmptyChain(slabs[o.slab], n, chain[o.slab], o.index);
    }
  }

  /** The lists are right except that slab `s` is on the partial list, in use or not. */
  ghost predicate AllBut(ls: Lists, slabs: Slabs, n: nat, s: nat) {
    && Distinct(ls.partial) && Distinct(ls.full) && Distinct(ls.empty) && |ls.empty| <= 1
    && (forall t :: t in ls.partial <==> t == s || (t in slabs && 0 < slabs[t].inuse < n))
    && (forall t :: t in ls.full <==> t in slabs && 0 < slabs[t].inuse && slabs[t].inuse == n)
    && (forall t :: t in ls.empty <==> t in slabs && t != s && slabs[t].inuse == 0)
  }

  lemma SortUsed(ls: Lists, slabs: Slabs, n: nat, s: nat)
    requires AllBut(ls, slabs, n, s) && s in slabs && slabs[s].inuse < n
    ensures slabs[s].inuse > 0 ==> Partition(ls, slabs, n)
  {
    hide Distinct;
  }

  lemma SortKept(ls: Lists, slabs: Slabs, n: nat, s: nat)
    requires AllBut(ls, slabs, n, s) && s in slabs && slabs[s].inuse == 0 && ls.empty == []
    ensures Partition(Lists(Without(ls.partial, s), ls.full, [s]), slabs, n)
  {
    hide Distinct, Without;
    WithoutDistinct(ls.partial, s);
    OneDistinct(s);
    forall t | t in slabs && slabs[t].inuse == 0 ensures t == s {
      assert t !in ls.empty;
    }
  }

  lemma SortDropped(ls: Lists, slabs: Slabs, n: nat, s: nat)
    requires AllBut(ls, slabs, n, s) && s in slabs && slabs[s].inuse == 0
    ensures Partition(ls.(partial := Without(ls.partial, s)), slabs - {s}, n)
  {
    hide Distinct, Without;
    WithoutDistinct(ls.partial, s);
  }

  lemma ApartLess(keys: set<nat>, s: nat, bytes: nat)
    requires Apart(keys, bytes)
    ensures Apart(keys - {s}, bytes)
  {
  }

  lemma FrontDistinct(l: seq<nat>, x: nat)
    requires Distinct(l) && x !in l
    ensures Distinct([x] + l)
  {
  }

  lemma OneDistinct(x: nat)
    ensures Distinct([x])
  {
  }

  /** The bytes of different live objects do not overlap, and lie inside their slab. */
  lemma LiveDisjoint(c: Cache, o: Obj, p: Obj)
    requires c.Valid() && o in c.live && p in c.live && o != p
    ensures var a, b := o.slab + o.index * c.stride, p.slab + p.index * c.stride;
            && (a + c.stride <= b || b + c.stride <= a)
            && o.slab <= a && a + c.stride <= o.slab + c.bytes
  {
    hide Partition, SlabOk;
    UsedSlab(c.slabs, c.chain, c.live, c.n, o);
    UsedSlab(c.slabs, c.chain, c.live, c.n, p);
    ObjBytes(o, p, c.n, c.stride, c.bytes);
  }

  // ---- What the counters count ----

  function Indices(n: nat): (r: set<nat>)
    ensures forall i: nat :: i in r <==> i < n
  {
    if n == 0 then {} else Indices(n - 1) + {n - 1}
  }

  lemma {:induction false} IndicesSize(n: nat)
    ensures |Indices(n)| == n
    decreases n
  {
    if n > 0 {
      IndicesSize(n - 1);
      assert Indices(n) == Indices(n - 1) + {n - 1};
    }
  }

  function ObjsOf(s: nat, a: set<nat>): (r: set<Obj>) {
    set i | i in a :: Obj(s, i)
  }

  lemma {:induction false} ObjsSize(s: nat, a: set<nat>)
    ensures |ObjsOf(s, a)| == |a|
    decreases |a|
  {
    if i :| i in a {
      ObjsSize(s, a - {i});
      assert ObjsOf(s, a) == ObjsOf(s, a - {i}) + {Obj(s, i)};
    }
  }

  /** inuse counts the live objects of a slab; active_objs, all of them. */
  lemma CountersExact(c: Cache, s: nat)
    requires c.Valid() && s in c.slabs
    ensures c.slabs[s].inuse == |set o | o in c.live && o.slab == s| && c.active == |c.live|
  {
    hide Partition, Apart, Chain, Distinct, Elems, Indices;
    ChainKeys(c.slabs, c.chain, c.n);
    var l := c.chain[s];
    assert SlabOk(c.slabs[s], c.n, l);
    FreeIndices(l, c.n);
    var used := Indices(c.n) - Elems(l);
    ObjsSize(s, used);
    LiveOf(c.live, c.chain, c.n, s);
  }

  lemma FreeIndices(l: seq<nat>, n: nat)
    requires Distinct(l) && forall i :: i in l ==> i < n
    ensures |Indices(n) - Elems(l)| == n - |l|
  {
    DistinctSet(l);
    IndicesSize(n);
    assert Elems(l) <= Indices(n);
    assert Indices(n) == (Indices(n) - Elems(l)) + Elems(l);
  }

  lemma LiveOf(live: set<Obj>, chain: Chains, n: nat, s: nat)
    requires LiveIs(live, chain, n) && s in chain
    ensures (set o | o in live && o.slab == s) == ObjsOf(s, Indices(n) - Elems(chain[s]))
  {
    forall o | o in live && o.slab == s ensures o in ObjsOf(s, Indices(n) - Elems(chain[s])) {
      assert o == Obj(s, o.index);
    }
  }

  lemma ObjBytes(o: Obj, p: Obj, n: nat, d: nat, bytes: nat)
    requires o.index < n && p.index < n && n * d <= bytes && o != p
    requires o.slab == p.slab || o.slab + bytes <= p.slab || p.slab + bytes <= o.slab
    ensures var a, b := o.slab + o.index * d, p.slab + p.index * d; (a + d <= b || b + d <= a) && o.slab <= a && a + d <= o.slab + bytes
  {
    var x, y := o.index * d, p.index * d;
    Inside(o.index, n, d, x, bytes);
    Inside(p.index, n, d, y, bytes);
    if o.slab == p.slab {
      Spaced(o.index, p.index, d, x, y);
    }
  }

  lemma Inside(i: nat, n: nat, d: nat, x: nat, bytes: nat)
    requires i < n && x == i * d && n * d <= bytes
    ensures x + d <= bytes
  {
    Scale(i + 1, n, d);
  }

  lemma Spaced(i: nat, j: nat, d: nat, x: nat, y: nat)
    requires i != j && x == i * d && y == j * d
    ensures x + d <= y || y + d <= x
  {
    if i < j {
      Scale(i + 1, j, d);
    } else {
      Scale(j + 1, i, d);
    }
  }

  lemma Scale(a: nat, b: nat, d: nat)
    requires a <= b
    ensures a * d <= b * d
  {
  }
}

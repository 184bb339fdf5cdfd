/** One zone of the buddy allocator (kernel/mm/pmm.c): per-order free lists, the
    PG_BUDDY tags of `struct page`, split on allocation and merge on release. */
module BuddyZone {
  import opened BuddyBlocks

  datatype Option<T> = None | Some(value: T)

  /** pfn ^ (1 << o), with bit `o` of pfn read as the parity of pfn >> o. */
  function FlipBit(pfn: nat, o: nat): nat
    requires Idx(pfn, o) % 2 == 1 ==> Pow2(o) <= pfn
  {
    if Idx(pfn, o) % 2 == 0 then pfn + Pow2(o) else pfn - Pow2(o)
  }

  predicate Aligned(pfn: nat, o: nat) {
    pfn == Start(Idx(pfn, o), o)
  }

  /** list_del of one element. */
  function Without(s: seq<nat>, x: nat): (r: seq<nat>)
    ensures x !in s ==> r == s
    ensures x in s ==> |r| == |s| - 1
    ensures forall y :: y != x ==> (y in r <==> y in s)
  {
    if s == [] then [] else if s[0] == x then s[1..] else [s[0]] + Without(s[1..], x)
  }

  ghost predicate NoDup(s: seq<nat>) {
    forall i, j :: 0 <= i < j < |s| ==> s[i] != s[j]
  }

  lemma {:induction false} WithoutNoDup(s: seq<nat>, x: nat)
    requires NoDup(s)
    ensures NoDup(Without(s, x)) && x !in Without(s, x)
  {
    if s != [] {
      var t := s[1..];
      assert NoDup(t) && s[0] !in t;
      if s[0] != x {
        WithoutNoDup(t, x);
        var r := Without(t, x);
        assert s[0] !in r;
        assert Without(s, x) == [s[0]] + r;
      }
    }
  }

  /** The free lists are the canonical decomposition of `free`: each list holds the
      heads of just the maximal free blocks of its order, once each. */
  ghost predicate Represents(lists: seq<seq<nat>>, free: set<nat>) {
    && |lists| == MAX_ORDER
    && (forall o, pfn: nat {:trigger pfn in lists[o]} :: 0 <= o < MAX_ORDER ==>
          (pfn in lists[o] <==> Aligned(pfn, o) && Canonical(free, Idx(pfn, o), o)))
    && (forall o :: 0 <= o < MAX_ORDER ==> NoDup(lists[o]))
  }

  /** The set of free pages alone determines every free list up to order. */
  lemma ListsDetermined(a: seq<seq<nat>>, b: seq<seq<nat>>, free: set<nat>, o: nat)
    requires Represents(a, free) && Represents(b, free) && o < MAX_ORDER
    ensures multiset(a[o]) == multiset(b[o])
  {
    forall pfn: nat ensures multiset(a[o])[pfn] == multiset(b[o])[pfn] {
      NoDupOnce(a[o], pfn);
      NoDupOnce(b[o], pfn);
    }
  }

  lemma {:induction false} NoDupOnce(s: seq<nat>, x: nat)
    requires NoDup(s)
    ensures multiset(s)[x] == if x in s then 1 else 0
  {
    if s != [] {
      NoDupOnce(s[1..], x);
      assert s == [s[0]] + s[1..];
      assert s[0] !in s[1..];
    }
  }

  /** The xor of the source names the sibling block; clearing the bit names the parent. */
  lemma FlipIsSibling(pfn: nat, o: nat)
    requires Aligned(pfn, o)
    ensures Idx(pfn, o) % 2 == 1 ==> Pow2(o) <= pfn
    ensures FlipBit(pfn, o) == Start(Sibling(Idx(pfn, o)), o)
    ensures Idx(FlipBit(pfn, o), o) == Sibling(Idx(pfn, o))
    ensures var low := if Idx(pfn, o) % 2 == 0 then pfn else FlipBit(pfn, o);
            low == Start(Idx(pfn, o) / 2, o + 1) && Idx(low, o + 1) == Idx(pfn, o) / 2
  {
    var k := Idx(pfn, o);
    if k % 2 == 1 {
      StartNext(k - 1, o);
    } else {
      StartNext(k, o);
    }
    HeadInBlock(Sibling(k), o);
    HeadInBlock(k / 2, o + 1);
  }

  lemma AddKeeps(lists: seq<seq<nat>>, free: set<nat>, pfn: nat, o: nat)
    requires Represents(lists, free) && o < MAX_ORDER && Aligned(pfn, o)
    requires Apart(free, Idx(pfn, o), o)
    requires o == MAX_ORDER - 1 || !Whole(free, Sibling(Idx(pfn, o)), o)
    ensures pfn !in lists[o]
    ensures Represents(lists[o := [pfn] + lists[o]], free + Pages(Idx(pfn, o), o))
  {
    var k := Idx(pfn, o);
    assert pfn in Pages(k, o);
    assert pfn !in lists[o];
    var lists' := lists[o := [pfn] + lists[o]];
    forall o', q: nat | 0 <= o' < MAX_ORDER
      ensures q in lists'[o'] <==> Aligned(q, o') && Canonical(free + Pages(k, o), Idx(q, o'), o')
    {
      AddCanonical(free, k, o, Idx(q, o'), o');
    }
  }

  lemma RemoveKeeps(lists: seq<seq<nat>>, free: set<nat>, pfn: nat, o: nat)
    requires Represents(lists, free) && o < MAX_ORDER && pfn in lists[o]
    ensures Represents(lists[o := Without(lists[o], pfn)], free - Pages(Idx(pfn, o), o))
  {
    var k := Idx(pfn, o);
    var lists' := lists[o := Without(lists[o], pfn)];
    WithoutNoDup(lists[o], pfn);
    forall o', q: nat | 0 <= o' < MAX_ORDER
      ensures q in lists'[o'] <==> Aligned(q, o') && Canonical(free - Pages(k, o), Idx(q, o'), o')
    {
      RemoveCanonical(free, k, o, Idx(q, o'), o');
    }
  }

  /** A page of the zone is flagged PG_BUDDY with order `o` just when it is on list `o`. */
  ghost predicate Tagged(lists: seq<seq<nat>>, tag: map<nat, nat>, start: nat, end: nat)
    requires |lists| == MAX_ORDER
  {
    forall o, pfn: nat {:trigger pfn in lists[o]} :: 0 <= o < MAX_ORDER && start <= pfn < end ==>
      (pfn in lists[o] <==> pfn in tag && tag[pfn] == o)
  }

  lemma ListedIsFree(lists: seq<seq<nat>>, free: set<nat>, pfn: nat, o: nat)
    requires Represents(lists, free) && o < MAX_ORDER && pfn in lists[o]
    ensures Pages(Idx(pfn, o), o) <= free && pfn in free
  {
    assert pfn in Pages(Idx(pfn, o), o);
  }

  lemma AddTags(lists: seq<seq<nat>>, tag: map<nat, nat>, free: set<nat>, start: nat, end: nat, pfn: nat, o: nat)
    requires Represents(lists, free) && Tagged(lists, tag, start, end)
    requires o < MAX_ORDER && pfn !in free
    ensures Tagged(lists[o := [pfn] + lists[o]], tag[pfn := o], start, end)
  {
    forall o' | 0 <= o' < MAX_ORDER ensures pfn !in lists[o'] {
      if pfn in lists[o'] {
        ListedIsFree(lists, free, pfn, o');
      }
    }
  }

  lemma DelTags(lists: seq<seq<nat>>, tag: map<nat, nat>, free: set<nat>, start: nat, end: nat, pfn: nat, o: nat)
    requires Represents(lists, free) && Tagged(lists, tag, start, end)
    requires o < MAX_ORDER && pfn in lists[o] && start <= pfn < end
    ensures Tagged(lists[o := Without(lists[o], pfn)], tag - {pfn}, start, end)
  {
    WithoutNoDup(lists[o], pfn);
  }

  class Zone {
    const start: nat
    const end: nat
    var lists: seq<seq<nat>>     // free_area[o].list, newest first
    var counts: seq<nat>         // free_area[o].count
    var tag: map<nat, nat>       // pages flagged PG_BUDDY, with their order
    ghost var free: set<nat>     // the free pages

    ghost predicate Valid()
      reads this
    {
      && |counts| == MAX_ORDER
      && Represents(lists, free)
      && (forall p: nat :: p in free ==> start <= p < end)
      && (forall o :: 0 <= o < MAX_ORDER ==> counts[o] == |lists[o]|)
      && Tagged(lists, tag, start, end)
    }

    constructor (start: nat, end: nat, tag: map<nat, nat>)
      requires forall pfn: nat :: start <= pfn < end ==> pfn !in tag
      ensures Valid() && free == {} && this.start == start && this.end == end && this.tag == tag
    {
      this.start, this.end, this.tag := start, end, tag;
      lists := seq(MAX_ORDER, _ => []);
      counts := seq(MAX_ORDER, _ => 0);
      free := {};
      new;
      forall o, pfn: nat | 0 <= o < MAX_ORDER
        ensures !Canonical(free, Idx(pfn, o), o)
      {
        assert Idx(pfn, o) == Idx(pfn, o);
      }
    }

    /** Pages of other zones keep their flags. */
    ghost predicate SameOutside(t: map<nat, nat>, t': map<nat, nat>) {
      forall q: nat :: !(start <= q < end) ==> (q in t <==> q in t') && (q in t ==> t[q] == t'[q])
    }

    lemma SameReflexive(t: map<nat, nat>)
      ensures SameOutside(t, t)
    {
    }

    lemma SameTransitive(t: map<nat, nat>, t': map<nat, nat>, t'': map<nat, nat>)
      requires SameOutside(t, t') && SameOutside(t', t'')
      ensures SameOutside(t, t'')
    {
    }

    lemma SplitInside(p: nat, o: nat)
      requires Inside(p, o + 1)
      ensures Inside(p, o) && Inside(p + Pow2(o), o)
    {
    }

    ghost predicate Inside(pfn: nat, o: nat) {
      start <= pfn && pfn + Pow2(o) <= end
    }

    /** add_free of a block that cannot be merged. */
    method AddFree(pfn: nat, o: nat)
      requires Valid() && o < MAX_ORDER && Aligned(pfn, o) && Inside(pfn, o)
      requires Apart(free, Idx(pfn, o), o)
      requires o == MAX_ORDER - 1 || !Whole(free, Sibling(Idx(pfn, o)), o)
      modifies this
      ensures Valid() && free == old(free) + Pages(Idx(pfn, o), o)
      ensures lists == old(lists)[o := [pfn] + old(lists[o])]
      ensures SameOutside(old(tag), tag)
    {
      AddKeeps(lists, free, pfn, o);
      assert pfn in Pages(Idx(pfn, o), o);
      AddTags(lists, tag, free, start, end, pfn, o);
      BlockPages(pfn, o);
      tag := tag[pfn := o];
      lists := lists[o := [pfn] + lists[o]];
      counts := counts[o := counts[o] + 1];
      free := free + Pages(Idx(pfn, o), o);
    }

    lemma BlockPages(pfn: nat, o: nat)
      requires Aligned(pfn, o)
      ensures forall p: nat :: p in Pages(Idx(pfn, o), o) <==> pfn <= p < pfn + Pow2(o)
    {
      forall p: nat ensures p in Pages(Idx(pfn, o), o) <==> pfn <= p < pfn + Pow2(o) {
        IdxRange(p, Idx(pfn, o), o);
      }
    }

    method DelFree(pfn: nat, o: nat)
      requires Valid() && o < MAX_ORDER && pfn in lists[o]
      modifies this
      ensures Valid() && free == old(free) - Pages(Idx(pfn, o), o)
      ensures lists == old(lists)[o := Without(old(lists[o]), pfn)]
      ensures SameOutside(old(tag), tag)
    {
      RemoveKeeps(lists, free, pfn, o);
      ListedIsFree(lists, free, pfn, o);
      DelTags(lists, tag, free, start, end, pfn, o);
      WithoutNoDup(lists[o], pfn);
      lists := lists[o := Without(lists[o], pfn)];
      tag := tag - {pfn};
      counts := counts[o := counts[o] - 1];
      free := free - Pages(Idx(pfn, o), o);
    }

    /** One round of the merge loop: absorb a free sibling of the same order, if any. */
    method MergeSibling(p: nat, o: nat) returns (merged: bool, p': nat)
      requires Valid() && o < MAX_ORDER - 1 && Aligned(p, o) && Inside(p, o)
      requires Apart(free, Idx(p, o), o)
      modifies this
      ensures Valid() && SameOutside(old(tag), tag)
      ensures merged ==> Aligned(p', o + 1) && Inside(p', o + 1) && Apart(free, Idx(p', o + 1), o + 1)
      ensures merged ==> free + Pages(Idx(p', o + 1), o + 1) == old(free) + Pages(Idx(p, o), o)
      ensures !merged ==> p' == p && free == old(free) && !Whole(free, Sibling(Idx(p, o)), o)
    {
      FlipIsSibling(p, o);
      SiblingListed(free, Idx(p, o), o);
      var buddy := FlipBit(p, o);
      assert buddy in lists[o] <==> Whole(free, Sibling(Idx(p, o)), o);
      if buddy < start || buddy + Pow2(o) > end {
        OutsideNotWhole(buddy, o);
        return false, p;
      }
      if buddy !in tag || tag[buddy] != o {
        return false, p;
      }
      MergeIsUnion(free, Idx(p, o), o);
      DelFree(buddy, o);
      merged, p' := true, if Idx(p, o) % 2 == 0 then p else buddy;
    }

    /** buddy_free: merge with free siblings, then list the merged block. */
    method BuddyFree(pfn: nat, order: nat)
      requires Valid() && order < MAX_ORDER && Aligned(pfn, order) && Inside(pfn, order)
      requires Apart(free, Idx(pfn, order), order)
      modifies this
      ensures Valid() && SameOutside(old(tag), tag)
      ensures free == old(free) + Pages(Idx(pfn, order), order)
    {
      hide *;
      var p: nat, o: nat, merged := pfn, order, true;
      SameReflexive(tag);
      while merged && o < MAX_ORDER - 1
        invariant Valid() && o < MAX_ORDER && Aligned(p, o) && Inside(p, o)
        invariant Apart(free, Idx(p, o), o) && SameOutside(old(tag), tag)
        invariant free + Pages(Idx(p, o), o) == old(free) + Pages(Idx(pfn, order), order)
        invariant !merged ==> !Whole(free, Sibling(Idx(p, o)), o)
        decreases MAX_ORDER - o, merged
      {
        ghost var before := tag;
        merged, p := MergeSibling(p, o);
        SameTransitive(old(tag), before, tag);
        if merged {
          o := o + 1;
        }
      }
      ghost var before := tag;
      AddFree(p, o);
      SameTransitive(old(tag), before, tag);
    }

    /** A block that sticks out of the zone is not free as a whole. */
    lemma OutsideNotWhole(pfn: nat, o: nat)
      requires Valid() && Aligned(pfn, o) && !Inside(pfn, o)
      ensures !Whole(free, Idx(pfn, o), o)
    {
      var last := pfn + Pow2(o) - 1;
      IdxRange(last, Idx(pfn, o), o);
      assert Idx(pfn, o) == Idx(pfn, o);
    }

    /** The split loop: return the upper half at each order down to `order`. */
    method Halve(p: nat, top: nat, order: nat)
      requires Valid() && order <= top < MAX_ORDER && Aligned(p, top) && Inside(p, top)
      requires Apart(free, Idx(p, top), top)
      modifies this
      ensures Valid() && SameOutside(old(tag), tag)
      ensures Aligned(p, order) && Inside(p, order) && Apart(free, Idx(p, order), order)
      ensures free + Pages(Idx(p, order), order) == old(free) + Pages(Idx(p, top), top)
    {
      hide *;
      var o: nat := top;
      SameReflexive(tag);
      while o > order
        invariant Valid() && order <= o <= top && Aligned(p, o) && Inside(p, o)
        invariant Apart(free, Idx(p, o), o) && SameOutside(old(tag), tag)
        invariant free + Pages(Idx(p, o), o) == old(free) + Pages(Idx(p, top), top)
      {
        SplitBlock(free, p, o - 1);
        SplitRest(free, Idx(p, o), o - 1);
        o := o - 1;
        SplitInside(p, o);
        ghost var before := tag;
        AddFree(p + Pow2(o), o);
        SameTransitive(old(tag), before, tag);
      }
    }

    method TakeFirst(o: nat) returns (p: nat)
      requires Valid() && o < MAX_ORDER && lists[o] != []
      modifies this
      ensures Valid() && SameOutside(old(tag), tag)
      ensures p == old(lists[o][0]) && Aligned(p, o) && Inside(p, o)
      ensures Apart(free, Idx(p, o), o) && free + Pages(Idx(p, o), o) == old(free)
    {
      p := lists[o][0];
      assert p in lists[o];
      ListedIsFree(lists, free, p, o);
      BlockInside(p, o);
      DelFree(p, o);
    }

    /** The first block on the lowest non-empty list at or above `order`, halved down. */
    method BuddyAlloc(order: nat) returns (r: Option<nat>)
      requires Valid() && order < MAX_ORDER
      modifies this
      ensures Valid() && SameOutside(old(tag), tag)
      ensures r.None? <==> (forall k: nat :: !Whole(old(free), k, order))
      ensures r.None? ==> free == old(free) && lists == old(lists) && tag == old(tag)
      ensures r.Some? ==> Aligned(r.value, order) && Inside(r.value, order)
      ensures r.Some? ==> Whole(old(free), Idx(r.value, order), order)
      ensures r.Some? ==> free == old(free) - Pages(Idx(r.value, order), order)
    {
      var o: nat := order;
      while o < MAX_ORDER && lists[o] == []
        invariant order <= o <= MAX_ORDER
        invariant forall i :: order <= i < o ==> lists[i] == []
      {
        o := o + 1;
      }
      if o == MAX_ORDER {
        forall k: nat ensures !Whole(free, k, order) {
          if Whole(free, k, order) {
            var _ := RunIsListed(lists, free, k, order);
          }
        }
        return None;
      }
      var p := TakeFirst(o);
      Halve(p, o, order);
      SetSplit(old(free), free, Idx(p, order), order);
      r := Some(p);
    }

    lemma BlockInside(pfn: nat, o: nat)
      requires Valid() && o < MAX_ORDER && pfn in lists[o]
      ensures Inside(pfn, o)
    {
      var last := pfn + Pow2(o) - 1;
      IdxRange(last, Idx(pfn, o), o);
      IdxRange(pfn, Idx(pfn, o), o);
    }

    /** free_range: hand over the pages [a, b) as the largest aligned blocks that fit. */
    method FreeRange(a: nat, b: nat)
      requires Valid() && start <= a && b <= end
      requires forall p: nat :: a <= p < b ==> p !in free
      modifies this
      ensures Valid()
      ensures forall p: nat :: p in free <==> p in old(free) || a <= p < b
    {
      var s: nat := a;
      while s < b
        invariant Valid() && a <= s && (s <= b || s == a)
        invariant forall p: nat :: p in free <==> p in old(free) || a <= p < s
      {
        var o: nat := MAX_ORDER - 1;
        while o > 0 && (!Aligned(s, o) || s + Pow2(o) > b)
          invariant o < MAX_ORDER
        {
          o := o - 1;
        }
        assert Pow2(0) == 1;
        BlockPages(s, o);
        assert Pages(Idx(s, o), o) !! free;
        BuddyFree(s, o);
        s := s + Pow2(o);
      }
    }
  }

  /** Deleting the sibling and growing the block keeps the union of both. */
  lemma MergeIsUnion(free: set<nat>, k: nat, o: nat)
    requires o < MAX_ORDER - 1 && Apart(free, k, o) && Whole(free, Sibling(k), o)
    ensures Apart(free - Pages(Sibling(k), o), k / 2, o + 1)
    ensures free - Pages(Sibling(k), o) + Pages(k / 2, o + 1) == free + Pages(k, o)
  {
    PagesHalves(k, o);
    forall p: nat | Idx(p, o + 1) == k / 2 ensures p !in free - Pages(Sibling(k), o) {
      assert p in Pages(k / 2, o + 1);
    }
  }

  lemma SetSplit(all: set<nat>, rest: set<nat>, k: nat, o: nat)
    requires rest + Pages(k, o) == all && Apart(rest, k, o)
    ensures Whole(all, k, o) && rest == all - Pages(k, o)
  {
    assert forall p: nat | p in rest :: Idx(p, o) != k;
  }

  /** A free run of 2^order aligned pages is covered by a listed block. */
  lemma RunIsListed(lists: seq<seq<nat>>, free: set<nat>, k: nat, order: nat) returns (o: nat)
    requires Represents(lists, free) && order < MAX_ORDER && Whole(free, k, order)
    ensures order <= o < MAX_ORDER && lists[o] != []
  {
    var k';
    k', o := Climb(free, k, order);
    HeadInBlock(k', o);
    assert Start(k', o) in lists[o];
  }

  /** Halving a block that holds no free page. */
  lemma SplitBlock(free: set<nat>, p: nat, o: nat)
    requires o < MAX_ORDER - 1 && Aligned(p, o + 1) && Apart(free, Idx(p, o + 1), o + 1)
    ensures Aligned(p, o) && Aligned(p + Pow2(o), o)
    ensures Idx(p, o) == 2 * Idx(p, o + 1) && Idx(p + Pow2(o), o) == Idx(p, o) + 1
    ensures Sibling(Idx(p, o) + 1) == Idx(p, o)
    ensures Apart(free, Idx(p, o), o) && Apart(free, Idx(p, o) + 1, o)
    ensures !Whole(free, Idx(p, o), o)
  {
    var k := Idx(p, o + 1);
    StartNext(2 * k, o);
    HeadInBlock(2 * k, o);
    HeadInBlock(2 * k + 1, o);
    forall q: nat | Idx(q, o) == 2 * k || Idx(q, o) == 2 * k + 1 ensures q !in free {
      assert Idx(q, o + 1) == Idx(q, o) / 2;
    }
  }

  lemma SplitRest(free: set<nat>, k: nat, o: nat)
    requires o < MAX_ORDER - 1 && Apart(free, k, o + 1)
    ensures Apart(free + Pages(2 * k + 1, o), 2 * k, o)
    ensures free + Pages(2 * k + 1, o) + Pages(2 * k, o) == free + Pages(k, o + 1)
  {
    PagesHalves(2 * k, o);
    assert Sibling(2 * k) == 2 * k + 1 && 2 * k / 2 == k;
    var low, high, all := Pages(2 * k, o), Pages(2 * k + 1, o), Pages(k, o + 1);
    assert all !! free;
    forall q: nat | Idx(q, o) == 2 * k ensures q !in free + high {
      assert q in low;
    }
  }
}

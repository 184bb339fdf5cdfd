/** Aligned power-of-two blocks and the canonical decomposition of a set of free
    pages (kernel/mm/pmm.c).

    A block is named by its order `o` and its index `k`: it holds the pages `p`
    with `Idx(p, o) == k`, that is `p >> o == k`, and starts at `Start(k, o)`. */
module BuddyBlocks {

  /** Orders run from 0 to MAX_ORDER - 1. */
  const MAX_ORDER: nat := 11

  function Pow2(o: nat): (r: nat)
    ensures r > 0
  {
    if o == 0 then 1 else 2 * Pow2(o - 1)
  }

  /** p >> o. */
  function Idx(p: nat, o: nat): nat {
    if o == 0 then p else Idx(p, o - 1) / 2
  }

  /** k << o: the first page of block `k` of order `o`. */
  function Start(k: nat, o: nat): nat
    decreases o
  {
    if o == 0 then k else Start(2 * k, o - 1)
  }

  ghost predicate Whole(free: set<nat>, k: nat, o: nat) {
    forall p: nat :: Idx(p, o) == k ==> p in free
  }

  ghost predicate Apart(free: set<nat>, k: nat, o: nat) {
    forall p: nat :: Idx(p, o) == k ==> p !in free
  }

  /** The block is free as a whole and cannot be merged into a larger one. */
  ghost predicate Canonical(free: set<nat>, k: nat, o: nat) {
    && o < MAX_ORDER
    && Whole(free, k, o)
    && (o == MAX_ORDER - 1 || !Whole(free, k / 2, o + 1))
  }

  /** The other half of the parent block: `k ^ 1`. */
  function Sibling(k: nat): nat {
    if k % 2 == 0 then k + 1 else k - 1
  }

  lemma {:induction false} StartNext(k: nat, o: nat)
    ensures Start(k + 1, o) == Start(k, o) + Pow2(o)
    decreases o
  {
    if o > 0 {
      StartNext(2 * k, o - 1);
      StartNext(2 * k + 1, o - 1);
      assert 2 * k + 1 + 1 == 2 * (k + 1);
    }
  }

  lemma {:induction false} IdxRange(p: nat, k: nat, o: nat)
    ensures Idx(p, o) == k <==> Start(k, o) <= p < Start(k, o) + Pow2(o)
    decreases o
  {
    if o > 0 {
      IdxRange(p, 2 * k, o - 1);
      IdxRange(p, 2 * k + 1, o - 1);
      StartNext(2 * k, o - 1);
    }
  }

  lemma {:induction false} IdxStep(p: nat, a: nat, b: nat)
    ensures Idx(p, a + b) == Idx(Idx(p, a), b)
  {
    if b > 0 {
      IdxStep(p, a, b - 1);
    }
  }

  /** The first page of a block belongs to it. */
  lemma HeadInBlock(k: nat, o: nat)
    ensures Idx(Start(k, o), o) == k
  {
    IdxRange(Start(k, o), k, o);
  }

  lemma WholeDown(free: set<nat>, k: nat, o: nat, k': nat, o': nat)
    requires o' <= o && Idx(k', o - o') == k
    requires Whole(free, k, o)
    ensures Whole(free, k', o')
  {
    forall p: nat | Idx(p, o') == k' ensures p in free {
      IdxStep(p, o', o - o');
    }
  }

  lemma WholeHalves(free: set<nat>, k: nat, o: nat)
    ensures Whole(free, k, o + 1) <==> Whole(free, 2 * k, o) && Whole(free, 2 * k + 1, o)
  {
    if Whole(free, 2 * k, o) && Whole(free, 2 * k + 1, o) {
      forall p: nat | Idx(p, o + 1) == k ensures p in free {
        assert Idx(p, o) == 2 * k || Idx(p, o) == 2 * k + 1;
      }
    }
    if Whole(free, k, o + 1) {
      forall p: nat | Idx(p, o) == 2 * k || Idx(p, o) == 2 * k + 1 ensures p in free {
        assert Idx(p, o + 1) == k;
      }
    }
  }

  /** Every free block lies in exactly one canonical block: the climb of the merge loop. */
  lemma {:induction false} Climb(free: set<nat>, k: nat, o: nat) returns (k': nat, o': nat)
    requires o < MAX_ORDER && Whole(free, k, o)
    ensures o <= o' && Idx(k, o' - o) == k'
    ensures Canonical(free, k', o')
    decreases MAX_ORDER - o
  {
    if o == MAX_ORDER - 1 || !Whole(free, k / 2, o + 1) {
      return k, o;
    }
    k', o' := Climb(free, k / 2, o + 1);
    IdxStep(k, 1, o' - (o + 1));
    assert Idx(k, 1) == Idx(k, 0) / 2 == k / 2;
  }

  /** Two canonical blocks that share a page are the same block. */
  lemma CanonicalDisjoint(free: set<nat>, p: nat, k: nat, o: nat, k': nat, o': nat)
    requires Canonical(free, k, o) && Canonical(free, k', o')
    requires Idx(p, o) == k && Idx(p, o') == k'
    ensures o == o' && k == k'
  {
    if o < o' {
      CanonicalNoLarger(free, p, k, o, k', o');
    } else if o' < o {
      CanonicalNoLarger(free, p, k', o', k, o);
    }
  }

  lemma CanonicalNoLarger(free: set<nat>, p: nat, k: nat, o: nat, k': nat, o': nat)
    requires Whole(free, k', o')
    requires o < o' < MAX_ORDER && Idx(p, o) == k && Idx(p, o') == k'
    ensures !Canonical(free, k, o)
  {
    IdxStep(p, o + 1, o' - o - 1);
    assert Idx(p, o + 1) == k / 2;
    WholeDown(free, k', o', k / 2, o + 1);
  }

  ghost function Interval(lo: nat, n: nat): (s: set<nat>)
    ensures forall p :: p in s <==> lo <= p < lo + n
    ensures |s| == n
  {
    if n == 0 then {} else Interval(lo, n - 1) + {lo + n - 1}
  }

  ghost function Pages(k: nat, o: nat): (s: set<nat>)
    ensures forall p: nat :: p in s <==> Idx(p, o) == k
  {
    assert forall p: nat :: Idx(p, o) == k <==> Start(k, o) <= p < Start(k, o) + Pow2(o) by {
      forall p: nat ensures Idx(p, o) == k <==> Start(k, o) <= p < Start(k, o) + Pow2(o) {
        IdxRange(p, k, o);
      }
    }
    Interval(Start(k, o), Pow2(o))
  }

  /** A block is the disjoint union of its two halves. */
  lemma PagesHalves(k: nat, o: nat)
    ensures Pages(k / 2, o + 1) == Pages(k, o) + Pages(Sibling(k), o)
    ensures Pages(k, o) !! Pages(Sibling(k), o)
  {
    forall p: nat ensures p in Pages(k / 2, o + 1) <==> p in Pages(k, o) + Pages(Sibling(k), o) {
      assert Idx(p, o + 1) == Idx(p, o) / 2;
    }
  }

  /** Taking one canonical block out of the free pages takes just that block out of
      the canonical decomposition. */
  lemma RemoveCanonical(free: set<nat>, k: nat, o: nat, k': nat, o': nat)
    requires Canonical(free, k, o)
    ensures Canonical(free - Pages(k, o), k', o') <==> Canonical(free, k', o') && (k', o') != (k, o)
  {
    var rest := free - Pages(k, o);
    if o' < MAX_ORDER {
      var head := Start(k', o');
      HeadInBlock(k', o');
      if Canonical(free, k', o') && (k', o') != (k, o) {
        forall p: nat | Idx(p, o') == k' ensures p in rest {
          if Idx(p, o) == k {
            CanonicalDisjoint(free, p, k, o, k', o');
          }
        }
        assert Canonical(rest, k', o');
      }
      if Canonical(rest, k', o') {
        assert head in rest;
        var k2, o2 := Climb(free, k', o');
        IdxStep(head, o', o2 - o');
        if (k2, o2) != (k, o) {
          forall p: nat | Idx(p, o2) == k2 ensures p in rest {
            if Idx(p, o) == k {
              CanonicalDisjoint(free, p, k, o, k2, o2);
            }
          }
          if o' < o2 {
            CanonicalNoLarger(rest, head, k', o', k2, o2);
          }
        }
      }
    }
  }

  /** Adding a block whose sibling is not free adds just that block. */
  lemma AddCanonical(free: set<nat>, k: nat, o: nat, k': nat, o': nat)
    requires o < MAX_ORDER && Apart(free, k, o)
    requires o == MAX_ORDER - 1 || !Whole(free, Sibling(k), o)
    ensures Canonical(free + Pages(k, o), k', o') <==> Canonical(free, k', o') || (k', o') == (k, o)
  {
    var more := free + Pages(k, o);
    AddedIsCanonical(free, k, o);
    assert more - Pages(k, o) == free;
    RemoveCanonical(more, k, o, k', o');
    if (k', o') == (k, o) {
      HeadInBlock(k, o);
    }
  }

  lemma AddedIsCanonical(free: set<nat>, k: nat, o: nat)
    requires o < MAX_ORDER && Apart(free, k, o)
    requires o == MAX_ORDER - 1 || !Whole(free, Sibling(k), o)
    ensures Canonical(free + Pages(k, o), k, o)
  {
    var more := free + Pages(k, o);
    if o < MAX_ORDER - 1 && Whole(more, k / 2, o + 1) {
      WholeHalves(more, k / 2, o);
      forall p: nat | Idx(p, o) == Sibling(k) ensures p in free {
        assert p in more;
      }
      assert false;
    }
  }

  /** A sibling that is free but not listed at order `o` would lie in a larger
      canonical block, which would reach into this block. */
  lemma SiblingListed(free: set<nat>, k: nat, o: nat)
    requires o < MAX_ORDER && Apart(free, k, o)
    ensures Whole(free, Sibling(k), o) <==> Canonical(free, Sibling(k), o)
  {
    if Whole(free, Sibling(k), o) && o < MAX_ORDER - 1 && Whole(free, k / 2, o + 1) {
      WholeHalves(free, k / 2, o);
      HeadInBlock(k, o);
      assert false;
    }
    assert Sibling(k) / 2 == k / 2;
  }
}

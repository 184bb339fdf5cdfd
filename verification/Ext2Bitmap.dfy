/** Block bitmaps with redundant free counters (kernel/fs/ext2.c:244-327). */
module Ext2Bitmap {
  import opened Ext2Map

  type Bits = seq<bv8>

  /** 1u << k. */
  function Mask(k: nat): bv8
    requires k < 8
  {
    if k == 0 then 1 else if k == 1 then 2 else if k == 2 then 4 else if k == 3 then 8
    else if k == 4 then 16 else if k == 5 then 32 else if k == 6 then 64 else 128
  }

  predicate Test(x: bv8, k: nat)
    requires k < 8
  {
    x & Mask(k) != 0
  }

  function Raise(x: bv8, k: nat): bv8
    requires k < 8
  {
    x | Mask(k)
  }

  function Lower(x: bv8, k: nat): bv8
    requires k < 8
  {
    x & !Mask(k)
  }

  lemma ByteFacts(x: bv8, k: nat, j: nat)
    requires k < 8 && j < 8
    ensures Test(Raise(x, k), j) <==> k == j || Test(x, j)
    ensures Test(Lower(x, k), j) <==> k != j && Test(x, j)
    ensures x == 0xFF ==> Test(x, j)
  {
  }

  /** Bit k of a byte is worth 2^k: block bitmaps count from the lowest bit. */
  lemma TestIs(x: bv8, k: nat)
    requires k < 8
    ensures Test(x, k) <==> (x >> k) & 1 == 1
  {
    assert k == 0 || k == 1 || k == 2 || k == 3 || k == 4 || k == 5 || k == 6 || k == 7;
  }

  predicate Bit(m: Bits, i: nat)
    requires i < 8 * |m|
  {
    Test(m[i / 8], i % 8)
  }

  function SetBit(m: Bits, i: nat): Bits
    requires i < 8 * |m|
  {
    m[i / 8 := Raise(m[i / 8], i % 8)]
  }

  function ClearBit(m: Bits, i: nat): Bits
    requires i < 8 * |m|
  {
    m[i / 8 := Lower(m[i / 8], i % 8)]
  }

  lemma BitSet(m: Bits, i: nat, j: nat)
    requires i < 8 * |m| && j < 8 * |m|
    ensures Bit(SetBit(m, i), j) <==> i == j || Bit(m, j)
    ensures Bit(ClearBit(m, i), j) <==> i != j && Bit(m, j)
  {
    hide Mask, Test, Raise, Lower;
    if i / 8 == j / 8 {
      ByteFacts(m[i / 8], i % 8, j % 8);
      assert i % 8 == j % 8 <==> i == j;
    }
  }

  /** Number of clear bits among the first n. */
  function ZeroBits(m: Bits, n: nat): (r: nat)
    requires n <= 8 * |m|
    ensures r == 0 <==> forall i :: 0 <= i < n ==> Bit(m, i)
  {
    if n == 0 then 0 else ZeroBits(m, n - 1) + if Bit(m, n - 1) then 0 else 1
  }

  lemma {:induction false} ZeroBitsSet(m: Bits, n: nat, i: nat)
    requires n <= 8 * |m| && i < 8 * |m| && !Bit(m, i)
    ensures ZeroBits(m, n) == ZeroBits(SetBit(m, i), n) + if i < n then 1 else 0
  {
    hide Bit, SetBit;
    if n > 0 {
      ZeroBitsSet(m, n - 1, i);
      BitSet(m, i, n - 1);
    }
  }

  lemma {:induction false} ZeroBitsClear(m: Bits, n: nat, i: nat)
    requires n <= 8 * |m| && i < 8 * |m| && Bit(m, i)
    ensures ZeroBits(ClearBit(m, i), n) == ZeroBits(m, n) + if i < n then 1 else 0
  {
    hide Bit, ClearBit;
    if n > 0 {
      ZeroBitsClear(m, n - 1, i);
      BitSet(m, i, n - 1);
    }
  }

  function Sum(s: seq<nat>): nat {
    if s == [] then 0 else s[0] + Sum(s[1..])
  }

  lemma {:induction false} SumUpdate(s: seq<nat>, i: nat, v: nat)
    requires i < |s|
    ensures Sum(s[i := v]) + s[i] == Sum(s) + v
    ensures s[i] <= Sum(s)
  {
    if i == 0 {
      assert s[i := v][1..] == s[1..];
    } else {
      SumUpdate(s[1..], i - 1, v);
      assert s[i := v][1..] == s[1..][i - 1 := v];
    }
  }

  /** find_zero_bit: the first clear bit at or after `start`, else the first before it;
      full bytes are skipped eight bits at a time. */
  method FindZeroBit(m: Bits, nbits: nat, start: nat) returns (r: int)
    requires nbits <= 8 * |m|
    ensures r < 0 <==> forall i :: 0 <= i < nbits ==> Bit(m, i)
    ensures r >= 0 ==> r < nbits && !Bit(m, r)
    ensures r >= start ==> forall i :: start <= i < r ==> Bit(m, i)
    ensures 0 <= r < start ==> (forall i :: start <= i < nbits ==> Bit(m, i)) && (forall i :: 0 <= i < r ==> Bit(m, i))
  {
    hide Mask, Test;
    var i: nat := start;
    while i < nbits
      invariant start <= i
      invariant forall j :: start <= j < i && j < nbits ==> Bit(m, j)
    {
      if m[i / 8] == 0xFF {
        var next := i / 8 * 8 + 8;
        forall j | i <= j < next && j < nbits ensures Bit(m, j) {
          ByteFacts(m[i / 8], 0, j % 8);
          assert j / 8 == i / 8;
        }
        i := next;
      } else if !Test(m[i / 8], i % 8) {
        assert !Bit(m, i);
        return i;
      } else {
        i := i + 1;
      }
    }
    i := 0;
    while i < start && i < nbits
      invariant 0 <= i
      invariant forall j :: 0 <= j < i && j < nbits ==> Bit(m, j)
    {
      if !Test(m[i / 8], i % 8) {
        assert !Bit(m, i);
        return i;
      }
      i := i + 1;
    }
    return -1;
  }

  /** Fixed layout: s_first_data_block, s_blocks_count, s_blocks_per_group. */
  datatype Layout = Layout(first: nat, count: nat, bpg: nat) {
    predicate Valid() {
      first < count && bpg > 0
    }

    function Groups(): (r: nat)
      requires Valid()
      ensures r > 0
    {
      var r := (count - first + bpg - 1) / bpg;
      DivUnique(count - first + bpg - 1, bpg, r, (count - first + bpg - 1) % bpg);
      r
    }

    /** Bits of group g that stand for blocks: the last group may be short. */
    function NBits(g: nat): nat
      requires Valid() && g < Groups()
    {
      var rest := count - first - g * bpg;
      if rest < 0 then 0 else if rest < bpg then rest else bpg
    }

    function GroupOf(b: nat): nat
      requires Valid() && first <= b
    {
      (b - first) / bpg
    }

    function BitOf(b: nat): nat
      requires Valid() && first <= b
    {
      (b - first) % bpg
    }

    function BlockNo(g: nat, bit: nat): nat {
      first + g * bpg + bit
    }

    /** Block numbers and (group, bit) pairs correspond one to one. */
    lemma BlockRoundTrip(b: nat)
      requires Valid() && first <= b < count
      ensures GroupOf(b) < Groups() && BitOf(b) < NBits(GroupOf(b))
      ensures BlockNo(GroupOf(b), BitOf(b)) == b
    {
      var x := b - first;
      assert x == x / bpg * bpg + x % bpg;
      var n := count - first + bpg - 1;
      assert n == n / bpg * bpg + n % bpg;
      if n / bpg <= x / bpg {
        MulMono(n / bpg, x / bpg, bpg);
      }
    }

    /** Blocks are numbered group by group and bit by bit, and every group but the last is full-sized. */
    lemma BitOrder(b: nat, c: nat)
      requires Valid() && first <= b < c < count
      ensures GroupOf(b) < Groups()
      ensures GroupOf(b) < GroupOf(c) || (GroupOf(b) == GroupOf(c) && BitOf(b) < BitOf(c))
      ensures GroupOf(b) < GroupOf(c) ==> NBits(GroupOf(b)) == bpg
    {
      BlockRoundTrip(b);
      BlockRoundTrip(c);
      var g, h := GroupOf(b), GroupOf(c);
      if h < g {
        MulNext(h, g, bpg);
      } else if g < h {
        MulNext(g, h, bpg);
      }
    }

    lemma NBitsMost(g: nat)
      requires Valid() && g < Groups()
      ensures NBits(g) <= bpg
    {
    }

    /** Where alloc_block begins to look. */
    function Near(goal: nat): (r: nat)
      requires Valid()
      ensures first <= r < count && (first <= goal < count ==> r == goal) && (!(first <= goal < count) ==> r == first)
    {
      if goal < first || goal >= count then first else goal
    }

    /** How late a search from bit `start` on, and then from bit 0 on, looks at a bit. */
    function BitTurn(start: nat, bit: nat): nat {
      if bit < start then bit + bpg else bit
    }

    /** How many groups alloc_block looks at before that of `b`. */
    function GroupTurn(near: nat, b: nat): nat
      requires Valid() && first <= near < count && first <= b < count
    {
      if GroupOf(near) <= GroupOf(b) then GroupOf(b) - GroupOf(near)
      else BlockRoundTrip(near); GroupOf(b) + Groups() - GroupOf(near)
    }

    /** Looking for a block near `near` group by group, alloc_block comes to `r` no later than to `b`. */
    ghost predicate NoLater(near: nat, r: nat, b: nat)
      requires Valid() && first <= near < count && first <= r < count && first <= b < count
    {
      || GroupTurn(near, r) < GroupTurn(near, b)
      || (GroupTurn(near, r) == GroupTurn(near, b)
          && BitTurn(if GroupOf(b) == GroupOf(near) then BitOf(near) else 0, BitOf(r)) <= BitTurn(if GroupOf(b) == GroupOf(near) then BitOf(near) else 0, BitOf(b)))
    }

    /** Of the free blocks, the first that alloc_block comes to. */
    ghost predicate FirstFree(used: set<nat>, goal: nat, r: nat)
      requires Valid()
    {
      first <= r < count && r !in used && forall b: nat :: first <= b < count && b !in used ==> NoLater(Near(goal), r, b)
    }

    /** The goal itself comes first. */
    lemma GoalFirst(used: set<nat>, goal: nat, r: nat)
      requires Valid() && first <= goal < count && goal !in used && FirstFree(used, goal, r)
      ensures r == goal
    {
      BlockRoundTrip(goal);
      BlockRoundTrip(r);
      assert NoLater(goal, r, goal);
    }

    lemma PairRoundTrip(g: nat, bit: nat)
      requires Valid() && g < Groups() && bit < NBits(g)
      ensures first <= BlockNo(g, bit) < count
      ensures GroupOf(BlockNo(g, bit)) == g && BitOf(BlockNo(g, bit)) == bit
    {
      DivUnique(g * bpg + bit, bpg, g, bit);
    }
  }

  ghost predicate Holds(l: Layout, maps: seq<Bits>, used: set<nat>)
    requires l.Valid()
  {
    && |maps| == l.Groups()
    && (forall g :: 0 <= g < |maps| ==> l.bpg <= 8 * |maps[g]|)
    && (forall b: nat :: b in used ==> l.first <= b < l.count)
    && (forall b: nat {:trigger b in used} :: l.first <= b < l.count && l.GroupOf(b) < |maps| && l.BitOf(b) < 8 * |maps[l.GroupOf(b)]| ==>
          (b in used <==> Bit(maps[l.GroupOf(b)], l.BitOf(b))))
  }

  ghost predicate Counted(l: Layout, maps: seq<Bits>, gdFree: seq<nat>, sbFree: nat)
    requires l.Valid() && |maps| == l.Groups() && forall g :: 0 <= g < |maps| ==> l.bpg <= 8 * |maps[g]|
  {
    && |gdFree| == |maps|
    && (forall g :: 0 <= g < |maps| ==> gdFree[g] == ZeroBits(maps[g], l.NBits(g)))
    && sbFree == Sum(gdFree)
  }

  /** Flipping the bit of one block changes the used set by that block. */
  lemma HoldsSet(l: Layout, maps: seq<Bits>, used: set<nat>, g: nat, bit: nat)
    requires l.Valid() && Holds(l, maps, used) && g < |maps| && bit < l.NBits(g)
    ensures var b := l.BlockNo(g, bit);
            && (b in used <==> Bit(maps[g], bit))
            && Holds(l, maps[g := SetBit(maps[g], bit)], used + {b})
            && Holds(l, maps[g := ClearBit(maps[g], bit)], used - {b})
  {
    var b := l.BlockNo(g, bit);
    l.PairRoundTrip(g, bit);
    assert b in used <==> Bit(maps[g], bit);
    forall c: nat | l.first <= c < l.count
      ensures l.GroupOf(c) < |maps| && l.BitOf(c) < 8 * |maps[l.GroupOf(c)]|
      ensures l.GroupOf(c) == g ==> (Bit(SetBit(maps[g], bit), l.BitOf(c)) <==> b == c || Bit(maps[g], l.BitOf(c)))
      ensures l.GroupOf(c) == g ==> (Bit(ClearBit(maps[g], bit), l.BitOf(c)) <==> b != c && Bit(maps[g], l.BitOf(c)))
    {
      l.BlockRoundTrip(c);
      if l.GroupOf(c) == g {
        BitSet(maps[g], bit, l.BitOf(c));
      }
    }
  }

  lemma CountedUpdate(l: Layout, maps: seq<Bits>, gdFree: seq<nat>, sbFree: nat, g: nat, m: Bits, n: nat, sbFree': nat)
    requires l.Valid() && |maps| == l.Groups() && forall i :: 0 <= i < |maps| ==> l.bpg <= 8 * |maps[i]|
    requires Counted(l, maps, gdFree, sbFree)
    requires g < |maps| && |m| == |maps[g]| && n == ZeroBits(m, l.NBits(g)) && sbFree' + gdFree[g] == sbFree + n
    ensures Counted(l, maps[g := m], gdFree[g := n], sbFree')
  {
    SumUpdate(gdFree, g, n);
  }

  /** The number of free blocks of a group is exact, so a zero count means a full group. */
  lemma FullGroup(l: Layout, maps: seq<Bits>, used: set<nat>, g: nat, b: nat)
    requires l.Valid() && Holds(l, maps, used) && g < |maps| && ZeroBits(maps[g], l.NBits(g)) == 0
    requires l.first <= b < l.count && l.GroupOf(b) == g
    ensures b in used
  {
    l.BlockRoundTrip(b);
  }

  class BlockAllocator {
    const l: Layout
    var maps: seq<Bits>          // block bitmap of each group
    var gdFree: seq<nat>         // bg_free_blocks_count
    var sbFree: nat              // s_free_blocks_count
    ghost var used: set<nat>

    ghost predicate Valid()
      reads this
    {
      && l.Valid() && Holds(l, maps, used) && Counted(l, maps, gdFree, sbFree)
      && (l.first == 0 ==> 0 in used)     // block 0 is the boot block or the superblock
    }

    ghost predicate Full()
      reads this
    {
      forall b: nat :: l.first <= b < l.count ==> b in used
    }

    constructor (l: Layout, maps: seq<Bits>, gdFree: seq<nat>, sbFree: nat, ghost used: set<nat>)
      requires l.Valid() && Holds(l, maps, used) && Counted(l, maps, gdFree, sbFree)
      requires l.first == 0 ==> 0 in used
      ensures Valid() && this.l == l && this.used == used && this.sbFree == sbFree
    {
      this.l, this.maps, this.gdFree, this.sbFree, this.used := l, maps, gdFree, sbFree, used;
    }

    /** Sets a clear bit and moves both counters. */
    method Take(g: nat, bit: nat)
      requires Valid() && g < |maps| && bit < l.NBits(g) && !Bit(maps[g], bit)
      modifies this
      ensures Valid() && |maps| == old(|maps|)
      ensures l.BlockNo(g, bit) !in old(used) && used == old(used) + {l.BlockNo(g, bit)}
      ensures sbFree == old(sbFree) - 1
    {
      hide Bit, SetBit, ClearBit, ZeroBits, Layout.GroupOf, Layout.BitOf, Layout.BlockNo, Layout.Groups;
      HoldsSet(l, maps, used, g, bit);
      ZeroBitsSet(maps[g], l.NBits(g), bit);
      SumUpdate(gdFree, g, 0);
      var m := SetBit(maps[g], bit);
      SetBitLength(maps[g], bit);
      CountedUpdate(l, maps, gdFree, sbFree, g, m, gdFree[g] - 1, sbFree - 1);
      maps := maps[g := m];
      gdFree := gdFree[g := gdFree[g] - 1];
      sbFree := sbFree - 1;
      used := used + {l.BlockNo(g, bit)};
    }

    /** Clears a set bit and moves both counters. */
    method Drop(g: nat, bit: nat)
      requires Valid() && g < |maps| && bit < l.NBits(g) && Bit(maps[g], bit) && l.BlockNo(g, bit) > 0
      modifies this
      ensures Valid() && l.BlockNo(g, bit) in old(used) && used == old(used) - {l.BlockNo(g, bit)}
      ensures sbFree == old(sbFree) + 1
    {
      hide Bit, SetBit, ClearBit, ZeroBits, Layout.GroupOf, Layout.BitOf, Layout.BlockNo, Layout.Groups;
      HoldsSet(l, maps, used, g, bit);
      ZeroBitsClear(maps[g], l.NBits(g), bit);
      var m := ClearBit(maps[g], bit);
      SetBitLength(maps[g], bit);
      CountedUpdate(l, maps, gdFree, sbFree, g, m, gdFree[g] + 1, sbFree + 1);
      maps := maps[g := m];
      gdFree := gdFree[g := gdFree[g] + 1];
      sbFree := sbFree + 1;
      used := used - {l.BlockNo(g, bit)};
    }

    /** The bit that the search finds stands for the first free block of the group in its order. */
    lemma FirstInGroup(g: nat, start: nat, bit: nat)
      requires Valid() && g < |maps| && bit < l.NBits(g)
      requires bit >= start ==> forall i :: start <= i < bit ==> Bit(maps[g], i)
      requires bit < start ==> (forall i :: start <= i < l.NBits(g) ==> Bit(maps[g], i)) && (forall i :: 0 <= i < bit ==> Bit(maps[g], i))
      ensures forall b: nat :: l.first <= b < l.count && b !in used && l.GroupOf(b) == g ==> l.BitTurn(start, bit) <= l.BitTurn(start, l.BitOf(b))
    {
      hide Bit, ZeroBits, Layout.GroupOf, Layout.BitOf, Layout.NBits, Layout.Groups, Counted, SetBit, ClearBit;
      l.NBitsMost(g);
      forall b: nat | l.first <= b < l.count && b !in used && l.GroupOf(b) == g
        ensures l.BitTurn(start, bit) <= l.BitTurn(start, l.BitOf(b))
      {
        l.BlockRoundTrip(b);
        HoldsSet(l, maps, used, g, l.BitOf(b));
      }
    }

    /** One round of the group loop. */
    method TryGroup(g: nat, start: nat) returns (r: nat)
      requires Valid() && g < |maps|
      modifies this
      ensures Valid() && |maps| == old(|maps|)
      ensures r == 0 ==> ZeroBits(maps[g], l.NBits(g)) == 0 && maps == old(maps) && used == old(used) && sbFree == old(sbFree)
      ensures r != 0 ==> r !in old(used) && used == old(used) + {r} && l.first <= r < l.count
      ensures r != 0 ==> sbFree == old(sbFree) - 1
      ensures r != 0 ==> l.GroupOf(r) == g && forall b: nat :: l.first <= b < l.count && b !in old(used) && l.GroupOf(b) == g ==>
                           l.BitTurn(start, l.BitOf(r)) <= l.BitTurn(start, l.BitOf(b))
    {
      r := 0;
      if gdFree[g] != 0 {
        hide Bit, ZeroBits, Layout.GroupOf, Layout.BitOf;
        var bit := FindZeroBit(maps[g], l.NBits(g), start);
        if bit >= 0 {
          FirstInGroup(g, start, bit);
          l.PairRoundTrip(g, bit);
          r := l.BlockNo(g, bit);
          Take(g, bit);
        }
      }
    }

    /** When the groups before are full, the first free block of the next group is the first of all. */
    lemma FirstOfAll(maps: seq<Bits>, used: set<nat>, goal: nat, k: nat, r: nat)
      requires l.Valid() && l.first <= r < l.count && r !in used && l.GroupOf(l.Near(goal)) < l.Groups() && k < l.Groups()
      requires Holds(l, maps, used) && FullUpTo(maps, l.GroupOf(l.Near(goal)), k) && l.GroupOf(r) == Wrap(l.GroupOf(l.Near(goal)), k, l.Groups())
      requires FirstIn(used, goal, r)
      ensures l.FirstFree(used, goal, r)
    {
      hide Holds, Layout.GroupOf, Layout.BitOf, Layout.Groups, Layout.BitTurn, ZeroBits, Wrap, Layout.Near;
      var near := l.Near(goal);
      forall b: nat | l.first <= b < l.count && b !in used ensures l.NoLater(near, r, b) {
        l.BlockRoundTrip(b);
        l.BlockRoundTrip(r);
        TurnIs(l.GroupOf(near), l.GroupOf(b), l.Groups(), l.GroupTurn(near, b));
        TurnOnly(l.GroupOf(near), l.GroupOf(r), l.Groups(), l.GroupTurn(near, r), k);
        if l.GroupTurn(near, b) < k {
          FullGroup(l, maps, used, l.GroupOf(b), b);
        } else if l.GroupTurn(near, b) == k {
          assert l.GroupOf(b) == l.GroupOf(r);
        }
      }
    }

    /** Of its group the first. */
    ghost predicate FirstIn(used: set<nat>, goal: nat, r: nat)
      requires l.Valid() && l.first <= r < l.count
    {
      var start := if l.GroupOf(r) == l.GroupOf(l.Near(goal)) then l.BitOf(l.Near(goal)) else 0;
      forall b: nat :: l.first <= b < l.count && b !in used && l.GroupOf(b) == l.GroupOf(r) ==>
        l.BitTurn(start, l.BitOf(r)) <= l.BitTurn(start, l.BitOf(b))
    }

    /** alloc_block up to the zeroing of the new block: the first free block in the order of its search,
        which begins at `goal`; 0 only when every block is in use. */
    method Alloc(goal: nat) returns (r: nat)
      requires Valid()
      modifies this
      ensures Valid()
      ensures r != 0 ==> l.FirstFree(old(used), goal, r)
      ensures goal != 0 && l.first <= goal < l.count && goal !in old(used) ==> r == goal
      ensures r == 0 <==> old(Full())
      ensures r == 0 ==> used == old(used) && sbFree == old(sbFree) && Full()
      ensures r != 0 ==> r !in old(used) && used == old(used) + {r} && l.first <= r < l.count
      ensures r != 0 ==> sbFree == old(sbFree) - 1
    {
      var near := l.Near(goal);
      l.BlockRoundTrip(near);
      var g0, groups := l.GroupOf(near), l.Groups();
      FullNone(g0);
      assert |maps| == groups;
      hide Holds, Counted, Bit, ZeroBits, FullUpTo, Layout.GroupOf, Layout.BitOf, Layout.NBits, Layout.FirstFree, Layout.NoLater;
      var k := 0;
      r := 0;
      while k < groups && r == 0
        invariant k <= groups && Valid() && |maps| == groups
        invariant r == 0 ==> used == old(used) && sbFree == old(sbFree) && FullUpTo(maps, g0, k)
        invariant r != 0 ==> r !in old(used) && used == old(used) + {r} && l.first <= r < l.count
        invariant r != 0 ==> sbFree == old(sbFree) - 1
        invariant r != 0 ==> l.FirstFree(old(used), goal, r)
        invariant r == 0 ==> maps == old(maps)
        decreases groups - k, r == 0
      {
        var g := Wrap(g0, k, groups);
        r := TryGroup(g, if g == g0 then l.BitOf(near) else 0);
        if r != 0 {
          FirstOfAll(old(maps), old(used), goal, k, r);
        } else {
          FullOneMore(maps, g0, k);
          k := k + 1;
        }
      }
      if r == 0 {
        AllFull(g0);
      } else if l.first <= goal < l.count && goal !in old(used) {
        l.GoalFirst(old(used), goal, r);
      }
    }

    /** The first k groups from g0 on have no clear bit. */
    ghost predicate FullUpTo(maps: seq<Bits>, g0: nat, k: nat)
      requires l.Valid() && g0 < l.Groups() && k <= l.Groups()
    {
      && |maps| == l.Groups() && (forall g :: 0 <= g < |maps| ==> l.bpg <= 8 * |maps[g]|)
      && (forall j :: 0 <= j < k ==> ZeroBits(maps[Wrap(g0, j, l.Groups())], l.NBits(Wrap(g0, j, l.Groups()))) == 0)
    }

    lemma FullNone(g0: nat)
      requires Valid() && g0 < l.Groups()
      ensures FullUpTo(maps, g0, 0)
    {
    }

    lemma FullOneMore(maps: seq<Bits>, g0: nat, k: nat)
      requires l.Valid() && g0 < l.Groups() && k < l.Groups() && FullUpTo(maps, g0, k)
      requires ZeroBits(maps[Wrap(g0, k, l.Groups())], l.NBits(Wrap(g0, k, l.Groups()))) == 0
      ensures FullUpTo(maps, g0, k + 1)
    {
      hide Bit, ZeroBits, Layout.NBits, Layout.Groups;
    }

    lemma AllFull(g0: nat)
      requires Valid() && g0 < l.Groups() && FullUpTo(maps, g0, l.Groups())
      ensures Full()
    {
      forall b: nat | l.first <= b < l.count ensures b in used {
        l.BlockRoundTrip(b);
        var j := Unwrap(g0, l.GroupOf(b), l.Groups());
        FullGroup(l, maps, used, l.GroupOf(b), b);
      }
    }

    /** free_block: out-of-range numbers and blocks already free are left alone. */
    method Free(b: nat)
      requires Valid() && b > 0
      modifies this
      ensures Valid() && used == old(used) - {b}
      ensures sbFree == old(sbFree) + if b in old(used) then 1 else 0
    {
      if b < l.first || b >= l.count {
        return;
      }
      l.BlockRoundTrip(b);
      var g, bit := l.GroupOf(b), l.BitOf(b);
      HoldsSet(l, maps, used, g, bit);
      hide Bit;
      if Bit(maps[g], bit) {
        Drop(g, bit);
      }
    }
  }

  lemma SetBitLength(m: Bits, i: nat)
    requires i < 8 * |m|
    ensures |SetBit(m, i)| == |m| && |ClearBit(m, i)| == |m|
  {
  }

  /** (g0 + k) % groups for g0, k < groups. */
  function Wrap(g0: nat, k: nat, groups: nat): (r: nat)
    requires g0 < groups && k < groups
    ensures r < groups
  {
    (g0 + k) % groups
  }

  /** The k-th group from g0 on, the other way round. */
  lemma TurnIs(g0: nat, g: nat, groups: nat, k: nat)
    requires g0 < groups && g < groups && k == (if g0 <= g then g - g0 else g + groups - g0)
    ensures k < groups && Wrap(g0, k, groups) == g
  {
    DivUnique(g0 + k, groups, if g0 <= g then 0 else 1, g);
  }

  lemma TurnOnly(g0: nat, g: nat, groups: nat, k: nat, j: nat)
    requires g0 < groups && g < groups && k == (if g0 <= g then g - g0 else g + groups - g0)
    requires j < groups && Wrap(g0, j, groups) == g
    ensures j == k
  {
    DivUnique(g0 + j, groups, if g0 + j < groups then 0 else 1, if g0 + j < groups then g0 + j else g0 + j - groups);
  }

  lemma Unwrap(g0: nat, g: nat, groups: nat) returns (k: nat)
    requires g0 < groups && g < groups
    ensures k < groups && Wrap(g0, k, groups) == g
  {
    hide Wrap;
    k := if g0 <= g then g - g0 else g + groups - g0;
    TurnIs(g0, g, groups, k);
  }
}

/** The bookkeeping of free_tree and trunc_tree (kernel/fs/ext2.c:721-784): which
    locations lie under a subtree, what has been freed, and what is left on disk. */
module Ext2Cut {
  import opened Ext2Map
  import opened Ext2Tree

  /** The held locations of the subtree at `loc`. */
  ghost function Under(live: set<Loc>, loc: Loc): set<Loc> {
    set q | q in live && loc <= q
  }

  /** Those below the first `i` children of `loc`. */
  ghost function UnderBelow(live: set<Loc>, loc: Loc, i: nat): set<Loc> {
    set q | q in live && loc <= q && |loc| < |q| && q[|loc|] < i
  }

  ghost function Blocks(s: Store, locs: set<Loc>): set<nat> {
    set q | q in locs :: At(s, q)
  }

  lemma ChildPrefix(loc: Loc, i: nat, q: Loc)
    ensures loc + [i] <= q <==> loc <= q && |loc| < |q| && q[|loc|] == i
  {
    if loc <= q && |loc| < |q| && q[|loc|] == i {
      assert q[..|loc| + 1] == loc + [i];
    }
  }

  lemma UnderLive(live: set<Loc>, loc: Loc)
    ensures Under(live, loc) <= live
  {
  }

  lemma UnderNext(live: set<Loc>, loc: Loc, i: nat, i': nat)
    requires i' == i + 1
    ensures UnderBelow(live, loc, i') == UnderBelow(live, loc, i) + Under(live, loc + [i])
    ensures UnderBelow(live, loc, i) !! Under(live, loc + [i])
    ensures UnderBelow(live, loc, 0) == {}
  {
    forall q | q in live ensures loc + [i] <= q <==> loc <= q && |loc| < |q| && q[|loc|] == i {
      ChildPrefix(loc, i, q);
    }
  }

  lemma UnderAll(g: Geo, s: Store, live: set<Loc>, loc: Loc)
    requires Forest(g, s, live) && ValidLoc(g, loc)
    ensures Under(live, loc) == UnderBelow(live, loc, g.apb) + (if loc in live then {loc} else {})
    ensures loc !in UnderBelow(live, loc, g.apb)
  {
    hide At;
    forall q | q in Under(live, loc) && q != loc ensures q in UnderBelow(live, loc, g.apb) {
      assert |loc| < |q|;
    }
  }

  /** Nothing is held below a hole. */
  lemma UnderHole(g: Geo, s: Store, live: set<Loc>, loc: Loc)
    requires WellFormed(g, s) && Forest(g, s, live) && ValidLoc(g, loc) && At(s, loc) == 0
    ensures Under(live, loc) == {}
  {
    hide At;
    forall q | q in Under(live, loc) ensures false {
      PrefixLive(g, s, live, loc, q);
    }
  }

  /** A data block has nothing below it. */
  lemma UnderLeaf(g: Geo, s: Store, live: set<Loc>, loc: Loc)
    requires Forest(g, s, live) && loc in live && ValidLoc(g, loc) && Height(loc) == 0
    ensures Under(live, loc) == {loc}
  {
    hide At;
    forall q | q in Under(live, loc) ensures q == loc {
      assert |q| <= |loc|;
      assert q[..|loc|] == loc;
    }
  }

  // ---- What freeing a set of locations does to the counters ----

  datatype Counters = Counters(used: set<nat>, free: nat, sectors: int)

  /** Freeing just the blocks of `freed`: bits cleared, free count up, i_blocks down. */
  ghost predicate Freed(s: Store, c: Counters, c': Counters, freed: set<Loc>, spb: nat) {
    && c'.used == c.used - Blocks(s, freed)
    && c'.free == c.free + |freed|
    && c'.sectors + |freed| * spb == c.sectors
  }

  lemma FreedNone(s: Store, c: Counters, spb: nat)
    ensures Freed(s, c, c, {}, spb)
  {
  }

  lemma FreedJoin(s: Store, c: Counters, c1: Counters, c2: Counters, a: set<Loc>, b: set<Loc>, spb: nat)
    requires Freed(s, c, c1, a, spb) && Freed(s, c1, c2, b, spb) && a !! b
    ensures Freed(s, c, c2, a + b, spb)
  {
    assert |a + b| == |a| + |b|;
    assert (|a| + |b|) * spb == |a| * spb + |b| * spb;
    assert Blocks(s, a + b) == Blocks(s, a) + Blocks(s, b);
  }

  lemma FreedOne(s: Store, c: Counters, c': Counters, loc: Loc, spb: nat)
    requires c'.used == c.used - {At(s, loc)} && c'.free == c.free + 1 && c'.sectors == c.sectors - spb
    ensures Freed(s, c, c', {loc}, spb)
  {
    assert Blocks(s, {loc}) == {At(s, loc)};
  }

  /** A block not among those freed so far is still in use. */
  lemma StillUsed(g: Geo, s: Store, live: set<Loc>, c: Counters, c': Counters, freed: set<Loc>, spb: nat, loc: Loc)
    requires Forest(g, s, live) && Freed(s, c, c', freed, spb) && freed <= live && loc in live && loc !in freed
    requires At(s, loc) in c.used
    ensures At(s, loc) in c'.used
  {
    hide At;
    assert At(s, loc) !in Blocks(s, freed);
  }

  /** What is left of a region after freeing locations outside it. */
  lemma RegionLeft(g: Geo, s: Store, live: set<Loc>, c: Counters, c': Counters, freed: set<Loc>, region: set<Loc>, all: set<Loc>, spb: nat)
    requires Forest(g, s, live) && Freed(s, c, c', freed, spb) && all <= live && freed !! region
    requires freed <= all && region <= all
    requires Blocks(s, all) <= c.used && |all| * spb <= c.sectors
    ensures Blocks(s, region) <= c'.used && |region| * spb <= c'.sectors
  {
    hide At;
    forall q | q in region ensures At(s, q) in c'.used {
      assert At(s, q) in Blocks(s, all);
      assert At(s, q) !in Blocks(s, freed);
    }
    SubsetSize(freed + region, all);
    assert |freed + region| == |freed| + |region|;
    MulMono(|freed| + |region|, |all|, spb);
    assert (|freed| + |region|) * spb == |freed| * spb + |region| * spb;
  }

  lemma {:induction false} SubsetSize(a: set<Loc>, b: set<Loc>)
    requires a <= b
    ensures |a| <= |b|
    decreases |a|
  {
    assert b == a + (b - a);
  }

  // ---- What is on disk ----

  /** The blocks of `region` are still as they were. */
  ghost predicate Intact(s: Store, disk: map<nat, Block>, region: set<Loc>) {
    forall q :: q in region ==> At(s, q) in s.disk && At(s, q) in disk && disk[At(s, q)] == s.disk[At(s, q)]
  }

  /** In `region`, index blocks that stay have lost just their pointers to file blocks at
      or above `keep`, and data blocks are as they were. */
  ghost predicate CutIn(g: Geo, s: Store, disk: map<nat, Block>, region: set<Loc>, keep: nat) {
    && (forall q {:trigger At(s, q)} :: q in region && ValidLoc(g, q) && Height(q) == 0 ==>
          At(s, q) in s.disk && At(s, q) in disk && disk[At(s, q)] == s.disk[At(s, q)])
    && (forall q, k: nat {:trigger Child(disk, At(s, q), k)} {:trigger Child(s.disk, At(s, q), k)} ::
          q in region && ValidLoc(g, q) && Height(q) > 0 && k < g.apb && ValidLoc(g, q + [k]) && Base(g, q) < keep ==>
            Child(disk, At(s, q), k) == if Base(g, q + [k]) >= keep then 0 else Child(s.disk, At(s, q), k))
  }

  ghost predicate SameElse(d: map<nat, Block>, d': map<nat, Block>, touched: set<nat>) {
    && d'.Keys == d.Keys
    && (forall b: nat :: b in d ==> |d'[b]| == |d[b]|)
    && forall b: nat :: b in d && b !in touched ==> d'[b] == d[b]
  }

  lemma SameElseThrough(d: map<nat, Block>, d1: map<nat, Block>, d2: map<nat, Block>, t: set<nat>, t1: set<nat>, t2: set<nat>)
    requires SameElse(d, d1, t) && SameElse(d1, d2, t1) && t <= t2 && t1 <= t2
    ensures SameElse(d, d2, t2)
  {
  }

  /** Work in one subtree does not show in another. */
  lemma RegionApart(g: Geo, s: Store, live: set<Loc>, d: map<nat, Block>, d': map<nat, Block>, region: set<Loc>, other: set<Loc>, keep: nat)
    requires Forest(g, s, live) && region <= live && other <= live && region !! other
    requires SameElse(d, d', Blocks(s, other))
    ensures Intact(s, d, region) ==> Intact(s, d', region)
    ensures CutIn(g, s, d, region, keep) ==> CutIn(g, s, d', region, keep)
  {
    hide At, Base;
    forall q | q in region ensures At(s, q) !in Blocks(s, other) {
    }
    assert forall q, k: nat :: q in region ==> Child(d', At(s, q), k) == Child(d, At(s, q), k);
  }

  lemma CutJoin(g: Geo, s: Store, d: map<nat, Block>, a: set<Loc>, b: set<Loc>, keep: nat)
    requires CutIn(g, s, d, a, keep) && CutIn(g, s, d, b, keep)
    ensures CutIn(g, s, d, a + b, keep)
  {
    hide At, Base, Child;
  }

  /** The part of a region at or above `keep`. */
  ghost function Beyond(g: Geo, region: set<Loc>, keep: nat): set<Loc> {
    set q | q in region && ValidLoc(g, q) && Base(g, q) >= keep
  }

  lemma BeyondJoin(g: Geo, a: set<Loc>, b: set<Loc>, keep: nat)
    ensures Beyond(g, a + b, keep) == Beyond(g, a, keep) + Beyond(g, b, keep)
    ensures Beyond(g, a, keep) <= a && Beyond(g, b, keep) <= b
  {
  }

  /** A subtree that starts at or above `keep` goes as a whole. */
  lemma AllBeyond(g: Geo, s: Store, live: set<Loc>, d: map<nat, Block>, loc: Loc, keep: nat)
    requires Forest(g, s, live) && ValidLoc(g, loc) && Base(g, loc) >= keep && Intact(s, d, Under(live, loc))
    ensures Beyond(g, Under(live, loc), keep) == Under(live, loc)
    ensures CutIn(g, s, d, Under(live, loc), keep)
  {
    hide At, Base, Child, Span;
    forall q | q in Under(live, loc) ensures Base(g, q) >= keep {
      Covers(g, loc, q);
    }
  }

  /** A subtree that ends at or below `keep` stays as a whole. */
  lemma NoneBeyond(g: Geo, s: Store, live: set<Loc>, d: map<nat, Block>, loc: Loc, keep: nat)
    requires Forest(g, s, live) && ValidLoc(g, loc) && Base(g, loc) + Span(g, Height(loc)) <= keep
    requires g.apb > 0 && Intact(s, d, Under(live, loc))
    ensures Beyond(g, Under(live, loc), keep) == {}
    ensures CutIn(g, s, d, Under(live, loc), keep)
  {
    hide At, Base, Span;
    forall q: Loc | ValidLoc(g, q) && loc <= q ensures Base(g, q) < keep {
      Covers(g, loc, q);
      SpanPositive(g, Height(q));
    }
    forall q, k: nat | q in Under(live, loc) && ValidLoc(g, q + [k]) ensures Base(g, q + [k]) < keep {
      assert loc <= q + [k];
    }
  }

  lemma {:induction false} SpanPositive(g: Geo, h: nat)
    requires g.apb > 0
    ensures Span(g, h) > 0
  {
    if h > 0 {
      SpanPositive(g, h - 1);
    }
  }

  /** The child subtrees of an index block that is still whole. */
  lemma ChildFacts(g: Geo, s: Store, live: set<Loc>, disk: map<nat, Block>, loc: Loc, i: nat)
    requires WellFormed(g, s) && Forest(g, s, live) && ValidLoc(g, loc) && loc in live && Height(loc) > 0 && i < g.apb
    ensures ValidLoc(g, loc + [i]) && Height(loc + [i]) == Height(loc) - 1 && (loc + [i])[0] == loc[0]
    ensures At(s, loc + [i]) == Child(s.disk, At(s, loc), i)
    ensures Under(live, loc + [i]) <= Under(live, loc) <= live && UnderBelow(live, loc, i) <= Under(live, loc)
    ensures loc in Under(live, loc) && loc !in Under(live, loc + [i]) && UnderBelow(live, loc, i) !! Under(live, loc + [i])
    ensures Intact(s, disk, Under(live, loc)) ==> Intact(s, disk, Under(live, loc + [i]))
    ensures Intact(s, disk, Under(live, loc)) ==> Child(disk, At(s, loc), i) == Child(s.disk, At(s, loc), i)
    ensures Intact(s, disk, {loc}) ==> Child(disk, At(s, loc), i) == Child(s.disk, At(s, loc), i)
  {
    ChildValid(g, loc, i);
    UnderNext(live, loc, i, i + 1);
    assert At(s, loc + [i]) == Child(s.disk, At(s, loc), i);
  }

  // ---- What can be freed when index blocks cannot be copied ----

  /** Location `p` of a region is cut off from free_tree: it lies below an index block of the region
      for whose copy there is no memory. */
  ghost predicate Stranded(s: Store, region: set<Loc>, nomem: set<nat>, p: Loc) {
    exists q :: q in region && q < p && At(s, q) in nomem
  }

  ghost function Freeable(s: Store, region: set<Loc>, nomem: set<nat>): (r: set<Loc>)
    ensures r <= region
  {
    set p | p in region && !Stranded(s, region, nomem, p)
  }

  /** Neither region has a location above one of the other. */
  ghost predicate Unrelated(a: set<Loc>, b: set<Loc>) {
    forall p, q :: p in a && q in b ==> !(p < q) && !(q < p)
  }

  lemma FreeableJoin(s: Store, a: set<Loc>, b: set<Loc>, nomem: set<nat>)
    requires Unrelated(a, b)
    ensures Freeable(s, a + b, nomem) == Freeable(s, a, nomem) + Freeable(s, b, nomem)
  {
    hide At;
    forall p | p in a + b
      ensures p in a ==> (Stranded(s, a + b, nomem, p) <==> Stranded(s, a, nomem, p))
      ensures p in b ==> (Stranded(s, a + b, nomem, p) <==> Stranded(s, b, nomem, p))
    {
    }
  }

  lemma UnrelatedPart(a: set<Loc>, b: set<Loc>, a': set<Loc>, b': set<Loc>)
    requires Unrelated(a, b) && a' <= a && b' <= b
    ensures Unrelated(a', b')
  {
  }

  lemma UnrelatedChildren(live: set<Loc>, loc: Loc, i: nat)
    ensures Unrelated(UnderBelow(live, loc, i), Under(live, loc + [i]))
  {
    forall p, q | p in UnderBelow(live, loc, i) && q in Under(live, loc + [i]) ensures !(p < q) && !(q < p) {
      ChildPrefix(loc, i, q);
      assert p[|loc|] != q[|loc|];
    }
  }

  lemma NothingRelated(a: set<Loc>)
    ensures Unrelated(a, {})
  {
  }

  /** Nothing lies below a data block. */
  lemma LeafBelow(g: Geo, s: Store, live: set<Loc>, loc: Loc)
    requires Forest(g, s, live) && loc in live && ValidLoc(g, loc) && Height(loc) == 0
    ensures UnderBelow(live, loc, g.apb) == {}
  {
    UnderLeaf(g, s, live, loc);
    UnderAll(g, s, live, loc);
  }

  lemma FreeableNone(s: Store, nomem: set<nat>)
    ensures Freeable(s, {}, nomem) == {}
  {
  }

  /** A block, and below it nothing when it is an index block without a copy, else all that can be
      freed below its pointers. */
  lemma FreeableIndex(g: Geo, s: Store, live: set<Loc>, loc: Loc, nomem: set<nat>)
    requires Forest(g, s, live) && ValidLoc(g, loc) && loc in live
    ensures Freeable(s, Under(live, loc), nomem) ==
            {loc} + if At(s, loc) in nomem then {} else Freeable(s, UnderBelow(live, loc, g.apb), nomem)
  {
    hide At, Forest, ValidLoc;
    UnderAll(g, s, live, loc);
    var below := UnderBelow(live, loc, g.apb);
    forall p | p in Under(live, loc)
      ensures p == loc ==> !Stranded(s, Under(live, loc), nomem, p)
      ensures p != loc && At(s, loc) in nomem ==> Stranded(s, Under(live, loc), nomem, p)
      ensures p != loc && At(s, loc) !in nomem ==> (Stranded(s, Under(live, loc), nomem, p) <==> Stranded(s, below, nomem, p))
    {
      assert loc <= p;
    }
  }

  /** The removed index block at `q` has no copy, and its pointer `k` leads to a removed block. */
  ghost predicate Strands(s: Store, gone: set<Loc>, nomem: set<nat>, q: Loc, k: nat) {
    q in gone && At(s, q) in nomem && q + [k] in gone
  }

  /** Every removed block is freed if and only if no removed index block without a copy points to
      a block. */
  lemma FreeableIff(g: Geo, s: Store, live: set<Loc>, ino: nat, keep: nat, nomem: set<nat>)
    requires WellFormed(g, s) && Forest(g, s, live)
    ensures var gone := Beyond(g, UnderBelow(live, [ino], NSLOTS), keep);
            Freeable(s, gone, nomem) == gone <==> forall q: Loc, k: nat :: !Strands(s, gone, nomem, q, k)
  {
    hide At, Base, ValidLoc, Forest, Beyond, UnderBelow;
    var gone := Beyond(g, UnderBelow(live, [ino], NSLOTS), keep);
    forall q: Loc, k: nat | Strands(s, gone, nomem, q, k) ensures Freeable(s, gone, nomem) != gone {
      assert q < q + [k];
      assert Stranded(s, gone, nomem, q + [k]);
      assert q + [k] !in Freeable(s, gone, nomem);
    }
    forall p | p in gone && Stranded(s, gone, nomem, p) ensures exists q: Loc, k: nat :: Strands(s, gone, nomem, q, k) {
      var q :| q in gone && q < p && At(s, q) in nomem;
      ChildBelow(g, s, live, ino, keep, q, p);
      assert Strands(s, gone, nomem, q, p[|q|]);
    }
  }

  /** Between a removed location and one above it lies the whole path. */
  lemma ChildBelow(g: Geo, s: Store, live: set<Loc>, ino: nat, keep: nat, q: Loc, p: Loc)
    requires WellFormed(g, s) && Forest(g, s, live)
    requires q in Beyond(g, UnderBelow(live, [ino], NSLOTS), keep) && p in Beyond(g, UnderBelow(live, [ino], NSLOTS), keep) && q < p
    ensures q + [p[|q|]] in Beyond(g, UnderBelow(live, [ino], NSLOTS), keep)
  {
    hide At, Base, Span, WellFormed;
    var c := q + [p[|q|]];
    assert p[..|q| + 1] == c;
    PathValid(g, s, live, q, p);
    PrefixLive(g, s, live, c, p);
    Covers(g, q, c);
  }

  lemma PathValid(g: Geo, s: Store, live: set<Loc>, q: Loc, p: Loc)
    requires Forest(g, s, live) && q in live && p in live && q < p
    ensures ValidLoc(g, q + [p[|q|]])
  {
    hide At;
    assert ValidLoc(g, p) && ValidLoc(g, q);
  }

  // ---- Progress of a truncation over a region ----

  /** What a truncation to `keep` frees of a region. */
  ghost function Cleared(g: Geo, s: Store, region: set<Loc>, keep: nat, nomem: set<nat>): (r: set<Loc>)
    ensures r <= Beyond(g, region, keep)
  {
    Freeable(s, Beyond(g, region, keep), nomem)
  }

  /** From disk d and counters c to d' and c', all of `region` at or above `keep` is cut off:
      just the blocks that can be freed are freed, and nothing outside is touched. */
  ghost predicate Progress(g: Geo, spb: nat, s: Store, d: map<nat, Block>, d': map<nat, Block>, c: Counters, c': Counters,
                           region: set<Loc>, keep: nat, nomem: set<nat>) {
    && Freed(s, c, c', Cleared(g, s, region, keep, nomem), spb)
    && SameElse(d, d', Blocks(s, region)) && CutIn(g, s, d', region, keep)
  }

  lemma ProgressNone(g: Geo, spb: nat, s: Store, d: map<nat, Block>, c: Counters, keep: nat, nomem: set<nat>)
    ensures Progress(g, spb, s, d, d, c, c, {}, keep, nomem)
  {
    assert Beyond(g, {}, keep) == {};
    FreeableNone(s, nomem);
  }

  /** A region that has nothing at or above `keep` needs no work. */
  lemma ProgressSkip(g: Geo, spb: nat, s: Store, d: map<nat, Block>, c: Counters, region: set<Loc>, keep: nat, nomem: set<nat>)
    requires Beyond(g, region, keep) == {} && CutIn(g, s, d, region, keep)
    ensures Progress(g, spb, s, d, d, c, c, region, keep, nomem)
  {
    hide CutIn, Beyond, Blocks;
    FreedNone(s, c, spb);
    FreeableNone(s, nomem);
  }

  lemma ProgressJoin(g: Geo, spb: nat, s: Store, live: set<Loc>, d: map<nat, Block>, d1: map<nat, Block>, d2: map<nat, Block>,
                     c: Counters, c1: Counters, c2: Counters, a: set<Loc>, b: set<Loc>, keep: nat, nomem: set<nat>)
    requires Forest(g, s, live) && a <= live && b <= live && a !! b && Unrelated(Beyond(g, a, keep), Beyond(g, b, keep))
    requires Progress(g, spb, s, d, d1, c, c1, a, keep, nomem) && Progress(g, spb, s, d1, d2, c1, c2, b, keep, nomem)
    ensures Progress(g, spb, s, d, d2, c, c2, a + b, keep, nomem)
  {
    hide CutIn, Beyond, Freed, SameElse, Forest, Blocks, Freeable, Unrelated;
    BeyondJoin(g, a, b, keep);
    FreeableJoin(s, Beyond(g, a, keep), Beyond(g, b, keep), nomem);
    FreedJoin(s, c, c1, c2, Cleared(g, s, a, keep, nomem), Cleared(g, s, b, keep, nomem), spb);
    RegionApart(g, s, live, d1, d2, a, b, keep);
    CutJoin(g, s, d2, a, b, keep);
    BlocksJoin(s, a, b);
    SameElseThrough(d, d1, d2, Blocks(s, a), Blocks(s, b), Blocks(s, a + b));
  }

  /** The regions of the loops over pointers may be joined. */
  lemma JoinChild(g: Geo, live: set<Loc>, loc: Loc, i: nat, keep: nat)
    ensures Unrelated(Beyond(g, UnderBelow(live, loc, i), keep), Beyond(g, Under(live, loc + [i]), keep))
  {
    hide Under, UnderBelow, Unrelated;
    UnrelatedChildren(live, loc, i);
    BeyondJoin(g, UnderBelow(live, loc, i), Under(live, loc + [i]), keep);
    UnrelatedPart(UnderBelow(live, loc, i), Under(live, loc + [i]), Beyond(g, UnderBelow(live, loc, i), keep), Beyond(g, Under(live, loc + [i]), keep));
  }

  lemma BlocksJoin(s: Store, a: set<Loc>, b: set<Loc>)
    ensures Blocks(s, a) <= Blocks(s, a + b) && Blocks(s, b) <= Blocks(s, a + b)
  {
  }

  /** What is left to do in a region is untouched by work elsewhere. */
  lemma ProgressLeft(g: Geo, spb: nat, s: Store, live: set<Loc>, d: map<nat, Block>, d': map<nat, Block>, c: Counters, c': Counters,
                     done: set<Loc>, todo: set<Loc>, all: set<Loc>, keep: nat, nomem: set<nat>)
    requires Forest(g, s, live) && all <= live && done <= all && todo <= all && done !! todo
    requires Progress(g, spb, s, d, d', c, c', done, keep, nomem)
    requires Intact(s, d, all) && Blocks(s, all) <= c.used && |all| * spb <= c.sectors
    ensures Intact(s, d', todo) && Blocks(s, todo) <= c'.used && |todo| * spb <= c'.sectors
  {
    hide CutIn, Freed, SameElse, Forest, Blocks, At;
    BeyondJoin(g, done, {}, keep);
    assert done + {} == done;
    IntactPart(s, d, all, todo);
    RegionApart(g, s, live, d, d', todo, done, keep);
    RegionLeft(g, s, live, c, c', Cleared(g, s, done, keep, nomem), todo, all, spb);
  }

  lemma IntactPart(s: Store, d: map<nat, Block>, all: set<Loc>, part: set<Loc>)
    requires Intact(s, d, all) && part <= all
    ensures Intact(s, d, part)
  {
  }

  // ---- The pointers of one index block ----

  /** The local copy of an index block after its first `i` children have been dealt with. */
  ghost predicate PtrsCut(g: Geo, loc: Loc, was: Block, ptrs: Block, keep: nat, i: nat) {
    && |ptrs| == |was| == g.BlockSize() && ValidLoc(g, loc) && Height(loc) > 0
    && forall k: nat :: k < g.apb ==>
         Ptr(ptrs, k) == if k < i && ValidLoc(g, loc + [k]) && Base(g, loc + [k]) >= keep then 0 else Ptr(was, k)
  }

  lemma PtrsStart(g: Geo, loc: Loc, was: Block, keep: nat)
    requires |was| == g.BlockSize() && ValidLoc(g, loc) && Height(loc) > 0
    ensures PtrsCut(g, loc, was, was, keep, 0)
  {
  }

  lemma PtrsKeep(g: Geo, loc: Loc, was: Block, ptrs: Block, keep: nat, i: nat, i': nat)
    requires PtrsCut(g, loc, was, ptrs, keep, i) && i < g.apb && i' == i + 1
    requires ValidLoc(g, loc + [i]) && (Base(g, loc + [i]) < keep || Ptr(was, i) == 0)
    ensures PtrsCut(g, loc, was, ptrs, keep, i')
  {
    hide Ptr, Base;
  }

  lemma PtrsDrop(g: Geo, loc: Loc, was: Block, ptrs: Block, keep: nat, i: nat, i': nat)
    requires PtrsCut(g, loc, was, ptrs, keep, i) && i < g.apb && i' == i + 1
    requires ValidLoc(g, loc + [i]) && Base(g, loc + [i]) >= keep
    ensures PtrsCut(g, loc, was, WithPtr(ptrs, i, 0), keep, i')
  {
    hide Ptr, Base, WithPtr;
    forall k: nat | k < g.apb
      ensures Ptr(WithPtr(ptrs, i, 0), k) == if k == i then 0 else Ptr(ptrs, k)
    {
      PtrRoundTrip(ptrs, i, 0, k);
    }
  }

  /** Writing the finished copy back cuts the index block itself. */
  lemma IndexWritten(g: Geo, spb: nat, s: Store, live: set<Loc>, d: map<nat, Block>, c: Counters, loc: Loc, ptrs: Block, keep: nat, nomem: set<nat>)
    requires WellFormed(g, s) && Forest(g, s, live) && loc in live && Base(g, loc) < keep
    requires At(s, loc) in d && |d[At(s, loc)]| == g.BlockSize()
    requires PtrsCut(g, loc, s.disk[At(s, loc)], ptrs, keep, g.apb)
    ensures Progress(g, spb, s, d, d[At(s, loc) := ptrs], c, c, {loc}, keep, nomem) && Beyond(g, {loc}, keep) == {}
  {
    hide Base;
    var b := At(s, loc);
    FreedNone(s, c, spb);
    assert Blocks(s, {loc}) == {b};
    assert Beyond(g, {loc}, keep) == {};
    FreeableNone(s, nomem);
  }
}

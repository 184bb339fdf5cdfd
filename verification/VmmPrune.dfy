/** What vmm_prune_tables and vmm_destroy_address_space rest on (kernel/mm/vmm.c:264-292, 413-462). */
module VmmPrune {
  import opened PageTables
  import opened Vmm

  /** The last-level table on the way to a page, if there is one, holds something. */
  ghost predicate PtUsed(mem: Mem, root: nat, v: nat)
    requires v < Pages
  {
    Node(mem, root, P3(v)).Some? ==> exists j :: 0 <= j < 512 && EntryAt(mem, root, P3(v), j) != Absent
  }

  /** Pruning loses no translation, adds no table, and leaves used tables as they are. */
  ghost predicate Shrunk(mem: Mem, m: Mem, root: nat) {
    && (forall v :: 0 <= v < Pages ==> Tr(m, root, v) == Tr(mem, root, v))
    && (forall q: Path {:trigger Node(m, root, q)} :: |q| <= 3 && Node(m, root, q).Some? ==> Node(m, root, q) == Node(mem, root, q))
    && (forall v :: 0 <= v < Pages && PtUsed(mem, root, v) ==> PtUsed(m, root, v))
    && OnlyEmpty(mem, m, root)
  }

  /** An entry that held nothing, or a table that is gone now. */
  predicate Idle(e: Entry, gone: set<nat>) {
    e == Absent || (e.Sub? && e.t in gone)
  }

  /** The frames given back were tables of this tree that mapped nothing: their entries are not
      present or lead to tables that go as well. In the tables that stay just the entries of
      tables that go have been cleared. */
  ghost predicate OnlyEmpty(mem: Mem, m: Mem, root: nat) {
    var gone := mem.Keys - m.Keys;
    && m.Keys <= mem.Keys
    && (forall f :: f in gone ==> WasTable(mem, root, f) && forall i :: 0 <= i < |mem[f]| ==> Idle(mem[f][i], gone))
    && (forall f :: f in m ==> |m[f]| == |mem[f]|)
    && (forall f, i :: f in m && 0 <= i < |m[f]| ==> m[f][i] == mem[f][i] || (m[f][i] == Absent && Idle(mem[f][i], gone)))
  }

  /** A table other than the PML4. */
  ghost predicate WasTable(mem: Mem, root: nat, f: nat) {
    exists q: Path :: 1 <= |q| <= 3 && Node(mem, root, q) == Some(f)
  }

  lemma OnlyEmptyTrans(a: Mem, b: Mem, c: Mem, root: nat)
    requires OnlyEmpty(a, b, root) && OnlyEmpty(b, c, root)
    requires forall q: Path {:trigger Node(b, root, q)} :: |q| <= 3 && Node(b, root, q).Some? ==> Node(b, root, q) == Node(a, root, q)
    ensures OnlyEmpty(a, c, root)
  {
    hide Node;
    var ab, bc, ac := a.Keys - b.Keys, b.Keys - c.Keys, a.Keys - c.Keys;
    assert ab <= ac && bc <= ac;
    forall f | f in ac ensures WasTable(a, root, f) && forall i :: 0 <= i < |a[f]| ==> Idle(a[f][i], ac) {
      if f in b {
        assert f in bc;
        var q: Path :| 1 <= |q| <= 3 && Node(b, root, q) == Some(f);
        assert Node(a, root, q) == Some(f);
        forall i | 0 <= i < |a[f]| ensures Idle(a[f][i], ac) {
          assert Idle(b[f][i], bc);
        }
      } else {
        assert f in ab;
      }
    }
    forall f, i | f in c && 0 <= i < |c[f]| ensures c[f][i] == a[f][i] || (c[f][i] == Absent && Idle(a[f][i], ac)) {
      assert f in b;
    }
  }

  lemma PrunedOnlyEmpty(mem: Mem, root: nat, p: Path, f: nat, i: nat)
    requires CanPrune(mem, root, p, f, i)
    ensures OnlyEmpty(mem, Pruned(mem, f, i), root)
  {
    PrunedWasTable(mem, root, p, f, i);
    NodeStep(mem, root, p, i);
    var t := mem[f][i].t;
    assert Node(mem, root, p + [i]) == Some(t);
    assert mem.Keys - Pruned(mem, f, i).Keys == {t};
  }

  lemma ShrunkRefl(mem: Mem, root: nat)
    ensures Shrunk(mem, mem, root)
  {
    hide Tr, Node, PtUsed;
  }

  lemma ShrunkTrans(a: Mem, b: Mem, c: Mem, root: nat)
    requires Shrunk(a, b, root) && Shrunk(b, c, root)
    ensures Shrunk(a, c, root)
  {
    hide Tr, Node, PtUsed, OnlyEmpty;
    OnlyEmptyTrans(a, b, c, root);
    forall q: Path | |q| <= 3 && Node(c, root, q).Some? ensures Node(c, root, q) == Node(a, root, q) {
      assert Node(b, root, q) == Node(c, root, q);
    }
  }

  lemma PrunedShrunk(mem: Mem, root: nat, p: Path, f: nat, i: nat)
    requires CanPrune(mem, root, p, f, i)
    ensures var m := Pruned(mem, f, i); Tree(m, root) && Shrunk(mem, m, root) && Node(m, root, p + [i]) == None && m.Keys == mem.Keys - {mem[f][i].t}
  {
    hide Tree, Node, Tr, EntryAt, OnlyEmpty;
    var m := Pruned(mem, f, i);
    PrunedOnlyEmpty(mem, root, p, f, i);
    PrunedEntries(mem, root, p, f, i);
    PrunedWasTable(mem, root, p, f, i);
    assert SameLeaves(mem, m, root);
    SameLeavesTr(mem, m, root);
    forall v: nat | v < Pages && PtUsed(mem, root, v) ensures PtUsed(m, root, v) {
      if Node(m, root, P3(v)).Some? {
        var j: nat :| j < 512 && EntryAt(mem, root, P3(v), j) != Absent;
        assert EntryAt(m, root, P3(v), j) != Absent;
      }
    }
  }

  lemma PrunedWasTable(mem: Mem, root: nat, p: Path, f: nat, i: nat)
    requires CanPrune(mem, root, p, f, i)
    ensures EntryAt(mem, root, p, i).Sub? && f != mem[f][i].t
  {
    NodeStep(mem, root, p, i);
    assert p != p + [i];
  }

  // ---- Which pages a missing table covers ----

  lemma NoneInMib(mem: Mem, root: nat, v: nat)
    requires v < Pages
    ensures forall w :: 0 <= w < Pages && w / Mib2 == v / Mib2 ==> P3(w) == P3(v)
  {
    hide I1, I2, I3, I4;
    forall w: nat | w < Pages && w / Mib2 == v / Mib2 ensures P3(w) == P3(v) {
      SamePage(v, w);
      Digits(v);
      Digits(w);
    }
  }

  lemma NoneInGib(mem: Mem, root: nat, v: nat)
    requires v < Pages && Node(mem, root, P2(v)) == None
    ensures forall w :: 0 <= w < Pages && w / Gib == v / Gib ==> Node(mem, root, P3(w)) == None
  {
    hide I1, I2, I3, I4, Node;
    forall w: nat | w < Pages && w / Gib == v / Gib ensures Node(mem, root, P3(w)) == None {
      SamePage(v, w);
      assert P2(w) == P2(v);
      BelowNone(mem, root, w);
    }
  }

  const Pml4: nat := 134217728            // pages below one PML4 entry: 512 ^ 3
  const UserHalf: nat := 34359738368      // pages of the lower half: 256 * 512 ^ 3

  lemma NoneInPml4(mem: Mem, root: nat, v: nat)
    requires v < Pages && Node(mem, root, P1(v)) == None
    ensures forall w :: 0 <= w < Pages && w / Pml4 == v / Pml4 ==> Node(mem, root, P3(w)) == None
  {
    hide Node;
    forall w: nat | w < Pages && w / Pml4 == v / Pml4 ensures Node(mem, root, P3(w)) == None {
      assert P1(w) == P1(v);
      BelowNone(mem, root, w);
    }
  }

  /** The next multiple of `d`, as the skips of the loop compute it. */
  function NextRun(v: nat, d: nat): (n: nat)
    requires d > 0
    ensures n > v
  {
    assert v == v / d * d + v % d;
    assert (v / d + 1) * d == v / d * d + d;
    (v / d + 1) * d
  }

  lemma RunEnd(v: nat)
    ensures NextRun(v, Gib) % Mib2 == 0 && NextRun(v, Pml4) % Mib2 == 0
  {
    assert NextRun(v, Gib) == (v / Gib + 1) * 512 * Mib2;
    assert NextRun(v, Pml4) == (v / Pml4 + 1) * 262144 * Mib2;
  }

  lemma RunOf(v: nat, w: nat, d: nat)
    requires d > 0 && v <= w < NextRun(v, d)
    ensures w / d == v / d
  {
    var q, r := v / d, v % d;
    assert v == q * d + r && NextRun(v, d) == q * d + d;
    var s, u := w / d, w % d;
    assert w == s * d + u;
    if s < q {
      MulStep(s + 1, q, d);
    } else if s > q {
      MulStep(q + 1, s, d);
    }
  }

  lemma MulStep(a: nat, b: nat, d: nat)
    requires a <= b
    ensures a * d <= b * d
  {
  }

  // ---- One round of vmm_prune_tables ----

  lemma SubTable(mem: Mem, root: nat, p: Path, f: nat, i: nat)
    requires Tree(mem, root) && |p| <= 2 && Node(mem, root, p) == Some(f) && i < 512 && f in mem && |mem[f]| == 512 && mem[f][i].Sub?
    ensures Node(mem, root, p + [i]) == Some(mem[f][i].t) && mem[f][i].t in mem && |mem[mem[f][i].t]| == 512
    ensures EmptyTable(mem[mem[f][i].t]) ==> CanPrune(mem, root, p, f, i)
  {
    NodeStep(mem, root, p, i);
    assert TableOk(mem, p + [i], mem[f][i].t);
  }

  /** A last-level table that is still there holds something. */
  lemma UsedHere(mem: Mem, root: nat, v: nat, f: nat)
    requires Tree(mem, root) && v < Pages && Node(mem, root, P3(v)) == Some(f) && f in mem && |mem[f]| == 512 && !EmptyTable(mem[f])
    ensures forall w :: 0 <= w < Pages && w / Mib2 == v / Mib2 ==> PtUsed(mem, root, w)
  {
    hide I1, I2, I3, I4;
    NoneInMib(mem, root, v);
    var j :| 0 <= j < 512 && mem[f][j] != Absent;
    assert EntryAt(mem, root, P3(v), j) == mem[f][j];
  }

  lemma GoneHere(mem: Mem, root: nat, v: nat)
    requires v < Pages && Node(mem, root, P3(v)) == None
    ensures forall w :: 0 <= w < Pages && w / Mib2 == v / Mib2 ==> PtUsed(mem, root, w)
  {
    hide I1, I2, I3, I4, Node;
    NoneInMib(mem, root, v);
  }

  // ---- Destroying: which tables and pages have been passed ----

  /** A page and the frame that its 4 KiB entry held. */
  datatype Drop = Drop(page: nat, pfn: nat)

  /** The frame to release for a page: that of its 4 KiB entry, when it is one of the frames `ram` that
      are counted (not reserved, and not outside memory). */
  ghost function Small(mem: Mem, root: nat, ram: set<nat>, v: nat): (r: Option<nat>)
    requires v < Pages
  {
    var e := EntryAt(mem, root, P3(v), I1(v));
    if e.Leaf? && e.pfn in ram then Some(e.pfn) else None
  }

  /** `d` lists each 4 KiB mapping of the pages from lo up to hi exactly once. */
  ghost predicate Exact(mem: Mem, root: nat, ram: set<nat>, d: seq<Drop>, lo: nat, hi: nat)
    requires hi <= Pages
  {
    && (forall a, b :: 0 <= a < b < |d| ==> d[a].page < d[b].page)
    && (forall k :: 0 <= k < |d| ==> lo <= d[k].page < hi && Small(mem, root, ram, d[k].page) == Some(d[k].pfn))
    && (forall v :: lo <= v < hi && Small(mem, root, ram, v).Some? ==> Drop(v, Small(mem, root, ram, v).value) in d)
  }

  lemma ExactJoin(mem: Mem, root: nat, ram: set<nat>, d: seq<Drop>, e: seq<Drop>, lo: nat, mid: nat, hi: nat)
    requires lo <= mid <= hi <= Pages && Exact(mem, root, ram, d, lo, mid) && Exact(mem, root, ram, e, mid, hi)
    ensures Exact(mem, root, ram, d + e, lo, hi)
  {
    hide Small;
  }

  lemma ExactNone(mem: Mem, root: nat, ram: set<nat>, lo: nat, hi: nat)
    requires lo <= hi <= Pages && forall v :: lo <= v < hi ==> Small(mem, root, ram, v) == None
    ensures Exact(mem, root, ram, [], lo, hi)
  {
  }

  lemma ExactOne(mem: Mem, root: nat, ram: set<nat>, v: nat, pfn: nat)
    requires v < Pages && Small(mem, root, ram, v) == Some(pfn)
    ensures Exact(mem, root, ram, [Drop(v, pfn)], v, v + 1)
  {
    hide Small;
  }

  /** The tables that the nested loops have freed when they stand at entry k of table [i, j]. */
  predicate Passed(p: Path, i: nat, j: nat, k: nat) {
    1 <= |p| <= 3 && (p[0] < i || (p[0] == i && |p| >= 2 && (p[1] < j || (p[1] == j && |p| == 3 && p[2] < k))))
  }

  /** `ps` lists the paths of these tables, each once, and `fr` their frames. */
  ghost predicate FreedTo(mem: Mem, root: nat, fr: seq<nat>, ps: seq<Path>, i: nat, j: nat, k: nat) {
    && |fr| == |ps|
    && (forall a :: 0 <= a < |ps| ==> Passed(ps[a], i, j, k) && Node(mem, root, ps[a]) == Some(fr[a]))
    && (forall a, b :: 0 <= a < b < |ps| ==> ps[a] != ps[b])
    && (forall p: Path {:trigger Node(mem, root, p)} :: Passed(p, i, j, k) && Node(mem, root, p).Some? ==> p in ps)
  }

  /** Moving on past entries that hold no table. */
  lemma FreedSkip(mem: Mem, root: nat, fr: seq<nat>, ps: seq<Path>, i: nat, j: nat, k: nat, i': nat, j': nat, k': nat)
    requires FreedTo(mem, root, fr, ps, i, j, k)
    requires forall p: Path :: Passed(p, i, j, k) ==> Passed(p, i', j', k')
    requires forall p: Path {:trigger Node(mem, root, p)} :: Passed(p, i', j', k') && Node(mem, root, p).Some? ==> Passed(p, i, j, k)
    ensures FreedTo(mem, root, fr, ps, i', j', k')
  {
    hide Node, Passed;
  }

  lemma FreedAdd(mem: Mem, root: nat, fr: seq<nat>, ps: seq<Path>, q: Path, f: nat, i: nat, j: nat, k: nat, i': nat, j': nat, k': nat)
    requires FreedTo(mem, root, fr, ps, i, j, k) && Node(mem, root, q) == Some(f) && !Passed(q, i, j, k) && Passed(q, i', j', k')
    requires forall p: Path :: Passed(p, i, j, k) ==> Passed(p, i', j', k')
    requires forall p: Path {:trigger Node(mem, root, p)} :: Passed(p, i', j', k') && Node(mem, root, p).Some? ==> p == q || Passed(p, i, j, k)
    ensures FreedTo(mem, root, fr + [f], ps + [q], i', j', k')
  {
    hide Node, Passed;
    forall p: Path | Passed(p, i', j', k') && Node(mem, root, p).Some? ensures p in ps + [q] {
      if p != q {
        assert p in ps;
      }
    }
    forall a | 0 <= a < |ps| ensures ps[a] != q {
      assert Passed(ps[a], i, j, k);
    }
  }

  /** A table that the loops have not passed has not been freed. */
  lemma NotFreed(mem: Mem, root: nat, fr: seq<nat>, ps: seq<Path>, i: nat, j: nat, k: nat, q: Path, f: nat)
    requires Tree(mem, root) && FreedTo(mem, root, fr, ps, i, j, k) && |q| <= 3 && Node(mem, root, q) == Some(f) && !Passed(q, i, j, k)
    ensures f !in fr
  {
    forall a | 0 <= a < |fr| ensures fr[a] != f {
      assert Passed(ps[a], i, j, k) && Node(mem, root, ps[a]) == Some(fr[a]);
    }
  }

  lemma FreedDistinct(mem: Mem, root: nat, fr: seq<nat>, ps: seq<Path>, i: nat, j: nat, k: nat)
    requires Tree(mem, root) && FreedTo(mem, root, fr, ps, i, j, k)
    ensures forall a, b :: 0 <= a < b < |fr| ==> fr[a] != fr[b]
  {
    forall a, b | 0 <= a < b < |fr| ensures fr[a] != fr[b] {
      assert ps[a] != ps[b] && Node(mem, root, ps[a]) == Some(fr[a]) && Node(mem, root, ps[b]) == Some(fr[b]);
    }
  }

  /** Indices on the way to a table are below 512. */
  lemma {:induction false} NodeBounds(mem: Mem, root: nat, p: Path)
    requires Tree(mem, root) && |p| <= 3 && Node(mem, root, p).Some?
    ensures forall a :: 0 <= a < |p| ==> p[a] < 512
    decreases |p|
  {
    if p != [] {
      var u := p[..|p| - 1];
      NodeBounds(mem, root, u);
      assert TableOk(mem, u, Node(mem, root, u).value);
      forall a | 0 <= a < |p| ensures p[a] < 512 {
        if a < |p| - 1 {
          assert p[a] == u[a];
        }
      }
    }
  }

  // ---- The pages below an entry ----

  /** The first page below entry k of table [i, j]. */
  function First(i: nat, j: nat, k: nat): (v: nat) {
    i * 134217728 + j * 262144 + k * 512
  }

  lemma FirstNext(i: nat, j: nat, k: nat)
    ensures First(i, j, k) + 512 == First(i, j, k + 1) && First(i, j, 512) == First(i, j + 1, 0) && First(i, 512, 0) == First(i + 1, 0, 0)
    ensures i == 0 ==> First(i, 0, 0) == 0
    ensures i == 256 ==> First(i, 0, 0) == UserHalf
    ensures First(i, 0, 0) <= First(i, j, 0) <= First(i, j, k) && First(i, j, 0) <= First(i, j + 1, 0) && First(i, 0, 0) <= First(i + 1, 0, 0)
  {
  }

  lemma FirstBound(i: nat, j: nat, k: nat)
    requires (i < 512 && j < 512 && k <= 512) || (i < 512 && j == 512 && k == 0)
    ensures First(i, j, k) <= Pages
  {
    var a := i * 512 + j;
    var b := a * 512 + k;
    assert First(i, j, k) == b * 512;
    assert a <= 512 * 512;
    assert j < 512 ==> a < 512 * 512;
    assert b <= 512 * 512 * 512;
  }

  lemma PageOf(i: nat, j: nat, k: nat, m: nat)
    requires i < 512 && j < 512 && k < 512 && m < 512
    ensures var v := First(i, j, k) + m; v < Pages && P3(v) == [i, j, k] && I1(v) == m
  {
    var v := First(i, j, k) + m;
    var a := i * 512 + j;
    var b := a * 512 + k;
    assert v == b * 512 + m;
    assert v / 512 == b && v % 512 == m;
    assert b / 512 == a && b % 512 == k;
    assert v / Gib == a && a / 512 == i && a % 512 == j;
    assert v / 134217728 == i;
  }

  lemma SmallIs(mem: Mem, root: nat, ram: set<nat>, i: nat, j: nat, k: nat, f: nat, m: nat)
    requires Tree(mem, root) && i < 512 && j < 512 && k < 512 && m < 512 && Node(mem, root, [i, j, k]) == Some(f)
    ensures First(i, j, k) + m < Pages && f in mem && |mem[f]| == 512
    ensures Small(mem, root, ram, First(i, j, k) + m) == if mem[f][m].Leaf? && mem[f][m].pfn in ram then Some(mem[f][m].pfn) else None
  {
    hide P3, I1, First;
    PageOf(i, j, k, m);
    assert TableOk(mem, [i, j, k], f);
  }

  /** No table, no mapping below it. */
  lemma NoneMapped3(mem: Mem, root: nat, ram: set<nat>, i: nat, j: nat, k: nat)
    requires i < 512 && j < 512 && k < 512 && Node(mem, root, [i, j, k]) == None
    ensures First(i, j, k) + 512 <= Pages && Exact(mem, root, ram, [], First(i, j, k), First(i, j, k) + 512)
  {
    hide Node, P3, I1, First;
    PageOf(i, j, k, 511);
    forall v: nat | First(i, j, k) <= v < First(i, j, k) + 512 ensures Small(mem, root, ram, v) == None {
      PageOf(i, j, k, v - First(i, j, k));
      BelowNone(mem, root, v);
    }
  }

  lemma NoneBelow2(mem: Mem, root: nat, i: nat, j: nat, k: nat)
    requires Node(mem, root, [i, j]) == None
    ensures Node(mem, root, [i, j, k]) == None
  {
    assert [i, j, k][..2] == [i, j];
  }

  lemma NoneBelow1(mem: Mem, root: nat, i: nat, j: nat)
    requires Node(mem, root, [i]) == None
    ensures Node(mem, root, [i, j]) == None
  {
    assert [i, j][..1] == [i];
  }

  lemma {:induction false} NoneMapped2(mem: Mem, root: nat, ram: set<nat>, i: nat, j: nat, k: nat)
    requires i < 512 && j < 512 && k <= 512 && Node(mem, root, [i, j]) == None
    ensures First(i, j, k) <= Pages && Exact(mem, root, ram, [], First(i, j, 0), First(i, j, k))
    decreases k
  {
    hide Node, Small;
    var none: seq<Drop> := [];
    if k > 0 {
      NoneMapped2(mem, root, ram, i, j, k - 1);
      NoneBelow2(mem, root, i, j, k - 1);
      NoneMapped3(mem, root, ram, i, j, k - 1);
      ExactJoin(mem, root, ram, none, none, First(i, j, 0), First(i, j, k - 1), First(i, j, k));
      assert none + none == none;
    } else {
      PageOf(i, j, 0, 0);
    }
  }

  lemma {:induction false} NoneMapped1(mem: Mem, root: nat, ram: set<nat>, i: nat, j: nat)
    requires i < 512 && j <= 512 && Node(mem, root, [i]) == None
    ensures First(i, j, 0) <= Pages && Exact(mem, root, ram, [], First(i, 0, 0), First(i, j, 0))
    decreases j
  {
    hide Node, Small;
    var none: seq<Drop> := [];
    if j > 0 {
      NoneMapped1(mem, root, ram, i, j - 1);
      NoneBelow1(mem, root, i, j - 1);
      NoneMapped2(mem, root, ram, i, j - 1, 512);
      ExactJoin(mem, root, ram, none, none, First(i, 0, 0), First(i, j - 1, 0), First(i, j, 0));
      assert none + none == none;
    } else {
      PageOf(i, 0, 0, 0);
    }
  }

  // ---- Moving the cursor ----

  /** Past entry k of table [i, j]. */
  lemma FreedStep3(mem: Mem, root: nat, fr: seq<nat>, ps: seq<Path>, i: nat, j: nat, k: nat)
    requires FreedTo(mem, root, fr, ps, i, j, k)
    ensures var f := Node(mem, root, [i, j, k]);
            if f.Some? then FreedTo(mem, root, fr + [f.value], ps + [[i, j, k]], i, j, k + 1) else FreedTo(mem, root, fr, ps, i, j, k + 1)
  {
    hide Node, FreedTo;
    var f := Node(mem, root, [i, j, k]);
    assert forall p: Path :: Passed(p, i, j, k + 1) && !Passed(p, i, j, k) ==> p == [i, j, k];
    if f.Some? {
      FreedAdd(mem, root, fr, ps, [i, j, k], f.value, i, j, k, i, j, k + 1);
    } else {
      FreedSkip(mem, root, fr, ps, i, j, k, i, j, k + 1);
    }
  }

  lemma FreedStep2(mem: Mem, root: nat, fr: seq<nat>, ps: seq<Path>, i: nat, j: nat, k: nat)
    requires Tree(mem, root) && FreedTo(mem, root, fr, ps, i, j, k) && (Node(mem, root, [i, j]) == None || k == 512)
    ensures var f := Node(mem, root, [i, j]);
            if f.Some? then FreedTo(mem, root, fr + [f.value], ps + [[i, j]], i, j + 1, 0) else FreedTo(mem, root, fr, ps, i, j + 1, 0)
  {
    hide Node, FreedTo;
    var f := Node(mem, root, [i, j]);
    forall p: Path | Passed(p, i, j + 1, 0) && Node(mem, root, p).Some? ensures Passed(p, i, j, k) || p == [i, j] {
      if !Passed(p, i, j, k) && |p| == 3 {
        NodeBounds(mem, root, p);
        assert p == [i, j, p[2]];
        if f.None? {
          NoneBelow2(mem, root, i, j, p[2]);
        }
      }
    }
    if f.Some? {
      FreedAdd(mem, root, fr, ps, [i, j], f.value, i, j, k, i, j + 1, 0);
    } else {
      FreedSkip(mem, root, fr, ps, i, j, k, i, j + 1, 0);
    }
  }

  lemma FreedStep1(mem: Mem, root: nat, fr: seq<nat>, ps: seq<Path>, i: nat, j: nat)
    requires Tree(mem, root) && FreedTo(mem, root, fr, ps, i, j, 0) && (Node(mem, root, [i]) == None || j == 512)
    ensures var f := Node(mem, root, [i]);
            if f.Some? then FreedTo(mem, root, fr + [f.value], ps + [[i]], i + 1, 0, 0) else FreedTo(mem, root, fr, ps, i + 1, 0, 0)
  {
    hide Node, FreedTo;
    var f := Node(mem, root, [i]);
    forall p: Path | Passed(p, i + 1, 0, 0) && Node(mem, root, p).Some? ensures Passed(p, i, j, 0) || p == [i] {
      NodeBounds(mem, root, p);
      NodePrefix(mem, root, p);
      assert p[..1] == [p[0]];
      assert |p| == 1 ==> p == [p[0]];
    }
    if f.Some? {
      FreedAdd(mem, root, fr, ps, [i], f.value, i, j, 0, i + 1, 0, 0);
    } else {
      FreedSkip(mem, root, fr, ps, i, j, 0, i + 1, 0, 0);
    }
  }

  lemma NodePrefix(mem: Mem, root: nat, p: Path)
    requires 1 <= |p| <= 3 && Node(mem, root, p).Some?
    ensures Node(mem, root, p[..1]).Some?
  {
    assert |p| >= 2 ==> p[..2][..1] == p[..1];
    assert |p| == 1 ==> p[..1] == p;
    assert |p| == 2 ==> p[..|p| - 1] == p[..1];
    assert |p| == 3 ==> p[..|p| - 1] == p[..2];
  }
}

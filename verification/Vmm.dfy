/** Translation, and the operations that map and unmap pages (kernel/mm/vmm.c:94-161, 296-361). */
module Vmm {
  import opened PageTables

  const Gib: nat := 262144                // pages of 4 KiB in 1 GiB: 512 * 512
  const Mib2: nat := 512                  // in 2 MiB
  const Pages: nat := 68719476736         // 512 ^ 4

  function I4(v: nat): (i: nat)
    requires v < Pages
    ensures i < 512
  {
    v / 134217728
  }

  function I3(v: nat): (i: nat)
    ensures i < 512
  {
    v / Gib % 512
  }

  function I2(v: nat): (i: nat)
    ensures i < 512
  {
    v / Mib2 % 512
  }

  function I1(v: nat): (i: nat)
    ensures i < 512
  {
    v % 512
  }

  lemma Digits(v: nat)
    requires v < Pages
    ensures v / Gib == I4(v) * 512 + I3(v) && v / Mib2 == v / Gib * 512 + I2(v) && v == v / Mib2 * 512 + I1(v)
  {
  }

  /** The indices on the way to the entry of a page decide the page. */
  lemma SamePage(v: nat, w: nat)
    requires v < Pages && w < Pages
    ensures I4(v) == I4(w) && I3(v) == I3(w) <==> v / Gib == w / Gib
    ensures v / Gib == w / Gib && I2(v) == I2(w) <==> v / Mib2 == w / Mib2
    ensures v / Mib2 == w / Mib2 && I1(v) == I1(w) <==> v == w
  {
    Digits(v);
    Digits(w);
  }

  function P1(v: nat): (p: Path)
    requires v < Pages
    ensures |p| == 1
  {
    [I4(v)]
  }

  function P2(v: nat): (p: Path)
    requires v < Pages
    ensures |p| == 2
  {
    [I4(v), I3(v)]
  }

  function P3(v: nat): (p: Path)
    requires v < Pages
    ensures |p| == 3
  {
    [I4(v), I3(v), I2(v)]
  }

  /** What a page is mapped to. */
  datatype To = To(pfn: nat, flags: nat)

  /** The partial map that the tables stand for: the largest page on the way decides. */
  ghost function Tr(mem: Mem, root: nat, v: nat): (r: Option<To>)
    requires v < Pages
  {
    var e3 := EntryAt(mem, root, P1(v), I3(v));
    if e3.Leaf? then Some(To(e3.pfn / Gib * Gib + v % Gib, e3.flags))
    else
      var e2 := EntryAt(mem, root, P2(v), I2(v));
      if e2.Leaf? then Some(To(e2.pfn / Mib2 * Mib2 + v % Mib2, e2.flags))
      else
        var e1 := EntryAt(mem, root, P3(v), I1(v));
        if e1.Leaf? then Some(To(e1.pfn, e1.flags)) else None
  }

  // ---- What a change of one entry does to the map ----

  /** Entries that differ do so only between `not present` and `table`. */
  ghost predicate SameLeaves(mem: Mem, m: Mem, root: nat) {
    forall q: Path, j: nat {:trigger EntryAt(m, root, q, j)} :: |q| <= 3 ==>
      EntryAt(m, root, q, j) == EntryAt(mem, root, q, j) || (!EntryAt(m, root, q, j).Leaf? && !EntryAt(mem, root, q, j).Leaf?)
  }

  /** Creating or dropping tables changes no translation. */
  lemma SameLeavesTr(mem: Mem, m: Mem, root: nat)
    requires SameLeaves(mem, m, root)
    ensures forall v :: 0 <= v < Pages ==> Tr(m, root, v) == Tr(mem, root, v)
  {
    hide EntryAt;
  }

  /** All entries but one are as before. */
  ghost predicate OneEntry(mem: Mem, m: Mem, root: nat, p: Path, i: nat, e: Entry) {
    forall q: Path, j: nat {:trigger EntryAt(m, root, q, j)} :: |q| <= 3 ==>
      EntryAt(m, root, q, j) == if q == p && j == i then e else EntryAt(mem, root, q, j)
  }

  lemma OnWay(mem: Mem, root: nat, v: nat)
    requires v < Pages
    ensures Node(mem, root, P1(v)) == if EntryAt(mem, root, [], I4(v)).Sub? then Some(EntryAt(mem, root, [], I4(v)).t) else None
    ensures Node(mem, root, P2(v)) == if EntryAt(mem, root, P1(v), I3(v)).Sub? then Some(EntryAt(mem, root, P1(v), I3(v)).t) else None
    ensures Node(mem, root, P3(v)) == if EntryAt(mem, root, P2(v), I2(v)).Sub? then Some(EntryAt(mem, root, P2(v), I2(v)).t) else None
  {
    hide EntryAt, Node;
    NodeStep(mem, root, [], I4(v));
    NodeStep(mem, root, P1(v), I3(v));
    NodeStep(mem, root, P2(v), I2(v));
    assert [] + [I4(v)] == P1(v) && P1(v) + [I3(v)] == P2(v) && P2(v) + [I2(v)] == P3(v);
  }

  /** No table below a missing one: entries there are not present. */
  lemma BelowNone(mem: Mem, root: nat, v: nat)
    requires v < Pages
    ensures Node(mem, root, P3(v)).Some? ==> Node(mem, root, P2(v)).Some?
    ensures Node(mem, root, P2(v)).Some? ==> Node(mem, root, P1(v)).Some?
    ensures Node(mem, root, P2(v)) == None ==> EntryAt(mem, root, P2(v), I2(v)) == Absent
    ensures Node(mem, root, P3(v)) == None ==> EntryAt(mem, root, P3(v), I1(v)) == Absent
  {
    hide I1, I2, I3, I4;
    assert P3(v)[..2] == P2(v) && P2(v)[..1] == P1(v);
  }

  ghost function LeafTo(e: Entry): (r: Option<To>) {
    if e.Leaf? then Some(To(e.pfn, e.flags)) else None
  }

  /** Writing the last-level entry of a page changes the translation of that page only. */
  lemma SmallTr(mem: Mem, m: Mem, root: nat, v: nat, e: Entry)
    requires v < Pages && Node(mem, root, P3(v)).Some? && OneEntry(mem, m, root, P3(v), I1(v), e)
    ensures forall w :: 0 <= w < Pages ==> Tr(m, root, w) == if w == v then LeafTo(e) else Tr(mem, root, w)
  {
    hide EntryAt, Node, I1, I2, I3, I4;
    OnWay(mem, root, v);
    BelowNone(mem, root, v);
    forall w: nat | w < Pages ensures Tr(m, root, w) == if w == v then LeafTo(e) else Tr(mem, root, w) {
      SamePage(v, w);
      assert P3(w) == P3(v) ==> I4(w) == I4(v) && I3(w) == I3(v) && I2(w) == I2(v) by {
        assert P3(w)[0] == I4(w) && P3(w)[1] == I3(w) && P3(w)[2] == I2(w);
      }
    }
  }

  /** Writing a 2 MiB entry where there was nothing maps 512 pages. */
  lemma MidTr(mem: Mem, m: Mem, root: nat, v: nat, pfn: nat, flags: nat)
    requires v < Pages && pfn % Mib2 == 0 && Node(mem, root, P2(v)).Some? && EntryAt(mem, root, P2(v), I2(v)) == Absent
    requires OneEntry(mem, m, root, P2(v), I2(v), Leaf(pfn, flags))
    ensures forall w :: 0 <= w < Pages ==>
              Tr(m, root, w) == if w / Mib2 == v / Mib2 then Some(To(pfn + w % Mib2, flags)) else Tr(mem, root, w)
  {
    hide EntryAt, Node, I1, I2, I3, I4;
    OnWay(mem, root, v);
    BelowNone(mem, root, v);
    Aligned(pfn, Mib2);
    forall w: nat | w < Pages
      ensures Tr(m, root, w) == if w / Mib2 == v / Mib2 then Some(To(pfn + w % Mib2, flags)) else Tr(mem, root, w)
    {
      SamePage(v, w);
      assert P2(w) == P2(v) ==> I4(w) == I4(v) && I3(w) == I3(v) by {
        assert P2(w)[0] == I4(w) && P2(w)[1] == I3(w);
      }
    }
  }

  /** Writing a 1 GiB entry where there was nothing maps 262144 pages. */
  lemma BigTr(mem: Mem, m: Mem, root: nat, v: nat, pfn: nat, flags: nat)
    requires v < Pages && pfn % Gib == 0 && Node(mem, root, P1(v)).Some? && EntryAt(mem, root, P1(v), I3(v)) == Absent
    requires OneEntry(mem, m, root, P1(v), I3(v), Leaf(pfn, flags))
    ensures forall w :: 0 <= w < Pages ==>
              Tr(m, root, w) == if w / Gib == v / Gib then Some(To(pfn + w % Gib, flags)) else Tr(mem, root, w)
  {
    hide EntryAt, Node, I1, I2, I3, I4;
    OnWay(mem, root, v);
    Aligned(pfn, Gib);
    forall w: nat | w < Pages
      ensures Tr(m, root, w) == if w / Gib == v / Gib then Some(To(pfn + w % Gib, flags)) else Tr(mem, root, w)
    {
      SamePage(v, w);
      assert P1(w) == P1(v) ==> I4(w) == I4(v) by {
        assert P1(w)[0] == I4(w);
      }
    }
  }

  lemma Aligned(n: nat, d: nat)
    requires d > 0 && n % d == 0
    ensures n / d * d == n
  {
  }
}

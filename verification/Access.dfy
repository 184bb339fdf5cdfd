/** Page-table entries grant what the protection of their area permits
    (kernel/mm/mm.c:49-57, 259-299, 321-335). */
module Access {
  import V = Vma
  import opened Cow

  const PROT_WRITE: nat := 2
  const PROT_EXEC: nat := 4

  lemma WriteBit(prot: nat)
    ensures prot / 2 % 2 == 1 <==> prot % 4 >= 2
  {
    var q, m := prot / 4, prot % 4;
    assert prot == 4 * q + m;
    assert prot / 2 == 2 * q + m / 2;
  }

  lemma ExecBit(prot: nat)
    ensures prot / 4 % 2 == 1 <==> prot % 8 >= 4
  {
    var q, m := prot / 8, prot % 8;
    assert prot == 8 * q + m;
    assert prot / 4 == 2 * q + m / 4;
  }

  predicate CanWrite(prot: nat): (r: bool)
    ensures r <==> prot % 4 >= 2
  {
    WriteBit(prot);
    prot / PROT_WRITE % 2 == 1
  }

  predicate CanExec(prot: nat): (r: bool)
    ensures r <==> prot % 8 >= 4
  {
    ExecBit(prot);
    prot / PROT_EXEC % 2 == 1
  }

  type Areas = map<nat, seq<V.Area>>

  ghost predicate AreasOk(areas: Areas) {
    forall m: nat :: m in areas ==> V.Valid(areas[m])
  }

  /** The area that holds the address permits writing, */
  ghost predicate MayWrite(vs: seq<V.Area>, x: int) {
    exists v :: v in vs && V.Holds(v, x) && CanWrite(v.prot)
  }

  /** or executing. */
  ghost predicate MayExec(vs: seq<V.Area>, x: int) {
    exists v :: v in vs && V.Holds(v, x) && CanExec(v.prot)
  }

  /** The process can store through the entry, now or after a copy. */
  predicate Grants(p: Pte) {
    p.writable || p.cow
  }

  /** An entry grants writing exactly where the area of its page permits it. */
  ghost predicate Guarded(mem: Mem, areas: Areas) {
    forall k :: k in mem.pt && k.0 in areas ==> GuardedAt(mem, areas, k)
  }

  ghost predicate GuardedAt(mem: Mem, areas: Areas, k: Key)
    requires k in mem.pt && k.0 in areas
  {
    Grants(mem.pt[k]) <==> MayWrite(areas[k.0], k.1)
  }

  /** Only one area holds an address. */
  lemma HeldOnce(vs: seq<V.Area>, v: V.Area, w: V.Area, x: int)
    requires V.Valid(vs) && v in vs && w in vs && V.Holds(v, x) && V.Holds(w, x)
    ensures v == w
  {
    var i :| 0 <= i < |vs| && vs[i] == v;
    var j :| 0 <= j < |vs| && vs[j] == w;
  }

  lemma MayWriteIs(vs: seq<V.Area>, v: V.Area, x: int)
    requires V.Valid(vs) && v in vs && V.Holds(v, x)
    ensures MayWrite(vs, x) <==> CanWrite(v.prot)
    ensures MayExec(vs, x) <==> CanExec(v.prot)
  {
    hide V.Valid, V.Holds, CanWrite, CanExec;
    forall w | w in vs && V.Holds(w, x) ensures w == v {
      HeldOnce(vs, v, w, x);
    }
  }

  /** Both lists hold the address in an area of the same protection. */
  ghost predicate SameProt(vs: seq<V.Area>, vs': seq<V.Area>, x: int) {
    exists v, v' :: v in vs && v' in vs' && V.Holds(v, x) && V.Holds(v', x) && v.prot == v'.prot
  }

  lemma SameProtMay(vs: seq<V.Area>, vs': seq<V.Area>, x: int)
    requires V.Valid(vs) && V.Valid(vs') && SameProt(vs, vs', x)
    ensures MayWrite(vs, x) <==> MayWrite(vs', x)
  {
    hide V.Valid, V.Holds, CanWrite, CanExec;
    var v, v' :| v in vs && v' in vs' && V.Holds(v, x) && V.Holds(v', x) && v.prot == v'.prot;
    MayWriteIs(vs, v, x);
    MayWriteIs(vs', v', x);
  }

  /** Entries stay, and the areas under them keep their protection. */
  lemma GuardedKept(mem: Mem, mem': Mem, areas: Areas, areas': Areas)
    requires Guarded(mem, areas) && AreasOk(areas) && AreasOk(areas')
    requires forall k :: k in mem'.pt && k.0 in areas' ==>
               k in mem.pt && k.0 in areas && Grants(mem'.pt[k]) == Grants(mem.pt[k])
               && (areas'[k.0] == areas[k.0] || SameProt(areas[k.0], areas'[k.0], k.1))
    ensures Guarded(mem', areas')
  {
    hide V.Valid, SameProt, MayWrite, Grants;
    forall k | k in mem'.pt && k.0 in areas' ensures GuardedAt(mem', areas', k) {
      assert GuardedAt(mem, areas, k);
      if areas'[k.0] != areas[k.0] {
        SameProtMay(areas[k.0], areas'[k.0], k.1);
      }
    }
  }

  /** One entry is new, or stands for another page frame. */
  lemma GuardedPut(mem: Mem, mem': Mem, areas: Areas, k: Key, v: V.Area)
    requires Guarded(mem, areas) && AreasOk(areas) && k.0 in areas && v in areas[k.0] && V.Holds(v, k.1)
    requires k in mem'.pt && Grants(mem'.pt[k]) == CanWrite(v.prot)
    requires forall j :: j in mem'.pt && j != k ==> j in mem.pt && mem'.pt[j] == mem.pt[j]
    ensures Guarded(mem', areas)
  {
    hide V.Valid, V.Holds, MayWrite, CanWrite, Grants;
    MayWriteIs(areas[k.0], v, k.1);
    forall j | j in mem'.pt && j.0 in areas ensures GuardedAt(mem', areas, j) {
      assert j != k ==> GuardedAt(mem, areas, j);
    }
  }

  // ---- Lists of areas that change ----

  /** What carving leaves around an address keeps its protection. */
  lemma CarveProt(vs: seq<V.Area>, lo: nat, hi: nat, node: bool, x: int)
    requires V.Valid(vs) && V.Covered(vs, x) && V.Covered(V.Carve(vs, lo, hi, node), x)
    ensures SameProt(vs, V.Carve(vs, lo, hi, node), x)
  {
    hide V.Carve, V.Valid;
    var r := V.Carve(vs, lo, hi, node);
    var j :| 0 <= j < |r| && V.Holds(r[j], x);
    V.CarveFrom(vs, lo, hi, node, r[j]);
  }

  lemma ReplacedProt(vs: seq<V.Area>, i: nat, w: V.Area, x: int)
    requires i < |vs| && w.prot == vs[i].prot && V.Covered(vs, x) && (V.Holds(vs[i], x) ==> V.Holds(w, x))
    ensures SameProt(vs, vs[i := w], x)
  {
    var j :| 0 <= j < |vs| && V.Holds(vs[j], x);
    assert vs[i := w][j] == if j == i then w else vs[j];
    assert vs[j] in vs && vs[i := w][j] in vs[i := w];
  }

  lemma MoreProt(vs: seq<V.Area>, vs': seq<V.Area>, x: int)
    requires V.Covered(vs, x) && forall v :: v in vs ==> v in vs'
    ensures SameProt(vs, vs', x)
  {
    var j :| 0 <= j < |vs| && V.Holds(vs[j], x);
    assert vs[j] in vs && vs[j] in vs';
  }
}

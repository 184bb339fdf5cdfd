/** Page frames shared between address spaces by reference count
    (kernel/mm/mm.c:174-185, 259-299, 366-405; kernel/mm/pmm.c:192-199).

    The page tables of all address spaces are one map from (address space, page) to an
    entry; Vmm shows that the four-level tables implement such a map. */
module Cow {

  type Byte = x: int | 0 <= x < 256
  type Key = (nat, nat)

  const PAGE_BYTES: nat := 4096

  /** The bits of a page-table entry that fork and the fault handler use. */
  datatype Pte = Pte(frame: nat, writable: bool, cow: bool)

  datatype Frame = Frame(refs: nat, bytes: seq<Byte>)

  datatype Mem = Mem(frames: map<nat, Frame>, pt: map<Key, Pte>)

  ghost function Refs(pt: map<Key, Pte>, f: nat): set<Key> {
    set k | k in pt && pt[k].frame == f
  }

  /** Reference counts are exact over all address spaces, and a writable page is not shared. */
  ghost predicate Sound(m: Mem) {
    && (forall k :: k in m.pt ==> m.pt[k].frame in m.frames)
    && (forall f: nat :: f in m.frames ==> m.frames[f].refs == Count(m.pt, f) && |m.frames[f].bytes| == PAGE_BYTES)
    && (forall k :: k in m.pt && m.pt[k].writable ==> m.frames[m.pt[k].frame].refs == 1 && !m.pt[k].cow)
  }

  /** What a mapped page holds. */
  function Bytes(m: Mem, k: Key): seq<Byte>
    requires k in m.pt && m.pt[k].frame in m.frames
  {
    m.frames[m.pt[k].frame].bytes
  }

  function ZeroPage(): (r: seq<Byte>)
    ensures |r| == 4096 && forall i :: 0 <= i < 4096 ==> r[i] == 0
  {
    seq(PAGE_BYTES, _ => 0)
  }

  /** Every page mapped before is still mapped and holds the same bytes. */
  ghost predicate SamePages(m: Mem, m': Mem, keys: set<Key>) {
    forall k :: k in keys ==> Same(m, m', k)
  }

  ghost predicate Same(m: Mem, m': Mem, k: Key) {
    && k in m.pt && k in m'.pt && m.pt[k].frame in m.frames && m'.pt[k].frame in m'.frames
    && Bytes(m', k) == Bytes(m, k)
  }

  // ---- Counting references ----

  ghost function Count(pt: map<Key, Pte>, f: nat): nat {
    |Refs(pt, f)|
  }

  lemma CountPut(pt: map<Key, Pte>, k: Key, p: Pte, f: nat)
    requires k !in pt
    ensures Count(pt[k := p], f) == Count(pt, f) + if p.frame == f then 1 else 0
  {
    assert Refs(pt[k := p], f) == Refs(pt, f) + (if p.frame == f then {k} else {});
  }

  lemma CountDrop(pt: map<Key, Pte>, k: Key, f: nat)
    requires k in pt
    ensures Count(pt, f) == Count(pt - {k}, f) + if pt[k].frame == f then 1 else 0
  {
    assert Refs(pt, f) == Refs(pt - {k}, f) + (if pt[k].frame == f then {k} else {});
  }

  lemma CountSame(pt: map<Key, Pte>, k: Key, p: Pte, f: nat)
    requires k in pt && pt[k].frame == p.frame
    ensures Count(pt[k := p], f) == Count(pt, f)
  {
    assert Refs(pt[k := p], f) == Refs(pt, f);
  }

  lemma CountTwo(pt: map<Key, Pte>, k: Key, j: Key)
    requires k in pt && j in pt && pt[j].frame == pt[k].frame && j != k
    ensures Count(pt, pt[k].frame) >= 2
  {
    CountDrop(pt, k, pt[k].frame);
    CountDrop(pt - {k}, j, pt[k].frame);
  }

  lemma CountOne(pt: map<Key, Pte>, k: Key)
    requires k in pt
    ensures Count(pt, pt[k].frame) >= 1
  {
    CountDrop(pt, k, pt[k].frame);
  }

  // ---- The steps ----

  /** A free frame, filled with `bytes`, becomes the page at `k`. */
  function MapFresh(m: Mem, k: Key, f: nat, writable: bool, bytes: seq<Byte>): Mem {
    Mem(m.frames[f := Frame(1, bytes)], m.pt[k := Pte(f, writable, false)])
  }

  lemma MapFreshSound(m: Mem, k: Key, f: nat, writable: bool, bytes: seq<Byte>)
    requires Sound(m) && k !in m.pt && f in m.frames && m.frames[f].refs == 0 && |bytes| == PAGE_BYTES
    ensures var m' := MapFresh(m, k, f, writable, bytes);
            Sound(m') && m'.pt.Keys == m.pt.Keys + {k} && Bytes(m', k) == bytes && SamePages(m, m', m.pt.Keys)
  {
    hide Count;
    forall h: nat ensures Count(m.pt[k := Pte(f, writable, false)], h) == Count(m.pt, h) + if h == f then 1 else 0 {
      CountPut(m.pt, k, Pte(f, writable, false), h);
    }
    forall j | j in m.pt ensures m.pt[j].frame != f {
      CountOne(m.pt, j);
    }
  }

  /** put_page of the frame behind one entry, and the entry removed. */
  function Drop(m: Mem, k: Key): Mem
    requires k in m.pt && m.pt[k].frame in m.frames && m.frames[m.pt[k].frame].refs > 0
  {
    var f := m.pt[k].frame;
    Mem(m.frames[f := m.frames[f].(refs := m.frames[f].refs - 1)], m.pt - {k})
  }

  lemma DropSound(m: Mem, k: Key)
    requires Sound(m) && k in m.pt
    ensures m.pt[k].frame in m.frames && m.frames[m.pt[k].frame].refs > 0
    ensures var m' := Drop(m, k);
            Sound(m') && m'.pt.Keys == m.pt.Keys - {k} && SamePages(m, m', m.pt.Keys - {k})
  {
    hide Count;
    CountOne(m.pt, k);
    forall h: nat ensures Count(m.pt, h) == Count(m.pt - {k}, h) + if m.pt[k].frame == h then 1 else 0 {
      CountDrop(m.pt, k, h);
    }
    forall j | j in m.pt && j != k && m.pt[j].writable ensures m.pt[j].frame != m.pt[k].frame {
      if m.pt[j].frame == m.pt[k].frame {
        CountTwo(m.pt, k, j);
      }
    }
  }

  function Protect(p: Pte): Pte {
    if p.writable then p.(writable := false, cow := true) else p
  }

  function MarkCow(m: Mem, k: Key): Mem
    requires k in m.pt
  {
    m.(pt := m.pt[k := Protect(m.pt[k])])
  }

  /** fork on one page: the parent's entry loses write permission for the COW bit, the
      child's entry is a copy, and the frame gains a reference. */
  function Share(m: Mem, k: Key, c: Key): Mem
    requires k in m.pt && m.pt[k].frame in m.frames
  {
    var p := Protect(m.pt[k]);
    Mem(m.frames[p.frame := m.frames[p.frame].(refs := m.frames[p.frame].refs + 1)], m.pt[k := p][c := p])
  }

  lemma MarkCowSound(m: Mem, k: Key)
    requires Sound(m) && k in m.pt
    ensures Sound(MarkCow(m, k)) && MarkCow(m, k).pt.Keys == m.pt.Keys && SamePages(m, MarkCow(m, k), m.pt.Keys)
  {
    hide Count;
    forall h: nat ensures Count(MarkCow(m, k).pt, h) == Count(m.pt, h) {
      CountSame(m.pt, k, Protect(m.pt[k]), h);
    }
  }

  lemma ShareSound(m: Mem, k: Key, c: Key)
    requires Sound(m) && k in m.pt && c !in m.pt
    ensures var m' := Share(m, k, c);
            Sound(m') && m'.pt.Keys == m.pt.Keys + {c} && SamePages(m, m', m.pt.Keys) && Bytes(m', c) == Bytes(m, k)
  {
    hide Count, MarkCow;
    var m1 := MarkCow(m, k);
    MarkCowSound(m, k);
    Marked(m, k);
    ReferSound(m1, k, c);
    assert Share(m, k, c) == Refer(m1, k, c);
    SameThrough(m, m1, Refer(m1, k, c), m.pt.Keys, m.pt.Keys);
    assert Same(m, m1, k);
  }

  lemma Marked(m: Mem, k: Key)
    requires k in m.pt
    ensures MarkCow(m, k).frames == m.frames && MarkCow(m, k).pt == m.pt[k := Protect(m.pt[k])]
  {
  }

  /** A second entry for a page that is not writable, and get_page of its frame. */
  function Refer(m: Mem, k: Key, c: Key): Mem
    requires k in m.pt && m.pt[k].frame in m.frames
  {
    var p := m.pt[k];
    Mem(m.frames[p.frame := m.frames[p.frame].(refs := m.frames[p.frame].refs + 1)], m.pt[c := p])
  }

  lemma ReferSound(m: Mem, k: Key, c: Key)
    requires Sound(m) && k in m.pt && c !in m.pt && !m.pt[k].writable
    ensures var m' := Refer(m, k, c);
            Sound(m') && m'.pt.Keys == m.pt.Keys + {c} && SamePages(m, m', m.pt.Keys) && Bytes(m', c) == Bytes(m, k)
  {
    hide Count;
    forall h: nat ensures Count(m.pt[c := m.pt[k]], h) == Count(m.pt, h) + if m.pt[k].frame == h then 1 else 0 {
      CountPut(m.pt, c, m.pt[k], h);
    }
    forall j | j in m.pt && m.pt[j].writable ensures m.pt[j].frame != m.pt[k].frame {
      if m.pt[j].frame == m.pt[k].frame {
        CountTwo(m.pt, k, j);
      }
    }
  }

  /** The last owner of a COW page takes it over. */
  function Adopt(m: Mem, k: Key): Mem
    requires k in m.pt
  {
    m.(pt := m.pt[k := m.pt[k].(writable := true, cow := false)])
  }

  lemma AdoptSound(m: Mem, k: Key)
    requires Sound(m) && k in m.pt && m.frames[m.pt[k].frame].refs == 1
    ensures Sound(Adopt(m, k)) && Adopt(m, k).pt.Keys == m.pt.Keys && SamePages(m, Adopt(m, k), m.pt.Keys)
  {
    hide Count;
    forall h: nat ensures Count(Adopt(m, k).pt, h) == Count(m.pt, h) {
      CountSame(m.pt, k, m.pt[k].(writable := true, cow := false), h);
    }
  }

  /** The private copy of a shared page. */
  lemma CopySound(m: Mem, k: Key, f: nat, writable: bool)
    requires Sound(m) && k in m.pt && f in m.frames && m.frames[f].refs == 0
    ensures m.pt[k].frame in m.frames && m.frames[m.pt[k].frame].refs > 0
    ensures var m' := MapFresh(Drop(m, k), k, f, writable, Bytes(m, k));
            Sound(m') && m'.pt.Keys == m.pt.Keys && SamePages(m, m', m.pt.Keys)
  {
    hide Count;
    DropSound(m, k);
    CountOne(m.pt, k);
    var m1 := Drop(m, k);
    MapFreshSound(m1, k, f, writable, Bytes(m, k));
    var m' := MapFresh(m1, k, f, writable, Bytes(m, k));
    forall j | j in m.pt ensures Same(m, m', j) {
      if j != k {
        assert Same(m, m1, j) && Same(m1, m', j);
      }
    }
  }

  /** A store by the owner of a writable entry. */
  function Store(m: Mem, k: Key, off: nat, b: Byte): Mem
    requires k in m.pt && m.pt[k].frame in m.frames && off < |m.frames[m.pt[k].frame].bytes|
  {
    var f := m.pt[k].frame;
    m.(frames := m.frames[f := m.frames[f].(bytes := m.frames[f].bytes[off := b])])
  }

  /** Because a writable page has one reference, a store is seen through its own entry only. */
  lemma StorePrivate(m: Mem, k: Key, off: nat, b: Byte)
    requires Sound(m) && k in m.pt && m.pt[k].writable && off < PAGE_BYTES
    ensures var m' := Store(m, k, off, b);
            && Sound(m') && m'.pt == m.pt && SamePages(m, m', m.pt.Keys - {k})
            && Bytes(m', k) == Bytes(m, k)[off := b]
  {
    hide Count;
    forall j | j in m.pt && j != k ensures m.pt[j].frame != m.pt[k].frame {
      if m.pt[j].frame == m.pt[k].frame {
        CountTwo(m.pt, k, j);
      }
    }
  }

  lemma SameThrough(m: Mem, m1: Mem, m2: Mem, keys: set<Key>, keys1: set<Key>)
    requires SamePages(m, m1, keys) && SamePages(m1, m2, keys1) && keys <= keys1
    ensures SamePages(m, m2, keys)
  {
    forall k | k in keys ensures Same(m, m2, k) {
      assert Same(m, m1, k) && Same(m1, m2, k);
    }
  }

  lemma SameSelf(m: Mem)
    requires Sound(m)
    ensures SamePages(m, m, m.pt.Keys)
  {
  }
}

/** Copy-on-write on the four-level tables: the flat table of Cow is what the tables of all address
    spaces translate, and its steps are writes of last-level entries
    (kernel/mm/mm.c:174-185, 259-340; kernel/mm/vmm.c:118-161). */
module Paged {
  import T = PageTables
  import opened Vmm
  import VmmPrune
  import opened VmmOps
  import opened Cow

  const UserHalf: nat := VmmPrune.UserHalf   // pages of the lower half

  const PTE_PRESENT: nat := 1
  const PTE_WRITABLE: nat := 2
  const PTE_USER: nat := 4
  const PTE_COW: nat := 512
  const PTE_NX: nat := 0x8000_0000_0000_0000

  predicate Bit(flags: nat, b: nat)
    requires b > 0
  {
    flags / b % 2 == 1
  }

  /** The entry lets the process in, and grants writing (now or after a copy) and executing as given. */
  predicate Rights(flags: nat, write: bool, exec: bool) {
    && Bit(flags, PTE_PRESENT) && Bit(flags, PTE_USER)
    && ((Bit(flags, PTE_WRITABLE) || Bit(flags, PTE_COW)) <==> write)
    && (Bit(flags, PTE_NX) <==> !exec)
  }

  /** The bits other than WRITABLE and COW are the same. */
  predicate SameRest(f: nat, g: nat) {
    && f % PTE_WRITABLE == g % PTE_WRITABLE && f / PTE_USER % 128 == g / PTE_USER % 128 && f / 1024 == g / 1024
  }

  lemma RestBits(f: nat, g: nat)
    requires SameRest(f, g)
    ensures Bit(f, PTE_PRESENT) == Bit(g, PTE_PRESENT) && Bit(f, PTE_USER) == Bit(g, PTE_USER) && Bit(f, PTE_NX) == Bit(g, PTE_NX)
  {
    LowBit(f / PTE_USER);
    LowBit(g / PTE_USER);
    HighBit(f);
    HighBit(g);
  }

  lemma LowBit(x: nat)
    ensures x % 128 % 2 == x % 2
  {
    var d, r := x / 128, x % 128;
    By2(x, 64 * d + r / 2, r % 2);
  }

  lemma ByNx(f: nat, q: nat, r: nat)
    requires f == PTE_NX * q + r && r < PTE_NX
    ensures f / PTE_NX == q
  {
  }

  lemma HighBit(f: nat)
    ensures f / PTE_NX == f / 1024 / 0x20_0000_0000_0000
  {
    var d, r := f / 1024, f % 1024;
    var q, t := d / 0x20_0000_0000_0000, d % 0x20_0000_0000_0000;
    ByNx(f, q, 1024 * t + r);
  }

  /** prot_to_pte and the present bit. */
  function ProtFlags(write: bool, exec: bool): (f: nat)
    ensures Rights(f, write, exec) && Bit(f, PTE_WRITABLE) == write && !Bit(f, PTE_COW)
  {
    PTE_PRESENT + PTE_USER + (if write then PTE_WRITABLE else 0) + (if exec then 0 else PTE_NX)
  }

  lemma By2(f: nat, q: nat, r: nat)
    requires f == 2 * q + r && r < 2
    ensures f / 2 == q && f % 2 == r
  {
  }

  lemma By4(f: nat, q: nat, r: nat)
    requires f == 4 * q + r && r < 4
    ensures f / 4 == q
  {
  }

  lemma By128(f: nat, q: nat, r: nat)
    requires f == 128 * q + r && r < 128
    ensures f % 128 == r
  {
  }

  lemma By512(f: nat, q: nat, r: nat)
    requires f == 512 * q + r && r < 512
    ensures f / 512 == q
  {
  }

  lemma By1024(f: nat, q: nat, r: nat)
    requires f == 1024 * q + r && r < 1024
    ensures f / 1024 == q
  {
  }

  /** The bits of a number in parts. */
  lemma Parts(f: nat, h: nat, c: nat, m: nat, w: nat, l: nat)
    requires f == 1024 * h + 512 * c + 4 * m + 2 * w + l && c < 2 && m < 128 && w < 2 && l < 2
    ensures Bit(f, PTE_WRITABLE) == (w == 1) && Bit(f, PTE_COW) == (c == 1)
    ensures f % PTE_WRITABLE == l && f / PTE_USER % 128 == m && f / 1024 == h
  {
    By2(f, 512 * h + 256 * c + 2 * m + w, l);
    By2(512 * h + 256 * c + 2 * m + w, 256 * h + 128 * c + m, w);
    By4(f, 256 * h + 128 * c + m, 2 * w + l);
    By128(256 * h + 128 * c + m, 2 * h + c, m);
    By512(f, 2 * h + c, 4 * m + 2 * w + l);
    By2(2 * h + c, h, c);
    By1024(f, h, 512 * c + 4 * m + 2 * w + l);
  }

  lemma InParts(f: nat) returns (h: nat, c: nat, m: nat, w: nat, l: nat)
    ensures f == 1024 * h + 512 * c + 4 * m + 2 * w + l && c < 2 && m < 128 && w < 2 && l < 2
  {
    var a := f / 2;
    var b := a / 2;
    var d := b / 128;
    h, c, m, w, l := d / 2, d % 2, b % 128, a % 2, f % 2;
  }

  lemma SharedBits(f: nat, g: nat)
    requires g == if !Bit(f, PTE_WRITABLE) then f else if Bit(f, PTE_COW) then f - PTE_WRITABLE else f - PTE_WRITABLE + PTE_COW
    ensures !Bit(g, PTE_WRITABLE) && (Bit(g, PTE_COW) <==> Bit(f, PTE_COW) || Bit(f, PTE_WRITABLE)) && SameRest(f, g)
  {
    hide Bit;
    var h, c, m, w, l := InParts(f);
    Parts(f, h, c, m, w, l);
    Parts(g, h, if w == 1 then 1 else c, m, 0, l);
  }

  lemma OwnedBits(f: nat, g: nat)
    requires var x := if Bit(f, PTE_COW) then f - PTE_COW else f; g == if Bit(f, PTE_WRITABLE) then x else x + PTE_WRITABLE
    ensures Bit(g, PTE_WRITABLE) && !Bit(g, PTE_COW) && SameRest(f, g)
  {
    hide Bit;
    var h, c, m, w, l := InParts(f);
    Parts(f, h, c, m, w, l);
    Parts(g, h, 0, m, 1, l);
  }

  lemma BitFits(f: nat)
    ensures Bit(f, PTE_WRITABLE) ==> f >= PTE_WRITABLE
    ensures Bit(f, PTE_COW) ==> f >= PTE_COW
  {
  }

  /** What fork makes of the flags of a page. */
  function SharedFlags(f: nat): (g: nat)
    ensures !Bit(g, PTE_WRITABLE) && (Bit(g, PTE_COW) <==> Bit(f, PTE_COW) || Bit(f, PTE_WRITABLE)) && SameRest(f, g)
  {
    hide Bit, SameRest;
    BitFits(f);
    SharedBits(f, if !Bit(f, PTE_WRITABLE) then f else if Bit(f, PTE_COW) then f - PTE_WRITABLE else f - PTE_WRITABLE + PTE_COW);
    if !Bit(f, PTE_WRITABLE) then f else if Bit(f, PTE_COW) then f - PTE_WRITABLE else f - PTE_WRITABLE + PTE_COW
  }

  /** What the last owner of a shared page makes of them. */
  function OwnedFlags(f: nat): (g: nat)
    ensures Bit(g, PTE_WRITABLE) && !Bit(g, PTE_COW) && SameRest(f, g)
  {
    hide Bit, SameRest;
    BitFits(f);
    var h := if Bit(f, PTE_COW) then f - PTE_COW else f;
    OwnedBits(f, if Bit(f, PTE_WRITABLE) then h else h + PTE_WRITABLE);
    if Bit(f, PTE_WRITABLE) then h else h + PTE_WRITABLE
  }

  function PteOf(to: To): (p: Pte) {
    Pte(to.pfn, Bit(to.flags, PTE_WRITABLE), Bit(to.flags, PTE_COW))
  }

  function KeyOf(m: nat, v: nat): Key {
    (m, v * PAGE_BYTES)
  }

  // ---- Reading the flat table off the tables of one address space ----

  predicate ReadAt(pt: map<Key, Pte>, m: nat, v: nat, to: T.Option<To>) {
    && (KeyOf(m, v) in pt <==> to.Some?)
    && (to.Some? ==> pt[KeyOf(m, v)] == PteOf(to.value))
  }

  ghost predicate ReadsOff(pt: map<Key, Pte>, m: nat, tables: T.Mem, root: nat) {
    && NoHuge(tables, root)
    && forall v: nat :: v < UserHalf ==> ReadAt(pt, m, v, Tr(tables, root, v))
  }

  /** Every key is a user page of an address space. */
  ghost predicate UserKeys(pt: map<Key, Pte>, ms: set<nat>) {
    forall k :: k in pt ==> k.0 in ms && k.1 % PAGE_BYTES == 0 && k.1 / PAGE_BYTES < UserHalf
  }

  function Put(pt: map<Key, Pte>, k: Key, to: T.Option<To>): (r: map<Key, Pte>) {
    if to.Some? then pt[k := PteOf(to.value)] else pt - {k}
  }

  lemma ReadsSame(pt: map<Key, Pte>, m: nat, tables: T.Mem, tables': T.Mem, root: nat)
    requires ReadsOff(pt, m, tables, root) && Grew(tables, tables', root)
    ensures ReadsOff(pt, m, tables', root)
  {
    hide NoHuge, Tr, ReadAt, T.Node;
    GrewNoHuge(tables, tables', root);
    forall v: nat | v < UserHalf ensures ReadAt(pt, m, v, Tr(tables', root, v)) {
      assert ReadAt(pt, m, v, Tr(tables, root, v));
    }
  }

  /** A change of the translation of one page is a change of its entry. */
  lemma ReadsPut(pt: map<Key, Pte>, m: nat, tables: T.Mem, tables': T.Mem, root: nat, v: nat, to: T.Option<To>)
    requires ReadsOff(pt, m, tables, root) && NoHuge(tables', root) && v < UserHalf
    requires forall w :: 0 <= w < Pages ==> Tr(tables', root, w) == if w == v then to else Tr(tables, root, w)
    ensures ReadsOff(Put(pt, KeyOf(m, v), to), m, tables', root)
  {
    hide NoHuge, Tr;
    forall w: nat | w < UserHalf ensures ReadAt(Put(pt, KeyOf(m, v), to), m, w, Tr(tables', root, w)) {
      assert ReadAt(pt, m, w, Tr(tables, root, w));
    }
  }

  lemma ReadsOther(pt: map<Key, Pte>, k: Key, to: T.Option<To>, m: nat, tables: T.Mem, root: nat)
    requires ReadsOff(pt, m, tables, root) && k.0 != m
    ensures ReadsOff(Put(pt, k, to), m, tables, root)
  {
    hide NoHuge, Tr;
    forall w: nat | w < UserHalf ensures ReadAt(Put(pt, k, to), m, w, Tr(tables, root, w)) {
      assert ReadAt(pt, m, w, Tr(tables, root, w));
    }
  }

  /** The tables of all address spaces leave no choice for the flat table. */
  lemma ReadsUnique(pt: map<Key, Pte>, pt': map<Key, Pte>, spaces: map<nat, (T.Mem, nat)>)
    requires UserKeys(pt, spaces.Keys) && UserKeys(pt', spaces.Keys)
    requires forall m :: m in spaces ==> ReadsOff(pt, m, spaces[m].0, spaces[m].1) && ReadsOff(pt', m, spaces[m].0, spaces[m].1)
    ensures pt == pt'
  {
    hide NoHuge, Tr;
    forall k: Key ensures (k in pt <==> k in pt') && (k in pt ==> pt[k] == pt'[k]) {
      if k in pt || k in pt' {
        var m, v := k.0, k.1 / PAGE_BYTES;
        assert KeyOf(m, v) == k;
        assert ReadAt(pt, m, v, Tr(spaces[m].0, spaces[m].1, v)) && ReadAt(pt', m, v, Tr(spaces[m].0, spaces[m].1, v));
      }
    }
  }

  // ---- What a process reads through its tables ----

  /** The bytes at a page for a translation. */
  ghost function SeenBy(frames: map<nat, Frame>, to: T.Option<To>): (r: T.Option<seq<Byte>>) {
    if to.Some? && to.value.pfn in frames then T.Some(frames[to.value.pfn].bytes) else T.None
  }

  /** The bytes at a page for the flat table. */
  ghost function FlatSeen(mem: Mem, k: Key): (r: T.Option<seq<Byte>>) {
    if k in mem.pt && mem.pt[k].frame in mem.frames then T.Some(Bytes(mem, k)) else T.None
  }

  lemma SeenIs(mem: Mem, m: nat, tables: T.Mem, root: nat, v: nat)
    requires ReadsOff(mem.pt, m, tables, root) && v < UserHalf
    ensures SeenBy(mem.frames, Tr(tables, root, v)) == FlatSeen(mem, KeyOf(m, v))
  {
    hide NoHuge, Tr;
    assert ReadAt(mem.pt, m, v, Tr(tables, root, v));
  }

  /** Pages that are the same are seen the same. */
  lemma FlatSame(mem: Mem, mem': Mem, k: Key)
    requires SamePages(mem, mem', mem.pt.Keys) && mem'.pt.Keys <= mem.pt.Keys + {k} && Sound(mem) && Sound(mem')
    ensures forall j :: j in mem.pt || j != k ==> FlatSeen(mem', j) == FlatSeen(mem, j)
  {
    hide Count;
    forall j | j in mem.pt || j != k ensures FlatSeen(mem', j) == FlatSeen(mem, j) {
      assert j in mem.pt ==> Same(mem, mem', j);
    }
  }

  lemma KeyApart(m: nat, v: nat, m': nat, v': nat)
    ensures KeyOf(m, v) == KeyOf(m', v') <==> m == m' && v == v'
  {
  }

  // ---- The machine ----

  class PagedMemory {
    var frames: map<nat, Frame>
    var spaces: map<nat, AddressSpace>
    ghost var pt: map<Key, Pte>

    ghost function View(): (r: Mem)
      reads this
    {
      Mem(frames, pt)
    }

    /** The tables of all address spaces together are the flat table. */
    ghost predicate Mapped()
      reads `spaces, `pt, spaces.Values
    {
      && (forall m, n :: m in spaces && n in spaces && spaces[m] == spaces[n] ==> m == n)
      && (forall m :: m in spaces ==> spaces[m].Valid() && ReadsOff(pt, m, spaces[m].mem, spaces[m].root))
      && UserKeys(pt, spaces.Keys)
    }

    ghost predicate Valid()
      reads this, spaces.Values
    {
      Mapped() && Sound(View())
    }

    /** What process `m` reads at page `v`. */
    ghost function Seen(m: nat, v: nat): (r: T.Option<seq<Byte>>)
      requires m in spaces && v < UserHalf
      reads this, spaces.Values
    {
      SeenBy(frames, Tr(spaces[m].mem, spaces[m].root, v))
    }

    /** The translation of page `v` in the tables of process `m`. */
    ghost function At(m: nat, v: nat): (to: T.Option<To>)
      requires m in spaces && v < UserHalf
      reads `spaces, spaces[m]
    {
      Tr(spaces[m].mem, spaces[m].root, v)
    }

    /** Every frame is in use. */
    ghost predicate NoneFree()
      reads this
    {
      forall g: nat :: g in frames ==> frames[g].refs != 0
    }

    lemma KeyAt(m: nat, v: nat)
      requires Mapped() && m in spaces && v < UserHalf
      ensures KeyOf(m, v) in pt <==> At(m, v).Some?
    {
      hide Tr, NoHuge;
      assert ReadAt(pt, m, v, At(m, v));
    }

    lemma SpacesApart(m: nat, n: nat)
      requires Mapped() && m in spaces && n in spaces && m != n
      ensures spaces[m] != spaces[n]
    {
      hide ReadsOff, AddressSpace.Valid;
    }

    lemma AllSeen()
      requires Mapped()
      ensures forall m, v: nat :: m in spaces && v < UserHalf ==> Seen(m, v) == FlatSeen(View(), KeyOf(m, v))
    {
      hide Tr, ReadsOff, FlatSeen, SeenBy;
      forall m, v: nat | m in spaces && v < UserHalf ensures Seen(m, v) == FlatSeen(View(), KeyOf(m, v)) {
        SeenIs(View(), m, spaces[m].mem, spaces[m].root, v);
      }
    }

    /** vmm_get_pte, and the entry there. */
    method GetPte(m: nat, v: nat, create: bool) returns (f: T.Option<nat>, e: T.Entry)
      requires Mapped() && m in spaces && v < UserHalf
      modifies spaces[m]
      ensures Mapped()
      ensures f.Some? ==> T.Node(spaces[m].mem, spaces[m].root, P3(v)) == f && !e.Sub? && ReadAt(pt, m, v, LeafTo(e))
      ensures f.Some? ==> At(m, v) == LeafTo(e)
      ensures f.None? && !create ==> KeyOf(m, v) !in pt
      ensures f.None? && create ==> spaces[m].pool == {}
      ensures forall w: nat :: w < UserHalf ==> At(m, w) == old(At(m, w))
    {
      hide Tr, ReadsOff, T.Node, T.EntryAt, T.Tree, Grew, I1, I2, I3, I4;
      var a := spaces[m];
      ghost var was := a.mem;
      f := a.GetPte(v, create);
      GrewTr(was, a.mem, a.root);
      ReadsSame(pt, m, was, a.mem, a.root);
      NotHuge(pt, m, a.mem, a.root, v);
      e := T.Absent;
      if f.Some? {
        EntryIs(a.mem, a.root, P3(v), f.value, I1(v));
        e := a.mem[f.value][I1(v)];
        EntryRead(pt, m, a.mem, a.root, v, e);
      } else if !create {
        NoTable(pt, m, a.mem, a.root, v);
      }
    }

    /** The tables of `m` have changed at page `v`. */
    ghost method Remap(m: nat, v: nat, was: T.Mem, to: T.Option<To>)
      requires m in spaces && v < UserHalf && UserKeys(pt, spaces.Keys)
      requires forall n, o :: n in spaces && o in spaces && spaces[n] == spaces[o] ==> n == o
      requires forall n :: n in spaces ==> spaces[n].Valid() && (n != m ==> ReadsOff(pt, n, spaces[n].mem, spaces[n].root))
      requires ReadsOff(pt, m, was, spaces[m].root) && NoHuge(spaces[m].mem, spaces[m].root)
      requires forall w :: 0 <= w < Pages ==> Tr(spaces[m].mem, spaces[m].root, w) == if w == v then to else Tr(was, spaces[m].root, w)
      modifies this`pt
      ensures Mapped() && pt == Put(old(pt), KeyOf(m, v), to)
    {
      hide Tr, ReadsOff, NoHuge, Put, UserKeys, AddressSpace.Valid;
      ghost var k := KeyOf(m, v);
      ReadsPut(pt, m, was, spaces[m].mem, spaces[m].root, v, to);
      forall n | n in spaces && n != m ensures ReadsOff(Put(pt, k, to), n, spaces[n].mem, spaces[n].root) {
        ReadsOther(pt, k, to, n, spaces[n].mem, spaces[n].root);
      }
      PutKeys(pt, m, v, to, spaces.Keys);
      pt := Put(pt, k, to);
    }

    /** `*pte = e`. */
    method SetPte(m: nat, v: nat, f: nat, e: T.Entry)
      requires Mapped() && m in spaces && v < UserHalf && !e.Sub?
      requires T.Node(spaces[m].mem, spaces[m].root, P3(v)) == T.Some(f)
      modifies spaces[m], this`pt
      ensures Mapped() && pt == Put(old(pt), KeyOf(m, v), LeafTo(e))
      ensures forall w: nat :: w < UserHalf ==> At(m, w) == if w == v then LeafTo(e) else old(At(m, w))
    {
      hide Tr, ReadsOff, T.Node, T.EntryAt, T.Tree, I1, I2, I3, I4, NoHuge, Put, UserKeys, LeafTo, PteOf;
      var a := spaces[m];
      ghost var was := a.mem;
      PutSmall(a.mem, a.root, v, f, e);
      PutNoHuge(a.mem, a.root, v, f, e);
      NoHugeOf(pt, m, a.mem, a.root);
      a.mem := T.Poke(a.mem, f, I1(v), e);
      Remap(m, v, was, LeafTo(e));
    }

    /** alloc_pages(0): a frame nobody refers to; `frame` is whether the allocator finds one. */
    method AllocFrame(frame: bool) returns (f: T.Option<nat>)
      ensures f.Some? ==> f.value in frames && frames[f.value].refs == 0
      ensures f.None? ==> !frame || NoneFree()
    {
      if frame && exists g: nat :: g in frames && frames[g].refs == 0 {
        var g: nat :| g in frames && frames[g].refs == 0;
        return T.Some(g);
      }
      return T.None;
    }

    /** fault_page: no process reads anything else than before, but for zeros at a page touched for the
        first time; after a successful write fault the page is writable. A new page has the rights of its
        area, and a page that had them keeps them. */
    method FaultPage(m: nat, v: nat, canWrite: bool, canExec: bool, write: bool, frame: bool) returns (ok: bool)
      requires Valid() && m in spaces && v < UserHalf && (write ==> canWrite)
      modifies this`frames, this`pt, spaces[m]
      ensures Valid()
      ensures ok ==> KeyOf(m, v) in pt && (write ==> pt[KeyOf(m, v)].writable)
      ensures !ok ==> View() == old(View())
      ensures forall m', v': nat :: m' in spaces && v' < UserHalf && (m' != m || v' != v) ==> Seen(m', v') == old(Seen(m', v'))
      ensures Seen(m, v) == if ok && old(Seen(m, v)).None? then T.Some(ZeroPage()) else old(Seen(m, v))
      ensures forall w: nat :: w < UserHalf && w != v ==> At(m, w) == old(At(m, w))
      ensures ResolvedTo(old(At(m, v)), At(m, v), ok, canWrite, canExec)
      ensures !write && old(At(m, v)).Some? ==> View() == old(View())
      ensures !ok ==> spaces[m].pool == {} || !frame || NoneFree() || (write && old(At(m, v)).Some? && !Bit(old(At(m, v)).value.flags, PTE_WRITABLE) && !Bit(old(At(m, v)).value.flags, PTE_COW))
    {
      hide Mapped, Sound, Seen, FlatSeen, SamePages, Bytes, KeyOf, At, ResolvedTo, NoneFree;
      AllSeen();
      ghost var was := View();
      var f, e := GetPte(m, v, true);
      ok := false;
      SameSelf(was);
      if f.Some? {
        ok := Resolve(m, v, f.value, e, canWrite, canExec, write, frame);
      } else {
        Unresolved(At(m, v), canWrite, canExec);
      }
      AllSeen();
      SeenAfter(was, View(), m, v, ok);
    }

    /** The three cases of fault_page at an entry. */
    method Resolve(m: nat, v: nat, f: nat, e: T.Entry, canWrite: bool, canExec: bool, write: bool, frame: bool) returns (ok: bool)
      requires Valid() && m in spaces && v < UserHalf && (write ==> canWrite)
      requires T.Node(spaces[m].mem, spaces[m].root, P3(v)) == T.Some(f) && !e.Sub? && ReadAt(pt, m, v, LeafTo(e)) && At(m, v) == LeafTo(e)
      modifies this`frames, this`pt, spaces[m]
      ensures Valid()
      ensures ok ==> KeyOf(m, v) in pt && (write ==> pt[KeyOf(m, v)].writable)
      ensures !ok ==> View() == old(View())
      ensures Filled(old(View()), View(), KeyOf(m, v))
      ensures forall w: nat :: w < UserHalf && w != v ==> At(m, w) == old(At(m, w))
      ensures ResolvedTo(old(At(m, v)), At(m, v), ok, canWrite, canExec)
      ensures !write && e.Leaf? ==> View() == old(View())
      ensures !ok ==> !frame || NoneFree() || (write && e.Leaf? && !Bit(e.flags, PTE_WRITABLE) && !Bit(e.flags, PTE_COW))
    {
      hide Mapped, Sound, SamePages, Bytes, KeyOf, T.Node, At, NoneFree;
      ghost var k, was := KeyOf(m, v), View();
      SameSelf(was);
      if !e.Leaf? {
        var g := AllocFrame(frame);
        if g.None? {
          return false;
        }
        MapFreshSound(was, k, g.value, canWrite, ZeroPage());
        SetPte(m, v, f, T.Leaf(g.value, ProtFlags(canWrite, canExec)));
        frames := frames[g.value := Frame(1, ZeroPage())];
        assert View() == MapFresh(was, k, g.value, canWrite, ZeroPage());
        return true;
      }
      if write && Bit(e.flags, PTE_COW) {
        ok := BreakCow(m, v, f, e, canExec, frame);
        return;
      }
      return !write || Bit(e.flags, PTE_WRITABLE);
    }

    /** A write to a shared page: the last owner takes the frame over, others get a copy. */
    method BreakCow(m: nat, v: nat, f: nat, e: T.Entry, canExec: bool, frame: bool) returns (ok: bool)
      requires Valid() && m in spaces && v < UserHalf && e.Leaf?
      requires T.Node(spaces[m].mem, spaces[m].root, P3(v)) == T.Some(f) && ReadAt(pt, m, v, LeafTo(e)) && At(m, v) == LeafTo(e)
      modifies this`frames, this`pt, spaces[m]
      ensures Valid()
      ensures ok ==> KeyOf(m, v) in pt && pt[KeyOf(m, v)].writable
      ensures !ok ==> View() == old(View())
      ensures Filled(old(View()), View(), KeyOf(m, v))
      ensures forall w: nat :: w < UserHalf && w != v ==> At(m, w) == old(At(m, w))
      ensures ResolvedTo(old(At(m, v)), At(m, v), ok, true, canExec)
      ensures !ok ==> !frame || NoneFree()
    {
      hide Mapped, Sound, SamePages, Bytes, KeyOf, T.Node, At, NoneFree, Bit, SameRest;
      ghost var k, was := KeyOf(m, v), View();
      SameSelf(was);
      FrameOf(was, k);
      if frames[e.pfn].refs == 1 {
        AdoptSound(was, k);
        RestBits(e.flags, OwnedFlags(e.flags));
        SetPte(m, v, f, T.Leaf(e.pfn, OwnedFlags(e.flags)));
        assert View() == Adopt(was, k);
        return true;
      }
      var g := AllocFrame(frame);
      if g.None? {
        return false;
      }
      CopySound(was, k, g.value, true);
      SetPte(m, v, f, T.Leaf(g.value, ProtFlags(true, canExec)));
      var copy := frames[e.pfn].bytes;
      var dropped := frames[e.pfn := frames[e.pfn].(refs := frames[e.pfn].refs - 1)];
      frames := dropped[g.value := Frame(1, copy)];
      CopyIs(was, k, g.value, PteOf(LeafTo(e).value), View());
      return true;
    }

    /** unmap_pages at one page: it is gone, its frame has one reference less, and nobody else sees it. */
    method UnmapPage(m: nat, v: nat)
      requires Valid() && m in spaces && v < UserHalf
      modifies this`frames, this`pt, spaces[m]
      ensures Valid()
      ensures KeyOf(m, v) !in old(pt) ==> View() == old(View())
      ensures KeyOf(m, v) in old(pt) ==> Held(old(View()), KeyOf(m, v)) && View() == Drop(old(View()), KeyOf(m, v))
      ensures Seen(m, v) == T.None && At(m, v) == T.None
      ensures forall w: nat :: w < UserHalf && w != v ==> At(m, w) == old(At(m, w))
      ensures forall m', v': nat :: m' in spaces && v' < UserHalf && (m' != m || v' != v) ==> Seen(m', v') == old(Seen(m', v'))
    {
      hide Tr, ReadsOff, Sound, Seen, FlatSeen, SamePages, Bytes, KeyOf, NoHuge, AddressSpace.Valid, UserKeys, Held;
      AllSeen();
      var a := spaces[m];
      ghost var was, k, before := View(), KeyOf(m, v), a.mem;
      NoHugeOf(pt, m, a.mem, a.root);
      EntrySmall(pt, m, a.mem, a.root, v);
      SameSelf(was);
      var r := a.UnmapPage(v);
      if r.Some? {
        FrameOf(was, k);
        DropSound(was, k);
        Remap(m, v, before, T.None);
        frames := frames[r.value := frames[r.value].(refs := frames[r.value].refs - 1)];
        assert View() == Drop(was, k);
      } else {
        assert was.pt.Keys - {k} == was.pt.Keys;
      }
      AllSeen();
      SeenGone(was, View(), m, v);
    }

    /** One round of copy_user_tables: the child's entry is the parent's, neither is writable, and the
        frame has one more owner. Both see the page, and nobody else sees a difference. */
    method SharePage(parent: nat, child: nat, v: nat) returns (ok: bool)
      requires Valid() && parent in spaces && child in spaces && parent != child && v < UserHalf && KeyOf(child, v) !in pt
      modifies this`frames, this`pt, spaces[parent], spaces[child]
      ensures Valid()
      ensures ok && KeyOf(parent, v) in old(pt) ==> Held(old(View()), KeyOf(parent, v)) && View() == Share(old(View()), KeyOf(parent, v), KeyOf(child, v))
      ensures !ok ==> KeyOf(parent, v) in old(pt) && spaces[child].pool == {} && View() == MarkCow(old(View()), KeyOf(parent, v))
      ensures KeyOf(parent, v) !in old(pt) ==> View() == old(View())
      ensures ok ==> Seen(child, v) == old(Seen(parent, v))
      ensures SharedTo(old(At(parent, v)), At(parent, v)) && At(child, v) == if ok then At(parent, v) else T.None
      ensures forall w: nat :: w < UserHalf && w != v ==> At(parent, w) == old(At(parent, w)) && At(child, w) == old(At(child, w))
      ensures forall m', v': nat :: m' in spaces && v' < UserHalf && (m' != child || v' != v || !ok) ==> Seen(m', v') == old(Seen(m', v'))
    {
      hide Mapped, Sound, Seen, FlatSeen, SamePages, Bytes, KeyOf, T.Node, Held, At, SharedTo, Protect;
      AllSeen();
      ghost var was, k, c := View(), KeyOf(parent, v), KeyOf(child, v);
      KeyAt(parent, v);
      KeyAt(child, v);
      SpacesApart(parent, child);
      SameSelf(was);
      var f, e := GetPte(parent, v, false);
      ok := true;
      if f.Some? && e.Leaf? {
        FrameOf(was, k);
        MarkCowSound(was, k);
        ShareSound(was, k, c);
        ok := ShareEntry(parent, child, v, f.value, e);
      } else {
        SharedNone();
      }
      AllSeen();
      SeenShared(was, View(), parent, child, v, ok);
    }

    method ShareEntry(parent: nat, child: nat, v: nat, f: nat, e: T.Entry) returns (ok: bool)
      requires Valid() && parent in spaces && child in spaces && spaces[parent] != spaces[child] && v < UserHalf && KeyOf(child, v) !in pt
      requires e.Leaf? && T.Node(spaces[parent].mem, spaces[parent].root, P3(v)) == T.Some(f)
      requires ReadAt(pt, parent, v, LeafTo(e)) && At(parent, v) == LeafTo(e) && At(child, v) == T.None && e.pfn in frames
      requires Sound(MarkCow(View(), KeyOf(parent, v))) && Sound(Share(View(), KeyOf(parent, v), KeyOf(child, v)))
      modifies this`frames, this`pt, spaces[parent], spaces[child]
      ensures Valid()
      ensures ok ==> View() == Share(old(View()), KeyOf(parent, v), KeyOf(child, v))
      ensures !ok ==> spaces[child].pool == {} && View() == MarkCow(old(View()), KeyOf(parent, v))
      ensures SharedTo(old(At(parent, v)), At(parent, v)) && At(child, v) == if ok then At(parent, v) else T.None
      ensures forall w: nat :: w < UserHalf && w != v ==> At(parent, w) == old(At(parent, w)) && At(child, w) == old(At(child, w))
    {
      hide Mapped, Sound, KeyOf, T.Node, At, Bit, SameRest;
      ghost var was, k, c := View(), KeyOf(parent, v), KeyOf(child, v);
      var shared := T.Leaf(e.pfn, SharedFlags(e.flags));
      RestBits(e.flags, SharedFlags(e.flags));
      SetPte(parent, v, f, shared);
      assert pt == was.pt[k := Protect(was.pt[k])];
      frames := frames[e.pfn := frames[e.pfn].(refs := frames[e.pfn].refs + 1)];
      var g, e' := GetPte(child, v, true);
      if g.Some? {
        SetPte(child, v, g.value, shared);
        assert View() == Share(was, k, c);
        return true;
      }
      frames := frames[e.pfn := frames[e.pfn].(refs := frames[e.pfn].refs - 1)];   // put_page
      assert frames == was.frames;
      assert View() == MarkCow(was, k);
      return false;
    }

    /** A store of the process through its tables, which the CPU allows on a writable page: it changes
        one byte that this process reads, and nothing that another one reads. */
    method Store(m: nat, v: nat, off: nat, b: Byte)
      requires Valid() && m in spaces && v < UserHalf && off < PAGE_BYTES
      requires var to := Tr(spaces[m].mem, spaces[m].root, v); to.Some? && Bit(to.value.flags, PTE_WRITABLE)
      modifies this`frames
      ensures Valid() && pt == old(pt)
      ensures old(Seen(m, v)).Some? && |old(Seen(m, v)).value| == PAGE_BYTES && Seen(m, v) == T.Some(old(Seen(m, v)).value[off := b])
      ensures forall m', v': nat :: m' in spaces && v' < UserHalf && (m' != m || v' != v) ==> Seen(m', v') == old(Seen(m', v'))
    {
      hide Tr, ReadsOff, Sound, Seen, FlatSeen, SamePages, KeyOf, NoHuge, UserKeys;
      AllSeen();
      ghost var was, k := View(), KeyOf(m, v);
      ReadAtOf(pt, m, spaces[m].mem, spaces[m].root, v);
      FrameOf(was, k);
      PageSize(was, k);
      StorePrivate(was, k, off, b);
      var to := spaces[m].Translate(v);
      var f := to.value.pfn;
      frames := frames[f := frames[f].(bytes := frames[f].bytes[off := b])];
      assert View() == Cow.Store(was, k, off, b);
      AllSeen();
      SeenStored(was, View(), m, v, off, b);
    }

    /** Boot: `free` are the frames of the page allocator, and there is no address space. */
    constructor (free: set<nat>)
      ensures Valid() && spaces == map[] && pt == map[] && frames.Keys == free
    {
      frames := map f | f in free :: Frame(0, ZeroPage());
      spaces := map[];
      pt := map[];
    }

    /** mm_create: tables without user pages become an address space. */
    method Create(m: nat, a: AddressSpace)
      requires Valid() && m !in spaces && a !in spaces.Values && a.Valid()
      requires forall v: nat :: v < UserHalf ==> Tr(a.mem, a.root, v) == T.None
      modifies this`spaces
      ensures Valid() && spaces == old(spaces)[m := a] && View() == old(View())
      ensures forall v: nat :: v < UserHalf ==> Seen(m, v) == T.None
      ensures forall m', v: nat :: m' in old(spaces) && v < UserHalf ==> Seen(m', v) == old(Seen(m', v))
    {
      hide Tr, Sound, AddressSpace.Valid, ReadsOff;
      forall n | n in spaces ensures spaces[n] != a {
        assert spaces[n] in spaces.Values;
      }
      EmptyReads(pt, m, spaces.Keys, a.mem, a.root);
      spaces := spaces[m := a];
    }

    /** put_page of each page in the list, and its entry is gone. */
    method PutPages(m: nat, d: seq<VmmPrune.Drop>)
      requires Sound(View()) && m !in spaces && forall a, b :: 0 <= a < b < |d| ==> d[a].page < d[b].page
      requires forall n :: n in spaces ==> ReadsOff(pt, n, spaces[n].mem, spaces[n].root)
      requires forall i :: 0 <= i < |d| ==> KeyOf(m, d[i].page) in pt && pt[KeyOf(m, d[i].page)].frame == d[i].pfn
      modifies this`frames, this`pt
      ensures Sound(View()) && SamePages(old(View()), View(), pt.Keys)
      ensures forall n :: n in spaces ==> ReadsOff(pt, n, spaces[n].mem, spaces[n].root)
      ensures forall k :: k in pt <==> k in old(pt) && !Among(d, m, k)
    {
      hide ReadsOff, Sound, SamePages, Among;
      ghost var was := View();
      SameSelf(was);
      NoneAmong(m);
      for i := 0 to |d|
        invariant Sound(View()) && SamePages(was, View(), pt.Keys)
        invariant forall n :: n in spaces ==> ReadsOff(pt, n, spaces[n].mem, spaces[n].root)
        invariant forall k :: k in pt <==> k in was.pt && !Among(d[..i], m, k)
        invariant forall k :: k in pt ==> pt[k] == was.pt[k]
      {
        ghost var k, before := KeyOf(m, d[i].page), View();
        NotYet(d, i, m);
        AmongNext(d, i, m);
        FrameOf(before, k);
        DropSound(before, k);
        frames := frames[d[i].pfn := frames[d[i].pfn].(refs := frames[d[i].pfn].refs - 1)];
        forall n | n in spaces ensures ReadsOff(pt - {k}, n, spaces[n].mem, spaces[n].root) {
          ReadsOther(pt, k, T.None, n, spaces[n].mem, spaces[n].root);
        }
        pt := pt - {k};
        assert View() == Drop(before, k);
        SameStill(was, before, View());
      }
      assert d[..|d|] == d;
    }

    /** mm_destroy: one reference is dropped for each page of the address space, and no other process
        sees a difference. */
    method Destroy(m: nat)
      requires Valid() && m in spaces
      modifies this, spaces[m]
      ensures Valid() && spaces == old(spaces) - {m}
      ensures forall k :: k in pt <==> k in old(pt) && k.0 != m
      ensures forall m', v: nat :: m' in spaces && v < UserHalf ==> Seen(m', v) == old(Seen(m', v))
    {
      hide Tr, ReadsOff, Sound, Seen, FlatSeen, SamePages, Bytes, NoHuge, AddressSpace.Valid, UserKeys, Held, T.Tree, Huge, IsUserTable, Among, KeyOf;
      AllSeen();
      var a := spaces[m];
      ghost var was, tables := View(), a.mem;
      NoHugeOf(pt, m, tables, a.root);
      NeverHuge(tables, a.root);
      SameSelf(was);
      var d, freed := a.Destroy(frames.Keys);
      DropsAreKeys(was, spaces.Keys, m, tables, a.root, d);
      spaces := spaces - {m};
      PutPages(m, d);
      KeysLeft(was.pt, pt, m, d, old(spaces).Keys);
      AllSeen();
      SeenLeft(was, View(), m);
    }
  }

  /** What fault_page leaves of the flat table: at most one page more, of zeros. */
  ghost predicate Filled(mem: Mem, mem': Mem, k: Key) {
    && SamePages(mem, mem', mem.pt.Keys) && mem'.pt.Keys <= mem.pt.Keys + {k}
    && (k in mem'.pt && k !in mem.pt && mem'.pt[k].frame in mem'.frames ==> Bytes(mem', k) == ZeroPage())
  }

  lemma FrameOf(mem: Mem, k: Key)
    requires Sound(mem) && k in mem.pt
    ensures mem.pt[k].frame in mem.frames && mem.frames[mem.pt[k].frame].refs > 0 && Held(mem, k)
  {
    hide Count;
    CountOne(mem.pt, k);
  }

  lemma CopyIs(mem: Mem, k: Key, g: nat, p: Pte, mem': Mem)
    requires k in mem.pt && mem.pt[k] == p && p.frame in mem.frames && mem.frames[p.frame].refs > 0
    requires mem'.pt == mem.pt[k := Pte(g, true, false)]
    requires mem'.frames == mem.frames[p.frame := mem.frames[p.frame].(refs := mem.frames[p.frame].refs - 1)][g := Frame(1, mem.frames[p.frame].bytes)]
    ensures mem' == MapFresh(Drop(mem, k), k, g, true, Bytes(mem, k))
  {
    assert mem.pt[k := Pte(g, true, false)] == (mem.pt - {k})[k := Pte(g, true, false)];
  }

  ghost predicate Held(mem: Mem, k: Key) {
    k in mem.pt && mem.pt[k].frame in mem.frames && mem.frames[mem.pt[k].frame].refs > 0
  }

  lemma ReadAtOf(pt: map<Key, Pte>, m: nat, tables: T.Mem, root: nat, v: nat)
    requires ReadsOff(pt, m, tables, root) && v < UserHalf
    ensures ReadAt(pt, m, v, Tr(tables, root, v))
  {
    hide Tr, ReadAt;
  }

  lemma EntrySmall(pt: map<Key, Pte>, m: nat, tables: T.Mem, root: nat, v: nat)
    requires ReadsOff(pt, m, tables, root) && v < UserHalf
    ensures ReadAt(pt, m, v, Tr(tables, root, v)) && !Huge(tables, root, v)
  {
    hide Tr, ReadAt, Huge;
  }

  lemma PageSize(mem: Mem, k: Key)
    requires Sound(mem) && k in mem.pt
    ensures mem.pt[k].frame in mem.frames && |Bytes(mem, k)| == PAGE_BYTES && FlatSeen(mem, k) == T.Some(Bytes(mem, k))
  {
    hide Count;
  }

  lemma SeenGone(mem: Mem, mem': Mem, m: nat, v: nat)
    requires Sound(mem) && Sound(mem') && SamePages(mem, mem', mem.pt.Keys - {KeyOf(m, v)}) && mem'.pt.Keys == mem.pt.Keys - {KeyOf(m, v)}
    ensures FlatSeen(mem', KeyOf(m, v)) == T.None
    ensures forall m', v': nat :: m' != m || v' != v ==> FlatSeen(mem', KeyOf(m', v')) == FlatSeen(mem, KeyOf(m', v'))
  {
    hide Count, Bytes;
    forall m', v': nat | m' != m || v' != v ensures FlatSeen(mem', KeyOf(m', v')) == FlatSeen(mem, KeyOf(m', v')) {
      KeyApart(m, v, m', v');
      assert KeyOf(m', v') in mem'.pt ==> Same(mem, mem', KeyOf(m', v'));
    }
  }

  lemma SeenShared(mem: Mem, mem': Mem, parent: nat, child: nat, v: nat, ok: bool)
    requires Sound(mem) && Sound(mem') && parent != child && KeyOf(child, v) !in mem.pt && SamePages(mem, mem', mem.pt.Keys)
    requires mem'.pt.Keys == mem.pt.Keys + (if ok && KeyOf(parent, v) in mem.pt then {KeyOf(child, v)} else {})
    requires KeyOf(child, v) in mem'.pt && mem'.pt[KeyOf(child, v)].frame in mem'.frames ==>
               Held(mem, KeyOf(parent, v)) && Bytes(mem', KeyOf(child, v)) == Bytes(mem, KeyOf(parent, v))
    ensures ok ==> FlatSeen(mem', KeyOf(child, v)) == FlatSeen(mem, KeyOf(parent, v))
    ensures forall m', v': nat :: m' != child || v' != v || !ok ==> FlatSeen(mem', KeyOf(m', v')) == FlatSeen(mem, KeyOf(m', v'))
  {
    hide Count, Bytes;
    forall m', v': nat | m' != child || v' != v || !ok ensures FlatSeen(mem', KeyOf(m', v')) == FlatSeen(mem, KeyOf(m', v')) {
      KeyApart(child, v, m', v');
      assert KeyOf(m', v') in mem.pt ==> Same(mem, mem', KeyOf(m', v'));
    }
    if KeyOf(child, v) in mem'.pt {
      FrameOf(mem', KeyOf(child, v));
    }
  }

  lemma SeenStored(mem: Mem, mem': Mem, m: nat, v: nat, off: nat, b: Byte)
    requires Sound(mem) && Sound(mem') && mem'.pt == mem.pt && KeyOf(m, v) in mem.pt && off < PAGE_BYTES
    requires SamePages(mem, mem', mem.pt.Keys - {KeyOf(m, v)})
    requires mem.pt[KeyOf(m, v)].frame in mem.frames && mem.pt[KeyOf(m, v)].frame in mem'.frames && |Bytes(mem, KeyOf(m, v))| == PAGE_BYTES
    requires Bytes(mem', KeyOf(m, v)) == Bytes(mem, KeyOf(m, v))[off := b]
    ensures FlatSeen(mem', KeyOf(m, v)) == T.Some(Bytes(mem, KeyOf(m, v))[off := b])
    ensures forall m', v': nat :: m' != m || v' != v ==> FlatSeen(mem', KeyOf(m', v')) == FlatSeen(mem, KeyOf(m', v'))
  {
    hide Count, Bytes;
    forall m', v': nat | m' != m || v' != v ensures FlatSeen(mem', KeyOf(m', v')) == FlatSeen(mem, KeyOf(m', v')) {
      KeyApart(m, v, m', v');
      assert KeyOf(m', v') in mem.pt ==> Same(mem, mem', KeyOf(m', v'));
    }
  }

  lemma EmptyReads(pt: map<Key, Pte>, m: nat, ms: set<nat>, tables: T.Mem, root: nat)
    requires UserKeys(pt, ms) && m !in ms && forall v: nat :: v < UserHalf ==> Tr(tables, root, v) == T.None
    ensures ReadsOff(pt, m, tables, root) && UserKeys(pt, ms + {m})
  {
    hide T.Node, T.EntryAt, I1, I2, I3, I4;
    forall v: nat | v < UserHalf ensures !Huge(tables, root, v) && ReadAt(pt, m, v, Tr(tables, root, v)) {
      assert Tr(tables, root, v) == T.None;
    }
  }

  lemma NeverHuge(tables: T.Mem, root: nat)
    requires NoHuge(tables, root)
    ensures forall v :: 0 <= v < UserHalf ==> !Huge(tables, root, v)
  {
    hide Huge;
  }

  /** The page of `k` is among the pages whose reference is dropped. */
  ghost predicate Among(d: seq<VmmPrune.Drop>, m: nat, k: Key) {
    exists i :: 0 <= i < |d| && KeyOf(m, d[i].page) == k
  }

  /** What vmm_destroy_address_space drops are the entries of this address space. */
  lemma DropsAreKeys(mem: Mem, ms: set<nat>, m: nat, tables: T.Mem, root: nat, d: seq<VmmPrune.Drop>)
    requires Sound(mem) && ReadsOff(mem.pt, m, tables, root) && UserKeys(mem.pt, ms)
    requires forall a :: 0 <= a < |d| ==> d[a].page < UserHalf
    requires forall v, x :: 0 <= v < UserHalf ==>
               (VmmPrune.Drop(v, x) in d <==> Tr(tables, root, v).Some? && Tr(tables, root, v).value.pfn == x && x in mem.frames.Keys)
    ensures forall i :: 0 <= i < |d| ==> KeyOf(m, d[i].page) in mem.pt && mem.pt[KeyOf(m, d[i].page)].frame == d[i].pfn
    ensures forall k :: k in mem.pt && k.0 == m ==> Among(d, m, k)
  {
    hide Tr, Count, NoHuge;
    forall i | 0 <= i < |d| ensures KeyOf(m, d[i].page) in mem.pt && mem.pt[KeyOf(m, d[i].page)].frame == d[i].pfn {
      assert VmmPrune.Drop(d[i].page, d[i].pfn) in d;
      assert ReadAt(mem.pt, m, d[i].page, Tr(tables, root, d[i].page));
    }
    forall k | k in mem.pt && k.0 == m ensures Among(d, m, k) {
      var v := k.1 / PAGE_BYTES;
      assert KeyOf(m, v) == k && ReadAt(mem.pt, m, v, Tr(tables, root, v));
      var e := VmmPrune.Drop(v, Tr(tables, root, v).value.pfn);
      assert e in d;
      var i :| 0 <= i < |d| && d[i] == e;
    }
  }

  lemma NoneAmong(m: nat)
    ensures forall k :: !Among([], m, k)
  {
  }

  lemma NotYet(d: seq<VmmPrune.Drop>, i: nat, m: nat)
    requires i < |d| && forall a, b :: 0 <= a < b < |d| ==> d[a].page < d[b].page
    ensures !Among(d[..i], m, KeyOf(m, d[i].page))
  {
  }

  lemma AmongNext(d: seq<VmmPrune.Drop>, i: nat, m: nat)
    requires i < |d|
    ensures forall k :: Among(d[..i + 1], m, k) <==> Among(d[..i], m, k) || k == KeyOf(m, d[i].page)
  {
    hide KeyOf;
    forall k ensures Among(d[..i + 1], m, k) <==> Among(d[..i], m, k) || k == KeyOf(m, d[i].page) {
      assert d[..i + 1] == d[..i] + [d[i]];
      if Among(d[..i], m, k) {
        var j :| 0 <= j < i && KeyOf(m, d[..i][j].page) == k;
        assert KeyOf(m, d[..i + 1][j].page) == k;
      }
      if k == KeyOf(m, d[i].page) {
        assert KeyOf(m, d[..i + 1][i].page) == k;
      }
      if Among(d[..i + 1], m, k) {
        var j :| 0 <= j < i + 1 && KeyOf(m, d[..i + 1][j].page) == k;
        assert j < i ==> KeyOf(m, d[..i][j].page) == k;
      }
    }
  }

  lemma AmongHere(d: seq<VmmPrune.Drop>, m: nat, k: Key)
    requires Among(d, m, k)
    ensures k.0 == m
  {
  }

  lemma SameStill(mem0: Mem, mem1: Mem, mem2: Mem)
    requires SamePages(mem0, mem1, mem1.pt.Keys) && SamePages(mem1, mem2, mem2.pt.Keys) && mem2.pt.Keys <= mem1.pt.Keys
    ensures SamePages(mem0, mem2, mem2.pt.Keys)
  {
    forall k | k in mem2.pt ensures Same(mem0, mem2, k) {
      assert Same(mem0, mem1, k) && Same(mem1, mem2, k);
    }
  }

  lemma KeysLeft(pt: map<Key, Pte>, pt': map<Key, Pte>, m: nat, d: seq<VmmPrune.Drop>, ms: set<nat>)
    requires UserKeys(pt, ms) && (forall k :: k in pt && k.0 == m ==> Among(d, m, k))
    requires forall k :: k in pt' <==> k in pt && !Among(d, m, k)
    ensures UserKeys(pt', ms - {m}) && forall k :: k in pt' <==> k in pt && k.0 != m
  {
    hide Among;
    forall k ensures k in pt' <==> k in pt && k.0 != m {
      if Among(d, m, k) {
        AmongHere(d, m, k);
      }
    }
  }

  lemma SeenLeft(mem: Mem, mem': Mem, m: nat)
    requires Sound(mem) && Sound(mem') && (forall k :: k in mem'.pt <==> k in mem.pt && k.0 != m) && SamePages(mem, mem', mem'.pt.Keys)
    ensures forall m', v: nat :: m' != m ==> FlatSeen(mem', KeyOf(m', v)) == FlatSeen(mem, KeyOf(m', v))
  {
    hide Count, Bytes;
    forall m', v: nat | m' != m ensures FlatSeen(mem', KeyOf(m', v)) == FlatSeen(mem, KeyOf(m', v)) {
      assert KeyOf(m', v) in mem'.pt ==> Same(mem, mem', KeyOf(m', v));
    }
  }

  lemma SeenAfter(mem: Mem, mem': Mem, m: nat, v: nat, ok: bool)
    requires Sound(mem) && Sound(mem') && Filled(mem, mem', KeyOf(m, v))
    requires if ok then KeyOf(m, v) in mem'.pt else mem' == mem
    ensures forall m', v': nat :: m' != m || v' != v ==> FlatSeen(mem', KeyOf(m', v')) == FlatSeen(mem, KeyOf(m', v'))
    ensures FlatSeen(mem', KeyOf(m, v)) ==
            if ok && FlatSeen(mem, KeyOf(m, v)).None? then T.Some(ZeroPage()) else FlatSeen(mem, KeyOf(m, v))
  {
    hide Count, Bytes, SamePages;
    FlatSame(mem, mem', KeyOf(m, v));
    forall m', v': nat | m' != m || v' != v ensures FlatSeen(mem', KeyOf(m', v')) == FlatSeen(mem, KeyOf(m', v')) {
      KeyApart(m, v, m', v');
    }
    if KeyOf(m, v) in mem.pt {
      FrameOf(mem, KeyOf(m, v));
    }
    if KeyOf(m, v) in mem'.pt {
      FrameOf(mem', KeyOf(m, v));
    }
  }

  lemma EntryRead(pt: map<Key, Pte>, m: nat, tables: T.Mem, root: nat, v: nat, e: T.Entry)
    requires ReadsOff(pt, m, tables, root) && v < UserHalf && T.Node(tables, root, P3(v)).Some?
    requires T.EntryAt(tables, root, P3(v), I1(v)) == e
    ensures ReadAt(pt, m, v, LeafTo(e)) && Tr(tables, root, v) == LeafTo(e)
  {
    hide T.Node, T.EntryAt, I1, I2, I3, I4, ReadAt;
    assert !Huge(tables, root, v) && ReadAt(pt, m, v, Tr(tables, root, v));
  }

  lemma NoTable(pt: map<Key, Pte>, m: nat, tables: T.Mem, root: nat, v: nat)
    requires ReadsOff(pt, m, tables, root) && v < UserHalf && T.Node(tables, root, P3(v)) == T.None
    ensures KeyOf(m, v) !in pt
  {
    hide T.Node, I1, I2, I3, I4;
    assert !Huge(tables, root, v) && ReadAt(pt, m, v, Tr(tables, root, v));
    BelowNone(tables, root, v);
  }

  /** What fault_page makes of a translation. */
  ghost predicate ResolvedTo(was: T.Option<To>, now: T.Option<To>, ok: bool, canWrite: bool, canExec: bool) {
    && (!ok ==> now == was)
    && (ok && was.None? ==> now.Some? && now.value.flags == ProtFlags(canWrite, canExec))
    && (was.Some? ==> now.Some? && (Rights(was.value.flags, canWrite, canExec) ==> Rights(now.value.flags, canWrite, canExec)))
  }

  /** What sharing makes of the parent's translation: read-only, the same rights otherwise. */
  ghost predicate SharedTo(was: T.Option<To>, now: T.Option<To>) {
    && (now.Some? <==> was.Some?)
    && (was.Some? ==> now.value.pfn == was.value.pfn && !Bit(now.value.flags, PTE_WRITABLE) && SameRights(was.value.flags, now.value.flags))
  }

  lemma SharedNone()
    ensures SharedTo(T.None, T.None)
  {
  }

  lemma Unresolved(to: T.Option<To>, canWrite: bool, canExec: bool)
    ensures ResolvedTo(to, to, false, canWrite, canExec)
  {
  }

  /** The same rights, whatever they are. */
  ghost predicate SameRights(f: nat, g: nat) {
    forall w, x :: Rights(f, w, x) <==> Rights(g, w, x)
  }

  lemma NotHuge(pt: map<Key, Pte>, m: nat, tables: T.Mem, root: nat, v: nat)
    requires ReadsOff(pt, m, tables, root) && v < UserHalf
    ensures !Huge(tables, root, v)
  {
    hide Tr, ReadAt, Huge;
  }

  lemma NoHugeOf(pt: map<Key, Pte>, m: nat, tables: T.Mem, root: nat)
    requires ReadsOff(pt, m, tables, root)
    ensures NoHuge(tables, root)
  {
  }

  lemma PutKeys(pt: map<Key, Pte>, m: nat, v: nat, to: T.Option<To>, ms: set<nat>)
    requires UserKeys(pt, ms) && m in ms && v < UserHalf
    ensures UserKeys(Put(pt, KeyOf(m, v), to), ms)
  {
  }
}

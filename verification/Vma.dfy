/** The sorted list of memory areas of an address space (kernel/mm/mm.c:95-254, 302-319). */
module Vma {

  const PAGE: nat := 4096
  const USER_START: nat := 0x40_0000
  const USER_END: nat := 0x7FFF_FFFF_F000
  const MMAP_TOP: nat := 0x7000_0000_0000
  const STACK_LIMIT: nat := USER_END - 0x80_0000
  const TWO64: nat := 0x1_0000_0000_0000_0000

  type U64 = x: int | 0 <= x < TWO64

  function Add(a: U64, b: U64): U64 {
    if a + b < TWO64 then a + b else a + b - TWO64
  }

  function Sub(a: U64, b: U64): U64 {
    if a >= b then a - b else a - b + TWO64
  }

  predicate Aligned(a: int) {
    a % PAGE == 0
  }

  function AlignDown(a: nat): (r: nat)
    ensures Aligned(r) && r <= a < r + PAGE
  {
    a - a % PAGE
  }

  /** ALIGN_UP in 64-bit arithmetic: wraps to 0 near the top. */
  function AlignUp(a: U64): (r: U64)
    ensures Aligned(r)
    ensures a <= TWO64 - PAGE ==> a <= r < a + PAGE
    ensures a > TWO64 - PAGE ==> r == 0
  {
    var x := a + PAGE - 1;
    if x < TWO64 then AlignDown(x) else 0
  }

  datatype Kind = Anon | Stack | Heap | Elf
  datatype Area = Area(start: nat, end: nat, prot: nat, kind: Kind)

  /** Page-aligned, non-empty and inside user space. */
  predicate AreaOk(v: Area) {
    Aligned(v.start) && Aligned(v.end) && USER_START <= v.start < v.end <= USER_END
  }

  /** Sorted by start and pairwise disjoint. */
  ghost predicate Valid(vs: seq<Area>) {
    && (forall i :: 0 <= i < |vs| ==> AreaOk(vs[i]))
    && (forall i, j :: 0 <= i < j < |vs| ==> vs[i].end <= vs[j].start)
  }

  predicate Holds(v: Area, a: int) {
    v.start <= a < v.end
  }

  ghost predicate Covered(vs: seq<Area>, a: int) {
    exists i :: 0 <= i < |vs| && Holds(vs[i], a)
  }

  /** find_vma. */
  method Find(vs: seq<Area>, a: int) returns (i: int)
    ensures -1 <= i < |vs|
    ensures i >= 0 ==> Holds(vs[i], a)
    ensures i < 0 <==> !Covered(vs, a)
  {
    i := 0;
    while i < |vs|
      invariant 0 <= i <= |vs|
      invariant forall j :: 0 <= j < i ==> !Holds(vs[j], a)
    {
      if Holds(vs[i], a) {
        return;
      }
      i := i + 1;
    }
    i := -1;
  }

  predicate Overlaps(v: Area, start: int, end: int) {
    start < v.end && end > v.start
  }

  /** range_free: no area meets [start, end). */
  method RangeFree(vs: seq<Area>, start: nat, end: nat) returns (free: bool)
    requires Valid(vs) && start < end
    ensures free <==> forall a :: start <= a < end ==> !Covered(vs, a)
    ensures free <==> forall i :: 0 <= i < |vs| ==> !Overlaps(vs[i], start, end)
  {
    var i := 0;
    while i < |vs|
      invariant 0 <= i <= |vs|
      invariant forall j :: 0 <= j < i ==> !Overlaps(vs[j], start, end)
    {
      if Overlaps(vs[i], start, end) {
        var a := if start < vs[i].start then vs[i].start else start;
        assert start <= a < end && Holds(vs[i], a) && Covered(vs, a);
        return false;
      }
      i := i + 1;
    }
    free := true;
  }

  /** insert_vma: before the first area that starts later. */
  function Insert(vs: seq<Area>, nv: Area): (r: seq<Area>)
    ensures |r| == |vs| + 1
    ensures forall v :: v in r <==> v == nv || v in vs
  {
    if vs == [] then [nv]
    else if nv.start < vs[0].start then [nv] + vs
    else [vs[0]] + Insert(vs[1..], nv)
  }

  lemma {:induction false} InsertKeeps(vs: seq<Area>, nv: Area)
    requires Valid(vs) && AreaOk(nv) && forall i :: 0 <= i < |vs| ==> !Overlaps(vs[i], nv.start, nv.end)
    ensures Valid(Insert(vs, nv))
  {
    hide Aligned;
    if vs != [] && !(nv.start < vs[0].start) {
      var rest := vs[1..];
      assert forall i :: 0 <= i < |rest| ==> rest[i] == vs[i + 1];
      InsertKeeps(rest, nv);
      var r := Insert(rest, nv);
      assert forall j :: 0 <= j < |r| ==> r[j] == nv || r[j] in rest;
      assert forall j :: 0 <= j < |r| ==> vs[0].end <= r[j].start;
    }
  }

  // ---- find_free_area ----

  /** Too close to an area: one free page must stay on either side. */
  predicate Crowds(v: Area, c: U64, len: U64) {
    c < v.end + PAGE && Add(Add(c, len), PAGE) > v.start
  }

  /** No room for `len` bytes at `c`, as plain numbers. */
  ghost predicate Taken(vs: seq<Area>, c: int, len: int) {
    exists i :: 0 <= i < |vs| && c < vs[i].end + PAGE && c + len + PAGE > vs[i].start
  }

  /** The length that find_free_area works with: MMAP_TOP - len is computed without a check, so a
      length above MMAP_TOP acts as a negative one. */
  function Effective(len: U64): (r: int) {
    if len <= MMAP_TOP then len else len - TWO64
  }

  /** The sum that the code compares with the start of an area is not negative; otherwise it wraps to
      something large and the search ends at the first area in its way. */
  predicate Searches(len: U64) {
    Effective(len) + 2 * PAGE + USER_START >= 0
  }

  /** find_free_area: the highest place below MMAP_TOP that keeps a page of distance from every
      area; 0 only if there is none at or above USER_START + PAGE. For lengths above MMAP_TOP, which
      fit nowhere, the same holds of the negative length, so the result may be an address from
      which the length wraps around; unless the length is within USER_START + 2 pages of 2^64, this
      happens if and only if no area is near the first candidate. */
  method FindFreeArea(vs: seq<Area>, len: U64) returns (r: U64)
    requires Valid(vs) && len > 0
    ensures var l := Effective(len);
            && (r != 0 ==> USER_START <= r <= MMAP_TOP - l && !Taken(vs, r, l) && forall c :: r < c <= MMAP_TOP - l ==> Taken(vs, c, l))
            && (r == 0 && Searches(len) ==> forall c :: USER_START + PAGE <= c <= MMAP_TOP - l ==> Taken(vs, c, l))
            && (!Searches(len) ==> r == if Taken(vs, MMAP_TOP - l, l) then 0 else MMAP_TOP - l)
    ensures len > MMAP_TOP && r != 0 ==> r + len >= TWO64
    ensures Aligned(len) ==> Aligned(r)
  {
    var c: U64 := Sub(MMAP_TOP, len);
    ghost var top: nat := MMAP_TOP;
    while true
      invariant Place(vs, c, len, top)
      decreases top
    {
      var moved, i := false, 0;
      ghost var before := top;
      while i < |vs|
        invariant 0 <= i <= |vs| && Place(vs, c, len, top)
        invariant if moved then top < before else top == before && forall j :: 0 <= j < i ==> !Crowds(vs[j], c, len)
      {
        if Crowds(vs[i], c, len) {
          if vs[i].start < Add(Add(len, 2 * PAGE), USER_START) {
            NoRoomLower(vs, c, len, top, i);
            return 0;
          }
          MoveDown(vs, c, len, top, i);
          c := Sub(Sub(vs[i].start, len), PAGE);
          top := vs[i].start - PAGE;
          moved := true;
        }
        i := i + 1;
      }
      if !moved {
        NotTaken(vs, c, len, top);
        PlaceAligned(vs, c, len, top);
        return if c >= USER_START then c else 0;
      }
    }
  }

  /** The candidate ends at `top`, and nothing above it fits. */
  ghost predicate Place(vs: seq<Area>, c: U64, len: U64, top: nat) {
    var l := Effective(len);
    && top <= MMAP_TOP && c == top - l && (!Searches(len) ==> top == MMAP_TOP) && Aligned(top)
    && forall x :: c < x <= MMAP_TOP - l ==> Taken(vs, x, l)
  }

  lemma PlaceAligned(vs: seq<Area>, c: U64, len: U64, top: nat)
    requires Place(vs, c, len, top)
    ensures Aligned(len) ==> Aligned(c)
  {
  }

  /** Too close means taken: neither sum of the test wraps. */
  lemma CrowdsIs(vs: seq<Area>, c: U64, len: U64, top: nat, i: nat)
    requires Valid(vs) && Place(vs, c, len, top) && i < |vs|
    ensures Crowds(vs[i], c, len) <==> c < vs[i].end + PAGE && c + Effective(len) + PAGE > vs[i].start
    ensures Crowds(vs[i], c, len) ==> Taken(vs, c, Effective(len))
  {
    assert c + Effective(len) == top;
    assert Add(c, len) == top;
  }

  lemma NextCandidate(v: Area, c: U64, len: U64, top: nat)
    requires AreaOk(v) && top <= MMAP_TOP && c == top - Effective(len) && (!Searches(len) ==> top == MMAP_TOP) && c < v.end + PAGE && v.start >= Add(Add(len, 2 * PAGE), USER_START)
    ensures Sub(Sub(v.start, len), PAGE) == v.start - PAGE - Effective(len) && Searches(len) && Aligned(v.start - PAGE)
  {
  }

  lemma MoveDown(vs: seq<Area>, c: U64, len: U64, top: nat, i: nat)
    requires Valid(vs) && Place(vs, c, len, top) && i < |vs| && Crowds(vs[i], c, len)
    requires vs[i].start >= Add(Add(len, 2 * PAGE), USER_START)
    ensures vs[i].start - PAGE < top && Place(vs, Sub(Sub(vs[i].start, len), PAGE), len, vs[i].start - PAGE)
  {
    hide Sub, Add, Crowds, Effective, Searches, Aligned;
    CrowdsIs(vs, c, len, top, i);
    assert AreaOk(vs[i]);
    NextCandidate(vs[i], c, len, top);
    var l := Effective(len);
    var c' := Sub(Sub(vs[i].start, len), PAGE);
    forall x | c' < x <= MMAP_TOP - l ensures Taken(vs, x, l) {
      if x <= c {
        assert x < vs[i].end + PAGE && x + l + PAGE > vs[i].start;
      }
    }
  }

  lemma NoRoomLower(vs: seq<Area>, c: U64, len: U64, top: nat, i: nat)
    requires Valid(vs) && Place(vs, c, len, top) && i < |vs| && Crowds(vs[i], c, len)
    requires vs[i].start < Add(Add(len, 2 * PAGE), USER_START)
    ensures Searches(len) ==> forall x :: USER_START + PAGE <= x <= MMAP_TOP - Effective(len) ==> Taken(vs, x, Effective(len))
    ensures !Searches(len) ==> Taken(vs, MMAP_TOP - Effective(len), Effective(len))
  {
    CrowdsIs(vs, c, len, top, i);
    var l := Effective(len);
    if Searches(len) {
      forall x | USER_START + PAGE <= x <= MMAP_TOP - l ensures Taken(vs, x, l) {
        if x <= c {
          assert x < vs[i].end + PAGE && x + l + PAGE > vs[i].start;
        }
      }
    }
  }

  lemma NotTaken(vs: seq<Area>, c: U64, len: U64, top: nat)
    requires Valid(vs) && Place(vs, c, len, top) && forall j :: 0 <= j < |vs| ==> !Crowds(vs[j], c, len)
    ensures !Taken(vs, c, Effective(len))
  {
    forall j: nat | j < |vs| ensures !(c < vs[j].end + PAGE && c + Effective(len) + PAGE > vs[j].start) {
      CrowdsIs(vs, c, len, top, j);
    }
  }

  /** Above MMAP_TOP the result wraps: one page more, in an address space without areas. No caller asks
      for that much; SysMmap refuses lengths above 2^40. */
  method WrappedPlace() returns (r: U64)
    ensures r == TWO64 - PAGE && r + (MMAP_TOP + PAGE) > TWO64
  {
    r := FindFreeArea([], MMAP_TOP + PAGE);
  }

  // ---- mm_map ----

  /** mm_map: at `addr`, or wherever FindFreeArea says when `addr` is 0. Returns 0 and leaves
      the list alone when no node could be allocated or the range is not acceptable. */
  method MapArea(vs: seq<Area>, addr: U64, length: U64, prot: nat, kind: Kind, node: bool) returns (r: U64, vs': seq<Area>)
    requires Valid(vs)
    ensures Valid(vs') && (r == 0 ==> vs' == vs)
    ensures var len := AlignUp(length);
            && (r != 0 ==> node && len > 0 && Aligned(r) && USER_START <= r && r + len <= USER_END && (addr != 0 ==> r == addr))
            && (r != 0 ==> forall a :: r <= a < r + len ==> !Covered(vs, a))
            && (r != 0 ==> forall v :: v in vs' <==> v in vs || v == Area(r, r + len, prot, kind))
            && (r != 0 ==> forall a :: Covered(vs', a) <==> Covered(vs, a) || r <= a < r + len)
    ensures (addr != 0 && node && AlignUp(length) > 0 && Aligned(addr) && USER_START <= addr && addr + AlignUp(length) <= USER_END
             && forall a :: addr <= a < addr + AlignUp(length) ==> !Covered(vs, a)) ==> r == addr
    ensures addr == 0 && node && 0 < AlignUp(length) <= MMAP_TOP ==>
              var len := AlignUp(length);
              if r != 0 then r + len <= MMAP_TOP && !Taken(vs, r, len) && forall c :: r < c <= MMAP_TOP - len ==> Taken(vs, c, len)
              else forall c :: USER_START + PAGE <= c <= MMAP_TOP - len ==> Taken(vs, c, len)
  {
    var len := AlignUp(length);
    r, vs' := 0, vs;
    if len == 0 || !node {
      return;
    }
    var at := addr;
    if at == 0 {
      at := FindFreeArea(vs, len);
    }
    if at == 0 || !Aligned(at) || at < USER_START || Add(at, len) < at || Add(at, len) > USER_END {
      return;
    }
    var free := RangeFree(vs, at, at + len);
    if !free {
      return;
    }
    var nv := Area(at, at + len, prot, kind);
    InsertKeeps(vs, nv);
    InsertCovers(vs, nv);
    r, vs' := at, Insert(vs, nv);
  }

  const MMAP_LIMIT: nat := 0x100_0000_0000        // 2^40

  datatype MmapResult = Mapped(addr: U64) | EINVAL | ENOMEM

  /** The lengths that sys_mmap lets through never wrap, also when rounded up to pages. */
  lemma MmapLength(length: U64)
    requires 0 < length <= MMAP_LIMIT
    ensures 0 < AlignUp(length) <= MMAP_TOP && Searches(AlignUp(length)) && Effective(AlignUp(length)) == AlignUp(length)
  {
  }

  /** sys_mmap: the only caller that leaves the choice of the place to the kernel. Then ENOMEM means
      that no node could be allocated or that no place from USER_START + PAGE on keeps a page from
      every area, and the place chosen is the highest one. */
  method SysMmap(vs: seq<Area>, addr: U64, length: U64, prot: nat, anonPrivate: bool, fixed: bool, node: bool)
    returns (r: MmapResult, vs': seq<Area>)
    requires Valid(vs)
    ensures Valid(vs') && (!r.Mapped? ==> vs' == vs)
    ensures r == EINVAL <==> !anonPrivate || length == 0 || length > MMAP_LIMIT
    ensures r.Mapped? ==> r.addr != 0 && (fixed && addr != 0 ==> r.addr == addr)
    ensures r.Mapped? ==> forall v :: v in vs' <==> v in vs || v == Area(r.addr, r.addr + AlignUp(length), prot % 8, Anon)
    ensures r.Mapped? ==> forall a :: Covered(vs', a) <==> Covered(vs, a) || r.addr <= a < r.addr + AlignUp(length)
    ensures r.Mapped? ==> forall a :: r.addr <= a < r.addr + AlignUp(length) ==> !Covered(vs, a)
    ensures r == ENOMEM && node && fixed && addr != 0 ==>
              !Aligned(addr) || addr < USER_START || addr + AlignUp(length) > USER_END
              || exists a :: addr <= a < addr + AlignUp(length) && Covered(vs, a)
    ensures r == ENOMEM && node && !fixed ==> forall c :: USER_START + PAGE <= c <= MMAP_TOP - AlignUp(length) ==> Taken(vs, c, AlignUp(length))
    ensures r.Mapped? && !fixed ==>
              r.addr + AlignUp(length) <= MMAP_TOP && !Taken(vs, r.addr, AlignUp(length))
              && forall c :: r.addr < c <= MMAP_TOP - AlignUp(length) ==> Taken(vs, c, AlignUp(length))
  {
    vs' := vs;
    if !anonPrivate || length == 0 || length > MMAP_LIMIT {
      return EINVAL, vs;
    }
    MmapLength(length);
    hide AlignUp, Taken, Covered, Valid;
    var at;
    at, vs' := MapArea(vs, if fixed then addr else 0, length, prot % 8, Anon, node);
    r := if at != 0 then Mapped(at) else ENOMEM;
  }

  lemma InsertCovers(vs: seq<Area>, nv: Area)
    ensures forall a :: Covered(Insert(vs, nv), a) <==> Covered(vs, a) || Holds(nv, a)
  {
    var r := Insert(vs, nv);
    forall a ensures Covered(r, a) <==> Covered(vs, a) || Holds(nv, a) {
      CoveredIn(r, a);
      CoveredIn(vs, a);
    }
  }

  lemma CoveredIn(vs: seq<Area>, a: int)
    ensures Covered(vs, a) <==> exists v :: v in vs && Holds(v, a)
  {
  }

  // ---- mm_unmap ----

  /** What is left of one area when [lo, hi) is removed. */
  function Pieces(v: Area, lo: nat, hi: nat): seq<Area> {
    if hi <= v.start || lo >= v.end then [v]
    else
      (if v.start < lo then [v.(end := lo)] else []) + (if hi < v.end then [v.(start := hi)] else [])
  }

  predicate Middle(v: Area, lo: nat, hi: nat) {
    v.start < lo && hi < v.end
  }

  lemma CoveredConcat(a: seq<Area>, b: seq<Area>, x: int)
    ensures Covered(a + b, x) <==> Covered(a, x) || Covered(b, x)
  {
    if Covered(b, x) {
      var i :| 0 <= i < |b| && Holds(b[i], x);
      assert (a + b)[|a| + i] == b[i];
    }
    if Covered(a, x) {
      var i :| 0 <= i < |a| && Holds(a[i], x);
      assert (a + b)[i] == a[i];
    }
  }

  lemma PiecesCover(v: Area, lo: nat, hi: nat, x: int)
    requires v.start < v.end && lo < hi
    ensures Covered(Pieces(v, lo, hi), x) <==> Holds(v, x) && !(lo <= x < hi)
  {
    var p := Pieces(v, lo, hi);
    if |p| > 0 { assert p[0] == p[0]; }
    if Holds(v, x) && !(lo <= x < hi) {
      assert if x < lo && !(hi <= v.start || lo >= v.end) then Holds(p[0], x) else Holds(p[|p| - 1], x);
    }
  }

  /** Areas of `r` all lie in order before `limit`. */
  ghost predicate Before(r: seq<Area>, limit: nat) {
    forall i :: 0 <= i < |r| ==> r[i].end <= limit
  }

  lemma AppendPieces(r: seq<Area>, v: Area, lo: nat, hi: nat)
    requires Valid(r) && AreaOk(v) && Before(r, v.start) && Aligned(lo) && Aligned(hi) && lo < hi
    ensures Valid(r + Pieces(v, lo, hi)) && Before(r + Pieces(v, lo, hi), v.end)
  {
  }

  /** insert_vma puts the upper half of a split area right behind the lower half. */
  lemma {:induction false} InsertAfter(a: seq<Area>, left: Area, right: Area, b: seq<Area>)
    requires left.start <= right.start && (forall i :: 0 <= i < |a| ==> a[i].start <= right.start)
    requires b != [] ==> right.start < b[0].start
    ensures Insert(a + [left] + b, right) == a + [left, right] + b
  {
    if a == [] {
      assert [left] + b == a + [left] + b;
      assert ([left] + b)[1..] == b;
      assert Insert(b, right) == [right] + b;
      assert [left] + ([right] + b) == a + [left, right] + b;
    } else {
      var rest := a[1..];
      InsertAfter(rest, left, right, b);
      assert (a + [left] + b)[1..] == rest + [left] + b;
      assert [a[0]] + (rest + [left, right] + b) == a + [left, right] + b;
    }
  }

  /** What one step of the walk leaves of an area; without a spare node an area that would
      have to be split stays whole. */
  function Step(v: Area, lo: nat, hi: nat, node: bool): seq<Area> {
    if !node && Middle(v, lo, hi) then [v] else Pieces(v, lo, hi)
  }

  function Carve(vs: seq<Area>, lo: nat, hi: nat, node: bool): seq<Area> {
    if vs == [] then [] else Carve(vs[..|vs| - 1], lo, hi, node) + Step(vs[|vs| - 1], lo, hi, node)
  }

  /** mm_unmap over the list of areas. */
  method UnmapAreas(vs: seq<Area>, lo: nat, hi: nat, node: bool) returns (r: seq<Area>)
    requires Valid(vs) && Aligned(lo) && Aligned(hi) && lo < hi
    ensures r == Carve(vs, lo, hi, node)
  {
    hide Carve, Valid, Insert;
    r := [];
    var k, spare := 0, node;
    CarveNext(vs, 0, lo, hi, node);
    while k < |vs|
      invariant 0 <= k <= |vs| && r == Carve(vs[..k], lo, hi, node)
      invariant spare <==> node && forall i :: 0 <= i < k ==> !Middle(vs[i], lo, hi)
    {
      var v := vs[k];
      CarveNext(vs, k, lo, hi, node);
      if v.end <= lo || hi <= v.start {
        r := r + [v];
      } else if lo <= v.start && v.end <= hi {
        // removed as a whole
      } else if lo <= v.start {
        r := r + [v.(start := hi)];
      } else if v.end <= hi {
        r := r + [v.(end := lo)];
      } else {
        OneMiddle(vs, k, lo, hi);
        if spare {
          SplitInsert(vs, k, r, lo, hi, node);
          var list := Insert(r + [v.(end := lo)] + vs[k + 1..], v.(start := hi));
          r, spare := list[..|r| + 2], false;
        } else {
          r := r + [v];
        }
      }
      k := k + 1;
    }
    assert vs[..|vs|] == vs;
  }

  lemma CarveNext(vs: seq<Area>, k: nat, lo: nat, hi: nat, node: bool)
    requires k <= |vs|
    ensures k < |vs| ==> Carve(vs[..k + 1], lo, hi, node) == Carve(vs[..k], lo, hi, node) + Step(vs[k], lo, hi, node)
    ensures Carve(vs[..0], lo, hi, node) == []
  {
    if k < |vs| {
      assert vs[..k + 1][..k] == vs[..k];
    }
  }

  /** Only one area can have [lo, hi) strictly inside. */
  lemma OneMiddle(vs: seq<Area>, k: nat, lo: nat, hi: nat)
    requires Valid(vs) && k < |vs| && Middle(vs[k], lo, hi) && lo < hi
    ensures forall i :: 0 <= i < k ==> !Middle(vs[i], lo, hi)
  {
  }

  lemma SplitInsert(vs: seq<Area>, k: nat, r: seq<Area>, lo: nat, hi: nat, node: bool)
    requires Valid(vs) && k < |vs| && Middle(vs[k], lo, hi) && lo < hi && Aligned(lo) && Aligned(hi)
    requires r == Carve(vs[..k], lo, hi, node)
    ensures Insert(r + [vs[k].(end := lo)] + vs[k + 1..], vs[k].(start := hi)) ==
            r + [vs[k].(end := lo), vs[k].(start := hi)] + vs[k + 1..]
  {
    CarveKeeps(vs[..k], lo, hi, node);
    hide Carve;
    assert forall i :: 0 <= i < |r| ==> r[i].start < r[i].end <= vs[k].start;
    InsertAfter(r, vs[k].(end := lo), vs[k].(start := hi), vs[k + 1..]);
  }

  /** Carving keeps the list valid and within the extent of the original areas. */
  lemma {:induction false} CarveKeeps(vs: seq<Area>, lo: nat, hi: nat, node: bool)
    requires Valid(vs) && Aligned(lo) && Aligned(hi) && lo < hi
    ensures Valid(Carve(vs, lo, hi, node))
    ensures vs != [] ==> Before(Carve(vs, lo, hi, node), vs[|vs| - 1].end)
    ensures vs == [] ==> Carve(vs, lo, hi, node) == []
  {
    if vs != [] {
      var init, v := vs[..|vs| - 1], vs[|vs| - 1];
      CarveKeeps(init, lo, hi, node);
      var r := Carve(init, lo, hi, node);
      assert Before(r, v.start);
      AppendPieces(r, v, lo, hi);
    }
  }

  /** Exactly [lo, hi) is removed from the covered addresses when the spare node was
      obtained or no area has to be split. */
  lemma {:induction false} CarveCovers(vs: seq<Area>, lo: nat, hi: nat, node: bool, x: int)
    requires Valid(vs) && lo < hi && (node || forall i :: 0 <= i < |vs| ==> !Middle(vs[i], lo, hi))
    ensures Covered(Carve(vs, lo, hi, node), x) <==> Covered(vs, x) && !(lo <= x < hi)
  {
    if vs != [] {
      var init, v := vs[..|vs| - 1], vs[|vs| - 1];
      CarveCovers(init, lo, hi, node, x);
      CoveredConcat(Carve(init, lo, hi, node), Pieces(v, lo, hi), x);
      PiecesCover(v, lo, hi, x);
      assert vs == init + [v];
      CoveredConcat(init, [v], x);
      assert Covered([v], x) <==> Holds(v, x) by {
        assert [v][0] == v;
      }
    }
  }

  /** Without the spare node a list that needs a split is left as it was. */
  lemma {:induction false} CarveStuck(vs: seq<Area>, lo: nat, hi: nat, k: nat)
    requires Valid(vs) && lo < hi && k < |vs| && Middle(vs[k], lo, hi)
    ensures Carve(vs, lo, hi, false) == vs
  {
    var init, v := vs[..|vs| - 1], vs[|vs| - 1];
    if k == |vs| - 1 {
      CarveApart(init, lo, hi);
    } else {
      CarveStuck(init, lo, hi, k);
      assert Step(v, lo, hi, false) == [v];
    }
    assert vs == init + [v];
  }

  lemma {:induction false} CarveApart(vs: seq<Area>, lo: nat, hi: nat)
    requires Valid(vs) && forall i :: 0 <= i < |vs| ==> vs[i].end <= lo
    ensures Carve(vs, lo, hi, false) == vs
  {
    if vs != [] {
      var init, v := vs[..|vs| - 1], vs[|vs| - 1];
      CarveApart(init, lo, hi);
      StepApart(v, lo, hi);
      assert vs == init + [v];
    }
  }

  lemma StepApart(v: Area, lo: nat, hi: nat)
    requires v.end <= lo
    ensures Step(v, lo, hi, false) == [v]
  {
  }

  /** Every piece keeps the protection and kind of the area it came from. */
  lemma {:induction false} CarveFrom(vs: seq<Area>, lo: nat, hi: nat, node: bool, p: Area)
    requires p in Carve(vs, lo, hi, node)
    ensures exists v :: v in vs && v.start <= p.start && p.end <= v.end && p.prot == v.prot && p.kind == v.kind
  {
    var init, v := vs[..|vs| - 1], vs[|vs| - 1];
    if p in Carve(init, lo, hi, node) {
      CarveFrom(init, lo, hi, node, p);
    } else {
      assert v in vs;
    }
  }

  // ---- mm_sbrk and grow_stack ----

  lemma MoveEnd(vs: seq<Area>, i: nat, end: nat)
    requires Valid(vs) && i < |vs| && Aligned(end) && vs[i].start < end <= USER_END
    requires i + 1 < |vs| ==> end <= vs[i + 1].start
    ensures Valid(vs[i := vs[i].(end := end)])
  {
  }

  lemma MoveStart(vs: seq<Area>, i: nat, start: nat)
    requires Valid(vs) && i < |vs| && Aligned(start) && USER_START <= start < vs[i].end
    requires i > 0 ==> vs[i - 1].end <= start
    ensures Valid(vs[i := vs[i].(start := start)])
  {
  }

  /** MAX(ALIGN_UP(brk), heap->start + PAGE): the heap never shrinks below one page. */
  function HeapEnd(brk: U64, start: nat): (end: nat)
    ensures end >= start + PAGE && (brk <= MMAP_TOP ==> end >= brk)
    ensures end == start + PAGE || (Aligned(end) && end < brk + PAGE)
  {
    if AlignUp(brk) > start + PAGE then AlignUp(brk) else start + PAGE
  }

  /** The heap is the last area of its kind. */
  ghost predicate IsHeap(vs: seq<Area>, h: int) {
    0 <= h < |vs| && vs[h].kind == Heap && forall j :: h < j < |vs| ==> vs[j].kind != Heap
  }

  /** Where mm_sbrk can move the break of the heap `h`: not below its start nor above MMAP_TOP, and not
      into the next area. */
  ghost predicate MayMoveBreak(vs: seq<Area>, h: int, brkStart: U64, brk: U64, inc: int)
    requires 0 <= h < |vs|
  {
    && 0 <= brk + inc <= MMAP_TOP && (inc < 0 ==> brkStart <= brk + inc)
    && var end := HeapEnd(brk + inc, vs[h].start);
       end <= vs[h].end || h + 1 == |vs| || end <= vs[h + 1].start
  }

  /** The end of the heap `h` has moved with the break; [lo, hi) is what it has lost. */
  ghost predicate BreakMoved(vs: seq<Area>, vs': seq<Area>, brk: U64, h: int, lo: nat, hi: nat) {
    IsHeap(vs, h) &&
    var end := HeapEnd(brk, vs[h].start);
    vs' == vs[h := vs[h].(end := end)] && (if end < vs[h].end then lo == end && hi == vs[h].end else lo == hi)
  }

  /** mm_sbrk over the list: moves the end of the last heap area. The pages in [lo, hi) are
      to be unmapped. */
  method SbrkAreas(vs: seq<Area>, brkStart: U64, brk: U64, inc: int) returns (ok: bool, vs': seq<Area>, brk': U64, lo: nat, hi: nat)
    requires Valid(vs) && -0x8000_0000_0000_0000 <= inc < 0x8000_0000_0000_0000
    ensures Valid(vs') && lo <= hi && Aligned(lo) && Aligned(hi)
    ensures !ok ==> vs' == vs && brk' == brk && lo == hi
    ensures ok ==> brk' == brk + inc && brk' <= MMAP_TOP && (inc < 0 ==> brkStart <= brk')
    ensures ok <==> exists h :: IsHeap(vs, h) && MayMoveBreak(vs, h, brkStart, brk, inc)
    ensures ok ==> exists h :: BreakMoved(vs, vs', brk', h, lo, hi)
  {
    ok, vs', brk', lo, hi := false, vs, brk, 0, 0;
    var next := if inc >= 0 then Add(brk, inc) else Sub(brk, -inc);
    var h, i := -1, 0;
    while i < |vs|
      invariant 0 <= i <= |vs| && -1 <= h < i
      invariant h >= 0 ==> vs[h].kind == Heap
      invariant forall j :: h < j < i ==> vs[j].kind != Heap
    {
      if vs[i].kind == Heap {
        h := i;
      }
      i := i + 1;
    }
    if h < 0 || (inc > 0 && next < brk) || (inc < 0 && next < brkStart) || next > MMAP_TOP {
      return;
    }
    assert IsHeap(vs, h) && next == brk + inc;
    var end := HeapEnd(next, vs[h].start);
    if end > vs[h].end && h + 1 < |vs| && end > vs[h + 1].start {
      return;
    }
    assert end <= USER_END;
    MoveEnd(vs, h, end);
    if end < vs[h].end {
      lo, hi := end, vs[h].end;
    }
    ok, vs', brk' := true, vs[h := vs[h].(end := end)], next;
    assert BreakMoved(vs, vs', brk', h, lo, hi);
  }

  /** The first stack area that starts above `a`. */
  ghost predicate StackAbove(vs: seq<Area>, i: int, a: nat) {
    0 <= i < |vs| && vs[i].kind == Stack && a < vs[i].start && forall j :: 0 <= j < i && vs[j].kind == Stack ==> vs[j].start <= a
  }

  /** The stack can grow down to the page of `a`: within its limit, a page clear of the area below. */
  ghost predicate StackReaches(vs: seq<Area>, a: nat) {
    a >= STACK_LIMIT && exists k :: StackAbove(vs, k, a) && (k > 0 ==> vs[k - 1].end + PAGE <= AlignDown(a))
  }

  /** grow_stack: extends the first stack area above `a` down to it, staying a page clear of
      the area below and within the stack limit; -1 exactly when there is none or it cannot. */
  method GrowStack(vs: seq<Area>, a: nat) returns (i: int, vs': seq<Area>)
    requires Valid(vs)
    ensures Valid(vs') && -1 <= i < |vs'|
    ensures i < 0 ==> vs' == vs
    ensures i >= 0 ==> |vs'| == |vs| && StackAbove(vs, i, a) && Holds(vs'[i], a)
    ensures i >= 0 <==> StackReaches(vs, a)
    ensures i >= 0 ==> vs' == vs[i := vs[i].(start := AlignDown(a))] && (i > 0 ==> vs[i - 1].end + PAGE <= AlignDown(a))
    ensures i >= 0 ==> forall x :: Covered(vs, x) ==> Covered(vs', x)
  {
    i := 0;
    while i < |vs| && !(vs[i].kind == Stack && a < vs[i].start)
      invariant 0 <= i <= |vs|
      invariant forall j :: 0 <= j < i && vs[j].kind == Stack ==> vs[j].start <= a
    {
      i := i + 1;
    }
    assert i < |vs| ==> StackAbove(vs, i, a);
    vs' := vs;
    if i == |vs| || a < STACK_LIMIT || (i > 0 && vs[i - 1].end + PAGE > AlignDown(a)) {
      i := -1;
      return;
    }
    MoveStart(vs, i, AlignDown(a));
    vs' := vs[i := vs[i].(start := AlignDown(a))];
    forall x | Covered(vs, x) ensures Covered(vs', x) {
      var j :| 0 <= j < |vs| && Holds(vs[j], x);
      assert Holds(vs'[j], x);
    }
  }
}

/** The 4-level page tables of kernel/mm/vmm.c:94-161 and 296-361 as a tree of frames, and the
    partial map from pages to frames that they stand for. Pages and frames are numbered by 4 KiB. */
module PageTables {
  datatype Option<T> = None | Some(value: T)

  /** A table entry: not present, a table of the next level, or a page (huge above the last level). */
  datatype Entry = Absent | Sub(t: nat) | Leaf(pfn: nat, flags: nat)

  type Mem = map<nat, seq<Entry>>

  /** The indices from the PML4 down to a table: none for the PML4, three for a PT. */
  type Path = seq<nat>

  /** The frame of the table at a path. */
  ghost function Node(mem: Mem, root: nat, p: Path): (r: Option<nat>) {
    if p == [] then Some(root)
    else
      var up := Node(mem, root, p[..|p| - 1]);
      if up.Some? && up.value in mem && p[|p| - 1] < |mem[up.value]| && mem[up.value][p[|p| - 1]].Sub?
      then Some(mem[up.value][p[|p| - 1]].t) else None
  }

  /** Entry `i` of the table at a path; not present when there is no such table. */
  ghost function EntryAt(mem: Mem, root: nat, p: Path, i: nat): (e: Entry) {
    var f := Node(mem, root, p);
    if f.Some? && f.value in mem && i < |mem[f.value]| then mem[f.value][i] else Absent
  }

  lemma NodeStep(mem: Mem, root: nat, p: Path, i: nat)
    ensures Node(mem, root, p + [i]) == if EntryAt(mem, root, p, i).Sub? then Some(EntryAt(mem, root, p, i).t) else None
  {
    assert (p + [i])[..|p + [i]| - 1] == p;
  }

  /** Every table is there, has 512 entries, no page at the top and no table below the last level. */
  ghost predicate TableOk(mem: Mem, p: Path, f: nat) {
    && f in mem && |mem[f]| == 512
    && (p == [] ==> forall i :: 0 <= i < 512 ==> !mem[f][i].Leaf?)
    && (|p| == 3 ==> forall i :: 0 <= i < 512 ==> !mem[f][i].Sub?)
  }

  ghost predicate Tables(mem: Mem, root: nat) {
    forall p {:trigger Node(mem, root, p)} :: |p| <= 3 && Node(mem, root, p).Some? ==> TableOk(mem, p, Node(mem, root, p).value)
  }

  /** No frame is the table of two paths. */
  ghost predicate Apart(mem: Mem, root: nat) {
    forall p, q {:trigger Node(mem, root, p), Node(mem, root, q)} ::
      |p| <= 3 && |q| <= 3 && Node(mem, root, p).Some? && Node(mem, root, p) == Node(mem, root, q) ==> p == q
  }

  ghost predicate Tree(mem: Mem, root: nat) {
    Tables(mem, root) && Apart(mem, root)
  }

  // ---- Changing one entry ----

  function Poke(mem: Mem, f: nat, i: nat, e: Entry): (r: Mem)
    requires f in mem && i < |mem[f]|
    ensures r.Keys == mem.Keys && |r[f]| == |mem[f]|
  {
    mem[f := mem[f][i := e]]
  }

  /** Entry `i` of the table `f` of path `p` is no table, and may become `e`. */
  ghost predicate CanPoke(mem: Mem, root: nat, p: Path, f: nat, i: nat, e: Entry) {
    && Tree(mem, root) && |p| <= 3 && Node(mem, root, p) == Some(f) && i < 512 && f in mem && |mem[f]| == 512
    && !mem[f][i].Sub? && !e.Sub? && (p == [] ==> !e.Leaf?)
  }

  lemma PokeEntry(mem: Mem, root: nat, p: Path, f: nat, i: nat, e: Entry, q: Path, j: nat)
    requires CanPoke(mem, root, p, f, i, e) && |q| <= 3 && Node(Poke(mem, f, i, e), root, q) == Node(mem, root, q)
    ensures EntryAt(Poke(mem, f, i, e), root, q, j) == if q == p && j == i then e else EntryAt(mem, root, q, j)
  {
  }

  /** A change of a page entry moves no table. */
  lemma {:induction false} PokeNodes(mem: Mem, root: nat, p: Path, f: nat, i: nat, e: Entry, q: Path)
    requires CanPoke(mem, root, p, f, i, e) && |q| <= 3
    ensures Node(Poke(mem, f, i, e), root, q) == Node(mem, root, q)
    decreases |q|
  {
    if q != [] {
      PokeNodes(mem, root, p, f, i, e, q[..|q| - 1]);
    }
  }

  lemma PokeTree(mem: Mem, root: nat, p: Path, f: nat, i: nat, e: Entry)
    requires CanPoke(mem, root, p, f, i, e) && forall q: Path :: |q| <= 3 ==> Node(Poke(mem, f, i, e), root, q) == Node(mem, root, q)
    ensures Tree(Poke(mem, f, i, e), root)
  {
    var m := Poke(mem, f, i, e);
    forall q: Path | |q| <= 3 && Node(m, root, q).Some? ensures TableOk(m, q, Node(m, root, q).value) {
      assert TableOk(mem, q, Node(mem, root, q).value);
    }
  }

  lemma PokeEntries(mem: Mem, root: nat, p: Path, f: nat, i: nat, e: Entry)
    requires CanPoke(mem, root, p, f, i, e)
    ensures var m := Poke(mem, f, i, e);
            && Tree(m, root) && (forall q: Path :: |q| <= 3 ==> Node(m, root, q) == Node(mem, root, q))
            && forall q, j :: |q| <= 3 ==> EntryAt(m, root, q, j) == if q == p && j == i then e else EntryAt(mem, root, q, j)
  {
    hide Tree, EntryAt, Node;
    var m := Poke(mem, f, i, e);
    forall q: Path | |q| <= 3 ensures Node(m, root, q) == Node(mem, root, q) {
      PokeNodes(mem, root, p, f, i, e, q);
    }
    PokeTree(mem, root, p, f, i, e);
    forall q: Path, j: nat | |q| <= 3 ensures EntryAt(m, root, q, j) == if q == p && j == i then e else EntryAt(mem, root, q, j) {
      PokeEntry(mem, root, p, f, i, e, q, j);
    }
  }

  // ---- A new table ----

  function Blank(): (t: seq<Entry>)
    ensures |t| == 512 && forall i :: 0 <= i < 512 ==> t[i] == Absent
  {
    seq(512, _ => Absent)
  }

  function Grown(mem: Mem, f: nat, i: nat, t: nat): (r: Mem)
    requires f in mem && i < |mem[f]| && t !in mem
  {
    mem[f := mem[f][i := Sub(t)]][t := Blank()]
  }

  /** Entry `i` of the table `f` of path `p` may become the new table `t`. */
  ghost predicate CanGrow(mem: Mem, root: nat, p: Path, f: nat, i: nat, t: nat) {
    && Tree(mem, root) && |p| <= 2 && Node(mem, root, p) == Some(f) && i < 512 && f in mem && |mem[f]| == 512
    && mem[f][i] == Absent && t !in mem
  }

  lemma GrownEntry(mem: Mem, root: nat, p: Path, f: nat, i: nat, t: nat, q: Path, j: nat)
    requires CanGrow(mem, root, p, f, i, t) && |q| <= 3
    requires Node(Grown(mem, f, i, t), root, q) == if q == p + [i] then Some(t) else Node(mem, root, q)
    ensures EntryAt(Grown(mem, f, i, t), root, q, j) == if q == p && j == i then Sub(t) else EntryAt(mem, root, q, j)
  {
    NodeStep(mem, root, p, i);
    assert p != p + [i];
    if q != p + [i] && Node(mem, root, q).Some? {
      assert Node(mem, root, q).value in mem;
    }
  }

  lemma {:induction false} GrownNodes(mem: Mem, root: nat, p: Path, f: nat, i: nat, t: nat, q: Path)
    requires CanGrow(mem, root, p, f, i, t) && |q| <= 3
    ensures Node(Grown(mem, f, i, t), root, q) == if q == p + [i] then Some(t) else Node(mem, root, q)
    decreases |q|
  {
    hide Tree, EntryAt;
    if q != [] {
      var u, j := q[..|q| - 1], q[|q| - 1];
      assert q == u + [j];
      GrownNodes(mem, root, p, f, i, t, u);
      GrownEntry(mem, root, p, f, i, t, u, j);
      NodeStep(mem, root, u, j);
      NodeStep(Grown(mem, f, i, t), root, u, j);
      if u == p && j == i {
      } else {
        assert q == p + [i] ==> u == p && j == i;
      }
    }
  }

  lemma GrownTree(mem: Mem, root: nat, p: Path, f: nat, i: nat, t: nat)
    requires CanGrow(mem, root, p, f, i, t)
    requires forall q: Path :: |q| <= 3 ==> Node(Grown(mem, f, i, t), root, q) == if q == p + [i] then Some(t) else Node(mem, root, q)
    ensures Tree(Grown(mem, f, i, t), root)
  {
    var m := Grown(mem, f, i, t);
    forall q: Path | |q| <= 3 && Node(m, root, q).Some? ensures TableOk(m, q, Node(m, root, q).value) {
      if q != p + [i] {
        assert TableOk(mem, q, Node(mem, root, q).value);
      }
    }
    assert forall q: Path :: |q| <= 3 && Node(mem, root, q).Some? ==> Node(mem, root, q).value != t;
  }

  lemma GrownEntries(mem: Mem, root: nat, p: Path, f: nat, i: nat, t: nat)
    requires CanGrow(mem, root, p, f, i, t)
    ensures var m := Grown(mem, f, i, t);
            && Tree(m, root) && Node(m, root, p + [i]) == Some(t)
            && (forall q: Path :: |q| <= 3 && q != p + [i] ==> Node(m, root, q) == Node(mem, root, q))
            && forall q, j :: |q| <= 3 ==> EntryAt(m, root, q, j) == if q == p && j == i then Sub(t) else EntryAt(mem, root, q, j)
  {
    hide Tree, EntryAt, Node;
    var m := Grown(mem, f, i, t);
    forall q: Path | |q| <= 3 ensures Node(m, root, q) == if q == p + [i] then Some(t) else Node(mem, root, q) {
      GrownNodes(mem, root, p, f, i, t, q);
    }
    GrownTree(mem, root, p, f, i, t);
    forall q: Path, j: nat | |q| <= 3 ensures EntryAt(m, root, q, j) == if q == p && j == i then Sub(t) else EntryAt(mem, root, q, j) {
      GrownEntry(mem, root, p, f, i, t, q, j);
    }
  }

  // ---- Dropping an empty table ----

  predicate EmptyTable(t: seq<Entry>) {
    forall i :: 0 <= i < |t| ==> t[i] == Absent
  }

  function Pruned(mem: Mem, f: nat, i: nat): (r: Mem)
    requires f in mem && i < |mem[f]| && mem[f][i].Sub?
  {
    mem[f := mem[f][i := Absent]] - {mem[f][i].t}
  }

  /** Table `f` of path `p` has an empty table below entry `i`. */
  ghost predicate CanPrune(mem: Mem, root: nat, p: Path, f: nat, i: nat) {
    && Tree(mem, root) && |p| <= 2 && Node(mem, root, p) == Some(f) && i < 512 && f in mem && |mem[f]| == 512
    && mem[f][i].Sub? && mem[f][i].t in mem && EmptyTable(mem[mem[f][i].t])
  }

  lemma PrunedEntry(mem: Mem, root: nat, p: Path, f: nat, i: nat, q: Path, j: nat)
    requires CanPrune(mem, root, p, f, i) && |q| <= 3
    requires Node(Pruned(mem, f, i), root, q) == if q == p + [i] then None else Node(mem, root, q)
    ensures EntryAt(Pruned(mem, f, i), root, q, j) == if q == p && j == i then Absent else EntryAt(mem, root, q, j)
  {
    var c := mem[f][i].t;
    NodeStep(mem, root, p, i);
    assert p != p + [i];
    assert Node(mem, root, p + [i]) == Some(c) && c != f;
    if q != p + [i] && Node(mem, root, q).Some? {
      assert Node(mem, root, q) != Node(mem, root, p + [i]);
    }
  }

  lemma {:induction false} PrunedNodes(mem: Mem, root: nat, p: Path, f: nat, i: nat, q: Path)
    requires CanPrune(mem, root, p, f, i) && |q| <= 3
    ensures Node(Pruned(mem, f, i), root, q) == if q == p + [i] then None else Node(mem, root, q)
    decreases |q|
  {
    hide Tree, EntryAt, EmptyTable;
    if q != [] {
      var u, j := q[..|q| - 1], q[|q| - 1];
      assert q == u + [j];
      PrunedNodes(mem, root, p, f, i, u);
      PrunedEntry(mem, root, p, f, i, u, j);
      NodeStep(mem, root, u, j);
      NodeStep(Pruned(mem, f, i), root, u, j);
      if u == p && j == i {
      } else {
        assert q == p + [i] ==> u == p && j == i;
      }
    }
  }

  lemma PrunedTree(mem: Mem, root: nat, p: Path, f: nat, i: nat)
    requires CanPrune(mem, root, p, f, i)
    requires forall q: Path :: |q| <= 3 ==> Node(Pruned(mem, f, i), root, q) == if q == p + [i] then None else Node(mem, root, q)
    ensures Tree(Pruned(mem, f, i), root)
  {
    var m := Pruned(mem, f, i);
    var c := mem[f][i].t;
    NodeStep(mem, root, p, i);
    assert p != p + [i];
    assert Node(mem, root, p + [i]) == Some(c);
    forall q: Path | |q| <= 3 && Node(m, root, q).Some? ensures TableOk(m, q, Node(m, root, q).value) {
      assert Node(mem, root, q) != Node(mem, root, p + [i]);
      assert TableOk(mem, q, Node(mem, root, q).value);
    }
  }

  lemma PrunedEntries(mem: Mem, root: nat, p: Path, f: nat, i: nat)
    requires CanPrune(mem, root, p, f, i)
    ensures var m := Pruned(mem, f, i);
            && Tree(m, root) && Node(m, root, p + [i]) == None
            && (forall q: Path :: |q| <= 3 && q != p + [i] ==> Node(m, root, q) == Node(mem, root, q))
            && forall q, j :: |q| <= 3 ==> EntryAt(m, root, q, j) == if q == p && j == i then Absent else EntryAt(mem, root, q, j)
  {
    hide Tree, EntryAt, EmptyTable, Node;
    var m := Pruned(mem, f, i);
    forall q: Path | |q| <= 3 ensures Node(m, root, q) == if q == p + [i] then None else Node(mem, root, q) {
      PrunedNodes(mem, root, p, f, i, q);
    }
    PrunedTree(mem, root, p, f, i);
    forall q: Path, j: nat | |q| <= 3 ensures EntryAt(m, root, q, j) == if q == p && j == i then Absent else EntryAt(mem, root, q, j) {
      PrunedEntry(mem, root, p, f, i, q, j);
    }
  }
}

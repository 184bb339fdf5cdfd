/** A directory as blocks of records, and the map from names to inodes that it stands for
    (kernel/fs/ext2.c:862-1098). */
module Ext2Dir {
  import opened Ext2Map
  import opened Ext2Dirent

  datatype Option<T> = None | Some(value: T)

  /** What a name is bound to. */
  datatype Target = Target(ino: nat, ft: Byte)

  // ---- Lists of records ----

  function Binding(r: Rec): (m: map<Name, Target>) {
    if r.ino != 0 then map[r.name := Target(r.ino, r.ft)] else map[]
  }

  /** The map of a list of records; the first record of a name counts. */
  ghost function Bind(rs: seq<Rec>): (m: map<Name, Target>) {
    if rs == [] then map[] else Bind(rs[1..]) + Binding(rs[0])
  }

  /** No name is in two live records. */
  ghost predicate Distinct(rs: seq<Rec>) {
    rs == [] || (Distinct(rs[1..]) && Bind(rs[1..]).Keys !! Binding(rs[0]).Keys)
  }

  lemma {:induction false} BindConcat(a: seq<Rec>, b: seq<Rec>)
    ensures Bind(a + b) == Bind(b) + Bind(a)
    decreases |a|
  {
    hide Binding;
    if a == [] {
      assert a + b == b;
    } else {
      assert (a + b)[1..] == a[1..] + b;
      BindConcat(a[1..], b);
    }
  }

  lemma {:induction false} DistinctConcat(a: seq<Rec>, b: seq<Rec>)
    ensures Distinct(a + b) <==> Distinct(a) && Distinct(b) && Bind(a).Keys !! Bind(b).Keys
    decreases |a|
  {
    hide Binding;
    if a == [] {
      assert a + b == b;
    } else {
      assert (a + b)[1..] == a[1..] + b;
      DistinctConcat(a[1..], b);
      BindConcat(a[1..], b);
    }
  }

  lemma BindOne(r: Rec)
    ensures Bind([r]) == Binding(r) && Distinct([r])
  {
    assert [r][1..] == [];
  }

  lemma BindTwo(r: Rec, q: Rec)
    ensures Bind([r, q]) == Binding(q) + Binding(r)
    ensures Distinct([r, q]) <==> Binding(r).Keys !! Binding(q).Keys
  {
    assert [r, q] == [r] + [q];
    BindConcat([r], [q]);
    DistinctConcat([r], [q]);
    BindOne(r);
    BindOne(q);
  }

  lemma BindMiddle(a: seq<Rec>, m: seq<Rec>, z: seq<Rec>)
    ensures Bind(a + (m + z)) == Bind(z) + Bind(m) + Bind(a)
    ensures Distinct(a + (m + z)) <==> Distinct(a) && Distinct(m) && Distinct(z)
                                       && Bind(m).Keys !! Bind(z).Keys && Bind(a).Keys !! Bind(z).Keys && Bind(a).Keys !! Bind(m).Keys
  {
    hide Bind, Distinct;
    BindConcat(a, m + z);
    BindConcat(m, z);
    DistinctConcat(a, m + z);
    DistinctConcat(m, z);
  }

  /** The list grew by one binding. */
  ghost predicate Gained(rs: seq<Rec>, rs': seq<Rec>, name: Name, x: Target) {
    Bind(rs') == Bind(rs)[name := x] && Distinct(rs')
  }

  /** The list lost one binding. */
  ghost predicate Lost(rs: seq<Rec>, rs': seq<Rec>, name: Name) {
    Bind(rs') == Bind(rs) - {name} && Distinct(rs')
  }

  lemma GainReplace(a: seq<Rec>, was: seq<Rec>, now: seq<Rec>, z: seq<Rec>, name: Name, x: Target)
    requires Distinct(a + (was + z)) && name !in Bind(a + (was + z)) && Gained(was, now, name, x)
    ensures Gained(a + (was + z), a + (now + z), name, x)
  {
    hide Bind, Distinct;
    BindMiddle(a, was, z);
    BindMiddle(a, now, z);
  }

  lemma LoseReplace(a: seq<Rec>, was: seq<Rec>, now: seq<Rec>, z: seq<Rec>, name: Name)
    requires Distinct(a + (was + z)) && name in Bind(was) && Lost(was, now, name)
    ensures name in Bind(a + (was + z)) && Lost(a + (was + z), a + (now + z), name)
  {
    hide Bind, Distinct;
    BindMiddle(a, was, z);
    BindMiddle(a, now, z);
  }

  /** The list has another inode for a name that it binds. */
  lemma ChangeReplace(a: seq<Rec>, was: seq<Rec>, now: seq<Rec>, z: seq<Rec>, name: Name, x: Target)
    requires Distinct(a + (was + z)) && name in Bind(was) && Gained(was, now, name, x)
    ensures name in Bind(a + (was + z)) && Gained(a + (was + z), a + (now + z), name, x)
  {
    hide Bind, Distinct;
    BindMiddle(a, was, z);
    BindMiddle(a, now, z);
  }

  /** No free record still holds the name `..`, so that dotdot_visit, which does not look at the
      inode, stops at the live one. */
  ghost predicate Marked(rs: seq<Rec>) {
    forall r :: r in rs && r.name == DotDot ==> r.ino != 0
  }

  // ---- One block ----

  predicate Hit(r: Rec, name: Name) {
    r.ino != 0 && r.name == name
  }

  lemma {:induction false} BindMiss(rs: seq<Rec>, name: Name)
    requires forall i :: 0 <= i < |rs| ==> !Hit(rs[i], name)
    ensures name !in Bind(rs)
    decreases |rs|
  {
    if rs != [] {
      assert !Hit(rs[0], name);
      BindMiss(rs[1..], name);
    }
  }

  /** What the walk over a block has met so far. */
  ghost predicate Met(b: Block, o: nat, prev: Option<nat>) {
    Start(b, 0, o) && (if prev.None? then o == 0 else prev.value < o && Start(b, 0, prev.value) && RecOk(b, prev.value) && Next(b, prev.value) == o)
  }

  lemma MetNext(b: Block, o: nat, prev: Option<nat>)
    requires Met(b, o, prev) && RecOk(b, o)
    ensures Met(b, Next(b, o), Some(o)) && Before(b, 0, Next(b, o)) == Before(b, 0, o) + [RecAt(b, o)]
  {
    hide RecOk, RecAt, Next;
    StartNext(b, 0, o);
  }

  /** The walk of dir_iterate with find_visit or remove_visit: the first record of a name. */
  method FindInBlock(b: Block, name: Name) returns (at: Option<nat>, prev: Option<nat>)
    ensures at.None? ==> name !in Bind(Recs(b, 0))
    ensures at.Some? ==> Met(b, at.value, prev) && at.value < |b| && RecOk(b, at.value) && Hit(RecAt(b, at.value), name)
    ensures at.Some? ==> name !in Bind(Before(b, 0, at.value))
  {
    hide RecOk, RecAt, Next, RecSize, Bind;
    var o: nat := 0;
    prev := None;
    while o < |b|
      invariant Met(b, o, prev)
      invariant forall i :: 0 <= i < |Before(b, 0, o)| ==> !Hit(Before(b, 0, o)[i], name)
      decreases |b| - o
    {
      if !RecOk(b, o) {
        break;
      }
      if Hit(RecAt(b, o), name) {
        BindMiss(Before(b, 0, o), name);
        return Some(o), prev;
      }
      MetNext(b, o, prev);
      prev := Some(o);
      o := Next(b, o);
    }
    StartRecs(b, 0, o);
    BindMiss(Before(b, 0, o), name);
    assert Before(b, 0, o) + [] == Before(b, 0, o);
    return None, None;
  }

  /** The walk of dir_iterate with a visitor that stops at the first record with a property. */
  method Visit(b: Block, hit: Rec -> bool) returns (at: Option<nat>)
    ensures at.None? ==> forall r :: r in Recs(b, 0) ==> !hit(r)
    ensures at.Some? ==> Start(b, 0, at.value) && at.value < |b| && RecOk(b, at.value) && hit(RecAt(b, at.value))
    ensures at.Some? ==> forall r :: r in Before(b, 0, at.value) ==> !hit(r)
  {
    hide RecOk, RecAt, Next, RecSize;
    var o: nat := 0;
    while o < |b|
      invariant Start(b, 0, o)
      invariant forall r :: r in Before(b, 0, o) ==> !hit(r)
      decreases |b| - o
    {
      if !RecOk(b, o) {
        break;
      }
      if hit(RecAt(b, o)) {
        return Some(o);
      }
      StartNext(b, 0, o);
      o := Next(b, o);
    }
    StartRecs(b, 0, o);
    return None;
  }

  /** add_visit: the block with a record for the name, at the record at `x`. */
  function Added(b: Block, x: nat, ino: nat, name: Name, ft: Byte): (c: Block)
    requires RecOk(b, x) && Roomy(RecAt(b, x), name) && ino < 0x1_0000_0000 && |name| < 256
    ensures |c| == |b|
  {
    if RecAt(b, x).ino != 0 then Split(b, x, ino, name, ft) else Fill(b, x, ino, name, ft)
  }

  lemma SwapGains(b: Block, c: Block, x: nat, rs: seq<Rec>, name: Name, t: Target)
    requires Swapped(b, c, x, rs) && Distinct(Recs(b, 0)) && name !in Bind(Recs(b, 0))
    requires Gained([RecAt(b, x)], rs, name, t)
    ensures Tiled(c, 0) && Gained(Recs(b, 0), Recs(c, 0), name, t)
  {
    hide RecOk, RecAt, Next, Gained, Bind, Distinct;
    GainReplace(Before(b, 0, x), [RecAt(b, x)], rs, Recs(b, Next(b, x)), name, t);
  }

  lemma AddedGains(b: Block, x: nat, ino: nat, name: Name, ft: Byte)
    requires Tiled(b, 0) && Start(b, 0, x) && x < |b| && RecOk(b, x) && Roomy(RecAt(b, x), name) && 0 < ino < 0x1_0000_0000 && |name| < 256
    requires Distinct(Recs(b, 0)) && name !in Bind(Recs(b, 0))
    ensures var c := Added(b, x, ino, name, ft); Tiled(c, 0) && Gained(Recs(b, 0), Recs(c, 0), name, Target(ino, ft))
  {
    hide RecOk, RecAt, Next, Split, Fill, RecSize, Roomy, Swapped, Tiled, Recs, Start;
    var d := RecAt(b, x);
    StartTiled(b, 0, x);
    BindOne(d);
    HitBound(b, x);
    if d.ino != 0 {
      var used := RecSize(|d.name|);
      var nd := Rec(ino, d.len - used, name, ft);
      SplitRecs(b, x, ino, name, ft);
      SplitStorable(b, x, ino, name, ft);
      BindTwo(d.(len := used), nd);
      SwapGains(b, Split(b, x, ino, name, ft), x, [d.(len := used), nd], name, Target(ino, ft));
    } else {
      var nd := Rec(ino, d.len, name, ft);
      FillRecs(b, x, ino, name, ft);
      BindOne(nd);
      SwapGains(b, Fill(b, x, ino, name, ft), x, [nd], name, Target(ino, ft));
    }
  }

  /** A live record of a block binds its name there. */
  lemma HitBound(b: Block, x: nat)
    requires Tiled(b, 0) && Start(b, 0, x) && x < |b| && RecOk(b, x)
    ensures RecAt(b, x).ino != 0 ==> RecAt(b, x).name in Bind(Recs(b, 0))
  {
    hide RecOk, RecAt, Next;
    StartTiled(b, 0, x);
    BindConcat(Before(b, 0, x), Recs(b, x));
    assert Recs(b, x) == [RecAt(b, x)] + Recs(b, Next(b, x));
    BindConcat([RecAt(b, x)], Recs(b, Next(b, x)));
    BindOne(RecAt(b, x));
  }

  /** remove_visit: the block without the record at `x`. */
  function Removed(b: Block, x: nat, prev: Option<nat>): (c: Block)
    requires RecOk(b, x) && (prev.Some? ==> RecOk(b, prev.value) && Next(b, prev.value) == x) && |b| < 0x1_0000
    ensures |c| == |b|
  {
    if prev.Some? then Swallowed(b, prev.value) else Numbered(b, x, 0)
  }

  lemma RemovedLoses(b: Block, x: nat, prev: Option<nat>, name: Name)
    requires Tiled(b, 0) && Met(b, x, prev) && x < |b| < 0x1_0000 && RecOk(b, x) && Hit(RecAt(b, x), name)
    requires Distinct(Recs(b, 0))
    ensures var c := Removed(b, x, prev); Tiled(c, 0) && Lost(Recs(b, 0), Recs(c, 0), name)
    ensures name in Bind(Recs(b, 0))
  {
    hide RecOk, RecAt, Next, Numbered, Swallowed, Recs, Tiled, Start, Distinct, Bind;
    StartTiled(b, 0, x);
    NextTiled(b, x);
    if prev.Some? {
      SwallowLoses(b, prev.value, x, Next(b, x), name);
    } else {
      FreedLoses(b, x, name);
    }
  }

  lemma NextTiled(b: Block, x: nat)
    requires Tiled(b, x) && x < |b|
    ensures RecOk(b, x) && Tiled(b, Next(b, x)) && Recs(b, x) == [RecAt(b, x)] + Recs(b, Next(b, x))
  {
    hide RecOk, RecAt, Next;
  }

  lemma FreedLoses(b: Block, x: nat, name: Name)
    requires Tiled(b, 0) && Start(b, 0, x) && x < |b| && RecOk(b, x) && Hit(RecAt(b, x), name) && Distinct(Recs(b, 0))
    ensures Tiled(Numbered(b, x, 0), 0) && Lost(Recs(b, 0), Recs(Numbered(b, x, 0), 0), name) && name in Bind(Recs(b, 0))
  {
    hide RecOk, RecAt, Next, Numbered, Recs, Tiled, Start, Distinct;
    var d := RecAt(b, x);
    StartTiled(b, 0, x);
    NumberedRecs(b, x, 0);
    BindOne(d);
    BindOne(d.(ino := 0));
    assert Binding(d) - {name} == map[];
    LoseReplace(Before(b, 0, x), [d], [d.(ino := 0)], Recs(b, Next(b, x)), name);
  }

  lemma SwallowLoses(b: Block, p: nat, x: nat, n: nat, name: Name)
    requires Tiled(b, 0) && Start(b, 0, p) && RecOk(b, p) && Next(b, p) == x < |b| < 0x1_0000 && Tiled(b, x)
    requires RecOk(b, x) && n == Next(b, x) && Tiled(b, n) && Hit(RecAt(b, x), name) && Distinct(Recs(b, 0))
    ensures Tiled(Swallowed(b, p), 0) && Lost(Recs(b, 0), Recs(Swallowed(b, p), 0), name) && name in Bind(Recs(b, 0))
  {
    hide RecOk, RecAt, Next, Swallowed, Recs, Tiled, Start, Distinct, Bind;
    var q := RecAt(b, p);
    var d := RecAt(b, x);
    var q' := q.(len := q.len + d.len);
    StartTiled(b, 0, p);
    SwallowedRecs(b, p, x, n);
    BindMiddle(Before(b, 0, p), [q, d], Recs(b, n));
    BindTwo(q, d);
    BindOne(q');
    assert Binding(q') == Binding(q);
    assert Binding(d) + Binding(q) - {name} == Binding(q);
    LoseReplace(Before(b, 0, p), [q, d], [q'], Recs(b, n), name);
  }

  /** Removing a name leaves room for it: dir_add of the same name needs no new block. */
  lemma RemovedHasRoom(b: Block, x: nat, prev: Option<nat>, name: Name)
    requires Tiled(b, 0) && Met(b, x, prev) && x < |b| < 0x1_0000 && RecOk(b, x) && Hit(RecAt(b, x), name)
    ensures exists r :: r in Recs(Removed(b, x, prev), 0) && Roomy(r, name)
  {
    hide RecOk, RecAt, Next, Numbered, Swallowed, Recs, Tiled, Start, RecSize;
    var c := Removed(b, x, prev);
    var d := RecAt(b, x);
    StartTiled(b, 0, x);
    NextTiled(b, x);
    if prev.Some? {
      var q := RecAt(b, prev.value);
      SwallowedTiles(b, prev.value, x, Next(b, x));
      var r := q.(len := q.len + d.len);
      assert r in Recs(c, 0) && Roomy(r, name);
    } else {
      NumberedRecs(b, x, 0);
      var r := d.(ino := 0);
      assert r in [r] + Recs(b, Next(b, x));
      assert r in Recs(c, 0) && Roomy(r, name);
    }
  }

  lemma SwallowedTiles(b: Block, p: nat, x: nat, n: nat)
    requires Tiled(b, 0) && Start(b, 0, p) && RecOk(b, p) && Next(b, p) == x < |b| < 0x1_0000 && Tiled(b, x)
    requires RecOk(b, x) && n == Next(b, x) && Tiled(b, n)
    ensures RecAt(b, p).(len := RecAt(b, p).len + RecAt(b, x).len) in Recs(Swallowed(b, p), 0)
  {
    hide RecOk, RecAt, Next, Swallowed, Recs, Tiled, Start;
    StartTiled(b, 0, p);
    SwallowedRecs(b, p, x, n);
    var q := RecAt(b, p).(len := RecAt(b, p).len + RecAt(b, x).len);
    assert q in [q] + Recs(b, n);
  }

  // ---- The record of `..` ----

  lemma RecIn(b: Block, x: nat)
    requires Tiled(b, 0) && Start(b, 0, x) && x < |b| && RecOk(b, x)
    ensures RecAt(b, x) in Recs(b, 0)
  {
    hide RecOk, RecAt, Next;
    StartTiled(b, 0, x);
    assert Recs(b, x) == [RecAt(b, x)] + Recs(b, Next(b, x));
  }

  lemma SwapMarked(b: Block, c: Block, x: nat, rs: seq<Rec>)
    requires Swapped(b, c, x, rs) && Marked(Recs(b, 0)) && Marked(rs)
    ensures Marked(Recs(c, 0))
  {
    hide Swapped, Recs;
    forall r | r in Recs(c, 0) ensures r.name == DotDot ==> r.ino != 0 {
      SwappedIn(b, c, x, rs, r);
    }
  }

  lemma AddedMarked(b: Block, x: nat, ino: nat, name: Name, ft: Byte)
    requires Tiled(b, 0) && Start(b, 0, x) && x < |b| && RecOk(b, x) && Roomy(RecAt(b, x), name) && 0 < ino < 0x1_0000_0000 && |name| < 256
    requires Marked(Recs(b, 0))
    ensures Marked(Recs(Added(b, x, ino, name, ft), 0))
  {
    hide RecOk, RecAt, Next, Split, Fill, RecSize, Roomy, Swapped, Tiled, Recs, Start;
    var d := RecAt(b, x);
    StartTiled(b, 0, x);
    if d.ino != 0 {
      var used := RecSize(|d.name|);
      SplitRecs(b, x, ino, name, ft);
      SplitStorable(b, x, ino, name, ft);
      SwapMarked(b, Split(b, x, ino, name, ft), x, [d.(len := used), Rec(ino, d.len - used, name, ft)]);
    } else {
      FillRecs(b, x, ino, name, ft);
      SwapMarked(b, Fill(b, x, ino, name, ft), x, [Rec(ino, d.len, name, ft)]);
    }
  }

  lemma RemovedMarked(b: Block, x: nat, prev: Option<nat>)
    requires Tiled(b, 0) && Met(b, x, prev) && x < |b| < 0x1_0000 && RecOk(b, x) && RecAt(b, x).name != DotDot && Marked(Recs(b, 0))
    ensures Marked(Recs(Removed(b, x, prev), 0))
  {
    hide RecOk, RecAt, Next, Swallowed, Numbered, Recs, Tiled, Start;
    var d := RecAt(b, x);
    StartTiled(b, 0, x);
    NextTiled(b, x);
    if prev.Some? {
      var p, n := prev.value, Next(b, x);
      var q := RecAt(b, p);
      StartTiled(b, 0, p);
      SwallowedRecs(b, p, x, n);
      RecIn(b, p);
      assert Recs(b, 0) == Before(b, 0, p) + ([q, d] + Recs(b, n));
      forall r | r in Recs(Removed(b, x, prev), 0) ensures r.name == DotDot ==> r.ino != 0 {
        assert r in Before(b, 0, p) || r == q.(len := q.len + d.len) || r in Recs(b, n);
      }
    } else {
      NumberedRecs(b, x, 0);
      SwapMarked(b, Numbered(b, x, 0), x, [d.(ino := 0)]);
    }
  }

  /** dotdot_visit: another inode for a name that is bound. */
  lemma NumberedChanges(b: Block, x: nat, ino: nat)
    requires Tiled(b, 0) && Start(b, 0, x) && x < |b| && RecOk(b, x) && RecAt(b, x).ino != 0 && 0 < ino < 0x1_0000_0000 && Distinct(Recs(b, 0))
    ensures var c := Numbered(b, x, ino); var d := RecAt(b, x);
            Tiled(c, 0) && d.name in Bind(Recs(b, 0)) && Gained(Recs(b, 0), Recs(c, 0), d.name, Target(ino, d.ft))
    ensures Marked(Recs(b, 0)) ==> Marked(Recs(Numbered(b, x, ino), 0))
  {
    hide RecOk, RecAt, Next, Numbered, Recs, Tiled, Start, Distinct;
    var d := RecAt(b, x);
    var d' := d.(ino := ino);
    StartTiled(b, 0, x);
    NumberedRecs(b, x, ino);
    BindOne(d);
    BindOne(d');
    assert Bind([d'])== Bind([d])[d.name := Target(ino, d.ft)];
    ChangeReplace(Before(b, 0, x), [d], [d'], Recs(b, Next(b, x)), d.name, Target(ino, d.ft));
    if Marked(Recs(b, 0)) {
      SwapMarked(b, Numbered(b, x, ino), x, [d']);
    }
  }

  // ---- The first block of a new directory ----

  /** What mkdir writes into a zeroed block: `.` in 12 bytes and `..` in the rest. */
  function DirBlock(zero: Block, ino: nat, up: nat): (b: Block)
    requires 264 <= |zero| < 0x1_0000 && |zero| % 4 == 0 && ino < 0x1_0000_0000 && up < 0x1_0000_0000
    ensures |b| == |zero|
  {
    Write(Write(zero, 0, Pack(Rec(ino, 12, Dot, FtDir))), 12, Pack(Rec(up, |zero| - 12, DotDot, FtDir)))
  }

  lemma DirBlockRecs(zero: Block, ino: nat, up: nat)
    requires 264 <= |zero| < 0x1_0000 && |zero| % 4 == 0 && ino < 0x1_0000_0000 && up < 0x1_0000_0000
    ensures var b := DirBlock(zero, ino, up);
            Tiled(b, 0) && Recs(b, 0) == [Rec(ino, 12, Dot, FtDir), Rec(up, |zero| - 12, DotDot, FtDir)]
  {
    hide RecOk, RecAt, RecSize, Pack, Write;
    var d, e := Rec(ino, 12, Dot, FtDir), Rec(up, |zero| - 12, DotDot, FtDir);
    var m := Write(zero, 0, Pack(d));
    var b := DirBlock(zero, ino, up);
    DotSizes();
    WriteAround(zero, 0, Pack(d), 0);
    PackRead(d, m, 0);
    WriteAround(m, 12, Pack(e), 12);
    assert m[..12] == b[..12];
    SameRec(m, b, 0, 12);
    PackRead(e, b, 12);
    assert Next(b, 12) == |b|;
    assert Recs(b, |b|) == [];
    TwoTiled(b, 0, 12, |b|);
  }

  lemma DotSizes()
    ensures RecSize(|Dot|) == 12 && RecSize(|DotDot|) == 12
  {
  }

  lemma DirBlockBinds(zero: Block, ino: nat, up: nat)
    requires 264 <= |zero| < 0x1_0000 && |zero| % 4 == 0 && 0 < ino < 0x1_0000_0000 && 0 < up < 0x1_0000_0000
    ensures var rs := Recs(DirBlock(zero, ino, up), 0);
            Distinct(rs) && Marked(rs) && Bind(rs) == map[Dot := Target(ino, FtDir), DotDot := Target(up, FtDir)]
  {
    hide Recs, DirBlock, Bind, Distinct;
    DirBlockRecs(zero, ino, up);
    BindTwo(Rec(ino, 12, Dot, FtDir), Rec(up, |zero| - 12, DotDot, FtDir));
    assert Dot != DotDot by { assert |Dot| != |DotDot|; }
  }
}

/** What the blocks of all directories hold, beside the tree of names that they stand for
    (kernel/fs/ext2.c:862-1098, 1154-1334). */
module Ext2Disk {
  import opened Ext2Map
  import opened Ext2Dirent
  import opened Ext2Dir
  import D = Ext2Directory
  import opened Ext2Names
  import opened Ext2Links

  /** The map of directory `d`: itself, its parent, and its names. */
  ghost predicate Holds(m: map<Name, Target>, d: nat, up: nat, names: map<Key, nat>) {
    && Dot in m && m[Dot].ino == d && DotDot in m && m[DotDot].ino == up
    && forall n :: n != Dot && n != DotDot ==> SameName(m, d, names, n)
  }

  ghost predicate SameName(m: map<Name, Target>, d: nat, names: map<Key, nat>, n: Name) {
    && (n in m <==> Key(d, n) in names)
    && (n in m ==> m[n].ino == names[Key(d, n)])
  }

  ghost predicate Shows(bs: nat, slots: seq<D.Slot>, d: nat, up: nat, names: map<Key, nat>) {
    D.Valid(bs, slots) && Marked(D.All(slots)) && Holds(Bind(D.All(slots)), d, up, names)
  }

  ghost predicate ShowsDir(bs: nat, blocks: map<nat, seq<D.Slot>>, links: map<nat, int>, t: Tree, d: nat)
    requires d in t.dirs && d in blocks && d in links
  {
    links[d] == t.dirs[d].nlink && Shows(bs, blocks[d], d, t.dirs[d].dotdot, t.names)
  }

  /** Blocks and link counts of the directory inodes stand for the tree. */
  ghost predicate OnDisk(bs: nat, blocks: map<nat, seq<D.Slot>>, links: map<nat, int>, t: Tree) {
    && blocks.Keys == t.dirs.Keys && links.Keys == t.dirs.Keys
    && forall d :: d in t.dirs ==> ShowsDir(bs, blocks, links, t, d)
  }

  /** No record of the directory has room for the name. */
  ghost predicate NoRoom(slots: seq<D.Slot>, name: Name) {
    forall r :: r in D.All(slots) ==> !Roomy(r, name)
  }

  // ---- Inode numbers fit their records ----

  lemma {:induction false} RecsRange(b: Block, o: nat)
    ensures forall r :: r in Recs(b, o) ==> r.ino < 0x1_0000_0000
    decreases |b| - o
  {
    hide RecOk, RecAt, Next;
    if o < |b| && RecOk(b, o) {
      RecsRange(b, Next(b, o));
    }
  }

  lemma {:induction false} AllRange(slots: seq<D.Slot>)
    ensures forall r :: r in D.All(slots) ==> r.ino < 0x1_0000_0000
    decreases |slots|
  {
    hide Recs;
    if slots != [] {
      if slots[0].Data? {
        RecsRange(slots[0].bytes, 0);
      }
      AllRange(slots[1..]);
    }
  }

  lemma {:induction false} BindRange(rs: seq<Rec>)
    requires forall r :: r in rs ==> r.ino < 0x1_0000_0000
    ensures forall n :: n in Bind(rs) ==> 0 < Bind(rs)[n].ino < 0x1_0000_0000
    decreases |rs|
  {
    if rs != [] {
      assert forall r :: r in rs[1..] ==> r in rs;
      BindRange(rs[1..]);
    }
  }

  lemma SlotsRange(slots: seq<D.Slot>)
    ensures forall n :: n in Bind(D.All(slots)) ==> 0 < Bind(D.All(slots))[n].ino < 0x1_0000_0000
  {
    hide Bind, D.All;
    AllRange(slots);
    BindRange(D.All(slots));
  }

  /** So do the number of a directory and of what a name in it names. */
  lemma NumberRange(bs: nat, blocks: map<nat, seq<D.Slot>>, links: map<nat, int>, t: Tree, d: nat)
    requires OnDisk(bs, blocks, links, t) && d in t.dirs
    ensures 0 < d < 0x1_0000_0000
  {
    hide D.Valid, Marked, Bind, D.All;
    assert ShowsDir(bs, blocks, links, t, d);
    SlotsRange(blocks[d]);
  }

  lemma NamedRange(bs: nat, blocks: map<nat, seq<D.Slot>>, links: map<nat, int>, t: Tree, k: Key)
    requires OnDisk(bs, blocks, links, t) && k.dir in t.dirs && k in t.names && Plain(k.name)
    ensures 0 < t.names[k] < 0x1_0000_0000
  {
    hide D.Valid, Marked, Bind, D.All;
    assert ShowsDir(bs, blocks, links, t, k.dir);
    assert SameName(Bind(D.All(blocks[k.dir])), k.dir, t.names, k.name);
    SlotsRange(blocks[k.dir]);
  }

  // ---- Changes of one directory ----

  /** Another directory does not see a change of the names in `d`. */
  lemma OtherHolds(m: map<Name, Target>, e: nat, up: nat, names: map<Key, nat>, now: map<Key, nat>, k: Key)
    requires Holds(m, e, up, names) && k.dir != e
    requires now - {k} == names - {k}
    ensures Holds(m, e, up, now)
  {
    forall n | n != Dot && n != DotDot ensures SameName(m, e, now, n) {
      var l := Key(e, n);
      assert SameName(m, e, names, n);
      assert l in now <==> l in now - {k};
      assert l in names <==> l in names - {k};
      assert l in now ==> now[l] == (now - {k})[l];
      assert l in names ==> names[l] == (names - {k})[l];
    }
  }

  lemma AddHolds(m: map<Name, Target>, k: Key, up: nat, names: map<Key, nat>, x: Target)
    requires Holds(m, k.dir, up, names) && Plain(k.name)
    ensures Holds(m[k.name := x], k.dir, up, names[k := x.ino])
  {
    var m', names' := m[k.name := x], names[k := x.ino];
    forall n | n != Dot && n != DotDot ensures SameName(m', k.dir, names', n) {
      assert SameName(m, k.dir, names, n);
    }
  }

  lemma RemoveHolds(m: map<Name, Target>, k: Key, up: nat, names: map<Key, nat>)
    requires Holds(m, k.dir, up, names) && Plain(k.name)
    ensures Holds(m - {k.name}, k.dir, up, names - {k})
  {
    forall n | n != Dot && n != DotDot ensures SameName(m - {k.name}, k.dir, names - {k}, n) {
      assert SameName(m, k.dir, names, n);
    }
  }

  lemma DotdotHolds(m: map<Name, Target>, d: nat, up: nat, names: map<Key, nat>, x: Target)
    requires Holds(m, d, up, names)
    ensures Holds(m[DotDot := x], d, x.ino, names)
  {
    assert Dot != DotDot by { assert |Dot| != |DotDot|; }
    var m' := m[DotDot := x];
    forall n | n != Dot && n != DotDot ensures SameName(m', d, names, n) {
      assert SameName(m, d, names, n);
    }
  }

  /** The blocks of `k.dir` have changed as the name `k` has. */
  lemma NamesOnDisk(bs: nat, blocks: map<nat, seq<D.Slot>>, links: map<nat, int>, t: Tree, k: Key, slots: seq<D.Slot>, now: map<Key, nat>)
    requires OnDisk(bs, blocks, links, t) && k.dir in t.dirs && now - {k} == t.names - {k}
    requires Shows(bs, slots, k.dir, t.dirs[k.dir].dotdot, now)
    ensures OnDisk(bs, blocks[k.dir := slots], links, Tree(t.dirs, t.files, now))
  {
    hide D.Valid, Marked, Holds, Bind, D.All;
    var u := Tree(t.dirs, t.files, now);
    forall d | d in u.dirs ensures ShowsDir(bs, blocks[k.dir := slots], links, u, d) {
      assert ShowsDir(bs, blocks, links, t, d);
      if d != k.dir {
        OtherHolds(Bind(D.All(blocks[d])), d, t.dirs[d].dotdot, t.names, now, k);
      }
    }
  }

  /** The blocks or the inode of `d` have changed. */
  lemma DirOnDisk(bs: nat, blocks: map<nat, seq<D.Slot>>, links: map<nat, int>, t: Tree, d: nat, slots: seq<D.Slot>, now: Dir)
    requires OnDisk(bs, blocks, links, t) && Shows(bs, slots, d, now.dotdot, t.names)
    ensures OnDisk(bs, blocks[d := slots], links[d := now.nlink], Tree(t.dirs[d := now], t.files, t.names))
  {
    hide Shows;
    var u := Tree(t.dirs[d := now], t.files, t.names);
    forall e | e in u.dirs ensures ShowsDir(bs, blocks[d := slots], links[d := now.nlink], u, e) {
      assert e != d ==> ShowsDir(bs, blocks, links, t, e);
    }
  }

  lemma GoneOnDisk(bs: nat, blocks: map<nat, seq<D.Slot>>, links: map<nat, int>, t: Tree, d: nat)
    requires OnDisk(bs, blocks, links, t)
    ensures OnDisk(bs, blocks - {d}, links - {d}, Tree(t.dirs - {d}, t.files, t.names))
  {
    hide Shows;
    var u := Tree(t.dirs - {d}, t.files, t.names);
    forall e | e in u.dirs ensures ShowsDir(bs, blocks - {d}, links - {d}, u, e) {
      assert ShowsDir(bs, blocks, links, t, e);
    }
  }

  /** Files are not on the blocks of directories. */
  lemma FilesOnDisk(bs: nat, blocks: map<nat, seq<D.Slot>>, links: map<nat, int>, t: Tree, files: map<nat, nat>)
    requires OnDisk(bs, blocks, links, t)
    ensures OnDisk(bs, blocks, links, t.(files := files))
  {
    hide Shows;
    var u := t.(files := files);
    forall e | e in u.dirs ensures ShowsDir(bs, blocks, links, u, e) {
      assert ShowsDir(bs, blocks, links, t, e);
    }
  }

  /** The first block of a new directory shows it without names. */
  lemma NewShows(bs: nat, zero: Block, d: nat, up: nat, names: map<Key, nat>)
    requires 264 <= bs < 0x1_0000 && bs % 4 == 0 && |zero| == bs && 0 < d < 0x1_0000_0000 && 0 < up < 0x1_0000_0000
    requires forall k :: k in names ==> k.dir != d
    ensures Shows(bs, [D.Data(DirBlock(zero, d, up))], d, up, names)
  {
    hide D.Valid, Marked, Bind, D.All, DirBlock;
    D.NewDirectory(bs, zero, d, up);
    assert Dot != DotDot by { assert |Dot| != |DotDot|; }
    var m := Bind(D.All([D.Data(DirBlock(zero, d, up))]));
    forall n | n != Dot && n != DotDot ensures SameName(m, d, names, n) {
    }
  }

  /** dir_is_empty sees whether there is a name. */
  lemma EmptyShows(m: map<Name, Target>, d: nat, up: nat, t: Tree)
    requires Holds(m, d, up, t.names) && NamesOk(t)
    ensures m.Keys <= {Dot, DotDot} <==> EmptyDir(t, d)
  {
    if m.Keys <= {Dot, DotDot} {
      forall k | k in t.names ensures k.dir != d {
        assert NameOk(t, k);
        assert SameName(m, d, t.names, k.name);
      }
    }
    if EmptyDir(t, d) {
      forall n ensures n in m ==> n == Dot || n == DotDot {
        assert n == Dot || n == DotDot || SameName(m, d, t.names, n);
      }
    }
  }
}

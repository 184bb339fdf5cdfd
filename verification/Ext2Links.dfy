/** Each change of the directory graph keeps it a tree with exact link counts. */
module Ext2Links {
  import opened Ext2Names

  // ---- The changes ----

  /** A new empty directory `c` under the name `k`. */
  function NewDir(t: Tree, k: Key, c: nat): Tree
    requires k.dir in t.dirs
  {
    Tree(t.dirs[c := Dir(k.dir, 2)][k.dir := t.dirs[k.dir].(nlink := t.dirs[k.dir].nlink + 1)], t.files, t.names[k := c])
  }

  /** The empty directory named `k` is gone. */
  function DropDir(t: Tree, k: Key): Tree
    requires k in t.names && k.dir in t.dirs
  {
    Tree((t.dirs - {t.names[k]})[k.dir := t.dirs[k.dir].(nlink := t.dirs[k.dir].nlink - 1)], t.files, t.names - {k})
  }

  function NewFile(t: Tree, k: Key, f: nat): Tree {
    Tree(t.dirs, t.files[f := 1], t.names[k := f])
  }

  function Unlinked(files: map<nat, nat>, f: nat): map<nat, nat>
    requires f in files
  {
    if files[f] <= 1 then files - {f} else files[f := files[f] - 1]
  }

  function DropFile(t: Tree, k: Key): Tree
    requires k in t.names && t.names[k] in t.files
  {
    Tree(t.dirs, Unlinked(t.files, t.names[k]), t.names - {k})
  }

  function Renamed(names: map<Key, nat>, k: Key, l: Key): map<Key, nat>
    requires k in names
  {
    names[l := names[k]] - {k}
  }

  /** Directory `c` moves from parent `o` to parent `n`. */
  function Reparented(dirs: map<nat, Dir>, c: nat, o: nat, n: nat): map<nat, Dir>
    requires c in dirs && o in dirs && n in dirs
  {
    var d1 := dirs[c := dirs[c].(dotdot := n)];
    var d2 := d1[o := d1[o].(nlink := d1[o].nlink - 1)];
    d2[n := d2[n].(nlink := d2[n].nlink + 1)]
  }

  function Move(t: Tree, k: Key, l: Key): Tree
    requires k in t.names && k.dir in t.dirs && l.dir in t.dirs
  {
    var c := t.names[k];
    Tree(if c in t.dirs && k.dir != l.dir then Reparented(t.dirs, c, k.dir, l.dir) else t.dirs, t.files, Renamed(t.names, k, l))
  }

  // ---- Following `..` after a change ----

  ghost predicate Shared(a: map<nat, Dir>, b: map<nat, Dir>, keep: set<nat>) {
    forall x {:trigger SharedAt(a, b, keep, x)} :: x in keep ==> SharedAt(a, b, keep, x)
  }

  ghost predicate SharedAt(a: map<nat, Dir>, b: map<nat, Dir>, keep: set<nat>, x: nat) {
    x in a && x in b && a[x].dotdot == b[x].dotdot && a[x].dotdot in keep
  }

  /** On a set closed under `..` that both graphs share, the paths are the same. */
  lemma {:induction false} UpKept(a: map<nat, Dir>, b: map<nat, Dir>, keep: set<nat>, d: nat, k: nat)
    requires Shared(a, b, keep)
    requires d in keep
    ensures Up(a, d, k) == Up(b, d, k) && Up(a, d, k) in keep
    decreases k
  {
    assert SharedAt(a, b, keep, d);
    if k > 0 {
      UpKept(a, b, keep, a[d].dotdot, k - 1);
    }
  }

  lemma ReachesKept(a: map<nat, Dir>, b: map<nat, Dir>, keep: set<nat>, d: nat)
    requires Shared(a, b, keep)
    requires d in keep
    ensures forall e :: Reaches(a, d, e) <==> Reaches(b, d, e)
  {
    forall e ensures Reaches(a, d, e) <==> Reaches(b, d, e) {
      if Reaches(a, d, e) {
        var k: nat :| Up(a, d, k) == e;
        UpKept(a, b, keep, d, k);
        assert Up(b, d, k) == e;
      }
      if Reaches(b, d, e) {
        var k: nat :| Up(b, d, k) == e;
        UpKept(a, b, keep, d, k);
        assert Up(a, d, k) == e;
      }
    }
  }

  /** A path that avoids `c` is not affected by moving `c`. */
  lemma {:induction false} UpAvoids(a: map<nat, Dir>, b: map<nat, Dir>, c: nat, d: nat, k: nat)
    requires a.Keys == b.Keys && forall x :: x in a && x != c ==> a[x].dotdot == b[x].dotdot
    requires !Reaches(a, d, c)
    ensures Up(a, d, k) == Up(b, d, k)
    decreases k
  {
    assert Up(a, d, 0) != c;
    if k > 0 && d in a {
      ReachesUp(a, d, c);
      UpAvoids(a, b, c, a[d].dotdot, k - 1);
    }
  }

  /** Whoever reached the root still does when `c` hangs below something that does. */
  lemma {:induction false} ReachesMoved(a: map<nat, Dir>, b: map<nat, Dir>, c: nat, d: nat, k: nat)
    requires a.Keys == b.Keys && c in b && forall x :: x in a && x != c ==> a[x].dotdot == b[x].dotdot
    requires Reaches(b, b[c].dotdot, RootIno) && c != RootIno
    requires Up(a, d, k) == RootIno
    ensures Reaches(b, d, RootIno)
    decreases k
  {
    if d == c {
      ReachesUp(b, c, RootIno);
    } else if k == 0 {
      assert Up(b, d, 0) == RootIno;
    } else if d in a {
      ReachesMoved(a, b, c, a[d].dotdot, k - 1);
      if d != RootIno {
        ReachesUp(b, d, RootIno);
      } else {
        assert Up(b, d, 0) == RootIno;
      }
    } else {
      assert Up(b, d, 0) == RootIno;
    }
  }

  /** Names that stay keep their directories named. */
  lemma NamedKept(t: Tree, u: Tree, c: nat)
    requires Named(t) && (c in u.dirs && c != RootIno ==> HasName(u, c))
    requires forall d :: d in u.dirs && d != c ==> d in t.dirs
    requires forall k :: k in t.names && t.names[k] != c ==> k in u.names && u.names[k] == t.names[k]
    ensures Named(u)
  {
    forall d | d in u.dirs && d != RootIno && d != c ensures HasName(u, d) {
      var l :| l in t.names && t.names[l] == d;
      assert l in u.names && u.names[l] == d;
    }
  }

  // ---- Making and removing a directory ----

  lemma MadeSubdirs(dirs: map<nat, Dir>, u: map<nat, Dir>, c: nat, p: nat)
    requires c !in dirs && c != RootIno && c != p && u.Keys == dirs.Keys + {c} && u[c].dotdot == p
    requires forall d :: d in dirs ==> u[d].dotdot == dirs[d].dotdot && dirs[d].dotdot != c
    ensures Subdirs(u, c) == {} && |Subdirs(u, p)| == |Subdirs(dirs, p)| + 1
    ensures forall d :: d != p && d != c ==> Subdirs(u, d) == Subdirs(dirs, d)
  {
    assert Subdirs(u, p) == Subdirs(dirs, p) + {c};
  }

  lemma NewDirLinks(t: Tree, k: Key, c: nat)
    requires Valid(t) && k.dir in t.dirs && c !in t.dirs && c !in t.files
    ensures DirLinks(NewDir(t, k, c))
  {
    hide Subdirs, NamesOk, Named, Unique, Connected, FileLinks;
    var u := NewDir(t, k, c);
    forall d | d in t.dirs ensures t.dirs[d].dotdot != c {
      assert ParentIn(t, d);
    }
    MadeSubdirs(t.dirs, u.dirs, c, k.dir);
  }

  lemma NewDirValid(t: Tree, k: Key, c: nat)
    requires Valid(t) && k.dir in t.dirs && k !in t.names && Plain(k.name) && c !in t.dirs && c !in t.files
    ensures Valid(NewDir(t, k, c))
  {
    hide Named, Unique, Connected, DirLinks, FileLinks;
    NewDirLinks(t, k, c);
    NewDirNames(t, k, c);
    NewDirFiles(t, k, c);
    NewDirConnected(t, k, c);
    var u := NewDir(t, k, c);
    assert u.names[k] == c;
    forall d | d in u.dirs ensures ParentIn(u, d) {
      assert d != c ==> ParentIn(t, d);
    }
    NamedKept(t, u, c);
  }

  lemma NewDirNames(t: Tree, k: Key, c: nat)
    requires Valid(t) && k.dir in t.dirs && k !in t.names && Plain(k.name) && c !in t.dirs && c !in t.files
    ensures var u := NewDir(t, k, c); NamesOk(u) && Unique(u)
  {
    hide Named, ParentsIn, Connected, DirLinks, FileLinks;
    var u := NewDir(t, k, c);
    assert forall l :: l in t.names ==> NameOk(t, l);
  }

  lemma NewDirFiles(t: Tree, k: Key, c: nat)
    requires Valid(t) && k.dir in t.dirs && k !in t.names && c !in t.dirs && c !in t.files
    ensures FileLinks(NewDir(t, k, c))
  {
    hide NamesOk, Named, Unique, ParentsIn, Connected, DirLinks;
    var u := NewDir(t, k, c);
    forall f | f in u.files ensures NamesOf(u.names, f) == NamesOf(t.names, f) {
    }
  }

  lemma NewDirConnected(t: Tree, k: Key, c: nat)
    requires Valid(t) && k.dir in t.dirs && c !in t.dirs
    ensures Connected(NewDir(t, k, c))
  {
    hide NamesOk, Named, Unique, DirLinks, FileLinks;
    var u := NewDir(t, k, c);
    forall x | x in t.dirs.Keys ensures SharedAt(t.dirs, u.dirs, t.dirs.Keys, x) {
      assert ParentIn(t, x);
    }
    forall d | d in t.dirs ensures Reaches(u.dirs, d, RootIno) {
      ReachesKept(t.dirs, u.dirs, t.dirs.Keys, d);
    }
    ReachesUp(u.dirs, c, RootIno);
  }

  predicate EmptyDir(t: Tree, c: nat) {
    forall k :: k in t.names ==> k.dir != c
  }

  lemma EmptyHasNoSubdirs(t: Tree, c: nat)
    requires Named(t) && NamesOk(t) && EmptyDir(t, c)
    ensures forall d :: d in t.dirs && d != RootIno ==> t.dirs[d].dotdot != c
  {
    forall d | d in t.dirs && d != RootIno ensures t.dirs[d].dotdot != c {
      assert HasName(t, d);
      var k :| k in t.names && t.names[k] == d;
      assert NameOk(t, k);
    }
  }

  lemma DropDirValid(t: Tree, k: Key)
    requires Valid(t) && k in t.names && t.names[k] in t.dirs && EmptyDir(t, t.names[k])
    ensures k.dir in t.dirs && k.dir != t.names[k] && Valid(DropDir(t, k))
  {
    hide Named, Unique, Connected, DirLinks, FileLinks;
    assert NameOk(t, k);
    var c := t.names[k];
    NotOwnParent(t, c);
    EmptyHasNoSubdirs(t, c);
    DropDirNames(t, k);
    DropDirFiles(t, k);
    DropDirConnected(t, k);
    DropDirLinks(t, k);
    var u := DropDir(t, k);
    forall d | d in u.dirs ensures ParentIn(u, d) {
      assert ParentIn(t, d);
    }
    NamedKept(t, u, c);
  }

  lemma DropDirNames(t: Tree, k: Key)
    requires Valid(t) && k in t.names && t.names[k] in t.dirs && EmptyDir(t, t.names[k]) && k.dir in t.dirs && k.dir != t.names[k]
    ensures var u := DropDir(t, k); NamesOk(u) && Unique(u)
  {
    hide Named, ParentsIn, Connected, DirLinks, FileLinks;
    var u := DropDir(t, k);
    forall l | l in u.names ensures NameOk(u, l) {
      assert NameOk(t, l);
    }
  }

  lemma DropDirFiles(t: Tree, k: Key)
    requires Valid(t) && k in t.names && t.names[k] in t.dirs && k.dir in t.dirs && k.dir != t.names[k]
    ensures FileLinks(DropDir(t, k))
  {
    hide NamesOk, Named, Unique, ParentsIn, Connected, DirLinks;
    var u := DropDir(t, k);
    forall f | f in u.files ensures NamesOf(u.names, f) == NamesOf(t.names, f) {
    }
  }

  lemma DropDirConnected(t: Tree, k: Key)
    requires Valid(t) && k in t.names && t.names[k] in t.dirs && EmptyDir(t, t.names[k]) && k.dir in t.dirs && k.dir != t.names[k]
    ensures Connected(DropDir(t, k))
  {
    hide Named, Unique, DirLinks, FileLinks;
    var c := t.names[k];
    var u := DropDir(t, k);
    EmptyHasNoSubdirs(t, c);
    assert NameOk(t, k);
    forall x | x in t.dirs.Keys - {c} ensures SharedAt(t.dirs, u.dirs, t.dirs.Keys - {c}, x) {
      assert ParentIn(t, x);
    }
    forall d | d in u.dirs ensures Reaches(u.dirs, d, RootIno) {
      ReachesKept(t.dirs, u.dirs, t.dirs.Keys - {c}, d);
    }
  }

  lemma DropDirLinks(t: Tree, k: Key)
    requires Valid(t) && k in t.names && t.names[k] in t.dirs && EmptyDir(t, t.names[k]) && k.dir in t.dirs && k.dir != t.names[k]
    ensures DirLinks(DropDir(t, k))
  {
    hide Named, Unique, ParentsIn, Connected, FileLinks;
    var c := t.names[k];
    var u := DropDir(t, k);
    assert NameOk(t, k);
    forall d | d in u.dirs ensures u.dirs[d].nlink == 2 + |Subdirs(u.dirs, d)| {
      if d == k.dir {
        assert Subdirs(u.dirs, d) == Subdirs(t.dirs, d) - {c};
        assert c in Subdirs(t.dirs, d);
      } else {
        assert Subdirs(u.dirs, d) == Subdirs(t.dirs, d);
      }
    }
  }

  // ---- Files ----

  lemma NewFileValid(t: Tree, k: Key, f: nat)
    requires Valid(t) && k.dir in t.dirs && k !in t.names && Plain(k.name) && f !in t.dirs && f !in t.files
    ensures Valid(NewFile(t, k, f))
  {
    hide Named, Reaches, Subdirs, ParentsIn, Unique, FileLinks, NamesOk;
    var u := NewFile(t, k, f);
    NamesKnown(t);
    NewFileLinks(t, k, f);
    NewFileNames(t, k, f);
    NamedKept(t, u, f);
    SameParents(t, u);
  }

  lemma NamesKnown(t: Tree)
    requires NamesOk(t)
    ensures forall l :: l in t.names ==> t.names[l] in t.dirs || t.names[l] in t.files
  {
    forall l | l in t.names ensures t.names[l] in t.dirs || t.names[l] in t.files {
      assert NameOk(t, l);
    }
  }

  lemma SameParents(t: Tree, u: Tree)
    requires ParentsIn(t) && t.dirs == u.dirs
    ensures ParentsIn(u)
  {
    forall d | d in u.dirs ensures ParentIn(u, d) {
      assert ParentIn(t, d);
    }
  }

  lemma NewFileNames(t: Tree, k: Key, f: nat)
    requires NamesOk(t) && Unique(t) && k.dir in t.dirs && k !in t.names && Plain(k.name) && f !in t.dirs && f !in t.files
    ensures NamesOk(NewFile(t, k, f)) && Unique(NewFile(t, k, f))
  {
    assert forall l :: l in t.names ==> NameOk(t, l);
  }

  lemma NewFileLinks(t: Tree, k: Key, f: nat)
    requires FileLinks(t) && k !in t.names && f !in t.dirs && f !in t.files && forall l :: l in t.names ==> t.names[l] in t.dirs || t.names[l] in t.files
    ensures FileLinks(NewFile(t, k, f))
  {
    var u := NewFile(t, k, f);
    assert NamesOf(u.names, f) == {k};
    forall g | g in t.files ensures NamesOf(u.names, g) == NamesOf(t.names, g) {
    }
  }

  lemma DropFileValid(t: Tree, k: Key)
    requires Valid(t) && k in t.names && t.names[k] in t.files
    ensures Valid(DropFile(t, k))
  {
    hide Named, Reaches, Subdirs, Unique, FileLinks, NamesOk, ParentsIn;
    DropFileLinks(t, k);
    NamedKept(t, DropFile(t, k), t.names[k]);
    SameParents(t, DropFile(t, k));
    DropFileNames(t, k);
    DropFileUnique(t, k);
  }

  lemma DropFileNames(t: Tree, k: Key)
    requires NamesOk(t) && FileLinks(t) && k in t.names && t.names[k] in t.files
    ensures NamesOk(DropFile(t, k))
  {
    hide FileLinks;
    DropFileLinks(t, k);
    var u := DropFile(t, k);
    forall l | l in u.names ensures NameOk(u, l) {
      assert NameOk(t, l);
    }
  }

  lemma DropFileUnique(t: Tree, k: Key)
    requires Unique(t) && k in t.names && t.names[k] in t.files
    ensures Unique(DropFile(t, k))
  {
  }

  /** A file leaves the table with its last name, and not before. */
  lemma DropFileLinks(t: Tree, k: Key)
    requires FileLinks(t) && k in t.names && t.names[k] in t.files
    ensures FileLinks(DropFile(t, k)) && t.names[k] !in t.dirs
    ensures forall l :: l in DropFile(t, k).names && t.names[l] in t.files ==> t.names[l] in DropFile(t, k).files
  {
    hide NamesOf;
    DroppedCount(t.names, k);
    forall l | l in t.names - {k} && t.names[l] == t.names[k] ensures t.files[t.names[k]] > 1 {
      CountedTwice(t.names, k, l);
    }
  }

  lemma DroppedCount(names: map<Key, nat>, k: Key)
    requires k in names
    ensures |NamesOf(names - {k}, names[k])| == |NamesOf(names, names[k])| - 1
    ensures forall f :: f != names[k] ==> NamesOf(names - {k}, f) == NamesOf(names, f)
  {
    var f := names[k];
    assert NamesOf(names - {k}, f) == NamesOf(names, f) - {k};
    assert k in NamesOf(names, f);
  }

  lemma CountedTwice(names: map<Key, nat>, k: Key, l: Key)
    requires k in names && l in names && k != l && names[k] == names[l]
    ensures |NamesOf(names, names[k])| > 1
  {
    assert {k, l} <= NamesOf(names, names[k]);
    SubsetSize({k, l}, NamesOf(names, names[k]));
  }

  lemma {:induction false} SubsetSize(a: set<Key>, b: set<Key>)
    requires a <= b
    ensures |a| <= |b|
    decreases |a|
  {
    if x :| x in a {
      SubsetSize(a - {x}, b - {x});
    }
  }

  // ---- Moving ----

  /** rename is refused when the new parent lies inside what moves. */
  ghost predicate MayMove(t: Tree, k: Key, l: Key) {
    && k in t.names && l !in t.names && l.dir in t.dirs && Plain(l.name)
    && (t.names[k] in t.dirs && k.dir != l.dir ==> !Reaches(t.dirs, l.dir, t.names[k]))
  }

  lemma MoveApart(t: Tree, k: Key, l: Key)
    requires Valid(t) && MayMove(t, k, l)
    ensures k.dir in t.dirs && k != l
    ensures t.names[k] in t.dirs ==> t.names[k] != RootIno && t.names[k] != k.dir && t.names[k] != l.dir && t.dirs[t.names[k]].dotdot == k.dir
  {
    hide Named, Unique, ParentsIn, Connected, DirLinks, FileLinks;
    assert NameOk(t, k);
    var c := t.names[k];
    if c in t.dirs {
      NotOwnParent(t, c);
      assert Up(t.dirs, l.dir, 0) == l.dir;
    }
  }

  lemma MoveValid(t: Tree, k: Key, l: Key)
    requires Valid(t) && MayMove(t, k, l)
    ensures k.dir in t.dirs && Valid(Move(t, k, l))
  {
    hide NamesOk, Named, Unique, ParentsIn, Connected, DirLinks, FileLinks;
    MoveApart(t, k, l);
    MoveNames(t, k, l);
    MoveUnique(t, k, l);
    MoveFiles(t, k, l);
    MoveConnected(t, k, l);
    MoveLinks(t, k, l);
    var u := Move(t, k, l);
    assert l in u.names && u.names[l] == t.names[k];
    MoveParents(t, k, l);
    NamedKept(t, u, t.names[k]);
  }

  lemma MoveParents(t: Tree, k: Key, l: Key)
    requires Valid(t) && MayMove(t, k, l) && k.dir in t.dirs
    ensures ParentsIn(Move(t, k, l))
  {
    hide Reaches, NamesOk, Named, Unique, Connected, DirLinks, FileLinks;
    var u := Move(t, k, l);
    MoveApart(t, k, l);
    forall d | d in u.dirs ensures ParentIn(u, d) {
      assert ParentIn(t, d);
    }
  }

  lemma MoveNames(t: Tree, k: Key, l: Key)
    requires Valid(t) && MayMove(t, k, l) && k.dir in t.dirs
    ensures NamesOk(Move(t, k, l))
  {
    hide Named, ParentsIn, Connected, DirLinks, FileLinks;
    var c := t.names[k];
    var u := Move(t, k, l);
    MoveApart(t, k, l);
    forall m | m in u.names ensures NameOk(u, m) {
      if m == l {
        assert NameOk(t, k);
      } else {
        assert NameOk(t, m);
        assert t.names[m] == c && c in t.dirs ==> m == k;
      }
    }
  }

  lemma MoveUnique(t: Tree, k: Key, l: Key)
    requires Valid(t) && MayMove(t, k, l) && k.dir in t.dirs
    ensures Unique(Move(t, k, l))
  {
    hide NamesOk, Named, ParentsIn, Connected, DirLinks, FileLinks;
  }

  lemma MoveFiles(t: Tree, k: Key, l: Key)
    requires Valid(t) && MayMove(t, k, l) && k.dir in t.dirs
    ensures FileLinks(Move(t, k, l))
  {
    hide Renamed, NamesOf, NamesOk, Named, Unique, ParentsIn, Connected, DirLinks;
    MoveApart(t, k, l);
    RenamedCount(t.names, k, l);
  }

  lemma RenamedCount(names: map<Key, nat>, k: Key, l: Key)
    requires k in names && l !in names && k != l
    ensures forall f :: |NamesOf(Renamed(names, k, l), f)| == |NamesOf(names, f)|
  {
    var u := Renamed(names, k, l);
    forall f ensures |NamesOf(u, f)| == |NamesOf(names, f)| {
      if f == names[k] {
        assert NamesOf(u, f) == NamesOf(names, f) - {k} + {l};
      } else {
        assert NamesOf(u, f) == NamesOf(names, f);
      }
    }
  }

  lemma MoveConnected(t: Tree, k: Key, l: Key)
    requires Valid(t) && MayMove(t, k, l) && k.dir in t.dirs
    ensures Connected(Move(t, k, l))
  {
    hide NamesOk, Named, Unique, ParentsIn, DirLinks, FileLinks;
    var c := t.names[k];
    var u := Move(t, k, l);
    MoveApart(t, k, l);
    if c in t.dirs && k.dir != l.dir {
      var m: nat :| Up(t.dirs, l.dir, m) == RootIno;
      UpAvoids(t.dirs, u.dirs, c, l.dir, m);
      assert Up(u.dirs, l.dir, m) == RootIno;
      forall d | d in u.dirs ensures Reaches(u.dirs, d, RootIno) {
        var n: nat :| Up(t.dirs, d, n) == RootIno;
        ReachesMoved(t.dirs, u.dirs, c, d, n);
      }
    }
  }

  lemma MoveLinks(t: Tree, k: Key, l: Key)
    requires Valid(t) && MayMove(t, k, l) && k.dir in t.dirs
    ensures DirLinks(Move(t, k, l))
  {
    hide NamesOk, Named, Unique, ParentsIn, Connected, FileLinks;
    var c := t.names[k];
    var u := Move(t, k, l);
    MoveApart(t, k, l);
    if c in t.dirs && k.dir != l.dir {
      MovedSubdirs(t.dirs, c, k.dir, l.dir);
    }
  }

  lemma MovedSubdirs(dirs: map<nat, Dir>, c: nat, o: nat, n: nat)
    requires c in dirs && o in dirs && n in dirs && o != n && c != o && c != n && c != RootIno && dirs[c].dotdot == o
    ensures var u := Reparented(dirs, c, o, n);
            |Subdirs(u, o)| == |Subdirs(dirs, o)| - 1 && |Subdirs(u, n)| == |Subdirs(dirs, n)| + 1
            && forall d :: d != o && d != n ==> Subdirs(u, d) == Subdirs(dirs, d)
  {
    var u := Reparented(dirs, c, o, n);
    assert forall d :: d in dirs ==> d in u && (d != c ==> u[d].dotdot == dirs[d].dotdot);
    assert u[c].dotdot == n;
    assert Subdirs(u, o) == Subdirs(dirs, o) - {c};
    assert c in Subdirs(dirs, o);
    assert Subdirs(u, n) == Subdirs(dirs, n) + {c};
    assert c !in Subdirs(dirs, n);
  }

  // ---- What is_ancestor is for ----

  lemma {:induction false} ReachesStill(a: map<nat, Dir>, b: map<nat, Dir>, c: nat, d: nat, k: nat)
    requires a.Keys == b.Keys && forall x :: x in a && x != c ==> a[x].dotdot == b[x].dotdot
    requires Up(a, d, k) == c
    ensures Reaches(b, d, c)
    decreases k
  {
    if d == c || k == 0 || d !in a {
      assert Up(b, d, 0) == c;
    } else {
      ReachesStill(a, b, c, a[d].dotdot, k - 1);
      ReachesUp(b, d, c);
    }
  }

  /** Moving a directory elsewhere leaves every directory below the root if and only if the new
      parent is not inside it. */
  lemma MoveIffOutside(t: Tree, k: Key, l: Key)
    requires Valid(t) && k in t.names && t.names[k] in t.dirs && l !in t.names && l.dir in t.dirs && Plain(l.name) && k.dir != l.dir
    ensures k.dir in t.dirs
    ensures Connected(Move(t, k, l)) <==> !Reaches(t.dirs, l.dir, t.names[k])
  {
    hide Named, Unique, ParentsIn, DirLinks, FileLinks;
    assert NameOk(t, k);
    var c := t.names[k];
    var u := Move(t, k, l);
    if Reaches(t.dirs, l.dir, c) {
      var n: nat :| Up(t.dirs, l.dir, n) == c;
      ReachesStill(t.dirs, u.dirs, c, l.dir, n);
      var j: nat :| Up(u.dirs, l.dir, j) == c;
      assert Up(u.dirs, c, j + 1) == c;
      if Connected(u) {
        var m: nat :| Up(u.dirs, c, m) == RootIno;
        NoLoop(u, c, j + 1, m);
      }
    } else {
      MoveConnected(t, k, l);
    }
  }
}

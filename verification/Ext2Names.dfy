/** The directory graph that mkdir, rmdir, unlink and rename work on (kernel/fs/ext2.c:1154-1334):
    names, `..` entries and link counts, as values. */
module Ext2Names {
  import opened Ext2Dirent

  const RootIno: nat := 2

  /** A name in a directory. */
  datatype Key = Key(dir: nat, name: Name)

  /** A directory inode: the number its `..` record holds, and its link count. */
  datatype Dir = Dir(dotdot: nat, nlink: int)

  datatype Tree = Tree(dirs: map<nat, Dir>, files: map<nat, nat>, names: map<Key, nat>)

  /** Records other than the first two of a directory. */
  predicate Plain(n: Name) {
    n != [] && n != Dot && n != DotDot
  }

  ghost predicate Rooted(t: Tree) {
    RootIno in t.dirs && t.dirs[RootIno].dotdot == RootIno
  }

  /** Every name is in a directory and names something; `..` of a directory is where its name is. */
  ghost predicate NamesOk(t: Tree) {
    forall k :: k in t.names ==> NameOk(t, k)
  }

  ghost predicate NameOk(t: Tree, k: Key)
    requires k in t.names
  {
    var c := t.names[k];
    && k.dir in t.dirs && Plain(k.name) && (c in t.dirs || c in t.files)
    && (c in t.dirs ==> c != RootIno && t.dirs[c].dotdot == k.dir)
  }

  ghost predicate HasName(t: Tree, c: nat) {
    exists k :: k in t.names && t.names[k] == c
  }

  /** A directory other than the root has a name, */
  ghost predicate Named(t: Tree) {
    forall c :: c in t.dirs && c != RootIno ==> HasName(t, c)
  }

  /** and only one. */
  ghost predicate Unique(t: Tree) {
    forall k, l :: k in t.names && l in t.names && t.names[k] == t.names[l] && t.names[k] in t.dirs ==> k == l
  }

  ghost predicate ParentsIn(t: Tree) {
    forall c {:trigger ParentIn(t, c)} :: c in t.dirs ==> ParentIn(t, c)
  }

  ghost predicate ParentIn(t: Tree, c: nat)
    requires c in t.dirs
  {
    t.dirs[c].dotdot in t.dirs
  }

  /** The directory reached by following `..` k times. */
  ghost function Up(dirs: map<nat, Dir>, d: nat, k: nat): nat
    decreases k
  {
    if k == 0 then d else if d in dirs then Up(dirs, dirs[d].dotdot, k - 1) else d
  }

  ghost predicate Reaches(dirs: map<nat, Dir>, d: nat, a: nat) {
    exists k: nat :: Up(dirs, d, k) == a
  }

  /** No directory is cut off from the root, so there is no cycle. */
  ghost predicate Connected(t: Tree) {
    forall d :: d in t.dirs ==> Reaches(t.dirs, d, RootIno)
  }

  ghost function Subdirs(dirs: map<nat, Dir>, d: nat): set<nat> {
    set c | c in dirs && c != RootIno && dirs[c].dotdot == d
  }

  ghost function NamesOf(names: map<Key, nat>, c: nat): set<Key> {
    set k | k in names && names[k] == c
  }

  /** The link count of a directory is 2 plus its subdirectories, of a file the number of its names, not 0. */
  ghost predicate DirLinks(t: Tree) {
    forall d :: d in t.dirs ==> t.dirs[d].nlink == 2 + |Subdirs(t.dirs, d)|
  }

  ghost predicate FileLinks(t: Tree) {
    && (forall f :: f in t.files ==> f !in t.dirs)
    && (forall f :: f in t.files ==> t.files[f] == |NamesOf(t.names, f)| > 0)
  }

  ghost predicate Valid(t: Tree) {
    Rooted(t) && NamesOk(t) && Named(t) && Unique(t) && ParentsIn(t) && Connected(t) && DirLinks(t) && FileLinks(t)
  }

  // ---- Following `..` ----

  lemma {:induction false} UpAdd(dirs: map<nat, Dir>, d: nat, j: nat, k: nat)
    ensures Up(dirs, d, j + k) == Up(dirs, Up(dirs, d, j), k)
    decreases j
  {
    if j > 0 {
      if d in dirs {
        UpAdd(dirs, dirs[d].dotdot, j - 1, k);
      } else {
        UpOutside(dirs, d, j + k);
        UpOutside(dirs, d, k);
      }
    }
  }

  lemma UpOutside(dirs: map<nat, Dir>, d: nat, k: nat)
    requires d !in dirs
    ensures Up(dirs, d, k) == d
  {
  }

  lemma {:induction false} UpRoot(dirs: map<nat, Dir>, k: nat)
    requires RootIno in dirs && dirs[RootIno].dotdot == RootIno
    ensures Up(dirs, RootIno, k) == RootIno
    decreases k
  {
    if k > 0 {
      UpRoot(dirs, k - 1);
    }
  }

  lemma {:induction false} UpInside(t: Tree, d: nat, k: nat)
    requires Rooted(t) && ParentsIn(t) && d in t.dirs
    ensures Up(t.dirs, d, k) in t.dirs
    decreases k
  {
    if k > 0 {
      assert ParentIn(t, d);
      UpInside(t, t.dirs[d].dotdot, k - 1);
    }
  }

  /** Nothing but the root is its own parent, and no parent lies below its child. */
  lemma {:induction false} NoLoop(t: Tree, d: nat, j: nat, k: nat)
    requires Rooted(t) && d in t.dirs && Up(t.dirs, d, k) == RootIno && j > 0 && Up(t.dirs, d, j) == d
    ensures d == RootIno
    decreases k
  {
    if k < j {
      UpAdd(t.dirs, d, k, j - k);
      UpRoot(t.dirs, j - k);
    } else {
      UpAdd(t.dirs, d, j, k - j);
      NoLoop(t, d, j, k - j);
    }
  }

  lemma NotOwnParent(t: Tree, d: nat)
    requires Rooted(t) && Connected(t) && d in t.dirs && d != RootIno
    ensures t.dirs[d].dotdot != d
  {
    if t.dirs[d].dotdot == d {
      var k: nat :| Up(t.dirs, d, k) == RootIno;
      assert Up(t.dirs, d, 1) == Up(t.dirs, d, 0);
      NoLoop(t, d, 1, k);
    }
  }

  // ---- is_ancestor ----

  /** is_ancestor from the `guard`-th round on, at directory `ino`. */
  function Walk(dirs: map<nat, Dir>, anc: nat, ino: nat, guard: nat): (r: bool)
    requires guard <= 4096
    decreases 4096 - guard
  {
    if guard == 4096 then true
    else if ino == anc then true
    else if ino == RootIno then false
    else if ino !in dirs then false
    else if dirs[ino].dotdot == ino then false
    else Walk(dirs, anc, dirs[ino].dotdot, guard + 1)
  }

  /** More than 4095 directories lie above `d`. */
  ghost predicate Deep(dirs: map<nat, Dir>, d: nat, n: nat) {
    forall k: nat :: k < n ==> Up(dirs, d, k) != RootIno
  }

  /** The walk is exact up to its guard, and refuses what is deeper. */
  lemma {:induction false} WalkExact(t: Tree, anc: nat, ino: nat, guard: nat)
    requires Rooted(t) && ParentsIn(t) && Connected(t) && ino in t.dirs && guard <= 4096
    ensures Walk(t.dirs, anc, ino, guard) <==> Reaches(t.dirs, ino, anc) || Deep(t.dirs, ino, 4096 - guard)
    decreases 4096 - guard
  {
    if guard == 4096 {
    } else if ino == anc {
      assert Up(t.dirs, ino, 0) == anc;
    } else if ino == RootIno {
      forall k: nat ensures Up(t.dirs, ino, k) != anc {
        UpRoot(t.dirs, k);
      }
      assert Up(t.dirs, ino, 0) == RootIno;
    } else {
      NotOwnParent(t, ino);
      assert ParentIn(t, ino);
      var up := t.dirs[ino].dotdot;
      WalkExact(t, anc, up, guard + 1);
      ReachesUp(t.dirs, ino, anc);
      DeepUp(t.dirs, ino, 4096 - guard);
    }
  }

  lemma ReachesUp(dirs: map<nat, Dir>, d: nat, a: nat)
    requires d in dirs && d != a
    ensures Reaches(dirs, d, a) <==> Reaches(dirs, dirs[d].dotdot, a)
  {
    if Reaches(dirs, d, a) {
      var k: nat :| Up(dirs, d, k) == a;
      assert Up(dirs, dirs[d].dotdot, k - 1) == a;
    }
    if Reaches(dirs, dirs[d].dotdot, a) {
      var k: nat :| Up(dirs, dirs[d].dotdot, k) == a;
      assert Up(dirs, d, k + 1) == a;
    }
  }

  lemma DeepUp(dirs: map<nat, Dir>, d: nat, n: nat)
    requires d in dirs && d != RootIno && n > 0
    ensures Deep(dirs, d, n) <==> Deep(dirs, dirs[d].dotdot, n - 1)
  {
    var up := dirs[d].dotdot;
    if Deep(dirs, d, n) {
      forall k: nat | k < n - 1 ensures Up(dirs, up, k) != RootIno {
        assert Up(dirs, d, k + 1) == Up(dirs, up, k);
      }
    }
    if Deep(dirs, up, n - 1) {
      forall k: nat | k < n ensures Up(dirs, d, k) != RootIno {
        if k > 0 {
          assert Up(dirs, up, k - 1) == Up(dirs, d, k);
        }
      }
    }
  }
}

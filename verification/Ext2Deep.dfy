/** A tree on which is_ancestor is wrong (kernel/fs/ext2.c:1249-1267): a chain of directories 4096
    levels deep, and an empty directory beside it. */
module Ext2Deep {
  import opened Ext2Dirent
  import opened Ext2Names
  import opened Ext2Rename

  const Last: nat := 4098                  // the end of the chain 2, 3, .., 4098
  const Beside: nat := 5000                // another directory in the root

  const Down: Name := [97]
  const Side: Name := [98]

  function Chain(n: nat): (r: set<nat>)
    ensures forall d: nat :: d in r <==> RootIno <= d < n
  {
    if n <= RootIno then {} else Chain(n - 1) + {n - 1}
  }

  function DirNos(): (r: set<nat>)
    ensures forall d: nat :: d in r <==> RootIno <= d <= Last || d == Beside
  {
    Chain(Last + 1) + {Beside}
  }

  function DirOf(d: nat): Dir {
    if d == RootIno then Dir(RootIno, 4)
    else if d == Beside then Dir(RootIno, 2)
    else Dir(if d == 0 then 0 else d - 1, if d == Last then 2 else 3)
  }

  function Dirs(): (r: map<nat, Dir>) {
    map d | d in DirNos() :: DirOf(d)
  }

  function KeyOf(d: nat): Key {
    if d == Beside then Key(RootIno, Side) else if d <= RootIno then Key(0, Down) else Key(d - 1, Down)
  }

  function NameSet(): (r: set<Key>) {
    set d | d in DirNos() && d != RootIno :: KeyOf(d)
  }

  function Names(): (r: map<Key, nat>) {
    map k | k in NameSet() :: if k.name == Side then Beside else k.dir + 1
  }

  function DeepTree(): (t: Tree) {
    Tree(Dirs(), map[], Names())
  }

  lemma NameOf(k: Key)
    requires k in Names()
    ensures Names()[k] in Dirs() && Names()[k] != RootIno && KeyOf(Names()[k]) == k && Dirs()[Names()[k]].dotdot == k.dir && k.dir in Dirs()
    ensures Plain(k.name)
  {
    var d :| d in DirNos() && d != RootIno && KeyOf(d) == k;
    assert Down != Side;
  }

  lemma HasKey(d: nat)
    requires d in Dirs() && d != RootIno
    ensures KeyOf(d) in Names() && Names()[KeyOf(d)] == d
  {
    assert KeyOf(d) in NameSet();
    assert Down != Side;
  }

  /** Following `..` goes down by one to the root and stays there. */
  lemma {:induction false} UpChain(d: nat, k: nat)
    requires RootIno <= d <= Last
    ensures Up(Dirs(), d, k) == if d - k >= RootIno then d - k else RootIno
    decreases k
  {
    if k > 0 {
      UpChain(if d == RootIno then RootIno else d - 1, k - 1);
    }
  }

  lemma Structure()
    ensures var t := DeepTree(); Rooted(t) && NamesOk(t) && Named(t) && Unique(t) && ParentsIn(t) && FileLinks(t)
  {
    hide Dirs, Names, KeyOf;
    var t := DeepTree();
    assert RootIno in Dirs() && Dirs()[RootIno].dotdot == RootIno by { RootIs(); }
    forall k | k in t.names ensures NameOk(t, k) {
      NameOf(k);
    }
    forall c | c in t.dirs && c != RootIno ensures HasName(t, c) {
      HasKey(c);
    }
    forall k, l | k in t.names && l in t.names && t.names[k] == t.names[l] ensures k == l {
      NameOf(k);
      NameOf(l);
    }
    forall c | c in t.dirs ensures ParentIn(t, c) {
      if c != RootIno {
        HasKey(c);
        NameOf(KeyOf(c));
      }
    }
  }

  lemma RootIs()
    ensures RootIno in Dirs() && Dirs()[RootIno].dotdot == RootIno
  {
  }

  lemma DirAt(d: nat)
    ensures d in Dirs() <==> RootIno <= d <= Last || d == Beside
    ensures d in Dirs() ==> Dirs()[d] == DirOf(d)
  {
    hide Chain;
  }

  lemma Below(d: nat, below: set<nat>)
    requires d in Dirs()
    requires below == if d == RootIno then {3, Beside} else if d == Beside || d == Last then {} else {d + 1}
    ensures Subdirs(Dirs(), d) == below
  {
    hide Dirs, Chain;
    forall c ensures c in Subdirs(Dirs(), d) <==> c in below {
      DirAt(c);
    }
  }

  lemma Links()
    ensures DirLinks(DeepTree())
  {
    hide Dirs, Subdirs, Chain;
    forall d | d in Dirs() ensures Dirs()[d].nlink == 2 + |Subdirs(Dirs(), d)| {
      DirAt(d);
      Below(d, if d == RootIno then {3, Beside} else if d == Beside || d == Last then {} else {d + 1});
    }
  }

  lemma AllConnected()
    ensures Connected(DeepTree())
  {
    hide Dirs, Up;
    forall d | d in Dirs() ensures Reaches(Dirs(), d, RootIno) {
      if d == Beside {
        BesideUp(1);
        assert Up(Dirs(), Beside, 1) == RootIno;
      } else {
        InChain(d);
        UpChain(d, d - RootIno);
        assert Up(Dirs(), d, d - RootIno) == RootIno;
      }
    }
  }

  lemma InChain(d: nat)
    requires d in Dirs() && d != Beside
    ensures RootIno <= d <= Last
  {
  }

  lemma BesideUp(k: nat)
    ensures Up(Dirs(), Beside, k) == if k == 0 then Beside else RootIno
  {
    if k > 0 {
      UpChain(RootIno, k - 1);
    }
  }

  /** On this valid tree the walk takes `Beside` for an ancestor of the end of the chain, which it is
      not, and rename refuses to move it there with EINVAL. */
  lemma WrongAncestor()
    ensures Valid(DeepTree())
    ensures Walk(Dirs(), Beside, Last, 0) && !Reaches(Dirs(), Last, Beside)
    ensures var t := DeepTree(); Key(RootIno, Side) in t.names && IntoItself(t, Key(RootIno, Side), Key(Last, Side))
  {
    hide Dirs, Names, Walk, Up, Named, Unique, NamesOk, DirLinks, FileLinks;
    Structure();
    Links();
    AllConnected();
    forall k: nat ensures Up(Dirs(), Last, k) != Beside && (k < 4096 ==> Up(Dirs(), Last, k) != RootIno) {
      UpChain(Last, k);
    }
    LastIn();
    WalkExact(DeepTree(), Beside, Last, 0);
    HasKey(Beside);
  }

  lemma LastIn()
    ensures Last in Dirs() && Beside in Dirs() && KeyOf(Beside) == Key(RootIno, Side)
  {
  }
}

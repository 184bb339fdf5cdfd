/** create, mkdir, unlink, rmdir and rename of an ext2 file system with the checks the VFS makes
    before them (kernel/fs/ext2.c:1136-1334, kernel/fs/vfs.c:352, 445-566). */
module Ext2Rename {
  import opened Ext2Map
  import opened Ext2Dirent
  import opened Ext2Dir
  import D = Ext2Directory
  import opened Ext2Names
  import opened Ext2Links
  import opened Ext2Disk

  datatype Code = Ok | ENOENT | EEXIST | ENOSPC | ENOTEMPTY | EINVAL | EISDIR | ENOTDIR | ENAMETOOLONG

  /** What the VFS says to the last name of a path. */
  function NameCode(n: Name): (e: Code) {
    if |n| > 255 then ENAMETOOLONG else if !Plain(n) then EINVAL else Ok
  }

  function Lookup(t: Tree, k: Key): (r: Option<nat>) {
    if k in t.names then Some(t.names[k]) else None
  }

  /** What a successful rename of `k` to `l` leaves: whatever `l` named is unlinked first. */
  function Cleared(t: Tree, l: Key): Tree
    requires l in t.names ==> l.dir in t.dirs && (t.names[l] in t.dirs || t.names[l] in t.files)
  {
    if l !in t.names then t else if t.names[l] in t.dirs then DropDir(t, l) else DropFile(t, l)
  }

  /** Why rename refuses, in the order of its checks. */
  ghost predicate IntoItself(t: Tree, k: Key, l: Key)
    requires k in t.names
  {
    t.names[k] in t.dirs && k.dir != l.dir && (Reaches(t.dirs, l.dir, t.names[k]) || Deep(t.dirs, l.dir, 4096))
  }

  // ---- Clearing the target leaves the move possible ----

  lemma DropKeepsPaths(t: Tree, l: Key, d: nat)
    requires Valid(t) && l in t.names && t.names[l] in t.dirs && EmptyDir(t, t.names[l]) && l.dir in t.dirs && l.dir != t.names[l]
    requires d in t.dirs && d != t.names[l]
    ensures forall e :: Reaches(t.dirs, d, e) <==> Reaches(DropDir(t, l).dirs, d, e)
  {
    hide Reaches, DirLinks, FileLinks, Unique, Connected;
    var c := t.names[l];
    var u := DropDir(t, l);
    EmptyHasNoSubdirs(t, c);
    assert NameOk(t, l);
    forall x | x in t.dirs.Keys - {c} ensures SharedAt(t.dirs, u.dirs, t.dirs.Keys - {c}, x) {
      assert ParentIn(t, x);
    }
    ReachesKept(t.dirs, u.dirs, t.dirs.Keys - {c}, d);
  }

  ghost predicate MayReplace(t: Tree, k: Key, l: Key) {
    && k in t.names && k.dir in t.dirs && l.dir in t.dirs && Plain(l.name)
    && (t.names[k] in t.dirs && k.dir != l.dir ==> !Reaches(t.dirs, l.dir, t.names[k]))
    && (l in t.names ==> t.names[l] != t.names[k] && (t.names[l] in t.dirs <==> t.names[k] in t.dirs))
    && (l in t.names && t.names[l] in t.dirs ==> EmptyDir(t, t.names[l]))
  }

  lemma ClearedOk(t: Tree, k: Key, l: Key)
    requires Valid(t) && MayReplace(t, k, l)
    ensures l in t.names ==> l.dir in t.dirs && (t.names[l] in t.dirs || t.names[l] in t.files)
    ensures var u := Cleared(t, l);
            Valid(u) && MayMove(u, k, l) && k.dir in u.dirs && l.dir in u.dirs && k in u.names
            && u.names[k] == t.names[k] && (t.names[k] in u.dirs <==> t.names[k] in t.dirs)
    ensures l in t.names && t.names[l] in t.dirs ==> l.dir != t.names[l]
  {
    hide DirLinks, FileLinks, Named, Unique, Connected, ParentsIn, Reaches;
    assert NameOk(t, k);
    if l in t.names {
      assert NameOk(t, l);
      var c := t.names[l];
      if c in t.dirs {
        ClearedDirOk(t, k, l);
      } else {
        DropFileValid(t, l);
      }
    }
  }

  lemma ClearedDirOk(t: Tree, k: Key, l: Key)
    requires Valid(t) && MayReplace(t, k, l) && l in t.names && t.names[l] in t.dirs
    ensures l.dir in t.dirs && l.dir != t.names[l] && Valid(DropDir(t, l)) && MayMove(DropDir(t, l), k, l)
  {
    hide DirLinks, FileLinks, Named, Unique, Connected, ParentsIn, Reaches;
    DropDirValid(t, l);
    DropKeepsPaths(t, l, l.dir);
    assert k.dir != t.names[l];
  }

  // ---- The operations ----

  /** The directories as they are on the disk, and the tree of names that they stand for. */
  class Namespace {
    const bs: nat
    var blocks: map<nat, seq<D.Slot>>     // of each directory inode
    var links: map<nat, int>              // its link count
    var files: map<nat, nat>              // link counts of the other inodes
    ghost var dirs: map<nat, Dir>
    ghost var names: map<Key, nat>

    ghost function View(): (t: Tree)
      reads this
    {
      Tree(dirs, files, names)
    }

    ghost predicate Shown()
      reads this
    {
      OnDisk(bs, blocks, links, View())
    }

    /** A file system with a root directory only. */
    constructor (zero: Block)
      requires 264 <= |zero| < 0x1_0000 && |zero| % 4 == 0
      ensures Valid(View()) && Shown() && bs == |zero| && names == map[] && files == map[]
    {
      bs := |zero|;
      blocks := map[RootIno := [D.Data(DirBlock(zero, RootIno, RootIno))]];
      links := map[RootIno := 2];
      files := map[];
      dirs := map[RootIno := Dir(RootIno, 2)];
      names := map[];
      new;
      RootValid();
      NewShows(bs, zero, RootIno, RootIno, names);
      assert ShowsDir(bs, blocks, links, View(), RootIno);
    }

    // ---- One directory ----

    /** dir_find. */
    method DirFind(d: nat, name: Name) returns (r: Option<nat>)
      requires Shown() && d in dirs
      ensures name == DotDot ==> r == Some(dirs[d].dotdot)
      ensures name != Dot && name != DotDot ==> r == Lookup(View(), Key(d, name))
    {
      hide D.Valid, Bind, D.All, Marked;
      assert ShowsDir(bs, blocks, links, View(), d);
      var dir := new D.Directory.Get(bs, blocks[d]);
      var t := dir.Find(name);
      assert name != Dot && name != DotDot ==> SameName(Bind(D.All(blocks[d])), d, names, name);
      return if t.Some? then Some(t.value.ino) else None;
    }

    /** dir_is_empty. */
    method DirIsEmpty(d: nat) returns (r: bool)
      requires Shown() && NamesOk(View()) && d in dirs
      ensures r <==> EmptyDir(View(), d)
    {
      hide D.Valid, Bind, D.All, Marked, NamesOk, EmptyDir;
      assert ShowsDir(bs, blocks, links, View(), d);
      var dir := new D.Directory.Get(bs, blocks[d]);
      r := dir.IsEmpty();
      EmptyShows(Bind(D.All(blocks[d])), d, dirs[d].dotdot, View());
    }

    /** dir_add of a name that is not there; `zero` is the block that bmap attaches when it must. */
    method DirAdd(k: Key, ino: nat, ft: Byte, zero: Option<Block>) returns (e: Code)
      requires Shown() && k.dir in dirs && Plain(k.name) && |k.name| <= 255 && k !in names
      requires 0 < ino < 0x1_0000_0000 && (zero.Some? ==> |zero.value| == bs)
      modifies this`blocks, this`names
      ensures Shown()
      ensures e == if zero.None? && NoRoom(old(blocks)[k.dir], k.name) then ENOSPC else Ok
      ensures names == if e == Ok then old(names)[k := ino] else old(names)
      ensures e != Ok ==> blocks == old(blocks)
    {
      hide D.Valid, Bind, D.All, Marked, Holds, Roomy;
      ghost var t, slots := View(), blocks[k.dir];
      ghost var up := dirs[k.dir].dotdot;
      ghost var m := Bind(D.All(slots));
      assert ShowsDir(bs, blocks, links, t, k.dir);
      NotBound(m, k, up, names);
      var dir := new D.Directory.Get(bs, blocks[k.dir]);
      var err := dir.Add(k.name, ino, ft, zero);
      if err != D.Ok {
        return ENOSPC;
      }
      AddHolds(m, k, up, names, Target(ino, ft));
      names := names[k := ino];
      assert names - {k} == t.names - {k};
      NamesOnDisk(bs, blocks, links, t, k, dir.blocks, names);
      blocks := blocks[k.dir := dir.blocks];
      return Ok;
    }

    /** dir_remove of a name that is there. */
    method DirRemove(k: Key)
      requires Shown() && k.dir in dirs && Plain(k.name) && k in names
      modifies this`blocks, this`names
      ensures Shown() && names == old(names) - {k}
      ensures |k.name| <= 255 ==> !NoRoom(blocks[k.dir], k.name)
    {
      hide D.Valid, Bind, D.All, Marked, Holds, Roomy;
      ghost var t, slots := View(), blocks[k.dir];
      ghost var up := dirs[k.dir].dotdot;
      ghost var m := Bind(D.All(slots));
      assert ShowsDir(bs, blocks, links, t, k.dir);
      IsBound(m, k, up, names);
      var dir := new D.Directory.Get(bs, blocks[k.dir]);
      var err := dir.Remove(k.name);
      assert err == D.Ok;
      RemoveHolds(m, k, up, names);
      names := names - {k};
      assert names - {k} == t.names - {k};
      NamesOnDisk(bs, blocks, links, t, k, dir.blocks, names);
      blocks := blocks[k.dir := dir.blocks];
    }

    /** dir_iterate with dotdot_visit. */
    method SetParent(d: nat, up: nat)
      requires Shown() && d in dirs && 0 < up < 0x1_0000_0000
      modifies this`blocks, this`dirs
      ensures Shown() && dirs == old(dirs)[d := old(dirs)[d].(dotdot := up)]
    {
      hide D.Valid, Bind, D.All, Marked;
      ghost var t := View();
      ghost var m := Bind(D.All(blocks[d]));
      ghost var now := dirs[d].(dotdot := up);
      assert ShowsDir(bs, blocks, links, t, d);
      var dir := new D.Directory.Get(bs, blocks[d]);
      dir.SetDotdot(up);
      DotdotHolds(m, d, dirs[d].dotdot, names, Target(up, m[DotDot].ft));
      DirOnDisk(bs, blocks, links, t, d, dir.blocks, now);
      assert links[d := now.nlink] == links;
      blocks := blocks[d := dir.blocks];
      dirs := dirs[d := now];
    }

    /** The link count of an inode and its write to the disk. */
    method SetLinks(d: nat, n: int)
      requires Shown() && d in dirs
      modifies this`links, this`dirs
      ensures Shown() && dirs == old(dirs)[d := old(dirs)[d].(nlink := n)]
    {
      hide Shows;
      ghost var t := View();
      ghost var now := dirs[d].(nlink := n);
      assert ShowsDir(bs, blocks, links, t, d);
      DirOnDisk(bs, blocks, links, t, d, blocks[d], now);
      assert blocks[d := blocks[d]] == blocks;
      links := links[d := n];
      dirs := dirs[d := now];
    }

    /** iput of a directory without links. */
    method DropInode(d: nat)
      requires Shown()
      modifies this`blocks, this`links, this`dirs
      ensures Shown() && dirs == old(dirs) - {d} && blocks == old(blocks) - {d} && links == old(links) - {d}
    {
      hide Shows;
      GoneOnDisk(bs, blocks, links, View(), d);
      blocks := blocks - {d};
      links := links - {d};
      dirs := dirs - {d};
    }

    /** The first block of a new directory, with `.` and `..`. */
    method FirstRecords(d: nat, up: nat, zero: Block)
      requires Shown() && up in dirs && d !in dirs && 0 < d < 0x1_0000_0000 && |zero| == bs
      requires forall k :: k in names ==> k.dir != d
      modifies this`blocks, this`links, this`dirs
      ensures Shown() && dirs == old(dirs)[d := Dir(up, 2)]
      ensures d !in old(blocks) && d !in old(links)
      ensures blocks - {d} == old(blocks) && links - {d} == old(links)
    {
      hide Shows, DirBlock, D.Valid;
      ghost var t := View();
      NumberRange(bs, blocks, links, t, up);
      SizeOf(bs, blocks, links, t, up);
      NewShows(bs, zero, d, up, names);
      var slots := [D.Data(DirBlock(zero, d, up))];
      DirOnDisk(bs, blocks, links, t, d, slots, Dir(up, 2));
      blocks := blocks[d := slots];
      links := links[d := 2];
      dirs := dirs[d := Dir(up, 2)];
    }

    // ---- The operations ----

    /** The loop over `..`: true for an ancestor, and for a directory too deep to tell. */
    method IsAncestor(anc: nat, dir: nat) returns (r: bool)
      requires Valid(View()) && Shown() && dir in dirs
      ensures r <==> Reaches(dirs, dir, anc) || Deep(dirs, dir, 4096)
    {
      hide Valid, Shows;
      ValidParts(View());
      WalkExact(View(), anc, dir, 0);
      var ino := dir;
      for guard := 0 to 4096
        invariant Walk(dirs, anc, dir, 0) == Walk(dirs, anc, ino, guard)
      {
        if ino == anc {
          return true;
        }
        if ino == RootIno || ino !in blocks {
          return false;
        }
        var parent := DirFind(ino, DotDot);
        if parent.None? || parent.value == ino {
          return false;
        }
        ino := parent.value;
      }
      return true;
    }

    /** open with O_CREAT, or mknod: `ino` is the number that alloc_inode_nr found. */
    method Create(k: Key, ino: Option<nat>, ft: Byte, zero: Option<Block>) returns (e: Code)
      requires Valid(View()) && Shown() && k.dir in dirs
      requires ino.Some? ==> 0 < ino.value < 0x1_0000_0000 && ino.value !in dirs && ino.value !in files
      requires zero.Some? ==> |zero.value| == bs
      modifies this
      ensures Valid(View()) && Shown()
      ensures e == if NameCode(k.name) != Ok then NameCode(k.name) else if k in old(names) then EEXIST
                   else if ino.None? || (zero.None? && NoRoom(old(blocks)[k.dir], k.name)) then ENOSPC else Ok
      ensures View() == if e == Ok then NewFile(old(View()), k, ino.value) else old(View())
      ensures e != Ok ==> blocks == old(blocks) && links == old(links)
    {
      hide Valid, OnDisk, NoRoom;
      e := NameCode(k.name);
      if e != Ok {
        return;
      }
      OnDiskDirs(bs, blocks, links, View());
      var there := DirFind(k.dir, k.name);
      if there.Some? {
        return EEXIST;
      }
      if ino.None? {
        return ENOSPC;
      }
      var node := ino.value;
      NewFileValid(View(), k, node);
      TakenBack(files, node, 1);
      FilesOnDisk(bs, blocks, links, View(), files[node := 1]);
      files := files[node := 1];         // new_inode sets nlink to 1 before there is a name
      e := DirAdd(k, node, ft, zero);
      if e != Ok {
        FilesOnDisk(bs, blocks, links, View(), files - {node});
        files := files - {node};         // nlink = 0: iput takes the inode back
      }
    }

    /** mkdir: `block` is the first block of the new directory, if there is one, `zero` another one
        for its parent. */
    method Mkdir(k: Key, ino: Option<nat>, block: Option<Block>, zero: Option<Block>) returns (e: Code)
      requires Valid(View()) && Shown() && k.dir in dirs
      requires ino.Some? ==> 0 < ino.value < 0x1_0000_0000 && ino.value !in dirs && ino.value !in files
      requires (block.Some? ==> |block.value| == bs) && (zero.Some? ==> |zero.value| == bs)
      modifies this
      ensures Valid(View()) && Shown()
      ensures e == if NameCode(k.name) != Ok then NameCode(k.name) else if k in old(names) then EEXIST
                   else if ino.None? || block.None? || (zero.None? && NoRoom(old(blocks)[k.dir], k.name)) then ENOSPC else Ok
      ensures e == Ok ==> Lookup(View(), k) == ino && ino.value in dirs && dirs[ino.value] == Dir(k.dir, 2) && EmptyDir(View(), ino.value)
      ensures View() == if e == Ok then NewDir(old(View()), k, ino.value) else old(View())
      ensures e != Ok ==> blocks == old(blocks) && links == old(links)
    {
      hide Valid, OnDisk, NoRoom, EmptyDir;
      e := NameCode(k.name);
      if e != Ok {
        return;
      }
      OnDiskDirs(bs, blocks, links, View());
      var there := DirFind(k.dir, k.name);
      if there.Some? {
        return EEXIST;
      }
      if ino.None? {
        return ENOSPC;
      }
      e := MakeDir(k, ino.value, block, zero);
    }

    /** ext2_mkdir with the inode `node`. */
    method MakeDir(k: Key, node: nat, block: Option<Block>, zero: Option<Block>) returns (e: Code)
      requires Valid(View()) && Shown() && k.dir in dirs && Plain(k.name) && |k.name| <= 255 && k !in names
      requires 0 < node < 0x1_0000_0000 && node !in dirs && node !in files
      requires (block.Some? ==> |block.value| == bs) && (zero.Some? ==> |zero.value| == bs)
      modifies this
      ensures Valid(View()) && Shown()
      ensures e == if block.None? || (zero.None? && NoRoom(old(blocks)[k.dir], k.name)) then ENOSPC else Ok
      ensures e == Ok ==> Lookup(View(), k) == Some(node) && node in dirs && dirs[node] == Dir(k.dir, 2) && EmptyDir(View(), node)
      ensures View() == if e == Ok then NewDir(old(View()), k, node) else old(View())
      ensures e != Ok ==> blocks == old(blocks) && links == old(links)
    {
      hide Valid, OnDisk, NoRoom, EmptyDir;
      ghost var t := View();
      NewDirValid(t, k, node);
      NewDirEmpty(t, k, node);
      NoNamesIn(t, node);
      TakenBack(t.files, node, 1);
      TakenBack(t.dirs, node, Dir(k.dir, 2));
      FilesOnDisk(bs, blocks, links, View(), files[node := 1]);
      files := files[node := 1];         // new_inode: not yet a directory with records
      if block.None? {
        FilesOnDisk(bs, blocks, links, View(), files - {node});
        files := files - {node};         // nlink = 0: iput takes the inode back
        return ENOSPC;
      }
      FilesOnDisk(bs, blocks, links, View(), files - {node});
      files := files - {node};
      FirstRecords(node, k.dir, block.value);
      OnDiskDirs(bs, blocks, links, View());
      assert blocks[k.dir] == (blocks - {node})[k.dir];
      e := DirAdd(k, node, FtDir, zero);
      if e != Ok {
        DropInode(node);                 // truncated, nlink = 0
        return;
      }
      SetLinks(k.dir, links[k.dir] + 1);
    }

    method Unlink(k: Key) returns (e: Code)
      requires Valid(View()) && Shown() && k.dir in dirs
      modifies this
      ensures Valid(View()) && Shown()
      ensures e == if NameCode(k.name) != Ok then NameCode(k.name) else if k !in old(names) then ENOENT
                   else if old(names)[k] in old(dirs) then EISDIR else Ok
      ensures e == Ok ==> old(names)[k] in old(files) && View() == DropFile(old(View()), k)
      ensures e != Ok ==> View() == old(View()) && blocks == old(blocks) && links == old(links)
    {
      hide Valid, OnDisk, NoRoom;
      e := NameCode(k.name);
      if e != Ok {
        return;
      }
      OnDiskDirs(bs, blocks, links, View());
      var there := DirFind(k.dir, k.name);
      if there.None? {
        return ENOENT;
      }
      var f := there.value;
      if f in blocks {
        return EISDIR;
      }
      NamedKnown(View(), k);
      DropFileValid(View(), k);
      DirRemove(k);
      FilesOnDisk(bs, blocks, links, View(), Unlinked(files, f));
      files := Unlinked(files, f);
    }

    method Rmdir(k: Key) returns (e: Code)
      requires Valid(View()) && Shown() && k.dir in dirs
      modifies this
      ensures Valid(View()) && Shown()
      ensures e == if NameCode(k.name) != Ok then NameCode(k.name) else if k !in old(names) then ENOENT
                   else if old(names)[k] !in old(dirs) then ENOTDIR
                   else if !EmptyDir(old(View()), old(names)[k]) then ENOTEMPTY else Ok
      ensures View() == if e == Ok then DropDir(old(View()), k) else old(View())
      ensures e != Ok ==> blocks == old(blocks) && links == old(links)
    {
      hide Valid, OnDisk, NoRoom, EmptyDir;
      e := NameCode(k.name);
      if e != Ok {
        return;
      }
      OnDiskDirs(bs, blocks, links, View());
      var there := DirFind(k.dir, k.name);
      if there.None? {
        return ENOENT;
      }
      var c := there.value;
      if c !in blocks {
        return ENOTDIR;
      }
      ValidNames(View());
      var empty := DirIsEmpty(c);
      if !empty {
        return ENOTEMPTY;
      }
      DropDirValid(View(), k);
      DirRemove(k);
      DropInode(c);
      OnDiskDirs(bs, blocks, links, View());
      SetLinks(k.dir, links[k.dir] - 1);
    }

    /** A failed rename changes nothing; a successful one of two names moves exactly that name.
        `zero` is the block that dir_add may attach to the new directory. */
    method Rename(k: Key, l: Key, ft: Byte, zero: Option<Block>) returns (e: Code)
      requires Valid(View()) && Shown() && k.dir in dirs && l.dir in dirs
      requires zero.Some? ==> |zero.value| == bs
      modifies this
      ensures Valid(View()) && Shown()
      ensures e != Ok ==> View() == old(View()) && blocks == old(blocks) && links == old(links)
      ensures e == ENAMETOOLONG ==> |k.name| > 255 || |l.name| > 255
      ensures e == ENOENT <==> NameCode(k.name) == NameCode(l.name) == Ok && k !in old(names)
      ensures NameCode(k.name) == NameCode(l.name) == Ok ==>
                (e == EINVAL <==> k in old(names) && Lookup(old(View()), l) != Lookup(old(View()), k) && IntoItself(old(View()), k, l))
      ensures e == ENOTEMPTY ==> l in old(names) && !EmptyDir(old(View()), old(names)[l])
      ensures e == ENOSPC ==> l !in old(names) && zero.None? && NoRoom(old(blocks)[l.dir], l.name)
      ensures (NameCode(k.name) == NameCode(l.name) == Ok && MayReplace(old(View()), k, l) && !IntoItself(old(View()), k, l)
               && (l in old(names) || zero.Some? || !NoRoom(old(blocks)[l.dir], l.name))) ==> e == Ok
      ensures e == Ok ==> k in old(names)
      ensures e == Ok && Lookup(old(View()), l) == Lookup(old(View()), k) ==> View() == old(View())
      ensures e == Ok && Lookup(old(View()), l) != Lookup(old(View()), k) ==>
                MayReplace(old(View()), k, l) && MayMove(Cleared(old(View()), l), k, l) && k.dir in Cleared(old(View()), l).dirs
                && View() == Move(Cleared(old(View()), l), k, l)
    {
      hide Valid, OnDisk, NoRoom, EmptyDir, Reaches, Deep;
      e := NameCode(k.name);
      if e != Ok {
        return;
      }
      e := NameCode(l.name);
      if e != Ok {
        return;
      }
      OnDiskDirs(bs, blocks, links, View());
      var from := DirFind(k.dir, k.name);
      if from.None? {
        return ENOENT;
      }
      var src := from.value;
      var isDir := src in blocks;
      var dst := DirFind(l.dir, l.name);
      if dst.Some? && dst.value == src {
        return Ok;
      }
      if isDir && k.dir != l.dir {
        var inside := IsAncestor(src, l.dir);
        if inside {
          return EINVAL;
        }
      }
      if dst.Some? {
        e := CheckTarget(isDir, dst.value);
        if e != Ok {
          return;
        }
      }
      e := Replace(k, l, src, dst, isDir, ft, zero);
    }

    /** The tests on what the new name names. */
    method CheckTarget(isDir: bool, dst: nat) returns (e: Code)
      requires Valid(View()) && Shown()
      ensures e == if isDir != (dst in dirs) then (if dst in dirs then EISDIR else ENOTDIR)
                   else if isDir && !EmptyDir(View(), dst) then ENOTEMPTY else Ok
    {
      hide Valid, OnDisk, EmptyDir;
      OnDiskDirs(bs, blocks, links, View());
      if (dst in blocks) != isDir {
        return if dst in blocks then EISDIR else ENOTDIR;
      }
      if isDir {
        ValidNames(View());
        var empty := DirIsEmpty(dst);
        if !empty {
          return ENOTEMPTY;
        }
      }
      return Ok;
    }

    /** Unlinks what the new name names. */
    method Clear(l: Key, dst: nat)
      requires Valid(View()) && Shown() && l in names && dst == names[l] && l.dir in dirs && (dst in dirs || dst in files)
      requires (dst in dirs ==> l.dir != dst) && Plain(l.name)
      modifies this
      ensures Shown() && View() == Cleared(old(View()), l)
      ensures |l.name| <= 255 ==> l.dir in blocks && !NoRoom(blocks[l.dir], l.name)
    {
      hide Valid, OnDisk, NoRoom;
      OnDiskDirs(bs, blocks, links, View());
      DirRemove(l);
      OnDiskDirs(bs, blocks, links, View());
      if dst in blocks {
        DropInode(dst);
        OnDiskDirs(bs, blocks, links, View());
        SetLinks(l.dir, links[l.dir] - 1);
      } else {
        FilesOnDisk(bs, blocks, links, View(), Unlinked(files, dst));
        files := Unlinked(files, dst);
      }
    }

    /** Removes what the new name names, adds the new name, removes the old one, and mends `..`. */
    method Replace(k: Key, l: Key, src: nat, dst: Option<nat>, isDir: bool, ft: Byte, zero: Option<Block>) returns (e: Code)
      requires Valid(View()) && Shown() && MayReplace(View(), k, l) && src == names[k] && dst == Lookup(View(), l) && isDir == (src in dirs)
      requires |l.name| <= 255 && (zero.Some? ==> |zero.value| == bs)
      modifies this
      ensures Valid(View()) && Shown()
      ensures l.dir in old(blocks)
      ensures e == if l !in old(names) && zero.None? && NoRoom(old(blocks)[l.dir], l.name) then ENOSPC else Ok
      ensures e != Ok ==> View() == old(View()) && blocks == old(blocks) && links == old(links)
      ensures MayMove(Cleared(old(View()), l), k, l) && k.dir in Cleared(old(View()), l).dirs
      ensures e == Ok ==> View() == Move(Cleared(old(View()), l), k, l)
    {
      hide Valid, MayReplace, MayMove, Reaches, OnDisk, NoRoom, Plain, Reparented;
      ghost var t := View();
      OnDiskDirs(bs, blocks, links, View());
      ClearedOk(t, k, l);
      TargetKnown(t, k, l);
      if dst.Some? {
        Clear(l, dst.value);
      }
      ghost var u := View();
      assert u == Cleared(t, l);
      OnDiskDirs(bs, blocks, links, u);
      MoveValid(u, k, l);
      MoveApart(u, k, l);
      MovePlain(u, k, l);
      NamedRange(bs, blocks, links, View(), k);
      NumberRange(bs, blocks, links, View(), l.dir);
      e := DirAdd(l, src, ft, zero);
      if e != Ok {
        return;
      }
      DirRemove(k);
      if isDir && k.dir != l.dir {
        Mend(src, k.dir, l.dir);
      }
    }

    /** `..` of the directory `c`, which has moved from `o` to `n`, and the link counts. */
    method Mend(c: nat, o: nat, n: nat)
      requires Shown() && c in dirs && o in dirs && n in dirs && 0 < n < 0x1_0000_0000
      modifies this`blocks, this`links, this`dirs
      ensures Shown() && dirs == Reparented(old(dirs), c, o, n)
    {
      hide OnDisk;
      SetParent(c, n);
      OnDiskDirs(bs, blocks, links, View());
      SetLinks(o, links[o] - 1);
      OnDiskDirs(bs, blocks, links, View());
      SetLinks(n, links[n] + 1);
    }
  }

  // ---- What the methods need of the tree ----

  lemma NotBound(m: map<Name, Target>, k: Key, up: nat, names: map<Key, nat>)
    requires Holds(m, k.dir, up, names) && Plain(k.name) && k !in names
    ensures k.name !in m
  {
    assert SameName(m, k.dir, names, k.name);
  }

  lemma IsBound(m: map<Name, Target>, k: Key, up: nat, names: map<Key, nat>)
    requires Holds(m, k.dir, up, names) && Plain(k.name) && k in names
    ensures k.name in m
  {
    assert SameName(m, k.dir, names, k.name);
  }

  lemma OnDiskDirs(bs: nat, blocks: map<nat, seq<D.Slot>>, links: map<nat, int>, t: Tree)
    requires OnDisk(bs, blocks, links, t)
    ensures blocks.Keys == t.dirs.Keys && links.Keys == t.dirs.Keys && forall d :: d in t.dirs ==> links[d] == t.dirs[d].nlink
  {
    hide Shows;
    forall d | d in t.dirs ensures links[d] == t.dirs[d].nlink {
      assert ShowsDir(bs, blocks, links, t, d);
    }
  }

  lemma SizeOf(bs: nat, blocks: map<nat, seq<D.Slot>>, links: map<nat, int>, t: Tree, d: nat)
    requires OnDisk(bs, blocks, links, t) && d in t.dirs
    ensures 264 <= bs < 0x1_0000 && bs % 4 == 0
  {
    assert ShowsDir(bs, blocks, links, t, d);
  }

  lemma RootValid()
    ensures Valid(Tree(map[RootIno := Dir(RootIno, 2)], map[], map[]))
  {
    var t := Tree(map[RootIno := Dir(RootIno, 2)], map[], map[]);
    assert Up(t.dirs, RootIno, 0) == RootIno;
    assert Subdirs(t.dirs, RootIno) == {};
  }

  lemma TakenBack<V>(m: map<nat, V>, d: nat, v: V)
    requires d !in m
    ensures m[d := v] - {d} == m
  {
  }

  lemma NoNamesIn(t: Tree, d: nat)
    requires Valid(t) && d !in t.dirs
    ensures forall k :: k in t.names ==> k.dir != d
  {
    forall k | k in t.names ensures k.dir != d {
      assert NameOk(t, k);
    }
  }

  lemma NamedKnown(t: Tree, k: Key)
    requires Valid(t) && k in t.names
    ensures t.names[k] in t.dirs || t.names[k] in t.files
  {
    assert NameOk(t, k);
  }

  lemma ValidNames(t: Tree)
    requires Valid(t)
    ensures NamesOk(t)
  {
  }

  lemma MovePlain(t: Tree, k: Key, l: Key)
    requires Valid(t) && MayMove(t, k, l)
    ensures Plain(k.name) && Plain(l.name) && l !in t.names
  {
    assert NameOk(t, k);
  }

  lemma TargetKnown(t: Tree, k: Key, l: Key)
    requires Valid(t) && MayReplace(t, k, l)
    ensures l in t.names ==> l.dir in t.dirs && (t.names[l] in t.dirs || t.names[l] in t.files)
    ensures Plain(l.name)
  {
    if l in t.names {
      assert NameOk(t, l);
    }
  }

  lemma ValidParts(t: Tree)
    requires Valid(t)
    ensures Rooted(t) && ParentsIn(t) && Connected(t)
  {
  }

  lemma NewDirEmpty(t: Tree, k: Key, c: nat)
    requires Valid(t) && k.dir in t.dirs && c !in t.dirs && k !in t.names
    ensures EmptyDir(NewDir(t, k, c), c)
  {
    forall l | l in t.names ensures l.dir != c {
      assert NameOk(t, l);
    }
  }
}

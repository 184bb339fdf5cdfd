/** What each turn of bget, bread, bwrite and brelse does, that the cache drops the block used longest
    ago, and how large it gets (kernel/fs/block.c:279-389). */
module BcacheTurns {
  import opened Bcache

  /** Some buffer holds the block. */
  ghost predicate Cached(s: State, k: Key) {
    exists id :: id in s.bufs && s.bufs[id].key == k
  }

  /** Of the buffers without a reference, the one at the end of the list. */
  ghost predicate Oldest(s: State, v: nat) {
    && v in s.bufs && s.bufs[v].refs == 0
    && exists i :: 0 <= i < |s.lru| && s.lru[i] == v && forall j :: i < j < |s.lru| && s.lru[j] in s.bufs ==> s.bufs[s.lru[j]].refs != 0
  }

  ghost predicate AllReferenced(s: State) {
    forall id :: id in s.bufs ==> s.bufs[id].refs != 0
  }

  lemma {:induction false} VictimOldest(s: State, lru: seq<nat>)
    ensures Victim(s, lru).Some? ==>
              exists i :: 0 <= i < |lru| && lru[i] == Victim(s, lru).value
                          && forall j :: i < j < |lru| && lru[j] in s.bufs ==> s.bufs[lru[j]].refs != 0
    ensures Victim(s, lru).None? ==> forall j :: 0 <= j < |lru| && lru[j] in s.bufs ==> s.bufs[lru[j]].refs != 0
    decreases |lru|
  {
    if lru != [] {
      VictimOldest(s, lru[1..]);
      var rest := Victim(s, lru[1..]);
      if rest.Some? {
        var i :| 0 <= i < |lru[1..]| && lru[1..][i] == rest.value
                 && forall j :: i < j < |lru[1..]| && lru[1..][j] in s.bufs ==> s.bufs[lru[1..][j]].refs != 0;
        assert lru[i + 1] == rest.value;
        forall j | i + 1 < j < |lru| && lru[j] in s.bufs ensures s.bufs[lru[j]].refs != 0 {
          assert lru[1..][j - 1] == lru[j];
        }
      } else {
        forall j | 0 < j < |lru| && lru[j] in s.bufs ensures s.bufs[lru[j]].refs != 0 {
          assert lru[1..][j - 1] == lru[j];
        }
      }
    }
  }

  lemma VictimIs(s: State)
    requires Listed(s)
    ensures Victim(s, s.lru).Some? ==> Oldest(s, Victim(s, s.lru).value)
    ensures Victim(s, s.lru).None? <==> AllReferenced(s)
  {
    hide Victim, Distinct;
    VictimOldest(s, s.lru);
    if Victim(s, s.lru).None? {
      forall id | id in s.bufs ensures s.bufs[id].refs != 0 {
        assert id in s.lru;
      }
    }
  }

  lemma FindIs(s: State, k: Key)
    requires Inv(s)
    ensures Find(s, s.lru, k).Some? <==> Cached(s, k)
    ensures Find(s, s.lru, k).Some? ==> Find(s, s.lru, k).value in s.bufs && s.bufs[Find(s, s.lru, k).value].key == k
  {
    hide Find, Counted, Kept, OneHolder, HeldValid, Coherent, Distinct;
  }

  // ---- bget ----

  /** What bget does with the list locked: a cached block is used; else, with 1024 buffers and one of
      them free, the oldest free one is re-targeted, or dropped if it has another size; else a new one
      is allocated. */
  lemma GetTurn(s: State, e: Event)
    requires Inv(s) && Enabled(s, e) && !e.Invalidate? && s.pc[e.p].Want?
    ensures var k := s.pc[e.p].key;
            && (Cached(s, k) ==> e.Hit?)
            && (!Cached(s, k) && (s.count < 1024 || AllReferenced(s)) ==> e.Miss?)
            && (!Cached(s, k) && s.count >= 1024 && !AllReferenced(s) ==> e.Reuse? || e.Evict?)
    ensures e.Hit? ==>
              exists id :: id in s.bufs && s.bufs[id].key == s.pc[e.p].key && Referenced(s, e.p, id, Apply(s, e))
                           && Apply(s, e).lru == [id] + Without(s.lru, id)
    ensures e.Reuse? ==>
              exists v :: Oldest(s, v) && s.bufs[v].key.size == s.pc[e.p].key.size
                          && Apply(s, e) == s.(bufs := s.bufs[v := Buf(s.pc[e.p].key, false, 1, s.bufs[v].data)],
                                               lru := [v] + Without(s.lru, v), pc := s.pc[e.p := Got(v, s.pc[e.p].key)])
    ensures e.Evict? ==>
              exists v :: Oldest(s, v) && s.bufs[v].key.size != s.pc[e.p].key.size
                          && Apply(s, e) == s.(bufs := s.bufs - {v}, lru := Without(s.lru, v), count := s.count - 1, pc := s.pc[e.p := Make(s.pc[e.p].key)])
    ensures e.Miss? ==> Apply(s, e) == s.(pc := s.pc[e.p := Make(s.pc[e.p].key)])
  {
    hide Find, Victim, Inv, Oldest, AllReferenced, Without;
    FindIs(s, s.pc[e.p].key);
    ListedOf(s);
    VictimIs(s);
  }

  lemma ListedOf(s: State)
    requires Inv(s)
    ensures Listed(s)
  {
  }

  /** The buffer has one reference more, and the process holds it. */
  ghost predicate Referenced(s: State, p: nat, id: nat, t: State)
    requires id in s.bufs && p < |s.pc| && (s.pc[p].Want? || s.pc[p].Make?)
  {
    t == s.(bufs := s.bufs[id := s.bufs[id].(refs := s.bufs[id].refs + 1)], lru := t.lru, pc := s.pc[p := Got(id, s.pc[p].key)])
  }

  /** With the new buffer at hand: a buffer that another process has put in meanwhile is used instead, or
      the new one goes to the front, not valid and with one reference; without memory bget fails. */
  lemma MakeTurn(s: State, e: Event)
    requires Inv(s) && Enabled(s, e) && !e.Invalidate? && s.pc[e.p].Make?
    ensures var k := s.pc[e.p].key;
            e.MakeFail? || (Cached(s, k) && e.Dup?) || (!Cached(s, k) && e.Insert?)
    ensures e.MakeFail? ==> Apply(s, e) == s.(pc := s.pc[e.p := Idle])
    ensures e.Dup? ==>
              exists id :: id in s.bufs && s.bufs[id].key == s.pc[e.p].key && Referenced(s, e.p, id, Apply(s, e)) && Apply(s, e).lru == s.lru
    ensures e.Insert? ==>
              e.id !in s.bufs
              && Apply(s, e) == s.(bufs := s.bufs[e.id := Buf(s.pc[e.p].key, false, 1, e.junk)], lru := [e.id] + s.lru, count := s.count + 1,
                                   pc := s.pc[e.p := Got(e.id, s.pc[e.p].key)])
  {
    hide Find, Victim, Inv, Without;
    FindIs(s, s.pc[e.p].key);
  }

  // ---- bread, bwrite, brelse ----

  /** bread returns the bytes of the disk: from the buffer if it is valid, else by reading them. */
  lemma ReadTurn(s: State, e: Event)
    requires Inv(s) && Enabled(s, e) && !e.Invalidate? && s.pc[e.p].Check?
    ensures s.pc[e.p].id in s.bufs
    ensures var id, k := s.pc[e.p].id, s.pc[e.p].key;
            && s.bufs[id].key == k
            && (s.bufs[id].valid ==> e.Ready?) && (!s.bufs[id].valid ==> e.Fill? || e.FillFail?)
            && (e.Ready? ==> Apply(s, e) == s.(pc := s.pc[e.p := Hold(id, k, false)]))
            && (e.Fill? ==> Apply(s, e) == s.(bufs := s.bufs[id := s.bufs[id].(data := OnDisk(s, k), valid := true)], pc := s.pc[e.p := Hold(id, k, false)]))
            && (e.FillFail? ==> Apply(s, e) == s.(pc := s.pc[e.p := Drop(id, k)]))
            && (e.Ready? ==> s.bufs[id].data == OnDisk(s, k))
  {
    hide Listed, OnePerKey, Counted, HeldValid, OnDisk;
    HolderAlone(s, e.p);
    assert !Dirty(s.pc, s.pc[e.p].id);
  }

  /** A holder changes its buffer, writes it to its own block of the disk, and lets go of it when it has
      written what it changed. */
  lemma HoldTurn(s: State, e: Event)
    requires Inv(s) && Enabled(s, e) && !e.Invalidate? && s.pc[e.p].Hold?
    ensures s.pc[e.p].id in s.bufs
    ensures e.Change? || e.Flush? || (e.Unlock? && !s.pc[e.p].dirty)
    ensures var id, k := s.pc[e.p].id, s.pc[e.p].key;
            && (e.Change? ==> Apply(s, e) == s.(bufs := s.bufs[id := s.bufs[id].(data := e.d)], pc := s.pc[e.p := Hold(id, k, true)]))
            && (e.Flush? ==> Apply(s, e) == s.(disk := s.disk[k := s.bufs[id].data], pc := s.pc[e.p := Hold(id, k, false)]))
            && (e.Unlock? ==> Apply(s, e) == s.(pc := s.pc[e.p := Drop(id, k)]))
  {
    hide Listed, OnePerKey, Counted, HeldValid, OneHolder, Coherent;
    assert Uses(s.pc[e.p]) == Some(s.pc[e.p].id);
  }

  /** The first and the last step of a use. */
  lemma EndTurns(s: State, e: Event)
    requires Inv(s) && Enabled(s, e) && !e.Invalidate?
    ensures s.pc[e.p].Idle? ==> e.Start? && Apply(s, e) == s.(pc := s.pc[e.p := Want(e.key)])
    ensures s.pc[e.p].Got? ==>
              e.Lock? && Unlocked(s, s.pc[e.p].id) && Apply(s, e) == s.(pc := s.pc[e.p := Check(s.pc[e.p].id, s.pc[e.p].key)])
    ensures s.pc[e.p].Drop? ==>
              var id := s.pc[e.p].id;
              e.Release? && id in s.bufs && Apply(s, e) == s.(bufs := s.bufs[id := s.bufs[id].(refs := s.bufs[id].refs - 1)], pc := s.pc[e.p := Idle])
  {
    hide Inv, Unlocked;
  }

  /** bcache_invalidate: buffers of the device without a reference are no longer valid, nothing else. */
  lemma InvalidateTurn(s: State, dev: nat)
    ensures Enabled(s, Invalidate(dev))
    ensures var t := Apply(s, Invalidate(dev));
            t == s.(bufs := t.bufs) && t.bufs.Keys == s.bufs.Keys
            && forall id :: id in s.bufs ==>
                 t.bufs[id] == s.bufs[id].(valid := s.bufs[id].valid && !(s.bufs[id].key.dev == dev && s.bufs[id].refs == 0))
  {
  }

  /** What a process does next without an error; `id` is a buffer just allocated. */
  function NextOf(s: State, p: nat, id: nat): Event
    requires p < |s.pc| && (Uses(s.pc[p]).Some? ==> s.pc[p].id in s.bufs)
  {
    match s.pc[p]
    case Idle => Start(p, Key(0, 0, 0))
    case Want(k) =>
      if Find(s, s.lru, k).Some? then Hit(p)
      else if !NeedsVictim(s) then Miss(p)
      else if s.bufs[Victim(s, s.lru).value].key.size == k.size then Reuse(p) else Evict(p)
    case Make(k) => if Find(s, s.lru, k).Some? then Dup(p) else Insert(p, id, 0)
    case Got(_, _) => Lock(p)
    case Check(b, _) => if s.bufs[b].valid then Ready(p) else Fill(p)
    case Hold(_, _, dirty) => if dirty then Flush(p) else Unlock(p)
    case Drop(_, _) => Release(p)
  }

  /** Only a process that waits for the lock of a buffer that another holds cannot go on. */
  lemma Proceeds(s: State, p: nat, id: nat)
    requires Inv(s) && p < |s.pc| && id !in s.bufs && (s.pc[p].Got? ==> Unlocked(s, s.pc[p].id))
    ensures Uses(s.pc[p]).Some? ==> s.pc[p].id in s.bufs
    ensures Enabled(s, NextOf(s, p, id))
    ensures s.pc[p].Check? || s.pc[p].Hold? || s.pc[p].Drop? ==> NextOf(s, p, id).p == p
  {
    hide Find, Victim, Listed, OnePerKey, Kept, OneHolder, HeldValid, Coherent;
    if Uses(s.pc[p]).Some? {
      UsedCounted(s, p);
    }
  }

  // ---- Least recently used ----

  /** The last place of an element; -1 when it does not occur. */
  function LastUse(h: seq<nat>, id: nat): (i: int)
    ensures -1 <= i < |h| && (i >= 0 ==> h[i] == id)
    decreases |h|
  {
    if h == [] then -1 else if h[|h| - 1] == id then |h| - 1 else LastUse(h[..|h| - 1], id)
  }

  lemma LastUseAdd(h: seq<nat>, x: nat, id: nat)
    ensures LastUse(h + [x], id) == if id == x then |h| else LastUse(h, id)
  {
    assert (h + [x])[..|h|] == h;
  }

  /** The buffer that a step has got by search or allocation, if any. */
  function Used(s: State, e: Event): (h: seq<nat>)
    requires Enabled(s, e)
  {
    if e.Hit? || e.Reuse? || e.Insert? then
      var x := Apply(s, e).pc[e.p];
      if x.Got? then [x.id] else []
    else []
  }

  /** The list is in the order of the last uses, the latest first. */
  ghost predicate ByUse(lru: seq<nat>, h: seq<nat>) {
    forall i, j :: 0 <= i < j < |lru| ==> LastUse(h, lru[i]) > LastUse(h, lru[j])
  }

  lemma {:induction false} WithoutOrder(l: seq<nat>, id: nat, h: seq<nat>)
    requires ByUse(l, h)
    ensures ByUse(Without(l, id), h)
    decreases |l|
  {
    hide LastUse;
    if l != [] {
      var r := Without(l[1..], id);
      assert forall i :: 0 <= i < |l[1..]| ==> l[1..][i] == l[i + 1];
      WithoutOrder(l[1..], id, h);
      if l[0] != id {
        forall j | 0 <= j < |r| ensures LastUse(h, l[0]) > LastUse(h, r[j]) {
          assert r[j] in l[1..];
        }
      }
    }
  }

  lemma FrontOrder(l: seq<nat>, id: nat, h: seq<nat>)
    requires ByUse(l, h) && id !in l
    ensures ByUse([id] + l, h + [id])
  {
    hide LastUse;
    var n, g := [id] + l, h + [id];
    forall i, j | 0 <= i < j < |n| ensures LastUse(g, n[i]) > LastUse(g, n[j]) {
      LastUseAdd(h, id, n[i]);
      LastUseAdd(h, id, n[j]);
      LastUseBound(h, n[j]);
      assert n[j] == l[j - 1] && n[j] in l;
      assert i > 0 ==> n[i] == l[i - 1] && n[i] in l;
    }
  }

  lemma LastUseBound(h: seq<nat>, id: nat)
    ensures LastUse(h, id) < |h|
  {
  }

  lemma StepOrder(s: State, e: Event, h: seq<nat>)
    requires Inv(s) && Enabled(s, e) && ByUse(s.lru, h)
    ensures ByUse(Apply(s, e).lru, h + Used(s, e))
  {
    hide Inv, Find, Victim, LastUse, ByUse, Without;
    ListedOf(s);
    if e.Hit? {
      var id := Find(s, s.lru, s.pc[e.p].key).value;
      WithoutOrder(s.lru, id, h);
      FrontOrder(Without(s.lru, id), id, h);
    } else if e.Reuse? || e.Evict? {
      var v := Victim(s, s.lru).value;
      WithoutOrder(s.lru, v, h);
      if e.Reuse? {
        FrontOrder(Without(s.lru, v), v, h);
      } else {
        assert h + [] == h;
      }
    } else if e.Insert? {
      FrontOrder(s.lru, e.id, h);
    } else {
      assert h + [] == h;
    }
  }

  /** A run, with the buffers it has used in order. */
  ghost predicate RunUses(s: State, es: seq<Event>, t: State, h: seq<nat>)
    decreases |es|
  {
    if es == [] then s == t && h == []
    else
      Enabled(s, es[0]) && |Used(s, es[0])| <= |h| && Used(s, es[0]) == h[..|Used(s, es[0])|]
      && RunUses(Apply(s, es[0]), es[1..], t, h[|Used(s, es[0])|..])
  }

  lemma {:induction false} RunOrder(s: State, es: seq<Event>, t: State, g: seq<nat>, h: seq<nat>)
    requires Inv(s) && ByUse(s.lru, g) && RunUses(s, es, t, h)
    ensures Inv(t) && ByUse(t.lru, g + h)
    decreases |es|
  {
    hide Inv, Enabled, Apply, ByUse, Used;
    if es == [] {
      assert g + h == g;
    } else {
      var u := Used(s, es[0]);
      StepInv(s, es[0]);
      StepOrder(s, es[0], g);
      RunOrder(Apply(s, es[0]), es[1..], t, g + u, h[|u|..]);
      assert g + u + h[|u|..] == g + (u + h[|u|..]) == g + h;
    }
  }

  /** In every run bget gives up, of the buffers that nobody references, the one used longest ago. */
  lemma DropsLeastRecent(s: State, es: seq<Event>, t: State, h: seq<nat>, e: Event)
    requires Init(s) && RunUses(s, es, t, h) && Enabled(t, e) && (e.Reuse? || e.Evict?)
    ensures exists v :: v in t.bufs && t.bufs[v].refs == 0
                        && (if e.Reuse? then Apply(t, e).pc[e.p] == Got(v, t.pc[e.p].key) else Apply(t, e).bufs == t.bufs - {v})
                        && forall id :: id in t.bufs && t.bufs[id].refs == 0 && id != v ==> LastUse(h, v) < LastUse(h, id)
  {
    hide Inv, Find, Victim, LastUse, RunUses, Without;
    InitInv(s);
    RunOrder(s, es, t, [], h);
    assert [] + h == h;
    ListedOf(t);
    VictimIs(t);
    var v := Victim(t, t.lru).value;
    LastOfUnused(t, v, h);
  }

  lemma LastOfUnused(s: State, v: nat, h: seq<nat>)
    requires Listed(s) && Oldest(s, v) && ByUse(s.lru, h)
    ensures forall id :: id in s.bufs && s.bufs[id].refs == 0 && id != v ==> LastUse(h, v) < LastUse(h, id)
  {
    hide LastUse, Distinct;
    var i :| 0 <= i < |s.lru| && s.lru[i] == v && forall j :: i < j < |s.lru| && s.lru[j] in s.bufs ==> s.bufs[s.lru[j]].refs != 0;
    forall id | id in s.bufs && s.bufs[id].refs == 0 && id != v ensures LastUse(h, v) < LastUse(h, id) {
      assert id in s.lru;
      var j :| 0 <= j < |s.lru| && s.lru[j] == id;
    }
  }

  // ---- How large the cache gets ----

  /** The processes that allocate a buffer at the moment. */
  ghost function Makers(pc: seq<Pc>): set<nat> {
    set p | 0 <= p < |pc| && pc[p].Make?
  }

  ghost predicate Bounded(s: State) {
    s.count + |Makers(s.pc)| <= 1024 + |s.pc|
  }

  lemma MakersPut(pc: seq<Pc>, p: nat, x: Pc)
    requires p < |pc|
    ensures |Makers(pc[p := x])| == |Makers(pc)| + (if x.Make? then 1 else 0) - (if pc[p].Make? then 1 else 0)
  {
    var u, v := Makers(pc), Makers(pc[p := x]);
    assert v - {p} == u - {p};
    Minus(u, p);
    Minus(v, p);
  }

  ghost function Slots(n: nat): (r: set<nat>)
    ensures |r| == n && forall p :: p in r <==> 0 <= p < n
  {
    if n == 0 then {} else Slots(n - 1) + {n - 1}
  }

  lemma {:induction false} SubsetSize(a: set<nat>, b: set<nat>)
    requires a <= b
    ensures |a| <= |b|
    decreases |a|
  {
    if x :| x in a {
      SubsetSize(a - {x}, b - {x});
    }
  }

  /** Distinct buffers in use have distinct users. */
  lemma {:induction false} UsersEnough(pc: seq<Pc>, ids: set<nat>, us: set<nat>)
    requires forall id :: id in ids ==> Users(pc, id) != {} && Users(pc, id) <= us
    ensures |ids| <= |us|
    decreases |ids|
  {
    if id :| id in ids {
      var p :| p in Users(pc, id);
      forall i | i in ids - {id} ensures Users(pc, i) <= us - {p} {
        assert p !in Users(pc, i);
      }
      UsersEnough(pc, ids - {id}, us - {p});
    }
  }

  lemma {:induction false} DistinctSize(l: seq<nat>, ids: set<nat>)
    requires Distinct(l) && forall i :: i in l <==> i in ids
    ensures |l| == |ids|
    decreases |l|
  {
    if l == [] {
      assert ids == {};
    } else {
      var r := l[1..];
      assert l[0] !in r;
      assert forall i :: i in r <==> i in ids - {l[0]} by {
        assert forall i :: i in l <==> i == l[0] || i in r;
      }
      DistinctSize(r, ids - {l[0]});
    }
  }

  lemma CountIs(s: State)
    requires Inv(s)
    ensures s.count == |s.bufs| == |s.bufs.Keys|
  {
    hide OnePerKey, Counted, Kept, OneHolder, HeldValid, Coherent;
    DistinctSize(s.lru, s.bufs.Keys);
    assert |s.bufs| == |s.bufs.Keys|;
  }

  lemma UsersAmong(s: State, p: nat, id: nat)
    requires Inv(s) && AllReferenced(s) && p < |s.pc| && s.pc[p].Want? && id in s.bufs
    ensures Users(s.pc, id) != {} && Users(s.pc, id) <= Slots(|s.pc|) - Makers(s.pc) - {p}
  {
    hide Listed, OnePerKey, Kept, OneHolder, HeldValid, Coherent;
    assert s.bufs[id].refs == |Users(s.pc, id)|;
  }

  lemma RestSize(all: set<nat>, a: set<nat>, p: nat)
    requires a <= all && p in all && p !in a
    ensures |all - a - {p}| == |all| - |a| - 1
  {
    assert |all - a| == |all| - |a|;
  }

  /** When every buffer is referenced there are no more of them than processes that are not allocating. */
  lemma FewReferenced(s: State, p: nat)
    requires Inv(s) && AllReferenced(s) && p < |s.pc| && s.pc[p].Want?
    ensures s.count + |Makers(s.pc)| + 1 <= |s.pc|
  {
    hide Inv, AllReferenced, Users, Slots;
    forall id | id in s.bufs.Keys ensures Users(s.pc, id) != {} && Users(s.pc, id) <= Slots(|s.pc|) - Makers(s.pc) - {p} {
      UsersAmong(s, p, id);
    }
    UsersEnough(s.pc, s.bufs.Keys, Slots(|s.pc|) - Makers(s.pc) - {p});
    CountIs(s);
    RestSize(Slots(|s.pc|), Makers(s.pc), p);
  }

  lemma MakersFew(s: State, p: nat)
    requires p < |s.pc| && s.pc[p].Want?
    ensures |Makers(s.pc)| + 1 <= |s.pc|
  {
    SubsetSize(Makers(s.pc) + {p}, Slots(|s.pc|));
    assert |Makers(s.pc) + {p}| == |Makers(s.pc)| + 1;
  }

  lemma StepBounded(s: State, e: Event)
    requires Inv(s) && Enabled(s, e) && Bounded(s)
    ensures |Apply(s, e).pc| == |s.pc| && Bounded(Apply(s, e))
  {
    hide Inv, Find, Victim, Without, Makers, AllReferenced, Oldest;
    if !e.Invalidate? {
      MakersPut(s.pc, e.p, Apply(s, e).pc[e.p]);
      if e.Miss? {
        GetTurn(s, e);
        MakersFew(s, e.p);
        if AllReferenced(s) {
          FewReferenced(s, e.p);
        }
      }
    }
  }

  lemma InitBounded(s: State)
    requires Init(s)
    ensures Bounded(s)
  {
    assert Makers(s.pc) == {};
  }

  lemma {:induction false} RunBounded(s: State, es: seq<Event>, t: State)
    requires Inv(s) && Bounded(s) && Bcache.Run(s, es, t)
    ensures |t.pc| == |s.pc| && Inv(t) && Bounded(t)
    decreases |es|
  {
    hide Inv, Enabled, Apply, Makers;
    if es != [] {
      StepInv(s, es[0]);
      StepBounded(s, es[0]);
      RunBounded(Apply(s, es[0]), es[1..], t);
    }
  }

  /** However many processes race, the cache exceeds 1024 buffers by no more than their number. */
  lemma CacheBounded(s: State, es: seq<Event>, t: State)
    requires Init(s) && Bcache.Run(s, es, t)
    ensures |t.pc| == |s.pc| && |t.bufs| <= 1024 + |t.pc|
  {
    hide Inv, Bcache.Run, Makers;
    InitInv(s);
    InitBounded(s);
    RunBounded(s, es, t);
    CountIs(t);
  }
}

/** The write-through buffer cache of kernel/fs/block.c:266-389 as atomic steps of any number of
    processes: the sections under bcache_lock, the buffer mutex, and disk transfers. */
module Bcache {
  const BcacheMax: nat := 1024

  datatype Option<T> = None | Some(value: T)

  datatype Key = Key(dev: nat, block: nat, size: nat)

  type Data = nat

  datatype Buf = Buf(key: Key, valid: bool, refs: int, data: Data)

  /** Where a process stands; from Got to Drop it holds a reference. */
  datatype Pc =
    | Idle
    | Want(key: Key)                      // bget, about to search
    | Make(key: Key)                      // bget, allocating without the lock
    | Got(id: nat, key: Key)              // about to lock the buffer
    | Check(id: nat, key: Key)            // bread, buffer locked
    | Hold(id: nat, key: Key, dirty: bool)  // returned from bread, buffer locked
    | Drop(id: nat, key: Key)             // brelse, buffer unlocked, reference not yet dropped

  /** `lru` lists the buffers, most recently used first. */
  datatype State = State(bufs: map<nat, Buf>, lru: seq<nat>, count: int, disk: map<Key, Data>, pc: seq<Pc>)

  function Uses(x: Pc): (r: Option<nat>) {
    if x.Got? || x.Check? || x.Hold? || x.Drop? then Some(x.id) else None
  }

  function Locks(x: Pc): (r: Option<nat>) {
    if x.Check? || x.Hold? then Some(x.id) else None
  }

  function OnDisk(s: State, k: Key): Data {
    if k in s.disk then s.disk[k] else 0
  }

  // ---- The searches of bget ----

  function Find(s: State, lru: seq<nat>, k: Key): (r: Option<nat>)
    ensures r.Some? ==> r.value in lru && r.value in s.bufs && s.bufs[r.value].key == k
    ensures r.None? ==> forall i :: i in lru && i in s.bufs ==> s.bufs[i].key != k
  {
    if lru == [] then None
    else if lru[0] in s.bufs && s.bufs[lru[0]].key == k then Some(lru[0])
    else Find(s, lru[1..], k)
  }

  /** The last unreferenced buffer of the list: the least recently used one. */
  function Victim(s: State, lru: seq<nat>): (r: Option<nat>)
    ensures r.Some? ==> r.value in lru && r.value in s.bufs && s.bufs[r.value].refs == 0
  {
    if lru == [] then None
    else
      var rest := Victim(s, lru[1..]);
      if rest.Some? then rest else if lru[0] in s.bufs && s.bufs[lru[0]].refs == 0 then Some(lru[0]) else None
  }

  function Without(lru: seq<nat>, id: nat): (r: seq<nat>)
    ensures forall i :: i in r <==> i in lru && i != id
  {
    if lru == [] then [] else if lru[0] == id then Without(lru[1..], id) else [lru[0]] + Without(lru[1..], id)
  }

  // ---- The steps ----

  datatype Event =
    | Start(p: nat, key: Key) | Hit(p: nat) | Reuse(p: nat) | Evict(p: nat) | Miss(p: nat)
    | MakeFail(p: nat) | Dup(p: nat) | Insert(p: nat, id: nat, junk: Data)
    | Lock(p: nat) | Fill(p: nat) | FillFail(p: nat) | Ready(p: nat)
    | Change(p: nat, d: Data) | Flush(p: nat) | Unlock(p: nat) | Release(p: nat)
    | Invalidate(dev: nat)

  predicate Gets(e: Event) {
    e.Start? || e.Hit? || e.Reuse? || e.Evict? || e.Miss? || e.MakeFail? || e.Dup? || e.Insert?
  }

  predicate Transfers(e: Event) {
    e.Lock? || e.Fill? || e.FillFail? || e.Ready? || e.Change? || e.Flush? || e.Unlock? || e.Release?
  }

  predicate NeedsVictim(s: State) {
    s.count >= BcacheMax && Victim(s, s.lru).Some?
  }

  predicate GetEnabled(s: State, e: Event)
    requires Gets(e)
  {
    e.p < |s.pc| &&
    var x := s.pc[e.p];
    match e
    case Start(p, key) => x.Idle?
    case Hit(p) => x.Want? && Find(s, s.lru, x.key).Some?
    case Reuse(p) => x.Want? && Find(s, s.lru, x.key).None? && NeedsVictim(s) && s.bufs[Victim(s, s.lru).value].key.size == x.key.size
    case Evict(p) => x.Want? && Find(s, s.lru, x.key).None? && NeedsVictim(s) && s.bufs[Victim(s, s.lru).value].key.size != x.key.size
    case Miss(p) => x.Want? && Find(s, s.lru, x.key).None? && !NeedsVictim(s)
    case MakeFail(p) => x.Make?
    case Dup(p) => x.Make? && Find(s, s.lru, x.key).Some?
    case Insert(p, id, junk) => x.Make? && Find(s, s.lru, x.key).None? && id !in s.bufs
  }

  function Put(s: State, p: nat, x: Pc): State
    requires p < |s.pc|
  {
    s.(pc := s.pc[p := x])
  }

  function PutBuf(s: State, id: nat, b: Buf): State {
    s.(bufs := s.bufs[id := b])
  }

  function GetApply(s: State, e: Event): State
    requires Gets(e) && GetEnabled(s, e)
  {
    var p, x := e.p, s.pc[e.p];
    match e
    case Start(_, key) => Put(s, p, Want(key))
    case Hit(_) =>
      var id := Find(s, s.lru, x.key).value;
      PutBuf(Put(s, p, Got(id, x.key)), id, s.bufs[id].(refs := s.bufs[id].refs + 1)).(lru := [id] + Without(s.lru, id))
    case Reuse(_) =>
      var v := Victim(s, s.lru).value;
      PutBuf(Put(s, p, Got(v, x.key)), v, s.bufs[v].(key := x.key, valid := false, refs := 1)).(lru := [v] + Without(s.lru, v))
    case Evict(_) =>
      var v := Victim(s, s.lru).value;
      Put(s, p, Make(x.key)).(bufs := s.bufs - {v}, lru := Without(s.lru, v), count := s.count - 1)
    case Miss(_) => Put(s, p, Make(x.key))
    case MakeFail(_) => Put(s, p, Idle)
    case Dup(_) =>
      var id := Find(s, s.lru, x.key).value;
      PutBuf(Put(s, p, Got(id, x.key)), id, s.bufs[id].(refs := s.bufs[id].refs + 1))
    case Insert(_, id, junk) =>
      PutBuf(Put(s, p, Got(id, x.key)), id, Buf(x.key, false, 1, junk)).(lru := [id] + s.lru, count := s.count + 1)
  }

  predicate Unlocked(s: State, id: nat) {
    forall q :: 0 <= q < |s.pc| ==> Locks(s.pc[q]) != Some(id)
  }

  predicate TransferEnabled(s: State, e: Event)
    requires Transfers(e)
  {
    e.p < |s.pc| &&
    var x := s.pc[e.p];
    Uses(x).Some? && x.id in s.bufs &&
    match e
    case Lock(p) => x.Got? && Unlocked(s, x.id)
    case Fill(p) => x.Check? && !s.bufs[x.id].valid
    case FillFail(p) => x.Check? && !s.bufs[x.id].valid
    case Ready(p) => x.Check? && s.bufs[x.id].valid
    case Change(p, d) => x.Hold?
    case Flush(p) => x.Hold?
    case Unlock(p) => x.Hold? && !x.dirty
    case Release(p) => x.Drop?
  }

  function TransferApply(s: State, e: Event): State
    requires Transfers(e) && TransferEnabled(s, e)
  {
    var p, x := e.p, s.pc[e.p];
    var b := s.bufs[x.id];
    match e
    case Lock(_) => Put(s, p, Check(x.id, x.key))
    case Fill(_) => PutBuf(Put(s, p, Hold(x.id, x.key, false)), x.id, b.(data := OnDisk(s, b.key), valid := true))
    case FillFail(_) => Put(s, p, Drop(x.id, x.key))
    case Ready(_) => Put(s, p, Hold(x.id, x.key, false))
    case Change(_, d) => PutBuf(Put(s, p, Hold(x.id, x.key, true)), x.id, b.(data := d))
    case Flush(_) => Put(s, p, Hold(x.id, x.key, false)).(disk := s.disk[b.key := b.data])
    case Unlock(_) => Put(s, p, Drop(x.id, x.key))
    case Release(_) => PutBuf(Put(s, p, Idle), x.id, b.(refs := b.refs - 1))
  }

  function Stale(b: Buf, dev: nat): Buf {
    if b.key.dev == dev && b.refs == 0 then b.(valid := false) else b
  }

  predicate Enabled(s: State, e: Event) {
    if Gets(e) then GetEnabled(s, e) else if Transfers(e) then TransferEnabled(s, e) else true
  }

  function Apply(s: State, e: Event): State
    requires Enabled(s, e)
  {
    if Gets(e) then GetApply(s, e) else if Transfers(e) then TransferApply(s, e)
    else s.(bufs := map id | id in s.bufs :: Stale(s.bufs[id], e.dev))
  }

  // ---- The invariant ----

  ghost predicate Distinct(l: seq<nat>) {
    forall i, j :: 0 <= i < j < |l| ==> l[i] != l[j]
  }

  /** The list holds each buffer once, and the counter is its length. */
  ghost predicate Listed(s: State) {
    Distinct(s.lru) && (forall i :: i in s.lru <==> i in s.bufs) && s.count == |s.lru|
  }

  /** At most one buffer for each device, block and size. */
  ghost predicate OnePerKey(s: State) {
    forall i, j :: i in s.bufs && j in s.bufs && s.bufs[i].key == s.bufs[j].key ==> i == j
  }

  ghost function Users(pc: seq<Pc>, id: nat): set<nat> {
    set p | 0 <= p < |pc| && Uses(pc[p]) == Some(id)
  }

  /** The reference count is the number of users; a used buffer exists. */
  ghost predicate Counted(s: State) {
    && (forall id :: id in s.bufs ==> s.bufs[id].refs == |Users(s.pc, id)|)
    && (forall p :: 0 <= p < |s.pc| && Uses(s.pc[p]).Some? ==> s.pc[p].id in s.bufs)
  }

  /** A used buffer still holds the block that its user asked for. */
  ghost predicate Kept(s: State) {
    forall p :: 0 <= p < |s.pc| && Uses(s.pc[p]).Some? && s.pc[p].id in s.bufs ==> s.bufs[s.pc[p].id].key == s.pc[p].key
  }

  ghost predicate OneHolder(s: State) {
    forall p, q :: 0 <= p < |s.pc| && 0 <= q < |s.pc| && Locks(s.pc[p]).Some? && Locks(s.pc[p]) == Locks(s.pc[q]) ==> p == q
  }

  /** A holder works on valid data. */
  ghost predicate HeldValid(s: State) {
    forall p :: 0 <= p < |s.pc| && s.pc[p].Hold? && s.pc[p].id in s.bufs ==> s.bufs[s.pc[p].id].valid
  }

  /** A valid buffer that nobody has changed since its last write equals its disk block. */
  ghost predicate Coherent(s: State) {
    forall id :: id in s.bufs && s.bufs[id].valid && !Dirty(s.pc, id) ==> s.bufs[id].data == OnDisk(s, s.bufs[id].key)
  }

  ghost predicate Dirty(pc: seq<Pc>, id: nat) {
    exists p :: 0 <= p < |pc| && pc[p].Hold? && pc[p].dirty && pc[p].id == id
  }

  ghost predicate Inv(s: State) {
    Listed(s) && OnePerKey(s) && Counted(s) && Kept(s) && OneHolder(s) && HeldValid(s) && Coherent(s)
  }

  ghost predicate Init(s: State) {
    s.bufs == map[] && s.lru == [] && s.count == 0 && forall p :: 0 <= p < |s.pc| ==> s.pc[p] == Idle
  }

  lemma InitInv(s: State)
    requires Init(s)
    ensures Inv(s)
  {
  }

  // ---- The list ----

  lemma {:induction false} WithoutDistinct(l: seq<nat>, id: nat)
    requires Distinct(l)
    ensures Distinct(Without(l, id)) && |Without(l, id)| == if id in l then |l| - 1 else |l|
    decreases |l|
  {
    if l != [] {
      WithoutDistinct(l[1..], id);
      var r := Without(l[1..], id);
      if l[0] == id {
        assert id !in l[1..];
      } else {
        forall j | 0 <= j < |r| ensures r[j] != l[0] {
          assert r[j] in r;
          assert l[0] !in l[1..];
        }
      }
    }
  }

  lemma FrontDistinct(l: seq<nat>, id: nat)
    requires Distinct(l) && id !in l
    ensures Distinct([id] + l)
  {
  }

  lemma GetListed(s: State, e: Event)
    requires Inv(s) && Gets(e) && GetEnabled(s, e)
    ensures Listed(GetApply(s, e))
  {
    hide OnePerKey, Counted, Kept, OneHolder, Coherent, HeldValid, Distinct, Without;
    if e.Hit? {
      var id := Find(s, s.lru, s.pc[e.p].key).value;
      WithoutDistinct(s.lru, id);
      FrontDistinct(Without(s.lru, id), id);
    } else if e.Reuse? || e.Evict? {
      var v := Victim(s, s.lru).value;
      WithoutDistinct(s.lru, v);
      FrontDistinct(Without(s.lru, v), v);
    } else if e.Insert? {
      FrontDistinct(s.lru, e.id);
    }
  }

  lemma TransferListed(s: State, e: Event)
    requires Inv(s) && Transfers(e) && TransferEnabled(s, e)
    ensures Listed(TransferApply(s, e))
  {
    hide OnePerKey, Counted, Kept, OneHolder, Coherent, HeldValid, Distinct;
  }

  // ---- Keys and counts ----

  lemma GetKeys(s: State, e: Event)
    requires Inv(s) && Gets(e) && GetEnabled(s, e)
    ensures OnePerKey(GetApply(s, e))
  {
    hide Counted, Kept, OneHolder, Coherent, HeldValid, Distinct, Without;
  }

  lemma TransferKeys(s: State, e: Event)
    requires Inv(s) && Transfers(e) && TransferEnabled(s, e)
    ensures OnePerKey(TransferApply(s, e))
  {
    hide Counted, Kept, OneHolder, Coherent, HeldValid, Listed;
  }

  lemma Minus(u: set<nat>, p: nat)
    ensures |u| == |u - {p}| + if p in u then 1 else 0
  {
    if p !in u {
      assert u - {p} == u;
    }
  }

  /** How a step of one process changes the users of every buffer. */
  lemma UsersPut(pc: seq<Pc>, p: nat, x: Pc)
    requires p < |pc|
    ensures forall id: nat :: |Users(pc[p := x], id)| ==
                           |Users(pc, id)| + (if Uses(x) == Some(id) then 1 else 0) - (if Uses(pc[p]) == Some(id) then 1 else 0)
  {
    hide Uses;
    forall id: nat ensures |Users(pc[p := x], id)| ==
                        |Users(pc, id)| + (if Uses(x) == Some(id) then 1 else 0) - (if Uses(pc[p]) == Some(id) then 1 else 0)
    {
      var u, v := Users(pc, id), Users(pc[p := x], id);
      assert v - {p} == u - {p};
      Minus(u, p);
      Minus(v, p);
      assert Uses(x) == Some(id) <==> p in v;
      assert Uses(pc[p]) == Some(id) <==> p in u;
    }
  }

  /** An unreferenced buffer has no user. */
  lemma NoUser(s: State, id: nat)
    requires Counted(s) && id in s.bufs && s.bufs[id].refs == 0
    ensures forall p :: 0 <= p < |s.pc| ==> Uses(s.pc[p]) != Some(id)
  {
    assert Users(s.pc, id) == {};
    forall p | 0 <= p < |s.pc| ensures Uses(s.pc[p]) != Some(id) {
      assert p !in Users(s.pc, id);
    }
  }

  lemma UsedCounted(s: State, p: nat)
    requires Counted(s) && p < |s.pc| && Uses(s.pc[p]).Some?
    ensures s.pc[p].id in s.bufs && s.bufs[s.pc[p].id].refs > 0
  {
    assert p in Users(s.pc, s.pc[p].id);
  }

  lemma FreshUnused(s: State, id: nat)
    requires Counted(s) && id !in s.bufs
    ensures |Users(s.pc, id)| == 0
  {
    assert Users(s.pc, id) == {};
  }

  lemma GetCounted(s: State, e: Event)
    requires Inv(s) && Gets(e) && GetEnabled(s, e)
    ensures Counted(GetApply(s, e))
  {
    hide OnePerKey, Kept, OneHolder, Coherent, HeldValid, Distinct, Without, Users, Listed;
    UsersPut(s.pc, e.p, GetApply(s, e).pc[e.p]);
    if e.Reuse? || e.Evict? {
      NoUser(s, Victim(s, s.lru).value);
    } else if e.Insert? {
      FreshUnused(s, e.id);
    }
  }

  lemma TransferCounted(s: State, e: Event)
    requires Inv(s) && Transfers(e) && TransferEnabled(s, e)
    ensures Counted(TransferApply(s, e))
  {
    hide OnePerKey, Kept, OneHolder, Coherent, HeldValid, Listed, Users;
    UsersPut(s.pc, e.p, TransferApply(s, e).pc[e.p]);
  }

  lemma GetKept(s: State, e: Event)
    requires Inv(s) && Gets(e) && GetEnabled(s, e)
    ensures Kept(GetApply(s, e))
  {
    hide OnePerKey, Coherent, HeldValid, Distinct, Without, Users, Listed, OneHolder;
    if e.Reuse? {
      NoUser(s, Victim(s, s.lru).value);
    }
  }

  lemma TransferKept(s: State, e: Event)
    requires Inv(s) && Transfers(e) && TransferEnabled(s, e)
    ensures Kept(TransferApply(s, e))
  {
    hide OnePerKey, Coherent, HeldValid, Listed, OneHolder, Counted;
  }

  lemma GetHolder(s: State, e: Event)
    requires Inv(s) && Gets(e) && GetEnabled(s, e)
    ensures OneHolder(GetApply(s, e))
  {
    hide OnePerKey, Coherent, HeldValid, Listed, Counted, Kept, Without;
  }

  lemma TransferHolder(s: State, e: Event)
    requires Inv(s) && Transfers(e) && TransferEnabled(s, e)
    ensures OneHolder(TransferApply(s, e))
  {
    hide OnePerKey, Coherent, HeldValid, Listed, Counted, Kept;
  }

  // ---- Coherence ----

  lemma GetHeld(s: State, e: Event)
    requires Inv(s) && Gets(e) && GetEnabled(s, e)
    ensures HeldValid(GetApply(s, e))
  {
    hide OnePerKey, Kept, OneHolder, Distinct, Without, Users, Listed, Coherent;
    if e.Reuse? || e.Evict? {
      NoUser(s, Victim(s, s.lru).value);
    }
  }

  lemma TransferHeld(s: State, e: Event)
    requires Inv(s) && Transfers(e) && TransferEnabled(s, e)
    ensures HeldValid(TransferApply(s, e))
  {
    hide Listed, Counted, OnePerKey, Kept, Coherent, OneHolder;
  }

  lemma GetCoherent(s: State, e: Event)
    requires Inv(s) && Gets(e) && GetEnabled(s, e)
    ensures Coherent(GetApply(s, e))
  {
    hide OnePerKey, Kept, OneHolder, Distinct, Without, Users, Listed, HeldValid;
    var t := GetApply(s, e);
    if e.Reuse? || e.Evict? {
      NoUser(s, Victim(s, s.lru).value);
    }
    forall id | id in s.bufs && Dirty(s.pc, id) ensures Dirty(t.pc, id) {
      var q :| 0 <= q < |s.pc| && s.pc[q].Hold? && s.pc[q].dirty && s.pc[q].id == id;
      assert t.pc[q] == s.pc[q];
    }
  }

  lemma TransferCoherent(s: State, e: Event)
    requires Inv(s) && Transfers(e) && TransferEnabled(s, e)
    ensures Coherent(TransferApply(s, e))
  {
    hide Listed, Counted, HeldValid, Kept;
    var t := TransferApply(s, e);
    var x := s.pc[e.p];
    forall id | id in s.bufs && id != x.id && Dirty(s.pc, id) ensures Dirty(t.pc, id) {
      var q :| 0 <= q < |s.pc| && s.pc[q].Hold? && s.pc[q].dirty && s.pc[q].id == id;
      assert t.pc[q] == s.pc[q];
    }
    if e.Change? {
      assert t.pc[e.p].Hold? && t.pc[e.p].dirty;
    } else if x.Check? || x.Hold? {
      HolderAlone(s, e.p);
      assert Dirty(s.pc, x.id) ==> x.Hold? && x.dirty;
    } else {
      OthersDirty(s.pc, t.pc, e.p, x.id);
    }
  }

  /** A step of a process that does not hold a buffer leaves the holders as they are. */
  lemma OthersDirty(pc: seq<Pc>, pc': seq<Pc>, p: nat, id: nat)
    requires p < |pc| == |pc'| && !pc[p].Hold? && forall q :: 0 <= q < |pc| && q != p ==> pc'[q] == pc[q]
    ensures Dirty(pc, id) ==> Dirty(pc', id)
  {
    if Dirty(pc, id) {
      var q :| 0 <= q < |pc| && pc[q].Hold? && pc[q].dirty && pc[q].id == id;
      assert pc'[q] == pc[q];
    }
  }

  lemma HolderAlone(s: State, p: nat)
    requires OneHolder(s) && p < |s.pc| && Locks(s.pc[p]).Some?
    ensures forall q :: 0 <= q < |s.pc| && q != p ==> Locks(s.pc[q]) != Some(s.pc[p].id)
  {
  }

  lemma InvalidateInv(s: State, dev: nat)
    requires Inv(s)
    ensures Inv(s.(bufs := map id | id in s.bufs :: Stale(s.bufs[id], dev)))
  {
    hide Distinct, Users;
    var t := s.(bufs := map id | id in s.bufs :: Stale(s.bufs[id], dev));
    forall p | 0 <= p < |s.pc| && s.pc[p].Hold? ensures t.bufs[s.pc[p].id].valid {
      var id := s.pc[p].id;
      assert Uses(s.pc[p]) == Some(id);
      UsedCounted(s, p);
    }
  }

  // ---- Every run ----

  lemma StepInv(s: State, e: Event)
    requires Inv(s) && Enabled(s, e)
    ensures Inv(Apply(s, e))
  {
    hide Listed, OnePerKey, Counted, Kept, OneHolder, Coherent, HeldValid, GetApply, GetEnabled, TransferApply, TransferEnabled;
    if Gets(e) {
      GetListed(s, e);
      GetKeys(s, e);
      GetCounted(s, e);
      GetKept(s, e);
      GetHolder(s, e);
      GetHeld(s, e);
      GetCoherent(s, e);
    } else if Transfers(e) {
      TransferListed(s, e);
      TransferKeys(s, e);
      TransferCounted(s, e);
      TransferKept(s, e);
      TransferHolder(s, e);
      TransferHeld(s, e);
      TransferCoherent(s, e);
    } else {
      InvalidateInv(s, e.dev);
    }
  }

  ghost predicate Run(s: State, es: seq<Event>, t: State)
    decreases |es|
  {
    if es == [] then s == t else Enabled(s, es[0]) && Run(Apply(s, es[0]), es[1..], t)
  }

  lemma {:induction false} RunInv(s: State, es: seq<Event>, t: State)
    requires Inv(s) && Run(s, es, t)
    ensures Inv(t)
    decreases |es|
  {
    hide Inv, Enabled, Apply;
    if es != [] {
      StepInv(s, es[0]);
      RunInv(Apply(s, es[0]), es[1..], t);
    }
  }

  /** In every reachable state there is at most one buffer for a block, and a valid buffer that
      nobody holds equals the disk. */
  lemma CacheCoherent(s: State, es: seq<Event>, t: State)
    requires Init(s) && Run(s, es, t)
    ensures forall i, j :: i in t.bufs && j in t.bufs && t.bufs[i].key == t.bufs[j].key ==> i == j
    ensures forall id :: id in t.bufs && t.bufs[id].valid && Unlocked(t, id) ==> t.bufs[id].data == OnDisk(t, t.bufs[id].key)
    ensures forall p :: 0 <= p < |t.pc| && Uses(t.pc[p]).Some? ==> t.pc[p].id in t.bufs && t.bufs[t.pc[p].id].key == t.pc[p].key
  {
    hide Run, OnDisk;
    InitInv(s);
    RunInv(s, es, t);
    forall id | id in t.bufs && Dirty(t.pc, id) ensures !Unlocked(t, id) {
      var q :| 0 <= q < |t.pc| && t.pc[q].Hold? && t.pc[q].dirty && t.pc[q].id == id;
      assert Locks(t.pc[q]) == Some(id);
    }
  }

  /** A step neither frees nor re-targets a buffer that somebody uses. */
  lemma UsedStays(s: State, e: Event, p: nat)
    requires Inv(s) && Enabled(s, e) && p < |s.pc| && Uses(s.pc[p]).Some?
    ensures s.pc[p].id in s.bufs
    ensures s.pc[p].id in Apply(s, e).bufs && Apply(s, e).bufs[s.pc[p].id].key == s.bufs[s.pc[p].id].key
  {
    hide Listed, OnePerKey, OneHolder, Coherent, HeldValid, Kept, Without;
    if e.Reuse? || e.Evict? {
      NoUser(s, Victim(s, s.lru).value);
    }
  }
}

/** The xv6-style scheduler of kernel/proc/process.c as atomic steps of any number of CPUs over
    the process table: proc_lock is held across a context switch and released by the other side. */
module Sched {
  const MaxProcs: nat := 64

  datatype Option<T> = None | Some(value: T)

  datatype Status = Unused | Embryo | Ready | Running | Blocked | Zombie | Dead | Stopped

  /** `struct process *parent`: none, the idle process of the boot CPU, or a table slot. */
  datatype Parent = Orphan | Boot | Of(p: nat)

  /** The first argument of proc_wait: -1 or a positive pid. */
  datatype Target = Any | Pid(pid: nat)

  /** A wait channel: the address of some other object, or of a process (proc_wait). */
  datatype Channel = NoChannel | Other(id: nat) | Self(p: nat)

  /** Who is building or reaping a slot: the code on a process's stack, or a scheduler loop. */
  datatype Actor = OnCpu(c: nat) | OnStack(p: nat)

  datatype Stage = FreeStack | FreeSpace | FreeSlot

  /** The operation that the kernel code on a process's stack has begun and not finished. */
  datatype Job =
    | Nothing
    | Image(a: nat)                 // exec: a loaded address space not yet installed
    | Swap(prev: Option<nat>)       // exit, exec: pml4 replaced, CR3 not yet
    | Destroy(gone: nat)            // exit, exec: CR3 replaced, old space not yet destroyed
    | Create(q: nat)                // spawn, fork: between proc_alloc and proc_make_ready
    | Reap(q: nat, stage: Stage)    // proc_free
    | Wait(t: Target)               // proc_wait, always with proc_lock held or asleep

  /** Where the code on a process's stack stands: switched out, running without proc_lock, inside
      a critical section, or in sched() before the context switch. */
  datatype At = Off | Code | Held | Leave

  datatype Proc = Proc(status: Status, at: At, job: Job, cpu: nat, parent: Parent, pid: nat,
                       chan: Channel, stack: bool, mm: Option<nat>, keeper: Option<Actor>)

  /** Where a CPU stands in scheduler_loop; Away(p) means on the kernel stack of p. */
  datatype Place =
    | Loop | Look | Chosen(p: nat) | Loaded(p: nat) | Away(p: nat) | Returned(p: nat) | Clean
    | Orphans(i: nat) | Reaping(i: nat, stage: Stage)

  datatype Cpu = Cpu(place: Place, cr3: Option<nat>, cur: Option<nat>)

  datatype State = State(procs: seq<Proc>, cpus: seq<Cpu>, lock: Option<nat>, rr: nat,
                         live: set<nat>, nextPid: nat)

  predicate Shape(s: State) {
    |s.procs| == MaxProcs && s.rr < MaxProcs
  }

  const Blank := Proc(Unused, Off, Nothing, 0, Orphan, 0, NoChannel, false, None, None)

  // ---- Reading and writing one entry ----

  /** CPU `c` executes on the stack of `p`, which stands at `at`. */
  predicate Runs(s: State, c: nat, p: nat, at: At) {
    c < |s.cpus| && p < |s.procs| && s.cpus[c].place == Away(p) && s.procs[p].at == at
  }

  function PutP(s: State, p: nat, x: Proc): State
    requires p < |s.procs|
  {
    s.(procs := s.procs[p := x])
  }

  function PutC(s: State, c: nat, x: Cpu): State
    requires c < |s.cpus|
  {
    s.(cpus := s.cpus[c := x])
  }

  // ---- pick_next ----

  /** The first READY slot at or after `rr`, cyclically, skipping `n` slots. */
  function PickFrom(procs: seq<Proc>, rr: nat, n: nat): (r: Option<nat>)
    requires |procs| == MaxProcs && n <= MaxProcs
    decreases MaxProcs - n
  {
    if n == MaxProcs then None
    else
      var i := (rr + n) % MaxProcs;
      if procs[i].status == Ready then Some(i) else PickFrom(procs, rr, n + 1)
  }

  function Pick(procs: seq<Proc>, rr: nat): (r: Option<nat>)
    requires |procs| == MaxProcs
  {
    PickFrom(procs, rr, 0)
  }

  // ---- wakeup_locked, and the orphaning loop of do_exit ----

  function Woken(x: Proc, ch: Channel): Proc {
    if x.status == Blocked && x.chan == ch then x.(status := Ready) else x
  }

  function WakeAll(procs: seq<Proc>, ch: Channel): (r: seq<Proc>)
    ensures |r| == |procs|
  {
    seq(|procs|, i requires 0 <= i < |procs| => Woken(procs[i], ch))
  }

  function Disowned(x: Proc, p: nat): Proc {
    if x.status != Unused && x.parent == Of(p) then x.(parent := Orphan) else x
  }

  function DisownAll(procs: seq<Proc>, p: nat): (r: seq<Proc>)
    ensures |r| == |procs|
  {
    seq(|procs|, i requires 0 <= i < |procs| => Disowned(procs[i], p))
  }

  /** Waking whoever waits for the exit or stop of a child of `parent`. */
  function WakeParent(procs: seq<Proc>, parent: Parent): (r: seq<Proc>)
    ensures |r| == |procs|
  {
    if parent.Of? then WakeAll(procs, Self(parent.p)) else procs
  }

  // ---- proc_wait ----

  predicate Matches(x: Proc, t: Target) {
    t.Any? || x.pid == t.pid
  }

  predicate WaitedFor(x: Proc, p: nat, t: Target) {
    x.status != Unused && x.parent == Of(p) && Matches(x, t)
  }

  /** The first zombie child that matches, from slot `i` on. */
  function FindZombie(procs: seq<Proc>, p: nat, t: Target, i: nat): (r: Option<nat>)
    requires i <= |procs|
    ensures r.Some? ==> i <= r.value < |procs| && WaitedFor(procs[r.value], p, t) && procs[r.value].status == Zombie
    ensures r.None? ==> forall z :: i <= z < |procs| && WaitedFor(procs[z], p, t) ==> procs[z].status != Zombie
    decreases |procs| - i
  {
    if i == |procs| then None
    else if WaitedFor(procs[i], p, t) && procs[i].status == Zombie then Some(i)
    else FindZombie(procs, p, t, i + 1)
  }

  /** A stopped child that matches: WAIT_UNTRACED may report it before a zombie is reached. */
  predicate HasStopped(procs: seq<Proc>, p: nat, t: Target) {
    exists i :: 0 <= i < |procs| && WaitedFor(procs[i], p, t) && procs[i].status == Stopped
  }

  predicate HasChild(procs: seq<Proc>, p: nat, t: Target) {
    exists i :: 0 <= i < |procs| && WaitedFor(procs[i], p, t)
  }

  // ---- The steps ----

  datatype Event =
    // scheduler_loop
    | TakeLock(c: nat) | PickNone(c: nat) | PickOne(c: nat) | LoadCr3(c: nat) | SwitchIn(c: nat)
    | KernelCr3(c: nat) | Unlock(c: nat)
    // reap_orphans
    | NotOrphan(c: nat) | TakeOrphan(c: nat) | ReaperStack(c: nat) | ReaperSpace(c: nat) | ReaperSlot(c: nat)
    // critical sections on a process's stack
    | Enter(c: nat, p: nat) | Exit(c: nat, p: nat) | Notify(c: nat, q: nat)
    | Yield(c: nat, p: nat) | Sleep(c: nat, p: nat, id: nat) | Stop(c: nat, p: nat) | Die(c: nat, p: nat)
    | SwitchOut(c: nat, p: nat)
    // proc_wait
    | WaitCall(c: nat, p: nat, t: Target) | WaitFound(c: nat, p: nat) | WaitNone(c: nat, p: nat) | WaitSleep(c: nat, p: nat)
    // proc_alloc, proc_make_ready, proc_free
    | Alloc(c: nat, p: nat, q: nat) | GiveStack(c: nat, p: nat) | GiveSpace(c: nat, p: nat, a: nat)
    | MakeReady(c: nat, p: nat) | GiveUp(c: nat, p: nat)
    | DropStack(c: nat, p: nat) | DropSpace(c: nat, p: nat) | DropSlot(c: nat, p: nat)
    // address spaces: exec and exit
    | NewImage(c: nat, p: nat, a: nat) | DropImage(c: nat, p: nat) | Install(c: nat, p: nat) | Detach(c: nat, p: nat)
    | Reload(c: nat, p: nat) | DestroyOld(c: nat, p: nat)

  predicate Loops(e: Event) {
    e.TakeLock? || e.PickNone? || e.PickOne? || e.LoadCr3? || e.SwitchIn? || e.KernelCr3? || e.Unlock?
  }

  predicate Reaps(e: Event) {
    e.NotOrphan? || e.TakeOrphan? || e.ReaperStack? || e.ReaperSpace? || e.ReaperSlot?
  }

  predicate Sections(e: Event) {
    e.Enter? || e.Exit? || e.Notify? || e.SwitchOut?
  }

  predicate Leaves(e: Event) {
    e.Yield? || e.Sleep? || e.Stop? || e.Die?
  }

  predicate Waits(e: Event) {
    e.WaitCall? || e.WaitFound? || e.WaitNone? || e.WaitSleep?
  }

  predicate Makes(e: Event) {
    e.Alloc? || e.GiveStack? || e.GiveSpace? || e.MakeReady? || e.GiveUp?
  }

  predicate Drops(e: Event) {
    e.DropStack? || e.DropSpace? || e.DropSlot?
  }

  predicate Spaces(e: Event) {
    e.NewImage? || e.DropImage? || e.Install? || e.Detach? || e.Reload? || e.DestroyOld?
  }

  predicate LoopEnabled(s: State, e: Event)
    requires Shape(s) && Loops(e)
  {
    e.c < |s.cpus| &&
    match e
    case TakeLock(c) => s.cpus[c].place == Loop && s.lock.None?
    case PickNone(c) => s.cpus[c].place == Look && Pick(s.procs, s.rr).None?
    case PickOne(c) => s.cpus[c].place == Look && Pick(s.procs, s.rr).Some?
    case LoadCr3(c) => s.cpus[c].place.Chosen? && s.cpus[c].place.p < MaxProcs
    case SwitchIn(c) => s.cpus[c].place.Loaded? && s.cpus[c].place.p < MaxProcs
    case KernelCr3(c) => s.cpus[c].place.Returned?
    case Unlock(c) => s.cpus[c].place == Clean
  }

  function Chose(s: State, c: nat, p: nat): State
    requires Shape(s) && c < |s.cpus| && p < MaxProcs
  {
    PutC(PutP(s, p, s.procs[p].(status := Running, cpu := c)), c, s.cpus[c].(place := Chosen(p), cur := Some(p)))
      .(rr := (p + 1) % MaxProcs)
  }

  lemma PickInTable(procs: seq<Proc>, rr: nat, n: nat)
    requires |procs| == MaxProcs && n <= MaxProcs
    ensures var r := PickFrom(procs, rr, n); r.Some? ==> r.value < MaxProcs && procs[r.value].status == Ready
    decreases MaxProcs - n
  {
  }

  function LoopApply(s: State, e: Event): State
    requires Shape(s) && Loops(e) && LoopEnabled(s, e)
  {
    var c := e.c;
    var x := s.cpus[c];
    match e
    case TakeLock(_) => PutC(s, c, x.(place := Look)).(lock := Some(c))
    case PickNone(_) => PutC(s, c, x.(place := if c == 0 then Orphans(0) else Loop)).(lock := None)
    case PickOne(_) => PickInTable(s.procs, s.rr, 0); Chose(s, c, Pick(s.procs, s.rr).value)
    case LoadCr3(_) => PutC(s, c, x.(place := Loaded(x.place.p), cr3 := s.procs[x.place.p].mm))
    case SwitchIn(_) => PutC(PutP(s, x.place.p, s.procs[x.place.p].(at := Held)), c, x.(place := Away(x.place.p)))
    case KernelCr3(_) => PutC(s, c, x.(place := Clean, cr3 := None, cur := None))
    case Unlock(_) => PutC(s, c, x.(place := Loop)).(lock := None)
  }

  predicate IsOrphan(s: State, i: nat)
    requires i < |s.procs|
  {
    s.procs[i].status == Zombie && s.procs[i].parent == Orphan
  }

  function AfterSlot(i: nat): Place {
    if i + 1 < MaxProcs then Orphans(i + 1) else Loop
  }

  predicate ReapEnabled(s: State, e: Event)
    requires Shape(s) && Reaps(e)
  {
    e.c < |s.cpus| &&
    var x := s.cpus[e.c].place;
    match e
    case NotOrphan(c) => x.Orphans? && x.i < MaxProcs && s.lock.None? && !IsOrphan(s, x.i)
    case TakeOrphan(c) => x.Orphans? && x.i < MaxProcs && s.lock.None? && IsOrphan(s, x.i)
    case ReaperStack(c) => x.Reaping? && x.stage == FreeStack && x.i < MaxProcs
    case ReaperSpace(c) => x.Reaping? && x.stage == FreeSpace && x.i < MaxProcs
    case ReaperSlot(c) => x.Reaping? && x.stage == FreeSlot && x.i < MaxProcs && s.lock.None?
  }

  function Without(live: set<nat>, a: Option<nat>): set<nat> {
    if a.Some? then live - {a.value} else live
  }

  function ReapApply(s: State, e: Event): State
    requires Shape(s) && Reaps(e) && ReapEnabled(s, e)
  {
    var c := e.c;
    var x := s.cpus[c];
    var i := x.place.i;
    match e
    case NotOrphan(_) => PutC(s, c, x.(place := AfterSlot(i)))
    case TakeOrphan(_) =>
      PutC(PutP(s, i, s.procs[i].(status := Dead, keeper := Some(OnCpu(c)))), c, x.(place := Reaping(i, FreeStack)))
    case ReaperStack(_) => PutC(PutP(s, i, s.procs[i].(stack := false)), c, x.(place := Reaping(i, FreeSpace)))
    case ReaperSpace(_) =>
      PutC(PutP(s, i, s.procs[i].(mm := None)), c, x.(place := Reaping(i, FreeSlot))).(live := Without(s.live, s.procs[i].mm))
    case ReaperSlot(_) => PutC(PutP(s, i, s.procs[i].(status := Unused, keeper := None)), c, x.(place := AfterSlot(i)))
  }

  predicate SectionEnabled(s: State, e: Event)
    requires Shape(s) && Sections(e)
  {
    match e
    case Enter(c, p) => Runs(s, c, p, Code) && s.lock.None?
    case Exit(c, p) => Runs(s, c, p, Held) && !s.procs[p].job.Wait?
    case Notify(c, q) => s.lock == Some(c) && q < MaxProcs && (s.procs[q].status == Blocked || s.procs[q].status == Stopped)
                         && c < |s.cpus| && (s.cpus[c].place == Look || (s.cpus[c].place.Away? && Runs(s, c, s.cpus[c].place.p, Held)))
    case SwitchOut(c, p) => Runs(s, c, p, Leave)
  }

  function SectionApply(s: State, e: Event): State
    requires Shape(s) && Sections(e) && SectionEnabled(s, e)
  {
    match e
    case Enter(c, p) => PutP(s, p, s.procs[p].(at := Held)).(lock := Some(c))
    case Exit(c, p) => PutP(s, p, s.procs[p].(at := Code)).(lock := None)
    case Notify(c, q) => PutP(s, q, s.procs[q].(status := Ready))
    case SwitchOut(c, p) =>
      PutC(PutP(s, p, s.procs[p].(at := Off)), c, s.cpus[c].(place := Returned(p)))
  }

  /** The process gives up the CPU: its new state, then sched(). */
  function Parked(s: State, p: nat, status: Status, chan: Channel): State
    requires p < |s.procs|
  {
    PutP(s, p, s.procs[p].(status := status, at := Leave, chan := chan))
  }

  function Told(s: State, parent: Parent): State {
    s.(procs := WakeParent(s.procs, parent))
  }

  function Abandoned(s: State, p: nat): State {
    s.(procs := DisownAll(s.procs, p))
  }

  predicate LeaveEnabled(s: State, e: Event)
    requires Shape(s) && Leaves(e)
  {
    Runs(s, e.c, e.p, Held) && !s.procs[e.p].job.Wait? && (e.Die? ==> s.procs[e.p].job == Nothing && s.procs[e.p].mm == None)
  }

  function LeaveApply(s: State, e: Event): State
    requires Shape(s) && Leaves(e) && LeaveEnabled(s, e)
  {
    match e
    case Yield(c, p) => Parked(s, p, Ready, s.procs[p].chan)
    case Sleep(c, p, id) => Parked(s, p, Blocked, Other(id))
    case Stop(c, p) => Told(Parked(s, p, Stopped, s.procs[p].chan), s.procs[p].parent)
    case Die(c, p) =>
      var t := Abandoned(s, p);
      Told(Parked(t, p, Zombie, t.procs[p].chan), t.procs[p].parent)
  }

  predicate WaitEnabled(s: State, e: Event)
    requires Shape(s) && Waits(e)
  {
    match e
    case WaitCall(c, p, t) => Runs(s, c, p, Code) && s.lock.None? && s.procs[p].job == Nothing
    case WaitFound(c, p) =>
      Runs(s, c, p, Held) && s.procs[p].job.Wait? && FindZombie(s.procs, p, s.procs[p].job.t, 0).Some?
    case WaitNone(c, p) =>            // a stopped child, no child, WNOHANG, a signal
      Runs(s, c, p, Held) && s.procs[p].job.Wait?
      && (FindZombie(s.procs, p, s.procs[p].job.t, 0).None? || HasStopped(s.procs, p, s.procs[p].job.t))
    case WaitSleep(c, p) =>
      Runs(s, c, p, Held) && s.procs[p].job.Wait? && FindZombie(s.procs, p, s.procs[p].job.t, 0).None?
      && HasChild(s.procs, p, s.procs[p].job.t)
  }

  function WaitApply(s: State, e: Event): State
    requires Shape(s) && Waits(e) && WaitEnabled(s, e)
  {
    match e
    case WaitCall(c, p, t) => PutP(s, p, s.procs[p].(at := Held, job := Wait(t))).(lock := Some(c))
    case WaitFound(c, p) =>
      var z := FindZombie(s.procs, p, s.procs[p].job.t, 0).value;
      var t := PutP(s, z, s.procs[z].(status := Dead, keeper := Some(OnStack(p))));
      PutP(t, p, t.procs[p].(at := Code, job := Reap(z, FreeStack))).(lock := None)
    case WaitNone(c, p) => PutP(s, p, s.procs[p].(at := Code, job := Nothing)).(lock := None)
    case WaitSleep(c, p) => Parked(s, p, Blocked, Self(p))
  }

  predicate MakeEnabled(s: State, e: Event)
    requires Shape(s) && Makes(e)
  {
    Runs(s, e.c, e.p, if e.Alloc? || e.MakeReady? then Held else Code) &&
    var j := s.procs[e.p].job;
    match e
    case Alloc(c, p, q) => j == Nothing && q < MaxProcs && s.procs[q].status == Unused
    case GiveStack(c, p) => j.Create? && j.q < MaxProcs && !s.procs[j.q].stack
    case GiveSpace(c, p, a) => j.Create? && j.q < MaxProcs && s.procs[j.q].stack && s.procs[j.q].mm == None && a !in s.live
    case MakeReady(c, p) => j.Create? && j.q < MaxProcs && s.procs[j.q].stack
    case GiveUp(c, p) => j.Create?
  }

  function MakeApply(s: State, e: Event): State
    requires Shape(s) && Makes(e) && MakeEnabled(s, e)
  {
    var p := e.p;
    var x := s.procs[p];
    match e
    case Alloc(c, _, q) =>
      var t := PutP(s, q, Blank.(status := Embryo, parent := Of(p), pid := s.nextPid, keeper := Some(OnStack(p))));
      PutP(t, p, t.procs[p].(at := Code, job := Create(q))).(lock := None, nextPid := s.nextPid + 1)
    case GiveStack(c, _) => PutP(s, x.job.q, s.procs[x.job.q].(stack := true))
    case GiveSpace(c, _, a) => PutP(s, x.job.q, s.procs[x.job.q].(mm := Some(a))).(live := s.live + {a})
    case MakeReady(c, _) =>
      var t := PutP(s, x.job.q, s.procs[x.job.q].(status := Ready, keeper := None));
      PutP(t, p, t.procs[p].(at := Code, job := Nothing)).(lock := None)
    case GiveUp(c, _) => PutP(s, p, x.(job := Reap(x.job.q, FreeStack)))
  }

  predicate DropEnabled(s: State, e: Event)
    requires Shape(s) && Drops(e)
  {
    Runs(s, e.c, e.p, if e.DropSlot? then Held else Code) &&
    var j := s.procs[e.p].job;
    j.Reap? && j.q < MaxProcs && j.stage == (match e case DropStack(_, _) => FreeStack case DropSpace(_, _) => FreeSpace case _ => FreeSlot)
  }

  function DropApply(s: State, e: Event): State
    requires Shape(s) && Drops(e) && DropEnabled(s, e)
  {
    var p := e.p;
    var q := s.procs[p].job.q;
    match e
    case DropStack(c, _) =>
      var t := PutP(s, q, s.procs[q].(stack := false));
      PutP(t, p, t.procs[p].(job := Reap(q, FreeSpace)))
    case DropSpace(c, _) =>
      var t := PutP(s, q, s.procs[q].(mm := None));
      PutP(t, p, t.procs[p].(job := Reap(q, FreeSlot))).(live := Without(s.live, s.procs[q].mm))
    case DropSlot(c, _) =>
      var t := PutP(s, q, s.procs[q].(status := Unused, keeper := None));
      PutP(t, p, t.procs[p].(at := Code, job := Nothing)).(lock := None)
  }

  predicate SpaceEnabled(s: State, e: Event)
    requires Shape(s) && Spaces(e)
  {
    Runs(s, e.c, e.p, if e.Install? || e.Detach? then Held else Code) &&
    var j := s.procs[e.p].job;
    match e
    case NewImage(c, p, a) => j == Nothing && a !in s.live
    case DropImage(c, p) => j.Image?
    case Install(c, p) => j.Image?
    case Detach(c, p) => j == Nothing && s.procs[p].mm.Some?
    case Reload(c, p) => j.Swap?
    case DestroyOld(c, p) => j.Destroy?
  }

  function SpaceApply(s: State, e: Event): State
    requires Shape(s) && Spaces(e) && SpaceEnabled(s, e)
  {
    var c, p := e.c, e.p;
    var x := s.procs[p];
    match e
    case NewImage(_, _, a) => PutP(s, p, x.(job := Image(a))).(live := s.live + {a})
    case DropImage(_, _) => PutP(s, p, x.(job := Nothing)).(live := s.live - {x.job.a})
    case Install(_, _) => PutP(s, p, x.(at := Code, mm := Some(x.job.a), job := Swap(x.mm))).(lock := None)
    case Detach(_, _) => PutP(s, p, x.(at := Code, mm := None, job := Swap(x.mm))).(lock := None)
    case Reload(_, _) =>
      PutC(PutP(s, p, x.(job := if x.job.prev.Some? then Destroy(x.job.prev.value) else Nothing)), c, s.cpus[c].(cr3 := x.mm))
    case DestroyOld(_, _) => PutP(s, p, x.(job := Nothing)).(live := s.live - {x.job.gone})
  }

  predicate Enabled(s: State, e: Event)
    requires Shape(s)
  {
    if Loops(e) then LoopEnabled(s, e)
    else if Reaps(e) then ReapEnabled(s, e)
    else if Sections(e) then SectionEnabled(s, e)
    else if Leaves(e) then LeaveEnabled(s, e)
    else if Waits(e) then WaitEnabled(s, e)
    else if Makes(e) then MakeEnabled(s, e)
    else if Drops(e) then DropEnabled(s, e)
    else SpaceEnabled(s, e)
  }

  function Apply(s: State, e: Event): State
    requires Shape(s) && Enabled(s, e)
  {
    if Loops(e) then LoopApply(s, e)
    else if Reaps(e) then ReapApply(s, e)
    else if Sections(e) then SectionApply(s, e)
    else if Leaves(e) then LeaveApply(s, e)
    else if Waits(e) then WaitApply(s, e)
    else if Makes(e) then MakeApply(s, e)
    else if Drops(e) then DropApply(s, e)
    else SpaceApply(s, e)
  }
}

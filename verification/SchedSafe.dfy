/** What every interleaving of the scheduler's steps keeps: stacks, page tables and slots in use
    are never shared and never freed, and no zombie is missed by a waiting parent. */
module SchedSafe {
  import opened Sched

  // ---- The invariant, one clause a predicate ----

  /** proc_lock is held by the CPU that stands inside a critical section, and by no other. */
  ghost predicate Holds(s: State, c: nat)
    requires c < |s.cpus|
  {
    var x := s.cpus[c].place;
    x.Look? || x.Chosen? || x.Loaded? || x.Returned? || x.Clean?
    || (x.Away? && x.p < |s.procs| && (s.procs[x.p].at == Held || s.procs[x.p].at == Leave))
  }

  ghost predicate LockHeld(s: State) {
    && (s.lock.Some? ==> s.lock.value < |s.cpus| && Holds(s, s.lock.value))
    && (forall c {:trigger s.cpus[c]} {:trigger Holds(s, c)} :: 0 <= c < |s.cpus| && Holds(s, c) ==> s.lock == Some(c))
  }

  predicate Parks(x: Status) {
    x == Ready || x == Blocked || x == Stopped || x == Zombie
  }

  predicate Exists(x: Status) {
    x == Running || Parks(x)
  }

  /** What a CPU's place says about the process it names. */
  ghost predicate PlaceOk(s: State, c: nat)
    requires c < |s.cpus|
  {
    match s.cpus[c].place
    case Chosen(p) => p < |s.procs| && s.procs[p].cpu == c && s.procs[p].status == Running && s.procs[p].at == Off && s.cpus[c].cur == Some(p)
    case Loaded(p) => p < |s.procs| && s.procs[p].cpu == c && s.procs[p].status == Running && s.procs[p].at == Off && s.cpus[c].cur == Some(p)
    case Away(p) => p < |s.procs| && s.procs[p].cpu == c && s.procs[p].at != Off && s.cpus[c].cur == Some(p)
                    && (if s.procs[p].at == Leave then Parks(s.procs[p].status) else s.procs[p].status == Running)
    case Returned(p) => p < |s.procs| && s.procs[p].at == Off && Parks(s.procs[p].status) && s.cpus[c].cur == Some(p)
    case Orphans(i) => i < |s.procs| && s.cpus[c].cur == None
    case _ => s.cpus[c].cur == None
  }

  ghost predicate Places(s: State) {
    forall c {:trigger s.cpus[c]} {:trigger PlaceOk(s, c)} :: 0 <= c < |s.cpus| ==> PlaceOk(s, c)
  }

  /** A RUNNING process, or one whose stack is in use, is named by the CPU it records. */
  ghost predicate HostOk(s: State, p: nat)
    requires p < |s.procs|
  {
    && (s.procs[p].at != Off ==> s.procs[p].cpu < |s.cpus| && s.cpus[s.procs[p].cpu].place == Away(p))
    && (s.procs[p].status == Running ==>
          s.procs[p].cpu < |s.cpus|
          && (s.cpus[s.procs[p].cpu].place == Chosen(p) || s.cpus[s.procs[p].cpu].place == Loaded(p) || s.cpus[s.procs[p].cpu].place == Away(p)))
  }

  ghost predicate Hosts(s: State) {
    forall p {:trigger s.procs[p]} {:trigger HostOk(s, p)} :: 0 <= p < |s.procs| ==> HostOk(s, p)
  }

  /** The slot that a process is building or reaping is its own to change. */
  ghost predicate JobOk(s: State, p: nat)
    requires p < |s.procs|
  {
    match s.procs[p].job
    case Create(q) => q < |s.procs| && s.procs[q].keeper == Some(OnStack(p)) && s.procs[q].status == Embryo
    case Reap(q, g) => q < |s.procs| && s.procs[q].keeper == Some(OnStack(p)) && ReapOk(s.procs[q], g)
    case _ => true
  }

  predicate ReapOk(x: Proc, g: Stage) {
    && (x.status == Dead || x.status == Embryo)
    && (g != FreeStack ==> !x.stack)
    && (g == FreeSlot ==> x.mm == None)
  }

  ghost predicate Jobs(s: State) {
    && (forall p {:trigger s.procs[p]} {:trigger JobOk(s, p)} :: 0 <= p < |s.procs| ==> JobOk(s, p))
    && (forall p :: 0 <= p < |s.procs| && !(s.procs[p].status in {Ready, Running, Blocked, Stopped}) ==> s.procs[p].job == Nothing)
  }

  /** Likewise for a CPU in reap_orphans. */
  ghost predicate Reapers(s: State) {
    forall c :: 0 <= c < |s.cpus| && s.cpus[c].place.Reaping? ==> ReaperOk(s, c, s.cpus[c].place)
  }

  ghost predicate ReaperOk(s: State, c: nat, x: Place)
    requires x.Reaping?
  {
    x.i < |s.procs| && s.procs[x.i].keeper == Some(OnCpu(c)) && s.procs[x.i].status == Dead && ReapOk(s.procs[x.i], x.stage)
  }

  /** A process that can run has a stack; a zombie has no address space; a free slot has nothing. */
  ghost predicate Resources(s: State) {
    forall p :: 0 <= p < |s.procs| ==>
      && (Exists(s.procs[p].status) ==> s.procs[p].stack)
      && (s.procs[p].status == Zombie ==> s.procs[p].mm == None)
      && (s.procs[p].status == Unused ==> !s.procs[p].stack && s.procs[p].mm == None)
  }

  /** The address space, other than its own, that a process's unfinished operation owns. */
  function Carried(j: Job): (r: Option<nat>) {
    match j
    case Image(a) => Some(a)
    case Swap(a) => a
    case Destroy(a) => Some(a)
    case _ => None
  }

  /** Every address space has one owner and is not destroyed while it has one. */
  ghost predicate Owned(s: State) {
    && (forall p :: 0 <= p < |s.procs| && s.procs[p].mm.Some? ==> s.procs[p].mm.value in s.live)
    && (forall p :: 0 <= p < |s.procs| && Carried(s.procs[p].job).Some? ==> Carried(s.procs[p].job).value in s.live)
    && (forall p, q :: 0 <= p < |s.procs| && 0 <= q < |s.procs| && p != q && s.procs[p].mm.Some? ==> s.procs[p].mm != s.procs[q].mm)
    && (forall p, q :: 0 <= p < |s.procs| && 0 <= q < |s.procs| && Carried(s.procs[p].job).Some? ==> Carried(s.procs[p].job) != s.procs[q].mm)
    && (forall p, q :: 0 <= p < |s.procs| && 0 <= q < |s.procs| && p != q && Carried(s.procs[p].job).Some? ==>
          Carried(s.procs[p].job) != Carried(s.procs[q].job))
  }

  /** The process whose page table a CPU may have in CR3. */
  function Guest(x: Place): (r: Option<nat>) {
    match x
    case Loaded(p) => Some(p)
    case Away(p) => Some(p)
    case Returned(p) => Some(p)
    case _ => None
  }

  /** CR3 holds the table of the process on whose stack the CPU is, or the one that this process has
      just replaced and not yet left; away from processes it holds the kernel's. */
  ghost predicate Cr3Ok(s: State, c: nat)
    requires c < |s.cpus|
  {
    var g := Guest(s.cpus[c].place);
    if g.Some? then g.value < |s.procs| && (s.procs[g.value].mm == s.cpus[c].cr3 || s.procs[g.value].job == Swap(s.cpus[c].cr3))
    else s.cpus[c].cr3 == None
  }

  ghost predicate Cr3s(s: State) {
    forall c {:trigger s.cpus[c]} {:trigger Cr3Ok(s, c)} :: 0 <= c < |s.cpus| ==> Cr3Ok(s, c)
  }

  /** Process `p`, in state `x`, is blocked in proc_wait for its child `z`. */
  predicate Awaits(x: Proc, p: nat, z: Proc) {
    x.status == Blocked && x.job.Wait? && z.parent == Of(p) && Matches(z, x.job.t)
  }

  /** No zombie is missed: a parent blocked in proc_wait has no matching zombie child. */
  ghost predicate NoMissed(s: State) {
    && (forall p :: 0 <= p < |s.procs| && s.procs[p].status == Blocked && s.procs[p].job.Wait? ==> s.procs[p].chan == Self(p))
    && (forall p, z :: 0 <= p < |s.procs| && 0 <= z < |s.procs| && Awaits(s.procs[p], p, s.procs[z]) ==> s.procs[z].status != Zombie)
  }

  ghost predicate Safe(s: State) {
    Shape(s) && LockHeld(s) && Places(s) && Hosts(s) && Jobs(s) && Reapers(s) && Resources(s) && Owned(s) && Cr3s(s)
  }

  ghost predicate Inv(s: State) {
    Safe(s) && NoMissed(s)
  }

  /** The table as the boot code leaves it: every CPU at the top of its loop on the kernel's page
      table, and each slot free or holding a prepared READY process with its own address space. */
  ghost predicate Init(s: State) {
    && Shape(s) && s.lock == None
    && (forall c :: 0 <= c < |s.cpus| ==> s.cpus[c] == Cpu(Loop, None, None))
    && (forall p :: 0 <= p < |s.procs| ==>
          var x := s.procs[p];
          x.at == Off && x.job == Nothing && x.keeper == None && (x.mm.Some? ==> x.mm.value in s.live)
          && ((x.status == Ready && x.stack) || (x.status == Unused && !x.stack && x.mm == None)))
    && (forall p, q :: 0 <= p < |s.procs| && 0 <= q < |s.procs| && p != q && s.procs[p].mm.Some? ==> s.procs[p].mm != s.procs[q].mm)
  }

  lemma InitInv(s: State)
    requires Init(s)
    ensures Inv(s)
  {
  }

  // ---- Loops over the table: wakeup_locked and the orphaning loop ----

  /** Only parents change, and the state of some BLOCKED processes, to READY. */
  ghost predicate Bulk(s: State, t: State) {
    && t == s.(procs := t.procs) && |t.procs| == |s.procs|
    && (forall p :: 0 <= p < |s.procs| ==>
          && t.procs[p] == s.procs[p].(status := t.procs[p].status, parent := t.procs[p].parent)
          && (t.procs[p].status == s.procs[p].status || (s.procs[p].status == Blocked && t.procs[p].status == Ready)))
  }

  lemma BulkPlaces(s: State, t: State)
    requires Safe(s) && Bulk(s, t)
    ensures Shape(t) && LockHeld(t) && Places(t) && Hosts(t)
  {
    hide Owned, Cr3s, Resources, Jobs;
  }

  lemma BulkRest(s: State, t: State)
    requires Safe(s) && Bulk(s, t)
    ensures Shape(t) && Jobs(t) && Reapers(t) && Resources(t) && Cr3s(t)
  {
    hide Owned, LockHeld, Places, Hosts;
  }

  /** Ownership depends on the spaces named by processes and their operations only, and may end. */
  lemma OwnedFrame(s: State, t: State)
    requires Owned(s) && |t.procs| == |s.procs|
    requires forall p :: 0 <= p < |s.procs| ==> t.procs[p].mm == s.procs[p].mm || t.procs[p].mm == None
    requires forall p :: 0 <= p < |s.procs| ==> Carried(t.procs[p].job) == Carried(s.procs[p].job) || Carried(t.procs[p].job) == None
    requires forall p :: 0 <= p < |s.procs| && t.procs[p].mm.Some? ==> t.procs[p].mm.value in t.live || t.live == s.live
    requires forall p :: 0 <= p < |s.procs| && Carried(t.procs[p].job).Some? ==> Carried(t.procs[p].job).value in t.live || t.live == s.live
    ensures Owned(t)
  {
    hide Carried;
  }

  lemma BulkSafe(s: State, t: State)
    requires Safe(s) && Bulk(s, t)
    ensures Safe(t)
  {
    hide Owned, Cr3s, Resources, Jobs, Reapers, LockHeld, Places, Hosts;
    BulkPlaces(s, t);
    BulkRest(s, t);
    OwnedFrame(s, t);
  }

  lemma ToldBulk(s: State, parent: Parent)
    ensures Bulk(s, Told(s, parent))
  {
  }

  lemma AbandonedBulk(s: State, p: nat)
    ensures Bulk(s, Abandoned(s, p))
  {
  }

  // ---- Giving up the CPU ----

  lemma ParkedPlaces(s: State, c: nat, p: nat, status: Status, chan: Channel)
    requires Safe(s) && Runs(s, c, p, Held) && Parks(status)
    ensures var t := Parked(s, p, status, chan); Shape(t) && LockHeld(t) && Places(t) && Hosts(t)
  {
    hide Owned, Cr3s, Resources, Jobs;
  }

  lemma ParkedRest(s: State, c: nat, p: nat, status: Status, chan: Channel)
    requires Safe(s) && Runs(s, c, p, Held) && Parks(status)
    requires status == Zombie ==> s.procs[p].job == Nothing && s.procs[p].mm == None
    ensures var t := Parked(s, p, status, chan); Shape(t) && Jobs(t) && Reapers(t) && Resources(t) && Cr3s(t)
  {
    hide Owned, LockHeld, Hosts;
    assert PlaceOk(s, c);
  }

  lemma ParkedSafe(s: State, c: nat, p: nat, status: Status, chan: Channel)
    requires Safe(s) && Runs(s, c, p, Held) && Parks(status)
    requires status == Zombie ==> s.procs[p].job == Nothing && s.procs[p].mm == None
    ensures Safe(Parked(s, p, status, chan))
  {
    hide Owned, Cr3s, Resources, Jobs, Reapers, LockHeld, Places, Hosts, Carried;
    ParkedPlaces(s, c, p, status, chan);
    ParkedRest(s, c, p, status, chan);
    OwnedFrame(s, Parked(s, p, status, chan));
  }

  lemma LeaveSafe(s: State, e: Event)
    requires Safe(s) && Leaves(e) && LeaveEnabled(s, e)
    ensures Safe(LeaveApply(s, e))
  {
    hide Owned, Cr3s, Resources, Jobs, Reapers, LockHeld, Places, Hosts, Bulk, Told, Parked, Abandoned;
    match e {
      case Yield(c, p) => ParkedSafe(s, c, p, Ready, s.procs[p].chan);
      case Sleep(c, p, id) => ParkedSafe(s, c, p, Blocked, Other(id));
      case Stop(c, p) =>
        var t := Parked(s, p, Stopped, s.procs[p].chan);
        ParkedSafe(s, c, p, Stopped, s.procs[p].chan);
        ToldBulk(t, s.procs[p].parent);
        BulkSafe(t, Told(t, s.procs[p].parent));
      case Die(c, p) =>
        DieSafe(s, c, p);
    }
  }

  lemma DieSafe(s: State, c: nat, p: nat)
    requires Safe(s) && LeaveEnabled(s, Die(c, p))
    ensures Safe(LeaveApply(s, Die(c, p)))
  {
    hide Owned, Cr3s, Resources, Jobs, Reapers, LockHeld, Places, Hosts, Told, Parked, Abandoned;
    var t := Abandoned(s, p);
    AbandonedBulk(s, p);
    BulkSafe(s, t);
    var u := Parked(t, p, Zombie, t.procs[p].chan);
    ParkedSafe(t, c, p, Zombie, t.procs[p].chan);
    ToldBulk(u, t.procs[p].parent);
    BulkSafe(u, Told(u, t.procs[p].parent));
  }

  // ---- Places ----

  lemma LoopLock(s: State, e: Event)
    requires Safe(s) && Loops(e) && LoopEnabled(s, e)
    ensures var t := LoopApply(s, e); Shape(t) && LockHeld(t)
  {
    hide Owned, Cr3s, Resources, Jobs, PickFrom;
    PickInTable(s.procs, s.rr, 0);
  }

  lemma LoopPlaces(s: State, e: Event)
    requires Safe(s) && Loops(e) && LoopEnabled(s, e)
    ensures var t := LoopApply(s, e); Shape(t) && Places(t)
  {
    hide Owned, Cr3s, Resources, Jobs, PickFrom;
    PickInTable(s.procs, s.rr, 0);
  }

  lemma LoopHosts(s: State, e: Event)
    requires Safe(s) && Loops(e) && LoopEnabled(s, e)
    ensures var t := LoopApply(s, e); Shape(t) && Hosts(t)
  {
    hide Owned, Cr3s, Resources, Jobs, PickFrom;
    PickInTable(s.procs, s.rr, 0);
  }

  lemma ReapLock(s: State, e: Event)
    requires Safe(s) && Reaps(e) && ReapEnabled(s, e)
    ensures var t := ReapApply(s, e); Shape(t) && LockHeld(t)
  {
    hide Owned, Cr3s, Resources;
  }

  lemma ReapPlaces(s: State, e: Event)
    requires Safe(s) && Reaps(e) && ReapEnabled(s, e)
    ensures var t := ReapApply(s, e); Shape(t) && Places(t)
  {
    hide Owned, Cr3s, Resources;
  }

  lemma ReapHosts(s: State, e: Event)
    requires Safe(s) && Reaps(e) && ReapEnabled(s, e)
    ensures var t := ReapApply(s, e); Shape(t) && Hosts(t)
  {
    hide Owned, Cr3s, Resources;
  }

  lemma SectionLock(s: State, e: Event)
    requires Safe(s) && Sections(e) && SectionEnabled(s, e)
    ensures var t := SectionApply(s, e); Shape(t) && LockHeld(t)
  {
    hide Owned, Cr3s, Resources, Jobs;
  }

  lemma SectionPlaces(s: State, e: Event)
    requires Safe(s) && Sections(e) && SectionEnabled(s, e)
    ensures var t := SectionApply(s, e); Shape(t) && Places(t)
  {
    hide Owned, Cr3s, Resources, Jobs;
  }

  lemma SectionHosts(s: State, e: Event)
    requires Safe(s) && Sections(e) && SectionEnabled(s, e)
    ensures var t := SectionApply(s, e); Shape(t) && Hosts(t)
  {
    hide Owned, Cr3s, Resources, Jobs;
  }

  lemma WaitLock(s: State, e: Event)
    requires Safe(s) && Waits(e) && WaitEnabled(s, e)
    ensures var t := WaitApply(s, e); Shape(t) && LockHeld(t)
  {
    hide Owned, Cr3s, Resources, Jobs;
  }

  lemma WaitPlaces(s: State, e: Event)
    requires Safe(s) && Waits(e) && WaitEnabled(s, e)
    ensures var t := WaitApply(s, e); Shape(t) && Places(t)
  {
    hide Owned, Cr3s, Resources, Jobs;
  }

  lemma WaitHosts(s: State, e: Event)
    requires Safe(s) && Waits(e) && WaitEnabled(s, e)
    ensures var t := WaitApply(s, e); Shape(t) && Hosts(t)
  {
    hide Owned, Cr3s, Resources, Jobs;
  }

  lemma MakeLock(s: State, e: Event)
    requires Safe(s) && Makes(e) && MakeEnabled(s, e)
    ensures var t := MakeApply(s, e); Shape(t) && LockHeld(t)
  {
    hide Owned, Cr3s, Resources;
  }

  lemma MakePlaces(s: State, e: Event)
    requires Safe(s) && Makes(e) && MakeEnabled(s, e)
    ensures var t := MakeApply(s, e); Shape(t) && Places(t)
  {
    hide Owned, Cr3s, Resources;
  }

  lemma MakeHosts(s: State, e: Event)
    requires Safe(s) && Makes(e) && MakeEnabled(s, e)
    ensures var t := MakeApply(s, e); Shape(t) && Hosts(t)
  {
    hide Owned, Cr3s, Resources;
  }

  lemma DropLock(s: State, e: Event)
    requires Safe(s) && Drops(e) && DropEnabled(s, e)
    ensures var t := DropApply(s, e); Shape(t) && LockHeld(t)
  {
    hide Owned, Cr3s, Resources;
  }

  lemma DropPlaces(s: State, e: Event)
    requires Safe(s) && Drops(e) && DropEnabled(s, e)
    ensures var t := DropApply(s, e); Shape(t) && Places(t)
  {
    hide Owned, Cr3s, Resources, Reapers;
  }

  lemma DropHosts(s: State, e: Event)
    requires Safe(s) && Drops(e) && DropEnabled(s, e)
    ensures var t := DropApply(s, e); Shape(t) && Hosts(t)
  {
    hide Owned, Cr3s, Resources;
  }

  lemma SpaceLock(s: State, e: Event)
    requires Safe(s) && Spaces(e) && SpaceEnabled(s, e)
    ensures var t := SpaceApply(s, e); Shape(t) && LockHeld(t)
  {
    hide Owned, Cr3s, Resources, Jobs;
  }

  lemma SpacePlaces(s: State, e: Event)
    requires Safe(s) && Spaces(e) && SpaceEnabled(s, e)
    ensures var t := SpaceApply(s, e); Shape(t) && Places(t)
  {
    hide Owned, Cr3s, Resources, Jobs;
  }

  lemma SpaceHosts(s: State, e: Event)
    requires Safe(s) && Spaces(e) && SpaceEnabled(s, e)
    ensures var t := SpaceApply(s, e); Shape(t) && Hosts(t)
  {
    hide Owned, Cr3s, Resources, Jobs;
  }

  // ---- Jobs ----

  lemma LoopJobs(s: State, e: Event)
    requires Safe(s) && Loops(e) && LoopEnabled(s, e)
    ensures var t := LoopApply(s, e); Shape(t) && Jobs(t)
  {
    hide Owned, Cr3s, LockHeld, Hosts, Resources, Reapers, PickFrom, Places;
    PickInTable(s.procs, s.rr, 0);
  }

  lemma LoopReapers(s: State, e: Event)
    requires Safe(s) && Loops(e) && LoopEnabled(s, e)
    ensures var t := LoopApply(s, e); Shape(t) && Reapers(t)
  {
    hide Jobs, Owned, Cr3s, LockHeld, Hosts, Resources, PickFrom;
    PickInTable(s.procs, s.rr, 0);
  }

  lemma ReapJobs(s: State, e: Event)
    requires Safe(s) && Reaps(e) && ReapEnabled(s, e)
    ensures var t := ReapApply(s, e); Shape(t) && Jobs(t)
  {
    hide Owned, Cr3s, LockHeld, Hosts, Places;
  }

  lemma ReapReapers(s: State, e: Event)
    requires Safe(s) && Reaps(e) && ReapEnabled(s, e)
    ensures var t := ReapApply(s, e); Shape(t) && Reapers(t)
  {
    hide Owned, Cr3s, LockHeld, Hosts;
  }

  lemma SectionJobs(s: State, e: Event)
    requires Safe(s) && Sections(e) && SectionEnabled(s, e)
    ensures var t := SectionApply(s, e); Shape(t) && Jobs(t)
  {
    hide Owned, Cr3s, LockHeld, Hosts, Resources, Reapers, Places;
  }

  lemma SectionReapers(s: State, e: Event)
    requires Safe(s) && Sections(e) && SectionEnabled(s, e)
    ensures var t := SectionApply(s, e); Shape(t) && Reapers(t)
  {
    hide Jobs, Owned, Cr3s, LockHeld, Hosts, Resources;
  }

  lemma WaitJobs(s: State, e: Event)
    requires Safe(s) && Waits(e) && WaitEnabled(s, e)
    ensures var t := WaitApply(s, e); Shape(t) && Jobs(t)
  {
    hide Owned, Cr3s, LockHeld, Hosts, Resources, Reapers, FindZombie, HasChild, HasStopped;
  }

  lemma WaitReapers(s: State, e: Event)
    requires Safe(s) && Waits(e) && WaitEnabled(s, e)
    ensures var t := WaitApply(s, e); Shape(t) && Reapers(t)
  {
    hide Owned, Cr3s, LockHeld, Hosts, Resources;
  }

  lemma MakeJobs(s: State, e: Event)
    requires Safe(s) && Makes(e) && MakeEnabled(s, e)
    ensures var t := MakeApply(s, e); Shape(t) && Jobs(t)
  {
    hide Owned, Cr3s, LockHeld, Hosts, NoMissed;
  }

  lemma MakeReapers(s: State, e: Event)
    requires Safe(s) && Makes(e) && MakeEnabled(s, e)
    ensures var t := MakeApply(s, e); Shape(t) && Reapers(t)
  {
    hide Owned, Cr3s, LockHeld, Hosts;
  }

  lemma DropJobs(s: State, e: Event)
    requires Safe(s) && Drops(e) && DropEnabled(s, e)
    ensures var t := DropApply(s, e); Shape(t) && Jobs(t)
  {
    hide Owned, Cr3s, LockHeld, Hosts, Places;
  }

  lemma DropReapers(s: State, e: Event)
    requires Safe(s) && Drops(e) && DropEnabled(s, e)
    ensures var t := DropApply(s, e); Shape(t) && Reapers(t)
  {
    hide Owned, Cr3s, LockHeld, Hosts;
  }

  lemma SpaceJobs(s: State, e: Event)
    requires Safe(s) && Spaces(e) && SpaceEnabled(s, e)
    ensures var t := SpaceApply(s, e); Shape(t) && Jobs(t)
  {
    hide Owned, Cr3s, LockHeld, Hosts, Resources, Reapers;
  }

  lemma SpaceReapers(s: State, e: Event)
    requires Safe(s) && Spaces(e) && SpaceEnabled(s, e)
    ensures var t := SpaceApply(s, e); Shape(t) && Reapers(t)
  {
    hide Jobs, Owned, Cr3s, LockHeld, Hosts, Resources;
  }

  // ---- Resources ----

  lemma LoopResources(s: State, e: Event)
    requires Safe(s) && Loops(e) && LoopEnabled(s, e)
    ensures var t := LoopApply(s, e); Shape(t) && Resources(t)
  {
    hide Reapers, Owned, Cr3s, PickFrom;
    PickInTable(s.procs, s.rr, 0);
  }

  lemma ReapResources(s: State, e: Event)
    requires Safe(s) && Reaps(e) && ReapEnabled(s, e)
    ensures var t := ReapApply(s, e); Shape(t) && Resources(t)
  {
    hide Owned, Cr3s;
  }

  lemma SectionResources(s: State, e: Event)
    requires Safe(s) && Sections(e) && SectionEnabled(s, e)
    ensures var t := SectionApply(s, e); Shape(t) && Resources(t)
  {
    hide Reapers, Owned, Cr3s;
  }

  lemma WaitResources(s: State, e: Event)
    requires Safe(s) && Waits(e) && WaitEnabled(s, e)
    ensures var t := WaitApply(s, e); Shape(t) && Resources(t)
  {
    hide Reapers, Owned, Cr3s;
  }

  lemma MakeResources(s: State, e: Event)
    requires Safe(s) && Makes(e) && MakeEnabled(s, e)
    ensures var t := MakeApply(s, e); Shape(t) && Resources(t)
  {
    hide Reapers, Owned, Cr3s;
  }

  lemma DropResources(s: State, e: Event)
    requires Safe(s) && Drops(e) && DropEnabled(s, e)
    ensures var t := DropApply(s, e); Shape(t) && Resources(t)
  {
    hide Reapers, Owned, Cr3s;
  }

  lemma SpaceResources(s: State, e: Event)
    requires Safe(s) && Spaces(e) && SpaceEnabled(s, e)
    ensures var t := SpaceApply(s, e); Shape(t) && Resources(t)
  {
    hide Reapers, Owned, Cr3s;
  }

  // ---- Owned ----

  lemma LoopOwned(s: State, e: Event)
    requires Safe(s) && Loops(e) && LoopEnabled(s, e)
    ensures var t := LoopApply(s, e); Shape(t) && Owned(t)
  {
    hide Reapers, Cr3s, LockHeld, Places, Hosts, Owned, Resources, Jobs, PickFrom;
    PickInTable(s.procs, s.rr, 0);
    OwnedFrame(s, LoopApply(s, e));
  }

  lemma ReapOwned(s: State, e: Event)
    requires Safe(s) && Reaps(e) && ReapEnabled(s, e)
    ensures var t := ReapApply(s, e); Shape(t) && Owned(t)
  {
    hide Cr3s, LockHeld, Places, Hosts;
  }

  lemma SectionOwned(s: State, e: Event)
    requires Safe(s) && Sections(e) && SectionEnabled(s, e)
    ensures var t := SectionApply(s, e); Shape(t) && Owned(t)
  {
    hide Reapers, Cr3s, LockHeld, Places, Hosts, Owned, Resources, Jobs;
    OwnedFrame(s, SectionApply(s, e));
  }

  lemma WaitOwned(s: State, e: Event)
    requires Safe(s) && Waits(e) && WaitEnabled(s, e)
    ensures var t := WaitApply(s, e); Shape(t) && Owned(t)
  {
    hide Reapers, Cr3s, LockHeld, Places, Hosts, Owned, Resources, Jobs;
    OwnedFrame(s, WaitApply(s, e));
  }

  lemma MakeOwned(s: State, e: Event)
    requires Safe(s) && Makes(e) && MakeEnabled(s, e)
    ensures var t := MakeApply(s, e); Shape(t) && Owned(t)
  {
    hide Reapers, Cr3s, LockHeld, Places, Hosts, Owned, Jobs;
    if e.GiveSpace? {
      GivenOwned(s, s.procs[e.p].job.q, e.a);
    } else {
      OwnedFrame(s, MakeApply(s, e));
    }
  }

  lemma GivenOwned(s: State, q: nat, a: nat)
    requires Owned(s) && q < |s.procs| && a !in s.live
    ensures Owned(PutP(s, q, s.procs[q].(mm := Some(a))).(live := s.live + {a}))
  {
    hide Carried;
  }

  lemma DropOwned(s: State, e: Event)
    requires Safe(s) && Drops(e) && DropEnabled(s, e)
    ensures var t := DropApply(s, e); Shape(t) && Owned(t)
  {
    hide Reapers, Cr3s, LockHeld, Places, Hosts, Owned, Resources, Jobs;
    var q := s.procs[e.p].job.q;
    if e.DropSpace? {
      SpaceUnnamed(s, q);
    }
    OwnedFrame(s, DropApply(s, e));
  }

  lemma SpaceUnnamed(s: State, q: nat)
    requires Owned(s) && q < |s.procs|
    ensures forall p :: 0 <= p < |s.procs| && p != q && s.procs[p].mm.Some? ==> s.procs[p].mm.value in Without(s.live, s.procs[q].mm)
    ensures forall p :: 0 <= p < |s.procs| && Carried(s.procs[p].job).Some? ==> Carried(s.procs[p].job).value in Without(s.live, s.procs[q].mm)
  {
    hide Carried;
  }

  lemma ImageOwned(s: State, e: Event)
    requires Safe(s) && Spaces(e) && SpaceEnabled(s, e) && (e.NewImage? || e.DropImage? || e.Install?)
    ensures var t := SpaceApply(s, e); Shape(t) && Owned(t)
  {
    hide Reapers, Cr3s, LockHeld, Places, Hosts, Jobs, Resources;
  }

  lemma SwapOwned(s: State, e: Event)
    requires Safe(s) && Spaces(e) && SpaceEnabled(s, e) && (e.Detach? || e.Reload? || e.DestroyOld?)
    ensures var t := SpaceApply(s, e); Shape(t) && Owned(t)
  {
    hide Reapers, Cr3s, LockHeld, Places, Hosts, Jobs, Resources;
  }

  lemma SpaceOwned(s: State, e: Event)
    requires Safe(s) && Spaces(e) && SpaceEnabled(s, e)
    ensures var t := SpaceApply(s, e); Shape(t) && Owned(t)
  {
    hide Safe, Owned, SpaceApply, SpaceEnabled;
    if e.NewImage? || e.DropImage? || e.Install? {
      ImageOwned(s, e);
    } else {
      SwapOwned(s, e);
    }
  }

  // ---- Cr3s ----

  lemma LoopCr3s(s: State, e: Event)
    requires Safe(s) && Loops(e) && LoopEnabled(s, e)
    ensures var t := LoopApply(s, e); Shape(t) && Cr3s(t)
  {
    hide Reapers, LockHeld, Hosts, Resources, PickFrom, Owned, NoMissed;
    PickInTable(s.procs, s.rr, 0);
  }

  lemma ReapCr3s(s: State, e: Event)
    requires Safe(s) && Reaps(e) && ReapEnabled(s, e)
    ensures var t := ReapApply(s, e); Shape(t) && Cr3s(t)
  {
    hide LockHeld, Hosts, Resources, NoMissed, Owned;
  }

  lemma SectionCr3s(s: State, e: Event)
    requires Safe(s) && Sections(e) && SectionEnabled(s, e)
    ensures var t := SectionApply(s, e); Shape(t) && Cr3s(t)
  {
    hide Reapers, LockHeld, Hosts, Resources;
  }

  lemma WaitCr3s(s: State, e: Event)
    requires Safe(s) && Waits(e) && WaitEnabled(s, e)
    ensures var t := WaitApply(s, e); Shape(t) && Cr3s(t)
  {
    hide Reapers, LockHeld, Hosts, Resources;
  }

  lemma MakeCr3s(s: State, e: Event)
    requires Safe(s) && Makes(e) && MakeEnabled(s, e)
    ensures var t := MakeApply(s, e); Shape(t) && Cr3s(t)
  {
    hide Reapers, LockHeld, Hosts, Resources;
  }

  lemma DropCr3s(s: State, e: Event)
    requires Safe(s) && Drops(e) && DropEnabled(s, e)
    ensures var t := DropApply(s, e); Shape(t) && Cr3s(t)
  {
    hide Reapers, LockHeld, Hosts, Resources;
  }

  lemma SpaceCr3s(s: State, e: Event)
    requires Safe(s) && Spaces(e) && SpaceEnabled(s, e)
    ensures var t := SpaceApply(s, e); Shape(t) && Cr3s(t)
  {
    hide Reapers, LockHeld, Hosts, Resources;
  }

  // ---- No zombie is missed ----

  /** Nothing to prove when nobody starts to wait and nobody becomes a zombie. */
  lemma MissedFrame(s: State, t: State)
    requires NoMissed(s) && |t.procs| == |s.procs|
    requires forall p :: 0 <= p < |s.procs| && t.procs[p].status == Blocked && t.procs[p].job.Wait? ==>
               s.procs[p].status == Blocked && s.procs[p].job == t.procs[p].job && s.procs[p].chan == t.procs[p].chan
    requires forall z :: 0 <= z < |s.procs| && t.procs[z].status == Zombie && t.procs[z].parent.Of? ==>
               s.procs[z].status == Zombie && s.procs[z].parent == t.procs[z].parent && s.procs[z].pid == t.procs[z].pid
    ensures NoMissed(t)
  {
  }

  lemma LoopMissed(s: State, e: Event)
    requires Inv(s) && Loops(e) && LoopEnabled(s, e)
    ensures NoMissed(LoopApply(s, e))
  {
    hide Owned, Cr3s, Resources, Jobs, Reapers, LockHeld, Places, Hosts, NoMissed, PickFrom;
    PickInTable(s.procs, s.rr, 0);
    MissedFrame(s, LoopApply(s, e));
  }

  lemma ReapMissed(s: State, e: Event)
    requires Inv(s) && Reaps(e) && ReapEnabled(s, e)
    ensures NoMissed(ReapApply(s, e))
  {
    hide Owned, Cr3s, Resources, Reapers, LockHeld, Hosts, NoMissed;
    MissedFrame(s, ReapApply(s, e));
  }

  lemma SectionMissed(s: State, e: Event)
    requires Inv(s) && Sections(e) && SectionEnabled(s, e)
    ensures NoMissed(SectionApply(s, e))
  {
    hide Owned, Cr3s, Resources, Reapers, LockHeld, Hosts, NoMissed, Places, Jobs;
    MissedFrame(s, SectionApply(s, e));
  }

  lemma MakeMissed(s: State, e: Event)
    requires Inv(s) && Makes(e) && MakeEnabled(s, e)
    ensures NoMissed(MakeApply(s, e))
  {
    hide Owned, Cr3s, Resources, Reapers, LockHeld, Hosts, NoMissed, Places, Jobs;
    MissedFrame(s, MakeApply(s, e));
  }

  lemma DropMissed(s: State, e: Event)
    requires Inv(s) && Drops(e) && DropEnabled(s, e)
    ensures NoMissed(DropApply(s, e))
  {
    hide Owned, Cr3s, Resources, Reapers, LockHeld, Hosts, NoMissed;
    MissedFrame(s, DropApply(s, e));
  }

  lemma SpaceMissed(s: State, e: Event)
    requires Inv(s) && Spaces(e) && SpaceEnabled(s, e)
    ensures NoMissed(SpaceApply(s, e))
  {
    hide Owned, Cr3s, Resources, Reapers, LockHeld, Hosts, NoMissed;
    MissedFrame(s, SpaceApply(s, e));
  }

  lemma WaitSleepMissed(s: State, e: Event)
    requires Inv(s) && e.WaitSleep? && WaitEnabled(s, e)
    ensures NoMissed(WaitApply(s, e))
  {
    hide Owned, Cr3s, Resources, Reapers, LockHeld, Hosts, Jobs, Places;
  }

  lemma WaitMissed(s: State, e: Event)
    requires Inv(s) && Waits(e) && WaitEnabled(s, e)
    ensures NoMissed(WaitApply(s, e))
  {
    hide Owned, Cr3s, Resources, Reapers, LockHeld, Hosts, Jobs, NoMissed, FindZombie;
    if e.WaitSleep? {
      WaitSleepMissed(s, e);
    } else {
      MissedFrame(s, WaitApply(s, e));
    }
  }

  lemma LeaveMissed(s: State, e: Event)
    requires Inv(s) && Leaves(e) && LeaveEnabled(s, e)
    ensures NoMissed(LeaveApply(s, e))
  {
    hide Owned, Cr3s, Resources, Reapers, LockHeld, Hosts, Jobs, NoMissed;
    if e.Die? {
      DieMissed(s, e.c, e.p);
    } else {
      MissedFrame(s, LeaveApply(s, e));
    }
  }

  /** The dying child wakes whoever waits for its parent's children. */
  lemma DieMissed(s: State, c: nat, p: nat)
    requires Inv(s) && LeaveEnabled(s, Die(c, p))
    ensures NoMissed(LeaveApply(s, Die(c, p)))
  {
    hide Owned, Cr3s, Resources, Reapers, LockHeld, Hosts, Jobs, Places;
  }
}

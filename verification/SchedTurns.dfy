/** The life of a process, step by step: how each step changes the state, the parent, the pid and the
    memory of every slot, and that the holder of proc_lock can always go on (kernel/proc/process.c). */
module SchedTurns {
  import opened Sched
  import opened SchedSafe
  import opened SchedRuns

  // ---- Pids and parents ----

  /** Slots in use have different pids, all given out before, and nobody is its own parent. */
  ghost predicate Kin(s: State) {
    && (forall p :: 0 <= p < |s.procs| && s.procs[p].status != Unused ==> s.procs[p].pid < s.nextPid && s.procs[p].parent != Of(p))
    && (forall p, q :: 0 <= p < q < |s.procs| && s.procs[p].status != Unused && s.procs[q].status != Unused ==> s.procs[p].pid != s.procs[q].pid)
  }

  function ParentAfter(s: State, e: Event, q: nat): Parent
    requires q < |s.procs|
  {
    if e.Alloc? && e.q == q then Of(e.p)
    else if e.Die? && s.procs[q].parent == Of(e.p) && s.procs[q].status != Unused then Orphan
    else s.procs[q].parent
  }

  function PidAfter(s: State, e: Event, q: nat): nat
    requires q < |s.procs|
  {
    if e.Alloc? && e.q == q then s.nextPid else s.procs[q].pid
  }

  // ---- The life cycle ----

  /** Of the READY slots, the first at or after rr_next. */
  ghost predicate Nearest(s: State, q: nat)
    requires s.rr < MaxProcs && q < MaxProcs && |s.procs| == MaxProcs
  {
    s.procs[q].status == Ready && forall i :: 0 <= i < MaxProcs && s.procs[i].status == Ready ==> Dist(s.rr, q) <= Dist(s.rr, i)
  }

  /** An exit or stop of process `p` wakes whoever sleeps on this channel. */
  predicate TellsParent(s: State, p: nat, ch: Channel) {
    p < |s.procs| && s.procs[p].parent.Of? && ch == Self(s.procs[p].parent.p)
  }

  /** The step takes the zombie in slot `q`: as the first that its waiting parent may take, or as an orphan. */
  ghost predicate Takers(s: State, e: Event, q: nat)
    requires q < |s.procs|
  {
    || (e.WaitFound? && e.p < |s.procs| && s.procs[e.p].job.Wait? && Takes(s.procs[q], e.p, s.procs[e.p].job.t)
        && forall i :: 0 <= i < q ==> !Takes(s.procs[i], e.p, s.procs[e.p].job.t))
    || (e.TakeOrphan? && e.c < |s.cpus| && s.cpus[e.c].place == Orphans(q) && s.procs[q].parent == Orphan)
  }

  /** The step ends the release of slot `q`. */
  predicate Releases(s: State, e: Event, q: nat) {
    || (e.DropSlot? && e.p < |s.procs| && s.procs[e.p].job == Reap(q, FreeSlot))
    || (e.ReaperSlot? && e.c < |s.cpus| && s.cpus[e.c].place == Reaping(q, FreeSlot))
  }

  /** The state of slot `q` after a step. */
  ghost function StatusAfter(s: State, e: Event, q: nat): Status
    requires Shape(s) && q < |s.procs|
  {
    match s.procs[q].status
    case Unused => if e.Alloc? && e.q == q then Embryo else Unused
    case Embryo =>
      if e.MakeReady? && e.p < |s.procs| && s.procs[e.p].job == Create(q) then Ready else if (e.DropSlot? || e.ReaperSlot?) && Releases(s, e, q) then Unused else Embryo
    case Ready => if e.PickOne? && Nearest(s, q) then Running else Ready
    case Running =>
      if e.Yield? && e.p == q then Ready
      else if (e.Sleep? || e.WaitSleep?) && e.p == q then Blocked
      else if e.Stop? && e.p == q then Stopped
      else if e.Die? && e.p == q then Zombie
      else Running
    case Blocked => if (e.Notify? && e.q == q) || ((e.Die? || e.Stop?) && TellsParent(s, e.p, s.procs[q].chan)) then Ready else Blocked
    case Stopped => if e.Notify? && e.q == q then Ready else Stopped
    case Zombie => if (e.WaitFound? || e.TakeOrphan?) && Takers(s, e, q) then Dead else Zombie
    case Dead => if (e.DropSlot? || e.ReaperSlot?) && Releases(s, e, q) then Unused else Dead
  }

  /** What a step leaves of slot `q`. */
  ghost predicate Lives(s: State, e: Event, q: nat, t: State)
    requires Shape(s) && q < |s.procs|
  {
    && |t.procs| == |s.procs|
    && t.procs[q].status == StatusAfter(s, e, q)
    && t.procs[q].parent == ParentAfter(s, e, q)
    && t.procs[q].pid == PidAfter(s, e, q)
  }

  lemma PickIsNearest(s: State, q: nat)
    requires Shape(s) && Pick(s.procs, s.rr).Some? && q < MaxProcs
    ensures Nearest(s, q) <==> Pick(s.procs, s.rr) == Some(q)
  {
    hide PickFrom, Dist;
    PickInTable(s.procs, s.rr, 0);
    var i := Pick(s.procs, s.rr).value;
    forall k | 0 <= k < MaxProcs && s.procs[k].status == Ready ensures Dist(s.rr, i) <= Dist(s.rr, k) {
      PickNearest(s.procs, s.rr, 0, k);
    }
    if Nearest(s, q) {
      DistApart(s.rr, i, q);
    }
  }

  lemma DistApart(rr: nat, p: nat, q: nat)
    requires rr < MaxProcs && p < MaxProcs && q < MaxProcs && Dist(rr, p) == Dist(rr, q)
    ensures p == q
  {
  }

  lemma LoopLives(s: State, e: Event, q: nat)
    requires Inv(s) && Loops(e) && LoopEnabled(s, e) && q < |s.procs|
    ensures Lives(s, e, q, LoopApply(s, e))
  {
    hide LockHeld, Hosts, Places, Jobs, Reapers, Resources, Owned, Cr3s, NoMissed, PickFrom, Nearest, Takers, Releases, TellsParent;
    if e.PickOne? {
      PickInTable(s.procs, s.rr, 0);
      PickIsNearest(s, q);
    }
  }

  lemma ReapLives(s: State, e: Event, q: nat)
    requires Inv(s) && Reaps(e) && ReapEnabled(s, e) && q < |s.procs|
    ensures Lives(s, e, q, ReapApply(s, e))
  {
    hide LockHeld, Places, Hosts, Jobs, Resources, Owned, Cr3s, NoMissed, Nearest;
  }

  lemma SectionLives(s: State, e: Event, q: nat)
    requires Inv(s) && Sections(e) && SectionEnabled(s, e) && q < |s.procs|
    ensures Lives(s, e, q, SectionApply(s, e))
  {
    hide LockHeld, Places, Hosts, Jobs, Reapers, Resources, Owned, Cr3s, NoMissed, Nearest, Takers, Releases, TellsParent;
  }

  lemma LeaveLives(s: State, e: Event, q: nat)
    requires Inv(s) && Kin(s) && Leaves(e) && LeaveEnabled(s, e) && q < |s.procs|
    ensures Lives(s, e, q, LeaveApply(s, e))
  {
    hide LockHeld, Hosts, Jobs, Reapers, Resources, Owned, Cr3s, NoMissed, Nearest, Takes, Takers, Releases;
    assert PlaceOk(s, e.c);
    assert s.procs[e.p].status == Running;
  }

  lemma FoundLives(s: State, e: Event, q: nat)
    requires Inv(s) && e.WaitFound? && WaitEnabled(s, e) && q < |s.procs|
    ensures Lives(s, e, q, WaitApply(s, e))
  {
    hide LockHeld, Hosts, Jobs, Reapers, Resources, Owned, Cr3s, NoMissed, Nearest, FindZombie, Releases, TellsParent;
    assert PlaceOk(s, e.c);
    FirstZombie(s.procs, e.p, s.procs[e.p].job.t, 0);
  }

  lemma WaitLives(s: State, e: Event, q: nat)
    requires Inv(s) && Waits(e) && WaitEnabled(s, e) && q < |s.procs|
    ensures Lives(s, e, q, WaitApply(s, e))
  {
    hide LockHeld, Hosts, Jobs, Reapers, Resources, Owned, Cr3s, NoMissed, Nearest, FindZombie, HasStopped, HasChild, Releases, TellsParent, Takes;
    if e.WaitFound? {
      FoundLives(s, e, q);
    } else if e.WaitSleep? {
      assert PlaceOk(s, e.c);
    }
  }

  lemma MakeLives(s: State, e: Event, q: nat)
    requires Inv(s) && Makes(e) && MakeEnabled(s, e) && q < |s.procs|
    ensures Lives(s, e, q, MakeApply(s, e))
  {
    hide LockHeld, Reapers, Resources, Owned, Cr3s, NoMissed, Nearest, Hosts, Takes, Takers, Releases, TellsParent;
    assert PlaceOk(s, e.c);
    assert JobOk(s, e.p);
  }

  lemma JobIs(s: State, p: nat)
    requires Jobs(s) && p < |s.procs|
    ensures JobOk(s, p)
  {
  }

  lemma DropLives(s: State, e: Event, q: nat)
    requires Inv(s) && Drops(e) && DropEnabled(s, e) && q < |s.procs|
    ensures Lives(s, e, q, DropApply(s, e))
  {
    hide LockHeld, Reapers, Resources, Owned, Cr3s, NoMissed, Nearest, Hosts, Places, Takes, Jobs, Takers, TellsParent;
    JobIs(s, e.p);
  }

  lemma SpaceLives(s: State, e: Event, q: nat)
    requires Inv(s) && Spaces(e) && SpaceEnabled(s, e) && q < |s.procs|
    ensures Lives(s, e, q, SpaceApply(s, e))
  {
    hide LockHeld, Places, Hosts, Jobs, Reapers, Resources, Owned, Cr3s, NoMissed, Nearest, Takers, Releases, TellsParent;
  }

  /** Every change of a process's state, parent or pid, in every step: a slot is taken only when free, a
      process runs only when chosen as the nearest READY one and leaves the CPU only by its own step, a
      BLOCKED process wakes exactly when it is told, and a zombie goes to its parent or, as an orphan, to
      the reaper. */
  lemma LifeCycle(s: State, e: Event, q: nat)
    requires Inv(s) && Kin(s) && Enabled(s, e) && q < |s.procs|
    ensures Lives(s, e, q, Apply(s, e))
  {
    hide Safe, NoMissed, Kin, Lives, LoopApply, LoopEnabled, ReapApply, ReapEnabled, SectionApply, SectionEnabled, LeaveApply, LeaveEnabled,
         WaitApply, WaitEnabled, MakeApply, MakeEnabled, DropApply, DropEnabled, SpaceApply, SpaceEnabled;
    if Loops(e) {
      LoopLives(s, e, q);
    } else if Reaps(e) {
      ReapLives(s, e, q);
    } else if Sections(e) {
      SectionLives(s, e, q);
    } else if Leaves(e) {
      LeaveLives(s, e, q);
    } else if Waits(e) {
      WaitLives(s, e, q);
    } else if Makes(e) {
      MakeLives(s, e, q);
    } else if Drops(e) {
      DropLives(s, e, q);
    } else {
      SpaceLives(s, e, q);
    }
  }

  /** Whoever waits for a pid waits for one process: no pid is ever used by two slots. */
  lemma StepKin(s: State, e: Event)
    requires Inv(s) && Kin(s) && Enabled(s, e)
    ensures Kin(Apply(s, e))
  {
    hide LockHeld, Hosts, Places, Jobs, Reapers, Resources, Owned, Cr3s, NoMissed, Enabled, Apply, StatusAfter;
    StepInv(s, e);
    StepPids(s, e, Apply(s, e));
    forall q | 0 <= q < |s.procs| ensures Given(s, e, q, Apply(s, e)) {
      LifeCycle(s, e, q);
      Taken(s, e, q);
    }
    KinFrame(s, e, Apply(s, e));
  }

  ghost predicate Given(s: State, e: Event, q: nat, t: State)
    requires q < |s.procs|
  {
    && |t.procs| == |s.procs|
    && t.procs[q].parent == ParentAfter(s, e, q) && t.procs[q].pid == PidAfter(s, e, q)
    && (s.procs[q].status == Unused ==> t.procs[q].status == Unused || (e.Alloc? && e.q == q))
  }

  lemma KinFrame(s: State, e: Event, t: State)
    requires Kin(s) && |t.procs| == |s.procs|
    requires forall q :: 0 <= q < |s.procs| ==> Given(s, e, q, t)
    requires t.nextPid == s.nextPid + (if e.Alloc? then 1 else 0) && (e.Alloc? ==> e.p != e.q)
    ensures Kin(t)
  {
    assert forall q :: 0 <= q < |s.procs| && t.procs[q].status != Unused ==> Given(s, e, q, t);
    forall p, q | 0 <= p < q < |t.procs| && t.procs[p].status != Unused && t.procs[q].status != Unused
      ensures t.procs[p].pid != t.procs[q].pid
    {
      assert Given(s, e, p, t) && Given(s, e, q, t);
    }
  }

  lemma Taken(s: State, e: Event, q: nat)
    requires Shape(s) && q < |s.procs|
    ensures s.procs[q].status == Unused ==> StatusAfter(s, e, q) == Unused || (e.Alloc? && e.q == q)
  {
    hide Nearest, Takers, Releases, TellsParent;
  }

  lemma StepPids(s: State, e: Event, t: State)
    requires Inv(s) && Enabled(s, e) && t == Apply(s, e)
    ensures t.nextPid == s.nextPid + (if e.Alloc? then 1 else 0)
    ensures e.Alloc? ==> e.p != e.q
  {
    hide LockHeld, Hosts, Jobs, Reapers, Resources, Owned, Cr3s, NoMissed, LoopApply, LoopEnabled, ReapApply, ReapEnabled, SectionApply,
         SectionEnabled, LeaveApply, LeaveEnabled, WaitApply, WaitEnabled, DropApply, DropEnabled, SpaceApply, SpaceEnabled;
    if Makes(e) {
      assert PlaceOk(s, e.c);
    } else {
      OtherPids(s, e, t);
    }
  }

  lemma OtherPids(s: State, e: Event, t: State)
    requires Shape(s) && Enabled(s, e) && t == Apply(s, e) && !Makes(e)
    ensures t.nextPid == s.nextPid
  {
    hide PickFrom, FindZombie, MakeApply, MakeEnabled;
    PickInTable(s.procs, s.rr, 0);
  }

  // ---- Nothing leaks ----

  /** The address space belongs to a process, or to an operation that has yet to install or destroy it. */
  ghost predicate SpaceOwned(s: State, a: nat) {
    exists p :: 0 <= p < |s.procs| && (s.procs[p].mm == Some(a) || Carried(s.procs[p].job) == Some(a))
  }

  /** Somebody is at work on the slot: its creator, its parent, or the reaper of orphans. */
  ghost predicate SlotOwned(s: State, q: nat) {
    || (exists p :: 0 <= p < |s.procs| && WorksOn(s.procs[p].job, q))
    || (exists c :: 0 <= c < |s.cpus| && CleansUp(s.cpus[c].place, q))
  }

  predicate WorksOn(j: Job, q: nat) {
    (j.Create? || j.Reap?) && j.q == q
  }

  predicate CleansUp(x: Place, q: nat) {
    x.Reaping? && x.i == q
  }

  predicate Limbo(x: Status) {
    x == Dead || x == Embryo
  }

  /** No address space is lost before it is destroyed, and no slot that is neither free nor in use. */
  ghost predicate NoLeak(s: State) {
    && (forall a :: a in s.live ==> SpaceOwned(s, a))
    && (forall q :: 0 <= q < |s.procs| && Limbo(s.procs[q].status) ==> SlotOwned(s, q))
  }

  lemma SpacesSpace(s: State, e: Event, a: nat)
    requires Inv(s) && Spaces(e) && SpaceEnabled(s, e) && (a in s.live ==> SpaceOwned(s, a)) && a in SpaceApply(s, e).live
    ensures SpaceOwned(SpaceApply(s, e), a)
  {
    hide LockHeld, Places, Hosts, Jobs, Reapers, Resources, Owned, Cr3s, NoMissed;
    var t := SpaceApply(s, e);
    assert t.procs[e.p] == t.procs[e.p];
    if a in s.live {
      var p :| 0 <= p < |s.procs| && (s.procs[p].mm == Some(a) || Carried(s.procs[p].job) == Some(a));
      assert t.procs[p] == t.procs[p];
    }
  }

  lemma SpaceFrame(s: State, t: State, a: nat)
    requires SpaceOwned(s, a) && |t.procs| == |s.procs|
    requires forall p :: 0 <= p < |s.procs| ==> s.procs[p].mm != Some(a) || t.procs[p].mm == Some(a)
    requires forall p :: 0 <= p < |s.procs| ==> Carried(s.procs[p].job) != Some(a) || Carried(t.procs[p].job) == Some(a)
    ensures SpaceOwned(t, a)
  {
    hide Carried;
    var p :| 0 <= p < |s.procs| && (s.procs[p].mm == Some(a) || Carried(s.procs[p].job) == Some(a));
    assert t.procs[p] == t.procs[p];
  }

  lemma LoopsSpace(s: State, e: Event, a: nat)
    requires Inv(s) && Loops(e) && LoopEnabled(s, e) && SpaceOwned(s, a)
    ensures SpaceOwned(LoopApply(s, e), a)
  {
    hide LockHeld, Places, Hosts, Jobs, Reapers, Resources, Owned, Cr3s, NoMissed, PickFrom, SpaceOwned;
    PickInTable(s.procs, s.rr, 0);
    SpaceFrame(s, LoopApply(s, e), a);
  }

  lemma ReapsSpace(s: State, e: Event, a: nat)
    requires Inv(s) && Reaps(e) && ReapEnabled(s, e) && SpaceOwned(s, a) && a in ReapApply(s, e).live
    ensures SpaceOwned(ReapApply(s, e), a)
  {
    hide LockHeld, Places, Hosts, Jobs, Reapers, Resources, Owned, Cr3s, NoMissed, SpaceOwned;
    SpaceFrame(s, ReapApply(s, e), a);
  }

  lemma SectionsSpace(s: State, e: Event, a: nat)
    requires Inv(s) && Sections(e) && SectionEnabled(s, e) && SpaceOwned(s, a)
    ensures SpaceOwned(SectionApply(s, e), a)
  {
    hide LockHeld, Places, Hosts, Jobs, Reapers, Resources, Owned, Cr3s, NoMissed, SpaceOwned;
    SpaceFrame(s, SectionApply(s, e), a);
  }

  lemma LeavesSpace(s: State, e: Event, a: nat)
    requires Inv(s) && Leaves(e) && LeaveEnabled(s, e) && SpaceOwned(s, a)
    ensures SpaceOwned(LeaveApply(s, e), a)
  {
    hide LockHeld, Places, Hosts, Jobs, Reapers, Resources, Owned, Cr3s, NoMissed, SpaceOwned;
    SpaceFrame(s, LeaveApply(s, e), a);
  }

  lemma WaitsSpace(s: State, e: Event, a: nat)
    requires Inv(s) && Waits(e) && WaitEnabled(s, e) && SpaceOwned(s, a)
    ensures SpaceOwned(WaitApply(s, e), a)
  {
    hide LockHeld, Places, Hosts, Jobs, Reapers, Resources, Owned, Cr3s, NoMissed, SpaceOwned, FindZombie;
    SpaceFrame(s, WaitApply(s, e), a);
  }

  lemma MakesSpace(s: State, e: Event, a: nat)
    requires Inv(s) && Makes(e) && MakeEnabled(s, e) && (a in s.live ==> SpaceOwned(s, a)) && a in MakeApply(s, e).live
    ensures SpaceOwned(MakeApply(s, e), a)
  {
    hide LockHeld, Places, Hosts, Reapers, Owned, Cr3s, NoMissed, SpaceOwned;
    if a in s.live {
      SpaceFrame(s, MakeApply(s, e), a);
    } else {
      assert MakeApply(s, e).procs[s.procs[e.p].job.q].mm == Some(a);
      SpaceBy(MakeApply(s, e), s.procs[e.p].job.q, a);
    }
  }

  lemma SpaceBy(s: State, p: nat, a: nat)
    requires p < |s.procs| && s.procs[p].mm == Some(a)
    ensures SpaceOwned(s, a)
  {
  }

  lemma DropsSpace(s: State, e: Event, a: nat)
    requires Inv(s) && Drops(e) && DropEnabled(s, e) && SpaceOwned(s, a) && a in DropApply(s, e).live
    ensures SpaceOwned(DropApply(s, e), a)
  {
    hide LockHeld, Places, Hosts, Jobs, Reapers, Resources, Owned, Cr3s, NoMissed, SpaceOwned;
    SpaceFrame(s, DropApply(s, e), a);
  }

  lemma StepSpace(s: State, e: Event, a: nat)
    requires Inv(s) && Enabled(s, e) && (a in s.live ==> SpaceOwned(s, a)) && a in Apply(s, e).live
    ensures SpaceOwned(Apply(s, e), a)
  {
    hide LockHeld, Places, Hosts, Jobs, Reapers, Resources, Owned, Cr3s, NoMissed, SpaceOwned, PickFrom, FindZombie;
    if Loops(e) {
      LoopsSpace(s, e, a);
    } else if Reaps(e) {
      ReapsSpace(s, e, a);
    } else if Sections(e) {
      SectionsSpace(s, e, a);
    } else if Leaves(e) {
      LeavesSpace(s, e, a);
    } else if Waits(e) {
      WaitsSpace(s, e, a);
    } else if Makes(e) {
      MakesSpace(s, e, a);
    } else if Drops(e) {
      DropsSpace(s, e, a);
    } else {
      SpacesSpace(s, e, a);
    }
  }

  lemma SlotFrame(s: State, t: State, q: nat)
    requires SlotOwned(s, q) && |t.procs| == |s.procs| && |t.cpus| == |s.cpus|
    requires forall p :: 0 <= p < |s.procs| && WorksOn(s.procs[p].job, q) ==> WorksOn(t.procs[p].job, q)
    requires forall c :: 0 <= c < |s.cpus| && CleansUp(s.cpus[c].place, q) ==> CleansUp(t.cpus[c].place, q)
    ensures SlotOwned(t, q)
  {
    hide WorksOn, CleansUp;
  }

  lemma SlotByJob(s: State, p: nat, q: nat)
    requires p < |s.procs| && WorksOn(s.procs[p].job, q)
    ensures SlotOwned(s, q)
  {
  }

  lemma SlotByCpu(s: State, c: nat, q: nat)
    requires c < |s.cpus| && CleansUp(s.cpus[c].place, q)
    ensures SlotOwned(s, q)
  {
  }

  lemma LoopsSlot(s: State, e: Event, q: nat)
    requires Inv(s) && Loops(e) && LoopEnabled(s, e) && q < |s.procs| && (Limbo(s.procs[q].status) ==> SlotOwned(s, q))
    ensures var t := LoopApply(s, e); |t.procs| == |s.procs| && (Limbo(t.procs[q].status) ==> SlotOwned(t, q))
  {
    hide LockHeld, Hosts, Reapers, Resources, Owned, Cr3s, NoMissed, Places, Jobs, PickFrom, SlotOwned;
    PickInTable(s.procs, s.rr, 0);
    if Limbo(s.procs[q].status) {
      SlotFrame(s, LoopApply(s, e), q);
    }
  }

  lemma ReapsSlot(s: State, e: Event, q: nat)
    requires Inv(s) && Reaps(e) && ReapEnabled(s, e) && q < |s.procs| && (Limbo(s.procs[q].status) ==> SlotOwned(s, q))
    ensures var t := ReapApply(s, e); |t.procs| == |s.procs| && (Limbo(t.procs[q].status) ==> SlotOwned(t, q))
  {
    hide LockHeld, Hosts, Reapers, Resources, Owned, Cr3s, NoMissed, Places, Jobs, SlotOwned;
    if e.TakeOrphan? && s.cpus[e.c].place.i == q {
      SlotByCpu(ReapApply(s, e), e.c, q);
    } else if Limbo(s.procs[q].status) && !(e.ReaperSlot? && s.cpus[e.c].place.i == q) {
      SlotFrame(s, ReapApply(s, e), q);
    }
  }

  lemma SectionsSlot(s: State, e: Event, q: nat)
    requires Inv(s) && Sections(e) && SectionEnabled(s, e) && q < |s.procs| && (Limbo(s.procs[q].status) ==> SlotOwned(s, q))
    ensures var t := SectionApply(s, e); |t.procs| == |s.procs| && (Limbo(t.procs[q].status) ==> SlotOwned(t, q))
  {
    hide LockHeld, Hosts, Reapers, Resources, Owned, Cr3s, NoMissed, Places, Jobs, SlotOwned;
    if Limbo(s.procs[q].status) {
      SlotFrame(s, SectionApply(s, e), q);
    }
  }

  lemma LeavesSlot(s: State, e: Event, q: nat)
    requires Inv(s) && Leaves(e) && LeaveEnabled(s, e) && q < |s.procs| && (Limbo(s.procs[q].status) ==> SlotOwned(s, q))
    ensures var t := LeaveApply(s, e); |t.procs| == |s.procs| && (Limbo(t.procs[q].status) ==> SlotOwned(t, q))
  {
    hide LockHeld, Hosts, Reapers, Resources, Owned, Cr3s, NoMissed, Places, Jobs, SlotOwned;
    if Limbo(s.procs[q].status) {
      SlotFrame(s, LeaveApply(s, e), q);
    }
  }

  lemma WaitsSlot(s: State, e: Event, q: nat)
    requires Inv(s) && Waits(e) && WaitEnabled(s, e) && q < |s.procs| && (Limbo(s.procs[q].status) ==> SlotOwned(s, q))
    ensures var t := WaitApply(s, e); |t.procs| == |s.procs| && (Limbo(t.procs[q].status) ==> SlotOwned(t, q))
  {
    hide LockHeld, Hosts, Reapers, Resources, Owned, Cr3s, NoMissed, Places, Jobs, SlotOwned, FindZombie;
    if e.WaitFound? && FindZombie(s.procs, e.p, s.procs[e.p].job.t, 0).value == q {
      SlotByJob(WaitApply(s, e), e.p, q);
    } else if Limbo(s.procs[q].status) {
      SlotFrame(s, WaitApply(s, e), q);
    }
  }

  lemma MakesSlot(s: State, e: Event, q: nat)
    requires Inv(s) && Makes(e) && MakeEnabled(s, e) && q < |s.procs| && (Limbo(s.procs[q].status) ==> SlotOwned(s, q))
    ensures var t := MakeApply(s, e); |t.procs| == |s.procs| && (Limbo(t.procs[q].status) ==> SlotOwned(t, q))
  {
    hide LockHeld, Hosts, Reapers, Owned, Cr3s, NoMissed, SlotOwned;
    if e.Alloc? && e.q == q {
      SlotByJob(MakeApply(s, e), e.p, q);
    } else if Limbo(s.procs[q].status) && !(e.MakeReady? && s.procs[e.p].job.q == q) {
      SlotFrame(s, MakeApply(s, e), q);
    }
  }

  lemma DropsSlot(s: State, e: Event, q: nat)
    requires Inv(s) && Drops(e) && DropEnabled(s, e) && q < |s.procs| && (Limbo(s.procs[q].status) ==> SlotOwned(s, q))
    ensures var t := DropApply(s, e); |t.procs| == |s.procs| && (Limbo(t.procs[q].status) ==> SlotOwned(t, q))
  {
    hide LockHeld, Hosts, Reapers, Resources, Owned, Cr3s, NoMissed, Places, Jobs, SlotOwned;
    if Limbo(s.procs[q].status) && !(e.DropSlot? && s.procs[e.p].job.q == q) {
      SlotFrame(s, DropApply(s, e), q);
    }
  }

  lemma SpacesSlot(s: State, e: Event, q: nat)
    requires Inv(s) && Spaces(e) && SpaceEnabled(s, e) && q < |s.procs| && (Limbo(s.procs[q].status) ==> SlotOwned(s, q))
    ensures var t := SpaceApply(s, e); |t.procs| == |s.procs| && (Limbo(t.procs[q].status) ==> SlotOwned(t, q))
  {
    hide LockHeld, Hosts, Reapers, Resources, Owned, Cr3s, NoMissed, Places, Jobs, SlotOwned;
    if Limbo(s.procs[q].status) {
      SlotFrame(s, SpaceApply(s, e), q);
    }
  }

  lemma StepSlot(s: State, e: Event, q: nat)
    requires Inv(s) && Enabled(s, e) && q < |s.procs| && (Limbo(s.procs[q].status) ==> SlotOwned(s, q))
    ensures |Apply(s, e).procs| == |s.procs| && (Limbo(Apply(s, e).procs[q].status) ==> SlotOwned(Apply(s, e), q))
  {
    hide LockHeld, Places, Hosts, Jobs, Reapers, Resources, Owned, Cr3s, NoMissed, SlotOwned, PickFrom, FindZombie;
    if Loops(e) {
      LoopsSlot(s, e, q);
    } else if Reaps(e) {
      ReapsSlot(s, e, q);
    } else if Sections(e) {
      SectionsSlot(s, e, q);
    } else if Leaves(e) {
      LeavesSlot(s, e, q);
    } else if Waits(e) {
      WaitsSlot(s, e, q);
    } else if Makes(e) {
      MakesSlot(s, e, q);
    } else if Drops(e) {
      DropsSlot(s, e, q);
    } else {
      SpacesSlot(s, e, q);
    }
  }

  lemma StepNoLeak(s: State, e: Event)
    requires Inv(s) && Enabled(s, e) && NoLeak(s)
    ensures NoLeak(Apply(s, e))
  {
    hide LockHeld, Places, Hosts, Jobs, Reapers, Resources, Owned, Cr3s, NoMissed, SlotOwned, SpaceOwned, Limbo, Apply, Enabled;
    StepInv(s, e);
    forall a | a in Apply(s, e).live ensures SpaceOwned(Apply(s, e), a) {
      StepSpace(s, e, a);
    }
    forall q | 0 <= q < |s.procs| ensures Limbo(Apply(s, e).procs[q].status) ==> SlotOwned(Apply(s, e), q) {
      StepSlot(s, e, q);
    }
  }

  /** In every run from a table without leaks, nothing leaks and no pid is used twice. */
  lemma {:induction false} RunNoLeak(s: State, es: seq<Event>, t: State)
    requires Inv(s) && NoLeak(s) && Kin(s) && Run(s, es, t)
    ensures Inv(t) && NoLeak(t) && Kin(t)
    decreases |es|
  {
    hide Safe, NoMissed, Enabled, Apply, NoLeak, Kin;
    if es != [] {
      StepInv(s, es[0]);
      StepNoLeak(s, es[0]);
      StepKin(s, es[0]);
      RunNoLeak(Apply(s, es[0]), es[1..], t);
    }
  }

  /** Every address space belongs to a slot that is not free: when the processes are gone so is their memory. */
  lemma NoneWithoutProcess(s: State, a: nat)
    requires Inv(s) && NoLeak(s) && a in s.live
    ensures exists p :: 0 <= p < |s.procs| && s.procs[p].status != Unused && (s.procs[p].mm == Some(a) || Carried(s.procs[p].job) == Some(a))
  {
    hide LockHeld, Places, Hosts, Reapers, Owned, Cr3s, NoMissed;
    var p :| 0 <= p < |s.procs| && (s.procs[p].mm == Some(a) || Carried(s.procs[p].job) == Some(a));
  }

  // ---- Going on ----

  /** What the code on the stack of `p` does next by itself; `found` says whether a zombie is there for it. */
  function OnStackNext(x: Proc, c: nat, p: nat, found: bool): Event {
    if x.at == Leave then SwitchOut(c, p)
    else if x.at == Held then
      (match x.job
       case Wait(_) => if found then WaitFound(c, p) else WaitNone(c, p)
       case Reap(_, FreeSlot) => DropSlot(c, p)
       case _ => Exit(c, p))
    else
      match x.job
      case Image(_) => DropImage(c, p)
      case Swap(_) => Reload(c, p)
      case Destroy(_) => DestroyOld(c, p)
      case Create(_) => GiveUp(c, p)
      case Reap(_, FreeStack) => DropStack(c, p)
      case Reap(_, FreeSpace) => DropSpace(c, p)
      case _ => Enter(c, p)
  }

  /** What CPU `c` does next by itself. */
  function NextOf(s: State, c: nat): Event
    requires Shape(s) && c < |s.cpus|
  {
    match s.cpus[c].place
    case Loop => TakeLock(c)
    case Look => if Pick(s.procs, s.rr).Some? then PickOne(c) else PickNone(c)
    case Chosen(_) => LoadCr3(c)
    case Loaded(_) => SwitchIn(c)
    case Away(p) =>
      if p < |s.procs| then
        OnStackNext(s.procs[p], c, p, s.procs[p].job.Wait? && FindZombie(s.procs, p, s.procs[p].job.t, 0).Some?)
      else KernelCr3(c)
    case Returned(_) => KernelCr3(c)
    case Clean => Unlock(c)
    case Orphans(i) => if i < MaxProcs && IsOrphan(s, i) then TakeOrphan(c) else NotOrphan(c)
    case Reaping(_, FreeStack) => ReaperStack(c)
    case Reaping(_, FreeSpace) => ReaperSpace(c)
    case Reaping(_, FreeSlot) => ReaperSlot(c)
  }

  lemma AwayProceeds(s: State, c: nat)
    requires Inv(s) && c < |s.cpus| && s.cpus[c].place.Away? && (s.lock == None || s.lock == Some(c))
    ensures Enabled(s, NextOf(s, c))
  {
    hide Reapers, Resources, Owned, Cr3s, NoMissed, Hosts, FindZombie;
    assert PlaceOk(s, c);
    assert JobOk(s, s.cpus[c].place.p);
    assert Holds(s, c) ==> s.lock == Some(c);
  }

  lemma LoopProceeds(s: State, c: nat)
    requires Inv(s) && c < |s.cpus| && !s.cpus[c].place.Away? && (s.lock == None || s.lock == Some(c))
    requires s.cpus[c].place == Loop || s.cpus[c].place.Orphans? || s.cpus[c].place.Reaping? ==> s.lock == None
    ensures Enabled(s, NextOf(s, c))
  {
    hide Resources, Owned, Cr3s, NoMissed, Hosts, Jobs, LockHeld;
    assert PlaceOk(s, c);
  }

  /** A CPU can always go on, unless it waits for proc_lock that another holds; and the CPU that holds it
      never waits, so some CPU can go on in every reachable state. */
  lemma NoDeadlock(s: State, c: nat)
    requires Inv(s) && c < |s.cpus|
    ensures s.lock == None || s.lock == Some(c) ==> Enabled(s, NextOf(s, c))
    ensures exists d :: 0 <= d < |s.cpus| && Enabled(s, NextOf(s, d))
  {
    hide Reapers, Resources, Owned, Cr3s, NoMissed, Hosts, Jobs, Places, Enabled, NextOf;
    var d := if s.lock.Some? then s.lock.value else c;
    assert Holds(s, d) || s.lock == None;
    if s.cpus[d].place.Away? {
      AwayProceeds(s, d);
    } else {
      LoopProceeds(s, d);
    }
  }

  /** CPU `c` runs process `p`, inside a critical section or outside. */
  ghost predicate Acts(s: State, c: nat, p: nat, inside: bool) {
    c < |s.cpus| && p < |s.procs| && s.cpus[c].place == Away(p) && s.procs[p].status == Running && (inside <==> s.lock == Some(c))
  }

  lemma ActsIs(s: State, c: nat, p: nat)
    requires Inv(s)
    ensures Acts(s, c, p, true) <==> Runs(s, c, p, Held)
    ensures Acts(s, c, p, false) <==> Runs(s, c, p, Code)
  {
    hide Reapers, Resources, Owned, Cr3s, NoMissed, Hosts, Jobs;
    if c < |s.cpus| && p < |s.procs| && s.cpus[c].place == Away(p) {
      assert PlaceOk(s, c);
      assert Holds(s, c) <==> s.lock == Some(c);
    }
  }

  /** Giving up the CPU needs proc_lock, and dying a process without memory and without unfinished work. */
  lemma LeaveChoices(s: State, c: nat, p: nat, id: nat)
    requires Inv(s)
    ensures Enabled(s, Yield(c, p)) <==> Acts(s, c, p, true) && !s.procs[p].job.Wait?
    ensures Enabled(s, Sleep(c, p, id)) <==> Acts(s, c, p, true) && !s.procs[p].job.Wait?
    ensures Enabled(s, Stop(c, p)) <==> Acts(s, c, p, true) && !s.procs[p].job.Wait?
    ensures Enabled(s, Die(c, p)) <==> Acts(s, c, p, true) && s.procs[p].job == Nothing && s.procs[p].mm == None
    ensures Enabled(s, Sleep(c, p, id)) ==> Apply(s, Sleep(c, p, id)).procs[p].chan == Other(id)
  {
    hide LockHeld, Places, Hosts, Jobs, Reapers, Resources, Owned, Cr3s, NoMissed, Acts;
    ActsIs(s, c, p);
  }

  /** Whoever holds proc_lock, on a process's stack or in the scheduler loop, may wake a process that is
      BLOCKED or STOPPED, and no other. */
  lemma WakeChoices(s: State, c: nat, q: nat)
    requires Inv(s)
    ensures Enabled(s, Notify(c, q)) <==>
              && c < |s.cpus| && s.lock == Some(c) && q < |s.procs| && (s.procs[q].status == Blocked || s.procs[q].status == Stopped)
              && (s.cpus[c].place == Look || (s.cpus[c].place.Away? && Acts(s, c, s.cpus[c].place.p, true)))
  {
    hide LockHeld, Places, Hosts, Jobs, Reapers, Resources, Owned, Cr3s, NoMissed, Acts;
    if c < |s.cpus| && s.cpus[c].place.Away? {
      ActsIs(s, c, s.cpus[c].place.p);
    }
  }

  /** A process without unfinished work may wait, claim any free slot, or load a new image. */
  lemma WorkChoices(s: State, c: nat, p: nat, t: Target, q: nat, a: nat)
    requires Inv(s)
    ensures Enabled(s, WaitCall(c, p, t)) <==> Acts(s, c, p, false) && s.lock == None && s.procs[p].job == Nothing
    ensures Enabled(s, Alloc(c, p, q)) <==> Acts(s, c, p, true) && s.procs[p].job == Nothing && q < MaxProcs && s.procs[q].status == Unused
    ensures Enabled(s, NewImage(c, p, a)) <==> Acts(s, c, p, false) && s.procs[p].job == Nothing && a !in s.live
    ensures Enabled(s, Install(c, p)) <==> Acts(s, c, p, true) && s.procs[p].job.Image?
    ensures Enabled(s, Detach(c, p)) <==> Acts(s, c, p, true) && s.procs[p].job == Nothing && s.procs[p].mm.Some?
  {
    hide LockHeld, Places, Hosts, Jobs, Reapers, Resources, Owned, Cr3s, NoMissed, Acts, FindZombie;
    ActsIs(s, c, p);
  }

  /** A wait is for the pid that was asked for, with proc_lock held. */
  lemma WaitBegins(s: State, c: nat, p: nat, t: Target, u: State)
    requires Shape(s) && Enabled(s, WaitCall(c, p, t)) && u == Apply(s, WaitCall(c, p, t))
    ensures p < |s.procs| && u == s.(procs := s.procs[p := s.procs[p].(at := Held, job := Wait(t))], lock := Some(c))
  {
    hide FindZombie;
  }

  /** The slot being created is given a stack, then an address space if it is to have one, and can be made
      READY as soon as it has a stack; or it is given up, and then released. */
  lemma BirthChoices(s: State, c: nat, p: nat, a: nat)
    requires Inv(s) && p < |s.procs| && s.procs[p].job.Create?
    ensures s.procs[p].job.q < |s.procs|
    ensures var x := s.procs[s.procs[p].job.q];
            && (Enabled(s, GiveStack(c, p)) <==> Acts(s, c, p, false) && !x.stack)
            && (Enabled(s, GiveSpace(c, p, a)) <==> Acts(s, c, p, false) && x.stack && x.mm == None && a !in s.live)
            && (Enabled(s, MakeReady(c, p)) <==> Acts(s, c, p, true) && x.stack)
    ensures var q := s.procs[p].job.q;
            && (Enabled(s, GiveStack(c, p)) ==> Apply(s, GiveStack(c, p)) == s.(procs := s.procs[q := s.procs[q].(stack := true)]))
            && (Enabled(s, GiveSpace(c, p, a)) ==>
                  Apply(s, GiveSpace(c, p, a)) == s.(procs := s.procs[q := s.procs[q].(mm := Some(a))], live := s.live + {a}))
    ensures Enabled(s, GiveUp(c, p)) <==> Acts(s, c, p, false)
    ensures Enabled(s, GiveUp(c, p)) ==>
              Apply(s, GiveUp(c, p)) == s.(procs := s.procs[p := s.procs[p].(job := Reap(s.procs[p].job.q, FreeStack))])
    ensures Enabled(s, MakeReady(c, p)) ==>
              var t := Apply(s, MakeReady(c, p));
              |t.procs| == |s.procs| && t.procs[p].job == Nothing && t.procs[s.procs[p].job.q].keeper == None
  {
    hide LockHeld, Places, Hosts, Reapers, Resources, Owned, Cr3s, NoMissed, Acts;
    ActsIs(s, c, p);
    assert JobOk(s, p);
  }

  /** proc_wait returns without a child when it has found no zombie, or a stopped child before one. */
  lemma WaitGivesUp(s: State, c: nat, p: nat)
    requires Inv(s) && p < |s.procs| && s.procs[p].job.Wait?
    ensures var t := s.procs[p].job.t;
            Enabled(s, WaitNone(c, p)) <==>
              Acts(s, c, p, true)
              && ((forall y :: 0 <= y < |s.procs| ==> !Takes(s.procs[y], p, t))
                  || exists y :: 0 <= y < |s.procs| && s.procs[y].status == Stopped && s.procs[y].parent == Of(p) && (t.Pid? ==> s.procs[y].pid == t.pid))
    ensures Enabled(s, WaitNone(c, p)) ==> Apply(s, WaitNone(c, p)).procs[p].job == Nothing && Apply(s, WaitNone(c, p)).lock == None
  {
    hide LockHeld, Places, Hosts, Jobs, Reapers, Resources, Owned, Cr3s, NoMissed, Acts, FindZombie;
    ActsIs(s, c, p);
    FirstZombie(s.procs, p, s.procs[p].job.t, 0);
    StoppedIs(s.procs, p, s.procs[p].job.t);
  }

  lemma StoppedIs(procs: seq<Proc>, p: nat, t: Target)
    ensures HasStopped(procs, p, t) <==>
              exists y :: 0 <= y < |procs| && procs[y].status == Stopped && procs[y].parent == Of(p) && (t.Pid? ==> procs[y].pid == t.pid)
  {
  }

  /** A slot is released in three steps, first its stack, then its memory, then the slot. */
  lemma ReleaseSteps(s: State, e: Event)
    requires Inv(s) && Drops(e) && Enabled(s, e)
    ensures e.p < |s.procs| && s.procs[e.p].job.Reap? && s.procs[e.p].job.q < |s.procs| && |Apply(s, e).procs| == |s.procs|
    ensures var q, t := s.procs[e.p].job.q, Apply(s, e);
            && (s.procs[e.p].job.stage == FreeStack ==> e.DropStack? && t.procs[e.p].job == Reap(q, FreeSpace) && !t.procs[q].stack)
            && (s.procs[e.p].job.stage == FreeSpace ==> e.DropSpace? && t.procs[e.p].job == Reap(q, FreeSlot) && t.procs[q].mm == None)
            && (s.procs[e.p].job.stage == FreeSlot ==> e.DropSlot? && t.procs[e.p].job == Nothing && t.procs[q].keeper == None)
            && t.live == if e.DropSpace? && s.procs[q].mm.Some? then s.live - {s.procs[q].mm.value} else s.live
  {
    hide LockHeld, Places, Hosts, Reapers, Resources, Owned, Cr3s, NoMissed;
    assert JobOk(s, e.p);
  }

  lemma ReaperSteps(s: State, e: Event)
    requires Inv(s) && Reaps(e) && Enabled(s, e) && s.cpus[e.c].place.Reaping?
    ensures s.cpus[e.c].place.i < |s.procs| && |Apply(s, e).procs| == |s.procs| && |Apply(s, e).cpus| == |s.cpus|
    ensures var i, g, t := s.cpus[e.c].place.i, s.cpus[e.c].place.stage, Apply(s, e);
            && (g == FreeStack ==> e.ReaperStack? && t.cpus[e.c].place == Reaping(i, FreeSpace) && !t.procs[i].stack)
            && (g == FreeSpace ==> e.ReaperSpace? && t.cpus[e.c].place == Reaping(i, FreeSlot) && t.procs[i].mm == None)
            && (g == FreeSlot ==> e.ReaperSlot? && !t.cpus[e.c].place.Reaping? && t.procs[i].keeper == None)
            && t.live == if e.ReaperSpace? && s.procs[i].mm.Some? then s.live - {s.procs[i].mm.value} else s.live
  {
    hide LockHeld, Places, Hosts, Jobs, Resources, Owned, Cr3s, NoMissed;
  }

  /** exec and exit change address spaces in three steps: the new one takes its place, then goes to CR3,
      and only then is the old one destroyed. */
  lemma SwapSteps(s: State, e: Event)
    requires Inv(s) && Spaces(e) && Enabled(s, e)
    ensures e.p < |s.procs| && e.c < |s.cpus| && |Apply(s, e).procs| == |s.procs| && |Apply(s, e).cpus| == |s.cpus|
    ensures var x, y, t := s.procs[e.p], Apply(s, e).procs[e.p], Apply(s, e);
            && (e.NewImage? ==> y == x.(job := Image(e.a)) && t.live == s.live + {e.a})
            && (e.DropImage? ==> x.job.Image? && y == x.(job := Nothing) && t.live == s.live - {x.job.a})
            && (e.Install? ==> x.job.Image? && y == x.(at := Code, mm := Some(x.job.a), job := Swap(x.mm)) && t.live == s.live)
            && (e.Detach? ==> y == x.(at := Code, mm := None, job := Swap(x.mm)) && t.live == s.live)
            && (e.Reload? ==> x.job.Swap? && t.cpus[e.c].cr3 == x.mm && t.live == s.live
                              && y == x.(job := if x.job.prev.Some? then Destroy(x.job.prev.value) else Nothing))
            && (e.DestroyOld? ==> x.job.Destroy? && y == x.(job := Nothing) && t.live == s.live - {x.job.gone})
  {
    hide LockHeld, Places, Hosts, Jobs, Reapers, Resources, Owned, Cr3s, NoMissed;
  }

  /** reap_orphans looks at one slot after the other and then goes back to the loop. */
  lemma ReaperWalks(s: State, e: Event)
    requires Inv(s) && Enabled(s, e) && (e.NotOrphan? || e.ReaperSlot?)
    ensures e.c < |s.cpus| && |Apply(s, e).cpus| == |s.cpus| && (e.NotOrphan? ==> s.cpus[e.c].place.Orphans?) && (e.ReaperSlot? ==> s.cpus[e.c].place.Reaping?)
    ensures var i := s.cpus[e.c].place.i;
            Apply(s, e).cpus[e.c].place == if i < 63 then Orphans(i + 1) else Loop
  {
    hide LockHeld, Places, Hosts, Jobs, Reapers, Resources, Owned, Cr3s, NoMissed;
  }

  /** Only the boot CPU looks for orphans, and from the first slot on. */
  lemma ReaperStarts(s: State, c: nat)
    requires Inv(s) && Enabled(s, PickNone(c))
    ensures c < |s.cpus| && |Apply(s, PickNone(c)).cpus| == |s.cpus|
    ensures Apply(s, PickNone(c)).cpus[c].place == if c == 0 then Orphans(0) else Loop
    ensures forall q :: 0 <= q < |s.procs| ==> s.procs[q].status != Ready
  {
    hide LockHeld, Places, Hosts, Jobs, Reapers, Resources, Owned, Cr3s, NoMissed, PickFrom;
    forall q | 0 <= q < |s.procs| ensures s.procs[q].status != Ready {
      if s.procs[q].status == Ready {
        PickNearest(s.procs, s.rr, 0, q);
      }
    }
  }
}

/** Whole runs of the scheduler: safety in every reachable state, nothing freed while in use, and
    round-robin fairness. */
module SchedRuns {
  import opened Sched
  import opened SchedSafe

  // ---- Every step ----

  lemma LoopInv(s: State, e: Event)
    requires Inv(s) && Loops(e) && LoopEnabled(s, e)
    ensures Inv(LoopApply(s, e))
  {
    hide LockHeld, Places, Hosts, Jobs, Reapers, Resources, Owned, Cr3s, NoMissed, LoopApply, LoopEnabled;
    LoopLock(s, e);
    LoopPlaces(s, e);
    LoopHosts(s, e);
    LoopJobs(s, e);
    LoopReapers(s, e);
    LoopResources(s, e);
    LoopOwned(s, e);
    LoopCr3s(s, e);
    LoopMissed(s, e);
  }

  lemma ReapInv(s: State, e: Event)
    requires Inv(s) && Reaps(e) && ReapEnabled(s, e)
    ensures Inv(ReapApply(s, e))
  {
    hide LockHeld, Places, Hosts, Jobs, Reapers, Resources, Owned, Cr3s, NoMissed, ReapApply, ReapEnabled;
    ReapLock(s, e);
    ReapPlaces(s, e);
    ReapHosts(s, e);
    ReapJobs(s, e);
    ReapReapers(s, e);
    ReapResources(s, e);
    ReapOwned(s, e);
    ReapCr3s(s, e);
    ReapMissed(s, e);
  }

  lemma SectionInv(s: State, e: Event)
    requires Inv(s) && Sections(e) && SectionEnabled(s, e)
    ensures Inv(SectionApply(s, e))
  {
    hide LockHeld, Places, Hosts, Jobs, Reapers, Resources, Owned, Cr3s, NoMissed, SectionApply, SectionEnabled;
    SectionLock(s, e);
    SectionPlaces(s, e);
    SectionHosts(s, e);
    SectionJobs(s, e);
    SectionReapers(s, e);
    SectionResources(s, e);
    SectionOwned(s, e);
    SectionCr3s(s, e);
    SectionMissed(s, e);
  }

  lemma WaitInv(s: State, e: Event)
    requires Inv(s) && Waits(e) && WaitEnabled(s, e)
    ensures Inv(WaitApply(s, e))
  {
    hide LockHeld, Places, Hosts, Jobs, Reapers, Resources, Owned, Cr3s, NoMissed, WaitApply, WaitEnabled;
    WaitLock(s, e);
    WaitPlaces(s, e);
    WaitHosts(s, e);
    WaitJobs(s, e);
    WaitReapers(s, e);
    WaitResources(s, e);
    WaitOwned(s, e);
    WaitCr3s(s, e);
    WaitMissed(s, e);
  }

  lemma MakeInv(s: State, e: Event)
    requires Inv(s) && Makes(e) && MakeEnabled(s, e)
    ensures Inv(MakeApply(s, e))
  {
    hide LockHeld, Places, Hosts, Jobs, Reapers, Resources, Owned, Cr3s, NoMissed, MakeApply, MakeEnabled;
    MakeLock(s, e);
    MakePlaces(s, e);
    MakeHosts(s, e);
    MakeJobs(s, e);
    MakeReapers(s, e);
    MakeResources(s, e);
    MakeOwned(s, e);
    MakeCr3s(s, e);
    MakeMissed(s, e);
  }

  lemma DropInv(s: State, e: Event)
    requires Inv(s) && Drops(e) && DropEnabled(s, e)
    ensures Inv(DropApply(s, e))
  {
    hide LockHeld, Places, Hosts, Jobs, Reapers, Resources, Owned, Cr3s, NoMissed, DropApply, DropEnabled;
    DropLock(s, e);
    DropPlaces(s, e);
    DropHosts(s, e);
    DropJobs(s, e);
    DropReapers(s, e);
    DropResources(s, e);
    DropOwned(s, e);
    DropCr3s(s, e);
    DropMissed(s, e);
  }

  lemma SpaceInv(s: State, e: Event)
    requires Inv(s) && Spaces(e) && SpaceEnabled(s, e)
    ensures Inv(SpaceApply(s, e))
  {
    hide LockHeld, Places, Hosts, Jobs, Reapers, Resources, Owned, Cr3s, NoMissed, SpaceApply, SpaceEnabled;
    SpaceLock(s, e);
    SpacePlaces(s, e);
    SpaceHosts(s, e);
    SpaceJobs(s, e);
    SpaceReapers(s, e);
    SpaceResources(s, e);
    SpaceOwned(s, e);
    SpaceCr3s(s, e);
    SpaceMissed(s, e);
  }

  lemma StepInv(s: State, e: Event)
    requires Inv(s) && Enabled(s, e)
    ensures Inv(Apply(s, e))
  {
    hide Safe, NoMissed, LoopApply, LoopEnabled, ReapApply, ReapEnabled, SectionApply, SectionEnabled, LeaveApply, LeaveEnabled,
         WaitApply, WaitEnabled, MakeApply, MakeEnabled, DropApply, DropEnabled, SpaceApply, SpaceEnabled;
    if Loops(e) {
      LoopInv(s, e);
    } else if Reaps(e) {
      ReapInv(s, e);
    } else if Sections(e) {
      SectionInv(s, e);
    } else if Leaves(e) {
      LeaveSafe(s, e);
      LeaveMissed(s, e);
    } else if Waits(e) {
      WaitInv(s, e);
    } else if Makes(e) {
      MakeInv(s, e);
    } else if Drops(e) {
      DropInv(s, e);
    } else {
      SpaceInv(s, e);
    }
  }

  // ---- Runs ----

  /** The steps `es`, in order, lead from `s` to `t`. */
  ghost predicate Run(s: State, es: seq<Event>, t: State)
    decreases |es|
  {
    Shape(s) && if es == [] then s == t else Enabled(s, es[0]) && Run(Apply(s, es[0]), es[1..], t)
  }

  lemma {:induction false} RunInv(s: State, es: seq<Event>, t: State)
    requires Inv(s) && Run(s, es, t)
    ensures Inv(t)
    decreases |es|
  {
    hide Safe, NoMissed, Enabled, Apply;
    if es != [] {
      StepInv(s, es[0]);
      RunInv(Apply(s, es[0]), es[1..], t);
    }
  }

  // ---- What the invariant says about stacks and page tables ----

  /** CPU `c` executes on, or is about to switch to, the kernel stack of `p`. */
  predicate UsesStack(s: State, c: nat, p: nat) {
    c < |s.cpus| && (s.cpus[c].place == Away(p) || s.cpus[c].place == Loaded(p) || s.cpus[c].place == Chosen(p))
  }

  /** No stack is shared, a process that is not RUNNING is on a stack only under proc_lock, and the
      page table of a process is in CR3 only on its stack or, under proc_lock, beside the switch; there
      it is in CR3, unless the process has just replaced it. */
  ghost predicate Exclusive(s: State) {
    && (forall c: nat, d: nat, p: nat :: UsesStack(s, c, p) && UsesStack(s, d, p) ==> c == d)
    && (forall c: nat, p: nat :: UsesStack(s, c, p) ==> p < |s.procs| && s.procs[p].stack && s.cpus[c].cur == Some(p))
    && (forall c: nat, p: nat :: UsesStack(s, c, p) && s.procs[p].status != Running ==> s.cpus[c].place == Away(p) && s.lock == Some(c))
    && (forall p :: 0 <= p < |s.procs| && s.procs[p].status == Running ==> UsesStack(s, s.procs[p].cpu, p))
    && (forall c :: 0 <= c < |s.cpus| && s.cpus[c].cr3.Some? ==> s.cpus[c].cr3.value in s.live)
    && (forall c, p :: 0 <= c < |s.cpus| && 0 <= p < |s.procs| && s.cpus[c].cr3.Some? && s.procs[p].mm == s.cpus[c].cr3 ==>
          s.cpus[c].place == Away(p) || (s.lock == Some(c) && (s.cpus[c].place == Loaded(p) || s.cpus[c].place == Returned(p))))
    && (forall c, p :: 0 <= c < |s.cpus| && 0 <= p < |s.procs| && s.cpus[c].place == Away(p) ==>
          s.cpus[c].cr3 == s.procs[p].mm || s.procs[p].job == Swap(s.cpus[c].cr3))
    && (forall c :: 0 <= c < |s.cpus| && s.lock != Some(c) && !s.cpus[c].place.Away? ==> s.cpus[c].cr3 == None)
  }

  lemma InvStacks(s: State)
    requires Inv(s)
    ensures forall c: nat, d: nat, p: nat :: UsesStack(s, c, p) && UsesStack(s, d, p) ==> c == d
    ensures forall c: nat, p: nat :: UsesStack(s, c, p) ==> p < |s.procs| && s.procs[p].stack && s.cpus[c].cur == Some(p)
    ensures forall c: nat, p: nat :: UsesStack(s, c, p) && s.procs[p].status != Running ==> s.cpus[c].place == Away(p) && s.lock == Some(c)
    ensures forall p :: 0 <= p < |s.procs| && s.procs[p].status == Running ==> UsesStack(s, s.procs[p].cpu, p)
  {
    hide Owned, Cr3s, Jobs, Reapers, NoMissed;
    forall c: nat, p: nat | UsesStack(s, c, p)
      ensures p < |s.procs| && s.procs[p].cpu == c && s.procs[p].stack && s.cpus[c].cur == Some(p)
      ensures s.procs[p].status != Running ==> s.cpus[c].place == Away(p) && s.lock == Some(c)
    {
      assert PlaceOk(s, c);
      assert Holds(s, c) ==> s.lock == Some(c);
    }
  }

  lemma InvCr3(s: State)
    requires Inv(s)
    ensures forall c :: 0 <= c < |s.cpus| && s.cpus[c].cr3.Some? ==> s.cpus[c].cr3.value in s.live
    ensures forall c, p :: 0 <= c < |s.cpus| && 0 <= p < |s.procs| && s.cpus[c].cr3.Some? && s.procs[p].mm == s.cpus[c].cr3 ==>
              s.cpus[c].place == Away(p) || (s.lock == Some(c) && (s.cpus[c].place == Loaded(p) || s.cpus[c].place == Returned(p)))
  {
    hide Hosts, Jobs, Reapers, NoMissed;
    forall c | 0 <= c < |s.cpus| && s.cpus[c].cr3.Some?
      ensures s.cpus[c].cr3.value in s.live
      ensures forall p :: 0 <= p < |s.procs| && s.procs[p].mm == s.cpus[c].cr3 ==>
                s.cpus[c].place == Away(p) || (s.lock == Some(c) && (s.cpus[c].place == Loaded(p) || s.cpus[c].place == Returned(p)))
    {
      assert Cr3Ok(s, c);
      var g := Guest(s.cpus[c].place).value;
      assert s.procs[g].job == Swap(s.cpus[c].cr3) ==> Carried(s.procs[g].job) == s.cpus[c].cr3;
      assert Holds(s, c) ==> s.lock == Some(c);
    }
  }

  lemma InvOwnTable(s: State)
    requires Inv(s)
    ensures forall c, p :: 0 <= c < |s.cpus| && 0 <= p < |s.procs| && s.cpus[c].place == Away(p) ==>
              s.cpus[c].cr3 == s.procs[p].mm || s.procs[p].job == Swap(s.cpus[c].cr3)
    ensures forall c :: 0 <= c < |s.cpus| && s.lock != Some(c) && !s.cpus[c].place.Away? ==> s.cpus[c].cr3 == None
  {
    hide Hosts, Jobs, Reapers, NoMissed, Owned, Resources, Places;
    forall c | 0 <= c < |s.cpus|
      ensures forall p :: 0 <= p < |s.procs| && s.cpus[c].place == Away(p) ==>
                s.cpus[c].cr3 == s.procs[p].mm || s.procs[p].job == Swap(s.cpus[c].cr3)
      ensures s.lock != Some(c) && !s.cpus[c].place.Away? ==> s.cpus[c].cr3 == None
    {
      assert Cr3Ok(s, c);
      assert Holds(s, c) ==> s.lock == Some(c);
    }
  }

  /** A process asleep in proc_wait for pid n has no zombie child of that pid, and one asleep for any
      child has no zombie child at all. */
  ghost predicate NoneForgotten(s: State) {
    forall p, z :: 0 <= p < |s.procs| && 0 <= z < |s.procs| && s.procs[p].status == Blocked
                   && s.procs[z].status == Zombie && s.procs[z].parent == Of(p) ==>
                     s.procs[p].job != Wait(Any) && s.procs[p].job != Wait(Pid(s.procs[z].pid))
  }

  /** In every reachable state of every interleaving. */
  lemma RunExclusive(s: State, es: seq<Event>, t: State)
    requires Init(s) && Run(s, es, t)
    ensures Exclusive(t) && NoneForgotten(t)
  {
    hide Safe, Init, Run, UsesStack;
    InitInv(s);
    RunInv(s, es, t);
    InvStacks(t);
    InvCr3(t);
    InvOwnTable(t);
    forall p, z | 0 <= p < |t.procs| && 0 <= z < |t.procs| && t.procs[p].status == Blocked
                  && t.procs[z].status == Zombie && t.procs[z].parent == Of(p)
      ensures t.procs[p].job != Wait(Any) && t.procs[p].job != Wait(Pid(t.procs[z].pid))
    {
      assert !Awaits(t.procs[p], p, t.procs[z]);
    }
  }

  // ---- proc_wait, in terms of pids ----

  /** A child that a wait for `t` may take: of process `p`, a zombie, and of the pid asked for. */
  ghost predicate Takes(x: Proc, p: nat, t: Target) {
    x.status == Zombie && x.parent == Of(p) && match t { case Any => true case Pid(n) => x.pid == n }
  }

  /** proc_wait takes the first such child in the table, and that one only. */
  lemma WaitTakes(s: State, c: nat, p: nat, t: State)
    requires Inv(s) && Enabled(s, WaitFound(c, p)) && t == Apply(s, WaitFound(c, p))
    ensures |t.procs| == |s.procs| && p < |s.procs| && s.procs[p].job.Wait?
    ensures exists z :: 0 <= z < |s.procs| && Takes(s.procs[z], p, s.procs[p].job.t) && t.procs[z].status == Dead && t.procs[p].job == Reap(z, FreeStack)
              && (forall y :: 0 <= y < z ==> !Takes(s.procs[y], p, s.procs[p].job.t))
              && forall y :: 0 <= y < |s.procs| && y != z && y != p ==> t.procs[y] == s.procs[y]
  {
    hide Safe, NoMissed, FindZombie;
    var z := FindZombie(s.procs, p, s.procs[p].job.t, 0).value;
    FirstZombie(s.procs, p, s.procs[p].job.t, 0);
    assert Takes(s.procs[z], p, s.procs[p].job.t);
  }

  lemma {:induction false} FirstZombie(procs: seq<Proc>, p: nat, t: Target, i: nat)
    requires i <= |procs|
    ensures var r := FindZombie(procs, p, t, i);
            if r.Some? then i <= r.value < |procs| && Takes(procs[r.value], p, t) && forall y :: i <= y < r.value ==> !Takes(procs[y], p, t)
            else forall y :: i <= y < |procs| ==> !Takes(procs[y], p, t)
    decreases |procs| - i
  {
    if i < |procs| {
      FirstZombie(procs, p, t, i + 1);
    }
  }

  /** It sleeps, and (unless a stopped child was reported) returns without one, only when there is no
      such child; and it sleeps only when some child is of the pid asked for. */
  lemma WaitLeaves(s: State, e: Event)
    requires Inv(s) && Enabled(s, e) && (e.WaitSleep? || e.WaitNone?)
    ensures e.p < |s.procs| && s.procs[e.p].job.Wait?
    ensures e.WaitSleep? || (forall y :: 0 <= y < |s.procs| && s.procs[y].parent == Of(e.p) ==> s.procs[y].status != Stopped) ==>
              forall y :: 0 <= y < |s.procs| ==> !Takes(s.procs[y], e.p, s.procs[e.p].job.t)
    ensures e.WaitSleep? ==> exists y :: 0 <= y < |s.procs| && s.procs[y].status != Unused && s.procs[y].parent == Of(e.p)
                                          && (s.procs[e.p].job.t.Pid? ==> s.procs[y].pid == s.procs[e.p].job.t.pid)
    ensures e.WaitSleep? ==> Apply(s, e).procs[e.p].status == Blocked && Apply(s, e).procs[e.p].job == s.procs[e.p].job
  {
    hide Safe, NoMissed, FindZombie;
    FirstZombie(s.procs, e.p, s.procs[e.p].job.t, 0);
    if e.WaitSleep? {
      var y :| 0 <= y < |s.procs| && WaitedFor(s.procs[y], e.p, s.procs[e.p].job.t);
    }
  }

  /** While a zombie that the wait may take is there, proc_wait can take one. */
  lemma WaitFinds(s: State, c: nat, p: nat, z: nat)
    requires Inv(s) && Runs(s, c, p, Held) && s.procs[p].job.Wait? && z < |s.procs| && Takes(s.procs[z], p, s.procs[p].job.t)
    ensures Enabled(s, WaitFound(c, p)) && !Enabled(s, WaitSleep(c, p))
  {
    hide Safe, NoMissed, FindZombie;
    FirstZombie(s.procs, p, s.procs[p].job.t, 0);
  }

  predicate Frees(e: Event) {
    Reaps(e) || Makes(e) || Drops(e) || Spaces(e)
  }

  lemma OthersFreeNothing(s: State, e: Event, t: State)
    requires Shape(s) && Enabled(s, e) && t == Apply(s, e) && |t.procs| == |s.procs| && !Frees(e)
    ensures s.live <= t.live && forall p :: 0 <= p < |s.procs| && s.procs[p].stack ==> t.procs[p].stack
  {
    hide PickFrom, FindZombie, ReapApply, ReapEnabled, MakeApply, MakeEnabled, DropApply, DropEnabled, SpaceApply, SpaceEnabled;
    PickInTable(s.procs, s.rr, 0);
  }

  lemma OnlyFreeing(s: State, e: Event, t: State)
    requires Shape(s) && Enabled(s, e) && t == Apply(s, e) && |t.procs| == |s.procs|
    requires !(s.live <= t.live) || exists p :: 0 <= p < |s.procs| && s.procs[p].stack && !t.procs[p].stack
    ensures Frees(e)
  {
    hide Apply, Enabled, Frees;
    if !Frees(e) {
      OthersFreeNothing(s, e, t);
    }
  }

  /** A step that may free something moves no CPU to or from a process, or frees nothing. */
  lemma FreeingStep(s: State, e: Event, t: State)
    requires Shape(s) && Enabled(s, e) && t == Apply(s, e) && |t.procs| == |s.procs| && Frees(e)
    requires !(s.live <= t.live) || exists p :: 0 <= p < |s.procs| && s.procs[p].stack && !t.procs[p].stack
    ensures |t.cpus| == |s.cpus|
    ensures forall c :: 0 <= c < |s.cpus| ==> t.cpus[c] == s.cpus[c] || (s.cpus[c].place.Reaping? && t.cpus[c].cr3 == s.cpus[c].cr3)
  {
    hide LoopApply, LoopEnabled, SectionApply, SectionEnabled, LeaveApply, LeaveEnabled, WaitApply, WaitEnabled;
  }

  /** A step frees no stack that a CPU is on, switching to or just leaving, and no address space
      that is in a CR3. */
  lemma FreesNothingInUse(s: State, e: Event, t: State)
    requires Inv(s) && Enabled(s, e) && t == Apply(s, e)
    ensures |t.procs| == |s.procs|
    ensures forall p: nat, c: nat :: p < |s.procs| && s.procs[p].stack && !t.procs[p].stack ==>
              !UsesStack(s, c, p) && !(c < |s.cpus| && s.cpus[c].place == Returned(p))
    ensures forall a, c :: a in s.live && a !in t.live && 0 <= c < |s.cpus| ==> s.cpus[c].cr3 != Some(a)
  {
    hide Apply, Enabled, LockHeld, Hosts, Jobs, Reapers, Owned, Cr3s, NoMissed;
    StepInv(s, e);
    InvStacks(t);
    InvCr3(t);
    forall p: nat, c: nat | p < |s.procs| && s.procs[p].stack && !t.procs[p].stack
      ensures !UsesStack(s, c, p) && !(c < |s.cpus| && s.cpus[c].place == Returned(p))
    {
      OnlyFreeing(s, e, t);
      FreeingStep(s, e, t);
      if c < |s.cpus| {
        assert UsesStack(s, c, p) ==> UsesStack(t, c, p);
        assert PlaceOk(t, c);
      }
    }
    forall a, c | a in s.live && a !in t.live && 0 <= c < |s.cpus| ensures s.cpus[c].cr3 != Some(a) {
      OnlyFreeing(s, e, t);
      FreeingStep(s, e, t);
    }
  }

  // ---- Round robin ----

  /** How many slots the search visits before slot `q`. */
  function Dist(rr: nat, q: nat): (d: nat)
    requires rr < MaxProcs && q < MaxProcs
    ensures d < MaxProcs
  {
    if q >= rr then q - rr else q + MaxProcs - rr
  }

  /** The search finds the nearest READY slot, and nothing only when there is none. */
  lemma {:induction false} PickNearest(procs: seq<Proc>, rr: nat, n: nat, q: nat)
    requires |procs| == MaxProcs && rr < MaxProcs && q < MaxProcs && n <= Dist(rr, q) && procs[q].status == Ready
    ensures var r := PickFrom(procs, rr, n);
            r.Some? && r.value < MaxProcs && procs[r.value].status == Ready && n <= Dist(rr, r.value) <= Dist(rr, q)
    decreases MaxProcs - n
  {
    var i := (rr + n) % MaxProcs;
    assert Dist(rr, i) == n;
    if procs[i].status != Ready {
      assert Dist(rr, q) != n;
      PickNearest(procs, rr, n + 1, q);
    }
  }

  lemma DistNext(rr: nat, i: nat, q: nat)
    requires rr < MaxProcs && i < MaxProcs && q < MaxProcs && i != q && Dist(rr, i) <= Dist(rr, q)
    ensures Dist((i + 1) % MaxProcs, q) < Dist(rr, q)
  {
    if i + 1 < MaxProcs {
      assert (i + 1) % MaxProcs == i + 1;
    } else {
      assert (i + 1) % MaxProcs == 0;
    }
  }

  /** Choosing another process brings the search closer to one that is READY. */
  lemma PickCloser(procs: seq<Proc>, rr: nat, q: nat)
    requires |procs| == MaxProcs && rr < MaxProcs && q < MaxProcs && procs[q].status == Ready
    ensures var r := Pick(procs, rr);
            r.Some? && r.value < MaxProcs && (r.value != q ==> Dist((r.value + 1) % MaxProcs, q) < Dist(rr, q))
  {
    hide PickFrom, Dist;
    PickNearest(procs, rr, 0, q);
    var i := Pick(procs, rr).value;
    if i != q {
      DistNext(rr, i, q);
    }
  }

  ghost predicate StaysReady(s: State, es: seq<Event>, q: nat)
    requires q < MaxProcs
    decreases |es|
  {
    Shape(s) && s.procs[q].status == Ready && (es == [] || (Enabled(s, es[0]) && StaysReady(Apply(s, es[0]), es[1..], q)))
  }

  function Picks(es: seq<Event>): (n: nat) {
    if es == [] then 0 else (if es[0].PickOne? then 1 else 0) + Picks(es[1..])
  }

  lemma LoopRound(s: State, e: Event, t: State)
    requires Shape(s) && Loops(e) && LoopEnabled(s, e) && t == LoopApply(s, e) && |t.procs| == MaxProcs
    ensures !e.PickOne? ==> t.rr == s.rr
    ensures e.PickOne? ==> Pick(s.procs, s.rr).Some? && t.rr == (Pick(s.procs, s.rr).value + 1) % MaxProcs
    ensures e.PickOne? ==> Pick(s.procs, s.rr).value < MaxProcs && t.procs[Pick(s.procs, s.rr).value].status == Running
  {
    hide PickFrom;
    PickInTable(s.procs, s.rr, 0);
  }

  lemma FreeingRound(s: State, e: Event, t: State)
    requires Shape(s) && Enabled(s, e) && t == Apply(s, e) && Frees(e)
    ensures t.rr == s.rr
  {
    hide LoopApply, LoopEnabled, SectionApply, SectionEnabled, LeaveApply, LeaveEnabled, WaitApply, WaitEnabled;
  }

  lemma OtherRound(s: State, e: Event, t: State)
    requires Shape(s) && Enabled(s, e) && t == Apply(s, e) && !Loops(e) && !Frees(e)
    ensures t.rr == s.rr
  {
    hide WakeParent, DisownAll, LoopApply, LoopEnabled, FindZombie, ReapApply, ReapEnabled, MakeApply, MakeEnabled, DropApply, DropEnabled,
         SpaceApply, SpaceEnabled;
  }

  lemma StepRound(s: State, e: Event, t: State)
    requires Shape(s) && Enabled(s, e) && t == Apply(s, e) && |t.procs| == MaxProcs
    ensures !e.PickOne? ==> t.rr == s.rr
    ensures e.PickOne? ==> Pick(s.procs, s.rr).Some? && t.rr == (Pick(s.procs, s.rr).value + 1) % MaxProcs
    ensures e.PickOne? ==> Pick(s.procs, s.rr).value < MaxProcs && t.procs[Pick(s.procs, s.rr).value].status == Running
  {
    hide Pick, Frees, LoopApply, LoopEnabled, ReapApply, ReapEnabled, SectionApply, SectionEnabled, LeaveApply, LeaveEnabled,
         WaitApply, WaitEnabled, MakeApply, MakeEnabled, DropApply, DropEnabled, SpaceApply, SpaceEnabled;
    if Loops(e) {
      LoopRound(s, e, t);
    } else if Frees(e) {
      FreeingRound(s, e, t);
    } else {
      OtherRound(s, e, t);
    }
  }

  /** While a process stays READY, fewer than MaxProcs others are chosen. */
  lemma {:induction false} Fair(s: State, es: seq<Event>, q: nat)
    requires q < MaxProcs && StaysReady(s, es, q)
    ensures Picks(es) <= Dist(s.rr, q) <= MaxProcs - 1
    decreases |es|
  {
    hide Enabled, Apply, Pick;
    if es != [] {
      var t := Apply(s, es[0]);
      StepRound(s, es[0], t);
      PickCloser(s.procs, s.rr, q);
      Fair(t, es[1..], q);
    }
  }

  // ---- The loops over the table ----

  /** pick_next: the nearest READY slot at or after rr_next, and the next starting point. */
  method PickNext(procs: seq<Proc>, rr: nat) returns (r: Option<nat>, next: nat)
    requires |procs| == MaxProcs && rr < MaxProcs
    ensures r == Pick(procs, rr) && next < MaxProcs
    ensures r.None? ==> next == rr && forall q :: 0 <= q < MaxProcs ==> procs[q].status != Ready
    ensures r.Some? ==> r.value < MaxProcs && procs[r.value].status == Ready && next == (r.value + 1) % MaxProcs
    ensures r.Some? ==> forall q :: 0 <= q < MaxProcs && procs[q].status == Ready ==> Dist(rr, r.value) <= Dist(rr, q)
  {
    forall q | 0 <= q < MaxProcs && procs[q].status == Ready
      ensures Pick(procs, rr).Some? && Pick(procs, rr).value < MaxProcs && Dist(rr, Pick(procs, rr).value) <= Dist(rr, q)
    {
      PickNearest(procs, rr, 0, q);
    }
    for n := 0 to MaxProcs
      invariant Pick(procs, rr) == PickFrom(procs, rr, n)
    {
      var i := (rr + n) % MaxProcs;
      if procs[i].status == Ready {
        return Some(i), (i + 1) % MaxProcs;
      }
    }
    return None, rr;
  }

  /** The scan of proc_wait: the first matching zombie child, and whether any child matches. */
  method WaitScan(procs: seq<Proc>, p: nat, t: Target) returns (found: Option<nat>, child: bool)
    ensures found == FindZombie(procs, p, t, 0)
    ensures child == HasChild(procs, p, t)
  {
    child := false;
    for i := 0 to |procs|
      invariant FindZombie(procs, p, t, 0) == FindZombie(procs, p, t, i)
      invariant child == exists k :: 0 <= k < i && WaitedFor(procs[k], p, t)
    {
      if WaitedFor(procs[i], p, t) {
        child := true;
        if procs[i].status == Zombie {
          return Some(i), true;
        }
      }
    }
    return None, child;
  }
}

/** The sleeping lock of kernel/lib/mutex.c on proc_sleep and proc_wakeup, as atomic steps of any
    number of processes. Calls that panic (locking twice, unlocking unheld) have no step. */
module Mutex {
  datatype Option<T> = None | Some(value: T)

  /** Where a process stands; the comments name the locks held. */
  datatype Pc =
    | Out
    | Want                // spinning for the spinlock, in mutex_lock
    | Top                 // spinlock
    | Sleep               // spinlock, proc_lock
    | Drop                // proc_lock
    | Asleep              // BLOCKED on the mutex
    | Took                // spinlock; locked and owner set
    | Inside              // returned from mutex_lock
    | UWant               // spinning for the spinlock, in mutex_unlock
    | UTop                // spinlock
    | UWake               // spinlock; locked cleared, about to wake
    | UEnd                // spinlock

  datatype State = State(pc: seq<Pc>, lk: Option<nat>, pl: Option<nat>, locked: bool, owner: Option<nat>)

  predicate HoldsLk(x: Pc) {
    x == Top || x == Sleep || x == Took || x == UTop || x == UWake || x == UEnd
  }

  predicate HoldsPl(x: Pc) {
    x == Sleep || x == Drop
  }

  /** Between the moment mutex_lock sets `owner` and the moment mutex_unlock clears it. */
  predicate Owns(x: Pc) {
    x == Took || x == Inside || x == UWant || x == UTop
  }

  datatype Event =
    | Lock(p: nat) | Spin(p: nat) | Take(p: nat) | Sleep1(p: nat) | Sleep2(p: nat) | Sleep3(p: nat) | Return(p: nat)
    | Unlock(p: nat) | USpin(p: nat) | Clear(p: nat) | Wake(p: nat) | End(p: nat)
    | Signal(p: nat)

  predicate Enabled(s: State, e: Event) {
    e.p < |s.pc| &&
    match e
    case Lock(p) => s.pc[p] == Out
    case Spin(p) => s.pc[p] == Want && s.lk.None?
    case Take(p) => s.pc[p] == Top && !s.locked
    case Sleep1(p) => s.pc[p] == Top && s.locked && s.pl.None?
    case Sleep2(p) => s.pc[p] == Sleep
    case Sleep3(p) => s.pc[p] == Drop
    case Return(p) => s.pc[p] == Took
    case Unlock(p) => s.pc[p] == Inside
    case USpin(p) => s.pc[p] == UWant && s.lk.None?
    case Clear(p) => s.pc[p] == UTop && s.locked && s.owner == Some(p)
    case Wake(p) => s.pc[p] == UWake && s.pl.None?
    case End(p) => s.pc[p] == UEnd
    case Signal(p) => s.pc[p] == Asleep && s.pl.None?
  }

  function Woken(pc: seq<Pc>): (r: seq<Pc>)
    ensures |r| == |pc|
  {
    seq(|pc|, i requires 0 <= i < |pc| => if pc[i] == Asleep then Want else pc[i])
  }

  function Put(s: State, p: nat, x: Pc): State
    requires p < |s.pc|
  {
    s.(pc := s.pc[p := x])
  }

  function Apply(s: State, e: Event): State
    requires Enabled(s, e)
  {
    match e
    case Lock(p) => Put(s, p, Want)
    case Spin(p) => Put(s, p, Top).(lk := Some(p))
    case Take(p) => Put(s, p, Took).(locked := true, owner := Some(p))
    case Sleep1(p) => Put(s, p, Sleep).(pl := Some(p))
    case Sleep2(p) => Put(s, p, Drop).(lk := None)
    case Sleep3(p) => Put(s, p, Asleep).(pl := None)
    case Return(p) => Put(s, p, Inside).(lk := None)
    case Unlock(p) => Put(s, p, UWant)
    case USpin(p) => Put(s, p, UTop).(lk := Some(p))
    case Clear(p) => Put(s, p, UWake).(locked := false, owner := None)
    case Wake(p) => var t := Put(s, p, UEnd); t.(pc := Woken(t.pc))
    case End(p) => Put(s, p, Out).(lk := None)
    case Signal(p) => Put(s, p, Want)
  }

  ghost predicate Locks(s: State) {
    && (forall p :: 0 <= p < |s.pc| ==> (HoldsLk(s.pc[p]) <==> s.lk == Some(p)))
    && (forall p :: 0 <= p < |s.pc| ==> (HoldsPl(s.pc[p]) <==> s.pl == Some(p)))
    && (s.lk.Some? ==> s.lk.value < |s.pc|) && (s.pl.Some? ==> s.pl.value < |s.pc|)
  }

  /** Mutual exclusion: `owner` names the one process that holds the mutex. */
  ghost predicate OneOwner(s: State) {
    && (forall p :: 0 <= p < |s.pc| ==> (Owns(s.pc[p]) <==> s.owner == Some(p)))
    && (s.locked <==> s.owner.Some?)
    && (s.owner.Some? ==> s.owner.value < |s.pc|)
  }

  /** Whoever sleeps, or has decided to, finds the mutex locked, or is about to be woken. */
  ghost predicate Awake(s: State) {
    && (forall p :: 0 <= p < |s.pc| && s.pc[p] == Sleep ==> s.locked)
    && (forall p :: 0 <= p < |s.pc| && (s.pc[p] == Drop || s.pc[p] == Asleep) ==>
          s.locked || (s.lk.Some? && s.lk.value < |s.pc| && s.pc[s.lk.value] == UWake))
  }

  ghost predicate Inv(s: State) {
    Locks(s) && OneOwner(s) && Awake(s)
  }

  ghost predicate Init(s: State) {
    s == State(s.pc, None, None, false, None) && forall p :: 0 <= p < |s.pc| ==> s.pc[p] == Out
  }

  /** A step of `p` that moves the locks only as its own place says. */
  lemma LocksFrame(s: State, t: State, p: nat)
    requires Locks(s) && |t.pc| == |s.pc| && p < |s.pc|
    requires forall q :: 0 <= q < |s.pc| && q != p ==> HoldsLk(t.pc[q]) == HoldsLk(s.pc[q]) && HoldsPl(t.pc[q]) == HoldsPl(s.pc[q])
    requires t.lk == if HoldsLk(t.pc[p]) then Some(p) else if HoldsLk(s.pc[p]) then None else s.lk
    requires t.pl == if HoldsPl(t.pc[p]) then Some(p) else if HoldsPl(s.pc[p]) then None else s.pl
    requires HoldsLk(t.pc[p]) && !HoldsLk(s.pc[p]) ==> s.lk == None
    requires HoldsPl(t.pc[p]) && !HoldsPl(s.pc[p]) ==> s.pl == None
    ensures Locks(t)
  {
    hide HoldsLk, HoldsPl;
  }

  lemma StepLocks(s: State, e: Event)
    requires Inv(s) && Enabled(s, e)
    ensures Locks(Apply(s, e))
  {
    hide OneOwner, Awake;
    assert HoldsLk(s.pc[e.p]) <==> s.lk == Some(e.p);
    LocksFrame(s, Apply(s, e), e.p);
  }

  lemma StepOwner(s: State, e: Event)
    requires Inv(s) && Enabled(s, e)
    ensures OneOwner(Apply(s, e))
  {
    hide Locks, Awake;
  }

  /** A mutex taken while others are on their way to sleep: the lock holder that takes it has
      seen it unlocked, so whoever is asleep has been woken before. */
  lemma StepAwake(s: State, e: Event)
    requires Inv(s) && Enabled(s, e)
    ensures Awake(Apply(s, e))
  {
    hide OneOwner;
  }

  lemma StepInv(s: State, e: Event)
    requires Inv(s) && Enabled(s, e)
    ensures Inv(Apply(s, e))
  {
    hide Locks, OneOwner, Awake, Apply, Enabled;
    StepLocks(s, e);
    StepOwner(s, e);
    StepAwake(s, e);
  }

  ghost predicate Run(s: State, es: seq<Event>, t: State)
    decreases |es|
  {
    if es == [] then s == t else Enabled(s, es[0]) && Run(Apply(s, es[0]), es[1..], t)
  }

  lemma {:induction false} RunInv(s: State, es: seq<Event>, t: State)
    requires Inv(s) && Run(s, es, t)
    ensures Inv(t)
    decreases |es|
  {
    hide Inv, Enabled, Apply;
    if es != [] {
      StepInv(s, es[0]);
      RunInv(Apply(s, es[0]), es[1..], t);
    }
  }

  /** In every reachable state at most one process is between mutex_lock and mutex_unlock, and,
      when the spinlock is free, a BLOCKED process waits for a mutex that another process holds. */
  lemma MutexSafe(s: State, es: seq<Event>, t: State)
    requires Init(s) && Run(s, es, t)
    ensures forall p, q :: 0 <= p < |t.pc| && 0 <= q < |t.pc| && t.pc[p] == Inside && t.pc[q] == Inside ==> p == q
    ensures forall p :: 0 <= p < |t.pc| && t.pc[p] == UTop ==> t.locked && t.owner == Some(p)
    ensures forall p :: 0 <= p < |t.pc| && t.pc[p] == Asleep && t.lk == None ==>
              t.locked && t.owner.Some? && t.owner.value < |t.pc| && t.owner != Some(p)
              && (t.pc[t.owner.value] == Inside || t.pc[t.owner.value] == UWant)
  {
    hide Run;
    assert Inv(s);
    RunInv(s, es, t);
  }

  // ---- Turns, and no deadlock ----

  /** With the spinlock held mutex_lock takes a mutex that is not locked and sleeps for one that is. */
  lemma LockTurn(s: State, e: Event)
    requires Inv(s) && Enabled(s, e) && s.pc[e.p] == Top
    ensures s.locked ==> e.Sleep1? && Apply(s, e) == s.(pc := s.pc[e.p := Sleep], pl := Some(e.p))
    ensures !s.locked ==> e.Take? && Apply(s, e) == s.(pc := s.pc[e.p := Took], locked := true, owner := Some(e.p))
  {
  }

  /** mutex_unlock leaves the mutex unlocked and then sends every process that sleeps on it back to its
      loop; so does an interruption with one of them. */
  lemma UnlockTurn(s: State, e: Event)
    requires Inv(s) && Enabled(s, e)
    ensures s.pc[e.p] == UTop ==> e.Clear? && Apply(s, e) == s.(pc := s.pc[e.p := UWake], locked := false, owner := None)
    ensures s.pc[e.p] == UWake ==>
              e.Wake? && |Apply(s, e).pc| == |s.pc| && Apply(s, e).(pc := s.pc) == s
              && forall q :: 0 <= q < |s.pc| ==> Apply(s, e).pc[q] == if q == e.p then UEnd else if s.pc[q] == Asleep then Want else s.pc[q]
    ensures s.pc[e.p] == Asleep ==> e.Signal? && Apply(s, e) == s.(pc := s.pc[e.p := Want])
  {
  }

  /** What a process in mutex_lock or mutex_unlock does next when no interruption comes. */
  function NextOf(s: State, p: nat): Event
    requires p < |s.pc|
  {
    match s.pc[p]
    case Out => Lock(p)
    case Want => Spin(p)
    case Top => if s.locked then Sleep1(p) else Take(p)
    case Sleep => Sleep2(p)
    case Drop => Sleep3(p)
    case Asleep => Signal(p)
    case Took => Return(p)
    case Inside => Unlock(p)
    case UWant => USpin(p)
    case UTop => Clear(p)
    case UWake => Wake(p)
    case UEnd => End(p)
  }

  /** It can, unless it waits for a lock that another holds; a process that owns the mutex can always
      begin to unlock it. */
  lemma Proceeds(s: State, p: nat)
    requires Inv(s) && p < |s.pc| && s.pc[p] != Asleep
    requires s.pc[p] == Want || s.pc[p] == UWant ==> s.lk == None
    requires s.pl == None || s.pl == Some(p)
    ensures Enabled(s, NextOf(s, p))
    ensures s.pc[p] == Out ==> NextOf(s, p) == Lock(p)
    ensures s.pc[p] == Inside ==> NextOf(s, p) == Unlock(p)
  {
    assert HoldsPl(s.pc[p]) <==> s.pl == Some(p);
  }

  /** While a process is in one of the calls and not BLOCKED, some process in a call can go on. */
  lemma NoDeadlock(s: State, p: nat)
    requires Inv(s) && p < |s.pc| && s.pc[p] != Out && s.pc[p] != Inside && s.pc[p] != Asleep
    ensures exists q :: 0 <= q < |s.pc| && s.pc[q] != Out && s.pc[q] != Inside && s.pc[q] != Asleep && Enabled(s, NextOf(s, q))
  {
    hide Enabled, NextOf;
    var q := if s.pl.Some? then s.pl.value else if s.lk.Some? then s.lk.value else p;
    assert s.pl.Some? ==> HoldsPl(s.pc[q]);
    assert s.lk.Some? ==> HoldsLk(s.pc[s.lk.value]);
    Proceeds(s, q);
  }

  /** The steps that only take or release the spinlocks. */
  lemma LockMoves(s: State, e: Event)
    requires Inv(s) && Enabled(s, e)
    ensures !(e.Take? || e.Clear?) ==> Apply(s, e).locked == s.locked && Apply(s, e).owner == s.owner
    ensures e.Return? ==> Apply(s, e).pc[e.p] == Inside && s.owner == Some(e.p) && s.locked
    ensures e.End? ==> Apply(s, e).pc[e.p] == Out && s.owner != Some(e.p)
    ensures e.Lock? ==> Apply(s, e).pc[e.p] == Want
    ensures e.Unlock? ==> Apply(s, e).pc[e.p] == UWant
    ensures e.Spin? ==> Apply(s, e).pc[e.p] == Top
    ensures e.USpin? ==> Apply(s, e).pc[e.p] == UTop
    ensures e.Sleep2? ==> Apply(s, e).pc[e.p] == Drop
    ensures e.Sleep3? ==> Apply(s, e).pc[e.p] == Asleep
  {
  }
}

/** The signal state of processes under every sequence of sends, deliveries, system calls and forks
    (kernel/proc/signal.c:58-102, 170-186, 202-281, 303-379, 403-412, 483-490; kernel/proc/process.c:488-505). */
module Signals {
  const NSig: nat := 32
  const SigKill: nat := 9
  const SigSegv: nat := 11
  const SigChld: nat := 17
  const SigCont: nat := 18
  const SigStop: nat := 19
  const SigUrg: nat := 23
  const SigWinch: nat := 28

  /** A 32-bit mask as the set of its signals. */
  type Mask = set<nat>

  const Unblockable: Mask := {SigKill, SigStop}
  const StopSignals: Mask := {SigStop, 20, 21, 22}

  datatype Handler = Dfl | Ign | User(addr: nat)

  datatype Action = Action(handler: Handler, mask: Mask, nodefer: bool, resethand: bool)

  /** PAUSED is BLOCKED inside sys_pause; DEAD stands for ZOMBIE and what follows. */
  datatype Status = Ready | Running | Blocked | Paused | Stopped | Dead

  /** A signal that signal_deliver has taken and not finished with. */
  datatype Taken = NoneTaken | Took(sig: nat, act: Action)

  datatype Proc = Proc(status: Status, killed: bool, pending: Mask, blocked: Mask, actions: seq<Action>, taken: Taken)

  predicate DefaultIgnore(sig: nat) {
    sig == SigChld || sig == SigCont || sig == SigWinch || sig == SigUrg
  }

  /** signal_interrupted. */
  predicate Interrupted(p: Proc) {
    p.killed || p.pending - p.blocked != {}
  }

  predicate Discards(p: Proc, sig: nat)
    requires sig < |p.actions|
  {
    p.actions[sig].handler == Ign || (p.actions[sig].handler == Dfl && DefaultIgnore(sig))
  }

  // ---- signal_send_locked ----

  function Send(p: Proc, sig: nat): (r: Proc)
    requires |p.actions| == NSig
  {
    if sig == 0 || sig >= NSig || p.status == Dead then p
    else
      var p1 := if sig == SigKill then p.(killed := true) else p;
      var p2 := if sig == SigCont
                then p1.(pending := p1.pending - StopSignals, status := if p1.status == Stopped then Ready else p1.status) else p1;
      var p3 := if sig in StopSignals then p2.(pending := p2.pending - {SigCont}) else p2;
      if sig !in Unblockable && sig !in p3.blocked && Discards(p3, sig) then p3
      else
        var p4 := p3.(pending := p3.pending + {sig});
        if sig !in p4.blocked || sig in Unblockable then
          if p4.status == Blocked || p4.status == Paused then p4.(status := Ready)
          else if p4.status == Stopped && sig == SigKill then p4.(status := Ready)
          else p4
        else p4
  }

  // ---- next_signal ----

  /** The lowest signal of a mask from `i` on; 0 when there is none. */
  function Lowest(m: Mask, i: nat): (r: nat)
    requires 0 < i <= NSig
    ensures r == 0 ==> forall s :: i <= s < NSig ==> s !in m
    ensures r != 0 ==> i <= r < NSig && r in m && forall s :: i <= s < r ==> s !in m
    decreases NSig - i
  {
    if i == NSig then 0 else if i in m then i else Lowest(m, i + 1)
  }

  function NextSignal(p: Proc): (r: nat) {
    if p.killed || SigKill in p.pending - p.blocked then SigKill else Lowest(p.pending - p.blocked, 1)
  }

  // ---- The steps ----

  datatype Event =
    | Sent(sig: nat)                                    // by anybody, under proc_lock
    | Schedule | Preempt | Sleep | Wake | Pause | Die
    | Take | Finish | StopSelf(sig: nat) | SetupFrame   // signal_deliver
    | Force(sig: nat)                                   // signal_force, on a fault
    | SigAction(sig: nat, act: Action) | BlockMask(m: Mask) | UnblockMask(m: Mask) | SetMask(m: Mask)
    | SigReturn(m: Mask) | ExecReset

  /** signal_force is called for faults: SIGILL, SIGTRAP, SIGBUS, SIGFPE, SIGSEGV. */
  predicate IsFault(sig: nat) {
    sig == 4 || sig == 5 || sig == 7 || sig == 8 || sig == SigSegv
  }

  predicate Enabled(p: Proc, e: Event) {
    match e
    case Sent(_) => true
    case Schedule => p.status == Ready
    case Wake => p.status == Blocked || p.status == Paused
    case Take => p.status == Running && p.taken == NoneTaken && !p.killed && NextSignal(p) != 0
    case Finish => p.status == Running && p.taken.Took? && (p.taken.act.handler == Ign || (p.taken.act.handler == Dfl && DefaultIgnore(p.taken.sig)))
    case StopSelf(sig) => p.status == Running && p.taken.Took? && p.taken.sig == sig && p.taken.act.handler == Dfl && sig in StopSignals
    case SetupFrame => p.status == Running && p.taken.Took? && p.taken.act.handler.User?
    case Force(sig) => p.status == Running && IsFault(sig)
    case SigAction(sig, _) => p.status == Running && sig < NSig
    case Pause => p.status == Running && p.taken == NoneTaken
    case _ => p.status == Running
  }

  function Apply(p: Proc, e: Event): Proc
    requires Enabled(p, e) && |p.actions| == NSig
  {
    match e
    case Sent(sig) => Send(p, sig)
    case Schedule => p.(status := Running)
    case Preempt => p.(status := Ready)
    case Sleep => p.(status := Blocked)
    case Wake => p.(status := Ready)
    case Pause => if Interrupted(p) then p else p.(status := Paused)
    case Die => p.(status := Dead)
    case Take =>
      var sig := NextSignal(p);
      p.(pending := p.pending - {sig}, taken := if sig < NSig then Took(sig, p.actions[sig]) else NoneTaken)
    case Finish => p.(taken := NoneTaken)
    case StopSelf(_) => if p.killed then p.(taken := NoneTaken) else p.(taken := NoneTaken, status := Stopped)
    case SetupFrame =>
      var act, sig := p.taken.act, p.taken.sig;
      var b := p.blocked + (act.mask - Unblockable) + (if act.nodefer then {} else {sig});
      p.(blocked := b, taken := NoneTaken,
         actions := if act.resethand && sig < NSig then p.actions[sig := p.actions[sig].(handler := Dfl)] else p.actions)
    case Force(sig) =>
      var q := if p.actions[sig].handler == Ign || sig in p.blocked
               then p.(actions := p.actions[sig := p.actions[sig].(handler := Dfl)], blocked := p.blocked - {sig}) else p;
      q.(pending := q.pending + {sig})
    case SigAction(sig, act) =>
      if sig == 0 || sig == SigKill || sig == SigStop then p          // -EINVAL
      else
        var q := p.(actions := p.actions[sig := act.(mask := act.mask - Unblockable)]);
        if Discards(q, sig) then q.(pending := q.pending - {sig}) else q
    case BlockMask(m) => p.(blocked := p.blocked + (m - Unblockable))
    case UnblockMask(m) => p.(blocked := p.blocked - (m - Unblockable))
    case SetMask(m) => p.(blocked := m - Unblockable)
    case SigReturn(m) => p.(blocked := m - Unblockable)
    case ExecReset => p.(actions := seq(NSig, s requires 0 <= s < NSig => if p.actions[s].handler == Ign then p.actions[s] else Action(Dfl, {}, false, false)))
  }

  // ---- What every run keeps ----

  /** SIGKILL and SIGSTOP are never blocked, never caught and never ignored. */
  ghost predicate Sovereign(p: Proc) {
    && |p.actions| == NSig && p.blocked !! Unblockable
    && p.actions[SigKill].handler == Dfl && p.actions[SigStop].handler == Dfl
    && (p.taken.Took? && p.taken.sig in Unblockable ==> p.taken.act.handler == Dfl)
  }

  ghost predicate InRange(p: Proc) {
    (forall s :: s in p.pending ==> 0 < s < NSig) && (p.taken.Took? ==> 0 < p.taken.sig < NSig)
  }

  /** SIGCONT and a stop signal are never pending together. */
  ghost predicate ContOrStop(p: Proc) {
    SigCont in p.pending ==> p.pending !! StopSignals
  }

  ghost predicate Inv(p: Proc) {
    && Sovereign(p) && InRange(p) && ContOrStop(p)
    && (p.status == Stopped ==> !p.killed)
    && (p.status == Paused ==> !Interrupted(p))
  }

  lemma SendInv(p: Proc, sig: nat)
    requires Inv(p)
    ensures Inv(Send(p, sig))
  {
  }

  lemma StepInv(p: Proc, e: Event)
    requires Inv(p) && Enabled(p, e)
    ensures Inv(Apply(p, e))
  {
    hide Send, NextSignal;
    match e {
      case Sent(sig) => SendInv(p, sig);
      case Take => NextIsDeliverable(p);
      case _ =>
    }
  }

  /** next_signal finds something exactly when there is something to deliver; it is SIGKILL, or the
      lowest pending signal that is not blocked. */
  lemma NextIsDeliverable(p: Proc)
    requires Inv(p)
    ensures NextSignal(p) != 0 <==> Interrupted(p)
    ensures NextSignal(p) != 0 ==> 0 < NextSignal(p) < NSig
    ensures NextSignal(p) != 0 && !p.killed ==> NextSignal(p) in p.pending && NextSignal(p) !in p.blocked
    ensures NextSignal(p) != 0 && NextSignal(p) != SigKill ==> forall s :: s in p.pending && s !in p.blocked ==> NextSignal(p) <= s
  {
    var m := p.pending - p.blocked;
    if !p.killed && SigKill !in m && m != {} {
      var s :| s in m;
      assert 0 < s < NSig;
      forall s | s in p.pending && s !in p.blocked ensures NextSignal(p) <= s {
        assert s in m;
      }
    }
  }

  // ---- Runs of all processes ----

  /** A step of one process, or a fork of it. */
  datatype Move = Act(i: nat, e: Event) | Fork(i: nat)

  /** A child of fork starts with the actions and the mask of its parent and nothing pending. */
  function ChildOf(parent: Proc): Proc {
    Proc(Ready, false, {}, parent.blocked, parent.actions, NoneTaken)
  }

  predicate CanMove(ps: seq<Proc>, m: Move) {
    m.i < |ps| && (if m.Act? then |ps[m.i].actions| == NSig && Enabled(ps[m.i], m.e) else ps[m.i].status == Running)
  }

  function Moved(ps: seq<Proc>, m: Move): seq<Proc>
    requires CanMove(ps, m)
  {
    if m.Act? then ps[m.i := Apply(ps[m.i], m.e)] else ps + [ChildOf(ps[m.i])]
  }

  ghost predicate Run(ps: seq<Proc>, ms: seq<Move>, qs: seq<Proc>)
    decreases |ms|
  {
    if ms == [] then ps == qs else CanMove(ps, ms[0]) && Run(Moved(ps, ms[0]), ms[1..], qs)
  }

  ghost predicate AllInv(ps: seq<Proc>) {
    forall i :: 0 <= i < |ps| ==> Inv(ps[i])
  }

  lemma ForkInv(parent: Proc)
    requires Inv(parent)
    ensures Inv(ChildOf(parent))
  {
  }

  lemma {:induction false} RunInv(ps: seq<Proc>, ms: seq<Move>, qs: seq<Proc>)
    requires AllInv(ps) && Run(ps, ms, qs)
    ensures AllInv(qs)
    decreases |ms|
  {
    hide Inv, Enabled, Apply, ChildOf;
    if ms != [] {
      var m := ms[0];
      if m.Act? {
        StepInv(ps[m.i], m.e);
      } else {
        ForkInv(ps[m.i]);
      }
      RunInv(Moved(ps, m), ms[1..], qs);
    }
  }

  /** The first process: nothing pending, nothing blocked, default actions. */
  lemma BootInv()
    ensures Inv(Proc(Ready, false, {}, {}, seq(NSig, _ => Action(Dfl, {}, false, false)), NoneTaken))
  {
  }

  /** SIGKILL gets through to a stopped or sleeping process: it is made READY. */
  lemma KillWakes(p: Proc)
    requires Inv(p) && p.status != Dead
    ensures var q := Send(p, SigKill); q.killed && (q.status == Ready || q.status == Running)
  {
  }

  // ---- What each step does, in terms of signal numbers ----

  /** The process has asked not to see the signal, or never did and 17, 18, 23 and 28 (child, continue,
      urgent, window) are not for it. */
  predicate Unwanted(p: Proc, sig: nat)
    requires |p.actions| == NSig && sig < NSig
  {
    p.actions[sig].handler == Ign || (p.actions[sig].handler == Dfl && sig in {17, 18, 23, 28})
  }

  /** 18 (continue) cancels the stop signals 19 to 22, and each of these cancels 18. */
  function Cancelled(sig: nat): set<nat> {
    if sig == 18 then {19, 20, 21, 22} else if 19 <= sig <= 22 then {18} else {}
  }

  lemma SendKeeps(p: Proc, sig: nat)
    requires Inv(p) && p.status != Dead && 0 < sig < NSig
    ensures var q := Send(p, sig);
            q.blocked == p.blocked && q.actions == p.actions && q.taken == p.taken && (q.killed <==> p.killed || sig == 9)
  {
  }

  lemma SendPends(p: Proc, sig: nat, s: nat)
    requires Inv(p) && p.status != Dead && 0 < sig < NSig
    ensures s in Send(p, sig).pending <==> (s in p.pending && s !in Cancelled(sig)) || (s == sig && (sig in p.blocked || !Unwanted(p, sig)))
  {
  }

  lemma AlwaysWanted(p: Proc)
    requires Inv(p)
    ensures Unwanted(p, 9) == Unwanted(p, 19) == false && 9 !in p.blocked && 19 !in p.blocked
  {
  }

  /** A signal that is wanted or blocked is pending afterwards, an unwanted one is not kept; nothing else
      happens to the signals of the process. 9 and 19 are always wanted and never blocked. */
  lemma SendArrives(p: Proc, sig: nat)
    requires Inv(p) && p.status != Dead && 0 < sig < NSig
    ensures var q := Send(p, sig);
            && q.blocked == p.blocked && q.actions == p.actions && q.taken == p.taken
            && (q.killed <==> p.killed || sig == 9)
            && q.pending == p.pending - Cancelled(sig) + (if sig !in p.blocked && Unwanted(p, sig) then {} else {sig})
    ensures Unwanted(p, 9) == Unwanted(p, 19) == false && 9 !in p.blocked && 19 !in p.blocked
  {
    hide Send, Unwanted, Cancelled;
    SendKeeps(p, sig);
    AlwaysWanted(p);
    forall s: nat ensures s in Send(p, sig).pending <==> (s in p.pending && s !in Cancelled(sig)) || (s == sig && (sig in p.blocked || !Unwanted(p, sig))) {
      SendPends(p, sig, s);
    }
  }

  /** A sleeping process is woken by a wanted signal that is not blocked, a stopped one by 18 and 9,
      and a process in any other state stays as it is. */
  lemma SendWakes(p: Proc, sig: nat)
    requires Inv(p) && p.status != Dead && 0 < sig < NSig
    ensures var q := Send(p, sig);
            q.status ==
              if p.status == Stopped then (if sig == 18 || sig == 9 then Ready else Stopped)
              else if p.status == Blocked || p.status == Paused then (if sig in p.blocked || Unwanted(p, sig) then p.status else Ready)
              else p.status
  {
  }

  /** The dead and signal 0 are left alone. */
  lemma SendNothing(p: Proc, sig: nat)
    requires |p.actions| == NSig && (p.status == Dead || sig == 0 || sig >= NSig)
    ensures Send(p, sig) == p
  {
  }

  /** signal_deliver takes 9 if it may be delivered and otherwise the lowest signal that may, with the
      action of that moment, and is not done with it before it has been dealt with. */
  lemma TakeEffect(p: Proc)
    requires Inv(p) && p.status == Running && p.taken == NoneTaken && !p.killed
    ensures Enabled(p, Take) <==> exists s :: s in p.pending && s !in p.blocked
    ensures Enabled(p, Take) ==>
              var q := Apply(p, Take);
              && q.taken.Took? && q.taken.sig in p.pending && q.taken.sig !in p.blocked && q.taken.act == p.actions[q.taken.sig]
              && (9 in p.pending ==> q.taken.sig == 9)
              && (9 !in p.pending ==> forall s :: s in p.pending && s !in p.blocked ==> q.taken.sig <= s)
              && q == p.(pending := p.pending - {q.taken.sig}, taken := q.taken)
  {
    hide NextSignal;
    NextIsDeliverable(p);
    KillFirst(p);
    if s :| s in p.pending && s !in p.blocked {
      assert s in p.pending - p.blocked;
    }
  }

  lemma KillFirst(p: Proc)
    requires Inv(p) && !p.killed
    ensures 9 in p.pending ==> NextSignal(p) == 9
    ensures 9 !in p.pending ==> NextSignal(p) != 9
  {
  }

  /** A signal that was taken is dropped if unwanted, stops the process if its default action is to
      stop, and enters a handler if it has one; with any other default action the process can only die. */
  lemma TakenCases(p: Proc)
    requires Inv(p) && p.status == Running && p.taken.Took?
    ensures var sig, h := p.taken.sig, p.taken.act.handler;
            && (Enabled(p, Finish) <==> h == Ign || (h == Dfl && sig in {17, 18, 23, 28}))
            && (forall n :: Enabled(p, StopSelf(n)) <==> n == sig && h == Dfl && 19 <= n <= 22)
            && (Enabled(p, SetupFrame) <==> h.User?)
            && Enabled(p, Die) && !Enabled(p, Take)
    ensures Enabled(p, Finish) ==> Apply(p, Finish) == p.(taken := NoneTaken)
    ensures Enabled(p, StopSelf(p.taken.sig)) ==>
              Apply(p, StopSelf(p.taken.sig)) == p.(taken := NoneTaken, status := if p.killed then Running else Stopped)
  {
  }

  /** Entering a handler blocks the mask of its action and, unless it may nest, the signal itself. */
  lemma FrameEffect(p: Proc)
    requires Inv(p) && Enabled(p, SetupFrame)
    ensures var q, act, sig := Apply(p, SetupFrame), p.taken.act, p.taken.sig;
            && (forall s :: s in q.blocked <==> s in p.blocked || (s in act.mask && s != 9 && s != 19) || (s == sig && !act.nodefer))
            && q.taken == NoneTaken && q.pending == p.pending && q.killed == p.killed && q.status == p.status
            && |q.actions| == NSig
            && (forall s :: 0 <= s < NSig && (s != sig || !act.resethand) ==> q.actions[s] == p.actions[s])
            && (act.resethand ==> q.actions[sig] == p.actions[sig].(handler := Dfl))
  {
  }

  /** The three forms of sigprocmask, and sigreturn: 9 and 19 are passed over. */
  lemma MaskEffect(p: Proc, m: Mask, s: nat)
    requires Inv(p) && p.status == Running
    ensures s in Apply(p, BlockMask(m)).blocked <==> s in p.blocked || (s in m && s != 9 && s != 19)
    ensures s in Apply(p, UnblockMask(m)).blocked <==> s in p.blocked && !(s in m && s != 9 && s != 19)
    ensures s in Apply(p, SetMask(m)).blocked <==> s in m && s != 9 && s != 19
    ensures Apply(p, SigReturn(m)) == Apply(p, SetMask(m))
    ensures forall e :: e in [BlockMask(m), UnblockMask(m), SetMask(m)] ==> Apply(p, e).(blocked := p.blocked) == p
  {
  }

  /** sigaction: 0, 9 and 19 are refused; another signal has the new action with 9 and 19 out of its mask,
      and is no longer pending if it is now unwanted. */
  lemma ActionEffect(p: Proc, sig: nat, act: Action)
    requires Inv(p) && Enabled(p, SigAction(sig, act))
    ensures sig in {0, 9, 19} ==> Apply(p, SigAction(sig, act)) == p
    ensures sig !in {0, 9, 19} ==>
              var q := Apply(p, SigAction(sig, act));
              && q == p.(actions := q.actions, pending := q.pending)
              && q.actions == p.actions[sig := act.(mask := act.mask - {9, 19})]
              && q.pending == (if Unwanted(q, sig) then p.pending - {sig} else p.pending)
  {
  }

  /** A fault gets through: the signal is pending and can be delivered, by its default action when the
      process had it ignored or blocked. */
  lemma ForceEffect(p: Proc, sig: nat)
    requires Inv(p) && Enabled(p, Force(sig))
    ensures sig in {4, 5, 7, 8, 11}
    ensures var q := Apply(p, Force(sig));
            && q == p.(actions := q.actions, blocked := q.blocked, pending := p.pending + {sig})
            && q.blocked == p.blocked - {sig} && q.actions[sig].handler != Ign
            && q.actions == (if p.actions[sig].handler == Ign || sig in p.blocked
                             then p.actions[sig := p.actions[sig].(handler := Dfl)] else p.actions)
    ensures Interrupted(Apply(p, Force(sig)))
  {
    var q := Apply(p, Force(sig));
    assert sig in q.pending - q.blocked;
  }

  /** exec keeps ignored signals ignored and resets every other action; nothing else changes. */
  lemma ExecEffect(p: Proc)
    requires Inv(p) && p.status == Running
    ensures var q := Apply(p, ExecReset);
            && q == p.(actions := q.actions) && |q.actions| == NSig
            && forall s :: 0 <= s < NSig ==>
                 if p.actions[s].handler == Ign then q.actions[s] == p.actions[s] else q.actions[s] == Action(Dfl, {}, false, false)
  {
  }

  /** pause sleeps unless there is something to deliver; a process in pause is left there by nothing but
      a wake-up. */
  lemma PauseEffect(p: Proc)
    requires Inv(p) && Enabled(p, Pause)
    ensures Apply(p, Pause) == p.(status := if p.killed || exists s :: s in p.pending && s !in p.blocked then Running else Paused)
  {
    if s :| s in p.pending && s !in p.blocked {
      assert s in p.pending - p.blocked;
    }
  }

  /** A child of fork: READY, with the mask and the actions of the parent, nothing pending. */
  lemma ForkEffect(ps: seq<Proc>, i: nat)
    requires CanMove(ps, Fork(i)) && Inv(ps[i])
    ensures var qs := Moved(ps, Fork(i));
            && |qs| == |ps| + 1 && qs[..|ps|] == ps
            && qs[|ps|].status == Ready && !qs[|ps|].killed && qs[|ps|].pending == {} && qs[|ps|].taken == NoneTaken
            && qs[|ps|].blocked == ps[i].blocked && qs[|ps|].actions == ps[i].actions
  {
  }

  /** When a step can be taken. Signals are sent to a process in any state; what a process does to itself
      it does while it runs; pause comes after delivery; only faults are forced. */
  lemma WhenEnabled(p: Proc, sig: nat, act: Action, m: Mask)
    ensures Enabled(p, Sent(sig))
    ensures Enabled(p, Schedule) <==> p.status == Ready
    ensures Enabled(p, Wake) <==> p.status == Blocked || p.status == Paused
    ensures forall e :: e in [Preempt, Sleep, Die, BlockMask(m), UnblockMask(m), SetMask(m), SigReturn(m), ExecReset] ==>
              (Enabled(p, e) <==> p.status == Running)
    ensures Enabled(p, Pause) <==> p.status == Running && p.taken == NoneTaken
    ensures Enabled(p, SigAction(sig, act)) <==> p.status == Running && sig < 32
    ensures Enabled(p, Force(sig)) <==> p.status == Running && sig in {4, 5, 7, 8, 11}
    ensures forall ps: seq<Proc>, i: nat :: CanMove(ps, Fork(i)) <==> i < |ps| && ps[i].status == Running
  {
  }

  /** Scheduling changes the state of a process and nothing else. */
  lemma StateOnly(p: Proc, e: Event)
    requires |p.actions| == NSig && Enabled(p, e) && e in [Schedule, Preempt, Sleep, Wake, Die]
    ensures Apply(p, e).(status := p.status) == p
    ensures Apply(p, e).status == match e { case Schedule => Running case Sleep => Blocked case Die => Dead case _ => Ready }
  {
  }
}

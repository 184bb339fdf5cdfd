/** pipe_read, pipe_write and pipe_release with proc_sleep and proc_wakeup, as atomic steps of any
    number of processes (kernel/fs/pipe.c:37-124, kernel/proc/process.c:352-385). */
module PipeProto {
  import opened PipeRing

  datatype Option<T> = None | Some(value: T)

  /** How the last call of a process came back. */
  datatype Result =
    | NoCall
    | Got(data: seq<Byte>)                              // pipe_read: a non-negative count, or len == 0
    | Eof
    | ReadFailed                                        // -EINTR
    | Wrote(call: nat, src: seq<Byte>, n: nat)          // pipe_write: the count n
    | WriteFailed(call: nat)                            // -EPIPE or -EINTR

  /** One call of pipe_write: its serial number, its bytes, and how many were appended. */
  datatype Job = Job(call: nat, src: seq<Byte>, done: nat)

  /** Where a process stands; the comments name the locks held. */
  datatype Pc =
    | Out(res: Result)
    | RWant(len: nat)                                   // spinning for the pipe's lock
    | RTop(len: nat)                                    // lock
    | RSleep(len: nat)                                  // lock, proc_lock
    | RDrop(len: nat)                                   // proc_lock
    | RAsleep(len: nat)                                 // BLOCKED on &count
    | RWake(data: seq<Byte>)                            // lock; about to wake &writers
    | RDone(data: seq<Byte>)                            // lock
    | WWant(job: Job)
    | WTop(job: Job)                                    // lock
    | WFull(job: Job)                                   // lock; about to wake &count and sleep
    | WTired(job: Job)                                  // lock
    | WSleep(job: Job)                                  // lock, proc_lock
    | WDrop(job: Job)                                   // proc_lock
    | WAsleep(job: Job)                                 // BLOCKED on &writers
    | WWake(job: Job)                                   // lock; about to wake &count
    | CWant(w: bool)
    | CTop(w: bool)                                     // lock
    | CWakeR                                            // lock; about to wake &count
    | CWakeW                                            // lock; about to wake &writers
    | CEnd                                              // lock
    | CFree                                             // about to free the pipe

  /** One end of the pipe; the last reference to its file is being dropped by `who`. */
  datatype End = Open | Closing(who: nat) | Closed

  datatype State = State(pc: seq<Pc>, lk: Option<nat>, pl: Option<nat>, ring: Ring, r: End, w: End, freed: bool,
                         accepted: seq<(nat, Byte)>, delivered: seq<Byte>, calls: nat)

  function Readers(s: State): nat {
    if s.r.Closed? then 0 else 1
  }

  function Writers(s: State): nat {
    if s.w.Closed? then 0 else 1
  }

  predicate HoldsLk(x: Pc) {
    x.RTop? || x.RSleep? || x.RWake? || x.RDone? || x.WTop? || x.WFull? || x.WTired? || x.WSleep? || x.WWake?
    || x.CTop? || x.CWakeR? || x.CWakeW? || x.CEnd?
  }

  predicate HoldsPl(x: Pc) {
    x.RSleep? || x.RDrop? || x.WSleep? || x.WDrop?
  }

  predicate Reading(x: Pc) {
    x.RWant? || x.RTop? || x.RSleep? || x.RDrop? || x.RAsleep? || x.RWake? || x.RDone?
  }

  predicate Writing(x: Pc) {
    x.WWant? || x.WTop? || x.WFull? || x.WTired? || x.WSleep? || x.WDrop? || x.WAsleep? || x.WWake?
  }

  // ---- The steps ----

  datatype Event =
    | ReadCall(p: nat, len: nat) | RLock(p: nat) | REof(p: nat) | RIntr(p: nat) | RTake(p: nat)
    | RSleep1(p: nat) | RSleep2(p: nat) | RSleep3(p: nat) | RNotify(p: nat) | REnd(p: nat)
    | WriteCall(p: nat, src: seq<Byte>) | WLock(p: nat) | WEnd(p: nat) | WBroken(p: nat) | WSeesFull(p: nat) | WIntr(p: nat)
    | WFullWake(p: nat) | WSleep1(p: nat) | WSleep2(p: nat) | WSleep3(p: nat) | WAppend(p: nat, t: Ring) | WNotify(p: nat)
    | CloseCall(p: nat, w: bool) | CLock(p: nat) | CDrop(p: nat) | CNotifyR(p: nat) | CNotifyW(p: nat) | CUnlock(p: nat) | Free(p: nat)
    | Signal(p: nat)

  predicate Reads(e: Event) {
    e.ReadCall? || e.RLock? || e.REof? || e.RIntr? || e.RTake? || e.RSleep1? || e.RSleep2? || e.RSleep3? || e.REnd?
  }

  predicate Writes(e: Event) {
    e.WriteCall? || e.WLock? || e.WEnd? || e.WBroken? || e.WSeesFull? || e.WIntr? || e.WSleep1? || e.WSleep2?
    || e.WSleep3? || e.WAppend?
  }

  /** proc_wakeup, called with the pipe's lock held. */
  predicate Notifies(e: Event) {
    e.RNotify? || e.WFullWake? || e.WNotify? || e.CNotifyR? || e.CNotifyW?
  }

  predicate Closes(e: Event) {
    e.CloseCall? || e.CLock? || e.CDrop? || e.CUnlock? || e.Free? || e.Signal?
  }

  function Put(s: State, p: nat, x: Pc): State
    requires p < |s.pc|
  {
    s.(pc := s.pc[p := x])
  }

  /** proc_wakeup(&p->count). */
  function WokeReaders(pc: seq<Pc>): (r: seq<Pc>)
    ensures |r| == |pc|
  {
    seq(|pc|, i requires 0 <= i < |pc| => if pc[i].RAsleep? then RWant(pc[i].len) else pc[i])
  }

  /** proc_wakeup(&p->writers). */
  function WokeWriters(pc: seq<Pc>): (r: seq<Pc>)
    ensures |r| == |pc|
  {
    seq(|pc|, i requires 0 <= i < |pc| => if pc[i].WAsleep? then WWant(pc[i].job) else pc[i])
  }

  predicate ReadEnabled(s: State, e: Event)
    requires Valid(s.ring) && Reads(e) && e.p < |s.pc|
  {
    var x := s.pc[e.p];
    match e
    case ReadCall(p, len) => x.Out? && s.r == Open
    case RLock(p) => x.RWant? && s.lk.None?
    case REof(p) => x.RTop? && s.ring.count == 0 && Writers(s) == 0
    case RIntr(p) => x.RTop? && s.ring.count == 0 && Writers(s) != 0
    case RTake(p) => x.RTop? && s.ring.count != 0
    case RSleep1(p) => x.RTop? && s.ring.count == 0 && Writers(s) != 0 && s.pl.None?
    case RSleep2(p) => x.RSleep?
    case RSleep3(p) => x.RDrop?
    case REnd(p) => x.RDone?
  }

  function ReadApply(s: State, e: Event): State
    requires Valid(s.ring) && Reads(e) && e.p < |s.pc| && ReadEnabled(s, e)
  {
    var x, p := s.pc[e.p], e.p;
    match e
    case ReadCall(_, len) => Put(s, p, if len == 0 then Out(Got([])) else RWant(len))
    case RLock(_) => Put(s, p, RTop(x.len)).(lk := Some(p))
    case REof(_) => Put(s, p, Out(Eof)).(lk := None)
    case RIntr(_) => Put(s, p, Out(ReadFailed)).(lk := None)
    case RTake(_) =>
      var data := Contents(s.ring)[..Min(x.len, s.ring.count)];
      Put(s, p, RWake(data)).(ring := Popped(s.ring, |data|), delivered := s.delivered + data)
    case RSleep1(_) => Put(s, p, RSleep(x.len)).(pl := Some(p))
    case RSleep2(_) => Put(s, p, RDrop(x.len)).(lk := None)
    case RSleep3(_) => Put(s, p, RAsleep(x.len)).(pl := None)
    case REnd(_) => Put(s, p, Out(Got(x.data))).(lk := None)
  }

  function NextBytes(s: State, j: Job): (d: seq<Byte>)
    requires Valid(s.ring) && j.done <= |j.src|
  {
    j.src[j.done..j.done + Min(|j.src| - j.done, PipeSize - s.ring.count)]
  }

  predicate JobOpen(j: Job) {
    j.done < |j.src|
  }

  ghost predicate WriteEnabled(s: State, e: Event)
    requires Valid(s.ring) && Writes(e) && e.p < |s.pc|
  {
    var x := s.pc[e.p];
    match e
    case WriteCall(p, src) => x.Out? && s.w == Open
    case WLock(p) => x.WWant? && s.lk.None?
    case WEnd(p) => x.WTop? && !JobOpen(x.job)
    case WBroken(p) => x.WTop? && JobOpen(x.job) && Readers(s) == 0
    case WSeesFull(p) => x.WTop? && JobOpen(x.job) && Readers(s) != 0 && s.ring.count == PipeSize
    case WIntr(p) => x.WFull?
    case WSleep1(p) => x.WTired? && s.pl.None?
    case WSleep2(p) => x.WSleep?
    case WSleep3(p) => x.WDrop?
    case WAppend(p, t) => x.WTop? && JobOpen(x.job) && Readers(s) != 0 && s.ring.count != PipeSize && Pushed(s.ring, NextBytes(s, x.job), t)
  }

  function Tagged(call: nat, d: seq<Byte>): (r: seq<(nat, Byte)>)
    ensures |r| == |d|
  {
    seq(|d|, i requires 0 <= i < |d| => (call, d[i]))
  }

  /** What pipe_write returns when it stops early. */
  function Partial(j: Job): Result {
    if j.done > 0 then Wrote(j.call, j.src, j.done) else WriteFailed(j.call)
  }

  ghost function WriteApply(s: State, e: Event): State
    requires Valid(s.ring) && Writes(e) && e.p < |s.pc| && WriteEnabled(s, e)
  {
    var x, p := s.pc[e.p], e.p;
    match e
    case WriteCall(_, src) => Put(s, p, WWant(Job(s.calls, src, 0))).(calls := s.calls + 1)
    case WLock(_) => Put(s, p, WTop(x.job)).(lk := Some(p))
    case WEnd(_) => Put(s, p, Out(Wrote(x.job.call, x.job.src, x.job.done))).(lk := None)
    case WBroken(_) => Put(s, p, Out(Partial(x.job))).(lk := None)
    case WSeesFull(_) => Put(s, p, WFull(x.job))
    case WIntr(_) => Put(s, p, Out(Partial(x.job))).(lk := None)
    case WSleep1(_) => Put(s, p, WSleep(x.job)).(pl := Some(p))
    case WSleep2(_) => Put(s, p, WDrop(x.job)).(lk := None)
    case WSleep3(_) => Put(s, p, WAsleep(x.job)).(pl := None)
    case WAppend(_, t) =>
      var d := NextBytes(s, x.job);
      Put(s, p, WWake(x.job.(done := x.job.done + |d|))).(ring := t, accepted := s.accepted + Tagged(x.job.call, d))
  }

  predicate CloseEnabled(s: State, e: Event)
    requires Closes(e) && e.p < |s.pc|
  {
    var x := s.pc[e.p];
    match e
    case CloseCall(p, true) => x.Out? && s.w == Open && forall q :: 0 <= q < |s.pc| ==> !Writing(s.pc[q])
    case CloseCall(p, false) => x.Out? && s.r == Open && forall q :: 0 <= q < |s.pc| ==> !Reading(s.pc[q])
    case CLock(p) => x.CWant? && s.lk.None?
    case CDrop(p) => x.CTop?
    case CUnlock(p) => x.CEnd?
    case Free(p) => x.CFree?
    case Signal(p) => (x.RAsleep? || x.WAsleep?) && s.pl.None?
  }

  function CloseApply(s: State, e: Event): State
    requires Closes(e) && e.p < |s.pc| && CloseEnabled(s, e)
  {
    var x, p := s.pc[e.p], e.p;
    match e
    case CloseCall(_, w) => if w then Put(s, p, CWant(w)).(w := Closing(p)) else Put(s, p, CWant(w)).(r := Closing(p))
    case CLock(_) => Put(s, p, CTop(x.w)).(lk := Some(p))
    case CDrop(_) => if x.w then Put(s, p, CWakeR).(w := Closed) else Put(s, p, CWakeR).(r := Closed)
    case CUnlock(_) => Put(s, p, if Readers(s) == 0 && Writers(s) == 0 then CFree else Out(NoCall)).(lk := None)
    case Free(_) => Put(s, p, Out(NoCall)).(freed := true)
    case Signal(_) => Put(s, p, if x.RAsleep? then RWant(x.len) else WWant(x.job))
  }

  predicate NotifyEnabled(s: State, e: Event)
    requires Notifies(e) && e.p < |s.pc|
  {
    var x := s.pc[e.p];
    s.pl.None? &&
    match e
    case RNotify(p) => x.RWake?
    case WFullWake(p) => x.WFull?
    case WNotify(p) => x.WWake?
    case CNotifyR(p) => x.CWakeR?
    case CNotifyW(p) => x.CWakeW?
  }

  /** Where the caller of proc_wakeup goes on. */
  function AfterWake(e: Event, x: Pc): Pc
    requires Notifies(e) && (e.RNotify? ==> x.RWake?) && (e.WFullWake? ==> x.WFull?) && (e.WNotify? ==> x.WWake?)
  {
    match e
    case RNotify(_) => RDone(x.data)
    case WFullWake(_) => WTired(x.job)
    case WNotify(_) => WTop(x.job)
    case CNotifyR(_) => CWakeW
    case CNotifyW(_) => CEnd
  }

  function NotifyApply(s: State, e: Event): State
    requires Notifies(e) && e.p < |s.pc| && NotifyEnabled(s, e)
  {
    var t := Put(s, e.p, AfterWake(e, s.pc[e.p]));
    t.(pc := if e.RNotify? || e.CNotifyW? then WokeWriters(t.pc) else WokeReaders(t.pc))
  }

  ghost predicate Enabled(s: State, e: Event) {
    Valid(s.ring) && e.p < |s.pc| &&
    if Reads(e) then ReadEnabled(s, e) else if Writes(e) then WriteEnabled(s, e)
    else if Notifies(e) then NotifyEnabled(s, e) else CloseEnabled(s, e)
  }

  ghost function Apply(s: State, e: Event): State
    requires Enabled(s, e)
  {
    if Reads(e) then ReadApply(s, e) else if Writes(e) then WriteApply(s, e)
    else if Notifies(e) then NotifyApply(s, e) else CloseApply(s, e)
  }
}

/** What every interleaving of pipe calls keeps: first in, first out; no lost wakeup; and the pipe is
    freed once, when nobody uses it. */
module PipeSafe {
  import opened PipeRing
  import opened PipeProto

  // ---- The invariant, one clause a predicate ----

  ghost predicate Locks(s: State) {
    && (forall p :: 0 <= p < |s.pc| ==> (HoldsLk(s.pc[p]) <==> s.lk == Some(p)))
    && (forall p :: 0 <= p < |s.pc| ==> (HoldsPl(s.pc[p]) <==> s.pl == Some(p)))
    && (s.lk.Some? ==> s.lk.value < |s.pc|) && (s.pl.Some? ==> s.pl.value < |s.pc|)
  }

  /** The file of an end stays open while a call on it is under way; closing happens once. */
  ghost predicate Ends(s: State) {
    && (forall p :: 0 <= p < |s.pc| && Reading(s.pc[p]) ==> s.r == Open)
    && (forall p :: 0 <= p < |s.pc| && Writing(s.pc[p]) ==> s.w == Open)
    && (forall p :: 0 <= p < |s.pc| && (s.pc[p].CWant? || s.pc[p].CTop?) ==> (if s.pc[p].w then s.w else s.r) == Closing(p))
  }

  /** Memory safety: the pipe is freed only after the last call on it. */
  ghost predicate FreedOk(s: State) {
    && (forall p :: 0 <= p < |s.pc| && s.pc[p].CFree? ==> s.r == Closed && s.w == Closed && !s.freed)
    && (forall p, q :: 0 <= p < |s.pc| && 0 <= q < |s.pc| && p != q && s.pc[p].CFree? ==> s.pc[q].Out?)
    && (s.freed ==> s.r == Closed && s.w == Closed && forall q :: 0 <= q < |s.pc| ==> s.pc[q].Out?)
  }

  function Untag(a: seq<(nat, Byte)>): (r: seq<Byte>)
    ensures |r| == |a|
  {
    seq(|a|, i requires 0 <= i < |a| => a[i].1)
  }

  /** First in, first out: what was accepted is what was delivered and then what is in the ring. */
  ghost predicate Fifo(s: State) {
    Valid(s.ring) && Untag(s.accepted) == s.delivered + Contents(s.ring)
  }

  /** The bytes that call `k` appended, in order. */
  function Of(a: seq<(nat, Byte)>, k: nat): (r: seq<Byte>) {
    if a == [] then []
    else
      var init := Of(a[..|a| - 1], k);
      if a[|a| - 1].0 == k then init + [a[|a| - 1].1] else init
  }

  /** The pipe_write call that a process is in or has just left. */
  function CallOf(x: Pc): (r: Option<nat>) {
    if Writing(x) then Some(x.job.call)
    else if x.Out? && x.res.Wrote? then Some(x.res.call)
    else if x.Out? && x.res.WriteFailed? then Some(x.res.call)
    else None
  }

  /** How many bytes a process's call has appended, of what. */
  ghost predicate AppendedOk(a: seq<(nat, Byte)>, x: Pc) {
    && (Writing(x) ==> x.job.done <= |x.job.src| && Of(a, x.job.call) == x.job.src[..x.job.done])
    && (x.Out? && x.res.Wrote? ==> x.res.n <= |x.res.src| && Of(a, x.res.call) == x.res.src[..x.res.n])
    && (x.Out? && x.res.WriteFailed? ==> Of(a, x.res.call) == [])
  }

  ghost predicate Appended(s: State) {
    forall p :: 0 <= p < |s.pc| ==> AppendedOk(s.accepted, s.pc[p])
  }

  ghost predicate Calls(s: State) {
    && (forall p :: 0 <= p < |s.pc| && CallOf(s.pc[p]).Some? ==> CallOf(s.pc[p]).value < s.calls)
    && (forall p, q :: 0 <= p < |s.pc| && 0 <= q < |s.pc| && p != q && CallOf(s.pc[p]).Some? ==> CallOf(s.pc[p]) != CallOf(s.pc[q]))
    && (forall i :: 0 <= i < |s.accepted| ==> s.accepted[i].0 < s.calls)
  }

  predicate Empty(s: State) {
    s.ring.count == 0 && Writers(s) != 0
  }

  predicate Full(s: State) {
    s.ring.count == PipeSize && Readers(s) != 0
  }

  /** The lock holder is about to wake the readers, or the writers. */
  ghost predicate WakesReaders(s: State) {
    s.lk.Some? && s.lk.value < |s.pc| && (s.pc[s.lk.value].WWake? || s.pc[s.lk.value].CWakeR?)
  }

  ghost predicate WakesWriters(s: State) {
    s.lk.Some? && s.lk.value < |s.pc| && (s.pc[s.lk.value].RWake? || s.pc[s.lk.value].CWakeR? || s.pc[s.lk.value].CWakeW?)
  }

  /** A reader that sleeps, or has decided to, sees an empty pipe with a writer left, unless the
      lock holder is on its way to wake it; likewise a writer and a full pipe. */
  ghost predicate ReaderAwake(s: State) {
    && (forall p :: 0 <= p < |s.pc| && s.pc[p].RSleep? ==> Empty(s))
    && (forall p :: 0 <= p < |s.pc| && (s.pc[p].RDrop? || s.pc[p].RAsleep?) ==> Empty(s) || WakesReaders(s))
  }

  ghost predicate WriterAwake(s: State) {
    && (forall p :: 0 <= p < |s.pc| && (s.pc[p].WFull? || s.pc[p].WTired? || s.pc[p].WSleep?) ==> Full(s))
    && (forall p :: 0 <= p < |s.pc| && (s.pc[p].WDrop? || s.pc[p].WAsleep?) ==> Full(s) || WakesWriters(s))
  }

  /** After an end-of-file result nothing more will come. */
  ghost predicate EofFinal(s: State) {
    forall p :: 0 <= p < |s.pc| && s.pc[p] == Out(Eof) ==> s.ring.count == 0 && s.w == Closed
  }

  ghost predicate Inv(s: State) {
    Locks(s) && Ends(s) && FreedOk(s) && Fifo(s) && Appended(s) && Calls(s) && ReaderAwake(s) && WriterAwake(s) && EofFinal(s)
  }

  /** pipe_create. */
  ghost predicate Init(s: State) {
    && s.lk == None && s.pl == None && Valid(s.ring) && s.ring.count == 0 && s.r == Open && s.w == Open && !s.freed
    && s.accepted == [] && s.delivered == []
    && (forall p :: 0 <= p < |s.pc| ==> s.pc[p] == Out(NoCall))
  }

  lemma InitInv(s: State)
    requires Init(s)
    ensures Inv(s)
  {
  }

  // ---- Locks ----

  /** A step of `p` that moves the locks only as its own place says. */
  lemma LocksFrame(s: State, t: State, p: nat)
    requires Locks(s) && |t.pc| == |s.pc| && p < |s.pc|
    requires forall q :: 0 <= q < |s.pc| && q != p ==> HoldsLk(t.pc[q]) == HoldsLk(s.pc[q]) && HoldsPl(t.pc[q]) == HoldsPl(s.pc[q])
    requires t.lk == if HoldsLk(t.pc[p]) then Some(p) else if HoldsLk(s.pc[p]) then None else s.lk
    requires t.pl == if HoldsPl(t.pc[p]) then Some(p) else if HoldsPl(s.pc[p]) then None else s.pl
    requires HoldsLk(t.pc[p]) && !HoldsLk(s.pc[p]) ==> s.lk == None
    requires HoldsPl(t.pc[p]) && !HoldsPl(s.pc[p]) ==> s.pl == None
    ensures Locks(t)
  {
    hide HoldsLk, HoldsPl;
  }

  lemma ReadLocks(s: State, e: Event)
    requires Inv(s) && e.p < |s.pc| && Reads(e) && ReadEnabled(s, e)
    ensures Locks(ReadApply(s, e))
  {
    hide Ends, FreedOk, Appended, Calls, ReaderAwake, WriterAwake, EofFinal, Contents, Pushed;
    assert HoldsLk(s.pc[e.p]) <==> s.lk == Some(e.p);
    LocksFrame(s, ReadApply(s, e), e.p);
  }

  lemma WriteLocks(s: State, e: Event)
    requires Inv(s) && e.p < |s.pc| && Writes(e) && WriteEnabled(s, e)
    ensures Locks(WriteApply(s, e))
  {
    hide Ends, FreedOk, Appended, Calls, ReaderAwake, WriterAwake, EofFinal, Contents, Pushed;
    assert HoldsLk(s.pc[e.p]) <==> s.lk == Some(e.p);
    LocksFrame(s, WriteApply(s, e), e.p);
  }

  lemma CloseLocks(s: State, e: Event)
    requires Inv(s) && e.p < |s.pc| && Closes(e) && CloseEnabled(s, e)
    ensures Locks(CloseApply(s, e))
  {
    hide Ends, FreedOk, Fifo, Appended, Calls, ReaderAwake, WriterAwake, EofFinal, Contents, Pushed;
    assert HoldsLk(s.pc[e.p]) <==> s.lk == Some(e.p);
    LocksFrame(s, CloseApply(s, e), e.p);
  }

  lemma NotifyLocks(s: State, e: Event)
    requires Inv(s) && e.p < |s.pc| && Notifies(e) && NotifyEnabled(s, e)
    ensures Locks(NotifyApply(s, e))
  {
    hide Ends, FreedOk, Fifo, Appended, Calls, ReaderAwake, WriterAwake, EofFinal, Contents, Pushed;
    assert HoldsLk(s.pc[e.p]) <==> s.lk == Some(e.p);
    LocksFrame(s, NotifyApply(s, e), e.p);
  }

  // ---- Ends ----

  lemma ReadEnds(s: State, e: Event)
    requires Inv(s) && e.p < |s.pc| && Reads(e) && ReadEnabled(s, e)
    ensures Ends(ReadApply(s, e))
  {
    hide Locks, FreedOk, Fifo, Appended, Calls, ReaderAwake, WriterAwake, EofFinal, Contents, Pushed;
  }

  lemma WriteEnds(s: State, e: Event)
    requires Inv(s) && e.p < |s.pc| && Writes(e) && WriteEnabled(s, e)
    ensures Ends(WriteApply(s, e))
  {
    hide Locks, FreedOk, Fifo, Appended, Calls, ReaderAwake, WriterAwake, EofFinal, Contents, Pushed;
  }

  lemma CloseEnds(s: State, e: Event)
    requires Inv(s) && e.p < |s.pc| && Closes(e) && CloseEnabled(s, e)
    ensures Ends(CloseApply(s, e))
  {
    hide Locks, FreedOk, Fifo, Appended, Calls, ReaderAwake, WriterAwake, EofFinal, Contents, Pushed;
  }

  lemma NotifyEnds(s: State, e: Event)
    requires Inv(s) && e.p < |s.pc| && Notifies(e) && NotifyEnabled(s, e)
    ensures Ends(NotifyApply(s, e))
  {
    hide Locks, FreedOk, Fifo, Appended, Calls, ReaderAwake, WriterAwake, EofFinal, Contents, Pushed;
  }

  // ---- FreedOk ----

  lemma ReadFreedOk(s: State, e: Event)
    requires Inv(s) && e.p < |s.pc| && Reads(e) && ReadEnabled(s, e)
    ensures FreedOk(ReadApply(s, e))
  {
    hide Fifo, Appended, Calls, ReaderAwake, WriterAwake, EofFinal, Contents, Pushed;
  }

  lemma WriteFreedOk(s: State, e: Event)
    requires Inv(s) && e.p < |s.pc| && Writes(e) && WriteEnabled(s, e)
    ensures FreedOk(WriteApply(s, e))
  {
    hide Fifo, Appended, Calls, ReaderAwake, WriterAwake, EofFinal, Contents, Pushed;
  }

  lemma CloseFreedOk(s: State, e: Event)
    requires Inv(s) && e.p < |s.pc| && Closes(e) && CloseEnabled(s, e)
    ensures FreedOk(CloseApply(s, e))
  {
    hide Fifo, Appended, Calls, ReaderAwake, WriterAwake, EofFinal, Contents, Pushed;
  }

  lemma NotifyFreedOk(s: State, e: Event)
    requires Inv(s) && e.p < |s.pc| && Notifies(e) && NotifyEnabled(s, e)
    ensures FreedOk(NotifyApply(s, e))
  {
    hide Fifo, Appended, Calls, ReaderAwake, WriterAwake, EofFinal, Contents, Pushed;
  }

  // ---- Fifo ----

  lemma ReadFifo(s: State, e: Event)
    requires Inv(s) && e.p < |s.pc| && Reads(e) && ReadEnabled(s, e)
    ensures Fifo(ReadApply(s, e))
  {
    hide Locks, Ends, FreedOk, Appended, Calls, ReaderAwake, WriterAwake, EofFinal, Contents, Pushed;
    if e.RTake? {
      var n := Min(s.pc[e.p].len, s.ring.count);
      PoppedContents(s.ring, n);
      var q := Contents(s.ring);
      assert s.delivered + q[..n] + q[n..] == s.delivered + q;
    }
  }

  lemma UntagAppend(a: seq<(nat, Byte)>, call: nat, d: seq<Byte>)
    ensures Untag(a + Tagged(call, d)) == Untag(a) + d
  {
  }

  lemma WriteFifo(s: State, e: Event)
    requires Inv(s) && e.p < |s.pc| && Writes(e) && WriteEnabled(s, e)
    ensures Fifo(WriteApply(s, e))
  {
    hide Locks, Ends, FreedOk, Appended, Calls, ReaderAwake, WriterAwake, EofFinal, Contents, Pushed;
    if e.WAppend? {
      var d := NextBytes(s, s.pc[e.p].job);
      PushedContents(s.ring, d, e.t);
      UntagAppend(s.accepted, s.pc[e.p].job.call, d);
      assert s.delivered + Contents(s.ring) + d == s.delivered + (Contents(s.ring) + d);
    }
  }

  lemma CloseFifo(s: State, e: Event)
    requires Inv(s) && e.p < |s.pc| && Closes(e) && CloseEnabled(s, e)
    ensures Fifo(CloseApply(s, e))
  {
    hide Locks, Ends, FreedOk, Appended, Calls, ReaderAwake, WriterAwake, EofFinal, Contents, Pushed;
  }

  lemma NotifyFifo(s: State, e: Event)
    requires Inv(s) && e.p < |s.pc| && Notifies(e) && NotifyEnabled(s, e)
    ensures Fifo(NotifyApply(s, e))
  {
    hide Locks, Ends, FreedOk, Appended, Calls, ReaderAwake, WriterAwake, EofFinal, Contents, Pushed;
  }

  // ---- What each call appended ----

  lemma {:induction false} OfAppend(a: seq<(nat, Byte)>, call: nat, d: seq<Byte>, k: nat)
    ensures Of(a + Tagged(call, d), k) == Of(a, k) + if k == call then d else []
    decreases |d|
  {
    if d == [] {
      assert a + Tagged(call, d) == a;
    } else {
      var n := |d| - 1;
      var b := a + Tagged(call, d);
      OfAppend(a, call, d[..n], k);
      assert b[..|b| - 1] == a + Tagged(call, d[..n]);
      assert d == d[..n] + [d[n]];
    }
  }

  lemma {:induction false} OfNone(a: seq<(nat, Byte)>, k: nat)
    requires forall i :: 0 <= i < |a| ==> a[i].0 != k
    ensures Of(a, k) == []
    decreases |a|
  {
    if a != [] {
      OfNone(a[..|a| - 1], k);
    }
  }

  lemma ReadAppended(s: State, e: Event)
    requires Inv(s) && e.p < |s.pc| && Reads(e) && ReadEnabled(s, e)
    ensures Appended(ReadApply(s, e))
  {
    hide Of, Locks, Ends, FreedOk, Fifo, Calls, ReaderAwake, WriterAwake, EofFinal, Contents, Pushed;
  }

  lemma WAppendAppended(s: State, e: Event)
    requires Inv(s) && e.p < |s.pc| && e.WAppend? && WriteEnabled(s, e)
    ensures Appended(WriteApply(s, e))
  {
    hide Of, Locks, Ends, FreedOk, ReaderAwake, WriterAwake, EofFinal, Contents, Pushed;
    var j := s.pc[e.p].job;
    var d := NextBytes(s, j);
    var t := WriteApply(s, e);
    assert AppendedOk(s.accepted, s.pc[e.p]);
    assert CallOf(s.pc[e.p]) == Some(j.call);
    forall q | 0 <= q < |t.pc| ensures AppendedOk(t.accepted, t.pc[q]) {
      if q == e.p {
        OfAppend(s.accepted, j.call, d, j.call);
        assert j.src[..j.done] + d == j.src[..j.done + |d|];
      } else if CallOf(s.pc[q]).Some? {
        OfAppend(s.accepted, j.call, d, CallOf(s.pc[q]).value);
        assert CallOf(s.pc[q]) != CallOf(s.pc[e.p]);
        assert AppendedOk(s.accepted, s.pc[q]);
      }
    }
  }

  lemma WriteAppended(s: State, e: Event)
    requires Inv(s) && e.p < |s.pc| && Writes(e) && WriteEnabled(s, e)
    ensures Appended(WriteApply(s, e))
  {
    hide Of, Locks, Ends, FreedOk, Fifo, ReaderAwake, WriterAwake, EofFinal, Contents, Pushed;
    if e.WAppend? {
      WAppendAppended(s, e);
    } else if e.WriteCall? {
      OfNone(s.accepted, s.calls);
    }
  }

  lemma CloseAppended(s: State, e: Event)
    requires Inv(s) && e.p < |s.pc| && Closes(e) && CloseEnabled(s, e)
    ensures Appended(CloseApply(s, e))
  {
    hide Of, Locks, Ends, FreedOk, Fifo, Calls, ReaderAwake, WriterAwake, EofFinal, Contents, Pushed;
  }

  lemma NotifyAppended(s: State, e: Event)
    requires Inv(s) && e.p < |s.pc| && Notifies(e) && NotifyEnabled(s, e)
    ensures Appended(NotifyApply(s, e))
  {
    hide Of, Locks, Ends, FreedOk, Fifo, Calls, ReaderAwake, WriterAwake, EofFinal, Contents, Pushed;
  }

  /** Calls are numbered once: a step may only end them. */
  lemma CallsFrame(s: State, t: State)
    requires Calls(s) && |t.pc| == |s.pc| && t.calls == s.calls
    requires forall p :: 0 <= p < |s.pc| ==> CallOf(t.pc[p]) == CallOf(s.pc[p]) || CallOf(t.pc[p]) == None
    requires forall i :: 0 <= i < |t.accepted| ==> t.accepted[i].0 < s.calls
    ensures Calls(t)
  {
    hide CallOf;
  }

  lemma ReadCalls(s: State, e: Event)
    requires Inv(s) && e.p < |s.pc| && Reads(e) && ReadEnabled(s, e)
    ensures Calls(ReadApply(s, e))
  {
    hide Locks, Ends, FreedOk, Appended, ReaderAwake, WriterAwake, EofFinal, Contents, Pushed;
    var t := ReadApply(s, e);
    assert forall q :: 0 <= q < |s.pc| && q != e.p ==> t.pc[q] == s.pc[q];
    CallsFrame(s, t);
  }

  lemma WriteCalls(s: State, e: Event)
    requires Inv(s) && e.p < |s.pc| && Writes(e) && WriteEnabled(s, e)
    ensures Calls(WriteApply(s, e))
  {
    hide Locks, Ends, FreedOk, Appended, ReaderAwake, WriterAwake, EofFinal, Contents, Pushed;
    if e.WAppend? {
      assert CallOf(s.pc[e.p]) == Some(s.pc[e.p].job.call);
    }
    if !e.WriteCall? {
      CallsFrame(s, WriteApply(s, e));
    }
  }

  lemma CloseCalls(s: State, e: Event)
    requires Inv(s) && e.p < |s.pc| && Closes(e) && CloseEnabled(s, e)
    ensures Calls(CloseApply(s, e))
  {
    hide Locks, Ends, FreedOk, Fifo, Appended, ReaderAwake, WriterAwake, EofFinal, Contents, Pushed;
    var t := CloseApply(s, e);
    assert forall q :: 0 <= q < |s.pc| && q != e.p ==> t.pc[q] == s.pc[q];
    CallsFrame(s, t);
  }

  lemma NotifyCalls(s: State, e: Event)
    requires Inv(s) && e.p < |s.pc| && Notifies(e) && NotifyEnabled(s, e)
    ensures Calls(NotifyApply(s, e))
  {
    hide Locks, Ends, FreedOk, Fifo, Appended, ReaderAwake, WriterAwake, EofFinal, Contents, Pushed;
    CallsFrame(s, NotifyApply(s, e));
  }

  // ---- ReaderAwake ----

  lemma ReadReaderAwake(s: State, e: Event)
    requires Inv(s) && e.p < |s.pc| && Reads(e) && ReadEnabled(s, e)
    ensures ReaderAwake(ReadApply(s, e))
  {
    hide Ends, FreedOk, Appended, Calls, WriterAwake, EofFinal, Contents, Pushed;
  }

  lemma WriteReaderAwake(s: State, e: Event)
    requires Inv(s) && e.p < |s.pc| && Writes(e) && WriteEnabled(s, e)
    ensures ReaderAwake(WriteApply(s, e))
  {
    hide Ends, FreedOk, Appended, Calls, WriterAwake, EofFinal, Contents, Pushed;
  }

  lemma CloseReaderAwake(s: State, e: Event)
    requires Inv(s) && e.p < |s.pc| && Closes(e) && CloseEnabled(s, e)
    ensures ReaderAwake(CloseApply(s, e))
  {
    hide Ends, FreedOk, Appended, Calls, WriterAwake, EofFinal, Contents, Pushed;
  }

  lemma NotifyReaderAwake(s: State, e: Event)
    requires Inv(s) && e.p < |s.pc| && Notifies(e) && NotifyEnabled(s, e)
    ensures ReaderAwake(NotifyApply(s, e))
  {
    hide Ends, FreedOk, Appended, Calls, WriterAwake, EofFinal, Contents, Pushed;
  }

  // ---- WriterAwake ----

  lemma ReadWriterAwake(s: State, e: Event)
    requires Inv(s) && e.p < |s.pc| && Reads(e) && ReadEnabled(s, e)
    ensures WriterAwake(ReadApply(s, e))
  {
    hide Ends, FreedOk, Appended, Calls, ReaderAwake, EofFinal, Contents, Pushed;
  }

  lemma WriteWriterAwake(s: State, e: Event)
    requires Inv(s) && e.p < |s.pc| && Writes(e) && WriteEnabled(s, e)
    ensures WriterAwake(WriteApply(s, e))
  {
    hide Ends, FreedOk, Appended, Calls, ReaderAwake, EofFinal, Contents, Pushed;
  }

  lemma CloseWriterAwake(s: State, e: Event)
    requires Inv(s) && e.p < |s.pc| && Closes(e) && CloseEnabled(s, e)
    ensures WriterAwake(CloseApply(s, e))
  {
    hide Ends, FreedOk, Appended, Calls, ReaderAwake, EofFinal, Contents, Pushed;
  }

  lemma NotifyWriterAwake(s: State, e: Event)
    requires Inv(s) && e.p < |s.pc| && Notifies(e) && NotifyEnabled(s, e)
    ensures WriterAwake(NotifyApply(s, e))
  {
    hide Ends, FreedOk, Appended, Calls, ReaderAwake, EofFinal, Contents, Pushed;
  }

  // ---- EofFinal ----

  lemma ReadEofFinal(s: State, e: Event)
    requires Inv(s) && e.p < |s.pc| && Reads(e) && ReadEnabled(s, e)
    ensures EofFinal(ReadApply(s, e))
  {
    hide Locks, FreedOk, Fifo, Appended, Calls, ReaderAwake, WriterAwake, Contents, Pushed;
  }

  lemma WriteEofFinal(s: State, e: Event)
    requires Inv(s) && e.p < |s.pc| && Writes(e) && WriteEnabled(s, e)
    ensures EofFinal(WriteApply(s, e))
  {
    hide Locks, FreedOk, Fifo, Appended, Calls, ReaderAwake, WriterAwake, Contents, Pushed;
  }

  lemma CloseEofFinal(s: State, e: Event)
    requires Inv(s) && e.p < |s.pc| && Closes(e) && CloseEnabled(s, e)
    ensures EofFinal(CloseApply(s, e))
  {
    hide Locks, FreedOk, Fifo, Appended, Calls, ReaderAwake, WriterAwake, Contents, Pushed;
  }

  lemma NotifyEofFinal(s: State, e: Event)
    requires Inv(s) && e.p < |s.pc| && Notifies(e) && NotifyEnabled(s, e)
    ensures EofFinal(NotifyApply(s, e))
  {
    hide Locks, FreedOk, Fifo, Appended, Calls, ReaderAwake, WriterAwake, Contents, Pushed;
  }

  // ---- Every step, every run ----

  lemma ReadInv(s: State, e: Event)
    requires Inv(s) && e.p < |s.pc| && Reads(e) && ReadEnabled(s, e)
    ensures Inv(ReadApply(s, e))
  {
    hide Locks, Ends, FreedOk, Appended, Calls, ReaderAwake, WriterAwake, EofFinal, Contents, ReadApply, ReadEnabled;
    ReadLocks(s, e);
    ReadEnds(s, e);
    ReadFreedOk(s, e);
    ReadFifo(s, e);
    ReadAppended(s, e);
    ReadCalls(s, e);
    ReadReaderAwake(s, e);
    ReadWriterAwake(s, e);
    ReadEofFinal(s, e);
  }

  lemma WriteInv(s: State, e: Event)
    requires Inv(s) && e.p < |s.pc| && Writes(e) && WriteEnabled(s, e)
    ensures Inv(WriteApply(s, e))
  {
    hide Locks, Ends, FreedOk, Appended, Calls, ReaderAwake, WriterAwake, EofFinal, Contents, WriteApply, WriteEnabled;
    WriteLocks(s, e);
    WriteEnds(s, e);
    WriteFreedOk(s, e);
    WriteFifo(s, e);
    WriteAppended(s, e);
    WriteCalls(s, e);
    WriteReaderAwake(s, e);
    WriteWriterAwake(s, e);
    WriteEofFinal(s, e);
  }

  lemma CloseInv(s: State, e: Event)
    requires Inv(s) && e.p < |s.pc| && Closes(e) && CloseEnabled(s, e)
    ensures Inv(CloseApply(s, e))
  {
    hide Locks, Ends, FreedOk, Appended, Calls, ReaderAwake, WriterAwake, EofFinal, Contents, CloseApply, CloseEnabled;
    CloseLocks(s, e);
    CloseEnds(s, e);
    CloseFreedOk(s, e);
    CloseFifo(s, e);
    CloseAppended(s, e);
    CloseCalls(s, e);
    CloseReaderAwake(s, e);
    CloseWriterAwake(s, e);
    CloseEofFinal(s, e);
  }

  lemma NotifyInv(s: State, e: Event)
    requires Inv(s) && e.p < |s.pc| && Notifies(e) && NotifyEnabled(s, e)
    ensures Inv(NotifyApply(s, e))
  {
    hide Locks, Ends, FreedOk, Appended, Calls, ReaderAwake, WriterAwake, EofFinal, Contents, NotifyApply, NotifyEnabled;
    NotifyLocks(s, e);
    NotifyEnds(s, e);
    NotifyFreedOk(s, e);
    NotifyFifo(s, e);
    NotifyAppended(s, e);
    NotifyCalls(s, e);
    NotifyReaderAwake(s, e);
    NotifyWriterAwake(s, e);
    NotifyEofFinal(s, e);
  }

  lemma StepInv(s: State, e: Event)
    requires Inv(s) && Enabled(s, e)
    ensures Inv(Apply(s, e))
  {
    hide Inv, ReadApply, ReadEnabled, WriteApply, WriteEnabled, CloseApply, CloseEnabled, NotifyApply, NotifyEnabled;
    if Reads(e) {
      ReadInv(s, e);
    } else if Writes(e) {
      WriteInv(s, e);
    } else if Notifies(e) {
      NotifyInv(s, e);
    } else {
      CloseInv(s, e);
    }
  }

  /** The steps `es`, in order, lead from `s` to `t`. */
  ghost predicate Run(s: State, es: seq<Event>, t: State)
    decreases |es|
  {
    if es == [] then s == t else Enabled(s, es[0]) && Run(Apply(s, es[0]), es[1..], t)
  }

  lemma {:induction false} RunInv(s: State, es: seq<Event>, t: State)
    requires Inv(s) && Run(s, es, t)
    ensures Inv(t)
    decreases |es|
  {
    hide Inv, Enabled, Apply;
    if es != [] {
      StepInv(s, es[0]);
      RunInv(Apply(s, es[0]), es[1..], t);
    }
  }

  /** In every reachable state whose pipe lock is free, whoever is BLOCKED has a reason to be. */
  lemma NoLostWakeup(s: State, es: seq<Event>, t: State)
    requires Init(s) && Run(s, es, t) && t.lk == None
    ensures forall p :: 0 <= p < |t.pc| && t.pc[p].RAsleep? ==> t.ring.count == 0 && Writers(t) > 0
    ensures forall p :: 0 <= p < |t.pc| && t.pc[p].WAsleep? ==> t.ring.count == PipeSize && Readers(t) > 0
  {
    hide Run;
    InitInv(s);
    RunInv(s, es, t);
  }

  /** The pipe is a queue of at most PipeSize bytes, and the results of its calls say what they did:
      a count is the length of the prefix appended, an error appended nothing, and end-of-file
      means that everything accepted was delivered and no writer remains. */
  lemma PipeIsQueue(s: State, es: seq<Event>, t: State)
    requires Init(s) && Run(s, es, t)
    ensures Valid(t.ring) && |Contents(t.ring)| <= PipeSize
    ensures Untag(t.accepted) == t.delivered + Contents(t.ring)
    ensures forall p :: 0 <= p < |t.pc| && t.pc[p].Out? && t.pc[p].res.Wrote? ==>
              var r := t.pc[p].res; r.n <= |r.src| && Of(t.accepted, r.call) == r.src[..r.n]
    ensures forall p :: 0 <= p < |t.pc| && t.pc[p].Out? && t.pc[p].res.WriteFailed? ==> Of(t.accepted, t.pc[p].res.call) == []
    ensures forall p :: 0 <= p < |t.pc| && t.pc[p] == Out(Eof) ==> Untag(t.accepted) == t.delivered && Writers(t) == 0
  {
    hide Run, Contents, Of;
    InitInv(s);
    RunInv(s, es, t);
    forall p | 0 <= p < |t.pc| ensures AppendedOk(t.accepted, t.pc[p]) {
    }
    if t.ring.count == 0 {
      assert Contents(t.ring) == [];
    }
  }

  /** No call is under way on a pipe that has been freed, and it is not freed again. */
  lemma FreedUnused(s: State, es: seq<Event>, t: State)
    requires Init(s) && Run(s, es, t) && t.freed
    ensures forall p :: 0 <= p < |t.pc| ==> t.pc[p].Out?
    ensures forall e: Event :: e.Free? ==> !Enabled(t, e)
    ensures forall e: Event :: e.ReadCall? || e.WriteCall? ==> !Enabled(t, e)
  {
    hide Run;
    InitInv(s);
    RunInv(s, es, t);
  }
}

/** What one call of pipe_read, pipe_write and pipe_release does, on the states before and after its
    steps (kernel/fs/pipe.c:37-124). */
module PipeCalls {
  import opened PipeRing
  import opened PipeProto
  import opened PipeSafe

  // ---- Only the last step of a call ends it ----

  lemma NotifyStays(s: State, e: Event, t: State, p: nat)
    requires Notifies(e) && e.p < |s.pc| && NotifyEnabled(s, e) && t == NotifyApply(s, e) && p < |s.pc| && !s.pc[p].Out?
    ensures |t.pc| == |s.pc| && !t.pc[p].Out?
  {
  }

  lemma CloseStays(s: State, e: Event, t: State, p: nat)
    requires Closes(e) && e.p < |s.pc| && CloseEnabled(s, e) && t == CloseApply(s, e)
    requires p < |s.pc| && !s.pc[p].Out? && (e.p != p || Reading(s.pc[p]) || Writing(s.pc[p]))
    ensures |t.pc| == |s.pc| && !t.pc[p].Out?
  {
  }

  lemma ReadStays(s: State, e: Event, t: State, p: nat)
    requires Valid(s.ring) && Reads(e) && e.p < |s.pc| && ReadEnabled(s, e) && t == ReadApply(s, e) && p < |s.pc| && !s.pc[p].Out?
    ensures |t.pc| == |s.pc| && (e.p != p || Writing(s.pc[p]) || !(e.REof? || e.RIntr? || e.REnd?) ==> !t.pc[p].Out?)
  {
    hide Contents;
  }

  lemma WriteStays(s: State, e: Event, t: State, p: nat)
    requires Valid(s.ring) && Writes(e) && e.p < |s.pc| && WriteEnabled(s, e) && t == WriteApply(s, e) && p < |s.pc| && !s.pc[p].Out?
    ensures |t.pc| == |s.pc| && (e.p != p || Reading(s.pc[p]) || !(e.WEnd? || e.WBroken? || e.WIntr?) ==> !t.pc[p].Out?)
  {
    hide Contents, Pushed, NextBytes, Tagged;
  }

  lemma LastStep(s: State, e: Event, p: nat)
    requires Enabled(s, e) && p < |s.pc| && (Reading(s.pc[p]) || Writing(s.pc[p]))
    ensures |Apply(s, e).pc| == |s.pc|
    ensures Apply(s, e).pc[p].Out? ==> e.p == p && (if Writing(s.pc[p]) then e.WEnd? || e.WBroken? || e.WIntr? else e.REof? || e.RIntr? || e.REnd?)
  {
    hide ReadApply, ReadEnabled, WriteApply, WriteEnabled, CloseApply, CloseEnabled, NotifyApply, NotifyEnabled;
    var t := Apply(s, e);
    if Reads(e) {
      ReadStays(s, e, t, p);
    } else if Writes(e) {
      WriteStays(s, e, t, p);
    } else if Notifies(e) {
      NotifyStays(s, e, t, p);
    } else {
      CloseStays(s, e, t, p);
    }
  }

  /** A step after which pipe_write has returned: the count is what the call has appended. Short of all
      its bytes, it returns only when no reader is left or, interrupted, on a full pipe. */
  lemma WriteReturns(s: State, e: Event, p: nat)
    requires Inv(s) && Enabled(s, e) && p < |s.pc| && Writing(s.pc[p])
    requires p < |Apply(s, e).pc| && Apply(s, e).pc[p].Out?
    ensures var j, r := s.pc[p].job, Apply(s, e).pc[p].res;
            && (r == Wrote(j.call, j.src, j.done) || (r == WriteFailed(j.call) && j.done == 0))
            && (r.Wrote? && r.n < |r.src| ==> r.n > 0)
            && (r.WriteFailed? || r.n < |r.src| ==> s.r == Closed || (s.ring.count == 16384 && e == WIntr(p)))
            && (s.r != Closed && e != WIntr(p) ==> r == Wrote(j.call, j.src, |j.src|))
  {
    hide Locks, Ends, FreedOk, Fifo, Calls, ReaderAwake, EofFinal, Of, Contents, Pushed, ReadApply, ReadEnabled, CloseApply, CloseEnabled,
         NotifyApply, NotifyEnabled;
    LastStep(s, e, p);
    assert AppendedOk(s.accepted, s.pc[p]);
  }

  /** A step after which pipe_read has returned: the bytes that it took; 0 on an empty pipe without
      writers; interrupted only while the pipe is empty and a writer is left. */
  lemma ReadReturns(s: State, e: Event, p: nat)
    requires Inv(s) && Enabled(s, e) && p < |s.pc| && Reading(s.pc[p])
    requires p < |Apply(s, e).pc| && Apply(s, e).pc[p].Out?
    ensures var r := Apply(s, e).pc[p].res;
            && (r.Got? || r == Eof || r == ReadFailed)
            && (r.Got? ==> s.pc[p] == RDone(r.data))
            && (r == Eof ==> s.pc[p].RTop? && s.ring.count == 0 && s.w == Closed)
            && (r == ReadFailed ==> s.pc[p].RTop? && s.ring.count == 0 && s.w != Closed && e == RIntr(p))
  {
    hide Locks, Ends, FreedOk, Fifo, Calls, Appended, ReaderAwake, WriterAwake, EofFinal, Of, Contents, Pushed, WriteApply, WriteEnabled,
         CloseApply, CloseEnabled, NotifyApply, NotifyEnabled;
    LastStep(s, e, p);
  }

  /** What the reader that holds the lock does next: it takes bytes whenever there are some, and never
      sleeps on an empty pipe without writers. */
  lemma ReaderTurn(s: State, e: Event)
    requires Inv(s) && Enabled(s, e) && s.pc[e.p].RTop?
    ensures s.ring.count > 0 ==> e.RTake?
    ensures s.ring.count == 0 && s.w == Closed ==> e.REof?
    ensures s.ring.count == 0 && s.w != Closed ==> e.RIntr? || e.RSleep1?
    ensures e.RTake? ==>
              var len, t := s.pc[e.p].len, Apply(s, e);
              var n := if len < s.ring.count then len else s.ring.count;
              |Contents(s.ring)| == s.ring.count && t.pc[e.p] == RWake(Contents(s.ring)[..n]) && Contents(t.ring) == Contents(s.ring)[n..]
              && t.delivered == s.delivered + Contents(s.ring)[..n] && t.accepted == s.accepted
  {
    hide Locks, Ends, FreedOk, Calls, Appended, ReaderAwake, WriterAwake, EofFinal, Of, Contents, Pushed;
    if e.RTake? {
      PoppedContents(s.ring, Min(s.pc[e.p].len, s.ring.count));
    }
  }

  /** What the writer that holds the lock does next: done it returns, without readers it fails, on a full
      pipe it gives way, and otherwise it appends as many of its bytes as fit. */
  lemma WriterTurn(s: State, e: Event)
    requires Inv(s) && Enabled(s, e) && s.pc[e.p].WTop?
    ensures var j := s.pc[e.p].job;
            && j.done <= |j.src|
            && (j.done == |j.src| ==> e.WEnd?)
            && (j.done < |j.src| && s.r == Closed ==> e.WBroken?)
            && (j.done < |j.src| && s.r != Closed && s.ring.count == 16384 ==> e.WSeesFull?)
            && (j.done < |j.src| && s.r != Closed && s.ring.count != 16384 ==> e.WAppend?)
  {
    hide Locks, Ends, FreedOk, Fifo, Calls, ReaderAwake, WriterAwake, EofFinal, Of, Contents, Pushed, NextBytes;
    assert AppendedOk(s.accepted, s.pc[e.p]);
  }

  lemma WriterAppends(s: State, e: Event)
    requires Inv(s) && Enabled(s, e) && e.WAppend?
    ensures var j, t := s.pc[e.p].job, Apply(s, e);
            var n := if |j.src| - j.done < 16384 - s.ring.count then |j.src| - j.done else 16384 - s.ring.count;
            n > 0 && j.done + n <= |j.src| && t.pc[e.p] == WWake(j.(done := j.done + n)) && t.delivered == s.delivered
            && Contents(t.ring) == Contents(s.ring) + j.src[j.done..j.done + n]
  {
    hide Locks, Ends, FreedOk, Fifo, Calls, ReaderAwake, WriterAwake, EofFinal, Of, Contents, Pushed, ReadApply, ReadEnabled, CloseApply,
         CloseEnabled, NotifyApply, NotifyEnabled, Tagged;
    assert AppendedOk(s.accepted, s.pc[e.p]);
    PushedContents(s.ring, NextBytes(s, s.pc[e.p].job), e.t);
  }

  /** proc_wakeup: every process asleep on the channel goes on, and nobody else moves but the caller. */
  lemma WakesAll(s: State, e: Event, q: nat)
    requires Enabled(s, e) && Notifies(e) && q < |s.pc| && q != e.p
    ensures |Apply(s, e).pc| == |s.pc|
    ensures var writers := e.RNotify? || e.CNotifyW?;
            Apply(s, e).pc[q] ==
              if s.pc[q].RAsleep? && !writers then RWant(s.pc[q].len)
              else if s.pc[q].WAsleep? && writers then WWant(s.pc[q].job)
              else s.pc[q]
  {
  }

  /** After taking bytes a reader wakes the writers, after appending some a writer wakes the readers, and
      a writer wakes them again before it sleeps. */
  lemma WakesNext(s: State, e: Event)
    requires Enabled(s, e)
    ensures s.pc[e.p].RWake? ==> e.RNotify?
    ensures s.pc[e.p].WWake? ==> e.WNotify?
    ensures s.pc[e.p].WFull? ==> e.WIntr? || e.WFullWake?
    ensures s.pc[e.p].RDone? ==> e.REnd?
    ensures s.pc[e.p].CWakeR? ==> e.CNotifyR?
    ensures s.pc[e.p].CWakeW? ==> e.CNotifyW?
  {
    hide Contents, Pushed, NextBytes, Valid;
  }

  /** Then it goes on: a reader to return its bytes, a writer to its loop or to sleep, a release to wake
      the other channel and to its end. */
  lemma WakesOn(s: State, e: Event)
    requires Enabled(s, e) && Notifies(e)
    ensures |Apply(s, e).pc| == |s.pc|
    ensures var x, y := s.pc[e.p], Apply(s, e).pc[e.p];
            && (e.RNotify? ==> x.RWake? && y == RDone(x.data)) && (e.WNotify? ==> x.WWake? && y == WTop(x.job))
            && (e.WFullWake? ==> x.WFull? && y == WTired(x.job)) && (e.CNotifyR? ==> y == CWakeW) && (e.CNotifyW? ==> y == CEnd)
  {
    hide ReadApply, ReadEnabled, WriteApply, WriteEnabled, CloseApply, CloseEnabled, Valid;
  }

  /** Dropping the last file of an end closes that end only, and the pipe is freed when both are closed. */
  lemma Releases(s: State, e: Event, t: State)
    requires Inv(s) && Enabled(s, e) && t == Apply(s, e)
    ensures |t.pc| == |s.pc|
    ensures s.pc[e.p].CTop? ==> e.CDrop?
    ensures e.CDrop? ==>
              s.pc[e.p].CTop? && t.pc[e.p] == CWakeR && (if s.pc[e.p].w then t.w == Closed && t.r == s.r else t.r == Closed && t.w == s.w)
    ensures s.pc[e.p].CEnd? ==> e.CUnlock?
    ensures e.CUnlock? ==> t.pc[e.p] == if s.r == Closed && s.w == Closed then CFree else Out(NoCall)
    ensures s.pc[e.p].CFree? ==> e.Free?
    ensures e.Free? ==> t.freed && t.pc[e.p] == Out(NoCall)
  {
    hide Inv, ReadApply, WriteApply, NotifyApply, Contents, Pushed, NextBytes;
    StepSize(s, e, t);
  }

  lemma ReadSize(s: State, e: Event)
    requires Valid(s.ring) && Reads(e) && e.p < |s.pc| && ReadEnabled(s, e)
    ensures |ReadApply(s, e).pc| == |s.pc|
  {
    hide Contents;
  }

  lemma WriteSize(s: State, e: Event)
    requires Valid(s.ring) && Writes(e) && e.p < |s.pc| && WriteEnabled(s, e)
    ensures |WriteApply(s, e).pc| == |s.pc|
  {
    hide Pushed, NextBytes, Tagged, Partial;
  }

  lemma StepSize(s: State, e: Event, t: State)
    requires Enabled(s, e) && t == Apply(s, e)
    ensures |t.pc| == |s.pc|
  {
    hide ReadApply, ReadEnabled, WriteApply, WriteEnabled;
    if Reads(e) {
      ReadSize(s, e);
    } else if Writes(e) {
      WriteSize(s, e);
    }
  }

  lemma NoOtherRelease(s: State, e: Event)
    requires Enabled(s, e) && !e.CDrop? && !e.CloseCall?
    ensures Apply(s, e).r == s.r && Apply(s, e).w == s.w && (e.Free? || Apply(s, e).freed == s.freed)
  {
    hide ReadEnabled, WriteEnabled, CloseEnabled, NotifyEnabled, Contents, Pushed, NextBytes, Tagged, Partial;
  }

  /** A call begins with nothing done; reading 0 bytes is over at once. */
  lemma CallsBegin(s: State, e: Event)
    requires Enabled(s, e) && (e.ReadCall? || e.WriteCall?)
    ensures e.ReadCall? ==> s.r == Open && Apply(s, e) == s.(pc := s.pc[e.p := if e.len == 0 then Out(Got([])) else RWant(e.len)])
    ensures e.WriteCall? ==>
              s.w == Open && Apply(s, e).calls > s.calls
              && Apply(s, e) == s.(pc := s.pc[e.p := WWant(Job(s.calls, e.src, 0))], calls := Apply(s, e).calls)
  {
    hide Contents, Pushed;
  }

  /** The last file of an end is closed when nobody is in a call on it; an interruption sends a sleeper
      back to its loop. */
  lemma CallsEnd(s: State, p: nat, w: bool)
    requires PipeRing.Valid(s.ring) && p < |s.pc|
    ensures Enabled(s, CloseCall(p, w)) <==>
              s.pc[p].Out? && (if w then s.w else s.r) == Open
              && forall q :: 0 <= q < |s.pc| ==> if w then !Writing(s.pc[q]) else !Reading(s.pc[q])
    ensures Enabled(s, CloseCall(p, w)) ==>
              var t := Apply(s, CloseCall(p, w));
              t == s.(pc := s.pc[p := CWant(w)], r := t.r, w := t.w) && (if w then t.w == Closing(p) && t.r == s.r else t.r == Closing(p) && t.w == s.w)
    ensures Enabled(s, Signal(p)) <==> (s.pc[p].RAsleep? || s.pc[p].WAsleep?) && s.pl == None
    ensures Enabled(s, Signal(p)) ==>
              Apply(s, Signal(p)) == s.(pc := s.pc[p := if s.pc[p].RAsleep? then RWant(s.pc[p].len) else WWant(s.pc[p].job)])
  {
    hide Contents, Pushed;
  }

  // ---- No deadlock ----

  /** The ring with bytes stored behind its tail. */
  function Stored(r: Ring, data: seq<Byte>): (t: Ring)
    requires PipeRing.Valid(r)
    ensures |t.buf| == |r.buf|
  {
    if data == [] then r
    else
      var n := |data| - 1;
      var t := Stored(r, data[..n]);
      Ring(t.buf[Slot(r.head, r.count + n) := data[n]], r.head, r.count + n + 1)
  }

  lemma {:induction false} StoredPushed(r: Ring, data: seq<Byte>)
    requires PipeRing.Valid(r) && r.count + |data| <= PipeSize
    ensures Pushed(r, data, Stored(r, data))
    decreases |data|
  {
    hide Slot, Pushed;
    if data == [] {
      PushedNone(r);
    } else {
      var n := |data| - 1;
      StoredPushed(r, data[..n]);
      var t := Stored(r, data[..n]);
      PushedShape(r, data[..n], t);
      PushOne(r, data[..n], t.buf, data[n]);
      assert data == data[..n] + [data[n]];
    }
  }

  lemma PushedShape(r: Ring, data: seq<Byte>, t: Ring)
    requires Pushed(r, data, t)
    ensures t == Ring(t.buf, r.head, r.count + |data|) && |t.buf| == PipeSize
  {
  }

  /** What the process does next when no interruption comes. */
  function NextOf(s: State, p: nat): (e: Event)
    requires PipeRing.Valid(s.ring) && p < |s.pc| && (Writing(s.pc[p]) ==> s.pc[p].job.done <= |s.pc[p].job.src|)
  {
    match s.pc[p]
    case RWant(_) => RLock(p)
    case RTop(_) => if s.ring.count > 0 then RTake(p) else if s.w == Closed then REof(p) else RSleep1(p)
    case RSleep(_) => RSleep2(p)
    case RDrop(_) => RSleep3(p)
    case RWake(_) => RNotify(p)
    case RDone(_) => REnd(p)
    case WWant(_) => WLock(p)
    case WTop(j) =>
      if j.done == |j.src| then WEnd(p)
      else if s.r == Closed then WBroken(p)
      else if s.ring.count == 16384 then WSeesFull(p)
      else WAppend(p, Stored(s.ring, j.src[j.done..j.done + Min(|j.src| - j.done, 16384 - s.ring.count)]))
    case WFull(_) => WFullWake(p)
    case WTired(_) => WSleep1(p)
    case WSleep(_) => WSleep2(p)
    case WDrop(_) => WSleep3(p)
    case WWake(_) => WNotify(p)
    case CWant(_) => CLock(p)
    case CTop(_) => CDrop(p)
    case CWakeR => CNotifyR(p)
    case CWakeW => CNotifyW(p)
    case CEnd => CUnlock(p)
    case CFree => Free(p)
    case _ => Signal(p)
  }

  /** A process in a call, and not BLOCKED, can do that unless it waits for a lock that another holds. */
  lemma Proceeds(s: State, p: nat)
    requires Inv(s) && p < |s.pc| && !s.pc[p].Out? && !s.pc[p].RAsleep? && !s.pc[p].WAsleep?
    requires (s.pc[p].RWant? || s.pc[p].WWant? || s.pc[p].CWant?) ==> s.lk == None
    requires s.pl == None || s.pl == Some(p)
    ensures Writing(s.pc[p]) ==> s.pc[p].job.done <= |s.pc[p].job.src|
    ensures Enabled(s, NextOf(s, p))
  {
    hide Ends, FreedOk, Calls, ReaderAwake, WriterAwake, EofFinal, Of, Contents, Pushed, Stored;
    assert AppendedOk(s.accepted, s.pc[p]);
    assert HoldsPl(s.pc[p]) <==> s.pl == Some(p);
    if s.pc[p].WTop? {
      var j := s.pc[p].job;
      if j.done < |j.src| && s.ring.count < 16384 {
        StoredPushed(s.ring, NextBytes(s, j));
      }
    }
  }

  /** While some call is under way whose process is not BLOCKED, some process can take such a step. */
  lemma NoDeadlock(s: State, p: nat)
    requires Inv(s) && p < |s.pc| && !s.pc[p].Out? && !s.pc[p].RAsleep? && !s.pc[p].WAsleep?
    ensures exists q :: 0 <= q < |s.pc| && !s.pc[q].Out? && !s.pc[q].RAsleep? && !s.pc[q].WAsleep?
                        && (Writing(s.pc[q]) ==> s.pc[q].job.done <= |s.pc[q].job.src|) && Enabled(s, NextOf(s, q))
  {
    hide Ends, FreedOk, Appended, Calls, ReaderAwake, WriterAwake, EofFinal, Of, Contents, NextOf, Enabled;
    var q := if s.pl.Some? then s.pl.value else if s.lk.Some? then s.lk.value else p;
    assert s.pl.Some? ==> HoldsPl(s.pc[q]);
    assert s.lk.Some? ==> HoldsLk(s.pc[s.lk.value]);
    Proceeds(s, q);
  }
}

/** The TLB-shootdown mailbox protocol (kernel/arch/smp.c:54-107) as atomic steps of any
    number of CPUs over a shared state. The set of online CPUs is constant, and a CPU that is not in
    tlb_shootdown may take the interrupt at any time, whether or not one was sent to it. */
module Tlb {

  /** Where a CPU stands in tlb_shootdown. */
  datatype Pc =
    | Idle                      // not in tlb_shootdown
    | Posting(next: nat)        // at the top of the posting loop
    | Storing(next: nat)        // pending already raised for `next`, slot not yet stored
    | Waiting                   // in the loop on `pending`

  /** Where a CPU stands in process_inbox. */
  datatype Handler =
    | Out
    | Scan(s: nat)              // about to exchange slot `s`
    | Flush(s: nat, k: nat)     // holds the request of `s`, first k pages flushed

  /** A tlb_req on the stack of its sender; `posted` records the CPUs it was sent to. */
  datatype Req = Req(virt: nat, pages: nat, pending: int, posted: set<nat>)

  datatype State = State(n: nat, online: set<nat>, pc: seq<Pc>, h: seq<Handler>, req: seq<Req>,
                         slot: set<(nat, nat)>, pt: set<nat>, tlb: seq<set<nat>>)

  predicate Shape(s: State) {
    |s.pc| == |s.h| == |s.req| == |s.tlb| == s.n
  }

  ghost predicate InRange(r: Req, p: nat) {
    r.virt <= p < r.virt + r.pages
  }

  /** The CPUs that have not acknowledged the request of `c`. */
  ghost function Owe(s: State, c: nat): set<nat>
    requires Shape(s) && c < s.n
  {
    set i | 0 <= i < s.n && Owes(s, i, c)
  }

  ghost predicate Owes(s: State, i: nat, c: nat)
    requires Shape(s) && c < s.n && i < s.n
  {
    (i, c) in s.slot || (s.h[i].Flush? && s.h[i].s == c) || s.pc[c] == Storing(i)
  }

  datatype Event =
    | Begin(c: nat, virt: nat, pages: nat)
    | Skip(c: nat) | Raise(c: nat) | Post(c: nat) | EndPosts(c: nat) | Return(c: nat)
    | Enter(c: nat) | Miss(c: nat) | Take(c: nat) | FlushOne(c: nat) | Ack(c: nat) | Leave(c: nat)
    | Fill(c: nat, p: nat) | Evict(c: nat, p: nat) | MapPage(p: nat) | UnmapPage(p: nat)

  predicate Target(s: State, c: nat, i: nat) {
    i != c && i in s.online
  }

  ghost predicate Enabled(s: State, e: Event)
    requires Shape(s)
  {
    match e
    case MapPage(p) => forall c :: 0 <= c < s.n && !s.pc[c].Idle? ==> !InRange(s.req[c], p)
    case UnmapPage(p) => true
    case Begin(c, virt, pages) =>
      c < s.n && s.pc[c].Idle? && s.h[c].Out? && forall p :: virt <= p < virt + pages ==> p !in s.pt
    case Skip(c) => c < s.n && s.pc[c].Posting? && s.pc[c].next < s.n && !Target(s, c, s.pc[c].next)
    case Raise(c) => c < s.n && s.pc[c].Posting? && s.pc[c].next < s.n && Target(s, c, s.pc[c].next)
    case Post(c) => c < s.n && s.pc[c].Storing?
    case EndPosts(c) => c < s.n && s.pc[c].Posting? && s.pc[c].next >= s.n
    case Return(c) => c < s.n && s.pc[c].Waiting? && s.h[c].Out? && s.req[c].pending == 0
    case Enter(c) =>              // the IPI, or one round of the wait loop
      c < s.n && s.h[c].Out? && (s.pc[c].Idle? || (s.pc[c].Waiting? && s.req[c].pending > 0))
    case Miss(c) => c < s.n && s.h[c].Scan? && s.h[c].s < s.n && (c, s.h[c].s) !in s.slot
    case Take(c) => c < s.n && s.h[c].Scan? && s.h[c].s < s.n && (c, s.h[c].s) in s.slot
    case FlushOne(c) => c < s.n && s.h[c].Flush? && s.h[c].s < s.n && s.h[c].k < s.req[s.h[c].s].pages
    case Ack(c) => c < s.n && s.h[c].Flush? && s.h[c].s < s.n && s.h[c].k >= s.req[s.h[c].s].pages
    case Leave(c) => c < s.n && s.h[c].Scan? && s.h[c].s >= s.n
    case Fill(c, p) => c < s.n && p in s.pt
    case Evict(c, p) => c < s.n
  }

  ghost function Apply(s: State, e: Event): State
    requires Shape(s) && Enabled(s, e)
  {
    match e
    case MapPage(p) => s.(pt := s.pt + {p})
    case UnmapPage(p) => s.(pt := s.pt - {p})
    case Begin(c, virt, pages) => s.(pc := s.pc[c := Posting(0)], req := s.req[c := Req(virt, pages, 0, {})])
    case Skip(c) => s.(pc := s.pc[c := Posting(s.pc[c].next + 1)])
    case Raise(c) =>
      s.(pc := s.pc[c := Storing(s.pc[c].next)], req := s.req[c := s.req[c].(pending := s.req[c].pending + 1)])
    case Post(c) =>
      var i := s.pc[c].next;
      s.(pc := s.pc[c := Posting(i + 1)], slot := s.slot + {(i, c)},
         req := s.req[c := s.req[c].(posted := s.req[c].posted + {i})])
    case EndPosts(c) => s.(pc := s.pc[c := Waiting])
    case Return(c) => s.(pc := s.pc[c := Idle])
    case Enter(c) => s.(h := s.h[c := Scan(0)])
    case Miss(c) => s.(h := s.h[c := Scan(s.h[c].s + 1)])
    case Take(c) => s.(h := s.h[c := Flush(s.h[c].s, 0)], slot := s.slot - {(c, s.h[c].s)})
    case FlushOne(c) =>
      var r := s.req[s.h[c].s];
      s.(h := s.h[c := Flush(s.h[c].s, s.h[c].k + 1)], tlb := s.tlb[c := s.tlb[c] - {r.virt + s.h[c].k}])
    case Ack(c) =>
      var d := s.h[c].s;
      s.(h := s.h[c := Scan(d + 1)], req := s.req[d := s.req[d].(pending := s.req[d].pending - 1)])
    case Leave(c) => s.(h := s.h[c := Out])
    case Fill(c, p) => s.(tlb := s.tlb[c := s.tlb[c] + {p}])
    case Evict(c, p) => s.(tlb := s.tlb[c := s.tlb[c] - {p}])
  }

  // ---- The invariant, one clause a predicate ----

  /** The counter is the number of posted slots plus handlers in progress (plus the slot
      about to be stored). */
  ghost predicate Counted(s: State)
    requires Shape(s)
  {
    forall c :: 0 <= c < s.n && !s.pc[c].Idle? ==> s.req[c].pending == |Owe(s, c)|
  }

  /** No slot and no handler refers to a request that has returned. */
  ghost predicate NoDangling(s: State)
    requires Shape(s)
  {
    && (forall i: nat, c: nat :: (i, c) in s.slot ==> i < s.n && c < s.n && !s.pc[c].Idle?)
    && (forall i :: 0 <= i < s.n && s.h[i].Flush? ==> s.h[i].s < s.n && !s.pc[s.h[i].s].Idle? && s.h[i].k <= s.req[s.h[i].s].pages)
  }

  /** A request goes to each target once, in order. */
  ghost predicate PostedInOrder(s: State)
    requires Shape(s)
  {
    && (forall c :: 0 <= c < s.n && (s.pc[c].Posting? || s.pc[c].Storing?) ==>
          forall i :: i in s.req[c].posted ==> i < s.pc[c].next)
    && (forall c :: 0 <= c < s.n && s.pc[c].Storing? ==> s.pc[c].next < s.n)
    && (forall c, i :: 0 <= c < s.n && i in s.req[c].posted && !s.pc[c].Idle? ==> i < s.n)
    && (forall i: nat, c: nat :: (i, c) in s.slot && c < s.n ==> i in s.req[c].posted && (i < s.n ==> !(s.h[i].Flush? && s.h[i].s == c)))
    && (forall i :: 0 <= i < s.n && s.h[i].Flush? && s.h[i].s < s.n ==> i in s.req[s.h[i].s].posted)
  }

  /** Every other online CPU below the loop index has been sent the request. */
  ghost predicate AllTargets(s: State)
    requires Shape(s)
  {
    && (forall c, i: nat :: 0 <= c < s.n && (s.pc[c].Posting? || s.pc[c].Storing?) && i < s.pc[c].next && i < s.n && Target(s, c, i) ==>
          i in s.req[c].posted)
    && (forall c, i: nat :: 0 <= c < s.n && s.pc[c].Waiting? && i < s.n && Target(s, c, i) ==> i in s.req[c].posted)
  }

  /** process_inbox runs only with no shootdown of one's own in its posting phase. */
  ghost predicate HandlerPlace(s: State)
    requires Shape(s)
  {
    forall c :: 0 <= c < s.n && !s.h[c].Out? ==> s.pc[c].Idle? || s.pc[c].Waiting?
  }

  /** The pages of an active request are unmapped, and gone from the TLB of every CPU that
      has acknowledged; a handler in progress has flushed its first k pages. */
  ghost predicate Flushed(s: State)
    requires Shape(s)
  {
    && (forall c, p: nat :: 0 <= c < s.n && !s.pc[c].Idle? && InRange(s.req[c], p) ==> p !in s.pt)
    && (forall c, i: nat, p: nat :: 0 <= c < s.n && Acknowledged(s, i, c) && InRange(s.req[c], p) ==> p !in s.tlb[i])
    && (forall i, p: nat :: 0 <= i < s.n && s.h[i].Flush? && s.h[i].s < s.n && InFirst(s.req[s.h[i].s], s.h[i].k, p) ==> p !in s.tlb[i])
  }

  ghost predicate Acknowledged(s: State, i: nat, c: nat)
    requires Shape(s) && c < s.n
  {
    !s.pc[c].Idle? && i in s.req[c].posted && i < s.n && !Owes(s, i, c)
  }

  ghost predicate InFirst(r: Req, k: nat, p: nat) {
    r.virt <= p < r.virt + k
  }

  ghost predicate Inv(s: State) {
    Shape(s) && NoDangling(s) && PostedInOrder(s) && AllTargets(s) && HandlerPlace(s) && Counted(s) && Flushed(s)
  }

  ghost predicate Init(s: State) {
    Shape(s) && (forall c :: 0 <= c < s.n ==> s.pc[c].Idle? && s.h[c].Out?) && s.slot == {}
  }

  lemma InitInv(s: State)
    requires Init(s)
    ensures Inv(s)
  {
  }

  // ---- Every step keeps it ----

  predicate Sends(e: Event) {
    e.Begin? || e.Skip? || e.Raise? || e.Post? || e.EndPosts? || e.Return?
  }

  predicate Handles(e: Event) {
    e.Enter? || e.Miss? || e.Take? || e.FlushOne? || e.Ack? || e.Leave?
  }

  lemma SendStructure(s: State, e: Event)
    requires Inv(s) && Enabled(s, e) && Sends(e)
    ensures var s' := Apply(s, e); Shape(s') && NoDangling(s') && HandlerPlace(s')
  {
    hide InRange, Flushed, AllTargets;
    if e.Return? {
      NoneOwed(s, e.c);
    }
  }

  lemma HandleStructure(s: State, e: Event)
    requires Inv(s) && Enabled(s, e) && !Sends(e)
    ensures var s' := Apply(s, e); Shape(s') && NoDangling(s') && HandlerPlace(s')
  {
    hide InRange, Flushed, Counted, PostedInOrder, AllTargets;
  }

  /** A zero counter means nobody refers to the request any more. */
  lemma NoneOwed(s: State, c: nat)
    requires Shape(s) && Counted(s) && c < s.n && !s.pc[c].Idle? && s.req[c].pending == 0
    ensures forall i :: 0 <= i < s.n ==> !Owes(s, i, c)
    ensures forall i: nat :: i < s.n ==> (i, c) !in s.slot
    ensures forall i :: 0 <= i < s.n && s.h[i].Flush? ==> s.h[i].s != c
  {
    assert Owe(s, c) == {};
    forall i | 0 <= i < s.n ensures !Owes(s, i, c) {
      assert i !in Owe(s, c);
    }
    assert forall i: nat :: i < s.n && (i, c) in s.slot ==> Owes(s, i, c);
    assert forall i :: 0 <= i < s.n && s.h[i].Flush? && s.h[i].s == c ==> Owes(s, i, c);
  }

  lemma SendPosted(s: State, e: Event)
    requires Inv(s) && Enabled(s, e) && Sends(e)
    ensures Shape(Apply(s, e)) && PostedInOrder(Apply(s, e))
  {
    hide InRange, Flushed, Counted, AllTargets;
  }

  lemma HandlePosted(s: State, e: Event)
    requires Inv(s) && Enabled(s, e) && !Sends(e)
    ensures Shape(Apply(s, e)) && PostedInOrder(Apply(s, e))
  {
    hide InRange, Flushed, Counted, AllTargets;
  }

  lemma SendTargets(s: State, e: Event)
    requires Inv(s) && Enabled(s, e) && Sends(e)
    ensures Shape(Apply(s, e)) && AllTargets(Apply(s, e))
  {
    hide InRange, Flushed, Counted, PostedInOrder, HandlerPlace, NoDangling;
  }

  lemma OtherTargets(s: State, e: Event)
    requires Inv(s) && Enabled(s, e) && !Sends(e)
    ensures Shape(Apply(s, e)) && AllTargets(Apply(s, e))
  {
    hide InRange, Flushed, Counted, PostedInOrder, HandlerPlace, NoDangling;
  }

  lemma SendFlushed(s: State, e: Event)
    requires Inv(s) && Enabled(s, e) && Sends(e)
    ensures Shape(Apply(s, e)) && Flushed(Apply(s, e))
  {
    hide Counted, HandlerPlace, AllTargets;
    if e.Return? {
      NoneOwed(s, e.c);
    }
  }

  lemma MoveFlushed(s: State, e: Event)
    requires Inv(s) && Enabled(s, e) && (e.Enter? || e.Miss? || e.Leave? || e.Take?)
    ensures Shape(Apply(s, e)) && Flushed(Apply(s, e))
  {
    hide Counted, HandlerPlace, AllTargets;
  }

  lemma PageFlushed(s: State, e: Event)
    requires Inv(s) && Enabled(s, e) && e.FlushOne?
    ensures Shape(Apply(s, e)) && Flushed(Apply(s, e))
  {
    hide Counted, HandlerPlace, AllTargets, PostedInOrder;
  }

  lemma AckFlushed(s: State, e: Event)
    requires Inv(s) && Enabled(s, e) && e.Ack?
    ensures Shape(Apply(s, e)) && Flushed(Apply(s, e))
  {
    hide Counted, HandlerPlace, AllTargets;
  }

  lemma HandleFlushed(s: State, e: Event)
    requires Inv(s) && Enabled(s, e) && Handles(e)
    ensures Shape(Apply(s, e)) && Flushed(Apply(s, e))
  {
    hide Inv, Flushed, Apply, Enabled;
    if e.FlushOne? {
      PageFlushed(s, e);
    } else if e.Ack? {
      AckFlushed(s, e);
    } else {
      MoveFlushed(s, e);
    }
  }

  lemma MemoryFlushed(s: State, e: Event)
    requires Inv(s) && Enabled(s, e) && !Sends(e) && !Handles(e)
    ensures Shape(Apply(s, e)) && Flushed(Apply(s, e))
  {
    hide Counted, HandlerPlace, AllTargets;
  }

  lemma OweSame(s: State, s': State, c: nat)
    requires Shape(s) && Shape(s') && s.n == s'.n && c < s.n
    requires forall i :: 0 <= i < s.n ==> (Owes(s, i, c) <==> Owes(s', i, c))
    ensures Owe(s, c) == Owe(s', c)
  {
  }

  lemma BeginOwes(s: State, e: Event)
    requires Inv(s) && Enabled(s, e) && e.Begin?
    ensures Shape(Apply(s, e)) && Owe(Apply(s, e), e.c) == {}
  {
    hide Counted, Flushed, HandlerPlace, PostedInOrder, AllTargets;
  }

  lemma RaiseOwes(s: State, e: Event)
    requires Inv(s) && Enabled(s, e) && e.Raise?
    ensures Shape(Apply(s, e)) && Owe(Apply(s, e), e.c) == Owe(s, e.c) + {s.pc[e.c].next}
    ensures s.pc[e.c].next !in Owe(s, e.c)
  {
    hide Counted, Flushed, HandlerPlace, AllTargets;
  }

  lemma SendOwesSame(s: State, e: Event, c: nat)
    requires Inv(s) && Enabled(s, e) && Sends(e) && c < s.n && (c != e.c || !(e.Begin? || e.Raise?))
    ensures Shape(Apply(s, e)) && Owe(Apply(s, e), c) == Owe(s, c)
  {
    hide Counted, Flushed, HandlerPlace, Owe, AllTargets;
    OweSame(s, Apply(s, e), c);
  }

  lemma SendCounted(s: State, e: Event)
    requires Inv(s) && Enabled(s, e) && Sends(e)
    ensures Shape(Apply(s, e)) && Counted(Apply(s, e))
  {
    hide Flushed, HandlerPlace, NoDangling, PostedInOrder, Owe, AllTargets;
    var s' := Apply(s, e);
    forall c | 0 <= c < s.n && !s'.pc[c].Idle? ensures s'.req[c].pending == |Owe(s', c)| {
      if c != e.c || !(e.Begin? || e.Raise?) {
        SendOwesSame(s, e, c);
      } else if e.Begin? {
        BeginOwes(s, e);
      } else {
        RaiseOwes(s, e);
      }
    }
  }

  lemma HandleCounted(s: State, e: Event)
    requires Inv(s) && Enabled(s, e) && !Sends(e)
    ensures Shape(Apply(s, e)) && Counted(Apply(s, e))
  {
    hide Flushed, HandlerPlace, AllTargets;
    var s' := Apply(s, e);
    forall c | 0 <= c < s.n && !s'.pc[c].Idle? ensures s'.req[c].pending == |Owe(s', c)| {
      if e.Ack? && c == s.h[e.c].s {
        assert Owe(s', c) == Owe(s, c) - {e.c};
        assert e.c in Owe(s, c);
      } else {
        OweSame(s, s', c);
      }
    }
  }

  lemma StepInv(s: State, e: Event)
    requires Inv(s) && Enabled(s, e)
    ensures Inv(Apply(s, e))
  {
    hide *;
    InvShape(s);
    if Sends(e) {
      SendTargets(s, e);
      SendStructure(s, e);
      SendPosted(s, e);
      SendFlushed(s, e);
      SendCounted(s, e);
    } else {
      OtherTargets(s, e);
      HandleStructure(s, e);
      HandlePosted(s, e);
      HandleCounted(s, e);
      if Handles(e) {
        HandleFlushed(s, e);
      } else {
        MemoryFlushed(s, e);
      }
    }
    MakeInv(Apply(s, e));
  }

  lemma InvShape(s: State)
    requires Inv(s)
    ensures Shape(s)
  {
  }

  lemma MakeInv(s: State)
    requires Shape(s) && NoDangling(s) && PostedInOrder(s) && AllTargets(s) && HandlerPlace(s) && Counted(s) && Flushed(s)
    ensures Inv(s)
  {
  }

  // ---- Runs ----

  /** A run: each event is enabled where it happens. */
  ghost predicate Run(s: State, es: seq<Event>, t: State)
    decreases |es|
  {
    if es == [] then t == s
    else Shape(s) && Enabled(s, es[0]) && Run(Apply(s, es[0]), es[1..], t)
  }

  lemma {:induction false} RunInv(s: State, es: seq<Event>, t: State)
    requires Inv(s) && Run(s, es, t)
    ensures Inv(t)
    decreases |es|
  {
    hide Inv, Enabled, Apply;
    if es != [] {
      InvShape(s);
      StepInv(s, es[0]);
      RunInv(Apply(s, es[0]), es[1..], t);
    }
  }

  /** When tlb_shootdown returns, in any run, no other online CPU still caches a page of the
      range, and no mailbox slot or handler refers to the request. */
  lemma ReturnIsSafe(s: State, es: seq<Event>, t: State, c: nat)
    requires Init(s) && Run(s, es, t) && Shape(t) && Enabled(t, Return(c))
    ensures forall i: nat, p: nat :: i < t.n && i != c && i in t.online && InRange(t.req[c], p) ==> p !in t.tlb[i]
    ensures forall i: nat :: (i, c) !in t.slot
    ensures forall i :: 0 <= i < t.n ==> !(t.h[i].Flush? && t.h[i].s == c)
  {
    InitInv(s);
    RunInv(s, es, t);
    NoneOwed(t, c);
    forall i: nat, p: nat | i < t.n && i != c && i in t.online && InRange(t.req[c], p) ensures p !in t.tlb[i] {
      assert Target(t, c, i);
      assert Acknowledged(t, i, c);
    }
  }

  // ---- Progress ----

  /** All acknowledgements still missing. */
  ghost function Outstanding(s: State): set<(nat, nat)>
    requires Shape(s)
  {
    set i, c | 0 <= i < s.n && 0 <= c < s.n && Owes(s, i, c) :: (i, c)
  }

  /** The CPU is in process_inbox, or about to enter it: from the IPI or from its wait loop. */
  ghost predicate Attentive(s: State, i: nat)
    requires Shape(s) && i < s.n
  {
    !s.h[i].Out? || s.pc[i].Idle? || (s.pc[i].Waiting? && s.req[i].pending > 0)
  }

  ghost predicate SlotAhead(s: State, i: nat, k: nat) {
    exists j: nat :: k <= j < s.n && (i, j) in s.slot
  }

  /** How far process_inbox on CPU i is from its next acknowledgement. */
  ghost function Stage(s: State, i: nat): nat
    requires Shape(s) && i < s.n
  {
    match s.h[i]
    case Flush(d, k) => 0
    case Scan(k) => if SlotAhead(s, i, k) then 1 else 3
    case Out => 2
  }

  ghost function Rank(s: State, i: nat): int
    requires Shape(s) && i < s.n
  {
    match s.h[i]
    case Flush(d, k) => if d < s.n then s.req[d].pages - k else 0
    case Scan(k) => s.n - k
    case Out => 0
  }

  ghost function NextOf(s: State, i: nat): Event
    requires Shape(s) && i < s.n
  {
    match s.h[i]
    case Out => Enter(i)
    case Scan(k) => if k >= s.n then Leave(i) else if (i, k) in s.slot then Take(i) else Miss(i)
    case Flush(d, k) => if d < s.n && k < s.req[d].pages then FlushOne(i) else Ack(i)
  }

  /** Requesters that wait on attentive CPUs are never stuck: the next step of any CPU that
      owes an acknowledgement is enabled, and it delivers one or comes closer to it. */
  lemma WaitersProgress(s: State, c: nat, i: nat)
    requires Inv(s) && c < s.n && s.pc[c].Waiting? && i in Owe(s, c) && Attentive(s, i)
    ensures Enabled(s, NextOf(s, i))
    ensures var s' := Apply(s, NextOf(s, i));
            && Shape(s') && i < s'.n
            && (Outstanding(s') < Outstanding(s) ||
                (Outstanding(s') == Outstanding(s) &&
                 (Stage(s', i) < Stage(s, i) || (Stage(s', i) == Stage(s, i) && 0 <= Rank(s', i) < Rank(s, i)))))
  {
    hide Flushed, Counted, AllTargets, HandlerPlace;
    NextEnabled(s, c, i);
    NextOutstanding(s, i);
    if NextOf(s, i).Ack? {
      assert (i, s.h[i].s) in Outstanding(s);
    } else {
      NextCloser(s, c, i);
    }
  }

  lemma NextEnabled(s: State, c: nat, i: nat)
    requires Inv(s) && c < s.n && i in Owe(s, c) && Attentive(s, i)
    ensures Enabled(s, NextOf(s, i))
  {
    hide Flushed, Counted, AllTargets, HandlerPlace, PostedInOrder;
  }

  lemma NextOutstanding(s: State, i: nat)
    requires Inv(s) && i < s.n && Enabled(s, NextOf(s, i))
    ensures var s' := Apply(s, NextOf(s, i));
            Shape(s') && Outstanding(s') == if NextOf(s, i).Ack? then Outstanding(s) - {(i, s.h[i].s)} else Outstanding(s)
  {
    hide Flushed, Counted, AllTargets, HandlerPlace;
    var s' := Apply(s, NextOf(s, i));
    forall j, d | 0 <= j < s.n && 0 <= d < s.n
      ensures Owes(s', j, d) <==> Owes(s, j, d) && !(NextOf(s, i).Ack? && (j, d) == (i, s.h[i].s))
    {
    }
  }

  lemma NextCloser(s: State, c: nat, i: nat)
    requires Inv(s) && c < s.n && s.pc[c].Waiting? && i in Owe(s, c) && Enabled(s, NextOf(s, i)) && !NextOf(s, i).Ack?
    ensures var s' := Apply(s, NextOf(s, i));
            && Shape(s') && i < s'.n
            && (Stage(s', i) < Stage(s, i) || (Stage(s', i) == Stage(s, i) && 0 <= Rank(s', i) < Rank(s, i)))
  {
    hide Flushed, Counted, AllTargets, HandlerPlace, PostedInOrder;
    match s.h[i]
    case Out => assert (i, c) in s.slot;
    case Scan(k) =>
      if k < s.n && (i, k) !in s.slot {
        assert SlotAhead(s, i, k) <==> SlotAhead(Apply(s, NextOf(s, i)), i, k + 1);
      }
    case Flush(d, k) =>
  }

  // ---- Every wait can end ----

  /** What CPU i does next, whatever it is doing: post, wait, flush or return. */
  ghost function StepOf(s: State, i: nat): Event
    requires Shape(s) && i < s.n
  {
    match s.pc[i]
    case Posting(next) => if next >= s.n then EndPosts(i) else if Target(s, i, next) then Raise(i) else Skip(i)
    case Storing(next) => Post(i)
    case _ =>
      match s.h[i]
      case Out => if s.pc[i].Waiting? && s.req[i].pending == 0 then Return(i) else Enter(i)
      case Scan(k) => if k >= s.n then Leave(i) else if (i, k) in s.slot then Take(i) else Miss(i)
      case Flush(d, k) => if d < s.n && k < s.req[d].pages then FlushOne(i) else Ack(i)
  }

  lemma StepOfEnabled(s: State, i: nat)
    requires Inv(s) && i < s.n
    ensures Enabled(s, StepOf(s, i))
  {
    hide Flushed, AllTargets;
  }

  /** The stages of CPU i on its way to acknowledge the request of c. */
  ghost function Phase(s: State, c: nat, i: nat): nat
    requires Shape(s) && i < s.n
  {
    if s.pc[i].Posting? || s.pc[i].Storing? then 5
    else
      match s.h[i]
      case Flush(d, k) => if d == c then 0 else if d > c then 4 else 1
      case Scan(k) => if k > c then 4 else 1
      case Out => if s.pc[i].Waiting? && s.req[i].pending == 0 then 3 else 2
  }

  /** How far the loop of that stage is from its end. */
  ghost function Loop(s: State, i: nat): nat
    requires Shape(s) && i < s.n
  {
    match s.pc[i]
    case Posting(next) => if next < s.n then s.n - next else 0
    case Storing(next) => if next < s.n then s.n - next else 0
    case _ =>
      match s.h[i]
      case Flush(d, k) => if d < s.n then s.n - d else 0
      case Scan(k) => if k < s.n then s.n - k else 0
      case Out => 0
  }

  ghost function Half(s: State, i: nat): nat
    requires Shape(s) && i < s.n
  {
    if s.pc[i].Posting? || (!s.pc[i].Storing? && s.h[i].Scan?) then 1 else 0
  }

  ghost function Left(s: State, i: nat): nat
    requires Shape(s) && i < s.n
  {
    if s.h[i].Flush? && s.h[i].s < s.n && s.h[i].k < s.req[s.h[i].s].pages then s.req[s.h[i].s].pages - s.h[i].k else 0
  }

  ghost predicate Closer(s: State, t: State, c: nat, i: nat)
    requires Shape(s) && Shape(t) && i < s.n && i < t.n
  {
    || Phase(t, c, i) < Phase(s, c, i)
    || (Phase(t, c, i) == Phase(s, c, i)
        && (Loop(t, i) < Loop(s, i) || (Loop(t, i) == Loop(s, i) && (Half(t, i) < Half(s, i) || (Half(t, i) == Half(s, i) && Left(t, i) < Left(s, i))))))
  }

  /** The next step of CPU i is its acknowledgement to c. */
  ghost predicate Answers(s: State, i: nat, c: nat)
    requires Shape(s) && i < s.n
  {
    StepOf(s, i).Ack? && s.h[i].Flush? && s.h[i].s == c
  }

  /** The step leaves everybody else's debt to c alone. */
  lemma StepOfOwes(s: State, c: nat, i: nat, t: State)
    requires Inv(s) && c < s.n && s.pc[c].Waiting? && i in Owe(s, c) && Enabled(s, StepOf(s, i)) && t == Apply(s, StepOf(s, i))
    ensures Shape(t) && t.n == s.n && t.pc[c].Waiting?
    ensures forall j :: 0 <= j < s.n ==> (Owes(t, j, c) <==> Owes(s, j, c) && !(j == i && Answers(s, i, c)))
  {
    hide Flushed, AllTargets;
    WaiterOwed(s, c, i);
  }

  /** A CPU to which an acknowledgement is owed has not seen its counter reach zero. */
  lemma WaiterOwed(s: State, c: nat, i: nat)
    requires Shape(s) && Counted(s) && c < s.n && s.pc[c].Waiting? && i in Owe(s, c)
    ensures s.req[c].pending > 0
  {
  }

  lemma StepOfCloser(s: State, c: nat, i: nat, t: State)
    requires Inv(s) && c < s.n && s.pc[c].Waiting? && i in Owe(s, c) && Enabled(s, StepOf(s, i)) && t == Apply(s, StepOf(s, i))
    requires Shape(t) && t.n == s.n && !Answers(s, i, c)
    ensures Closer(s, t, c, i)
  {
    hide Flushed, AllTargets, Counted;
    assert Owes(s, i, c);
  }

  /** Steps of the owing CPU alone lead to its acknowledgement. */
  lemma {:induction false} AckComes(s: State, c: nat, i: nat) returns (es: seq<Event>, t: State)
    requires Inv(s) && c < s.n && s.pc[c].Waiting? && i in Owe(s, c)
    ensures Run(s, es, t) && Inv(t) && t.n == s.n && t.pc[c].Waiting? && Owe(t, c) == Owe(s, c) - {i}
    decreases Phase(s, c, i), Loop(s, i), Half(s, i), Left(s, i)
  {
    hide Inv, Enabled, Apply, StepOf, Answers, Phase, Loop, Half, Left;
    InvShape(s);
    var e := StepOf(s, i);
    StepOfEnabled(s, i);
    var u := Apply(s, e);
    StepInv(s, e);
    StepOfOwes(s, c, i, u);
    if Answers(s, i, c) {
      es, t := [e], u;
      assert [e][1..] == [];
      assert Owe(t, c) == Owe(s, c) - {i};
    } else {
      assert Owe(u, c) == Owe(s, c);
      StepOfCloser(s, c, i, u);
      var rest;
      rest, t := AckComes(u, c, i);
      es := [e] + rest;
      assert es[1..] == rest;
    }
  }

  lemma {:induction false} RunConcat(s: State, a: seq<Event>, t: State, b: seq<Event>, u: State)
    requires Run(s, a, t) && Run(t, b, u)
    ensures Run(s, a + b, u)
    decreases |a|
  {
    hide Enabled, Apply;
    if a == [] {
      assert a + b == b;
    } else {
      assert (a + b)[1..] == a[1..] + b;
      RunConcat(Apply(s, a[0]), a[1..], t, b, u);
    }
  }

  /** From every reachable state a finite run brings the counter of a waiting CPU to zero: nobody
      waits for somebody who cannot move. */
  lemma {:induction false} WaitEnds(s: State, c: nat) returns (es: seq<Event>, t: State)
    requires Inv(s) && c < s.n && s.pc[c].Waiting?
    ensures Run(s, es, t) && Inv(t) && t.n == s.n && t.pc[c].Waiting? && t.req[c].pending == 0
    decreases |Owe(s, c)|
  {
    InvShape(s);
    if Owe(s, c) == {} {
      es, t := [], s;
    } else {
      hide Inv, Enabled, Apply, Owe;
      var i :| i in Owe(s, c);
      var a, u := AckComes(s, c, i);
      InvShape(u);
      assert |Owe(u, c)| < |Owe(s, c)|;
      var b;
      b, t := WaitEnds(u, c);
      RunConcat(s, a, u, b, t);
      es := a + b;
    }
  }

  // ---- Turns ----

  /** tlb_shootdown, called for pages that are no longer mapped, starts to post its own request with the
      first CPU, waits after the last, and returns when nobody owes it an acknowledgement. */
  lemma CallTurn(s: State, c: nat, virt: nat, pages: nat)
    requires Shape(s) && c < s.n
    ensures Enabled(s, Begin(c, virt, pages)) <==> s.pc[c].Idle? && s.h[c].Out? && forall p :: p in s.pt ==> p < virt || p >= virt + pages
    ensures Enabled(s, Begin(c, virt, pages)) ==>
              Apply(s, Begin(c, virt, pages)) == s.(pc := s.pc[c := Posting(0)], req := s.req[c := Req(virt, pages, 0, {})])
    ensures Enabled(s, EndPosts(c)) ==> Apply(s, EndPosts(c)) == s.(pc := s.pc[c := Waiting])
    ensures Enabled(s, Return(c)) <==> s.pc[c].Waiting? && s.h[c].Out? && s.req[c].pending == 0
    ensures Enabled(s, Return(c)) ==> Apply(s, Return(c)) == s.(pc := s.pc[c := Idle])
  {
  }

  /** The posting loop goes over the CPUs 0 to n - 1 once: it sends to every other online one. */
  lemma SenderTurn(s: State, e: Event)
    requires Shape(s) && Enabled(s, e) && Sends(e) && s.pc[e.c].Posting?
    ensures var k := s.pc[e.c].next;
            && (k >= s.n ==> e.EndPosts?)
            && (k < s.n && k != e.c && k in s.online ==> e.Raise?)
            && (k < s.n && (k == e.c || k !in s.online) ==> e.Skip?)
  {
  }

  /** process_inbox goes over the slots 0 to n - 1 once: it empties each that is filled, flushes every page
      of the request and then acknowledges; a sender enters it only while it waits for somebody. */
  lemma HandlerTurn(s: State, e: Event)
    requires Inv(s) && Enabled(s, e) && Handles(e)
    ensures s.h[e.c].Out? ==> e.Enter? && (s.pc[e.c].Waiting? ==> s.req[e.c].pending > 0)
    ensures s.h[e.c].Scan? ==>
              var k := s.h[e.c].s;
              (k >= s.n ==> e.Leave?) && (k < s.n && (e.c, k) in s.slot ==> e.Take?) && (k < s.n && (e.c, k) !in s.slot ==> e.Miss?)
    ensures s.h[e.c].Flush? ==>
              s.h[e.c].s < s.n && if s.h[e.c].k < s.req[s.h[e.c].s].pages then e.FlushOne? else e.Ack?
  {
    hide Flushed, Counted, AllTargets, HandlerPlace, PostedInOrder;
  }

  /** A page is cached only while it is mapped, may be dropped from a TLB at any time, and may be unmapped
      at any time, but not mapped again while a shootdown of it is under way. */
  lemma MemoryTurn(s: State, c: nat, p: nat)
    requires Shape(s) && c < s.n
    ensures Enabled(s, Fill(c, p)) <==> p in s.pt
    ensures Enabled(s, Fill(c, p)) ==> Apply(s, Fill(c, p)) == s.(tlb := s.tlb[c := s.tlb[c] + {p}])
    ensures Apply(s, Evict(c, p)) == s.(tlb := s.tlb[c := s.tlb[c] - {p}])
    ensures Apply(s, UnmapPage(p)) == s.(pt := s.pt - {p})
    ensures Enabled(s, MapPage(p)) <==> forall d :: 0 <= d < s.n && !s.pc[d].Idle? ==> p < s.req[d].virt || p >= s.req[d].virt + s.req[d].pages
    ensures Enabled(s, MapPage(p)) ==> Apply(s, MapPage(p)) == s.(pt := s.pt + {p})
  {
  }
}

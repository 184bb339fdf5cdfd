/** Entering a signal handler and returning from it (kernel/proc/signal.c:188-243, 381-413): the
    frame that setup_frame writes to the user stack and what sys_sigreturn makes of it. */
module Sigframe {
  const Word: nat := 0x1_0000_0000_0000_0000      // 2 ^ 64
  const UserEnd: nat := 0x7FFF_FFFF_F000          // USER_SPACE_END
  const Half: nat := 0x8000_0000_0000             // the end of the lower half

  datatype Option<T> = None | Some(value: T)

  /** The registers of an interrupted program. */
  datatype Regs = Regs(r15: nat, r14: nat, r13: nat, r12: nat, r11: nat, r10: nat, r9: nat, r8: nat,
                       rbp: nat, rdi: nat, rsi: nat, rdx: nat, rcx: nat, rbx: nat, rax: nat,
                       rip: nat, rflags: bv64, rsp: nat)

  datatype Action = Action(handler: nat, restorer: Option<nat>, mask: bv32, nodefer: bool, resethand: bool)

  /** 64-bit words of user memory, by address. */
  type Memory = map<nat, nat>

  const Unblockable: bv32 := 0x80200              // SIGKILL and SIGSTOP
  const TrapDir: bv64 := 0x500                    // TF and DF
  const UserFlags: bv64 := 0xCD5                  // CF PF AF ZF SF DF OF
  const Always: bv64 := 0x202                     // IF, and bit 1

  /** struct sigframe: a return address and 20 words of context. */
  const FrameSize: nat := 168

  function Sub64(a: nat, b: nat): (r: nat)
    requires a < Word && b < Word
    ensures r < Word
  {
    if a >= b then a - b else a + Word - b
  }

  /** Where the frame goes: below the red zone, 8 below a multiple of 16. */
  function FrameAt(rsp: nat): (sp: nat)
    requires rsp < Word
    ensures sp < Word
  {
    Sub64(Sub64(Sub64(rsp, 128), FrameSize) / 16 * 16, 8)
  }

  /** copy_to_user and copy_from_user accept a range: inside user space, and mapped. */
  predicate UserRange(a: nat, len: nat) {
    a + len <= UserEnd
  }

  function FlagsWord(x: bv64): (n: nat) {
    x as nat
  }

  function WordFlags(n: nat): (x: bv64)
    requires n < Word
  {
    n as bv64
  }

  function MaskWord(x: bv32): (n: nat) {
    x as nat
  }

  /** The low 32 bits. */
  function WordMask(n: nat): (x: bv32) {
    if n < 0x1_0000_0000 then n as bv32 else (n % 0x1_0000_0000) as bv32
  }

  function Context(f: Regs, mask: bv32, sig: nat): (ws: seq<nat>)
    ensures |ws| == 20
  {
    [f.r15, f.r14, f.r13, f.r12, f.r11, f.r10, f.r9, f.r8, f.rbp, f.rdi, f.rsi, f.rdx, f.rcx, f.rbx, f.rax,
     f.rip, FlagsWord(f.rflags), f.rsp, MaskWord(mask), sig]
  }

  function Store(mem: Memory, a: nat, ws: seq<nat>): (r: Memory)
    decreases |ws|
  {
    if ws == [] then mem else Store(mem[a := ws[0]], a + 8, ws[1..])
  }

  /** The words at `a`, or nothing where the memory has none. */
  function Load(mem: Memory, a: nat, n: nat): (r: seq<nat>)
    ensures |r| == n
    decreases n
  {
    if n == 0 then [] else [if a in mem then mem[a] else 0] + Load(mem, a + 8, n - 1)
  }

  datatype Entry = Entry(regs: Regs, mem: Memory, mask: bv32)

  /** setup_frame: `mapped` is whether mm_prefault could make the stack pages writable. */
  function Setup(f: Regs, mem: Memory, blocked: bv32, sig: nat, act: Action, mapped: bool): (r: Option<Entry>)
    requires f.rsp < Word && sig < 32
  {
    var sp := FrameAt(f.rsp);
    if act.restorer.None? || !mapped || !UserRange(sp, FrameSize) then None
    else
      Some(Entry(
             f.(rip := act.handler, rsp := sp, rdi := sig, rsi := 0, rdx := 0, rax := 0, rflags := f.rflags & !TrapDir),
             Store(mem, sp, [act.restorer.value] + Context(f, blocked, sig)),
             (blocked | (act.mask & !Unblockable)) | (if act.nodefer then 0 else (1 as bv32) << sig)))
  }

  datatype Return = Return(regs: Regs, mask: bv32)

  /** sys_sigreturn with the stack pointer of `f`; None where the process is killed instead. */
  function SigReturn(f: Regs, mem: Memory, mapped: bool): (r: Option<Return>) {
    if !mapped || !UserRange(f.rsp, FrameSize - 8) then None
    else
      var c := Load(mem, f.rsp, 20);
      if c[15] >= Half || c[17] >= Half || c[16] >= Word then None
      else
        Some(Return(
               Regs(c[0], c[1], c[2], c[3], c[4], c[5], c[6], c[7], c[8], c[9], c[10], c[11], c[12], c[13], c[14],
                    c[15], (WordFlags(c[16]) & UserFlags) | Always, c[17]),
               WordMask(c[18]) & !Unblockable))
  }

  // ---- The stack ----

  /** A frame that is written lies below the red zone of the interrupted stack, and the handler
      starts with a stack pointer 8 above a multiple of 16. */
  lemma FramePlace(rsp: nat)
    requires rsp < Word && UserRange(FrameAt(rsp), FrameSize)
    ensures FrameAt(rsp) + FrameSize + 128 <= rsp < Half && FrameAt(rsp) % 16 == 8
    ensures rsp - 319 <= FrameAt(rsp) <= rsp - 304
  {
    var a := Sub64(Sub64(rsp, 128), FrameSize);
    var b := a / 16 * 16;
    assert b <= a < b + 16;
    assert rsp < 296 ==> a >= Word - 296;
  }

  // ---- Memory ----

  lemma {:induction false} StoreKeeps(mem: Memory, a: nat, ws: seq<nat>, k: nat)
    requires k < a || k >= a + 8 * |ws|
    ensures k in Store(mem, a, ws) <==> k in mem
    ensures k in mem ==> Store(mem, a, ws)[k] == mem[k]
    decreases |ws|
  {
    if ws != [] {
      StoreKeeps(mem[a := ws[0]], a + 8, ws[1..], k);
    }
  }

  lemma {:induction false} LoadStored(mem: Memory, a: nat, ws: seq<nat>)
    ensures Load(Store(mem, a, ws), a, |ws|) == ws
    decreases |ws|
  {
    if ws != [] {
      StoreKeeps(mem[a := ws[0]], a + 8, ws[1..], a);
      LoadStored(mem[a := ws[0]], a + 8, ws[1..]);
    }
  }

  lemma {:induction false} LoadSame(m: Memory, n: Memory, a: nat, len: nat)
    requires forall k :: a <= k < a + 8 * len ==> (k in m <==> k in n) && (k in m ==> m[k] == n[k])
    ensures Load(m, a, len) == Load(n, a, len)
    decreases len
  {
    if len > 0 {
      LoadSame(m, n, a + 8, len - 1);
    }
  }

  lemma LoadTail(mem: Memory, a: nat, n: nat)
    ensures Load(mem, a, n + 1)[1..] == Load(mem, a + 8, n)
  {
  }

  lemma FlagsCast(x: bv64)
    ensures FlagsWord(x) < Word && WordFlags(FlagsWord(x)) == x
  {
  }

  lemma MaskCast(x: bv32)
    ensures WordMask(MaskWord(x)) == x
  {
  }

  lemma NoKillStop(x: bv32)
    requires x & Unblockable == 0
    ensures x & !Unblockable == x
  {
  }

  /** What sigreturn restores of the flags: the arithmetic ones, with interrupts on. */
  function Restored(f: Regs): Regs {
    f.(rflags := (f.rflags & UserFlags) | Always)
  }

  /** What sigreturn makes of a context that setup_frame wrote. */
  lemma ReturnOf(g: Regs, mem: Memory, f: Regs, blocked: bv32, sig: nat)
    requires UserRange(g.rsp, FrameSize - 8) && f.rip < Half && f.rsp < Half && blocked & Unblockable == 0
    requires Load(mem, g.rsp, 20) == Context(f, blocked, sig)
    ensures SigReturn(g, mem, true) == Some(Return(Restored(f), blocked))
  {
    hide Load, FlagsWord, WordFlags, MaskWord, WordMask;
    FlagsCast(f.rflags);
    MaskCast(blocked);
    NoKillStop(blocked);
  }

  /** Handler entry and then sigreturn on an untouched frame give back every register, the stack
      pointer, the instruction pointer and the mask; the flags are limited to the user's. */
  lemma HandlerRoundTrip(f: Regs, mem: Memory, blocked: bv32, sig: nat, act: Action, g: Regs, later: Memory)
    requires f.rsp < Word && f.rip < Half && sig < 32 && blocked & Unblockable == 0
    requires Setup(f, mem, blocked, sig, act, true).Some?
    requires var e := Setup(f, mem, blocked, sig, act, true).value;
             && g.rsp == e.regs.rsp + 8                     // `ret` popped the restorer's address
             && forall k :: g.rsp <= k < g.rsp + 160 ==> (k in later <==> k in e.mem) && (k in later ==> later[k] == e.mem[k])
    ensures SigReturn(g, later, true) == Some(Return(Restored(f), blocked))
  {
    hide Load, Store, SigReturn, Context, FrameAt;
    var sp := FrameAt(f.rsp);
    var e := Setup(f, mem, blocked, sig, act, true).value;
    var c := Context(f, blocked, sig);
    FramePlace(f.rsp);
    var ws := [act.restorer.value] + c;
    LoadStored(mem, sp, ws);
    LoadTail(e.mem, sp, 20);
    assert ws[1..] == c;
    assert Load(e.mem, sp + 8, 20) == c;
    LoadSame(later, e.mem, sp + 8, 20);
    ReturnOf(g, later, f, blocked, sig);
  }

  /** Entering a handler never blocks SIGKILL or SIGSTOP, blocks the signal itself unless it may
      nest, and leaves single-stepping and the direction flag off. */
  lemma EntryMask(f: Regs, mem: Memory, blocked: bv32, sig: nat, act: Action, mapped: bool)
    requires f.rsp < Word && sig < 32 && sig != 9 && sig != 19 && blocked & Unblockable == 0
    requires Setup(f, mem, blocked, sig, act, mapped).Some?
    ensures var e := Setup(f, mem, blocked, sig, act, mapped).value;
            && e.mask & Unblockable == 0 && e.mask & blocked == blocked && e.regs.rflags & TrapDir == 0
            && (!act.nodefer ==> e.mask & ((1 as bv32) << sig) != 0)
  {
    OneBit(sig);
    MaskBits(blocked, act.mask, if act.nodefer then 0 else (1 as bv32) << sig);
    NoTrap(f.rflags);
  }

  /** And it blocks nothing else: the old mask, that of the action without SIGKILL and SIGSTOP, and the signal. */
  lemma EntryBlocks(f: Regs, mem: Memory, blocked: bv32, sig: nat, act: Action, mapped: bool)
    requires f.rsp < Word && sig < 32 && Setup(f, mem, blocked, sig, act, mapped).Some?
    ensures var mask := Setup(f, mem, blocked, sig, act, mapped).value.mask;
            && (act.nodefer ==> mask == blocked | (act.mask & 0xFFF7_FDFF))
            && (!act.nodefer ==> mask == (blocked | (act.mask & 0xFFF7_FDFF)) | ((1 as bv32) << sig))
  {
    OrZero(blocked | (act.mask & 0xFFF7_FDFF));
  }

  lemma OrZero(x: bv32)
    ensures x | 0 == x
  {
  }

  lemma OneBit(sig: nat)
    requires sig < 32 && sig != 9 && sig != 19
    ensures ((1 as bv32) << sig) & Unblockable == 0 && (1 as bv32) << sig != 0
  {
    var x := (1 as bv32) << sig;
    assert sig == 0 || sig == 1 || sig == 2 || sig == 3 || sig == 4 || sig == 5 || sig == 6 || sig == 7 || sig == 8
           || sig == 10 || sig == 11 || sig == 12 || sig == 13 || sig == 14 || sig == 15 || sig == 16 || sig == 17 || sig == 18
           || sig == 20 || sig == 21 || sig == 22 || sig == 23 || sig == 24 || sig == 25 || sig == 26 || sig == 27
           || sig == 28 || sig == 29 || sig == 30 || sig == 31;
  }

  lemma MaskBits(blocked: bv32, m: bv32, b: bv32)
    requires blocked & Unblockable == 0 && b & Unblockable == 0
    ensures var r := (blocked | (m & !Unblockable)) | b; r & Unblockable == 0 && r & blocked == blocked && r & b == b
  {
    var u := m & !Unblockable;
    Masked(m);
    Or3(blocked, u, b);
    Or3Zero(blocked, u, b);
  }

  lemma Masked(m: bv32)
    ensures (m & !Unblockable) & Unblockable == 0
  {
  }

  lemma Or3(x: bv32, y: bv32, z: bv32)
    ensures ((x | y) | z) & x == x && ((x | y) | z) & z == z
  {
  }

  lemma Or3Zero(x: bv32, y: bv32, z: bv32)
    requires x & Unblockable == 0 && y & Unblockable == 0 && z & Unblockable == 0
    ensures ((x | y) | z) & Unblockable == 0
  {
  }

  lemma NoTrap(x: bv64)
    ensures (x & !TrapDir) & TrapDir == 0
  {
  }

  // ---- What the handler finds ----

  /** A handler is entered unless there is no way back from it or the frame cannot be written. */
  lemma EntryIff(f: Regs, mem: Memory, blocked: bv32, sig: nat, act: Action, mapped: bool)
    requires f.rsp < Word && sig < 32
    ensures Setup(f, mem, blocked, sig, act, mapped).Some? <==> act.restorer.Some? && mapped && FrameAt(f.rsp) + 168 <= UserEnd
  {
  }

  /** The handler starts at its address with the signal as its argument; rsi, rdx and rax are 0, the
      flags lose TF and DF only, and every other register is as it was. */
  lemma EntryRegs(f: Regs, mem: Memory, blocked: bv32, sig: nat, act: Action, mapped: bool)
    requires f.rsp < Word && sig < 32 && Setup(f, mem, blocked, sig, act, mapped).Some?
    ensures var r := Setup(f, mem, blocked, sig, act, mapped).value.regs;
            && r.rip == act.handler && r.rdi == sig && r.rsi == r.rdx == r.rax == 0 && r.rsp == FrameAt(f.rsp)
            && r.rflags == f.rflags & !0x500
            && r.rbx == f.rbx && r.rbp == f.rbp && r.rcx == f.rcx && r.r8 == f.r8 && r.r9 == f.r9 && r.r10 == f.r10
            && r.r11 == f.r11 && r.r12 == f.r12 && r.r13 == f.r13 && r.r14 == f.r14 && r.r15 == f.r15
  {
  }

  lemma {:induction false} StoredAt(mem: Memory, a: nat, ws: seq<nat>, k: nat)
    requires k < |ws|
    ensures a + 8 * k in Store(mem, a, ws) && Store(mem, a, ws)[a + 8 * k] == ws[k]
    decreases |ws|
  {
    var m := mem[a := ws[0]];
    if k == 0 {
      StoreKeeps(m, a + 8, ws[1..], a);
    } else {
      StoredAt(m, a + 8, ws[1..], k - 1);
    }
  }

  /** struct sigframe, word by word. */
  function FrameWords(f: Regs, blocked: bv32, sig: nat, restorer: nat): (ws: seq<nat>)
    ensures |ws| == 21
  {
    [restorer] + Context(f, blocked, sig)
  }

  lemma FrameLayout(f: Regs, blocked: bv32, sig: nat, restorer: nat)
    ensures var ws := FrameWords(f, blocked, sig, restorer);
            && ws[0] == restorer && ws[1] == f.r15 && ws[2] == f.r14 && ws[3] == f.r13 && ws[4] == f.r12
            && ws[5] == f.r11 && ws[6] == f.r10 && ws[7] == f.r9 && ws[8] == f.r8 && ws[9] == f.rbp && ws[10] == f.rdi
            && ws[11] == f.rsi && ws[12] == f.rdx && ws[13] == f.rcx && ws[14] == f.rbx && ws[15] == f.rax
            && ws[16] == f.rip && ws[17] == FlagsWord(f.rflags) && ws[18] == f.rsp && ws[19] == MaskWord(blocked) && ws[20] == sig
  {
    hide FlagsWord, MaskWord;
  }

  /** The words from the stack pointer of the handler on: the address it returns to, then struct sigctx.
      No other word of memory changes. */
  lemma EntryFrame(f: Regs, mem: Memory, blocked: bv32, sig: nat, act: Action, mapped: bool)
    requires f.rsp < Word && sig < 32 && Setup(f, mem, blocked, sig, act, mapped).Some?
    ensures act.restorer.Some?
    ensures var m, sp, ws := Setup(f, mem, blocked, sig, act, mapped).value.mem, FrameAt(f.rsp), FrameWords(f, blocked, sig, act.restorer.value);
            && (forall k: nat :: k < 21 ==> sp + 8 * k in m && m[sp + 8 * k] == ws[k])
            && forall k: nat :: k < sp || k >= sp + 168 ==> (k in m <==> k in mem) && (k in mem ==> m[k] == mem[k])
  {
    hide Store, FrameAt, FlagsWord, MaskWord, Context;
    var m, sp, ws := Setup(f, mem, blocked, sig, act, mapped).value.mem, FrameAt(f.rsp), FrameWords(f, blocked, sig, act.restorer.value);
    forall k: nat | k < 21 ensures sp + 8 * k in m && m[sp + 8 * k] == ws[k] {
      StoredAt(mem, sp, ws, k);
    }
    forall k: nat | k < sp || k >= sp + 168 ensures (k in m <==> k in mem) && (k in mem ==> m[k] == mem[k]) {
      StoreKeeps(mem, sp, ws, k);
    }
  }

  /** Whatever the frame holds by then, sigreturn leads to user addresses, with the flags and the mask
      that a program may have; it refuses exactly what is unmapped or leads elsewhere. */
  lemma ReturnSafe(f: Regs, mem: Memory, mapped: bool)
    ensures var c, r := Load(mem, f.rsp, 20), SigReturn(f, mem, mapped);
            && (r.Some? <==> mapped && f.rsp + 160 <= UserEnd && c[15] < Half && c[17] < Half && c[16] < Word)
            && (r.Some? ==> r.value.regs.rip == c[15] < Half && r.value.regs.rsp == c[17] < Half
                            && r.value.regs.rflags & !0xCD5 == 0x202 && r.value.mask & 0x80200 == 0)
  {
    hide Load, WordFlags, WordMask;
    var c := Load(mem, f.rsp, 20);
    if c[16] < Word {
      UserBits(WordFlags(c[16]));
    }
    Masked(WordMask(c[18]));
  }

  lemma UserBits(x: bv64)
    ensures ((x & UserFlags) | Always) & !0xCD5 == 0x202
  {
  }
}

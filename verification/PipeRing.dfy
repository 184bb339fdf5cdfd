/** The 16 KiB ring buffer of a pipe (kernel/fs/pipe.c:29-104) and the queue of bytes it stands for. */
module PipeRing {
  const PipeSize: nat := 16384

  type Byte = x: nat | x < 256

  datatype Ring = Ring(buf: seq<Byte>, head: nat, count: nat)

  predicate Valid(r: Ring) {
    |r.buf| == PipeSize && r.head < PipeSize && r.count <= PipeSize
  }

  function Slot(head: nat, i: nat): (k: nat)
    ensures k < PipeSize
  {
    (head + i) % PipeSize
  }

  /** The bytes in the pipe, oldest first. */
  function Contents(r: Ring): (q: seq<Byte>)
    requires Valid(r)
    ensures |q| == r.count
  {
    seq(r.count, i requires 0 <= i < r.count => r.buf[Slot(r.head, i)])
  }

  function Min(a: nat, b: nat): (m: nat) {
    if a <= b then a else b
  }

  lemma SlotUnwrapped(head: nat, i: nat)
    requires head < PipeSize && i <= PipeSize
    ensures Slot(head, i) == if head + i < PipeSize then head + i else head + i - PipeSize
  {
    if head + i < PipeSize {
    } else if head + i < 2 * PipeSize {
      assert (head + i) % PipeSize == head + i - PipeSize;
    }
  }

  lemma SlotSum(head: nat, i: nat, j: nat)
    requires head < PipeSize && i + j <= PipeSize
    ensures Slot(Slot(head, i), j) == Slot(head, i + j)
  {
    SlotUnwrapped(head, i);
    SlotUnwrapped(head, i + j);
    SlotUnwrapped(Slot(head, i), j);
  }

  /** Two different positions of one window never share a slot. */
  lemma SlotDistinct(head: nat, i: nat, j: nat)
    requires head < PipeSize && i < PipeSize && j < PipeSize && i != j
    ensures Slot(head, i) != Slot(head, j)
  {
    SlotUnwrapped(head, i);
    SlotUnwrapped(head, j);
  }

  /** The ring after the oldest `n` bytes were copied out. */
  function Popped(r: Ring, n: nat): (t: Ring)
    requires Valid(r) && n <= r.count
    ensures Valid(t) && t.count == r.count - n
  {
    r.(head := Slot(r.head, n), count := r.count - n)
  }

  lemma PoppedContents(r: Ring, n: nat)
    requires Valid(r) && n <= r.count
    ensures Contents(Popped(r, n)) == Contents(r)[n..]
  {
    forall i | 0 <= i < r.count - n ensures Contents(Popped(r, n))[i] == Contents(r)[n..][i] {
      SlotSum(r.head, n, i);
    }
  }

  /** `t` is the ring `r` with `data` appended: the slots of `r` are untouched. */
  ghost predicate Pushed(r: Ring, data: seq<Byte>, t: Ring) {
    && Valid(r) && Valid(t) && r.count + |data| <= PipeSize
    && t.head == r.head && t.count == r.count + |data|
    && (forall i :: 0 <= i < r.count ==> t.buf[Slot(r.head, i)] == r.buf[Slot(r.head, i)])
    && (forall i :: 0 <= i < |data| ==> t.buf[Slot(r.head, r.count + i)] == data[i])
  }

  lemma PushedContents(r: Ring, data: seq<Byte>, t: Ring)
    requires Pushed(r, data, t)
    ensures Valid(r) && Valid(t) && Contents(t) == Contents(r) + data
  {
    forall i | 0 <= i < t.count ensures Contents(t)[i] == (Contents(r) + data)[i] {
      if i >= r.count {
        assert t.buf[Slot(r.head, r.count + (i - r.count))] == data[i - r.count];
      }
    }
  }

  lemma PushedNone(r: Ring)
    requires Valid(r)
    ensures Pushed(r, [], r)
  {
  }

  lemma PushOne(r: Ring, data: seq<Byte>, buf: seq<Byte>, x: Byte)
    requires Pushed(r, data, Ring(buf, r.head, r.count + |data|)) && r.count + |data| < PipeSize
    ensures Pushed(r, data + [x], Ring(buf[Slot(r.head, r.count + |data|) := x], r.head, r.count + |data| + 1))
  {
    var m := r.count + |data|;
    forall k: nat | k < m ensures Slot(r.head, k) != Slot(r.head, m) {
      SlotDistinct(r.head, k, m);
    }
  }

  /** The buffer of `struct pipe` with the copy loops of pipe_read and pipe_write. */
  class PipeBuffer {
    const buf: array<Byte>
    var head: nat
    var count: nat

    ghost predicate Ok()
      reads this, buf
    {
      Valid(View())
    }

    ghost function View(): (r: Ring)
      reads this, buf
    {
      Ring(buf[..], head, count)
    }

    constructor ()
      ensures Ok() && fresh(buf) && Contents(View()) == []
    {
      buf := new Byte[PipeSize](_ => 0);
      head, count := 0, 0;
    }

    /** Copies out min(len, count) bytes: the oldest ones, in order. */
    method CopyOut(dst: array<Byte>, len: nat) returns (n: nat)
      requires Ok() && dst != buf && len <= dst.Length
      modifies this, dst
      ensures Ok() && n == Min(len, old(count)) && View() == Popped(old(View()), n)
      ensures dst[..n] == old(Contents(View()))[..n]
      ensures Contents(View()) == old(Contents(View()))[n..]
      ensures dst[n..] == old(dst[n..])
    {
      n := Min(len, count);
      ghost var was := Contents(View());
      for i := 0 to n
        invariant Ok() && head == old(head) && count == old(count) && buf[..] == old(buf[..]) && was == Contents(View())
        invariant dst[..i] == was[..i]
        invariant dst[i..] == old(dst[i..])
      {
        dst[i] := buf[Slot(head, i)];
        assert dst[..i + 1] == dst[..i] + [buf[Slot(head, i)]];
        assert dst[i + 1..] == old(dst[i..])[1..];
      }
      PoppedContents(View(), n);
      head := Slot(head, n);
      count := count - n;
    }

    /** Appends as many bytes of src[done..len] as fit. */
    method CopyIn(src: array<Byte>, done: nat, len: nat) returns (n: nat)
      requires Ok() && src != buf && done <= len <= src.Length
      modifies this`count, buf
      ensures Ok() && n == Min(len - done, PipeSize - old(count))
      ensures Pushed(old(View()), src[done..done + n], View())
      ensures Contents(View()) == old(Contents(View())) + src[done..done + n]
    {
      hide Pushed, Contents, Slot;
      n := Min(len - done, PipeSize - count);
      var tail := Slot(head, count);
      ghost var r := View();
      PushedNone(r);
      assert src[done..done + 0] == [];
      for i := 0 to n
        invariant count == r.count && head == r.head
        invariant Pushed(r, src[done..done + i], Ring(buf[..], head, count + i))
      {
        SlotSum(head, count, i);
        PushOne(r, src[done..done + i], buf[..], src[done + i]);
        buf[Slot(tail, i)] := src[done + i];
        assert src[done..done + i] + [src[done + i]] == src[done..done + (i + 1)];
      }
      count := count + n;
      PushedContents(r, src[done..done + n], View());
    }
  }
}

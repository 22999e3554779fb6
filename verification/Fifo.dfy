// The byte ring of fifo.c: a power-of-two buffer with 32-bit in and out indices that are never
// reduced modulo its size and wrap on their own.
module Fifo {
  import opened Bits

  newtype byte = x: int | 0 <= x < 256

  const WRAP: int := 0x1_0000_0000

  // unsigned int
  type Index = x: int | 0 <= x < 0x1_0000_0000

  function Min(a: int, b: int): (m: int)
    ensures m <= a && m <= b && (m == a || m == b)
  {
    if a < b then a else b
  }

  // Subtraction and addition of unsigned ints.
  function Minus(a: int, b: int): Index {
    (a - b) % 0x1_0000_0000
  }

  function Plus(a: int, b: int): Index {
    (a + b) % 0x1_0000_0000
  }

  // ----- the ring as a sequence -----

  // The slot k places after slot `off`, within one turn.
  function After(off: nat, k: nat, size: nat): int {
    if off + k < size then off + k else off + k - size
  }

  // The `count` bytes from slot `off` on, around the end of the buffer.
  ghost function View(b: seq<byte>, off: nat, count: nat): (s: seq<byte>)
    requires off < |b| && count <= |b|
    ensures |s| == count && forall k :: 0 <= k < count ==> s[k] == b[After(off, k, |b|)]
  {
    seq(count, k requires 0 <= k < count => b[After(off, k, |b|)])
  }

  function Write(b: seq<byte>, at: nat, s: seq<byte>): (r: seq<byte>)
    requires at + |s| <= |b|
    ensures |r| == |b| && forall i :: 0 <= i < |b| ==> r[i] == if at <= i < at + |s| then s[i - at] else b[i]
  {
    seq(|b|, i requires 0 <= i < |b| => if at <= i < at + |s| then s[i - at] else b[i])
  }

  // Writing bytes from the in slot to the buffer's end, and the rest at its start, queues them.
  lemma PutView(b: seq<byte>, off: nat, count: nat, src: seq<byte>, l: nat)
    requires off < |b| && count + |src| <= |b| && count < |b|
    requires l == Min(|src|, |b| - After(off, count, |b|))
    ensures var b' := Write(Write(b, After(off, count, |b|), src[..l]), 0, src[l..]);
            View(b', off, count + |src|) == View(b, off, count) + src
  {
    var in_ := After(off, count, |b|);
    var b1 := Write(b, in_, src[..l]);
    var b2 := Write(b1, 0, src[l..]);
    var all := View(b, off, count) + src;
    forall k | 0 <= k < count + |src|
      ensures b2[After(off, k, |b|)] == all[k]
    {
      var i := After(off, k, |b|);
      if k < count {
        assert b1[i] == b[i];
      } else if i >= in_ {
        assert i - in_ == k - count && b1[i] == src[k - count];
      } else {
        assert i == k - count - l;
      }
    }
  }

  // Moving the out slot past the oldest bytes leaves the others.
  lemma GetView(b: seq<byte>, off: nat, count: nat, n: nat)
    requires off < |b| && n <= count <= |b|
    ensures 0 <= After(off, n, |b|) < |b| && View(b, After(off, n, |b|), count - n) == View(b, off, count)[n..]
  {
  }

  // ----- indices and slots -----

  // A power of two that fits 32 bits divides 2^32, so an index that has wrapped has the same slot.
  lemma WrapSlot(x: nat, e: nat)
    requires e <= 32
    ensures x % WRAP % Pow2(e) == x % Pow2(e)
  {
    Pow2Sum(e, 32 - e);
    Pow2Words();
    ModOfMod(x, Pow2(32 - e), Pow2(e), x / WRAP, x % WRAP);
  }

  lemma ModOfMod(x: nat, r: nat, p: nat, q: nat, y: nat)
    requires p > 0 && x == q * (p * r) + y
    ensures y % p == x % p
  {
    DivMod(y, p);
    var z, w := y / p, y % p;
    Reassociate(q, r, p);
    Distribute(q * r, z, p);
    assert p * r == r * p;
    Reassociate(r, p, q);
    DivModUnique(x, p, q * r + z, w);
  }

  // Where an index points in a buffer of a power-of-two size.
  function Offset(x: Index, size: Index): nat
    requires size > 0
  {
    And(x, size - 1)
  }

  // Advancing an index by at most one turn, with wrap-around, advances its masked slot.
  lemma Advance(x: Index, n: nat, size: Index, e: nat)
    requires e < 32 && size == Pow2(e) && n <= size
    ensures Offset(x, size) < size && Offset(Plus(x, n), size) == After(Offset(x, size), n, size)
  {
    AndMask(x, e);
    AndMask(Plus(x, n), e);
    WrapSlot(x + n, e);
    DivMod(x, size);
    Turn(x, n, size, x / size, x % size);
  }

  lemma Turn(x: nat, n: nat, p: nat, q: nat, o: nat)
    requires p > 0 && n <= p && o < p && x == q * p + o
    ensures (x + n) % p == After(o, n, p)
  {
    Distribute(q, 1, p);
    if o + n < p {
      DivModUnique(x + n, p, q, o + n);
    } else {
      DivModUnique(x + n, p, q + 1, o + n - p);
    }
  }

  // The in index is the out index advanced by the bytes queued.
  lemma InFromOut(in_: Index, out: Index)
    ensures Plus(out, Minus(in_, out)) == in_
  {}

  lemma AdvanceIn(in_: Index, out: Index, n: nat)
    requires Minus(in_, out) + n < WRAP
    ensures Minus(Plus(in_, n), out) == Minus(in_, out) + n
  {}

  lemma AdvanceOut(in_: Index, out: Index, n: nat)
    requires n <= Minus(in_, out)
    ensures Minus(in_, Plus(out, n)) == Minus(in_, out) - n
  {}

  lemma RoomLeft(size: Index, in_: Index, out: Index)
    requires Minus(in_, out) <= size
    ensures (size - in_ + out) % 0x1_0000_0000 == size - Minus(in_, out)
  {}

  // Some power of two below 2^32.
  ghost predicate IsPow2(size: Index) {
    exists e: nat :: e < 32 && size == Pow2(e)
  }

  // A bit that is missing in a mask that is not all ones.
  lemma {:induction false} ZeroBit(m: nat) returns (x: nat)
    requires m > 0 && forall e: nat :: m + 1 != Pow2(e)
    ensures 0 < x <= m && And(x, m) == 0
  {
    if m % 2 == 0 {
      x := 1;
    } else {
      assert m + 1 == 2 * (m / 2 + 1);
      assert Pow2(1) == 2;
      forall e: nat
        ensures m / 2 + 1 != Pow2(e)
      {
        Doubled(e);
      }
      var y := ZeroBit(m / 2);
      x := 2 * y;
      assert x / 2 == y && x % 2 == 0;
    }
  }

  lemma MaskSmall(x: nat, e: nat)
    requires x < Pow2(e)
    ensures And(x, Pow2(e) - 1) == x
  {
    AndMask(x, e);
    DivModUnique(x, Pow2(e), 0, x);
  }

  lemma NoPow2(size: Index, e: nat)
    requires !IsPow2(size)
    ensures size != Pow2(e)
  {
    if size == Pow2(e) && e >= 32 {
      Pow2Words();
      Pow2Monotone(32, e);
    }
  }

  // The indices of one turn have different slots.
  ghost predicate Injective(size: Index)
    requires size > 0
  {
    forall x, y :: 0 <= x < y < size ==> Offset(x, size) != Offset(y, size)
  }

  lemma Pow2Injective(size: Index, e: nat)
    requires size == Pow2(e)
    ensures Injective(size)
  {
    forall x, y | 0 <= x < y < size
      ensures Offset(x, size) != Offset(y, size)
    {
      MaskSmall(x, e);
      MaskSmall(y, e);
    }
  }

  // EXACTLY the powers of two work: masking with size - 1 gives the indices of one turn different
  // slots if and only if size is a power of two.
  lemma MaskIffPow2(size: Index)
    requires size > 0
    ensures Injective(size) <==> IsPow2(size)
  {
    if IsPow2(size) {
      var e: nat :| e < 32 && size == Pow2(e);
      Pow2Injective(size, e);
    } else {
      forall e: nat
        ensures size != Pow2(e)
      {
        NoPow2(size, e);
      }
      assert Pow2(0) == 1;
      var x := ZeroBit(size - 1);
      assert Offset(0, size) == 0 == Offset(x, size);
    }
  }

  // ----- what a run of puts and gets delivers -----

  datatype Op = PutOp(src: seq<byte>) | GetOp(len: nat)

  // The queue, the bytes accepted and the bytes delivered, as a put or a get changes them.
  datatype Queue = Queue(bytes: seq<byte>, accepted: seq<byte>, delivered: seq<byte>)

  function Apply(size: nat, q: Queue, op: Op): Queue
    requires |q.bytes| <= size
  {
    match op
    case PutOp(src) =>
      var n := Min(|src|, size - |q.bytes|);
      Queue(q.bytes + src[..n], q.accepted + src[..n], q.delivered)
    case GetOp(len) =>
      var n := Min(len, |q.bytes|);
      Queue(q.bytes[n..], q.accepted, q.delivered + q.bytes[..n])
  }

  function ApplyAll(size: nat, q: Queue, ops: seq<Op>): Queue
    requires |q.bytes| <= size
    decreases |ops|
  {
    if ops == [] then q else ApplyAll(size, Apply(size, q, ops[0]), ops[1..])
  }

  // A run grows at its end by one operation on the queue it has left.
  lemma {:induction false} RunGrows(size: nat, q: Queue, ops: seq<Op>, op: Op)
    requires InOrder(size, q)
    ensures InOrder(size, ApplyAll(size, q, ops))
    ensures ApplyAll(size, q, ops + [op]) == Apply(size, ApplyAll(size, q, ops), op)
    decreases |ops|
  {
    if ops == [] {
      assert ops + [op] == [op];
    } else {
      assert (ops + [op])[1..] == ops[1..] + [op];
      ApplyKeeps(size, q, ops[0]);
      RunGrows(size, Apply(size, q, ops[0]), ops[1..], op);
    }
  }

  // The bytes delivered, followed by those still queued, are the bytes accepted, in order: none is
  // lost, repeated or reordered.
  ghost predicate InOrder(size: nat, q: Queue) {
    |q.bytes| <= size && q.delivered + q.bytes == q.accepted
  }

  // A put or a get keeps it so.
  lemma ApplyKeeps(size: nat, q: Queue, op: Op)
    requires InOrder(size, q)
    ensures InOrder(size, Apply(size, q, op))
  {
    match op
    case PutOp(src) => Regroup(q.delivered, q.bytes, src[..Min(|src|, size - |q.bytes|)]);
    case GetOp(len) =>
      var n := Min(len, |q.bytes|);
      Regroup(q.delivered, q.bytes[..n], q.bytes[n..]);
      assert q.bytes[..n] + q.bytes[n..] == q.bytes;
  }

  lemma Regroup(a: seq<byte>, b: seq<byte>, c: seq<byte>)
    ensures a + b + c == a + (b + c)
  {}

  // And so does any run.
  lemma {:induction false} NothingLost(size: nat, q: Queue, ops: seq<Op>)
    requires InOrder(size, q)
    ensures InOrder(size, ApplyAll(size, q, ops))
    decreases |ops|
  {
    if ops != [] {
      ApplyKeeps(size, q, ops[0]);
      NothingLost(size, Apply(size, q, ops[0]), ops[1..]);
    }
  }

  // ----- the code -----

  method Memcpy(dst: array<byte>, at: nat, src: seq<byte>)
    requires at + |src| <= dst.Length
    modifies dst
    ensures dst[..] == Write(old(dst[..]), at, src)
  {
    forall i | 0 <= i < |src| {
      dst[at + i] := src[i];
    }
  }

  class Ring {
    var buffer: array<byte>
    var size: Index
    var in_: Index
    var out: Index
    ghost var e: nat

    // What has been put and got so far.
    ghost var queue: Queue

    ghost predicate Shape()
      reads this
    {
      && size == Pow2(e) && e < 32 && buffer.Length == size
      && Minus(in_, out) <= size
    }

    // The bytes got, followed by those in the buffer, are the bytes put, in order.
    ghost predicate Valid()
      reads this, buffer
    {
      Shape() && queue.bytes == Contents() && InOrder(size, queue)
    }

    // The queued bytes, oldest first.
    ghost function Contents(): (s: seq<byte>)
      requires Shape()
      reads this, buffer
      ensures |s| == Minus(in_, out)
    {
      Advance(out, 0, size, e);
      View(buffer[..], Offset(out, size), Minus(in_, out))
    }

    // fifo_alloc; the ring works for a power-of-two size.
    constructor (size: Index)
      ensures this.size == size && fresh(buffer)
      ensures IsPow2(size) ==> Valid() && queue == Queue([], [], [])
    {
      ghost var e: nat := 0;
      if IsPow2(size) {
        e :| e < 32 && size == Pow2(e);
      }
      this.size := size;
      this.e := e;
      buffer := new byte[size](_ => 0);
      in_, out := 0, 0;
      queue := Queue([], [], []);
    }

    // fifo_room
    function Room(): Index
      reads this
    {
      (size - in_ + out) % 0x1_0000_0000
    }

    // Put appends the longest prefix of the bytes given that fits.
    method Put(src: seq<byte>) returns (len: nat)
      requires Valid() && |src| < WRAP
      modifies this`in_, this`queue, buffer
      ensures Valid() && queue == Apply(size, old(queue), PutOp(src))
      ensures len == Min(|src|, size - |old(Contents())|)
      ensures Contents() == old(Contents()) + src[..len]
    {
      RoomLeft(size, in_, out);
      len := Min(|src|, Room());
      Append(src[..len]);
      ApplyKeeps(size, queue, PutOp(src));
      queue := Apply(size, queue, PutOp(src));
    }

    // The bytes fit: they are copied, and the in index moves on.
    method Append(src: seq<byte>)
      requires Shape() && Minus(in_, out) + |src| <= size
      modifies this`in_, buffer
      ensures Shape() && Contents() == old(Contents()) + src
    {
      ghost var count, off0 := Minus(in_, out), Offset(out, size);
      Advance(out, 0, size, e);
      Advance(in_, 0, size, e);
      var off := Offset(in_, size);
      assert off == After(off0, count, size) by {
        InFromOut(in_, out);
        Advance(out, count, size, e);
      }
      CopyIn(buffer, off, src, off0, count);
      AdvanceIn(in_, out, |src|);
      in_ := Plus(in_, |src|);
    }

    // Get removes the longest prefix of the queue of at most len bytes, copying it to buf if one
    // is given.
    method Get(buf: array?<byte>, len: nat) returns (n: nat)
      requires Valid() && len < WRAP && (buf != null ==> buf != buffer && buf.Length >= len)
      modifies this`in_, this`out, this`queue, buf
      ensures Valid() && queue == Apply(size, old(queue), GetOp(len))
      ensures n == Min(len, |old(Contents())|)
      ensures Contents() == old(Contents())[n..]
      ensures buf != null ==> buf[..n] == old(Contents())[..n] && buf[n..] == old(buf[n..])
    {
      n := Min(len, Minus(in_, out));
      if buf != null {
        CopyOut(n, buf);
      }
      Skip(n);
      ApplyKeeps(size, queue, GetOp(len));
      queue := Apply(size, queue, GetOp(len));
    }

    // The out index moves on; both start again from 0 when the ring is empty.
    method Skip(n: nat)
      requires Shape() && n <= Minus(in_, out)
      modifies this`in_, this`out
      ensures Shape() && Contents() == old(Contents())[n..]
    {
      Advance(out, 0, size, e);
      Advance(out, n, size, e);
      GetView(buffer[..], Offset(out, size), Minus(in_, out), n);
      AdvanceOut(in_, out, n);
      out := Plus(out, n);
      if in_ == out {
        in_, out := 0, 0;
      }
    }

    // The two copies of fifo_get: up to the end of the buffer, and the rest from its start.
    method CopyOut(n: nat, buf: array<byte>)
      requires Shape() && n <= Minus(in_, out) && n <= buf.Length && buf != buffer
      modifies buf
      ensures buf[..n] == old(Contents())[..n] && buf[n..] == old(buf[n..])
    {
      Advance(out, 0, size, e);
      CopyFrom(buffer, Offset(out, size), n, buf, Minus(in_, out));
    }
  }

  // The two copies of fifo_put: up to the end of the buffer, and the rest at its start.
  method CopyIn(buffer: array<byte>, off: nat, src: seq<byte>, ghost off0: nat, ghost count: nat)
    requires off0 < buffer.Length && count + |src| <= buffer.Length && off == After(off0, count, buffer.Length)
    modifies buffer
    ensures View(buffer[..], off0, count + |src|) == old(View(buffer[..], off0, count)) + src
  {
    var l := Min(|src|, buffer.Length - off);
    if count < buffer.Length {
      PutView(buffer[..], off0, count, src, l);
    }
    Memcpy(buffer, off, src[..l]);
    Memcpy(buffer, 0, src[l..]);
  }

  method CopyFrom(buffer: array<byte>, off: nat, n: nat, buf: array<byte>, ghost count: nat)
    requires off < buffer.Length && n <= count <= buffer.Length && n <= buf.Length && buf != buffer
    modifies buf
    ensures buf[..n] == View(buffer[..], off, count)[..n] && buf[n..] == old(buf[n..])
  {
    var l := Min(n, buffer.Length - off);
    Memcpy(buf, 0, buffer[off..off + l]);
    Memcpy(buf, l, buffer[..n - l]);
    assert forall i :: n <= i < buf.Length ==> buf[i] == old(buf[i]);
    assert forall k :: 0 <= k < n ==> buf[k] == View(buffer[..], off, count)[k];
  }
}

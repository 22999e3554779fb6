// The merge of block traces in blktrace.c: a k-way merge over an array of cursors, one per log,
// where a finished cursor is overwritten by the last active one.  Each log is read once.
module TraceMerge {
  import opened Bits
  import opened Wrappers

  type U64 = x: int | 0 <= x < 0x1_0000_0000_0000_0000

  // A record in a log file.  `kept` is whether read_trace cares about its action.
  datatype Raw = Raw(time: U64, kept: bool, data: int)

  // What the cursor's record holds after an incomplete last record was read over it.
  datatype Torn = Torn(time: U64, data: int)

  // The content of a log file: its complete records, and an incomplete last one if there is any.
  datatype Log = Log(records: seq<Raw>, tail: Option<Torn>)

  // A record as merged: the log it came from, and its time, scaled unless it is torn.
  datatype Rec = Rec(log: nat, time: U64, data: int)

  // struct blktrace_cursor: what is left of the file, the scaling, and the current record.
  datatype Cursor = Cursor(log: nat, rest: seq<Raw>, tail: Option<Torn>, scalar: int, iter: nat, length: U64, t: Rec)

  // read_trace returning more than 0, or 0.
  datatype Read = Got | Eof

  // iter * length, which read_trace adds to a record's time.
  function Offset(iter: nat, length: U64): nat {
    MulNat(iter, length);
    iter * length
  }

  // (time + iter * length) * scalar / 100 in 64-bit unsigned arithmetic.
  function ScaleTime(time: U64, shift: nat, scalar: int): U64 {
    (time + shift) * scalar % 0x1_0000_0000_0000_0000 / 100
  }

  function ScaleRec(r: Raw, log: nat, scalar: int, shift: nat): Rec {
    Rec(log, ScaleTime(r.time, shift, scalar), r.data)
  }

  // The kept records of a log, scaled.
  function Kept(records: seq<Raw>, log: nat, scalar: int, shift: nat): seq<Rec> {
    if records == [] then []
    else if records[0].kept then [ScaleRec(records[0], log, scalar, shift)] + Kept(records[1..], log, scalar, shift)
    else Kept(records[1..], log, scalar, shift)
  }

  // An incomplete last record is delivered as it is, whatever its action.
  function Tail(log: nat, tail: Option<Torn>): seq<Rec> {
    if tail.None? then [] else [Rec(log, tail.value.time, tail.value.data)]
  }

  // How often the product of a time wraps 64 bits.
  function Turn(time: U64, shift: nat, scalar: nat): nat {
    MulNat(time + shift, scalar);
    DivMod((time + shift) * scalar, 0x1_0000_0000_0000_0000);
    (time + shift) * scalar / 0x1_0000_0000_0000_0000
  }

  // The product of a time, taken apart.
  lemma TurnParts(time: U64, shift: nat, scalar: nat) returns (x: nat, r: nat)
    ensures x == (time + shift) * scalar && r == x % 0x1_0000_0000_0000_0000
    ensures x == Turn(time, shift, scalar) * 0x1_0000_0000_0000_0000 + r && r < 0x1_0000_0000_0000_0000
    ensures ScaleTime(time, shift, scalar) == r / 100
  {
    MulNat(time + shift, scalar);
    x := (time + shift) * scalar;
    DivMod(x, 0x1_0000_0000_0000_0000);
    r := x % 0x1_0000_0000_0000_0000;
  }

  lemma TurnZeroIff(time: U64, shift: nat, scalar: nat)
    ensures Turn(time, shift, scalar) == 0 <==> (time + shift) * scalar < 0x1_0000_0000_0000_0000
  {
    var x, r := TurnParts(time, shift, scalar);
  }

  lemma TurnMonotone(a: U64, b: U64, shift: nat, scalar: nat)
    requires a <= b
    ensures Turn(a, shift, scalar) <= Turn(b, shift, scalar)
  {
    MulMono(a + shift, b + shift, scalar);
    var x, r := TurnParts(a, shift, scalar);
    var y, s := TurnParts(b, shift, scalar);
  }

  // Scaling keeps the order of times whose products wrap equally often.
  lemma ScaleMonotone(a: U64, b: U64, shift: nat, scalar: nat)
    requires a <= b && Turn(a, shift, scalar) == Turn(b, shift, scalar)
    ensures ScaleTime(a, shift, scalar) <= ScaleTime(b, shift, scalar)
  {
    MulMono(a + shift, b + shift, scalar);
    var x, r := TurnParts(a, shift, scalar);
    var y, s := TurnParts(b, shift, scalar);
  }

  // And a time at which the product wraps once more comes out earlier than the one before it.
  lemma ScaleDrops(t: U64, shift: nat, scalar: nat)
    requires 0 < t && scalar < 0x8000_0000 && Turn(t, shift, scalar) != Turn(t - 1, shift, scalar)
    ensures ScaleTime(t, shift, scalar) < ScaleTime(t - 1, shift, scalar)
  {
    Distribute(t - 1 + shift, 1, scalar);
    var x, r := TurnParts(t - 1, shift, scalar);
    var y, s := TurnParts(t, shift, scalar);
    assert y == x + scalar;
  }

  lemma {:induction false} FirstWrap(limit: U64, shift: nat, scalar: nat) returns (t: U64)
    requires Turn(limit, shift, scalar) != Turn(0, shift, scalar)
    ensures 0 < t <= limit && Turn(t, shift, scalar) != Turn(t - 1, shift, scalar)
    decreases limit
  {
    if Turn(limit - 1, shift, scalar) == Turn(0, shift, scalar) {
      t := limit;
    } else {
      t := FirstWrap(limit - 1, shift, scalar);
    }
  }

  // The kept records of a log do not go back in time.
  ghost predicate InOrder(records: seq<Raw>) {
    forall i, j :: 0 <= i < j < |records| && records[i].kept && records[j].kept ==> records[i].time <= records[j].time
  }

  // Their products all wrap `turn` times.
  ghost predicate OneTurn(records: seq<Raw>, scalar: nat, shift: nat, turn: nat) {
    forall i :: 0 <= i < |records| && records[i].kept ==> Turn(records[i].time, shift, scalar) == turn
  }

  // Scaling keeps the kept records of a log in order as long as their products wrap equally often.
  lemma {:induction false} KeptSorted(records: seq<Raw>, log: nat, scalar: nat, shift: nat, turn: nat)
    requires InOrder(records) && OneTurn(records, scalar, shift, turn)
    ensures Sorted(Kept(records, log, scalar, shift))
  {
    if records != [] {
      KeptSorted(records[1..], log, scalar, shift, turn);
      if records[0].kept {
        KeptAfter(records[1..], log, scalar, shift, turn, records[0].time);
      }
    }
  }

  lemma {:induction false} KeptAfter(records: seq<Raw>, log: nat, scalar: nat, shift: nat, turn: nat, time: U64)
    requires forall i :: 0 <= i < |records| && records[i].kept ==> time <= records[i].time
    requires OneTurn(records, scalar, shift, turn) && Turn(time, shift, scalar) == turn
    ensures forall k :: 0 <= k < |Kept(records, log, scalar, shift)| ==>
                          ScaleTime(time, shift, scalar) <= Kept(records, log, scalar, shift)[k].time
  {
    if records != [] {
      KeptAfter(records[1..], log, scalar, shift, turn, time);
      if records[0].kept {
        ScaleMonotone(time, records[0].time, shift, scalar);
      }
    }
  }

  ghost predicate AtMost(records: seq<Raw>, limit: U64) {
    forall i :: 0 <= i < |records| && records[i].kept ==> records[i].time <= limit
  }

  lemma TurnBetween(t: U64, limit: U64, shift: nat, scalar: nat)
    requires t <= limit && Turn(limit, shift, scalar) == Turn(0, shift, scalar)
    ensures Turn(t, shift, scalar) == Turn(0, shift, scalar)
  {
    TurnMonotone(0, t, shift, scalar);
    TurnMonotone(t, limit, shift, scalar);
  }

  // Two records at a wrap come out in the wrong order.
  lemma WrapWitness(t: U64, log: nat, scalar: nat, shift: nat)
    requires 0 < t && scalar < 0x8000_0000 && Turn(t, shift, scalar) != Turn(t - 1, shift, scalar)
    ensures InOrder([Raw(t - 1, true, 0), Raw(t, true, 0)]) && AtMost([Raw(t - 1, true, 0), Raw(t, true, 0)], t)
    ensures !Sorted(Kept([Raw(t - 1, true, 0), Raw(t, true, 0)], log, scalar, shift))
  {
    var records := [Raw(t - 1, true, 0), Raw(t, true, 0)];
    ScaleDrops(t, shift, scalar);
    assert records[1..] == [records[1]] && records[1..][1..] == [];
    var kept := Kept(records, log, scalar, shift);
    assert kept == [ScaleRec(records[0], log, scalar, shift)] + Kept(records[1..], log, scalar, shift);
    assert kept[1] == ScaleRec(records[1], log, scalar, shift);
    assert kept[1].time < kept[0].time;
  }

  // EXACTLY the wrap breaks the order: logs in order with times up to a limit all stay in order if
  // and only if the product of the limit wraps no more often than that of time 0.
  lemma WrapIff(limit: U64, log: nat, scalar: nat, shift: nat)
    requires scalar < 0x8000_0000
    ensures (forall records: seq<Raw> :: InOrder(records) && AtMost(records, limit) ==> Sorted(Kept(records, log, scalar, shift)))
            <==> Turn(limit, shift, scalar) == Turn(0, shift, scalar)
  {
    if Turn(limit, shift, scalar) == Turn(0, shift, scalar) {
      forall records: seq<Raw> | InOrder(records) && AtMost(records, limit)
        ensures Sorted(Kept(records, log, scalar, shift))
      {
        forall i | 0 <= i < |records| && records[i].kept
          ensures Turn(records[i].time, shift, scalar) == Turn(0, shift, scalar)
        {
          TurnBetween(records[i].time, limit, shift, scalar);
        }
        KeptSorted(records, log, scalar, shift, Turn(0, shift, scalar));
      }
    } else {
      var t := FirstWrap(limit, shift, scalar);
      WrapWitness(t, log, scalar, shift);
      var records := [Raw(t - 1, true, 0), Raw(t, true, 0)];
      assert InOrder(records) && AtMost(records, limit);
    }
  }

  // So a shift that does not wrap by itself leaves exactly the times whose product fits 64 bits.
  lemma FitsIff(limit: U64, log: nat, scalar: nat, shift: nat)
    requires scalar < 0x8000_0000 && shift * scalar < 0x1_0000_0000_0000_0000
    ensures (forall records: seq<Raw> :: InOrder(records) && AtMost(records, limit) ==> Sorted(Kept(records, log, scalar, shift)))
            <==> (limit + shift) * scalar < 0x1_0000_0000_0000_0000
  {
    WrapIff(limit, log, scalar, shift);
    TurnZeroIff(0, shift, scalar);
    TurnZeroIff(limit, shift, scalar);
  }

  // The wrap matters: doubled times of a sorted log can come out in the wrong order.
  lemma WrapBreaksOrder()
    ensures !Sorted(Kept([Raw(1, true, 0), Raw(0x8000_0000_0000_0000, true, 0)], 0, 200, 0))
  {
    var kept := Kept([Raw(1, true, 0), Raw(0x8000_0000_0000_0000, true, 0)], 0, 200, 0);
    assert [Raw(1, true, 0), Raw(0x8000_0000_0000_0000, true, 0)][1..] == [Raw(0x8000_0000_0000_0000, true, 0)];
    assert kept[0].time == 2 && kept[1].time == 0;
  }

  ghost predicate Sorted(s: seq<Rec>) {
    forall i, j :: 0 <= i < j < |s| ==> s[i].time <= s[j].time
  }

  // The records of one log within the merged output, in the order they were written.
  function From(s: seq<Rec>, log: nat): seq<Rec> {
    if s == [] then []
    else From(s[..|s| - 1], log) + (if s[|s| - 1].log == log then [s[|s| - 1]] else [])
  }

  lemma FromAppend(s: seq<Rec>, r: Rec, log: nat)
    ensures From(s + [r], log) == From(s, log) + (if r.log == log then [r] else [])
  {
    assert (s + [r])[..|s|] == s;
  }

  lemma {:induction false} FromCount(s: seq<Rec>, r: Rec)
    ensures multiset(From(s, r.log))[r] == multiset(s)[r]
  {
    if s != [] {
      var last := s[|s| - 1];
      FromCount(s[..|s| - 1], r);
      assert s == s[..|s| - 1] + [last];
    }
  }

  lemma {:induction false} FromBelow(s: seq<Rec>, log: nat, time: U64)
    requires forall k :: 0 <= k < |s| ==> s[k].time <= time
    ensures forall k :: 0 <= k < |From(s, log)| ==> From(s, log)[k].time <= time
  {
    if s != [] {
      FromBelow(s[..|s| - 1], log, time);
    }
  }

  lemma SortedAppend(s: seq<Rec>, r: Rec)
    requires Sorted(s) && forall k :: 0 <= k < |s| ==> s[k].time <= r.time
    ensures Sorted(s + [r])
  {}

  // The records of one log in a sorted output are sorted.
  lemma {:induction false} FromSorted(s: seq<Rec>, log: nat)
    requires Sorted(s)
    ensures Sorted(From(s, log))
  {
    if s != [] {
      var front, last := s[..|s| - 1], s[|s| - 1];
      FromSorted(front, log);
      FromBelow(front, log, last.time);
      SortedAppend(From(front, log), last);
    }
  }

  // ----- the cursors -----

  // What is still to come from a cursor's file.
  function Coming(c: Cursor): seq<Rec> {
    Kept(c.rest, c.log, c.scalar, Offset(c.iter, c.length)) + Tail(c.log, c.tail)
  }

  // What a cursor still has to deliver.
  function Pending(c: Cursor): seq<Rec> {
    [c.t] + Coming(c)
  }

  // Reads left until its file is at its end.
  function Weight(c: Cursor): nat {
    |c.rest| + (if c.tail.Some? then 1 else 0) + 1
  }

  ghost predicate DistinctLogs(cs: seq<Cursor>) {
    forall i, j :: 0 <= i < j < |cs| ==> cs[i].log != cs[j].log
  }

  // The log of cursor c has been delivered up to what the cursor holds.
  ghost predicate CursorOk(out: seq<Rec>, c: Cursor, all: seq<seq<Rec>>) {
    c.log < |all| && c.t.log == c.log && From(out, c.log) + Pending(c) == all[c.log]
  }

  ghost predicate NoCursor(cs: seq<Cursor>, g: nat) {
    forall i :: 0 <= i < |cs| ==> cs[i].log != g
  }

  // Every log has been delivered up to what its cursor holds; a log without cursor entirely.
  ghost predicate Split(out: seq<Rec>, cs: seq<Cursor>, all: seq<seq<Rec>>) {
    && DistinctLogs(cs)
    && (forall i :: 0 <= i < |cs| ==> CursorOk(out, cs[i], all))
    && (forall g :: 0 <= g < |all| && NoCursor(cs, g) ==> From(out, g) == all[g])
    && (forall k :: 0 <= k < |out| ==> out[k].log < |all|)
  }

  // A record of another log does not disturb a cursor.
  lemma OtherCursor(out: seq<Rec>, r: Rec, c: Cursor, all: seq<seq<Rec>>)
    requires CursorOk(out, c, all) && r.log != c.log
    ensures CursorOk(out + [r], c, all)
  {
    FromAppend(out, r, c.log);
  }

  // The output is sorted and no cursor's record is earlier than it.
  ghost predicate Ordered(out: seq<Rec>, cs: seq<Cursor>) {
    && Sorted(out)
    && (forall k, i :: 0 <= k < |out| && 0 <= i < |cs| ==> out[k].time <= cs[i].t.time)
  }

  ghost predicate AllSorted(all: seq<seq<Rec>>) {
    forall g :: 0 <= g < |all| ==> Sorted(all[g])
  }

  // Reads left in all files.
  function Left(cs: seq<Cursor>): nat {
    if cs == [] then 0 else Left(cs[..|cs| - 1]) + Weight(cs[|cs| - 1])
  }

  lemma {:induction false} LeftUpdate(cs: seq<Cursor>, i: nat, c: Cursor)
    requires i < |cs|
    ensures Left(cs[i := c]) == Left(cs) - Weight(cs[i]) + Weight(c)
  {
    var last := |cs| - 1;
    if i == last {
      assert cs[i := c][..last] == cs[..last];
    } else {
      assert cs[i := c][..last] == cs[..last][i := c];
      LeftUpdate(cs[..last], i, c);
    }
  }

  lemma LeftFront(cs: seq<Cursor>)
    requires cs != []
    ensures Left(cs) == Left(cs[..|cs| - 1]) + Weight(cs[|cs| - 1])
  {}

  // merge_finish_file on the active cursors: the last one takes slot i.
  function Finish(cs: seq<Cursor>, i: nat): (r: seq<Cursor>)
    requires i < |cs|
    ensures |r| == |cs| - 1
  {
    cs[i := cs[|cs| - 1]][..|cs| - 1]
  }

  lemma FinishLeft(cs: seq<Cursor>, i: nat)
    requires i < |cs|
    ensures Left(Finish(cs, i)) == Left(cs) - Weight(cs[i])
  {
    var last := |cs| - 1;
    LeftFront(cs);
    if i == last {
      assert Finish(cs, i) == cs[..last];
    } else {
      assert Finish(cs, i) == cs[..last][i := cs[last]];
      LeftUpdate(cs[..last], i, cs[last]);
    }
  }

  // A log without a cursor was delivered before, and still is.
  lemma AdvanceOthers(out: seq<Rec>, cs: seq<Cursor>, all: seq<seq<Rec>>, i: nat, c: Cursor, g: nat)
    requires Split(out, cs, all) && i < |cs| && c.log == cs[i].log && c.t.log == c.log
    requires g < |all| && NoCursor(cs[i := c], g)
    ensures From(out + [cs[i].t], g) == all[g]
  {
    assert CursorOk(out, cs[i], all);
    FromAppend(out, cs[i].t, g);
    assert cs[i := c][i].log != g;
    assert NoCursor(cs, g) by { assert forall k :: 0 <= k < |cs| ==> cs[k].log == cs[i := c][k].log; }
  }

  lemma AdvanceCursor(out: seq<Rec>, was: Cursor, c: Cursor, all: seq<seq<Rec>>)
    requires CursorOk(out, was, all) && c.log == was.log && c.t.log == c.log && Pending(c) == Coming(was)
    ensures CursorOk(out + [was.t], c, all)
  {
    FromAppend(out, was.t, c.log);
    assert From(out, c.log) + Pending(was) == From(out, c.log) + [was.t] + Pending(c);
  }

  // Writing the earliest record and reading the next one of its log.
  lemma AdvanceSplit(out: seq<Rec>, cs: seq<Cursor>, all: seq<seq<Rec>>, i: nat, c: Cursor)
    requires Split(out, cs, all) && i < |cs|
    requires c.log == cs[i].log && c.t.log == c.log && Pending(c) == Coming(cs[i])
    ensures Split(out + [cs[i].t], cs[i := c], all)
  {
    var r, cs' := cs[i].t, cs[i := c];
    assert CursorOk(out, cs[i], all);
    forall k | 0 <= k < |cs'|
      ensures CursorOk(out + [r], cs'[k], all)
    {
      if k == i {
        AdvanceCursor(out, cs[i], c, all);
      } else {
        OtherCursor(out, r, cs[k], all);
      }
    }
    forall g | 0 <= g < |all| && NoCursor(cs', g)
      ensures From(out + [r], g) == all[g]
    {
      AdvanceOthers(out, cs, all, i, c, g);
    }
  }

  lemma FinishMembers(cs: seq<Cursor>, i: nat)
    requires DistinctLogs(cs) && i < |cs|
    ensures var cs', last := Finish(cs, i), |cs| - 1;
            && DistinctLogs(cs')
            && (forall k :: 0 <= k < |cs'| ==> cs'[k] == (if k == i then cs[last] else cs[k]) && cs'[k].log != cs[i].log)
  {
  }

  // A log that loses its cursor is the finished one.
  lemma FinishDrops(cs: seq<Cursor>, i: nat, g: nat)
    requires i < |cs| && g != cs[i].log && NoCursor(Finish(cs, i), g)
    ensures NoCursor(cs, g)
  {
    var cs', last := Finish(cs, i), |cs| - 1;
    forall k | 0 <= k < |cs|
      ensures cs[k].log != g
    {
      if k == last && k != i {
        assert cs'[i] == cs[last];
      } else if k != i {
        assert cs'[k] == cs[k];
      }
    }
  }

  // Writing the earliest record of a log that ends there, and dropping its cursor.
  lemma FinishSplit(out: seq<Rec>, cs: seq<Cursor>, all: seq<seq<Rec>>, i: nat)
    requires Split(out, cs, all) && i < |cs| && Coming(cs[i]) == []
    ensures Split(out + [cs[i].t], Finish(cs, i), all)
  {
    var r, cs' := cs[i].t, Finish(cs, i);
    assert CursorOk(out, cs[i], all);
    FinishMembers(cs, i);
    forall k | 0 <= k < |cs'|
      ensures CursorOk(out + [r], cs'[k], all)
    {
      OtherCursor(out, r, cs'[k], all);
    }
    forall g | 0 <= g < |all| && NoCursor(cs', g)
      ensures From(out + [r], g) == all[g]
    {
      FromAppend(out, r, g);
      if g == cs[i].log {
        assert Pending(cs[i]) == [r];
      } else {
        FinishDrops(cs, i, g);
      }
    }
  }

  ghost predicate Earliest(cs: seq<Cursor>, i: nat) {
    i < |cs| && forall k :: 0 <= k < |cs| ==> cs[i].t.time <= cs[k].t.time
  }

  // The record after a cursor's current one is not earlier.
  lemma NextNotEarlier(out: seq<Rec>, cs: seq<Cursor>, all: seq<seq<Rec>>, i: nat, c: Cursor)
    requires Split(out, cs, all) && AllSorted(all) && i < |cs|
    requires Pending(c) == Coming(cs[i])
    ensures cs[i].t.time <= c.t.time
  {
    var g := cs[i].log;
    var n := |From(out, g)|;
    assert CursorOk(out, cs[i], all);
    assert all[g] == From(out, g) + Pending(cs[i]);
    assert all[g][n] == Pending(cs[i])[0] == cs[i].t;
    assert all[g][n + 1] == Pending(cs[i])[1] == Pending(c)[0];
  }

  lemma AdvanceOrdered(out: seq<Rec>, cs: seq<Cursor>, all: seq<seq<Rec>>, i: nat, c: Cursor)
    requires Split(out, cs, all) && AllSorted(all) && Ordered(out, cs) && Earliest(cs, i)
    requires Pending(c) == Coming(cs[i])
    ensures Ordered(out + [cs[i].t], cs[i := c])
  {
    NextNotEarlier(out, cs, all, i, c);
  }

  lemma FinishOrdered(out: seq<Rec>, cs: seq<Cursor>, i: nat)
    requires Ordered(out, cs) && Earliest(cs, i)
    ensures Ordered(out + [cs[i].t], Finish(cs, i))
  {
    var cs' := Finish(cs, i);
    assert forall k :: 0 <= k < |cs'| ==> cs'[k] == if k == i then cs[|cs| - 1] else cs[k];
  }

  // ----- the code -----

  // find_earliest_io: the first cursor among those with the earliest record.
  method FindEarliest(bcs: array<Cursor>, nrLogs: nat) returns (idx: nat)
    requires 0 < nrLogs <= bcs.Length
    ensures Earliest(bcs[..nrLogs], idx)
    ensures forall k :: 0 <= k < idx ==> bcs[idx].t.time < bcs[k].t.time
  {
    var time: U64 := 0xFFFF_FFFF_FFFF_FFFF;
    idx := 0;
    for i := 0 to nrLogs
      invariant idx < nrLogs && (time == bcs[idx].t.time || (time == 0xFFFF_FFFF_FFFF_FFFF && idx == 0))
      invariant time >= bcs[idx].t.time
      invariant forall k :: 0 <= k < i ==> time <= bcs[k].t.time
      invariant forall k :: 0 <= k < idx ==> time < bcs[k].t.time
    {
      assert bcs[..nrLogs][i] == bcs[i];
      if bcs[i].t.time < time {
        time := bcs[i].t.time;
        idx := i;
      }
    }
  }

  // The time a cursor's record shows when its file ends.
  function LastTime(records: seq<Raw>, time: U64): U64 {
    if records == [] then time else records[|records| - 1].time
  }

  // What reading on in a cursor makes of it.
  ghost predicate ReadFrom(was: Cursor, c: Cursor, ret: Read) {
    && c.log == was.log && c.scalar == was.scalar && c.iter == was.iter
    && (ret == Got <==> Coming(was) != [])
    && (ret == Got ==> Pending(c) == Coming(was) && Weight(c) < Weight(was) && c.t.log == c.log)
    && (ret == Eof ==> c.t.time == LastTime(was.rest, was.t.time)
                       && c.length == if was.length == 0 then c.t.time else was.length)
  }

  // read_trace: the next kept record of cursor i into its t, skipping the others.  An incomplete
  // last record ends the file with a positive count, so it is taken for a record.
  method ReadTrace(bcs: array<Cursor>, i: nat) returns (ret: Read)
    requires i < bcs.Length
    modifies bcs
    ensures forall k :: 0 <= k < bcs.Length && k != i ==> bcs[k] == old(bcs[k])
    ensures ReadFrom(old(bcs[i]), bcs[i], ret)
  {
    ghost var coming := Coming(bcs[i]);
    while bcs[i].rest != []
      invariant forall k :: 0 <= k < bcs.Length && k != i ==> bcs[k] == old(bcs[k])
      invariant bcs[i] == old(bcs[i]).(rest := bcs[i].rest, t := bcs[i].t)
      invariant |bcs[i].rest| <= |old(bcs[i].rest)|
      invariant Coming(bcs[i]) == coming
      invariant LastTime(bcs[i].rest, bcs[i].t.time) == LastTime(old(bcs[i].rest), old(bcs[i].t.time))
      decreases |bcs[i].rest|
    {
      var c := bcs[i];
      var r := c.rest[0];
      bcs[i] := c.(rest := c.rest[1..], t := Rec(c.log, r.time, r.data));
      if r.kept {
        bcs[i] := bcs[i].(t := ScaleRec(r, c.log, c.scalar, Offset(c.iter, c.length)));
        return Got;
      }
    }
    ret := ReadEnd(bcs, i);
  }

  // The file has no complete record left.
  method ReadEnd(bcs: array<Cursor>, i: nat) returns (ret: Read)
    requires i < bcs.Length && bcs[i].rest == []
    modifies bcs
    ensures forall k :: 0 <= k < bcs.Length && k != i ==> bcs[k] == old(bcs[k])
    ensures ReadFrom(old(bcs[i]), bcs[i], ret)
  {
    var c := bcs[i];
    ret := Eof;
    if c.tail.Some? {
      c := c.(t := Rec(c.log, c.tail.value.time, c.tail.value.data), tail := None);
      ret := Got;
    }
    if c.length == 0 {
      c := c.(length := c.t.time);
    }
    bcs[i] := c;
  }

  // What the merge loop keeps about its output and its active cursors.
  ghost predicate Merging(out: seq<Rec>, cs: seq<Cursor>, all: seq<seq<Rec>>) {
    Split(out, cs, all) && (AllSorted(all) ==> Ordered(out, cs))
  }

  // A round whose log goes on: cursor i has become c.
  lemma RoundGot(out: seq<Rec>, cs: seq<Cursor>, all: seq<seq<Rec>>, i: nat, c: Cursor)
    requires Merging(out, cs, all) && Earliest(cs, i)
    requires c.log == cs[i].log && c.t.log == c.log
    requires Pending(c) == Coming(cs[i]) && Weight(c) < Weight(cs[i])
    ensures Merging(out + [cs[i].t], cs[i := c], all) && Left(cs[i := c]) < Left(cs)
  {
    AdvanceSplit(out, cs, all, i, c);
    LeftUpdate(cs, i, c);
    if AllSorted(all) {
      AdvanceOrdered(out, cs, all, i, c);
    }
  }

  // A round that ends the log of cursor i.
  lemma RoundEof(out: seq<Rec>, cs: seq<Cursor>, all: seq<seq<Rec>>, i: nat)
    requires Merging(out, cs, all) && Earliest(cs, i) && Coming(cs[i]) == []
    ensures Merging(out + [cs[i].t], Finish(cs, i), all) && Left(Finish(cs, i)) < Left(cs)
  {
    FinishSplit(out, cs, all, i);
    FinishLeft(cs, i);
    if AllSorted(all) {
      FinishOrdered(out, cs, i);
    }
  }

  lemma Round(out: seq<Rec>, cs: seq<Cursor>, all: seq<seq<Rec>>, i: nat, c: Cursor, ret: Read) returns (cs': seq<Cursor>)
    requires Merging(out, cs, all) && Earliest(cs, i) && ReadFrom(cs[i], c, ret)
    ensures cs' == if ret == Got then cs[i := c] else Finish(cs, i)
    ensures Merging(out + [cs[i].t], cs', all) && Left(cs') < Left(cs)
  {
    if ret == Got {
      RoundGot(out, cs, all, i, c);
      cs' := cs[i := c];
    } else {
      RoundEof(out, cs, all, i);
      cs' := Finish(cs, i);
    }
  }

  // merge_finish_file: one more iteration done, which was the last, and the last active cursor
  // moves into slot i.  A slot given up while opening keeps its cursor, its count raised.
  method FinishFile(bcs: array<Cursor>, i: nat, nrLogs: nat) returns (nrLogs': nat)
    requires i < nrLogs <= bcs.Length
    modifies bcs
    ensures nrLogs' == nrLogs - 1 && bcs[..nrLogs'] == Finish(old(bcs[..nrLogs]), i)
    ensures forall k :: nrLogs' <= k < bcs.Length && k != i ==> bcs[k] == old(bcs[k])
    ensures i == nrLogs' ==> bcs[i] == old(bcs[i]).(iter := old(bcs[i].iter) + 1)
  {
    bcs[i] := bcs[i].(iter := bcs[i].iter + 1);
    nrLogs' := nrLogs - 1;
    bcs[i] := bcs[nrLogs'];
  }

  // The body of the merge loop: the earliest record is taken, and its log read on.
  method NextRecord(bcs: array<Cursor>, nrLogs: nat)
    returns (ret: Read, rec: Rec, nrLogs': nat, ghost i: nat, ghost c: Cursor)
    requires 0 < nrLogs <= bcs.Length
    modifies bcs
    ensures var cs := old(bcs[..nrLogs]);
            && Earliest(cs, i) && rec == cs[i].t && ReadFrom(cs[i], c, ret) && nrLogs' <= bcs.Length
            && bcs[..nrLogs'] == if ret == Got then cs[i := c] else Finish(cs, i)
  {
    ghost var cs := bcs[..nrLogs];
    var idx := FindEarliest(bcs, nrLogs);
    rec := bcs[idx].t;
    ret := ReadTrace(bcs, idx);
    i, c, nrLogs' := idx, bcs[idx], nrLogs;
    assert bcs[..nrLogs] == cs[i := c];
    if ret == Eof {
      nrLogs' := FinishFile(bcs, idx, nrLogs);
      FinishSame(cs, i, c);
    }
  }

  // What the finished cursor was read to does not matter.
  lemma FinishSame(cs: seq<Cursor>, i: nat, c: Cursor)
    requires i < |cs|
    ensures Finish(cs[i := c], i) == Finish(cs, i)
  {
    var last := |cs| - 1;
    assert forall k :: 0 <= k < last ==> Finish(cs[i := c], i)[k] == Finish(cs, i)[k];
  }

  // The merge loop.
  method MergeFiles(bcs: array<Cursor>, active: nat, ghost start: seq<Cursor>, ghost all: seq<seq<Rec>>)
    returns (out: seq<Rec>)
    requires active <= bcs.Length && bcs[..active] == start && Merging([], start, all)
    modifies bcs
    ensures Merging(out, [], all)
  {
    var nrLogs: nat := active;
    ghost var cs := start;
    out := [];
    while nrLogs != 0
      invariant nrLogs <= bcs.Length && bcs[..nrLogs] == cs
      invariant Merging(out, cs, all)
      decreases Left(cs)
    {
      var ret, rec;
      ghost var i, c;
      ret, rec, nrLogs, i, c := NextRecord(bcs, nrLogs);
      ghost var was := out;
      out := out + [rec];
      cs := Round(was, cs, all, i, c, ret);
    }
  }

  // ----- opening the logs -----

  // is_blktrace: the file holds at least one complete record.
  predicate IsBlktrace(log: Log) {
    log.records != []
  }

  // The first n files are block traces.
  predicate AllBlktrace(logs: seq<Log>, n: nat)
    requires n <= |logs|
  {
    n > 0 ==> IsBlktrace(logs[n - 1]) && AllBlktrace(logs, n - 1)
  }

  lemma {:induction false} NotBlktrace(logs: seq<Log>, g: nat, n: nat)
    requires g < n <= |logs| && !IsBlktrace(logs[g])
    ensures !AllBlktrace(logs, n)
    decreases n
  {
    if g < n - 1 {
      NotBlktrace(logs, g, n - 1);
    }
  }

  predicate HasKept(records: seq<Raw>) {
    exists i :: 0 <= i < |records| && records[i].kept
  }

  lemma {:induction false} KeptIff(records: seq<Raw>, log: nat, scalar: int, shift: nat)
    ensures Kept(records, log, scalar, shift) != [] <==> HasKept(records)
  {
    if records != [] {
      KeptIff(records[1..], log, scalar, shift);
      if records[0].kept {
      } else if HasKept(records[1..]) {
        var i :| 0 <= i < |records| - 1 && records[1..][i].kept;
        assert records[i + 1].kept;
      } else {
        assert forall i :: 1 <= i < |records| ==> records[1..][i - 1] == records[i];
      }
    }
  }

  // A log that gives the merge anything; another one gives up its cursor slot when it is opened.
  predicate Delivers(log: Log) {
    HasKept(log.records) || log.tail.Some?
  }

  // The cursor slot a log is opened in.
  function SlotOf(logs: seq<Log>, g: nat): (n: nat)
    requires g <= |logs|
    ensures n <= g
  {
    if g == 0 then 0 else SlotOf(logs, g - 1) + (if Delivers(logs[g - 1]) then 1 else 0)
  }

  // How often the slot of log g has been given up before: its cursor's iter.
  function GivenUp(logs: seq<Log>, g: nat): nat
    requires g <= |logs|
  {
    if g == 0 || Delivers(logs[g - 1]) then 0 else GivenUp(logs, g - 1) + 1
  }

  function EndTime(log: Log): U64 {
    LastTime(log.records, 0)
  }

  // The first non-zero end time among the logs that have given up the slot: its cursor's length.
  function LengthBefore(logs: seq<Log>, g: nat): U64
    requires g <= |logs|
  {
    if g == 0 || Delivers(logs[g - 1]) then 0
    else if LengthBefore(logs, g - 1) != 0 then LengthBefore(logs, g - 1)
    else EndTime(logs[g - 1])
  }

  // What is added to the times of log g.
  function ShiftOf(logs: seq<Log>, g: nat): nat
    requires g <= |logs|
  {
    Offset(GivenUp(logs, g), LengthBefore(logs, g))
  }

  // The kept records of log g as the code scales them, by its slot's scalar and shift.
  function KeptOf(logs: seq<Log>, scalars: seq<int>, g: nat): seq<Rec>
    requires |scalars| == |logs| && g < |logs|
  {
    Kept(logs[g].records, g, scalars[SlotOf(logs, g)], ShiftOf(logs, g))
  }

  // What log g contributes to the merge.
  function Contribution(logs: seq<Log>, scalars: seq<int>, g: nat): seq<Rec>
    requires |scalars| == |logs| && g < |logs|
  {
    KeptOf(logs, scalars, g) + Tail(g, logs[g].tail)
  }

  ghost function Contributions(logs: seq<Log>, scalars: seq<int>, n: nat): (all: seq<seq<Rec>>)
    requires |scalars| == |logs| && n <= |logs|
    ensures |all| == n && forall g :: 0 <= g < n ==> all[g] == Contribution(logs, scalars, g)
  {
    seq(n, g requires 0 <= g < n => Contribution(logs, scalars, g))
  }

  // A cursor's contribution is not disturbed by another log.
  lemma CursorStays(c: Cursor, all: seq<seq<Rec>>, kept: seq<Rec>)
    requires CursorOk([], c, all)
    ensures CursorOk([], c, all + [kept])
  {}

  // A log opened in the next slot.
  lemma OpenedSplit(cs: seq<Cursor>, all: seq<seq<Rec>>, c: Cursor, kept: seq<Rec>)
    requires Merging([], cs, all) && c.log == |all| && c.t.log == c.log && Pending(c) == kept
    ensures Merging([], cs + [c], all + [kept])
  {
    var cs', all' := cs + [c], all + [kept];
    forall i | 0 <= i < |cs'|
      ensures CursorOk([], cs'[i], all') && (i < |cs| ==> cs'[i].log < |all|)
    {
      if i < |cs| {
        CursorStays(cs[i], all, kept);
      } else {
        assert From([], c.log) + Pending(c) == kept;
      }
    }
    forall g | 0 <= g < |all'| && NoCursor(cs', g)
      ensures From([], g) == all'[g]
    {
      assert cs'[|cs|].log != g;
      assert NoCursor(cs, g) by { assert forall i :: 0 <= i < |cs| ==> cs'[i] == cs[i]; }
    }
  }

  lemma EmptySplit(cs: seq<Cursor>, all: seq<seq<Rec>>)
    requires Merging([], cs, all)
    ensures Merging([], cs, all + [[]])
  {
    forall i | 0 <= i < |cs|
      ensures CursorOk([], cs[i], all + [[]])
    {
      assert CursorOk([], cs[i], all);
    }
  }

  // The scaling a slot has before a log is opened in it.
  predicate SlotIs(c: Cursor, scalar: int, iter: nat, length: U64) {
    c.scalar == scalar && c.iter == iter && c.length == length
  }

  // The slots after slot n have not been used.
  ghost predicate Unused(scalars: seq<int>, cs: seq<Cursor>, n: nat) {
    |cs| == |scalars| && forall k :: n < k < |cs| ==> SlotIs(cs[k], scalars[k], 0, 0)
  }

  // The next slot is as the logs that have given it up left it.
  ghost predicate NextSlot(logs: seq<Log>, scalars: seq<int>, g: nat, cs: seq<Cursor>, n: nat)
    requires |scalars| == |logs| && g <= |logs|
  {
    n < |cs| == |scalars| ==> SlotIs(cs[n], scalars[n], GivenUp(logs, g), LengthBefore(logs, g))
  }

  // What the set-up loop keeps: of the slots cs, the first n hold the logs opened so far.
  ghost predicate Opening(logs: seq<Log>, scalars: seq<int>, g: nat, cs: seq<Cursor>, n: nat)
    requires |scalars| == |logs| && g <= |logs|
  {
    && n == SlotOf(logs, g) && |cs| == |logs|
    && Merging([], cs[..n], Contributions(logs, scalars, g))
    && NextSlot(logs, scalars, g, cs, n) && Unused(scalars, cs, n)
  }

  // The array as malloc and init_merge_param_list leave it, unset fields counting as zero.
  method InitCursors(scalars: seq<int>) returns (bcs: array<Cursor>)
    ensures fresh(bcs) && bcs.Length == |scalars|
    ensures forall k :: 0 <= k < |scalars| ==> SlotIs(bcs[k], scalars[k], 0, 0)
  {
    bcs := new Cursor[|scalars|](k requires 0 <= k < |scalars| => Cursor(0, [], None, scalars[k], 0, 0, Rec(0, 0, 0)));
  }

  // The set-up loop: each log in the next slot, its first record to merge read.
  method OpenLogs(logs: seq<Log>, scalars: seq<int>) returns (ok: bool, bcs: array<Cursor>, nrLogs: nat)
    requires |scalars| == |logs|
    ensures fresh(bcs) && nrLogs <= bcs.Length
    ensures ok <==> AllBlktrace(logs, |logs|)
    ensures ok ==> Opening(logs, scalars, |logs|, bcs[..], nrLogs)
  {
    bcs := InitCursors(scalars);
    ok, nrLogs := false, 0;
    StartOpening(logs, scalars, bcs[..]);
    for g := 0 to |logs|
      invariant nrLogs <= bcs.Length
      invariant AllBlktrace(logs, g)
      invariant Opening(logs, scalars, g, bcs[..], nrLogs)
    {
      if logs[g].records == [] {
        NotBlktrace(logs, g, |logs|);
        return;
      }
      nrLogs := OpenNext(logs, scalars, g, bcs, nrLogs);
    }
    ok := true;
  }

  // The set-up loop's body.
  method OpenNext(logs: seq<Log>, scalars: seq<int>, g: nat, bcs: array<Cursor>, n: nat) returns (n': nat)
    requires |scalars| == |logs| && g < |logs| && IsBlktrace(logs[g]) && Opening(logs, scalars, g, bcs[..], n)
    modifies bcs
    ensures n' <= bcs.Length && Opening(logs, scalars, g + 1, bcs[..], n')
  {
    ghost var was := bcs[..];
    var ret := OpenLog(logs[g], g, bcs, n);
    n' := if ret == Got then n + 1 else n;
    OpenStep(logs, scalars, g, was, n, bcs[n], ret);
    assert bcs[..] == was[n := bcs[n]];
  }

  // A slot with a log's file opened in it.
  function Opened(c: Cursor, log: Log, g: nat): Cursor {
    c.(log := g, rest := log.records, tail := log.tail)
  }

  // Log g opened in slot n, which it gives up if it has nothing to merge.
  method OpenLog(log: Log, g: nat, bcs: array<Cursor>, n: nat) returns (ret: Read)
    requires n < bcs.Length
    modifies bcs
    ensures forall k :: 0 <= k < bcs.Length && k != n ==> bcs[k] == old(bcs[k])
    ensures AfterOpening(Opened(old(bcs[n]), log, g), bcs[n], ret)
  {
    bcs[n] := Opened(bcs[n], log, g);
    ret := ReadTrace(bcs, n);
    if ret == Eof {
      var _ := FinishFile(bcs, n, n + 1);
    }
  }

  ghost predicate AfterOpening(was: Cursor, c: Cursor, ret: Read) {
    && (ret == Got <==> Coming(was) != [])
    && (ret == Got ==> Pending(c) == Coming(was) && c.log == was.log && c.t.log == c.log)
    && (ret == Eof ==> SlotIs(c, was.scalar, was.iter + 1,
                              if was.length == 0 then LastTime(was.rest, was.t.time) else was.length))
  }

  lemma StartOpening(logs: seq<Log>, scalars: seq<int>, cs: seq<Cursor>)
    requires |scalars| == |logs| == |cs|
    requires forall k :: 0 <= k < |scalars| ==> SlotIs(cs[k], scalars[k], 0, 0)
    ensures Opening(logs, scalars, 0, cs, 0)
  {
    assert cs[..0] == [];
  }

  // What the file of log g has to deliver, opened in its slot.
  lemma OpenedComing(logs: seq<Log>, scalars: seq<int>, g: nat, c: Cursor)
    requires |scalars| == |logs| && g < |logs|
    requires SlotIs(c, scalars[SlotOf(logs, g)], GivenUp(logs, g), LengthBefore(logs, g))
    ensures Coming(Opened(c, logs[g], g)) == Contribution(logs, scalars, g)
    ensures Contribution(logs, scalars, g) != [] <==> Delivers(logs[g])
  {
    KeptIff(logs[g].records, g, c.scalar, ShiftOf(logs, g));
  }

  // Log g has come to slot n, where c is its cursor.
  lemma OpenGot(logs: seq<Log>, scalars: seq<int>, g: nat, cs: seq<Cursor>, n: nat, c: Cursor)
    requires |scalars| == |logs| && g < |logs| && Opening(logs, scalars, g, cs, n)
    requires Delivers(logs[g]) && Pending(c) == Contribution(logs, scalars, g) && c.log == c.t.log == g
    ensures Opening(logs, scalars, g + 1, cs[n := c], n + 1)
  {
    ContributionsNext(logs, scalars, g);
    OpenedSplit(cs[..n], Contributions(logs, scalars, g), c, Contribution(logs, scalars, g));
    TakeUpdated(cs, n, c);
  }

  // Log g has given up slot n, where c is what it has left behind.
  lemma OpenEof(logs: seq<Log>, scalars: seq<int>, g: nat, cs: seq<Cursor>, n: nat, c: Cursor)
    requires |scalars| == |logs| && g < |logs| && Opening(logs, scalars, g, cs, n)
    requires !Delivers(logs[g]) && Contribution(logs, scalars, g) == []
    requires SlotIs(c, scalars[n], GivenUp(logs, g + 1), LengthBefore(logs, g + 1))
    ensures Opening(logs, scalars, g + 1, cs[n := c], n)
  {
    ContributionsNext(logs, scalars, g);
    EmptySplit(cs[..n], Contributions(logs, scalars, g));
    TakeUpdated(cs, n, c);
  }

  // Log g opened in slot n, where c is what has become of it.
  lemma OpenStep(logs: seq<Log>, scalars: seq<int>, g: nat, cs: seq<Cursor>, n: nat, c: Cursor, ret: Read)
    requires |scalars| == |logs| && g < |logs| && IsBlktrace(logs[g]) && Opening(logs, scalars, g, cs, n)
    requires AfterOpening(Opened(cs[n], logs[g], g), c, ret)
    ensures Opening(logs, scalars, g + 1, cs[n := c], if ret == Got then n + 1 else n)
  {
    OpenedComing(logs, scalars, g, cs[n]);
    if ret == Got {
      OpenGot(logs, scalars, g, cs, n, c);
    } else {
      OpenEof(logs, scalars, g, cs, n, c);
    }
  }

  lemma ContributionsNext(logs: seq<Log>, scalars: seq<int>, g: nat)
    requires |scalars| == |logs| && g < |logs|
    ensures Contributions(logs, scalars, g + 1) == Contributions(logs, scalars, g) + [Contribution(logs, scalars, g)]
  {}

  // ----- the merge -----

  predicate NoneCut(logs: seq<Log>) {
    forall g :: 0 <= g < |logs| ==> logs[g].tail.None?
  }

  // Every log's records are in the output, in their own order, and nothing else is.
  ghost predicate Delivered(out: seq<Rec>, logs: seq<Log>, scalars: seq<int>)
    requires |scalars| == |logs|
  {
    && (forall g :: 0 <= g < |logs| ==> From(out, g) == Contribution(logs, scalars, g))
    && (forall k :: 0 <= k < |out| ==> out[k].log < |logs|)
  }

  // merge_blktrace_iologs: open every log, then merge.  It merges exactly if every file holds a
  // complete record.  The output is sorted whenever the logs are orderly, and exactly when each log's
  // scaled records are sorted and no torn record is earlier than those before it.  It holds just the
  // kept records if and only if no log is cut short.
  method MergeLogs(logs: seq<Log>, scalars: seq<int>) returns (merged: bool, out: seq<Rec>)
    requires |scalars| == |logs|
    ensures merged <==> AllBlktrace(logs, |logs|)
    ensures !merged ==> out == []
    ensures merged ==> Delivered(out, logs, scalars)
    ensures merged && (forall g :: 0 <= g < |logs| ==> Orderly(logs, scalars, g)) ==> Sorted(out)
    ensures merged ==> (Sorted(out) <==> forall g :: 0 <= g < |logs| ==> SortedLog(logs, scalars, g))
    ensures merged ==> ((forall g :: 0 <= g < |logs| ==> From(out, g) == KeptOf(logs, scalars, g)) <==> NoneCut(logs))
  {
    var bcs, nrLogs;
    merged, bcs, nrLogs := OpenLogs(logs, scalars);
    out := [];
    if merged {
      ghost var all := Contributions(logs, scalars, |logs|);
      out := MergeFiles(bcs, nrLogs, bcs[..nrLogs], all);
      MergedAll(out, all);
      CutIff(out, logs, scalars);
      OrderedOutput(out, logs, scalars);
    }
  }

  lemma MergedAll(out: seq<Rec>, all: seq<seq<Rec>>)
    requires Merging(out, [], all)
    ensures (forall g :: 0 <= g < |all| ==> From(out, g) == all[g]) && (forall k :: 0 <= k < |out| ==> out[k].log < |all|)
    ensures AllSorted(all) <==> Sorted(out)
  {
    assert forall g :: NoCursor([], g);
    if Sorted(out) {
      forall g | 0 <= g < |all|
        ensures Sorted(all[g])
      {
        FromSorted(out, g);
      }
    }
  }

  // A torn record of log g is not earlier than the last kept record before it.
  ghost predicate TornLast(logs: seq<Log>, scalars: seq<int>, g: nat)
    requires |scalars| == |logs| && g < |logs|
  {
    var kept := KeptOf(logs, scalars, g);
    logs[g].tail.Some? && kept != [] ==> kept[|kept| - 1].time <= logs[g].tail.value.time
  }

  // The scaled records of log g are sorted and so is its torn record behind them.
  ghost predicate SortedLog(logs: seq<Log>, scalars: seq<int>, g: nat)
    requires |scalars| == |logs| && g < |logs|
  {
    Sorted(KeptOf(logs, scalars, g)) && TornLast(logs, scalars, g)
  }

  // A log's contribution is sorted if and only if its kept records are and its torn record, if there
  // is one, is not earlier than the last of them.
  lemma TornSorted(logs: seq<Log>, scalars: seq<int>, g: nat)
    requires |scalars| == |logs| && g < |logs|
    ensures Sorted(Contribution(logs, scalars, g)) <==> Sorted(KeptOf(logs, scalars, g)) && TornLast(logs, scalars, g)
  {
    var kept, all := KeptOf(logs, scalars, g), Contribution(logs, scalars, g);
    if logs[g].tail.Some? {
      var torn := Tail(g, logs[g].tail)[0];
      assert all == kept + [torn];
      assert forall i :: 0 <= i < |kept| ==> all[i] == kept[i];
      assert all[|kept|] == torn;
      if Sorted(kept) && TornLast(logs, scalars, g) {
        SortedAppend(kept, torn);
      }
    } else {
      assert all == kept;
    }
  }

  // A log the merge can keep sorted: the times of log g's kept records do not decrease, their products wrap
  // equally often, and a torn record does not show an earlier time.
  ghost predicate Orderly(logs: seq<Log>, scalars: seq<int>, g: nat)
    requires |scalars| == |logs| && g < |logs|
  {
    && scalars[SlotOf(logs, g)] >= 0 && InOrder(logs[g].records)
    && (exists turn :: OneTurn(logs[g].records, scalars[SlotOf(logs, g)], ShiftOf(logs, g), turn))
    && TornLast(logs, scalars, g)
  }

  // SORTED MERGE, from the inputs: orderly logs contribute in order.
  lemma OrderlySorted(logs: seq<Log>, scalars: seq<int>, g: nat)
    requires |scalars| == |logs| && g < |logs| && Orderly(logs, scalars, g)
    ensures Sorted(Contribution(logs, scalars, g))
  {
    var turn :| OneTurn(logs[g].records, scalars[SlotOf(logs, g)], ShiftOf(logs, g), turn);
    KeptSorted(logs[g].records, g, scalars[SlotOf(logs, g)], ShiftOf(logs, g), turn);
    TornSorted(logs, scalars, g);
  }

  lemma OrderedOutput(out: seq<Rec>, logs: seq<Log>, scalars: seq<int>)
    requires |scalars| == |logs|
    requires Sorted(out) <==> forall g :: 0 <= g < |logs| ==> Sorted(Contribution(logs, scalars, g))
    ensures Sorted(out) <==> forall g :: 0 <= g < |logs| ==> SortedLog(logs, scalars, g)
    ensures (forall g :: 0 <= g < |logs| ==> Orderly(logs, scalars, g)) ==> Sorted(out)
  {
    forall g | 0 <= g < |logs|
      ensures Sorted(Contribution(logs, scalars, g)) <==> SortedLog(logs, scalars, g)
      ensures Orderly(logs, scalars, g) ==> Sorted(Contribution(logs, scalars, g))
    {
      TornSorted(logs, scalars, g);
      if Orderly(logs, scalars, g) {
        OrderlySorted(logs, scalars, g);
      }
    }
  }

  // The output holds just the kept records if and only if no log ends in an incomplete record.
  lemma CutIff(out: seq<Rec>, logs: seq<Log>, scalars: seq<int>)
    requires |scalars| == |logs| && Delivered(out, logs, scalars)
    ensures (forall g :: 0 <= g < |logs| ==> From(out, g) == KeptOf(logs, scalars, g)) <==> NoneCut(logs)
  {
    forall g | 0 <= g < |logs|
      ensures From(out, g) == KeptOf(logs, scalars, g) <==> logs[g].tail.None?
    {
      var kept, tail := KeptOf(logs, scalars, g), Tail(g, logs[g].tail);
      assert From(out, g) == kept + tail;
      assert |From(out, g)| == |kept| + |tail|;
    }
  }

  // The merged output is a permutation of what the logs contribute: each record occurs as often as
  // in its own log's contribution.
  lemma Permutation(out: seq<Rec>, logs: seq<Log>, scalars: seq<int>, r: Rec)
    requires |scalars| == |logs| && Delivered(out, logs, scalars)
    ensures multiset(out)[r] == if r.log < |logs| then multiset(Contribution(logs, scalars, r.log))[r] else 0
  {
    FromCount(out, r);
    if r.log >= |logs| {
      assert r !in out;
    }
  }

  // What a log's kept records carry besides their times.
  function Payloads(records: seq<Raw>): seq<int> {
    if records == [] then []
    else (if records[0].kept then [records[0].data] else []) + Payloads(records[1..])
  }

  function Data(s: seq<Rec>): seq<int> {
    seq(|s|, k requires 0 <= k < |s| => s[k].data)
  }

  lemma {:induction false} KeptData(records: seq<Raw>, log: nat, scalar: int, shift: nat)
    ensures Data(Kept(records, log, scalar, shift)) == Payloads(records)
  {
    if records != [] {
      KeptData(records[1..], log, scalar, shift);
      var first := if records[0].kept then [ScaleRec(records[0], log, scalar, shift)] else [];
      assert Data(first) == if records[0].kept then [records[0].data] else [];
      DataJoin(first, Kept(records[1..], log, scalar, shift));
      assert Kept(records, log, scalar, shift) == first + Kept(records[1..], log, scalar, shift);
    }
  }

  lemma DataJoin(a: seq<Rec>, b: seq<Rec>)
    ensures Data(a + b) == Data(a) + Data(b)
  {}

  // The merge changes nothing but times: what the kept records of a log carry comes out unchanged and
  // in the order of the log, and then what its torn record carries.
  lemma PayloadsDelivered(out: seq<Rec>, logs: seq<Log>, scalars: seq<int>, g: nat)
    requires |scalars| == |logs| && g < |logs| && Delivered(out, logs, scalars)
    ensures Data(From(out, g)) == Payloads(logs[g].records) + if logs[g].tail.None? then [] else [logs[g].tail.value.data]
  {
    KeptData(logs[g].records, g, scalars[SlotOf(logs, g)], ShiftOf(logs, g));
    DataJoin(KeptOf(logs, scalars, g), Tail(g, logs[g].tail));
    assert Data(Tail(g, logs[g].tail)) == if logs[g].tail.None? then [] else [logs[g].tail.value.data];
  }

  // A log cut short in its second record delivers the torn record, unscaled, whatever is in it.
  lemma CutLogDeliversTorn(torn: Torn)
    ensures var logs := [Log([Raw(1, true, 0)], Some(torn))];
            && IsBlktrace(logs[0])
            && Contribution(logs, [200], 0) == [Rec(0, 2, 0), Rec(0, torn.time, torn.data)]
            && KeptOf(logs, [200], 0) == [Rec(0, 2, 0)]
  {
    var logs := [Log([Raw(1, true, 0)], Some(torn))];
    assert logs[0].records[1..] == [];
    assert KeptOf(logs, [200], 0) == [Rec(0, 2, 0)];
  }

  // Each log is scaled by its own entry exactly when every log before it has something to merge.
  lemma {:induction false} OwnSlotIff(logs: seq<Log>, g: nat)
    requires g <= |logs|
    ensures SlotOf(logs, g) == g <==> forall h :: 0 <= h < g ==> Delivers(logs[h])
  {
    if g > 0 {
      OwnSlotIff(logs, g - 1);
    }
  }

  // Log h has given up the slot of log g.
  ghost predicate GaveUp(logs: seq<Log>, h: nat, g: nat)
    requires g <= |logs|
  {
    h < g && forall k :: h <= k < g ==> !Delivers(logs[k])
  }

  // A log that gave up the slot and ends late leaves its mark on the slot's length.
  lemma {:induction false} LateEndStays(logs: seq<Log>, h: nat, g: nat)
    requires g <= |logs| && GaveUp(logs, h, g) && EndTime(logs[h]) != 0
    ensures LengthBefore(logs, g) != 0
    decreases g
  {
    assert !Delivers(logs[g - 1]);
    if h < g - 1 {
      LateEndStays(logs, h, g - 1);
    }
  }

  // The log whose end time is the slot's length.
  lemma {:induction false} LengthFrom(logs: seq<Log>, g: nat) returns (h: nat)
    requires g <= |logs| && LengthBefore(logs, g) != 0
    ensures GaveUp(logs, h, g) && EndTime(logs[h]) == LengthBefore(logs, g) && GivenUp(logs, g) > 0
    decreases g
  {
    if LengthBefore(logs, g - 1) != 0 {
      h := LengthFrom(logs, g - 1);
    } else {
      h := g - 1;
    }
  }

  // Nothing is added to the times of a log exactly when every log that gave up its slot ends at time 0.
  lemma UnshiftedIff(logs: seq<Log>, g: nat)
    requires g <= |logs|
    ensures ShiftOf(logs, g) == 0 <==> forall h :: 0 <= h < g && GaveUp(logs, h, g) ==> EndTime(logs[h]) == 0
  {
    var iter, length := GivenUp(logs, g), LengthBefore(logs, g);
    if length != 0 {
      var h := LengthFrom(logs, g);
      MulMono(1, iter, length);
    } else {
      forall h | 0 <= h < g && GaveUp(logs, h, g)
        ensures EndTime(logs[h]) == 0
      {
        if EndTime(logs[h]) != 0 {
          LateEndStays(logs, h, g);
        }
      }
    }
  }

  // A first log with nothing to merge makes the second one use its scalar.
  lemma GivenUpLogShiftsScalars()
    ensures var logs := [Log([Raw(0, false, 0)], None), Log([Raw(100, true, 0)], None)];
            Contribution(logs, [100, 200], 1) == [Rec(1, 100, 0)] != Kept(logs[1].records, 1, [100, 200][1], 0)
  {
    var logs := [Log([Raw(0, false, 0)], None), Log([Raw(100, true, 0)], None)];
    assert !HasKept(logs[0].records);
    assert SlotOf(logs, 1) == 0 && GivenUp(logs, 0) == 0 && LengthBefore(logs, 0) == 0;
    assert ShiftOf(logs, 1) == 0;
    assert logs[1].records[1..] == [];
    assert Kept(logs[1].records, 1, 200, 0) == [Rec(1, 200, 0)];
  }

  // And its end time is added to the second one's times.
  lemma GivenUpLogShiftsTimes()
    ensures var logs := [Log([Raw(500, false, 0)], None), Log([Raw(100, true, 0)], None)];
            Contribution(logs, [100, 100], 1) == [Rec(1, 600, 0)]
  {
    var logs := [Log([Raw(500, false, 0)], None), Log([Raw(100, true, 0)], None)];
    assert !HasKept(logs[0].records);
    assert SlotOf(logs, 1) == 0 && GivenUp(logs, 0) == 0 && LengthBefore(logs, 0) == 0;
    assert GivenUp(logs, 1) == 1 && LengthBefore(logs, 1) == 500;
    assert ShiftOf(logs, 1) == 500;
    assert logs[1].records[1..] == [];
    assert KeptOf(logs, [100, 100], 1) == [Rec(1, 600, 0)];
  }
}

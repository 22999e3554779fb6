// The CPU-clock source of gettime.c: the fixed-point constants that calibrate_cpu_clock derives
// from the measured cycles per millisecond, and the conversion of a cycle count to nanoseconds.
//
// All of it is 64-bit unsigned arithmetic; u64 operations are proved not to overflow.  Shifts
// left and right are multiplication and division by Pow2.
module CpuClock {
  import opened Bits

  newtype u64 = x: int | 0 <= x < 0x1_0000_0000_0000_0000

  const MAX_CLOCK_SEC: u64 := 3600
  const ULLONG_MAX: u64 := 0xFFFF_FFFF_FFFF_FFFF

  // The largest rate whose ticks in MAX_CLOCK_SEC fit 64 bits: 5 THz.
  const MAX_RATE: int := 5124095576030

  predicate InRange(c: nat) {
    1 <= c <= MAX_RATE
  }

  lemma RangeExact(c: nat)
    requires c >= 1
    ensures InRange(c) <==> 3600 * c * 1000 < 0x1_0000_0000_0000_0000
  {}

  // ----- the constants as functions of the rate -----

  function MaxTicks(c: nat): nat { 3600 * c * 1000 }

  function MaxMult(c: nat): nat
    requires c >= 1
  {
    DivMod(0xFFFF_FFFF_FFFF_FFFF, MaxTicks(c));
    0xFFFF_FFFF_FFFF_FFFF / MaxTicks(c)
  }

  function ShiftBase(c: nat): nat
    requires c >= 1
  {
    MulNat(MaxMult(c), c);
    MaxMult(c) * c / 1000000
  }

  function ClockShift(c: nat): nat
    requires c >= 1
  {
    Log2(ShiftBase(c))
  }

  function ClockMult(c: nat): nat
    requires c >= 1
  {
    DivMod(Pow2(ClockShift(c)) * 1000000, c);
    Pow2(ClockShift(c)) * 1000000 / c
  }

  function MaxCyclesShift(c: nat): nat
    requires c >= 1
  {
    Log2(MaxTicks(c))
  }

  function Scaled(x: nat, mult: nat, shift: nat): nat {
    MulNat(x, mult);
    DivMod(x * mult, Pow2(shift));
    x * mult / Pow2(shift)
  }

  // The globals the conversion uses.
  datatype Constants = Constants(mult: nat, shift: nat, maxShift: nat, nsecsForMax: nat)

  function Derive(c: nat): Constants
    requires c >= 1
  {
    Constants(ClockMult(c), ClockShift(c), MaxCyclesShift(c), Scaled(Pow2(MaxCyclesShift(c)), ClockMult(c), ClockShift(c)))
  }

  // nsecs_for_max_cycles is 2^max_cycles_shift cycles, converted.
  predicate Consistent(k: Constants) {
    k.nsecsForMax == Scaled(Pow2(k.maxShift), k.mult, k.shift)
  }

  // Nanoseconds for t cycles, in unbounded arithmetic.
  function Nsecs(k: Constants, t: nat): nat {
    var P := Pow2(k.maxShift);
    DivMod(t, P);
    MulNat(t / P, k.nsecsForMax);
    t / P * k.nsecsForMax + Scaled(t % P, k.mult, k.shift)
  }

  // ----- bounds on the constants -----

  lemma Assoc(m: int, c: int)
    ensures m * (3600 * c * 1000) == 3600000 * (m * c)
  {}

  // max_mult * c is within a factor two of 2^64 / 3600000.
  lemma ShiftBaseBounds(c: nat)
    requires InRange(c)
    ensures 1 <= MaxMult(c) <= MaxMult(c) * c && 3600000 * (MaxMult(c) * c) <= 0xFFFF_FFFF_FFFF_FFFF
    ensures MaxMult(c) * MaxTicks(c) <= 0xFFFF_FFFF_FFFF_FFFF
    ensures 2 <= ShiftBase(c) < 0x80_0000
  {
    var m := MaxMult(c);
    DivMod(0xFFFF_FFFF_FFFF_FFFF, MaxTicks(c));
    Assoc(m, c);
    Assoc(m + 1, c);
    assert (m + 1) * c == m * c + c;
    if m < 1 {
      assert false;
    }
    MulMono(1, m, c);
    MulMono(1, c, m);
  }

  lemma PowersBounds(c: nat)
    requires InRange(c)
    ensures Pow2(ClockShift(c)) * 1000000 <= MaxMult(c) * c < Pow2(ClockShift(c) + 1) * 1000000
    ensures Pow2(ClockShift(c)) < 0x80_0000
    ensures Pow2(MaxCyclesShift(c)) <= MaxTicks(c) < Pow2(MaxCyclesShift(c) + 1)
  {
    ShiftBaseBounds(c);
    Log2Bounds(ShiftBase(c));
    Log2Bounds(MaxTicks(c));
    MulNat(MaxMult(c), c);
    DivMod(MaxMult(c) * c, 1000000);
  }

  // clock_shift is the largest s with 2^s * 10^6 <= max_mult * c.
  lemma ShiftIsLargest(c: nat, s: nat)
    requires InRange(c)
    ensures Pow2(s) * 1000000 <= MaxMult(c) * c <==> s <= ClockShift(c)
  {
    PowersBounds(c);
    if s <= ClockShift(c) {
      Pow2Monotone(s, ClockShift(c));
    } else {
      Pow2Monotone(ClockShift(c) + 1, s);
    }
  }

  // The multiplier is the fixed-point rate 2^s * 10^6 / c rounded down, and stays within max_mult.
  lemma MultBounds(c: nat)
    requires InRange(c)
    ensures ClockMult(c) <= MaxMult(c)
    ensures ClockMult(c) * c <= Pow2(ClockShift(c)) * 1000000 < (ClockMult(c) + 1) * c
  {
    PowersBounds(c);
    RateBounds(Pow2(ClockShift(c)) * 1000000, ClockMult(c), MaxMult(c), c);
  }

  lemma RateBounds(p: nat, k: nat, m: nat, c: nat)
    requires c > 0 && k == p / c && p <= m * c
    ensures k <= m && k * c <= p < (k + 1) * c
  {
    DivMod(p, c);
    Distribute(m, 1, c);
    Cancel(k, m, c);
  }

  // NO OVERFLOW: any masked tick count, and 2^max_cycles_shift itself, can be multiplied by the
  // multiplier in 64 bits.
  lemma NoOverflow(c: nat, r: nat)
    requires InRange(c) && r <= Pow2(MaxCyclesShift(c))
    ensures 0 <= r * ClockMult(c) <= 0xFFFF_FFFF_FFFF_FFFF
  {
    PowersBounds(c);
    MultBounds(c);
    ShiftBaseBounds(c);
    Product(r, ClockMult(c), MaxTicks(c), MaxMult(c));
  }

  lemma Product(a: nat, b: nat, a': nat, b': nat)
    requires a <= a' && b <= b'
    ensures 0 <= a * b <= b' * a'
  {
    MulMono(a, a', b);
    MulMono(b, b', a');
  }

  // ----- the conversion -----

  lemma ScaledBounds(x: nat, mult: nat, shift: nat)
    ensures var n, Q := Scaled(x, mult, shift), Pow2(shift);
            n * Q <= x * mult < (n + 1) * Q
  {
    MulNat(x, mult);
    DivMod(x * mult, Pow2(shift));
  }

  // The parts of the conversion of t: whole multiples of 2^max_cycles_shift, and the rest.
  lemma Parts(k: Constants, t: nat) returns (q: nat, r: nat, x: nat)
    ensures q == t / Pow2(k.maxShift) && r == t % Pow2(k.maxShift)
    ensures Nsecs(k, t) == q * k.nsecsForMax + x && x == Scaled(r, k.mult, k.shift)
    ensures t == q * Pow2(k.maxShift) + r && r < Pow2(k.maxShift)
    ensures x * Pow2(k.shift) <= r * k.mult < (x + 1) * Pow2(k.shift)
  {
    var P := Pow2(k.maxShift);
    DivMod(t, P);
    q, r := t / P, t % P;
    x := Scaled(r, k.mult, k.shift);
    ScaledBounds(r, k.mult, k.shift);
  }

  // MONOTONE: also across every multiple of 2^max_cycles_shift.
  lemma Monotone(k: Constants, t: nat, u: nat)
    requires Consistent(k) && t <= u
    ensures Nsecs(k, t) <= Nsecs(k, u)
  {
    var q, r, x := Parts(k, t);
    var q', r', x' := Parts(k, u);
    ScaledBounds(Pow2(k.maxShift), k.mult, k.shift);
    MonotoneParts(q, r, q', r', Pow2(k.maxShift), k.mult, Pow2(k.shift), k.nsecsForMax, x, x');
  }

  // The same over the quotients and remainders: t = q*P + r, u = q'*P + r'.
  lemma MonotoneParts(q: nat, r: nat, q': nat, r': nat, P: nat, m: nat, Q: nat, N: nat, x: nat, x': nat)
    requires q * P + r <= q' * P + r' && r < P && r' < P && Q > 0
    requires N * Q <= P * m < (N + 1) * Q && x * Q <= r * m < (x + 1) * Q && x' * Q <= r' * m < (x' + 1) * Q
    ensures q * N + x <= q' * N + x'
  {
    if q == q' {
      MulMono(r, r', m);
      Cancel(x, x', Q);
    } else {
      assert (q' + 1) * P == q' * P + P;
      Cancel(q, q', P);
      MulMono(r, P, m);
      Cancel(x, N, Q);
      MulMono(q + 1, q', N);
      assert (q + 1) * N == q * N + N;
    }
  }

  // Nsecs in units of 2^-shift, against t * mult.
  lemma FixedPointError(k: Constants, t: nat) returns (q: nat)
    requires Consistent(k)
    ensures q == t / Pow2(k.maxShift)
    ensures Nsecs(k, t) * Pow2(k.shift) <= t * k.mult <= (Nsecs(k, t) + q + 1) * Pow2(k.shift)
  {
    var r, x;
    q, r, x := Parts(k, t);
    ScaledBounds(Pow2(k.maxShift), k.mult, k.shift);
    ErrorParts(t, q, r, Pow2(k.maxShift), k.mult, Pow2(k.shift), k.nsecsForMax, x, Nsecs(k, t));
  }

  lemma ErrorParts(t: nat, q: nat, r: nat, P: nat, m: nat, Q: nat, N: nat, x: nat, n: nat)
    requires t == q * P + r && n == q * N + x
    requires N * Q <= P * m < (N + 1) * Q && x * Q <= r * m < (x + 1) * Q
    ensures n * Q <= t * m <= (n + q + 1) * Q
  {
    var A, B, C := P * m, r * m, N * Q;
    Distribute(q * P, r, m);
    Reassociate(q, P, m);
    assert t * m == A * q + B;
    Distribute(N, 1, Q);
    MulMono(C, A, q);
    MulMono(A, C + Q, q);
    Distribute(C, Q, q);
    Distribute(q * N, x, Q);
    Reassociate(q, N, Q);
    assert n * Q == C * q + x * Q;
    Distribute(x, 1, Q);
    Distribute(n, q + 1, Q);
    Distribute(q, 1, Q);
  }

  // ACCURACY: never late, and short of the exact time t * 10^6 / c by at most
  // t / 2^clock_shift + (t >> max_cycles_shift) + 1 nanoseconds.
  lemma Accuracy(c: nat, t: nat)
    requires InRange(c)
    ensures var k, exact := Derive(c), t as real * 1000000.0 / c as real;
            && Nsecs(k, t) as real <= exact
            && exact - Nsecs(k, t) as real <= t as real / Pow2(k.shift) as real + (t / Pow2(k.maxShift) + 1) as real
  {
    var k := Derive(c);
    var q := FixedPointError(k, t);
    MultBounds(c);
    AccuracyUpper(Nsecs(k, t), Pow2(k.shift), t, k.mult, c);
    AccuracyLower(Nsecs(k, t), Pow2(k.shift), t, k.mult, c, q + 1);
  }

  // So the 64-bit sum does not wrap while the exact time fits 64 bits.
  lemma NoWrap(c: nat, t: nat)
    requires InRange(c) && t * 1000000 < 0x1_0000_0000_0000_0000 * c
    ensures Nsecs(Derive(c), t) < 0x1_0000_0000_0000_0000
  {
    var k := Derive(c);
    var q := FixedPointError(k, t);
    MultBounds(c);
    AccuracyUpper(Nsecs(k, t), Pow2(k.shift), t, k.mult, c);
    Cancel(Nsecs(k, t), 0xFFFF_FFFF_FFFF_FFFF, c);
  }

  lemma AccuracyUpper(n: nat, Q: nat, t: nat, m: nat, c: nat)
    requires Q > 0 && c > 0 && n * Q <= t * m && m * c <= Q * 1000000
    ensures n * c <= t * 1000000
    ensures n as real <= t as real * 1000000.0 / c as real
  {
    MulMono(n * Q, t * m, c);
    MulMono(m * c, Q * 1000000, t);
    Reassociate(n, Q, c);
    Reassociate(c, n, Q);
    Reassociate(t, m, c);
    assert n * c * Q <= t * 1000000 * Q;
    Distribute(t * 1000000, 1, Q);
    Cancel(n * c, t * 1000000, Q);
    RealDivide(n, t * 1000000, c);
  }

  lemma AccuracyLower(n: nat, Q: nat, t: nat, m: nat, c: nat, k: nat)
    requires Q > 0 && c > 0 && t * m <= (n + k) * Q && Q * 1000000 <= (m + 1) * c
    ensures t as real * 1000000.0 / c as real - n as real <= t as real / Q as real + k as real
  {
    LowerProducts(n + k, Q, t, m, c);
    ToReal(t * 1000000, Q);
    ToReal((n + k) * Q, c);
    ToReal(n + k, Q);
    ToReal(t, c);
    DivideBoth(t as real * 1000000.0, t as real, Q as real, c as real, (n + k) as real);
  }

  lemma LowerProducts(s: nat, Q: nat, t: nat, m: nat, c: nat)
    requires t * m <= s * Q && Q * 1000000 <= (m + 1) * c
    ensures t * 1000000 * Q <= s * Q * c + t * c
  {
    MulMono(Q * 1000000, (m + 1) * c, t);
    MulMono(t * m, s * Q, c);
    Distribute(m, 1, c);
    Distribute(m * c, c, t);
    Reassociate(t, m, c);
  }

  lemma DivideBoth(u: real, t: real, R: real, C: real, S: real)
    requires R > 0.0 && C > 0.0 && u * R <= S * R * C + t * C
    ensures u / C <= S + t / R
  {
    var a, b := u / C, t / R;
    assert a * C == u && b * R == t;
    assert a * C * R <= S * R * C + b * R * C;
    assert a * (C * R) <= (S + b) * (C * R);
    assert C * R > 0.0;
    CancelReal(a, S + b, C * R);
  }

  lemma RealDivide(n: int, p: int, c: int)
    requires c > 0 && n * c <= p
    ensures n as real <= p as real / c as real
  {
    var q := p as real / c as real;
    assert q * c as real == p as real;
    assert (n * c) as real == n as real * c as real;
    if n as real > q {
      assert n as real * c as real > q * c as real;
    }
  }

  // ----- the code -----

  class Clock {
    var cyclesPerMsec: u64
    var cyclesStart: u64
    var clockMult: u64
    var maxCyclesMask: u64
    var nsecsForMaxCycles: u64
    var clockShift: nat
    var maxCyclesShift: nat

    ghost predicate Calibrated()
      reads this
    {
      && InRange(cyclesPerMsec as nat)
      && Derived() == Derive(cyclesPerMsec as nat)
      && maxCyclesShift < 64
      && maxCyclesMask as int == Pow2(maxCyclesShift) - 1
    }

    // The constants part of calibrate_cpu_clock, for a measured average and the clock's value now.
    method Calibrate(avg: u64, now: u64)
      requires InRange(avg as nat)
      modifies this
      ensures Calibrated() && cyclesPerMsec == avg && cyclesStart == now
    {
      ghost var c := avg as nat;
      CalibrationFits(c);
      cyclesPerMsec := avg;
      var maxTicks := MAX_CLOCK_SEC * cyclesPerMsec * 1000;
      assert maxTicks as nat == MaxTicks(c);
      var maxMult := MulDiv(ULLONG_MAX, 1, maxTicks);
      var tmp := MulDiv(maxMult, cyclesPerMsec, 1000000);
      clockShift := ShiftsToOne(tmp);
      clockMult := MulDiv(Pow2(clockShift) as u64, 1000000, cyclesPerMsec);
      maxCyclesShift := ShiftsToOne(maxTicks);
      nsecsForMaxCycles := MulDiv(Pow2(maxCyclesShift) as u64, clockMult, Pow2(clockShift) as u64);
      maxCyclesMask := LowBits(maxCyclesShift);
      cyclesStart := now;
    }

    // The CS_CPUCLOCK case of __fio_gettime for the clock's value now: the time of the masked
    // conversion.  The difference to the start and the final sum wrap at 2^64; the products never
    // overflow.  For t cycles from the start to now, the time is the conversion of t, and while the
    // exact time of t fits 64 bits it is accurate.
    method GetTime(now: u64) returns (sec: u64, nsec: u64)
      requires Calibrated()
      ensures nsec < 1000000000
      ensures forall t :: Elapsed(cyclesStart, now, t) ==>
                            ShowsTime(cyclesPerMsec as nat, t, sec as int * 1000000000 + nsec as int)
    {
      var t := Since(now);
      sec, nsec := Convert(t);
      ReadingShows(cyclesStart, now, cyclesPerMsec as nat, t);
    }

    // The conversion of t cycles, the multiples of 2^max_cycles_shift and the rest apart.
    method Convert(t: nat) returns (sec: u64, nsec: u64)
      requires Calibrated()
      ensures nsec < 1000000000
      ensures sec as int * 1000000000 + nsec as int == Nsecs(Derived(), t) % 0x1_0000_0000_0000_0000
    {
      ghost var q, r, x := Parts(Derived(), t);
      AndMask(t, maxCyclesShift);
      RestFits(cyclesPerMsec as nat, r);
      var multiples := t / Pow2(maxCyclesShift);
      var masked := And(t, maxCyclesMask as nat);
      var rest := MulDiv(masked as u64, clockMult, Pow2(clockShift) as u64);
      MulNat(q, nsecsForMaxCycles as nat);
      sec, nsec := ToTimespec(multiples * nsecsForMaxCycles as nat, rest as nat);
    }

    function Since(now: u64): nat
      reads this
    {
      (now as int - cyclesStart as int) % 0x1_0000_0000_0000_0000
    }

    ghost function Derived(): Constants
      reads this
    {
      Constants(clockMult as nat, clockShift, maxCyclesShift, nsecsForMaxCycles as nat)
    }
  }

  // The clock, which wraps at 2^64, has advanced by t from start to now.
  predicate Elapsed(start: u64, now: u64, t: nat) {
    t < 0x1_0000_0000_0000_0000 && (start as int + t) % 0x1_0000_0000_0000_0000 == now as int
  }

  lemma ElapsedIs(start: u64, now: u64, t: nat)
    ensures Elapsed(start, now, t) <==> t == (now as int - start as int) % 0x1_0000_0000_0000_0000
  {}

  // What a reading n says about t cycles at rate c.
  ghost predicate ShowsTime(c: nat, t: nat, n: int)
    requires InRange(c)
  {
    var k, exact := Derive(c), t as real * 1000000.0 / c as real;
    && n == Nsecs(k, t) % 0x1_0000_0000_0000_0000
    && (t * 1000000 < 0x1_0000_0000_0000_0000 * c ==>
          && n as real <= exact
          && exact - n as real <= t as real / Pow2(k.shift) as real + (t / Pow2(k.maxShift) + 1) as real)
  }

  lemma ConversionShows(c: nat, t: nat)
    requires InRange(c)
    ensures ShowsTime(c, t, Nsecs(Derive(c), t) % 0x1_0000_0000_0000_0000)
  {
    if t * 1000000 < 0x1_0000_0000_0000_0000 * c {
      NoWrap(c, t);
      Fits(Nsecs(Derive(c), t));
      Accuracy(c, t);
    }
  }

  lemma Fits(n: nat)
    requires n < 0x1_0000_0000_0000_0000
    ensures n % 0x1_0000_0000_0000_0000 == n
  {}

  lemma ReadingShows(start: u64, now: u64, c: nat, t: nat)
    requires InRange(c) && t == (now as int - start as int) % 0x1_0000_0000_0000_0000
    ensures forall u :: Elapsed(start, now, u) ==> ShowsTime(c, u, Nsecs(Derive(c), t) % 0x1_0000_0000_0000_0000)
  {
    forall u | Elapsed(start, now, u)
      ensures ShowsTime(c, u, Nsecs(Derive(c), t) % 0x1_0000_0000_0000_0000)
    {
      ElapsedIs(start, now, u);
      ConversionShows(c, u);
    }
  }

  lemma RestFits(c: nat, r: nat)
    requires InRange(c) && r < Pow2(MaxCyclesShift(c))
    ensures 0 <= r * ClockMult(c) <= 0xFFFF_FFFF_FFFF_FFFF && r <= 0xFFFF_FFFF_FFFF_FFFF
    ensures Pow2(ClockShift(c)) <= 0xFFFF_FFFF_FFFF_FFFF
  {
    NoOverflow(c, r);
    CalibrationFits(c);
  }

  // The sum of the two parts, each step in 64 bits, as seconds and nanoseconds.
  method ToTimespec(product: nat, rest: nat) returns (sec: u64, nsec: u64)
    ensures nsec < 1000000000
    ensures sec as int * 1000000000 + nsec as int == (product + rest) % 0x1_0000_0000_0000_0000
  {
    var nsecs: u64 := ((product % 0x1_0000_0000_0000_0000 + rest) % 0x1_0000_0000_0000_0000) as u64;
    WrapSum(product, rest);
    sec := nsecs / 1000000000;
    nsec := nsecs % 1000000000;
  }

  lemma WrapSum(a: nat, b: nat)
    ensures (a % 0x1_0000_0000_0000_0000 + b) % 0x1_0000_0000_0000_0000 == (a + b) % 0x1_0000_0000_0000_0000
  {}

  // The product of the code's multiply-and-shift expressions must fit 64 bits.
  method MulDiv(x: u64, y: u64, d: u64) returns (r: u64)
    requires d > 0 && 0 <= x as int * y as int <= 0xFFFF_FFFF_FFFF_FFFF
    ensures r as int == x as int * y as int / d as int
  {
    r := x * y / d;
  }

  // Halve until at most 1 is left, and count.
  method ShiftsToOne(n: u64) returns (sft: nat)
    ensures sft == Log2(n as nat)
  {
    var tmp := n;
    sft := 0;
    while tmp > 1
      invariant Log2(tmp as nat) + sft == Log2(n as nat)
    {
      tmp := tmp / 2;
      sft := sft + 1;
    }
  }

  // Set the lowest k bits, one after the other.
  method LowBits(k: nat) returns (mask: u64)
    requires k < 64
    ensures mask as int == Pow2(k) - 1
  {
    mask := 0;
    Pow2Monotone(k, 63);
    Pow2Words();
    for bit := 0 to k
      invariant mask as int == Pow2(bit) - 1
    {
      OrMask(bit);
      Pow2Monotone(bit + 1, k);
      mask := Or(mask as nat, Pow2(bit)) as u64;
    }
  }

  // Every intermediate value of the calibration fits 64 bits.
  lemma CalibrationFits(c: nat)
    requires InRange(c)
    ensures 0 < MaxTicks(c) <= 0xFFFF_FFFF_FFFF_FFFF
    ensures 0 <= MaxMult(c) * c <= 0xFFFF_FFFF_FFFF_FFFF
    ensures Pow2(ClockShift(c)) * 1000000 <= 0xFFFF_FFFF_FFFF_FFFF
    ensures Pow2(MaxCyclesShift(c)) <= 0xFFFF_FFFF_FFFF_FFFF && MaxCyclesShift(c) < 64
    ensures 0 <= Pow2(MaxCyclesShift(c)) * ClockMult(c) <= 0xFFFF_FFFF_FFFF_FFFF
    ensures ClockMult(c) <= 0xFFFF_FFFF_FFFF_FFFF
  {
    ShiftBaseBounds(c);
    PowersBounds(c);
    MultBounds(c);
    NoOverflow(c, Pow2(MaxCyclesShift(c)));
    BelowTwo64(MaxCyclesShift(c));
  }

  lemma BelowTwo64(s: nat)
    requires Pow2(s) <= 0xFFFF_FFFF_FFFF_FFFF
    ensures s < 64
  {
    Pow2Words();
    if s >= 64 {
      Pow2Monotone(64, s);
    }
  }
}

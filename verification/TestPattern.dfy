/**
  The deterministic test pattern: a linear congruential generator modulo 2^32 that emits bits 16 to 23.
  It is written twice in the repository, in C for the Amiga side and in Python for the helper.
 */
module TestPattern {
  import opened Machine

  const MULTIPLIER: int := 1103515245
  const INCREMENT: int := 12345
  const PERIOD: nat := 0x100_0000
  const HALF_PERIOD: nat := 0x80_0000

  function Step(s: ULong): ULong {
    ToULong(s * MULTIPLIER + INCREMENT)
  }

  /** The generator's state after n steps. */
  function State(seed: ULong, n: nat): ULong {
    if n == 0 then seed else Step(State(seed, n - 1))
  }

  /** Bits 16 to 23 of a state. */
  function Emit(s: ULong): Byte {
    s / 0x1_0000 % 0x100
  }

  function PatternByte(seed: ULong, i: nat): Byte {
    Emit(State(seed, i + 1))
  }

  function Pattern(seed: ULong, len: nat): seq<Byte> {
    seq(len, i requires 0 <= i => PatternByte(seed, i))
  }

  // ---- The code ----

  /** How often `for (i = 0; i < len; i++)` runs its body. */
  function Rounds(len: int): nat {
    if len < 0 then 0 else len
  }

  /** fill_test_pattern(buf + at, len, seed). */
  method FillTestPattern(buf: array<Byte>, at: nat, len: int, seed: ULong)
    requires at + Rounds(len) <= buf.Length
    modifies buf
    ensures buf[..] == old(buf[..at]) + Pattern(seed, Rounds(len)) + old(buf[at + Rounds(len)..])
  {
    var s := seed;
    var i := 0;
    while i < len
      invariant 0 <= i <= Rounds(len)
      invariant s == State(seed, i)
      invariant buf[..at] == old(buf[..at])
      invariant buf[at..at + i] == Pattern(seed, i)
      invariant buf[at + i..] == old(buf[at + i..])
    {
      s := Step(s);
      buf[at + i] := Emit(s);
      assert buf[at..at + i + 1] == buf[at..at + i] + [buf[at + i]];
      i := i + 1;
    }
    assert buf[..] == buf[..at] + buf[at..at + i] + buf[at + i..];
  }

  /** Where a byte string first leaves the pattern, counted from 1; 0 if it never does. */
  function Mismatch(bs: seq<Byte>, seed: ULong, from: nat := 0): (r: nat)
    requires from <= |bs|
    ensures r == 0 <==> forall k :: from <= k < |bs| ==> bs[k] == PatternByte(seed, k)
    ensures r > 0 ==> from < r <= |bs| && bs[r - 1] != PatternByte(seed, r - 1)
    ensures r > 0 ==> forall k :: from <= k < r - 1 ==> bs[k] == PatternByte(seed, k)
    decreases |bs| - from
  {
    if from == |bs| then 0
    else if bs[from] != PatternByte(seed, from) then from + 1
    else Mismatch(bs, seed, from + 1)
  }

  /** verify_test_pattern(buf + at, len, seed): 0, or the 1-based offset of the first mismatch. */
  method VerifyTestPattern(buf: array<Byte>, at: nat, len: int, seed: ULong) returns (r: nat)
    requires at + Rounds(len) <= buf.Length
    ensures r == Mismatch(buf[at..at + Rounds(len)], seed)
    ensures r == 0 <==> buf[at..at + Rounds(len)] == Pattern(seed, Rounds(len))
  {
    var s := seed;
    var i := 0;
    ghost var bs := buf[at..at + Rounds(len)];
    while i < len
      invariant 0 <= i <= Rounds(len)
      invariant s == State(seed, i)
      invariant Mismatch(bs, seed) == Mismatch(bs, seed, i)
    {
      s := Step(s);
      var expected := Emit(s);
      assert buf[at + i] == bs[i];
      if buf[at + i] != expected {
        assert bs[i] != Pattern(seed, |bs|)[i];
        return i + 1;
      }
      i := i + 1;
    }
    return 0;
  }

  /** The Python generator: the state is masked after each step, so any integer may be the seed. */
  method FillTestPatternPython(length: nat, seed: int) returns (result: seq<Byte>)
    ensures result == Pattern(ToULong(seed), length)
  {
    hide State, Step;
    assert State(ToULong(seed), 0) == ToULong(seed) by { FirstState(ToULong(seed)); }
    var bytes := new Byte[length](_ => 0);
    var s := seed;
    for i := 0 to length
      invariant ToULong(s) == State(ToULong(seed), i)
      invariant forall k :: 0 <= k < i ==> bytes[k] == PatternByte(ToULong(seed), k)
    {
      StepOfResidue(s);
      NextState(ToULong(seed), i);
      s := (s * MULTIPLIER + INCREMENT) % 0x1_0000_0000;
      bytes[i] := s / 0x1_0000 % 0x100;
    }
    result := bytes[..];
  }

  lemma FirstState(seed: ULong)
    ensures State(seed, 0) == seed
  {}

  lemma NextState(seed: ULong, i: nat)
    ensures State(seed, i + 1) == Step(State(seed, i))
  {}

  lemma StepOfResidue(s: int)
    ensures ToULong(s * MULTIPLIER + INCREMENT) == Step(ToULong(s))
  {
    var q := s / 0x1_0000_0000;
    assert s * MULTIPLIER + INCREMENT == ToULong(s) * MULTIPLIER + INCREMENT + (q * MULTIPLIER) * 0x1_0000_0000;
    ModAddMultiple(ToULong(s) * MULTIPLIER + INCREMENT, q * MULTIPLIER, 0x1_0000_0000);
  }

  /** The first states and bytes of the pattern that the tests exchange. */
  lemma FirstBytes()
    ensures State(0, 1) == 12345 && State(0, 2) == 3554416254 && State(0, 3) == 2802067423
    ensures Pattern(0, 3) == [0, 0xDC, 0x04]
  {
    FirstState(0);
    NextState(0, 0);
    NextState(0, 1);
    NextState(0, 2);
    assert Step(0) == 12345 && Step(12345) == 3554416254 && Step(3554416254) == 2802067423;
    assert Emit(12345) == 0 && Emit(3554416254) == 0xDC && Emit(2802067423) == 0x04;
    hide State;
    assert Pattern(0, 3) == [PatternByte(0, 0), PatternByte(0, 1), PatternByte(0, 2)];
  }

  // ---- Many steps at once ----

  /** n steps, without the reduction modulo 2^32, are the map x => Factor(n) * x + Offset(n). */
  function Factor(n: nat): int {
    if n == 0 then 1 else Factor(n - 1) * MULTIPLIER
  }

  function Offset(n: nat): int {
    if n == 0 then 0 else Offset(n - 1) * MULTIPLIER + INCREMENT
  }

  lemma AffineStep(f: int, g: int, x: int, m: int, c: int)
    ensures (f * x + g) * m + c == (f * m) * x + (g * m + c)
  {
    MulDistrib(m, f * x, g);
    MulAssoc(f, m, x);
    MulAssoc(f, x, m);
  }

  /** n steps over the integers, never reduced. */
  function Unreduced(x: int, n: nat): int {
    if n == 0 then x else Unreduced(x, n - 1) * MULTIPLIER + INCREMENT
  }

  lemma {:induction false} StateIsResidue(seed: ULong, n: nat)
    ensures State(seed, n) == ToULong(Unreduced(seed, n))
  {
    if n == 0 {
    } else {
      StateIsResidue(seed, n - 1);
      StepOfResidue(Unreduced(seed, n - 1));
    }
  }

  lemma {:induction false} UnreducedIsAffine(x: int, n: nat)
    ensures Unreduced(x, n) == Factor(n) * x + Offset(n)
  {
    if n == 0 {
    } else {
      UnreducedIsAffine(x, n - 1);
      AffineStep(Factor(n - 1), Offset(n - 1), x, MULTIPLIER, INCREMENT);
    }
  }

  lemma StateIsAffine(seed: ULong, n: nat)
    ensures State(seed, n) == ToULong(Factor(n) * seed + Offset(n))
  {
    StateIsResidue(seed, n);
    UnreducedIsAffine(seed, n);
  }

  lemma AffineCompose(f: int, g: int, f': int, g': int, m: int, c: int)
    ensures (f * f') * m == f * (f' * m)
    ensures (g * f' + g') * m + c == g * (f' * m) + (g' * m + c)
  {}

  lemma {:induction false} AffineAdd(m: nat, n: nat)
    ensures Factor(m + n) == Factor(m) * Factor(n)
    ensures Offset(m + n) == Offset(m) * Factor(n) + Offset(n)
  {
    if n == 0 {
    } else {
      AffineAdd(m, n - 1);
      AffineCompose(Factor(m), Offset(m), Factor(n - 1), Offset(n - 1), MULTIPLIER, INCREMENT);
    }
  }

  lemma {:induction false} StateAdd(seed: ULong, m: nat, n: nat)
    ensures State(seed, m + n) == State(State(seed, m), n)
  {
    if n == 0 {
    } else {
      StateAdd(seed, m, n - 1);
    }
  }

  /**
    If F is 1 plus an odd multiple of 4h and G an odd multiple of h, then F * F and G * F + G are the same for 2h.
   */
  lemma DoublingKeepsOdd(h: nat, f: int, g: int, F: int, G: int) returns (f': int, g': int)
    requires f % 2 == 1 && g % 2 == 1
    requires F == 1 + 4 * (h * f) && G == h * g
    ensures f' % 2 == 1 && g' % 2 == 1
    ensures F * F == 1 + 4 * ((2 * h) * f')
    ensures G * F + G == (2 * h) * g'
  {
    var t := h * f;
    f' := OddMultiple(h, t, f);
    g' := OddMultiple(h, t, g);
    assert F * F == 1 + 8 * t + 16 * (t * t);
    assert G * F == G + 4 * (t * G);
    MulAssoc(2, h, f');
    MulAssoc(2, h, g');
  }

  lemma OddMultiple(h: nat, t: int, f: int) returns (f': int)
    requires f % 2 == 1
    ensures f' % 2 == 1 && h * f' == h * f + 2 * (t * (h * f))
  {
    f' := f + 2 * (t * f);
    MulDistrib(h, f, 2 * (t * f));
    assert h * (2 * (t * f)) == 2 * (t * (h * f));
  }

  lemma OneStep()
    ensures Factor(1) == MULTIPLIER && Offset(1) == INCREMENT && Pow2(0) == 1
  {
    assert Factor(1) == Factor(0) * MULTIPLIER;
    assert Offset(1) == Offset(0) * MULTIPLIER + INCREMENT;
  }

  /** 2^k steps multiply by 1 plus an odd multiple of 2^(k+2) and add an odd multiple of 2^k. */
  lemma {:induction false} PowerOfTwoSteps(k: nat) returns (f: int, g: int)
    ensures f % 2 == 1 && g % 2 == 1
    ensures Factor(Pow2(k)) == 1 + 4 * (Pow2(k) * f)
    ensures Offset(Pow2(k)) == Pow2(k) * g
  {
    if k == 0 {
      f, g := (MULTIPLIER - 1) / 4, INCREMENT;
      OneStep();
    } else {
      var n := Pow2(k - 1);
      var f0, g0 := PowerOfTwoSteps(k - 1);
      AffineAdd(n, n);
      f, g := DoublingKeepsOdd(n, f0, g0, Factor(n), Offset(n));
    }
  }

  /** After 2^k steps the state has moved by exactly 2^k, modulo 2^(k+1). */
  lemma PowerOfTwoShift(s: ULong, k: nat)
    requires k < 32
    ensures State(s, Pow2(k)) % Pow2(k + 1) == (s + Pow2(k)) % Pow2(k + 1)
  {
    var n, rest := Pow2(k), Pow2(31 - k);
    var f, g := PowerOfTwoSteps(k);
    var w := Wraps(s, n);
    assert (2 * n) * rest == 0x1_0000_0000 by {
      Pow2Add(k + 1, 31 - k);
      Pow2At32();
    }
    var q := ShiftQuotient(n, f, g, s, w, rest, Factor(n), Offset(n));
    ModAddMultiple(s + n, q, 2 * n);
  }

  lemma Wraps(seed: ULong, n: nat) returns (w: int)
    ensures State(seed, n) == Factor(n) * seed + Offset(n) - w * 0x1_0000_0000
  {
    StateIsAffine(seed, n);
    w := (Factor(n) * seed + Offset(n)) / 0x1_0000_0000;
  }

  lemma ShiftQuotient(n: nat, f: int, g: int, s: int, w: int, rest: int, F: int, G: int) returns (q: int)
    requires g % 2 == 1 && (2 * n) * rest == 0x1_0000_0000
    requires F == 1 + 4 * (n * f) && G == n * g
    ensures F * s + G - w * 0x1_0000_0000 == s + n + q * (2 * n)
  {
    var h := g / 2;
    q := 2 * (f * s) + h - w * rest;
    assert n * g == 2 * (n * h) + n by { MulDistrib(n, 2 * h, 1); }
    assert (n * f) * s == n * (f * s);
    assert w * ((2 * n) * rest) == (w * rest) * (2 * n);
  }

  lemma Pow2At32()
    ensures Pow2(32) == 0x1_0000_0000
  {
    assert Pow2(8) == 256;
    Pow2Add(8, 8);
    Pow2Add(16, 16);
  }

  // ---- No state is lost ----

  const MULTIPLIER_INVERSE: int := 4005161829

  /** The inverse of Step. */
  function Unstep(s: ULong): ULong {
    ToULong((s - INCREMENT) * MULTIPLIER_INVERSE)
  }

  lemma Residue(x: int) returns (w: int)
    ensures ToULong(x) == x - w * 0x1_0000_0000
  {
    w := x / 0x1_0000_0000;
  }

  lemma ResidueOf(x: int, s: ULong, w: int)
    requires x == s + w * 0x1_0000_0000
    ensures ToULong(x) == s
  {
    ModAddMultiple(s, w, 0x1_0000_0000);
  }

  /** Multiplying by m and then by v, where m * v = 1 + k * T, and losing w * T in between. */
  lemma Undo(x: int, m: int, v: int, k: int, w: int, T: int)
    requires m * v == 1 + k * T
    ensures (x * m - w * T) * v == x + (x * k - w * v) * T
  {
    MulAssoc(x, m, v);
    MulDistrib(x, 1, k * T);
    MulAssoc(x, k, T);
    assert (w * T) * v == (w * v) * T;
  }

  lemma UnstepAfterStep(s: ULong)
    ensures Unstep(Step(s)) == s
  {
    var w := Residue(s * MULTIPLIER + INCREMENT);
    var k := MULTIPLIER * MULTIPLIER_INVERSE / 0x1_0000_0000;
    Undo(s, MULTIPLIER, MULTIPLIER_INVERSE, k, w, 0x1_0000_0000);
    ResidueOf((Step(s) - INCREMENT) * MULTIPLIER_INVERSE, s, s * k - w * MULTIPLIER_INVERSE);
  }

  lemma StepAfterUnstep(s: ULong)
    ensures Step(Unstep(s)) == s
  {
    var x := s - INCREMENT;
    var w := Residue(x * MULTIPLIER_INVERSE);
    var k := MULTIPLIER * MULTIPLIER_INVERSE / 0x1_0000_0000;
    Undo(x, MULTIPLIER_INVERSE, MULTIPLIER, k, w, 0x1_0000_0000);
    ResidueOf(Unstep(s) * MULTIPLIER + INCREMENT, s, x * k - w * MULTIPLIER);
  }

  /** The step is a bijection on the 32-bit states, so no two runs ever merge. */
  lemma StepIsBijective(s: ULong, t: ULong)
    ensures Step(s) == Step(t) <==> s == t
    ensures exists p: ULong :: Step(p) == t
  {
    UnstepAfterStep(s);
    UnstepAfterStep(t);
    StepAfterUnstep(t);
  }

  // ---- The exact period of the stream ----

  lemma EmitSeesLowBits(s: ULong)
    ensures Emit(s) == s % PERIOD / 0x1_0000
  {}

  lemma StepKeepsLowBits(s: ULong, t: ULong)
    requires s % PERIOD == t % PERIOD
    ensures Step(s) % PERIOD == Step(t) % PERIOD
  {
    var k := s / PERIOD - t / PERIOD;
    var x, y := s * MULTIPLIER + INCREMENT, t * MULTIPLIER + INCREMENT;
    assert x == y + (k * MULTIPLIER) * PERIOD;
    var q := k * MULTIPLIER + (y / 0x1_0000_0000 - x / 0x1_0000_0000) * 0x100;
    assert ToULong(x) == ToULong(y) + q * PERIOD;
    ModAddMultiple(ToULong(y), q, PERIOD);
  }

  /** The emitted byte depends on the seed modulo 2^24 only. */
  lemma {:induction false} LowBitsDecide(s: ULong, t: ULong, n: nat)
    requires s % PERIOD == t % PERIOD
    ensures State(s, n) % PERIOD == State(t, n) % PERIOD
    ensures Emit(State(s, n)) == Emit(State(t, n))
  {
    if n == 0 {
    } else {
      LowBitsDecide(s, t, n - 1);
      StepKeepsLowBits(State(s, n - 1), State(t, n - 1));
    }
    EmitSeesLowBits(State(s, n));
    EmitSeesLowBits(State(t, n));
  }

  lemma Pow2At24()
    ensures Pow2(22) == 0x40_0000 && Pow2(23) == HALF_PERIOD && Pow2(24) == PERIOD
  {
    assert Pow2(8) == 256;
    Pow2Add(8, 8);
    Pow2Add(16, 8);
  }

  lemma HalfTurn(s: ULong)
    ensures State(s, HALF_PERIOD) % PERIOD == (s + HALF_PERIOD) % PERIOD
  {
    Pow2At24();
    PowerOfTwoShift(s, 23);
  }

  lemma FlipTopBit(v: int)
    requires 0 <= v < PERIOD
    ensures (v + HALF_PERIOD) % PERIOD / 0x1_0000 == (v / 0x1_0000 + 0x80) % 0x100
  {
    assert (v + HALF_PERIOD) % PERIOD == if v < HALF_PERIOD then v + HALF_PERIOD else v - HALF_PERIOD;
  }

  lemma AddToResidue(s: int)
    ensures (s + HALF_PERIOD) % PERIOD == (s % PERIOD + HALF_PERIOD) % PERIOD
  {
    ModAddMultiple(s % PERIOD + HALF_PERIOD, s / PERIOD, PERIOD);
  }

  /** Half a period further on, every byte reappears with only its top bit flipped. */
  lemma HalfPeriodFlipsTopBit(seed: ULong, n: nat)
    ensures PatternByte(seed, n + HALF_PERIOD) == (PatternByte(seed, n) + 0x80) % 0x100
  {
    var s := State(seed, n + 1);
    StateAdd(seed, n + 1, HALF_PERIOD);
    HalfTurn(s);
    AddToResidue(s);
    FlipTopBit(s % PERIOD);
    EmitSeesLowBits(s);
    EmitSeesLowBits(State(s, HALF_PERIOD));
  }

  ghost predicate IsPeriodFrom(b: nat -> int, start: nat, p: nat) {
    forall n: nat :: n >= start ==> b(n + p) == b(n)
  }

  ghost predicate FlipsEveryHalfPeriod(b: nat -> int) {
    forall n: nat :: 0 <= b(n) < 0x100 && b(n + HALF_PERIOD) == (b(n) + 0x80) % 0x100
  }

  lemma {:induction false} MultipleOfPeriod(b: nat -> int, start: nat, p: nat, m: nat)
    requires IsPeriodFrom(b, start, p)
    ensures IsPeriodFrom(b, start, p * m)
  {
    if m == 0 {
    } else {
      MultipleOfPeriod(b, start, p, m - 1);
      assert p * m == p * (m - 1) + p;
      forall n: nat | n >= start
        ensures b(n + p * m) == b(n)
      {
        assert b((n + p * (m - 1)) + p) == b(n + p * (m - 1));
      }
    }
  }

  lemma {:induction false} HalfPeriods(b: nat -> int, n: nat, q: nat)
    requires FlipsEveryHalfPeriod(b)
    ensures b(n + HALF_PERIOD * q) == (b(n) + 0x80 * (q % 2)) % 0x100
  {
    if q == 0 {
    } else {
      HalfPeriods(b, n, q - 1);
      var m := n + HALF_PERIOD * (q - 1);
      assert n + HALF_PERIOD * q == m + HALF_PERIOD;
      assert q % 2 == if (q - 1) % 2 == 0 then 1 else 0;
    }
  }

  lemma MultiplesOfPeriodArePeriods(b: nat -> int, start: nat, p: nat)
    requires FlipsEveryHalfPeriod(b) && p % PERIOD == 0
    ensures IsPeriodFrom(b, start, p)
  {
    var q := p / PERIOD;
    assert p == HALF_PERIOD * (2 * q) && (2 * q) % 2 == 0;
    forall n: nat | n >= start
      ensures b(n + p) == b(n)
    {
      HalfPeriods(b, n, 2 * q);
    }
  }

  lemma OtherNumbersAreNotPeriods(b: nat -> int, start: nat, p: nat)
    requires FlipsEveryHalfPeriod(b) && p % PERIOD != 0
    ensures !IsPeriodFrom(b, start, p)
  {
    if IsPeriodFrom(b, start, p) {
      var j, q := OddPart(p);
      LowPartBelow24(p, j, q);
      MultipleOfPeriod(b, start, p, Pow2(23 - j));
      OddHalfPeriods(j, 2 * q + 1);
      HalfPeriods(b, start, 2 * q + 1);
    }
  }

  lemma LowPartBelow24(p: nat, j: nat, q: nat)
    requires p == Pow2(j) * (2 * q + 1) && p % PERIOD != 0
    ensures j < 24
  {
    hide Pow2;
    if j >= 24 {
      Pow2At24();
      Pow2Add(24, j - 24);
      var z := Pow2(j - 24);
      MulAssoc(0x100_0000, z, 2 * q + 1);
      ModAddMultiple(0, z * (2 * q + 1), 0x100_0000);
    }
  }

  lemma OddHalfPeriods(j: nat, odd: int)
    requires j < 24
    ensures (Pow2(j) * odd) * Pow2(23 - j) == HALF_PERIOD * odd
  {
    hide Pow2;
    Pow2At24();
    Pow2Add(j, 23 - j);
    Rearrange(Pow2(j), odd, Pow2(23 - j));
  }

  lemma Rearrange(a: int, b: int, c: int)
    ensures (a * b) * c == (a * c) * b
  {}

  function Stream(seed: ULong): nat -> int {
    (n: nat) => PatternByte(seed, n)
  }

  /** The periods of the stream, for every seed and from any point on, are the multiples of 2^24. */
  lemma PeriodsAreMultiplesOf2To24(seed: ULong, start: nat, p: nat)
    ensures IsPeriodFrom(Stream(seed), start, p) <==> p % PERIOD == 0
  {
    var b := Stream(seed);
    forall n: nat
      ensures 0 <= b(n) < 0x100 && b(n + HALF_PERIOD) == (b(n) + 0x80) % 0x100
    {
      HalfPeriodFlipsTopBit(seed, n);
    }
    if p % PERIOD == 0 {
      MultiplesOfPeriodArePeriods(b, start, p);
    } else {
      OtherNumbersAreNotPeriods(b, start, p);
    }
  }

  // ---- Which seeds give the same stream ----

  ghost predicate SameStream(s: ULong, t: ULong) {
    forall n: nat :: PatternByte(s, n) == PatternByte(t, n)
  }

  /** Two seeds give the same stream exactly when they agree modulo 2^24. */
  lemma SameStreamIffLowBits(s: ULong, t: ULong)
    ensures SameStream(s, t) <==> s % PERIOD == t % PERIOD
  {
    if s % PERIOD == t % PERIOD {
      forall n: nat ensures PatternByte(s, n) == PatternByte(t, n) {
        LowBitsDecide(s, t, n + 1);
      }
    } else if s < t {
      DifferentLowBitsShow(s, t);
    } else {
      DifferentLowBitsShow(t, s);
    }
  }

  lemma DifferentLowBitsShow(s: ULong, t: ULong)
    requires s < t && s % PERIOD != t % PERIOD
    ensures exists n: nat :: PatternByte(s, n) != PatternByte(t, n)
  {
    var j, q := OddPart(t - s);
    LowPartBelow24(t - s, j, q);
    if j >= 22 {
      var z := Pow2(j - 22) * (2 * q + 1);
      Pow2At24();
      Pow2Add(22, j - 22);
      MulAssoc(0x40_0000, Pow2(j - 22), 2 * q + 1);
      FirstByteShows(s, t, z);
    } else {
      OddDifferenceShows(s, t, j, q);
    }
  }

  lemma FirstByteShows(s: ULong, t: ULong, z: int)
    requires t - s == 0x40_0000 * z && t % PERIOD != s % PERIOD
    ensures PatternByte(s, 0) != PatternByte(t, 0)
  {
    assert State(s, 1) == Step(State(s, 0)) && State(t, 1) == Step(State(t, 0));
    var w := DifferenceOfResidues(s * MULTIPLIER + INCREMENT, t * MULTIPLIER + INCREMENT);
    var x: ULong, y: ULong := Step(s), Step(t);
    assert y - x == (t - s) * MULTIPLIER + w * PERIOD;
    if Emit(x) == Emit(y) {
      var c := SameByteIsClose(x, y);
      SmallMultiple(z, t - s, w - c);
      ModAddMultiple(s, (t - s) / PERIOD, PERIOD);
    }
  }

  /** If 2^22 * z times the multiplier is within 2^16 of a multiple of 2^24, then 4 divides z. */
  lemma SmallMultiple(z: int, d: int, w: int)
    requires d == 0x40_0000 * z
    requires -0x1_0000 < d * MULTIPLIER + w * PERIOD < 0x1_0000
    ensures d % PERIOD == 0
  {
    assert d * MULTIPLIER + w * PERIOD == d * 1103515245 + w * 0x100_0000;
    FourDivides(z, w);
  }

  lemma FourDivides(z: int, w: int)
    requires -0x1_0000 < 0x40_0000 * z * 1103515245 + w * 0x100_0000 < 0x1_0000
    ensures 0x40_0000 * z % 0x100_0000 == 0
  {
    var u := z + 4 * (275878811 * z + w);
    assert 0x40_0000 * u == 0x40_0000 * z * 1103515245 + w * 0x100_0000;
    assert u == 0;
  }

  lemma DifferenceOfResidues(x: int, y: int) returns (w: int)
    ensures ToULong(y) - ToULong(x) == y - x + w * PERIOD
  {
    w := 0x100 * (x / 0x1_0000_0000 - y / 0x1_0000_0000);
  }

  /** The difference of two states is the difference of the seeds times Factor(n), modulo 2^24. */
  lemma DifferenceScales(s: ULong, t: ULong, n: nat) returns (w: int)
    ensures State(t, n) - State(s, n) == Factor(n) * (t - s) + w * PERIOD
  {
    StateIsAffine(s, n);
    StateIsAffine(t, n);
    w := DifferenceOfResidues(Factor(n) * s + Offset(n), Factor(n) * t + Offset(n));
    MulDistrib(Factor(n), t - s, s);
  }

  lemma OddTimesOdd(x: int, y: int)
    requires x % 2 == 1 && y % 2 == 1
    ensures (x * y) % 2 == 1
  {
    assert x * y == 2 * ((x / 2) * y) + y;
  }

  /** States that emit the same byte differ by less than 2^16, modulo 2^24. */
  lemma SameByteIsClose(x: ULong, y: ULong) returns (c: int)
    requires Emit(x) == Emit(y)
    ensures -0x1_0000 < y - x - c * PERIOD < 0x1_0000
  {
    EmitSeesLowBits(x);
    EmitSeesLowBits(y);
    c := y / PERIOD - x / PERIOD;
  }

  lemma FarApart(n: nat, p: nat, f: int, odd: int, w: int)
    requires 4 * n * p == HALF_PERIOD
    ensures (4 * (n * f)) * (MULTIPLIER * (p * odd) + w * PERIOD)
         == HALF_PERIOD * (f * (odd * MULTIPLIER)) + (4 * (n * f) * w) * PERIOD
  {
    var m := MULTIPLIER * odd;
    assert MULTIPLIER * (p * odd) == p * m;
    assert (4 * (n * f)) * (p * m) == (4 * n * p) * (f * m);
  }

  /** The difference after 1 + n steps, from the difference after one. */
  lemma SecondDifference(n: nat, f: int, q: int, p: nat, w0: int, w1: int, d: int, d': int)
      returns (odd: int, k: int)
    requires 4 * n * p == HALF_PERIOD && f % 2 == 1
    requires d == MULTIPLIER * (p * (2 * q + 1)) + w0 * PERIOD
    requires d' == (1 + 4 * (n * f)) * d + w1 * PERIOD
    ensures odd % 2 == 1 && d' - d == HALF_PERIOD * odd + k * PERIOD
  {
    odd, k := f * ((2 * q + 1) * MULTIPLIER), 4 * (n * f) * w0 + w1;
    FarApart(n, p, f, 2 * q + 1, w0);
    MulDistrib(d, 1, 4 * (n * f));
    OddTimesOdd(2 * q + 1, MULTIPLIER);
    OddTimesOdd(f, (2 * q + 1) * MULTIPLIER);
  }

  /** If the seeds differ by an odd multiple of 2^j, j < 22, then byte 0 or byte 2^(21-j) differs. */
  lemma OddDifferenceShows(s: ULong, t: ULong, j: nat, q: nat)
    requires j < 22 && t - s == Pow2(j) * (2 * q + 1)
    ensures PatternByte(s, 0) != PatternByte(t, 0) || PatternByte(s, Pow2(21 - j)) != PatternByte(t, Pow2(21 - j))
  {
    var n, p := Pow2(21 - j), Pow2(j);
    var s1: ULong, t1: ULong := State(s, 1), State(t, 1);
    var s2: ULong, t2: ULong := State(s1, n), State(t1, n);
    assert s2 == State(s, n + 1) && t2 == State(t, n + 1) by {
      StateAdd(s, 1, n);
      StateAdd(t, 1, n);
    }
    var w0 := DifferenceScales(s, t, 1);
    var w1 := DifferenceScales(s1, t1, n);
    var f, g := PowerOfTwoSteps(21 - j);
    FourTimesIsHalf(j);
    OneStep();
    var odd, k := SecondDifference(n, f, q, p, w0, w1, t1 - s1, t2 - s2);
    CannotBothBeClose(s1, t1, s2, t2, odd, k);
  }

  lemma FourTimes(a: int, b: int)
    requires a * b == 0x20_0000
    ensures 4 * b * a == HALF_PERIOD
  {}

  lemma FourTimesIsHalf(j: nat)
    requires j < 22
    ensures 4 * Pow2(21 - j) * Pow2(j) == HALF_PERIOD
  {
    assert Pow2(j) * Pow2(21 - j) == 0x20_0000 by {
      Pow2Add(j, 21 - j);
      Pow2At24();
      assert 2 * Pow2(21) == Pow2(22);
    }
    FourTimes(Pow2(j), Pow2(21 - j));
  }

  lemma CannotBothBeClose(s1: ULong, t1: ULong, s2: ULong, t2: ULong, odd: int, k: int)
    requires odd % 2 == 1
    requires (t2 - s2) - (t1 - s1) == HALF_PERIOD * odd + k * PERIOD
    ensures Emit(s1) != Emit(t1) || Emit(s2) != Emit(t2)
  {
    if Emit(s1) == Emit(t1) && Emit(s2) == Emit(t2) {
      var c1 := SameByteIsClose(s1, t1);
      var c2 := SameByteIsClose(s2, t2);
      NotNearHalf((t2 - s2 - c2 * PERIOD) - (t1 - s1 - c1 * PERIOD), odd / 2 + k + c1 - c2);
    }
  }

  lemma NotNearHalf(r: int, k: int)
    requires -0x2_0000 < r < 0x2_0000
    ensures r != HALF_PERIOD + k * PERIOD
  {}
}

/** The AD9851 synthesiser driver: a scaled reciprocal of the clock in place of a division, and
    tuning words sent byte by byte. */
module Ad9851 {
  const W32: nat := 0x1_0000_0000
  const W64: nat := 0x1_0000_0000_0000_0000

  function Pow2(n: nat): (p: nat)
    ensures p > 0
  {
    if n == 0 then 1 else 2 * Pow2(n - 1)
  }

  lemma {:induction false} Pow2Add(a: nat, b: nat)
    ensures Pow2(a + b) == Pow2(a) * Pow2(b)
  {
    if a > 0 {
      Pow2Add(a - 1, b);
    }
  }

  lemma Pow2OfTwo()
    ensures Pow2(2) == 4
  {
    assert Pow2(1) == 2;
  }

  lemma Pow2Of32()
    ensures Pow2(32) == W32 && Pow2(64) == W64
  {
    hide Pow2;
    Pow2OfTwo();
    Pow2Add(2, 2);
    Pow2Add(4, 4);
    Pow2Add(8, 8);
    Pow2Add(16, 16);
    Pow2Add(32, 32);
  }

  /** The quotient q of x by c, by the property that defines it. */
  lemma DivIs(x: nat, c: nat)
    requires c > 0
    ensures x / c * c <= x < (x / c + 1) * c
  {
  }

  lemma DivBetween(x: nat, c: nat, low: nat, high: nat)
    requires c > 0 && low * c <= x < high * c
    ensures low <= x / c < high
  {
    DivIs(x, c);
    var q := x / c;
    MulMonoWhere(q + 1, low, c);
    MulMonoWhere(high, q, c);
  }

  lemma MulMono(a: nat, b: nat, c: nat)
    requires a <= b
    ensures a * c <= b * c
  {
  }

  lemma MulMonoWhere(a: nat, b: nat, c: nat)
    ensures a <= b ==> a * c <= b * c
  {
    if a <= b {
      MulMono(a, b, c);
    }
  }

  lemma PowMono(a: nat, b: nat)
    requires a <= b
    ensures Pow2(a) <= Pow2(b)
    decreases b - a
  {
    if a < b {
      PowMono(a, b - 1);
    }
  }

  // ---------- The clock ----------

  /** The core clock corrected by a calibration in parts per 10^9, in 64-bit and then 32-bit arithmetic. */
  function CalibratedClock(core: nat, calibration: int): (clock: nat)
    ensures clock < W32
  {
    core * ((1000000000 - calibration) % W64) % W64 / 1000000000 % W32
  }

  /** For a calibration below one part in one, the clock is what remains of the core clock, rounded
      down to whole hertz, exactly while that fits in 32 bits. */
  lemma ClockCorrectedExactly(core: nat, calibration: int)
    requires core < W32 && -1_000_000_000 < calibration < 1_000_000_000
    ensures var clock, product := CalibratedClock(core, calibration), core * (1_000_000_000 - calibration);
            clock * 1_000_000_000 <= product < (clock + 1) * 1_000_000_000 <==> product < W32 * 1_000_000_000
  {
    var left := 1_000_000_000 - calibration;
    MulMono(core, W32, left);
    SmallMod(left, W64);
    SmallMod(core * left, W64);
    var q := core * left / 1_000_000_000;
    DivIs(core * left, 1_000_000_000);
    assert CalibratedClock(core, calibration) == q % W32;
    if q < W32 {
      SmallMod(q, W32);
    }
  }

  /** Without a calibration it is the core clock itself. */
  lemma ClockUncorrected(core: nat)
    requires core < W32
    ensures CalibratedClock(core, 0) == core
  {
    ClockCorrectedExactly(core, 0);
  }

  /** A higher calibration never gives a higher clock, where the lower one's fits. */
  lemma ClockFalls(core: nat, a: int, b: int)
    requires core < W32 && -1_000_000_000 < a <= b < 1_000_000_000
    requires core * (1_000_000_000 - a) < W32 * 1_000_000_000
    ensures CalibratedClock(core, b) <= CalibratedClock(core, a)
    ensures core >= 1_000_000_000 && a < b ==> CalibratedClock(core, b) < CalibratedClock(core, a)
  {
    hide CalibratedClock;
    ScaleMono(1_000_000_000 - b, 1_000_000_000 - a, core);
    ClockCorrectedExactly(core, a);
    ClockCorrectedExactly(core, b);
    Apart(core, 1_000_000_000 - b, 1_000_000_000 - a);
    QuotientsOrdered(CalibratedClock(core, b), CalibratedClock(core, a), core * (1_000_000_000 - b),
                     core * (1_000_000_000 - a));
  }

  lemma Apart(core: nat, low: nat, high: nat)
    ensures low < high ==> core * high >= core * low + core
  {
    if low < high {
      MulMono(low + 1, high, core);
    }
  }

  lemma QuotientsOrdered(p: nat, q: nat, low: nat, high: nat)
    requires p * 1_000_000_000 <= low <= high < (q + 1) * 1_000_000_000
    ensures p <= q
    ensures low + 1_000_000_000 <= high ==> p < q
  {
  }

  /** The crystal of the board, 180 MHz, and one that is 21.5 parts per million fast. */
  lemma ClockExample()
    ensures CalibratedClock(180_000_000, 0) == 180_000_000 && CalibratedClock(180_000_000, -21_500) == 180_003_870
  {
  }

  /** shift is the whole part of the logarithm of the clock. */
  predicate IsLog(clock: nat, shift: nat) {
    Pow2(shift) <= clock < Pow2(shift + 1)
  }

  /** What `setClock` stores as the reciprocal: 32 bits of 2^(32+shift)/clock. */
  function Reciprocal(clock: nat, shift: nat): nat
    requires clock > 0
  {
    Pow2(32 + shift) / clock % W32
  }

  /** The reciprocal has 32 significant bits, except that for a power of two it loses its only bit. */
  lemma ReciprocalRange(clock: nat, shift: nat)
    requires clock > 0 && IsLog(clock, shift)
    ensures clock != Pow2(shift) ==>
              Reciprocal(clock, shift) == Pow2(32 + shift) / clock && W32 / 2 <= Reciprocal(clock, shift) < W32
    ensures clock == Pow2(shift) ==> Reciprocal(clock, shift) == 0
  {
    Pow2Add(32, shift);
    Pow2Of32();
    var p := Pow2(shift);
    assert Pow2(32 + shift) == W32 * p;
    if clock == p {
      DivBetween(W32 * p, clock, W32, W32 + 1);
    } else {
      assert W32 / 2 * clock <= W32 / 2 * (2 * p) == W32 * p;
      DivBetween(W32 * p, clock, W32 / 2, W32);
    }
  }

  // ---------- Tuning words ----------

  /** The 64-bit sum that `frequencyFTW` shifts. */
  function Scaled(reciprocal: nat, f: nat): nat {
    f * (reciprocal / 10) + reciprocal / 16 / 10
  }

  function Ftw(reciprocal: nat, shift: nat, f: nat): nat {
    Scaled(reciprocal, f) % W64 / Pow2(shift) % W32
  }

  /** The multiplication cannot leave 64 bits. */
  lemma NoOverflow(reciprocal: nat, f: nat)
    requires reciprocal < W32 && f < W32
    ensures Scaled(reciprocal, f) < W64
  {
    MulMono(f, W32, reciprocal / 10);
  }

  lemma ReciprocalError(clock: nat, shift: nat)
    requires clock > 0 && IsLog(clock, shift) && clock != Pow2(shift)
    ensures var r := Reciprocal(clock, shift);
            r * clock <= W32 * Pow2(shift) < (r + 1) * clock
  {
    ReciprocalRange(clock, shift);
    Pow2Add(32, shift);
    Pow2Of32();
    DivIs(Pow2(32 + shift), clock);
  }

  /** The scaled sum against the exact product, from above and from below. */
  lemma ScaledHigh(clock: nat, r: nat, product: nat, f: nat)
    requires r * clock <= product
    ensures 10 * clock * Scaled(r, f) <= f * product + 10 * clock * (r / 160)
  {
    var t, rest := r / 10, r / 160;
    assert Scaled(r, f) == f * t + rest;
    MulMono(10 * t, r, clock);
    MulMono(10 * t * clock, product, f);
    assert 10 * clock * (f * t) == 10 * t * clock * f;
    assert 10 * clock * (f * t + rest) == 10 * clock * (f * t) + 10 * clock * rest;
  }

  lemma ScaledLow(clock: nat, r: nat, product: nat, f: nat)
    requires product <= (r + 1) * clock
    ensures f * product <= 10 * clock * (Scaled(r, f) + f)
  {
    var t := r / 10;
    MulMono(r + 1, 10 * (t + 1), clock);
    MulMono(product, 10 * (t + 1) * clock, f);
    assert 10 * (t + 1) * clock * f == 10 * clock * (f * t + f);
    MulMono(f * t + f, Scaled(r, f) + f, 10 * clock);
  }

  /** Up to half the clock frequency the word fits in 32 bits. */
  lemma FitsWord(clock: nat, r: nat, p: nat, f: nat)
    requires p > 0 && r < W32 && f <= 5 * clock && r * clock <= W32 * p
    ensures Scaled(r, f) / p < W32
  {
    var t := r / 10;
    MulMono(f, 5 * clock, t);
    MulMono(10 * t, r, clock);
    assert 2 * (5 * clock * t) == 10 * t * clock;
    assert 2 * (f * t) <= W32 * p;
    assert 2 * Scaled(r, f) <= W32 * p + W32 / 8;
    MulMono(1, p, W32);
    DivBetween(Scaled(r, f), p, 0, W32);
  }

  lemma ScaleMono(a: nat, b: nat, c: nat)
    requires a <= b
    ensures c * a <= c * b
  {
  }

  lemma ScaleStrict(a: nat, b: nat, c: nat)
    requires a < b && c > 0
    ensures c * a < c * b
  {
  }

  /** The word for f tenths of a hertz against f * 2^32 / (10 * clock), both multiplied out: at
      most (r/160)/p above it, and less than 1 + f/p below it, where p is 2^shift. */
  predicate WordAccurate(clock: nat, r: nat, p: nat, f: nat, word: nat) {
    && 10 * clock * (word * p) <= f * (W32 * p) + 10 * clock * (r / 160)
    && f * (W32 * p) < 10 * clock * ((word + 1) * p + f)
  }

  lemma WordHigh(clock: nat, r: nat, product: nat, f: nat, low: nat)
    requires r * clock <= product && low <= Scaled(r, f)
    ensures 10 * clock * low <= f * product + 10 * clock * (r / 160)
  {
    ScaleMono(low, Scaled(r, f), 10 * clock);
    ScaledHigh(clock, r, product, f);
    hide Scaled;
  }

  lemma WordLow(clock: nat, r: nat, product: nat, f: nat, high: nat)
    requires clock > 0 && product <= (r + 1) * clock && Scaled(r, f) < high
    ensures f * product < 10 * clock * (high + f)
  {
    ScaleStrict(Scaled(r, f) + f, high + f, 10 * clock);
    ScaledLow(clock, r, product, f);
    hide Scaled;
  }

  lemma WordIsAccurate(clock: nat, r: nat, p: nat, f: nat)
    requires p > 0 && clock > 0 && r * clock <= W32 * p < (r + 1) * clock
    ensures WordAccurate(clock, r, p, f, Scaled(r, f) / p)
  {
    hide Scaled;
    var word := Scaled(r, f) / p;
    DivIs(Scaled(r, f), p);
    WordHigh(clock, r, W32 * p, f, word * p);
    WordLow(clock, r, W32 * p, f, (word + 1) * p);
  }

  lemma SmallMod(x: nat, m: nat)
    requires x < m
    ensures x % m == x
  {
  }

  lemma FtwIsQuotient(r: nat, shift: nat, f: nat)
    requires Scaled(r, f) < W64 && Scaled(r, f) / Pow2(shift) < W32
    ensures Ftw(r, shift, f) == Scaled(r, f) / Pow2(shift)
  {
    hide Scaled, Pow2;
    SmallMod(Scaled(r, f), W64);
    SmallMod(Scaled(r, f) / Pow2(shift), W32);
  }

  /** With a clock that is no power of two, the tuning word is the exact one to within one unit,
      the truncated tenth of the reciprocal and the rounding term; nothing overflows on the way. */
  lemma FtwAccurate(clock: nat, shift: nat, f: nat)
    requires clock > 0 && IsLog(clock, shift) && clock != Pow2(shift) && f <= 5 * clock && f < W32
    ensures var r := Reciprocal(clock, shift);
            && Scaled(r, f) < W64 && Scaled(r, f) / Pow2(shift) < W32
            && WordAccurate(clock, r, Pow2(shift), f, Ftw(r, shift, f))
  {
    var r, p := Reciprocal(clock, shift), Pow2(shift);
    ReciprocalRange(clock, shift);
    ReciprocalError(clock, shift);
    hide Scaled, WordAccurate, Reciprocal, IsLog, Pow2, Ftw;
    NoOverflow(r, f);
    WordIsAccurate(clock, r, p, f);
    FitsWord(clock, r, p, f);
    FtwIsQuotient(r, shift, f);
  }

  /** The quotient that the 32-bit word is cut from. */
  function Quotient(r: nat, p: nat, f: nat): nat
    requires p > 0
  {
    Scaled(r, f) / p
  }

  lemma QuotientGrows(r: nat, p: nat, f: nat, g: nat)
    requires p > 0 && f <= g
    ensures Quotient(r, p, f) <= Quotient(r, p, g)
  {
    MulMono(f, g, r / 10);
    QuotientMono(Scaled(r, f), Scaled(r, g), p);
  }

  /** From one tenth of a hertz to the next the quotient grows by less than 2^32. */
  lemma QuotientStep(r: nat, p: nat, g: nat)
    requires p > 0 && g > 0 && r < W32
    ensures Quotient(r, p, g) < Quotient(r, p, g - 1) + W32
  {
    var a, t := Scaled(r, g - 1), r / 10;
    assert Scaled(r, g) == a + t;
    DivIs(a, p);
    MulMono(1, p, t);
    assert (a / p + 1 + t) * p == (a / p + 1) * p + t * p;
    DivBetween(a + t, p, 0, a / p + 1 + t);
  }

  /** The first frequency whose quotient leaves 32 bits. */
  lemma FirstTooHigh(r: nat, p: nat, top: nat) returns (g: nat)
    requires p > 0 && r < W32 && Quotient(r, p, top) >= W32
    ensures 0 < g <= top && Quotient(r, p, g - 1) < W32 <= Quotient(r, p, g)
  {
    hide Quotient;
    g := top;
    QuotientAtZero(r, p);
    while Quotient(r, p, g - 1) >= W32
      invariant 0 < g <= top && Quotient(r, p, g) >= W32
      decreases g
    {
      g := g - 1;
    }
  }

  lemma QuotientAtZero(r: nat, p: nat)
    requires p > 0 && r < W32
    ensures Quotient(r, p, 0) < W32
  {
    MulMono(1, p, W32);
    DivBetween(r / 16 / 10, p, 0, W32);
  }

  lemma FtwOfQuotient(r: nat, shift: nat, f: nat)
    requires r < W32 && f < W32
    ensures Ftw(r, shift, f) == Quotient(r, Pow2(shift), f) % W32
  {
    NoOverflow(r, f);
    SmallMod(Scaled(r, f), W64);
  }

  predicate Ordered(r: nat, shift: nat, f: nat, g: nat) {
    Ftw(r, shift, f) <= Ftw(r, shift, g)
  }

  lemma OrderedBelow(r: nat, shift: nat, f: nat, g: nat)
    requires r < W32 && f <= g < W32 && Quotient(r, Pow2(shift), g) < W32
    ensures Ordered(r, shift, f, g)
  {
    hide Ftw, Quotient, Pow2;
    var p := Pow2(shift);
    QuotientGrows(r, p, f, g);
    FtwOfQuotient(r, shift, f);
    FtwOfQuotient(r, shift, g);
    SmallMod(Quotient(r, p, f), W32);
    SmallMod(Quotient(r, p, g), W32);
  }

  lemma DropsAbove(r: nat, shift: nat, top: nat) returns (g: nat)
    requires r < W32 && top < W32 && Quotient(r, Pow2(shift), top) >= W32
    ensures 0 < g <= top && !Ordered(r, shift, g - 1, g)
  {
    hide Ftw, Quotient, Pow2;
    var p := Pow2(shift);
    g := FirstTooHigh(r, p, top);
    QuotientStep(r, p, g);
    FtwOfQuotient(r, shift, g - 1);
    FtwOfQuotient(r, shift, g);
    SmallMod(Quotient(r, p, g - 1), W32);
    SmallMod(Quotient(r, p, g) - W32, W32);
    assert Quotient(r, p, g) % W32 == Quotient(r, p, g) - W32;
  }

  /** A higher frequency never gets a smaller word, up to any top frequency, exactly when the word
      of the top frequency still fits in 32 bits. */
  lemma FtwMonotoneExactly(r: nat, shift: nat, top: nat)
    requires r < W32 && top < W32
    ensures (forall f: nat, g: nat | f <= g <= top :: Ordered(r, shift, f, g))
            <==> Quotient(r, Pow2(shift), top) < W32
  {
    hide Ordered, Quotient, Pow2;
    if Quotient(r, Pow2(shift), top) < W32 {
      forall f: nat, g: nat | f <= g <= top
        ensures Ordered(r, shift, f, g)
      {
        QuotientGrows(r, Pow2(shift), g, top);
        OrderedBelow(r, shift, f, g);
      }
    } else {
      var g := DropsAbove(r, shift, top);
    }
  }

  /** Up to half the clock frequency a higher frequency never gets a smaller word. */
  lemma FtwMonotone(clock: nat, shift: nat, f: nat, g: nat)
    requires clock > 0 && IsLog(clock, shift) && f <= g <= 5 * clock && g < W32
    ensures Ftw(Reciprocal(clock, shift), shift, f) <= Ftw(Reciprocal(clock, shift), shift, g)
  {
    var r, p := Reciprocal(clock, shift), Pow2(shift);
    if clock == p {
      PowerOfTwoSilent(shift, f);
      PowerOfTwoSilent(shift, g);
    } else {
      ReciprocalRange(clock, shift);
      FtwAccurate(clock, shift, g);
      OrderedBelow(r, shift, f, g);
    }
  }

  lemma QuotientMono(a: nat, b: nat, p: nat)
    requires p > 0 && a <= b
    ensures a / p <= b / p
  {
    if b / p < a / p {
      DivIs(a, p);
      DivIs(b, p);
      MulMono(b / p + 1, a / p, p);
      assert false;
    }
  }

  /** With a clock that is a power of two, every frequency gets the word zero. */
  lemma PowerOfTwoSilent(shift: nat, f: nat)
    ensures Reciprocal(Pow2(shift), shift) == 0
    ensures Ftw(Reciprocal(Pow2(shift), shift), shift, f) == 0
  {
    ReciprocalRange(Pow2(shift), shift);
    assert Scaled(0, f) == 0;
    DivBetween(0, Pow2(shift), 0, 1);
  }

  lemma SilenceIsInaccurate(p: nat)
    requires p > 0 && 2 * p <= W32
    ensures !WordAccurate(p, 0, p, 10, 0)
  {
    ScaleMono(p + 10, W32, 10 * p);
    assert 10 * p * W32 == 10 * (W32 * p);
  }

  /** The driver is accurate on all frequencies up to half the clock exactly when the clock is
      no power of two. (A clock is at least 2 Hz, so that 1 Hz is among those frequencies.) */
  lemma AccurateExactly(clock: nat, shift: nat)
    requires 2 <= clock < W32 && IsLog(clock, shift)
    ensures (forall f: nat | f <= 5 * clock && f < W32 ::
               WordAccurate(clock, Reciprocal(clock, shift), Pow2(shift), f, Ftw(Reciprocal(clock, shift), shift, f)))
            <==> clock != Pow2(shift)
  {
    var r, p := Reciprocal(clock, shift), Pow2(shift);
    if clock == p {
      PowerOfTwoSilent(shift, 10);
      Pow2Of32();
      if shift >= 32 {
        PowMono(32, shift);
      } else {
        PowMono(shift + 1, 32);
        SilenceIsInaccurate(p);
      }
    } else {
      forall f: nat | f <= 5 * clock && f < W32
        ensures WordAccurate(clock, r, p, f, Ftw(r, shift, f))
      {
        FtwAccurate(clock, shift, f);
      }
    }
  }

  /** With a clock of 180 MHz: one hertz, 7.074 MHz and 18 MHz, in tenths of a hertz. */
  lemma FtwExample()
    ensures Ftw(3202559735, 27, 10) == 24 && Ftw(3202559735, 27, 70_740_000) == 168_792_214
    ensures Ftw(3202559735, 27, 180_000_000) == 429_496_729
    ensures IsLog(180_000_000, 27) && Reciprocal(180_000_000, 27) == 3202559735
  {
    Pow2Of27();
    hide Pow2;
  }

  lemma Pow2Of27()
    ensures Pow2(27) == 134_217_728 && Pow2(28) == 268_435_456 && Pow2(59) == 134_217_728 * W32
  {
    Pow2OfTwo();
    Pow2Add(2, 2);
    Pow2Add(4, 4);
    Pow2Add(8, 8);
    Pow2Add(16, 8);
    Pow2Add(24, 2);
    Pow2Add(26, 1);
    Pow2Add(27, 1);
    Pow2Of32();
    Pow2Add(32, 27);
    assert Pow2(1) == 2;
    hide Pow2;
  }

  // ---------- Tone increments ----------

  const DENOMINATOR: nat := 180_000_000_000_000

  /** `calculateFTWIncrement`, on the step already scaled to a whole number of microhertz. */
  function Increment(step: nat): nat {
    (step * W32 % W64 + DENOMINATOR / 2) % W64 / DENOMINATOR % W32
  }

  /** With a clock of 180 MHz, the increment for a step in microhertz is the step in tuning units, rounded
      to the nearest, exactly while the numerator with its rounding term stays within 64 bits. */
  lemma IncrementRounds(step: nat)
    ensures var unit := 180_000_000 * 1_000_000;
            -(unit / 2) <= Increment(step) * unit - step * 0x1_0000_0000 <= unit / 2
            <==> step * 0x1_0000_0000 + unit / 2 < 0x1_0000_0000_0000_0000
  {
    var sum := step * W32 + DENOMINATOR / 2;
    IncrementIs(step);
    Wraps(sum);
    hide Increment;
    NearQuotient(sum % W64);
  }

  lemma Wraps(sum: nat)
    ensures if sum < W64 then sum % W64 == sum else sum % W64 <= sum - W64
  {
  }

  lemma SumWraps(a: nat, b: nat)
    ensures (a % W64 + b) % W64 == (a + b) % W64
  {
  }

  lemma QuotientFits(wrapped: nat)
    requires wrapped < W64
    ensures wrapped / DENOMINATOR < W32
  {
  }

  lemma IncrementIs(step: nat)
    ensures Increment(step) == (step * W32 + DENOMINATOR / 2) % W64 / DENOMINATOR
  {
    var sum := step * W32 + DENOMINATOR / 2;
    SumWraps(step * W32, DENOMINATOR / 2);
    QuotientFits(sum % W64);
    SmallMod(sum % W64 / DENOMINATOR, W32);
  }

  lemma NearQuotient(wrapped: nat)
    ensures 0 <= wrapped - wrapped / DENOMINATOR * DENOMINATOR < DENOMINATOR
  {
  }

  /** The step in hertz, scaled to microhertz and cut to a whole number. */
  function Microhertz(hertz: real): int {
    (hertz * 1000000.0).Floor
  }

  /** From a step in hertz the increment is off by at most half a unit upwards, and downwards by half
      a unit and what the cut microhertz is worth. */
  lemma IncrementOfHertz(hertz: real)
    requires hertz >= 0.0
    requires Microhertz(hertz) * W32 + DENOMINATOR / 2 < W64
    ensures var error := (Increment(Microhertz(hertz)) * DENOMINATOR) as real - hertz * 1000000.0 * W32 as real;
            -((DENOMINATOR / 2 + W32) as real) < error <= (DENOMINATOR / 2) as real
  {
    var step := Microhertz(hertz);
    IncrementRounds(step);
    hide Increment;
    var exact := hertz * 1000000.0;
    assert step as real <= exact < step as real + 1.0;
    assert (step * W32) as real == step as real * W32 as real;
    assert step as real * W32 as real <= exact * W32 as real < (step as real + 1.0) * W32 as real;
  }

  // ---------- The device ----------

  type Frame = seq<nat>

  /** The forty bits of one transfer: the word, least significant byte first, and the configuration. */
  function FrameOf(word: nat, powerUp: bool): Frame {
    [word % 256, word / 256 % 256, word / 65536 % 256, word / 16777216 % 256, if powerUp then 0x01 else 0x04]
  }

  function WordIn(frame: Frame): nat
    requires |frame| == 5
  {
    frame[0] + 256 * frame[1] + 65536 * frame[2] + 16777216 * frame[3]
  }

  lemma FrameCarriesWord(word: nat, powerUp: bool)
    requires word < W32
    ensures |FrameOf(word, powerUp)| == 5 && WordIn(FrameOf(word, powerUp)) == word
    ensures forall k | 0 <= k < 4 :: FrameOf(word, powerUp)[k] < 256
    ensures FrameOf(word, powerUp)[4] == if powerUp then 1 else 4
  {
    var b1, b2, b3 := word / 256, word / 65536, word / 16777216;
    assert b1 == 256 * b2 + b1 % 256;
    assert b2 == 256 * b3 + b2 % 256 && b3 < 256;
  }

  datatype Command =
    | Tune(f: nat, powerUp: bool)
    | Tone(increment: nat, powerUp: bool)
    | Load(word: nat, powerUp: bool)

  datatype State = State(reciprocal: nat, shift: nat, currentFtw: nat, sent: seq<Frame>)

  function Apply(s: State, c: Command): State {
    match c
    case Tune(f, up) =>
      var word := Ftw(s.reciprocal, s.shift, f);
      s.(currentFtw := word, sent := s.sent + [FrameOf(word, up)])
    case Tone(increment, up) => s.(sent := s.sent + [FrameOf((s.currentFtw + increment) % W32, up)])
    case Load(word, up) => s.(sent := s.sent + [FrameOf(word, up)])
  }

  function Run(s: State, commands: seq<Command>): State {
    if commands == [] then s
    else Apply(Run(s, commands[..|commands| - 1]), commands[|commands| - 1])
  }

  /** The word of the last frequency set among the first i commands; before any, what was set earlier. */
  function BaseWord(s: State, commands: seq<Command>, i: nat): nat
    requires i <= |commands|
  {
    if i == 0 then s.currentFtw
    else match commands[i - 1]
      case Tune(f, _) => Ftw(s.reciprocal, s.shift, f)
      case _ => BaseWord(s, commands, i - 1)
  }

  lemma {:induction false} BaseOfPrefix(s: State, commands: seq<Command>, i: nat)
    requires 0 < |commands| && i < |commands|
    ensures BaseWord(s, commands[..|commands| - 1], i) == BaseWord(s, commands, i)
  {
    if i > 0 {
      BaseOfPrefix(s, commands, i - 1);
    }
  }

  /** The transfer that command i makes. */
  function FrameAt(s: State, commands: seq<Command>, i: nat): Frame
    requires i < |commands|
  {
    match commands[i]
    case Tune(f, up) => FrameOf(Ftw(s.reciprocal, s.shift, f), up)
    case Tone(increment, up) => FrameOf((BaseWord(s, commands, i) + increment) % W32, up)
    case Load(word, up) => FrameOf(word, up)
  }

  /** A run of commands, outright: one transfer for each, and the base word of the last frequency. */
  lemma {:induction false} RunIs(s: State, commands: seq<Command>)
    ensures var r := Run(s, commands);
            && r.reciprocal == s.reciprocal && r.shift == s.shift
            && r.currentFtw == BaseWord(s, commands, |commands|)
            && r.sent == s.sent + seq(|commands|, i requires 0 <= i < |commands| => FrameAt(s, commands, i))
  {
    hide Ftw, FrameOf;
    if commands != [] {
      var n := |commands| - 1;
      var front := commands[..n];
      RunIs(s, front);
      BaseOfPrefix(s, commands, n);
      forall i | 0 <= i < n
        ensures FrameAt(s, front, i) == FrameAt(s, commands, i)
      {
        BaseOfPrefix(s, commands, i);
      }
      assert Run(s, commands).sent == Run(s, front).sent + [FrameAt(s, commands, n)];
    }
  }

  /** Whatever tones and words were sent before, a tone is always the base word plus its own
      increment, modulo 2^32: increments never add up. */
  lemma TonesDoNotDrift(s: State, commands: seq<Command>, i: nat)
    requires i < |commands| && commands[i].Tone?
    ensures var sent := Run(s, commands).sent;
            && |sent| == |s.sent| + |commands| && |sent[|s.sent| + i]| == 5
            && WordIn(sent[|s.sent| + i]) == (BaseWord(s, commands, i) + commands[i].increment) % W32
  {
    RunIs(s, commands);
    FrameCarriesWord((BaseWord(s, commands, i) + commands[i].increment) % W32, commands[i].powerUp);
    hide WordIn, Run;
  }

  class Ad9851 {
    const coreClock: nat
    var reciprocal: nat
    var shift: nat
    var currentFtw: nat
    /** What has been sent over SPI and latched, transfer by transfer. */
    var sent: seq<Frame>

    function Value(): State
      reads this
    {
      State(reciprocal, shift, currentFtw, sent)
    }

    /** `setClock`. It fails where the source divides by zero. */
    method SetClock(calibration: int) returns (ok: bool)
      modifies this`reciprocal, this`shift
      ensures ok <==> CalibratedClock(coreClock, calibration) != 0
      ensures ok ==> IsLog(CalibratedClock(coreClock, calibration), shift) && shift < 32
                     && reciprocal == Reciprocal(CalibratedClock(coreClock, calibration), shift)
    {
      hide Pow2, CalibratedClock, IsLog;
      Pow2OfZero();
      var clock := CalibratedClock(coreClock, calibration);
      var scaled := clock;
      shift := 32;
      while shift > 0 && scaled / W32 % 2 == 0
        invariant shift <= 32 && scaled == clock * Pow2(32 - shift) && scaled < 2 * W32
        invariant shift == 32 ==> scaled < W32
        decreases shift
      {
        Doubled(clock, 32 - shift);
        BitClear(scaled);
        scaled := scaled * 2 % W64;
        shift := shift - 1;
      }
      if clock == 0 {
        return false;
      }
      ScaledIsLog(clock, shift, scaled);
      ShiftedOne(shift);
      reciprocal := Pow2(32 + shift) % W64 / clock % W32;
      return true;
    }

    method SetFtw(word: nat, powerUp: bool)
      modifies this`sent
      ensures sent == old(sent) + [FrameOf(word, powerUp)]
    {
      var frame, rest := [], word;
      for b := 0 to 4
        invariant |frame| == b
        invariant rest == if b == 0 then word else if b == 1 then word / 256 else if b == 2 then word / 65536
                          else if b == 3 then word / 16777216 else word / 16777216 / 256
        invariant forall k | 0 <= k < b :: frame[k] == FrameOf(word, powerUp)[k]
      {
        frame := frame + [rest % 256];
        rest := rest / 256;
      }
      sent := sent + [frame + [if powerUp then 0x01 else 0x04]];
      assert frame + [if powerUp then 0x01 else 0x04] == FrameOf(word, powerUp);
    }

    method SetFrequencyHzX10(f: nat, powerUp: bool)
      modifies this`currentFtw, this`sent
      ensures Value() == Apply(old(Value()), Tune(f, powerUp))
    {
      currentFtw := Ftw(reciprocal, shift, f);
      SetFtw(currentFtw, powerUp);
    }

    /** The multiplication by ten is done in 32 bits. */
    method SetFrequencyHz(hertz: nat, powerUp: bool)
      modifies this`currentFtw, this`sent
      ensures Value() == Apply(old(Value()), Tune(hertz * 10 % W32, powerUp))
    {
      currentFtw := Ftw(reciprocal, shift, hertz * 10 % W32);
      SetFtw(currentFtw, powerUp);
    }

    method SetFrequencyIncrement(increment: nat, powerUp: bool)
      modifies this`sent
      ensures Value() == Apply(old(Value()), Tone(increment, powerUp))
    {
      SetFtw((currentFtw + increment) % W32, powerUp);
    }
  }

  lemma Pow2OfZero()
    ensures Pow2(0) == 1
  {
  }

  lemma Doubled(clock: nat, n: nat)
    ensures clock * Pow2(n + 1) == 2 * (clock * Pow2(n))
  {
  }

  lemma BitClear(x: nat)
    requires x < 2 * W32 && x / W32 % 2 == 0
    ensures x < W32 && x * 2 % W64 == x * 2
  {
  }

  lemma ShiftedOne(shift: nat)
    requires shift < 32
    ensures Pow2(32 + shift) % W64 == Pow2(32 + shift)
  {
    PowMono(32 + shift, 63);
    Pow2Add(63, 1);
    Pow2Of32();
    SmallMod(Pow2(32 + shift), W64);
  }

  /** When the loop stops, on its test or at shift zero, the shift is the logarithm of the clock. */
  lemma ScaledIsLog(clock: nat, shift: nat, scaled: nat)
    requires 0 < clock < W32 && shift <= 32 && scaled == clock * Pow2(32 - shift)
    requires scaled < 2 * W32 && (shift == 0 || scaled / W32 % 2 != 0)
    ensures IsLog(clock, shift) && shift < 32
  {
    Pow2Of32();
    Pow2Add(shift, 32 - shift);
    var p, q := Pow2(shift), Pow2(32 - shift);
    assert Pow2(shift + 1) == 2 * p;
    hide Pow2;
    if shift == 0 {
      MulMono(1, clock, q);
    }
    Between(clock, p, q);
  }

  lemma Between(c: nat, p: nat, q: nat)
    requires p * q == W32 <= c * q < 2 * W32
    ensures p <= c < 2 * p
  {
    MulMonoWhere(c + 1, p, q);
    MulMonoWhere(2 * p, c, q);
    assert 2 * p * q == 2 * (p * q);
    assert (c + 1) * q == c * q + q;
  }
}

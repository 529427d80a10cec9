/** Fixed-point conversions of SoundFont units: timecents to ticks, cents to a rate multiplier,
    centibels to a level.  The table holds 2^(i/1200) in Q16.16; its entries are a parameter. */
module SmpTables {
  import opened LittleEndian

  const OCTAVE := 1200
  const TICK_CAP := 110000
  const FULL_LEVEL := 0x1_0000

  /** One octave, strictly increasing from 1.0 to below 2.0. */
  ghost predicate OctaveTable(t: seq<nat>) {
    |t| == OCTAVE && t[0] == 65536 && t[OCTAVE - 1] < 131072 &&
    forall i, j :: 0 <= i < j < OCTAVE ==> t[i] < t[j]
  }

  /** x shifted right. */
  function Shr(x: nat, k: nat): nat
  {
    if k == 0 then x else Shr(x / 2, k - 1)
  }

  lemma {:induction false} ShrMono(a: nat, b: nat, k: nat)
    requires a <= b
    ensures Shr(a, k) <= Shr(b, k)
  {
    if k > 0 {
      ShrMono(a / 2, b / 2, k - 1);
    }
  }

  lemma {:induction false} ShrBelow(x: nat, c: nat, k: nat)
    requires x < Shl(c, k)
    ensures Shr(x, k) < c
  {
    if k > 0 {
      ShrBelow(x / 2, c, k - 1);
    }
  }

  lemma {:induction false} ShrAgain(x: nat, j: nat, k: nat)
    requires j <= k
    ensures Shr(x, k) <= Shr(x, j)
  {
    if j > 0 {
      ShrAgain(x / 2, j - 1, k - 1);
    } else {
      ShrShrinks(x, k);
    }
  }

  lemma {:induction false} ShrShrinks(x: nat, k: nat)
    ensures Shr(x, k) <= x
  {
    if k > 0 {
      ShrShrinks(x / 2, k - 1);
    }
  }

  lemma {:induction false} ShlMono(a: nat, b: nat, j: nat, k: nat)
    requires a <= b && j <= k
    ensures Shl(a, j) <= Shl(b, k)
    decreases k
  {
    if j < k {
      ShlMono(a, b, j, k - 1);
    } else if k > 0 {
      ShlMono(a, b, j - 1, k - 1);
    }
  }

  /** C division: truncation toward zero. */
  function CDiv(a: int, b: int): int
    requires b > 0
  {
    if a >= 0 then a / b else -((-a) / b)
  }

  function Fold(cents: int): (r: (int, nat))
    ensures r.1 < OCTAVE && cents == r.0 * OCTAVE + r.1
  {
    var octaves := CDiv(cents, OCTAVE);
    var rem := cents - octaves * OCTAVE;
    if rem < 0 then (octaves - 1, rem + OCTAVE) else (octaves, rem)
  }

  /** Folding is floor division whatever the sign. */
  lemma FoldIsFloor(cents: int)
    ensures Fold(cents) == (cents / OCTAVE, cents % OCTAVE)
  {
    DivModUnique(cents, OCTAVE, Fold(cents).0, Fold(cents).1);
  }

  lemma FoldNext(cents: int)
    ensures Fold(cents) == (cents / OCTAVE, cents % OCTAVE)
    ensures Fold(cents + OCTAVE) == (Fold(cents).0 + 1, Fold(cents).1)
    ensures 0 <= cents < OCTAVE ==> Fold(cents) == (0, cents)
  {
    FoldIsFloor(cents);
    FoldIsFloor(cents + OCTAVE);
    DivModUnique(cents + OCTAVE, OCTAVE, cents / OCTAVE + 1, cents % OCTAVE);
  }

  function TimecentsToTicks(t: seq<nat>, tc: short): nat
    requires |t| == OCTAVE
  {
    if tc <= -12000 then 0
    else if tc >= 8000 then TICK_CAP
    else
      var (octaves, rem) := Fold(tc);
      var base := t[rem] * 1000;
      // both cut-offs above keep the octave between -10 and 6, so the code's own tests for more than
      // 16 octaves up or 32 down never fire
      var ticks := Shr(base, 16 - octaves);
      if octaves >= 0 && ticks > TICK_CAP then TICK_CAP else ticks
  }

  lemma TicksStep(t: seq<nat>, tc: short)
    requires OctaveTable(t) && tc < 0x7FFF
    ensures TimecentsToTicks(t, tc) <= TimecentsToTicks(t, tc + 1)
    ensures TimecentsToTicks(t, tc) <= TICK_CAP
  {
    hide Shr, Shl;
    if -12000 < tc < 8000 {
      FoldIsFloor(tc);
      FoldIsFloor(tc + 1);
      var (o, rem) := Fold(tc);
      if o < 0 {
        SmallTicks(t[rem] * 1000, 16 - o);
      }
      if rem < OCTAVE - 1 {
        ShrMono(t[rem] * 1000, t[rem + 1] * 1000, 16 - o);
      } else {
        AcrossSeam(t[rem] * 1000, t[0] * 1000, 15 - o);
      }
    }
  }

  lemma {:induction false} SmallTicks(base: nat, k: nat)
    requires base < 131072000 && k >= 17
    ensures Shr(base, k) < 1000
  {
    ShrAgain(base, 17, k);
    ShlIsProduct(1000, 17);
    Pow2Known();
    assert Pow2(17) == 2 * Pow2(16);
    ShrBelow(base, 1000, 17);
  }

  /** The first entry of an octave against the last of the one below. */
  lemma AcrossSeam(a: nat, b: nat, k: nat)
    requires a <= 2 * b
    ensures Shr(a, k + 1) <= Shr(b, k)
  {
    ShrMono(a / 2, b, k);
  }

  /** Longer times never get fewer ticks, over the whole 16-bit range, and none exceeds the cap. */
  lemma {:induction false} TicksMonotone(t: seq<nat>, a: short, b: short)
    requires OctaveTable(t) && a <= b
    ensures TimecentsToTicks(t, a) <= TimecentsToTicks(t, b) <= TICK_CAP
    decreases b - a
  {
    if a < b {
      TicksMonotone(t, a, b - 1);
      TicksStep(t, b - 1);
    }
    if b < 0x7FFF {
      TicksStep(t, b);
    }
  }

  lemma {:induction false} ShrNext(x: nat, k: nat)
    ensures Shr(x, k + 1) == Shr(x, k) / 2
  {
    if k > 0 {
      ShrNext(x / 2, k - 1);
    }
  }

  lemma HalfQuotient(x: nat, p: nat)
    requires p >= 1
    ensures x / (2 * p) == x / 2 / p
  {
    var h := x / 2;
    var q, r := h / p, h % p;
    assert h == q * p + r;
    assert q * (2 * p) == 2 * (q * p);
    DivModUnique(x, 2 * p, q, 2 * r + x % 2);
  }

  lemma {:induction false} ShrIsQuotient(x: nat, k: nat)
    ensures Shr(x, k) == x / Pow2(k)
  {
    if k > 0 {
      ShrIsQuotient(x / 2, k - 1);
      HalfQuotient(x, Pow2(k - 1));
    }
  }

  /** A millisecond a tick: within the octave above one second a time of tc timecents takes 1000 times its table
      entry. */
  lemma TicksInOctave(t: seq<nat>, tc: short)
    requires OctaveTable(t) && 0 <= tc < OCTAVE
    ensures TimecentsToTicks(t, tc) == t[tc] * 1000 / 65536
  {
    FoldIsFloor(tc);
    ShrIsQuotient(t[tc] * 1000, 16);
    Pow2Known();
    assert t[tc] * 1000 / 65536 <= TICK_CAP;
  }

  /** An octave less is half the time, rounded down, as long as the cap is not in the way; below 12000 timecents
      under a second there is none. */
  lemma OctaveHalves(t: seq<nat>, tc: short)
    requires OctaveTable(t) && -12000 < tc < 8000 - OCTAVE && TimecentsToTicks(t, tc + OCTAVE) < TICK_CAP
    ensures TimecentsToTicks(t, tc) == TimecentsToTicks(t, tc + OCTAVE) / 2
  {
    hide Shr, Fold;
    FoldNext(tc);
    var (o, rem) := Fold(tc);
    ShrNext(t[rem] * 1000, 15 - o);
  }

  lemma NoTimeAndCap(t: seq<nat>, tc: short)
    requires |t| == OCTAVE
    ensures tc <= -12000 ==> TimecentsToTicks(t, tc) == 0
    ensures tc >= 8000 ==> TimecentsToTicks(t, tc) == 110000
  {
  }

  // ---- cents to a Q16.16 multiplier, in 32 bits ----

  function CentsToMultiplier(t: seq<nat>, cents: int): nat
    requires |t| == OCTAVE
  {
    var (octaves, rem) := Fold(cents);
    if octaves >= 0 then Shl(t[rem], octaves) % 0x1_0000_0000 else Shr(t[rem], -octaves)
  }

  /** Within an octave the multiplier is the table's, and an octave down halves it. */
  lemma MultiplierIsTable(t: seq<nat>, c: int)
    requires OctaveTable(t)
    ensures 0 <= c < OCTAVE ==> CentsToMultiplier(t, c) == t[c]
    ensures c < 0 ==> CentsToMultiplier(t, c) == CentsToMultiplier(t, c + OCTAVE) / 2
  {
    hide Shr;
    FoldIsFloor(c);
    FoldIsFloor(c + OCTAVE);
    var (o, rem) := Fold(c);
    if c < 0 {
      ShrNext(t[rem], -o - 1);
      if o == -1 {
        ShrZero(t[rem]);
      }
    }
  }

  lemma {:induction false} ShrZero(x: nat)
    ensures Shr(x, 0) == x && Shr(x, 1) == x / 2
  {
  }

  /** An octave up doubles the rate, as long as the result fits in 32 bits. */
  lemma OctaveDoubles(t: seq<nat>, c: nat)
    requires OctaveTable(t) && c < 15 * OCTAVE
    ensures CentsToMultiplier(t, c + OCTAVE) == 2 * CentsToMultiplier(t, c)
  {
    FoldIsFloor(c);
    FoldIsFloor(c + OCTAVE);
    var (o, rem) := Fold(c);
    SixteenOctaves(t[rem], o);
  }

  lemma SixteenOctaves(m: nat, o: nat)
    requires m < 131072 && o <= 14
    ensures Shl(m, o + 1) == 2 * Shl(m, o) < 0x1_0000_0000
  {
    ShlMono(m, 131071, o, 14);
    ShlIsProduct(131071, 14);
    Pow2Known();
    assert Pow2(15) == 2 * Pow2(14);
  }

  /** The bound is exact: in the sixteenth octave the doubled value no longer fits. */
  lemma DoublingOverflows(t: seq<nat>, c: nat)
    requires OctaveTable(t) && 15 * OCTAVE <= c < 16 * OCTAVE
    ensures CentsToMultiplier(t, c + OCTAVE) != 2 * CentsToMultiplier(t, c)
  {
    FoldIsFloor(c);
    var rem := Fold(c).1;
    ShlIsProduct(t[rem], 15);
    Pow2Known();
    assert 65536 <= t[rem] < 131072;
  }

  // ---- centibels to a level ----

  function LevelAt(t: seq<nat>, negCents: nat): nat
    requires |t| == OCTAVE
  {
    var (octaves, rem) := Fold(negCents);
    if t[rem] == 0 || octaves >= 16 then 0
    else
      var level := Shr(0x1_0000_0000 / t[rem], octaves);
      if level > FULL_LEVEL then FULL_LEVEL else level
  }

  function CbToLevel(t: seq<nat>, cb: short): nat
    requires |t| == OCTAVE
  {
    if cb <= 0 then FULL_LEVEL
    else if cb >= 960 then 0
    else LevelAt(t, cb as int * 3322 / 1000)
  }

  /** Within an octave the level is the reciprocal of the table entry, and an octave more halves it. */
  lemma LevelIsReciprocal(t: seq<nat>, n: nat)
    requires OctaveTable(t) && n < 15 * OCTAVE
    ensures n < OCTAVE ==> LevelAt(t, n) == 0x1_0000_0000 / t[n]
    ensures LevelAt(t, n + OCTAVE) == LevelAt(t, n) / 2
  {
    hide Shr, Fold;
    FoldNext(n);
    var (o, rem) := Fold(n);
    var q := 0x1_0000_0000 / t[rem];
    Reciprocal(65536, t[rem], 0x1_0000_0000);
    ShrNext(q, o);
    ShrShrinks(q, o);
    ShrShrinks(q, o + 1);
    ShrZero(q);
  }

  /** No attenuation is full level, and from 960 centibels on there is silence. */
  lemma FullAndSilent(t: seq<nat>, cb: short)
    requires |t| == OCTAVE
    ensures cb <= 0 ==> CbToLevel(t, cb) == 0x1_0000
    ensures cb >= 960 ==> CbToLevel(t, cb) == 0
  {
  }

  /** 361 to 362 centibels halve the level. */
  lemma CentibelsHalve(t: seq<nat>, cb: short)
    requires OctaveTable(t) && 0 < cb < 960 - 362
    ensures CbToLevel(t, cb + 362) <= CbToLevel(t, cb) / 2 <= CbToLevel(t, cb + 361)
  {
    hide LevelAt;
    var n, n1, n2 := cb as int * 3322 / 1000, (cb as int + 361) * 3322 / 1000, (cb as int + 362) * 3322 / 1000;
    LevelIsReciprocal(t, n);
    LevelMonotone(t, n1, n + OCTAVE);
    LevelMonotone(t, n + OCTAVE, n2);
  }

  lemma Reciprocal(a: nat, b: nat, n: nat)
    requires 0 < a <= b
    ensures 0 <= n / b <= n / a
  {
    var q, r := n / b, n / a;
    MulMono(q, a, b);
    MulMono(a, r + 1, q);
    assert q * b <= n < r * a + a;
    assert a * (r + 1) == r * a + a && a * q == q * a;
  }

  lemma LevelStep(t: seq<nat>, n: nat)
    requires OctaveTable(t)
    ensures LevelAt(t, n + 1) <= LevelAt(t, n)
  {
    hide Shr;
    FoldIsFloor(n);
    FoldIsFloor(n + 1);
    var (o, rem) := Fold(n);
    if o < 16 {
      assert 65536 <= t[rem] < 131072;
      if rem < OCTAVE - 1 {
        Reciprocal(t[rem], t[rem + 1], 0x1_0000_0000);
        ShrMono(0x1_0000_0000 / t[rem + 1], 0x1_0000_0000 / t[rem], o);
      } else {
        Reciprocal(t[rem], 131072, 0x1_0000_0000);
        AcrossSeam(0x1_0000_0000 / t[0], 0x1_0000_0000 / t[rem], o);
      }
    }
  }

  lemma {:induction false} LevelMonotone(t: seq<nat>, a: nat, b: nat)
    requires OctaveTable(t) && a <= b
    ensures LevelAt(t, b) <= LevelAt(t, a) <= FULL_LEVEL
    decreases b - a
  {
    if a < b {
      LevelMonotone(t, a, b - 1);
      LevelStep(t, b - 1);
    }
  }

  /** More attenuation never gets louder, across octave seams and both clamps. */
  lemma LevelNonIncreasing(t: seq<nat>, a: short, b: short)
    requires OctaveTable(t) && a <= b
    ensures 0 <= CbToLevel(t, b) <= CbToLevel(t, a) <= FULL_LEVEL
  {
    if 0 < a {
      LevelMonotone(t, a as int * 3322 / 1000, b as int * 3322 / 1000);
    } else if 0 < b {
      LevelMonotone(t, b as int * 3322 / 1000, b as int * 3322 / 1000);
    }
  }
}

/** DAHDSR envelopes: the offline baking of SoundFont times into ticks and rates, the per-tick state
    machine that runs them, and how long each stage can last. */
module SmpEnvelope {
  import opened LittleEndian
  import opened SmpTables

  const FULL := 0x1_0000
  const FLOOR := 0x100

  datatype Stage = Off | Delay | Attack | Hold | Decay | Sustain | Release | Done

  datatype Env = Env(stage: Stage, level: int, rate: int, target: int, timer: int)

  /** The baked fields of one envelope of a zone. */
  datatype Baked = Baked(delay: nat, attackRate: nat, hold: nat, decayRate: nat, sustain: nat, release: nat)

  /** What the converter bakes: rates that move, and levels and times in range. */
  predicate WellFormed(z: Baked) {
    1 <= z.attackRate <= FULL && 1 <= z.decayRate <= FULL && z.sustain <= FULL &&
    z.delay < 0x8000_0000 && z.hold < 0x8000_0000 && z.release < 0x8000_0000
  }

  function Init(z: Baked): Env {
    if z.delay > 0 then Env(Delay, 0, 0, 0, z.delay)
    else Env(Attack, 0, z.attackRate, FULL, 0)
  }

  function StartDecay(e: Env, z: Baked): Env {
    e.(stage := Decay, target := z.sustain, rate := z.decayRate)
  }

  function Advance(e: Env, z: Baked): Env {
    match e.stage
    case Off => e
    case Done => e
    case Delay =>
      var e' := e.(timer := e.timer - 1);
      if e'.timer <= 0 then e'.(stage := Attack, rate := z.attackRate, target := FULL) else e'
    case Attack =>
      if e.level + e.rate >= FULL then
        var e' := e.(level := FULL);
        if z.hold > 0 then e'.(stage := Hold, timer := z.hold, rate := 0) else StartDecay(e', z)
      else e.(level := e.level + e.rate)
    case Hold =>
      var e' := e.(timer := e.timer - 1);
      if e'.timer <= 0 then StartDecay(e', z) else e'
    case Decay =>
      if e.level - e.rate <= e.target then e.(level := e.target, stage := Sustain, rate := 0)
      else e.(level := e.level - e.rate)
    case Sustain => e
    case Release =>
      if e.level - e.rate <= FLOOR then e.(level := 0, stage := Done) else e.(level := e.level - e.rate)
  }

  function StartRelease(e: Env, releaseTicks: nat): Env {
    if e.stage == Off || e.stage == Done then e
    else
      var ticks := if releaseTicks < 1 then 1 else releaseTicks;
      var rate := CDiv(e.level, ticks);
      e.(stage := Release, target := 0, rate := if rate < 1 then 1 else rate)
  }

  /** What holds of an envelope at any time.  Levels stay between silence and full. */
  predicate Ok(e: Env, z: Baked) {
    0 <= e.level <= FULL &&
    match e.stage
    case Off => true
    case Done => true
    case Delay => 1 <= e.timer <= z.delay && e.level == 0
    case Attack => e.rate == z.attackRate && e.level < FULL
    case Hold => 1 <= e.timer <= z.hold && e.level == FULL
    case Decay => e.rate == z.decayRate && e.target == z.sustain && z.sustain <= e.level
    case Sustain => e.level == z.sustain
    case Release => e.rate >= 1
  }

  lemma OkSteps(e: Env, z: Baked, release: nat)
    requires WellFormed(z)
    ensures Ok(Init(z), z) && Init(z).stage != Done && Init(z).stage != Off
    ensures Ok(e, z) ==> Ok(Advance(e, z), z) && Ok(StartRelease(e, release), z)
  {
    if e.level > 0 && release > 0 {
      DivModUnique(e.level, if release < 1 then 1 else release, e.level / release, e.level % release);
    }
  }

  // ---- how long each stage lasts ----

  /** Steps of size d needed to cover x, at least one. */
  function Steps(x: int, d: int): (n: nat)
    requires d >= 1
    ensures n >= 1
  {
    if x <= d then 1 else (x + d - 1) / d
  }

  lemma StepsDown(x: int, d: int)
    requires d >= 1 && x > d
    ensures Steps(x - d, d) == Steps(x, d) - 1
  {
    var q, r := (x + d - 1) / d, (x + d - 1) % d;
    assert x - d + d - 1 == (q - 1) * d + r by {
      assert (q - 1) * d == q * d - d;
    }
    DivModUnique(x - d + d - 1, d, q - 1, r);
    if x - d <= d {
      DivModUnique(x - 1, d, 1, x - 1 - d);
    }
  }

  lemma StepsMono(x: int, y: int, d: int)
    requires d >= 1 && x <= y
    ensures Steps(x, d) <= Steps(y, d)
    decreases if x > 0 then x else 0
  {
    if x > d {
      StepsDown(x, d);
      StepsDown(y, d);
      StepsMono(x - d, y - d, d);
    }
  }

  function ReleaseMax(z: Baked): nat { 2 * if z.release < 1 then 1 else z.release }

  function DecayMax(z: Baked): nat
    requires WellFormed(z)
  {
    Steps(FULL - z.sustain, z.decayRate)
  }

  /** Ticks until an envelope that is left alone is Sustain, counting from its stage. */
  function ToSustain(e: Env, z: Baked): nat
    requires WellFormed(z) && Ok(e, z)
  {
    match e.stage
    case Delay => e.timer + Steps(FULL, z.attackRate) + z.hold + DecayMax(z)
    case Attack => Steps(FULL - e.level, z.attackRate) + z.hold + DecayMax(z)
    case Hold => e.timer + DecayMax(z)
    case Decay => Steps(e.level - e.target, e.rate)
    case _ => 0
  }

  /** Every tick brings an envelope in an early stage at least one tick closer to Sustain. */
  lemma TowardSustain(e: Env, z: Baked)
    requires WellFormed(z) && Ok(e, z) && (e.stage.Delay? || e.stage.Attack? || e.stage.Hold? || e.stage.Decay?)
    ensures Ok(Advance(e, z), z) && ToSustain(Advance(e, z), z) < ToSustain(e, z)
    ensures var s := Advance(e, z).stage; s.Delay? || s.Attack? || s.Hold? || s.Decay? || s.Sustain?
  {
    OkSteps(e, z, 0);
    match e.stage
    case Delay =>
      StepsMono(FULL - e.level, FULL, z.attackRate);
    case Attack =>
      if e.level + e.rate < FULL {
        StepsDown(FULL - e.level, z.attackRate);
      }
    case Decay =>
      if e.level - e.rate > e.target {
        StepsDown(e.level - e.target, e.rate);
      }
    case _ =>
  }

  function ToDone(e: Env): nat
    requires e.rate >= 1
  {
    Steps(e.level - FLOOR, e.rate)
  }

  lemma TowardDone(e: Env, z: Baked)
    requires Ok(e, z) && e.stage.Release?
    ensures Advance(e, z).stage.Done? || (Advance(e, z).stage.Release? && ToDone(Advance(e, z)) < ToDone(e))
  {
    if e.level - e.rate > FLOOR {
      StepsDown(e.level - FLOOR, e.rate);
    }
  }

  lemma StepsBound(x: int, d: int, n: nat)
    requires d >= 1 && n >= 1 && x <= n * d
    ensures Steps(x, d) <= n
  {
    if x > d {
      var q, r := (x + d - 1) / d, (x + d - 1) % d;
      MulMono(d, n + 1, q);
      assert d * (n + 1) == n * d + d;
      assert d * q == q * d;
    }
  }

  lemma StepsLow(x: int, d: int, n: nat)
    requires d >= 1 && x > (n - 1) * d
    ensures Steps(x, d) >= n
  {
    if x > d && n >= 1 {
      var q, r := (x + d - 1) / d, (x + d - 1) % d;
      MulMono(d, q + 1, n);
      assert d * (q + 1) == q * d + d;
      assert d * n == (n - 1) * d + d;
    } else {
      MulMono(d, 1, n - 1);
      assert d * (n - 1) == (n - 1) * d;
    }
  }

  /** A release started at any level with r ticks is over in at most 2r. */
  lemma ReleaseBound(e: Env, z: Baked)
    requires Ok(e, z) && !e.stage.Off? && !e.stage.Done?
    ensures var e' := StartRelease(e, z.release); e'.stage.Release? && e'.rate >= 1 && ToDone(e') <= ReleaseMax(z)
  {
    hide Steps;
    RateBound(e.level, if z.release < 1 then 1 else z.release);
  }

  lemma RateBound(level: int, r: nat)
    requires 0 <= level <= FULL && r >= 1
    ensures var q := level / r; q >= 0 && Steps(level - FLOOR, if q < 1 then 1 else q) <= 2 * r
  {
    hide Steps;
    var q := level / r;
    assert level == q * r + level % r;
    if q >= 1 {
      assert 2 * r * q >= level by {
        MulMono(r, 1, q);
        assert r * q == q * r;
      }
      StepsBound(level - FLOOR, q, 2 * r);
    } else {
      StepsBound(level - FLOOR, 1, 2 * r);
    }
  }

  // ---- baking ----

  function AtLeast1(n: nat): (m: nat)
    ensures m >= 1
  {
    if n < 1 then 1 else n
  }

  function BakeEnvelope(t: seq<nat>, delayTc: short, attackTc: short, holdTc: short, decayTc: short,
                        sustainCb: short, releaseTc: short): Baked
    requires |t| == OCTAVE
  {
    var sus := CbToLevel(t, sustainCb);
    var delta := if sus > FULL then 0 else FULL - sus;
    Baked(TimecentsToTicks(t, delayTc), AtLeast1(FULL / AtLeast1(TimecentsToTicks(t, attackTc))),
          TimecentsToTicks(t, holdTc), AtLeast1(delta / AtLeast1(TimecentsToTicks(t, decayTc))), sus,
          AtLeast1(TimecentsToTicks(t, releaseTc)))
  }

  lemma QuotientBelow(a: nat, b: nat)
    requires b >= 1
    ensures 0 <= a / b <= a
  {
    var q := a / b;
    MulMono(q, 1, b);
    assert a == q * b + a % b;
  }

  /** Everything the converter bakes is well-formed, and no time exceeds the cap. */
  lemma BakedIsWellFormed(t: seq<nat>, delayTc: short, attackTc: short, holdTc: short, decayTc: short,
                          sustainCb: short, releaseTc: short)
    requires OctaveTable(t)
    ensures var z := BakeEnvelope(t, delayTc, attackTc, holdTc, decayTc, sustainCb, releaseTc);
            WellFormed(z) && z.delay <= TICK_CAP && z.hold <= TICK_CAP && 1 <= z.release <= TICK_CAP
  {
    hide TimecentsToTicks, CbToLevel;
    TicksMonotone(t, delayTc, delayTc);
    TicksMonotone(t, holdTc, holdTc);
    TicksMonotone(t, releaseTc, releaseTc);
    LevelNonIncreasing(t, sustainCb, sustainCb);
    QuotientBelow(FULL, AtLeast1(TimecentsToTicks(t, attackTc)));
    QuotientBelow(FULL - CbToLevel(t, sustainCb), AtLeast1(TimecentsToTicks(t, decayTc)));
  }

  /** n ticks of an envelope on its own. */
  function AdvanceN(e: Env, z: Baked, n: nat): Env
    decreases n
  {
    if n == 0 then e else AdvanceN(Advance(e, z), z, n - 1)
  }

  lemma {:induction false} AdvanceAdds(e: Env, z: Baked, m: nat, n: nat)
    ensures AdvanceN(e, z, m + n) == AdvanceN(AdvanceN(e, z, m), z, n)
    decreases m
  {
    if m > 0 {
      AdvanceAdds(Advance(e, z), z, m - 1, n);
    }
  }

  lemma OneMoreStep(n: nat, r: int)
    requires n > 0
    ensures (n - 1) * r + r == n * r
  {
  }

  /** An attack rises by its rate every tick and leaves the stage at full level after exactly Steps ticks,
      for the hold or, without one, for the decay. */
  lemma {:induction false} AttackLasts(e: Env, z: Baked, n: nat)
    requires WellFormed(z) && Ok(e, z) && e.stage.Attack?
    ensures var e' := AdvanceN(e, z, n);
            n < Steps(FULL - e.level, z.attackRate) ==>
              e'.stage.Attack? && e'.level == e.level + n * z.attackRate < FULL
    ensures var e' := AdvanceN(e, z, n);
            n == Steps(FULL - e.level, z.attackRate) ==>
              e'.level == FULL && if z.hold > 0 then e'.stage.Hold? && e'.timer == z.hold else DecaysFrom(e', z)
    decreases n
  {
    OkSteps(e, z, 0);
    if e.level + e.rate < FULL {
      StepsDown(FULL - e.level, z.attackRate);
      if n > 0 {
        AttackLasts(Advance(e, z), z, n - 1);
        OneMoreStep(n, z.attackRate);
      }
    } else if n == 1 {
      assert AdvanceN(e, z, 1) == AdvanceN(Advance(e, z), z, 0);
    }
  }

  predicate DecaysFrom(e: Env, z: Baked) {
    e.stage.Decay? && e.level == FULL && e.rate == z.decayRate && e.target == z.sustain
  }

  function AttackFrom(z: Baked): Env { Env(Attack, 0, z.attackRate, FULL, 0) }

  /** A delay is silent and lasts exactly its ticks. */
  lemma {:induction false} DelayLasts(e: Env, z: Baked, n: nat)
    requires WellFormed(z) && Ok(e, z) && e.stage.Delay?
    ensures n < e.timer ==> AdvanceN(e, z, n).stage.Delay? && AdvanceN(e, z, n).level == 0
    ensures n >= e.timer ==> AdvanceN(e, z, n) == AdvanceN(AttackFrom(z), z, n - e.timer)
    decreases n
  {
    if n > 0 {
      if e.timer == 1 {
        assert Advance(e, z) == AttackFrom(z);
      } else {
        DelayLasts(Advance(e, z), z, n - 1);
      }
    }
  }

  /** A hold stays at full level for exactly its ticks. */
  lemma {:induction false} HoldLasts(e: Env, z: Baked, n: nat)
    requires WellFormed(z) && Ok(e, z) && e.stage.Hold?
    ensures n < e.timer ==> AdvanceN(e, z, n).stage.Hold? && AdvanceN(e, z, n).level == FULL
    ensures n == e.timer ==> DecaysFrom(AdvanceN(e, z, n), z)
    decreases n
  {
    if n > 0 {
      if e.timer == 1 {
        assert n == 1 ==> AdvanceN(e, z, 1) == AdvanceN(Advance(e, z), z, 0);
      } else {
        HoldLasts(Advance(e, z), z, n - 1);
      }
    }
  }

  /** A decay falls by its rate every tick, stays above the sustain level, and then is at that level for as
      long as it is left alone. */
  lemma {:induction false} DecayLasts(e: Env, z: Baked, n: nat)
    requires WellFormed(z) && Ok(e, z) && e.stage.Decay?
    ensures var e' := AdvanceN(e, z, n);
            if n < Steps(e.level - z.sustain, z.decayRate) then
              e'.stage.Decay? && e'.level == e.level - n * z.decayRate && (n > 0 ==> e'.level > z.sustain)
            else e'.stage.Sustain? && e'.level == z.sustain
    decreases n
  {
    OkSteps(e, z, 0);
    if n > 0 {
      if e.level - e.rate > e.target {
        StepsDown(e.level - z.sustain, z.decayRate);
        DecayLasts(Advance(e, z), z, n - 1);
        OneMoreStep(n, z.decayRate);
      } else {
        SustainStays(Advance(e, z), z, n - 1);
      }
    }
  }

  lemma {:induction false} SustainStays(e: Env, z: Baked, n: nat)
    requires e.stage.Sustain?
    ensures AdvanceN(e, z, n) == e
    decreases n
  {
    if n > 0 {
      SustainStays(Advance(e, z), z, n - 1);
    }
  }

  function AttackTicks(z: Baked): nat
    requires WellFormed(z)
  {
    Steps(FULL, z.attackRate)
  }

  /** The whole of an envelope that is left alone, tick for tick: silence, a rise by the attack rate, full
      level, a fall by the decay rate, and the sustain level. */
  lemma {:induction false} Shape(z: Baked, n: nat)
    requires WellFormed(z)
    ensures var e := AdvanceN(Init(z), z, n);
            var attack := z.delay;
            var hold := attack + AttackTicks(z);
            var decay := hold + z.hold;
            var sustain := decay + DecayMax(z);
            if n < attack then e.stage.Delay? && e.level == 0
            else if n < hold then e.stage.Attack? && e.level == (n - attack) * z.attackRate < FULL
            else if n < decay then e.stage.Hold? && e.level == FULL
            else if n < sustain then e.stage.Decay? && e.level == FULL - (n - decay) * z.decayRate >= z.sustain
            else e.stage.Sustain? && e.level == z.sustain
  {
    hide AdvanceN, Advance, Steps;
    var first := AttackFrom(z);
    FromAttack(z, n);
    OkSteps(Init(z), z, 0);
    if n >= z.delay {
      var m := n - z.delay;
      AttackLasts(first, z, m);
      if m >= AttackTicks(z) {
        AttackLasts(first, z, AttackTicks(z));
        AdvanceAdds(first, z, AttackTicks(z), m - AttackTicks(z));
        AfterAttack(AdvanceN(first, z, AttackTicks(z)), z, m - AttackTicks(z));
      }
    }
  }

  lemma {:induction false} FromAttack(z: Baked, n: nat)
    requires WellFormed(z)
    ensures Ok(AttackFrom(z), z)
    ensures n < z.delay ==> AdvanceN(Init(z), z, n).stage.Delay? && AdvanceN(Init(z), z, n).level == 0
    ensures n >= z.delay ==> AdvanceN(Init(z), z, n) == AdvanceN(AttackFrom(z), z, n - z.delay)
  {
    hide AdvanceN, Advance;
    if z.delay > 0 {
      DelayLasts(Init(z), z, n);
    }
  }

  lemma {:induction false} AfterAttack(e: Env, z: Baked, n: nat)
    requires WellFormed(z) && e.level == FULL
    requires if z.hold > 0 then e.stage.Hold? && e.timer == z.hold else DecaysFrom(e, z)
    ensures var e' := AdvanceN(e, z, n);
            if n < z.hold then e'.stage.Hold? && e'.level == FULL
            else if n < z.hold + DecayMax(z) then
              e'.stage.Decay? && e'.level == FULL - (n - z.hold) * z.decayRate >= z.sustain
            else e'.stage.Sustain? && e'.level == z.sustain
  {
    hide AdvanceN, Advance, Steps;
    if z.hold > 0 {
      HoldLasts(e, z, n);
      if n >= z.hold {
        HoldLasts(e, z, z.hold);
        AdvanceAdds(e, z, z.hold, n - z.hold);
        DecayLasts(AdvanceN(e, z, z.hold), z, n - z.hold);
      }
    } else {
      DecayLasts(e, z, n);
    }
  }

  /** A release falls by its rate every tick until it comes down to the floor, and then is silent. */
  lemma {:induction false} ReleaseRuns(e: Env, z: Baked, n: nat)
    requires Ok(e, z) && e.stage.Release? && WellFormed(z)
    ensures var e' := AdvanceN(e, z, n);
            if n < ToDone(e) then e'.stage.Release? && e'.level == e.level - n * e.rate && (n > 0 ==> e'.level > FLOOR)
            else e'.stage.Done? && e'.level == 0
    decreases n
  {
    OkSteps(e, z, 0);
    if n > 0 {
      if e.level - e.rate > FLOOR {
        StepsDown(e.level - FLOOR, e.rate);
        ReleaseRuns(Advance(e, z), z, n - 1);
        OneMoreStep(n, e.rate);
      } else {
        DoneStays(Advance(e, z), z, n - 1);
      }
    }
  }

  /** A release starts where the envelope is; over r ticks it falls by at most its level, and by less than one
      step less. */
  lemma ReleaseSlope(e: Env, r: nat)
    requires 0 <= e.level && !e.stage.Off? && !e.stage.Done?
    ensures var e', ticks := StartRelease(e, r), if r < 1 then 1 else r;
            e'.stage.Release? && e'.level == e.level &&
            if e.level < ticks then e'.rate == 1 else e'.rate * ticks <= e.level < (e'.rate + 1) * ticks
  {
    var ticks := if r < 1 then 1 else r;
    var q := e.level / ticks;
    assert e.level == q * ticks + e.level % ticks;
    assert (q + 1) * ticks == q * ticks + ticks;
  }

  /** After the delay, an attack baked for t ticks reaches full level within t to 2t of them. */
  lemma {:induction false} AttackTiming(z: Baked, t: nat)
    requires WellFormed(z) && 1 <= t <= FULL && z.attackRate == FULL / t
    ensures exists d :: z.delay + t <= d <= z.delay + 2 * t && AdvanceN(Init(z), z, d).level == FULL
                        && forall n :: 0 <= n < d ==> AdvanceN(Init(z), z, n).level < FULL
  {
    hide AdvanceN, Init, Steps;
    var d := z.delay + Steps(FULL, z.attackRate);
    var q := FULL / t;
    assert FULL == q * t + FULL % t;
    StepsBound(FULL, q, 2 * t) by {
      MulMono(t, 1, q);
      assert 2 * t * q == 2 * (q * t) && t * q == q * t;
    }
    StepsLow(FULL, q, t) by {
      assert (t - 1) * q == q * t - q;
    }
    Shape(z, d);
    forall n | 0 <= n < d
      ensures AdvanceN(Init(z), z, n).level < FULL
    {
      Shape(z, n);
    }
  }

  /** A release of r ticks that is not restarted reaches Done within 2r ticks. */
  lemma {:induction false} ReleaseTiming(e: Env, z: Baked, n: nat)
    requires Ok(e, z) && e.stage.Release? && WellFormed(z) && n >= ToDone(e)
    ensures AdvanceN(e, z, n).stage.Done? && AdvanceN(e, z, n).level == 0
    decreases n
  {
    OkSteps(e, z, 0);
    TowardDone(e, z);
    if Advance(e, z).stage.Done? {
      DoneStays(Advance(e, z), z, n - 1);
    } else {
      ReleaseTiming(Advance(e, z), z, n - 1);
    }
  }

  lemma {:induction false} DoneStays(e: Env, z: Baked, n: nat)
    requires e.stage.Done?
    ensures AdvanceN(e, z, n) == e
    decreases n
  {
    if n > 0 {
      DoneStays(Advance(e, z), z, n - 1);
    }
  }

  lemma {:induction false} ReleaseEndsInTime(e: Env, z: Baked)
    requires WellFormed(z) && Ok(e, z) && !e.stage.Off? && !e.stage.Done?
    ensures AdvanceN(StartRelease(e, z.release), z, ReleaseMax(z)).stage.Done?
  {
    OkSteps(e, z, z.release);
    ReleaseBound(e, z);
    ReleaseTiming(StartRelease(e, z.release), z, ReleaseMax(z));
  }

  // ---- what the converter's times come to ----

  function Least(a: nat, b: nat): nat { if a < b then a else b }

  /** A ramp over x in t ticks, by whole steps of at least one: between t and 2t of them, or as many as x has. */
  lemma RampTiming(x: nat, t: nat)
    requires t >= 1
    ensures var m := AtLeast1(Least(t, x)); m <= Steps(x, AtLeast1(x / t)) <= 2 * m
  {
    hide Steps;
    var q := x / t;
    if q >= 1 {
      RampNumbers(x, t, q);
      StepsBound(x, q, 2 * t);
      StepsLow(x, q, t);
    } else {
      QuotientZero(x, t);
      StepsBound(x, 1, AtLeast1(x));
      if x > 0 {
        StepsLow(x, 1, x);
      }
    }
  }

  lemma RampNumbers(x: nat, t: nat, q: nat)
    requires t >= 1 && q == x / t && q >= 1
    ensures t <= x <= 2 * t * q && (t - 1) * q < x
  {
    assert x == q * t + x % t;
    MulMono(t, 1, q);
    assert t * q == q * t;
    assert 2 * t * q == 2 * (q * t) by {
      MulAssoc(2, t, q);
    }
    assert (t - 1) * q == q * t - q;
  }

  lemma QuotientZero(x: nat, t: nat)
    requires t >= 1 && x / t < 1
    ensures x / t == 0 && x < t
  {
    assert x == x / t * t + x % t;
  }

  /** Silent for the delay, rising to full, full for the hold, falling, and then at the sustain level for good. */
  ghost predicate Plays(z: Baked, delay: nat, attack: nat, hold: nat, decay: nat, sustain: nat) {
    forall n: nat :: Follows(AdvanceN(Init(z), z, n).level, n, delay, attack, hold, decay, sustain)
  }

  predicate Follows(level: int, n: nat, delay: nat, attack: nat, hold: nat, decay: nat, sustain: nat) {
    var full := delay + attack;
    (n < delay ==> level == 0) && (n < full ==> level < FULL) && (full <= n <= full + hold ==> level == FULL) &&
    (full + hold < n < full + hold + decay ==> sustain <= level < FULL) &&
    (n >= full + hold + decay ==> level == sustain)
  }

  /** An envelope baked from the SoundFont's times plays by them: the delay and the hold to the tick, attack and
      decay between once and twice their time, or faster if there are fewer levels than ticks. */
  lemma BakedPlays(t: seq<nat>, delayTc: short, attackTc: short, holdTc: short, decayTc: short,
                   sustainCb: short, releaseTc: short)
    requires OctaveTable(t)
    ensures var z := BakeEnvelope(t, delayTc, attackTc, holdTc, decayTc, sustainCb, releaseTc);
            var a, d := AtLeast1(Least(AtLeast1(TimecentsToTicks(t, attackTc)), FULL)),
                        AtLeast1(Least(AtLeast1(TimecentsToTicks(t, decayTc)), FULL - CbToLevel(t, sustainCb)));
            WellFormed(z) && a <= AttackTicks(z) <= 2 * a && d <= DecayMax(z) <= 2 * d &&
            Plays(z, TimecentsToTicks(t, delayTc), AttackTicks(z), TimecentsToTicks(t, holdTc), DecayMax(z),
                  CbToLevel(t, sustainCb)) &&
            z.release == AtLeast1(TimecentsToTicks(t, releaseTc))
  {
    hide TimecentsToTicks, CbToLevel, Steps, AdvanceN;
    var z := BakeEnvelope(t, delayTc, attackTc, holdTc, decayTc, sustainCb, releaseTc);
    BakedIsWellFormed(t, delayTc, attackTc, holdTc, decayTc, sustainCb, releaseTc);
    LevelNonIncreasing(t, sustainCb, sustainCb);
    RampTiming(FULL, AtLeast1(TimecentsToTicks(t, attackTc)));
    RampTiming(FULL - CbToLevel(t, sustainCb), AtLeast1(TimecentsToTicks(t, decayTc)));
    forall n: nat
      ensures Follows(AdvanceN(Init(z), z, n).level, n, z.delay, AttackTicks(z), z.hold, DecayMax(z), z.sustain)
    {
      ShapeFollows(z, n);
    }
  }

  lemma {:induction false} ShapeFollows(z: Baked, n: nat)
    requires WellFormed(z)
    ensures Follows(AdvanceN(Init(z), z, n).level, n, z.delay, AttackTicks(z), z.hold, DecayMax(z), z.sustain)
  {
    hide AdvanceN, Steps;
    Shape(z, n);
    var decay := z.delay + AttackTicks(z) + z.hold;
    if decay < n < decay + DecayMax(z) {
      MulMono(z.decayRate, 1, n - decay);
      assert z.decayRate * (n - decay) == (n - decay) * z.decayRate;
    }
  }
}

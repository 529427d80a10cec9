/** One voice of the sample engine on its own: what a tick does to it, what always holds of it, and
    how many ticks it has left if nobody plays. */
module SmpVoiceState {
  import LittleEndian
  import opened SmpTables
  import opened SmpEnvelope
  import opened SmpOwnership

  const TURN := 0x1_0000_0000
  const STEAL_FADE_TICKS := 2
  const MAX_SUSTAIN_TICKS := 8000
  const NO_INDEX := 0xFF
  const CHANNELS := 16

  /** The tick counter wraps at 32 bits. */
  type Clock = x: int | 0 <= x < 0x1_0000_0000

  function Elapsed(now: Clock, since: Clock): nat { (now - since) % TURN }

  function Next(now: Clock): Clock { (now + 1) % TURN }

  datatype Zone = Zone(vol: Baked, mod: Baked, exclusiveClass: nat, looping: bool, sampleLength: nat)

  datatype Activity = Free | Playing | StealPending

  datatype Voice = Voice(activity: Activity, zone: Zone, ch: nat, note: int, held: bool, hwIndex: nat,
                         handle: Handle, vol: Env, mod: Env, age: Clock, sustainSince: Clock, sampleTicks: nat)

  /** A playing voice between ticks: envelopes in range and never finished, the sustain clock at rest
      outside Sustain, and never past the cap for a voice without a natural end. */
  predicate PlayingOk(v: Voice, now: Clock) {
    v.ch < CHANNELS && WellFormed(v.zone.vol) && WellFormed(v.zone.mod) && Ok(v.vol, v.zone.vol) && Ok(v.mod, v.zone.mod) &&
    !v.vol.stage.Off? && !v.vol.stage.Done? &&
    (v.vol.stage.Release? ==> ToDone(v.vol) <= ReleaseMax(v.zone.vol)) &&
    (v.sampleTicks == 0 ==>
       if v.vol.stage.Sustain? then Elapsed(now, v.sustainSince) <= MAX_SUSTAIN_TICKS
       else v.vol.stage.Release? || Elapsed(now, v.sustainSince) == 0)
  }

  predicate VoiceOk(v: Voice, now: Clock) {
    match v.activity
    case Free => true
    case Playing => PlayingOk(v, now)
    case StealPending => Elapsed(now, v.age) < STEAL_FADE_TICKS
  }

  /** Upper bound on the ticks until a voice's slot is free again. */
  function Remaining(v: Voice, now: Clock): nat
    requires VoiceOk(v, now)
  {
    match v.activity
    case Free => 0
    case StealPending => STEAL_FADE_TICKS - Elapsed(now, v.age)
    case Playing =>
      1 + STEAL_FADE_TICKS +
      if v.sampleTicks > 0 then v.sampleTicks
      else if v.vol.stage.Release? then ToDone(v.vol)
      else if v.vol.stage.Sustain? then MAX_SUSTAIN_TICKS + 1 - Elapsed(now, v.sustainSince) + ReleaseMax(v.zone.vol)
      else ToSustain(v.vol, v.zone.vol) + MAX_SUSTAIN_TICKS + 1 + ReleaseMax(v.zone.vol)
  }

  /** The bound in terms of the zone alone: the sample's length for a tracked one-shot; else delay,
      attack, hold, decay, the sustain cap, the release and the fade. */
  function SilenceBound(v: Voice): nat
    requires WellFormed(v.zone.vol)
  {
    1 + STEAL_FADE_TICKS +
    if v.sampleTicks > 0 then v.sampleTicks
    else
      v.zone.vol.delay + Steps(FULL, v.zone.vol.attackRate) + v.zone.vol.hold + DecayMax(v.zone.vol)
      + MAX_SUSTAIN_TICKS + 1 + ReleaseMax(v.zone.vol)
  }

  lemma RemainingBound(v: Voice, now: Clock)
    requires VoiceOk(v, now) && v.activity.Playing?
    ensures Remaining(v, now) <= SilenceBound(v)
  {
    if v.sampleTicks == 0 {
      match v.vol.stage
      case Attack => StepsMono(FULL - v.vol.level, FULL, v.zone.vol.attackRate);
      case Decay => StepsMono(v.vol.level - v.vol.target, FULL - v.zone.vol.sustain, v.zone.vol.decayRate);
      case _ =>
    }
  }

  /** The body of the tick for one playing voice, up to the decision whether it is done.  The counter
      has already advanced. */
  function Played(v: Voice, now: Clock): Voice {
    var v1 := if v.sampleTicks > 0 then
                var left := v.sampleTicks - 1;
                if left == 0 then v.(sampleTicks := 0, vol := v.vol.(stage := Done, level := 0))
                else v.(sampleTicks := left)
              else v;
    var v2 := v1.(vol := Advance(v1.vol, v.zone.vol), mod := Advance(v1.mod, v.zone.mod));
    if !v2.vol.stage.Sustain? then v2.(sustainSince := now)
    else if v2.sampleTicks == 0 && Elapsed(now, v2.sustainSince) > MAX_SUSTAIN_TICKS then
      v2.(vol := StartRelease(v2.vol, v.zone.vol.release), mod := StartRelease(v2.mod, v.zone.mod.release))
    else v2
  }

  lemma OneLater(now: Clock, since: Clock)
    requires Elapsed(now, since) < TURN - 1
    ensures Elapsed(Next(now), since) == Elapsed(now, since) + 1
    ensures Elapsed(now, now) == 0
  {
  }

  lemma TrackedPlays(v: Voice, now: Clock)
    requires PlayingOk(v, now) && v.sampleTicks > 0
    ensures var v' := Played(v, Next(now));
            v'.vol.stage.Done? || (PlayingOk(v', Next(now)) && v'.sampleTicks == v.sampleTicks - 1 > 0)
  {
    hide Ok, WellFormed, ToDone, ToSustain, Steps, Elapsed;
    OkSteps(v.vol, v.zone.vol, 0);
    OkSteps(v.mod, v.zone.mod, 0);
    if v.vol.stage.Release? {
      TowardDone(v.vol, v.zone.vol);
    } else if !v.vol.stage.Sustain? {
      TowardSustain(v.vol, v.zone.vol);
    }
  }

  lemma SustainedPlays(v: Voice, now: Clock)
    requires PlayingOk(v, now) && v.sampleTicks == 0 && v.vol.stage.Sustain?
    ensures var v' := Played(v, Next(now));
            PlayingOk(v', Next(now)) && v'.sampleTicks == 0 &&
            (if Elapsed(now, v.sustainSince) == MAX_SUSTAIN_TICKS then v'.vol.stage.Release?
             else v'.vol.stage.Sustain? && Elapsed(Next(now), v'.sustainSince) == Elapsed(now, v.sustainSince) + 1)
  {
    hide Steps;
    OkSteps(v.vol, v.zone.vol, v.zone.vol.release);
    OkSteps(v.mod, v.zone.mod, 0);
    OkSteps(Advance(v.mod, v.zone.mod), v.zone.mod, v.zone.mod.release);
    OneLater(now, v.sustainSince);
    ReleaseBound(v.vol, v.zone.vol);
  }

  lemma EarlyPlays(v: Voice, now: Clock)
    requires v.activity.Playing? && PlayingOk(v, now) && v.sampleTicks == 0 && !v.vol.stage.Sustain?
    ensures var v' := Played(v, Next(now));
            v'.vol.stage.Done? ||
            (v'.activity.Playing? && PlayingOk(v', Next(now)) && v'.sampleTicks == 0 &&
             Remaining(v', Next(now)) < Remaining(v, now))
  {
    hide Steps;
    OkSteps(v.vol, v.zone.vol, 0);
    OkSteps(v.mod, v.zone.mod, 0);
    if v.vol.stage.Release? {
      TowardDone(v.vol, v.zone.vol);
    } else {
      TowardSustain(v.vol, v.zone.vol);
      OneLater(now, v.sustainSince);
    }
    OneLater(Next(now), Next(now));
  }

  /** A tick either finishes a playing voice or leaves it in order with less time left. */
  lemma PlayedProgress(v: Voice, now: Clock)
    requires PlayingOk(v, now) && v.activity.Playing?
    ensures var v' := Played(v, Next(now));
            v'.vol.stage.Done? ||
            (VoiceOk(v', Next(now)) && v'.activity.Playing? && Remaining(v', Next(now)) < Remaining(v, now))
  {
    if v.sampleTicks > 0 {
      TrackedPlays(v, now);
    } else if v.vol.stage.Sustain? {
      SustainedPlays(v, now);
    } else {
      EarlyPlays(v, now);
    }
  }

  lemma PlayingTakesLonger(v: Voice, now: Clock)
    requires v.activity.Playing? && VoiceOk(v, now)
    ensures Remaining(v, now) > STEAL_FADE_TICKS
  {
    hide Steps;
  }

  /** A voice whose fade starts now, or goes on fading, is in order and loses a tick. */
  lemma FadingProgress(v: Voice, now: Clock)
    ensures VoiceOk(v.(activity := StealPending, age := now), now)
    ensures Remaining(v.(activity := StealPending, age := now), now) == STEAL_FADE_TICKS
    ensures v.activity.StealPending? && VoiceOk(v, now) && Elapsed(Next(now), v.age) < STEAL_FADE_TICKS ==>
              VoiceOk(v, Next(now)) && Remaining(v, Next(now)) < Remaining(v, now)
  {
    OneLater(now, now);
    if v.activity.StealPending? && VoiceOk(v, now) {
      OneLater(now, v.age);
    }
  }

  /** Note-off and the sustain pedal. */
  function Released(v: Voice): Voice {
    v.(vol := StartRelease(v.vol, v.zone.vol.release), mod := StartRelease(v.mod, v.zone.mod.release))
  }

  lemma ReleasedOk(v: Voice, now: Clock)
    requires v.activity.Playing? && VoiceOk(v, now)
    ensures VoiceOk(Released(v), now)
  {
    hide Steps;
    OkSteps(v.vol, v.zone.vol, v.zone.vol.release);
    OkSteps(v.mod, v.zone.mod, v.zone.mod.release);
    ReleaseBound(v.vol, v.zone.vol);
  }

  /** A fresh voice, its volume envelope already one tick in. */
  function Fresh(zone: Zone, ch: nat, note: int, now: Clock, hwIndex: nat, handle: Handle, sampleTicks: nat): Voice {
    Voice(Playing, zone, ch, note, false, hwIndex, handle, Advance(Init(zone.vol), zone.vol), Init(zone.mod),
          now, now, sampleTicks)
  }

  lemma FreshOk(zone: Zone, ch: nat, note: int, now: Clock, hwIndex: nat, handle: Handle, sampleTicks: nat)
    requires WellFormed(zone.vol) && WellFormed(zone.mod) && ch < CHANNELS
    ensures VoiceOk(Fresh(zone, ch, note, now, hwIndex, handle, sampleTicks), now)
  {
    OkSteps(Init(zone.vol), zone.vol, 0);
    OkSteps(Init(zone.mod), zone.mod, 0);
    if zone.vol.delay > 0 || zone.vol.attackRate < FULL {
      TowardSustain(Init(zone.vol), zone.vol);
    }
  }

  /** Frames times 65536 that n ticks play at a rate: 48 frames of output a tick, each a step of the rate. */
  function Consumed(rate: nat, n: nat): nat { 48 * rate * n }

  function WholeTicks(sampleLength: nat, rate: nat): nat
    requires rate > 0
  {
    var num, den := sampleLength * 393216, rate * 240;
    QuotientBelow(num, den);
    num / den
  }

  /** Ticks until a one-shot sample has played to its end, with a fifth of headroom; 0 if it loops or
      cannot be tracked. */
  function SampleTicks(zone: Zone, rate: nat): nat {
    if zone.looping || rate == 0 || zone.sampleLength == 0 then 0
    else
      var ticks := WholeTicks(zone.sampleLength, rate);
      if ticks < 1 then 1 else if ticks > 0x7FFF_FFFF then 0x7FFF_FFFF else ticks
  }

  /** A tracked one-shot's ticks are those of its sample's length and a fifth more, to the tick. */
  lemma TicksCoverSample(zone: Zone, rate: nat)
    ensures SampleTicks(zone, rate) == 0 <==> zone.looping || rate == 0 || zone.sampleLength == 0
    ensures var ticks, length := SampleTicks(zone, rate), 65536 * zone.sampleLength;
            ticks <= 0x7FFF_FFFF && (ticks > 1 ==> 5 * Consumed(rate, ticks) <= 6 * length) &&
            (0 < ticks < 0x7FFF_FFFF ==> 6 * length < 5 * Consumed(rate, ticks + 1))
    ensures var ticks, length := SampleTicks(zone, rate), 65536 * zone.sampleLength;
            5 <= ticks < 0x7FFF_FFFF ==> Consumed(rate, ticks) > length
  {
    hide Consumed, WholeTicks;
    if !(zone.looping || rate == 0 || zone.sampleLength == 0) {
      WholeTicksAre(zone.sampleLength, rate);
      var q := WholeTicks(zone.sampleLength, rate);
      TicksCover(65536 * zone.sampleLength, rate, q);
      MoreConsumed(rate, q + 1, 2);
      MoreConsumed(rate, 0x7FFF_FFFF, q);
    }
  }

  lemma WholeTicksAre(sampleLength: nat, rate: nat)
    requires rate > 0
    ensures WholeTicks(sampleLength, rate) == 6 * (65536 * sampleLength) / (rate * 240)
  {
    assert sampleLength * 393216 == 6 * (65536 * sampleLength);
  }

  lemma TicksCover(length: nat, rate: nat, q: nat)
    requires rate > 0 && q == 6 * length / (rate * 240)
    ensures 5 * Consumed(rate, q) <= 6 * length < 5 * Consumed(rate, q + 1)
    ensures q >= 5 ==> Consumed(rate, q) > length
  {
    hide Consumed;
    var den := rate * 240;
    assert 6 * length == q * den + 6 * length % den;
    assert (q + 1) * den == q * den + den;
    RateProduct(rate, q);
    RateProduct(rate, q + 1);
    if q >= 5 {
      LittleEndian.MulMono(den, 5, q);
      assert den * q == q * den;
    }
  }

  lemma MoreConsumed(rate: nat, m: nat, n: nat)
    ensures m <= n ==> Consumed(rate, m) <= Consumed(rate, n)
  {
    LittleEndian.MulMono(48 * rate, m, n);
  }

  lemma RateProduct(rate: nat, n: nat)
    ensures n * (rate * 240) == 5 * Consumed(rate, n)
  {
    assert rate * 240 == 5 * (48 * rate);
    LittleEndian.MulAssoc(n, 5, 48 * rate);
    LittleEndian.MulAssoc(5, n, 48 * rate);
  }
}

/** The life of one note: key down, tick after tick, key up with or without the pedal, and the end.  What the
    engine's ticks make of its slot, while the hardware voice sounds, is what its zone's envelopes say. */
module SmpNoteLife {
  import opened LittleEndian
  import opened SmpOwnership
  import opened SmpEnvelope
  import opened SmpVoiceState
  import opened SmpPasses
  import opened SmpVoices

  function Later(now: Clock, n: nat): Clock { (now + n) % TURN }

  /** n ticks of a voice; silent tells of each whether the mixer has finished with it already. */
  function Lives(v: Voice, now: Clock, n: nat, silent: nat -> bool): Voice {
    if n == 0 then v else Ticked(Lives(v, now, n - 1, silent), true, silent(n), Later(now, n))
  }

  lemma LaterElapsed(now: Clock, m: nat, n: nat)
    requires m <= n < m + TURN
    ensures Elapsed(Later(now, n), Later(now, m)) == n - m && Later(now, 0) == now
  {
    var a, b := (now + n) / TURN, (now + m) / TURN;
    var x := Later(now, n) - Later(now, m);
    assert now + n == a * TURN + Later(now, n) && now + m == b * TURN + Later(now, m);
    assert n - m == (a - b) * TURN + x;
  }

  // ---- a held key ----

  /** The tick of the volume envelope from which on it stands at the sustain level. */
  function SustainFrom(z: Baked): (n: nat)
    requires WellFormed(z)
    ensures n >= 2
  {
    z.delay + AttackTicks(z) + z.hold + DecayMax(z)
  }

  /** How long a held note goes on: to the end of a tracked sample, else until the sustain cap. */
  function HeldFor(zone: Zone, sampleTicks: nat): nat
    requires WellFormed(zone.vol)
  {
    if sampleTicks > 0 then sampleTicks else SustainFrom(zone.vol) + MAX_SUSTAIN_TICKS - 1
  }

  /** The new voice n ticks later, with its key held down. */
  function HeldAt(v: Voice, now: Clock, n: nat): Voice
    requires WellFormed(v.zone.vol)
  {
    v.(vol := AdvanceN(Init(v.zone.vol), v.zone.vol, n + 1), mod := AdvanceN(Init(v.zone.mod), v.zone.mod, n),
       sustainSince := Later(now, if n < SustainFrom(v.zone.vol) - 2 then n else SustainFrom(v.zone.vol) - 2),
       sampleTicks := if v.sampleTicks > 0 && n <= v.sampleTicks then v.sampleTicks - n else 0)
  }

  predicate IsNew(v: Voice, now: Clock) {
    WellFormed(v.zone.vol) && WellFormed(v.zone.mod) &&
    v == Fresh(v.zone, v.ch, v.note, now, v.hwIndex, v.handle, v.sampleTicks)
  }

  lemma HeldStep(v: Voice, now: Clock, n: nat, silent: bool)
    requires IsNew(v, now) && n + 1 < HeldFor(v.zone, v.sampleTicks)
    ensures Ticked(HeldAt(v, now, n), true, silent, Later(now, n + 1)) == HeldAt(v, now, n + 1)
  {
    hide AdvanceN, Advance, Init, SustainFrom;
    var z := v.zone.vol;
    NextTick(Init(z), z, n + 1);
    NextTick(Init(v.zone.mod), v.zone.mod, n);
    StageAt(z, n + 2);
    if v.sampleTicks == 0 {
      LaterElapsed(now, if n + 1 < SustainFrom(z) - 2 then n + 1 else SustainFrom(z) - 2, n + 1);
    }
    hide Elapsed, Later;
  }

  lemma {:induction false} NextTick(e: Env, z: Baked, n: nat)
    ensures AdvanceN(e, z, n + 1) == Advance(AdvanceN(e, z, n), z)
  {
    AdvanceAdds(e, z, n, 1);
    assert AdvanceN(AdvanceN(e, z, n), z, 1) == AdvanceN(Advance(AdvanceN(e, z, n), z), z, 0);
  }

  lemma {:induction false} NoTick(e: Env, z: Baked)
    ensures AdvanceN(e, z, 0) == e
  {
  }

  lemma {:induction false} StageAt(z: Baked, n: nat)
    requires WellFormed(z)
    ensures var e := AdvanceN(Init(z), z, n);
            (e.stage.Sustain? <==> n >= SustainFrom(z)) && !e.stage.Done? && !e.stage.Off? && !e.stage.Release?
  {
    hide AdvanceN, AttackTicks, DecayMax;
    Shape(z, n);
  }

  /** A key that is held down plays its zone's envelopes, tick for tick and both of them, and nothing else
      about its voice changes. */
  lemma {:induction false} HeldNote(v: Voice, now: Clock, n: nat, silent: nat -> bool)
    requires IsNew(v, now) && n < HeldFor(v.zone, v.sampleTicks)
    ensures Lives(v, now, n, silent) == HeldAt(v, now, n)
  {
    hide Ticked, HeldAt, HeldFor;
    if n == 0 {
      HeldAtFirst(v, now);
    } else {
      HeldNote(v, now, n - 1, silent);
      HeldStep(v, now, n - 1, silent(n));
    }
  }

  lemma {:induction false} HeldAtFirst(v: Voice, now: Clock)
    requires IsNew(v, now)
    ensures HeldAt(v, now, 0) == v
  {
    LaterElapsed(now, 0, 0);
    NextTick(Init(v.zone.vol), v.zone.vol, 0);
  }

  /** So it sounds as the zone says: silence for the delay, the rise, full level, the fall, the sustain level. */
  lemma {:induction false} HeldNoteSounds(v: Voice, now: Clock, n: nat, silent: nat -> bool)
    requires IsNew(v, now) && n < HeldFor(v.zone, v.sampleTicks)
    ensures var u, z := Lives(v, now, n, silent), v.zone.vol;
            u.activity.Playing? && u.ch == v.ch && u.note == v.note && u.handle == v.handle && u.held == v.held == false &&
            Follows(u.vol.level, n + 1, z.delay, AttackTicks(z), z.hold, DecayMax(z), z.sustain)
    ensures var u, z := Lives(v, now, n, silent), v.zone.mod;
            Follows(u.mod.level, n, z.delay, AttackTicks(z), z.hold, DecayMax(z), z.sustain)
  {
    hide Lives, AdvanceN, Follows, AttackTicks, DecayMax, HeldFor, Advance, Init;
    HeldNote(v, now, n, silent);
    ShapeFollows(v.zone.vol, n + 1);
    ShapeFollows(v.zone.mod, n);
  }

  /** A tracked sample's note stops when the sample is over, with its key still down. */
  lemma TrackedNoteEnds(v: Voice, now: Clock, silent: nat -> bool)
    requires IsNew(v, now) && v.sampleTicks > 0
    ensures var u := Lives(v, now, v.sampleTicks, silent);
            !u.activity.Playing? && u.vol.level == 0 && (u.activity.StealPending? ==> u.age == Later(now, v.sampleTicks))
  {
    hide AdvanceN, Init, Later;
    HeldNote(v, now, v.sampleTicks - 1, silent);
  }

  /** Any other is let go at the sustain cap, as if its key had come up then. */
  lemma {:induction false} HeldNoteIsLetGo(v: Voice, now: Clock, silent: nat -> bool)
    requires IsNew(v, now) && v.sampleTicks == 0
    ensures var n := HeldFor(v.zone, 0);
            Lives(v, now, n, silent) ==
            Released(v.(vol := AdvanceN(Init(v.zone.vol), v.zone.vol, n + 1), mod := AdvanceN(Init(v.zone.mod), v.zone.mod, n),
                        sustainSince := Later(now, SustainFrom(v.zone.vol) - 2)))
    ensures AdvanceN(Init(v.zone.vol), v.zone.vol, HeldFor(v.zone, 0) + 1).level == v.zone.vol.sustain
  {
    hide AdvanceN, Advance, Init, AttackTicks, DecayMax;
    var z, n := v.zone.vol, HeldFor(v.zone, 0);
    HeldNote(v, now, n - 1, silent);
    NextTick(Init(z), z, n);
    NextTick(Init(v.zone.mod), v.zone.mod, n - 1);
    StageAt(z, n + 1);
    Shape(z, n + 1);
    LaterElapsed(now, SustainFrom(z) - 2, n);
    hide Elapsed, Later, SustainFrom;
  }

  // ---- a key let go ----

  predicate MayGo(v: Voice, n: nat) { v.sampleTicks == 0 || n < v.sampleTicks }

  /** A voice that was let go runs down both envelopes from where they are. */
  lemma {:induction false} ReleasedNote(v: Voice, now: Clock, n: nat, silent: nat -> bool)
    requires v.activity.Playing? && PlayingOk(v, now)
    requires n < ToDone(Released(v).vol) && MayGo(v, n)
    ensures var u, r := Lives(Released(v), now, n, silent), Released(v);
            u == r.(vol := AdvanceN(r.vol, v.zone.vol, n), mod := AdvanceN(r.mod, v.zone.mod, n),
                    sustainSince := u.sustainSince, sampleTicks := u.sampleTicks) &&
            u.sampleTicks == if v.sampleTicks > 0 then v.sampleTicks - n else 0
  {
    hide AdvanceN, Advance, ToDone, Elapsed, Later;
    ReleasedIs(v, now);
    NoTick(Released(v).vol, v.zone.vol);
    NoTick(Released(v).mod, v.zone.mod);
    if n > 0 {
      ReleasedNote(v, now, n - 1, silent);
      var r := Released(v);
      NextTick(r.vol, v.zone.vol, n - 1);
      NextTick(r.mod, v.zone.mod, n - 1);
      ReleaseRuns(r.vol, v.zone.vol, n);
      hide Released, PlayingOk;
    }
  }

  lemma ReleasedIs(v: Voice, now: Clock)
    requires v.activity.Playing? && PlayingOk(v, now)
    ensures var r := Released(v);
            r.vol.stage.Release? && r.vol.rate >= 1 && Ok(r.vol, v.zone.vol) && r.activity.Playing? && r.zone == v.zone &&
            r.sampleTicks == v.sampleTicks && r.vol.level == v.vol.level && WellFormed(v.zone.vol)
  {
    OkSteps(v.vol, v.zone.vol, v.zone.vol.release);
  }

  /** Its level falls in a straight line that would take it to silence in no less than the release time, and in
      less than that by a step of one level a tick; then its slot fades and is free. */
  lemma {:induction false} ReleasedNoteSounds(v: Voice, now: Clock, n: nat, silent: nat -> bool)
    requires v.activity.Playing? && PlayingOk(v, now) && MayGo(v, n)
    ensures var u, rate := Lives(Released(v), now, n, silent), Released(v).vol.rate;
            (n < ToDone(Released(v).vol) ==> u.activity.Playing? && u.vol.level == v.vol.level - n * rate) &&
            (n == ToDone(Released(v).vol) ==> !u.activity.Playing?)
    ensures var rate, ticks := Released(v).vol.rate, if v.zone.vol.release < 1 then 1 else v.zone.vol.release;
            if v.vol.level < ticks then rate == 1 else rate * ticks <= v.vol.level < (rate + 1) * ticks
  {
    hide AdvanceN, Advance, Lives, ToDone, Released;
    ReleasedIs(v, now);
    var r := Released(v);
    ReleaseSlopeOf(v, now);
    ReleaseRuns(r.vol, v.zone.vol, n);
    if n < ToDone(r.vol) {
      ReleasedNote(v, now, n, silent);
    } else if n == ToDone(r.vol) {
      ReleasedNoteEnds(v, now, n, silent);
    }
  }

  lemma ReleaseSlopeOf(v: Voice, now: Clock)
    requires PlayingOk(v, now)
    ensures var rate, ticks := Released(v).vol.rate, if v.zone.vol.release < 1 then 1 else v.zone.vol.release;
            if v.vol.level < ticks then rate == 1 else rate * ticks <= v.vol.level < (rate + 1) * ticks
  {
    hide StartRelease;
    ReleaseSlope(v.vol, v.zone.vol.release);
  }

  lemma {:induction false} ReleasedNoteEnds(v: Voice, now: Clock, n: nat, silent: nat -> bool)
    requires v.activity.Playing? && PlayingOk(v, now) && MayGo(v, n) && n == ToDone(Released(v).vol)
    ensures !Lives(Released(v), now, n, silent).activity.Playing?
  {
    hide AdvanceN, Advance, Released, Elapsed, Later, PlayingOk;
    var r := Released(v);
    ReleasedIs(v, now);
    ReleasedNote(v, now, n - 1, silent);
    NextTick(r.vol, v.zone.vol, n - 1);
    ReleaseRuns(r.vol, v.zone.vol, n);
  }

  // ---- the pedal ----

  /** Under the pedal a note that was let go sounds on as if its key were down. */
  lemma {:induction false} PedalHolds(v: Voice, now: Clock, n: nat, silent: nat -> bool)
    requires v.activity.Playing?
    ensures LetUp(v, v.ch, v.note, true) == v.(held := true)
    ensures Lives(v.(held := true), now, n, silent) == Lives(v, now, n, silent).(held := true)
  {
    hide Ticked;
    if n > 0 {
      PedalHolds(v, now, n - 1, silent);
      HeldIsIdle(Lives(v, now, n - 1, silent), silent(n), Later(now, n));
    }
  }

  lemma HeldIsIdle(v: Voice, silent: bool, now: Clock)
    ensures Ticked(v.(held := true), true, silent, now) == Ticked(v, true, silent, now).(held := true)
  {
    hide Advance, StartRelease, Elapsed;
  }

  /** When the pedal comes up, exactly the notes of its channel whose keys came up meanwhile are let go, just as
      their keys would have let them go; a key that is still down plays on. */
  lemma PedalReleases(v: Voice, ch: int)
    requires v.activity.Playing? && !v.held
    ensures Unheld(LetUp(v, v.ch, v.note, true), v.ch) == LetUp(v, v.ch, v.note, false) == Released(v)
    ensures Unheld(v, ch) == v
    ensures ch != v.ch ==> Unheld(v.(held := true), ch) == v.(held := true)
  {
    hide StartRelease;
  }

  /** Note-off lets go of its own key's voices only. */
  lemma OtherKeysPlayOn(v: Voice, ch: int, note: int, pedal: bool)
    requires v.activity.Playing?
    ensures LetUp(v, ch, note, pedal) == v <== v.ch != ch || v.note != note
    ensures LetUp(v, v.ch, v.note, pedal) == if pedal then v.(held := true) else Released(v)
  {
    hide StartRelease;
  }

  /** A new note forces off the voices of its channel and exclusive class, if it has one.  Of the others it lets go
      those of the same key, as note-off would, except on the drum channel, and leaves the rest alone. */
  lemma StruckAgain(v: Voice, zone: Zone, ch: int, note: int, live: bool, now: Clock)
    requires v.activity.Playing?
    ensures var u := MakesWay(v, zone, ch, note, live, now);
            if v.ch == ch && zone.exclusiveClass == v.zone.exclusiveClass != 0 then
              u.activity == (if live then StealPending else Free) && (live ==> u.handle == v.handle && u.age == now)
            else u == if v.ch == ch && v.note == note && ch != DRUMS then LetUp(v, ch, note, false) else v
  {
    hide StartRelease;
  }
}

/** The loops of the voice engine as functions of the whole state, slot after slot, and what a whole
    pass does to each voice. */
module SmpPasses {
  import opened SmpEnvelope
  import opened SmpOwnership
  import opened SmpVoiceState
  import opened SmpSynth

  /** Two states with the same voices, entries and mixer sizes. */
  predicate Alike(s: Synth, s': Synth) {
    |s.voices| == |s'.voices| && s.ticks == s'.ticks && s.handles == s'.handles && s.pending == s'.pending
  }

  // ---- voices whose fade is over ----

  predicate FadedOut(v: Voice, now: Clock) {
    v.activity.StealPending? && Elapsed(now, v.age) >= STEAL_FADE_TICKS
  }

  function Swept(v: Voice, now: Clock): Voice { if FadedOut(v, now) then Freed(v) else v }

  function Sweep(s: Synth, i: nat, now: Clock): (s': Synth)
    requires i <= |s.voices|
    ensures |s'.voices| == |s.voices| && (Sized(s) ==> Sized(s'))
    decreases i
  {
    if i == 0 then s
    else
      var p := Sweep(s, i - 1, now);
      if FadedOut(p.voices[i - 1], now) then VoiceFreed(p, i - 1) else p
  }

  lemma SweepAt(s: Synth, i: nat, now: Clock)
    requires i <= |s.voices|
    ensures Sweep(s, 0, now) == s
    ensures i < |s.voices| ==>
              var p := Sweep(s, i, now);
              Sweep(s, i + 1, now) == if FadedOut(p.voices[i], now) then VoiceFreed(p, i) else p
  {
  }

  lemma {:induction false} SweepKeeps(s: Synth, known: bool, hw0: seq<HwSlot>, i: nat, now: Clock)
    requires Sound(s, known) && Clean(s, hw0) && i <= |s.voices|
    ensures var s' := Sweep(s, i, now); Sound(s', known) && Clean(s', hw0) && Alike(s, s')
    ensures forall j :: 0 <= j < |s.voices| ==>
              Sweep(s, i, now).voices[j] == if j < i then Swept(s.voices[j], now) else s.voices[j]
    decreases i
  {
    hide Sound, Clean, Stopped;
    if i > 0 {
      SweepKeeps(s, known, hw0, i - 1, now);
      FreeVoice(Sweep(s, i - 1, now), known, hw0, i - 1);
    }
  }

  /** Nobody fades: the scan finds nothing, so it may be skipped. */
  lemma {:induction false} SkippedSweep(s: Synth, i: nat, now: Clock)
    requires i <= |s.voices| && Fading(s.voices) == 0
    ensures Sweep(s, i, now) == s
    decreases i
  {
    if i > 0 {
      SkippedSweep(s, i - 1, now);
      assert s.voices[i - 1] in s.voices;
    }
  }

  // ---- entries ----

  /** voice_cleanup_reclaimed: an entry whose countdown ends, or any entry at once, is stopped. */
  function AgedAt(s: Synth, r: nat, immediate: bool): Synth
    requires Sized(s) && r < MIXER_VOICES
  {
    if !s.pending[r] then s
    else if immediate then EntryFreed(s, r)
    else if s.ticks[r] > 1 then s.(ticks := s.ticks[r := s.ticks[r] - 1])
    else EntryFreed(s.(ticks := s.ticks[r := 0]), r)
  }

  lemma AgedKeeps(s: Synth, known: bool, hw0: seq<HwSlot>, r: nat, immediate: bool)
    requires Sound(s, known) && Clean(s, hw0) && r < MIXER_VOICES
    ensures var s' := AgedAt(s, r, immediate); Sound(s', known) && Clean(s', hw0)
  {
    if s.pending[r] {
      if !immediate && s.ticks[r] > 1 {
        hide Owned, KeptOnly;
        AgeEntry(s, known, r, s.ticks[r] - 1);
      } else {
        hide Owned, KeptOnly, Stopped;
        FreeEntry(s, known, hw0, r);
        if !immediate {
          var s' := AgedAt(s, r, immediate);
          assert Held(s') == Held(EntryFreed(s, r));
        }
      }
    }
  }

  /** An entry after the pass has been at it. */
  predicate AgedEntry(s: Synth, s': Synth, q: nat, immediate: bool)
    requires Sized(s) && Sized(s') && q < MIXER_VOICES
  {
    s'.pending[q] == (s.pending[q] && !immediate && s.ticks[q] > 1) &&
    (s'.pending[q] ==> s'.ticks[q] == s.ticks[q] - 1)
  }

  predicate SameEntry(s: Synth, s': Synth, q: nat)
    requires Sized(s) && Sized(s') && q < MIXER_VOICES
  {
    s'.pending[q] == s.pending[q] && s'.ticks[q] == s.ticks[q]
  }

  lemma AgedAtIs(s: Synth, r: nat, immediate: bool)
    requires Sized(s) && r < MIXER_VOICES
    ensures var s' := AgedAt(s, r, immediate);
            Sized(s') && s'.voices == s.voices && s'.handles == s.handles && AgedEntry(s, s', r, immediate) &&
            forall q :: 0 <= q < MIXER_VOICES && q != r ==> SameEntry(s, s', q)
  {
  }

  function Age(s: Synth, r: nat, immediate: bool): (s': Synth)
    requires Sized(s) && r <= MIXER_VOICES
    ensures Sized(s') && s'.voices == s.voices
    decreases r
  {
    if r == 0 then s else AgedAt(Age(s, r - 1, immediate), r - 1, immediate)
  }

  lemma AgeAt(s: Synth, r: nat, immediate: bool)
    requires Sized(s) && r <= MIXER_VOICES
    ensures Age(s, 0, immediate) == s
    ensures r < MIXER_VOICES ==> Age(s, r + 1, immediate) == AgedAt(Age(s, r, immediate), r, immediate)
  {
  }

  lemma {:induction false} AgeKeeps(s: Synth, known: bool, hw0: seq<HwSlot>, r: nat, immediate: bool)
    requires Sound(s, known) && Clean(s, hw0) && r <= MIXER_VOICES
    ensures var s' := Age(s, r, immediate);
            Sound(s', known) && Clean(s', hw0) && s'.voices == s.voices && s'.handles == s.handles
    ensures forall q :: 0 <= q < MIXER_VOICES ==>
              if q < r then AgedEntry(s, Age(s, r, immediate), q, immediate) else SameEntry(s, Age(s, r, immediate), q)
    decreases r
  {
    hide Clean, AgedAt, Owned, VoiceSound, EntrySound, Held;
    if r > 0 {
      AgeKeeps(s, known, hw0, r - 1, immediate);
      var p := Age(s, r - 1, immediate);
      AgedKeeps(p, known, hw0, r - 1, immediate);
      AgedAtIs(p, r - 1, immediate);
      forall q | 0 <= q < MIXER_VOICES
        ensures if q < r then AgedEntry(s, Age(s, r, immediate), q, immediate)
                else SameEntry(s, Age(s, r, immediate), q)
      {
        assert if q < r - 1 then AgedEntry(s, p, q, immediate) else SameEntry(s, p, q);
        assert q != r - 1 ==> SameEntry(p, AgedAt(p, r - 1, immediate), q);
      }
    }
  }

  // ---- voices that are forced off ----

  function Dimmed(v: Voice, live: bool, now: Clock): Voice {
    if live then v.(activity := StealPending, age := now) else Freed(v)
  }

  /** Every playing voice that the condition singles out is forced off. */
  function Force(s: Synth, i: nat, hit: Voice -> bool, now: Clock): (s': Synth)
    requires i <= |s.voices|
    ensures |s'.voices| == |s.voices| && s'.hw == s.hw
    decreases i
  {
    if i == 0 then s
    else
      var p := Force(s, i - 1, hit, now);
      if p.voices[i - 1].activity.Playing? && hit(p.voices[i - 1]) then ForcedOff(p, i - 1, now) else p
  }

  lemma ForceAt(s: Synth, i: nat, hit: Voice -> bool, now: Clock)
    requires i <= |s.voices|
    ensures Force(s, 0, hit, now) == s
    ensures i < |s.voices| ==>
              var p := Force(s, i, hit, now);
              Force(s, i + 1, hit, now) ==
              if p.voices[i].activity.Playing? && hit(p.voices[i]) then ForcedOff(p, i, now) else p
  {
  }

  lemma {:induction false} ForceKeeps(s: Synth, known: bool, hw0: seq<HwSlot>, i: nat, hit: Voice -> bool, now: Clock)
    requires Sound(s, known) && Clean(s, hw0) && i <= |s.voices|
    ensures var s' := Force(s, i, hit, now); Sound(s', known) && Clean(s', hw0) && Alike(s, s')
    ensures forall j :: 0 <= j < |s.voices| ==>
              var v := s.voices[j];
              Force(s, i, hit, now).voices[j] ==
              if j < i && v.activity.Playing? && hit(v) then Dimmed(v, Live(v.handle, s.hw), now) else v
    decreases i
  {
    hide Sound, Clean, Live;
    if i > 0 {
      ForceKeeps(s, known, hw0, i - 1, hit, now);
      var p := Force(s, i - 1, hit, now);
      if p.voices[i - 1].activity.Playing? {
        ForceOffKeeps(p, known, hw0, i - 1, now);
      }
    }
  }

  lemma {:induction false} ForceNobody(s: Synth, i: nat, hit: Voice -> bool, now: Clock)
    requires i <= |s.voices| && forall v :: !hit(v)
    ensures Force(s, i, hit, now) == s
    decreases i
  {
    if i > 0 {
      ForceNobody(s, i - 1, hit, now);
    }
  }

  lemma {:induction false} ForceOkay(s: Synth, known: bool, hit: Voice -> bool, now: Clock)
    requires Sound(s, known) && AllOk(s.voices, now)
    ensures AllOk(Force(s, |s.voices|, hit, now).voices, now)
  {
    hide Sound, Clean, Live, PlayingOk;
    CleanAtFirst(s, known);
    ForceKeeps(s, known, s.hw, |s.voices|, hit, now);
    forall j | 0 <= j < |s.voices|
      ensures VoiceOk(Force(s, |s.voices|, hit, now).voices[j], now)
    {
      FadingProgress(s.voices[j], now);
      assert VoiceOk(s.voices[j], now);
    }
  }

  // ---- the tick's loop ----

  function Play(s: Synth, i: nat, now: Clock, silent: seq<bool>): (s': Synth)
    requires i <= |s.voices| == |silent|
    ensures |s'.voices| == |s.voices|
    decreases i
  {
    if i == 0 then s else TickedAt(Play(s, i - 1, now, silent), i - 1, now, silent[i - 1])
  }

  lemma PlayAt(s: Synth, i: nat, now: Clock, silent: seq<bool>)
    requires i <= |s.voices| == |silent|
    ensures Play(s, 0, now, silent) == s
    ensures i < |s.voices| ==> Play(s, i + 1, now, silent) == TickedAt(Play(s, i, now, silent), i, now, silent[i])
  {
  }

  /** What the loop makes of one voice; live says whether it still sounds. */
  function PlayedOn(v: Voice, live: bool, silent: bool, now: Clock): Voice {
    if !v.activity.Playing? then v
    else
      var p := Played(v, now);
      if !live then Freed(v)
      else if !p.vol.stage.Done? then p
      else if silent then Freed(p)
      else p.(activity := StealPending, age := now)
  }

  lemma TickedAtIs(s: Synth, i: nat, now: Clock, silent: bool)
    requires i < |s.voices|
    ensures var s', v := TickedAt(s, i, now, silent), s.voices[i];
            s'.voices == s.voices[i := PlayedOn(v, Live(v.handle, s.hw), silent, now)] && Alike(s, s')
  {
    hide Played, Live, Stopped;
    var v := s.voices[i];
    if v.activity.Playing? {
      assert Played(v, now).handle == v.handle by {
        PlayedHolds(v, now);
      }
    }
  }

  lemma PlayedHolds(v: Voice, now: Clock)
    ensures var p := Played(v, now); p.handle == v.handle && p.hwIndex == v.hwIndex && p.activity == v.activity
  {
    hide Advance, StartRelease;
  }

  lemma {:induction false} PlayKeeps(s: Synth, known: bool, hw0: seq<HwSlot>, i: nat, now: Clock, silent: seq<bool>)
    requires Sound(s, known) && Clean(s, hw0) && i <= |s.voices| == |silent|
    ensures var s' := Play(s, i, now, silent); Sound(s', known) && Clean(s', hw0) && Alike(s, s')
    ensures forall j :: 0 <= j < |s.voices| ==>
              var v := s.voices[j];
              Play(s, i, now, silent).voices[j] ==
              if j < i then PlayedOn(v, Live(v.handle, hw0), silent[j], now) else v
    decreases i
  {
    hide Sound, Clean, Live, TickedAt, PlayedOn;
    if i > 0 {
      PlayKeeps(s, known, hw0, i - 1, now, silent);
      var p := Play(s, i - 1, now, silent);
      TickKeeps(p, known, hw0, i - 1, now, silent[i - 1]);
      TickedAtIs(p, i - 1, now, silent[i - 1]);
      assert p.voices[i - 1] == s.voices[i - 1];
      if p.voices[i - 1].activity.Free? {
        NotPlayed(p.voices[i - 1], now, silent[i - 1]);
      } else {
        CleanLeavesHeld(p, hw0, i - 1);
      }
    }
  }

  lemma NotPlayed(v: Voice, now: Clock, silent: bool)
    requires !v.activity.Playing?
    ensures forall live :: PlayedOn(v, live, silent, now) == v
  {
  }

  // ---- what a whole tick does to one voice ----

  /** live says whether the voice still sounded when the tick began. */
  function Ticked(v: Voice, live: bool, silent: bool, now: Clock): Voice {
    match v.activity
    case Free => v
    case StealPending => if Elapsed(now, v.age) >= STEAL_FADE_TICKS then Freed(v) else v
    case Playing =>
      var p := Played(v, now);
      if !live then Freed(v)
      else if !p.vol.stage.Done? then p
      else if silent then Freed(p)
      else p.(activity := StealPending, age := now)
  }

  /** The whole tick. */
  function TickAll(s: Synth, now: Clock, silent: seq<bool>): Synth
    requires Sized(s) && |silent| == |s.voices|
  {
    Play(Age(Sweep(s, |s.voices|, now), MIXER_VOICES, false), |s.voices|, now, silent)
  }

  /** A tick leaves every sounding voice with its one holder, stops exactly what nobody holds any
      more, and treats every voice and every entry on its own. */
  lemma TickPass(s: Synth, known: bool, now: Clock, silent: seq<bool>)
    requires Sound(s, known) && |silent| == |s.voices|
    ensures var s' := TickAll(s, now, silent); Sound(s', known) && Clean(s', s.hw) && |s'.voices| == |s.voices|
    ensures forall j :: 0 <= j < |s.voices| ==>
              var v := s.voices[j];
              TickAll(s, now, silent).voices[j] == Ticked(v, Live(v.handle, s.hw), silent[j], now)
    ensures forall q :: 0 <= q < MIXER_VOICES ==> AgedEntry(s, TickAll(s, now, silent), q, false)
  {
    hide Clean, Owned, VoiceSound, EntrySound, Held, Played, Live, Play, Sweep, Age;
    CleanAtFirst(s, known);
    SweepKeeps(s, known, s.hw, |s.voices|, now);
    var s1 := Sweep(s, |s.voices|, now);
    AgeKeeps(s1, known, s.hw, MIXER_VOICES, false);
    var s2 := Age(s1, MIXER_VOICES, false);
    PlayKeeps(s2, known, s.hw, |s.voices|, now, silent);
    forall q | 0 <= q < MIXER_VOICES
      ensures AgedEntry(s, TickAll(s, now, silent), q, false)
    {
      assert AgedEntry(s1, s2, q, false);
    }
    forall j | 0 <= j < |s.voices|
      ensures TickAll(s, now, silent).voices[j] == Ticked(s.voices[j], Live(s.voices[j].handle, s.hw), silent[j], now)
    {
      assert s1.voices[j] == Swept(s.voices[j], now);
    }
  }

  /** With nobody playing, every tick brings every voice closer to a free slot. */
  lemma TickedProgress(v: Voice, live: bool, silent: bool, now: Clock)
    requires VoiceOk(v, now)
    ensures var v' := Ticked(v, live, silent, Next(now));
            VoiceOk(v', Next(now)) && (v'.activity.Free? || Remaining(v', Next(now)) < Remaining(v, now))
  {
    hide Advance, StartRelease, Steps, PlayingOk, Played;
    if v.activity.Playing? {
      PlayedProgress(v, now);
      PlayingTakesLonger(v, now);
      FadingProgress(Played(v, Next(now)), Next(now));
    } else {
      FadingProgress(v, now);
    }
  }

  /** Ticks that remain, or none. */
  function Minus(a: nat, k: nat): nat { if a > k then a - k else 0 }

  predicate AllOk(vs: seq<Voice>, now: Clock) {
    forall i :: 0 <= i < |vs| ==> VoiceOk(vs[i], now)
  }

  /** Every slot is k ticks closer to being free, every entry k ticks closer to being stopped. */
  predicate Closer(s: Synth, now: Clock, s': Synth, now': Clock, k: nat)
    requires AllOk(s.voices, now) && AllOk(s'.voices, now') && Sized(s) && Sized(s')
  {
    |s'.voices| == |s.voices| &&
    (forall i :: 0 <= i < |s.voices| ==> Remaining(s'.voices[i], now') <= Minus(Remaining(s.voices[i], now), k)) &&
    (forall r :: 0 <= r < MIXER_VOICES && s'.pending[r] ==> s.pending[r] && s'.ticks[r] + k <= s.ticks[r])
  }

  /** One tick with nobody playing. */
  lemma TickIsProgress(s: Synth, known: bool, now: Clock, silent: seq<bool>)
    requires Sound(s, known) && |silent| == |s.voices| && AllOk(s.voices, now)
    ensures var s' := TickAll(s, Next(now), silent);
            Sized(s') && AllOk(s'.voices, Next(now)) && Closer(s, now, s', Next(now), 1)
  {
    hide Owned, VoiceSound, Held, Live, Ticked, TickAll, VoiceOk, Remaining, Clean;
    var s' := TickAll(s, Next(now), silent);
    TickPass(s, known, Next(now), silent);
    forall j | 0 <= j < |s.voices|
      ensures VoiceOk(s'.voices[j], Next(now))
      ensures Remaining(s'.voices[j], Next(now)) <= Minus(Remaining(s.voices[j], now), 1)
    {
      TickedProgress(s.voices[j], Live(s.voices[j].handle, s.hw), silent[j], now);
      FreeRemains(s'.voices[j], Next(now));
    }
    forall r | 0 <= r < MIXER_VOICES && s'.pending[r]
      ensures s.pending[r] && s'.ticks[r] + 1 <= s.ticks[r]
    {
      assert AgedEntry(s, s', r, false);
    }
  }

  lemma FreeRemains(v: Voice, now: Clock)
    requires VoiceOk(v, now)
    ensures v.activity.Free? <==> Remaining(v, now) == 0
  {
    hide Steps;
  }

  lemma CloserAtFirst(s: Synth, known: bool, now: Clock)
    requires Sound(s, known) && AllOk(s.voices, now)
    ensures Closer(s, now, s, now, 0)
  {
    hide VoiceOk, Remaining;
  }

  lemma CloserMoved(s: Synth, a: Clock, t: Synth, u: Synth, b: Clock, k: nat)
    requires Sized(s) && Sized(t) && Sized(u) && AllOk(s.voices, a) && AllOk(t.voices, b)
    requires u == t.(hw := u.hw) && Closer(s, a, t, b, k)
    ensures Closer(s, a, u, b, k)
  {
    hide VoiceOk, Remaining;
  }

  lemma CloserTrans(s: Synth, a: Clock, t: Synth, b: Clock, u: Synth, c: Clock, k: nat, l: nat)
    requires Sized(s) && Sized(t) && Sized(u)
    requires AllOk(s.voices, a) && AllOk(t.voices, b) && AllOk(u.voices, c)
    requires Closer(s, a, t, b, k) && Closer(t, b, u, c, l)
    ensures Closer(s, a, u, c, k + l)
  {
    hide VoiceOk, Remaining;
    forall i | 0 <= i < |s.voices|
      ensures Remaining(u.voices[i], c) <= Minus(Remaining(s.voices[i], a), k + l)
    {
      assert Remaining(t.voices[i], b) <= Minus(Remaining(s.voices[i], a), k);
    }
  }

  /** Enough ticks on: every slot free, no entry pending, no music voice sounding. */
  lemma Silence(s: Synth, now: Clock, s': Synth, now': Clock, k: nat, known: bool)
    requires Sound(s, known) && Sound(s', known) && AllOk(s.voices, now) && AllOk(s'.voices, now')
    requires Closer(s, now, s', now', k) && k >= GRACE_TICKS
    requires forall i :: 0 <= i < |s.voices| ==> Remaining(s.voices[i], now) <= k
    ensures forall i :: 0 <= i < |s'.voices| ==> s'.voices[i].activity.Free?
    ensures forall r :: 0 <= r < MIXER_VOICES ==> !s'.pending[r]
    ensures forall t :: 0 <= t < MIXER_VOICES ==> !(s'.hw[t].active && s'.hw[t].music)
  {
    hide VoiceOk, Remaining, Owned;
    forall i | 0 <= i < |s'.voices|
      ensures s'.voices[i].activity.Free?
    {
      assert Remaining(s'.voices[i], now') <= Minus(Remaining(s.voices[i], now), k);
      FreeRemains(s'.voices[i], now');
    }
    forall r | 0 <= r < MIXER_VOICES
      ensures !s'.pending[r]
    {
      assert EntrySound(s.pending[r], s.handles[r], s.ticks[r], r, known);
      assert EntrySound(s'.pending[r], s'.handles[r], s'.ticks[r], r, known);
    }
    NothingHeldNothingSounds(s', known);
  }

  /** The same, as an implication for a caller that does not know whether k is enough. */
  lemma Quiet(s: Synth, now: Clock, s': Synth, now': Clock, k: nat, known: bool)
    requires Sound(s, known) && Sound(s', known) && AllOk(s.voices, now) && AllOk(s'.voices, now')
    requires Closer(s, now, s', now', k)
    ensures k >= GRACE_TICKS && (forall i :: 0 <= i < |s.voices| ==> Remaining(s.voices[i], now) <= k) ==>
              (forall v <- s'.voices :: v.activity.Free?) && (forall p <- s'.pending :: !p) &&
              forall t :: 0 <= t < MIXER_VOICES ==> !(s'.hw[t].active && s'.hw[t].music)
  {
    hide VoiceOk, Remaining, Owned, VoiceSound, EntrySound, Held, Closer;
    if k >= GRACE_TICKS && forall i :: 0 <= i < |s.voices| ==> Remaining(s.voices[i], now) <= k {
      Silence(s, now, s', now', k, known);
    }
  }

  // ---- passes that touch neither slots nor hardware ----

  /** Note-off, pedal, retrigger: the envelopes move, the slot and its hardware voice stay. */
  predicate Gentle(v: Voice, v': Voice, now: Clock) {
    v'.activity == v.activity && v'.handle == v.handle && v'.hwIndex == v.hwIndex &&
    (VoiceOk(v, now) ==> VoiceOk(v', now))
  }

  lemma ReleaseIsGentle(v: Voice, now: Clock)
    ensures v.activity.Playing? ==> Gentle(v, Released(v), now)
    ensures Gentle(v, v, now)
  {
    hide PlayingOk, StartRelease;
    if v.activity.Playing? && VoiceOk(v, now) {
      ReleasedOk(v, now);
    }
  }

  lemma {:induction false} GentlePass(s: Synth, vs: seq<Voice>, known: bool, now: Clock)
    requires Sound(s, known) && AllOk(s.voices, now) && |vs| == |s.voices|
    requires forall j :: 0 <= j < |vs| ==> Gentle(s.voices[j], vs[j], now)
    ensures var s' := s.(voices := vs);
            Sound(s', known) && AllOk(vs, now) && Fading(vs) == Fading(s.voices) &&
            forall hw0: seq<HwSlot> :: Clean(s, hw0) ==> Clean(s', hw0)
  {
    hide VoiceOk, Owned;
    assert Held(s.(voices := vs)) == Held(s);
    FadingAlike(s.voices, vs);
  }

  lemma {:induction false} FadingAlike(vs: seq<Voice>, ws: seq<Voice>)
    requires |vs| == |ws| && forall j :: 0 <= j < |vs| ==> vs[j].activity == ws[j].activity
    ensures Fading(vs) == Fading(ws)
  {
    if vs != [] {
      FadingAlike(vs[..|vs| - 1], ws[..|vs| - 1]);
    }
  }

  // ---- the hard stop ----

  function FreeAll(s: Synth, i: nat): (s': Synth)
    requires i <= |s.voices|
    ensures |s'.voices| == |s.voices|
    decreases i
  {
    if i == 0 then s
    else
      var p := FreeAll(s, i - 1);
      if p.voices[i - 1].activity.Free? then p else VoiceFreed(p, i - 1)
  }

  lemma FreeAllAt(s: Synth, i: nat)
    requires i <= |s.voices|
    ensures FreeAll(s, 0) == s
    ensures i < |s.voices| ==>
              var p := FreeAll(s, i);
              FreeAll(s, i + 1) == if p.voices[i].activity.Free? then p else VoiceFreed(p, i)
  {
  }

  lemma {:induction false} FreeAllKeeps(s: Synth, known: bool, hw0: seq<HwSlot>, i: nat)
    requires Sound(s, known) && Clean(s, hw0) && i <= |s.voices|
    ensures var s' := FreeAll(s, i); Sound(s', known) && Clean(s', hw0) && Alike(s, s')
    ensures forall j :: 0 <= j < i ==> FreeAll(s, i).voices[j].activity.Free?
    ensures forall j :: i <= j < |s.voices| ==> FreeAll(s, i).voices[j] == s.voices[j]
    decreases i
  {
    hide Sound, Clean, Stopped;
    if i > 0 {
      FreeAllKeeps(s, known, hw0, i - 1);
      FreeVoice(FreeAll(s, i - 1), known, hw0, i - 1);
    }
  }
}

/** The voice engine: slots, steals, fades and the 1 kHz tick.  Fields are the engine's static state;
    the mixer is a peer whose voices may end or be taken over between any two calls. */
module SmpVoices {
  import opened SmpEnvelope
  import opened SmpOwnership
  import opened SmpVoiceState
  import opened SmpSynth
  import opened SmpPasses

  const MAX_VOICES := 12
  const DRUMS := 9

  /** The pick of a steal: the first of the quietest candidates. */
  predicate Candidate(v: Voice, releasing: bool) {
    v.activity.Playing? && (releasing ==> v.vol.stage.Release?)
  }

  predicate Quietest(vs: seq<Voice>, best: int, releasing: bool) {
    if best < 0 then forall v <- vs :: !Candidate(v, releasing)
    else
      best < |vs| && Candidate(vs[best], releasing) &&
      forall j :: 0 <= j < |vs| && Candidate(vs[j], releasing) ==>
        vs[best].vol.level <= vs[j].vol.level && (j < best ==> vs[best].vol.level < vs[j].vol.level)
  }

  /** Which slot a new note gets: the first free one; else the quietest voice in release; else the
      quietest voice; none only when all are fading. */
  predicate Choice(vs: seq<Voice>, idx: int) {
    if exists v <- vs :: v.activity.Free? then
      0 <= idx < |vs| && vs[idx].activity.Free? && forall j :: 0 <= j < idx ==> !vs[j].activity.Free?
    else if exists v <- vs :: Candidate(v, true) then idx >= 0 && Quietest(vs, idx, true)
    else Quietest(vs, idx, false)
  }

  lemma NoChoiceMeansAllFade(vs: seq<Voice>, idx: int)
    requires Choice(vs, idx)
    ensures idx < 0 <==> forall v <- vs :: v.activity.StealPending?
    ensures idx < |vs|
  {
    assert forall v <- vs :: v.activity.StealPending? <==> !v.activity.Free? && !Candidate(v, false);
    assert forall v <- vs :: Candidate(v, true) ==> Candidate(v, false);
  }

  /** The entry a steal uses: its own when the index is known, else the first spare one. */
  predicate EntryFor(s: Synth, i: nat, r: nat, known: bool)
    requires Sized(s) && i < |s.voices|
  {
    Spare(s, r) && if known then r == s.voices[i].hwIndex else forall q :: 0 <= q < r ==> !Spare(s, q)
  }

  /** Slot i is made free for reuse; what sounded there goes on fading in an entry. */
  predicate Reclaimed(s: Synth, s': Synth, i: nat, known: bool)
    requires Sized(s) && i < |s.voices|
  {
    if Live(s.voices[i].handle, s.hw) then
      exists r :: 0 <= r < MIXER_VOICES && EntryFor(s, i, r, known) && s' == Retired(s, i, r)
    else s' == s.(voices := s.voices[i := Freed(s.voices[i])])
  }

  lemma ReclaimedVoices(s: Synth, s': Synth, i: nat, known: bool, now: Clock)
    requires Sized(s) && i < |s.voices| && Reclaimed(s, s', i, known) && AllOk(s.voices, now)
    ensures s'.voices == s.voices[i := Freed(s.voices[i])] && s'.hw == s.hw && AllOk(s'.voices, now)
  {
    hide Live, Spare;
  }

  lemma LiveIsHandle(h: Handle, hw: seq<HwSlot>)
    ensures Live(h, hw) ==> h.Handle?
    ensures !Live(NoHandle, hw)
  {
  }

  /** voice_alloc: the pick, and the state once its slot is free. */
  predicate Allocated(s: Synth, s': Synth, pick: int, known: bool)
    requires Sized(s)
  {
    Choice(s.voices, pick) && pick < |s.voices| &&
    if pick < 0 || s.voices[pick].activity.Free? then s' == s else Reclaimed(s, s', pick, known)
  }

  predicate Hits(v: Voice, ch: int, note: int) { v.activity.Playing? && v.ch == ch && v.note == note }

  predicate Excluded(v: Voice, ch: int, class_: nat) {
    class_ != 0 && v.activity.Playing? && v.ch == ch && v.zone.exclusiveClass == class_
  }

  /** What a new note does to a voice that is already there. */
  function MakesWay(v: Voice, zone: Zone, ch: int, note: int, live: bool, now: Clock): Voice {
    var v1 := if Excluded(v, ch, zone.exclusiveClass) then Dimmed(v, live, now) else v;
    if ch != DRUMS && Hits(v1, ch, note) then Released(v1) else v1
  }

  /** Note-off: the pedal holds the note, or it is released. */
  function LetUp(v: Voice, ch: int, note: int, pedal: bool): Voice {
    if !Hits(v, ch, note) then v else if pedal then v.(held := true) else Released(v)
  }

  /** The pedal comes up. */
  function Unheld(v: Voice, ch: int): Voice {
    if v.activity.Playing? && v.ch == ch && v.held then Released(v.(held := false)) else v
  }

  function WayMade(s: Synth, zone: Zone, ch: int, note: int, now: Clock): Synth {
    s.(voices := seq(|s.voices|, i requires 0 <= i < |s.voices| =>
         MakesWay(s.voices[i], zone, ch, note, Live(s.voices[i].handle, s.hw), now)))
  }

  lemma {:induction false} WayIsMade(s: Synth, t: Synth, u: Synth, zone: Zone, ch: int, note: int, known: bool, now: Clock)
    requires Sound(s, known) && t == Force(s, |s.voices|, v => Excluded(v, ch, zone.exclusiveClass), now)
    requires |u.voices| == |t.voices| && u == t.(voices := u.voices)
    requires forall j :: 0 <= j < |t.voices| ==>
               u.voices[j] == if ch != DRUMS && Hits(t.voices[j], ch, note) then Released(t.voices[j]) else t.voices[j]
    ensures u == WayMade(s, zone, ch, note, now)
  {
    hide Sound, Clean, Released, Live;
    CleanAtFirst(s, known);
    ForceKeeps(s, known, s.hw, |s.voices|, v => Excluded(v, ch, zone.exclusiveClass), now);
    assert u.voices == WayMade(s, zone, ch, note, now).voices;
  }

  lemma UnheldIsGentle(v: Voice, ch: int, now: Clock)
    ensures Gentle(v, Unheld(v, ch), now)
  {
    hide StartRelease;
    ReleaseIsGentle(v.(held := false), now);
    assert VoiceOk(v, now) ==> VoiceOk(v.(held := false), now);
  }

  lemma {:induction false} AllFreeNoneFades(vs: seq<Voice>, now: Clock)
    requires forall i :: 0 <= i < |vs| ==> vs[i].activity.Free?
    ensures Fading(vs) == 0 && AllOk(vs, now)
  {
  }

  /** Everything was let go of and stopped: first the voices, then the entries. */
  lemma {:induction false} AllStopped(s: Synth, t: Synth, u: Synth, known: bool)
    requires Sound(t, known) && Clean(t, s.hw) && forall i :: 0 <= i < |t.voices| ==> t.voices[i].activity.Free?
    requires u == Age(t, MIXER_VOICES, true)
    ensures Sound(u, known) && Clean(u, s.hw) && u.voices == t.voices
    ensures forall r :: 0 <= r < MIXER_VOICES ==> !u.pending[r]
    ensures forall m :: 0 <= m < MIXER_VOICES ==> !(u.hw[m].active && u.hw[m].music)
  {
    hide Clean, Owned, VoiceSound, EntrySound, Held;
    AgeKeeps(t, known, s.hw, MIXER_VOICES, true);
    forall r | 0 <= r < MIXER_VOICES
      ensures !u.pending[r]
    {
      assert AgedEntry(t, u, r, true);
    }
    NothingHeldNothingSounds(u, known);
  }

  /** The recount sees a slot that goes on fading, and no other. */
  lemma SweepCount(s: Synth, i: nat, now: Clock)
    requires i < |s.voices|
    ensures var p := Sweep(s, i, now);
            Fading(Sweep(s, i + 1, now).voices[..i + 1]) ==
            Fading(p.voices[..i]) + if p.voices[i].activity.StealPending? && !FadedOut(p.voices[i], now) then 1 else 0
  {
    hide Stopped;
    SweepAt(s, i, now);
    var p, q := Sweep(s, i, now).voices, Sweep(s, i + 1, now).voices;
    assert q[..i + 1][..i] == p[..i];
  }

  class VoiceEngine {
    const known: bool
    const voices: array<Voice>
    const ticks: array<nat>
    const handles: array<Handle>
    const pending: array<bool>
    const sustain: array<bool>
    var tick: Clock
    var stealPendingCount: nat
    var hw: seq<HwSlot>

    predicate Shape()
      reads this
    {
      voices.Length == MAX_VOICES && sustain.Length == 16 && |hw| == MIXER_VOICES &&
      ticks.Length == handles.Length == pending.Length == MIXER_VOICES && pending != sustain
    }

    ghost function Now(): Synth
      reads this, voices, ticks, handles, pending
    {
      Synth(voices[..], ticks[..], handles[..], pending[..], hw)
    }

    /** Holds at every step. */
    ghost predicate Steady()
      reads this, voices, ticks, handles, pending
    {
      Shape() && Sound(Now(), known) && stealPendingCount == Fading(voices[..])
    }

    /** Holds between calls. */
    ghost predicate Valid()
      reads this, voices, ticks, handles, pending
    {
      Steady() && AllOk(voices[..], tick)
    }

    constructor (indexKnown: bool, mixer: seq<HwSlot>)
      requires |mixer| == MIXER_VOICES && forall m <- mixer :: !m.active || !m.music
      ensures Valid() && known == indexKnown && hw == mixer
      ensures forall v: Voice <- voices[..] :: v.activity.Free?
      ensures fresh(voices) && fresh(ticks) && fresh(handles) && fresh(pending) && fresh(sustain)
    {
      var idle := Baked(0, 1, 0, 1, 0, 0);
      var silence := Voice(Free, Zone(idle, idle, 0, false, 0), 0, 0, false, NO_INDEX, NoHandle,
                           Env(Off, 0, 0, 0, 0), Env(Off, 0, 0, 0, 0), 0, 0, 0);
      known, hw, tick, stealPendingCount := indexKnown, mixer, 0, 0;
      voices := new Voice[MAX_VOICES](_ => silence);
      ticks := new nat[MIXER_VOICES](_ => 0);
      handles := new Handle[MIXER_VOICES](_ => NoHandle);
      pending := new bool[MIXER_VOICES](_ => false);
      sustain := new bool[16](_ => false);
      new;
      hide Sound;
      assert forall v <- voices[..] :: v == silence;
      ResetIsSound(Now(), known);
    }

    /** The mixer's own moves. */
    method MixerMoves(moved: seq<HwSlot>)
      requires Valid() && Fades(hw, moved)
      modifies `hw
      ensures Valid() && hw == moved
    {
      hide Sound, AllOk, Fading, Live;
      SmpSynth.MixerMoves(Now(), known, moved);
      hw := moved;
      assert Now() == old(Now()).(hw := moved);
    }

    // ---- one slot ----

    /** voice_stop_hw_if_owned, and the slot is free. */
    method FreeSlot(i: nat)
      requires Shape() && Sound(Now(), known) && i < MAX_VOICES && !voices[i].activity.Free?
      modifies voices, `hw
      ensures Shape() && Now() == VoiceFreed(old(Now()), i)
    {
      hide Sound;
      var h := voices[i].handle;
      if Live(h, hw) {
        hw := hw[h.slot := hw[h.slot].(active := false)];
      }
      voices[i] := Freed(voices[i]);
      assert voices[..] == old(voices[..])[i := Freed(old(voices[i]))];
    }

    /** voice_drop_if_stale */
    method DropIfStale(i: nat) returns (dropped: bool)
      requires Shape() && i < MAX_VOICES
      modifies voices
      ensures Shape() && dropped == !Live(old(voices[i]).handle, hw)
      ensures Now() == if dropped then old(Now()).(voices := old(voices[..])[i := Freed(old(voices[i]))]) else old(Now())
    {
      if Live(voices[i].handle, hw) {
        return false;
      }
      voices[i] := Freed(voices[i]);
      assert voices[..] == old(voices[..])[i := Freed(old(voices[i]))];
      return true;
    }

    method ForceOff(i: nat)
      requires Steady() && i < MAX_VOICES && voices[i].activity.Playing?
      modifies voices, `stealPendingCount
      ensures Steady() && Now() == ForcedOff(old(Now()), i, tick)
      ensures forall hw0: seq<HwSlot> :: Clean(old(Now()), hw0) ==> Clean(Now(), hw0)
    {
      hide Sound, Fading, Clean, KeptOnly, Live;
      ghost var s := Now();
      FadingUpdate(voices[..], i, voices[i].(activity := StealPending, age := tick));
      FadingUpdate(voices[..], i, Freed(voices[i]));
      CleanAtFirst(s, known);
      ForceOffKeeps(s, known, s.hw, i, tick);
      forall hw0: seq<HwSlot> | Clean(s, hw0)
        ensures Clean(ForcedOff(s, i, tick), hw0)
      {
        ForceOffKeeps(s, known, hw0, i, tick);
      }
      var dropped := DropIfStale(i);
      if !dropped {
        voices[i] := voices[i].(activity := StealPending, age := tick);
        stealPendingCount := stealPendingCount + 1;
        assert voices[..] == s.voices[i := s.voices[i].(activity := StealPending, age := tick)];
      }
    }

    // ---- fades that are over ----

    /** voice_cleanup_stolen.  The scan is skipped when nobody fades, which agrees with the full scan. */
    method CleanupStolen()
      requires Steady()
      modifies voices, `hw, `stealPendingCount
      ensures Steady() && Now() == Sweep(old(Now()), MAX_VOICES, tick)
    {
      hide Sound, Clean, Sweep, Fading, VoiceFreed, Elapsed;
      ghost var s0 := Now();
      CleanAtFirst(s0, known);
      if stealPendingCount == 0 {
        SkippedSweep(s0, MAX_VOICES, tick);
        return;
      }
      var still := 0;
      var i := 0;
      SweepAt(s0, 0, tick);
      while i < MAX_VOICES
        invariant 0 <= i <= MAX_VOICES && Shape()
        invariant Now() == Sweep(s0, i, tick)
        invariant still == Fading(Sweep(s0, i, tick).voices[..i])
      {
        SweepKeeps(s0, known, s0.hw, i, tick);
        SweepAt(s0, i, tick);
        SweepCount(s0, i, tick);
        if voices[i].activity.StealPending? {
          if Elapsed(tick, voices[i].age) >= STEAL_FADE_TICKS {
            FreeSlot(i);
          } else {
            still := still + 1;
          }
        }
        i := i + 1;
      }
      SweepKeeps(s0, known, s0.hw, MAX_VOICES, tick);
      assert voices[..MAX_VOICES] == voices[..];
      stealPendingCount := still;
    }

    /** voice_cleanup_reclaimed */
    method CleanupReclaimed(immediate: bool)
      requires Steady()
      modifies ticks, pending, `hw
      ensures Steady() && Now() == Age(old(Now()), MIXER_VOICES, immediate)
    {
      hide Sound, Clean, Age, Fading;
      ghost var s0 := Now();
      CleanAtFirst(s0, known);
      AgeAt(s0, 0, immediate);
      var i := 0;
      while i < MIXER_VOICES
        invariant 0 <= i <= MIXER_VOICES && Shape()
        invariant Now() == Age(s0, i, immediate)
      {
        AgeKeeps(s0, known, s0.hw, i, immediate);
        AgeAt(s0, i, immediate);
        AgeEntryAt(i, immediate);
        i := i + 1;
      }
      AgeKeeps(s0, known, s0.hw, MIXER_VOICES, immediate);
    }

    method AgeEntryAt(i: nat, immediate: bool)
      requires Shape() && Sound(Now(), known) && i < MIXER_VOICES
      modifies ticks, pending, `hw
      ensures Shape() && Now() == AgedAt(old(Now()), i, immediate)
    {
      hide Owned, Held, Live;
      assert EntrySound(Now().pending[i], Now().handles[i], Now().ticks[i], i, known);
      if !pending[i] {
        return;
      }
      if !immediate {
        ticks[i] := ticks[i] - 1;
        assert ticks[..] == old(ticks[..])[i := old(ticks[i]) - 1];
        if ticks[i] != 0 {
          return;
        }
      }
      var handle := handles[i];
      pending[i] := false;
      assert pending[..] == old(pending[..])[i := false];
      if Live(handle, hw) {
        StopHandle(handle);
      }
    }

    method StopHandle(h: Handle)
      requires Live(h, hw)
      modifies `hw
      ensures hw == Stopped(old(hw), h)
    {
      hw := hw[h.slot := hw[h.slot].(active := false)];
    }

    // ---- stealing ----

    /** voice_reclaim */
    method Reclaim(i: nat)
      requires Steady() && i < MAX_VOICES && voices[i].activity.Playing?
      modifies voices, ticks, handles, pending
      ensures Steady() && Reclaimed(old(Now()), Now(), i, known)
    {
      hide Owned, Held, Clean, Live, Fading, KeptOnly, Stopped;
      ghost var s := Now();
      FadingUpdate(voices[..], i, Freed(voices[i]));
      if Live(voices[i].handle, hw) {
        var slot := voices[i].hwIndex;
        IndexTells(s, known, i);
        if slot >= MIXER_VOICES {
          slot := FindEntry(i);
        } else {
          OwnEntryIsSpare(s, i);
        }
        Retire(s, known, i, slot);
        handles[slot], ticks[slot], pending[slot] := voices[i].handle, GRACE_TICKS, true;
        assert handles[..] == s.handles[slot := s.voices[i].handle] && ticks[..] == s.ticks[slot := GRACE_TICKS];
        assert pending[..] == s.pending[slot := true];
        voices[i] := Freed(voices[i]);
        assert voices[..] == s.voices[i := Freed(s.voices[i])];
        assert EntryFor(s, i, slot, known) && Now() == Retired(s, i, slot);
      } else {
        CleanAtFirst(s, known);
        StaleIsFreed(s, i);
        FreeVoice(s, known, s.hw, i);
        voices[i] := Freed(voices[i]);
        assert voices[..] == s.voices[i := Freed(s.voices[i])];
      }
    }

    /** The entry search of firmware that does not tell the index.  It always finds one. */
    method FindEntry(i: nat) returns (slot: nat)
      requires Shape() && Sound(Now(), known) && i < MAX_VOICES
      requires !voices[i].activity.Free? && Live(voices[i].handle, hw)
      ensures slot < MIXER_VOICES && Spare(Now(), slot) && forall q :: 0 <= q < slot ==> !Spare(Now(), q)
    {
      hide Sound, Live;
      ghost var s := Now();
      SomeEntryIsSpare(s, known, i);
      slot := 0;
      while slot < MIXER_VOICES
        invariant slot <= MIXER_VOICES && forall q :: 0 <= q < slot ==> !Spare(s, q)
      {
        LiveIsHandle(handles[slot], hw);
        if !pending[slot] || !Live(handles[slot], hw) {
          break;
        }
        slot := slot + 1;
      }
    }

    /** Pass 2: a finished voice.  There is never one between ticks. */
    method FindDone() returns (best: int)
      requires Valid() && forall v <- voices[..] :: !v.activity.Free?
      ensures best == -1
    {
      hide Sound, Fading;
      best := -1;
      var bestAge := 0xFFFF_FFFF;
      for i := 0 to MAX_VOICES
        invariant best == -1
      {
        var v := voices[i];
        assert v in voices[..];
        if !v.activity.StealPending? && v.vol.stage.Done? && v.age < bestAge {
          best, bestAge := i, v.age;
        }
      }
    }

    /** Passes 3 and 4: the quietest voice in release, the quietest voice. */
    method FindQuietest(releasing: bool) returns (best: int)
      requires Valid() && forall v <- voices[..] :: !v.activity.Free?
      ensures Quietest(voices[..], best, releasing)
    {
      hide Sound, Fading, Steps;
      best := -1;
      var bestLevel := 0x7FFF_FFFF;
      for i := 0 to MAX_VOICES
        invariant best < 0 ==> best == -1 && bestLevel == 0x7FFF_FFFF
        invariant best < 0 ==> forall j :: 0 <= j < i ==> !Candidate(voices[j], releasing)
        invariant best >= 0 ==>
                    best < i && Candidate(voices[best], releasing) && voices[best].vol.level == bestLevel &&
                    forall j :: 0 <= j < i && Candidate(voices[j], releasing) ==>
                      bestLevel <= voices[j].vol.level && (j < best ==> bestLevel < voices[j].vol.level)
      {
        assert voices[i] in voices[..];
        if !voices[i].activity.StealPending? && (releasing ==> voices[i].vol.stage.Release?)
           && voices[i].vol.level < bestLevel
        {
          best, bestLevel := i, voices[i].vol.level;
        }
      }
    }

    method FindFree() returns (best: int)
      requires Shape()
      ensures if best < 0 then forall v <- voices[..] :: !v.activity.Free?
              else best < MAX_VOICES && voices[best].activity.Free? && forall j :: 0 <= j < best ==> !voices[j].activity.Free?
    {
      for i := 0 to MAX_VOICES
        invariant forall j :: 0 <= j < i ==> !voices[j].activity.Free?
      {
        if voices[i].activity.Free? {
          return i;
        }
      }
      best := -1;
    }

    method VoiceAlloc() returns (idx: int)
      requires Valid()
      modifies voices, ticks, handles, pending
      ensures Valid() && Allocated(old(Now()), Now(), idx, known)
      ensures idx < MAX_VOICES && (idx >= 0 ==> voices[idx].activity.Free?)
    {
      hide Sound, Fading, Live, VoiceOk, Retired;
      ghost var s := Now();
      idx := FindFree();
      if idx >= 0 {
        assert voices[idx] in voices[..];
        return;
      }
      idx := FindDone();
      idx := FindQuietest(true);
      if idx < 0 {
        idx := FindQuietest(false);
      } else {
        assert voices[idx] in voices[..];
      }
      assert Choice(s.voices, idx);
      if idx >= 0 {
        Reclaim(idx);
        ReclaimedVoices(s, Now(), idx, known, tick);
      }
    }

    // ---- notes ----

    /** The loop of kill_exclusive_class and of all-notes-off. */
    method ForceWhere(hit: Voice -> bool)
      requires Valid()
      modifies voices, `stealPendingCount
      ensures Valid() && Now() == Force(old(Now()), MAX_VOICES, hit, tick)
    {
      hide Sound, Clean, Fading, Force, ForcedOff, VoiceOk;
      ghost var s0 := Now();
      CleanAtFirst(s0, known);
      ForceAt(s0, 0, hit, tick);
      for i := 0 to MAX_VOICES
        invariant Steady() && Now() == Force(s0, i, hit, tick)
      {
        ForceAt(s0, i, hit, tick);
        var v := voices[i];
        if !v.activity.Free? && !v.activity.StealPending? && hit(v) {
          ForceOff(i);
        }
      }
      ForceKeeps(s0, known, s0.hw, MAX_VOICES, hit, tick);
      ForceOkay(s0, known, hit, tick);
    }

    /** smp_voice_note_on.  The mixer grants a hardware voice or does not; rate is the playback rate. */
    method NoteOn(zone: Zone, ch: int, note: int, velocity: int, rate: nat, grant: bool, slot: nat)
        returns (idx: int, ghost pick: int)
      requires Valid() && WellFormed(zone.vol) && WellFormed(zone.mod) && slot < MIXER_VOICES
      modifies voices, ticks, handles, pending, `stealPendingCount, `hw
      ensures Valid()
      ensures idx < 0 ==> idx == -1
      ensures ch < 0 || ch > 15 || velocity <= 0 ==> idx == -1 && Now() == old(Now())
      ensures 0 <= ch <= 15 && velocity > 0 ==>
                exists s: Synth ::
                  Sized(s) && Allocated(WayMade(old(Now()), zone, ch, note, tick), s, pick, known) &&
                  (pick < 0 || !grant ==> idx == -1 && Now() == s) &&
                  (pick >= 0 && grant ==>
                     idx == pick && pick < |s.voices| &&
                     var h := Handle(slot, s.hw[slot].gen + 1);
                     Now() == Begun(s, pick, slot,
                                    Fresh(zone, ch, note, tick, IndexOf(h, known), h, SampleTicks(zone, rate))))
    {
      hide Sound, Clean, Fading, VoiceOk, Allocated, Begun, Fresh, WayMade, SampleTicks, Force;
      idx, pick := -1, -1;
      if ch < 0 || ch > 15 || velocity <= 0 {
        return;
      }
      ghost var s0 := Now();
      KillExclusiveClass(ch, zone.exclusiveClass);
      ghost var s1 := Now();
      if ch != DRUMS {
        RetriggerRelease(ch, note);
      }
      WayIsMade(s0, s1, Now(), zone, ch, note, known, tick);
      var at := VoiceAlloc();
      pick := at;
      if at < 0 || !grant {
        return;
      }
      Start(zone, ch, note, rate, slot, at);
      idx := at;
    }

    method KillExclusiveClass(ch: int, class_: nat)
      requires Valid()
      modifies voices, `stealPendingCount
      ensures Valid() && Now() == Force(old(Now()), MAX_VOICES, v => Excluded(v, ch, class_), tick)
    {
      hide Sound, Clean, Fading, Force, VoiceOk;
      if class_ == 0 {
        CleanAtFirst(Now(), known);
        ForceNobody(Now(), MAX_VOICES, v => Excluded(v, ch, class_), tick);
        return;
      }
      ForceWhere(v => Excluded(v, ch, class_));
    }

    method RetriggerRelease(ch: int, note: int)
      requires Valid()
      modifies voices
      ensures Valid()
      ensures forall i :: 0 <= i < MAX_VOICES ==>
                voices[i] == if Hits(old(voices[i]), ch, note) then Released(old(voices[i])) else old(voices[i])
    {
      hide Sound, Fading, Released;
      ghost var s0 := Now();
      for i := 0 to MAX_VOICES
        invariant Shape() && hw == s0.hw
        invariant forall j :: 0 <= j < i ==>
                    voices[j] == if Hits(s0.voices[j], ch, note) then Released(s0.voices[j]) else s0.voices[j]
        invariant forall j :: i <= j < MAX_VOICES ==> voices[j] == s0.voices[j]
      {
        var v := voices[i];
        if !v.activity.Free? && !v.activity.StealPending? && v.ch == ch && v.note == note {
          assert Hits(v, ch, note);
          assert VoiceOk(s0.voices[i], tick);
          if !v.vol.stage.Done? {
            voices[i] := Released(v);
          }
        }
      }
      forall j | 0 <= j < MAX_VOICES
        ensures Gentle(s0.voices[j], voices[..][j], tick)
      {
        ReleaseIsGentle(s0.voices[j], tick);
      }
      GentlePass(s0, voices[..], known, tick);
      assert Now() == s0.(voices := voices[..]);
    }

    /** The granted hardware voice goes to a free slot. */
    method Start(zone: Zone, ch: nat, note: int, rate: nat, slot: nat, i: nat)
      requires Valid() && i < MAX_VOICES && voices[i].activity.Free? && slot < MIXER_VOICES && ch < CHANNELS
      requires WellFormed(zone.vol) && WellFormed(zone.mod)
      modifies voices, `hw
      ensures Valid()
      ensures var h := Handle(slot, old(hw)[slot].gen + 1);
              Now() == Begun(old(Now()), i, slot,
                             Fresh(zone, ch, note, tick, IndexOf(h, known), h, SampleTicks(zone, rate)))
    {
      hide Sound, Fading, VoiceOk, SampleTicks, Advance, Init;
      var h := Handle(slot, hw[slot].gen + 1);
      var index := if known then h.slot else NO_INDEX;
      var v := Fresh(zone, ch, note, tick, index, h, SampleTicks(zone, rate));
      FreshOk(zone, ch, note, tick, index, h, SampleTicks(zone, rate));
      Begin(Now(), known, i, slot, v);
      FadingUpdate(voices[..], i, v);
      hw := hw[slot := HwSlot(true, h.gen, true)];
      voices[i] := v;
      assert voices[..] == old(voices[..])[i := v];
    }

    method NoteOff(ch: int, note: int)
      requires Valid()
      modifies voices
      ensures Valid()
      ensures forall i :: 0 <= i < MAX_VOICES ==>
                voices[i] == LetUp(old(voices[i]), ch, note, 0 <= ch < CHANNELS && sustain[ch])
    {
      hide Sound, Fading, Released;
      ghost var s0 := Now();
      ghost var pedal := 0 <= ch < CHANNELS && sustain[ch];
      for i := 0 to MAX_VOICES
        invariant Shape() && hw == s0.hw
        invariant forall j :: 0 <= j < i ==> voices[j] == LetUp(s0.voices[j], ch, note, pedal)
        invariant forall j :: i <= j < MAX_VOICES ==> voices[j] == s0.voices[j]
      {
        var v := voices[i];
        if !v.activity.Free? && !v.activity.StealPending? && v.ch == ch && v.note == note {
          assert VoiceOk(s0.voices[i], tick);
          voices[i] := if sustain[ch] then v.(held := true) else Released(v);
        }
      }
      forall j | 0 <= j < MAX_VOICES
        ensures Gentle(s0.voices[j], voices[..][j], tick)
      {
        ReleaseIsGentle(s0.voices[j], tick);
      }
      GentlePass(s0, voices[..], known, tick);
      assert Now() == s0.(voices := voices[..]);
    }

    method UpdateSustain(ch: int, on: bool)
      requires Valid()
      modifies voices, sustain
      ensures Valid()
      ensures forall c :: 0 <= c < CHANNELS ==> sustain[c] == if c == ch then on else old(sustain[c])
      ensures forall i :: 0 <= i < MAX_VOICES ==>
                voices[i] == if on || ch < 0 || ch >= CHANNELS then old(voices[i]) else Unheld(old(voices[i]), ch)
    {
      hide Sound, Fading, Released, VoiceOk;
      if ch < 0 || ch > 15 {
        return;
      }
      sustain[ch] := on;
      if on {
        assert Now() == old(Now());
        return;
      }
      ghost var s0 := Now();
      for i := 0 to MAX_VOICES
        invariant Shape() && hw == s0.hw && tick == old(tick) && pending[..] == s0.pending
        invariant forall c :: 0 <= c < CHANNELS ==> sustain[c] == if c == ch then on else old(sustain[c])
        invariant forall j :: 0 <= j < i ==> voices[j] == Unheld(s0.voices[j], ch)
        invariant forall j :: i <= j < MAX_VOICES ==> voices[j] == s0.voices[j]
      {
        var v := voices[i];
        if !v.activity.Free? && !v.activity.StealPending? && v.ch == ch && v.held {
          voices[i] := Released(v.(held := false));
        }
      }
      forall j | 0 <= j < MAX_VOICES
        ensures Gentle(s0.voices[j], voices[..][j], tick)
      {
        UnheldIsGentle(s0.voices[j], ch, tick);
      }
      GentlePass(s0, voices[..], known, tick);
      assert Now() == s0.(voices := voices[..]);
    }

    // ---- all off ----

    method AllOff(ch: int)
      requires Valid()
      modifies voices, `stealPendingCount
      ensures Valid() && Now() == Force(old(Now()), MAX_VOICES, (v: Voice) => v.ch == ch, tick)
    {
      hide Sound, Fading, Force, VoiceOk;
      ForceWhere((v: Voice) => v.ch == ch);
    }

    /** Teardown: everything is stopped at once, fading or not. */
    method AllOffGlobal()
      requires Valid()
      modifies voices, ticks, pending, `hw, `stealPendingCount
      ensures Valid() && Clean(Now(), old(hw))
      ensures forall v: Voice <- voices[..] :: v.activity.Free?
      ensures forall p <- pending[..] :: !p
      ensures forall t :: 0 <= t < MIXER_VOICES ==> !(hw[t].active && hw[t].music)
    {
      hide Sound, Clean, FreeAll, Fading, VoiceFreed;
      ghost var s0 := Now();
      CleanAtFirst(s0, known);
      FreeAllAt(s0, 0);
      for i := 0 to MAX_VOICES
        invariant Shape() && Now() == FreeAll(s0, i)
      {
        FreeAllKeeps(s0, known, s0.hw, i);
        FreeAllAt(s0, i);
        if !voices[i].activity.Free? {
          FreeSlot(i);
        }
      }
      FreeAllKeeps(s0, known, s0.hw, MAX_VOICES);
      AllFreeNoneFades(voices[..], tick);
      stealPendingCount := 0;
      AgeKeeps(Now(), known, s0.hw, MIXER_VOICES, true);
      ghost var s1 := Now();
      CleanupReclaimed(true);
      AllStopped(s0, s1, Now(), known);
    }

    // ---- the tick ----

    /** The body of the tick's loop. */
    method TickVoice(i: nat, silent: bool)
      requires Steady() && i < MAX_VOICES
      modifies voices, `hw, `stealPendingCount
      ensures Steady() && Now() == TickedAt(old(Now()), i, tick, silent)
    {
      hide Sound, Clean, Fading, Advance, StartRelease, Live, Stopped;
      ghost var s := Now();
      CleanAtFirst(s, known);
      TickKeeps(s, known, s.hw, i, tick, silent);
      FadingUpdate(voices[..], i, Freed(voices[i]));
      if !voices[i].activity.Playing? {
        return;
      }
      var dropped := DropIfStale(i);
      if dropped {
        return;
      }
      var p := Played(voices[i], tick);
      PlayedHolds(voices[i], tick);
      FadingUpdate(voices[..], i, p);
      SameHolder(s, known, i, p);
      voices[i] := p;
      assert voices[..] == s.voices[i := p];
      assert Now() == WithVoice(s, i, p);
      if p.vol.stage.Done? {
        FadingUpdate(voices[..], i, Freed(p));
        if silent {
          FreeSlot(i);
        } else {
          ForceOff(i);
        }
      }
    }

    /** smp_voice_tick.  silent says of each voice whether the last volume written for it was zero. */
    method Tick(silent: seq<bool>)
      requires Valid() && |silent| == MAX_VOICES
      modifies this`tick, voices, ticks, pending, `hw, `stealPendingCount
      ensures Valid() && tick == Next(old(tick))
      ensures Now() == TickAll(old(Now()), tick, silent)
      ensures Closer(old(Now()), old(tick), Now(), tick, 1)
    {
      hide Sound, Clean, Fading, Sweep, Age, Play, VoiceOk, TickedAt, Closer;
      ghost var s0 := Now();
      TickIsProgress(s0, known, tick, silent);
      tick := Next(tick);
      CleanupStolen();
      CleanupReclaimed(false);
      ghost var s := Now();
      PlayAt(s, 0, tick, silent);
      for i := 0 to MAX_VOICES
        invariant Steady() && tick == Next(old(tick)) && Now() == Play(s, i, tick, silent)
      {
        PlayAt(s, i, tick, silent);
        TickVoice(i, silent[i]);
      }
    }

    /** Nothing but ticks, with the mixer free to move before each: after enough of them all slots
        are free and nothing sounds. */
    method TicksOnly(k: nat)
      requires Valid()
      modifies this`tick, voices, ticks, pending, `hw, `stealPendingCount
      ensures Valid() && Closer(old(Now()), old(tick), Now(), tick, k)
      ensures k >= GRACE_TICKS && (forall i :: 0 <= i < MAX_VOICES ==> Remaining(old(voices[i]), old(tick)) <= k) ==>
                (forall v: Voice <- voices[..] :: v.activity.Free?) && (forall p: bool <- pending[..] :: !p) &&
                forall t :: 0 <= t < MIXER_VOICES ==> !(hw[t].active && hw[t].music)
    {
      hide Sound, Clean, Fading, VoiceOk, Remaining, Closer, Fades, TickAll;
      ghost var s0, t0 := Now(), tick;
      CloserAtFirst(s0, known, t0);
      for n := 0 to k
        invariant Valid() && Closer(s0, t0, Now(), tick, n)
      {
        ghost var s := Now();
        var moved: seq<HwSlot> := *;
        if Fades(hw, moved) {
          MixerMoves(moved);
        }
        ghost var s1, t1 := Now(), tick;
        CloserMoved(s0, t0, s, s1, tick, n);
        var silent: seq<bool> := *;
        if |silent| != MAX_VOICES {
          silent := seq(MAX_VOICES, _ => false);
        }
        Tick(silent);
        CloserTrans(s0, t0, s1, t1, Now(), tick, n, 1);
      }
      Quiet(s0, t0, Now(), tick, k, known);
    }
  }
}

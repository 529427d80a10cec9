/** The synthesizer as a value: its voices, the 32 entries of voices that fade out on their own, and
    the mixer behind them.  One lemma for each way a holder comes by a hardware voice or lets go of
    it. */
module SmpSynth {
  import opened SmpEnvelope
  import opened SmpOwnership
  import opened SmpVoiceState

  const GRACE_TICKS := 6

  datatype Synth = Synth(voices: seq<Voice>, ticks: seq<nat>, handles: seq<Handle>, pending: seq<bool>, hw: seq<HwSlot>)

  predicate Sized(s: Synth) {
    |s.ticks| == |s.handles| == |s.pending| == |s.hw| == MIXER_VOICES
  }

  function VoiceHolds(v: Voice): Handle { if v.activity.Free? then NoHandle else v.handle }

  function EntryHolds(pending: bool, h: Handle): Handle { if pending then h else NoHandle }

  function Held(s: Synth): (held: seq<Handle>)
    requires Sized(s)
    ensures |held| == |s.voices| + MIXER_VOICES
    ensures forall i :: 0 <= i < |s.voices| ==> held[i] == VoiceHolds(s.voices[i])
    ensures forall r :: |s.voices| <= r < |s.voices| + MIXER_VOICES ==>
              held[r] == EntryHolds(s.pending[r - |s.voices|], s.handles[r - |s.voices|])
  {
    seq(|s.voices| + MIXER_VOICES, k requires 0 <= k < |s.voices| + MIXER_VOICES =>
      if k < |s.voices| then VoiceHolds(s.voices[k])
      else EntryHolds(s.pending[k - |s.voices|], s.handles[k - |s.voices|]))
  }

  /** The index a voice caches of its hardware voice; older firmware cannot tell. */
  function IndexOf(h: Handle, known: bool): nat
    requires h.Handle?
  {
    if known then h.slot else NO_INDEX
  }

  predicate VoiceSound(v: Voice, known: bool) {
    !v.activity.Free? ==> v.handle.Handle? && v.hwIndex == IndexOf(v.handle, known)
  }

  predicate EntrySound(pending: bool, h: Handle, ticks: nat, r: nat, known: bool) {
    pending ==> h.Handle? && 1 <= ticks <= GRACE_TICKS && (known ==> h.slot == r)
  }

  /** What holds of the holders at any time, within a tick and between ticks. */
  predicate Sound(s: Synth, known: bool) {
    Sized(s) && Owned(Held(s), s.hw) &&
    (forall i :: 0 <= i < |s.voices| ==> VoiceSound(s.voices[i], known)) &&
    (forall r :: 0 <= r < MIXER_VOICES ==> EntrySound(s.pending[r], s.handles[r], s.ticks[r], r, known))
  }

  /** The mixer when everything that is no longer held has been stopped. */
  function KeptOnly(hw: seq<HwSlot>, held: seq<Handle>): (hw': seq<HwSlot>)
    ensures |hw'| == |hw|
    ensures forall t :: 0 <= t < |hw| ==>
              hw'[t] == hw[t].(active := hw[t].active && (!hw[t].music || Handle(t, hw[t].gen) in held))
  {
    seq(|hw|, t requires 0 <= t < |hw| =>
      hw[t].(active := hw[t].active && (!hw[t].music || Handle(t, hw[t].gen) in held)))
  }

  /** A step that stopped exactly what it let go of: the mixer is hw0 less what nobody holds now. */
  predicate Clean(s: Synth, hw0: seq<HwSlot>) {
    Sized(s) && s.hw == KeptOnly(hw0, Held(s))
  }

  lemma CleanAtFirst(s: Synth, known: bool)
    requires Sound(s, known)
    ensures Clean(s, s.hw)
  {
    var kept := KeptOnly(s.hw, Held(s));
    forall t | 0 <= t < |s.hw|
      ensures s.hw[t] == kept[t]
    {
      assert s.hw[t].active && s.hw[t].music ==> Handle(t, s.hw[t].gen) in Held(s);
    }
  }

  /** Whoever still holds a handle was left alone. */
  lemma CleanLeavesHeld(s: Synth, hw0: seq<HwSlot>, i: nat)
    requires Clean(s, hw0) && i < |s.voices| && !s.voices[i].activity.Free?
    ensures Live(s.voices[i].handle, s.hw) <==> Live(s.voices[i].handle, hw0)
  {
    assert Held(s)[i] == s.voices[i].handle;
  }

  /** Nothing held, nothing sounding: the state at reset. */
  lemma ResetIsSound(s: Synth, known: bool)
    requires Sized(s) && forall v <- s.voices :: v.activity.Free?
    requires forall r :: 0 <= r < MIXER_VOICES ==> !s.pending[r]
    requires forall m <- s.hw :: !m.active || !m.music
    ensures Sound(s, known)
  {
    var held := Held(s);
    forall k | 0 <= k < |held|
      ensures held[k] == NoHandle
    {
      assert k >= |s.voices| ==> !s.pending[k - |s.voices|];
    }
  }

  // ---- one holder at a time ----

  function WithVoice(s: Synth, i: nat, v: Voice): Synth
    requires i < |s.voices|
  {
    s.(voices := s.voices[i := v])
  }

  /** A voice that changes but holds on to its hardware voice. */
  lemma SameHolder(s: Synth, known: bool, i: nat, v: Voice)
    requires Sound(s, known) && i < |s.voices| && !s.voices[i].activity.Free? && !v.activity.Free?
    requires v.handle == s.voices[i].handle && v.hwIndex == s.voices[i].hwIndex
    ensures Sound(WithVoice(s, i, v), known) && Held(WithVoice(s, i, v)) == Held(s)
    ensures forall hw0: seq<HwSlot> :: Clean(s, hw0) ==> Clean(WithVoice(s, i, v), hw0)
  {
    hide Owned, KeptOnly;
    assert Held(WithVoice(s, i, v)) == Held(s);
  }

  /** Letting go and stopping, on the level of the list of holders. */
  lemma LetGo(held: seq<Handle>, hw: seq<HwSlot>, hw0: seq<HwSlot>, k: nat)
    requires Owned(held, hw) && hw == KeptOnly(hw0, held) && k < |held|
    ensures Owned(held[k := NoHandle], Stopped(hw, held[k]))
    ensures Stopped(hw, held[k]) == KeptOnly(hw0, held[k := NoHandle])
  {
    var h, held', hw' := held[k], held[k := NoHandle], Stopped(hw, held[k]);
    FadesKeeps(held, hw, hw');
    DropKeeps(held, hw', k);
    var kept := KeptOnly(hw0, held');
    forall t | 0 <= t < |hw0|
      ensures hw'[t] == kept[t]
    {
      var g := Handle(t, hw0[t].gen);
      if g in held {
        var j :| 0 <= j < |held| && held[j] == g;
        if j != k {
          assert held'[j] == g;
          assert j < k ==> Live(held[j], hw) ==> held[j] != held[k];
          assert k < j ==> Live(held[k], hw) ==> held[k] != held[j];
        }
      }
    }
  }

  function Freed(v: Voice): Voice { v.(activity := Free, handle := NoHandle) }

  /** A voice lets go of its hardware voice, which is stopped if it still sounds. */
  function VoiceFreed(s: Synth, i: nat): Synth
    requires i < |s.voices|
  {
    s.(voices := s.voices[i := Freed(s.voices[i])], hw := Stopped(s.hw, VoiceHolds(s.voices[i])))
  }

  lemma FreeVoice(s: Synth, known: bool, hw0: seq<HwSlot>, i: nat)
    requires Sound(s, known) && Clean(s, hw0) && i < |s.voices|
    ensures Sound(VoiceFreed(s, i), known) && Clean(VoiceFreed(s, i), hw0)
  {
    hide Owned, KeptOnly, Stopped;
    LetGo(Held(s), s.hw, hw0, i);
    assert Held(VoiceFreed(s, i)) == Held(s)[i := NoHandle];
  }

  function EntryFreed(s: Synth, r: nat): Synth
    requires Sized(s) && r < MIXER_VOICES
  {
    s.(pending := s.pending[r := false], hw := Stopped(s.hw, EntryHolds(s.pending[r], s.handles[r])))
  }

  lemma FreeEntry(s: Synth, known: bool, hw0: seq<HwSlot>, r: nat)
    requires Sound(s, known) && Clean(s, hw0) && r < MIXER_VOICES
    ensures Sound(EntryFreed(s, r), known) && Clean(EntryFreed(s, r), hw0)
  {
    hide Owned, KeptOnly, Stopped;
    var n := |s.voices|;
    LetGo(Held(s), s.hw, hw0, n + r);
    assert Held(EntryFreed(s, r)) == Held(s)[n + r := NoHandle];
  }

  /** The countdown of an entry whose time has not come. */
  lemma AgeEntry(s: Synth, known: bool, r: nat, left: nat)
    requires Sound(s, known) && r < MIXER_VOICES && 1 <= left <= GRACE_TICKS
    ensures var s' := s.(ticks := s.ticks[r := left]);
            Sound(s', known) && Held(s') == Held(s) && forall hw0: seq<HwSlot> :: Clean(s, hw0) ==> Clean(s', hw0)
  {
    hide Owned, KeptOnly;
    assert Held(s.(ticks := s.ticks[r := left])) == Held(s);
  }

  // ---- stealing ----

  /** A sounding voice is handed to an entry and its slot is free at once. */
  function Retired(s: Synth, i: nat, r: nat): Synth
    requires Sized(s) && i < |s.voices| && r < MIXER_VOICES
  {
    s.(voices := s.voices[i := Freed(s.voices[i])], handles := s.handles[r := s.voices[i].handle],
       ticks := s.ticks[r := GRACE_TICKS], pending := s.pending[r := true])
  }

  /** An entry may be overwritten: it is not pending, or what it holds no longer sounds. */
  predicate Spare(s: Synth, r: nat)
    requires Sized(s)
  {
    r < MIXER_VOICES && !Live(EntryHolds(s.pending[r], s.handles[r]), s.hw)
  }

  /** The list of holders after a steal is the old one with the handle moved to the entry. */
  lemma RetiredHolds(s: Synth, i: nat, r: nat)
    requires Sized(s) && i < |s.voices| && r < MIXER_VOICES && !s.voices[i].activity.Free?
    ensures var held := Held(s);
            Held(Retired(s, i, r)) == held[|s.voices| + r := held[i]][i := NoHandle]
  {
    var held := Held(s);
    assert Held(Retired(s, i, r)) == held[|s.voices| + r := held[i]][i := NoHandle];
  }

  lemma Retire(s: Synth, known: bool, i: nat, r: nat)
    requires Sound(s, known) && i < |s.voices| && !s.voices[i].activity.Free?
    requires Live(s.voices[i].handle, s.hw) && Spare(s, r) && (known ==> r == s.voices[i].hwIndex)
    ensures Sound(Retired(s, i, r), known)
  {
    hide Owned, KeptOnly, Live;
    RetiredHolds(s, i, r);
    MoveKeeps(Held(s), s.hw, i, |s.voices| + r);
  }

  /** The cached index says which firmware it is. */
  lemma IndexTells(s: Synth, known: bool, i: nat)
    requires Sound(s, known) && i < |s.voices| && !s.voices[i].activity.Free?
    ensures known <==> s.voices[i].hwIndex < MIXER_VOICES
  {
    assert Held(s)[i] == s.voices[i].handle;
  }

  /** When the index is known, the entry with that index only ever holds a stale handle of the same
      slot. */
  lemma OwnEntryIsSpare(s: Synth, i: nat)
    requires Sound(s, true) && i < |s.voices| && !s.voices[i].activity.Free? && Live(s.voices[i].handle, s.hw)
    ensures s.voices[i].hwIndex < MIXER_VOICES && Spare(s, s.voices[i].hwIndex)
  {
    var n, held, r := |s.voices|, Held(s), s.voices[i].hwIndex;
    assert held[i] == s.voices[i].handle;
    assert held[n + r] == EntryHolds(s.pending[r], s.handles[r]);
    assert EntrySound(s.pending[r], s.handles[r], s.ticks[r], r, true);
    assert Live(held[i], s.hw) ==> held[i] != held[n + r];
  }

  /** When it is not, some entry is spare: 32 sounding voices elsewhere leave no room for this one. */
  lemma SomeEntryIsSpare(s: Synth, known: bool, i: nat)
    requires Sound(s, known) && i < |s.voices| && !s.voices[i].activity.Free? && Live(s.voices[i].handle, s.hw)
    ensures exists r :: 0 <= r < MIXER_VOICES && Spare(s, r)
  {
    hide Owned;
    var n, held := |s.voices|, Held(s);
    EntryAvailable(held, s.hw, i, n);
    var e :| n <= e < |held| && !Live(held[e], s.hw);
    var r := e - n;
    assert Spare(s, r);
  }

  // ---- starting ----

  function Begun(s: Synth, i: nat, slot: nat, v: Voice): Synth
    requires Sized(s) && i < |s.voices| && slot < MIXER_VOICES
  {
    s.(voices := s.voices[i := v], hw := Started(s.hw, slot))
  }

  lemma Begin(s: Synth, known: bool, i: nat, slot: nat, v: Voice)
    requires Sound(s, known) && i < |s.voices| && s.voices[i].activity.Free? && slot < MIXER_VOICES
    requires !v.activity.Free? && v.handle == Handle(slot, s.hw[slot].gen + 1) && v.hwIndex == IndexOf(v.handle, known)
    ensures Sound(Begun(s, i, slot, v), known)
  {
    hide Owned;
    StartKeeps(Held(s), s.hw, i, slot);
    assert Held(Begun(s, i, slot, v)) == Held(s)[i := v.handle];
  }

  /** Voices end, and other groups take slots. */
  lemma MixerMoves(s: Synth, known: bool, hw: seq<HwSlot>)
    requires Sound(s, known) && Fades(s.hw, hw)
    ensures Sound(s.(hw := hw), known)
  {
    FadesKeeps(Held(s), s.hw, hw);
    assert Held(s.(hw := hw)) == Held(s);
  }

  /** Silence: with every voice free and no entry pending, no music voice sounds. */
  lemma NothingHeldNothingSounds(s: Synth, known: bool)
    requires Sound(s, known)
    requires forall i :: 0 <= i < |s.voices| ==> s.voices[i].activity.Free?
    requires forall r :: 0 <= r < MIXER_VOICES ==> !s.pending[r]
    ensures forall t :: 0 <= t < MIXER_VOICES ==> !(s.hw[t].active && s.hw[t].music)
  {
    var held := Held(s);
    forall k | 0 <= k < |held|
      ensures held[k] == NoHandle
    {
      assert k >= |s.voices| ==> !s.pending[k - |s.voices|];
    }
    forall t | 0 <= t < MIXER_VOICES
      ensures !(s.hw[t].active && s.hw[t].music)
    {
      assert Handle(t, s.hw[t].gen) !in held;
    }
  }

  // ---- how many are fading ----

  function Fading(vs: seq<Voice>): (k: nat)
    ensures k == 0 <==> forall v <- vs :: !v.activity.StealPending?
    ensures k <= |vs|
  {
    if vs == [] then 0
    else Fading(vs[..|vs| - 1]) + if vs[|vs| - 1].activity.StealPending? then 1 else 0
  }

  lemma {:induction false} FadingUpdate(vs: seq<Voice>, i: nat, v: Voice)
    requires i < |vs|
    ensures Fading(vs[i := v]) ==
            Fading(vs) - (if vs[i].activity.StealPending? then 1 else 0) + if v.activity.StealPending? then 1 else 0
  {
    var last := |vs| - 1;
    var vs', front := vs[i := v], vs[..last];
    if i == last {
      assert vs'[..last] == front;
    } else {
      assert vs'[..last] == front[i := v] && front[i] == vs[i];
      FadingUpdate(front, i, v);
    }
  }

  // ---- the steps of one slot, and what they keep ----

  /** voice_force_off: a sounding voice starts its fade, a stale one is dropped. */
  function ForcedOff(s: Synth, i: nat, now: Clock): Synth
    requires i < |s.voices|
  {
    if Live(s.voices[i].handle, s.hw) then WithVoice(s, i, s.voices[i].(activity := StealPending, age := now))
    else s.(voices := s.voices[i := Freed(s.voices[i])])
  }

  lemma StaleIsFreed(s: Synth, i: nat)
    requires i < |s.voices| && !s.voices[i].activity.Free? && !Live(s.voices[i].handle, s.hw)
    ensures VoiceFreed(s, i) == s.(voices := s.voices[i := Freed(s.voices[i])])
  {
  }

  lemma ForceOffKeeps(s: Synth, known: bool, hw0: seq<HwSlot>, i: nat, now: Clock)
    requires Sound(s, known) && Clean(s, hw0) && i < |s.voices| && !s.voices[i].activity.Free?
    ensures Sound(ForcedOff(s, i, now), known) && Clean(ForcedOff(s, i, now), hw0)
  {
    hide Sound, Clean;
    if Live(s.voices[i].handle, s.hw) {
      SameHolder(s, known, i, s.voices[i].(activity := StealPending, age := now));
    } else {
      StaleIsFreed(s, i);
      FreeVoice(s, known, hw0, i);
    }
  }

  /** The body of the tick's loop over the voices.  The flag says whether the last volume written for
      the voice was zero. */
  function TickedAt(s: Synth, i: nat, now: Clock, silent: bool): Synth
    requires i < |s.voices|
  {
    var v := s.voices[i];
    if !v.activity.Playing? then s
    else if !Live(v.handle, s.hw) then s.(voices := s.voices[i := Freed(v)])
    else
      var s1 := WithVoice(s, i, Played(v, now));
      if !Played(v, now).vol.stage.Done? then s1
      else if silent then VoiceFreed(s1, i)
      else ForcedOff(s1, i, now)
  }

  lemma TickKeeps(s: Synth, known: bool, hw0: seq<HwSlot>, i: nat, now: Clock, silent: bool)
    requires Sound(s, known) && Clean(s, hw0) && i < |s.voices|
    ensures Sound(TickedAt(s, i, now, silent), known) && Clean(TickedAt(s, i, now, silent), hw0)
  {
    hide Sound, Clean, Advance, StartRelease;
    var v := s.voices[i];
    if v.activity.Playing? {
      if Live(v.handle, s.hw) {
        SameHolder(s, known, i, Played(v, now));
        var s1 := WithVoice(s, i, Played(v, now));
        FreeVoice(s1, known, hw0, i);
        ForceOffKeeps(s1, known, hw0, i, now);
      } else {
        StaleIsFreed(s, i);
        FreeVoice(s, known, hw0, i);
      }
    }
  }
}

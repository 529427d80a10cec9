/** The MIDI player: the header, the tracks, and the pump that the timer calls.  A pump may be cut
    after any event. */
module MidiPlayer {
  import opened LittleEndian
  import opened SmfTrack
  import opened MidiSong
  import SmfHeader

  const MAX_TRACKS := SmfHeader.MAX_TRACKS
  const VOICE_TICK_US := 1000
  const TICK_BUDGET := 500

  lemma DoneStays(t: Track)
    ensures t.done ==> ToNext(t) == (0, t)
  {
  }

  lemma SaneStep(t: Track)
    requires Sane(t) && !t.done
    ensures Sane(Step(t).track)
  {
    StepProgress(t);
  }

  function CellsOf(ts: seq<Track>, ps: seq<int>, gs: seq<Score>): (cs: seq<Cell>)
    requires |gs| <= |ts| && |gs| <= |ps|
    ensures |cs| == |gs| && forall i :: 0 <= i < |gs| ==> cs[i] == Cell(ts[i], ps[i], gs[i])
  {
    seq(|gs|, i requires 0 <= i < |gs| => Cell(ts[i], ps[i], gs[i]))
  }

  lemma TrackLimit(d: seq<byte>)
    requires SmfHeader.Parse(d).Ok?
    ensures 1 <= |SmfHeader.Parse(d).header.bodies| <= MAX_TRACKS && SmfHeader.Parse(d).header.division > 0
  {
    hide SmfHeader.Walk, SmfHeader.Be16, SmfHeader.Be32;
  }

  lemma SendNone(sent: seq<Sent>, i: nat)
    ensures sent + Tagged(i, []) == sent
  {
  }

  lemma IsDueIs(c: Cell)
    ensures IsDue(c) <==> !c.track.done && c.pending <= 0
  {
  }

  /** Nothing is due before track i. */
  predicate NoDue(cs: seq<Cell>, i: nat) { i <= |cs| && forall j :: 0 <= j < i ==> !IsDue(cs[j]) }

  lemma NoDueStep(cs: seq<Cell>, i: nat)
    requires i < |cs|
    ensures NoDue(cs, i) && !IsDue(cs[i]) ==> NoDue(cs, i + 1)
  {
  }

  /** Every one of the first n turns has something to do. */
  predicate AllDue(s: Song, n: nat)
    requires SongOk(s)
  {
    forall k :: 0 <= k < n ==> !NoneDue(Turns(s, k).cells)
  }

  lemma {:induction false} MayStop(s: Song, n: nat)
    requires SongOk(s) && AllDue(s, n) && n <= EVENT_BUDGET
    ensures n > 0 ==> Allowed(s, n, true)
    ensures NoDue(Turns(s, n).cells, |s.cells|) ==> Allowed(s, n, false)
  {
    hide SongOk, Turns, IsDue;
    NoneDueIs(Turns(s, n).cells);
  }

  /** The scan stands at the first track with something due, so this turn is the next one; what was
      not due before it still is not. */
  lemma FirstIs(s: Song, i: nat)
    requires SongOk(s) && i < |s.cells| && NoDue(s.cells, i) && IsDue(s.cells[i])
    ensures !NoneDue(s.cells) && Sane(s.cells[i].track) && Turn(s) == DispatchAt(s, i)
    ensures NoDue(DispatchAt(s, i).cells, i)
  {
    hide SongOk, IsDue, Dispatched, TempoAfter, Rate, Step;
    assert NextDue(s.cells, 0) == i;
    TurnAt(s, i);
  }

  lemma TurnsAt(s: Song, n: nat)
    requires SongOk(s)
    ensures Turns(s, 0) == s && Turns(s, n + 1) == Turn(Turns(s, n))
    ensures NoDue(s.cells, 0) && AllDue(s, 0)
    ensures AllDue(s, n) && !NoneDue(Turns(s, n).cells) ==> AllDue(s, n + 1)
  {
    hide SongOk, Turn, NoneDue;
  }

  lemma {:induction false} NoCalls(s: State)
    requires StateOk(s)
    ensures AfterAll(s, [], []) == s && AllMaySend(s, [], [])
  {
  }

  /** With no live track nothing is due, so time passes and nothing is sent. */
  lemma {:induction false} NothingLive(s: Song, e: nat, n: nat, cut: bool)
    requires SongOk(s) && SongOk(Advanced(s, e)) && !SomeLive(s.cells) && Allowed(Advanced(s, e), n, cut)
    ensures n == 0 && !cut && Turns(Advanced(s, e), n) == Advanced(s, e)
  {
    hide SongOk;
    NoneDueIs(Advanced(s, e).cells);
    assert NoneDue(Turns(Advanced(s, e), 0).cells);
  }

  lemma OpenedFits(s: Song, e: nat, division: nat)
    requires s.division == division && !SomeLive(s.cells)
    ensures Advanced(s, e).cells == s.cells && Advanced(s, e).division == division
    ensures forall i :: 0 <= i < |s.cells| ==> Bodies(s.cells)[i] == s.cells[i].track.data
  {
    assert Advanced(s, e).cells == s.cells;
  }

  /** read_var; the cursor goes in and comes out. */
  method ReadNumber(t0: Track) returns (val: nat, t: Track)
    requires t0.pos <= |t0.data|
    ensures (val, t.pos) == ReadVar(t0.data, t0.pos) && t == t0.(pos := t.pos)
  {
    val, t := 0, t0;
    var i := 0;
    while i < 4 && t.pos < |t.data|
      invariant i <= 4 && t.pos <= |t.data| && t == t0.(pos := t.pos)
      invariant ReadVar(t0.data, t0.pos) == ReadVarFrom(t0.data, t.pos, i, val)
      decreases 4 - i
    {
      var b := t.data[t.pos];
      t := t.(pos := t.pos + 1);
      val := val * 128 + b as int % 128;
      if b < 128 {
        return;
      }
      i := i + 1;
    }
  }

  /** trk_need */
  method Need(t0: Track, n: nat) returns (ok: bool, t: Track)
    ensures ok == (t0.pos <= |t0.data| && n <= |t0.data| - t0.pos)
    ensures t == if ok then t0 else t0.(done := true)
  {
    if t0.pos > |t0.data| || n > |t0.data| - t0.pos {
      return false, t0.(done := true);
    }
    return true, t0;
  }

  datatype PlayResult = AlreadyPlaying | Parsed(parsed: SmfHeader.Parsed)

  class Player {
    const tracks: array<Track>
    const pending: array<int>
    var numTracks: nat
    var division: nat
    var usPerBeat: nat
    var usPerTickQ16: nat
    var playing: bool
    var paused: bool
    var looping: bool
    var lastPumpUs: nat
    var tickAccumUs: nat
    /** The calls into the voice engine since the tracks were last reset, with their tracks. */
    var sent: seq<Sent>
    /** How often the voice engine's tick has been called. */
    var voiceTicks: nat
    /** The song clock: microseconds let through by the pumps since then. */
    ghost var clock: nat
    /** What each track has said since then. */
    ghost var scores: seq<Score>

    ghost predicate Shape()
      reads this
    {
      tracks.Length == pending.Length == MAX_TRACKS && numTracks == |scores| <= MAX_TRACKS
    }

    ghost function Now(): (s: Song)
      requires Shape()
      reads this, tracks, pending
      ensures |s.cells| == numTracks
      ensures forall i :: 0 <= i < numTracks ==> s.cells[i] == Cell(tracks[i], pending[i], scores[i])
    {
      Song(CellsOf(tracks[..], pending[..], scores), sent, division, clock)
    }

    ghost function Whole(): State
      requires Shape()
      reads this, tracks, pending
    {
      State(Now(), playing, paused, looping, lastPumpUs)
    }

    ghost predicate Tempi()
      reads `division, `usPerTickQ16, `usPerBeat, `sent
    {
      division > 0 && usPerTickQ16 == Rate(usPerBeat, division) && usPerBeat == TempoAfter(sent)
    }

    ghost predicate Valid()
      reads this, tracks, pending
    {
      Shape() && Tempi() && tickAccumUs < VOICE_TICK_US && lastPumpUs < TURN && SongOk(Now())
    }

    /** recompute_us_per_tick */
    method RecomputeUsPerTick()
      modifies `usPerTickQ16
      ensures usPerTickQ16 == Rate(usPerBeat, division)
    {
      usPerTickQ16 := if division != 0 then usPerBeat * 65536 / division else 0;
    }

    /** A call into the voice engine, or a change of tempo. */
    method Send(i: nat, event: Event)
      modifies `sent
      ensures sent == old(sent) + Tagged(i, [event])
    {
      sent := sent + [Sent(i, event)];
      assert [Sent(i, event)] == Tagged(i, [event]);
    }

    /** process_event */
    method ProcessEvent(t0: Track, i: nat) returns (t: Track)
      requires Sane(t0) && !t0.done && Tempi()
      modifies `usPerBeat, `usPerTickQ16, `sent
      ensures t == Step(t0).track && Tempi() && sent == old(sent) + Tagged(i, Step(t0).events)
    {
      hide TempoAfter, ReadVarFrom, Rate, Meta, Voice, SysEx;
      t := t0;
      if t.pos >= |t.data| {
        SendNone(sent, i);
        return;
      }
      var status := t.data[t.pos];
      if status < 0x80 {
        status := t.running;
        if status == 0 {
          SendNone(sent, i);
          t := t.(done := true);
          return;
        }
      } else {
        t := t.(pos := t.pos + 1);
        if status < 0xF0 {
          t := t.(running := status);
        }
      }
      if status == 0xFF {
        t := MetaEvent(t, i);
      } else if 0xF0 <= status <= 0xF7 {
        t := SysExEvent(t, i);
      } else {
        t := VoiceEvent(t, status, i);
      }
    }

    method MetaEvent(t0: Track, i: nat) returns (t: Track)
      requires t0.pos <= |t0.data| && Tempi()
      modifies `usPerBeat, `usPerTickQ16, `sent
      ensures t == Meta(t0).track && Tempi() && sent == old(sent) + Tagged(i, Meta(t0).events)
    {
      hide TempoAfter, ReadVarFrom, Rate;
      TempoSent(sent, i, Meta(t0).events);
      SendNone(sent, i);
      var ok;
      ok, t := Need(t0, 1);
      if !ok {
        return;
      }
      var meta := t.data[t.pos];
      t := t.(pos := t.pos + 1);
      var mlen;
      mlen, t := ReadNumber(t);
      if mlen > |t.data| - t.pos {
        t := t.(done := true);
        return;
      }
      if meta == 0x51 && mlen == 3 {
        usPerBeat := t.data[t.pos] as nat * 65536 + t.data[t.pos + 1] as nat * 256 + t.data[t.pos + 2] as nat;
        RecomputeUsPerTick();
        Send(i, Tempo(usPerBeat));
      } else if meta == 0x2F {
        t := t.(done := true);
        Send(i, EndOfTrack);
      } else {
        Send(i, Ignored);
      }
      t := t.(pos := t.pos + mlen);
    }

    method SysExEvent(t0: Track, i: nat) returns (t: Track)
      requires t0.pos <= |t0.data| && Tempi()
      modifies `sent
      ensures t == SysEx(t0).track && Tempi() && sent == old(sent) + Tagged(i, SysEx(t0).events)
    {
      hide TempoAfter, ReadVarFrom, Rate;
      TempoSent(sent, i, SysEx(t0).events);
      SendNone(sent, i);
      var slen;
      slen, t := ReadNumber(t0);
      if slen > |t.data| - t.pos {
        t := t.(done := true);
        return;
      }
      t := t.(pos := t.pos + slen);
      Send(i, Ignored);
    }

    method VoiceEvent(t0: Track, status: byte, i: nat) returns (t: Track)
      requires t0.pos <= |t0.data| && Tempi() && 0x80 <= status
      modifies `sent
      ensures t == Voice(t0, status).track && Tempi() && sent == old(sent) + Tagged(i, Voice(t0, status).events)
    {
      hide TempoAfter, Rate, Low16;
      TempoSent(sent, i, Voice(t0, status).events);
      SendNone(sent, i);
      var cmd, ch := status as nat / 16, status as nat % 16;
      var ok;
      ok, t := Need(t0, if cmd == 0xC || cmd == 0xD then 1 else 2);
      if !ok {
        return;
      }
      var a := t.data[t.pos];
      t := t.(pos := t.pos + 1);
      if cmd == 0xC {
        Send(i, Program(ch, a));
        return;
      } else if cmd == 0xD {
        Send(i, Ignored);
        return;
      }
      var b := t.data[t.pos];
      t := t.(pos := t.pos + 1);
      if cmd == 0x9 {
        Send(i, if b > 0 then NoteOn(ch, a, b) else NoteOff(ch, a));
      } else if cmd == 0x8 {
        Send(i, NoteOff(ch, a));
      } else if cmd == 0xB {
        Send(i, Control(ch, a, b));
      } else if cmd == 0xE {
        Send(i, Bend(ch, Low16(b as nat * 128, a) - 8192));
      } else {
        Send(i, Ignored);
      }
    }

    /** read_next_delta */
    method ReadNextDelta(i: nat)
      requires Shape() && i < numTracks && tracks[i].pos <= |tracks[i].data|
      modifies tracks, pending
      ensures var n := ToNext(old(tracks[i]));
              tracks[..] == old(tracks[..])[i := n.1] &&
              pending[..] == old(pending[..])[i := old(pending[i]) + if n.1.done then 0 else Us(n.0, usPerTickQ16)]
    {
      hide ReadVarFrom, Us;
      var t := tracks[i];
      if t.done || t.pos >= |t.data| {
        tracks[i] := t.(done := true);
        return;
      }
      var delta;
      delta, t := ReadNumber(t);
      tracks[i] := t;
      pending[i] := pending[i] + Us(delta, usPerTickQ16);
    }

    /** of_midi_play, once the engine is set up and the bank is bound. */
    method Play(d: seq<byte>, loop: bool, now: nat) returns (r: PlayResult)
      requires tracks.Length == pending.Length == MAX_TRACKS && tickAccumUs < VOICE_TICK_US && now < TURN
      modifies this, tracks, pending
      ensures old(playing) ==> r == AlreadyPlaying && tracks[..] == old(tracks[..]) && pending[..] == old(pending[..])
      ensures !old(playing) ==> r == Parsed(SmfHeader.Parse(d))
      ensures playing == (old(playing) || (r.Parsed? && r.parsed.Ok?))
      ensures r.Parsed? && r.parsed.Ok? ==>
                var h := r.parsed.header;
                Valid() && Whole() == State(Opened(h.bodies, h.division), true, false, loop, now)
    {
      hide TempoAfter, Rate, CellsOf, SongOk, Begun, Opened;
      if playing {
        return AlreadyPlaying;
      }
      var parsed := SmfHeader.ParseHeader(d);
      r := Parsed(parsed);
      if !parsed.Ok? {
        return;
      }
      TrackLimit(d);
      StartSong(parsed.header, loop, now);
    }

    method StartSong(h: SmfHeader.Header, loop: bool, now: nat)
      requires tracks.Length == pending.Length == MAX_TRACKS && tickAccumUs < VOICE_TICK_US && now < TURN
      requires |h.bodies| <= MAX_TRACKS && h.division > 0
      modifies this, tracks, pending
      ensures Valid() && Whole() == State(Opened(h.bodies, h.division), true, false, loop, now)
    {
      hide TempoAfter, Rate, CellsOf, SongOk, Begun, Opened;
      looping, division := loop, h.division;
      Load(h.bodies);
      Restart(h.bodies);
      playing, paused, lastPumpUs := true, false, now;
    }

    /** The tracks that parse_header found. */
    method Load(bodies: seq<seq<byte>>)
      requires tracks.Length == pending.Length == MAX_TRACKS && |bodies| <= MAX_TRACKS
      modifies tracks, pending, `numTracks, `scores
      ensures Shape() && numTracks == |bodies|
      ensures forall j :: 0 <= j < |bodies| ==> tracks[j].data == bodies[j]
    {
      numTracks := |bodies|;
      scores := seq(|bodies|, _ => Score([], 0, []));
      for i := 0 to |bodies|
        invariant numTracks == |bodies| == |scores|
        invariant forall j :: 0 <= j < i ==> tracks[j].data == bodies[j]
      {
        tracks[i], pending[i] := Fresh(bodies[i]), 0;
      }
    }

    /** reset_channels and reset_tracks */
    method Restart(ghost bodies: seq<seq<byte>>)
      requires Shape() && division > 0 && numTracks == |bodies|
      requires forall j :: 0 <= j < numTracks ==> tracks[j].data == bodies[j]
      modifies tracks, pending, `scores, `usPerBeat, `usPerTickQ16, `sent, `clock
      ensures Shape() && Tempi() && Now() == Opened(bodies, division) && SongOk(Now())
    {
      hide ToNext, Us, Rate, CellsOf, SongOk;
      usPerBeat, sent, clock := DEFAULT_TEMPO, [], 0;
      RecomputeUsPerTick();
      for i := 0 to numTracks
        invariant Shape() && Tempi() && clock == 0 && sent == [] && usPerBeat == DEFAULT_TEMPO
        invariant forall j :: 0 <= j < i ==> Cell(tracks[j], pending[j], scores[j]) == Begun(bodies[j], usPerTickQ16)
        invariant forall j :: i <= j < numTracks ==> tracks[j].data == bodies[j]
      {
        ghost var was, late := tracks[..], pending[..];
        tracks[i] := Fresh(tracks[i].data);
        pending[i] := 0;
        assert tracks[i] == Fresh(bodies[i]);
        ReadNextDelta(i);
        assert tracks[..] == was[i := tracks[i]] && pending[..] == late[i := pending[i]];
        scores := scores[i := Score([], ToNext(Fresh(bodies[i])).0, [usPerTickQ16])];
      }
      assert Now() == Opened(bodies, division);
      OpenedOk(bodies, division);
    }

    // ---- the pump ----

    /** One due event of one track, and the next delta. */
    method DispatchOne(i: nat)
      requires Valid() && i < numTracks && IsDue(Now().cells[i])
      modifies tracks, pending, `scores, `usPerBeat, `usPerTickQ16, `sent
      ensures Valid() && Sane(old(tracks[i])) && Now() == DispatchAt(old(Now()), i)
    {
      hide TempoAfter, Rate, KeepsTime, Step, ToNext, Us, SongOk, CellsOf, Said, Spoken, Noted, Tagged;
      ghost var s := Now();
      DispatchAtOk(s, i);
      var t := ProcessEvent(tracks[i], i);
      DoneStays(t);
      tracks[i] := t;
      if !t.done {
        SaneStep(s.cells[i].track);
        ReadNextDelta(i);
      }
      scores := scores[i := Noted(s.cells[i].track, s.cells[i].score, usPerTickQ16)];
      assert Now().cells == s.cells[i := Dispatched(s.cells[i], usPerTickQ16)];
    }

    /** The dispatch loop.  The time budget may cut it after any event. */
    method DispatchDue() returns (o: Tally)
      requires Valid()
      modifies tracks, pending, `scores, `usPerBeat, `usPerTickQ16, `sent
      ensures Valid() && Now() == Turns(old(Now()), o.n) && Allowed(old(Now()), o.n, o.cut)
    {
      hide TempoAfter, Rate, SongOk, CellsOf, IsDue, DispatchAt, Turn, Turns, NoDue, AllDue, Allowed;
      ghost var s := Now();
      var safety := EVENT_BUDGET;
      ghost var n := 0;
      var i := 0;
      TurnsAt(s, 0);
      while i < numTracks
        invariant 0 <= i <= numTracks && safety == EVENT_BUDGET - n >= 0 && Valid() && Now() == Turns(s, n)
        invariant AllDue(s, n)
        invariant safety > 0 ==> NoDue(Now().cells, i)
      {
        IsDueIs(Now().cells[i]);
        while !tracks[i].done && pending[i] <= 0 && safety > 0
          invariant 0 <= i < numTracks && safety == EVENT_BUDGET - n >= 0 && Valid() && Now() == Turns(s, n)
          invariant AllDue(s, n)
          invariant safety > 0 ==> NoDue(Now().cells, i)
          decreases safety
        {
          IsDueIs(Now().cells[i]);
          ghost var t := Now();
          FirstIs(t, i);
          TurnsAt(s, n);
          DispatchOne(i);
          safety, n := safety - 1, n + 1;
          var late: bool := *;
          if late {
            MayStop(s, n);
            return Tally(EVENT_BUDGET - safety, true);
          }
        }
        IsDueIs(Now().cells[i]);
        NoDueStep(Now().cells, i);
        i := i + 1;
      }
      MayStop(s, n);
      o := Tally(EVENT_BUDGET - safety, safety == 0);
    }

    /** Every live track's countdown and the song clock move together, whatever is cut afterwards. */
    method AdvanceClocks(elapsed: nat) returns (anyActive: bool)
      requires Valid()
      modifies pending, `clock
      ensures Valid() && Now() == Advanced(old(Now()), elapsed) && anyActive == SomeLive(old(Now()).cells)
    {
      hide TempoAfter, Rate, KeepsTime, CellsOf, SongOk;
      ghost var s := Now();
      AdvancedOk(s, elapsed);
      anyActive := false;
      for i := 0 to numTracks
        invariant clock == old(clock) && anyActive == exists j :: 0 <= j < i && !s.cells[j].track.done
        invariant forall j :: 0 <= j < i ==> pending[j] == Later(s.cells[j], elapsed).pending
        invariant forall j :: i <= j < numTracks ==> pending[j] == s.cells[j].pending
      {
        if !tracks[i].done {
          anyActive := true;
          pending[i] := pending[i] - elapsed;
        }
      }
      clock := clock + elapsed;
      assert Now().cells == Advanced(s, elapsed).cells;
    }

    /** The envelope ticks that are due; on overrun, which takes at least one of them, what is left is
        dropped. */
    method FireTicks(elapsed: nat) returns (fired: nat, exceeded: bool)
      requires tickAccumUs < VOICE_TICK_US
      modifies `tickAccumUs, `voiceTicks
      ensures tickAccumUs < VOICE_TICK_US && fired <= TICK_BUDGET && voiceTicks == old(voiceTicks) + fired
      ensures fired * VOICE_TICK_US <= old(tickAccumUs) + elapsed
      ensures !exceeded ==> old(tickAccumUs) + elapsed == fired * VOICE_TICK_US + tickAccumUs
      ensures exceeded ==> fired >= 1 && tickAccumUs == 0
    {
      tickAccumUs := tickAccumUs + elapsed;
      ghost var total := tickAccumUs;
      fired := 0;
      var budget, overrun := TICK_BUDGET, false;
      while tickAccumUs >= VOICE_TICK_US && budget > 0
        invariant total == fired * VOICE_TICK_US + tickAccumUs && budget == TICK_BUDGET - fired >= 0
        invariant voiceTicks == old(voiceTicks) + fired && !overrun
        decreases budget
      {
        voiceTicks := voiceTicks + 1;
        tickAccumUs := tickAccumUs - VOICE_TICK_US;
        budget, fired := budget - 1, fired + 1;
        overrun := *;
        if overrun {
          break;
        }
      }
      exceeded := budget == 0 || overrun;
      if exceeded {
        tickAccumUs := 0;
      }
    }

    /** Less than a millisecond is carried over, and as soon as a millisecond is there the voice engine
        is ticked. */
    predicate Ticked(before: nat, accum: nat, elapsed: nat)
      reads this
    {
      voiceTicks >= before && (voiceTicks - before) * VOICE_TICK_US <= accum + elapsed &&
      (accum + elapsed >= VOICE_TICK_US ==> voiceTicks > before) &&
      (tickAccumUs > 0 ==> accum + elapsed == (voiceTicks - before) * VOICE_TICK_US + tickAccumUs)
    }

    /** What a pump does once time has passed: ticks, clocks, events. */
    method RunFor(elapsed: nat) returns (o: Tally, anyActive: bool)
      requires Valid()
      modifies tracks, pending, `scores, `usPerBeat, `usPerTickQ16, `sent, `clock, `tickAccumUs, `voiceTicks
      ensures Valid() && SongOk(Advanced(old(Now()), elapsed)) && anyActive == SomeLive(old(Now()).cells)
      ensures Now() == Turns(Advanced(old(Now()), elapsed), o.n)
      ensures Allowed(Advanced(old(Now()), elapsed), o.n, o.cut)
      ensures Ticked(old(voiceTicks), old(tickAccumUs), elapsed)
    {
      hide TempoAfter, Rate, SongOk, SomeLive, Us, CellsOf, Advanced, Turns, Allowed;
      var _, _ := FireTicks(elapsed);
      anyActive := AdvanceClocks(elapsed);
      o := DispatchDue();
    }

    /** of_midi_pump.  The new state is that of the pump at this time with this many events sent; as
        many are sent as are due, or a budget cuts it after at least one. */
    method Pump(now: nat, later: nat) returns (o: Tally)
      requires Valid() && now < TURN && later < TURN
      modifies tracks, pending, this`scores, `usPerBeat, `usPerTickQ16, `sent, `clock, `lastPumpUs, `tickAccumUs
      modifies `playing, `voiceTicks
      ensures Valid() && Whole() == Pumped(old(Whole()), now, later, o.n)
      ensures MaySend(old(Whole()), now, o.n, o.cut)
      ensures Ticked(old(voiceTicks), old(tickAccumUs), Interval(old(Whole()), now))
    {
      hide TempoAfter, Rate, SongOk, SomeLive, Us, CellsOf, Advanced, Turns, Allowed, Opened;
      o := Tally(0, false);
      if !playing || paused {
        return;
      }
      ghost var s := Now();
      var e := (now - lastPumpUs) % TURN;
      lastPumpUs := now;
      if e > MAX_ELAPSED {
        e := MAX_ELAPSED;
      }
      if e > 0 {
        var anyActive;
        o, anyActive := RunFor(e);
        if !anyActive {
          NothingLive(s, e, o.n, o.cut);
          if looping {
            OpenedFits(s, e, this.division);
            Restart(Bodies(s.cells));
            lastPumpUs := later;
          } else {
            playing := false;
          }
        }
      }
    }

    method Pause()
      requires Valid()
      modifies `paused
      ensures Valid() && Whole() == After(old(Whole()), PauseAt(0), Tally(0, false))
    {
      hide SongOk;
      if playing {
        paused := true;
      }
    }

    /** Time that passes while paused is not made up for. */
    method Resume(now: nat)
      requires Valid() && now < TURN
      modifies `paused, `lastPumpUs
      ensures Valid() && Whole() == After(old(Whole()), ResumeAt(now), Tally(0, false))
    {
      hide SongOk;
      if paused {
        paused, lastPumpUs := false, now;
      }
    }

    /** Any sequence of pumps, pauses and resumes at any times, each pump cut anywhere: the state is the
        one that these calls with these outcomes lead to. */
    method Run(calls: seq<Call>) returns (os: seq<Tally>)
      requires Valid() && forall c <- calls :: OnTimer(c)
      modifies this`usPerBeat, `usPerTickQ16, `sent, `clock, `lastPumpUs, `tickAccumUs, `playing, `paused, `scores
      modifies this`voiceTicks, tracks, pending
      ensures Valid() && |os| == |calls|
      ensures Whole() == AfterAll(old(Whole()), calls, os) && AllMaySend(old(Whole()), calls, os)
      ensures forall i :: 0 <= i < numTracks ==>
                Said(sent, i) <= Spoken(Script(tracks[i].data)) &&
                (!tracks[i].done ==> |scores[i].rates| == |scores[i].log| + 1 && pending[i] == Due(scores[i]) - clock)
    {
      hide SongOk, Pumped, MaySend, AfterAll, AllMaySend, Tempi, Said, Spoken;
      ghost var s := Whole();
      os := [];
      NoCalls(s);
      assert calls[..0] == [];
      for k := 0 to |calls|
        invariant Valid() && |os| == k && (forall c <- calls[..k] :: OnTimer(c))
        invariant Whole() == AfterAll(s, calls[..k], os) && AllMaySend(s, calls[..k], os)
      {
        var c := calls[k];
        assert c in calls;
        var o := Tally(0, false);
        match c {
          case PumpAt(now, later) =>
            o := Pump(now, later);
          case PauseAt(_) =>
            Pause();
          case ResumeAt(now) =>
            Resume(now);
        }
        AfterSnoc(s, calls[..k], os, c, o);
        assert calls[..k + 1] == calls[..k] + [c];
        os := os + [o];
      }
      assert calls[..|calls|] == calls;
      forall i | 0 <= i < numTracks
        ensures Said(sent, i) <= Spoken(Script(tracks[i].data))
        ensures !tracks[i].done ==> |scores[i].rates| == |scores[i].log| + 1 && pending[i] == Due(scores[i]) - clock
      {
        SentIsPrefix(Now(), i);
      }
    }
  }
}

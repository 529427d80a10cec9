/** The MIDI player as a value: the tracks against one song clock, the events sent so far, and what
    any run of pumps, cut anywhere, makes of them. */
module MidiSong {
  import opened LittleEndian
  import opened SmfTrack

  const DEFAULT_TEMPO := 500000
  const MAX_ELAPSED := 500000
  const EVENT_BUDGET := 10000
  const TURN := 0x1_0000_0000

  // ---- what has been sent ----

  /** One call into the voice engine or the tempo, and the track it came from. */
  datatype Sent = Sent(track: nat, event: Event)

  /** Microseconds per beat after the events sent so far. */
  function TempoAfter(sent: seq<Sent>): nat {
    if sent == [] then DEFAULT_TEMPO
    else if sent[|sent| - 1].event.Tempo? then sent[|sent| - 1].event.usPerBeat
    else TempoAfter(sent[..|sent| - 1])
  }

  function Tagged(track: nat, events: seq<Event>): (r: seq<Sent>)
    ensures |r| == |events| && forall k :: 0 <= k < |r| ==> r[k] == Sent(track, events[k])
  {
    seq(|events|, k requires 0 <= k < |events| => Sent(track, events[k]))
  }

  lemma {:induction false} TempoSent(sent: seq<Sent>, track: nat, events: seq<Event>)
    requires |events| <= 1
    ensures TempoAfter(sent + Tagged(track, events)) ==
            if events != [] && events[0].Tempo? then events[0].usPerBeat else TempoAfter(sent)
  {
    var more := Tagged(track, events);
    if events != [] {
      assert more == [Sent(track, events[0])] && (sent + more)[..|sent|] == sent;
    } else {
      assert sent + more == sent;
    }
  }

  /** The events of one track among those sent, in order. */
  function Said(sent: seq<Sent>, track: nat): seq<Event> {
    if sent == [] then []
    else
      var last := sent[|sent| - 1];
      Said(sent[..|sent| - 1], track) + if last.track == track then [last.event] else []
  }

  /** The events of a script, in order. */
  function Spoken(log: seq<Beat>): seq<Event> {
    if log == [] then [] else Spoken(log[..|log| - 1]) + log[|log| - 1].events
  }

  lemma {:induction false} SaidMore(sent: seq<Sent>, track: nat, events: seq<Event>, other: nat)
    requires |events| <= 1
    ensures Said(sent + Tagged(track, events), other) == Said(sent, other) + if track == other then events else []
  {
    var more := Tagged(track, events);
    if events != [] {
      assert more == [Sent(track, events[0])] && (sent + more)[..|sent|] == sent;
      assert events == [events[0]];
    } else {
      assert sent + more == sent;
    }
  }

  lemma {:induction false} SpokenMore(log: seq<Beat>, b: Beat)
    ensures Spoken(log + [b]) == Spoken(log) + b.events
  {
    assert (log + [b])[..|log|] == log;
  }

  lemma {:induction false} SpokenPrefix(log: seq<Beat>, all: seq<Beat>)
    requires log <= all
    ensures Spoken(log) <= Spoken(all)
    decreases |all|
  {
    if |log| < |all| {
      SpokenPrefix(log, all[..|all| - 1]);
    } else {
      assert log == all;
    }
  }

  // ---- one track ----

  /** A track with its countdown and its record. */
  datatype Cell = Cell(track: Track, pending: int, score: Score)

  predicate KeepsTime(c: Cell, clock: int) { InStep(c.track, c.pending, c.score, clock) }

  predicate IsDue(c: Cell) { !c.track.done && c.pending <= 0 }

  /** One event, and the next delta at the rate in force after it. */
  function Dispatched(c: Cell, rate: nat): Cell
    requires Sane(c.track)
  {
    var n := ToNext(Step(c.track).track);
    Cell(n.1, if n.1.done then c.pending else c.pending + Us(n.0, rate), Noted(c.track, c.score, rate))
  }

  lemma DispatchedKeepsTime(c: Cell, clock: int, rate: nat)
    requires KeepsTime(c, clock) && IsDue(c)
    ensures Sane(c.track) && |Step(c.track).events| <= 1 && KeepsTime(Dispatched(c, rate), clock)
    ensures Dispatched(c, rate).score.log == c.score.log + [Beat(c.score.delta, Step(c.track).events)]
  {
    hide Step, ToNext, Us, InStep;
    IsSane(c, clock);
    StepProgress(c.track);
    DispatchKeeps(c.track, c.pending, c.score, clock, rate);
  }

  lemma IsSane(c: Cell, clock: int)
    requires KeepsTime(c, clock)
    ensures Sane(c.track)
  {
  }

  function Later(c: Cell, elapsed: nat): Cell {
    if c.track.done then c else c.(pending := c.pending - elapsed)
  }

  lemma LaterKeepsTime(c: Cell, clock: int, elapsed: nat)
    requires KeepsTime(c, clock)
    ensures KeepsTime(Later(c, elapsed), clock + elapsed)
  {
    hide InStep;
    ClockKeeps(c.track, c.pending, c.score, clock, elapsed);
  }

  function Begun(data: seq<byte>, rate: nat): Cell {
    var n := ToNext(Fresh(data));
    Cell(n.1, if n.1.done then 0 else Us(n.0, rate), Score([], n.0, [rate]))
  }

  lemma BegunKeepsTime(data: seq<byte>, rate: nat)
    ensures KeepsTime(Begun(data, rate), 0) && Begun(data, rate).track.data == data
    ensures Begun(data, rate).score.log == []
  {
    StartKeeps(data, rate);
    StepData(Fresh(data));
  }

  /** Where a track stands once nothing of it is due: it has said exactly the beats that were due by
      the clock, and either that is all it has to say or the next beat is still to come. */
  lemma CaughtUp(c: Cell, clock: int)
    requires KeepsTime(c, clock)
    ensures c.score.log <= Script(c.track.data) && |c.score.log| <= |c.score.rates|
    ensures Sum(c.score.log, c.score.rates[..|c.score.log|]) <= clock
    ensures !IsDue(c) <==>
            c.score.log == Script(c.track.data) ||
            (|c.score.rates| == |c.score.log| + 1 && !c.track.done && Due(c.score) > clock)
  {
    hide Sum, Step, ToNext;
    LogIsPrefix(c.track, c.pending, c.score, clock);
  }

  // ---- all tracks ----

  datatype Song = Song(cells: seq<Cell>, sent: seq<Sent>, division: nat, clock: nat)

  /** Every track keeps time with the one clock, and what was sent of it is what its record says. */
  predicate SongOk(s: Song) {
    s.division > 0 && forall i :: 0 <= i < |s.cells| ==> CellOk(s, i)
  }

  predicate CellOk(s: Song, i: nat)
    requires i < |s.cells|
  {
    KeepsTime(s.cells[i], s.clock) && Said(s.sent, i) == Spoken(s.cells[i].score.log)
  }

  /** Each track has sent an exact prefix of the events its bytes spell, none lost, repeated or made
      up, and its countdown is its next due time less the clock. */
  lemma {:induction false} SentIsPrefix(s: Song, i: nat)
    requires SongOk(s) && i < |s.cells|
    ensures var c := s.cells[i];
            Said(s.sent, i) <= Spoken(Script(c.track.data)) &&
            (c.track.done ==> Said(s.sent, i) == Spoken(Script(c.track.data))) &&
            (!c.track.done ==> |c.score.rates| == |c.score.log| + 1 && c.pending == Due(c.score) - s.clock)
  {
    hide Sum, Step, ToNext;
    assert CellOk(s, i);
    var c := s.cells[i];
    LogIsPrefix(c.track, c.pending, c.score, s.clock);
    SpokenPrefix(c.score.log, Script(c.track.data));
  }

  /** The first track from i on with something due. */
  function NextDue(cs: seq<Cell>, i: nat): (k: nat)
    requires i <= |cs|
    ensures i <= k <= |cs| && (k < |cs| ==> IsDue(cs[k])) && forall j :: i <= j < k ==> !IsDue(cs[j])
    decreases |cs| - i
  {
    if i == |cs| || IsDue(cs[i]) then i else NextDue(cs, i + 1)
  }

  predicate NoneDue(cs: seq<Cell>) { NextDue(cs, 0) == |cs| }

  lemma NoneDueIs(cs: seq<Cell>)
    ensures NoneDue(cs) <==> (forall i :: 0 <= i < |cs| ==> !IsDue(cs[i]))
  {
  }

  /** Track i sends its next event and reads on, at the tempo in force after the event. */
  function DispatchAt(s: Song, i: nat): Song
    requires i < |s.cells| && Sane(s.cells[i].track)
  {
    var sent := s.sent + Tagged(i, Step(s.cells[i].track).events);
    Song(s.cells[i := Dispatched(s.cells[i], Rate(TempoAfter(sent), s.division))], sent, s.division, s.clock)
  }

  lemma DispatchAtOk(s: Song, i: nat)
    requires SongOk(s) && i < |s.cells| && IsDue(s.cells[i])
    ensures Sane(s.cells[i].track) && SongOk(DispatchAt(s, i))
  {
    hide KeepsTime, Dispatched, Step, Rate, TempoAfter, Said, Spoken;
    assert CellOk(s, i);
    var c := s.cells[i];
    IsSane(c, s.clock);
    var t := DispatchAt(s, i);
    var rate := Rate(TempoAfter(t.sent), s.division);
    DispatchedKeepsTime(c, s.clock, rate);
    SpokenMore(c.score.log, Beat(c.score.delta, Step(c.track).events));
    forall j | 0 <= j < |t.cells|
      ensures CellOk(t, j)
    {
      assert CellOk(s, j);
      SaidMore(s.sent, i, Step(c.track).events, j);
    }
  }

  /** One turn of the dispatch loop: the first track with something due. */
  function Turn(s: Song): (t: Song)
    requires SongOk(s)
    ensures SongOk(t) && |t.cells| == |s.cells| && t.clock == s.clock && t.division == s.division
  {
    var i := NextDue(s.cells, 0);
    if i < |s.cells| then
      DispatchAtOk(s, i);
      DispatchAt(s, i)
    else s
  }

  function Turns(s: Song, n: nat): (t: Song)
    requires SongOk(s)
    ensures SongOk(t) && |t.cells| == |s.cells| && t.clock == s.clock && t.division == s.division
  {
    if n == 0 then s else Turn(Turns(s, n - 1))
  }

  /** What n events of one pump may be: all of them due, at most the budget; a pump that is not cut
      goes on until nothing is due, and a cut one has sent something. */
  predicate Allowed(s: Song, n: nat, cut: bool)
    requires SongOk(s)
  {
    n <= EVENT_BUDGET && (forall k :: 0 <= k < n ==> !NoneDue(Turns(s, k).cells)) &&
    if cut then n > 0 else NoneDue(Turns(s, n).cells)
  }

  /** Every turn is one beat: n turns send n beats in all. */
  lemma {:induction false} TurnsCount(s: Song, n: nat)
    requires SongOk(s) && forall k :: 0 <= k < n ==> !NoneDue(Turns(s, k).cells)
    ensures Beats(Turns(s, n).cells) == Beats(s.cells) + n
    ensures s.sent <= Turns(s, n).sent
  {
    hide SongOk, Dispatched, Step;
    if n > 0 {
      TurnsCount(s, n - 1);
      var t := Turns(s, n - 1);
      var i := NextDue(t.cells, 0);
      TurnAt(t, i);
      BeatsUpdate(t.cells, i, Turn(t).cells[i]);
    }
  }

  lemma TurnAt(s: Song, i: nat)
    requires SongOk(s) && i == NextDue(s.cells, 0) < |s.cells|
    ensures Sane(s.cells[i].track) && Turn(s) == DispatchAt(s, i)
    ensures |Turn(s).cells[i].score.log| == |s.cells[i].score.log| + 1
    ensures Turn(s).cells == s.cells[i := Turn(s).cells[i]] && s.sent <= Turn(s).sent
  {
    hide KeepsTime, Step, Rate, TempoAfter, Said, Spoken;
    assert CellOk(s, i);
    IsSane(s.cells[i], s.clock);
  }

  function Beats(cs: seq<Cell>): nat {
    if cs == [] then 0 else Beats(cs[..|cs| - 1]) + |cs[|cs| - 1].score.log|
  }

  lemma {:induction false} BeatsUpdate(cs: seq<Cell>, i: nat, c: Cell)
    requires i < |cs|
    ensures Beats(cs[i := c]) == Beats(cs) - |cs[i].score.log| + |c.score.log|
  {
    var last := |cs| - 1;
    var front, cs' := cs[..last], cs[i := c];
    if i == last {
      assert cs'[..last] == front;
    } else {
      assert cs'[..last] == front[i := c] && front[i] == cs[i];
      BeatsUpdate(front, i, c);
    }
  }

  // ---- time ----

  function AllLater(cs: seq<Cell>, elapsed: nat): (ds: seq<Cell>)
    ensures |ds| == |cs| && forall i :: 0 <= i < |cs| ==> ds[i] == Later(cs[i], elapsed)
  {
    seq(|cs|, i requires 0 <= i < |cs| => Later(cs[i], elapsed))
  }

  function Advanced(s: Song, elapsed: nat): Song {
    s.(cells := AllLater(s.cells, elapsed), clock := s.clock + elapsed)
  }

  lemma AdvancedOk(s: Song, elapsed: nat)
    requires SongOk(s)
    ensures SongOk(Advanced(s, elapsed))
  {
    hide KeepsTime, Said, Spoken;
    var t := Advanced(s, elapsed);
    forall i | 0 <= i < |t.cells|
      ensures CellOk(t, i)
    {
      assert CellOk(s, i);
      LaterKeepsTime(s.cells[i], s.clock, elapsed);
    }
  }

  function Opened(bodies: seq<seq<byte>>, division: nat): (s: Song)
    ensures |s.cells| == |bodies|
    ensures forall i :: 0 <= i < |bodies| ==> s.cells[i] == Begun(bodies[i], Rate(DEFAULT_TEMPO, division))
  {
    Song(seq(|bodies|, i requires 0 <= i < |bodies| => Begun(bodies[i], Rate(DEFAULT_TEMPO, division))), [], division, 0)
  }

  lemma OpenedOk(bodies: seq<seq<byte>>, division: nat)
    requires division > 0
    ensures SongOk(Opened(bodies, division))
  {
    hide KeepsTime, Begun, Rate;
    var s := Opened(bodies, division);
    forall i | 0 <= i < |s.cells|
      ensures CellOk(s, i)
    {
      BegunKeepsTime(bodies[i], Rate(DEFAULT_TEMPO, division));
    }
  }

  function Bodies(cs: seq<Cell>): (bodies: seq<seq<byte>>)
    ensures |bodies| == |cs| && forall i :: 0 <= i < |cs| ==> bodies[i] == cs[i].track.data
  {
    seq(|cs|, i requires 0 <= i < |cs| => cs[i].track.data)
  }

  predicate SomeLive(cs: seq<Cell>) { exists i :: 0 <= i < |cs| && !cs[i].track.done }

  // ---- pumps ----

  datatype State = State(song: Song, playing: bool, paused: bool, looping: bool, last: nat)

  /** The microseconds a pump lets through: none while stopped or paused, else those since the last
      one on the wrapping timer, at most half a second. */
  function Interval(s: State, now: nat): (e: nat)
    ensures e <= MAX_ELAPSED
  {
    if !s.playing || s.paused then 0
    else
      var e := (now - s.last) % TURN;
      if e > MAX_ELAPSED then MAX_ELAPSED else e
  }

  predicate StateOk(s: State) { SongOk(s.song) && s.last < TURN }

  /** of_midi_pump at time now that sends n events; later is the timer when a looping song has been set
      back. */
  function Pumped(s: State, now: nat, later: nat, n: nat): (t: State)
    requires StateOk(s) && now < TURN && later < TURN
    ensures StateOk(t)
  {
    if !s.playing || s.paused then s
    else if Interval(s, now) == 0 then s.(last := now)
    else
      var moved := Advanced(s.song, Interval(s, now));
      AdvancedOk(s.song, Interval(s, now));
      if SomeLive(s.song.cells) then s.(song := Turns(moved, n), last := now)
      else if s.looping then
        OpenedOk(Bodies(s.song.cells), s.song.division);
        s.(song := Opened(Bodies(s.song.cells), s.song.division), last := later)
      else s.(song := moved, playing := false, last := now)
  }

  /** Whether a pump may send n events and be cut. */
  predicate MaySend(s: State, now: nat, n: nat, cut: bool)
    requires StateOk(s)
  {
    if Interval(s, now) == 0 then n == 0 && !cut
    else
      AdvancedOk(s.song, Interval(s, now));
      Allowed(Advanced(s.song, Interval(s, now)), n, cut)
  }

  datatype Call = PumpAt(now: nat, later: nat) | PauseAt(now: nat) | ResumeAt(now: nat)

  predicate OnTimer(c: Call) { c.now < TURN && (c.PumpAt? ==> c.later < TURN) }

  /** How many events a pump sent and whether a budget cut it. */
  datatype Tally = Tally(n: nat, cut: bool)

  function After(s: State, c: Call, o: Tally): (t: State)
    requires StateOk(s) && OnTimer(c)
    ensures StateOk(t)
  {
    match c
    case PumpAt(now, later) => Pumped(s, now, later, o.n)
    case PauseAt(_) => if s.playing then s.(paused := true) else s
    case ResumeAt(now) => if s.paused then s.(paused := false, last := now) else s
  }

  /** Any sequence of calls. */
  function AfterAll(s: State, calls: seq<Call>, os: seq<Tally>): (t: State)
    requires StateOk(s) && |os| == |calls| && forall c <- calls :: OnTimer(c)
    ensures StateOk(t)
    decreases |calls|
  {
    if calls == [] then s
    else
      var k := |calls| - 1;
      assert forall c <- calls[..k] :: c in calls;
      assert calls[k] in calls;
      After(AfterAll(s, calls[..k], os[..k]), calls[k], os[k])
  }

  predicate AllMaySend(s: State, calls: seq<Call>, os: seq<Tally>)
    requires StateOk(s) && |os| == |calls| && forall c <- calls :: OnTimer(c)
    decreases |calls|
  {
    calls == [] ||
    var k := |calls| - 1;
    (forall c <- calls[..k] :: OnTimer(c)) && AllMaySend(s, calls[..k], os[..k]) &&
    (calls[k].PumpAt? ==> MaySend(AfterAll(s, calls[..k], os[..k]), calls[k].now, os[k].n, os[k].cut))
  }

  lemma {:induction false} AfterSnoc(s: State, calls: seq<Call>, os: seq<Tally>, c: Call, o: Tally)
    requires StateOk(s) && |os| == |calls| && (forall x <- calls :: OnTimer(x)) && OnTimer(c)
    ensures forall x <- calls + [c] :: OnTimer(x)
    ensures AfterAll(s, calls + [c], os + [o]) == After(AfterAll(s, calls, os), c, o)
    ensures AllMaySend(s, calls + [c], os + [o]) <==>
            AllMaySend(s, calls, os) && (c.PumpAt? ==> MaySend(AfterAll(s, calls, os), c.now, o.n, o.cut))
  {
    hide StateOk, After, MaySend;
    assert (calls + [c])[..|calls|] == calls && (os + [o])[..|os|] == os;
  }

  /** Pumps at these times, in microseconds that do not wrap. */
  predicate PumpsAt(calls: seq<Call>, times: seq<nat>) {
    |times| == |calls| && forall k :: 0 <= k < |calls| ==> calls[k].PumpAt? && calls[k].now == times[k] % TURN
  }

  /** Each at most half a second after the one before. */
  predicate Steady(start: nat, times: seq<nat>) {
    forall k :: 0 <= k < |times| ==> Before(start, times, k) <= times[k] <= Before(start, times, k) + MAX_ELAPSED
  }

  /** The time of the pump before the k-th, or of the start. */
  function Before(start: nat, times: seq<nat>, k: nat): nat
    requires k <= |times|
  {
    if k == 0 then start else times[k - 1]
  }

  /** The song was not over before any of the pumps. */
  predicate StaysLive(s: State, calls: seq<Call>, os: seq<Tally>)
    requires StateOk(s) && |os| == |calls| && forall c <- calls :: OnTimer(c)
    decreases |calls|
  {
    SomeLive(AfterAll(s, calls, os).song.cells) &&
    (calls != [] ==>
       var k := |calls| - 1;
       (forall c <- calls[..k] :: OnTimer(c)) && StaysLive(s, calls[..k], os[..k]))
  }

  /** The song clock is real time: while a song plays, and is pumped at least twice a second, the clock
      has advanced by exactly the time that has passed, however often the timer has wrapped and wherever
      the pumps were cut. */
  lemma {:induction false} ClockIsRealTime(s: State, calls: seq<Call>, os: seq<Tally>, start: nat, times: seq<nat>)
    requires StateOk(s) && s.playing && !s.paused && s.last == start % TURN
    requires |times| == |os| == |calls| && (forall c <- calls :: OnTimer(c))
    requires PumpsAt(calls, times) && Steady(start, times)
    requires StaysLive(s, calls, os)
    ensures var t := AfterAll(s, calls, os);
            var end := Before(start, times, |times|);
            t.playing && !t.paused && t.last == end % TURN && t.song.clock == s.song.clock + (end - start)
    decreases |calls|
  {
    hide StateOk, SomeLive, Pumped, SongOk, PumpsAt, Steady, StaysLive, OnTimer;
    if calls != [] {
      var k := |calls| - 1;
      var front, outs, earlier := calls[..k], os[..k], times[..k];
      LiveButLast(s, calls, os);
      TimesButLast(calls, start, times);
      ClockIsRealTime(s, front, outs, start, earlier);
      assert calls[k] in calls;
      PumpIsRealTime(AfterAll(s, front, outs), calls[k], os[k].n, Before(start, times, k), times[k]);
    }
  }

  lemma {:induction false} LiveButLast(s: State, calls: seq<Call>, os: seq<Tally>)
    requires StateOk(s) && |os| == |calls| > 0 && (forall c <- calls :: OnTimer(c)) && StaysLive(s, calls, os)
    ensures var k := |calls| - 1;
            (forall c <- calls[..k] :: OnTimer(c)) &&
            StaysLive(s, calls[..k], os[..k]) && SomeLive(AfterAll(s, calls[..k], os[..k]).song.cells)
  {
    hide SomeLive, StateOk, AfterAll, OnTimer;
    var k := |calls| - 1;
    assert StaysLive(s, calls[..k], os[..k]);
  }

  lemma TimesButLast(calls: seq<Call>, start: nat, times: seq<nat>)
    requires |times| == |calls| > 0 && PumpsAt(calls, times) && Steady(start, times)
    ensures var k := |calls| - 1;
            PumpsAt(calls[..k], times[..k]) && Steady(start, times[..k]) &&
            Before(start, times[..k], k) == Before(start, times, k) && calls[k].PumpAt? &&
            calls[k].now == times[k] % TURN && Before(start, times, k) <= times[k] <= Before(start, times, k) + MAX_ELAPSED
  {
    var k := |calls| - 1;
    forall j | 0 <= j < k
      ensures Before(start, times[..k], j) <= times[..k][j] <= Before(start, times[..k], j) + MAX_ELAPSED
    {
      assert Before(start, times[..k], j) == Before(start, times, j);
    }
  }

  /** One pump of a song that plays. */
  lemma PumpIsRealTime(s: State, c: Call, n: nat, before: nat, at: nat)
    requires StateOk(s) && s.playing && !s.paused && s.last == before % TURN && SomeLive(s.song.cells)
    requires OnTimer(c) && c.PumpAt? && c.now == at % TURN && before <= at <= before + MAX_ELAPSED
    ensures var t := Pumped(s, c.now, c.later, n);
            t.playing && !t.paused && t.last == at % TURN && t.song.clock == s.song.clock + (at - before)
  {
    hide SongOk, SomeLive, Turns, AllLater, Opened, Bodies;
    TimerGap(before, at);
    AdvancedOk(s.song, Interval(s, c.now));
  }

  lemma TimerGap(a: nat, b: nat)
    requires a <= b <= a + MAX_ELAPSED
    ensures (b % TURN - a % TURN) % TURN == b - a
  {
    var p, q := a / TURN, b / TURN;
    assert a == p * TURN + a % TURN && b == q * TURN + b % TURN;
    DivModUnique(b % TURN - a % TURN, TURN, p - q, b - a);
  }
}

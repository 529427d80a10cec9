/** One track of a Standard MIDI File: variable-length numbers, events with running status, and the
    script of beats (a delta and at most one event each) that the bytes spell out. */
module SmfTrack {
  import opened LittleEndian

  datatype Track = Track(data: seq<byte>, pos: nat, running: byte, done: bool)

  datatype Event =
    | NoteOn(ch: nat, note: byte, vel: byte)
    | NoteOff(ch: nat, note: byte)
    | Program(ch: nat, number: byte)
    | Control(ch: nat, cc: byte, val: byte)
    | Bend(ch: nat, amount: int)
    | Tempo(usPerBeat: nat)
    | EndOfTrack
    | Ignored

  datatype Beat = Beat(delta: nat, events: seq<Event>)

  // ---- variable-length numbers ----

  /** read_var from its k-th byte on. */
  function ReadVarFrom(d: seq<byte>, pos: nat, k: nat, val: nat): (r: (nat, nat))
    requires k <= 4
    ensures pos <= r.1 <= pos + 4 - k
    ensures pos <= |d| ==> r.1 <= |d|
    ensures k < 4 && pos < |d| ==> r.1 > pos
    decreases 4 - k
  {
    if k == 4 || pos >= |d| then (val, pos)
    else
      var b := d[pos];
      var v := val * 128 + b as int % 128;
      if b < 128 then (v, pos + 1) else ReadVarFrom(d, pos + 1, k + 1, v)
  }

  function ReadVar(d: seq<byte>, pos: nat): (r: (nat, nat))
    ensures pos <= |d| ==> pos <= r.1 <= |d|
    ensures pos < |d| ==> r.1 > pos
  {
    ReadVarFrom(d, pos, 0, 0)
  }

  /** Four groups of seven bits. */
  lemma VarFits(d: seq<byte>, pos: nat)
    ensures ReadVar(d, pos).0 < 0x1000_0000
  {
    Group(d, pos, 0, 0, 1);
  }

  lemma {:induction false} Group(d: seq<byte>, pos: nat, k: nat, val: nat, bound: nat)
    requires k <= 4 && val < bound && bound == [1, 128, 0x4000, 0x20_0000, 0x1000_0000][k]
    ensures ReadVarFrom(d, pos, k, val).0 < 0x1000_0000
    decreases 4 - k
  {
    if k < 4 && pos < |d| {
      Group(d, pos + 1, k + 1, val * 128 + d[pos] as int % 128, bound * 128);
    }
  }

  /** A number as the format writes it: seven bits a byte, the highest group first, every byte but the
      last with its top bit set. */
  function VarBytes(v: nat): seq<byte> {
    VarHead(v / 128) + [(v % 128) as byte]
  }

  function VarHead(v: nat): seq<byte> {
    if v == 0 then [] else VarHead(v / 128) + [(128 + v % 128) as byte]
  }

  /** Reading past bytes that all have their top bit set. */
  lemma {:induction false} ReadsHead(before: seq<byte>, v: nat, after: seq<byte>)
    requires |VarHead(v)| <= 4
    ensures var d, k := before + VarHead(v) + after, |VarHead(v)|;
            ReadVarFrom(d, |before|, 0, 0) == ReadVarFrom(d, |before| + k, k, v)
    decreases v
  {
    if v > 0 {
      var front, b := VarHead(v / 128), (128 + v % 128) as byte;
      assert before + VarHead(v) + after == before + front + ([b] + after);
      ReadsHead(before, v / 128, [b] + after);
      ReadsOne(before + front + ([b] + after), |before| + |front|, |front|, v / 128, v);
    }
  }

  lemma ReadsOne(d: seq<byte>, pos: nat, k: nat, val: nat, v: nat)
    requires pos < |d| && k < 4 && val == v / 128 && d[pos] as int == 128 + v % 128
    ensures ReadVarFrom(d, pos, k, val) == ReadVarFrom(d, pos + 1, k + 1, v)
  {
    assert d[pos] as int % 128 == v % 128;
  }

  lemma {:induction false} HeadLength(v: nat, k: nat, bound: nat)
    requires v < bound && bound == if k == 0 then 1 else if k == 1 then 128 else if k == 2 then 0x4000 else 0x20_0000
    requires k <= 3
    ensures |VarHead(v)| <= k
    decreases k
  {
    if v > 0 {
      HeadLength(v / 128, k - 1, bound / 128);
    }
  }

  /** What was written comes back, wherever it stands. */
  lemma VarRoundTrip(before: seq<byte>, v: nat, after: seq<byte>)
    requires v < 0x1000_0000
    ensures ReadVar(before + VarBytes(v) + after, |before|) == (v, |before| + |VarBytes(v)|)
  {
    hide VarHead;
    var d, pos, head := before + VarBytes(v) + after, |before|, VarHead(v / 128);
    HeadLength(v / 128, 3, 0x20_0000);
    assert d == before + head + ([(v % 128) as byte] + after);
    ReadsHead(before, v / 128, [(v % 128) as byte] + after);
    assert d[pos + |head|] == (v % 128) as byte;
  }

  // ---- one event ----

  datatype Outcome = Outcome(track: Track, events: seq<Event>)

  function Dead(t: Track): Outcome { Outcome(t.(done := true), []) }

  function Meta(t: Track): Outcome {
    if t.pos >= |t.data| then Dead(t)
    else
      var kind, v := t.data[t.pos], ReadVar(t.data, t.pos + 1);
      var t1 := t.(pos := v.1);
      if v.0 > |t.data| - v.1 then Dead(t1)
      else if kind == 0x51 && v.0 == 3 then
        Outcome(t.(pos := v.1 + 3),
                [Tempo(t.data[v.1] as nat * 65536 + t.data[v.1 + 1] as nat * 256 + t.data[v.1 + 2] as nat)])
      else if kind == 0x2F then Outcome(t.(pos := v.1 + v.0, done := true), [EndOfTrack])
      else Outcome(t.(pos := v.1 + v.0), [Ignored])
  }

  function SysEx(t: Track): Outcome
    requires t.pos <= |t.data|
  {
    var v := ReadVar(t.data, t.pos);
    var t1 := t.(pos := v.1);
    if v.0 > |t.data| - v.1 then Dead(t1) else Outcome(t.(pos := v.1 + v.0), [Ignored])
  }

  /** Data bytes of a message: one for program change and channel pressure, else two. */
  function DataBytes(status: byte): nat
  {
    if 0xC0 <= status <= 0xDF then 1 else 2
  }

  function Message(status: byte, a: byte, b: byte): Event {
    var cmd, ch := status as nat / 16, status as nat % 16;
    if cmd == 0x9 then if b > 0 then NoteOn(ch, a, b) else NoteOff(ch, a)
    else if cmd == 0x8 then NoteOff(ch, a)
    else if cmd == 0xC then Program(ch, a)
    else if cmd == 0xB then Control(ch, a, b)
    else if cmd == 0xE then Bend(ch, Low16(b as nat * 128, a) - 8192)
    else Ignored
  }

  /** hi | lo, where hi is a multiple of 128 and lo a byte. */
  function Low16(hi: nat, lo: byte): nat {
    if lo < 128 then hi + lo as nat
    else if hi / 128 % 2 == 1 then hi + lo as nat - 128 else hi + lo as nat
  }

  /** The OR, for a stray top bit too: seven bits are lo's, the next is set in either, the rest are hi's. */
  lemma Low16IsOr(hi: nat, lo: byte)
    requires hi % 128 == 0
    ensures var w := Low16(hi, lo);
            w % 128 == lo % 128 && (w / 128 % 2 == 1 <==> lo >= 128 || hi / 128 % 2 == 1) && w / 256 == hi / 256
  {
    var top, bit, low := hi / 256, hi / 128 % 2, lo as nat % 128;
    var bits := if lo >= 128 || bit == 1 then 1 else 0;
    OddPart(hi);
    OrSum(hi, lo);
    SevenAndOne(top, bits, low);
  }

  lemma OddPart(hi: nat)
    requires hi % 128 == 0
    ensures hi == 128 * (2 * (hi / 256) + hi / 128 % 2)
  {
    var q := hi / 128;
    assert hi == 128 * q && q == 2 * (q / 2) + q % 2;
    DivModUnique(hi, 256, q / 2, 128 * (q % 2));
  }

  lemma OrSum(hi: nat, lo: byte)
    ensures Low16(hi, lo) == hi + lo as nat % 128 + if lo >= 128 && hi / 128 % 2 == 0 then 128 else 0
  {
  }

  lemma SevenAndOne(top: nat, bits: nat, low: nat)
    requires bits < 2 && low < 128
    ensures var w := 128 * (2 * top + bits) + low; w % 128 == low && w / 128 % 2 == bits && w / 256 == top
  {
    var w := 128 * (2 * top + bits) + low;
    DivModUnique(w, 128, 2 * top + bits, low);
    DivModUnique(w, 256, top, 128 * bits + low);
  }

  function Voice(t: Track, status: byte): Outcome
    requires t.pos <= |t.data|
  {
    var n := DataBytes(status);
    if n > |t.data| - t.pos then Dead(t)
    else
      Outcome(t.(pos := t.pos + n),
              [Message(status, t.data[t.pos], if n == 2 then t.data[t.pos + 1] else 0)])
  }

  /** process_event on a live track. */
  function Step(t: Track): Outcome
    requires t.pos <= |t.data|
  {
    if t.pos == |t.data| then Outcome(t, [])
    else
      var b := t.data[t.pos];
      if b < 0x80 && t.running == 0 then Dead(t)
      else
        var status := if b < 0x80 then t.running else b;
        var t1 := if b < 0x80 then t else t.(pos := t.pos + 1, running := if b < 0xF0 then b else t.running);
        if status == 0xFF then Meta(t1)
        else if 0xF0 <= status <= 0xF7 then SysEx(t1)
        else Voice(t1, status)
  }

  /** Cursors stay inside the track and move on with every event. */
  lemma StepProgress(t: Track)
    requires t.pos <= |t.data| && !t.done && (t.running == 0 || 0x80 <= t.running < 0xF0)
    ensures var t' := Step(t).track;
            t'.data == t.data && t.pos <= t'.pos <= |t.data| && (t'.running == 0 || 0x80 <= t'.running < 0xF0) &&
            (t'.done || t.pos == |t.data| || t'.pos > t.pos)
    ensures |Step(t).events| <= 1 && (Step(t).events == [] ==> Step(t).track.done || t.pos == |t.data|)
  {
    hide ReadVarFrom;
  }

  /** read_next_delta, but for the clock. */
  function ToNext(t: Track): (nat, Track) {
    if t.done || t.pos >= |t.data| then (0, t.(done := true))
    else
      var v := ReadVar(t.data, t.pos);
      (v.0, t.(pos := v.1))
  }

  // ---- the script of a track ----

  predicate Sane(t: Track) {
    t.pos <= |t.data| && (t.running == 0 || 0x80 <= t.running < 0xF0)
  }

  /** All the beats from a delta that has just been read. */
  function Rest(delta: nat, t: Track): seq<Beat>
    requires Sane(t)
    decreases !t.done, |t.data| - t.pos
  {
    if t.done then []
    else
      StepProgress(t);
      var o := Step(t);
      var n := ToNext(o.track);
      [Beat(delta, o.events)] + Rest(n.0, n.1)
  }

  function Fresh(data: seq<byte>): Track { Track(data, 0, 0, false) }

  /** What a track says, from its first byte. */
  function Script(data: seq<byte>): seq<Beat> {
    var n := ToNext(Fresh(data));
    Rest(n.0, n.1)
  }

  /** Dispatching one event takes exactly one beat off the front. */
  lemma {:induction false} Dispatches(delta: nat, t: Track)
    requires Sane(t) && !t.done
    ensures var n := ToNext(Step(t).track);
            Sane(n.1) && Rest(delta, t) == [Beat(delta, Step(t).events)] + Rest(n.0, n.1)
  {
    StepProgress(t);
  }

  // ---- converted time ----

  /** (us_per_beat << 16) / division */
  function Rate(usPerBeat: nat, division: nat): nat {
    if division == 0 then 0 else usPerBeat * 65536 / division
  }

  /** A delta in microseconds; the product is a 64-bit one. */
  function Us(delta: nat, rate: nat): nat { delta * rate % 0x1_0000_0000_0000_0000 / 65536 }

  /** The cached rate under-counts a delta by less than 1 + delta / 65536 microseconds exactly when the
      64-bit product does not wrap, and never over-counts. */
  lemma UsIsTight(delta: nat, usPerBeat: nat, division: nat)
    requires delta < 0x1000_0000 && division > 0
    ensures var t := Us(delta, Rate(usPerBeat, division));
            t * division <= delta * usPerBeat &&
            (delta * Rate(usPerBeat, division) < 0x1_0000_0000_0000_0000 <==>
             65536 * (delta * usPerBeat) < (65536 * (t + 1) + delta) * division)
  {
    var q := Rate(usPerBeat, division);
    var r, p, x := usPerBeat * 65536 % division, delta * q, 65536 * (delta * usPerBeat);
    var t := Us(delta, q);
    assert x == p * division + delta * r by {
      assert usPerBeat * 65536 == q * division + r;
      ProductOfRate(delta, usPerBeat, division, q, r);
    }
    assert delta * r >= 0;
    WrapNumbers(p, t, delta);
    TightBelow(division, p, t, x);
    if p < 0x1_0000_0000_0000_0000 {
      TightAbove(division, p, t, delta, r, x);
    } else {
      Scaled(division, 65536 * (t + 1) + delta, p);
    }
  }

  lemma WrapNumbers(p: nat, t: nat, delta: nat)
    requires t == p % 0x1_0000_0000_0000_0000 / 65536 && delta < 0x1000_0000
    ensures 65536 * t <= p
    ensures if p < 0x1_0000_0000_0000_0000 then p < 65536 * (t + 1) else 65536 * (t + 1) + delta <= p
  {
  }

  /** x65536 is 65536 times the exact product, pd the product of p and the division d. */
  lemma TightBelow(d: nat, p: nat, t: nat, x65536: int)
    requires 65536 * t <= p && p * d <= x65536
    ensures 65536 * (t * d) <= x65536
  {
    Scaled(d, 65536 * t, p);
    assert 65536 * t * d == 65536 * (t * d);
  }

  lemma TightAbove(d: nat, p: nat, t: nat, delta: nat, r: nat, x65536: int)
    requires r < d && x65536 == p * d + delta * r && p < 65536 * (t + 1)
    ensures x65536 < (65536 * (t + 1) + delta) * d
  {
    var a := 65536 * (t + 1);
    Scaled(d, p + 1, a);
    MulMono(delta, r, d);
    assert (a + delta) * d == a * d + delta * d;
    assert (p + 1) * d == p * d + d;
  }

  lemma ProductOfRate(delta: nat, us: nat, division: nat, q: nat, r: nat)
    requires us * 65536 == q * division + r
    ensures 65536 * (delta * us) == delta * q * division + delta * r
  {
    assert 65536 * (delta * us) == delta * (us * 65536);
    assert delta * (q * division + r) == delta * (q * division) + delta * r;
    MulAssoc(delta, q, division);
  }

  lemma Scaled(d: nat, a: int, b: int)
    ensures a <= b ==> a * d <= b * d
  {
    MulMono(d, a, b);
    assert d * a == a * d && d * b == b * d;
  }

  /** A file can make the product wrap: a long delta at the slowest tempo and the coarsest division. */
  lemma UsCanWrap()
    ensures 65536 * (0xFFF_FFFF * 0xFF_FFFF) >= (65536 * (Us(0xFFF_FFFF, Rate(0xFF_FFFF, 1)) + 1) + 0xFFF_FFFF) * 1
  {
    UsIsTight(0xFFF_FFFF, 0xFF_FFFF, 1);
    assert Rate(0xFF_FFFF, 1) == 0xFF_FFFF * 65536;
  }

  // ---- a track against the common clock ----

  /** What a track has dispatched, the delta it read last, and the rate in force at each read. */
  datatype Score = Score(log: seq<Beat>, delta: nat, rates: seq<nat>)

  function Sum(log: seq<Beat>, rates: seq<nat>): nat
    requires |log| == |rates|
  {
    if log == [] then 0
    else Sum(log[..|log| - 1], rates[..|log| - 1]) + Us(log[|log| - 1].delta, rates[|log| - 1])
  }

  /** When the next event is due: every delta up to it, each at the rate in force when it was read. */
  function Due(g: Score): nat
    requires |g.rates| == |g.log| + 1
  {
    Sum(g.log, g.rates[..|g.log|]) + Us(g.delta, g.rates[|g.log|])
  }

  /** The song-clock invariant of one track: what it has said is what stands before the cursor, said
      no earlier than it was due, and the countdown is the next due time less the clock. */
  predicate InStep(t: Track, pending: int, g: Score, clock: int) {
    Sane(t) && Script(t.data) == g.log + Rest(g.delta, t) &&
    |g.log| <= |g.rates| && Sum(g.log, g.rates[..|g.log|]) <= clock &&
    (!t.done ==> |g.rates| == |g.log| + 1 && pending == Due(g) - clock)
  }

  /** A track that has dispatched all it has to say, or an exact prefix of it. */
  lemma LogIsPrefix(t: Track, pending: int, g: Score, clock: int)
    requires InStep(t, pending, g, clock)
    ensures g.log <= Script(t.data) && (t.done <==> g.log == Script(t.data))
  {
    if !t.done {
      Dispatches(g.delta, t);
    }
  }

  function Noted(t: Track, g: Score, rate: nat): Score
    requires Sane(t)
  {
    var n := ToNext(Step(t).track);
    Score(g.log + [Beat(g.delta, Step(t).events)], n.0, if n.1.done then g.rates else g.rates + [rate])
  }

  /** Dispatching keeps the invariant: the countdown grows by the next delta, the clock stands. */
  lemma DispatchKeeps(t: Track, pending: int, g: Score, clock: int, rate: nat)
    requires InStep(t, pending, g, clock) && !t.done && pending <= 0
    ensures var n := ToNext(Step(t).track);
            InStep(n.1, if n.1.done then pending else pending + Us(n.0, rate), Noted(t, g, rate), clock)
  {
    hide Step, ToNext, ReadVarFrom, Us;
    Dispatches(g.delta, t);
    StepData(t);
    var n, g' := ToNext(Step(t).track), Noted(t, g, rate);
    assert g'.log + Rest(n.0, n.1) == g.log + ([Beat(g.delta, Step(t).events)] + Rest(n.0, n.1));
    var k := |g.log|;
    assert g'.log[..k] == g.log && g'.rates[..k + 1] == g.rates;
    assert g'.rates[..k + 1][..k] == g.rates[..k];
    assert Sum(g'.log, g'.rates[..k + 1]) == Due(g);
  }

  /** Time passes for the clock and for the countdown alike. */
  lemma ClockKeeps(t: Track, pending: int, g: Score, clock: int, elapsed: nat)
    requires InStep(t, pending, g, clock)
    ensures InStep(t, if t.done then pending else pending - elapsed, g, clock + elapsed)
  {
    hide Sum, Us;
  }

  lemma StepData(t: Track)
    requires Sane(t)
    ensures Step(t).track.data == t.data && ToNext(Step(t).track).1.data == t.data
  {
  }

  lemma StartKeeps(data: seq<byte>, rate: nat)
    ensures var n := ToNext(Fresh(data));
            InStep(n.1, Us(n.0, rate), Score([], n.0, [rate]), 0)
  {
    hide ReadVarFrom, Us;
    var n := ToNext(Fresh(data));
    assert [] + Rest(n.0, n.1) == Rest(n.0, n.1);
  }
}

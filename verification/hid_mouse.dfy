/** The mouse decoder: register snapshots that may be repeated or torn come in, motion and button edges
    go out. */
module HidMouse {
  import opened LittleEndian

  type Half = x: int | 0 <= x < 0x1_0000
  type Word = x: int | 0 <= x < 0x1_0000_0000

  const TYPE_MOUSE := 5

  datatype Mode = DeltaMode | AccumMode | Pair8Mode

  function S16(v: Half): int { if v < 0x8000 then v else v - 0x1_0000 }

  function S8(v: int): int { if v < 0x80 then v else v - 0x100 }

  /** What a payload says the mouse has moved by: one signed number, or two samples of eight bits. */
  function Delta(mode: Mode, v: Half): int {
    if mode.Pair8Mode? then S8(v / 256) + S8(v % 256) else S16(v)
  }

  /** The step between two readings of a wrapping counter. */
  function Step(now: Half, before: Half): int { S16((now - before) % 0x1_0000) }

  /** A 16-bit button mask, as the set of its bits. */
  type Buttons = set<nat>

  function Mask(v: Half): Buttons { set i: nat | i < 16 && v / Pow2(i) % 2 == 1 }

  /** One snapshot of a connected mouse. */
  datatype Report = Report(counter: Half, buttons: Buttons, x: Half, y: Half)

  datatype Shown = Shown(present: bool, buttons: Buttons, pressed: Buttons, released: Buttons, counter: Half, dx: int, dy: int)

  /** hid_mouse_t without its mode. */
  datatype Mouse = Mouse(state: Shown, prevButtons: Buttons, prevCounter: Half, prevX: Half, prevY: Half,
                         addedX: Half, addedY: Half, valid: bool)

  // ---- what the motion should add up to ----

  function Axis(r: Report, vertical: bool): Half { if vertical then r.y else r.x }

  /** Over all reports, each counted once, with the last payload that was seen under its counter. */
  function LastPayloads(mode: Mode, rs: seq<Report>, vertical: bool): int {
    if rs == [] then 0
    else
      (if |rs| > 1 && rs[1].counter == rs[0].counter then 0 else Delta(mode, Axis(rs[0], vertical)))
      + LastPayloads(mode, rs[1..], vertical)
  }

  lemma {:induction false} LastPayloadsSnoc(mode: Mode, rs: seq<Report>, r: Report, vertical: bool)
    requires rs != []
    ensures var last := rs[|rs| - 1];
            LastPayloads(mode, rs + [r], vertical) ==
            LastPayloads(mode, rs, vertical) + Delta(mode, Axis(r, vertical))
            - if last.counter == r.counter then Delta(mode, Axis(last, vertical)) else 0
  {
    assert (rs + [r])[1..] == rs[1..] + [r];
    if |rs| > 1 {
      LastPayloadsSnoc(mode, rs[1..], r, vertical);
    } else {
      assert rs[1..] + [r] == [r] && [r][1..] == [];
    }
  }

  /** The last report that an accumulating mouse went by: the first under its counter. */
  function Accepted(rs: seq<Report>): (k: nat)
    requires rs != []
    ensures k < |rs|
  {
    var n := |rs| - 1;
    if n == 0 || rs[n].counter != rs[n - 1].counter then n else Accepted(rs[..n])
  }

  function Travelled(rs: seq<Report>, vertical: bool): int
    requires rs != []
  {
    var n := |rs| - 1;
    if n == 0 then 0
    else
      var front := rs[..n];
      Travelled(front, vertical) +
      if rs[n].counter != rs[n - 1].counter then Step(Axis(rs[n], vertical), Axis(front[Accepted(front)], vertical)) else 0
  }

  /** The positions behind the readings, each step from one accepted report to the next in 16 bits. */
  predicate Follows(rs: seq<Report>, ps: seq<int>, vertical: bool) {
    |ps| == |rs| && (forall k :: 0 <= k < |rs| ==> Axis(rs[k], vertical) == ps[k] % 0x1_0000) &&
    forall k :: 0 < k < |rs| && rs[k].counter != rs[k - 1].counter ==>
      -0x8000 <= ps[k] - ps[Accepted(rs[..k])] <= 0x7FFF
  }

  /** The steps add up to the way the mouse has really gone. */
  lemma {:induction false} TravelIsTrue(rs: seq<Report>, ps: seq<int>, vertical: bool)
    requires rs != [] && Follows(rs, ps, vertical)
    ensures Travelled(rs, vertical) == ps[Accepted(rs)] - ps[0]
  {
    hide Step;
    var n := |rs| - 1;
    if n > 0 {
      var front := rs[..n];
      FollowsFront(rs, ps, vertical);
      TravelIsTrue(front, ps[..n], vertical);
      if rs[n].counter != rs[n - 1].counter {
        StepIsTrue(ps[n], ps[Accepted(front)]);
      }
    }
  }

  lemma FollowsFront(rs: seq<Report>, ps: seq<int>, vertical: bool)
    requires |rs| > 1 && Follows(rs, ps, vertical)
    ensures Follows(rs[..|rs| - 1], ps[..|rs| - 1], vertical)
  {
    hide Accepted;
    var n := |rs| - 1;
    var front := rs[..n];
    forall k | 0 < k < n && front[k].counter != front[k - 1].counter
      ensures -0x8000 <= ps[..n][k] - ps[..n][Accepted(front[..k])] <= 0x7FFF
    {
      assert front[..k] == rs[..k];
    }
  }

  lemma StepIsTrue(a: int, b: int)
    requires -0x8000 <= a - b <= 0x7FFF
    ensures Step(a % 0x1_0000, b % 0x1_0000) == a - b
  {
    var p, q := a / 0x1_0000, b / 0x1_0000;
    var r, s := a % 0x1_0000, b % 0x1_0000;
    assert a == p * 0x1_0000 + r && b == q * 0x1_0000 + s;
  }

  // ---- button edges ----

  /** Buttons before and after. */
  datatype Change = Change(before: Buttons, after: Buttons)

  function Pressed(cs: seq<Change>): Buttons {
    if cs == [] then {}
    else Pressed(cs[..|cs| - 1]) + (cs[|cs| - 1].after - cs[|cs| - 1].before)
  }

  function Released(cs: seq<Change>): Buttons {
    if cs == [] then {}
    else Released(cs[..|cs| - 1]) + (cs[|cs| - 1].before - cs[|cs| - 1].after)
  }

  /** A button shows as pressed exactly if it went down at some change since. */
  lemma {:induction false} NoPressIsLost(cs: seq<Change>, button: nat)
    ensures button in Pressed(cs) <==> exists k :: 0 <= k < |cs| && button in cs[k].after && button !in cs[k].before
  {
    if cs != [] {
      var front := cs[..|cs| - 1];
      NoPressIsLost(front, button);
      if k :| 0 <= k < |front| && button in front[k].after && button !in front[k].before {
        assert cs[k] == front[k];
      }
      if k :| 0 <= k < |cs| && button in cs[k].after && button !in cs[k].before {
        assert k < |front| ==> cs[k] == front[k];
      }
    }
  }

  /** And as released exactly if it came up. */
  lemma {:induction false} NoReleaseIsLost(cs: seq<Change>, button: nat)
    ensures button in Released(cs) <==> exists k :: 0 <= k < |cs| && button in cs[k].before && button !in cs[k].after
  {
    if cs != [] {
      var front := cs[..|cs| - 1];
      NoReleaseIsLost(front, button);
      if k :| 0 <= k < |front| && button in front[k].before && button !in front[k].after {
        assert cs[k] == front[k];
      }
      if k :| 0 <= k < |cs| && button in cs[k].before && button !in cs[k].after {
        assert k < |front| ==> cs[k] == front[k];
      }
    }
  }

  // ---- one decode ----

  /** What a report adds to one axis. */
  function Credit(mode: Mode, m: Mouse, r: Report, vertical: bool): int {
    var v, prev, added := Axis(r, vertical), (if vertical then m.prevY else m.prevX), if vertical then m.addedY else m.addedX;
    if !m.valid then 0
    else if r.counter != m.prevCounter then
      if mode.AccumMode? then Step(v, prev) else Delta(mode, v)
    else if mode.AccumMode? then 0
    else Delta(mode, v) - Delta(mode, added)
  }

  function Decoded(mode: Mode, m: Mouse, r: Report): Mouse {
    var s := m.state;
    var next := !m.valid || r.counter != m.prevCounter;
    var amends := m.valid && !next && !mode.AccumMode? && (r.x != m.addedX || r.y != m.addedY);
    Mouse(
      Shown(true, r.buttons, s.pressed + (r.buttons - m.prevButtons), s.released + (m.prevButtons - r.buttons),
            r.counter, s.dx + Credit(mode, m, r, false), s.dy + Credit(mode, m, r, true)),
      r.buttons, r.counter,
      if next || amends then r.x else m.prevX, if next || amends then r.y else m.prevY,
      if !m.valid || !mode.AccumMode? then r.x else m.addedX, if !m.valid || !mode.AccumMode? then r.y else m.addedY,
      true)
  }

  /** Decoding the same registers again, as poll and interrupt both may, changes nothing. */
  lemma DecodeIsIdempotent(mode: Mode, m: Mouse, r: Report)
    ensures Decoded(mode, Decoded(mode, m, r), r) == Decoded(mode, m, r)
  {
    hide Delta, Step;
    var m1 := Decoded(mode, m, r);
    assert !mode.AccumMode? ==> m1.addedX == r.x && m1.addedY == r.y;
  }

  // ---- what holds over every run ----

  /** What has gone by: the reports since the mouse was connected, the motion handed out since then, and
      the button changes since the last read. */
  datatype Past = Past(reports: seq<Report>, takenX: int, takenY: int, changes: seq<Change>)

  /** The motion that the reports amount to. */
  function Motion(mode: Mode, rs: seq<Report>, vertical: bool): int
    requires rs != []
  {
    if mode.AccumMode? then Travelled(rs, vertical)
    else LastPayloads(mode, rs, vertical) - Delta(mode, Axis(rs[0], vertical))
  }

  predicate Kept(mode: Mode, m: Mouse, p: Past) {
    m.state.pressed == Pressed(p.changes) && m.state.released == Released(p.changes) &&
    (p.changes != [] ==> m.prevButtons == p.changes[|p.changes| - 1].after) &&
    (m.valid <==> p.reports != []) && (m.valid <==> m.state.present) &&
    if !m.valid then
      p.takenX == p.takenY == m.state.dx == m.state.dy == m.state.counter == 0 && m.state.buttons == m.prevButtons == {}
    else
      var rs := p.reports;
      var last := rs[|rs| - 1];
      m.state.buttons == last.buttons && m.state.counter == last.counter &&
      m.prevCounter == last.counter && m.prevButtons == last.buttons &&
      (mode.AccumMode? ==> m.prevX == rs[Accepted(rs)].x && m.prevY == rs[Accepted(rs)].y) &&
      (!mode.AccumMode? ==> m.addedX == last.x && m.addedY == last.y) &&
      p.takenX + m.state.dx == Motion(mode, rs, false) && p.takenY + m.state.dy == Motion(mode, rs, true)
  }

  function Noted(m: Mouse, p: Past, r: Report): Past {
    p.(reports := p.reports + [r], changes := p.changes + [Change(m.prevButtons, r.buttons)])
  }

  lemma CreditIsMotion(mode: Mode, m: Mouse, p: Past, r: Report, vertical: bool)
    requires Kept(mode, m, p) && p.reports != []
    ensures Motion(mode, p.reports + [r], vertical) == Motion(mode, p.reports, vertical) + Credit(mode, m, r, vertical)
  {
    hide Pressed, Released, Delta, Step;
    var rs := p.reports;
    assert (rs + [r])[..|rs|] == rs;
    if !mode.AccumMode? {
      LastPayloadsSnoc(mode, rs, r, vertical);
    }
  }

  lemma {:induction false} EdgesKeep(cs: seq<Change>, before: Buttons, after: Buttons)
    ensures Pressed(cs + [Change(before, after)]) == Pressed(cs) + (after - before)
    ensures Released(cs + [Change(before, after)]) == Released(cs) + (before - after)
  {
    assert (cs + [Change(before, after)])[..|cs|] == cs;
  }

  lemma {:induction false} AcceptedSnoc(rs: seq<Report>, r: Report)
    ensures rs == [] ==> Accepted(rs + [r]) == 0
    ensures rs != [] ==>
              Accepted(rs + [r]) == if r.counter != rs[|rs| - 1].counter then |rs| else Accepted(rs)
  {
    assert (rs + [r])[..|rs|] == rs;
  }

  lemma FirstMotion(mode: Mode, r: Report, vertical: bool)
    ensures Motion(mode, [r], vertical) == 0
  {
    assert [r][1..] == [];
    assert LastPayloads(mode, [r], vertical) == Delta(mode, Axis(r, vertical)) + LastPayloads(mode, [r][1..], vertical);
  }

  /** Every decode keeps the books. */
  lemma DecodeKeeps(mode: Mode, m: Mouse, p: Past, r: Report)
    requires Kept(mode, m, p)
    ensures Kept(mode, Decoded(mode, m, r), Noted(m, p, r))
  {
    hide Motion, Pressed, Released, Accepted;
    EdgesKeep(p.changes, m.prevButtons, r.buttons);
    AcceptedSnoc(p.reports, r);
    if p.reports == [] {
      assert p.reports + [r] == [r];
      FirstMotion(mode, r, false);
      FirstMotion(mode, r, true);
    } else {
      CreditIsMotion(mode, m, p, r, false);
      CreditIsMotion(mode, m, p, r, true);
    }
    hide Credit;
  }

  /** What a read does: motion and edges are handed out once. */
  function Drained(m: Mouse): Mouse { m.(state := m.state.(dx := 0, dy := 0, pressed := {}, released := {})) }

  lemma ReadKeeps(mode: Mode, m: Mouse, p: Past)
    requires Kept(mode, m, p)
    ensures Kept(mode, Drained(m), Past(p.reports, p.takenX + m.state.dx, p.takenY + m.state.dy, []))
  {
    hide Motion, Accepted;
  }

  /** hid_mouse_disconnect: all buttons come up; motion that nobody read is dropped. */
  function Unplugged(m: Mouse): Mouse {
    Mouse(Shown(false, {}, m.state.pressed, m.state.released + m.prevButtons, 0, 0, 0), {}, 0, m.prevX, m.prevY, 0, 0, false)
  }

  lemma DisconnectKeeps(mode: Mode, m: Mouse, p: Past)
    requires Kept(mode, m, p)
    ensures Kept(mode, Unplugged(m), Past([], 0, 0, p.changes + [Change(m.prevButtons, {})]))
  {
    hide Motion, Accepted, Pressed, Released;
    EdgesKeep(p.changes, m.prevButtons, {});
  }

  // ---- what the registers carry ----

  /** How the mouse has moved since its last report: two samples of eight bits, one of sixteen, or where it is. */
  datatype Moved = Pair(a: int, b: int) | Whole(d: int) | Position(p: int)

  predicate Carried(mode: Mode, m: Moved) {
    match mode
    case Pair8Mode => m.Pair? && -128 <= m.a < 128 && -128 <= m.b < 128
    case DeltaMode => m.Whole? && -0x8000 <= m.d < 0x8000
    case AccumMode => m.Position?
  }

  function Wire(m: Moved): Half {
    match m
    case Pair(a, b) => a % 256 * 256 + b % 256
    case Whole(d) => d % 0x1_0000
    case Position(p) => p % 0x1_0000
  }

  /** A report as the mouse makes it; the spare bits are anything. */
  datatype Made = Made(counter: Half, buttons: Buttons, x: Moved, y: Moved, spareKey: nat, spareTrig: Half)

  predicate Makes(mode: Mode, s: Made) {
    Carried(mode, s.x) && Carried(mode, s.y) && s.spareKey < 0x1000 && forall b <- s.buttons :: b < 16
  }

  /** Bit i of the mask is button i. */
  function MaskWord(bs: Buttons, i: nat): nat
    requires i <= 16
    decreases 16 - i
  {
    if i == 16 then 0 else (if i in bs then 1 else 0) + 2 * MaskWord(bs, i + 1)
  }

  lemma {:induction false} MaskBelow(bs: Buttons, i: nat)
    requires i <= 16
    ensures MaskWord(bs, i) < Pow2(16 - i)
    decreases 16 - i
  {
    if i < 16 {
      MaskBelow(bs, i + 1);
    }
  }

  lemma {:induction false} MaskBit(bs: Buttons, i: nat, k: nat)
    requires i + k < 16
    ensures MaskWord(bs, i) / Pow2(k) % 2 == 1 <==> i + k in bs
    decreases k
  {
    hide Pow2, MaskWord;
    MaskStep(bs, i);
    if k > 0 {
      MaskBit(bs, i + 1, k - 1);
      HalfBit(MaskWord(bs, i + 1), if i in bs then 1 else 0, k);
    } else {
      EvenPart(MaskWord(bs, i + 1), if i in bs then 1 else 0);
    }
  }

  lemma {:induction false} MaskStep(bs: Buttons, i: nat)
    requires i < 16
    ensures MaskWord(bs, i) == (if i in bs then 1 else 0) + 2 * MaskWord(bs, i + 1)
  {
  }

  lemma EvenPart(w: nat, b: nat)
    requires b <= 1
    ensures Pow2(0) == 1 && (b + 2 * w) / 1 % 2 == b
  {
  }

  lemma HalfBit(w: nat, b: nat, k: nat)
    requires b <= 1 && k > 0
    ensures (b + 2 * w) / Pow2(k) == w / Pow2(k - 1)
  {
    var p := Pow2(k - 1);
    var q, r := w / p, w % p;
    assert w == q * p + r;
    assert b + 2 * w == q * (2 * p) + (b + 2 * r) by {
      assert q * (2 * p) == 2 * (q * p);
    }
    DivModUnique(b + 2 * w, 2 * p, q, b + 2 * r);
  }

  lemma {:induction false} MaskRoundTrip(bs: Buttons)
    requires forall b <- bs :: b < 16
    ensures MaskWord(bs, 0) < 0x1_0000 && Mask(MaskWord(bs, 0)) == bs
  {
    MaskBelow(bs, 0);
    Pow2Known();
    forall i: nat | i < 16
      ensures i in Mask(MaskWord(bs, 0)) <==> i in bs
    {
      MaskBit(bs, 0, i);
    }
  }

  /** The key, joystick and trigger registers. */
  function Registers(s: Made): (Word, Word, Word)
    requires s.spareKey < 0x1000 && (forall b <- s.buttons :: b < 16)
  {
    MaskRoundTrip(s.buttons);
    (5 * 0x1000_0000 + s.spareKey * 0x1_0000 + s.counter, MaskWord(s.buttons, 0) * 0x1_0000 + Wire(s.x),
     s.spareTrig * 0x1_0000 + Wire(s.y))
  }

  function ReportOf(s: Made): Report { Report(s.counter, s.buttons, Wire(s.x), Wire(s.y)) }

  lemma RegistersRead(s: Made)
    requires s.spareKey < 0x1000 && forall b <- s.buttons :: b < 16
    ensures var (key, joy, trig) := Registers(s);
            key / 0x1000_0000 == TYPE_MOUSE &&
            Report(key % 0x1_0000, Mask(joy / 0x1_0000), joy % 0x1_0000, trig % 0x1_0000) == ReportOf(s)
  {
    hide Mask, MaskWord, Wire;
    MaskRoundTrip(s.buttons);
  }

  function Reports(ss: seq<Made>): (rs: seq<Report>)
    ensures |rs| == |ss| && forall k :: 0 <= k < |ss| ==> rs[k] == ReportOf(ss[k])
  {
    if ss == [] then [] else Reports(ss[..|ss| - 1]) + [ReportOf(ss[|ss| - 1])]
  }

  function AxisOf(s: Made, vertical: bool): Moved { if vertical then s.y else s.x }

  function Amount(m: Moved): int {
    match m
    case Pair(a, b) => a + b
    case Whole(d) => d
    case Position(p) => p
  }

  /** A payload amounts to the samples it carries. */
  lemma DeltaIsAmount(mode: Mode, m: Moved)
    requires Carried(mode, m) && !mode.AccumMode?
    ensures Delta(mode, Wire(m)) == Amount(m)
  {
    if m.Pair? {
      var hi, lo := m.a % 256, m.b % 256;
      LittleEndian.DivModUnique(Wire(m), 256, hi, lo);
    }
  }

  /** The samples of all reports, those of a report that came more than once counted once, as it last came. */
  function Samples(ss: seq<Made>, vertical: bool): int {
    if ss == [] then 0
    else
      (if |ss| > 1 && ss[1].counter == ss[0].counter then 0 else Amount(AxisOf(ss[0], vertical))) + Samples(ss[1..], vertical)
  }

  lemma {:induction false} PayloadsAreSamples(mode: Mode, ss: seq<Made>, rs: seq<Report>, vertical: bool)
    requires !mode.AccumMode? && |rs| == |ss| && forall s <- ss :: Makes(mode, s)
    requires forall k :: 0 <= k < |ss| ==> rs[k] == ReportOf(ss[k])
    ensures LastPayloads(mode, rs, vertical) == Samples(ss, vertical)
  {
    hide Delta, Wire, Amount;
    if ss != [] {
      assert ss[0] in ss;
      DeltaIsAmount(mode, AxisOf(ss[0], vertical));
      PayloadsAreSamples(mode, ss[1..], rs[1..], vertical);
    }
  }

  /** The report that an accumulating mouse is at: the first under the last counter. */
  function At(ss: seq<Made>): (k: nat)
    requires ss != []
    ensures k < |ss|
  {
    var n := |ss| - 1;
    if n == 0 || ss[n].counter != ss[n - 1].counter then n else At(ss[..n])
  }

  /** No step from one such report to the next is longer than 16 bits can tell. */
  predicate SmallSteps(ss: seq<Made>, vertical: bool) {
    forall k :: 0 < k < |ss| && ss[k].counter != ss[k - 1].counter ==>
      -0x8000 <= Amount(AxisOf(ss[k], vertical)) - Amount(AxisOf(ss[At(ss[..k])], vertical)) < 0x8000
  }

  /** What the mouse has really moved by since its first report. */
  function Gained(mode: Mode, ss: seq<Made>, vertical: bool): int
    requires ss != []
  {
    (if mode.AccumMode? then Amount(AxisOf(ss[At(ss)], vertical)) else Samples(ss, vertical))
    - Amount(AxisOf(ss[0], vertical))
  }

  lemma {:induction false} AtIsAccepted(ss: seq<Made>, rs: seq<Report>)
    requires |rs| == |ss| > 0 && forall k :: 0 <= k < |ss| ==> rs[k] == ReportOf(ss[k])
    ensures Accepted(rs) == At(ss)
    decreases ss
  {
    var n := |ss| - 1;
    if n > 0 && ss[n].counter == ss[n - 1].counter {
      AtIsAccepted(ss[..n], rs[..n]);
    }
  }

  lemma {:induction false} FollowsMade(mode: Mode, ss: seq<Made>, vertical: bool)
    requires mode.AccumMode? && (forall s <- ss :: Makes(mode, s)) && SmallSteps(ss, vertical)
    ensures Follows(Reports(ss), seq(|ss|, k requires 0 <= k < |ss| => Amount(AxisOf(ss[k], vertical))), vertical)
  {
    hide Accepted, At;
    var rs, ps := Reports(ss), seq(|ss|, k requires 0 <= k < |ss| => Amount(AxisOf(ss[k], vertical)));
    forall k | 0 <= k < |rs|
      ensures Axis(rs[k], vertical) == ps[k] % 0x1_0000
    {
      assert ss[k] in ss;
    }
    forall k | 0 < k < |rs| && rs[k].counter != rs[k - 1].counter
      ensures -0x8000 <= ps[k] - ps[Accepted(rs[..k])] <= 0x7FFF
    {
      AtIsAccepted(ss[..k], rs[..k]);
    }
  }

  /** In every mode the motion that the reports amount to is the way the mouse has really gone. */
  lemma {:induction false} MotionIsTrue(mode: Mode, ss: seq<Made>, vertical: bool)
    requires ss != [] && forall s <- ss :: Makes(mode, s)
    requires mode.AccumMode? ==> SmallSteps(ss, vertical)
    ensures Motion(mode, Reports(ss), vertical) == Gained(mode, ss, vertical)
  {
    hide Delta, Wire, Travelled, Accepted, LastPayloads, Samples;
    var rs := Reports(ss);
    assert ss[0] in ss;
    if mode.AccumMode? {
      FollowsMade(mode, ss, vertical);
      TravelIsTrue(rs, seq(|ss|, k requires 0 <= k < |ss| => Amount(AxisOf(ss[k], vertical))), vertical);
      AtIsAccepted(ss, rs);
    } else {
      PayloadsAreSamples(mode, ss, rs, vertical);
      DeltaIsAmount(mode, AxisOf(ss[0], vertical));
    }
  }

  class Decoder {
    const mode: Mode
    var state: Shown
    var prevButtons: Buttons
    var prevCounter: Half
    var prevX: Half
    var prevY: Half
    var addedX: Half
    var addedY: Half
    var reportValid: bool
    ghost var past: Past

    ghost function Now(): Mouse
      reads this
    {
      Mouse(state, prevButtons, prevCounter, prevX, prevY, addedX, addedY, reportValid)
    }

    /** What has been handed out and what is pending is what the reports amount to. */
    ghost predicate Valid()
      reads this
    {
      Kept(mode, Now(), past)
    }

    /** hid_mouse_init */
    constructor (xyMode: Mode)
      ensures Valid() && mode == xyMode && past == Past([], 0, 0, [])
    {
      mode, state := xyMode, Shown(false, {}, {}, {}, 0, 0, 0);
      prevButtons, prevCounter, prevX, prevY := {}, 0, 0, 0;
      addedX, addedY, reportValid, past := 0, 0, false, Past([], 0, 0, []);
    }

    method Disconnect()
      requires Valid()
      modifies this
      ensures Valid() && Now() == Unplugged(old(Now()))
      ensures past == Past([], 0, 0, old(past).changes + [Change(old(prevButtons), {})])
    {
      hide Kept, Pressed, Released, Motion;
      DisconnectKeeps(mode, Now(), past);
      past := Past([], 0, 0, past.changes + [Change(prevButtons, {})]);
      state := Shown(false, {}, state.pressed, state.released + prevButtons, 0, 0, 0);
      prevButtons, prevCounter, addedX, addedY, reportValid := {}, 0, 0, 0, false;
    }

    /** hid_mouse_decode on the three raw registers. */
    method Decode(key: Word, joy: Word, trig: Word)
      requires Valid()
      modifies this
      ensures Valid()
      ensures key / 0x1000_0000 != TYPE_MOUSE ==>
                Now() == Unplugged(old(Now())) &&
                past == Past([], 0, 0, old(past).changes + [Change(old(prevButtons), {})])
      ensures key / 0x1000_0000 == TYPE_MOUSE ==>
                var r := Report(key % 0x1_0000, Mask(joy / 0x1_0000), joy % 0x1_0000, trig % 0x1_0000);
                Now() == Decoded(mode, old(Now()), r) && past == Noted(old(Now()), old(past), r)
    {
      hide Kept, Pressed, Released, Motion, Mask, Delta, Step;
      if key / 0x1000_0000 != TYPE_MOUSE {
        Disconnect();
        return;
      }
      var counter, buttons, x, y := key % 0x1_0000, Mask(joy / 0x1_0000), joy % 0x1_0000, trig % 0x1_0000;
      ghost var m, r := Now(), Report(counter, buttons, x, y);
      DecodeKeeps(mode, m, past, r);
      past := Noted(m, past, r);
      state := Shown(true, buttons, state.pressed + (buttons - prevButtons), state.released + (prevButtons - buttons),
                     counter, state.dx, state.dy);
      if !reportValid {
        prevX, prevY, addedX, addedY := x, y, x, y;
      } else if counter != prevCounter {
        if mode.AccumMode? {
          state := state.(dx := state.dx + Step(x, prevX), dy := state.dy + Step(y, prevY));
        } else {
          state := state.(dx := state.dx + Delta(mode, x), dy := state.dy + Delta(mode, y));
          addedX, addedY := x, y;
        }
        prevX, prevY := x, y;
      } else if !mode.AccumMode? && (x != addedX || y != addedY) {
        state := state.(dx := state.dx + Delta(mode, x) - Delta(mode, addedX),
                        dy := state.dy + Delta(mode, y) - Delta(mode, addedY));
        addedX, addedY, prevX, prevY := x, y, x, y;
      }
      reportValid, prevCounter, prevButtons := true, counter, buttons;
    }

    /** hid_mouse_read */
    method Read() returns (shown: Shown)
      requires Valid()
      modifies this
      ensures Valid() && shown == old(state) && Now() == Drained(old(Now()))
      ensures past == Past(old(past).reports, old(past).takenX + shown.dx, old(past).takenY + shown.dy, [])
    {
      hide Kept, Pressed, Released, Motion;
      ReadKeeps(mode, Now(), past);
      shown := state;
      past := Past(past.reports, past.takenX + state.dx, past.takenY + state.dy, []);
      state := state.(dx := 0, dy := 0, pressed := {}, released := {});
    }

    /** A mouse that makes these reports, decoded from the raw registers and read now and then: what was handed
        out and what is pending is the way it has really gone, and the buttons are those last reported. */
    method Watch(ss: seq<Made>) returns (gotX: int, gotY: int)
      requires Valid() && !state.present && ss != [] && forall s <- ss :: Makes(mode, s)
      requires mode.AccumMode? ==> SmallSteps(ss, false) && SmallSteps(ss, true)
      modifies this
      ensures Valid() && state.present && state.buttons == ss[|ss| - 1].buttons && state.counter == ss[|ss| - 1].counter
      ensures gotX + state.dx == Gained(mode, ss, false) && gotY + state.dy == Gained(mode, ss, true)
    {
      hide Kept, Motion, Gained, Decoded, Drained, Noted, Registers;
      gotX, gotY := 0, 0;
      Absent(mode, Now(), past);
      for k := 0 to |ss|
        invariant Valid() && past.reports == Reports(ss[..k]) && past.takenX == gotX && past.takenY == gotY
      {
        assert ss[k] in ss;
        assert ss[..k + 1][..k] == ss[..k];
        RegistersRead(ss[k]);
        ghost var before := past;
        var regs := Registers(ss[k]);
        Decode(regs.0, regs.1, regs.2);
        NotedAdds(old(Now()), before, ReportOf(ss[k]));
        var looks: bool := *;
        if looks {
          var shown := Read();
          gotX, gotY := gotX + shown.dx, gotY + shown.dy;
        }
      }
      assert ss[..|ss|] == ss;
      Present(mode, Now(), past);
      MotionIsTrue(mode, ss, false);
      MotionIsTrue(mode, ss, true);
    }
  }

  lemma Absent(mode: Mode, m: Mouse, p: Past)
    requires Kept(mode, m, p) && !m.state.present
    ensures p.reports == [] && p.takenX == p.takenY == 0
  {
  }

  lemma Present(mode: Mode, m: Mouse, p: Past)
    requires Kept(mode, m, p) && p.reports != []
    ensures var last := p.reports[|p.reports| - 1];
            m.state.present && m.state.buttons == last.buttons && m.state.counter == last.counter
    ensures p.takenX + m.state.dx == Motion(mode, p.reports, false)
    ensures p.takenY + m.state.dy == Motion(mode, p.reports, true)
  {
    hide Motion, Accepted, Pressed, Released;
  }

  lemma NotedAdds(m: Mouse, p: Past, r: Report)
    ensures forall m': Mouse :: Noted(m', p, r).reports == p.reports + [r] &&
                                Noted(m', p, r).takenX == p.takenX && Noted(m', p, r).takenY == p.takenY
  {
  }
}

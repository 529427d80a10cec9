/** Tracks as the format writes them: deltas, channel messages with and without running status, tempo changes,
    skipped messages and the end of the track.  The reader's script of such bytes is what was written. */
module SmfWriter {
  import opened Common
  import opened LittleEndian
  import opened SmfTrack

  type Data = x: int | 0 <= x < 0x80

  /** What can be said in a track. */
  datatype Item =
    | Key(ch: nat, note: Data, vel: Data)         // velocity 0 lets the key go
    | KeyUp(ch: nat, note: Data, vel: Data)
    | Aftertouch(ch: nat, note: Data, pressure: Data)
    | Controller(ch: nat, cc: Data, val: Data)
    | Patch(ch: nat, number: Data)
    | Pressure(ch: nat, force: Data)
    | Wheel(ch: nat, amount: int)                  // 0 in the middle
    | SetTempo(us: nat)
    | Text(kind: byte, body: seq<byte>)            // any other meta event
    | Exclusive(status: byte, body: seq<byte>)
    | Stop

  predicate IsItem(m: Item) {
    match m
    case SetTempo(us) => us < 0x100_0000
    case Text(kind, body) => kind != 0x2F && (kind != 0x51 || |body| != 3) && |body| < 0x1000_0000
    case Exclusive(status, body) => 0xF0 <= status <= 0xF7 && |body| < 0x1000_0000
    case Stop => true
    case Wheel(ch, amount) => ch < 16 && -8192 <= amount < 8192
    case _ => m.ch < 16
  }

  /** The status byte, and what follows it. */
  function Status(m: Item): byte
    requires IsItem(m)
  {
    match m
    case KeyUp(ch, _, _) => (0x80 + ch) as byte
    case Key(ch, _, _) => (0x90 + ch) as byte
    case Aftertouch(ch, _, _) => (0xA0 + ch) as byte
    case Controller(ch, _, _) => (0xB0 + ch) as byte
    case Patch(ch, _) => (0xC0 + ch) as byte
    case Pressure(ch, _) => (0xD0 + ch) as byte
    case Wheel(ch, _) => (0xE0 + ch) as byte
    case Exclusive(status, _) => status
    case _ => 0xFF
  }

  function Body(m: Item): seq<byte>
    requires IsItem(m)
  {
    match m
    case KeyUp(_, note, vel) => [note, vel]
    case Key(_, note, vel) => [note, vel]
    case Aftertouch(_, note, pressure) => [note, pressure]
    case Controller(_, cc, val) => [cc, val]
    case Patch(_, number) => [number]
    case Pressure(_, force) => [force]
    case Wheel(_, amount) => [((amount + 8192) % 128) as byte, ((amount + 8192) / 128) as byte]
    case SetTempo(us) => [0x51, 3, (us / 65536) as byte, (us / 256 % 256) as byte, (us % 256) as byte]
    case Text(kind, body) => [kind] + VarBytes(|body|) + body
    case Exclusive(_, body) => VarBytes(|body|) + body
    case Stop => [0x2F, 0]
  }

  /** What the player is to do about it. */
  function Meaning(m: Item): Event {
    match m
    case Key(ch, note, vel) => if vel == 0 then NoteOff(ch, note) else NoteOn(ch, note, vel)
    case KeyUp(ch, note, _) => NoteOff(ch, note)
    case Controller(ch, cc, val) => Control(ch, cc, val)
    case Patch(ch, number) => Program(ch, number)
    case Wheel(ch, amount) => Bend(ch, amount)
    case SetTempo(us) => Tempo(us)
    case Stop => EndOfTrack
    case _ => Ignored
  }

  /** One entry: when, what, and whether its status byte is left out. */
  datatype Entry = Entry(delta: nat, item: Item, short: bool)

  predicate IsChannel(m: Item) { !m.SetTempo? && !m.Text? && !m.Exclusive? && !m.Stop? }

  /** A status byte may be left out if it is that of the last channel message. */
  predicate IsEntry(e: Entry, running: byte) {
    e.delta < 0x1000_0000 && IsItem(e.item) && (e.short ==> IsChannel(e.item) && Status(e.item) == running)
  }

  function Running(e: Entry, running: byte): byte
    requires IsItem(e.item)
  {
    if IsChannel(e.item) then Status(e.item) else running
  }

  predicate IsTrack(es: seq<Entry>, running: byte) {
    es == [] || (IsEntry(es[0], running) && (es[0].item.Stop? ==> |es| == 1) && IsTrack(es[1..], Running(es[0], running)))
  }

  function Spelt(e: Entry): seq<byte>
    requires IsItem(e.item)
  {
    (if e.short then [] else [Status(e.item)]) + Body(e.item)
  }

  function Bytes(es: seq<Entry>, running: byte): seq<byte>
    requires IsTrack(es, running)
  {
    if es == [] then [] else VarBytes(es[0].delta) + Spelt(es[0]) + Bytes(es[1..], Running(es[0], running))
  }

  function Beats(es: seq<Entry>): seq<Beat> {
    if es == [] then [] else [Beat(es[0].delta, [Meaning(es[0].item)])] + Beats(es[1..])
  }

  // ---- one message ----

  lemma StatusKinds(m: Item)
    requires IsItem(m)
    ensures IsChannel(m) ==> 0x80 <= Status(m) < 0xF0
    ensures m.Exclusive? ==> 0xF0 <= Status(m) <= 0xF7
    ensures !IsChannel(m) && !m.Exclusive? ==> Status(m) == 0xFF
  {
  }

  /** A channel message reads as what it means, and the cursor stands behind it. */
  lemma ChannelReads(t: Track, m: Item)
    requires IsItem(m) && IsChannel(m) && t.pos + |Body(m)| <= |t.data| && t.data[t.pos..t.pos + |Body(m)|] == Body(m)
    ensures Voice(t, Status(m)) == Outcome(t.(pos := t.pos + |Body(m)|), [Meaning(m)])
  {
    var n := |Body(m)|;
    assert t.data[t.pos] == t.data[t.pos..t.pos + n][0];
    if n == 2 {
      assert t.data[t.pos + 1] == t.data[t.pos..t.pos + n][1];
    }
  }

  /** The body of a message of any length, behind its length. */
  lemma LengthReads(d: seq<byte>, pos: nat, body: seq<byte>)
    requires |body| < 0x1000_0000
    requires var w := VarBytes(|body|) + body; pos + |w| <= |d| && d[pos..pos + |w|] == w
    ensures var v := ReadVar(d, pos);
            v.0 == |body| && v.1 == pos + |VarBytes(|body|)| && v.1 + |body| == pos + |VarBytes(|body|) + body| <= |d|
  {
    var w := VarBytes(|body|) + body;
    var before, after := d[..pos], body + d[pos + |w|..];
    assert d == before + VarBytes(|body|) + after by {
      assert d == d[..pos] + d[pos..pos + |w|] + d[pos + |w|..];
    }
    VarRoundTrip(before, |body|, after);
  }

  /** Exclusive messages and meta events. */
  lemma SystemReads(t: Track, m: Item)
    requires IsItem(m) && !IsChannel(m) && t.pos + |Body(m)| <= |t.data| && t.data[t.pos..t.pos + |Body(m)|] == Body(m)
    ensures (if m.Exclusive? then SysEx(t) else Meta(t))
            == Outcome(t.(pos := t.pos + |Body(m)|, done := t.done || m.Stop?), [Meaning(m)])
  {
    match m
    case Exclusive(status, body) => ExclusiveReads(t, status, body);
    case Text(kind, body) => TextReads(t, kind, body);
    case SetTempo(us) => TempoReads(t, us);
    case Stop => StopReads(t);
  }

  lemma ExclusiveReads(t: Track, status: byte, body: seq<byte>)
    requires var m := Exclusive(status, body);
             IsItem(m) && t.pos + |Body(m)| <= |t.data| && t.data[t.pos..t.pos + |Body(m)|] == Body(m)
    ensures SysEx(t) == Outcome(t.(pos := t.pos + |VarBytes(|body|) + body|), [Ignored])
  {
    hide ReadVar, VarBytes;
    LengthReads(t.data, t.pos, body);
  }

  lemma TextReads(t: Track, kind: byte, body: seq<byte>)
    requires var m := Text(kind, body);
             IsItem(m) && t.pos + |Body(m)| <= |t.data| && t.data[t.pos..t.pos + |Body(m)|] == Body(m)
    ensures Meta(t) == Outcome(t.(pos := t.pos + |[kind] + VarBytes(|body|) + body|), [Ignored])
  {
    hide ReadVar, VarBytes;
    var d, pos, w := t.data, t.pos, VarBytes(|body|) + body;
    assert [kind] + VarBytes(|body|) + body == [kind] + w;
    Behind(d, pos, kind, w);
    LengthReads(d, pos + 1, body);
  }

  lemma Behind(d: seq<byte>, pos: nat, first: byte, w: seq<byte>)
    requires pos + 1 + |w| <= |d| && d[pos..pos + 1 + |w|] == [first] + w
    ensures d[pos] == first && d[pos + 1..pos + 1 + |w|] == w
  {
    assert d[pos..pos + 1 + |w|][0] == first;
    assert d[pos + 1..pos + 1 + |w|] == d[pos..pos + 1 + |w|][1..];
  }

  lemma TempoReads(t: Track, us: nat)
    requires us < 0x100_0000 && t.pos + 5 <= |t.data| && t.data[t.pos..t.pos + 5] == Body(SetTempo(us))
    ensures Meta(t) == Outcome(t.(pos := t.pos + 5), [Tempo(us)])
  {
    hide ReadVar;
    Five(t.data, t.pos, Body(SetTempo(us)));
    SmallLength(t.data, t.pos + 1);
    ThreeBytes(us);
  }

  lemma ThreeBytes(us: nat)
    requires us < 0x100_0000
    ensures us / 65536 * 65536 + us / 256 % 256 * 256 + us % 256 == us
  {
  }

  lemma StopReads(t: Track)
    requires t.pos + 2 <= |t.data| && t.data[t.pos..t.pos + 2] == Body(Stop)
    ensures Meta(t) == Outcome(t.(pos := t.pos + 2, done := true), [EndOfTrack])
  {
    hide ReadVar;
    assert t.data[t.pos] == t.data[t.pos..t.pos + 2][0] && t.data[t.pos + 1] == t.data[t.pos..t.pos + 2][1];
    SmallLength(t.data, t.pos + 1);
  }

  lemma Five(d: seq<byte>, pos: nat, w: seq<byte>)
    requires |w| == 5 && pos + 5 <= |d| && d[pos..pos + 5] == w
    ensures d[pos] == w[0] && d[pos + 1] == w[1] && d[pos + 2] == w[2] && d[pos + 3] == w[3] && d[pos + 4] == w[4]
  {
    var u := d[pos..pos + 5];
    assert u[0] == d[pos] && u[1] == d[pos + 1] && u[2] == d[pos + 2] && u[3] == d[pos + 3] && u[4] == d[pos + 4];
  }

  lemma SmallLength(d: seq<byte>, pos: nat)
    requires pos < |d| && d[pos] < 128
    ensures ReadVar(d, pos) == (d[pos] as int, pos + 1)
  {
  }

  /** One entry, wherever it stands and with or without its status byte. */
  lemma EntryReads(before: seq<byte>, e: Entry, after: seq<byte>, running: byte)
    requires IsEntry(e, running) && (running == 0 || 0x80 <= running < 0xF0)
    ensures var d := before + Spelt(e) + after;
            Step(Track(d, |before|, running, false))
            == Outcome(Track(d, |before| + |Spelt(e)|, Running(e, running), e.item.Stop?), [Meaning(e.item)])
  {
    hide Body, Meaning, Voice, Meta, SysEx, Status;
    var d, m := before + Spelt(e) + after, e.item;
    StatusKinds(m);
    BodyIsData(m);
    var t := Track(d, |before| + if e.short then 0 else 1, Running(e, running), false);
    assert d[t.pos..t.pos + |Body(m)|] == Body(m);
    if !e.short {
      assert d[|before|] == Status(m);
    } else {
      assert d[|before|] == Body(m)[0];
    }
    if IsChannel(m) {
      ChannelReads(t, m);
    } else {
      SystemReads(t, m);
    }
  }

  lemma BodyIsData(m: Item)
    requires IsItem(m)
    ensures IsChannel(m) ==> |Body(m)| > 0 && Body(m)[0] < 0x80
  {
  }

  // ---- a whole track ----

  lemma DeltaReads(before: seq<byte>, delta: nat, after: seq<byte>, running: byte)
    requires delta < 0x1000_0000
    ensures var d := before + VarBytes(delta) + after;
            ToNext(Track(d, |before|, running, false))
            == (delta, Track(d, |before| + |VarBytes(delta)|, running, false))
  {
    hide ReadVar;
    VarRoundTrip(before, delta, after);
    assert |VarBytes(delta)| > 0;
  }

  /** One delta with its entry: a beat, and the reader goes on right behind it. */
  lemma BeatReads(before: seq<byte>, e: Entry, after: seq<byte>, running: byte)
    requires IsEntry(e, running) && (running == 0 || 0x80 <= running < 0xF0)
    ensures var d := before + (VarBytes(e.delta) + Spelt(e)) + after;
            var n := ToNext(Track(d, |before|, running, false));
            var t := Track(d, |before| + |VarBytes(e.delta) + Spelt(e)|, Running(e, running), e.item.Stop?);
            Sane(n.1) && Sane(t) && Sane(ToNext(t).1) &&
            Rest(n.0, n.1) == [Beat(e.delta, [Meaning(e.item)])] + Rest(ToNext(t).0, ToNext(t).1)
  {
    hide Spelt, VarBytes, Step, ToNext, Meaning, Status, IsEntry, Sane, Running;
    EntryFacts(e, running);
    var delta, word := VarBytes(e.delta), Spelt(e);
    var d, head := before + (delta + word) + after, before + delta;
    assert d == before + delta + (word + after);
    DeltaReads(before, e.delta, word + after, running);
    assert d == head + word + after;
    EntryReads(head, e, after, running);
    SaneAt(d, |head|, running, false);
    SaneAt(d, |head| + |word|, Running(e, running), e.item.Stop?);
    RestStep(e.delta, Track(d, |head|, running, false));
  }

  /** From any entry on, the reader says what is written there; what follows the end of a track is not read. */
  lemma {:induction false} EntriesRead(before: seq<byte>, es: seq<Entry>, tail: seq<byte>, running: byte)
    requires IsTrack(es, running) && (running == 0 || 0x80 <= running < 0xF0)
    requires tail == [] || (es != [] && es[|es| - 1].item.Stop?)
    ensures var n := ToNext(Track(before + Bytes(es, running) + tail, |before|, running, false));
            Sane(n.1) && Rest(n.0, n.1) == Beats(es)
    decreases es
  {
    hide Spelt, VarBytes, Step, ToNext, Meaning, Status, IsEntry, Sane, Running, Rest;
    var d := before + Bytes(es, running) + tail;
    if es == [] {
      assert d == before;
      NothingMore(before, running);
    } else {
      var e := es[0];
      EntryFacts(e, running);
      var next := Running(e, running);
      var word, more := VarBytes(e.delta) + Spelt(e), Bytes(es[1..], next);
      assert d == before + word + (more + tail);
      BeatReads(before, e, more + tail, running);
      if e.item.Stop? {
        assert es[1..] == [];
        Stopped(Track(d, |before| + |word|, next, true));
      } else {
        assert d == before + word + more + tail;
        EntriesRead(before + word, es[1..], tail, next);
      }
    }
  }

  lemma EntryFacts(e: Entry, running: byte)
    requires IsEntry(e, running) && (running == 0 || 0x80 <= running < 0xF0)
    ensures e.delta < 0x1000_0000 && IsItem(e.item) && 0 <= Running(e, running) < 0xF0
    ensures Running(e, running) == 0 || 0x80 <= Running(e, running)
  {
    StatusKinds(e.item);
  }

  lemma SaneAt(d: seq<byte>, pos: nat, running: byte, done: bool)
    requires pos <= |d| && (running == 0 || 0x80 <= running < 0xF0)
    ensures Sane(Track(d, pos, running, done))
  {
  }

  lemma {:induction false} RestStep(delta: nat, t: Track)
    requires Sane(t) && !t.done
    ensures var n := ToNext(Step(t).track);
            Sane(n.1) && Rest(delta, t) == [Beat(delta, Step(t).events)] + Rest(n.0, n.1)
  {
    Dispatches(delta, t);
  }

  lemma NothingMore(d: seq<byte>, running: byte)
    requires running == 0 || 0x80 <= running < 0xF0
    ensures var n := ToNext(Track(d, |d|, running, false)); Sane(n.1) && Rest(n.0, n.1) == []
  {
  }

  lemma Stopped(t: Track)
    requires Sane(t) && t.done
    ensures var n := ToNext(t); Sane(n.1) && Rest(n.0, n.1) == []
  {
  }

  /** Whatever is written in a track is what the player is told: every delta with its event, in order and
      nothing else, up to the end of the track. */
  lemma {:induction false} TrackReads(es: seq<Entry>, tail: seq<byte>)
    requires IsTrack(es, 0) && (tail == [] || (es != [] && es[|es| - 1].item.Stop?))
    ensures Script(Bytes(es, 0) + tail) == Beats(es)
  {
    hide Rest, ToNext;
    EntriesRead([], es, tail, 0);
    assert [] + Bytes(es, 0) + tail == Bytes(es, 0) + tail;
  }
}

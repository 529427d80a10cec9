/** The offline converter: key and velocity ranges, sample deduplication and layout, the preset index
    and the zones.  The bank it writes is accepted by the validator exactly when it can be, and the
    lookup finds in it exactly the zones that a plain search of the zone list would. */
module Sf2Convert {
  import opened Common
  import opened LittleEndian
  import opened SmpBank

  // ---- ranges ----

  /** A range packs its low end in the low byte and its high end in the high byte. */
  function Lo(r: Half): byte { r % 256 }

  function Hi(r: Half): byte { r / 256 % 256 }

  predicate InRange(k: int, r: Half) { Lo(r) <= k <= Hi(r) }

  const EMPTY: Half := 0xFFFF

  function RangeIntersect(a: Half, b: Half): Half {
    var lo: byte := if Lo(a) > Lo(b) then Lo(a) else Lo(b);
    var hi: byte := if Hi(a) < Hi(b) then Hi(a) else Hi(b);
    if lo > hi then EMPTY else Packed(lo, hi)
  }

  function Packed(lo: byte, hi: byte): Half { lo as int + 256 * hi as int }

  lemma PackedEnds(lo: byte, hi: byte)
    ensures Lo(Packed(lo, hi)) == lo && Hi(Packed(lo, hi)) == hi
  {
  }

  /** The result holds what both hold; the marker for an empty range reads as the one value 255, so a
      range that holds just 255 is taken for empty. */
  lemma IntersectIsMeet(a: Half, b: Half, k: int)
    ensures k < 255 ==> (InRange(k, RangeIntersect(a, b)) <==> InRange(k, a) && InRange(k, b))
    ensures RangeIntersect(a, b) == EMPTY <==> !exists j :: 0 <= j < 255 && InRange(j, a) && InRange(j, b)
  {
    var lo: byte := if Lo(a) > Lo(b) then Lo(a) else Lo(b);
    var hi: byte := if Hi(a) < Hi(b) then Hi(a) else Hi(b);
    PackedEnds(lo, hi);
    PackedEnds(255, 255);
    assert Packed(255, 255) == EMPTY;
    if RangeIntersect(a, b) != EMPTY {
      assert InRange(lo as int, a) && InRange(lo as int, b);
    }
  }

  /** Ranges that a preset may or may not set. */
  function Narrow(r: Half, cut: Option<Half>): Half {
    if cut.Some? then RangeIntersect(r, cut.value) else r
  }

  /** resolve_instrument_zone: the instrument's range, cut by the preset's global zone and its own. */
  function FinalRange(inst: Half, global: Option<Half>, zone: Option<Half>): Half {
    Narrow(Narrow(inst, global), zone)
  }

  predicate Allows(cut: Option<Half>, k: int) { cut.Some? ==> InRange(k, cut.value) }

  /** A zone sounds for a key if and only if it was kept and every range it came with allows the key. */
  lemma FinalRangeIsMeet(inst: Half, global: Option<Half>, zone: Option<Half>, k: int)
    requires k < 255
    ensures FinalRange(inst, global, zone) != EMPTY && InRange(k, FinalRange(inst, global, zone)) <==>
            InRange(k, inst) && Allows(global, k) && Allows(zone, k)
  {
    hide RangeIntersect, Lo, Hi;
    EmptyHasNone(k);
    var first := Narrow(inst, global);
    if global.Some? {
      IntersectIsMeet(inst, global.value, k);
    }
    if zone.Some? {
      IntersectIsMeet(first, zone.value, k);
    }
  }

  lemma EmptyHasNone(k: int)
    requires k < 255
    ensures !InRange(k, EMPTY)
  {
  }

  // ---- zones and samples ----

  datatype Addr = Addr(fine: short, coarse: short)

  function Offset(a: Addr): int { a.fine + a.coarse * 32768 }

  datatype Zone = Zone(slot: nat, keyRange: Half, velRange: Half, shdr: nat, start: Addr, end: Addr,
                       loopStart: Addr, loopEnd: Addr, modes: short)

  datatype Shdr = Shdr(start: Word, end: Word, loopStart: Word, loopEnd: Word, rate: Word)

  datatype Sample = Sample(shdr: nat, start: Word, length: Word)

  /** The sample data a zone plays, clamped to the data there is. */
  function Clamped(z: Zone, sh: Shdr, total: Word): Sample {
    var start := U32(sh.start + Offset(z.start));
    var end := U32(sh.end + Offset(z.end));
    var s: Word := if start >= total then if total > 0 then total - 1 else 0 else start;
    var e: Word := if end > total then total else end;
    Sample(z.shdr, s, if e <= s then 1 else e - s)
  }

  /** Clamping never leaves the data and never leaves a zone without a sample; a zone that asks for
      data that is there gets just that. */
  lemma ClampedIsInside(z: Zone, sh: Shdr, total: Word)
    requires total > 0
    ensures var c := Clamped(z, sh, total);
            c.length >= 1 && c.start + c.length <= total &&
            (0 <= sh.start + Offset(z.start) < sh.end + Offset(z.end) <= total ==>
               c.start == sh.start + Offset(z.start) && c.start + c.length == sh.end + Offset(z.end))
  {
    hide Offset;
  }

  predicate Distinct(samples: seq<Sample>) {
    forall i, j :: 0 <= i < j < |samples| ==> samples[i] != samples[j]
  }

  /** sample_dedup: the table never holds a sample twice. */
  method SampleDedup(samples: seq<Sample>, key: Sample) returns (idx: nat, samples': seq<Sample>)
    requires Distinct(samples)
    ensures Distinct(samples') && idx < |samples'| && samples'[idx] == key
    ensures samples' == if key in samples then samples else samples + [key]
  {
    for i := 0 to |samples|
      invariant forall j :: 0 <= j < i ==> samples[j] != key
    {
      if samples[i] == key {
        return i, samples;
      }
    }
    return |samples|, samples + [key];
  }

  // ---- layout ----

  function Align4(n: nat): nat { (n + 3) / 4 * 4 }

  /** Where a sample goes: after all samples before it, each padded to four bytes. */
  function Extent(samples: seq<Sample>): nat {
    if samples == [] then 0
    else Extent(samples[..|samples| - 1]) + Align4(samples[|samples| - 1].length * 2)
  }

  lemma AlignFacts(n: nat, x: nat)
    ensures Align4(n) % 4 == 0 && n <= Align4(n) < n + 4
    ensures x % 4 == 0 ==> Align4(x + n) == x + Align4(n)
  {
    var q, r := (n + 3) / 4, (n + 3) % 4;
    assert n + 3 == q * 4 + r;
    DivModUnique(q * 4, 4, q, 0);
    if x % 4 == 0 {
      var p := x / 4;
      assert x == p * 4;
      DivModUnique(x + n + 3, 4, p + q, r);
    }
  }

  lemma AlignEven(n: nat)
    ensures Align4(2 * n) <= 2 * n + 2
  {
    var q, r := (2 * n + 3) / 4, (2 * n + 3) % 4;
    assert 2 * n + 3 == q * 4 + r;
  }

  lemma {:induction false} ExtentAligned(samples: seq<Sample>)
    ensures Extent(samples) % 4 == 0
  {
    if samples != [] {
      ExtentAligned(samples[..|samples| - 1]);
    }
  }

  lemma {:induction false} ExtentGrows(samples: seq<Sample>, i: nat, j: nat)
    requires i <= j <= |samples|
    ensures Extent(samples[..i]) <= Extent(samples[..j])
    ensures i < j ==> Extent(samples[..i]) + Align4(samples[i].length * 2) <= Extent(samples[..j])
    decreases j
  {
    if i < j {
      ExtentGrows(samples, i, j - 1);
      assert samples[..j][..j - 1] == samples[..j - 1];
    }
  }

  /** Different samples get extents that do not overlap, each on a four-byte boundary. */
  lemma {:induction false} ExtentsAreDisjoint(samples: seq<Sample>, i: nat, j: nat)
    requires i < j < |samples|
    ensures Extent(samples[..i]) % 4 == 0
    ensures Extent(samples[..i]) + 2 * samples[i].length <= Extent(samples[..j])
    ensures Extent(samples[..j]) + 2 * samples[j].length <= Extent(samples)
  {
    ExtentAligned(samples[..i]);
    ExtentGrows(samples, i, j);
    ExtentGrows(samples, j, |samples|);
    assert samples[..|samples|] == samples;
    AlignFacts(samples[i].length * 2, 0);
    AlignFacts(samples[j].length * 2, 0);
  }

  lemma ModStep(x: nat, n: nat)
    requires x % 4 == 0
    ensures U32(Align4(U32(U32(x) + U32(n)))) == U32(x + Align4(n))
  {
    ModAdd(x, n);
    AlignFacts(n, x);
    AlignMod(x + n);
    hide Align4;
  }

  lemma AlignMod(y: nat)
    ensures Align4(y % TURN) % TURN == Align4(y) % TURN
  {
    var q, r := y / TURN, y % TURN;
    assert y == q * TURN + r;
    TurnsAreAligned(q);
    AlignFacts(r, q * TURN);
    hide Align4;
    ModDrop(Align4(r), q);
  }

  lemma TurnsAreAligned(q: nat)
    ensures q * TURN % 4 == 0
  {
    DivModUnique(q * TURN, 4, q * 0x4000_0000, 0);
  }

  lemma ModAdd(x: nat, n: nat)
    ensures (x % TURN + n % TURN) % TURN == (x + n) % TURN
  {
    var a, b := x / TURN, n / TURN;
    assert x + n == (a + b) * TURN + (x % TURN + n % TURN);
    ModDrop(x % TURN + n % TURN, a + b);
  }

  lemma ModDrop(x: nat, q: nat)
    ensures (q * TURN + x) % TURN == x % TURN
  {
  }

  /** Phase 2, in 32-bit arithmetic. */
  method Layout(samples: seq<Sample>) returns (offsets: seq<Word>, size: Word)
    ensures |offsets| == |samples| && size == U32(Extent(samples))
    ensures forall i :: 0 <= i < |samples| ==> offsets[i] == U32(Extent(samples[..i]))
  {
    hide Align4;
    offsets, size := [], 0;
    assert samples[..0] == [];
    for i := 0 to |samples|
      invariant |offsets| == i && size == U32(Extent(samples[..i]))
      invariant forall j :: 0 <= j < i ==> offsets[j] == U32(Extent(samples[..j]))
    {
      offsets := offsets + [size];
      assert samples[..i + 1][..i] == samples[..i];
      ExtentAligned(samples[..i]);
      ModStep(Extent(samples[..i]), samples[i].length * 2);
      size := U32(size + U32(samples[i].length * 2));
      size := U32(Align4(size));
    }
    assert samples[..|samples|] == samples;
  }

  // ---- order ----

  /** zone_compare */
  function Compare(a: Zone, b: Zone): int {
    if a.slot != b.slot then a.slot - b.slot
    else if Lo(a.keyRange) != Lo(b.keyRange) then Lo(a.keyRange) as int - Lo(b.keyRange) as int
    else Lo(a.velRange) as int - Lo(b.velRange) as int
  }

  /** A comparator a sort may rely on. */
  lemma CompareIsOrder(a: Zone, b: Zone, c: Zone)
    ensures Compare(a, b) < 0 <==> Compare(b, a) > 0
    ensures Compare(a, b) <= 0 && Compare(b, c) <= 0 ==> Compare(a, c) <= 0
  {
    hide Lo;
  }

  /** By slot, then by the low key, then by the low velocity. */
  lemma CompareIsLexical(a: Zone, b: Zone)
    ensures Compare(a, b) <= 0 <==>
            a.slot < b.slot ||
            (a.slot == b.slot &&
             (a.keyRange % 256 < b.keyRange % 256 ||
              (a.keyRange % 256 == b.keyRange % 256 && a.velRange % 256 <= b.velRange % 256)))
  {
  }

  /** What qsort promises of its result. */
  predicate Sorted(zs: seq<Zone>) {
    forall i, j :: 0 <= i < j < |zs| ==> Compare(zs[i], zs[j]) <= 0
  }

  // ---- the preset index ----

  /** The preset points at exactly the zones of its slot. */
  predicate Describes(p: Preset, zs: seq<Zone>, slot: nat) {
    (p.count > 0 ==> p.start + p.count <= |zs|) &&
    forall i :: 0 <= i < |zs| ==> (zs[i].slot == slot <==> p.start <= i < p.start + p.count)
  }

  /** Phase 3. */
  method BuildIndex(zs: seq<Zone>) returns (index: seq<Preset>)
    requires Sorted(zs) && |zs| < 0x1_0000 && forall z <- zs :: z.slot < PRESETS
    ensures |index| == PRESETS && forall s :: 0 <= s < PRESETS ==> Describes(index[s], zs, s)
  {
    hide Lo;
    index := seq(PRESETS, _ => Preset(0, 0));
    if |zs| == 0 {
      return;
    }
    var curSlot: int, curStart := zs[0].slot, 0;
    var i := 1;
    while i <= |zs|
      invariant 1 <= i <= |zs| + 1 && curStart <= |zs| && |index| == PRESETS
      invariant if i <= |zs| then curStart < i && curSlot == zs[curStart].slot else curStart == |zs|
      invariant forall j :: curStart <= j < i && j < |zs| ==> zs[j].slot == curSlot
      invariant 0 < curStart < |zs| ==> zs[curStart - 1].slot != curSlot
      invariant forall s :: 0 <= s < PRESETS ==> Describes(index[s], zs[..curStart], s)
    {
      var slot: int := if i < |zs| then zs[i].slot else -1;
      if slot != curSlot {
        IndexGroup(zs, index, curStart, i);
        index := index[curSlot := Preset(U16(curStart), U16(i - curStart))];
        curSlot, curStart := slot, i;
      }
      i := i + 1;
    }
    assert zs[..|zs|] == zs;
  }

  /** A finished group gets its entry, and no other entry is disturbed. */
  lemma IndexGroup(zs: seq<Zone>, index: seq<Preset>, start: nat, i: nat)
    requires Sorted(zs) && start < i <= |zs| < 0x1_0000 && |index| == PRESETS && zs[start].slot < PRESETS
    requires forall j :: start <= j < i ==> zs[j].slot == zs[start].slot
    requires forall s :: 0 <= s < PRESETS ==> Describes(index[s], zs[..start], s)
    requires start > 0 ==> zs[start - 1].slot != zs[start].slot
    ensures var index' := index[zs[start].slot := Preset(U16(start), U16(i - start))];
            forall s :: 0 <= s < PRESETS ==> Describes(index'[s], zs[..i], s)
  {
    hide Lo;
    var cur := zs[start].slot;
    forall j | 0 <= j < start
      ensures zs[j].slot != cur
    {
      assert Compare(zs[j], zs[start - 1]) <= 0 || j == start - 1;
      assert Compare(zs[start - 1], zs[start]) <= 0;
    }
    var index' := index[cur := Preset(U16(start), U16(i - start))];
    forall s | 0 <= s < PRESETS
      ensures Describes(index'[s], zs[..i], s)
    {
      assert Describes(index[s], zs[..start], s);
      forall j | 0 <= j < i
        ensures zs[..i][j].slot == s <==> index'[s].start <= j < index'[s].start + index'[s].count
      {
        if j < start {
          assert zs[..start][j] == zs[j];
        }
      }
    }
  }

  // ---- the written zones ----

  function SampleIndex(samples: seq<Sample>, key: Sample): (k: nat)
    requires key in samples
    ensures k < |samples| && samples[k] == key
  {
    if samples[|samples| - 1] == key then |samples| - 1 else SampleIndex(samples[..|samples| - 1], key)
  }

  lemma {:induction false} IndexIsUnique(samples: seq<Sample>, k: nat)
    requires Distinct(samples) && k < |samples|
    ensures SampleIndex(samples, samples[k]) == k
  {
    var j := SampleIndex(samples, samples[k]);
    assert samples[j] == samples[k];
  }

  /** Loop points relative to the sample, never empty and never past its end. */
  function LoopPoints(z: Zone, sh: Shdr, se: Sample): (Word, Word)
    requires se.length > 0
  {
    var absStart, absEnd := U32(sh.loopStart + Offset(z.loopStart)), U32(sh.loopEnd + Offset(z.loopEnd));
    var start0: Word := if absStart >= se.start then absStart - se.start else 0;
    var end0: Word := if absEnd >= se.start then absEnd - se.start else 0;
    var start: Word := if start0 >= se.length then se.length - 1 else start0;
    var end1: Word := if end0 > se.length then se.length else end0;
    (start, if end1 <= start then U32(start + 1) else end1)
  }

  lemma LoopPointsInside(z: Zone, sh: Shdr, se: Sample)
    requires se.length > 0
    ensures var l := LoopPoints(z, sh, se); l.0 < l.1 <= se.length
    ensures var ls, le := sh.loopStart + Offset(z.loopStart), sh.loopEnd + Offset(z.loopEnd);
            se.start <= ls < le <= se.start + se.length && le < TURN ==>
              LoopPoints(z, sh, se) == (ls - se.start, le - se.start)
  {
    hide Offset;
  }

  function LoopMode(modes: short): nat { if modes % 2 == 1 then LOOP_FORWARD else LOOP_NONE }

  function OutZoneOf(z: Zone, sh: Shdr, se: Sample, offset: Word): OutZone
    requires se.length > 0
  {
    var loops := LoopPoints(z, sh, se);
    OutZone(Lo(z.keyRange), Hi(z.keyRange), Lo(z.velRange), Hi(z.velRange), offset, se.length, loops.0, loops.1,
            LoopMode(z.modes))
  }

  // ---- the whole conversion ----

  /** What the converter is given: resolved zones in the order of the sort, and the sample data. */
  datatype Source = Source(zones: seq<Zone>, shdrs: seq<Shdr>, total: Word)

  predicate IsSource(s: Source) {
    s.total > 0 && |s.zones| < 0x1_0000 && Sorted(s.zones) &&
    forall z <- s.zones :: z.slot < PRESETS && z.shdr < |s.shdrs|
  }

  function SampleOf(s: Source, i: nat): Sample
    requires IsSource(s) && i < |s.zones|
  {
    Clamped(s.zones[i], s.shdrs[s.zones[i].shdr], s.total)
  }

  /** The sample table: no sample twice, every zone's sample in it, and nothing else. */
  predicate IsTable(s: Source, samples: seq<Sample>)
    requires IsSource(s)
  {
    Distinct(samples) &&
    (forall i :: 0 <= i < |s.zones| ==> SampleOf(s, i) in samples) &&
    AllUsed(s, samples, |s.zones|)
  }

  /** A sample that one of the first n zones plays. */
  predicate Used(s: Source, x: Sample, n: nat)
    requires IsSource(s) && n <= |s.zones|
  {
    exists i :: 0 <= i < n && SampleOf(s, i) == x
  }

  predicate AllUsed(s: Source, samples: seq<Sample>, n: nat)
    requires IsSource(s) && n <= |s.zones|
  {
    forall k :: 0 <= k < |samples| ==> Used(s, samples[k], n)
  }

  lemma TableHas(s: Source, samples: seq<Sample>, z: Zone)
    requires IsSource(s) && IsTable(s, samples) && z in s.zones
    ensures Clamped(z, s.shdrs[z.shdr], s.total) in samples && Clamped(z, s.shdrs[z.shdr], s.total).length > 0
  {
    hide Clamped, Sorted, Distinct;
    var i :| 0 <= i < |s.zones| && s.zones[i] == z;
    assert SampleOf(s, i) in samples;
    ClampedIsInside(z, s.shdrs[z.shdr], s.total);
  }

  function WrittenAs(s: Source, samples: seq<Sample>, z: Zone): OutZone
    requires IsSource(s) && IsTable(s, samples) && z in s.zones
  {
    TableHas(s, samples, z);
    var se := Clamped(z, s.shdrs[z.shdr], s.total);
    OutZoneOf(z, s.shdrs[z.shdr], se, U32(Extent(samples[..SampleIndex(samples, se)])))
  }

  function WrittenZone(s: Source, samples: seq<Sample>, i: nat): OutZone
    requires IsSource(s) && IsTable(s, samples) && i < |s.zones|
  {
    WrittenAs(s, samples, s.zones[i])
  }

  lemma WrittenFrom(s: Source, samples: seq<Sample>, i: nat, k: nat)
    requires IsSource(s) && i < |s.zones| && IsTable(s, samples) && k < |samples| && samples[k] == SampleOf(s, i)
    ensures var z := s.zones[i];
            samples[k].length > 0 &&
            WrittenZone(s, samples, i) == OutZoneOf(z, s.shdrs[z.shdr], samples[k], U32(Extent(samples[..k])))
  {
    hide Clamped, Sorted, Extent, SampleIndex, OutZoneOf;
    ClampedIsInside(s.zones[i], s.shdrs[s.zones[i].shdr], s.total);
    IndexIsUnique(samples, k);
  }

  /** The bank that was written, and the sample table behind its data. */
  predicate Written(s: Source, samples: seq<Sample>, b: Bank)
    requires IsSource(s)
  {
    IsTable(s, samples) && b.magic == MAGIC && b.version == VERSION && b.rate > 0 && b.zoneCount == |s.zones| &&
    b.dataOffset == PREFIX + |s.zones| * ZONE_BYTES && b.dataSize == U32(Extent(samples)) &&
    |b.presets| == PRESETS && (forall p :: 0 <= p < PRESETS ==> Describes(b.presets[p], s.zones, p)) &&
    |b.zones| == |s.zones| && forall i :: 0 <= i < |s.zones| ==> b.zones[i] == WrittenZone(s, samples, i)
  }

  lemma NoneYet(s: Source)
    requires IsSource(s)
    ensures AllUsed(s, [], 0) && Distinct([])
  {
  }

  /** Phase 1. */
  method CollectSamples(s: Source) returns (samples: seq<Sample>, zoneSample: seq<nat>)
    requires IsSource(s)
    ensures IsTable(s, samples) && |zoneSample| == |s.zones|
    ensures forall i :: 0 <= i < |s.zones| ==> zoneSample[i] < |samples| && samples[zoneSample[i]] == SampleOf(s, i)
  {
    hide IsSource, SampleOf, AllUsed, Distinct;
    NoneYet(s);
    samples, zoneSample := [], [];
    for i := 0 to |s.zones|
      invariant Distinct(samples) && |zoneSample| == i
      invariant forall j :: 0 <= j < i ==> zoneSample[j] < |samples| && samples[zoneSample[j]] == SampleOf(s, j)
      invariant AllUsed(s, samples, i)
    {
      var idx, more := SampleDedup(samples, SampleOf(s, i));
      UsedStill(s, samples, more, i);
      zoneSample, samples := zoneSample + [idx], more;
    }
    forall i | 0 <= i < |s.zones|
      ensures SampleOf(s, i) in samples
    {
      assert samples[zoneSample[i]] in samples;
    }
  }

  lemma UsedStill(s: Source, samples: seq<Sample>, more: seq<Sample>, n: nat)
    requires IsSource(s) && n < |s.zones| && AllUsed(s, samples, n)
    requires more == samples || more == samples + [SampleOf(s, n)]
    ensures AllUsed(s, more, n + 1)
  {
    hide IsSource;
    assert Used(s, SampleOf(s, n), n + 1);
    forall k | 0 <= k < |more|
      ensures Used(s, more[k], n + 1)
    {
      if k < |samples| {
        assert Used(s, samples[k], n);
      }
    }
  }

  /** Phase 4. */
  method WriteZones(s: Source, samples: seq<Sample>, zoneSample: seq<nat>, offsets: seq<Word>)
      returns (out: seq<OutZone>)
    requires IsSource(s) && IsTable(s, samples) && |zoneSample| == |s.zones| && |offsets| == |samples|
    requires forall i :: 0 <= i < |s.zones| ==> zoneSample[i] < |samples| && samples[zoneSample[i]] == SampleOf(s, i)
    requires forall k :: 0 <= k < |samples| ==> offsets[k] == U32(Extent(samples[..k]))
    ensures |out| == |s.zones| && forall i :: 0 <= i < |s.zones| ==> out[i] == WrittenZone(s, samples, i)
  {
    hide Sorted, Extent, OutZoneOf, WrittenZone, IsTable, SampleOf;
    out := [];
    for i := 0 to |s.zones|
      invariant |out| == i && forall j :: 0 <= j < i ==> out[j] == WrittenZone(s, samples, j)
    {
      var z := s.zones[i];
      var sh := s.shdrs[z.shdr];
      WrittenFrom(s, samples, i, zoneSample[i]);
      out := out + [OutZoneOf(z, sh, samples[zoneSample[i]], offsets[zoneSample[i]])];
    }
  }

  /** write_output up to the file itself.  rate is the option, 0 if it was not given. */
  method Convert(s: Source, rate: Word) returns (b: Bank, samples: seq<Sample>)
    requires IsSource(s)
    ensures Written(s, samples, b)
  {
    hide Sorted, Extent, IsTable, WrittenZone, Describes, U32, Align4;
    var zoneSample;
    samples, zoneSample := CollectSamples(s);
    var offsets, dataSize := Layout(samples);
    DataOffsetIs(|s.zones|);
    var dataOffset := U32(Align4(U32(PREFIX + U32(|s.zones| * ZONE_BYTES))));
    var r := PickRate(s, rate);
    var presets := BuildIndex(s.zones);
    var zones := WriteZones(s, samples, zoneSample, offsets);
    b := Bank(MAGIC, VERSION, r, |s.zones|, dataOffset, dataSize, presets, zones);
  }

  lemma DataOffsetIs(n: nat)
    requires n < 0x1_0000
    ensures U32(Align4(U32(PREFIX + U32(n * ZONE_BYTES)))) == PREFIX + n * ZONE_BYTES
  {
    var off := PREFIX + n * ZONE_BYTES;
    FourTimes(280 + 28 * n);
    Wraps(n * ZONE_BYTES);
    Wraps(off);
    AlignFacts(0, off);
  }

  lemma FourTimes(q: nat)
    ensures 4 * q % 4 == 0 && 4 * q % 2 == 0
  {
    DivModUnique(4 * q, 4, q, 0);
    DivModUnique(4 * q, 2, 2 * q, 0);
  }

  lemma Wraps(x: nat)
    ensures x < TURN ==> U32(x) == x
    ensures TURN <= x < 2 * TURN ==> U32(x) == x - TURN
  {
  }

  /** The rate of the header: the option, else the first zone's sample's, else 44100. */
  method PickRate(s: Source, rate: Word) returns (r: Word)
    requires IsSource(s)
    ensures r > 0 && (rate > 0 ==> r == rate)
    ensures rate == 0 ==> r == DEFAULT_RATE || (s.zones != [] && r == s.shdrs[s.zones[0].shdr].rate)
    ensures rate == 0 && s.zones != [] && s.shdrs[s.zones[0].shdr].rate > 0 ==> r == s.shdrs[s.zones[0].shdr].rate
  {
    r := rate;
    if r == 0 && |s.zones| > 0 {
      assert s.zones[0] in s.zones;
      r := s.shdrs[s.zones[0].shdr].rate;
    }
    if r == 0 {
      r := DEFAULT_RATE;
    }
  }

  // ---- converter and validator agree ----

  /** A written zone's extent in the unwrapped layout. */
  lemma {:induction false} ZoneExtent(s: Source, samples: seq<Sample>, b: Bank, i: nat)
    requires IsSource(s) && Written(s, samples, b) && i < |s.zones|
    ensures var k := SampleIndex(samples, SampleOf(s, i));
            b.zones[i].offset == U32(Extent(samples[..k])) && b.zones[i].length == samples[k].length == SampleOf(s, i).length &&
            b.zones[i].loopStart < b.zones[i].loopEnd <= b.zones[i].length
  {
    hide Extent, Clamped, LoopPoints, Distinct, Sorted, AllUsed;
    ClampedIsInside(s.zones[i], s.shdrs[s.zones[i].shdr], s.total);
    LoopPointsInside(s.zones[i], s.shdrs[s.zones[i].shdr], SampleOf(s, i));
  }

  /** Without wrap-around every zone whose sample is not too long is accepted. */
  lemma {:induction false} FittingZoneOk(s: Source, samples: seq<Sample>, b: Bank, i: nat)
    requires IsSource(s) && Written(s, samples, b) && i < |s.zones| && Extent(samples) < TURN
    ensures ZoneOk(b.zones[i], b.dataSize) <==> SampleOf(s, i).length <= MAX_LENGTH
  {
    hide Clamped, Distinct, Sorted, AllUsed, WrittenZone, SampleOf, Describes;
    ZoneExtent(s, samples, b, i);
    var k := SampleIndex(samples, SampleOf(s, i));
    ExtentAligned(samples[..k]);
    ExtentGrows(samples, k, |samples|);
    assert samples[..|samples|] == samples;
    AlignFacts(samples[k].length * 2, 0);
    ExtentNumbers(Extent(samples[..k]), samples[k].length, Extent(samples));
  }

  lemma ExtentNumbers(offset: nat, length: nat, size: nat)
    requires offset + 2 * length <= size < TURN && offset % 4 == 0
    ensures U32(offset) == offset && U32(size) == size && offset % 2 == 0 && length <= (size - offset) / 2
  {
  }

  /** With wrap-around the sample at the seam gives it away. */
  lemma {:induction false} Seam(samples: seq<Sample>)
    requires Extent(samples) >= TURN
    ensures exists k :: 0 <= k < |samples| && Extent(samples[..k]) < TURN <= Extent(samples[..k]) + Align4(2 * samples[k].length)
  {
    var last := |samples| - 1;
    var front := samples[..last];
    if Extent(front) >= TURN {
      Seam(front);
      var k :| 0 <= k < |front| && Extent(front[..k]) < TURN <= Extent(front[..k]) + Align4(2 * front[k].length);
      assert front[..k] == samples[..k] && front[k] == samples[k];
    }
  }

  lemma SeamNumbers(offset: nat, length: nat, size: nat)
    requires offset < TURN <= offset + Align4(2 * length) && offset % 4 == 0 && size % 4 == 0
    ensures U32(offset) == offset && !(offset <= U32(size) && length <= (U32(size) - offset) / 2)
  {
    AlignEven(length);
    BelowTheSeam(size);
    Wraps(offset);
    hide Align4, U32;
    var room := U32(size) - offset;
    assert 2 * length > room;
  }

  lemma BelowTheSeam(size: nat)
    requires size % 4 == 0
    ensures U32(size) <= TURN - 4
  {
    var q, r := size / TURN, size % TURN;
    assert size == q * TURN + r;
    assert TURN == 4 * 0x4000_0000;
  }

  lemma {:induction false} WrappedIsRefused(s: Source, samples: seq<Sample>, b: Bank)
    requires IsSource(s) && Written(s, samples, b) && Extent(samples) >= TURN
    ensures exists i :: 0 <= i < |s.zones| && !ZoneOk(b.zones[i], b.dataSize)
  {
    hide Clamped, Sorted, WrittenZone, SampleOf, Describes, Extent, Distinct, Align4;
    Seam(samples);
    var k :| 0 <= k < |samples| && Extent(samples[..k]) < TURN <= Extent(samples[..k]) + Align4(2 * samples[k].length);
    assert Used(s, samples[k], |s.zones|);
    var i :| 0 <= i < |s.zones| && SampleOf(s, i) == samples[k];
    ZoneExtent(s, samples, b, i);
    IndexIsUnique(samples, k);
    ExtentAligned(samples[..k]);
    ExtentAligned(samples);
    SeamNumbers(Extent(samples[..k]), samples[k].length, Extent(samples));
    assert !ZoneOk(b.zones[i], b.dataSize);
  }

  /** 512 zones over as many sample headers, each with the longest sample the hardware can play. */
  function Full(): Source {
    var here := Addr(0, 0);
    Source(seq(512, i requires 0 <= i < 512 => Zone(0, 0x7F00, 0x7F00, i, here, here, here, here, 0)),
           seq(512, _ => Shdr(0, MAX_LENGTH, 0, 0, 44100)), MAX_LENGTH)
  }

  function FullTable(n: nat): (samples: seq<Sample>)
    ensures |samples| == n && forall k :: 0 <= k < n ==> samples[k] == Sample(k, 0, MAX_LENGTH)
  {
    seq(n, k requires 0 <= k < n => Sample(k, 0, MAX_LENGTH))
  }

  lemma {:induction false} FullExtent(n: nat)
    ensures Extent(FullTable(n)) == n * 0x80_0000
  {
    if n > 0 {
      FullExtent(n - 1);
      assert FullTable(n)[..n - 1] == FullTable(n - 1);
    }
  }

  /** Offsets do wrap for a source in which every sample is short enough. */
  lemma OffsetsCanWrap()
    ensures IsSource(Full()) && IsTable(Full(), FullTable(512)) && Extent(FullTable(512)) == TURN
    ensures forall i :: 0 <= i < |Full().zones| ==> SampleOf(Full(), i).length <= MAX_LENGTH
  {
    var s, samples := Full(), FullTable(512);
    FullExtent(512);
    hide Lo, Hi, Extent;
    assert Sorted(s.zones);
    assert IsSource(s);
    forall i | 0 <= i < 512
      ensures SampleOf(s, i) == samples[i]
    {
      assert Offset(s.zones[i].start) == 0;
    }
    forall k | 0 <= k < |samples|
      ensures Used(s, samples[k], |s.zones|)
    {
      assert SampleOf(s, k) == samples[k];
    }
    assert forall i :: 0 <= i < |s.zones| ==> SampleOf(s, i) in samples;
  }

  /** The size of the file that is written: the bounds check on the way out never shortens a sample. */
  function FileSize(b: Bank, samples: seq<Sample>): nat { b.dataOffset + Extent(samples) }

  lemma NothingOverruns(s: Source, samples: seq<Sample>, k: nat)
    requires IsSource(s) && IsTable(s, samples) && k < |samples|
    ensures samples[k].start + samples[k].length <= s.total
  {
    hide Clamped, Sorted, Distinct;
    assert Used(s, samples[k], |s.zones|);
    var i :| 0 <= i < |s.zones| && SampleOf(s, i) == samples[k];
    ClampedIsInside(s.zones[i], s.shdrs[s.zones[i].shdr], s.total);
  }

  /** The validator accepts what the converter writes exactly when there is a zone, no sample is longer
      than the hardware can play, and the file is smaller than 4 GiB. */
  lemma ConvertedIsValid(s: Source, samples: seq<Sample>, b: Bank)
    requires IsSource(s) && Written(s, samples, b)
    ensures IsView(b, U32(FileSize(b, samples)))
    ensures BankOk(b, U32(FileSize(b, samples))) <==>
            |s.zones| > 0 && FileSize(b, samples) < TURN &&
            forall i :: 0 <= i < |s.zones| ==> SampleOf(s, i).length <= MAX_LENGTH
  {
    hide Clamped, Sorted, WrittenZone, SampleOf, IsTable, Extent, ZoneOk;
    var size := U32(FileSize(b, samples));
    forall p | 0 <= p < PRESETS
      ensures PresetOk(b.presets[p], b.zoneCount)
    {
      assert Describes(b.presets[p], s.zones, p);
    }
    if Extent(samples) >= TURN {
      WrappedIsRefused(s, samples, b);
    } else {
      forall i | 0 <= i < |s.zones|
        ensures ZoneOk(b.zones[i], b.dataSize) <==> SampleOf(s, i).length <= MAX_LENGTH
      {
        FittingZoneOk(s, samples, b, i);
      }
      ExtentAligned(samples);
      SizeNumbers(|s.zones|, Extent(samples));
    }
  }

  lemma SizeNumbers(n: nat, extent: nat)
    requires n < 0x1_0000 && extent < TURN && extent % 4 == 0
    ensures var off := PREFIX + n * ZONE_BYTES; var size := U32(off + extent);
            off % 2 == 0 && U32(extent) == extent && extent % 2 == 0 &&
            (off + extent < TURN ==> size == off + extent) && (off + extent >= TURN ==> off + extent > size)
  {
    FourTimes(280 + 28 * n);
    Wraps(extent);
    Wraps(PREFIX + n * ZONE_BYTES + extent);
    hide U32;
  }

  // ---- converter and lookup agree ----

  predicate Sounds(z: Zone, slot: nat, key: int, vel: int) {
    z.slot == slot && InRange(key, z.keyRange) && InRange(vel, z.velRange)
  }

  /** The plain search: the zones of a list that sound for a note. */
  function Search(zs: seq<Zone>, slot: nat, key: int, vel: int): (r: seq<Zone>)
    ensures forall z <- r :: z in zs && Sounds(z, slot, key, vel)
  {
    if zs == [] then []
    else
      Search(zs[..|zs| - 1], slot, key, vel)
      + if Sounds(zs[|zs| - 1], slot, key, vel) then [zs[|zs| - 1]] else []
  }

  lemma {:induction false} SearchStep(zs: seq<Zone>, i: nat, slot: nat, key: int, vel: int)
    requires i < |zs|
    ensures Search(zs[..i + 1], slot, key, vel) ==
            Search(zs[..i], slot, key, vel) + if Sounds(zs[i], slot, key, vel) then [zs[i]] else []
  {
    assert zs[..i + 1][..i] == zs[..i];
  }

  /** The order of the list does not matter: how often a zone is found is how often it stands there. */
  lemma {:induction false} SearchCounts(zs: seq<Zone>, slot: nat, key: int, vel: int, z: Zone)
    ensures multiset(Search(zs, slot, key, vel))[z] == if Sounds(z, slot, key, vel) then multiset(zs)[z] else 0
  {
    hide Sounds;
    if zs != [] {
      var front := zs[..|zs| - 1];
      assert zs == front + [zs[|zs| - 1]];
      SearchCounts(front, slot, key, vel, z);
    }
  }

  lemma {:induction false} SearchPermuted(zs: seq<Zone>, ws: seq<Zone>, slot: nat, key: int, vel: int)
    requires multiset(zs) == multiset(ws)
    ensures multiset(Search(zs, slot, key, vel)) == multiset(Search(ws, slot, key, vel))
  {
    hide Search;
    forall z: Zone
      ensures multiset(Search(zs, slot, key, vel))[z] == multiset(Search(ws, slot, key, vel))[z]
    {
      SearchCounts(zs, slot, key, vel, z);
      SearchCounts(ws, slot, key, vel, z);
    }
  }

  function WrittenList(s: Source, samples: seq<Sample>, zs: seq<Zone>): (r: seq<OutZone>)
    requires IsSource(s) && IsTable(s, samples) && forall z <- zs :: z in s.zones
    ensures |r| == |zs| && forall i :: 0 <= i < |zs| ==> r[i] == WrittenAs(s, samples, zs[i])
  {
    seq(|zs|, i requires 0 <= i < |zs| => WrittenAs(s, samples, zs[i]))
  }

  /** What the lookup goes by is what the converter wrote down. */
  lemma WrittenMatches(s: Source, samples: seq<Sample>, z: Zone, slot: nat, key: int, vel: int)
    requires IsSource(s) && IsTable(s, samples) && z in s.zones
    ensures Sounds(z, slot, key, vel) <==> z.slot == slot && Matches(WrittenAs(s, samples, z), key, vel)
  {
    hide Lo, Hi, Clamped, LoopPoints, Extent;
  }

  /** The preset's stretch of the file, as far as zone i. */
  function Stretch(zones: seq<OutZone>, p: Preset, i: nat): seq<OutZone>
    requires i <= |zones|
  {
    var hi := Min(i, p.start + p.count);
    if hi <= p.start then [] else zones[p.start..hi]
  }

  lemma StretchStep(zones: seq<OutZone>, p: Preset, i: nat)
    requires i < |zones|
    ensures Stretch(zones, p, i + 1) ==
            Stretch(zones, p, i) + if p.start <= i < p.start + p.count then [zones[i]] else []
  {
  }

  lemma {:induction false} FilterSnoc(ws: seq<OutZone>, w: OutZone, key: int, vel: int)
    ensures Filter(ws + [w], key, vel) == Filter(ws, key, vel) + if Matches(w, key, vel) then [w] else []
    ensures Filter([], key, vel) == [] && ws + [] == ws
  {
    assert (ws + [w])[..|ws|] == ws;
  }

  lemma WrittenSnoc(s: Source, samples: seq<Sample>, zs: seq<Zone>, z: Zone)
    requires IsSource(s) && IsTable(s, samples) && (forall y <- zs :: y in s.zones) && z in s.zones
    ensures WrittenList(s, samples, zs + [z]) == WrittenList(s, samples, zs) + [WrittenAs(s, samples, z)]
    ensures WrittenList(s, samples, []) == [] && zs + [] == zs
  {
    hide IsSource, IsTable, WrittenAs;
  }

  /** Up to zone i, the lookup's filter over the preset's stretch is the search over the whole list. */
  lemma {:induction false} SearchIsStretch(s: Source, samples: seq<Sample>, b: Bank, slot: nat, key: int, vel: int, i: nat)
    requires IsSource(s) && Written(s, samples, b) && slot < PRESETS && i <= |s.zones|
    ensures Filter(Stretch(b.zones, b.presets[slot], i), key, vel) ==
            WrittenList(s, samples, Search(s.zones[..i], slot, key, vel))
    decreases i
  {
    hide Sorted, Sounds, Matches, WrittenAs, Search, IsTable, Filter, WrittenList;
    var p, zs := b.presets[slot], s.zones;
    assert Describes(p, zs, slot);
    if i == 0 {
      SearchNone(slot, key, vel);
      assert zs[..0] == [];
      FilterNone(key, vel);
      EmptyWritten(s, samples);
    } else {
      var z, before := zs[i - 1], Search(zs[..i - 1], slot, key, vel);
      assert z in zs && forall y <- before :: y in zs;
      SearchIsStretch(s, samples, b, slot, key, vel, i - 1);
      SearchStep(zs, i - 1, slot, key, vel);
      WrittenMatches(s, samples, z, slot, key, vel);
      StretchStep(b.zones, p, i - 1);
      FilterSnoc(Stretch(b.zones, p, i - 1), b.zones[i - 1], key, vel);
      WrittenSnoc(s, samples, before, z);
      assert b.zones[i - 1] == WrittenZone(s, samples, i - 1);
    }
  }

  lemma EmptyWritten(s: Source, samples: seq<Sample>)
    requires IsSource(s) && IsTable(s, samples)
    ensures WrittenList(s, samples, []) == []
  {
  }

  lemma {:induction false} SearchNone(slot: nat, key: int, vel: int)
    ensures Search([], slot, key, vel) == []
  {
  }

  /** With room enough the lookup returns exactly the zones of the slot whose key and velocity ranges
      hold the note, in file order; and, since the sort only permutes, exactly as often as they stand
      in the list that was converted. */
  lemma LookupIsSearch(s: Source, samples: seq<Sample>, b: Bank, unsorted: seq<Zone>,
                       bank: int, program: nat, key: int, vel: int)
    requires IsSource(s) && Written(s, samples, b) && program <= 127 && multiset(unsorted) == multiset(s.zones)
    ensures var slot := if bank == DRUM_BANK then 128 + program else program;
            Found(b, bank, program, key, vel) == WrittenList(s, samples, Search(s.zones, slot, key, vel)) &&
            multiset(Search(s.zones, slot, key, vel)) == multiset(Search(unsorted, slot, key, vel))
  {
    hide Sorted, Search, WrittenAs, IsTable, Filter;
    var slot := if bank == DRUM_BANK then 128 + program else program;
    SearchIsStretch(s, samples, b, slot, key, vel, |s.zones|);
    assert s.zones[..|s.zones|] == s.zones;
    SearchPermuted(s.zones, unsorted, slot, key, vel);
    var p := b.presets[slot];
    assert Describes(p, s.zones, slot);
    assert ZonesOf(b, p) == Stretch(b.zones, p, |s.zones|);
  }
}

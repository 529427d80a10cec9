/** What a written zone plays: its ranges, its loop mode and the frames of sample data that its extent and its
    loop hold in the file, told by the sample header and the generators alone. */
module Sf2Frames {
  import opened LittleEndian
  import opened SmpBank
  import opened Sf2Convert

  /** x, brought between lo and hi. */
  function Between(lo: int, x: int, hi: int): (r: int)
    ensures lo <= hi ==> lo <= r <= hi && (lo <= x <= hi ==> r == x)
  {
    if x < lo then lo else if x > hi then hi else x
  }

  /** An address of the header, moved by the generators; addresses are 32-bit. */
  function Named(base: Word, a: Addr): Word { (base + a.fine + 32768 * a.coarse) % TURN }

  // ---- the frames a zone names ----

  /** First frame, end, first frame of the loop and end of the loop.  Where the header and the generators
      name frames that are not there, the nearest ones; there is always at least one frame. */
  datatype Frames = Frames(first: int, end: int, loop: int, loopEnd: int)

  function Asked(z: Zone, sh: Shdr, total: Word): (f: Frames)
    requires total > 0
    ensures 0 <= f.first <= f.loop < f.loopEnd <= f.end <= total
  {
    var first := Between(0, Named(sh.start, z.start), total - 1);
    var end := Between(first + 1, Named(sh.end, z.end), total);
    var loop := Between(first, Named(sh.loopStart, z.loopStart), end - 1);
    Frames(first, end, loop, Between(loop + 1, Named(sh.loopEnd, z.loopEnd), end))
  }

  /** What asks for frames that are there gets just those. */
  lemma AskedIsNamed(z: Zone, sh: Shdr, total: Word)
    requires total > 0
    requires var a, b, c, d := sh.start + z.start.fine + 32768 * z.start.coarse, sh.end + z.end.fine + 32768 * z.end.coarse,
                               sh.loopStart + z.loopStart.fine + 32768 * z.loopStart.coarse,
                               sh.loopEnd + z.loopEnd.fine + 32768 * z.loopEnd.coarse;
             0 <= a <= c < d <= b <= total
    ensures var f := Asked(z, sh, total);
            f.first == sh.start + z.start.fine + 32768 * z.start.coarse &&
            f.end == sh.end + z.end.fine + 32768 * z.end.coarse &&
            f.loop == sh.loopStart + z.loopStart.fine + 32768 * z.loopStart.coarse &&
            f.loopEnd == sh.loopEnd + z.loopEnd.fine + 32768 * z.loopEnd.coarse
  {
    hide Between;
    Unwrapped(sh.start + z.start.fine + 32768 * z.start.coarse);
    Unwrapped(sh.end + z.end.fine + 32768 * z.end.coarse);
    Unwrapped(sh.loopStart + z.loopStart.fine + 32768 * z.loopStart.coarse);
    Unwrapped(sh.loopEnd + z.loopEnd.fine + 32768 * z.loopEnd.coarse);
  }

  lemma Unwrapped(x: int)
    requires 0 <= x < TURN
    ensures x % TURN == x
  {
  }

  lemma NamedIsOffset(base: Word, a: Addr)
    ensures Named(base, a) == U32(base + Offset(a))
  {
    assert base + a.fine + 32768 * a.coarse == base + Offset(a);
  }

  lemma ClampedIsAsked(z: Zone, sh: Shdr, total: Word)
    requires total > 0
    ensures var c, f := Clamped(z, sh, total), Asked(z, sh, total);
            c.start == f.first && c.start + c.length == f.end
  {
    hide Offset, U32, Named;
    NamedIsOffset(sh.start, z.start);
    NamedIsOffset(sh.end, z.end);
  }

  lemma LoopIsAsked(z: Zone, sh: Shdr, total: Word)
    requires total > 0
    ensures var c, f := Clamped(z, sh, total), Asked(z, sh, total);
            c.length > 0 && c.start + LoopPoints(z, sh, c).0 == f.loop && c.start + LoopPoints(z, sh, c).1 == f.loopEnd
  {
    hide Offset, Named, Clamped;
    ClampedIsAsked(z, sh, total);
    LoopPointsInside(z, sh, Clamped(z, sh, total));
    NamedIsOffset(sh.loopStart, z.loopStart);
    NamedIsOffset(sh.loopEnd, z.loopEnd);
  }

  // ---- what is written of a zone ----

  /** Ranges, loop mode and lengths of every zone of the bank: it loops if and only if the low two bits of its
      sample modes are 1 or 3, and its loop stands in the sample as the named loop stands in the named frames. */
  lemma ZoneSays(s: Source, samples: seq<Sample>, b: Bank, i: nat)
    requires IsSource(s) && Written(s, samples, b) && i < |s.zones|
    ensures var z, o := s.zones[i], b.zones[i];
            z.keyRange == o.keyLo + 256 * o.keyHi && z.velRange == o.velLo + 256 * o.velHi
    ensures b.zones[i].loopMode == LOOP_FORWARD <==> s.zones[i].modes % 4 in {1, 3}
    ensures b.zones[i].loopMode == LOOP_NONE <==> s.zones[i].modes % 4 in {0, 2}
    ensures var z, o := s.zones[i], b.zones[i];
            var f := Asked(z, s.shdrs[z.shdr], s.total);
            o.length == f.end - f.first && o.loopStart == f.loop - f.first && o.loopEnd == f.loopEnd - f.first
  {
    hide Sorted, Clamped, LoopPoints, Asked, Extent, IsTable, Lo, Hi;
    var z := s.zones[i];
    RangeSays(z.keyRange);
    RangeSays(z.velRange);
    ModeSays(z.modes);
    assert z in s.zones;
    ClampedIsAsked(z, s.shdrs[z.shdr], s.total);
    LoopIsAsked(z, s.shdrs[z.shdr], s.total);
    assert b.zones[i] == WrittenZone(s, samples, i);
  }

  lemma RangeSays(r: Half)
    ensures r == Lo(r) + 256 * Hi(r)
  {
  }

  lemma ModeSays(modes: short)
    ensures LoopMode(modes) == LOOP_FORWARD <==> modes % 4 in {1, 3}
    ensures LoopMode(modes) == LOOP_NONE <==> modes % 4 in {0, 2}
  {
    assert modes % 4 in {0, 1, 2, 3};
    var q := modes / 4;
    assert modes == 4 * q + modes % 4;
    DivModUniqueInt(modes, q);
  }

  lemma DivModUniqueInt(x: int, q: int)
    requires x == 4 * q + x % 4
    ensures x % 2 == x % 4 % 2
  {
  }

  // ---- the sample data ----

  /** Each sample's frames stand at its offset; a frame takes two bytes of the file. */
  predicate Holds(blob: seq<short>, samples: seq<Sample>, data: seq<short>) {
    2 * |blob| == Extent(samples) && forall k :: 0 <= k < |samples| ==> HoldsAt(blob, samples, data, k)
  }

  predicate HoldsAt(blob: seq<short>, samples: seq<Sample>, data: seq<short>, k: nat)
    requires k < |samples|
  {
    var at, x := Extent(samples[..k]) / 2, samples[k];
    at + x.length <= |blob| && x.start + x.length <= |data| &&
    blob[at..at + x.length] == data[x.start..x.start + x.length]
  }

  /** The last loop of phase 5. */
  method WriteSamples(s: Source, samples: seq<Sample>, data: seq<short>) returns (blob: seq<short>)
    requires IsSource(s) && IsTable(s, samples) && |data| == s.total
    ensures Holds(blob, samples, data)
  {
    hide Sorted, IsTable, Extent, Align4;
    blob := [];
    ExtentStep(samples, 0);
    for i := 0 to |samples|
      invariant 2 * |blob| == Extent(samples[..i])
      invariant forall k :: 0 <= k < i ==> HoldsAt(blob, samples, data, k)
    {
      NothingOverruns(s, samples, i);
      var start, length := samples[i].start, samples[i].length;
      if start + length > s.total {
        length := if start >= s.total then 0 else s.total - start;
      }
      var frames := data[start..start + length];
      var written := length * 2;
      var pad := Align4(written) - written;
      PadIsWhole(length);
      var zeros: seq<short> := seq(pad / 2, _ => 0);
      ExtentStep(samples, i);
      HeldStays(blob, frames + zeros, samples, data, i);
      Appended(blob, frames, zeros);
      blob := blob + (frames + zeros);
    }
    assert samples[..|samples|] == samples;
  }

  lemma PadIsWhole(length: nat)
    ensures 0 <= Align4(length * 2) - length * 2 && (Align4(length * 2) - length * 2) % 2 == 0
  {
    AlignFacts(length * 2, 0);
  }

  lemma ExtentStep(samples: seq<Sample>, i: nat)
    ensures Extent(samples[..0]) == 0
    ensures i < |samples| ==> Extent(samples[..i + 1]) == Extent(samples[..i]) + Align4(samples[i].length * 2)
  {
    if i < |samples| {
      assert samples[..i + 1][..i] == samples[..i];
    }
  }

  lemma HeldStays(blob: seq<short>, more: seq<short>, samples: seq<Sample>, data: seq<short>, n: nat)
    requires n <= |samples| && forall k :: 0 <= k < n ==> HoldsAt(blob, samples, data, k)
    ensures forall k :: 0 <= k < n ==> HoldsAt(blob + more, samples, data, k)
  {
    hide Extent;
    forall k | 0 <= k < n
      ensures HoldsAt(blob + more, samples, data, k)
    {
      assert HoldsAt(blob, samples, data, k);
      var at, x := Extent(samples[..k]) / 2, samples[k];
      assert (blob + more)[at..at + x.length] == blob[at..at + x.length];
    }
  }

  lemma Appended(blob: seq<short>, frames: seq<short>, zeros: seq<short>)
    ensures (blob + (frames + zeros))[|blob|..|blob| + |frames|] == frames
  {
  }

  lemma ZoneCount(s: Source, samples: seq<Sample>, b: Bank)
    requires IsSource(s) && Written(s, samples, b)
    ensures |b.zones| == |s.zones| && forall z <- s.zones :: z.shdr < |s.shdrs|
  {
    hide Sorted, IsTable, WrittenZone, Describes;
  }

  lemma {:induction false} PlacedAt(s: Source, samples: seq<Sample>, b: Bank, i: nat)
    requires IsSource(s) && Written(s, samples, b) && i < |s.zones| && Extent(samples) < TURN
    ensures b.zones[i].offset % 2 == 0 && b.dataSize == Extent(samples)
    ensures exists k :: 0 <= k < |samples| && samples[k] == SampleOf(s, i) && b.zones[i].offset == Extent(samples[..k])
  {
    hide Sorted, Clamped, Extent, WrittenZone, Distinct, SampleOf, AllUsed;
    ZoneExtent(s, samples, b, i);
    var k := SampleIndex(samples, SampleOf(s, i));
    ExtentAligned(samples[..k]);
    ExtentGrows(samples, k, |samples|);
    assert samples[..|samples|] == samples;
    ExtentNumbers(Extent(samples[..k]), 0, Extent(samples));
    assert samples[k] == SampleOf(s, i) && b.zones[i].offset == Extent(samples[..k]);
  }

  /** A part of a part. */
  lemma Inner(blob: seq<short>, at: nat, data: seq<short>, f: Frames, o: OutZone)
    requires 0 <= f.first <= f.loop <= f.loopEnd <= f.end <= |data| && at + (f.end - f.first) <= |blob|
    requires blob[at..at + (f.end - f.first)] == data[f.first..f.end]
    requires o.length == f.end - f.first && o.loopStart == f.loop - f.first && o.loopEnd == f.loopEnd - f.first
    ensures blob[at..at + o.length] == data[f.first..f.end]
    ensures blob[at + o.loopStart..at + o.loopEnd] == data[f.loop..f.loopEnd]
  {
    var whole, part, named := blob[at..at + (f.end - f.first)], blob[at + o.loopStart..at + o.loopEnd], data[f.loop..f.loopEnd];
    forall k | 0 <= k < |part|
      ensures part[k] == named[k]
    {
      assert whole[o.loopStart + k] == data[f.first..f.end][o.loopStart + k];
    }
  }

  lemma {:induction false} SampleHeld(s: Source, samples: seq<Sample>, b: Bank, data: seq<short>, blob: seq<short>, i: nat)
    requires IsSource(s) && Written(s, samples, b) && i < |s.zones| && Extent(samples) < TURN
    requires |data| == s.total && Holds(blob, samples, data)
    ensures var z, o := s.zones[i], b.zones[i];
            var f, at := Asked(z, s.shdrs[z.shdr], s.total), o.offset / 2;
            o.offset == 2 * at && b.dataSize == 2 * |blob| && at + (f.end - f.first) <= |blob| &&
            blob[at..at + (f.end - f.first)] == data[f.first..f.end]
  {
    hide Sorted, Clamped, Asked, Extent, IsTable, Written, Distinct;
    ZoneCount(s, samples, b);
    PlacedAt(s, samples, b, i);
    var z := s.zones[i];
    assert z in s.zones;
    ClampedIsAsked(z, s.shdrs[z.shdr], s.total);
    var k :| 0 <= k < |samples| && samples[k] == SampleOf(s, i) && b.zones[i].offset == Extent(samples[..k]);
    assert HoldsAt(blob, samples, data, k);
  }

  /** What a zone plays out of the file, and what it loops over, is what was asked for.  Without the bound
      the layout wraps and the validator refuses the bank. */
  lemma {:induction false} ZonePlays(s: Source, samples: seq<Sample>, b: Bank, data: seq<short>, blob: seq<short>, i: nat)
    requires IsSource(s) && Written(s, samples, b) && i < |s.zones| && Extent(samples) < TURN
    requires |data| == s.total && Holds(blob, samples, data)
    ensures var z, o := s.zones[i], b.zones[i];
            var f, at := Asked(z, s.shdrs[z.shdr], s.total), o.offset / 2;
            o.offset == 2 * at && b.dataSize == 2 * |blob| && at + o.length <= |blob| && o.loopStart < o.loopEnd <= o.length &&
            blob[at..at + o.length] == data[f.first..f.end] &&
            blob[at + o.loopStart..at + o.loopEnd] == data[f.loop..f.loopEnd]
  {
    hide Sorted, Asked, IsTable, WrittenZone, Holds, Written, Extent, IsSource;
    ZoneCount(s, samples, b);
    ZoneSays(s, samples, b, i);
    SampleHeld(s, samples, b, data, blob, i);
    var f, o := Asked(s.zones[i], s.shdrs[s.zones[i].shdr], s.total), b.zones[i];
    Inner(blob, o.offset / 2, data, f, o);
  }
}

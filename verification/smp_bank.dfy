/** The sample bank: what the converter writes, what the validator accepts and what the lookup finds.
    The bank is a view of the file: the header's fields, the preset index and the zones. */
module SmpBank {
  import opened LittleEndian

  const TURN := 0x1_0000_0000
  const MAGIC := 0x4F46_5346
  const VERSION := 3
  const PRESETS := 256
  const HEADER_BYTES := 96
  const PRESET_BYTES := 4
  const ZONE_BYTES := 112
  const PREFIX := HEADER_BYTES + PRESETS * PRESET_BYTES
  const MAX_LENGTH := 0x3F_FFFF
  const LOOP_NONE := 0
  const LOOP_FORWARD := 1
  const LOOP_BIDI := 3
  const DRUM_BANK := 128
  const DEFAULT_RATE := 44100

  type Word = x: int | 0 <= x < 0x1_0000_0000
  type Half = x: int | 0 <= x < 0x1_0000

  function U32(x: int): Word { x % TURN }

  function U16(x: int): Half { x % 0x1_0000 }

  // ---- the written bank ----

  datatype Preset = Preset(start: Half, count: Half)

  datatype OutZone = OutZone(keyLo: byte, keyHi: byte, velLo: byte, velHi: byte, offset: Word, length: Word,
                             loopStart: Word, loopEnd: Word, loopMode: nat)

  datatype Bank = Bank(magic: Word, version: Word, rate: Word, zoneCount: Word, dataOffset: Word, dataSize: Word,
                       presets: seq<Preset>, zones: seq<OutZone>)

  /** A file of that many bytes shows 256 presets and every zone that its header may claim. */
  predicate IsView(b: Bank, size: Word) {
    |b.presets| == PRESETS &&
    (size >= PREFIX && b.zoneCount <= (size - PREFIX) / ZONE_BYTES ==> b.zoneCount <= |b.zones|)
  }

  // ---- the validator ----

  predicate ZoneOk(z: OutZone, dataSize: Word) {
    z.offset % 2 == 0 && z.offset <= dataSize && z.length <= (dataSize - z.offset) / 2 && z.length <= MAX_LENGTH &&
    (z.loopMode == LOOP_FORWARD || z.loopMode == LOOP_BIDI ==> z.loopStart < z.loopEnd <= z.length)
  }

  predicate PresetOk(p: Preset, zoneCount: Word) {
    p.count > 0 ==> p.start + p.count <= zoneCount
  }

  predicate HeaderOk(b: Bank, size: Word) {
    size >= PREFIX && b.magic == MAGIC && b.version == VERSION && b.rate > 0 && b.zoneCount > 0 &&
    PREFIX + b.zoneCount * ZONE_BYTES <= b.dataOffset && b.dataOffset + b.dataSize <= size &&
    b.dataOffset % 2 == 0 && b.dataSize % 2 == 0
  }

  /** Everything a preset or a zone points at lies inside the file. */
  predicate BankOk(b: Bank, size: Word)
    requires IsView(b, size)
  {
    HeaderOk(b, size) && b.zoneCount <= |b.zones| &&
    (forall i :: 0 <= i < PRESETS ==> PresetOk(b.presets[i], b.zoneCount)) &&
    (forall i :: 0 <= i < b.zoneCount ==> ZoneOk(b.zones[i], b.dataSize))
  }

  /** of_smp_bank_valid */
  method Validate(b: Bank, size: Word) returns (ok: bool)
    requires IsView(b, size)
    ensures ok == BankOk(b, size)
  {
    if size < PREFIX {
      return false;
    }
    if b.magic != MAGIC || b.version != VERSION || b.rate == 0 || b.zoneCount == 0
       || b.zoneCount > (size - PREFIX) / ZONE_BYTES
    {
      return false;
    }
    var metadataEnd := PREFIX + b.zoneCount * ZONE_BYTES;
    if b.dataOffset < metadataEnd || b.dataOffset > size || b.dataSize > size - b.dataOffset
       || b.dataOffset % 2 == 1 || b.dataSize % 2 == 1
    {
      return false;
    }
    for i := 0 to PRESETS
      invariant forall j :: 0 <= j < i ==> PresetOk(b.presets[j], b.zoneCount)
    {
      var p := b.presets[i];
      if p.count > 0 && (p.start > b.zoneCount || p.count > b.zoneCount - p.start) {
        assert !PresetOk(p, b.zoneCount);
        return false;
      }
    }
    for i := 0 to b.zoneCount
      invariant forall j :: 0 <= j < i ==> ZoneOk(b.zones[j], b.dataSize)
    {
      var z := b.zones[i];
      if z.offset % 2 == 1 || z.offset > b.dataSize || z.length > (b.dataSize - z.offset) / 2
         || z.length > MAX_LENGTH
      {
        assert !ZoneOk(z, b.dataSize);
        return false;
      }
      if (z.loopMode == LOOP_FORWARD || z.loopMode == LOOP_BIDI)
         && (z.loopStart >= z.loopEnd || z.loopEnd > z.length)
      {
        assert !ZoneOk(z, b.dataSize);
        return false;
      }
    }
    return true;
  }

  /** What the validator is for: every sample and every loop it lets through lies inside the file. */
  lemma ValidStaysInside(b: Bank, size: Word, i: nat)
    requires IsView(b, size) && BankOk(b, size) && i < b.zoneCount
    ensures var z := b.zones[i];
            PREFIX + b.zoneCount * ZONE_BYTES <= b.dataOffset + z.offset &&
            b.dataOffset + z.offset + 2 * z.length <= size &&
            (z.loopMode == LOOP_FORWARD || z.loopMode == LOOP_BIDI ==> b.dataOffset + z.offset + 2 * z.loopEnd <= size)
  {
    assert ZoneOk(b.zones[i], b.dataSize);
  }

  // ---- the lookup ----

  predicate Matches(z: OutZone, key: int, vel: int) {
    z.keyLo <= key <= z.keyHi && z.velLo <= vel <= z.velHi
  }

  function Filter(zs: seq<OutZone>, key: int, vel: int): (r: seq<OutZone>)
    ensures |r| <= |zs|
  {
    if zs == [] then []
    else
      Filter(zs[..|zs| - 1], key, vel)
      + if Matches(zs[|zs| - 1], key, vel) then [zs[|zs| - 1]] else []
  }

  function Min(a: nat, b: nat): nat { if a < b then a else b }

  /** The zones a preset points at. */
  function ZonesOf(b: Bank, p: Preset): seq<OutZone>
    requires b.zoneCount <= |b.zones|
  {
    b.zones[Min(p.start, b.zoneCount)..Min(p.start + p.count, b.zoneCount)]
  }

  /** The zones of one preset that match, in the order of the file. */
  function Found(b: Bank, bank: int, program: int, key: int, vel: int): seq<OutZone>
    requires |b.presets| == PRESETS && b.zoneCount <= |b.zones|
  {
    if program < 0 || program > 127 then []
    else Filter(ZonesOf(b, b.presets[if bank == DRUM_BANK then 128 + program else program]), key, vel)
  }

  datatype Loaded = Unbound | Bound(bank: Bank)

  /** of_smp_zone_lookup: the first matches, as many as there is room for; none while no bank is bound. */
  method Lookup(loaded: Loaded, bank: int, program: int, key: int, vel: int, out: array<OutZone>, maxZones: nat)
      returns (found: nat)
    requires maxZones <= out.Length
    requires loaded.Bound? ==> |loaded.bank.presets| == PRESETS && loaded.bank.zoneCount <= |loaded.bank.zones|
    modifies out
    ensures loaded.Unbound? ==> found == 0
    ensures loaded.Bound? ==>
              var all := Found(loaded.bank, bank, program, key, vel);
              found == Min(|all|, maxZones) && out[..found] == all[..found]
  {
    hide Filter;
    if loaded.Unbound? || program < 0 || program > 127 {
      return 0;
    }
    var idx := if bank == DRUM_BANK then 128 + program else program;
    var pr := loaded.bank.presets[idx];
    if pr.count == 0 {
      FilterNone(key, vel);
      return 0;
    }
    found := Scan(loaded.bank, pr, key, vel, out, maxZones);
  }

  /** The loop of the lookup. */
  method Scan(b: Bank, pr: Preset, key: int, vel: int, out: array<OutZone>, maxZones: nat) returns (found: nat)
    requires b.zoneCount <= |b.zones| && maxZones <= out.Length
    modifies out
    ensures found == Min(|Filter(ZonesOf(b, pr), key, vel)|, maxZones)
    ensures out[..found] == Filter(ZonesOf(b, pr), key, vel)[..found]
  {
    hide Filter;
    FilterNone(key, vel);
    ghost var all := ZonesOf(b, pr);
    found := 0;
    var i := 0;
    while i < pr.count && found < maxZones
      invariant 0 <= i <= pr.count && found <= maxZones && i <= |all| && out[..found] == Filter(all[..i], key, vel)
    {
      var zi := pr.start + i;
      if zi >= b.zoneCount {
        break;
      }
      var z := b.zones[zi];
      assert i < |all| && all[i] == z;
      FilterStep(all, i, key, vel);
      if z.keyLo <= key <= z.keyHi && z.velLo <= vel <= z.velHi {
        ghost var before := out[..found];
        out[found] := z;
        found := found + 1;
        assert out[..found] == before + [z];
      }
      i := i + 1;
    }
    FilterPrefix(all, i, key, vel);
    assert found < maxZones ==> i == |all|;
    assert all[..|all|] == all;
  }

  lemma {:induction false} FilterNone(key: int, vel: int)
    ensures Filter([], key, vel) == []
    ensures forall zs: seq<OutZone> :: Filter(zs[..0], key, vel) == []
  {
  }

  lemma {:induction false} FilterStep(zs: seq<OutZone>, i: nat, key: int, vel: int)
    requires i < |zs|
    ensures Filter(zs[..i + 1], key, vel) ==
            Filter(zs[..i], key, vel) + if Matches(zs[i], key, vel) then [zs[i]] else []
  {
    assert zs[..i + 1][..i] == zs[..i];
  }

  lemma {:induction false} FilterPrefix(zs: seq<OutZone>, i: nat, key: int, vel: int)
    requires i <= |zs|
    ensures Filter(zs[..i], key, vel) <= Filter(zs, key, vel)
  {
    if i < |zs| {
      FilterPrefix(zs[..|zs| - 1], i, key, vel);
      assert zs[..|zs| - 1][..i] == zs[..i];
    } else {
      assert zs[..i] == zs;
    }
  }
}

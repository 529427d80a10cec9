/** The header of a Standard MIDI File and the walk over its chunks. */
module SmfHeader {
  import opened LittleEndian

  const MAX_TRACKS := 32
  const MTHD: seq<byte> := [0x4D, 0x54, 0x68, 0x64]
  const MTRK: seq<byte> := [0x4D, 0x54, 0x72, 0x6B]

  datatype Header = Header(format: nat, division: nat, bodies: seq<seq<byte>>)
  datatype Parsed = Ok(header: Header) | BadHeader | BadFormat | NoTracks

  function Be16(d: seq<byte>, i: nat): (v: nat)
    requires i + 2 <= |d|
    ensures v < 0x1_0000
  {
    d[i] as nat * 256 + d[i + 1] as nat
  }

  function Be32(d: seq<byte>, i: nat): (v: nat)
    requires i + 4 <= |d|
    ensures v < 0x1_0000_0000
  {
    d[i] as nat * 0x100_0000 + d[i + 1] as nat * 0x1_0000 + d[i + 2] as nat * 256 + d[i + 3] as nat
  }

  /** The bodies of the first track chunks from an offset on, at most so many; none if a chunk runs
      over the end first. */
  datatype Walked = Bodies(bodies: seq<seq<byte>>) | Overrun

  function Walk(d: seq<byte>, offset: nat, want: nat): Walked
    requires offset <= |d|
    decreases |d| - offset
  {
    if want == 0 || |d| - offset < 8 then Bodies([])
    else
      var size := Be32(d, offset + 4);
      if size > |d| - offset - 8 then Overrun
      else
        var isTrack := d[offset..offset + 4] == MTRK;
        var rest := Walk(d, offset + 8 + size, if isTrack then want - 1 else want);
        if rest.Overrun? || !isTrack then rest
        else Bodies([d[offset + 8..offset + 8 + size]] + rest.bodies)
  }

  function Joined(front: seq<seq<byte>>, rest: Walked): Walked {
    if rest.Overrun? then rest else Bodies(front + rest.bodies)
  }

  lemma JoinedTwice(a: seq<seq<byte>>, b: seq<seq<byte>>, rest: Walked)
    ensures Joined(a, Joined(b, rest)) == Joined(a + b, rest)
    ensures Joined([], rest) == rest
  {
    if rest.Bodies? {
      assert a + (b + rest.bodies) == a + b + rest.bodies;
      assert [] + rest.bodies == rest.bodies;
    }
  }

  /** Track count: 0 is refused, more than 32 are cut to 32. */
  function Wanted(d: seq<byte>): nat
    requires |d| >= 14
  {
    if Be16(d, 10) > MAX_TRACKS then MAX_TRACKS else Be16(d, 10)
  }

  /** parse_header, as a whole. */
  function Parse(d: seq<byte>): Parsed {
    if |d| < 14 || d[..4] != MTHD || Be32(d, 4) < 6 || Be32(d, 4) > |d| - 8 then BadHeader
    else if Be16(d, 8) > 1 then BadFormat
    else if Be16(d, 10) == 0 then NoTracks
    else if Be16(d, 12) == 0 then BadHeader
    else
      match Walk(d, 8 + Be32(d, 4), Wanted(d))
      case Overrun => BadHeader
      case Bodies(bodies) =>
        if bodies == [] then NoTracks
        else if |bodies| != Wanted(d) then BadHeader
        else Ok(Header(Be16(d, 8), Be16(d, 12), bodies))
  }

  lemma WalkStep(d: seq<byte>, offset: nat, want: nat)
    requires offset <= |d|
    ensures want == 0 || |d| - offset < 8 ==> Walk(d, offset, want) == Bodies([])
    ensures want > 0 && |d| - offset >= 8 ==>
              var size := Be32(d, offset + 4);
              Walk(d, offset, want) ==
              if size > |d| - offset - 8 then Overrun
              else if d[offset..offset + 4] == MTRK then
                Joined([d[offset + 8..offset + 8 + size]], Walk(d, offset + 8 + size, want - 1))
              else Walk(d, offset + 8 + size, want)
  {
    hide Be32;
  }

  lemma TagAt(d: seq<byte>, offset: nat, tag: seq<byte>)
    requires offset + 4 <= |d| && |tag| == 4
    ensures d[offset..offset + 4] == tag <==>
            d[offset] == tag[0] && d[offset + 1] == tag[1] && d[offset + 2] == tag[2] && d[offset + 3] == tag[3]
  {
    var w := d[offset..offset + 4];
    assert d[offset] == w[0] && d[offset + 1] == w[1] && d[offset + 2] == w[2] && d[offset + 3] == w[3];
  }

  method ParseHeader(d: seq<byte>) returns (r: Parsed)
    ensures r == Parse(d)
  {
    hide Be16, Be32, Walk, Joined;
    if |d| < 14 {
      return BadHeader;
    }
    TagAt(d, 0, MTHD);
    assert d[0..4] == d[..4];
    if d[0] != 0x4D || d[1] != 0x54 || d[2] != 0x68 || d[3] != 0x64 {
      return BadHeader;
    }
    var headerSize := Be32(d, 4);
    if headerSize < 6 || headerSize > |d| - 8 {
      return BadHeader;
    }
    var format, numTracks, division := Be16(d, 8), Be16(d, 10), Be16(d, 12);
    if format > 1 {
      return BadFormat;
    }
    if numTracks == 0 {
      return NoTracks;
    }
    if division == 0 {
      return BadHeader;
    }
    if numTracks > MAX_TRACKS {
      numTracks := MAX_TRACKS;
    }
    var walked := FindTracks(d, 8 + headerSize, numTracks);
    if walked.Overrun? {
      return BadHeader;
    }
    if walked.bodies == [] {
      return NoTracks;
    }
    if |walked.bodies| != numTracks {
      return BadHeader;
    }
    return Ok(Header(format, division, walked.bodies));
  }

  /** The chunk loop of parse_header. */
  method FindTracks(d: seq<byte>, start: nat, want: nat) returns (r: Walked)
    requires start <= |d|
    ensures r == Walk(d, start, want)
  {
    hide Be32, Walk, Joined;
    var offset := start;
    var found: seq<seq<byte>> := [];
    JoinedTwice([], [], Walk(d, offset, want));
    while |found| < want && |d| - offset >= 8
      invariant offset <= |d| && |found| <= want
      invariant Walk(d, start, want) == Joined(found, Walk(d, offset, want - |found|))
      decreases |d| - offset
    {
      WalkStep(d, offset, want - |found|);
      TagAt(d, offset, MTRK);
      var size := Be32(d, offset + 4);
      if size > |d| - offset - 8 {
        JoinedOverrun(found);
        return Overrun;
      }
      var next := offset + 8 + size;
      if d[offset] == 0x4D && d[offset + 1] == 0x54 && d[offset + 2] == 0x72 && d[offset + 3] == 0x6B {
        var body := d[offset + 8..next];
        JoinedTwice(found, [body], Walk(d, next, want - |found| - 1));
        found := found + [body];
      }
      offset := next;
    }
    WalkStep(d, offset, want - |found|);
    JoinedOverrun(found);
    r := Bodies(found);
  }

  lemma JoinedOverrun(front: seq<seq<byte>>)
    ensures Joined(front, Overrun) == Overrun && Joined(front, Bodies([])) == Bodies(front)
  {
    assert front + [] == front;
  }

  // ---- what the format says a file is ----

  datatype Chunk = Chunk(tag: seq<byte>, body: seq<byte>)

  function Bytes16(v: nat): (b: seq<byte>)
    requires v < 0x1_0000
    ensures |b| == 2
  {
    [(v / 256) as byte, (v % 256) as byte]
  }

  function Bytes32(v: nat): (b: seq<byte>)
    requires v < 0x1_0000_0000
    ensures |b| == 4
  {
    [(v / 0x100_0000) as byte, (v / 0x1_0000 % 256) as byte, (v / 256 % 256) as byte, (v % 256) as byte]
  }

  predicate IsChunk(c: Chunk) { |c.tag| == 4 && |c.body| < 0x1_0000_0000 }

  function ChunkBytes(c: Chunk): seq<byte>
    requires IsChunk(c)
  {
    c.tag + Bytes32(|c.body|) + c.body
  }

  function Flat(cs: seq<Chunk>): seq<byte>
    requires forall c <- cs :: IsChunk(c)
  {
    if cs == [] then [] else ChunkBytes(cs[0]) + Flat(cs[1..])
  }

  function TrackBodies(cs: seq<Chunk>): seq<seq<byte>> {
    if cs == [] then []
    else if cs[0].tag == MTRK then [cs[0].body] + TrackBodies(cs[1..])
    else TrackBodies(cs[1..])
  }

  function FirstOf(bodies: seq<seq<byte>>, want: nat): seq<seq<byte>> {
    if |bodies| < want then bodies else bodies[..want]
  }

  /** A header chunk, possibly longer than the six bytes in use, then the chunks, then at most seven
      bytes that belong to none. */
  function FileBytes(format: nat, tracks: nat, division: nat, extra: seq<byte>, cs: seq<Chunk>, junk: seq<byte>): seq<byte>
    requires format < 0x1_0000 && tracks < 0x1_0000 && division < 0x1_0000 && |extra| < 0x1000_0000
    requires forall c <- cs :: IsChunk(c)
  {
    MTHD + Bytes32(6 + |extra|) + Bytes16(format) + Bytes16(tracks) + Bytes16(division) + extra + (Flat(cs) + junk)
  }

  lemma Digits(v: nat)
    requires v < 0x1_0000_0000
    ensures v / 0x100_0000 * 0x100_0000 + v / 0x1_0000 % 256 * 0x1_0000 + v / 256 % 256 * 256 + v % 256 == v
  {
    assert v / 0x1_0000 == v / 256 / 256 && v / 0x100_0000 == v / 256 / 256 / 256;
  }

  lemma Be32Reads(d: seq<byte>, i: nat, v: nat)
    requires v < 0x1_0000_0000 && i + 4 <= |d| && d[i..i + 4] == Bytes32(v)
    ensures Be32(d, i) == v
  {
    var b := d[i..i + 4];
    assert d[i] == b[0] && d[i + 1] == b[1] && d[i + 2] == b[2] && d[i + 3] == b[3];
    Digits(v);
  }

  lemma Be16Reads(d: seq<byte>, i: nat, v: nat)
    requires v < 0x1_0000 && i + 2 <= |d| && d[i..i + 2] == Bytes16(v)
    ensures Be16(d, i) == v
  {
    var b := d[i..i + 2];
    assert d[i] == b[0] && d[i + 1] == b[1];
  }

  /** One chunk at an offset. */
  lemma WalkOne(d: seq<byte>, offset: nat, want: nat, c: Chunk)
    requires IsChunk(c) && want > 0 && offset + 8 + |c.body| <= |d|
    requires d[offset..offset + 8 + |c.body|] == ChunkBytes(c)
    ensures var next := offset + 8 + |c.body|;
            Walk(d, offset, want) ==
            if c.tag == MTRK then Joined([c.body], Walk(d, next, want - 1)) else Walk(d, next, want)
  {
    hide Be32, Bytes32, Walk;
    var n := 8 + |c.body|;
    ThreeParts(c.tag, Bytes32(|c.body|), c.body);
    SliceOfSlice(d, offset, offset + n, 0, 4);
    SliceOfSlice(d, offset, offset + n, 4, 8);
    SliceOfSlice(d, offset, offset + n, 8, n);
    Be32Reads(d, offset + 4, |c.body|);
    WalkStep(d, offset, want);
  }

  lemma ThreeParts(a: seq<byte>, b: seq<byte>, c: seq<byte>)
    requires |a| == |b| == 4
    ensures var w := a + b + c; w[0..4] == a && w[4..8] == b && w[8..8 + |c|] == c && |w| == 8 + |c|
  {
  }

  /** The walk reads back the chunks that were written. */
  lemma {:induction false} WalkReads(d: seq<byte>, offset: nat, want: nat, cs: seq<Chunk>, junk: seq<byte>)
    requires offset <= |d| && (forall c <- cs :: IsChunk(c)) && d[offset..] == Flat(cs) + junk && |junk| < 8
    ensures Walk(d, offset, want) == Bodies(FirstOf(TrackBodies(cs), want))
    decreases |cs|
  {
    hide Walk, ChunkBytes;
    WalkStep(d, offset, want);
    if cs != [] && want > 0 {
      var c := cs[0];
      var next := offset + 8 + |c.body|;
      var rest := Flat(cs[1..]) + junk;
      ChunkSize(c);
      assert d[offset..] == ChunkBytes(c) + rest;
      SplitAt(d, offset, next, ChunkBytes(c), rest);
      WalkOne(d, offset, want, c);
      WalkReads(d, next, want, cs[1..], junk);
      WalkReads(d, next, want - 1, cs[1..], junk);
      FirstJoins(c.body, TrackBodies(cs[1..]), want);
    }
  }

  lemma ChunkSize(c: Chunk)
    requires IsChunk(c)
    ensures |ChunkBytes(c)| == 8 + |c.body|
  {
    hide Bytes32;
  }

  lemma SplitAt(d: seq<byte>, offset: nat, next: nat, a: seq<byte>, b: seq<byte>)
    requires offset <= |d| && d[offset..] == a + b && next == offset + |a|
    ensures next <= |d| && d[offset..next] == a && d[next..] == b
  {
    assert d[offset..next] == d[offset..][..|a|];
    assert d[next..] == d[offset..][|a|..];
  }

  lemma FirstJoins(body: seq<byte>, bodies: seq<seq<byte>>, want: nat)
    requires want > 0
    ensures Joined([body], Bodies(FirstOf(bodies, want - 1))) == Bodies(FirstOf([body] + bodies, want))
  {
  }

  /** Every well-formed file is read as it was written: its first tracks, up to the number it names and
      to 32, each with exactly its own bytes; a file that names more tracks than it has is refused. */
  lemma {:induction false} ParseReads(format: nat, tracks: nat, division: nat, extra: seq<byte>, cs: seq<Chunk>, junk: seq<byte>)
    requires format <= 1 && 1 <= tracks < 0x1_0000 && 1 <= division < 0x1_0000 && |extra| < 0x1000_0000
    requires (forall c <- cs :: IsChunk(c)) && |junk| < 8
    ensures var n, bodies := (if tracks > MAX_TRACKS then MAX_TRACKS else tracks), TrackBodies(cs);
            Parse(FileBytes(format, tracks, division, extra, cs, junk)) ==
            if bodies == [] then NoTracks
            else if |bodies| < n then BadHeader
            else Ok(Header(format, division, bodies[..n]))
  {
    hide Walk, Flat, TrackBodies;
    var d := FileBytes(format, tracks, division, extra, cs, junk);
    HeaderReads(format, tracks, division, extra, Flat(cs) + junk);
    WalkReads(d, 14 + |extra|, Wanted(d), cs, junk);
  }

  lemma HeaderReads(format: nat, tracks: nat, division: nat, extra: seq<byte>, rest: seq<byte>)
    requires format < 0x1_0000 && tracks < 0x1_0000 && division < 0x1_0000 && |extra| < 0x1000_0000
    ensures var d := MTHD + Bytes32(6 + |extra|) + Bytes16(format) + Bytes16(tracks) + Bytes16(division) + extra + rest;
            |d| >= 14 + |extra| && d[..4] == MTHD && Be32(d, 4) == 6 + |extra| && Be16(d, 8) == format &&
            Be16(d, 10) == tracks && Be16(d, 12) == division && d[14 + |extra|..] == rest
  {
    hide Bytes16, Bytes32, Be16, Be32;
    var d := MTHD + Bytes32(6 + |extra|) + Bytes16(format) + Bytes16(tracks) + Bytes16(division) + extra + rest;
    assert d[4..8] == Bytes32(6 + |extra|) && d[8..10] == Bytes16(format);
    assert d[10..12] == Bytes16(tracks) && d[12..14] == Bytes16(division);
    Be32Reads(d, 4, 6 + |extra|);
    Be16Reads(d, 8, format);
    Be16Reads(d, 10, tracks);
    Be16Reads(d, 12, division);
  }
}

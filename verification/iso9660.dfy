/** The ISO 9660 reader: every open file and directory reads through one shared sector buffer. */
module Iso9660 {
  import opened Common
  import opened LittleEndian

  const SECTOR := 2048
  const TURN := 0x1_0000_0000

  type Word = x: int | 0 <= x < 0x1_0000_0000
  type Sector = s: seq<byte> | |s| == 2048 witness seq(2048, _ => 0)

  /** An open file or directory; the position is in bytes from the first sector. */
  datatype File = File(first: nat, position: Word, length: Word)

  function Offset(f: File): nat { f.position % SECTOR }

  function SectorOf(f: File): nat { f.first + f.position / SECTOR }

  /** fnextsectpos */
  function NextSector(position: nat): nat { (position + (SECTOR - 1)) / SECTOR * SECTOR }

  function AlignEven(n: nat): nat { n + n % 2 }

  /** The byte of an extent at a position. */
  function ByteAt(disk: seq<Sector>, first: nat, p: nat): byte
    requires first + p / SECTOR < |disk|
  {
    disk[first + p / SECTOR][p % SECTOR]
  }

  // ---- what a directory says ----

  /** From p on: sectors are there, none begins with padding, and no record runs over the end of its
      sector. */
  predicate IsDirectory(disk: seq<Sector>, first: nat, p: nat, length: nat)
    decreases length - p
  {
    p >= length ||
    (first + p / SECTOR < |disk| &&
     var b := ByteAt(disk, first, p);
     if b == 0 then p % SECTOR != 0 && IsDirectory(disk, first, NextSector(p), length)
     else p % SECTOR + AlignEven(b) <= SECTOR && IsDirectory(disk, first, p + AlignEven(b), length))
  }

  /** The records from p on, in order; a zero byte pads the rest of its sector. */
  function Listing(disk: seq<Sector>, first: nat, p: nat, length: nat): seq<seq<byte>>
    requires IsDirectory(disk, first, p, length)
    decreases length - p
  {
    if p >= length then []
    else
      var b := ByteAt(disk, first, p);
      if b == 0 then Listing(disk, first, NextSector(p), length)
      else [disk[first + p / SECTOR][p % SECTOR..p % SECTOR + b as int]]
           + Listing(disk, first, p + AlignEven(b), length)
  }

  lemma DirectoryStep(disk: seq<Sector>, first: nat, p: nat, length: nat)
    requires IsDirectory(disk, first, p, length) && p < length
    ensures first + p / SECTOR < |disk|
    ensures var b, rest := ByteAt(disk, first, p), Listing(disk, first, p, length);
            if b == 0 then
              p % SECTOR != 0 && IsDirectory(disk, first, NextSector(p), length) &&
              rest == Listing(disk, first, NextSector(p), length)
            else
              var q := p + AlignEven(b);
              p % SECTOR + AlignEven(b) <= SECTOR && IsDirectory(disk, first, q, length) &&
              rest == [disk[first + p / SECTOR][p % SECTOR..p % SECTOR + b as int]] + Listing(disk, first, q, length)
  {
    hide ByteAt, NextSector;
  }

  lemma {:induction false} DirectoryEnds(disk: seq<Sector>, first: nat, p: nat, length: nat)
    requires p >= length
    ensures IsDirectory(disk, first, p, length) && Listing(disk, first, p, length) == []
  {
  }

  lemma NextSectorFacts(p: nat)
    ensures NextSector(p) % SECTOR == 0 && p <= NextSector(p) < p + SECTOR
    ensures p % SECTOR != 0 ==> NextSector(p) > p
  {
  }

  /** Records that fit keep the position in the sector or bring it to the next one's start. */
  lemma StaysInSector(p: nat, n: nat)
    requires p % SECTOR + n <= SECTOR
    ensures (p + n) % SECTOR != 0 ==> (p + n) / SECTOR == p / SECTOR
  {
    var q, r := p / SECTOR, p % SECTOR;
    assert p + n == q * SECTOR + (r + n);
    if r + n < SECTOR {
      DivModUnique(p + n, SECTOR, q, r + n);
    } else {
      DivModUnique(p + n, SECTOR, q + 1, 0);
    }
  }

  // ---- the shared buffer ----

  /** What the buffer must hold for its last user to go on without reading again. */
  predicate Holds(disk: seq<Sector>, f: File, buf: seq<byte>) {
    Offset(f) != 0 ==> SectorOf(f) < |disk| && buf == disk[SectorOf(f)]
  }

  datatype Whence = Set | Current | End

  /** Where l9660_seek puts the position. */
  function Moved(f: File, whence: Whence, offset: int): File {
    match whence
    case Set => f.(position := offset % TURN)
    case Current => f.(position := (f.position + offset) % TURN)
    case End => f.(position := (f.length - offset) % TURN)
  }

  /** l9660_seek reads the new sector only if it is another one. */
  predicate Rereads(f: File, f': File) {
    f'.position / SECTOR != f.position / SECTOR && Offset(f') != 0
  }

  /** A seek after which the buffer is good whatever is on the disk and whatever the buffer holds; a
      caller can tell from the two positions. */
  predicate SafeSeek(f: File, f': File) {
    Rereads(f, f') || Offset(f') == 0 || Offset(f) != 0
  }

  lemma StaysGood(disk: seq<Sector>, f: File, f': File, buf: seq<byte>)
    requires f' == f.(position := f'.position) && !Rereads(f, f') && (Offset(f') == 0 || Offset(f) != 0)
    ensures Holds(disk, f, buf) ==> Holds(disk, f', buf)
  {
  }

  /** A seek of the buffer's last user that does not read keeps every good buffer good, on every disk
      that has the sector, if and only if it is a safe one. */
  lemma SeekKeeps(f: File, f': File)
    requires f' == f.(position := f'.position) && !Rereads(f, f')
    ensures (forall disk: seq<Sector>, buf: Sector :: SectorOf(f') < |disk| && Holds(disk, f, buf) ==> Holds(disk, f', buf))
            <==> SafeSeek(f, f')
  {
    if SafeSeek(f, f') {
      forall disk: seq<Sector>, buf: Sector
        ensures Holds(disk, f, buf) ==> Holds(disk, f', buf)
      {
        StaysGood(disk, f, f', buf);
      }
    } else {
      var disk: seq<Sector> := seq(SectorOf(f') + 1, _ => Zeros());
      assert Zeros()[0] != Ones()[0];
      assert SectorOf(f') < |disk| && Holds(disk, f, Ones()) && !Holds(disk, f', Ones());
    }
  }

  function Zeros(): Sector { seq(SECTOR, _ => 0 as byte) }

  function Ones(): Sector { seq(SECTOR, _ => 1 as byte) }

  // ---- what one call does ----

  datatype Status = Ok | IoError

  datatype Turn =
    | Next(file: nat)
    | Fetch(file: nat, want: nat)
    | OpenAt(file: nat, first: nat, length: Word)
    | SeekTo(file: nat, whence: Whence, offset: int)

  datatype Output = Record(record: Option<seq<byte>>) | Data(data: seq<byte>) | Nothing | Failed

  /** Files and buffer at one moment; last is the file the buffer was last filled for, or -1. */
  datatype View = View(files: seq<File>, last: int, buf: seq<byte>)

  /** File i may go on with the buffer. */
  predicate GoodFor(disk: seq<Sector>, v: View, i: nat)
    requires i < |v.files|
  {
    v.last == i ==> Holds(disk, v.files[i], v.buf)
  }

  /** A call for one file spoils the buffer for no other. */
  predicate OthersKeep(disk: seq<Sector>, v: View, v': View, i: nat)
    requires i < |v.files| == |v'.files|
  {
    forall j :: 0 <= j < |v.files| && j != i ==>
      v'.files[j] == v.files[j] && (GoodFor(disk, v, j) ==> GoodFor(disk, v', j))
  }

  lemma OthersDo(disk: seq<Sector>, v: View, v': View, i: nat)
    requires i < |v.files| == |v'.files| && v'.files == v.files[i := v'.files[i]]
    requires v'.last == i || (v'.last == v.last && v'.buf == v.buf)
    ensures OthersKeep(disk, v, v', i)
  {
    hide Holds;
  }

  /** The sector that a read copies from: the buffer as it is, or the one on the disk. */
  predicate Trusts(v: View, i: nat)
    requires i < |v.files|
  {
    v.last == i && Offset(v.files[i]) != 0
  }

  /** How much l9660_read returns. */
  function Amount(f: File, want: nat): nat {
    Smallest(want, SECTOR - Offset(f), (f.length - f.position) % TURN)
  }

  function Smallest(a: nat, b: nat, c: nat): nat {
    var m := if a < b then a else b;
    if m < c then m else c
  }

  lemma AmountIs(f: File, want: nat)
    ensures var left := (f.length - f.position) % TURN;
            var rem := if SECTOR - Offset(f) > left then left else SECTOR - Offset(f);
            Amount(f, want) == if rem < want then rem else want
  {
  }

  /** l9660_read, good buffer or not. */
  predicate ReadIs(disk: seq<Sector>, v: View, i: nat, want: nat, v': View, out: Output)
    requires i < |v.files| && |v.buf| == SECTOR
  {
    var f := v.files[i];
    if !Trusts(v, i) && SectorOf(f) >= |disk| then out == Failed && v' == v.(last := i)
    else
      var from := if Trusts(v, i) then v.buf else disk[SectorOf(f)];
      out == Data(from[Offset(f)..Offset(f) + Amount(f, want)]) &&
      v' == View(v.files[i := f.(position := (f.position + Amount(f, want)) % TURN)], i, from)
  }

  lemma ReadFailed(disk: seq<Sector>, v: View, i: nat, want: nat, v': View)
    requires i < |v.files| && |v.buf| == SECTOR && !Trusts(v, i) && SectorOf(v.files[i]) >= |disk|
    requires v' == v.(last := i)
    ensures ReadIs(disk, v, i, want, v', Failed)
  {
  }

  lemma ReadDone(disk: seq<Sector>, v: View, i: nat, want: nat, v': View, data: seq<byte>)
    requires i < |v.files| && |v.buf| == SECTOR && (Trusts(v, i) || SectorOf(v.files[i]) < |disk|)
    requires var f := v.files[i];
             v' == View(v.files[i := f.(position := (f.position + Amount(f, want)) % TURN)], i,
                        if Trusts(v, i) then v.buf else disk[SectorOf(f)])
    requires var f := v.files[i];
             Offset(f) + Amount(f, want) <= |v'.buf| && data == v'.buf[Offset(f)..Offset(f) + Amount(f, want)]
    ensures ReadIs(disk, v, i, want, v', Data(data))
  {
    hide Amount, Smallest;
  }

  lemma AmountFits(f: File, want: nat)
    ensures Offset(f) + Amount(f, want) <= SECTOR
    ensures f.position <= f.length ==>
              Amount(f, want) == Smallest(want, SECTOR - Offset(f), f.length - f.position) &&
              f.position + Amount(f, want) <= f.length
  {
  }

  /** With a good buffer a read returns what is on the disk, up to the end of the sector and of the file,
      and leaves the buffer good. */
  lemma GoodRead(disk: seq<Sector>, v: View, i: nat, want: nat, v': View, out: Output)
    requires i < |v.files| && |v.buf| == SECTOR && ReadIs(disk, v, i, want, v', out)
    requires GoodFor(disk, v, i) && SectorOf(v.files[i]) < |disk| && v.files[i].position <= v.files[i].length
    ensures var f := v.files[i];
            var n := Smallest(want, SECTOR - Offset(f), f.length - f.position);
            Offset(f) + n <= SECTOR && out == Data(disk[SectorOf(f)][Offset(f)..Offset(f) + n]) &&
            f.position + n <= f.length && v'.files == v.files[i := f.(position := f.position + n)]
    ensures GoodFor(disk, v', i)
  {
    var f := v.files[i];
    AmountFits(f, want);
    TrustedSector(disk, v, i);
    SameSector(disk, f, Amount(f, want));
    hide Amount, Smallest, Holds, SectorOf, Offset;
  }

  /** Going on inside a sector, or to the start of the next one. */
  lemma SameSector(disk: seq<Sector>, f: File, n: nat)
    requires SectorOf(f) < |disk| && Offset(f) + n <= SECTOR && f.position + n < TURN
    ensures Holds(disk, f.(position := f.position + n), disk[SectorOf(f)])
  {
    StaysInSector(f.position, n);
  }

  /** l9660_seek. */
  predicate SeekIs(disk: seq<Sector>, v: View, i: nat, whence: Whence, offset: int, v': View, out: Output)
    requires i < |v.files|
  {
    var f, f' := v.files[i], Moved(v.files[i], whence, offset);
    v'.files == v.files[i := f'] &&
    if !Rereads(f, f') then out == Nothing && v'.last == v.last && v'.buf == v.buf
    else
      v'.last == i &&
      if SectorOf(f') < |disk| then out == Nothing && v'.buf == disk[SectorOf(f')]
      else out == Failed && v'.buf == v.buf
  }

  lemma GoodSeek(disk: seq<Sector>, v: View, i: nat, whence: Whence, offset: int, v': View, out: Output)
    requires i < |v.files| && SeekIs(disk, v, i, whence, offset, v', out) && GoodFor(disk, v, i) && out == Nothing
    requires SafeSeek(v.files[i], v'.files[i])
    ensures GoodFor(disk, v', i)
  {
  }

  predicate Listable(disk: seq<Sector>, f: File) {
    f.length <= TURN - SECTOR && IsDirectory(disk, f.first, f.position, f.length)
  }

  /** What a directory has still to return. */
  function Left(disk: seq<Sector>, f: File): seq<seq<byte>>
    requires Listable(disk, f)
  {
    Listing(disk, f.first, f.position, f.length)
  }

  /** l9660_readdir on a directory that may go on with the buffer. */
  predicate ReadDirIs(disk: seq<Sector>, v: View, i: nat, v': View, out: Output)
    requires i < |v.files| && Listable(disk, v.files[i])
  {
    |v'.files| == |v.files| && v'.files[i] == v.files[i].(position := v'.files[i].position) &&
    Listable(disk, v'.files[i]) && GoodFor(disk, v', i) && out.Record? &&
    if out.record.Some? then Left(disk, v.files[i]) == [out.record.value] + Left(disk, v'.files[i])
    else Left(disk, v.files[i]) == [] && Left(disk, v'.files[i]) == []
  }

  class Reader {
    const disk: seq<Sector>
    const files: array<File>
    const gbuf: array<byte>
    /** The file the buffer was last filled for; -1 before any. */
    var lastFile: int

    ghost predicate Shape()
      reads this
    {
      gbuf.Length == SECTOR && -1 <= lastFile < files.Length
    }

    ghost function Now(): (v: View)
      reads this, files, gbuf
      ensures |v.files| == files.Length && |v.buf| == gbuf.Length
    {
      View(files[..], lastFile, gbuf[..])
    }

    constructor (sectors: seq<Sector>, count: nat)
      ensures disk == sectors && files.Length == count && Shape() && lastFile == -1
      ensures fresh(files) && fresh(gbuf)
    {
      disk, lastFile := sectors, -1;
      files := new File[count](_ => File(0, 0, 0));
      gbuf := new byte[SECTOR](_ => 0);
    }

    /** buffer */
    method Buffer(i: nat) returns (rv: Status)
      requires Shape() && i < files.Length
      modifies `lastFile, gbuf
      ensures Shape() && lastFile == i && (rv.Ok? <==> SectorOf(files[i]) < |disk|)
      ensures gbuf[..] == if rv.Ok? then disk[SectorOf(files[i])] else old(gbuf[..])
    {
      lastFile := i;
      var sector := SectorOf(files[i]);
      if sector >= |disk| {
        return IoError;
      }
      forall k | 0 <= k < SECTOR {
        gbuf[k] := disk[sector][k];
      }
      assert gbuf[..] == disk[sector];
      rv := Ok;
    }

    /** prebuffer: read if somebody else used the buffer, or at the start of a sector. */
    method Prebuffer(i: nat) returns (rv: Status)
      requires Shape() && i < files.Length
      modifies `lastFile, gbuf
      ensures Shape() && lastFile == i
      ensures old(Trusts(Now(), i)) ==> rv.Ok? && gbuf[..] == old(gbuf[..])
      ensures !old(Trusts(Now(), i)) ==>
                (rv.Ok? <==> SectorOf(files[i]) < |disk|) &&
                gbuf[..] == if rv.Ok? then disk[SectorOf(files[i])] else old(gbuf[..])
    {
      if i != lastFile || files[i].position % SECTOR == 0 {
        rv := Buffer(i);
      } else {
        rv := Ok;
      }
    }

    method SetFile(i: nat, f: File)
      requires i < files.Length
      modifies files
      ensures files[..] == old(files[..])[i := f]
    {
      files[i] := f;
    }

    /** l9660_fs_open_root and the end of openat_raw: an extent is opened at its start. */
    method Open(i: nat, first: nat, length: Word)
      requires Shape() && i < files.Length
      modifies files
      ensures Shape() && Now() == old(Now()).(files := old(files[..])[i := File(first, 0, length)])
      ensures GoodFor(disk, Now(), i) && OthersKeep(disk, old(Now()), Now(), i)
    {
      hide Holds;
      SetFile(i, File(first, 0, length));
      HoldsAligned(disk, files[i], gbuf[..]);
    }

    /** l9660_readdir: the next record of this directory, whatever other files read in between. */
    method ReadDir(i: nat) returns (rv: Status, record: Option<seq<byte>>)
      requires Shape() && i < files.Length && Listable(disk, files[i]) && GoodFor(disk, Now(), i)
      modifies `lastFile, gbuf, files
      ensures Shape() && rv.Ok? && ReadDirIs(disk, old(Now()), i, Now(), Record(record))
      ensures OthersKeep(disk, old(Now()), Now(), i)
    {
      hide Holds, IsDirectory, Listing, OthersKeep;
      ghost var v := Now();
      var found := ToRecord(i);
      var f := files[i];
      if found {
        DirectoryStep(disk, f.first, f.position, f.length);
        var off := f.position % SECTOR;
        var n := gbuf[off];
        StaysInSector(f.position, AlignEven(n));
        SetFile(i, f.(position := f.position + AlignEven(n)));
        HoldsStill(disk, f, files[i], gbuf[..]);
        record := Some(gbuf[..][off..off + n as int]);
      } else {
        DirectoryEnds(disk, f.first, f.position, f.length);
        record := None;
      }
      OthersDo(disk, v, Now(), i);
      rv := Ok;
    }

    /** The loop of l9660_readdir: padding is skipped until a record or the end of the directory. */
    method ToRecord(i: nat) returns (found: bool)
      requires Shape() && i < files.Length && Listable(disk, files[i]) && GoodFor(disk, Now(), i)
      modifies `lastFile, gbuf, files
      ensures Shape() && files[..] == old(files[..])[i := old(files[i]).(position := files[i].position)]
      ensures Listable(disk, files[i]) && GoodFor(disk, Now(), i) && Left(disk, files[i]) == Left(disk, old(files[i]))
      ensures lastFile == i || (lastFile == old(lastFile) && gbuf[..] == old(gbuf[..]))
      ensures found <==> files[i].position < files[i].length
      ensures found ==> lastFile == i && SectorOf(files[i]) < |disk| && gbuf[..] == disk[SectorOf(files[i])]
                        && gbuf[Offset(files[i])] != 0
    {
      hide Holds, IsDirectory, Listing, NextSector;
      ghost var was := files[..];
      while files[i].position < files[i].length
        invariant Shape() && Listable(disk, files[i]) && GoodFor(disk, Now(), i)
        invariant files[..] == was[i := was[i].(position := files[i].position)]
        invariant lastFile == i || (lastFile == old(lastFile) && gbuf[..] == old(gbuf[..]))
        invariant Left(disk, files[i]) == Left(disk, was[i])
        decreases files[i].length - files[i].position
      {
        var f := files[i];
        DirectoryStep(disk, f.first, f.position, f.length);
        TrustedSector(disk, Now(), i);
        var rv := Prebuffer(i);
        assert gbuf[Offset(f)] == ByteAt(disk, f.first, f.position);
        if gbuf[Offset(f)] != 0 {
          HoldsStill(disk, f, f, gbuf[..]);
          return true;
        }
        NextSectorFacts(f.position);
        SetFile(i, f.(position := NextSector(f.position)));
        HoldsAligned(disk, files[i], gbuf[..]);
      }
      found := false;
    }

    /** l9660_read */
    method Read(i: nat, want: nat) returns (rv: Status, data: seq<byte>)
      requires Shape() && i < files.Length
      modifies `lastFile, gbuf, files
      ensures Shape() && ReadIs(disk, old(Now()), i, want, Now(), if rv.Ok? then Data(data) else Failed)
      ensures OthersKeep(disk, old(Now()), Now(), i)
    {
      hide Holds, OthersKeep, Smallest, ReadIs, SectorOf;
      ghost var v := Now();
      rv := Prebuffer(i);
      if rv.IoError? {
        OthersDo(disk, v, Now(), i);
        ReadFailed(disk, v, i, want, Now());
        return rv, [];
      }
      var f := files[i];
      var off := f.position % SECTOR;
      var left := (f.length - f.position) % TURN;
      var rem := SECTOR - off;
      if rem > left {
        rem := left;
      }
      var size := want;
      if rem < size {
        size := rem;
      }
      assert size == Amount(f, want) by {
        AmountIs(f, want);
      }
      hide Amount;
      data := gbuf[..][off..off + size];
      SetFile(i, f.(position := (f.position + size) % TURN));
      OthersDo(disk, v, Now(), i);
      ReadDone(disk, v, i, want, Now(), data);
    }

    /** l9660_seek */
    method Seek(i: nat, whence: Whence, offset: int) returns (rv: Status)
      requires Shape() && i < files.Length
      modifies `lastFile, gbuf, files
      ensures Shape() && SeekIs(disk, old(Now()), i, whence, offset, Now(), if rv.Ok? then Nothing else Failed)
      // forward from the start or from here, but back from the end
      ensures whence.Set? && 0 <= offset < TURN ==> files[i].position == offset
      ensures whence.Current? && 0 <= old(files[i]).position + offset < TURN ==>
                files[i].position == old(files[i]).position + offset
      ensures whence.End? && 0 <= old(files[i]).length - offset < TURN ==> files[i].position + offset == old(files[i]).length
      ensures OthersKeep(disk, old(Now()), Now(), i)
    {
      hide Holds;
      var sector := files[i].position / SECTOR;
      SetFile(i, Moved(files[i], whence, offset));
      if files[i].position / SECTOR != sector && files[i].position % SECTOR != 0 {
        rv := Buffer(i);
      } else {
        rv := Ok;
      }
    }

    /** Any interleaving of readers over the one buffer, seeks that spoil it for their own file
        included; vs are the moments between the turns. */
    method Interleave(turns: seq<Turn>, directories: set<nat>) returns (outs: seq<Output>, ghost vs: seq<View>)
      requires Shape() && forall t <- turns :: t.file < files.Length && (t.Next? <==> t.file in directories)
      requires forall i <- directories :: i < files.Length && Listable(disk, files[i]) && GoodFor(disk, Now(), i)
      modifies `lastFile, gbuf, files
      ensures Shape() && |outs| == |turns| && |vs| == |turns| + 1 && vs[0] == old(Now()) && vs[|turns|] == Now()
      ensures forall k :: 0 <= k <= |turns| ==> |vs[k].files| == files.Length && |vs[k].buf| == SECTOR
      ensures forall i <- directories :: Listable(disk, files[i])
      ensures forall k :: 0 <= k < |turns| ==> TurnIs(disk, vs[k], turns[k], vs[k + 1], outs[k])
    {
      hide Holds, Listable, GoodFor, OthersKeep, ReadIs, SeekIs, ReadDirIs, TurnIs;
      outs, vs := [], [Now()];
      for k := 0 to |turns|
        invariant Shape() && |outs| == k && |vs| == k + 1 && vs[0] == old(Now()) && vs[k] == Now()
        invariant forall j :: 0 <= j <= k ==> |vs[j].files| == files.Length && |vs[j].buf| == SECTOR
        invariant forall i <- directories :: Listable(disk, files[i]) && GoodFor(disk, Now(), i)
        invariant forall j :: 0 <= j < k ==> TurnIs(disk, vs[j], turns[j], vs[j + 1], outs[j])
      {
        var t := turns[k];
        assert t in turns;
        ghost var v := Now();
        var out := TakeTurn(t);
        TurnKeeps(disk, v, t, Now(), out, directories);
        outs, vs := outs + [out], vs + [Now()];
      }
    }

    method TakeTurn(t: Turn) returns (out: Output)
      requires Shape() && t.file < files.Length
      requires t.Next? ==> Listable(disk, files[t.file]) && GoodFor(disk, Now(), t.file)
      modifies `lastFile, gbuf, files
      ensures Shape() && TurnIs(disk, old(Now()), t, Now(), out)
    {
      hide Holds, Listable, GoodFor, OthersKeep, ReadIs, SeekIs, ReadDirIs;
      match t
      case Next(i) =>
        var rv, record := ReadDir(i);
        out := Record(record);
      case Fetch(i, want) =>
        var rv, data := Read(i, want);
        out := if rv.Ok? then Data(data) else Failed;
      case OpenAt(i, first, length) =>
        Open(i, first, length);
        out := Nothing;
      case SeekTo(i, whence, offset) =>
        var rv := Seek(i, whence, offset);
        out := if rv.Ok? then Nothing else Failed;
    }
  }

  /** What one turn does to files and buffer, and what it returns. */
  predicate TurnIs(disk: seq<Sector>, v: View, t: Turn, v': View, out: Output)
    requires t.file < |v.files| == |v'.files| && |v.buf| == SECTOR
  {
    OthersKeep(disk, v, v', t.file) &&
    match t
    case Next(i) => Listable(disk, v.files[i]) && ReadDirIs(disk, v, i, v', out)
    case Fetch(i, want) => ReadIs(disk, v, i, want, v', out)
    case OpenAt(i, first, length) => out == Nothing && v' == v.(files := v.files[i := File(first, 0, length)])
    case SeekTo(i, whence, offset) => SeekIs(disk, v, i, whence, offset, v', out)
  }

  lemma TurnKeeps(disk: seq<Sector>, v: View, t: Turn, v': View, out: Output, directories: set<nat>)
    requires t.file < |v.files| == |v'.files| && |v.buf| == SECTOR && TurnIs(disk, v, t, v', out)
    requires t.Next? <==> t.file in directories
    requires forall i <- directories :: i < |v.files| && Listable(disk, v.files[i]) && GoodFor(disk, v, i)
    ensures forall i <- directories :: Listable(disk, v'.files[i]) && GoodFor(disk, v', i)
  {
    hide Listable, GoodFor, ReadIs, SeekIs;
  }

  // ---- what the turns of one directory return ----

  /** The records that came back for file i. */
  function Returned(turns: seq<Turn>, outs: seq<Output>, i: nat): seq<seq<byte>>
    requires |outs| == |turns|
  {
    if turns == [] then []
    else
      var k := |turns| - 1;
      var o := outs[k];
      Returned(turns[..k], outs[..k], i)
      + if turns[k] == Next(i) && o.Record? && o.record.Some? then [o.record.value] else []
  }

  function Asked(turns: seq<Turn>, i: nat): nat {
    if turns == [] then 0 else Asked(turns[..|turns| - 1], i) + if turns[|turns| - 1] == Next(i) then 1 else 0
  }

  /** Under any interleaving a directory returns exactly its records in order: as many as it was asked
      for, or all it has. */
  lemma {:induction false} DirectoryIsExact(disk: seq<Sector>, turns: seq<Turn>, outs: seq<Output>, vs: seq<View>, i: nat)
    requires |outs| == |turns| && |vs| == |turns| + 1
    requires forall k :: 0 <= k <= |turns| ==> i < |vs[k].files| == |vs[0].files| && |vs[k].buf| == SECTOR
    requires forall k :: 0 <= k < |turns| ==> turns[k].file < |vs[0].files| && (turns[k].file == i ==> turns[k].Next?)
    requires forall k :: 0 <= k < |turns| ==> TurnIs(disk, vs[k], turns[k], vs[k + 1], outs[k])
    requires Listable(disk, vs[0].files[i])
    ensures var end := vs[|turns|].files[i];
            Listable(disk, end) && Left(disk, vs[0].files[i]) == Returned(turns, outs, i) + Left(disk, end)
    ensures var all := |Left(disk, vs[0].files[i])|;
            |Returned(turns, outs, i)| == if Asked(turns, i) < all then Asked(turns, i) else all
  {
    hide Listable, TurnIs, Left, GoodFor;
    if turns != [] {
      var k := |turns| - 1;
      DirectoryIsExact(disk, turns[..k], outs[..k], vs[..k + 1], i);
      OneTurn(disk, vs[k], turns[k], vs[k + 1], outs[k], i);
    }
  }

  lemma OneTurn(disk: seq<Sector>, v: View, t: Turn, v': View, out: Output, i: nat)
    requires t.file < |v.files| == |v'.files| && |v.buf| == SECTOR && TurnIs(disk, v, t, v', out)
    requires i < |v.files| && Listable(disk, v.files[i]) && (t.file == i ==> t.Next?)
    ensures Listable(disk, v'.files[i])
    ensures t.file != i ==> v'.files[i] == v.files[i]
    ensures t == Next(i) ==>
              out.Record? &&
              if out.record.Some? then Left(disk, v.files[i]) == [out.record.value] + Left(disk, v'.files[i])
              else Left(disk, v.files[i]) == [] && Left(disk, v'.files[i]) == []
  {
    hide Listable, GoodFor, Left;
  }

  // ---- a seek that misleads ----

  /** Open a file of two sectors, read the first to its end, go to the second byte of the second, and
      read: the byte that comes back is the first sector's. */
  method SeekMisleads() returns (data: seq<byte>)
    ensures data == [0] && ByteAt([Zeros(), Ones()], 0, 2049) == 1
  {
    var r := new Reader([Zeros(), Ones()], 1);
    r.Open(0, 0, 4096);
    var rv, first := r.Read(0, 2048);
    assert first == Zeros()[0..2048] && r.files[0].position == 2048;
    rv := r.Seek(0, Set, 2049);
    assert r.files[0].position == 2049 && r.gbuf[..] == Zeros();
    rv, data := r.Read(0, 1);
    assert data == Zeros()[1..2];
  }

  /** A buffer that is trusted by right is the sector of the position. */
  lemma TrustedSector(disk: seq<Sector>, v: View, i: nat)
    requires i < |v.files| && GoodFor(disk, v, i)
    ensures Trusts(v, i) ==> SectorOf(v.files[i]) < |disk| && v.buf == disk[SectorOf(v.files[i])]
  {
  }

  lemma HoldsAligned(disk: seq<Sector>, f: File, buf: seq<byte>)
    requires Offset(f) == 0
    ensures Holds(disk, f, buf)
  {
  }

  lemma HoldsStill(disk: seq<Sector>, f: File, f': File, buf: seq<byte>)
    requires SectorOf(f) < |disk| && buf == disk[SectorOf(f)] && f'.first == f.first
    requires Offset(f') != 0 ==> f'.position / SECTOR == f.position / SECTOR
    ensures Holds(disk, f', buf)
  {
  }
}

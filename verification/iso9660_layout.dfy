/** Directories as the standard lays them out: whole records in a sector, zeros after the last. */
module Iso9660Layout {
  import opened Common
  import opened LittleEndian
  import opened Iso9660

  /** A record begins with its length. */
  predicate IsRecord(r: seq<byte>) { 1 <= |r| < 256 && r[0] == |r| }

  /** A record takes an even number of bytes. */
  function Padded(r: seq<byte>): seq<byte> { if |r| % 2 == 1 then r + [0] else r }

  function Laid(rs: seq<seq<byte>>): seq<byte> {
    if rs == [] then [] else Padded(rs[0]) + Laid(rs[1..])
  }

  /** Some records, and zeros up to the end of the sector. */
  predicate HoldsRecords(sector: Sector, rs: seq<seq<byte>>) {
    rs != [] && (forall r <- rs :: IsRecord(r)) && |Laid(rs)| <= SECTOR && sector[..|Laid(rs)|] == Laid(rs) &&
    (|Laid(rs)| < SECTOR ==> sector[|Laid(rs)|] == 0)
  }

  predicate LaidOut(disk: seq<Sector>, first: nat, groups: seq<seq<seq<byte>>>) {
    first + |groups| <= |disk| && forall k :: 0 <= k < |groups| ==> HoldsRecords(disk[first + k], groups[k])
  }

  /** Skipping a record that fits. */
  lemma {:induction false} LaidParts(rs: seq<seq<byte>>)
    requires rs != [] && IsRecord(rs[0])
    ensures var n := |Padded(rs[0])|;
            1 <= |rs[0]| < 256 && n == |rs[0]| + |rs[0]| % 2 &&
            |Laid(rs)| == n + |Laid(rs[1..])| && Laid(rs)[n..] == Laid(rs[1..]) &&
            Laid(rs)[..|rs[0]|] == rs[0] && Laid(rs)[0] == |rs[0]|
  {
  }

  lemma Place(k: nat, at: nat)
    requires at < SECTOR
    ensures (SECTOR * k + at) / SECTOR == k && (SECTOR * k + at) % SECTOR == at
    ensures at > 0 ==> NextSector(SECTOR * k + at) == SECTOR * (k + 1)
  {
    DivModUnique(SECTOR * k + at, SECTOR, k, at);
    if at > 0 {
      DivModUnique(SECTOR * k + at + (SECTOR - 1), SECTOR, k + 1, at - 1);
    }
  }

  /** From p on there are these records. */
  predicate Lists(disk: seq<Sector>, first: nat, p: nat, length: nat, rs: seq<seq<byte>>) {
    IsDirectory(disk, first, p, length) && Listing(disk, first, p, length) == rs
  }

  /** These records and nothing else are left of a sector from a place in it. */
  predicate LeftOf(sector: Sector, at: nat, rs: seq<seq<byte>>) {
    at + |Laid(rs)| <= SECTOR && (forall r <- rs :: IsRecord(r)) && sector[at..at + |Laid(rs)|] == Laid(rs) &&
    (at + |Laid(rs)| < SECTOR ==> sector[at + |Laid(rs)|] == 0)
  }

  /** One record, and what is left after it. */
  lemma OneRecord(sector: Sector, at: nat, rs: seq<seq<byte>>)
    requires rs != [] && LeftOf(sector, at, rs)
    ensures var n := |rs[0]| + |rs[0]| % 2;
            1 <= |rs[0]| < 256 && at + n <= SECTOR && LeftOf(sector, at + n, rs[1..]) &&
            sector[at] == |rs[0]| && sector[at..at + |rs[0]|] == rs[0]
  {
    hide Padded;
    LaidParts(rs);
    Slices(sector, at, rs);
  }

  lemma RecordLists(disk: seq<Sector>, first: nat, k: nat, at: nat, length: nat, r: seq<byte>, rest: seq<seq<byte>>)
    requires first + k < |disk| && at < SECTOR && 1 <= |r| < 256 && SECTOR * k + at < length
    requires at + |r| + |r| % 2 <= SECTOR && disk[first + k][at] == |r| && disk[first + k][at..at + |r|] == r
    requires Lists(disk, first, SECTOR * k + (at + |r| + |r| % 2), length, rest)
    ensures Lists(disk, first, SECTOR * k + at, length, [r] + rest)
  {
    hide IsDirectory, Listing, NextSector;
    Place(k, at);
    RecordFirst(disk, first, SECTOR * k + at, length);
  }

  lemma PaddingLists(disk: seq<Sector>, first: nat, k: nat, at: nat, length: nat, rest: seq<seq<byte>>)
    requires first + k < |disk| && 0 < at < SECTOR && SECTOR * k + at < length && disk[first + k][at] == 0
    requires Lists(disk, first, SECTOR * (k + 1), length, rest)
    ensures Lists(disk, first, SECTOR * k + at, length, rest)
  {
    hide IsDirectory, Listing;
    Place(k, at);
    SkipsTo(disk, first, SECTOR * k + at, length);
  }

  /** From a record on, the rest of its sector and the sectors after it are listed. */
  lemma {:induction false} ListsFrom(disk: seq<Sector>, first: nat, groups: seq<seq<seq<byte>>>, k: nat, at: nat,
        rs: seq<seq<byte>>)
    requires LaidOut(disk, first, groups) && k < |groups| && LeftOf(disk[first + k], at, rs) && (at == 0 ==> rs != [])
    ensures Lists(disk, first, SECTOR * k + at, SECTOR * |groups|, rs + Joined(groups[k + 1..]))
    decreases |groups| - k, 0, |rs|
  {
    hide LeftOf, LaidOut, Lists, Joined;
    GroupIsThere(disk, first, groups, k);
    if rs == [] {
      NothingLeft(disk[first + k], at);
      assert [] + Joined(groups[k + 1..]) == Joined(groups[k + 1..]);
      NextGroup(disk, first, groups, k + 1);
      if at < SECTOR {
        PaddingLists(disk, first, k, at, SECTOR * |groups|, Joined(groups[k + 1..]));
      }
    } else {
      OneRecord(disk[first + k], at, rs);
      var n := |rs[0]| + |rs[0]| % 2;
      ListsFrom(disk, first, groups, k, at + n, rs[1..]);
      RecordLists(disk, first, k, at, SECTOR * |groups|, rs[0], rs[1..] + Joined(groups[k + 1..]));
      assert [rs[0]] + (rs[1..] + Joined(groups[k + 1..])) == rs + Joined(groups[k + 1..]);
    }
  }

  lemma NothingLeft(sector: Sector, at: nat)
    requires LeftOf(sector, at, [])
    ensures at <= SECTOR && (at < SECTOR ==> sector[at] == 0)
  {
    NothingLaid();
  }

  lemma NothingLaid()
    ensures Laid([]) == []
  {
  }

  lemma GroupIsThere(disk: seq<Sector>, first: nat, groups: seq<seq<seq<byte>>>, k: nat)
    requires LaidOut(disk, first, groups) && k < |groups|
    ensures first + k < |disk| && SECTOR * (k + 1) <= SECTOR * |groups|
    ensures groups[k] != [] && LeftOf(disk[first + k], 0, groups[k])
  {
    MulMono(SECTOR, k + 1, |groups|);
    assert HoldsRecords(disk[first + k], groups[k]);
    var n := |Laid(groups[k])|;
    assert disk[first + k][0..0 + n] == disk[first + k][..n];
  }

  lemma {:induction false} Slices(sector: Sector, at: nat, rs: seq<seq<byte>>)
    requires rs != [] && IsRecord(rs[0]) && at + |Laid(rs)| <= SECTOR && sector[at..at + |Laid(rs)|] == Laid(rs)
    ensures var n := |Padded(rs[0])|;
            sector[at] == |rs[0]| && sector[at..at + |rs[0]|] == rs[0] &&
            at + n + |Laid(rs[1..])| == at + |Laid(rs)| && sector[at + n..at + n + |Laid(rs[1..])|] == Laid(rs[1..])
  {
    LaidParts(rs);
    var all, n := Laid(rs), |Padded(rs[0])|;
    assert sector[at..at + |all|][n..] == sector[at + n..at + |all|];
    assert sector[at..at + |all|][..|rs[0]|] == sector[at..at + |rs[0]|];
    assert sector[at..at + |all|][0] == sector[at];
  }

  lemma {:induction false} SkipsTo(disk: seq<Sector>, first: nat, p: nat, length: nat)
    requires p < length && first + p / SECTOR < |disk| && ByteAt(disk, first, p) == 0 && p % SECTOR != 0
    ensures var q := NextSector(p);
            IsDirectory(disk, first, q, length) ==>
              IsDirectory(disk, first, p, length) && Listing(disk, first, p, length) == Listing(disk, first, q, length)
  {
  }

  lemma RecordFirst(disk: seq<Sector>, first: nat, p: nat, length: nat)
    requires p < length && first + p / SECTOR < |disk| && ByteAt(disk, first, p) != 0
    requires var b := ByteAt(disk, first, p); p % SECTOR + (b + b % 2) <= SECTOR
    ensures var b := ByteAt(disk, first, p);
            var q := p + (b + b % 2);
            IsDirectory(disk, first, q, length) ==>
              IsDirectory(disk, first, p, length) &&
              Listing(disk, first, p, length)
              == [disk[first + p / SECTOR][p % SECTOR..p % SECTOR + b]] + Listing(disk, first, q, length)
  {
  }

  /** The records of all sectors in order. */
  function Joined(groups: seq<seq<seq<byte>>>): seq<seq<byte>> {
    if groups == [] then [] else groups[0] + Joined(groups[1..])
  }

  lemma {:induction false} NextGroup(disk: seq<Sector>, first: nat, groups: seq<seq<seq<byte>>>, k: nat)
    requires LaidOut(disk, first, groups) && k <= |groups|
    ensures Lists(disk, first, SECTOR * k, SECTOR * |groups|, Joined(groups[k..]))
    decreases |groups| - k, 1, 0
  {
    hide LaidOut, LeftOf, Lists;
    if k < |groups| {
      GroupIsThere(disk, first, groups, k);
      ListsFrom(disk, first, groups, k, 0, groups[k]);
      assert groups[k..][0] == groups[k] && groups[k..][1..] == groups[k + 1..];
    } else {
      EndLists(disk, first, SECTOR * k);
    }
  }

  lemma EndLists(disk: seq<Sector>, first: nat, p: nat)
    ensures Lists(disk, first, p, p, [])
  {
  }

  /** Any directory laid out by the standard lists as exactly its records in order. */
  lemma {:induction false} DirectoryReads(disk: seq<Sector>, first: nat, groups: seq<seq<seq<byte>>>)
    requires LaidOut(disk, first, groups)
    ensures IsDirectory(disk, first, 0, SECTOR * |groups|)
    ensures Listing(disk, first, 0, SECTOR * |groups|) == Joined(groups)
  {
    NextGroup(disk, first, groups, 0);
    assert groups[0..] == groups;
  }
}

/** The boot-time memory test: an address sweep that finds aliased cells and a dense block test that finds
    stuck data bits. */
module Memtest {
  import opened LittleEndian

  const TURN := 0x1_0000_0000
  const TAG_KEY := 0xA5A5_F00D

  // ---- tags ----

  /** Bitwise exclusive or. */
  function Xor(a: nat, b: nat): nat
    decreases a + b
  {
    if a == 0 && b == 0 then 0 else 2 * Xor(a / 2, b / 2) + (a % 2 + b % 2) % 2
  }

  lemma {:induction false} XorInjective(a: nat, b: nat, key: nat)
    requires Xor(a, key) == Xor(b, key)
    ensures a == b
    decreases a + b + key
  {
    if a + b + key > 0 {
      XorSplit(a, key);
      XorSplit(b, key);
      XorInjective(a / 2, b / 2, key / 2);
    }
  }

  lemma {:induction false} XorSplit(a: nat, key: nat)
    ensures Xor(a, key) / 2 == Xor(a / 2, key / 2) && Xor(a, key) % 2 == (a % 2 + key % 2) % 2
  {
  }

  function Tag(a: nat): nat { Xor(a, TAG_KEY) }

  // ---- the sweep ----

  function Stride(span: nat, samples: nat): (s: nat)
    requires samples > 0
    ensures s >= 4
  {
    var s := span / samples / 4 * 4;
    if s < 4 then 4 else s
  }

  /** The stride is the longest of whole words with which the samples fit into the span, and never less than a
      word. */
  lemma StrideIsLongest(span: nat, samples: nat)
    requires samples > 0
    ensures var s := Stride(span, samples);
            s % 4 == 0 && s >= 4 && (s > 4 ==> s * samples <= span) && span < (s + 4) * samples
  {
    hide Stride;
    var q, s := span / samples, Stride(span, samples);
    assert span == q * samples + span % samples;
    StrideOfQuotient(span, samples);
    MulMono(samples, s, q);
    MulMono(samples, q + 1, s + 4);
    assert samples * (q + 1) == samples * q + samples;
    assert samples * s == s * samples && samples * q == q * samples && samples * (s + 4) == (s + 4) * samples;
  }

  lemma StrideOfQuotient(span: nat, samples: nat)
    requires samples > 0
    ensures var q, s := span / samples, Stride(span, samples);
            s % 4 == 0 && s >= 4 && (s > 4 ==> s <= q) && q < s + 4
  {
    FourQuotient(span / samples);
  }

  lemma FourQuotient(q: int)
    ensures q / 4 * 4 % 4 == 0 && q / 4 * 4 <= q < q / 4 * 4 + 4
  {
  }

  function Address(base: nat, stride: nat, k: nat): nat { base + k * stride }

  /** How many addresses a sweep visits. */
  function Visited(span: nat, stride: nat): nat
    requires stride > 0
  {
    if span < 4 then 0 else (span - 4) / stride + 1
  }

  lemma VisitedIs(base: nat, span: nat, stride: nat, k: nat)
    requires stride > 0
    ensures k < Visited(span, stride) <==> Address(base, stride, k) + 4 <= base + span
  {
    if span >= 4 {
      var q, r := (span - 4) / stride, (span - 4) % stride;
      assert span - 4 == q * stride + r;
      MulMono(stride, k, q);
      MulMono(stride, q + 1, k);
      Products(stride, k, q);
    }
  }

  lemma Products(s: nat, k: nat, q: nat)
    ensures s * k == k * s && s * q == q * s && s * (q + 1) == q * s + s
  {
  }

  lemma AddressStep(base: nat, stride: nat, k: nat)
    ensures Address(base, stride, k + 1) == Address(base, stride, k) + stride
    ensures Address(base, stride, 0) == base
  {
  }

  /** Different visited addresses never share a cell. */
  predicate Injective(cellOf: nat -> nat, base: nat, stride: nat, n: nat) {
    forall k, l :: 0 <= k < l < n ==> cellOf(Address(base, stride, k)) != cellOf(Address(base, stride, l))
  }

  /** The memory behind the addresses: which cell an address reaches is anybody's guess. */
  class Memory {
    const cellOf: nat -> nat
    var cells: map<nat, nat>

    constructor (wiring: nat -> nat)
      ensures cellOf == wiring && cells == map[]
    {
      cellOf, cells := wiring, map[];
    }

    method Write(a: nat, v: nat)
      modifies this
      ensures cells == old(cells)[cellOf(a) := v]
    {
      cells := cells[cellOf(a) := v];
    }

    function Read(a: nat): nat
      reads this
    {
      if cellOf(a) in cells then cells[cellOf(a)] else 0
    }
  }

  /** What the cell of an address holds once the first n tags are written: the tag of the last address
      that reaches it. */
  function LastIn(cellOf: nat -> nat, base: nat, stride: nat, n: nat, cell: nat): int {
    if n == 0 then -1
    else if cellOf(Address(base, stride, n - 1)) == cell then n - 1
    else LastIn(cellOf, base, stride, n - 1, cell)
  }

  lemma {:induction false} LastIsLast(cellOf: nat -> nat, base: nat, stride: nat, n: nat, cell: nat, k: nat)
    requires k < n && cellOf(Address(base, stride, k)) == cell
    ensures k <= LastIn(cellOf, base, stride, n, cell) < n
    ensures cellOf(Address(base, stride, LastIn(cellOf, base, stride, n, cell))) == cell
    decreases n
  {
    if cellOf(Address(base, stride, n - 1)) != cell {
      LastIsLast(cellOf, base, stride, n - 1, cell, k);
    }
  }

  /** The read-back of one address is right exactly if no later one reaches its cell. */
  lemma {:induction false} ReadBack(cellOf: nat -> nat, base: nat, stride: nat, n: nat, k: nat)
    requires k < n && stride > 0
    ensures var last := LastIn(cellOf, base, stride, n, cellOf(Address(base, stride, k)));
            k <= last < n && (Tag(Address(base, stride, last)) == Tag(Address(base, stride, k)) <==> last == k)
  {
    hide Xor;
    var cell := cellOf(Address(base, stride, k));
    LastIsLast(cellOf, base, stride, n, cell, k);
    var last := LastIn(cellOf, base, stride, n, cell);
    if Tag(Address(base, stride, last)) == Tag(Address(base, stride, k)) {
      XorInjective(Address(base, stride, last), Address(base, stride, k), TAG_KEY);
      assert last * stride == k * stride;
      assert (last - k) * stride == last * stride - k * stride;
      assert last > k ==> (last - k) * stride >= stride;
    }
  }

  lemma {:induction false} InjectiveIs(cellOf: nat -> nat, base: nat, stride: nat, n: nat)
    requires stride > 0
    ensures Injective(cellOf, base, stride, n) <==>
            (forall k :: 0 <= k < n ==> LastIn(cellOf, base, stride, n, cellOf(Address(base, stride, k))) == k)
  {
    hide Address;
    forall k | 0 <= k < n
      ensures k <= LastIn(cellOf, base, stride, n, cellOf(Address(base, stride, k))) < n
      ensures var l := LastIn(cellOf, base, stride, n, cellOf(Address(base, stride, k)));
              cellOf(Address(base, stride, l)) == cellOf(Address(base, stride, k))
    {
      LastIsLast(cellOf, base, stride, n, cellOf(Address(base, stride, k)), k);
    }
    forall k, l | 0 <= k < l < n && cellOf(Address(base, stride, k)) == cellOf(Address(base, stride, l))
      ensures LastIn(cellOf, base, stride, n, cellOf(Address(base, stride, k))) >= l
    {
      LastIsLast(cellOf, base, stride, n, cellOf(Address(base, stride, k)), l);
    }
  }

  /** The addresses compared in the loop conditions, the first one past the region among them, are below 2^32. */
  predicate StaysLow(base: nat, span: nat, stride: nat)
    requires stride > 0
  {
    base + span < TURN && Address(base, stride, Visited(span, stride)) + 4 < TURN
  }

  /** The condition of both loops, in 32 bits. */
  predicate InRegion(a: nat, base: nat, span: nat) { (a + 4) % TURN <= (base + span) % TURN }

  function Next(a: nat, stride: nat): nat { (a + stride) % TURN }

  /** So no address in the loops wraps, and the 32-bit condition is that of the region. */
  lemma NoWrap(base: nat, span: nat, stride: nat, k: nat)
    requires stride > 0 && StaysLow(base, span, stride) && k <= Visited(span, stride)
    ensures k < Visited(span, stride) <==> InRegion(Address(base, stride, k), base, span)
    ensures k > 0 ==> Next(Address(base, stride, k - 1), stride) == Address(base, stride, k)
  {
    hide Visited, Address;
    VisitedIs(base, span, stride, k);
    AddressMono(base, stride, k, Visited(span, stride));
    SmallMod(Address(base, stride, k) + 4);
    SmallMod(base + span);
    if k > 0 {
      AddressStep(base, stride, k - 1);
      SmallMod(Address(base, stride, k));
    }
  }

  lemma AddressMono(base: nat, stride: nat, k: nat, n: nat)
    requires k <= n
    ensures Address(base, stride, k) <= Address(base, stride, n)
  {
    MulMono(stride, k, n);
  }

  lemma SmallMod(a: nat)
    requires a < TURN
    ensures a % TURN == a
  {
  }

  /** addrtag_sweep: it passes if and only if no two visited addresses share a cell. */
  method AddrTagSweep(m: Memory, base: nat, span: nat, samples: nat) returns (ok: bool)
    requires samples > 0 && StaysLow(base, span, Stride(span, samples))
    modifies m
    ensures var stride := Stride(span, samples); ok <==> Injective(m.cellOf, base, stride, Visited(span, stride))
  {
    hide Xor, Visited, LastIn, Injective, Address, HoldsTags, Stride, StaysLow, InRegion, Next;
    var stride := Stride(span, samples);
    ghost var n := Visited(span, stride);
    InjectiveIs(m.cellOf, base, stride, n);
    ghost var k := 0;
    var a := base;
    NoWrap(base, span, stride, 0);
    AddressStep(base, stride, 0);
    NoTags(m.cellOf, m.cells, base, stride);
    while InRegion(a, base, span)
      invariant a == Address(base, stride, k) && k <= n
      invariant HoldsTags(m.cellOf, m.cells, base, stride, k)
      decreases n - k
    {
      NoWrap(base, span, stride, k);
      ghost var before := m.cells;
      m.Write(a, Tag(a));
      OneMoreTag(m.cellOf, before, m.cells, base, stride, k);
      NoWrap(base, span, stride, k + 1);
      a, k := Next(a, stride), k + 1;
    }
    NoWrap(base, span, stride, k);
    a, k := base, 0;
    while InRegion(a, base, span)
      invariant a == Address(base, stride, k) && k <= n
      invariant HoldsTags(m.cellOf, m.cells, base, stride, n)
      invariant forall l :: 0 <= l < k ==> LastIn(m.cellOf, base, stride, n, m.cellOf(Address(base, stride, l))) == l
      decreases n - k
    {
      NoWrap(base, span, stride, k);
      ReadBack(m.cellOf, base, stride, n, k);
      TagHeld(m.cellOf, m.cells, base, stride, n, m.cellOf(a));
      var got := m.Read(a);
      if got != Tag(a) {
        return false;
      }
      NoWrap(base, span, stride, k + 1);
      a, k := Next(a, stride), k + 1;
    }
    NoWrap(base, span, stride, k);
    ok := true;
  }

  /** Every cell that the first n addresses reach holds the tag of the last of them that does. */
  ghost predicate HoldsTags(cellOf: nat -> nat, cells: map<nat, nat>, base: nat, stride: nat, n: nat) {
    forall cell: nat :: Right(cellOf, cells, base, stride, n, cell)
  }

  predicate Right(cellOf: nat -> nat, cells: map<nat, nat>, base: nat, stride: nat, n: nat, cell: nat) {
    var last := LastIn(cellOf, base, stride, n, cell);
    last >= 0 ==> cell in cells && cells[cell] == Tag(Address(base, stride, last))
  }

  lemma NoTags(cellOf: nat -> nat, cells: map<nat, nat>, base: nat, stride: nat)
    ensures HoldsTags(cellOf, cells, base, stride, 0)
  {
    hide Xor;
  }

  lemma OneMoreTag(cellOf: nat -> nat, cells: map<nat, nat>, cells': map<nat, nat>, base: nat, stride: nat, n: nat)
    requires HoldsTags(cellOf, cells, base, stride, n)
    requires var a := Address(base, stride, n); cells' == cells[cellOf(a) := Tag(a)]
    ensures HoldsTags(cellOf, cells', base, stride, n + 1)
  {
    hide Tag, Address;
    var more := n + 1;
    forall cell: nat
      ensures Right(cellOf, cells', base, stride, more, cell)
    {
      assert Right(cellOf, cells, base, stride, n, cell);
      assert LastIn(cellOf, base, stride, more, cell) ==
             if cellOf(Address(base, stride, n)) == cell then n else LastIn(cellOf, base, stride, n, cell);
    }
  }

  lemma {:induction false} TagHeld(cellOf: nat -> nat, cells: map<nat, nat>, base: nat, stride: nat, n: nat, cell: nat)
    requires HoldsTags(cellOf, cells, base, stride, n) && LastIn(cellOf, base, stride, n, cell) >= 0
    ensures cell in cells && cells[cell] == Tag(Address(base, stride, LastIn(cellOf, base, stride, n, cell)))
  {
    hide Tag;
    assert Right(cellOf, cells, base, stride, n, cell);
  }

  // ---- dense blocks ----

  const PATTERNS: seq<nat> := [0x00FF_00FF, 0xFF00_FF00, 0x55AA_55AA, 0xAA55_AA55, 0x0102_0408, 0x8040_2010]

  /** A 32-bit word as the set of its bits. */
  type Word = s: set<nat> | forall b <- s :: b < 32

  /** The bits of a number from bit i on. */
  function BitsFrom(v: nat, i: nat): (s: Word)
    requires i <= 32
    ensures forall b <- s :: i <= b < 32
    decreases 32 - i
  {
    if i == 32 then {} else (if v % 2 == 1 then {i} else {}) + BitsFrom(v / 2, i + 1)
  }

  function Bits(v: nat): Word { BitsFrom(v, 0) }

  function XorBits(a: Word, b: Word): Word { (a - b) + (b - a) }

  function Top(i: nat): nat
    requires i <= 32
    decreases 32 - i
  {
    if i == 32 then 0 else 2 * Top(i + 1) + 1
  }

  /** Subtracting from all ones flips every bit. */
  lemma {:induction false} FlipsAll(v: nat, i: nat)
    requires i <= 32 && v <= Top(i)
    ensures forall b :: i <= b < 32 ==> (b in BitsFrom(Top(i) - v, i) <==> b !in BitsFrom(v, i))
    decreases 32 - i
  {
    if i < 32 {
      var w := Top(i) - v;
      assert w / 2 == Top(i + 1) - v / 2 && w % 2 == 1 - v % 2;
      FlipsAll(v / 2, i + 1);
    }
  }

  lemma AllOnes()
    ensures Top(0) == 0xFFFF_FFFF
  {
    assert Top(24) == 0xFF;
    assert Top(16) == 0xFFFF;
    assert Top(8) == 0xFF_FFFF;
  }

  /** i << 24 */
  function Twist(i: nat): Word { Bits(i % 256 * 0x100_0000) }

  /** A memory word whose bits may be stuck: which, and at what. */
  datatype Fault = Fault(mask: Word, level: Word)

  /** What a faulty word reads back as. */
  function Seen(w: Word, f: Fault): Word { (w - f.mask) + (f.level * f.mask) }

  function Written(p: nat, i: nat): Word { XorBits(Bits(p), Twist(i)) }

  /** The first two patterns put every bit of every word at both levels. */
  lemma Opposed(i: nat)
    ensures forall b :: 0 <= b < 32 ==> (b in Written(0xFF00_FF00, i) <==> b !in Written(0x00FF_00FF, i))
  {
    hide BitsFrom, Top, Twist;
    AllOnes();
    FlipsAll(0x00FF_00FF, 0);
  }

  /** Two opposed words are both read only where no bit is stuck, and only if they are what was written. */
  lemma StuckShows(w: Word, v: Word, a: Word, b: Word, f: Fault)
    requires forall k :: 0 <= k < 32 ==> (k in b <==> k !in a)
    ensures Seen(w, f) == a && Seen(v, f) == b <==> f.mask == {} && w == a && v == b
  {
    if k :| k in f.mask {
      assert k in Seen(w, f) <==> k in f.level;
      assert k in Seen(v, f) <==> k in f.level;
      assert k < 32 && (k in b <==> k !in a);
    } else {
      FaithfulReads(w, f);
      FaithfulReads(v, f);
    }
  }

  // ---- the twist tells the words apart ----

  lemma {:induction false} BitsInjective(v: nat, w: nat, i: nat)
    requires i <= 32 && v <= Top(i) && w <= Top(i) && BitsFrom(v, i) == BitsFrom(w, i)
    ensures v == w
    decreases 32 - i
  {
    if i < 32 {
      assert i in BitsFrom(v, i) <==> v % 2 == 1;
      assert i in BitsFrom(w, i) <==> w % 2 == 1;
      assert BitsFrom(v / 2, i + 1) == BitsFrom(v, i) - {i} == BitsFrom(w, i) - {i} == BitsFrom(w / 2, i + 1);
      BitsInjective(v / 2, w / 2, i + 1);
    }
  }

  /** The top eight bits of a word are the low eight of its index, and the others are left alone. */
  lemma {:induction false} TwistIsIndex(i: nat)
    ensures Twist(i) == BitsFrom(i % 256, 24)
  {
    hide BitsFrom;
    var v := i % 256;
    Shifted(v * 0x100_0000, 0);
    Shifted(v * 0x1_0000, 8);
    Shifted(v * 0x100, 16);
  }

  /** Eight zeros at the end. */
  lemma Shifted(v: nat, i: nat)
    requires v % 256 == 0 && i + 8 <= 32
    ensures BitsFrom(v, i) == BitsFrom(v / 256, i + 8)
  {
    hide BitsFrom;
    var q := v / 256;
    assert v == 2 * (128 * q);
    Zero(128 * q, i);
    Zero(64 * q, i + 1);
    Zero(32 * q, i + 2);
    Zero(16 * q, i + 3);
    Zero(8 * q, i + 4);
    Zero(4 * q, i + 5);
    Zero(2 * q, i + 6);
    Zero(q, i + 7);
  }

  lemma {:induction false} Zero(q: nat, i: nat)
    requires i < 32
    ensures BitsFrom(2 * q, i) == BitsFrom(q, i + 1)
  {
    assert (2 * q) % 2 == 0 && (2 * q) / 2 == q;
  }

  lemma TwistTells(i: nat, j: nat)
    ensures Twist(i) == Twist(j) <==> i % 256 == j % 256
  {
    hide BitsFrom, Twist;
    TwistIsIndex(i);
    TwistIsIndex(j);
    assert Top(24) == 255;
    if Twist(i) == Twist(j) {
      BitsInjective(i % 256, j % 256, 24);
    }
  }

  lemma WrittenTells(p: nat, i: nat, j: nat)
    ensures Written(p, i) == Written(p, j) <==> i % 256 == j % 256
  {
    hide Twist, Bits;
    TwistTells(i, j);
    if Written(p, i) == Written(p, j) {
      forall b: nat
        ensures b in Twist(i) <==> b in Twist(j)
      {
        assert b in Written(p, i) <==> b in Written(p, j);
      }
    }
  }

  /** What the i-th read returns: the word that comes in its place, through the lines as they are. */
  function Got(p: nat, order: seq<nat>, faults: seq<Fault>, i: nat): Word
    requires i < |order| == |faults|
  {
    Seen(Written(p, order[i]), faults[i])
  }

  predicate Passes(faults: seq<Fault>, order: seq<nat>, p: nat, n: nat)
    requires n <= |faults| == |order|
  {
    forall i :: 0 <= i < n ==> Got(p, order, faults, i) == Written(p, i)
  }

  /** Both opposed patterns come back at a place only through whole lines, and from the word's own place up to
      multiples of 256. */
  lemma PairPasses(faults: seq<Fault>, order: seq<nat>, i: nat)
    requires i < |faults| == |order|
    ensures Got(0x00FF_00FF, order, faults, i) == Written(0x00FF_00FF, i) &&
            Got(0xFF00_FF00, order, faults, i) == Written(0xFF00_FF00, i)
            <==> faults[i].mask == {} && order[i] % 256 == i % 256
  {
    hide Written, Seen;
    Opposed(i);
    StuckShows(Written(0x00FF_00FF, order[i]), Written(0xFF00_FF00, order[i]),
               Written(0x00FF_00FF, i), Written(0xFF00_FF00, i), faults[i]);
    WrittenTells(0x00FF_00FF, i, order[i]);
    WrittenTells(0xFF00_FF00, i, order[i]);
  }

  /** dense_block: it passes if and only if no bit of the block is stuck and every word comes from its own place,
      up to multiples of 256 words. */
  method DenseBlock(words: array<Word>, faults: seq<Fault>, order: seq<nat>, bytes: nat) returns (ok: bool)
    requires |faults| == |order| == words.Length == bytes / 4 && forall k <- order :: k < words.Length
    modifies words
    ensures ok <==> (forall f <- faults :: f.mask == {}) && forall i :: 0 <= i < |order| ==> order[i] % 256 == i % 256
  {
    hide Twist, Seen, Written, Bits;
    for p := 0 to |PATTERNS|
      invariant forall q :: 0 <= q < p ==> Passes(faults, order, PATTERNS[q], |faults|)
    {
      for i := 0 to words.Length
        invariant forall j :: 0 <= j < i ==> words[j] == Written(PATTERNS[p], j)
      {
        words[i] := Written(PATTERNS[p], i);
      }
      for i := 0 to words.Length
        invariant Passes(faults, order, PATTERNS[p], i)
      {
        assert order[i] in order;
        var got := Seen(words[order[i]], faults[i]);
        if got != Written(PATTERNS[p], i) {
          FaithfulReads(Written(PATTERNS[p], order[i]), faults[i]);
          WrittenTells(PATTERNS[p], i, order[i]);
          assert faults[i] in faults;
          return false;
        }
      }
    }
    ok := true;
    assert Passes(faults, order, PATTERNS[0], |faults|) && Passes(faults, order, PATTERNS[1], |faults|);
    forall i | 0 <= i < |faults|
      ensures faults[i].mask == {} && order[i] % 256 == i % 256
    {
      PairPasses(faults, order, i);
    }
  }

  lemma FaithfulReads(w: Word, f: Fault)
    ensures f.mask == {} ==> Seen(w, f) == w
  {
  }

  /** The other patterns: two that oppose each other bit for bit, and two whose byte lanes have a single bit each,
      in all eight places. */
  lemma OtherPatterns()
    ensures PATTERNS[2] + PATTERNS[3] == 0xFFFF_FFFF && PATTERNS[2] / 256 == PATTERNS[3] % 0x100_0000
    ensures forall k :: 0 <= k < 4 ==> PATTERNS[4] / [1, 256, 65536, 0x100_0000][k] % 256 == [8, 4, 2, 1][k]
    ensures forall k :: 0 <= k < 4 ==> PATTERNS[5] / [1, 256, 65536, 0x100_0000][k] % 256 == [16, 32, 64, 128][k]
  {
  }
}

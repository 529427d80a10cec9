/** The phased-in variable-width code of the LZW stream.

    The code written while the dictionary holds n entries lies in 0..n-1.  It takes NumBits(n) bits,
    or one bit less when its low bits already exceed those of n-1: such a code cannot have the top bit
    set, so the reader can tell from the low bits alone how long the code was. */
module PhaseIn {
  import opened LittleEndian

  /** Width while n codes exist: 8 up to 256 codes, and one more whenever n outgrows the power of two. */
  function NumBits(n: nat): (b: nat)
    ensures b >= 8
  {
    if n <= 256 then 8
    else
      var b := NumBits(n - 1);
      if n > Pow2(b) then b + 1 else b
  }

  /** NumBits(n) is the least width, from 8 up, that can hold n codes. */
  lemma {:induction false} NumBitsTight(n: nat)
    ensures n <= Pow2(NumBits(n))
    ensures n > 256 ==> NumBits(n) > 8 && Pow2(NumBits(n) - 1) < n
  {
    Pow2Known();
    if n > 257 {
      NumBitsTight(n - 1);
    } else {
      assert NumBits(256) == 8;
    }
  }

  lemma {:induction false} NumBitsAtMost15(n: nat)
    requires n <= 32768
    ensures NumBits(n) <= 15
  {
    NumBitsTight(n);
    Pow2Known();
    if n > 256 && NumBits(n) >= 16 {
      Pow2Mono(15, NumBits(n) - 1);
    }
  }

  function Half(n: nat): (h: nat)
    ensures h >= 1 && 2 * h == Pow2(NumBits(n))
  {
    Pow2(NumBits(n) - 1)
  }

  /** The number of bits code c occupies while n codes exist. */
  function Width(c: nat, n: nat): (w: nat)
    requires n >= 1
    ensures w >= 7
  {
    if c % Half(n) > (n - 1) % Half(n) then NumBits(n) - 1 else NumBits(n)
  }

  lemma ModWithin(x: nat, h: nat)
    requires h >= 1 && x < 2 * h
    ensures x % h == if x < h then x else x - h
  {
    DivModUnique(x, h, if x < h then 0 else 1, if x < h then x else x - h);
  }

  /** A short code lies below the half, and every code fits in the bits it is given. */
  lemma {:induction false} WidthFits(c: nat, n: nat)
    requires c < n && n >= 256
    ensures Width(c, n) == NumBits(n) - 1 ==> c < Half(n)
    ensures c < Pow2(Width(c, n))
  {
    NumBitsTight(n);
    ModWithin(c, Half(n));
    ModWithin(n - 1, Half(n));
  }

  lemma ModMod(x: nat, h: nat)
    requires h >= 1
    ensures (x % (2 * h)) % h == x % h
  {
    var q, r := x / (2 * h), x % (2 * h);
    assert x == r + (2 * q) * h by {
      assert x == q * (2 * h) + r;
      assert q * (2 * h) == (2 * q) * h;
    }
    DivAddMultiple(r, h, 2 * q);
  }

  /** What the reader makes of the next NumBits(n) bits: a code and how many bits it used. */
  function ReadCode(peek: nat, n: nat): (code: nat)
    requires n >= 1
  {
    if peek % Half(n) > (n - 1) % Half(n) then peek % Half(n) else peek
  }

  /** Unique decodability: whatever follows the code, peeking NumBits(n) bits recovers the code and
      the width it was written with. */
  lemma {:induction false} PeekRecovers(c: nat, n: nat, rest: nat)
    requires n >= 256 && c < n
    ensures var peek := (c + Shl(rest, Width(c, n))) % Pow2(NumBits(n));
            ReadCode(peek, n) == c && (peek % Half(n) > (n - 1) % Half(n) <==> Width(c, n) == NumBits(n) - 1)
  {
    WidthFits(c, n);
    NumBitsTight(n);
    var h, w := Half(n), Width(c, n);
    var x := c + Shl(rest, w);
    ShlIsProduct(rest, w);
    DivAddMultiple(c, Pow2(w), rest);
    if w == NumBits(n) {
      DivModUnique(c, Pow2(w), 0, c);
    } else {
      DivModUnique(c, h, 0, c);
      ModMod(x, h);
    }
  }

  // ---- a whole stream of codes ----

  /** The k-th code of a stream is written while 256+k entries exist. */
  predicate InRange(codes: seq<nat>)
  {
    forall k :: 0 <= k < |codes| ==> codes[k] < 256 + k
  }

  function BitLen(codes: seq<nat>): nat
  {
    if codes == [] then 0
    else BitLen(codes[..|codes| - 1]) + Width(codes[|codes| - 1], 255 + |codes|)
  }

  /** The codes packed low bit first, as one number. */
  function Packed(codes: seq<nat>): nat
  {
    if codes == [] then 0
    else Packed(codes[..|codes| - 1]) + Shl(codes[|codes| - 1], BitLen(codes[..|codes| - 1]))
  }

  lemma {:induction false} PackedSnoc(codes: seq<nat>, c: nat)
    ensures Packed(codes + [c]) == Packed(codes) + Shl(c, BitLen(codes))
    ensures BitLen(codes + [c]) == BitLen(codes) + Width(c, 256 + |codes|)
  {
    hide Width, Shl;
    var longer := codes + [c];
    assert longer[..|longer| - 1] == codes;
  }

  lemma {:induction false} PackedBound(codes: seq<nat>)
    requires InRange(codes)
    ensures Packed(codes) < Pow2(BitLen(codes))
  {
    if codes != [] {
      var init, c := codes[..|codes| - 1], codes[|codes| - 1];
      PackedBound(init);
      WidthFits(c, 255 + |codes|);
      var w := Width(c, 255 + |codes|);
      Pow2Add(BitLen(init), w);
      ShlIsProduct(c, BitLen(init));
      StackBelow(Packed(init), Pow2(BitLen(init)), c, Pow2(w));
    }
  }

  lemma StackBelow(low: nat, p: nat, c: nat, m: nat)
    requires low < p && c < m
    ensures low + c * p < p * m
  {
    MulMono(p, c + 1, m);
    assert p * (c + 1) == c * p + p;
  }

  lemma {:induction false} BitLenMono(codes: seq<nat>, k: nat)
    requires k <= |codes|
    ensures BitLen(codes[..k]) + 7 * (|codes| - k) <= BitLen(codes)
  {
    if k < |codes| {
      BitLenMono(codes[..|codes| - 1], k);
      assert codes[..|codes| - 1][..k] == codes[..k];
    } else {
      assert codes[..k] == codes;
    }
  }

  /** What is left of a stream from its k-th code on, `rest` being whatever follows the stream. */
  function Tail(codes: seq<nat>, k: nat, rest: nat): nat
    requires k <= |codes|
    decreases |codes| - k
  {
    if k == |codes| then rest
    else codes[k] + Shl(Tail(codes, k + 1, rest), Width(codes[k], 256 + k))
  }

  /** Cutting a stream before its k-th code. */
  lemma {:induction false} Cut(codes: seq<nat>, k: nat, rest: nat)
    requires k <= |codes|
    ensures Packed(codes) + Shl(rest, BitLen(codes))
         == Packed(codes[..k]) + Shl(Tail(codes, k, rest), BitLen(codes[..k]))
    decreases |codes| - k
  {
    hide Packed, BitLen, Width, Shl;
    if k == |codes| {
      assert codes[..k] == codes;
    } else {
      var head, t := codes[..k], Tail(codes, k + 1, rest);
      Cut(codes, k + 1, rest);
      assert codes[..k + 1] == head + [codes[k]];
      CutOne(head, codes[k], t);
      assert Tail(codes, k, rest) == codes[k] + Shl(t, Width(codes[k], 256 + |head|));
    }
  }

  lemma {:induction false} CutOne(head: seq<nat>, c: nat, t: nat)
    ensures Packed(head + [c]) + Shl(t, BitLen(head + [c]))
         == Packed(head) + Shl(c + Shl(t, Width(c, 256 + |head|)), BitLen(head))
  {
    hide *;
    PackedSnoc(head, c);
    StackShl(c, t, BitLen(head), Width(c, 256 + |head|));
  }

  lemma StackShl(c: nat, t: nat, bits: nat, w: nat)
    ensures Shl(c + Shl(t, w), bits) == Shl(c, bits) + Shl(t, bits + w)
  {
    Pow2Add(bits, w);
    ShlIsProduct(t, w);
    ShlIsProduct(c + Shl(t, w), bits);
    ShlIsProduct(c, bits);
    ShlIsProduct(t, bits + w);
    Distribute(Pow2(bits), c, Pow2(w), t);
  }

  lemma Distribute(p: nat, c: nat, w: nat, t: nat)
    ensures (c + t * w) * p == c * p + t * (p * w)
  {
    assert (c + t * w) * p == c * p + (t * w) * p;
    assert (t * w) * p == t * (p * w);
  }

  lemma {:induction false} WholeTail(codes: seq<nat>, rest: nat)
    ensures Packed(codes) + Shl(rest, BitLen(codes)) == Tail(codes, 0, rest)
  {
    Cut(codes, 0, rest);
    assert codes[..0] == [];
    assert Shl(Tail(codes, 0, rest), 0) == Tail(codes, 0, rest);
  }

  /** Two streams of the same number of codes that agree as bit strings are the same stream,
      whatever follows either of them. */
  lemma {:induction false} UniquelyDecodable(a: seq<nat>, b: seq<nat>, restA: nat, restB: nat)
    requires InRange(a) && InRange(b) && |a| == |b|
    requires Packed(a) + Shl(restA, BitLen(a)) == Packed(b) + Shl(restB, BitLen(b))
    ensures a == b && restA == restB
  {
    WholeTail(a, restA);
    WholeTail(b, restB);
    TailsAgree(a, b, 0, restA, restB);
  }

  lemma {:induction false} ShlInjective(x: nat, y: nat, bits: nat)
    requires Shl(x, bits) == Shl(y, bits)
    ensures x == y
  {
    ShlIsProduct(x, bits);
    ShlIsProduct(y, bits);
    DivModUnique(Shl(x, bits), Pow2(bits), x, 0);
    DivModUnique(Shl(y, bits), Pow2(bits), y, 0);
  }

  lemma {:induction false} TailsAgree(a: seq<nat>, b: seq<nat>, k: nat, restA: nat, restB: nat)
    requires InRange(a) && InRange(b) && k <= |a| == |b|
    requires Tail(a, k, restA) == Tail(b, k, restB)
    ensures a[k..] == b[k..] && restA == restB
    decreases |a| - k
  {
    hide NumBits, Half, Width, ReadCode, Shl;
    if k < |a| {
      PeekRecovers(a[k], 256 + k, Tail(a, k + 1, restA));
      PeekRecovers(b[k], 256 + k, Tail(b, k + 1, restB));
      assert a[k] == b[k];
      ShlInjective(Tail(a, k + 1, restA), Tail(b, k + 1, restB), Width(a[k], 256 + k));
      TailsAgree(a, b, k + 1, restA, restB);
      assert a[k..] == [a[k]] + a[k + 1..];
      assert b[k..] == [b[k]] + b[k + 1..];
    }
  }
}

/** Byte buffers read as numbers: little-endian values, powers of two and the bitwise OR the
    firmware uses to place a value in a buffer. */
module LittleEndian {

  type byte = x: int | 0 <= x < 256
  type short = x: int | -0x8000 <= x < 0x8000

  // ---- powers of two and division ----

  function Pow2(n: nat): (p: nat)
    ensures p >= 1
  {
    if n == 0 then 1 else 2 * Pow2(n - 1)
  }

  /** x shifted left. */
  function Shl(x: nat, bits: nat): nat
  {
    if bits == 0 then x else 2 * Shl(x, bits - 1)
  }

  lemma {:induction false} ShlIsProduct(x: nat, bits: nat)
    ensures Shl(x, bits) == x * Pow2(bits)
  {
    if bits > 0 {
      ShlIsProduct(x, bits - 1);
    }
  }

  lemma MulMono(p: nat, a: int, b: int)
    ensures a <= b ==> p * a <= p * b
  {
    assert p * (b - a) == p * b - p * a;
  }

  lemma MulAssoc(a: int, b: int, c: int)
    ensures a * (b * c) == (a * b) * c
  {
  }

  lemma {:induction false} Pow2Add(a: nat, b: nat)
    ensures Pow2(a + b) == Pow2(a) * Pow2(b)
  {
    if a > 0 {
      Pow2Add(a - 1, b);
      assert Pow2(a + b) == 2 * Pow2(a - 1 + b);
      assert 2 * (Pow2(a - 1) * Pow2(b)) == (2 * Pow2(a - 1)) * Pow2(b);
    }
  }

  lemma {:induction false} Pow2Mono(a: nat, b: nat)
    requires a <= b
    ensures Pow2(a) <= Pow2(b)
    decreases b
  {
    if a < b {
      Pow2Mono(a, b - 1);
    }
  }

  lemma Pow2Known()
    ensures Pow2(0) == 1 && Pow2(7) == 128 && Pow2(8) == 256 && Pow2(15) == 32768 && Pow2(16) == 65536
    ensures Pow2(32) == 0x1_0000_0000
  {
    assert Pow2(8) == 256;
    Pow2Add(8, 8);
    Pow2Add(16, 16);
    Pow2Add(8, 7);
  }

  /** Floor division and remainder are determined by the decomposition x = q*m + r. */
  lemma DivModUnique(x: int, m: int, q: int, r: int)
    requires m > 0 && 0 <= r < m && x == q * m + r
    ensures x / m == q && x % m == r
  {
    var d := x / m - q;
    assert d * m == r - x % m;
    MulSign(d, m);
  }

  lemma MulSign(d: int, m: int)
    requires m > 0
    ensures d >= 1 ==> d * m >= m
    ensures d <= -1 ==> d * m <= -m
  {
    if d >= 1 {
      assert d * m == m + (d - 1) * m;
    } else if d <= -1 {
      assert d * m == -m + (d + 1) * m;
    }
  }

  lemma DivAddMultiple(x: int, m: int, q: int)
    requires m > 0
    ensures (x + q * m) / m == x / m + q && (x + q * m) % m == x % m
  {
    assert x + q * m == (x / m + q) * m + x % m;
    DivModUnique(x + q * m, m, x / m + q, x % m);
  }

  // ---- bitwise OR ----

  /** Bitwise OR of two non-negative numbers. */
  function Or(a: nat, b: nat): (c: nat)
    decreases a + b
  {
    if a == 0 then b
    else if b == 0 then a
    else (if a % 2 == 1 || b % 2 == 1 then 1 else 0) + 2 * Or(a / 2, b / 2)
  }

  /** Placing a value above all bits already set is plain addition. */
  lemma {:induction false} OrAbove(a: nat, c: nat, t: nat)
    requires a < Pow2(t)
    ensures Or(a, c * Pow2(t)) == a + c * Pow2(t)
  {
    if t > 0 && a > 0 && c > 0 {
      var b := c * Pow2(t);
      var b' := c * Pow2(t - 1);
      assert b == 2 * b';
      assert b' > 0;
      OrAbove(a / 2, c, t - 1);
    }
  }

  // ---- little-endian numbers ----

  function Num(s: seq<byte>): nat
  {
    if s == [] then 0 else s[0] as int + 256 * Num(s[1..])
  }

  lemma {:induction false} NumAppend(a: seq<byte>, b: seq<byte>)
    ensures Num(a + b) == Num(a) + Pow2(8 * |a|) * Num(b)
  {
    hide Pow2;
    Pow2Known();
    if a == [] {
      assert a + b == b;
    } else {
      assert (a + b)[1..] == a[1..] + b;
      NumAppend(a[1..], b);
      Pow2Add(8, 8 * |a[1..]|);
      MulAssoc(256, Pow2(8 * |a[1..]|), Num(b));
    }
  }

  lemma {:induction false} NumBound(s: seq<byte>)
    ensures Num(s) < Pow2(8 * |s|)
  {
    if s != [] {
      NumBound(s[1..]);
      Pow2Add(8, 8 * |s[1..]|);
      Pow2Known();
    }
  }

  lemma {:induction false} NumZero(s: seq<byte>)
    requires forall i :: 0 <= i < |s| ==> s[i] == 0
    ensures Num(s) == 0
  {
    if s != [] {
      NumZero(s[1..]);
    }
  }

  /** A number below 256^n has exactly one n-byte representation. */
  lemma {:induction false} NumInjective(a: seq<byte>, b: seq<byte>)
    requires |a| == |b| && Num(a) == Num(b)
    ensures a == b
  {
    if a != [] {
      DivModUnique(Num(a), 256, Num(a[1..]), a[0]);
      DivModUnique(Num(b), 256, Num(b[1..]), b[0]);
      NumInjective(a[1..], b[1..]);
      assert a == [a[0]] + a[1..];
      assert b == [b[0]] + b[1..];
    }
  }

  lemma {:induction false} NumFour(s: seq<byte>)
    requires |s| == 4
    ensures Num(s) == s[0] as int + 256 * s[1] as int + 65536 * s[2] as int + 16777216 * s[3] as int
  {
    assert s[1..][1..] == s[2..];
    assert s[2..][1..] == s[3..];
    assert s[3..][1..] == [];
    assert Num(s[3..]) == s[3];
    assert Num(s[2..]) == s[2] as int + 256 * Num(s[3..]);
    assert Num(s[1..]) == s[1] as int + 256 * Num(s[2..]);
  }

  /** A buffer splits around any four-byte window. */
  lemma {:induction false} NumWindow(s: seq<byte>, i: nat)
    requires i + 4 <= |s|
    ensures Num(s) == Num(s[..i]) + Pow2(8 * i) * (Num(s[i..i + 4]) + Pow2(32) * Num(s[i + 4..]))
  {
    hide *;
    assert s == s[..i] + (s[i..i + 4] + s[i + 4..]);
    NumAppend(s[..i], s[i..i + 4] + s[i + 4..]);
    NumAppend(s[i..i + 4], s[i + 4..]);
  }

  // Plain number facts behind the two window lemmas: p is the weight of the window, m the weight
  // of the bit inside it, w the window, hi everything above it.

  lemma WindowBelow(lo: nat, p: nat, m: nat, w: nat, big: nat, hi: nat)
    requires p >= 1 && m <= big
    requires lo + p * (w + big * hi) < p * m
    ensures w < m && hi == 0
  {
    MulMono(p, m, w + big * hi);
    MulMono(big, 1, hi);
  }

  lemma WindowDiv(lo: nat, p: nat, m: nat, x: nat, low: nat, rest: nat)
    requires p >= 1 && m >= 1 && lo < p
    requires lo + p * x == low + (p * m) * rest && low < p * m
    ensures x / m == rest
  {
    var q, r := x / m, x % m;
    assert x == q * m + r;
    SplitProduct(p, m, q, r);
    StaysBelow(lo, p, r, m);
    assert (p * m) * rest == rest * (p * m);
    SameQuotient(lo + p * x, p * m, q, lo + p * r, rest, low);
  }

  lemma StaysBelow(lo: nat, p: nat, r: nat, m: nat)
    requires lo < p && r < m
    ensures lo + p * r < p * m
  {
    MulMono(p, r + 1, m);
    assert p * (r + 1) == p * r + p;
  }

  lemma SameQuotient(y: nat, n: nat, q: nat, a: nat, rest: nat, low: nat)
    requires a < n && low < n && y == q * n + a == rest * n + low
    ensures q == rest
  {
    DivModUnique(y, n, q, a);
    DivModUnique(y, n, rest, low);
  }

  lemma SplitProduct(p: nat, m: nat, q: nat, r: nat)
    ensures p * (q * m + r) == q * (p * m) + p * r
  {
    assert p * (q * m + r) == p * (q * m) + p * r;
    assert p * (q * m) == q * (p * m);
  }

  /** If all bits from 8*i+t on are clear, the window at byte i holds less than 2^t. */
  lemma WindowClear(s: seq<byte>, i: nat, t: nat)
    requires t < 8 && i + 4 <= |s| && Num(s) < Pow2(8 * i + t)
    ensures Num(s[i..i + 4]) < Pow2(t) && Num(s[i + 4..]) == 0
  {
    hide *;
    NumWindow(s, i);
    Pow2Add(8 * i, t);
    Pow2Mono(t, 32);
    WindowBelow(Num(s[..i]), Pow2(8 * i), Pow2(t), Num(s[i..i + 4]), Pow2(32), Num(s[i + 4..]));
  }

  /** A code of at most 15 bits, shifted by up to 7, stays inside the window. */
  lemma {:induction false} OrFits(w: nat, c: nat, t: nat)
    requires t < 8 && w < Pow2(t) && c < 32768
    ensures Or(w, Shl(c, t)) < 0x1_0000_0000
  {
    ShlIsProduct(c, t);
    OrAbove(w, c, t);
    Pow2Known();
    Pow2Mono(t, 7);
    MulMono(c, Pow2(t), 128);
  }

  lemma TopZero(lo: nat, p: nat, x: nat)
    requires lo + p * x < p
    ensures x == 0
  {
    MulMono(p, 1, x);
  }

  /** OR-ing c, shifted left by t, into the window at byte i of a buffer whose bits from 8*i+t on
      are all clear adds c * 2^(8*i+t) to the buffer's value and disturbs nothing else. */
  lemma OrIntoWindow(s: seq<byte>, s': seq<byte>, i: nat, t: nat, c: nat)
    requires t < 8 && i + 4 <= |s| == |s'|
    requires Num(s) < Pow2(8 * i + t)
    requires s'[..i] == s[..i] && s'[i + 4..] == s[i + 4..]
    requires Num(s'[i..i + 4]) == Or(Num(s[i..i + 4]), Shl(c, t))
    ensures Num(s') == Num(s) + Shl(c, 8 * i + t)
  {
    hide *;
    NumWindow(s, i);
    NumWindow(s', i);
    WindowClear(s, i, t);
    Pow2Add(8 * i, t);
    ShlIsProduct(c, t);
    ShlIsProduct(c, 8 * i + t);
    OrAbove(Num(s[i..i + 4]), c, t);
    AddInWindow(Num(s[..i]), Pow2(8 * i), Num(s[i..i + 4]), c, Pow2(t), Pow2(32));
  }

  lemma AddInWindow(lo: nat, p: nat, w: nat, c: nat, m: nat, big: nat)
    ensures lo + p * (w + c * m + big * 0) == lo + p * (w + big * 0) + c * (p * m)
  {
    assert p * (w + c * m) == p * w + p * (c * m);
    assert p * (c * m) == c * (p * m);
  }

  /** Reading n bits at bit 8*i+t through the 32-bit window at byte i. */
  lemma ReadWindow(s: seq<byte>, i: nat, t: nat, n: nat, low: nat, rest: nat)
    requires t < 8 && t + n <= 32 && i + 4 <= |s|
    requires Num(s) == low + Pow2(8 * i + t) * rest && low < Pow2(8 * i + t)
    ensures (Num(s[i..i + 4]) / Pow2(t)) % Pow2(n) == rest % Pow2(n)
  {
    hide *;
    NumWindow(s, i);
    NumBound(s[..i]);
    Pow2Add(8 * i, t);
    var w, hi := Num(s[i..i + 4]), Num(s[i + 4..]);
    WindowDiv(Num(s[..i]), Pow2(8 * i), Pow2(t), w + Pow2(32) * hi, low, rest);
    DropHigh(w, hi, t, n);
  }

  /** Adding a multiple of 2^32 does not change bits t .. t+n-1. */
  lemma {:induction false} DropHigh(w: int, hi: int, t: nat, n: nat)
    requires t + n <= 32
    ensures ((w + Pow2(32) * hi) / Pow2(t)) % Pow2(n) == (w / Pow2(t)) % Pow2(n)
  {
    hide *;
    var k := 32 - t - n;
    Pow2Add(k + n, t);
    Pow2Add(k, n);
    MulShuffle(Pow2(k), Pow2(n), Pow2(t), hi);
    var u := Pow2(k) * hi;
    DivAddMultiple(w, Pow2(t), u * Pow2(n));
    DivAddMultiple(w / Pow2(t), Pow2(n), u);
  }

  lemma MulShuffle(a: int, b: int, c: int, h: int)
    ensures ((a * b) * c) * h == ((a * h) * b) * c
  {
    assert ((a * b) * c) * h == (a * b) * (c * h) == a * (b * (c * h));
    assert ((a * h) * b) * c == (a * h) * (b * c) == a * (h * (b * c));
    assert b * (c * h) == h * (b * c);
  }

  // ---- the firmware's byte-level accessors ----

  /** A 32-bit pattern seen as a signed C int. */
  function Signed32(u: int): int
    requires 0 <= u < 0x1_0000_0000
  {
    if u < 0x8000_0000 then u else u - 0x1_0000_0000
  }

  /** The sign of the 32-bit read does not reach the bits that are kept after the shift. */
  lemma {:induction false} SignedShiftMask(u: int, t: nat, n: nat)
    requires 0 <= u < 0x1_0000_0000 && t + n <= 32
    ensures (Signed32(u) / Pow2(t)) % Pow2(n) == (u / Pow2(t)) % Pow2(n)
  {
    hide Pow2;
    Pow2Known();
    if u >= 0x8000_0000 {
      DropHigh(u, -1, t, n);
    }
  }

  function Le32(s: seq<byte>, i: nat): (u: int)
    requires i + 4 <= |s|
    ensures 0 <= u < 0x1_0000_0000
    ensures u == Num(s[i..i + 4])
  {
    NumFour(s[i..i + 4]);
    s[i] as int + 256 * s[i + 1] as int + 65536 * s[i + 2] as int + 16777216 * s[i + 3] as int
  }

  /** read_le16 as int16_t. */
  function Le16(s: seq<byte>, i: nat): (v: short)
    requires i + 2 <= |s|
  {
    var u := s[i] as int + 256 * s[i + 1] as int;
    if u < 0x8000 then u else u - 0x1_0000
  }

  method WriteLe16(out: array<byte>, i: nat, v: nat)
    requires i + 2 <= out.Length && v < 0x8000
    modifies out
    ensures Le16(out[..], i) == v
    ensures forall j :: 0 <= j < out.Length && j != i && j != i + 1 ==> out[j] == old(out[j])
  {
    out[i] := v % 256;
    out[i + 1] := v / 256;
  }

  /** How a change of four bytes looks through the slice [lo..hi] of the buffer. */
  lemma WindowOfSlice(s: seq<byte>, s': seq<byte>, lo: nat, hi: nat, i: nat)
    requires lo <= i && i + 4 <= hi <= |s| == |s'|
    requires forall j :: 0 <= j < |s| && !(i <= j < i + 4) ==> s'[j] == s[j]
    ensures s[lo..hi][i - lo..i - lo + 4] == s[i..i + 4] && s'[lo..hi][i - lo..i - lo + 4] == s'[i..i + 4]
    ensures s'[lo..hi][..i - lo] == s[lo..hi][..i - lo]
    ensures s'[lo..hi][i - lo + 4..] == s[lo..hi][i - lo + 4..]
  {
    var k, m := i - lo, hi - lo;
    SliceOfSlice(s, lo, hi, 0, k);
    SliceOfSlice(s, lo, hi, k, k + 4);
    SliceOfSlice(s, lo, hi, k + 4, m);
    SliceOfSlice(s', lo, hi, 0, k);
    SliceOfSlice(s', lo, hi, k, k + 4);
    SliceOfSlice(s', lo, hi, k + 4, m);
    assert s'[lo..i] == s[lo..i];
    assert s'[i + 4..hi] == s[i + 4..hi];
  }

  lemma SliceOfSlice(s: seq<byte>, lo: nat, hi: nat, c: nat, d: nat)
    requires c <= d && lo + d <= hi <= |s|
    ensures s[lo..hi][c..d] == s[lo + c..lo + d]
  {
    var left, right := s[lo..hi][c..d], s[lo + c..lo + d];
    forall j | 0 <= j < d - c
      ensures left[j] == right[j]
    {
      assert s[lo..hi][c + j] == s[lo + (c + j)];
    }
  }

  method OrLe32(out: array<byte>, i: nat, v: nat)
    requires i + 4 <= out.Length
    requires Or(Num(out[i..i + 4]), v) < 0x1_0000_0000
    modifies out
    ensures Num(out[i..i + 4]) == Or(old(Num(out[i..i + 4])), v)
    ensures forall j :: 0 <= j < out.Length && !(i <= j < i + 4) ==> out[j] == old(out[j])
  {
    assert out[..][i..i + 4] == out[i..i + 4];
    var u: nat := Or(Le32(out[..], i), v);
    WriteLe32(out, i, u);
  }

  method WriteLe32(out: array<byte>, i: nat, u: nat)
    requires i + 4 <= out.Length && u < 0x1_0000_0000
    modifies out
    ensures Num(out[i..i + 4]) == u
    ensures forall j :: 0 <= j < out.Length && !(i <= j < i + 4) ==> out[j] == old(out[j])
  {
    var b0, b1, b2, b3 := Digits(u);
    out[i], out[i + 1], out[i + 2], out[i + 3] := b0, b1, b2, b3;
    NumFour(out[i..i + 4]);
  }

  method Digits(u: nat) returns (b0: byte, b1: byte, b2: byte, b3: byte)
    requires u < 0x1_0000_0000
    ensures u == b0 as int + 256 * b1 as int + 65536 * b2 as int + 16777216 * b3 as int
  {
    b0, b1 := u % 256, u / 256 % 256;
    b2, b3 := u / 256 / 256 % 256, u / 256 / 256 / 256;
  }
}

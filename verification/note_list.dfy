/** Note lists: the printer in the MIDI usage script and the parser in the bank converter. */
module NoteList {
  import opened Common

  const NOTES := 128
  const SLOTS := 256

  datatype Range = Range(lo: nat, hi: nat)

  // ---- runs of consecutive notes ----

  /** The notes of a set in order, as sorted() lists them. */
  function Ordered(s: set<nat>, lo: nat): seq<nat>
    requires lo <= NOTES
    decreases NOTES - lo
  {
    if lo == NOTES then [] else (if lo in s then [lo] else []) + Ordered(s, lo + 1)
  }

  lemma {:induction false} OrderedHas(s: set<nat>, lo: nat, n: nat)
    requires lo <= NOTES
    ensures n in Ordered(s, lo) <==> lo <= n < NOTES && n in s
    decreases NOTES - lo
  {
    if lo < NOTES {
      OrderedHas(s, lo + 1, n);
    }
  }

  lemma {:induction false} OrderedIsSorted(s: set<nat>, lo: nat)
    requires lo <= NOTES
    ensures forall i, j :: 0 <= i < j < |Ordered(s, lo)| ==> Ordered(s, lo)[i] < Ordered(s, lo)[j]
    decreases NOTES - lo
  {
    if lo < NOTES {
      OrderedIsSorted(s, lo + 1);
      var rest := Ordered(s, lo + 1);
      forall i | 0 <= i < |rest|
        ensures rest[i] > lo
      {
        OrderedHas(s, lo + 1, rest[i]);
      }
    }
  }

  predicate Increasing(xs: seq<nat>) {
    forall i, j :: 0 <= i < j < |xs| ==> xs[i] < xs[j]
  }

  /** The notes that a list of ranges stands for. */
  predicate Covers(rs: seq<Range>, n: nat) {
    exists i :: 0 <= i < |rs| && rs[i].lo <= n <= rs[i].hi
  }

  /** Ranges in increasing order with a gap before each: none can be extended or joined. */
  predicate Maximal(rs: seq<Range>) {
    (forall i :: 0 <= i < |rs| ==> rs[i].lo <= rs[i].hi) &&
    forall i :: 0 < i < |rs| ==> rs[i - 1].hi + 1 < rs[i].lo
  }

  // ---- numbers in text ----

  function Dec(n: nat): (s: string)
    ensures |s| > 0 && forall c <- s :: '0' <= c <= '9'
    ensures n > 0 ==> s[0] != '0'
    ensures n == 0 ==> s == "0"
  {
    if n < 10 then [('0' as int + n) as char] else Dec(n / 10) + [('0' as int + n % 10) as char]
  }

  function Show(r: Range): string { if r.lo == r.hi then Dec(r.lo) else Dec(r.lo) + "-" + Dec(r.hi) }

  function Digit(c: char): int {
    if '0' <= c <= '9' then c as int - '0' as int
    else if 'a' <= c <= 'f' then c as int - 'a' as int + 10
    else if 'A' <= c <= 'F' then c as int - 'A' as int + 10
    else -1
  }

  function Digits(s: string, i: nat, base: nat, acc: nat): (r: (nat, nat))
    requires i <= |s|
    ensures i <= r.1 <= |s|
    decreases |s| - i
  {
    if i < |s| && 0 <= Digit(s[i]) < base then Digits(s, i + 1, base, acc * base + Digit(s[i])) else (acc, i)
  }

  function IsSpace(c: char): bool { c in {' ', '\t', '\n', '\r', 11 as char, 12 as char} }

  function SkipSpaces(s: string, i: nat): (j: nat)
    requires i <= |s|
    ensures i <= j <= |s|
    decreases |s| - i
  {
    if i < |s| && IsSpace(s[i]) then SkipSpaces(s, i + 1) else i
  }

  /** strtol with base 0: decimal, octal after a 0, hexadecimal after 0x; the value and where it ends, which
      is 0 if there is no number. */
  function StrToL(s: string): (int, nat) {
    var i := SkipSpaces(s, 0);
    var signed := i < |s| && s[i] in {'+', '-'};
    var j := if signed then i + 1 else i;
    if j >= |s| || !(0 <= Digit(s[j]) < 10) then (0, 0)
    else
      var r :=
        if s[j] == '0' && j + 2 < |s| && s[j + 1] in {'x', 'X'} && Digit(s[j + 2]) >= 0 then Digits(s, j + 2, 16, 0)
        else if s[j] == '0' then Digits(s, j, 8, 0)
        else Digits(s, j, 10, 0);
      var v: int := r.0;
      (if signed && s[i] == '-' then -v else v, r.1)
  }

  /** parse_number_token; None for the error exit. */
  function ParseNumber(s: string): Option<nat> {
    var r := StrToL(s);
    if r.1 == 0 || r.1 != |s| then None
    else if r.0 < 0 || r.0 > 255 then None
    else Some(r.0)
  }

  lemma {:induction false} DigitsOfDec(n: nat, rest: string)
    ensures Digits(Dec(n) + rest, 0, 10, 0) == Digits(Dec(n) + rest, |Dec(n)|, 10, n)
  {
    if n >= 10 {
      var c := ('0' as int + n % 10) as char;
      assert Dec(n) + rest == Dec(n / 10) + ([c] + rest);
      DigitsOfDec(n / 10, [c] + rest);
      assert (Dec(n) + rest)[|Dec(n / 10)|] == c && Digit(c) == n % 10;
    }
  }

  /** What the printer writes, the parser reads, leading zeros and all. */
  lemma {:induction false} NumberRoundTrip(n: nat)
    requires n <= 255
    ensures ParseNumber(Dec(n)) == Some(n)
  {
    var s := Dec(n);
    assert s[0] in s && !IsSpace(s[0]);
    assert SkipSpaces(s, 0) == 0;
    if n == 0 {
      assert Digits(s, 0, 8, 0) == Digits(s, 1, 8, 0) == (0, 1);
    } else {
      DigitsOfDec(n, "");
      assert s + "" == s;
      assert StrToL(s) == (n, |s|);
    }
  }

  // ---- which texts are numbers ----

  /** How a number may be written: blanks, a sign, and decimal, octal or hexadecimal digits. */
  datatype Numeral = Numeral(blanks: string, sign: string, base: nat, prefix: string, digits: string)

  const LOWER := "0123456789abcdef"
  const UPPER := "0123456789ABCDEF"

  /** The character for a digit, in either case. */
  predicate Stands(c: char, d: nat) { d < 16 && (c == LOWER[d] || c == UPPER[d]) }

  ghost predicate IsNumeral(n: Numeral) {
    (forall c <- n.blanks :: c == ' ' || 9 <= c as int <= 13) && n.sign in {"", "+", "-"} && n.digits != "" &&
    (forall c <- n.digits :: exists d: nat :: d < n.base && Stands(c, d)) &&
    ((n.base == 10 && n.prefix == "" && n.digits[0] != '0') || (n.base == 8 && n.prefix == "" && n.digits[0] == '0') ||
     (n.base == 16 && n.prefix in {"0x", "0X"}))
  }

  function Text(n: Numeral): string { n.blanks + n.sign + n.prefix + n.digits }

  /** Digits and their value. */
  ghost predicate Means(digits: string, base: nat, v: nat)
    decreases |digits|
  {
    if digits == "" then v == 0
    else
      var front, last := digits[..|digits| - 1], digits[|digits| - 1];
      exists d: nat :: d < base && Stands(last, d) && exists rest: nat :: Means(front, base, rest) && v == rest * base + d
  }

  function Signed(sign: string, v: nat): int { if sign == "-" then 0 - v else v }

  lemma DigitStands(c: char, d: nat)
    ensures Stands(c, d) <==> Digit(c) == d
  {
    assert LOWER[..10] == UPPER[..10] == "0123456789";
    if d < 10 {
      assert LOWER[d] == UPPER[d] == ('0' as int + d) as char;
    } else if d < 16 {
      assert LOWER[d] == ('a' as int + (d - 10)) as char && UPPER[d] == ('A' as int + (d - 10)) as char;
    }
  }

  /** The digits from i on have all been read, and their value is the number they stand for. */
  lemma {:induction false} DigitsMean(s: string, i: nat, base: nat, k: nat)
    requires i <= k <= |s| && forall j :: i <= j < k ==> 0 <= Digit(s[j]) < base
    ensures exists v: nat :: Means(s[i..k], base, v) && Digits(s, i, base, 0) == Digits(s, k, base, v)
    decreases k
  {
    hide Digits, Means, Digit;
    if i == k {
      NothingMeans(base);
      assert s[i..k] == "";
    } else {
      DigitsMean(s, i, base, k - 1);
      var rest: nat :| Means(s[i..k - 1], base, rest) && Digits(s, i, base, 0) == Digits(s, k - 1, base, rest);
      var d: nat := Digit(s[k - 1]);
      DigitsStep(s, k - 1, base, rest);
      DigitStands(s[k - 1], d);
      assert s[i..k] == s[i..k - 1] + [s[k - 1]];
      MeansSnoc(s[i..k - 1], s[k - 1], base, rest, d);
    }
  }

  lemma {:induction false} NothingMeans(base: nat)
    ensures Means("", base, 0)
  {
  }

  lemma DigitsStep(s: string, k: nat, base: nat, acc: nat)
    requires k < |s| && 0 <= Digit(s[k]) < base
    ensures Digits(s, k, base, acc) == Digits(s, k + 1, base, acc * base + Digit(s[k]))
  {
  }

  lemma MeansSnoc(front: string, c: char, base: nat, rest: nat, d: nat)
    requires Means(front, base, rest) && d < base && Stands(c, d)
    ensures Means(front + [c], base, rest * base + d)
  {
    var digits := front + [c];
    assert digits[..|digits| - 1] == front && digits[|digits| - 1] == c;
    hide Means;
    MeansIs(digits, base, rest, d);
  }

  lemma {:induction false} MeansIs(digits: string, base: nat, rest: nat, d: nat)
    requires digits != "" && d < base && Stands(digits[|digits| - 1], d)
    requires Means(digits[..|digits| - 1], base, rest)
    ensures Means(digits, base, rest * base + d)
  {
  }

  lemma {:induction false} DigitsReachEnd(s: string, i: nat, base: nat, acc: nat)
    requires i <= |s| && Digits(s, i, base, acc).1 == |s|
    ensures forall j :: i <= j < |s| ==> 0 <= Digit(s[j]) < base
    decreases |s| - i
  {
    if i < |s| {
      DigitsReachEnd(s, i + 1, base, acc * base + Digit(s[i]));
    }
  }

  lemma {:induction false} MeansOne(digits: string, base: nat, v: nat, w: nat)
    requires Means(digits, base, v) && Means(digits, base, w)
    ensures v == w
    decreases |digits|
  {
    if digits != "" {
      var front, c := digits[..|digits| - 1], digits[|digits| - 1];
      var d: nat :| d < base && Stands(c, d) && exists rest: nat :: Means(front, base, rest) && v == rest * base + d;
      var r: nat :| Means(front, base, r) && v == r * base + d;
      var e: nat :| e < base && Stands(c, e) && exists rest: nat :: Means(front, base, rest) && w == rest * base + e;
      var q: nat :| Means(front, base, q) && w == q * base + e;
      DigitStands(c, d);
      DigitStands(c, e);
      MeansOne(front, base, r, q);
    }
  }

  lemma {:induction false} BlanksSkipped(s: string, i: nat, k: nat)
    requires i <= k <= |s| && (forall j :: i <= j < k ==> IsSpace(s[j])) && (k < |s| ==> !IsSpace(s[k]))
    ensures SkipSpaces(s, i) == k
    decreases k - i
  {
    if i < k {
      BlanksSkipped(s, i + 1, k);
    }
  }

  lemma {:induction false} SkippedAreBlank(s: string, i: nat)
    requires i <= |s|
    ensures var k := SkipSpaces(s, i); (forall j :: i <= j < k ==> IsSpace(s[j])) && (k < |s| ==> !IsSpace(s[k]))
    decreases |s| - i
  {
    if i < |s| && IsSpace(s[i]) {
      SkippedAreBlank(s, i + 1);
    }
  }

  lemma SpaceIs(c: char)
    ensures IsSpace(c) <==> c == ' ' || 9 <= c as int <= 13
  {
  }

  /** strtol reads every number to its end, with its sign. */
  lemma {:induction false} NumeralReads(n: Numeral, v: nat)
    requires IsNumeral(n) && Means(n.digits, n.base, v)
    ensures StrToL(Text(n)) == (Signed(n.sign, v), |Text(n)|)
  {
    hide Digits, Means, Stands;
    NumeralParts(n);
    BlanksSkipped(Text(n), 0, |n.blanks|);
    DigitsPart(n, v);
    DigitsBelow(n);
    NotHex(n);
  }

  /** No digits but hexadecimal ones follow something like 0x. */
  lemma NotHex(n: Numeral)
    requires IsNumeral(n)
    ensures var s, j := Text(n), |n.blanks| + |n.sign|;
            s[j] == '0' && j + 1 < |s| && s[j + 1] in {'x', 'X'} ==> n.base == 16
  {
    var s, j := Text(n), |n.blanks| + |n.sign|;
    DigitsBelow(n);
    if n.prefix == "" && j + 1 < |s| {
      assert s[j + 1] == n.digits[1];
    }
  }

  lemma DigitsPart(n: Numeral, v: nat)
    requires IsNumeral(n) && Means(n.digits, n.base, v)
    ensures Digits(Text(n), |n.blanks| + |n.sign| + |n.prefix|, n.base, 0) == (v, |Text(n)|)
  {
    hide Digits, Means, Digit, Stands;
    var s, at := Text(n), |n.blanks| + |n.sign| + |n.prefix|;
    assert s[at..] == n.digits;
    DigitsBelow(n);
    assert forall j :: at <= j < |s| ==> s[j] == n.digits[j - at];
    DigitsMean(s, at, n.base, |s|);
    var w: nat :| Means(s[at..|s|], n.base, w) && Digits(s, at, n.base, 0) == Digits(s, |s|, n.base, w);
    assert s[at..|s|] == n.digits;
    MeansOne(n.digits, n.base, v, w);
    DigitsDone(s, n.base, v);
  }

  lemma DigitsBelow(n: Numeral)
    requires IsNumeral(n)
    ensures forall j :: 0 <= j < |n.digits| ==> 0 <= Digit(n.digits[j]) < n.base
  {
    forall j | 0 <= j < |n.digits|
      ensures 0 <= Digit(n.digits[j]) < n.base
    {
      assert n.digits[j] in n.digits;
      var d: nat :| d < n.base && Stands(n.digits[j], d);
      DigitStands(n.digits[j], d);
    }
  }

  lemma {:induction false} DigitsDone(s: string, base: nat, v: nat)
    ensures Digits(s, |s|, base, v) == (v, |s|)
  {
  }

  /** Where the parts of a number stand in its text. */
  lemma NumeralParts(n: Numeral)
    requires IsNumeral(n)
    ensures var s, i, at := Text(n), |n.blanks|, |n.blanks| + |n.sign| + |n.prefix|;
            at < |s| && (forall j :: 0 <= j < i ==> IsSpace(s[j])) && !IsSpace(s[i]) &&
            (n.sign == "" ==> s[i] !in {'+', '-'}) && (n.sign != "" ==> s[i] == n.sign[0]) &&
            (n.prefix != "" ==> s[at - 2] == '0' && s[at - 1] in {'x', 'X'}) && s[at] == n.digits[0]
  {
    var s, i := Text(n), |n.blanks|;
    forall j | 0 <= j < i
      ensures IsSpace(s[j])
    {
      assert s[j] == n.blanks[j];
      assert n.blanks[j] in n.blanks;
      SpaceIs(s[j]);
    }
    assert n.digits[0] in n.digits;
    var d: nat :| d < n.base && Stands(n.digits[0], d);
    DigitStands(n.digits[0], d);
  }

  /** How strtol takes a text apart: blanks up to i, a sign up to j, a prefix up to at, then digits. */
  lemma TakenApart(s: string) returns (i: nat, j: nat, at: nat, base: nat)
    requires s != "" && StrToL(s).1 == |s|
    ensures i <= j <= at < |s| && (forall k :: 0 <= k < i ==> IsSpace(s[k]))
    ensures s[i..j] in {"", "+", "-"}
    ensures (base == 10 && at == j && s[at] != '0') || (base == 8 && at == j && s[at] == '0') ||
            (base == 16 && at == j + 2 && s[j] == '0' && s[j + 1] in {'x', 'X'})
    ensures StrToL(s) == (Signed(s[i..j], Digits(s, at, base, 0).0), Digits(s, at, base, 0).1)
  {
    hide Digits, IsSpace;
    i := SkipSpaces(s, 0);
    SkippedAreBlank(s, 0);
    hide SkipSpaces;
    var signed := i < |s| && s[i] in {'+', '-'};
    j := if signed then i + 1 else i;
    assert s[i..j] == if signed then [s[i]] else "";
    var hex := s[j] == '0' && j + 2 < |s| && s[j + 1] in {'x', 'X'} && Digit(s[j + 2]) >= 0;
    base := if hex then 16 else if s[j] == '0' then 8 else 10;
    at := if hex then j + 2 else j;
  }

  /** And nothing else: what strtol reads to the end is such a number. */
  lemma OnlyNumerals(s: string)
    requires s != "" && StrToL(s).1 == |s|
    ensures exists n: Numeral, v: nat ::
              IsNumeral(n) && Text(n) == s && Means(n.digits, n.base, v) && StrToL(s).0 == Signed(n.sign, v)
  {
    hide Digits, Means, StrToL, IsNumeral, Digit;
    var i, j, at, base := TakenApart(s);
    DigitsReachEnd(s, at, base, 0);
    DigitsMean(s, at, base, |s|);
    var v: nat :| Means(s[at..|s|], base, v) && Digits(s, at, base, 0) == Digits(s, |s|, base, v);
    DigitsDone(s, base, v);
    assert s[at..|s|] == s[at..];
    var n := Numeral(s[..i], s[i..j], base, s[j..at], s[at..]);
    assert at == j + 2 ==> s[j..at] == [s[j], s[j + 1]];
    PartsAreNumeral(s, n, i, j, at);
    Whole(s, i, j, at);
  }

  lemma Whole(s: string, i: nat, j: nat, at: nat)
    requires i <= j <= at <= |s|
    ensures s[..i] + s[i..j] + s[j..at] + s[at..] == s
  {
  }

  lemma PartsAreNumeral(s: string, n: Numeral, i: nat, j: nat, at: nat)
    requires i <= j <= at < |s| && n.blanks == s[..i] && n.digits == s[at..] && n.sign in {"", "+", "-"}
    requires forall k :: 0 <= k < i ==> IsSpace(s[k])
    requires forall k :: at <= k < |s| ==> 0 <= Digit(s[k]) < n.base
    requires (n.base == 10 && n.prefix == "" && s[at] != '0') || (n.base == 8 && n.prefix == "" && s[at] == '0') ||
             (n.base == 16 && n.prefix in {"0x", "0X"})
    ensures IsNumeral(n)
  {
    forall c | c in n.blanks
      ensures c == ' ' || 9 <= c as int <= 13
    {
      SpaceIs(c);
    }
    forall c | c in n.digits
      ensures exists d: nat :: d < n.base && Stands(c, d)
    {
      var k :| 0 <= k < |n.digits| && n.digits[k] == c;
      assert s[at + k] == c;
      var d: nat := Digit(c);
      DigitStands(c, d);
    }
  }

  /** A token is taken as a number if and only if it is one from 0 to 255, in any of the three bases. */
  lemma {:induction false} NumberIff(s: string, v: nat)
    ensures ParseNumber(s) == Some(v) <==>
            v <= 255 &&
            exists n: Numeral ::
              IsNumeral(n) && Text(n) == s && Means(n.digits, n.base, v) && (n.sign == "-" ==> v == 0)
  {
    hide StrToL, Means;
    if ParseNumber(s) == Some(v) {
      NoText();
      OnlyNumerals(s);
      var n: Numeral, w: nat :|
        IsNumeral(n) && Text(n) == s && Means(n.digits, n.base, w) && StrToL(s).0 == Signed(n.sign, w);
    }
    if n: Numeral :| v <= 255 && IsNumeral(n) && Text(n) == s && Means(n.digits, n.base, v) && (n.sign == "-" ==> v == 0) {
      NumeralReads(n, v);
      NumeralParts(n);
    }
  }

  lemma NoText()
    ensures StrToL("").1 == 0
  {
  }

  // ---- tokens ----

  function IsSeparator(c: char): bool { c in {',', ' ', '\t', '\r', '\n'} }

  function WordLength(s: string): (k: nat)
    ensures k <= |s| && (s != "" && !IsSeparator(s[0]) ==> k > 0)
  {
    if s == "" || IsSeparator(s[0]) then 0 else 1 + WordLength(s[1..])
  }

  /** What strtok hands out, one call after the other. */
  function Tokens(s: string): seq<string>
    decreases |s|
  {
    if s == "" then []
    else if IsSeparator(s[0]) then Tokens(s[1..])
    else [s[..WordLength(s)]] + Tokens(s[WordLength(s)..])
  }

  function Join(xs: seq<string>): string {
    if xs == [] then "" else if |xs| == 1 then xs[0] else xs[0] + "," + Join(xs[1..])
  }

  predicate IsWord(x: string) { x != "" && forall c <- x :: !IsSeparator(c) }

  lemma {:induction false} WordLengthIs(x: string, rest: string)
    requires (forall c <- x :: !IsSeparator(c)) && (rest == "" || IsSeparator(rest[0]))
    ensures WordLength(x + rest) == |x|
  {
    if x == "" {
      assert x + rest == rest;
    } else {
      assert (x + rest)[1..] == x[1..] + rest;
      assert x[0] in x;
      WordLengthIs(x[1..], rest);
    }
  }

  lemma {:induction false} TokensOfJoin(xs: seq<string>)
    requires forall x <- xs :: IsWord(x)
    ensures Tokens(Join(xs)) == xs
  {
    if xs != [] {
      var x, rest := xs[0], if |xs| == 1 then "" else "," + Join(xs[1..]);
      assert IsWord(x) && x[0] in x;
      assert Join(xs) == x + rest;
      WordLengthIs(x, rest);
      assert (x + rest)[..|x|] == x && (x + rest)[|x|..] == rest;
      if |xs| > 1 {
        TokensOfJoin(xs[1..]);
        assert rest[1..] == Join(xs[1..]);
      }
    }
  }

  // ---- one token ----

  /** strchr for a dash. */
  function DashAt(s: string): (k: nat)
    ensures k <= |s| && (k < |s| ==> s[k] == '-') && forall c <- s[..k] :: c != '-'
  {
    if s == "" || s[0] == '-' then 0
    else
      var k := 1 + DashAt(s[1..]);
      assert s[..k] == [s[0]] + s[1..][..k - 1];
      k
  }

  /** The range that a token keeps; None for the error exits. */
  function ParseToken(s: string): Option<Range> {
    var k := DashAt(s);
    if k == |s| then
      var n := ParseNumber(s);
      if n.None? || n.value >= NOTES then None else Some(Range(n.value, n.value))
    else
      var lo, hi := ParseNumber(s[..k]), ParseNumber(s[k + 1..]);
      if lo.None? || hi.None? || hi.value < lo.value || hi.value >= NOTES then None
      else Some(Range(lo.value, hi.value))
  }

  lemma {:induction false} DashAfter(x: string, rest: string)
    requires (forall c <- x :: c != '-') && (rest == "" || rest[0] == '-')
    ensures DashAt(x + rest) == |x|
  {
    if x == "" {
      assert x + rest == rest;
    } else {
      assert (x + rest)[1..] == x[1..] + rest;
      assert x[0] in x && forall c <- x[1..] :: c in x;
      DashAfter(x[1..], rest);
    }
  }

  lemma TokenRoundTrip(r: Range)
    requires r.lo <= r.hi < NOTES
    ensures ParseToken(Show(r)) == Some(r) && IsWord(Show(r))
  {
    hide Dec, ParseNumber;
    NumberRoundTrip(r.lo);
    NumberRoundTrip(r.hi);
    if r.lo == r.hi {
      DashAfter(Dec(r.lo), "");
      assert Dec(r.lo) + "" == Dec(r.lo);
    } else {
      var rest := "-" + Dec(r.hi);
      assert Show(r) == Dec(r.lo) + rest;
      DashAfter(Dec(r.lo), rest);
      assert Show(r)[..|Dec(r.lo)|] == Dec(r.lo);
      assert Show(r)[|Dec(r.lo)| + 1..] == Dec(r.hi);
    }
  }

  // ---- the printer ----

  function ShowAll(rs: seq<Range>): (xs: seq<string>)
    ensures |xs| == |rs| && forall i :: 0 <= i < |rs| ==> xs[i] == Show(rs[i])
  {
    seq(|rs|, i requires 0 <= i < |rs| => Show(rs[i]))
  }

  /** The runs of consecutive notes, one note after the other. */
  function Runs(xs: seq<nat>): (rs: seq<Range>)
    ensures xs != [] ==> rs != [] && rs[|rs| - 1].hi == xs[|xs| - 1]
  {
    if xs == [] then []
    else
      var rs, n := Runs(xs[..|xs| - 1]), xs[|xs| - 1];
      if rs != [] && n == rs[|rs| - 1].hi + 1 then rs[..|rs| - 1] + [Range(rs[|rs| - 1].lo, n)]
      else rs + [Range(n, n)]
  }

  /** The runs of increasing notes cover just these notes, and none of them can be extended or joined. */
  lemma {:induction false} RunsAreMaximal(xs: seq<nat>)
    requires Increasing(xs)
    ensures Maximal(Runs(xs)) && forall n :: Covers(Runs(xs), n) <==> n in xs
  {
    hide Maximal, Covers, Increasing, Runs;
    if xs == [] {
      NoRuns();
    } else {
      var k := |xs| - 1;
      var front, note := xs[..k], xs[k];
      assert xs[..k + 1] == xs;
      FrontIncreases(xs);
      RunsAreMaximal(front);
      RunsStep(xs, k, if front == [] then [] else Runs(front)[..|Runs(front)| - 1]);
      if front == [] {
        assert xs == [note];
        forall n
          ensures Covers([] + [Range(note, note)], n) <==> n in xs
        {
          NoRuns();
          CoversSnoc([], Range(note, note), n);
        }
        NoRuns();
        MaximalSnoc([], Range(note, note));
      } else {
        var rs := Runs(front);
        var last, others := rs[|rs| - 1], rs[..|rs| - 1];
        assert rs == others + [last] && last.hi == front[k - 1];
        NoneIsEmpty(rs);
        CoversOneMore(others, last.lo, last.hi, note, xs, k);
      }
    }
  }

  lemma NoRuns()
    ensures Runs([]) == [] && Maximal([]) && forall n :: !Covers([], n)
  {
  }

  lemma FrontIncreases(xs: seq<nat>)
    requires xs != [] && Increasing(xs)
    ensures Increasing(xs[..|xs| - 1])
  {
  }

  lemma NoneIsEmpty(rs: seq<Range>)
    requires Maximal(rs)
    ensures forall i :: 0 <= i < |rs| ==> rs[i].lo <= rs[i].hi
  {
  }

  /** fmt_notes; ordered is sorted(notes). */
  method FmtNotes(ordered: seq<nat>) returns (text: string)
    ensures text == Join(ShowAll(Runs(ordered)))
  {
    if |ordered| == 0 {
      return "";
    }
    hide Show;
    ghost var rs: seq<Range> := [];
    var ranges: seq<string> := [];
    var start, prev := ordered[0], ordered[0];
    RunsStep(ordered, 0, []);
    for k := 1 to |ordered|
      invariant prev == ordered[k - 1] && ranges == ShowAll(rs) && Runs(ordered[..k]) == rs + [Range(start, prev)]
    {
      var note := ordered[k];
      RunsStep(ordered, k, rs);
      if note == prev + 1 {
        prev := note;
      } else {
        ranges := ranges + [if start == prev then Dec(start) else Dec(start) + "-" + Dec(prev)];
        Shown(rs, Range(start, prev), ranges);
        rs := rs + [Range(start, prev)];
        start, prev := note, note;
      }
    }
    ranges := ranges + [if start == prev then Dec(start) else Dec(start) + "-" + Dec(prev)];
    Shown(rs, Range(start, prev), ranges);
    assert ordered[..|ordered|] == ordered;
    text := Join(ranges);
  }

  lemma RunsStep(xs: seq<nat>, k: nat, rs: seq<Range>)
    requires k < |xs|
    ensures k == 0 ==> Runs(xs[..1]) == [Range(xs[0], xs[0])] == [] + [Range(xs[0], xs[0])]
    ensures k > 0 && Runs(xs[..k]) != [] && Runs(xs[..k])[..|Runs(xs[..k])| - 1] == rs ==>
              var last := Runs(xs[..k])[|Runs(xs[..k])| - 1];
              Runs(xs[..k + 1]) ==
              if xs[k] == last.hi + 1 then rs + [Range(last.lo, xs[k])] else rs + [last] + [Range(xs[k], xs[k])]
  {
    assert xs[..k + 1][..k] == xs[..k];
    var before := Runs(xs[..k]);
    if k > 0 {
      assert before == before[..|before| - 1] + [before[|before| - 1]];
    }
  }

  lemma Shown(rs: seq<Range>, r: Range, xs: seq<string>)
    requires xs == ShowAll(rs) + [if r.lo == r.hi then Dec(r.lo) else Dec(r.lo) + "-" + Dec(r.hi)]
    ensures xs == ShowAll(rs + [r])
  {
  }

  /** The next note either extends the open range or starts a new one beyond a gap. */
  lemma CoversOneMore(rs: seq<Range>, start: nat, prev: nat, note: nat, ordered: seq<nat>, k: nat)
    requires Increasing(ordered) && 1 <= k < |ordered| && note == ordered[k] && start <= prev == ordered[k - 1]
    requires Maximal(rs + [Range(start, prev)])
    requires forall n :: Covers(rs + [Range(start, prev)], n) <==> n in ordered[..k]
    ensures note == prev + 1 ==>
              Maximal(rs + [Range(start, note)]) &&
              forall n :: Covers(rs + [Range(start, note)], n) <==> n in ordered[..k + 1]
    ensures note != prev + 1 ==>
              Maximal(rs + [Range(start, prev)] + [Range(note, note)]) &&
              forall n :: Covers(rs + [Range(start, prev)] + [Range(note, note)], n) <==> n in ordered[..k + 1]
  {
    hide Covers, Maximal, Increasing;
    assert ordered[k - 1] < ordered[k] by {
      IncreasingAt(ordered, k);
    }
    var before := rs + [Range(start, prev)];
    MaximalSnoc(rs, Range(start, prev));
    MaximalSnoc(rs, Range(start, note));
    MaximalSnoc(before, Range(note, note));
    forall n
      ensures n in ordered[..k + 1] <==> n in ordered[..k] || n == note
      ensures note == prev + 1 ==> (Covers(rs + [Range(start, note)], n) <==> n in ordered[..k + 1])
      ensures Covers(before + [Range(note, note)], n) <==> n in ordered[..k + 1]
    {
      assert ordered[..k + 1] == ordered[..k] + [note];
      CoversSnoc(rs, Range(start, prev), n);
      CoversSnoc(rs, Range(start, note), n);
      CoversSnoc(before, Range(note, note), n);
    }
  }

  lemma IncreasingAt(xs: seq<nat>, k: nat)
    requires Increasing(xs) && 1 <= k < |xs|
    ensures xs[k - 1] < xs[k]
  {
  }

  lemma CoversSnoc(rs: seq<Range>, r: Range, n: nat)
    ensures Covers(rs + [r], n) <==> Covers(rs, n) || r.lo <= n <= r.hi
  {
    if i :| 0 <= i < |rs| && rs[i].lo <= n <= rs[i].hi {
      assert (rs + [r])[i] == rs[i];
    }
    if r.lo <= n <= r.hi {
      assert (rs + [r])[|rs|] == r;
    }
  }

  lemma MaximalSnoc(rs: seq<Range>, r: Range)
    ensures Maximal(rs + [r]) <==>
            Maximal(rs) && r.lo <= r.hi && (rs != [] ==> rs[|rs| - 1].hi + 1 < r.lo)
  {
    var more := rs + [r];
    if Maximal(more) {
      forall i | 0 <= i < |rs|
        ensures rs[i].lo <= rs[i].hi && (i > 0 ==> rs[i - 1].hi + 1 < rs[i].lo)
      {
        assert more[i] == rs[i] && (i > 0 ==> more[i - 1] == rs[i - 1]);
      }
      assert more[|rs|] == r && (rs != [] ==> more[|rs| - 1] == rs[|rs| - 1]);
    }
  }

  // ---- the parser ----

  /** What a list of tokens keeps, if each is a range of notes. */
  predicate AllParse(tokens: seq<string>) {
    forall t <- tokens :: ParseToken(t).Some?
  }

  predicate Kept(tokens: seq<string>, n: nat) {
    exists i :: 0 <= i < |tokens| && ParseToken(tokens[i]).Some? &&
                ParseToken(tokens[i]).value.lo <= n <= ParseToken(tokens[i]).value.hi
  }

  class Usage {
    const slotKeep: array<bool>
    const noteFilter: array<bool>
    const noteKeep: array2<bool>

    predicate Shape() {
      slotKeep.Length == noteFilter.Length == SLOTS && noteKeep.Length0 == SLOTS && noteKeep.Length1 == NOTES &&
      slotKeep != noteFilter
    }

    /** usage_keep_note; false for the error exit. */
    method KeepNote(slot: nat, note: nat) returns (ok: bool)
      requires Shape()
      modifies slotKeep, noteFilter, noteKeep
      ensures ok <==> slot < SLOTS && note < NOTES
      ensures ok ==> slotKeep[slot] && noteFilter[slot]
      ensures forall i, n :: 0 <= i < SLOTS && 0 <= n < NOTES ==>
                noteKeep[i, n] == (old(noteKeep[i, n]) || (ok && i == slot && n == note))
    {
      if note > 127 || slot >= SLOTS {
        return false;
      }
      slotKeep[slot] := true;
      noteFilter[slot] := true;
      noteKeep[slot, note] := true;
      ok := true;
    }

    /** usage_parse_notes; false for the error exits. */
    method ParseNotes(slot: nat, text: string) returns (ok: bool)
      requires Shape() && slot < SLOTS
      modifies slotKeep, noteFilter, noteKeep
      ensures ok <==> Tokens(text) != [] && AllParse(Tokens(text))
      ensures ok ==> noteFilter[slot] &&
                     forall i, n :: 0 <= i < SLOTS && 0 <= n < NOTES ==>
                       noteKeep[i, n] == (old(noteKeep[i, n]) || (i == slot && Kept(Tokens(text), n)))
    {
      hide Tokens, ParseToken, Kept;
      var tokens := Tokens(text);
      if tokens == [] {
        return false;
      }
      KeptNone();
      for k := 0 to |tokens|
        invariant AllParse(tokens[..k]) && (k > 0 ==> noteFilter[slot])
        invariant forall i, n :: 0 <= i < SLOTS && 0 <= n < NOTES ==>
                    noteKeep[i, n] == (old(noteKeep[i, n]) || (i == slot && Kept(tokens[..k], n)))
      {
        KeptSnoc(tokens[..k], tokens[k]);
        assert tokens[..k + 1] == tokens[..k] + [tokens[k]];
        var one := KeepToken(slot, tokens[k]);
        if !one {
          assert tokens[k] in tokens;
          return false;
        }
      }
      assert tokens[..|tokens|] == tokens;
      ok := true;
    }

    /** One turn of the parser's loop. */
    method KeepToken(slot: nat, token: string) returns (ok: bool)
      requires Shape() && slot < SLOTS
      modifies slotKeep, noteFilter, noteKeep
      ensures ok <==> ParseToken(token).Some?
      ensures ok ==> noteFilter[slot] &&
                     forall i, n :: 0 <= i < SLOTS && 0 <= n < NOTES ==>
                       noteKeep[i, n] == (old(noteKeep[i, n]) ||
                                          (i == slot && ParseToken(token).value.lo <= n <= ParseToken(token).value.hi))
    {
      hide ParseNumber, DashAt;
      var dash := DashAt(token);
      if dash < |token| {
        var lo, hi := ParseNumber(token[..dash]), ParseNumber(token[dash + 1..]);
        if lo.None? || hi.None? || hi.value < lo.value {
          return false;
        }
        var n := lo.value;
        while n <= hi.value
          invariant lo.value <= n <= hi.value + 1 && (n == lo.value || n <= NOTES) && (n > lo.value ==> noteFilter[slot])
          invariant forall i, m :: 0 <= i < SLOTS && 0 <= m < NOTES ==>
                      noteKeep[i, m] == (old(noteKeep[i, m]) || (i == slot && lo.value <= m < n))
        {
          var kept := KeepNote(slot, n);
          if !kept {
            return false;
          }
          n := n + 1;
        }
        ok := true;
      } else {
        var n := ParseNumber(token);
        if n.None? {
          return false;
        }
        ok := KeepNote(slot, n.value);
      }
    }
  }

  lemma KeptNone()
    ensures forall n: nat :: !Kept([], n)
    ensures forall xs: seq<string>, n: nat :: !Kept(xs[..0], n)
  {
  }

  lemma KeptSnoc(tokens: seq<string>, t: string)
    ensures AllParse(tokens + [t]) <==> AllParse(tokens) && ParseToken(t).Some?
    ensures forall n: nat ::
              Kept(tokens + [t], n) <==>
              Kept(tokens, n) || (ParseToken(t).Some? && ParseToken(t).value.lo <= n <= ParseToken(t).value.hi)
  {
    hide ParseToken;
    var more := tokens + [t];
    assert more[|tokens|] == t;
    assert forall i :: 0 <= i < |tokens| ==> more[i] == tokens[i];
    assert AllParse(more) ==> forall x <- tokens :: x in more;
  }

  // ---- the round trip ----

  /** The parser takes every list of ranges that the printer writes, and keeps what it covers. */
  lemma ListRoundTrip(rs: seq<Range>)
    requires forall r <- rs :: r.lo <= r.hi < NOTES
    ensures Tokens(Join(ShowAll(rs))) == ShowAll(rs) && AllParse(ShowAll(rs))
    ensures forall n: nat :: Kept(ShowAll(rs), n) <==> Covers(rs, n)
  {
    hide ParseToken, Show, Tokens, Join;
    forall i | 0 <= i < |rs|
      ensures ParseToken(ShowAll(rs)[i]) == Some(rs[i]) && IsWord(ShowAll(rs)[i])
    {
      assert rs[i] in rs;
      TokenRoundTrip(rs[i]);
    }
    TokensOfJoin(ShowAll(rs));
    forall n: nat
      ensures Kept(ShowAll(rs), n) <==> Covers(rs, n)
    {
      if i :| 0 <= i < |rs| && rs[i].lo <= n <= rs[i].hi {
        assert ParseToken(ShowAll(rs)[i]).value == rs[i];
      }
    }
  }

  /** Every set of notes that is not empty comes back from its own note list, and nothing else is kept. */
  method RoundTrip(u: Usage, slot: nat, notes: set<nat>) returns (ok: bool)
    requires u.Shape() && slot < SLOTS && notes != {} && forall n <- notes :: n < NOTES
    requires forall n :: 0 <= n < NOTES ==> !u.noteKeep[slot, n]
    modifies u.slotKeep, u.noteFilter, u.noteKeep
    ensures ok && u.noteFilter[slot]
    ensures forall n :: 0 <= n < NOTES ==> (u.noteKeep[slot, n] <==> n in notes)
  {
    hide Ordered, Tokens, Join, ShowAll, Maximal, Kept, Runs;
    OrderedIsSorted(notes, 0);
    forall n: nat
      ensures n in Ordered(notes, 0) <==> n < NOTES && n in notes
    {
      OrderedHas(notes, 0, n);
    }
    var text := FmtNotes(Ordered(notes, 0));
    ghost var rs := Runs(Ordered(notes, 0));
    RunsAreMaximal(Ordered(notes, 0));
    CoveredFit(rs, notes);
    ListRoundTrip(rs);
    var some :| some in notes;
    assert Covers(rs, some);
    assert ShowAll(rs) != [];
    ok := u.ParseNotes(slot, text);
  }

  lemma CoveredFit(rs: seq<Range>, notes: set<nat>)
    requires Maximal(rs) && (forall n <- notes :: n < NOTES) && forall n: nat :: Covers(rs, n) ==> n in notes
    ensures forall r <- rs :: r.lo <= r.hi < NOTES
  {
    forall i | 0 <= i < |rs|
      ensures rs[i].lo <= rs[i].hi < NOTES
    {
      assert Covers(rs, rs[i].hi);
    }
  }
}

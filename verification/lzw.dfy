/** The Build-engine LZW codec: the compressor's child/sibling trie, the reader's table that runs one
    entry behind it, and the bit buffer between them. */
module Lzw {
  import opened LittleEndian
  import opened PhaseIn
  import opened LzwSpec

  const LZW_SIZE := 16384
  const LZW_BUF_SIZE := LZW_SIZE + LZW_SIZE / 16

  // ---- what a compressed image is ----

  /** The codes the compressor writes: those of the input and one more copy of the last. */
  function Written(data: seq<byte>): seq<nat>
    requires data != []
  {
    ParseLength([], [], data, 0);
    Codes(data) + [Codes(data)[|Codes(data)| - 1]]
  }

  function BytesFor(bits: nat): nat { (bits + 7) / 8 }

  function CodedSize(data: seq<byte>): nat
    requires data != []
  {
    BytesFor(32 + BitLen(Written(data)))
  }

  /** The image of an input, to the byte: coded when that is shorter than the input, raw otherwise. */
  predicate IsImage(img: seq<byte>, data: seq<byte>)
    requires data != []
  {
    |img| >= 4 && Le16(img, 0) == |data| &&
    if CodedSize(data) < |data| then
      |img| == CodedSize(data) && Le16(img, 2) == 256 + |Codes(data)| && Num(img[4..]) == Packed(Written(data))
    else
      |img| == |data| + 4 && Le16(img, 2) == 0 && img[4..] == data
  }

  /** What the reader relies on: a raw copy, or a stream of codes followed by anything at all. */
  ghost predicate Carries(img: seq<byte>, data: seq<byte>)
  {
    |img| >= 4 && Le16(img, 0) == |data| &&
    if Le16(img, 2) == 0 then
      |img| >= |data| + 4 && img[4..4 + |data|] == data
    else
      exists codes, rest :: CodedAs(img, data, codes, rest)
  }

  predicate CodedAs(img: seq<byte>, data: seq<byte>, codes: seq<nat>, rest: nat)
    requires |img| >= 4
  {
    codes != [] && InRange(codes) && Le16(img, 2) == 256 + |codes| &&
    Decode(codes) == data && 32 + BitLen(codes) + 8 <= 8 * |img| &&
    Num(img[4..]) == Packed(codes) + Shl(rest, BitLen(codes))
  }

  lemma CodedCarries(img: seq<byte>, data: seq<byte>)
    requires data != [] && |img| >= 4 && |img| == CodedSize(data) && Le16(img, 2) == 256 + |Codes(data)|
    requires Num(img[4..]) == Packed(Written(data))
    ensures CodedAs(img, data, Codes(data), Written(data)[|Codes(data)|])
  {
    DecodeUndoesCodes(data);
    var codes := Codes(data);
    var last := Written(data)[|codes|];
    PackedSnoc(codes, last);
    DummyWidth(last, 256 + |codes|);
  }

  /** Every image the compressor writes carries its input. */
  lemma ImageCarries(img: seq<byte>, data: seq<byte>)
    requires data != [] && IsImage(img, data)
    ensures Carries(img, data)
  {
    if CodedSize(data) < |data| {
      CodedCarries(img, data);
    }
  }

  lemma DummyWidth(c: nat, n: nat)
    requires n > 256
    ensures Width(c, n) >= 8
  {
    NumBitsTight(n);
  }

  /** An image carries only one input: nothing else decodes from it. */
  lemma CarriesIsFunctional(img: seq<byte>, data: seq<byte>, data': seq<byte>)
    requires Carries(img, data) && Carries(img, data')
    ensures data == data'
  {
    if Le16(img, 2) != 0 {
      var codes, rest :| CodedAs(img, data, codes, rest);
      var codes', rest' :| CodedAs(img, data', codes', rest');
      UniquelyDecodable(codes, codes', rest, rest');
    }
  }

  lemma SameHeader(a: seq<byte>, b: seq<byte>)
    requires |a| >= 4 && |b| >= 4 && a[4..] == b[4..]
    requires Le16(a, 0) == Le16(b, 0) && Le16(a, 2) == Le16(b, 2)
    ensures a == b
  {
    assert forall i :: 0 <= i < |a| ==> a[i] == b[i] by {
      forall i | 4 <= i < |a|
        ensures a[i] == b[i]
      {
        assert a[4..][i - 4] == b[4..][i - 4];
      }
    }
  }

  /** The image of an input is determined to the byte. */
  lemma ImageIsFunctional(img: seq<byte>, img': seq<byte>, data: seq<byte>)
    requires data != [] && IsImage(img, data) && IsImage(img', data)
    ensures img == img'
  {
    if CodedSize(data) < |data| {
      NumInjective(img[4..], img'[4..]);
    }
    SameHeader(img, img');
  }

  // ---- child lists ----

  lemma {:induction false} FirstChildSnoc(parents: seq<nat>, a: nat, b: nat, from: nat)
    requires from <= |parents|
    ensures FirstChild(parents + [a], b, from)
         == if FirstChild(parents, b, from) != -1 then FirstChild(parents, b, from)
            else if a == b then 256 + |parents| else -1
    decreases |parents| - from
  {
    if from < |parents| && parents[from] != b {
      FirstChildSnoc(parents, a, b, from + 1);
    } else if from == |parents| {
      assert FirstChild(parents + [a], b, from + 1) == -1;
    }
  }

  /** One step of a descent, by what the search for a child finds. */
  lemma DescendStep(parents: seq<nat>, chars: seq<byte>, data: seq<byte>, q: nat, a: nat)
    requires |chars| == |parents| && q <= |data| && a < 256 + |parents|
    ensures Descend(parents, chars, data, q, a)
         == if q == |data| || Child(parents, chars, a, data[q], 0) < 0 then (a, q)
            else Descend(parents, chars, data, q + 1, Child(parents, chars, a, data[q], 0))
  {
  }

  lemma {:induction false} NoChild(parents: seq<nat>, chars: seq<byte>, a: nat, x: byte)
    requires |chars| == |parents| && FirstChild(parents, a, 0) == -1
    ensures Child(parents, chars, a, x, 0) == -1
  {
  }

  class LzwCodec {
    const buf1: array<byte>
    const buf2: array<short>
    const buf3: array<short>

    ghost predicate Sized() {
      buf1.Length == buf2.Length == buf3.Length == LZW_BUF_SIZE && buf2 != buf3
    }

    constructor ()
      ensures Sized() && fresh(buf1) && fresh(buf2) && fresh(buf3)
    {
      buf1 := new byte[LZW_BUF_SIZE](_ => 0);
      buf2 := new short[LZW_BUF_SIZE](_ => 0);
      buf3 := new short[LZW_BUF_SIZE](_ => 0);
    }

    // ---- the trie ----

    ghost predicate Chars(chars: seq<byte>)
      requires Sized()
      reads buf1
    {
      256 + |chars| <= LZW_BUF_SIZE && forall e :: 256 <= e < 256 + |chars| ==> buf1[e] == chars[e - 256]
    }

    /** buf2 holds the first child of each of the first n codes. */
    ghost predicate Heads(parents: seq<nat>, n: nat)
      requires Sized() && n <= LZW_BUF_SIZE
      reads buf2
    {
      forall a :: 0 <= a < n ==> buf2[a] == FirstChild(parents, a, 0)
    }

    /** buf3 holds the next child of the same parent for each of the first n entries. */
    ghost predicate Siblings(parents: seq<nat>, n: nat)
      requires Sized() && n <= |parents| && 256 + n <= LZW_BUF_SIZE
      reads buf3
    {
      forall e :: 256 <= e < 256 + n ==> buf3[e] == FirstChild(parents, parents[e - 256], e - 255)
    }

    ghost predicate Trie(parents: seq<nat>, chars: seq<byte>)
      requires Sized()
      reads buf1, buf2, buf3
    {
      |chars| == |parents| && 256 + |parents| < LZW_BUF_SIZE && InRange(parents) &&
      Chars(chars) && Heads(parents, 256 + |parents|) && Siblings(parents, |parents|)
    }

    method InitTrie()
      requires Sized()
      modifies buf1, buf2, buf3
      ensures Trie([], [])
    {
      var i := 255;
      while i >= 0
        invariant -1 <= i <= 255
      {
        buf1[i] := i;
        buf3[i] := (i + 1) % 256;
        i := i - 1;
      }
      for j := 0 to 256
        invariant forall a :: 0 <= a < j ==> buf2[a] == -1
      {
        buf2[j] := -1;
      }
    }

    /** Walk the children of addr for byte x; append the new entry to the list if there is none. */
    method FindChild(addr: nat, x: byte, addrcnt: nat, ghost parents: seq<nat>, ghost chars: seq<byte>)
      returns (newaddr: nat)
      requires Sized() && Trie(parents, chars) && addrcnt == 256 + |parents|
      requires addr < addrcnt && FirstChild(parents, addr, 0) >= 0
      modifies buf3
      ensures 256 <= newaddr < addrcnt
      ensures buf3[newaddr] != addrcnt ==>
                Trie(parents, chars) && newaddr == Child(parents, chars, addr, x, 0)
      ensures buf3[newaddr] == addrcnt ==>
                Child(parents, chars, addr, x, 0) == -1 &&
                Heads(parents + [addr], addrcnt) && Siblings(parents + [addr], |parents|) && Chars(chars)
    {
      newaddr := buf2[addr];
      while buf1[newaddr] != x
        invariant 256 <= newaddr < addrcnt && parents[newaddr - 256] == addr
        invariant forall j :: 0 <= j < newaddr - 256 ==> parents[j] != addr || chars[j] != x
        invariant Trie(parents, chars)
        decreases addrcnt - newaddr
      {
        var zx := buf3[newaddr];
        if zx < 0 {
          buf3[newaddr] := addrcnt;
          LinkedLast(newaddr, addr, parents);
          return;
        }
        newaddr := zx;
      }
    }

    /** Appending an entry below the last child keeps every list exact. */
    lemma {:induction false} LinkedLast(last: nat, addr: nat, parents: seq<nat>)
      requires Sized() && InRange(parents) && 256 + |parents| < LZW_BUF_SIZE
      requires 256 <= last < 256 + |parents| && parents[last - 256] == addr && FirstChild(parents, addr, last - 255) == -1
      requires Heads(parents, 256 + |parents|)
      requires forall e :: 256 <= e < 256 + |parents| && e != last ==>
                 buf3[e] == FirstChild(parents, parents[e - 256], e - 255)
      requires buf3[last] == 256 + |parents|
      ensures Heads(parents + [addr], 256 + |parents|) && Siblings(parents + [addr], |parents|)
    {
      forall a | 0 <= a < 256 + |parents|
        ensures FirstChild(parents + [addr], a, 0) == FirstChild(parents, a, 0)
      {
        FirstChildSnoc(parents, addr, a, 0);
      }
      forall e | 256 <= e < 256 + |parents|
        ensures buf3[e] == FirstChild(parents + [addr], (parents + [addr])[e - 256], e - 255)
      {
        FirstChildSnoc(parents, addr, parents[e - 256], e - 255);
      }
    }

    /** Start the child list of a code that has none. */
    method LinkFirst(addr: nat, addrcnt: nat, ghost parents: seq<nat>, ghost chars: seq<byte>)
      requires Sized() && Trie(parents, chars) && addrcnt == 256 + |parents|
      requires addr < addrcnt && buf2[addr] < 0
      modifies buf2
      ensures Chars(chars) && Heads(parents + [addr], addrcnt) && Siblings(parents + [addr], |parents|)
    {
      buf2[addr] := addrcnt;
      forall a | 0 <= a < 256 + |parents|
        ensures buf2[a] == FirstChild(parents + [addr], a, 0)
      {
        FirstChildSnoc(parents, addr, a, 0);
      }
      forall e | 256 <= e < 256 + |parents|
        ensures buf3[e] == FirstChild(parents + [addr], (parents + [addr])[e - 256], e - 255)
      {
        FirstChildSnoc(parents, addr, parents[e - 256], e - 255);
      }
    }

    /** One phrase: descend while the input follows the trie, then hang the new entry below the code
        reached (unless the input is exhausted). */
    method FindPhrase(input: array<byte>, inLen: nat, start: nat, addrcnt: nat,
                      ghost parents: seq<nat>, ghost chars: seq<byte>)
      returns (addr: nat, pos: nat)
      requires Sized() && Trie(parents, chars) && addrcnt == 256 + |parents|
      requires start < inLen <= input.Length && input != buf1
      modifies buf2, buf3
      ensures start < pos && (addr, pos) == Descend(parents, chars, input[..inLen], start + 1, input[start])
      ensures Chars(chars)
      ensures pos < inLen ==> Heads(parents + [addr], addrcnt) && Siblings(parents + [addr], |parents|)
    {
      hide Descend, Child, FirstChild, InRange;
      ghost var data := input[..inLen];
      ghost var goal := Descend(parents, chars, data, start + 1, data[start]);
      addr, pos := input[start], start;
      while true
        invariant start <= pos < inLen && addr < addrcnt && data == input[..inLen]
        invariant Trie(parents, chars)
        invariant goal == Descend(parents, chars, data, pos + 1, addr)
        decreases inLen - pos
      {
        pos := pos + 1;
        DescendStep(parents, chars, data, pos, addr);
        if pos == inLen {
          return;
        }
        if buf2[addr] < 0 {
          NoChild(parents, chars, addr, input[pos]);
          LinkFirst(addr, addrcnt, parents, chars);
          return;
        }
        var newaddr := FindChild(addr, input[pos], addrcnt, parents, chars);
        if buf3[newaddr] == addrcnt {
          return;
        }
        addr := newaddr;
      }
    }

    /** Record the new entry, childless and last in its list. */
    method AddEntry(addrcnt: nat, x: byte, ghost addr: nat, ghost parents: seq<nat>, ghost chars: seq<byte>)
      requires Sized() && addrcnt == 256 + |parents| && |chars| == |parents| && addrcnt + 1 < LZW_BUF_SIZE
      requires InRange(parents + [addr]) && Chars(chars)
      requires Heads(parents + [addr], addrcnt) && Siblings(parents + [addr], |parents|)
      modifies buf1, buf2, buf3
      ensures Trie(parents + [addr], chars + [x])
    {
      buf1[addrcnt] := x;
      buf2[addrcnt] := -1;
      buf3[addrcnt] := -1;
      assert FirstChild(parents + [addr], addrcnt, 0) == -1 by {
        assert forall j :: 0 <= j < |parents + [addr]| ==> (parents + [addr])[j] < 256 + j;
      }
    }

    // ---- the bit buffer ----

    /** OR one code into the output at bit position bitcnt. */
    method Emit(out: array<byte>, bitcnt: nat, code: nat, ghost codes: seq<nat>, ghost zlen: nat)
      requires InRange(codes) && code < 256 + |codes| <= 32768
      requires bitcnt == 32 + BitLen(codes) && bitcnt / 8 + 4 <= zlen <= out.Length
      requires Num(out[4..zlen]) == Packed(codes)
      modifies out
      ensures Num(out[4..zlen]) == Packed(codes + [code])
      ensures forall j :: 0 <= j < out.Length && !(bitcnt / 8 <= j < bitcnt / 8 + 4) ==> out[j] == old(out[j])
    {
      hide *;
      var i, t := bitcnt / 8, bitcnt % 8;
      ghost var was, k := out[..], i - 4;
      WindowOfSlice(was, was, 4, zlen, i);
      EmitFits(was[4..zlen], codes, code, k, t);
      OrLe32(out, i, Shl(code, t));
      WindowOfSlice(was, out[..], 4, zlen, i);
      Emitted(was[4..zlen], out[..][4..zlen], codes, code, k, t);
    }

    lemma {:induction false} EmitFits(was: seq<byte>, codes: seq<nat>, code: nat, k: nat, t: nat)
      requires InRange(codes) && code < 256 + |codes| <= 32768
      requires BitLen(codes) == 8 * k + t && t < 8 && k + 4 <= |was|
      requires Num(was) == Packed(codes)
      ensures Or(Num(was[k..k + 4]), Shl(code, t)) < 0x1_0000_0000
    {
      hide *;
      PackedBound(codes);
      WindowClear(was, k, t);
      OrFits(Num(was[k..k + 4]), code, t);
    }

    lemma {:induction false} Emitted(was: seq<byte>, now: seq<byte>, codes: seq<nat>, code: nat, k: nat, t: nat)
      requires InRange(codes) && BitLen(codes) == 8 * k + t && t < 8 && k + 4 <= |was| == |now|
      requires Num(was) == Packed(codes) && now[..k] == was[..k] && now[k + 4..] == was[k + 4..]
      requires Num(now[k..k + 4]) == Or(Num(was[k..k + 4]), Shl(code, t))
      ensures Num(now) == Packed(codes + [code])
    {
      hide *;
      PackedBound(codes);
      OrIntoWindow(was, now, k, t, code);
      PackedSnoc(codes, code);
    }

    method ClearOutput(out: array<byte>, n: nat)
      requires n <= out.Length
      modifies out
      ensures forall i :: 0 <= i < n ==> out[i] == 0
      ensures forall i :: n <= i < out.Length ==> out[i] == old(out[i])
    {
      for i := 0 to n
        invariant forall j :: 0 <= j < i ==> out[j] == 0
        invariant forall j :: n <= j < out.Length ==> out[j] == old(out[j])
      {
        out[i] := 0;
      }
    }

    // ---- compress ----

    /** The state between two phrases: the dictionary is that of the codes written, the output holds
        them packed, and the rest of the input is still to be parsed. */
    ghost predicate Midway(out: array<byte>, zlen: nat, data: seq<byte>, codes: seq<nat>, chars: seq<byte>,
                           pos: nat, bitcnt: nat)
      requires Sized()
      reads buf1, buf2, buf3, out
    {
      Trie(codes, chars) && |codes| <= pos < |data| && 4 <= zlen <= out.Length &&
      Codes(data) == codes + Parse(codes, chars, data, pos) &&
      bitcnt == 32 + BitLen(codes) && Num(out[4..zlen]) == Packed(codes)
    }

    lemma {:induction false} ParseStep(data: seq<byte>, codes: seq<nat>, chars: seq<byte>, pos: nat, c: nat, q: nat)
      requires |chars| == |codes| && pos < |data| && InRange(codes)
      requires Codes(data) == codes + Parse(codes, chars, data, pos)
      requires (c, q) == Descend(codes, chars, data, pos + 1, data[pos])
      ensures InRange(codes + [c])
      ensures q == |data| ==> Codes(data) == codes + [c]
      ensures q < |data| ==> Codes(data) == codes + [c] + Parse(codes + [c], chars + [data[q]], data, q)
    {
      hide *;
      InRangeSnoc(codes, c);
      ParseUnfold(codes, chars, data, pos);
      if q < |data| {
        Reassociate(codes, c, Parse(codes + [c], chars + [data[q]], data, q));
      }
    }

    lemma Reassociate(a: seq<nat>, c: nat, b: seq<nat>)
      ensures a + ([c] + b) == a + [c] + b
    {
    }

    lemma InRangeSnoc(codes: seq<nat>, c: nat)
      requires InRange(codes) && c < 256 + |codes|
      ensures InRange(codes + [c])
    {
    }

    /** One turn of the main loop: find the phrase, record the entry it creates, write its code.
        The entry's byte is read one past the input when the phrase is the last; nothing uses it. */
    method WritePhrase(input: array<byte>, inLen: nat, out: array<byte>, zlen: nat, start: nat, addrcnt: nat,
                       bitcnt: nat, ghost codes: seq<nat>, ghost chars: seq<byte>)
      returns (addr: nat, pos: nat, ghost next: byte)
      requires Sized() && 1 <= inLen <= LZW_SIZE && inLen <= input.Length
      requires input != out && input != buf1 && out != buf1
      requires addrcnt == 256 + |codes| && Midway(out, zlen, input[..inLen], codes, chars, start, bitcnt)
      requires bitcnt / 8 + 4 <= inLen + 15 <= zlen
      modifies buf1, buf2, buf3, out
      ensures start < pos <= inLen && InRange(codes + [addr])
      ensures Num(out[4..zlen]) == Packed(codes + [addr])
      ensures BitLen(codes + [addr]) == BitLen(codes) + Width(addr, addrcnt)
      ensures pos < inLen ==> Midway(out, zlen, input[..inLen], codes + [addr], chars + [next], pos,
                                     32 + BitLen(codes + [addr]))
      ensures pos == inLen ==> Codes(input[..inLen]) == codes + [addr]
      ensures codes + [addr] <= Codes(input[..inLen])
      ensures forall i :: inLen + 15 <= i < out.Length ==> out[i] == old(out[i])
    {
      ghost var data := input[..inLen];
      addr, pos := FindPhrase(input, inLen, start, addrcnt, codes, chars);
      ParseStep(data, codes, chars, start, addr, pos);
      var x: byte := *;
      if pos < inLen {
        x := input[pos];
        AddEntry(addrcnt, x, addr, codes, chars);
      } else {
        buf1[addrcnt], buf2[addrcnt], buf3[addrcnt] := x, -1, -1;
      }
      next := x;
      Emit(out, bitcnt, addr, codes, zlen);
      PackedSnoc(codes, addr);
    }

    /** Where the next code starts. */
    method NextBit(bitcnt: nat, addr: nat, addrcnt: nat, numbits: nat, oneupnumbits: nat) returns (next: nat)
      requires addrcnt >= 1 && numbits == NumBits(addrcnt) && oneupnumbits == Pow2(numbits)
      ensures next == bitcnt + Width(addr, addrcnt)
    {
      next := bitcnt + numbits;
      if addr % (oneupnumbits / 2) > (addrcnt - 1) % (oneupnumbits / 2) {
        next := next - 1;
      }
    }

    /** One more dictionary entry: widen the code once the entries outgrow it. */
    method Grow(count: nat, numbits: nat, oneupnumbits: nat) returns (numbits': nat, oneupnumbits': nat)
      requires count > 256 && numbits == NumBits(count - 1) && oneupnumbits == Pow2(numbits)
      ensures numbits' == NumBits(count) && oneupnumbits' == Pow2(numbits')
    {
      numbits', oneupnumbits' := numbits, oneupnumbits;
      if count > oneupnumbits {
        numbits', oneupnumbits' := numbits + 1, oneupnumbits * 2;
      }
    }

    lemma Begin(out: array<byte>, zlen: nat, data: seq<byte>)
      requires Sized() && data != [] && Trie([], []) && 4 <= zlen <= out.Length
      requires forall i :: 0 <= i < zlen ==> out[i] == 0
      ensures Midway(out, zlen, data, [], [], 0, 32)
    {
      NumZero(out[4..zlen]);
    }

    lemma WidthAtMost15(c: nat, n: nat)
      requires 1 <= n <= 32768
      ensures Width(c, n) <= 15
    {
      NumBitsAtMost15(n);
    }

    method Compress(input: array?<byte>, inLen: int, out: array?<byte>) returns (result: int)
      requires Sized()
      requires input != null && out != null && inLen > 0 ==>
                 inLen <= LZW_SIZE && inLen <= input.Length && (inLen + 18) / 4 * 4 <= out.Length &&
                 input != out && input != buf1 && out != buf1
      modifies buf1, buf2, buf3, out
      ensures input == null || out == null || inLen <= 0 ==>
                result == -1 && (out != null ==> out[..] == old(out[..]))
      ensures input != null && out != null && inLen > 0 ==>
                0 <= result <= inLen + 4 && IsImage(out[..result], input[..inLen])
      // nothing past the cleared region is written, and no code reaches past inLen + 15
      ensures input != null && out != null && inLen > 0 ==>
                forall i :: inLen + 15 <= i < out.Length ==>
                  out[i] == if i < (inLen + 18) / 4 * 4 then 0 else old(out[i])
    {
      hide Midway, Trie, Packed, BitLen, Num, NumBits, Pow2, Width, Parse, Codes, IsImage, InRange;
      if input == null || out == null || inLen <= 0 {
        return -1;
      }
      InitTrie();
      var zlen := (inLen + 18) / 4 * 4;
      ClearOutput(out, zlen);
      ghost var data := input[..inLen];
      ghost var codes: seq<nat>, chars: seq<byte> := [], [];
      var addrcnt, bytecnt1, bitcnt := 256, 0, 32;
      var numbits, oneupnumbits := 8, 256;
      var addr := 0;
      Begin(out, zlen, data);
      StartWidth();
      var more := true;
      while more
        invariant data == input[..inLen] && addrcnt == 256 + |codes|
        invariant numbits == NumBits(addrcnt) && oneupnumbits == Pow2(numbits)
        invariant bitcnt == 32 + BitLen(codes)
        invariant |codes| <= bytecnt1 <= inLen
        invariant more ==> Midway(out, zlen, data, codes, chars, bytecnt1, bitcnt) && bytecnt1 < inLen
        invariant more ==> bitcnt == 32 || bitcnt < 8 * inLen
        invariant !more ==> codes != [] && InRange(codes) && codes <= Codes(data) && addr == codes[|codes| - 1]
        invariant !more ==> codes == Codes(data) || bitcnt >= 8 * inLen
        invariant !more ==> Num(out[4..zlen]) == Packed(codes)
        invariant bitcnt < 8 * inLen + 15 || bitcnt < 48
        invariant forall i :: inLen + 15 <= i < out.Length ==> out[i] == if i < zlen then 0 else old(out[i])
        decreases if more then 1 + inLen - bytecnt1 else 0
      {
        ghost var next;
        addr, bytecnt1, next := WritePhrase(input, inLen, out, zlen, bytecnt1, addrcnt, bitcnt, codes, chars);
        WidthAtMost15(addr, addrcnt);
        bitcnt := NextBit(bitcnt, addr, addrcnt, numbits, oneupnumbits);
        codes, chars := codes + [addr], chars + [next];
        addrcnt := addrcnt + 1;
        numbits, oneupnumbits := Grow(addrcnt, numbits, oneupnumbits);
        more := bytecnt1 < inLen && bitcnt < inLen * 8;
      }
      AddrInRange(codes);
      Emit(out, bitcnt, addr, codes, zlen);
      PackedSnoc(codes, addr);
      bitcnt := NextBit(bitcnt, addr, addrcnt, numbits, oneupnumbits);
      result := Finish(input, inLen, out, addrcnt, bitcnt, zlen, codes);
    }

    lemma StartWidth()
      ensures NumBits(256) == 8 && Pow2(8) == 256 && BitLen([]) == 0
    {
      Pow2Known();
    }

    lemma AddrInRange(codes: seq<nat>)
      requires codes != [] && InRange(codes)
      ensures codes[|codes| - 1] < 256 + |codes|
    {
    }

    /** The header, and the choice between the coded stream and a raw copy. */
    method Finish(input: array<byte>, inLen: nat, out: array<byte>, addrcnt: nat, bitcnt: nat,
                  ghost zlen: nat, ghost codes: seq<nat>) returns (result: nat)
      requires 1 <= inLen <= LZW_SIZE && inLen <= input.Length && inLen + 15 <= zlen <= out.Length && input != out
      requires codes != [] && InRange(codes) && codes <= Codes(input[..inLen]) && |codes| <= inLen
      requires var last := codes[|codes| - 1];
               bitcnt == 32 + BitLen(codes + [last]) && Num(out[4..zlen]) == Packed(codes + [last])
      requires codes == Codes(input[..inLen]) || 32 + BitLen(codes) >= 8 * inLen
      requires addrcnt == 256 + |codes|
      modifies out
      ensures result <= inLen + 4 && IsImage(out[..result], input[..inLen])
      ensures forall i :: inLen + 15 <= i < out.Length ==> out[i] == old(out[i])
    {
      hide InRange, Packed, BitLen, Num, Codes, Written;
      ghost var data, was := input[..inLen], out[..];
      CodedEnough(codes, data);
      WriteLe16(out, 0, inLen);
      if (bitcnt + 7) / 8 < inLen {
        WriteLe16(out, 2, addrcnt);
        result := (bitcnt + 7) / 8;
        SamePayload(was, out[..], zlen, result);
        Truncate(was[4..zlen], Written(data), result - 4);
      } else {
        WriteLe16(out, 2, 0);
        StoreRaw(input, inLen, out);
        result := inLen + 4;
      }
      HeaderOf(out[..], result);
      assert out[..][..result][4..] == out[..][4..result];
    }

    lemma SamePayload(was: seq<byte>, now: seq<byte>, z: nat, r: nat)
      requires 4 <= r <= z <= |was| == |now|
      requires forall j :: 4 <= j < |was| ==> now[j] == was[j]
      ensures now[..r][4..] == was[4..z][..r - 4]
    {
      forall j | 0 <= j < r - 4
        ensures now[..r][4..][j] == was[4..z][..r - 4][j]
      {
        assert now[4 + j] == was[4 + j];
      }
    }

    lemma HeaderOf(img: seq<byte>, n: nat)
      requires 4 <= n <= |img|
      ensures Le16(img[..n], 0) == Le16(img, 0) && Le16(img[..n], 2) == Le16(img, 2)
    {
    }

    method StoreRaw(input: array<byte>, inLen: nat, out: array<byte>)
      requires inLen <= input.Length && inLen + 4 <= out.Length && input != out
      modifies out
      ensures out[..][4..inLen + 4] == input[..inLen]
      ensures Le16(out[..], 0) == old(Le16(out[..], 0)) && Le16(out[..], 2) == old(Le16(out[..], 2))
      ensures forall j :: inLen + 4 <= j < out.Length ==> out[j] == old(out[j])
    {
      for i := 0 to inLen
        invariant forall j :: 0 <= j < i ==> out[j + 4] == input[j]
        invariant forall j :: 0 <= j < 4 || inLen + 4 <= j < out.Length ==> out[j] == old(out[j])
      {
        out[i + 4] := input[i];
      }
      forall j | 0 <= j < inLen
        ensures out[..][4..inLen + 4][j] == input[..inLen][j]
      {
        assert out[j + 4] == input[j];
      }
    }

    /** The codes written so far decide between coded and raw exactly as all of them would. */
    lemma {:induction false} CodedEnough(codes: seq<nat>, data: seq<byte>)
      requires data != [] && codes != [] && InRange(codes) && codes <= Codes(data)
      requires codes == Codes(data) || 32 + BitLen(codes) >= 8 * |data|
      ensures var size := BytesFor(32 + BitLen(codes + [codes[|codes| - 1]]));
              if size < |data| then
                codes == Codes(data) && Written(data) == codes + [codes[|codes| - 1]] && CodedSize(data) == size
                && InRange(Written(data)) && size >= 4
              else CodedSize(data) >= |data|
    {
      hide InRange, Codes, BitLen, Packed, Parse, Width;
      PackedSnoc(codes, codes[|codes| - 1]);
      if codes != Codes(data) {
        BitLenMono(Written(data), |codes|);
        assert Written(data)[..|codes|] == codes;
      } else {
        AppendLast(codes);
      }
    }

    lemma AppendLast(codes: seq<nat>)
      requires codes != [] && InRange(codes)
      ensures InRange(codes + [codes[|codes| - 1]])
    {
    }

    /** Bytes past the last bit written are zero, so cutting them off loses nothing. */
    lemma {:induction false} Truncate(s: seq<byte>, codes: seq<nat>, n: nat)
      requires InRange(codes) && Num(s) == Packed(codes) && BitLen(codes) <= 8 * n && n <= |s|
      ensures Num(s[..n]) == Packed(codes)
    {
      hide *;
      PackedBound(codes);
      Pow2Mono(BitLen(codes), 8 * n);
      assert s == s[..n] + s[n..];
      NumAppend(s[..n], s[n..]);
      TopZero(Num(s[..n]), Pow2(8 * n), Num(s[n..]));
    }

    // ---- uncompress ----

    /** The reader's tables before code k: parents of every entry but none of the last bytes it cannot
        know yet.  The newest entry's byte is guessed to be the first byte of its own parent. */
    ghost predicate Lockstep(codes: seq<nat>, k: nat)
      requires Sized() && InRange(codes)
      reads buf2, buf3
    {
      k <= |codes| && 256 + k <= LZW_BUF_SIZE &&
      (forall e :: 256 <= e < 256 + k ==> buf3[e] == codes[e - 256]) &&
      (forall e :: 256 <= e < 255 + k ==> buf2[e] == Root(codes, codes[e - 255])) &&
      (k > 0 ==> buf2[255 + k] == Root(codes, codes[k - 1]))
    }

    /** The guess is right whenever it is used: if the next code is the newest entry itself, that
        entry's last byte is its own first byte. */
    lemma {:induction false} GuessIsRight(codes: seq<nat>, k: nat)
      requires InRange(codes) && 1 <= k < |codes| && codes[k] == 255 + k
      ensures Root(codes, codes[k - 1]) == Root(codes, codes[k])
    {
    }

    function Reversed(s: seq<byte>): (r: seq<byte>)
      ensures |r| == |s|
    {
      if s == [] then [] else [s[|s| - 1]] + Reversed(s[..|s| - 1])
    }

    lemma {:induction false} ReversedAt(s: seq<byte>, i: nat)
      requires i < |s|
      ensures Reversed(s)[i] == s[|s| - 1 - i]
    {
      if i > 0 {
        ReversedAt(s[..|s| - 1], i - 1);
      }
    }

    /** Taking the last byte off a string and pushing it keeps string plus stack the same. */
    lemma {:induction false} PushOne(codes: seq<nat>, dat: nat, stack: seq<byte>, x: byte)
      requires InRange(codes) && dat >= 256 && dat - 255 < |codes| && x == Root(codes, codes[dat - 255])
      ensures Root(codes, codes[dat - 256]) == Root(codes, dat)
      ensures Decoded(codes, dat) + Reversed(stack) == Decoded(codes, codes[dat - 256]) + Reversed(stack + [x])
    {
      assert (stack + [x])[..|stack|] == stack;
      var d := Decoded(codes, codes[dat - 256]);
      assert (d + [x]) + Reversed(stack) == d + ([x] + Reversed(stack));
    }

    /** Push the bytes of a code's string, last first, until its root is left. */
    method Unwind(code: nat, ghost codes: seq<nat>, ghost k: nat) returns (root: byte, leng: nat)
      requires Sized() && InRange(codes) && k < |codes| && code == codes[k] && Lockstep(codes, k)
      requires 256 + k < LZW_BUF_SIZE
      modifies buf1
      ensures root == Root(codes, code) && leng < LZW_BUF_SIZE
      ensures Decoded(codes, code) == [root] + Reversed(buf1[..leng])
    {
      hide Decoded, Root, Reversed;
      leng := 0;
      var dat: int := code;
      Rooted(codes, code);
      while dat >= 256
        invariant 0 <= dat <= code && leng + dat <= 256 + k
        invariant Root(codes, dat) == Root(codes, code)
        invariant Decoded(codes, code) == Decoded(codes, dat) + Reversed(buf1[..leng])
        decreases dat
      {
        if dat == 255 + k {
          GuessIsRight(codes, k);
        }
        PushOne(codes, dat, buf1[..leng], buf2[dat]);
        buf1[leng] := buf2[dat];
        assert buf1[..leng + 1] == buf1[..leng] + [buf2[dat]];
        leng, dat := leng + 1, buf3[dat];
      }
      Rooted(codes, dat);
      root := dat;
    }

    lemma {:induction false} Rooted(codes: seq<nat>, dat: nat)
      requires InRange(codes) && (dat < 256 || dat - 255 < |codes|)
      ensures dat < 256 ==> Decoded(codes, dat) == [dat] && Root(codes, dat) == dat
      ensures Decoded(codes, dat) + Reversed([]) == Decoded(codes, dat)
    {
    }

    /** The root, then the stack of bytes in buf1, top first. */
    method PopAll(root: byte, leng: nat, from: nat, dst: array<byte>)
      requires leng <= buf1.Length && from + leng < dst.Length && dst != buf1
      modifies dst
      ensures dst[..][from..from + leng + 1] == [root] + Reversed(buf1[..leng])
      ensures forall j :: 0 <= j < dst.Length && !(from <= j <= from + leng) ==> dst[j] == old(dst[j])
    {
      dst[from] := root;
      var i, at := leng - 1, from + 1;
      while i >= 0
        invariant -1 <= i < leng && at == from + leng - i
        invariant dst[from] == root
        invariant forall j :: i < j < leng ==> dst[from + leng - j] == buf1[j]
        invariant forall j :: 0 <= j < dst.Length && !(from <= j < at) ==> dst[j] == old(dst[j])
      {
        dst[at] := buf1[i];
        at, i := at + 1, i - 1;
      }
      ghost var stack := buf1[..leng];
      forall j | 0 <= j < leng
        ensures dst[..][from + 1 + j] == Reversed(stack)[j]
      {
        ReversedAt(stack, j);
        assert dst[from + leng - (leng - 1 - j)] == buf1[leng - 1 - j];
      }
    }

    /** A buffer that goes on past the image still reads as the same codes. */
    lemma LongerBuffer(src: seq<byte>, n: nat, codes: seq<nat>, rest: nat) returns (rest': nat)
      requires 4 <= n <= |src| && 32 + BitLen(codes) <= 8 * n
      requires Num(src[..n][4..]) == Packed(codes) + Shl(rest, BitLen(codes))
      ensures Num(src[4..]) == Packed(codes) + Shl(rest', BitLen(codes))
    {
      hide *;
      var extra, gap := Num(src[n..]), 8 * (n - 4) - BitLen(codes);
      assert src[4..] == src[..n][4..] + src[n..];
      NumAppend(src[..n][4..], src[n..]);
      ShlIsProduct(extra, BitLen(codes) + gap);
      assert Pow2(8 * (n - 4)) * extra == extra * Pow2(8 * (n - 4));
      StackShl(rest, extra, BitLen(codes), gap);
      rest' := rest + Shl(extra, gap);
    }

    /** What the reader's signed 32-bit window shows at code k: the low bits of the rest of the stream. */
    lemma {:induction false} PeekIsTail(s: seq<byte>, codes: seq<nat>, rest: nat, k: nat, at: nat)
      requires InRange(codes) && k < |codes| <= 32000 && at == BitLen(codes[..k])
      requires Num(s) == Packed(codes) + Shl(rest, BitLen(codes))
      requires at / 8 + 4 <= |s|
      ensures (Signed32(Le32(s, at / 8)) / Pow2(at % 8)) % Pow2(NumBits(256 + k))
           == Tail(codes, k, rest) % Pow2(NumBits(256 + k))
    {
      hide *;
      var tail := Tail(codes, k, rest);
      Cut(codes, k, rest);
      PrefixInRange(codes, k);
      PackedBound(codes[..k]);
      NumBitsAtMost15(256 + k);
      ShlIsProduct(tail, at);
      assert Pow2(at) * tail == tail * Pow2(at);
      ReadWindow(s, at / 8, at % 8, NumBits(256 + k), Packed(codes[..k]), tail);
      SignedShiftMask(Le32(s, at / 8), at % 8, NumBits(256 + k));
    }

    lemma PrefixInRange(codes: seq<nat>, k: nat)
      requires InRange(codes) && k <= |codes|
      ensures InRange(codes[..k])
    {
    }

    /** The reader's peek at code k is that code. */
    lemma {:induction false} PeekIsCode(s: seq<byte>, codes: seq<nat>, rest: nat, k: nat, at: nat)
      requires InRange(codes) && k < |codes| <= 32000 && at == BitLen(codes[..k])
      requires Num(s) == Packed(codes) + Shl(rest, BitLen(codes))
      requires at / 8 + 4 <= |s|
      ensures var peek := (Signed32(Le32(s, at / 8)) / Pow2(at % 8)) % Pow2(NumBits(256 + k));
              ReadCode(peek, 256 + k) == codes[k]
              && (peek % Half(256 + k) > (255 + k) % Half(256 + k)
                  <==> Width(codes[k], 256 + k) == NumBits(256 + k) - 1)
    {
      hide BitLen, Packed, Num, NumBits, Pow2, Shl, Le32, Signed32, Half, Width, ReadCode;
      PeekIsTail(s, codes, rest, k, at);
      PeekRecovers(codes[k], 256 + k, Tail(codes, k + 1, rest));
    }

    lemma {:induction false} ExpandGrows(codes: seq<nat>, k: nat, m: nat)
      requires InRange(codes) && k <= m <= |codes|
      ensures |Expand(codes, 0, k)| <= |Expand(codes, 0, m)|
      decreases m - k
    {
      if k < m {
        ExpandGrows(codes, k, m - 1);
      }
    }

    lemma {:induction false} WindowInside(codes: seq<nat>, k: nat, n: nat)
      requires k < |codes| && 32 + BitLen(codes) + 8 <= 8 * n
      ensures (32 + BitLen(codes[..k])) / 8 + 4 <= n + 2
    {
      BitLenMono(codes, k);
    }

    /** Read code k and step over it. */
    method ReadNext(src: array<byte>, bitcnt: nat, currstr: nat, numbits: nat, oneupnumbits: nat,
                    ghost codes: seq<nat>, ghost rest: nat) returns (dat: nat, next: nat)
      requires 256 <= currstr && currstr - 256 < |codes| <= 32000 && InRange(codes)
      requires numbits == NumBits(currstr) && oneupnumbits == Pow2(numbits)
      requires bitcnt == 32 + BitLen(codes[..currstr - 256]) && 4 <= bitcnt / 8 + 4 <= src.Length
      requires Num(src[4..]) == Packed(codes) + Shl(rest, BitLen(codes))
      ensures dat == codes[currstr - 256] && dat < currstr
      ensures next == 32 + BitLen(codes[..currstr - 255])
    {
      hide BitLen, Packed, Num, NumBits, Shl, Le32, Signed32, Pow2, Tail, Half;
      ghost var k := currstr - 256;
      PeekIsCode(src[4..], codes, rest, k, bitcnt - 32);
      ShiftedRead(src[..], bitcnt / 8);
      assert src[..][4..] == src[4..];
      assert codes[..k + 1] == codes[..k] + [codes[k]];
      PackedSnoc(codes[..k], codes[k]);
      HalfOf(currstr, oneupnumbits);
      dat := (Signed32(Le32(src[..], bitcnt / 8)) / Pow2(bitcnt % 8)) % oneupnumbits;
      assert ReadCode(dat, currstr) == codes[k];
      next := bitcnt + numbits;
      if dat % (oneupnumbits / 2) > (currstr - 1) % (oneupnumbits / 2) {
        dat, next := dat % (oneupnumbits / 2), next - 1;
      }
    }

    lemma {:induction false} HalfOf(n: nat, oneupnumbits: nat)
      requires oneupnumbits == Pow2(NumBits(n))
      ensures oneupnumbits / 2 == Half(n)
    {
    }

    lemma ShiftedRead(s: seq<byte>, i: nat)
      requires 4 <= i && i + 4 <= |s|
      ensures Le32(s, i) == Le32(s[4..], i - 4)
    {
    }

    method Uncompress(src: array?<byte>, compLen: int, dst: array?<byte>, ghost data: seq<byte>)
      returns (result: int)
      requires Sized()
      // the stream is trusted: the code checks neither its length nor its codes
      requires src != null && dst != null && compLen >= 4 ==>
                 compLen <= src.Length && Carries(src[..compLen], data) && |data| <= dst.Length &&
                 (Le16(src[..], 2) != 0 ==> compLen + 2 <= src.Length && Le16(src[..], 2) <= LZW_BUF_SIZE) &&
                 src != dst && src != buf1 && dst != buf1
      modifies buf1, buf2, buf3, dst
      ensures src == null || dst == null || compLen < 4 ==>
                result == -1 && (dst != null ==> dst[..] == old(dst[..]))
      ensures src != null && dst != null && compLen >= 4 ==>
                result == |data| && dst[..result] == data &&
                forall i :: result <= i < dst.Length ==> dst[i] == old(dst[i])
    {
      if src == null || dst == null || compLen < 4 {
        return -1;
      }
      HeaderOf(src[..], compLen);
      var strtot := Le16(src[..], 2);
      if strtot == 0 {
        var uncompleng := Le16(src[..], 0);
        CopyRaw(src, dst, uncompleng);
        assert src[..compLen][4..4 + uncompleng] == src[..][4..4 + uncompleng];
        return uncompleng;
      }
      ghost var codes, rest :| CodedAs(src[..compLen], data, codes, rest);
      ghost var rest' := LongerBuffer(src[..], compLen, codes, rest);
      assert src[..][4..] == src[4..];
      ReadCodes(src, strtot, dst, compLen, codes, rest');
      result := Le16(src[..], 0);
    }

    method CopyRaw(src: array<byte>, dst: array<byte>, n: nat)
      requires n + 4 <= src.Length && n <= dst.Length && src != dst
      modifies dst
      ensures dst[..][..n] == src[..][4..4 + n]
      ensures forall i :: n <= i < dst.Length ==> dst[i] == old(dst[i])
    {
      for i := 0 to n
        invariant forall j :: 0 <= j < i ==> dst[j] == src[4 + j]
        invariant forall j :: i <= j < dst.Length ==> dst[j] == old(dst[j])
      {
        dst[i] := src[i + 4];
      }
      forall j | 0 <= j < n
        ensures dst[..][..n][j] == src[..][4..4 + n][j]
      {
        assert dst[j] == src[4 + j];
      }
    }

    lemma ExpandSnoc(codes: seq<nat>, k: nat)
      requires InRange(codes) && k < |codes|
      ensures Expand(codes, 0, k + 1) == Expand(codes, 0, k) + Decoded(codes, codes[k])
    {
    }

    lemma {:induction false} EmptyExpand(codes: seq<nat>)
      requires InRange(codes)
      ensures Expand(codes, 0, 0) == []
    {
    }

    lemma Appended(was: seq<byte>, now: seq<byte>, i: nat, j: nat)
      requires i <= j <= |was| == |now|
      requires forall k :: 0 <= k < i ==> now[k] == was[k]
      ensures now[..j] == was[..i] + now[i..j]
    {
    }

    /** Enter code k in the tables and write its string. */
    method PutString(dat: nat, currstr: nat, outcnt: nat, dst: array<byte>, ghost codes: seq<nat>)
      returns (outcnt': nat)
      requires Sized() && InRange(codes) && 256 <= currstr < LZW_BUF_SIZE && currstr - 256 < |codes|
      requires dat == codes[currstr - 256] && dat < currstr && Lockstep(codes, currstr - 256)
      requires outcnt == |Expand(codes, 0, currstr - 256)| && |Decode(codes)| <= dst.Length
      requires outcnt <= dst.Length && dst[..][..outcnt] == Expand(codes, 0, currstr - 256) && dst != buf1
      modifies buf1, buf2, buf3, dst
      ensures Lockstep(codes, currstr - 255)
      ensures outcnt <= outcnt' == |Expand(codes, 0, currstr - 255)| <= dst.Length
      ensures dst[..][..outcnt'] == Expand(codes, 0, currstr - 255)
      ensures forall i :: outcnt' <= i < dst.Length ==> dst[i] == old(dst[i])
    {
      hide Decoded, Root, Reversed, Expand, InRange;
      ghost var k := currstr - 256;
      ExpandSnoc(codes, k);
      ExpandGrows(codes, k + 1, |codes|);
      buf3[currstr] := dat;
      var root, leng := Unwind(dat, codes, k);
      ghost var before := dst[..];
      PopAll(root, leng, outcnt, dst);
      outcnt' := outcnt + leng + 1;
      Appended(before, dst[..], outcnt, outcnt');
      buf2[currstr - 1] := root;
      buf2[currstr] := root;
    }

    /** The reader's main loop. */
    method ReadCodes(src: array<byte>, strtot: nat, dst: array<byte>, ghost n: nat,
                     ghost codes: seq<nat>, ghost rest: nat)
      requires Sized() && codes != [] && InRange(codes) && strtot == 256 + |codes| <= LZW_BUF_SIZE && src.Length >= 4
      requires Num(src[4..]) == Packed(codes) + Shl(rest, BitLen(codes))
      requires 32 + BitLen(codes) + 8 <= 8 * n && n + 2 <= src.Length
      requires |Decode(codes)| <= dst.Length && src != dst && src != buf1 && dst != buf1
      modifies buf1, buf2, buf3, dst
      ensures dst[..][..|Decode(codes)|] == Decode(codes)
      ensures forall i :: |Decode(codes)| <= i < dst.Length ==> dst[i] == old(dst[i])
    {
      hide BitLen, Packed, Num, NumBits, Pow2, Shl, InRange, Decoded, Root, Reversed, Expand;
      EmptyExpand(codes);
      for i := 0 to 256
        modifies buf2, buf3
      {
        buf2[i], buf3[i] := i, i;
      }
      var currstr, bitcnt, outbytecnt := 256, 32, 0;
      var numbits, oneupnumbits := 8, 256;
      StartWidth();
      assert codes[..0] == [];
      var more := true;
      while more
        invariant 256 <= currstr <= strtot && (more <==> currstr < strtot)
        invariant bitcnt == 32 + BitLen(codes[..currstr - 256])
        invariant numbits == NumBits(currstr) && oneupnumbits == Pow2(numbits)
        invariant Lockstep(codes, currstr - 256)
        invariant outbytecnt == |Expand(codes, 0, currstr - 256)| <= dst.Length
        invariant dst[..][..outbytecnt] == Expand(codes, 0, currstr - 256)
        invariant Num(src[4..]) == Packed(codes) + Shl(rest, BitLen(codes))
        invariant forall i :: outbytecnt <= i < dst.Length ==> dst[i] == old(dst[i])
        decreases strtot - currstr
      {
        WindowInside(codes, currstr - 256, n);
        var dat: nat;
        dat, bitcnt := ReadNext(src, bitcnt, currstr, numbits, oneupnumbits, codes, rest);
        outbytecnt := PutString(dat, currstr, outbytecnt, dst, codes);
        currstr := currstr + 1;
        numbits, oneupnumbits := Grow(currstr, numbits, oneupnumbits);
        more := currstr < strtot;
      }
    }
  }

  // ---- the round trip ----

  /** Anything may happen to the tables and to what follows the image before it is read back. */
  method Disturb(codec: LzwCodec, mid: array<byte>, from: nat)
    requires codec.Sized() && codec.buf1 != mid && from <= mid.Length
    modifies codec.buf1, codec.buf2, codec.buf3, mid
    ensures mid[..from] == old(mid[..from])
  {
    var steps: nat := *;
    var n := 0;
    while n < steps
      invariant mid[..from] == old(mid[..from])
    {
      var i: nat, x: byte, y: short, z: short := *, *, *, *;
      if i < mid.Length - from {
        mid[from + i] := x;
      }
      if i < LZW_BUF_SIZE {
        codec.buf1[i], codec.buf2[i], codec.buf3[i] := x, y, z;
      }
      n := n + 1;
    }
  }

  /** Uncompressing what was compressed gives back every byte, coded or raw, even if the tables and the
      bytes after the image have changed in between. */
  method RoundTrip(codec: LzwCodec, input: array<byte>, inLen: nat, mid: array<byte>, back: array<byte>)
    returns (size: int, result: int)
    requires codec.Sized() && 1 <= inLen <= LZW_SIZE && inLen <= input.Length
    requires (inLen + 18) / 4 * 4 <= mid.Length && inLen <= back.Length
    requires input != mid && mid != back && input != back
    requires codec.buf1 != input && codec.buf1 != mid && codec.buf1 != back
    modifies codec.buf1, codec.buf2, codec.buf3, mid, back
    ensures result == inLen && back[..inLen] == input[..inLen]
  {
    size := codec.Compress(input, inLen, mid);
    ghost var img, data := mid[..size], input[..inLen];
    SmallImage(img, data);
    ImageCarries(img, data);
    Disturb(codec, mid, size);
    result := codec.Uncompress(mid, size, back, data);
  }

  lemma SmallImage(img: seq<byte>, data: seq<byte>)
    requires 1 <= |data| <= LZW_SIZE && IsImage(img, data)
    ensures 4 <= |img| <= |data| + 4 && Le16(img, 2) <= LZW_BUF_SIZE
    ensures Le16(img, 2) != 0 ==> |img| < |data|
  {
    ParseLength([], [], data, 0);
  }
}

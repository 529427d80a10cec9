/** The LZW dictionary as plain sequences, and what a stream of codes means.

    Entry 256+j of the dictionary extends the string of code parents[j] by the byte chars[j].  The
    codec creates one entry per code written, so parents is simply the sequence of codes so far. */
module LzwSpec {
  import opened LittleEndian
  import opened PhaseIn

  // ---- strings ----

  function Str(parents: seq<nat>, chars: seq<byte>, code: nat): (s: seq<byte>)
    requires InRange(parents) && |chars| == |parents| && code < 256 + |parents|
    ensures |s| >= 1
  {
    if code < 256 then [code] else Str(parents, chars, parents[code - 256]) + [chars[code - 256]]
  }

  /** The byte a code's string starts with: the end of its chain of parents. */
  function Root(parents: seq<nat>, code: nat): byte
    requires InRange(parents) && code < 256 + |parents|
  {
    if code < 256 then code else Root(parents, parents[code - 256])
  }

  /** The string of a code as the reader can know it: an entry's last byte is the first byte of the
      code that came after the entry's parent. */
  function Decoded(codes: seq<nat>, code: nat): (s: seq<byte>)
    requires InRange(codes) && (code < 256 || code - 255 < |codes|)
    ensures |s| >= 1
  {
    if code < 256 then [code]
    else Decoded(codes, codes[code - 256]) + [Root(codes, codes[code - 255])]
  }

  /** The bytes of codes k, k+1, ... up to but excluding m. */
  function Expand(codes: seq<nat>, k: nat, m: nat): seq<byte>
    requires InRange(codes) && k <= m <= |codes|
    decreases m - k
  {
    if k == m then [] else Expand(codes, k, m - 1) + Decoded(codes, codes[m - 1])
  }

  function Decode(codes: seq<nat>): seq<byte>
    requires InRange(codes)
  {
    Expand(codes, 0, |codes|)
  }

  // ---- the compressor: greedy longest match with a linear dictionary search ----

  /** The first entry from index `from` on that extends code `a`. */
  function FirstChild(parents: seq<nat>, a: nat, from: nat): (e: int)
    ensures e == -1 || (256 + from <= e < 256 + |parents| && parents[e - 256] == a)
    ensures forall j :: from <= j < |parents| && (e == -1 || j < e - 256) ==> parents[j] != a
    decreases |parents| - from
  {
    if from >= |parents| then -1
    else if parents[from] == a then 256 + from
    else FirstChild(parents, a, from + 1)
  }

  /** The first entry from index `from` on that extends code `a` by byte x. */
  function Child(parents: seq<nat>, chars: seq<byte>, a: nat, x: byte, from: nat): (e: int)
    requires |chars| == |parents|
    ensures e == -1 || (256 + from <= e < 256 + |parents| && parents[e - 256] == a && chars[e - 256] == x)
    ensures forall j :: from <= j < |parents| && (e == -1 || j < e - 256) ==> parents[j] != a || chars[j] != x
    decreases |parents| - from
  {
    if from >= |parents| then -1
    else if parents[from] == a && chars[from] == x then 256 + from
    else Child(parents, chars, a, x, from + 1)
  }

  /** Descend from code a, whose string has been read up to q, as far as the input allows. */
  function Descend(parents: seq<nat>, chars: seq<byte>, data: seq<byte>, q: nat, a: nat): (r: (nat, nat))
    requires |chars| == |parents| && q <= |data| && a < 256 + |parents|
    ensures q <= r.1 <= |data| && r.0 < 256 + |parents|
    decreases |data| - q
  {
    if q == |data| then (a, q)
    else
      var e := Child(parents, chars, a, data[q], 0);
      if e < 0 then (a, q) else Descend(parents, chars, data, q + 1, e)
  }

  /** The codes of data[p..], given the dictionary built so far. */
  function Parse(parents: seq<nat>, chars: seq<byte>, data: seq<byte>, p: nat): seq<nat>
    requires |chars| == |parents| && p < |data|
    decreases |data| - p
  {
    var (c, q) := Descend(parents, chars, data, p + 1, data[p]);
    if q == |data| then [c] else [c] + Parse(parents + [c], chars + [data[q]], data, q)
  }

  /** The codes the compressor assigns to an input. */
  function Codes(data: seq<byte>): seq<nat>
  {
    if data == [] then [] else Parse([], [], data, 0)
  }

  // ---- decoding undoes parsing ----

  lemma {:induction false} RootIsFirst(parents: seq<nat>, chars: seq<byte>, code: nat)
    requires InRange(parents) && |chars| == |parents| && code < 256 + |parents|
    ensures Str(parents, chars, code)[0] == Root(parents, code)
  {
    if code >= 256 {
      RootIsFirst(parents, chars, parents[code - 256]);
    }
  }

  lemma {:induction false} RootPrefix(parents: seq<nat>, full: seq<nat>, code: nat)
    requires InRange(full) && parents <= full && code < 256 + |parents|
    ensures InRange(parents) && Root(parents, code) == Root(full, code)
  {
    assert InRange(parents) by {
      assert forall k :: 0 <= k < |parents| ==> parents[k] == full[k];
    }
    if code >= 256 {
      RootPrefix(parents, full, parents[code - 256]);
    }
  }

  /** The string a descent ends on is exactly the input it consumed. */
  lemma {:induction false} DescendMatches(parents: seq<nat>, chars: seq<byte>, data: seq<byte>, p: nat, q: nat, a: nat)
    requires InRange(parents) && |chars| == |parents| && p <= q <= |data| && a < 256 + |parents|
    requires Str(parents, chars, a) == data[p..q]
    ensures var (c, r) := Descend(parents, chars, data, q, a); Str(parents, chars, c) == data[p..r]
    decreases |data| - q
  {
    if q < |data| {
      var e := Child(parents, chars, a, data[q], 0);
      if e >= 0 {
        assert data[p..q + 1] == data[p..q] + [data[q]];
        DescendMatches(parents, chars, data, p, q + 1, e);
      }
    }
  }

  /** The dictionary's bytes are what the reader will reconstruct: each is the first byte of the
      code after the entry's parent. */
  predicate Agreed(parents: seq<nat>, chars: seq<byte>, full: seq<nat>)
    requires InRange(full)
  {
    parents <= full && |chars| == |parents| < |full| &&
    forall j :: 0 <= j < |parents| ==> chars[j] == Root(full, full[j + 1])
  }

  lemma {:induction false} DecodedIsStr(parents: seq<nat>, chars: seq<byte>, full: seq<nat>, code: nat)
    requires InRange(full) && InRange(parents) && Agreed(parents, chars, full) && code < 256 + |parents|
    ensures Decoded(full, code) == Str(parents, chars, code)
  {
    if code >= 256 {
      DecodedIsStr(parents, chars, full, parents[code - 256]);
    }
  }

  /** The invariant of parsing: the dictionary's newest byte is the next byte of input and every
      older byte is the first byte of a later code. */
  predicate Growing(parents: seq<nat>, chars: seq<byte>, data: seq<byte>, p: nat)
  {
    InRange(parents) && |chars| == |parents| && p < |data| &&
    (forall j :: 0 <= j < |parents| - 1 ==> chars[j] == Root(parents, parents[j + 1])) &&
    (parents != [] ==> chars[|parents| - 1] == data[p])
  }

  lemma GrowingBounds(parents: seq<nat>, chars: seq<byte>, data: seq<byte>, p: nat)
    requires Growing(parents, chars, data, p)
    ensures InRange(parents) && |chars| == |parents| && p < |data|
  {
  }

  lemma {:induction false} GrowingStep(parents: seq<nat>, chars: seq<byte>, data: seq<byte>, p: nat)
    requires Growing(parents, chars, data, p)
    ensures var (c, q) := Descend(parents, chars, data, p + 1, data[p]);
            Str(parents, chars, c) == data[p..q] && InRange(parents + [c])
            && Agreed(parents, chars, parents + [c])
            && (q < |data| ==> Growing(parents + [c], chars + [data[q]], data, q))
  {
    var (c, q) := Descend(parents, chars, data, p + 1, data[p]);
    assert data[p..p + 1] == [data[p]];
    DescendMatches(parents, chars, data, p, p + 1, data[p]);
    var full := parents + [c];
    RootIsFirst(parents, chars, c);
    RootPrefix(parents, full, c);
    forall j | 0 <= j < |parents|
      ensures chars[j] == Root(full, full[j + 1])
    {
      if j < |parents| - 1 {
        RootPrefix(parents, full, parents[j + 1]);
      }
    }
  }

  lemma AgreedExtends(parents: seq<nat>, chars: seq<byte>, full: seq<nat>, full': seq<nat>)
    requires InRange(full') && full <= full' && InRange(full) && Agreed(parents, chars, full)
    ensures Agreed(parents, chars, full')
  {
    forall j | 0 <= j < |parents|
      ensures chars[j] == Root(full', full'[j + 1])
    {
      RootPrefix(full, full', full[j + 1]);
    }
  }

  lemma {:induction false} ExpandSplit(codes: seq<nat>, k: nat, m: nat)
    requires InRange(codes) && k < m <= |codes|
    ensures Expand(codes, k, m) == Decoded(codes, codes[k]) + Expand(codes, k + 1, m)
    decreases m
  {
    hide Decoded;
    if m > k + 1 {
      ExpandSplit(codes, k, m - 1);
      var first, mid, last := Decoded(codes, codes[k]), Expand(codes, k + 1, m - 1), Decoded(codes, codes[m - 1]);
      assert (first + mid) + last == first + (mid + last);
    }
  }

  /** If everything after the code chosen at p decodes to the rest of the input, so does that code
      together with it. */
  lemma {:induction false} DecodesFrom(parents: seq<nat>, chars: seq<byte>, data: seq<byte>, p: nat, full: seq<nat>)
    requires Growing(parents, chars, data, p) && InRange(full)
    requires var (c, q) := Descend(parents, chars, data, p + 1, data[p]);
             parents + [c] <= full && Expand(full, |parents| + 1, |full|) == data[q..]
    ensures Expand(full, |parents|, |full|) == data[p..]
  {
    hide *;
    GrowingBounds(parents, chars, data, p);
    var (c, q) := Descend(parents, chars, data, p + 1, data[p]);
    GrowingStep(parents, chars, data, p);
    AgreedExtends(parents, chars, parents + [c], full);
    DecodedIsStr(parents, chars, full, c);
    ExpandSplit(full, |parents|, |full|);
    assert full[|parents|] == c;
    assert data[p..] == data[p..q] + data[q..];
  }

  lemma {:induction false} ParseUnfold(parents: seq<nat>, chars: seq<byte>, data: seq<byte>, p: nat)
    requires |chars| == |parents| && p < |data|
    ensures var (c, q) := Descend(parents, chars, data, p + 1, data[p]);
            Parse(parents, chars, data, p)
            == if q == |data| then [c] else [c] + Parse(parents + [c], chars + [data[q]], data, q)
  {
    hide Descend;
  }

  lemma {:induction false} NothingLeft(codes: seq<nat>, k: nat)
    requires InRange(codes) && k <= |codes|
    ensures Expand(codes, k, k) == []
  {
  }

  /** From any state of the parse, the codes that follow decode to the rest of the input. */
  lemma {:induction false} ParseDecodes(parents: seq<nat>, chars: seq<byte>, data: seq<byte>, p: nat, full: seq<nat>)
    requires Growing(parents, chars, data, p)
    requires full == parents + Parse(parents, chars, data, p)
    ensures InRange(full) && Expand(full, |parents|, |full|) == data[p..]
    decreases |data| - p
  {
    hide *;
    GrowingBounds(parents, chars, data, p);
    var (c, q) := Descend(parents, chars, data, p + 1, data[p]);
    GrowingStep(parents, chars, data, p);
    ParseUnfold(parents, chars, data, p);
    if q < |data| {
      assert full == parents + [c] + Parse(parents + [c], chars + [data[q]], data, q);
      ParseDecodes(parents + [c], chars + [data[q]], data, q, full);
    } else {
      assert full == parents + [c];
      NothingLeft(full, |full|);
    }
    DecodesFrom(parents, chars, data, p, full);
  }

  /** Decoding the compressor's codes gives back the input. */
  lemma DecodeUndoesCodes(data: seq<byte>)
    ensures InRange(Codes(data)) && Decode(Codes(data)) == data
  {
    if data != [] {
      ParseDecodes([], [], data, 0, Codes(data));
      assert data[0..] == data;
    }
  }

  /** At most one code per input byte. */
  lemma {:induction false} ParseLength(parents: seq<nat>, chars: seq<byte>, data: seq<byte>, p: nat)
    requires |chars| == |parents| && p < |data|
    ensures 1 <= |Parse(parents, chars, data, p)| <= |data| - p
    decreases |data| - p
  {
    var (c, q) := Descend(parents, chars, data, p + 1, data[p]);
    if q < |data| {
      ParseLength(parents + [c], chars + [data[q]], data, q);
    }
  }

  /** Every code matches at least as much input as any entry of the dictionary could: the parse is
      greedy. */
  lemma {:induction false} DescendIsMaximal(parents: seq<nat>, chars: seq<byte>, data: seq<byte>, q: nat, a: nat)
    requires |chars| == |parents| && q <= |data| && a < 256 + |parents|
    ensures var (c, r) := Descend(parents, chars, data, q, a);
            r < |data| ==> forall j :: 0 <= j < |parents| ==> parents[j] != c || chars[j] != data[r]
    decreases |data| - q
  {
    if q < |data| {
      var e := Child(parents, chars, a, data[q], 0);
      if e >= 0 {
        DescendIsMaximal(parents, chars, data, q + 1, e);
      }
    }
  }
}

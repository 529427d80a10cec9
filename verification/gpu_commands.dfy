/** The GPU end to end: requests become commands, commands become words, the words pass through the
    staging buffers, the DMA and the ring, and the command processor makes commands of them again. */
module GpuCommands {
  import opened Common
  import opened GpuRing
  import opened GpuSpans
  import opened GpuLanes
  import opened GpuEmitters

  // ---- the words of a command ----

  /** The command processor keeps 13 bits of the length in a header. */
  const LENGTH_RANGE := 0x2000

  predicate Fits(c: Cmd) { |c.payload| < LENGTH_RANGE }

  predicate AllFit(cs: seq<Cmd>) { forall c <- cs :: Fits(c) }

  /** _gpu_cmd_header and what follows it: the opcode in the top byte, the number of words to come below. */
  function Words(c: Cmd): seq<Word>
    requires Fits(c)
  {
    [c.op as int * 0x100_0000 + |c.payload|] + c.payload
  }

  function WordsOf(cs: seq<Cmd>): seq<Word>
    requires AllFit(cs)
  {
    if cs == [] then [] else WordsOf(cs[..|cs| - 1]) + Words(cs[|cs| - 1])
  }

  lemma {:induction false} WordsOfSnoc(cs: seq<Cmd>, c: Cmd)
    requires AllFit(cs) && Fits(c)
    ensures AllFit(cs + [c]) && WordsOf(cs + [c]) == WordsOf(cs) + Words(c)
  {
    hide Fits, Words;
    var longer := cs + [c];
    assert longer[..|longer| - 1] == cs && longer[|longer| - 1] == c;
  }

  lemma {:induction false} WordsOfAppend(a: seq<Cmd>, b: seq<Cmd>)
    requires AllFit(a) && AllFit(b)
    ensures AllFit(a + b) && WordsOf(a + b) == WordsOf(a) + WordsOf(b)
  {
    hide Fits, Words;
    if b == [] {
      assert a + b == a;
    } else {
      var init, last := b[..|b| - 1], b[|b| - 1];
      WordsOfAppend(a, init);
      WordsOfSnoc(a + init, last);
      assert (a + init) + [last] == a + b;
      Assoc(WordsOf(a), WordsOf(init), Words(last));
    }
  }

  // ---- the command processor reads words ----

  /** Between two words: waiting for a header, or for the rest of a payload. */
  datatype Reader = Idle | Taking(op: U8, left: nat, got: seq<Word>)

  /** One word, and the command it completes if it completes one. */
  function Take(r: Reader, x: Word): (Reader, seq<Cmd>) {
    match r
    case Idle =>
      var op: U8, n := x / 0x100_0000, x % LENGTH_RANGE;
      if n == 0 then (Idle, [Cmd(op, [])]) else (Taking(op, n, []), [])
    case Taking(op, left, got) =>
      if left <= 1 then (Idle, [Cmd(op, got + [x])]) else (Taking(op, left - 1, got + [x]), [])
  }

  /** The reader after all the words, and the commands it has executed. */
  function Took(ws: seq<Word>): (Reader, seq<Cmd>) {
    if ws == [] then (Idle, [])
    else
      var (r, cs) := Took(ws[..|ws| - 1]);
      var (r', more) := Take(r, ws[|ws| - 1]);
      (r', cs + more)
  }

  lemma {:induction false} TookSnoc(ws: seq<Word>, x: Word)
    ensures var (r, cs) := Took(ws); var (r', more) := Take(r, x); Took(ws + [x]) == (r', cs + more)
  {
    hide Take;
    var longer := ws + [x];
    assert longer[..|longer| - 1] == ws;
  }

  /** Where the reader stands within a command. */
  lemma {:induction false} TookPart(ws: seq<Word>, cs: seq<Cmd>, c: Cmd, k: nat)
    requires Took(ws) == (Idle, cs) && Fits(c) && k <= |c.payload|
    ensures Took(ws + Words(c)[..k + 1]) == if k == |c.payload| then (Idle, cs + [c])
                                            else (Taking(c.op, |c.payload| - k, c.payload[..k]), cs)
    decreases k
  {
    hide Took;
    var part := Words(c)[..k + 1];
    if k == 0 {
      assert part == [] + [Words(c)[0]] && ws + [] == ws;
      TookSnoc(ws, Words(c)[0]);
      assert cs + [] == cs && c.payload[..0] == [];
    } else {
      var before := Words(c)[..k];
      TookPart(ws, cs, c, k - 1);
      assert part == before + [c.payload[k - 1]];
      TookSnoc(ws + before, c.payload[k - 1]);
      Assoc(ws, before, [c.payload[k - 1]]);
      assert c.payload[..k] == c.payload[..k - 1] + [c.payload[k - 1]];
      assert k == |c.payload| ==> c.payload[..k] == c.payload;
      assert cs + [] == cs;
    }
  }

  /** Reading back: the commands are exactly those whose words were written. */
  lemma {:induction false} TookWords(cs: seq<Cmd>)
    requires AllFit(cs)
    ensures Took(WordsOf(cs)) == (Idle, cs)
  {
    hide Fits, Words, Took;
    if cs == [] {
      TookNothing();
    } else {
      var init, last := cs[..|cs| - 1], cs[|cs| - 1];
      TookWords(init);
      TookPart(WordsOf(init), init, last, |last.payload|);
      WholeCommand(last);
      assert cs == init + [last];
    }
  }

  lemma TookNothing()
    ensures Took([]) == (Idle, [])
  {
  }

  lemma WholeCommand(c: Cmd)
    requires Fits(c)
    ensures |Words(c)| == |c.payload| + 1 && Words(c)[..|c.payload| + 1] == Words(c)
  {
  }

  /** Some of the command's payload has come, but not all. */
  predicate Within(r: Reader, c: Cmd) {
    r.Taking? && r.op == c.op && |r.got| < |c.payload| && r.left == |c.payload| - |r.got| && r.got == c.payload[..|r.got|]
  }

  /** Of a stream cut off anywhere, even inside a command, exactly the commands that are complete have been
      executed to their end, and the reader stands before or within the next one. */
  lemma {:induction false} CutAnywhere(ws: seq<Word>, cs: seq<Cmd>) returns (k: nat)
    requires AllFit(cs) && ws <= WordsOf(cs)
    ensures k <= |cs| && Took(ws).1 == cs[..k] && |WordsOf(cs[..k])| <= |ws|
    ensures k < |cs| ==> |ws| < |WordsOf(cs[..k + 1])|
    ensures Took(ws).0 == Idle || (k < |cs| && Within(Took(ws).0, cs[k]))
    decreases cs
  {
    hide Fits, Words, Took;
    if cs == [] {
      TookNothing();
      k := 0;
    } else {
      var init, last := cs[..|cs| - 1], cs[|cs| - 1];
      var all := WordsOf(init);
      WholeCommand(last);
      assert cs[..|cs|] == cs;
      if |ws| <= |all| {
        assert ws <= all;
        k := CutAnywhere(ws, init);
        assert cs[..k] == init[..k] && (k < |init| ==> cs[..k + 1] == init[..k + 1]);
      } else {
        var j := |ws| - |all| - 1;
        assert ws == all + Words(last)[..j + 1];
        TookWords(init);
        TookPart(all, init, last, j);
        k := if j == |last.payload| then |cs| else |init|;
        assert init + [last] == cs;
      }
    }
  }

  // ---- what the command processor has executed ----

  /** Every entry of the word stream carries a run of whole commands. */
  predicate Carries(entries: seq<seq<Word>>, groups: seq<seq<Cmd>>) {
    |entries| == |groups| && forall k :: 0 <= k < |groups| ==> AllFit(groups[k]) && entries[k] == WordsOf(groups[k])
  }

  lemma CarriesPart(entries: seq<seq<Word>>, groups: seq<seq<Cmd>>, n: nat)
    requires Carries(entries, groups) && n <= |groups|
    ensures Carries(entries[..n], groups[..n])
  {
    hide AllFit, WordsOf;
  }

  lemma {:induction false} CarriesSnoc(entries: seq<seq<Word>>, groups: seq<seq<Cmd>>, cs: seq<Cmd>)
    requires Carries(entries, groups) && AllFit(cs)
    ensures Carries(entries + [WordsOf(cs)], groups + [cs])
  {
    hide AllFit, WordsOf;
  }

  lemma {:induction false} CarriesAll(entries: seq<seq<Word>>, groups: seq<seq<Cmd>>)
    requires Carries(entries, groups)
    ensures AllFit(Flatten(groups)) && Flatten(entries) == WordsOf(Flatten(groups))
  {
    hide Fits, Words;
    if groups != [] {
      var n := |groups| - 1;
      CarriesPart(entries, groups, n);
      CarriesAll(entries[..n], groups[..n]);
      WordsOfAppend(Flatten(groups[..n]), groups[n]);
    }
  }

  /** Whatever the peer has done so far, the commands executed to their end are the first k of those sent,
      where k is as large as the words fetched allow; once it has run dry, they are all that have been handed over. */
  lemma Executed(w: World, groups: seq<seq<Cmd>>) returns (k: nat)
    requires Inv(w) && Carries(w.l.cmds, groups)
    ensures AllFit(Flatten(groups)) && k <= |Flatten(groups)|
    ensures Took(w.p.fetched).1 == Flatten(groups)[..k]
    ensures |WordsOf(Flatten(groups)[..k])| <= |w.p.fetched|
    ensures k < |Flatten(groups)| ==> |w.p.fetched| < |WordsOf(Flatten(groups)[..k + 1])|
    ensures Took(w.p.fetched).0 == Idle || (k < |Flatten(groups)| && Within(Took(w.p.fetched).0, Flatten(groups)[k]))
    ensures Work(w.p, w.m) == 0 ==> Took(w.p.fetched) == (Idle, Flatten(groups[..w.l.published]))
  {
    hide Took, WordsOf, Flatten, AllFit, Carries, Within;
    InOrder(w);
    CarriesAll(w.l.cmds, groups);
    k := CutAnywhere(w.p.fetched, Flatten(groups));
    if Work(w.p, w.m) == 0 {
      CarriesLength(w.l.cmds, groups);
      CarriesPart(w.l.cmds, groups, w.l.published);
      CarriesAll(w.l.cmds[..w.l.published], groups[..w.l.published]);
      assert w.p.ring == [] && InDma(w.p, w.m) == [];
      assert w.p.fetched + w.p.ring + InDma(w.p, w.m) == w.p.fetched;
      TookWords(Flatten(groups[..w.l.published]));
    }
  }

  lemma CarriesLength(entries: seq<seq<Word>>, groups: seq<seq<Cmd>>)
    requires Carries(entries, groups)
    ensures |entries| == |groups|
  {
  }

  // ---- what has been drawn ----

  /** What the rasterizer is given: the records of a span list one by one, every other draw whole. */
  datatype Piece = Span(surface: seq<Word>, shift: Word, record: Record) | Whole(draw: Draw)

  function PiecesOf(d: Draw): seq<Piece> {
    match d
    case Spans(h, shift, rs) => seq(|rs|, i requires 0 <= i < |rs| => Span(h, shift, rs[i]))
    case _ => [Whole(d)]
  }

  function Pieces(ds: seq<Draw>): seq<Piece> {
    if ds == [] then [] else PiecesOf(ds[0]) + Pieces(ds[1..])
  }

  lemma {:induction false} PiecesAppend(a: seq<Draw>, b: seq<Draw>)
    ensures Pieces(a + b) == Pieces(a) + Pieces(b)
  {
    hide PiecesOf;
    if a == [] {
      assert a + b == b;
    } else {
      assert (a + b)[0] == a[0] && (a + b)[1..] == a[1..] + b;
      PiecesAppend(a[1..], b);
      Assoc(PiecesOf(a[0]), Pieces(a[1..]), Pieces(b));
    }
  }

  lemma PiecesOne(d: Draw)
    ensures Pieces([d]) == PiecesOf(d)
  {
    hide PiecesOf;
    assert [d][1..] == [];
  }

  /** A long list is drawn in chunks of four records while its payload still arrives: of n records, those
      in the whole chunks among these words, as long as more are to follow. */
  function Chunks(words: seq<Word>, n: nat): (rs: seq<Record>)
  {
    var k := if n == 0 || |words| / 6 < (n - 1) / 4 then |words| / 6 else (n - 1) / 4;
    if n == 0 then [] else Unpack(words[..6 * k], 4 * k)
  }

  /** What has been drawn of the command that the reader stands within. */
  function Underway(st: GpuSpans.Staging, r: Reader): seq<Draw> {
    if r.Idle? then []
    else if r.op == CMD_SPAN_LIST && |r.got| + r.left >= 33 && |r.got| >= 31 then
      var h, shift := r.got[..29], r.got[30];
      [Spans(h, shift, if ShiftOk(h, shift) then Chunks(r.got[31..], RecordCount(r.got[29])) else [])]
    else if r.op == CMD_SPAN_CONT && st.SpanHeader? && |r.got| >= 2 then
      [Spans(st.words, r.got[1], if st.usable then Chunks(r.got[2..], RecordCount(r.got[0])) else [])]
    else []
  }

  /** Everything drawn once these words have been fetched. */
  function DrawnSoFar(st: GpuSpans.Staging, ws: seq<Word>): seq<Piece> {
    var (r, cs) := Took(ws);
    var (st', ds) := Run(st, cs);
    Pieces(ds + Underway(st', r))
  }

  lemma {:induction false} UnpackPart(ws: seq<Word>, n: nat, k: nat)
    requires 3 * k <= |ws| && 2 * k <= n
    ensures Unpack(ws[..3 * k], 2 * k) <= Unpack(ws, n)
    decreases k
  {
    if k > 0 {
      var part := ws[..3 * k];
      assert part[3..] == ws[3..][..3 * (k - 1)];
      UnpackPart(ws[3..], n - 2, k - 1);
      assert part[0] == ws[0] && part[1] == ws[1] && part[2] == ws[2];
    }
  }

  lemma {:induction false} ChunksPart(words: seq<Word>, all: seq<Word>, n: nat)
    requires words <= all
    ensures Chunks(words, n) <= Unpack(all, n)
  {
    hide Unpack;
    if n > 0 {
      var k := if |words| / 6 < (n - 1) / 4 then |words| / 6 else (n - 1) / 4;
      assert words[..6 * k] == all[..3 * (2 * k)];
      UnpackPart(all, n, 2 * k);
    }
  }

  lemma SpansPart(h: seq<Word>, shift: Word, rs: seq<Record>, all: seq<Record>)
    requires rs <= all
    ensures PiecesOf(Spans(h, shift, rs)) <= PiecesOf(Spans(h, shift, all))
  {
  }

  /** What has been drawn of a command is a beginning of what it draws. */
  lemma UnderwayIsPart(st: GpuSpans.Staging, r: Reader, c: Cmd)
    requires r == Idle || Within(r, c)
    ensures Pieces(Underway(st, r)) <= Pieces(Exec(st, c).1)
  {
    hide PiecesOf, Pieces, Chunks, Unpack, ShiftOk, RecordCount, Exec;
    if r.Taking? && r.op == CMD_SPAN_LIST && |c.payload| >= 33 && |r.got| >= 31 {
      var h, shift, n := r.got[..29], r.got[30], RecordCount(r.got[29]);
      assert c.payload[..29] == h && c.payload[29] == r.got[29] && c.payload[30] == shift;
      assert r.got[31..] <= c.payload[31..];
      ChunksPart(r.got[31..], c.payload[31..], n);
      ExecIsList(st, c.payload);
      StartedList(h, shift, ShiftOk(h, shift), Chunks(r.got[31..], n), Unpack(c.payload[31..], n));
    } else if r.Taking? && r.op == CMD_SPAN_CONT && st.SpanHeader? && |r.got| >= 2 {
      var n := RecordCount(r.got[0]);
      assert c.payload[0] == r.got[0] && c.payload[1] == r.got[1];
      assert r.got[2..] <= c.payload[2..];
      ChunksPart(r.got[2..], c.payload[2..], n);
      ExecIsList(st, c.payload);
      StartedList(st.words, r.got[1], st.usable, Chunks(r.got[2..], n), Unpack(c.payload[2..], n));
    } else {
      NoPieces();
    }
  }

  lemma NoPieces()
    ensures Pieces([]) == []
  {
  }

  lemma StartedList(h: seq<Word>, shift: Word, ok: bool, rs: seq<Record>, all: seq<Record>)
    requires rs <= all
    ensures Pieces([Spans(h, shift, if ok then rs else [])]) <= Pieces([Spans(h, shift, if ok then all else [])])
  {
    hide Pieces, PiecesOf;
    PiecesOne(Spans(h, shift, if ok then rs else []));
    PiecesOne(Spans(h, shift, if ok then all else []));
    SpansPart(h, shift, if ok then rs else [], if ok then all else []);
  }

  /** Wherever a stream is cut, down to the chunks of a list, a beginning of it has been drawn. */
  lemma {:induction false} DrawsPart(st: GpuSpans.Staging, cs: seq<Cmd>, ws: seq<Word>, k: nat)
    requires k <= |cs| && Took(ws).1 == cs[..k]
    requires Took(ws).0 == Idle || (k < |cs| && Within(Took(ws).0, cs[k]))
    ensures DrawnSoFar(st, ws) <= Pieces(Run(st, cs).1)
  {
    hide Took, Run, Pieces, Underway, Exec;
    var (r, done) := Took(ws);
    var (st', ds) := Run(st, done);
    PiecesAppend(ds, Underway(st', r));
    assert done + cs[k..] == cs;
    RunAppend(st, done, cs[k..]);
    PiecesAppend(ds, Run(st', cs[k..]).1);
    if k < |cs| {
      var rest := cs[k + 1..];
      assert cs[k..] == [cs[k]] + rest;
      RunAppend(st', [cs[k]], rest);
      RunOne(st', cs[k]);
      PiecesAppend(Exec(st', cs[k]).1, Run(Exec(st', cs[k]).0, rest).1);
      UnderwayIsPart(st', r, cs[k]);
    } else {
      NothingUnderway(st');
      NoPieces();
    }
  }

  lemma NothingUnderway(st: GpuSpans.Staging)
    ensures Underway(st, Idle) == []
  {
  }

  /** End to end: as long as every continuation finds its header untouched, the GPU has at any moment drawn
      a beginning, record for record, of what the requests draw on a driver without a header cache. */
  lemma {:induction false} DrawsWhatWasAsked(w: World, groups: seq<seq<Cmd>>, cache: Cache, since: seq<Recs>,
        st: GpuSpans.Staging, rs: seq<Request>, f: Features)
    requires Inv(w) && Carries(w.l.cmds, groups) && Flatten(groups) == EmitAll(cache, rs, f).1
    requires Coherent(cache, since, st) && forall r <- rs :: WellFormed(r)
    ensures DrawnSoFar(st, w.p.fetched) <= Pieces(Run(st, EmitAll(cache, rs, f).1).1)
    ensures Undisturbed(cache, since, rs, f) ==> DrawnSoFar(st, w.p.fetched) <= Pieces(Run(st, EmitAllPlain(rs, f)).1)
  {
    hide Inv, Took, Run, EmitAll, EmitAllPlain, Flatten, Carries, WellFormed, WordsOf, DrawnSoFar, Pieces, Within;
    hide Undisturbed, Coherent;
    var k := Executed(w, groups);
    DrawsPart(st, Flatten(groups), w.p.fetched, k);
    CachePreservesMeaning(cache, since, st, rs, f);
  }

  /** Once everything is published and the peer has run dry, all commands have been executed, and what has
      been drawn is what was asked for if and only if every continuation found its header untouched. */
  lemma {:induction false} DrainedDraws(w: World, groups: seq<seq<Cmd>>, cache: Cache, since: seq<Recs>, st: GpuSpans.Staging,
                     rs: seq<Request>, f: Features)
    requires Inv(w) && Carries(w.l.cmds, groups) && Flatten(groups) == EmitAll(cache, rs, f).1
    requires Coherent(cache, since, st) && forall r <- rs :: WellFormed(r)
    requires w.l.published == |w.l.cmds| && Work(w.p, w.m) == 0
    ensures Took(w.p.fetched) == (Idle, Flatten(groups))
    ensures Run(st, Took(w.p.fetched).1).1 == Run(st, EmitAllPlain(rs, f)).1 <==> Undisturbed(cache, since, rs, f)
    ensures DrawnSoFar(st, w.p.fetched) == Pieces(Run(st, Took(w.p.fetched).1).1)
  {
    hide Inv, Took, Run, EmitAll, EmitAllPlain, Flatten, Work, Carries, WellFormed, WordsOf, Pieces, Underway;
    hide Undisturbed, Coherent;
    CarriesLength(w.l.cmds, groups);
    var k := Executed(w, groups);
    assert groups[..|groups|] == groups;
    CachePreservesMeaning(cache, since, st, rs, f);
    NothingUnderway(Run(st, Flatten(groups)).0);
    assert Run(st, Flatten(groups)).1 + [] == Run(st, Flatten(groups)).1;
  }

  // ---- fences ----

  /** The commands that publish a token when they are executed, whatever their payload. */
  predicate Publishes(c: Cmd) { c.op == CMD_FENCE || c.op == CMD_FLIP }

  /** Whether the payload is long enough to bring a token of its own. */
  predicate HasToken(c: Cmd) { Publishes(c) && |c.payload| > if c.op == CMD_FENCE then 0 else 1 }

  function TokenOf(c: Cmd): Word
    requires HasToken(c)
  {
    c.payload[if c.op == CMD_FENCE then 0 else 1]
  }

  /** The token waiting to be published: the last that a payload brought. */
  function Pending(cs: seq<Cmd>): Word {
    if cs == [] then 0
    else if HasToken(cs[|cs| - 1]) then TokenOf(cs[|cs| - 1])
    else Pending(cs[..|cs| - 1])
  }

  /** The register of the last token published. */
  function Reached(cs: seq<Cmd>): Word {
    if cs == [] then 0
    else if Publishes(cs[|cs| - 1]) then Pending(cs)
    else Reached(cs[..|cs| - 1])
  }

  function Fences(cs: seq<Cmd>): nat {
    if cs == [] then 0 else Fences(cs[..|cs| - 1]) + if Publishes(cs[|cs| - 1]) then 1 else 0
  }

  /** Tokens count from 1 in 32 bits. */
  predicate Numbered(cs: seq<Cmd>) {
    forall k :: 0 <= k < |cs| && Publishes(cs[k]) ==>
      HasToken(cs[k]) && TokenOf(cs[k]) == (Fences(cs[..k]) + 1) % M32
  }

  /** of_gpu_fence_reached: the difference as a signed 32-bit number is not negative. */
  predicate FenceReached(reached: Word, token: Word) { (reached - token) % M32 < M32 / 2 }

  lemma NumberedPart(cs: seq<Cmd>, k: nat)
    requires Numbered(cs) && k <= |cs|
    ensures Numbered(cs[..k])
  {
    hide Fences, Publishes, HasToken, TokenOf;
    forall j | 0 <= j < k && Publishes(cs[j])
      ensures HasToken(cs[..k][j]) && TokenOf(cs[..k][j]) == (Fences(cs[..k][..j]) + 1) % M32
    {
      assert cs[..k][..j] == cs[..j];
    }
  }

  lemma {:induction false} NumberedSnoc(cs: seq<Cmd>, c: Cmd)
    requires Numbered(cs) && (Publishes(c) ==> HasToken(c) && TokenOf(c) == (Fences(cs) + 1) % M32)
    ensures Numbered(cs + [c]) && Fences(cs + [c]) == Fences(cs) + if Publishes(c) then 1 else 0
  {
    hide Publishes, HasToken, TokenOf;
    var longer := cs + [c];
    assert longer[..|cs|] == cs && longer[|cs|] == c;
    forall k | 0 <= k < |longer| && Publishes(longer[k])
      ensures HasToken(longer[k]) && TokenOf(longer[k]) == (Fences(longer[..k]) + 1) % M32
    {
      assert k < |cs| ==> longer[..k] == cs[..k];
    }
  }

  lemma {:induction false} RegisterCounts(cs: seq<Cmd>)
    requires Numbered(cs)
    ensures Reached(cs) == Fences(cs) % M32
  {
    hide Publishes, HasToken, TokenOf;
    if cs != [] {
      NumberedPart(cs, |cs| - 1);
      RegisterCounts(cs[..|cs| - 1]);
    }
  }

  lemma {:induction false} FencesGrow(cs: seq<Cmd>, j: nat, k: nat)
    requires j <= k <= |cs|
    ensures Fences(cs[..j]) <= Fences(cs[..k]) <= Fences(cs[..j]) + k - j
    ensures j < k && Publishes(cs[j]) ==> Fences(cs[..j]) < Fences(cs[..k])
    decreases k
  {
    hide Publishes;
    if j < k {
      FencesGrow(cs, j, k - 1);
      assert cs[..k][..k - 1] == cs[..k - 1];
    }
  }

  lemma {:induction false} EveryCommandHasWords(cs: seq<Cmd>, k: nat)
    requires AllFit(cs) && k <= |cs|
    ensures AllFit(cs[..k]) && |cs| - k <= |WordsOf(cs)| - |WordsOf(cs[..k])|
    decreases cs
  {
    hide Fits;
    if k < |cs| {
      EveryCommandHasWords(cs[..|cs| - 1], k);
      assert cs[..|cs| - 1][..k] == cs[..k];
    } else {
      assert cs[..k] == cs;
    }
  }

  /** Few commands are ever outstanding, so the distance of two tokens never becomes ambiguous by itself. */
  lemma FewOutstanding(w: World, groups: seq<seq<Cmd>>) returns (k: nat)
    requires Inv(w) && w.l.owed == 0 && Carries(w.l.cmds, groups)
    ensures k <= |Flatten(groups)| <= k + BATCH_WORDS + 1
    ensures Took(w.p.fetched).1 == Flatten(groups)[..k]
  {
    hide Took, WordsOf, Flatten, AllFit, Carries, FreeBytes, Window, Work;
    var cs := Flatten(groups);
    CarriesAll(w.l.cmds, groups);
    k := Executed(w, groups);
    RingIsSafe(w);
    assert |w.l.Emitted()| == |w.p.fetched| + Outstanding(w);
    assert w.l.Emitted() == WordsOf(cs);
    EveryCommandHasWords(cs, if k < |cs| then k + 1 else k);
  }

  /** of_gpu_fence_reached says yes exactly when the token's command has been executed, and with it every
      command before it, and the tokens published since then, counted modulo 2^32, are fewer than 2^31. */
  lemma FenceIsExact(cs: seq<Cmd>, k: nat, j: nat)
    requires Numbered(cs) && k <= |cs| <= k + BATCH_WORDS + 1 && j < |cs| && HasToken(cs[j])
    ensures FenceReached(Reached(cs[..k]), TokenOf(cs[j])) <==>
            j < k && (Fences(cs[..k]) - Fences(cs[..j]) - 1) % M32 < M32 / 2
  {
    hide Numbered, Fences, Reached, TokenOf;
    NumberedPart(cs, k);
    RegisterCounts(cs[..k]);
    NumberedAt(cs, j);
    FencesGrow(cs, if j < k then j else k, if j < k then k else j);
    SignedDistance(Fences(cs[..k]), Fences(cs[..j]));
  }

  lemma NumberedAt(cs: seq<Cmd>, j: nat)
    requires Numbered(cs) && j < |cs| && HasToken(cs[j])
    ensures TokenOf(cs[j]) == (Fences(cs[..j]) + 1) % M32
  {
  }

  /** m tokens published; the token in question is number i, counted from 0. */
  lemma SignedDistance(m: nat, i: nat)
    ensures FenceReached(m % M32, (i + 1) % M32) <==> (m - i - 1) % M32 < M32 / 2
    ensures m <= i <= m + BATCH_WORDS + 1 ==> !FenceReached(m % M32, (i + 1) % M32)
  {
    var qm, qi := m / M32, (i + 1) / M32;
    assert m % M32 - (i + 1) % M32 == m - i - 1 + (qi - qm) * M32;
    ModTurns(m - i - 1, qi - qm);
  }

  lemma ModTurns(x: int, k: int)
    ensures (x + k * M32) % M32 == x % M32
  {
  }

  // ---- the driver as a whole ----

  /** What a caller may ask for without running into a trap: whole commands that fit the staging buffer,
      and tokens only from the driver's own fences and flips. */
  predicate Allowed(r: Request) {
    WellFormed(r) &&
    match r
    case SpanList(p, rs) => true
    case Compact(c) => Sendable(c) && !Publishes(c)
    case Plain(c) => Sendable(c) && !Publishes(c)
    case Stream(cs) => AllFit(cs) && |WordsOf(cs)| <= BATCH_WORDS && forall c <- cs :: !Publishes(c)
  }

  predicate Sendable(c: Cmd) { |c.payload| < BATCH_WORDS }

  /** All that the span list emitter sends can be sent. */
  lemma SpanListSendable(cache: Cache, p: SpanParams, rs: seq<Record>, f: Features)
    ensures forall c <- Emit(cache, SpanList(p, rs), f).1 :: Sendable(c) && !Publishes(c)
  {
    hide Header, Pack, Shift;
  }

  lemma {:induction false} EmitAllAppend(cache: Cache, a: seq<Request>, b: seq<Request>, f: Features)
    ensures var (c, out) := EmitAll(cache, a, f);
            EmitAll(cache, a + b, f) == (EmitAll(c, b, f).0, out + EmitAll(c, b, f).1)
    decreases a
  {
    hide Emit;
    if a == [] {
      assert a + b == b;
      assert [] + EmitAll(cache, b, f).1 == EmitAll(cache, b, f).1;
    } else {
      var (c, out) := Emit(cache, a[0], f);
      assert (a + b)[0] == a[0] && (a + b)[1..] == a[1..] + b;
      EmitAllAppend(c, a[1..], b, f);
      var (c', more) := EmitAll(c, a[1..], f);
      Assoc(out, more, EmitAll(c', b, f).1);
    }
  }

  lemma {:induction false} EmitAllOne(cache: Cache, r: Request, f: Features)
    ensures EmitAll(cache, [r], f) == Emit(cache, r, f)
  {
    hide Emit;
    var (c, out) := Emit(cache, r, f);
    assert EmitAll(c, [], f) == (c, []);
    assert [r][1..] == [] && out + [] == out;
  }

  class Gpu {
    const ring: GpuStream
    const spans: SpanEmitter
    ghost var groups: seq<seq<Cmd>>
    ghost var requests: seq<Request>

    constructor (f: Features)
      ensures Valid() && requests == [] && spans.features == f && ring.peer.fetched == []
      ensures fresh(ring) && fresh(ring.buf0) && fresh(ring.buf1) && fresh(spans) && fresh(spans.hdrCache)
    {
      ring := new GpuStream();
      spans := new SpanEmitter(f);
      groups, requests := [], [];
    }

    /** The words in the ring carry the commands sent, and the commands are what the emitters make of the
        requests. */
    ghost predicate Valid()
      reads this, ring, ring.buf0, ring.buf1, spans, spans.hdrCache
    {
      Apart() && Carried() && Numbered(spans.stream) &&
      ring.fenceNext == (Fences(spans.stream) + 1) % M32 && Flatten(groups) == spans.stream &&
      (spans.Remembered(), spans.stream) == EmitAll(Stale, requests, spans.features) &&
      forall r <- requests :: WellFormed(r)
    }

    ghost predicate Apart()
      reads this, spans
    {
      spans.Sized() && spans.hdrCache != ring.buf0 && spans.hdrCache != ring.buf1
    }

    ghost predicate Carried()
      reads this, ring, ring.buf0, ring.buf1
    {
      ring.Valid() && ring.ledger.owed == 0 && Carries(ring.ledger.cmds, groups)
    }

    // ---- sending ----

    /** One command into the word stream. */
    method Send(c: Cmd)
      requires Apart() && Carried() && Sendable(c)
      modifies ring, ring.buf0, ring.buf1, `groups
      ensures Apart() && Carried() && groups == old(groups) + [[c]] && ring.fenceNext == old(ring.fenceNext)
    {
      hide Carries, Inv;
      WordsOfSnoc([], c);
      assert [] + [c] == [c] && [] + Words(c) == Words(c);
      CarriesSnoc(ring.ledger.cmds, groups, [c]);
      ring.EmitCommand(Words(c));
      groups := groups + [[c]];
    }

    /** The commands an emitter has just made, one after the other. */
    method Push(from: nat)
      requires Apart() && Carried() && from <= |spans.stream| && Flatten(groups) == spans.stream[..from]
      requires forall c <- spans.stream[from..] :: Sendable(c)
      modifies ring, ring.buf0, ring.buf1, `groups
      ensures Apart() && Carried() && Flatten(groups) == spans.stream && ring.fenceNext == old(ring.fenceNext)
    {
      hide Flatten, Sendable;
      for i := from to |spans.stream|
        invariant Apart() && Carried() && Flatten(groups) == spans.stream[..i]
        invariant ring.fenceNext == old(ring.fenceNext)
      {
        assert spans.stream[i] in spans.stream[from..] by {
          assert spans.stream[from..][i - from] == spans.stream[i];
        }
        ghost var before := groups;
        Send(spans.stream[i]);
        FlattenSnoc(before, [spans.stream[i]]);
        assert spans.stream[..i + 1] == spans.stream[..i] + [spans.stream[i]];
      }
      assert spans.stream[..|spans.stream|] == spans.stream;
    }

    /** A ready-made stream, in one piece. */
    method SendStream(cs: seq<Cmd>)
      requires Apart() && Carried() && AllFit(cs) && |WordsOf(cs)| <= BATCH_WORDS && cs != []
      modifies ring, ring.buf0, ring.buf1, `groups
      ensures Apart() && Carried() && groups == old(groups) + [cs] && ring.fenceNext == old(ring.fenceNext)
    {
      hide Carries, Inv;
      EveryCommandHasWords(cs, 0);
      CarriesSnoc(ring.ledger.cmds, groups, cs);
      ring.SubmitCommandStreamBatch(WordsOf(cs));
      groups := groups + [cs];
    }

    /** Any request but the driver's own fences and flips. */
    method Do(r: Request)
      requires Valid() && Allowed(r)
      modifies ring, ring.buf0, ring.buf1, `groups, `requests, spans`hdrValid, spans`stream, spans.hdrCache
      ensures Valid() && requests == old(requests) + [r]
    {
      hide Carries, Inv, Numbered, Fences, EmitAll, Emit, Flatten, Publishes, Sendable, WordsOf, AllFit;
      ghost var sent := Emit(spans.Remembered(), r, spans.features).1;
      RequestSends(spans.Remembered(), r, spans.features);
      NumberedQuiet(spans.stream, sent);
      OneMoreRequest(requests, r, spans.features);
      var from := |spans.stream|;
      assert spans.stream == (spans.stream + sent)[..from] && sent == (spans.stream + sent)[from..];
      ghost var before := groups;
      match r {
        case SpanList(p, records) =>
          spans.EmitParamSpanList(p, records);
          Push(from);
        case Compact(c) =>
          spans.EmitCompact(c);
          Push(from);
        case Plain(c) =>
          spans.EmitPlain(c);
          Push(from);
        case Stream(cs) =>
          spans.EmitStream(cs);
          if cs != [] {
            SendStream(cs);
            FlattenSnoc(before, cs);
          }
      }
      requests := requests + [r];
    }

    /** of_gpu_draw_persp_span_group, as the span lists it sends. */
    method DrawGroup(g: PerspGroup)
      requires Valid() && GroupOk(g)
      modifies ring, ring.buf0, ring.buf1, `groups, `requests, spans`hdrValid, spans`stream, spans.hdrCache
      ensures Valid() && requests == old(requests) + GroupRequests(g, 0)
    {
      hide Carries, Inv, Numbered, Fences, EmitAll, Flatten, Publishes, Sendable, GroupRequests;
      ghost var more := GroupRequests(g, 0);
      ghost var sent := EmitAll(spans.Remembered(), more, spans.features).1;
      GroupSends(spans.Remembered(), g, 0, spans.features);
      GroupWellFormed(g, 0);
      NumberedQuiet(spans.stream, sent);
      EmitAllAppend(Stale, requests, more, spans.features);
      var from := |spans.stream|;
      assert spans.stream == (spans.stream + sent)[..from] && sent == (spans.stream + sent)[from..];
      spans.DrawPerspSpanGroup(g);
      Push(from);
      requests := requests + more;
    }

    // ---- tokens ----

    ghost function Now(): World
      reads ring, ring.buf0, ring.buf1
    {
      ring.Now()
    }

    /** A fence or flip that the ring has taken, entered in the books. */
    method Enter(c: Cmd, ghost books: seq<seq<Word>>, token: Word)
      requires Apart() && ring.Valid() && ring.ledger.owed == 0
      requires Fits(c) && Carries(books, groups) && ring.ledger.cmds == books + [Words(c)]
      requires HasToken(c) && TokenOf(c) == token && ring.fenceNext == (token + 1) % M32
      requires token == (Fences(spans.stream) + 1) % M32 && Numbered(spans.stream)
      requires Flatten(groups) == spans.stream && forall r <- requests :: WellFormed(r)
      requires (spans.Remembered(), spans.stream) == EmitAll(Stale, requests, spans.features)
      modifies `groups, `requests, spans`stream
      ensures Valid() && requests == old(requests) + [Plain(c)] && spans.stream == old(spans.stream) + [c]
    {
      hide Carries, Inv, Numbered, Fences, EmitAll, Flatten, WordsOf;
      WordsOfSnoc([], c);
      assert [] + [c] == [c] && WordsOf([]) + Words(c) == Words(c) by { NoWords(); }
      CarriesSnoc(books, groups, [c]);
      FlattenSnoc(groups, [c]);
      NumberedSnoc(spans.stream, c);
      OneMoreRequest(requests, Plain(c), spans.features);
      NextToken(token, Fences(spans.stream));
      groups, requests := groups + [[c]], requests + [Plain(c)];
      spans.stream := spans.stream + [c];
    }

    /** of_gpu_fence */
    method Fence() returns (token: Word)
      requires Valid()
      modifies ring, ring.buf0, ring.buf1, `groups, `requests, spans`stream
      ensures Valid() && token == old(ring.fenceNext)
      ensures requests == old(requests) + [Plain(Cmd(CMD_FENCE, [token]))]
      ensures spans.stream == old(spans.stream) + [Cmd(CMD_FENCE, [token])]
      ensures ring.ledger.syncEnd == |groups|
    {
      hide Carries, Inv, Numbered, Fences, EmitAll, Flatten;
      ghost var books := ring.ledger.cmds;
      token := ring.Fence();
      assert Words(Cmd(CMD_FENCE, [token])) == [CMD_FENCE * 0x100_0000 + 1, token];
      Enter(Cmd(CMD_FENCE, [token]), books, token);
      CarriesLength(ring.ledger.cmds, groups);
    }

    /** of_gpu_flip_to */
    method FlipTo(idx: int) returns (token: Word)
      requires Valid()
      modifies ring, ring.buf0, ring.buf1, `groups, `requests, spans`stream
      ensures Valid() && token == old(ring.fenceNext)
      ensures requests == old(requests) + [Plain(Cmd(CMD_FLIP, [idx % 4, token]))]
      ensures spans.stream == old(spans.stream) + [Cmd(CMD_FLIP, [idx % 4, token])]
      ensures ring.ledger.syncEnd == |groups|
    {
      hide Carries, Inv, Numbered, Fences, EmitAll, Flatten;
      ghost var books := ring.ledger.cmds;
      token := ring.FlipTo(idx);
      assert Words(Cmd(CMD_FLIP, [idx % 4, token])) == [CMD_FLIP * 0x100_0000 + 2, idx % 4, token];
      Enter(Cmd(CMD_FLIP, [idx % 4, token]), books, token);
      CarriesLength(ring.ledger.cmds, groups);
    }

    /** of_gpu_kick: afterwards every token asked for so far is on its way. */
    method Kick()
      requires Valid()
      modifies ring
      ensures Valid() && ring.ledger.syncEnd == old(ring.ledger.syncEnd) <= ring.ledger.published
    {
      hide Carries, Inv;
      ring.Kick();
    }

    /** GPU_FENCE_REACHED */
    function FenceRegister(): Word
      reads ring
    {
      Reached(Took(ring.peer.fetched).1)
    }

    /** of_gpu_wait for the token of command j, once it is on its way: it ends, and only after the command
        and all before it have been executed. */
    method Wait(token: Word, ghost j: nat)
      requires Valid() && OnItsWay(token, j)
      modifies ring`peer
      ensures Valid() && j < |Took(ring.peer.fetched).1| && Took(ring.peer.fetched).1 <= spans.stream
    {
      hide Carries, Inv, Numbered, Fences, EmitAll, Flatten, HasToken, Took, Work, WellFormed, TokenOf, Reached;
      hide FenceReached;
      WaitEnds(Now(), groups, j);
      while !FenceReached(FenceRegister(), token)
        modifies ring`peer
        invariant Valid() && OnItsWay(token, j)
        invariant FenceReached(FenceRegister(), token) ==> j < |Took(ring.peer.fetched).1|
        invariant !FenceReached(FenceRegister(), token) ==> ring.Left() > 0
        invariant Took(ring.peer.fetched).1 <= spans.stream
        decreases ring.Left()
      {
        ring.Step();
        WaitEnds(Now(), groups, j);
      }
    }

    /** Command j publishes the token, has been handed over, and is among the last 2^31 that publish one. */
    ghost predicate OnItsWay(token: Word, j: nat)
      reads this, ring, ring.buf0, ring.buf1, spans
    {
      ring.Valid() && ring.ledger.published <= |groups| &&
      j < |Flatten(groups[..ring.ledger.published])| && j < |spans.stream| && HasToken(spans.stream[j]) &&
      TokenOf(spans.stream[j]) == token && Fences(spans.stream) - Fences(spans.stream[..j]) <= M32 / 2
    }

    /** of_gpu_finish: when it returns, every command has been executed, whatever the peer's timing was, and
        the GPU has drawn exactly what all requests so far draw on a driver without a header cache if and
        only if every continuation found its header untouched. */
    method Finish()
      requires Valid()
      modifies ring, ring.buf0, ring.buf1, `groups, `requests, spans`stream
      ensures Valid() && requests == old(requests) + [Plain(Cmd(CMD_FENCE, [old(ring.fenceNext)]))]
      ensures Took(ring.peer.fetched).1 == spans.stream
      ensures Run(Invalid, Took(ring.peer.fetched).1).1 == Run(Invalid, EmitAllPlain(requests, spans.features)).1
              <==> Undisturbed(Stale, [], requests, spans.features)
      ensures Undisturbed(Stale, [], requests, spans.features) ==>
                DrawnLanes(Run(Invalid, Took(ring.peer.fetched).1).1) == AskedRun(Invalid, requests, spans.features)
    {
      hide Carries, Inv, Numbered, Flatten, Took, Run, EmitAll, EmitAllPlain, WellFormed, Fences, Undisturbed, DrawnLanes;
      var token := Fence();
      Kick();
      ghost var j: nat := |spans.stream| - 1;
      LastOnItsWay(spans.stream);
      AllHandedOver();
      Wait(token, j);
      assert Took(ring.peer.fetched).1 == spans.stream;
      CachePreservesMeaning(Stale, [], Invalid, requests, spans.features);
      RunDrawsAsked(Invalid, requests, spans.features);
    }

    lemma AllHandedOver()
      requires Valid() && |groups| <= ring.ledger.published
      ensures ring.ledger.published == |groups| && Flatten(groups[..ring.ledger.published]) == spans.stream
    {
      assert groups[..|groups|] == groups;
    }
  }

  lemma {:induction false} LastOnItsWay(cs: seq<Cmd>)
    requires cs != []
    ensures Fences(cs) - Fences(cs[..|cs| - 1]) <= 1
  {
  }

  /** Either the register shows the token, and then its command has been executed, or the peer still has
      something to do. */
  lemma {:induction false} WaitEnds(w: World, groups: seq<seq<Cmd>>, j: nat)
    requires Inv(w) && w.l.owed == 0 && Carries(w.l.cmds, groups) && Numbered(Flatten(groups))
    requires j < |Flatten(groups)| && HasToken(Flatten(groups)[j]) && w.l.published <= |groups|
    requires j < |Flatten(groups[..w.l.published])|
    requires Fences(Flatten(groups)) - Fences(Flatten(groups)[..j]) <= M32 / 2
    ensures QueueOk(w.p, w.m) && Took(w.p.fetched).1 <= Flatten(groups)
    ensures var done, token := Took(w.p.fetched).1, TokenOf(Flatten(groups)[j]);
            if FenceReached(Reached(done), token) then j < |done| else Work(w.p, w.m) > 0
  {
    hide Inv, Took, Flatten, Carries, Numbered, Publishes, Fences, Reached, TokenOf, FenceReached, WordsOf, AllFit, Work;
    var cs, done := Flatten(groups), Took(w.p.fetched).1;
    var m := FewOutstanding(w, groups);
    FenceIsExact(cs, m, j);
    InvFlow(w);
    if Work(w.p, w.m) == 0 {
      var k := Executed(w, groups);
      assert j < |done|;
      FencesGrow(cs, j, |done|);
      FencesGrow(cs, |done|, |cs|);
      assert cs[..|done|] == done && cs[..|cs|] == cs;
    }
  }

  lemma NoWords()
    ensures WordsOf([]) == [] && forall ws: seq<Word> :: [] + ws == ws
  {
  }

  lemma NextToken(token: Word, n: nat)
    requires token == (n + 1) % M32
    ensures (token + 1) % M32 == (n + 2) % M32
  {
  }

  lemma {:induction false} GroupSends(cache: Cache, g: PerspGroup, first: nat, f: Features)
    requires GroupOk(g) && first <= Lanes(g)
    ensures forall c <- EmitAll(cache, GroupRequests(g, first), f).1 :: Sendable(c) && !Publishes(c)
    decreases Lanes(g) - first
  {
    hide Emit, Sendable, Publishes, GroupParams, LaneRecords, Live;
    if first < Lanes(g) {
      var next := if Lanes(g) - first >= 4 then first + 4 else Lanes(g);
      var rs, rest := LaneRecords(g, first, next), GroupRequests(g, next);
      if Live(rs) {
        var (c, sent) := Emit(cache, SpanList(GroupParams(g), rs), f);
        SpanListSendable(cache, GroupParams(g), rs, f);
        assert GroupRequests(g, first)[1..] == rest;
        GroupSends(c, g, next, f);
      } else {
        assert [] + rest == rest;
        GroupSends(cache, g, next, f);
      }
    }
  }

  lemma RequestSends(cache: Cache, r: Request, f: Features)
    requires Allowed(r)
    ensures forall c <- Emit(cache, r, f).1 :: !Publishes(c)
    ensures !r.Stream? ==> forall c <- Emit(cache, r, f).1 :: Sendable(c)
    ensures r.Plain? ==> Emit(cache, r, f) == (cache, [r.cmd])
    ensures r.Stream? ==> Emit(cache, r, f).1 == r.cmds
  {
    hide Publishes, Sendable, AllFit, WordsOf;
    if r.SpanList? {
      SpanListSendable(cache, r.p, r.records, f);
    }
  }

  lemma {:induction false} NumberedQuiet(cs: seq<Cmd>, more: seq<Cmd>)
    requires Numbered(cs) && forall c <- more :: !Publishes(c)
    ensures Numbered(cs + more) && Fences(cs + more) == Fences(cs)
  {
    hide Numbered, Fences, Publishes;
    if more == [] {
      assert cs + more == cs;
    } else {
      var init, last := more[..|more| - 1], more[|more| - 1];
      NumberedQuiet(cs, init);
      NumberedSnoc(cs + init, last);
      assert (cs + init) + [last] == cs + more;
    }
  }

  lemma {:induction false} OneMoreRequest(rs: seq<Request>, r: Request, f: Features)
    ensures var (c, out) := EmitAll(Stale, rs, f);
            EmitAll(Stale, rs + [r], f) == (Emit(c, r, f).0, out + Emit(c, r, f).1)
  {
    hide Emit, EmitAll;
    EmitAllAppend(Stale, rs, [r], f);
    EmitAllOne(EmitAll(Stale, rs, f).0, r, f);
  }
}

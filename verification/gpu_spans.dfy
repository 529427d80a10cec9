/** The span-list emitter's header cache: when the 29 surface words of a list equal those the GPU
    already holds, only a records-only continuation goes on the wire.

    The GPU is abstract: one staging area, tagged with what was last loaded into it, shared by the
    long-form span list, the compact forms, the sticky triangle state and the records-only triangle,
    which loads its planes over whatever header is there. */
module GpuSpans {
  import opened Common
  import opened GpuRing

  type Int32 = x: int | -0x8000_0000 <= x < 0x8000_0000
  type Int16 = x: int | -0x8000 <= x < 0x8000
  type U16 = x: int | 0 <= x < 0x1_0000
  type U8 = x: int | 0 <= x < 0x100

  const CMD_SPAN_LIST := 0x48
  const CMD_SPAN_CONT := 0x58
  const CMD_PARAM_TRI := 0x49
  const CMD_TRI_RECS := 0x4D
  const CMD_SET_TRI_STATE := 0x4A
  const CMD_COLUMN_LIST := 0x4C
  const HEADER_WORDS := 29
  const MAX_RECORDS := 512
  const RECS_WORDS := 16
  const ATTR_PERSP := 1
  const ATTR_PERSP_Q29 := 3
  const SPAN_PERSP := 0x20

  const M32 := 0x1_0000_0000

  function W32(x: int): Word { x % M32 }

  datatype Record = Record(u: U16, v: U16, count: U16)

  datatype Plane = Plane(origin: Int32, du: Int32, dv: Int32)

  datatype SpanParams = SpanParams(
    fbBase: Word, fbMajor: Int32, fbMinor: Int32, texAddr: Word, texWidth: U16, texWMask: U16, texHMask: U16,
    flags: U8, colormapId: U8, attrMode: U8, spanAxis: U8, zMode: U8, q29Shift: U8,
    attr0: Plane, attr1: Plane, attr2: Plane, light: Plane,
    clampMin: (Int32, Int32, Int32), clampMax: (Int32, Int32, Int32),
    zBase: Word, zMajor: Int32, zMinor: Int32)

  datatype Cmd = Cmd(op: U8, payload: seq<Word>)

  // ---- the words on the wire ----

  function Control(p: SpanParams): Word {
    p.flags + (p.colormapId % 16) as int * 0x100 + (p.attrMode % 16) as int * 0x1000
    + (p.spanAxis % 16) as int * 0x1_0000 + (p.zMode % 16) as int * 0x100_0000
  }

  function PlaneWords(p: Plane): seq<Word> { [W32(p.origin), W32(p.du), W32(p.dv)] }

  function Header(p: SpanParams): (h: seq<Word>)
    ensures |h| == HEADER_WORDS
  {
    [p.fbBase, W32(p.fbMajor), W32(p.fbMinor), p.texAddr, p.texWidth, p.texWMask, p.texHMask, Control(p)]
    + PlaneWords(p.attr0) + PlaneWords(p.attr1) + PlaneWords(p.attr2) + PlaneWords(p.light)
    + [W32(p.clampMin.0), W32(p.clampMax.0), W32(p.clampMin.1), W32(p.clampMax.1), W32(p.clampMin.2), W32(p.clampMax.2)]
    + [p.zBase, W32(p.zMajor), W32(p.zMinor)]
  }

  /** The hardware's count wires are 12 bits wide; longer counts are clamped. */
  function Count12(c: U16): U16 { if c > 0xFFF then 0xFFF else c }

  /** Two records in three words; a last odd record is paired with zeros. */
  function Pack(rs: seq<Record>): (ws: seq<Word>)
    ensures |ws| == 3 * ((|rs| + 1) / 2)
  {
    if rs == [] then []
    else if |rs| == 1 then [rs[0].v as int * 0x1_0000 + rs[0].u, Count12(rs[0].count), 0]
    else PackPair(rs[0], rs[1]) + Pack(rs[2..])
  }

  function PackPair(a: Record, b: Record): seq<Word> {
    [a.v as int * 0x1_0000 + a.u, b.u as int * 0x1_0000 + Count12(a.count), Count12(b.count) as int * 0x1_0000 + b.v]
  }

  // ---- the abstract GPU ----

  type Surface = h: seq<Word> | |h| == 29 witness seq(29, _ => 0)

  /** What the shared registers hold: a span header, which a bad shift word makes unusable; the sticky
      triangle state and all that has been executed on top of it; or nothing that can be built upon. */
  datatype Staging = SpanHeader(words: Surface, usable: bool) | TriSticky(since: seq<Cmd>) | Invalid

  /** What a command draws: a span list over a surface, a self-contained command, or a command whose
      effect may depend on whatever is staged. */
  datatype Draw =
    | Spans(surface: seq<Word>, shift: Word, records: seq<Record>)
    | Direct(cmd: Cmd)
    | Using(staged: Staging, cmd: Cmd)

  /** The first n records whose words are there, counts included. */
  function Unpack(ws: seq<Word>, n: nat): seq<Record>
    decreases n
  {
    if n == 0 || |ws| < 2 then []
    else
      var first := Record(ws[0] % 0x1_0000, ws[0] / 0x1_0000, ws[1] % 0x1_0000);
      if n == 1 || |ws| == 2 then [first]
      else
        var second := Record(ws[1] / 0x1_0000, ws[2] % 0x1_0000, ws[2] / 0x1_0000);
        [first, second] + Unpack(ws[3..], n - 2)
  }

  /** The hardware takes 16 bits of a record count. */
  function RecordCount(w: Word): U16 { w % 0x1_0000 }

  /** Long-form span lists are told from the compact lane form by their length: 31 words and at least
      the words of one record, against 4 words and up to four lanes of 7. */
  predicate IsLongForm(payload: seq<Word>) { |payload| >= 33 }

  /** Payloads of any other length drain without being decoded. */
  predicate IsDecoded(c: Cmd) {
    if c.op == CMD_SPAN_LIST then |c.payload| >= 11
    else if c.op == CMD_COLUMN_LIST then 9 <= |c.payload| <= 24
    else if c.op == CMD_PARAM_TRI then |c.payload| == 36
    else if c.op == CMD_SET_TRI_STATE then 16 <= |c.payload| <= 17
    else if c.op == CMD_TRI_RECS then |c.payload| == RECS_WORDS
    else if c.op == CMD_SPAN_CONT then |c.payload| >= 2
    else true
  }

  /** A shift needs a header whose control word asks for scaled attributes. */
  predicate ShiftOk(h: Surface, shift: Word) {
    shift == 0 || (shift < 32 && h[7] / 0x1000 % 4 == 3 && h[7] / 0x10_0000 % 16 == 0)
  }

  /** A span header after a records-only triangle: its planes are the triangle's. */
  function Overlaid(st: Staging, payload: seq<Word>): Staging
    requires st.SpanHeader? && |payload| == RECS_WORDS
  {
    SpanHeader(st.words[..8] + payload[..12] + st.words[20..], st.usable && ShiftOk(st.words, payload[12]))
  }

  function Exec(st: Staging, c: Cmd): (Staging, seq<Draw>) {
    if !IsDecoded(c) then (st, [])
    else if c.op == CMD_SPAN_LIST && IsLongForm(c.payload) then ExecList(c.payload)
    else if c.op == CMD_SPAN_CONT then (st, if st.SpanHeader? then [ExecCont(st, c.payload)] else [])
    else if c.op == CMD_SPAN_LIST || c.op == CMD_COLUMN_LIST || c.op == CMD_PARAM_TRI then (Invalid, [Direct(c)])
    else if c.op == CMD_SET_TRI_STATE then (TriSticky([c]), [])
    else if st.TriSticky? then (TriSticky(st.since + [c]), [Using(st, c)])
    else if c.op == CMD_TRI_RECS then (if st.SpanHeader? then Overlaid(st, c.payload) else st, [])
    else (st, [Using(st, c)])
  }

  function ExecList(payload: seq<Word>): (Staging, seq<Draw>)
    requires IsLongForm(payload)
  {
    var h, n, shift := payload[..29], RecordCount(payload[29]), payload[30];
    (SpanHeader(h, ShiftOk(h, shift)), [Spans(h, shift, if ShiftOk(h, shift) then Unpack(payload[31..], n) else [])])
  }

  function ExecCont(st: Staging, payload: seq<Word>): Draw
    requires st.SpanHeader? && |payload| >= 2
  {
    Spans(st.words, payload[1], if st.usable then Unpack(payload[2..], RecordCount(payload[0])) else [])
  }

  function Run(st: Staging, cmds: seq<Cmd>): (Staging, seq<Draw>)
    decreases cmds
  {
    if cmds == [] then (st, [])
    else
      var (st', d) := Exec(st, cmds[0]);
      var (end, ds) := Run(st', cmds[1..]);
      (end, d + ds)
  }

  lemma {:induction false} RunAppend(st: Staging, a: seq<Cmd>, b: seq<Cmd>)
    ensures Run(st, a + b) == (Run(Run(st, a).0, b).0, Run(st, a).1 + Run(Run(st, a).0, b).1)
    decreases a
  {
    hide Exec;
    if a == [] {
      assert a + b == b;
      assert [] + Run(st, b).1 == Run(st, b).1;
    } else {
      var (st', d) := Exec(st, a[0]);
      assert (a + b)[1..] == a[1..] + b;
      RunAppend(st', a[1..], b);
      Assoc(d, Run(st', a[1..]).1, Run(Run(st', a[1..]).0, b).1);
    }
  }

  // ---- packing is faithful ----

  function Clamped(rs: seq<Record>): (r: seq<Record>)
    ensures |r| == |rs|
    ensures forall i :: 0 <= i < |rs| ==> r[i] == rs[i].(count := Count12(rs[i].count))
  {
    if rs == [] then [] else [rs[0].(count := Count12(rs[0].count))] + Clamped(rs[1..])
  }

  /** What the GPU unpacks is what was packed, counts clamped to 12 bits, odd tail included. */
  lemma {:induction false} UnpackPack(rs: seq<Record>)
    ensures Unpack(Pack(rs), |rs|) == Clamped(rs)
  {
    if |rs| >= 2 {
      var ws := Pack(rs);
      assert ws[3..] == Pack(rs[2..]);
      assert ws[..3] == PackPair(rs[0], rs[1]);
      UnpackPack(rs[2..]);
      assert Clamped(rs) == Clamped(rs)[..2] + Clamped(rs[2..]);
    }
  }

  // ---- the emitters ----

  datatype Features = Features(spanCont: bool, q29Scale: bool)

  /** What the driver remembers of the GPU's staging area. */
  datatype Cache = Valid(words: seq<Word>) | Stale

  datatype Request =
    | SpanList(p: SpanParams, records: seq<Record>)
    | Compact(cmd: Cmd)      // 0x48 lane form, 0x4C, 0x49, 0x4A: overwrite the shared staging
    | Plain(cmd: Cmd)        // everything after which the driver keeps its cache
    | Stream(cmds: seq<Cmd>) // ready-made commands of any kind

  predicate WellFormed(r: Request) {
    match r
    case SpanList(p, rs) => true
    case Compact(c) =>
      c.op == CMD_COLUMN_LIST || c.op == CMD_PARAM_TRI || c.op == CMD_SET_TRI_STATE ||
      (c.op == CMD_SPAN_LIST && !IsLongForm(c.payload))
    case Plain(c) =>
      c.op != CMD_SPAN_LIST && c.op != CMD_SPAN_CONT && c.op != CMD_COLUMN_LIST && c.op != CMD_PARAM_TRI &&
      c.op != CMD_SET_TRI_STATE
    case Stream(cs) => true
  }

  function Shift(p: SpanParams): Word {
    if p.attrMode == ATTR_PERSP_Q29 then p.q29Shift % 32 else 0
  }

  /** The requests the emitter drops without a command. */
  predicate Dropped(p: SpanParams, rs: seq<Record>, f: Features) {
    rs == [] || p.zMode > 3 || (Shift(p) != 0 && !f.q29Scale)
  }

  function Capped(rs: seq<Record>): (r: seq<Record>)
    ensures |r| <= MAX_RECORDS
  {
    if |rs| > MAX_RECORDS then rs[..MAX_RECORDS] else rs
  }

  function LongForm(p: SpanParams, rs: seq<Record>): Cmd
    requires |rs| <= MAX_RECORDS
  {
    Cmd(CMD_SPAN_LIST, Header(p) + [|rs|, Shift(p)] + Pack(rs))
  }

  function Continuation(p: SpanParams, rs: seq<Record>): Cmd
    requires |rs| <= MAX_RECORDS
  {
    Cmd(CMD_SPAN_CONT, [|rs|, Shift(p)] + Pack(rs))
  }

  /** One emitter call with the header cache. */
  function Emit(cache: Cache, r: Request, f: Features): (Cache, seq<Cmd>) {
    match r
    case SpanList(p, rs) =>
      if Dropped(p, rs, f) then (cache, [])
      else if cache == Valid(Header(p)) && f.spanCont then (cache, [Continuation(p, Capped(rs))])
      else (Valid(Header(p)), [LongForm(p, Capped(rs))])
    case Compact(c) => (Stale, [c])
    case Plain(c) => (cache, [c])
    case Stream(cs) => if cs == [] then (cache, []) else (Stale, cs)
  }

  /** The same call on a driver without a cache. */
  function EmitPlain(r: Request, f: Features): seq<Cmd> {
    match r
    case SpanList(p, rs) => if Dropped(p, rs, f) then [] else [LongForm(p, Capped(rs))]
    case Compact(c) => [c]
    case Plain(c) => [c]
    case Stream(cs) => cs
  }

  function EmitAll(cache: Cache, rs: seq<Request>, f: Features): (Cache, seq<Cmd>)
    decreases rs
  {
    if rs == [] then (cache, [])
    else
      var (c1, out) := Emit(cache, rs[0], f);
      var (c2, more) := EmitAll(c1, rs[1..], f);
      (c2, out + more)
  }

  function EmitAllPlain(rs: seq<Request>, f: Features): seq<Cmd> {
    if rs == [] then [] else EmitPlain(rs[0], f) + EmitAllPlain(rs[1..], f)
  }

  // ---- when the cache preserves meaning ----

  predicate IsRecs(c: Cmd) { c.op == CMD_TRI_RECS && |c.payload| == RECS_WORDS }

  type Recs = c: Cmd | IsRecs(c) witness Cmd(CMD_TRI_RECS, seq(16, _ => 0))

  /** What the GPU holds after a header and the records-only triangles since. */
  function Held(h: Surface, since: seq<Recs>): (st: Staging)
    ensures st.SpanHeader? && st.words[7] == h[7]
  {
    if since == [] then SpanHeader(h, true) else Overlaid(Held(h, since[..|since| - 1]), since[|since| - 1].payload)
  }

  /** No triangle since, or all with acceptable shift words and the last with the header's own planes. */
  predicate Untouched(h: Surface, since: seq<Recs>)
  {
    since == [] || (since[|since| - 1].payload[..12] == h[8..20] && forall c <- since :: ShiftOk(h, c.payload[12]))
  }

  /** Only such triangles leave the header as it was. */
  lemma {:induction false} HeldIsHeader(h: Surface, since: seq<Recs>)
    ensures Held(h, since) == SpanHeader(h, true) <==> Untouched(h, since)
    ensures Held(h, since).words[..8] == h[..8] && Held(h, since).words[20..] == h[20..]
    ensures since != [] ==> Held(h, since).words[8..20] == since[|since| - 1].payload[..12]
    ensures Held(h, since).usable <==> forall c <- since :: ShiftOk(h, c.payload[12])
  {
    hide ShiftOk;
    if since != [] {
      var init, last := since[..|since| - 1], since[|since| - 1];
      assert since == init + [last];
      HeldIsHeader(h, init);
      var w, v := Held(h, init).words, Held(h, since).words;
      assert v == w[..8] + last.payload[..12] + w[20..];
      SameShift(w, h, last.payload[12]);
    }
    var v := Held(h, since).words;
    assert v == v[..8] + v[8..20] + v[20..] && h == h[..8] + h[8..20] + h[20..];
  }

  lemma SameShift(w: Surface, h: Surface, shift: Word)
    requires w[..8] == h[..8]
    ensures ShiftOk(w, shift) == ShiftOk(h, shift)
  {
    assert w[7] == w[..8][7] == h[7];
  }

  /** A valid cache is what the GPU held before the triangles since. */
  predicate Coherent(cache: Cache, since: seq<Recs>, st: Staging) {
    cache.Valid? ==> |cache.words| == HEADER_WORDS && st == Held(cache.words, since)
  }

  /** The guard of the records-only branch. */
  predicate Continues(cache: Cache, r: Request, f: Features) {
    r.SpanList? && !Dropped(r.p, r.records, f) && cache == Valid(Header(r.p)) && f.spanCont
  }

  /** The records-only triangles since the last header went out. */
  function Since(cache: Cache, since: seq<Recs>, r: Request, f: Features): seq<Recs> {
    match r
    case SpanList(p, rs) => if Dropped(p, rs, f) || Continues(cache, r, f) then since else []
    case Compact(c) => []
    case Plain(c) => if IsRecs(c) then since + [c] else since
    case Stream(cs) => if cs == [] then since else []
  }

  function SinceAll(cache: Cache, since: seq<Recs>, rs: seq<Request>, f: Features): seq<Recs>
    decreases rs
  {
    if rs == [] then since
    else SinceAll(Emit(cache, rs[0], f).0, Since(cache, since, rs[0], f), rs[1..], f)
  }

  /** Every continuation finds its header untouched by records-only triangles. */
  predicate Undisturbed(cache: Cache, since: seq<Recs>, rs: seq<Request>, f: Features)
    decreases rs
  {
    rs == [] ||
    ((Continues(cache, rs[0], f) ==> Untouched(Header(rs[0].p), since)) &&
     Undisturbed(Emit(cache, rs[0], f).0, Since(cache, since, rs[0], f), rs[1..], f))
  }

  /** The driver's own shift words are acceptable to its own headers. */
  lemma DriverShiftOk(p: SpanParams)
    ensures ShiftOk(Header(p), Shift(p))
  {
    var low := p.flags + (p.colormapId % 16) as int * 0x100;
    var high := (p.spanAxis % 16) as int * 0x1_0000 + (p.zMode % 16) as int * 0x100_0000;
    var mode: int := (p.attrMode % 16) as int;
    assert Header(p)[7] == low + mode * 0x1000 + high;
    assert Header(p)[7] / 0x1000 == mode + 16 * ((p.spanAxis % 16) as int) + 0x1000 * ((p.zMode % 16) as int);
    assert Header(p)[7] / 0x10_0000 == 16 * ((p.zMode % 16) as int);
  }

  lemma {:induction false} LongFormMeaning(st: Staging, p: SpanParams, rs: seq<Record>)
    requires 0 < |rs| <= MAX_RECORDS
    ensures Exec(st, LongForm(p, rs)) == (SpanHeader(Header(p), true), [Spans(Header(p), Shift(p), Clamped(rs))])
  {
    hide Header, Pack, Unpack, Shift, Clamped, LongForm, Exec, ShiftOk;
    var h, tail := Header(p), Pack(rs);
    assert |tail| >= 3;
    DriverShiftOk(p);
    ExecLong(st, h, |rs|, Shift(p), tail);
    LongFormWords(p, rs);
    UnpackPack(rs);
  }

  lemma {:induction false} LongFormWords(p: SpanParams, rs: seq<Record>)
    requires |rs| <= MAX_RECORDS
    ensures LongForm(p, rs) == Cmd(CMD_SPAN_LIST, Header(p) + [|rs|, Shift(p)] + Pack(rs))
  {
  }

  lemma {:induction false} ExecLong(st: Staging, h: Surface, x: Word, y: Word, rest: seq<Word>)
    requires |rest| >= 2 && x < 0x1_0000 && ShiftOk(h, y)
    ensures Exec(st, Cmd(CMD_SPAN_LIST, h + [x, y] + rest)) == (SpanHeader(h, true), [Spans(h, y, Unpack(rest, x))])
  {
    hide Unpack, ShiftOk, Exec, RecordCount;
    Parts(h, x, y, rest);
    SmallCount(x);
    ExecIsList(st, h + [x, y] + rest);
  }

  lemma ExecIsList(st: Staging, payload: seq<Word>)
    ensures IsLongForm(payload) ==> Exec(st, Cmd(CMD_SPAN_LIST, payload)) == ExecList(payload)
    ensures st.SpanHeader? && |payload| >= 2 ==> Exec(st, Cmd(CMD_SPAN_CONT, payload)) == (st, [ExecCont(st, payload)])
  {
    hide ExecList, ExecCont, Overlaid;
  }

  lemma SmallCount(x: Word)
    requires x < 0x1_0000
    ensures RecordCount(x) == x
  {
  }

  lemma Parts(h: seq<Word>, x: Word, y: Word, rest: seq<Word>)
    requires |h| == HEADER_WORDS
    ensures var w := h + [x, y] + rest; |w| == 31 + |rest| && w[..29] == h && w[29] == x && w[30] == y && w[31..] == rest
  {
  }

  lemma {:induction false} ContinuationMeaning(st: Staging, p: SpanParams, rs: seq<Record>)
    requires 0 < |rs| <= MAX_RECORDS && st.SpanHeader?
    ensures Exec(st, Continuation(p, rs)) == (st, [Spans(st.words, Shift(p), if st.usable then Clamped(rs) else [])])
  {
    hide Header, Pack, Unpack, Shift, Clamped, Exec, RecordCount;
    var payload := Continuation(p, rs).payload;
    assert payload[2..] == Pack(rs);
    ExecIsList(st, payload);
    SmallCount(|rs|);
    UnpackPack(rs);
  }

  lemma {:induction false} RunOne(st: Staging, c: Cmd)
    ensures Run(st, [c]) == Exec(st, c)
  {
    hide Exec;
    assert [c][1..] == [];
    var (st', d) := Exec(st, c);
    assert Run(st', []) == (st', []);
    assert d + [] == d;
  }

  /** One list: the cached driver's command leaves the GPU with the header as the cache has it, and draws
      what the long form draws exactly if it is the long form or the header is untouched. */
  lemma {:induction false} ListPreserves(cache: Cache, since: seq<Recs>, st: Staging, p: SpanParams, rs: seq<Record>, f: Features)
    requires Coherent(cache, since, st) && !Dropped(p, rs, f)
    ensures var r := SpanList(p, rs);
            var (cached, plain) := (Run(st, Emit(cache, r, f).1), Run(st, EmitPlain(r, f)));
            Coherent(Emit(cache, r, f).0, Since(cache, since, r, f), cached.0) &&
            if Continues(cache, r, f) && !Untouched(Header(p), since) then
              |cached.1| == |plain.1| == 1 && cached.1 != plain.1
            else cached == plain
  {
    hide Header, Pack, Unpack, Shift, Clamped, Run, LongForm, Continuation, Exec, Untouched;
    LongFormMeaning(st, p, Capped(rs));
    RunOne(st, LongForm(p, Capped(rs)));
    if Continues(cache, SpanList(p, rs), f) {
      ContinuationMeaning(st, p, Capped(rs));
      RunOne(st, Continuation(p, Capped(rs)));
      HeldIsHeader(Header(p), since);
      assert |Clamped(Capped(rs))| > 0;
    }
  }

  /** One call: the cache stays coherent, and both drivers leave the GPU with the same staging area and
      draw the same things, unless a continuation finds its header touched; then what they draw differs. */
  lemma {:induction false} EmitPreserves(cache: Cache, since: seq<Recs>, st: Staging, r: Request, f: Features)
    requires Coherent(cache, since, st) && WellFormed(r)
    ensures var (cached, plain) := (Run(st, Emit(cache, r, f).1), Run(st, EmitPlain(r, f)));
            Coherent(Emit(cache, r, f).0, Since(cache, since, r, f), cached.0) &&
            if Continues(cache, r, f) && !Untouched(Header(r.p), since) then
              |cached.1| == |plain.1| == 1 && cached.1 != plain.1
            else cached == plain
  {
    hide Header, Pack, Unpack, Shift, Clamped, Run, LongForm, Continuation, Exec, Untouched, Held;
    RunNone(st);
    match r
    case SpanList(p, rs) =>
      if !Dropped(p, rs, f) {
        ListPreserves(cache, since, st, p, rs, f);
      }
    case Compact(c) =>
      RunOne(st, c);
    case Plain(c) =>
      RunOne(st, c);
      PlainStaging(cache, since, st, c);
    case Stream(cs) =>
  }

  /** The commands that leave the cache alone leave a header alone, but for the records-only triangle. */
  lemma PlainStaging(cache: Cache, since: seq<Recs>, st: Staging, c: Cmd)
    requires Coherent(cache, since, st) && WellFormed(Plain(c))
    ensures Coherent(cache, if IsRecs(c) then since + [c] else since, Exec(st, c).0)
  {
    hide Overlaid;
    if IsRecs(c) {
      var longer := since + [c];
      assert longer[..|longer| - 1] == since;
    }
  }

  lemma {:induction false} RunNone(st: Staging)
    ensures Run(st, []) == (st, [])
  {
  }

  lemma FirstDiffers(d: seq<Draw>, d': seq<Draw>, ds: seq<Draw>, ds': seq<Draw>)
    requires |d| == |d'|
    ensures d + ds == d' + ds' <==> d == d' && ds == ds'
  {
    if d + ds == d' + ds' {
      assert d == (d + ds)[..|d|] && d' == (d' + ds')[..|d|];
      assert ds == (d + ds)[|d|..] && ds' == (d' + ds')[|d|..];
    }
  }

  /** Any run of emitters, from any coherent state: the stream with continuations draws exactly what the
      stream without them draws, in the same order, if and only if every continuation finds its header
      untouched by the records-only triangles since the last long form. */
  lemma {:induction false} CachePreservesMeaning(cache: Cache, since: seq<Recs>, st: Staging, rs: seq<Request>, f: Features)
    requires Coherent(cache, since, st) && forall r <- rs :: WellFormed(r)
    ensures Run(st, EmitAll(cache, rs, f).1).1 == Run(st, EmitAllPlain(rs, f)).1 <==> Undisturbed(cache, since, rs, f)
    ensures Undisturbed(cache, since, rs, f) ==> Run(st, EmitAll(cache, rs, f).1) == Run(st, EmitAllPlain(rs, f))
    ensures Coherent(EmitAll(cache, rs, f).0, SinceAll(cache, since, rs, f), Run(st, EmitAll(cache, rs, f).1).0)
    decreases rs
  {
    hide Emit, EmitPlain, Run, Exec, WellFormed, Continues, Untouched, Since, Coherent, Header;
    RunNone(st);
    if rs != [] {
      var (c1, out) := Emit(cache, rs[0], f);
      var plain, more, morePlain := EmitPlain(rs[0], f), EmitAll(c1, rs[1..], f).1, EmitAllPlain(rs[1..], f);
      EmitPreserves(cache, since, st, rs[0], f);
      CachePreservesMeaning(c1, Since(cache, since, rs[0], f), Run(st, out).0, rs[1..], f);
      RunAppend(st, out, more);
      RunAppend(st, plain, morePlain);
      FirstDiffers(Run(st, out).1, Run(st, plain).1, Run(Run(st, out).0, more).1, Run(Run(st, plain).0, morePlain).1);
    }
  }

  /** Without continuations, as on every core that does not advertise them, nothing can be disturbed. */
  lemma {:induction false} NoContinuations(cache: Cache, since: seq<Recs>, rs: seq<Request>, f: Features)
    requires !f.spanCont
    ensures Undisturbed(cache, since, rs, f)
    decreases rs
  {
    hide Emit, Header;
    if rs != [] {
      NoContinuations(Emit(cache, rs[0], f).0, Since(cache, since, rs[0], f), rs[1..], f);
    }
  }

  /** Nor without records-only triangles. */
  lemma {:induction false} NoTriangles(cache: Cache, rs: seq<Request>, f: Features)
    requires forall r <- rs :: r.Plain? ==> !IsRecs(r.cmd)
    ensures Undisturbed(cache, [], rs, f)
    decreases rs
  {
    hide Emit, Header;
    if rs != [] {
      assert rs[0] in rs;
      NoTriangles(Emit(cache, rs[0], f).0, rs[1..], f);
    }
  }

  /** A list, a records-only triangle with other planes, the list again: with the cache something else is
      drawn than without. */
  lemma {:induction false} CacheCanMislead(p: SpanParams, records: seq<Record>, tri: Cmd, st: Staging)
    requires records != [] && p.zMode <= 3 && IsRecs(tri) && tri.payload[..12] != Header(p)[8..20]
    ensures var rs, f := [SpanList(p, records), Plain(tri), SpanList(p, records)], Features(true, true);
            Run(st, EmitAll(Stale, rs, f).1).1 != Run(st, EmitAllPlain(rs, f)).1
  {
    hide Run, EmitAllPlain, Header, Pack, Shift;
    var list, f := SpanList(p, records), Features(true, true);
    var rs := [list, Plain(tri), list];
    CachePreservesMeaning(Stale, [], st, rs, f);
    assert rs[1..] == [Plain(tri), list] && rs[1..][1..] == [list];
    assert Since(Stale, [], list, f) == [] && Since(Valid(Header(p)), [], Plain(tri), f) == [tri];
    assert !Undisturbed(Valid(Header(p)), [tri], [list], f);
    assert !Undisturbed(Valid(Header(p)), [], [Plain(tri), list], f);
  }
}

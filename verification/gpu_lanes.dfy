/** What the rasterizer is given: the registers that a span header loads, the lanes that records expand to,
    and the lanes that a request asks for by its own fields. */
module GpuLanes {
  import opened Common
  import opened GpuRing
  import opened GpuSpans
  import LittleEndian

  // ---- lanes ----

  /** A value along a span: where it starts and by how much it grows from pixel to pixel. */
  datatype Ramp = Ramp(start: Word, step: Word)

  datatype Texture = Texture(addr: Word, width: U16, wMask: U16, hMask: U16)

  datatype Look = Look(colormap: bool, blend: bool, skipZero: bool, translucent: bool, truecolor: bool, table: nat)

  datatype Clamp = NoClamp | Clamp(min: Word, max: Word)

  datatype Depth = NoDepth | Depth(at: Ramp, writes: bool, tests: bool)

  /** One scalar span: address and attributes of its pixels, how they are textured, and how many there are. */
  datatype Lane = Lane(fb: Ramp, s: Ramp, t: Ramp, zi: Ramp, light: Ramp, tex: Texture, look: Look, persp: bool,
                       scaled: bool, shift: nat, clampS: Clamp, clampT: Clamp, depth: Depth, count: nat)

  // ---- the registers ----

  datatype Slopes = Slopes(origin: Word, du: Word, dv: Word)

  datatype Steps = Steps(base: Word, major: Word, minor: Word)

  datatype Registers = Registers(fb: Steps, z: Steps, tex: Texture, look: Look, persp: bool, scaled: bool, rows: bool,
                                 zWrite: bool, zTest: bool, s: Slopes, t: Slopes, zi: Slopes, light: Slopes,
                                 clampS: Clamp, clampT: Clamp, supported: bool)

  function Low(w: Word): U16 { w % 0x1_0000 }

  predicate Flag(w: Word, unit: nat)
    requires unit > 0
  {
    w / unit % 2 == 1
  }

  function MaskOf(m: U16): U16 { if m == 0 then 0xFFFF else m }

  function WidthOf(w: U16): U16 { if w == 0 then 1 else w }

  /** A texture without a mask does not wrap, and one without a width is a single texel wide. */
  lemma UnsetSizes(m: U16, x: U16)
    ensures MaskOf(m) == m <==> m != 0
    ensures m == 0 ==> x % (MaskOf(m) + 1) == x
    ensures if m == 0 then x * WidthOf(m) == x else WidthOf(m) == m
  {
  }

  function ClampOf(min: Word, max: Word): Clamp { if min == 0 && max == 0 then NoClamp else Clamp(min, max) }

  /** What the loader stores, header word by header word; words 24 and 25 go nowhere. */
  function Loaded(h: Surface): Registers {
    var c := h[7];
    var format := c / 0x10_0000 % 16 == 0;
    var persp, zWrite, zTest := Flag(c, 0x1000), Flag(c, 0x100_0000), Flag(c, 0x200_0000);
    Registers(
      Steps(h[0], h[1], h[2]), Steps(h[26], h[27], h[28]),
      Texture(h[3], WidthOf(Low(h[4])), MaskOf(Low(h[5])), MaskOf(Low(h[6]))),
      Look(Flag(c, 0x1), Flag(c, 0x2), Flag(c, 0x4), Flag(c, 0x40), Flag(c, 0x80), c / 0x100 % 16),
      persp && format, Flag(c, 0x2000) && persp && format, Flag(c, 0x1_0000), zWrite && format, zTest && format,
      Slopes(h[8], h[9], h[10]), Slopes(h[11], h[12], h[13]), Slopes(h[14], h[15], h[16]), Slopes(h[17], h[18], h[19]),
      ClampOf(h[20], h[21]), ClampOf(h[22], h[23]),
      format && c / 0x2_0000 % 8 == 0 && !Flag(c, 0x8000) && !Flag(c, 0x4000) && (Flag(c, 0x2000) ==> persp) &&
      !Flag(c, 0x800_0000) && !Flag(c, 0x400_0000) &&
      (zTest || zWrite ==> persp && !Flag(c, 0x40) && (zWrite && !zTest ==> !Flag(c, 0x4))))
  }

  /** The hardware keeps columns and rows as signed 16-bit numbers. */
  function Signed(x: U16): Int16 { if x < 0x8000 then x else x - 0x1_0000 }

  function From(q: Slopes, u: int, v: int, rows: bool): Ramp {
    Ramp(W32(q.origin + u * q.du + v * q.dv), if rows then q.dv else q.du)
  }

  function FromBase(q: Steps, major: int, minor: int): Ramp { Ramp(W32(q.base + major * q.major + minor * q.minor), q.minor) }

  /** How a record is expanded: spans run along the columns, or along the rows. */
  function Expand(g: Registers, shift: Word, r: Record): Lane {
    var u, v := Signed(r.u), Signed(r.v);
    var major, minor := if g.rows then u else v, if g.rows then v else u;
    Lane(FromBase(g.fb, major, minor), From(g.s, u, v, g.rows), From(g.t, u, v, g.rows),
         if g.persp then From(g.zi, u, v, g.rows) else Ramp(0, 0),
         if g.look.colormap || g.look.truecolor then From(g.light, u, v, g.rows) else Ramp(0, 0),
         g.tex, g.look, g.persp, g.scaled, if g.scaled then shift % 32 else 0, g.clampS, g.clampT,
         if g.zWrite || g.zTest then Depth(FromBase(g.z, major, minor), g.zWrite, g.zTest) else NoDepth, r.count)
  }

  /** Spans without pixels draw nothing, and neither do those of a header the hardware does not support. */
  function ExpandAll(g: Registers, shift: Word, rs: seq<Record>): seq<Lane> {
    if rs == [] || !g.supported then []
    else
      ExpandAll(g, shift, rs[..|rs| - 1]) + if rs[|rs| - 1].count == 0 then [] else [Expand(g, shift, rs[|rs| - 1])]
  }

  function LanesOf(d: Draw): seq<Lane> {
    if d.Spans? && |d.surface| == HEADER_WORDS then ExpandAll(Loaded(d.surface), d.shift, d.records) else []
  }

  function DrawnLanes(ds: seq<Draw>): seq<Lane> {
    if ds == [] then [] else DrawnLanes(ds[..|ds| - 1]) + LanesOf(ds[|ds| - 1])
  }

  // ---- what a request asks for ----

  /** A value over the plane, going on along the rows or along the columns. */
  function Sloped(q: Plane, x: int, y: int, down: bool): Ramp {
    Ramp(W32(q.origin + x * q.du + y * q.dv), W32(if down then q.dv else q.du))
  }

  /** origin + i * major step + x * minor step, going on along the minor step. */
  function Along(origin: int, major: int, minor: int, i: int, x: int): Ramp {
    Ramp(W32(origin + i * major + x * minor), W32(minor))
  }

  /** The flags, bit by bit: colormap, blend, skip zero, translucent, truecolor. */
  function LookOf(flags: U8, table: U8): Look {
    Look(flags % 2 == 1, flags / 2 % 2 == 1, flags / 4 % 2 == 1, flags / 64 % 2 == 1, flags / 128 % 2 == 1,
         (table % 16) as int)
  }

  predicate Lit(flags: U8) { flags % 2 == 1 || flags / 128 % 2 == 1 }

  /** Modes that the hardware draws: affine or perspective, plain or scaled; spans along x or y; a depth buffer
      only with perspective, never translucent, and skipping zeros only if it is tested. */
  predicate Drawable(p: SpanParams) {
    p.attrMode % 16 in {0, 1, 3} && p.spanAxis % 16 <= 1 && p.zMode % 16 <= 3 &&
    (p.zMode % 16 != 0 ==> p.attrMode % 16 != 0 && p.flags / 64 % 2 == 0) &&
    (p.zMode % 16 == 1 ==> p.flags / 4 % 2 == 0)
  }

  /** One record of a span list, by the fields of the list alone. */
  function Asked(p: SpanParams, r: Record): Lane {
    var x, y, down := Signed(r.u), Signed(r.v), p.spanAxis % 16 == 1;
    var major, minor := if down then x else y, if down then y else x;
    Lane(Along(p.fbBase, p.fbMajor, p.fbMinor, major, minor), Sloped(p.attr0, x, y, down), Sloped(p.attr1, x, y, down),
         if p.attrMode % 16 == 0 then Ramp(0, 0) else Sloped(p.attr2, x, y, down),
         if Lit(p.flags) then Sloped(p.light, x, y, down) else Ramp(0, 0),
         Texture(p.texAddr, WidthOf(p.texWidth), MaskOf(p.texWMask), MaskOf(p.texHMask)), LookOf(p.flags, p.colormapId),
         p.attrMode % 16 != 0, p.attrMode % 16 == 3, if p.attrMode == 3 then (p.q29Shift % 32) as int else 0,
         ClampOf(W32(p.clampMin.0), W32(p.clampMax.0)), ClampOf(W32(p.clampMin.1), W32(p.clampMax.1)),
         if p.zMode % 16 == 0 then NoDepth
         else Depth(Along(p.zBase, p.zMajor, p.zMinor, major, minor), p.zMode % 2 == 1, p.zMode % 16 >= 2), r.count)
  }

  function AskedLanes(p: SpanParams, rs: seq<Record>): seq<Lane> {
    if rs == [] || !Drawable(p) then []
    else AskedLanes(p, rs[..|rs| - 1]) + if rs[|rs| - 1].count == 0 then [] else [Asked(p, rs[|rs| - 1])]
  }

  // ---- the words on the wire carry what was asked for ----

  /** The fields of the control word. */
  lemma ControlFields(p: SpanParams)
    ensures var c := Control(p);
            c % 0x100 == p.flags && c / 0x100 % 16 == p.colormapId % 16 && c / 0x1000 % 16 == p.attrMode % 16 &&
            c / 0x1_0000 % 16 == p.spanAxis % 16 && c / 0x10_0000 % 16 == 0 && c / 0x100_0000 == p.zMode % 16
  {
    var c := Control(p);
    var z: int, axis: int, mode: int, table: int :=
      (p.zMode % 16) as int, (p.spanAxis % 16) as int, (p.attrMode % 16) as int, (p.colormapId % 16) as int;
    assert c == p.flags + 0x100 * (table + 16 * (mode + 16 * (axis + 16 * (16 * z))));
    hide Control;
    Field(c, 0x100, p.flags, table, mode + 16 * (axis + 16 * (16 * z)));
    Field(c, 0x1000, p.flags + 0x100 * table, mode, axis + 16 * (16 * z));
    Field(c, 0x1_0000, p.flags + 0x100 * table + 0x1000 * mode, axis, 16 * z);
    Field(c, 0x10_0000, p.flags + 0x100 * table + 0x1000 * mode + 0x1_0000 * axis, 0, z);
    LittleEndian.DivModUnique(c, 0x100_0000, z, p.flags + 0x100 * table + 0x1000 * mode + 0x1_0000 * axis);
  }

  /** Four bits of a word, between what stands below and above them. */
  lemma Field(c: nat, unit: nat, below: nat, f: nat, above: nat)
    requires below < unit && f < 16 && c == below + unit * (f + 16 * above)
    ensures c % unit == below && c / unit % 16 == f
  {
    assert unit * (f + 16 * above) == (f + 16 * above) * unit;
    LittleEndian.DivModUnique(c, unit, f + 16 * above, below);
    LittleEndian.DivModUnique(f + 16 * above, 16, above, f);
  }

  lemma ByteBits(c: nat)
    ensures var f := c % 256; c % 2 == f % 2 && c / 2 % 2 == f / 2 % 2 && c / 4 % 2 == f / 4 % 2
    ensures var f := c % 256; c / 64 % 2 == f / 64 % 2 && c / 128 % 2 == f / 128 % 2
  {
    var q, f := c / 256, c % 256;
    Carried(q, f, 2, 128);
    Carried(q, f, 4, 64);
    Carried(q, f, 64, 4);
    Carried(q, f, 128, 2);
    Carried(q, f, 1, 256);
    EvenPart(64 * q, f / 2);
    EvenPart(32 * q, f / 4);
    EvenPart(2 * q, f / 64);
    EvenPart(q, f / 128);
    EvenPart(128 * q, f);
  }

  lemma EvenPart(q: int, f: int)
    ensures (2 * q + f) % 2 == f % 2
  {
  }

  lemma Carried(q: nat, f: nat, n: nat, m: nat)
    requires n > 0
    ensures (n * m * q + f) / n == m * q + f / n
  {
    var d, r := f / n, f % n;
    assert n * m * q + f == (m * q + d) * n + r by {
      assert (m * q + d) * n == (m * n) * q + d * n;
    }
    LittleEndian.DivModUnique(n * m * q + f, n, m * q + d, r);
  }

  lemma Nibble(c: nat)
    ensures var f := c % 16; c % 2 == f % 2 && c / 2 % 2 == f / 2 % 2 && c / 4 % 2 == f / 4 % 2 && c / 8 % 2 == f / 8 % 2
    ensures c / 2 % 8 == c % 16 / 2
  {
    var q, f := c / 16, c % 16;
    Carried(q, f, 2, 8);
    Carried(q, f, 4, 4);
    Carried(q, f, 8, 2);
    EvenPart(8 * q, f);
    EvenPart(4 * q, f / 2);
    EvenPart(2 * q, f / 4);
    EvenPart(q, f / 8);
    LittleEndian.DivModUnique(8 * q + f / 2, 8, q, f / 2);
  }

  lemma UnderMode(c: nat)
    ensures c / 0x2000 == c / 0x1000 / 2
    ensures c / 0x4000 == c / 0x1000 / 4
    ensures c / 0x8000 == c / 0x1000 / 8
  {
  }

  lemma UnderAxis(c: nat)
    ensures c / 0x2_0000 == c / 0x1_0000 / 2
  {
  }

  lemma UnderDepth(c: nat)
    ensures c / 0x200_0000 == c / 0x100_0000 / 2
    ensures c / 0x400_0000 == c / 0x100_0000 / 4
    ensures c / 0x800_0000 == c / 0x100_0000 / 8
  {
  }

  /** The control word's bits are the modes and flags they were made of. */
  lemma ControlBits(p: SpanParams)
    ensures var c, mode, z, axis := Control(p), p.attrMode % 16, p.zMode % 16, p.spanAxis % 16;
            c % 2 == p.flags % 2 && c / 2 % 2 == p.flags / 2 % 2 && c / 4 % 2 == p.flags / 4 % 2 &&
            c / 0x40 % 2 == p.flags / 64 % 2 && c / 0x80 % 2 == p.flags / 128 % 2 && c / 0x1000 % 2 == mode % 2 &&
            c / 0x2000 % 2 == mode / 2 % 2 && c / 0x4000 % 2 == mode / 4 % 2 && c / 0x8000 % 2 == mode / 8 % 2 &&
            c / 0x1_0000 % 2 == axis % 2 && c / 0x2_0000 % 8 == axis / 2 && c / 0x100_0000 % 2 == z % 2 &&
            c / 0x200_0000 % 2 == z / 2 % 2 && c / 0x400_0000 % 2 == z / 4 % 2 && c / 0x800_0000 % 2 == z / 8 % 2
  {
    hide Control;
    var c := Control(p);
    ControlFields(p);
    ByteBits(c);
    UnderMode(c);
    UnderAxis(c);
    UnderDepth(c);
    Nibble(c / 0x1000);
    Nibble(c / 0x1_0000);
    Nibble(c / 0x100_0000);
  }

  /** A mode number by its bits. */
  lemma ModeBits(m: nat, b0: bool, b1: bool, b2: bool, b3: bool)
    requires m < 16 && b0 == (m % 2 == 1) && b1 == (m / 2 % 2 == 1) && b2 == (m / 4 % 2 == 1) && b3 == (m / 8 % 2 == 1)
    ensures m in {0, 1, 3} <==> !b3 && !b2 && (b1 ==> b0)
    ensures m in {0, 1, 3} ==> b0 == (m != 0) && (b1 && b0) == (m == 3)
    ensures m <= 3 <==> !b3 && !b2
    ensures m <= 3 ==> b1 == (m >= 2) && (b0 || b1) == (m != 0) && (b0 && !b1) == (m == 1)
  {
  }

  /** The flags the loader looks at, one by one. */
  lemma ControlFlags(p: SpanParams)
    ensures var c, mode, z := Control(p), (p.attrMode % 16) as int, (p.zMode % 16) as int;
            Flag(c, 0x1) == (p.flags % 2 == 1) && Flag(c, 0x2) == (p.flags / 2 % 2 == 1) &&
            Flag(c, 0x4) == (p.flags / 4 % 2 == 1) && Flag(c, 0x40) == (p.flags / 64 % 2 == 1) &&
            Flag(c, 0x80) == (p.flags / 128 % 2 == 1) && c / 0x100 % 16 == (p.colormapId % 16) as int &&
            c / 0x10_0000 % 16 == 0 &&
            Flag(c, 0x1000) == (mode % 2 == 1) && Flag(c, 0x2000) == (mode / 2 % 2 == 1) &&
            Flag(c, 0x4000) == (mode / 4 % 2 == 1) && Flag(c, 0x8000) == (mode / 8 % 2 == 1) &&
            Flag(c, 0x100_0000) == (z % 2 == 1) && Flag(c, 0x200_0000) == (z / 2 % 2 == 1) &&
            Flag(c, 0x400_0000) == (z / 4 % 2 == 1) && Flag(c, 0x800_0000) == (z / 8 % 2 == 1)
    ensures var c, axis := Control(p), (p.spanAxis % 16) as int;
            (c / 0x2_0000 % 8 == 0 <==> axis <= 1) && (axis <= 1 ==> Flag(c, 0x1_0000) == (axis == 1))
  {
    hide Control;
    ControlFields(p);
    ControlBits(p);
  }

  lemma LookLoaded(p: SpanParams)
    ensures Loaded(Header(p)).look == LookOf(p.flags, p.colormapId)
  {
    hide Control, Flag, Header;
    ControlFlags(p);
    ControlWord(p);
  }

  lemma ControlWord(p: SpanParams)
    ensures Header(p)[7] == Control(p)
  {
    hide Control, W32;
  }

  /** What the hardware makes of the driver's modes. */
  lemma ModesLoaded(p: SpanParams)
    ensures Loaded(Header(p)).supported == Drawable(p)
    ensures var g := Loaded(Header(p));
            Drawable(p) ==>
              g.persp == (p.attrMode % 16 != 0) && g.scaled == (p.attrMode % 16 == 3) && g.rows == (p.spanAxis % 16 == 1) &&
              g.zWrite == (p.zMode % 2 == 1) && g.zTest == (p.zMode % 16 >= 2) &&
              (g.zWrite || g.zTest) == (p.zMode % 16 != 0)
  {
    hide Control, Flag, Header;
    ControlFlags(p);
    ControlWord(p);
    var c, mode, z := Control(p), (p.attrMode % 16) as int, (p.zMode % 16) as int;
    ModeBits(mode, Flag(c, 0x1000), Flag(c, 0x2000), Flag(c, 0x4000), Flag(c, 0x8000));
    ModeBits(z, Flag(c, 0x100_0000), Flag(c, 0x200_0000), Flag(c, 0x400_0000), Flag(c, 0x800_0000));
    LowBit(p.zMode as int);
  }

  lemma LowBit(z: nat)
    ensures z % 16 % 2 == z % 2
  {
  }

  /** The other registers, header word by header word. */
  lemma WordsLoaded(p: SpanParams)
    ensures var g := Loaded(Header(p));
            g.fb == Steps(p.fbBase, W32(p.fbMajor), W32(p.fbMinor)) && g.z == Steps(p.zBase, W32(p.zMajor), W32(p.zMinor)) &&
            g.tex == Texture(p.texAddr, WidthOf(p.texWidth), MaskOf(p.texWMask), MaskOf(p.texHMask)) &&
            g.s == SlopesOf(p.attr0) && g.t == SlopesOf(p.attr1) && g.zi == SlopesOf(p.attr2) && g.light == SlopesOf(p.light) &&
            g.clampS == ClampOf(W32(p.clampMin.0), W32(p.clampMax.0)) && g.clampT == ClampOf(W32(p.clampMin.1), W32(p.clampMax.1))
  {
    hide Control, W32, Flag, WidthOf, MaskOf, ClampOf;
    LowHalf(p.texWidth);
    LowHalf(p.texWMask);
    LowHalf(p.texHMask);
    hide Low;
  }

  lemma LowHalf(x: U16)
    ensures Low(x) == x
  {
  }

  function SlopesOf(q: Plane): Slopes { Slopes(W32(q.origin), W32(q.du), W32(q.dv)) }

  lemma SlopesLoaded(q: Plane, u: int, v: int, rows: bool)
    ensures From(SlopesOf(q), u, v, rows) == Sloped(q, u, v, rows)
  {
    WordModulo(q.origin, u, q.du, v, q.dv);
  }

  lemma StepsLoaded(base: Word, major: int, minor: int, i: int, j: int)
    ensures FromBase(Steps(base, W32(major), W32(minor)), i, j) == Along(base, major, minor, i, j)
  {
    WordModulo(base, i, major, j, minor);
    assert base % M32 == base;
  }

  /** One record of a list that the hardware draws: the lane is the one the fields ask for. */
  lemma RecordAsked(p: SpanParams, r: Record)
    requires Drawable(p)
    ensures Expand(Loaded(Header(p)), Shift(p), r) == Asked(p, r)
  {
    var u, v, rows := Signed(r.u), Signed(r.v), p.spanAxis % 16 == 1;
    LookLoaded(p);
    ModesLoaded(p);
    WordsLoaded(p);
    ShiftLoaded(p);
    hide Loaded, Header, W32, From, FromBase, Sloped, Along, MaskOf, WidthOf, ClampOf, Signed, Drawable, Shift;
    var major, minor := if rows then u else v, if rows then v else u;
    StepsLoaded(p.fbBase, p.fbMajor, p.fbMinor, major, minor);
    StepsLoaded(p.zBase, p.zMajor, p.zMinor, major, minor);
    SlopesLoaded(p.attr0, u, v, rows);
    SlopesLoaded(p.attr1, u, v, rows);
    SlopesLoaded(p.attr2, u, v, rows);
    SlopesLoaded(p.light, u, v, rows);
  }

  lemma ShiftLoaded(p: SpanParams)
    ensures (if p.attrMode % 16 == 3 then Shift(p) % 32 else 0) == if p.attrMode == 3 then (p.q29Shift % 32) as int else 0
  {
  }

  lemma {:induction false} RecordsAsked(p: SpanParams, rs: seq<Record>)
    ensures ExpandAll(Loaded(Header(p)), Shift(p), rs) == AskedLanes(p, rs)
  {
    hide Loaded, Header, Expand, Asked, Shift, Drawable;
    ModesLoaded(p);
    if rs != [] && Drawable(p) {
      RecordsAsked(p, rs[..|rs| - 1]);
      RecordAsked(p, rs[|rs| - 1]);
    }
  }

  /** Whatever was staged before, a list draws exactly the lanes that its fields ask for, its records' counts
      cut to 12 bits. */
  lemma {:induction false} ListDraws(st: Staging, p: SpanParams, rs: seq<Record>)
    requires 0 < |rs| <= MAX_RECORDS
    ensures DrawnLanes(Exec(st, LongForm(p, rs)).1) == AskedLanes(p, Clamped(rs))
  {
    hide Exec, LongForm, Loaded, Header, ExpandAll, AskedLanes;
    LongFormMeaning(st, p, rs);
    RecordsAsked(p, Clamped(rs));
    OneDraw(Spans(Header(p), Shift(p), Clamped(rs)));
  }

  lemma OneDraw(d: Draw)
    ensures DrawnLanes([d]) == LanesOf(d)
  {
    hide LanesOf;
    assert [d][..0] == [];
    assert DrawnLanes([d]) == [] + LanesOf(d);
  }

  /** What a run of requests asks the rasterizer for: each list the lanes of its first 512 records, counts cut
      to 12 bits, unless its depth mode is out of range or it wants a scale that the core lacks; a ready-made
      stream whatever it holds; the other commands no lanes. */
  function AskedRun(st: Staging, rs: seq<Request>, f: Features): seq<Lane>
    decreases rs
  {
    if rs == [] then []
    else
      (match rs[0]
       case SpanList(p, records) =>
         if p.zMode > 3 || (p.attrMode == 3 && p.q29Shift % 32 != 0 && !f.q29Scale) then []
         else AskedLanes(p, Clamped(if |records| > 512 then records[..512] else records))
       case Stream(cs) => DrawnLanes(Run(st, cs).1)
       case _ => [])
      + AskedRun(Run(st, EmitPlain(rs[0], f)).0, rs[1..], f)
  }

  /** A driver without a header cache draws exactly what its requests ask for. */
  lemma {:induction false} RunDrawsAsked(st: Staging, rs: seq<Request>, f: Features)
    requires forall r <- rs :: WellFormed(r)
    ensures DrawnLanes(Run(st, EmitAllPlain(rs, f)).1) == AskedRun(st, rs, f)
    decreases rs
  {
    hide Run, Exec, DrawnLanes, LongForm, AskedLanes, WellFormed, Clamped;
    RunNone(st);
    NoLanes();
    if rs != [] {
      var out, rest := EmitPlain(rs[0], f), EmitAllPlain(rs[1..], f);
      assert rs[0] in rs;
      var st' := Run(st, out).0;
      RunDrawsAsked(st', rs[1..], f);
      RunAppend(st, out, rest);
      DrawnAppend(Run(st, out).1, Run(st', rest).1);
      RequestDraws(st, rs[0], f);
    }
  }

  lemma NoLanes()
    ensures DrawnLanes([]) == [] && forall p: SpanParams :: AskedLanes(p, []) == []
  {
  }

  lemma {:induction false} RequestDraws(st: Staging, r: Request, f: Features)
    requires WellFormed(r)
    ensures match r
            case SpanList(p, records) =>
              DrawnLanes(Run(st, EmitPlain(r, f)).1) ==
              if p.zMode > 3 || (p.attrMode == 3 && p.q29Shift % 32 != 0 && !f.q29Scale) then []
              else AskedLanes(p, Clamped(if |records| > 512 then records[..512] else records))
            case Stream(cs) => EmitPlain(r, f) == cs
            case _ => DrawnLanes(Run(st, EmitPlain(r, f)).1) == []
  {
    hide Run, Exec, DrawnLanes, LongForm, AskedLanes, Clamped;
    RunNone(st);
    NoLanes();
    match r
    case SpanList(p, records) =>
      if records == [] {
        assert Clamped([]) == [] by {
          NoRecords();
        }
      } else if !Dropped(p, records, f) {
        RunOne(st, LongForm(p, Capped(records)));
        ListDraws(st, p, Capped(records));
      }
    case Stream(cs) =>
    case Compact(c) =>
      RunOne(st, c);
      NoSpans(st, c);
    case Plain(c) =>
      RunOne(st, c);
      NoSpans(st, c);
  }

  lemma NoRecords()
    ensures Clamped([]) == []
  {
  }

  /** The other commands draw no spans. */
  lemma NoSpans(st: Staging, c: Cmd)
    requires WellFormed(Compact(c)) || WellFormed(Plain(c))
    ensures DrawnLanes(Exec(st, c).1) == []
  {
    hide Exec, LanesOf, DrawnLanes;
    NoLanes();
    OtherDraws(st, c);
    var ds := Exec(st, c).1;
    if ds != [] {
      assert ds == [ds[0]];
      OneDraw(ds[0]);
      NotSpans(ds[0]);
    }
  }

  lemma OtherDraws(st: Staging, c: Cmd)
    requires WellFormed(Compact(c)) || WellFormed(Plain(c))
    ensures var ds := Exec(st, c).1; |ds| <= 1 && (ds != [] ==> !ds[0].Spans?)
  {
    hide Overlaid, ExecList, ExecCont;
  }

  lemma NotSpans(d: Draw)
    requires !d.Spans?
    ensures LanesOf(d) == []
  {
  }

  // ---- the perspective span group ----

  datatype PerspGroup = PerspGroup(
    fbAddr: Word, texAddr: Word, laneCount: U8, flags: U8, colormapId: U8,
    majorFbStep: Int32, minorFbStep: Int32, texWidth: U16, texWMask: U16, texHMask: U16,
    start: seq<Int16>, count: seq<U16>,
    sdivz: Plane, tdivz: Plane, zi: Plane, light: Plane)  // du = minor step, dv = major step

  predicate GroupOk(g: PerspGroup) { |g.start| == |g.count| == 8 }

  /** (uint16_t)start. */
  function Column(x: int): U16 { x % 0x1_0000 }

  function Lanes(g: PerspGroup): (n: nat)
    ensures n <= 8
  { if g.laneCount > 8 then 8 else g.laneCount }

  function GroupParams(g: PerspGroup): SpanParams {
    SpanParams(g.fbAddr, g.majorFbStep, g.minorFbStep, g.texAddr, g.texWidth, g.texWMask, g.texHMask,
               if g.flags / SPAN_PERSP % 2 == 1 then g.flags else g.flags + SPAN_PERSP, g.colormapId, ATTR_PERSP, 0, 0, 0,
               g.sdivz, g.tdivz, g.zi, g.light, (0, 0, 0), (0, 0, 0), 0, 0, 0)
  }

  /** Lane i as a record: its start as an unsigned column, its own number as the row. */
  function LaneRecord(g: PerspGroup, i: nat): Record
    requires GroupOk(g) && i < 8
  {
    Record(Column(g.start[i]), i, g.count[i])
  }

  function LaneRecords(g: PerspGroup, from: nat, end: nat): (rs: seq<Record>)
    requires GroupOk(g) && from <= end <= 8
    ensures |rs| == end - from
  {
    if from == end then [] else LaneRecords(g, from, end - 1) + [LaneRecord(g, end - 1)]
  }

  predicate Live(rs: seq<Record>) { exists r <- rs :: r.count != 0 }

  /** The span lists a group is split into, from lane `first` on. */
  function GroupRequests(g: PerspGroup, first: nat): seq<Request>
    requires GroupOk(g) && first <= Lanes(g)
    decreases Lanes(g) - first
  {
    if first == Lanes(g) then []
    else
      var next := if Lanes(g) - first >= 4 then first + 4 else Lanes(g);
      var rs := LaneRecords(g, first, next);
      (if Live(rs) then [SpanList(GroupParams(g), rs)] else []) + GroupRequests(g, next)
  }

  /** The documented formula for lane i, with the start as the signed number it is and as many pixels as
      its count says, textured in perspective as the group says. */
  function Formula(g: PerspGroup, i: nat): Lane
    requires GroupOk(g) && i < 8
  {
    var x := g.start[i];
    Lane(Along(g.fbAddr, g.majorFbStep, g.minorFbStep, i, x), Along(g.sdivz.origin, g.sdivz.dv, g.sdivz.du, i, x),
         Along(g.tdivz.origin, g.tdivz.dv, g.tdivz.du, i, x), Along(g.zi.origin, g.zi.dv, g.zi.du, i, x),
         if Lit(g.flags) then Along(g.light.origin, g.light.dv, g.light.du, i, x) else Ramp(0, 0),
         Texture(g.texAddr, WidthOf(g.texWidth), MaskOf(g.texWMask), MaskOf(g.texHMask)), LookOf(g.flags, g.colormapId),
         true, false, 0, NoClamp, NoClamp, NoDepth, g.count[i])
  }

  function FormulaLanes(g: PerspGroup, from: nat, end: nat): seq<Lane>
    requires GroupOk(g) && from <= end <= 8
  {
    if from == end then []
    else FormulaLanes(g, from, end - 1) + if g.count[end - 1] == 0 then [] else [Formula(g, end - 1)]
  }

  /** The condition under which a lane's wire form means what the formula says. */
  predicate Exact(g: PerspGroup, i: nat)
    requires GroupOk(g) && i < 8
  {
    g.count[i] <= 0xFFF
  }

  predicate AllExact(g: PerspGroup, from: nat, end: nat)
    requires GroupOk(g) && from <= end <= 8
  {
    forall i: nat | from <= i < end && g.count[i] != 0 :: Exact(g, i)
  }

  /** The lanes as the span lists ask for them. */
  function WireLanes(g: PerspGroup, from: nat, end: nat): seq<Lane>
    requires GroupOk(g) && from <= end <= 8
  {
    if from == end then []
    else
      WireLanes(g, from, end - 1)
      + if g.count[end - 1] == 0 then [] else [Asked(GroupParams(g), ClampedLane(g, end - 1))]
  }

  function ClampedLane(g: PerspGroup, i: nat): Record
    requires GroupOk(g) && i < 8
  {
    var r := LaneRecord(g, i);
    r.(count := Count12(r.count))
  }

  lemma WordModulo(a: int, u: int, b: int, v: int, c: int)
    ensures W32(a % M32 + u * (b % M32) + v * (c % M32)) == W32(a + u * b + v * c)
  {
    var qa, qb, qc := a / M32, b / M32, c / M32;
    assert u * b == u * (b % M32) + (u * qb) * M32 by {
      assert b == b % M32 + qb * M32;
      MulOut(u, b % M32, qb);
    }
    assert v * c == v * (c % M32) + (v * qc) * M32 by {
      assert c == c % M32 + qc * M32;
      MulOut(v, c % M32, qc);
    }
    AddTurns(a % M32 + u * (b % M32) + v * (c % M32), qa + u * qb + v * qc);
  }

  lemma MulOut(u: int, b: int, q: int)
    ensures u * (b + q * M32) == u * b + (u * q) * M32
  {
  }

  lemma AddTurns(x: int, k: int)
    ensures W32(x + k * M32) == W32(x)
  {
  }

  /** A negative start survives the cast to an unsigned column and back. */
  lemma StartSurvives(x: Int16)
    ensures Signed(Column(x)) == x
  {
  }

  /** A lane is drawn as documented, pixel after pixel and for negative starts too, if and only if it has
      at most 4095 pixels. */
  lemma LaneMeaning(g: PerspGroup, i: nat)
    requires GroupOk(g) && i < 8
    ensures Asked(GroupParams(g), ClampedLane(g, i)) == Formula(g, i) <==> Exact(g, i)
  {
    hide Asked, Formula, GroupParams;
    WireLane(g, i);
    assert Formula(g, i).count == g.count[i] by {
      FormulaCount(g, i);
    }
  }

  lemma FormulaCount(g: PerspGroup, i: nat)
    requires GroupOk(g) && i < 8
    ensures Formula(g, i).count == g.count[i]
  {
    hide Along, MaskOf, WidthOf, LookOf, Lit;
  }

  lemma WireLane(g: PerspGroup, i: nat)
    requires GroupOk(g) && i < 8
    ensures Asked(GroupParams(g), ClampedLane(g, i)) == Formula(g, i).(count := ClampedLane(g, i).count)
  {
    hide MaskOf, WidthOf, Signed, Column, LookOf, Lit, Along, Sloped, Count12, W32;
    var x, p := g.start[i], GroupParams(g);
    StartSurvives(x);
    SmallRow(i);
    PerspFlag(g.flags, g.colormapId);
    SmallWord();
    SlopedIsAlong(g.sdivz, x, i);
    SlopedIsAlong(g.tdivz, x, i);
    SlopedIsAlong(g.zi, x, i);
    SlopedIsAlong(g.light, x, i);
  }

  lemma SmallWord()
    ensures W32(0) == 0
  {
  }

  lemma SlopedIsAlong(q: Plane, x: int, i: int)
    ensures Sloped(q, x, i, false) == Along(q.origin, q.dv, q.du, i, x)
  {
    assert q.origin + x * q.du + i * q.dv == q.origin + i * q.dv + x * q.du;
  }

  /** Setting the perspective flag changes nothing else. */
  lemma PerspFlag(flags: U8, table: U8)
    ensures var f: U8 := if flags / SPAN_PERSP % 2 == 1 then flags else flags + SPAN_PERSP;
            LookOf(f, table) == LookOf(flags, table) && Lit(f) == Lit(flags)
  {
    if flags / SPAN_PERSP % 2 == 0 {
      LowFlags(flags);
      HighFlags(flags);
    }
  }

  lemma LowFlags(f: nat)
    ensures (f + 32) % 2 == f % 2 && (f + 32) / 2 % 2 == f / 2 % 2 && (f + 32) / 4 % 2 == f / 4 % 2
  {
    assert (f + 32) / 2 == f / 2 + 16;
    assert (f + 32) / 4 == f / 4 + 8;
  }

  lemma HighFlags(f: nat)
    requires f / 32 % 2 == 0
    ensures (f + 32) / 64 == f / 64 && (f + 32) / 128 == f / 128
  {
  }

  lemma SmallRow(i: nat)
    requires i < 8
    ensures Signed(i) == i
  {
  }

  /** The whole group on the wire is the whole group as documented if and only if every lane that has
      pixels is exact. */
  lemma {:induction false} WireIsFormula(g: PerspGroup, from: nat, end: nat)
    requires GroupOk(g) && from <= end <= 8
    ensures |WireLanes(g, from, end)| == |FormulaLanes(g, from, end)|
    ensures WireLanes(g, from, end) == FormulaLanes(g, from, end)
            <==> AllExact(g, from, end)
    decreases end
  {
    if from < end {
      hide Asked, Formula, Exact, AllExact, ClampedLane;
      WireIsFormula(g, from, end - 1);
      OneMoreExact(g, from, end);
      LaneMeaning(g, end - 1);
      var a, b := WireLanes(g, from, end - 1), FormulaLanes(g, from, end - 1);
      if g.count[end - 1] != 0 {
        SnocEqual(a, b, Asked(GroupParams(g), ClampedLane(g, end - 1)), Formula(g, end - 1));
      } else {
        assert a + [] == a && b + [] == b;
      }
    } else {
      hide Exact;
    }
  }

  lemma OneMoreExact(g: PerspGroup, from: nat, end: nat)
    requires GroupOk(g) && from < end <= 8
    ensures AllExact(g, from, end) <==> AllExact(g, from, end - 1) && (g.count[end - 1] == 0 || Exact(g, end - 1))
  {
    hide Exact;
  }

  lemma SnocEqual(a: seq<Lane>, b: seq<Lane>, x: Lane, y: Lane)
    requires |a| == |b|
    ensures a + [x] == b + [y] <==> a == b && x == y
  {
    if a + [x] == b + [y] {
      assert a == (a + [x])[..|a|] == (b + [y])[..|a|] == b;
      assert (a + [x])[|a|] == x && (b + [y])[|a|] == y;
    }
  }

  lemma GroupDrawable(g: PerspGroup)
    requires GroupOk(g)
    ensures Drawable(GroupParams(g))
  {
  }

  lemma {:induction false} AskedIsWire(g: PerspGroup, from: nat, end: nat)
    requires GroupOk(g) && from <= end <= 8
    ensures AskedLanes(GroupParams(g), Clamped(LaneRecords(g, from, end))) == WireLanes(g, from, end)
    decreases end
  {
    hide Asked, Drawable, GroupParams, Clamped, ClampedLane;
    GroupDrawable(g);
    if from < end {
      AskedIsWire(g, from, end - 1);
      OneMoreLane(g, from, end);
    }
  }

  lemma {:induction false} OneMoreLane(g: PerspGroup, from: nat, end: nat)
    requires GroupOk(g) && from < end <= 8
    ensures var rs := Clamped(LaneRecords(g, from, end));
            |rs| == end - from && rs[..|rs| - 1] == Clamped(LaneRecords(g, from, end - 1)) &&
            rs[|rs| - 1] == ClampedLane(g, end - 1) && (ClampedLane(g, end - 1).count == 0 <==> g.count[end - 1] == 0)
  {
    var rs := Clamped(LaneRecords(g, from, end));
    assert rs[..|rs| - 1] == Clamped(LaneRecords(g, from, end - 1));
  }

  lemma {:induction false} DrawnAppend(a: seq<Draw>, b: seq<Draw>)
    ensures DrawnLanes(a + b) == DrawnLanes(a) + DrawnLanes(b)
  {
    hide LanesOf;
    if b == [] {
      assert a + b == a;
    } else {
      assert (a + b)[..|a + b| - 1] == a + b[..|b| - 1];
      DrawnAppend(a, b[..|b| - 1]);
    }
  }

  lemma {:induction false} WireSplit(g: PerspGroup, a: nat, b: nat, c: nat)
    requires GroupOk(g) && a <= b <= c <= 8
    ensures WireLanes(g, a, c) == WireLanes(g, a, b) + WireLanes(g, b, c)
    decreases c
  {
    hide Asked;
    if b < c {
      WireSplit(g, a, b, c - 1);
    }
  }

  lemma {:induction false} DeadIsEmpty(g: PerspGroup, from: nat, end: nat)
    requires GroupOk(g) && from <= end <= 8 && !Live(LaneRecords(g, from, end))
    ensures WireLanes(g, from, end) == []
    decreases end
  {
    if from < end {
      var rs := LaneRecords(g, from, end);
      assert rs[|rs| - 1].count == 0;
      assert forall r <- LaneRecords(g, from, end - 1) :: r in rs;
      DeadIsEmpty(g, from, end - 1);
    }
  }

  /** What a group's chunks draw is its lanes, whatever the GPU held before. */
  lemma {:induction false} ChunksDraw(g: PerspGroup, first: nat, st: Staging, f: Features)
    requires GroupOk(g) && first <= Lanes(g)
    ensures DrawnLanes(Run(st, EmitAllPlain(GroupRequests(g, first), f)).1) == WireLanes(g, first, Lanes(g))
    decreases Lanes(g) - first
  {
    hide Header, Exec, ExpandAll, Expand, Clamped, WireLanes, DrawnLanes, GroupParams, Run;
    RunNone(st);
    EmptyLanes(g, Lanes(g));
    if first < Lanes(g) {
      var next := if Lanes(g) - first >= 4 then first + 4 else Lanes(g);
      var rs := LaneRecords(g, first, next);
      WireSplit(g, first, next, Lanes(g));
      if Live(rs) {
        ChunkDraw(g, first, next, st, f);
        var c, rest := LongForm(GroupParams(g), rs), EmitAllPlain(GroupRequests(g, next), f);
        var st' := SpanHeader(Header(GroupParams(g)), true);
        ChunksDraw(g, next, st', f);
        PlainCons(g, first, next, f);
        RunAppend(st, [c], rest);
        DrawnAppend(Run(st, [c]).1, Run(st', rest).1);
      } else {
        DeadIsEmpty(g, first, next);
        ChunksDraw(g, next, st, f);
        assert [] + GroupRequests(g, next) == GroupRequests(g, next);
      }
    }
  }

  lemma {:induction false} EmptyLanes(g: PerspGroup, n: nat)
    requires GroupOk(g) && n <= 8
    ensures WireLanes(g, n, n) == [] && DrawnLanes([]) == []
  {
  }

  lemma {:induction false} PlainCons(g: PerspGroup, first: nat, next: nat, f: Features)
    requires GroupOk(g) && first < Lanes(g)
    requires next == if Lanes(g) - first >= 4 then first + 4 else Lanes(g)
    requires Live(LaneRecords(g, first, next))
    ensures EmitAllPlain(GroupRequests(g, first), f)
         == [LongForm(GroupParams(g), LaneRecords(g, first, next))] + EmitAllPlain(GroupRequests(g, next), f)
  {
    hide LongForm;
    var r := SpanList(GroupParams(g), LaneRecords(g, first, next));
    assert GroupRequests(g, first)[1..] == GroupRequests(g, next);
    assert GroupRequests(g, first)[0] == r;
  }

  lemma {:induction false} ChunkDraw(g: PerspGroup, first: nat, next: nat, st: Staging, f: Features)
    requires GroupOk(g) && first < next <= 8
    ensures var rs := LaneRecords(g, first, next);
            Run(st, [LongForm(GroupParams(g), rs)]).0 == SpanHeader(Header(GroupParams(g)), true)
            && DrawnLanes(Run(st, [LongForm(GroupParams(g), rs)]).1) == WireLanes(g, first, next)
  {
    hide Run, Exec, ExpandAll, Header, WireLanes, LongForm, AskedLanes, DrawnLanes;
    var p, rs := GroupParams(g), LaneRecords(g, first, next);
    RunOne(st, LongForm(p, rs));
    LongFormMeaning(st, p, rs);
    ListDraws(st, p, rs);
    AskedIsWire(g, first, next);
  }

  /** The group as the driver sends it, cache and all, draws the documented lanes in order if and only
      if every lane with pixels has at most 4095 of them; it needs the cached header, if there is one,
      untouched by records-only triangles. */
  lemma {:induction false} GroupDrawsFormula(g: PerspGroup, cache: Cache, since: seq<Recs>, st: Staging, f: Features)
    requires GroupOk(g) && Coherent(cache, since, st)
    ensures (cache.Valid? && f.spanCont ==> Untouched(cache.words, since)) ==>
            (DrawnLanes(Run(st, EmitAll(cache, GroupRequests(g, 0), f).1).1) == FormulaLanes(g, 0, Lanes(g))
             <==> AllExact(g, 0, Lanes(g)))
  {
    hide Exec, ExpandAll, Expand, Run, EmitAll, EmitAllPlain, DrawnLanes, Exact, GroupRequests, Undisturbed, Untouched;
    if cache.Valid? && f.spanCont ==> Untouched(cache.words, since) {
      GroupWellFormed(g, 0);
      GroupUndisturbed(g, cache, since, 0, f);
      CachePreservesMeaning(cache, since, st, GroupRequests(g, 0), f);
      ChunksDraw(g, 0, st, f);
      WireIsFormula(g, 0, Lanes(g));
    }
  }

  /** A group disturbs no header, so an untouched one stays so. */
  lemma {:induction false} GroupUndisturbed(g: PerspGroup, cache: Cache, since: seq<Recs>, first: nat, f: Features)
    requires GroupOk(g) && first <= Lanes(g)
    requires cache.Valid? && f.spanCont ==> |cache.words| == HEADER_WORDS && Untouched(cache.words, since)
    ensures Undisturbed(cache, since, GroupRequests(g, first), f)
    decreases Lanes(g) - first
  {
    hide Header, GroupParams, LaneRecords, Live;
    if first < Lanes(g) {
      var next := if Lanes(g) - first >= 4 then first + 4 else Lanes(g);
      var rs, rest := LaneRecords(g, first, next), GroupRequests(g, next);
      if Live(rs) {
        var r := SpanList(GroupParams(g), rs);
        assert GroupRequests(g, first)[0] == r && GroupRequests(g, first)[1..] == rest;
        GroupUndisturbed(g, Emit(cache, r, f).0, Since(cache, since, r, f), next, f);
      } else {
        assert [] + rest == rest;
        GroupUndisturbed(g, cache, since, next, f);
      }
    }
  }

  lemma {:induction false} GroupWellFormed(g: PerspGroup, first: nat)
    requires GroupOk(g) && first <= Lanes(g)
    ensures forall r <- GroupRequests(g, first) :: WellFormed(r)
    decreases Lanes(g) - first
  {
    if first < Lanes(g) {
      GroupWellFormed(g, if Lanes(g) - first >= 4 then first + 4 else Lanes(g));
    }
  }

  /** A group of one lane over a flat surface. */
  function OneLane(start: Int16, count: U16): (g: PerspGroup)
    ensures GroupOk(g) && Lanes(g) == 1 && g.start[0] == start && g.count[0] == count
  {
    var flat := Plane(0, 0, 0);
    PerspGroup(0, 0, 1, 0, 0, 320, 1, 64, 63, 63, [start, 0, 0, 0, 0, 0, 0, 0], [count, 0, 0, 0, 0, 0, 0, 0],
               flat, flat, flat, flat)
  }

  /** What a group draws as the first request of all. */
  function Drawn(g: PerspGroup): seq<Lane>
    requires GroupOk(g)
  {
    DrawnLanes(Run(Invalid, EmitAll(Stale, GroupRequests(g, 0), Features(true, true)).1).1)
  }

  /** The documented formula does fail for a count above 4095, and holds for a negative start. */
  lemma FormulaCanFail()
    ensures forall g :: g == OneLane(0, 5000) || g == OneLane(-1, 10) ==>
              (Drawn(g) == FormulaLanes(g, 0, Lanes(g)) <==> g == OneLane(-1, 10))
  {
    hide DrawnLanes, Run, EmitAll, GroupRequests, FormulaLanes;
    forall g | g == OneLane(0, 5000) || g == OneLane(-1, 10)
      ensures Drawn(g) == FormulaLanes(g, 0, Lanes(g)) <==> g == OneLane(-1, 10)
    {
      GroupDrawsFormula(g, Stale, [], Invalid, Features(true, true));
      assert Exact(g, 0) <==> g == OneLane(-1, 10);
    }
  }
}

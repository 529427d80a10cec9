/** The span emitters as the driver runs them: the header cache in its array, and a perspective group sent as
    chunks of four lanes. */
module GpuEmitters {
  import opened Common
  import opened GpuRing
  import opened GpuSpans
  import opened GpuLanes

  class SpanEmitter {
    const features: Features
    var hdrCache: array<Word>
    var hdrValid: bool
    var stream: seq<Cmd>

    constructor (f: Features)
      ensures features == f && fresh(hdrCache) && Sized() && Remembered() == Stale && stream == []
    {
      features, hdrValid, stream := f, false, [];
      hdrCache := new Word[HEADER_WORDS](_ => 0);
    }

    ghost predicate Sized()
      reads this
    {
      hdrCache.Length == HEADER_WORDS
    }

    ghost function Remembered(): Cache
      reads this, hdrCache
    {
      if hdrValid then Valid(hdrCache[..]) else Stale
    }

    /** Pairs of records as raw stores, then the odd tail. */
    method PackRecords(rs: seq<Record>) returns (ws: seq<Word>)
      requires |rs| <= MAX_RECORDS
      ensures ws == Pack(rs)
    {
      hide Pack;
      ws := [];
      var pairs := |rs| / 2;
      assert rs[0..] == rs;
      for i := 0 to pairs
        invariant ws + Pack(rs[2 * i..]) == Pack(rs)
      {
        var a, b := rs[2 * i], rs[2 * i + 1];
        PackFront(rs, 2 * i);
        Assoc(ws, PackPair(a, b), Pack(rs[2 * i + 2..]));
        ws := ws + [a.v as int * 0x1_0000 + a.u, b.u as int * 0x1_0000 + Count12(a.count),
                    Count12(b.count) as int * 0x1_0000 + b.v];
      }
      PackEnd(rs, 2 * pairs);
      if |rs| % 2 == 1 {
        var a := rs[|rs| - 1];
        ws := ws + [a.v as int * 0x1_0000 + a.u, Count12(a.count), 0];
      }
    }

    lemma PackFront(rs: seq<Record>, i: nat)
      requires i + 2 <= |rs|
      ensures Pack(rs[i..]) == PackPair(rs[i], rs[i + 1]) + Pack(rs[i + 2..])
    {
      assert rs[i..][2..] == rs[i + 2..];
    }

    lemma PackEnd(rs: seq<Record>, i: nat)
      requires i <= |rs| <= i + 1
      ensures Pack(rs[i..]) == if i == |rs| then []
                               else [rs[i].v as int * 0x1_0000 + rs[i].u, Count12(rs[i].count), 0]
    {
    }

    /** __builtin_memcmp of the new header against the cache. */
    method SameHeader(h: seq<Word>) returns (same: bool)
      requires Sized() && |h| == HEADER_WORDS
      ensures same == (h == hdrCache[..])
    {
      for i := 0 to HEADER_WORDS
        invariant forall j :: 0 <= j < i ==> h[j] == hdrCache[j]
      {
        if h[i] != hdrCache[i] {
          return false;
        }
      }
      same := true;
    }

    /** __builtin_memcpy into the cache. */
    method Remember(h: seq<Word>)
      requires Sized() && |h| == HEADER_WORDS
      modifies this`hdrValid, hdrCache
      ensures hdrValid && hdrCache[..] == h
    {
      for i := 0 to HEADER_WORDS
        invariant forall j :: 0 <= j < i ==> hdrCache[j] == h[j]
      {
        hdrCache[i] := h[i];
      }
      hdrValid := true;
    }

    /** _gpu_emit_param_span_list. */
    method EmitParamSpanList(p: SpanParams, records: seq<Record>)
      requires Sized()
      modifies this`hdrValid, this`stream, hdrCache
      ensures (Remembered(), stream) == (Emit(old(Remembered()), SpanList(p, records), features).0,
                                         old(stream) + Emit(old(Remembered()), SpanList(p, records), features).1)
    {
      hide Header, Pack;
      assert stream + [] == stream;
      var rs := records;
      if |rs| == 0 {
        return;
      }
      if |rs| > MAX_RECORDS {
        rs := rs[..MAX_RECORDS];
      }
      if p.zMode != 0 && p.zMode != 1 && p.zMode != 2 && p.zMode != 3 {
        return;
      }
      var q29 := 0;
      if p.attrMode == ATTR_PERSP_Q29 {
        q29 := p.q29Shift % 32;
        if q29 != 0 && !features.q29Scale {
          return;
        }
      }
      var hdr := Header(p);
      var tail := PackRecords(rs);
      var useCont := false;
      if hdrValid && features.spanCont {
        useCont := SameHeader(hdr);
      }
      if useCont {
        stream := stream + [Cmd(CMD_SPAN_CONT, [|rs|, q29] + tail)];
      } else {
        stream := stream + [Cmd(CMD_SPAN_LIST, hdr + [|rs|, q29] + tail)];
        Remember(hdr);
      }
    }

    /** The compact group forms, the parameter triangle and the sticky triangle state. */
    method EmitCompact(c: Cmd)
      requires WellFormed(Compact(c))
      modifies this`hdrValid, this`stream
      ensures (Remembered(), stream) == (Emit(old(Remembered()), Compact(c), features).0,
                                         old(stream) + Emit(old(Remembered()), Compact(c), features).1)
    {
      hdrValid := false;
      stream := stream + [c];
    }

    /** Every other command, the records-only triangle among them: the cache stays as it is. */
    method EmitPlain(c: Cmd)
      modifies this`stream
      ensures (Remembered(), stream) == (Emit(old(Remembered()), Plain(c), features).0,
                                         old(stream) + Emit(old(Remembered()), Plain(c), features).1)
    {
      stream := stream + [c];
    }

    /** of_gpu_submit_command_stream_batch. */
    method EmitStream(cs: seq<Cmd>)
      modifies this`hdrValid, this`stream
      ensures (Remembered(), stream) == (Emit(old(Remembered()), Stream(cs), features).0,
                                         old(stream) + Emit(old(Remembered()), Stream(cs), features).1)
    {
      if cs == [] {
        assert stream + [] == stream;
        return;
      }
      stream := stream + cs;
      hdrValid := false;
    }

    /** of_gpu_draw_persp_span_group: up to eight lanes in chunks of four, every chunk with absolute
        lane numbers against the same surface; a chunk without pixels is not sent. */
    method DrawPerspSpanGroup(g: PerspGroup)
      requires Sized() && GroupOk(g)
      modifies this`hdrValid, this`stream, hdrCache
      ensures (Remembered(), stream) == (EmitAll(old(Remembered()), GroupRequests(g, 0), features).0,
                                         old(stream) + EmitAll(old(Remembered()), GroupRequests(g, 0), features).1)
    {
      hide Emit, GroupParams, EmitAll, GroupRequests;
      ghost var before := Remembered();
      ghost var out: seq<Cmd> := [];
      var first, lanesLeft := 0, if g.laneCount > 8 then 8 else g.laneCount;
      assert stream + [] == stream;
      EmitNothing(before, GroupRequests(g, 0));
      while lanesLeft != 0
        invariant 0 <= lanesLeft && 0 <= first && first + lanesLeft == Lanes(g) && stream == old(stream) + out
        invariant EmitAll(before, GroupRequests(g, 0), features)
               == (EmitAll(Remembered(), GroupRequests(g, first), features).0,
                   out + EmitAll(Remembered(), GroupRequests(g, first), features).1)
        decreases lanesLeft
      {
        var n := if lanesLeft >= 4 then 4 else lanesLeft;
        var records, live := Chunk(g, first, n);
        ghost var c := Remembered();
        NextChunk(g, first, c);
        if live {
          ghost var sent := Emit(c, SpanList(GroupParams(g), records), features).1;
          EmitParamSpanList(GroupParams(g), records);
          Assoc(old(stream), out, sent);
          Assoc(out, sent, EmitAll(Remembered(), GroupRequests(g, first + n), features).1);
          out := out + sent;
        }
        first := first + n;
        lanesLeft := lanesLeft - n;
      }
      GroupEnds(g, first, Remembered());
      assert out + [] == out;
    }

    method Chunk(g: PerspGroup, first: nat, n: nat) returns (records: seq<Record>, live: bool)
      requires GroupOk(g) && first + n <= 8
      ensures records == LaneRecords(g, first, first + n) && live == Live(records)
    {
      records, live := [], false;
      for i := 0 to n
        invariant records == LaneRecords(g, first, first + i) && live == Live(records)
      {
        var src := first + i;
        var r := Record(Column(g.start[src]), src, g.count[src]);
        LiveSnoc(records, r);
        records := records + [r];
        live := live || r.count != 0;
      }
    }

    lemma LiveSnoc(rs: seq<Record>, r: Record)
      ensures Live(rs + [r]) <==> Live(rs) || r.count != 0
    {
      assert r in rs + [r];
      assert forall x <- rs :: x in rs + [r];
    }

    lemma {:induction false} EmitNothing(cache: Cache, rs: seq<Request>)
      ensures EmitAll(cache, rs, features) == (EmitAll(cache, rs, features).0, [] + EmitAll(cache, rs, features).1)
    {
      hide EmitAll;
      assert [] + EmitAll(cache, rs, features).1 == EmitAll(cache, rs, features).1;
    }

    lemma {:induction false} GroupEnds(g: PerspGroup, first: nat, cache: Cache)
      requires GroupOk(g) && first == Lanes(g)
      ensures EmitAll(cache, GroupRequests(g, first), features) == (cache, [])
    {
    }

    lemma NextChunk(g: PerspGroup, first: nat, cache: Cache)
      requires GroupOk(g) && first < Lanes(g)
      ensures var next := if Lanes(g) - first >= 4 then first + 4 else Lanes(g);
              var rs := LaneRecords(g, first, next);
              var all := EmitAll(cache, GroupRequests(g, first), features);
              if Live(rs) then
                var (c, sent) := Emit(cache, SpanList(GroupParams(g), rs), features);
                all == (EmitAll(c, GroupRequests(g, next), features).0, sent + EmitAll(c, GroupRequests(g, next), features).1)
              else all == EmitAll(cache, GroupRequests(g, next), features)
    {
      hide Emit, LaneRecords, Live;
      var next := if Lanes(g) - first >= 4 then first + 4 else Lanes(g);
      var rest := GroupRequests(g, next);
      if Live(LaneRecords(g, first, next)) {
        assert GroupRequests(g, first)[1..] == rest;
      } else {
        assert [] + rest == rest;
      }
    }
  }
}

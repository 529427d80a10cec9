/** Who holds which hardware voice.  The mixer's slots carry generations, so a handle is stale as soon
    as its slot ends, is stopped or is reused.  Holders are listed in one sequence: the synthesizer's
    slots first, then the 32 entries that wait for a fade to finish. */
module SmpOwnership {

  const MIXER_VOICES := 32

  datatype Handle = NoHandle | Handle(slot: nat, gen: nat)

  datatype HwSlot = HwSlot(active: bool, gen: nat, music: bool)

  /** of_mixer_handle_group(h) == OF_MIXER_GROUP_MUSIC. */
  predicate Live(h: Handle, hw: seq<HwSlot>) {
    h.Handle? && h.slot < |hw| && hw[h.slot].active && hw[h.slot].music && hw[h.slot].gen == h.gen
  }

  /** Every sounding music voice has a holder, no two holders share one, and no handle is from the
      future. */
  predicate Owned(held: seq<Handle>, hw: seq<HwSlot>) {
    |hw| == MIXER_VOICES &&
    (forall s :: 0 <= s < |hw| && hw[s].active && hw[s].music ==> Handle(s, hw[s].gen) in held) &&
    (forall k, l :: 0 <= k < l < |held| && Live(held[k], hw) ==> held[k] != held[l]) &&
    (forall k :: 0 <= k < |held| && held[k].Handle? ==>
       held[k].slot < |hw| && held[k].gen <= hw[held[k].slot].gen)
  }

  /** Exactly one holder for every sounding music voice. */
  lemma ExactlyOneHolder(held: seq<Handle>, hw: seq<HwSlot>, s: nat)
    requires Owned(held, hw) && s < MIXER_VOICES && hw[s].active && hw[s].music
    ensures exists k :: 0 <= k < |held| && held[k] == Handle(s, hw[s].gen)
                        && forall l :: 0 <= l < |held| && l != k ==> held[l] != held[k]
  {
    var k :| 0 <= k < |held| && held[k] == Handle(s, hw[s].gen);
    forall l | 0 <= l < |held| && l != k
      ensures held[l] != held[k]
    {
      if l < k {
        assert Live(held[l], hw) ==> held[l] != held[k];
      } else {
        assert Live(held[k], hw) ==> held[k] != held[l];
      }
    }
  }

  /** What the rest of the system may do to the mixer at any time: voices end or are stopped, and
      other groups take over slots, which bumps the generation. */
  predicate Fades(hw: seq<HwSlot>, hw': seq<HwSlot>) {
    |hw'| == |hw| &&
    forall s :: 0 <= s < |hw| ==>
      hw'[s].gen >= hw[s].gen &&
      (hw'[s].active && hw'[s].music ==> hw[s].active && hw[s].music && hw'[s].gen == hw[s].gen)
  }

  lemma FadesKeeps(held: seq<Handle>, hw: seq<HwSlot>, hw': seq<HwSlot>)
    requires Owned(held, hw) && Fades(hw, hw')
    ensures Owned(held, hw')
    ensures forall h :: Live(h, hw') ==> Live(h, hw)
  {
  }

  /** A holder whose handle is stale may let go. */
  lemma DropKeeps(held: seq<Handle>, hw: seq<HwSlot>, k: nat)
    requires Owned(held, hw) && k < |held| && !Live(held[k], hw)
    ensures Owned(held[k := NoHandle], hw)
  {
    var held' := held[k := NoHandle];
    forall s | 0 <= s < |hw| && hw[s].active && hw[s].music
      ensures Handle(s, hw[s].gen) in held'
    {
      var j :| 0 <= j < |held| && held[j] == Handle(s, hw[s].gen);
      assert held'[j] == held[j];
    }
  }

  /** Stopping what a holder holds makes its handle stale. */
  function Stopped(hw: seq<HwSlot>, h: Handle): (hw': seq<HwSlot>)
    ensures Fades(hw, hw') && !Live(h, hw')
  {
    if Live(h, hw) then hw[h.slot := hw[h.slot].(active := false)] else hw
  }

  /** Handing a sounding voice from one holder to another that holds nothing that sounds. */
  lemma MoveKeeps(held: seq<Handle>, hw: seq<HwSlot>, from: nat, dest: nat)
    requires Owned(held, hw) && from < |held| && dest < |held| && from != dest
    requires Live(held[from], hw) && !Live(held[dest], hw)
    ensures Owned(held[dest := held[from]][from := NoHandle], hw)
  {
    var held' := held[dest := held[from]][from := NoHandle];
    forall s | 0 <= s < |hw| && hw[s].active && hw[s].music
      ensures Handle(s, hw[s].gen) in held'
    {
      var j :| 0 <= j < |held| && held[j] == Handle(s, hw[s].gen);
      if j == from {
        assert held'[dest] == held[from];
      } else {
        assert j != dest;
        assert held'[j] == held[j];
      }
    }
  }

  /** Allocating a slot, free or stolen, gives it a generation nobody holds yet. */
  function Started(hw: seq<HwSlot>, s: nat): seq<HwSlot>
    requires s < |hw|
  {
    hw[s := HwSlot(true, hw[s].gen + 1, true)]
  }

  lemma StartKeeps(held: seq<Handle>, hw: seq<HwSlot>, k: nat, s: nat)
    requires Owned(held, hw) && k < |held| && !Live(held[k], hw) && s < MIXER_VOICES
    ensures Owned(held[k := Handle(s, hw[s].gen + 1)], Started(hw, s))
  {
    var hw', h := Started(hw, s), Handle(s, hw[s].gen + 1);
    var held' := held[k := h];
    forall t | 0 <= t < |hw'| && hw'[t].active && hw'[t].music
      ensures Handle(t, hw'[t].gen) in held'
    {
      if t == s {
        assert held'[k] == h;
      } else {
        var j :| 0 <= j < |held| && held[j] == Handle(t, hw[t].gen);
        assert held'[j] == held[j];
      }
    }
    forall i, l | 0 <= i < l < |held'| && Live(held'[i], hw')
      ensures held'[i] != held'[l]
    {
      assert held[i] != h && held[l] != h;
      if i != k && l != k {
        assert Live(held[i], hw);
      }
    }
  }

  // ---- the pigeonhole ----

  /** n distinct numbers below m: n is at most m. */
  lemma {:induction false} Distinct(xs: seq<nat>, m: nat)
    requires forall i :: 0 <= i < |xs| ==> xs[i] < m
    requires forall i, j :: 0 <= i < j < |xs| ==> xs[i] != xs[j]
    ensures |xs| <= m
    decreases m
  {
    if xs != [] {
      assert m > 0 by {
        assert xs[0] < m;
      }
      if k: nat :| k < |xs| && xs[k] == m - 1 {
        var rest := xs[..k] + xs[k + 1..];
        forall i | 0 <= i < |rest|
          ensures rest[i] < m - 1
        {
          assert rest[i] == if i < k then xs[i] else xs[i + 1];
        }
        forall i, j | 0 <= i < j < |rest|
          ensures rest[i] != rest[j]
        {
          assert rest[i] == if i < k then xs[i] else xs[i + 1];
          assert rest[j] == if j < k then xs[j] else xs[j + 1];
        }
        Distinct(rest, m - 1);
      } else {
        forall i | 0 <= i < |xs|
          ensures xs[i] < m - 1
        {
          assert xs[i] < m;
        }
        Distinct(xs, m - 1);
      }
    }
  }

  /** The slots of different sounding holders are different. */
  lemma DistinctSlots(held: seq<Handle>, hw: seq<HwSlot>, a: nat, b: nat)
    requires Owned(held, hw) && a < b < |held| && Live(held[a], hw) && Live(held[b], hw)
    ensures held[a].slot != held[b].slot && held[a].slot < MIXER_VOICES && held[b].slot < MIXER_VOICES
  {
    assert held[a] != held[b];
  }

  /** Holder k, then the entries from base on. */
  function Line(k: nat, base: nat, i: nat): nat { if i == 0 then k else base + (i - 1) }

  /** The slots of holder k and of the 32 entries. */
  function LineSlots(held: seq<Handle>, hw: seq<HwSlot>, k: nat, base: nat): (xs: seq<nat>)
    ensures |xs| == MIXER_VOICES + 1
    ensures forall i :: 0 <= i < |xs| ==> xs[i] == SlotAt(held, hw, Line(k, base, i))
  {
    seq(MIXER_VOICES + 1, i requires 0 <= i < MIXER_VOICES + 1 => SlotAt(held, hw, Line(k, base, i)))
  }

  /** If they all sound, they are all different. */
  lemma LineIsDistinct(held: seq<Handle>, hw: seq<HwSlot>, k: nat, base: nat, i: nat, j: nat)
    requires Owned(held, hw) && k < base && |held| == base + MIXER_VOICES && i < j <= MIXER_VOICES
    requires Live(held[Line(k, base, i)], hw) && Live(held[Line(k, base, j)], hw)
    ensures var xs := LineSlots(held, hw, k, base);
            xs[i] != xs[j] && xs[i] < MIXER_VOICES && xs[j] < MIXER_VOICES
  {
    hide Owned;
    DistinctSlots(held, hw, Line(k, base, i), Line(k, base, j));
  }

  /** A sounding voice that some slot holds leaves at least one of the 32 entries without a sounding
      voice: the entry search never comes back empty-handed. */
  lemma EntryAvailable(held: seq<Handle>, hw: seq<HwSlot>, k: nat, base: nat)
    requires Owned(held, hw) && k < base && |held| == base + MIXER_VOICES && Live(held[k], hw)
    ensures exists e :: base <= e < |held| && !Live(held[e], hw)
  {
    hide Owned, Live;
    if forall e :: base <= e < |held| ==> Live(held[e], hw) {
      var xs := LineSlots(held, hw, k, base);
      forall i, j | 0 <= i < j < |xs|
        ensures xs[i] != xs[j] && xs[i] < MIXER_VOICES && xs[j] < MIXER_VOICES
      {
        LineIsDistinct(held, hw, k, base, i, j);
      }
      assert forall i :: 0 <= i < |xs| ==> xs[i] < MIXER_VOICES by {
        forall i | 0 <= i < |xs|
          ensures xs[i] < MIXER_VOICES
        {
          LineIsDistinct(held, hw, k, base, if i == 0 then 0 else i - 1, if i == 0 then 1 else i);
        }
      }
      Distinct(xs, MIXER_VOICES);
    }
  }

  function SlotAt(held: seq<Handle>, hw: seq<HwSlot>, i: nat): nat {
    if i < |held| && Live(held[i], hw) then held[i].slot else 0
  }
}

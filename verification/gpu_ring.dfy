/** The GPU command stream: words staged in one of two SDRAM buffers, handed to a doorbell DMA that
    copies them into the GPU's ring, and fetched from there by the command processor.

    The DMA and the command processor are a peer that may take any number of steps between two
    actions of the driver; the DMA reads the staging buffers at the moment it copies them. */
module GpuRing {
  import opened Common

  type Word = x: int | 0 <= x < 0x1_0000_0000

  const RING_SIZE := 16384
  const BATCH_WORDS := RING_SIZE / 4 - 1
  const BUFFER_WORDS := 0x4000 / 4
  const KICK_MIN_WORDS := 512
  const CMD_FENCE := 0x02
  const CMD_FLIP := 0x42

  // ---- ring pointers ----

  /** The ring pointer after n words. */
  function Pointer(n: nat): nat { 4 * n % RING_SIZE }

  function FreeBytes(rdptr: int, wrptr: int): nat { (rdptr - wrptr - 4) % RING_SIZE }

  /** As long as at most 4095 words lie between the two pointers, the masked difference is exactly
      the space left, although both pointers have wrapped any number of times. */
  lemma FreeIsExact(read: nat, written: nat)
    requires read <= written <= read + BATCH_WORDS
    ensures FreeBytes(Pointer(read), Pointer(written)) == 4 * (BATCH_WORDS - (written - read))
  {
    var space := 4 * (BATCH_WORDS - (written - read));
    var a, b := 4 * read / RING_SIZE, 4 * written / RING_SIZE;
    assert Pointer(read) - Pointer(written) - 4 == space + (b - a - 1) * RING_SIZE;
    assert 0 <= space < RING_SIZE;
  }

  lemma PointerStep(n: nat, k: nat)
    ensures Pointer(n + k) == (Pointer(n) + 4 * k) % RING_SIZE
  {
  }

  // ---- the peer ----

  /** One doorbell: which staging buffer, and how many words of it. */
  datatype Desc = Desc(index: nat, len: nat)

  datatype Mem = Mem(b0: seq<Word>, b1: seq<Word>) {
    function At(i: nat): seq<Word> { if i == 0 then b0 else b1 }
  }

  /** Descriptor FIFO, words of its head already copied, unread words in the ring, words fetched. */
  datatype Peer = Peer(queue: seq<Desc>, done: nat, ring: seq<Word>, fetched: seq<Word>)

  predicate QueueOk(p: Peer, m: Mem) {
    |p.queue| <= 2 &&
    (forall d <- p.queue :: d.index < 2 && d.len <= |m.At(d.index)|) &&
    if p.queue == [] then p.done == 0 else p.done <= p.queue[0].len
  }

  /** Words handed to the DMA that it has not copied yet. */
  function InDma(p: Peer, m: Mem): seq<Word>
    requires QueueOk(p, m)
  {
    if p.queue == [] then []
    else
      m.At(p.queue[0].index)[p.done..p.queue[0].len]
      + if |p.queue| == 1 then [] else m.At(p.queue[1].index)[..p.queue[1].len]
  }

  /** Nothing is lost, duplicated or reordered between the doorbell and the command processor. */
  predicate Flow(p: Peer, m: Mem, handed: seq<Word>) {
    QueueOk(p, m) && p.fetched + p.ring + InDma(p, m) == handed
  }

  /** The DMA copies one word, or drops a finished descriptor.  It does not look at the ring's fill:
      that the ring is never overrun is the driver's doing. */
  function DmaStep(p: Peer, m: Mem): Peer
    requires QueueOk(p, m) && p.queue != []
  {
    var d := p.queue[0];
    if p.done < d.len then p.(ring := p.ring + [m.At(d.index)[p.done]], done := p.done + 1)
    else p.(queue := p.queue[1..], done := 0)
  }

  function FetchStep(p: Peer): Peer
    requires p.ring != []
  {
    p.(fetched := p.fetched + [p.ring[0]], ring := p.ring[1..])
  }

  function Work(p: Peer, m: Mem): nat
    requires QueueOk(p, m)
  {
    2 * |InDma(p, m)| + |p.queue| + |p.ring|
  }

  lemma DmaKeepsFlow(p: Peer, m: Mem, handed: seq<Word>)
    requires Flow(p, m, handed) && p.queue != []
    ensures Flow(DmaStep(p, m), m, handed) && Work(DmaStep(p, m), m) < Work(p, m)
  {
    var p', d := DmaStep(p, m), p.queue[0];
    var b := m.At(d.index);
    if p.done < d.len {
      assert b[p.done..d.len] == [b[p.done]] + b[p.done + 1..d.len];
      Assoc([b[p.done]], b[p.done + 1..d.len], if |p.queue| == 1 then [] else m.At(p.queue[1].index)[..p.queue[1].len]);
      assert InDma(p, m) == [b[p.done]] + InDma(p', m);
      Assoc(p.fetched + p.ring, [b[p.done]], InDma(p', m));
      Assoc(p.fetched, p.ring, [b[p.done]]);
    } else {
      assert b[p.done..d.len] == [];
      assert InDma(p', m) == InDma(p, m);
    }
  }

  lemma FetchKeepsFlow(p: Peer, m: Mem, handed: seq<Word>)
    requires Flow(p, m, handed) && p.ring != []
    ensures Flow(FetchStep(p), m, handed) && Work(FetchStep(p), m) == Work(p, m) - 1
  {
    assert p.ring == [p.ring[0]] + p.ring[1..];
    Assoc(p.fetched, [p.ring[0]], p.ring[1..]);
  }

  // ---- the driver's registers and what it has asked for ----

  datatype Driver = Driver(wrptr: nat, knownRdptr: nat, cmdWords: nat, index: nat, inflight: bv8, sync: bool)

  /** Complete commands written, the words of the one being written and how many are still owed; how
      many commands have been handed over, how many the last fence or flip needs handed over, and how
      many words had been fetched when the read pointer was last looked at. */
  datatype Ledger = Ledger(cmds: seq<seq<Word>>, partial: seq<Word>, owed: nat, published: nat, syncEnd: nat,
                           knownRead: nat)
  {
    function Emitted(): seq<Word> { Flatten(cmds) + partial }

    function Handed(): seq<Word>
      requires published <= |cmds|
    {
      Flatten(cmds[..published])
    }
  }

  predicate LedgerOk(l: Ledger, sync: bool) {
    l.published <= |l.cmds| && l.syncEnd <= |l.cmds| && (l.owed == 0 ==> l.partial == []) &&
    (!sync ==> l.syncEnd <= l.published)
  }

  /** The space the driver counts on, from the last value of the read pointer it saw. */
  predicate Window(d: Driver, p: Peer, l: Ledger) {
    d.wrptr == Pointer(|l.Emitted()|) && d.knownRdptr == Pointer(l.knownRead) &&
    l.knownRead <= |p.fetched| && |l.Emitted()| + l.owed <= l.knownRead + BATCH_WORDS
  }

  predicate Staging(d: Driver, m: Mem, l: Ledger)
    requires l.published <= |l.cmds|
  {
    d.index < 2 && d.cmdWords + l.owed <= BATCH_WORDS && |m.b0| == |m.b1| == BUFFER_WORDS &&
    l.Handed() + m.At(d.index)[..d.cmdWords] == l.Emitted()
  }

  function Bit(i: nat): bv8 { if i == 0 then 1 else 2 }

  /** The buffer being filled is never one the DMA may still read, so at most one descriptor is
      pending, and the in-flight mask covers it. */
  predicate Disjoint(d: Driver, p: Peer)
  {
    d.index < 2 && |p.queue| <= 1 && (d.inflight == 0 || d.inflight == Bit(1 - d.index)) &&
    (p.queue != [] ==> p.queue[0].index == 1 - d.index && d.inflight == Bit(1 - d.index))
  }

  datatype World = World(d: Driver, p: Peer, m: Mem, l: Ledger)

  /** What holds between any two actions of the driver, whatever the peer has done. */
  predicate Inv(w: World) {
    LedgerOk(w.l, w.d.sync) && Window(w.d, w.p, w.l) && Staging(w.d, w.m, w.l) &&
    Flow(w.p, w.m, w.l.Handed()) && Disjoint(w.d, w.p)
  }

  lemma InvFlow(w: World)
    requires Inv(w)
    ensures QueueOk(w.p, w.m)
  {
  }

  /** Words staged, in DMA and unread in the ring. */
  function Outstanding(w: World): nat
    requires QueueOk(w.p, w.m)
  {
    w.d.cmdWords + |InDma(w.p, w.m)| + |w.p.ring|
  }

  /** Ring safety: the ring never has to hold more than 4095 words, even once everything staged and
      everything reserved has been copied into it, and the driver never believes in more space than
      there is. */
  lemma RingIsSafe(w: World)
    requires Inv(w)
    ensures Outstanding(w) + w.l.owed <= BATCH_WORDS
    ensures FreeBytes(w.d.knownRdptr, w.d.wrptr) + 4 * Outstanding(w) <= 4 * BATCH_WORDS
  {
    FreeIsExact(w.l.knownRead, |w.l.Emitted()|);
  }

  /** Staged words are unread words, so believed ring space for a command is also room for it in the
      staging buffer: a caller that probed for its whole batch is never flushed or blocked partway. */
  lemma SpaceIsRoom(w: World, words: nat)
    requires Inv(w) && w.l.owed == 0 && FreeBytes(w.d.knownRdptr, w.d.wrptr) >= 4 * words
    ensures w.d.cmdWords + words <= BATCH_WORDS
  {
    FreeIsExact(w.l.knownRead, |w.l.Emitted()|);
  }

  /** The command processor sees a prefix of the commands in order, and what it, the ring and the DMA
      hold together is whole commands. */
  lemma InOrder(w: World)
    requires Inv(w)
    ensures w.p.fetched + w.p.ring + InDma(w.p, w.m) == Flatten(w.l.cmds[..w.l.published])
    ensures w.p.fetched <= Flatten(w.l.cmds)
  {
    assert w.l.cmds == w.l.cmds[..w.l.published] + w.l.cmds[w.l.published..];
    FlattenAppend(w.l.cmds[..w.l.published], w.l.cmds[w.l.published..]);
  }

  /** Any step of the peer keeps the invariant. */
  lemma PeerKeepsInv(w: World, p': Peer)
    requires Inv(w)
    requires (w.p.queue != [] && p' == DmaStep(w.p, w.m)) || (w.p.ring != [] && p' == FetchStep(w.p))
    ensures Inv(w.(p := p')) && Work(p', w.m) < Work(w.p, w.m)
  {
    hide Window, Staging, InDma;
    if w.p.queue != [] && p' == DmaStep(w.p, w.m) {
      DmaKeepsFlow(w.p, w.m, w.l.Handed());
    } else {
      FetchKeepsFlow(w.p, w.m, w.l.Handed());
    }
    WindowGrows(w.d, w.p, w.l, p');
  }

  lemma WindowGrows(d: Driver, p: Peer, l: Ledger, p': Peer)
    requires Window(d, p, l) && |p.fetched| <= |p'.fetched|
    ensures Window(d, p', l)
  {
  }

  /** With only the other buffer possibly in flight, the descriptor-slot wait is always skipped, and
      after the doorbell the mask tells whether the other buffer is. */
  lemma MaskFacts(b: nat, mask: bv8)
    requires b < 2 && (mask == 0 || mask == Bit(1 - b))
    ensures mask & (mask - 1) == 0
    ensures (mask | Bit(b)) & Bit(1 - b) != 0 <==> mask == Bit(1 - b)
    ensures mask == 0 ==> mask | Bit(b) == Bit(b)
  {
  }

  // ---- publishing ----

  /** The doorbell and the bookkeeping after it. */
  function Kicked(w: World): World {
    var d := w.d;
    World(d.(cmdWords := 0, sync := false, inflight := d.inflight | Bit(d.index)),
          w.p.(queue := w.p.queue + [Desc(d.index, d.cmdWords)]), w.m,
          w.l.(published := |w.l.cmds|))
  }

  /** Nothing is staged or owed and every command has been handed over. */
  predicate Settled(w: World) {
    LedgerOk(w.l, w.d.sync) && Window(w.d, w.p, w.l) && Flow(w.p, w.m, w.l.Handed()) &&
    |w.m.b0| == |w.m.b1| == BUFFER_WORDS && w.d.index < 2 && w.d.cmdWords == 0 && w.l.owed == 0 &&
    w.l.published == |w.l.cmds|
  }

  /** Between the doorbell and the choice of the next buffer: the buffer just handed over is in
      flight, and the other one may be. */
  predicate AfterKick(w: World) {
    Settled(w) &&
    (w.d.inflight & Bit(1 - w.d.index) == 0 ==>
       (w.d.inflight == 0 || w.d.inflight == Bit(w.d.index)) && |w.p.queue| <= 1 &&
       (w.p.queue != [] ==> w.p.queue[0].index == w.d.index && w.d.inflight == Bit(w.d.index)))
  }

  /** The FIFO has a free descriptor although the wait for one is skipped, and the doorbell hands over
      exactly the staged words, which are whole commands. */
  lemma KickIsSafe(w: World)
    requires Inv(w) && w.l.owed == 0
    ensures |w.p.queue| < 2 && w.d.inflight & (w.d.inflight - 1) == 0
    ensures AfterKick(Kicked(w))
    ensures Flatten(w.l.cmds) == w.l.Handed() + w.m.At(w.d.index)[..w.d.cmdWords]
  {
    hide Window;
    MaskFacts(w.d.index, w.d.inflight);
    var w' := Kicked(w);
    assert w.l.cmds[..|w.l.cmds|] == w.l.cmds;
    assert w.l.partial == [];
    assert w'.l.Handed() == w.l.Handed() + w.m.At(w.d.index)[..w.d.cmdWords];
    assert InDma(w'.p, w.m) == InDma(w.p, w.m) + w.m.At(w.d.index)[..w.d.cmdWords];
    Assoc(w.p.fetched + w.p.ring, InDma(w.p, w.m), w.m.At(w.d.index)[..w.d.cmdWords]);
    SameWindow(w.d, w'.d, w.p, w'.p, w.l, w'.l);
  }

  lemma SameWindow(d: Driver, d': Driver, p: Peer, p': Peer, l: Ledger, l': Ledger)
    requires Window(d, p, l) && d'.wrptr == d.wrptr && d'.knownRdptr == d.knownRdptr
    requires p'.fetched == p.fetched && l'.cmds == l.cmds && l'.partial == l.partial && l'.owed == l.owed
    requires l'.knownRead == l.knownRead
    ensures Window(d', p', l')
  {
  }

  lemma SelectIsSafe(w: World)
    requires AfterKick(w) && w.d.inflight & Bit(1 - w.d.index) == 0
    ensures Inv(w.(d := w.d.(index := 1 - w.d.index)))
  {
    hide Window, InDma;
    assert w.l.cmds[..|w.l.cmds|] == w.l.cmds;
    assert w.l.partial == [];
    SameWindow(w.d, w.d.(index := 1 - w.d.index), w.p, w.p, w.l, w.l);
  }

  lemma PeerKeepsSettled(w: World, p': Peer)
    requires Settled(w)
    requires (w.p.queue != [] && p' == DmaStep(w.p, w.m)) || (w.p.ring != [] && p' == FetchStep(w.p))
    ensures Settled(w.(p := p')) && Work(p', w.m) < Work(w.p, w.m)
  {
    hide Window, InDma;
    if w.p.queue != [] && p' == DmaStep(w.p, w.m) {
      DmaKeepsFlow(w.p, w.m, w.l.Handed());
    } else {
      FetchKeepsFlow(w.p, w.m, w.l.Handed());
    }
    WindowGrows(w.d, w.p, w.l, p');
  }

  lemma SettledFacts(w: World)
    requires Settled(w)
    ensures QueueOk(w.p, w.m) && (w.p.queue != [] ==> Work(w.p, w.m) > 0)
    ensures w.d.index < 2 && w.d.cmdWords == 0 && w.l.owed == 0
    ensures w.p.queue == [] ==> Settled(w.(d := w.d.(inflight := 0)))
  {
    hide InDma;
    SameWindow(w.d, w.d.(inflight := 0), w.p, w.p, w.l, w.l);
  }

  lemma InvSettled(w: World)
    requires Inv(w) && w.d.cmdWords == 0 && w.l.owed == 0 && w.l.published == |w.l.cmds|
    ensures Settled(w)
  {
  }

  /** An idle DMA frees both buffers. */
  lemma IdleIsInv(w: World)
    requires Settled(w) && w.p.queue == [] && w.d.inflight == 0
    ensures Inv(w)
  {
    hide Window, InDma;
    assert w.l.cmds[..|w.l.cmds|] == w.l.cmds;
    assert w.l.partial == [];
  }

  // ---- emitting ----

  /** Looking at the read pointer. */
  lemma ReadPointer(w: World)
    requires Inv(w)
    ensures Inv(w.(d := w.d.(knownRdptr := Pointer(|w.p.fetched|)), l := w.l.(knownRead := |w.p.fetched|)))
    ensures |w.p.fetched| <= |w.l.Emitted()| + w.l.owed
  {
  }

  /** Reserving room for a command. */
  lemma Reserve(w: World, words: nat)
    requires Inv(w) && w.l.owed == 0 && words > 0
    requires FreeBytes(w.d.knownRdptr, w.d.wrptr) >= 4 * words
    ensures Inv(w.(l := w.l.(owed := words)))
  {
    FreeIsExact(w.l.knownRead, |w.l.Emitted()|);
  }

  /** Once the peer has nothing left to do, every word staged before is gone and the whole ring is
      free: a wait for space with nothing staged always ends. */
  lemma DrainedIsFree(w: World)
    requires Inv(w) && w.d.cmdWords == 0 && w.l.owed == 0 && Work(w.p, w.m) == 0
    ensures FreeBytes(Pointer(|w.p.fetched|), w.d.wrptr) == 4 * BATCH_WORDS
  {
    FreeIsExact(|w.p.fetched|, |w.l.Emitted()|);
  }

  function StoreAt(m: Mem, i: nat, k: nat, x: Word): Mem
    requires k < |m.At(i)|
  {
    if i == 0 then m.(b0 := m.b0[k := x]) else m.(b1 := m.b1[k := x])
  }

  /** _gpu_ring_write: one owed word into the staging buffer. */
  function Written(w: World, x: Word): World
    requires w.l.owed > 0 && w.d.cmdWords < |w.m.At(w.d.index)|
  {
    var partial := w.l.partial + [x];
    World(w.d.(cmdWords := w.d.cmdWords + 1, wrptr := (w.d.wrptr + 4) % RING_SIZE),
          w.p, StoreAt(w.m, w.d.index, w.d.cmdWords, x),
          if w.l.owed > 1 then w.l.(partial := partial, owed := w.l.owed - 1)
          else w.l.(cmds := w.l.cmds + [partial], partial := [], owed := 0))
  }

  /** The store does not touch the buffer the DMA is reading, and the word becomes the next word of
      the stream. */
  lemma WriteKeepsInv(w: World, x: Word)
    requires Inv(w) && w.l.owed > 0
    ensures w.d.cmdWords < BATCH_WORDS && Inv(Written(w, x))
    ensures Written(w, x).l.Emitted() == w.l.Emitted() + [x]
  {
    var w' := Written(w, x);
    var b, b' := w.m.At(w.d.index), w'.m.At(w.d.index);
    Assoc(Flatten(w.l.cmds), w.l.partial, [x]);
    FlattenSnoc(w.l.cmds, w.l.partial + [x]);
    assert w'.l.Emitted() == w.l.Emitted() + [x];
    PointerStep(|w.l.Emitted()|, 1);
    assert b'[..w.d.cmdWords + 1] == b[..w.d.cmdWords] + [x];
    Assoc(w.l.Handed(), b[..w.d.cmdWords], [x]);
    assert w'.l.cmds[..w.l.published] == w.l.cmds[..w.l.published];
    assert InDma(w'.p, w'.m) == InDma(w.p, w.m);
  }

  class GpuStream {
    // the file statics of the driver
    const buf0: array<Word>
    const buf1: array<Word>
    var wrptr: nat
    var knownRdptr: nat
    var cmdWords: nat
    var batchIndex: nat
    var inflightMask: bv8
    var unflushedSync: bool
    var fenceNext: Word

    // the other side of the registers, and the account of what was asked for
    var peer: Peer
    ghost var ledger: Ledger

    function Buf(i: nat): array<Word> { if i == 0 then buf0 else buf1 }

    ghost predicate Sized() {
      buf0 != buf1 && buf0.Length == buf1.Length == BUFFER_WORDS
    }

    ghost function Memory(): Mem
      reads buf0, buf1
    {
      Mem(buf0[..], buf1[..])
    }

    ghost function Now(): World
      reads this, buf0, buf1
    {
      World(Driver(wrptr, knownRdptr, cmdWords, batchIndex, inflightMask, unflushedSync), peer, Memory(), ledger)
    }

    ghost predicate Valid()
      reads this, buf0, buf1
    {
      Sized() && Inv(Now())
    }

    constructor ()
      ensures Valid() && ledger == Ledger([], [], 0, 0, 0, 0) && peer.fetched == [] && fenceNext == 1
      ensures fresh(buf0) && fresh(buf1)
    {
      buf0 := new Word[BUFFER_WORDS](_ => 0);
      buf1 := new Word[BUFFER_WORDS](_ => 0);
      wrptr, knownRdptr, cmdWords, batchIndex := 0, 0, 0, 0;
      inflightMask, unflushedSync, fenceNext := 0, false, 1;
      peer := Peer([], 0, [], []);
      ledger := Ledger([], [], 0, 0, 0, 0);
    }

    // ---- the peer at work ----

    /** One step of the DMA or of the command processor, if either has anything to do. */
    method PeerStep() returns (idle: bool)
      requires Sized() && QueueOk(peer, Memory())
      modifies `peer
      ensures idle ==> peer == old(peer) && Work(peer, Memory()) == 0
      ensures idle || (old(peer).queue != [] && peer == DmaStep(old(peer), Memory()))
                   || (old(peer).ring != [] && peer == FetchStep(old(peer)))
    {
      var dmaTurn: bool := *;
      idle := false;
      if peer.queue != [] && (dmaTurn || peer.ring == []) {
        var d := peer.queue[0];
        if peer.done < d.len {
          peer := peer.(ring := peer.ring + [Buf(d.index)[peer.done]], done := peer.done + 1);
        } else {
          peer := peer.(queue := peer.queue[1..], done := 0);
        }
      } else if peer.ring != [] {
        peer := FetchStep(peer);
      } else {
        idle := true;
      }
    }

    /** Any number of peer steps between two actions of the driver. */
    method PeerRuns()
      requires Valid()
      modifies `peer
      ensures Valid() && Left() <= old(Left())
    {
      hide Inv, DmaStep, FetchStep, Work, InDma;
      var more: bool := *;
      while more
        invariant Valid() && Left() <= old(Left())
        decreases if more then 1 + Left() else 0
      {
        InvFlow(Now());
        ghost var w := Now();
        var idle := PeerStep();
        if idle {
          return;
        }
        PeerKeepsInv(w, peer);
        assert Now() == w.(p := peer);
        InvFlow(Now());
        more := *;
      }
    }

    ghost function Left(): nat
      reads this, buf0, buf1
    {
      if QueueOk(peer, Memory()) then Work(peer, Memory()) else 0
    }

    /** _gpu_wait_dma_idle_debug.  A working peer always ends it, whatever is in the ring: the DMA
        never has to wait for ring space. */
    method WaitDmaIdle()
      requires Sized() && Settled(Now())
      modifies `peer, `inflightMask
      ensures Settled(Now()) && Valid() && peer.queue == [] && inflightMask == 0
    {
      hide Settled, Inv, DmaStep, FetchStep, Work, InDma, QueueOk;
      while peer.queue != []
        modifies `peer
        invariant Settled(Now())
        decreases Left()
      {
        ghost var w := Now();
        SettledFacts(w);
        var idle := PeerStep();
        PeerKeepsSettled(w, peer);
        assert Now() == w.(p := peer);
        SettledFacts(Now());
      }
      ghost var v := Now();
      SettledFacts(v);
      inflightMask := 0;
      assert Now() == v.(d := v.d.(inflight := 0));
      IdleIsInv(Now());
    }

    /** _gpu_wait_dma_desc_slot_debug: skipped, because never more than one buffer is in flight here. */
    method WaitDescSlot()
      requires Valid()
      ensures |peer.queue| < 2
    {
      MaskFacts(batchIndex, inflightMask);
      if inflightMask & (inflightMask - 1) == 0 {
        return;
      }
      assert false;
    }

    /** The doorbell for the staged words. */
    method KickStaged()
      requires Valid() && ledger.owed == 0
      modifies `peer, `inflightMask, `cmdWords, `unflushedSync, `ledger
      ensures Sized() && AfterKick(Now()) && ledger == old(ledger).(published := |ledger.cmds|)
    {
      hide Inv, AfterKick;
      PeerRuns();
      WaitDescSlot();
      ghost var w := Now();
      KickIsSafe(w);
      peer := peer.(queue := peer.queue + [Desc(batchIndex, cmdWords)]);
      inflightMask := inflightMask | Bit(batchIndex);
      cmdWords, unflushedSync := 0, false;
      ledger := ledger.(published := |ledger.cmds|);
      assert Now() == Kicked(w);
    }

    /** Go on with the other buffer once the DMA has let go of it. */
    method SelectOther()
      requires Sized() && AfterKick(Now())
      modifies `peer, `inflightMask, `batchIndex
      ensures Valid() && cmdWords == 0 && ledger == old(ledger)
    {
      hide Settled, Inv, InDma, Window, Flow, LedgerOk;
      SettledFacts(Now());
      var nextIndex := 1 - batchIndex;
      if inflightMask & Bit(nextIndex) != 0 {
        WaitDmaIdle();
      }
      SettledFacts(Now());
      ghost var v := Now();
      SelectIsSafe(v);
      batchIndex := nextIndex;
      assert Now() == v.(d := v.d.(index := nextIndex));
    }

    /** _gpu_flush_cmd_stream: hand over everything staged, all of it whole commands. */
    method FlushCmdStream()
      requires Valid() && ledger.owed == 0
      modifies `peer, `inflightMask, `cmdWords, `unflushedSync, `batchIndex, `ledger
      ensures Valid() && cmdWords == 0
      ensures ledger == old(ledger).(published := |ledger.cmds|)
    {
      if cmdWords == 0 {
        NothingStaged(Now());
        ledger := ledger.(published := |ledger.cmds|);
        return;
      }
      KickStaged();
      SelectOther();
    }

    lemma NothingStaged(w: World)
      requires Inv(w) && w.d.cmdWords == 0 && w.l.owed == 0
      ensures Inv(w.(l := w.l.(published := |w.l.cmds|)))
    {
      hide Window, InDma, Disjoint;
      assert w.l.cmds[..|w.l.cmds|] == w.l.cmds;
      assert w.l.Emitted() == Flatten(w.l.cmds);
      assert w.l.Handed() + w.m.At(w.d.index)[..0] == w.l.Handed();
      SameWindow(w.d, w.d, w.p, w.p, w.l, w.l.(published := |w.l.cmds|));
    }

    // ---- ring space ----

    method RingFreeNow() returns (free: nat)
      requires Valid()
      modifies `peer, `knownRdptr, `ledger
      ensures Valid() && free == FreeBytes(knownRdptr, wrptr) && Left() <= old(Left())
      ensures ledger == old(ledger).(knownRead := ledger.knownRead) && ledger.knownRead == |peer.fetched|
    {
      PeerRuns();
      ghost var w := Now();
      ReadPointer(w);
      knownRdptr := Pointer(|peer.fetched|);
      ledger := ledger.(knownRead := |peer.fetched|);
      assert Now() == w.(d := w.d.(knownRdptr := knownRdptr), l := ledger);
      free := FreeBytes(knownRdptr, wrptr);
    }

    function RingFreeKnown(): nat
      reads this
    {
      FreeBytes(knownRdptr, wrptr)
    }

    /** of_gpu_can_emit: a probe that commits to nothing. */
    method CanEmit(bytes: nat) returns (yes: bool)
      requires Valid()
      modifies `peer, `knownRdptr, `ledger
      ensures Valid() && ledger.cmds == old(ledger).cmds && ledger.owed == old(ledger).owed
      ensures yes <==> bytes <= RING_SIZE - 4 && RingFreeKnown() >= bytes
      ensures bytes <= RING_SIZE - 4 ==> ledger.knownRead == |peer.fetched|
    {
      if bytes > RING_SIZE - 4 {
        return false;
      }
      var free := RingFreeNow();
      yes := free >= bytes;
    }

    /** _gpu_ring_ensure.  If the last known read pointer leaves no room, everything staged is published
        before the wait, so a peer that keeps draining always ends it. */
    method RingEnsure(bytes: nat)
      requires Valid() && ledger.owed == 0 && bytes <= RING_SIZE - 4
      modifies `peer, `inflightMask, `cmdWords, `unflushedSync, `batchIndex, `ledger, `knownRdptr
      ensures Valid() && RingFreeKnown() >= bytes
      ensures old(RingFreeKnown()) >= bytes ==> Now() == old(Now())
      ensures old(RingFreeKnown()) < bytes ==> cmdWords == 0 && ledger.published == |ledger.cmds|
      ensures ledger.cmds == old(ledger).cmds && ledger.syncEnd == old(ledger).syncEnd && ledger.owed == 0
    {
      if RingFreeKnown() >= bytes {
        return;
      }
      FlushCmdStream();
      InvSettled(Now());
      WaitDmaIdle();
      var free := RingFreeNow();
      while free < bytes
        modifies `peer, `knownRdptr, `ledger
        invariant Valid() && cmdWords == 0 && ledger.owed == 0
        invariant ledger.cmds == old(ledger).cmds && ledger.syncEnd == old(ledger).syncEnd
        invariant ledger.published == |ledger.cmds|
        invariant free == RingFreeKnown() && ledger.knownRead == |peer.fetched|
        decreases Left()
      {
        StillBusy(Now(), bytes);
        Step();
        free := RingFreeNow();
      }
    }

    lemma StillBusy(w: World, bytes: nat)
      requires Inv(w) && w.d.cmdWords == 0 && w.l.owed == 0 && w.l.knownRead == |w.p.fetched|
      requires FreeBytes(w.d.knownRdptr, w.d.wrptr) < bytes <= RING_SIZE - 4
      ensures QueueOk(w.p, w.m) && Work(w.p, w.m) > 0
    {
      if Work(w.p, w.m) == 0 {
        DrainedIsFree(w);
      }
    }

    method Step()
      requires Valid() && Left() > 0
      modifies `peer
      ensures Valid() && Left() < old(Left())
    {
      hide Inv, DmaStep, FetchStep, Work, InDma, QueueOk;
      ghost var w := Now();
      InvFlow(w);
      var idle := PeerStep();
      PeerKeepsInv(w, peer);
      assert Now() == w.(p := peer);
      InvFlow(Now());
    }

    // ---- emitting commands ----

    /** _gpu_stream_reserve_words: room for a whole command, in the staging buffer and in the ring. */
    method StreamReserveWords(words: nat)
      requires Valid() && ledger.owed == 0 && words <= BATCH_WORDS
      modifies `peer, `inflightMask, `cmdWords, `unflushedSync, `batchIndex, `ledger, `knownRdptr
      ensures Valid() && ledger.owed == words && ledger.partial == []
      ensures ledger.cmds == old(ledger).cmds && ledger.syncEnd == old(ledger).syncEnd
      // a caller that probed for the space is neither flushed nor made to wait
      ensures old(RingFreeKnown()) >= 4 * words ==>
                Now() == old(Now()).(l := old(ledger).(owed := words))
    {
      if words == 0 {
        NothingOpen(Now());
        return;
      }
      ghost var w := Now();
      if RingFreeKnown() >= 4 * words {
        SpaceIsRoom(w, words);
      }
      if cmdWords + words > BATCH_WORDS {
        FlushCmdStream();
      }
      RingEnsure(words * 4);
      Reserve(Now(), words);
      NothingOpen(Now());
      ghost var v := Now();
      ledger := ledger.(owed := words);
      assert Now() == v.(l := v.l.(owed := words));
    }

    lemma NothingOpen(w: World)
      requires Inv(w) && w.l.owed == 0
      ensures w.l.partial == []
    {
    }

    /** _gpu_ring_write. */
    method RingWrite(x: Word)
      requires Valid() && ledger.owed > 0
      modifies buf0, buf1, `cmdWords, `wrptr, `ledger
      ensures Valid() && ledger == Written(old(Now()), x).l
    {
      ghost var w := Now();
      WriteKeepsInv(w, x);
      Buf(batchIndex)[cmdWords] := x;
      cmdWords := cmdWords + 1;
      wrptr := (wrptr + 4) % RING_SIZE;
      ledger := Written(w, x).l;
      assert Memory() == StoreAt(w.m, w.d.index, w.d.cmdWords, x);
      assert Now() == Written(w, x);
    }

    /** A whole command, word after word, while the peer goes on; nothing is published in the middle
        of it. */
    method EmitCommand(words: seq<Word>)
      requires Valid() && ledger.owed == 0 && 0 < |words| <= BATCH_WORDS
      modifies this, buf0, buf1
      ensures Valid() && ledger.owed == 0 && fenceNext == old(fenceNext)
      ensures ledger.cmds == old(ledger).cmds + [words] && ledger.syncEnd == old(ledger).syncEnd
      ensures old(RingFreeKnown()) >= 4 * |words| ==>
                ledger.published == old(ledger).published && RingFreeKnown() == old(RingFreeKnown()) - 4 * |words|
    {
      hide Inv, FreeBytes, Pointer;
      ghost var before := Now();
      StreamReserveWords(|words|);
      ghost var start, known := ledger, knownRdptr;
      for i := 0 to |words|
        invariant Valid() && fenceNext == old(fenceNext)
        invariant i < |words| ==> ledger == start.(partial := words[..i], owed := |words| - i)
        invariant i == |words| ==> ledger == start.(cmds := start.cmds + [words], partial := [], owed := 0)
        invariant knownRdptr == known
      {
        assert words[..i + 1] == words[..i] + [words[i]];
        RingWrite(words[i]);
        PeerRuns();
        assert i + 1 == |words| ==> words[..i + 1] == words;
      }
      KnownSpace(before);
      KnownSpace(Now());
      FlattenSnoc(start.cmds, words);
    }

    lemma KnownSpace(w: World)
      requires Inv(w) && w.l.owed == 0
      ensures w.l.Emitted() == Flatten(w.l.cmds)
      ensures FreeBytes(w.d.knownRdptr, w.d.wrptr) == 4 * (BATCH_WORDS - |Flatten(w.l.cmds)| + w.l.knownRead)
    {
      FreeIsExact(w.l.knownRead, |w.l.Emitted()|);
    }

    /** of_gpu_submit_command_stream_batch: a ready-made stream, kept in one piece and published at
        once. */
    method SubmitCommandStreamBatch(words: seq<Word>)
      requires Valid() && ledger.owed == 0 && |words| <= BATCH_WORDS
      modifies this, buf0, buf1
      ensures Valid() && ledger.owed == 0 && fenceNext == old(fenceNext)
      ensures words == [] ==> Now() == old(Now())
      ensures words != [] ==> ledger.cmds == old(ledger).cmds + [words]
                              && ledger.published == |ledger.cmds| && cmdWords == 0
    {
      if |words| == 0 {
        return;
      }
      EmitCommand(words);
      FlushCmdStream();
    }

    // ---- tokens and kicks ----

    /** of_gpu_fence. */
    method Fence() returns (token: Word)
      requires Valid() && ledger.owed == 0
      modifies this, buf0, buf1
      ensures Valid() && ledger.owed == 0 && token == old(fenceNext)
      ensures fenceNext == (token + 1) % 0x1_0000_0000
      ensures ledger.cmds == old(ledger).cmds + [[CMD_FENCE * 0x100_0000 + 1, token]]
      ensures ledger.syncEnd == |ledger.cmds| && unflushedSync
    {
      token := fenceNext;
      fenceNext := (fenceNext + 1) % 0x1_0000_0000;
      EmitCommand([CMD_FENCE * 0x100_0000 + 1, token]);
      MarkSync();
    }

    /** of_gpu_flip_to. */
    method FlipTo(idx: int) returns (token: Word)
      requires Valid() && ledger.owed == 0
      modifies this, buf0, buf1
      ensures Valid() && ledger.owed == 0 && token == old(fenceNext)
      ensures fenceNext == (token + 1) % 0x1_0000_0000
      ensures ledger.cmds == old(ledger).cmds + [[CMD_FLIP * 0x100_0000 + 2, idx % 4, token]]
      ensures ledger.syncEnd == |ledger.cmds| && unflushedSync
    {
      token := fenceNext;
      fenceNext := (fenceNext + 1) % 0x1_0000_0000;
      EmitCommand([CMD_FLIP * 0x100_0000 + 2, idx % 4, token]);
      MarkSync();
    }

    /** _gpu_unflushed_sync = 1, after the token has been staged. */
    method MarkSync()
      requires Valid() && ledger.owed == 0
      modifies `unflushedSync, `ledger
      ensures Valid() && unflushedSync && ledger == old(ledger).(syncEnd := |ledger.cmds|)
    {
      SyncMarked(Now());
      ghost var w := Now();
      unflushedSync := true;
      ledger := ledger.(syncEnd := |ledger.cmds|);
      assert Now() == w.(d := w.d.(sync := true), l := ledger);
    }

    lemma SyncMarked(w: World)
      requires Inv(w)
      ensures Inv(w.(d := w.d.(sync := true), l := w.l.(syncEnd := |w.l.cmds|)))
    {
      hide InDma;
    }

    /** of_gpu_kick: lazy, yet after it every fence and flip ever staged has been handed over. */
    method Kick()
      requires Valid() && ledger.owed == 0
      modifies `peer, `inflightMask, `cmdWords, `unflushedSync, `batchIndex, `ledger
      ensures Valid() && ledger.owed == 0 && ledger.cmds == old(ledger).cmds
      ensures ledger.syncEnd == old(ledger).syncEnd <= ledger.published
      ensures old(cmdWords) >= KICK_MIN_WORDS || old(unflushedSync) ==>
                cmdWords == 0 && ledger.published == |ledger.cmds|
      ensures old(cmdWords) < KICK_MIN_WORDS && !old(unflushedSync) ==> Now() == old(Now())
    {
      if cmdWords >= KICK_MIN_WORDS || unflushedSync {
        FlushCmdStream();
      }
      SyncPublished(Now());
    }

    lemma SyncPublished(w: World)
      requires Inv(w) && (!w.d.sync || w.l.published == |w.l.cmds|)
      ensures w.l.syncEnd <= w.l.published
    {
    }

    /** of_gpu_submit. */
    method Submit() returns (token: Word)
      requires Valid() && ledger.owed == 0
      modifies this, buf0, buf1
      ensures Valid() && ledger.owed == 0 && token == old(fenceNext)
      ensures fenceNext == (token + 1) % 0x1_0000_0000
      ensures ledger.cmds == old(ledger).cmds + [[CMD_FENCE * 0x100_0000 + 1, token]]
      ensures ledger.published == |ledger.cmds|
    {
      token := Fence();
      Kick();
    }
  }

  /** Stage a token, kick, wait for it: once a token's command has been handed over, a peer with
      nothing left to do has fetched it, so the wait ends. */
  lemma TokenArrives(w: World)
    requires Inv(w) && Work(w.p, w.m) == 0 && w.l.syncEnd <= w.l.published
    ensures Flatten(w.l.cmds[..w.l.syncEnd]) <= w.p.fetched
  {
    InOrder(w);
    var all, some := w.l.cmds[..w.l.published], w.l.cmds[..w.l.syncEnd];
    assert all == some + all[w.l.syncEnd..];
    FlattenAppend(some, all[w.l.syncEnd..]);
    assert w.p.ring == [] && InDma(w.p, w.m) == [];
    assert w.p.fetched + w.p.ring + InDma(w.p, w.m) == w.p.fetched;
  }
}

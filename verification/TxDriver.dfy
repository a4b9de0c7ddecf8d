/** The transmit side of the driver, on 32-bit counters and ring arrays shared with
the engine. Every store is followed by a place where the engine may run; every step
taken is recorded, so each method's runs are runs of `TxModel`. */
module TxDriver {
  import opened Ring
  import opened Slots
  import opened TxModel
  import opened TxInvariant
  import opened TxRuns

  /** The space check on wrapping counters counts what the positions say. */
  function TxAvail(dirtyTx: u32, curTx: u32, size: u32): u32 {
    Sub32(Sub32(Add32(dirtyTx, size), curTx), 1)
  }

  lemma AvailRefines(dirty: nat, cur: nat, size: u32)
    requires 0 < size && dirty <= cur <= dirty + size as int - 1
    ensures TxAvail(Wrap(dirty), Wrap(cur), size) as int == dirty + size as int - cur - 1
  {
    var sum := Add32(Wrap(dirty), size);
    ModShift(dirty, size as int);
    assert sum == Wrap(dirty + size as int);
    WrapSub(dirty + size as int, cur);
  }

  /** A raw send moves `cur` without a space check. Afterwards the count of free descriptors
      is right exactly when there was one; otherwise it shows 2^32 - 1, and any frame
      fits. */
  lemma RawSendCountsIff(dirty: nat, cur: nat, size: u32)
    requires 0 < size && dirty <= cur < dirty + size as int
    ensures TxAvail(Wrap(dirty), Wrap(cur + 1), size) as int == dirty + size as int - (cur + 1) - 1
            <==> cur + 1 < dirty + size as int
    ensures cur + 1 == dirty + size as int ==> TxAvail(Wrap(dirty), Wrap(cur + 1), size) == 0xffff_ffff
  {
    if cur + 1 < dirty + size as int {
      AvailRefines(dirty, cur + 1, size);
    } else {
      ModShift(dirty, size as int);
      assert Add32(Wrap(dirty), size) == Wrap(cur + 1);
    }
  }

  lemma ModShift(x: int, y: int)
    ensures (x % TWO32 + y) % TWO32 == (x + y) % TWO32
  {
  }

  lemma CountersMeetIff(dirty: nat, cur: nat)
    requires dirty <= cur < dirty + TWO32
    ensures Wrap(dirty) == Wrap(cur) <==> dirty == cur
  {
  }

  /** The 32-bit frame count takes the same decision as long as it cannot wrap. */
  lemma CoalesceRefines(count: u32, n: u32, coal: u32)
    requires count as int + n as int < TWO32
    ensures var c := Add32(count, n);
            Coalesce(count as int, n as int, coal as int)
            == if coal > c then (false, c as int) else (true, 0)
  {
  }

  /** The engine completed a descriptor that asks for an interrupt. */
  ghost predicate Completed(s: Tx, s': Tx) {
    exists p :: |s.sent| <= p < |s'.sent| && s'.sent[p].ic
  }

  /** The status bit is set if it was, or if the engine had something to report; no report
      was lost and none was made up. */
  ghost predicate Told(s: Tx, s': Tx, before: bool, after: bool) {
    && s.sent <= s'.sent
    && (after <==> before || Completed(s, s'))
  }

  lemma EngineEffect(s: Tx)
    requires Shaped(s) && PcOk(s.pc) && Enabled(s, Engine)
    ensures EngineOnly(s, Step(s, Engine))
    ensures Step(s, Engine).sent == s.sent + [DescAt(s, s.eng)]
  {
  }

  lemma ToldChain(s: Tx, s1: Tx, s2: Tx, a: bool, b: bool, c: bool)
    requires Told(s, s1, a, b) && Told(s1, s2, b, c)
    ensures Told(s, s2, a, c)
  {
    CompletedChain(s, s1, s2);
    hide Completed;
  }

  lemma CompletedChain(s: Tx, s1: Tx, s2: Tx)
    requires s.sent <= s1.sent <= s2.sent
    ensures Completed(s, s2) <==> Completed(s, s1) || Completed(s1, s2)
  {
    if Completed(s, s1) {
      var p :| |s.sent| <= p < |s1.sent| && s1.sent[p].ic;
      assert s2.sent[p] == s1.sent[p];
    }
    if Completed(s, s2) {
      var p :| |s.sent| <= p < |s2.sent| && s2.sent[p].ic;
      assert p < |s1.sent| ==> s1.sent[p] == s2.sent[p];
    }
  }

  /** Steps of the driver in between change nothing about it. */
  lemma ToldOver(s: Tx, s1: Tx, s2: Tx, a: bool, b: bool, c: bool)
    requires Told(s, s1, a, b) && s1.sent == s2.sent && b == c
    ensures Told(s, s2, a, c)
  {
    NothingTold(s1, s2, b);
    ToldChain(s, s1, s2, a, b, c);
  }

  lemma NothingTold(s: Tx, s': Tx, b: bool)
    requires s'.sent == s.sent
    ensures Told(s, s', b, b)
  {
  }

  lemma OneTold(s: Tx, s': Tx, d: Desc, b: bool)
    requires s'.sent == s.sent + [d]
    ensures Told(s, s', b, b || d.ic)
  {
    assert s'.sent[|s.sent|] == d;
  }

  lemma SlotOfSlot(p: nat, size: nat)
    requires size > 0
    ensures Slot(Slot(p, size), size) == Slot(p, size)
  {
    ModUnique(Slot(p, size), size, 0, Slot(p, size));
  }

  /** A reset's loop over the slots collects them in slot order. */
  lemma SlotSnoc(skb: seq<Option<Skb>>, dma: seq<nat>, d: seq<Desc>, i: nat)
    requires |skb| == |dma| == |d| && i < |skb|
    ensures InSlots(skb[..i + 1]) == InSlots(skb[..i]) + Holds(skb[i])
    ensures SlotMappings(skb[..i + 1], dma[..i + 1], d[..i + 1])
            == SlotMappings(skb[..i], dma[..i], d[..i])
               + (if skb[i].Some? then Mapping(dma[i], d[i].len) else [])
  {
    assert skb[..i + 1][..i] == skb[..i] && dma[..i + 1][..i] == dma[..i] && d[..i + 1][..i] == d[..i];
  }

  /** The slots below `n` have been swept, the others not yet. */
  ghost predicate Swept(skb: seq<Option<Skb>>, dma: seq<nat>, n: nat,
                        skb': seq<Option<Skb>>, dma': seq<nat>)
  {
    && |skb| == |dma| == |skb'| == |dma'|
    && (forall k :: 0 <= k < |skb| ==> skb'[k] == (if k < n then None else skb[k]))
    && (forall k :: 0 <= k < |skb| ==> dma'[k] == (if k < n && skb[k].Some? then 0 else dma[k]))
  }

  lemma SweptNone(skb: seq<Option<Skb>>, dma: seq<nat>)
    requires |skb| == |dma|
    ensures Swept(skb, dma, 0, skb, dma)
  {
  }

  lemma SweptNext(skb: seq<Option<Skb>>, dma: seq<nat>, i: nat, skb': seq<Option<Skb>>, dma': seq<nat>)
    requires i < |skb| && Swept(skb, dma, i, skb', dma')
    ensures skb'[i] == skb[i] && dma'[i] == dma[i]
    ensures Swept(skb, dma, i + 1, skb'[i := None], if skb[i].Some? then dma'[i := 0] else dma')
  {
  }

  lemma SweptAll(s: Tx, skb: seq<Option<Skb>>, dma: seq<nat>)
    requires Shaped(s) && PcOk(s.pc) && s.pc.Idle? && Swept(s.skb, s.dma, s.size, skb, dma)
    ensures skb == Step(s, Reset).skb && dma == Step(s, Reset).dma
  {
  }

  /** Nothing but the engine moved: it gave back descriptors it owned. */
  ghost predicate EngineOnly(s: Tx, s': Tx) {
    && |s'.desc| == |s.desc| && s.eng <= s'.eng
    && s' == s.(desc := s'.desc, eng := s'.eng, sent := s'.sent)
  }

  /** A frame is being written: nothing already published or decided has changed. */
  ghost predicate StillWriting(s: Tx, s': Tx) {
    && s'.size == s.size && s'.maxFrags == s.maxFrags && s'.coal == s.coal
    && s'.dirty == s.dirty && s'.stopped == s.stopped && s'.pending == s.pending
    && s'.count == s.count && s'.cells == s.cells && s'.frames == s.frames && s'.marks == s.marks
    && s'.freed == s.freed && s'.unmapped == s.unmapped && s'.accepted == s.accepted
    && s'.base == s.base && s.eng <= s'.eng
  }

  /** Frame `f` has been handed to the engine. */
  ghost predicate Sent(s: Tx, s': Tx, f: Frame) {
    var (ic, count) := Coalesce(s.count, |f.segs|, s.coal);
    && s'.size == s.size && s'.maxFrags == s.maxFrags && s'.coal == s.coal
    && s'.dirty == s.dirty && s'.stopped == s.stopped && s'.pending == s.pending
    && s'.count == count && s'.cells == s.cells + FrameCells(f, ic)
    && s'.frames == s.frames + [f] && s'.marks == s.marks + [ic]
    && s'.freed == s.freed && s'.unmapped == s.unmapped && s'.accepted == s.accepted + Holds(f.skb)
    && s'.base == s.base && s.eng <= s'.eng
  }

  /** Only reclaiming happened. */
  ghost predicate Cleaned(s: Tx, s': Tx) {
    && s'.size == s.size && s'.maxFrags == s.maxFrags && s'.coal == s.coal
    && s'.cur == s.cur && s'.count == s.count && s'.stopped == s.stopped && s'.pending == s.pending
    && s'.cells == s.cells && s'.frames == s.frames && s'.marks == s.marks
    && s'.accepted == s.accepted && s'.base == s.base
    && s.dirty <= s'.dirty && s.eng <= s'.eng
  }

  /** What the reference for a frame means. */
  lemma AppendedMeans(before: seq<Cell>, f: Frame, count: nat, coal: nat)
    ensures Appended(before, before + FrameCells(f, Coalesce(count, |f.segs|, coal).0), f, count + |f.segs| >= coal)
    ensures Coalesce(count, |f.segs|, coal).1 == (if count + |f.segs| >= coal then 0 else count + |f.segs|)
  {
    CellsAppended(before, f, count + |f.segs| >= coal);
    hide Appended, FrameCells;
  }

  class TxRing {
    const size: u32
    const maxFrags: nat
    const coal: u32
    var curTx: u32
    var dirtyTx: u32
    var txCountFrames: u32
    var stopped: bool
    const desc: array<Desc>
    const txSkbuff: array<Option<Skb>>
    const txSkbuffDma: array<nat>
    /** The slot the engine looks at next, and the transmit-interrupt status bit, which
        it raises when it completes a descriptor that asks for it. */
    var engineSlot: nat
    var ti: bool
    /** Calls to dev_kfree_skb and dma_unmap_single, in order. */
    ghost var freed: seq<Skb>
    ghost var unmapped: seq<Seg>
    /** The abstract ring, and the steps that led to it. */
    ghost var m: Tx
    ghost var run: seq<Label>

    ghost predicate Sized()
      reads this
    {
      && 0 < size && TWO32 % (size as int) == 0
      && 0 < coal && coal as int + maxFrags + 1 < TWO32
      && desc.Length == txSkbuff.Length == txSkbuffDma.Length == size as int
    }

    /** The fields show the abstract ring `m`. */
    ghost predicate Shows()
      reads this, desc, txSkbuff, txSkbuffDma
    {
      && m.size == size as int && m.maxFrags == maxFrags && m.coal == coal as int
      && desc[..] == m.desc && txSkbuff[..] == m.skb && txSkbuffDma[..] == m.dma
      && curTx == Wrap(m.cur) && dirtyTx == Wrap(m.dirty)
      && txCountFrames as int == m.count && stopped == m.stopped
      && freed == m.freed && unmapped == m.unmapped
      && size > 0 && engineSlot == Slot(m.eng, m.size)
    }

    ghost predicate Valid()
      reads this, desc, txSkbuff, txSkbuffDma
    {
      && Sized() && Shows()
      && Reaches(size as int, maxFrags, coal as int, run, m)
    }

    constructor (size: u32, maxFrags: nat, coal: u32)
      requires 0 < size && TWO32 % (size as int) == 0
      requires 0 < coal && coal as int + maxFrags + 1 < TWO32
      ensures Valid() && run == [] && fresh(desc) && fresh(txSkbuff) && fresh(txSkbuffDma)
      ensures this.size == size && this.maxFrags == maxFrags && this.coal == coal
      ensures curTx == dirtyTx == txCountFrames == 0 && !stopped && !ti && engineSlot == 0
      ensures forall k :: 0 <= k < size as int ==>
                txSkbuff[k] == None && txSkbuffDma[k] == 0 && desc[k] == ZEROED
      ensures freed == [] && unmapped == [] && m.accepted == [] && m.frames == []
    {
      this.size, this.maxFrags, this.coal := size, maxFrags, coal;
      curTx, dirtyTx, txCountFrames, stopped, engineSlot := 0, 0, 0, false, 0;
      ti := false;
      desc := new Desc[size](_ => ZEROED);
      txSkbuff := new Option<Skb>[size](_ => None);
      txSkbuffDma := new nat[size](_ => 0);
      freed, unmapped := [], [];
      m := Init(size as int, maxFrags, coal as int);
      run := [];
    }

    /** Record one step of the abstract ring. */
    ghost method Do(l: Label)
      requires Reaches(size as int, maxFrags, coal as int, run, m)
      requires Shaped(m) && PcOk(m.pc) && Enabled(m, l)
      modifies this`m, this`run
      ensures m == Step(old(m), l) && run == old(run) + [l]
      ensures Reaches(size as int, maxFrags, coal as int, run, m)
    {
      assert (run + [l])[..|run|] == run;
      m := Step(m, l);
      run := run + [l];
    }

    /** Writing a one to the status bit. */
    method AckTi()
      requires Valid()
      modifies this`ti
      ensures Valid() && !ti
    {
      hide Reaches;
      ti := false;
    }

    lemma Setup()
      requires Valid()
      ensures m.size == size as int && m.maxFrags == maxFrags && m.coal == coal as int
      ensures m.size > 0 && maxFrags + 1 < TWO32
      ensures txCountFrames as int == m.count && stopped == m.stopped
    {
    }

    lemma Known()
      requires Valid()
      ensures BaseInv(m) && (NoReset(run) ==> EngineInv(m))
    {
      ReachInv(size as int, maxFrags, coal as int, run, m);
    }

    /** The engine completes the descriptor it looks at. */
    method CompleteOne()
      requires Valid() && Shaped(m) && PcOk(m.pc) && Enabled(m, Engine)
      requires Slot(engineSlot + 1, m.size) == Slot(m.eng + 1, m.size)
      modifies this`engineSlot, this`ti, this`m, this`run, desc
      ensures Valid() && m == Step(old(m), Engine) && run == old(run) + [Engine]
      ensures ti == (old(ti) || old(DescAt(m, m.eng)).ic)
    {
      hide Reaches, Slot;
      if desc[engineSlot].ic {
        ti := true;
      }
      desc[engineSlot] := desc[engineSlot].(own := false);
      engineSlot := Slot(engineSlot + 1, size as int);
      Do(Engine);
    }

    /** The engine completes the descriptor it looks at, if it owns it. */
    method EngineStep()
      requires Valid()
      modifies this`engineSlot, this`ti, this`m, this`run, desc
      ensures Valid()
      ensures (m == old(m) && run == old(run) && ti == old(ti))
              || (Shaped(old(m)) && PcOk(old(m).pc) && Enabled(old(m), Engine)
                  && m == Step(old(m), Engine) && run == old(run) + [Engine]
                  && ti == (old(ti) || DescAt(old(m), old(m).eng).ic))
    {
      EngineReady();
      var own := EngineOwns();
      hide Valid, Slot, Step;
      if own {
        CompleteOne();
      }
    }

    method EngineOwns() returns (own: bool)
      requires Valid() && Shaped(m)
      ensures own <==> Enabled(m, Engine)
    {
      own := desc[engineSlot].own;
    }

    lemma EngineReady()
      requires Valid()
      ensures Shaped(m) && PcOk(m.pc)
      ensures Slot(engineSlot + 1, m.size) == Slot(m.eng + 1, m.size)
    {
      Known();
      ModSucc(m.eng, m.size);
    }

    /** The engine completes any number of descriptors. */
    method EngineRuns()
      requires Valid()
      modifies this`engineSlot, this`ti, this`m, this`run, desc
      ensures Valid() && EngineOnly(old(m), m) && (NoReset(old(run)) ==> NoReset(run))
      ensures Told(old(m), m, old(ti), ti)
    {
      hide Valid, Slot, Told;
      NothingTold(m, m, ti);
      var n: nat :| 0 <= n;
      for i := 0 to n
        invariant Valid() && EngineOnly(old(m), m) && (NoReset(old(run)) ==> NoReset(run))
        invariant Told(old(m), m, old(ti), ti)
      {
        ghost var s, before := m, ti;
        EngineStep();
        if m != s {
          EngineEffect(s);
          OneTold(s, m, DescAt(s, s.eng), before);
        } else {
          NothingTold(s, m, before);
        }
        ToldChain(old(m), s, m, old(ti), before, ti);
      }
    }

    // -------------------------------------------------------------- adding a frame

    /** The free-descriptor count, as the driver computes it. */
    method Available() returns (n: u32)
      requires Valid() && !Building(m.pc) && !m.pc.Published?
      ensures n as int == Avail(m)
    {
      Known();
      AvailRefines(m.dirty, m.cur, size);
      n := TxAvail(dirtyTx, curTx, size);
    }

    /** tx_skbuff[entry] = skb */
    method StoreSkb(entry: nat, skb: Option<Skb>)
      requires Valid() && Enabled(m, Begin) && entry == Slot(m.cur, m.size)
      requires m.pending.value.skb == skb
      modifies this`m, this`run, txSkbuff
      ensures Valid() && m == Step(old(m), Begin) && run == old(run) + [Begin]
    {
      hide Reaches, Slot;
      Known();
      txSkbuff[entry] := skb;
      Do(Begin);
    }

    /** The slot the 32-bit counter points at is the slot of the position. */
    method Entry() returns (entry: nat)
      requires Valid()
      ensures entry == Slot(m.cur, m.size)
    {
      WrapSlot(m.cur, m.size);
      entry := (curTx as int) % (size as int);
    }

    method MapHead(entry: nat, seg: Seg)
      requires Valid() && m.pc.Start? && entry == Slot(m.cur, m.size)
      requires |m.pc.f.segs| > 0 && seg == m.pc.f.segs[0]
      modifies this`m, this`run, desc, txSkbuffDma
      ensures Valid() && m == Step(old(m), Map) && run == old(run) + [Map]
    {
      hide Reaches, Slot;
      desc[entry] := desc[entry].(buf := seg.buf);
      txSkbuffDma[entry] := seg.buf;
      Do(Map);
    }

    /** The stores to a fragment's slot. */
    method StoreMapping(entry: nat, buf: nat)
      requires Sized() && entry < size as int
      modifies desc, txSkbuff, txSkbuffDma
      ensures desc[..] == old(desc[..])[entry := old(desc[entry]).(buf := buf)]
      ensures txSkbuffDma[..] == old(txSkbuffDma[..])[entry := buf]
      ensures txSkbuff[..] == old(txSkbuff[..])[entry := None]
    {
      desc[entry] := desc[entry].(buf := buf);
      txSkbuffDma[entry] := buf;
      txSkbuff[entry] := None;
    }

    /** ++cur_tx and the slot it points at. */
    method NextEntry() returns (entry: nat)
      requires Valid()
      modifies this`curTx
      ensures curTx == Wrap(m.cur + 1) && entry == Slot(m.cur + 1, m.size)
    {
      WrapInc(m.cur);
      WrapSlot(m.cur + 1, m.size);
      hide Slot, Wrap, Inc32, Reaches;
      curTx := Inc32(curTx);
      entry := (curTx as int) % (size as int);
    }

    /** The fragment's slot; the stores to it follow at once. */
    method MapFragment(seg: Seg) returns (entry: nat)
      requires Valid() && m.pc.Built? && m.pc.i + 1 < |m.pc.f.segs| && seg == m.pc.f.segs[m.pc.i + 1]
      modifies this`m, this`run, this`curTx, desc, txSkbuff, txSkbuffDma
      ensures Valid() && m == Step(old(m), Map) && run == old(run) + [Map]
      ensures entry == Slot(m.cur, m.size)
    {
      hide Slot, Wrap, Inc32, Reaches;
      entry := NextEntry();
      StoreMapping(entry, seg.buf);
      Do(Map);
    }

    method PrepareSegment(entry: nat, isFirst: bool, len: nat, csum: bool)
      requires Valid() && m.pc.Mapped? && m.pc.i < |m.pc.f.segs| && entry == Slot(m.cur, m.size)
      requires isFirst == (m.pc.i == 0) && len == m.pc.f.segs[m.pc.i].len && csum == m.pc.f.csum
      modifies this`m, this`run, desc
      ensures Valid() && m == Step(old(m), PrepareSeg) && run == old(run) + [PrepareSeg]
    {
      hide Reaches, Slot;
      desc[entry] := Prepare(desc[entry], isFirst, len, csum);
      Do(PrepareSeg);
    }

    method OwnFragment(entry: nat)
      requires Valid() && m.pc.Ready? && 0 < m.pc.i < |m.pc.f.segs| && entry == Slot(m.cur, m.size)
      modifies this`m, this`run, desc
      ensures Valid() && m == Step(old(m), OwnFrag) && run == old(run) + [OwnFrag]
    {
      hide Reaches, Slot;
      desc[entry] := desc[entry].(own := true);
      Do(OwnFrag);
    }

    method CloseSegment(entry: nat)
      requires Valid() && m.pc.Built? && m.pc.i + 1 == |m.pc.f.segs| && entry == Slot(m.cur, m.size)
      modifies this`m, this`run, desc
      ensures Valid() && m == Step(old(m), CloseLast) && run == old(run) + [CloseLast]
    {
      hide Reaches, Slot;
      desc[entry] := Close(desc[entry]);
      Do(CloseLast);
    }

    /** Interrupt coalescing on the last segment. */
    method DecideInterrupt(entry: nat, n: u32)
      requires Valid() && m.pc.Closed? && |m.pc.f.segs| == n as int > 0 && entry == Slot(m.cur, m.size)
      requires n as int <= maxFrags + 1 && txCountFrames < coal
      modifies this`m, this`run, this`txCountFrames, desc
      ensures Valid() && m == Step(old(m), Mark) && run == old(run) + [Mark]
    {
      CoalesceRefines(txCountFrames, n, coal);
      hide Add32, Coalesce, Slot, Reaches;
      txCountFrames := Add32(txCountFrames, n);
      Do(Mark);
      if coal > txCountFrames {
        desc[entry] := ClearIc(desc[entry]);
      } else {
        txCountFrames := 0;
      }
      assert desc[..] == m.desc;
    }

    /** The head's ownership bit goes last. */
    method PublishHead(first: nat)
      requires Valid() && m.pc.Marked? && |m.pc.f.segs| > 0 && first == Slot(|m.cells|, m.size)
      modifies this`m, this`run, desc
      ensures Valid() && m == Step(old(m), Publish) && run == old(run) + [Publish]
    {
      hide Reaches, Slot;
      desc[first] := desc[first].(own := true);
      Do(Publish);
    }

    method AdvanceCur()
      requires Valid() && m.pc.Published? && |m.pc.f.segs| > 0
      modifies this`m, this`run, this`curTx
      ensures Valid() && m == Step(old(m), Advance) && run == old(run) + [Advance]
    {
      hide Reaches;
      WrapInc(m.cur);
      curTx := Inc32(curTx);
      Do(Advance);
    }

    method StopIfFull()
      requires Valid() && m.pc.Advanced?
      modifies this`m, this`run, this`stopped
      ensures Valid() && m == Step(old(m), StopCheck) && run == old(run) + [StopCheck]
      ensures stopped <==> old(stopped) || Avail(m) <= maxFrags + 1
    {
      hide Reaches;
      var avail := Available();
      if avail as int <= maxFrags + 1 {
        stopped := true;
      }
      Do(StopCheck);
    }

    // -------------------------------------------------------------- reclaiming

    method UnmapOldest(entry: nat)
      requires Valid() && m.pc.Checked? && entry == Slot(m.dirty, m.size)
      modifies this`m, this`run, this`unmapped, txSkbuffDma
      ensures Valid() && m == Step(old(m), CleanUnmap) && run == old(run) + [CleanUnmap]
    {
      hide Reaches, Slot;
      Do(CleanUnmap);
      if txSkbuffDma[entry] != 0 {
        unmapped := unmapped + [Seg(txSkbuffDma[entry], desc[entry].len)];
        txSkbuffDma[entry] := 0;
      }
      assert txSkbuffDma[..] == m.dma;
    }

    method FreeOldest(entry: nat)
      requires Valid() && m.pc.Unmapped? && entry == Slot(m.dirty, m.size)
      modifies this`m, this`run, this`freed, txSkbuff
      ensures Valid() && m == Step(old(m), CleanFree) && run == old(run) + [CleanFree]
    {
      hide Reaches, Slot;
      Do(CleanFree);
      var skb := txSkbuff[entry];
      if skb != None {
        freed := freed + [skb.value];
        txSkbuff[entry] := None;
      }
      assert txSkbuff[..] == m.skb;
    }

    method ReleaseOldest(entry: nat)
      requires Valid() && m.pc.Freed? && entry == Slot(m.dirty, m.size)
      modifies this`m, this`run, desc
      ensures Valid() && m == Step(old(m), CleanRelease) && run == old(run) + [CleanRelease]
      ensures entry < desc.Length && desc[entry] == Desc(false, false, false, false, false, old(desc[entry].buf), 0)
    {
      hide Reaches, Slot;
      desc[entry] := Release(desc[entry]);
      Do(CleanRelease);
    }

    method AdvanceDirty()
      requires Valid() && m.pc.Released?
      modifies this`m, this`run, this`dirtyTx
      ensures Valid() && m == Step(old(m), CleanAdvance) && run == old(run) + [CleanAdvance]
    {
      hide Reaches;
      WrapInc(m.dirty);
      dirtyTx := Inc32(dirtyTx);
      Do(CleanAdvance);
    }

    method WakeIfRoom()
      requires Valid() && m.pc.Idle?
      modifies this`m, this`run, this`stopped
      ensures Valid() && m == Step(old(m), Wake) && run == old(run) + [Wake]
      ensures m == old(m).(stopped := m.stopped) && stopped == m.stopped && old(stopped) == old(m.stopped)
      ensures stopped <==> old(stopped) && Avail(m) <= m.size / 4
    {
      hide Reaches;
      if stopped {
        var avail := Available();
        if avail > size / 4 {
          stopped := false;
        }
      }
      Do(Wake);
    }

    // -------------------------------------------------------------- the send path

    method WriteHead(f: Frame, entry: nat)
      requires Valid() && m.pc == Start(f) && |f.segs| > 0 && entry == Slot(m.cur, m.size)
      modifies this`engineSlot, this`ti, this`m, this`run, desc, txSkbuffDma
      ensures Valid() && StillWriting(old(m), m) && m.pc == Built(f, 0) && m.cur == old(m.cur)
      ensures NoReset(old(run)) ==> NoReset(run)
    {
      hide Valid;
      EngineRuns();
      MapHead(entry, f.segs[0]);
      EngineRuns();
      PrepareSegment(entry, true, f.segs[0].len, f.csum);
    }

    /** Up to the store that hands the fragment over. */
    method PrepareFragment(f: Frame, i: nat) returns (entry: nat)
      requires Valid() && 0 < i < |f.segs| && m.pc == Built(f, i - 1)
      modifies this`engineSlot, this`ti, this`m, this`run, this`curTx, desc, txSkbuff, txSkbuffDma
      ensures Valid() && StillWriting(old(m), m) && m.pc == Ready(f, i) && m.cur == old(m.cur) + 1
      ensures entry == Slot(m.cur, m.size)
      ensures NoReset(old(run)) ==> NoReset(run)
    {
      hide Valid, Slot;
      EngineRuns();
      entry := MapFragment(f.segs[i]);
      EngineRuns();
      PrepareSegment(entry, false, f.segs[i].len, f.csum);
    }

    method WriteFragment(f: Frame, i: nat) returns (entry: nat)
      requires Valid() && 0 < i < |f.segs| && m.pc == Built(f, i - 1)
      modifies this`engineSlot, this`ti, this`m, this`run, this`curTx, desc, txSkbuff, txSkbuffDma
      ensures Valid() && StillWriting(old(m), m) && m.pc == Built(f, i) && m.cur == old(m.cur) + 1
      ensures entry == Slot(m.cur, m.size)
      ensures NoReset(old(run)) ==> NoReset(run)
    {
      hide Valid, Slot;
      entry := PrepareFragment(f, i);
      EngineRuns();
      OwnFragment(entry);
    }

    lemma CountBelowLimit()
      requires Valid()
      ensures txCountFrames < coal && maxFrags + 1 < TWO32
    {
      var s0 := Init(size as int, maxFrags, coal as int);
      assert Coalesced(s0.frames, s0.marks, s0.count, s0.coal);
      RunCoalesces(s0, run, m);
    }

    /** Nothing is published yet, but the last descriptor and the interrupt are settled. */
    method CloseFrame(f: Frame, entry: nat)
      requires Valid() && |f.segs| > 0 && |f.segs| <= maxFrags + 1 && m.pc == Built(f, |f.segs| - 1)
      requires entry == Slot(m.cur, m.size)
      modifies this`engineSlot, this`ti, this`m, this`run, this`txCountFrames, desc
      ensures Valid() && m.cur == old(m.cur)
      ensures var (ic, count) := Coalesce(old(m.count), |f.segs|, old(m.coal));
              && m.pc == Marked(f, ic) && m.count == count
              && m.frames == old(m.frames) + [f] && m.marks == old(m.marks) + [ic]
              && StillWriting(old(m).(count := m.count, frames := m.frames, marks := m.marks), m)
      ensures NoReset(old(run)) ==> NoReset(run)
    {
      hide Valid, Slot, Coalesce;
      EngineRuns();
      CloseSegment(entry);
      EngineRuns();
      CountBelowLimit();
      DecideInterrupt(entry, |f.segs| as u32);
    }

    method HandOver(f: Frame, first: nat)
      requires Valid() && |f.segs| > 0 && m.pc.Marked? && m.pc.f == f
      requires first == Slot(|m.cells|, m.size)
      modifies this`engineSlot, this`ti, this`m, this`run, this`curTx, desc
      ensures Valid() && m.cur == old(m.cur) + 1
      ensures m.pc == (if f.skb.Some? then Advanced else Idle)
      ensures m.cells == old(m.cells) + FrameCells(f, old(m.pc.ic))
      ensures m.accepted == old(m.accepted) + Holds(f.skb)
      ensures StillWriting(old(m).(cells := m.cells, accepted := m.accepted), m)
      ensures NoReset(old(run)) ==> NoReset(run)
    {
      hide Valid, Slot, FrameCells;
      EngineRuns();
      PublishHead(first);
      EngineRuns();
      AdvanceCur();
    }

    lemma StartsAtEnd()
      requires Valid() && m.pc.Start?
      ensures m.cur == |m.cells|
    {
      Known();
    }

    /** All segments, up to but not including the finishing touches. */
    method WriteSegments(f: Frame, first: nat) returns (entry: nat)
      requires Valid() && m.pc == Start(f) && |f.segs| > 0 && first == Slot(m.cur, m.size)
      modifies this`engineSlot, this`ti, this`m, this`run, this`curTx, desc, txSkbuff, txSkbuffDma
      ensures Valid() && StillWriting(old(m), m) && m.pc == Built(f, |f.segs| - 1)
      ensures m.cur == old(m.cur) + |f.segs| - 1 && entry == Slot(m.cur, m.size)
      ensures NoReset(old(run)) ==> NoReset(run)
    {
      hide Valid, Slot;
      entry := first;
      WriteHead(f, entry);
      for i := 1 to |f.segs|
        invariant Valid() && StillWriting(old(m), m) && m.pc == Built(f, i - 1)
        invariant m.cur == old(m.cur) + i - 1 && entry == Slot(m.cur, m.size)
        invariant NoReset(old(run)) ==> NoReset(run)
      {
        entry := WriteFragment(f, i);
      }
    }

    /** From the stored socket buffer to the advanced counter: the part stmmac_xmit and
        rtl8211_xmit share. */
    method AddFrame(f: Frame)
      requires Valid() && m.pc == Start(f) && 0 < |f.segs| <= maxFrags + 1
      modifies this`engineSlot, this`ti, this`m, this`run, this`curTx, this`txCountFrames
      modifies desc, txSkbuff, txSkbuffDma
      ensures Valid() && Sent(old(m), m, f) && m.cur == old(m.cur) + |f.segs|
      ensures m.pc == (if f.skb.Some? then Advanced else Idle)
      ensures NoReset(old(run)) ==> NoReset(run)
    {
      StartsAtEnd();
      hide Valid, Slot, FrameCells, Coalesce;
      var first := Entry();
      var entry := WriteSegments(f, first);
      CloseFrame(f, entry);
      HandOver(f, first);
    }

    method Refuse(f: Frame)
      requires Valid() && Enabled(m, Busy(f))
      modifies this`m, this`run, this`stopped
      ensures Valid() && m == Step(old(m), Busy(f)) && run == old(run) + [Busy(f)]
    {
      hide Reaches;
      Do(Busy(f));
      if !stopped {
        stopped := true;
      }
    }

    method Admit(f: Frame)
      requires Valid() && m.pc.Idle? && m.pending.None? && KernelFrame(f, maxFrags)
      requires Avail(m) >= |f.segs|
      modifies this`m, this`run
      ensures Valid() && m == Step(old(m), Check(f)) && run == old(run) + [Check(f)]
    {
      hide Reaches;
      Do(Check(f));
    }

    method AdmitRaw(f: Frame)
      requires Valid() && m.pc.Idle? && m.pending.None? && RawFrame(f) && Avail(m) >= 1
      modifies this`m, this`run
      ensures Valid() && m == Step(old(m), BeginRaw(f)) && run == old(run) + [BeginRaw(f)]
    {
      hide Reaches;
      Do(BeginRaw(f));
    }

    /** Wait for the lock, during which tx_clean may run on another processor, and
        store the socket buffer. */
    method LockAndStore(f: Frame)
      requires Valid() && m.pc.Idle? && m.pending == Some(f)
      modifies this`engineSlot, this`ti, this`m, this`run, this`dirtyTx, this`freed, this`unmapped, this`stopped
      modifies desc, txSkbuff, txSkbuffDma
      ensures Valid() && m.pc == Start(f) && m.pending.None?
      ensures Cleaned(old(m).(stopped := m.stopped, pending := None), m)
      ensures m.stopped ==> old(m.stopped)
      ensures NoReset(old(run)) ==> NoReset(run)
    {
      hide Valid, Slot;
      OthersClean();
      var entry := Entry();
      StoreSkb(entry, f.skb);
    }

    /** stmmac_xmit after the space check. */
    method SendAdmitted(f: Frame)
      requires Valid() && m.pc.Idle? && m.pending == Some(f) && KernelFrame(f, maxFrags)
      modifies this, desc, txSkbuff, txSkbuffDma
      ensures Valid() && m.pc.Idle? && m.pending.None? && m.maxFrags == old(m.maxFrags)
      ensures m.frames == old(m.frames) + [f] && m.accepted == old(m.accepted) + Holds(f.skb)
      ensures m.cells == old(m.cells) + FrameCells(f, Coalesce(old(m.count), |f.segs|, old(m.coal)).0)
      ensures m.cur == old(m.cur) + |f.segs| && m.dirty >= old(m.dirty) && m.eng >= old(m.eng)
      ensures Avail(m) <= m.maxFrags + 1 ==> m.stopped
      ensures m.stopped ==> old(m.stopped) || Avail(m) <= m.maxFrags + 1
      ensures m.count == Coalesce(old(m.count), |f.segs|, old(m.coal)).1
      ensures NoReset(old(run)) ==> NoReset(run)
    {
      hide Valid, Slot, FrameCells, Coalesce;
      LockAndStore(f);
      AddFrame(f);
      EngineRuns();
      StopIfFull();
    }

    /** stmmac_xmit: refuse a frame that does not fit and stop the queue, or write it,
        hand it over, and stop the queue when, and only when, another full-size frame
        might not fit. */
    method Xmit(f: Frame) returns (ok: bool)
      requires Valid() && m.pc.Idle? && m.pending.None? && KernelFrame(f, maxFrags)
      modifies this, desc, txSkbuff, txSkbuffDma
      ensures Valid() && m.pc.Idle? && m.pending.None?
      ensures ok <==> old(Avail(m)) >= |f.segs|
      ensures !ok ==> m == old(m).(stopped := true)
      ensures ok ==> m.frames == old(m.frames) + [f] && m.accepted == old(m.accepted) + [f.skb.value]
      ensures ok ==> Appended(old(m.cells), m.cells, f, old(txCountFrames) as int + |f.segs| >= coal as int)
      ensures ok ==> txCountFrames as int == (if old(txCountFrames) as int + |f.segs| >= coal as int then 0
                                              else old(txCountFrames) as int + |f.segs|)
      ensures ok ==> m.cur == old(m.cur) + |f.segs| && m.dirty >= old(m.dirty) && m.eng >= old(m.eng)
      ensures ok ==> (Avail(m) <= maxFrags + 1 ==> stopped)
      ensures ok ==> (stopped ==> old(stopped) || Avail(m) <= maxFrags + 1)
      ensures NoReset(old(run)) ==> NoReset(run)
    {
      Setup();
      hide Valid, Slot, FrameCells, Coalesce, Appended;
      var avail := Available();
      if avail as int < |f.segs| {
        Refuse(f);
        return false;
      }
      AppendedMeans(old(m.cells), f, old(txCountFrames) as int, coal as int);
      Admit(f);
      SendAdmitted(f);
      Setup();
      return true;
    }

    /** rtl8211_xmit: no space check, no socket buffer, no queue stop. */
    method RawXmit(f: Frame)
      requires Valid() && m.pc.Idle? && m.pending.None? && RawFrame(f) && Avail(m) >= 1
      modifies this, desc, txSkbuff, txSkbuffDma
      ensures Valid() && m.pc.Idle? && m.pending.None? && m.cur == old(m.cur) + 1
      ensures m.frames == old(m.frames) + [f] && m.accepted == old(m.accepted)
      ensures Appended(old(m.cells), m.cells, f, old(txCountFrames) as int + 1 >= coal as int)
      ensures txCountFrames as int == (if old(txCountFrames) as int + 1 >= coal as int then 0
                                       else old(txCountFrames) as int + 1)
      ensures m.dirty == old(m.dirty) && m.eng >= old(m.eng) && stopped == old(stopped)
      ensures NoReset(old(run)) ==> NoReset(run)
    {
      Setup();
      AppendedMeans(m.cells, f, txCountFrames as int, coal as int);
      hide Valid, Slot, FrameCells, Coalesce, Appended;
      AdmitRaw(f);
      AddFrame(f);
      Setup();
    }

    // -------------------------------------------------------------- reclaiming and resetting

    method OldestEntry() returns (entry: nat)
      requires Valid()
      ensures entry == Slot(m.dirty, m.size)
    {
      WrapSlot(m.dirty, m.size);
      entry := (dirtyTx as int) % (size as int);
    }

    method OldestIsOwned(entry: nat) returns (own: bool)
      requires Valid() && m.pc.Idle? && entry == Slot(m.dirty, m.size)
      ensures !own && m.dirty != m.cur ==> Enabled(m, CleanCheck)
      ensures own && m.dirty < m.cur && NoReset(run) ==> m.eng <= m.dirty
    {
      own := desc[entry].own;
      Known();
      if own && m.dirty < m.cur && NoReset(run) {
        assert OwnFits(m, m.dirty);
      }
    }

    method StartReclaim()
      requires Valid() && Enabled(m, CleanCheck)
      modifies this`m, this`run
      ensures Valid() && m == Step(old(m), CleanCheck) && run == old(run) + [CleanCheck]
    {
      hide Reaches;
      Do(CleanCheck);
    }

    lemma InRing(entry: nat)
      requires Valid() && entry == Slot(m.dirty, m.size)
      ensures Shaped(m) && entry < m.size
    {
    }

    /** Positions, addresses and socket buffers while only the engine runs. */
    lemma EngineCleans(s: Tx, s': Tx)
      requires EngineOnly(s, s')
      ensures Cleaned(s, s') && s'.pc == s.pc && s'.dirty == s.dirty && s'.size == s.size
      ensures s'.skb == s.skb && s'.dma == s.dma && (Shaped(s) ==> Shaped(s'))
    {
    }

    lemma CleanedTrans(s: Tx, s1: Tx, s2: Tx)
      requires Cleaned(s, s1) && Cleaned(s1, s2)
      ensures Cleaned(s, s2)
    {
    }

    lemma UnmapCleans(s: Tx)
      requires Shaped(s) && s.pc.Checked?
      ensures var s' := Step(s, CleanUnmap);
              && Cleaned(s, s') && s'.pc.Unmapped? && s'.dirty == s.dirty && s'.sent == s.sent && s'.size == s.size
              && Shaped(s') && s'.dma[Slot(s.dirty, s.size)] == 0
    {
      hide Mapping;
    }

    lemma FreeCleans(s: Tx)
      requires Shaped(s) && s.pc.Unmapped?
      ensures var s' := Step(s, CleanFree);
              && Cleaned(s, s') && s'.pc.Freed? && s'.dirty == s.dirty && s'.sent == s.sent && s'.size == s.size
              && Shaped(s') && s'.skb[Slot(s.dirty, s.size)] == None && s'.dma == s.dma
    {
      hide Holds;
    }

    /** The engine ran after a step that only reclaims. */
    lemma CleanThenEngine(s: Tx, s1: Tx, s2: Tx, a: bool, b: bool, c: bool)
      requires Cleaned(s, s1) && s1.dirty == s.dirty && s1.size == s.size && Shaped(s1)
      requires Told(s, s1, a, b) && EngineOnly(s1, s2) && Told(s1, s2, b, c)
      ensures Cleaned(s, s2) && s2.dirty == s.dirty && s2.size == s.size && Shaped(s2) && s2.pc == s1.pc
      ensures s2.skb == s1.skb && s2.dma == s1.dma && Told(s, s2, a, c)
    {
      EngineCleans(s1, s2);
      CleanedTrans(s, s1, s2);
      ToldChain(s, s1, s2, a, b, c);
    }

    /** A step that only reclaims after that. */
    lemma ThenCleans(s: Tx, s1: Tx, s2: Tx, a: bool, b: bool)
      requires Cleaned(s, s1) && Told(s, s1, a, b) && Cleaned(s1, s2) && s2.sent == s1.sent
      ensures Cleaned(s, s2) && Told(s, s2, a, b)
    {
      CleanedTrans(s, s1, s2);
      ToldOver(s, s1, s2, a, b, b);
    }

    lemma CheckCleans(s: Tx, b: bool)
      requires Shaped(s) && PcOk(s.pc) && Enabled(s, CleanCheck)
      ensures var s' := Step(s, CleanCheck);
              && Cleaned(s, s') && s'.pc.Checked? && s'.dirty == s.dirty && s'.size == s.size && Shaped(s')
              && Told(s, s', b, b)
    {
      NothingTold(s, Step(s, CleanCheck), b);
    }

    method DropMapping(entry: nat)
      requires Valid() && Enabled(m, CleanCheck) && entry == Slot(m.dirty, m.size)
      modifies this`engineSlot, this`ti, this`m, this`run, this`unmapped, desc, txSkbuffDma
      ensures Valid() && m.pc.Unmapped? && m.dirty == old(m.dirty) && m.size == old(m.size) && Cleaned(old(m), m)
      ensures Shaped(m) && entry < m.size && m.dma[entry] == 0
      ensures NoReset(old(run)) ==> NoReset(run)
      ensures Told(old(m), m, old(ti), ti)
    {
      InRing(entry);
      CheckCleans(m, ti);
      hide Valid, Slot, Told, Step, EngineOnly, Cleaned, Shaped, Enabled;
      StartReclaim();
      ghost var s1, before := m, ti;
      EngineRuns();
      CleanThenEngine(old(m), s1, m, before, before, ti);
      UnmapCleans(m);
      ghost var s2 := m;
      UnmapOldest(entry);
      ThenCleans(old(m), s2, m, before, ti);
    }

    method DropOldest(entry: nat)
      requires Valid() && Enabled(m, CleanCheck) && entry == Slot(m.dirty, m.size)
      modifies this`engineSlot, this`ti, this`m, this`run, this`freed, this`unmapped
      modifies desc, txSkbuff, txSkbuffDma
      ensures Valid() && m.pc.Freed? && m.dirty == old(m.dirty) && m.size == old(m.size) && Cleaned(old(m), m)
      ensures Shaped(m) && entry < m.size && m.skb[entry] == None && m.dma[entry] == 0
      ensures NoReset(old(run)) ==> NoReset(run)
      ensures Told(old(m), m, old(ti), ti)
    {
      hide Valid, Slot, Told, Step, EngineOnly, Cleaned, Enabled;
      DropMapping(entry);
      ghost var s1, before := m, ti;
      EngineRuns();
      CleanThenEngine(old(m), s1, m, old(ti), before, ti);
      FreeCleans(m);
      ghost var s2 := m;
      FreeOldest(entry);
      ThenCleans(old(m), s2, m, old(ti), ti);
    }

    /** The body of the tx_clean loop for a descriptor the engine has given back. */
    method ReclaimOne(entry: nat)
      requires Valid() && Enabled(m, CleanCheck) && entry == Slot(m.dirty, m.size)
      modifies this`engineSlot, this`ti, this`m, this`run, this`dirtyTx, this`freed, this`unmapped
      modifies desc, txSkbuff, txSkbuffDma
      ensures Valid() && m.pc.Idle? && m.dirty == old(m.dirty) + 1 && Cleaned(old(m), m)
      ensures Shaped(m) && entry < m.size && m.skb[entry] == None && m.dma[entry] == 0
      ensures NoReset(old(run)) ==> NoReset(run)
      ensures Told(old(m), m, old(ti), ti)
    {
      hide Valid, Slot;
      DropOldest(entry);
      EngineRuns();
      ReleaseOldest(entry);
      EngineRuns();
      AdvanceDirty();
    }

    method Drained() returns (same: bool)
      requires Valid() && m.pc.Idle?
      ensures same <==> m.dirty == m.cur
      ensures m.dirty <= m.cur == |m.cells|
    {
      Known();
      CountersMeetIff(m.dirty, m.cur);
      same := dirtyTx == curTx;
    }

    /** The tx_clean loop: everything the engine had completed when it began is
        reclaimed, and nothing it had not completed when it ended. */
    method CleanLoop()
      requires Valid() && m.pc.Idle?
      modifies this`engineSlot, this`ti, this`m, this`run, this`dirtyTx, this`freed, this`unmapped
      modifies desc, txSkbuff, txSkbuffDma
      ensures Valid() && m.pc.Idle? && Cleaned(old(m), m) && m.dirty <= m.cur == |m.cells|
      ensures NoReset(old(run)) ==> NoReset(run) && old(m.eng) <= m.dirty
      ensures Told(old(m), m, old(ti), ti)
    {
      hide Valid, Slot;
      EngineBehindCur();
      var empty := Drained();
      while !empty
        invariant Valid() && m.pc.Idle? && Cleaned(old(m), m)
        invariant m.dirty <= m.cur == |m.cells| && (empty <==> m.dirty == m.cur)
        invariant NoReset(old(run)) ==> NoReset(run) && old(m.eng) <= m.cur
        invariant Told(old(m), m, old(ti), ti)
        decreases m.cur - m.dirty
      {
        EngineRuns();
        var entry := OldestEntry();
        var own := OldestIsOwned(entry);
        if own {
          return;
        }
        ReclaimOne(entry);
        empty := Drained();
      }
    }

    lemma EngineBehindCur()
      requires Valid() && m.pc.Idle?
      ensures NoReset(run) ==> m.eng <= m.cur
    {
      Known();
    }

    lemma SentCount()
      requires Valid() && NoReset(run)
      ensures |m.sent| == m.eng
    {
      Known();
    }

    lemma ReclaimLogs()
      requires Valid() && m.pc.Idle? && NoReset(run)
      ensures m.dirty <= m.eng && m.dirty <= |m.cells|
      ensures freed == Skbs(m.cells[..m.dirty]) && unmapped == Mappings(m.cells[..m.dirty])
    {
      Known();
      ReclaimInOrder(size as int, maxFrags, coal as int, run, m);
    }

    /** stmmac_tx_clean: reclaim up to the first descriptor the engine still owns, then
        wake the queue if a quarter of the ring is free. */
    method TxClean()
      requires Valid() && m.pc.Idle?
      modifies this`engineSlot, this`ti, this`m, this`run, this`dirtyTx, this`freed, this`unmapped, this`stopped
      modifies desc, txSkbuff, txSkbuffDma
      ensures Valid() && m.pc.Idle?
      ensures Cleaned(old(m).(stopped := m.stopped), m) && m.dirty <= m.cur == |m.cells|
      ensures NoReset(old(run)) ==> NoReset(run) && old(m.eng) <= m.dirty <= m.eng
      ensures NoReset(old(run)) ==>
                freed == Skbs(m.cells[..m.dirty]) && unmapped == Mappings(m.cells[..m.dirty])
      ensures stopped == m.stopped && old(stopped) == old(m.stopped)
      ensures stopped <==> old(stopped) && Avail(m) <= m.size / 4
      ensures stopped && m.size >= 2 ==> m.dirty < m.cur
      ensures Told(old(m), m, old(ti), ti)
    {
      hide Valid, Slot, Told, Step;
      CleanLoop();
      ghost var s1, before := m, ti;
      EngineRuns();
      ToldChain(old(m), s1, m, old(ti), before, ti);
      ghost var s2 := m;
      WakeIfRoom();
      ToldOver(old(m), s2, m, old(ti), ti, ti);
      if NoReset(run) { ReclaimLogs(); }
    }

    /** Between the space check and the lock: the engine, and tx_clean elsewhere. */
    method OthersClean()
      requires Valid() && m.pc.Idle?
      modifies this`engineSlot, this`ti, this`m, this`run, this`dirtyTx, this`freed, this`unmapped, this`stopped
      modifies desc, txSkbuff, txSkbuffDma
      ensures Valid() && m.pc.Idle? && Cleaned(old(m).(stopped := m.stopped), m)
      ensures m.stopped ==> old(m.stopped)
      ensures NoReset(old(run)) ==> NoReset(run)
    {
      hide Valid, Slot;
      EngineRuns();
      var n: nat :| 0 <= n;
      for i := 0 to n
        invariant Valid() && m.pc.Idle? && Cleaned(old(m).(stopped := m.stopped), m)
        invariant m.stopped ==> old(m.stopped)
        invariant NoReset(old(run)) ==> NoReset(run)
      {
        TxClean();
      }
    }

    /** One slot of dma_free_tx_skbufs: left alone unless it holds a socket buffer. */
    method FreeSlot(i: nat)
      requires Sized() && i < size as int
      modifies this`freed, this`unmapped, txSkbuff, txSkbuffDma
      ensures freed == old(freed) + Holds(old(txSkbuff[i]))
      ensures unmapped == old(unmapped)
                          + (if old(txSkbuff[i]).Some? then Mapping(old(txSkbuffDma[i]), desc[i].len) else [])
      ensures txSkbuff[..] == old(txSkbuff[..])[i := None]
      ensures txSkbuffDma[..] == (if old(txSkbuff[i]).Some? then old(txSkbuffDma[..])[i := 0]
                                  else old(txSkbuffDma[..]))
    {
      if txSkbuff[i] != None {
        if txSkbuffDma[i] != 0 {
          unmapped := unmapped + [Seg(txSkbuffDma[i], desc[i].len)];
        }
        freed := freed + [txSkbuff[i].value];
        txSkbuff[i] := None;
        txSkbuffDma[i] := 0;
      }
      assert txSkbuff[..] == old(txSkbuff[..])[i := None];
    }

    /** The slots below `n` have been freed. */
    ghost predicate FreedBelow(n: nat, skb: seq<Option<Skb>>, dma: seq<nat>, d: seq<Desc>,
                               freed0: seq<Skb>, unmapped0: seq<Seg>)
      reads this, desc, txSkbuff, txSkbuffDma
    {
      && n <= |skb| == |dma| == |d| && desc[..] == d
      && freed == freed0 + InSlots(skb[..n])
      && unmapped == unmapped0 + SlotMappings(skb[..n], dma[..n], d[..n])
      && Swept(skb, dma, n, txSkbuff[..], txSkbuffDma[..])
    }

    method FreeNext(i: nat, ghost skb: seq<Option<Skb>>, ghost dma: seq<nat>, ghost d: seq<Desc>,
                    ghost freed0: seq<Skb>, ghost unmapped0: seq<Seg>)
      requires Sized() && i < size as int == |skb| && FreedBelow(i, skb, dma, d, freed0, unmapped0)
      modifies this`freed, this`unmapped, txSkbuff, txSkbuffDma
      ensures FreedBelow(i + 1, skb, dma, d, freed0, unmapped0)
    {
      hide InSlots, SlotMappings, Holds, Mapping, Swept;
      SlotSnoc(skb, dma, d, i);
      SweptNext(skb, dma, i, txSkbuff[..], txSkbuffDma[..]);
      assert txSkbuff[i] == skb[i] && txSkbuffDma[i] == dma[i];
      FreeSlot(i);
    }

    /** dma_free_tx_skbufs */
    method FreeSkbufs()
      requires Sized()
      modifies this`freed, this`unmapped, txSkbuff, txSkbuffDma
      ensures freed == old(freed) + InSlots(old(txSkbuff[..]))
      ensures unmapped == old(unmapped) + SlotMappings(old(txSkbuff[..]), old(txSkbuffDma[..]), desc[..])
      ensures Swept(old(txSkbuff[..]), old(txSkbuffDma[..]), size as int, txSkbuff[..], txSkbuffDma[..])
    {
      ghost var skb, dma, d := txSkbuff[..], txSkbuffDma[..], desc[..];
      assert InSlots(skb[..0]) == [] && SlotMappings(skb[..0], dma[..0], d[..0]) == [];
      SweptNone(skb, dma);
      hide InSlots, SlotMappings, Swept;
      var i := 0;
      while i < size as int
        invariant 0 <= i <= size as int && FreedBelow(i, skb, dma, d, old(freed), old(unmapped))
      {
        FreeNext(i, skb, dma, d, old(freed), old(unmapped));
        i := i + 1;
      }
      assert skb[..i] == skb && dma[..i] == dma && d[..i] == d;
    }

    method InitDescriptors()
      requires Sized()
      modifies desc
      ensures |desc[..]| == size as int
      ensures forall k :: 0 <= k < size as int ==> desc[..][k] == old(desc[..])[k].(own := false)
    {
      for i := 0 to size as int
        invariant forall k :: 0 <= k < size as int ==>
                    desc[k] == (if k < i then InitDesc(old(desc[k])) else old(desc[k]))
      {
        desc[i] := InitDesc(desc[i]);
      }
    }

    /** Free what the slots hold, initialize the descriptors and zero the counters. */
    method SweepRing()
      requires Sized()
      modifies this`freed, this`unmapped, this`curTx, this`dirtyTx, this`stopped, desc, txSkbuff, txSkbuffDma
      ensures curTx == 0 && dirtyTx == 0 && !stopped
      ensures freed == old(freed) + InSlots(old(txSkbuff[..]))
      ensures unmapped == old(unmapped) + SlotMappings(old(txSkbuff[..]), old(txSkbuffDma[..]), old(desc[..]))
      ensures Swept(old(txSkbuff[..]), old(txSkbuffDma[..]), size as int, txSkbuff[..], txSkbuffDma[..])
      ensures |desc[..]| == size as int
      ensures forall k :: 0 <= k < size as int ==> desc[..][k] == old(desc[..])[k].(own := false)
    {
      hide InSlots, SlotMappings, Swept;
      stopped := true;
      FreeSkbufs();
      InitDescriptors();
      dirtyTx := 0;
      curTx := 0;
      stopped := false;
    }

    /** The counters and arrays of an empty ring, whatever they held. */
    method EmptyRing()
      requires Valid() && m.pc.Idle?
      modifies this, desc, txSkbuff, txSkbuffDma
      ensures Valid() && m == Step(old(m), Reset) && run == old(run) + [Reset]
      ensures engineSlot == old(engineSlot) && ti == old(ti)
      ensures !stopped && !m.stopped && curTx == dirtyTx == 0 && m.cur == m.dirty == 0
    {
      SlotOfSlot(m.eng, m.size);
      hide InSlots, SlotMappings, Slot, Reaches, Swept;
      ghost var s := m;
      SweepRing();
      SweptAll(s, txSkbuff[..], txSkbuffDma[..]);
      Do(Reset);
      assert desc[..] == m.desc;
    }

    /** stmmac_tx_err: stop the transmitter, drop everything, start over at slot 0. The
        engine keeps its own place, so the two agree again only if that was slot 0. */
    method TxErr()
      requires Valid() && m.pc.Idle?
      modifies this, desc, txSkbuff, txSkbuffDma
      ensures Valid() && m == Step(old(m), Reset) && run == old(run) + [Reset]
      ensures !stopped && !m.stopped && curTx == dirtyTx == 0 && m.cur == m.dirty == 0
      ensures Avail(m) == m.size - 1 && m.accepted == old(m.accepted) && ti == old(ti)
      ensures multiset(m.accepted) == multiset(freed)
      ensures old(NoReset(run)) ==> (EngineInv(m) <==> engineSlot == 0)
    {
      Known();
      if NoReset(run) { ResetAgreesIff(m); }
      hide BaseInv, EngineInv, InSlots, SlotMappings, Slot;
      EmptyRing();
      DrainedFreesAll(size as int, maxFrags, coal as int, run, m);
    }
  }
}

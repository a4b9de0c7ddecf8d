/** The DMA interrupt: the status register and its acknowledgement, and the handler that
scans both rings, on top of the two ring drivers. */
module Interrupt {
  import opened Ring
  import opened Slots
  import TxModel
  import TxInvariant
  import TxRuns
  import TxDriver
  import RxModel
  import RxDriver
  import DmaMode

  /** The source bits of the status register (CSR5) other than TI and RI. */
  datatype Source = Tps | Tu | Tjt | Ovf | Unf | Ru | Rps | Rwt | Eti | Fbi | Eri

  /** One read of the status register. */
  datatype Csr5 = Csr5(ti: bool, ri: bool, other: set<Source>) {
    /** The normal and the abnormal summary bit are the OR of their sources. */
    predicate Nis() {
      ti || ri || Tu in other || Eri in other
    }

    predicate Ais() {
      Tps in other || Tjt in other || Ovf in other || Unf in other || Ru in other || Rps in other
      || Rwt in other || Eti in other || Fbi in other
    }
  }

  // enum dma_irq_status
  const TX_HARD_ERROR: bv4 := 0x1
  const TX_HARD_ERROR_BUMP_TC: bv4 := 0x2
  const HANDLE_RX: bv4 := 0x4
  const HANDLE_TX: bv4 := 0x8

  /** dwmac_dma_interrupt on the value it read, up to the acknowledgement. */
  method Classify(status: Csr5, rie: bool) returns (ret: bv4)
    ensures ret & HANDLE_RX != 0 <==> status.ri && rie
    ensures ret & HANDLE_TX != 0 <==> status.ti
    ensures ret & TX_HARD_ERROR_BUMP_TC != 0 <==>
              Unf in status.other && Tps !in status.other && Fbi !in status.other
    ensures ret == TX_HARD_ERROR <==>
              (Tps in status.other || Fbi in status.other) && !(status.ri && rie) && !status.ti
  {
    ret := 0;
    if status.Ais() {
      if Unf in status.other {
        ret := TX_HARD_ERROR_BUMP_TC;
      }
      if Tps in status.other {
        ret := TX_HARD_ERROR;
      }
      if Fbi in status.other {
        ret := TX_HARD_ERROR;
      }
    }
    if status.Nis() {
      if status.ri {
        if rie {
          ret := ret | HANDLE_RX;
        }
      }
      if status.ti {
        ret := ret | HANDLE_TX;
      }
    }
  }

  /** The handler's receive budget. */
  const BUDGET: nat := 64

  /** The status on which the handler recovers: a hard transmit error and no completion. */
  predicate HardError(pending: set<Source>, ti: bool, ri: bool) {
    (Tps in pending || Fbi in pending) && !ti && !ri
  }

  class Nic {
    const tx: TxDriver.TxRing
    const rx: RxDriver.RxRing
    const dma: DmaMode.DmaControl
    /** Pending status bits other than TI and RI, and the interrupt enable register. */
    var pending: set<Source>
    var rie: bool

    constructor (tx: TxDriver.TxRing, rx: RxDriver.RxRing, dma: DmaMode.DmaControl)
      ensures this.tx == tx && this.rx == rx && this.dma == dma && pending == {} && rie
    {
      this.tx, this.rx, this.dma := tx, rx, dma;
      pending, rie := {}, true;
    }

    ghost predicate Apart()
    {
      && tx.txSkbuffDma != rx.rxSkbuffDma
      && tx.desc as object != rx.desc && tx.desc as object != rx.rxSkbuff && tx.desc as object != rx.rxSkbuffDma
      && tx.txSkbuff as object != rx.desc && tx.txSkbuff as object != rx.rxSkbuff
      && tx.txSkbuff as object != rx.rxSkbuffDma
      && tx.txSkbuffDma as object != rx.desc && tx.txSkbuffDma as object != rx.rxSkbuff
    }

    ghost predicate Valid()
      reads tx, tx.desc, tx.txSkbuff, tx.txSkbuffDma, rx, rx.desc, rx.rxSkbuff, rx.rxSkbuffDma
    {
      Apart() && tx.Valid() && rx.Valid() && tx.m.pc.Idle? && rx.m.pc.RxIdle?
    }

    /** A completed transmit descriptor that asked for an interrupt and is not reclaimed
        has its status bit pending. */
    ghost predicate TxCovered()
      reads tx
    {
      forall p :: tx.m.dirty <= p < |tx.m.sent| && tx.m.sent[p].ic ==> tx.ti
    }

    /** A completed receive descriptor that is not consumed has its status bit pending. */
    ghost predicate RxCovered()
      reads rx
    {
      rx.m.cur < rx.m.eng ==> rx.ri
    }

    /** Both engines run for a while and other conditions may be raised. */
    method Hardware() returns (raised: set<Source>)
      requires Valid()
      modifies this`pending, tx`engineSlot, tx`ti, tx`m, tx`run, tx.desc
      modifies rx`engineSlot, rx`ri, rx`m, rx`run, rx.desc
      ensures Valid()
      ensures TxDriver.EngineOnly(old(tx.m), tx.m) && TxDriver.Told(old(tx.m), tx.m, old(tx.ti), tx.ti)
      ensures TxRuns.NoReset(old(tx.run)) ==> TxRuns.NoReset(tx.run)
      ensures RxDriver.EngineOnly(old(rx.m), rx.m) && RxDriver.Told(old(rx.m), rx.m, old(rx.ri), rx.ri)
      ensures old(rx.Budgeted()) ==> rx.Budgeted()
      ensures pending == old(pending) + raised
    {
      hide TxDriver.TxRing.Valid, RxDriver.RxRing.Valid, RxDriver.RxRing.Budgeted, TxDriver.Completed;
      tx.EngineRuns();
      rx.EngineRuns();
      raised := *;
      pending := pending + raised;
    }

    /** dwmac_dma_interrupt: read the status register, classify, acknowledge what was
        read. Every bit that was read is clear on return, and no other: a report of a kind
        that was not read survives, while one of a kind that was read may be lost, and then
        the caller is told to scan. `raised` is what the hardware raised in between. */
    method DmaInterrupt() returns (ret: bv4, ghost raised: set<Source>)
      requires Valid()
      modifies this`pending, tx`engineSlot, tx`ti, tx`m, tx`run, tx.desc
      modifies rx`engineSlot, rx`ri, rx`m, rx`run, rx.desc
      ensures Valid()
      ensures TxDriver.EngineOnly(old(tx.m), tx.m) && RxDriver.EngineOnly(old(rx.m), rx.m)
      ensures old(tx.m.sent) <= tx.m.sent
      ensures TxRuns.NoReset(old(tx.run)) ==> TxRuns.NoReset(tx.run)
      ensures old(rx.Budgeted()) ==> rx.Budgeted()
      ensures old(tx.ti) ==> !tx.ti
      ensures !old(tx.ti) ==> TxDriver.Told(old(tx.m), tx.m, old(tx.ti), tx.ti)
      ensures old(rx.ri) ==> !rx.ri
      ensures !old(rx.ri) ==> RxDriver.Told(old(rx.m), rx.m, old(rx.ri), rx.ri)
      ensures forall b :: b in pending <==> b in raised && b !in old(pending)
      ensures ret & HANDLE_TX != 0 <==> old(tx.ti)
      ensures ret & HANDLE_RX != 0 <==> old(rx.ri) && rie
      ensures ret == TX_HARD_ERROR <==>
                old(Tps in pending || Fbi in pending) && !(old(rx.ri) && rie) && !old(tx.ti)
      ensures ret & TX_HARD_ERROR_BUMP_TC != 0 <==>
                old(Unf in pending && Tps !in pending && Fbi !in pending)
    {
      hide TxDriver.TxRing.Valid, RxDriver.RxRing.Valid, RxDriver.RxRing.Budgeted, TxDriver.Completed;
      var status := Csr5(tx.ti, rx.ri, pending);
      ret := Classify(status, rie);
      var arrived := Hardware();
      raised := arrived;
      if status.ti {
        tx.AckTi();
      }
      if status.ri {
        rx.AckRi();
      }
      pending := pending - status.other;
    }

    /** A scan may start: so far every receive budget fitted, and this one does. */
    ghost predicate ScanFits()
      reads rx
    {
      rx.Budgeted() && rx.m.cur - rx.m.dirty + BUDGET <= rx.m.size
    }

    method ScanTx()
      requires Valid()
      modifies tx`engineSlot, tx`ti, tx`m, tx`run, tx`dirtyTx, tx`freed, tx`unmapped, tx`stopped
      modifies tx.desc, tx.txSkbuff, tx.txSkbuffDma
      ensures Valid()
      ensures old(TxRuns.NoReset(tx.run)) ==> TxRuns.NoReset(tx.run) && TxCovered()
      ensures TxDriver.Told(old(tx.m), tx.m, old(tx.ti), tx.ti)
    {
      hide TxDriver.TxRing.Valid, RxDriver.RxRing.Valid;
      if TxRuns.NoReset(tx.run) { tx.SentCount(); }
      tx.TxClean();
    }

    method ScanRx(alloc: nat -> Option<RxModel.Buf>)
      requires Valid()
      modifies rx`engineSlot, rx`ri, rx`m, rx`run, rx`curRx, rx`dirtyRx
      modifies rx`rxPackets, rx`rxErrors, rx`rxDropped, rx`rxPktN, rx`delivered
      modifies rx.desc, rx.rxSkbuff, rx.rxSkbuffDma
      ensures Valid() && rx.m.size == old(rx.m.size)
      ensures old(ScanFits()) ==> rx.Budgeted() && (RxCovered() || (rx.m.cur == old(rx.m.cur) + BUDGET
                                                       && old(rx.m.cur - rx.m.dirty) + BUDGET < rx.m.size))
      ensures old(ScanFits()) && (forall n :: alloc(n).Some?) ==> rx.m.dirty == rx.m.cur
      ensures RxDriver.Told(old(rx.m), rx.m, old(rx.ri), rx.ri)
    {
      hide TxDriver.TxRing.Valid, RxDriver.RxRing.Valid, RxDriver.RxRing.Budgeted, RxModel.DeliveredInOrder;
      if rx.Budgeted() { rx.EngineBound(); }
      var count := rx.Receive(BUDGET, alloc);
    }

    /** Scan both rings with interrupts off. Whatever completes after the scan has passed
        is reported after the acknowledgement, so its bit is still pending. */
    method ScanRings(alloc: nat -> Option<RxModel.Buf>)
      requires Valid()
      modifies this`rie
      modifies tx`engineSlot, tx`ti, tx`m, tx`run, tx`dirtyTx, tx`freed, tx`unmapped, tx`stopped
      modifies tx.desc, tx.txSkbuff, tx.txSkbuffDma
      modifies rx`engineSlot, rx`ri, rx`m, rx`run, rx`curRx, rx`dirtyRx
      modifies rx`rxPackets, rx`rxErrors, rx`rxDropped, rx`rxPktN, rx`delivered
      modifies rx.desc, rx.rxSkbuff, rx.rxSkbuffDma
      ensures Valid() && rie
      ensures old(TxRuns.NoReset(tx.run)) ==> TxRuns.NoReset(tx.run) && TxCovered()
      ensures rx.m.size == old(rx.m.size)
      ensures old(ScanFits()) ==> rx.Budgeted() && (RxCovered() || (rx.m.cur == old(rx.m.cur) + BUDGET
                                                       && old(rx.m.cur - rx.m.dirty) + BUDGET < rx.m.size))
      ensures old(ScanFits()) && (forall n :: alloc(n).Some?) ==> rx.m.dirty == rx.m.cur
      ensures TxDriver.Told(old(tx.m), tx.m, old(tx.ti), tx.ti) && RxDriver.Told(old(rx.m), rx.m, old(rx.ri), rx.ri)
    {
      hide Valid, RxDriver.RxRing.Budgeted, TxDriver.Completed;
      rie := false;
      ScanTx();
      ScanRx(alloc);
      rie := true;
    }

    /** The last part of the handler: the two transmit errors. */
    method Recover(ret: bv4)
      requires Valid()
      modifies tx, tx.desc, tx.txSkbuff, tx.txSkbuffDma, dma
      ensures Valid() && tx.ti == old(tx.ti)
      ensures dma.tc == (if ret & TX_HARD_ERROR_BUMP_TC != 0 then DmaMode.Bumped(old(dma.tc)) else old(dma.tc))
      ensures dma.tc == old(dma.tc) ==> dma.csr6 == old(dma.csr6)
      ensures ret == TX_HARD_ERROR ==> !TxRuns.NoReset(tx.run) && tx.m.sent == []
      ensures ret == TX_HARD_ERROR ==> !tx.stopped && tx.m.cur == tx.m.dirty == 0
      ensures ret != TX_HARD_ERROR ==> tx.m == old(tx.m) && tx.run == old(tx.run)
    {
      hide TxDriver.TxRing.Valid, RxDriver.RxRing.Valid, TxInvariant.EngineInv;
      if ret & TX_HARD_ERROR_BUMP_TC != 0 {
        dma.BumpThreshold();
      } else if ret == TX_HARD_ERROR {
        tx.TxErr();
        assert tx.run[|tx.run| - 1].Reset?;
      }
    }

    /** A bit seen at the end was raised during the call: it was clear after the
        acknowledgement or had not been read. */
    lemma RaisedMeanwhile(s: TxModel.Tx, s1: TxModel.Tx, s2: TxModel.Tx, before: bool, mid: bool, after: bool)
      requires s.sent <= s1.sent
      requires (before && !mid) || (!before && TxDriver.Told(s, s1, before, mid))
      requires TxDriver.Told(s1, s2, mid, after)
      ensures s.sent <= s2.sent
      ensures after ==> exists k :: 0 <= k < |s2.sent| - |s.sent| && s2.sent[|s.sent|..][k].ic
    {
      TxDriver.CompletedChain(s, s1, s2);
      if after {
        assert TxDriver.Completed(s, s2);
        var p :| |s.sent| <= p < |s2.sent| && s2.sent[p].ic;
        assert s2.sent[|s.sent|..][p - |s.sent|].ic;
      }
    }

    /** The first part of the handler: acknowledge, and scan if a completion was read. */
    method Serve(alloc: nat -> Option<RxModel.Buf>)
      returns (ret: bv4, ghost completed: seq<TxModel.Desc>, ghost raised: set<Source>)
      requires Valid() && rie
      modifies this, tx, tx.desc, tx.txSkbuff, tx.txSkbuffDma
      modifies rx`engineSlot, rx`ri, rx`m, rx`run, rx`curRx, rx`dirtyRx
      modifies rx`rxPackets, rx`rxErrors, rx`rxDropped, rx`rxPktN, rx`delivered
      modifies rx.desc, rx.rxSkbuff, rx.rxSkbuffDma
      ensures Valid() && rie
      ensures old(TxRuns.NoReset(tx.run)) ==> TxRuns.NoReset(tx.run)
      ensures old(TxRuns.NoReset(tx.run) && TxCovered()) ==> TxCovered()
      ensures old(ScanFits() && RxCovered()) ==>
                rx.Budgeted() && (RxCovered() || (rx.m.cur == old(rx.m.cur) + BUDGET && rx.m.size != 64))
      ensures old(ScanFits()) && (forall n :: alloc(n).Some?) ==> ScanFits()
      ensures tx.ti ==> exists k :: 0 <= k < |completed| && completed[k].ic
      ensures tx.m.sent == old(tx.m.sent) + completed
      ensures rx.ri ==> old(rx.m.eng) < rx.m.eng
      ensures forall b :: b in pending <==> b in raised && b !in old(pending)
      ensures !old(tx.ti) && !old(rx.ri) ==>
                RxDriver.EngineOnly(old(rx.m), rx.m) && TxDriver.EngineOnly(old(tx.m), tx.m)
      ensures ret == TX_HARD_ERROR <==> HardError(old(pending), old(tx.ti), old(rx.ri))
      ensures ret & TX_HARD_ERROR_BUMP_TC != 0 <==>
                old(Unf in pending && Tps !in pending && Fbi !in pending)
    {
      hide TxDriver.TxRing.Valid, RxDriver.RxRing.Valid, RxDriver.RxRing.Budgeted;
      if rx.Budgeted() { rx.EngineBound(); }
      hide Apart, TxDriver.Completed;
      ret, raised := DmaInterrupt();
      ghost var s1, mid := tx.m, tx.ti;
      TxDriver.NothingTold(s1, s1, mid);
      if ret & HANDLE_RX != 0 || ret & HANDLE_TX != 0 {
        ScanRings(alloc);
      }
      RaisedMeanwhile(old(tx.m), s1, tx.m, old(tx.ti), mid, tx.ti);
      completed := tx.m.sent[|old(tx.m.sent)|..];
    }

    /** stmmac_direct_dma_interrupt: no reported work is lost. If every completion that
        owes an interrupt is pending when the handler starts, the same holds when it
        returns, wherever completions land meanwhile. On the receive side the handler
        looks at 64 descriptors, so there this needs a ring no larger than that, and a
        budget that fits. And nothing stays pending that was not reported during the call:
        `completed` is what the engine completed meanwhile, `raised` what else came up. */
    method DirectDmaInterrupt(alloc: nat -> Option<RxModel.Buf>)
      returns (ghost completed: seq<TxModel.Desc>, ghost raised: set<Source>)
      requires Valid() && rie
      modifies this, tx, tx.desc, tx.txSkbuff, tx.txSkbuffDma
      modifies rx`engineSlot, rx`ri, rx`m, rx`run, rx`curRx, rx`dirtyRx
      modifies rx`rxPackets, rx`rxErrors, rx`rxDropped, rx`rxPktN, rx`delivered
      modifies rx.desc, rx.rxSkbuff, rx.rxSkbuffDma, dma
      ensures Valid() && rie
      ensures old(TxRuns.NoReset(tx.run) && TxCovered()) ==> TxCovered()
      ensures old(ScanFits() && RxCovered()) ==>
                && rx.Budgeted()
                && (RxCovered() || rx.m.cur == old(rx.m.cur) + BUDGET)
                && (rx.m.size == 64 ==> RxCovered())
      ensures old(ScanFits()) && (forall n :: alloc(n).Some?) ==> ScanFits()
      ensures tx.ti ==> exists k :: 0 <= k < |completed| && completed[k].ic
      ensures rx.ri ==> old(rx.m.eng) < rx.m.eng
      ensures forall b :: b in pending <==> b in raised && b !in old(pending)
      ensures !HardError(old(pending), old(tx.ti), old(rx.ri)) ==> tx.m.sent == old(tx.m.sent) + completed
      ensures !old(tx.ti) && !old(rx.ri) ==> RxDriver.EngineOnly(old(rx.m), rx.m)
      ensures !old(tx.ti) && !old(rx.ri) && !HardError(old(pending), false, false) ==>
                TxDriver.EngineOnly(old(tx.m), tx.m)
      ensures dma.tc == (if old(Unf in pending && Tps !in pending && Fbi !in pending)
                         then DmaMode.Bumped(old(dma.tc)) else old(dma.tc))
      ensures dma.tc == old(dma.tc) ==> dma.csr6 == old(dma.csr6)
      ensures old(TxRuns.NoReset(tx.run)) ==>
                (TxRuns.NoReset(tx.run) <==> !HardError(old(pending), old(tx.ti), old(rx.ri)))
      ensures HardError(old(pending), old(tx.ti), old(rx.ri)) ==> !tx.stopped && tx.m.cur == tx.m.dirty == 0
    {
      hide Valid, RxDriver.RxRing.Budgeted, TxDriver.Completed, RxDriver.EngineOnly, TxDriver.EngineOnly;
      var ret;
      ret, completed, raised := Serve(alloc);
      Recover(ret);
    }
  }

  lemma FreshTx(tx: TxDriver.TxRing)
    requires tx.Valid() && tx.run == []
    ensures tx.m.pc.Idle? && tx.m.dirty == 0 && tx.m.sent == []
  {
  }

  lemma FreshRx(rx: RxDriver.RxRing)
    requires rx.Valid() && rx.run == []
    ensures rx.m.pc.RxIdle? && rx.m.cur == rx.m.dirty == rx.m.eng == 0 && rx.m.size == |rx.bufs|
  {
  }

  /** Opening the device: with both rings fresh, everything the handler relies on holds. */
  method Open(txSize: u32, maxFrags: nat, coal: u32, bufs: seq<RxModel.Buf>, dma: DmaMode.DmaControl)
    returns (nic: Nic)
    requires 0 < txSize && TWO32 % (txSize as int) == 0
    requires 0 < coal && coal as int + maxFrags + 1 < TWO32
    requires BUDGET <= |bufs| < TWO32 && TWO32 % |bufs| == 0
    ensures fresh(nic) && nic.Valid() && TxRuns.NoReset(nic.tx.run) && nic.rie
    ensures nic.rx.m.size == |bufs| && nic.ScanFits()
    ensures nic.TxCovered() && nic.RxCovered() && !nic.tx.ti && !nic.rx.ri && nic.pending == {}
  {
    hide TxDriver.TxRing.Valid, RxDriver.RxRing.Valid, RxDriver.RxRing.Budgeted;
    var tx := new TxDriver.TxRing(txSize, maxFrags, coal);
    FreshTx(tx);
    var rx := new RxDriver.RxRing(bufs);
    FreshRx(rx);
    nic := new Nic(tx, rx, dma);
  }
}

/** The receive side of the driver, on 32-bit counters and ring arrays shared with the
engine. Every step taken is recorded, so each method's runs are runs of `RxModel`. */
module RxDriver {
  import opened Ring
  import opened Slots
  import opened RxModel

  /** The refill test compares wrapping counters: it tells whether anything awaits refill
      as long as less than 2^32 does. */
  lemma CountersDifferIff(dirty: nat, cur: nat)
    requires dirty <= cur
    ensures Sub32(Wrap(cur), Wrap(dirty)) > 0 <==> Wrap(dirty) != Wrap(cur)
    ensures cur < dirty + TWO32 ==> (Wrap(dirty) != Wrap(cur) <==> dirty != cur)
  {
  }

  /** Nothing but the engine moved: it wrote back descriptors it owned. */
  ghost predicate EngineOnly(s: Rx, s': Rx) {
    && |s'.desc| == |s.desc| && s.eng <= s'.eng && s.arrivals <= s'.arrivals
    && s' == s.(desc := s'.desc, eng := s'.eng, arrivals := s'.arrivals)
  }

  /** The status bit is set if it was, or if the engine completed something; no report was
      lost and none was made up. */
  ghost predicate Told(s: Rx, s': Rx, before: bool, after: bool) {
    && s.eng <= s'.eng
    && (after <==> before || s.eng < s'.eng)
  }

  function StatusOf(code: nat): Status {
    if code == 0 then GoodFrame else if code == 1 then DiscardFrame
    else if code == 2 then CsumNone else LlcSnap
  }

  /** One descriptor was counted, and the engine may have run since. */
  ghost predicate TakenFrom(s: Rx, s': Rx) {
    && s'.pc.Taken? && s'.cur == s.cur + 1 && s'.left == s.left - 1
    && s'.size == s.size && s'.dirty == s.dirty && s'.allocs == s.allocs
    && s'.packets == s.packets && s'.errors == s.errors && s'.dropped == s.dropped
    && s'.delivered == s.delivered && s.arrivals <= s'.arrivals && s.eng <= s'.eng
    && s'.skb == s.skb
  }

  lemma TakenThenEngine(s: Rx, mid: Rx, s': Rx)
    requires mid == s.(cur := s.cur + 1, left := mid.left, pc := Taken) && mid.left == s.left - 1
    requires EngineOnly(mid, s')
    ensures TakenFrom(s, s') && s'.cur == mid.cur && s'.size == mid.size
  {
  }

  class RxRing {
    const size: u32
    var curRx: u32
    var dirtyRx: u32
    const desc: array<RxDesc>
    const rxSkbuff: array<Option<Buf>>
    const rxSkbuffDma: array<nat>
    var rxPackets: nat
    var rxErrors: nat
    var rxDropped: nat
    var rxPktN: nat
    /** The slot the engine fills next, and the receive-interrupt status bit, which it
        raises on every completion. */
    var engineSlot: nat
    var ri: bool
    /** Frames handed to the stack, in order. */
    ghost var delivered: seq<Delivery>
    /** The abstract ring, the buffers it was opened with, and the steps since. */
    ghost var m: Rx
    ghost var bufs: seq<Buf>
    ghost var run: seq<RxLabel>

    ghost predicate Valid()
      reads this, desc, rxSkbuff, rxSkbuffDma
    {
      && 0 < size && TWO32 % (size as int) == 0
      && desc.Length == rxSkbuff.Length == rxSkbuffDma.Length == size as int == |bufs|
      && m.size == size as int
      && desc[..] == m.desc && rxSkbuff[..] == m.skb && rxSkbuffDma[..] == m.dma
      && curRx == Wrap(m.cur) && dirtyRx == Wrap(m.dirty)
      && rxPackets == m.packets && rxErrors == m.errors && rxDropped == m.dropped
      && delivered == m.delivered
      && engineSlot == Slot(m.eng, m.size)
      && RxReaches(bufs, run, m)
    }

    /** Every call so far was made with a budget that fitted. */
    ghost predicate Budgeted()
      reads this`run, this`bufs
    {
      WithinBudget(RxInit(bufs), run)
    }

    constructor (bufs: seq<Buf>)
      requires 0 < |bufs| < TWO32 && TWO32 % |bufs| == 0
      ensures Valid() && Budgeted() && this.bufs == bufs && run == []
      ensures fresh(desc) && fresh(rxSkbuff) && fresh(rxSkbuffDma)
      ensures curRx == dirtyRx == 0 && rxPackets == rxErrors == rxDropped == rxPktN == 0 && !ri
      ensures delivered == [] && engineSlot == 0
      ensures forall k :: 0 <= k < |bufs| ==>
                desc[k].own && desc[k].addr == rxSkbuffDma[k] == bufs[k].addr && rxSkbuff[k] == Some(bufs[k])
    {
      size := |bufs| as u32;
      curRx, dirtyRx, engineSlot := 0, 0, 0;
      desc := new RxDesc[|bufs|](k requires 0 <= k < |bufs| => RxDesc(true, bufs[k].addr, NO_REPORT));
      rxSkbuff := new Option<Buf>[|bufs|](k requires 0 <= k < |bufs| => Some(bufs[k]));
      rxSkbuffDma := new nat[|bufs|](k requires 0 <= k < |bufs| => bufs[k].addr);
      rxPackets, rxErrors, rxDropped, rxPktN := 0, 0, 0, 0;
      ri := false;
      delivered := [];
      m := RxInit(bufs);
      this.bufs := bufs;
      run := [];
    }

    /** Record one step of the abstract ring. */
    ghost method Do(l: RxLabel)
      requires RxReaches(bufs, run, m) && RxShaped(m) && RxEnabled(m, l)
      modifies this`m, this`run
      ensures m == RxStep(old(m), l) && run == old(run) + [l]
      ensures RxReaches(bufs, run, m)
      ensures Budgeted() <==> old(Budgeted()) && BudgetFits(old(m), l)
    {
      assert (run + [l])[..|run|] == run;
      m := RxStep(m, l);
      run := run + [l];
    }

    /** Writing a one to the status bit. */
    method AckRi()
      requires Valid()
      modifies this`ri
      ensures Valid() && !ri
    {
      hide RxReaches;
      ri := false;
    }

    lemma Known()
      requires Valid()
      ensures RxSafe(m) && RxShaped(m) && m.size == |bufs| < TWO32
      ensures Budgeted() ==> RxInv(m) && InBudget(m)
    {
      RxReachSafe(bufs, run, m);
      if Budgeted() { RxReachInv(bufs, run, m); }
    }

    method EngineStep(r: Report)
      requires Valid()
      modifies this`engineSlot, this`ri, this`m, this`run, desc
      ensures Valid() && EngineOnly(old(m), m)
      ensures Told(old(m), m, old(ri), ri)
      ensures old(Budgeted()) ==> Budgeted()
    {
      hide RxReaches, Slot, Budgeted;
      if desc[engineSlot].own {
        EngineSlotNext(m.eng, m.size);
        Do(Complete(r));
        ri := true;
        desc[engineSlot] := desc[engineSlot].(own := false, report := r);
        engineSlot := Slot(engineSlot + 1, size as int);
      }
    }

    lemma EngineSlotNext(p: nat, n: nat)
      requires n > 0
      ensures Slot(Slot(p, n) + 1, n) == Slot(p + 1, n)
    {
      ModSucc(p, n);
    }

    /** The engine completes any number of descriptors with any reports. */
    method EngineRuns()
      requires Valid()
      modifies this`engineSlot, this`ri, this`m, this`run, desc
      ensures Valid() && EngineOnly(old(m), m)
      ensures Told(old(m), m, old(ri), ri)
      ensures old(Budgeted()) ==> Budgeted()
    {
      hide Valid, Budgeted;
      var n: nat :| 0 <= n;
      for i := 0 to n
        invariant Valid() && EngineOnly(old(m), m) && Told(old(m), m, old(ri), ri)
        invariant old(Budgeted()) ==> Budgeted()
      {
        var code: nat :| code < 4;
        var len: nat :| 0 <= len;
        EngineStep(Report(StatusOf(code), len));
      }
    }

    // -------------------------------------------------------------- the receive loop

    /** The ownership test. */
    method NextIsOwned(entry: nat) returns (own: bool)
      requires Valid() && m.pc.RxIdle? && entry == Slot(m.cur, m.size)
      ensures RxShaped(m) && own == m.desc[entry].own
    {
      Known();
      own := desc[entry].own;
    }

    method StartCall(limit: nat)
      requires Valid() && m.pc.RxIdle?
      modifies this`m, this`run
      ensures Valid() && m == old(m).(left := limit)
      ensures old(Budgeted()) && old(m.cur - m.dirty) + limit <= old(m.size) ==> Budgeted()
    {
      Known();
      hide RxReaches, Slot, Budgeted;
      Do(Call(limit));
    }

    method TakeNext() returns (next: nat)
      requires Valid() && RxShaped(m) && RxEnabled(m, Take)
      modifies this`m, this`run, this`curRx
      ensures Valid() && m == RxStep(old(m), Take) && next == Slot(m.cur, m.size)
      ensures m == old(m).(cur := old(m.cur) + 1, left := m.left, pc := Taken) && m.left == old(m.left) - 1
      ensures old(Budgeted()) ==> Budgeted()
    {
      WrapInc(m.cur);
      WrapSlot(m.cur + 1, m.size);
      hide RxReaches, Slot, Wrap, Inc32, Budgeted;
      curRx := Inc32(curRx);
      next := (curRx as int) % (size as int);
      Do(Take);
    }

    method DiscardTaken(entry: nat)
      requires Valid() && m.pc.Taken? && entry == TakenSlot(m) && m.desc[entry].report.status.DiscardFrame?
      modifies this`m, this`run, this`rxErrors
      ensures Valid() && m == RxStep(old(m), Discard)
      ensures old(Budgeted()) ==> Budgeted()
    {
      hide RxReaches, Slot, Budgeted;
      Do(Discard);
      rxErrors := rxErrors + 1;
    }

    /** Hand the buffer of the taken descriptor to the stack, or, if the slot holds none,
        count a drop and tell the loop to end. */
    method DeliverTaken(entry: nat) returns (ok: bool)
      requires Valid() && m.pc.Taken? && entry == TakenSlot(m) && !m.desc[entry].report.status.DiscardFrame?
      modifies this`m, this`run, this`rxPackets, this`rxDropped, this`delivered, rxSkbuff
      ensures ok <==> old(m.skb[entry].Some?)
      ensures Valid() && m == RxStep(old(m), if ok then Deliver else Drop)
      ensures ok ==> rxPackets == old(rxPackets) + 1 && rxDropped == old(rxDropped) && rxSkbuff[entry] == None
      ensures ok ==> |delivered| == |old(delivered)| + 1 && delivered[..|old(delivered)|] == old(delivered)
                     && Some(delivered[|old(delivered)|].buf) == old(rxSkbuff[entry])
      ensures ok ==> var r, len := desc[entry].report, delivered[|old(delivered)|].len;
                     (r.status == LlcSnap ==> len == r.len) && (r.status != LlcSnap ==> len + 4 == r.len)
      ensures !ok ==> rxDropped == old(rxDropped) + 1 && rxPackets == old(rxPackets) && delivered == old(delivered)
      ensures old(Budgeted()) ==> Budgeted()
    {
      hide RxReaches, Slot, Budgeted;
      var skb := rxSkbuff[entry];
      if skb.None? {
        Do(Drop);
        rxDropped := rxDropped + 1;
        return false;
      }
      Do(Deliver);
      delivered := delivered + [Delivery(skb.value, FrameLen(desc[entry].report))];
      rxSkbuff[entry] := None;
      rxPackets := rxPackets + 1;
      assert rxSkbuff[..] == m.skb;
      ok := true;
    }

    /** What becomes of the descriptor just taken. */
    method SettleTaken(entry: nat) returns (ok: bool)
      requires Valid() && m.pc.Taken? && entry == TakenSlot(m) && entry < |m.desc|
      modifies this`m, this`run, this`rxPackets, this`rxErrors, this`rxDropped, this`delivered, rxSkbuff
      ensures Valid() && m.pc.RxIdle?
              && m.size == old(m.size) && m.dirty == old(m.dirty) && m.allocs == old(m.allocs)
              && m.arrivals == old(m.arrivals) && old(m.delivered) <= m.delivered
      ensures m.packets + m.errors + m.dropped == old(m.packets + m.errors + m.dropped) + 1
      ensures m.cur == old(m.cur) && m.eng == old(m.eng) && (ok ==> m.left == old(m.left))
      ensures old(Budgeted()) ==> Budgeted() && ok
    {
      var status := ReadStatus(entry);
      HasBuffer();
      hide Valid, Slot, Budgeted;
      if status.DiscardFrame? {
        DiscardTaken(entry);
        ok := true;
      } else {
        ok := DeliverTaken(entry);
      }
    }

    /** Count the descriptor and move on, while the engine may run. */
    method TakeDescriptor(entry: nat) returns (next: nat)
      requires Valid() && RxShaped(m) && RxEnabled(m, Take) && entry == Slot(m.cur, m.size)
      modifies this`engineSlot, this`ri, this`m, this`run, this`curRx, desc
      ensures Valid() && m.pc.Taken? && entry == TakenSlot(m) && entry < |m.desc| && next == Slot(m.cur, m.size)
      ensures TakenFrom(old(m), m) && Told(old(m), m, old(ri), ri)
      ensures old(Budgeted()) ==> Budgeted()
    {
      next := TakeNext();
      hide Valid, Slot, Budgeted, RxStep, RxEnabled, RxShaped, EngineOnly, TakenSlot;
      ghost var mid := m;
      EngineRuns();
      TakenThenEngine(old(m), mid, m);
      EntryTaken(entry);
    }

    /** One pass of the receive loop over a descriptor the engine does not own. */
    method ReceiveOne(entry: nat) returns (next: nat, ok: bool)
      requires Valid() && RxShaped(m) && RxEnabled(m, Take) && entry == Slot(m.cur, m.size)
      modifies this`engineSlot, this`ri, this`m, this`run, this`curRx
      modifies this`rxPackets, this`rxErrors, this`rxDropped, this`delivered, desc, rxSkbuff
      ensures Valid() && m.pc.RxIdle? && next == Slot(m.cur, m.size)
      ensures Consumed(old(m), m) && m.cur == old(m.cur) + 1
      ensures ok ==> m.left == old(m.left) - 1
      ensures Told(old(m), m, old(ri), ri)
      ensures old(Budgeted()) ==> Budgeted() && ok
    {
      hide Valid, Slot, Budgeted, RxEnabled, RxShaped;
      next := TakeDescriptor(entry);
      ok := SettleTaken(entry);
    }

    lemma HasBuffer()
      requires Valid() && m.pc.Taken?
      ensures RxShaped(m) && (Budgeted() ==> m.skb[TakenSlot(m)].Some?)
    {
      Known();
      if Budgeted() { TakenHasBuffer(bufs, run, m); }
    }

    lemma EntryTaken(entry: nat)
      requires Valid() && m.pc.Taken? && m.cur > 0 && entry == Slot((m.cur - 1) as nat, m.size)
      ensures entry == TakenSlot(m) && entry < |m.desc|
    {
    }

    method ReadStatus(entry: nat) returns (status: Status)
      requires Valid() && entry < |m.desc|
      ensures status == m.desc[entry].report.status
    {
      status := desc[entry].report.status;
    }

    /** Inside a fitting budget the next descriptor is the engine's exactly when nothing
        more has arrived. */
    lemma OwnedMeansCaughtUp()
      requires Valid() && m.pc.RxIdle? && Budgeted() && m.left > 0
      ensures RxShaped(m) && (m.desc[Slot(m.cur, m.size)].own ==> m.eng <= m.cur)
    {
      Known();
      OwnershipMeans(m);
    }

    /** The first half of stmmac_rx: take frames in ring order until the budget is spent,
        the engine owns the next descriptor, or a slot has no buffer. */
    method ReceiveLoop(limit: nat) returns (count: nat)
      requires Valid() && m.pc.RxIdle? && m.left == limit
      modifies this`engineSlot, this`ri, this`m, this`run, this`curRx
      modifies this`rxPackets, this`rxErrors, this`rxDropped, this`delivered, desc, rxSkbuff
      ensures Valid() && m.pc.RxIdle? && Consumed(old(m), m)
      ensures count == m.cur - old(m.cur) <= limit
      ensures Told(old(m), m, old(ri), ri)
      ensures old(Budgeted()) ==> Budgeted() && (count < limit ==> old(m.eng) <= m.cur)
    {
      hide Valid, Slot, Budgeted;
      count := 0;
      var entry := Entry();
      var ok := true;
      while ok && count < limit
        invariant Valid() && m.pc.RxIdle? && Consumed(old(m), m) && Told(old(m), m, old(ri), ri)
        invariant entry == Slot(m.cur, m.size)
        invariant count == m.cur - old(m.cur) <= limit
        invariant ok ==> m.left == limit - count
        invariant old(Budgeted()) ==> Budgeted() && ok
        decreases limit - count, ok
      {
        EngineRuns();
        var own := NextIsOwned(entry);
        if own {
          if Budgeted() { OwnedMeansCaughtUp(); }
          break;
        }
        count := count + 1;
        entry, ok := ReceiveOne(entry);
      }
    }

    method Entry() returns (entry: nat)
      requires Valid()
      ensures entry == Slot(m.cur, m.size)
    {
      WrapSlot(m.cur, m.size);
      entry := (curRx as int) % (size as int);
    }

    // -------------------------------------------------------------- the refill loop

    method AnyToRefill() returns (any: bool)
      requires Valid() && m.pc.RxIdle?
      ensures any <==> Wrap(m.dirty) != Wrap(m.cur)
      ensures m.dirty <= m.cur && (any ==> m.dirty < m.cur)
      ensures Budgeted() ==> (any <==> m.dirty < m.cur)
    {
      Known();
      CountersDifferIff(m.dirty, m.cur);
      any := Sub32(curRx, dirtyRx) > 0;
    }

    /** Give the slot a new buffer unless it still has one. */
    method FillSlot(entry: nat, skb: Option<Buf>) returns (ok: bool)
      requires Valid() && m.pc.RxIdle? && m.dirty < m.cur && entry == Slot(m.dirty, m.size)
      modifies this`m, this`run, desc, rxSkbuff, rxSkbuffDma
      ensures Valid()
      ensures ok <==> old(m.skb[entry]).Some? || skb.Some?
      ensures !ok ==> m == old(m)
      ensures ok ==> m == RxStep(old(m), if old(m.skb[entry]).Some? then Keep else Refill(skb.value))
      ensures old(Budgeted()) ==> Budgeted()
    {
      hide RxReaches, Slot, Budgeted;
      if rxSkbuff[entry] == None {
        if skb.None? {
          return false;
        }
        Do(Refill(skb.value));
        rxSkbuff[entry] := skb;
        rxSkbuffDma[entry] := skb.value.addr;
        desc[entry] := desc[entry].(addr := rxSkbuffDma[entry]);
        assert desc[..] == m.desc && rxSkbuff[..] == m.skb && rxSkbuffDma[..] == m.dma;
      } else {
        Do(Keep);
      }
      ok := true;
    }

    method GiveToEngine(entry: nat)
      requires Valid() && m.pc.Refilled? && entry == Slot(m.dirty, m.size)
      modifies this`m, this`run, desc
      ensures Valid() && m == RxStep(old(m), GiveBack)
      ensures old(Budgeted()) ==> Budgeted()
    {
      hide RxReaches, Slot, Budgeted;
      desc[entry] := desc[entry].(own := true);
      Do(GiveBack);
    }

    method AdvanceDirty()
      requires Valid() && m.pc.Given?
      modifies this`m, this`run, this`dirtyRx
      ensures Valid() && m == RxStep(old(m), Bump)
      ensures old(Budgeted()) ==> Budgeted()
    {
      WrapInc(m.dirty);
      hide RxReaches, Slot, Wrap, Inc32, Budgeted;
      dirtyRx := Inc32(dirtyRx);
      Do(Bump);
    }

    method DirtyEntry() returns (entry: nat)
      requires Valid()
      ensures entry == Slot(m.dirty, m.size)
    {
      WrapSlot(m.dirty, m.size);
      entry := (dirtyRx as int) % (size as int);
    }

    /** Hand the filled slot to the engine and count it. */
    method GiveBackOldest(entry: nat)
      requires Valid() && m.pc.Refilled? && entry == Slot(m.dirty, m.size)
      modifies this`engineSlot, this`ri, this`m, this`run, this`dirtyRx, desc
      ensures Valid() && m.pc.RxIdle? && OnlyRefilled(old(m), m) && m.dirty == old(m.dirty) + 1
      ensures Told(old(m), m, old(ri), ri)
      ensures old(Budgeted()) ==> Budgeted()
    {
      hide Valid, Slot, Budgeted;
      EngineRuns();
      GiveToEngine(entry);
      EngineRuns();
      AdvanceDirty();
    }

    /** stmmac_rx_refill: give consumed slots back in order until an allocation fails or
        the wrapping counters are equal. `alloc` says what the allocator returns, turn by
        turn. */
    method RxRefill(alloc: nat -> Option<Buf>) returns (turns: nat)
      requires Valid() && m.pc.RxIdle?
      modifies this`engineSlot, this`ri, this`m, this`run, this`dirtyRx, desc, rxSkbuff, rxSkbuffDma
      ensures Valid() && m.pc.RxIdle? && OnlyRefilled(old(m), m)
      ensures turns == m.dirty - old(m.dirty) && m.dirty <= m.cur
      ensures Wrap(m.dirty) == Wrap(m.cur) || alloc(turns).None?
      ensures Told(old(m), m, old(ri), ri)
      ensures old(Budgeted()) ==> Budgeted() && (m.dirty == m.cur || alloc(turns).None?)
    {
      hide Valid, Slot, Budgeted, Wrap;
      var any := AnyToRefill();
      turns := 0;
      while any
        invariant Valid() && m.pc.RxIdle? && OnlyRefilled(old(m), m) && Told(old(m), m, old(ri), ri)
        invariant any <==> Wrap(m.dirty) != Wrap(m.cur)
        invariant m.dirty <= m.cur && (any ==> m.dirty < m.cur) && turns == m.dirty - old(m.dirty)
        invariant old(Budgeted()) ==> Budgeted() && (any <==> m.dirty < m.cur)
        decreases m.cur - m.dirty
      {
        EngineRuns();
        var entry := DirtyEntry();
        var ok := FillSlot(entry, alloc(turns));
        if !ok {
          break;
        }
        GiveBackOldest(entry);
        turns := turns + 1;
        any := AnyToRefill();
      }
    }

    /** stmmac_rx: at most `limit` frames, then refill. Whatever the budget, every frame
        counted is delivered, discarded or dropped. When the budget fits, now and in every
        call before, the frames are those that arrived, in order, none dropped, and
        everything that had arrived is taken unless the budget was used up. */
    method Receive(limit: nat, alloc: nat -> Option<Buf>) returns (count: nat)
      requires Valid() && m.pc.RxIdle?
      modifies this`engineSlot, this`ri, this`m, this`run, this`curRx, this`dirtyRx
      modifies this`rxPackets, this`rxErrors, this`rxDropped, this`rxPktN, this`delivered
      modifies desc, rxSkbuff, rxSkbuffDma
      ensures Valid() && m.pc.RxIdle?
      ensures count == m.cur - old(m.cur) <= limit
      ensures rxPackets + rxErrors + rxDropped - old(rxPackets + rxErrors + rxDropped) == count
      ensures rxPackets - old(rxPackets) == |delivered| - |old(delivered)|
      ensures rxPktN == old(rxPktN) + count && m.size == old(m.size) && old(delivered) <= delivered
      ensures (forall n :: alloc(n).Some?) ==> Wrap(m.dirty) == Wrap(m.cur)
      ensures Told(old(m), m, old(ri), ri)
      ensures old(Budgeted()) && old(m.cur - m.dirty) + limit <= old(m.size) ==>
                && Budgeted()
                && (count < limit ==> old(m.eng) <= m.cur)
                && m.cur <= |m.arrivals| && DeliveredInOrder(delivered, m.arrivals, m.cur)
                && rxDropped == old(rxDropped)
                && ((forall n :: alloc(n).Some?) ==> m.dirty == m.cur)
    {
      hide Valid, Slot, DeliveredInOrder, Budgeted;
      Logs();
      StartCall(limit);
      count := ReceiveLoop(limit);
      var turns := RxRefill(alloc);
      Logs();
      CountPackets(count);
    }

    method CountPackets(n: nat)
      requires Valid()
      modifies this`rxPktN
      ensures Valid() && rxPktN == old(rxPktN) + n
      ensures old(Budgeted()) ==> Budgeted()
    {
      hide RxReaches;
      rxPktN := rxPktN + n;
    }

    lemma EngineBound()
      requires Valid() && m.pc.RxIdle? && Budgeted()
      ensures m.dirty <= m.cur <= m.eng <= m.dirty + m.size
    {
      Known();
    }

    lemma Logs()
      requires Valid() && m.pc.RxIdle?
      ensures m.dirty <= m.cur && m.eng == |m.arrivals| && m.size == |bufs|
      ensures delivered == m.delivered
      ensures rxPackets == m.packets && rxErrors == m.errors && rxDropped == m.dropped
      ensures rxPackets == |delivered|
      ensures Budgeted() ==> m.cur <= m.eng && DeliveredInOrder(m.delivered, m.arrivals, m.cur) && m.dropped == 0
    {
      Known();
      if Budgeted() { DeliveriesFollowArrivals(bufs, run, m); }
    }
  }

  /** Only the refill loop ran: what was consumed and delivered is untouched. */
  ghost predicate OnlyRefilled(s: Rx, s': Rx) {
    && s'.size == s.size && s'.cur == s.cur && s'.delivered == s.delivered
    && s'.packets == s.packets && s'.errors == s.errors && s'.dropped == s.dropped
    && s.arrivals <= s'.arrivals && s.eng <= s'.eng && s.dirty <= s'.dirty && s.allocs <= s'.allocs
  }

  /** Only the receive loop ran: the ring's dirty end and its allocations are untouched. */
  ghost predicate Consumed(s: Rx, s': Rx) {
    && s'.size == s.size && s'.dirty == s.dirty && s'.allocs == s.allocs
    && s.arrivals <= s'.arrivals && s.eng <= s'.eng && s.cur <= s'.cur && s.delivered <= s'.delivered
    && s'.packets + s'.errors + s'.dropped - (s.packets + s.errors + s.dropped) == s'.cur - s.cur
  }
}

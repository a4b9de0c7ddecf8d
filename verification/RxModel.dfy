/** The receive ring as a state machine over the driver's and the engine's stores. */
module RxModel {
  import opened Ring
  import opened Slots

  /** A receive buffer: its identity and the DMA address it is mapped at. */
  datatype Buf = Buf(id: nat, addr: nat)

  datatype Status = GoodFrame | DiscardFrame | CsumNone | LlcSnap

  /** What the engine writes back for a frame. */
  datatype Report = Report(status: Status, len: nat)

  datatype RxDesc = RxDesc(own: bool, addr: nat, report: Report)

  /** A completion: what was reported, the address the frame was written to, and the
      buffer the driver kept for that slot. */
  datatype Arrival = Arrival(report: Report, addr: nat, holder: Option<Buf>)

  /** A frame handed to the stack, in its buffer, with its length. */
  datatype Delivery = Delivery(buf: Buf, len: int)

  /** `Taken`: a completed descriptor was counted and `cur` moved past it. `Refilled`:
      the oldest consumed slot has its buffer. `Given`: it is the engine's again. */
  datatype RxPc = RxIdle | Taken | Refilled | Given

  datatype Rx = Rx(
    size: nat, cur: nat, dirty: nat,
    desc: seq<RxDesc>, skb: seq<Option<Buf>>, dma: seq<nat>,
    packets: nat, errors: nat, dropped: nat,
    left: nat, eng: nat, pc: RxPc,
    // histories
    arrivals: seq<Arrival>, delivered: seq<Delivery>, allocs: seq<Buf>)

  const ETH_FCS_LEN := 4
  const NO_REPORT := Report(GoodFrame, 0)

  /** A ring freshly filled with the buffers `bufs`. */
  function RxInit(bufs: seq<Buf>): Rx {
    Rx(|bufs|, 0, 0,
       seq(|bufs|, k requires 0 <= k < |bufs| => RxDesc(true, bufs[k].addr, NO_REPORT)),
       seq(|bufs|, k requires 0 <= k < |bufs| => Some(bufs[k])),
       seq(|bufs|, k requires 0 <= k < |bufs| => bufs[k].addr),
       0, 0, 0, 0, 0, RxIdle, [], [], bufs)
  }

  /** The length the stack is told: the checksum is cut off except from LLC/SNAP frames. */
  function FrameLen(r: Report): int {
    if r.status.LlcSnap? then r.len else r.len - ETH_FCS_LEN
  }

  datatype RxLabel =
    | Complete(report: Report)
    | Call(limit: nat)
    | Take
    | Discard
    | Deliver
    | Drop
    | Refill(buf: Buf)
    | Keep
    | GiveBack
    | Bump

  ghost predicate RxShaped(s: Rx) {
    s.size > 0 && |s.desc| == |s.skb| == |s.dma| == s.size
  }

  /** The slot of the descriptor just taken. */
  function TakenSlot(s: Rx): nat
    requires s.size > 0
  {
    Slot(if s.cur > 0 then s.cur - 1 else 0, s.size)
  }

  /** `left` is what remains of the budget of the current call. The receive loop takes
      on the ownership bit alone. */
  ghost predicate RxEnabled(s: Rx, l: RxLabel)
    requires RxShaped(s)
  {
    match l
    case Complete(_) => s.desc[Slot(s.eng, s.size)].own
    case Call(_) => s.pc.RxIdle?
    case Take => s.pc.RxIdle? && s.left > 0 && !s.desc[Slot(s.cur, s.size)].own
    case Discard => s.pc.Taken? && s.desc[TakenSlot(s)].report.status.DiscardFrame?
    case Deliver =>
      s.pc.Taken? && !s.desc[TakenSlot(s)].report.status.DiscardFrame? && s.skb[TakenSlot(s)].Some?
    case Drop =>
      s.pc.Taken? && !s.desc[TakenSlot(s)].report.status.DiscardFrame? && s.skb[TakenSlot(s)].None?
    case Refill(_) => s.pc.RxIdle? && s.dirty < s.cur && s.skb[Slot(s.dirty, s.size)].None?
    case Keep => s.pc.RxIdle? && s.dirty < s.cur && s.skb[Slot(s.dirty, s.size)].Some?
    case GiveBack => s.pc.Refilled?
    case Bump => s.pc.Given?
  }

  /** A drop ends the receive loop, and so does the start of refilling. */
  function RxStep(s: Rx, l: RxLabel): Rx
    requires RxShaped(s) && RxEnabled(s, l)
  {
    match l
    case Complete(r) =>
      var k := Slot(s.eng, s.size);
      s.(desc := s.desc[k := s.desc[k].(own := false, report := r)],
         eng := s.eng + 1, arrivals := s.arrivals + [Arrival(r, s.desc[k].addr, s.skb[k])])
    case Call(limit) => s.(left := limit)
    case Take => s.(cur := s.cur + 1, left := s.left - 1, pc := Taken)
    case Discard => s.(errors := s.errors + 1, pc := RxIdle)
    case Deliver =>
      var k := TakenSlot(s);
      s.(skb := s.skb[k := None],
         delivered := s.delivered + [Delivery(s.skb[k].value, FrameLen(s.desc[k].report))],
         packets := s.packets + 1, pc := RxIdle)
    case Drop => s.(dropped := s.dropped + 1, left := 0, pc := RxIdle)
    case Refill(b) =>
      var k := Slot(s.dirty, s.size);
      s.(skb := s.skb[k := Some(b)], dma := s.dma[k := b.addr],
         desc := s.desc[k := s.desc[k].(addr := b.addr)],
         allocs := s.allocs + [b], left := 0, pc := Refilled)
    case Keep => s.(left := 0, pc := Refilled)
    case GiveBack =>
      var k := Slot(s.dirty, s.size);
      s.(desc := s.desc[k := s.desc[k].(own := true)], pc := Given)
    case Bump => s.(dirty := s.dirty + 1, pc := RxIdle)
  }

  // ---------------------------------------------------------------- what every run keeps

  function Bufs(ds: seq<Delivery>): seq<Buf> {
    seq(|ds|, i requires 0 <= i < |ds| => ds[i].buf)
  }

  /** Every buffer ever allocated is in the ring or was handed to the stack. */
  ghost predicate Conserved(allocs: seq<Buf>, skb: seq<Option<Buf>>, ds: seq<Delivery>) {
    forall x :: Count(allocs, x) == Count(InSlots(skb), x) + Count(Bufs(ds), x)
  }

  /** Positions below this have been dealt with. */
  function Done(s: Rx): int {
    s.cur - (if s.pc.Taken? then 1 else 0)
  }

  /** A slot with a buffer names its mapping, and the engine owns only such slots. */
  ghost predicate SlotMapped(s: Rx, k: nat)
    requires RxShaped(s) && k < s.size
  {
    && (s.skb[k].Some? ==> s.desc[k].addr == s.dma[k] == s.skb[k].value.addr)
    && (s.desc[k].own ==> s.skb[k].Some?)
  }

  ghost predicate Mapped(s: Rx)
    requires RxShaped(s)
  {
    && (forall k :: 0 <= k < s.size ==> SlotMapped(s, k))
    && (s.pc.Taken? ==> !s.desc[TakenSlot(s)].own)
    && (s.pc.Refilled? ==> s.skb[Slot(s.dirty, s.size)].Some?)
  }

  /** The counters: every frame taken is delivered, discarded or dropped. */
  ghost predicate Tallied(s: Rx) {
    && s.dirty + (if s.pc.Refilled? || s.pc.Given? then 1 else 0) <= s.cur
    && 0 <= Done(s)
    && |s.arrivals| == s.eng
    && s.packets == |s.delivered|
    && s.packets + s.errors + s.dropped == Done(s)
  }

  ghost predicate Held(arrivals: seq<Arrival>) {
    forall p :: 0 <= p < |arrivals| ==>
      arrivals[p].holder.Some? && arrivals[p].holder.value.addr == arrivals[p].addr
  }

  /** What holds on every run, whatever the budgets. */
  ghost predicate RxSafe(s: Rx) {
    && RxShaped(s)
    && Mapped(s)
    && Tallied(s)
    && Held(s.arrivals)
    && Conserved(s.allocs, s.skb, s.delivered)
  }

  lemma BufsSnoc(ds: seq<Delivery>, d: Delivery, x: Buf)
    ensures Count(Bufs(ds + [d]), x) == Count(Bufs(ds), x) + (if d.buf == x then 1 else 0)
  {
    assert Bufs(ds + [d]) == Bufs(ds) + [d.buf];
    assert (Bufs(ds) + [d.buf])[..|ds|] == Bufs(ds);
  }

  lemma ConservedHandOver(allocs: seq<Buf>, skb: seq<Option<Buf>>, ds: seq<Delivery>, k: nat, len: int)
    requires Conserved(allocs, skb, ds) && k < |skb| && skb[k].Some?
    ensures Conserved(allocs, skb[k := None], ds + [Delivery(skb[k].value, len)])
  {
    var d := Delivery(skb[k].value, len);
    forall x
      ensures Count(allocs, x) == Count(InSlots(skb[k := None]), x) + Count(Bufs(ds + [d]), x)
    {
      InSlotsUpdate(skb, k, None, x);
      CountOne(skb[k].value, x);
      BufsSnoc(ds, d, x);
    }
  }

  lemma ConservedRefill(allocs: seq<Buf>, skb: seq<Option<Buf>>, ds: seq<Delivery>, k: nat, b: Buf)
    requires Conserved(allocs, skb, ds) && k < |skb| && skb[k].None?
    ensures Conserved(allocs + [b], skb[k := Some(b)], ds)
  {
    forall x
      ensures Count(allocs + [b], x) == Count(InSlots(skb[k := Some(b)]), x) + Count(Bufs(ds), x)
    {
      InSlotsUpdate(skb, k, Some(b), x);
      CountAppend(allocs, [b], x);
      CountOne(b, x);
    }
  }

  lemma CountOne<T>(v: T, x: T)
    ensures Count([v], x) == (if v == x then 1 else 0)
  {
    assert [v][..0] == [];
  }

  lemma StepMapped(s: Rx, l: RxLabel)
    requires RxSafe(s) && RxEnabled(s, l)
    ensures RxShaped(RxStep(s, l)) && Mapped(RxStep(s, l))
  {
    hide Slot, Conserved;
    var s' := RxStep(s, l);
    forall k: nat | k < s.size
      ensures SlotMapped(s', k)
    {
      assert SlotMapped(s, k);
    }
    if l.GiveBack? { assert SlotMapped(s, Slot(s.dirty, s.size)); }
  }

  lemma StepConserved(s: Rx, l: RxLabel)
    requires RxShaped(s) && RxEnabled(s, l) && Conserved(s.allocs, s.skb, s.delivered)
    ensures Conserved(RxStep(s, l).allocs, RxStep(s, l).skb, RxStep(s, l).delivered)
  {
    hide Slot, Conserved;
    if l.Deliver? {
      ConservedHandOver(s.allocs, s.skb, s.delivered, TakenSlot(s), FrameLen(s.desc[TakenSlot(s)].report));
    } else if l.Refill? {
      ConservedRefill(s.allocs, s.skb, s.delivered, Slot(s.dirty, s.size), l.buf);
    }
  }

  lemma StepHeld(s: Rx, l: RxLabel)
    requires RxSafe(s) && RxEnabled(s, l)
    ensures Held(RxStep(s, l).arrivals) && Tallied(RxStep(s, l))
  {
    hide Slot, Conserved;
    if l.Complete? { assert SlotMapped(s, Slot(s.eng, s.size)); }
  }

  lemma RxStepSafe(s: Rx, l: RxLabel)
    requires RxSafe(s) && RxEnabled(s, l)
    ensures RxSafe(RxStep(s, l))
  {
    StepMapped(s, l);
    StepConserved(s, l);
    StepHeld(s, l);
    hide Mapped, Tallied, Held, Conserved;
  }

  // ---------------------------------------------------------------- what budgeted runs keep

  /** Positions below this have been given back; `dirty` follows one store later. */
  function Back(s: Rx): nat {
    s.dirty + (if s.pc.Given? then 1 else 0)
  }

  ghost predicate RxLayout(s: Rx) {
    && RxShaped(s)
    && Back(s) <= Done(s)
    && (s.pc.Refilled? ==> s.dirty < s.cur)
    && s.cur <= s.eng <= Back(s) + s.size
    && |s.arrivals| == s.eng
  }

  /** The driver still owes something for position `p`, or never has yet. */
  ghost predicate Unspent(s: Rx, p: nat) {
    p >= Done(s) || (p == s.dirty && s.pc.Refilled?)
  }

  /** The slot of position `p`, for `p` in the window of `size` positions that starts
      at the oldest one not given back. */
  ghost predicate RxFits(s: Rx, p: nat)
    requires RxShaped(s) && |s.arrivals| == s.eng
  {
    var d, b := s.desc[Slot(p, s.size)], s.skb[Slot(p, s.size)];
    && d.own == (p >= s.eng)
    && (Unspent(s, p) ==> b.Some?)
    && (p < s.eng ==> d.report == s.arrivals[p].report)
    && (Done(s) <= p < s.eng ==> b == s.arrivals[p].holder)
    && (p < s.eng && !Unspent(s, p) ==>
          b == (if s.arrivals[p].report.status.DiscardFrame? then s.arrivals[p].holder else None))
  }

  ghost predicate RxImage(s: Rx)
    requires RxShaped(s) && |s.arrivals| == s.eng
  {
    forall p: nat :: Back(s) <= p < Back(s) + s.size ==> RxFits(s, p)
  }

  /** What one completion owes the stack. */
  function Owes(a: Arrival): seq<Delivery> {
    if a.report.status.DiscardFrame? || a.holder.None? then []
    else [Delivery(a.holder.value, FrameLen(a.report))]
  }

  /** The deliveries owed for a list of completions. */
  ghost function Owed(arrivals: seq<Arrival>): seq<Delivery> {
    if arrivals == [] then []
    else
      var n := |arrivals| - 1;
      Owed(arrivals[..n]) + Owes(arrivals[n])
  }

  ghost function Discarded(arrivals: seq<Arrival>): nat {
    if arrivals == [] then 0
    else
      var n := |arrivals| - 1;
      Discarded(arrivals[..n]) + (if arrivals[n].report.status.DiscardFrame? then 1 else 0)
  }

  /** Deliveries follow the completions one for one, and nothing was dropped. */
  ghost predicate RxOrder(s: Rx)
    requires 0 <= Done(s) <= |s.arrivals|
  {
    && s.delivered == Owed(s.arrivals[..Done(s)])
    && s.errors == Discarded(s.arrivals[..Done(s)])
    && s.dropped == 0
  }

  ghost predicate RxInv(s: Rx) {
    RxSafe(s) && RxLayout(s) && RxImage(s) && RxOrder(s)
  }

  /** The rest of the budget fits into what is not awaiting refill. */
  ghost predicate InBudget(s: Rx) {
    s.cur + s.left <= s.dirty + s.size
  }

  /** The step does not take a position that has not arrived. */
  ghost predicate Founded(s: Rx, l: RxLabel) {
    l.Take? ==> s.cur < s.eng
  }

  lemma RxElsewhere(s: Rx, s': Rx, q: nat, p: nat)
    requires RxShaped(s) && RxShaped(s') && s'.size == s.size
    requires p != q && p < q + s.size && q < p + s.size
    requires forall k :: 0 <= k < s.size && k != Slot(q, s.size) ==>
               s'.desc[k] == s.desc[k] && s'.skb[k] == s.skb[k] && s'.dma[k] == s.dma[k]
    ensures var k := Slot(p, s.size);
            s'.desc[k] == s.desc[k] && s'.skb[k] == s.skb[k] && s'.dma[k] == s.dma[k]
  {
    if p < q { SlotsDistinct(p, q, s.size); } else { SlotsDistinct(q, p, s.size); }
  }

  /** The engine acts in ring order, and never a whole ring ahead. */
  lemma CompleteInOrder(s: Rx, r: Report)
    requires RxLayout(s) && RxImage(s) && RxEnabled(s, Complete(r))
    ensures s.eng < Back(s) + s.size
  {
    SlotPeriodic(Back(s), s.size);
    assert RxFits(s, Back(s));
    assert s.eng < Back(s) + s.size ==> RxFits(s, s.eng);
  }

  /** With nothing awaiting more than a ring's worth of refills, the ownership test finds
      what has arrived and nothing else. */
  lemma OwnershipMeans(s: Rx)
    requires RxLayout(s) && RxImage(s) && s.pc.RxIdle?
    ensures s.cur < s.dirty + s.size ==> (!s.desc[Slot(s.cur, s.size)].own <==> s.cur < s.eng)
    ensures s.cur == s.dirty + s.size ==> !s.desc[Slot(s.cur, s.size)].own && s.eng == s.cur
  {
    SlotPeriodic(s.dirty, s.size);
    assert RxFits(s, s.dirty);
    assert s.cur < s.dirty + s.size ==> RxFits(s, s.cur);
  }

  lemma RxStepLayout(s: Rx, l: RxLabel)
    requires RxLayout(s) && RxImage(s) && RxEnabled(s, l) && Founded(s, l)
    ensures RxLayout(RxStep(s, l))
  {
    hide Slot;
    if l.Complete? { CompleteInOrder(s, l.report); }
  }

  lemma RxFitsStep(s: Rx, l: RxLabel, p: nat)
    requires RxLayout(s) && RxEnabled(s, l) && !l.Complete? && !l.GiveBack? && RxLayout(RxStep(s, l))
    requires !l.Drop?
    requires Back(s) <= p < Back(s) + s.size && RxFits(s, p)
    ensures RxFits(RxStep(s, l), p)
  {
    var s' := RxStep(s, l);
    if l.Deliver? && p != s.cur - 1 { RxElsewhere(s, s', s.cur - 1, p); }
    if l.Refill? && p != s.dirty { RxElsewhere(s, s', s.dirty, p); }
  }

  lemma RxFitsComplete(s: Rx, l: RxLabel, p: nat)
    requires RxLayout(s) && RxEnabled(s, l) && l.Complete? && RxLayout(RxStep(s, l))
    requires s.eng < Back(s) + s.size
    requires Back(s) <= p < Back(s) + s.size && RxFits(s, p)
    ensures RxFits(RxStep(s, l), p)
  {
    if p != s.eng { RxElsewhere(s, RxStep(s, l), s.eng, p); }
  }

  lemma RxFitsGiveBack(s: Rx, p: nat)
    requires RxLayout(s) && RxEnabled(s, GiveBack) && RxLayout(RxStep(s, GiveBack))
    requires RxFits(s, s.dirty)
    requires s.dirty + 1 <= p <= s.dirty + s.size && (p < s.dirty + s.size ==> RxFits(s, p))
    ensures RxFits(RxStep(s, GiveBack), p)
  {
    if p == s.dirty + s.size {
      SlotPeriodic(s.dirty, s.size);
    } else {
      RxElsewhere(s, RxStep(s, GiveBack), s.dirty, p);
    }
  }

  /** What was taken has its buffer, its report and its place in the order. */
  lemma TakenFits(s: Rx)
    requires RxLayout(s) && RxImage(s) && s.pc.Taken?
    ensures s.cur > 0 && s.cur - 1 < |s.arrivals| && TakenSlot(s) == Slot(s.cur - 1, s.size)
    ensures s.skb[TakenSlot(s)].Some? && s.skb[TakenSlot(s)] == s.arrivals[s.cur - 1].holder
    ensures s.desc[TakenSlot(s)].report == s.arrivals[s.cur - 1].report
  {
    assert RxFits(s, s.cur - 1);
  }

  lemma RxStepImage(s: Rx, l: RxLabel)
    requires RxLayout(s) && RxImage(s) && RxEnabled(s, l) && Founded(s, l)
    ensures RxLayout(RxStep(s, l)) && RxImage(RxStep(s, l)) && !l.Drop?
  {
    var s' := RxStep(s, l);
    RxStepLayout(s, l);
    if s.pc.Taken? { TakenFits(s); }
    if l.Complete? { CompleteInOrder(s, l.report); }
    assert RxFits(s, Back(s));
    forall p: nat | Back(s') <= p < Back(s') + s'.size
      ensures RxFits(s', p)
    {
      assert p < Back(s) + s.size ==> RxFits(s, p);
      if l.Complete? { RxFitsComplete(s, l, p); }
      else if l.GiveBack? { RxFitsGiveBack(s, p); }
      else { RxFitsStep(s, l, p); }
    }
  }

  lemma OwedNext(arrivals: seq<Arrival>, n: nat)
    requires n < |arrivals|
    ensures Owed(arrivals[..n + 1]) == Owed(arrivals[..n]) + Owes(arrivals[n])
    ensures Discarded(arrivals[..n + 1])
            == Discarded(arrivals[..n]) + (if arrivals[n].report.status.DiscardFrame? then 1 else 0)
  {
    assert arrivals[..n + 1][..n] == arrivals[..n];
  }

  lemma OrderTaken(s: Rx, l: RxLabel)
    requires RxLayout(s) && RxImage(s) && RxOrder(s) && RxEnabled(s, l) && (l.Discard? || l.Deliver?)
    requires RxLayout(RxStep(s, l))
    ensures RxOrder(RxStep(s, l))
  {
    TakenFits(s);
    OwedNext(s.arrivals, s.cur - 1);
    hide Slot, Owed, Discarded, RxImage;
    if l.Deliver? {
      var k := TakenSlot(s);
      assert Owes(s.arrivals[s.cur - 1]) == [Delivery(s.skb[k].value, FrameLen(s.desc[k].report))];
    } else {
      assert Owes(s.arrivals[s.cur - 1]) == [];
    }
  }

  lemma OrderOther(s: Rx, l: RxLabel)
    requires RxLayout(s) && RxOrder(s) && RxEnabled(s, l) && RxLayout(RxStep(s, l))
    requires !l.Discard? && !l.Deliver? && !l.Drop?
    ensures RxOrder(RxStep(s, l))
  {
    hide Slot, Owed, Discarded;
    assert RxStep(s, l).arrivals[..Done(s)] == s.arrivals[..Done(s)];
  }

  /** Every step that takes only what has arrived keeps the receive ring's invariant. */
  lemma RxStepKeeps(s: Rx, l: RxLabel)
    requires RxInv(s) && RxEnabled(s, l) && Founded(s, l)
    ensures RxInv(RxStep(s, l)) && !l.Drop?
  {
    RxStepSafe(s, l);
    RxStepImage(s, l);
    if l.Discard? || l.Deliver? { OrderTaken(s, l); } else { OrderOther(s, l); }
  }

  /** A call may start when its budget fits. */
  ghost predicate BudgetFits(s: Rx, l: RxLabel) {
    l.Call? ==> s.cur + l.limit <= s.dirty + s.size
  }

  /** Inside its budget the loop takes only what has arrived. */
  lemma BudgetedStep(s: Rx, l: RxLabel)
    requires RxInv(s) && InBudget(s) && RxEnabled(s, l) && BudgetFits(s, l)
    ensures Founded(s, l) && InBudget(RxStep(s, l))
  {
    hide Slot;
    if l.Take? { OwnershipMeans(s); }
  }

  // ---------------------------------------------------------------- runs

  ghost function RxExec(s: Rx, ls: seq<RxLabel>): Option<Rx> {
    if ls == [] then Some(s)
    else
      var n := |ls| - 1;
      match RxExec(s, ls[..n])
      case None => None
      case Some(m) => if RxShaped(m) && RxEnabled(m, ls[n]) then Some(RxStep(m, ls[n])) else None
  }

  /** `s` is reached from a ring freshly filled with the buffers `bufs`. */
  ghost predicate RxReaches(bufs: seq<Buf>, ls: seq<RxLabel>, s: Rx) {
    bufs != [] && RxExec(RxInit(bufs), ls) == Some(s)
  }

  /** Every call of the run was made with a budget that fitted: outstanding slots plus
      budget at most the ring size. */
  ghost predicate WithinBudget(s: Rx, ls: seq<RxLabel>) {
    if ls == [] then true
    else
      var n := |ls| - 1;
      && WithinBudget(s, ls[..n])
      && (RxExec(s, ls[..n]).Some? ==> BudgetFits(RxExec(s, ls[..n]).value, ls[n]))
  }

  lemma {:induction false} InSlotsFull(bufs: seq<Buf>, skb: seq<Option<Buf>>)
    requires |skb| == |bufs| && forall k :: 0 <= k < |bufs| ==> skb[k] == Some(bufs[k])
    ensures InSlots(skb) == bufs
  {
    if bufs != [] {
      var n := |bufs| - 1;
      InSlotsFull(bufs[..n], skb[..n]);
    }
  }

  lemma RxInitInv(bufs: seq<Buf>)
    requires bufs != []
    ensures RxInv(RxInit(bufs)) && InBudget(RxInit(bufs))
  {
    var s := RxInit(bufs);
    InSlotsFull(bufs, s.skb);
    assert s.arrivals[..0] == [];
    assert Bufs(s.delivered) == [];
  }

  lemma StepSize(s: Rx, l: RxLabel)
    requires RxShaped(s) && RxEnabled(s, l)
    ensures RxStep(s, l).size == s.size
  {
  }

  lemma {:induction false} RxRunSafe(s: Rx, ls: seq<RxLabel>, s': Rx)
    requires RxSafe(s) && RxExec(s, ls) == Some(s')
    ensures RxSafe(s') && s'.size == s.size
  {
    if ls != [] {
      var n := |ls| - 1;
      var m := RxExec(s, ls[..n]).value;
      RxRunSafe(s, ls[..n], m);
      RxStepSafe(m, ls[n]);
      StepSize(m, ls[n]);
      hide RxSafe, RxStep;
    }
  }

  lemma {:induction false} RxRunKeeps(s: Rx, ls: seq<RxLabel>, s': Rx)
    requires RxInv(s) && InBudget(s) && WithinBudget(s, ls) && RxExec(s, ls) == Some(s')
    ensures RxInv(s') && InBudget(s')
  {
    if ls != [] {
      var n := |ls| - 1;
      var m := RxExec(s, ls[..n]).value;
      RxRunKeeps(s, ls[..n], m);
      BudgetedStep(m, ls[n]);
      RxStepKeeps(m, ls[n]);
      hide RxInv, InBudget, RxStep;
    }
  }

  lemma RxReachSafe(bufs: seq<Buf>, ls: seq<RxLabel>, s: Rx)
    requires RxReaches(bufs, ls, s)
    ensures RxSafe(s) && s.size == |bufs|
  {
    RxInitInv(bufs);
    hide RxSafe;
    RxRunSafe(RxInit(bufs), ls, s);
  }

  lemma RxReachInv(bufs: seq<Buf>, ls: seq<RxLabel>, s: Rx)
    requires RxReaches(bufs, ls, s) && WithinBudget(RxInit(bufs), ls)
    ensures RxInv(s) && InBudget(s) && s.size == |bufs|
  {
    RxInitInv(bufs);
    RxReachSafe(bufs, ls, s);
    RxRunKeeps(RxInit(bufs), ls, s);
  }

  /** Whatever the interleaving, the budgets, and wherever an allocation fails: a
      descriptor the engine owns always names the mapped buffer of its slot. */
  lemma OwnedIsMapped(bufs: seq<Buf>, ls: seq<RxLabel>, s: Rx, k: nat)
    requires RxReaches(bufs, ls, s) && k < |bufs|
    ensures RxShaped(s) && s.size == |bufs|
    ensures s.desc[k].own ==> s.skb[k].Some? && s.desc[k].addr == s.dma[k] == s.skb[k].value.addr
  {
    RxReachSafe(bufs, ls, s);
    assert SlotMapped(s, k);
  }

  /** On every run: buffers allocated are buffers in the ring plus buffers handed to the
      stack. */
  lemma BufferConservation(bufs: seq<Buf>, ls: seq<RxLabel>, s: Rx)
    requires RxReaches(bufs, ls, s)
    ensures multiset(s.allocs) == multiset(InSlots(s.skb)) + multiset(Bufs(s.delivered))
  {
    RxReachSafe(bufs, ls, s);
    forall x
      ensures multiset(s.allocs)[x] == (multiset(InSlots(s.skb)) + multiset(Bufs(s.delivered)))[x]
    {
      CountIsMultiplicity(s.allocs, x);
      CountIsMultiplicity(InSlots(s.skb), x);
      CountIsMultiplicity(Bufs(s.delivered), x);
    }
  }

  /** On every run: each frame taken is delivered, discarded or dropped, once. */
  lemma TakenIsTallied(bufs: seq<Buf>, ls: seq<RxLabel>, s: Rx)
    requires RxReaches(bufs, ls, s)
    ensures s.packets + s.errors + s.dropped == Done(s) && s.packets == |s.delivered|
    ensures s.dirty <= s.cur && s.eng == |s.arrivals|
  {
    RxReachSafe(bufs, ls, s);
  }

  /** `ds` holds, in order of arrival and once each, the frames of the first `n` arrivals
      that were not discarded, each in the buffer that held it; the stack is told the
      reported length of an LLC/SNAP frame, and of any other frame 4 bytes less, the
      checksum. */
  ghost predicate DeliveredInOrder(ds: seq<Delivery>, arrivals: seq<Arrival>, n: nat)
    requires n <= |arrivals|
  {
    && |ds| == n - Discarded(arrivals[..n])
    && forall p :: 0 <= p < n && arrivals[p].report.status != DiscardFrame ==>
         var i := p - Discarded(arrivals[..p]);
         && 0 <= i < |ds|
         && arrivals[p].holder == Some(ds[i].buf)
         && (arrivals[p].report.status == LlcSnap ==> ds[i].len == arrivals[p].report.len)
         && (arrivals[p].report.status != LlcSnap ==> ds[i].len + 4 == arrivals[p].report.len)
  }

  lemma {:induction false} OwedIsInOrder(arrivals: seq<Arrival>, n: nat)
    requires n <= |arrivals| && Held(arrivals)
    ensures DeliveredInOrder(Owed(arrivals[..n]), arrivals, n)
  {
    if n == 0 {
      assert arrivals[..0] == [];
    } else {
      hide DeliveredInOrder, Discarded, Owed, Held;
      OwedIsInOrder(arrivals, n - 1);
      OwedNext(arrivals, n - 1);
      OneMoreInOrder(Owed(arrivals[..n - 1]), arrivals, n - 1);
    }
  }

  lemma OneMoreInOrder(ds: seq<Delivery>, arrivals: seq<Arrival>, n: nat)
    requires n < |arrivals| && Held(arrivals) && DeliveredInOrder(ds, arrivals, n)
    ensures DeliveredInOrder(ds + Owes(arrivals[n]), arrivals, n + 1)
  {
    OwedNext(arrivals, n);
    hide Discarded, Owed;
  }

  /** On budgeted runs frames leave in the order they arrived, each exactly once, in the
      buffer the engine wrote it to and with its own length; only discarded ones are left
      out, and none is dropped. */
  lemma DeliveriesFollowArrivals(bufs: seq<Buf>, ls: seq<RxLabel>, s: Rx)
    requires RxReaches(bufs, ls, s) && WithinBudget(RxInit(bufs), ls)
    ensures 0 <= Done(s) <= s.eng == |s.arrivals|
    ensures DeliveredInOrder(s.delivered, s.arrivals, Done(s))
    ensures forall p :: 0 <= p < s.eng ==>
              s.arrivals[p].holder.Some? && s.arrivals[p].holder.value.addr == s.arrivals[p].addr
    ensures s.packets + s.errors == Done(s) && s.dropped == 0
    ensures s.packets == |s.delivered| && s.errors == Discarded(s.arrivals[..Done(s)])
  {
    RxReachInv(bufs, ls, s);
    OwedIsInOrder(s.arrivals, Done(s));
    hide DeliveredInOrder, Owed, Discarded;
  }

  /** On budgeted runs exactly the consumed positions await refill: their slots are the
      driver's, hold no buffer unless their frame was discarded, and then hold that same
      buffer. */
  lemma AwaitingRefill(bufs: seq<Buf>, ls: seq<RxLabel>, s: Rx, p: nat)
    requires RxReaches(bufs, ls, s) && WithinBudget(RxInit(bufs), ls)
    requires s.pc.RxIdle? && s.dirty <= p < s.dirty + |bufs|
    ensures RxShaped(s) && s.size == |bufs| && s.dirty <= s.cur <= s.eng <= s.dirty + |bufs| && s.eng == |s.arrivals|
    ensures var k := Slot(p, s.size);
            && (s.desc[k].own <==> s.eng <= p)
            && (s.cur <= p ==> s.skb[k].Some?)
            && (p < s.cur ==> s.skb[k] == (if s.arrivals[p].report.status.DiscardFrame?
                                            then s.arrivals[p].holder else None))
  {
    RxReachInv(bufs, ls, s);
    assert RxFits(s, p);
  }

  /** What the ownership test in the receive loop tells: it finds a frame exactly when
      not all slots await refill. When they all do, it reads a consumed slot again. */
  lemma OwnershipTestMeans(bufs: seq<Buf>, ls: seq<RxLabel>, s: Rx)
    requires RxReaches(bufs, ls, s) && WithinBudget(RxInit(bufs), ls) && s.pc.RxIdle?
    requires RxShaped(s) && !s.desc[Slot(s.cur, s.size)].own
    ensures s.cur < s.eng <==> s.cur - s.dirty < |bufs|
  {
    RxReachInv(bufs, ls, s);
    OwnershipMeans(s);
  }

  /** On budgeted runs the "Inconsistent Rx descriptor chain" branch is not taken: what
      was taken has a buffer, and the report read is its own. */
  lemma TakenHasBuffer(bufs: seq<Buf>, ls: seq<RxLabel>, s: Rx)
    requires RxReaches(bufs, ls, s) && WithinBudget(RxInit(bufs), ls) && s.pc.Taken?
    ensures s.cur > 0 && RxShaped(s) && s.skb[TakenSlot(s)].Some? && !RxEnabled(s, Drop)
    ensures s.cur - 1 < |s.arrivals| && s.desc[TakenSlot(s)].report == s.arrivals[s.cur - 1].report
  {
    RxReachInv(bufs, ls, s);
    TakenFits(s);
  }

  // ---------------------------------------------------------------- calls beyond the budget

  ghost predicate InCall(ls: seq<RxLabel>) {
    forall i :: 0 <= i < |ls| ==> !ls[i].Call?
  }

  /** No step of the run takes a position that has not arrived. */
  ghost predicate AllFounded(s: Rx, ls: seq<RxLabel>) {
    if ls == [] then true
    else
      var n := |ls| - 1;
      && AllFounded(s, ls[..n])
      && (RxExec(s, ls[..n]).Some? ==> Founded(RxExec(s, ls[..n]).value, ls[n]))
  }

  lemma {:induction false} FoundedRunKeeps(s: Rx, ls: seq<RxLabel>, s': Rx)
    requires RxInv(s) && AllFounded(s, ls) && RxExec(s, ls) == Some(s')
    ensures RxInv(s')
  {
    if ls != [] {
      var n := |ls| - 1;
      var m := RxExec(s, ls[..n]).value;
      FoundedRunKeeps(s, ls[..n], m);
      RxStepKeeps(m, ls[n]);
      hide RxInv, RxStep;
    }
  }

  lemma {:induction false} InCallWithinBudget(s: Rx, ls: seq<RxLabel>)
    requires InCall(ls)
    ensures WithinBudget(s, ls)
  {
    if ls != [] { InCallWithinBudget(s, ls[..|ls| - 1]); }
  }

  /** A call with this budget can take a position that has not arrived. */
  ghost predicate CanMislead(s: Rx, limit: nat)
    requires RxShaped(s) && RxEnabled(s, Call(limit))
  {
    exists ls: seq<RxLabel>, m: Rx ::
      && InCall(ls) && RxExec(RxStep(s, Call(limit)), ls) == Some(m)
      && RxShaped(m) && RxEnabled(m, Take) && !Founded(m, Take)
  }

  lemma CallKeeps(s: Rx, limit: nat)
    requires RxInv(s) && s.pc.RxIdle?
    ensures RxInv(RxStep(s, Call(limit)))
  {
    RxStepKeeps(s, Call(limit));
  }

  lemma FittingCallHolds(s: Rx, limit: nat, ls: seq<RxLabel>, m: Rx)
    requires RxInv(s) && s.pc.RxIdle? && s.cur + limit <= s.dirty + s.size
    requires InCall(ls) && RxExec(RxStep(s, Call(limit)), ls) == Some(m) && RxEnabled(m, Take)
    ensures Founded(m, Take)
  {
    CallKeeps(s, limit);
    InCallWithinBudget(RxStep(s, Call(limit)), ls);
    RxRunKeeps(RxStep(s, Call(limit)), ls, m);
    BudgetedStep(m, Take);
  }

  lemma RxThen(s: Rx, ls: seq<RxLabel>, m: Rx, l: RxLabel) returns (ls': seq<RxLabel>)
    requires RxExec(s, ls) == Some(m) && RxShaped(m) && RxEnabled(m, l)
    requires InCall(ls) && !l.Call?
    ensures RxExec(s, ls') == Some(RxStep(m, l)) && InCall(ls')
  {
    ls' := ls + [l];
    assert ls'[..|ls|] == ls;
  }

  lemma {:induction false} RxExecAppend(s: Rx, a: seq<RxLabel>, b: seq<RxLabel>)
    requires RxExec(s, a).Some?
    ensures RxExec(s, a + b) == RxExec(RxExec(s, a).value, b)
  {
    hide RxStep, RxEnabled, RxShaped;
    if b == [] {
      assert a + b == a;
    } else {
      var n := |b| - 1;
      assert (a + b)[..|a + b| - 1] == a + b[..n];
      RxExecAppend(s, a, b[..n]);
    }
  }

  /** A frame is there to be taken, if need be by arriving now as a good one. */
  lemma LetArrive(s: Rx) returns (ls: seq<RxLabel>, s': Rx)
    requires RxInv(s) && s.pc.RxIdle? && s.cur < s.dirty + s.size
    ensures RxExec(s, ls) == Some(s') && InCall(ls) && RxInv(s') && s'.cur < s'.eng
    ensures s' == s.(desc := s'.desc, eng := s'.eng, arrivals := s'.arrivals) && s.arrivals <= s'.arrivals
    ensures s.cur == s.eng ==> s'.eng == s.eng + 1 && s'.arrivals[s.cur].report == NO_REPORT
  {
    if s.cur < s.eng {
      ls, s' := [], s;
    } else {
      OwnershipMeans(s);
      ls := RxThen(s, [], s, Complete(NO_REPORT));
      s' := RxStep(s, Complete(NO_REPORT));
      RxStepKeeps(s, Complete(NO_REPORT));
    }
  }

  /** The frame is taken and delivered or discarded. */
  lemma TakeOne(s: Rx) returns (ls: seq<RxLabel>, s': Rx)
    requires RxInv(s) && s.pc.RxIdle? && s.left > 0 && s.cur < s.eng && s.cur < s.dirty + s.size
    ensures RxExec(s, ls) == Some(s') && InCall(ls) && RxInv(s') && s'.pc.RxIdle?
    ensures s'.cur == s.cur + 1 && s'.left == s.left - 1
    ensures s'.dirty == s.dirty && s'.size == s.size && s'.eng == s.eng && s'.arrivals == s.arrivals
  {
    OwnershipMeans(s);
    ls := RxThen(s, [], s, Take);
    var m := RxStep(s, Take);
    RxStepKeeps(s, Take);
    TakenFits(m);
    hide RxInv, RxSafe, RxLayout, RxImage, RxOrder, Slot;
    var l := if m.desc[TakenSlot(m)].report.status.DiscardFrame? then Discard else Deliver;
    ls := RxThen(s, ls, m, l);
    s' := RxStep(m, l);
    RxStepKeeps(m, l);
  }

  lemma ReceiveOneMore(s: Rx) returns (ls: seq<RxLabel>, s': Rx)
    requires RxInv(s) && s.pc.RxIdle? && s.left > 0 && s.cur < s.dirty + s.size
    ensures RxExec(s, ls) == Some(s') && InCall(ls) && RxInv(s') && s'.pc.RxIdle?
    ensures s'.cur == s.cur + 1 && s'.left == s.left - 1 && s'.dirty == s.dirty && s'.size == s.size
    ensures s.cur == s.eng ==> s'.cur == s'.eng && s.cur < |s'.arrivals| && s'.arrivals[s.cur].report == NO_REPORT
    ensures s.arrivals <= s'.arrivals
  {
    hide RxInv, Slot;
    var arrive, m := LetArrive(s);
    ArrivalsCounted(m);
    var take;
    take, s' := TakeOne(m);
    ls := arrive + take;
    RxExecAppend(s, arrive, take);
  }

  lemma ArrivalsCounted(s: Rx)
    requires RxInv(s)
    ensures |s.arrivals| == s.eng
  {
  }

  /** Frames arrive and are taken until every slot awaits refill. */
  lemma {:induction false} ReceiveRest(s: Rx, n: nat) returns (ls: seq<RxLabel>, s': Rx)
    requires RxInv(s) && s.pc.RxIdle? && s.cur + n == s.dirty + s.size && n <= s.left
    ensures RxExec(s, ls) == Some(s') && InCall(ls) && RxInv(s') && s'.pc.RxIdle?
    ensures s'.cur == s'.dirty + s'.size && s'.left == s.left - n && s'.dirty == s.dirty && s'.size == s.size
    ensures n > 0 && s.cur == s.eng ==> s.cur < |s'.arrivals| && s'.arrivals[s.cur].report == NO_REPORT
    ensures s.arrivals <= s'.arrivals
    decreases n
  {
    hide RxInv;
    if n == 0 {
      ls, s' := [], s;
    } else {
      var one, m := ReceiveOneMore(s);
      var rest;
      rest, s' := ReceiveRest(m, n - 1);
      ls := one + rest;
      RxExecAppend(s, one, rest);
    }
  }

  lemma ExhaustedIsMisled(s: Rx)
    requires RxInv(s) && s.pc.RxIdle? && s.cur == s.dirty + s.size && s.left > 0
    ensures RxShaped(s) && RxEnabled(s, Take) && !Founded(s, Take) && s.eng == s.cur
  {
    OwnershipMeans(s);
  }

  lemma OverlongCallMisleads(s: Rx, limit: nat)
    requires RxInv(s) && s.pc.RxIdle? && s.cur + limit > s.dirty + s.size
    ensures CanMislead(s, limit)
  {
    CallKeeps(s, limit);
    assert s.cur <= s.dirty + s.size;
    var ls, m := ReceiveRest(RxStep(s, Call(limit)), s.dirty + s.size - s.cur);
    ExhaustedIsMisled(m);
  }

  /** A call can be misled into taking a frame that has not arrived exactly when the slots
      awaiting refill and its budget together exceed the ring. */
  lemma MisledIff(bufs: seq<Buf>, ls: seq<RxLabel>, s: Rx, limit: nat)
    requires RxReaches(bufs, ls, s) && WithinBudget(RxInit(bufs), ls) && s.pc.RxIdle?
    requires RxShaped(s)
    ensures CanMislead(s, limit) <==> s.cur - s.dirty + limit > |bufs|
  {
    RxReachInv(bufs, ls, s);
    if s.cur - s.dirty + limit > |bufs| {
      OverlongCallMisleads(s, limit);
    } else {
      forall ls': seq<RxLabel>, m: Rx |
        InCall(ls') && RxExec(RxStep(s, Call(limit)), ls') == Some(m) && RxShaped(m) && RxEnabled(m, Take)
        ensures Founded(m, Take)
      {
        FittingCallHolds(s, limit, ls', m);
      }
    }
  }

  /** A budgeted run takes only what has arrived. */
  lemma {:induction false} BudgetedNeverMisled(s: Rx, ls: seq<RxLabel>, s': Rx)
    requires RxInv(s) && InBudget(s) && WithinBudget(s, ls) && RxExec(s, ls) == Some(s')
    ensures AllFounded(s, ls)
  {
    if ls != [] {
      var n := |ls| - 1;
      var m := RxExec(s, ls[..n]).value;
      BudgetedNeverMisled(s, ls[..n], m);
      RxRunKeeps(s, ls[..n], m);
      BudgetedStep(m, ls[n]);
      hide RxInv, InBudget, RxStep;
    }
  }

  lemma MisledTake(s: Rx)
    requires RxInv(s) && RxEnabled(s, Take) && !Founded(s, Take)
    ensures s.cur == s.eng == s.dirty + s.size == |s.arrivals|
    ensures var t, again := RxStep(s, Take), s.arrivals[s.dirty].report.status.DiscardFrame?;
            && t.cur == t.eng + 1
            && (RxEnabled(t, Drop) <==> !again) && (RxEnabled(t, Discard) <==> again) && !RxEnabled(t, Deliver)
            && (again ==> RxStep(t, Discard).errors == Discarded(s.arrivals) + 1)
  {
    OwnershipMeans(s);
    SlotPeriodic(s.dirty, s.size);
    assert RxFits(s, s.dirty);
    assert s.arrivals[..s.cur] == s.arrivals;
  }

  /** What the first such take does: the driver overtakes the engine, and reads again what
      the oldest slot awaiting refill last received. If that was discarded it is counted
      as an error a second time; otherwise its buffer is gone and a drop is counted. */
  lemma MisledTakeMeans(bufs: seq<Buf>, ls: seq<RxLabel>, s: Rx)
    requires RxReaches(bufs, ls, s) && AllFounded(RxInit(bufs), ls)
    requires RxShaped(s) && RxEnabled(s, Take) && !Founded(s, Take)
    ensures s.cur == s.eng == s.dirty + |bufs| == |s.arrivals|
    ensures var t, again := RxStep(s, Take), s.arrivals[s.dirty].report.status.DiscardFrame?;
            && t.cur == t.eng + 1
            && (RxEnabled(t, Drop) <==> !again) && (RxEnabled(t, Discard) <==> again) && !RxEnabled(t, Deliver)
            && (again ==> RxStep(t, Discard).errors == Discarded(s.arrivals) + 1)
  {
    RxInitInv(bufs);
    FoundedRunKeeps(RxInit(bufs), ls, s);
    RxReachSafe(bufs, ls, s);
    hide RxInv, Slot;
    MisledTake(s);
  }

  lemma {:induction false} CallThenWithin(s: Rx, limit: nat, ls: seq<RxLabel>)
    requires RxShaped(s) && InCall(ls) && s.cur + limit <= s.dirty + s.size
    ensures WithinBudget(s, [Call(limit)] + ls)
  {
    var all := [Call(limit)] + ls;
    if ls == [] {
      assert all[..0] == [];
    } else {
      var n := |ls| - 1;
      assert all[..|all| - 1] == [Call(limit)] + ls[..n];
      CallThenWithin(s, limit, ls[..n]);
    }
  }

  /** Without refills a single budgeted call gets any ring there: nothing has arrived that
      was not taken, and yet the ownership test finds a frame. */
  lemma StarvedRingMisleads(bufs: seq<Buf>) returns (ls: seq<RxLabel>, s: Rx)
    requires bufs != []
    ensures RxReaches(bufs, ls, s) && WithinBudget(RxInit(bufs), ls) && s.pc.RxIdle?
    ensures s.cur == s.eng && s.cur - s.dirty == |bufs|
    ensures RxShaped(s) && !s.desc[Slot(s.cur, s.size)].own
    ensures s.dirty == 0 && 0 < |s.arrivals| && s.arrivals[0].report == NO_REPORT
  {
    var s0, first := RxInit(bufs), [Call(|bufs|)];
    RxInitInv(bufs);
    CallKeeps(s0, |bufs|);
    var rest;
    rest, s := ReceiveRest(RxStep(s0, Call(|bufs|)), |bufs|);
    assert first[..0] == [];
    RxExecAppend(s0, first, rest);
    CallThenWithin(s0, |bufs|, rest);
    ls := first + rest;
    hide RxExec, WithinBudget, RxImage, RxOrder, RxSafe;
    Exhausted(s);
  }

  lemma Exhausted(s: Rx)
    requires RxInv(s) && s.pc.RxIdle? && s.cur == s.dirty + s.size
    ensures RxShaped(s) && !s.desc[Slot(s.cur, s.size)].own && s.eng == s.cur
  {
    OwnershipMeans(s);
  }

  /** A call on an exhausted ring takes what it had taken before. */
  lemma CallOnExhausted(s: Rx, limit: nat) returns (s': Rx)
    requires RxInv(s) && s.pc.RxIdle? && s.cur == s.dirty + s.size && limit > 0
    requires s.dirty < |s.arrivals| && s.arrivals[s.dirty].report == NO_REPORT
    ensures RxExec(s, [Call(limit), Take]) == Some(s')
    ensures RxShaped(s') && RxEnabled(s', Drop) && s'.cur == s'.eng + 1
  {
    CallKeeps(s, limit);
    var m := RxStep(s, Call(limit));
    Exhausted(m);
    MisledTake(m);
    hide RxInv, Slot;
    assert [Call(limit), Take][..1] == [Call(limit)] && [Call(limit)][..0] == [];
    assert RxExec(s, [Call(limit)]) == Some(m);
    s' := RxStep(m, Take);
  }

  /** The "Inconsistent Rx descriptor chain" branch is reachable on every ring: the next
      call, whatever its budget, counts a frame that never arrived and drops it. */
  lemma InconsistentChainReachable(bufs: seq<Buf>, limit: nat) returns (ls: seq<RxLabel>, s: Rx)
    requires bufs != [] && limit > 0
    ensures RxReaches(bufs, ls, s) && RxShaped(s) && RxEnabled(s, Drop) && s.cur == s.eng + 1
  {
    var starved, a := StarvedRingMisleads(bufs);
    RxReachInv(bufs, starved, a);
    hide RxInv, WithinBudget, Slot;
    s := CallOnExhausted(a, limit);
    RxExecAppend(RxInit(bufs), starved, [Call(limit), Take]);
    ls := starved + [Call(limit), Take];
  }
}

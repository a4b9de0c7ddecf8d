/** What every step of the transmit ring keeps. */
module TxInvariant {
  import opened Ring
  import opened Slots
  import opened TxModel

  // ---------------------------------------------------------------- the image of the ring

  predicate Building(pc: Pc) {
    pc.Start? || pc.Mapped? || pc.Ready? || pc.Built? || pc.Closed? || pc.Marked?
  }

  /** How many positions beyond the published ones the frame being added has touched. */
  function Touched(pc: Pc): nat {
    match pc
    case Start(_) => 1
    case Mapped(_, i) => i + 1
    case Ready(_, i) => i + 1
    case Built(_, i) => i + 1
    case Closed(f) => |f.segs|
    case Marked(f, _) => |f.segs|
    case _ => 0
  }

  /** How many positions the frame being added will use. */
  function Reserved(pc: Pc): nat {
    if Building(pc) then |pc.f.segs| else 0
  }

  /** The driver has written segment `j`'s length, kind and checksum mode. */
  predicate Filled(pc: Pc, j: nat) {
    match pc
    case Start(_) => false
    case Mapped(_, i) => j < i
    case Ready(_, i) => j <= i
    case Built(_, i) => j <= i
    case _ => true
  }

  /** The driver has already handed segment `j` of an unpublished frame to the engine. */
  predicate FragOwned(pc: Pc, j: nat) {
    j >= 1 &&
    match pc
    case Mapped(_, i) => j < i
    case Ready(_, i) => j < i
    case Built(_, i) => j <= i
    case Closed(f) => j < |f.segs|
    case Marked(f, _) => j < |f.segs|
    case _ => false
  }

  /** The control bits that the driver does not write for every segment. */
  predicate SameControl(d: Desc, r: Desc) {
    d.ls == r.ls && d.ic == r.ic && d.csum == r.csum
  }

  predicate Blank(d: Desc) {
    !d.ls && !d.ic && !d.csum
  }

  /** Segment `j` of the frame being added, over the residue `r` of its slot, as far as it
      has been written. */
  ghost predicate FitsBuilding(pc: Pc, j: nat, d: Desc, a: nat, r: Desc)
    requires Building(pc) && j < Touched(pc) && PcOk(pc)
  {
    var f := pc.f;
    var closed := (pc.Closed? || pc.Marked?) && j == |f.segs| - 1;
    && (!pc.Start? ==> d.buf == a == f.segs[j].buf)
    && (Filled(pc, j) ==> d.fs == (j == 0) && d.len == BufferSize(f.segs[j].len))
    && d.csum == ((Filled(pc, j) && f.csum) || r.csum)
    && d.ls == (closed || r.ls)
    && d.ic == (if closed then pc.Closed? || pc.ic else r.ic)
  }

  /** A published descriptor, except for its ownership bit. While the oldest one is
      being reclaimed its pieces disappear one by one. */
  ghost predicate FitsLive(s: Tx, p: nat, d: Desc, k: Option<Skb>, a: nat)
    requires p < |s.cells|
  {
    var c := s.cells[p];
    && (!(p == s.dirty && s.pc.Released?) ==> d.(own := true) == Worn(c.desc, Residue(s.base, p)))
    && (p == s.dirty && s.pc.Released? ==> Blank(d))
    && k == (if p == s.dirty && (s.pc.Freed? || s.pc.Released?) then None else c.skb)
    && (!(p == s.dirty && (s.pc.Unmapped? || s.pc.Freed? || s.pc.Released?)) ==> a == c.desc.buf)
  }

  /** The slot of position `p` holds what it should. */
  ghost predicate Fits(s: Tx, p: nat)
    requires Shaped(s) && PcOk(s.pc)
  {
    var d, k, a := s.desc[Slot(p, s.size)], s.skb[Slot(p, s.size)], s.dma[Slot(p, s.size)];
    if p < |s.cells| then FitsLive(s, p, d, k, a)
    else
      var j := p - |s.cells|;
      if j < Touched(s.pc) then
        && FitsBuilding(s.pc, j, d, a, Residue(s.base, p))
        && k == (if j == 0 then s.pc.f.skb else None)
      else SameControl(d, Residue(s.base, p)) && k == None
  }

  ghost predicate Image(s: Tx)
    requires Shaped(s) && PcOk(s.pc)
  {
    forall p: nat :: s.dirty <= p < s.dirty + s.size ==> Fits(s, p)
  }

  // ---------------------------------------------------------------- counters and histories

  /** Where `cur` stands relative to what is published. */
  ghost predicate Counted(s: Tx) {
    match s.pc
    case Start(_) => s.cur == |s.cells|
    case Mapped(_, i) => s.cur == |s.cells| + i
    case Ready(_, i) => s.cur == |s.cells| + i
    case Built(_, i) => s.cur == |s.cells| + i
    case Closed(f) => s.cur + 1 == |s.cells| + |f.segs|
    case Marked(f, _) => s.cur + 1 == |s.cells| + |f.segs|
    case Published(_) => s.cur + 1 == |s.cells|
    case _ => s.cur == |s.cells|
  }

  /** One descriptor stays free, even when the frame being added, or the one that
      passed its space check, has taken its share. */
  ghost predicate Room(s: Tx) {
    && s.dirty <= |s.cells|
    && (Cleaning(s.pc) ==> s.dirty < |s.cells|)
    && |s.cells| + Reserved(s.pc) - s.dirty <= s.size - 1
    && (s.pending.Some? ==>
          && !Sending(s.pc)
          && KernelFrame(s.pending.value, s.maxFrags)
          && |s.cells| + |s.pending.value.segs| - s.dirty <= s.size - 1)
  }

  /** Positions whose socket buffer is gone, and whose mapping is gone. */
  function FreedTo(s: Tx): nat {
    s.dirty + (if s.pc.Freed? || s.pc.Released? then 1 else 0)
  }

  function UnmappedTo(s: Tx): nat {
    s.dirty + (if s.pc.Unmapped? || s.pc.Freed? || s.pc.Released? then 1 else 0)
  }

  /** What was accepted, freed and unmapped, against the published descriptors: the
      first `fr` of them have given up their socket buffer and the first `un` their
      mapping, in ring order; what a reset swept up is in `base`. */
  ghost predicate Logged(accepted: seq<Skb>, freed: seq<Skb>, unmapped: seq<Seg>, base: Base,
                         cells: seq<Cell>, fr: nat, un: nat)
    requires fr <= |cells| && un <= |cells|
  {
    && accepted == base.accepted + Skbs(cells)
    && freed == base.freed + Skbs(cells[..fr])
    && unmapped == base.unmapped + Mappings(cells[..un])
    && (forall x :: Count(base.accepted, x) == Count(base.freed, x))
  }

  /** The socket buffers the slots hold are those accepted and not yet freed, plus
      the one of the frame being added. */
  ghost predicate HeldIn(skb: seq<Option<Skb>>, rest: seq<Cell>, adding: seq<Skb>) {
    forall x :: Count(InSlots(skb), x) == Count(Skbs(rest), x) + Count(adding, x)
  }

  function Adding(pc: Pc): seq<Skb> {
    if Building(pc) then Holds(pc.f.skb) else []
  }

  /** The published descriptors are those of the frames added since the reset. */
  ghost predicate OnWire(frames: seq<Frame>, marks: seq<bool>, since: nat, pc: Pc, cells: seq<Cell>) {
    var n := |frames| - (if pc.Marked? then 1 else 0);
    && |marks| == |frames|
    && since <= n
    && (pc.Marked? ==> frames[n] == pc.f && marks[n] == pc.ic)
    && cells == Wire(frames[since..n], marks[since..n])
  }

  ghost predicate Bounded(s: Tx) {
    FreedTo(s) <= |s.cells| && UnmappedTo(s) <= |s.cells|
  }

  ghost predicate Books(s: Tx)
    requires Bounded(s)
  {
    && Logged(s.accepted, s.freed, s.unmapped, s.base, s.cells, FreedTo(s), UnmappedTo(s))
    && HeldIn(s.skb, s.cells[FreedTo(s)..], Adding(s.pc))
    && OnWire(s.frames, s.marks, s.base.frames, s.pc, s.cells)
  }

  ghost predicate Layout(s: Tx) {
    && Shaped(s) && PcOk(s.pc)
    && s.coal > 0 && |s.base.rest| <= s.size
    && Counted(s)
    && Room(s)
  }

  ghost predicate BaseInv(s: Tx) {
    && Layout(s)
    && Image(s)
    && Books(s)
  }

  /** The engine agrees with the driver: it is between the reclaimed and the
      published positions, it owns exactly the published positions ahead of it
      (and fragments it cannot reach yet), and it has read exactly what was
      published. */
  ghost predicate EngineInv(s: Tx)
    requires Shaped(s)
  {
    && s.dirty <= s.eng <= |s.cells|
    && (Cleaning(s.pc) ==> s.dirty < s.eng)
    && (forall p: nat :: s.dirty <= p < s.dirty + s.size ==> OwnFits(s, p))
    && SentFits(s.sent, s.eng, s.cells, s.base)
  }

  /** The engine has read the published descriptors, in order, up to its position. */
  ghost predicate SentFits(sent: seq<Desc>, eng: nat, cells: seq<Cell>, base: Base) {
    && |sent| == eng <= |cells|
    && (forall p :: 0 <= p < eng ==> sent[p] == Worn(cells[p].desc, Residue(base, p)))
  }

  ghost predicate OwnFits(s: Tx, p: nat)
    requires Shaped(s)
  {
    s.desc[Slot(p, s.size)].own
    == (if p < |s.cells| then s.eng <= p else FragOwned(s.pc, p - |s.cells|))
  }

  // ---------------------------------------------------------------- list facts

  lemma {:induction false} SkbsAppend(a: seq<Cell>, b: seq<Cell>)
    ensures Skbs(a + b) == Skbs(a) + Skbs(b)
  {
    if b == [] {
      assert a + b == a;
    } else {
      var n := |b| - 1;
      assert (a + b)[..|a + b| - 1] == a + b[..n];
      SkbsAppend(a, b[..n]);
    }
  }

  lemma {:induction false} MappingsAppend(a: seq<Cell>, b: seq<Cell>)
    ensures Mappings(a + b) == Mappings(a) + Mappings(b)
  {
    if b == [] {
      assert a + b == a;
    } else {
      var n := |b| - 1;
      assert (a + b)[..|a + b| - 1] == a + b[..n];
      MappingsAppend(a, b[..n]);
    }
  }

  /** One frame carries one socket buffer, at its first descriptor. */
  lemma {:induction false} FrameSkbs(f: Frame, ic: bool, n: nat)
    requires 1 <= n <= |f.segs|
    ensures Skbs(FrameCells(f, ic)[..n]) == Holds(f.skb)
  {
    var c := FrameCells(f, ic)[..n];
    assert c[..n - 1] == FrameCells(f, ic)[..n - 1];
    if n == 1 {
      assert Skbs(c[..0]) == [];
    } else {
      FrameSkbs(f, ic, n - 1);
    }
  }

  /** The first descriptor of a non-empty rest gives up its socket buffer first. */
  lemma SkbsHead(cells: seq<Cell>, p: nat)
    requires p < |cells|
    ensures Skbs(cells[p..]) == Holds(cells[p].skb) + Skbs(cells[p + 1..])
    ensures Skbs(cells[..p + 1]) == Skbs(cells[..p]) + Holds(cells[p].skb)
  {
    var one := [cells[p]];
    assert cells[p..] == one + cells[p + 1..];
    SkbsAppend(one, cells[p + 1..]);
    assert one[..0] == [] && Skbs([]) == [];
    assert Skbs(one) == Skbs(one[..0]) + Holds(one[0].skb);
    assert cells[..p + 1][..p] == cells[..p];
  }

  lemma MappingsSnoc(cells: seq<Cell>, p: nat)
    requires p < |cells|
    ensures Mappings(cells[..p + 1])
            == Mappings(cells[..p]) + Mapping(cells[p].desc.buf, cells[p].desc.len)
  {
    assert cells[..p + 1][..p] == cells[..p];
  }

  // ---------------------------------------------------------------- each step keeps BaseInv

  /** Slots other than that of `q` are untouched when only slot `q` is written. */
  lemma Elsewhere(s: Tx, s': Tx, q: nat, p: nat)
    requires Shaped(s) && Shaped(s') && s'.size == s.size
    requires s.dirty <= q < s.dirty + s.size && s.dirty <= p < s.dirty + s.size && p != q
    requires forall k :: 0 <= k < s.size && k != Slot(q, s.size) ==>
               s'.desc[k] == s.desc[k] && s'.skb[k] == s.skb[k] && s'.dma[k] == s.dma[k]
    ensures var k := Slot(p, s.size);
            s'.desc[k] == s.desc[k] && s'.skb[k] == s.skb[k] && s'.dma[k] == s.dma[k]
  {
    hide Slot;
    if p < q { SlotsDistinct(p, q, s.size); } else { SlotsDistinct(q, p, s.size); }
  }

  predicate Touches(l: Label) {
    l.Begin? || l.BeginRaw? || l.Map? || l.PrepareSeg? || l.OwnFrag? || l.CloseLast? || l.Mark?
  }

  /** Positions other than the one being written keep fitting. */
  lemma TouchElsewhere(s: Tx, l: Label, p: nat)
    requires Layout(s) && Enabled(s, l) && (l.PrepareSeg? || l.OwnFrag? || l.CloseLast? || l.Mark?)
    requires s.dirty <= p < s.dirty + s.size && p != Step(s, l).cur && Fits(s, p)
    ensures PcOk(Step(s, l).pc) && Fits(Step(s, l), p)
  {
    hide Slot;
    var s' := Step(s, l);
    assert Fits(s, p);
    Elsewhere(s, s', s'.cur, p);
  }

  lemma MapElsewhere(s: Tx, l: Label, p: nat)
    requires Layout(s) && Enabled(s, l) && (l.Begin? || l.BeginRaw? || l.Map?)
    requires s.dirty <= p < s.dirty + s.size && p != Step(s, l).cur && Fits(s, p)
    ensures PcOk(Step(s, l).pc) && Fits(Step(s, l), p)
  {
    hide Slot;
    var s' := Step(s, l);
    assert Fits(s, p);
    Elsewhere(s, s', s'.cur, p);
  }

  lemma TouchBegin(s: Tx, l: Label)
    requires Layout(s) && Enabled(s, l) && (l.Begin? || l.BeginRaw?) && Fits(s, s.cur)
    ensures PcOk(Step(s, l).pc) && Fits(Step(s, l), Step(s, l).cur)
  {
    hide Slot;
    assert Fits(s, s.cur);
  }

  lemma TouchMap(s: Tx)
    requires Layout(s) && Enabled(s, Map) && Fits(s, Step(s, Map).cur)
    ensures PcOk(Step(s, Map).pc) && Fits(Step(s, Map), Step(s, Map).cur)
  {
    hide Slot;
    assert Fits(s, Step(s, Map).cur);
  }

  lemma TouchSegment(s: Tx, l: Label)
    requires Layout(s) && Enabled(s, l) && (l.PrepareSeg? || l.OwnFrag?) && Fits(s, s.cur)
    ensures PcOk(Step(s, l).pc) && Fits(Step(s, l), s.cur)
  {
    hide Slot;
    assert Fits(s, s.cur);
  }

  lemma TouchLast(s: Tx, l: Label)
    requires Layout(s) && Enabled(s, l) && (l.CloseLast? || l.Mark?) && Fits(s, s.cur)
    ensures PcOk(Step(s, l).pc) && Fits(Step(s, l), s.cur)
  {
    hide Slot;
    assert Fits(s, s.cur);
  }

  lemma FitsTouch(s: Tx, l: Label, p: nat)
    requires Layout(s) && Enabled(s, l) && Touches(l)
    requires s.dirty <= p < s.dirty + s.size && Fits(s, p)
    ensures PcOk(Step(s, l).pc) && Fits(Step(s, l), p)
  {
    if p != Step(s, l).cur {
      if l.Begin? || l.BeginRaw? || l.Map? {
        MapElsewhere(s, l, p);
      } else {
        TouchElsewhere(s, l, p);
      }
    } else if l.Begin? || l.BeginRaw? {
      TouchBegin(s, l);
    } else if l.Map? {
      TouchMap(s);
    } else if l.PrepareSeg? || l.OwnFrag? {
      TouchSegment(s, l);
    } else {
      TouchLast(s, l);
    }
  }

  lemma LayoutTouch(s: Tx, l: Label)
    requires Layout(s) && Enabled(s, l) && Touches(l)
    ensures Layout(Step(s, l)) && Step(s, l).dirty == s.dirty && Step(s, l).size == s.size
  {
    hide Slot;
  }

  lemma ImageTouch(s: Tx, l: Label)
    requires Layout(s) && Image(s) && Enabled(s, l) && Touches(l)
    ensures Layout(Step(s, l)) && Image(Step(s, l))
  {
    hide Slot;
    var s' := Step(s, l);
    LayoutTouch(s, l);
    forall p: nat | s'.dirty <= p < s'.dirty + s'.size
      ensures Fits(s', p)
    {
      assert Fits(s, p);
      FitsTouch(s, l, p);
    }
  }

  /** Steps that write no slot and publish nothing. */
  predicate Quiet(l: Label) {
    l.Check? || l.Busy? || l.Advance? || l.StopCheck? || l.CleanCheck? || l.Wake?
  }

  lemma LayoutQuiet(s: Tx, l: Label)
    requires Layout(s) && Enabled(s, l) && Quiet(l)
    ensures Layout(Step(s, l))
  {
    hide Slot;
  }

  lemma ImageQuiet(s: Tx, l: Label)
    requires Layout(s) && Image(s) && Enabled(s, l) && Quiet(l)
    ensures Layout(Step(s, l)) && Image(Step(s, l))
  {
    hide Slot;
    var s' := Step(s, l);
    LayoutQuiet(s, l);
    forall p: nat | s'.dirty <= p < s'.dirty + s'.size
      ensures Fits(s', p)
    {
      assert Fits(s, p);
    }
  }

  lemma LayoutPublish(s: Tx)
    requires Layout(s) && Enabled(s, Publish)
    ensures Layout(Step(s, Publish))
  {
    hide Slot;
  }

  /** A finished segment of the frame being added is what the engine is meant to read. */
  lemma FitsPublish(s: Tx, p: nat)
    requires Layout(s) && Enabled(s, Publish)
    requires s.dirty <= p < s.dirty + s.size && Fits(s, p)
    ensures Layout(Step(s, Publish)) && Fits(Step(s, Publish), p)
  {
    hide Slot;
    LayoutPublish(s);
    var s' := Step(s, Publish);
    if p != |s.cells| {
      Elsewhere(s, s', |s.cells|, p);
    }
    if p < |s.cells| {
      assert s'.cells[p] == s.cells[p];
    } else if p < |s'.cells| {
      assert s'.cells[p] == FrameCell(s.pc.f, s.pc.ic, p - |s.cells|);
    }
  }

  lemma ImagePublish(s: Tx)
    requires Layout(s) && Image(s) && Enabled(s, Publish)
    ensures Layout(Step(s, Publish)) && Image(Step(s, Publish))
  {
    hide Slot;
    var s' := Step(s, Publish);
    LayoutPublish(s);
    forall p: nat | s'.dirty <= p < s'.dirty + s'.size
      ensures Fits(s', p)
    {
      assert Fits(s, p);
      FitsPublish(s, p);
    }
  }

  predicate Reclaims(l: Label) {
    l.CleanUnmap? || l.CleanFree? || l.CleanRelease?
  }

  lemma LayoutClean(s: Tx, l: Label)
    requires Layout(s) && Enabled(s, l) && (Reclaims(l) || l.CleanAdvance?)
    ensures Layout(Step(s, l))
  {
    hide Slot;
  }

  lemma FitsReclaim(s: Tx, l: Label, p: nat)
    requires Layout(s) && Enabled(s, l) && Reclaims(l)
    requires s.dirty <= p < s.dirty + s.size && Fits(s, p)
    ensures Layout(Step(s, l)) && Fits(Step(s, l), p)
  {
    hide Slot;
    LayoutClean(s, l);
    if p != s.dirty {
      Elsewhere(s, Step(s, l), s.dirty, p);
    }
  }

  /** When `dirty` advances, the released slot becomes the free slot at the far end. */
  lemma FitsAdvance(s: Tx, p: nat)
    requires Layout(s) && Enabled(s, CleanAdvance)
    requires Fits(s, s.dirty)
    requires s.dirty + 1 <= p <= s.dirty + s.size && (p < s.dirty + s.size ==> Fits(s, p))
    ensures Layout(Step(s, CleanAdvance)) && Fits(Step(s, CleanAdvance), p)
  {
    hide Slot;
    LayoutClean(s, CleanAdvance);
    if p == s.dirty + s.size {
      SlotPeriodic(s.dirty, s.size);
    }
  }

  lemma ImageClean(s: Tx, l: Label)
    requires Layout(s) && Image(s) && Enabled(s, l) && (Reclaims(l) || l.CleanAdvance?)
    ensures Layout(Step(s, l)) && Image(Step(s, l))
  {
    hide Slot;
    var s' := Step(s, l);
    LayoutClean(s, l);
    assert Fits(s, s.dirty);
    forall p: nat | s'.dirty <= p < s'.dirty + s'.size
      ensures Fits(s', p)
    {
      if l.CleanAdvance? {
        assert p < s.dirty + s.size ==> Fits(s, p);
        FitsAdvance(s, p);
      } else {
        assert Fits(s, p);
        FitsReclaim(s, l, p);
      }
    }
  }

  lemma FitsEngine(s: Tx, p: nat)
    requires Layout(s) && Enabled(s, Engine)
    requires s.dirty <= p < s.dirty + s.size && Fits(s, p)
    ensures Layout(Step(s, Engine)) && Fits(Step(s, Engine), p)
  {
    hide Slot, FrameCells;
    var s', k := Step(s, Engine), Slot(p, s.size);
    assert s'.desc[k].(own := true) == s.desc[k].(own := true) && s'.skb == s.skb && s'.dma == s.dma;
  }

  /** The engine changes nothing the driver relies on, wherever it is. */
  lemma ImageEngine(s: Tx)
    requires Layout(s) && Image(s) && Enabled(s, Engine)
    ensures Layout(Step(s, Engine)) && Image(Step(s, Engine))
  {
    hide Slot;
    var s' := Step(s, Engine);
    assert Layout(s');
    forall p: nat | s'.dirty <= p < s'.dirty + s'.size
      ensures Fits(s', p)
    {
      assert Fits(s, p);
      FitsEngine(s, p);
    }
  }

  lemma FitsReset(s: Tx, p: nat)
    requires Layout(s) && Enabled(s, Reset) && p < s.size
    ensures Layout(Step(s, Reset)) && Fits(Step(s, Reset), p)
  {
    ModUnique(p, s.size, 0, p);
    hide InSlots, SlotMappings;
    var s' := Step(s, Reset);
    assert Slot(p, s.size) == p && s'.desc[p] == Residue(s'.base, p);
  }

  lemma ImageReset(s: Tx)
    requires Layout(s) && Image(s) && Enabled(s, Reset)
    ensures Layout(Step(s, Reset)) && Image(Step(s, Reset))
  {
    hide InSlots, SlotMappings, Slot;
    var s' := Step(s, Reset);
    assert Layout(s');
    forall p: nat | s'.dirty <= p < s'.dirty + s'.size
      ensures Fits(s', p)
    {
      FitsReset(s, p);
    }
  }

  // ---------------------------------------------------------------- histories

  /** Steps that leave the slots' socket buffers and the histories alone. */
  predicate Bookless(l: Label) {
    Quiet(l) || l.PrepareSeg? || l.OwnFrag? || l.CloseLast? || l.CleanCheck? || l.CleanRelease?
    || l.Engine?
  }

  ghost predicate SameBooks(s: Tx, s': Tx) {
    && s'.cells == s.cells && s'.skb == s.skb && s'.base == s.base
    && s'.accepted == s.accepted && s'.freed == s.freed && s'.unmapped == s.unmapped
    && s'.frames == s.frames && s'.marks == s.marks
    && FreedTo(s') == FreedTo(s) && UnmappedTo(s') == UnmappedTo(s)
    && Adding(s'.pc) == Adding(s.pc) && (s.pc.Marked? || s'.pc.Marked? ==> s'.pc == s.pc)
  }

  lemma BooksCarry(s: Tx, s': Tx)
    requires Bounded(s) && Books(s) && SameBooks(s, s')
    ensures Books(s')
  {
    hide Slot, Skbs, Mappings, InSlots, Wire, Count;
    assert Logged(s'.accepted, s'.freed, s'.unmapped, s'.base, s'.cells, FreedTo(s'), UnmappedTo(s'));
  }

  lemma BooksSame(s: Tx, l: Label)
    requires Shaped(s) && PcOk(s.pc) && Enabled(s, l) && Bookless(l)
    requires Bounded(s) && Bounded(Step(s, l)) && Books(s)
    ensures Books(Step(s, l))
  {
    hide Slot, Skbs, Mappings, InSlots, Wire, Count;
    assert SameBooks(s, Step(s, l));
    BooksCarry(s, Step(s, l));
  }

  lemma HeldBegin(skb: seq<Option<Skb>>, k: nat, rest: seq<Cell>, v: Option<Skb>)
    requires k < |skb| && skb[k] == None && HeldIn(skb, rest, [])
    ensures HeldIn(skb[k := v], rest, Holds(v))
  {
    forall x
      ensures Count(InSlots(skb[k := v]), x) == Count(Skbs(rest), x) + Count(Holds(v), x)
    {
      InSlotsUpdate(skb, k, v, x);
    }
  }

  lemma BooksBegin(s: Tx, l: Label)
    requires Layout(s) && Enabled(s, l) && Books(s) && Bounded(Step(s, l)) && (l.Begin? || l.BeginRaw?)
    requires Fits(s, s.cur)
    ensures Books(Step(s, l))
  {
    hide Slot, Skbs, Mappings, InSlots, Wire, Count;
    HeldBegin(s.skb, Slot(s.cur, s.size), s.cells[FreedTo(s)..], Step(s, l).pc.f.skb);
  }

  lemma BooksMap(s: Tx)
    requires Layout(s) && Enabled(s, Map) && Books(s) && Bounded(Step(s, Map))
    requires Fits(s, Step(s, Map).cur)
    ensures Books(Step(s, Map))
  {
    hide Slot, Skbs, Mappings, InSlots, Wire, Count;
    assert Step(s, Map).skb == s.skb;
  }

  lemma WireSlice(frames: seq<Frame>, marks: seq<bool>, since: nat, pc: Pc, cells: seq<Cell>, f: Frame, ic: bool)
    requires OnWire(frames, marks, since, pc, cells) && !pc.Marked?
    ensures OnWire(frames + [f], marks + [ic], since, Marked(f, ic), cells)
  {
    var n := |frames|;
    assert (frames + [f])[since..n] == frames[since..n];
    assert (marks + [ic])[since..n] == marks[since..n];
  }

  lemma WireGrow(frames: seq<Frame>, marks: seq<bool>, since: nat, pc: Pc, cells: seq<Cell>)
    requires OnWire(frames, marks, since, pc, cells) && pc.Marked?
    ensures OnWire(frames, marks, since, Published(pc.f), cells + FrameCells(pc.f, pc.ic))
  {
    var fs, ms := frames[since..], marks[since..];
    var n := |fs| - 1;
    assert fs[..n] == frames[since..|frames| - 1] && ms[..n] == marks[since..|frames| - 1];
    assert frames[since..|frames|] == fs && marks[since..|frames|] == ms;
  }

  lemma BooksMark(s: Tx)
    requires Shaped(s) && PcOk(s.pc) && Enabled(s, Mark) && Bounded(s) && Books(s) && Bounded(Step(s, Mark))
    ensures Books(Step(s, Mark))
  {
    hide Slot, Skbs, Mappings, InSlots, Wire, Count;
    WireSlice(s.frames, s.marks, s.base.frames, s.pc, s.cells, s.pc.f, Step(s, Mark).pc.ic);
  }

  lemma HeldPublish(skb: seq<Option<Skb>>, cells: seq<Cell>, fr: nat, f: Frame, ic: bool)
    requires fr <= |cells| && |f.segs| >= 1
    requires HeldIn(skb, cells[fr..], Holds(f.skb))
    ensures HeldIn(skb, (cells + FrameCells(f, ic))[fr..], [])
  {
    hide Skbs, InSlots, Count, Holds, FrameCell;
    var c := FrameCells(f, ic);
    assert c[..|f.segs|] == c;
    FrameSkbs(f, ic, |f.segs|);
    assert (cells + c)[fr..] == cells[fr..] + c;
    SkbsAppend(cells[fr..], c);
    forall x
      ensures Count(InSlots(skb), x) == Count(Skbs((cells + c)[fr..]), x) + Count([], x)
    {
      CountAppend(Skbs(cells[fr..]), Holds(f.skb), x);
      CountNothing(x);
    }
  }

  lemma CountNothing(x: Skb)
    ensures Count([], x) == 0
  {
  }

  lemma LoggedPublish(accepted: seq<Skb>, freed: seq<Skb>, unmapped: seq<Seg>, base: Base,
                      cells: seq<Cell>, fr: nat, un: nat, f: Frame, ic: bool)
    requires fr <= |cells| && un <= |cells| && |f.segs| >= 1
    requires Logged(accepted, freed, unmapped, base, cells, fr, un)
    ensures Logged(accepted + Holds(f.skb), freed, unmapped, base, cells + FrameCells(f, ic), fr, un)
  {
    hide Skbs, Mappings, Count, Holds, FrameCell;
    var c := FrameCells(f, ic);
    assert c[..|f.segs|] == c;
    FrameSkbs(f, ic, |f.segs|);
    SkbsAppend(cells, c);
    assert (cells + c)[..fr] == cells[..fr] && (cells + c)[..un] == cells[..un];
    assert base.accepted + Skbs(cells) + Holds(f.skb) == base.accepted + (Skbs(cells) + Holds(f.skb));
  }

  lemma BooksPublish(s: Tx)
    requires Shaped(s) && PcOk(s.pc) && Enabled(s, Publish) && Bounded(s) && Books(s) && Bounded(Step(s, Publish))
    ensures Books(Step(s, Publish))
  {
    hide Slot, Skbs, Mappings, InSlots, Wire, Count;
    var f, ic := s.pc.f, s.pc.ic;
    LoggedPublish(s.accepted, s.freed, s.unmapped, s.base, s.cells, FreedTo(s), UnmappedTo(s), f, ic);
    HeldPublish(s.skb, s.cells, FreedTo(s), f, ic);
    WireGrow(s.frames, s.marks, s.base.frames, s.pc, s.cells);
  }

  lemma LoggedUnmap(accepted: seq<Skb>, freed: seq<Skb>, unmapped: seq<Seg>, base: Base,
                    cells: seq<Cell>, p: nat)
    requires p < |cells| && Logged(accepted, freed, unmapped, base, cells, p, p)
    ensures Logged(accepted, freed, unmapped + Mapping(cells[p].desc.buf, cells[p].desc.len), base,
                   cells, p, p + 1)
  {
    MappingsSnoc(cells, p);
  }

  /** What one reclaiming step changes in the histories. */
  ghost predicate Reclaimed(s: Tx, s': Tx, freed: seq<Skb>, unmapped: seq<Seg>) {
    && s'.cells == s.cells && s'.base == s.base && s'.accepted == s.accepted
    && s'.frames == s.frames && s'.marks == s.marks && s'.dirty == s.dirty
    && s'.freed == s.freed + freed && s'.unmapped == s.unmapped + unmapped
    && Adding(s'.pc) == Adding(s.pc) == [] && !s.pc.Marked? && !s'.pc.Marked?
  }

  lemma UnmapEffect(s: Tx)
    requires Layout(s) && Enabled(s, CleanUnmap) && Fits(s, s.dirty)
    ensures var c := s.cells[s.dirty].desc;
            Reclaimed(s, Step(s, CleanUnmap), [], Mapping(c.buf, c.len))
    ensures Step(s, CleanUnmap).skb == s.skb && Step(s, CleanUnmap).pc == Unmapped
  {
    hide Slot, Skbs, Mappings, InSlots, Wire, Count;
    var k := Slot(s.dirty, s.size);
    assert FitsLive(s, s.dirty, s.desc[k], s.skb[k], s.dma[k]);
  }

  lemma BooksUnmapped(s: Tx, s': Tx)
    requires s.pc.Checked? && s'.pc.Unmapped? && s.dirty < |s.cells| && Books(s)
    requires var c := s.cells[s.dirty].desc; Reclaimed(s, s', [], Mapping(c.buf, c.len))
    requires s'.skb == s.skb
    ensures Books(s')
  {
    hide Slot, Skbs, Mappings, InSlots, Wire, Count;
    LoggedUnmap(s.accepted, s.freed, s.unmapped, s.base, s.cells, s.dirty);
  }

  lemma BooksUnmap(s: Tx)
    requires Layout(s) && Enabled(s, CleanUnmap) && Books(s) && Fits(s, s.dirty)
    ensures Bounded(Step(s, CleanUnmap)) && Books(Step(s, CleanUnmap))
  {
    hide Slot, Skbs, Mappings, InSlots, Wire, Count;
    UnmapEffect(s);
    BooksUnmapped(s, Step(s, CleanUnmap));
  }

  lemma HeldFree(skb: seq<Option<Skb>>, k: nat, cells: seq<Cell>, p: nat)
    requires k < |skb| && p < |cells| && skb[k] == cells[p].skb
    requires HeldIn(skb, cells[p..], [])
    ensures HeldIn(skb[k := None], cells[p + 1..], [])
    ensures Skbs(cells[..p + 1]) == Skbs(cells[..p]) + Holds(cells[p].skb)
  {
    SkbsHead(cells, p);
    forall x
      ensures Count(InSlots(skb[k := None]), x) == Count(Skbs(cells[p + 1..]), x) + Count([], x)
    {
      CountAppend(Holds(cells[p].skb), Skbs(cells[p + 1..]), x);
      InSlotsUpdate(skb, k, None, x);
    }
  }

  lemma FreeEffect(s: Tx)
    requires Layout(s) && Enabled(s, CleanFree) && Fits(s, s.dirty)
    ensures Reclaimed(s, Step(s, CleanFree), Holds(s.cells[s.dirty].skb), [])
    ensures Step(s, CleanFree).skb == s.skb[Slot(s.dirty, s.size) := None]
    ensures s.skb[Slot(s.dirty, s.size)] == s.cells[s.dirty].skb
    ensures Step(s, CleanFree).pc == Freed
  {
    hide Slot, Skbs, Mappings, InSlots, Wire, Count;
    var k := Slot(s.dirty, s.size);
    assert FitsLive(s, s.dirty, s.desc[k], s.skb[k], s.dma[k]);
  }

  lemma BooksFreed(s: Tx, s': Tx, k: nat)
    requires s.pc.Unmapped? && s'.pc.Freed? && s.dirty < |s.cells| && Books(s)
    requires Reclaimed(s, s', Holds(s.cells[s.dirty].skb), [])
    requires k < |s.skb| && s.skb[k] == s.cells[s.dirty].skb && s'.skb == s.skb[k := None]
    ensures Books(s')
  {
    hide Slot, Skbs, Mappings, InSlots, Wire, Count;
    HeldFree(s.skb, k, s.cells, s.dirty);
  }

  lemma BooksFree(s: Tx)
    requires Layout(s) && Enabled(s, CleanFree) && Books(s) && Fits(s, s.dirty)
    ensures Bounded(Step(s, CleanFree)) && Books(Step(s, CleanFree))
  {
    hide Slot, Skbs, Mappings, InSlots, Wire, Count;
    FreeEffect(s);
    BooksFreed(s, Step(s, CleanFree), Slot(s.dirty, s.size));
  }

  lemma BooksAdvance(s: Tx)
    requires Shaped(s) && PcOk(s.pc) && Enabled(s, CleanAdvance) && Bounded(s) && Books(s) && Bounded(Step(s, CleanAdvance))
    ensures Books(Step(s, CleanAdvance))
  {
    hide Slot, Skbs, Mappings, InSlots, Wire, Count;
  }

  /** A reset frees everything the ring still held. */
  lemma ResetSettles(accepted: seq<Skb>, freed: seq<Skb>, unmapped: seq<Seg>, base: Base,
                     cells: seq<Cell>, fr: nat, un: nat, skb: seq<Option<Skb>>, x: Skb)
    requires fr <= |cells| && un <= |cells|
    requires Logged(accepted, freed, unmapped, base, cells, fr, un) && HeldIn(skb, cells[fr..], [])
    ensures Count(accepted, x) == Count(freed + InSlots(skb), x)
  {
    var old', new' := Skbs(cells[..fr]), Skbs(cells[fr..]);
    assert cells[..fr] + cells[fr..] == cells;
    SkbsAppend(cells[..fr], cells[fr..]);
    CountAppend(base.accepted, Skbs(cells), x);
    CountAppend(old', new', x);
    CountAppend(base.freed, old', x);
    CountAppend(freed, InSlots(skb), x);
  }

  lemma SettledByReset(s: Tx)
    requires Bounded(s) && Books(s) && s.pc.Idle?
    ensures forall x :: Count(s.accepted, x) == Count(s.freed + InSlots(s.skb), x)
  {
    hide InSlots, Skbs, Mappings, Wire, Count;
    forall x
      ensures Count(s.accepted, x) == Count(s.freed + InSlots(s.skb), x)
    {
      ResetSettles(s.accepted, s.freed, s.unmapped, s.base, s.cells, FreedTo(s), UnmappedTo(s), s.skb, x);
    }
  }

  /** Histories that start over. */
  lemma BooksAfresh(s: Tx)
    requires s.cells == [] && s.dirty == 0 && s.pc.Idle? && |s.marks| == |s.frames|
    requires s.accepted == s.base.accepted && s.freed == s.base.freed && s.unmapped == s.base.unmapped
    requires forall x :: Count(s.accepted, x) == Count(s.freed, x)
    requires forall k :: 0 <= k < |s.skb| ==> s.skb[k] == None
    requires s.base.frames == |s.frames|
    ensures Bounded(s) && Books(s)
  {
    InSlotsNone(s.skb);
    assert s.cells[..0] == [] && s.cells[0..] == [];
    var n := |s.frames|;
    assert s.frames[n..n] == [] && s.marks[n..n] == [];
    assert Skbs(s.cells) == [] && Mappings(s.cells) == [] && Wire(s.frames[n..n], s.marks[n..n]) == [];
    hide InSlots, Skbs, Mappings, Wire, Count;
    assert Logged(s.accepted, s.freed, s.unmapped, s.base, s.cells, FreedTo(s), UnmappedTo(s));
    assert HeldIn(s.skb, s.cells[FreedTo(s)..], Adding(s.pc));
  }

  lemma BooksReset(s: Tx)
    requires Shaped(s) && PcOk(s.pc) && Enabled(s, Reset) && Bounded(s) && Books(s) && Bounded(Step(s, Reset))
    ensures Books(Step(s, Reset))
  {
    SettledByReset(s);
    hide InSlots, Skbs, Mappings, SlotMappings, Wire, Count, Slot;
    BooksAfresh(Step(s, Reset));
  }

  // ---------------------------------------------------------------- every step, every run

  lemma StepImage(s: Tx, l: Label)
    requires Layout(s) && Image(s) && Enabled(s, l)
    ensures Layout(Step(s, l)) && Image(Step(s, l))
  {
    if Touches(l) { ImageTouch(s, l); }
    else if Quiet(l) { ImageQuiet(s, l); }
    else if l.Publish? { ImagePublish(s); }
    else if l.Engine? { ImageEngine(s); }
    else if l.Reset? { ImageReset(s); }
    else { ImageClean(s, l); }
  }

  lemma StepBooks(s: Tx, l: Label)
    requires Layout(s) && Image(s) && Books(s) && Enabled(s, l) && Layout(Step(s, l))
    ensures Books(Step(s, l))
  {
    hide Slot, Skbs, Mappings, InSlots, Wire, Count;
    assert s.dirty < s.dirty + s.size && Fits(s, s.dirty);
    if Bookless(l) { BooksSame(s, l); }
    else if l.Begin? || l.BeginRaw? {
      assert Fits(s, s.cur);
      BooksBegin(s, l);
    }
    else if l.Map? {
      assert Fits(s, Step(s, l).cur);
      BooksMap(s);
    }
    else if l.Mark? { BooksMark(s); }
    else if l.Publish? { BooksPublish(s); }
    else if l.CleanUnmap? { BooksUnmap(s); }
    else if l.CleanFree? { BooksFree(s); }
    else if l.CleanAdvance? { BooksAdvance(s); }
    else { BooksReset(s); }
  }

  /** Every step, by the driver or by the engine, keeps the ring's invariant. */
  lemma StepKeepsBase(s: Tx, l: Label)
    requires BaseInv(s) && Enabled(s, l)
    ensures BaseInv(Step(s, l))
  {
    StepImage(s, l);
    StepBooks(s, l);
  }

  // ---------------------------------------------------------------- the engine

  /** Where the engine may act, it reads a published descriptor, complete and in turn. */
  lemma EngineReadsPublished(s: Tx)
    requires BaseInv(s) && EngineInv(s) && Enabled(s, Engine)
    ensures s.eng < |s.cells|
    ensures s.desc[Slot(s.eng, s.size)] == Worn(s.cells[s.eng].desc, Residue(s.base, s.eng))
  {
    assert OwnFits(s, s.eng);
    assert Fits(s, s.eng);
  }

  /** What the driver reclaims, the engine has released. */
  lemma CleanBehindEngine(s: Tx)
    requires BaseInv(s) && EngineInv(s) && Enabled(s, CleanCheck)
    ensures s.dirty < s.eng
  {
    assert OwnFits(s, s.dirty);
  }

  /** Writing the slot at `cur` leaves every other slot's ownership bit alone. */
  lemma OwnTouchElsewhere(s: Tx, l: Label, p: nat)
    requires Layout(s) && Enabled(s, l) && Touches(l) && Layout(Step(s, l))
    requires s.dirty <= p < s.dirty + s.size && p != Step(s, l).cur
    ensures Step(s, l).desc[Slot(p, s.size)].own == s.desc[Slot(p, s.size)].own
  {
    hide Slot;
    Elsewhere(s, Step(s, l), Step(s, l).cur, p);
  }

  lemma OwnTouch(s: Tx, l: Label, p: nat)
    requires Layout(s) && Enabled(s, l) && Touches(l) && Layout(Step(s, l))
    requires s.dirty <= p < s.dirty + s.size && OwnFits(s, p)
    ensures OwnFits(Step(s, l), p)
  {
    hide Slot;
    if p != Step(s, l).cur { OwnTouchElsewhere(s, l, p); }
  }

  lemma OwnPublish(s: Tx, p: nat)
    requires Layout(s) && EngineInv(s) && Enabled(s, Publish) && Layout(Step(s, Publish))
    requires s.dirty <= p < s.dirty + s.size && OwnFits(s, p)
    ensures OwnFits(Step(s, Publish), p)
  {
    hide Slot;
    if p != |s.cells| { Elsewhere(s, Step(s, Publish), |s.cells|, p); }
  }

  lemma OwnClean(s: Tx, l: Label, p: nat)
    requires Layout(s) && EngineInv(s) && Enabled(s, l) && Layout(Step(s, l))
    requires Reclaims(l) || l.CleanAdvance?
    requires OwnFits(s, s.dirty)
    requires Step(s, l).dirty <= p < Step(s, l).dirty + s.size
    requires p < s.dirty + s.size ==> OwnFits(s, p)
    ensures OwnFits(Step(s, l), p)
  {
    hide Slot;
    if l.CleanAdvance? && p == s.dirty + s.size {
      SlotPeriodic(s.dirty, s.size);
    } else if p != s.dirty {
      Elsewhere(s, Step(s, l), s.dirty, p);
    }
  }

  lemma OwnEngine(s: Tx, p: nat)
    requires Layout(s) && EngineInv(s) && Enabled(s, Engine) && s.eng < |s.cells|
    requires s.dirty <= p < s.dirty + s.size && OwnFits(s, p)
    ensures OwnFits(Step(s, Engine), p)
  {
    hide Slot;
    if p != s.eng { Elsewhere(s, Step(s, Engine), s.eng, p); }
  }

  lemma OwnQuiet(s: Tx, l: Label, p: nat)
    requires Layout(s) && EngineInv(s) && Enabled(s, l) && Quiet(l) && Layout(Step(s, l))
    requires Step(s, l).dirty <= p < Step(s, l).dirty + Step(s, l).size
    ensures OwnFits(Step(s, l), p)
  {
    hide Slot;
    assert OwnFits(s, p);
  }

  /** Only reclaiming moves the window. */
  lemma WindowMoves(s: Tx, l: Label)
    requires Layout(s) && Enabled(s, l) && !l.Reset?
    ensures Step(s, l).size == s.size
    ensures Step(s, l).dirty == s.dirty || (l.CleanAdvance? && Step(s, l).dirty == s.dirty + 1)
  {
    hide Slot, FrameCells, Coalesce;
  }

  lemma StepOwn(s: Tx, l: Label, p: nat)
    requires BaseInv(s) && EngineInv(s) && Enabled(s, l) && !l.Reset? && Layout(Step(s, l))
    requires Step(s, l).dirty <= p < Step(s, l).dirty + Step(s, l).size
    ensures OwnFits(Step(s, l), p)
  {
    WindowMoves(s, l);
    assert OwnFits(s, s.dirty);
    assert p < s.dirty + s.size ==> OwnFits(s, p);
    hide Slot, Image, Books, Step, Enabled, OwnFits, Counted, Room;
    if Touches(l) { OwnTouch(s, l, p); }
    else if Quiet(l) { OwnQuiet(s, l, p); }
    else if l.Publish? { OwnPublish(s, p); }
    else if l.Engine? {
      EngineReadsPublished(s);
      OwnEngine(s, p);
    }
    else { OwnClean(s, l, p); }
  }

  lemma StepSent(s: Tx, l: Label)
    requires BaseInv(s) && EngineInv(s) && Enabled(s, l) && !l.Reset?
    ensures SentFits(Step(s, l).sent, Step(s, l).eng, Step(s, l).cells, Step(s, l).base)
  {
    hide Slot, Image, Books;
    if l.Engine? { EngineReadsPublished(s); }
  }

  lemma StepEngineBounds(s: Tx, l: Label)
    requires BaseInv(s) && EngineInv(s) && Enabled(s, l) && !l.Reset?
    ensures var s' := Step(s, l);
            && s'.dirty <= s'.eng <= |s'.cells|
            && (Cleaning(s'.pc) ==> s'.dirty < s'.eng)
  {
    hide Slot, Image, Books;
    if l.Engine? { EngineReadsPublished(s); }
    if l.CleanCheck? { CleanBehindEngine(s); }
  }

  /** Every step but a reset keeps the engine and the driver in agreement. */
  lemma StepKeepsEngine(s: Tx, l: Label)
    requires BaseInv(s) && EngineInv(s) && Enabled(s, l) && !l.Reset?
    ensures Shaped(Step(s, l)) && EngineInv(Step(s, l))
  {
    StepImage(s, l);
    StepSent(s, l);
    StepEngineBounds(s, l);
    var s' := Step(s, l);
    forall p: nat | s'.dirty <= p < s'.dirty + s'.size
      ensures OwnFits(s', p)
    {
      StepOwn(s, l, p);
    }
  }
}

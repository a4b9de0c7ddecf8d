/** The transmit ring as a state machine over the stores the driver makes to it.

One step is one store to memory the DMA engine can see, together with the
driver-private stores beside it; the engine's own step may come between any two
of them. Positions are unbounded; `TxDriver` relates them to the 32-bit
counters.
*/
module TxModel {
  import opened Ring
  import opened Slots

  /** The identity of a socket buffer. */
  type Skb = nat

  /** One mapped stretch of a frame: its DMA address and its length. */
  datatype Seg = Seg(buf: nat, len: nat)

  /** A frame handed to the ring: the linear part, then the page fragments.
      Frames of the raw sender carry no socket buffer. */
  datatype Frame = Frame(skb: Option<Skb>, csum: bool, segs: seq<Seg>)

  /** A transmit descriptor: the ownership bit, first and last segment,
      interrupt on completion, checksum insertion, buffer and length. */
  datatype Desc = Desc(own: bool, fs: bool, ls: bool, ic: bool, csum: bool, buf: nat, len: nat)

  /** What the ring holds for one published position. */
  datatype Cell = Cell(desc: Desc, skb: Option<Skb>)

  /** Where the code holding the ring is. `Mapped`, `Ready` and `Built` name the
      segment being worked on. */
  datatype Pc =
    | Idle
    | Start(f: Frame)
    | Mapped(f: Frame, i: nat)
    | Ready(f: Frame, i: nat)
    | Built(f: Frame, i: nat)
    | Closed(f: Frame)
    | Marked(f: Frame, ic: bool)
    | Published(f: Frame)
    | Advanced
    | Checked
    | Unmapped
    | Freed
    | Released

  /** The histories at the last ring reset, and the descriptors it left behind. */
  datatype Base = Base(accepted: seq<Skb>, freed: seq<Skb>, unmapped: seq<Seg>, frames: nat, rest: seq<Desc>)

  datatype Tx = Tx(
    size: nat, maxFrags: nat, coal: nat,
    cur: nat, dirty: nat, count: nat, stopped: bool,
    desc: seq<Desc>, skb: seq<Option<Skb>>, dma: seq<nat>,
    eng: nat,
    pending: Option<Frame>, pc: Pc,
    // histories: what was published since the last reset, what the engine read,
    // and what was accepted, freed, unmapped and decided since the beginning
    cells: seq<Cell>, sent: seq<Desc>,
    accepted: seq<Skb>, freed: seq<Skb>, unmapped: seq<Seg>,
    frames: seq<Frame>, marks: seq<bool>,
    base: Base)

  const ZEROED := Desc(false, false, false, false, false, 0, 0)

  predicate ValidConfig(size: nat, coal: nat) {
    size > 0 && coal > 0
  }

  function Init(size: nat, maxFrags: nat, coal: nat): Tx {
    Tx(size, maxFrags, coal, 0, 0, 0, false,
       seq(size, _ => ZEROED), seq(size, _ => None), seq(size, _ => 0),
       0, None, Idle,
       [], [], [], [], [], [], [],
       Base([], [], [], 0, []))
  }

  // ---------------------------------------------------------------- descriptor operations

  /** What is left of a segment's length in the 11-bit size field of its buffer. */
  function BufferSize(len: nat): nat {
    if len > 2048 then 2047 else len % 2048
  }

  /** Initialize: only the ownership bit is cleared. */
  function InitDesc(d: Desc): Desc {
    d.(own := false)
  }

  /** Prepare: segment kind and length; checksum insertion is switched on but never off,
      and the ownership bit is untouched. */
  function Prepare(d: Desc, isFirst: bool, len: nat, csum: bool): Desc {
    d.(fs := isFirst, len := BufferSize(len), csum := d.csum || csum)
  }

  /** Close: last segment, interrupt on completion. */
  function Close(d: Desc): Desc {
    d.(ls := true, ic := true)
  }

  function ClearIc(d: Desc): Desc {
    d.(ic := false)
  }

  /** Release: everything but the buffer address is cleared. */
  function Release(d: Desc): Desc {
    ZEROED.(buf := d.buf)
  }

  // ---------------------------------------------------------------- reference for a frame

  /** The interrupt decision for `n` more descriptors, and the new running count. */
  function Coalesce(count: nat, n: nat, coal: nat): (bool, nat) {
    if coal > count + n then (false, count + n) else (true, 0)
  }

  /** What the engine is meant to read for segment `j` of frame `f`. */
  function FrameCell(f: Frame, ic: bool, j: nat): Cell
    requires j < |f.segs|
  {
    var last := j == |f.segs| - 1;
    Cell(Desc(true, j == 0, last, last && ic, f.csum, f.segs[j].buf, BufferSize(f.segs[j].len)),
         if j == 0 then f.skb else None)
  }

  /** What the last reset left in the slot that position `p` uses. A slot that comes
      round again has been released in between. */
  function Residue(base: Base, p: nat): Desc {
    if p < |base.rest| then base.rest[p] else ZEROED
  }

  /** The descriptor `d` written over the residue `r`. */
  function Worn(d: Desc, r: Desc): Desc {
    d.(ls := d.ls || r.ls, ic := if d.ls then d.ic else d.ic || r.ic, csum := d.csum || r.csum)
  }

  function FrameCells(f: Frame, ic: bool): (r: seq<Cell>)
    ensures |r| == |f.segs|
  {
    seq(|f.segs|, j requires 0 <= j < |f.segs| => FrameCell(f, ic, j))
  }

  /** All descriptors of a list of frames, in ring order. */
  function Wire(frames: seq<Frame>, marks: seq<bool>): seq<Cell>
    requires |frames| == |marks|
  {
    if frames == [] then []
    else
      var n := |frames| - 1;
      Wire(frames[..n], marks[..n]) + FrameCells(frames[n], marks[n])
  }

  /** The socket buffers stored in a list of cells. */
  function Skbs(cells: seq<Cell>): seq<Skb> {
    if cells == [] then []
    else
      var n := |cells| - 1;
      Skbs(cells[..n]) + Holds(cells[n].skb)
  }

  /** The mappings a list of cells owns; address 0 stands for "no mapping". */
  function Mappings(cells: seq<Cell>): seq<Seg> {
    if cells == [] then []
    else
      var n := |cells| - 1;
      Mappings(cells[..n]) + Mapping(cells[n].desc.buf, cells[n].desc.len)
  }

  function Mapping(buf: nat, len: nat): seq<Seg> {
    if buf == 0 then [] else [Seg(buf, len)]
  }

  /** The mappings a reset unmaps: only those of slots that hold a socket buffer. */
  function SlotMappings(skb: seq<Option<Skb>>, dma: seq<nat>, desc: seq<Desc>): seq<Seg>
    requires |skb| == |dma| == |desc|
  {
    if skb == [] then []
    else
      var n := |skb| - 1;
      SlotMappings(skb[..n], dma[..n], desc[..n])
      + (if skb[n].Some? then Mapping(dma[n], desc[n].len) else [])
  }

  // ---------------------------------------------------------------- steps

  datatype Label =
    | Check(f: Frame)
    | Busy(f: Frame)
    | Begin
    | BeginRaw(f: Frame)
    | Map
    | PrepareSeg
    | OwnFrag
    | CloseLast
    | Mark
    | Publish
    | Advance
    | StopCheck
    | CleanCheck
    | CleanUnmap
    | CleanFree
    | CleanRelease
    | CleanAdvance
    | Wake
    | Engine
    | Reset

  /** Free descriptors, as `stmmac_tx_avail` counts them. */
  function Avail(s: Tx): int {
    s.dirty + s.size - s.cur - 1
  }

  /** The driver is adding a frame: `cur` may lag behind what is published. */
  predicate Sending(pc: Pc) {
    pc.Start? || pc.Mapped? || pc.Ready? || pc.Built? || pc.Closed? || pc.Marked?
    || pc.Published? || pc.Advanced?
  }

  predicate Cleaning(pc: Pc) {
    pc.Checked? || pc.Unmapped? || pc.Freed? || pc.Released?
  }

  predicate KernelFrame(f: Frame, maxFrags: nat) {
    f.skb.Some? && 1 <= |f.segs| <= maxFrags + 1
  }

  predicate RawFrame(f: Frame) {
    f.skb.None? && |f.segs| == 1
  }

  ghost predicate Shaped(s: Tx) {
    s.size > 0 && |s.desc| == |s.skb| == |s.dma| == s.size
  }

  ghost predicate Enabled(s: Tx, l: Label)
    requires Shaped(s)
  {
    match l
    case Check(f) =>
      !Sending(s.pc) && s.pending.None? && KernelFrame(f, s.maxFrags) && Avail(s) >= |f.segs|
    case Busy(f) =>
      !Sending(s.pc) && s.pending.None? && KernelFrame(f, s.maxFrags) && Avail(s) < |f.segs|
    case Begin => s.pc.Idle? && s.pending.Some?
    case BeginRaw(f) => s.pc.Idle? && s.pending.None? && RawFrame(f) && Avail(s) >= 1
    case Map => s.pc.Start? || (s.pc.Built? && s.pc.i + 1 < |s.pc.f.segs|)
    case PrepareSeg => s.pc.Mapped?
    case OwnFrag => s.pc.Ready?
    case CloseLast => s.pc.Built? && s.pc.i + 1 == |s.pc.f.segs|
    case Mark => s.pc.Closed?
    case Publish => s.pc.Marked?
    case Advance => s.pc.Published?
    case StopCheck => s.pc.Advanced?
    case CleanCheck =>
      s.pc.Idle? && s.dirty != s.cur && !s.desc[Slot(s.dirty, s.size)].own
    case CleanUnmap => s.pc.Checked?
    case CleanFree => s.pc.Unmapped?
    case CleanRelease => s.pc.Freed?
    case CleanAdvance => s.pc.Released?
    case Wake => s.pc.Idle?
    case Engine => s.desc[Slot(s.eng, s.size)].own
    case Reset => s.pc.Idle?
  }

  /** The position of segment `i` of the frame being added. */
  function At(s: Tx, i: nat): nat {
    |s.cells| + i
  }

  function SetDesc(s: Tx, p: nat, d: Desc): Tx
    requires s.size > 0 && |s.desc| == s.size
  {
    s.(desc := s.desc[Slot(p, s.size) := d])
  }

  function DescAt(s: Tx, p: nat): Desc
    requires s.size > 0 && |s.desc| == s.size
  {
    s.desc[Slot(p, s.size)]
  }

  /** The pc fits the frame it carries. */
  predicate PcOk(pc: Pc) {
    match pc
    case Start(f) => |f.segs| >= 1
    case Mapped(f, i) => i < |f.segs|
    case Ready(f, i) => 0 < i < |f.segs|
    case Built(f, i) => i < |f.segs|
    case Closed(f) => |f.segs| >= 1
    case Marked(f, _) => |f.segs| >= 1
    case Published(f) => |f.segs| >= 1
    case _ => true
  }

  function DoMap(s: Tx, f: Frame, i: nat, cur: nat): Tx
    requires Shaped(s) && i < |f.segs|
  {
    var k := Slot(cur, s.size);
    s.(cur := cur,
       desc := s.desc[k := s.desc[k].(buf := f.segs[i].buf)],
       dma := s.dma[k := f.segs[i].buf],
       skb := if i == 0 then s.skb else s.skb[k := None],
       pc := Mapped(f, i))
  }

  function Step(s: Tx, l: Label): Tx
    requires Shaped(s) && PcOk(s.pc) && Enabled(s, l)
  {
    match l
    case Check(f) => s.(pending := Some(f))
    case Busy(f) => s.(stopped := true)
    case Begin =>
      s.(pending := None, pc := Start(s.pending.value),
         skb := s.skb[Slot(s.cur, s.size) := s.pending.value.skb])
    case BeginRaw(f) => s.(pc := Start(f))
    case Map =>
      if s.pc.Start? then DoMap(s, s.pc.f, 0, s.cur)
      else DoMap(s, s.pc.f, s.pc.i + 1, s.cur + 1)
    case PrepareSeg =>
      var f, i := s.pc.f, s.pc.i;
      SetDesc(s, s.cur, Prepare(DescAt(s, s.cur), i == 0, f.segs[i].len, f.csum))
        .(pc := if i == 0 then Built(f, i) else Ready(f, i))
    case OwnFrag =>
      SetDesc(s, s.cur, DescAt(s, s.cur).(own := true)).(pc := Built(s.pc.f, s.pc.i))
    case CloseLast =>
      SetDesc(s, s.cur, Close(DescAt(s, s.cur))).(pc := Closed(s.pc.f))
    case Mark =>
      var f := s.pc.f;
      var (ic, count) := Coalesce(s.count, |f.segs|, s.coal);
      SetDesc(s, s.cur, if ic then DescAt(s, s.cur) else ClearIc(DescAt(s, s.cur)))
        .(pc := Marked(f, ic), count := count, frames := s.frames + [f], marks := s.marks + [ic])
    case Publish =>
      var f := s.pc.f;
      var p := At(s, 0);
      SetDesc(s, p, DescAt(s, p).(own := true))
        .(pc := Published(f), cells := s.cells + FrameCells(f, s.pc.ic),
          accepted := s.accepted + Holds(f.skb))
    case Advance =>
      s.(cur := s.cur + 1, pc := if s.pc.f.skb.Some? then Advanced else Idle)
    case StopCheck =>
      s.(stopped := s.stopped || Avail(s) <= s.maxFrags + 1, pc := Idle)
    case CleanCheck => s.(pc := Checked)
    case CleanUnmap =>
      var k := Slot(s.dirty, s.size);
      s.(unmapped := s.unmapped + Mapping(s.dma[k], s.desc[k].len), dma := s.dma[k := 0],
         pc := Unmapped)
    case CleanFree =>
      var k := Slot(s.dirty, s.size);
      s.(freed := s.freed + Holds(s.skb[k]), skb := s.skb[k := None], pc := Freed)
    case CleanRelease =>
      SetDesc(s, s.dirty, Release(DescAt(s, s.dirty))).(pc := Released)
    case CleanAdvance => s.(dirty := s.dirty + 1, pc := Idle)
    case Wake =>
      s.(stopped := s.stopped && !(Avail(s) > s.size / 4))
    case Engine =>
      SetDesc(s, s.eng, DescAt(s, s.eng).(own := false))
        .(eng := s.eng + 1, sent := s.sent + [DescAt(s, s.eng)])
    case Reset =>
      var freed := s.freed + InSlots(s.skb);
      var unmapped := s.unmapped + SlotMappings(s.skb, s.dma, s.desc);
      var rest := seq(s.size, k requires 0 <= k < s.size => InitDesc(s.desc[k]));
      s.(cur := 0, dirty := 0, stopped := false, desc := rest, skb := seq(s.size, _ => None),
         dma := seq(s.size, k requires 0 <= k < s.size => if s.skb[k].Some? then 0 else s.dma[k]),
         eng := Slot(s.eng, s.size), cells := [], sent := [],
         freed := freed, unmapped := unmapped,
         base := Base(s.accepted, freed, unmapped, |s.frames|, rest))
  }
}

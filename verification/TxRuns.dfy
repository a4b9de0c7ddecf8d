/** Safety of the transmit ring over whole runs: any interleaving of the driver's
steps with the engine's. */
module TxRuns {
  import opened Ring
  import opened Slots
  import opened TxModel
  import opened TxInvariant

  /** The state after performing `ls` from `s`, if every step was possible. */
  ghost function Exec(s: Tx, ls: seq<Label>): Option<Tx> {
    if ls == [] then Some(s)
    else
      var n := |ls| - 1;
      match Exec(s, ls[..n])
      case None => None
      case Some(m) =>
        if Shaped(m) && PcOk(m.pc) && Enabled(m, ls[n]) then Some(Step(m, ls[n])) else None
  }

  ghost predicate NoReset(ls: seq<Label>) {
    forall i :: 0 <= i < |ls| ==> !ls[i].Reset?
  }

  ghost predicate NoRaw(ls: seq<Label>) {
    forall i :: 0 <= i < |ls| ==> !ls[i].BeginRaw?
  }

  /** `s` is reached from a freshly opened ring by the steps `ls`. */
  ghost predicate Reaches(size: nat, maxFrags: nat, coal: nat, ls: seq<Label>, s: Tx) {
    ValidConfig(size, coal) && Exec(Init(size, maxFrags, coal), ls) == Some(s)
  }

  lemma InitInv(size: nat, maxFrags: nat, coal: nat)
    requires ValidConfig(size, coal)
    ensures BaseInv(Init(size, maxFrags, coal)) && EngineInv(Init(size, maxFrags, coal))
  {
    hide Slot, Books;
    BooksAfresh(Init(size, maxFrags, coal));
  }

  lemma {:induction false} RunKeeps(s: Tx, ls: seq<Label>, s': Tx)
    requires BaseInv(s) && Exec(s, ls) == Some(s')
    ensures BaseInv(s')
    ensures EngineInv(s) && NoReset(ls) ==> EngineInv(s')
  {
    if ls != [] {
      var n := |ls| - 1;
      var m := Exec(s, ls[..n]).value;
      RunKeeps(s, ls[..n], m);
      StepKeepsBase(m, ls[n]);
      if EngineInv(s) && NoReset(ls) {
        assert NoReset(ls[..n]);
        StepKeepsEngine(m, ls[n]);
      }
    }
  }

  lemma ReachInv(size: nat, maxFrags: nat, coal: nat, ls: seq<Label>, s: Tx)
    requires Reaches(size, maxFrags, coal, ls, s)
    ensures BaseInv(s) && (NoReset(ls) ==> EngineInv(s))
  {
    InitInv(size, maxFrags, coal);
    RunKeeps(Init(size, maxFrags, coal), ls, s);
  }

  // ---------------------------------------------------------------- the engine's view

  ghost function Descs(cells: seq<Cell>): seq<Desc> {
    seq(|cells|, i requires 0 <= i < |cells| => cells[i].desc)
  }

  /** The residue of the last reset has no effect on what is written over it. */
  ghost predicate CleanRest(base: Base) {
    forall k :: 0 <= k < |base.rest| ==> Blank(base.rest[k])
  }

  /** Every reset of the run happened with the ring drained and the engine at slot 0. */
  ghost predicate TidyResets(s: Tx, ls: seq<Label>) {
    if ls == [] then true
    else
      var n := |ls| - 1;
      && TidyResets(s, ls[..n])
      && (ls[n].Reset? && Exec(s, ls[..n]).Some? ==> Tidy(Exec(s, ls[..n]).value))
  }

  ghost predicate Tidy(m: Tx) {
    m.size > 0 && m.dirty == m.cur && Slot(m.eng, m.size) == 0
  }

  lemma {:induction false} NoResetIsTidy(s: Tx, ls: seq<Label>)
    requires NoReset(ls)
    ensures TidyResets(s, ls)
  {
    if ls != [] {
      assert NoReset(ls[..|ls| - 1]);
      NoResetIsTidy(s, ls[..|ls| - 1]);
    }
  }

  lemma DrainedIsBlank(s: Tx, k: nat)
    requires BaseInv(s) && s.pc.Idle? && s.dirty == s.cur && CleanRest(s.base) && k < s.size
    ensures Blank(s.desc[k])
  {
    var p := WindowCovers(s.dirty, k, s.size);
    hide Slot, Books;
    assert Fits(s, p);
  }

  lemma DrainedRest(s: Tx)
    requires BaseInv(s) && CleanRest(s.base) && Enabled(s, Reset) && s.dirty == s.cur
    ensures CleanRest(Step(s, Reset).base)
  {
    forall k | 0 <= k < s.size
      ensures Blank(s.desc[k])
    {
      DrainedIsBlank(s, k);
    }
    hide Image, Books, InSlots, SlotMappings, Slot;
  }

  lemma TidyReset(s: Tx)
    requires BaseInv(s) && EngineInv(s) && CleanRest(s.base) && Enabled(s, Reset) && Tidy(s)
    ensures Shaped(Step(s, Reset)) && EngineInv(Step(s, Reset)) && CleanRest(Step(s, Reset).base)
  {
    DrainedRest(s);
    hide Image, Books, CleanRest, InSlots, SlotMappings;
    ResetAgreesIff(s);
  }

  lemma StepSameBase(s: Tx, l: Label)
    requires Shaped(s) && PcOk(s.pc) && Enabled(s, l) && !l.Reset?
    ensures Step(s, l).base == s.base
  {
    hide Slot, FrameCells, Coalesce;
  }

  lemma {:induction false} ExecBase(s: Tx, ls: seq<Label>, s': Tx)
    requires Exec(s, ls) == Some(s') && NoReset(ls)
    ensures s'.base == s.base
  {
    if ls != [] {
      var n := |ls| - 1;
      var m := Exec(s, ls[..n]).value;
      assert NoReset(ls[..n]);
      ExecBase(s, ls[..n], m);
      StepSameBase(m, ls[n]);
      hide Step;
    }
  }

  /** Tidy resets keep the engine and the driver in agreement, and leave nothing behind. */
  lemma {:induction false} TidyRunKeeps(s: Tx, ls: seq<Label>, s': Tx)
    requires BaseInv(s) && EngineInv(s) && CleanRest(s.base)
    requires TidyResets(s, ls) && Exec(s, ls) == Some(s')
    ensures BaseInv(s') && EngineInv(s') && CleanRest(s'.base)
  {
    if ls != [] {
      var n := |ls| - 1;
      var m := Exec(s, ls[..n]).value;
      TidyRunKeeps(s, ls[..n], m);
      StepKeepsBase(m, ls[n]);
      if ls[n].Reset? {
        TidyReset(m);
      } else {
        StepKeepsEngine(m, ls[n]);
        StepSameBase(m, ls[n]);
      }
      hide BaseInv, EngineInv, CleanRest, Step, Tidy;
    }
  }

  lemma ReachTidy(size: nat, maxFrags: nat, coal: nat, ls: seq<Label>, s: Tx)
    requires Reaches(size, maxFrags, coal, ls, s) && TidyResets(Init(size, maxFrags, coal), ls)
    ensures BaseInv(s) && EngineInv(s) && CleanRest(s.base) && s.size == size
  {
    InitInv(size, maxFrags, coal);
    hide BaseInv, EngineInv, TidyResets;
    TidyRunKeeps(Init(size, maxFrags, coal), ls, s);
    SetupFixed(Init(size, maxFrags, coal), ls, s);
  }

  lemma WornBlank(d: Desc, r: Desc)
    requires Blank(r)
    ensures Worn(d, r) == d
  {
  }

  lemma CleanResidue(base: Base, p: nat)
    requires CleanRest(base)
    ensures Blank(Residue(base, p))
  {
  }

  lemma SentIsPrefix(sent: seq<Desc>, eng: nat, cells: seq<Cell>, base: Base)
    requires SentFits(sent, eng, cells, base) && CleanRest(base)
    ensures sent == Descs(cells)[..eng]
  {
    forall p | 0 <= p < eng
      ensures sent[p] == cells[p].desc
    {
      CleanResidue(base, p);
      WornBlank(cells[p].desc, Residue(base, p));
    }
  }

  /** What the engine has read and may read next, against the frames handed over since
      the last reset. */
  ghost predicate ReadsInOrder(s: Tx) {
    var n := |s.frames| - (if s.pc.Marked? then 1 else 0);
    && |s.marks| == |s.frames| && s.base.frames <= n
    && s.cells == Wire(s.frames[s.base.frames..n], s.marks[s.base.frames..n])
    && s.eng <= |s.cells|
    && s.sent == Descs(s.cells)[..s.eng]
  }

  lemma ReadsInOrderHolds(s: Tx)
    requires OnWire(s.frames, s.marks, s.base.frames, s.pc, s.cells)
    requires SentFits(s.sent, s.eng, s.cells, s.base) && CleanRest(s.base)
    ensures ReadsInOrder(s)
  {
    hide Wire, Descs;
    SentIsPrefix(s.sent, s.eng, s.cells, s.base);
  }

  lemma NextIsExact(s: Tx)
    requires BaseInv(s) && EngineInv(s) && CleanRest(s.base) && Enabled(s, Engine)
    ensures s.eng < |s.cells| && s.desc[Slot(s.eng, s.size)] == s.cells[s.eng].desc
  {
    EngineReadsPublished(s);
    CleanResidue(s.base, s.eng);
    hide BaseInv, EngineInv, CleanRest, Slot;
    WornBlank(s.cells[s.eng].desc, Residue(s.base, s.eng));
  }

  /** The descriptors of frame `f` follow `before`: all owned, the first marked as first,
      the last as last, the interrupt asked for on the last one if `interrupt`, each with
      its segment's address and length and the frame's checksum mode, and the socket
      buffer with the first. */
  ghost predicate Appended(before: seq<Cell>, after: seq<Cell>, f: Frame, interrupt: bool) {
    && |after| == |before| + |f.segs|
    && after[..|before|] == before
    && forall j :: 0 <= j < |f.segs| ==>
         var c := after[|before| + j];
         && c.desc.own && (c.desc.fs <==> j == 0) && (c.desc.ls <==> j == |f.segs| - 1)
         && (c.desc.ic <==> j == |f.segs| - 1 && interrupt)
         && c.desc.csum == f.csum && c.desc.buf == f.segs[j].buf
         && (f.segs[j].len < 2048 ==> c.desc.len == f.segs[j].len)
         && c.skb == (if j == 0 then f.skb else None)
  }

  lemma CellsAppended(before: seq<Cell>, f: Frame, ic: bool)
    ensures Appended(before, before + FrameCells(f, ic), f, ic)
  {
    forall j | 0 <= j < |f.segs|
      ensures (before + FrameCells(f, ic))[|before| + j] == FrameCell(f, ic, j)
    {
    }
  }

  /** The reference for a list of frames, one frame at a time. */
  lemma WireAppends(frames: seq<Frame>, marks: seq<bool>, f: Frame, ic: bool)
    requires |frames| == |marks|
    ensures Appended(Wire(frames, marks), Wire(frames + [f], marks + [ic]), f, ic)
  {
    assert (frames + [f])[..|frames|] == frames && (marks + [ic])[..|marks|] == marks;
    hide Appended, FrameCells;
    CellsAppended(Wire(frames, marks), f, ic);
  }

  /** Whatever the interleaving, everything the engine has read is, in order, the
      finished descriptors of the frames handed over, and what it could read next
      continues that list: no descriptor of a frame still being written. */
  lemma EngineSeesOnlyFinishedFrames(size: nat, maxFrags: nat, coal: nat, ls: seq<Label>, s: Tx)
    requires Reaches(size, maxFrags, coal, ls, s) && TidyResets(Init(size, maxFrags, coal), ls)
    ensures Shaped(s) && ReadsInOrder(s)
    ensures Enabled(s, Engine) ==>
              s.eng < |s.cells| && s.desc[Slot(s.eng, s.size)] == s.cells[s.eng].desc
  {
    ReachTidy(size, maxFrags, coal, ls, s);
    ReadsInOrderHolds(s);
    hide ReadsInOrder, Image, Books, CleanRest, Slot;
    if Enabled(s, Engine) { NextIsExact(s); }
  }

  /** Between calls, the engine is between the reclaimed and the added positions and
      owns exactly the descriptors from its own position on. */
  lemma OwnershipAtRest(size: nat, maxFrags: nat, coal: nat, ls: seq<Label>, s: Tx, p: nat)
    requires Reaches(size, maxFrags, coal, ls, s) && TidyResets(Init(size, maxFrags, coal), ls)
    requires s.pc.Idle? && s.dirty <= p < s.dirty + size
    ensures s.size == size && Shaped(s) && s.dirty <= s.eng <= s.cur
    ensures s.desc[Slot(p, size)].own <==> s.eng <= p < s.cur
  {
    ReachTidy(size, maxFrags, coal, ls, s);
    assert OwnFits(s, p);
  }

  /** A descriptor is only unmapped, freed or released after the engine gave it up,
      and its slot is not one the engine will look at before it is refilled. */
  lemma ReclaimAfterEngine(size: nat, maxFrags: nat, coal: nat, ls: seq<Label>, s: Tx)
    requires Reaches(size, maxFrags, coal, ls, s) && TidyResets(Init(size, maxFrags, coal), ls)
    requires Cleaning(s.pc)
    ensures s.size == size && Shaped(s)
    ensures s.dirty < s.eng && !s.desc[Slot(s.dirty, size)].own
    ensures s.eng < s.dirty + size && Slot(s.eng, size) != Slot(s.dirty, size)
  {
    ReachTidy(size, maxFrags, coal, ls, s);
    assert OwnFits(s, s.dirty);
    SlotsDistinct(s.dirty, s.eng, size);
  }

  /** On every run: live positions sit in distinct slots, one slot is always free, and the
      space check counts exactly what is outstanding. */
  lemma RingNeverLaps(size: nat, maxFrags: nat, coal: nat, ls: seq<Label>, s: Tx, p: nat, q: nat)
    requires Reaches(size, maxFrags, coal, ls, s)
    requires s.dirty <= p < q <= |s.cells| + Reserved(s.pc)
    ensures s.size == size && |s.cells| + Reserved(s.pc) - s.dirty <= size - 1
    ensures Slot(p, size) != Slot(q, size)
    ensures !Sending(s.pc) ==> Avail(s) == size - 1 - (|s.cells| - s.dirty) >= 0
  {
    ReachInv(size, maxFrags, coal, ls, s);
    SetupFixed(Init(size, maxFrags, coal), ls, s);
    SlotsDistinct(p, q, size);
  }

  // ---------------------------------------------------------------- conservation

  /** In every run, resets included, what was accepted is what was freed plus what
      the slots still hold: no socket buffer is lost or freed twice. */
  lemma SkbConservation(size: nat, maxFrags: nat, coal: nat, ls: seq<Label>, s: Tx)
    requires Reaches(size, maxFrags, coal, ls, s) && !Building(s.pc)
    ensures multiset(s.accepted) == multiset(s.freed) + multiset(InSlots(s.skb))
  {
    ReachInv(size, maxFrags, coal, ls, s);
    forall x
      ensures multiset(s.accepted)[x] == (multiset(s.freed) + multiset(InSlots(s.skb)))[x]
    {
      ResetSettles(s.accepted, s.freed, s.unmapped, s.base, s.cells, FreedTo(s), UnmappedTo(s), s.skb, x);
      CountAppend(s.freed, InSlots(s.skb), x);
      CountIsMultiplicity(s.accepted, x);
      CountIsMultiplicity(s.freed, x);
      CountIsMultiplicity(InSlots(s.skb), x);
    }
  }

  /** A drained ring has freed everything it accepted, exactly once. */
  lemma DrainedFreesAll(size: nat, maxFrags: nat, coal: nat, ls: seq<Label>, s: Tx)
    requires Reaches(size, maxFrags, coal, ls, s) && s.pc.Idle? && s.dirty == s.cur
    ensures multiset(s.accepted) == multiset(s.freed)
  {
    ReachInv(size, maxFrags, coal, ls, s);
    SkbConservation(size, maxFrags, coal, ls, s);
    forall k | 0 <= k < |s.skb|
      ensures s.skb[k] == None
    {
      var p := WindowCovers(s.dirty, k, s.size);
      assert Fits(s, p);
    }
    InSlotsNone(s.skb);
  }

  lemma {:induction false} SkbsPrefix(cells: seq<Cell>, n: nat)
    requires n <= |cells|
    ensures Skbs(cells[..n]) <= Skbs(cells) && Mappings(cells[..n]) <= Mappings(cells)
  {
    assert cells[..n] + cells[n..] == cells;
    SkbsAppend(cells[..n], cells[n..]);
    MappingsAppend(cells[..n], cells[n..]);
  }

  /** Without resets, socket buffers are freed in the order they were accepted, and
      each mapping is unmapped exactly once, in ring order, with its own length,
      exactly for the descriptors reclaimed. */
  lemma ReclaimInOrder(size: nat, maxFrags: nat, coal: nat, ls: seq<Label>, s: Tx)
    requires Reaches(size, maxFrags, coal, ls, s) && NoReset(ls)
    ensures s.freed <= s.accepted == Skbs(s.cells)
    ensures s.unmapped <= Mappings(s.cells)
    ensures s.pc.Idle? ==> s.dirty <= |s.cells| && s.freed == Skbs(s.cells[..s.dirty])
                           && s.unmapped == Mappings(s.cells[..s.dirty])
  {
    ReachInv(size, maxFrags, coal, ls, s);
    ExecBase(Init(size, maxFrags, coal), ls, s);
    hide Exec, EngineInv;
    InOrderFromStart(s);
  }

  lemma LoggedFromStart(accepted: seq<Skb>, freed: seq<Skb>, unmapped: seq<Seg>, base: Base,
                        cells: seq<Cell>, fr: nat, un: nat)
    requires fr <= |cells| && un <= |cells| && Logged(accepted, freed, unmapped, base, cells, fr, un)
    requires base.accepted == [] && base.freed == [] && base.unmapped == []
    ensures accepted == Skbs(cells) && freed == Skbs(cells[..fr]) <= accepted
    ensures unmapped == Mappings(cells[..un]) <= Mappings(cells)
  {
    hide Skbs, Mappings, Count;
    SkbsPrefix(cells, fr);
    SkbsPrefix(cells, un);
    assert [] + Skbs(cells) == Skbs(cells);
  }

  lemma InOrderFromStart(s: Tx)
    requires BaseInv(s) && s.base == Base([], [], [], 0, [])
    ensures s.freed <= s.accepted == Skbs(s.cells) && s.unmapped <= Mappings(s.cells)
    ensures s.pc.Idle? ==> s.dirty <= |s.cells| && s.freed == Skbs(s.cells[..s.dirty])
                           && s.unmapped == Mappings(s.cells[..s.dirty])
  {
    assert Logged(s.accepted, s.freed, s.unmapped, s.base, s.cells, FreedTo(s), UnmappedTo(s));
    hide Image, Books, Skbs, Mappings, Logged, Slot;
    LoggedFromStart(s.accepted, s.freed, s.unmapped, s.base, s.cells, FreedTo(s), UnmappedTo(s));
  }

  /** On every run, resets included: what was freed since the last reset is, in order, the
      socket buffers of the descriptors reclaimed, and so for the mappings; up to that
      reset as many of each socket buffer were freed as accepted. */
  lemma ReclaimSinceReset(size: nat, maxFrags: nat, coal: nat, ls: seq<Label>, s: Tx)
    requires Reaches(size, maxFrags, coal, ls, s) && s.pc.Idle?
    ensures s.dirty <= |s.cells|
    ensures s.accepted == s.base.accepted + Skbs(s.cells)
    ensures s.freed == s.base.freed + Skbs(s.cells[..s.dirty])
    ensures s.unmapped == s.base.unmapped + Mappings(s.cells[..s.dirty])
    ensures multiset(s.base.accepted) == multiset(s.base.freed)
  {
    ReachInv(size, maxFrags, coal, ls, s);
    assert Logged(s.accepted, s.freed, s.unmapped, s.base, s.cells, FreedTo(s), UnmappedTo(s));
    hide Image, Books, EngineInv, Exec, Skbs, Mappings;
    forall x
      ensures multiset(s.base.accepted)[x] == multiset(s.base.freed)[x]
    {
      CountIsMultiplicity(s.base.accepted, x);
      CountIsMultiplicity(s.base.freed, x);
    }
  }

  /** The segments of a list of frames, in order. */
  ghost function Segments(frames: seq<Frame>): seq<Seg> {
    if frames == [] then []
    else
      var n := |frames| - 1;
      Segments(frames[..n]) + frames[n].segs
  }

  lemma {:induction false} MappingsBound(cells: seq<Cell>)
    ensures |Mappings(cells)| <= |cells|
  {
    if cells != [] { MappingsBound(cells[..|cells| - 1]); }
  }

  /** What the 11-bit length field holds: the length below 2048, 0 at 2048, 2047 above. */
  lemma LengthField(d: Desc, isFirst: bool, len: nat, csum: bool)
    ensures Prepare(d, isFirst, len, csum).len == (if len < 2048 then len else if len == 2048 then 0 else 2047)
  {
  }

  /** A segment that reclaiming unmaps as it was mapped. */
  predicate Unmappable(g: Seg) {
    g.buf != 0 && g.len < 2048
  }

  /** One more mapping: the lists agree when they did before and this one does. */
  lemma SnocMappingsIff(ms: seq<Seg>, segs: seq<Seg>, g: Seg)
    requires |ms| <= |segs|
    ensures ms + Mapping(g.buf, BufferSize(g.len)) == segs + [g] <==> ms == segs && Unmappable(g)
  {
    var m := Mapping(g.buf, BufferSize(g.len));
    if ms + m == segs + [g] {
      assert |ms| == |segs| && |m| == 1;
      assert (ms + m)[..|ms|] == ms && (segs + [g])[..|ms|] == segs;
      assert (ms + m)[|ms|] == m[0] && (segs + [g])[|ms|] == g;
    }
  }

  /** `cells` are descriptors prepared for `segs`. */
  ghost predicate PreparedFor(cells: seq<Cell>, segs: seq<Seg>) {
    && |cells| == |segs|
    && forall j :: 0 <= j < |segs| ==> cells[j].desc.buf == segs[j].buf && cells[j].desc.len == BufferSize(segs[j].len)
  }

  ghost predicate AllUnmappable(segs: seq<Seg>) {
    forall j :: 0 <= j < |segs| ==> Unmappable(segs[j])
  }

  lemma {:induction false} MappingsIff(cells: seq<Cell>, segs: seq<Seg>)
    requires PreparedFor(cells, segs)
    ensures Mappings(cells) == segs <==> AllUnmappable(segs)
  {
    if segs != [] {
      var n := |segs| - 1;
      MappingsIff(cells[..n], segs[..n]);
      MappingsBound(cells[..n]);
      hide Unmappable, Mapping, BufferSize;
      SnocMappingsIff(Mappings(cells[..n]), segs[..n], segs[n]);
      assert segs == segs[..n] + [segs[n]];
    }
  }

  /** Reclaiming a frame unmaps exactly what was mapped for it, address and length,
      exactly when no segment is 2048 bytes or longer (and none is mapped at 0): the
      length is read back from an 11-bit field. */
  lemma FrameUnmapsIff(f: Frame, ic: bool)
    ensures Mappings(FrameCells(f, ic)) == f.segs <==> AllUnmappable(f.segs)
  {
    MappingsIff(FrameCells(f, ic), f.segs);
  }

  lemma {:induction false} WireUnmapsBound(frames: seq<Frame>, marks: seq<bool>)
    requires |frames| == |marks|
    ensures |Mappings(Wire(frames, marks))| <= |Segments(frames)|
  {
    if frames != [] {
      var n := |frames| - 1;
      WireUnmapsBound(frames[..n], marks[..n]);
      MappingsBound(FrameCells(frames[n], marks[n]));
      MappingsAppend(Wire(frames[..n], marks[..n]), FrameCells(frames[n], marks[n]));
    }
  }

  /** Concatenations whose parts are no longer than their counterparts agree part by part. */
  lemma PartsAgree(a: seq<Seg>, b: seq<Seg>, a': seq<Seg>, b': seq<Seg>)
    requires |a| <= |a'| && |b| <= |b'|
    ensures a + b == a' + b' <==> a == a' && b == b'
  {
    if a + b == a' + b' {
      assert (a + b)[..|a|] == a && (a' + b')[..|a|] == a';
      assert (a + b)[|a|..] == b && (a' + b')[|a|..] == b';
    }
  }

  lemma WireSnoc(frames: seq<Frame>, marks: seq<bool>)
    requires |frames| == |marks| > 0
    ensures var n := |frames| - 1;
            && Mappings(Wire(frames, marks))
               == Mappings(Wire(frames[..n], marks[..n])) + Mappings(FrameCells(frames[n], marks[n]))
            && Segments(frames) == Segments(frames[..n]) + frames[n].segs
  {
    var n := |frames| - 1;
    MappingsAppend(Wire(frames[..n], marks[..n]), FrameCells(frames[n], marks[n]));
  }

  ghost predicate AllFramesUnmappable(frames: seq<Frame>) {
    forall i :: 0 <= i < |frames| ==> AllUnmappable(frames[i].segs)
  }

  lemma AllFramesSnoc(frames: seq<Frame>)
    requires frames != []
    ensures var n := |frames| - 1;
            AllFramesUnmappable(frames) <==> AllFramesUnmappable(frames[..n]) && AllUnmappable(frames[n].segs)
  {
    hide AllUnmappable;
  }

  lemma {:induction false} WireUnmapsIff(frames: seq<Frame>, marks: seq<bool>)
    requires |frames| == |marks|
    ensures Mappings(Wire(frames, marks)) == Segments(frames) <==> AllFramesUnmappable(frames)
  {
    if frames != [] {
      var n := |frames| - 1;
      WireSnoc(frames, marks);
      AllFramesSnoc(frames);
      hide AllUnmappable, AllFramesUnmappable, Mappings, Segments, Wire, FrameCells;
      WireUnmapsIff(frames[..n], marks[..n]);
      FrameUnmapsIff(frames[n], marks[n]);
      WireUnmapsBound(frames[..n], marks[..n]);
      MappingsBound(FrameCells(frames[n], marks[n]));
      PartsAgree(Mappings(Wire(frames[..n], marks[..n])), Mappings(FrameCells(frames[n], marks[n])),
                 Segments(frames[..n]), frames[n].segs);
    }
  }

  /** In a run without resets, once the ring is drained, every segment mapped has been
      unmapped exactly once, in order and as it was mapped, exactly when all segments fit
      the length field. */
  lemma DrainedUnmapsAllIff(size: nat, maxFrags: nat, coal: nat, ls: seq<Label>, s: Tx)
    requires Reaches(size, maxFrags, coal, ls, s) && NoReset(ls) && s.pc.Idle? && s.dirty == s.cur
    ensures s.unmapped == Segments(s.frames) <==> AllFramesUnmappable(s.frames)
  {
    hide Exec, BaseInv, EngineInv, Wire, Mappings, AllFramesUnmappable, Skbs, Segments, TidyResets;
    ReclaimInOrder(size, maxFrags, coal, ls, s);
    NoResetIsTidy(Init(size, maxFrags, coal), ls);
    EngineSeesOnlyFinishedFrames(size, maxFrags, coal, ls, s);
    ExecBase(Init(size, maxFrags, coal), ls, s);
    DrainedCells(size, maxFrags, coal, ls, s);
    assert s.cells[..s.dirty] == s.cells;
    assert s.frames[0..|s.frames|] == s.frames && s.marks[0..|s.frames|] == s.marks;
    WireUnmapsIff(s.frames, s.marks);
  }

  lemma DrainedCells(size: nat, maxFrags: nat, coal: nat, ls: seq<Label>, s: Tx)
    requires Reaches(size, maxFrags, coal, ls, s) && s.pc.Idle? && s.dirty == s.cur
    ensures s.dirty == |s.cells|
  {
    ReachInv(size, maxFrags, coal, ls, s);
  }

  // ---------------------------------------------------------------- resets

  /** A reset leaves driver and engine in agreement exactly when the engine happened
      to stand at slot 0: the ring starts over there, the engine does not. */
  lemma ResetAgreesIff(s: Tx)
    requires BaseInv(s) && EngineInv(s) && Enabled(s, Reset)
    ensures EngineInv(Step(s, Reset)) <==> Slot(s.eng, s.size) == 0
  {
  }

  /** A reset unmaps a published descriptor's buffer exactly when the descriptor is
      the first of a frame with a socket buffer; a fragment's or a raw frame's mapping
      is passed over and stays recorded. */
  lemma ResetKeepsFragmentMappings(s: Tx, p: nat)
    requires BaseInv(s) && Enabled(s, Reset) && s.dirty <= p < s.cur
    requires s.cells[p].desc.buf != 0
    ensures Step(s, Reset).dma[Slot(p, s.size)]
            == (if s.cells[p].skb.Some? then 0 else s.cells[p].desc.buf)
    ensures Seg(s.cells[p].desc.buf, s.cells[p].desc.len) in SlotMappings(s.skb, s.dma, s.desc)
            || s.cells[p].skb.None?
  {
    assert Fits(s, p);
    var k := Slot(p, s.size);
    if s.cells[p].skb.Some? { SlotMappingsHas(s.skb, s.dma, s.desc, k); }
  }

  lemma {:induction false} SlotMappingsHas(skb: seq<Option<Skb>>, dma: seq<nat>, desc: seq<Desc>, k: nat)
    requires |skb| == |dma| == |desc| && k < |skb| && skb[k].Some? && dma[k] != 0
    ensures Seg(dma[k], desc[k].len) in SlotMappings(skb, dma, desc)
  {
    var n := |skb| - 1;
    if k < n {
      SlotMappingsHas(skb[..n], dma[..n], desc[..n], k);
    }
  }

  // ---------------------------------------------------------------- one small frame

  /** Neither a reset nor the raw sender. */
  ghost predicate Plain(ls: seq<Label>) {
    NoReset(ls) && NoRaw(ls)
  }

  lemma Then(s: Tx, ls: seq<Label>, m: Tx, l: Label) returns (ls': seq<Label>)
    requires Exec(s, ls) == Some(m) && Shaped(m) && PcOk(m.pc) && Enabled(m, l)
    requires Plain(ls) && !l.Reset? && !l.BeginRaw?
    ensures Exec(s, ls') == Some(Step(m, l)) && Plain(ls')
  {
    ls' := ls + [l];
    assert ls'[..|ls|] == ls;
  }

  lemma {:induction false} ExecAppend(s: Tx, a: seq<Label>, b: seq<Label>)
    requires Exec(s, a).Some?
    ensures Exec(s, a + b) == Exec(Exec(s, a).value, b)
  {
    if b == [] {
      assert a + b == a;
    } else {
      var n := |b| - 1;
      assert (a + b)[..|a + b| - 1] == a + b[..n];
      ExecAppend(s, a, b[..n]);
    }
  }

  lemma {:induction false} PlainAppend(a: seq<Label>, b: seq<Label>)
    requires Plain(a) && Plain(b)
    ensures Plain(a + b)
  {
    assert forall i :: |a| <= i < |a + b| ==> (a + b)[i] == b[i - |a|];
  }

  const SMALL := Frame(Some(0), false, [Seg(1, 60)])

  predicate Resting(s: Tx) {
    s.pc.Idle? && s.pending.None?
  }

  ghost predicate SameSetup(s: Tx, s': Tx) {
    && s'.size == s.size && s'.maxFrags == s.maxFrags && s'.coal == s.coal
    && s'.dirty == s.dirty && s'.eng == s.eng && s'.pending == None
  }

  lemma WriteSmall(s: Tx) returns (ls: seq<Label>, s': Tx)
    requires Shaped(s) && Resting(s) && Avail(s) >= 1
    ensures Exec(s, ls) == Some(s') && Plain(ls) && Shaped(s') && SameSetup(s, s')
    ensures s'.pc == Closed(SMALL) && s'.cur == s.cur && s'.stopped == s.stopped
  {
    ls := Then(s, [], s, Check(SMALL));
    var a := Step(s, Check(SMALL));
    ls := Then(s, ls, a, Begin);
    var b := Step(a, Begin);
    ls := Then(s, ls, b, Map);
    var c := Step(b, Map);
    ls := Then(s, ls, c, PrepareSeg);
    var d := Step(c, PrepareSeg);
    ls := Then(s, ls, d, CloseLast);
    s' := Step(d, CloseLast);
  }

  lemma PublishSmall(s: Tx) returns (ls: seq<Label>, s': Tx)
    requires Shaped(s) && s.pc == Closed(SMALL) && s.pending == None
    ensures Exec(s, ls) == Some(s') && Plain(ls) && Shaped(s') && SameSetup(s, s')
    ensures s'.pc == Published(SMALL) && s'.cur == s.cur && s'.stopped == s.stopped
  {
    ls := Then(s, [], s, Mark);
    var a := Step(s, Mark);
    ls := Then(s, ls, a, Publish);
    s' := Step(a, Publish);
  }

  lemma FinishSmall(s: Tx) returns (ls: seq<Label>, s': Tx)
    requires Shaped(s) && s.pc == Published(SMALL) && s.pending == None
    ensures Exec(s, ls) == Some(s') && Plain(ls) && SameSetup(s, s') && Resting(s')
    ensures s'.cur == s.cur + 1
    ensures s'.stopped == ((s.stopped || Avail(s) - 1 <= s.maxFrags + 1) && !(Avail(s) - 1 > s.size / 4))
  {
    ls := Then(s, [], s, Advance);
    var a := Step(s, Advance);
    ls := Then(s, ls, a, StopCheck);
    var b := Step(a, StopCheck);
    ls := Then(s, ls, b, Wake);
    s' := Step(b, Wake);
  }

  /** The run that adds one single-descriptor frame and then lets tx_clean look. */
  lemma AddSmall(s: Tx) returns (ls: seq<Label>, s': Tx)
    requires BaseInv(s) && Resting(s) && Avail(s) >= 1
    ensures Exec(s, ls) == Some(s') && Plain(ls) && BaseInv(s') && SameSetup(s, s') && Resting(s')
    ensures s'.cur == s.cur + 1
    ensures s'.stopped == ((s.stopped || Avail(s) - 1 <= s.maxFrags + 1) && !(Avail(s) - 1 > s.size / 4))
    ensures EngineInv(s) ==> EngineInv(s')
  {
    var write, m := WriteSmall(s);
    var hand, n := PublishSmall(m);
    var end;
    end, s' := FinishSmall(n);
    ls := write + hand + end;
    ExecAppend(s, write, hand);
    ExecAppend(s, write + hand, end);
    PlainAppend(write, hand);
    PlainAppend(write + hand, end);
    RunKeeps(s, ls, s');
  }

  lemma EngineMayMove(s: Tx)
    requires Shaped(s) && EngineInv(s) && s.eng < |s.cells| && s.eng < s.dirty + s.size
    ensures Enabled(s, Engine)
  {
    assert OwnFits(s, s.eng);
  }

  lemma ResetDisagrees(m: Tx)
    requires Shaped(m) && PcOk(m.pc) && m.pc.Idle? && Slot(m.eng, m.size) != 0
    ensures Shaped(Step(m, Reset)) && !EngineInv(Step(m, Reset))
  {
  }

  lemma {:induction false} ExecTwo(s: Tx, a: Label, b: Label)
    requires Shaped(s) && PcOk(s.pc) && Enabled(s, a)
    requires var m := Step(s, a); Shaped(m) && PcOk(m.pc) && Enabled(m, b)
    ensures Exec(s, [a, b]) == Some(Step(Step(s, a), b))
  {
    assert [a, b][..1] == [a] && [a][..0] == [];
    assert Exec(s, [a]) == Some(Step(s, a));
  }

  /** The engine completes one descriptor and the ring is reset. */
  lemma SendOneAndReset(s: Tx) returns (s': Tx)
    requires Shaped(s) && EngineInv(s) && Resting(s) && s.eng < |s.cells| && s.eng < s.dirty + s.size
    requires Slot(s.eng + 1, s.size) != 0
    ensures Exec(s, [Engine, Reset]) == Some(s') && Shaped(s') && !EngineInv(s')
  {
    EngineMayMove(s);
    ExecTwo(s, Engine, Reset);
    s' := Step(Step(s, Engine), Reset);
    ResetDisagrees(Step(s, Engine));
  }

  lemma SmallIsPending(s: Tx)
    requires BaseInv(s) && EngineInv(s) && Resting(s) && s.eng < s.cur
    ensures Shaped(s) && s.eng < |s.cells| && s.eng < s.dirty + s.size
  {
  }

  /** What a freshly opened ring is like. */
  lemma FreshRing(size: nat, maxFrags: nat, coal: nat) returns (s: Tx)
    requires ValidConfig(size, coal)
    ensures Reaches(size, maxFrags, coal, [], s) && BaseInv(s) && EngineInv(s)
    ensures Resting(s) && !s.stopped && s.size == size && s.maxFrags == maxFrags
    ensures s.cur == s.dirty == s.eng == 0
  {
    InitInv(size, maxFrags, coal);
    s := Init(size, maxFrags, coal);
  }

  lemma ReachOn(size: nat, maxFrags: nat, coal: nat, a: seq<Label>, s: Tx, b: seq<Label>, s': Tx)
    requires Reaches(size, maxFrags, coal, a, s) && Exec(s, b) == Some(s')
    ensures Reaches(size, maxFrags, coal, a + b, s')
  {
    ExecAppend(Init(size, maxFrags, coal), a, b);
  }

  lemma FromFresh(size: nat, maxFrags: nat, coal: nat, s0: Tx, ls: seq<Label>, s: Tx)
    requires Reaches(size, maxFrags, coal, [], s0) && Exec(s0, ls) == Some(s)
    ensures Reaches(size, maxFrags, coal, ls, s)
  {
  }

  lemma SlotOfOne(size: nat)
    requires size >= 2
    ensures Slot(1, size) == 1
  {
    ModUnique(1, size, 0, 1);
  }

  /** Agreement really is lost: on any ring of at least two slots, sending one frame and
      resetting does it. */
  lemma ResetBreaksAgreement(size: nat, maxFrags: nat, coal: nat) returns (ls: seq<Label>, s: Tx)
    requires ValidConfig(size, coal) && size >= 2
    ensures Reaches(size, maxFrags, coal, ls, s) && Shaped(s) && !EngineInv(s)
  {
    SlotOfOne(size);
    hide BaseInv, EngineInv, Reaches, Slot, Exec, Step, Enabled, Plain;
    var s0 := FreshRing(size, maxFrags, coal);
    var add, s1 := AddSmall(s0);
    FromFresh(size, maxFrags, coal, s0, add, s1);
    SmallIsPending(s1);
    s := SendOneAndReset(s1);
    ls := add + [Engine, Reset];
    ReachOn(size, maxFrags, coal, add, s1, [Engine, Reset], s);
  }

  // ---------------------------------------------------------------- what a reset leaves in the descriptors

  lemma {:induction false} WireEndsLast(frames: seq<Frame>, marks: seq<bool>)
    requires |frames| == |marks|
    ensures var c := Wire(frames, marks); c != [] ==> c[|c| - 1].desc.ls
  {
    if frames != [] {
      var n := |frames| - 1;
      WireEndsLast(frames[..n], marks[..n]);
    }
  }

  /** What the slot of a published position holds while nothing is being reclaimed. */
  lemma LiveIsWorn(s: Tx, p: nat)
    requires BaseInv(s) && s.dirty <= p < |s.cells| && !Cleaning(s.pc)
    ensures DescAt(s, p).(own := true) == Worn(s.cells[p].desc, Residue(s.base, p))
  {
    hide Slot, Books;
    assert Fits(s, p);
  }

  lemma LastCellIsLast(s: Tx)
    requires OnWire(s.frames, s.marks, s.base.frames, s.pc, s.cells) && !s.pc.Marked? && s.cells != []
    ensures s.cells[|s.cells| - 1].desc.ls
  {
    WireEndsLast(s.frames[s.base.frames..|s.frames|], s.marks[s.base.frames..|s.frames|]);
  }

  lemma NewestIsLast(s: Tx)
    requires BaseInv(s) && s.pc.Idle? && s.dirty < s.cur
    ensures DescAt(s, s.cur - 1).ls
  {
    hide Slot, Wire, Skbs, Mappings, InSlots;
    LastCellIsLast(s);
    LiveIsWorn(s, s.cur - 1);
  }

  lemma ResetLeavesBlankIff(s: Tx)
    requires BaseInv(s) && CleanRest(s.base) && Enabled(s, Reset)
    ensures CleanRest(Step(s, Reset).base) <==> s.dirty == s.cur
  {
    if s.dirty == s.cur {
      forall k | 0 <= k < s.size
        ensures Blank(s.desc[k])
      {
        DrainedIsBlank(s, k);
      }
    } else {
      NewestIsLast(s);
      assert !Blank(Step(s, Reset).base.rest[Slot(s.cur - 1, s.size)]);
    }
    hide Image, Books, InSlots, SlotMappings, Slot;
  }

  /** After tidy resets, one more leaves no control bits behind exactly when the ring was
      drained: otherwise the newest frame's last-segment bit, for one, is still there. */
  lemma ResetBlankIff(size: nat, maxFrags: nat, coal: nat, ls: seq<Label>, s: Tx)
    requires Reaches(size, maxFrags, coal, ls, s) && TidyResets(Init(size, maxFrags, coal), ls)
    requires Shaped(s) && PcOk(s.pc) && Enabled(s, Reset)
    ensures (forall k :: 0 <= k < s.size ==> Blank(Step(s, Reset).desc[k])) <==> s.dirty == s.cur
  {
    ReachTidy(size, maxFrags, coal, ls, s);
    ResetLeavesBlankIff(s);
    ResetRest(s);
  }

  lemma ResetShaped(s: Tx)
    requires Shaped(s) && PcOk(s.pc) && Enabled(s, Reset)
    ensures s.size > 0 && s.pc.Idle? && Shaped(Step(s, Reset))
  {
  }

  lemma ResetRest(s: Tx)
    requires Shaped(s) && PcOk(s.pc) && Enabled(s, Reset)
    ensures Step(s, Reset).base.rest == Step(s, Reset).desc && |Step(s, Reset).desc| == s.size
  {
  }

  /** A reset after tidy resets leaves the engine in agreement and the descriptors clean
      exactly when it is tidy itself. */
  lemma ResetTidyIff(size: nat, maxFrags: nat, coal: nat, ls: seq<Label>, s: Tx)
    requires Reaches(size, maxFrags, coal, ls, s) && TidyResets(Init(size, maxFrags, coal), ls)
    requires Shaped(s) && PcOk(s.pc) && Enabled(s, Reset)
    ensures Shaped(Step(s, Reset))
    ensures EngineInv(Step(s, Reset)) && CleanRest(Step(s, Reset).base) <==> Tidy(s)
  {
    ResetShaped(s);
    hide BaseInv, EngineInv, CleanRest, Step, Exec, Reaches, TidyResets, Shaped, Slot;
    ReachTidy(size, maxFrags, coal, ls, s);
    ResetAgreesIff(s);
    ResetLeavesBlankIff(s);
  }

  /** A published descriptor is the intended one exactly when the residue of its slot
      adds nothing to it. */
  lemma PublishedExactIff(s: Tx, p: nat)
    requires BaseInv(s) && s.dirty <= p < |s.cells| && !(p == s.dirty && s.pc.Released?)
    ensures var c, r := s.cells[p].desc, Residue(s.base, p);
            DescAt(s, p).(own := true) == c
            <==> (r.ls ==> c.ls) && (r.csum ==> c.csum) && (r.ic && !c.ls ==> c.ic)
  {
    assert Fits(s, p);
  }

  const PAIR := Frame(Some(1), false, [Seg(1, 60), Seg(2, 60)])

  lemma WritePairHead(s: Tx) returns (ls: seq<Label>, s': Tx)
    requires Shaped(s) && Resting(s) && Avail(s) >= 2 && s.maxFrags >= 1
    ensures Exec(s, ls) == Some(s') && Plain(ls) && Shaped(s') && s'.size == s.size
    ensures s'.pc == Built(PAIR, 0) && s'.cells == s.cells && s'.base == s.base && s'.dirty == s.dirty
  {
    ls := Then(s, [], s, Check(PAIR));
    var a := Step(s, Check(PAIR));
    ls := Then(s, ls, a, Begin);
    var b := Step(a, Begin);
    ls := Then(s, ls, b, Map);
    var c := Step(b, Map);
    ls := Then(s, ls, c, PrepareSeg);
    s' := Step(c, PrepareSeg);
  }

  lemma WritePairTail(s: Tx) returns (ls: seq<Label>, s': Tx)
    requires Shaped(s) && s.pc == Built(PAIR, 0)
    ensures Exec(s, ls) == Some(s') && Plain(ls) && Shaped(s') && s'.size == s.size
    ensures s'.pc == Closed(PAIR) && s'.cells == s.cells && s'.base == s.base && s'.dirty == s.dirty
  {
    ls := Then(s, [], s, Map);
    var a := Step(s, Map);
    ls := Then(s, ls, a, PrepareSeg);
    var b := Step(a, PrepareSeg);
    ls := Then(s, ls, b, OwnFrag);
    var c := Step(b, OwnFrag);
    ls := Then(s, ls, c, CloseLast);
    s' := Step(c, CloseLast);
  }

  lemma PublishPair(s: Tx) returns (ls: seq<Label>, s': Tx)
    requires Shaped(s) && s.pc == Closed(PAIR)
    ensures Exec(s, ls) == Some(s') && Plain(ls) && Shaped(s') && s'.size == s.size
    ensures s'.base == s.base && s'.dirty == s.dirty && DescAt(s', |s.cells|).own
    ensures s'.pc == Published(PAIR) && exists ic :: s'.cells == s.cells + FrameCells(PAIR, ic)
  {
    ls := Then(s, [], s, Mark);
    var a := Step(s, Mark);
    ls := Then(s, ls, a, Publish);
    s' := Step(a, Publish);
  }

  /** A frame of two descriptors added to a ring whose first slot still carries a
      last-segment bit is handed over with its head marked as its last segment. */
  lemma AddPair(s: Tx) returns (ls: seq<Label>, s': Tx)
    requires BaseInv(s) && Shaped(s) && Resting(s) && s.cells == [] && s.dirty == s.cur == 0
    requires s.size >= 3 && s.maxFrags >= 1
    requires s.base.rest != [] && s.base.rest[0].ls
    ensures Exec(s, ls) == Some(s') && Shaped(s') && s'.size == s.size && |s'.cells| == 2
    ensures !s'.cells[0].desc.ls && DescAt(s', 0).own && DescAt(s', 0).ls
  {
    hide Slot, BaseInv, FrameCells;
    var head, a := WritePairHead(s);
    var tail, b := WritePairTail(a);
    var end;
    end, s' := PublishPair(b);
    ls := head + tail + end;
    ExecAppend(s, head, tail);
    ExecAppend(s, head + tail, end);
    RunKeeps(s, ls, s');
    PairHeadIsCut(s');
  }

  lemma PairHeadIsCut(s: Tx)
    requires BaseInv(s) && s.pc == Published(PAIR) && s.base.rest != [] && s.base.rest[0].ls
    requires s.dirty == 0 && exists ic :: s.cells == [] + FrameCells(PAIR, ic)
    ensures |s.cells| == 2 && !s.cells[0].desc.ls && DescAt(s, 0).ls
  {
    LiveIsWorn(s, 0);
  }

  /** After a reset that dropped a frame in flight, the next frame with a fragment can
      reach the engine cut short after its head. */
  lemma ResetCutsNextFrame(size: nat, maxFrags: nat, coal: nat) returns (ls: seq<Label>, s: Tx)
    requires ValidConfig(size, coal) && size >= 3 && maxFrags >= 1
    ensures Reaches(size, maxFrags, coal, ls, s) && Shaped(s) && |s.cells| == 2
    ensures !s.cells[0].desc.ls && DescAt(s, 0).own && DescAt(s, 0).ls
  {
    var s0 := FreshRing(size, maxFrags, coal);
    hide Reaches, BaseInv, EngineInv;
    var add, s1 := AddSmall(s0);
    var s2 := ResetAfterOne(s1);
    ExecAppend(s0, add, [Reset]);
    RunKeeps(s0, add + [Reset], s2);
    var pair;
    pair, s := AddPair(s2);
    FromFresh(size, maxFrags, coal, s0, add + [Reset], s2);
    ReachOn(size, maxFrags, coal, add + [Reset], s2, pair, s);
    ls := add + [Reset] + pair;
  }

  lemma ResetAfterOne(s: Tx) returns (s': Tx)
    requires BaseInv(s) && Resting(s) && s.dirty == 0 && s.cur == 1 && s.size > 0
    ensures Exec(s, [Reset]) == Some(s')
    ensures Resting(s') && Shaped(s') && s'.cells == [] && s'.dirty == s'.cur == 0
    ensures s'.size == s.size && s'.maxFrags == s.maxFrags && s'.base.rest != [] && s'.base.rest[0].ls
  {
    NewestIsLast(s);
    ModUnique(0, s.size, 0, 0);
    hide Books, Image;
    ExecOne(s, Reset);
    s' := Step(s, Reset);
  }

  lemma {:induction false} ExecOne(s: Tx, l: Label)
    requires Shaped(s) && PcOk(s.pc) && Enabled(s, l)
    ensures Exec(s, [l]) == Some(Step(s, l))
  {
    assert [l][..0] == [];
  }

  // ---------------------------------------------------------------- flow control

  /** A raw send takes no frame's place: the queue is stopped, or room for the largest
      frame remains. */
  ghost predicate RawGuard(s: Tx) {
    s.stopped || Avail(s) >= s.maxFrags + 2
  }

  /** Every raw send of the run was made under the guard. */
  ghost predicate RawGuarded(s: Tx, ls: seq<Label>) {
    if ls == [] then true
    else
      var n := |ls| - 1;
      && RawGuarded(s, ls[..n])
      && (ls[n].BeginRaw? && Exec(s, ls[..n]).Some? ==> RawGuard(Exec(s, ls[..n]).value))
  }

  lemma {:induction false} NoRawIsGuarded(s: Tx, ls: seq<Label>)
    requires NoRaw(ls)
    ensures RawGuarded(s, ls)
  {
    if ls != [] {
      assert NoRaw(ls[..|ls| - 1]);
      NoRawIsGuarded(s, ls[..|ls| - 1]);
    }
  }

  /** A frame without a socket buffer is on its way in. */
  predicate RawInside(pc: Pc) {
    (Building(pc) || pc.Published?) && pc.f.skb.None?
  }

  /** Whenever nobody is adding a frame and the queue is awake, the largest frame fits,
      and so it will once the raw frame being added is in. */
  ghost predicate FlowInv(s: Tx) {
    && s.size / 4 >= s.maxFrags && s.size >= 2
    && (!Sending(s.pc) && !s.stopped ==> Avail(s) >= s.maxFrags + 1)
    && (RawInside(s.pc) && !s.stopped ==>
          s.dirty + s.size - (|s.cells| + Reserved(s.pc)) - 1 >= s.maxFrags + 1)
  }

  lemma StepKeepsFlow(s: Tx, l: Label)
    requires BaseInv(s) && FlowInv(s) && Enabled(s, l) && (l.BeginRaw? ==> RawGuard(s))
    ensures FlowInv(Step(s, l))
  {
    hide Slot, InSlots, SlotMappings, Books, Image, FrameCells, Coalesce, Mapping, Holds;
  }

  lemma {:induction false} RunKeepsFlow(s: Tx, ls: seq<Label>, s': Tx)
    requires BaseInv(s) && FlowInv(s) && RawGuarded(s, ls) && Exec(s, ls) == Some(s')
    ensures FlowInv(s')
  {
    if ls != [] {
      var n := |ls| - 1;
      var m := Exec(s, ls[..n]).value;
      RunKeeps(s, ls[..n], m);
      RunKeepsFlow(s, ls[..n], m);
      StepKeepsFlow(m, ls[n]);
      hide BaseInv, EngineInv, FlowInv, Step;
    }
  }

  /** With a quarter of the ring no smaller than the largest fragment count, over any mix
      of network frames, guarded raw frames, reclaiming and resets: whenever no frame is
      being added and the queue is awake, the largest frame fits. */
  lemma AwakeMeansRoom(size: nat, maxFrags: nat, coal: nat, ls: seq<Label>, s: Tx)
    requires size / 4 >= maxFrags && size >= 2
    requires Reaches(size, maxFrags, coal, ls, s) && RawGuarded(Init(size, maxFrags, coal), ls)
    requires !Sending(s.pc) && !s.stopped
    ensures s.maxFrags == maxFrags && Avail(s) >= maxFrags + 1
  {
    InitInv(size, maxFrags, coal);
    var s0 := Init(size, maxFrags, coal);
    assert FlowInv(s0);
    RunKeepsFlow(s0, ls, s);
    SetupFixed(s0, ls, s);
  }

  lemma StepSetup(m: Tx, l: Label)
    requires Shaped(m) && PcOk(m.pc) && Enabled(m, l)
    ensures var m' := Step(m, l); m'.size == m.size && m'.maxFrags == m.maxFrags && m'.coal == m.coal
  {
    hide Slot, InSlots, SlotMappings, FrameCells, Coalesce;
  }

  lemma {:induction false} SetupFixed(s: Tx, ls: seq<Label>, s': Tx)
    requires Exec(s, ls) == Some(s')
    ensures s'.size == s.size && s'.maxFrags == s.maxFrags && s'.coal == s.coal
  {
    if ls != [] {
      var n := |ls| - 1;
      var m := Exec(s, ls[..n]).value;
      SetupFixed(s, ls[..n], m);
      StepSetup(m, ls[n]);
      hide Step;
    }
  }

  /** No run, resets included, whose raw sends keep the guard finds the ring too full for
      a network frame while the queue is awake. */
  ghost predicate NeverBusyAwake(size: nat, maxFrags: nat, coal: nat) {
    forall ls: seq<Label>, s: Tx, f: Frame ::
      (Reaches(size, maxFrags, coal, ls, s) && RawGuarded(Init(size, maxFrags, coal), ls)
       && Shaped(s) && Enabled(s, Busy(f))) ==> s.stopped
  }

  lemma NotBusyAwake(size: nat, maxFrags: nat, coal: nat, ls: seq<Label>, s: Tx, f: Frame)
    requires size / 4 >= maxFrags && size >= 2
    requires Reaches(size, maxFrags, coal, ls, s) && RawGuarded(Init(size, maxFrags, coal), ls)
    requires Shaped(s) && Enabled(s, Busy(f))
    ensures s.stopped
  {
    InitInv(size, maxFrags, coal);
    var s0 := Init(size, maxFrags, coal);
    assert FlowInv(s0);
    RunKeepsFlow(s0, ls, s);
    BusyAtRest(s, f);
  }

  lemma BusyAtRest(s: Tx, f: Frame)
    requires Shaped(s) && FlowInv(s) && Enabled(s, Busy(f))
    ensures s.stopped
  {
  }

  /** Adding small frames one after the other until only `left` descriptors are free. */
  lemma {:induction false} FillTo(s: Tx, left: nat) returns (ls: seq<Label>, s': Tx)
    requires BaseInv(s) && Resting(s) && !s.stopped && s.size / 4 < left <= Avail(s)
    ensures Exec(s, ls) == Some(s') && Plain(ls) && Shaped(s') && Resting(s')
    ensures Avail(s') == left && !s'.stopped && s'.maxFrags == s.maxFrags
    decreases Avail(s) - left
  {
    if Avail(s) == left {
      ls, s' := [], s;
    } else {
      var add, m := AddSmall(s);
      var rest;
      rest, s' := FillTo(m, left);
      ls := add + rest;
      ExecAppend(s, add, rest);
      PlainAppend(add, rest);
    }
  }

  function Large(maxFrags: nat): Frame {
    Frame(Some(0), false, seq(maxFrags + 1, _ => Seg(1, 60)))
  }

  /** When the wake-up threshold is below the largest frame, some run does. */
  lemma BusyAwakeRun(size: nat, maxFrags: nat, coal: nat) returns (ls: seq<Label>, s: Tx)
    requires ValidConfig(size, coal) && (size / 4 < maxFrags || size < 2)
    ensures Reaches(size, maxFrags, coal, ls, s) && NoRaw(ls)
    ensures Shaped(s) && Enabled(s, Busy(Large(maxFrags))) && !s.stopped
  {
    var s0 := FreshRing(size, maxFrags, coal);
    assert Shaped(s0);
    hide BaseInv, EngineInv, Reaches;
    if Avail(s0) <= maxFrags {
      ls, s := [], s0;
    } else {
      ls, s := FillTo(s0, maxFrags);
      FromFresh(size, maxFrags, coal, s0, ls, s);
    }
  }

  /** While raw sends keep the guard, the "ring full when queue awake" branch is dead
      exactly when a quarter of the ring is at least the largest fragment count (and the
      ring has two slots). If it is not, the network sender alone gets there. */
  lemma NeverBusyAwakeIff(size: nat, maxFrags: nat, coal: nat)
    requires ValidConfig(size, coal)
    ensures NeverBusyAwake(size, maxFrags, coal) <==> size / 4 >= maxFrags && size >= 2
  {
    if size / 4 >= maxFrags && size >= 2 {
      forall ls: seq<Label>, s: Tx, f: Frame |
        Reaches(size, maxFrags, coal, ls, s) && RawGuarded(Init(size, maxFrags, coal), ls)
        && Shaped(s) && Enabled(s, Busy(f))
        ensures s.stopped
      {
        NotBusyAwake(size, maxFrags, coal, ls, s, f);
      }
    } else {
      var ls, s := BusyAwakeRun(size, maxFrags, coal);
      NoRawIsGuarded(Init(size, maxFrags, coal), ls);
    }
  }

  /** The same for runs of the network sender only. */
  ghost predicate NetworkNeverBusyAwake(size: nat, maxFrags: nat, coal: nat) {
    forall ls: seq<Label>, s: Tx, f: Frame ::
      (Reaches(size, maxFrags, coal, ls, s) && NoRaw(ls) && Shaped(s) && Enabled(s, Busy(f))) ==> s.stopped
  }

  lemma NetworkNeverBusyAwakeIff(size: nat, maxFrags: nat, coal: nat)
    requires ValidConfig(size, coal)
    ensures NetworkNeverBusyAwake(size, maxFrags, coal) <==> size / 4 >= maxFrags && size >= 2
  {
    if size / 4 >= maxFrags && size >= 2 {
      forall ls: seq<Label>, s: Tx, f: Frame |
        Reaches(size, maxFrags, coal, ls, s) && NoRaw(ls) && Shaped(s) && Enabled(s, Busy(f))
        ensures s.stopped
      {
        NoRawIsGuarded(Init(size, maxFrags, coal), ls);
        NotBusyAwake(size, maxFrags, coal, ls, s, f);
      }
    } else {
      var ls, s := BusyAwakeRun(size, maxFrags, coal);
    }
  }

  // ---------------------------------------------------------------- raw frames without the guard

  const RAW := Frame(None, false, [Seg(1, 60)])

  lemma Snoc(s: Tx, ls: seq<Label>, m: Tx, l: Label) returns (ls': seq<Label>)
    requires Exec(s, ls) == Some(m) && Shaped(m) && PcOk(m.pc) && Enabled(m, l)
    requires NoReset(ls) && !l.Reset? && RawGuarded(s, ls) && !l.BeginRaw?
    ensures Exec(s, ls') == Some(Step(m, l)) && NoReset(ls') && RawGuarded(s, ls')
  {
    ls' := ls + [l];
    assert ls'[..|ls|] == ls;
  }

  lemma WriteRaw(s: Tx) returns (ls: seq<Label>, s': Tx)
    requires Shaped(s) && s.pc == Start(RAW) && s.pending == None
    ensures Exec(s, ls) == Some(s') && NoReset(ls) && RawGuarded(s, ls) && Shaped(s') && SameSetup(s, s')
    ensures s'.pc == Closed(RAW) && s'.cur == s.cur && s'.stopped == s.stopped
  {
    ls := Snoc(s, [], s, Map);
    var a := Step(s, Map);
    ls := Snoc(s, ls, a, PrepareSeg);
    var b := Step(a, PrepareSeg);
    ls := Snoc(s, ls, b, CloseLast);
    s' := Step(b, CloseLast);
  }

  lemma FinishRaw(s: Tx) returns (ls: seq<Label>, s': Tx)
    requires Shaped(s) && s.pc == Closed(RAW) && s.pending == None
    ensures Exec(s, ls) == Some(s') && NoReset(ls) && RawGuarded(s, ls) && SameSetup(s, s') && Resting(s')
    ensures s'.cur == s.cur + 1 && s'.stopped == s.stopped
  {
    ls := Snoc(s, [], s, Mark);
    var a := Step(s, Mark);
    ls := Snoc(s, ls, a, Publish);
    var b := Step(a, Publish);
    ls := Snoc(s, ls, b, Advance);
    s' := Step(b, Advance);
  }

  lemma {:induction false} RawGuardedAppend(s: Tx, a: seq<Label>, b: seq<Label>)
    requires Exec(s, a).Some? && RawGuarded(s, a)
    ensures RawGuarded(s, a + b) <==> RawGuarded(Exec(s, a).value, b)
  {
    if b == [] {
      assert a + b == a;
    } else {
      var n := |b| - 1;
      assert (a + b)[..|a + b| - 1] == a + b[..n];
      RawGuardedAppend(s, a, b[..n]);
      ExecAppend(s, a, b[..n]);
    }
  }

  lemma StartRaw(s: Tx) returns (s': Tx)
    requires Shaped(s) && Resting(s) && Avail(s) >= 1
    ensures Exec(s, [BeginRaw(RAW)]) == Some(s') && Shaped(s') && SameSetup(s, s')
    ensures s'.pc == Start(RAW) && s'.cur == s.cur && s'.stopped == s.stopped
    ensures NoReset([BeginRaw(RAW)]) && (RawGuard(s) ==> RawGuarded(s, [BeginRaw(RAW)]))
  {
    ExecOne(s, BeginRaw(RAW));
    assert [BeginRaw(RAW)][..0] == [];
    s' := Step(s, BeginRaw(RAW));
  }

  lemma ThreeParts(s: Tx, x: seq<Label>, a: Tx, y: seq<Label>, b: Tx, z: seq<Label>, c: Tx)
    requires Exec(s, x) == Some(a) && Exec(a, y) == Some(b) && Exec(b, z) == Some(c)
    requires NoReset(x) && NoReset(y) && NoReset(z)
    ensures Exec(s, x + y + z) == Some(c) && NoReset(x + y + z)
    ensures RawGuarded(s, x) && RawGuarded(a, y) && RawGuarded(b, z) ==> RawGuarded(s, x + y + z)
  {
    ExecAppend(s, x, y);
    ExecAppend(s, x + y, z);
    hide Exec, RawGuarded;
    if RawGuarded(s, x) && RawGuarded(a, y) && RawGuarded(b, z) {
      RawGuardedAppend(s, x, y);
      RawGuardedAppend(s, x + y, z);
    }
  }

  /** One raw frame, added to a ring with a free descriptor. */
  lemma AddRaw(s: Tx) returns (ls: seq<Label>, s': Tx)
    requires BaseInv(s) && Resting(s) && Avail(s) >= 1
    ensures Exec(s, ls) == Some(s') && NoReset(ls) && BaseInv(s') && SameSetup(s, s') && Resting(s')
    ensures s'.cur == s.cur + 1 && s'.stopped == s.stopped
    ensures RawGuard(s) ==> RawGuarded(s, ls)
  {
    ShapedInside(s);
    hide BaseInv, EngineInv, RawGuard, RawGuarded, Exec, Shaped, Slot, NoReset;
    var start := [BeginRaw(RAW)];
    var a := StartRaw(s);
    var write, b := WriteRaw(a);
    var finish;
    finish, s' := FinishRaw(b);
    ls := start + write + finish;
    ThreeParts(s, start, a, write, b, finish, s');
    RunKeeps(s, ls, s');
  }

  /** Raw frames one after the other until only `left` descriptors are free; the guard
      holds all the way if room for the largest frame is left. */
  lemma {:induction false} FillRaw(s: Tx, left: nat) returns (ls: seq<Label>, s': Tx)
    requires BaseInv(s) && Resting(s) && !s.stopped && left <= Avail(s)
    ensures Exec(s, ls) == Some(s') && NoReset(ls) && BaseInv(s') && Resting(s')
    ensures Avail(s') == left && !s'.stopped && s'.maxFrags == s.maxFrags && s'.size == s.size
    ensures left >= s.maxFrags + 1 ==> RawGuarded(s, ls)
    decreases Avail(s) - left
  {
    hide BaseInv;
    if Avail(s) == left {
      ls, s' := [], s;
    } else {
      var add, m := AddRaw(s);
      var rest;
      rest, s' := FillRaw(m, left);
      ls := add + rest;
      ExecAppend(s, add, rest);
      if left >= s.maxFrags + 1 { RawGuardedAppend(s, add, rest); }
    }
  }

  /** With raw frames and no guard, every ring whatever its size gets full under an awake
      queue, although each raw frame found a free descriptor. */
  lemma RawFillsAwakeRing(size: nat, maxFrags: nat, coal: nat) returns (ls: seq<Label>, s: Tx)
    requires ValidConfig(size, coal)
    ensures Reaches(size, maxFrags, coal, ls, s) && NoReset(ls)
    ensures Shaped(s) && Enabled(s, Busy(SMALL)) && !s.stopped
  {
    var s0 := FreshRing(size, maxFrags, coal);
    hide EngineInv, Reaches;
    ls, s := FillRaw(s0, 0);
    FromFresh(size, maxFrags, coal, s0, ls, s);
  }

  /** The guard is not too strong: one raw frame sent one descriptor below it, after a run
      that kept it, is enough. */
  lemma OneRawTooMany(size: nat, maxFrags: nat, coal: nat)
    returns (before: seq<Label>, m: Tx, raw: seq<Label>, s: Tx)
    requires ValidConfig(size, coal) && size >= maxFrags + 2
    ensures Reaches(size, maxFrags, coal, before, m) && RawGuarded(Init(size, maxFrags, coal), before)
    ensures Resting(m) && !m.stopped && Avail(m) == maxFrags + 1
    ensures Exec(m, raw) == Some(s) && s.cur == m.cur + 1
    ensures Shaped(s) && Enabled(s, Busy(Large(maxFrags))) && !s.stopped
  {
    hide Reaches, EngineInv, BaseInv, RawGuarded, Exec, Slot;
    var s0 := FreshRing(size, maxFrags, coal);
    before, m := FillRaw(s0, maxFrags + 1);
    InitGuarded(size, maxFrags, coal, s0, before);
    FromFresh(size, maxFrags, coal, s0, before, m);
    raw, s := AddRaw(m);
    ShapedInside(s);
  }

  lemma InitGuarded(size: nat, maxFrags: nat, coal: nat, s: Tx, ls: seq<Label>)
    requires Reaches(size, maxFrags, coal, [], s) && RawGuarded(s, ls)
    ensures RawGuarded(Init(size, maxFrags, coal), ls)
  {
  }

  lemma ShapedInside(s: Tx)
    requires BaseInv(s)
    ensures Shaped(s)
  {
  }

  /** If the wake-up test leaves the queue stopped, there is something left to
      complete: the queue cannot stay stopped over an empty ring. */
  lemma StoppedMeansOutstanding(s: Tx)
    requires BaseInv(s) && Enabled(s, Wake) && s.size >= 2 && Step(s, Wake).stopped
    ensures s.dirty < s.cur
  {
  }

  /** Every reclaiming of the run was followed by a wake-up test or a reset. */
  ghost predicate Rounded(ls: seq<Label>) {
    if ls == [] then true
    else
      var n := |ls| - 1;
      ls[n].Wake? || ls[n].Reset? || (!ls[n].CleanAdvance? && Rounded(ls[..n]))
  }

  /** A frame just handed over is outstanding, and so is something whenever the queue is
      stopped and reclaiming is rounded off. */
  ghost predicate StopInv(s: Tx, rounded: bool) {
    && s.size >= s.maxFrags + 2
    && (s.pc.Published? || s.pc.Advanced? ==> s.dirty < |s.cells|)
    && (rounded && s.stopped ==> s.dirty < |s.cells|)
  }

  lemma StepKeepsStop(s: Tx, l: Label, rounded: bool)
    requires BaseInv(s) && StopInv(s, rounded) && Enabled(s, l)
    ensures StopInv(Step(s, l), l.Wake? || l.Reset? || (!l.CleanAdvance? && rounded))
  {
    hide Slot, InSlots, SlotMappings, Books, Image, FrameCells, Coalesce, Mapping, Holds;
  }

  lemma {:induction false} RunKeepsStop(s: Tx, ls: seq<Label>, s': Tx)
    requires BaseInv(s) && StopInv(s, true) && Exec(s, ls) == Some(s')
    ensures StopInv(s', Rounded(ls))
  {
    if ls != [] {
      var n := |ls| - 1;
      var m := Exec(s, ls[..n]).value;
      RunKeeps(s, ls[..n], m);
      RunKeepsStop(s, ls[..n], m);
      StepKeepsStop(m, ls[n], Rounded(ls[..n]));
      hide BaseInv, EngineInv, StopInv, Step;
    }
  }

  /** No run, resets included, that ends between calls leaves the queue stopped over a
      drained ring. */
  ghost predicate NeverStoppedIdle(size: nat, maxFrags: nat, coal: nat) {
    forall ls: seq<Label>, s: Tx ::
      (Reaches(size, maxFrags, coal, ls, s) && Rounded(ls) && s.pc.Idle? && s.stopped) ==> s.dirty < s.cur
  }

  lemma StoppedIsBusy(size: nat, maxFrags: nat, coal: nat, ls: seq<Label>, s: Tx)
    requires size >= maxFrags + 2
    requires Reaches(size, maxFrags, coal, ls, s) && Rounded(ls) && s.pc.Idle? && s.stopped
    ensures s.dirty < s.cur
  {
    InitInv(size, maxFrags, coal);
    RunKeepsStop(Init(size, maxFrags, coal), ls, s);
    ReachInv(size, maxFrags, coal, ls, s);
    hide Image, Books, Exec;
  }

  /** A refused frame on an empty ring. */
  lemma RefusedOnEmpty(size: nat, maxFrags: nat, coal: nat) returns (ls: seq<Label>, s: Tx)
    requires ValidConfig(size, coal) && size < maxFrags + 2
    ensures Reaches(size, maxFrags, coal, ls, s) && Rounded(ls) && s.pc.Idle? && s.stopped && s.dirty == s.cur
  {
    var s0 := FreshRing(size, maxFrags, coal);
    assert Shaped(s0);
    hide BaseInv, EngineInv, Reaches;
    ExecOne(s0, Busy(Large(maxFrags)));
    ls, s := [Busy(Large(maxFrags))], Step(s0, Busy(Large(maxFrags)));
    assert ls[..0] == [];
    FromFresh(size, maxFrags, coal, s0, ls, s);
  }

  /** A queue left stopped between calls has something outstanding, over any mix of
      frames, reclaiming and resets, exactly when the ring can take the largest frame. */
  lemma NeverStoppedIdleIff(size: nat, maxFrags: nat, coal: nat)
    requires ValidConfig(size, coal)
    ensures NeverStoppedIdle(size, maxFrags, coal) <==> size >= maxFrags + 2
  {
    if size >= maxFrags + 2 {
      forall ls: seq<Label>, s: Tx |
        Reaches(size, maxFrags, coal, ls, s) && Rounded(ls) && s.pc.Idle? && s.stopped
        ensures s.dirty < s.cur
      {
        StoppedIsBusy(size, maxFrags, coal, ls, s);
      }
    } else {
      var ls, s := RefusedOnEmpty(size, maxFrags, coal);
    }
  }

  /** What a reset leaves: an empty ring under an awake queue. */
  lemma ResetWakes(s: Tx)
    requires Shaped(s) && PcOk(s.pc) && Enabled(s, Reset)
    ensures var s' := Step(s, Reset);
            && !s'.stopped && s'.cur == s'.dirty == 0 && Avail(s') == s.size - 1 && s'.size == s.size
            && s'.accepted == s.accepted && s'.count == s.count
  {
    hide InSlots, SlotMappings, Slot;
  }

  // ---------------------------------------------------------------- interrupt coalescing

  ghost function Total(frames: seq<Frame>): nat {
    if frames == [] then 0
    else
      var n := |frames| - 1;
      Total(frames[..n]) + |frames[n].segs|
  }

  /** None of the frames `i..j` kept its interrupt. */
  ghost predicate Silent(marks: seq<bool>, i: nat, j: nat)
    requires j <= |marks|
  {
    forall k :: i <= k < j ==> !marks[k]
  }

  /** `count` bounds the descriptors added since a frame kept its interrupt, and any
      silent stretch of frames is shorter than the coalescing limit. */
  ghost predicate Coalesced(frames: seq<Frame>, marks: seq<bool>, count: nat, coal: nat) {
    && |marks| == |frames|
    && count < coal
    && (forall i: nat :: i <= |frames| && Silent(marks, i, |frames|) ==> Total(frames[i..]) <= count)
    && (forall i: nat, j: nat :: i <= j <= |frames| && Silent(marks, i, j) ==> Total(frames[i..j]) < coal)
  }

  lemma CoalesceOne(frames: seq<Frame>, marks: seq<bool>, count: nat, coal: nat, f: Frame)
    requires Coalesced(frames, marks, count, coal)
    ensures var (ic, count') := Coalesce(count, |f.segs|, coal);
            Coalesced(frames + [f], marks + [ic], count', coal)
  {
    var (ic, count') := Coalesce(count, |f.segs|, coal);
    var fs, ms, n := frames + [f], marks + [ic], |frames|;
    forall i: nat | i <= n + 1 && Silent(ms, i, n + 1)
      ensures Total(fs[i..]) <= count'
    {
      if i <= n {
        assert !ms[n];
        assert forall k :: i <= k < n ==> marks[k] == ms[k];
        assert Silent(marks, i, n);
        assert fs[i..][..n - i] == frames[i..];
      }
    }
    forall i: nat, j: nat | i <= j <= n + 1 && Silent(ms, i, j)
      ensures Total(fs[i..j]) < coal
    {
      if j <= n {
        assert forall k :: i <= k < j ==> marks[k] == ms[k];
        assert Silent(marks, i, j);
        assert fs[i..j] == frames[i..j];
      } else {
        assert fs[i..j] == fs[i..];
      }
    }
  }

  lemma OnlyMarkDecides(m: Tx, l: Label)
    requires Shaped(m) && PcOk(m.pc) && Enabled(m, l)
    ensures var m' := Step(m, l);
            && m'.coal == m.coal
            && if l.Mark? then
                 var (ic, count) := Coalesce(m.count, |m.pc.f.segs|, m.coal);
                 m'.frames == m.frames + [m.pc.f] && m'.marks == m.marks + [ic] && m'.count == count
               else
                 m'.frames == m.frames && m'.marks == m.marks && m'.count == m.count
  {
  }

  lemma {:induction false} RunCoalesces(s: Tx, ls: seq<Label>, s': Tx)
    requires Coalesced(s.frames, s.marks, s.count, s.coal) && Exec(s, ls) == Some(s')
    ensures Coalesced(s'.frames, s'.marks, s'.count, s'.coal) && s'.coal == s.coal
  {
    if ls != [] {
      var n := |ls| - 1;
      var m := Exec(s, ls[..n]).value;
      RunCoalesces(s, ls[..n], m);
      OnlyMarkDecides(m, ls[n]);
      if ls[n].Mark? {
        CoalesceOne(m.frames, m.marks, m.count, m.coal, m.pc.f);
      }
    }
  }

  /** On every run the running count stays below the limit. */
  lemma CountStaysBelow(size: nat, maxFrags: nat, coal: nat, ls: seq<Label>, s: Tx)
    requires Reaches(size, maxFrags, coal, ls, s)
    ensures s.count < coal
  {
    var s0 := Init(size, maxFrags, coal);
    assert Coalesced(s0.frames, s0.marks, s0.count, s0.coal);
    RunCoalesces(s0, ls, s);
  }

  /** Over any mix of network and raw frames, resets included: any consecutive frames
      with at least that many descriptors include one whose completion interrupt was left
      on. */
  lemma InterruptsAreNeverFar(size: nat, maxFrags: nat, coal: nat, ls: seq<Label>, s: Tx, i: nat, j: nat)
    requires Reaches(size, maxFrags, coal, ls, s)
    requires i <= j <= |s.frames| && Total(s.frames[i..j]) >= coal
    ensures |s.marks| == |s.frames|
    ensures exists k :: i <= k < j && s.marks[k]
  {
    var s0 := Init(size, maxFrags, coal);
    assert Coalesced(s0.frames, s0.marks, s0.count, s0.coal);
    RunCoalesces(s0, ls, s);
    assert !Silent(s.marks, i, j);
  }
}

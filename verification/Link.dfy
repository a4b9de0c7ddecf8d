/** Link adjustment: a cache in front of the MAC control register and the SoC's
clock-select register. The reference is a driver without a cache, which programs both
registers on every report of an up link.

A register is modelled as the set of its one bits: `value |= mask` is union,
`value &= ~mask` is difference, and `value & mask` is intersection. */
module Link {

  type Bits = set<nat>

  /** The link masks a core announces (port select, duplex mode, speed). */
  datatype LinkMasks = LinkMasks(port: Bits, duplex: Bits, speed: Bits)

  /** Bits 15, 11 and 14 of the GMAC's control register; bits 27 and 20 of the
      100 MBit core's, which has no speed bit. */
  const GMAC_LINK := LinkMasks({15}, {11}, {14})
  const MAC100_LINK := LinkMasks({27}, {20}, {})

  datatype Chip = Rk3288 | Rk312x
  datatype Interface = Rgmii | Rmii | OtherInterface

  /** The pause frame register. */
  datatype Flow = Flow(rfe: bool, tfe: bool, pauseTime: nat)

  /** What does not change while a device is open. */
  datatype Board = Board(hasGmac: bool, chip: Chip, iface: Interface, fcRx: bool, fcTx: bool, pauseTime: nat) {
    function Masks(): LinkMasks {
      if hasGmac then GMAC_LINK else MAC100_LINK
    }

    /** The pause frame settings; the 100 MBit core has one enable bit for both. */
    function FlowFor(duplex: int): Flow {
      Flow(hasGmac ==> fcRx, hasGmac ==> fcTx, if duplex != 0 then pauseTime else 0)
    }
  }

  /** What the PHY layer reports. */
  datatype Report = Report(link: bool, speed: nat, duplex: nat, pause: bool)

  /** The registers, and the cached view of the link. */
  datatype State = State(
    ctrl: Bits, con1: Bits, flow: Flow,
    oldLink: bool, speed: int, oldDuplex: int)

  // ---------------------------------------------------------------- the SoC register

  /** A value written to a GRF register: its upper half says which bits of the lower
      half the write reaches. */
  datatype GrfValue = GrfValue(mask: Bits, value: Bits)

  const GMAC_CLK_125M := GrfValue({12, 13}, {})
  const GMAC_CLK_25M := GrfValue({12, 13}, {12, 13})
  const GMAC_CLK_2_5M := GrfValue({12, 13}, {13})
  const GMAC_RMII_CLK_25M := GrfValue({11}, {11})
  const GMAC_RMII_CLK_2_5M := GrfValue({11}, {})
  const GMAC_SPEED_100M := GrfValue({10}, {10})
  const GMAC_SPEED_10M := GrfValue({10}, {})

  const RGMII_CLK: Bits := {12, 13}
  const RMII_CLK: Bits := {10, 11}

  function GrfWrite(reg: Bits, v: GrfValue): Bits {
    (reg - v.mask) + (v.value * v.mask)
  }

  /** The speed the clock fields select, 0 for a combination that is none. */
  function RgmiiSpeed(con1: Bits): nat {
    if 13 in con1 then (if 12 in con1 then 100 else 10)
    else if 12 in con1 then 0 else 1000
  }

  function RmiiSpeed(con1: Bits): nat {
    if 10 in con1 && 11 in con1 then 100
    else if 10 !in con1 && 11 !in con1 then 10 else 0
  }

  predicate Supports(iface: Interface, speed: int) {
    match iface
    case Rgmii => speed in {10, 100, 1000}
    case Rmii => speed in {10, 100}
    case OtherInterface => false
  }

  /** The clock fields select `speed`, if this is a board on which they can. */
  predicate SocShows(b: Board, con1: Bits, speed: int) {
    b.chip.Rk3288? && Supports(b.iface, speed) ==>
      (if b.iface.Rgmii? then RgmiiSpeed(con1) else RmiiSpeed(con1)) == speed
  }

  /** The clock-select bits a speed change may reach. */
  function SocMask(b: Board): Bits {
    if b.chip.Rk312x? then {} else match b.iface
      case Rgmii => RGMII_CLK
      case Rmii => RMII_CLK
      case OtherInterface => {}
  }

  // ---------------------------------------------------------------- the MAC register

  /** The speed the MAC runs at. */
  function MacSpeed(ctrl: Bits): nat {
    if 15 !in ctrl then 1000 else if 14 in ctrl then 100 else 10
  }

  predicate MacShows(b: Board, ctrl: Bits, speed: int) {
    && (b.hasGmac && speed in {10, 100, 1000} ==> MacSpeed(ctrl) == speed)
    && (!b.hasGmac && speed in {10, 100} ==> 27 !in ctrl)
  }

  predicate DuplexShows(b: Board, ctrl: Bits, duplex: int) {
    b.Masks().duplex * ctrl == (if duplex == 0 then {} else b.Masks().duplex)
  }

  function LinkMask(b: Board): Bits {
    b.Masks().port + b.Masks().duplex + b.Masks().speed
  }

  // ---------------------------------------------------------------- the driver without a cache

  function WithDuplex(b: Board, ctrl: Bits, duplex: int): Bits {
    if duplex == 0 then ctrl - b.Masks().duplex else ctrl + b.Masks().duplex
  }

  function WithSpeed(b: Board, ctrl: Bits, speed: int): Bits {
    var m := b.Masks();
    if speed == 1000 then (if b.hasGmac then ctrl - m.port else ctrl)
    else if speed == 100 then (if b.hasGmac then ctrl + m.port + m.speed else ctrl - m.port)
    else if speed == 10 then (if b.hasGmac then ctrl + m.port - m.speed else ctrl - m.port)
    else ctrl
  }

  /** The clock fields for a speed, whatever the register held. */
  function SocFor(b: Board, con1: Bits, speed: int): Bits {
    if b.chip.Rk312x? || !Supports(b.iface, speed) then con1
    else if b.iface.Rgmii? then
      (con1 - RGMII_CLK) + (if speed == 1000 then {} else if speed == 100 then {12, 13} else {13})
    else
      (con1 - RMII_CLK) + (if speed == 100 then {10, 11} else {})
  }

  /** Program everything on every report of an up link. */
  function Programmed(b: Board, s: State, r: Report): State {
    if r.link then
      State(WithSpeed(b, WithDuplex(b, s.ctrl, r.duplex), r.speed),
            SocFor(b, s.con1, r.speed),
            if r.pause then b.FlowFor(r.duplex) else s.flow,
            true, r.speed, r.duplex)
    else s.(oldLink := false, speed := 0, oldDuplex := -1)
  }

  function ProgrammedAll(b: Board, s: State, rs: seq<Report>): State {
    if rs == [] then s
    else
      var n := |rs| - 1;
      Programmed(b, ProgrammedAll(b, s, rs[..n]), rs[n])
  }

  // ---------------------------------------------------------------- what it establishes

  /** Programming makes the registers show the report and touches nothing else. */
  lemma ProgrammedShows(b: Board, s: State, r: Report)
    requires r.link
    ensures var s' := Programmed(b, s, r);
            && MacShows(b, s'.ctrl, r.speed) && DuplexShows(b, s'.ctrl, r.duplex)
            && SocShows(b, s'.con1, r.speed)
            && s'.ctrl - LinkMask(b) == s.ctrl - LinkMask(b)
            && s'.con1 - SocMask(b) == s.con1 - SocMask(b)
  {
    assert DuplexShows(b, WithDuplex(b, s.ctrl, r.duplex), r.duplex);
  }

  /** Programming again what the registers already show changes nothing. */
  lemma ShownIsProgrammed(b: Board, s: State, speed: int, duplex: int)
    ensures MacShows(b, s.ctrl, speed) ==> WithSpeed(b, s.ctrl, speed) == s.ctrl
    ensures DuplexShows(b, s.ctrl, duplex) ==> WithDuplex(b, s.ctrl, duplex) == s.ctrl
    ensures SocShows(b, s.con1, speed) ==> SocFor(b, s.con1, speed) == s.con1
  {
    if MacShows(b, s.ctrl, speed) { SpeedShownIsProgrammed(b, s.ctrl, speed); }
    if DuplexShows(b, s.ctrl, duplex) { DuplexShownIsProgrammed(b, s.ctrl, duplex); }
    if SocShows(b, s.con1, speed) { SocShownIsProgrammed(b, s.con1, speed); }
    hide SocShows, SocFor, MacShows, WithSpeed, DuplexShows, WithDuplex;
  }

  lemma SpeedShownIsProgrammed(b: Board, ctrl: Bits, speed: int)
    requires MacShows(b, ctrl, speed)
    ensures WithSpeed(b, ctrl, speed) == ctrl
  {
    forall k: nat
      ensures k in WithSpeed(b, ctrl, speed) <==> k in ctrl
    {
    }
  }

  lemma DuplexShownIsProgrammed(b: Board, ctrl: Bits, duplex: int)
    requires DuplexShows(b, ctrl, duplex)
    ensures WithDuplex(b, ctrl, duplex) == ctrl
  {
    forall k: nat
      ensures k in WithDuplex(b, ctrl, duplex) <==> k in ctrl
    {
      assert k in b.Masks().duplex * ctrl <==> k in b.Masks().duplex && k in ctrl;
    }
  }

  lemma SocShownIsProgrammed(b: Board, con1: Bits, speed: int)
    requires SocShows(b, con1, speed)
    ensures SocFor(b, con1, speed) == con1
  {
    if b.chip.Rk3288? && Supports(b.iface, speed) {
      if b.iface.Rgmii? { RgmiiSame(con1, speed); } else { RmiiSame(con1, speed); }
    }
  }

  lemma RgmiiSame(con1: Bits, speed: int)
    requires speed in {10, 100, 1000} && RgmiiSpeed(con1) == speed
    ensures (con1 - RGMII_CLK) + (if speed == 1000 then {} else if speed == 100 then {12, 13} else {13}) == con1
  {
    forall k: nat
      ensures k in (con1 - RGMII_CLK) + (if speed == 1000 then {} else if speed == 100 then {12, 13} else {13})
              <==> k in con1
    {
    }
  }

  lemma RmiiSame(con1: Bits, speed: int)
    requires speed in {10, 100} && RmiiSpeed(con1) == speed
    ensures (con1 - RMII_CLK) + (if speed == 100 then {10, 11} else {}) == con1
  {
    forall k: nat
      ensures k in (con1 - RMII_CLK) + (if speed == 100 then {10, 11} else {}) <==> k in con1
    {
    }
  }

  /** The cache tells the truth about the registers, and is empty while the link is down. */
  ghost predicate Truthful(b: Board, s: State) {
    && (s.speed != 0 ==> MacShows(b, s.ctrl, s.speed) && SocShows(b, s.con1, s.speed))
    && (s.oldDuplex != -1 ==> DuplexShows(b, s.ctrl, s.oldDuplex))
    && (!s.oldLink ==> s.speed == 0 && s.oldDuplex == -1)
  }

  lemma ProgrammedTruthful(b: Board, s: State, r: Report)
    requires Truthful(b, s)
    ensures Truthful(b, Programmed(b, s, r))
  {
    if r.link { ProgrammedShows(b, s, r); }
  }

  /** After any reports, whatever speeds they named: the registers show the last report
      if its link is up, no other bit of either register has moved, and the cache is
      empty if the link is down. */
  lemma {:induction false} RunShows(b: Board, s: State, rs: seq<Report>)
    requires Truthful(b, s) && rs != []
    ensures var s', r := ProgrammedAll(b, s, rs), rs[|rs| - 1];
            && s'.oldLink == r.link
            && (r.link ==> MacShows(b, s'.ctrl, r.speed) && DuplexShows(b, s'.ctrl, r.duplex)
                           && SocShows(b, s'.con1, r.speed))
            && (r.link ==> s'.speed == r.speed && s'.oldDuplex == r.duplex)
            && (!r.link ==> s'.speed == 0 && s'.oldDuplex == -1)
            && s'.ctrl - LinkMask(b) == s.ctrl - LinkMask(b)
            && s'.con1 - SocMask(b) == s.con1 - SocMask(b)
  {
    var n := |rs| - 1;
    var m := ProgrammedAll(b, s, rs[..n]);
    if n > 0 {
      RunShows(b, s, rs[..n]);
    }
    if rs[n].link { ProgrammedShows(b, m, rs[n]); }
  }

  /** In every state with the link up at a speed the interface supports, the MAC and
      the SoC's clock run at the same speed. */
  lemma MacAndSocAgree(b: Board, s: State, rs: seq<Report>)
    requires Truthful(b, s) && rs != [] && rs[|rs| - 1].link
    requires b.hasGmac && b.chip.Rk3288? && Supports(b.iface, rs[|rs| - 1].speed)
    ensures var s' := ProgrammedAll(b, s, rs);
            (if b.iface.Rgmii? then RgmiiSpeed(s'.con1) else RmiiSpeed(s'.con1)) == MacSpeed(s'.ctrl)
            == rs[|rs| - 1].speed
  {
    RunShows(b, s, rs);
  }

  // ---------------------------------------------------------------- the driver

  /** Bits the core initialization sets: jabber disable, port select, pad stripping,
      jumbo frames and burst enable; heartbeat disable and pad stripping. */
  const GMAC_CORE_INIT: Bits := {22, 15, 7, 20, 21}
  const MAC_CORE_INIT: Bits := {28, 8}

  /** Transmitter and receiver enable. */
  const MAC_ENABLE: Bits := {2, 3}

  class Mac {
    const board: Board
    var ctrl: Bits
    var con1: Bits
    var flow: Flow
    var oldLink: bool
    var speed: int
    var oldDuplex: int

    function Shown(): State
      reads this
    {
      State(ctrl, con1, flow, oldLink, speed, oldDuplex)
    }

    ghost predicate Valid()
      reads this
    {
      Truthful(board, Shown())
    }

    /** stmmac_init_phy, on registers that may hold anything. */
    constructor InitPhy(board: Board, ctrl: Bits, con1: Bits, flow: Flow)
      ensures Valid() && this.board == board
      ensures this.ctrl == ctrl && this.con1 == con1 && !oldLink && speed == 0 && oldDuplex == -1
    {
      this.board, this.ctrl, this.con1, this.flow := board, ctrl, con1, flow;
      oldLink := false;
      speed := 0;
      oldDuplex := -1;
    }

    /** stmmc_pltfr_fix_mac_speed */
    method FixMacSpeed(speed: int)
      modifies this`con1
      ensures con1 == SocFor(board, old(con1), speed)
    {
      if board.iface.Rgmii? {
        if speed == 10 {
          SetSoc(GMAC_CLK_2_5M);
        } else if speed == 100 {
          SetSoc(GMAC_CLK_25M);
        } else if speed == 1000 {
          SetSoc(GMAC_CLK_125M);
        }
      } else if board.iface.Rmii? {
        if speed == 10 {
          SetSoc(GMAC_RMII_CLK_2_5M);
          SetSoc(GMAC_SPEED_10M);
        } else if speed == 100 {
          SetSoc(GMAC_RMII_CLK_25M);
          SetSoc(GMAC_SPEED_100M);
        }
      }
    }

    /** One masked write; on the other chip the writes are switched off. */
    method SetSoc(v: GrfValue)
      modifies this`con1
      ensures con1 == if board.chip.Rk3288? then GrfWrite(old(con1), v) else old(con1)
    {
      if board.chip.Rk3288? {
        con1 := GrfWrite(con1, v);
      }
    }

    /** stmmac_adjust_link: skipping unchanged values leaves both registers exactly as
        if everything had been programmed again. */
    method AdjustLink(r: Report)
      requires Valid()
      modifies this
      ensures Valid()
      ensures Shown() == Programmed(board, old(Shown()), r)
      ensures r.link && r.pause ==>
                && flow.pauseTime == (if r.duplex != 0 then board.pauseTime else 0)
                && (board.hasGmac ==> flow.rfe == board.fcRx && flow.tfe == board.fcTx)
                && (!board.hasGmac ==> flow.rfe && flow.tfe)
      ensures !(r.link && r.pause) ==> flow == old(flow)
    {
      ShownIsProgrammed(board, Shown(), r.speed, r.duplex);
      ProgrammedTruthful(board, Shown(), r);
      if r.link {
        var value := ctrl;
        if r.duplex != oldDuplex {
          if r.duplex == 0 {
            value := value - board.Masks().duplex;
          } else {
            value := value + board.Masks().duplex;
          }
          oldDuplex := r.duplex;
        }
        if r.pause {
          flow := board.FlowFor(r.duplex);
        }
        assert value == WithDuplex(board, old(ctrl), r.duplex);
        if r.speed != speed {
          value := ChangeSpeed(value, r.speed);
          speed := r.speed;
        }
        ctrl := value;
        if !oldLink {
          oldLink := true;
        }
      } else if oldLink {
        oldLink := false;
        speed := 0;
        oldDuplex := -1;
      }
    }

    /** Any number of reports, one after the other. */
    method AdjustAll(rs: seq<Report>)
      requires Valid()
      modifies this
      ensures Valid() && Shown() == ProgrammedAll(board, old(Shown()), rs)
      ensures rs != [] && rs[|rs| - 1].link ==>
                var r := rs[|rs| - 1];
                && MacShows(board, ctrl, r.speed) && DuplexShows(board, ctrl, r.duplex)
                && SocShows(board, con1, r.speed)
    {
      if rs != [] { RunShows(board, Shown(), rs); }
      hide Valid, Programmed;
      for i := 0 to |rs|
        invariant Valid() && Shown() == ProgrammedAll(board, old(Shown()), rs[..i])
      {
        AdjustLink(rs[i]);
        assert rs[..i + 1][..i] == rs[..i];
      }
      assert rs[..|rs|] == rs;
    }

    /** The switch over the reported speed. */
    method ChangeSpeed(before: Bits, newSpeed: int) returns (value: Bits)
      modifies this`con1
      ensures value == WithSpeed(board, before, newSpeed)
      ensures con1 == SocFor(board, old(con1), newSpeed)
    {
      value := before;
      if newSpeed == 1000 {
        if board.hasGmac {
          value := value - board.Masks().port;
        }
        FixMacSpeed(newSpeed);
      } else if newSpeed == 100 || newSpeed == 10 {
        if board.hasGmac {
          value := value + board.Masks().port;
          if newSpeed == 100 {
            value := value + board.Masks().speed;
          } else {
            value := value - board.Masks().speed;
          }
        } else {
          value := value - board.Masks().port;
        }
        FixMacSpeed(newSpeed);
      }
    }

    /** stmmac_set_mac */
    method SetMac(enable: bool)
      requires Valid()
      modifies this`ctrl
      ensures Valid() && ctrl == if enable then old(ctrl) + {2, 3} else old(ctrl) - {2, 3}
    {
      if enable {
        ctrl := ctrl + MAC_ENABLE;
      } else {
        ctrl := ctrl - MAC_ENABLE;
      }
    }

    /** core_init on a running link: it selects the MII port behind the cache's back, so
        the cache stays truthful exactly when it does not say 1000 on a GMAC. */
    method CoreInit()
      requires Valid()
      modifies this`ctrl
      ensures ctrl == old(ctrl) + if board.hasGmac then {7, 15, 20, 21, 22} else {8, 28}
      ensures Valid() <==> !(board.hasGmac && speed == 1000)
    {
      if board.hasGmac {
        ctrl := ctrl + GMAC_CORE_INIT;
      } else {
        ctrl := ctrl + MAC_CORE_INIT;
      }
    }
  }
}

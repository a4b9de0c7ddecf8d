/** The DMA operation mode of the GMAC core and the escalation of its transmit
threshold on underflow. */
module DmaMode {

  const SF_DMA_MODE: int := 1

  const DMA_CONTROL_ST: bv32 := 0x0000_2000
  const DMA_CONTROL_SR: bv32 := 0x0000_0002
  const DMA_CONTROL_RSF: bv32 := 0x0200_0000
  const DMA_CONTROL_TSF: bv32 := 0x0020_0000
  const DMA_CONTROL_OSF: bv32 := 0x0000_0004
  const DMA_CONTROL_TTC_64: bv32 := 0x0000_0000
  const DMA_CONTROL_TTC_128: bv32 := 0x0000_4000
  const DMA_CONTROL_TTC_192: bv32 := 0x0000_8000
  const DMA_CONTROL_TTC_256: bv32 := 0x0000_c000
  const DMA_CONTROL_TTC_32: bv32 := 0x0001_4000
  const DMA_CONTROL_TC_TX_MASK: bv32 := 0xfffe_3fff
  const DMA_CONTROL_RTC_64: bv32 := 0x0000_0000
  const DMA_CONTROL_RTC_32: bv32 := 0x0000_0008
  const DMA_CONTROL_RTC_96: bv32 := 0x0000_0010
  const DMA_CONTROL_RTC_128: bv32 := 0x0000_0018
  const DMA_CONTROL_TC_RX_MASK: bv32 := 0xffff_ffe7

  /** The bits outside the transmit and the receive half of the operation mode, and the
      bits outside both, among them the start/stop bits. */
  const OUTSIDE_TX: bv32 := 0xffde_3ffb
  const OUTSIDE_RX: bv32 := 0xfdff_ffe7
  const UNTOUCHED: bv32 := 0xfdde_3fe3

  /** `a` and `b` agree outside the bits of the transmit half. */
  predicate SameOutsideTx(a: bv32, b: bv32) {
    a & OUTSIDE_TX == b & OUTSIDE_TX
  }

  /** The transmit threshold the hardware reads out of the control register. */
  function TxThreshold(csr6: bv32): nat {
    var field := csr6 & 0x0001_c000;
    if field == 0x0000_0000 then 64
    else if field == 0x0000_4000 then 128
    else if field == 0x0000_8000 then 192
    else if field == 0x0000_c000 then 256
    else if field == 0x0001_0000 then 40
    else if field == 0x0001_4000 then 32
    else if field == 0x0001_8000 then 24
    else 16
  }

  function RxThreshold(csr6: bv32): nat {
    var field := csr6 & 0x0000_0018;
    if field == 0x00 then 64
    else if field == 0x08 then 32
    else if field == 0x10 then 96
    else 128
  }

  const TX_LEVELS: set<int> := {32, 64, 128, 192, 256}
  const RX_LEVELS: set<int> := {32, 64, 96, 128}

  /** `v` is the lowest level that is not below `t`, or the highest level. */
  ghost predicate LeastLevel(levels: set<int>, v: int, t: int) {
    && v in levels
    && (v >= t || forall u :: u in levels ==> u <= v)
    && (forall u :: u in levels && u >= t ==> v <= u)
  }

  lemma LevelsMonotone(levels: set<int>, v: int, t: int, v': int, t': int)
    requires LeastLevel(levels, v, t) && LeastLevel(levels, v', t') && t <= t'
    ensures v <= v'
  {
    if v' < t' {
      assert forall u :: u in levels ==> u <= v';
    }
  }

  /** What the receive half changes, the transmit side cannot see. */
  lemma TxBlind(a: bv32, b: bv32)
    requires a & OUTSIDE_RX == b & OUTSIDE_RX
    ensures TxThreshold(a) == TxThreshold(b)
    ensures a & DMA_CONTROL_TSF == b & DMA_CONTROL_TSF && a & DMA_CONTROL_OSF == b & DMA_CONTROL_OSF
    ensures a & UNTOUCHED == b & UNTOUCHED
  {
    assert a & 0x0001_c000 == b & 0x0001_c000;
  }

  lemma RxBlind(a: bv32, b: bv32)
    requires SameOutsideTx(a, b)
    ensures RxThreshold(a) == RxThreshold(b)
    ensures a & DMA_CONTROL_RSF == b & DMA_CONTROL_RSF
    ensures a & UNTOUCHED == b & UNTOUCHED
  {
    assert a & 0x0000_0018 == b & 0x0000_0018;
  }

  lemma InsertSf(w: bv32)
    ensures var v := (w | DMA_CONTROL_TSF) | DMA_CONTROL_OSF;
            && v & 0x0001_c000 == w & 0x0001_c000
            && v & DMA_CONTROL_TSF != 0 && v & DMA_CONTROL_OSF != 0
            && SameOutsideTx(v, w)
  {
  }

  /** The level for each of the five branches. */
  lemma LevelOf(t: int)
    ensures LeastLevel(TX_LEVELS, if t <= 32 then 32 else if t <= 64 then 64 else if t <= 128 then 128
                                  else if t <= 192 then 192 else 256, t)
  {
  }

  /** Clearing the threshold field and setting `code` in it. */
  lemma InsertTtc(w: bv32, code: bv32)
    requires code & 0x0001_c000 == code
    ensures var v := ((w & !DMA_CONTROL_TSF) & DMA_CONTROL_TC_TX_MASK) | code;
            && v & 0x0001_c000 == code
            && v & DMA_CONTROL_TSF == 0 && v & DMA_CONTROL_OSF == w & DMA_CONTROL_OSF
            && SameOutsideTx(v, w)
  {
  }

  /** Starting and stopping either direction is nobody's business here. */
  lemma StartStopUntouched(a: bv32, b: bv32)
    requires a & UNTOUCHED == b & UNTOUCHED
    ensures a & DMA_CONTROL_ST == b & DMA_CONTROL_ST && a & DMA_CONTROL_SR == b & DMA_CONTROL_SR
  {
  }

  class DmaControl {
    /** The control register (CSR6) and the module's threshold value. */
    var csr6: bv32
    var tc: int
    /** What `xstats.threshold` reports. */
    var threshold: int

    static method StoreAndForward(csr6: bv32) returns (value: bv32)
      ensures SameOutsideTx(value, csr6)
      ensures value & DMA_CONTROL_TSF != 0 && value & DMA_CONTROL_OSF != 0
      ensures TxThreshold(value) == TxThreshold(csr6)
    {
      value := csr6;
      value := value | DMA_CONTROL_TSF;
      value := value | DMA_CONTROL_OSF;
      InsertSf(csr6);
      hide SameOutsideTx;
    }

    /** The threshold code for a requested level. */
    static method ThresholdCode(txmode: int) returns (ttc: bv32)
      ensures ttc & 0x0001_c000 == ttc
      ensures LeastLevel(TX_LEVELS, TxThreshold(ttc), txmode)
      ensures ttc == (if txmode <= 32 then 0x0001_4000 else if txmode <= 64 then 0 else if txmode <= 128 then 0x0000_4000
                      else if txmode <= 192 then 0x0000_8000 else 0x0000_c000)
    {
      LevelOf(txmode);
      hide LeastLevel;
      if txmode <= 32 {
        ttc := DMA_CONTROL_TTC_32;
      } else if txmode <= 64 {
        ttc := DMA_CONTROL_TTC_64;
      } else if txmode <= 128 {
        ttc := DMA_CONTROL_TTC_128;
      } else if txmode <= 192 {
        ttc := DMA_CONTROL_TTC_192;
      } else {
        ttc := DMA_CONTROL_TTC_256;
      }
    }

    static method CutThrough(csr6: bv32, txmode: int) returns (value: bv32)
      ensures SameOutsideTx(value, csr6)
      ensures value & DMA_CONTROL_TSF == 0 && value & DMA_CONTROL_OSF == csr6 & DMA_CONTROL_OSF
      ensures LeastLevel(TX_LEVELS, TxThreshold(value), txmode)
    {
      value := csr6;
      value := value & !DMA_CONTROL_TSF;
      value := value & DMA_CONTROL_TC_TX_MASK;
      var ttc := ThresholdCode(txmode);
      value := value | ttc;
      InsertTtc(csr6, ttc);
      assert TxThreshold(value) == TxThreshold(ttc);
    }

    /** The transmit half of dwmac1000_dma_operation_mode. */
    static method SelectTx(csr6: bv32, txmode: int) returns (value: bv32)
      ensures SameOutsideTx(value, csr6)
      ensures txmode == SF_DMA_MODE ==>
                value & DMA_CONTROL_TSF != 0 && value & DMA_CONTROL_OSF != 0
                && TxThreshold(value) == TxThreshold(csr6)
      ensures txmode != SF_DMA_MODE ==>
                value & DMA_CONTROL_TSF == 0 && value & DMA_CONTROL_OSF == csr6 & DMA_CONTROL_OSF
                && LeastLevel(TX_LEVELS, TxThreshold(value), txmode)
    {
      hide SameOutsideTx, TxThreshold, LeastLevel;
      if txmode == SF_DMA_MODE {
        value := StoreAndForward(csr6);
      } else {
        value := CutThrough(csr6, txmode);
      }
    }

    /** The receive half of dwmac1000_dma_operation_mode. */
    static method SelectRx(csr6: bv32, rxmode: int) returns (value: bv32)
      ensures value & OUTSIDE_RX == csr6 & OUTSIDE_RX
      ensures rxmode == SF_DMA_MODE ==>
                value & DMA_CONTROL_RSF != 0 && RxThreshold(value) == RxThreshold(csr6)
      ensures rxmode != SF_DMA_MODE ==>
                value & DMA_CONTROL_RSF == 0 && LeastLevel(RX_LEVELS, RxThreshold(value), rxmode)
    {
      value := csr6;
      if rxmode == SF_DMA_MODE {
        value := value | DMA_CONTROL_RSF;
      } else {
        value := value & !DMA_CONTROL_RSF;
        value := value & DMA_CONTROL_TC_RX_MASK;
        if rxmode <= 32 {
          value := value | DMA_CONTROL_RTC_32;
          assert RxThreshold(value) == 32;
        } else if rxmode <= 64 {
          value := value | DMA_CONTROL_RTC_64;
          assert RxThreshold(value) == 64;
        } else if rxmode <= 96 {
          value := value | DMA_CONTROL_RTC_96;
          assert RxThreshold(value) == 96;
        } else {
          value := value | DMA_CONTROL_RTC_128;
          assert RxThreshold(value) == 128;
        }
      }
    }

    /** dwmac1000_dma_operation_mode */
    method SetOperationMode(txmode: int, rxmode: int)
      modifies this`csr6
      ensures csr6 & UNTOUCHED == old(csr6) & UNTOUCHED
      ensures txmode == SF_DMA_MODE ==>
                csr6 & DMA_CONTROL_TSF != 0 && csr6 & DMA_CONTROL_OSF != 0
                && TxThreshold(csr6) == TxThreshold(old(csr6))
      ensures txmode != SF_DMA_MODE ==>
                csr6 & DMA_CONTROL_TSF == 0 && csr6 & DMA_CONTROL_OSF == old(csr6) & DMA_CONTROL_OSF
                && LeastLevel(TX_LEVELS, TxThreshold(csr6), txmode)
      ensures rxmode == SF_DMA_MODE ==>
                csr6 & DMA_CONTROL_RSF != 0 && RxThreshold(csr6) == RxThreshold(old(csr6))
      ensures rxmode != SF_DMA_MODE ==>
                csr6 & DMA_CONTROL_RSF == 0 && LeastLevel(RX_LEVELS, RxThreshold(csr6), rxmode)
    {
      var value := SelectTx(csr6, txmode);
      RxBlind(value, csr6);
      ghost var mid := value;
      value := SelectRx(value, rxmode);
      TxBlind(mid, value);
      csr6 := value;
    }

    /** The threshold is in range and programmed. */
    ghost predicate Programmed()
      reads this
    {
      && 2 <= tc <= 320
      && csr6 & DMA_CONTROL_TSF == 0
      && LeastLevel(TX_LEVELS, TxThreshold(csr6), tc)
    }

    /** The branch both interrupt handlers take on a transmit underflow. */
    method BumpThreshold()
      modifies this
      ensures tc == Bumped(old(tc))
      ensures tc == old(tc) ==> csr6 == old(csr6) && threshold == old(threshold)
      ensures tc != old(tc) ==> threshold == tc == old(tc) + 64
      ensures tc != old(tc) ==> csr6 & DMA_CONTROL_RSF != 0 && RxThreshold(csr6) == RxThreshold(old(csr6))
      ensures tc != old(tc) && old(tc) != -63 ==>
                csr6 & DMA_CONTROL_TSF == 0 && LeastLevel(TX_LEVELS, TxThreshold(csr6), tc)
      ensures csr6 & UNTOUCHED == old(csr6) & UNTOUCHED
      ensures old(Programmed()) ==> Programmed() && TxThreshold(csr6) >= TxThreshold(old(csr6))
    {
      if tc != SF_DMA_MODE && tc <= 256 {
        ghost var before := csr6;
        tc := tc + 64;
        SetOperationMode(tc, SF_DMA_MODE);
        threshold := tc;
        if 2 <= old(tc) && LeastLevel(TX_LEVELS, TxThreshold(before), old(tc)) {
          LevelsMonotone(TX_LEVELS, TxThreshold(before), old(tc), TxThreshold(csr6), tc);
        }
      }
    }
  }

  /** What an underflow makes of the threshold value. */
  function Bumped(tc: int): int {
    if tc != SF_DMA_MODE && tc <= 256 then tc + 64 else tc
  }

  /** The threshold value after `n` underflows. */
  function After(tc: int, n: nat): int {
    if n == 0 then tc else Bumped(After(tc, n - 1))
  }

  /** How many of the first `n` underflows raised it. */
  function Raises(tc: int, n: nat): nat {
    if n == 0 then 0
    else Raises(tc, n - 1) + (if After(tc, n) != After(tc, n - 1) then 1 else 0)
  }

  /** Over any run of underflows from a legal start the value stays in range, never
      becomes the store-and-forward code, rises by 64 a time and at most four times,
      and then never moves again. */
  lemma {:induction false} EscalationEnds(tc: int, n: nat)
    requires 2 <= tc <= 256
    ensures tc <= After(tc, n) <= 320 && After(tc, n) != SF_DMA_MODE
    ensures After(tc, n) == tc + 64 * Raises(tc, n)
    ensures Raises(tc, n) <= 4
    ensures n >= 4 ==> After(tc, n) > 256
  {
    if n > 0 {
      EscalationEnds(tc, n - 1);
      if n == 4 {
        assert After(tc, 1) == tc + 64;
        assert After(tc, 2) >= tc + 128 || After(tc, 2) > 256;
        assert After(tc, 3) >= tc + 192 || After(tc, 3) > 256;
      }
    }
  }

  /** A store-and-forward setting is left alone. */
  lemma {:induction false} StoreAndForwardStays(n: nat)
    ensures After(SF_DMA_MODE, n) == SF_DMA_MODE
  {
    if n > 0 { StoreAndForwardStays(n - 1); }
  }
}

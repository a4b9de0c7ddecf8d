/** Access to PHY registers through the MII address and data registers. The device may
complete a transaction at any poll or between two accesses; accesses exclude each
other. */
module Mdio {

  type u16 = x: nat | x < 0x1_0000

  /** A PHY and one of its registers. */
  datatype Target = Target(phy: bv32, reg: bv32)

  datatype Access = ReadReg(phyaddr: bv32, phyreg: bv32) | WriteReg(phyaddr: bv32, phyreg: bv32, value: u16)

  /** The MII address and data registers and the PHY's registers. A PHY that does not
      answer reads as all ones. */
  datatype Device = Device(addr: bv32, data: u16, phy: map<Target, u16>) {
    function PhyReg(t: Target): u16 {
      if t in phy then phy[t] else 0xffff
    }
  }

  // ---------------------------------------------------------------- the address register

  const MII_BUSY: bv32 := 0x0000_0001
  const MII_WRITE: bv32 := 0x0000_0002

  /** The command for a read, as the driver puts it together. */
  function ReadCommand(phyaddr: bv32, phyreg: bv32, clkCsr: bv32): bv32 {
    var value := ((phyaddr << 11) & 0x0000_F800) | ((phyreg << 6) & 0x0000_07C0);
    value | (MII_BUSY | ((clkCsr & 0xF) << 2))
  }

  function WriteCommand(phyaddr: bv32, phyreg: bv32, clkCsr: bv32): bv32 {
    var value := (((phyaddr << 11) & 0x0000_F800) | ((phyreg << 6) & 0x0000_07C0)) | MII_WRITE;
    value | (MII_BUSY | ((clkCsr & 0xF) << 2))
  }

  predicate IsBusy(cmd: bv32) {
    cmd & MII_BUSY != 0
  }

  predicate IsWrite(cmd: bv32) {
    cmd & MII_WRITE != 0
  }

  /** The device's view: PHY address in bits 15 to 11, register in bits 10 to 6. */
  function PhyOf(cmd: bv32): bv32 {
    (cmd >> 11) & 0x1F
  }

  function RegOf(cmd: bv32): bv32 {
    (cmd >> 6) & 0x1F
  }

  /** The clock range, in bits 5 to 2. */
  function ClockOf(cmd: bv32): bv32 {
    (cmd >> 2) & 0xF
  }

  /** The hardware clears the busy bit. */
  function Idle(cmd: bv32): bv32 {
    cmd & 0xFFFF_FFFE
  }

  function Low5(n: bv32): bv32 {
    n & 0x1F
  }

  function TargetOf(cmd: bv32): Target {
    Target(PhyOf(cmd), RegOf(cmd))
  }

  function Command(a: Access, clkCsr: bv32): bv32 {
    if a.ReadReg? then ReadCommand(a.phyaddr, a.phyreg, clkCsr) else WriteCommand(a.phyaddr, a.phyreg, clkCsr)
  }

  lemma ReadBits(p: bv32, r: bv32, c: bv32)
    ensures ReadCommand(p, r, c) & MII_BUSY != 0 && ReadCommand(p, r, c) & MII_WRITE == 0
    ensures PhyOf(ReadCommand(p, r, c)) == Low5(p) && RegOf(ReadCommand(p, r, c)) == Low5(r)
    ensures ReadCommand(p, r, c) <= 0xFFFF && ClockOf(ReadCommand(p, r, c)) == c & 0xF
  {
  }

  lemma WriteBits(p: bv32, r: bv32, c: bv32)
    ensures WriteCommand(p, r, c) & MII_BUSY != 0 && WriteCommand(p, r, c) & MII_WRITE != 0
    ensures PhyOf(WriteCommand(p, r, c)) == Low5(p) && RegOf(WriteCommand(p, r, c)) == Low5(r)
    ensures WriteCommand(p, r, c) <= 0xFFFF && ClockOf(WriteCommand(p, r, c)) == c & 0xF
  {
  }

  lemma IdleBits(cmd: bv32)
    ensures Idle(cmd) & MII_BUSY == 0
    ensures Idle(cmd) & MII_WRITE == cmd & MII_WRITE && PhyOf(Idle(cmd)) == PhyOf(cmd) && RegOf(Idle(cmd)) == RegOf(cmd)
  {
  }

  lemma Low5Small(n: bv32)
    ensures n < 32 ==> Low5(n) == n
    ensures Low5(n) < 32
  {
  }

  /** The command fits the 16-bit variable it is built in, and what the device makes of it
      is what was meant: busy, the right direction, and the low five bits of both numbers. */
  lemma CommandDecodes(a: Access, clkCsr: bv32)
    ensures var cmd := Command(a, clkCsr);
            && IsBusy(cmd) && IsWrite(cmd) == a.WriteReg? && cmd <= 0xFFFF
            && TargetOf(cmd) == Target(Low5(a.phyaddr), Low5(a.phyreg)) && ClockOf(cmd) == clkCsr & 0xF
  {
    hide ReadCommand, WriteCommand, PhyOf, RegOf, ClockOf, Low5;
    if a.ReadReg? {
      ReadBits(a.phyaddr, a.phyreg, clkCsr);
    } else {
      WriteBits(a.phyaddr, a.phyreg, clkCsr);
    }
  }

  /** Register 2 of PHY 1 at clock range 3. */
  lemma KnownCommands()
    ensures Command(ReadReg(1, 2), 3) == 0x0000_088D && Command(WriteReg(1, 2, 0), 3) == 0x0000_088F
  {
  }

  /** The register an access reaches. */
  function At(a: Access): Target {
    Target(Low5(a.phyaddr), Low5(a.phyreg))
  }

  /** Whatever their direction and clock range, two commands address the same register
      exactly when the low five bits of their numbers agree; five-bit numbers are told
      apart. */
  lemma SameRegisterIff(a: Access, c: bv32, b: Access, c': bv32)
    ensures TargetOf(Command(a, c)) == TargetOf(Command(b, c'))
            <==> Low5(a.phyaddr) == Low5(b.phyaddr) && Low5(a.phyreg) == Low5(b.phyreg)
    ensures a.phyaddr < 32 && b.phyaddr < 32 && a.phyreg < 32 && b.phyreg < 32 ==>
              (TargetOf(Command(a, c)) == TargetOf(Command(b, c'))
               <==> a.phyaddr == b.phyaddr && a.phyreg == b.phyreg)
  {
    CommandDecodes(a, c);
    CommandDecodes(b, c');
    Low5Small(a.phyaddr);
    Low5Small(a.phyreg);
    Low5Small(b.phyaddr);
    Low5Small(b.phyreg);
    hide Command, TargetOf, Low5;
  }

  // ---------------------------------------------------------------- transactions

  /** The device completes the pending transaction, if there is one. */
  function Settle(d: Device): Device {
    if !IsBusy(d.addr) then d
    else
      var t, idle := TargetOf(d.addr), Idle(d.addr);
      if IsWrite(d.addr) then d.(addr := idle, phy := d.phy[t := d.data])
      else d.(addr := idle, data := d.PhyReg(t))
  }

  /** The driver starts a transaction. */
  function Start(d: Device, a: Access, clkCsr: bv32): Device {
    d.(addr := Command(a, clkCsr), data := if a.WriteReg? then a.value else d.data)
  }

  /** How an access ends: refused because the previous transaction never finished, given
      up on after starting, or completed. */
  datatype Outcome = Refused | GivenUp | Completed

  /** What an access leaves behind. */
  function After(d: Device, a: Access, o: Outcome, clkCsr: bv32): Device {
    match o
    case Refused => d
    case GivenUp => Start(Settle(d), a, clkCsr)
    case Completed => Settle(Start(Settle(d), a, clkCsr))
  }

  /** Only a busy device refuses. */
  predicate Possible(d: Device, o: Outcome) {
    o.Refused? ==> IsBusy(d.addr)
  }

  class MiiBus {
    const clkCsr: bv32
    var addr: bv32
    var data: u16
    var phy: map<Target, u16>

    constructor (clkCsr: bv32, phy: map<Target, u16>)
      ensures this.clkCsr == clkCsr && Shown() == Device(0, 0, phy)
    {
      this.clkCsr, this.phy := clkCsr, phy;
      addr, data := 0, 0;
    }

    function Shown(): Device
      reads this
    {
      Device(addr, data, phy)
    }

    /** The device completes what it is working on, or not yet. */
    method DeviceMayComplete()
      modifies this
      ensures Shown() == old(Shown()) || Shown() == Settle(old(Shown()))
    {
      if * {
        if IsBusy(addr) {
          if IsWrite(addr) {
            phy := phy[TargetOf(addr) := data];
          } else {
            data := Shown().PhyReg(TargetOf(addr));
          }
          addr := Idle(addr);
        }
      }
    }

    /** stmmac_mdio_busy_wait: poll until the busy bit is clear or time is up. */
    method BusyWait() returns (timeout: bool)
      modifies this
      ensures timeout ==> Shown() == old(Shown()) && IsBusy(addr)
      ensures !timeout ==> Shown() == Settle(old(Shown())) && !IsBusy(addr)
    {
      var polls: nat :| 0 <= polls;
      while true
        invariant Shown() == old(Shown()) || (Shown() == Settle(old(Shown())) && !IsBusy(addr))
        decreases polls
      {
        DeviceMayComplete();
        if !IsBusy(addr) {
          return false;
        }
        if polls == 0 {
          return true;
        }
        polls := polls - 1;
      }
    }

    /** Writing a command to the address register. No transaction is ever started while
        another one is under way. */
    method WriteAddress(a: Access)
      requires !IsBusy(addr)
      modifies this`addr
      ensures addr == Command(a, clkCsr)
      ensures IsBusy(addr) && (IsWrite(addr) <==> a.WriteReg?) && TargetOf(addr) == At(a)
    {
      CommandDecodes(a, clkCsr);
      hide Command, TargetOf, IsBusy, IsWrite;
      addr := Command(a, clkCsr);
    }

    /** stmmac_mdio_read; `None` is -EBUSY. */
    method Read(phyaddr: bv32, phyreg: bv32) returns (outcome: Outcome, value: u16)
      modifies this
      ensures Possible(old(Shown()), outcome)
      ensures Shown() == After(old(Shown()), ReadReg(phyaddr, phyreg), outcome, clkCsr)
      ensures outcome.Refused? ==> Shown() == old(Shown())
      ensures outcome.Completed? ==> value == Settle(old(Shown())).PhyReg(At(ReadReg(phyaddr, phyreg)))
                                     && phy == Settle(old(Shown())).phy
      ensures outcome.Completed? ==> value == data && !IsBusy(addr)
    {
      value := 0;
      var a := ReadReg(phyaddr, phyreg);
      var timeout := BusyWait();
      if timeout {
        return Refused, value;
      }
      WriteAddress(a);
      timeout := BusyWait();
      if timeout {
        return GivenUp, value;
      }
      ReadFetches(old(Shown()), a, clkCsr);
      ReadKeepsPhy(old(Shown()), a, clkCsr);
      value := data;
      return Completed, value;
    }

    /** stmmac_mdio_write */
    method Write(phyaddr: bv32, phyreg: bv32, phydata: u16) returns (outcome: Outcome)
      modifies this
      ensures Possible(old(Shown()), outcome)
      ensures Shown() == After(old(Shown()), WriteReg(phyaddr, phyreg, phydata), outcome, clkCsr)
      ensures outcome.Refused? ==> Shown() == old(Shown())
      ensures outcome.Completed? ==>
                phy == Settle(old(Shown())).phy[At(WriteReg(phyaddr, phyreg, phydata)) := phydata]
      ensures outcome.Completed? ==> !IsBusy(addr)
    {
      var a := WriteReg(phyaddr, phyreg, phydata);
      var timeout := BusyWait();
      if timeout {
        return Refused;
      }
      data := phydata;
      WriteAddress(a);
      timeout := BusyWait();
      CommandDecodes(a, clkCsr);
      return if timeout then GivenUp else Completed;
    }
  }

  // ---------------------------------------------------------------- runs

  /** An access and how it ended, or the device completing something in between. */
  datatype Event = Did(a: Access, o: Outcome) | Completes

  ghost predicate StartsWriteTo(e: Event, t: Target) {
    e.Did? && e.a.WriteReg? && !e.o.Refused? && At(e.a) == t
  }

  function AfterAll(d: Device, es: seq<Event>, clkCsr: bv32): Device {
    if es == [] then d
    else
      var n := |es| - 1;
      var m := AfterAll(d, es[..n], clkCsr);
      match es[n]
      case Did(a, o) => After(m, a, o, clkCsr)
      case Completes => Settle(m)
  }

  /** Register `t` holds `v`, and no pending write will change that. */
  ghost predicate Keeps(d: Device, t: Target, v: u16) {
    && d.PhyReg(t) == v
    && (IsBusy(d.addr) && IsWrite(d.addr) ==> TargetOf(d.addr) != t)
  }

  lemma SettleIdles(d: Device)
    ensures !IsBusy(Settle(d).addr)
  {
    IdleBits(d.addr);
    hide Idle, PhyOf, RegOf;
  }

  lemma SettleKeeps(d: Device, t: Target, v: u16)
    requires Keeps(d, t, v)
    ensures Keeps(Settle(d), t, v)
  {
    SettleIdles(d);
  }

  lemma AccessKeeps(d: Device, e: Event, t: Target, v: u16, clkCsr: bv32)
    requires Keeps(d, t, v) && !StartsWriteTo(e, t) && e.Did?
    ensures Keeps(After(d, e.a, e.o, clkCsr), t, v)
  {
    SettleKeeps(d, t, v);
    SettleIdles(d);
    CommandDecodes(e.a, clkCsr);
    if !e.o.Refused? {
      assert Keeps(Start(Settle(d), e.a, clkCsr), t, v);
      SettleKeeps(Start(Settle(d), e.a, clkCsr), t, v);
    }
  }

  lemma {:induction false} RunKeepsRegister(d: Device, es: seq<Event>, t: Target, v: u16, clkCsr: bv32)
    requires Keeps(d, t, v) && forall i :: 0 <= i < |es| ==> !StartsWriteTo(es[i], t)
    ensures Keeps(AfterAll(d, es, clkCsr), t, v)
  {
    if es != [] {
      var n := |es| - 1;
      var m := AfterAll(d, es[..n], clkCsr);
      RunKeepsRegister(d, es[..n], t, v, clkCsr);
      if es[n].Did? { AccessKeeps(m, es[n], t, v, clkCsr); } else { SettleKeeps(m, t, v); }
    }
  }

  lemma WriteLands(d: Device, a: Access, clkCsr: bv32)
    requires a.WriteReg?
    ensures Keeps(After(d, a, Completed, clkCsr), At(a), a.value)
  {
    SettleIdles(Start(Settle(d), a, clkCsr));
    CommandDecodes(a, clkCsr);
  }

  lemma ReadKeepsPhy(d: Device, a: Access, clkCsr: bv32)
    requires a.ReadReg?
    ensures After(d, a, Completed, clkCsr).phy == Settle(d).phy
  {
    CommandDecodes(a, clkCsr);
  }

  lemma ReadFetches(d: Device, a: Access, clkCsr: bv32)
    requires a.ReadReg?
    ensures After(d, a, Completed, clkCsr).data == Settle(d).PhyReg(At(a))
  {
    CommandDecodes(a, clkCsr);
  }

  /** A completed write, then any accesses that start no write to that register, however
      they end and whenever the device completes them, then a completed read: the read
      returns what was written. */
  lemma RoundTrip(d: Device, w: Access, es: seq<Event>, r: Access, clkCsr: bv32)
    requires w.WriteReg? && r.ReadReg? && At(w) == At(r)
    requires forall i :: 0 <= i < |es| ==> !StartsWriteTo(es[i], At(w))
    ensures After(AfterAll(After(d, w, Completed, clkCsr), es, clkCsr), r, Completed, clkCsr).data == w.value
  {
    WriteLands(d, w, clkCsr);
    var m := AfterAll(After(d, w, Completed, clkCsr), es, clkCsr);
    RunKeepsRegister(After(d, w, Completed, clkCsr), es, At(w), w.value, clkCsr);
    SettleKeeps(m, At(w), w.value);
    ReadFetches(m, r, clkCsr);
  }

  /** A write that was given up on is not lost: it takes effect when the device completes. */
  lemma GivenUpWriteLands(d: Device, w: Access, clkCsr: bv32)
    requires w.WriteReg?
    ensures Settle(After(d, w, GivenUp, clkCsr)).PhyReg(At(w)) == w.value
  {
    WriteLands(d, w, clkCsr);
  }
}

/** Address filtering: the multicast hash tables of both cores and the GMAC's table of
unicast addresses. Control and hash registers are modelled as the set of their one
bits, the address registers by their numeric value at their byte offset. */
module Filter {

  type Bits = set<nat>
  type Byte = x: nat | x < 256
  type Index = x: nat | x < 64
  type MacAddr = a: seq<Byte> | |a| == 6 witness [0, 0, 0, 0, 0, 0]

  /** A 32-bit value, bit `i` at index `i`. */
  type Word = w: seq<bool> | |w| == 32 witness seq(32, _ => false)

  // ---------------------------------------------------------------- the hash

  function Pow2(n: nat): nat {
    if n == 0 then 1 else 2 * Pow2(n - 1)
  }

  /** The number a bit string denotes. */
  function Value(bits: seq<bool>): (v: nat)
    ensures v < Pow2(|bits|)
  {
    if bits == [] then 0 else (if bits[0] then 1 else 0) + 2 * Value(bits[1..])
  }

  function Not(bits: seq<bool>): seq<bool> {
    seq(|bits|, i requires 0 <= i < |bits| => !bits[i])
  }

  function BitRev(bits: seq<bool>): seq<bool> {
    seq(|bits|, i requires 0 <= i < |bits| => bits[|bits| - 1 - i])
  }

  function TopSix(w: Word): Index {
    assert Pow2(6) == 64;
    Value(w[26..])
  }

  /** The GMAC's bit number for an address whose CRC is `c`: it complements the CRC. */
  function GmacHash(c: Word): Index {
    TopSix(BitRev(Not(c)))
  }

  /** The 100 MBit core's. */
  function Mac100Hash(c: Word): Index {
    TopSix(BitRev(c))
  }

  function Weight(b: bool, w: nat): nat {
    if b then w else 0
  }

  /** The table bit the hardware looks up, from the low six bits of the CRC read backwards
      (and complemented, on the GMAC). */
  function GmacIndex(c: Word): Index {
    Weight(!c[5], 1) + Weight(!c[4], 2) + Weight(!c[3], 4) + Weight(!c[2], 8) + Weight(!c[1], 16) + Weight(!c[0], 32)
  }

  function Mac100Index(c: Word): Index {
    Weight(c[5], 1) + Weight(c[4], 2) + Weight(c[3], 4) + Weight(c[2], 8) + Weight(c[1], 16) + Weight(c[0], 32)
  }

  lemma ValueOfSix(b: seq<bool>)
    requires |b| == 6
    ensures Value(b) == Weight(b[0], 1) + Weight(b[1], 2) + Weight(b[2], 4) + Weight(b[3], 8)
                        + Weight(b[4], 16) + Weight(b[5], 32)
  {
    assert Value(b[5..]) == Weight(b[5], 1);
    assert b[4..][1..] == b[5..] && b[3..][1..] == b[4..] && b[2..][1..] == b[3..] && b[1..][1..] == b[2..];
    assert Value(b[4..]) == Weight(b[4], 1) + 2 * Value(b[5..]);
    assert Value(b[3..]) == Weight(b[3], 1) + 2 * Value(b[4..]);
    assert Value(b[2..]) == Weight(b[2], 1) + 2 * Value(b[3..]);
    assert Value(b[1..]) == Weight(b[1], 1) + 2 * Value(b[2..]);
  }

  /** The driver's shift and reversal compute the hardware's index. */
  lemma HashIsIndex(c: Word)
    ensures GmacHash(c) == GmacIndex(c) && Mac100Hash(c) == Mac100Index(c)
  {
    var g, m := BitRev(Not(c))[26..], BitRev(c)[26..];
    assert forall j :: 0 <= j < 6 ==> g[j] == !c[5 - j] && m[j] == c[5 - j];
    ValueOfSix(g);
    ValueOfSix(m);
    hide Weight;
    assert g[0] == !c[5] && g[1] == !c[4] && g[2] == !c[3] && g[3] == !c[2] && g[4] == !c[1] && g[5] == !c[0];
    assert m[0] == c[5] && m[1] == c[4] && m[2] == c[3] && m[3] == c[2] && m[4] == c[1] && m[5] == c[0];
  }

  lemma {:induction false} ValueNot(bits: seq<bool>)
    ensures Value(Not(bits)) == Pow2(|bits|) - 1 - Value(bits)
  {
    if bits != [] {
      ValueNot(bits[1..]);
      assert Not(bits)[1..] == Not(bits[1..]);
    }
  }

  /** The two cores number the same address from opposite ends of the table. */
  lemma HashesMirror(c: Word)
    ensures GmacHash(c) == 63 - Mac100Hash(c)
  {
    assert BitRev(Not(c))[26..] == Not(BitRev(c)[26..]);
    ValueNot(BitRev(c)[26..]);
    assert Pow2(6) == 64;
  }

  /** Some listed address has bit number `b`. */
  ghost predicate Listed(list: seq<MacAddr>, hash: MacAddr -> Index, b: nat) {
    exists i :: 0 <= i < |list| && hash(list[i]) == b
  }

  /** The two 32-bit halves hold exactly the bit numbers of the listed addresses. */
  ghost predicate TableOf(low: Bits, high: Bits, list: seq<MacAddr>, hash: MacAddr -> Index) {
    forall b: nat ::
      && (b in low <==> b < 32 && Listed(list, hash, b))
      && (b in high <==> b < 32 && Listed(list, hash, b + 32))
  }

  /** The multicast loop of either core. */
  method HashTable(list: seq<MacAddr>, hash: MacAddr -> Index) returns (low: Bits, high: Bits)
    ensures TableOf(low, high, list, hash)
  {
    var mcFilter := new Bits[2](_ => {});
    for i := 0 to |list|
      invariant TableOf(mcFilter[0], mcFilter[1], list[..i], hash)
    {
      var bitNr := hash(list[i]);
      ghost var before0, before1 := mcFilter[0], mcFilter[1];
      mcFilter[bitNr / 32] := mcFilter[bitNr / 32] + {bitNr % 32};
      TableNext(before0, before1, list, i, hash, mcFilter[0], mcFilter[1]);
    }
    assert list[..|list|] == list;
    low, high := mcFilter[0], mcFilter[1];
  }

  lemma ListedNext(list: seq<MacAddr>, i: nat, hash: MacAddr -> Index, b: nat)
    requires i < |list|
    ensures Listed(list[..i + 1], hash, b) <==> Listed(list[..i], hash, b) || hash(list[i]) == b
  {
    if Listed(list[..i], hash, b) {
      var k :| 0 <= k < i && hash(list[..i][k]) == b;
      assert list[..i + 1][k] == list[k];
    }
    if hash(list[i]) == b { assert list[..i + 1][i] == list[i]; }
    if Listed(list[..i + 1], hash, b) {
      var k :| 0 <= k < i + 1 && hash(list[..i + 1][k]) == b;
      assert k < i ==> list[..i][k] == list[k];
    }
  }

  lemma TableNext(low: Bits, high: Bits, list: seq<MacAddr>, i: nat, hash: MacAddr -> Index, low': Bits, high': Bits)
    requires i < |list| && TableOf(low, high, list[..i], hash)
    requires low' == (if hash(list[i]) < 32 then low + {hash(list[i])} else low)
    requires high' == (if hash(list[i]) < 32 then high else high + {hash(list[i]) - 32})
    ensures TableOf(low', high', list[..i + 1], hash)
  {
    forall b: nat
      ensures b in low' <==> b < 32 && Listed(list[..i + 1], hash, b)
      ensures b in high' <==> b < 32 && Listed(list[..i + 1], hash, b + 32)
    {
      ListedNext(list, i, hash, b);
      ListedNext(list, i, hash, b + 32);
    }
  }

  /** The order of the list, and repetitions in it, make no difference. */
  lemma TableUnique(list: seq<MacAddr>, list': seq<MacAddr>, hash: MacAddr -> Index,
                    low: Bits, high: Bits, low': Bits, high': Bits)
    requires forall a :: a in list <==> a in list'
    requires TableOf(low, high, list, hash) && TableOf(low', high', list', hash)
    ensures low == low' && high == high'
  {
    forall b: nat
      ensures b in low <==> b in low'
      ensures b in high <==> b in high'
    {
      ListedSame(list, list', hash, b);
      ListedSame(list, list', hash, b + 32);
    }
  }

  lemma ListedSame(list: seq<MacAddr>, list': seq<MacAddr>, hash: MacAddr -> Index, b: nat)
    requires forall a :: a in list <==> a in list'
    ensures Listed(list, hash, b) <==> Listed(list', hash, b)
  {
    if Listed(list, hash, b) {
      var i :| 0 <= i < |list| && hash(list[i]) == b;
      assert list[i] in list';
    }
    if Listed(list', hash, b) {
      var i :| 0 <= i < |list'| && hash(list'[i]) == b;
      assert list'[i] in list;
    }
  }

  /** Bit `b` of the 64-bit table. */
  predicate InTable(low: Bits, high: Bits, b: Index) {
    if b < 32 then b in low else b - 32 in high
  }

  /** A table by the driver's hash is one by the hardware's index. */
  lemma SameTable(low: Bits, high: Bits, list: seq<MacAddr>, f: MacAddr -> Index, g: MacAddr -> Index, crc: MacAddr -> Word)
    requires TableOf(low, high, list, f)
    requires (forall a: MacAddr :: f(a) == GmacHash(crc(a)) && g(a) == GmacIndex(crc(a)))
             || (forall a: MacAddr :: f(a) == Mac100Hash(crc(a)) && g(a) == Mac100Index(crc(a)))
    ensures TableOf(low, high, list, g)
  {
    forall a: MacAddr
      ensures f(a) == g(a)
    {
      HashIsIndex(crc(a));
    }
    hide GmacHash, GmacIndex, Mac100Hash, Mac100Index;
    forall b: nat
      ensures Listed(list, f, b) <==> Listed(list, g, b)
    {
    }
  }

  /** The tables the two cores build for one list are mirror images of each other, for
      any CRC function. */
  lemma TablesMirror(list: seq<MacAddr>, crc: MacAddr -> Word, low: Bits, high: Bits, low': Bits, high': Bits, b: Index)
    requires TableOf(low, high, list, a => GmacHash(crc(a)))
    requires TableOf(low', high', list, a => Mac100Hash(crc(a)))
    ensures InTable(low, high, b) <==> InTable(low', high', 63 - b)
  {
    var g, m := (a: MacAddr) => GmacHash(crc(a)), (a: MacAddr) => Mac100Hash(crc(a));
    ListedMirror(list, crc, b);
  }

  lemma ListedMirror(list: seq<MacAddr>, crc: MacAddr -> Word, b: Index)
    ensures Listed(list, a => GmacHash(crc(a)), b) <==> Listed(list, a => Mac100Hash(crc(a)), 63 - b)
  {
    forall i | 0 <= i < |list|
      ensures GmacHash(crc(list[i])) == 63 - Mac100Hash(crc(list[i]))
    {
      HashesMirror(crc(list[i]));
    }
  }

  // ---------------------------------------------------------------- the address registers

  const ADDRESS_ENABLE: nat := 0x8000_0000

  function HighOffset(reg: nat): nat {
    (if reg > 15 then 0x800 else 0x40) + reg * 8
  }

  function LowOffset(reg: nat): nat {
    (if reg > 15 then 0x804 else 0x44) + reg * 8
  }

  function HighWord(a: MacAddr): nat {
    (a[5] as nat) * 0x100 + a[4] + ADDRESS_ENABLE
  }

  function LowWord(a: MacAddr): nat {
    (a[3] as nat) * 0x100_0000 + (a[2] as nat) * 0x1_0000 + (a[1] as nat) * 0x100 + a[0]
  }

  /** The address in a pair of register words. */
  function Extract(high: nat, low: nat): MacAddr {
    [low % 0x100, low / 0x100 % 0x100, low / 0x1_0000 % 0x100, low / 0x100_0000 % 0x100,
     high % 0x100, high / 0x100 % 0x100]
  }

  lemma LowBytes(d: nat, c: nat, b: nat, a: nat)
    requires a < 256 && b < 256 && c < 256 && d < 256
    ensures var w := d * 0x100_0000 + c * 0x1_0000 + b * 0x100 + a;
            w % 0x100 == a && w / 0x100 % 0x100 == b && w / 0x1_0000 % 0x100 == c && w / 0x100_0000 % 0x100 == d
  {
    var w := d * 0x100_0000 + c * 0x1_0000 + b * 0x100 + a;
    assert w / 0x100 == d * 0x1_0000 + c * 0x100 + b;
    assert w / 0x1_0000 == d * 0x100 + c;
    assert w / 0x100_0000 == d;
  }

  lemma HighBytes(b: nat, a: nat)
    requires a < 256 && b < 256
    ensures var w := b * 0x100 + a + ADDRESS_ENABLE;
            w % 0x100 == a && w / 0x100 % 0x100 == b && w / ADDRESS_ENABLE == 1
  {
    var w := b * 0x100 + a + ADDRESS_ENABLE;
    assert w / 0x100 == b + 0x80_0000;
  }

  lemma ExtractInverts(a: MacAddr)
    ensures Extract(HighWord(a), LowWord(a)) == a
    ensures HighWord(a) / ADDRESS_ENABLE == 1
  {
    LowBytes(a[3], a[2], a[1], a[0]);
    HighBytes(a[5], a[4]);
  }

  /** The registers of different addresses never share a word, on either side of the
      break in the address map. */
  lemma OffsetsDistinct(i: nat, j: nat)
    ensures HighOffset(i) != LowOffset(j)
    ensures i != j ==> HighOffset(i) != HighOffset(j) && LowOffset(i) != LowOffset(j)
  {
  }

  /** The byte order: the address 00:11:22:33:44:55 and its words; and where the registers
      on both sides of the break are. */
  lemma KnownWords()
    ensures LowWord([0x00, 0x11, 0x22, 0x33, 0x44, 0x55]) == 0x3322_1100
    ensures HighWord([0x00, 0x11, 0x22, 0x33, 0x44, 0x55]) == 0x8000_5544
    ensures HighOffset(0) == 0x40 && LowOffset(0) == 0x44 && HighOffset(15) == 0xb8 && LowOffset(15) == 0xbc
    ensures HighOffset(16) == 0x880 && LowOffset(16) == 0x884 && HighOffset(31) == 0x8f8 && LowOffset(31) == 0x8fc
  {
  }

  /** The address space of the address registers, by byte offset. */
  type Space = map<nat, nat>

  function Read(m: Space, off: nat): nat {
    if off in m then m[off] else 0
  }

  function AddressAt(m: Space, reg: nat): MacAddr {
    Extract(Read(m, HighOffset(reg)), Read(m, LowOffset(reg)))
  }

  predicate EnabledAt(m: Space, reg: nat) {
    reg == 0 || Read(m, HighOffset(reg)) / ADDRESS_ENABLE % 2 == 1
  }

  /** Register `reg` holds the words of address `a`. */
  predicate HoldsAddress(m: Space, reg: nat, a: MacAddr) {
    Read(m, HighOffset(reg)) == HighWord(a) && Read(m, LowOffset(reg)) == LowWord(a)
  }

  lemma HeldReadsBack(m: Space, reg: nat, a: MacAddr)
    requires HoldsAddress(m, reg, a)
    ensures AddressAt(m, reg) == a && EnabledAt(m, reg)
  {
    ExtractInverts(a);
  }

  predicate BelongsTo(off: nat, reg: nat) {
    off == HighOffset(reg) || off == LowOffset(reg)
  }

  // ---------------------------------------------------------------- what the hardware lets through

  const FILTER_PR: nat := 0
  const FILTER_HMC: nat := 2
  const FILTER_PM: nat := 4

  predicate IsGroup(a: MacAddr) {
    a[0] % 2 == 1
  }

  /** The filter of a GMAC with `n` address registers: promiscuous, or pass all multicast,
      or a hash match on a group address, or an exact match with an enabled register. */
  ghost predicate GmacAccepts(filter: Bits, low: Bits, high: Bits, m: Space, n: nat, crc: MacAddr -> Word, a: MacAddr) {
    || FILTER_PR in filter
    || (IsGroup(a) && FILTER_PM in filter)
    || (IsGroup(a) && FILTER_HMC in filter && InTable(low, high, GmacIndex(crc(a))))
    || (exists reg: nat :: reg < n && EnabledAt(m, reg) && AddressAt(m, reg) == a)
  }

  const HASH_TABLE_SIZE: nat := 64
  const GMAC_MAX_PERFECT_ADDRESSES: nat := 32
  const DWMAC_CORE_3_40: int := 0x34

  function PerfectAddresses(id: int): nat {
    if id > DWMAC_CORE_3_40 then GMAC_MAX_PERFECT_ADDRESSES else GMAC_MAX_PERFECT_ADDRESSES / 2
  }

  const ALL_ONES: Bits := set b | 0 <= b < 32

  class GmacFilter {
    /** crc32_le(~0, address, 6) */
    const crc: MacAddr -> Word
    /** How many address registers this core has, register 0 among them. */
    const registers: nat
    var filter: Bits
    var hashLow: Bits
    var hashHigh: Bits
    var addr: Space

    constructor (crc: MacAddr -> Word, registers: nat)
      ensures this.crc == crc && this.registers == registers
    {
      this.crc, this.registers := crc, registers;
      filter, hashLow, hashHigh, addr := {}, {}, {}, map[];
    }

    /** dwmac1000_set_umac_addr */
    method SetUmacAddr(a: MacAddr, reg: nat)
      modifies this`addr
      ensures HoldsAddress(addr, reg, a)
      ensures var base := if reg > 15 then 0x800 + 8 * reg else 0x40 + 8 * reg;
              && Read(addr, base) == 0x8000_0000 + 0x100 * (a[5] as nat) + a[4]
              && Read(addr, base + 4)
                 == 0x100_0000 * (a[3] as nat) + 0x1_0000 * (a[2] as nat) + 0x100 * (a[1] as nat) + a[0]
      ensures forall off :: !BelongsTo(off, reg) ==> Read(addr, off) == Read(old(addr), off)
    {
      addr := addr[HighOffset(reg) := HighWord(a)];
      addr := addr[LowOffset(reg) := LowWord(a)];
    }

    /** dwmac1000_get_umac_addr: whichever address the register holds, that one. */
    method GetUmacAddr(reg: nat) returns (a: MacAddr)
      ensures forall x: MacAddr :: HoldsAddress(addr, reg, x) ==> a == x
      ensures a == AddressAt(addr, reg)
    {
      forall x: MacAddr | HoldsAddress(addr, reg, x)
        ensures AddressAt(addr, reg) == x
      {
        HeldReadsBack(addr, reg, x);
      }
      var high := Read(addr, HighOffset(reg));
      var low := Read(addr, LowOffset(reg));
      a := Extract(high, low);
    }

    /** The unicast loop: register `i` holds the `i`-th address, and register 0 and
        everything beyond the list are as before. */
    method SetUnicast(uc: seq<MacAddr>)
      modifies this`addr
      ensures forall k :: 0 <= k < |uc| ==> HoldsAddress(addr, k + 1, uc[k])
      ensures forall off :: (forall i :: 1 <= i <= |uc| ==> !BelongsTo(off, i)) ==>
                Read(addr, off) == Read(old(addr), off)
    {
      hide HoldsAddress;
      var reg := 1;
      for k := 0 to |uc|
        invariant reg == k + 1
        invariant forall j :: 0 <= j < k ==> HoldsAddress(addr, j + 1, uc[j])
        invariant forall off :: (forall i :: 1 <= i < reg ==> !BelongsTo(off, i)) ==>
                    Read(addr, off) == Read(old(addr), off)
      {
        ghost var before := addr;
        SetUmacAddr(uc[k], reg);
        forall j | 0 <= j < k
          ensures HoldsAddress(addr, j + 1, uc[j])
        {
          ElsewhereSame(before, addr, reg, j + 1, uc[j]);
        }
        reg := reg + 1;
      }
    }

    lemma ElsewhereSame(m: Space, m': Space, reg: nat, i: nat, a: MacAddr)
      requires i != reg && forall off :: !BelongsTo(off, reg) ==> Read(m', off) == Read(m, off)
      requires HoldsAddress(m, i, a)
      ensures HoldsAddress(m', i, a)
    {
      OffsetsDistinct(i, reg);
      OffsetsDistinct(reg, i);
    }

    /** Write the list, then read any of its registers back. */
    method UnicastRoundTrip(uc: seq<MacAddr>, i: nat) returns (a: MacAddr)
      requires 1 <= i <= |uc|
      modifies this`addr
      ensures a == uc[i - 1]
      ensures AddressAt(addr, 0) == AddressAt(old(addr), 0)
    {
      SetUnicast(uc);
      ZeroSame(old(addr), addr, |uc|);
      assert HoldsAddress(addr, (i - 1) + 1, uc[i - 1]);
      a := GetUmacAddr(i);
    }

    /** The multicast half of dwmac1000_set_filter. */
    method SetMulticast(mc: seq<MacAddr>, promisc: bool, allMulti: bool) returns (value: Bits)
      modifies this`hashLow, this`hashHigh
      ensures value == if promisc then {FILTER_PR} else if |mc| > HASH_TABLE_SIZE || allMulti then {FILTER_PM}
                       else if mc != [] then {FILTER_HMC} else {}
      ensures FILTER_HMC in value ==> TableOf(hashLow, hashHigh, mc, a => GmacHash(crc(a)))
      ensures FILTER_HMC in value ==> TableOf(hashLow, hashHigh, mc, a => GmacIndex(crc(a)))
      ensures FILTER_PM in value ==> hashLow == hashHigh == ALL_ONES
      ensures FILTER_HMC !in value && FILTER_PM !in value ==> hashLow == old(hashLow) && hashHigh == old(hashHigh)
    {
      value := {};
      if promisc {
        value := {FILTER_PR};
      } else if |mc| > HASH_TABLE_SIZE || allMulti {
        value := {FILTER_PM};
        hashHigh := ALL_ONES;
        hashLow := ALL_ONES;
      } else if mc != [] {
        value := {FILTER_HMC};
        hashLow, hashHigh := HashTable(mc, a => GmacHash(crc(a)));
        SameTable(hashLow, hashHigh, mc, a => GmacHash(crc(a)), a => GmacIndex(crc(a)), crc);
      }
    }

    /** dwmac1000_set_filter: every group address on the multicast list gets through, and
        so does every address on the unicast list as long as the core has a register for
        each besides register 0. If it has not, an address that is not a group address
        gets through exactly when it is among those that fit or in register 0. */
    method SetFilter(mc: seq<MacAddr>, uc: seq<MacAddr>, promisc: bool, allMulti: bool, id: int)
      modifies this
      ensures forall i :: 0 <= i < |mc| && IsGroup(mc[i]) ==>
                GmacAccepts(filter, hashLow, hashHigh, addr, registers, crc, mc[i])
      ensures FILTER_PR in filter || |uc| < registers ==>
                forall i :: 0 <= i < |uc| ==> GmacAccepts(filter, hashLow, hashHigh, addr, registers, crc, uc[i])
      ensures FILTER_PR !in filter && |uc| >= registers > 0 ==>
                forall i :: 0 <= i < |uc| && !IsGroup(uc[i]) ==>
                  (GmacAccepts(filter, hashLow, hashHigh, addr, registers, crc, uc[i])
                   <==> uc[i] == AddressAt(addr, 0) || uc[i] in uc[..registers - 1])
      ensures FILTER_PR in filter <==> promisc || |uc| > (if id > 0x34 then 32 else 16)
      ensures FILTER_PM in filter <==> !promisc && (|mc| > 64 || allMulti)
      ensures FILTER_HMC in filter <==> !promisc && !allMulti && 0 < |mc| <= 64
      ensures filter <= {FILTER_PR, FILTER_PM, FILTER_HMC}
      ensures FILTER_HMC in filter ==> TableOf(hashLow, hashHigh, mc, a => GmacIndex(crc(a)))
      ensures FILTER_PM in filter ==> forall b: nat :: b < 32 ==> b in hashLow && b in hashHigh
      ensures FILTER_HMC !in filter && FILTER_PM !in filter ==> hashLow == old(hashLow) && hashHigh == old(hashHigh)
      ensures |uc| <= (if id > 0x34 then 32 else 16) ==> forall k :: 0 <= k < |uc| ==> HoldsAddress(addr, k + 1, uc[k])
      ensures AddressAt(addr, 0) == AddressAt(old(addr), 0)
      ensures |uc| > (if id > 0x34 then 32 else 16) ==> addr == old(addr)
    {
      var value := SetMulticast(mc, promisc, allMulti);
      ghost var low, high := hashLow, hashHigh;
      var perfect := PerfectAddresses(id);
      if |uc| > perfect {
        value := value + {FILTER_PR};
      } else {
        SetUnicast(uc);
        ZeroSame(old(addr), addr, |uc|);
      }
      filter := value;
      forall i | 0 <= i < |mc| && IsGroup(mc[i])
        ensures GmacAccepts(filter, hashLow, hashHigh, addr, registers, crc, mc[i])
      {
        if FILTER_HMC in filter {
          ListedIsInTable(low, high, mc, a => GmacHash(crc(a)), i);
          HashIsIndex(crc(mc[i]));
        }
      }
      if |uc| <= perfect {
        Accepted(uc);
      }
    }

    /** Which listed addresses the registers let through. */
    lemma Accepted(uc: seq<MacAddr>)
      requires forall k :: 0 <= k < |uc| ==> HoldsAddress(addr, k + 1, uc[k])
      ensures |uc| < registers ==>
                forall i :: 0 <= i < |uc| ==> GmacAccepts(filter, hashLow, hashHigh, addr, registers, crc, uc[i])
      ensures FILTER_PR !in filter && |uc| >= registers > 0 ==>
                forall i :: 0 <= i < |uc| && !IsGroup(uc[i]) ==>
                  (GmacAccepts(filter, hashLow, hashHigh, addr, registers, crc, uc[i])
                   <==> uc[i] == AddressAt(addr, 0) || uc[i] in uc[..registers - 1])
    {
      forall k | 0 <= k < |uc|
        ensures AddressAt(addr, k + 1) == uc[k] && EnabledAt(addr, k + 1)
      {
        HeldReadsBack(addr, k + 1, uc[k]);
      }
      hide HoldsAddress, AddressAt, InTable;
      if |uc| < registers {
        forall i | 0 <= i < |uc|
          ensures GmacAccepts(filter, hashLow, hashHigh, addr, registers, crc, uc[i])
        {
          assert AddressAt(addr, i + 1) == uc[i] && EnabledAt(addr, i + 1);
        }
      } else if FILTER_PR !in filter && registers > 0 {
        forall i | 0 <= i < |uc| && !IsGroup(uc[i])
          ensures GmacAccepts(filter, hashLow, hashHigh, addr, registers, crc, uc[i])
                  <==> uc[i] == AddressAt(addr, 0) || uc[i] in uc[..registers - 1]
        {
          RegistersHold(uc, uc[i]);
        }
      }
    }

    lemma RegistersHold(uc: seq<MacAddr>, a: MacAddr)
      requires 0 < registers <= |uc|
      requires forall k :: 0 <= k < |uc| ==> AddressAt(addr, k + 1) == uc[k] && EnabledAt(addr, k + 1)
      ensures (exists reg: nat :: reg < registers && EnabledAt(addr, reg) && AddressAt(addr, reg) == a)
              <==> a == AddressAt(addr, 0) || a in uc[..registers - 1]
    {
      hide AddressAt;
      assert EnabledAt(addr, 0);
      if exists reg: nat :: reg < registers && EnabledAt(addr, reg) && AddressAt(addr, reg) == a {
        var reg: nat :| reg < registers && EnabledAt(addr, reg) && AddressAt(addr, reg) == a;
        if reg > 0 { assert uc[..registers - 1][reg - 1] == uc[reg - 1] == AddressAt(addr, (reg - 1) + 1); }
      }
      if a in uc[..registers - 1] {
        var k :| 0 <= k < registers - 1 && uc[..registers - 1][k] == a;
        assert uc[k] == a && EnabledAt(addr, k + 1) && AddressAt(addr, k + 1) == a;
      }
    }

    lemma ZeroSame(m: Space, m': Space, n: nat)
      requires forall off :: (forall i :: 1 <= i <= n ==> !BelongsTo(off, i)) ==> Read(m', off) == Read(m, off)
      ensures AddressAt(m', 0) == AddressAt(m, 0)
    {
      forall i | 1 <= i <= n
        ensures !BelongsTo(HighOffset(0), i) && !BelongsTo(LowOffset(0), i)
      {
        OffsetsDistinct(0, i);
        OffsetsDistinct(i, 0);
      }
    }
  }

  lemma ListedIsInTable(low: Bits, high: Bits, list: seq<MacAddr>, hash: MacAddr -> Index, i: nat)
    requires TableOf(low, high, list, hash) && i < |list|
    ensures InTable(low, high, hash(list[i]))
  {
    assert Listed(list, hash, hash(list[i]));
  }

  // ---------------------------------------------------------------- the 100 MBit core

  /** The filter bits of its control register: 19, 18, 17, 15 and 13. */
  const CONTROL_PM: nat := 19
  const CONTROL_PR: nat := 18
  const CONTROL_IF: nat := 17
  const CONTROL_HO: nat := 15
  const CONTROL_HP: nat := 13
  const FILTER_BITS: Bits := {CONTROL_PM, CONTROL_PR, CONTROL_IF, CONTROL_HO, CONTROL_HP}

  /** Its filter, for a group address. */
  predicate Mac100AcceptsGroup(control: Bits, low: Bits, high: Bits, crc: MacAddr -> Word, a: MacAddr) {
    || CONTROL_PR in control
    || CONTROL_PM in control
    || (CONTROL_HP in control && CONTROL_IF !in control && InTable(low, high, Mac100Index(crc(a))))
  }

  class Mac100Filter {
    /** crc32_le(~0, address, 6) */
    const crc: MacAddr -> Word
    var control: Bits
    var hashLow: Bits
    var hashHigh: Bits

    constructor (crc: MacAddr -> Word, control: Bits)
      ensures this.crc == crc && this.control == control
    {
      this.crc, this.control := crc, control;
      hashLow, hashHigh := {}, {};
    }

    /** dwmac100_set_filter: every group address on the list gets through, and control
        bits other than the filter's keep their value. */
    method SetFilter(mc: seq<MacAddr>, promisc: bool, allMulti: bool)
      modifies this
      ensures forall i :: 0 <= i < |mc| ==> Mac100AcceptsGroup(control, hashLow, hashHigh, crc, mc[i])
      ensures control - FILTER_BITS == old(control) - FILTER_BITS
      ensures CONTROL_PR in control <==> promisc
      ensures CONTROL_PM in control <==> !promisc && (|mc| > 64 || allMulti)
      ensures CONTROL_HP in control <==>
                !promisc && (if |mc| > 64 || allMulti then CONTROL_HP in old(control) else mc != [])
      ensures CONTROL_IF !in control && CONTROL_HO !in control
      ensures !promisc && !allMulti && 0 < |mc| <= 64 ==>
                TableOf(hashLow, hashHigh, mc, a => Mac100Index(crc(a)))
      ensures CONTROL_PM in control ==> forall b: nat :: b < 32 ==> b in hashLow && b in hashHigh
      ensures promisc || (mc == [] && !allMulti) ==> hashLow == old(hashLow) && hashHigh == old(hashHigh)
    {
      var value := control;
      if promisc {
        value := value + {CONTROL_PR};
        value := value - {CONTROL_PM, CONTROL_IF, CONTROL_HO, CONTROL_HP};
      } else if |mc| > HASH_TABLE_SIZE || allMulti {
        value := value + {CONTROL_PM};
        value := value - {CONTROL_PR, CONTROL_IF, CONTROL_HO};
        hashHigh := ALL_ONES;
        hashLow := ALL_ONES;
      } else if mc == [] {
        value := value - {CONTROL_PM, CONTROL_PR, CONTROL_IF, CONTROL_HO, CONTROL_HP};
      } else {
        value := value + {CONTROL_HP};
        value := value - {CONTROL_PM, CONTROL_PR, CONTROL_IF, CONTROL_HO};
        hashLow, hashHigh := HashTable(mc, a => Mac100Hash(crc(a)));
        SameTable(hashLow, hashHigh, mc, a => Mac100Hash(crc(a)), a => Mac100Index(crc(a)), crc);
        forall i | 0 <= i < |mc|
          ensures InTable(hashLow, hashHigh, Mac100Index(crc(mc[i])))
        {
          ListedIsInTable(hashLow, hashHigh, mc, a => Mac100Hash(crc(a)), i);
          HashIsIndex(crc(mc[i]));
        }
      }
      control := value;
    }
  }
}

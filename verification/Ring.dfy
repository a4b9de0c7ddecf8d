/** Index arithmetic of the descriptor rings.

The driver counts descriptors with free-running 32-bit counters and finds a
descriptor's slot with a modulo. The models in this project count with
unbounded positions; this module says when the two agree.
*/
module Ring {

  const TWO32: nat := 0x1_0000_0000

  newtype u32 = x: int | 0 <= x < 0x1_0000_0000

  /** The ring slot of position `p`. */
  function Slot(p: nat, size: nat): (k: nat)
    requires size > 0
    ensures k < size
  {
    p % size
  }

  /** The value a free-running 32-bit counter shows at position `p`. */
  function Wrap(p: nat): (c: u32) {
    (p % TWO32) as u32
  }

  /** C's unsigned increment. */
  function Inc32(c: u32): u32 {
    if c == 0xffff_ffff then 0 else c + 1
  }

  /** C's unsigned addition. */
  function Add32(a: u32, b: u32): u32 {
    ((a as int + b as int) % TWO32) as u32
  }

  /** C's unsigned subtraction. */
  function Sub32(a: u32, b: u32): u32 {
    ((a as int - b as int) % TWO32) as u32
  }

  lemma ModUnique(n: nat, d: nat, q: nat, r: nat)
    requires d > 0 && r < d && n == q * d + r
    ensures n % d == r
  {
    var q', r' := n / d, n % d;
    assert n == q' * d + r';
    assert (q - q') * d == r' - r;
    assert q - q' >= 1 ==> (q - q') * d >= d;
    assert q - q' <= -1 ==> (q - q') * d + d <= 0;
  }

  lemma SlotsDistinct(p: nat, q: nat, size: nat)
    requires p < q < p + size
    ensures Slot(p, size) != Slot(q, size)
  {
    var n := q / size - p / size;
    assert q - p == n * size + (q % size - p % size);
    assert n >= 1 ==> n * size >= size;
    assert n <= 0 ==> n * size <= 0;
  }

  /** Position `p + size` re-uses the slot of position `p`. */
  lemma SlotPeriodic(p: nat, size: nat)
    requires size > 0
    ensures Slot(p + size, size) == Slot(p, size)
  {
    var a := p / size;
    assert p + size == (a + 1) * size + p % size;
    ModUnique(p + size, size, a + 1, p % size);
  }

  /** Every slot is the slot of some position in a window of `size` positions. */
  lemma WindowCovers(lo: nat, k: nat, size: nat) returns (p: nat)
    requires k < size
    ensures lo <= p < lo + size && Slot(p, size) == k
  {
    var base := lo / size * size;
    assert lo == base + lo % size;
    if k >= lo % size {
      p := base + k;
      ModUnique(p, size, lo / size, k);
    } else {
      p := base + size + k;
      assert p == (lo / size + 1) * size + k;
      ModUnique(p, size, lo / size + 1, k);
    }
  }

  /** Both counters of a ring whose size divides 2^32 find the same slot. */
  lemma WrapSlot(p: nat, size: nat)
    requires size > 0 && TWO32 % size == 0
    ensures (Wrap(p) as int) % size == Slot(p, size)
  {
    var c := p % TWO32;
    var m := TWO32 / size;
    var t := p / TWO32;
    assert TWO32 == m * size;
    assert p == t * TWO32 + c;
    assert p == (t * m) * size + c;
    var q := c / size;
    assert c == q * size + c % size;
    assert p == (t * m + q) * size + c % size;
    ModUnique(p, size, t * m + q, c % size);
  }

  /** The slot sequence of a wrapping counter is continuous exactly when the ring
      size divides 2^32; at any other size the slot jumps where the counter wraps. */
  lemma WrapContinuousIff(size: nat)
    requires 0 < size
    ensures (forall p: nat :: (Wrap(p + 1) as int) % size == Slot((Wrap(p) as int) % size + 1, size))
            <==> TWO32 % size == 0
  {
    if TWO32 % size == 0 {
      forall p: nat
        ensures (Wrap(p + 1) as int) % size == Slot((Wrap(p) as int) % size + 1, size)
      {
        WrapSlot(p, size);
        WrapSlot(p + 1, size);
        ModSucc(p, size);
      }
    }
    if forall p: nat :: (Wrap(p + 1) as int) % size == Slot((Wrap(p) as int) % size + 1, size) {
      var p := TWO32 - 1;
      assert Wrap(p) as int == TWO32 - 1 && Wrap(p + 1) == 0;
      assert (Wrap(p + 1) as int) % size == Slot((Wrap(p) as int) % size + 1, size);
      ModSucc(TWO32 - 1, size);
      ModUnique(0, size, 0, 0);
    }
  }

  lemma ModSucc(p: nat, size: nat)
    requires size > 0
    ensures Slot(Slot(p, size) + 1, size) == Slot(p + 1, size)
  {
    var a, r := p / size, p % size;
    if r + 1 < size {
      assert p + 1 == a * size + (r + 1);
      ModUnique(p + 1, size, a, r + 1);
      ModUnique(r + 1, size, 0, r + 1);
    } else {
      assert p + 1 == (a + 1) * size + 0;
      ModUnique(p + 1, size, a + 1, 0);
      ModUnique(r + 1, size, 1, 0);
    }
  }

  /** Incrementing the 32-bit counter follows the position, across the wrap. */
  lemma WrapInc(p: nat)
    ensures Inc32(Wrap(p)) == Wrap(p + 1)
  {
  }

  /** A difference of positions below 2^32 survives the wrap. */
  lemma WrapSub(hi: nat, lo: nat)
    requires lo <= hi < lo + TWO32
    ensures Sub32(Wrap(hi), Wrap(lo)) as int == hi - lo
  {
  }
}

/** Optional values in an array of slots, and how often a value occurs. */
module Slots {

  datatype Option<+T> = None | Some(value: T)

  function Holds<T>(o: Option<T>): seq<T> {
    match o case None => [] case Some(x) => [x]
  }

  /** How often `x` occurs in a list. */
  ghost function Count<T>(xs: seq<T>, x: T): nat {
    if xs == [] then 0
    else
      var n := |xs| - 1;
      Count(xs[..n], x) + (if xs[n] == x then 1 else 0)
  }

  /** The values in an array of slots, in slot order. */
  function InSlots<T>(skb: seq<Option<T>>): seq<T> {
    if skb == [] then []
    else
      var n := |skb| - 1;
      InSlots(skb[..n]) + Holds(skb[n])
  }

  lemma {:induction false} CountAppend<T>(a: seq<T>, b: seq<T>, x: T)
    ensures Count(a + b, x) == Count(a, x) + Count(b, x)
  {
    if b == [] {
      assert a + b == a;
    } else {
      var n := |b| - 1;
      assert (a + b)[..|a + b| - 1] == a + b[..n];
      CountAppend(a, b[..n], x);
    }
  }

  lemma {:induction false} CountIsMultiplicity<T>(xs: seq<T>, x: T)
    ensures multiset(xs)[x] == Count(xs, x)
  {
    if xs != [] {
      var n := |xs| - 1;
      assert xs == xs[..n] + [xs[n]];
      CountIsMultiplicity(xs[..n], x);
    }
  }

  lemma {:induction false} InSlotsUpdate<T>(skb: seq<Option<T>>, k: nat, v: Option<T>, x: T)
    requires k < |skb|
    ensures Count(InSlots(skb[k := v]), x) + Count(Holds(skb[k]), x)
            == Count(InSlots(skb), x) + Count(Holds(v), x)
  {
    var n := |skb| - 1;
    var u := skb[k := v];
    CountAppend(InSlots(skb[..n]), Holds(skb[n]), x);
    CountAppend(InSlots(u[..n]), Holds(u[n]), x);
    if k == n {
      assert u[..n] == skb[..n];
    } else {
      assert u[..n] == skb[..n][k := v];
      InSlotsUpdate(skb[..n], k, v, x);
    }
  }

  lemma {:induction false} InSlotsNone<T>(skb: seq<Option<T>>)
    requires forall k :: 0 <= k < |skb| ==> skb[k] == None
    ensures InSlots(skb) == []
  {
    if skb != [] {
      InSlotsNone(skb[..|skb| - 1]);
    }
  }
}

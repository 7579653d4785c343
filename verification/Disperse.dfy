/**
 Redundancy of disperse subvolumes: the shift loop of GetRedundancy, and how a request's three
 disperse counts are completed and checked.
 */
module Disperse {
  import opened Wrappers

  function Pow2(l: nat): (p: nat)
    ensures p >= 1
  {
    if l == 0 then 1 else 2 * Pow2(l - 1)
  }

  /** l is the position of the highest set bit of n. */
  ghost predicate TopBit(n: nat, l: nat) {
    Pow2(l) <= n < 2 * Pow2(l)
  }

  /** `n & ^(1 << l)`. */
  function ClearBit(n: nat, l: nat): nat {
    if n / Pow2(l) % 2 == 1 then n - n / Pow2(l) % 2 * Pow2(l) else n
  }

  /** The largest power of two not above n. */
  function LargestPower(n: nat): nat
    requires n >= 1
  {
    if n == 1 then 1 else 2 * LargestPower(n / 2)
  }

  lemma {:induction false} LargestPowerBounds(n: nat)
    requires n >= 1
    ensures 1 <= LargestPower(n) <= n < 2 * LargestPower(n)
  {
    if n > 1 {
      LargestPowerBounds(n / 2);
    }
  }

  lemma {:induction false} TopBitIsLargest(n: nat, l: nat)
    requires n >= 1 && TopBit(n, l)
    ensures LargestPower(n) == Pow2(l)
  {
    if l == 0 {
      assert n == 1;
    } else {
      assert TopBit(n / 2, l - 1);
      TopBitIsLargest(n / 2, l - 1);
    }
  }

  lemma ClearTopBit(n: nat, l: nat)
    requires TopBit(n, l)
    ensures ClearBit(n, l) == n - Pow2(l)
  {
    var p := Pow2(l);
    assert n / p == 1 by {
      assert n == p * 1 + (n - p) && 0 <= n - p < p;
      DivOne(n, p);
    }
  }

  lemma DivOne(n: nat, p: nat)
    requires 0 < p <= n < 2 * p
    ensures n / p == 1
  {
  }

  /** What the redundancy of n bricks should be: the bricks beyond the largest power of two, or one
      when there are none. */
  function RedundancyOf(n: nat): nat {
    if n == 0 || n == LargestPower(n) then 1 else if n > LargestPower(n) then n - LargestPower(n) else 0
  }

  /** A majority of the bricks always holds data, and their number is the largest power of two not
      above n, or n - 1 when n is itself one. */
  lemma RedundancyIsMinority(n: nat)
    requires n >= 3
    ensures 1 <= RedundancyOf(n) && 2 * RedundancyOf(n) < n
    ensures n - RedundancyOf(n) == if n == LargestPower(n) then n - 1 else LargestPower(n)
  {
    LargestPowerBounds(n);
  }

  ghost predicate Within(temp: nat, p: nat, n: nat) {
    temp * p <= n < (temp + 1) * p
  }

  /** One shift: the quotient halves while the divisor doubles. */
  lemma Shift(temp: nat, p: nat, n: nat)
    requires Within(temp, p, n)
    ensures Within(temp / 2, 2 * p, n)
    ensures temp != 0 ==> p <= n
  {
    var half := temp / 2;
    MulLe(2 * half, temp, p);
    MulLe(temp + 1, 2 * (half + 1), p);
    MulDouble(half, p);
    MulDouble(half + 1, p);
    if temp != 0 {
      MulLe(1, temp, p);
    }
  }

  lemma MulDouble(a: nat, p: nat)
    ensures a * (2 * p) == 2 * a * p
  {
  }

  method GetRedundancy(disperse: nat) returns (r: nat)
    ensures r == RedundancyOf(disperse) && r >= 1
  {
    var l := 0;
    var temp: nat := disperse / 2;
    ghost var p := 2;
    while temp != 0
      invariant p == 2 * Pow2(l) && Within(temp, p, disperse)
      invariant disperse >= 1 ==> Pow2(l) <= disperse
    {
      Shift(temp, p, disperse);
      temp := temp / 2;
      p := 2 * p;
      l := l + 1;
    }
    if disperse == 0 {
      assert ClearBit(0, l) == 0;
    } else {
      ClearTopBit(disperse, l);
      TopBitIsLargest(disperse, l);
      LargestPowerBounds(disperse);
    }
    var red := ClearBit(disperse, l);
    if red != 0 {
      return red;
    }
    return 1;
  }

  // ---------------------------------------------------------------- completing a request

  const TWO_63: int := 0x8000_0000_0000_0000
  const TWO_64: int := 0x1_0000_0000_0000_0000

  /** Two's complement 64-bit arithmetic. */
  function Int64(x: int): int {
    (x + TWO_63) % TWO_64 - TWO_63
  }

  function Uint64(x: int): nat {
    x % TWO_64
  }

  datatype Counts = Counts(count: int, data: int, redundancy: int)

  /** A request without any disperse count is not a disperse request. */
  predicate IsDisperse(c: Counts) {
    !(c.count == 0 && c.data == 0 && c.redundancy == 0)
  }

  /** Accepted disperse counts of reasonable size. */
  predicate Acceptable(c: Counts) {
    if c.data > 0 then 0 < c.redundancy < c.data
    else if c.redundancy > 0 then 2 * c.redundancy < c.count
    else c.count >= 3
  }

  /** The counts are numbers of the integer type. */
  predicate InRange(c: Counts) {
    -TWO_63 <= c.count < TWO_63 && -TWO_63 <= c.data < TWO_63 && -TWO_63 <= c.redundancy < TWO_63
  }

  /** Neither the total nor twice the redundancy overflows, and a count given alone is not negative. */
  predicate Sane(c: Counts) {
    && c.data + c.redundancy < TWO_63 && 2 * c.redundancy < TWO_63
    && (c.data > 0 || c.redundancy > 0 || c.count >= 0)
  }

  predicate Small(c: Counts) {
    InRange(c) && Sane(c)
  }

  predicate Complete(c: Counts) {
    c.count == c.data + c.redundancy && c.data > c.redundancy >= 1
  }

  /** What was asked for is kept: the data and redundancy counts, and the total when data was left
      open. */
  predicate Extends(c: Counts, d: Counts) {
    && (c.data > 0 ==> d.data == c.data)
    && (c.redundancy > 0 ==> d.redundancy == c.redundancy)
    && (c.data <= 0 ==> d.count == c.count)
  }

  lemma SmallRedundancy()
    ensures RedundancyOf(1) == 1 && RedundancyOf(2) == 1
  {
  }

  lemma Int64Id(x: int)
    requires -TWO_63 <= x < TWO_63
    ensures Int64(x) == x
  {
  }

  lemma Uint64Id(x: int)
    requires 0 <= x < TWO_64
    ensures Uint64(x) == x
  {
  }

  /** The counts after a request's handling, before the final check. */
  function Filled(c: Counts): Counts {
    var count := if c.data > 0 then Int64(c.data + c.redundancy) else c.count;
    var red := if c.redundancy <= 0 then Int64(RedundancyOf(Uint64(count))) else c.redundancy;
    var data := if c.data <= 0 then Int64(count - red) else c.data;
    Counts(count, data, red)
  }

  predicate Accepted(c: Counts) {
    !(c.data > 0 && c.redundancy <= 0) && !(Int64(2 * Filled(c).redundancy) >= Filled(c).count)
  }

  /** Every sane disperse request is accepted exactly when a strict majority of its bricks can hold
      data, and comes out complete. */
  lemma AcceptedExactly(c: Counts)
    requires IsDisperse(c) && Small(c)
    ensures Accepted(c) <==> Acceptable(c)
    ensures Accepted(c) ==> Complete(Filled(c)) && Extends(c, Filled(c))
  {
    if c.data > 0 {
      if c.redundancy > 0 {
        Int64Id(c.data + c.redundancy);
        Int64Id(2 * c.redundancy);
      }
    } else if c.redundancy > 0 {
      Int64Id(2 * c.redundancy);
      if 2 * c.redundancy < c.count {
        Int64Id(c.count - c.redundancy);
      }
    } else {
      Uint64Id(c.count);
      if c.count >= 3 {
        RedundancyIsMinority(c.count);
      } else {
        SmallRedundancy();
      }
      var red := RedundancyOf(c.count);
      Int64Id(red);
      Int64Id(c.count - red);
      Int64Id(2 * red);
    }
  }

  /** A request that gives only the number of bricks gets as many data bricks as the largest power of two
      below that number, or all but one when the number is itself a power of two. */
  lemma DefaultCounts(c: Counts) returns (l: nat)
    requires Small(c) && c.data <= 0 && c.redundancy <= 0 && c.count >= 3
    ensures TopBit(c.count, l) && Accepted(c) && Filled(c).count == c.count
    ensures Filled(c).data == (if c.count == Pow2(l) then c.count - 1 else Pow2(l))
    ensures Filled(c).redundancy == c.count - Filled(c).data
  {
    l := TopBitOf(c.count);
    TopBitIsLargest(c.count, l);
    AcceptedExactly(c);
    Uint64Id(c.count);
    RedundancyIsMinority(c.count);
    Int64Id(RedundancyOf(c.count));
    Int64Id(c.count - RedundancyOf(c.count));
  }

  lemma {:induction false} TopBitOf(n: nat) returns (l: nat)
    requires n >= 1
    ensures TopBit(n, l)
  {
    if n == 1 {
      l := 0;
    } else {
      var k := TopBitOf(n / 2);
      l := k + 1;
    }
  }

  /** The requests that are not sane and accepted all the same. */
  predicate SlipsThrough(c: Counts) {
    if c.data > 0 then c.data + c.redundancy < TWO_63 || (2 * c.redundancy >= TWO_63 && c.redundancy < c.data)
    else if c.redundancy > 0 then c.count > 2 * c.redundancy - TWO_64
    else c.count >= -TWO_63 / 2
  }

  lemma {:induction false} PowSum(a: nat, b: nat)
    ensures Pow2(a + b) == Pow2(a) * Pow2(b)
  {
    if a > 0 {
      PowSum(a - 1, b);
      MulAssoc(2, Pow2(a - 1), Pow2(b));
    }
  }

  lemma MulAssoc(a: int, b: int, c: int)
    ensures a * (b * c) == a * b * c
  {
  }

  lemma Pow63()
    ensures Pow2(63) == TWO_63
  {
    assert Pow2(3) == 8;
    hide Pow2;
    PowTwice(3, 8);
    PowTwice(7, 0x80);
    PowTwice(15, 0x8000);
    PowTwice(31, 0x8000_0000);
  }

  lemma PowTwice(l: nat, p: nat)
    requires Pow2(l) == p
    ensures Pow2(2 * l + 1) == 2 * (p * p)
  {
    PowSum(l, l);
  }

  /** A negative count is a huge unsigned number, whose redundancy is what lies above 2^63. */
  lemma NegativeRedundancy(count: int)
    requires -TWO_63 <= count < 0
    ensures Uint64(count) == count + TWO_64
    ensures RedundancyOf(Uint64(count)) == if count == -TWO_63 then 1 else count + TWO_63
  {
    var u := count + TWO_64;
    assert Uint64(count) == u;
    Pow63();
    hide Pow2;
    TopBitAt(u);
    TopBitIsLargest(u, 63);
  }

  lemma TopBitAt(u: nat)
    requires TWO_63 <= u < TWO_64 && Pow2(63) == TWO_63
    ensures TopBit(u, 63)
  {
    hide Pow2;
  }

  /** The rest of the integers: which insane requests are accepted, and that none comes out complete. */
  lemma AcceptedOtherwise(c: Counts)
    requires IsDisperse(c) && InRange(c) && !Sane(c)
    ensures Accepted(c) <==> SlipsThrough(c)
    ensures Accepted(c) ==> !Complete(Filled(c))
  {
    hide RedundancyOf;
    if c.data > 0 {
      Wraps(c.data + c.redundancy);
      Wraps(2 * c.redundancy);
    } else if c.redundancy > 0 {
      Wraps(2 * c.redundancy);
    } else {
      NegativeRedundancy(c.count);
      var red := RedundancyOf(Uint64(c.count));
      Int64Id(red);
      Wraps(2 * red);
    }
  }

  /** What is left when a sum or a double wraps around. */
  lemma Wraps(x: int)
    requires 0 <= x < TWO_64
    ensures Int64(x) == if x < TWO_63 then x else x - TWO_64
  {
  }

  /** Whatever is accepted comes out complete exactly when it was sane. */
  lemma CompleteExactly(c: Counts)
    requires IsDisperse(c) && InRange(c) && Accepted(c)
    ensures Complete(Filled(c)) <==> Sane(c)
  {
    if Sane(c) {
      AcceptedExactly(c);
    } else {
      AcceptedOtherwise(c);
    }
  }

  /** A request for more redundancy than data that is accepted, and a negative one. */
  lemma OverflowIsAccepted()
    ensures var c := Counts(0, 1, TWO_63 / 2); IsDisperse(c) && InRange(c) && Accepted(c) && !Complete(Filled(c))
    ensures var c := Counts(-4, 0, 0); IsDisperse(c) && InRange(c) && Accepted(c) && !Complete(Filled(c))
  {
    AcceptedOtherwise(Counts(0, 1, TWO_63 / 2));
    AcceptedOtherwise(Counts(-4, 0, 0));
  }

  class DisperseReq {
    var count: int
    var data: int
    var redundancy: int
    var isDisperse: bool

    function Value(): Counts
      reads this
    {
      Counts(count, data, redundancy)
    }

    constructor (c: Counts)
      ensures Value() == c && !isDisperse
    {
      count, data, redundancy, isDisperse := c.count, c.data, c.redundancy, false;
    }

    method Handle() returns (ok: bool)
      modifies this
      ensures isDisperse == (old(isDisperse) || IsDisperse(old(Value())))
      ensures !IsDisperse(old(Value())) ==> ok && Value() == old(Value())
      ensures IsDisperse(old(Value())) ==> ok == Accepted(old(Value()))
      ensures IsDisperse(old(Value())) && ok ==> Value() == Filled(old(Value()))
      ensures IsDisperse(old(Value())) && Small(old(Value())) && ok ==> Complete(Value())
    {
      if count == 0 && data == 0 && redundancy == 0 {
        return true;
      }
      isDisperse := true;
      ghost var c := Value();
      if Small(c) {
        AcceptedExactly(c);
      }
      hide Acceptable, Complete, Extends, Small, Int64, Uint64, RedundancyOf;
      if data > 0 && redundancy <= 0 {
        return false;
      }
      if data > 0 {
        count := Int64(data + redundancy);
      }
      if redundancy <= 0 {
        var r := GetRedundancy(Uint64(count));
        redundancy := Int64(r);
      }
      if data <= 0 {
        data := Int64(count - redundancy);
      }
      assert Value() == Filled(c);
      return !(Int64(2 * redundancy) >= count);
    }
  }
}

/**
 * Positional notation, most significant digit first. The number and bit
 * decoders are all specified by the value that a digit sequence denotes.
 */
module Positional {

  type byte = x: nat | x < 256

  function Pow(base: nat, n: nat): (p: nat)
    ensures base > 0 ==> p > 0
  {
    if n == 0 then 1 else base * Pow(base, n - 1)
  }

  /** The value of `ds` read in `base`, most significant digit first. */
  function Value(base: nat, ds: seq<nat>): nat {
    if ds == [] then 0 else Value(base, ds[..|ds| - 1]) * base + ds[|ds| - 1]
  }

  predicate DigitsBelow(base: nat, ds: seq<nat>) {
    forall i :: 0 <= i < |ds| ==> ds[i] < base
  }

  lemma MulAssociates(a: nat, b: nat, c: nat)
    ensures a * (b * c) == (a * b) * c
  {
  }

  lemma {:induction false} PowSum(base: nat, m: nat, n: nat)
    ensures Pow(base, m + n) == Pow(base, m) * Pow(base, n)
  {
    if m > 0 {
      PowSum(base, m - 1, n);
      MulAssociates(base, Pow(base, m - 1), Pow(base, n));
    }
  }

  lemma {:induction false} PowGrows(base: nat, m: nat, n: nat)
    requires base > 1 && m < n
    ensures Pow(base, m) < Pow(base, n)
    decreases n
  {
    assert Pow(base, n) == base * Pow(base, n - 1);
    assert base * Pow(base, n - 1) >= 2 * Pow(base, n - 1) by {
      MulGrows(2, base, Pow(base, n - 1));
    }
    if m < n - 1 {
      PowGrows(base, m, n - 1);
    }
  }

  lemma MulGrows(x: nat, y: nat, m: nat)
    requires x <= y
    ensures x * m <= y * m
  {
    assert (y - x) * m >= 0;
  }

  lemma ShiftIn(v: nat, p: nat, w: nat, base: nat, last: nat)
    ensures (v * p + w) * base + last == v * (base * p) + (w * base + last)
  {
    MulAssociates(v, p, base);
  }

  lemma {:induction false} ValueOfConcat(base: nat, a: seq<nat>, b: seq<nat>)
    ensures Value(base, a + b) == Value(base, a) * Pow(base, |b|) + Value(base, b)
  {
    if b == [] {
      assert a + b == a;
    } else {
      var init := b[..|b| - 1];
      ValueOfConcat(base, a, init);
      assert (a + b)[..|a + b| - 1] == a + init;
      ShiftIn(Value(base, a), Pow(base, |init|), Value(base, init), base, b[|b| - 1]);
    }
  }

  lemma {:induction false} ValueBelowPow(base: nat, ds: seq<nat>)
    requires base > 0 && DigitsBelow(base, ds)
    ensures Value(base, ds) < Pow(base, |ds|)
  {
    if ds != [] {
      var init, last := ds[..|ds| - 1], ds[|ds| - 1];
      ValueBelowPow(base, init);
      OneDigitMore(base, Value(base, init), last, Pow(base, |init|));
    }
  }

  lemma OneDigitMore(base: nat, v: nat, last: nat, p: nat)
    requires v < p && last < base
    ensures v * base + last < base * p
  {
    MulGrows(v + 1, p, base);
    assert (v + 1) * base == v * base + base;
  }

  /** A non-zero leading digit pins the order of magnitude. */
  lemma LeadingDigit(base: nat, ds: seq<nat>)
    requires ds != [] && ds[0] > 0
    ensures Value(base, ds) >= Pow(base, |ds| - 1)
  {
    assert ds == ds[..1] + ds[1..];
    ValueOfConcat(base, ds[..1], ds[1..]);
    assert Value(base, ds[..1]) == ds[0] by {
      assert Value(base, ds[..1][..0]) * base == 0;
    }
    MulGrows(1, ds[0], Pow(base, |ds| - 1));
  }

  lemma {:induction false} LeadingZeros(base: nat, zeros: seq<nat>, ds: seq<nat>)
    requires forall i :: 0 <= i < |zeros| ==> zeros[i] == 0
    ensures Value(base, zeros) == 0 && Value(base, zeros + ds) == Value(base, ds)
  {
    if zeros != [] {
      LeadingZeros(base, zeros[..|zeros| - 1], []);
    }
    ValueOfConcat(base, zeros, ds);
    assert 0 * Pow(base, |ds|) == 0;
  }

  /** Same length and same value: same digits. */
  lemma {:induction false} ValueIsInjective(base: nat, a: seq<nat>, b: seq<nat>)
    requires DigitsBelow(base, a) && DigitsBelow(base, b) && |a| == |b|
    requires Value(base, a) == Value(base, b)
    ensures a == b
  {
    if a != [] {
      var n := |a| - 1;
      SplitRemainder(base, Value(base, a[..n]), a[n], Value(base, b[..n]), b[n]);
      ValueIsInjective(base, a[..n], b[..n]);
      assert a == a[..n] + [a[n]] && b == b[..n] + [b[n]];
    }
  }

  lemma SplitRemainder(base: nat, q: nat, r: nat, q': nat, r': nat)
    requires r < base && r' < base && q * base + r == q' * base + r'
    ensures q == q' && r == r'
  {
    if q < q' {
      MulGrows(q + 1, q', base);
    } else if q' < q {
      MulGrows(q' + 1, q, base);
    }
  }

  /** Without leading zeros the value alone determines the digits. */
  lemma MinimalDigitsAreUnique(base: nat, a: seq<nat>, b: seq<nat>)
    requires base > 1 && DigitsBelow(base, a) && DigitsBelow(base, b)
    requires a != [] ==> a[0] > 0
    requires b != [] ==> b[0] > 0
    requires Value(base, a) == Value(base, b)
    ensures a == b
  {
    if |a| < |b| {
      LongerIsLarger(base, a, b);
    } else if |b| < |a| {
      LongerIsLarger(base, b, a);
    } else {
      ValueIsInjective(base, a, b);
    }
  }

  lemma LongerIsLarger(base: nat, a: seq<nat>, b: seq<nat>)
    requires base > 1 && DigitsBelow(base, a) && |a| < |b| && b[0] > 0
    ensures Value(base, a) < Value(base, b)
  {
    ValueBelowPow(base, a);
    LeadingDigit(base, b);
    if |a| < |b| - 1 {
      PowGrows(base, |a|, |b| - 1);
    }
  }
}

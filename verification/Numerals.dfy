// Positional numerals: decimal text for JSON numbers, fixed-width digits for ULIDs.
module Numerals {
  import opened Text

  /** The number a digit sequence denotes, most significant digit first. */
  function ValueOf(ds: Text, base: nat): (v: nat)
  {
    if ds == [] then 0 else ValueOf(ds[..|ds| - 1], base) * base + ds[|ds| - 1]
  }

  /** The `width` low-order base-32 digits of `n`. */
  function Base32Digits(n: nat, width: nat): (ds: Text)
    ensures |ds| == width
    ensures forall i :: 0 <= i < |ds| ==> ds[i] < 32
  {
    if width == 0 then [] else Base32Digits(n / 32, width - 1) + [n % 32]
  }

  function Pow(base: nat, k: nat): (p: nat)
    ensures base > 0 ==> p > 0
  {
    if k == 0 then 1 else Pow(base, k - 1) * base
  }

  lemma Pow10At15And16()
    ensures Pow(10, 15) == 1_000_000_000_000_000
    ensures Pow(10, 16) == 10_000_000_000_000_000
  {
    assert Pow(10, 4) == 10_000;
    assert Pow(10, 8) == 100_000_000;
    assert Pow(10, 12) == 1_000_000_000_000;
  }

  lemma {:induction false} ValueOfBase32Digits(n: nat, width: nat)
    requires n < Pow(32, width)
    ensures ValueOf(Base32Digits(n, width), 32) == n
  {
    if width > 0 {
      ValueOfBase32Digits(n / 32, width - 1);
      assert Base32Digits(n, width)[..width - 1] == Base32Digits(n / 32, width - 1);
    }
  }

  lemma MulMonotone(a: int, b: int, d: nat)
    requires a <= b
    ensures a * d <= b * d
  {}

  lemma {:induction false} ValueBelowPow(ds: Text, base: nat)
    requires forall i :: 0 <= i < |ds| ==> ds[i] < base
    ensures ValueOf(ds, base) < Pow(base, |ds|)
  {
    if ds != [] {
      var front := ds[..|ds| - 1];
      ValueBelowPow(front, base);
      var v, p := ValueOf(front, base), Pow(base, |front|);
      MulMonotone(v + 1, p, base);
      assert (v + 1) * base == v * base + base;
    }
  }

  lemma {:induction false} ValueAtLeastPow(ds: Text, base: nat)
    requires ds != [] && ds[0] > 0
    ensures ValueOf(ds, base) >= Pow(base, |ds| - 1)
  {
    var front := ds[..|ds| - 1];
    assert ValueOf(ds, base) >= ValueOf(front, base) * base;
    if front == [] {
      assert ValueOf(ds, base) == ds[0];
    } else {
      ValueAtLeastPow(front, base);
      MulMonotone(Pow(base, |front| - 1), ValueOf(front, base), base);
      assert front[0] == ds[0];
    }
  }

  /** For digit sequences of one width, text order is numeric order. */
  lemma {:induction false} OrderOfDigits(a: Text, b: Text, base: nat)
    requires |a| == |b|
    requires forall i :: 0 <= i < |a| ==> a[i] < base && b[i] < base
    ensures Less(a, b) <==> ValueOf(a, base) < ValueOf(b, base)
    ensures a == b <==> ValueOf(a, base) == ValueOf(b, base)
  {
    if a != [] {
      var n := |a| - 1;
      var fa, fb, x, y := a[..n], b[..n], a[n], b[n];
      OrderOfDigits(fa, fb, base);
      assert a == fa + [x] && b == fb + [y];
      LessOfAppended(fa, x, fb, y);
      ValueOrderOfAppended(ValueOf(fa, base), x, ValueOf(fb, base), y, base);
    }
  }

  lemma ValueOrderOfAppended(va: nat, x: nat, vb: nat, y: nat, base: nat)
    requires x < base && y < base
    ensures va * base + x < vb * base + y <==> va < vb || (va == vb && x < y)
    ensures va * base + x == vb * base + y <==> va == vb && x == y
  {
    if va < vb {
      assert (va + 1) * base <= vb * base;
    } else if vb < va {
      assert (vb + 1) * base <= va * base;
    }
  }

  lemma {:induction false} LessOfAppended(a: Text, x: Unit, b: Text, y: Unit)
    requires |a| == |b|
    ensures Less(a + [x], b + [y]) <==> Less(a, b) || (a == b && x < y)
  {
    if a == [] {
      assert Less([x][1..], [y][1..]) == false;
    } else {
      assert (a + [x])[1..] == a[1..] + [x] && (b + [y])[1..] == b[1..] + [y];
      LessOfAppended(a[1..], x, b[1..], y);
      assert a == [a[0]] + a[1..] && b == [b[0]] + b[1..];
    }
  }

  /** Renaming units in an order-preserving way preserves text order. */
  lemma {:induction false} LessOfRenamed(a: Text, b: Text, ra: Text, rb: Text)
    requires |ra| == |a| && |rb| == |b|
    requires forall i, j :: 0 <= i < |a| && 0 <= j < |b| ==>
              (a[i] < b[j] <==> ra[i] < rb[j]) && (a[i] == b[j] <==> ra[i] == rb[j])
    ensures Less(a, b) <==> Less(ra, rb)
  {
    if a != [] && b != [] && a[0] == b[0] {
      LessOfRenamed(a[1..], b[1..], ra[1..], rb[1..]);
    }
  }

  // ---------------------------------------------------------------- decimal text

  predicate AllDigits(t: Text) { forall i :: 0 <= i < |t| ==> '0' as int <= t[i] <= '9' as int }

  /** The digits of a decimal text as numbers. */
  function DigitValues(t: Text): (ds: Text)
    requires AllDigits(t)
    ensures |ds| == |t| && forall i :: 0 <= i < |ds| ==> ds[i] == t[i] - '0' as int
  {
    seq(|t|, i requires 0 <= i < |t| => t[i] - '0' as int)
  }

  function DecimalValue(t: Text): (v: nat)
    requires AllDigits(t)
  {
    ValueOf(DigitValues(t), 10)
  }

  /** Decimal text without a superfluous leading zero. */
  function Decimal(n: nat): (t: Text)
    ensures t != [] && AllDigits(t)
    ensures n > 0 ==> t[0] != '0' as int
  {
    if n < 10 then ['0' as int + n] else Decimal(n / 10) + ['0' as int + n % 10]
  }

  lemma {:induction false} DecimalValueOfDecimal(n: nat)
    ensures DecimalValue(Decimal(n)) == n
  {
    if n < 10 {
      assert DigitValues(Decimal(n)) == [n];
      assert ValueOf([n], 10) == ValueOf([], 10) * 10 + n;
    } else {
      DecimalValueOfDecimal(n / 10);
      var ds := DigitValues(Decimal(n));
      assert ds[..|ds| - 1] == DigitValues(Decimal(n / 10));
    }
  }
}

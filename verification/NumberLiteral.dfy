// The textual big-integer check of `canonicalizeJsonText` (packages/core/src/jcs.ts).
module NumberLiteral {
  import opened Text
  import opened Numerals
  import opened Jcs

  /** `/^-?\d+$/` */
  predicate MatchesSignedDigits(src: Text) {
    var body := if StartsWith(src, T("-")) then src[1..] else src;
    body != [] && AllDigits(body)
  }

  /** `/[.eE]/` */
  predicate HasFractionMark(src: Text) {
    '.' as int in src || 'e' as int in src || 'E' as int in src
  }

  /** `src.replace("-", "")`: the first minus sign only. */
  function WithoutFirstMinus(src: Text): Text {
    if src == [] then [] else if src[0] == '-' as int then src[1..] else [src[0]] + WithoutFirstMinus(src[1..])
  }

  predicate TooBig(digits: Text) {
    |digits| > 16 || (|digits| == 16 && Less(T("9007199254740991"), digits))
  }

  /** The reviver throws on this source token. */
  predicate LiteralRejected(src: Text) {
    !HasFractionMark(src) && MatchesSignedDigits(src) && TooBig(WithoutFirstMinus(src))
  }

  /** The integer literals of JSON (section 6 of RFC 8259): no superfluous leading zero. */
  predicate IsJsonInteger(src: Text) {
    var body := if StartsWith(src, T("-")) then src[1..] else src;
    body != [] && AllDigits(body) && (body[0] == '0' as int ==> |body| == 1)
  }

  function IntegerValue(src: Text): int
    requires IsJsonInteger(src)
  {
    if StartsWith(src, T("-")) then 0 - DecimalValue(src[1..]) else DecimalValue(src)
  }

  lemma MaxSafePrefix(t: Text)
    requires t == T("9007199254740991") && AllDigits(t)
    ensures DecimalValue(t[..8]) == 90071992
  {
    assert DigitValues(t[..0]) == [];
    OneMoreDigit(t, 0, 0);
    OneMoreDigit(t, 1, 9);
    OneMoreDigit(t, 2, 90);
    OneMoreDigit(t, 3, 900);
    OneMoreDigit(t, 4, 9007);
    OneMoreDigit(t, 5, 90071);
    OneMoreDigit(t, 6, 900719);
    OneMoreDigit(t, 7, 9007199);
  }

  lemma MaxSafeText()
    ensures AllDigits(T("9007199254740991"))
    ensures DecimalValue(T("9007199254740991")) == MAX_SAFE
  {
    hide DecimalValue;
    var t := T("9007199254740991");
    MaxSafePrefix(t);
    OneMoreDigit(t, 8, 90071992);
    OneMoreDigit(t, 9, 900719925);
    OneMoreDigit(t, 10, 9007199254);
    OneMoreDigit(t, 11, 90071992547);
    OneMoreDigit(t, 12, 900719925474);
    OneMoreDigit(t, 13, 9007199254740);
    OneMoreDigit(t, 14, 90071992547409);
    OneMoreDigit(t, 15, 900719925474099);
    assert t[..16] == t;
  }

  lemma OneMoreDigit(t: Text, k: nat, v: nat)
    requires AllDigits(t) && k < |t| && DecimalValue(t[..k]) == v
    ensures DecimalValue(t[..k + 1]) == v * 10 + (t[k] - '0' as int)
  {
    assert DigitValues(t[..k + 1])[..k] == DigitValues(t[..k]);
  }

  lemma {:induction false} NoMinusInDigits(t: Text)
    requires AllDigits(t)
    ensures WithoutFirstMinus(t) == t
  {
    if t != [] { NoMinusInDigits(t[1..]); assert t == [t[0]] + t[1..]; }
  }

  /** For digits without a leading zero, comparing lengths and texts compares the numbers. */
  lemma TooBigIsExact(digits: Text)
    requires digits != [] && AllDigits(digits) && (digits[0] == '0' as int ==> |digits| == 1)
    ensures TooBig(digits) <==> DecimalValue(digits) > MAX_SAFE
  {
    var ds := DigitValues(digits);
    Pow10At15And16();
    ValueBelowPow(ds, 10);
    if |digits| > 16 {
      ValueAtLeastPow(ds, 10);
      PowGrows(10, 16, |ds| - 1);
    } else if |digits| < 16 {
      PowGrows(10, |ds|, 15);
    } else {
      var limit := T("9007199254740991");
      MaxSafeText();
      OrderOfDigits(DigitValues(limit), ds, 10);
      LessOfRenamed(limit, digits, DigitValues(limit), ds);
    }
  }

  lemma {:induction false} PowGrows(base: nat, i: nat, j: nat)
    requires i <= j && base > 0
    ensures Pow(base, i) <= Pow(base, j)
  {
    if i < j {
      PowGrows(base, i, j - 1);
      MulMonotone(1, base, Pow(base, j - 1));
    }
  }

  /** A JSON integer literal of any length and either sign is rejected exactly when its magnitude exceeds 2^53 - 1. */
  lemma LiteralCheckIsExact(src: Text)
    requires IsJsonInteger(src)
    ensures LiteralRejected(src) <==> IntegerValue(src) > MAX_SAFE || IntegerValue(src) < -MAX_SAFE
  {
    DigitsHaveNoMark(src);
    if StartsWith(src, T("-")) {
      assert src[0] == '-' as int by { assert src[..1] == T("-"); assert src[..1][0] == T("-")[0]; }
      TooBigIsExact(src[1..]);
    } else {
      NoMinusInDigits(src);
      TooBigIsExact(src);
    }
  }

  lemma DigitsHaveNoMark(src: Text)
    requires MatchesSignedDigits(src)
    ensures !HasFractionMark(src)
  {
    if StartsWith(src, T("-")) {
      assert src == T("-") + src[1..];
    }
  }
}

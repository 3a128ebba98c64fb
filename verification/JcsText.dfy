// What canonical text looks like to any other implementation of RFC 8785: its strings, numbers and member order.
module JcsText {
  import opened Prelude
  import opened Text
  import opened Numerals
  import opened Json
  import opened Jcs
  import opened Utf8

  // ---------------------------------------------------------------- strings (section 3.2.2.2 of RFC 8785)

  /** The units written as they are wherever they stand. */
  predicate Plain(u: Unit) {
    u >= 0x20 && u != '"' as int && u != '\\' as int && !(0xD800 <= u <= 0xDFFF)
  }

  /** The code units with a two-character escape. */
  predicate ShortEscape(u: Unit, c: char) {
    || (u == 8 && c == 'b') || (u == 9 && c == 't') || (u == 10 && c == 'n') || (u == 12 && c == 'f')
    || (u == 13 && c == 'r') || (u == '"' as int && c == '"') || (u == '\\' as int && c == '\\')
  }

  /** Four lower-case hexadecimal digits. */
  function FourHex(u: Unit): Text {
    var digits := T("0123456789abcdef");
    [digits[u / 0x1000], digits[u / 0x100 % 16], digits[u / 0x10 % 16], digits[u % 16]]
  }

  /** What a unit standing alone is written as. */
  lemma UnitEscapes(u: Unit)
    ensures Plain(u) ==> Escape([u]) == [u]
    ensures forall c :: ShortEscape(u, c) ==> Escape([u]) == ['\\' as int, c as int]
    ensures !Plain(u) && (forall c :: !ShortEscape(u, c)) ==> Escape([u]) == ['\\' as int, 'u' as int] + FourHex(u)
  {
    assert Escape([u]) == EscapeUnit(u) + Escape([u][1..]);
    assert EscapeUnit(u) + [] == EscapeUnit(u);
    HexDigits(u);
    assert ShortEscape(u, 'b') || ShortEscape(u, 't') || ShortEscape(u, 'n') || ShortEscape(u, 'f')
        || ShortEscape(u, 'r') || ShortEscape(u, '"') || ShortEscape(u, '\\')
        || (u != 8 && u != 9 && u != 10 && u != 12 && u != 13 && u != '"' as int && u != '\\' as int);
  }

  lemma HexDigits(u: Unit)
    ensures UnicodeEscape(u) == ['\\' as int, 'u' as int] + FourHex(u)
  {
    forall d: nat | d < 16 ensures T("0123456789abcdef")[d] == HexDigit(d) {}
    assert u / 16 / 16 / 16 == u / 0x1000 && u / 16 / 16 == u / 0x100;
  }

  /** A surrogate pair stays as it is. */
  lemma PairStays(lead: Unit, trail: Unit)
    requires 0xD800 <= lead <= 0xDBFF && 0xDC00 <= trail <= 0xDFFF
    ensures Escape([lead, trail]) == [lead, trail]
  {
    assert Escape([lead, trail][2..]) == [];
  }

  /** The texts meet inside a surrogate pair. */
  predicate SplitsPair(a: Text, b: Text) {
    && a != [] && b != []
    && 0xD800 <= a[|a| - 1] <= 0xDBFF && 0xDC00 <= b[0] <= 0xDFFF
  }

  /** A text cut anywhere but inside a pair is escaped piece by piece, so these units and pairs say it all. */
  lemma {:induction false} EscapeOfConcat(a: Text, b: Text)
    requires !SplitsPair(a, b)
    ensures Escape(a + b) == Escape(a) + Escape(b)
  {
    if a == [] {
      assert a + b == b;
    } else if |a| >= 2 && IsLead(a[0]) && IsTrail(a[1]) {
      assert (a + b)[2..] == a[2..] + b && (a + b)[..2] == a[..2];
      EscapeOfConcat(a[2..], b);
    } else {
      assert (a + b)[1..] == a[1..] + b;
      EscapeOfConcat(a[1..], b);
    }
  }

  /** No unit has to be escaped. */
  predicate NothingToEscape(s: Text) {
    WellFormed(s) && forall i :: 0 <= i < |s| ==> s[i] >= 0x20 && s[i] != '"' as int && s[i] != '\\' as int
  }

  /** Well-formed text without quotation mark, backslash or control character is written as it is, and no other text. */
  lemma {:induction false} EscapeIsIdentityIff(s: Text)
    ensures |Escape(s)| >= |s|
    ensures Escape(s) == s <==> NothingToEscape(s)
  {
    hide EscapeUnit, WellFormed;
    if s == [] {
      EmptyIsWellFormed();
    } else {
      var n := CodePointLength(s);
      EscapeIsIdentityIff(s[n..]);
      EscapeStep(s);
      NothingStep(s);
      UnitLengths(s[0]);
      assert s == s[..n] + s[n..];
      if n == 2 { SameFront(s[..2], s[2..], Escape(s[2..])); }
      else if Plain(s[0]) { SameFront(s[..1], s[1..], Escape(s[1..])); }
    }
  }

  lemma EmptyIsWellFormed()
    ensures WellFormed([])
  {}

  lemma SameFront(front: Text, a: Text, b: Text)
    ensures front + a == front + b <==> a == b
  {
    if front + a == front + b {
      assert a == (front + a)[|front|..] && b == (front + b)[|front|..];
    }
  }

  lemma EscapeStep(s: Text)
    requires s != []
    ensures CodePointLength(s) == 2 ==> Escape(s) == s[..2] + Escape(s[2..])
    ensures CodePointLength(s) == 1 ==> Escape(s) == EscapeUnit(s[0]) + Escape(s[1..])
  {
    hide EscapeUnit;
  }

  lemma UnitLengths(u: Unit)
    ensures Plain(u) ==> EscapeUnit(u) == [u]
    ensures !Plain(u) ==> |EscapeUnit(u)| >= 2
  {}

  lemma NothingStep(s: Text)
    requires s != []
    ensures NothingToEscape(s) <==>
              (CodePointLength(s) == 2 || Plain(s[0])) && NothingToEscape(s[CodePointLength(s)..])
  {
    hide WellFormed;
    var n := CodePointLength(s);
    WellFormedStep(s);
    assert forall i :: 0 <= i < |s[n..]| ==> s[n..][i] == s[i + n];
    assert forall i :: n <= i < |s| ==> s[i] == s[n..][i - n];
  }

  lemma WellFormedStep(s: Text)
    requires s != []
    ensures WellFormed(s) <==>
              (CodePointLength(s) == 2 || !(0xD800 <= s[0] <= 0xDFFF)) && WellFormed(s[CodePointLength(s)..])
  {}

  // ---------------------------------------------------------------- numbers (section 3.2.2.3)

  /** Exactly the integers up to 2^53 - 1 in size are written, without a superfluous zero or sign. */
  lemma IntegersWritten(n: int)
    ensures NumberToken(Integer(n)).Ok? <==> -9_007_199_254_740_991 <= n <= 9_007_199_254_740_991
    ensures NumberToken(Integer(n)).Ok? ==>
              var t := NumberToken(Integer(n)).value;
              var digits := if n < 0 then t[1..] else t;
              && t != [] && (n < 0 ==> t[0] == '-' as int)
              && digits != [] && AllDigits(digits) && (n != 0 ==> digits[0] != '0' as int) && (n == 0 ==> t == T("0"))
              && DecimalValue(digits) == (if n < 0 then -n else n)
  {
    hide Decimal, DecimalValue;
    ZeroIsZero();
    if n < 0 {
      assert IntegerToken(n)[1..] == Decimal(-n);
      DecimalValueOfDecimal(-n);
    } else {
      DecimalValueOfDecimal(n);
    }
  }

  lemma ZeroIsZero()
    ensures Decimal(0) == T("0")
  {}

  // ---------------------------------------------------------------- member order (section 3.2.3)

  /** At every depth the members stand in strictly ascending order of their names, compared by UTF-16 code units. */
  ghost predicate NamesAscend(v: Value) {
    match v
    case Arr(items) => forall x :: x in items ==> NamesAscend(x)
    case Obj(_, ms) => SortedByKey(ms) && forall m :: m in ms ==> NamesAscend(m.value)
    case _ => true
  }

  /** So they do in the value whose members are written in turn. */
  lemma {:induction false} CanonicalNamesAscend(v: Value)
    requires Genuine(v)
    ensures NamesAscend(Sorted(v))
  {
    match v
    case Arr(items) =>
      forall x | x in items ensures NamesAscend(Sorted(x)) {
        var i :| 0 <= i < |items| && items[i] == x;
        CanonicalNamesAscend(items[i]);
      }
      SortedItemsAre(items);
    case Obj(_, ms) =>
      forall m | m in ms ensures NamesAscend(SortedMember(m).value) {
        var i :| 0 <= i < |ms| && ms[i] == m;
        CanonicalNamesAscend(ms[i].value);
      }
      SortedMembersAre(ms);
      SortSorts(SortedValues(ms));
    case _ =>
  }
}

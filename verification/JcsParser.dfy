// The inverse of the canonical serializer, and what follows from its existence.
module JcsParser {
  import opened Prelude
  import opened Text
  import opened Numerals
  import opened Json
  import opened Jcs

  // ---------------------------------------------------------------- the parser

  function HexValue(u: Unit): Option<nat> {
    if '0' as int <= u <= '9' as int then Some(u - '0' as int)
    else if 'a' as int <= u <= 'f' as int then Some(u - 'a' as int + 10)
    else None
  }

  /** The number four hexadecimal digits spell. */
  function FromHexDigits(a: nat, b: nat, c: nat, d: nat): nat {
    ((a * 16 + b) * 16 + c) * 16 + d
  }

  /** The code unit spelled by `\uXXXX` at the front. */
  function ParseUnicodeEscape(t: Text): Option<Unit>
    requires |t| >= 6
  {
    match (HexValue(t[2]), HexValue(t[3]), HexValue(t[4]), HexValue(t[5]))
    case (Some(a), Some(b), Some(c), Some(d)) =>
      var u := FromHexDigits(a, b, c, d);
      if u < 0x10000 then Some(u) else None
    case _ => None
  }

  /** The code unit written at the front of a string body, and how many units its spelling takes. */
  function ParseUnit(t: Text): (r: Option<(Unit, nat)>)
    requires t != []
    ensures r.Some? ==> 0 < r.value.1 <= |t|
  {
    if t[0] != '\\' as int then Some((t[0], 1))
    else if |t| < 2 then None
    else if t[1] == '"' as int || t[1] == '\\' as int then Some((t[1], 2))
    else if t[1] == 'b' as int then Some((8, 2))
    else if t[1] == 't' as int then Some((9, 2))
    else if t[1] == 'n' as int then Some((10, 2))
    else if t[1] == 'f' as int then Some((12, 2))
    else if t[1] == 'r' as int then Some((13, 2))
    else if t[1] == 'u' as int && |t| >= 6 then
      match ParseUnicodeEscape(t) case Some(u) => Some((u, 6)) case None => None
    else None
  }

  /** A string body up to and including the closing quote. */
  function ParseString(t: Text): (r: Option<(Text, Text)>)
    ensures r.Some? ==> |r.value.1| < |t|
  {
    if t == [] then None
    else if t[0] == '"' as int then Some(([], t[1..]))
    else
      match ParseUnit(t)
      case None => None
      case Some((u, n)) =>
        match ParseString(t[n..])
        case None => None
        case Some((s, rest)) => Some(([u] + s, rest))
  }

  /** How many number units stand at the front. */
  function NumberLength(t: Text): (n: nat)
    ensures n <= |t|
  {
    if t == [] || !IsNumberUnit(t[0]) then 0 else 1 + NumberLength(t[1..])
  }

  function ParseNumber(token: Text): Option<Number> {
    if HasPointOrExponent(token) then Some(Fraction(token))
    else if token != [] && AllDigits(token) then Some(Integer(DecimalValue(token)))
    else if |token| > 1 && token[0] == '-' as int && AllDigits(token[1..]) then
      Some(Integer(0 - DecimalValue(token[1..])))
    else None
  }

  /** A value at the front of the text, and the text after it. */
  function Parse(t: Text): (r: Option<(Value, Text)>)
    ensures r.Some? ==> |r.value.1| < |t|
    decreases |t|, 0
  {
    if t == [] then None
    else if t[0] == '"' as int then
      match ParseString(t[1..]) case Some((s, rest)) => Some((Str(s), rest)) case None => None
    else if t[0] == '[' as int then
      if |t| > 1 && t[1] == ']' as int then Some((Arr([]), t[2..])) else
      match ParseItems(t[1..]) case Some((items, rest)) => Some((Arr(items), rest)) case None => None
    else if t[0] == '{' as int then
      if |t| > 1 && t[1] == '}' as int then Some((Obj(true, []), t[2..])) else
      match ParseMembers(t[1..]) case Some((ms, rest)) => Some((Obj(true, ms), rest)) case None => None
    else if t[0] == 'n' as int then if StartsWith(t, T("null")) then Some((Null, t[4..])) else None
    else if t[0] == 't' as int then if StartsWith(t, T("true")) then Some((Bool(true), t[4..])) else None
    else if t[0] == 'f' as int then if StartsWith(t, T("false")) then Some((Bool(false), t[5..])) else None
    else
      var n := NumberLength(t);
      if n == 0 then None else
      match ParseNumber(t[..n]) case Some(num) => Some((Num(num), t[n..])) case None => None
  }

  /** A nonempty list of elements up to and including the closing bracket. */
  function ParseItems(t: Text): (r: Option<(seq<Value>, Text)>)
    ensures r.Some? ==> |r.value.1| < |t|
    decreases |t|, 1
  {
    match Parse(t)
    case None => None
    case Some((v, more)) =>
      if more == [] then None
      else if more[0] == ']' as int then Some(([v], more[1..]))
      else if more[0] == ',' as int then
        match ParseItems(more[1..]) case Some((vs, rest)) => Some(([v] + vs, rest)) case None => None
      else None
  }

  function ParseMember(t: Text): (r: Option<(Member, Text)>)
    ensures r.Some? ==> |r.value.1| < |t|
    decreases |t|, 1
  {
    if t == [] || t[0] != '"' as int then None else
    match ParseString(t[1..])
    case None => None
    case Some((key, more)) =>
      if more == [] || more[0] != ':' as int then None else
      match Parse(more[1..]) case Some((v, rest)) => Some((Member(key, v), rest)) case None => None
  }

  function ParseMembers(t: Text): (r: Option<(seq<Member>, Text)>)
    ensures r.Some? ==> |r.value.1| < |t|
    decreases |t|, 2
  {
    match ParseMember(t)
    case None => None
    case Some((m, more)) =>
      if more == [] then None
      else if more[0] == '}' as int then Some(([m], more[1..]))
      else if more[0] == ',' as int then
        match ParseMembers(more[1..]) case Some((ms, rest)) => Some(([m] + ms, rest)) case None => None
      else None
  }

  // ---------------------------------------------------------------- strings read back

  lemma HexReadsBack(d: nat)
    requires d < 16
    ensures HexValue(HexDigit(d)) == Some(d)
  {}

  lemma UnicodeEscapeReadsBack(u: Unit, t: Text)
    requires |t| >= 6 && t[2..6] == UnicodeEscape(u)[2..]
    ensures ParseUnicodeEscape(t) == Some(u)
  {
    var c := u / 16;
    var b := c / 16;
    var a := b / 16;
    assert a < 16 && u == ((a * 16 + b % 16) * 16 + c % 16) * 16 + u % 16;
    var e := UnicodeEscape(u);
    assert t[2] == e[2] && t[3] == e[3] && t[4] == e[4] && t[5] == e[5];
    HexReadsBack(a);
    HexReadsBack(b % 16);
    HexReadsBack(c % 16);
    HexReadsBack(u % 16);
  }

  lemma UnitReadsBack(u: Unit, rest: Text)
    ensures ParseUnit(EscapeUnit(u) + rest) == Some((u, |EscapeUnit(u)|))
    ensures EscapeUnit(u)[0] != '"' as int
  {
    var e := EscapeUnit(u);
    var t := e + rest;
    assert forall i :: 0 <= i < |e| ==> t[i] == e[i];
    if |e| == 6 { UnicodeEscapeReadsBack(u, t); }
  }

  lemma RawPairReadsBack(a: Unit, b: Unit, tail: Text)
    requires IsLead(a) && IsTrail(b)
    ensures ParseString([a, b] + tail) ==
            match ParseString(tail) case Some((s, rest)) => Some(([a] + ([b] + s), rest)) case None => None
  {
    assert ([a, b] + tail)[1..] == [b] + tail;
    assert ([b] + tail)[1..] == tail;
  }

  lemma EscapedUnitReadsBack(u: Unit, tail: Text)
    ensures ParseString(EscapeUnit(u) + tail) ==
            match ParseString(tail) case Some((s, rest)) => Some(([u] + s, rest)) case None => None
  {
    UnitReadsBack(u, tail);
    PrefixOfConcat(EscapeUnit(u), tail);
  }

  lemma {:induction false} StringReadsBack(s: Text, rest: Text)
    ensures ParseString(Escape(s) + (['"' as int] + rest)) == Some((s, rest))
  {
    var end := ['"' as int] + rest;
    if s == [] {
      assert [] + end == end && end[1..] == rest;
    } else if |s| >= 2 && IsLead(s[0]) && IsTrail(s[1]) {
      StringReadsBack(s[2..], rest);
      RawPairReadsBack(s[0], s[1], Escape(s[2..]) + end);
      EscapeOfPair(s, end);
      SplitTwo(s);
    } else {
      StringReadsBack(s[1..], rest);
      EscapedUnitReadsBack(s[0], Escape(s[1..]) + end);
      Regroup(EscapeUnit(s[0]), Escape(s[1..]), end);
      SplitOne(s);
    }
  }

  lemma EscapeOfPair(s: Text, end: Text)
    requires |s| >= 2 && IsLead(s[0]) && IsTrail(s[1])
    ensures Escape(s) + end == [s[0], s[1]] + (Escape(s[2..]) + end)
  {
    var two, more := s[..2], Escape(s[2..]);
    assert Escape(s) == two + more;
    Regroup(two, more, end);
    assert two == [s[0], s[1]];
  }

  lemma SplitOne(s: Text)
    requires s != []
    ensures [s[0]] + s[1..] == s
  {}

  lemma SplitTwo(s: Text)
    requires |s| >= 2
    ensures [s[0]] + ([s[1]] + s[2..]) == s
  {}

  // ---------------------------------------------------------------- numbers read back

  /** The text cannot continue a number token. */
  predicate Boundary(rest: Text) { rest == [] || !IsNumberUnit(rest[0]) }

  lemma {:induction false} NumberLengthOfToken(token: Text, rest: Text)
    requires forall i :: 0 <= i < |token| ==> IsNumberUnit(token[i])
    requires Boundary(rest)
    ensures NumberLength(token + rest) == |token|
  {
    if token == [] {
      assert token + rest == rest;
    } else {
      assert (token + rest)[1..] == token[1..] + rest;
      NumberLengthOfToken(token[1..], rest);
    }
  }

  lemma IntegerReadsBack(n: int)
    ensures IntegerToken(n) != [] && (IsDigit(IntegerToken(n)[0]) || IntegerToken(n)[0] == '-' as int)
    ensures forall i :: 0 <= i < |IntegerToken(n)| ==> IsNumberUnit(IntegerToken(n)[i])
    ensures ParseNumber(IntegerToken(n)) == Some(Integer(n))
  {
    hide Decimal, DecimalValue;
    var token := IntegerToken(n);
    if n < 0 {
      DecimalValueOfDecimal(-n);
      assert token[1..] == Decimal(-n);
      assert !AllDigits(token) by { assert token[0] == '-' as int; }
      assert forall u :: u in token ==> u == '-' as int || IsDigit(u);
    } else {
      DecimalValueOfDecimal(n);
    }
  }

  lemma NumberReadsBack(n: Number, rest: Text)
    requires NumberToken(n).Ok? && Genuine(Num(n)) && Boundary(rest)
    ensures Parse(NumberToken(n).value + rest) == Some((Num(n), rest))
  {
    var token := NumberToken(n).value;
    if n.Integer? { IntegerReadsBack(n.n); }
    TokenReadsBack(token, n, rest);
  }

  lemma TokenReadsBack(token: Text, n: Number, rest: Text)
    requires token != [] && (IsDigit(token[0]) || token[0] == '-' as int)
    requires forall i :: 0 <= i < |token| ==> IsNumberUnit(token[i])
    requires ParseNumber(token) == Some(n) && Boundary(rest)
    ensures Parse(token + rest) == Some((Num(n), rest))
  {
    NumberLengthOfToken(token, rest);
    assert (token + rest)[0] == token[0];
    PrefixOfConcat(token, rest);
  }

  // ---------------------------------------------------------------- values read back

  lemma QuoteReadsBack(s: Text, rest: Text)
    ensures Parse(Quote(s) + rest) == Some((Str(s), rest))
    ensures (Quote(s) + rest)[0] == '"' as int
    ensures ParseString((Quote(s) + rest)[1..]) == Some((s, rest))
  {
    var q := ['"' as int];
    assert Quote(s) + rest == q + (Escape(s) + (q + rest));
    assert (q + (Escape(s) + (q + rest)))[1..] == Escape(s) + (q + rest);
    StringReadsBack(s, rest);
  }

  /** A bracketed body in front of `rest`. */
  lemma Opens(open: Text, body: Text, close: Text, rest: Text)
    requires |open| == 1
    ensures (open + body + close + rest)[1..] == body + (close + rest)
    ensures (open + body + close + rest)[0] == open[0]
  {
    assert open + body + close + rest == open + (body + (close + rest));
  }

  /** A list body continued by a comma and more of the list. */
  lemma CommaAndMore(first: Text, comma: Text, more: Text, tail: Text)
    requires |comma| == 1
    ensures first + comma + more + tail == first + (comma + (more + tail))
    ensures (comma + (more + tail))[1..] == more + tail
    ensures (comma + (more + tail))[0] == comma[0]
  {}

  /** Parsing what was written returns the value and leaves what followed. */
  lemma {:induction false} ReadsBack(v: Value, rest: Text)
    requires Genuine(v) && Emit(v).Ok? && Boundary(rest)
    ensures Parse(Emit(v).value + rest) == Some((v, rest))
    ensures Emit(v).value != [] && Emit(v).value[0] != ']' as int
    decreases v, 1
  {
    match v
    case Null => PrefixOfConcat(T("null"), rest);
    case Bool(b) => PrefixOfConcat(if b then T("true") else T("false"), rest);
    case Num(n) =>
      if n.Integer? { IntegerReadsBack(n.n); }
      NumberReadsBack(n, rest);
    case Str(s) => QuoteReadsBack(s, rest);
    case Arr(items) => ArrayReadsBack(items, rest, v);
    case Obj(_, ms) => ObjectReadsBack(ms, rest, v);
  }

  lemma {:induction false} ArrayReadsBack(items: seq<Value>, rest: Text, list: Value)
    requires EmitItems(items).Ok? && list == Arr(items)
    requires forall i :: 0 <= i < |items| ==> Genuine(items[i])
    ensures Parse(T("[") + EmitItems(items).value + T("]") + rest) == Some((Arr(items), rest))
    decreases list, 0, |items| + 1
  {
    var body, tail := EmitItems(items).value, T("]") + rest;
    Opens(T("["), body, T("]"), rest);
    if items == [] {
      assert body + tail == tail;
      assert (T("[") + body + T("]") + rest)[2..] == rest;
    } else {
      ItemsReadBack(items, rest, list);
      assert (body + tail)[0] == body[0];
    }
  }

  /** One element of a list, then its end or a comma and the rest of the list. */
  lemma ParseItemsStep(t: Text, x: Value, more: Text)
    requires Parse(t) == Some((x, more)) && more != []
    ensures more[0] == ']' as int ==> ParseItems(t) == Some(([x], more[1..]))
    ensures more[0] == ',' as int && ParseItems(more[1..]).Some? ==>
              ParseItems(t) == Some(([x] + ParseItems(more[1..]).value.0, ParseItems(more[1..]).value.1))
  {}

  lemma {:induction false} ItemsReadBack(items: seq<Value>, rest: Text, list: Value)
    requires items != [] && EmitItems(items).Ok?
    requires forall i :: 0 <= i < |items| ==> Genuine(items[i]) && items[i] < list
    ensures ParseItems(EmitItems(items).value + (T("]") + rest)) == Some((items, rest))
    ensures EmitItems(items).value != [] && EmitItems(items).value[0] != ']' as int
    decreases list, 0, |items|
  {
    var first, tail := Emit(items[0]).value, T("]") + rest;
    if |items| == 1 {
      ReadsBack(items[0], tail);
      ParseItemsStep(first + tail, items[0], tail);
      assert tail[1..] == rest;
      assert items == [items[0]];
    } else {
      var more := EmitItems(items[1..]).value;
      CommaAndMore(first, T(","), more, tail);
      var next := T(",") + (more + tail);
      ReadsBack(items[0], next);
      ParseItemsStep(first + next, items[0], next);
      ItemsReadBack(items[1..], rest, list);
      assert items == [items[0]] + items[1..];
    }
  }

  lemma {:induction false} ObjectReadsBack(ms: seq<Member>, rest: Text, whole: Value)
    requires EmitMembers(ms).Ok? && whole.Obj? && whole.members == ms
    requires forall i :: 0 <= i < |ms| ==> Genuine(ms[i].value)
    ensures Parse(T("{") + EmitMembers(ms).value + T("}") + rest) == Some((Obj(true, ms), rest))
    decreases whole, 0, |ms| + 1
  {
    var body, tail := EmitMembers(ms).value, T("}") + rest;
    Opens(T("{"), body, T("}"), rest);
    if ms == [] {
      assert body + tail == tail;
      assert (T("{") + body + T("}") + rest)[2..] == rest;
    } else {
      MembersReadBack(ms, rest, whole);
      assert (body + tail)[0] == body[0];
    }
  }

  lemma {:induction false} MemberReadsBack(m: Member, rest: Text, whole: Value)
    requires EmitMember(m).Ok? && Genuine(m.value) && m.value < whole && Boundary(rest)
    ensures ParseMember(EmitMember(m).value + rest) == Some((m, rest))
    ensures EmitMember(m).value != [] && EmitMember(m).value[0] == '"' as int
    decreases whole, 0, 0
  {
    var value := Emit(m.value).value;
    CommaAndMore(Quote(m.key), T(":"), value, rest);
    QuoteReadsBack(m.key, T(":") + (value + rest));
    ReadsBack(m.value, rest);
  }

  /** One member of a list, then its end or a comma and the rest of the list. */
  lemma ParseMembersStep(t: Text, m: Member, more: Text)
    requires ParseMember(t) == Some((m, more)) && more != []
    ensures more[0] == '}' as int ==> ParseMembers(t) == Some(([m], more[1..]))
    ensures more[0] == ',' as int && ParseMembers(more[1..]).Some? ==>
              ParseMembers(t) == Some(([m] + ParseMembers(more[1..]).value.0, ParseMembers(more[1..]).value.1))
  {}

  lemma {:induction false} MembersReadBack(ms: seq<Member>, rest: Text, whole: Value)
    requires ms != [] && EmitMembers(ms).Ok?
    requires forall i :: 0 <= i < |ms| ==> Genuine(ms[i].value) && ms[i].value < whole
    ensures ParseMembers(EmitMembers(ms).value + (T("}") + rest)) == Some((ms, rest))
    ensures EmitMembers(ms).value != [] && EmitMembers(ms).value[0] == '"' as int
    decreases whole, 0, |ms|
  {
    var first, tail := EmitMember(ms[0]).value, T("}") + rest;
    if |ms| == 1 {
      MemberReadsBack(ms[0], tail, whole);
      ParseMembersStep(first + tail, ms[0], tail);
      assert tail[1..] == rest;
      assert ms == [ms[0]];
    } else {
      var more := EmitMembers(ms[1..]).value;
      CommaAndMore(first, T(","), more, tail);
      var next := T(",") + (more + tail);
      MemberReadsBack(ms[0], next, whole);
      ParseMembersStep(first + next, ms[0], next);
      MembersReadBack(ms[1..], rest, whole);
      assert ms == [ms[0]] + ms[1..];
    }
  }

  // ---------------------------------------------------------------- main results

  /** The canonical text is uniquely decodable: the parser consumes all of it and returns the value with its members
      sorted. */
  lemma CanonicalDecodes(v: Value)
    requires Genuine(v) && Canonical(v).Ok?
    ensures Parse(Canonical(v).value) == Some((Sorted(v), []))
  {
    SortedGenuine(v);
    ReadsBack(Sorted(v), []);
    assert Canonical(v).value + [] == Canonical(v).value;
  }

  /** Reading a canonical text and canonicalizing again gives the same text. */
  lemma CanonicalIdempotent(v: Value)
    requires Genuine(v) && Canonical(v).Ok?
    ensures Parse(Canonical(v).value).Some? && Canonical(Parse(Canonical(v).value).value.0) == Canonical(v)
  {
    CanonicalDecodes(v);
    SortedIdempotent(v);
  }

  /** Two values have the same canonical text exactly when they are equal up to member order. */
  lemma CanonicalTextIdentifies(v: Value, w: Value)
    requires Genuine(v) && Genuine(w) && Canonical(v).Ok? && Canonical(w).Ok?
    ensures Canonical(v) == Canonical(w) <==> Same(v, w)
  {
    CanonicalDecodes(v);
    CanonicalDecodes(w);
    SameIffSortedEqual(v, w);
  }
}

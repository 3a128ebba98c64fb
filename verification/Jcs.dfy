// RFC 8785 canonical serialization of packages/core/src/jcs.ts.
module Jcs {
  import opened Prelude
  import opened Text
  import opened Numerals
  import opened Json

  datatype JcsError = NumberDomain | Unserializable

  const MAX_SAFE := 9007199254740991  // 2^53 - 1

  // ---------------------------------------------------------------- strings: QuoteJSONString of ECMA-262

  function HexDigit(d: nat): Unit
    requires d < 16
  {
    if d < 10 then '0' as int + d else 'a' as int + d - 10
  }

  function UnicodeEscape(u: Unit): (t: Text)
    ensures |t| == 6
  {
    [ '\\' as int, 'u' as int,
      HexDigit(u / 16 / 16 / 16), HexDigit(u / 16 / 16 % 16), HexDigit(u / 16 % 16), HexDigit(u % 16) ]
  }

  /** One code unit that is not part of a surrogate pair. */
  function EscapeUnit(u: Unit): Text {
    if u == '"' as int || u == '\\' as int then ['\\' as int, u]
    else if u == 8 then ['\\' as int, 'b' as int]
    else if u == 9 then ['\\' as int, 't' as int]
    else if u == 10 then ['\\' as int, 'n' as int]
    else if u == 12 then ['\\' as int, 'f' as int]
    else if u == 13 then ['\\' as int, 'r' as int]
    else if u < 0x20 || IsSurrogate(u) then UnicodeEscape(u)
    else [u]
  }

  function Escape(s: Text): Text {
    if s == [] then []
    else if |s| >= 2 && IsLead(s[0]) && IsTrail(s[1]) then s[..2] + Escape(s[2..])
    else EscapeUnit(s[0]) + Escape(s[1..])
  }

  function Quote(s: Text): Text {
    ['"' as int] + Escape(s) + ['"' as int]
  }

  // ---------------------------------------------------------------- numbers

  function IntegerToken(n: int): Text {
    if n < 0 then ['-' as int] + Decimal(-n) else Decimal(n)
  }

  /** The token of a number inside the number domain (`assertNumberDomain`). */
  function NumberToken(n: Number): Result<Text, JcsError> {
    match n
    case NonFinite => Err(NumberDomain)
    case Fraction(t) => Ok(t)
    case Integer(k) => if k > MAX_SAFE || -k > MAX_SAFE then Err(NumberDomain) else Ok(IntegerToken(k))
  }

  // ---------------------------------------------------------------- values

  /** The text written for a value whose members already stand in name order, or the first error met. */
  function Emit(v: Value): Result<Text, JcsError>
  {
    match v
    case Null => Ok(T("null"))
    case Bool(b) => Ok(if b then T("true") else T("false"))
    case Num(n) => NumberToken(n)
    case Str(s) => Ok(Quote(s))
    case BigInt => Err(NumberDomain)
    case Undefined => Err(Unserializable)
    case Callable => Err(Unserializable)
    case Arr(items) =>
      var body :- EmitItems(items);
      Ok(T("[") + body + T("]"))
    case Obj(plain, ms) =>
      if !plain then Err(Unserializable) else
      var body :- EmitMembers(ms);
      Ok(T("{") + body + T("}"))
  }

  function EmitItems(items: seq<Value>): Result<Text, JcsError> {
    if items == [] then Ok([])
    else
      var first :- Emit(items[0]);
      if |items| == 1 then Ok(first)
      else
        var rest :- EmitItems(items[1..]);
        Ok(first + T(",") + rest)
  }

  function EmitMember(m: Member): Result<Text, JcsError> {
    var value :- Emit(m.value);
    Ok(Quote(m.key) + T(":") + value)
  }

  function EmitMembers(ms: seq<Member>): Result<Text, JcsError> {
    if ms == [] then Ok([])
    else
      var first :- EmitMember(ms[0]);
      if |ms| == 1 then Ok(first)
      else
        var rest :- EmitMembers(ms[1..]);
        Ok(first + T(",") + rest)
  }

  /** The canonical text of a value, or the error thrown. */
  function Canonical(v: Value): Result<Text, JcsError> {
    Emit(Sorted(v))
  }

  // ---------------------------------------------------------------- what is accepted

  /** Only JSON data: no undefined, function, symbol, BigInt or class instance anywhere. */
  ghost predicate PlainJson(v: Value) {
    match v
    case Arr(items) => forall x :: x in items ==> PlainJson(x)
    case Obj(plain, ms) => plain && forall m :: m in ms ==> PlainJson(m.value)
    case BigInt => false
    case Undefined => false
    case Callable => false
    case _ => true
  }

  /** `validateNumberDomain` returns normally. */
  predicate NumbersInDomain(v: Value) {
    match v
    case Num(n) => NumberToken(n).Ok?
    case Arr(items) => forall x :: x in items ==> NumbersInDomain(x)
    case Obj(_, ms) => forall m :: m in ms ==> NumbersInDomain(m.value)
    case _ => true
  }

  lemma {:induction false} EmitOk(v: Value)
    ensures Emit(v).Ok? <==> PlainJson(v) && NumbersInDomain(v)
    ensures PlainJson(v) && Emit(v).Err? ==> Emit(v).error == NumberDomain
  {
    match v
    case Arr(items) => EmitItemsOk(items);
    case Obj(_, ms) => EmitMembersOk(ms);
    case _ =>
  }

  lemma {:induction false} EmitItemsOk(items: seq<Value>)
    ensures EmitItems(items).Ok? <==> forall x :: x in items ==> PlainJson(x) && NumbersInDomain(x)
    ensures (forall x :: x in items ==> PlainJson(x)) && EmitItems(items).Err? ==>
              EmitItems(items).error == NumberDomain
  {
    if items != [] {
      EmitOk(items[0]);
      EmitItemsOk(items[1..]);
      assert forall x :: x in items <==> x == items[0] || x in items[1..];
    }
  }

  lemma {:induction false} EmitMembersOk(ms: seq<Member>)
    ensures EmitMembers(ms).Ok? <==> forall m :: m in ms ==> PlainJson(m.value) && NumbersInDomain(m.value)
    ensures (forall m :: m in ms ==> PlainJson(m.value)) && EmitMembers(ms).Err? ==>
              EmitMembers(ms).error == NumberDomain
  {
    if ms != [] {
      EmitOk(ms[0].value);
      EmitMembersOk(ms[1..]);
      assert forall m :: m in ms <==> m == ms[0] || m in ms[1..];
    }
  }

  lemma {:induction false} SortedKeepsDomain(v: Value)
    ensures PlainJson(Sorted(v)) <==> PlainJson(v)
    ensures NumbersInDomain(Sorted(v)) <==> NumbersInDomain(v)
  {
    match v
    case Arr(items) =>
      forall x | x in items
        ensures PlainJson(Sorted(x)) <==> PlainJson(x)
        ensures NumbersInDomain(Sorted(x)) <==> NumbersInDomain(x)
      { SortedKeepsDomain(x); }
      SortedItemsAre(items);
    case Obj(_, ms) =>
      forall m | m in ms
        ensures PlainJson(Sorted(m.value)) <==> PlainJson(m.value)
        ensures NumbersInDomain(Sorted(m.value)) <==> NumbersInDomain(m.value)
      { SortedKeepsDomain(m.value); }
      SortedMembersAre(ms);
    case _ =>
  }

  lemma SortedItemsAre(items: seq<Value>)
    ensures forall x :: x in items ==> Sorted(x) in SortedItems(items)
    ensures forall y :: y in SortedItems(items) ==> exists x :: x in items && y == Sorted(x)
  {
    var sorted := SortedItems(items);
    forall x | x in items ensures Sorted(x) in sorted {
      var i :| 0 <= i < |items| && items[i] == x;
      assert sorted[i] == Sorted(x);
    }
    forall y | y in sorted ensures exists x :: x in items && y == Sorted(x) {
      var i :| 0 <= i < |sorted| && sorted[i] == y;
      assert items[i] in items;
    }
  }

  lemma SortedMembersAre(ms: seq<Member>)
    ensures forall m :: m in ms ==> SortedMember(m) in Sort(SortedValues(ms))
    ensures forall x :: x in Sort(SortedValues(ms)) ==> exists m :: m in ms && x == SortedMember(m)
  {
    forall m | m in ms ensures SortedMember(m) in Sort(SortedValues(ms)) { InSortedValues(ms, SortedMember(m)); }
    forall x | x in Sort(SortedValues(ms)) ensures exists m :: m in ms && x == SortedMember(m) {
      InSortedValues(ms, x);
    }
  }

  /** On plain JSON the number walk fails exactly when canonicalization does, and for the same reason;
      other values are refused whatever their numbers are. */
  lemma CanonicalAccepts(v: Value)
    ensures Canonical(v).Ok? <==> PlainJson(v) && NumbersInDomain(v)
    ensures PlainJson(v) && !NumbersInDomain(v) ==> Canonical(v) == Err(NumberDomain)
  {
    SortedKeepsDomain(v);
    EmitOk(Sorted(v));
  }

  // ---------------------------------------------------------------- the serializer

  /** The array the tokens are pushed onto. */
  class Output {
    var tokens: seq<Text>

    constructor ()
      ensures tokens == []
    { tokens := []; }

    method Push(t: Text)
      modifies this
      ensures Joined(tokens) == Joined(old(tokens)) + t
    {
      tokens := tokens + [t];
    }
  }

  /** `out.join("")`. */
  function Joined(tokens: seq<Text>): Text {
    if tokens == [] then [] else Joined(tokens[..|tokens| - 1]) + tokens[|tokens| - 1]
  }

  /** What the separator adds before element `i`. */
  function Separator(i: nat): Text { if i > 0 then T(",") else [] }

  /** What is still to be written when element `i` is next. */
  function ItemsFrom(items: seq<Value>, i: nat): Result<Text, JcsError> {
    if items == [] then Ok([])
    else
      var body :- EmitItems(items);
      Ok(Separator(i) + body)
  }

  function MembersFrom(ms: seq<Member>, i: nat): Result<Text, JcsError> {
    if ms == [] then Ok([])
    else
      var body :- EmitMembers(ms);
      Ok(Separator(i) + body)
  }

  lemma StartOfItems(items: seq<Value>)
    ensures ItemsFrom(items, 0) == EmitItems(items)
  {
    if EmitItems(items).Ok? { assert [] + EmitItems(items).value == EmitItems(items).value; }
  }

  lemma StartOfMembers(ms: seq<Member>)
    ensures MembersFrom(ms, 0) == EmitMembers(ms)
  {
    if EmitMembers(ms).Ok? { assert [] + EmitMembers(ms).value == EmitMembers(ms).value; }
  }

  /** Emitting one of the values JSON has no text for. */
  lemma NotEmitted(v: Value)
    ensures v.Undefined? || v.Callable? ==> Emit(Sorted(v)) == Err(Unserializable)
  {}

  /** Writing `rest` after `text` comes to writing `all` after `start`, error for error. */
  ghost predicate Continues(all: Result<Text, JcsError>, start: Text, rest: Result<Text, JcsError>, text: Text) {
    match all
    case Ok(a) => rest.Ok? && text + rest.value == start + a
    case Err(e) => rest == Err(e)
  }

  lemma Regrouped(text: Text, separator: Text, one: Text, rest: Text)
    ensures text + (separator + (one + rest)) == text + separator + one + rest
  {}

  lemma RegroupedMember(text: Text, separator: Text, key: Text, colon: Text, value: Text, rest: Text)
    ensures text + (separator + ((key + colon + value) + rest)) == text + separator + key + colon + value + rest
  {}

  lemma Enclosed(before: Text, open: Text, body: Text, close: Text)
    ensures before + (open + body + close) == before + open + body + close
  {}

  lemma ItemsStep(items: seq<Value>, i: nat, text: Text)
    requires items != []
    ensures Emit(items[0]).Err? ==> ItemsFrom(items, i) == Emit(items[0])
    ensures Emit(items[0]).Ok? ==>
              Continues(ItemsFrom(items, i), text, ItemsFrom(items[1..], i + 1),
                        text + Separator(i) + Emit(items[0]).value)
  {
    if ItemsFrom(items, i).Ok? {
      var rest := ItemsFrom(items[1..], i + 1).value;
      Regrouped(text, Separator(i), Emit(items[0]).value, rest);
      assert EmitItems(items).value == Emit(items[0]).value + rest;
    }
  }

  lemma MembersStep(ms: seq<Member>, i: nat, text: Text)
    requires ms != []
    ensures Emit(ms[0].value).Err? ==> MembersFrom(ms, i) == Emit(ms[0].value)
    ensures Emit(ms[0].value).Ok? ==>
              Continues(MembersFrom(ms, i), text, MembersFrom(ms[1..], i + 1),
                        text + Separator(i) + Quote(ms[0].key) + T(":") + Emit(ms[0].value).value)
  {
    assert EmitMember(ms[0]).Ok? <==> Emit(ms[0].value).Ok?;
    assert EmitMember(ms[0]).Err? ==> EmitMember(ms[0]) == Emit(ms[0].value);
    if MembersFrom(ms, i).Ok? {
      var rest := MembersFrom(ms[1..], i + 1).value;
      RegroupedMember(text, Separator(i), Quote(ms[0].key), T(":"), Emit(ms[0].value).value, rest);
      assert EmitMembers(ms).value == EmitMember(ms[0]).value + rest;
    }
  }

  /** What a serializing call leaves behind: the text grown by what was written, or its error. */
  ghost predicate Wrote(written: Result<Text, JcsError>, r: Result<(), JcsError>, before: Text, after: Text) {
    match written
    case Ok(text) => r == Ok(()) && after == before + text
    case Err(e) => r == Err(e)
  }

  /** Pushes the tokens of `value`; the text so far grows by exactly the canonical text. */
  method Serialize(value: Value, out: Output) returns (r: Result<(), JcsError>)
    modifies out
    ensures Wrote(Canonical(value), r, Joined(old(out.tokens)), Joined(out.tokens))
    decreases value, 1
  {
    match value
    case Null => out.Push(T("null")); r := Ok(());
    case Bool(b) => out.Push(if b then T("true") else T("false")); r := Ok(());
    case Num(n) =>
      var token := NumberToken(n);
      if token.Err? { return Err(token.error); }
      out.Push(token.value);
      r := Ok(());
    case Str(s) => out.Push(Quote(s)); r := Ok(());
    case BigInt => r := Err(NumberDomain);
    case Undefined => r := Err(Unserializable);
    case Callable => r := Err(Unserializable);
    case Arr(items) =>
      if Canonical(value).Ok? { Enclosed(Joined(out.tokens), T("["), EmitItems(SortedItems(items)).value, T("]")); }
      out.Push(T("["));
      r := SerializeItems(items, value, out);
      if r.Ok? { out.Push(T("]")); }
    case Obj(plain, ms) =>
      if !plain { return Err(Unserializable); }
      var keys := Sort(ms);
      SortThenSortValues(ms);
      if Canonical(value).Ok? { Enclosed(Joined(out.tokens), T("{"), EmitMembers(SortedValues(keys)).value, T("}")); }
      out.Push(T("{"));
      r := SerializeMembers(keys, value, out);
      if r.Ok? { out.Push(T("}")); }
  }

  method SerializeItems(items: seq<Value>, ghost list: Value, out: Output) returns (r: Result<(), JcsError>)
    requires list == Arr(items)
    modifies out
    ensures Wrote(EmitItems(SortedItems(items)), r, Joined(old(out.tokens)), Joined(out.tokens))
    decreases list, 0
  {
    hide Emit, EmitItems, Sorted, SortedItems, Joined, Separator;
    ghost var sorted, all, start := SortedItems(items), EmitItems(SortedItems(items)), Joined(out.tokens);
    StartOfItems(sorted);
    var i := 0;
    while i < |items|
      invariant 0 <= i <= |items|
      invariant Continues(all, start, ItemsFrom(sorted[i..], i), Joined(out.tokens))
    {
      assert sorted[i..][0] == sorted[i] && sorted[i..][1..] == sorted[i + 1..];
      ItemsStep(sorted[i..], i, Joined(out.tokens));
      PushSeparator(i, out);
      var item := items[i];
      NotEmitted(item);
      if item.Undefined? || item.Callable? { return Err(Unserializable); }
      var one := Serialize(item, out);
      if one.Err? { return one; }
      i := i + 1;
    }
    assert Joined(out.tokens) + [] == Joined(out.tokens);
    r := Ok(());
  }

  method SerializeMembers(keys: seq<Member>, ghost whole: Value, out: Output) returns (r: Result<(), JcsError>)
    requires whole.Obj? && forall m :: m in keys ==> m in whole.members
    modifies out
    ensures Wrote(EmitMembers(SortedValues(keys)), r, Joined(old(out.tokens)), Joined(out.tokens))
    decreases whole, 0
  {
    hide Emit, EmitMembers, Sorted, SortedValues, Joined, Quote;
    ghost var sorted, all, start := SortedValues(keys), EmitMembers(SortedValues(keys)), Joined(out.tokens);
    StartOfMembers(sorted);
    var first := true;
    var i := 0;
    while i < |keys|
      invariant 0 <= i <= |keys|
      invariant first <==> i == 0
      invariant Continues(all, start, MembersFrom(sorted[i..], i), Joined(out.tokens))
    {
      assert sorted[i..][0] == sorted[i] && sorted[i..][1..] == sorted[i + 1..];
      MembersStep(sorted[i..], i, Joined(out.tokens));
      var m := keys[i];
      assert m in whole.members;
      NotEmitted(m.value);
      if m.value.Undefined? { return Err(Unserializable); }
      PushName(m.key, first, out);
      first := false;
      var one := Serialize(m.value, out);
      if one.Err? { return one; }
      i := i + 1;
    }
    assert Joined(out.tokens) + [] == Joined(out.tokens);
    r := Ok(());
  }

  method PushSeparator(i: nat, out: Output)
    modifies out
    ensures Joined(out.tokens) == Joined(old(out.tokens)) + Separator(i)
  {
    if i > 0 { out.Push(T(",")); } else { assert Joined(out.tokens) + [] == Joined(out.tokens); }
  }

  method PushName(key: Text, first: bool, out: Output)
    modifies out
    ensures Joined(out.tokens) == Joined(old(out.tokens)) + Separator(if first then 0 else 1) + Quote(key) + T(":")
  {
    assert Joined(out.tokens) + [] == Joined(out.tokens);
    if !first { out.Push(T(",")); }
    out.Push(Quote(key));
    out.Push(T(":"));
  }

  /** `canonicalize`: a fresh output array, joined at the end. */
  method Canonicalize(value: Value) returns (r: Result<Text, JcsError>)
    ensures r == Canonical(value)
  {
    var out := new Output();
    assert Joined(out.tokens) == [];
    var done := Serialize(value, out);
    if done.Err? { return Err(done.error); }
    assert [] + Canonical(value).value == Canonical(value).value;
    r := Ok(Joined(out.tokens));
  }
}

// The canonical bytes: what is hashed and signed.
module JcsBytes {
  import opened Prelude
  import opened Text
  import opened Json
  import opened Jcs
  import opened JcsParser
  import opened Utf8

  /** `canonicalizeToBytes`. */
  function CanonicalBytes(v: Value): Result<Bytes, JcsError> {
    var text :- Canonical(v);
    Ok(Encode(text))
  }

  lemma {:induction false} EscapeWellFormed(s: Text)
    ensures WellFormed(Escape(s))
  {
    if s == [] {
    } else if CodePointLength(s) == 2 {
      EscapeWellFormed(s[2..]);
      assert WellFormed([]);
      assert s[..2][2..] == [];
      WellFormedConcat(s[..2], Escape(s[2..]));
    } else {
      EscapeWellFormed(s[1..]);
      NoSurrogatesWellFormed(EscapeUnit(s[0]));
      WellFormedConcat(EscapeUnit(s[0]), Escape(s[1..]));
    }
  }

  lemma QuoteWellFormed(s: Text)
    ensures WellFormed(Quote(s))
  {
    EscapeWellFormed(s);
    NoSurrogatesWellFormed(['"' as int]);
    WellFormedConcat(['"' as int], Escape(s));
    WellFormedConcat(['"' as int] + Escape(s), ['"' as int]);
  }

  lemma Bracketed(open: Text, body: Text, close: Text)
    requires WellFormed(body)
    requires forall i :: 0 <= i < |open| ==> !IsSurrogate(open[i])
    requires forall i :: 0 <= i < |close| ==> !IsSurrogate(close[i])
    ensures WellFormed(open + body + close)
  {
    NoSurrogatesWellFormed(open);
    NoSurrogatesWellFormed(close);
    WellFormedConcat(open, body);
    WellFormedConcat(open + body, close);
  }

  lemma Separated(a: Text, comma: Text, b: Text)
    requires WellFormed(a) && WellFormed(b)
    requires forall i :: 0 <= i < |comma| ==> !IsSurrogate(comma[i])
    ensures WellFormed(a + comma + b)
  {
    NoSurrogatesWellFormed(comma);
    WellFormedConcat(a, comma);
    WellFormedConcat(a + comma, b);
  }

  /** Lone surrogates are escaped, so the canonical text always has a faithful UTF-8 form. */
  lemma {:induction false} EmitWellFormed(v: Value)
    requires Genuine(v) && Emit(v).Ok?
    ensures WellFormed(Emit(v).value)
  {
    match v
    case Null => NoSurrogatesWellFormed(T("null"));
    case Bool(b) => NoSurrogatesWellFormed(Emit(v).value);
    case Num(n) =>
      if n.Integer? { IntegerReadsBack(n.n); }
      NoSurrogatesWellFormed(Emit(v).value);
    case Str(s) => QuoteWellFormed(s);
    case Arr(items) =>
      ItemsWellFormed(items);
      Bracketed(T("["), EmitItems(items).value, T("]"));
    case Obj(_, ms) =>
      MembersWellFormed(ms);
      Bracketed(T("{"), EmitMembers(ms).value, T("}"));
  }

  lemma {:induction false} ItemsWellFormed(items: seq<Value>)
    requires EmitItems(items).Ok? && forall i :: 0 <= i < |items| ==> Genuine(items[i])
    ensures WellFormed(EmitItems(items).value)
  {
    if items != [] {
      EmitWellFormed(items[0]);
      if |items| > 1 {
        ItemsWellFormed(items[1..]);
        Separated(Emit(items[0]).value, T(","), EmitItems(items[1..]).value);
      }
    }
  }

  lemma {:induction false} MembersWellFormed(ms: seq<Member>)
    requires EmitMembers(ms).Ok? && forall i :: 0 <= i < |ms| ==> Genuine(ms[i].value)
    ensures WellFormed(EmitMembers(ms).value)
  {
    if ms != [] {
      EmitWellFormed(ms[0].value);
      QuoteWellFormed(ms[0].key);
      Separated(Quote(ms[0].key), T(":"), Emit(ms[0].value).value);
      if |ms| > 1 {
        MembersWellFormed(ms[1..]);
        Separated(EmitMember(ms[0]).value, T(","), EmitMembers(ms[1..]).value);
      }
    }
  }

  /** Two values have the same canonical bytes exactly when they are equal up to member order. */
  lemma CanonicalBytesIdentify(v: Value, w: Value)
    requires Genuine(v) && Genuine(w) && Canonical(v).Ok? && Canonical(w).Ok?
    ensures CanonicalBytes(v).Ok? && CanonicalBytes(w).Ok?
    ensures CanonicalBytes(v) == CanonicalBytes(w) <==> Same(v, w)
  {
    SortedGenuine(v);
    SortedGenuine(w);
    EmitWellFormed(Sorted(v));
    EmitWellFormed(Sorted(w));
    DecodeOfEncode(Canonical(v).value);
    DecodeOfEncode(Canonical(w).value);
    CanonicalTextIdentifies(v, w);
  }
}

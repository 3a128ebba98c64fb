// The browser's own canonicalizer (packages/web/lib/client-crypto.ts) against the one in core.
module BrowserJcs {
  import opened Prelude
  import opened Text
  import opened Json
  import opened Jcs

  /** The browser throws one kind of error. */
  datatype Refusal = Refused

  /** The browser checks finiteness only. */
  function BrowserNumber(n: Number): Result<Text, Refusal> {
    match n
    case NonFinite => Err(Refused)
    case Fraction(t) => Ok(t)
    case Integer(k) => Ok(IntegerToken(k))
  }

  function BrowserEmit(v: Value): Result<Text, Refusal> {
    match v
    case Null => Ok(T("null"))
    case Bool(b) => Ok(if b then T("true") else T("false"))
    case Num(n) => BrowserNumber(n)
    case Str(s) => Ok(Quote(s))
    case BigInt => Err(Refused)
    case Undefined => Err(Refused)
    case Callable => Err(Refused)
    case Arr(items) =>
      var body :- BrowserItems(items);
      Ok(T("[") + body + T("]"))
    case Obj(_, ms) =>
      var body :- BrowserMembers(ms, true);
      Ok(T("{") + body + T("}"))
  }

  function BrowserItems(items: seq<Value>): Result<Text, Refusal> {
    if items == [] then Ok([])
    else
      var first :- BrowserEmit(items[0]);
      if |items| == 1 then Ok(first)
      else
        var rest :- BrowserItems(items[1..]);
        Ok(first + T(",") + rest)
  }

  /** Members holding undefined are skipped; `first` says whether anything was written yet. */
  function BrowserMembers(ms: seq<Member>, first: bool): Result<Text, Refusal> {
    if ms == [] then Ok([])
    else if ms[0].value.Undefined? then BrowserMembers(ms[1..], first)
    else
      var value :- BrowserEmit(ms[0].value);
      var rest :- BrowserMembers(ms[1..], false);
      Ok((if first then [] else T(",")) + (Quote(ms[0].key) + T(":") + value) + rest)
  }

  /** The text the browser canonicalizes a value to. */
  function BrowserCanonical(v: Value): Result<Text, Refusal> {
    BrowserEmit(Sorted(v))
  }

  /** Nothing the two canonicalizers treat differently: safe integers, plain objects, no undefined member. */
  predicate Portable(v: Value) {
    match v
    case Num(Integer(k)) => -MAX_SAFE <= k <= MAX_SAFE
    case Arr(items) => forall x :: x in items ==> Portable(x)
    case Obj(plain, ms) => plain && forall m :: m in ms ==> !m.value.Undefined? && Portable(m.value)
    case _ => true
  }

  ghost predicate Agree(core: Result<Text, JcsError>, browser: Result<Text, Refusal>, portable: bool) {
    && (core.Ok? <==> browser.Ok? && portable)
    && (core.Ok? ==> core.value == browser.value)
  }

  lemma {:induction false} EmittersAgree(v: Value)
    ensures Agree(Emit(v), BrowserEmit(v), Portable(v))
  {
    hide EmitItems, EmitMembers, BrowserItems, BrowserMembers, IntegerToken, Quote;
    match v
    case Arr(items) => ItemEmittersAgree(items);
    case Obj(_, ms) =>
      MemberEmittersAgree(ms, true);
      if EmitMembers(ms).Ok? { assert [] + EmitMembers(ms).value == EmitMembers(ms).value; }
    case _ =>
  }

  lemma {:induction false} ItemEmittersAgree(items: seq<Value>)
    ensures Agree(EmitItems(items), BrowserItems(items), forall x :: x in items ==> Portable(x))
  {
    if items != [] {
      EmittersAgree(items[0]);
      ItemEmittersAgree(items[1..]);
      assert forall x :: x in items <==> x == items[0] || x in items[1..];
    }
  }

  lemma {:induction false} MemberEmittersAgree(ms: seq<Member>, first: bool)
    ensures var lead: Text := if first || ms == [] then [] else T(",");
            var portable := forall m :: m in ms ==> !m.value.Undefined? && Portable(m.value);
            && (EmitMembers(ms).Ok? <==> BrowserMembers(ms, first).Ok? && portable)
            && (EmitMembers(ms).Ok? ==> BrowserMembers(ms, first).value == lead + EmitMembers(ms).value)
  {
    if ms != [] {
      EmittersAgree(ms[0].value);
      MemberEmittersAgree(ms[1..], if ms[0].value.Undefined? then first else false);
      assert forall m :: m in ms <==> m == ms[0] || m in ms[1..];
      if EmitMembers(ms).Ok? { OneMoreMember(ms, first); }
    }
  }

  lemma OneMoreMember(ms: seq<Member>, first: bool)
    requires ms != [] && EmitMembers(ms).Ok? && !ms[0].value.Undefined?
    requires Emit(ms[0].value).Ok? && BrowserEmit(ms[0].value) == Ok(Emit(ms[0].value).value)
    requires BrowserMembers(ms[1..], false) == Ok((if |ms| == 1 then [] else T(",")) + EmitMembers(ms[1..]).value)
    ensures BrowserMembers(ms, first) == Ok((if first then [] else T(",")) + EmitMembers(ms).value)
  {
    hide Emit, BrowserEmit, Quote;
    var lead: Text := if first then [] else T(",");
    var one := EmitMember(ms[0]).value;
    if |ms| == 1 {
      assert EmitMembers(ms[1..]).value == [];
      assert lead + one + ([] + []) == lead + one;
    } else {
      var rest := EmitMembers(ms[1..]).value;
      assert lead + one + (T(",") + rest) == lead + (one + T(",") + rest);
    }
  }

  lemma {:induction false} SortedKeepsPortable(v: Value)
    ensures Portable(Sorted(v)) <==> Portable(v)
  {
    match v
    case Arr(items) =>
      forall x | x in items ensures Portable(Sorted(x)) <==> Portable(x) { SortedKeepsPortable(x); }
      SortedItemsAre(items);
    case Obj(_, ms) =>
      forall m | m in ms ensures Portable(Sorted(m.value)) <==> Portable(m.value) { SortedKeepsPortable(m.value); }
      PortableMembers(ms);
    case _ =>
  }

  lemma PortableMembers(ms: seq<Member>)
    requires forall m :: m in ms ==> (Portable(Sorted(m.value)) <==> Portable(m.value))
    ensures (forall x :: x in Sort(SortedValues(ms)) ==> !x.value.Undefined? && Portable(x.value))
       <==> (forall m :: m in ms ==> !m.value.Undefined? && Portable(m.value))
  {
    SortedMembersAre(ms);
    forall m | m in ms ensures SortedMember(m).value.Undefined? <==> m.value.Undefined? {}
  }

  /** Core accepts a value exactly when the browser does and the value is portable; then both write the same text. */
  lemma CanonicalizersAgree(v: Value)
    ensures Canonical(v).Ok? <==> BrowserCanonical(v).Ok? && Portable(v)
    ensures Canonical(v).Ok? ==> BrowserCanonical(v).value == Canonical(v).value
  {
    EmittersAgree(Sorted(v));
    SortedKeepsPortable(v);
  }

  // ---------------------------------------------------------------- what the browser accepts

  /** The browser writes a text: only finite numbers, and nowhere but as a member anything without a text. */
  predicate BrowserWritable(v: Value) {
    match v
    case Num(n) => !n.NonFinite?
    case Arr(items) => forall x :: x in items ==> BrowserWritable(x)
    case Obj(_, ms) => forall m :: m in ms ==> m.value.Undefined? || BrowserWritable(m.value)
    case BigInt => false
    case Undefined => false
    case Callable => false
    case _ => true
  }

  lemma {:induction false} BrowserEmitOk(v: Value)
    ensures BrowserEmit(v).Ok? <==> BrowserWritable(v)
  {
    match v
    case Arr(items) => BrowserItemsOk(items);
    case Obj(_, ms) => BrowserMembersOk(ms, true);
    case _ =>
  }

  lemma {:induction false} BrowserItemsOk(items: seq<Value>)
    ensures BrowserItems(items).Ok? <==> forall x :: x in items ==> BrowserWritable(x)
  {
    if items != [] {
      BrowserEmitOk(items[0]);
      BrowserItemsOk(items[1..]);
      assert forall x :: x in items <==> x == items[0] || x in items[1..];
    }
  }

  lemma {:induction false} BrowserMembersOk(ms: seq<Member>, first: bool)
    ensures BrowserMembers(ms, first).Ok? <==> forall m :: m in ms ==> m.value.Undefined? || BrowserWritable(m.value)
  {
    if ms != [] {
      BrowserEmitOk(ms[0].value);
      BrowserMembersOk(ms[1..], if ms[0].value.Undefined? then first else false);
      assert forall m :: m in ms <==> m == ms[0] || m in ms[1..];
    }
  }

  lemma {:induction false} SortedKeepsWritable(v: Value)
    ensures BrowserWritable(Sorted(v)) <==> BrowserWritable(v)
  {
    match v
    case Arr(items) =>
      forall x | x in items ensures BrowserWritable(Sorted(x)) <==> BrowserWritable(x) { SortedKeepsWritable(x); }
      SortedItemsAre(items);
    case Obj(_, ms) =>
      forall m | m in ms ensures BrowserWritable(Sorted(m.value)) <==> BrowserWritable(m.value) {
        SortedKeepsWritable(m.value);
      }
      WritableMembers(ms);
    case _ =>
  }

  lemma WritableMembers(ms: seq<Member>)
    requires forall m :: m in ms ==> (BrowserWritable(Sorted(m.value)) <==> BrowserWritable(m.value))
    ensures (forall x :: x in Sort(SortedValues(ms)) ==> x.value.Undefined? || BrowserWritable(x.value))
       <==> (forall m :: m in ms ==> m.value.Undefined? || BrowserWritable(m.value))
  {
    hide BrowserWritable, Sorted, Sort, SortedValues;
    SortedMembersAre(ms);
    forall m | m in ms ensures SortedMember(m).value.Undefined? <==> m.value.Undefined? { MemberUndefined(m); }
  }

  /** The members that are not undefined. */
  function Defined(ms: seq<Member>): (r: seq<Member>)
    ensures forall m :: m in r <==> m in ms && !m.value.Undefined?
  {
    if ms == [] then [] else (if ms[0].value.Undefined? then [] else [ms[0]]) + Defined(ms[1..])
  }

  lemma {:induction false} UndefinedSkipped(ms: seq<Member>, first: bool)
    ensures BrowserMembers(Defined(ms), first) == BrowserMembers(ms, first)
  {
    hide BrowserEmit, Quote;
    if ms != [] {
      UndefinedSkipped(ms[1..], if ms[0].value.Undefined? then first else false);
      if ms[0].value.Undefined? {
        assert Defined(ms) == Defined(ms[1..]);
      } else {
        assert Defined(ms)[1..] == Defined(ms[1..]);
      }
    }
  }

  lemma {:induction false} DefinedKeepsSorted(ms: seq<Member>)
    requires SortedByKey(ms)
    ensures SortedByKey(Defined(ms))
  {
    if ms != [] {
      DefinedKeepsSorted(ms[1..]);
      forall x | x in Defined(ms[1..]) ensures Less(ms[0].key, x.key) {
        var i :| 0 <= i < |ms[1..]| && ms[1..][i] == x;
        assert ms[i + 1] == x;
      }
    }
  }

  lemma {:induction false} DefinedKeepsDistinct(ms: seq<Member>)
    requires DistinctKeys(ms)
    ensures DistinctKeys(Defined(ms))
  {
    if ms != [] {
      DefinedKeepsDistinct(ms[1..]);
      forall x | x in Defined(ms[1..]) ensures ms[0].key != x.key {
        var i :| 0 <= i < |ms[1..]| && ms[1..][i] == x;
        assert ms[i + 1] == x;
      }
    }
  }

  /** Leaving undefined members out before sorting or after comes to the same. */
  lemma SortDefined(ms: seq<Member>)
    requires DistinctKeys(ms)
    ensures Sort(SortedValues(Defined(ms))) == Defined(Sort(SortedValues(ms)))
  {
    hide Sorted, SortedMember, Less;
    var a, b := SortedValues(Defined(ms)), SortedValues(ms);
    DefinedKeepsDistinct(ms);
    SortSorts(a);
    SortSorts(b);
    DefinedKeepsSorted(Sort(b));
    forall x: Member ensures x in Sort(a) <==> x in Defined(Sort(b)) { DefinedEitherWay(ms, x); }
    SortedUnique(Sort(a), Defined(Sort(b)));
  }

  lemma DefinedEitherWay(ms: seq<Member>, x: Member)
    ensures x in Sort(SortedValues(Defined(ms))) <==> x in Defined(Sort(SortedValues(ms)))
  {
    hide Sorted, SortedMember, Sort, SortedValues;
    InSortedOf(Defined(ms), x);
    InSortedOf(ms, x);
    forall m | m in ms ensures SortedMember(m).value.Undefined? <==> m.value.Undefined? { MemberUndefined(m); }
  }

  lemma MemberUndefined(m: Member)
    ensures SortedMember(m).value.Undefined? <==> m.value.Undefined?
  {}

  lemma InSortedOf(ms: seq<Member>, x: Member)
    ensures x in Sort(SortedValues(ms)) <==> exists m :: m in ms && x == SortedMember(m)
  {
    SortedMembersAre(ms);
  }

  lemma UndefinedInvisible(plain: bool, ms: seq<Member>)
    requires DistinctKeys(ms)
    ensures BrowserCanonical(Obj(plain, ms)) == BrowserCanonical(Obj(true, Defined(ms)))
  {
    hide BrowserMembers, Sort, SortedValues, Defined, DistinctKeys;
    SortDefined(ms);
    UndefinedSkipped(Sort(SortedValues(ms)), true);
  }

  /** The browser accepts exactly these values; an undefined member leaves no trace, and neither does a class. */
  lemma BrowserAccepts(v: Value)
    ensures BrowserCanonical(v).Ok? <==> BrowserWritable(v)
    ensures v.Obj? && DistinctKeys(v.members) ==>
              BrowserCanonical(v) == BrowserCanonical(Obj(true, Defined(v.members)))
  {
    hide BrowserWritable, BrowserEmit, Sorted, Defined, DistinctKeys;
    BrowserEmitOk(Sorted(v));
    SortedKeepsWritable(v);
    if v.Obj? && DistinctKeys(v.members) { UndefinedInvisible(v.plain, v.members); }
  }

  // ---------------------------------------------------------------- the browser's serializer

  /** What a serializing call leaves behind. */
  ghost predicate BrowserWrote(written: Result<Text, Refusal>, r: Result<(), Refusal>, before: Text, after: Text) {
    match written
    case Ok(text) => r == Ok(()) && after == before + text
    case Err(_) => r.Err?
  }

  /** `jcsSerialize`: pushes the tokens of `value`. */
  method JcsSerialize(value: Value, out: Output) returns (r: Result<(), Refusal>)
    modifies out
    ensures BrowserWrote(BrowserCanonical(value), r, Joined(old(out.tokens)), Joined(out.tokens))
    decreases value, 1
  {
    match value
    case Null => out.Push(T("null")); r := Ok(());
    case Bool(b) => out.Push(if b then T("true") else T("false")); r := Ok(());
    case Num(n) =>
      if n.NonFinite? { return Err(Refused); }
      out.Push(BrowserNumber(n).value);
      r := Ok(());
    case Str(s) => out.Push(Quote(s)); r := Ok(());
    case BigInt => r := Err(Refused);
    case Undefined => r := Err(Refused);
    case Callable => r := Err(Refused);
    case Arr(items) => r := JcsSerializeArray(items, value, out);
    case Obj(_, ms) => r := JcsSerializeObject(ms, value, out);
  }

  method JcsSerializeArray(items: seq<Value>, ghost list: Value, out: Output) returns (r: Result<(), Refusal>)
    requires list == Arr(items)
    modifies out
    ensures BrowserWrote(BrowserCanonical(list), r, Joined(old(out.tokens)), Joined(out.tokens))
    decreases list, 0, 1
  {
    if BrowserCanonical(list).Ok? {
      Enclosed(Joined(out.tokens), T("["), BrowserItems(SortedItems(items)).value, T("]"));
    }
    out.Push(T("["));
    r := JcsSerializeItems(items, list, out);
    if r.Ok? { out.Push(T("]")); }
  }

  method JcsSerializeObject(ms: seq<Member>, ghost whole: Value, out: Output) returns (r: Result<(), Refusal>)
    requires whole.Obj? && whole.members == ms
    modifies out
    ensures BrowserWrote(BrowserCanonical(whole), r, Joined(old(out.tokens)), Joined(out.tokens))
    decreases whole, 0, 1
  {
    var keys := Sort(ms);
    SortThenSortValues(ms);
    if BrowserCanonical(whole).Ok? {
      Enclosed(Joined(out.tokens), T("{"), BrowserMembers(SortedValues(keys), true).value, T("}"));
    }
    out.Push(T("{"));
    r := JcsSerializeMembers(keys, whole, out);
    if r.Ok? { out.Push(T("}")); }
  }

  method JcsSerializeItems(items: seq<Value>, ghost list: Value, out: Output) returns (r: Result<(), Refusal>)
    requires list == Arr(items)
    modifies out
    ensures BrowserWrote(BrowserItems(SortedItems(items)), r, Joined(old(out.tokens)), Joined(out.tokens))
    decreases list, 0, 0
  {
    hide BrowserEmit, BrowserItems, Sorted, SortedItems, Joined, Separator;
    ghost var sorted, all, start := SortedItems(items), BrowserItems(SortedItems(items)), Joined(out.tokens);
    StartOfBrowserItems(sorted);
    var i := 0;
    while i < |items|
      invariant 0 <= i <= |items|
      invariant BrowserContinues(all, start, BrowserItemsFrom(sorted[i..], i), Joined(out.tokens))
    {
      assert sorted[i..][0] == sorted[i] && sorted[i..][1..] == sorted[i + 1..];
      BrowserItemsStep(sorted[i..], i, Joined(out.tokens));
      PushSeparator(i, out);
      var one := JcsSerialize(items[i], out);
      if one.Err? { return one; }
      i := i + 1;
    }
    assert Joined(out.tokens) + [] == Joined(out.tokens);
    r := Ok(());
  }

  lemma StartOfBrowserItems(items: seq<Value>)
    ensures BrowserItemsFrom(items, 0) == BrowserItems(items)
  {
    if BrowserItems(items).Ok? { assert [] + BrowserItems(items).value == BrowserItems(items).value; }
  }

  /** What is still to be written when element `i` is next. */
  function BrowserItemsFrom(items: seq<Value>, i: nat): Result<Text, Refusal> {
    if items == [] then Ok([])
    else
      var body :- BrowserItems(items);
      Ok(Separator(i) + body)
  }

  lemma BrowserItemsStep(items: seq<Value>, i: nat, text: Text)
    requires items != []
    ensures BrowserEmit(items[0]).Err? ==> BrowserItemsFrom(items, i).Err?
    ensures BrowserEmit(items[0]).Ok? ==>
              BrowserContinues(BrowserItemsFrom(items, i), text, BrowserItemsFrom(items[1..], i + 1),
                               text + Separator(i) + BrowserEmit(items[0]).value)
  {
    if BrowserItemsFrom(items, i).Ok? {
      var rest := BrowserItemsFrom(items[1..], i + 1).value;
      Regrouped(text, Separator(i), BrowserEmit(items[0]).value, rest);
      assert BrowserItems(items).value == BrowserEmit(items[0]).value + rest;
    }
  }

  method JcsSerializeMembers(keys: seq<Member>, ghost whole: Value, out: Output) returns (r: Result<(), Refusal>)
    requires whole.Obj? && forall m :: m in keys ==> m in whole.members
    modifies out
    ensures BrowserWrote(BrowserMembers(SortedValues(keys), true), r, Joined(old(out.tokens)), Joined(out.tokens))
    decreases whole, 0, 0
  {
    hide BrowserEmit, BrowserMembers, Quote, Sorted, SortedValues, Joined, Separator;
    ghost var sorted, all, start := SortedValues(keys), BrowserMembers(SortedValues(keys), true), Joined(out.tokens);
    var first := true;
    var i := 0;
    while i < |keys|
      invariant 0 <= i <= |keys|
      invariant BrowserContinues(all, start, BrowserMembers(sorted[i..], first), Joined(out.tokens))
    {
      var m := keys[i];
      assert m in whole.members;
      assert sorted[i..][0] == sorted[i] && sorted[i..][1..] == sorted[i + 1..];
      BrowserMembersStep(sorted[i..], first, Joined(out.tokens));
      SortedUndefined(m.value);
      if !m.value.Undefined? {
        PushName(m.key, first, out);
        var one := JcsSerialize(m.value, out);
        if one.Err? { return one; }
        first := false;
      }
      i := i + 1;
    }
    assert sorted[i..] == [];
    NoMembersLeft(first);
    assert Joined(out.tokens) + [] == Joined(out.tokens);
    r := Ok(());
  }

  lemma SortedUndefined(v: Value)
    ensures Sorted(v).Undefined? <==> v.Undefined?
  {}

  lemma NoMembersLeft(first: bool)
    ensures BrowserMembers([], first) == Ok([])
  {}

  /** Writing `rest` after `text` comes to writing `all` after `start`. */
  ghost predicate BrowserContinues(all: Result<Text, Refusal>, start: Text, rest: Result<Text, Refusal>, text: Text) {
    match all
    case Ok(a) => rest.Ok? && text + rest.value == start + a
    case Err(_) => rest.Err?
  }

  /** One round of the loop: an undefined member is skipped, a refused one ends it, any other is written. */
  lemma BrowserMembersStep(ms: seq<Member>, first: bool, text: Text)
    requires ms != []
    ensures ms[0].value.Undefined? ==> BrowserMembers(ms, first) == BrowserMembers(ms[1..], first)
    ensures !ms[0].value.Undefined? && BrowserEmit(ms[0].value).Err? ==> BrowserMembers(ms, first).Err?
    ensures !ms[0].value.Undefined? && BrowserEmit(ms[0].value).Ok? ==>
              BrowserContinues(BrowserMembers(ms, first), text, BrowserMembers(ms[1..], false),
                               text + Separator(if first then 0 else 1) + Quote(ms[0].key) + T(":")
                               + BrowserEmit(ms[0].value).value)
  {
    hide BrowserEmit, Quote;
    if !ms[0].value.Undefined? && BrowserMembers(ms, first).Ok? {
      FourPieces(text, Separator(if first then 0 else 1), Quote(ms[0].key), T(":"),
                 BrowserEmit(ms[0].value).value, BrowserMembers(ms[1..], false).value);
    }
  }

  lemma FourPieces(text: Text, separator: Text, key: Text, colon: Text, value: Text, rest: Text)
    ensures text + separator + key + colon + value + rest == text + (separator + (key + colon + value) + rest)
  {}
}

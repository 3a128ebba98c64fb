// ECMAScript values as the canonicalizers see them, and equality up to member order.
module Json {
  import opened Text

  /** A number by its `JSON.stringify` token: an integer literal, a token with '.' or 'e', or no token. */
  datatype Number = Integer(n: int) | Fraction(token: Text) | NonFinite

  datatype Value =
    | Null
    | Bool(b: bool)
    | Num(num: Number)
    | Str(s: Text)
    | Arr(items: seq<Value>)
    | Obj(plain: bool, members: seq<Member>)  // own members in insertion order; `plain` is the prototype test
    | BigInt
    | Undefined
    | Callable  // a function or a symbol

  datatype Member = Member(key: Text, value: Value)

  predicate IsDigit(u: Unit) { '0' as int <= u <= '9' as int }

  predicate IsNumberUnit(u: Unit) {
    IsDigit(u) || u == '-' as int || u == '+' as int || u == '.' as int || u == 'e' as int
  }

  predicate HasPointOrExponent(t: Text) { '.' as int in t || 'e' as int in t }

  /** The shape of every non-integer token of Number::toString. */
  predicate IsFractionToken(t: Text) {
    && t != []
    && (IsDigit(t[0]) || t[0] == '-' as int)
    && (forall i :: 0 <= i < |t| ==> IsNumberUnit(t[i]))
    && HasPointOrExponent(t)
  }

  ghost predicate DistinctKeys(ms: seq<Member>) {
    forall i, j :: 0 <= i < j < |ms| ==> ms[i].key != ms[j].key
  }

  /** What holds of every ECMAScript value: member names are unique, number tokens are tokens. */
  ghost predicate Genuine(v: Value) {
    match v
    case Num(Fraction(t)) => IsFractionToken(t)
    case Arr(items) => forall x :: x in items ==> Genuine(x)
    case Obj(_, ms) => DistinctKeys(ms) && forall i :: 0 <= i < |ms| ==> Genuine(ms[i].value)
    case _ => true
  }

  /** Equality up to the order of members, at every depth. */
  ghost predicate Same(v: Value, w: Value) {
    match (v, w)
    case (Arr(a), Arr(b)) =>
      |a| == |b| && forall i :: 0 <= i < |a| ==> Same(a[i], b[i])
    case (Obj(p, a), Obj(q, b)) =>
      && p == q
      && (forall m :: m in a ==> Matched(m, b))
      && (forall m :: m in b ==> HasKey(a, m.key))
    case (_, _) => v == w
  }

  ghost predicate Matched(m: Member, ms: seq<Member>) {
    exists n :: n in ms && n.key == m.key && Same(m.value, n.value)
  }

  predicate HasKey(ms: seq<Member>, key: Text) {
    exists m :: m in ms && m.key == key
  }

  // ---------------------------------------------------------------- member sorting

  predicate SortedByKey(ms: seq<Member>) {
    forall i, j :: 0 <= i < j < |ms| ==> Less(ms[i].key, ms[j].key)
  }

  function Insert(m: Member, ms: seq<Member>): (r: seq<Member>)
    ensures |r| == |ms| + 1
    ensures forall x :: x in r <==> x == m || x in ms
  {
    if ms == [] || Less(m.key, ms[0].key) then [m] + ms else [ms[0]] + Insert(m, ms[1..])
  }

  /** Members ordered by name, as `Object.keys(obj).sort(...)` orders the names. */
  function Sort(ms: seq<Member>): (r: seq<Member>)
    ensures |r| == |ms|
    ensures forall x :: x in r <==> x in ms
  {
    if ms == [] then [] else Insert(ms[0], Sort(ms[1..]))
  }

  lemma {:induction false} InsertKeepsSorted(m: Member, ms: seq<Member>)
    requires SortedByKey(ms)
    requires forall x :: x in ms ==> x.key != m.key
    ensures SortedByKey(Insert(m, ms))
  {
    if ms == [] {
    } else if Less(m.key, ms[0].key) {
      forall j | 0 <= j < |ms| ensures Less(m.key, ms[j].key) {
        if j > 0 { LessTransitive(m.key, ms[0].key, ms[j].key); }
      }
    } else {
      LessTrichotomy(m.key, ms[0].key);
      InsertKeepsSorted(m, ms[1..]);
      forall x | x in Insert(m, ms[1..]) ensures Less(ms[0].key, x.key) {
        if x != m { assert x in ms[1..]; }
      }
    }
  }

  lemma {:induction false} SortSorts(ms: seq<Member>)
    requires DistinctKeys(ms)
    ensures SortedByKey(Sort(ms))
  {
    if ms != [] {
      SortSorts(ms[1..]);
      InsertKeepsSorted(ms[0], Sort(ms[1..]));
    }
  }

  lemma SortedKeysDistinct(ms: seq<Member>)
    requires SortedByKey(ms)
    ensures DistinctKeys(ms)
  {
    forall i, j | 0 <= i < j < |ms| ensures ms[i].key != ms[j].key { LessTrichotomy(ms[i].key, ms[j].key); }
  }

  /** A sorted list of members is determined by which members it holds. */
  lemma {:induction false} SortedUnique(a: seq<Member>, b: seq<Member>)
    requires SortedByKey(a) && SortedByKey(b)
    requires forall x :: x in a <==> x in b
    ensures a == b
  {
    if b != [] { assert b[0] in b; }
    if a != [] {
      assert a[0] in b;
      assert b[0] in a;
      HeadsAgree(a, b);
      forall x ensures x in a[1..] <==> x in b[1..] {
        SortedKeysDistinct(a);
        SortedKeysDistinct(b);
        assert x in a <==> x == a[0] || x in a[1..];
        assert x in b <==> x == b[0] || x in b[1..];
      }
      SortedUnique(a[1..], b[1..]);
    }
  }

  lemma HeadsAgree(a: seq<Member>, b: seq<Member>)
    requires a != [] && b != [] && SortedByKey(a) && SortedByKey(b)
    requires a[0] in b && b[0] in a
    ensures a[0] == b[0]
  {
    if a[0] != b[0] {
      var i :| 0 <= i < |b| && b[i] == a[0];
      var j :| 0 <= j < |a| && a[j] == b[0];
      LessTrichotomy(a[0].key, b[0].key);
    }
  }

  lemma SortAgrees(a: seq<Member>, b: seq<Member>)
    requires DistinctKeys(a) && DistinctKeys(b)
    requires forall x :: x in a <==> x in b
    ensures Sort(a) == Sort(b)
  {
    SortSorts(a);
    SortSorts(b);
    SortedUnique(Sort(a), Sort(b));
  }

  // ---------------------------------------------------------------- sorting at every depth

  /** The value with the members of every object sorted by name. */
  function Sorted(v: Value): (r: Value)
  {
    match v
    case Arr(items) => Arr(SortedItems(items))
    case Obj(plain, ms) => Obj(plain, Sort(SortedValues(ms)))
    case _ => v
  }

  function SortedItems(items: seq<Value>): (r: seq<Value>)
    ensures |r| == |items|
    ensures forall i :: 0 <= i < |r| ==> r[i] == Sorted(items[i])
  {
    if items == [] then [] else [Sorted(items[0])] + SortedItems(items[1..])
  }

  function SortedValues(ms: seq<Member>): (r: seq<Member>)
    ensures |r| == |ms|
    ensures forall i :: 0 <= i < |r| ==> r[i] == Member(ms[i].key, Sorted(ms[i].value))
  {
    if ms == [] then [] else [Member(ms[0].key, Sorted(ms[0].value))] + SortedValues(ms[1..])
  }

  lemma {:induction false} SortedGenuine(v: Value)
    requires Genuine(v)
    ensures Genuine(Sorted(v))
  {
    match v
    case Arr(items) =>
      forall x | x in SortedItems(items) ensures Genuine(x) {
        var i :| 0 <= i < |items| && x == SortedItems(items)[i];
        SortedGenuine(items[i]);
      }
    case Obj(_, ms) =>
      var sv := SortedValues(ms);
      SortSorts(sv);
      SortedKeysDistinct(Sort(sv));
      forall i | 0 <= i < |ms| ensures Genuine(Sort(sv)[i].value) {
        assert Sort(sv)[i] in sv;
        var j :| 0 <= j < |ms| && sv[j] == Sort(sv)[i];
        SortedGenuine(ms[j].value);
      }
    case _ =>
  }

  /** Sorting the names first and the values below them afterwards comes to the same. */
  lemma {:induction false} SortThenSortValues(ms: seq<Member>)
    ensures SortedValues(Sort(ms)) == Sort(SortedValues(ms))
  {
    if ms != [] {
      SortThenSortValues(ms[1..]);
      InsertThenSortValues(ms[0], Sort(ms[1..]));
      assert SortedValues(ms)[1..] == SortedValues(ms[1..]);
    }
  }

  lemma {:induction false} InsertThenSortValues(m: Member, ms: seq<Member>)
    ensures SortedValues(Insert(m, ms)) == Insert(Member(m.key, Sorted(m.value)), SortedValues(ms))
  {
    if ms != [] && !Less(m.key, ms[0].key) {
      InsertThenSortValues(m, ms[1..]);
    }
  }

  /** Sorting a second time changes nothing. */
  lemma {:induction false} SortedIdempotent(v: Value)
    requires Genuine(v)
    ensures Sorted(Sorted(v)) == Sorted(v)
  {
    match v
    case Arr(items) =>
      forall i | 0 <= i < |items| ensures Sorted(Sorted(items[i])) == Sorted(items[i]) { SortedIdempotent(items[i]); }
      assert SortedItems(SortedItems(items)) == SortedItems(items);
    case Obj(_, ms) =>
      var sv := SortedValues(ms);
      forall i | 0 <= i < |ms| ensures Sorted(Sorted(ms[i].value)) == Sorted(ms[i].value) {
        SortedIdempotent(ms[i].value);
      }
      assert SortedValues(sv) == sv;
      SortThenSortValues(sv);
      SortSorts(sv);
      SortedKeysDistinct(Sort(sv));
      SortAgrees(Sort(sv), sv);
    case _ =>
  }

  lemma SameArrays(a: seq<Value>, b: seq<Value>)
    requires |a| == |b| ==> forall i :: 0 <= i < |a| ==> (Same(a[i], b[i]) <==> Sorted(a[i]) == Sorted(b[i]))
    ensures Same(Arr(a), Arr(b)) <==> Sorted(Arr(a)) == Sorted(Arr(b))
  {
    if Sorted(Arr(a)) == Sorted(Arr(b)) {
      assert SortedItems(a) == SortedItems(b);
      forall i | 0 <= i < |a| ensures Sorted(a[i]) == Sorted(b[i]) {
        assert SortedItems(a)[i] == SortedItems(b)[i];
      }
    }
  }

  /** The values of two objects are the same exactly when they sort to the same. */
  ghost predicate ValuesSortAlike(a: seq<Member>, b: seq<Member>) {
    forall m, n :: m in a && n in b ==> (Same(m.value, n.value) <==> Sorted(m.value) == Sorted(n.value))
  }

  lemma SameSortsEqual(a: seq<Member>, b: seq<Member>)
    requires DistinctKeys(a) && DistinctKeys(b) && ValuesSortAlike(a, b)
    requires (forall m :: m in a ==> Matched(m, b)) && (forall m :: m in b ==> HasKey(a, m.key))
    ensures Sort(SortedValues(a)) == Sort(SortedValues(b))
  {
    hide Same, Sorted, Sort, Matched, HasKey;
    SameMembers(a, b);
    SortAgrees(SortedValues(a), SortedValues(b));
  }

  lemma SameObjects(p: bool, a: seq<Member>, q: bool, b: seq<Member>)
    requires DistinctKeys(a) && DistinctKeys(b) && ValuesSortAlike(a, b)
    ensures Same(Obj(p, a), Obj(q, b)) <==> Sorted(Obj(p, a)) == Sorted(Obj(q, b))
  {
    hide Sort, SortedValues, Matched, HasKey, DistinctKeys;
    if Same(Obj(p, a), Obj(q, b)) { SameSortsEqual(a, b); }
    if Sorted(Obj(p, a)) == Sorted(Obj(q, b)) { SortedMembersMatch(a, b); }
  }

  /** Two values are equal up to member order exactly when sorting makes them equal. */
  lemma {:induction false} SameIffSortedEqual(v: Value, w: Value)
    requires Genuine(v) && Genuine(w)
    ensures Same(v, w) <==> Sorted(v) == Sorted(w)
  {
    match (v, w)
    case (Arr(a), Arr(b)) =>
      if |a| == |b| {
        forall i | 0 <= i < |a| ensures Same(a[i], b[i]) <==> Sorted(a[i]) == Sorted(b[i]) {
          SameIffSortedEqual(a[i], b[i]);
        }
      }
      SameArrays(a, b);
    case (Obj(p, a), Obj(q, b)) =>
      forall m, n | m in a && n in b ensures Same(m.value, n.value) <==> Sorted(m.value) == Sorted(n.value) {
        SameIffSortedEqual(m.value, n.value);
      }
      assert ValuesSortAlike(a, b);
      SameObjects(p, a, q, b);
    case (_, _) =>
  }

  function SortedMember(m: Member): Member { Member(m.key, Sorted(m.value)) }

  lemma InSortedValues(ms: seq<Member>, x: Member)
    ensures x in SortedValues(ms) <==> exists m :: m in ms && x == SortedMember(m)
  {
    var sv := SortedValues(ms);
    if x in sv {
      var i :| 0 <= i < |sv| && sv[i] == x;
      assert ms[i] in ms && x == SortedMember(ms[i]);
    }
    if m :| m in ms && x == SortedMember(m) {
      var i :| 0 <= i < |ms| && ms[i] == m;
      assert sv[i] == x;
    }
  }

  lemma MatchedInSorted(a: seq<Member>, b: seq<Member>, x: Member)
    requires forall m :: m in a ==> Matched(m, b)
    requires forall m, n :: m in a && n in b && Same(m.value, n.value) ==> Sorted(m.value) == Sorted(n.value)
    requires x in SortedValues(a)
    ensures x in SortedValues(b)
  {
    InSortedValues(a, x);
    InSortedValues(b, x);
    var m :| m in a && x == SortedMember(m);
    assert Matched(m, b);
    var n :| n in b && n.key == m.key && Same(m.value, n.value);
    assert x == SortedMember(n);
  }

  lemma MatchedBack(a: seq<Member>, b: seq<Member>, n: Member)
    requires DistinctKeys(b) && n in b && HasKey(a, n.key) && forall m :: m in a ==> Matched(m, b)
    ensures exists m :: m in a && m.key == n.key && Same(m.value, n.value)
  {
    var m :| m in a && m.key == n.key;
    assert Matched(m, b);
    var k :| k in b && k.key == m.key && Same(m.value, k.value);
    assert k == n;
  }

  lemma SameMembers(a: seq<Member>, b: seq<Member>)
    requires DistinctKeys(b)
    requires forall m :: m in a ==> Matched(m, b)
    requires forall m :: m in b ==> HasKey(a, m.key)
    requires forall m, n :: m in a && n in b && Same(m.value, n.value) ==> Sorted(m.value) == Sorted(n.value)
    ensures forall x :: x in SortedValues(a) <==> x in SortedValues(b)
  {
    forall x | x in SortedValues(a) ensures x in SortedValues(b) { MatchedInSorted(a, b, x); }
    forall x | x in SortedValues(b) ensures x in SortedValues(a) {
      InSortedValues(a, x);
      InSortedValues(b, x);
      var n :| n in b && x == SortedMember(n);
      MatchedBack(a, b, n);
      var m :| m in a && m.key == n.key && Same(m.value, n.value);
      assert x == SortedMember(m);
    }
  }

  lemma SortedMembersMatch(a: seq<Member>, b: seq<Member>)
    requires Sort(SortedValues(a)) == Sort(SortedValues(b))
    requires forall m, n :: m in a && n in b && Sorted(m.value) == Sorted(n.value) ==> Same(m.value, n.value)
    ensures forall m :: m in a ==> Matched(m, b)
    ensures forall n :: n in b ==> HasKey(a, n.key)
  {
    hide Same, Sorted, Sort, SortedValues;
    forall m | m in a ensures Matched(m, b) {
      var x := SortedMember(m);
      InSortedValues(a, x);
      InSortedValues(b, x);
      assert x in Sort(SortedValues(a)) && x in Sort(SortedValues(b));
      var n :| n in b && x == SortedMember(n);
    }
    forall n | n in b ensures HasKey(a, n.key) {
      var x := SortedMember(n);
      InSortedValues(a, x);
      InSortedValues(b, x);
      assert x in Sort(SortedValues(b)) && x in Sort(SortedValues(a));
      var m :| m in a && x == SortedMember(m);
    }
  }
}

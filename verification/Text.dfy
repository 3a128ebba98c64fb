// ECMAScript strings: sequences of UTF-16 code units, compared unit by unit.
module Text {
  type Unit = i: int | 0 <= i < 0x10000
  type Text = seq<Unit>

  // Surrogate code units (section 3.9 of the Unicode standard).
  predicate IsLead(u: Unit) { 0xD800 <= u <= 0xDBFF }

  predicate IsTrail(u: Unit) { 0xDC00 <= u <= 0xDFFF }

  predicate IsSurrogate(u: Unit) { 0xD800 <= u <= 0xDFFF }

  /** The text of an ASCII literal. */
  function T(s: string): (t: Text)
    ensures |t| == |s|
  {
    seq(|s|, i requires 0 <= i < |s| => if s[i] as int < 0x80 then s[i] as int else 0xFFFD)
  }

  /** The `<` operator on strings. */
  predicate Less(a: Text, b: Text) {
    b != [] && (a == [] || a[0] < b[0] || (a[0] == b[0] && Less(a[1..], b[1..])))
  }

  lemma {:induction false} LessTransitive(a: Text, b: Text, c: Text)
    requires Less(a, b) && Less(b, c)
    ensures Less(a, c)
  {
    if a != [] && a[0] == b[0] == c[0] {
      LessTransitive(a[1..], b[1..], c[1..]);
    }
  }

  /** Exactly one of `a < b`, `a == b`, `b < a` holds. */
  lemma {:induction false} LessTrichotomy(a: Text, b: Text)
    ensures Less(a, b) || a == b || Less(b, a)
    ensures !(Less(a, b) && Less(b, a))
    ensures Less(a, b) ==> a != b
  {
    if a != [] && b != [] && a[0] == b[0] {
      LessTrichotomy(a[1..], b[1..]);
      assert a == [a[0]] + a[1..] && b == [b[0]] + b[1..];
    }
  }

  predicate StartsWith(t: Text, prefix: Text) {
    |prefix| <= |t| && t[..|prefix|] == prefix
  }

  lemma PrefixOfConcat(prefix: Text, rest: Text)
    ensures StartsWith(prefix + rest, prefix)
    ensures (prefix + rest)[|prefix|..] == rest
  {}

  lemma PrefixAt(t: Text, prefix: Text, i: nat)
    requires i < |prefix|
    ensures StartsWith(t, prefix) ==> i < |t| && t[i] == prefix[i]
  {
    if StartsWith(t, prefix) { assert t[i] == t[..|prefix|][i]; }
  }

  lemma Regroup(a: Text, b: Text, c: Text)
    ensures a + b + c == a + (b + c)
  {}

  /** A cheap summary of a text; texts with different summaries differ. */
  function Summary(t: Text): (int, int, int) {
    if t == [] then (0, 0, 0) else (|t|, t[0], t[|t| - 1])
  }

  /** The texts are pairwise different, shown by their summaries alone. */
  predicate Apart(ts: seq<Text>) {
    forall i, j :: 0 <= i < j < |ts| ==> Summary(ts[i]) != Summary(ts[j])
  }
}

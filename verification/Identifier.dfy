// Identifier shapes of packages/core/src/identifier.ts.
module Identifier {
  import opened Text

  /** One character of the class `[0-9A-HJKMNP-TV-Z]`. */
  predicate IsCrockford(u: Unit) {
    || '0' as int <= u <= '9' as int
    || 'A' as int <= u <= 'H' as int
    || u == 'J' as int || u == 'K' as int || u == 'M' as int || u == 'N' as int
    || 'P' as int <= u <= 'T' as int
    || 'V' as int <= u <= 'Z' as int
  }

  /** `ULID_REGEX` */
  predicate IsUlid(t: Text) {
    && |t| == 26
    && '0' as int <= t[0] <= '7' as int
    && forall i :: 1 <= i < 26 ==> IsCrockford(t[i])
  }

  predicate IsPrefixedUlid(t: Text, prefix: Text) {
    StartsWith(t, prefix) && IsUlid(t[|prefix|..])
  }

  predicate IsAgentId(t: Text) { IsPrefixedUlid(t, T("agenid:")) }

  predicate IsKeyId(t: Text) { IsPrefixedUlid(t, T("agenid:key:")) }

  predicate IsAssertionId(t: Text) { IsPrefixedUlid(t, T("assertion:")) }

  predicate IsPrincipalId(t: Text) { IsPrefixedUlid(t, T("agenid:principal:")) }

  predicate IsGrantId(t: Text) { IsPrefixedUlid(t, T("grant:")) }

  predicate IsRevocationId(t: Text) { IsPrefixedUlid(t, T("revocation:")) }

  predicate IsLowerAlnum(u: Unit) { 'a' as int <= u <= 'z' as int || '0' as int <= u <= '9' as int }

  /** `AUTHORITY_ID_REGEX` */
  predicate IsAuthorityId(t: Text) {
    && StartsWith(t, T("agenid:authority:"))
    && var name := t[17..];
       && 1 <= |name| <= 63
       && IsLowerAlnum(name[0])
       && forall i :: 1 <= i < |name| ==> IsLowerAlnum(name[i]) || name[i] == '-' as int
  }

  /** `DEPLOYMENT_ID_REGEX` */
  predicate IsDeploymentId(t: Text) {
    && StartsWith(t, T("dep_"))
    && var rest := t[4..];
       && 1 <= |rest| <= 64
       && forall i :: 0 <= i < |rest| ==> IsBase64Url(rest[i])
  }

  predicate IsBase64Url(u: Unit) {
    || 'A' as int <= u <= 'Z' as int || 'a' as int <= u <= 'z' as int || '0' as int <= u <= '9' as int
    || u == '-' as int || u == '_' as int
  }

  predicate AllBase64Url(t: Text) { forall i :: 0 <= i < |t| ==> IsBase64Url(t[i]) }

  predicate IsLowerHex(u: Unit) { '0' as int <= u <= '9' as int || 'a' as int <= u <= 'f' as int }

  datatype Namespace = Agents | Keys | Assertions | Authorities | Deployments | Principals | Grants | Revocations

  predicate InNamespace(n: Namespace, t: Text) {
    match n
    case Agents => IsAgentId(t)
    case Keys => IsKeyId(t)
    case Assertions => IsAssertionId(t)
    case Authorities => IsAuthorityId(t)
    case Deployments => IsDeploymentId(t)
    case Principals => IsPrincipalId(t)
    case Grants => IsGrantId(t)
    case Revocations => IsRevocationId(t)
  }

  /** The first two characters set the `agenid:` namespaces apart from the others, and the eighth those from each other:
      a digit begins an agent's ULID. */
  predicate Marked(n: Namespace, t: Text) {
    && |t| >= 5
    && t[0] == (match n case Deployments => 'd' case Grants => 'g' case Revocations => 'r' case _ => 'a') as int
    && (n.Assertions? ==> t[1] == 's' as int)
    && (n.Agents? || n.Keys? || n.Authorities? || n.Principals? ==>
          |t| >= 8 && t[1] == 'g' as int
          && (n.Agents? ==> t[7] <= '7' as int) && (n.Keys? ==> t[7] == 'k' as int)
          && (n.Authorities? ==> t[7] == 'a' as int) && (n.Principals? ==> t[7] == 'p' as int))
  }

  lemma NamespaceMarks(n: Namespace, t: Text)
    requires InNamespace(n, t)
    ensures Marked(n, t)
  {
    match n
    case Agents => AgentMarks(t);
    case Keys => PrefixMarks(t, T("agenid:key:"));
    case Assertions => PrefixMarks(t, T("assertion:"));
    case Authorities => PrefixMarks(t, T("agenid:authority:"));
    case Deployments => PrefixMarks(t, T("dep_"));
    case Principals => PrefixMarks(t, T("agenid:principal:"));
    case Grants => PrefixMarks(t, T("grant:"));
    case Revocations => PrefixMarks(t, T("revocation:"));
  }

  lemma PrefixMarks(t: Text, prefix: Text)
    requires StartsWith(t, prefix) && |prefix| >= 2
    ensures |t| >= |prefix| && t[0] == prefix[0] && t[1] == prefix[1] && (|prefix| >= 8 ==> t[7] == prefix[7])
  {
    PrefixAt(t, prefix, 0);
    PrefixAt(t, prefix, 1);
    if |prefix| >= 8 { PrefixAt(t, prefix, 7); }
  }

  lemma AgentMarks(t: Text)
    requires IsAgentId(t)
    ensures |t| == 33 && t[0] == 'a' as int && t[1] == 'g' as int && t[7] <= '7' as int
  {
    PrefixMarks(t, T("agenid:"));
    assert t[7] == t[7..][0];
  }

  /** No text is an identifier of two namespaces. */
  lemma NamespacesDisjoint(t: Text, m: Namespace, n: Namespace)
    requires InNamespace(m, t) && InNamespace(n, t)
    ensures m == n
  {
    hide InNamespace;
    NamespaceMarks(m, t);
    NamespaceMarks(n, t);
  }
}

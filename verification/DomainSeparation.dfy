// A signing input belongs to one payload of one kind.
module DomainSeparation {
  import opened Prelude
  import opened Text
  import opened Json
  import opened Jcs
  import opened JcsBytes
  import opened Utf8
  import opened Objects
  import opened SignedObjects
  import opened PayloadReader
  import Crypto

  /** The bytes signed determine the payload: its kind and every field. */
  lemma SigningInputDeterminesPayload(x: Payload, y: Payload)
    requires SigningInput(x) == SigningInput(y)
    ensures x == y
  {
    SignedBytesRead(x);
    SignedBytesRead(y);
  }

  /** Of the signatures presented so far, each as the message it is claimed for and the signature, those that verify
      under `publicKey` are for messages its holder signed: nobody forged. */
  ghost predicate Unforged(p: Platform, publicKey: Text, signed: iset<Payload>, presented: iset<(Bytes, Text)>) {
    forall message, signature :: (message, signature) in presented && p.verify(publicKey, message, signature) ==>
      exists x :: x in signed && SigningInput(x) == message
  }

  /** Under a key nobody forged for, a presented signature that verifies was made for exactly that payload: no
      signature moves to another kind or to other fields. */
  lemma VerifiedMeansSigned(p: Platform, publicKey: Text, signed: iset<Payload>, presented: iset<(Bytes, Text)>,
                            y: Payload, signature: Text)
    requires Unforged(p, publicKey, signed, presented)
    requires (SigningInput(y), signature) in presented && p.verify(publicKey, SigningInput(y), signature)
    ensures y in signed
  {
    var x :| x in signed && SigningInput(x) == SigningInput(y);
    SigningInputDeterminesPayload(x, y);
  }

  /** What a seed's holder issues by signing payloads. */
  ghost function Issued(p: Platform, seed: Bytes, signed: iset<Payload>): iset<(Bytes, Text)> {
    iset x | x in signed :: (SigningInput(x), p.sign(seed, SigningInput(x)))
  }

  /** Keys that sign meet the hypothesis: whatever payloads a holder signs, and whatever else is presented that does
      not verify, nobody forged, and all that was issued verifies. */
  lemma IssuedIsUnforged(p: Platform, seed: Bytes, signed: iset<Payload>, failing: iset<(Bytes, Text)>)
    requires Crypto.SignaturesVerify(p)
    requires forall message, signature :: (message, signature) in failing ==>
              !p.verify(p.publicKey(seed), message, signature)
    ensures Unforged(p, p.publicKey(seed), signed, Issued(p, seed, signed) + failing)
    ensures forall x :: x in signed ==>
              && (SigningInput(x), p.sign(seed, SigningInput(x))) in Issued(p, seed, signed)
              && p.verify(p.publicKey(seed), SigningInput(x), p.sign(seed, SigningInput(x)))
  {
    forall x | x in signed ensures (SigningInput(x), p.sign(seed, SigningInput(x))) in Issued(p, seed, signed) {}
  }

  // ---------------------------------------------------------------- the digest binds the manifest

  /** The canonical bytes of a manifest determine it. */
  lemma ManifestBytesIdentify(m: Manifest, n: Manifest)
    requires ManifestBytes(m) == ManifestBytes(n)
    ensures m == n
  {
    ManifestBytesRead(m);
    ManifestBytesRead(n);
  }

  /** Manifests with one digest are equal, or exhibit two byte strings on which SHA-256 collides. */
  lemma DigestBindsManifest(p: Platform, m: Manifest, n: Manifest)
    requires ManifestDigest(p, m) == ManifestDigest(p, n)
    ensures || m == n
            || (ManifestBytes(m) != ManifestBytes(n)
                && p.sha256Hex(ManifestBytes(m)) == p.sha256Hex(ManifestBytes(n)))
  {
    if ManifestBytes(m) == ManifestBytes(n) { ManifestBytesIdentify(m, n); }
  }

  // ---------------------------------------------------------------- stripping the signature

  lemma {:induction false} StripKeepsOne(ms: seq<Member>, s: Text)
    requires forall i :: 0 <= i < |ms| ==> ms[i].key != T("signature")
    ensures Stripped(ms + [Text1("signature", s)]) == ms
  {
    if ms == [] {
      assert Stripped([Text1("signature", s)][1..]) == [];
    } else {
      StripKeepsOne(ms[1..], s);
      assert (ms + [Text1("signature", s)])[1..] == ms[1..] + [Text1("signature", s)];
      assert ms == [ms[0]] + ms[1..];
    }
  }

  predicate NotTheSignature(ms: seq<Member>) {
    forall i :: 0 <= i < |ms| ==> |ms[i].key| != 9 || ms[i].key[0] != 's' as int
  }

  lemma ProofUnsigned(x: ProofPayload)
    ensures NotTheSignature(ProofMembers(x))
  {}

  lemma AssertionUnsigned(x: AssertionPayload)
    ensures NotTheSignature(AssertionMembers(x))
  {}

  lemma GrantUnsigned(x: GrantPayload)
    ensures NotTheSignature(GrantMembers(x))
  {}

  lemma RevocationUnsigned(x: RevocationPayload)
    ensures NotTheSignature(RevocationMembers(x))
  {}

  lemma ConsentUnsigned(x: ConsentPayload)
    ensures NotTheSignature(ConsentMembers(x))
  {}

  lemma NoMemberIsTheSignature(x: Payload)
    ensures forall i :: 0 <= i < |Members(x)| ==> Members(x)[i].key != T("signature")
  {
    assert T("signature")[0] == 's' as int;
    match x
    case ProofOf(a) => ProofUnsigned(a);
    case AssertionOf(a) => AssertionUnsigned(a);
    case GrantOf(a) => GrantUnsigned(a);
    case RevocationOf(a) => RevocationUnsigned(a);
    case ConsentOf(a) => ConsentUnsigned(a);
  }

  /** The signed object and the bare payload have one signing input, whatever the signature is. */
  lemma SignatureIsNotSigned(x: Payload, signature: Text)
    ensures SigningInputOf(Members(x) + [Text1("signature", signature)]) == Ok(SigningInput(x))
  {
    NoMemberIsTheSignature(x);
    StripKeepsOne(Members(x), signature);
    var v := Obj(true, Members(x));
    PayloadTame(x);
    TameIsCanonicalizable(v);
    CanonicalAccepts(v);
  }
}

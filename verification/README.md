# AgenID protocol and registry: verified model

AgenID gives software agents an identity that anyone can check again without trusting the registry that serves
it. The claim rests on a chain: one canonical byte string per JSON value, signatures over those bytes, a decision
procedure over roles, windows and revocations, and a registry that never changes what it once stored. This project
models each link and proves what the next one relies on.

The files form these groups, each module depending only on earlier ones:

- Text and numbers: `Prelude`, `Text` (UTF-16 code units), `Numerals`, `Utf8`, `JsBits` (32-bit ECMAScript operators).
- Canonical JSON (RFC 8785): `Json`, `Jcs` (the printer), `JcsText` (how its text looks), `JcsParser` (an inverse written
  only for the proof), `JcsBytes`, `NumberLiteral`, `BrowserJcs` (the second, independent printer).
- Identifiers and key lookup: `Identifier`, `Ulid`, `Uri`, `RequestTarget`, `KeyService`.
- Signed objects: `Objects` (shapes and rules), `SignedObjects` (their JSON), `PayloadReader` (how
  the signed bytes read), `DomainSeparation`, `Crypto`, `Authorization`.
- The registry as a state machine: `Registry`, `Admission` (what its handlers let through), `Envelope`,
  `ConcurrentRegistration`.
- Around it: `BrowserSigning`, `Directory`, `RateLimit`, `ClientIp`.

Code that computes is modelled as functions and lemmas; code that changes state step by step (the token array, the
ULID buffer, the stores, the limiter's map, the handlers) as methods over arrays and classes, each proved equal to a
specification function, about which the properties are then proved. `Step`, `SiteStep` and `MemoryStep` give the
transition systems; results about them hold for every run.

Libraries are not axioms. A `Platform` value stands for Date.parse, toISOString, SHA-256, Ed25519 and the pattern
checks; results hold for every platform, and the few that need a law of one (signatures verify, instants read back)
name it in `requires`. `BrowserSigning.LawsCanHold` exhibits one platform meeting all these laws. That nobody forged is a
hypothesis about the signatures presented, and `DomainSeparation.IssuedIsUnforged` shows that signing keys meet it.

## What the proofs found

- `originForm` is described as a reduction to `/path?query`. It looks for "://" in the whole target, so an origin-form
  target whose query mentions a URL is cut to that URL's path (`OriginFormFixes`, `OriginFormCutsQuery`).
- The error handlers promise the sentence the handler would have produced, but reduce the target twice, guard on its
  start and fall back to a fixed sentence. `SentenceRepeatedIff` says on the target's text, for every target and route,
  when the promise holds. With no "://" left that is when the target starts with `/v1/keys` and carries a fragment, an
  escape in its last segment (`ItemSentenceIff`) or a faulty `key_id` pair (`CollectionSentenceIff`). Of the item targets
  the router cannot decode it holds for all that mention no URL (`RejectedSentenceIff`), and it fails for
  `/v1/keys/A%ZZ?ref=x://h/v1/keys/B` and `/v1/keys/A%ZZ?ref=x://h/p` (`SentenceBroken`, `TargetBroken`).
- `evaluateAuthorization` answers UNKNOWN for a revocation whose key document is missing. A revocation whose supplied
  key document is malformed, or is not the key it names, is passed over (`RevocationByItsKey`,
  `UnverifiedRevocationIgnored`), so an effective revocation of the very grant can go unheeded (`MalformedKeyPermits`).
- A clock text that does not parse satisfies every window and precedes every revocation (`UnparsableClock`). The
  limiter's floor behaves alike (`UnparsableClockAdmits`).
- A key published before concurrent requests arrive outlives them all. One that two of them introduce at once can be
  replaced, exactly by a request already past its key check (`KeyStaysIff`, `KeyReplaced`,
  `BrowsersReplaceKey`).
- The envelope ranks L4, which no agent can reach: only deployments may hold it and an assertion's subject must be the
  registered agent (`NoAgentReachesL4`).
- Whether the answer is PERMITTED does not depend on the order of revocations; which other answer is given does
  (`FirstStoppingRevocationDecides`, `OrderChoosesTheRefusal`).

## Model

| member | source | states |
|---|---|---|
| Jcs.Serialize | packages/core/src/jcs.ts:91-160 | the recursive push onto the shared token array adds exactly the canonical text of the value, or throws where the value has none; what that text looks like is said by the `JcsText` and `JcsParser` rows |
| Jcs.SerializeItems | packages/core/src/jcs.ts:116-130 | the array loop with its index-driven comma writes the items of a list in order |
| Jcs.SerializeMembers | packages/core/src/jcs.ts:138-155 | the object loop over sorted keys with its `first` flag writes the members in UTF-16 order |
| Jcs.Canonicalize | packages/core/src/jcs.ts:163-167 | joining the tokens gives the canonical text |
| JcsText.UnitEscapes | packages/core/src/jcs.ts:103-108 | which units are escaped and how: quotation mark and backslash by a backslash, five control characters by their letter, every other control character and every lone surrogate by `\u` and four lower-case digits, nothing else |
| JcsText.EscapeOfConcat | packages/core/src/jcs.ts:103-108 | a text cut anywhere but inside a surrogate pair is escaped piece by piece |
| JcsText.PairStays | packages/core/src/jcs.ts:103-108 | a surrogate pair is written as it is |
| JcsText.EscapeIsIdentityIff | packages/core/src/jcs.ts:103-108 | a text is written as it is if and only if it is well-formed and holds no quotation mark, backslash or control character |
| JcsText.IntegersWritten | packages/core/src/jcs.ts:53-69 | exactly the integers up to 2^53 - 1 in size are written, minus sign first, without a superfluous zero |
| JcsText.CanonicalNamesAscend | packages/core/src/jcs.ts:138-140 | at every depth the members are written in strictly ascending UTF-16 order of their names |
| Jcs.CanonicalAccepts | packages/core/src/jcs.ts:53-89 | on plain JSON trees canonicalization fails exactly when `validateNumberDomain` would, and then for the number rule |
| Jcs.SortedKeepsDomain | packages/core/src/jcs.ts:138-140 | sorting members neither hides nor creates a value outside the number domain |
| Json.SortAgrees | packages/core/src/jcs.ts:139-140 | two member lists with the same members sort to the same list: the order of keys is irrelevant |
| Json.SameIffSortedEqual | packages/core/src/jcs.ts:139-140 | equality up to member order at every depth is equality of the sorted values |
| JcsParser.ReadsBack | packages/core/src/jcs.ts:91-160 | an independent parser, given the printed value followed by anything a number cannot run into, returns that value and the rest |
| JcsParser.CanonicalDecodes | packages/core/src/jcs.ts:163-167 | canonicalization is uniquely decodable: parsing consumes the whole text and gives the value with all members sorted |
| JcsParser.CanonicalTextIdentifies | packages/core/src/jcs.ts:163-167 | two values have one canonical text if and only if they are equal up to member order |
| JcsParser.CanonicalIdempotent | packages/core/src/jcs.ts:163-167 | canonicalizing what a canonical text parses to gives the same text |
| JcsParser.StringReadsBack | packages/core/src/jcs.ts:103-108 | QuoteJSONString, lone surrogates escaped, is inverted by unquoting |
| JcsParser.NumberReadsBack | packages/core/src/jcs.ts:53-69 | a number token is read back as its number whatever follows it |
| Utf8.DecodeOfEncode | packages/core/src/jcs.ts:170-172 | UTF-8 encoding of well-formed text is inverted by strict decoding |
| Utf8.EncodeOfDecode | packages/core/src/jcs.ts:170-172 | and strict decoding accepts nothing but encodings of well-formed text |
| JcsBytes.EmitWellFormed | packages/core/src/jcs.ts:170-172 | canonical text never holds a lone surrogate, so the replacement character cannot merge two texts |
| JcsBytes.CanonicalBytesIdentify | packages/core/src/jcs.ts:170-172 | two values have the same canonical bytes if and only if they are equal up to member order |
| NumberLiteral.TooBigIsExact | packages/core/src/jcs.ts:190-192 | comparing length and then text with 9007199254740991 decides exactly whether a digit string exceeds it |
| NumberLiteral.LiteralCheckIsExact | packages/core/src/jcs.ts:184-199 | the textual check rejects a JSON integer literal of any length and sign if and only if its value leaves the safe range |
| BrowserJcs.CanonicalizersAgree | packages/web/lib/client-crypto.ts:29-72 | core accepts a value exactly when the browser does and the value is portable; then both write the same text |
| BrowserJcs.BrowserAccepts | packages/web/lib/client-crypto.ts:29-66 | which values the browser accepts, and that an undefined member or a class leaves no trace in its text |
| BrowserJcs.JcsSerialize | packages/web/lib/client-crypto.ts:29-66 | the browser serializer, pushing in place, writes the text of its specification or throws |
| BrowserJcs.JcsSerializeItems | packages/web/lib/client-crypto.ts:40-48 | the browser array loop writes the items in order |
| BrowserJcs.JcsSerializeMembers | packages/web/lib/client-crypto.ts:49-63 | the browser object loop skips undefined members and sets its comma flag on the first one written |
| JsBits.ShiftByteIn | packages/core/src/identifier.ts:74-77 | shifting left by eight and or-ing a byte in, on 32-bit signed operands, appends the byte modulo 2^32 |
| JsBits.AndThirtyOneOf | packages/web/lib/client-crypto.ts:92-96 | `t & 0x1f` is `t mod 32` for every integer, also above 32 bits and below zero |
| JsBits.HigherBitsIrrelevant | packages/core/src/identifier.ts:74-82 | bits left standing above the pending ones never reach an extracted digit |
| Ulid.GenerateUlid | packages/core/src/identifier.ts:58-84 | exactly the 10 base-32 digits of the time and the 16 of the big-endian random number, or an error outside 48 bits |
| Ulid.PackRandom | packages/core/src/identifier.ts:69-82 | the never-masked 32-bit buffer still fills the 16 characters with the digits of the 80-bit number |
| Ulid.DrainInto | packages/core/src/identifier.ts:78-81 | the inner loop empties the buffer five bits at a time, keeping the packing invariant |
| Ulid.EncodeUlid | packages/web/lib/client-crypto.ts:89-111 | the browser encoder gives the same text as core for every time and every 10 bytes |
| Ulid.EncodeRandom | packages/web/lib/client-crypto.ts:97-109 | its signed right shift extracts the same digits |
| Ulid.UlidIsValid | packages/core/src/identifier.ts:27-84 | every ULID generated for a time below 2^48 matches `ULID_REGEX` |
| Ulid.UlidsSortByTime | packages/core/src/identifier.ts:58-84 | a later time gives a greater text, whatever the random bytes |
| Ulid.UlidIsInvertible | packages/core/src/identifier.ts:58-84 | equal ULIDs come from equal times and equal bytes |
| Ulid.UlidIsGenerated | packages/core/src/identifier.ts:27-84 | every text that matches `ULID_REGEX` is the ULID of some 48-bit time and ten bytes |
| Identifier.NamespacesDisjoint | packages/core/src/identifier.ts:27-46 | no text is an identifier of two of the eight namespaces |
| Uri.DecodeOfEncodeComponent | packages/core/src/identifier.ts:157-160 | `decodeURIComponent` undoes `encodeURIComponent` on all well-formed text |
| RequestTarget.OriginFormFixes | packages/api/src/raw-key-target.ts:82-87 | reduction leaves a target alone if and only if "://" occurs nowhere in it |
| RequestTarget.OriginFormCuts | packages/api/src/raw-key-target.ts:82-87 | whatever precedes the first "://" is dropped with the host after it, also inside a query |
| RequestTarget.OriginFormCutsQuery | packages/api/src/raw-key-target.ts:82-87 | a concrete origin-form target that reduction changes |
| RequestTarget.OriginFormOf | packages/api/src/raw-key-target.ts:82-87 | an origin-form target without a colon, behind nothing or behind any scheme and host, reduces to itself |
| RequestTarget.RawKeyQueryValues | packages/api/src/raw-key-target.ts:142-161 | the loop over the pairs collects the `key_id` values in order, each decoded once, or returns the first failure |
| RequestTarget.ValuesCountOccurrences | packages/api/src/raw-key-target.ts:142-161 | as many values as pairs named `key_id`, each the one-step decoding of its own pair |
| KeyService.WireRoundTrip | packages/core/src/identifier.ts:138-149 | `keyIdToWire` and `keyIdFromWire` are inverse bijections between key ids and ULIDs and refuse all else |
| KeyService.ReferenceParses | packages/core/src/identifier.ts:168-188 | what `parseKeyReference` accepts, names and refuses |
| KeyService.KeyIdEncodes | packages/core/src/identifier.ts:157-160 | a key id percent-encodes by escaping its two colons, and decodes back |
| KeyService.ReferenceAccepted | packages/api/src/serve-key.ts:121-150 | a decoded reference is accepted if and only if it has the form of its position, and then names that key |
| KeyService.PathFormResolves | packages/api/src/serve-key.ts:285-300 | the path form of every key id, behind any origin, resolves to that key |
| KeyService.QueryFormResolves | packages/api/src/serve-key.ts:304-308 | the query form of every key id, behind any origin, resolves to that key |
| KeyService.BothFormsAgree | packages/core/src/identifier.ts:151-161 | both forms of one key id get the same answer from every store |
| KeyService.PathResolvesOnlyLiterally | packages/api/src/serve-key.ts:285-300 | a path gets past the refusals if and only if its last segment is literally a ULID the router agrees on |
| KeyService.QueryResolvesOnlyOnce | packages/api/src/serve-key.ts:243-256 | a query gets past the refusals if and only if it supplies one value and that is a key id |
| KeyService.OneValueOneOccurrence | packages/api/src/raw-key-target.ts:142-161 | one value means one pair named `key_id`, decoded in one step |
| KeyService.PathRefusals | packages/api/src/serve-key.ts:285-300 | a segment that differs from the one of the framework is refused as that, one that is no ULID for its form |
| KeyService.QueryRefusals | packages/api/src/serve-key.ts:121-256 | several values, none, one still encoded and one of another form are refused each with its own sentence |
| KeyService.LookupAnswers | packages/api/src/serve-key.ts:165-230 | served is exactly a stored, well-formed document filed under its own id; missing, unavailable and unusable are answered apart |
| KeyService.EncodedTargetExtracts | packages/api/src/raw-key-target.ts:142-161 | a target carrying any text without a fragment mark encoded once hands out that text, behind any origin |
| KeyService.TwiceEncodedRefused | packages/api/src/serve-key.ts:133-134 | a key id encoded twice or more, in a target behind any origin, is refused as such on every store |
| KeyService.ServedIsPublished | packages/api/src/serve-key.ts:165-230 | over the registry: a key id gets its published document or 404, and a document once served is served unchanged after every run |
| KeyService.ReducedTwice | packages/api/src/app.ts:83-87 | the error handlers reduce the target twice; the second reduction changes nothing if and only if no "://" is left |
| KeyService.FaultyQuery | packages/api/src/raw-key-target.ts:142-161 | a query is refused if and only if some pair named `key_id` holds `%23` or does not decode, and the first such pair decides the sentence |
| KeyService.ExtractionFailsIff | packages/api/src/raw-key-target.ts:93-161 | on either route the extraction fails exactly on a fault the text shows, and a fragment mark decides its sentence |
| KeyService.SentenceRepeatedIff | packages/api/src/app.ts:75-88 | decided on the text for every target and route: the error handlers, guard and fallback included, repeat the sentence of the handler if and only if the reduced target starts with `/v1/keys` and shows the same fault reduced once and reduced twice |
| KeyService.SentenceRepeatedOnce | packages/api/src/app.ts:75-88 | with no "://" left they do if and only if the target starts with `/v1/keys` and its text shows a fault |
| KeyService.ItemExtractionFails | packages/api/src/raw-key-target.ts:104-112 | for the item route the extraction fails exactly on a fragment or on an escape in the last segment |
| KeyService.CollectionExtractionFails | packages/api/src/raw-key-target.ts:142-161 | for the collection route it fails exactly on a fragment or on a `key_id` pair whose value holds `%23` or does not decode |
| KeyService.ItemSentenceIff | packages/api/src/app.ts:75-88 | for every item-route target with no "://" left they do if and only if it starts with `/v1/keys` and carries a fragment or, in its last segment, an escape |
| KeyService.CollectionSentenceIff | packages/api/src/app.ts:75-88 | for every collection target with no "://" left they do if and only if it starts with `/v1/keys` and carries a fragment or a faulty `key_id` pair |
| KeyService.RejectedSentenceIff | packages/api/src/app.ts:66-88 | for item targets the router cannot decode: always if the target mentions no URL; otherwise if and only if what the URL leaves starts with `/v1/keys` and carries a fragment or, in its last segment, an escape, and, should a "://" be left, shows the same fault reduced once more |
| KeyService.SentenceBroken | packages/api/src/app.ts:83-87 | a concrete rejected target answered with a malformed escape where the handler says bad wire form |
| KeyService.TargetBroken | packages/api/src/app.ts:83-88 | a concrete rejected target answered with bad_request where the handler says bad wire form |
| SignedObjects.PayloadTame | packages/core/src/crypto.ts:148-152 | all five signed payloads are canonicalizable for any field values |
| PayloadReader.SignedBytesRead | packages/core/src/crypto.ts:148-152 | whoever decodes and parses the signed bytes reads the payload that was signed: its kind off its marker and each field under its own name, enumerations included |
| PayloadReader.ManifestBytesRead | packages/core/src/crypto.ts:155-157 | the bytes that are hashed read back as the manifest, field by field |
| DomainSeparation.SignatureIsNotSigned | packages/core/src/crypto.ts:148-152 | stripping `signature` from the signed object gives the bytes that were signed |
| DomainSeparation.SigningInputDeterminesPayload | packages/core/src/crypto.ts:148-152 | the signed bytes determine the kind of object and every field, across all five kinds |
| DomainSeparation.VerifiedMeansSigned | packages/core/src/crypto.ts:133-145 | if nobody forged for the key, a presented signature that verifies was made for exactly that payload, kind and fields included |
| DomainSeparation.IssuedIsUnforged | packages/core/src/crypto.ts:133-145 | the hypothesis is met by every seed with correct signatures, whatever it signs and whatever failing signatures are presented beside |
| DomainSeparation.ManifestBytesIdentify | packages/core/src/crypto.ts:155-157 | the canonical bytes of a manifest determine it |
| DomainSeparation.DigestBindsManifest | packages/core/src/crypto.ts:155-157 | equal digests mean equal manifests or a concrete SHA-256 collision |
| Objects.ActiveMeansInService | packages/core/src/crypto.ts:184-190 | for a valid key document `keyActiveAt` holds if and only if the instant is before its revocation and before its retirement |
| Crypto.LateSignatureFails | packages/core/src/crypto.ts:184-190 | none of the four verifiers accepts an object signed at or after the revocation or retirement of its key |
| Crypto.ProofFailures | packages/core/src/crypto.ts:237-273 | which failure is reported for a proof, each code exactly, the signature judged after the window |
| Crypto.AssertionFailures | packages/core/src/crypto.ts:308-343 | the same for assertions, the manifest judged last |
| Crypto.GrantFailures | packages/core/src/authorization-verify.ts:181-216 | the same for grants, where the signature is judged before the window: an expired grant is known to be authentic |
| Crypto.RevocationFailures | packages/core/src/authorization-verify.ts:143-170 | the same for revocations, with the table of who may revoke what written out |
| Crypto.AcceptedProof | packages/core/src/schemas.ts:97-175 | what an accepted proof says of manifest, key and dates |
| Crypto.AcceptedAssertion | packages/core/src/schemas.ts:189-275 | an accepted assertion makes the claim its level stands for, about a subject of the right kind, and only deployments are L4 |
| Crypto.AcceptedGrant | packages/core/src/authorization.ts:73-200 | an accepted grant names between 1 and 64 scopes, none twice, each a resource and an action, with sound constraints, to an agent, by a principal |
| Crypto.AcceptedRevocation | packages/core/src/authorization.ts:219-249 | an accepted revocation names a target of the kind it says, by a key of the role that may revoke it |
| Crypto.SigningOutcomes | packages/core/src/crypto.ts:206-303 | signing succeeds if and only if the object is well-formed and the key of the right role and party; a wrong role or party is refused as that |
| Crypto.ProofRoundTrip | packages/core/src/crypto.ts:206-273 | what `signManifestProof` returns verifies if and only if it was created before any revocation and retirement of the key, and now is in the window |
| Crypto.AssertionRoundTrip | packages/core/src/crypto.ts:285-343 | the same for assertions, at `verified_at` |
| Crypto.GrantRoundTrip | packages/core/src/authorization-verify.ts:45-60 | the same for grants, at `not_before` |
| Crypto.RevocationRoundTrip | packages/core/src/authorization-verify.ts:62-74 | the same for revocations, which have no window |
| Crypto.WrongRoleFails | packages/core/src/authorization.ts:238-249 | a key of any other role makes both signing and verification fail, for all four kinds |
| Authorization.StopsWhen | packages/core/src/authorization-verify.ts:313-369 | one revocation stops the loop exactly when it is unverifiable, or authoritative and in effect |
| Authorization.ScanIsFirst | packages/core/src/authorization-verify.ts:313-369 | the loop answers for the first revocation that stops it, and for none if none does |
| Authorization.PermittedIff | packages/core/src/authorization-verify.ts:267-416 | PERMITTED without the loop: an authentic grant in its window, no actor presented or the very agent it names with an operator key of its own, the scope granted, every key document at hand, no authoritative revocation in effect |
| Authorization.EarlyRefusals | packages/core/src/authorization-verify.ts:267-308 | before revocations: a grant not in force is refused with its own code, an unusable actor is UNKNOWN, another agent `subject_mismatch`, a foreign key `agent_not_bound_to_subject` |
| Authorization.ScopeRefusal | packages/core/src/authorization-verify.ts:374-400 | after revocations only the scope can refuse, and that refusal repeats the grant |
| Authorization.AnswerReports | packages/core/src/authorization-verify.ts:267-416 | every answer says whether revocations were supplied, and repeats the grant only where it was not refused before |
| Authorization.UnknownIff | packages/core/src/authorization-verify.ts:282-329 | UNKNOWN exactly when an authentic grant in force meets an actor or a first-reached revocation that cannot be determined |
| Authorization.PermittedRepeatsTheGrant | packages/core/src/authorization-verify.ts:402-415 | a permitted request is told the parties, scopes and constraints of the grant, and the scope asked for is one of them |
| Authorization.PermittedInstants | packages/core/src/authorization-verify.ts:205-207 | all else fixed, the permitted instants are exactly one interval |
| Authorization.RevocationIsFinal | packages/core/src/authorization-verify.ts:342-367 | after an authoritative revocation takes effect no instant is permitted |
| Authorization.UnparsableClock | packages/core/src/authorization-verify.ts:205-207 | a clock text Date.parse rejects switches off window and revocations: permitted if and only if entitled |
| Authorization.OrderIrrelevant | packages/core/src/authorization-verify.ts:313-369 | PERMITTED depends on the revocations as a set, despite the early exits |
| Authorization.MoreRevocationsNeverPermit | packages/core/src/authorization-verify.ts:313-369 | a longer list never turns another answer into PERMITTED |
| Authorization.ForeignRevocationIgnored | packages/core/src/authorization-verify.ts:342-367 | a revocation by a key its target does not answer to changes nothing at all, wherever it stands |
| Authorization.FirstStoppingRevocationDecides | packages/core/src/authorization-verify.ts:313-369 | for any list the first revocation that stops the loop decides: UNKNOWN if its key document is missing, NOT_PERMITTED otherwise, with its reason |
| Authorization.OrderChoosesTheRefusal | packages/core/src/authorization-verify.ts:313-369 | swapping two stopping revocations anywhere in a list swaps UNKNOWN and NOT_PERMITTED |
| Authorization.RevocationByItsKey | packages/core/src/authorization-verify.ts:318-367 | what a well-formed revocation in effect comes to by its key document: missing stops at UNKNOWN, verifying and controlled by the withdrawer stops at NOT_PERMITTED, anything else is passed over |
| Authorization.UnverifiedRevocationIgnored | packages/core/src/authorization-verify.ts:315-331 | a malformed revocation, and one that does not verify under its supplied key document, changes nothing, wherever it stands |
| Authorization.MalformedKeyPermits | packages/core/src/authorization-verify.ts:330-333 | with a malformed key document supplied for the only revocation, an otherwise entitled request is PERMITTED |
| Registry.MemoryStore.CreateAgent | packages/api/src/store.ts:68-72 | stores the record if and only if the id is new |
| Registry.MemoryStore.PutKey | packages/api/src/store.ts:76-78 | sets one key and changes nothing else |
| Registry.MemoryStore.PutAssertion | packages/api/src/store.ts:82-84 | a Map entry is set (`PlacesKept`) |
| Registry.PlacesKept | packages/api/src/store.ts:82-84 | every id keeps its place, a new one comes last, and nothing is found differently under another id |
| Registry.MemoryStore.ListAssertionsForSubject | packages/api/src/store.ts:85-87 | exactly the stored assertions about the subject, each as often as stored; under a total collation in time order, those of equal time in insertion order |
| Registry.ListedInOrder | packages/api/src/store.ts:85-87 | with a total collation the listing is in the order of its time texts |
| Registry.ListedIsStable | packages/api/src/store.ts:85-87 | the sort is stable: assertions whose times compare equal keep their insertion order |
| Registry.MemoryStore.AppendEvent | packages/api/src/store.ts:88-90 | appends one event and changes nothing else |
| Registry.PostAgent | packages/api/src/app.ts:133-181 | the registration handler, store call by store call, is the registration step |
| Registry.RegisterAgent | packages/web/lib/register.ts:59-160 | the web entry point, with its extra check and single clock reading, is the same step |
| Registry.PostAssertion | packages/api/src/app.ts:212-234 | the issuance handler, store call by store call, is the issuance step, which `Admission.IssuedIff` characterises |
| Registry.PostAuthorityKey | packages/api/src/app.ts:319-328 | the key publication handler is the publication step, which `Admission.KeyStoredIff` characterises |
| Admission.RegisteredIff | packages/api/src/app.ts:133-172 | a registration goes through if and only if the proof is authentic, at most two minutes ahead and unexpired, the key in no conflict and the agent new |
| Admission.RegisteredLeaves | packages/api/src/app.ts:158-172 | what it leaves: an active record of what was sent, the key, two events; any other answer leaves nothing |
| Admission.RegisterRefusals | packages/api/src/app.ts:133-168 | which refusal is answered, with its status |
| Admission.TokenlessWritesNothing | packages/api/src/app.ts:116-127 | without the configured bearer token no authority write changes anything: 503 where none is configured, 401 otherwise |
| Admission.TokenlessRun | packages/api/src/app.ts:116-127 | over every run without the token no assertion is issued and no authority key appears |
| Admission.IssuedIff | packages/api/src/app.ts:212-224 | an assertion is issued if and only if the token is sent, the agent registered, the assertion about it and its very manifest, authentic, current and new |
| Admission.IssuedLeaves | packages/api/src/app.ts:225-233 | what it leaves: the assertion and one event |
| Admission.IssueRefusals | packages/api/src/app.ts:212-224 | which refusal is answered, with its status |
| Admission.KeyStoredIff | packages/api/src/app.ts:319-328 | an authority key is published if and only if the token is sent and the document is well-formed, of that role and in no conflict; otherwise which refusal |
| Registry.StepKeeps | packages/api/src/app.ts:133-328 | every write keeps the invariant and changes nothing stored before |
| Registry.RunKeeps | packages/api/src/app.ts:133-328 | over every run keys, agents, assertions and events stored at any time stay, and each agent and assertion still passes its checks |
| Registry.NeverNotYetValid | packages/api/src/registration-time.ts:60-87 | no proof let through by the clock policy is then refused as not yet valid |
| ConcurrentRegistration.AtMostOneWins | packages/api/src/app.ts:153-172 | for any interleaving of any number of requests: one winner per id, its record stays, one event of each kind |
| ConcurrentRegistration.RecordsStay | packages/api/src/store.ts:68-72 | no interleaving overwrites a stored record |
| ConcurrentRegistration.KeyStaysIff | packages/api/src/app.ts:153-171 | a published key outlives every interleaving if and only if no request in flight has passed its key check with another document under the id |
| ConcurrentRegistration.PublishedBeforeStays | packages/api/src/app.ts:153-171 | a key published before the requests arrived stays |
| ConcurrentRegistration.KeyReplaced | packages/api/src/app.ts:153-171 | two requests with different documents under one new key id: interleaved, the second replaces the first, and both succeed |
| ConcurrentRegistration.BodiesReplaceKey | packages/api/src/app.ts:127-171 | the same for two register bodies that pass every check |
| ConcurrentRegistration.AloneIsTheHandler | packages/api/src/app.ts:133-181 | a request running alone does what the handler as one step does |
| Envelope.BuildEnvelope | packages/api/src/envelope.ts:57-102 | the loop gives the views in order, the number that pass and the highest level among them |
| Envelope.ProofCheckIsTheWindow | packages/api/src/envelope.ts:58-59 | in reachable states `proof_check` says exactly whether now is before, in or after the window of the proof |
| Envelope.CheckIsCurrency | packages/api/src/envelope.ts:65-67 | a stored assertion passes if and only if its window contains now, and otherwise says which end now is past |
| Envelope.ChecksNeedTheKey | packages/api/src/envelope.ts:58-67 | in any state: an unpublished key is reported as that, and an assertion passes only under its key and for the manifest on record |
| Envelope.ListedCounts | packages/api/src/store.ts:85-87 | filtering and sorting neither lose nor repeat an assertion |
| Envelope.EnvelopeIsExact | packages/api/src/envelope.ts:61-74 | in reachable states count and level are those of the stored assertions current now |
| Envelope.LevelsInOrder | packages/api/src/envelope.ts:19-24 | the level shown is deployment if one is held now, else organization, else domain, else registration |
| Envelope.NoAgentReachesL4 | packages/api/src/envelope.ts:61-74 | no agent's envelope ever shows L4 |
| Envelope.LevelNeverDrops | packages/api/src/envelope.ts:61-74 | at a fixed instant neither level nor count drops along a run |
| BrowserSigning.KeyPairFromPrivateHex | packages/web/lib/client-crypto.ts:309-315 | accepts exactly 64 hexadecimal digits and fills the seed they spell |
| BrowserSigning.HexReadsBack | packages/web/lib/client-crypto.ts:16-18 | hexadecimal encoding is inverted by pairwise parsing, for any bytes |
| BrowserSigning.KeyFileRoundTrip | packages/web/lib/client-crypto.ts:309-315 | the key file brings back the seed it holds |
| BrowserSigning.SameBytes | packages/web/lib/client-crypto.ts:68-72 | on the protocol's objects the browser computes core's canonical bytes |
| BrowserSigning.ManifestSays | packages/web/lib/client-crypto.ts:182-206 | what the manifest says for any input, its defaults included |
| BrowserSigning.SentBody | packages/web/lib/client-crypto.ts:170-246 | `signAgent` sends core's digest of the manifest, signed on core's signing input |
| BrowserSigning.BrowserRegisters | packages/web/lib/client-crypto.ts:170-246 | the registry accepts a browser-signed agent if and only if its clock is between 120 s behind `created_at` and `expires_at` |
| BrowserSigning.BrowsersReplaceKey | packages/api/src/app.ts:127-171 | two browsers signing for different agents under one key id are each accepted alone, and interleaved the key of the second replaces that of the first |
| BrowserSigning.RegisteringOperates | packages/web/lib/register.ts:93-160 | after registration the browser's key operates the agent |
| BrowserSigning.OperatesStays | packages/api/src/app.ts:133-328 | and does so after every further run |
| BrowserSigning.BrowserConsents | packages/web/lib/client-crypto.ts:296-306 | a browser-signed consent is recorded if and only if it is fresh and newer than the one on record |
| Directory.MemoryDirectoryStore.Put | packages/web/lib/directory.ts:65-67 | the agent's row becomes the record, every other agent's row is as before, and there stays one row per agent |
| Directory.MemoryDirectoryStore.ListListed | packages/web/lib/directory.ts:68-73 | listed rows only, none missing unless the page is full, most recently updated first under a total collation |
| Directory.PageNewestFirst | packages/web/lib/directory.ts:68-73 | with a total collation the page is in descending order of its update texts |
| Directory.PageIsStable | packages/web/lib/directory.ts:68-73 | rows updated at equal times keep their insertion order |
| Directory.ApplyDirectoryConsent | packages/web/lib/directory.ts:162-233 | the handler, read by read, is the consent step; the registry is untouched |
| Directory.AcceptedMeansStanding | packages/web/lib/directory.ts:162-233 | a recorded consent verified, was fresh and was newer than the record; a refusal changes nothing, through any outage |
| Directory.RecordedIff | packages/web/lib/directory.ts:162-233 | a consent is recorded if and only if it stands, for an active agent, within five minutes of the clock, newer than the record, with nothing down; the row carries the time of recording |
| Directory.ConsentRefusals | packages/web/lib/directory.ts:166-231 | which refusal is answered, through any outage |
| Directory.SiteRunKeeps | packages/web/lib/directory.ts:162-233 | over every run of registry writes and consents rows match the last accepted consents, times rise per agent, all still verify |
| Directory.RowsFromTheNewSite | packages/web/lib/directory.ts:162-233 | however a new site is run, an agent has a row if and only if a consent about it was accepted, and whoever has a row is registered |
| Directory.NeverAcceptedTwice | packages/web/lib/directory.ts:210-218 | once a consent is accepted nothing about its agent that is no newer is accepted again, at any clock, after any run |
| Directory.ConsentTimeRises | packages/web/lib/directory.ts:210-228 | a row never goes away and its consent time rises strictly whenever its consent changes |
| Directory.ListedMeansAsked | packages/web/lib/directory.ts:189-228 | each row shows the newest accepted consent for a registered agent, and if no accepted signature was forged for its operator key, the operator signed exactly that consent |
| Directory.HonestOperatorUnforged | packages/web/lib/directory.ts:198-208 | the hypothesis holds of every seed that made the accepted signatures verifying under its public key |
| RateLimit.Limiter.MemoryHit | packages/web/lib/rate-limit.ts:157-172 | the new map and the verdict of one hit; the map keeps to its cap |
| RateLimit.Limiter.CheckRateLimit | packages/web/lib/rate-limit.ts:264-314 | allowed if and only if the floor admits and the durable layer, where it answered, allowed; who refused, degradation, remaining and reset are pinned for every case |
| RateLimit.AllowsIff | packages/web/lib/rate-limit.ts:264-314 | the same verdict for a call of a run |
| RateLimit.DenialsStand | packages/web/lib/rate-limit.ts:264-314 | over every run no more is allowed than the durable layer did not deny |
| RateLimit.HitCounts | packages/web/lib/rate-limit.ts:157-172 | a hit counts in its own bucket only, unless it opens a window in a map of 10 000 keys |
| RateLimit.WindowAligned | packages/web/lib/rate-limit.ts:157-160 | windows are whole minutes |
| RateLimit.MinuteBounds | packages/web/lib/rate-limit.ts:60-85 | the bound in numbers for each policy of the table |
| RateLimit.MapStaysBounded | packages/web/lib/rate-limit.ts:154-172 | over every run the map never exceeds 10 000 keys |
| RateLimit.BucketDeterminesPolicy | packages/web/lib/rate-limit.ts:60-80 | no two policies of the table share a bucket |
| RateLimit.AllowedWithinRoom | packages/web/lib/rate-limit.ts:157-172 | from any memory: the room left plus one burst per emptying of the map bounds what a client is allowed in a window |
| RateLimit.WindowBound | packages/web/lib/rate-limit.ts:157-172 | at most `burst * (1 + clears)` in one window, whatever the durable layer answers |
| RateLimit.ExactlyTheRoom | packages/web/lib/rate-limit.ts:157-172 | without clears and denials exactly the least of calls made and room left is allowed |
| RateLimit.IntervalBound | packages/web/lib/rate-limit.ts:157-172 | at most `burst * (2 + clears)` in any interval of window length |
| RateLimit.RunSplits | packages/web/lib/rate-limit.ts:264-314 | allowances add up over a run cut anywhere |
| RateLimit.UnparsableClockAdmits | packages/web/lib/rate-limit.ts:157-166 | an unparsable clock makes the floor admit every call |
| ClientIp.JoinSplits | packages/web/lib/rate-limit.ts:107-119 | joined hextets split back into themselves |
| ClientIp.Ipv4KeysAsItself | packages/web/lib/rate-limit.ts:107-109 | an address without a colon is its own key, which no IPv6 address shares |
| ClientIp.CompressionInvisible | packages/web/lib/rate-limit.ts:107-119 | every "::" compression, with or without a zone id, gets the key of the full spelling |
| ClientIp.SameKeyIffSamePrefix | packages/web/lib/rate-limit.ts:107-119 | two addresses get one key if and only if their first four hextets agree |

## Left out

- Ed25519, SHA-256, base64url and DER wrapping: members of `Platform`; forgery and collisions enter only as stated hypotheses or alternatives.
- zod parsing of untyped bodies: the model starts from values of the right shape and keeps every cross-field rule; a body of another shape is the `SchemaValidationFailed`, `SchemaInvalid` or `InvalidConsent` answer. Email, hostname and secret-pattern checks are platform predicates.
- Numbers that do not print as integers print as an abstract token: well-formed text holding a point or an exponent, different for different numbers. ECMAScript's shortest-digits algorithm is not modelled.
- `canonicalizeJsonText` apart from its integer-literal check: JSON.parse is not modelled.
- `KeyService.RejectedSentenceIff`: the router is not modelled; a target it rejects is one whose last segment does not decode. The not-found handler, which promises no sentence, is left out.
- Fastify and Next.js routing, headers, CORS and error-body wording; error sentences are an enumeration.
- `listEvents`, a filter over the events; event identifiers, which are fresh ULIDs nothing reads.
- `SupabaseStore`, the Supabase directory store, the durable limiter's database function and its sweep: the durable layer is an arbitrary answer on every call, and an outage may strike any directory call.
- `ConcurrentRegistration.AtMostOneWins`: interleaves registrations only, not issuance or key publication.
- `localeCompare` is a relation of the platform; the order of listings is proved for any total one, and which order that is stays open.
- `RateLimit.WindowBound`: the window start is computed with exact division; instants are integers of milliseconds.
- A store that throws during `registerAgent` (its 503 answer) or in the Fastify handlers.
- `clientKey` (header precedence and hashing), `rateLimitHeaders` and the 429 body.
- `ClientIp.CompressionInvisible`: starts from trimmed lower-case text; Unicode case folding and white space are not modelled.
- Trimming and casing of uploaded key files beyond the accepted pattern, key generation and `signAgentFleet`, a loop over `signAgent`.
- DNS probes, key-discovery fetching, well-known documents, Domain Connect, the MCP and command-line entry points and the user interface.

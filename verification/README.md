# LocusMesh in Dafny

A model of LocusMesh's decision core, with proofs of what its decisions mean. LocusMesh decides
whether a multi-hop inference route is admissible under an operator-pinned policy, and whether a
hash-linked chain of signed hop receipts proves exactly that route.

`dafny verify dfyconfig.toml` checks the whole project.

| file | models |
|---|---|
| `Ordering.dfy` | code-point string order, stable sorting, uniqueness of sorted lists |
| `CanonicalJson.dfy`, `Utf8.dfy` | `canonical_json_bytes`: sorted compact JSON text and its bytes, with readers that invert them |
| `Crypto.dfy` | strict base64url, digests, key identifiers, signature checks |
| `Clock.dfy` | timezone-aware datetimes: instants and two texts |
| `Models.dfy`, `Serialization.dfy` | the contracts, their validators and their JSON dumps |
| `Policy.dfy`, `Admission.dfy`, `DetectionOrder.dfy` | digests and plan admission: the loops, and what they decide |
| `Attestation.dfy`, `Verification.dfy`, `Chains.dfy`, `RoundTrip.dfy` | building and verifying receipt chains |
| `Replay.dfy`, `ReplayRuns.dfy` | the nonce store, and whole runs of verifiers that share it |
| `MeshLlm.dfy` | the Mesh-LLM status projection |

How to read it:

- The loops of the code (`AdmitPlan`, `CheckReceipts`, `VerifyAttestation`, `BuildAttestation`,
  `Project`, the store's methods) are methods. Each is proved equal to a specification function
  (`Admission`, `Verification`, `Build`, `Projection`), and the theorems are about those functions.
  Bodies of long loops are split into helper methods (`CheckClauses`, `CheckPeer`, `CheckTimes`, `CheckKey`).
- SHA-256 and Ed25519 are the two fields of `Primitives`, a parameter everywhere. No axiom is
  assumed about them. Where a theorem needs digests to identify what was hashed, it says so with
  `CollisionFree` on the finite set of byte strings concerned; where it needs signatures to be
  unforgeable or correct, with `Unforgeable` or `SignerFor`. Digests are computed on real text: the
  sorted JSON of each contract, escaped, encoded in UTF-8, and proved to determine the contract.
  Readers written independently of the printers (`ReadValue`, `Utf8.Decode`, `ShowsTime`) invert them.
- Specifications compare scopes and evidence by `Wider`, `Weaker` and `BelowFloor`, which name the cases
  of the enumerations; the loops compare ranks, as the code does.
- A `DateTime` keeps the local fields and the offset that the texts show, and the UTC instant that
  comparisons use; `Valid` derives the instant from the fields.
- Reason codes are the constructors of `Reason`; a code that carries a peer or an edge in its text
  carries it as a field. `ReceiptPublicKeyInvalid` and `ReceiptKeyBindingInvalid` are the two codes
  that the verifier reports without a peer.
- Keys and optional arguments that raise `KeyError` or `ValueError` in the code give `Failure` or
  `None`.

## Model

| member | source | states |
|---|---|---|
| Ordering.SortCanonical | src/locusmesh/policy.py:64-68 | Sorting on distinct keys gives one list for all permutations of the input, and different lists otherwise. |
| Ordering.StrLeMeans | src/locusmesh/canonical.py:23 | Strings are ordered by code point: a prefix comes first, otherwise the first difference decides. |
| CanonicalJson.ReadsBack | src/locusmesh/canonical.py:19-25 | An independent strict reader of compact JSON (section 7 of RFC 8259 for strings, decimal numerals, the three words, brackets and separators) recovers every value from its printed text, anywhere in a document. |
| CanonicalJson.DigitsReadBack | src/locusmesh/canonical.py:19-25 | Integers print as decimal numerals, most significant digit first and without leading zeros. |
| CanonicalJson.RenderReads | src/locusmesh/canonical.py:19-25 | Unique readability: in any document, no value's text is a proper prefix of another's, so text determines the value and where it ends. |
| CanonicalJson.NormalSame | src/locusmesh/canonical.py:19-25 | Sorting keys at every level identifies exactly the values that differ in member order alone. |
| CanonicalJson.CanonicalTextDecides | src/locusmesh/canonical.py:15-25 | Two JSON values print to the same canonical text iff they are equal up to object key order, escapes and all. |
| CanonicalJson.CanonicalTextReads | src/locusmesh/canonical.py:15-25 | The canonical text reads back, to its end, as the same value with the keys of every object in strictly ascending order. |
| Utf8.EncodeInjective | src/locusmesh/canonical.py:25 | The UTF-8 bytes determine the text. |
| Utf8.DecodesBack | src/locusmesh/canonical.py:25 | A decoder after the table of RFC 3629, which refuses overlong forms and surrogates, inverts the encoder. |
| Crypto.EncodeIsCanonical | src/locusmesh/crypto.py:12-15 | Encoding n bytes gives the canonical unpadded form: its length, the URL-safe alphabet only, unused trailing bits zero. |
| Crypto.DecodeExact | src/locusmesh/crypto.py:18-29 | Strict decoding for length n accepts exactly the canonical forms, and returns the one n-byte value whose encoding the string is. |
| Crypto.FixedSizes | src/locusmesh/crypto.py:18-29 | 32-byte keys take 43 characters and 64-byte signatures 86; '+', '/' and '=' are refused although the library decoder takes the first two. |
| Crypto.AlphabetIs | src/locusmesh/crypto.py:12-15 | The 64 characters are those of the URL-safe alphabet, in its order. |
| Crypto.ThreeBytesSpelled | src/locusmesh/crypto.py:12-15 | Each three bytes are spelled as four base-64 digits of one number, the most significant first. |
| Crypto.LastBytesSpelled | src/locusmesh/crypto.py:12-15 | One or two last bytes are padded with zero bits to two or three digits. |
| Crypto.KeyIdExact | src/locusmesh/crypto.py:32-36 | A key identifier exists exactly for encodings of 32-byte keys, and is the prefixed digest of those bytes. |
| Crypto.SignatureExact | src/locusmesh/crypto.py:39-48 | Verification succeeds exactly on encodings of a 32-byte key and a 64-byte signature that Ed25519 accepts for the payload. |
| Crypto.DigestDecides | src/locusmesh/canonical.py:28-31 | Without a collision on the two texts, equal digests mean equal values up to member order, and conversely. |
| Crypto.KeyIdDecides | src/locusmesh/crypto.py:32-36 | Without a collision, one key identifier belongs to one public key string. |
| Clock.IsoFormatInjective | src/locusmesh/policy.py:74-75 | The ISO text tells apart all datetimes, also those of one instant under different offsets. |
| Clock.IsoFormatShows | src/locusmesh/policy.py:74-75 | The ISO text shows each local field as a numeral in its place, the fraction only if it is not zero, and the signed offset. |
| Clock.JsonTimeInjective | src/locusmesh/canonical.py:18 | So does the text of a model dump, which writes UTC as Z. |
| Clock.JsonTimeShows | src/locusmesh/canonical.py:18 | So does the text of a model dump, with Z for offset zero. |
| Clock.InstantLaws | src/locusmesh/policy.py:133-140 | Instants advance with the clock within a day, by 24 hours from one calendar date to the next, and against the offset. |
| Clock.InstantsCompare | src/locusmesh/policy.py:133-140 | Under one offset, instants compare as year, month, day and time of day do. |
| Models.ScopeRankMeans | src/locusmesh/policy.py:21-25 | The scope ranks order exactly public mesh over private mesh over device only. |
| Models.EvidenceRankMeans | src/locusmesh/policy.py:26-30 | The evidence ranks order observed, peer asserted, hardware attested; a capped claim misses a floor iff the floor is hardware evidence, or is peer asserted and the claim observed. |
| Serialization.EnumsLoad | src/locusmesh/models.py:33-46 | The dumped values of intents and evidence levels load as the same members. |
| Serialization.PlanJsonDecides | src/locusmesh/models.py:260-287 | The dump of a plan determines the plan. |
| Serialization.PlanDump | src/locusmesh/models.py:260-275 | Each field of a plan stands under its own name, with the schema version and nothing else. |
| Serialization.PayloadJsonDecides | src/locusmesh/models.py:324-327 | The signed payload determines every receipt field but the signature. |
| Serialization.PayloadDump | src/locusmesh/models.py:290-327 | Each signed field of a receipt stands under its own name. |
| Serialization.ReceiptJsonDecides | src/locusmesh/models.py:290-322 | The dump under a receipt's digest determines the complete receipt. |
| Serialization.ReceiptDump | src/locusmesh/models.py:290-327 | A complete receipt is its signed payload and the signature. |
| Serialization.AttestationJsonDecides | src/locusmesh/models.py:330-337 | The dump under an attestation digest determines plan and receipts. |
| Serialization.AttestationDump | src/locusmesh/models.py:330-337 | An attestation is dumped as plan and receipts. |
| Serialization.PeerDump | src/locusmesh/models.py:71-90 | Each field of a manifest stands under its own name. |
| Serialization.EdgeDump | src/locusmesh/models.py:102-110 | Source and target of an edge stand under their own names. |
| Serialization.TopologyJsonDecides | src/locusmesh/policy.py:61-79 | Two valid snapshots give the same hashed dictionary iff they agree up to the order of peers and edges. |
| Serialization.TopologyDump | src/locusmesh/policy.py:69-79 | Each entry of the hashed topology stands under its own name, times in ISO form. |
| Serialization.TopologyOrder | src/locusmesh/policy.py:64-68 | Peers are listed by ascending identifier, edges by ascending source and then target. |
| Serialization.SortedIntentsSorts | src/locusmesh/policy.py:88 | The listed intents are in the order of their string values, as `sorted` returns them. |
| Serialization.PolicyJsonDecides | src/locusmesh/policy.py:82-96 | The hashed policy dictionary determines allowed intents as a set, floors as a map, hop limit and topology digest, and nothing else. |
| Serialization.PolicyDump | src/locusmesh/policy.py:85-96 | Each entry of the hashed policy stands under its own name. |
| Serialization.FloorsDump | src/locusmesh/policy.py:90-93 | The floors are listed exactly as intent text to level text. |
| Policy.TopologyDigestCanonical | src/locusmesh/policy.py:61-79 | Topology digests are equal iff the snapshots are permutations of each other. |
| Policy.PolicyDigestCanonical | src/locusmesh/policy.py:82-96 | Policy digests are equal iff the policies agree as sets and maps over permuted topologies. |
| Policy.PlanDigestDecides | src/locusmesh/canonical.py:28-31 | Plan digests are equal iff the plans are. |
| Policy.PeersByIdDistinct | src/locusmesh/policy.py:54-58 | With unique identifiers the dictionary of peers is exactly the list of peers. |
| Policy.DedupKeepsFirst | src/locusmesh/policy.py:188 | Deduplicated reasons keep every reason once, in order of first appearance. |
| Policy.WidestScopeIsMax | src/locusmesh/policy.py:105-108 | The reported scope is a scope of the route and no hop's scope is wider, by the three ordered pairs. |
| Policy.WeakestEvidenceIsMin | src/locusmesh/policy.py:111-114 | The reported evidence is a hop's and no hop's is weaker. |
| Policy.CheckClauses | src/locusmesh/policy.py:131-148 | The checks before the route is walked append the codes of `ClauseReasons`. |
| Policy.CheckPeer | src/locusmesh/policy.py:161-182 | The checks on one known peer append the codes of `PeerReasons`. |
| Policy.AdmitPlan | src/locusmesh/policy.py:117-198 | The admission loops return the decision `Admission`, whose meaning the next rows prove. |
| AdmissionTheorems.ReasonsExact | src/locusmesh/policy.py:123-188 | A denied plan's codes are exactly the violated clauses, without repetition; a plan is admitted iff no clause is violated. Scope and floor clauses are stated by the cases of the enumerations. |
| AdmissionTheorems.AdmissionSays | src/locusmesh/policy.py:186-198 | Every other field of the decision: digests of plan, policy and topology, intent, hop count, floor, the widest scope and the weakest capped evidence of the known hops by cases. |
| DetectionOrder.ReasonsAscend | src/locusmesh/policy.py:131-188 | The codes ascend in the rank of first detection: clauses, edges along the route, hardware floor, hops in order, checks of a hop in order. |
| DetectionOrder.AscendingUnique | src/locusmesh/policy.py:188 | Membership and rank leave one possible tuple of codes. |
| AdmissionTheorems.AdmissionExact | src/locusmesh/policy.py:131-184 | A plan is admitted iff its route is a simple directed path of known, valid, key-bound, digest-matching peers, none wider than the intent or below the floor, within windows and hop limit. |
| AdmissionTheorems.OrderNeverMatters | src/locusmesh/policy.py:54-96 | Permuting peers and edges leaves the entire admission decision identical, digests included. |
| AdmissionTheorems.AdmissionFrame | src/locusmesh/policy.py:129-182 | Verdict, codes, scope and evidence depend only on the manifests of route peers, the edges between adjacent hops, and the intent, floor, hop-limit, window and (device-only) local-peer entries. |
| AdmissionTheorems.WideningKeepsAdmission | src/locusmesh/policy.py:131-182 | An admitted plan stays admitted under any wider allowed intent whose floor is no higher. |
| AdmissionTheorems.RoutesCompose | src/locusmesh/policy.py:141-182 | Outside device-only intents, p followed by q is admitted iff both are, the joining edge exists, they share no peer and the hop limit holds. |
| AdmissionTheorems.JoinedLevels | src/locusmesh/policy.py:105-114 | A joined route has the wider scope and the weaker evidence of its halves. |
| Attestation.BuildAttestation | src/locusmesh/attestation.py:33-83 | The building loop returns the chain `Build`, or the first signer or manifest lookup that fails. |
| RoundTrip.BuildExact | src/locusmesh/attestation.py:48-50 | Building succeeds iff every hop has a signer and a manifest; otherwise it fails on the first hop without one, the signer looked up first. |
| RoundTrip.BuiltReceipt | src/locusmesh/attestation.py:48-81 | Every field of every built receipt: the level passed for its peer or else the pinned one, neighbours, digests of plan, policy, topology and complete predecessor, and the signature over the payload. |
| Attestation.CheckTimes | src/locusmesh/attestation.py:177-186 | The five time checks on one receipt append the codes of `TimeReasons`. |
| Attestation.CheckKey | src/locusmesh/attestation.py:187-209 | The key, signature and evidence checks on one receipt append the codes of `KeyReasons`. |
| Attestation.CheckReceipts | src/locusmesh/attestation.py:124-211 | The verification loop, with its early exit and running previous receipt, returns the codes `VerificationReasons` and the capped levels. |
| Attestation.VerifyAttestation | src/locusmesh/attestation.py:104-239 | The verifier returns `Verification`; the store gains the nonce exactly if every other check passed and it was new, and is not even opened otherwise. |
| Attestation.AdmittedHasFloor | src/locusmesh/attestation.py:205 | The floor lookup cannot fail once the plan is admitted. |
| VerificationTheorems.VerificationExact | src/locusmesh/attestation.py:124-219 | An attestation is admitted iff its nonce is new, the plan is admissible, and every hop has exactly one receipt that is bound, timely, signed, evidenced and not from the future. |
| VerificationTheorems.VerificationSays | src/locusmesh/attestation.py:86-101 | The whole decision in each of four cases: which fields of the plan decision are replaced and by what; an admission reports observed if some receipt claims it, else peer asserted, and a replay exactly that code. |
| VerificationTheorems.VerifiedReceipt | src/locusmesh/attestation.py:132-209 | Every field of every receipt of an admitted attestation, the key and bytes its signature verifies over, and its bounds on evidence and time. |
| VerificationTheorems.VerificationReasonsAre | src/locusmesh/attestation.py:124-219 | Past plan admission, the codes are exactly the faults of the receipts, without repetition. |
| DetectionOrder.VerificationOrder | src/locusmesh/attestation.py:131-219 | The whole tuple of codes: a wrong count, then the faults of each receipt in turn, in the fixed order of the checks, then a receipt too many; first occurrences kept. |
| VerificationTheorems.RepeatedChecksNeverFail | src/locusmesh/attestation.py:171-195 | Unknown peer, invalid public key and broken key binding are never reported once the plan is admitted. |
| VerificationTheorems.ReceiptTimesAscend | src/locusmesh/attestation.py:183-184 | Receipt times never decrease along a proving chain. |
| VerificationTheorems.ExactWindow | src/locusmesh/attestation.py:177-186 | If everything that ignores the clock passes, verification admits at `now` iff the last receipt's time <= now < the first of the plan, topology and route-peer expiries; no other lower bound is left. |
| VerificationTheorems.DecisionsWellFormed | src/locusmesh/models.py:342-381 | Every admission and verification decision satisfies the decision validator, although copying a model skips it: admitted with that one code or denied for a reason, with all digests. |
| VerificationTheorems.EvidenceSandwich | src/locusmesh/attestation.py:203-239 | Required floor <= evidence proved by the receipts <= evidence promised at admission <= peer_asserted. |
| ChainTheorems.CommonReceiptCommonHistory | src/locusmesh/attestation.py:144-166 | Two admitted attestations, under any policies and at any times, that share a receipt have it at one index, with equal plans, equal earlier receipts and policies equal up to listing order. |
| ChainTheorems.SingleSigningAgreement | src/locusmesh/attestation.py:144-201 | If pinned keys are unforgeable and sign once per plan and position, two admitted attestations of a plan have equal payloads at every hop and equal receipts at all but the last. |
| ChainTheorems.OrderNeverReachesVerdict | src/locusmesh/attestation.py:126-129 | Permuting pinned peers and edges leaves every verification decision identical. |
| RoundTrip.LocalSignerReady | src/locusmesh/adapters/local_signer.py:15-47 | Given Ed25519 correctness, the local signer's identifier and encoded signatures satisfy the verifier for the manifest that pins its key. |
| RoundTrip.BuildVerifies | src/locusmesh/attestation.py:33-239 | For an admitted plan and its pinned signers the built chain verifies iff it was observed no later than now, inside the plan, topology and peer windows, with claims between floor and manifest. |
| RoundTrip.DefaultClaimsAccepted | src/locusmesh/attestation.py:52-56 | With default evidence levels an admitted plan's claims are always accepted. |
| Replay.SQLiteReplayStore.constructor | src/locusmesh/replay.py:12-14 | A new store holds no connection and touches no file. |
| Replay.SQLiteReplayStore.Connect | src/locusmesh/replay.py:16-32 | Connecting creates a missing table and neither adds nor removes a row. |
| Replay.SQLiteReplayStore.RecordIfNew | src/locusmesh/replay.py:34-51 | Answers true iff no row held the nonce; inserts then and only then; other files stay as they are. |
| Replay.SQLiteReplayStore.Close | src/locusmesh/replay.py:53-56 | Closing keeps the rows of a file and discards those of a `:memory:` store. |
| ReplayRuns.ReplaySafety | src/locusmesh/replay.py:16-56 | Over every interleaving of verifications, closes and reopens: each nonce is admitted at most once, every admission was accepted by all other checks, and the table is exactly the admitted nonces with their commitments and digests. |
| ReplayRuns.StepFrame | src/locusmesh/attestation.py:213-231 | Rows are never changed or removed, and only an admission adds one, for a nonce not yet there; a verification that fails its checks never creates the file. |
| ReplayRuns.AdmittedStays | src/locusmesh/replay.py:16-56 | A recorded nonce keeps its row through any later run. |
| ReplayRuns.UninterruptedVerification | src/locusmesh/attestation.py:104-239 | The two steps of the run model, taken together, do to decision and rows what the verifier does. |
| MeshLlm.RejectDuplicateKeys | src/locusmesh/adapters/mesh_llm.py:295-301 | Succeeds iff all keys are distinct, and then keeps every member. |
| MeshLlm.GetFinds | src/locusmesh/adapters/mesh_llm.py:256-286 | With distinct keys, looking a key up finds its one member. |
| MeshLlm.SelectExact | src/locusmesh/adapters/mesh_llm.py:114-151 | The status is read iff every selected field has its type, bounds and, in lower case, one of the four states; and as what it says. |
| MeshLlm.ObservationSays | src/locusmesh/adapters/mesh_llm.py:141-230 | Every field and candidate of an observation comes from its status field; the scope is private iff publication, discovery scope, discovery mode and the nostr flag all say so. |
| MeshLlm.Project | src/locusmesh/adapters/mesh_llm.py:114-196 | The projecting loop returns `Projection`. |
| MeshLlm.AllowlistDetermines | src/locusmesh/adapters/mesh_llm.py:114-171 | Statuses that agree on the selected fields give the same observation and digest, or both fail. |
| MeshLlm.ProjectionExact | src/locusmesh/adapters/mesh_llm.py:114-230 | An observation is made iff the fields parse and identifiers are well formed and unique; it then satisfies every validator, is never device-only and matches the scope lattice. |
| MeshLlm.ProjectionDigestDecides | src/locusmesh/adapters/mesh_llm.py:155-179 | Without a collision, the projection digest identifies everything that was selected. |
| MeshLlm.ProjectionDump | src/locusmesh/adapters/mesh_llm.py:155-161 | Each entry of the hashed projection stands under its own name. |

## Left out

- SHA-256, HMAC and Ed25519 themselves, `commit_request` and private-key handling: library code, present only as parameters with stated hypotheses.
- Regular expressions on digests, nonces, commitments and identifiers other than in the projection: opaque strings; the bounds and cross-field validators are modelled.
- The text of reason codes: constructors stand for the strings, so deduplication is on constructors.
- Schema versions and the signature algorithm: constants of the type, present in every dump but not as fields.
- A naive `now`, which `admit_plan` refuses with ValueError: every `DateTime` is timezone-aware.
- UTC offsets with seconds, and the leading year zero: offsets are whole minutes, years 1 to 9999. That a model dump writes datetimes in ISO form with Z for UTC is a property of the serialization library, taken as given.
- Floats, non-string keys and lone surrogates in JSON: no contract has them.
- Construction of an unsigned receipt with malformed signer identifiers, which the receipt validator would refuse: identifiers are opaque.
- `FabricObservation.expires_at` is modelled by its instant, not by its local fields; `str.lower` by its effect on ASCII letters, the only characters that lower into a node state.
- The HTTP fetch, redirect refusal and loopback check of the observer, the CLI, file and YAML loading, schema export and the demo: input and output plumbing.
- SQL text, WAL, locking errors and the creation of parent directories: `INSERT OR IGNORE` is an atomic insert-if-absent.
- Stores on `:memory:` in the run model: closing discards them, which the contract of `Close` says.

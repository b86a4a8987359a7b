/**
 Receipt chains (src/locusmesh/attestation.py): `BuildAttestation` links each receipt to the
 digest of the complete previous one, `VerifyAttestation` re-derives every binding, and
 `Accepted` says declaratively which attestations pass.
 */
module Attestation {
  import opened Clock
  import opened Crypto
  import opened Models
  import opened Policy
  import opened AdmissionTheorems
  import opened Replay
  import opened Serialization
  import opened Utf8
  import opened Wrappers

  function ReceiptDigest(c: Primitives, r: HopReceipt): string
    requires r.body.observedAt.Valid()
  {
    Sha256Digest(c, ReceiptJson(r))
  }

  function PayloadBytes(b: Payload): seq<Byte>
    requires b.observedAt.Valid()
  {
    CanonicalBytes(PayloadJson(b))
  }

  function AttestationDigest(c: Primitives, a: RouteAttestation): string
    requires a.Valid()
  {
    Sha256Digest(c, AttestationJson(a))
  }

  // The digests that every receipt of one route must carry.
  datatype Expected = Expected(route: string, policy: string, topology: string)

  function ExpectedDigests(c: Primitives, plan: RoutePlan, policy: AdmissionPolicy): Expected
    requires plan.Valid() && policy.Valid()
  {
    Expected(PlanDigest(c, plan), PolicyDigest(c, policy), TopologyDigest(c, policy.topology))
  }

  function Predecessor(c: Primitives, receipts: seq<HopReceipt>, i: nat): Option<string>
    requires i <= |receipts| && (i > 0 ==> receipts[i - 1].body.observedAt.Valid())
  {
    if i == 0 then None else Some(ReceiptDigest(c, receipts[i - 1]))
  }

  function PreviousPeer(hops: seq<string>, i: nat): Option<string>
    requires i < |hops|
  {
    if i == 0 then None else Some(hops[i - 1])
  }

  function NextPeer(hops: seq<string>, i: nat): Option<string>
    requires i < |hops|
  {
    if i + 1 < |hops| then Some(hops[i + 1]) else None
  }

  // The payload of hop `i`: all fields are fixed by the route but the last three arguments.
  function HopBody(plan: RoutePlan, e: Expected, i: nat, previous: Option<string>,
                   level: EvidenceLevel, observedAt: DateTime, keyId: string): Payload
    requires i < |plan.hops|
  {
    Payload(plan.requestId, plan.nonce, plan.requestCommitment, e.route, e.policy, e.topology,
            plan.intent, i, |plan.hops|, plan.hops[i], PreviousPeer(plan.hops, i), NextPeer(plan.hops, i), previous,
            plan.modelDigest, plan.runtimeDigest, level, observedAt, keyId)
  }

  // ---- Verification -----------------------------------------------------------------------

  // `exact_fields`: the fifteen comparisons, and the codes of those that fail, in the order of the code.
  function BindingReasons(r: seq<Reason>, b: Payload, plan: RoutePlan, e: Expected, i: nat, previous: Option<string>): seq<Reason>
    requires i < |plan.hops|
  {
    PositionReasons(RequestReasons(r, b, plan, e), b, plan, i, previous)
  }

  function RequestReasons(r: seq<Reason>, b: Payload, plan: RoutePlan, e: Expected): seq<Reason> {
    var r := Note(r, b.requestId == plan.requestId, ReceiptMismatch(RequestIdField));
    var r := Note(r, b.nonce == plan.nonce, ReceiptMismatch(NonceField));
    var r := Note(r, b.requestCommitment == plan.requestCommitment, ReceiptMismatch(RequestCommitmentField));
    var r := Note(r, b.routePlanDigest == e.route, ReceiptMismatch(RoutePlanDigestField));
    var r := Note(r, b.policyDigest == e.policy, ReceiptMismatch(PolicyDigestField));
    var r := Note(r, b.topologyDigest == e.topology, ReceiptMismatch(TopologyDigestField));
    Note(r, b.intent == plan.intent, ReceiptMismatch(IntentField))
  }

  function PositionReasons(r: seq<Reason>, b: Payload, plan: RoutePlan, i: nat, previous: Option<string>): seq<Reason>
    requires i < |plan.hops|
  {
    var r := Note(r, b.hopIndex == i, ReceiptMismatch(HopIndexField));
    var r := Note(r, b.hopCount == |plan.hops|, ReceiptMismatch(HopCountField));
    var r := Note(r, b.peerId == plan.hops[i], ReceiptMismatch(PeerIdField));
    var r := Note(r, b.previousPeerId == PreviousPeer(plan.hops, i), ReceiptMismatch(PreviousPeerField));
    var r := Note(r, b.nextPeerId == NextPeer(plan.hops, i), ReceiptMismatch(NextPeerField));
    var r := Note(r, b.previousReceiptDigest == previous, ReceiptMismatch(PreviousReceiptDigestField));
    var r := Note(r, b.modelDigest == plan.modelDigest, ReceiptMismatch(ModelDigestField));
    Note(r, b.runtimeDigest == plan.runtimeDigest, ReceiptMismatch(RuntimeDigestField))
  }

  function TimeReasons(r: seq<Reason>, t: int, earlier: Option<DateTime>, plan: RoutePlan,
                       policy: AdmissionPolicy, m: PeerManifest, now: DateTime): seq<Reason>
  {
    var r := Note(r, plan.createdAt.instant <= t < plan.expiresAt.instant, ReceiptOutsidePlanWindow);
    var r := Note(r, t <= now.instant, ReceiptFromFuture);
    var r := Note(r, policy.topology.capturedAt.instant <= t < policy.topology.expiresAt.instant, ReceiptOutsideTopologyWindow);
    var r := Note(r, earlier.Some? ==> earlier.value.instant <= t, ReceiptTimeReversed);
    Note(r, m.validFrom.instant <= t < m.expiresAt.instant, ReceiptOutsidePeerWindow)
  }

  // Key, signature and evidence of one receipt against its pinned manifest.
  function KeyReasons(r: seq<Reason>, c: Primitives, receipt: HopReceipt, m: PeerManifest, required: EvidenceLevel): seq<Reason>
    requires receipt.body.observedAt.Valid()
  {
    var level, key := receipt.body.evidenceLevel, DeriveKeyId(c, m.publicKey);
    var r := Note(r, receipt.body.keyId == m.keyId, ReceiptKeyIdMismatch);
    var r := Note(r, key.Some?, ReceiptPublicKeyInvalid);
    var r := Note(r, key.Some? ==> key.value == m.keyId, ReceiptKeyBindingInvalid);
    var r := Note(r, key.Some? ==> VerifyEd25519(c, m.publicKey, PayloadBytes(receipt.body), receipt.signature), SignatureInvalid);
    var r := Note(r, EvidenceRank(level) <= EvidenceRank(m.evidenceLevel), ReceiptEvidenceExceedsManifest);
    Note(r, EvidenceRank(required) <= EvidenceRank(EffectiveEvidence(level)), ReceiptEvidenceBelowFloor)
  }

  function Earlier(receipts: seq<HopReceipt>, i: nat): Option<DateTime>
    requires i <= |receipts|
  {
    if i == 0 then None else Some(receipts[i - 1].body.observedAt)
  }

  // The reasons collected over the first `n` receipts.
  function ReceiptReasons(start: seq<Reason>, c: Primitives, a: RouteAttestation, policy: AdmissionPolicy, e: Expected,
                          required: EvidenceLevel, now: DateTime, n: nat): seq<Reason>
    requires a.Valid() && n <= |a.receipts| && n <= |a.plan.hops|
  {
    if n == 0 then start
    else
      var i, peers := n - 1, Manifests(policy);
      var receipt, peer := a.receipts[i], a.plan.hops[i];
      var r := ReceiptReasons(start, c, a, policy, e, required, now, i);
      var r := BindingReasons(r, receipt.body, a.plan, e, i, Predecessor(c, a.receipts, i));
      if peer !in peers then r + [PeerUnknown(peer)]
      else
        var r := TimeReasons(r, receipt.body.observedAt.instant, Earlier(a.receipts, i), a.plan, policy, peers[peer], now);
        KeyReasons(r, c, receipt, peers[peer], required)
  }

  function Covered(a: RouteAttestation): nat {
    if |a.receipts| <= |a.plan.hops| then |a.receipts| else |a.plan.hops|
  }

  function VerificationReasons(c: Primitives, a: RouteAttestation, policy: AdmissionPolicy, required: EvidenceLevel, now: DateTime): seq<Reason>
    requires a.Valid() && policy.Valid()
  {
    var start := Note([], |a.receipts| == |a.plan.hops|, ReceiptCountMismatch);
    var r := ReceiptReasons(start, c, a, policy, ExpectedDigests(c, a.plan, policy), required, now, Covered(a));
    Note(r, |a.receipts| <= |a.plan.hops|, ExtraReceipt)
  }

  // The capped levels of the first `n` receipts whose peers are known.
  function ReceiptLevels(a: RouteAttestation, peers: map<string, PeerManifest>, n: nat): seq<EvidenceLevel>
    requires n <= |a.receipts| && n <= |a.plan.hops|
  {
    if n == 0 then []
    else
      var r := ReceiptLevels(a, peers, n - 1);
      if a.plan.hops[n - 1] in peers then r + [EffectiveEvidence(a.receipts[n - 1].body.evidenceLevel)] else r
  }

  function Deny(base: AdmissionDecision, reasons: seq<Reason>, checkedHops: int, digest: string): AdmissionDecision {
    base.(admitted := false, kind := AttestationVerification, reasonCodes := Dedup(reasons),
          checkedHops := checkedHops, attestationDigest := Some(digest))
  }

  // The lookup of the evidence floor cannot fail once the plan is admitted.
  lemma AdmittedHasFloor(c: Primitives, plan: RoutePlan, policy: AdmissionPolicy, now: DateTime)
    requires plan.Valid() && policy.Valid() && Admission(c, plan, policy, now).admitted
    ensures plan.intent in policy.minimumEvidence
  {
    hide Admission, DateTime.Valid, TopologySnapshot.Valid, HopAdmissible, PeersById;
    AdmissionExact(c, plan, policy, now);
  }

  // What `verify_attestation` returns; `isNew` is the replay store's answer, true without a store.
  function Verification(c: Primitives, a: RouteAttestation, policy: AdmissionPolicy, now: DateTime, isNew: bool): AdmissionDecision
    requires a.Valid() && policy.Valid()
  {
    var base, digest := Admission(c, a.plan, policy, now), AttestationDigest(c, a);
    if !base.admitted then base.(kind := AttestationVerification, attestationDigest := Some(digest))
    else
      AdmittedHasFloor(c, a.plan, policy, now);
      var reasons := VerificationReasons(c, a, policy, policy.minimumEvidence[a.plan.intent], now);
      if reasons != [] then Deny(base, reasons, Covered(a), digest)
      else if !isNew then Deny(base, [ReplayDetected], |a.receipts|, digest)
      else base.(kind := AttestationVerification, attestationDigest := Some(digest),
                 effectiveEvidence := WeakestEvidence(ReceiptLevels(a, Manifests(policy), Covered(a))))
  }

  method CheckTimes(start: seq<Reason>, t: int, earlier: Option<DateTime>, plan: RoutePlan, policy: AdmissionPolicy,
                    m: PeerManifest, now: DateTime)
    returns (reasons: seq<Reason>)
    ensures reasons == TimeReasons(start, t, earlier, plan, policy, m, now)
  {
    reasons := start;
    if !(plan.createdAt.instant <= t < plan.expiresAt.instant) { reasons := reasons + [ReceiptOutsidePlanWindow]; }
    if t > now.instant { reasons := reasons + [ReceiptFromFuture]; }
    if !(policy.topology.capturedAt.instant <= t < policy.topology.expiresAt.instant) {
      reasons := reasons + [ReceiptOutsideTopologyWindow];
    }
    if earlier.Some? && t < earlier.value.instant { reasons := reasons + [ReceiptTimeReversed]; }
    if !(m.validFrom.instant <= t < m.expiresAt.instant) { reasons := reasons + [ReceiptOutsidePeerWindow]; }
  }

  method CheckKey(start: seq<Reason>, c: Primitives, receipt: HopReceipt, m: PeerManifest, required: EvidenceLevel)
    returns (reasons: seq<Reason>)
    requires receipt.body.observedAt.Valid()
    ensures reasons == KeyReasons(start, c, receipt, m, required)
  {
    hide DeriveKeyId, VerifyEd25519, PayloadBytes, EvidenceRank, EffectiveEvidence, DateTime.Valid;
    reasons := start;
    if receipt.body.keyId != m.keyId { reasons := reasons + [ReceiptKeyIdMismatch]; }
    var keyId := DeriveKeyId(c, m.publicKey);
    if keyId.None? {
      reasons := reasons + [ReceiptPublicKeyInvalid];
    } else {
      if keyId.value != m.keyId { reasons := reasons + [ReceiptKeyBindingInvalid]; }
      if !VerifyEd25519(c, m.publicKey, PayloadBytes(receipt.body), receipt.signature) { reasons := reasons + [SignatureInvalid]; }
    }
    if EvidenceRank(receipt.body.evidenceLevel) > EvidenceRank(m.evidenceLevel) { reasons := reasons + [ReceiptEvidenceExceedsManifest]; }
    var effective := EffectiveEvidence(receipt.body.evidenceLevel);
    if EvidenceRank(effective) < EvidenceRank(required) { reasons := reasons + [ReceiptEvidenceBelowFloor]; }
  }

  // The loop over the receipts, with the levels it collects.
  method CheckReceipts(c: Primitives, a: RouteAttestation, policy: AdmissionPolicy, required: EvidenceLevel, now: DateTime)
    returns (reasons: seq<Reason>, levels: seq<EvidenceLevel>)
    requires a.Valid() && policy.Valid()
    ensures reasons == VerificationReasons(c, a, policy, required, now)
    ensures levels == ReceiptLevels(a, Manifests(policy), Covered(a))
  {
    hide PlanDigest, PolicyDigest, TopologyDigest, TopologySnapshot.Valid, RoutePlan.Valid, PeersById;
    hide BindingReasons, TimeReasons, KeyReasons, ReceiptDigest, DateTime.Valid;
    var manifests := Manifests(policy);
    var expected := ExpectedDigests(c, a.plan, policy);
    reasons, levels := [], [];
    if |a.receipts| != |a.plan.hops| { reasons := reasons + [ReceiptCountMismatch]; }
    ghost var start := reasons;
    var previousReceipt: Option<HopReceipt> := None;
    var index := 0;
    while index < |a.receipts|
      invariant 0 <= index <= Covered(a)
      invariant reasons == ReceiptReasons(start, c, a, policy, expected, required, now, index)
      invariant levels == ReceiptLevels(a, manifests, index)
      invariant previousReceipt == if index == 0 then None else Some(a.receipts[index - 1])
    {
      if index >= |a.plan.hops| {
        reasons := reasons + [ExtraReceipt];
        break;
      }
      var receipt, peer := a.receipts[index], a.plan.hops[index];
      assert previousReceipt.Some? ==> a.receipts[index - 1].Valid();
      var expectedPrevious := if previousReceipt.Some? then Some(ReceiptDigest(c, previousReceipt.value)) else None;
      reasons := BindingReasons(reasons, receipt.body, a.plan, expected, index, expectedPrevious);
      if peer !in manifests {
        reasons := reasons + [PeerUnknown(peer)];
      } else {
        var earlier := if previousReceipt.Some? then Some(previousReceipt.value.body.observedAt) else None;
        reasons := CheckTimes(reasons, receipt.body.observedAt.instant, earlier, a.plan, policy, manifests[peer], now);
        reasons := CheckKey(reasons, c, receipt, manifests[peer], required);
        levels := levels + [EffectiveEvidence(receipt.body.evidenceLevel)];
      }
      previousReceipt := Some(receipt);
      index := index + 1;
    }
  }

  // Whether the replay store is asked: only when every other check has passed.
  predicate ReachesStore(c: Primitives, a: RouteAttestation, policy: AdmissionPolicy, now: DateTime)
    requires a.Valid() && policy.Valid()
  {
    Verification(c, a, policy, now, true).admitted
  }

  /** `verify_attestation`; a null `store` is the stateless call. */
  method VerifyAttestation(c: Primitives, a: RouteAttestation, policy: AdmissionPolicy, now: DateTime, store: SQLiteReplayStore?)
    returns (d: AdmissionDecision)
    requires a.Valid() && policy.Valid()
    requires store != null ==> store.Valid()
    modifies if store == null then {} else {store, store.disk}
    ensures store == null ==> d == Verification(c, a, policy, now, true)
    ensures store != null ==>
      && store.Valid()
      && d == Verification(c, a, policy, now, a.plan.nonce !in old(store.Rows()))
      && store.Rows() == (if ReachesStore(c, a, policy, now)
                          then InsertOrIgnore(old(store.Rows()), a.plan.nonce, Row(a.plan.requestCommitment, AttestationDigest(c, a)))
                          else old(store.Rows()))
    ensures store != null && !ReachesStore(c, a, policy, now) ==>
      store.connected == old(store.connected) && store.disk.files == old(store.disk.files)
  {
    hide Admission, AttestationDigest, VerificationReasons, ReceiptLevels, WeakestEvidence, Dedup;
    hide TopologySnapshot.Valid, RoutePlan.Valid, HopReceipt.Valid, PeersById;
    var base := AdmitPlan(c, a.plan, policy, now);
    var digest := AttestationDigest(c, a);
    if !base.admitted {
      return base.(kind := AttestationVerification, attestationDigest := Some(digest));
    }
    AdmittedHasFloor(c, a.plan, policy, now);
    var reasons, levels := CheckReceipts(c, a, policy, policy.minimumEvidence[a.plan.intent], now);
    if reasons != [] {
      return Deny(base, reasons, Covered(a), digest);
    }
    if store != null {
      var isNew := store.RecordIfNew(a.plan.nonce, a.plan.requestCommitment, digest);
      if !isNew {
        return Deny(base, [ReplayDetected], |a.receipts|, digest);
      }
    }
    d := base.(kind := AttestationVerification, attestationDigest := Some(digest), effectiveEvidence := WeakestEvidence(levels));
  }

  // ---- Building ---------------------------------------------------------------------------

  datatype Signer = Signer(keyId: string, publicKey: string, sign: seq<Byte> -> string)

  // The lookups that raise KeyError in the code.
  datatype BuildError = MissingSigner(peer: string) | MissingManifest(peer: string)

  function ClaimedLevel(levels: map<string, EvidenceLevel>, m: PeerManifest, peer: string): EvidenceLevel {
    if peer in levels then levels[peer] else m.evidenceLevel
  }

  function SignedReceipt(b: Payload, signer: Signer): HopReceipt
    requires b.observedAt.Valid()
  {
    HopReceipt(b, signer.sign(PayloadBytes(b)))
  }

  // The first `n` receipts of the chain, or the first lookup that fails.
  function Chain(c: Primitives, plan: RoutePlan, e: Expected, peers: map<string, PeerManifest>, signers: map<string, Signer>,
                 observedAt: DateTime, levels: map<string, EvidenceLevel>, n: nat): (r: Result<seq<HopReceipt>, BuildError>)
    requires n <= |plan.hops| && observedAt.Valid()
    ensures r.Success? ==> |r.value| == n && (n > 0 ==> r.value[n - 1].body.observedAt == observedAt)
  {
    if n == 0 then Success([])
    else
      var before, peer := Chain(c, plan, e, peers, signers, observedAt, levels, n - 1), plan.hops[n - 1];
      if before.Failure? then before
      else if peer !in signers then Failure(MissingSigner(peer))
      else if peer !in peers then Failure(MissingManifest(peer))
      else
        var body := HopBody(plan, e, n - 1, Predecessor(c, before.value, n - 1),
                            ClaimedLevel(levels, peers[peer], peer), observedAt, signers[peer].keyId);
        Success(before.value + [SignedReceipt(body, signers[peer])])
  }

  function Build(c: Primitives, plan: RoutePlan, policy: AdmissionPolicy, signers: map<string, Signer>,
                 observedAt: DateTime, levels: map<string, EvidenceLevel>): Result<RouteAttestation, BuildError>
    requires plan.Valid() && policy.Valid() && observedAt.Valid()
  {
    var chain := Chain(c, plan, ExpectedDigests(c, plan, policy), Manifests(policy), signers, observedAt, levels, |plan.hops|);
    if chain.Failure? then Failure(chain.error) else Success(RouteAttestation(plan, chain.value))
  }

  /** `build_attestation`; an empty `levels` stands for the default argument. */
  method BuildAttestation(c: Primitives, plan: RoutePlan, policy: AdmissionPolicy, signers: map<string, Signer>,
                          observedAt: DateTime, levels: map<string, EvidenceLevel>)
    returns (r: Result<RouteAttestation, BuildError>)
    requires plan.Valid() && policy.Valid() && observedAt.Valid()
    ensures r == Build(c, plan, policy, signers, observedAt, levels)
  {
    hide PlanDigest, PolicyDigest, TopologyDigest, TopologySnapshot.Valid, RoutePlan.Valid, PeersById, DateTime.Valid, PayloadBytes, ReceiptDigest;
    var expected := ExpectedDigests(c, plan, policy);
    var manifests := Manifests(policy);
    var receipts: seq<HopReceipt> := [];
    for index := 0 to |plan.hops|
      invariant Chain(c, plan, expected, manifests, signers, observedAt, levels, index) == Success(receipts)
    {
      var peer := plan.hops[index];
      if peer !in signers {
        ChainFails(c, plan, expected, manifests, signers, observedAt, levels, index + 1, |plan.hops|);
        return Failure(MissingSigner(peer));
      }
      if peer !in manifests {
        ChainFails(c, plan, expected, manifests, signers, observedAt, levels, index + 1, |plan.hops|);
        return Failure(MissingManifest(peer));
      }
      var previous := if receipts != [] then Some(ReceiptDigest(c, receipts[|receipts| - 1])) else None;
      var body := HopBody(plan, expected, index, previous, ClaimedLevel(levels, manifests[peer], peer), observedAt, signers[peer].keyId);
      receipts := receipts + [SignedReceipt(body, signers[peer])];
    }
    r := Success(RouteAttestation(plan, receipts));
  }

  lemma {:induction false} ChainFails(c: Primitives, plan: RoutePlan, e: Expected, peers: map<string, PeerManifest>,
      signers: map<string, Signer>, observedAt: DateTime, levels: map<string, EvidenceLevel>, k: nat, n: nat)
    requires k <= n <= |plan.hops| && observedAt.Valid()
    requires Chain(c, plan, e, peers, signers, observedAt, levels, k).Failure?
    ensures Chain(c, plan, e, peers, signers, observedAt, levels, n) == Chain(c, plan, e, peers, signers, observedAt, levels, k)
  {
    hide DateTime.Valid, HopBody, SignedReceipt, Predecessor;
    if k < n {
      ChainFails(c, plan, e, peers, signers, observedAt, levels, k, n - 1);
    }
  }
}

/**
 Building and verifying are inverse: a chain built for an admitted plan by the pinned signers
 verifies exactly when it was observed inside every window with claims the policy accepts.
 */
module RoundTrip {
  import opened Clock
  import opened Crypto
  import opened Models
  import opened Policy
  import opened AdmissionTheorems
  import opened Attestation
  import opened VerificationTheorems
  import opened Serialization
  import opened Utf8
  import opened Wrappers

  // The signer answers for the pinned key: its identifier, and signatures that verify.
  ghost predicate SignerFor(c: Primitives, s: Signer, m: PeerManifest) {
    s.keyId == m.keyId && forall message: seq<Byte> :: VerifyEd25519(c, m.publicKey, message, s.sign(message))
  }

  ghost predicate SignersReady(c: Primitives, plan: RoutePlan, policy: AdmissionPolicy, signers: map<string, Signer>) {
    forall i :: 0 <= i < |plan.hops| ==>
      plan.hops[i] in signers && plan.hops[i] in Manifests(policy)
      && SignerFor(c, signers[plan.hops[i]], Manifests(policy)[plan.hops[i]])
  }

  /** Ed25519 correctness makes `LocalEd25519Signer` a signer for the manifest that pins its key. */
  lemma LocalSignerReady(c: Primitives, raw: seq<Byte>, ed25519Sign: seq<Byte> -> seq<Byte>, s: Signer, m: PeerManifest)
    requires |raw| == 32 && forall message: seq<Byte> :: |ed25519Sign(message)| == 64
    requires forall message: seq<Byte> :: c.ed25519Verify(raw, message, ed25519Sign(message))
    requires s.publicKey == EncodeBase64Url(raw) && DeriveKeyId(c, s.publicKey) == Some(s.keyId)
    requires forall message: seq<Byte> :: s.sign(message) == EncodeBase64Url(ed25519Sign(message))
    requires m.publicKey == s.publicKey && DeriveKeyId(c, m.publicKey) == Some(m.keyId)
    ensures SignerFor(c, s, m) && s.keyId == "ed25519:sha256:" + c.sha256(raw)
  {
    hide EncodeBase64Url, LibraryDecode, DecodeBase64Url;
    DecodeExact(s.publicKey, 32);
    assert DecodeBase64Url(s.publicKey, 32) == Some(raw);
    forall message: seq<Byte> ensures VerifyEd25519(c, m.publicKey, message, s.sign(message)) {
      DecodeExact(s.sign(message), 64);
      assert DecodeBase64Url(s.sign(message), 64) == Some(ed25519Sign(message));
    }
  }

  // Receipt `k` of a built chain.
  ghost predicate Built(c: Primitives, plan: RoutePlan, e: Expected, peers: map<string, PeerManifest>, signers: map<string, Signer>,
                        observedAt: DateTime, levels: map<string, EvidenceLevel>, receipts: seq<HopReceipt>, k: nat)
    requires k < |receipts| && k < |plan.hops| && observedAt.Valid()
    requires k > 0 ==> receipts[k - 1].body.observedAt.Valid()
  {
    var id := plan.hops[k];
    && id in signers && id in peers
    && receipts[k] == SignedReceipt(
         HopBody(plan, e, k, Predecessor(c, receipts, k), ClaimedLevel(levels, peers[id], id), observedAt, signers[id].keyId),
         signers[id])
  }

  ghost predicate AllBuilt(c: Primitives, plan: RoutePlan, e: Expected, peers: map<string, PeerManifest>, signers: map<string, Signer>,
                           observedAt: DateTime, levels: map<string, EvidenceLevel>, receipts: seq<HopReceipt>)
    requires observedAt.Valid()
  {
    && |receipts| <= |plan.hops|
    && (forall k :: 0 <= k < |receipts| ==> receipts[k].body.observedAt == observedAt)
    && (forall k :: 0 <= k < |receipts| ==> Built(c, plan, e, peers, signers, observedAt, levels, receipts, k))
  }

  lemma ExtendBuilt(c: Primitives, plan: RoutePlan, e: Expected, peers: map<string, PeerManifest>, signers: map<string, Signer>,
                    observedAt: DateTime, levels: map<string, EvidenceLevel>, before: seq<HopReceipt>, receipts: seq<HopReceipt>)
    requires observedAt.Valid() && AllBuilt(c, plan, e, peers, signers, observedAt, levels, before)
    requires |before| < |plan.hops| && |receipts| == |before| + 1 && receipts[..|before|] == before
    requires receipts[|before|].body.observedAt == observedAt
    requires Built(c, plan, e, peers, signers, observedAt, levels, receipts, |before|)
    ensures AllBuilt(c, plan, e, peers, signers, observedAt, levels, receipts)
  {
    hide DateTime.Valid, HopBody, SignedReceipt, ReceiptDigest;
    assert forall k :: 0 <= k < |before| ==> receipts[k] == before[k];
    forall k | 0 <= k < |receipts| ensures Built(c, plan, e, peers, signers, observedAt, levels, receipts, k) {
      if k < |before| {
        assert Built(c, plan, e, peers, signers, observedAt, levels, before, k);
      }
    }
  }

  lemma {:induction false} ChainIsBuilt(c: Primitives, plan: RoutePlan, e: Expected, peers: map<string, PeerManifest>,
      signers: map<string, Signer>, observedAt: DateTime, levels: map<string, EvidenceLevel>, n: nat)
    requires n <= |plan.hops| && observedAt.Valid()
    requires forall i :: 0 <= i < n ==> plan.hops[i] in signers && plan.hops[i] in peers
    ensures Chain(c, plan, e, peers, signers, observedAt, levels, n).Success?
    ensures |Chain(c, plan, e, peers, signers, observedAt, levels, n).value| == n
    ensures AllBuilt(c, plan, e, peers, signers, observedAt, levels, Chain(c, plan, e, peers, signers, observedAt, levels, n).value)
  {
    hide DateTime.Valid, ReceiptDigest, AllBuilt, PayloadBytes;
    if n == 0 {
      NoneBuilt(c, plan, e, peers, signers, observedAt, levels);
    } else {
      ChainIsBuilt(c, plan, e, peers, signers, observedAt, levels, n - 1);
      var before := Chain(c, plan, e, peers, signers, observedAt, levels, n - 1).value;
      var receipts := Chain(c, plan, e, peers, signers, observedAt, levels, n).value;
      assert receipts[..n - 1] == before;
      assert n > 1 ==> receipts[n - 2] == before[n - 2];
      ExtendBuilt(c, plan, e, peers, signers, observedAt, levels, before, receipts);
    }
  }

  lemma NoneBuilt(c: Primitives, plan: RoutePlan, e: Expected, peers: map<string, PeerManifest>,
                  signers: map<string, Signer>, observedAt: DateTime, levels: map<string, EvidenceLevel>)
    requires observedAt.Valid()
    ensures AllBuilt(c, plan, e, peers, signers, observedAt, levels, [])
  {}

  ghost predicate Known(plan: RoutePlan, peers: map<string, PeerManifest>, signers: map<string, Signer>, i: nat)
    requires i < |plan.hops|
  {
    plan.hops[i] in signers && plan.hops[i] in peers
  }

  lemma {:induction false} ChainStops(c: Primitives, plan: RoutePlan, e: Expected, peers: map<string, PeerManifest>,
      signers: map<string, Signer>, observedAt: DateTime, levels: map<string, EvidenceLevel>, k: nat)
    requires k < |plan.hops| && observedAt.Valid()
    requires !Known(plan, peers, signers, k) && forall i :: 0 <= i < k ==> Known(plan, peers, signers, i)
    ensures Chain(c, plan, e, peers, signers, observedAt, levels, |plan.hops|)
            == Failure(if plan.hops[k] in signers then MissingManifest(plan.hops[k]) else MissingSigner(plan.hops[k]))
  {
    hide DateTime.Valid, HopBody, SignedReceipt, Predecessor, AllBuilt;
    assert forall i :: 0 <= i < k ==> Known(plan, peers, signers, i) ==> plan.hops[i] in signers && plan.hops[i] in peers;
    ChainIsBuilt(c, plan, e, peers, signers, observedAt, levels, k);
    ChainFails(c, plan, e, peers, signers, observedAt, levels, k + 1, |plan.hops|);
  }

  /** Building succeeds iff every hop has a signer and a manifest; otherwise the first hop without one is named. */
  lemma BuildExact(c: Primitives, plan: RoutePlan, policy: AdmissionPolicy, signers: map<string, Signer>,
                   observedAt: DateTime, levels: map<string, EvidenceLevel>)
    requires plan.Valid() && policy.Valid() && observedAt.Valid()
    ensures var r := Build(c, plan, policy, signers, observedAt, levels);
            && (r.Success? <==> forall i :: 0 <= i < |plan.hops| ==> Known(plan, Manifests(policy), signers, i))
            && (r.Failure? ==>
                  exists k :: 0 <= k < |plan.hops| && !Known(plan, Manifests(policy), signers, k)
                    && (forall i :: 0 <= i < k ==> Known(plan, Manifests(policy), signers, i))
                    && r.error == if plan.hops[k] in signers then MissingManifest(plan.hops[k]) else MissingSigner(plan.hops[k]))
  {
    hide DateTime.Valid, TopologySnapshot.Valid, Manifests, ExpectedDigests, Chain, AllBuilt;
    var peers, n := Manifests(policy), |plan.hops|;
    if forall i :: 0 <= i < n ==> Known(plan, peers, signers, i) {
      forall i | 0 <= i < n ensures plan.hops[i] in signers && plan.hops[i] in peers { assert Known(plan, peers, signers, i); }
      ChainIsBuilt(c, plan, ExpectedDigests(c, plan, policy), peers, signers, observedAt, levels, n);
    } else {
      var k :| 0 <= k < n && !Known(plan, peers, signers, k);
      k := FirstUnknown(plan, peers, signers, k);
      ChainStops(c, plan, ExpectedDigests(c, plan, policy), peers, signers, observedAt, levels, k);
    }
  }

  lemma FirstUnknown(plan: RoutePlan, peers: map<string, PeerManifest>, signers: map<string, Signer>, k: nat) returns (j: nat)
    requires k < |plan.hops| && !Known(plan, peers, signers, k)
    ensures j <= k && !Known(plan, peers, signers, j) && forall i :: 0 <= i < j ==> Known(plan, peers, signers, i)
  {
    j := 0;
    while Known(plan, peers, signers, j)
      invariant j <= k && forall i :: 0 <= i < j ==> Known(plan, peers, signers, i)
      decreases k - j
    {
      j := j + 1;
    }
  }

  /** What a built receipt says: the request, its place, the policy, the complete receipt before it, the level passed
      for its peer or else the pinned one, and the signer's signature over all of it. */
  lemma BuiltReceipt(c: Primitives, plan: RoutePlan, policy: AdmissionPolicy, signers: map<string, Signer>,
                     observedAt: DateTime, levels: map<string, EvidenceLevel>, i: nat)
    requires plan.Valid() && policy.Valid() && observedAt.Valid() && i < |plan.hops|
    requires Build(c, plan, policy, signers, observedAt, levels).Success?
    ensures var a := Build(c, plan, policy, signers, observedAt, levels).value;
            a.plan == plan && |a.receipts| == |plan.hops| && forall k :: 0 <= k < |a.receipts| ==> a.receipts[k].body.observedAt == observedAt
    ensures plan.hops[i] in signers && plan.hops[i] in Manifests(policy)
    ensures var rs, id := Build(c, plan, policy, signers, observedAt, levels).value.receipts, plan.hops[i];
            var b := rs[i].body;
            && b.requestId == plan.requestId && b.nonce == plan.nonce && b.requestCommitment == plan.requestCommitment
            && b.routePlanDigest == PlanDigest(c, plan) && b.policyDigest == PolicyDigest(c, policy)
            && b.topologyDigest == TopologyDigest(c, policy.topology) && b.intent == plan.intent
            && b.hopIndex == i && b.hopCount == |plan.hops| && b.peerId == id
            && b.previousPeerId == (if i == 0 then None else Some(plan.hops[i - 1]))
            && b.nextPeerId == (if i == |plan.hops| - 1 then None else Some(plan.hops[i + 1]))
            && b.previousReceiptDigest == (if i == 0 then None else Some(Sha256Digest(c, ReceiptJson(rs[i - 1]))))
            && b.modelDigest == plan.modelDigest && b.runtimeDigest == plan.runtimeDigest
            && b.evidenceLevel == (if id in levels then levels[id] else Manifests(policy)[id].evidenceLevel)
            && b.keyId == signers[id].keyId && rs[i].signature == signers[id].sign(CanonicalBytes(PayloadJson(b)))
  {
    hide DateTime.Valid, TopologySnapshot.Valid, RoutePlan.Valid, PeersById, Chain, PlanDigest, PolicyDigest, TopologyDigest,
         Sha256Digest, ReceiptJson, PayloadJson, CanonicalBytes;
    BuildExact(c, plan, policy, signers, observedAt, levels);
    var e, peers := ExpectedDigests(c, plan, policy), Manifests(policy);
    forall k | 0 <= k < |plan.hops| ensures plan.hops[k] in signers && plan.hops[k] in peers { assert Known(plan, peers, signers, k); }
    ChainIsBuilt(c, plan, e, peers, signers, observedAt, levels, |plan.hops|);
    var rs := Build(c, plan, policy, signers, observedAt, levels).value.receipts;
    assert Built(c, plan, e, peers, signers, observedAt, levels, rs, i);
  }

  lemma BuiltIsValid(c: Primitives, plan: RoutePlan, e: Expected, policy: AdmissionPolicy, signers: map<string, Signer>,
                     observedAt: DateTime, levels: map<string, EvidenceLevel>, receipts: seq<HopReceipt>)
    requires plan.Valid() && observedAt.Valid() && SignersReady(c, plan, policy, signers)
    requires |receipts| == |plan.hops| && AllBuilt(c, plan, e, Manifests(policy), signers, observedAt, levels, receipts)
    ensures RouteAttestation(plan, receipts).Valid()
  {
    hide Manifests, DateTime.Valid, ReceiptDigest, PayloadBytes, VerifyEd25519;
    forall k | 0 <= k < |receipts| ensures receipts[k].Valid() {
      assert Built(c, plan, e, Manifests(policy), signers, observedAt, levels, receipts, k);
      var m, r := Manifests(policy)[plan.hops[k]], receipts[k];
      assert SignerFor(c, signers[plan.hops[k]], m);
      VerifiedSignatureLength(c, m.publicKey, PayloadBytes(r.body), r.signature);
    }
  }

  lemma VerifiedSignatureLength(c: Primitives, publicKey: string, message: seq<Byte>, signature: string)
    requires VerifyEd25519(c, publicKey, message, signature)
    ensures |signature| == 86
  {
    hide DecodeBase64Url;
    FixedSizes(signature);
  }

  // The claim of every hop is one the verifier accepts.
  ghost predicate ClaimsAccepted(plan: RoutePlan, policy: AdmissionPolicy, levels: map<string, EvidenceLevel>) {
    && plan.intent in policy.minimumEvidence
    && forall i :: 0 <= i < |plan.hops| ==> ClaimAccepted(policy, levels, policy.minimumEvidence[plan.intent], plan.hops[i])
  }

  ghost predicate ClaimAccepted(policy: AdmissionPolicy, levels: map<string, EvidenceLevel>, required: EvidenceLevel, id: string) {
    && id in Manifests(policy)
    && Evidenced(if id in levels then levels[id] else Manifests(policy)[id].evidenceLevel, Manifests(policy)[id], required)
  }

  lemma BuiltProves(c: Primitives, a: RouteAttestation, policy: AdmissionPolicy, e: Expected, required: EvidenceLevel,
                    signers: map<string, Signer>, observedAt: DateTime, levels: map<string, EvidenceLevel>, i: nat)
    requires a.Valid() && observedAt.Valid() && SignersReady(c, a.plan, policy, signers)
    requires |a.receipts| == |a.plan.hops| && i < |a.receipts|
    requires AllBuilt(c, a.plan, e, Manifests(policy), signers, observedAt, levels, a.receipts)
    requires DeriveKeyId(c, Manifests(policy)[a.plan.hops[i]].publicKey) == Some(Manifests(policy)[a.plan.hops[i]].keyId)
    ensures Proves(c, a, policy, e, required, i) <==>
            && a.plan.createdAt.instant <= observedAt.instant < a.plan.expiresAt.instant
            && policy.topology.capturedAt.instant <= observedAt.instant < policy.topology.expiresAt.instant
            && HopOpen(Manifests(policy), a.plan.hops[i], observedAt.instant)
            && ClaimAccepted(policy, levels, required, a.plan.hops[i])
  {
    hide Manifests, DateTime.Valid, Predecessor, PayloadBytes, VerifyEd25519, Evidenced, RoutePlan.Valid, HopReceipt.Valid, DeriveKeyId;
    assert Built(c, a.plan, e, Manifests(policy), signers, observedAt, levels, a.receipts, i);
    var id := a.plan.hops[i];
    var m, r := Manifests(policy)[id], a.receipts[i];
    assert SignerFor(c, signers[id], m);
    assert Signed(c, r, m);
    assert Bound(c, a, e, i);
    assert i > 0 ==> a.receipts[i - 1].body.observedAt == observedAt;
  }

  /** A chain built for an admitted plan verifies exactly when observed in time with accepted claims. */
  lemma BuildVerifies(c: Primitives, plan: RoutePlan, policy: AdmissionPolicy, signers: map<string, Signer>,
                      observedAt: DateTime, levels: map<string, EvidenceLevel>, now: DateTime)
    requires plan.Valid() && policy.Valid() && observedAt.Valid()
    requires Admission(c, plan, policy, now).admitted && SignersReady(c, plan, policy, signers)
    ensures var built := Build(c, plan, policy, signers, observedAt, levels);
            && built.Success? && built.value.Valid() && built.value.plan == plan
            && (Verification(c, built.value, policy, now, true).admitted <==>
                  && observedAt.instant <= now.instant && OpenAt(plan, policy, observedAt.instant)
                  && ClaimsAccepted(plan, policy, levels))
  {
    hide Admission, Verification, Manifests, ExpectedDigests, AllBuilt, SignerFor, DateTime.Valid, TopologySnapshot.Valid, Chain, Proves, HopOpen,
         ClaimAccepted, HopFits, DeriveKeyId;
    var e, peers := ExpectedDigests(c, plan, policy), Manifests(policy);
    ChainIsBuilt(c, plan, e, peers, signers, observedAt, levels, |plan.hops|);
    var receipts := Chain(c, plan, e, peers, signers, observedAt, levels, |plan.hops|).value;
    BuiltIsValid(c, plan, e, policy, signers, observedAt, levels, receipts);
    var a := RouteAttestation(plan, receipts);
    AdmissionExact(c, plan, policy, now);
    AdmittedHasFloor(c, plan, policy, now);
    BuiltChainAccepted(c, a, policy, signers, observedAt, levels, now);
    VerificationExact(c, a, policy, now, true);
  }

  lemma BuiltChainAccepted(c: Primitives, a: RouteAttestation, policy: AdmissionPolicy, signers: map<string, Signer>,
                           observedAt: DateTime, levels: map<string, EvidenceLevel>, now: DateTime)
    requires a.Valid() && policy.Valid() && observedAt.Valid()
    requires Admissible(c, a.plan, policy, now) && SignersReady(c, a.plan, policy, signers)
    requires |a.receipts| == |a.plan.hops| && a.plan.intent in policy.minimumEvidence
    requires AllBuilt(c, a.plan, ExpectedDigests(c, a.plan, policy), Manifests(policy), signers, observedAt, levels, a.receipts)
    ensures Accepted(c, a, policy, now) <==>
            && observedAt.instant <= now.instant && OpenAt(a.plan, policy, observedAt.instant)
            && ClaimsAccepted(a.plan, policy, levels)
  {
    hide Manifests, ExpectedDigests, SignersReady, DateTime.Valid, TopologySnapshot.Valid, Proves, HopOpen, ClaimAccepted, DeriveKeyId, Built;
    var e, required := ExpectedDigests(c, a.plan, policy), policy.minimumEvidence[a.plan.intent];
    forall i | 0 <= i < |a.receipts|
      ensures Proves(c, a, policy, e, required, i) <==>
              && a.plan.createdAt.instant <= observedAt.instant < a.plan.expiresAt.instant
              && policy.topology.capturedAt.instant <= observedAt.instant < policy.topology.expiresAt.instant
              && HopOpen(Manifests(policy), a.plan.hops[i], observedAt.instant)
              && ClaimAccepted(policy, levels, required, a.plan.hops[i])
    {
      assert HopAdmissible(c, a.plan, Manifests(policy), Required(a.plan, policy), now, a.plan.hops[i]);
      BuiltProves(c, a, policy, e, required, signers, observedAt, levels, i);
    }
    assert forall i :: 0 <= i < |a.receipts| ==> a.receipts[i].body.observedAt == observedAt;
    if Accepted(c, a, policy, now) {
      assert Proves(c, a, policy, e, required, 0);
      forall i | 0 <= i < |a.plan.hops|
        ensures HopOpen(Manifests(policy), a.plan.hops[i], observedAt.instant)
        ensures ClaimAccepted(policy, levels, required, a.plan.hops[i])
      {
        assert Proves(c, a, policy, e, required, i);
      }
      assert a.receipts[0].body.observedAt.instant <= now.instant;
      assert OpenAt(a.plan, policy, observedAt.instant);
      assert ClaimsAccepted(a.plan, policy, levels);
    }
    if observedAt.instant <= now.instant && OpenAt(a.plan, policy, observedAt.instant) && ClaimsAccepted(a.plan, policy, levels) {
      assert ChainProves(c, a, policy);
    }
  }

  /** With the default evidence levels no further premise on evidence is needed. */
  lemma DefaultClaimsAccepted(c: Primitives, plan: RoutePlan, policy: AdmissionPolicy, now: DateTime)
    requires plan.Valid() && policy.Valid() && Admission(c, plan, policy, now).admitted
    ensures ClaimsAccepted(plan, policy, map[])
  {
    hide Admission, Manifests, DateTime.Valid, TopologySnapshot.Valid, DeriveKeyId;
    AdmissionExact(c, plan, policy, now);
    forall i | 0 <= i < |plan.hops| ensures ClaimAccepted(policy, map[], policy.minimumEvidence[plan.intent], plan.hops[i]) {
      assert HopAdmissible(c, plan, Manifests(policy), Required(plan, policy), now, plan.hops[i]);
    }
  }
}

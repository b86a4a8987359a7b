/**
 What verified attestations mean: exact acceptance, the exact window of time, decisions that
 are always well formed, and bounds on the evidence they report.
 */
module VerificationTheorems {
  import opened Clock
  import opened Crypto
  import opened Models
  import opened Ordering
  import opened Policy
  import opened AdmissionTheorems
  import opened Attestation
  import opened Serialization
  import opened Wrappers

  // ---- Exact acceptance -------------------------------------------------------------------

  // Position, neighbours, request, plan, policy, topology and predecessor are those of the route.
  ghost predicate Bound(c: Primitives, a: RouteAttestation, e: Expected, i: nat)
    requires a.Valid() && i < |a.receipts| && i < |a.plan.hops|
  {
    var b := a.receipts[i].body;
    b == HopBody(a.plan, e, i, Predecessor(c, a.receipts, i), b.evidenceLevel, b.observedAt, b.keyId)
  }

  // Inside the plan, topology and peer windows, and not before the receipt it extends.
  ghost predicate Timely(t: int, earlier: Option<DateTime>, plan: RoutePlan, policy: AdmissionPolicy, m: PeerManifest) {
    && plan.createdAt.instant <= t < plan.expiresAt.instant
    && policy.topology.capturedAt.instant <= t < policy.topology.expiresAt.instant
    && m.validFrom.instant <= t < m.expiresAt.instant
    && (earlier.Some? ==> earlier.value.instant <= t)
  }

  // Signed, over the whole payload, by the key pinned for the peer.
  ghost predicate Signed(c: Primitives, r: HopReceipt, m: PeerManifest)
    requires r.body.observedAt.Valid()
  {
    && r.body.keyId == m.keyId && DeriveKeyId(c, m.publicKey) == Some(m.keyId)
    && VerifyEd25519(c, m.publicKey, PayloadBytes(r.body), r.signature)
  }

  // Claims no more than the manifest grants and, capped, no less than the floor.
  ghost predicate Evidenced(level: EvidenceLevel, m: PeerManifest, required: EvidenceLevel) {
    !Weaker(m.evidenceLevel, level) && !BelowFloor(level, required)
  }

  ghost predicate Proves(c: Primitives, a: RouteAttestation, policy: AdmissionPolicy, e: Expected, required: EvidenceLevel, i: nat)
    requires a.Valid() && i < |a.receipts| && i < |a.plan.hops|
  {
    && a.plan.hops[i] in Manifests(policy)
    && var r, m := a.receipts[i], Manifests(policy)[a.plan.hops[i]];
       && Bound(c, a, e, i)
       && Timely(r.body.observedAt.instant, Earlier(a.receipts, i), a.plan, policy, m)
       && Signed(c, r, m)
       && Evidenced(r.body.evidenceLevel, m, required)
  }

  // One proving receipt, not from the future, for every hop of an admissible plan.
  ghost predicate Accepted(c: Primitives, a: RouteAttestation, policy: AdmissionPolicy, now: DateTime)
    requires a.Valid() && policy.Valid()
  {
    && Admissible(c, a.plan, policy, now)
    && ChainProves(c, a, policy)
    && forall i :: 0 <= i < |a.receipts| ==> a.receipts[i].body.observedAt.instant <= now.instant
  }

  ghost predicate ChainProves(c: Primitives, a: RouteAttestation, policy: AdmissionPolicy)
    requires a.Valid() && policy.Valid()
  {
    && |a.receipts| == |a.plan.hops|
    && a.plan.intent in policy.minimumEvidence
    && forall i :: 0 <= i < |a.receipts| ==>
         Proves(c, a, policy, ExpectedDigests(c, a.plan, policy), policy.minimumEvidence[a.plan.intent], i)
  }

  lemma BindingExact(r: seq<Reason>, b: Payload, plan: RoutePlan, e: Expected, i: nat, previous: Option<string>)
    requires i < |plan.hops|
    ensures BindingReasons(r, b, plan, e, i, previous) == [] <==>
            r == [] && b == HopBody(plan, e, i, previous, b.evidenceLevel, b.observedAt, b.keyId)
  {
    hide PreviousPeer, NextPeer;
  }

  lemma TimeExact(r: seq<Reason>, t: int, earlier: Option<DateTime>, plan: RoutePlan, policy: AdmissionPolicy,
                  m: PeerManifest, now: DateTime)
    ensures TimeReasons(r, t, earlier, plan, policy, m, now) == [] <==>
            r == [] && Timely(t, earlier, plan, policy, m) && t <= now.instant
  {}

  lemma KeyExact(r: seq<Reason>, c: Primitives, receipt: HopReceipt, m: PeerManifest, required: EvidenceLevel)
    requires receipt.body.observedAt.Valid()
    ensures KeyReasons(r, c, receipt, m, required) == [] <==>
            r == [] && Signed(c, receipt, m) && Evidenced(receipt.body.evidenceLevel, m, required)
  {
    EvidenceRankMeans(receipt.body.evidenceLevel, m.evidenceLevel);
    EvidenceRankMeans(receipt.body.evidenceLevel, required);
    hide DeriveKeyId, VerifyEd25519, PayloadBytes, EvidenceRank, EffectiveEvidence, Weaker, BelowFloor, DateTime.Valid;
  }

  lemma {:induction false} ReceiptsExact(start: seq<Reason>, c: Primitives, a: RouteAttestation, policy: AdmissionPolicy,
                                         e: Expected, required: EvidenceLevel, now: DateTime, n: nat)
    requires a.Valid() && n <= |a.receipts| && n <= |a.plan.hops|
    ensures ReceiptReasons(start, c, a, policy, e, required, now, n) == [] <==>
            start == [] && forall i :: 0 <= i < n ==>
              Proves(c, a, policy, e, required, i) && a.receipts[i].body.observedAt.instant <= now.instant
  {
    hide BindingReasons, TimeReasons, KeyReasons, HopBody, Timely, Signed, Evidenced, PeersById, RoutePlan.Valid, DateTime.Valid, Predecessor;
    if n > 0 {
      var i := n - 1;
      ReceiptsExact(start, c, a, policy, e, required, now, i);
      var receipt, peer, previous := a.receipts[i], a.plan.hops[i], Predecessor(c, a.receipts, i);
      var r0 := ReceiptReasons(start, c, a, policy, e, required, now, i);
      BindingExact(r0, receipt.body, a.plan, e, i, previous);
      if peer in Manifests(policy) {
        var m, t := Manifests(policy)[peer], receipt.body.observedAt.instant;
        var r1 := BindingReasons(r0, receipt.body, a.plan, e, i, previous);
        TimeExact(r1, t, Earlier(a.receipts, i), a.plan, policy, m, now);
        KeyExact(TimeReasons(r1, t, Earlier(a.receipts, i), a.plan, policy, m, now), c, receipt, m, required);
      }
    }
  }

  lemma VerificationReasonsExact(c: Primitives, a: RouteAttestation, policy: AdmissionPolicy, now: DateTime)
    requires a.Valid() && policy.Valid() && a.plan.intent in policy.minimumEvidence
    ensures VerificationReasons(c, a, policy, policy.minimumEvidence[a.plan.intent], now) == [] <==>
            ChainProves(c, a, policy) && forall i :: 0 <= i < |a.receipts| ==> a.receipts[i].body.observedAt.instant <= now.instant
  {
    hide ReceiptReasons, ExpectedDigests, Proves, TopologySnapshot.Valid, DateTime.Valid;
    var start := Note([], |a.receipts| == |a.plan.hops|, ReceiptCountMismatch);
    ReceiptsExact(start, c, a, policy, ExpectedDigests(c, a.plan, policy), policy.minimumEvidence[a.plan.intent], now, Covered(a));
  }

  /** Verification admits exactly the accepted attestations, and with a store only under a new nonce. */
  lemma VerificationExact(c: Primitives, a: RouteAttestation, policy: AdmissionPolicy, now: DateTime, isNew: bool)
    requires a.Valid() && policy.Valid()
    ensures Verification(c, a, policy, now, isNew).admitted <==> isNew && Accepted(c, a, policy, now)
  {
    hide Admission, Admissible, VerificationReasons, ChainProves, ReceiptLevels, TopologySnapshot.Valid, DateTime.Valid;
    hide AttestationDigest, WeakestEvidence, Dedup;
    AdmissionExact(c, a.plan, policy, now);
    if Admission(c, a.plan, policy, now).admitted {
      AdmittedHasFloor(c, a.plan, policy, now);
      VerificationReasonsExact(c, a, policy, now);
    }
  }

  // ---- Exact reasons ----------------------------------------------------------------------

  // A field that is not what the request and the pinned policy say.
  ghost predicate RequestDiffers(b: Payload, plan: RoutePlan, e: Expected, code: Reason) {
    || (code == ReceiptMismatch(RequestIdField) && b.requestId != plan.requestId)
    || (code == ReceiptMismatch(NonceField) && b.nonce != plan.nonce)
    || (code == ReceiptMismatch(RequestCommitmentField) && b.requestCommitment != plan.requestCommitment)
    || (code == ReceiptMismatch(RoutePlanDigestField) && b.routePlanDigest != e.route)
    || (code == ReceiptMismatch(PolicyDigestField) && b.policyDigest != e.policy)
    || (code == ReceiptMismatch(TopologyDigestField) && b.topologyDigest != e.topology)
    || (code == ReceiptMismatch(IntentField) && b.intent != plan.intent)
  }

  // A field that is not what the position in the route says.
  ghost predicate PositionDiffers(b: Payload, plan: RoutePlan, i: nat, previous: Option<string>, code: Reason)
    requires i < |plan.hops|
  {
    || (code == ReceiptMismatch(HopIndexField) && b.hopIndex != i)
    || (code == ReceiptMismatch(HopCountField) && b.hopCount != |plan.hops|)
    || (code == ReceiptMismatch(PeerIdField) && b.peerId != plan.hops[i])
    || (code == ReceiptMismatch(PreviousPeerField) && b.previousPeerId != if i == 0 then None else Some(plan.hops[i - 1]))
    || (code == ReceiptMismatch(NextPeerField) && b.nextPeerId != if i == |plan.hops| - 1 then None else Some(plan.hops[i + 1]))
    || (code == ReceiptMismatch(PreviousReceiptDigestField) && b.previousReceiptDigest != previous)
    || (code == ReceiptMismatch(ModelDigestField) && b.modelDigest != plan.modelDigest)
    || (code == ReceiptMismatch(RuntimeDigestField) && b.runtimeDigest != plan.runtimeDigest)
  }

  // What each code says about one receipt and the manifest of its hop.
  ghost predicate TimeFault(t: int, earlier: Option<DateTime>, plan: RoutePlan, policy: AdmissionPolicy, m: PeerManifest,
                            now: DateTime, code: Reason)
  {
    || (code == ReceiptOutsidePlanWindow && (t < plan.createdAt.instant || plan.expiresAt.instant <= t))
    || (code == ReceiptFromFuture && now.instant < t)
    || (code == ReceiptOutsideTopologyWindow && (t < policy.topology.capturedAt.instant || policy.topology.expiresAt.instant <= t))
    || (code == ReceiptTimeReversed && earlier.Some? && t < earlier.value.instant)
    || (code == ReceiptOutsidePeerWindow && (t < m.validFrom.instant || m.expiresAt.instant <= t))
  }

  ghost predicate KeyFault(c: Primitives, r: HopReceipt, m: PeerManifest, required: EvidenceLevel, code: Reason)
    requires r.body.observedAt.Valid()
  {
    var key := DeriveKeyId(c, m.publicKey);
    || (code == ReceiptKeyIdMismatch && r.body.keyId != m.keyId)
    || (code == ReceiptPublicKeyInvalid && key.None?)
    || (code == ReceiptKeyBindingInvalid && key.Some? && key.value != m.keyId)
    || (code == SignatureInvalid && key.Some? && !VerifyEd25519(c, m.publicKey, PayloadBytes(r.body), r.signature))
    || (code == ReceiptEvidenceExceedsManifest && Weaker(m.evidenceLevel, r.body.evidenceLevel))
    || (code == ReceiptEvidenceBelowFloor && BelowFloor(r.body.evidenceLevel, required))
  }

  ghost predicate FaultAt(c: Primitives, a: RouteAttestation, policy: AdmissionPolicy, e: Expected, required: EvidenceLevel,
                          now: DateTime, i: nat, code: Reason)
    requires a.Valid() && i < |a.receipts| && i < |a.plan.hops|
  {
    var r, peer := a.receipts[i], a.plan.hops[i];
    || RequestDiffers(r.body, a.plan, e, code) || PositionDiffers(r.body, a.plan, i, Predecessor(c, a.receipts, i), code)
    || (if peer in Manifests(policy)
        then
          || TimeFault(r.body.observedAt.instant, Earlier(a.receipts, i), a.plan, policy, Manifests(policy)[peer], now, code)
          || KeyFault(c, r, Manifests(policy)[peer], required, code)
        else code == PeerUnknown(peer))
  }

  lemma RequestMembers(r: seq<Reason>, b: Payload, plan: RoutePlan, e: Expected, code: Reason)
    ensures Has(RequestReasons(r, b, plan, e), code) <==> Has(r, code) || RequestDiffers(b, plan, e, code)
  {
    NoteMembers();
    hide Has, Note;
  }

  lemma PositionMembers(r: seq<Reason>, b: Payload, plan: RoutePlan, i: nat, previous: Option<string>, code: Reason)
    requires i < |plan.hops|
    ensures Has(PositionReasons(r, b, plan, i, previous), code) <==> Has(r, code) || PositionDiffers(b, plan, i, previous, code)
  {
    NoteMembers();
    hide Has, Note;
  }

  lemma TimeMembers(r: seq<Reason>, t: int, earlier: Option<DateTime>, plan: RoutePlan,
                    policy: AdmissionPolicy, m: PeerManifest, now: DateTime, code: Reason)
    ensures Has(TimeReasons(r, t, earlier, plan, policy, m, now), code) <==>
            Has(r, code) || TimeFault(t, earlier, plan, policy, m, now, code)
  {
    NoteMembers();
    hide Has, Note;
  }

  lemma KeyMembers(r: seq<Reason>, c: Primitives, receipt: HopReceipt, m: PeerManifest, required: EvidenceLevel, code: Reason)
    requires receipt.body.observedAt.Valid()
    ensures Has(KeyReasons(r, c, receipt, m, required), code) <==> Has(r, code) || KeyFault(c, receipt, m, required, code)
  {
    NoteMembers();
    EvidenceRankMeans(receipt.body.evidenceLevel, m.evidenceLevel);
    EvidenceRankMeans(receipt.body.evidenceLevel, required);
    hide Has, Note, DeriveKeyId, VerifyEd25519, PayloadBytes, EvidenceRank, EffectiveEvidence, Weaker, BelowFloor, DateTime.Valid;
  }

  lemma {:induction false} ReceiptMembers(start: seq<Reason>, c: Primitives, a: RouteAttestation, policy: AdmissionPolicy,
                                          e: Expected, required: EvidenceLevel, now: DateTime, n: nat, code: Reason)
    requires a.Valid() && n <= |a.receipts| && n <= |a.plan.hops|
    ensures code in ReceiptReasons(start, c, a, policy, e, required, now, n) <==>
            code in start || exists i :: 0 <= i < n && FaultAt(c, a, policy, e, required, now, i, code)
  {
    hide RequestReasons, PositionReasons, TimeReasons, KeyReasons, RequestDiffers, PositionDiffers, TimeFault, KeyFault,
         PeersById, RoutePlan.Valid, DateTime.Valid, Predecessor;
    if n > 0 {
      var i := n - 1;
      ReceiptMembers(start, c, a, policy, e, required, now, i, code);
      var receipt, peer, previous := a.receipts[i], a.plan.hops[i], Predecessor(c, a.receipts, i);
      var r0 := ReceiptReasons(start, c, a, policy, e, required, now, i);
      var r1 := RequestReasons(r0, receipt.body, a.plan, e);
      var r2 := PositionReasons(r1, receipt.body, a.plan, i, previous);
      RequestMembers(r0, receipt.body, a.plan, e, code);
      PositionMembers(r1, receipt.body, a.plan, i, previous, code);
      if peer in Manifests(policy) {
        var m, t, earlier := Manifests(policy)[peer], receipt.body.observedAt.instant, Earlier(a.receipts, i);
        TimeMembers(r2, t, earlier, a.plan, policy, m, now, code);
        KeyMembers(TimeReasons(r2, t, earlier, a.plan, policy, m, now), c, receipt, m, required, code);
      }
      assert code in ReceiptReasons(start, c, a, policy, e, required, now, n) <==>
             code in r0 || FaultAt(c, a, policy, e, required, now, i, code);
    }
  }

  lemma VerificationMembers(c: Primitives, a: RouteAttestation, policy: AdmissionPolicy, required: EvidenceLevel, now: DateTime, code: Reason)
    requires a.Valid() && policy.Valid()
    ensures code in VerificationReasons(c, a, policy, required, now) <==>
            || (code == ReceiptCountMismatch && |a.receipts| != |a.plan.hops|)
            || (code == ExtraReceipt && |a.receipts| > |a.plan.hops|)
            || exists i :: 0 <= i < Covered(a) && FaultAt(c, a, policy, ExpectedDigests(c, a.plan, policy), required, now, i, code)
  {
    hide ReceiptReasons, ExpectedDigests, FaultAt, TopologySnapshot.Valid, DateTime.Valid, RoutePlan.Valid;
    ReceiptMembers(Note([], |a.receipts| == |a.plan.hops|, ReceiptCountMismatch), c, a, policy,
                   ExpectedDigests(c, a.plan, policy), required, now, Covered(a), code);
  }

  // The hops of an admitted plan are pinned, so the loop never meets an unknown peer.
  lemma AdmittedHopsPinned(c: Primitives, plan: RoutePlan, policy: AdmissionPolicy, now: DateTime, i: nat)
    requires plan.Valid() && policy.Valid() && Admission(c, plan, policy, now).admitted && i < |plan.hops|
    ensures plan.hops[i] in Manifests(policy)
  {
    hide Admission, Manifests, TopologySnapshot.Valid, DateTime.Valid, DeriveKeyId;
    AdmissionExact(c, plan, policy, now);
    assert HopAdmissible(c, plan, Manifests(policy), Required(plan, policy), now, plan.hops[i]);
  }

  /** Past plan admission, the verifier reports exactly the faults of the receipts, once each. */
  lemma VerificationReasonsAre(c: Primitives, a: RouteAttestation, policy: AdmissionPolicy, now: DateTime)
    requires a.Valid() && policy.Valid() && Admission(c, a.plan, policy, now).admitted
    ensures a.plan.intent in policy.minimumEvidence
    ensures var d := Verification(c, a, policy, now, true);
            !d.admitted ==>
              && NoDuplicates(d.reasonCodes)
              && forall code :: code in d.reasonCodes <==>
                   || (code == ReceiptCountMismatch && |a.receipts| != |a.plan.hops|)
                   || (code == ExtraReceipt && |a.receipts| > |a.plan.hops|)
                   || exists i :: 0 <= i < Covered(a) && a.plan.hops[i] in Manifests(policy)
                        && FaultAt(c, a, policy, ExpectedDigests(c, a.plan, policy), policy.minimumEvidence[a.plan.intent], now, i, code)
  {
    hide Admission, VerificationReasons, ReceiptLevels, ExpectedDigests, FaultAt, Manifests, AttestationDigest, WeakestEvidence, Dedup,
         TopologySnapshot.Valid, DateTime.Valid, RoutePlan.Valid;
    AdmittedHasFloor(c, a.plan, policy, now);
    var required := policy.minimumEvidence[a.plan.intent];
    DedupKeepsFirst(VerificationReasons(c, a, policy, required, now));
    forall i | 0 <= i < Covered(a) ensures a.plan.hops[i] in Manifests(policy) { AdmittedHopsPinned(c, a.plan, policy, now, i); }
    forall code { VerificationMembers(c, a, policy, required, now, code); }
  }

  lemma AdmittedKeysBound(c: Primitives, plan: RoutePlan, policy: AdmissionPolicy, now: DateTime, i: nat)
    requires plan.Valid() && policy.Valid() && Admission(c, plan, policy, now).admitted && i < |plan.hops|
    ensures plan.hops[i] in Manifests(policy)
    ensures DeriveKeyId(c, Manifests(policy)[plan.hops[i]].publicKey) == Some(Manifests(policy)[plan.hops[i]].keyId)
  {
    hide Admission, Manifests, TopologySnapshot.Valid, DateTime.Valid, DeriveKeyId;
    AdmissionExact(c, plan, policy, now);
    assert HopAdmissible(c, plan, Manifests(policy), Required(plan, policy), now, plan.hops[i]);
  }

  lemma NoKeyFaultAt(c: Primitives, a: RouteAttestation, policy: AdmissionPolicy, e: Expected, required: EvidenceLevel,
                     now: DateTime, i: nat, code: Reason)
    requires a.Valid() && i < |a.receipts| && i < |a.plan.hops| && a.plan.hops[i] in Manifests(policy)
    requires DeriveKeyId(c, Manifests(policy)[a.plan.hops[i]].publicKey) == Some(Manifests(policy)[a.plan.hops[i]].keyId)
    requires FaultAt(c, a, policy, e, required, now, i, code)
    ensures !code.PeerUnknown? && code != ReceiptPublicKeyInvalid && code != ReceiptKeyBindingInvalid
  {
    hide Manifests, DeriveKeyId, VerifyEd25519, PayloadBytes, Predecessor, DateTime.Valid, RoutePlan.Valid, HopReceipt.Valid;
  }

  /** Three of the verifier's checks repeat what plan admission established and can never fail after it. */
  lemma RepeatedChecksNeverFail(c: Primitives, a: RouteAttestation, policy: AdmissionPolicy, now: DateTime, code: Reason)
    requires a.Valid() && policy.Valid() && Admission(c, a.plan, policy, now).admitted
    requires code in Verification(c, a, policy, now, true).reasonCodes
    ensures !code.PeerUnknown? && code != ReceiptPublicKeyInvalid && code != ReceiptKeyBindingInvalid
  {
    hide Admission, ExpectedDigests, FaultAt, Manifests, VerificationReasons, TopologySnapshot.Valid, DateTime.Valid, DeriveKeyId;
    VerificationReasonsAre(c, a, policy, now);
    VerifiedCodes(c, a, policy, now);
    hide Verification;
    if !Verification(c, a, policy, now, true).admitted && code != ReceiptCountMismatch && code != ExtraReceipt {
      var e, required := ExpectedDigests(c, a.plan, policy), policy.minimumEvidence[a.plan.intent];
      var i :| 0 <= i < Covered(a) && a.plan.hops[i] in Manifests(policy) && FaultAt(c, a, policy, e, required, now, i, code);
      AdmittedKeysBound(c, a.plan, policy, now, i);
      NoKeyFaultAt(c, a, policy, e, required, now, i, code);
    }
  }

  lemma VerifiedCodes(c: Primitives, a: RouteAttestation, policy: AdmissionPolicy, now: DateTime)
    requires a.Valid() && policy.Valid()
    ensures Verification(c, a, policy, now, true).admitted ==> Verification(c, a, policy, now, true).reasonCodes == [Admitted]
  {
    hide AdmissionReasons, VerificationReasons, ReceiptLevels, PlanDigest, PolicyDigest, TopologyDigest, AttestationDigest,
         WeakestEvidence, WidestScope, Dedup, TopologySnapshot.Valid, DateTime.Valid, RoutePlan.Valid;
  }

  // ---- The window of a verified route -----------------------------------------------------

  // What does not depend on the time of verification.
  ghost predicate HopFits(c: Primitives, plan: RoutePlan, peers: map<string, PeerManifest>, required: Option<EvidenceLevel>, id: string) {
    && id in peers
    && var p := peers[id];
       && !Wider(p.executionScope, plan.intent)
       && p.modelDigest == plan.modelDigest && p.runtimeDigest == plan.runtimeDigest
       && DeriveKeyId(c, p.publicKey) == Some(p.keyId)
       && (required.Some? ==> !BelowFloor(p.evidenceLevel, required.value))
  }

  ghost predicate TimelessAdmissible(c: Primitives, plan: RoutePlan, policy: AdmissionPolicy) {
    && plan.intent in policy.allowedIntents
    && |plan.hops| <= policy.maxHops && NoDuplicates(plan.hops)
    && (plan.intent == DeviceOnly ==> plan.hops == [policy.topology.localPeerId])
    && (forall i :: 0 <= i < |plan.hops| - 1 ==> (plan.hops[i], plan.hops[i + 1]) in AllowedEdges(policy.topology.edges))
    && Required(plan, policy) != Some(HardwareAttested)
    && (forall i :: 0 <= i < |plan.hops| ==> HopFits(c, plan, Manifests(policy), Required(plan, policy), plan.hops[i]))
  }

  ghost predicate HopOpen(peers: map<string, PeerManifest>, id: string, t: int) {
    id in peers && peers[id].validFrom.instant <= t < peers[id].expiresAt.instant
  }

  ghost predicate OpenAt(plan: RoutePlan, policy: AdmissionPolicy, t: int) {
    && plan.createdAt.instant <= t < plan.expiresAt.instant
    && policy.topology.capturedAt.instant <= t < policy.topology.expiresAt.instant
    && forall i :: 0 <= i < |plan.hops| ==> HopOpen(Manifests(policy), plan.hops[i], t)
  }

  lemma AdmissibleSplits(c: Primitives, plan: RoutePlan, policy: AdmissionPolicy, now: DateTime)
    ensures Admissible(c, plan, policy, now) <==> TimelessAdmissible(c, plan, policy) && OpenAt(plan, policy, now.instant)
  {
    hide DeriveKeyId, Manifests, AllowedEdges, Required, Wider, BelowFloor;
    var peers, required := Manifests(policy), Required(plan, policy);
    forall id ensures HopAdmissible(c, plan, peers, required, now, id) <==>
                      HopFits(c, plan, peers, required, id) && HopOpen(peers, id, now.instant) {}
    hide HopAdmissible, HopFits, HopOpen;
  }

  // Before every expiry that the route depends on.
  ghost predicate BeforeExpiry(plan: RoutePlan, policy: AdmissionPolicy, t: int) {
    && t < plan.expiresAt.instant && t < policy.topology.expiresAt.instant
    && forall i :: 0 <= i < |plan.hops| ==>
         plan.hops[i] in Manifests(policy) && t < Manifests(policy)[plan.hops[i]].expiresAt.instant
  }

  function LastObserved(a: RouteAttestation): int
    requires a.receipts != []
  {
    a.receipts[|a.receipts| - 1].body.observedAt.instant
  }

  lemma {:induction false} ReceiptTimesAscend(c: Primitives, a: RouteAttestation, policy: AdmissionPolicy, i: nat, j: nat)
    requires a.Valid() && policy.Valid() && ChainProves(c, a, policy)
    requires i <= j < |a.receipts|
    ensures a.receipts[i].body.observedAt.instant <= a.receipts[j].body.observedAt.instant
    decreases j
  {
    hide Bound, Signed, Evidenced, TopologySnapshot.Valid, DateTime.Valid, Manifests, ExpectedDigests;
    if i < j {
      ReceiptTimesAscend(c, a, policy, i, j - 1);
      assert Proves(c, a, policy, ExpectedDigests(c, a.plan, policy), policy.minimumEvidence[a.plan.intent], j);
    }
  }

  lemma ReceiptTimely(c: Primitives, a: RouteAttestation, policy: AdmissionPolicy, i: nat)
    requires a.Valid() && policy.Valid() && ChainProves(c, a, policy) && i < |a.receipts|
    ensures a.plan.hops[i] in Manifests(policy)
    ensures Timely(a.receipts[i].body.observedAt.instant, Earlier(a.receipts, i), a.plan, policy, Manifests(policy)[a.plan.hops[i]])
  {
    hide Bound, Signed, Evidenced, Timely, TopologySnapshot.Valid, DateTime.Valid, Manifests, ExpectedDigests;
    assert Proves(c, a, policy, ExpectedDigests(c, a.plan, policy), policy.minimumEvidence[a.plan.intent], i);
  }

  // At any time from the last receipt on, everything the route depends on has begun.
  lemma LastReceiptOpens(c: Primitives, a: RouteAttestation, policy: AdmissionPolicy, t: int)
    requires a.Valid() && policy.Valid() && ChainProves(c, a, policy) && LastObserved(a) <= t
    ensures OpenAt(a.plan, policy, t) <==> BeforeExpiry(a.plan, policy, t)
  {
    hide ChainProves, TopologySnapshot.Valid, DateTime.Valid, Manifests;
    ChainLength(c, a, policy);
    var n := |a.receipts| - 1;
    ReceiptTimely(c, a, policy, n);
    forall i | 0 <= i < |a.plan.hops|
      ensures a.plan.hops[i] in Manifests(policy) && Manifests(policy)[a.plan.hops[i]].validFrom.instant <= t
    {
      ReceiptTimely(c, a, policy, i);
      ReceiptTimesAscend(c, a, policy, i, n);
    }
  }

  lemma ChainLength(c: Primitives, a: RouteAttestation, policy: AdmissionPolicy)
    requires a.Valid() && policy.Valid() && ChainProves(c, a, policy)
    ensures |a.receipts| == |a.plan.hops| > 0
  {}

  /** A proving chain is admitted exactly from its last receipt to the first expiry it depends on. */
  lemma ExactWindow(c: Primitives, a: RouteAttestation, policy: AdmissionPolicy, now: DateTime)
    requires a.Valid() && policy.Valid()
    ensures Verification(c, a, policy, now, true).admitted <==>
            && TimelessAdmissible(c, a.plan, policy) && ChainProves(c, a, policy)
            && LastObserved(a) <= now.instant && BeforeExpiry(a.plan, policy, now.instant)
  {
    hide Verification, ChainProves, TimelessAdmissible, OpenAt, BeforeExpiry, Admissible, TopologySnapshot.Valid, DateTime.Valid;
    VerificationExact(c, a, policy, now, true);
    AdmissibleSplits(c, a.plan, policy, now);
    if ChainProves(c, a, policy) && LastObserved(a) <= now.instant {
      LastReceiptOpens(c, a, policy, now.instant);
      forall i | 0 <= i < |a.receipts| ensures a.receipts[i].body.observedAt.instant <= now.instant {
        ReceiptTimesAscend(c, a, policy, i, |a.receipts| - 1);
      }
    }
  }

  // ---- Well-formed decisions --------------------------------------------------------------

  lemma PlanReasonsNeverAdmit(c: Primitives, plan: RoutePlan, policy: AdmissionPolicy, now: DateTime)
    requires plan.Valid() && policy.Valid() && now.Valid()
    ensures Admission(c, plan, policy, now).Valid()
  {
    hide AdmissionReasons, PlanDigest, PolicyDigest, TopologyDigest, WidestScope, WeakestEvidence, Scopes, Levels, PeersById;
    hide TopologySnapshot.Valid, Violates, DateTime.Valid;
    var d := Admission(c, plan, policy, now);
    ReasonsExact(c, plan, policy, now);
    AdmissionShape(c, plan, policy, now);
    DedupKeepsFirst(AdmissionReasons(c, plan, policy, now));
    NeverViolated(c, plan, policy, now);
    if !d.admitted {
      assert AdmissionReasons(c, plan, policy, now)[0] in d.reasonCodes;
    }
  }

  lemma NeverViolated(c: Primitives, plan: RoutePlan, policy: AdmissionPolicy, now: DateTime)
    ensures !Violates(c, plan, policy, now, Admitted)
  {}

  lemma {:induction false} ReceiptReasonsNeverAdmit(start: seq<Reason>, c: Primitives, a: RouteAttestation, policy: AdmissionPolicy,
                                                    e: Expected, required: EvidenceLevel, now: DateTime, n: nat)
    requires a.Valid() && n <= |a.receipts| && n <= |a.plan.hops| && Admitted !in start
    ensures Admitted !in ReceiptReasons(start, c, a, policy, e, required, now, n)
  {
    hide PeersById, DateTime.Valid, Predecessor, BindingReasons, TimeReasons, KeyReasons;
    if n > 0 {
      var i := n - 1;
      ReceiptReasonsNeverAdmit(start, c, a, policy, e, required, now, i);
      var receipt, peer, previous := a.receipts[i], a.plan.hops[i], Predecessor(c, a.receipts, i);
      var r0 := ReceiptReasons(start, c, a, policy, e, required, now, i);
      BindingNeverAdmits(r0, receipt.body, a.plan, e, i, previous);
      if peer in Manifests(policy) {
        var m, t := Manifests(policy)[peer], receipt.body.observedAt.instant;
        var r1 := BindingReasons(r0, receipt.body, a.plan, e, i, previous);
        ChecksNeverAdmit(r1, c, receipt, t, Earlier(a.receipts, i), a.plan, policy, m, required, now);
      }
    }
  }

  lemma NotesNeverAdmit()
    ensures forall r, ok, x {:trigger Note(r, ok, x)} :: Admitted !in r && x != Admitted ==> Admitted !in Note(r, ok, x)
  {}

  lemma BindingNeverAdmits(r: seq<Reason>, b: Payload, plan: RoutePlan, e: Expected, i: nat, previous: Option<string>)
    requires i < |plan.hops| && Admitted !in r
    ensures Admitted !in BindingReasons(r, b, plan, e, i, previous)
  {
    NotesNeverAdmit();
    hide Note, PreviousPeer, NextPeer;
  }

  lemma ChecksNeverAdmit(r: seq<Reason>, c: Primitives, receipt: HopReceipt, t: int, earlier: Option<DateTime>, plan: RoutePlan,
                         policy: AdmissionPolicy, m: PeerManifest, required: EvidenceLevel, now: DateTime)
    requires receipt.body.observedAt.Valid() && Admitted !in r
    ensures Admitted !in KeyReasons(TimeReasons(r, t, earlier, plan, policy, m, now), c, receipt, m, required)
  {
    NotesNeverAdmit();
    hide Note, DeriveKeyId, VerifyEd25519, PayloadBytes, EvidenceRank, EffectiveEvidence, DateTime.Valid;
  }

  lemma DeniedIsValid(base: AdmissionDecision, reasons: seq<Reason>, checkedHops: int, digest: string)
    requires base.Valid() && reasons != [] && Admitted !in reasons && 0 <= checkedHops <= 64
    ensures Deny(base, reasons, checkedHops, digest).Valid()
  {
    hide DateTime.Valid;
    DedupKeepsFirst(reasons);
    assert reasons[0] in Dedup(reasons);
  }

  // Admitted and nothing else, or denied for a reason; with all digests either way.
  ghost predicate Explained(d: AdmissionDecision) {
    && (if d.admitted then d.reasonCodes == [Admitted] else d.reasonCodes != [] && Admitted !in d.reasonCodes)
    && d.routeDigest.Some? && d.policyDigest.Some? && d.topologyDigest.Some? && d.requestedIntent.Some?
    && (d.attestationDigest.Some? <==> d.kind == AttestationVerification)
    && 1 <= d.checkedHops <= 64
  }

  /** Every decision of the verifier satisfies the validator that `model_copy` skips. */
  lemma DecisionsWellFormed(c: Primitives, a: RouteAttestation, policy: AdmissionPolicy, now: DateTime, isNew: bool)
    requires a.Valid() && policy.Valid() && now.Valid()
    ensures Admission(c, a.plan, policy, now).Valid() && Verification(c, a, policy, now, isNew).Valid()
    ensures Verification(c, a, policy, now, isNew).kind == AttestationVerification
    ensures Verification(c, a, policy, now, isNew).attestationDigest == Some(AttestationDigest(c, a))
    ensures Explained(Admission(c, a.plan, policy, now)) && Explained(Verification(c, a, policy, now, isNew))
  {
    hide Admission, ReceiptReasons, ExpectedDigests, ReceiptLevels, WeakestEvidence, AttestationDigest, TopologySnapshot.Valid, DateTime.Valid;
    PlanReasonsNeverAdmit(c, a.plan, policy, now);
    var base := Admission(c, a.plan, policy, now);
    AdmissionSays(c, a.plan, policy, now);
    if base.admitted {
      AdmittedHasFloor(c, a.plan, policy, now);
      var required := policy.minimumEvidence[a.plan.intent];
      ReceiptReasonsNeverAdmit(Note([], |a.receipts| == |a.plan.hops|, ReceiptCountMismatch), c, a, policy,
                               ExpectedDigests(c, a.plan, policy), required, now, Covered(a));
      var reasons := VerificationReasons(c, a, policy, required, now);
      if reasons != [] {
        DeniedIsValid(base, reasons, Covered(a), AttestationDigest(c, a));
      } else if !isNew {
        DeniedIsValid(base, [ReplayDetected], |a.receipts|, AttestationDigest(c, a));
      }
    }
  }

  // ---- Evidence ---------------------------------------------------------------------------

  lemma {:induction false} ReceiptLevelsFull(a: RouteAttestation, peers: map<string, PeerManifest>, n: nat)
    requires n <= |a.receipts| && n <= |a.plan.hops| && forall i :: 0 <= i < n ==> a.plan.hops[i] in peers
    ensures |ReceiptLevels(a, peers, n)| == n
    ensures forall i :: 0 <= i < n ==> ReceiptLevels(a, peers, n)[i] == EffectiveEvidence(a.receipts[i].body.evidenceLevel)
  {
    if n > 0 {
      ReceiptLevelsFull(a, peers, n - 1);
    }
  }

  ghost predicate SomeClaim(a: RouteAttestation, e: EvidenceLevel) {
    exists i :: 0 <= i < |a.receipts| && a.receipts[i].body.evidenceLevel == e
  }

  lemma ProvedEvidence(c: Primitives, a: RouteAttestation, policy: AdmissionPolicy)
    requires a.Valid() && policy.Valid() && ChainProves(c, a, policy)
    ensures WeakestEvidence(ReceiptLevels(a, Manifests(policy), Covered(a)))
            == Some(if SomeClaim(a, Observed) then Observed else PeerAsserted)
  {
    hide Bound, Timely, Signed, Evidenced, TopologySnapshot.Valid, DateTime.Valid, PeersById, ExpectedDigests, WeakestEvidence, ReceiptLevels;
    var peers, n := Manifests(policy), |a.receipts|;
    forall i | 0 <= i < n ensures a.plan.hops[i] in peers {
      assert Proves(c, a, policy, ExpectedDigests(c, a.plan, policy), policy.minimumEvidence[a.plan.intent], i);
    }
    ReceiptLevelsFull(a, peers, n);
    var claims := seq(n, i requires 0 <= i < n => a.receipts[i].body.evidenceLevel);
    assert forall i :: 0 <= i < n ==> claims[i] == a.receipts[i].body.evidenceLevel;
    if i :| 0 <= i < n && a.receipts[i].body.evidenceLevel == Observed { assert claims[i] in claims; }
    WeakestIs(claims, ReceiptLevels(a, peers, n));
  }

  // ---- The whole decision -----------------------------------------------------------------

  lemma VerificationIs(c: Primitives, a: RouteAttestation, policy: AdmissionPolicy, now: DateTime, isNew: bool)
    requires a.Valid() && policy.Valid()
    ensures var base, d := Admission(c, a.plan, policy, now), Verification(c, a, policy, now, isNew);
            var named := base.(kind := AttestationVerification, attestationDigest := Some(Sha256Digest(c, AttestationJson(a))));
            && (!base.admitted ==> d == named && !Accepted(c, a, policy, now))
            && (base.admitted && !Accepted(c, a, policy, now) ==>
                  d == named.(admitted := false, reasonCodes := d.reasonCodes,
                              checkedHops := if |a.receipts| < |a.plan.hops| then |a.receipts| else |a.plan.hops|))
            && (Accepted(c, a, policy, now) && !isNew ==>
                  d == named.(admitted := false, reasonCodes := Dedup([ReplayDetected]), checkedHops := |a.receipts|))
            && (Accepted(c, a, policy, now) && isNew ==>
                  d == named.(effectiveEvidence := WeakestEvidence(ReceiptLevels(a, Manifests(policy), Covered(a)))))
  {
    hide Admission, Admissible, VerificationReasons, ReceiptLevels, Sha256Digest, AttestationJson, WeakestEvidence, Dedup,
         ChainProves, Manifests, TopologySnapshot.Valid, RoutePlan.Valid, DateTime.Valid;
    AdmissionExact(c, a.plan, policy, now);
    if Admission(c, a.plan, policy, now).admitted {
      AdmittedHasFloor(c, a.plan, policy, now);
      VerificationReasonsExact(c, a, policy, now);
    }
  }

  /** What the verifier returns, case by case: which fields it replaces in the decision on the plan. */
  lemma VerificationSays(c: Primitives, a: RouteAttestation, policy: AdmissionPolicy, now: DateTime, isNew: bool)
    requires a.Valid() && policy.Valid()
    ensures var base, d := Admission(c, a.plan, policy, now), Verification(c, a, policy, now, isNew);
            var named := base.(kind := AttestationVerification, attestationDigest := Some(Sha256Digest(c, AttestationJson(a))));
            d == if !base.admitted then named
                 else if !Accepted(c, a, policy, now) then
                   named.(admitted := false, reasonCodes := d.reasonCodes,
                          checkedHops := if |a.receipts| < |a.plan.hops| then |a.receipts| else |a.plan.hops|)
                 else if !isNew then
                   named.(admitted := false, reasonCodes := [ReplayDetected], checkedHops := |a.receipts|)
                 else named.(effectiveEvidence := Some(if SomeClaim(a, Observed) then Observed else PeerAsserted))
  {
    VerificationIs(c, a, policy, now, isNew);
    if Accepted(c, a, policy, now) { ProvedEvidence(c, a, policy); }
    DedupOne(ReplayDetected);
    hide *;
  }

  lemma DedupOne(r: Reason)
    ensures Dedup([r]) == [r]
  {
    assert [r][..0] == [];
  }

  /** What an admitted attestation says, hop by hop: each receipt names its place in the route, the request, the
      pinned policy and the complete receipt before it, and the pinned key signed all of that. */
  lemma VerifiedReceipt(c: Primitives, a: RouteAttestation, policy: AdmissionPolicy, now: DateTime, isNew: bool, i: nat)
    requires a.Valid() && policy.Valid() && Verification(c, a, policy, now, isNew).admitted && i < |a.plan.hops|
    ensures |a.receipts| == |a.plan.hops| && a.plan.hops[i] in Manifests(policy)
    ensures var p, b, m := a.plan, a.receipts[i].body, Manifests(policy)[a.plan.hops[i]];
            && b.requestId == p.requestId && b.nonce == p.nonce && b.requestCommitment == p.requestCommitment
            && b.routePlanDigest == PlanDigest(c, p) && b.policyDigest == PolicyDigest(c, policy)
            && b.topologyDigest == TopologyDigest(c, policy.topology) && b.intent == p.intent
            && b.hopIndex == i && b.hopCount == |p.hops| && b.peerId == p.hops[i]
            && b.previousPeerId == (if i == 0 then None else Some(p.hops[i - 1]))
            && b.nextPeerId == (if i == |p.hops| - 1 then None else Some(p.hops[i + 1]))
            && b.previousReceiptDigest == (if i == 0 then None else Some(Sha256Digest(c, ReceiptJson(a.receipts[i - 1]))))
            && b.modelDigest == p.modelDigest && b.runtimeDigest == p.runtimeDigest
            && b.keyId == m.keyId && VerifyEd25519(c, m.publicKey, CanonicalBytes(PayloadJson(b)), a.receipts[i].signature)
            && !Weaker(m.evidenceLevel, b.evidenceLevel) && b.observedAt.instant <= now.instant
  {
    hide Verification, Admissible, PlanDigest, PolicyDigest, TopologyDigest, Sha256Digest, CanonicalBytes, ReceiptJson, PayloadJson,
         VerifyEd25519, DeriveKeyId, PeersById, TopologySnapshot.Valid, RoutePlan.Valid, DateTime.Valid, Weaker, BelowFloor;
    VerificationExact(c, a, policy, now, isNew);
    assert Proves(c, a, policy, ExpectedDigests(c, a.plan, policy), policy.minimumEvidence[a.plan.intent], i);
  }

  // A hop pinned as merely observed can claim no more.
  lemma PromiseKept(c: Primitives, a: RouteAttestation, policy: AdmissionPolicy)
    requires a.Valid() && policy.Valid() && ChainProves(c, a, policy) && HopHasLevel(a.plan, policy, Observed)
    ensures SomeClaim(a, Observed)
  {
    hide Bound, Timely, Signed, TopologySnapshot.Valid, DateTime.Valid, Manifests, ExpectedDigests;
    var id, m :| HopPeer(a.plan, policy, id, m) && m.evidenceLevel == Observed;
    KnownPeers(a.plan, policy, id);
    var i :| 0 <= i < |a.plan.hops| && a.plan.hops[i] == id;
    assert Proves(c, a, policy, ExpectedDigests(c, a.plan, policy), policy.minimumEvidence[a.plan.intent], i);
  }

  lemma HopsKnown(c: Primitives, a: RouteAttestation, policy: AdmissionPolicy)
    requires a.Valid() && policy.Valid() && ChainProves(c, a, policy)
    ensures HopKnown(a.plan, policy)
  {
    hide Bound, Timely, Signed, Evidenced, TopologySnapshot.Valid, DateTime.Valid, Manifests, ExpectedDigests, HopPeer;
    assert Proves(c, a, policy, ExpectedDigests(c, a.plan, policy), policy.minimumEvidence[a.plan.intent], 0);
    KnownPeers(a.plan, policy, a.plan.hops[0]);
    assert HopPeer(a.plan, policy, a.plan.hops[0], Manifests(policy)[a.plan.hops[0]]);
  }

  lemma ClaimsReachFloor(c: Primitives, a: RouteAttestation, policy: AdmissionPolicy)
    requires a.Valid() && policy.Valid() && ChainProves(c, a, policy)
    ensures policy.minimumEvidence[a.plan.intent] != HardwareAttested
    ensures policy.minimumEvidence[a.plan.intent] == PeerAsserted ==> !SomeClaim(a, Observed)
  {
    hide Bound, Timely, Signed, TopologySnapshot.Valid, DateTime.Valid, Manifests, ExpectedDigests;
    forall i | 0 <= i < |a.receipts| ensures !BelowFloor(a.receipts[i].body.evidenceLevel, policy.minimumEvidence[a.plan.intent]) {
      assert Proves(c, a, policy, ExpectedDigests(c, a.plan, policy), policy.minimumEvidence[a.plan.intent], i);
    }
    assert !BelowFloor(a.receipts[0].body.evidenceLevel, policy.minimumEvidence[a.plan.intent]);
  }

  /** floor <= evidence proved by the receipts <= evidence promised at admission <= peer_asserted. */
  lemma EvidenceSandwich(c: Primitives, a: RouteAttestation, policy: AdmissionPolicy, now: DateTime)
    requires a.Valid() && policy.Valid() && Verification(c, a, policy, now, true).admitted
    ensures a.plan.intent in policy.minimumEvidence
    ensures var proved, promised := Verification(c, a, policy, now, true).effectiveEvidence, Admission(c, a.plan, policy, now).effectiveEvidence;
            && proved.Some? && promised.Some?
            && !Weaker(proved.value, policy.minimumEvidence[a.plan.intent])
            && !Weaker(promised.value, proved.value) && promised.value != HardwareAttested
  {
    hide Verification, Admission, Admissible, TopologySnapshot.Valid, RoutePlan.Valid, DateTime.Valid, SomeClaim, Proves,
         HopHasLevel, HopHasScope, HopKnown, Sha256Digest;
    VerificationExact(c, a, policy, now, true);
    VerificationSays(c, a, policy, now, true);
    AdmissionSays(c, a.plan, policy, now);
    ClaimsReachFloor(c, a, policy);
    HopsKnown(c, a, policy);
    if HopHasLevel(a.plan, policy, Observed) { PromiseKept(c, a, policy); }
  }
}

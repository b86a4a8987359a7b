/**
 The frozen contracts of src/locusmesh/models.py and the policy of src/locusmesh/policy.py:33-52,
 with their validators as `Valid`. Identifiers, digests and nonces are opaque strings.
 */
module Models {
  import opened Clock
  import opened Wrappers

  // device_only < private_mesh < public_mesh
  datatype ExecutionIntent = DeviceOnly | PrivateMesh | PublicMesh

  // observed < peer_asserted < hardware_attested
  datatype EvidenceLevel = Observed | PeerAsserted | HardwareAttested

  function ScopeRank(s: ExecutionIntent): int {
    match s
    case DeviceOnly => 0
    case PrivateMesh => 1
    case PublicMesh => 2
  }

  function EvidenceRank(e: EvidenceLevel): int {
    match e
    case Observed => 0
    case PeerAsserted => 1
    case HardwareAttested => 2
  }

  // `s` lets a request travel further than `t` does.
  ghost predicate Wider(s: ExecutionIntent, t: ExecutionIntent) {
    (s == PublicMesh && t != PublicMesh) || (s == PrivateMesh && t == DeviceOnly)
  }

  ghost predicate Weaker(e: EvidenceLevel, f: EvidenceLevel) {
    (e == Observed && f != Observed) || (e == PeerAsserted && f == HardwareAttested)
  }

  // A claim falls short of the floor; nothing verifies hardware evidence, so no claim reaches that floor.
  ghost predicate BelowFloor(claimed: EvidenceLevel, required: EvidenceLevel) {
    required == HardwareAttested || (required == PeerAsserted && claimed == Observed)
  }

  lemma ScopeRankMeans(s: ExecutionIntent, t: ExecutionIntent)
    ensures ScopeRank(s) <= ScopeRank(t) <==> !Wider(s, t)
  {}

  lemma EvidenceRankMeans(e: EvidenceLevel, f: EvidenceLevel)
    ensures EvidenceRank(e) <= EvidenceRank(f) <==> !Weaker(f, e)
    ensures EvidenceRank(f) <= EvidenceRank(EffectiveEvidence(e)) <==> !BelowFloor(e, f)
  {}

  // Hardware evidence has no verifier yet and counts as the peer's own word.
  function EffectiveEvidence(claimed: EvidenceLevel): EvidenceLevel {
    if claimed == HardwareAttested then PeerAsserted else claimed
  }

  datatype PeerManifest = PeerManifest(
    peerId: string, executionScope: ExecutionIntent, modelDigest: string, runtimeDigest: string,
    evidenceLevel: EvidenceLevel, keyId: string, publicKey: string,
    validFrom: DateTime, expiresAt: DateTime, addressHint: Option<string>)
  {
    predicate Valid() {
      validFrom.Valid() && expiresAt.Valid() && validFrom.instant < expiresAt.instant && |publicKey| == 43
    }
  }

  datatype TopologyEdge = TopologyEdge(source: string, target: string)

  datatype TopologySnapshot = TopologySnapshot(
    snapshotId: string, localPeerId: string, capturedAt: DateTime, expiresAt: DateTime,
    peers: seq<PeerManifest>, edges: seq<TopologyEdge>)
  {
    ghost predicate Valid() {
      && capturedAt.Valid() && expiresAt.Valid() && capturedAt.instant < expiresAt.instant
      && 1 <= |peers| <= 256 && |edges| <= 1024
      && (forall p :: p in peers ==> p.Valid())
      && (forall i, j :: 0 <= i < j < |peers| ==> peers[i].peerId != peers[j].peerId)
      && (forall i, j :: 0 <= i < j < |edges| ==> edges[i] != edges[j])
      && Knows(localPeerId)
      && (forall e :: e in edges ==> Knows(e.source) && Knows(e.target))
    }

    ghost predicate Knows(id: string) { exists i :: 0 <= i < |peers| && peers[i].peerId == id }
  }

  datatype AdmissionPolicy = AdmissionPolicy(
    allowedIntents: set<ExecutionIntent>, maxHops: int,
    minimumEvidence: map<ExecutionIntent, EvidenceLevel>, topology: TopologySnapshot)
  {
    ghost predicate Valid() {
      1 <= maxHops <= 64 && allowedIntents <= minimumEvidence.Keys && topology.Valid()
    }
  }

  datatype RoutePlan = RoutePlan(
    requestId: string, nonce: string, requestCommitment: string, intent: ExecutionIntent,
    modelDigest: string, runtimeDigest: string, hops: seq<string>,
    createdAt: DateTime, expiresAt: DateTime)
  {
    predicate Valid() {
      && 1 <= |hops| <= 64
      && createdAt.Valid() && expiresAt.Valid() && createdAt.instant < expiresAt.instant
    }
  }

  // What one hop signs: every field of the receipt but the signature.
  datatype Payload = Payload(
    requestId: string, nonce: string, requestCommitment: string,
    routePlanDigest: string, policyDigest: string, topologyDigest: string,
    intent: ExecutionIntent, hopIndex: int, hopCount: int, peerId: string,
    previousPeerId: Option<string>, nextPeerId: Option<string>, previousReceiptDigest: Option<string>,
    modelDigest: string, runtimeDigest: string, evidenceLevel: EvidenceLevel,
    observedAt: DateTime, keyId: string)

  datatype HopReceipt = HopReceipt(body: Payload, signature: string)
  {
    predicate Valid() {
      0 <= body.hopIndex <= 63 && 1 <= body.hopCount <= 64 && body.observedAt.Valid() && |signature| == 86
    }
  }

  datatype RouteAttestation = RouteAttestation(plan: RoutePlan, receipts: seq<HopReceipt>)
  {
    ghost predicate Valid() {
      plan.Valid() && 1 <= |receipts| <= 64 && forall i :: 0 <= i < |receipts| ==> receipts[i].Valid()
    }
  }

  // The receipt fields compared one by one (src/locusmesh/attestation.py:148-166).
  datatype BoundField =
    | RequestIdField | NonceField | RequestCommitmentField | RoutePlanDigestField | PolicyDigestField
    | TopologyDigestField | IntentField | HopIndexField | HopCountField | PeerIdField | PreviousPeerField
    | NextPeerField | PreviousReceiptDigestField | ModelDigestField | RuntimeDigestField

  datatype Reason =
    | Admitted
    | IntentNotAllowed | PlanNotYetValid | PlanExpired | TopologyNotYetValid | TopologyExpired
    | MaxHopsExceeded | DuplicatePeer | DeviceOnlyRequiresLocalSingleHop
    | EdgeNotAllowed(source: string, target: string)
    | HardwareAttestationUnsupported
    | PeerUnknown(peer: string) | PeerNotYetValid(peer: string) | PeerExpired(peer: string)
    | ScopeWidening(peer: string) | ModelDigestMismatch(peer: string) | RuntimeDigestMismatch(peer: string)
    | PeerPublicKeyInvalid(peer: string) | PeerKeyBindingInvalid(peer: string) | EvidenceBelowFloor(peer: string)
    | ReceiptCountMismatch | ExtraReceipt | ReceiptMismatch(field: BoundField)
    | ReceiptOutsidePlanWindow | ReceiptFromFuture | ReceiptOutsideTopologyWindow
    | ReceiptTimeReversed | ReceiptOutsidePeerWindow | ReceiptKeyIdMismatch
    | ReceiptPublicKeyInvalid | ReceiptKeyBindingInvalid | SignatureInvalid
    | ReceiptEvidenceExceedsManifest | ReceiptEvidenceBelowFloor
    | ReplayDetected

  datatype DecisionKind = PlanAdmission | AttestationVerification

  datatype AdmissionDecision = AdmissionDecision(
    kind: DecisionKind, admitted: bool, reasonCodes: seq<Reason>, evaluatedAt: DateTime, checkedHops: int,
    routeDigest: Option<string>, attestationDigest: Option<string>,
    policyDigest: Option<string>, topologyDigest: Option<string>,
    requestedIntent: Option<ExecutionIntent>, effectiveScope: Option<ExecutionIntent>,
    requiredEvidence: Option<EvidenceLevel>, effectiveEvidence: Option<EvidenceLevel>)
  {
    // `_decision_is_self_consistent` and the field bounds (src/locusmesh/models.py:342-382).
    predicate Valid() {
      && 0 <= checkedHops <= 64 && evaluatedAt.Valid()
      && (admitted ==>
            && reasonCodes == [Admitted]
            && routeDigest.Some? && policyDigest.Some? && topologyDigest.Some? && requestedIntent.Some?
            && (kind == AttestationVerification ==> attestationDigest.Some?))
      && (!admitted ==> reasonCodes != [] && Admitted !in reasonCodes)
      && (kind == PlanAdmission ==> attestationDigest.None?)
    }
  }
}

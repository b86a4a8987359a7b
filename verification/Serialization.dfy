/**
 The JSON dump of every contract that is digested or signed, each shown to determine its
 contract: equal sorted dumps come from equal plans, payloads, receipts and manifests.
 */
module Serialization {
  import opened CanonicalJson
  import opened Clock
  import opened Models
  import opened Ordering
  import opened Wrappers

  function IntentText(i: ExecutionIntent): string {
    match i
    case DeviceOnly => "device_only"
    case PrivateMesh => "private_mesh"
    case PublicMesh => "public_mesh"
  }

  function EvidenceText(e: EvidenceLevel): string {
    match e
    case Observed => "observed"
    case PeerAsserted => "peer_asserted"
    case HardwareAttested => "hardware_attested"
  }

  // The values that the enumerations accept.
  function IntentOf(s: string): Option<ExecutionIntent> {
    if s == "device_only" then Some(DeviceOnly)
    else if s == "private_mesh" then Some(PrivateMesh)
    else if s == "public_mesh" then Some(PublicMesh)
    else None
  }

  function EvidenceOf(s: string): Option<EvidenceLevel> {
    if s == "observed" then Some(Observed)
    else if s == "peer_asserted" then Some(PeerAsserted)
    else if s == "hardware_attested" then Some(HardwareAttested)
    else None
  }

  /** The dumped values load again. */
  lemma EnumsLoad(i: ExecutionIntent, e: EvidenceLevel)
    ensures IntentOf(IntentText(i)) == Some(i) && EvidenceOf(EvidenceText(e)) == Some(e)
  {
    assert "device_only"[0] != "private_mesh"[0] && "device_only"[0] != "public_mesh"[0];
    assert "private_mesh"[1] != "public_mesh"[1];
    assert "observed"[0] != "peer_asserted"[0] && "observed"[0] != "hardware_attested"[0];
    assert "peer_asserted"[0] != "hardware_attested"[0];
  }

  lemma IntentTextInjective(a: ExecutionIntent, b: ExecutionIntent)
    requires IntentText(a) == IntentText(b)
    ensures a == b
  {
    EnumsLoad(a, Observed);
    EnumsLoad(b, Observed);
  }

  lemma EvidenceTextInjective(a: EvidenceLevel, b: EvidenceLevel)
    requires EvidenceText(a) == EvidenceText(b)
    ensures a == b
  {
    EnumsLoad(DeviceOnly, a);
    EnumsLoad(DeviceOnly, b);
  }

  function OptionalText(o: Option<string>): Json { if o.None? then JNull else JStr(o.value) }

  function Texts(ss: seq<string>): Json {
    JArr(seq(|ss|, i requires 0 <= i < |ss| => JStr(ss[i])))
  }

  lemma TextsDecide(a: seq<string>, b: seq<string>)
    requires Normal(Texts(a)) == Normal(Texts(b))
    ensures a == b
  {
    NormalArrays(Texts(a).items, Texts(b).items);
    assert forall i :: 0 <= i < |a| ==> Texts(a).items[i] == JStr(a[i]);
    assert forall i :: 0 <= i < |b| ==> Texts(b).items[i] == JStr(b[i]);
    forall i | 0 <= i < |a| ensures a[i] == b[i] {
      assert Normal(Texts(a).items[i]) == Normal(Texts(b).items[i]);
    }
  }

  const PLAN_KEYS: seq<string> :=
    ["schema_version", "request_id", "nonce", "request_commitment", "intent", "model_digest",
     "runtime_digest", "hop_peer_ids", "created_at", "expires_at"]

  function PlanValues(p: RoutePlan): seq<Json>
    requires p.Valid()
  {
    [JStr("locusmesh.route-plan.v1"), JStr(p.requestId), JStr(p.nonce), JStr(p.requestCommitment),
     JStr(IntentText(p.intent)), JStr(p.modelDigest), JStr(p.runtimeDigest), Texts(p.hops),
     JStr(JsonTime(p.createdAt)), JStr(JsonTime(p.expiresAt))]
  }

  function PlanJson(p: RoutePlan): Json
    requires p.Valid()
  {
    Record(PLAN_KEYS, PlanValues(p))
  }

  lemma PlanJsonDecides(p: RoutePlan, q: RoutePlan)
    requires p.Valid() && q.Valid() && Normal(PlanJson(p)) == Normal(PlanJson(q))
    ensures p == q
  {
    hide JsonTime, DateTime.Valid, IntentText;
    var v, w := PlanValues(p), PlanValues(q);
    RecordDecides(PLAN_KEYS, v, w);
    assert Normal(v[1]) == Normal(w[1]) && Normal(v[2]) == Normal(w[2]) && Normal(v[3]) == Normal(w[3]);
    assert Normal(v[4]) == Normal(w[4]) && Normal(v[5]) == Normal(w[5]) && Normal(v[6]) == Normal(w[6]);
    assert Normal(v[7]) == Normal(w[7]) && Normal(v[8]) == Normal(w[8]) && Normal(v[9]) == Normal(w[9]);
    IntentTextInjective(p.intent, q.intent);
    TextsDecide(p.hops, q.hops);
    JsonTimeInjective(p.createdAt, q.createdAt);
    JsonTimeInjective(p.expiresAt, q.expiresAt);
  }

  ghost predicate HasMember(j: Json, key: string, value: Json) { j.JObj? && (key, value) in j.fields }

  lemma RecordMembers(keys: seq<string>, values: seq<Json>)
    requires |keys| == |values|
    ensures Record(keys, values).JObj? && |Record(keys, values).fields| == |keys|
    ensures forall i :: 0 <= i < |keys| ==> HasMember(Record(keys, values), keys[i], values[i])
  {
    var fs := Record(keys, values).fields;
    forall i | 0 <= i < |keys| ensures (keys[i], values[i]) in fs { assert fs[i] == (keys[i], values[i]); }
  }

  /** The members of a dumped plan. */
  lemma PlanDump(p: RoutePlan)
    requires p.Valid()
    ensures var j := PlanJson(p);
            && j.JObj? && |j.fields| == 10
            && HasMember(j, "schema_version", JStr("locusmesh.route-plan.v1")) && HasMember(j, "request_id", JStr(p.requestId))
            && HasMember(j, "nonce", JStr(p.nonce)) && HasMember(j, "request_commitment", JStr(p.requestCommitment))
            && HasMember(j, "intent", JStr(IntentText(p.intent))) && HasMember(j, "model_digest", JStr(p.modelDigest))
            && HasMember(j, "runtime_digest", JStr(p.runtimeDigest)) && HasMember(j, "hop_peer_ids", Texts(p.hops))
            && HasMember(j, "created_at", JStr(JsonTime(p.createdAt)))
            && HasMember(j, "expires_at", JStr(JsonTime(p.expiresAt)))
  {
    hide JsonTime, DateTime.Valid, IntentText, Texts, HasMember;
    var k, v := PLAN_KEYS, PlanValues(p);
    RecordMembers(k, v);
    hide Record;
    assert HasMember(PlanJson(p), k[0], v[0]) && HasMember(PlanJson(p), k[1], v[1]) && HasMember(PlanJson(p), k[2], v[2]);
    assert HasMember(PlanJson(p), k[3], v[3]) && HasMember(PlanJson(p), k[4], v[4]) && HasMember(PlanJson(p), k[5], v[5]);
    assert HasMember(PlanJson(p), k[6], v[6]) && HasMember(PlanJson(p), k[7], v[7]) && HasMember(PlanJson(p), k[8], v[8]);
    assert HasMember(PlanJson(p), k[9], v[9]);
  }

  const PAYLOAD_KEYS: seq<string> :=
    ["schema_version", "request_id", "nonce", "request_commitment", "route_plan_digest",
     "policy_digest", "topology_digest", "intent", "hop_index", "hop_count",
     "peer_id", "previous_peer_id", "next_peer_id", "previous_receipt_digest", "model_digest",
     "runtime_digest", "evidence_level", "observed_at", "key_id", "signature_algorithm"]

  function PayloadValues(b: Payload): (vs: seq<Json>)
    requires b.observedAt.Valid()
    ensures |vs| == |PAYLOAD_KEYS|
  {
    [JStr("locusmesh.hop-receipt.v1"), JStr(b.requestId), JStr(b.nonce), JStr(b.requestCommitment),
     JStr(b.routePlanDigest), JStr(b.policyDigest), JStr(b.topologyDigest), JStr(IntentText(b.intent)),
     JInt(b.hopIndex), JInt(b.hopCount), JStr(b.peerId),
     OptionalText(b.previousPeerId), OptionalText(b.nextPeerId), OptionalText(b.previousReceiptDigest),
     JStr(b.modelDigest), JStr(b.runtimeDigest), JStr(EvidenceText(b.evidenceLevel)),
     JStr(JsonTime(b.observedAt)), JStr(b.keyId), JStr("ed25519")]
  }

  // `signing_payload()`: the dump without the signature.
  function PayloadJson(b: Payload): Json
    requires b.observedAt.Valid()
  {
    Record(PAYLOAD_KEYS, PayloadValues(b))
  }

  function ReceiptJson(r: HopReceipt): Json
    requires r.body.observedAt.Valid()
  {
    Record(PAYLOAD_KEYS + ["signature"], PayloadValues(r.body) + [JStr(r.signature)])
  }

  ghost predicate SameValues(v: seq<Json>, w: seq<Json>) {
    |v| == |w| && forall i :: 0 <= i < |v| ==> Normal(v[i]) == Normal(w[i])
  }

  lemma PayloadHeadDecides(b: Payload, d: Payload)
    requires b.observedAt.Valid() && d.observedAt.Valid()
    requires SameValues(PayloadValues(b), PayloadValues(d))
    ensures b.requestId == d.requestId && b.nonce == d.nonce && b.requestCommitment == d.requestCommitment
    ensures b.routePlanDigest == d.routePlanDigest && b.policyDigest == d.policyDigest
    ensures b.topologyDigest == d.topologyDigest && b.intent == d.intent
    ensures b.hopIndex == d.hopIndex && b.hopCount == d.hopCount && b.peerId == d.peerId
  {
    hide JsonTime, DateTime.Valid, IntentText, EvidenceText;
    var v, w := PayloadValues(b), PayloadValues(d);
    assert Normal(v[1]) == Normal(w[1]) && Normal(v[2]) == Normal(w[2]) && Normal(v[3]) == Normal(w[3]);
    assert Normal(v[4]) == Normal(w[4]) && Normal(v[5]) == Normal(w[5]) && Normal(v[6]) == Normal(w[6]);
    assert Normal(v[7]) == Normal(w[7]) && Normal(v[8]) == Normal(w[8]) && Normal(v[9]) == Normal(w[9]);
    assert Normal(v[10]) == Normal(w[10]);
    IntentTextInjective(b.intent, d.intent);
  }

  lemma PayloadTailDecides(b: Payload, d: Payload)
    requires b.observedAt.Valid() && d.observedAt.Valid()
    requires SameValues(PayloadValues(b), PayloadValues(d))
    ensures b.previousPeerId == d.previousPeerId && b.nextPeerId == d.nextPeerId
    ensures b.previousReceiptDigest == d.previousReceiptDigest
    ensures b.modelDigest == d.modelDigest && b.runtimeDigest == d.runtimeDigest
    ensures b.evidenceLevel == d.evidenceLevel && b.observedAt == d.observedAt && b.keyId == d.keyId
  {
    hide JsonTime, DateTime.Valid, IntentText, EvidenceText;
    var v, w := PayloadValues(b), PayloadValues(d);
    assert Normal(v[11]) == Normal(w[11]) && Normal(v[12]) == Normal(w[12]);
    assert Normal(v[13]) == Normal(w[13]) && Normal(v[14]) == Normal(w[14]) && Normal(v[15]) == Normal(w[15]);
    assert Normal(v[16]) == Normal(w[16]) && Normal(v[17]) == Normal(w[17]) && Normal(v[18]) == Normal(w[18]);
    EvidenceTextInjective(b.evidenceLevel, d.evidenceLevel);
    JsonTimeInjective(b.observedAt, d.observedAt);
  }

  lemma PayloadJsonDecides(b: Payload, d: Payload)
    requires b.observedAt.Valid() && d.observedAt.Valid()
    requires Normal(PayloadJson(b)) == Normal(PayloadJson(d))
    ensures b == d
  {
    hide PayloadValues, DateTime.Valid;
    RecordDecides(PAYLOAD_KEYS, PayloadValues(b), PayloadValues(d));
    PayloadHeadDecides(b, d);
    PayloadTailDecides(b, d);
  }

  lemma ReceiptJsonDecides(r: HopReceipt, q: HopReceipt)
    requires r.body.observedAt.Valid() && q.body.observedAt.Valid()
    requires Normal(ReceiptJson(r)) == Normal(ReceiptJson(q))
    ensures r == q
  {
    hide PayloadValues, DateTime.Valid;
    var x, y := PayloadValues(r.body), PayloadValues(q.body);
    var v, w := x + [JStr(r.signature)], y + [JStr(q.signature)];
    RecordDecides(PAYLOAD_KEYS + ["signature"], v, w);
    forall i | 0 <= i < 20 ensures Normal(x[i]) == Normal(y[i]) {
      assert v[i] == x[i] && w[i] == y[i];
    }
    PayloadHeadDecides(r.body, q.body);
    PayloadTailDecides(r.body, q.body);
    assert Normal(v[20]) == Normal(w[20]);
  }

  /** The members that a hop signs. */
  lemma PayloadDump(b: Payload)
    requires b.observedAt.Valid()
    ensures var j := PayloadJson(b);
            && j.JObj? && |j.fields| == 20
            && HasMember(j, "schema_version", JStr("locusmesh.hop-receipt.v1")) && HasMember(j, "request_id", JStr(b.requestId))
            && HasMember(j, "nonce", JStr(b.nonce)) && HasMember(j, "request_commitment", JStr(b.requestCommitment))
            && HasMember(j, "route_plan_digest", JStr(b.routePlanDigest)) && HasMember(j, "policy_digest", JStr(b.policyDigest))
            && HasMember(j, "topology_digest", JStr(b.topologyDigest)) && HasMember(j, "intent", JStr(IntentText(b.intent)))
            && HasMember(j, "hop_index", JInt(b.hopIndex)) && HasMember(j, "hop_count", JInt(b.hopCount))
            && HasMember(j, "peer_id", JStr(b.peerId)) && HasMember(j, "previous_peer_id", OptionalText(b.previousPeerId))
            && HasMember(j, "next_peer_id", OptionalText(b.nextPeerId))
            && HasMember(j, "previous_receipt_digest", OptionalText(b.previousReceiptDigest))
            && HasMember(j, "model_digest", JStr(b.modelDigest)) && HasMember(j, "runtime_digest", JStr(b.runtimeDigest))
            && HasMember(j, "evidence_level", JStr(EvidenceText(b.evidenceLevel)))
            && HasMember(j, "observed_at", JStr(JsonTime(b.observedAt))) && HasMember(j, "key_id", JStr(b.keyId))
            && HasMember(j, "signature_algorithm", JStr("ed25519"))
  {
    hide JsonTime, DateTime.Valid, IntentText, EvidenceText, OptionalText, HasMember;
    var k, v := PAYLOAD_KEYS, PayloadValues(b);
    RecordMembers(k, v);
    hide Record;
    assert HasMember(PayloadJson(b), k[0], v[0]) && HasMember(PayloadJson(b), k[1], v[1]);
    assert HasMember(PayloadJson(b), k[2], v[2]) && HasMember(PayloadJson(b), k[3], v[3]);
    assert HasMember(PayloadJson(b), k[4], v[4]) && HasMember(PayloadJson(b), k[5], v[5]);
    assert HasMember(PayloadJson(b), k[6], v[6]) && HasMember(PayloadJson(b), k[7], v[7]);
    assert HasMember(PayloadJson(b), k[8], v[8]) && HasMember(PayloadJson(b), k[9], v[9]);
    assert HasMember(PayloadJson(b), k[10], v[10]) && HasMember(PayloadJson(b), k[11], v[11]);
    assert HasMember(PayloadJson(b), k[12], v[12]) && HasMember(PayloadJson(b), k[13], v[13]);
    assert HasMember(PayloadJson(b), k[14], v[14]) && HasMember(PayloadJson(b), k[15], v[15]);
    assert HasMember(PayloadJson(b), k[16], v[16]) && HasMember(PayloadJson(b), k[17], v[17]);
    assert HasMember(PayloadJson(b), k[18], v[18]) && HasMember(PayloadJson(b), k[19], v[19]);
  }

  /** A complete receipt is its signed payload and the signature. */
  lemma ReceiptDump(r: HopReceipt)
    requires r.body.observedAt.Valid()
    ensures ReceiptJson(r).JObj? && PayloadJson(r.body).JObj?
    ensures ReceiptJson(r).fields == PayloadJson(r.body).fields + [("signature", JStr(r.signature))]
  {
    hide PayloadValues, DateTime.Valid;
  }

  const ATTESTATION_KEYS: seq<string> := ["schema_version", "plan", "receipts"]

  function AttestationJson(a: RouteAttestation): Json
    requires a.Valid()
  {
    Record(ATTESTATION_KEYS, [JStr("locusmesh.route-attestation.v1"), PlanJson(a.plan), ReceiptList(a.receipts)])
  }

  function ReceiptList(rs: seq<HopReceipt>): Json
    requires forall i :: 0 <= i < |rs| ==> rs[i].body.observedAt.Valid()
  {
    JArr(seq(|rs|, i requires 0 <= i < |rs| => ReceiptJson(rs[i])))
  }

  /** The members of a dumped attestation. */
  lemma AttestationDump(a: RouteAttestation)
    requires a.Valid()
    ensures var j := AttestationJson(a);
            && j.JObj? && |j.fields| == 3
            && HasMember(j, "schema_version", JStr("locusmesh.route-attestation.v1")) && HasMember(j, "plan", PlanJson(a.plan))
            && HasMember(j, "receipts", ReceiptList(a.receipts))
  {
    hide PlanJson, ReceiptList, RoutePlan.Valid, HasMember;
    var k, v := ATTESTATION_KEYS, [JStr("locusmesh.route-attestation.v1"), PlanJson(a.plan), ReceiptList(a.receipts)];
    RecordMembers(k, v);
    hide Record;
    assert HasMember(AttestationJson(a), k[0], v[0]) && HasMember(AttestationJson(a), k[1], v[1]);
    assert HasMember(AttestationJson(a), k[2], v[2]);
  }

  lemma AttestationJsonDecides(a: RouteAttestation, b: RouteAttestation)
    requires a.Valid() && b.Valid() && Normal(AttestationJson(a)) == Normal(AttestationJson(b))
    ensures a == b
  {
    hide PlanJson, ReceiptJson, DateTime.Valid;
    var s := JStr("locusmesh.route-attestation.v1");
    var v, w := [s, PlanJson(a.plan), ReceiptList(a.receipts)], [s, PlanJson(b.plan), ReceiptList(b.receipts)];
    RecordDecides(ATTESTATION_KEYS, v, w);
    assert Normal(v[1]) == Normal(w[1]) && Normal(v[2]) == Normal(w[2]);
    PlanJsonDecides(a.plan, b.plan);
    var x, y := ReceiptList(a.receipts).items, ReceiptList(b.receipts).items;
    NormalArrays(x, y);
    forall i | 0 <= i < |x| ensures a.receipts[i] == b.receipts[i] {
      assert Normal(x[i]) == Normal(y[i]);
      ReceiptJsonDecides(a.receipts[i], b.receipts[i]);
    }
  }

  // ---- Policies and topologies: order-independent dumps ---------------------------------

  predicate PeerLe(p: PeerManifest, q: PeerManifest) { StrLe(p.peerId, q.peerId) }

  // Python's tuple order on (source, target).
  predicate EdgeLe(e: TopologyEdge, f: TopologyEdge) {
    if e.source == f.source then StrLe(e.target, f.target) else StrLe(e.source, f.source)
  }

  const PEER_KEYS: seq<string> :=
    ["schema_version", "peer_id", "execution_scope", "model_digest", "runtime_digest", "evidence_level",
     "key_id", "public_key", "valid_from", "expires_at", "address_hint"]

  function PeerValues(p: PeerManifest): seq<Json>
    requires p.Valid()
  {
    [JStr("locusmesh.peer-manifest.v1"), JStr(p.peerId), JStr(IntentText(p.executionScope)),
     JStr(p.modelDigest), JStr(p.runtimeDigest), JStr(EvidenceText(p.evidenceLevel)),
     JStr(p.keyId), JStr(p.publicKey), JStr(JsonTime(p.validFrom)), JStr(JsonTime(p.expiresAt)),
     OptionalText(p.addressHint)]
  }

  function PeerJson(p: PeerManifest): Json
    requires p.Valid()
  {
    Record(PEER_KEYS, PeerValues(p))
  }

  function PeerList(ps: seq<PeerManifest>): Json
    requires forall p :: p in ps ==> p.Valid()
  {
    JArr(seq(|ps|, i requires 0 <= i < |ps| => PeerJson(ps[i])))
  }

  /** The members of a dumped manifest. */
  lemma PeerDump(p: PeerManifest)
    requires p.Valid()
    ensures var j := PeerJson(p);
            && j.JObj? && |j.fields| == 11
            && HasMember(j, "schema_version", JStr("locusmesh.peer-manifest.v1")) && HasMember(j, "peer_id", JStr(p.peerId))
            && HasMember(j, "execution_scope", JStr(IntentText(p.executionScope)))
            && HasMember(j, "model_digest", JStr(p.modelDigest)) && HasMember(j, "runtime_digest", JStr(p.runtimeDigest))
            && HasMember(j, "evidence_level", JStr(EvidenceText(p.evidenceLevel))) && HasMember(j, "key_id", JStr(p.keyId))
            && HasMember(j, "public_key", JStr(p.publicKey)) && HasMember(j, "valid_from", JStr(JsonTime(p.validFrom)))
            && HasMember(j, "expires_at", JStr(JsonTime(p.expiresAt)))
            && HasMember(j, "address_hint", OptionalText(p.addressHint))
  {
    hide JsonTime, DateTime.Valid, IntentText, EvidenceText, OptionalText, HasMember;
    var k, v := PEER_KEYS, PeerValues(p);
    RecordMembers(k, v);
    hide Record;
    assert HasMember(PeerJson(p), k[0], v[0]) && HasMember(PeerJson(p), k[1], v[1]) && HasMember(PeerJson(p), k[2], v[2]);
    assert HasMember(PeerJson(p), k[3], v[3]) && HasMember(PeerJson(p), k[4], v[4]) && HasMember(PeerJson(p), k[5], v[5]);
    assert HasMember(PeerJson(p), k[6], v[6]) && HasMember(PeerJson(p), k[7], v[7]) && HasMember(PeerJson(p), k[8], v[8]);
    assert HasMember(PeerJson(p), k[9], v[9]) && HasMember(PeerJson(p), k[10], v[10]);
  }

  const EDGE_KEYS: seq<string> := ["schema_version", "source_peer_id", "target_peer_id"]

  function EdgeJson(e: TopologyEdge): Json {
    Record(EDGE_KEYS, [JStr("locusmesh.topology-edge.v1"), JStr(e.source), JStr(e.target)])
  }

  /** The members of a dumped edge. */
  lemma EdgeDump(e: TopologyEdge)
    ensures var j := EdgeJson(e);
            && j.JObj? && |j.fields| == 3
            && HasMember(j, "schema_version", JStr("locusmesh.topology-edge.v1"))
            && HasMember(j, "source_peer_id", JStr(e.source)) && HasMember(j, "target_peer_id", JStr(e.target))
  {
    hide HasMember;
    var k, v := EDGE_KEYS, [JStr("locusmesh.topology-edge.v1"), JStr(e.source), JStr(e.target)];
    RecordMembers(k, v);
    hide Record;
    assert HasMember(EdgeJson(e), k[0], v[0]) && HasMember(EdgeJson(e), k[1], v[1]) && HasMember(EdgeJson(e), k[2], v[2]);
  }

  function EdgeList(es: seq<TopologyEdge>): Json {
    JArr(seq(|es|, i requires 0 <= i < |es| => EdgeJson(es[i])))
  }

  lemma SortedPeersValid(t: TopologySnapshot)
    requires t.Valid()
    ensures forall p :: p in Sort(t.peers, PeerLe) ==> p.Valid()
  {
    hide PeerManifest.Valid;
    SortPermutes(t.peers, PeerLe);
    forall p | p in Sort(t.peers, PeerLe) ensures p in t.peers {
      assert p in multiset(Sort(t.peers, PeerLe));
    }
  }

  const TOPOLOGY_KEYS: seq<string> :=
    ["schema_version", "snapshot_id", "local_peer_id", "captured_at", "expires_at", "peers", "edges"]

  function TopologyValues(t: TopologySnapshot): seq<Json>
    requires t.Valid()
  {
    SortedPeersValid(t);
    [JStr("locusmesh.topology-snapshot.v1"), JStr(t.snapshotId), JStr(t.localPeerId),
     JStr(IsoFormat(t.capturedAt)), JStr(IsoFormat(t.expiresAt)),
     PeerList(Sort(t.peers, PeerLe)), EdgeList(Sort(t.edges, EdgeLe))]
  }

  // The dictionary that `topology_digest` hashes.
  function TopologyJson(t: TopologySnapshot): Json
    requires t.Valid()
  {
    Record(TOPOLOGY_KEYS, TopologyValues(t))
  }

  /** The members of the hashed topology, with peers and edges sorted. */
  lemma TopologyDump(t: TopologySnapshot)
    requires t.Valid()
    ensures forall p :: p in Sort(t.peers, PeerLe) ==> p.Valid()
    ensures var j := TopologyJson(t);
            && j.JObj? && |j.fields| == 7
            && HasMember(j, "schema_version", JStr("locusmesh.topology-snapshot.v1"))
            && HasMember(j, "snapshot_id", JStr(t.snapshotId)) && HasMember(j, "local_peer_id", JStr(t.localPeerId))
            && HasMember(j, "captured_at", JStr(IsoFormat(t.capturedAt)))
            && HasMember(j, "expires_at", JStr(IsoFormat(t.expiresAt)))
            && HasMember(j, "peers", PeerList(Sort(t.peers, PeerLe))) && HasMember(j, "edges", EdgeList(Sort(t.edges, EdgeLe)))
  {
    hide IsoFormat, DateTime.Valid, PeerManifest.Valid, PeerList, EdgeList, Sort, HasMember;
    SortedPeersValid(t);
    var k, v := TOPOLOGY_KEYS, TopologyValues(t);
    RecordMembers(k, v);
    hide Record;
    assert HasMember(TopologyJson(t), k[0], v[0]) && HasMember(TopologyJson(t), k[1], v[1]);
    assert HasMember(TopologyJson(t), k[2], v[2]) && HasMember(TopologyJson(t), k[3], v[3]);
    assert HasMember(TopologyJson(t), k[4], v[4]) && HasMember(TopologyJson(t), k[5], v[5]);
    assert HasMember(TopologyJson(t), k[6], v[6]);
  }

  // Snapshots that list the same peers and edges, in whatever order.
  ghost predicate SameTopology(t: TopologySnapshot, u: TopologySnapshot) {
    && t.snapshotId == u.snapshotId && t.localPeerId == u.localPeerId
    && t.capturedAt == u.capturedAt && t.expiresAt == u.expiresAt
    && multiset(t.peers) == multiset(u.peers) && multiset(t.edges) == multiset(u.edges)
  }

  lemma PeerJsonDecides(p: PeerManifest, q: PeerManifest)
    requires p.Valid() && q.Valid() && Normal(PeerJson(p)) == Normal(PeerJson(q))
    ensures p == q
  {
    hide JsonTime, DateTime.Valid, IntentText, EvidenceText;
    var v, w := PeerValues(p), PeerValues(q);
    RecordDecides(PEER_KEYS, v, w);
    assert Normal(v[1]) == Normal(w[1]) && Normal(v[2]) == Normal(w[2]) && Normal(v[3]) == Normal(w[3]);
    assert Normal(v[4]) == Normal(w[4]) && Normal(v[5]) == Normal(w[5]) && Normal(v[6]) == Normal(w[6]);
    assert Normal(v[7]) == Normal(w[7]) && Normal(v[8]) == Normal(w[8]) && Normal(v[9]) == Normal(w[9]);
    assert Normal(v[10]) == Normal(w[10]);
    IntentTextInjective(p.executionScope, q.executionScope);
    EvidenceTextInjective(p.evidenceLevel, q.evidenceLevel);
    JsonTimeInjective(p.validFrom, q.validFrom);
    JsonTimeInjective(p.expiresAt, q.expiresAt);
  }

  lemma PeerListDecides(ps: seq<PeerManifest>, qs: seq<PeerManifest>)
    requires forall p :: p in ps ==> p.Valid()
    requires forall q :: q in qs ==> q.Valid()
    requires Normal(PeerList(ps)) == Normal(PeerList(qs))
    ensures ps == qs
  {
    hide PeerJson, PeerManifest.Valid;
    var x, y := PeerList(ps).items, PeerList(qs).items;
    NormalArrays(x, y);
    forall i | 0 <= i < |x| ensures ps[i] == qs[i] {
      assert Normal(x[i]) == Normal(y[i]);
      PeerJsonDecides(ps[i], qs[i]);
    }
  }

  lemma EdgeListDecides(es: seq<TopologyEdge>, fs: seq<TopologyEdge>)
    requires Normal(EdgeList(es)) == Normal(EdgeList(fs))
    ensures es == fs
  {
    var x, y := EdgeList(es).items, EdgeList(fs).items;
    NormalArrays(x, y);
    forall i | 0 <= i < |x| ensures es[i] == fs[i] {
      assert Normal(x[i]) == Normal(y[i]);
      var s := JStr("locusmesh.topology-edge.v1");
      var v, w := [s, JStr(es[i].source), JStr(es[i].target)], [s, JStr(fs[i].source), JStr(fs[i].target)];
      RecordDecides(EDGE_KEYS, v, w);
      assert Normal(v[1]) == Normal(w[1]) && Normal(v[2]) == Normal(w[2]);
    }
  }

  lemma PeersSortCanonically(t: TopologySnapshot, u: TopologySnapshot)
    requires t.Valid()
    ensures Sort(t.peers, PeerLe) == Sort(u.peers, PeerLe) <==> multiset(t.peers) == multiset(u.peers)
  {
    hide PeerManifest.Valid, DateTime.Valid;
    PeerLeTotal();
    forall p, q | p in t.peers && q in t.peers && PeerLe(p, q) && PeerLe(q, p) ensures p == q {
      StrLeAntisymmetric(p.peerId, q.peerId);
      var i :| 0 <= i < |t.peers| && t.peers[i] == p;
      var j :| 0 <= j < |t.peers| && t.peers[j] == q;
      assert i < j || i == j || j < i;
    }
    SortCanonical(t.peers, u.peers, PeerLe);
  }

  lemma EdgeLeTotal()
    ensures TotalPreorder(EdgeLe)
    ensures forall e, f :: EdgeLe(e, f) && EdgeLe(f, e) ==> e == f
  {
    forall e, f ensures EdgeLe(e, f) || EdgeLe(f, e) {
      StrLeTotal(e.source, f.source);
      StrLeTotal(e.target, f.target);
    }
    forall e, f | EdgeLe(e, f) && EdgeLe(f, e) ensures e == f {
      if e.source == f.source {
        StrLeAntisymmetric(e.target, f.target);
      } else {
        StrLeAntisymmetric(e.source, f.source);
      }
    }
    forall e, f, g | EdgeLe(e, f) && EdgeLe(f, g) ensures EdgeLe(e, g) {
      EdgeLeTransitive(e, f, g);
    }
  }

  lemma EdgeLeTransitive(e: TopologyEdge, f: TopologyEdge, g: TopologyEdge)
    requires EdgeLe(e, f) && EdgeLe(f, g)
    ensures EdgeLe(e, g)
  {
    if e.source == f.source == g.source {
      StrLeTransitive(e.target, f.target, g.target);
    } else if e.source != f.source && f.source != g.source {
      StrLeTransitive(e.source, f.source, g.source);
      if e.source == g.source {
        StrLeAntisymmetric(e.source, f.source);
      }
    }
  }

  /** Peers are listed by ascending identifier, edges by ascending source and then target. */
  lemma TopologyOrder(t: TopologySnapshot)
    requires t.Valid()
    ensures var ps, es := Sort(t.peers, PeerLe), Sort(t.edges, EdgeLe);
            && multiset(ps) == multiset(t.peers) && multiset(es) == multiset(t.edges)
            && (forall i, j :: 0 <= i < j < |ps| ==> StrLe(ps[i].peerId, ps[j].peerId))
            && (forall i, j :: 0 <= i < j < |es| && es[i].source != es[j].source ==> StrLe(es[i].source, es[j].source))
            && (forall i, j :: 0 <= i < j < |es| && es[i].source == es[j].source ==> StrLe(es[i].target, es[j].target))
  {
    hide Sort, StrLe, TopologySnapshot.Valid;
    var ps, es := Sort(t.peers, PeerLe), Sort(t.edges, EdgeLe);
    SortPermutes(t.peers, PeerLe);
    SortPermutes(t.edges, EdgeLe);
    PeerLeTotal();
    EdgeLeTotal();
    SortSorts(t.peers, PeerLe);
    SortSorts(t.edges, EdgeLe);
    assert forall i, j :: 0 <= i < j < |ps| ==> PeerLe(ps[i], ps[j]);
    assert forall i, j :: 0 <= i < j < |es| ==> EdgeLe(es[i], es[j]);
  }

  lemma PeerLeTotal()
    ensures TotalPreorder(PeerLe)
  {
    forall p, q ensures PeerLe(p, q) || PeerLe(q, p) { StrLeTotal(p.peerId, q.peerId); }
    forall p, q, r | PeerLe(p, q) && PeerLe(q, r) ensures PeerLe(p, r) {
      StrLeTransitive(p.peerId, q.peerId, r.peerId);
    }
  }

  /** The topology dump forgets the order of peers and edges and nothing else. */
  lemma TopologyJsonDecides(t: TopologySnapshot, u: TopologySnapshot)
    requires t.Valid() && u.Valid()
    ensures Normal(TopologyJson(t)) == Normal(TopologyJson(u)) <==> SameTopology(t, u)
  {
    hide IsoFormat, PeerManifest.Valid, DateTime.Valid, PeerList, EdgeList, Sort;
    PeersSortCanonically(t, u);
    EdgeLeTotal();
    SortCanonical(t.edges, u.edges, EdgeLe);
    if Normal(TopologyJson(t)) == Normal(TopologyJson(u)) {
      var v, w := TopologyValues(t), TopologyValues(u);
      RecordDecides(TOPOLOGY_KEYS, v, w);
      assert Normal(v[1]) == Normal(w[1]) && Normal(v[2]) == Normal(w[2]) && Normal(v[3]) == Normal(w[3]);
      assert Normal(v[4]) == Normal(w[4]) && Normal(v[5]) == Normal(w[5]) && Normal(v[6]) == Normal(w[6]);
      IsoFormatInjective(t.capturedAt, u.capturedAt);
      IsoFormatInjective(t.expiresAt, u.expiresAt);
      SortedPeersValid(t);
      SortedPeersValid(u);
      PeerListDecides(Sort(t.peers, PeerLe), Sort(u.peers, PeerLe));
      EdgeListDecides(Sort(t.edges, EdgeLe), Sort(u.edges, EdgeLe));
    }
  }

  // `sorted` over the intents' values; the three values are listed in string order.
  function SortedIntents(s: set<ExecutionIntent>): seq<ExecutionIntent> {
    (if DeviceOnly in s then [DeviceOnly] else [])
    + (if PrivateMesh in s then [PrivateMesh] else [])
    + (if PublicMesh in s then [PublicMesh] else [])
  }

  function IntentTexts(s: set<ExecutionIntent>): seq<string> {
    var r := SortedIntents(s);
    seq(|r|, i requires 0 <= i < |r| => IntentText(r[i]))
  }

  lemma SortedIntentsMember(s: set<ExecutionIntent>, i: ExecutionIntent)
    ensures i in SortedIntents(s) <==> i in s
  {
    match i {
      case DeviceOnly =>
      case PrivateMesh =>
      case PublicMesh =>
    }
  }

  lemma SortedIntentsMembers(s: set<ExecutionIntent>)
    ensures forall i :: i in SortedIntents(s) <==> i in s
    ensures NoDuplicates(SortedIntents(s))
  {
    forall i ensures i in SortedIntents(s) <==> i in s { SortedIntentsMember(s, i); }
  }

  lemma IntentOrder(a: ExecutionIntent, b: ExecutionIntent)
    requires a.DeviceOnly? || b.PublicMesh? || a == b
    ensures StrLe(IntentText(a), IntentText(b))
  {
    assert StrLe("device_only", "private_mesh");
    assert StrLe("private_mesh", "public_mesh");
    assert StrLe("device_only", "public_mesh");
    if a == b { StrLeTotal(IntentText(a), IntentText(b)); }
  }

  lemma SortedIntentsSorts(s: set<ExecutionIntent>)
    ensures Sorted(StrLe, IntentTexts(s))
  {
    hide StrLe, IntentText;
    var r, t := SortedIntents(s), IntentTexts(s);
    forall i, j | 0 <= i < j < |t| ensures StrLe(t[i], t[j]) {
      IntentOrder(r[i], r[j]);
    }
  }

  lemma IntentTextsDecide(s: set<ExecutionIntent>, t: set<ExecutionIntent>)
    requires IntentTexts(s) == IntentTexts(t)
    ensures s == t
  {
    SortedIntentsMembers(s);
    SortedIntentsMembers(t);
    var u, v := SortedIntents(s), SortedIntents(t);
    assert |u| == |IntentTexts(s)| == |v|;
    forall i | 0 <= i < |u| ensures u[i] == v[i] {
      assert IntentTexts(s)[i] == IntentTexts(t)[i];
      IntentTextInjective(u[i], v[i]);
    }
    assert u == v;
  }

  function FloorField(m: map<ExecutionIntent, EvidenceLevel>, i: ExecutionIntent): (string, Json)
    requires i in m
  {
    (IntentText(i), JStr(EvidenceText(m[i])))
  }

  function Floors(m: map<ExecutionIntent, EvidenceLevel>): seq<(string, Json)> {
    SortedIntentsMembers(m.Keys);
    var r := SortedIntents(m.Keys);
    seq(|r|, k requires 0 <= k < |r| => assert r[k] in r; FloorField(m, r[k]))
  }

  lemma FloorsKeys(m: map<ExecutionIntent, EvidenceLevel>)
    ensures DistinctKeys(Floors(m))
    ensures forall i :: i in m ==> FloorField(m, i) in Floors(m)
    ensures forall k :: 0 <= k < |Floors(m)| ==> exists i :: i in m && Floors(m)[k] == FloorField(m, i)
  {
    hide IntentText, EvidenceText;
    SortedIntentsMembers(m.Keys);
    var r, f := SortedIntents(m.Keys), Floors(m);
    assert forall k :: 0 <= k < |r| ==> r[k] in r && f[k] == FloorField(m, r[k]);
    forall k, l | 0 <= k < l < |f| ensures f[k].0 != f[l].0 {
      if f[k].0 == f[l].0 { IntentTextInjective(r[k], r[l]); }
    }
    forall i | i in m ensures FloorField(m, i) in f {
      var k :| 0 <= k < |r| && r[k] == i;
      assert f[k] == FloorField(m, i);
    }
  }

  /** The floors are dumped under the texts of their intents. */
  lemma FloorsDump(m: map<ExecutionIntent, EvidenceLevel>, key: string, value: Json)
    ensures HasMember(JObj(Floors(m)), key, value) <==>
            exists i :: i in m && key == IntentText(i) && value == JStr(EvidenceText(m[i]))
  {
    hide IntentText, EvidenceText, Floors;
    FloorsKeys(m);
    if HasMember(JObj(Floors(m)), key, value) {
      var k :| 0 <= k < |Floors(m)| && Floors(m)[k] == (key, value);
      var i :| i in m && Floors(m)[k] == FloorField(m, i);
      assert key == IntentText(i);
    }
    if i :| i in m && key == IntentText(i) && value == JStr(EvidenceText(m[i])) {
      assert FloorField(m, i) == (key, value);
    }
  }

  lemma FloorCovered(m: map<ExecutionIntent, EvidenceLevel>, n: map<ExecutionIntent, EvidenceLevel>, i: ExecutionIntent)
    requires i in m && NormalField(FloorField(m, i)) in NormalFields(Floors(n))
    ensures i in n && n[i] == m[i]
  {
    hide IntentText, EvidenceText, Floors;
    FloorsKeys(n);
    var g := NormalFields(Floors(n));
    var k :| 0 <= k < |g| && g[k] == NormalField(FloorField(m, i));
    var j :| j in n && Floors(n)[k] == FloorField(n, j);
    assert g[k] == NormalField(FloorField(n, j)) == FloorField(n, j);
    assert g[k] == FloorField(m, i);
    IntentTextInjective(i, j);
    EvidenceTextInjective(m[i], n[j]);
  }

  lemma FloorsCovered(m: map<ExecutionIntent, EvidenceLevel>, n: map<ExecutionIntent, EvidenceLevel>, i: ExecutionIntent)
    requires Normal(JObj(Floors(m))) == Normal(JObj(Floors(n))) && i in m
    ensures i in n && n[i] == m[i]
  {
    hide IntentText, EvidenceText, Floors, FloorField, KeysIn, DistinctKeys, Normal, NormalField, NormalFields;
    FloorsKeys(m);
    FloorsKeys(n);
    NormalObjects(Floors(m), Floors(n));
    var k :| 0 <= k < |Floors(m)| && Floors(m)[k] == FloorField(m, i);
    FloorCovered(m, n, i);
  }

  lemma FloorsDecide(m: map<ExecutionIntent, EvidenceLevel>, n: map<ExecutionIntent, EvidenceLevel>)
    requires Normal(JObj(Floors(m))) == Normal(JObj(Floors(n)))
    ensures m == n
  {
    hide *;
    forall i | i in m ensures i in n && n[i] == m[i] { FloorsCovered(m, n, i); }
    forall i | i in n ensures i in m && m[i] == n[i] { FloorsCovered(n, m, i); }
  }

  const POLICY_KEYS: seq<string> :=
    ["schema_version", "allowed_intents", "max_hops", "minimum_evidence", "topology_digest"]

  function PolicyValues(p: AdmissionPolicy, topologyDigest: string): seq<Json> {
    [JStr("locusmesh.admission-policy.v1"), Texts(IntentTexts(p.allowedIntents)), JInt(p.maxHops),
     JObj(Floors(p.minimumEvidence)), JStr(topologyDigest)]
  }

  // The dictionary that `policy_digest` hashes.
  function PolicyJson(p: AdmissionPolicy, topologyDigest: string): Json {
    Record(POLICY_KEYS, PolicyValues(p, topologyDigest))
  }

  /** The members of the hashed policy. */
  lemma PolicyDump(p: AdmissionPolicy, topologyDigest: string)
    ensures var j := PolicyJson(p, topologyDigest);
            && j.JObj? && |j.fields| == 5
            && HasMember(j, "schema_version", JStr("locusmesh.admission-policy.v1"))
            && HasMember(j, "allowed_intents", Texts(IntentTexts(p.allowedIntents)))
            && HasMember(j, "max_hops", JInt(p.maxHops)) && HasMember(j, "minimum_evidence", JObj(Floors(p.minimumEvidence)))
            && HasMember(j, "topology_digest", JStr(topologyDigest))
  {
    hide IntentTexts, Floors, Texts, HasMember;
    var k, v := POLICY_KEYS, PolicyValues(p, topologyDigest);
    RecordMembers(k, v);
    hide Record;
    assert HasMember(PolicyJson(p, topologyDigest), k[0], v[0]) && HasMember(PolicyJson(p, topologyDigest), k[1], v[1]);
    assert HasMember(PolicyJson(p, topologyDigest), k[2], v[2]) && HasMember(PolicyJson(p, topologyDigest), k[3], v[3]);
    assert HasMember(PolicyJson(p, topologyDigest), k[4], v[4]);
  }

  lemma PolicyJsonDecides(p: AdmissionPolicy, d: string, q: AdmissionPolicy, e: string)
    ensures Normal(PolicyJson(p, d)) == Normal(PolicyJson(q, e)) <==>
            && p.allowedIntents == q.allowedIntents && p.maxHops == q.maxHops
            && p.minimumEvidence == q.minimumEvidence && d == e
  {
    hide IntentTexts, Floors, Texts;
    if Normal(PolicyJson(p, d)) == Normal(PolicyJson(q, e)) {
      var v, w := PolicyValues(p, d), PolicyValues(q, e);
      RecordDecides(POLICY_KEYS, v, w);
      assert Normal(v[1]) == Normal(w[1]) && Normal(v[2]) == Normal(w[2]);
      assert Normal(v[3]) == Normal(w[3]) && Normal(v[4]) == Normal(w[4]);
      TextsDecide(IntentTexts(p.allowedIntents), IntentTexts(q.allowedIntents));
      IntentTextsDecide(p.allowedIntents, q.allowedIntents);
      FloorsDecide(p.minimumEvidence, q.minimumEvidence);
    }
  }
}

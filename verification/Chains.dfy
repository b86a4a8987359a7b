/**
 The chain as evidence: a shared receipt forces a shared history, honest single-signing keys
 force agreement, built chains verify, and listing order never reaches a verdict.
 */
module ChainTheorems {
  import opened Clock
  import opened Crypto
  import opened Models
  import opened Ordering
  import opened Policy
  import opened AdmissionTheorems
  import opened Attestation
  import opened VerificationTheorems
  import opened Serialization
  import opened Utf8
  import opened Wrappers
  import CanonicalJson

  // Everything hashed while one attestation is verified.
  ghost function Hashed(c: Primitives, a: RouteAttestation, p: AdmissionPolicy): set<seq<Byte>>
    requires a.Valid() && p.Valid()
  {
    {CanonicalBytes(PlanJson(a.plan))} + PolicyTexts(c, p) + ReceiptTexts(a.receipts)
  }

  ghost function ReceiptTexts(rs: seq<HopReceipt>): set<seq<Byte>>
    requires forall i :: 0 <= i < |rs| ==> rs[i].Valid()
  {
    set i | 0 <= i < |rs| :: ReceiptBytes(rs[i])
  }

  ghost function ReceiptBytes(r: HopReceipt): seq<Byte>
    requires r.Valid()
  {
    CanonicalBytes(ReceiptJson(r))
  }

  lemma ReceiptDigestDecides(c: Primitives, r: HopReceipt, q: HopReceipt)
    requires r.body.observedAt.Valid() && q.body.observedAt.Valid()
    requires CollisionFree(c, {CanonicalBytes(ReceiptJson(r)), CanonicalBytes(ReceiptJson(q))})
    requires ReceiptDigest(c, r) == ReceiptDigest(c, q)
    ensures r == q
  {
    hide CanonicalBytes, ReceiptJson, DateTime.Valid, Sha256Digest;
    DigestDecides(c, ReceiptJson(r), ReceiptJson(q));
    ReceiptJsonDecides(r, q);
  }

  // The body of a proving receipt is the one its position in the route dictates.
  lemma ProvedBody(c: Primitives, a: RouteAttestation, p: AdmissionPolicy, i: nat)
    requires a.Valid() && p.Valid() && ChainProves(c, a, p) && i < |a.receipts|
    ensures i < |a.plan.hops| && Bound(c, a, ExpectedDigests(c, a.plan, p), i)
    ensures a.plan.hops[i] in Manifests(p) && Signed(c, a.receipts[i], Manifests(p)[a.plan.hops[i]])
  {
    hide Bound, Signed, Timely, Evidenced, ExpectedDigests, Manifests, DateTime.Valid, TopologySnapshot.Valid;
    assert Proves(c, a, p, ExpectedDigests(c, a.plan, p), p.minimumEvidence[a.plan.intent], i);
  }

  lemma ProvedFields(c: Primitives, a: RouteAttestation, p: AdmissionPolicy, i: nat)
    requires a.Valid() && p.Valid() && ChainProves(c, a, p) && i < |a.receipts|
    ensures var b := a.receipts[i].body;
            && b.hopIndex == i && b.routePlanDigest == PlanDigest(c, a.plan) && b.policyDigest == PolicyDigest(c, p)
            && b.previousReceiptDigest == Predecessor(c, a.receipts, i)
  {
    hide ChainProves, Predecessor, PlanDigest, PolicyDigest, TopologyDigest, Manifests, DateTime.Valid, TopologySnapshot.Valid, Signed;
    ProvedBody(c, a, p, i);
  }

  lemma {:induction false} LinkedBack(c: Primitives, a: RouteAttestation, p: AdmissionPolicy,
                                      b: RouteAttestation, q: AdmissionPolicy, i: nat)
    requires a.Valid() && p.Valid() && b.Valid() && q.Valid()
    requires ChainProves(c, a, p) && ChainProves(c, b, q)
    requires CollisionFree(c, ReceiptTexts(a.receipts) + ReceiptTexts(b.receipts))
    requires i < |a.receipts| && i < |b.receipts| && a.receipts[i] == b.receipts[i]
    ensures forall k :: 0 <= k <= i ==> a.receipts[k] == b.receipts[k]
  {
    hide ChainProves, CanonicalBytes, ReceiptJson, DateTime.Valid, TopologySnapshot.Valid, ReceiptDigest, PlanDigest, PolicyDigest;
    if i > 0 {
      ProvedFields(c, a, p, i);
      ProvedFields(c, b, q, i);
      assert a.receipts[i - 1].Valid() && b.receipts[i - 1].Valid();
      ReceiptDigestDecides(c, a.receipts[i - 1], b.receipts[i - 1]);
      LinkedBack(c, a, p, b, q, i - 1);
    }
  }

  /** Two proving chains that share a receipt share the plan, the policy and all that led to it. */
  lemma CommonReceiptCommonHistory(c: Primitives, a: RouteAttestation, p: AdmissionPolicy, now: DateTime,
                                   b: RouteAttestation, q: AdmissionPolicy, later: DateTime, i: nat, j: nat)
    requires a.Valid() && p.Valid() && b.Valid() && q.Valid()
    requires Verification(c, a, p, now, true).admitted && Verification(c, b, q, later, true).admitted
    requires CollisionFree(c, Hashed(c, a, p) + Hashed(c, b, q))
    requires i < |a.receipts| && j < |b.receipts| && a.receipts[i] == b.receipts[j]
    ensures i == j && a.plan == b.plan && SamePolicy(p, q)
    ensures a.receipts[..i + 1] == b.receipts[..i + 1]
  {
    hide Verification, ChainProves, TimelessAdmissible, BeforeExpiry, CanonicalBytes, ReceiptJson, PlanJson, DateTime.Valid,
         TopologySnapshot.Valid, RoutePlan.Valid, PlanDigest, PolicyDigest, SamePolicy, ReceiptTexts, PolicyTexts, Predecessor;
    ExactWindow(c, a, p, now);
    ExactWindow(c, b, q, later);
    ProvedFields(c, a, p, i);
    ProvedFields(c, b, q, j);
    LinkedBack(c, a, p, b, q, i);
    PlanDigestDecides(c, a.plan, b.plan);
    PolicyDigestCanonical(c, p, q);
  }

  // ---- Agreement under single signing ------------------------------------------------------

  lemma PayloadBytesDecide(b: Payload, d: Payload)
    requires b.observedAt.Valid() && d.observedAt.Valid() && PayloadBytes(b) == PayloadBytes(d)
    ensures b == d
  {
    hide PayloadJson, DateTime.Valid, CanonicalJson.RenderOnto, CanonicalJson.Normal, Utf8.Encode;
    EncodeInjective(CanonicalJson.CanonicalText(PayloadJson(b)), CanonicalJson.CanonicalText(PayloadJson(d)));
    CanonicalJson.CanonicalTextInjective(PayloadJson(b), PayloadJson(d));
    PayloadJsonDecides(b, d);
  }

  // What each key ever signed: (public key, message).
  type Ledger = iset<(string, seq<Byte>)>

  ghost predicate Unforgeable(c: Primitives, ledger: Ledger, publicKey: string) {
    forall message: seq<Byte>, signature: string :: VerifyEd25519(c, publicKey, message, signature) ==> (publicKey, message) in ledger
  }

  // The key signs at most one payload per route plan and position.
  ghost predicate SignsOnce(ledger: Ledger, publicKey: string) {
    forall b: Payload, d: Payload :: b.observedAt.Valid() && d.observedAt.Valid()
      && (publicKey, PayloadBytes(b)) in ledger && (publicKey, PayloadBytes(d)) in ledger
      && b.routePlanDigest == d.routePlanDigest && b.hopIndex == d.hopIndex
      ==> PayloadBytes(b) == PayloadBytes(d)
  }

  lemma ProvedPayload(c: Primitives, a: RouteAttestation, p: AdmissionPolicy, ledger: Ledger, i: nat)
    requires a.Valid() && p.Valid() && ChainProves(c, a, p) && i < |a.receipts|
    requires forall id :: id in Manifests(p) ==> Unforgeable(c, ledger, Manifests(p)[id].publicKey)
    ensures i < |a.plan.hops| && a.plan.hops[i] in Manifests(p) && a.receipts[i].body.observedAt.Valid()
    ensures (Manifests(p)[a.plan.hops[i]].publicKey, PayloadBytes(a.receipts[i].body)) in ledger
  {
    hide ChainProves, Bound, PayloadBytes, Manifests, DateTime.Valid, TopologySnapshot.Valid, VerifyEd25519, DeriveKeyId;
    ProvedBody(c, a, p, i);
    assert a.receipts[i].Valid();
    var key := Manifests(p)[a.plan.hops[i]].publicKey;
    assert Unforgeable(c, ledger, key);
  }

  /** Keys that sign once per position leave no room for two histories of one plan. */
  lemma SingleSigningAgreement(c: Primitives, a: RouteAttestation, b: RouteAttestation, p: AdmissionPolicy,
                               now: DateTime, later: DateTime, ledger: Ledger, i: nat)
    requires a.Valid() && b.Valid() && p.Valid() && a.plan == b.plan
    requires Verification(c, a, p, now, true).admitted && Verification(c, b, p, later, true).admitted
    requires forall id :: id in Manifests(p) ==> Unforgeable(c, ledger, Manifests(p)[id].publicKey)
    requires forall id :: id in Manifests(p) ==> SignsOnce(ledger, Manifests(p)[id].publicKey)
    requires CollisionFree(c, ReceiptTexts(a.receipts) + ReceiptTexts(b.receipts))
    requires i < |a.plan.hops|
    ensures |a.receipts| == |b.receipts| == |a.plan.hops|
    ensures a.receipts[i].body == b.receipts[i].body
    ensures i + 1 < |a.plan.hops| ==> a.receipts[i] == b.receipts[i]
  {
    hide Verification, ChainProves, TimelessAdmissible, BeforeExpiry, ReceiptTexts, DateTime.Valid, TopologySnapshot.Valid,
         Manifests, Unforgeable, SignsOnce;
    ExactWindow(c, a, p, now);
    ExactWindow(c, b, p, later);
    ChainLength(c, a, p);
    ChainLength(c, b, p);
    SamePayload(c, a, b, p, ledger, i);
    if i + 1 < |a.plan.hops| {
      SamePayload(c, a, b, p, ledger, i + 1);
      SamePredecessor(c, a, b, p, i);
    }
  }

  lemma SamePayload(c: Primitives, a: RouteAttestation, b: RouteAttestation, p: AdmissionPolicy, ledger: Ledger, i: nat)
    requires a.Valid() && b.Valid() && p.Valid() && a.plan == b.plan && ChainProves(c, a, p) && ChainProves(c, b, p)
    requires forall id :: id in Manifests(p) ==> Unforgeable(c, ledger, Manifests(p)[id].publicKey)
    requires forall id :: id in Manifests(p) ==> SignsOnce(ledger, Manifests(p)[id].publicKey)
    requires i < |a.receipts| && i < |b.receipts|
    ensures a.receipts[i].body == b.receipts[i].body
  {
    hide ChainProves, DateTime.Valid, TopologySnapshot.Valid, Manifests, Unforgeable, PayloadBytes, PlanDigest, PolicyDigest, Predecessor;
    ProvedPayload(c, a, p, ledger, i);
    ProvedPayload(c, b, p, ledger, i);
    ProvedFields(c, a, p, i);
    ProvedFields(c, b, p, i);
    var key := Manifests(p)[a.plan.hops[i]].publicKey;
    assert SignsOnce(ledger, key);
    PayloadBytesDecide(a.receipts[i].body, b.receipts[i].body);
  }

  lemma SamePredecessor(c: Primitives, a: RouteAttestation, b: RouteAttestation, p: AdmissionPolicy, i: nat)
    requires a.Valid() && b.Valid() && p.Valid() && ChainProves(c, a, p) && ChainProves(c, b, p)
    requires CollisionFree(c, ReceiptTexts(a.receipts) + ReceiptTexts(b.receipts))
    requires i + 1 < |a.receipts| && i + 1 < |b.receipts| && a.receipts[i + 1].body == b.receipts[i + 1].body
    ensures a.receipts[i] == b.receipts[i]
  {
    hide ChainProves, CanonicalBytes, ReceiptJson, DateTime.Valid, TopologySnapshot.Valid, ReceiptDigest, PlanDigest, PolicyDigest;
    ProvedFields(c, a, p, i + 1);
    ProvedFields(c, b, p, i + 1);
    assert a.receipts[i].Valid() && b.receipts[i].Valid();
    ReceiptDigestDecides(c, a.receipts[i], b.receipts[i]);
  }

  // ---- Listing order ----------------------------------------------------------------------

  lemma {:induction false} ReceiptReasonsReordered(start: seq<Reason>, c: Primitives, a: RouteAttestation, p: AdmissionPolicy,
      q: AdmissionPolicy, e: Expected, required: EvidenceLevel, now: DateTime, n: nat)
    requires a.Valid() && n <= |a.receipts| && n <= |a.plan.hops|
    requires Manifests(p) == Manifests(q)
    requires p.topology.capturedAt == q.topology.capturedAt && p.topology.expiresAt == q.topology.expiresAt
    ensures ReceiptReasons(start, c, a, p, e, required, now, n) == ReceiptReasons(start, c, a, q, e, required, now, n)
  {
    hide Manifests, BindingReasons, KeyReasons, Note, Predecessor, DateTime.Valid;
    if n > 0 {
      ReceiptReasonsReordered(start, c, a, p, q, e, required, now, n - 1);
    }
  }

  /** Permuting the pinned peers and edges leaves every verification decision identical. */
  lemma OrderNeverReachesVerdict(c: Primitives, a: RouteAttestation, p: AdmissionPolicy, q: AdmissionPolicy, now: DateTime, isNew: bool)
    requires a.Valid() && p.Valid() && q.Valid() && SamePolicy(p, q)
    ensures Verification(c, a, p, now, isNew) == Verification(c, a, q, now, isNew)
  {
    hide Admission, Manifests, ReceiptReasons, ReceiptLevels, PlanDigest, PolicyDigest, TopologyDigest, AttestationDigest, Dedup,
         WeakestEvidence, DateTime.Valid, TopologySnapshot.Valid;
    OrderNeverMatters(c, a.plan, p, q, now);
    SameManifests(p, q);
    SameDigests(c, p, q);
    if Admission(c, a.plan, p, now).admitted {
      AdmittedHasFloor(c, a.plan, p, now);
      var required := p.minimumEvidence[a.plan.intent];
      ReceiptReasonsReordered(Note([], |a.receipts| == |a.plan.hops|, ReceiptCountMismatch), c, a, p, q,
                              ExpectedDigests(c, a.plan, p), required, now, Covered(a));
    }
  }
}

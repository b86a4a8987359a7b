/**
 Fail-closed route admission and the order-independent digests (src/locusmesh/policy.py).
 `AdmitPlan` is the loop of the code; `Violates` and `Admissible` say declaratively which
 reasons it reports and when it reports none.
 */
module Policy {
  import opened Clock
  import opened Crypto
  import opened Models
  import opened Ordering
  import opened Serialization
  import opened Utf8
  import opened Wrappers
  import CanonicalJson

  // ---- Digests --------------------------------------------------------------------------

  function PlanDigest(c: Primitives, plan: RoutePlan): string
    requires plan.Valid()
  {
    Sha256Digest(c, PlanJson(plan))
  }

  function TopologyDigest(c: Primitives, t: TopologySnapshot): string
    requires t.Valid()
  {
    Sha256Digest(c, TopologyJson(t))
  }

  function PolicyDigest(c: Primitives, p: AdmissionPolicy): string
    requires p.Valid()
  {
    Sha256Digest(c, PolicyJson(p, TopologyDigest(c, p.topology)))
  }

  // The byte strings hashed for one policy.
  ghost function PolicyTexts(c: Primitives, p: AdmissionPolicy): set<seq<Byte>>
    requires p.Valid()
  {
    {CanonicalBytes(TopologyJson(p.topology)), CanonicalBytes(PolicyJson(p, TopologyDigest(c, p.topology)))}
  }

  // Policies equal as sets and maps, over topologies equal up to listing order.
  ghost predicate SamePolicy(p: AdmissionPolicy, q: AdmissionPolicy) {
    && p.allowedIntents == q.allowedIntents && p.maxHops == q.maxHops
    && p.minimumEvidence == q.minimumEvidence && SameTopology(p.topology, q.topology)
  }

  /** The topology digest ignores listing order and nothing else. */
  lemma TopologyDigestCanonical(c: Primitives, t: TopologySnapshot, u: TopologySnapshot)
    requires t.Valid() && u.Valid()
    requires CollisionFree(c, {CanonicalBytes(TopologyJson(t)), CanonicalBytes(TopologyJson(u))})
    ensures TopologyDigest(c, t) == TopologyDigest(c, u) <==> SameTopology(t, u)
  {
    hide Sha256Digest, CanonicalBytes, TopologyJson, SameTopology, TopologySnapshot.Valid;
    TopologyJsonDecides(t, u);
    DigestDecides(c, TopologyJson(t), TopologyJson(u));
  }

  /** The policy digest ignores set, map and listing order and nothing else. */
  lemma PolicyDigestCanonical(c: Primitives, p: AdmissionPolicy, q: AdmissionPolicy)
    requires p.Valid() && q.Valid()
    requires CollisionFree(c, PolicyTexts(c, p) + PolicyTexts(c, q))
    ensures PolicyDigest(c, p) == PolicyDigest(c, q) <==> SamePolicy(p, q)
  {
    hide Sha256Digest, CanonicalBytes, TopologyJson, PolicyJson, SameTopology, TopologySnapshot.Valid, TopologyDigest;
    var d, e := TopologyDigest(c, p.topology), TopologyDigest(c, q.topology);
    TopologyDigestCanonical(c, p.topology, q.topology);
    PolicyJsonDecides(p, d, q, e);
    DigestDecides(c, PolicyJson(p, d), PolicyJson(q, e));
  }

  lemma PlanDigestDecides(c: Primitives, p: RoutePlan, q: RoutePlan)
    requires p.Valid() && q.Valid()
    requires CollisionFree(c, {CanonicalBytes(PlanJson(p)), CanonicalBytes(PlanJson(q))})
    ensures PlanDigest(c, p) == PlanDigest(c, q) <==> p == q
  {
    hide Sha256Digest, CanonicalBytes, PlanJson, RoutePlan.Valid;
    DigestDecides(c, PlanJson(p), PlanJson(q));
    if PlanDigest(c, p) == PlanDigest(c, q) {
      PlanJsonDecides(p, q);
    }
  }

  // ---- Lookups and lists ----------------------------------------------------------------

  // `{peer.peer_id: peer for peer in peers}`: a later entry replaces an earlier one.
  function PeersById(peers: seq<PeerManifest>): map<string, PeerManifest> {
    if peers == [] then map[]
    else
      var last := peers[|peers| - 1];
      PeersById(peers[..|peers| - 1])[last.peerId := last]
  }

  // `m` is the index of `peers` by identifier.
  ghost predicate Indexes(m: map<string, PeerManifest>, peers: seq<PeerManifest>) {
    && (forall p :: p in peers ==> p.peerId in m && m[p.peerId] == p)
    && (forall id :: id in m ==> m[id] in peers && m[id].peerId == id)
  }

  lemma IndexOneMore(m: map<string, PeerManifest>, peers: seq<PeerManifest>, last: PeerManifest)
    requires Indexes(m, peers) && forall p :: p in peers ==> p.peerId != last.peerId
    ensures Indexes(m[last.peerId := last], peers + [last])
  {}

  lemma {:induction false} PeersByIdDistinct(peers: seq<PeerManifest>)
    requires forall i, j :: 0 <= i < j < |peers| ==> peers[i].peerId != peers[j].peerId
    ensures Indexes(PeersById(peers), peers)
  {
    if peers != [] {
      var rest, last := peers[..|peers| - 1], peers[|peers| - 1];
      PeersByIdDistinct(rest);
      hide Indexes;
      forall p | p in rest ensures p.peerId != last.peerId {
        var i :| 0 <= i < |rest| && rest[i] == p;
        assert peers[i].peerId != peers[|peers| - 1].peerId;
      }
      IndexOneMore(PeersById(rest), rest, last);
      assert peers == rest + [last];
    }
  }

  function AllowedEdges(edges: seq<TopologyEdge>): set<(string, string)> {
    set e | e in edges :: (e.source, e.target)
  }

  // `if not ok: reasons.append(reason)`
  function Note(reasons: seq<Reason>, ok: bool, reason: Reason): seq<Reason> {
    if ok then reasons else reasons + [reason]
  }

  // `tuple(dict.fromkeys(s))`
  function Dedup<T(==)>(s: seq<T>): seq<T> {
    if s == [] then []
    else
      var rest, last := Dedup(s[..|s| - 1]), s[|s| - 1];
      if last in rest then rest else rest + [last]
  }

  function FirstIndex<T(==)>(s: seq<T>, x: T): (i: nat)
    requires x in s
    ensures i < |s| && s[i] == x && x !in s[..i]
  {
    if s[0] == x then 0 else 1 + FirstIndex(s[1..], x)
  }

  /** Deduplication keeps each element once, in the order of first appearance. */
  lemma {:induction false} DedupKeepsFirst<T>(s: seq<T>)
    ensures NoDuplicates(Dedup(s))
    ensures forall x :: x in Dedup(s) <==> x in s
    ensures forall i, j :: 0 <= i < j < |Dedup(s)| ==> FirstIndex(s, Dedup(s)[i]) < FirstIndex(s, Dedup(s)[j])
  {
    if s != [] {
      var rest, last := s[..|s| - 1], s[|s| - 1];
      DedupKeepsFirst(rest);
      assert s == rest + [last];
      forall x | x in rest ensures FirstIndex(s, x) == FirstIndex(rest, x) {
        FirstIndexUnique(s, x, FirstIndex(rest, x));
      }
      if last !in rest {
        FirstIndexUnique(s, last, |rest|);
      }
    }
  }

  lemma FirstIndexUnique<T>(s: seq<T>, x: T, k: nat)
    requires k < |s| && s[k] == x && x !in s[..k]
    ensures FirstIndex(s, x) == k
  {
    var i := FirstIndex(s, x);
    assert forall m :: 0 <= m < k ==> s[..k][m] == s[m];
    assert forall m :: 0 <= m < i ==> s[..i][m] == s[m];
  }

  function WidestScope(scopes: seq<ExecutionIntent>): Option<ExecutionIntent> {
    if scopes == [] then None
    else
      var rest, last := WidestScope(scopes[..|scopes| - 1]), scopes[|scopes| - 1];
      if rest.Some? && ScopeRank(rest.value) >= ScopeRank(last) then rest else Some(last)
  }

  function WeakestEvidence(levels: seq<EvidenceLevel>): Option<EvidenceLevel> {
    if levels == [] then None
    else
      var rest, last := WeakestEvidence(levels[..|levels| - 1]), levels[|levels| - 1];
      if rest.Some? && EvidenceRank(rest.value) <= EvidenceRank(last) then rest else Some(last)
  }

  lemma {:induction false} WidestScopeIsMax(scopes: seq<ExecutionIntent>)
    ensures WidestScope(scopes).Some? <==> scopes != []
    ensures scopes != [] ==> WidestScope(scopes).value in scopes
    ensures forall s :: s in scopes ==> !Wider(s, WidestScope(scopes).value)
  {
    if scopes != [] {
      WidestScopeIsMax(scopes[..|scopes| - 1]);
      assert scopes == scopes[..|scopes| - 1] + [scopes[|scopes| - 1]];
    }
  }

  lemma {:induction false} WeakestEvidenceIsMin(levels: seq<EvidenceLevel>)
    ensures WeakestEvidence(levels).Some? <==> levels != []
    ensures levels != [] ==> WeakestEvidence(levels).value in levels
    ensures forall e :: e in levels ==> !Weaker(e, WeakestEvidence(levels).value)
  {
    if levels != [] {
      WeakestEvidenceIsMin(levels[..|levels| - 1]);
      assert levels == levels[..|levels| - 1] + [levels[|levels| - 1]];
    }
  }

  // ---- Admission ------------------------------------------------------------------------

  function Required(plan: RoutePlan, policy: AdmissionPolicy): Option<EvidenceLevel> {
    if plan.intent in policy.minimumEvidence then Some(policy.minimumEvidence[plan.intent]) else None
  }

  predicate LocalSingleHop(plan: RoutePlan, policy: AdmissionPolicy) {
    |plan.hops| == 1 && plan.hops[0] == policy.topology.localPeerId
  }

  // The checks before the route is walked.
  function ClauseReasons(plan: RoutePlan, policy: AdmissionPolicy, now: DateTime): seq<Reason> {
    var r := Note([], plan.intent in policy.allowedIntents, IntentNotAllowed);
    var r := Note(r, plan.createdAt.instant <= now.instant, PlanNotYetValid);
    var r := Note(r, now.instant < plan.expiresAt.instant, PlanExpired);
    var r := Note(r, policy.topology.capturedAt.instant <= now.instant, TopologyNotYetValid);
    var r := Note(r, now.instant < policy.topology.expiresAt.instant, TopologyExpired);
    var r := Note(r, |plan.hops| <= policy.maxHops, MaxHopsExceeded);
    var r := Note(r, |plan.hops| == |set h | h in plan.hops|, DuplicatePeer);
    Note(r, plan.intent == DeviceOnly ==> LocalSingleHop(plan, policy), DeviceOnlyRequiresLocalSingleHop)
  }

  // The first `n` adjacent pairs of the route against the directed edges.
  function EdgeReasons(start: seq<Reason>, hops: seq<string>, edges: set<(string, string)>, n: nat): seq<Reason>
    requires n < |hops| || n == 0
  {
    if n == 0 then start
    else Note(EdgeReasons(start, hops, edges, n - 1), (hops[n - 1], hops[n]) in edges, EdgeNotAllowed(hops[n - 1], hops[n]))
  }

  function PeerReasons(r: seq<Reason>, c: Primitives, plan: RoutePlan, peer: PeerManifest, id: string,
                       required: Option<EvidenceLevel>, now: DateTime): seq<Reason>
  {
    var r := Note(r, peer.validFrom.instant <= now.instant, PeerNotYetValid(id));
    var r := Note(r, now.instant < peer.expiresAt.instant, PeerExpired(id));
    var r := Note(r, ScopeRank(peer.executionScope) <= ScopeRank(plan.intent), ScopeWidening(id));
    var r := Note(r, peer.modelDigest == plan.modelDigest, ModelDigestMismatch(id));
    var r := Note(r, peer.runtimeDigest == plan.runtimeDigest, RuntimeDigestMismatch(id));
    var key := DeriveKeyId(c, peer.publicKey);
    var r := Note(r, key.Some?, PeerPublicKeyInvalid(id));
    var r := Note(r, key.Some? ==> key.value == peer.keyId, PeerKeyBindingInvalid(id));
    Note(r, MeetsFloor(peer.evidenceLevel, required), EvidenceBelowFloor(id))
  }

  predicate MeetsFloor(claimed: EvidenceLevel, required: Option<EvidenceLevel>) {
    required.Some? ==> EvidenceRank(required.value) <= EvidenceRank(EffectiveEvidence(claimed))
  }

  // The first `n` hops against their manifests.
  function HopReasons(start: seq<Reason>, c: Primitives, plan: RoutePlan, peers: map<string, PeerManifest>,
                      required: Option<EvidenceLevel>, now: DateTime, n: nat): seq<Reason>
    requires n <= |plan.hops|
  {
    if n == 0 then start
    else
      var r, id := HopReasons(start, c, plan, peers, required, now, n - 1), plan.hops[n - 1];
      if id in peers then PeerReasons(r, c, plan, peers[id], id, required, now) else r + [PeerUnknown(id)]
  }

  function Pairs(hops: seq<string>): nat { if hops == [] then 0 else |hops| - 1 }

  function AdmissionReasons(c: Primitives, plan: RoutePlan, policy: AdmissionPolicy, now: DateTime): seq<Reason> {
    var r := ClauseReasons(plan, policy, now);
    var r := EdgeReasons(r, plan.hops, AllowedEdges(policy.topology.edges), Pairs(plan.hops));
    var r := Note(r, Required(plan, policy) != Some(HardwareAttested), HardwareAttestationUnsupported);
    HopReasons(r, c, plan, PeersById(policy.topology.peers), Required(plan, policy), now, |plan.hops|)
  }

  // The manifests found along the first `n` hops.
  function RouteManifests(hops: seq<string>, peers: map<string, PeerManifest>, n: nat): seq<PeerManifest>
    requires n <= |hops|
  {
    if n == 0 then []
    else
      var r, id := RouteManifests(hops, peers, n - 1), hops[n - 1];
      if id in peers then r + [peers[id]] else r
  }

  function Scopes(ms: seq<PeerManifest>): seq<ExecutionIntent> {
    seq(|ms|, i requires 0 <= i < |ms| => ms[i].executionScope)
  }

  function Levels(ms: seq<PeerManifest>): seq<EvidenceLevel> {
    seq(|ms|, i requires 0 <= i < |ms| => EffectiveEvidence(ms[i].evidenceLevel))
  }

  // What `admit_plan` returns.
  function Admission(c: Primitives, plan: RoutePlan, policy: AdmissionPolicy, now: DateTime): AdmissionDecision
    requires plan.Valid() && policy.Valid()
  {
    var reasons := AdmissionReasons(c, plan, policy, now);
    var route := RouteManifests(plan.hops, PeersById(policy.topology.peers), |plan.hops|);
    AdmissionDecision(
      PlanAdmission, reasons == [], if reasons == [] then [Admitted] else Dedup(reasons), now, |plan.hops|,
      Some(PlanDigest(c, plan)), None, Some(PolicyDigest(c, policy)), Some(TopologyDigest(c, policy.topology)),
      Some(plan.intent), WidestScope(Scopes(route)), Required(plan, policy), WeakestEvidence(Levels(route)))
  }

  method CheckClauses(plan: RoutePlan, policy: AdmissionPolicy, now: DateTime) returns (reasons: seq<Reason>)
    ensures reasons == ClauseReasons(plan, policy, now)
  {
    hide LocalSingleHop;
    reasons := [];
    if plan.intent !in policy.allowedIntents { reasons := reasons + [IntentNotAllowed]; }
    if now.instant < plan.createdAt.instant { reasons := reasons + [PlanNotYetValid]; }
    if now.instant >= plan.expiresAt.instant { reasons := reasons + [PlanExpired]; }
    if now.instant < policy.topology.capturedAt.instant { reasons := reasons + [TopologyNotYetValid]; }
    if now.instant >= policy.topology.expiresAt.instant { reasons := reasons + [TopologyExpired]; }
    if |plan.hops| > policy.maxHops { reasons := reasons + [MaxHopsExceeded]; }
    if |plan.hops| != |set h | h in plan.hops| { reasons := reasons + [DuplicatePeer]; }
    if plan.intent == DeviceOnly && !LocalSingleHop(plan, policy) { reasons := reasons + [DeviceOnlyRequiresLocalSingleHop]; }
  }

  // The body of the second loop for a known peer.
  method CheckPeer(start: seq<Reason>, c: Primitives, plan: RoutePlan, peer: PeerManifest, id: string,
                   required: Option<EvidenceLevel>, now: DateTime)
    returns (reasons: seq<Reason>)
    ensures reasons == PeerReasons(start, c, plan, peer, id, required, now)
  {
    hide DeriveKeyId, ScopeRank, EvidenceRank, EffectiveEvidence;
    reasons := start;
    if now.instant < peer.validFrom.instant { reasons := reasons + [PeerNotYetValid(id)]; }
    if now.instant >= peer.expiresAt.instant { reasons := reasons + [PeerExpired(id)]; }
    if ScopeRank(peer.executionScope) > ScopeRank(plan.intent) { reasons := reasons + [ScopeWidening(id)]; }
    if peer.modelDigest != plan.modelDigest { reasons := reasons + [ModelDigestMismatch(id)]; }
    if peer.runtimeDigest != plan.runtimeDigest { reasons := reasons + [RuntimeDigestMismatch(id)]; }
    var boundKeyId := DeriveKeyId(c, peer.publicKey);
    if boundKeyId.None? {
      reasons := reasons + [PeerPublicKeyInvalid(id)];
    } else if boundKeyId.value != peer.keyId {
      reasons := reasons + [PeerKeyBindingInvalid(id)];
    }
    var effective := EffectiveEvidence(peer.evidenceLevel);
    if required.Some? && EvidenceRank(effective) < EvidenceRank(required.value) {
      reasons := reasons + [EvidenceBelowFloor(id)];
    }
  }

  /** `admit_plan`, as the loops of src/locusmesh/policy.py:117-198. */
  method AdmitPlan(c: Primitives, plan: RoutePlan, policy: AdmissionPolicy, now: DateTime)
    returns (d: AdmissionDecision)
    requires plan.Valid() && policy.Valid()
    ensures d == Admission(c, plan, policy, now)
  {
    hide PlanDigest, PolicyDigest, TopologyDigest, RoutePlan.Valid, TopologySnapshot.Valid;
    hide ClauseReasons, PeerReasons, PeersById, Dedup, WidestScope, WeakestEvidence;
    var peers := PeersById(policy.topology.peers);
    var scopes: seq<ExecutionIntent> := [];
    var evidence: seq<EvidenceLevel> := [];
    var required := if plan.intent in policy.minimumEvidence then Some(policy.minimumEvidence[plan.intent]) else None;
    var reasons := CheckClauses(plan, policy, now);

    ghost var clauses := reasons;
    var allowedEdges := AllowedEdges(policy.topology.edges);
    var i := 0;
    while i + 1 < |plan.hops|
      invariant 0 <= i <= Pairs(plan.hops)
      invariant reasons == EdgeReasons(clauses, plan.hops, allowedEdges, i)
    {
      if (plan.hops[i], plan.hops[i + 1]) !in allowedEdges {
        reasons := reasons + [EdgeNotAllowed(plan.hops[i], plan.hops[i + 1])];
      }
      i := i + 1;
    }
    if required == Some(HardwareAttested) { reasons := reasons + [HardwareAttestationUnsupported]; }

    ghost var start := reasons;
    for n := 0 to |plan.hops|
      invariant reasons == HopReasons(start, c, plan, peers, required, now, n)
      invariant scopes == Scopes(RouteManifests(plan.hops, peers, n))
      invariant evidence == Levels(RouteManifests(plan.hops, peers, n))
    {
      var id := plan.hops[n];
      if id !in peers {
        reasons := reasons + [PeerUnknown(id)];
      } else {
        var peer := peers[id];
        scopes := scopes + [peer.executionScope];
        evidence := evidence + [EffectiveEvidence(peer.evidenceLevel)];
        reasons := CheckPeer(reasons, c, plan, peer, id, required, now);
      }
    }

    var admitted := reasons == [];
    d := AdmissionDecision(
      PlanAdmission, admitted, if admitted then [Admitted] else Dedup(reasons), now, |plan.hops|,
      Some(PlanDigest(c, plan)), None, Some(PolicyDigest(c, policy)), Some(TopologyDigest(c, policy.topology)),
      Some(plan.intent), WidestScope(scopes), required, WeakestEvidence(evidence));
  }
}

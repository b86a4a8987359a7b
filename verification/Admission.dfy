/**
 What `admit_plan` decides: the exact set of reasons it reports, when it admits, and how
 admission behaves under reordering, reframing, widening and joining of routes.
 */
module AdmissionTheorems {
  import opened Clock
  import opened Crypto
  import opened Models
  import opened Ordering
  import opened Policy
  import opened Serialization
  import opened Wrappers
  import CanonicalJson
  import Utf8

  function Manifests(policy: AdmissionPolicy): map<string, PeerManifest> { PeersById(policy.topology.peers) }

  // ---- Exact reasons ----------------------------------------------------------------------

  // A hop of the route together with its pinned manifest.
  ghost predicate HopPeer(plan: RoutePlan, policy: AdmissionPolicy, id: string, p: PeerManifest) {
    id in plan.hops && p in policy.topology.peers && p.peerId == id
  }

  // The clause of the policy that each reason code says is violated.
  ghost predicate Violates(c: Primitives, plan: RoutePlan, policy: AdmissionPolicy, now: DateTime, r: Reason) {
    match r
    case EdgeNotAllowed(s, t) =>
      && (exists i :: 0 <= i < |plan.hops| - 1 && plan.hops[i] == s && plan.hops[i + 1] == t)
      && TopologyEdge(s, t) !in policy.topology.edges
    case HardwareAttestationUnsupported =>
      plan.intent in policy.minimumEvidence && policy.minimumEvidence[plan.intent] == HardwareAttested
    case PeerUnknown(id) => id in plan.hops && !policy.topology.Knows(id)
    case PeerNotYetValid(id) => exists p :: HopPeer(plan, policy, id, p) && now.instant < p.validFrom.instant
    case PeerExpired(id) => exists p :: HopPeer(plan, policy, id, p) && p.expiresAt.instant <= now.instant
    case ScopeWidening(id) =>
      exists p :: HopPeer(plan, policy, id, p) && Wider(p.executionScope, plan.intent)
    case ModelDigestMismatch(id) => exists p :: HopPeer(plan, policy, id, p) && p.modelDigest != plan.modelDigest
    case RuntimeDigestMismatch(id) =>
      exists p :: HopPeer(plan, policy, id, p) && p.runtimeDigest != plan.runtimeDigest
    case PeerPublicKeyInvalid(id) =>
      exists p :: HopPeer(plan, policy, id, p) && DeriveKeyId(c, p.publicKey).None?
    case PeerKeyBindingInvalid(id) =>
      exists p :: HopPeer(plan, policy, id, p)
        && DeriveKeyId(c, p.publicKey).Some? && DeriveKeyId(c, p.publicKey).value != p.keyId
    case EvidenceBelowFloor(id) =>
      exists p :: HopPeer(plan, policy, id, p) && plan.intent in policy.minimumEvidence
        && BelowFloor(p.evidenceLevel, policy.minimumEvidence[plan.intent])
    case _ => ConcernsClause(r) && ClauseViolated(plan, policy, now, r)
  }

  predicate ConcernsClause(r: Reason) {
    || r.IntentNotAllowed? || r.PlanNotYetValid? || r.PlanExpired? || r.TopologyNotYetValid?
    || r.TopologyExpired? || r.MaxHopsExceeded? || r.DuplicatePeer? || r.DeviceOnlyRequiresLocalSingleHop?
  }

  ghost predicate ClauseViolated(plan: RoutePlan, policy: AdmissionPolicy, now: DateTime, r: Reason)
    requires ConcernsClause(r)
  {
    match r
    case IntentNotAllowed => plan.intent !in policy.allowedIntents
    case PlanNotYetValid => now.instant < plan.createdAt.instant
    case PlanExpired => plan.expiresAt.instant <= now.instant
    case TopologyNotYetValid => now.instant < policy.topology.capturedAt.instant
    case TopologyExpired => policy.topology.expiresAt.instant <= now.instant
    case MaxHopsExceeded => policy.maxHops < |plan.hops|
    case DuplicatePeer => !NoDuplicates(plan.hops)
    case DeviceOnlyRequiresLocalSingleHop =>
      plan.intent == DeviceOnly && plan.hops != [policy.topology.localPeerId]
  }

  lemma {:induction false} SetSize<T>(s: seq<T>)
    ensures |set h | h in s| <= |s|
    ensures |s| == |set h | h in s| <==> NoDuplicates(s)
  {
    if s != [] {
      var rest, last := s[..|s| - 1], s[|s| - 1];
      SetSize(rest);
      assert s == rest + [last];
      assert (set h | h in s) == (set h | h in rest) + {last};
      if last in rest {
        var i :| 0 <= i < |rest| && rest[i] == last;
        assert s[i] == s[|s| - 1];
        assert (set h | h in s) == (set h | h in rest);
      }
    }
  }

  lemma LocalSingleHopMeans(plan: RoutePlan, policy: AdmissionPolicy)
    ensures LocalSingleHop(plan, policy) <==> plan.hops == [policy.topology.localPeerId]
  {}

  ghost predicate Has(s: seq<Reason>, r: Reason) { r in s }

  lemma NoteMembers()
    ensures forall r, ok, x, y {:trigger Has(Note(r, ok, x), y)} :: Has(Note(r, ok, x), y) <==> Has(r, y) || (!ok && y == x)
  {}

  lemma ClauseMembers(plan: RoutePlan, policy: AdmissionPolicy, now: DateTime, r: Reason)
    ensures Has(ClauseReasons(plan, policy, now), r) <==> ConcernsClause(r) && ClauseViolated(plan, policy, now, r)
  {
    SetSize(plan.hops);
    LocalSingleHopMeans(plan, policy);
    NoteMembers();
    assert !Has([], r);
    hide Has, Note, LocalSingleHop, NoDuplicates;
  }

  lemma {:induction false} EdgeMembers(start: seq<Reason>, hops: seq<string>, edges: set<(string, string)>, n: nat, r: Reason)
    requires n < |hops| || n == 0
    ensures r in EdgeReasons(start, hops, edges, n) <==>
            r in start || exists i :: 0 <= i < n && (hops[i], hops[i + 1]) !in edges && r == EdgeNotAllowed(hops[i], hops[i + 1])
  {
    if n > 0 {
      EdgeMembers(start, hops, edges, n - 1, r);
    }
  }

  ghost predicate HopFault(c: Primitives, plan: RoutePlan, peers: map<string, PeerManifest>,
                           required: Option<EvidenceLevel>, now: DateTime, id: string, r: Reason)
  {
    if id !in peers then r == PeerUnknown(id)
    else
      var p := peers[id];
      || (r == PeerNotYetValid(id) && now.instant < p.validFrom.instant)
      || (r == PeerExpired(id) && p.expiresAt.instant <= now.instant)
      || (r == ScopeWidening(id) && Wider(p.executionScope, plan.intent))
      || (r == ModelDigestMismatch(id) && p.modelDigest != plan.modelDigest)
      || (r == RuntimeDigestMismatch(id) && p.runtimeDigest != plan.runtimeDigest)
      || (r == PeerPublicKeyInvalid(id) && DeriveKeyId(c, p.publicKey).None?)
      || (r == PeerKeyBindingInvalid(id) && DeriveKeyId(c, p.publicKey).Some? && DeriveKeyId(c, p.publicKey).value != p.keyId)
      || (r == EvidenceBelowFloor(id) && required.Some? && BelowFloor(p.evidenceLevel, required.value))
  }

  lemma MeetsFloorMeans(claimed: EvidenceLevel, required: Option<EvidenceLevel>)
    ensures MeetsFloor(claimed, required) <==> (required.Some? ==> !BelowFloor(claimed, required.value))
  {
    if required.Some? { EvidenceRankMeans(claimed, required.value); }
  }

  lemma PeerMembers(start: seq<Reason>, c: Primitives, plan: RoutePlan, peers: map<string, PeerManifest>,
                    required: Option<EvidenceLevel>, now: DateTime, id: string, r: Reason)
    requires id in peers
    ensures Has(PeerReasons(start, c, plan, peers[id], id, required, now), r) <==>
            Has(start, r) || HopFault(c, plan, peers, required, now, id, r)
  {
    NoteMembers();
    ScopeRankMeans(peers[id].executionScope, plan.intent);
    MeetsFloorMeans(peers[id].evidenceLevel, required);
    hide Has, Note, DeriveKeyId, ScopeRank, MeetsFloor, Wider, BelowFloor;
  }

  lemma {:induction false} HopMembers(start: seq<Reason>, c: Primitives, plan: RoutePlan, peers: map<string, PeerManifest>,
                                      required: Option<EvidenceLevel>, now: DateTime, n: nat, r: Reason)
    requires n <= |plan.hops|
    ensures r in HopReasons(start, c, plan, peers, required, now, n) <==>
            r in start || exists i :: 0 <= i < n && HopFault(c, plan, peers, required, now, plan.hops[i], r)
  {
    hide PeerReasons, HopFault;
    if n > 0 {
      HopMembers(start, c, plan, peers, required, now, n - 1, r);
      var before, id := HopReasons(start, c, plan, peers, required, now, n - 1), plan.hops[n - 1];
      if id in peers {
        PeerMembers(before, c, plan, peers, required, now, id, r);
      } else {
        assert HopFault(c, plan, peers, required, now, id, r) <==> r == PeerUnknown(id) by { UnknownFault(c, plan, peers, required, now, id, r); }
      }
    }
  }

  lemma UnknownFault(c: Primitives, plan: RoutePlan, peers: map<string, PeerManifest>,
                     required: Option<EvidenceLevel>, now: DateTime, id: string, r: Reason)
    requires id !in peers
    ensures HopFault(c, plan, peers, required, now, id, r) <==> r == PeerUnknown(id)
  {}

  predicate ConcernsPeer(r: Reason) {
    || r.PeerUnknown? || r.PeerNotYetValid? || r.PeerExpired? || r.ScopeWidening? || r.ModelDigestMismatch?
    || r.RuntimeDigestMismatch? || r.PeerPublicKeyInvalid? || r.PeerKeyBindingInvalid? || r.EvidenceBelowFloor?
  }

  lemma KnownPeers(plan: RoutePlan, policy: AdmissionPolicy, id: string)
    requires policy.Valid()
    ensures policy.topology.Knows(id) <==> id in Manifests(policy)
    ensures forall p :: HopPeer(plan, policy, id, p) <==> id in plan.hops && id in Manifests(policy) && Manifests(policy)[id] == p
  {
    hide PeersById, PeerManifest.Valid, DateTime.Valid;
    PeersByIdDistinct(policy.topology.peers);
    if policy.topology.Knows(id) {
      var i :| 0 <= i < |policy.topology.peers| && policy.topology.peers[i].peerId == id;
      assert policy.topology.peers[i] in policy.topology.peers;
    }
  }

  lemma PeerFaultViolates(c: Primitives, plan: RoutePlan, policy: AdmissionPolicy, now: DateTime, r: Reason)
    requires policy.Valid() && ConcernsPeer(r)
    ensures Violates(c, plan, policy, now, r) <==>
            r.peer in plan.hops && HopFault(c, plan, Manifests(policy), Required(plan, policy), now, r.peer, r)
  {
    hide DeriveKeyId, Wider, BelowFloor, Manifests, AdmissionPolicy.Valid, HopPeer, TopologySnapshot.Knows;
    KnownPeers(plan, policy, r.peer);
  }

  lemma HopFaultViolates(c: Primitives, plan: RoutePlan, policy: AdmissionPolicy, now: DateTime, r: Reason)
    requires policy.Valid()
    ensures (exists i :: 0 <= i < |plan.hops| && HopFault(c, plan, Manifests(policy), Required(plan, policy), now, plan.hops[i], r))
            <==> ConcernsPeer(r) && Violates(c, plan, policy, now, r)
  {
    hide DeriveKeyId, Wider, BelowFloor, Required, Manifests, AdmissionPolicy.Valid, Violates;
    forall i | 0 <= i < |plan.hops| && HopFault(c, plan, Manifests(policy), Required(plan, policy), now, plan.hops[i], r)
      ensures ConcernsPeer(r) && r.peer == plan.hops[i] {}
    hide HopFault;
    if ConcernsPeer(r) {
      PeerFaultViolates(c, plan, policy, now, r);
    }
  }

  /** `admit_plan` reports exactly the violated clauses, once each. */
  lemma ReasonsExact(c: Primitives, plan: RoutePlan, policy: AdmissionPolicy, now: DateTime)
    requires plan.Valid() && policy.Valid()
    ensures var d := Admission(c, plan, policy, now);
            && (d.admitted <==> forall r :: !Violates(c, plan, policy, now, r))
            && (!d.admitted ==>
                  && NoDuplicates(d.reasonCodes)
                  && (forall r :: r in d.reasonCodes <==> Violates(c, plan, policy, now, r)))
  {
    hide *;
    var reasons := AdmissionReasons(c, plan, policy, now);
    forall r ensures r in reasons <==> Violates(c, plan, policy, now, r) {
      ReasonMember(c, plan, policy, now, r);
    }
    DedupKeepsFirst(reasons);
    if reasons != [] { assert reasons[0] in reasons; }
    AdmissionShape(c, plan, policy, now);
  }

  lemma AdmissionShape(c: Primitives, plan: RoutePlan, policy: AdmissionPolicy, now: DateTime)
    requires plan.Valid() && policy.Valid()
    ensures var d, reasons := Admission(c, plan, policy, now), AdmissionReasons(c, plan, policy, now);
            && (d.admitted <==> reasons == [])
            && d.reasonCodes == if reasons == [] then [Admitted] else Dedup(reasons)
  {}

  lemma ReasonMember(c: Primitives, plan: RoutePlan, policy: AdmissionPolicy, now: DateTime, r: Reason)
    requires policy.Valid()
    ensures r in AdmissionReasons(c, plan, policy, now) <==> Violates(c, plan, policy, now, r)
  {
    hide ClauseReasons, EdgeReasons, HopReasons, HopFault, PeersById, AdmissionPolicy.Valid;
    hide DeriveKeyId, Wider, BelowFloor;
    var required, peers, edges := Required(plan, policy), Manifests(policy), AllowedEdges(policy.topology.edges);
    var r0 := ClauseReasons(plan, policy, now);
    var r1 := EdgeReasons(r0, plan.hops, edges, Pairs(plan.hops));
    var r2 := Note(r1, required != Some(HardwareAttested), HardwareAttestationUnsupported);
    ClauseMembers(plan, policy, now, r);
    EdgeMembers(r0, plan.hops, edges, Pairs(plan.hops), r);
    HopMembers(r2, c, plan, peers, required, now, |plan.hops|, r);
    HopFaultViolates(c, plan, policy, now, r);
    forall s, t ensures (s, t) in edges <==> TopologyEdge(s, t) in policy.topology.edges {
      assert TopologyEdge(s, t).source == s && TopologyEdge(s, t).target == t;
    }
  }

  // ---- When a plan is admitted ------------------------------------------------------------

  ghost predicate HopAdmissible(c: Primitives, plan: RoutePlan, peers: map<string, PeerManifest>,
                                required: Option<EvidenceLevel>, now: DateTime, id: string)
  {
    && id in peers
    && var p := peers[id];
       && p.validFrom.instant <= now.instant < p.expiresAt.instant
       && !Wider(p.executionScope, plan.intent)
       && p.modelDigest == plan.modelDigest && p.runtimeDigest == plan.runtimeDigest
       && DeriveKeyId(c, p.publicKey) == Some(p.keyId)
       && (required.Some? ==> !BelowFloor(p.evidenceLevel, required.value))
  }

  // A simple directed path of known, valid, key-bound, digest-matching peers within bounds.
  ghost predicate Admissible(c: Primitives, plan: RoutePlan, policy: AdmissionPolicy, now: DateTime) {
    && plan.intent in policy.allowedIntents
    && plan.createdAt.instant <= now.instant < plan.expiresAt.instant
    && policy.topology.capturedAt.instant <= now.instant < policy.topology.expiresAt.instant
    && |plan.hops| <= policy.maxHops && NoDuplicates(plan.hops)
    && (plan.intent == DeviceOnly ==> plan.hops == [policy.topology.localPeerId])
    && (forall i :: 0 <= i < |plan.hops| - 1 ==> (plan.hops[i], plan.hops[i + 1]) in AllowedEdges(policy.topology.edges))
    && Required(plan, policy) != Some(HardwareAttested)
    && (forall i :: 0 <= i < |plan.hops| ==>
          HopAdmissible(c, plan, Manifests(policy), Required(plan, policy), now, plan.hops[i]))
  }

  lemma {:induction false} NoEdgeReasons(start: seq<Reason>, hops: seq<string>, edges: set<(string, string)>, n: nat)
    requires n < |hops| || n == 0
    ensures EdgeReasons(start, hops, edges, n) == [] <==>
            start == [] && forall i :: 0 <= i < n ==> (hops[i], hops[i + 1]) in edges
  {
    if n > 0 {
      NoEdgeReasons(start, hops, edges, n - 1);
    }
  }

  lemma NoPeerReasons(start: seq<Reason>, c: Primitives, plan: RoutePlan, peers: map<string, PeerManifest>,
                      required: Option<EvidenceLevel>, now: DateTime, id: string)
    requires id in peers
    ensures PeerReasons(start, c, plan, peers[id], id, required, now) == [] <==>
            start == [] && HopAdmissible(c, plan, peers, required, now, id)
  {
    ScopeRankMeans(peers[id].executionScope, plan.intent);
    MeetsFloorMeans(peers[id].evidenceLevel, required);
    hide DeriveKeyId, ScopeRank, MeetsFloor, Wider, BelowFloor;
  }

  lemma AdmissibleIsKnown(c: Primitives, plan: RoutePlan, peers: map<string, PeerManifest>,
                          required: Option<EvidenceLevel>, now: DateTime, id: string)
    ensures HopAdmissible(c, plan, peers, required, now, id) ==> id in peers
  {}

  lemma {:induction false} NoHopReasons(start: seq<Reason>, c: Primitives, plan: RoutePlan, peers: map<string, PeerManifest>,
                                        required: Option<EvidenceLevel>, now: DateTime, n: nat)
    requires n <= |plan.hops|
    ensures HopReasons(start, c, plan, peers, required, now, n) == [] <==>
            start == [] && forall i :: 0 <= i < n ==> HopAdmissible(c, plan, peers, required, now, plan.hops[i])
  {
    hide PeerReasons, HopAdmissible;
    if n > 0 {
      NoHopReasons(start, c, plan, peers, required, now, n - 1);
      AdmissibleIsKnown(c, plan, peers, required, now, plan.hops[n - 1]);
      if plan.hops[n - 1] in peers {
        NoPeerReasons(HopReasons(start, c, plan, peers, required, now, n - 1), c, plan, peers, required, now, plan.hops[n - 1]);
      }
    }
  }

  /** Admission succeeds exactly on the admissible routes. */
  lemma AdmissionExact(c: Primitives, plan: RoutePlan, policy: AdmissionPolicy, now: DateTime)
    requires plan.Valid() && policy.Valid()
    ensures Admission(c, plan, policy, now).admitted <==> Admissible(c, plan, policy, now)
  {
    AdmissionShape(c, plan, policy, now);
    NoReasons(c, plan, policy, now);
    hide *;
  }

  lemma NoReasons(c: Primitives, plan: RoutePlan, policy: AdmissionPolicy, now: DateTime)
    ensures AdmissionReasons(c, plan, policy, now) == [] <==> Admissible(c, plan, policy, now)
  {
    hide EdgeReasons, HopReasons, HopAdmissible, PeersById, AllowedEdges, Required;
    var required, peers, edges := Required(plan, policy), Manifests(policy), AllowedEdges(policy.topology.edges);
    var r0 := ClauseReasons(plan, policy, now);
    var r1 := EdgeReasons(r0, plan.hops, edges, Pairs(plan.hops));
    var r2 := Note(r1, required != Some(HardwareAttested), HardwareAttestationUnsupported);
    SetSize(plan.hops);
    NoEdgeReasons(r0, plan.hops, edges, Pairs(plan.hops));
    NoHopReasons(r2, c, plan, peers, required, now, |plan.hops|);
  }

  // ---- Listing order ----------------------------------------------------------------------

  ghost predicate DistinctIds(peers: seq<PeerManifest>) {
    forall i, j :: 0 <= i < j < |peers| ==> peers[i].peerId != peers[j].peerId
  }

  lemma PermutedPeers(a: seq<PeerManifest>, b: seq<PeerManifest>)
    requires DistinctIds(a) && DistinctIds(b) && multiset(a) == multiset(b)
    ensures PeersById(a) == PeersById(b)
  {
    hide PeersById;
    PeersByIdDistinct(a);
    PeersByIdDistinct(b);
    var x, y := PeersById(a), PeersById(b);
    forall id | id in x ensures id in y && y[id] == x[id] { assert x[id] in multiset(a) && x[id] in multiset(b); }
    forall id | id in y ensures id in x && x[id] == y[id] { assert y[id] in multiset(b) && y[id] in multiset(a); }
  }

  lemma PermutedEdges(a: seq<TopologyEdge>, b: seq<TopologyEdge>)
    requires multiset(a) == multiset(b)
    ensures AllowedEdges(a) == AllowedEdges(b)
  {
    forall e ensures e in a <==> e in b { assert e in multiset(a) <==> e in multiset(b); }
  }

  lemma SameManifests(p: AdmissionPolicy, q: AdmissionPolicy)
    requires p.Valid() && q.Valid() && SameTopology(p.topology, q.topology)
    ensures Manifests(p) == Manifests(q)
    ensures AllowedEdges(p.topology.edges) == AllowedEdges(q.topology.edges)
  {
    hide PeersById, AllowedEdges, PeerManifest.Valid, DateTime.Valid;
    PermutedPeers(p.topology.peers, q.topology.peers);
    PermutedEdges(p.topology.edges, q.topology.edges);
  }

  lemma SameDigests(c: Primitives, p: AdmissionPolicy, q: AdmissionPolicy)
    requires p.Valid() && q.Valid() && SamePolicy(p, q)
    ensures TopologyDigest(c, p.topology) == TopologyDigest(c, q.topology)
    ensures PolicyDigest(c, p) == PolicyDigest(c, q)
  {
    hide CanonicalBytes, TopologyJson, PolicyJson, SameTopology, TopologySnapshot.Valid;
    TopologyJsonDecides(p.topology, q.topology);
    PolicyJsonDecides(p, TopologyDigest(c, p.topology), q, TopologyDigest(c, q.topology));
    EqualDumpsEqualDigests(c, TopologyJson(p.topology), TopologyJson(q.topology));
    EqualDumpsEqualDigests(c, PolicyJson(p, TopologyDigest(c, p.topology)), PolicyJson(q, TopologyDigest(c, q.topology)));
  }

  lemma EqualDumpsEqualDigests(c: Primitives, a: CanonicalJson.Json, b: CanonicalJson.Json)
    requires CanonicalJson.Normal(a) == CanonicalJson.Normal(b)
    ensures Sha256Digest(c, a) == Sha256Digest(c, b)
  {
    hide CanonicalJson.Normal, CanonicalJson.RenderOnto, Utf8.Encode;
  }

  /** The order in which peers and edges are listed changes nothing in the decision. */
  lemma OrderNeverMatters(c: Primitives, plan: RoutePlan, p: AdmissionPolicy, q: AdmissionPolicy, now: DateTime)
    requires plan.Valid() && p.Valid() && q.Valid() && SamePolicy(p, q)
    ensures Admission(c, plan, p, now) == Admission(c, plan, q, now)
  {
    SameManifests(p, q);
    SameDigests(c, p, q);
    hide PlanDigest, PolicyDigest, TopologyDigest, PeersById, AllowedEdges, EdgeReasons, HopReasons, RouteManifests, Dedup;
    hide TopologySnapshot.Valid, RoutePlan.Valid, WidestScope, WeakestEvidence, Scopes, Levels;
  }

  // ---- Frame ------------------------------------------------------------------------------

  // Everything that the verdict on `plan` reads of a policy.
  ghost predicate SameForPlan(plan: RoutePlan, p: AdmissionPolicy, q: AdmissionPolicy) {
    && (plan.intent in p.allowedIntents <==> plan.intent in q.allowedIntents)
    && p.maxHops == q.maxHops && Required(plan, p) == Required(plan, q)
    && p.topology.capturedAt.instant == q.topology.capturedAt.instant
    && p.topology.expiresAt.instant == q.topology.expiresAt.instant
    && (plan.intent == DeviceOnly ==> p.topology.localPeerId == q.topology.localPeerId)
    && (forall i :: 0 <= i < |plan.hops| ==> SameManifest(Manifests(p), Manifests(q), plan.hops[i]))
    && (forall i :: 0 <= i < |plan.hops| - 1 ==>
          ((plan.hops[i], plan.hops[i + 1]) in AllowedEdges(p.topology.edges)
           <==> (plan.hops[i], plan.hops[i + 1]) in AllowedEdges(q.topology.edges)))
  }

  ghost predicate SameManifest(m: map<string, PeerManifest>, n: map<string, PeerManifest>, id: string) {
    (id in m <==> id in n) && (id in m ==> m[id] == n[id])
  }

  lemma {:induction false} EdgeFrame(start: seq<Reason>, hops: seq<string>, e: set<(string, string)>, f: set<(string, string)>, n: nat)
    requires n < |hops| || n == 0
    requires forall i :: 0 <= i < n ==> ((hops[i], hops[i + 1]) in e <==> (hops[i], hops[i + 1]) in f)
    ensures EdgeReasons(start, hops, e, n) == EdgeReasons(start, hops, f, n)
  {
    if n > 0 {
      EdgeFrame(start, hops, e, f, n - 1);
    }
  }

  lemma {:induction false} HopFrame(start: seq<Reason>, c: Primitives, plan: RoutePlan, m: map<string, PeerManifest>,
                                    k: map<string, PeerManifest>, required: Option<EvidenceLevel>, now: DateTime, n: nat)
    requires n <= |plan.hops| && forall i :: 0 <= i < n ==> SameManifest(m, k, plan.hops[i])
    ensures HopReasons(start, c, plan, m, required, now, n) == HopReasons(start, c, plan, k, required, now, n)
    ensures RouteManifests(plan.hops, m, n) == RouteManifests(plan.hops, k, n)
  {
    hide PeerReasons;
    if n > 0 {
      HopFrame(start, c, plan, m, k, required, now, n - 1);
      assert SameManifest(m, k, plan.hops[n - 1]);
    }
  }

  /** The verdict, its reasons and its levels depend on nothing but the frame of the plan. */
  lemma AdmissionFrame(c: Primitives, plan: RoutePlan, p: AdmissionPolicy, q: AdmissionPolicy, now: DateTime)
    requires plan.Valid() && p.Valid() && q.Valid() && SameForPlan(plan, p, q)
    ensures var d, e := Admission(c, plan, p, now), Admission(c, plan, q, now);
            e == d.(policyDigest := e.policyDigest, topologyDigest := e.topologyDigest)
  {
    FrameReasons(c, plan, p, q, now);
    hide PlanDigest, PolicyDigest, TopologyDigest, PeersById, AdmissionReasons, RouteManifests, Dedup, SameForPlan;
    hide TopologySnapshot.Valid, RoutePlan.Valid, WidestScope, WeakestEvidence, Scopes, Levels;
  }

  lemma FrameReasons(c: Primitives, plan: RoutePlan, p: AdmissionPolicy, q: AdmissionPolicy, now: DateTime)
    requires SameForPlan(plan, p, q)
    ensures AdmissionReasons(c, plan, p, now) == AdmissionReasons(c, plan, q, now)
    ensures Required(plan, p) == Required(plan, q)
    ensures RouteManifests(plan.hops, Manifests(p), |plan.hops|) == RouteManifests(plan.hops, Manifests(q), |plan.hops|)
  {
    hide EdgeReasons, HopReasons, RouteManifests, PeersById, AllowedEdges, SameManifest, Required;
    var required := Required(plan, p);
    var r0 := ClauseReasons(plan, p, now);
    assert r0 == ClauseReasons(plan, q, now);
    var e, f := AllowedEdges(p.topology.edges), AllowedEdges(q.topology.edges);
    EdgeFrame(r0, plan.hops, e, f, Pairs(plan.hops));
    var r1 := EdgeReasons(r0, plan.hops, e, Pairs(plan.hops));
    var r2 := Note(r1, required != Some(HardwareAttested), HardwareAttestationUnsupported);
    HopFrame(r2, c, plan, Manifests(p), Manifests(q), required, now, |plan.hops|);
  }

  // ---- Widening the intent ----------------------------------------------------------------

  ghost predicate FloorNoHigher(policy: AdmissionPolicy, wider: ExecutionIntent, narrower: ExecutionIntent) {
    wider in policy.minimumEvidence && narrower in policy.minimumEvidence ==>
      !Weaker(policy.minimumEvidence[narrower], policy.minimumEvidence[wider])
  }

  lemma WidenHop(c: Primitives, plan: RoutePlan, policy: AdmissionPolicy, now: DateTime, wider: ExecutionIntent, id: string)
    requires HopAdmissible(c, plan, Manifests(policy), Required(plan, policy), now, id)
    requires !Wider(plan.intent, wider) && FloorNoHigher(policy, wider, plan.intent)
    requires plan.intent in policy.minimumEvidence
    ensures var plan' := plan.(intent := wider);
            HopAdmissible(c, plan', Manifests(policy), Required(plan', policy), now, id)
  {
    hide Manifests, DeriveKeyId;
  }

  /** An admitted plan stays admitted under any wider allowed intent whose floor is no higher. */
  lemma WideningKeepsAdmission(c: Primitives, plan: RoutePlan, policy: AdmissionPolicy, now: DateTime, wider: ExecutionIntent)
    requires plan.Valid() && policy.Valid()
    requires Admission(c, plan, policy, now).admitted
    requires wider in policy.allowedIntents
    requires !Wider(plan.intent, wider) && FloorNoHigher(policy, wider, plan.intent)
    ensures Admission(c, plan.(intent := wider), policy, now).admitted
  {
    hide Admission, Manifests, HopAdmissible, TopologySnapshot.Valid, DateTime.Valid, AllowedEdges;
    var plan' := plan.(intent := wider);
    AdmissionExact(c, plan, policy, now);
    AdmissionExact(c, plan', policy, now);
    forall i | 0 <= i < |plan.hops|
      ensures HopAdmissible(c, plan', Manifests(policy), Required(plan', policy), now, plan'.hops[i])
    {
      WidenHop(c, plan, policy, now, wider, plan.hops[i]);
    }
  }

  // ---- Joining routes ---------------------------------------------------------------------

  // p ++ q as one route of `plan`.
  function Along(plan: RoutePlan, hops: seq<string>): RoutePlan { plan.(hops := hops) }

  lemma JoinNoDuplicates(p: seq<string>, q: seq<string>)
    ensures NoDuplicates(p + q) <==> NoDuplicates(p) && NoDuplicates(q) && forall h :: !(h in p && h in q)
  {
    if NoDuplicates(p + q) {
      forall i, j | 0 <= i < j < |p| ensures p[i] != p[j] { assert (p + q)[i] != (p + q)[j]; }
      forall i, j | 0 <= i < j < |q| ensures q[i] != q[j] { assert (p + q)[|p| + i] != (p + q)[|p| + j]; }
      forall i, j | 0 <= i < |p| && 0 <= j < |q| ensures p[i] != q[j] {
        assert (p + q)[i] != (p + q)[|p| + j];
      }
    }
    if NoDuplicates(p) && NoDuplicates(q) && forall h :: !(h in p && h in q) {
      forall i, j | 0 <= i < j < |p + q| ensures (p + q)[i] != (p + q)[j] {
        assert i < |p| <= j ==> (p + q)[i] in p && (p + q)[j] in q;
      }
    }
  }

  ghost predicate Linked(hops: seq<string>, edges: set<(string, string)>) {
    forall i :: 0 <= i < |hops| - 1 ==> (hops[i], hops[i + 1]) in edges
  }

  lemma JoinLinked(p: seq<string>, q: seq<string>, edges: set<(string, string)>)
    requires p != [] && q != []
    ensures Linked(p + q, edges) <==> Linked(p, edges) && Linked(q, edges) && (p[|p| - 1], q[0]) in edges
  {
    var h := p + q;
    assert h[|p| - 1] == p[|p| - 1] && h[|p|] == q[0];
    if Linked(h, edges) {
      forall i | 0 <= i < |p| - 1 ensures (p[i], p[i + 1]) in edges { assert (h[i], h[i + 1]) in edges; }
      forall i | 0 <= i < |q| - 1 ensures (q[i], q[i + 1]) in edges { assert (h[|p| + i], h[|p| + i + 1]) in edges; }
    }
    if Linked(p, edges) && Linked(q, edges) && (p[|p| - 1], q[0]) in edges {
      forall i | 0 <= i < |h| - 1 ensures (h[i], h[i + 1]) in edges {
        if i < |p| - 1 {
          assert (p[i], p[i + 1]) in edges;
        } else if i >= |p| {
          assert (q[i - |p|], q[i - |p| + 1]) in edges;
        }
      }
    }
  }

  ghost predicate HopsAdmissible(c: Primitives, plan: RoutePlan, policy: AdmissionPolicy, now: DateTime, hops: seq<string>) {
    forall i :: 0 <= i < |hops| ==> HopAdmissible(c, plan, Manifests(policy), Required(plan, policy), now, hops[i])
  }

  lemma JoinHops(c: Primitives, plan: RoutePlan, policy: AdmissionPolicy, now: DateTime, p: seq<string>, q: seq<string>)
    ensures HopsAdmissible(c, plan, policy, now, p + q) <==>
            HopsAdmissible(c, plan, policy, now, p) && HopsAdmissible(c, plan, policy, now, q)
  {
    hide HopAdmissible, Manifests, Required;
    var h := p + q;
    assert forall i :: 0 <= i < |p| ==> h[i] == p[i];
    assert forall i :: 0 <= i < |q| ==> h[|p| + i] == q[i];
    if HopsAdmissible(c, plan, policy, now, h) {
      forall i | 0 <= i < |q| ensures HopAdmissible(c, plan, Manifests(policy), Required(plan, policy), now, q[i]) {
        assert HopAdmissible(c, plan, Manifests(policy), Required(plan, policy), now, h[|p| + i]);
      }
      forall i | 0 <= i < |p| ensures HopAdmissible(c, plan, Manifests(policy), Required(plan, policy), now, p[i]) {
        assert HopAdmissible(c, plan, Manifests(policy), Required(plan, policy), now, h[i]);
      }
    }
  }

  // The hops matter to a single hop's admissibility only through the hop itself.
  lemma AdmissibleAlong(c: Primitives, plan: RoutePlan, policy: AdmissionPolicy, now: DateTime, hops: seq<string>)
    requires plan.intent != DeviceOnly
    ensures Admissible(c, Along(plan, hops), policy, now) <==>
            && plan.intent in policy.allowedIntents
            && plan.createdAt.instant <= now.instant < plan.expiresAt.instant
            && policy.topology.capturedAt.instant <= now.instant < policy.topology.expiresAt.instant
            && Required(plan, policy) != Some(HardwareAttested)
            && |hops| <= policy.maxHops && NoDuplicates(hops) && Linked(hops, AllowedEdges(policy.topology.edges))
            && HopsAdmissible(c, plan, policy, now, hops)
  {
    hide Manifests, DeriveKeyId, AllowedEdges;
    forall i | 0 <= i < |hops|
      ensures HopAdmissible(c, Along(plan, hops), Manifests(policy), Required(plan, policy), now, hops[i])
              <==> HopAdmissible(c, plan, Manifests(policy), Required(plan, policy), now, hops[i]) {}
    hide HopAdmissible;
  }

  lemma {:induction false} RouteManifestsJoin(p: seq<string>, q: seq<string>, peers: map<string, PeerManifest>, n: nat)
    requires n <= |q|
    ensures RouteManifests(p + q, peers, |p| + n) == RouteManifests(p, peers, |p|) + RouteManifests(q, peers, n)
  {
    if n == 0 {
      RouteManifestsPrefix(p, q, peers, |p|);
    } else {
      RouteManifestsJoin(p, q, peers, n - 1);
    }
  }

  lemma {:induction false} RouteManifestsPrefix(p: seq<string>, q: seq<string>, peers: map<string, PeerManifest>, n: nat)
    requires n <= |p|
    ensures RouteManifests(p + q, peers, n) == RouteManifests(p, peers, n)
  {
    if n > 0 {
      RouteManifestsPrefix(p, q, peers, n - 1);
    }
  }

  lemma WidestJoin(a: seq<ExecutionIntent>, b: seq<ExecutionIntent>)
    requires a != [] && b != []
    ensures WidestScope(a).Some? && WidestScope(b).Some? && WidestScope(a + b).Some?
    ensures WidestScope(a + b) ==
            if Wider(WidestScope(b).value, WidestScope(a).value) then WidestScope(b) else WidestScope(a)
  {
    hide WidestScope;
    WidestScopeIsMax(a);
    WidestScopeIsMax(b);
    WidestScopeIsMax(a + b);
    var x, y, z := WidestScope(a).value, WidestScope(b).value, WidestScope(a + b).value;
    assert x in a + b && y in a + b;
    assert z in a || z in b;
  }

  lemma WeakestJoin(a: seq<EvidenceLevel>, b: seq<EvidenceLevel>)
    requires a != [] && b != []
    ensures WeakestEvidence(a).Some? && WeakestEvidence(b).Some? && WeakestEvidence(a + b).Some?
    ensures WeakestEvidence(a + b) ==
            if Weaker(WeakestEvidence(b).value, WeakestEvidence(a).value) then WeakestEvidence(b) else WeakestEvidence(a)
  {
    hide WeakestEvidence;
    WeakestEvidenceIsMin(a);
    WeakestEvidenceIsMin(b);
    WeakestEvidenceIsMin(a + b);
    var x, y, z := WeakestEvidence(a).value, WeakestEvidence(b).value, WeakestEvidence(a + b).value;
    assert x in a + b && y in a + b;
    assert z in a || z in b;
  }

  lemma {:induction false} RouteManifestsFull(hops: seq<string>, peers: map<string, PeerManifest>, n: nat)
    requires n <= |hops| && forall i :: 0 <= i < n ==> hops[i] in peers
    ensures |RouteManifests(hops, peers, n)| == n
    ensures forall i :: 0 <= i < n ==> RouteManifests(hops, peers, n)[i] == peers[hops[i]]
  {
    if n > 0 {
      RouteManifestsFull(hops, peers, n - 1);
    }
  }

  ghost function WiderOf(a: Option<ExecutionIntent>, b: Option<ExecutionIntent>): Option<ExecutionIntent>
    requires a.Some? && b.Some?
  {
    if Wider(b.value, a.value) then b else a
  }

  ghost function WeakerOf(a: Option<EvidenceLevel>, b: Option<EvidenceLevel>): Option<EvidenceLevel>
    requires a.Some? && b.Some?
  {
    if Weaker(b.value, a.value) then b else a
  }

  lemma AdmissionLevels(c: Primitives, plan: RoutePlan, policy: AdmissionPolicy, now: DateTime)
    requires plan.Valid() && policy.Valid() && Admissible(c, plan, policy, now)
    ensures var ms := RouteManifests(plan.hops, Manifests(policy), |plan.hops|);
            && |ms| == |plan.hops| > 0
            && (forall i :: 0 <= i < |ms| ==> plan.hops[i] in Manifests(policy) && ms[i] == Manifests(policy)[plan.hops[i]])
            && Admission(c, plan, policy, now).effectiveScope == WidestScope(Scopes(ms))
            && Admission(c, plan, policy, now).effectiveEvidence == WeakestEvidence(Levels(ms))
            && Admission(c, plan, policy, now).requiredEvidence == Required(plan, policy)
  {
    hide PeersById, RouteManifests, WidestScope, WeakestEvidence, AdmissionReasons, Dedup, DeriveKeyId;
    hide PlanDigest, PolicyDigest, TopologyDigest, TopologySnapshot.Valid;
    forall i | 0 <= i < |plan.hops| ensures plan.hops[i] in Manifests(policy) {
      assert HopAdmissible(c, plan, Manifests(policy), Required(plan, policy), now, plan.hops[i]);
    }
    RouteManifestsFull(plan.hops, Manifests(policy), |plan.hops|);
  }

  lemma {:induction false} RouteManifestsAre(hops: seq<string>, peers: map<string, PeerManifest>, n: nat, p: PeerManifest)
    requires n <= |hops|
    ensures p in RouteManifests(hops, peers, n) <==> exists i :: 0 <= i < n && hops[i] in peers && peers[hops[i]] == p
  {
    if n > 0 {
      RouteManifestsAre(hops, peers, n - 1, p);
    }
  }

  // The widest of some scopes, and the weakest of some capped claims, by cases.
  lemma WidestIs(scopes: seq<ExecutionIntent>)
    requires scopes != []
    ensures WidestScope(scopes) == Some(if PublicMesh in scopes then PublicMesh else if PrivateMesh in scopes then PrivateMesh else DeviceOnly)
  {
    hide WidestScope;
    WidestScopeIsMax(scopes);
  }

  lemma WeakestIs(claims: seq<EvidenceLevel>, capped: seq<EvidenceLevel>)
    requires |claims| == |capped| > 0 && forall i :: 0 <= i < |claims| ==> capped[i] == EffectiveEvidence(claims[i])
    ensures WeakestEvidence(capped) == Some(if Observed in claims then Observed else PeerAsserted)
  {
    hide WeakestEvidence;
    WeakestEvidenceIsMin(capped);
    var i :| 0 <= i < |capped| && capped[i] == WeakestEvidence(capped).value;
    if Observed in claims {
      var k :| 0 <= k < |claims| && claims[k] == Observed;
      assert capped[k] in capped;
    }
  }

  ghost predicate HopHasScope(plan: RoutePlan, policy: AdmissionPolicy, s: ExecutionIntent) {
    exists id, p :: HopPeer(plan, policy, id, p) && p.executionScope == s
  }

  ghost predicate HopHasLevel(plan: RoutePlan, policy: AdmissionPolicy, e: EvidenceLevel) {
    exists id, p :: HopPeer(plan, policy, id, p) && p.evidenceLevel == e
  }

  ghost predicate HopKnown(plan: RoutePlan, policy: AdmissionPolicy) { exists id, p :: HopPeer(plan, policy, id, p) }

  lemma HopPeersAre(plan: RoutePlan, policy: AdmissionPolicy, p: PeerManifest)
    requires policy.Valid()
    ensures p in RouteManifests(plan.hops, Manifests(policy), |plan.hops|) <==> HopPeer(plan, policy, p.peerId, p)
  {
    hide PeersById, AdmissionPolicy.Valid, HopPeer;
    RouteManifestsAre(plan.hops, Manifests(policy), |plan.hops|, p);
    KnownPeers(plan, policy, p.peerId);
    ManifestIds(policy);
  }

  lemma ManifestIds(policy: AdmissionPolicy)
    requires policy.Valid()
    ensures forall id :: id in Manifests(policy) ==> Manifests(policy)[id].peerId == id
  {
    hide PeersById, PeerManifest.Valid, DateTime.Valid;
    PeersByIdDistinct(policy.topology.peers);
  }

  // What the manifests found along a route offer, by cases.
  lemma RouteOffers(plan: RoutePlan, policy: AdmissionPolicy)
    requires policy.Valid()
    ensures var ms := RouteManifests(plan.hops, Manifests(policy), |plan.hops|);
            && WidestScope(Scopes(ms)) == (if HopHasScope(plan, policy, PublicMesh) then Some(PublicMesh)
                                           else if HopHasScope(plan, policy, PrivateMesh) then Some(PrivateMesh)
                                           else if HopKnown(plan, policy) then Some(DeviceOnly) else None)
            && WeakestEvidence(Levels(ms)) == (if HopHasLevel(plan, policy, Observed) then Some(Observed)
                                               else if HopKnown(plan, policy) then Some(PeerAsserted) else None)
  {
    hide RouteManifests, WidestScope, WeakestEvidence, AdmissionPolicy.Valid, Manifests;
    var ms := RouteManifests(plan.hops, Manifests(policy), |plan.hops|);
    forall p ensures p in ms <==> HopPeer(plan, policy, p.peerId, p) { HopPeersAre(plan, policy, p); }
    var claims := seq(|ms|, i requires 0 <= i < |ms| => ms[i].evidenceLevel);
    forall s ensures s in Scopes(ms) <==> HopHasScope(plan, policy, s) {
      if s in Scopes(ms) {
        var i :| 0 <= i < |ms| && Scopes(ms)[i] == s;
        assert HopPeer(plan, policy, ms[i].peerId, ms[i]);
      }
      if id, p :| HopPeer(plan, policy, id, p) && p.executionScope == s {
        var i :| 0 <= i < |ms| && ms[i] == p;
        assert Scopes(ms)[i] == s;
      }
    }
    forall e ensures e in claims <==> HopHasLevel(plan, policy, e) {
      if e in claims {
        var i :| 0 <= i < |ms| && claims[i] == e;
        assert HopPeer(plan, policy, ms[i].peerId, ms[i]);
      }
      if id, p :| HopPeer(plan, policy, id, p) && p.evidenceLevel == e {
        var i :| 0 <= i < |ms| && ms[i] == p;
        assert claims[i] == e;
      }
    }
    if ms == [] {
      WidestScopeIsMax([]);
      WeakestEvidenceIsMin([]);
    } else {
      assert HopPeer(plan, policy, ms[0].peerId, ms[0]);
      WidestIs(Scopes(ms));
      WeakestIs(claims, Levels(ms));
    }
  }

  /** The whole decision on a plan, field by field; `ReasonsExact` says which codes it lists. */
  lemma AdmissionSays(c: Primitives, plan: RoutePlan, policy: AdmissionPolicy, now: DateTime)
    requires plan.Valid() && policy.Valid()
    ensures var d := Admission(c, plan, policy, now);
            && d.kind == PlanAdmission && d.evaluatedAt == now && d.checkedHops == |plan.hops|
            && (d.admitted ==> d.reasonCodes == [Admitted])
            && d.routeDigest == Some(Sha256Digest(c, PlanJson(plan))) && d.attestationDigest == None
            && d.topologyDigest == Some(Sha256Digest(c, TopologyJson(policy.topology)))
            && d.policyDigest == Some(Sha256Digest(c, PolicyJson(policy, d.topologyDigest.value)))
            && d.requestedIntent == Some(plan.intent)
            && d.effectiveScope == (if HopHasScope(plan, policy, PublicMesh) then Some(PublicMesh)
                                    else if HopHasScope(plan, policy, PrivateMesh) then Some(PrivateMesh)
                                    else if HopKnown(plan, policy) then Some(DeviceOnly) else None)
            && d.requiredEvidence == (if plan.intent in policy.minimumEvidence
                                      then Some(policy.minimumEvidence[plan.intent]) else None)
            && d.effectiveEvidence == (if HopHasLevel(plan, policy, Observed) then Some(Observed)
                                       else if HopKnown(plan, policy) then Some(PeerAsserted) else None)
  {
    hide AdmissionReasons, Dedup, Sha256Digest, PlanJson, TopologyJson, PolicyJson, WidestScope, WeakestEvidence, RouteManifests,
         HopHasScope, HopHasLevel, HopKnown, RoutePlan.Valid, TopologySnapshot.Valid, PeersById;
    RouteOffers(plan, policy);
  }

  lemma ShorterPlansValid(plan: RoutePlan, p: seq<string>, q: seq<string>)
    requires p != [] && q != [] && Along(plan, p + q).Valid()
    ensures Along(plan, p).Valid() && Along(plan, q).Valid()
  {}

  /** Outside device-only intents, routes join along an edge exactly when both halves are admitted. */
  lemma RoutesCompose(c: Primitives, plan: RoutePlan, policy: AdmissionPolicy, now: DateTime, p: seq<string>, q: seq<string>)
    requires plan.intent != DeviceOnly && p != [] && q != []
    requires Along(plan, p + q).Valid() && policy.Valid()
    ensures Along(plan, p).Valid() && Along(plan, q).Valid()
    ensures Admission(c, Along(plan, p + q), policy, now).admitted <==>
            && Admission(c, Along(plan, p), policy, now).admitted && Admission(c, Along(plan, q), policy, now).admitted
            && (p[|p| - 1], q[0]) in AllowedEdges(policy.topology.edges)
            && (forall h :: !(h in p && h in q)) && |p| + |q| <= policy.maxHops
  {
    hide Admission, Admissible, DateTime.Valid, TopologySnapshot.Valid, AllowedEdges, Linked, HopsAdmissible, NoDuplicates, Along;
    ShorterPlansValid(plan, p, q);
    AdmissionExact(c, Along(plan, p + q), policy, now);
    AdmissionExact(c, Along(plan, p), policy, now);
    AdmissionExact(c, Along(plan, q), policy, now);
    AdmissibleAlong(c, plan, policy, now, p + q);
    AdmissibleAlong(c, plan, policy, now, p);
    AdmissibleAlong(c, plan, policy, now, q);
    JoinNoDuplicates(p, q);
    JoinLinked(p, q, AllowedEdges(policy.topology.edges));
    JoinHops(c, plan, policy, now, p, q);
  }

  /** A joined route is as wide as its wider half and as well evidenced as its weaker one. */
  lemma JoinedLevels(c: Primitives, plan: RoutePlan, policy: AdmissionPolicy, now: DateTime, p: seq<string>, q: seq<string>)
    requires plan.intent != DeviceOnly && p != [] && q != []
    requires Along(plan, p + q).Valid() && policy.Valid()
    requires Admission(c, Along(plan, p + q), policy, now).admitted
    ensures Along(plan, p).Valid() && Along(plan, q).Valid()
    ensures var d, e, f := Admission(c, Along(plan, p), policy, now), Admission(c, Along(plan, q), policy, now),
                           Admission(c, Along(plan, p + q), policy, now);
            && d.effectiveScope.Some? && e.effectiveScope.Some? && d.effectiveEvidence.Some? && e.effectiveEvidence.Some?
            && f.effectiveScope == WiderOf(d.effectiveScope, e.effectiveScope)
            && f.effectiveEvidence == WeakerOf(d.effectiveEvidence, e.effectiveEvidence)
  {
    hide Admission, Admissible, DateTime.Valid, TopologySnapshot.Valid, PeersById, WidestScope, WeakestEvidence, RouteManifests;
    RoutesCompose(c, plan, policy, now, p, q);
    AdmissionExact(c, Along(plan, p + q), policy, now);
    AdmissionExact(c, Along(plan, p), policy, now);
    AdmissionExact(c, Along(plan, q), policy, now);
    AdmissionLevels(c, Along(plan, p + q), policy, now);
    AdmissionLevels(c, Along(plan, p), policy, now);
    AdmissionLevels(c, Along(plan, q), policy, now);
    var peers := Manifests(policy);
    var a, b := RouteManifests(p, peers, |p|), RouteManifests(q, peers, |q|);
    RouteManifestsJoin(p, q, peers, |q|);
    assert Scopes(a + b) == Scopes(a) + Scopes(b) && Levels(a + b) == Levels(a) + Levels(b);
    WidestJoin(Scopes(a), Scopes(b));
    WeakestJoin(Levels(a), Levels(b));
  }
}

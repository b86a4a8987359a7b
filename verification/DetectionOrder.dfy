/**
 The order of `admit_plan`'s reason codes: clauses first, then edges along the route, then the
 hardware floor, then the hops in route order with one fixed order of checks per hop. Together
 with `ReasonsExact` this determines the whole tuple. The verifier lists the faults of one receipt
 after another, each receipt's in the fixed order of `Place`.
 */
module DetectionOrder {
  import opened Clock
  import opened Crypto
  import opened Models
  import opened Ordering
  import opened Policy
  import opened AdmissionTheorems
  import opened Attestation
  import opened VerificationTheorems
  import opened Wrappers

  // The place of the pair (s, t) along the route, or its length if the pair does not occur.
  function PairIndex(hops: seq<string>, s: string, t: string): (i: nat)
    ensures i <= |hops|
    ensures forall k :: 0 <= k < i && k + 1 < |hops| ==> !(hops[k] == s && hops[k + 1] == t)
    ensures i + 1 < |hops| ==> hops[i] == s && hops[i + 1] == t
  {
    if |hops| < 2 then |hops|
    else if hops[0] == s && hops[1] == t then 0
    else 1 + PairIndex(hops[1..], s, t)
  }

  function HopIndex(hops: seq<string>, id: string): nat {
    if id in hops then FirstIndex(hops, id) else |hops|
  }

  // The order of the checks on one peer.
  function CheckNumber(r: Reason): nat {
    match r
    case PeerNotYetValid(_) => 1
    case PeerExpired(_) => 2
    case ScopeWidening(_) => 3
    case ModelDigestMismatch(_) => 4
    case RuntimeDigestMismatch(_) => 5
    case PeerPublicKeyInvalid(_) => 6
    case PeerKeyBindingInvalid(_) => 7
    case EvidenceBelowFloor(_) => 8
    case _ => 0
  }

  // Where in the run of `admit_plan` a reason is first detected.
  function Rank(hops: seq<string>, r: Reason): nat {
    match r
    case IntentNotAllowed => 1
    case PlanNotYetValid => 2
    case PlanExpired => 3
    case TopologyNotYetValid => 4
    case TopologyExpired => 5
    case MaxHopsExceeded => 6
    case DuplicatePeer => 7
    case DeviceOnlyRequiresLocalSingleHop => 8
    case EdgeNotAllowed(s, t) => 9 + PairIndex(hops, s, t)
    case HardwareAttestationUnsupported => 10 + |hops|
    case _ => if ConcernsPeer(r) then 11 + |hops| + 9 * HopIndex(hops, r.peer) + CheckNumber(r) else 0
  }

  ghost predicate Ascending(hops: seq<string>, s: seq<Reason>) {
    forall i, j :: 0 <= i < j < |s| ==> Rank(hops, s[i]) < Rank(hops, s[j])
  }

  // The first occurrences in `s` ascend, and all of them lie below `bound`.
  ghost predicate InOrder(hops: seq<string>, s: seq<Reason>, bound: nat) {
    Ascending(hops, Dedup(s)) && forall r :: r in s ==> Rank(hops, r) < bound
  }

  lemma AppendAscends(hops: seq<string>, d: seq<Reason>, r: Reason)
    requires Ascending(hops, d) && forall i :: 0 <= i < |d| ==> Rank(hops, d[i]) < Rank(hops, r)
    ensures Ascending(hops, d + [r])
  {
    hide Rank;
  }

  lemma DedupSnoc(s: seq<Reason>, r: Reason)
    ensures Dedup(s + [r]) == if r in s then Dedup(s) else Dedup(s) + [r]
  {
    assert (s + [r])[..|s|] == s;
    DedupKeepsFirst(s);
  }

  // Noting a reason of higher rank, or one noted before, keeps the order.
  lemma NoteInOrder(hops: seq<string>, s: seq<Reason>, bound: nat, ok: bool, r: Reason, after: nat)
    requires InOrder(hops, s, bound) && bound <= after
    requires ok || r in s || bound <= Rank(hops, r) < after
    ensures InOrder(hops, Note(s, ok, r), after)
  {
    hide Rank, Ascending, Dedup;
    if !ok {
      DedupSnoc(s, r);
      if r !in s {
        DedupKeepsFirst(s);
        forall i | 0 <= i < |Dedup(s)| ensures Rank(hops, Dedup(s)[i]) < Rank(hops, r) { assert Dedup(s)[i] in s; }
        AppendAscends(hops, Dedup(s), r);
      }
    }
  }

  lemma ClausesInOrder(plan: RoutePlan, policy: AdmissionPolicy, now: DateTime)
    ensures InOrder(plan.hops, ClauseReasons(plan, policy, now), 9)
  {
    hide InOrder, Note, LocalSingleHop;
    var h, r := plan.hops, [];
    EmptyInOrder(h);
    NoteInOrder(h, [], 1, plan.intent in policy.allowedIntents, IntentNotAllowed, 2);
    r := Note([], plan.intent in policy.allowedIntents, IntentNotAllowed);
    NoteInOrder(h, r, 2, plan.createdAt.instant <= now.instant, PlanNotYetValid, 3);
    r := Note(r, plan.createdAt.instant <= now.instant, PlanNotYetValid);
    NoteInOrder(h, r, 3, now.instant < plan.expiresAt.instant, PlanExpired, 4);
    r := Note(r, now.instant < plan.expiresAt.instant, PlanExpired);
    NoteInOrder(h, r, 4, policy.topology.capturedAt.instant <= now.instant, TopologyNotYetValid, 5);
    r := Note(r, policy.topology.capturedAt.instant <= now.instant, TopologyNotYetValid);
    NoteInOrder(h, r, 5, now.instant < policy.topology.expiresAt.instant, TopologyExpired, 6);
    r := Note(r, now.instant < policy.topology.expiresAt.instant, TopologyExpired);
    NoteInOrder(h, r, 6, |plan.hops| <= policy.maxHops, MaxHopsExceeded, 7);
    r := Note(r, |plan.hops| <= policy.maxHops, MaxHopsExceeded);
    NoteInOrder(h, r, 7, |plan.hops| == |set h | h in plan.hops|, DuplicatePeer, 8);
    r := Note(r, |plan.hops| == |set h | h in plan.hops|, DuplicatePeer);
    NoteInOrder(h, r, 8, plan.intent == DeviceOnly ==> LocalSingleHop(plan, policy), DeviceOnlyRequiresLocalSingleHop, 9);
  }

  lemma EmptyInOrder(hops: seq<string>)
    ensures InOrder(hops, [], 1)
  {}

  lemma {:induction false} EdgesInOrder(start: seq<Reason>, hops: seq<string>, edges: set<(string, string)>, n: nat)
    requires n < |hops| || n == 0
    requires InOrder(hops, start, 9)
    ensures InOrder(hops, EdgeReasons(start, hops, edges, n), 9 + n)
  {
    hide InOrder, Note;
    if n > 0 {
      EdgesInOrder(start, hops, edges, n - 1);
      var before, s, t := EdgeReasons(start, hops, edges, n - 1), hops[n - 1], hops[n];
      var first := PairIndex(hops, s, t);
      if (s, t) !in edges && first < n - 1 {
        EdgeMembers(start, hops, edges, n - 1, EdgeNotAllowed(s, t));
        assert (hops[first], hops[first + 1]) !in edges;
      }
      NoteInOrder(hops, before, 9 + n - 1, (s, t) in edges, EdgeNotAllowed(s, t), 9 + n);
    }
  }

  lemma PeerInOrder(start: seq<Reason>, c: Primitives, plan: RoutePlan, peer: PeerManifest, id: string,
                    required: Option<EvidenceLevel>, now: DateTime, base: nat)
    requires id in plan.hops && base == 11 + |plan.hops| + 9 * HopIndex(plan.hops, id)
    requires InOrder(plan.hops, start, base)
    ensures InOrder(plan.hops, PeerReasons(start, c, plan, peer, id, required, now), base + 9)
  {
    hide InOrder, Note, DeriveKeyId, ScopeRank, MeetsFloor, HopIndex;
    var h, r := plan.hops, start;
    var key := DeriveKeyId(c, peer.publicKey);
    NoteInOrder(h, r, base, peer.validFrom.instant <= now.instant, PeerNotYetValid(id), base + 2);
    r := Note(r, peer.validFrom.instant <= now.instant, PeerNotYetValid(id));
    NoteInOrder(h, r, base + 2, now.instant < peer.expiresAt.instant, PeerExpired(id), base + 3);
    r := Note(r, now.instant < peer.expiresAt.instant, PeerExpired(id));
    NoteInOrder(h, r, base + 3, ScopeRank(peer.executionScope) <= ScopeRank(plan.intent), ScopeWidening(id), base + 4);
    r := Note(r, ScopeRank(peer.executionScope) <= ScopeRank(plan.intent), ScopeWidening(id));
    NoteInOrder(h, r, base + 4, peer.modelDigest == plan.modelDigest, ModelDigestMismatch(id), base + 5);
    r := Note(r, peer.modelDigest == plan.modelDigest, ModelDigestMismatch(id));
    NoteInOrder(h, r, base + 5, peer.runtimeDigest == plan.runtimeDigest, RuntimeDigestMismatch(id), base + 6);
    r := Note(r, peer.runtimeDigest == plan.runtimeDigest, RuntimeDigestMismatch(id));
    NoteInOrder(h, r, base + 6, key.Some?, PeerPublicKeyInvalid(id), base + 7);
    r := Note(r, key.Some?, PeerPublicKeyInvalid(id));
    NoteInOrder(h, r, base + 7, key.Some? ==> key.value == peer.keyId, PeerKeyBindingInvalid(id), base + 8);
    r := Note(r, key.Some? ==> key.value == peer.keyId, PeerKeyBindingInvalid(id));
    NoteInOrder(h, r, base + 8, MeetsFloor(peer.evidenceLevel, required), EvidenceBelowFloor(id), base + 9);
  }

  lemma NotesExtend()
    ensures forall r, ok, x {:trigger Note(r, ok, x)} :: r <= Note(r, ok, x)
  {}

  lemma PeerExtends(start: seq<Reason>, c: Primitives, plan: RoutePlan, peer: PeerManifest, id: string,
                    required: Option<EvidenceLevel>, now: DateTime)
    ensures start <= PeerReasons(start, c, plan, peer, id, required, now)
  {
    NotesExtend();
    hide Note, DeriveKeyId, ScopeRank, MeetsFloor;
  }

  lemma {:induction false} DedupKnown(s: seq<Reason>, t: seq<Reason>)
    requires s <= t && forall r :: r in t ==> r in s
    ensures Dedup(t) == Dedup(s)
    decreases |t|
  {
    if |t| > |s| {
      var u, last := t[..|t| - 1], t[|t| - 1];
      assert forall r :: r in u ==> r in t;
      DedupKnown(s, u);
      DedupKeepsFirst(u);
      assert s <= u;
      assert last in s;
      assert forall r :: r in s ==> r in u;
    } else {
      assert t == s;
    }
  }

  // A hop that occurred before reports nothing that was not reported then.
  lemma RepeatedHopAddsNothing(start: seq<Reason>, c: Primitives, plan: RoutePlan, peers: map<string, PeerManifest>,
                               required: Option<EvidenceLevel>, now: DateTime, n: nat, k: nat)
    requires k < n - 1 && n <= |plan.hops| && plan.hops[k] == plan.hops[n - 1]
    ensures Dedup(HopReasons(start, c, plan, peers, required, now, n)) == Dedup(HopReasons(start, c, plan, peers, required, now, n - 1))
    ensures forall r :: r in HopReasons(start, c, plan, peers, required, now, n) ==> r in HopReasons(start, c, plan, peers, required, now, n - 1)
  {
    hide PeerReasons, HopFault, Dedup;
    var before, after := HopReasons(start, c, plan, peers, required, now, n - 1), HopReasons(start, c, plan, peers, required, now, n);
    forall r | r in after ensures r in before {
      HopMembers(start, c, plan, peers, required, now, n, r);
      HopMembers(start, c, plan, peers, required, now, n - 1, r);
    }
    if plan.hops[n - 1] in peers {
      PeerExtends(before, c, plan, peers[plan.hops[n - 1]], plan.hops[n - 1], required, now);
    }
    DedupKnown(before, after);
  }

  lemma HopIndexFirst(hops: seq<string>, n: nat)
    requires 0 < n <= |hops|
    ensures HopIndex(hops, hops[n - 1]) <= n - 1 && hops[HopIndex(hops, hops[n - 1])] == hops[n - 1]
  {
    var i := FirstIndex(hops, hops[n - 1]);
    assert forall k :: 0 <= k < i ==> hops[..i][k] == hops[k];
  }

  lemma WeakenBound(hops: seq<string>, s: seq<Reason>, t: seq<Reason>, bound: nat, after: nat)
    requires InOrder(hops, s, bound) && bound <= after && Dedup(t) == Dedup(s) && forall r :: r in t ==> r in s
    ensures InOrder(hops, t, after)
  {}

  lemma {:induction false} HopsInOrder(start: seq<Reason>, c: Primitives, plan: RoutePlan, peers: map<string, PeerManifest>,
                                       required: Option<EvidenceLevel>, now: DateTime, n: nat)
    requires n <= |plan.hops| && InOrder(plan.hops, start, 11 + |plan.hops|)
    ensures InOrder(plan.hops, HopReasons(start, c, plan, peers, required, now, n), 11 + |plan.hops| + 9 * n)
  {
    hide InOrder, PeerReasons, Dedup, HopIndex, PairIndex;
    if n > 0 {
      HopsInOrder(start, c, plan, peers, required, now, n - 1);
      var before, after := HopReasons(start, c, plan, peers, required, now, n - 1), HopReasons(start, c, plan, peers, required, now, n);
      var id, base := plan.hops[n - 1], 11 + |plan.hops| + 9 * (n - 1);
      HopIndexFirst(plan.hops, n);
      if HopIndex(plan.hops, id) < n - 1 {
        RepeatedHopAddsNothing(start, c, plan, peers, required, now, n, HopIndex(plan.hops, id));
        WeakenBound(plan.hops, before, after, base, base + 9);
      } else if id in peers {
        PeerInOrder(before, c, plan, peers[id], id, required, now, base);
      } else {
        NoteInOrder(plan.hops, before, base, false, PeerUnknown(id), base + 9);
      }
    }
  }

  lemma AdmissionInOrder(c: Primitives, plan: RoutePlan, policy: AdmissionPolicy, now: DateTime)
    ensures InOrder(plan.hops, AdmissionReasons(c, plan, policy, now), 11 + |plan.hops| + 9 * |plan.hops|)
  {
    hide InOrder, ClauseReasons, EdgeReasons, HopReasons, Note, AllowedEdges, PeersById, Required;
    var required, peers, edges := Required(plan, policy), PeersById(policy.topology.peers), AllowedEdges(policy.topology.edges);
    var r0 := ClauseReasons(plan, policy, now);
    var r1 := EdgeReasons(r0, plan.hops, edges, Pairs(plan.hops));
    var r2 := Note(r1, required != Some(HardwareAttested), HardwareAttestationUnsupported);
    ClausesInOrder(plan, policy, now);
    EdgesInOrder(r0, plan.hops, edges, Pairs(plan.hops));
    NoteInOrder(plan.hops, r1, 9 + Pairs(plan.hops), required != Some(HardwareAttested), HardwareAttestationUnsupported, 11 + |plan.hops|);
    HopsInOrder(r2, c, plan, peers, required, now, |plan.hops|);
  }

  /** The reason codes of a denied plan are listed in ascending rank. */
  lemma ReasonsAscend(c: Primitives, plan: RoutePlan, policy: AdmissionPolicy, now: DateTime)
    requires plan.Valid() && policy.Valid() && !Admission(c, plan, policy, now).admitted
    ensures Ascending(plan.hops, Admission(c, plan, policy, now).reasonCodes)
  {
    hide *;
    AdmissionShape(c, plan, policy, now);
    AdmissionInOrder(c, plan, policy, now);
    OrderedFirsts(plan.hops, AdmissionReasons(c, plan, policy, now), 11 + |plan.hops| + 9 * |plan.hops|);
  }

  lemma OrderedFirsts(hops: seq<string>, s: seq<Reason>, bound: nat)
    requires InOrder(hops, s, bound)
    ensures Ascending(hops, Dedup(s))
  {}

  /** Membership and rank leave no freedom: the tuple of reason codes is determined. */
  lemma {:induction false} AscendingUnique(hops: seq<string>, s: seq<Reason>, t: seq<Reason>)
    requires Ascending(hops, s) && Ascending(hops, t) && forall r :: r in s <==> r in t
    ensures s == t
  {
    hide Rank;
    assert s != [] ==> s[0] in s;
    assert t != [] ==> t[0] in t;
    if s != [] {
      var i :| 0 <= i < |t| && t[i] == s[0];
      var j :| 0 <= j < |s| && s[j] == t[0];
      assert s[0] == t[0];
      forall r ensures r in s[1..] <==> r in t[1..] {
        TailMembers(hops, s, r);
        TailMembers(hops, t, r);
      }
      AscendingUnique(hops, s[1..], t[1..]);
      assert s == [s[0]] + s[1..] && t == [t[0]] + t[1..];
    }
  }

  lemma TailMembers(hops: seq<string>, s: seq<Reason>, r: Reason)
    requires s != [] && Ascending(hops, s)
    ensures r in s[1..] <==> r in s && r != s[0]
  {
    hide Rank;
    assert s == [s[0]] + s[1..];
    if r in s[1..] {
      var k :| 0 <= k < |s[1..]| && s[1..][k] == r;
      assert s[k + 1] == r;
    }
  }

  // ---- The verifier's codes ---------------------------------------------------------------

  function FieldPlace(f: BoundField): nat {
    match f
    case RequestIdField => 1
    case NonceField => 2
    case RequestCommitmentField => 3
    case RoutePlanDigestField => 4
    case PolicyDigestField => 5
    case TopologyDigestField => 6
    case IntentField => 7
    case HopIndexField => 8
    case HopCountField => 9
    case PeerIdField => 10
    case PreviousPeerField => 11
    case NextPeerField => 12
    case PreviousReceiptDigestField => 13
    case ModelDigestField => 14
    case RuntimeDigestField => 15
  }

  // The order of the checks on one receipt.
  function Place(r: Reason): nat {
    match r
    case ReceiptMismatch(f) => FieldPlace(f)
    case PeerUnknown(_) => 16
    case ReceiptOutsidePlanWindow => 17
    case ReceiptFromFuture => 18
    case ReceiptOutsideTopologyWindow => 19
    case ReceiptTimeReversed => 20
    case ReceiptOutsidePeerWindow => 21
    case ReceiptKeyIdMismatch => 22
    case ReceiptPublicKeyInvalid => 23
    case ReceiptKeyBindingInvalid => 24
    case SignatureInvalid => 25
    case ReceiptEvidenceExceedsManifest => 26
    case ReceiptEvidenceBelowFloor => 27
    case _ => 0
  }

  // Strictly ascending places below `bound`.
  ghost predicate Placed(s: seq<Reason>, bound: nat) {
    && (forall i, j :: 0 <= i < j < |s| ==> Place(s[i]) < Place(s[j]))
    && forall i :: 0 <= i < |s| ==> Place(s[i]) < bound
  }

  lemma NotesPlaced()
    ensures forall s, ok, x, b: nat {:trigger Placed(s, b), Note(s, ok, x)} :: Placed(s, b) && b <= Place(x) ==> Placed(Note(s, ok, x), Place(x) + 1)
  {
    hide Place;
  }

  lemma RequestPlaces()
    ensures Place(ReceiptMismatch(RequestIdField)) == 1
    ensures Place(ReceiptMismatch(NonceField)) == 2
    ensures Place(ReceiptMismatch(RequestCommitmentField)) == 3
    ensures Place(ReceiptMismatch(RoutePlanDigestField)) == 4
    ensures Place(ReceiptMismatch(PolicyDigestField)) == 5
    ensures Place(ReceiptMismatch(TopologyDigestField)) == 6
    ensures Place(ReceiptMismatch(IntentField)) == 7
  {}

  lemma PositionPlaces()
    ensures Place(ReceiptMismatch(HopIndexField)) == 8
    ensures Place(ReceiptMismatch(HopCountField)) == 9
    ensures Place(ReceiptMismatch(PeerIdField)) == 10
    ensures Place(ReceiptMismatch(PreviousPeerField)) == 11
    ensures Place(ReceiptMismatch(NextPeerField)) == 12
    ensures Place(ReceiptMismatch(PreviousReceiptDigestField)) == 13
    ensures Place(ReceiptMismatch(ModelDigestField)) == 14
    ensures Place(ReceiptMismatch(RuntimeDigestField)) == 15
  {}

  lemma NotesAppend()
    ensures forall r, s, ok, x {:trigger Note(r + s, ok, x)} :: Note(r + s, ok, x) == r + Note(s, ok, x)
  {
    forall r: seq<Reason>, s, ok, x ensures Note(r + s, ok, x) == r + Note(s, ok, x) {
      assert r + s + [x] == r + (s + [x]);
    }
  }

  lemma RequestAppend(r: seq<Reason>, s: seq<Reason>, b: Payload, plan: RoutePlan, e: Expected)
    ensures RequestReasons(r + s, b, plan, e) == r + RequestReasons(s, b, plan, e)
  {
    NotesAppend();
    hide Note;
  }

  lemma RequestPlaced(s: seq<Reason>, b: Payload, plan: RoutePlan, e: Expected)
    requires Placed(s, 1)
    ensures Placed(RequestReasons(s, b, plan, e), 8)
  {
    NotesPlaced();
    RequestPlaces();
    hide Note, Placed, Place;
  }

  lemma PositionAppend(r: seq<Reason>, s: seq<Reason>, b: Payload, plan: RoutePlan, i: nat, previous: Option<string>)
    requires i < |plan.hops|
    ensures PositionReasons(r + s, b, plan, i, previous) == r + PositionReasons(s, b, plan, i, previous)
  {
    NotesAppend();
    hide Note, PreviousPeer, NextPeer;
  }

  lemma PositionPlaced(s: seq<Reason>, b: Payload, plan: RoutePlan, i: nat, previous: Option<string>)
    requires i < |plan.hops| && Placed(s, 8)
    ensures Placed(PositionReasons(s, b, plan, i, previous), 16)
  {
    NotesPlaced();
    PositionPlaces();
    hide Note, Placed, Place, PreviousPeer, NextPeer;
  }

  lemma TimeAppend(r: seq<Reason>, s: seq<Reason>, t: int, earlier: Option<DateTime>, plan: RoutePlan, policy: AdmissionPolicy, m: PeerManifest, now: DateTime)
    ensures TimeReasons(r + s, t, earlier, plan, policy, m, now) == r + TimeReasons(s, t, earlier, plan, policy, m, now)
  {
    NotesAppend();
    hide Note;
  }

  lemma TimePlaced(s: seq<Reason>, t: int, earlier: Option<DateTime>, plan: RoutePlan, policy: AdmissionPolicy, m: PeerManifest, now: DateTime)
    requires Placed(s, 16)
    ensures Placed(TimeReasons(s, t, earlier, plan, policy, m, now), 22)
  {
    NotesPlaced();
    hide Note, Placed;
  }

  lemma KeyAppend(r: seq<Reason>, s: seq<Reason>, c: Primitives, receipt: HopReceipt, m: PeerManifest, required: EvidenceLevel)
    requires receipt.body.observedAt.Valid()
    ensures KeyReasons(r + s, c, receipt, m, required) == r + KeyReasons(s, c, receipt, m, required)
  {
    NotesAppend();
    hide Note, DeriveKeyId, VerifyEd25519, PayloadBytes, EvidenceRank, EffectiveEvidence, DateTime.Valid;
  }

  lemma KeyPlaced(s: seq<Reason>, c: Primitives, receipt: HopReceipt, m: PeerManifest, required: EvidenceLevel)
    requires receipt.body.observedAt.Valid() && Placed(s, 22)
    ensures Placed(KeyReasons(s, c, receipt, m, required), 28)
  {
    NotesPlaced();
    hide Note, Placed, DeriveKeyId, VerifyEd25519, PayloadBytes, EvidenceRank, EffectiveEvidence, DateTime.Valid;
  }

  // The faults of receipt `i`, in the order of the checks.
  ghost predicate FaultList(c: Primitives, a: RouteAttestation, policy: AdmissionPolicy, e: Expected, required: EvidenceLevel,
                            now: DateTime, i: nat, s: seq<Reason>)
    requires a.Valid() && i < |a.receipts| && i < |a.plan.hops|
  {
    Placed(s, 28) && forall code :: code in s <==> FaultAt(c, a, policy, e, required, now, i, code)
  }

  lemma ReceiptListed(c: Primitives, a: RouteAttestation, policy: AdmissionPolicy, e: Expected, required: EvidenceLevel,
                      now: DateTime, i: nat, before: seq<Reason>) returns (own: seq<Reason>)
    requires a.Valid() && i < |a.receipts| && i < |a.plan.hops| && a.plan.hops[i] in Manifests(policy)
    ensures FaultList(c, a, policy, e, required, now, i, own)
    ensures var r, m := a.receipts[i], Manifests(policy)[a.plan.hops[i]];
            KeyReasons(TimeReasons(BindingReasons(before, r.body, a.plan, e, i, Predecessor(c, a.receipts, i)),
                                   r.body.observedAt.instant, Earlier(a.receipts, i), a.plan, policy, m, now), c, r, m, required)
            == before + own
  {
    hide RequestReasons, PositionReasons, TimeReasons, KeyReasons, RequestDiffers, PositionDiffers, TimeFault, KeyFault, Predecessor,
         Manifests, Placed, DateTime.Valid, RoutePlan.Valid;
    var r, m, previous := a.receipts[i], Manifests(policy)[a.plan.hops[i]], Predecessor(c, a.receipts, i);
    var t, earlier := r.body.observedAt.instant, Earlier(a.receipts, i);
    assert before + [] == before;
    NonePlaced();
    var r1 := RequestReasons([], r.body, a.plan, e);
    RequestAppend(before, [], r.body, a.plan, e);
    RequestPlaced([], r.body, a.plan, e);
    var r2 := PositionReasons(r1, r.body, a.plan, i, previous);
    PositionAppend(before, r1, r.body, a.plan, i, previous);
    PositionPlaced(r1, r.body, a.plan, i, previous);
    var r3 := TimeReasons(r2, t, earlier, a.plan, policy, m, now);
    TimeAppend(before, r2, t, earlier, a.plan, policy, m, now);
    TimePlaced(r2, t, earlier, a.plan, policy, m, now);
    own := KeyReasons(r3, c, r, m, required);
    KeyAppend(before, r3, c, r, m, required);
    KeyPlaced(r3, c, r, m, required);
    forall code ensures code in own <==> FaultAt(c, a, policy, e, required, now, i, code) {
      RequestMembers([], r.body, a.plan, e, code);
      PositionMembers(r1, r.body, a.plan, i, previous, code);
      TimeMembers(r2, t, earlier, a.plan, policy, m, now, code);
      KeyMembers(r3, c, r, m, required, code);
    }
  }

  lemma NonePlaced()
    ensures Placed([], 1)
  {}

  function Flatten(ss: seq<seq<Reason>>): seq<Reason> {
    if ss == [] then [] else Flatten(ss[..|ss| - 1]) + ss[|ss| - 1]
  }

  lemma {:induction false} ReceiptsListed(start: seq<Reason>, c: Primitives, a: RouteAttestation, policy: AdmissionPolicy, e: Expected,
                                          required: EvidenceLevel, now: DateTime, n: nat) returns (found: seq<seq<Reason>>)
    requires a.Valid() && n <= |a.receipts| && n <= |a.plan.hops|
    requires forall i :: 0 <= i < n ==> a.plan.hops[i] in Manifests(policy)
    ensures |found| == n && forall i :: 0 <= i < n ==> FaultList(c, a, policy, e, required, now, i, found[i])
    ensures ReceiptReasons(start, c, a, policy, e, required, now, n) == start + Flatten(found)
  {
    hide BindingReasons, TimeReasons, KeyReasons, FaultList, Predecessor, PeersById, DateTime.Valid, RoutePlan.Valid;
    found := [];
    if n > 0 {
      found := ReceiptsListed(start, c, a, policy, e, required, now, n - 1);
      var before := ReceiptReasons(start, c, a, policy, e, required, now, n - 1);
      var own := ReceiptListed(c, a, policy, e, required, now, n - 1, before);
      assert (found + [own])[..n - 1] == found;
      assert start + Flatten(found) + own == start + (Flatten(found) + own);
      found := found + [own];
    }
  }

  /** The verifier's whole tuple: a wrong count, the faults of each receipt in turn, a receipt too many; first occurrences kept. */
  lemma VerificationOrder(c: Primitives, a: RouteAttestation, policy: AdmissionPolicy, now: DateTime)
    requires a.Valid() && policy.Valid() && Admission(c, a.plan, policy, now).admitted
    requires !Verification(c, a, policy, now, true).admitted
    ensures a.plan.intent in policy.minimumEvidence
    ensures exists found: seq<seq<Reason>> ::
              && |found| == Covered(a)
              && (forall i :: 0 <= i < |found| ==>
                    FaultList(c, a, policy, ExpectedDigests(c, a.plan, policy), policy.minimumEvidence[a.plan.intent], now, i, found[i]))
              && Verification(c, a, policy, now, true).reasonCodes
                 == Dedup((if |a.receipts| == |a.plan.hops| then [] else [ReceiptCountMismatch]) + Flatten(found)
                          + if |a.receipts| > |a.plan.hops| then [ExtraReceipt] else [])
  {
    hide Admission, ReceiptReasons, ReceiptLevels, ExpectedDigests, Manifests, AttestationDigest, WeakestEvidence, Dedup, FaultList, Flatten,
         TopologySnapshot.Valid, DateTime.Valid, RoutePlan.Valid;
    AdmittedHasFloor(c, a.plan, policy, now);
    forall i | 0 <= i < Covered(a) ensures a.plan.hops[i] in Manifests(policy) { AdmittedHopsPinned(c, a.plan, policy, now, i); }
    var start := Note([], |a.receipts| == |a.plan.hops|, ReceiptCountMismatch);
    var found := ReceiptsListed(start, c, a, policy, ExpectedDigests(c, a.plan, policy), policy.minimumEvidence[a.plan.intent], now, Covered(a));
    assert start == if |a.receipts| == |a.plan.hops| then [] else [ReceiptCountMismatch];
    assert start + Flatten(found) + [] == start + Flatten(found);
  }
}

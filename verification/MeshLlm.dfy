/**
 The Mesh-LLM status projection (src/locusmesh/adapters/mesh_llm.py:114-230, 256-301): an
 allowlist of status fields becomes an observation that carries no admission authority.
 */
module MeshLlm {
  import opened CanonicalJson
  import opened Clock
  import opened Crypto
  import opened Models
  import opened Ordering
  import opened Serialization
  import opened Wrappers

  type Fields = seq<(string, Json)>

  // ---- Contracts (src/locusmesh/models.py:150-257) ----------------------------------------

  predicate IdStart(c: char) { 'A' <= c <= 'Z' || 'a' <= c <= 'z' || '0' <= c <= '9' }
  predicate IdPart(c: char) { IdStart(c) || c == '.' || c == '_' || c == ':' || c == '-' }

  // The `PeerId` pattern.
  predicate ValidPeerId(s: string) {
    1 <= |s| <= 128 && IdStart(s[0]) && forall i :: 0 <= i < |s| ==> IdPart(s[i])
  }

  // The `StateLabel` pattern.
  predicate ValidStateLabel(s: string) {
    && 1 <= |s| <= 64 && 'a' <= s[0] <= 'z'
    && forall i :: 0 <= i < |s| ==> 'a' <= s[i] <= 'z' || '0' <= s[i] <= '9' || s[i] == '_' || s[i] == '-'
  }

  predicate Unique<T(==)>(s: seq<T>) { forall i, j :: 0 <= i < j < |s| ==> s[i] != s[j] }

  predicate ModelNames(ms: seq<string>) {
    |ms| <= 256 && Unique(ms) && forall i :: 0 <= i < |ms| ==> 1 <= |ms[i]| <= 512
  }

  // `evidence_level`, `admission_authority` and the boundary reasons are constants of the type.
  datatype Candidate = Candidate(
    provider: string, candidateId: string, localNode: bool, state: string, servingModels: seq<string>,
    ownerVerified: bool, observedScope: ExecutionIntent)
  {
    predicate Valid() {
      && ValidPeerId(candidateId) && ValidStateLabel(state) && ModelNames(servingModels)
      && observedScope != DeviceOnly
    }
  }

  datatype Remark =
    | ObservationOnly | UnversionedProviderSchema
    | PrivateLanStatusSignal | PublicOrAmbiguousStatusSignal
    | ScopeSignalWithinMaximum | ScopeSignalExceedsMaximum

  datatype Observation = Observation(
    provider: string, providerVersion: string, providerContract: string, sourceEndpoint: string,
    projectionDigest: string, observedAt: DateTime, expiresAt: int, requestedMaxScope: ExecutionIntent,
    observedScope: ExecutionIntent, withinRequestedScope: bool, candidates: seq<Candidate>, remarks: seq<Remark>)
  {
    predicate Valid() {
      && 1 <= |providerVersion| <= 64 && 1 <= |providerContract| <= 128 && 1 <= |sourceEndpoint| <= 512
      && observedAt.Valid() && observedAt.instant < expiresAt && expiresAt - observedAt.instant <= 60_000_000
      && observedScope != DeviceOnly
      && 1 <= |candidates| <= 256
      && (forall i :: 0 <= i < |candidates| ==> candidates[i].Valid())
      && (forall i, j :: 0 <= i < j < |candidates| ==> candidates[i].candidateId != candidates[j].candidateId)
      && (forall i :: 0 <= i < |candidates| ==>
            candidates[i].provider == provider && candidates[i].observedScope == observedScope)
      && Unique(remarks)
      && (if withinRequestedScope then ScopeSignalWithinMaximum else ScopeSignalExceedsMaximum) in remarks
      && (if observedScope == PrivateMesh then PrivateLanStatusSignal else PublicOrAmbiguousStatusSignal) in remarks
      && (withinRequestedScope <==> ScopeRank(observedScope) <= ScopeRank(requestedMaxScope))
      && ObservationOnly in remarks
    }
  }

  // ---- Reading the status -----------------------------------------------------------------

  // `dict.get`; in a Python dict a repeated key would have kept its last value.
  function Get(fields: Fields, key: string): Option<Json> {
    if fields == [] then None
    else if fields[|fields| - 1].0 == key then Some(fields[|fields| - 1].1)
    else Get(fields[..|fields| - 1], key)
  }

  /** `_reject_duplicate_keys`: parsing succeeds exactly on distinct keys, and loses no member. */
  method RejectDuplicateKeys(pairs: Fields) returns (r: Option<map<string, Json>>)
    ensures r.Some? <==> DistinctKeys(pairs)
    ensures r.Some? ==> r.value.Keys == (set i | 0 <= i < |pairs| :: pairs[i].0)
    ensures r.Some? ==> forall i :: 0 <= i < |pairs| ==> r.value[pairs[i].0] == pairs[i].1
  {
    var result: map<string, Json> := map[];
    for n := 0 to |pairs|
      invariant result.Keys == (set i | 0 <= i < n :: pairs[i].0)
      invariant forall i :: 0 <= i < n ==> result[pairs[i].0] == pairs[i].1
      invariant DistinctKeys(pairs[..n])
    {
      if pairs[n].0 in result {
        var i :| 0 <= i < n && pairs[i].0 == pairs[n].0;
        return None;
      }
      result := result[pairs[n].0 := pairs[n].1];
    }
    assert pairs[..|pairs|] == pairs;
    r := Some(result);
  }

  // The five helpers: None where the code raises TypeError or ValueError, which `observe`
  // turns into one redacted error.
  function StringOf(j: Option<Json>, maximum: nat): Option<string> {
    if j.Some? && j.value.JStr? && 1 <= |j.value.s| <= maximum then Some(j.value.s) else None
  }

  function BooleanOf(j: Option<Json>): Option<bool> {
    if j.Some? && j.value.JBool? then Some(j.value.b) else None
  }

  function MappingOf(j: Option<Json>): Option<Fields> {
    if j.Some? && j.value.JObj? then Some(j.value.fields) else None
  }

  // `str.lower` on ASCII letters; no other character lowers into a node state.
  function Lower(s: string): string {
    seq(|s|, i requires 0 <= i < |s| => if 'A' <= s[i] <= 'Z' then (s[i] as int + 32) as char else s[i])
  }

  function StateOf(j: Option<Json>): Option<string> {
    var s := StringOf(j, 64);
    if s.None? then None
    else
      var state := Lower(s.value);
      if state == "client" || state == "standby" || state == "loading" || state == "serving" then Some(state) else None
  }

  function Names(items: seq<Json>): seq<string> {
    seq(|items|, i requires 0 <= i < |items| => if items[i].JStr? then items[i].s else "")
  }

  function ModelsOf(j: Option<Json>): Option<seq<string>> {
    if j.None? || !j.value.JArr? || |j.value.items| > 256 then None
    else if exists i :: 0 <= i < |j.value.items| && !(j.value.items[i].JStr? && 1 <= |j.value.items[i].s| <= 512) then None
    else if !Unique(Names(j.value.items)) then None
    else Some(Names(j.value.items))
  }

  function OwnerVerified(j: Option<Json>): Option<bool> {
    var owner := MappingOf(j);
    if owner.None? then None else BooleanOf(Get(owner.value, "verified"))
  }

  datatype Projected = Projected(candidateId: string, state: string, servingModels: seq<string>, ownerVerified: bool)

  datatype Discovery = Discovery(mode: string, scope: string, source: string, nostr: bool, publication: string)

  // The whole of what is read from a status.
  datatype Selected = Selected(version: string, local: Projected, discovery: Discovery, peers: seq<Projected>)

  function ProjectNode(id: Option<Json>, state: Option<Json>, models: Option<Json>, owner: Option<Json>): Option<Projected> {
    var i, s, m, v := StringOf(id, 128), StateOf(state), ModelsOf(models), OwnerVerified(owner);
    if i.None? || s.None? || m.None? || v.None? then None else Some(Projected(i.value, s.value, m.value, v.value))
  }

  function ProjectPeer(raw: Json): Option<Projected> {
    if !raw.JObj? then None
    else ProjectNode(Get(raw.fields, "id"), Get(raw.fields, "state"), Get(raw.fields, "serving_models"), Get(raw.fields, "owner"))
  }

  function ProjectPeers(peers: seq<Json>, n: nat): Option<seq<Projected>>
    requires n <= |peers|
  {
    if n == 0 then Some([])
    else
      var before, peer := ProjectPeers(peers, n - 1), ProjectPeer(peers[n - 1]);
      if before.None? || peer.None? then None else Some(before.value + [peer.value])
  }

  function ReadDiscovery(f: Fields): Option<Discovery> {
    var mode, scope, source := StringOf(Get(f, "mesh_discovery_mode"), 64), StringOf(Get(f, "discovery_scope"), 64),
                               StringOf(Get(f, "discovery_source"), 128);
    var nostr, publication := BooleanOf(Get(f, "nostr_discovery")), StringOf(Get(f, "publication_state"), 64);
    if mode.None? || scope.None? || source.None? || nostr.None? || publication.None? then None
    else Some(Discovery(mode.value, scope.value, source.value, nostr.value, publication.value))
  }

  function ReadLocal(f: Fields): Option<Projected> {
    ProjectNode(Get(f, "node_id"), Get(f, "node_state"), Get(f, "serving_models"), Get(f, "owner"))
  }

  function ReadPeers(f: Fields): Option<seq<Projected>> {
    var peers := Get(f, "peers");
    if peers.None? || !peers.value.JArr? || |peers.value.items| >= 256 then None
    else ProjectPeers(peers.value.items, |peers.value.items|)
  }

  function Select(f: Fields): Option<Selected> {
    var version, local, discovery, peers := StringOf(Get(f, "version"), 64), ReadLocal(f), ReadDiscovery(f), ReadPeers(f);
    if version.None? || local.None? || discovery.None? || peers.None? then None
    else Some(Selected(version.value, local.value, discovery.value, peers.value))
  }

  // The widest signal wins; mesh transport is never device-only.
  predicate ExplicitlyPrivate(d: Discovery) {
    && d.publication == "private"
    && (d.scope == "private" || d.scope == "lan" || d.scope == "local")
    && (d.mode == "mdns" || d.mode == "private" || d.mode == "local")
    && !d.nostr
  }

  function ObservedScope(d: Discovery): ExecutionIntent {
    if ExplicitlyPrivate(d) then PrivateMesh else PublicMesh
  }

  // ---- The projection and its digest ------------------------------------------------------

  const PROVIDER: string := "mesh_llm"

  const NODE_KEYS: seq<string> := ["candidate_id", "state", "serving_models", "provider_claimed_owner_verified"]

  function NodeJson(p: Projected): Json {
    Record(NODE_KEYS, [JStr(p.candidateId), JStr(p.state), Texts(p.servingModels), JBool(p.ownerVerified)])
  }

  const DISCOVERY_KEYS: seq<string> :=
    ["mesh_discovery_mode", "discovery_scope", "discovery_source", "nostr_discovery", "publication_state"]

  function DiscoveryJson(d: Discovery): Json {
    Record(DISCOVERY_KEYS, [JStr(d.mode), JStr(d.scope), JStr(d.source), JBool(d.nostr), JStr(d.publication)])
  }

  const PROJECTION_KEYS: seq<string> := ["provider", "provider_version", "local", "peers", "discovery"]

  function NodeList(ps: seq<Projected>): Json {
    JArr(seq(|ps|, i requires 0 <= i < |ps| => NodeJson(ps[i])))
  }

  function ProjectionJson(s: Selected): Json {
    Record(PROJECTION_KEYS, [JStr(PROVIDER), JStr(s.version), NodeJson(s.local), NodeList(s.peers), DiscoveryJson(s.discovery)])
  }

  function CandidateOf(p: Projected, localNode: bool, scope: ExecutionIntent): Candidate {
    Candidate(PROVIDER, p.candidateId, localNode, p.state, p.servingModels, p.ownerVerified, scope)
  }

  function Candidates(s: Selected): seq<Candidate> {
    [CandidateOf(s.local, true, ObservedScope(s.discovery))]
    + seq(|s.peers|, i requires 0 <= i < |s.peers| => CandidateOf(s.peers[i], false, ObservedScope(s.discovery)))
  }

  function Observed(c: Primitives, s: Selected, endpoint: string, requested: ExecutionIntent, ttlSeconds: int, now: DateTime): Observation {
    var scope := ObservedScope(s.discovery);
    var within := ScopeRank(scope) <= ScopeRank(requested);
    Observation(
      PROVIDER, s.version, "mesh-llm.api-status.unversioned", endpoint, Sha256Digest(c, ProjectionJson(s)),
      now, now.instant + ttlSeconds * 1_000_000, requested, scope, within, Candidates(s),
      [ObservationOnly, UnversionedProviderSchema,
       if scope == PrivateMesh then PrivateLanStatusSignal else PublicOrAmbiguousStatusSignal,
       if within then ScopeSignalWithinMaximum else ScopeSignalExceedsMaximum])
  }

  // `_project`: None stands for the one redacted error, a failed validator included.
  function Projection(c: Primitives, payload: Fields, endpoint: string, requested: ExecutionIntent, ttlSeconds: int, now: DateTime): Option<Observation> {
    var s := Select(payload);
    if s.None? then None
    else
      var o := Observed(c, s.value, endpoint, requested, ttlSeconds, now);
      if o.Valid() then Some(o) else None
  }

  /** `_project` with its loop over the reported peers. */
  method Project(c: Primitives, payload: Fields, endpoint: string, requested: ExecutionIntent, ttlSeconds: int, now: DateTime)
    returns (r: Option<Observation>)
    ensures r == Projection(c, payload, endpoint, requested, ttlSeconds, now)
  {
    hide ProjectNode, ReadDiscovery, Get, StringOf, ObservedScope, NodeJson, DiscoveryJson, Observation.Valid;
    var version, local, discovery := StringOf(Get(payload, "version"), 64), ReadLocal(payload), ReadDiscovery(payload);
    if version.None? || local.None? || discovery.None? {
      return None;
    }
    var scope := ObservedScope(discovery.value);
    var peers := Get(payload, "peers");
    if peers.None? || !peers.value.JArr? {
      return None;
    }
    if |peers.value.items| >= 256 {
      return None;
    }
    var items := peers.value.items;
    var projected: seq<Projected> := [];
    var candidates := [CandidateOf(local.value, true, scope)];
    for n := 0 to |items|
      invariant ProjectPeers(items, n) == Some(projected)
      invariant |candidates| == n + 1 == |projected| + 1
      invariant candidates[0] == CandidateOf(local.value, true, scope)
      invariant forall i :: 0 <= i < n ==> candidates[i + 1] == CandidateOf(projected[i], false, scope)
    {
      var peer := ProjectPeer(items[n]);
      if peer.None? {
        PeersFail(items, n + 1, |items|);
        return None;
      }
      projected := projected + [peer.value];
      candidates := candidates + [CandidateOf(peer.value, false, scope)];
    }
    var s := Selected(version.value, local.value, discovery.value, projected);
    assert candidates == Candidates(s);
    var o := Observed(c, s, endpoint, requested, ttlSeconds, now);
    r := if o.Valid() then Some(o) else None;
  }

  lemma {:induction false} PeersFail(peers: seq<Json>, k: nat, n: nat)
    requires k <= n <= |peers| && ProjectPeers(peers, k).None?
    ensures ProjectPeers(peers, n).None?
  {
    if k < n {
      PeersFail(peers, k, n - 1);
    }
  }

  // ---- Only the allowlist is read ---------------------------------------------------------

  ghost predicate SameOwner(a: Option<Json>, b: Option<Json>) {
    var x, y := MappingOf(a), MappingOf(b);
    if x.None? then y.None? else y.Some? && Get(x.value, "verified") == Get(y.value, "verified")
  }

  ghost predicate SamePeer(x: Json, y: Json) {
    if !x.JObj? then !y.JObj?
    else
      && y.JObj?
      && Get(x.fields, "id") == Get(y.fields, "id") && Get(x.fields, "state") == Get(y.fields, "state")
      && Get(x.fields, "serving_models") == Get(y.fields, "serving_models")
      && SameOwner(Get(x.fields, "owner"), Get(y.fields, "owner"))
  }

  ghost predicate SamePeers(a: Option<Json>, b: Option<Json>) {
    if a.None? || !a.value.JArr? then b.None? || !b.value.JArr?
    else
      && b.Some? && b.value.JArr? && |a.value.items| == |b.value.items|
      && forall i :: 0 <= i < |a.value.items| ==> SamePeer(a.value.items[i], b.value.items[i])
  }

  // Two statuses that agree wherever the projection looks.
  ghost predicate SameAllowlisted(f: Fields, g: Fields) {
    && Get(f, "version") == Get(g, "version") && Get(f, "node_id") == Get(g, "node_id")
    && Get(f, "node_state") == Get(g, "node_state") && Get(f, "serving_models") == Get(g, "serving_models")
    && Get(f, "mesh_discovery_mode") == Get(g, "mesh_discovery_mode")
    && Get(f, "discovery_scope") == Get(g, "discovery_scope")
    && Get(f, "discovery_source") == Get(g, "discovery_source")
    && Get(f, "nostr_discovery") == Get(g, "nostr_discovery")
    && Get(f, "publication_state") == Get(g, "publication_state")
    && SameOwner(Get(f, "owner"), Get(g, "owner")) && SamePeers(Get(f, "peers"), Get(g, "peers"))
  }

  lemma SameOwnerReads(a: Option<Json>, b: Option<Json>)
    requires SameOwner(a, b)
    ensures OwnerVerified(a) == OwnerVerified(b)
  {
    hide Get;
  }

  lemma SamePeerReads(x: Json, y: Json)
    requires SamePeer(x, y)
    ensures ProjectPeer(x) == ProjectPeer(y)
  {
    hide Get, OwnerVerified, StringOf, StateOf, ModelsOf;
    if x.JObj? {
      SameOwnerReads(Get(x.fields, "owner"), Get(y.fields, "owner"));
    }
  }

  lemma {:induction false} SamePeersRead(xs: seq<Json>, ys: seq<Json>, n: nat)
    requires |xs| == |ys| && n <= |xs| && forall i :: 0 <= i < |xs| ==> SamePeer(xs[i], ys[i])
    ensures ProjectPeers(xs, n) == ProjectPeers(ys, n)
  {
    hide ProjectPeer, SamePeer;
    if n > 0 {
      SamePeersRead(xs, ys, n - 1);
      SamePeerReads(xs[n - 1], ys[n - 1]);
    }
  }

  lemma SamePeerListsRead(f: Fields, g: Fields)
    requires SamePeers(Get(f, "peers"), Get(g, "peers"))
    ensures ReadPeers(f) == ReadPeers(g)
  {
    hide Get, SamePeer, ProjectPeers;
    var a, b := Get(f, "peers"), Get(g, "peers");
    if a.Some? && a.value.JArr? {
      SamePeersRead(a.value.items, b.value.items, |a.value.items|);
    }
  }

  lemma SameSelection(f: Fields, g: Fields)
    requires SameAllowlisted(f, g)
    ensures Select(f) == Select(g)
  {
    hide Get, SameOwner, SamePeers, OwnerVerified, StringOf, BooleanOf, StateOf, ModelsOf, ReadPeers;
    SameOwnerReads(Get(f, "owner"), Get(g, "owner"));
    SamePeerListsRead(f, g);
  }

  /** Statuses that agree on the allowlist give one observation and digest, or fail together. */
  lemma AllowlistDetermines(c: Primitives, f: Fields, g: Fields, endpoint: string, requested: ExecutionIntent,
                            ttlSeconds: int, now: DateTime)
    requires SameAllowlisted(f, g)
    ensures Projection(c, f, endpoint, requested, ttlSeconds, now) == Projection(c, g, endpoint, requested, ttlSeconds, now)
  {
    hide Get, SameAllowlisted, ReadLocal, ReadPeers, ReadDiscovery, StringOf, Observed, Observation.Valid;
    SameSelection(f, g);
  }

  // ---- Exactly when an observation is made -------------------------------------------------

  ghost predicate NodeShape(p: Projected) { ValidStateLabel(p.state) && ModelNames(p.servingModels) }

  lemma StatesAreLabels(j: Option<Json>)
    requires StateOf(j).Some?
    ensures ValidStateLabel(StateOf(j).value)
  {
    hide Lower, StringOf;
  }

  lemma ModelsAreNames(j: Option<Json>)
    requires ModelsOf(j).Some?
    ensures ModelNames(ModelsOf(j).value)
  {}

  lemma NodesWellShaped(id: Option<Json>, state: Option<Json>, models: Option<Json>, owner: Option<Json>)
    requires ProjectNode(id, state, models, owner).Some?
    ensures NodeShape(ProjectNode(id, state, models, owner).value)
  {
    hide StateOf, ModelsOf, ValidStateLabel, ModelNames, OwnerVerified;
    StatesAreLabels(state);
    ModelsAreNames(models);
  }

  lemma {:induction false} PeersWellShaped(peers: seq<Json>, n: nat)
    requires n <= |peers| && ProjectPeers(peers, n).Some?
    ensures |ProjectPeers(peers, n).value| == n
    ensures forall i :: 0 <= i < n ==> NodeShape(ProjectPeers(peers, n).value[i])
  {
    hide Get, ProjectNode, NodeShape;
    if n > 0 {
      PeersWellShaped(peers, n - 1);
      var f := peers[n - 1].fields;
      NodesWellShaped(Get(f, "id"), Get(f, "state"), Get(f, "serving_models"), Get(f, "owner"));
    }
  }

  lemma SelectionWellShaped(f: Fields)
    requires Select(f).Some?
    ensures var s := Select(f).value;
            && 1 <= |s.version| <= 64 && NodeShape(s.local) && |s.peers| < 256
            && forall i :: 0 <= i < |s.peers| ==> NodeShape(s.peers[i])
  {
    hide Get, ProjectNode, NodeShape, ReadDiscovery, ProjectPeers;
    NodesWellShaped(Get(f, "node_id"), Get(f, "node_state"), Get(f, "serving_models"), Get(f, "owner"));
    PeersWellShaped(Get(f, "peers").value.items, |Get(f, "peers").value.items|);
  }

  // Node 0 is the local node.
  function NodeAt(s: Selected, i: nat): Projected
    requires i <= |s.peers|
  {
    if i == 0 then s.local else s.peers[i - 1]
  }

  ghost predicate IdentifiersUsable(s: Selected) {
    && (forall i :: 0 <= i <= |s.peers| ==> ValidPeerId(NodeAt(s, i).candidateId))
    && (forall i, j :: 0 <= i < j <= |s.peers| ==> NodeAt(s, i).candidateId != NodeAt(s, j).candidateId)
  }

  lemma CandidatesAre(s: Selected)
    ensures |Candidates(s)| == |s.peers| + 1
    ensures forall i :: 0 <= i <= |s.peers| ==> Candidates(s)[i] == CandidateOf(NodeAt(s, i), i == 0, ObservedScope(s.discovery))
  {
    hide ObservedScope;
  }

  lemma CandidatesValid(s: Selected)
    requires |s.peers| < 256 && forall i :: 0 <= i <= |s.peers| ==> NodeShape(NodeAt(s, i))
    ensures var cs := Candidates(s);
            IdentifiersUsable(s) <==>
            && (forall i :: 0 <= i < |cs| ==> cs[i].Valid())
            && (forall i, j :: 0 <= i < j < |cs| ==> cs[i].candidateId != cs[j].candidateId)
  {
    hide Candidates, ExplicitlyPrivate, ValidPeerId, ValidStateLabel, ModelNames, NodeAt;
    CandidatesAre(s);
    var cs := Candidates(s);
    forall i | 0 <= i < |cs| ensures cs[i].Valid() <==> ValidPeerId(NodeAt(s, i).candidateId) {
      assert NodeShape(NodeAt(s, i));
    }
  }

  lemma RemarksExplain(c: Primitives, s: Selected, endpoint: string, requested: ExecutionIntent, ttlSeconds: int, now: DateTime)
    ensures var o := Observed(c, s, endpoint, requested, ttlSeconds, now);
            && Unique(o.remarks) && ObservationOnly in o.remarks
            && (if o.withinRequestedScope then ScopeSignalWithinMaximum else ScopeSignalExceedsMaximum) in o.remarks
            && (if o.observedScope == PrivateMesh then PrivateLanStatusSignal else PublicOrAmbiguousStatusSignal) in o.remarks
  {
    hide ObservedScope, Candidates, Sha256Digest;
    var o := Observed(c, s, endpoint, requested, ttlSeconds, now);
    assert o.remarks[0] == ObservationOnly && o.remarks[2] in o.remarks && o.remarks[3] in o.remarks;
  }

  lemma ObservedValid(c: Primitives, s: Selected, endpoint: string, requested: ExecutionIntent, ttlSeconds: int, now: DateTime)
    requires now.Valid() && 1 <= ttlSeconds <= 60 && 1 <= |endpoint| <= 512
    requires 1 <= |s.version| <= 64 && |s.peers| < 256 && forall i :: 0 <= i <= |s.peers| ==> NodeShape(NodeAt(s, i))
    ensures Observed(c, s, endpoint, requested, ttlSeconds, now).Valid() <==> IdentifiersUsable(s)
  {
    hide Candidates, ExplicitlyPrivate, IdentifiersUsable, NodeAt, NodeShape, DateTime.Valid, Sha256Digest, ProjectionJson, Candidate.Valid, Unique;
    CandidatesAre(s);
    CandidatesValid(s);
    RemarksExplain(c, s, endpoint, requested, ttlSeconds, now);
  }

  /** An observation is made exactly when the fields parse and identifiers are well formed and unique;
      it satisfies every validator, is never device-only, and matches the scope lattice. */
  lemma ProjectionExact(c: Primitives, f: Fields, endpoint: string, requested: ExecutionIntent, ttlSeconds: int, now: DateTime)
    requires now.Valid() && 1 <= ttlSeconds <= 60 && 1 <= |endpoint| <= 512
    ensures var r := Projection(c, f, endpoint, requested, ttlSeconds, now);
            && (r.Some? <==> Select(f).Some? && IdentifiersUsable(Select(f).value))
            && (r.Some? ==>
                  var o, d := r.value, Select(f).value.discovery;
                  && o.Valid() && o.observedScope != DeviceOnly
                  && (o.observedScope == PrivateMesh <==> ExplicitlyPrivate(d))
                  && (requested == DeviceOnly ==> !o.withinRequestedScope)
                  && (o.withinRequestedScope <==> !Wider(o.observedScope, requested)))
  {
    if Select(f).Some? { ScopeRankMeans(ObservedScope(Select(f).value.discovery), requested); }
    hide Select, DateTime.Valid, Sha256Digest, ProjectionJson, ExplicitlyPrivate, NodeShape, IdentifiersUsable, Observation.Valid, Candidates;
    if Select(f).Some? {
      SelectionWellShaped(f);
      ObservedValid(c, Select(f).value, endpoint, requested, ttlSeconds, now);
    }
  }

  // ---- What is read, field by field -------------------------------------------------------

  /** Looking a key up finds its one member. */
  lemma {:induction false} GetFinds(f: Fields, key: string, value: Json)
    requires DistinctKeys(f)
    ensures Get(f, key) == Some(value) <==> (key, value) in f
  {
    if f != [] {
      var rest, last := f[..|f| - 1], f[|f| - 1];
      GetFinds(rest, key, value);
      assert f == rest + [last];
    }
  }

  ghost predicate BoundedText(j: Option<Json>, maximum: nat) { j.Some? && j.value.JStr? && 1 <= |j.value.s| <= maximum }

  // `s` in lower case is `word`.
  ghost predicate LowersTo(s: string, word: string) {
    && |s| == |word|
    && forall i :: 0 <= i < |s| ==> if 'A' <= s[i] <= 'Z' then word[i] as int == s[i] as int + 32 else word[i] == s[i]
  }

  ghost predicate NamesState(j: Option<Json>, word: string) {
    && BoundedText(j, 64) && LowersTo(j.value.s, word)
    && (word == "client" || word == "standby" || word == "loading" || word == "serving")
  }

  ghost predicate ListsModels(j: Option<Json>) {
    && j.Some? && j.value.JArr? && |j.value.items| <= 256
    && (forall i :: 0 <= i < |j.value.items| ==> j.value.items[i].JStr? && 1 <= |j.value.items[i].s| <= 512)
    && (forall i, k :: 0 <= i < k < |j.value.items| ==> j.value.items[i] != j.value.items[k])
  }

  ghost predicate OwnerSays(j: Option<Json>, verified: bool) {
    j.Some? && j.value.JObj? && Get(j.value.fields, "verified") == Some(JBool(verified))
  }

  lemma StateExact(j: Option<Json>, word: string)
    ensures StateOf(j) == Some(word) <==> NamesState(j, word)
  {
    if BoundedText(j, 64) && |word| == |j.value.s| {
      var s, t := j.value.s, Lower(j.value.s);
      assert LowersTo(s, word) <==> t == word;
    }
  }

  lemma ModelsExact(j: Option<Json>)
    ensures ModelsOf(j).Some? <==> ListsModels(j)
    ensures ListsModels(j) ==> j.value == Texts(ModelsOf(j).value)
  {
    if j.Some? && j.value.JArr? && forall i :: 0 <= i < |j.value.items| ==> j.value.items[i].JStr? {
      var items, names := j.value.items, Names(j.value.items);
      assert forall i :: 0 <= i < |items| ==> names[i] == items[i].s && items[i] == JStr(names[i]);
    }
  }

  lemma OwnerExact(j: Option<Json>, verified: bool)
    ensures OwnerVerified(j) == Some(verified) <==> OwnerSays(j, verified)
  {
    hide Get;
  }

  // What the four fields of a node say.
  ghost predicate NodeSays(id: Option<Json>, state: Option<Json>, models: Option<Json>, owner: Option<Json>, p: Projected) {
    && BoundedText(id, 128) && id.value == JStr(p.candidateId) && NamesState(state, p.state)
    && ListsModels(models) && models.value == Texts(p.servingModels) && OwnerSays(owner, p.ownerVerified)
  }

  lemma TextsInjective(a: seq<string>, b: seq<string>)
    requires Texts(a) == Texts(b)
    ensures a == b
  {
    var x, y := Texts(a).items, Texts(b).items;
    assert forall i :: 0 <= i < |a| ==> x[i] == JStr(a[i]);
    assert forall i :: 0 <= i < |b| ==> y[i] == JStr(b[i]);
  }

  lemma NodeExact(id: Option<Json>, state: Option<Json>, models: Option<Json>, owner: Option<Json>, p: Projected)
    ensures ProjectNode(id, state, models, owner) == Some(p) <==> NodeSays(id, state, models, owner, p)
  {
    hide StateOf, ModelsOf, OwnerVerified, NamesState, ListsModels, OwnerSays, Texts;
    StateExact(state, p.state);
    ModelsExact(models);
    OwnerExact(owner, p.ownerVerified);
    if NodeSays(id, state, models, owner, p) { TextsInjective(p.servingModels, ModelsOf(models).value); }
  }

  ghost predicate PeerSays(raw: Json, p: Projected) {
    && raw.JObj?
    && NodeSays(Get(raw.fields, "id"), Get(raw.fields, "state"), Get(raw.fields, "serving_models"), Get(raw.fields, "owner"), p)
  }

  lemma {:induction false} PeersExact(peers: seq<Json>, n: nat, ps: seq<Projected>)
    requires n <= |peers|
    ensures ProjectPeers(peers, n) == Some(ps) <==> |ps| == n && forall i :: 0 <= i < n ==> PeerSays(peers[i], ps[i])
  {
    hide ProjectNode, NodeSays, Get;
    if n > 0 && |ps| == n {
      PeersExact(peers, n - 1, ps[..n - 1]);
      var raw := peers[n - 1];
      if raw.JObj? {
        NodeExact(Get(raw.fields, "id"), Get(raw.fields, "state"), Get(raw.fields, "serving_models"), Get(raw.fields, "owner"), ps[n - 1]);
      }
      assert ps == ps[..n - 1] + [ps[n - 1]];
    } else if n > 0 {
      if ProjectPeers(peers, n).Some? { PeersWellShaped(peers, n); }
    }
  }

  ghost predicate StatusSays(f: Fields, s: Selected) {
    && BoundedText(Get(f, "version"), 64) && Get(f, "version") == Some(JStr(s.version))
    && NodeSays(Get(f, "node_id"), Get(f, "node_state"), Get(f, "serving_models"), Get(f, "owner"), s.local)
    && BoundedText(Get(f, "mesh_discovery_mode"), 64) && Get(f, "mesh_discovery_mode") == Some(JStr(s.discovery.mode))
    && BoundedText(Get(f, "discovery_scope"), 64) && Get(f, "discovery_scope") == Some(JStr(s.discovery.scope))
    && BoundedText(Get(f, "discovery_source"), 128) && Get(f, "discovery_source") == Some(JStr(s.discovery.source))
    && Get(f, "nostr_discovery") == Some(JBool(s.discovery.nostr))
    && BoundedText(Get(f, "publication_state"), 64) && Get(f, "publication_state") == Some(JStr(s.discovery.publication))
    && PeersSay(Get(f, "peers"), s.peers)
  }

  ghost predicate PeersSay(j: Option<Json>, ps: seq<Projected>) {
    && j.Some? && j.value.JArr? && |j.value.items| == |ps| < 256
    && forall i :: 0 <= i < |ps| ==> PeerSays(j.value.items[i], ps[i])
  }

  lemma DiscoveryExact(f: Fields, d: Discovery)
    ensures ReadDiscovery(f) == Some(d) <==>
            && BoundedText(Get(f, "mesh_discovery_mode"), 64) && Get(f, "mesh_discovery_mode") == Some(JStr(d.mode))
            && BoundedText(Get(f, "discovery_scope"), 64) && Get(f, "discovery_scope") == Some(JStr(d.scope))
            && BoundedText(Get(f, "discovery_source"), 128) && Get(f, "discovery_source") == Some(JStr(d.source))
            && Get(f, "nostr_discovery") == Some(JBool(d.nostr))
            && BoundedText(Get(f, "publication_state"), 64) && Get(f, "publication_state") == Some(JStr(d.publication))
  {
    hide Get;
  }

  /** The status is read exactly when every selected field has its type and bounds, and as what it says. */
  lemma SelectExact(f: Fields, s: Selected)
    ensures Select(f) == Some(s) <==> StatusSays(f, s)
  {
    hide Get, ProjectNode, ReadDiscovery, ProjectPeers, NodeSays, PeerSays;
    NodeExact(Get(f, "node_id"), Get(f, "node_state"), Get(f, "serving_models"), Get(f, "owner"), s.local);
    DiscoveryExact(f, s.discovery);
    var j := Get(f, "peers");
    if j.Some? && j.value.JArr? { PeersExact(j.value.items, |j.value.items|, s.peers); }
  }

  ghost predicate Text(j: Option<Json>, s: string) { j == Some(JStr(s)) }

  /** An observation: what it takes from the status, and the scope that the discovery signals allow. */
  lemma ObservationSays(c: Primitives, f: Fields, endpoint: string, requested: ExecutionIntent, ttlSeconds: int, now: DateTime)
    requires Projection(c, f, endpoint, requested, ttlSeconds, now).Some?
    ensures exists s :: StatusSays(f, s)
    ensures var o := Projection(c, f, endpoint, requested, ttlSeconds, now).value;
            forall s :: StatusSays(f, s) ==>
              && o.provider == "mesh_llm" && o.providerVersion == s.version
              && o.providerContract == "mesh-llm.api-status.unversioned" && o.sourceEndpoint == endpoint
              && o.projectionDigest == Sha256Digest(c, ProjectionJson(s))
              && o.observedAt == now && o.expiresAt == now.instant + 1_000_000 * ttlSeconds
              && o.requestedMaxScope == requested && (o.withinRequestedScope <==> !Wider(o.observedScope, requested))
              && |o.candidates| == 1 + |s.peers|
              && forall i :: 0 <= i < |o.candidates| ==>
                   var q := if i == 0 then s.local else s.peers[i - 1];
                   o.candidates[i] == Candidate("mesh_llm", q.candidateId, i == 0, q.state, q.servingModels, q.ownerVerified, o.observedScope)
    ensures var o := Projection(c, f, endpoint, requested, ttlSeconds, now).value;
            && (o.observedScope == PrivateMesh || o.observedScope == PublicMesh)
            && o.remarks == [ObservationOnly, UnversionedProviderSchema,
                             if o.observedScope == PrivateMesh then PrivateLanStatusSignal else PublicOrAmbiguousStatusSignal,
                             if Wider(o.observedScope, requested) then ScopeSignalExceedsMaximum else ScopeSignalWithinMaximum]
            && (o.observedScope == PrivateMesh <==>
                  && Text(Get(f, "publication_state"), "private") && Get(f, "nostr_discovery") == Some(JBool(false))
                  && (Text(Get(f, "discovery_scope"), "private") || Text(Get(f, "discovery_scope"), "lan")
                      || Text(Get(f, "discovery_scope"), "local"))
                  && (Text(Get(f, "mesh_discovery_mode"), "mdns") || Text(Get(f, "mesh_discovery_mode"), "private")
                      || Text(Get(f, "mesh_discovery_mode"), "local")))
  {
    hide Get, Select, NodeSays, PeersSay, Observation.Valid, Sha256Digest, ProjectionJson, Candidates;
    var s := Select(f).value;
    forall t | StatusSays(f, t) ensures t == s { SelectExact(f, t); }
    SelectExact(f, s);
    CandidatesAre(s);
    ScopeRankMeans(ObservedScope(s.discovery), requested);
  }

  // ---- The projection digest --------------------------------------------------------------

  /** The members of the hashed projection. */
  lemma ProjectionDump(s: Selected)
    ensures var j := ProjectionJson(s);
            && j.JObj? && |j.fields| == 5
            && HasMember(j, "provider", JStr("mesh_llm")) && HasMember(j, "provider_version", JStr(s.version))
            && HasMember(j, "local", NodeJson(s.local)) && HasMember(j, "peers", NodeList(s.peers))
            && HasMember(j, "discovery", DiscoveryJson(s.discovery))
  {
    hide NodeJson, NodeList, DiscoveryJson, HasMember;
    var k := PROJECTION_KEYS;
    var v := [JStr(PROVIDER), JStr(s.version), NodeJson(s.local), NodeList(s.peers), DiscoveryJson(s.discovery)];
    RecordMembers(k, v);
    hide Record;
    assert HasMember(ProjectionJson(s), k[0], v[0]) && HasMember(ProjectionJson(s), k[1], v[1]);
    assert HasMember(ProjectionJson(s), k[2], v[2]) && HasMember(ProjectionJson(s), k[3], v[3]);
    assert HasMember(ProjectionJson(s), k[4], v[4]);
  }

  lemma NodeDump(p: Projected)
    ensures var j := NodeJson(p);
            && j.JObj? && |j.fields| == 4
            && HasMember(j, "candidate_id", JStr(p.candidateId)) && HasMember(j, "state", JStr(p.state))
            && HasMember(j, "serving_models", Texts(p.servingModels))
            && HasMember(j, "provider_claimed_owner_verified", JBool(p.ownerVerified))
  {
    hide Texts, HasMember;
    var k, v := NODE_KEYS, [JStr(p.candidateId), JStr(p.state), Texts(p.servingModels), JBool(p.ownerVerified)];
    RecordMembers(k, v);
    hide Record;
    assert HasMember(NodeJson(p), k[0], v[0]) && HasMember(NodeJson(p), k[1], v[1]);
    assert HasMember(NodeJson(p), k[2], v[2]) && HasMember(NodeJson(p), k[3], v[3]);
  }

  lemma DiscoveryDump(d: Discovery)
    ensures var j := DiscoveryJson(d);
            && j.JObj? && |j.fields| == 5
            && HasMember(j, "mesh_discovery_mode", JStr(d.mode)) && HasMember(j, "discovery_scope", JStr(d.scope))
            && HasMember(j, "discovery_source", JStr(d.source)) && HasMember(j, "nostr_discovery", JBool(d.nostr))
            && HasMember(j, "publication_state", JStr(d.publication))
  {
    hide HasMember;
    var k, v := DISCOVERY_KEYS, [JStr(d.mode), JStr(d.scope), JStr(d.source), JBool(d.nostr), JStr(d.publication)];
    RecordMembers(k, v);
    hide Record;
    assert HasMember(DiscoveryJson(d), k[0], v[0]) && HasMember(DiscoveryJson(d), k[1], v[1]);
    assert HasMember(DiscoveryJson(d), k[2], v[2]) && HasMember(DiscoveryJson(d), k[3], v[3]);
    assert HasMember(DiscoveryJson(d), k[4], v[4]);
  }

  lemma NodeJsonDecides(p: Projected, q: Projected)
    requires Normal(NodeJson(p)) == Normal(NodeJson(q))
    ensures p == q
  {
    var v := [JStr(p.candidateId), JStr(p.state), Texts(p.servingModels), JBool(p.ownerVerified)];
    var w := [JStr(q.candidateId), JStr(q.state), Texts(q.servingModels), JBool(q.ownerVerified)];
    RecordDecides(NODE_KEYS, v, w);
    assert Normal(v[0]) == Normal(w[0]) && Normal(v[1]) == Normal(w[1]);
    assert Normal(v[2]) == Normal(w[2]) && Normal(v[3]) == Normal(w[3]);
    TextsDecide(p.servingModels, q.servingModels);
  }

  lemma DiscoveryJsonDecides(d: Discovery, e: Discovery)
    requires Normal(DiscoveryJson(d)) == Normal(DiscoveryJson(e))
    ensures d == e
  {
    var v := [JStr(d.mode), JStr(d.scope), JStr(d.source), JBool(d.nostr), JStr(d.publication)];
    var w := [JStr(e.mode), JStr(e.scope), JStr(e.source), JBool(e.nostr), JStr(e.publication)];
    RecordDecides(DISCOVERY_KEYS, v, w);
    assert Normal(v[0]) == Normal(w[0]) && Normal(v[1]) == Normal(w[1]) && Normal(v[2]) == Normal(w[2]);
    assert Normal(v[3]) == Normal(w[3]) && Normal(v[4]) == Normal(w[4]);
  }

  /** The projection digest identifies everything that was read. */
  lemma ProjectionDigestDecides(c: Primitives, s: Selected, t: Selected)
    requires CollisionFree(c, {CanonicalBytes(ProjectionJson(s)), CanonicalBytes(ProjectionJson(t))})
    ensures Sha256Digest(c, ProjectionJson(s)) == Sha256Digest(c, ProjectionJson(t)) <==> s == t
  {
    hide NodeJson, DiscoveryJson, Sha256Digest, CanonicalBytes;
    DigestDecides(c, ProjectionJson(s), ProjectionJson(t));
    if Normal(ProjectionJson(s)) == Normal(ProjectionJson(t)) {
      var v := [JStr(PROVIDER), JStr(s.version), NodeJson(s.local), NodeList(s.peers), DiscoveryJson(s.discovery)];
      var w := [JStr(PROVIDER), JStr(t.version), NodeJson(t.local), NodeList(t.peers), DiscoveryJson(t.discovery)];
      RecordDecides(PROJECTION_KEYS, v, w);
      assert Normal(v[1]) == Normal(w[1]) && Normal(v[2]) == Normal(w[2]);
      assert Normal(v[3]) == Normal(w[3]) && Normal(v[4]) == Normal(w[4]);
      NodeJsonDecides(s.local, t.local);
      DiscoveryJsonDecides(s.discovery, t.discovery);
      var x, y := NodeList(s.peers).items, NodeList(t.peers).items;
      NormalArrays(x, y);
      forall i | 0 <= i < |x| ensures s.peers[i] == t.peers[i] {
        assert Normal(x[i]) == Normal(y[i]);
        NodeJsonDecides(s.peers[i], t.peers[i]);
      }
    }
  }
}

/**
 Whole runs of many verifications over one file-backed nonce store. A verification is two
 steps, its pure checks and the atomic `record_if_new`, so every sequence of events is an
 interleaving; stores open lazily and may be closed and reopened at any point.
 */
module ReplayRuns {
  import opened Crypto
  import opened Clock
  import opened Models
  import opened Policy
  import opened Attestation
  import opened VerificationTheorems
  import opened Replay
  import opened Wrappers

  datatype Attempt = Attempt(attestation: RouteAttestation, policy: AdmissionPolicy, now: DateTime)
  {
    ghost predicate Valid() { attestation.Valid() && policy.Valid() }
    function Nonce(): string { attestation.plan.nonce }
  }

  datatype Event =
    | Start(id: nat, attempt: Attempt)  // a verifier runs every check but the store
    | Record(id: nat, store: nat)       // that verifier asks the store, and finishes
    | Close(store: nat)

  datatype Finished = Finished(attempt: Attempt, decision: AdmissionDecision)

  datatype System = System(
    file: Option<Table>,         // None until some store first connects
    connected: set<nat>,         // stores holding an open connection
    running: map<nat, Attempt>,  // verifications between their two steps
    log: seq<Finished>)

  const INITIAL: System := System(None, {}, map[], [])

  function Rows(s: System): Table { if s.file.None? then map[] else s.file.value }

  // The first query of a store opens the file and creates the table if it is missing.
  function Connect(s: System, store: nat): System {
    if store in s.connected then s else s.(file := Some(Rows(s)), connected := s.connected + {store})
  }

  ghost function RowOf(c: Primitives, t: Attempt): Row
    requires t.Valid()
  {
    Row(t.attestation.plan.requestCommitment, AttestationDigest(c, t.attestation))
  }

  ghost function Verdict(c: Primitives, t: Attempt, isNew: bool): AdmissionDecision
    requires t.Valid()
  {
    Verification(c, t.attestation, t.policy, t.now, isNew)
  }

  // An event that its verifier cannot perform now leaves the system as it is.
  ghost function Step(c: Primitives, s: System, e: Event): System {
    match e
    case Start(id, t) =>
      if id in s.running || !t.Valid() then s
      else if Verdict(c, t, true).admitted then s.(running := s.running[id := t])
      else s.(log := s.log + [Finished(t, Verdict(c, t, true))])
    case Record(id, store) =>
      if id !in s.running || !s.running[id].Valid() then s
      else
        var t, s1 := s.running[id], Connect(s, store);
        s1.(file := Some(InsertOrIgnore(Rows(s1), t.Nonce(), RowOf(c, t))), running := s1.running - {id},
            log := s1.log + [Finished(t, Verdict(c, t, t.Nonce() !in Rows(s1)))])
    case Close(store) => s.(connected := s.connected - {store})
  }

  ghost function Run(c: Primitives, events: seq<Event>): System {
    if events == [] then INITIAL else Step(c, Run(c, events[..|events| - 1]), events[|events| - 1])
  }

  ghost predicate AdmittedOnce(log: seq<Finished>) {
    forall i, j :: 0 <= i < j < |log| && log[i].decision.admitted && log[j].decision.admitted
      ==> log[i].attempt.Nonce() != log[j].attempt.Nonce()
  }

  // The table is exactly the admitted nonces, with what was recorded at their admission.
  ghost predicate TableOfAdmitted(c: Primitives, rows: Table, log: seq<Finished>) {
    && (forall i :: 0 <= i < |log| && log[i].decision.admitted ==>
          var t := log[i].attempt; t.Valid() && t.Nonce() in rows && rows[t.Nonce()] == RowOf(c, t))
    && (forall n :: n in rows ==> exists i :: 0 <= i < |log| && log[i].decision.admitted && log[i].attempt.Nonce() == n)
  }

  // Whoever is about to ask the store has passed every other check.
  ghost predicate RunningReady(c: Primitives, s: System) {
    forall id :: id in s.running ==> s.running[id].Valid() && Verdict(c, s.running[id], true).admitted
  }

  ghost predicate LogHonest(c: Primitives, log: seq<Finished>) {
    forall i :: 0 <= i < |log| ==>
      var f := log[i];
      && f.attempt.Valid()
      && (f.decision.admitted ==> Accepted(c, f.attempt.attestation, f.attempt.policy, f.attempt.now))
  }

  // The file appears when a store first connects, and outlives every connection.
  ghost predicate LazyFile(s: System) {
    s.file.None? ==> s.connected == {} && forall i :: 0 <= i < |s.log| ==> !s.log[i].decision.admitted
  }

  ghost predicate Safe(c: Primitives, s: System) {
    AdmittedOnce(s.log) && TableOfAdmitted(c, Rows(s), s.log) && RunningReady(c, s) && LogHonest(c, s.log) && LazyFile(s)
  }

  lemma VerdictNeedsNew(c: Primitives, t: Attempt, isNew: bool)
    requires t.Valid()
    ensures Verdict(c, t, isNew).admitted <==> isNew && Verdict(c, t, true).admitted
    ensures Verdict(c, t, isNew).admitted ==> Accepted(c, t.attestation, t.policy, t.now)
  {
    hide Verification, Accepted, TopologySnapshot.Valid;
    VerificationExact(c, t.attestation, t.policy, t.now, isNew);
    VerificationExact(c, t.attestation, t.policy, t.now, true);
  }

  ghost predicate SafeLog(c: Primitives, rows: Table, log: seq<Finished>) {
    AdmittedOnce(log) && TableOfAdmitted(c, rows, log) && LogHonest(c, log)
  }

  lemma LogDenied(c: Primitives, rows: Table, log: seq<Finished>, f: Finished)
    requires SafeLog(c, rows, log) && f.attempt.Valid() && !f.decision.admitted
    ensures SafeLog(c, rows, log + [f])
  {
    hide RowOf, Accepted, Attempt.Valid;
    var log' := log + [f];
    assert forall i :: 0 <= i < |log| ==> log'[i] == log[i];
    forall n | n in rows ensures exists i :: 0 <= i < |log'| && log'[i].decision.admitted && log'[i].attempt.Nonce() == n {
      var i :| 0 <= i < |log| && log[i].decision.admitted && log[i].attempt.Nonce() == n;
      assert log'[i] == log[i];
    }
  }

  lemma LogAdmitted(c: Primitives, rows: Table, log: seq<Finished>, f: Finished)
    requires SafeLog(c, rows, log) && f.attempt.Valid() && f.attempt.Nonce() !in rows
    requires Accepted(c, f.attempt.attestation, f.attempt.policy, f.attempt.now) && f.decision.admitted
    ensures SafeLog(c, rows[f.attempt.Nonce() := RowOf(c, f.attempt)], log + [f])
  {
    hide RowOf, Accepted, Attempt.Valid;
    var log', rows' := log + [f], rows[f.attempt.Nonce() := RowOf(c, f.attempt)];
    assert forall i :: 0 <= i < |log| ==> log'[i] == log[i];
    assert log'[|log|] == f;
    forall n | n in rows' ensures exists i :: 0 <= i < |log'| && log'[i].decision.admitted && log'[i].attempt.Nonce() == n {
      if n in rows {
        var i :| 0 <= i < |log| && log[i].decision.admitted && log[i].attempt.Nonce() == n;
        assert log'[i] == log[i];
      }
    }
  }

  lemma StepIsSafe(c: Primitives, s: System, e: Event)
    requires Safe(c, s)
    ensures Safe(c, Step(c, s, e))
  {
    hide Verdict, RowOf, Accepted, Attempt.Valid, AdmittedOnce, TableOfAdmitted, LogHonest;
    match e {
      case Start(id, t) =>
        if t.Valid() && id !in s.running && !Verdict(c, t, true).admitted {
          LogDenied(c, Rows(s), s.log, Finished(t, Verdict(c, t, true)));
        }
      case Record(id, store) =>
        if id in s.running {
          var t, isNew := s.running[id], s.running[id].Nonce() !in Rows(s);
          VerdictNeedsNew(c, t, isNew);
          if isNew {
            LogAdmitted(c, Rows(s), s.log, Finished(t, Verdict(c, t, isNew)));
          } else {
            LogDenied(c, Rows(s), s.log, Finished(t, Verdict(c, t, isNew)));
          }
        }
      case Close(store) =>
    }
  }

  /** Over every run: a nonce is admitted at most once, and the table is exactly the admissions. */
  lemma {:induction false} ReplaySafety(c: Primitives, events: seq<Event>)
    ensures Safe(c, Run(c, events))
  {
    if events != [] {
      ReplaySafety(c, events[..|events| - 1]);
      StepIsSafe(c, Run(c, events[..|events| - 1]), events[|events| - 1]);
    }
  }

  /** One step adds at most one decision; rows are never changed or removed, and only by admission added. */
  lemma StepFrame(c: Primitives, s: System, e: Event)
    requires Safe(c, s)
    ensures var s' := Step(c, s, e);
            && (s'.log == s.log || (|s'.log| == |s.log| + 1 && s'.log[..|s.log|] == s.log))
            && (forall n :: n in Rows(s) ==> n in Rows(s') && Rows(s')[n] == Rows(s)[n])
            && (!e.Record? ==> s'.file == s.file)
            && (Rows(s') != Rows(s) ==> |s'.log| == |s.log| + 1 && s'.log[|s.log|].decision.admitted)
            && (|s'.log| == |s.log| + 1 && s'.log[|s.log|].decision.admitted ==>
                  s'.log[|s.log|].attempt.Nonce() !in Rows(s) && s'.log[|s.log|].attempt.Nonce() in Rows(s'))
  {
    hide Verdict, RowOf, Accepted, Attempt.Valid, AdmittedOnce, TableOfAdmitted, LogHonest;
    if e.Record? && e.id in s.running {
      var t := s.running[e.id];
      VerdictNeedsNew(c, t, t.Nonce() !in Rows(s));
    }
  }

  /** A nonce once admitted is refused for ever after, whatever happens in between. */
  lemma {:induction false} AdmittedStays(c: Primitives, before: seq<Event>, after: seq<Event>, n: string)
    requires n in Rows(Run(c, before))
    ensures n in Rows(Run(c, before + after)) && Rows(Run(c, before + after))[n] == Rows(Run(c, before))[n]
  {
    hide Step, Safe, Rows;
    if after == [] {
      assert before + after == before;
    } else {
      var rest := after[..|after| - 1];
      AdmittedStays(c, before, rest, n);
      assert (before + after)[..|before + after| - 1] == before + rest;
      ReplaySafety(c, before + rest);
      StepFrame(c, Run(c, before + rest), after[|after| - 1]);
    }
  }

  /** A verification that nobody interrupts does to the file what `VerifyAttestation` does to its store. */
  lemma UninterruptedVerification(c: Primitives, s: System, id: nat, store: nat, t: Attempt)
    requires id !in s.running && t.Valid()
    ensures var s' := Step(c, Step(c, s, Start(id, t)), Record(id, store));
            && s'.log == s.log + [Finished(t, Verification(c, t.attestation, t.policy, t.now, t.Nonce() !in Rows(s)))]
            && s'.running == s.running
            && Rows(s') == if ReachesStore(c, t.attestation, t.policy, t.now)
                           then InsertOrIgnore(Rows(s), t.Nonce(), Row(t.attestation.plan.requestCommitment, AttestationDigest(c, t.attestation)))
                           else Rows(s)
  {
    hide Verification, AttestationDigest, Attempt.Valid;
    var s1 := Step(c, s, Start(id, t));
    if !Verdict(c, t, true).admitted {
      DenialIgnoresStore(c, t);
    } else {
      assert s1.running - {id} == s.running;
    }
  }

  lemma DenialIgnoresStore(c: Primitives, t: Attempt)
    requires t.Valid() && !Verification(c, t.attestation, t.policy, t.now, true).admitted
    ensures Verification(c, t.attestation, t.policy, t.now, false) == Verification(c, t.attestation, t.policy, t.now, true)
  {
    hide Admission, VerificationReasons, ReceiptLevels, AttestationDigest, WeakestEvidence, Dedup, TopologySnapshot.Valid, RoutePlan.Valid;
  }
}

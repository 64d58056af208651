/**
 When a machine has at most one claim. The protocol promises one claim per ENI; the converse depends on a guard
 that the allocator of the controller has and the admission webhook has not.
 */
module ProtocolOneClaim {
  import opened Api
  import opened Protocol
  import opened ProtocolSafety
  import opened ProtocolBounds

  ghost predicate OneClaim(s: State, ref: ObjectRef) {
    forall m, n :: m in s.claims && n in s.claims && s.claims[m].machineRef == ref && s.claims[n].machineRef == ref ==>
      m == n
  }

  /** The step files a claim for the machine. */
  ghost predicate Files(p: Params, s: State, step: Step, ref: ObjectRef)
    requires Enabled(p, s, step)
  {
    exists n :: n in Next(p, s, step).claims && n !in s.claims && Next(p, s, step).claims[n].machineRef == ref
  }

  // ----- One step -----

  /** The claims after a step: those before, for the same machines, less or plus at most one. */
  ghost predicate OneMoreAtMost(claims: map<string, Claim>, claims': map<string, Claim>) {
    && (forall n :: n in claims && n in claims' ==> claims'[n].machineRef == claims[n].machineRef)
    && (forall m, n :: m in claims' && m !in claims && n in claims' && n !in claims ==> m == n)
    && ((exists n :: n in claims' && n !in claims) ==> forall n :: n in claims ==> n in claims')
  }

  /** Nothing new, and nothing for another machine. */
  ghost predicate NoMore(claims: map<string, Claim>, claims': map<string, Claim>) {
    forall n :: n in claims' ==> n in claims && claims'[n].machineRef == claims[n].machineRef
  }

  lemma EditsFileNone(claims: map<string, Claim>, name: string, finalizers: seq<Finalizer>, status: ClaimStatus)
    requires name in claims
    ensures NoMore(claims, WithFinalizers(claims, name, finalizers)) && NoMore(claims, AfterDelete(claims, name))
    ensures NoMore(claims, claims[name := claims[name].(status := status)])
  {
  }

  lemma MissingFileNone(claims: map<string, Claim>, name: string)
    ensures NoMore(claims, claims) && (name !in claims ==> AfterDelete(claims, name) == claims)
  {
  }

  lemma CollectorFilesNone(p: Params, s: State, step: Step)
    requires Enabled(p, s, step) && IsCollectorStep(step)
    ensures NoMore(s.claims, NextCollector(p, s, step).claims)
  {
    hide WithFinalizers;
    hide AfterDelete;
    hide NoMore;
    if step.eni in s.claims && step.eni in s.collectors {
      var finalizers := s.collectors[step.eni].claim.finalizers;
      var status := if step.Report? then step.status else NO_STATUS;
      EditsFileNone(s.claims, step.eni, finalizers + [ClaimFinalizer], status);
      EditsFileNone(s.claims, step.eni, Without(finalizers, ClaimFinalizer), status);
    }
    MissingFileNone(s.claims, step.eni);
  }

  lemma AllocatorFilesOne(p: Params, s: State, step: Step)
    requires Enabled(p, s, step) && IsAllocatorStep(step)
    ensures OneMoreAtMost(s.claims, NextAllocator(p, s, step).claims)
  {
  }

  lemma AdmissionFilesOne(p: Params, s: State, step: Step)
    requires Enabled(p, s, step) && (step.Receive? || step.TryCreate? || step.Persist? || step.Drop?)
    ensures OneMoreAtMost(s.claims, NextAdmission(p, s, step).claims)
  {
  }

  lemma StepFilesOne(p: Params, s: State, step: Step)
    requires Enabled(p, s, step)
    ensures OneMoreAtMost(s.claims, Next(p, s, step).claims)
  {
    hide NextAdmission;
    hide NextCollector;
    hide NextAllocator;
    if step.Receive? || step.TryCreate? || step.Persist? || step.Drop? {
      AdmissionFilesOne(p, s, step);
    } else if IsCollectorStep(step) {
      CollectorFilesNone(p, s, step);
    } else if IsAllocatorStep(step) {
      AllocatorFilesOne(p, s, step);
    }
  }

  /** One step: a machine with one claim at most keeps it that way, unless a step files another. */
  lemma StepKeepsOneClaim(p: Params, s: State, step: Step, ref: ObjectRef)
    requires Enabled(p, s, step) && OneClaim(s, ref)
    ensures OneClaim(Next(p, s, step), ref) <==> (Files(p, s, step, ref) ==> Unclaimed(s.claims, ref))
  {
    StepFilesOne(p, s, step);
    hide Enabled;
    hide Next;
    hide OneMoreAtMost;
    var t := Next(p, s, step);
    if Files(p, s, step, ref) {
      var n :| n in t.claims && n !in s.claims && t.claims[n].machineRef == ref;
      SecondClaim(s, t, ref, n);
    } else {
      NoSecondClaim(s, t, ref);
    }
  }

  lemma SecondClaim(s: State, t: State, ref: ObjectRef, n: string)
    requires OneMoreAtMost(s.claims, t.claims) && n in t.claims && n !in s.claims && t.claims[n].machineRef == ref
    ensures OneClaim(t, ref) <==> Unclaimed(s.claims, ref)
  {
    if m :| m in s.claims && s.claims[m].machineRef == ref {
      assert m in t.claims && t.claims[m].machineRef == ref;
    }
  }

  lemma NoSecondClaim(s: State, t: State, ref: ObjectRef)
    requires OneMoreAtMost(s.claims, t.claims) && OneClaim(s, ref)
    requires forall n :: n in t.claims && n !in s.claims ==> t.claims[n].machineRef != ref
    ensures OneClaim(t, ref)
  {
  }

  // ----- Runs -----

  ghost predicate OneClaimThroughout(p: Params, s: State, steps: seq<Step>, ref: ObjectRef)
    requires Run(p, s, steps).Some?
    decreases |steps|
  {
    OneClaim(s, ref) && (steps != [] ==> OneClaimThroughout(p, Next(p, s, steps[0]), steps[1..], ref))
  }

  /** Every step of the run that files a claim for the machine is taken while it has none. */
  ghost predicate FilesWhenUnclaimed(p: Params, s: State, steps: seq<Step>, ref: ObjectRef)
    requires Run(p, s, steps).Some?
    decreases |steps|
  {
    steps != [] ==>
      && (Files(p, s, steps[0], ref) ==> Unclaimed(s.claims, ref))
      && FilesWhenUnclaimed(p, Next(p, s, steps[0]), steps[1..], ref)
  }

  /**
   Exactly when a machine has one claim at every point of a run: when each create that succeeds for it happens
   while it has none. The webhook does not look, so a retried create breaks it; the controller does.
   */
  lemma {:induction false} OneClaimExactlyWhen(p: Params, s: State, steps: seq<Step>, ref: ObjectRef)
    requires OneClaim(s, ref) && Run(p, s, steps).Some?
    ensures OneClaimThroughout(p, s, steps, ref) <==> FilesWhenUnclaimed(p, s, steps, ref)
    decreases |steps|
  {
    if steps != [] {
      hide Enabled;
      hide Next;
      hide OneClaim;
      StepKeepsOneClaim(p, s, steps[0], ref);
      var t := Next(p, s, steps[0]);
      if OneClaim(t, ref) {
        OneClaimExactlyWhen(p, t, steps[1..], ref);
      } else {
        assert !OneClaimThroughout(p, t, steps[1..], ref);
      }
    }
  }

  lemma AdmissionsFileForOthers(p: Params, s: State, step: Step, ref: ObjectRef)
    requires AdmissionsOK(p, s) && Enabled(p, s, step) && ref in p.managed
    requires step.Receive? || step.TryCreate? || step.Persist? || step.Drop?
    ensures !Files(p, s, step, ref)
  {
  }

  lemma AllocatorFilesForItself(p: Params, s: State, step: Step, ref: ObjectRef)
    requires AllocatorsOK(p, s) && Enabled(p, s, step) && IsAllocatorStep(step) && Files(p, s, step, ref)
    ensures step.CreateNext? && step.ref == ref && Unclaimed(s.claims, ref)
  {
    if step.CreateNext? {
      assert AllocatorOK(p, s, step.ref, s.allocators[step.ref]);
    }
  }

  /** The guard at work: for managed machines nothing files a claim while there is one. */
  lemma ManagedFilesWhenUnclaimed(p: Params, s: State, step: Step, ref: ObjectRef)
    requires Inv(p, s) && Enabled(p, s, step) && ref in p.managed && Files(p, s, step, ref)
    ensures step.CreateNext? && step.ref == ref && Unclaimed(s.claims, ref)
  {
    hide UsedAreSecure;
    hide AdmissionsOK;
    hide AllocatorsOK;
    hide MachinesOK;
    hide CollectorsOK;
    hide NextCollector;
    hide NextAllocator;
    hide NextAdmission;
    if step.Receive? || step.TryCreate? || step.Persist? || step.Drop? {
      AdmissionsFileForOthers(p, s, step, ref);
    } else if IsCollectorStep(step) {
      CollectorFilesNone(p, s, step);
    } else if IsAllocatorStep(step) {
      AllocatorFilesForItself(p, s, step, ref);
    }
  }

  lemma {:induction false} ManagedKeepOneClaim(p: Params, s: State, steps: seq<Step>, ref: ObjectRef)
    requires InTime(p) && Inv(p, s) && Run(p, s, steps).Some? && ref in p.managed
    ensures OneClaimThroughout(p, s, steps, ref)
    decreases |steps|
  {
    assert OneClaim(s, ref);
    if steps != [] {
      StepKeeps(p, s, steps[0]);
      hide Inv;
      hide Enabled;
      hide Next;
      ManagedKeepOneClaim(p, Next(p, s, steps[0]), steps[1..], ref);
    }
  }

  // ----- A retried create -----

  /** The next request is for the two interfaces; the first is claimed for a machine that was refused. */
  ghost function Retried(p: Params): State {
    State(0, map[ENI := NewClaim(ENI, First(p), "pool", 0)], map[ENI := 0], map[],
          [Admission(First(p), "pool", [ENI, "eni-1"], Dropped),
           Admission(First(p), "pool", [ENI, "eni-1"], Trying(1))],
          map[], {}, map[])
  }

  lemma ReachRetried(p: Params) returns (steps: seq<Step>)
    ensures Run(p, INIT, steps) == Some(Retried(p))
  {
    assert Run(p, INIT, []) == Some(INIT);
    hide Run;
    hide First;
    OutsideManaged(p);
    var ref, both := First(p), [ENI, "eni-1"];
    steps := [];
    var s := INIT;
    steps, s := Take(p, INIT, steps, s, Receive(ref, "pool", both));
    assert s == INIT.(admissions := [Admission(ref, "pool", both, Trying(0))]);
    steps, s := Take(p, INIT, steps, s, TryCreate(0, 0));
    assert s == Retried(p).(admissions := [Admission(ref, "pool", both, Holding(ENI))]);
    steps, s := Take(p, INIT, steps, s, Drop(0));
    assert s == Retried(p).(admissions := [Admission(ref, "pool", both, Dropped)]);
    steps, s := Take(p, INIT, steps, s, Receive(ref, "pool", both));
    assert s == Retried(p).(admissions := [Admission(ref, "pool", both, Dropped),
                                           Admission(ref, "pool", both, Trying(0))]);
    steps, s := Take(p, INIT, steps, s, TryCreate(1, 0));
    assert s == Retried(p);
  }

  /** It does happen: a create that is refused and retried under the same name leaves two claims behind. */
  lemma RetryTakesSecondClaim(p: Params) returns (steps: seq<Step>)
    ensures Run(p, INIT, steps).Some?
    ensures !OneClaim(Run(p, INIT, steps).value, First(p))
  {
    var other := "eni-1";
    assert ENI[4] != other[4];
    steps := ReachRetried(p);
    var s := Retried(p);
    steps, s := Take(p, INIT, steps, s, TryCreate(1, 0));
    assert ENI in s.claims && other in s.claims;
  }
}

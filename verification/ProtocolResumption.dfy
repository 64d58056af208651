/** The allocator in the controller can be stopped anywhere and started again: one machine, one claim. */
module ProtocolResumption {
  import opened Api
  import opened Protocol
  import opened ProtocolSafety

  /** The machine exists at the start and after every step of the run. */
  ghost predicate StaysThrough(p: Params, s: State, steps: seq<Step>, ref: ObjectRef)
    decreases |steps|
  {
    ref in s.machines &&
    (steps != [] ==> Enabled(p, s, steps[0]) && StaysThrough(p, Next(p, s, steps[0]), steps[1..], ref))
  }

  /** `e` is the machine's one claim, and the machine has been given it or nothing yet. */
  ghost predicate Settled(s: State, ref: ObjectRef, e: string) {
    && e in s.claims && s.claims[e].machineRef == ref && s.claims[e].eniID == e && !s.claims[e].deleting
    && (forall n :: n in s.claims && s.claims[n].machineRef == ref ==> n == e)
    && ref in s.machines && s.machines[ref].interfaces in [[], [e]]
  }

  lemma InvSettles(p: Params, s: State, ref: ObjectRef, e: string)
    requires Inv(p, s) && ref in p.managed && ref in s.machines && e in s.claims && s.claims[e].machineRef == ref
    ensures Settled(s, ref, e)
  {
    assert Awaited(p, s, e) && Secure(p, s, e);
    assert s.machines[ref].byAllocator ==> |s.machines[ref].interfaces| == 1 && s.machines[ref].interfaces[0] == e;
    assert s.machines[ref].byAllocator ==> s.machines[ref].interfaces == [e];
  }

  /**
   Crash-safe resumption: once a managed machine has a claim, then for as long as the machine exists, and
   whatever the other processes do and however often its own allocator is stopped and restarted, this stays its
   only claim, and the machine is never given another interface.
   */
  lemma {:induction false} FirstClaimStays(p: Params, s: State, steps: seq<Step>, ref: ObjectRef, e: string)
    requires InTime(p) && Inv(p, s) && ref in p.managed
    requires e in s.claims && s.claims[e].machineRef == ref && StaysThrough(p, s, steps, ref)
    ensures Run(p, s, steps).Some? && Settled(Run(p, s, steps).value, ref, e)
    decreases |steps|
  {
    if steps == [] {
      InvSettles(p, s, ref, e);
    } else {
      assert Awaited(p, s, e);
      UsedClaimUntouched(p, s, steps[0], e);
      StepKeeps(p, s, steps[0]);
      FirstClaimStays(p, Next(p, s, steps[0]), steps[1..], ref, e);
    }
  }

  /** The same from the start of the cluster. */
  lemma FirstClaimStaysReachable(p: Params, before: seq<Step>, after: seq<Step>, ref: ObjectRef, e: string)
    requires InTime(p) && ref in p.managed && Run(p, INIT, before).Some?
    requires var s := Run(p, INIT, before).value;
             e in s.claims && s.claims[e].machineRef == ref && StaysThrough(p, s, after, ref)
    ensures Run(p, INIT, before + after).Some? && Settled(Run(p, INIT, before + after).value, ref, e)
  {
    InitInv(p);
    RunKeeps(p, INIT, before);
    FirstClaimStays(p, Run(p, INIT, before).value, after, ref, e);
    RunConcat(p, INIT, before, after);
  }

  /**
   And it ends with the claim in hand: from any state in which the allocator is not running, one undisturbed
   reconcile gives the machine the interface of the claim it already has, whatever the pool looks like now.
   */
  lemma RestartFinishes(p: Params, s: State, ref: ObjectRef, e: string, poolName: string, candidates: seq<string>)
    requires Inv(p, s) && ref in p.managed && ref in s.machines && ref !in s.allocators
    requires !s.machines[ref].terminating && s.machines[ref].interfaces == []
    requires e in s.claims && s.claims[e].machineRef == ref
    ensures var steps := [Begin(ref), Scan(ref, Some(e), poolName, candidates), PatchMachine(ref)];
            Run(p, s, steps) == Some(s.(machines := s.machines[ref := MachineView([e], true, false)]))
  {
    assert s.claims[e].eniID == e;
    hide Inv;
    hide Enabled;
    hide Next;
    hide Run;
    ScanFinds(p, s, ref, e, poolName, candidates);
    PatchFinishes(p, s, ref, e);
    RunThree(p, s, Begin(ref), Scan(ref, Some(e), poolName, candidates), PatchMachine(ref));
  }

  lemma ScanFinds(p: Params, s: State, ref: ObjectRef, e: string, poolName: string, candidates: seq<string>)
    requires ref in p.managed && ref in s.machines && ref !in s.allocators
    requires !s.machines[ref].terminating && s.machines[ref].interfaces == []
    requires e in s.claims && s.claims[e].machineRef == ref && s.claims[e].eniID == e
    ensures Enabled(p, s, Begin(ref)) && Enabled(p, Next(p, s, Begin(ref)), Scan(ref, Some(e), poolName, candidates))
    ensures Next(p, Next(p, s, Begin(ref)), Scan(ref, Some(e), poolName, candidates)) ==
      s.(allocators := s.allocators[ref := Patching(e)])
  {
    var started := Next(p, s, Begin(ref));
    assert started == s.(allocators := s.allocators[ref := Started]);
    assert started.allocators[ref := Patching(e)] == s.allocators[ref := Patching(e)];
  }

  lemma PatchFinishes(p: Params, s: State, ref: ObjectRef, e: string)
    requires ref in s.machines && ref !in s.allocators && !s.machines[ref].terminating
    ensures var holding := s.(allocators := s.allocators[ref := Patching(e)]);
            && Enabled(p, holding, PatchMachine(ref))
            && Next(p, holding, PatchMachine(ref)) == s.(machines := s.machines[ref := MachineView([e], true, false)])
  {
    assert s.allocators[ref := Patching(e)] - {ref} == s.allocators;
  }

  lemma RunThree(p: Params, s: State, a: Step, b: Step, c: Step)
    requires Enabled(p, s, a) && Enabled(p, Next(p, s, a), b) && Enabled(p, Next(p, Next(p, s, a), b), c)
    ensures Run(p, s, [a, b, c]) == Some(Next(p, Next(p, Next(p, s, a), b), c))
  {
    hide Enabled;
    hide Next;
    assert [a, b, c][1..] == [b, c] && [b, c][1..] == [c] && [c][1..] == [];
    var t := Next(p, Next(p, s, a), b);
    assert Run(p, Next(p, t, c), []) == Some(Next(p, t, c));
    assert Run(p, t, [c]) == Some(Next(p, t, c));
    assert Run(p, Next(p, s, a), [b, c]) == Run(p, t, [c]);
  }

  // ----- A restart among other processes -----

  /** No step of the machine's own allocator. */
  ghost predicate OthersOnly(steps: seq<Step>, ref: ObjectRef) {
    forall i :: 0 <= i < |steps| ==> !(IsAllocatorStep(steps[i]) && steps[i].ref == ref)
  }

  ghost predicate SameAllocator(s: State, t: State, ref: ObjectRef) {
    (ref in t.allocators <==> ref in s.allocators) && (ref in s.allocators ==> t.allocators[ref] == s.allocators[ref])
  }

  lemma OtherStepKeepsAllocator(p: Params, s: State, step: Step, ref: ObjectRef)
    requires Enabled(p, s, step) && !(IsAllocatorStep(step) && step.ref == ref)
    ensures SameAllocator(s, Next(p, s, step), ref)
  {
    hide NextCollector;
    hide NextAllocator;
    hide NextAdmission;
    if step.Receive? || step.TryCreate? || step.Persist? || step.Drop? {
      AdmissionKeepsAllocators(p, s, step);
    } else if IsCollectorStep(step) {
      CollectorKeepsAllocators(p, s, step);
    } else if IsAllocatorStep(step) {
      AllocatorKeepsOthers(p, s, step, ref);
    }
  }

  lemma AdmissionKeepsAllocators(p: Params, s: State, step: Step)
    requires Enabled(p, s, step) && (step.Receive? || step.TryCreate? || step.Persist? || step.Drop?)
    ensures NextAdmission(p, s, step).allocators == s.allocators
  {
  }

  lemma AllocatorKeepsOthers(p: Params, s: State, step: Step, ref: ObjectRef)
    requires Enabled(p, s, step) && IsAllocatorStep(step) && step.ref != ref
    ensures SameAllocator(s, NextAllocator(p, s, step), ref)
  {
  }

  lemma CollectorKeepsAllocators(p: Params, s: State, step: Step)
    requires Enabled(p, s, step) && IsCollectorStep(step)
    ensures NextCollector(p, s, step).allocators == s.allocators
  {
    hide WithFinalizers;
    hide AfterDelete;
  }

  lemma {:induction false} OthersKeepAllocator(p: Params, s: State, steps: seq<Step>, ref: ObjectRef)
    requires StaysThrough(p, s, steps, ref) && OthersOnly(steps, ref)
    ensures Run(p, s, steps).Some? && SameAllocator(s, Run(p, s, steps).value, ref)
    decreases |steps|
  {
    if steps != [] {
      OtherStepKeepsAllocator(p, s, steps[0], ref);
      hide Enabled;
      hide Next;
      assert forall i :: 0 <= i < |steps[1..]| ==> steps[1..][i] == steps[i + 1];
      OthersKeepAllocator(p, Next(p, s, steps[0]), steps[1..], ref);
    }
  }

  /** The state reached by other processes' steps while the machine's allocator stood at `at`. */
  ghost predicate Reached(p: Params, s: State, ref: ObjectRef, e: string, at: Allocator) {
    && Inv(p, s) && Settled(s, ref, e) && ref in s.allocators && s.allocators[ref] == at
  }

  lemma OthersReach(p: Params, s: State, steps: seq<Step>, ref: ObjectRef, e: string, at: Allocator)
    requires InTime(p) && ref in p.managed && Reached(p, s, ref, e, at)
    requires StaysThrough(p, s, steps, ref) && OthersOnly(steps, ref)
    ensures Run(p, s, steps).Some? && Reached(p, Run(p, s, steps).value, ref, e, at)
  {
    hide Inv;
    OthersKeepAllocator(p, s, steps, ref);
    FirstClaimStays(p, s, steps, ref, e);
    RunKeeps(p, s, steps);
  }

  lemma BeginReaches(p: Params, s: State, ref: ObjectRef, e: string)
    requires InTime(p) && Inv(p, s) && Enabled(p, s, Begin(ref)) && e in s.claims && s.claims[e].machineRef == ref
    ensures Reached(p, Next(p, s, Begin(ref)), ref, e, Started)
  {
    hide Inv;
    var t := Next(p, s, Begin(ref));
    StepKeeps(p, s, Begin(ref));
    InvSettles(p, t, ref, e);
  }

  /** Having started, the allocator can only find its claim. */
  lemma ScanReaches(p: Params, s: State, ref: ObjectRef, e: string, poolName: string, candidates: seq<string>)
    requires InTime(p) && ref in p.managed && Reached(p, s, ref, e, Started)
    ensures forall found :: Enabled(p, s, Scan(ref, found, poolName, candidates)) <==> found == Some(e)
    ensures Reached(p, Next(p, s, Scan(ref, Some(e), poolName, candidates)), ref, e, Patching(e))
  {
    hide Inv;
    var step := Scan(ref, Some(e), poolName, candidates);
    StepKeeps(p, s, step);
    InvSettles(p, Next(p, s, step), ref, e);
  }

  lemma PatchReached(p: Params, s: State, ref: ObjectRef, e: string)
    requires Reached(p, s, ref, e, Patching(e))
    ensures Enabled(p, s, PatchMachine(ref))
    ensures var t := Next(p, s, PatchMachine(ref));
            ref in t.machines && t.machines[ref] == MachineView([e], true, s.machines[ref].terminating) &&
              ref !in t.allocators
  {
    hide Inv;
  }

  /**
   The same in the midst of other processes: whatever they do between the start of the reconcile and its scan,
   the scan finds the claim on file and nothing else is possible; and whatever they do between the scan and the
   patch, as long as the machine stays the patch gives it that interface.
   */
  lemma InterleavedRestartFinishes(p: Params, s: State, ref: ObjectRef, e: string, poolName: string,
                                   candidates: seq<string>, first: seq<Step>, second: seq<Step>)
    requires InTime(p) && Inv(p, s) && e in s.claims && s.claims[e].machineRef == ref
    requires Enabled(p, s, Begin(ref)) && OthersOnly(first, ref) && OthersOnly(second, ref)
    requires StaysThrough(p, Next(p, s, Begin(ref)), first, ref)
    ensures var scan := Scan(ref, Some(e), poolName, candidates);
            var atScan := Run(p, Next(p, s, Begin(ref)), first);
            && atScan.Some?
            && (forall found :: Enabled(p, atScan.value, Scan(ref, found, poolName, candidates)) <==> found == Some(e))
            && (StaysThrough(p, Next(p, atScan.value, scan), second, ref) ==>
                  var atPatch := Run(p, Next(p, atScan.value, scan), second);
                  && atPatch.Some? && Enabled(p, atPatch.value, PatchMachine(ref))
                  && var end := Next(p, atPatch.value, PatchMachine(ref));
                     && ref in end.machines && end.machines[ref].interfaces == [e] && end.machines[ref].byAllocator
                     && ref !in end.allocators)
  {
    hide Reached;
    hide Next;
    BeginReaches(p, s, ref, e);
    OthersReach(p, Next(p, s, Begin(ref)), first, ref, e, Started);
    var atScan := Run(p, Next(p, s, Begin(ref)), first).value;
    ScanReaches(p, atScan, ref, e, poolName, candidates);
    hide Enabled;
    var scan := Scan(ref, Some(e), poolName, candidates);
    if StaysThrough(p, Next(p, atScan, scan), second, ref) {
      OthersReach(p, Next(p, atScan, scan), second, ref, e, Patching(e));
      PatchReached(p, Run(p, Next(p, atScan, scan), second).value, ref, e);
    }
  }
}

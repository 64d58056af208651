/** The invariant of the allocation protocol and the guarantees that follow from it. */
module ProtocolSafety {
  import opened Api
  import opened Protocol

  /** The timing hypothesis under which the grace period is long enough. */
  predicate InTime(p: Params) {
    p.d + p.s + p.g < GRACE
  }

  // ----- Being in use -----

  /** An admission that may still persist its machine holds the interface. */
  ghost predicate HeldInFlight(s: State, e: string) {
    exists i :: 0 <= i < |s.admissions| && s.admissions[i].phase == Holding(e)
  }

  /** The allocator injected the interface into a machine that exists, terminating or not. */
  ghost predicate HeldByMachine(s: State, e: string) {
    exists r :: r in s.machines && s.machines[r].byAllocator && e in s.machines[r].interfaces
  }

  /** The claim belongs to a managed machine that exists and may yet be given the interface. */
  ghost predicate Awaited(p: Params, s: State, e: string) {
    e in s.claims && s.claims[e].machineRef in p.managed && s.claims[e].machineRef in s.machines
  }

  ghost predicate InUse(p: Params, s: State, e: string) {
    HeldInFlight(s, e) || HeldByMachine(s, e) || Awaited(p, s, e)
  }

  /** Nothing on its way can release the claim. */
  ghost predicate Secure(p: Params, s: State, e: string) {
    && e in s.claims && e in s.born && !s.claims[e].deleting
    && (e in s.collectors ==> !s.collectors[e].Untagging? && !s.collectors[e].Condemned?)
    && forall t :: (s.claims[e].machineRef, t) in s.absences ==> t <= s.born[e] + p.d
  }

  // ----- The invariant -----

  ghost predicate LedgerOK(p: Params, s: State) {
    && NamedByENI(s.claims)
    && (forall e :: e in s.claims ==> e in s.born && s.born[e] <= s.now && s.born[e] - p.g <= s.claims[e].stamp)
    && (forall r, t :: (r, t) in s.absences ==> t <= s.now)
  }

  ghost predicate AdmissionsOK(p: Params, s: State) {
    && (forall i :: 0 <= i < |s.admissions| ==> s.admissions[i].ref !in p.managed)
    && (forall i :: 0 <= i < |s.admissions| && s.admissions[i].phase.Holding? ==>
          var e := s.admissions[i].phase.eni;
          e in s.claims && e in s.born && s.claims[e].machineRef == s.admissions[i].ref && s.now <= s.born[e] + p.d)
    && (forall i, j :: 0 <= i < j < |s.admissions| && s.admissions[i].phase.Holding? ==>
          s.admissions[i].phase != s.admissions[j].phase)
  }

  ghost predicate MachinesOK(p: Params, s: State) {
    && (forall r :: r in s.machines && s.machines[r].byAllocator ==>
          |s.machines[r].interfaces| == 1 &&
          var e := s.machines[r].interfaces[0];
          e in s.claims && s.claims[e].machineRef == r && !HeldInFlight(s, e))
    && (forall r :: r in s.machines && r in p.managed && !s.machines[r].byAllocator ==> s.machines[r].interfaces == [])
  }

  /** The current claim is still the one the collector copied. */
  ghost predicate Current(s: State, e: string, c: Claim) {
    && e in s.claims && !s.claims[e].deleting
    && s.claims[e].machineRef == c.machineRef && s.claims[e].stamp == c.stamp
  }

  ghost predicate Leaving(s: State, e: string) {
    e in s.claims && s.claims[e].deleting && ClaimFinalizer in s.claims[e].finalizers
  }

  ghost predicate CollectorOK(s: State, e: string, at: Collector) {
    match at
    case Fetched(c) => if c.deleting then ClaimFinalizer in c.finalizers ==> Leaving(s, e) else Current(s, e, c)
    case Untagging(c) => Leaving(s, e)
    case Missing(c, t) => Current(s, e, c) && (c.machineRef, t) in s.absences
    case _ => Current(s, e, at.claim)
  }

  ghost predicate CollectorsOK(s: State) {
    forall e :: e in s.collectors ==> CollectorOK(s, e, s.collectors[e])
  }

  ghost predicate AllocatorOK(p: Params, s: State, r: ObjectRef, at: Allocator) {
    && r in p.managed
    && match at
       case Started => true
       case Creating(_, _, _) => Unclaimed(s.claims, r)
       case Patching(e) => r in s.machines ==> e in s.claims && s.claims[e].machineRef == r
  }

  ghost predicate AllocatorsOK(p: Params, s: State) {
    && (forall r :: r in s.allocators ==> AllocatorOK(p, s, r, s.allocators[r]))
    && (forall m, n :: m in s.claims && n in s.claims && s.claims[m].machineRef in p.managed ==>
          (s.claims[m].machineRef == s.claims[n].machineRef ==> m == n))
  }

  ghost predicate UsedAreSecure(p: Params, s: State) {
    forall e :: InUse(p, s, e) ==> Secure(p, s, e)
  }

  ghost predicate Books(p: Params, s: State) {
    LedgerOK(p, s) && AdmissionsOK(p, s) && MachinesOK(p, s) && CollectorsOK(s) && AllocatorsOK(p, s)
  }

  ghost predicate Inv(p: Params, s: State) {
    Books(p, s) && UsedAreSecure(p, s)
  }

  // ----- Every step keeps it -----

  /** Being in use and secure carries over when claims, machines and admissions stay. */
  lemma SameHolders(p: Params, s: State, t: State, e: string)
    requires s.admissions == t.admissions && s.machines == t.machines && s.claims == t.claims
    ensures InUse(p, s, e) <==> InUse(p, t, e)
  {
  }

  lemma TickKeeps(p: Params, s: State, step: Step)
    requires Inv(p, s) && Enabled(p, s, step) && step.Tick?
    ensures Inv(p, Next(p, s, step))
  {
    var t := Next(p, s, step);
    forall e ensures InUse(p, s, e) <==> InUse(p, t, e) { SameHolders(p, s, t, e); }
  }

  lemma AbsenceKeepsBooks(p: Params, s: State, step: Step)
    requires Inv(p, s) && Enabled(p, s, step) && step.RecordAbsence?
    ensures Books(p, Next(p, s, step))
  {
    var t := Next(p, s, step);
    assert t == s.(absences := s.absences + {(step.ref, s.now)});
    forall e ensures HeldInFlight(t, e) <==> HeldInFlight(s, e) {}
    assert CollectorsOK(t) by {
      forall n | n in t.collectors ensures CollectorOK(t, n, t.collectors[n]) {
        assert CollectorOK(s, n, s.collectors[n]);
      }
    }
  }

  lemma AbsenceKeeps(p: Params, s: State, step: Step)
    requires Inv(p, s) && Enabled(p, s, step) && step.RecordAbsence?
    ensures Inv(p, Next(p, s, step))
  {
    AbsenceKeepsBooks(p, s, step);
    var t := s.(absences := s.absences + {(step.ref, s.now)});
    assert t == Next(p, s, step);
    hide Books;
    hide Enabled;
    hide Next;
    forall e | InUse(p, t, e) ensures Secure(p, t, e) {
      SameHolders(p, s, t, e);
      AbsentHolder(p, s, e, step.ref);
    }
  }

  /** When the machine of a used claim is not there, an admission holds the claim, within its deadline. */
  lemma AbsentHolder(p: Params, s: State, e: string, ref: ObjectRef)
    requires Inv(p, s) && InUse(p, s, e) && ref !in s.machines
    ensures e in s.claims && e in s.born
    ensures s.claims[e].machineRef == ref ==> s.now <= s.born[e] + p.d
  {
  }

  lemma ReceiveKeepsBooks(p: Params, s: State, step: Step)
    requires Inv(p, s) && Enabled(p, s, step) && (step.Receive? || step.Drop?)
    ensures Books(p, Next(p, s, step))
  {
  }

  lemma ReceiveKeeps(p: Params, s: State, step: Step)
    requires Inv(p, s) && Enabled(p, s, step) && (step.Receive? || step.Drop?)
    ensures Inv(p, Next(p, s, step))
  {
    ReceiveKeepsBooks(p, s, step);
    var t := Next(p, s, step);
    forall e | InUse(p, t, e) ensures Secure(p, t, e) {
      assert InUse(p, s, e);
    }
  }

  ghost predicate Fresh(p: Params, s: State, c: Claim, lag: nat) {
    && ClaimCreateAllowed(c) && c.name !in s.claims && lag <= p.g
    && (c.machineRef in p.managed ==>
          Unclaimed(s.claims, c.machineRef) && (c.machineRef in s.allocators ==> s.allocators[c.machineRef].Started?))
  }

  lemma StoreAllocators(p: Params, s: State, c: Claim, lag: nat)
    requires AllocatorsOK(p, s) && Fresh(p, s, c, lag)
    ensures AllocatorsOK(p, Stored(s, c, lag))
  {
  }

  lemma StoreMachines(p: Params, s: State, c: Claim, lag: nat)
    requires AdmissionsOK(p, s) && MachinesOK(p, s) && c.name !in s.claims
    ensures AdmissionsOK(p, Stored(s, c, lag)) && MachinesOK(p, Stored(s, c, lag))
  {
  }

  lemma StoreBooks(p: Params, s: State, c: Claim, lag: nat)
    requires Inv(p, s) && Fresh(p, s, c, lag)
    ensures Books(p, Stored(s, c, lag))
  {
    var t := Stored(s, c, lag);
    StoreAllocators(p, s, c, lag);
    StoreMachines(p, s, c, lag);
    hide AllocatorsOK;
    hide AdmissionsOK;
    hide MachinesOK;
    assert CollectorsOK(t) by {
      forall n | n in t.collectors ensures CollectorOK(t, n, t.collectors[n]) {
        assert CollectorOK(s, n, s.collectors[n]);
      }
    }
  }

  /** A fresh claim is filed. */
  lemma StoreKeeps(p: Params, s: State, c: Claim, lag: nat)
    requires Inv(p, s) && Fresh(p, s, c, lag)
    ensures Inv(p, Stored(s, c, lag))
  {
    StoreBooks(p, s, c, lag);
    var t := Stored(s, c, lag);
    forall e | InUse(p, t, e) ensures Secure(p, t, e) {
      if e == c.name {
        assert e in s.collectors ==> CollectorOK(s, e, s.collectors[e]);
      } else {
        assert InUse(p, s, e);
      }
    }
  }

  ghost function WithPhase(s: State, i: nat, phase: AdmissionPhase): State
    requires i < |s.admissions|
  {
    s.(admissions := s.admissions[i := s.admissions[i].(phase := phase)])
  }

  /** An admission that was trying goes on trying, or holds a claim made just now. */
  lemma PhaseKeeps(p: Params, s: State, i: nat, phase: AdmissionPhase)
    requires Inv(p, s) && i < |s.admissions| && s.admissions[i].phase.Trying?
    requires
      || phase.Trying?
      || (phase.Holding? && phase.eni in s.claims && Secure(p, s, phase.eni) && !InUse(p, s, phase.eni) &&
          s.claims[phase.eni].machineRef == s.admissions[i].ref && s.born[phase.eni] == s.now)
    ensures Inv(p, WithPhase(s, i, phase))
  {
    var t := WithPhase(s, i, phase);
    forall e ensures HeldInFlight(t, e) <==> HeldInFlight(s, e) || phase == Holding(e) {
      if HeldInFlight(s, e) {
        var k :| 0 <= k < |s.admissions| && s.admissions[k].phase == Holding(e);
        assert t.admissions[k].phase == Holding(e);
      }
      assert t.admissions[i].phase == phase;
    }
    assert AdmissionsOK(p, t);
    assert MachinesOK(p, t) by {
      forall r | r in s.machines && s.machines[r].byAllocator ensures phase != Holding(s.machines[r].interfaces[0]) {
        assert HeldByMachine(s, s.machines[r].interfaces[0]);
      }
    }
    SameCollectors(s, t);
    forall e | InUse(p, t, e) ensures Secure(p, t, e) {
      if phase != Holding(e) { assert InUse(p, s, e); }
    }
  }

  lemma SameCollectors(s: State, t: State)
    requires CollectorsOK(s) && s.collectors == t.collectors && s.claims == t.claims && s.absences == t.absences
    ensures CollectorsOK(t)
  {
  }

  lemma TryCreateKeeps(p: Params, s: State, step: Step)
    requires Inv(p, s) && Enabled(p, s, step) && step.TryCreate?
    ensures Inv(p, Next(p, s, step))
  {
    hide CollectorsOK;
    hide AllocatorsOK;
    hide MachinesOK;
    var a := s.admissions[step.i];
    var e := a.candidates[a.phase.cursor];
    if e in s.claims {
      PhaseKeeps(p, s, step.i, Trying(a.phase.cursor + 1));
    } else {
      var c := NewClaim(e, a.ref, a.poolName, s.now);
      StoreKeeps(p, s, c, step.lag);
      FreshIsFree(p, s, c, step.lag);
      PhaseKeeps(p, Stored(s, c, step.lag), step.i, Holding(e));
    }
  }

  /** A claim just filed is held by nobody, and nothing on its way can release it. */
  lemma FreshIsFree(p: Params, s: State, c: Claim, lag: nat)
    requires Inv(p, s) && ClaimCreateAllowed(c) && c.name !in s.claims && c.machineRef !in p.managed
    ensures !InUse(p, Stored(s, c, lag), c.name) && Secure(p, Stored(s, c, lag), c.name)
  {
  }

  lemma PersistKeepsBooks(p: Params, s: State, step: Step)
    requires Inv(p, s) && Enabled(p, s, step) && step.Persist?
    ensures Books(p, Next(p, s, step))
  {
  }

  lemma PersistKeeps(p: Params, s: State, step: Step)
    requires Inv(p, s) && Enabled(p, s, step) && step.Persist?
    ensures Inv(p, Next(p, s, step))
  {
    PersistKeepsBooks(p, s, step);
    var t := Next(p, s, step);
    forall e | InUse(p, t, e) ensures Secure(p, t, e) {
      assert InUse(p, s, e);
    }
  }

  lemma MachineArrivesBooks(p: Params, s: State, step: Step)
    requires Inv(p, s) && Enabled(p, s, step) && (step.UserCreate? || step.CreateManaged?)
    ensures Books(p, Next(p, s, step))
  {
  }

  lemma MachineArrives(p: Params, s: State, step: Step)
    requires Inv(p, s) && Enabled(p, s, step) && (step.UserCreate? || step.CreateManaged?)
    ensures Inv(p, Next(p, s, step))
  {
    MachineArrivesBooks(p, s, step);
    var t := Next(p, s, step);
    forall e | InUse(p, t, e) ensures Secure(p, t, e) {
      assert InUse(p, s, e);
    }
  }

  lemma MachineLeavesBooks(p: Params, s: State, step: Step)
    requires Inv(p, s) && Enabled(p, s, step) && (step.Terminate? || step.Vanish?)
    ensures Books(p, Next(p, s, step))
  {
  }

  lemma MachineLeaves(p: Params, s: State, step: Step)
    requires Inv(p, s) && Enabled(p, s, step) && (step.Terminate? || step.Vanish?)
    ensures Inv(p, Next(p, s, step))
  {
    MachineLeavesBooks(p, s, step);
    var t := Next(p, s, step);
    forall e | InUse(p, t, e) ensures Secure(p, t, e) {
      assert InUse(p, s, e);
    }
  }

  // The collector.

  lemma GotoKeeps(p: Params, s: State, e: string, at: Collector)
    requires Inv(p, s) && CollectorOK(s, e, at)
    requires at.Untagging? || at.Condemned? ==> !InUse(p, s, e)
    ensures Inv(p, Goto(s, e, at))
  {
    var t := Goto(s, e, at);
    assert CollectorsOK(t) by {
      forall n | n in t.collectors ensures CollectorOK(t, n, t.collectors[n]) {
        if n != e { assert CollectorOK(s, n, s.collectors[n]); }
      }
    }
    SameBooks(p, s, t);
    forall n | InUse(p, t, n) ensures Secure(p, t, n) { SameHolders(p, s, t, n); }
  }

  lemma IdleKeeps(p: Params, s: State, e: string)
    requires Inv(p, s)
    ensures Inv(p, Idle(s, e))
  {
    var t := Idle(s, e);
    assert CollectorsOK(t) by {
      forall n | n in t.collectors ensures CollectorOK(t, n, t.collectors[n]) {
        assert CollectorOK(s, n, s.collectors[n]);
      }
    }
    SameBooks(p, s, t);
    forall n | InUse(p, t, n) ensures Secure(p, t, n) { SameHolders(p, s, t, n); }
  }

  lemma SameBooks(p: Params, s: State, t: State)
    requires Books(p, s) && CollectorsOK(t) && t == s.(collectors := t.collectors)
    ensures Books(p, t)
  {
  }

  lemma DeletedIsUnused(p: Params, s: State, e: string)
    requires Inv(p, s)
    ensures e in s.claims && s.claims[e].deleting ==> !InUse(p, s, e)
  {
  }

  // Steps that only move the collector.

  lemma FetchKeeps(p: Params, s: State, step: Step)
    requires Inv(p, s) && Enabled(p, s, step) && step.Fetch?
    ensures Inv(p, Next(p, s, step))
  {
    hide Inv;
    GotoKeeps(p, s, step.eni, Fetched(s.claims[step.eni]));
  }

  lemma ReadPoolKeeps(p: Params, s: State, step: Step)
    requires Inv(p, s) && Enabled(p, s, step) && step.ReadPool?
    ensures Inv(p, Next(p, s, step))
  {
    CollectorFact(p, s, step.eni);
    DeletedIsUnused(p, s, step.eni);
    hide Inv;
    hide InUse;
    var t := NextCollector(p, s, step);
    if step.eni in t.collectors {
      GotoKeeps(p, s, step.eni, t.collectors[step.eni]);
    } else {
      IdleKeeps(p, s, step.eni);
    }
  }

  lemma SeeKeeps(p: Params, s: State, step: Step)
    requires Inv(p, s) && Enabled(p, s, step) && (step.SeeAbsent? || step.SeePresent?)
    ensures Inv(p, Next(p, s, step))
  {
    CollectorFact(p, s, step.eni);
    hide Inv;
    hide InUse;
    GotoKeeps(p, s, step.eni, NextCollector(p, s, step).collectors[step.eni]);
  }

  lemma AbortKeeps(p: Params, s: State, step: Step)
    requires Inv(p, s) && Enabled(p, s, step) && step.AbortCollector?
    ensures Inv(p, Next(p, s, step))
  {
    hide Inv;
    IdleKeeps(p, s, step.eni);
  }

  /** The heart of the timing argument: a claim that is old enough for the collector is not in use. */
  lemma OldEnoughIsUnused(p: Params, s: State, e: string)
    requires InTime(p) && Inv(p, s) && Enabled(p, s, CheckAge(e))
    requires s.now - s.collectors[e].claim.stamp >= GRACE
    ensures !InUse(p, s, e)
  {
  }

  lemma CheckAgeKeeps(p: Params, s: State, step: Step)
    requires InTime(p) && Inv(p, s) && Enabled(p, s, step) && step.CheckAge?
    ensures Inv(p, Next(p, s, step))
  {
    var e, c := step.eni, s.collectors[step.eni].claim;
    assert CollectorOK(s, e, s.collectors[e]);
    if s.now - c.stamp >= GRACE {
      OldEnoughIsUnused(p, s, e);
      GotoKeeps(p, s, e, Condemned(c));
    } else {
      IdleKeeps(p, s, e);
    }
  }

  /** A change of one claim that is not in use, or that leaves its machine and times alone. */
  ghost predicate Edits(s: State, t: State, e: string) {
    && t == s.(claims := t.claims, collectors := s.collectors - {e})
    && (forall n :: n != e ==> (n in t.claims <==> n in s.claims) && (n in s.claims ==> t.claims[n] == s.claims[n]))
    && (e in t.claims ==>
          && e in s.claims && t.claims[e].name == s.claims[e].name && t.claims[e].eniID == s.claims[e].eniID
          && t.claims[e].machineRef == s.claims[e].machineRef && t.claims[e].stamp == s.claims[e].stamp)
  }

  lemma EditUnusedHolders(p: Params, s: State, t: State, e: string)
    requires AdmissionsOK(p, s) && MachinesOK(p, s) && Edits(s, t, e) && !InUse(p, s, e)
    ensures AdmissionsOK(p, t) && MachinesOK(p, t)
  {
    assert AdmissionsOK(p, t) by {
      forall i | 0 <= i < |s.admissions| && s.admissions[i].phase.Holding? ensures s.admissions[i].phase.eni != e {}
    }
    assert MachinesOK(p, t) by {
      forall r | r in s.machines && s.machines[r].byAllocator ensures s.machines[r].interfaces[0] != e {
        assert HeldByMachine(s, s.machines[r].interfaces[0]);
      }
      forall n ensures HeldInFlight(t, n) <==> HeldInFlight(s, n) {}
    }
  }

  lemma EditKeepsCollectors(s: State, t: State, e: string)
    requires CollectorsOK(s) && Edits(s, t, e)
    ensures CollectorsOK(t)
  {
    forall n | n in t.collectors ensures CollectorOK(t, n, t.collectors[n]) {
      assert CollectorOK(s, n, s.collectors[n]);
    }
  }

  lemma EditKeepsAllocators(p: Params, s: State, t: State, e: string)
    requires AllocatorsOK(p, s) && Edits(s, t, e) && !Awaited(p, s, e)
    ensures AllocatorsOK(p, t)
  {
    assert t.machines == s.machines && t.allocators == s.allocators;
    forall n | n in t.claims ensures n in s.claims && t.claims[n].machineRef == s.claims[n].machineRef {}
    forall r | r in t.allocators ensures AllocatorOK(p, t, r, t.allocators[r]) {
      assert AllocatorOK(p, s, r, s.allocators[r]);
    }
  }

  lemma EditUnusedBooks(p: Params, s: State, t: State, e: string)
    requires Inv(p, s) && Edits(s, t, e) && !InUse(p, s, e)
    ensures Books(p, t)
  {
    EditUnusedHolders(p, s, t, e);
    EditKeepsCollectors(s, t, e);
    EditKeepsAllocators(p, s, t, e);
    hide AdmissionsOK;
    hide MachinesOK;
    hide CollectorsOK;
    hide AllocatorsOK;
    hide UsedAreSecure;
    assert LedgerOK(p, t);
  }

  lemma EditUnusedKeeps(p: Params, s: State, t: State, e: string)
    requires Inv(p, s) && Edits(s, t, e) && !InUse(p, s, e)
    ensures Inv(p, t)
  {
    EditUnusedBooks(p, s, t, e);
    forall n | InUse(p, t, n) ensures Secure(p, t, n) {
      assert InUse(p, s, n);
    }
  }

  lemma ReleaseKeeps(p: Params, s: State, step: Step)
    requires Inv(p, s) && Enabled(p, s, step) && (step.DeleteClaim? || step.Untag?)
    ensures !InUse(p, s, step.eni)
    ensures Inv(p, Next(p, s, step))
  {
    assert CollectorOK(s, step.eni, s.collectors[step.eni]);
    assert !Secure(p, s, step.eni);
    EditUnusedKeeps(p, s, Next(p, s, step), step.eni);
  }

  lemma TouchMachines(p: Params, s: State, t: State, e: string)
    requires LedgerOK(p, s) && AdmissionsOK(p, s) && MachinesOK(p, s) && Edits(s, t, e) && e in t.claims
    ensures LedgerOK(p, t) && AdmissionsOK(p, t) && MachinesOK(p, t)
  {
  }

  lemma TouchWorkers(p: Params, s: State, t: State, e: string)
    requires CollectorsOK(s) && AllocatorsOK(p, s) && Edits(s, t, e) && e in t.claims
    ensures CollectorsOK(t) && AllocatorsOK(p, t)
  {
  }

  /** A change of a live claim that leaves it alive. */
  lemma TouchKeeps(p: Params, s: State, t: State, e: string)
    requires Inv(p, s) && Edits(s, t, e)
    requires e in t.claims && !t.claims[e].deleting && !s.claims[e].deleting
    ensures Inv(p, t)
  {
    TouchMachines(p, s, t, e);
    TouchWorkers(p, s, t, e);
    forall n | InUse(p, t, n) ensures Secure(p, t, n) {
      assert InUse(p, s, n);
    }
  }

  lemma ReportKeeps(p: Params, s: State, step: Step)
    requires Inv(p, s) && Enabled(p, s, step) && step.Report?
    ensures Inv(p, Next(p, s, step))
  {
    assert CollectorOK(s, step.eni, s.collectors[step.eni]);
    TouchKeeps(p, s, Next(p, s, step), step.eni);
  }

  lemma TagKeeps(p: Params, s: State, step: Step)
    requires Inv(p, s) && Enabled(p, s, step) && step.Tag?
    ensures Inv(p, Next(p, s, step))
  {
    var e := step.eni;
    var c := s.collectors[e].claim;
    assert CollectorOK(s, e, s.collectors[e]);
    var tagged := c.finalizers + [ClaimFinalizer];
    var t := Idle(s, e).(claims := WithFinalizers(s.claims, e, tagged));
    TouchKeeps(p, s, t, e);
    GotoKeeps(p, t, e, Looking(c.(finalizers := tagged)));
    GotoAfterIdle(s, e, Looking(c.(finalizers := tagged)));
  }

  lemma GotoAfterIdle(s: State, e: string, at: Collector)
    ensures Goto(Idle(s, e), e, at) == Goto(s, e, at)
  {
  }

  // The allocator of the controller, and everybody else.

  /** Only an allocator moves. */
  lemma SetAllocatorKeeps(p: Params, s: State, allocators: map<ObjectRef, Allocator>)
    requires Inv(p, s)
    requires forall r :: r in allocators ==> AllocatorOK(p, s, r, allocators[r])
    ensures Inv(p, s.(allocators := allocators))
  {
    var t := s.(allocators := allocators);
    forall e ensures HeldInFlight(t, e) <==> HeldInFlight(s, e) {}
    SameCollectors(s, t);
    assert AllocatorsOK(p, t) by {
      forall r | r in allocators ensures AllocatorOK(p, t, r, allocators[r]) {}
    }
    forall e | InUse(p, t, e) ensures Secure(p, t, e) { SameHolders(p, s, t, e); }
  }

  lemma AllocatorMoves(p: Params, s: State, step: Step)
    requires Inv(p, s) && Enabled(p, s, step) && (step.Begin? || step.Scan? || step.AbortAllocator?)
    ensures Inv(p, Next(p, s, step))
  {
    SetAllocatorKeeps(p, s, Next(p, s, step).allocators);
  }

  lemma AllocatorFact(p: Params, s: State, r: ObjectRef)
    requires Inv(p, s) && r in s.allocators
    ensures AllocatorOK(p, s, r, s.allocators[r])
  {
  }

  lemma MoveAllocator(p: Params, s: State, r: ObjectRef, at: Allocator)
    requires Inv(p, s) && AllocatorOK(p, s, r, at)
    ensures Inv(p, s.(allocators := s.allocators[r := at]))
  {
    SetAllocatorKeeps(p, s, s.allocators[r := at]);
  }

  lemma DropAllocator(p: Params, s: State, r: ObjectRef)
    requires Inv(p, s)
    ensures Inv(p, s.(allocators := s.allocators - {r}))
  {
    SetAllocatorKeeps(p, s, s.allocators - {r});
  }

  /** The allocator's claim is filed first, with the allocator set aside, then the allocator moves on. */
  lemma ClaimAndMove(p: Params, s: State, r: ObjectRef, c: Claim, lag: nat)
    requires Inv(p, s) && r in p.managed && Unclaimed(s.claims, r) && c.machineRef == r
    requires ClaimCreateAllowed(c) && c.name !in s.claims && lag <= p.g
    ensures Inv(p, Stored(s, c, lag).(allocators := s.allocators[r := Patching(c.name)]))
  {
    hide Inv;
    var s0 := s.(allocators := s.allocators[r := Started]);
    MoveAllocator(p, s, r, Started);
    StoreKeeps(p, s0, c, lag);
    MoveAllocator(p, Stored(s0, c, lag), r, Patching(c.name));
    assert s0.allocators[r := Patching(c.name)] == s.allocators[r := Patching(c.name)];
  }

  lemma CreateNextKeeps(p: Params, s: State, step: Step)
    requires Inv(p, s) && Enabled(p, s, step) && step.CreateNext?
    ensures Inv(p, Next(p, s, step))
  {
    hide Inv;
    var r, a := step.ref, s.allocators[step.ref];
    AllocatorFact(p, s, r);
    if a.cursor >= |a.candidates| {
      DropAllocator(p, s, r);
    } else if a.candidates[a.cursor] in s.claims {
      MoveAllocator(p, s, r, a.(cursor := a.cursor + 1));
    } else {
      ClaimAndMove(p, s, r, NewClaim(a.candidates[a.cursor], r, a.poolName, s.now), step.lag);
    }
  }

  lemma InjectKeeps(p: Params, s: State, r: ObjectRef, e: string)
    requires Inv(p, s) && r in p.managed && r in s.machines && e in s.claims && s.claims[e].machineRef == r
    ensures Inv(p, s.(machines := s.machines[r := MachineView([e], true, s.machines[r].terminating)]))
  {
    var t := s.(machines := s.machines[r := MachineView([e], true, s.machines[r].terminating)]);
    forall n ensures HeldInFlight(t, n) <==> HeldInFlight(s, n) {}
    assert !HeldInFlight(s, e);
    assert MachinesOK(p, t);
    SameCollectors(s, t);
    assert AllocatorsOK(p, t) by {
      forall q | q in t.allocators ensures AllocatorOK(p, t, q, t.allocators[q]) {
        assert AllocatorOK(p, s, q, s.allocators[q]);
      }
    }
    assert Awaited(p, s, e);
    forall n | InUse(p, t, n) ensures Secure(p, t, n) {
      assert HeldByMachine(t, n) ==> n == e || HeldByMachine(s, n);
      assert InUse(p, s, n);
    }
  }

  lemma PatchMachineKeeps(p: Params, s: State, step: Step)
    requires Inv(p, s) && Enabled(p, s, step) && step.PatchMachine?
    ensures Inv(p, Next(p, s, step))
  {
    var r := step.ref;
    var e := s.allocators[r].eni;
    assert AllocatorOK(p, s, r, s.allocators[r]);
    var done := s.(allocators := s.allocators - {r});
    SetAllocatorKeeps(p, s, done.allocators);
    if r in s.machines {
      InjectKeeps(p, done, r, e);
    }
  }

  lemma ForeignClaimKeeps(p: Params, s: State, step: Step)
    requires Inv(p, s) && Enabled(p, s, step) && step.ForeignClaim?
    ensures Inv(p, Next(p, s, step))
  {
    StoreKeeps(p, s, step.claim, step.lag);
  }

  /** With the collector set aside, somebody else's edit of the finalizers is an edit like any other. */
  lemma ForeignEdit(p: Params, s: State, e: string, finalizers: seq<Finalizer>)
    requires Inv(p, s) && e in s.claims && e !in s.collectors
    ensures Inv(p, s.(claims := WithFinalizers(s.claims, e, finalizers)))
    ensures forall n :: InUse(p, s.(claims := WithFinalizers(s.claims, e, finalizers)), n) ==> InUse(p, s, n)
  {
    var t := s.(claims := WithFinalizers(s.claims, e, finalizers));
    assert s.collectors - {e} == s.collectors;
    if s.claims[e].deleting {
      assert !Secure(p, s, e);
      EditUnusedKeeps(p, s, t, e);
    } else {
      TouchKeeps(p, s, t, e);
    }
    forall n | InUse(p, t, n) ensures InUse(p, s, n) {}
  }

  lemma CollectorFact(p: Params, s: State, e: string)
    requires Inv(p, s) && e in s.collectors
    ensures CollectorOK(s, e, s.collectors[e])
    ensures s.collectors[e].Untagging? || s.collectors[e].Condemned? ==> !InUse(p, s, e)
  {
  }

  lemma ForeignFinalizersKeeps(p: Params, s: State, step: Step)
    requires Inv(p, s) && Enabled(p, s, step) && step.ForeignFinalizers?
    ensures Inv(p, Next(p, s, step))
  {
    hide Inv;
    hide InUse;
    var e, t := step.eni, Next(p, s, step);
    // The collector is set aside and put back.
    var s0, t0 := Idle(s, e), Idle(t, e);
    IdleKeeps(p, s, e);
    ForeignEdit(p, s0, e, step.finalizers);
    if e in s.collectors {
      CollectorFact(p, s, e);
      SameHolders(p, s, s0, e);
      GotoKeeps(p, t0, e, s.collectors[e]);
      GotoAfterIdle(t, e, s.collectors[e]);
      assert t.collectors[e := s.collectors[e]] == t.collectors;
    } else {
      assert t.collectors - {e} == t.collectors;
    }
  }

  // ----- The guarantees -----

  lemma StepKeeps(p: Params, s: State, step: Step)
    requires InTime(p) && Inv(p, s) && Enabled(p, s, step)
    ensures Inv(p, Next(p, s, step))
  {
    hide Inv;
    hide Enabled;
    hide Next;
    match step
    case Tick(_) => TickKeeps(p, s, step);
    case RecordAbsence(_) => AbsenceKeeps(p, s, step);
    case Receive(_, _, _) => ReceiveKeeps(p, s, step);
    case Drop(_) => ReceiveKeeps(p, s, step);
    case TryCreate(_, _) => TryCreateKeeps(p, s, step);
    case Persist(_) => PersistKeeps(p, s, step);
    case UserCreate(_, _) => MachineArrives(p, s, step);
    case CreateManaged(_) => MachineArrives(p, s, step);
    case Terminate(_) => MachineLeaves(p, s, step);
    case Vanish(_) => MachineLeaves(p, s, step);
    case Fetch(_) => FetchKeeps(p, s, step);
    case ReadPool(_, _) => ReadPoolKeeps(p, s, step);
    case SeeAbsent(_, _) => SeeKeeps(p, s, step);
    case SeePresent(_) => SeeKeeps(p, s, step);
    case AbortCollector(_) => AbortKeeps(p, s, step);
    case CheckAge(_) => CheckAgeKeeps(p, s, step);
    case DeleteClaim(_) => ReleaseKeeps(p, s, step);
    case Untag(_) => ReleaseKeeps(p, s, step);
    case Tag(_) => TagKeeps(p, s, step);
    case Report(_, _) => ReportKeeps(p, s, step);
    case Begin(_) => AllocatorMoves(p, s, step);
    case Scan(_, _, _, _) => AllocatorMoves(p, s, step);
    case AbortAllocator(_) => AllocatorMoves(p, s, step);
    case CreateNext(_, _) => CreateNextKeeps(p, s, step);
    case PatchMachine(_) => PatchMachineKeeps(p, s, step);
    case ForeignClaim(_, _) => ForeignClaimKeeps(p, s, step);
    case ForeignFinalizers(_, _) => ForeignFinalizersKeeps(p, s, step);
  }

  lemma {:induction false} RunKeeps(p: Params, s: State, steps: seq<Step>)
    requires InTime(p) && Inv(p, s) && Run(p, s, steps).Some?
    ensures Inv(p, Run(p, s, steps).value)
    decreases |steps|
  {
    if steps != [] {
      StepKeeps(p, s, steps[0]);
      RunKeeps(p, Next(p, s, steps[0]), steps[1..]);
    }
  }

  lemma InitInv(p: Params)
    ensures Inv(p, INIT)
  {
  }

  /** A claim has lost nothing that protects it. */
  ghost predicate Untouched(before: Claim, after: map<string, Claim>, e: string) {
    && e in after && !after[e].deleting && after[e].machineRef == before.machineRef && after[e].eniID == before.eniID
    && (ClaimFinalizer in before.finalizers ==> ClaimFinalizer in after[e].finalizers)
  }

  /** Only these steps change a claim that exists. */
  predicate EditsClaim(step: Step) {
    step.Tag? || step.DeleteClaim? || step.Untag? || step.Report? || step.ForeignFinalizers?
  }

  ghost predicate Kept(s: State, t: State, e: string) {
    e in s.claims && e in t.claims && t.claims[e] == s.claims[e]
  }

  lemma AdmissionKeepsClaims(p: Params, s: State, step: Step, e: string)
    requires Enabled(p, s, step) && (step.Receive? || step.TryCreate? || step.Persist? || step.Drop?) && e in s.claims
    ensures Kept(s, NextAdmission(p, s, step), e)
  {
  }

  lemma CollectorKeepsClaims(p: Params, s: State, step: Step, e: string)
    requires Enabled(p, s, step) && IsCollectorStep(step) && e in s.claims
    requires EditsClaim(step) ==> step.eni != e
    ensures Kept(s, NextCollector(p, s, step), e)
  {
  }

  lemma AllocatorKeepsClaims(p: Params, s: State, step: Step, e: string)
    requires Enabled(p, s, step) && IsAllocatorStep(step) && e in s.claims
    ensures Kept(s, NextAllocator(p, s, step), e)
  {
  }

  lemma OtherStepsKeepClaims(p: Params, s: State, step: Step, e: string)
    requires Enabled(p, s, step) && e in s.claims
    requires EditsClaim(step) ==> step.eni != e
    ensures Kept(s, Next(p, s, step), e)
  {
    hide NextAdmission;
    hide NextCollector;
    hide NextAllocator;
    if step.Receive? || step.TryCreate? || step.Persist? || step.Drop? {
      AdmissionKeepsClaims(p, s, step, e);
    } else if IsCollectorStep(step) {
      CollectorKeepsClaims(p, s, step, e);
    } else if IsAllocatorStep(step) {
      AllocatorKeepsClaims(p, s, step, e);
    }
  }

  lemma UsedIsSecure(p: Params, s: State, e: string)
    requires Inv(p, s) && InUse(p, s, e)
    ensures Secure(p, s, e)
  {
  }

  /**
   Timed claim safety, for one step from any state satisfying the invariant: a claim in use is neither
   deleted nor stripped of the allocator's finalizer, whoever takes the step.
   */
  lemma UsedClaimUntouched(p: Params, s: State, step: Step, e: string)
    requires Inv(p, s) && Enabled(p, s, step) && InUse(p, s, e)
    ensures e in s.claims && Untouched(s.claims[e], Next(p, s, step).claims, e)
  {
    UsedIsSecure(p, s, e);
    if EditsClaim(step) && step.eni == e {
      OwnEditHarmless(p, s, step);
    } else {
      OtherStepsKeepClaims(p, s, step, e);
    }
  }

  lemma OwnEditHarmless(p: Params, s: State, step: Step)
    requires Inv(p, s) && Enabled(p, s, step) && EditsClaim(step) && Secure(p, s, step.eni)
    ensures Untouched(s.claims[step.eni], Next(p, s, step).claims, step.eni)
  {
    hide Books;
    hide UsedAreSecure;
    hide InUse;
    if !step.ForeignFinalizers? {
      CollectorFact(p, s, step.eni);
      CollectorEditHarmless(p, s, step);
    }
  }

  /** Only a tag or a report may still be on its way to a secure claim. */
  lemma CollectorEditHarmless(p: Params, s: State, step: Step)
    requires Enabled(p, s, step) && (step.Tag? || step.DeleteClaim? || step.Untag? || step.Report?)
    requires Secure(p, s, step.eni) && step.eni in s.collectors && CollectorOK(s, step.eni, s.collectors[step.eni])
    ensures Untouched(s.claims[step.eni], NextCollector(p, s, step).claims, step.eni)
  {
  }

  /** Timed claim safety over whole runs: at every point of every run, whatever comes next. */
  lemma ClaimSafety(p: Params, steps: seq<Step>, step: Step, e: string)
    requires InTime(p) && Run(p, INIT, steps).Some?
    requires Enabled(p, Run(p, INIT, steps).value, step) && InUse(p, Run(p, INIT, steps).value, e)
    ensures var s := Run(p, INIT, steps).value;
            e in s.claims && Untouched(s.claims[e], Next(p, s, step).claims, e)
  {
    InitInv(p);
    RunKeeps(p, INIT, steps);
    UsedClaimUntouched(p, Run(p, INIT, steps).value, step, e);
  }

  // ----- Exclusivity -----

  /**
   Every injected interface is backed by the claim that bears its name and names its machine; no two
   machines share one, and none is promised to an admission still in flight or to two of them.
   */
  ghost predicate Exclusive(s: State) {
    && (forall r :: r in s.machines && s.machines[r].byAllocator ==>
          |s.machines[r].interfaces| == 1 &&
          var e := s.machines[r].interfaces[0];
          e in s.claims && s.claims[e].name == e && s.claims[e].eniID == e && s.claims[e].machineRef == r
          && !s.claims[e].deleting && !HeldInFlight(s, e))
    && (forall q, r :: q in s.machines && r in s.machines && q != r &&
                       s.machines[q].byAllocator && s.machines[r].byAllocator ==>
          s.machines[q].interfaces != s.machines[r].interfaces)
    && (forall i, j :: 0 <= i < j < |s.admissions| && s.admissions[i].phase.Holding? ==>
          s.admissions[i].phase != s.admissions[j].phase)
  }

  lemma InvExclusive(p: Params, s: State)
    requires Inv(p, s)
    ensures Exclusive(s)
  {
    forall r | r in s.machines && s.machines[r].byAllocator
      ensures |s.machines[r].interfaces| == 1 && Secure(p, s, s.machines[r].interfaces[0]) {
      assert HeldByMachine(s, s.machines[r].interfaces[0]);
    }
  }

  /** ENI exclusivity in every reachable state. */
  lemma RunsAreExclusive(p: Params, steps: seq<Step>)
    requires InTime(p) && Run(p, INIT, steps).Some?
    ensures Exclusive(Run(p, INIT, steps).value)
  {
    InitInv(p);
    RunKeeps(p, INIT, steps);
    InvExclusive(p, Run(p, INIT, steps).value);
  }
}

/** The code runs the protocol: each sequential operation, undisturbed, is a run of protocol steps. */
module ProtocolRefinement {
  import opened Api
  import opened Allocation
  import opened Protocol
  import opened ProtocolRace
  import ClaimCollector

  // ----- An admission -----

  /** Where an allocation leaves its admission. */
  function PhaseOf(answer: Answer, n: nat): AdmissionPhase {
    if answer.Err? then Dropped else if answer.value.Some? then Holding(answer.value.value.name) else Trying(n)
  }

  /**
   The webhook's loop of creates, from the k-th candidate on, is a run of TryCreate steps; a create that is
   rejected ends it, and the admission is dropped.
   */
  lemma {:induction false} AdmissionIsRun(p: Params, s: State, i: nat, order: seq<ENIReference>, k: nat, a: Attempt)
    returns (steps: seq<Step>, end: State)
    requires i < |s.admissions| && k <= |order| && a.now == s.now
    requires s.admissions[i] == Admission(a.machineRef, a.pool.name, Ids(order), Trying(k))
    ensures Run(p, s, steps) == Some(end)
    ensures var r := TryFrom(order[k..], s.claims, a);
            && LoopSteps(steps, i, r.answer)
            && end.claims == r.claims
            && end == s.(claims := end.claims, born := end.born,
                         admissions := s.admissions[i := s.admissions[i].(phase := PhaseOf(r.answer, |order|))])
    decreases |order| - k
  {
    hide LoopSteps;
    if k == |order| {
      steps, end := [], s;
      assert order[k..] == [];
      assert s.admissions[i := s.admissions[i]] == s.admissions;
      LoopEnds(i, Ok(None));
    } else {
      assert order[k..][0] == order[k] && order[k..][1..] == order[k + 1..];
      if order[k].id in a.failing {
        steps, end := [Drop(i)], Next(p, s, Drop(i));
        RunOne(p, s, Drop(i));
        LoopEnds(i, Err(CreateRejected(order[k].id)));
      } else if order[k].id in s.claims {
        steps, end := AdmissionMovesOn(p, s, i, order, k, a);
      } else {
        steps, end := [TryCreate(i, 0)], Next(p, s, TryCreate(i, 0));
        RunOne(p, s, TryCreate(i, 0));
        LoopEnds(i, Ok(Some(a.ClaimFor(order[k]))));
        assert end.claims == TryFrom(order[k..], s.claims, a).claims;
      }
    }
  }

  /** Creates of one admission; a rejected one is the last. */
  ghost predicate LoopSteps(steps: seq<Step>, i: nat, answer: Answer) {
    if answer.Err? then
      && steps != [] && steps[|steps| - 1] == Drop(i)
      && forall j :: 0 <= j < |steps| - 1 ==> steps[j] == TryCreate(i, 0)
    else forall j :: 0 <= j < |steps| ==> steps[j] == TryCreate(i, 0)
  }

  lemma LoopEnds(i: nat, answer: Answer)
    ensures answer == Ok(None) ==> LoopSteps([], i, answer)
    ensures LoopSteps([if answer.Err? then Drop(i) else TryCreate(i, 0)], i, answer)
  {
  }

  lemma LoopGoesOn(steps: seq<Step>, i: nat, answer: Answer)
    requires LoopSteps(steps, i, answer)
    ensures LoopSteps([TryCreate(i, 0)] + steps, i, answer)
  {
  }

  lemma {:induction false} AdmissionMovesOn(p: Params, s: State, i: nat, order: seq<ENIReference>, k: nat, a: Attempt)
    returns (steps: seq<Step>, end: State)
    requires i < |s.admissions| && k < |order| && a.now == s.now && Passed(s.claims, a.failing, order[k])
    requires s.admissions[i] == Admission(a.machineRef, a.pool.name, Ids(order), Trying(k))
    ensures Run(p, s, steps) == Some(end)
    ensures var r := TryFrom(order[k + 1..], s.claims, a);
            && LoopSteps(steps, i, r.answer)
            && end.claims == r.claims
            && end == s.(claims := end.claims, born := end.born,
                         admissions := s.admissions[i := s.admissions[i].(phase := PhaseOf(r.answer, |order|))])
    decreases |order| - k, 0
  {
    hide LoopSteps;
    var step := TryCreate(i, 0);
    var next := Next(p, s, step);
    var rest;
    rest, end := AdmissionIsRun(p, next, i, order, k + 1, a);
    steps := [step] + rest;
    RunOne(p, s, step);
    RunConcat(p, s, [step], rest);
    LoopGoesOn(rest, i, TryFrom(order[k + 1..], s.claims, a).answer);
    assert end.admissions == s.admissions[i := end.admissions[i]];
  }

  // ----- The allocator of the controller -----

  /** Where an allocation leaves the allocator of the machine. */
  function AllocatorsAfter(allocators: map<ObjectRef, Allocator>, ref: ObjectRef, answer: Answer)
    : map<ObjectRef, Allocator>
  {
    if answer.Ok? && answer.value.Some? then allocators[ref := Patching(answer.value.value.name)]
    else allocators - {ref}
  }

  lemma AllocatorsOnce(allocators: map<ObjectRef, Allocator>, ref: ObjectRef, at: Allocator, answer: Answer)
    ensures AllocatorsAfter(allocators[ref := at], ref, answer) == AllocatorsAfter(allocators, ref, answer)
  {
  }

  /** Creates for one machine; when one is rejected, an abort comes last. */
  ghost predicate CreatesOf(steps: seq<Step>, ref: ObjectRef, rejected: bool) {
    forall j :: 0 <= j < |steps| ==>
      steps[j] == if rejected && j == |steps| - 1 then AbortAllocator(ref) else CreateNext(ref, 0)
  }

  lemma CreatesGoOn(steps: seq<Step>, ref: ObjectRef, rejected: bool)
    requires steps != [] && CreatesOf(steps, ref, rejected)
    ensures CreatesOf([CreateNext(ref, 0)] + steps, ref, rejected)
  {
  }

  /** So is the controller's loop; a rejected create ends it, and the reconcile. */
  lemma {:induction false} AllocatorIsRun(p: Params, s: State, order: seq<ENIReference>, k: nat, a: Attempt)
    returns (steps: seq<Step>, end: State)
    requires k <= |order| && a.machineRef in s.allocators && a.now == s.now
    requires s.allocators[a.machineRef] == Creating(a.pool.name, Ids(order), k)
    ensures Run(p, s, steps) == Some(end)
    ensures var r := TryFrom(order[k..], s.claims, a);
            && steps != [] && CreatesOf(steps, a.machineRef, r.answer.Err?)
            && end.claims == r.claims
            && end == s.(claims := end.claims, born := end.born,
                         allocators := AllocatorsAfter(s.allocators, a.machineRef, r.answer))
    decreases |order| - k
  {
    var ref := a.machineRef;
    if k < |order| && order[k].id in a.failing {
      assert order[k..][0] == order[k];
      steps, end := [AbortAllocator(ref)], Next(p, s, AbortAllocator(ref));
      RunOne(p, s, AbortAllocator(ref));
    } else {
      var step := CreateNext(ref, 0);
      var next := Next(p, s, step);
      RunOne(p, s, step);
      if k == |order| {
        steps, end := [step], next;
        assert order[k..] == [];
      } else {
        assert order[k..][0] == order[k] && order[k..][1..] == order[k + 1..];
        if order[k].id in s.claims {
          var rest;
          rest, end := AllocatorIsRun(p, next, order, k + 1, a);
          steps := [step] + rest;
          var answer := TryFrom(order[k..], s.claims, a).answer;
          CreatesGoOn(rest, ref, answer.Err?);
          hide CreatesOf;
          hide TryFrom;
          RunConcat(p, s, [step], rest);
          AllocatorsOnce(s.allocators, ref, next.allocators[ref], answer);
        } else {
          steps, end := [step], next;
        }
      }
    }
  }

  // ----- A reconcile of a claim -----

  /** The collector has looked the claim up and is about to look for its machine. */
  lemma LookingIsRun(p: Params, s: State, pool: Pool, name: string, faults: set<ClaimCollector.Request>)
    returns (steps: seq<Step>, end: State)
    requires name in s.claims && name in s.collectors && s.collectors[name] == Looking(s.claims[name])
    ensures Run(p, s, steps) == Some(end)
    ensures end == Idle(s, name).(claims := end.claims, absences := end.absences)
    ensures end.claims == ClaimCollector.Collected(s.claims, pool, s.machines.Keys, name, s.claims[name], s.now,
                                                   faults).claims
  {
    var c := s.claims[name];
    steps := [];
    var t := s;
    assert Run(p, s, []) == Some(s);
    hide Run;
    if ClaimCollector.GetMachine in faults {
      IdleAgain(s.collectors, name, Looking(c));
      steps, end := Take(p, s, steps, t, AbortCollector(name));
    } else if c.machineRef !in s.machines {
      steps, end := AbsentIsRun(p, s, pool, name, faults);
    } else {
      steps, t := Take(p, s, steps, t, SeePresent(name));
      var status := ClaimCollector.StatusFor(pool, c);
      if (c.status.phase == status.phase && c.status.privateIP == status.privateIP) ||
         ClaimCollector.UpdateClaimStatus in faults {
        steps, t := Take(p, s, steps, t, AbortCollector(name));
      } else {
        steps, t := Take(p, s, steps, t, Report(name, status));
      }
      IdleAgain(s.collectors, name, Reporting(c));
      end := t;
    }
  }

  lemma IdleAgain(collectors: map<string, Collector>, name: string, at: Collector)
    ensures collectors[name := at] - {name} == collectors - {name}
  {
  }

  /** The state in which the collector has just seen no machine. */
  function Unseen(s: State, name: string, c: Claim, at: Collector): State {
    s.(absences := s.absences + {(c.machineRef, s.now)}, collectors := s.collectors[name := at])
  }

  lemma MissingIsRun(p: Params, s: State, name: string) returns (steps: seq<Step>)
    requires name in s.claims && name in s.collectors && s.collectors[name] == Looking(s.claims[name])
    requires s.claims[name].machineRef !in s.machines
    ensures Run(p, s, steps) == Some(Unseen(s, name, s.claims[name], Missing(s.claims[name], s.now)))
  {
    var c, t := s.claims[name], s;
    steps := [];
    assert Run(p, s, []) == Some(s);
    hide Run;
    steps, t := Take(p, s, steps, t, RecordAbsence(c.machineRef));
    steps, t := Take(p, s, steps, t, SeeAbsent(name, s.now));
  }

  lemma AbsentIsRun(p: Params, s: State, pool: Pool, name: string, faults: set<ClaimCollector.Request>)
    returns (steps: seq<Step>, end: State)
    requires name in s.claims && name in s.collectors && s.collectors[name] == Looking(s.claims[name])
    requires s.claims[name].machineRef !in s.machines && ClaimCollector.GetMachine !in faults
    ensures Run(p, s, steps) == Some(end)
    ensures end == Idle(s, name).(claims := end.claims, absences := end.absences)
    ensures end.claims == ClaimCollector.Collected(s.claims, pool, s.machines.Keys, name, s.claims[name], s.now,
                                                   faults).claims
  {
    hide Run;
    var c := s.claims[name];
    steps := MissingIsRun(p, s, name);
    var t := Unseen(s, name, c, Missing(c, s.now));
    IdleAgain(s.collectors, name, Missing(c, s.now));
    steps, t := Take(p, s, steps, t, CheckAge(name));
    if s.now - c.stamp >= GRACE {
      assert t == Unseen(s, name, c, Condemned(c)) by { Regoto(s, name, Missing(c, s.now), Condemned(c)); }
      IdleAgain(s.collectors, name, Condemned(c));
      if ClaimCollector.DeleteClaim in faults {
        steps, t := Take(p, s, steps, t, AbortCollector(name));
      } else {
        steps, t := Take(p, s, steps, t, DeleteClaim(name));
      }
    }
    end := t;
  }

  lemma FetchIsRun(p: Params, s: State, name: string) returns (steps: seq<Step>, t: State)
    requires name in s.claims && name !in s.collectors
    ensures Run(p, s, steps) == Some(t) && t == Goto(s, name, Fetched(s.claims[name]))
  {
    steps := [];
    t := s;
    assert Run(p, s, []) == Some(s);
    hide Run;
    steps, t := Take(p, s, steps, t, Fetch(name));
  }

  /** A claim that is being deleted: its finalizer is removed, whether its pool is there or not. */
  lemma DeletingIsRun(p: Params, s: State, name: string, read: PoolRead, faults: set<ClaimCollector.Request>)
    returns (steps: seq<Step>, end: State)
    requires name !in s.collectors && name in s.claims && s.claims[name].deleting && !read.PoolReadFailed?
    ensures Run(p, s, steps) == Some(end) && end == s.(claims := end.claims)
    ensures end.claims == ClaimCollector.Released(s.claims, name, s.claims[name], faults).claims
  {
    hide Run;
    var c, t := s.claims[name], s;
    NeverBusy(s.collectors, name);
    steps, t := FetchIsRun(p, s, name);
    IdleAgain(s.collectors, name, Fetched(c));
    steps, t := Take(p, s, steps, t, ReadPool(name, read));
    if ClaimFinalizer in c.finalizers {
      assert t == Goto(s, name, Untagging(c)) by { Regoto(s, name, Fetched(c), Untagging(c)); }
      IdleAgain(s.collectors, name, Untagging(c));
      if ClaimCollector.PatchClaim in faults {
        steps, t := Take(p, s, steps, t, AbortCollector(name));
      } else {
        steps, t := Take(p, s, steps, t, Untag(name));
      }
    }
    end := t;
  }

  lemma Regoto(s: State, name: string, at: Collector, at': Collector)
    ensures Goto(Goto(s, name, at), name, at') == Goto(s, name, at')
  {
  }

  /** Without its pool, a reconcile of a claim that is not being deleted ends there. */
  lemma UnreadIsRun(p: Params, s: State, name: string, read: PoolRead) returns (steps: seq<Step>, end: State)
    requires name !in s.collectors && name in s.claims
    requires read.PoolReadFailed? || (read.PoolNotFound? && !s.claims[name].deleting)
    ensures Run(p, s, steps) == Some(end) && end == s
  {
    hide Run;
    var t;
    steps, t := FetchIsRun(p, s, name);
    IdleAgain(s.collectors, name, Fetched(s.claims[name]));
    NeverBusy(s.collectors, name);
    steps, end := Take(p, s, steps, t, ReadPool(name, read));
  }

  /** One reconcile of a claim, whichever of its requests fail, from the fetch to its last request. */
  lemma ReconcileIsRun(p: Params, s: State, pools: map<string, Pool>, name: string, faults: set<ClaimCollector.Request>)
    returns (steps: seq<Step>, end: State)
    requires name !in s.collectors
    ensures Run(p, s, steps) == Some(end)
    ensures end == s.(claims := end.claims, absences := end.absences)
    ensures end.claims == ClaimCollector.ReconcileClaim(s.claims, pools, s.machines.Keys, name, s.now, faults).claims
  {
    assert Run(p, s, []) == Some(s);
    hide Run;
    hide ClaimCollector.Collected;
    hide ClaimCollector.Released;
    steps, end := [], s;
    if name in s.claims {
      var c, t := s.claims[name], s;
      if ClaimCollector.GetPool in faults {
        steps, end := UnreadIsRun(p, s, name, PoolReadFailed);
      } else if c.deleting {
        steps, end := DeletingIsRun(p, s, name, if c.poolName in pools then PoolFound else PoolNotFound, faults);
      } else if c.poolName !in pools {
        steps, end := UnreadIsRun(p, s, name, PoolNotFound);
      } else {
        steps, t := FetchIsRun(p, s, name);
        var next := if ClaimFinalizer in c.finalizers then Looking(c) else Tagging(c);
        Regoto(s, name, Fetched(c), next);
        steps, t := Take(p, s, steps, t, ReadPool(name, PoolFound));
        steps, end := LiveIsRun(p, s, pools[c.poolName], name, faults, steps, t);
      }
    }
  }

  lemma NeverBusy(collectors: map<string, Collector>, name: string)
    requires name !in collectors
    ensures collectors - {name} == collectors
  {
  }

  /** The rest of the reconcile of a claim that is not being deleted and whose pool was read. */
  lemma LiveIsRun(p: Params, s: State, pool: Pool, name: string, faults: set<ClaimCollector.Request>,
                  before: seq<Step>, t: State)
    returns (steps: seq<Step>, end: State)
    requires name !in s.collectors && name in s.claims && Run(p, s, before) == Some(t)
    requires var c := s.claims[name];
             t == Goto(s, name, if ClaimFinalizer in c.finalizers then Looking(c) else Tagging(c))
    requires !s.claims[name].deleting
    ensures Run(p, s, steps) == Some(end)
    ensures end == s.(claims := end.claims, absences := end.absences)
    ensures var c := s.claims[name];
            var tagged := c.(finalizers := c.finalizers + [ClaimFinalizer]);
            end.claims == if ClaimFinalizer in c.finalizers then
                            ClaimCollector.Collected(s.claims, pool, s.machines.Keys, name, c, s.now, faults).claims
                          else if ClaimCollector.PatchClaim in faults then s.claims
                          else
                            ClaimCollector.Collected(s.claims[name := tagged], pool, s.machines.Keys, name, tagged,
                                                     s.now, faults).claims
  {
    hide Run;
    hide ClaimCollector.Collected;
    var c := s.claims[name];
    var u := t;
    steps := before;
    NeverBusy(s.collectors, name);
    if ClaimFinalizer !in c.finalizers && ClaimCollector.PatchClaim in faults {
      IdleAgain(s.collectors, name, Tagging(c));
      steps, end := Take(p, s, steps, u, AbortCollector(name));
    } else {
      if ClaimFinalizer !in c.finalizers {
        var tagged := c.(finalizers := c.finalizers + [ClaimFinalizer]);
        steps, u := Take(p, s, steps, u, Tag(name));
        assert u.claims == s.claims[name := tagged];
      }
      var more;
      more, end := LookingIsRun(p, u, pool, name, faults);
      RunConcat(p, s, steps, more);
      steps := steps + more;
      IdleAgain(s.collectors, name, Looking(u.claims[name]));
    }
  }
}

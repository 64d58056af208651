/** An admission and a reconcile of a machine, from beginning to end, as runs of the protocol. */
module AllocatorRuns {
  import opened Api
  import opened Candidates
  import opened PoolRegistry
  import opened Allocation
  import opened ClusterStore
  import opened AdmissionWebhook
  import opened MachineController
  import opened MachineStates
  import opened Protocol
  import opened ProtocolRace
  import opened ProtocolRefinement

  /** For a given order of trial there is one outcome, the one `TryFrom` computes. */
  lemma {:induction false} AttemptedIsTryFrom(order: seq<ENIReference>, claims: Claims, a: Attempt, answer: Answer,
                                              claims': Claims)
    requires Attempted(order, claims, a, answer, claims')
    ensures TryFrom(order, claims, a) == Allocated(answer, claims')
  {
    if order != [] && Passed(claims, a.failing, order[0]) {
      var rest := order[1..];
      assert forall j :: 0 < j < |order| ==> order[j] == rest[j - 1];
      assert forall j :: 0 <= j < |rest| ==> rest[j] == order[j + 1];
      assert Attempted(rest, claims, a, answer, claims') by {
        match answer
        case Ok(None) =>
        case Ok(Some(c)) =>
          var i :| 0 <= i < |order| && order[i].id !in claims && order[i].id !in a.failing &&
            c == a.ClaimFor(order[i]) &&
                   claims' == claims[c.name := c] && forall j :: 0 <= j < i ==> Passed(claims, a.failing, order[j]);
          assert rest[i - 1] == order[i];
        case Err(CreateRejected(id)) =>
          var i :| 0 <= i < |order| && order[i].id == id && id in a.failing &&
                   forall j :: 0 <= j < i ==> Passed(claims, a.failing, order[j]);
          assert rest[i - 1] == order[i];
      }
      AttemptedIsTryFrom(rest, claims, a, answer, claims');
    }
  }

  // ----- An admission -----

  /** A request arrives, tries some creates, and is persisted or dropped. */
  ghost predicate AdmissionSteps(steps: seq<Step>, ref: ObjectRef, i: nat, persisted: bool) {
    && |steps| >= 2 && steps[0].Receive? && steps[0].ref == ref
    && steps[|steps| - 1] == (if persisted then Persist(i) else Step.Drop(i))
    && forall j :: 0 < j < |steps| - 1 ==> steps[j] == TryCreate(i, 0)
  }

  /** The claims and machines after an admission; admissions and birth dates are the protocol's own business. */
  ghost predicate AdmissionEnds(s: State, end: State, ref: ObjectRef, claims: Claims, interfaces: seq<string>,
                                persisted: bool) {
    && end == s.(claims := claims, born := end.born, admissions := end.admissions, machines := end.machines)
    && end.machines == if persisted then s.machines[ref := MachineView(interfaces, interfaces != [], false)]
                       else s.machines
  }

  lemma EndAdmission(p: Params, s: State, ref: ObjectRef, i: nat, middle: seq<Step>, t: State, persisted: bool)
    returns (steps: seq<Step>, end: State)
    requires ref !in p.managed && i == |s.admissions|
    requires forall j :: 0 <= j < |middle| ==> middle[j] == TryCreate(i, 0)
    requires i < |t.admissions| && t.admissions[i].ref == ref && (persisted ==> ref !in s.machines)
    requires t == s.(claims := t.claims, born := t.born, admissions := t.admissions)
    requires t.admissions[i].phase.Holding? || t.admissions[i].phase == Trying(|t.admissions[i].candidates|)
    requires Run(p, Next(p, s, Receive(ref, t.admissions[i].poolName, t.admissions[i].candidates)), middle) == Some(t)
    ensures Run(p, s, steps) == Some(end) && AdmissionSteps(steps, ref, i, persisted)
    ensures var phase := t.admissions[i].phase;
            AdmissionEnds(s, end, ref, t.claims, if phase.Holding? then [phase.eni] else [], persisted)
  {
    var first := Receive(ref, t.admissions[i].poolName, t.admissions[i].candidates);
    var last := if persisted then Persist(i) else Step.Drop(i);
    RunOne(p, s, first);
    RunConcat(p, s, [first], middle);
    RunSnoc(p, s, [first] + middle, last);
    steps, end := [first] + middle + [last], Next(p, t, last);
  }

  /** An admission that never gets to trying candidates. */
  lemma IdleAdmission(p: Params, s: State, ref: ObjectRef, persisted: bool) returns (steps: seq<Step>, end: State)
    requires ref !in p.managed && (persisted ==> ref !in s.machines)
    ensures Run(p, s, steps) == Some(end) && AdmissionSteps(steps, ref, |s.admissions|, persisted)
    ensures AdmissionEnds(s, end, ref, s.claims, [], persisted)
  {
    var t := Next(p, s, Receive(ref, "", []));
    assert Run(p, t, []) == Some(t);
    steps, end := EndAdmission(p, s, ref, |s.admissions|, [], t, persisted);
  }

  /** An admission that tries candidates in some order. */
  lemma TryingAdmission(p: Params, s: State, order: seq<ENIReference>, a: Attempt, answer: Answer, claims': Claims,
                        persisted: bool)
    returns (steps: seq<Step>, end: State)
    requires a.machineRef !in p.managed && a.now == s.now && Attempted(order, s.claims, a, answer, claims')
    requires persisted ==> a.machineRef !in s.machines && answer.Ok?
    ensures Run(p, s, steps) == Some(end) && AdmissionSteps(steps, a.machineRef, |s.admissions|, persisted)
    ensures AdmissionEnds(s, end, a.machineRef, claims',
                          if answer.Ok? && answer.value.Some? then [answer.value.value.name] else [], persisted)
  {
    AttemptedIsTryFrom(order, s.claims, a, answer, claims');
    var first := Receive(a.machineRef, a.pool.name, Ids(order));
    var i, t := |s.admissions|, Next(p, s, first);
    assert order[0..] == order;
    var middle, u := AdmissionIsRun(p, t, i, order, 0, a);
    assert u.admissions[i].candidates == Ids(order);
    if answer.Err? {
      RunOne(p, s, first);
      RunConcat(p, s, [first], middle);
      steps, end := [first] + middle, u;
    } else {
      steps, end := EndAdmission(p, s, a.machineRef, i, middle, u, persisted);
    }
  }

  /**
   The whole of an admission: whatever `Default` decides about an eligible request, and whether or not the object
   is stored afterwards (another webhook may refuse it, the name may be taken), the request is a run of the
   protocol with the same claims, and the stored machine has the interfaces `Default` gave the object.
   */
  lemma DefaultIsRun(p: Params, s: State, d: MachineDefaulter, obj: MachineObject, annotations: Annotations,
                     around: Surroundings, r: Result<(), AdmissionError>, persisted: bool)
    returns (steps: seq<Step>, end: State)
    requires d.Decided(s.claims, annotations, around, obj, r)
    requires obj.ref !in p.managed && d.store.now == s.now
    requires persisted ==> r.Ok? && obj.ref !in s.machines
    ensures Run(p, s, steps) == Some(end) && AdmissionSteps(steps, obj.ref, |s.admissions|, persisted)
    ensures AdmissionEnds(s, end, obj.ref, d.store.claims, obj.networkInterfaces, persisted)
  {
    hide FindOutcome;
    hide KeyOutcome;
    hide AdmissionSteps;
    hide AdmissionEnds;
    var pool, key, answer := DecidedHow(s.claims, d, obj, annotations, around, r);
    if pool.None? {
      steps, end := IdleAdmission(p, s, obj.ref, persisted);
    } else {
      var a := Attempt(pool.value, key, obj.ref, d.store.now, d.store.failing);
      if a.key != "" && a.Candidates() == [] {
        steps, end := IdleAdmission(p, s, obj.ref, persisted);
      } else {
        var order :| SortOutcome(a.Candidates(), order) && Attempted(order, s.claims, a, answer, d.store.claims);
        steps, end := TryingAdmission(p, s, order, a, answer, d.store.claims, persisted);
      }
    }
  }

  /** How an admission was decided: without looking at candidates, or by an answer of the allocation. */
  lemma DecidedHow(claims: Claims, d: MachineDefaulter, obj: MachineObject, annotations: Annotations,
                   around: Surroundings, r: Result<(), AdmissionError>)
    returns (pool: Option<Pool>, key: string, answer: Answer)
    requires d.Decided(claims, annotations, around, obj, r)
    ensures pool.None? ==> d.store.claims == claims && obj.networkInterfaces == []
    ensures pool.Some? ==>
      && ClaimOutcome(claims, Attempt(pool.value, key, obj.ref, d.store.now, d.store.failing), answer, d.store.claims)
      && (answer.Ok? <==> r.Ok?)
      && obj.networkInterfaces == (if answer.Ok? && answer.value.Some? then [answer.value.value.name] else [])
  {
    hide FindOutcome;
    hide KeyOutcome;
    hide ClaimOutcome;
    pool, key, answer := None, "", Ok(None);
    if around.network.Some? && around.listed.Some? {
      var found :| FindOutcome(around.listed.value, around.network.value.0, around.network.value.1, found) &&
        var untouched := d.Untouched(claims, annotations, obj) && obj.networkInterfaces == [];
        if found.Err? then r == Err(AmbiguousPool) && untouched
        else if found.value.None? then r == Ok(()) && untouched
        else d.DecidedOn(found.value.value, claims, annotations, around.ownerKeys, obj, r);
      if found.Ok? && found.value.Some? {
        pool, key, answer := DecidedOnHow(claims, d, obj, annotations, found.value.value, around.ownerKeys, r);
      }
    }
  }

  lemma DecidedOnHow(claims: Claims, d: MachineDefaulter, obj: MachineObject, annotations: Annotations, p: Pool,
                     ownerKeys: map<string, string>, r: Result<(), AdmissionError>)
    returns (pool: Option<Pool>, key: string, answer: Answer)
    requires d.DecidedOn(p, claims, annotations, ownerKeys, obj, r)
    ensures pool.None? ==> d.store.claims == claims && obj.networkInterfaces == []
    ensures pool.Some? ==>
      && ClaimOutcome(claims, Attempt(pool.value, key, obj.ref, d.store.now, d.store.failing), answer, d.store.claims)
      && (answer.Ok? <==> r.Ok?)
      && obj.networkInterfaces == (if answer.Ok? && answer.value.Some? then [answer.value.value.name] else [])
  {
    hide KeyOutcome;
    hide ClaimOutcome;
    pool, key, answer := None, "", Ok(None);
    var untouched := d.Untouched(claims, annotations, obj) && obj.networkInterfaces == [];
    var k :|
      KeyOutcome(Lookup(annotations, InterfaceKey), obj.owners, ownerKeys, k) &&
      if k.Err? then r == Err(k.error) && untouched
      else exists answer ::
        ClaimOutcome(claims, Attempt(p, k.value, obj.ref, d.store.now, d.store.failing), answer, d.store.claims) &&
        match answer {
          case Err(cause) => r == Err(AllocationFailed(cause)) && untouched
          case Ok(None) => r == Ok(()) && untouched
          case Ok(Some(c)) => r == Ok(()) && c.poolName == p.name && d.Injected(claims, annotations, c, obj)
        };
    if k.Ok? {
      pool, key := Some(p), k.value;
      answer :|
        ClaimOutcome(claims, Attempt(p, k.value, obj.ref, d.store.now, d.store.failing), answer, d.store.claims) &&
        match answer {
          case Err(cause) => r == Err(AllocationFailed(cause)) && untouched
          case Ok(None) => r == Ok(()) && untouched
          case Ok(Some(c)) => r == Ok(()) && c.poolName == p.name && d.Injected(claims, annotations, c, obj)
        };
    }
  }

  // ----- A reconcile of a machine -----

  /** The reconcile begins, and then stops, patches an interface it found, or scans, creates and patches. */
  ghost predicate ReconcileSteps(steps: seq<Step>, ref: ObjectRef) {
    && |steps| >= 2 && steps[0] == Begin(ref)
    && (steps == [Begin(ref), AbortAllocator(ref)] ||
        (steps[1].Scan? && steps[1].ref == ref &&
         (forall j :: 1 < j < |steps| - 1 ==> steps[j] == CreateNext(ref, 0)) &&
         steps[|steps| - 1] in {PatchMachine(ref), AbortAllocator(ref), CreateNext(ref, 0)}))
  }

  /** The machine as the protocol sees it before and after. */
  ghost predicate ReconcileEnds(s: State, end: State, ref: ObjectRef, claims: Claims, interfaces: seq<string>) {
    && end == s.(claims := claims, born := end.born, machines := end.machines)
    && end.machines == if interfaces == [] then s.machines else s.machines[ref := MachineView(interfaces, true, false)]
  }

  ghost predicate CanBegin(p: Params, s: State, ref: ObjectRef) {
    && ref in p.managed && ref !in s.allocators
    && ref in s.machines && s.machines[ref] == MachineView([], false, false)
  }

  lemma ScanThenCreates(first: seq<Step>, middle: seq<Step>, ref: ObjectRef, rejected: bool)
    requires |first| == 2 && first[0] == Begin(ref) && first[1].Scan? && first[1].ref == ref
    requires middle != [] && CreatesOf(middle, ref, rejected)
    ensures ReconcileSteps(first + middle, ref)
    ensures !rejected ==> forall j :: 1 < j < |first + middle| ==> (first + middle)[j] == CreateNext(ref, 0)
  {
    var steps := first + middle;
    assert forall j :: 1 < j < |steps| ==> steps[j] == middle[j - 2];
  }

  lemma CreatesThenLast(before: seq<Step>, last: Step, ref: ObjectRef)
    requires |before| >= 2 && before[0] == Begin(ref) && before[1].Scan? && before[1].ref == ref
    requires forall j :: 1 < j < |before| ==> before[j] == CreateNext(ref, 0)
    requires last == PatchMachine(ref) || last == AbortAllocator(ref)
    ensures ReconcileSteps(before + [last], ref)
  {
  }

  /** The reconcile stops before it changes anything. */
  lemma IdleReconcile(p: Params, s: State, ref: ObjectRef) returns (steps: seq<Step>, end: State)
    requires CanBegin(p, s, ref)
    ensures Run(p, s, steps) == Some(end) && ReconcileSteps(steps, ref) && ReconcileEnds(s, end, ref, s.claims, [])
  {
    var t := Next(p, s, Begin(ref));
    RunOne(p, s, Begin(ref));
    RunSnoc(p, s, [Begin(ref)], AbortAllocator(ref));
    steps, end := [Begin(ref)] + [AbortAllocator(ref)], Next(p, t, AbortAllocator(ref));
    assert end.allocators == s.allocators;
  }

  lemma Scans(p: Params, s: State, ref: ObjectRef, found: Option<string>, poolName: string, candidates: seq<string>)
    returns (steps: seq<Step>, t: State)
    requires CanBegin(p, s, ref)
    requires match found
             case Some(n) => n in s.claims && s.claims[n].machineRef == ref
             case None => Unclaimed(s.claims, ref)
    ensures Run(p, s, steps) == Some(t) && steps == [Begin(ref), Scan(ref, found, poolName, candidates)]
    ensures t == s.(allocators := s.allocators[ref := if found.Some? then Patching(s.claims[found.value].eniID)
                                                      else Creating(poolName, candidates, 0)])
  {
    var scan := Scan(ref, found, poolName, candidates);
    RunOne(p, s, Begin(ref));
    var u := Next(p, s, Begin(ref));
    RunSnoc(p, s, [Begin(ref)], scan);
    steps, t := [Begin(ref)] + [scan], Next(p, u, scan);
  }

  /** The claim is in hand: the patch goes through or not. */
  lemma EndReconcile(p: Params, s: State, before: seq<Step>, t: State, ref: ObjectRef, e: string, fails: bool)
    returns (steps: seq<Step>, end: State)
    requires CanBegin(p, s, ref) && Run(p, s, before) == Some(t)
    requires |before| >= 2 && before[0] == Begin(ref) && before[1].Scan? && before[1].ref == ref
    requires forall j :: 1 < j < |before| ==> before[j] == CreateNext(ref, 0)
    requires t == s.(claims := t.claims, born := t.born, allocators := s.allocators[ref := Patching(e)])
    ensures Run(p, s, steps) == Some(end) && ReconcileSteps(steps, ref)
    ensures ReconcileEnds(s, end, ref, t.claims, if fails then [] else [e])
  {
    var last := if fails then AbortAllocator(ref) else PatchMachine(ref);
    hide ReconcileSteps;
    hide Run;
    CreatesThenLast(before, last, ref);
    RunSnoc(p, s, before, last);
    steps, end := before + [last], Next(p, t, last);
    assert s.allocators[ref := Patching(e)] - {ref} == s.allocators;
  }

  /** The scan finds nothing, and the loop of creates follows. */
  lemma ScanAndCreate(p: Params, s: State, order: seq<ENIReference>, a: Attempt)
    returns (steps: seq<Step>, end: State)
    requires CanBegin(p, s, a.machineRef) && Unclaimed(s.claims, a.machineRef) && a.now == s.now
    ensures var ref, r := a.machineRef, TryFrom(order, s.claims, a);
            && Run(p, s, steps) == Some(end) && ReconcileSteps(steps, ref)
            && |steps| >= 2 && steps[0] == Begin(ref) && steps[1].Scan? && steps[1].ref == ref
            && (r.answer.Ok? ==> forall j :: 1 < j < |steps| ==> steps[j] == CreateNext(ref, 0))
            && end == s.(claims := r.claims, born := end.born,
                         allocators := AllocatorsAfter(s.allocators, ref, r.answer))
  {
    hide TryFrom;
    hide AllocatorsAfter;
    hide Run;
    hide Unclaimed;
    var ref, answer := a.machineRef, TryFrom(order, s.claims, a).answer;
    var first, t := Scans(p, s, ref, None, a.pool.name, Ids(order));
    assert order[0..] == order;
    var middle, u := AllocatorIsRun(p, t, order, 0, a);
    ScanThenCreates(first, middle, ref, answer.Err?);
    hide ReconcileSteps;
    hide CreatesOf;
    RunConcat(p, s, first, middle);
    AllocatorsOnce(s.allocators, ref, t.allocators[ref], answer);
    steps, end := first + middle, u;
  }

  /** No claim is listed: whatever the attempt comes to, the reconcile is a run. */
  lemma TryingReconcile(p: Params, s: State, order: seq<ENIReference>, a: Attempt, answer: Answer, claims': Claims,
                        fails: bool)
    returns (steps: seq<Step>, end: State)
    requires CanBegin(p, s, a.machineRef) && Unclaimed(s.claims, a.machineRef)
    requires a.now == s.now && Attempted(order, s.claims, a, answer, claims')
    ensures Run(p, s, steps) == Some(end) && ReconcileSteps(steps, a.machineRef)
    ensures ReconcileEnds(s, end, a.machineRef, claims',
                          if answer.Ok? && answer.value.Some? && !fails then [answer.value.value.name] else [])
  {
    AttemptedIsTryFrom(order, s.claims, a, answer, claims');
    hide TryFrom;
    hide ReconcileSteps;
    hide Run;
    hide Attempted;
    steps, end := ScanAndCreate(p, s, order, a);
    if answer.Ok? && answer.value.Some? {
      steps, end := EndReconcile(p, s, steps, end, a.machineRef, answer.value.value.name, fails);
    } else {
      assert s.allocators - {a.machineRef} == s.allocators;
    }
  }

  /** A listed claim of the machine: the scan finds it. */
  lemma FoundReconcile(p: Params, s: State, listed: seq<Claim>, ref: ObjectRef, c: Claim, fails: bool)
    returns (steps: seq<Step>, end: State)
    requires CanBegin(p, s, ref) && NamedByENI(s.claims) && ListsClaims(listed, s.claims)
    requires c in listed && c.machineRef == ref
    ensures Run(p, s, steps) == Some(end) && ReconcileSteps(steps, ref)
    ensures ReconcileEnds(s, end, ref, s.claims, if fails then [] else [c.eniID])
  {
    var first, t := Scans(p, s, ref, Some(c.name), "", []);
    steps, end := EndReconcile(p, s, first, t, ref, c.eniID, fails);
  }

  /** Whatever the controller's allocator replies, it got there by a run. */
  lemma ReplyIsRun(p: Params, s: State, listed: Option<seq<Claim>>, a: Attempt, reply: Reply, claims': Claims,
                   fails: bool)
    returns (steps: seq<Step>, end: State)
    requires CanBegin(p, s, a.machineRef) && NamedByENI(s.claims) && FreshList(listed, s.claims) && a.now == s.now
    requires ControllerClaimOutcome(listed, s.claims, a, reply, claims')
    ensures Run(p, s, steps) == Some(end) && ReconcileSteps(steps, a.machineRef)
    ensures ReconcileEnds(s, end, a.machineRef, claims',
                          if reply.Ok? && reply.value.Some? && !fails then [reply.value.value.eniID] else [])
  {
    hide Contract;
    hide ReconcileSteps;
    hide ReconcileEnds;
    hide Run;
    if listed.None? {
      steps, end := IdleReconcile(p, s, a.machineRef);
    } else if Owned(listed.value, a.machineRef) {
      var i :| 0 <= i < |listed.value| && reply == Ok(Some(listed.value[i])) &&
        listed.value[i].machineRef == a.machineRef;
      steps, end := FoundReconcile(p, s, listed.value, a.machineRef, listed.value[i], fails);
    } else {
      var answer :| ClaimOutcome(s.claims, a, answer, claims') &&
                    reply == match answer { case Ok(c) => Ok(c) case Err(cause) => Err(NotClaimed(cause)) };
      if a.key != "" && a.Candidates() == [] {
        steps, end := IdleReconcile(p, s, a.machineRef);
      } else {
        NotListedUnclaimed(listed.value, s.claims, a.machineRef);
        var order :| SortOutcome(a.Candidates(), order) && Attempted(order, s.claims, a, answer, claims');
        steps, end := TryingReconcile(p, s, order, a, answer, claims', fails);
      }
    }
  }

  lemma NotListedUnclaimed(listed: seq<Claim>, claims: Claims, ref: ObjectRef)
    requires ListsClaims(listed, claims) && !Owned(listed, ref)
    ensures Unclaimed(claims, ref)
  {
    forall n | n in claims ensures claims[n].machineRef != ref {
      var i :| 0 <= i < |listed| && listed[i] == claims[n];
    }
  }

  lemma EndsInterfaces(m: Machine, r: Readings, pool: Pool, reply: Reply, m': Machine, outcome: Outcome)
    requires Concerned(m) && Ends(m, r, pool, reply, m', outcome)
    ensures m'.networkInterfaces ==
            if reply.Ok? && reply.value.Some? && !r.patchFails then [reply.value.value.eniID] else []
  {
  }

  /**
   The whole of a reconcile: whatever it reads and whichever of its requests fail, a reconcile of a machine it is
   concerned with is a run of the protocol with the same claims, and the machine ends with the interfaces the
   reconcile left it with.
   */
  lemma MachineReconcileIsRun(p: Params, s: State, ref: ObjectRef, m: Machine, r: Readings, m': Machine,
                              claims': Claims, outcome: Outcome)
    returns (steps: seq<Step>, end: State)
    requires CanBegin(p, s, ref) && Concerned(m) && NamedByENI(s.claims) && r.now == s.now
    requires FreshList(r.listed, s.claims) && MachineStep(ref, m, s.claims, r, m', claims', outcome)
    ensures Run(p, s, steps) == Some(end) && ReconcileSteps(steps, ref)
    ensures ReconcileEnds(s, end, ref, claims', m'.networkInterfaces)
  {
    hide ReconcileSteps;
    hide ReconcileEnds;
    hide Run;
    hide FindOutcome;
    hide OnPool;
    hide KeyOutcome;
    hide ControllerClaimOutcome;
    hide CanBegin;
    if r.network.Some? && r.network.value.0 != "" && r.network.value.1 != "" && r.pools.Some? {
      var found := StepFinds(ref, m, s.claims, r, m', claims', outcome);
      if found.Ok? && found.value.Some? {
        var key, reply := OnPoolReply(ref, m, s.claims, r, found.value.value, m', claims', outcome);
        if key.Ok? {
          EndsInterfaces(m, r, found.value.value, reply, m', outcome);
          var a := Attempt(found.value.value, key.value, ref, r.now, r.failing);
          steps, end := ReplyIsRun(p, s, r.listed, a, reply, claims', r.patchFails);
        } else {
          steps, end := IdleReconcile(p, s, ref);
        }
      } else {
        steps, end := IdleReconcile(p, s, ref);
      }
    } else {
      steps, end := IdleReconcile(p, s, ref);
    }
  }
}

/**
 The allocation protocol as a timed transition system. Every step is one operation on the API server (or
 one read of a cache) by one of the cooperating processes:

 - admissions, which claim interfaces before their machine is persisted
   (internal/webhook/v1beta2/awsmachine_webhook.go),
 - claim collectors, one per claim name, which release the claims of vanished machines
   (internal/controller/eniclaim_controller.go),
 - machine allocators, one per managed machine name, the resumable allocator of the controller
   (internal/controller/awsmachine_controller.go),
 - users and other controllers, who create and delete machines, write pools (candidates are arbitrary) and
   edit finalizers.

 Steps of different processes interleave freely; any process may be abandoned at any point.
 */
module Protocol {
  import opened Api

  /**
   d: bounds the time from the create of a claim to the outcome of its admission;
   s: bounds the age of the observation "no such machine" when the grace period is checked;
   g: bounds how far the creation timestamp may lag the create (rounding, clock skew);
   managed: the machine names served by the controller, whose machines arrive paused.
   */
  datatype Params = Params(d: nat, s: nat, g: nat, managed: set<ObjectRef>)

  datatype AdmissionPhase = Trying(cursor: nat) | Holding(eni: string) | Persisted | Dropped

  datatype Admission = Admission(ref: ObjectRef, poolName: string, candidates: seq<string>, phase: AdmissionPhase)

  /** `byAllocator` says that the interfaces were injected rather than preset by the user. */
  datatype MachineView = MachineView(interfaces: seq<string>, byAllocator: bool, terminating: bool)

  /** Where the reconcile of a claim stands; `claim` is the copy it works on. */
  datatype Collector =
    | Fetched(claim: Claim)
    | Untagging(claim: Claim)
    | Tagging(claim: Claim)
    | Looking(claim: Claim)
    | Missing(claim: Claim, at: int)
    | Condemned(claim: Claim)
    | Reporting(claim: Claim)

  /** Where the reconcile of a managed machine stands. */
  datatype Allocator =
    | Started
    | Creating(poolName: string, candidates: seq<string>, cursor: nat)
    | Patching(eni: string)

  /** `born` are the true creation times, `absences` the past instants at which a machine name was free. */
  datatype State = State(
    now: int,
    claims: map<string, Claim>,
    born: map<string, int>,
    machines: map<ObjectRef, MachineView>,
    admissions: seq<Admission>,
    collectors: map<string, Collector>,
    absences: set<(ObjectRef, int)>,
    allocators: map<ObjectRef, Allocator>)

  const INIT := State(0, map[], map[], map[], [], map[], {}, map[])

  datatype PoolRead = PoolFound | PoolNotFound | PoolReadFailed

  datatype Step =
    | Tick(ms: nat)
    // Admissions.
    | Receive(ref: ObjectRef, poolName: string, candidates: seq<string>)
    | TryCreate(i: nat, lag: nat)
    | Persist(i: nat)
    | Drop(i: nat)
    // Machines.
    | UserCreate(ref: ObjectRef, interfaces: seq<string>)
    | CreateManaged(ref: ObjectRef)
    | Terminate(ref: ObjectRef)
    | Vanish(ref: ObjectRef)
    // Claim collectors.
    | Fetch(eni: string)
    | ReadPool(eni: string, read: PoolRead)
    | Tag(eni: string)
    | RecordAbsence(ref: ObjectRef)
    | SeeAbsent(eni: string, at: int)
    | SeePresent(eni: string)
    | CheckAge(eni: string)
    | DeleteClaim(eni: string)
    | Untag(eni: string)
    | Report(eni: string, status: ClaimStatus)
    | AbortCollector(eni: string)
    // Machine allocators.
    | Begin(ref: ObjectRef)
    | Scan(ref: ObjectRef, found: Option<string>, poolName: string, candidates: seq<string>)
    | CreateNext(ref: ObjectRef, lag: nat)
    | PatchMachine(ref: ObjectRef)
    | AbortAllocator(ref: ObjectRef)
    // Everybody else.
    | ForeignClaim(claim: Claim, lag: nat)
    | ForeignFinalizers(eni: string, finalizers: seq<Finalizer>)

  // ----- Which steps are possible -----

  /** No claim names this machine. */
  predicate Unclaimed(claims: map<string, Claim>, ref: ObjectRef) {
    forall n :: n in claims ==> claims[n].machineRef != ref
  }

  predicate Enabled(p: Params, s: State, step: Step) {
    match step
    // Time does not pass an admission's deadline: it has to be decided first.
    case Tick(ms) =>
      forall i :: 0 <= i < |s.admissions| && s.admissions[i].phase.Holding? ==>
        var e := s.admissions[i].phase.eni; e in s.born && s.now + ms <= s.born[e] + p.d
    // A managed machine carries CAPI's pause annotation, which keeps the webhook out.
    case Receive(ref, _, _) => ref !in p.managed
    case TryCreate(i, lag) =>
      i < |s.admissions| && s.admissions[i].phase.Trying? &&
        s.admissions[i].phase.cursor < |s.admissions[i].candidates| && lag <= p.g
    case Persist(i) =>
      && i < |s.admissions| && s.admissions[i].ref !in s.machines
      && (s.admissions[i].phase.Holding? || s.admissions[i].phase == Trying(|s.admissions[i].candidates|))
    case Drop(i) => i < |s.admissions| && (s.admissions[i].phase.Holding? || s.admissions[i].phase.Trying?)
    case UserCreate(ref, _) => ref !in p.managed && ref !in s.machines
    // Names of managed machines are not reused while an old claim or reconcile is around.
    case CreateManaged(ref) =>
      ref in p.managed && ref !in s.machines && Unclaimed(s.claims, ref) && ref !in s.allocators
    case Terminate(ref) => ref in s.machines
    case Vanish(ref) => ref in s.machines
    // Reconciles of one claim name are serialised.
    case Fetch(eni) => eni in s.claims && eni !in s.collectors
    case ReadPool(eni, _) => eni in s.collectors && s.collectors[eni].Fetched?
    case Tag(eni) => eni in s.collectors && s.collectors[eni].Tagging?
    case RecordAbsence(ref) => ref !in s.machines
    case SeeAbsent(eni, at) =>
      eni in s.collectors && s.collectors[eni].Looking? && (s.collectors[eni].claim.machineRef, at) in s.absences
    case SeePresent(eni) => eni in s.collectors && s.collectors[eni].Looking?
    case CheckAge(eni) => eni in s.collectors && s.collectors[eni].Missing? && s.now - s.collectors[eni].at <= p.s
    case DeleteClaim(eni) => eni in s.collectors && s.collectors[eni].Condemned?
    case Untag(eni) => eni in s.collectors && s.collectors[eni].Untagging?
    case Report(eni, _) => eni in s.collectors && s.collectors[eni].Reporting?
    case AbortCollector(eni) => eni in s.collectors
    // Reconciles of one machine name are serialised.
    case Begin(ref) =>
      && ref in p.managed && ref in s.machines && ref !in s.allocators
      && !s.machines[ref].terminating && s.machines[ref].interfaces == []
    case Scan(ref, found, _, _) =>
      && ref in s.allocators && s.allocators[ref].Started?
      && (match found
          case Some(n) => n in s.claims && s.claims[n].machineRef == ref
          case None => Unclaimed(s.claims, ref))
    case CreateNext(ref, lag) => ref in s.allocators && s.allocators[ref].Creating? && lag <= p.g
    case PatchMachine(ref) => ref in s.allocators && s.allocators[ref].Patching?
    case AbortAllocator(ref) => ref in s.allocators
    case ForeignClaim(claim, lag) =>
      ClaimCreateAllowed(claim) && claim.name !in s.claims && claim.machineRef !in p.managed && lag <= p.g
    // Nobody but the collector takes the allocator's finalizer away.
    case ForeignFinalizers(eni, finalizers) =>
      eni in s.claims && (ClaimFinalizer in s.claims[eni].finalizers ==> ClaimFinalizer in finalizers)
  }

  // ----- What they do -----

  function Stored(s: State, c: Claim, lag: nat): State {
    s.(claims := s.claims[c.name := c.(stamp := s.now - lag, deleting := false)], born := s.born[c.name := s.now])
  }

  function Idle(s: State, eni: string): State {
    s.(collectors := s.collectors - {eni})
  }

  function Goto(s: State, eni: string, at: Collector): State {
    s.(collectors := s.collectors[eni := at])
  }

  function NextAdmission(p: Params, s: State, step: Step): State
    requires Enabled(p, s, step) && (step.Receive? || step.TryCreate? || step.Persist? || step.Drop?)
  {
    match step
    case Receive(ref, poolName, candidates) =>
      s.(admissions := s.admissions + [Admission(ref, poolName, candidates, Trying(0))])
    case TryCreate(i, lag) =>
      var a := s.admissions[i];
      var e := a.candidates[a.phase.cursor];
      if e in s.claims then
        s.(admissions := s.admissions[i := a.(phase := Trying(a.phase.cursor + 1))])
      else
        Stored(s, NewClaim(e, a.ref, a.poolName, s.now), lag).(admissions := s.admissions[i := a.(phase := Holding(e))])
    case Persist(i) =>
      var a := s.admissions[i];
      var m := if a.phase.Holding? then MachineView([a.phase.eni], true, false) else MachineView([], false, false);
      s.(machines := s.machines[a.ref := m], admissions := s.admissions[i := a.(phase := Persisted)])
    case Drop(i) => s.(admissions := s.admissions[i := s.admissions[i].(phase := Dropped)])
  }

  function NextMachine(p: Params, s: State, step: Step): State
    requires Enabled(p, s, step) && (step.UserCreate? || step.CreateManaged? || step.Terminate? || step.Vanish?)
  {
    match step
    case UserCreate(ref, interfaces) => s.(machines := s.machines[ref := MachineView(interfaces, false, false)])
    case CreateManaged(ref) => s.(machines := s.machines[ref := MachineView([], false, false)])
    case Terminate(ref) => s.(machines := s.machines[ref := s.machines[ref].(terminating := true)])
    case Vanish(ref) => s.(machines := s.machines - {ref})
  }

  predicate IsCollectorStep(step: Step) {
    || step.Fetch? || step.ReadPool? || step.Tag? || step.SeeAbsent? || step.SeePresent? || step.CheckAge?
    || step.DeleteClaim? || step.Untag? || step.Report? || step.AbortCollector?
  }

  function NextCollector(p: Params, s: State, step: Step): State
    requires Enabled(p, s, step) && IsCollectorStep(step)
  {
    match step
    case Fetch(eni) => Goto(s, eni, Fetched(s.claims[eni]))
    case ReadPool(eni, read) =>
      var c := s.collectors[eni].claim;
      if c.deleting then
        if !read.PoolReadFailed? && ClaimFinalizer in c.finalizers then Goto(s, eni, Untagging(c)) else Idle(s, eni)
      else if !read.PoolFound? then Idle(s, eni)
      else if ClaimFinalizer in c.finalizers then Goto(s, eni, Looking(c))
      else Goto(s, eni, Tagging(c))
    case Tag(eni) =>
      var tagged := s.collectors[eni].claim.finalizers + [ClaimFinalizer];
      if eni !in s.claims then Idle(s, eni)
      else
        var claims := WithFinalizers(s.claims, eni, tagged);
        Goto(s, eni, Looking(s.collectors[eni].claim.(finalizers := tagged))).(claims := claims)
    case SeeAbsent(eni, at) => Goto(s, eni, Missing(s.collectors[eni].claim, at))
    case SeePresent(eni) => Goto(s, eni, Reporting(s.collectors[eni].claim))
    case CheckAge(eni) =>
      var c := s.collectors[eni].claim;
      if s.now - c.stamp < GRACE then Idle(s, eni) else Goto(s, eni, Condemned(c))
    case DeleteClaim(eni) =>
      Idle(s, eni).(claims := AfterDelete(s.claims, eni))
    case Untag(eni) =>
      if eni !in s.claims then Idle(s, eni)
      else
        var untagged := Without(s.collectors[eni].claim.finalizers, ClaimFinalizer);
        Idle(s, eni).(claims := WithFinalizers(s.claims, eni, untagged))
    case Report(eni, status) =>
      if eni !in s.claims then Idle(s, eni)
      else Idle(s, eni).(claims := s.claims[eni := s.claims[eni].(status := status)])
    case AbortCollector(eni) => Idle(s, eni)
  }

  predicate IsAllocatorStep(step: Step) {
    step.Begin? || step.Scan? || step.CreateNext? || step.PatchMachine? || step.AbortAllocator?
  }

  function NextAllocator(p: Params, s: State, step: Step): State
    requires Enabled(p, s, step) && IsAllocatorStep(step)
  {
    match step
    case Begin(ref) => s.(allocators := s.allocators[ref := Started])
    case Scan(ref, found, poolName, candidates) =>
      var next := if found.Some? then Patching(s.claims[found.value].eniID) else Creating(poolName, candidates, 0);
      s.(allocators := s.allocators[ref := next])
    case CreateNext(ref, lag) =>
      var a := s.allocators[ref];
      if a.cursor >= |a.candidates| then s.(allocators := s.allocators - {ref})
      else
        var e := a.candidates[a.cursor];
        if e in s.claims then s.(allocators := s.allocators[ref := a.(cursor := a.cursor + 1)])
        else Stored(s, NewClaim(e, ref, a.poolName, s.now), lag).(allocators := s.allocators[ref := Patching(e)])
    case PatchMachine(ref) =>
      var e := s.allocators[ref].eni;
      var done := s.(allocators := s.allocators - {ref});
      if ref !in s.machines then done
      else done.(machines := s.machines[ref := MachineView([e], true, s.machines[ref].terminating)])
    case AbortAllocator(ref) => s.(allocators := s.allocators - {ref})
  }

  function Next(p: Params, s: State, step: Step): State
    requires Enabled(p, s, step)
  {
    if step.Receive? || step.TryCreate? || step.Persist? || step.Drop? then NextAdmission(p, s, step)
    else if step.UserCreate? || step.CreateManaged? || step.Terminate? || step.Vanish? then NextMachine(p, s, step)
    else if IsCollectorStep(step) then NextCollector(p, s, step)
    else if IsAllocatorStep(step) then NextAllocator(p, s, step)
    else match step
      case Tick(ms) => s.(now := s.now + ms)
      case RecordAbsence(ref) => s.(absences := s.absences + {(ref, s.now)})
      case ForeignClaim(claim, lag) => Stored(s, claim, lag)
      case ForeignFinalizers(eni, finalizers) => s.(claims := WithFinalizers(s.claims, eni, finalizers))
  }

  /** The state after a run, None when some step was not possible. */
  function Run(p: Params, s: State, steps: seq<Step>): Option<State>
    decreases |steps|
  {
    if steps == [] then Some(s)
    else if Enabled(p, s, steps[0]) then Run(p, Next(p, s, steps[0]), steps[1..])
    else None
  }

  lemma {:induction false} RunConcat(p: Params, s: State, first: seq<Step>, second: seq<Step>)
    requires Run(p, s, first).Some?
    ensures Run(p, s, first + second) == Run(p, Run(p, s, first).value, second)
    decreases |first|
  {
    if first == [] {
      assert first + second == second;
    } else {
      assert (first + second)[0] == first[0] && (first + second)[1..] == first[1..] + second;
      RunConcat(p, Next(p, s, first[0]), first[1..], second);
    }
  }

  /** One step is a run. */
  lemma RunOne(p: Params, s: State, step: Step)
    requires Enabled(p, s, step)
    ensures Run(p, s, [step]) == Some(Next(p, s, step))
  {
    assert [step][1..] == [];
    assert Run(p, Next(p, s, step), []) == Some(Next(p, s, step));
  }

  /** One more step at the end of a run. */
  lemma RunSnoc(p: Params, s: State, steps: seq<Step>, step: Step)
    requires Run(p, s, steps).Some? && Enabled(p, Run(p, s, steps).value, step)
    ensures Run(p, s, steps + [step]) == Some(Next(p, Run(p, s, steps).value, step))
  {
    var t := Run(p, s, steps).value;
    RunOne(p, t, step);
    RunConcat(p, s, steps, [step]);
  }

  /** Building a run step by step. */
  lemma Take(p: Params, start: State, steps: seq<Step>, s: State, step: Step) returns (steps': seq<Step>, s': State)
    requires Run(p, start, steps) == Some(s) && Enabled(p, s, step)
    ensures Run(p, start, steps') == Some(s') && s' == Next(p, s, step)
  {
    RunSnoc(p, start, steps, step);
    steps', s' := steps + [step], Next(p, s, step);
  }
}

/** The timing hypothesis is the exact one: without it there is a run that gives one interface to two machines. */
module ProtocolBounds {
  import opened Api
  import opened Protocol
  import opened ProtocolSafety

  const ENI := "eni-0"

  /** No name in the set is longer. */
  ghost function Longest(names: set<ObjectRef>): (n: nat)
    ensures forall r :: r in names ==> |r.name| <= n
  {
    if names == {} then 0 else
      var r :| r in names;
      var n := Longest(names - {r});
      assert forall q :: q in names ==> q == r || q in names - {r};
      if |r.name| > n then |r.name| else n
  }

  ghost function LongName(names: set<ObjectRef>): (r: ObjectRef)
    ensures r !in names
  {
    ObjectRef("ns", seq(Longest(names) + 1, _ => 'm'))
  }

  /** The first machine of the bad run, whose name is longer than those of all managed machines. */
  ghost function First(p: Params): ObjectRef {
    LongName(p.managed)
  }

  /** The second machine, which is given the same interface. */
  ghost function Second(p: Params): ObjectRef {
    LongName(p.managed + {First(p)})
  }

  lemma OutsideManaged(p: Params)
    ensures First(p) !in p.managed && Second(p) !in p.managed && First(p) != Second(p)
  {
  }

  ghost function Watched(p: Params): Claim {
    NewClaim(ENI, First(p), "pool", 0 - p.g)
  }

  /** An admission has claimed the interface and the collector has fetched the claim. */
  ghost function Claimed(p: Params): State {
    State(0, map[ENI := Watched(p)], map[ENI := 0], map[],
          [Admission(First(p), "pool", [ENI], Holding(ENI))], map[ENI := Looking(Watched(p))], {}, map[])
  }

  ghost function Received(p: Params): State {
    INIT.(admissions := [Admission(First(p), "pool", [ENI], Trying(0))])
  }

  lemma ReachReceived(p: Params) returns (steps: seq<Step>)
    ensures Run(p, INIT, steps) == Some(Received(p))
  {
    assert Run(p, INIT, []) == Some(INIT);
    hide Run;
    var s;
    steps, s := Take(p, INIT, [], INIT, Receive(First(p), "pool", [ENI]));
    assert s == Received(p);
  }

  lemma ReachHolding(p: Params) returns (steps: seq<Step>)
    ensures Run(p, INIT, steps) == Some(Claimed(p).(collectors := map[]))
  {
    hide Run;
    steps := ReachReceived(p);
    var s;
    steps, s := Take(p, INIT, steps, Received(p), TryCreate(0, p.g));
    assert s == Claimed(p).(collectors := map[]);
  }

  lemma ReachClaimed(p: Params) returns (steps: seq<Step>)
    ensures Run(p, INIT, steps) == Some(Claimed(p))
  {
    hide Run;
    steps := ReachHolding(p);
    var s := Claimed(p).(collectors := map[]);
    steps, s := Take(p, INIT, steps, s, Fetch(ENI));
    assert s == Claimed(p).(collectors := map[ENI := Fetched(Watched(p))]);
    steps, s := Take(p, INIT, steps, s, ReadPool(ENI, PoolFound));
    assert s == Claimed(p);
  }

  const INJECTED := MachineView([ENI], true, false)

  /** The machine arrived right after the collector looked for it, and the collector has condemned its claim. */
  ghost function Doomed(p: Params): State {
    State(p.d + p.s, map[ENI := Watched(p)], map[ENI := 0], map[First(p) := INJECTED],
          [Admission(First(p), "pool", [ENI], Persisted)], map[ENI := Condemned(Watched(p))], {(First(p), p.d)}, map[])
  }

  /** The collector has seen no machine, just before the admission's deadline. */
  ghost function Overlooked(p: Params): State {
    Claimed(p).(now := p.d, absences := {(First(p), p.d)}, collectors := map[ENI := Missing(Watched(p), p.d)])
  }

  lemma ReachDeadline(p: Params) returns (steps: seq<Step>)
    ensures Run(p, INIT, steps) == Some(Claimed(p).(now := p.d))
  {
    hide Run;
    steps := ReachClaimed(p);
    var s;
    steps, s := Take(p, INIT, steps, Claimed(p), Tick(p.d));
  }

  lemma ReachOverlooked(p: Params) returns (steps: seq<Step>)
    ensures Run(p, INIT, steps) == Some(Overlooked(p))
  {
    hide Run;
    steps := ReachDeadline(p);
    var s := Claimed(p).(now := p.d);
    steps, s := Take(p, INIT, steps, s, RecordAbsence(First(p)));
    var t := Claimed(p).(now := p.d, absences := {(First(p), p.d)});
    assert s == t;
    steps, s := Take(p, INIT, steps, s, SeeAbsent(ENI, p.d));
    assert s.collectors == Overlooked(p).collectors;
  }

  ghost function Arrived(p: Params): State {
    Overlooked(p).(machines := map[First(p) := INJECTED], admissions := [Admission(First(p), "pool", [ENI], Persisted)])
  }

  lemma ReachArrived(p: Params) returns (steps: seq<Step>)
    ensures Run(p, INIT, steps) == Some(Arrived(p))
  {
    hide Run;
    steps := ReachOverlooked(p);
    var s;
    steps, s := Take(p, INIT, steps, Overlooked(p), Persist(0));
    assert s == Arrived(p);
  }

  lemma ReachDoomed(p: Params) returns (steps: seq<Step>)
    requires !InTime(p)
    ensures Run(p, INIT, steps) == Some(Doomed(p))
  {
    hide Run;
    steps := ReachArrived(p);
    var s := Arrived(p);
    steps, s := Take(p, INIT, steps, s, Tick(p.s));
    assert s == Arrived(p).(now := p.d + p.s);
    steps, s := Take(p, INIT, steps, s, CheckAge(ENI));
    assert s == Doomed(p);
  }

  /** The claim of a live machine is gone. */
  ghost function Released(p: Params): State {
    Doomed(p).(claims := map[], collectors := map[])
  }

  lemma ReachReleased(p: Params) returns (steps: seq<Step>)
    requires !InTime(p)
    ensures Run(p, INIT, steps) == Some(Released(p))
  {
    hide Run;
    steps := ReachDoomed(p);
    var s := Doomed(p);
    var leaving := Watched(p).(deleting := true);
    steps, s := Take(p, INIT, steps, s, DeleteClaim(ENI));
    assert s == Doomed(p).(claims := map[ENI := leaving], collectors := map[]);
    steps, s := Take(p, INIT, steps, s, Fetch(ENI));
    assert s == Doomed(p).(claims := map[ENI := leaving], collectors := map[ENI := Fetched(leaving)]);
    steps, s := Take(p, INIT, steps, s, ReadPool(ENI, PoolNotFound));
    assert s == Doomed(p).(claims := map[ENI := leaving], collectors := map[ENI := Untagging(leaving)]);
    steps, s := Take(p, INIT, steps, s, Untag(ENI));
    assert Without([ClaimFinalizer], ClaimFinalizer) == [] by { assert [ClaimFinalizer][1..] == []; }
    assert s == Released(p);
  }

  /** As soon as the bounds add up to the grace period, two machines can be given the same interface. */
  lemma LateRunSharesENI(p: Params) returns (steps: seq<Step>)
    requires !InTime(p)
    ensures Run(p, INIT, steps).Some?
    ensures var s := Run(p, INIT, steps).value;
            First(p) in s.machines && Second(p) in s.machines && First(p) != Second(p) &&
            s.machines[First(p)] == INJECTED && s.machines[Second(p)] == INJECTED
  {
    steps := ReachReleased(p);
    var s := Released(p);
    steps, s := Take(p, INIT, steps, s, Receive(Second(p), "pool", [ENI]));
    steps, s := Take(p, INIT, steps, s, TryCreate(1, 0));
    assert s.admissions == [Admission(First(p), "pool", [ENI], Persisted),
                            Admission(Second(p), "pool", [ENI], Holding(ENI))];
    OutsideManaged(p);
    steps, s := Take(p, INIT, steps, s, Persist(1));
  }

  ghost predicate KeepsExclusive(p: Params, steps: seq<Step>) {
    Run(p, INIT, steps).Some? ==> Exclusive(Run(p, INIT, steps).value)
  }

  /**
   Whatever names the controller serves, exclusivity holds in all runs if and only if the three bounds stay
   below the grace period of thirty seconds.
   */
  lemma BoundIsExact(p: Params)
    ensures (forall steps: seq<Step> :: KeepsExclusive(p, steps)) <==> p.d + p.s + p.g < 30_000
  {
    if InTime(p) {
      forall steps: seq<Step> ensures KeepsExclusive(p, steps) {
        if Run(p, INIT, steps).Some? {
          RunsAreExclusive(p, steps);
        }
      }
    } else {
      var steps := LateRunSharesENI(p);
      assert !Exclusive(Run(p, INIT, steps).value);
      assert !KeepsExclusive(p, steps);
    }
  }
}

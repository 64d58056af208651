/**
 What it is worth that a collector sees its own writes: with one read of a claim as it was before the collector
 released it, a claim in use is deleted, however good the timing is.
 */
module ProtocolStaleRead {
  import opened Api
  import opened Protocol
  import opened ProtocolSafety
  import opened ProtocolBounds

  /** The claim of an admission that was dropped. */
  ghost function Old(p: Params): Claim {
    NewClaim(ENI, First(p), "pool", 0)
  }

  ghost function Abandoned(p: Params): State {
    State(0, map[ENI := Old(p)], map[ENI := 0], map[], [Admission(First(p), "pool", [ENI], Dropped)], map[], {}, map[])
  }

  lemma ReachAbandoned(p: Params) returns (steps: seq<Step>)
    ensures Run(p, INIT, steps) == Some(Abandoned(p))
  {
    assert Run(p, INIT, []) == Some(INIT);
    hide Run;
    hide First;
    OutsideManaged(p);
    var s;
    steps, s := Take(p, INIT, [], INIT, Receive(First(p), "pool", [ENI]));
    steps, s := Take(p, INIT, steps, s, TryCreate(0, 0));
    assert s == Abandoned(p).(admissions := [Admission(First(p), "pool", [ENI], Holding(ENI))]);
    steps, s := Take(p, INIT, steps, s, Drop(0));
    assert s == Abandoned(p);
  }

  /** The grace period later; the collector has seen that the machine is absent. */
  ghost function Expired(p: Params, collectors: map<string, Collector>): State {
    Abandoned(p).(now := GRACE, absences := {(First(p), GRACE)}, collectors := collectors)
  }

  lemma ReachUnseen(p: Params) returns (steps: seq<Step>)
    ensures Run(p, Abandoned(p), steps) == Some(Expired(p, map[]))
  {
    var s := Abandoned(p);
    assert Run(p, s, []) == Some(s);
    hide Run;
    hide First;
    steps, s := Take(p, Abandoned(p), [], s, Tick(GRACE));
    assert s == Abandoned(p).(now := GRACE);
    steps, s := Take(p, Abandoned(p), steps, s, RecordAbsence(First(p)));
    assert s == Expired(p, map[]);
  }

  lemma ReachExpired(p: Params) returns (steps: seq<Step>)
    ensures Run(p, Abandoned(p), steps) == Some(Expired(p, map[ENI := Looking(Old(p))]))
  {
    hide Run;
    hide First;
    steps := ReachUnseen(p);
    var s := Expired(p, map[]);
    steps, s := Take(p, Abandoned(p), steps, s, Fetch(ENI));
    assert s == Expired(p, map[ENI := Fetched(Old(p))]);
    steps, s := Take(p, Abandoned(p), steps, s, ReadPool(ENI, PoolFound));
    assert s == Expired(p, map[ENI := Looking(Old(p))]);
  }

  ghost function Gone(p: Params): State {
    Expired(p, map[]).(claims := map[])
  }

  lemma ReachGone(p: Params) returns (steps: seq<Step>)
    ensures Run(p, Abandoned(p), steps) == Some(Gone(p))
  {
    hide Run;
    hide First;
    steps := ReachExpired(p);
    var start, s := Abandoned(p), Expired(p, map[ENI := Looking(Old(p))]);
    steps, s := Take(p, start, steps, s, SeeAbsent(ENI, GRACE));
    assert s == Expired(p, map[ENI := Missing(Old(p), GRACE)]);
    steps, s := Take(p, start, steps, s, CheckAge(ENI));
    assert s == Expired(p, map[ENI := Condemned(Old(p))]);
    steps := FinishRelease(p, steps);
  }

  lemma FinishRelease(p: Params, before: seq<Step>) returns (steps: seq<Step>)
    requires Run(p, Abandoned(p), before) == Some(Expired(p, map[ENI := Condemned(Old(p))]))
    ensures Run(p, Abandoned(p), steps) == Some(Gone(p))
  {
    hide Run;
    hide First;
    var start, s := Abandoned(p), Expired(p, map[ENI := Condemned(Old(p))]);
    var leaving := Old(p).(deleting := true);
    steps, s := Take(p, start, before, s, DeleteClaim(ENI));
    assert s == Expired(p, map[]).(claims := map[ENI := leaving]);
    steps, s := Take(p, start, steps, s, Fetch(ENI));
    assert s == Expired(p, map[ENI := Fetched(leaving)]).(claims := map[ENI := leaving]);
    steps, s := Take(p, start, steps, s, ReadPool(ENI, PoolFound));
    assert s == Expired(p, map[ENI := Untagging(leaving)]).(claims := map[ENI := leaving]);
    steps, s := Take(p, start, steps, s, Untag(ENI));
    assert Without([ClaimFinalizer], ClaimFinalizer) == [] by { assert [ClaimFinalizer][1..] == []; }
    assert s == Gone(p);
  }

  /** The second machine has been given the interface. */
  ghost function Reissued(p: Params, collectors: map<string, Collector>, deleting: bool): State {
    State(GRACE, map[ENI := NewClaim(ENI, Second(p), "pool", GRACE).(deleting := deleting)], map[ENI := GRACE],
          map[Second(p) := INJECTED],
          [Admission(First(p), "pool", [ENI], Dropped), Admission(Second(p), "pool", [ENI], Persisted)],
          collectors, {(First(p), GRACE)}, map[])
  }

  lemma ReachReissued(p: Params) returns (steps: seq<Step>)
    ensures Run(p, Abandoned(p), steps) == Some(Reissued(p, map[], false))
  {
    hide Run;
    hide First;
    hide Second;
    OutsideManaged(p);
    steps := ReachGone(p);
    var s := Gone(p);
    steps, s := Take(p, Abandoned(p), steps, s, Receive(Second(p), "pool", [ENI]));
    steps, s := Take(p, Abandoned(p), steps, s, TryCreate(1, 0));
    assert s.admissions == [Admission(First(p), "pool", [ENI], Dropped),
                            Admission(Second(p), "pool", [ENI], Holding(ENI))];
    steps, s := Take(p, Abandoned(p), steps, s, Persist(1));
    assert s == Reissued(p, map[], false);
  }

  lemma StaleLooks(p: Params) returns (steps: seq<Step>)
    ensures Run(p, Reissued(p, map[ENI := Fetched(Old(p))], false), steps) ==
            Some(Reissued(p, map[ENI := Missing(Old(p), GRACE)], false))
  {
    var start := Reissued(p, map[ENI := Fetched(Old(p))], false);
    var s := start;
    assert Run(p, s, []) == Some(s);
    hide Run;
    hide First;
    hide Second;
    steps, s := Take(p, start, [], s, ReadPool(ENI, PoolFound));
    assert s == Reissued(p, map[ENI := Looking(Old(p))], false);
    steps, s := Take(p, start, steps, s, SeeAbsent(ENI, GRACE));
    assert s == Reissued(p, map[ENI := Missing(Old(p), GRACE)], false);
  }

  lemma StaleCollector(p: Params) returns (steps: seq<Step>)
    ensures Run(p, Reissued(p, map[ENI := Fetched(Old(p))], false), steps) == Some(Reissued(p, map[], true))
  {
    hide Run;
    hide First;
    hide Second;
    var start, s := Reissued(p, map[ENI := Fetched(Old(p))], false),
      Reissued(p, map[ENI := Missing(Old(p), GRACE)], false);
    steps := StaleLooks(p);
    steps, s := Take(p, start, steps, s, CheckAge(ENI));
    assert s == Reissued(p, map[ENI := Condemned(Old(p))], false);
    steps, s := Take(p, start, steps, s, DeleteClaim(ENI));
    assert s == Reissued(p, map[], true);
  }

  /**
   A run to a state in which the interface is in use by a machine; then one read of the claim as it was earlier
   in the run, before the collector deleted it; then steps of the collector, after which the claim in use is
   being deleted. No bound on time is exceeded anywhere.
   */
  lemma StaleReadDeletesUsedClaim(p: Params) returns (before: seq<Step>, between: seq<Step>, after: seq<Step>)
    ensures Run(p, INIT, before).Some?
    ensures var early := Run(p, INIT, before).value;
            && ENI in early.claims && Run(p, early, between).Some?
            && var late := Run(p, early, between).value;
               && InUse(p, late, ENI) && ENI !in late.collectors && ENI in late.claims && !late.claims[ENI].deleting
               && var end := Run(p, Goto(late, ENI, Fetched(early.claims[ENI])), after);
                  end.Some? && InUse(p, end.value, ENI) && ENI in end.value.claims && end.value.claims[ENI].deleting
  {
    hide Run;
    hide First;
    hide Second;
    before := ReachAbandoned(p);
    between := ReachReissued(p);
    after := StaleCollector(p);
    var late, end := Reissued(p, map[], false), Reissued(p, map[], true);
    assert HeldByMachine(late, ENI) && HeldByMachine(end, ENI) by {
      assert ENI in late.machines[Second(p)].interfaces && ENI in end.machines[Second(p)].interfaces;
    }
    assert Goto(late, ENI, Fetched(Old(p))) == Reissued(p, map[ENI := Fetched(Old(p))], false);
  }
}

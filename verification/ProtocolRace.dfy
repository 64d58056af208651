/** Concurrent admissions racing for the interfaces of one pool, create by create. */
module ProtocolRace {
  import opened Api
  import opened Addresses
  import opened Candidates
  import opened PoolValidator
  import opened Allocation
  import opened Protocol

  // ----- The free list -----

  ghost predicate Distinct(order: seq<string>) {
    forall i, j :: 0 <= i < j < |order| ==> order[i] != order[j]
  }

  /** The candidates without a claim, in the order of trial. */
  function Free(order: seq<string>, claims: map<string, Claim>): (r: seq<string>)
    ensures forall e :: e in r <==> e in order && e !in claims
    ensures |r| <= |order|
  {
    if order == [] then []
    else if order[0] in claims then Free(order[1..], claims)
    else [order[0]] + Free(order[1..], claims)
  }

  lemma {:induction false} FreeOf(order: seq<string>, claims: map<string, Claim>, claims': map<string, Claim>)
    requires forall e :: e in order ==> (e in claims <==> e in claims')
    ensures Free(order, claims) == Free(order, claims')
  {
    if order != [] {
      FreeOf(order[1..], claims, claims');
    }
  }

  /** Claiming the first free candidate takes the head off the free list. */
  lemma {:induction false} ClaimTakesHead(order: seq<string>, claims: map<string, Claim>, c: nat, claim: Claim)
    requires Distinct(order) && c < |order| && order[c] !in claims
    requires forall j :: 0 <= j < c ==> order[j] in claims
    ensures Free(order, claims) == [order[c]] + Free(order, claims[order[c] := claim])
  {
    var rest := order[1..];
    assert forall j :: 0 <= j < |rest| ==> rest[j] == order[j + 1];
    if c == 0 {
      FreeOf(rest, claims, claims[order[0] := claim]);
    } else {
      ClaimTakesHead(rest, claims, c - 1, claim);
    }
  }

  // ----- The contest -----

  function Winners(admissions: seq<Admission>): (n: nat)
    ensures n <= |admissions|
  {
    if admissions == [] then 0 else (if admissions[0].phase.Holding? then 1 else 0) + Winners(admissions[1..])
  }

  /** Creates that a contestant may still send. */
  function Left(a: Admission): nat {
    if a.phase.Trying? && a.phase.cursor <= |a.candidates| then |a.candidates| - a.phase.cursor else 0
  }

  function LeftAll(admissions: seq<Admission>): nat {
    if admissions == [] then 0 else Left(admissions[0]) + LeftAll(admissions[1..])
  }

  lemma {:induction false} WinnersUpdate(admissions: seq<Admission>, i: nat, a: Admission)
    requires i < |admissions|
    ensures Winners(admissions[i := a]) ==
      Winners(admissions) - (if admissions[i].phase.Holding? then 1 else 0) + (if a.phase.Holding? then 1 else 0)
    ensures LeftAll(admissions[i := a]) == LeftAll(admissions) - Left(admissions[i]) + Left(a)
  {
    var updated := admissions[i := a];
    if i == 0 {
      assert updated[1..] == admissions[1..];
    } else {
      assert updated[1..] == admissions[1..][i - 1 := a];
      WinnersUpdate(admissions[1..], i - 1, a);
    }
  }

  /** From index b on, every admission is a contestant that has not tried anything yet. */
  ghost predicate AtTheStart(s: State, b: nat, order: seq<string>) {
    && b <= |s.admissions|
    && forall i :: b <= i < |s.admissions| ==> s.admissions[i].candidates == order && s.admissions[i].phase == Trying(0)
  }

  ghost predicate RaceSteps(steps: seq<Step>, b: nat) {
    forall k :: 0 <= k < |steps| ==> steps[k].TryCreate? && steps[k].i >= b
  }

  /** Nobody can send another create. */
  ghost predicate AtTheEnd(s: State, b: nat) {
    forall i :: b <= i < |s.admissions| ==>
      s.admissions[i].phase.Holding? || s.admissions[i].phase == Trying(|s.admissions[i].candidates|)
  }

  ghost predicate ContestantOK(s: State, order: seq<string>, a: Admission) {
    && a.candidates == order
    && match a.phase
       case Trying(c) => c <= |order| && forall j :: 0 <= j < c ==> order[j] in s.claims
       case Holding(e) => e in order && e in s.claims
       case _ => false
  }

  /** The interfaces claimed so far are `taken`: a prefix of the free list, one for each winner. */
  ghost predicate Racing(start: State, s: State, b: nat, order: seq<string>, taken: seq<string>) {
    && b <= |start.admissions| == |s.admissions|
    && (forall i :: b <= i < |s.admissions| ==> ContestantOK(s, order, s.admissions[i]))
    && Free(order, start.claims) == taken + Free(order, s.claims)
    && (forall e :: e in s.claims <==> e in start.claims || e in taken)
    && Winners(s.admissions[b..]) == |taken|
  }

  lemma {:induction false} StartCounts(admissions: seq<Admission>, order: seq<string>)
    requires forall i :: 0 <= i < |admissions| ==> admissions[i].candidates == order && admissions[i].phase == Trying(0)
    ensures Winners(admissions) == 0 && LeftAll(admissions) == |admissions| * |order|
  {
    if admissions != [] {
      StartCounts(admissions[1..], order);
    }
  }

  lemma RaceBegins(s: State, b: nat, order: seq<string>)
    requires AtTheStart(s, b, order)
    ensures b <= |s.admissions| && Racing(s, s, b, order, [])
    ensures LeftAll(s.admissions[b..]) == (|s.admissions| - b) * |order|
  {
    StartCounts(s.admissions[b..], order);
    assert Free(order, s.claims) == [] + Free(order, s.claims);
  }

  /** The candidate is taken already: the cursor moves on. */
  lemma RaceMiss(start: State, s: State, b: nat, order: seq<string>, taken: seq<string>, i: nat)
    requires Racing(start, s, b, order, taken) && b <= i < |s.admissions|
    requires s.admissions[i].phase.Trying? && s.admissions[i].phase.cursor < |order| &&
      order[s.admissions[i].phase.cursor] in s.claims
    ensures var a := s.admissions[i];
            var t := s.(admissions := s.admissions[i := a.(phase := Trying(a.phase.cursor + 1))]);
            Racing(start, t, b, order, taken) && LeftAll(t.admissions[b..]) < LeftAll(s.admissions[b..])
  {
    hide Winners;
    hide LeftAll;
    hide Free;
    var a := s.admissions[i];
    assert ContestantOK(s, order, a);
    var a' := a.(phase := Trying(a.phase.cursor + 1));
    var t := s.(admissions := s.admissions[i := a']);
    CountsAfter(s, t, b, i);
    ContestantsStay(s, t, b, order, i);
  }

  /** Contestants stay in order when a claim is added and one of them moves to a phase in order. */
  lemma ContestantsStay(s: State, t: State, b: nat, order: seq<string>, i: nat)
    requires b <= i < |s.admissions| && |t.admissions| == |s.admissions|
    requires forall k :: b <= k < |s.admissions| ==> ContestantOK(s, order, s.admissions[k])
    requires forall e :: e in s.claims ==> e in t.claims
    requires t.admissions == s.admissions[i := t.admissions[i]] && ContestantOK(t, order, t.admissions[i])
    ensures forall k :: b <= k < |t.admissions| ==> ContestantOK(t, order, t.admissions[k])
  {
  }

  lemma CountsAfter(s: State, t: State, b: nat, i: nat)
    requires b <= i < |s.admissions| == |t.admissions| && t.admissions == s.admissions[i := t.admissions[i]]
    ensures Winners(t.admissions[b..]) == Winners(s.admissions[b..])
      - (if s.admissions[i].phase.Holding? then 1 else 0) + (if t.admissions[i].phase.Holding? then 1 else 0)
    ensures LeftAll(t.admissions[b..]) == LeftAll(s.admissions[b..]) - Left(s.admissions[i]) + Left(t.admissions[i])
  {
    assert t.admissions[b..] == s.admissions[b..][i - b := t.admissions[i]];
    WinnersUpdate(s.admissions[b..], i - b, t.admissions[i]);
  }

  /** The candidate is free: it is the head of the free list, and it is won. */
  lemma RaceWin(start: State, s: State, t: State, b: nat, order: seq<string>, taken: seq<string>, i: nat, claim: Claim)
    requires Distinct(order) && Racing(start, s, b, order, taken) && b <= i < |s.admissions|
    requires s.admissions[i].phase.Trying? && s.admissions[i].phase.cursor < |order| &&
      order[s.admissions[i].phase.cursor] !in s.claims
    requires var e := order[s.admissions[i].phase.cursor];
             t.claims == s.claims[e := claim] &&
               t.admissions == s.admissions[i := s.admissions[i].(phase := Holding(e))]
    ensures Racing(start, t, b, order, taken + [order[s.admissions[i].phase.cursor]])
    ensures LeftAll(t.admissions[b..]) < LeftAll(s.admissions[b..])
  {
    hide Winners;
    hide LeftAll;
    hide Free;
    var a := s.admissions[i];
    assert ContestantOK(s, order, a);
    var e := order[a.phase.cursor];
    CountsAfter(s, t, b, i);
    ContestantsStay(s, t, b, order, i);
    ClaimTakesHead(order, s.claims, a.phase.cursor, claim);
    hide ContestantOK;
    assert taken + ([e] + Free(order, t.claims)) == (taken + [e]) + Free(order, t.claims);
  }

  lemma RaceStep(p: Params, start: State, s: State, b: nat, order: seq<string>, taken: seq<string>, step: Step)
    returns (taken': seq<string>)
    requires Distinct(order) && Racing(start, s, b, order, taken)
    requires step.TryCreate? && step.i >= b && Enabled(p, s, step)
    ensures Racing(start, Next(p, s, step), b, order, taken')
    ensures LeftAll(Next(p, s, step).admissions[b..]) < LeftAll(s.admissions[b..])
  {
    assert ContestantOK(s, order, s.admissions[step.i]);
    hide Racing;
    var e := order[s.admissions[step.i].phase.cursor];
    if e in s.claims {
      taken' := taken;
      RaceMiss(start, s, b, order, taken, step.i);
    } else {
      taken' := taken + [e];
      RaceWin(start, s, Next(p, s, step), b, order, taken, step.i, Next(p, s, step).claims[e]);
    }
  }

  lemma {:induction false} RaceRun(p: Params, start: State, s: State, b: nat, order: seq<string>, taken: seq<string>,
                                   steps: seq<Step>)
    returns (taken': seq<string>)
    requires Distinct(order) && Racing(start, s, b, order, taken)
    requires RaceSteps(steps, b) && Run(p, s, steps).Some?
    ensures b <= |Run(p, s, steps).value.admissions| && Racing(start, Run(p, s, steps).value, b, order, taken')
    ensures |steps| + LeftAll(Run(p, s, steps).value.admissions[b..]) <= LeftAll(s.admissions[b..])
    decreases |steps|
  {
    taken' := taken;
    if steps != [] {
      var next := RaceStep(p, start, s, b, order, taken, steps[0]);
      assert forall k :: 0 <= k < |steps[1..]| ==> steps[1..][k] == steps[k + 1];
      taken' := RaceRun(p, start, Next(p, s, steps[0]), b, order, next, steps[1..]);
    }
  }

  lemma {:induction false} AllWin(admissions: seq<Admission>)
    requires forall i :: 0 <= i < |admissions| ==> admissions[i].phase.Holding?
    ensures Winners(admissions) == |admissions|
  {
    if admissions != [] {
      AllWin(admissions[1..]);
    }
  }

  function Min(a: nat, b: nat): nat {
    if a < b then a else b
  }

  lemma FreeNone(order: seq<string>, claims: map<string, Claim>)
    requires forall e :: e in order ==> e in claims
    ensures Free(order, claims) == []
  {
  }

  /** `taken` went to the winners after a number of creates. */
  ghost predicate Outcome(start: State, s: State, b: nat, order: seq<string>, taken: seq<string>, creates: nat) {
    && b <= |start.admissions| == |s.admissions|
    && taken <= Free(order, start.claims)
    && (forall e :: e in s.claims <==> e in start.claims || e in taken)
    && Winners(s.admissions[b..]) == |taken|
    && creates <= (|start.admissions| - b) * |order|
    && (AtTheEnd(s, b) ==> |taken| == Min(|start.admissions| - b, |Free(order, start.claims)|))
  }

  lemma RaceEnds(start: State, s: State, b: nat, order: seq<string>, taken: seq<string>)
    requires Racing(start, s, b, order, taken) && AtTheEnd(s, b)
    ensures |taken| == Min(|start.admissions| - b, |Free(order, start.claims)|)
  {
    hide LeftAll;
    if i :| b <= i < |s.admissions| && !s.admissions[i].phase.Holding? {
      assert ContestantOK(s, order, s.admissions[i]);
      FreeNone(order, s.claims);
    } else {
      AllWin(s.admissions[b..]);
    }
  }

  /**
   The outcome of a race of n admissions for k free interfaces, in every interleaving of their creates:
   at any moment the interfaces won are the first ones of the free list, one per winner; the race is over
   after at most n times the number of candidates creates; and then exactly min(n, k) have won.
   */
  lemma RaceOutcome(p: Params, start: State, b: nat, order: seq<string>, steps: seq<Step>) returns (taken: seq<string>)
    requires Distinct(order) && AtTheStart(start, b, order)
    requires RaceSteps(steps, b) && Run(p, start, steps).Some?
    ensures Outcome(start, Run(p, start, steps).value, b, order, taken, |steps|)
  {
    hide *;
    RaceBegins(start, b, order);
    taken := RaceRun(p, start, start, b, order, [], steps);
    RacingIsOutcome(start, Run(p, start, steps).value, b, order, taken, |steps|);
  }

  lemma RacingIsOutcome(start: State, s: State, b: nat, order: seq<string>, taken: seq<string>, creates: nat)
    requires Racing(start, s, b, order, taken) && creates <= (|start.admissions| - b) * |order|
    ensures Outcome(start, s, b, order, taken, creates)
  {
    hide Winners;
    hide Free;
    hide ContestantOK;
    hide AtTheEnd;
    if AtTheEnd(s, b) {
      RaceEnds(start, s, b, order, taken);
    }
  }

  // ----- The race for a pool -----

  function Ids(s: seq<ENIReference>): (r: seq<string>)
    ensures |r| == |s| && forall i :: 0 <= i < |s| ==> r[i] == s[i].id
  {
    seq(|s|, i requires 0 <= i < |s| => s[i].id)
  }

  /** The order of trial of an accepted pool: each interface once, by ascending address. */
  lemma PoolOrder(pool: Pool)
    requires WellFormed(pool.interfaces)
    ensures Distinct(Ids(Tried(pool.interfaces, "")))
    ensures Ascending(Tried(pool.interfaces, "")) && AscendingOctets(Tried(pool.interfaces, ""))
    ensures |Tried(pool.interfaces, "")| == |pool.interfaces|
  {
    hide ParseIPv4;
    MatchingAddressed(pool.interfaces, "");
    SortDistinct(pool.interfaces);
    SortIsOutcome(pool.interfaces);
    SortOutcomeUnique(pool.interfaces, pool.interfaces, Tried(pool.interfaces, ""), Tried(pool.interfaces, ""));
  }

  /** The race of n keyless admissions for an accepted pool. */
  lemma PoolRace(p: Params, start: State, b: nat, pool: Pool, steps: seq<Step>) returns (taken: seq<string>)
    requires WellFormed(pool.interfaces) && AtTheStart(start, b, Ids(Tried(pool.interfaces, "")))
    requires RaceSteps(steps, b) && Run(p, start, steps).Some?
    ensures Outcome(start, Run(p, start, steps).value, b, Ids(Tried(pool.interfaces, "")), taken, |steps|)
  {
    PoolOrder(pool);
    hide Outcome;
    taken := RaceOutcome(p, start, b, Ids(Tried(pool.interfaces, "")), steps);
  }
}

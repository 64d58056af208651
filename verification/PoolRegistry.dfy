/**
 The pools of the cluster over time, and how an allocator finds the pool of a machine.
 Every create and update passes the validating webhook; deletes are free.
 */
module PoolRegistry {
  import opened Api
  import opened PoolValidator

  type Registry = map<string, Pool>

  // ----- Listing a registry -----

  /** `listed` is the registry in some order. */
  ghost predicate Lists(listed: seq<Pool>, registry: Registry) {
    && (forall i, j :: 0 <= i < j < |listed| ==> listed[i].name != listed[j].name)
    && (forall p :: p in listed ==> p.name in registry && registry[p.name] == p)
    && (forall n :: n in registry ==> registry[n] in listed)
  }

  // ----- Histories -----

  datatype PoolOp = Put(pool: Pool) | Drop(name: string)

  ghost predicate Admits(registry: Registry, p: Pool) {
    && WellFormed(p.interfaces)
    && forall n :: n in registry && registry[n].name != p.name ==> Compatible(p, registry[n])
  }

  /** One serialised request: a rejected write changes nothing. */
  ghost function Serve(registry: Registry, op: PoolOp): Registry {
    match op
    case Put(p) => if Admits(registry, p) then registry[p.name := p] else registry
    case Drop(n) => registry - {n}
  }

  ghost function History(registry: Registry, ops: seq<PoolOp>): Registry
    decreases |ops|
  {
    if ops == [] then registry else History(Serve(registry, ops[0]), ops[1..])
  }

  ghost predicate Consistent(registry: Registry) {
    && (forall n :: n in registry ==> registry[n].name == n && WellFormed(registry[n].interfaces))
    && (forall m, n :: m in registry && n in registry && m != n ==> Compatible(registry[m], registry[n]))
  }

  /** What the webhook decides from a listing is what `Serve` decides. */
  lemma WebhookDecides(registry: Registry, listed: seq<Pool>, p: Pool)
    requires Lists(listed, registry)
    ensures Admits(registry, p) <==> WellFormed(p.interfaces) && CompatibleWithAll(p, listed)
  {
  }

  lemma ServeKeepsConsistent(registry: Registry, op: PoolOp)
    requires Consistent(registry)
    ensures Consistent(Serve(registry, op))
  {
  }

  /** Whatever creates, updates and deletes are served, the pools stay pairwise compatible and well formed. */
  lemma {:induction false} HistoryConsistent(registry: Registry, ops: seq<PoolOp>)
    requires Consistent(registry)
    ensures Consistent(History(registry, ops))
    decreases |ops|
  {
    if ops != [] {
      ServeKeepsConsistent(registry, ops[0]);
      HistoryConsistent(Serve(registry, ops[0]), ops[1..]);
    }
  }

  /**
   Serialisation matters, and this is what it saves: two creates that are both judged against the same pools
   leave a consistent registry if and only if they are compatible with each other, which nobody has checked.
   */
  lemma ConcurrentCreatesExactly(registry: Registry, p: Pool, q: Pool)
    requires Consistent(registry) && Admits(registry, p) && Admits(registry, q) && p.name != q.name
    ensures Consistent(registry[p.name := p][q.name := q]) <==> Compatible(p, q)
  {
    var both := registry[p.name := p][q.name := q];
    assert both[p.name] == p && both[q.name] == q;
    hide WellFormed;
    forall m, n | m in both && n in both && m != n && {m, n} != {p.name, q.name} ensures Compatible(both[m], both[n]) {
      assert m in registry || m == p.name || m == q.name;
    }
    if Consistent(both) { assert Compatible(both[p.name], both[q.name]); }
    if Compatible(p, q) { assert Compatible(q, p); }
  }

  /**
   The clash does happen: two creates that are both judged against the same listing can both be accepted
   although the pools own the same network.
   */
  lemma ConcurrentCreatesCanClash() returns (p: Pool, q: Pool)
    ensures Admits(map[], p) && Admits(map[], q) && p.name != q.name && SameNetwork(p, q)
    ensures !Consistent(map[p.name := p, q.name := q])
  {
    p := Pool("a", "region", "vpc", [], Unset);
    q := Pool("b", "region", "vpc", [], Unset);
    assert p.name[0] != q.name[0];
    var both := map[p.name := p, q.name := q];
    assert p.name in both && q.name in both && !Compatible(both[p.name], both[q.name]);
  }

  // ----- Finding the pool of a machine -----

  predicate Serves(p: Pool, region: string, vpcID: string) {
    p.region == region && p.vpcID == vpcID
  }

  datatype FindError = MultipleMatch

  /** The pool that serves a network, nothing when there is none, an error when there are several. */
  ghost predicate FindOutcome(listed: seq<Pool>, region: string, vpcID: string, r: Result<Option<Pool>, FindError>) {
    match r
    case Ok(None) => forall i :: 0 <= i < |listed| ==> !Serves(listed[i], region, vpcID)
    case Ok(Some(p)) =>
      exists i :: 0 <= i < |listed| && p == listed[i] && Serves(listed[i], region, vpcID) &&
                  forall j :: 0 <= j < |listed| && j != i ==> !Serves(listed[j], region, vpcID)
    case Err(_) =>
      exists i, j :: 0 <= i < j < |listed| && Serves(listed[i], region, vpcID) && Serves(listed[j], region, vpcID)
  }

  /** A listing has one answer. */
  lemma FindUnique(listed: seq<Pool>, region: string, vpcID: string,
                   f: Result<Option<Pool>, FindError>, g: Result<Option<Pool>, FindError>)
    requires FindOutcome(listed, region, vpcID, f) && FindOutcome(listed, region, vpcID, g)
    ensures f == g
    ensures f.Ok? && f.value.Some? ==> f.value.value in listed
  {
    if f.Ok? && f.value.Some? { FoundIsUnique(listed, region, vpcID, f.value.value, g); }
    if g.Ok? && g.value.Some? { FoundIsUnique(listed, region, vpcID, g.value.value, f); }
    assert f.Err? ==> f.error == MultipleMatch;
    assert g.Err? ==> g.error == MultipleMatch;
  }

  lemma FoundIsUnique(listed: seq<Pool>, region: string, vpcID: string, p: Pool,
                      g: Result<Option<Pool>, FindError>)
    requires FindOutcome(listed, region, vpcID, Ok(Some(p))) && FindOutcome(listed, region, vpcID, g)
    ensures g == Ok(Some(p)) && p in listed
  {
  }

  /** The answer in terms of the pools' own fields: both must be the ones looked up. */
  lemma FindsByFields(listed: seq<Pool>, region: string, vpcID: string, r: Result<Option<Pool>, FindError>)
    requires FindOutcome(listed, region, vpcID, r)
    ensures r.Ok? && r.value.Some? ==>
      r.value.value in listed && r.value.value.region == region && r.value.value.vpcID == vpcID
    ensures r == Ok(None) <==> forall p :: p in listed ==> p.region != region || p.vpcID != vpcID
    ensures r.Err? <==>
      exists i, j :: 0 <= i < j < |listed| && listed[i].region == region && listed[i].vpcID == vpcID &&
                     listed[j].region == region && listed[j].vpcID == vpcID
  {
    assert forall i :: 0 <= i < |listed| ==> listed[i] in listed;
    if i, j :| 0 <= i < j < |listed| && listed[i].region == region && listed[i].vpcID == vpcID &&
               listed[j].region == region && listed[j].vpcID == vpcID {
      assert Serves(listed[i], region, vpcID) && Serves(listed[j], region, vpcID);
    }
  }

  method FindPool(listed: seq<Pool>, region: string, vpcID: string) returns (r: Result<Option<Pool>, FindError>)
    ensures FindOutcome(listed, region, vpcID, r)
  {
    var candidate: Option<Pool> := None;
    ghost var at := 0;
    for i := 0 to |listed|
      invariant candidate.None? ==> forall j :: 0 <= j < i ==> !Serves(listed[j], region, vpcID)
      invariant candidate.Some? ==>
        0 <= at < i && listed[at] == candidate.value && Serves(listed[at], region, vpcID) &&
        forall j :: 0 <= j < i && j != at ==> !Serves(listed[j], region, vpcID)
    {
      if Serves(listed[i], region, vpcID) {
        if candidate.Some? {
          return Err(MultipleMatch);
        }
        candidate, at := Some(listed[i]), i;
      }
    }
    return Ok(candidate);
  }

  /** The answer read off the registry itself. */
  ghost predicate PoolFor(registry: Registry, region: string, vpcID: string, found: Option<Pool>) {
    match found
    case None => forall n :: n in registry ==> !Serves(registry[n], region, vpcID)
    case Some(p) => p.name in registry && registry[p.name] == p && Serves(p, region, vpcID)
  }

  /** On a consistent registry the search never reports several matches and finds the one pool there is. */
  lemma FindNeverAmbiguous(registry: Registry, listed: seq<Pool>, region: string, vpcID: string,
                           r: Result<Option<Pool>, FindError>)
    requires Consistent(registry) && Lists(listed, registry)
    requires FindOutcome(listed, region, vpcID, r)
    ensures r.Ok? && PoolFor(registry, region, vpcID, r.value)
  {
  }

  /** Looking up a stored pool's own region and VPC finds that pool. */
  lemma FindsStoredPool(registry: Registry, listed: seq<Pool>, n: string, r: Result<Option<Pool>, FindError>)
    requires Consistent(registry) && Lists(listed, registry) && n in registry
    requires FindOutcome(listed, registry[n].region, registry[n].vpcID, r)
    ensures r == Ok(Some(registry[n]))
  {
    var region, vpcID := registry[n].region, registry[n].vpcID;
    FindNeverAmbiguous(registry, listed, region, vpcID, r);
    FindsByFields(listed, region, vpcID, r);
    hide FindOutcome;
    assert registry[n] in listed;
  }

  /** The answer depends on the registry only, not on the order in which it is listed. */
  lemma FindIgnoresOrder(registry: Registry, listed: seq<Pool>, listed': seq<Pool>, region: string, vpcID: string,
                         r: Result<Option<Pool>, FindError>, r': Result<Option<Pool>, FindError>)
    requires Consistent(registry) && Lists(listed, registry) && Lists(listed', registry)
    requires FindOutcome(listed, region, vpcID, r) && FindOutcome(listed', region, vpcID, r')
    ensures r == r'
  {
  }
}

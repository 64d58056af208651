/**
 What it means to claim an interface for a machine: the specification both allocators are proved against.
 */
module Allocation {
  import opened Api
  import opened Addresses
  import opened Candidates
  import opened PoolValidator

  type Claims = map<string, Claim>

  datatype AllocationError =
    | NoSuchKey(pool: string, key: string)
    | CreateRejected(id: string)

  type Answer = Result<Option<Claim>, AllocationError>

  /**
   One allocation request. `now` is the API server's clock; `failing` are the names for which it answers a
   create with an error other than AlreadyExists.
   */
  datatype Attempt = Attempt(pool: Pool, key: string, machineRef: ObjectRef, now: int, failing: set<string>) {
    function Candidates(): seq<ENIReference> {
      Matching(pool.interfaces, key)
    }

    function ClaimFor(e: ENIReference): Claim {
      NewClaim(e.id, machineRef, pool.name, now)
    }
  }

  /** The create of this candidate answers AlreadyExists, so the allocator moves on. */
  predicate Passed(claims: Claims, failing: set<string>, e: ENIReference) {
    e.id !in failing && e.id in claims
  }

  /** Trying the candidates in a given order and stopping at the first that does not exist already. */
  ghost predicate Attempted(order: seq<ENIReference>, claims: Claims, a: Attempt, answer: Answer, claims': Claims) {
    match answer
    case Ok(None) => claims' == claims && forall j :: 0 <= j < |order| ==> Passed(claims, a.failing, order[j])
    case Ok(Some(c)) =>
      exists i :: 0 <= i < |order| && order[i].id !in claims && order[i].id !in a.failing &&
                  c == a.ClaimFor(order[i]) && claims' == claims[c.name := c] &&
                  forall j :: 0 <= j < i ==> Passed(claims, a.failing, order[j])
    case Err(CreateRejected(id)) =>
      claims' == claims &&
      exists i :: 0 <= i < |order| && order[i].id == id && id in a.failing &&
                  forall j :: 0 <= j < i ==> Passed(claims, a.failing, order[j])
    case Err(NoSuchKey(_, _)) => false
  }

  /** No candidate with a smaller address is left. */
  ghost predicate FirstInLine(claims: Claims, a: Attempt, e: ENIReference)
    requires Addressed(a.Candidates()) && e in a.Candidates()
  {
    forall d :: d in a.Candidates() && Address(d) < Address(e) ==> Passed(claims, a.failing, d)
  }

  /**
   The contract of an allocation on an accepted pool, with no mention of any order of trial: the
   unclaimed candidate with the least address is claimed.
   */
  ghost predicate Contract(claims: Claims, a: Attempt, answer: Answer, claims': Claims)
    requires WellFormed(a.pool.interfaces)
  {
    MatchingAddressed(a.pool.interfaces, a.key);
    if a.key != "" && a.Candidates() == [] then
      answer == Err(NoSuchKey(a.pool.name, a.key)) && claims' == claims
    else match answer {
      case Ok(None) => claims' == claims && forall e :: e in a.Candidates() ==> Passed(claims, a.failing, e)
      case Ok(Some(c)) =>
        exists e :: e in a.Candidates() && e.id !in claims && e.id !in a.failing &&
                    c == a.ClaimFor(e) && claims' == claims[e.id := c] && FirstInLine(claims, a, e)
      case Err(CreateRejected(id)) =>
        claims' == claims &&
        exists e :: e in a.Candidates() && e.id == id && id in a.failing && FirstInLine(claims, a, e)
      case Err(NoSuchKey(_, _)) => false
    }
  }

  lemma MatchingAddressed(s: seq<ENIReference>, key: string)
    requires WellFormed(s)
    ensures OnePerAddress(Matching(s, key)) && DistinctIds(Matching(s, key))
  {
    hide ParseIPv4;
    WellFormedOrders(s);
    WithKeyDistinct(s, key);
  }

  /** The interface may be used for the key. */
  ghost predicate Offered(a: Attempt, e: ENIReference) {
    e in a.pool.interfaces && (a.key == "" || e.key == a.key)
  }

  /** Every interface on offer whose address comes first, octet by octet, is claimed already. */
  ghost predicate LowestAddress(claims: Claims, a: Attempt, e: ENIReference) {
    && (exists y :: HasOctets(e.privateIP, y))
    && forall d, x, y ::
         Offered(a, d) && HasOctets(d.privateIP, x) && HasOctets(e.privateIP, y) && OctetsBelow(x, y) ==> d.id in claims
  }

  lemma FirstInLineIsLowest(claims: Claims, a: Attempt, e: ENIReference)
    requires Addressed(a.Candidates()) && e in a.Candidates() && FirstInLine(claims, a, e)
    ensures LowestAddress(claims, a, e)
  {
    hide ParseIPv4;
    var octets := OctetsOf(e.privateIP);
    forall d, x, y | Offered(a, d) && HasOctets(d.privateIP, x) && HasOctets(e.privateIP, y) && OctetsBelow(x, y)
      ensures d.id in claims
    {
      hide HasOctets;
      assert d in a.Candidates();
      ComparatorByOctets(d, e, x, y);
      assert Less(d, e);
      assert Address(d) < Address(e);
    }
  }

  /** Trying the candidates in any order a sort may produce meets the contract. */
  lemma AttemptMeetsContract(order: seq<ENIReference>, claims: Claims, a: Attempt, answer: Answer, claims': Claims)
    requires WellFormed(a.pool.interfaces)
    requires a.key == "" || a.Candidates() != []
    requires SortOutcome(a.Candidates(), order)
    requires Attempted(order, claims, a, answer, claims')
    ensures Contract(claims, a, answer, claims')
    ensures answer.Ok? && answer.value.Some? ==>
      exists e :: Offered(a, e) && e.id == answer.value.value.eniID && LowestAddress(claims, a, e)
  {
    hide ParseIPv4;
    hide LowestAddress;
    hide AscendingOctets;
    var s := a.Candidates();
    MatchingAddressed(a.pool.interfaces, a.key);
    SortOutcomeUnique(s, s, order, order);
    SameElements(s, order);
    match answer
    case Ok(None) =>
    case Ok(Some(c)) =>
      var i :| 0 <= i < |order| && order[i].id !in claims && order[i].id !in a.failing && c == a.ClaimFor(order[i]) &&
               claims' == claims[c.name := c] && forall j :: 0 <= j < i ==> Passed(claims, a.failing, order[j]);
      PrefixIsLess(order, s, claims, a, i);
      assert order[i] in s;
      FirstInLineIsLowest(claims, a, order[i]);
    case Err(CreateRejected(id)) =>
      var i :| 0 <= i < |order| && order[i].id == id && id in a.failing &&
               forall j :: 0 <= j < i ==> Passed(claims, a.failing, order[j]);
      PrefixIsLess(order, s, claims, a, i);
      assert order[i] in s;
  }

  lemma PrefixIsLess(order: seq<ENIReference>, s: seq<ENIReference>, claims: Claims, a: Attempt, i: nat)
    requires s == a.Candidates() && Addressed(s) && Ascending(order) && i < |order|
    requires forall e :: e in order <==> e in s
    requires forall j :: 0 <= j < i ==> Passed(claims, a.failing, order[j])
    ensures order[i] in s && FirstInLine(claims, a, order[i])
  {
  }

  /** Stopping at a candidate says it all. */
  ghost predicate StoppedAt(claims: Claims, a: Attempt, e: ENIReference, answer: Answer, claims': Claims) {
    if e.id in a.failing then answer == Err(CreateRejected(e.id)) && claims' == claims
    else answer == Ok(Some(a.ClaimFor(e))) && claims' == claims[e.id := a.ClaimFor(e)]
  }

  lemma StoppedSomewhere(claims: Claims, a: Attempt, answer: Answer, claims': Claims) returns (e: ENIReference)
    requires WellFormed(a.pool.interfaces) && Contract(claims, a, answer, claims')
    requires a.key == "" || a.Candidates() != []
    requires answer != Ok(None)
    ensures Addressed(a.Candidates()) && e in a.Candidates() && !Passed(claims, a.failing, e)
    ensures FirstInLine(claims, a, e) && StoppedAt(claims, a, e, answer, claims')
  {
    hide ParseIPv4;
    MatchingAddressed(a.pool.interfaces, a.key);
    e :| e in a.Candidates() && !Passed(claims, a.failing, e) && FirstInLine(claims, a, e) &&
         StoppedAt(claims, a, e, answer, claims');
  }

  lemma OneFirstInLine(claims: Claims, a: Attempt, d: ENIReference, e: ENIReference)
    requires OnePerAddress(a.Candidates()) && d in a.Candidates() && e in a.Candidates()
    requires FirstInLine(claims, a, d) && FirstInLine(claims, a, e)
    requires !Passed(claims, a.failing, d) && !Passed(claims, a.failing, e)
    ensures d == e
  {
  }

  /** The contract leaves no freedom: answer and resulting claims are determined. */
  lemma ContractDetermines(claims: Claims, a: Attempt, x: Answer, x': Claims, y: Answer, y': Claims)
    requires WellFormed(a.pool.interfaces)
    requires Contract(claims, a, x, x') && Contract(claims, a, y, y')
    ensures x == y && x' == y'
  {
    hide ParseIPv4;
    MatchingAddressed(a.pool.interfaces, a.key);
    if a.key == "" || a.Candidates() != [] {
      if x != Ok(None) && y != Ok(None) {
        hide Contract;
        var d := StoppedSomewhere(claims, a, x, x');
        var e := StoppedSomewhere(claims, a, y, y');
        OneFirstInLine(claims, a, d, e);
      } else {
        if x != Ok(None) { var d := StoppedSomewhere(claims, a, x, x'); }
        if y != Ok(None) { var e := StoppedSomewhere(claims, a, y, y'); }
      }
    }
  }

  /** An answer other than a claim does not depend on the time of the attempt. */
  lemma ContractIgnoresClock(claims: Claims, a: Attempt, answer: Answer, claims': Claims, later: int)
    requires WellFormed(a.pool.interfaces) && Contract(claims, a, answer, claims')
    requires !(answer.Ok? && answer.value.Some?)
    ensures Contract(claims, a.(now := later), answer, claims')
  {
    hide ParseIPv4;
    var b := a.(now := later);
    MatchingAddressed(a.pool.interfaces, a.key);
    assert b.Candidates() == a.Candidates();
    if a.key == "" || a.Candidates() != [] {
      match answer
      case Ok(None) =>
      case Err(cause) =>
        var e :| e in a.Candidates() && e.id == cause.id && cause.id in a.failing && FirstInLine(claims, a, e);
        assert FirstInLine(claims, b, e);
    }
  }

  /** The first candidate in line that has no claim can be created. */
  ghost predicate NextClaimable(claims: Claims, a: Attempt)
    requires WellFormed(a.pool.interfaces)
  {
    MatchingAddressed(a.pool.interfaces, a.key);
    exists e :: e in a.Candidates() && e.id !in claims && e.id !in a.failing && FirstInLine(claims, a, e)
  }

  /** When an attempt ends with a claim. */
  lemma ClaimsExactlyWhen(claims: Claims, a: Attempt, answer: Answer, claims': Claims)
    requires WellFormed(a.pool.interfaces) && Contract(claims, a, answer, claims')
    ensures answer.Ok? && answer.value.Some? <==> NextClaimable(claims, a)
  {
    hide ParseIPv4;
    MatchingAddressed(a.pool.interfaces, a.key);
    if NextClaimable(claims, a) && answer != Ok(None) {
      var e :| e in a.Candidates() && e.id !in claims && e.id !in a.failing && FirstInLine(claims, a, e);
      var d := StoppedSomewhere(claims, a, answer, claims');
      OneFirstInLine(claims, a, d, e);
    }
  }

  // ----- The allocation as a function -----

  datatype Allocated = Allocated(answer: Answer, claims: Claims)

  function TryFrom(order: seq<ENIReference>, claims: Claims, a: Attempt): Allocated {
    if order == [] then Allocated(Ok(None), claims)
    else if order[0].id in a.failing then Allocated(Err(CreateRejected(order[0].id)), claims)
    else if order[0].id in claims then TryFrom(order[1..], claims, a)
    else Allocated(Ok(Some(a.ClaimFor(order[0]))), claims[order[0].id := a.ClaimFor(order[0])])
  }

  function Allocate(claims: Claims, a: Attempt): Allocated {
    if a.key != "" && a.Candidates() == [] then Allocated(Err(NoSuchKey(a.pool.name, a.key)), claims)
    else TryFrom(Tried(a.pool.interfaces, a.key), claims, a)
  }

  lemma {:induction false} TryFromAttempts(order: seq<ENIReference>, claims: Claims, a: Attempt)
    ensures Attempted(order, claims, a, TryFrom(order, claims, a).answer, TryFrom(order, claims, a).claims)
  {
    if order != [] && Passed(claims, a.failing, order[0]) {
      var rest := order[1..];
      TryFromAttempts(rest, claims, a);
      var t := TryFrom(rest, claims, a);
      assert forall j :: 0 < j < |order| ==> order[j] == rest[j - 1];
      match t.answer
      case Ok(None) =>
      case Ok(Some(c)) =>
        var i :| 0 <= i < |rest| && rest[i].id !in claims && rest[i].id !in a.failing && c == a.ClaimFor(rest[i]) &&
                 t.claims == claims[c.name := c] && forall j :: 0 <= j < i ==> Passed(claims, a.failing, rest[j]);
        assert order[i + 1] == rest[i];
      case Err(CreateRejected(id)) =>
        var i :| 0 <= i < |rest| && rest[i].id == id && id in a.failing &&
                 forall j :: 0 <= j < i ==> Passed(claims, a.failing, rest[j]);
        assert order[i + 1] == rest[i];
    }
  }

  /** On an accepted pool the function meets the contract, so it is the one result there is. */
  lemma AllocateMeetsContract(claims: Claims, a: Attempt)
    requires WellFormed(a.pool.interfaces)
    ensures Contract(claims, a, Allocate(claims, a).answer, Allocate(claims, a).claims)
  {
    hide ParseIPv4;
    if a.key == "" || a.Candidates() != [] {
      var order := Tried(a.pool.interfaces, a.key);
      SortIsOutcome(a.Candidates());
      TryFromAttempts(order, claims, a);
      AttemptMeetsContract(order, claims, a, TryFrom(order, claims, a).answer, TryFrom(order, claims, a).claims);
    } else {
      MatchingAddressed(a.pool.interfaces, a.key);
    }
  }

  /** The listed order of an accepted pool is irrelevant: permuting it changes neither the answer nor the claims. */
  lemma AllocateIgnoresListedOrder(claims: Claims, a: Attempt, interfaces: seq<ENIReference>)
    requires WellFormed(a.pool.interfaces)
    requires multiset(interfaces) == multiset(a.pool.interfaces)
    ensures Allocate(claims, a.(pool := a.pool.(interfaces := interfaces))) == Allocate(claims, a)
  {
    hide ParseIPv4;
    var b := a.(pool := a.pool.(interfaces := interfaces));
    MatchingPermuted(a.pool.interfaces, interfaces, a.key);
    MatchingAddressed(a.pool.interfaces, a.key);
    SortIsOutcome(a.Candidates());
    SortIsOutcome(b.Candidates());
    SortOutcomeUnique(a.Candidates(), b.Candidates(), Tried(a.pool.interfaces, a.key), Tried(interfaces, a.key));
    SameElements(a.Candidates(), b.Candidates());
    TryFromSameClaims(Tried(a.pool.interfaces, a.key), claims, a, b);
  }

  lemma {:induction false} TryFromSameClaims(order: seq<ENIReference>, claims: Claims, a: Attempt, b: Attempt)
    requires a.machineRef == b.machineRef && a.pool.name == b.pool.name && a.now == b.now && a.failing == b.failing
    ensures TryFrom(order, claims, a) == TryFrom(order, claims, b)
  {
    if order != [] {
      TryFromSameClaims(order[1..], claims, a, b);
    }
  }

  /** With a key, an accepted pool offers exactly one interface, and no other is ever tried. */
  lemma KeyTriesOne(claims: Claims, a: Attempt, e: ENIReference)
    requires WellFormed(a.pool.interfaces) && a.key != "" && e in a.pool.interfaces && e.key == a.key
    ensures Tried(a.pool.interfaces, a.key) == [e]
    ensures e.id in claims && e.id !in a.failing ==> Allocate(claims, a).answer == Ok(None)
    ensures e.id !in claims && e.id !in a.failing ==> Allocate(claims, a).answer == Ok(Some(a.ClaimFor(e)))
  {
    KeyNamesOne(a.pool.interfaces, a.key);
    assert a.Candidates() == [e];
    assert SortByAddress([e]) == Insert(e, []);
    hide ParseIPv4;
    assert [e][1..] == [];
    assert TryFrom([], claims, a) == Allocated(Ok(None), claims);
  }
}

/** The API server as the allocator sees it: one shared store of pools, claims and machines. */
module ClusterStore {
  import opened Api

  datatype CreateAnswer = Created(claim: Claim) | AlreadyExists | CreateFailed

  /** An AWSMachine as stored. */
  datatype Machine = Machine(annotations: Annotations, networkInterfaces: seq<string>, terminating: bool)

  /** The list answers the claims in some order. */
  ghost predicate ListsClaims(listed: seq<Claim>, claims: map<string, Claim>) {
    && (forall c :: c in listed ==> c.name in claims && claims[c.name] == c)
    && (forall n :: n in claims ==> claims[n] in listed)
  }

  class Store {
    var pools: map<string, Pool>
    var claims: map<string, Claim>
    var machines: map<ObjectRef, Machine>
    var now: int
    // Names for which a create is answered with an error other than AlreadyExists.
    var failing: set<string>

    ghost predicate Valid()
      reads this
    {
      NamedByENI(claims)
    }

    constructor ()
      ensures Valid() && claims == map[] && pools == map[] && machines == map[]
    {
      pools, claims, machines, now, failing := map[], map[], map[], 0, {};
    }

    /** Atomic create-if-absent behind the validating webhook of ENIClaim; the server sets the timestamp. */
    method Create(claim: Claim) returns (answer: CreateAnswer)
      requires Valid()
      modifies this`claims
      ensures Valid()
      ensures answer.CreateFailed? <==> claim.name != claim.eniID || claim.name in failing
      ensures answer.AlreadyExists? <==>
        claim.name == claim.eniID && claim.name !in failing && claim.name in old(claims)
      ensures answer.Created? ==>
        answer.claim == claim.(stamp := now) && claim.name !in old(claims) &&
          claims == old(claims)[claim.name := answer.claim]
      ensures !answer.Created? ==> claims == old(claims)
    {
      if !ClaimCreateAllowed(claim) || claim.name in failing {
        return CreateFailed;
      }
      if claim.name in claims {
        return AlreadyExists;
      }
      var stored := claim.(stamp := now);
      claims := claims[claim.name := stored];
      return Created(stored);
    }

    /** Requests about a claim that may be gone by now; `found` says whether it was there. */
    method PatchFinalizers(name: string, finalizers: seq<Finalizer>) returns (found: bool)
      requires Valid()
      modifies this`claims
      ensures Valid()
      ensures found <==> name in old(claims)
      ensures claims == if found then WithFinalizers(old(claims), name, finalizers) else old(claims)
    {
      found := name in claims;
      if found {
        claims := WithFinalizers(claims, name, finalizers);
      }
    }

    method Delete(name: string) returns (found: bool)
      requires Valid()
      modifies this`claims
      ensures Valid()
      ensures found <==> name in old(claims)
      ensures claims == AfterDelete(old(claims), name)
    {
      found := name in claims;
      claims := AfterDelete(claims, name);
    }

    method UpdateStatus(name: string, status: ClaimStatus) returns (found: bool)
      requires Valid()
      modifies this`claims
      ensures Valid()
      ensures found <==> name in old(claims)
      ensures claims == if found then old(claims)[name := old(claims)[name].(status := status)] else old(claims)
    {
      found := name in claims;
      if found {
        claims := claims[name := claims[name].(status := status)];
      }
    }
  }

  /**
   A claim's spec never changes: through any number of updates that the validating webhook lets through it stays
   the same claim, on the same interface of the same pool, for the same machine.
   */
  lemma {:induction false} SpecNeverChanges(versions: seq<Claim>, n: nat)
    requires n < |versions| && forall i :: 0 < i < |versions| ==> ClaimUpdateAllowed(versions[i - 1], versions[i])
    ensures versions[n].eniID == versions[0].eniID && versions[n].poolName == versions[0].poolName
    ensures versions[n].machineRef == versions[0].machineRef
  {
    if n > 0 {
      SpecNeverChanges(versions, n - 1);
    }
  }

  /** The requests of the claim collector are updates the validating webhook lets through. */
  lemma RequestsKeepSpec(claims: map<string, Claim>, name: string, finalizers: seq<Finalizer>, status: ClaimStatus)
    requires name in claims
    ensures name in WithFinalizers(claims, name, finalizers) ==>
      ClaimUpdateAllowed(claims[name], WithFinalizers(claims, name, finalizers)[name])
    ensures name in AfterDelete(claims, name) ==> ClaimUpdateAllowed(claims[name], AfterDelete(claims, name)[name])
    ensures ClaimUpdateAllowed(claims[name], claims[name].(status := status))
  {
  }
}

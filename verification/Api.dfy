/** The API objects of the allocator (api/v1alpha1) and the well-known names it uses. */
module Api {

  datatype Option<+T> = None | Some(value: T)

  datatype Result<+T, +E> = Ok(value: T) | Err(error: E)

  /** Namespace and name of an AWSMachine. */
  datatype ObjectRef = ObjectRef(namespace: string, name: string)

  /** The annotation keys the allocator knows; every other key is an `OtherKey`. */
  datatype AnnotationKey =
    | AllocateFromPool
    | InterfaceKey
    | AllocatorPaused
    | AllocationResult
    | AllocationReason
    | CapiPaused
    | OtherKey(text: string)

  type Annotations = map<AnnotationKey, string>

  const RESULT_ALLOCATED := "Allocated"
  const RESULT_DYNAMIC_FALLBACK := "DynamicFallback"
  const RESULT_FAILED := "Failed"

  /** Reading a key that is absent yields the empty string. */
  function Lookup(annotations: Annotations, key: AnnotationKey): string {
    if key in annotations then annotations[key] else ""
  }

  datatype ENIReference = ENIReference(key: string, id: string, privateIP: string)

  datatype ExhaustionPolicy = Unset | Dynamic | Wait | Fail

  datatype Pool = Pool(
    name: string,
    region: string,
    vpcID: string,
    interfaces: seq<ENIReference>,
    policy: ExhaustionPolicy)

  /** The allocator's own finalizer, or one that belongs to somebody else. */
  datatype Finalizer = ClaimFinalizer | ForeignFinalizer(text: string)

  datatype ClaimPhase = NoPhase | Pending | Bound | Releasing | Failed

  /** `ready` is the status of the Ready condition, once it has been set. */
  datatype ClaimStatus = ClaimStatus(phase: ClaimPhase, privateIP: string, ready: Option<bool>)

  /** How long a claim without a machine is left alone, in milliseconds. */
  const GRACE := 30_000

  const NO_STATUS := ClaimStatus(NoPhase, "", None)

  /**
   `stamp` is the creation timestamp, `deleting` says whether the deletion timestamp is set. Times are in
   milliseconds.
   */
  datatype Claim = Claim(
    name: string,
    machineRef: ObjectRef,
    poolName: string,
    eniID: string,
    finalizers: seq<Finalizer>,
    stamp: int,
    deleting: bool,
    status: ClaimStatus)

  /** The claim both allocators send to the API server for the interface `id`. */
  function NewClaim(id: string, machineRef: ObjectRef, poolName: string, stamp: int): Claim {
    Claim(id, machineRef, poolName, id, [ClaimFinalizer], stamp, false, NO_STATUS)
  }

  /** The finalizers without any occurrence of the unwanted one. */
  function Without(finalizers: seq<Finalizer>, unwanted: Finalizer): (r: seq<Finalizer>)
    ensures forall f :: f in r <==> f in finalizers && f != unwanted
  {
    if finalizers == [] then []
    else if finalizers[0] == unwanted then Without(finalizers[1..], unwanted)
    else [finalizers[0]] + Without(finalizers[1..], unwanted)
  }

  /** A claim is given new finalizers; one that is being deleted goes away with its last finalizer. */
  function WithFinalizers(claims: map<string, Claim>, name: string, finalizers: seq<Finalizer>): map<string, Claim>
    requires name in claims
  {
    if claims[name].deleting && finalizers == [] then claims - {name}
    else claims[name := claims[name].(finalizers := finalizers)]
  }

  /** A delete request: a claim with finalizers only gets its deletion timestamp. */
  function AfterDelete(claims: map<string, Claim>, name: string): map<string, Claim> {
    if name !in claims then claims
    else if claims[name].finalizers == [] then claims - {name}
    else claims[name := claims[name].(deleting := true)]
  }

  /** Creation is admitted only for a claim named after its ENI (internal/webhook/v1alpha1/eniclaim_webhook.go). */
  predicate ClaimCreateAllowed(claim: Claim) {
    claim.name == claim.eniID
  }

  /** An update must not touch the claim's spec. */
  predicate ClaimUpdateAllowed(before: Claim, after: Claim) {
    && before.machineRef == after.machineRef
    && before.poolName == after.poolName
    && before.eniID == after.eniID
  }

  /** Every stored claim is filed under its own name, which is its ENI. */
  ghost predicate NamedByENI(claims: map<string, Claim>) {
    forall n :: n in claims ==> claims[n].name == n && claims[n].eniID == n
  }
}

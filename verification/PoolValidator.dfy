/** The validating webhook of ENIPool (internal/webhook/v1alpha1/enipool_webhook.go). */
module PoolValidator {
  import opened Api
  import opened Addresses
  import opened Candidates

  datatype PoolError =
    | DuplicateENI(id: string)
    | NotIPv4(id: string)
    | DuplicateAddress(privateIP: string)
    | DuplicateKey(key: string)
    | ListFailed
    | NetworkTaken(pool: string)
    | ENITaken(id: string, pool: string)

  // ----- Specification -----

  ghost predicate DistinctAddresses(s: seq<ENIReference>) {
    && Addressed(s)
    && forall i, j :: 0 <= i < j < |s| ==> ParseIPv4(s[i].privateIP) != ParseIPv4(s[j].privateIP)
  }

  ghost predicate DistinctKeys(s: seq<ENIReference>) {
    forall i, j :: 0 <= i < j < |s| && s[i].key != "" ==> s[i].key != s[j].key
  }

  /** What a pool must look like on its own. */
  ghost predicate WellFormed(s: seq<ENIReference>) {
    DistinctIds(s) && DistinctAddresses(s) && DistinctKeys(s)
  }

  ghost predicate SameNetwork(p: Pool, q: Pool) {
    p.region == q.region && p.vpcID == q.vpcID
  }

  ghost predicate ShareENI(p: Pool, q: Pool) {
    exists a, b :: a in p.interfaces && b in q.interfaces && a.id == b.id
  }

  /** Two pools that may exist side by side. */
  ghost predicate Compatible(p: Pool, q: Pool) {
    !SameNetwork(p, q) && !ShareENI(p, q)
  }

  ghost predicate CompatibleWithAll(p: Pool, others: seq<Pool>) {
    forall k :: 0 <= k < |others| && others[k].name != p.name ==> Compatible(p, others[k])
  }

  // ----- The single pass over the pool's own interfaces -----

  ghost predicate IDTaken(s: seq<ENIReference>, i: nat)
    requires i < |s|
  {
    exists j :: 0 <= j < i && s[j].id == s[i].id
  }

  ghost predicate AddressTaken(s: seq<ENIReference>, i: nat)
    requires i < |s|
  {
    exists j :: 0 <= j < i && ParseIPv4(s[j].privateIP) == ParseIPv4(s[i].privateIP)
  }

  ghost predicate KeyTaken(s: seq<ENIReference>, i: nat)
    requires i < |s|
  {
    s[i].key != "" && exists j :: 0 <= j < i && s[j].key == s[i].key
  }

  /** What an error about the pool itself points at: the first interface at fault, and its first fault. */
  ghost predicate Diagnosis(s: seq<ENIReference>, i: nat, error: PoolError) {
    && i < |s| && WellFormed(s[..i])
    && if IDTaken(s, i) then error == DuplicateENI(s[i].id)
       else if ParseIPv4(s[i].privateIP).None? then error == NotIPv4(s[i].id)
       else if AddressTaken(s, i) then error == DuplicateAddress(s[i].privateIP)
       else KeyTaken(s, i) && error == DuplicateKey(s[i].key)
  }

  lemma DiagnosisRefutes(s: seq<ENIReference>, i: nat, error: PoolError)
    requires Diagnosis(s, i, error)
    ensures !WellFormed(s)
  {
  }

  /** The key is looked at last: an interface reported for its key is fine but for the key. */
  lemma KeyIsLastFault(s: seq<ENIReference>, i: nat, key: string)
    requires Diagnosis(s, i, DuplicateKey(key))
    ensures WellFormed(s[..i] + [s[i].(key := "")])
  {
    hide ParseIPv4;
    var t := s[..i] + [s[i].(key := "")];
    assert t[..i] == s[..i] && t[..i + 1] == t;
    WellFormedSnoc(t, i);
  }

  method CheckInterfaces(interfaces: seq<ENIReference>) returns (wanted: set<string>, fault: Option<PoolError>)
    ensures fault.None? <==> WellFormed(interfaces)
    ensures fault.None? ==> wanted == set e | e in interfaces :: e.id
    ensures fault.Some? ==> exists i: nat :: Diagnosis(interfaces, i, fault.value)
  {
    hide ParseIPv4;
    wanted := {};
    var wantedIPs: set<nat> := {};
    var wantedKeys: set<string> := {};
    for n := 0 to |interfaces|
      invariant WellFormed(interfaces[..n])
      invariant wanted == set i | 0 <= i < n :: interfaces[i].id
      invariant wantedIPs == set i | 0 <= i < n && ParseIPv4(interfaces[i].privateIP).Some? ::
        ParseIPv4(interfaces[i].privateIP).value
      invariant wantedKeys == set i | 0 <= i < n && interfaces[i].key != "" :: interfaces[i].key
    {
      var configured := interfaces[n];
      if configured.id in wanted {
        fault := Some(DuplicateENI(configured.id));
        assert Diagnosis(interfaces, n, fault.value);
        DiagnosisRefutes(interfaces, n, fault.value);
        return;
      }
      wanted := wanted + {configured.id};
      var ip := ParseIPv4(configured.privateIP);
      if ip.None? {
        fault := Some(NotIPv4(configured.id));
        assert Diagnosis(interfaces, n, fault.value);
        DiagnosisRefutes(interfaces, n, fault.value);
        return;
      }
      if ip.value in wantedIPs {
        fault := Some(DuplicateAddress(configured.privateIP));
        assert Diagnosis(interfaces, n, fault.value);
        DiagnosisRefutes(interfaces, n, fault.value);
        return;
      }
      wantedIPs := wantedIPs + {ip.value};
      if configured.key != "" {
        if configured.key in wantedKeys {
          fault := Some(DuplicateKey(configured.key));
          assert Diagnosis(interfaces, n, fault.value);
          DiagnosisRefutes(interfaces, n, fault.value);
          return;
        }
        wantedKeys := wantedKeys + {configured.key};
      }
      WellFormedSnoc(interfaces, n);
    }
    assert interfaces[..|interfaces|] == interfaces;
    fault := None;
  }

  lemma WellFormedSnoc(s: seq<ENIReference>, n: nat)
    requires n < |s| && WellFormed(s[..n])
    requires forall j :: 0 <= j < n ==> s[j].id != s[n].id
    requires ParseIPv4(s[n].privateIP).Some?
    requires forall j :: 0 <= j < n ==> ParseIPv4(s[j].privateIP) != ParseIPv4(s[n].privateIP)
    requires s[n].key != "" ==> forall j :: 0 <= j < n ==> s[j].key != s[n].key
    ensures WellFormed(s[..n + 1])
  {
    hide ParseIPv4;
    var t := s[..n + 1];
    assert t[..n] == s[..n];
    forall i, j | 0 <= i < j < |t| && j < n
      ensures t[i].id != t[j].id && ParseIPv4(t[i].privateIP) != ParseIPv4(t[j].privateIP)
      ensures t[i].key != "" ==> t[i].key != t[j].key
    {
      assert t[i] == s[..n][i] && t[j] == s[..n][j];
    }
    assert Addressed(t) by {
      forall e | e in t ensures ParseIPv4(e.privateIP).Some? {
        var k :| 0 <= k < |t| && t[k] == e;
        if k < n { assert s[..n][k] in s[..n]; }
      }
    }
  }

  // ----- The check against the other pools -----

  /** The first interface of the other pool whose ENI this pool lists too. */
  ghost predicate FirstShared(obj: Pool, other: Pool, id: string) {
    && (exists a :: a in obj.interfaces && a.id == id)
    && exists i :: 0 <= i < |other.interfaces| && other.interfaces[i].id == id &&
                   forall j, a :: 0 <= j < i && a in obj.interfaces ==> a.id != other.interfaces[j].id
  }

  /** What an error about the other pools points at: the first pool in the way, and why; the network comes first. */
  ghost predicate Clash(obj: Pool, others: seq<Pool>, k: nat, error: PoolError) {
    && k < |others| && others[k].name != obj.name && CompatibleWithAll(obj, others[..k])
    && if SameNetwork(obj, others[k]) then error == NetworkTaken(others[k].name)
       else error.ENITaken? && error.pool == others[k].name && FirstShared(obj, others[k], error.id)
  }

  method CheckOthers(obj: Pool, wanted: set<string>, others: seq<Pool>) returns (fault: Option<PoolError>)
    requires wanted == set e | e in obj.interfaces :: e.id
    ensures fault.None? <==> CompatibleWithAll(obj, others)
    ensures fault.Some? ==> exists k: nat :: Clash(obj, others, k, fault.value)
  {
    for k := 0 to |others|
      invariant CompatibleWithAll(obj, others[..k])
    {
      var other := others[k];
      assert others[..k + 1][..k] == others[..k];
      assert forall i :: 0 <= i < k ==> others[..k + 1][i] == others[..k][i];
      if other.name == obj.name {
        continue;
      }
      if other.region == obj.region && other.vpcID == obj.vpcID {
        fault := Some(NetworkTaken(other.name));
        assert Clash(obj, others, k, fault.value);
        return;
      }
      for i := 0 to |other.interfaces|
        invariant forall j :: 0 <= j < i ==> other.interfaces[j].id !in wanted
      {
        var configured := other.interfaces[i];
        if configured.id in wanted {
          fault := Some(ENITaken(configured.id, other.name));
          assert configured in other.interfaces;
          var mine :| mine in obj.interfaces && mine.id == configured.id;
          assert ShareENI(obj, other);
          assert FirstShared(obj, other, configured.id) by {
            forall j, a | 0 <= j < i && a in obj.interfaces ensures a.id != other.interfaces[j].id {
              assert a.id in wanted;
            }
          }
          assert Clash(obj, others, k, fault.value);
          return;
        }
      }
      assert !ShareENI(obj, other) by {
        forall a, b | a in obj.interfaces && b in other.interfaces ensures a.id != b.id {
          assert a.id in wanted;
        }
      }
    }
    assert others[..|others|] == others;
    fault := None;
  }

  /**
   Acceptance is exactly the declared conditions. `listed` is what the API server answers to listing all
   pools, None when that fails; faults of the pool itself are reported before it is asked.
   */
  method Validate(obj: Pool, listed: Option<seq<Pool>>) returns (r: Result<(), PoolError>)
    ensures r.Ok? <==> WellFormed(obj.interfaces) && listed.Some? && CompatibleWithAll(obj, listed.value)
    ensures WellFormed(obj.interfaces) && listed.None? ==> r == Err(ListFailed)
    ensures !WellFormed(obj.interfaces) ==> r.Err? && exists i: nat :: Diagnosis(obj.interfaces, i, r.error)
    ensures WellFormed(obj.interfaces) && listed.Some? && r.Err? ==>
      exists k: nat :: Clash(obj, listed.value, k, r.error)
  {
    var wanted, fault := CheckInterfaces(obj.interfaces);
    if fault.Some? {
      return Err(fault.value);
    }
    if listed.None? {
      return Err(ListFailed);
    }
    fault := CheckOthers(obj, wanted, listed.value);
    if fault.Some? {
      return Err(fault.value);
    }
    return Ok(());
  }

  /**
   The same conditions read off the texts alone: every address is a dotted quad; no two interfaces share an id, an
   address text or a non-empty key; and no pool of another name has the same region and VPC or lists one of the ids.
   */
  lemma AcceptedExactly(p: Pool, others: seq<Pool>)
    ensures WellFormed(p.interfaces) && CompatibleWithAll(p, others) <==>
            var s := p.interfaces;
            && (forall i :: 0 <= i < |s| ==> IsAddressText(s[i].privateIP))
            && (forall i, j :: 0 <= i < j < |s| ==>
                  s[i].id != s[j].id && s[i].privateIP != s[j].privateIP && (s[i].key == "" || s[i].key != s[j].key))
            && (forall k :: 0 <= k < |others| && others[k].name != p.name ==>
                  && (others[k].region != p.region || others[k].vpcID != p.vpcID)
                  && forall i, j :: 0 <= i < |s| && 0 <= j < |others[k].interfaces| ==>
                       s[i].id != others[k].interfaces[j].id)
  {
    AddressedExactly(p.interfaces);
    if Addressed(p.interfaces) { DistinctAddressesAreDistinctTexts(p.interfaces); }
    hide ParseIPv4;
    hide IsAddressText;
    hide Addressed;
    forall k | 0 <= k < |others| ensures Compatible(p, others[k]) <==>
      && (others[k].region != p.region || others[k].vpcID != p.vpcID)
      && forall i, j :: 0 <= i < |p.interfaces| && 0 <= j < |others[k].interfaces| ==>
           p.interfaces[i].id != others[k].interfaces[j].id
    {
      SharesExactly(p, others[k]);
    }
  }

  lemma SharesExactly(p: Pool, q: Pool)
    ensures ShareENI(p, q) <==>
            exists i, j :: 0 <= i < |p.interfaces| && 0 <= j < |q.interfaces| &&
                           p.interfaces[i].id == q.interfaces[j].id
  {
    if i, j :| 0 <= i < |p.interfaces| && 0 <= j < |q.interfaces| && p.interfaces[i].id == q.interfaces[j].id {
      assert p.interfaces[i] in p.interfaces && q.interfaces[j] in q.interfaces;
    }
  }

  lemma AddressedExactly(s: seq<ENIReference>)
    ensures Addressed(s) <==> forall i :: 0 <= i < |s| ==> IsAddressText(s[i].privateIP)
  {
    hide ParseIPv4;
    hide IsAddressText;
    forall e: ENIReference ensures ParseIPv4(e.privateIP).Some? <==> IsAddressText(e.privateIP) {
      ParsesExactly(e.privateIP);
    }
    assert forall i :: 0 <= i < |s| ==> s[i] in s;
  }

  // ----- What acceptance gives the allocators -----

  lemma WellFormedOrders(s: seq<ENIReference>)
    requires WellFormed(s)
    ensures OnePerAddress(s)
  {
  }

  /** Duplicate addresses and duplicate address texts are the same thing once all addresses parse. */
  lemma DistinctAddressesAreDistinctTexts(s: seq<ENIReference>)
    requires Addressed(s)
    ensures DistinctAddresses(s) <==> forall i, j :: 0 <= i < j < |s| ==> s[i].privateIP != s[j].privateIP
  {
    hide ParseIPv4;
    if forall i, j :: 0 <= i < j < |s| ==> s[i].privateIP != s[j].privateIP {
      forall i, j | 0 <= i < j < |s| ensures ParseIPv4(s[i].privateIP) != ParseIPv4(s[j].privateIP) {
        assert s[i] in s && s[j] in s;
        if ParseIPv4(s[i].privateIP) == ParseIPv4(s[j].privateIP) {
          AddressTextUnique(s[i].privateIP, s[j].privateIP);
        }
      }
    }
  }

  lemma WithKeyNone(s: seq<ENIReference>, key: string)
    requires forall e :: e in s ==> e.key != key
    ensures WithKey(s, key) == []
  {
  }

  /** In an accepted pool a key names at most one interface. */
  lemma {:induction false} KeyNamesOne(s: seq<ENIReference>, key: string)
    requires DistinctKeys(s) && key != ""
    ensures |WithKey(s, key)| <= 1
  {
    if s != [] {
      var rest := s[1..];
      assert forall i, j :: 0 <= i < j < |rest| ==> rest[i] == s[i + 1] && rest[j] == s[j + 1];
      KeyNamesOne(rest, key);
      if s[0].key == key {
        forall e | e in rest ensures e.key != key {
          var k :| 0 <= k < |rest| && rest[k] == e;
          assert s[k + 1] == e;
        }
        WithKeyNone(rest, key);
      }
    }
  }
}

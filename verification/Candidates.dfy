/**
 The candidates of an allocation: the interfaces of a pool that match the requested key, in the
 order in which they are tried.
 */
module Candidates {
  import opened Api
  import opened Addresses

  // ----- Selection by key -----

  function WithKey(interfaces: seq<ENIReference>, key: string): (r: seq<ENIReference>)
    ensures forall e :: e in r <==> e in interfaces && e.key == key
  {
    if interfaces == [] then []
    else if interfaces[0].key == key then [interfaces[0]] + WithKey(interfaces[1..], key)
    else WithKey(interfaces[1..], key)
  }

  /** Without a key every interface is a candidate. */
  function Matching(interfaces: seq<ENIReference>, key: string): (r: seq<ENIReference>)
    ensures forall e :: e in r <==> e in interfaces && (key == "" || e.key == key)
  {
    if key == "" then interfaces else WithKey(interfaces, key)
  }

  lemma {:induction false} WithKeySplits(s: seq<ENIReference>, t: seq<ENIReference>, key: string)
    ensures WithKey(s + t, key) == WithKey(s, key) + WithKey(t, key)
  {
    if s == [] {
      assert [] + t == t;
    } else {
      assert (s + t)[0] == s[0] && (s + t)[1..] == s[1..] + t;
      WithKeySplits(s[1..], t, key);
    }
  }

  /** Selection goes interface by interface: it keeps listed order and repetitions. */
  lemma MatchingSplits(s: seq<ENIReference>, t: seq<ENIReference>, e: ENIReference, key: string)
    ensures Matching(s + t, key) == Matching(s, key) + Matching(t, key)
    ensures Matching([e], key) == if key == "" || e.key == key then [e] else []
  {
    WithKeySplits(s, t, key);
    assert [e][1..] == [] && WithKey([e][1..], key) == [];
    assert WithKey([e], key) == if e.key == key then [e] + [] else [];
  }

  // ----- What a sort promises -----

  ghost predicate StrictWeakOrder(s: seq<ENIReference>) {
    && (forall a :: a in s ==> !Less(a, a))
    && (forall a, b, c :: a in s && b in s && c in s && Less(a, b) && Less(b, c) ==> Less(a, c))
    && (forall a, b, c :: a in s && b in s && c in s && !Less(a, b) && !Less(b, a) && !Less(b, c) && !Less(c, b)
                          ==> !Less(a, c) && !Less(c, a))
  }

  ghost predicate InOrder(r: seq<ENIReference>) {
    forall i, j :: 0 <= i < j < |r| ==> !Less(r[j], r[i])
  }

  /**
   Every result an unstable sort may give: some permutation, in order whenever the comparator is an
   order on the elements at all.
   */
  ghost predicate SortOutcome(s: seq<ENIReference>, r: seq<ENIReference>) {
    && multiset(r) == multiset(s)
    && (StrictWeakOrder(s) ==> InOrder(r))
  }

  function Insert(x: ENIReference, s: seq<ENIReference>): (r: seq<ENIReference>)
    ensures multiset(r) == multiset{x} + multiset(s)
    ensures |r| == |s| + 1
  {
    if s == [] || Less(x, s[0]) then
      assert [x] + s == [x] + s;
      [x] + s
    else
      assert s == [s[0]] + s[1..];
      [s[0]] + Insert(x, s[1..])
  }

  function SortByAddress(s: seq<ENIReference>): (r: seq<ENIReference>)
    ensures multiset(r) == multiset(s)
    ensures |r| == |s|
  {
    if s == [] then [] else
      assert s == [s[0]] + s[1..];
      Insert(s[0], SortByAddress(s[1..]))
  }

  lemma SameElements(s: seq<ENIReference>, r: seq<ENIReference>)
    requires multiset(r) == multiset(s)
    ensures |r| == |s|
    ensures forall e :: e in r <==> e in s
  {
    assert |multiset(r)| == |r| && |multiset(s)| == |s|;
    forall e ensures e in r <==> e in s {
      assert e in r <==> e in multiset(r);
      assert e in s <==> e in multiset(s);
    }
  }

  lemma {:induction false} InsertInOrder(x: ENIReference, s: seq<ENIReference>)
    requires StrictWeakOrder([x] + s) && InOrder(s)
    ensures InOrder(Insert(x, s))
  {
    hide Less;
    var all := [x] + s;
    assert x in all && forall e :: e in s ==> e in all by {
      forall e | e in s ensures e in all { var i :| 0 <= i < |s| && s[i] == e; assert all[i + 1] == e; }
      assert all[0] == x;
    }
    if s == [] {
    } else if Less(x, s[0]) {
      forall j | 0 <= j < |s| ensures !Less(s[j], x) {
        assert s[j] in all && s[0] in all;
        assert !Less(s[j], s[0]);
      }
    } else {
      var rest := s[1..];
      assert StrictWeakOrder([x] + rest) by {
        forall e | e in [x] + rest ensures e in all {}
      }
      InsertInOrder(x, rest);
      var tail := Insert(x, rest);
      forall j | 0 <= j < |tail| ensures !Less(tail[j], s[0]) {
        assert tail[j] in multiset(tail);
        if tail[j] != x {
          assert tail[j] in multiset(rest);
          var k :| 0 <= k < |rest| && rest[k] == tail[j];
          assert s[k + 1] == tail[j];
        }
      }
    }
  }

  /** Sorting by insertion is one of the outcomes, so the promise can be kept. */
  lemma {:induction false} SortIsOutcome(s: seq<ENIReference>)
    ensures SortOutcome(s, SortByAddress(s))
  {
    if s != [] && StrictWeakOrder(s) {
      var rest := s[1..];
      assert forall e :: e in rest ==> e in s;
      SortIsOutcome(rest);
      var sorted := SortByAddress(rest);
      SameElements(rest, sorted);
      assert StrictWeakOrder([s[0]] + sorted) by {
        forall e | e in [s[0]] + sorted ensures e in s {}
      }
      InsertInOrder(s[0], sorted);
    }
  }

  // ----- Interfaces of an accepted pool -----

  ghost predicate Addressed(s: seq<ENIReference>) {
    forall e :: e in s ==> ParseIPv4(e.privateIP).Some?
  }

  function Address(e: ENIReference): nat
    requires ParseIPv4(e.privateIP).Some?
  {
    ParseIPv4(e.privateIP).value
  }

  /** No two interfaces share an address. */
  ghost predicate OnePerAddress(s: seq<ENIReference>) {
    && Addressed(s)
    && forall a, b :: a in s && b in s && Address(a) == Address(b) ==> a == b
  }

  ghost predicate DistinctIds(s: seq<ENIReference>) {
    forall i, j :: 0 <= i < j < |s| ==> s[i].id != s[j].id
  }

  ghost predicate Ascending(s: seq<ENIReference>) {
    Addressed(s) && forall i, j :: 0 <= i < j < |s| ==> Address(s[i]) <= Address(s[j])
  }

  /** No interface comes after one with a higher address, octet by octet. */
  ghost predicate AscendingOctets(s: seq<ENIReference>) {
    forall i, j, x, y :: 0 <= i < j < |s| && HasOctets(s[i].privateIP, x) && HasOctets(s[j].privateIP, y) ==>
      !OctetsBelow(y, x)
  }

  /** On interfaces with IPv4 addresses the comparator is the numeric order of the addresses, octet by octet. */
  lemma ComparatorIsNumeric(s: seq<ENIReference>)
    requires Addressed(s)
    ensures StrictWeakOrder(s)
    ensures forall a, b :: a in s && b in s ==> (Less(a, b) <==> Address(a) < Address(b))
    ensures forall a: ENIReference, b: ENIReference, x, y :: HasOctets(a.privateIP, x) && HasOctets(b.privateIP, y) ==>
      (Less(a, b) <==> OctetsBelow(x, y))
    ensures OnePerAddress(s) ==> forall a, b :: a in s && b in s && a != b ==> (Less(a, b) <==> !Less(b, a))
  {
    forall a: ENIReference, b: ENIReference, x, y | HasOctets(a.privateIP, x) && HasOctets(b.privateIP, y)
      ensures Less(a, b) <==> OctetsBelow(x, y)
    {
      ComparatorByOctets(a, b, x, y);
    }
  }

  lemma AscendingByOctets(s: seq<ENIReference>)
    requires Ascending(s)
    ensures AscendingOctets(s)
  {
    hide ParseIPv4;
    forall i, j, x, y | 0 <= i < j < |s| && HasOctets(s[i].privateIP, x) && HasOctets(s[j].privateIP, y)
      ensures !OctetsBelow(y, x)
    {
      hide HasOctets;
      assert s[i] in s && s[j] in s;
      ComparatorByOctets(s[j], s[i], y, x);
      assert Address(s[i]) <= Address(s[j]);
    }
  }

  lemma TailMultiset(r: seq<ENIReference>)
    requires r != []
    ensures multiset(r[1..]) == multiset(r) - multiset{r[0]}
  {
    assert r == [r[0]] + r[1..];
  }

  lemma AscendingHead(r: seq<ENIReference>, e: ENIReference)
    requires Ascending(r) && e in r
    ensures Address(r[0]) <= Address(e)
  {
  }

  lemma AscendingTail(r: seq<ENIReference>)
    requires Ascending(r) && r != []
    ensures Ascending(r[1..])
    ensures OnePerAddress(r) ==> OnePerAddress(r[1..])
  {
  }

  ghost predicate SortedAlike(r: seq<ENIReference>, t: seq<ENIReference>) {
    multiset(r) == multiset(t) && OnePerAddress(r) && Ascending(r) && Ascending(t)
  }

  lemma SameHead(r: seq<ENIReference>, t: seq<ENIReference>)
    requires SortedAlike(r, t) && r != []
    ensures |r| == |t| && r[0] == t[0]
  {
    SameElements(r, t);
    assert r[0] in t && t[0] in r;
    AscendingHead(r, t[0]);
    AscendingHead(t, r[0]);
  }

  lemma TailsAlike(r: seq<ENIReference>, t: seq<ENIReference>)
    requires SortedAlike(r, t) && r != []
    ensures |r| == |t| && SortedAlike(r[1..], t[1..])
  {
    SameHead(r, t);
    TailMultiset(r); TailMultiset(t);
    AscendingTail(r); AscendingTail(t);
  }

  lemma {:induction false} AscendingUnique(r: seq<ENIReference>, t: seq<ENIReference>)
    requires SortedAlike(r, t)
    ensures r == t
  {
    hide SortedAlike;
    if r == [] {
      BothEmpty(t);
    } else {
      SameHead(r, t);
      TailsAlike(r, t);
      AscendingUnique(r[1..], t[1..]);
      assert r == [r[0]] + r[1..] && t == [t[0]] + t[1..];
    }
  }

  lemma BothEmpty(t: seq<ENIReference>)
    requires SortedAlike([], t)
    ensures t == []
  {
    SameElements([], t);
  }

  /**
   Order independence: whatever the order in which the interfaces are listed and whatever the sort does
   with them, the candidates are tried in one and the same order.
   */
  lemma SortOutcomeUnique(s: seq<ENIReference>, s': seq<ENIReference>, r: seq<ENIReference>, r': seq<ENIReference>)
    requires OnePerAddress(s) && multiset(s) == multiset(s')
    requires SortOutcome(s, r) && SortOutcome(s', r')
    ensures r == r' && Ascending(r) && AscendingOctets(r)
  {
    hide ParseIPv4;
    hide HasOctets;
    hide OctetsBelow;
    hide AscendingOctets;
    SameElements(s, s');
    SameElements(s, r);
    SameElements(s', r');
    ComparatorIsNumeric(s);
    ComparatorIsNumeric(s');
    forall i, j | 0 <= i < j < |r| ensures Address(r[i]) <= Address(r[j]) {
      assert r[i] in s && r[j] in s;
      assert !Less(r[j], r[i]);
    }
    forall i, j | 0 <= i < j < |r'| ensures Address(r'[i]) <= Address(r'[j]) {
      assert r'[i] in s' && r'[j] in s';
      assert !Less(r'[j], r'[i]);
    }
    AscendingUnique(r, r');
    AscendingByOctets(r);
  }

  lemma {:induction false} WithKeyMultiset(s: seq<ENIReference>, key: string, e: ENIReference)
    ensures multiset(WithKey(s, key))[e] == if e.key == key then multiset(s)[e] else 0
  {
    if s != [] {
      assert s == [s[0]] + s[1..];
      WithKeyMultiset(s[1..], key, e);
    }
  }

  /** Selecting by key does not depend on the listed order either. */
  lemma MatchingPermuted(s: seq<ENIReference>, s': seq<ENIReference>, key: string)
    requires multiset(s) == multiset(s')
    ensures multiset(Matching(s, key)) == multiset(Matching(s', key))
  {
    if key != "" {
      forall e ensures multiset(WithKey(s, key))[e] == multiset(WithKey(s', key))[e] {
        WithKeyMultiset(s, key, e);
        WithKeyMultiset(s', key, e);
      }
    }
  }

  lemma {:induction false} WithKeyDistinct(s: seq<ENIReference>, key: string)
    requires DistinctIds(s)
    ensures DistinctIds(WithKey(s, key))
  {
    if s != [] {
      WithKeyDistinct(s[1..], key);
      if s[0].key == key {
        forall e | e in WithKey(s[1..], key) ensures e.id != s[0].id {
          var j :| 0 <= j < |s[1..]| && s[1..][j] == e;
          assert s[j + 1] == e;
        }
      }
    }
  }

  lemma {:induction false} InsertDistinct(x: ENIReference, s: seq<ENIReference>)
    requires DistinctIds(s) && forall e :: e in s ==> e.id != x.id
    ensures DistinctIds(Insert(x, s))
  {
    if s != [] && !Less(x, s[0]) {
      InsertDistinct(x, s[1..]);
      var tail := Insert(x, s[1..]);
      SameElements([x] + s[1..], tail);
      forall j | 0 <= j < |tail| ensures tail[j].id != s[0].id {
        assert tail[j] in [x] + s[1..];
        if tail[j] != x { var k :| 0 <= k < |s[1..]| && s[1..][k] == tail[j]; assert s[k + 1] == tail[j]; }
      }
    }
  }

  lemma {:induction false} SortDistinct(s: seq<ENIReference>)
    requires DistinctIds(s)
    ensures DistinctIds(SortByAddress(s))
  {
    if s != [] {
      SortDistinct(s[1..]);
      SameElements(s[1..], SortByAddress(s[1..]));
      forall e | e in SortByAddress(s[1..]) ensures e.id != s[0].id {
        assert e in s[1..];
        var k :| 0 <= k < |s[1..]| && s[1..][k] == e;
        assert s[k + 1] == e;
      }
      InsertDistinct(s[0], SortByAddress(s[1..]));
    }
  }

  /** The candidates in the order in which they are tried. */
  function Tried(interfaces: seq<ENIReference>, key: string): (r: seq<ENIReference>)
    ensures multiset(r) == multiset(Matching(interfaces, key))
  {
    SortByAddress(Matching(interfaces, key))
  }

  // ----- When the comparator is an order -----

  lemma {:induction false} TextIrreflexive(s: string)
    ensures !TextLess(s, s)
  {
    if s != [] {
      TextIrreflexive(s[1..]);
    }
  }

  lemma {:induction false} TextTransitive(s: string, t: string, u: string)
    requires TextLess(s, t) && TextLess(t, u)
    ensures TextLess(s, u)
  {
    if s != [] && s[0] == t[0] && t[0] == u[0] {
      TextTransitive(s[1..], t[1..], u[1..]);
    }
  }

  lemma {:induction false} TextTotal(s: string, t: string)
    requires s != t
    ensures TextLess(s, t) || TextLess(t, s)
  {
    if s != [] && t != [] && s[0] == t[0] {
      assert s == [s[0]] + s[1..] && t == [t[0]] + t[1..];
      TextTotal(s[1..], t[1..]);
    }
  }

  predicate Parses(e: ENIReference) {
    ParseIPv4(e.privateIP).Some?
  }

  /** The text of u lies between those of a and b. */
  predicate Between(a: ENIReference, u: ENIReference, b: ENIReference) {
    TextLess(a.privateIP, u.privateIP) && TextLess(u.privateIP, b.privateIP)
  }

  /** Two addresses with an unparseable text between them must be in numeric order too. */
  ghost predicate NoneBetween(s: seq<ENIReference>) {
    forall a, u, b :: a in s && u in s && b in s && Parses(a) && !Parses(u) && Parses(b) && Between(a, u, b) ==>
      Address(a) < Address(b)
  }

  lemma LessTransitive(s: seq<ENIReference>, a: ENIReference, b: ENIReference, c: ENIReference)
    requires NoneBetween(s) && a in s && b in s && c in s && Less(a, b) && Less(b, c)
    ensures Less(a, c)
  {
    hide ParseIPv4;
    hide TextLess;
    var x, y, z := a.privateIP, b.privateIP, c.privateIP;
    if Parses(a) && Parses(b) && !Parses(c) {
      if !Between(b, c, a) { TextTotal(x, z); }
    } else if !Parses(a) && Parses(b) && Parses(c) {
      if !Between(c, a, b) { TextTotal(x, z); }
    } else if Parses(a) && !Parses(b) && Parses(c) {
      assert Between(a, b, c);
    } else if !(Parses(a) && Parses(b) && Parses(c)) {
      TextTransitive(x, y, z);
    }
  }

  lemma IncomparableSameText(a: ENIReference, b: ENIReference)
    requires !Less(a, b) && !Less(b, a)
    ensures a.privateIP == b.privateIP
  {
    hide ParseIPv4;
    if Parses(a) && Parses(b) {
      AddressTextUnique(a.privateIP, b.privateIP);
    } else if a.privateIP != b.privateIP {
      TextTotal(a.privateIP, b.privateIP);
    }
  }

  /**
   Exactly when the sort can be trusted: the comparator is a strict weak order on a list if and only if no
   unparseable text lies between two addresses that are not in numeric order themselves.
   */
  lemma ComparatorOrdersExactly(s: seq<ENIReference>)
    ensures StrictWeakOrder(s) <==> NoneBetween(s)
  {
    hide ParseIPv4;
    hide TextLess;
    if StrictWeakOrder(s) {
      forall a, u, b | a in s && u in s && b in s && Parses(a) && !Parses(u) && Parses(b) && Between(a, u, b)
        ensures Address(a) < Address(b)
      {
        assert Less(a, u) && Less(u, b);
      }
    }
    if NoneBetween(s) {
      forall a | a in s ensures !Less(a, a) { TextIrreflexive(a.privateIP); }
      forall a, b, c | a in s && b in s && c in s && Less(a, b) && Less(b, c) ensures Less(a, c) {
        LessTransitive(s, a, b, c);
      }
      forall a, b, c | a in s && b in s && c in s && !Less(a, b) && !Less(b, a) && !Less(b, c) && !Less(c, b)
        ensures !Less(a, c) && !Less(c, a)
      {
        IncomparableSameText(a, b);
        IncomparableSameText(b, c);
      }
    }
  }

  /**
   Why a pool has to be accepted first: with an unparseable address in between, the comparator
   prefers 9.0.0.0 to 10.0.0.0, 10.0.0.0 to 5, and 5 to 9.0.0.0.
   */
  lemma ComparatorCanCycle() returns (a: ENIReference, b: ENIReference, c: ENIReference)
    ensures Less(a, b) && Less(b, c) && Less(c, a)
    ensures !StrictWeakOrder([a, b, c])
  {
    a := ENIReference("", "eni-a", "9.0.0.0");
    b := ENIReference("", "eni-b", "10.0.0.0");
    c := ENIReference("", "eni-c", "5");
    CycleAddresses();
    CycleTexts();
    CycleIsNoOrder(a, b, c);
  }

  lemma CycleAddresses()
    ensures ParseIPv4("9.0.0.0") == Some(0x0900_0000)
    ensures ParseIPv4("10.0.0.0") == Some(0x0A00_0000)
    ensures ParseIPv4("5").None?
  {
    hide ParseIPv4;
    ZerosParse("9");
    ZerosParse("10");
    OctetValue("9");
    OctetValue("10");
    assert "9" + "." + ("0" + "." + ("0" + "." + "0")) == "9.0.0.0";
    assert "10" + "." + ("0" + "." + ("0" + "." + "0")) == "10.0.0.0";
    FiveDoesNotParse();
  }

  lemma FiveDoesNotParse()
    ensures ParseIPv4("5").None?
  {
  }

  lemma ZeroIsOctet()
    ensures IsDecOctet("0") && DecimalValue("0") == 0
  {
    OctetValue("0");
  }

  lemma ZerosParse(a: string)
    requires IsDecOctet(a)
    ensures ParseIPv4(a + "." + ("0" + "." + ("0" + "." + "0"))) == Some(Quad(DecimalValue(a), 0, 0, 0))
  {
    hide IsDecOctet;
    hide DecimalValue;
    hide ParseIPv4;
    ZeroIsOctet();
    DottedQuadParses(a + "." + ("0" + "." + ("0" + "." + "0")), a, "0", "0", "0");
  }

  lemma CycleTexts()
    ensures TextLess("10.0.0.0", "5") && TextLess("5", "9.0.0.0")
  {
  }

  lemma CycleIsNoOrder(a: ENIReference, b: ENIReference, c: ENIReference)
    requires Less(a, b) && Less(b, c) && Less(c, a)
    ensures !StrictWeakOrder([a, b, c])
  {
    var s := [a, b, c];
    assert a in s && b in s && c in s;
    if forall x, y, z :: x in s && y in s && z in s && Less(x, y) && Less(y, z) ==> Less(x, z) {
      assert Less(a, c);
      assert Less(a, a);
    }
  }
}

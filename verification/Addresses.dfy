/**
 Private IPv4 addresses as text, and the comparator both allocators hand to the sort.
 */
module Addresses {
  import opened Api

  predicate IsDigit(c: char) {
    '0' <= c <= '9'
  }

  function DecimalValue(s: string): nat {
    if s == [] then 0
    else DecimalValue(s[..|s| - 1]) * 10 + (if IsDigit(s[|s| - 1]) then s[|s| - 1] as nat - '0' as nat else 0)
  }

  /** dec-octet of section 3.2.2 of RFC 3986: 0 to 255 in decimal, without a leading zero. */
  predicate IsDecOctet(s: string) {
    && 1 <= |s| <= 3
    && (forall i :: 0 <= i < |s| ==> IsDigit(s[i]))
    && (|s| > 1 ==> s[0] != '0')
    && DecimalValue(s) <= 255
  }

  function FirstDot(s: string): (n: nat)
    ensures n <= |s|
    ensures n < |s| ==> s[n] == '.'
    ensures '.' !in s[..n]
  {
    if s == [] || s[0] == '.' then 0 else
      var n := FirstDot(s[1..]);
      assert s[..n + 1] == [s[0]] + s[1..][..n];
      n + 1
  }

  function SplitDots(s: string): seq<string>
    decreases |s|
  {
    var n := FirstDot(s);
    if n == |s| then [s] else [s[..n]] + SplitDots(s[n + 1..])
  }

  /** Big-endian value of four octets. */
  function Quad(a: nat, b: nat, c: nat, d: nat): nat {
    ((a * 256 + b) * 256 + c) * 256 + d
  }

  /** The 32-bit value of a dotted-quad text, or None when the text is not one. */
  function ParseIPv4(s: string): (r: Option<nat>) {
    var parts := SplitDots(s);
    if |parts| == 4 && (forall i :: 0 <= i < 4 ==> IsDecOctet(parts[i])) then
      Some(Quad(DecimalValue(parts[0]), DecimalValue(parts[1]), DecimalValue(parts[2]), DecimalValue(parts[3])))
    else
      None
  }

  /** Lexicographic order of texts. */
  predicate TextLess(s: string, t: string) {
    t != [] && (s == [] || s[0] < t[0] || (s[0] == t[0] && TextLess(s[1..], t[1..])))
  }

  /** The comparator: numeric when both addresses parse, textual as soon as one does not. */
  predicate Less(left: ENIReference, right: ENIReference) {
    var l, r := ParseIPv4(left.privateIP), ParseIPv4(right.privateIP);
    if l.None? || r.None? then TextLess(left.privateIP, right.privateIP) else l.value < r.value
  }

  // ----- The parser and the grammar -----

  ghost predicate IsDottedQuad(s: string, a: string, b: string, c: string, d: string) {
    && IsDecOctet(a) && IsDecOctet(b) && IsDecOctet(c) && IsDecOctet(d)
    && s == a + "." + (b + "." + (c + "." + d))
  }

  /** Four octets with dots in between. */
  ghost predicate IsAddressText(s: string) {
    exists a, b, c, d :: IsDottedQuad(s, a, b, c, d)
  }

  lemma OctetHasNoDot(a: string)
    requires IsDecOctet(a)
    ensures '.' !in a
  {
  }

  lemma {:induction false} FirstDotAfter(a: string, rest: string)
    requires '.' !in a
    ensures FirstDot(a + "." + rest) == |a|
  {
    if a != [] {
      assert (a + "." + rest)[1..] == a[1..] + "." + rest;
      FirstDotAfter(a[1..], rest);
    }
  }

  lemma SplitAfter(a: string, rest: string)
    requires '.' !in a
    ensures SplitDots(a + "." + rest) == [a] + SplitDots(rest)
  {
    FirstDotAfter(a, rest);
    var s := a + "." + rest;
    assert s[..|a|] == a;
    assert s[|a| + 1..] == rest;
  }

  lemma SplitWhole(a: string)
    requires '.' !in a
    ensures SplitDots(a) == [a]
  {
  }

  lemma TwoSplit(c: string, d: string)
    requires '.' !in c && '.' !in d
    ensures SplitDots(c + "." + d) == [c, d]
  {
    SplitAfter(c, d);
    SplitWhole(d);
  }

  lemma FourSplit(a: string, b: string, c: string, d: string)
    requires '.' !in a && '.' !in b && '.' !in c && '.' !in d
    ensures SplitDots(a + "." + (b + "." + (c + "." + d))) == [a, b, c, d]
  {
    hide SplitDots;
    TwoSplit(c, d);
    SplitAfter(b, c + "." + d);
    SplitAfter(a, b + "." + (c + "." + d));
    FourInRow(a, b, c, d);
  }

  lemma FourInRow<T>(a: T, b: T, c: T, d: T)
    ensures [a] + ([b] + [c, d]) == [a, b, c, d]
  {
  }

  lemma QuadSplits(s: string, a: string, b: string, c: string, d: string)
    requires IsDottedQuad(s, a, b, c, d)
    ensures SplitDots(s) == [a, b, c, d]
  {
    OctetHasNoDot(a); OctetHasNoDot(b); OctetHasNoDot(c); OctetHasNoDot(d);
    FourSplit(a, b, c, d);
  }

  lemma QuadUnique(a: nat, b: nat, c: nat, d: nat, e: nat, f: nat, g: nat, h: nat)
    requires a <= 255 && b <= 255 && c <= 255 && d <= 255
    requires e <= 255 && f <= 255 && g <= 255 && h <= 255
    requires Quad(a, b, c, d) == Quad(e, f, g, h)
    ensures a == e && b == f && c == g && d == h
  {
  }

  /** Every dotted quad of octets parses, to its big-endian value, which fits in 32 bits. */
  lemma DottedQuadParses(s: string, a: string, b: string, c: string, d: string)
    requires IsDottedQuad(s, a, b, c, d)
    ensures ParseIPv4(s) == Some(Quad(DecimalValue(a), DecimalValue(b), DecimalValue(c), DecimalValue(d)))
    ensures ParseIPv4(s).value ==
            DecimalValue(a) * 0x100_0000 + DecimalValue(b) * 0x1_0000 + DecimalValue(c) * 0x100 + DecimalValue(d)
    ensures ParseIPv4(s).value < 0x1_0000_0000
  {
    QuadSplits(s, a, b, c, d);
    var parts := [a, b, c, d];
    assert forall i :: 0 <= i < 4 ==> IsDecOctet(parts[i]);
  }

  function JoinDots(parts: seq<string>): string
    requires parts != []
  {
    if |parts| == 1 then parts[0] else parts[0] + "." + JoinDots(parts[1..])
  }

  lemma {:induction false} JoinUndoesSplit(s: string)
    ensures SplitDots(s) != [] && JoinDots(SplitDots(s)) == s
    decreases |s|
  {
    hide SplitDots;
    hide JoinDots;
    var n := FirstDot(s);
    SplitHead(s);
    if n == |s| {
      JoinOne(s);
    } else {
      JoinUndoesSplit(s[n + 1..]);
      JoinCons(s[..n], SplitDots(s[n + 1..]));
      DotInside(s, n);
    }
  }

  lemma {:induction false} SplitHead(s: string)
    ensures var n := FirstDot(s);
            SplitDots(s) == if n == |s| then [s] else [s[..n]] + SplitDots(s[n + 1..])
  {
    hide FirstDot;
  }

  lemma JoinOne(s: string)
    ensures JoinDots([s]) == s
  {
  }

  lemma DotInside(s: string, n: nat)
    requires n < |s| && s[n] == '.'
    ensures s == s[..n] + "." + s[n + 1..]
  {
  }

  lemma JoinCons(first: string, parts: seq<string>)
    requires parts != []
    ensures JoinDots([first] + parts) == first + "." + JoinDots(parts)
  {
    assert ([first] + parts)[1..] == parts;
  }

  lemma JoinFour(a: string, b: string, c: string, d: string)
    ensures JoinDots([a, b, c, d]) == a + "." + (b + "." + (c + "." + d))
  {
    assert JoinDots([d]) == d;
    assert [c, d][1..] == [d];
    assert JoinDots([c, d]) == c + "." + d;
    assert [b, c, d][1..] == [c, d];
    assert JoinDots([b, c, d]) == b + "." + JoinDots([c, d]);
    assert [a, b, c, d][1..] == [b, c, d];
    assert JoinDots([a, b, c, d]) == a + "." + JoinDots([b, c, d]);
  }

  /** Only dotted quads of octets parse. */
  lemma ParsedIsDottedQuad(s: string) returns (a: string, b: string, c: string, d: string)
    requires ParseIPv4(s).Some?
    ensures IsDottedQuad(s, a, b, c, d)
  {
    var parts := SplitDots(s);
    a, b, c, d := parts[0], parts[1], parts[2], parts[3];
    JoinUndoesSplit(s);
    assert parts == [a, b, c, d];
    JoinFour(a, b, c, d);
  }

  /** Up to three digits as a number, spelled out by length. */
  lemma OctetValue(a: string)
    requires |a| <= 3 && forall i :: 0 <= i < |a| ==> IsDigit(a[i])
    ensures |a| == 1 ==> DecimalValue(a) == a[0] as nat - '0' as nat
    ensures |a| == 2 ==> DecimalValue(a) == (a[0] as nat - '0' as nat) * 10 + (a[1] as nat - '0' as nat)
    ensures |a| == 3 ==>
      DecimalValue(a) ==
      ((a[0] as nat - '0' as nat) * 10 + (a[1] as nat - '0' as nat)) * 10 + (a[2] as nat - '0' as nat)
  {
  }

  /**
   The octets are those of the grammar in section 3.2.2 of RFC 3986: a digit, two digits without a leading zero, or
   three from 100 to 199, 200 to 249 or 250 to 255.
   */
  lemma DecOctetGrammar(a: string)
    ensures IsDecOctet(a) <==>
            && (forall i :: 0 <= i < |a| ==> '0' <= a[i] <= '9')
            && (|| |a| == 1
                || (|a| == 2 && '1' <= a[0])
                || (|a| == 3 && a[0] == '1')
                || (|a| == 3 && a[0] == '2' && a[1] <= '4')
                || (|a| == 3 && a[0] == '2' && a[1] == '5' && a[2] <= '5'))
  {
    if |a| <= 3 && forall i :: 0 <= i < |a| ==> IsDigit(a[i]) { OctetValue(a); }
  }

  /** An octet is the only octet text with its value. */
  lemma OctetTextUnique(a: string, b: string)
    requires IsDecOctet(a) && IsDecOctet(b)
    requires DecimalValue(a) == DecimalValue(b)
    ensures a == b
  {
    OctetValue(a);
    OctetValue(b);
  }

  /** An IPv4 address has exactly one text, so comparing addresses and comparing texts find the same duplicates. */
  lemma AddressTextUnique(s: string, t: string)
    requires ParseIPv4(s).Some? && ParseIPv4(s) == ParseIPv4(t)
    ensures s == t
  {
    var a, b, c, d := ParsedIsDottedQuad(s);
    var e, f, g, h := ParsedIsDottedQuad(t);
    DottedQuadParses(s, a, b, c, d);
    DottedQuadParses(t, e, f, g, h);
    QuadUnique(DecimalValue(a), DecimalValue(b), DecimalValue(c), DecimalValue(d),
               DecimalValue(e), DecimalValue(f), DecimalValue(g), DecimalValue(h));
    OctetTextUnique(a, e);
    OctetTextUnique(b, f);
    OctetTextUnique(c, g);
    OctetTextUnique(d, h);
  }

  /** The parser accepts exactly the dotted quads. */
  lemma ParsesExactly(s: string)
    ensures ParseIPv4(s).Some? <==> IsAddressText(s)
  {
    if ParseIPv4(s).Some? {
      var a, b, c, d := ParsedIsDottedQuad(s);
    }
    if a, b, c, d :| IsDottedQuad(s, a, b, c, d) {
      DottedQuadParses(s, a, b, c, d);
    }
  }

  // ----- The comparator, octet by octet -----

  /** The text is a dotted quad with these octets. */
  ghost predicate HasOctets(s: string, octets: seq<nat>) {
    exists a, b, c, d ::
      IsDottedQuad(s, a, b, c, d) && octets == [DecimalValue(a), DecimalValue(b), DecimalValue(c), DecimalValue(d)]
  }

  /** The first octet in which the two differ is smaller on the left. */
  ghost predicate OctetsBelow(x: seq<nat>, y: seq<nat>)
    requires |x| == 4 && |y| == 4
  {
    exists i :: 0 <= i < 4 && x[i] < y[i] && forall j :: 0 <= j < i ==> x[j] == y[j]
  }

  lemma OctetsOf(s: string) returns (octets: seq<nat>)
    requires ParseIPv4(s).Some?
    ensures HasOctets(s, octets)
  {
    var a, b, c, d := ParsedIsDottedQuad(s);
    octets := [DecimalValue(a), DecimalValue(b), DecimalValue(c), DecimalValue(d)];
  }

  lemma QuadOrder(x: seq<nat>, y: seq<nat>)
    requires |x| == 4 && |y| == 4 && (forall i :: 0 <= i < 4 ==> x[i] <= 255 && y[i] <= 255)
    ensures Quad(x[0], x[1], x[2], x[3]) < Quad(y[0], y[1], y[2], y[3]) <==> OctetsBelow(x, y)
  {
    if x[0] != y[0] {
      assert x[0] < y[0] <==> OctetsBelow(x, y);
    } else if x[1] != y[1] {
      assert x[1] < y[1] <==> OctetsBelow(x, y);
    } else if x[2] != y[2] {
      assert x[2] < y[2] <==> OctetsBelow(x, y);
    } else {
      assert x[3] < y[3] <==> OctetsBelow(x, y);
    }
  }

  lemma OctetsParse(s: string, octets: seq<nat>)
    requires HasOctets(s, octets)
    ensures |octets| == 4 && forall i :: 0 <= i < 4 ==> octets[i] <= 255
    ensures ParseIPv4(s) == Some(Quad(octets[0], octets[1], octets[2], octets[3]))
  {
    hide ParseIPv4;
    var a, b, c, d :|
      IsDottedQuad(s, a, b, c, d) && octets == [DecimalValue(a), DecimalValue(b), DecimalValue(c), DecimalValue(d)];
    DottedQuadParses(s, a, b, c, d);
  }

  /** On dotted quads the comparator goes by the first octet in which the two addresses differ. */
  lemma ComparatorByOctets(left: ENIReference, right: ENIReference, x: seq<nat>, y: seq<nat>)
    requires HasOctets(left.privateIP, x) && HasOctets(right.privateIP, y)
    ensures |x| == 4 && |y| == 4 && (Less(left, right) <==> OctetsBelow(x, y))
  {
    hide ParseIPv4;
    hide HasOctets;
    OctetsParse(left.privateIP, x);
    OctetsParse(right.privateIP, y);
    hide Quad;
    hide OctetsBelow;
    QuadOrder(x, y);
  }

  /** The texts agree up to i, where s ends or has the smaller character. */
  ghost predicate BelowAt(s: string, t: string, i: nat) {
    i <= |s| && i < |t| && (forall j :: 0 <= j < i ==> s[j] == t[j]) && (i == |s| || s[i] < t[i])
  }

  lemma BelowAtTail(s: string, t: string, i: nat)
    requires s != [] && t != []
    ensures BelowAt(s, t, i + 1) <==> s[0] == t[0] && BelowAt(s[1..], t[1..], i)
  {
    if BelowAt(s, t, i + 1) {
      assert s[0] == t[0];
    }
    if s[0] == t[0] && BelowAt(s[1..], t[1..], i) {
      forall j | 0 <= j < i + 1 ensures s[j] == t[j] {
        if j > 0 { assert s[1..][j - 1] == t[1..][j - 1]; }
      }
    }
  }

  /** As soon as one side is no address, it goes by text: the first difference decides, or the end of the left one. */
  lemma {:induction false} TextLessExactly(s: string, t: string)
    ensures TextLess(s, t) <==> exists i: nat :: BelowAt(s, t, i)
  {
    if s != [] && t != [] {
      TextLessExactly(s[1..], t[1..]);
      if i: nat :| BelowAt(s, t, i) {
        if i > 0 { BelowAtTail(s, t, i - 1); }
      }
      if s[0] == t[0] {
        if i: nat :| BelowAt(s[1..], t[1..], i) { BelowAtTail(s, t, i); }
      } else if s[0] < t[0] {
        assert BelowAt(s, t, 0);
      }
    } else if t != [] {
      assert BelowAt(s, t, 0);
    }
  }
}

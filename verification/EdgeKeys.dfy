/** The canonical key of an edge: equal exactly for edges that match, directly or flipped. */
module EdgeKeys {
  import opened Options
  import opened KeyPath

  datatype Name = Name(text: string, unquoted: bool)

  datatype EdgeID = EdgeID(srcPath: seq<Name>, srcArrow: bool, dstPath: seq<Name>, dstArrow: bool, index: Option<nat>)

  // ----- letter case; the canonical case is upper case -----

  lemma FoldIsEqualFold(s: string, t: string)
    ensures Upper(s) == Upper(t) <==> EqualFold(s, t)
  {
    if Upper(s) == Upper(t) {
      forall i | 0 <= i < |s|
        ensures Lower(s)[i] == Lower(t)[i]
      {
        assert UpperChar(s[i]) == Upper(s)[i] == Upper(t)[i] == UpperChar(t[i]);
      }
    }
    if EqualFold(s, t) {
      forall i | 0 <= i < |s|
        ensures Upper(s)[i] == Upper(t)[i]
      {
        assert LowerChar(s[i]) == Lower(s)[i] == Lower(t)[i] == LowerChar(t[i]);
      }
    }
  }

  // ----- lengths written in decimal -----

  function Digit(n: nat): char
    requires n < 10
  {
    '0' + n as char
  }

  function Itoa(n: nat): (r: string)
    ensures r != ""
  {
    if n < 10 then [Digit(n)] else Itoa(n / 10) + [Digit(n % 10)]
  }

  lemma {:induction false} ItoaDigits(n: nat)
    ensures ':' !in Itoa(n)
  {
    if n >= 10 {
      ItoaDigits(n / 10);
    }
  }

  lemma {:induction false} ItoaInjective(n: nat, m: nat)
    requires Itoa(n) == Itoa(m)
    ensures n == m
  {
    var a, b := Itoa(n), Itoa(m);
    assert a[|a| - 1] == b[|b| - 1];
    if n >= 10 && m >= 10 {
      assert a[..|a| - 1] == Itoa(n / 10) && b[..|b| - 1] == Itoa(m / 10);
      ItoaInjective(n / 10, m / 10);
    }
  }

  function Tagged(n: nat): string {
    Itoa(n) + ":"
  }

  lemma CancelFront(a: string, b: string, s: string, t: string)
    requires |a| == |b| && a + s == b + t
    ensures a == b && s == t
  {
    assert (a + s)[..|a|] == a && (b + t)[..|b|] == b;
    assert (a + s)[|a|..] == s && (b + t)[|b|..] == t;
  }

  /** A length and its colon can be read back from the front of any text. */
  lemma TagAgrees(n: nat, m: nat, s: string, t: string)
    requires Tagged(n) + s == Tagged(m) + t
    ensures n == m && s == t
  {
    var a, b := Itoa(n), Itoa(m);
    ItoaDigits(n);
    ItoaDigits(m);
    var whole := Tagged(n) + s;
    assert whole[|a|] == ':' && whole[|b|] == ':';
    assert forall i :: 0 <= i < |a| ==> a[i] in a && whole[i] == a[i];
    assert forall i :: 0 <= i < |b| ==> b[i] in b && whole[i] == b[i];
    CancelFront(Tagged(n), Tagged(m), s, t);
    assert a == Tagged(n)[..|a|] && b == Tagged(m)[..|b|];
    ItoaInjective(n, m);
  }

  function Text(s: string): string {
    Tagged(|s|) + s
  }

  lemma TextAgrees(a: string, b: string, s: string, t: string)
    requires Text(a) + s == Text(b) + t
    ensures a == b && s == t
  {
    hide Tagged;
    assert Tagged(|a|) + (a + s) == Text(a) + s && Tagged(|b|) + (b + t) == Text(b) + t;
    TagAgrees(|a|, |b|, a + s, b + t);
    CancelFront(a, b, s, t);
  }

  // ----- one side of an edge -----

  function Parts(path: seq<Name>): string {
    if path == [] then "" else Text(Upper(path[0].text)) + Parts(path[1..])
  }

  function PathKey(path: seq<Name>): string {
    Tagged(|path|) + Parts(path)
  }

  function SideKey(path: seq<Name>, arrow: bool): string {
    PathKey(path) + (if arrow then "*" else "-")
  }

  predicate PathEqual(p: seq<Name>, q: seq<Name>) {
    |p| == |q| && forall i :: 0 <= i < |p| ==> EqualFold(p[i].text, q[i].text)
  }

  lemma {:induction false} PartsAgree(p: seq<Name>, q: seq<Name>, s: string, t: string)
    requires |p| == |q| && Parts(p) + s == Parts(q) + t
    ensures PathEqual(p, q) && s == t
  {
    hide Text, EqualFold;
    if p == [] {
      assert "" + s == s && "" + t == t;
    } else {
      var a, b := Upper(p[0].text), Upper(q[0].text);
      assert Text(a) + (Parts(p[1..]) + s) == Parts(p) + s && Text(b) + (Parts(q[1..]) + t) == Parts(q) + t;
      TextAgrees(a, b, Parts(p[1..]) + s, Parts(q[1..]) + t);
      FoldIsEqualFold(p[0].text, q[0].text);
      PartsAgree(p[1..], q[1..], s, t);
      forall i | 0 <= i < |p|
        ensures EqualFold(p[i].text, q[i].text)
      {
        if i > 0 {
          assert p[i] == p[1..][i - 1] && q[i] == q[1..][i - 1];
        }
      }
    }
  }

  lemma {:induction false} PartsSame(p: seq<Name>, q: seq<Name>)
    requires PathEqual(p, q)
    ensures Parts(p) == Parts(q)
  {
    hide Text, EqualFold;
    if p != [] {
      FoldIsEqualFold(p[0].text, q[0].text);
      PartsSame(p[1..], q[1..]);
    }
  }

  /** The key of a side tells its path, up to letter case, and its arrowhead. */
  lemma SideKeysAgree(p: seq<Name>, arrow: bool, q: seq<Name>, arrow': bool)
    ensures SideKey(p, arrow) == SideKey(q, arrow') <==> PathEqual(p, q) && arrow == arrow'
  {
    hide Tagged, Parts, PathEqual;
    var s, t := if arrow then "*" else "-", if arrow' then "*" else "-";
    if SideKey(p, arrow) == SideKey(q, arrow') {
      assert Tagged(|p|) + (Parts(p) + s) == SideKey(p, arrow) && Tagged(|q|) + (Parts(q) + t) == SideKey(q, arrow');
      TagAgrees(|p|, |q|, Parts(p) + s, Parts(q) + t);
      PartsAgree(p, q, s, t);
      assert s[0] == t[0];
    }
    if PathEqual(p, q) && arrow == arrow' {
      SamePathLength(p, q);
      PartsSame(p, q);
    }
  }

  lemma SamePathLength(p: seq<Name>, q: seq<Name>)
    requires PathEqual(p, q)
    ensures |p| == |q|
  {
  }

  // ----- the order that makes the key canonical -----

  predicate StringLess(s: string, t: string) {
    t != "" && (s == "" || s[0] < t[0] || (s[0] == t[0] && StringLess(s[1..], t[1..])))
  }

  lemma {:induction false} StringOrder(s: string, t: string)
    ensures !(StringLess(s, t) && StringLess(t, s))
    ensures StringLess(s, t) || StringLess(t, s) || s == t
  {
    if s != "" && t != "" && s[0] == t[0] {
      StringOrder(s[1..], t[1..]);
      assert s == [s[0]] + s[1..] && t == [t[0]] + t[1..];
    }
  }

  function EdgeKey(id: EdgeID): string {
    var src, dst := SideKey(id.srcPath, id.srcArrow), SideKey(id.dstPath, id.dstArrow);
    if StringLess(dst, src) then Text(dst) + Text(src) else Text(src) + Text(dst)
  }

  predicate Direct(a: EdgeID, b: EdgeID) {
    PathEqual(a.srcPath, b.srcPath) && a.srcArrow == b.srcArrow && PathEqual(a.dstPath, b.dstPath) &&
      a.dstArrow == b.dstArrow
  }

  predicate Flipped(a: EdgeID, b: EdgeID) {
    PathEqual(a.srcPath, b.dstPath) && a.srcArrow == b.dstArrow && PathEqual(a.dstPath, b.srcPath) &&
      a.dstArrow == b.srcArrow
  }

  predicate Match(a: EdgeID, b: EdgeID) {
    && (a.index.Some? && b.index.Some? ==> a.index == b.index)
    && (Direct(a, b) || Flipped(a, b))
  }

  lemma PairAgrees(a: string, b: string, c: string, d: string)
    requires Text(a) + Text(b) == Text(c) + Text(d)
    ensures a == c && b == d
  {
    hide Text;
    TextAgrees(a, c, Text(b), Text(d));
    assert Text(b) + "" == Text(b) && Text(d) + "" == Text(d);
    TextAgrees(b, d, "", "");
  }

  /** Two edges have one key exactly when they are the same edge, read from either end. */
  lemma KeyIffMatch(a: EdgeID, b: EdgeID)
    ensures EdgeKey(a) == EdgeKey(b) <==> Direct(a, b) || Flipped(a, b)
  {
    hide Text, SideKey, StringLess, PathEqual;
    var src, dst := SideKey(a.srcPath, a.srcArrow), SideKey(a.dstPath, a.dstArrow);
    var src', dst' := SideKey(b.srcPath, b.srcArrow), SideKey(b.dstPath, b.dstArrow);
    StringOrder(src, dst);
    StringOrder(src', dst');
    SideKeysAgree(a.srcPath, a.srcArrow, b.srcPath, b.srcArrow);
    SideKeysAgree(a.dstPath, a.dstArrow, b.dstPath, b.dstArrow);
    SideKeysAgree(a.srcPath, a.srcArrow, b.dstPath, b.dstArrow);
    SideKeysAgree(a.dstPath, a.dstArrow, b.srcPath, b.srcArrow);
    if EdgeKey(a) == EdgeKey(b) {
      var first, second := if StringLess(dst, src) then dst else src, if StringLess(dst, src) then src else dst;
      var first', second' := if StringLess(dst', src') then dst' else src', if StringLess(dst', src') then src'
        else dst';
      PairAgrees(first, second, first', second');
    }
  }
}

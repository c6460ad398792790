/**
 Absolute IDs of edges, the containers both ends share written once in front, are uniquely decodable; with the index
 that every new edge counts out for itself they identify the edges of a board.
 */
module EdgeIdentity {
  import opened Options
  import opened KeyPath
  import opened KeyPathScan
  import opened Lists
  import opened EdgeKeys
  import F = Forest
  import opened Extraction
  import opened ExtractionSteps
  import opened ExtractionOrder
  import opened AbsoluteIDs
  import opened Layouts

  // ----- one element -----

  /** What may follow an element in an edge's ID: a dot, an arrow, or the closing parenthesis. */
  predicate Follows(s: string) {
    s != "" && (s[0] == '.' || EndsPath(s))
  }

  predicate EndsPath(s: string) {
    s != "" && (s[0] == ')' || (|s| > 2 && s[0] == ' ' && (s[1] == '<' || (s[1] == '-' && s[2] in "->"))))
  }

  predicate PrintsBare(name: string, g: Globals) {
    Bare(name, g) && !EqualFold(name, "null")
  }

  lemma BareElement(name: string, g: Globals)
    requires Ready(g) && PrintsBare(name, g)
    ensures Bare(Element(name, g), g) && Element(name, g) != "" && Element(name, g)[0] !in "\"'("
  {
    ScanBareElement(name, "", g);
    LowerFacts(name);
    BareFolds(name, Lower(name), g);
    hide Element;
    BareCharacter(Element(name, g), 0, g);
    BareChars(Element(name, g), g);
  }

  lemma QuotedElement(name: string, g: Globals)
    requires Ready(g) && !PrintsBare(name, g)
    ensures Element(name, g) != "" && Element(name, g)[0] in "\"'"
  {
    if Bare(name, g) {
      NullElement(name, g);
    } else {
      QuotedText(name, g);
    }
  }

  lemma ScanQuotedElement(name: string, rest: string, g: Globals)
    requires Ready(g) && !PrintsBare(name, g) && EndsQuoted(rest)
    ensures ScanElement(Element(name, g) + rest) == Some((Canonical(name, g), rest))
  {
    if Bare(name, g) {
      ScanNull(name, rest, g);
    } else {
      QuotedIsCanonical(name, g);
      ScanQuoted(name, rest, g);
    }
  }

  lemma Overlap(b: string, c: string, s: string, t: string)
    requires b + s == c + t && |b| < |c|
    ensures forall k {:trigger s[k]} :: 0 <= k < |s| && |b| + k < |c| ==> s[k] == c[|b| + k]
  {
    forall k | 0 <= k < |s| && |b| + k < |c|
      ensures s[k] == c[|b| + k]
    {
      assert (b + s)[|b| + k] == (c + t)[|b| + k];
    }
  }

  /** No dot, no parenthesis, no arrow. */
  predicate PlainAt(c: string, i: nat)
    requires i < |c|
  {
    && c[i] != '.' && c[i] != '(' && c[i] != ')' && c[i] != '<' && c[i] != '>'
    && (c[i] == '-' ==> i + 1 < |c| && c[i + 1] != '-')
  }

  lemma BareChars(c: string, g: Globals)
    requires Ready(g) && Bare(c, g)
    ensures c != "" && c[|c| - 1] != ' '
    ensures forall i {:trigger c[i]} :: 0 <= i < |c| ==> PlainAt(c, i)
  {
    forall i | 0 <= i < |c|
      ensures PlainAt(c, i)
    {
      assert g.specials[12] == '.' && g.specials[18] == '(' && g.specials[19] == ')' && g.specials[14] == '<';
      assert g.specials[13] == '-' && g.specials[15] == '>';
      assert !SpecialAt(c, i, g);
    }
  }

  /** A bare text cannot go on where another ends. */
  lemma BareStops(b: string, c: string, s: string, t: string, g: Globals)
    requires Ready(g) && Bare(c, g) && Follows(s) && b + s == c + t
    ensures |c| <= |b|
  {
    hide Bare, Ready;
    BareChars(c, g);
    if |b| < |c| {
      Overlap(b, c, s, t);
    }
  }

  /** Two texts that agree have the same element in front. */
  lemma ElementCancels(x: string, y: string, s: string, t: string, g: Globals)
    requires Ready(g) && Follows(s) && Follows(t) && Element(x, g) + s == Element(y, g) + t
    ensures Element(x, g) == Element(y, g) && s == t
  {
    hide Element, Canonical, Bare, Ready, ScanElement;
    var a, b := Element(x, g), Element(y, g);
    FirstOf(x, g);
    FirstOf(y, g);
    assert a[0] == (a + s)[0] == (b + t)[0] == b[0];
    if PrintsBare(x, g) {
      BareElement(x, g);
      BareElement(y, g);
      BareStops(a, b, s, t, g);
      BareStops(b, a, t, s, g);
      SameSplit(a, b, s, t);
    } else {
      ScanQuotedElement(x, s, g);
      ScanQuotedElement(y, t, g);
      CanonicalSame(x, y, g);
    }
  }

  lemma FirstOf(name: string, g: Globals)
    requires Ready(g)
    ensures Element(name, g) != "" && Element(name, g)[0] != '('
    ensures PrintsBare(name, g) <==> Element(name, g)[0] !in "\"'"
  {
    hide Element, Bare, Ready;
    if PrintsBare(name, g) {
      BareElement(name, g);
    } else {
      QuotedElement(name, g);
    }
  }

  lemma SameSplit(a: string, b: string, s: string, t: string)
    requires |a| == |b| && a + s == b + t
    ensures a == b && s == t
  {
    assert (a + s)[..|a|] == a && (b + t)[..|b|] == b;
    assert (a + s)[|a|..] == s && (b + t)[|b|..] == t;
  }

  // ----- paths -----

  ghost predicate IsPrinted(part: string, g: Globals) {
    exists name :: part == Element(name, g)
  }

  ghost predicate ArePrinted(parts: seq<string>, g: Globals) {
    forall i :: 0 <= i < |parts| ==> IsPrinted(parts[i], g)
  }

  lemma PartCancels(a: string, b: string, s: string, t: string, g: Globals)
    requires Ready(g) && IsPrinted(a, g) && IsPrinted(b, g) && Follows(s) && Follows(t) && a + s == b + t
    ensures a == b && s == t
  {
    hide Element, Ready, Follows;
    var x :| a == Element(x, g);
    var y :| b == Element(y, g);
    ElementCancels(x, y, s, t, g);
  }

  lemma PartStarts(a: string, g: Globals)
    requires Ready(g) && IsPrinted(a, g)
    ensures a != "" && a[0] != '('
  {
    hide Element, Ready;
    var x :| a == Element(x, g);
    FirstOf(x, g);
  }

  /** What follows the first element of a joined path. */
  function AfterFirst(parts: seq<string>, s: string): string
    requires parts != []
  {
    if |parts| == 1 then s else "." + (Join(parts[1..]) + s)
  }

  lemma JoinFirst(parts: seq<string>, s: string)
    requires parts != []
    ensures Join(parts) + s == parts[0] + AfterFirst(parts, s)
  {
    if |parts| > 1 {
      assert parts[0] + "." + Join(parts[1..]) + s == parts[0] + ("." + (Join(parts[1..]) + s));
    }
  }

  /** A joined path followed by an arrow or a parenthesis tells its elements. */
  lemma {:induction false} PathCancels(a: seq<string>, b: seq<string>, s: string, t: string, g: Globals)
    requires Ready(g) && ArePrinted(a, g) && ArePrinted(b, g) && a != [] && b != [] && EndsPath(s) && EndsPath(t)
    requires Join(a) + s == Join(b) + t
    ensures a == b && s == t
    decreases |a|
  {
    hide Ready, IsPrinted, Join;
    JoinFirst(a, s);
    JoinFirst(b, t);
    var p, q := AfterFirst(a, s), AfterFirst(b, t);
    PartCancels(a[0], b[0], p, q, g);
    assert p[0] == q[0];
    if |a| > 1 && |b| > 1 {
      assert p[1..] == Join(a[1..]) + s && q[1..] == Join(b[1..]) + t;
      PathCancels(a[1..], b[1..], s, t, g);
      assert a == [a[0]] + a[1..] && b == [b[0]] + b[1..];
    }
  }

  // ----- an edge's ID -----

  function Arrow(srcArrow: bool, dstArrow: bool): string {
    if srcArrow && dstArrow then "<->" else if srcArrow then "<-" else if dstArrow then "->" else "--"
  }

  const ARROWS: set<string> := {"<->", "<-", "->", "--"}

  function Tail(dst: seq<string>, index: string): string {
    " " + (Join(dst) + (")[" + (index + "]")))
  }

  /** The ID with nothing in front. */
  function Shape(src: seq<string>, dst: seq<string>, arrow: string, index: string): string {
    if |src| > 1 && |dst| > 1 && EqualFold(src[0], dst[0]) then src[0] + ("." + Shape(src[1..], dst[1..], arrow, index))
    else "(" + (Join(src) + (" " + (arrow + Tail(dst, index))))
  }

  lemma {:induction false} EdgeIDIsShape(src: seq<string>, dst: seq<string>, common: string, arrow: string,
                                         index: string)
    ensures F.EdgeID(src, dst, common, arrow, index) == common + Shape(src, dst, arrow, index)
    decreases |src|
  {
    hide EqualFold;
    if |src| > 1 && |dst| > 1 && EqualFold(src[0], dst[0]) {
      EdgeIDIsShape(src[1..], dst[1..], common + src[0] + ".", arrow, index);
      var rest := Shape(src[1..], dst[1..], arrow, index);
      assert common + src[0] + "." + rest == common + (src[0] + ("." + rest));
    } else {
      assert common + "(" + Join(src) + " " + arrow + " " + Join(dst) + ")[" + index + "]" ==
             common + ("(" + (Join(src) + (" " + (arrow + (" " + (Join(dst) + (")[" + (index + "]"))))))));
    }
  }

  lemma ArrowCancels(a: string, b: string, s: string, t: string)
    requires a in ARROWS && b in ARROWS && a + (" " + s) == b + (" " + t)
    ensures a == b && s == t
  {
    var p, q := a + (" " + s), b + (" " + t);
    assert p[0] == a[0] && p[1] == a[1] && q[0] == b[0] && q[1] == b[1];
    assert |a| == 2 ==> p[2] == ' ';
    assert |b| == 2 ==> q[2] == ' ';
    SameSplit(a, b, " " + s, " " + t);
    assert (" " + s)[1..] == s && (" " + t)[1..] == t;
  }

  lemma ArrowEndsPath(arrow: string, s: string)
    requires arrow in ARROWS
    ensures EndsPath(" " + (arrow + s))
  {
  }

  lemma TailCancels(a: seq<string>, b: seq<string>, i: string, j: string, g: Globals)
    requires Ready(g) && ArePrinted(a, g) && ArePrinted(b, g) && a != [] && b != []
    requires Join(a) + (")[" + (i + "]")) == Join(b) + (")[" + (j + "]"))
    ensures a == b && i == j
  {
    hide Ready, Join, ArePrinted;
    PathCancels(a, b, ")[" + (i + "]"), ")[" + (j + "]"), g);
    SameSplit(")[", ")[", i + "]", j + "]");
    assert |i + "]"| == |j + "]"|;
    SameSplit(i, j, "]", "]");
  }

  lemma EndsCancel(a: seq<string>, b: seq<string>, arrow: string, i: string, a': seq<string>, b': seq<string>,
                   arrow': string, j: string, g: Globals)
    requires Ready(g) && ArePrinted(a, g) && ArePrinted(b, g) && ArePrinted(a', g) && ArePrinted(b', g)
    requires a != [] && b != [] && a' != [] && b' != [] && arrow in ARROWS && arrow' in ARROWS
    requires "(" + (Join(a) + (" " + (arrow + Tail(b, i)))) == "(" + (Join(a') + (" " + (arrow' + Tail(b', j))))
    ensures a == a' && b == b' && arrow == arrow' && i == j
  {
    hide Ready, Join, ArePrinted, EndsPath, ARROWS, Tail;
    var s, t := " " + (arrow + Tail(b, i)), " " + (arrow' + Tail(b', j));
    SameSplit("(", "(", Join(a) + s, Join(a') + t);
    ArrowEndsPath(arrow, Tail(b, i));
    ArrowEndsPath(arrow', Tail(b', j));
    PathCancels(a, a', s, t, g);
    SameSplit(" ", " ", arrow + Tail(b, i), arrow' + Tail(b', j));
    TailsCancel(arrow, b, i, arrow', b', j, g);
  }

  lemma TailsCancel(arrow: string, b: seq<string>, i: string, arrow': string, b': seq<string>, j: string, g: Globals)
    requires Ready(g) && ArePrinted(b, g) && ArePrinted(b', g) && b != [] && b' != [] && arrow in ARROWS
    requires arrow' in ARROWS
    requires arrow + Tail(b, i) == arrow' + Tail(b', j)
    ensures b == b' && arrow == arrow' && i == j
  {
    hide Ready, Join, ArePrinted, ARROWS;
    ArrowCancels(arrow, arrow', Join(b) + (")[" + (i + "]")), Join(b') + (")[" + (j + "]")));
    TailCancels(b, b', i, j, g);
  }

  /** Equal up to letter case, element by element. */
  predicate PathFolds(a: seq<string>, b: seq<string>) {
    |a| == |b| && forall i :: 0 <= i < |a| ==> EqualFold(a[i], b[i])
  }

  lemma FoldsSelf(a: seq<string>)
    ensures PathFolds(a, a)
  {
  }

  lemma FoldsMore(x: string, a: seq<string>, y: string, b: seq<string>)
    requires EqualFold(x, y) && PathFolds(a, b)
    ensures PathFolds([x] + a, [y] + b)
  {
    hide EqualFold;
  }

  /** Where one ID goes on with a shared container, so does the other. */
  lemma {:induction false} ShapeDecodes(a: seq<string>, b: seq<string>, arrow: string, i: string, a': seq<string>,
                                        b': seq<string>, arrow': string, j: string, g: Globals)
    requires Ready(g) && ArePrinted(a, g) && ArePrinted(b, g) && ArePrinted(a', g) && ArePrinted(b', g)
    requires a != [] && b != [] && a' != [] && b' != [] && arrow in ARROWS && arrow' in ARROWS
    requires Shape(a, b, arrow, i) == Shape(a', b', arrow', j)
    ensures a == a' && PathFolds(b, b') && arrow == arrow' && i == j
    decreases |a|
  {
    hide Ready, Join, IsPrinted, EqualFold, ARROWS, Tail;
    var shared := |a| > 1 && |b| > 1 && EqualFold(a[0], b[0]);
    var shared' := |a'| > 1 && |b'| > 1 && EqualFold(a'[0], b'[0]);
    PartStarts(a[0], g);
    PartStarts(a'[0], g);
    assert Shape(a, b, arrow, i)[0] == if shared then a[0][0] else '(';
    assert Shape(a', b', arrow', j)[0] == if shared' then a'[0][0] else '(';
    if shared {
      var s, t := Shape(a[1..], b[1..], arrow, i), Shape(a'[1..], b'[1..], arrow', j);
      PartCancels(a[0], a'[0], "." + s, "." + t, g);
      SameSplit(".", ".", s, t);
      ShapeDecodes(a[1..], b[1..], arrow, i, a'[1..], b'[1..], arrow', j, g);
      SharedFolds(a[0], b, b');
      assert a == [a[0]] + a[1..] && a' == [a'[0]] + a'[1..];
    } else {
      EndsCancel(a, b, arrow, i, a', b', arrow', j, g);
      FoldsSelf(b);
    }
  }

  lemma SharedFolds(x: string, b: seq<string>, b': seq<string>)
    requires b != [] && b' != [] && EqualFold(x, b[0]) && EqualFold(x, b'[0]) && PathFolds(b[1..], b'[1..])
    ensures PathFolds(b, b')
  {
    FoldsMore(b[0], b[1..], b'[0], b'[1..]);
    assert b == [b[0]] + b[1..] && b' == [b'[0]] + b'[1..];
  }

  // ----- the board -----

  lemma {:induction false} WayPrinted(p: F.Parents, o: F.Object, g: Globals)
    requires AllPrinted(p, g)
    ensures ArePrinted(F.AbsIDArray(p, o), g)
    decreases F.Depth(o)
  {
    hide Element;
    if o in p {
      WayPrinted(p, p[o], g);
      var name :| F.ID(o) == Element(name, g);
      assert IsPrinted(F.ID(o), g);
    }
  }

  /** Objects of one board whose IDs agree up to letter case all the way from the root are the same object. */
  lemma {:induction false} SameFolded(s: Store, g: nat, o: F.Object, x: F.Object)
    requires g in s.objects && Valid(s, g) && o in s.objects[g] && x in s.objects[g]
    requires PathFolds(F.AbsIDArray(s.parent, o), F.AbsIDArray(s.parent, x))
    ensures o == x
    decreases F.Depth(o)
  {
    hide Linked, Unique, Indexed, EqualFold;
    var p := s.parent;
    var a, b := F.AbsIDArray(p, p[o]), F.AbsIDArray(p, p[x]);
    LastFolds(a, F.ID(o), b, F.ID(x));
    RootNames(p, g);
    if p[o] in s.objects[g] && p[x] in s.objects[g] {
      SameFolded(s, g, p[o], p[x]);
    }
    KnownChild(s, o);
    KnownChild(s, x);
    SameKey(s, p[o], o, x);
  }

  lemma LastFolds(a: seq<string>, x: string, b: seq<string>, y: string)
    requires PathFolds(a + [x], b + [y])
    ensures PathFolds(a, b) && EqualFold(x, y)
  {
    hide EqualFold;
    var p, q := a + [x], b + [y];
    assert |p| == |q| && p[|a|] == x && q[|b|] == y;
    assert forall i :: 0 <= i < |a| ==> p[i] == a[i] && q[i] == b[i];
  }

  lemma SameKey(s: Store, parent: F.Object, o: F.Object, x: F.Object)
    requires Linked(s) && parent in s.childList && o in s.childList[parent] && x in s.childList[parent]
    requires EqualFold(F.ID(o), F.ID(x))
    ensures o == x
  {
    hide Linked, Unique;
    KnownList(s, parent);
    assert F.Key(o) == F.Key(x);
  }

  /** Both ends and both arrowheads agree, read in either direction. */
  predicate IsEquivalent(e: F.Edge, src: F.Object, srcArrow: bool, dst: F.Object, dstArrow: bool) {
    || (e.src == src && e.dst == dst && e.arrow == Arrow(srcArrow, dstArrow))
    || (e.src == dst && e.dst == src && e.arrow == Arrow(dstArrow, srcArrow))
  }

  function Equivalents(edges: seq<F.Edge>, src: F.Object, srcArrow: bool, dst: F.Object, dstArrow: bool): nat {
    if edges == [] then 0
    else
      Equivalents(edges[..|edges| - 1], src, srcArrow, dst, dstArrow) +
      (if IsEquivalent(edges[|edges| - 1], src, srcArrow, dst, dstArrow) then 1 else 0)
  }

  method InitIndex(edges: seq<F.Edge>, src: F.Object, srcArrow: bool, dst: F.Object, dstArrow: bool)
        returns (index: nat)
    ensures index == Equivalents(edges, src, srcArrow, dst, dstArrow)
  {
    index := 0;
    for i := 0 to |edges|
      invariant index == Equivalents(edges[..i], src, srcArrow, dst, dstArrow)
    {
      assert edges[..i + 1][..i] == edges[..i];
      if IsEquivalent(edges[i], src, srcArrow, dst, dstArrow) {
        index := index + 1;
      }
    }
    assert edges[..|edges|] == edges;
  }

  /** Each edge's index counts the equivalent edges before it. */
  ghost predicate Numbered(edges: seq<F.Edge>) {
    forall i :: 0 <= i < |edges| ==> NumberedAt(edges, i)
  }

  ghost predicate NumberedAt(edges: seq<F.Edge>, i: nat)
    requires i < |edges|
  {
    exists srcArrow, dstArrow ::
      && edges[i].arrow == Arrow(srcArrow, dstArrow)
      && edges[i].index == Itoa(Equivalents(edges[..i], edges[i].src, srcArrow, edges[i].dst, dstArrow))
  }

  /** A new edge of graph g gets the next index and leaves the others theirs. */
  method Connect(a: Arena, g: nat, number: nat, src: F.Object, srcArrow: bool, dst: F.Object, dstArrow: bool)
    requires g in a.edges && Numbered(a.edges[g])
    modifies a`edges
    ensures g in a.edges && Numbered(a.edges[g]) && |a.edges[g]| == |old(a.edges[g])| + 1
    ensures a.edges == old(a.edges)[g := a.edges[g]] && a.edges[g][..|old(a.edges[g])|] == old(a.edges[g])
    ensures var e := a.edges[g][|old(a.edges[g])|];
            e.src == src && e.dst == dst && e.arrow == Arrow(srcArrow, dstArrow) && e.number == number
  {
    hide Equivalents, Itoa, Arrow;
    var edges := a.edges[g];
    var index := InitIndex(edges, src, srcArrow, dst, dstArrow);
    var edges' := edges + [F.Edge(number, src, dst, Arrow(srcArrow, dstArrow), Itoa(index))];
    forall i | 0 <= i < |edges'|
      ensures NumberedAt(edges', i)
    {
      if i < |edges| {
        assert NumberedAt(edges, i) && edges'[..i] == edges[..i];
      } else {
        assert edges'[..i] == edges;
      }
    }
    a.edges := a.edges[g := edges'];
  }

  lemma ArrowTells(a: bool, b: bool, c: bool, d: bool)
    requires Arrow(a, b) == Arrow(c, d)
    ensures a == c && b == d
  {
    assert Arrow(a, b)[0] == Arrow(c, d)[0] && Arrow(a, b)[1] == Arrow(c, d)[1];
  }

  /** Going on in the list, the count of equivalent edges never falls, and grows past an equivalent edge. */
  lemma {:induction false} CountGrows(edges: seq<F.Edge>, i: nat, j: nat, src: F.Object, srcArrow: bool, dst: F.Object,
                                      dstArrow: bool)
    requires i < j <= |edges| && IsEquivalent(edges[i], src, srcArrow, dst, dstArrow)
    ensures Equivalents(edges[..i], src, srcArrow, dst, dstArrow) <
            Equivalents(edges[..j], src, srcArrow, dst, dstArrow)
    decreases j
  {
    hide IsEquivalent;
    assert edges[..j][..j - 1] == edges[..j - 1];
    if i < j - 1 {
      CountGrows(edges, i, j - 1, src, srcArrow, dst, dstArrow);
    }
  }

  /** Two edges with one index are not alike. */
  lemma SameIndexDiffers(edges: seq<F.Edge>, i: nat, j: nat)
    requires Numbered(edges) && i < j < |edges|
    ensures !(edges[i].src == edges[j].src && edges[i].dst == edges[j].dst && edges[i].arrow == edges[j].arrow &&
              edges[i].index == edges[j].index)
  {
    hide Equivalents, Itoa, Arrow;
    var e, f := edges[i], edges[j];
    assert NumberedAt(edges, i) && NumberedAt(edges, j);
    if e.src == f.src && e.dst == f.dst && e.arrow == f.arrow {
      var a, b :| e.arrow == Arrow(a, b) && e.index == Itoa(Equivalents(edges[..i], e.src, a, e.dst, b));
      var c, d :| f.arrow == Arrow(c, d) && f.index == Itoa(Equivalents(edges[..j], f.src, c, f.dst, d));
      ArrowTells(a, b, c, d);
      CountGrows(edges, i, j, e.src, a, e.dst, b);
      if e.index == f.index {
        ItoaInjective(Equivalents(edges[..i], e.src, a, e.dst, b), Equivalents(edges[..j], f.src, c, f.dst, d));
      }
    }
  }

  predicate BetweenObjects(s: Store, g: nat)
    requires g in s.objects && g in s.edges
  {
    forall e :: e in s.edges[g] ==> e.src in s.objects[g] && e.dst in s.objects[g]
  }

  /** Edges with one absolute ID have the same ends, arrows and index. */
  lemma SameEdgeID(s: Store, g: nat, e: F.Edge, f: F.Edge, globals: Globals)
    requires Ready(globals) && AllPrinted(s.parent, globals) && g in s.objects && g in s.edges && Valid(s, g)
    requires e.src in s.objects[g] && e.dst in s.objects[g] && f.src in s.objects[g] && f.dst in s.objects[g]
    requires e.arrow in ARROWS && f.arrow in ARROWS && F.EdgeAbsID(s.parent, e) == F.EdgeAbsID(s.parent, f)
    ensures e.src == f.src && e.dst == f.dst && e.arrow == f.arrow && e.index == f.index
  {
    hide Ready, AllPrinted, ARROWS, Linked, Unique, ArePrinted, Shape, PathFolds;
    var p := s.parent;
    var a, b, a', b' := F.AbsIDArray(p, e.src), F.AbsIDArray(p, e.dst), F.AbsIDArray(p, f.src), F.AbsIDArray(p, f.dst);
    EdgeIDIsShape(a, b, "", e.arrow, e.index);
    EdgeIDIsShape(a', b', "", f.arrow, f.index);
    WayPrinted(p, e.src, globals);
    WayPrinted(p, e.dst, globals);
    WayPrinted(p, f.src, globals);
    WayPrinted(p, f.dst, globals);
    RootNames(p, g);
    assert "" + Shape(a, b, e.arrow, e.index) == Shape(a, b, e.arrow, e.index);
    assert "" + Shape(a', b', f.arrow, f.index) == Shape(a', b', f.arrow, f.index);
    ShapeDecodes(a, b, e.arrow, e.index, a', b', f.arrow, f.index, globals);
    SameWay(s, g, e.src, f.src);
    SameFolded(s, g, e.dst, f.dst);
  }

  /** On a board of printed names whose edges were connected one by one, all absolute edge IDs differ. */
  lemma NumberedIdentifies(s: Store, g: nat, globals: Globals)
    requires Ready(globals) && AllPrinted(s.parent, globals) && g in s.objects && g in s.edges && Valid(s, g)
    requires BetweenObjects(s, g) && Numbered(s.edges[g])
    ensures EdgesIdentified(s.parent, s.edges[g])
  {
    hide Ready, AllPrinted, Linked, Unique, NumberedAt;
    var p, edges := s.parent, s.edges[g];
    forall i, j | 0 <= i < j < |edges|
      ensures F.EdgeAbsID(p, edges[i]) != F.EdgeAbsID(p, edges[j])
    {
      if F.EdgeAbsID(p, edges[i]) == F.EdgeAbsID(p, edges[j]) {
        NumberedArrow(edges, i);
        NumberedArrow(edges, j);
        SameEdgeID(s, g, edges[i], edges[j], globals);
        SameIndexDiffers(edges, i, j);
      }
    }
  }

  lemma NumberedArrow(edges: seq<F.Edge>, i: nat)
    requires Numbered(edges) && i < |edges|
    ensures edges[i].arrow in ARROWS
  {
    assert NumberedAt(edges, i);
  }
}

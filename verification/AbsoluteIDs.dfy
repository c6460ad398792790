/** Printed IDs identify the objects of a board, as sorting and re-connecting by absolute ID assume. */
module AbsoluteIDs {
  import opened KeyPath
  import opened KeyPathScan
  import opened Lists
  import F = Forest
  import opened Extraction
  import opened ExtractionSteps
  import opened ExtractionOrder

  /** The object's ID is the printed form of some name, as every new object's is. */
  ghost predicate Printed(o: F.Object, g: Globals) {
    exists name :: F.ID(o) == Element(name, g)
  }

  ghost predicate AllPrinted(p: F.Parents, g: Globals) {
    forall o :: o in p ==> Printed(o, g)
  }

  ghost function NameOf(o: F.Object, g: Globals): (name: string)
    requires Printed(o, g)
    ensures F.ID(o) == Element(name, g)
  {
    var name :| F.ID(o) == Element(name, g);
    name
  }

  ghost function NamesOf(p: F.Parents, o: F.Object, g: Globals): seq<string>
    requires AllPrinted(p, g)
    decreases F.Depth(o)
  {
    if o in p then NamesOf(p, p[o], g) + [NameOf(o, g)] else []
  }

  lemma {:induction false} IDsArePrinted(p: F.Parents, o: F.Object, g: Globals)
    requires AllPrinted(p, g)
    ensures F.AbsIDArray(p, o) == Elements(NamesOf(p, o, g), g)
    decreases F.Depth(o)
  {
    hide Element;
    if o in p {
      IDsArePrinted(p, p[o], g);
      assert Elements(NamesOf(p, o, g), g) == Elements(NamesOf(p, p[o], g), g) + [F.ID(o)];
    }
  }

  lemma PrintedNonempty(o: F.Object, g: Globals)
    requires Ready(g) && Printed(o, g)
    ensures F.ID(o) != ""
  {
    hide Element, ScanElement, Canonical;
    ScanPrinted(NameOf(o, g), "", g);
  }

  /** Below the root, whose ID is empty, the absolute ID is the key path of the names on the way. */
  lemma {:induction false} AbsIDJoins(p: F.Parents, o: F.Object, g: Globals)
    requires Ready(g) && AllPrinted(p, g) && o in p
    requires forall x :: x in p ==> p[x].Root? || p[x] in p
    ensures F.AbsID(p, o) == Join(F.AbsIDArray(p, o))
    decreases F.Depth(o)
  {
    hide Ready, Printed;
    if p[o].Root? {
      assert F.AbsIDArray(p, o) == [F.ID(o)];
    } else {
      AbsIDJoins(p, p[o], g);
      PrintedNonempty(p[o], g);
      JoinAppend(F.AbsIDArray(p, p[o]), F.ID(o));
    }
  }

  lemma SamePrinted(a: seq<string>, b: seq<string>, g: Globals)
    requires Ready(g) && Join(Elements(a, g)) == Join(Elements(b, g))
    ensures Elements(a, g) == Elements(b, g)
  {
    hide Element, Ready, SameName, Canonical;
    PrintedAlike(a, b, g);
    forall i | 0 <= i < |a|
      ensures Elements(a, g)[i] == Elements(b, g)[i]
    {
      CanonicalSame(a[i], b[i], g);
    }
  }

  /** Objects of one board with the same IDs on the way from the root are the same object. */
  lemma {:induction false} SameWay(s: Store, g: nat, o: F.Object, x: F.Object)
    requires g in s.objects && Valid(s, g) && o in s.objects[g] && x in s.objects[g]
    requires F.AbsIDArray(s.parent, o) == F.AbsIDArray(s.parent, x)
    ensures o == x
    decreases F.Depth(o)
  {
    hide Linked, Unique, Indexed;
    var p := s.parent;
    var a, b := F.AbsIDArray(p, p[o]), F.AbsIDArray(p, p[x]);
    assert a + [F.ID(o)] == b + [F.ID(x)];
    LastSame(a, F.ID(o), b, F.ID(x));
    RootNames(p, g);
    if p[o] in s.objects[g] && p[x] in s.objects[g] {
      SameWay(s, g, p[o], p[x]);
    }
    KnownChild(s, o);
    KnownChild(s, x);
    SiblingIDs(s, p[o]);
    SameSibling(s, p[o], o, x);
  }

  lemma RootNames(p: F.Parents, g: nat)
    ensures F.AbsIDArray(p, F.Root(g)) == []
    ensures forall o :: o in p ==> F.AbsIDArray(p, o) != []
  {
  }

  lemma LastSame(a: seq<string>, x: string, b: seq<string>, y: string)
    requires a + [x] == b + [y]
    ensures a == b && x == y
  {
    assert |a + [x]| == |b + [y]|;
    assert (a + [x])[..|a|] == a && (b + [y])[..|b|] == b;
    assert (a + [x])[|a|] == x && (b + [y])[|b|] == y;
  }

  lemma SameSibling(s: Store, parent: F.Object, o: F.Object, x: F.Object)
    requires Linked(s) && parent in s.childList && o in s.childList[parent] && x in s.childList[parent]
    requires F.ID(o) == F.ID(x)
    ensures o == x
  {
    hide Linked, Unique;
    KnownList(s, parent);
    assert F.Key(o) == F.Key(x);
  }

  /** On a board whose IDs are printed names, absolute IDs are distinct: the assumption of every lookup by ID. */
  lemma PrintedIdentifies(s: Store, g: nat, globals: Globals)
    requires Ready(globals) && AllPrinted(s.parent, globals)
    requires g in s.objects && Valid(s, g)
    requires forall o :: o in s.parent ==> s.parent[o].Root? || s.parent[o] in s.parent
    ensures Identified(s.parent, s.objects[g])
  {
    hide Ready, AllPrinted, Linked;
    var p, list := s.parent, s.objects[g];
    forall i, j | 0 <= i < j < |list|
      ensures F.AbsID(p, list[i]) != F.AbsID(p, list[j])
    {
      AbsIDJoins(p, list[i], globals);
      AbsIDJoins(p, list[j], globals);
      IDsArePrinted(p, list[i], globals);
      IDsArePrinted(p, list[j], globals);
      if F.AbsID(p, list[i]) == F.AbsID(p, list[j]) {
        SamePrinted(NamesOf(p, list[i], globals), NamesOf(p, list[j], globals), globals);
        SameWay(s, g, list[i], list[j]);
      }
    }
  }
}

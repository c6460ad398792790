/** Saved orders put lists that were shuffled back as they stood. */
module ExtractionOrder {
  import opened Lists
  import opened Forest
  import opened Extraction
  import opened ExtractionSteps
  import opened ExtractionBatch
  import opened ExtractionRollback

  /** Sorting by saved place; an unknown ID counts as the first. */
  function ByID(p: Parents, order: map<string, nat>): Object -> nat {
    o => if AbsID(p, o) in order then order[AbsID(p, o)] else 0
  }

  predicate Identified(p: Parents, list: seq<Object>) {
    forall i, j :: 0 <= i < j < |list| ==> AbsID(p, list[i]) != AbsID(p, list[j])
  }

  lemma {:induction false} OrderHas(p: Parents, list: seq<Object>, i: nat)
    requires Identified(p, list) && i < |list|
    ensures AbsID(p, list[i]) in OrderOf(p, list) && OrderOf(p, list)[AbsID(p, list[i])] == i
  {
    hide AbsID;
    var n := |list| - 1;
    if i < n {
      OrderHas(p, list[..n], i);
      assert list[..n][i] == list[i];
    }
  }

  /** What is left of a list, in the order of the list, ascends by its saved places. */
  lemma OrderAscends(p: Parents, q: Parents, list: seq<Object>, keep: Object -> bool)
    requires Identified(p, list)
    requires forall o :: o in Filter(list, keep) ==> AbsID(q, o) == AbsID(p, o)
    ensures Ascending(Filter(list, keep), ByID(q, OrderOf(p, list)))
  {
    hide AbsID, Filter, OrderOf;
    var rank := ByID(p, OrderOf(p, list));
    forall i, j | 0 <= i < j < |list|
      ensures rank(list[i]) < rank(list[j])
    {
      OrderHas(p, list, i);
      OrderHas(p, list, j);
    }
    FilterOrdered(list, keep, rank);
    var kept := Filter(list, keep);
    forall i, j | 0 <= i < j < |kept|
      ensures ByID(q, OrderOf(p, list))(kept[i]) < ByID(q, OrderOf(p, list))(kept[j])
    {
      assert kept[i] in kept && kept[j] in kept;
      assert rank(kept[i]) < rank(kept[j]);
    }
  }

  lemma Suffix(a: string, x: string, y: string)
    requires a + x == a + y
    ensures x == y
  {
    assert (a + x)[|a|..] == x && (a + y)[|a|..] == y;
  }

  /** The children of one container never share an absolute ID. */
  lemma SiblingIDs(s: Store, o: Object)
    requires Linked(s) && o in s.childList
    ensures Identified(s.parent, s.childList[o])
  {
    hide Linked;
    var list := s.childList[o];
    KnownList(s, o);
    ChildOf(s, o);
    forall i, j | 0 <= i < j < |list|
      ensures AbsID(s.parent, list[i]) != AbsID(s.parent, list[j])
    {
      assert list[i] in list && list[j] in list;
      assert s.children[o][Key(list[i])] == list[i] && s.children[o][Key(list[j])] == list[j];
      assert ID(list[i]) != ID(list[j]);
      if AbsID(s.parent, list[i]) == AbsID(s.parent, list[j]) && ID(o) != "" {
        Suffix(AbsID(s.parent, o) + ".", ID(list[i]), ID(list[j]));
      }
    }
  }

  lemma KnownList(s: Store, o: Object)
    requires Linked(s) && o in s.childList
    ensures o in s.children && Indexed(s.childList[o], s.children[o])
  {
  }

  // ----- child lists -----

  predicate InOrder(s: Store, specs: seq<Spec>, out: set<nat>, o: Object, lists: map<Object, seq<Object>>)
    requires o in s.childList
  {
    o in lists && lists[o] == Filter(s.childList[o], StaysIn(s.parent, specs, out))
  }

  /** A child left in the list of a parent that is not extracted is not extracted either. */
  lemma LeftRemains(s: Store, specs: seq<Spec>, out: set<nat>, o: Object, x: Object)
    requires Linked(s) && Antichain(s.parent, specs) && o in s.childList && Owner(s.parent, specs, o) == |specs|
    requires x in Filter(s.childList[o], StaysIn(s.parent, specs, out))
    ensures Remains(s.parent, specs, out, x)
  {
    hide Linked, Antichain, Owner, IsTop;
    FilterHas(s.childList[o], StaysIn(s.parent, specs, out), x);
    ChildOf(s, o);
    if !Remains(s.parent, specs, out, x) {
      ParentOwned(s.parent, specs, x);
    }
  }

  /** Sorting the children of a parent that lost some by their saved places restores their order. */
  lemma RestoreList(s: Store, g: nat, specs: seq<Spec>, out: set<nat>, saved: SavedOrder,
                    lists: map<Object, seq<Object>>)
    requires g in s.objects && Valid(s, g) && Fits(s, g, specs)
    requires IsSaved(s, specs, |specs|, saved) && ListBack(s, specs, out, saved.container, lists)
    ensures var now := ParentsWithout(s.parent, specs, out, s.next);
            InOrder(s, specs, out, saved.container,
                    lists[saved.container := SortStable(lists[saved.container], ByID(now, saved.order))])
  {
    hide Linked, Listed, Antichain, ByID, SortStable, Filter, ParentsWithout, Owner, AbsID, OrderOf, Identified, Stays;
    var o := saved.container;
    var now := ParentsWithout(s.parent, specs, out, s.next);
    var i :| 0 <= i < |specs| && IsSelfParent(s.parent, specs[i], o);
    RestoreIntoParent(s, g, specs, i, o);
    SiblingIDs(s, o);
    var left := Filter(s.childList[o], StaysIn(s.parent, specs, out));
    forall x | x in left
      ensures AbsID(now, x) == AbsID(s.parent, x)
    {
      LeftRemains(s, specs, out, o, x);
      AbsIDKept(s.parent, specs, out, s.next, x);
    }
    OrderAscends(s.parent, now, s.childList[o], StaysIn(s.parent, specs, out));
    SortRestores(lists[o], left, ByID(now, saved.order));
  }

  lemma RestoreIntoParent(s: Store, g: nat, specs: seq<Spec>, i: nat, o: Object)
    requires g in s.objects && Valid(s, g) && Fits(s, g, specs) && i < |specs| && IsSelfParent(s.parent, specs[i], o)
    ensures Owner(s.parent, specs, o) == |specs|
  {
    hide Linked, Antichain, Owner, Unique;
    IntoRemains(s, g, specs, i);
  }

  lemma OrderStep(s: Store, g: nat, specs: seq<Spec>, out: set<nat>, saved: seq<SavedOrder>, j: nat,
                  lists: map<Object, seq<Object>>)
    requires g in s.objects && Valid(s, g) && Fits(s, g, specs)
    requires OrdersSaved(s, specs, |specs|, saved) && j < |saved| && ListsBack(s, specs, out, lists)
    requires forall i :: 0 <= i < j ==>
             saved[i].container in s.childList &&
             InOrder(s, specs, out, saved[i].container, lists)
    ensures saved[j].container in lists
    ensures var o := saved[j].container;
            var next := lists[o := SortStable(lists[o], ByID(ParentsWithout(s.parent, specs, out, s.next),
                                                             saved[j].order))];
            && ListsBack(s, specs, out, next)
            && forall i :: 0 <= i <= j ==>
               saved[i].container in s.childList &&
               InOrder(s, specs, out, saved[i].container, next)
  {
    hide Valid, Fits, ByID, SortStable, Filter, ParentsWithout, OrderOf, Shuffled, Tops, StaysIn;
    var o := saved[j].container;
    assert IsSaved(s, specs, |specs|, saved[j]) && ListBack(s, specs, out, o, lists);
    RestoreList(s, g, specs, out, saved[j], lists);
    var next := lists[o := SortStable(lists[o], ByID(ParentsWithout(s.parent, specs, out, s.next), saved[j].order))];
    forall x | x in s.childList
      ensures ListBack(s, specs, out, x, next)
    {
      assert ListBack(s, specs, out, x, lists);
    }
    OldRoots(s, g);
    forall i: nat | i in out && i < |specs|
      ensures TopsBack(s, specs, i, next)
    {
      assert TopsBack(s, specs, i, lists);
    }
  }

  lemma OldRoots(s: Store, g: nat)
    requires Valid(s, g)
    ensures forall i: nat {:trigger Root(s.next + i)} :: Root(s.next + i) !in s.childList
  {
  }

  /** Once every saved order is restored, every child list is in order. */
  lemma AllInOrder(s: Store, specs: seq<Spec>, out: set<nat>, saved: seq<SavedOrder>, lists: map<Object, seq<Object>>,
                   o: Object)
    requires OrdersSaved(s, specs, |specs|, saved) && ListsBack(s, specs, out, lists)
    requires forall i :: 0 <= i < |saved| ==>
             saved[i].container in s.childList &&
             InOrder(s, specs, out, saved[i].container, lists)
    requires o in s.childList
    ensures InOrder(s, specs, out, o, lists)
  {
    hide Filter, StaysIn, Tops, OrderOf;
    assert ListBack(s, specs, out, o, lists);
    if Shuffled(s, specs, o) {
      var i :| 0 <= i < |specs| && IsSelfParent(s.parent, specs[i], o);
      var j :| 0 <= j < |saved| && saved[j].container == o;
    }
  }

  // ----- agreement with the sequential form -----

  predicate SameElements<T(==)>(a: seq<T>, b: seq<T>, anyOrder: bool) {
    a == b || (anyOrder && multiset(a) == multiset(b))
  }

  /** Whatever `u` holds, `t` holds too; only the lists of graph g may stand in another order. */
  predicate SameUpToOrder(u: Store, t: Store, g: nat) {
    && t.parent == u.parent
    && (forall o :: o in u.childList ==> o in t.childList && t.childList[o] == u.childList[o])
    && (forall o :: o in u.children ==> o in t.children && t.children[o] == u.children[o])
    && (forall o :: o in u.graph ==> o in t.graph && t.graph[o] == u.graph[o])
    && (forall n :: n in u.objects ==> n in t.objects && SameElements(t.objects[n], u.objects[n], n == g))
    && (forall n :: n in u.edges ==> n in t.edges && SameElements(t.edges[n], u.edges[n], n == g))
  }

  lemma SameListsBack(s: Store, specs: seq<Spec>, k: nat, a: map<Object, seq<Object>>, b: map<Object, seq<Object>>)
    requires k <= |specs| && ListsAt(s, specs, k, k, a) && ListsBack(s, specs, Below(k), b)
    requires forall o :: o in s.childList ==> InOrder(s, specs, Below(k), o, b)
    ensures forall o :: o in a ==> o in b && b[o] == a[o]
  {
    hide Filter, StaysIn, Tops, Shuffled;
    forall o | o in a
      ensures o in b && b[o] == a[o]
    {
      if o !in s.childList {
        var i := o.board - s.next;
        assert RootList(s, specs, k, i, a) && TopsBack(s, specs, i, b);
        assert o == Root(s.next + i);
      } else {
        assert InOrder(s, specs, Below(k), o, b);
      }
    }
  }

  lemma SameMapsBack(s: Store, specs: seq<Spec>, k: nat, a: map<Object, map<string, Object>>,
                     b: map<Object, map<string, Object>>)
    requires k <= |specs| && MapsAt(s, specs, k, k, a) && MapsBack(s, specs, Below(k), b)
    ensures forall o :: o in a ==> o in b && b[o] == a[o]
  {
    hide Staying, StaysIn, TopMap;
    forall o | o in a
      ensures o in b && b[o] == a[o]
    {
      if o !in s.children {
        var i := o.board - s.next;
        assert RootMap(s, specs, k, i, a) && TopMapBack(s, specs, i, b);
        assert o == Root(s.next + i);
      }
    }
  }

  lemma SameGraphBack(s: Store, g: nat, specs: seq<Spec>, k: nat, a: map<Object, nat>, b: map<Object, nat>)
    requires g in s.objects && k <= |specs| && GraphAt(s, g, specs, k, k, a) && GraphBack(s, g, specs, Below(k), b)
    ensures forall o :: o in a ==> o in b && b[o] == a[o]
  {
    hide OwnedGraph;
    forall o | o in a
      ensures o in b && b[o] == a[o]
    {
      if o !in s.graph {
        var i := o.board - s.next;
        assert RootBack(s, i, b);
        assert o == Root(s.next + i);
      }
    }
  }

  lemma SameObjectLists(s: Store, g: nat, specs: seq<Spec>, k: nat, a: map<nat, seq<Object>>, b: map<nat, seq<Object>>)
    requires g in s.objects && k <= |specs| && ObjectsAt(s, g, specs, k, a) && ObjectsBack(s, g, specs, Below(k), b)
    ensures forall n :: n in a ==> n in b && SameElements(b[n], a[n], n == g)
  {
    hide Filter, NotOut;
    forall n | n in a
      ensures n in b && SameElements(b[n], a[n], n == g)
    {
      if n !in s.objects {
        assert NewObjects(s, g, specs, n - s.next, a) && NewObjects(s, g, specs, n - s.next, b);
      }
    }
  }

  lemma SameEdgeLists(s: Store, g: nat, specs: seq<Spec>, k: nat, a: map<nat, seq<Edge>>, b: map<nat, seq<Edge>>)
    requires g in s.edges && k <= |specs| && EdgesAt(s, g, specs, k, a) && EdgesBack(s, g, specs, Below(k), b)
    ensures forall n :: n in a ==> n in b && SameElements(b[n], a[n], n == g)
  {
    hide Filter, Untouched;
    forall n | n in a
      ensures n in b && SameElements(b[n], a[n], n == g)
    {
      if n !in s.edges {
        assert NewEdges(s, g, specs, n - s.next, a) && NewEdges(s, g, specs, n - s.next, b);
      }
    }
  }

  /** The state after a rollback is the state of the sequential form stopped after k diagrams. */
  lemma RolledBackIsSequential(s: Store, g: nat, specs: seq<Spec>, k: nat, t: Store, u: Store)
    requires g in s.objects && g in s.edges && k <= |specs| && Extracted(s, g, specs, k, u)
    requires Back(s, g, specs, Below(k), t) && forall o :: o in s.childList ==>
             InOrder(s, specs, Below(k), o, t.childList)
    ensures SameUpToOrder(u, t, g)
  {
    hide ListsAt, MapsAt, GraphAt, ObjectsAt, EdgesAt, ListsBack, MapsBack, GraphBack, ObjectsBack, EdgesBack,
      ParentsWithout, InOrder;
    SameListsBack(s, specs, k, u.childList, t.childList);
    SameMapsBack(s, specs, k, u.children, t.children);
    SameGraphBack(s, g, specs, k, u.graph, t.graph);
    SameObjectLists(s, g, specs, k, u.objects, t.objects);
    SameEdgeLists(s, g, specs, k, u.edges, t.edges);
  }

  // ----- whole boards -----

  /** Last place of each edge's absolute ID. */
  function EdgeOrderOf(p: Parents, list: seq<Edge>): map<string, nat> {
    if list == [] then map[] else EdgeOrderOf(p, list[..|list| - 1])[EdgeAbsID(p, list[|list| - 1]) := |list| - 1]
  }

  /** Sorting edges by saved place; edges without one go last. */
  function EdgeByID(p: Parents, order: map<string, nat>, size: nat): Edge -> nat {
    e => if EdgeAbsID(p, e) in order then order[EdgeAbsID(p, e)] else size
  }

  predicate EdgesIdentified(p: Parents, list: seq<Edge>) {
    forall i, j :: 0 <= i < j < |list| ==> EdgeAbsID(p, list[i]) != EdgeAbsID(p, list[j])
  }

  lemma {:induction false} EdgeOrderHas(p: Parents, list: seq<Edge>, i: nat)
    requires EdgesIdentified(p, list) && i < |list|
    ensures EdgeAbsID(p, list[i]) in EdgeOrderOf(p, list) && EdgeOrderOf(p, list)[EdgeAbsID(p, list[i])] == i
  {
    hide EdgeAbsID;
    var n := |list| - 1;
    if i < n {
      EdgeOrderHas(p, list[..n], i);
      assert list[..n][i] == list[i];
    }
  }

  lemma EdgeOrderAscends(p: Parents, list: seq<Edge>, size: nat)
    requires EdgesIdentified(p, list)
    ensures Ascending(list, EdgeByID(p, EdgeOrderOf(p, list), size))
  {
    hide EdgeAbsID, EdgeOrderOf;
    forall i, j | 0 <= i < j < |list|
      ensures EdgeByID(p, EdgeOrderOf(p, list), size)(list[i]) < EdgeByID(p, EdgeOrderOf(p, list), size)(list[j])
    {
      EdgeOrderHas(p, list, i);
      EdgeOrderHas(p, list, j);
    }
  }

  /** Every pointer and every list of `s` is in `t` as it was. */
  predicate SameBoard(s: Store, t: Store) {
    && t.parent == s.parent
    && (forall o :: o in s.childList ==> o in t.childList && t.childList[o] == s.childList[o])
    && (forall o :: o in s.children ==> o in t.children && t.children[o] == s.children[o])
    && (forall o :: o in s.graph ==> o in t.graph && t.graph[o] == s.graph[o])
    && (forall n :: n in s.objects ==> n in t.objects && t.objects[n] == s.objects[n])
    && (forall n :: n in s.edges ==> n in t.edges && t.edges[n] == s.edges[n])
  }

  /** The shuffled lists of the board have the elements they had, so sorting by saved place restores them. */
  lemma ListingsRestored(s: Store, g: nat, specs: seq<Spec>, t: Store, size: nat)
    requires g in s.objects && g in s.edges && Back(s, g, specs, {}, t)
    requires Identified(s.parent, s.objects[g]) && EdgesIdentified(s.parent, s.edges[g])
    ensures SortStable(t.objects[g], ByID(t.parent, OrderOf(s.parent, s.objects[g]))) == s.objects[g]
    ensures SortStable(t.edges[g], EdgeByID(t.parent, EdgeOrderOf(s.parent, s.edges[g]), size)) == s.edges[g]
  {
    hide Filter, ListsBack, MapsBack, GraphBack, Owner, ByID, OrderOf, EdgeByID, EdgeOrderOf, Identified,
      EdgesIdentified, SortStable, Ascending;
    assert t.parent == s.parent;
    FilterAll(s.objects[g], NotOut(s.parent, specs, {}));
    FilterAll(s.edges[g], Untouched(s.parent, specs, {}));
    OrderAscends(s.parent, s.parent, s.objects[g], NotOut(s.parent, specs, {}));
    SortRestores(t.objects[g], s.objects[g], ByID(s.parent, OrderOf(s.parent, s.objects[g])));
    EdgeOrderAscends(s.parent, s.edges[g], size);
    SortRestores(t.edges[g], s.edges[g], EdgeByID(s.parent, EdgeOrderOf(s.parent, s.edges[g]), size));
  }
}

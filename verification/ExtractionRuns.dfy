/** The promises of extraction over whole runs: the fast form is the simple one, and putting back undoes taking out. */
module ExtractionRuns {
  import opened Lists
  import opened Forest
  import opened Extraction
  import opened ExtractionSteps
  import opened ExtractionBatch
  import opened ExtractionRollback
  import opened ExtractionOrder
  import opened Layouts

  /**
   The batched form on one arena and the sequential form on another that starts alike: the same final state, the same
   external edges and the same IDs.
   */
  method BatchIsSequential(a: Arena, b: Arena, g: nat, specs: seq<Spec>)
      returns (batched: seq<Nested>, external: seq<seq<Edge>>, ids: seq<seq<(string, string)>>)
    requires a != b && a.Now() == b.Now()
    requires g in a.objects && g in a.edges && Valid(a.Now(), g) && Fits(a.Now(), g, specs)
    modifies a, b
    ensures a.Now() == b.Now()
    ensures |batched| == |external| == |ids| == |specs|
    ensures forall i :: 0 <= i < |specs| ==> batched[i].graph == old(a.next) + i
    ensures forall i :: 0 <= i < |specs| ==> batched[i].externalEdges == external[i] && batched[i].externalIDs == ids[i]
    ensures forall i :: 0 <= i < |specs| ==> |ids[i]| == |external[i]|
    ensures forall i, j :: 0 <= i < |specs| && 0 <= j < |ids[i]| ==>
                             ids[i][j].0 == AbsID(old(a.parent), external[i][j].src) &&
                             ids[i][j].1 == AbsID(old(a.parent), external[i][j].dst)
  {
    hide Valid, Fits, Extracted, AllNested, OrdersSaved, Filter, ExternalTo, AbsID;
    ghost var s := a.Now();
    var saved;
    batched, saved := a.ExtractSubgraphs(g, specs);
    external, ids := b.ExtractInOrder(g, specs, |specs|);
    ExtractedOnce(s, g, specs, |specs|, a.Now(), b.Now());
    forall i | 0 <= i < |specs|
      ensures batched[i].graph == s.next + i
      ensures batched[i].externalEdges == external[i] && batched[i].externalIDs == ids[i]
    {
      NestedResult(s, specs, s.edges[g], batched, i);
      EndIDsOnce(s.parent, external[i], batched[i].externalIDs, ids[i]);
    }
  }

  lemma NestedResult(s: Store, specs: seq<Spec>, prefix: seq<Edge>, xs: seq<Nested>, i: nat)
    requires AllNested(s, specs, prefix, xs) && i < |xs| && i < |specs|
    ensures xs[i].graph == s.next + i
    ensures xs[i].externalEdges == Filter(prefix, ExternalTo(s.parent, specs, i))
    ensures AreEndIDs(s.parent, xs[i].externalEdges, xs[i].externalIDs)
  {
    hide AbsID;
    assert IsNestedOf(s, specs, prefix, i, xs[i]);
  }

  /**
   The batched form rolled back after diagram `index`, against the sequential form stopped after it: the same pointers,
   child orders and nested graphs, and the same objects and edges left, up to their order in the board's lists.
   */
  method RollbackIsSequential(a: Arena, b: Arena, g: nat, specs: seq<Spec>, index: nat)
    requires a != b && a.Now() == b.Now() && index < |specs|
    requires g in a.objects && g in a.edges && Valid(a.Now(), g) && Fits(a.Now(), g, specs)
    modifies a, b
    ensures SameUpToOrder(b.Now(), a.Now(), g)
  {
    hide Valid, Fits, Extracted, AllNested, OrdersSaved, Back, InOrder, SameUpToOrder, Filter, ExternalTo, AbsID;
    ghost var s := a.Now();
    var extractions, saved := a.ExtractSubgraphs(g, specs);
    a.RollbackAfter(g, specs, extractions, saved, index, s);
    var external, ids := b.ExtractInOrder(g, specs, index + 1);
    RolledBackIsSequential(s, g, specs, index + 1, a.Now(), b.Now());
  }

  /**
   Taking one diagram out, putting it back, returning its external edges and restoring the saved order changes nothing.
   */
  method OutAndBack(a: Arena, g: nat, container: Object, includeSelf: bool)
    requires g in a.objects && g in a.edges && Valid(a.Now(), g) && container in a.objects[g]
    requires includeSelf ==> a.parent[container] == Root(g)
    requires Identified(a.parent, a.objects[g]) && EdgesIdentified(a.parent, a.edges[g])
    modifies a
    ensures SameBoard(old(a.Now()), a.Now())
  {
    hide Linked, Antichain, Extracted, OneOut, CanTakeOut, Back, InOrder, Filter, Inject, CanInject, RestoreInto,
      SortStable, ByID, EdgeByID, OrderOf, EdgeOrderOf, Identified, EdgesIdentified, ExternalTo, EdgesCrossing, AbsID,
      SameBoard, IsSaved, Unique;
    ghost var s := a.Now();
    ghost var specs := [Spec(container, includeSelf)];
    OneSpec(s.parent, specs[0]);
    var into := if includeSelf then a.parent[container] else container;
    BoardRoot(s, g);
    var saved := a.SaveOrder(g);
    NothingOut(s, g, specs);
    CanExtract(s, g, specs, 0, a.Now());
    SequentialStep(s, g, specs, 0, a.Now());
    NextExternal(s, g, specs, 0, a.Now());
    var nested, external, ids := a.ExtractSubgraph(container, includeSelf);
    ExtractedBack(s, g, specs, a.Now());
    CanGoBack(s, g, specs, Below(1), 0, a.Now());
    IntoIs(s.parent, specs[0]);
    GoingBack(s, g, specs, Below(1), 0, a.Now());
    InjectKeeps(a.Now(), into, nested, g);
    InjectBack(s, g, specs, Below(1), 0, a.Now(), external, WithEdges(Inject(a.Now(), into, nested), g, external));
    assert Below(1) - {0} == {};
    a.InjectNested(into, nested);
    a.edges := a.edges[g := a.edges[g] + external];
    BackKnown(s, g, specs, {}, a.Now());
    ghost var shuffled := a.Now();
    a.RestoreOrder(g, saved);
    Finish(s, g, specs, saved, shuffled, a.Now());
  }

  /** A diagram that goes with its container is taken from the root, as those placed near a constant are. */
  predicate FromRoot(p: Parents, g: nat, specs: seq<Spec>) {
    forall i :: 0 <= i < |specs| && specs[i].includeSelf && specs[i].container in p ==>
                  p[specs[i].container] == Root(g)
  }

  lemma OneSpec(p: Parents, spec: Spec)
    ensures Antichain(p, [spec])
  {
  }

  lemma BoardRoot(s: Store, g: nat)
    requires Valid(s, g)
    ensures Root(g) in s.childList
  {
  }

  lemma IntoIs(p: Parents, spec: Spec)
    requires spec.container in p
    ensures RestoreInto(p, spec) == if spec.includeSelf then p[spec.container] else spec.container
  {
  }

  lemma BackKnown(s: Store, g: nat, specs: seq<Spec>, out: set<nat>, t: Store)
    requires g in s.objects && g in s.edges && Valid(s, g) && Back(s, g, specs, out, t)
    ensures g in t.objects && g in t.edges && Root(g) in t.childList && ListBack(s, specs, out, Root(g), t.childList)
  {
    hide ListBack, MapsBack, GraphBack, Linked, Listed;
    BoardRoot(s, g);
    assert ListBack(s, specs, out, Root(g), t.childList);
    ListBackHas(s, specs, out, Root(g), t.childList);
  }

  lemma ListBackHas(s: Store, specs: seq<Spec>, out: set<nat>, o: Object, lists: map<Object, seq<Object>>)
    requires o in s.childList && ListBack(s, specs, out, o, lists)
    ensures o in lists
  {
  }

  lemma RootRestored(s: Store, specs: seq<Spec>, o: Object, lists: map<Object, seq<Object>>)
    requires Linked(s) && o in s.childList && ListBack(s, specs, {}, o, lists)
    ensures SortStable(lists[o], ByID(s.parent, OrderOf(s.parent, s.childList[o]))) == s.childList[o]
  {
    hide Linked, Identified, ByID, OrderOf, SortStable, Ascending, Owner, Filter;
    SiblingIDs(s, o);
    FilterAll(s.childList[o], StaysIn(s.parent, specs, {}));
    OrderAscends(s.parent, s.parent, s.childList[o], StaysIn(s.parent, specs, {}));
    SortRestores(lists[o], s.childList[o], ByID(s.parent, OrderOf(s.parent, s.childList[o])));
  }

  lemma ListsRestored(s: Store, g: nat, specs: seq<Spec>, t: Store, lists: map<Object, seq<Object>>)
    requires g in s.objects && g in s.edges && Valid(s, g) && FromRoot(s.parent, g, specs)
    requires Back(s, g, specs, {}, t) && Root(g) in t.childList
    requires lists == t.childList[Root(g) := SortStable(t.childList[Root(g)], ByID(t.parent, OrderOf(s.parent,
                        if Root(g) in s.childList then s.childList[Root(g)] else [])))]
    ensures forall o :: o in s.childList ==> o in lists && lists[o] == s.childList[o]
  {
    hide Linked, Listed, ByID, OrderOf, SortStable, Owner, Filter, MapsBack, GraphBack, ObjectsBack, EdgesBack,
      TopsBack, ListBack;
    BoardRoot(s, g);
    assert ListBack(s, specs, {}, Root(g), t.childList);
    assert t.parent == s.parent;
    RootRestored(s, specs, Root(g), t.childList);
    forall o | o in s.childList && o != Root(g)
      ensures o in lists && lists[o] == s.childList[o]
    {
      OtherList(s, g, specs, Root(g), o, t.childList);
    }
  }

  lemma OtherList(s: Store, g: nat, specs: seq<Spec>, root: Object, o: Object, lists: map<Object, seq<Object>>)
    requires root == Root(g) && FromRoot(s.parent, g, specs)
    requires o in s.childList && o != root && ListBack(s, specs, {}, o, lists)
    ensures o in lists && lists[o] == s.childList[o]
  {
    hide Filter, Owner;
    FilterAll(s.childList[o], StaysIn(s.parent, specs, {}));
  }

  /** Sorting the shuffled lists by their saved places gives the board back. */
  lemma Finish(s: Store, g: nat, specs: seq<Spec>, saved: SavedBoard, t: Store, u: Store)
    requires g in s.objects && g in s.edges && Valid(s, g) && FromRoot(s.parent, g, specs) && Root(g) in s.childList
    requires Identified(s.parent, s.objects[g]) && EdgesIdentified(s.parent, s.edges[g])
    requires saved.objectOrder == OrderOf(s.parent, s.objects[g])
    requires saved.edgeOrder == EdgeOrderOf(s.parent, s.edges[g])
    requires saved.rootOrder == SavedOrder(Root(g), OrderOf(s.parent, s.childList[Root(g)]))
    requires g in t.objects && g in t.edges && Root(g) in t.childList
    requires u == t.(objects := t.objects[g := SortStable(t.objects[g], ByID(t.parent, saved.objectOrder))],
                     edges := t.edges[g := SortStable(t.edges[g],
                                                      EdgeByID(t.parent, saved.edgeOrder, saved.edgeCount))],
                     childList := t.childList[Root(g) := SortStable(t.childList[Root(g)],
                                                                    ByID(t.parent, saved.rootOrder.order))])
    requires Back(s, g, specs, {}, t)
    ensures SameBoard(s, u)
  {
    hide Linked, Listed, ByID, OrderOf, EdgeByID, EdgeOrderOf, SortStable, Owner, Filter, ListsBack, Identified,
      EdgesIdentified, NotOut, Untouched;
    ListingsRestored(s, g, specs, t, saved.edgeCount);
    ListsRestored(s, g, specs, t, u.childList);
    forall o | o in s.children
      ensures Staying(s.children[o], StaysIn(s.parent, specs, {})) == s.children[o]
    {
    }
  }
}

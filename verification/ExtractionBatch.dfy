/** One pass over the lists of a graph deals every object and edge to its nested diagram. */
module ExtractionBatch {
  import opened Lists
  import opened Forest
  import opened Extraction
  import opened ExtractionSteps

  /** The order in which a container's children stood. */
  datatype SavedOrder = SavedOrder(container: Object, order: map<string, nat>)

  datatype Nested = Nested(graph: nat, externalEdges: seq<Edge>, externalIDs: seq<(string, string)>,
                           restoreInto: Object)

  function RestoreInto(p: Parents, spec: Spec): Object {
    if spec.includeSelf && spec.container in p then p[spec.container] else spec.container
  }

  /** What is known of diagram i once the edges in `prefix` have been dealt. */
  predicate IsNestedOf(s: Store, specs: seq<Spec>, prefix: seq<Edge>, i: nat, x: Nested) {
    && x.graph == s.next + i
    && x.externalEdges == Filter(prefix, ExternalTo(s.parent, specs, i))
    && AreEndIDs(s.parent, x.externalEdges, x.externalIDs)
    && i < |specs| && x.restoreInto == RestoreInto(s.parent, specs[i])
  }

  predicate AllNested(s: Store, specs: seq<Spec>, prefix: seq<Edge>, xs: seq<Nested>) {
    forall i :: 0 <= i < |xs| ==> IsNestedOf(s, specs, prefix, i, xs[i])
  }

  // ----- saved orders -----

  /** The last place of each absolute ID in a list. */
  function OrderOf(p: Parents, list: seq<Object>): map<string, nat> {
    if list == [] then map[] else OrderOf(p, list[..|list| - 1])[AbsID(p, list[|list| - 1]) := |list| - 1]
  }

  predicate IsSelfParent(p: Parents, spec: Spec, o: Object) {
    spec.includeSelf && spec.container in p && p[spec.container] == o
  }

  /** Every parent that loses a child to the first k diagrams has its order saved, and no other container has. */
  predicate OrdersSaved(s: Store, specs: seq<Spec>, k: nat, saved: seq<SavedOrder>)
    requires k <= |specs|
  {
    && (forall j :: 0 <= j < |saved| ==> IsSaved(s, specs, k, saved[j]))
    && (forall i :: 0 <= i < k && specs[i].includeSelf && specs[i].container in s.parent ==>
                      HasSaved(saved, s.parent[specs[i].container]))
  }

  predicate IsSaved(s: Store, specs: seq<Spec>, k: nat, x: SavedOrder)
    requires k <= |specs|
  {
    && x.container in s.childList && x.order == OrderOf(s.parent, s.childList[x.container])
    && exists i :: 0 <= i < k && IsSelfParent(s.parent, specs[i], x.container)
  }

  predicate HasSaved(saved: seq<SavedOrder>, o: Object) {
    exists j :: 0 <= j < |saved| && saved[j].container == o
  }

  // ----- dealing -----

  predicate DealtObjects(s: Store, specs: seq<Spec>, prefix: seq<Object>, objects: map<nat, seq<Object>>) {
    && objects.Keys == s.objects.Keys + NewNumbers(s.next, |specs|)
    && (forall n :: n in s.objects ==> objects[n] == s.objects[n])
    && (forall i: nat :: i < |specs| ==> DealtTo(s, specs, prefix, i, objects))
  }

  predicate DealtTo(s: Store, specs: seq<Spec>, prefix: seq<Object>, i: nat, objects: map<nat, seq<Object>>) {
    s.next + i in objects && objects[s.next + i] == Filter(prefix, OwnedBy(s.parent, specs, i))
  }

  predicate DealtEdges(s: Store, specs: seq<Spec>, prefix: seq<Edge>, edges: map<nat, seq<Edge>>) {
    && edges.Keys == s.edges.Keys + NewNumbers(s.next, |specs|)
    && (forall n :: n in s.edges ==> edges[n] == s.edges[n])
    && (forall i: nat :: i < |specs| ==> EdgesDealtTo(s, specs, prefix, i, edges))
  }

  predicate EdgesDealtTo(s: Store, specs: seq<Spec>, prefix: seq<Edge>, i: nat, edges: map<nat, seq<Edge>>) {
    s.next + i in edges && edges[s.next + i] == Filter(prefix, NestedIn(s.parent, specs, i))
  }

  lemma DealObject(s: Store, specs: seq<Spec>, prefix: seq<Object>, o: Object, before: map<nat, seq<Object>>,
                   after: map<nat, seq<Object>>)
    requires forall n :: n in s.objects ==> n < s.next
    requires DealtObjects(s, specs, prefix, before)
    requires var i := Owner(s.parent, specs, o);
             if i < |specs| then s.next + i in before && after == before[s.next + i := before[s.next + i] + [o]]
             else after == before
    ensures DealtObjects(s, specs, prefix + [o], after)
  {
    hide Filter, Owner;
    var prefix' := prefix + [o];
    forall i: nat | i < |specs|
      ensures DealtTo(s, specs, prefix', i, after)
    {
      assert DealtTo(s, specs, prefix, i, before);
      FilterAppend(prefix, o, OwnedBy(s.parent, specs, i));
    }
  }

  lemma DealEdge(s: Store, specs: seq<Spec>, prefix: seq<Edge>, e: Edge, before: map<nat, seq<Edge>>,
                 after: map<nat, seq<Edge>>)
    requires forall n :: n in s.edges ==> n < s.next
    requires DealtEdges(s, specs, prefix, before)
    requires var i := Touches(s.parent, specs, e);
             if i < |specs| && Within(s.parent, specs, e) then
               s.next + i in before && after == before[s.next + i := before[s.next + i] + [e]]
             else after == before
    ensures DealtEdges(s, specs, prefix + [e], after)
  {
    hide Filter, Touches, Within;
    var prefix' := prefix + [e];
    forall i: nat | i < |specs|
      ensures EdgesDealtTo(s, specs, prefix', i, after)
    {
      assert EdgesDealtTo(s, specs, prefix, i, before);
      FilterAppend(prefix, e, NestedIn(s.parent, specs, i));
    }
  }

  lemma DealExternal(s: Store, specs: seq<Spec>, prefix: seq<Edge>, e: Edge, before: seq<Nested>, after: seq<Nested>)
    requires |before| == |after| == |specs| && AllNested(s, specs, prefix, before)
    requires var i := Touches(s.parent, specs, e);
             if i < |specs| && !Within(s.parent, specs, e) then
               after == before[i := before[i].(
                 externalEdges := before[i].externalEdges + [e],
                 externalIDs := before[i].externalIDs + [(AbsID(s.parent, e.src), AbsID(s.parent, e.dst))])]
             else after == before
    ensures AllNested(s, specs, prefix + [e], after)
  {
    hide Filter, Touches, Within, RestoreInto, AbsID, AreEndIDs;
    forall i | 0 <= i < |specs|
      ensures IsNestedOf(s, specs, prefix + [e], i, after[i])
    {
      FilterAppend(prefix, e, ExternalTo(s.parent, specs, i));
      assert IsNestedOf(s, specs, prefix, i, before[i]);
      EndIDsMore(s.parent, before[i].externalEdges, before[i].externalIDs, e);
    }
  }

  /** Everything dealt, and the rest kept: the lists are those with every diagram out. */
  lemma AllObjectsDealt(s: Store, g: nat, specs: seq<Spec>, objects: map<nat, seq<Object>>)
    requires g in s.objects && (forall n :: n in s.objects ==> n < s.next)
    requires DealtObjects(s, specs, s.objects[g], objects)
    ensures ObjectsAt(s, g, specs, |specs|, objects[g := Filter(s.objects[g], NotOut(s.parent, specs, Below(|specs|)))])
  {
    hide Filter, NotOut;
    var done := objects[g := Filter(s.objects[g], NotOut(s.parent, specs, Below(|specs|)))];
    forall i: nat | i < |specs|
      ensures NewObjects(s, g, specs, i, done)
    {
      assert DealtTo(s, specs, s.objects[g], i, objects);
    }
  }

  lemma AllEdgesDealt(s: Store, g: nat, specs: seq<Spec>, edges: map<nat, seq<Edge>>)
    requires g in s.edges && (forall n :: n in s.edges ==> n < s.next)
    requires DealtEdges(s, specs, s.edges[g], edges)
    ensures EdgesAt(s, g, specs, |specs|, edges[g := Filter(s.edges[g], Untouched(s.parent, specs, Below(|specs|)))])
  {
    hide Filter, Untouched;
    var done := edges[g := Filter(s.edges[g], Untouched(s.parent, specs, Below(|specs|)))];
    forall i: nat | i < |specs|
      ensures NewEdges(s, g, specs, i, done)
    {
      assert EdgesDealtTo(s, specs, s.edges[g], i, edges);
    }
  }

  /** New graphs exist for the first n diagrams and are empty; the other graphs are as before. */
  predicate NewlyEmpty(s: Store, n: nat, objects: map<nat, seq<Object>>, edges: map<nat, seq<Edge>>) {
    && objects.Keys == s.objects.Keys + NewNumbers(s.next, n)
    && (forall m :: m in s.objects ==> m < s.next && objects[m] == s.objects[m])
    && (forall m :: m in objects && m >= s.next ==> objects[m] == [])
    && edges.Keys == s.edges.Keys + NewNumbers(s.next, n)
    && (forall m :: m in s.edges ==> m < s.next && edges[m] == s.edges[m])
    && (forall m :: m in edges && m >= s.next ==> edges[m] == [])
  }

  lemma NoneEmpty(s: Store, g: nat)
    requires Listed(s, g)
    ensures NewlyEmpty(s, 0, s.objects, s.edges)
  {
  }

  lemma WithGraphEmpty(s: Store, n: nat, t: Store)
    requires NewlyEmpty(s, n, t.objects, t.edges) && t.next == s.next + n
    ensures NewlyEmpty(s, n + 1, WithGraph(t).objects, WithGraph(t).edges)
  {
  }

  lemma AllEmpty(s: Store, specs: seq<Spec>, objects: map<nat, seq<Object>>, edges: map<nat, seq<Edge>>)
    requires NewlyEmpty(s, |specs|, objects, edges)
    ensures DealtObjects(s, specs, [], objects) && DealtEdges(s, specs, [], edges)
  {
  }

  // ----- saving orders -----

  lemma SavedNone(s: Store, specs: seq<Spec>)
    ensures OrdersSaved(s, specs, 0, []) && AllNested(s, specs, [], [])
    ensures forall o :: !HasSaved([], o)
  {
  }

  lemma SavedMore(s: Store, specs: seq<Spec>, k: nat, saved: seq<SavedOrder>, x: SavedOrder)
    requires k < |specs| && OrdersSaved(s, specs, k, saved)
    requires IsSelfParent(s.parent, specs[k], x.container) && x.container in s.childList
    requires x.order == OrderOf(s.parent, s.childList[x.container])
    ensures OrdersSaved(s, specs, k + 1, saved + [x])
    ensures forall o :: HasSaved(saved + [x], o) <==> HasSaved(saved, o) || o == x.container
  {
    hide OrderOf;
    var more := saved + [x];
    forall j | 0 <= j < |more|
      ensures IsSaved(s, specs, k + 1, more[j])
    {
      if j < |saved| {
        SavedLonger(s, specs, k, saved[j]);
      }
    }
    assert more[|saved|] == x;
    forall o
      ensures HasSaved(more, o) <==> HasSaved(saved, o) || o == x.container
    {
      if HasSaved(saved, o) {
        var j :| 0 <= j < |saved| && saved[j].container == o;
        assert more[j].container == o;
      }
    }
  }

  lemma SavedSame(s: Store, specs: seq<Spec>, k: nat, saved: seq<SavedOrder>)
    requires k < |specs| && OrdersSaved(s, specs, k, saved)
    requires specs[k].includeSelf && specs[k].container in s.parent ==> HasSaved(saved, s.parent[specs[k].container])
    ensures OrdersSaved(s, specs, k + 1, saved)
  {
    hide OrderOf, HasSaved;
    forall j | 0 <= j < |saved|
      ensures IsSaved(s, specs, k + 1, saved[j])
    {
      SavedLonger(s, specs, k, saved[j]);
    }
  }

  lemma SavedLonger(s: Store, specs: seq<Spec>, k: nat, x: SavedOrder)
    requires k < |specs| && IsSaved(s, specs, k, x)
    ensures IsSaved(s, specs, k + 1, x)
  {
  }

  lemma NestedMore(s: Store, specs: seq<Spec>, k: nat, xs: seq<Nested>, p: Parents)
    requires k < |specs| && |xs| == k + 1 && p == s.parent
    requires AllNested(s, specs, [], xs[..k]) && xs[k] == Nested(s.next + k, [], [], RestoreInto(p, specs[k]))
    ensures AllNested(s, specs, [], xs)
  {
    forall i | 0 <= i < |xs|
      ensures IsNestedOf(s, specs, [], i, xs[i])
    {
      if i < k {
        assert xs[i] == xs[..k][i];
      }
    }
  }

  /** While nothing hangs from the new roots, every container is where it was. */
  lemma OldContainer(s: Store, g: nat, specs: seq<Spec>, i: nat, n: nat, t: Store)
    requires g in s.objects && Valid(s, g) && Fits(s, g, specs) && i < |specs| && n <= |specs|
    requires Detached(s, g, specs, 0, n, t) && t.parent == s.parent
    ensures var c := specs[i].container;
            && c in s.parent && s.parent[c] in s.childList && s.parent[c] in t.childList
            && t.childList[s.parent[c]] == s.childList[s.parent[c]]
  {
    hide Linked, Antichain, RootList, RootMap, Unique, Filter, Staying, OwnedGraph, ParentsWithout;
    var c := specs[i].container;
    KnownChild(s, c);
    FilterAll(s.childList[s.parent[c]], StaysIn(s.parent, specs, Below(0)));
  }

  lemma DealtKnown(s: Store, specs: seq<Spec>, prefix: seq<Object>, i: nat, objects: map<nat, seq<Object>>)
    requires i < |specs| && DealtObjects(s, specs, prefix, objects)
    ensures s.next + i in objects
  {
    assert DealtTo(s, specs, prefix, i, objects);
  }

  lemma EdgesDealtKnown(s: Store, specs: seq<Spec>, prefix: seq<Edge>, i: nat, edges: map<nat, seq<Edge>>)
    requires i < |specs| && DealtEdges(s, specs, prefix, edges)
    ensures s.next + i in edges
  {
    assert EdgesDealtTo(s, specs, prefix, i, edges);
  }

  lemma OwnedAt(s: Store, g: nat, specs: seq<Spec>, k: nat, i: nat, objects: map<nat, seq<Object>>)
    requires g in s.objects && i < k <= |specs| && ObjectsAt(s, g, specs, k, objects)
    ensures s.next + i in objects && objects[s.next + i] == Filter(s.objects[g], OwnedBy(s.parent, specs, i))
  {
    hide Filter;
    assert NewObjects(s, g, specs, i, objects);
  }

  /** The root of a diagram whose pointers are not yet set has no children. */
  lemma EmptyRoot(s: Store, g: nat, specs: seq<Spec>, k: nat, t: Store)
    requires g in s.objects && k < |specs| && Detached(s, g, specs, k, |specs|, t)
    ensures var r := Root(s.next + k);
            r in t.childList && t.childList[r] == [] && r in t.children && t.children[r] == map[]
  {
    hide Filter, Staying, OwnedGraph, ParentsWithout, StaysIn;
    assert RootList(s, specs, k, k, t.childList) && RootMap(s, specs, k, k, t.children);
  }

  lemma OwnedInGraph(s: Store, g: nat, specs: seq<Spec>, k: nat, n: nat, t: Store)
    requires g in s.objects && k < n <= |specs| && Listed(s, g) && Detached(s, g, specs, k, n, t)
    ensures forall o :: o in Filter(s.objects[g], OwnedBy(s.parent, specs, k)) ==> o in t.graph
  {
    hide Filter, Staying, OwnedGraph, ParentsWithout, StaysIn, Unique;
    forall o | o in Filter(s.objects[g], OwnedBy(s.parent, specs, k))
      ensures o in t.graph
    {
      FilterHas(s.objects[g], OwnedBy(s.parent, specs, k), o);
    }
  }

  lemma PreparedKnown(s: Store, g: nat, specs: seq<Spec>, t: Store)
    requires g in s.objects && g in s.edges && Detached(s, g, specs, 0, |specs|, t)
    requires DealtObjects(s, specs, [], t.objects) && DealtEdges(s, specs, [], t.edges)
    ensures t.parent == s.parent
    ensures g in t.objects && t.objects[g] == s.objects[g] && g in t.edges && t.edges[g] == s.edges[g]
  {
    hide ListsAt, MapsAt, GraphAt;
  }
}

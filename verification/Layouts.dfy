/** Nested diagrams are taken out of a board for layout and put back; the arena holds every pointer involved. */
module Layouts {
  import opened Lists
  import opened Forest
  import opened Extraction
  import opened ExtractionSteps
  import opened ExtractionBatch
  import opened ExtractionRollback
  import opened ExtractionOrder

  lemma CutParentNone(p: Parents, r: Object)
    requires r.Root?
    ensures CutParent(p, Spec(r, false), [], r) == p
  {
  }

  lemma CutParentAlone(p: Parents, spec: Spec, list: seq<Object>, r: Object)
    requires r.Root? && spec.includeSelf && spec.container in p
    ensures Ranked(p[spec.container := r]) && CutParent(p, spec, list, r) == p[spec.container := r]
  {
    var cut := CutParent(p, spec, list, r);
    var next := p[spec.container := r];
    assert cut.Keys == next.Keys;
    forall o | o in p
      ensures cut[o] == next[o]
    {
    }
  }

  lemma CutParentOther(p: Parents, spec: Spec, list: seq<Object>, r: Object)
    requires r.Root? && !spec.includeSelf
    ensures CutParent(p, spec, list, r) == CutParent(p, Spec(r, false), list, r)
  {
  }

  lemma CutParentMore(p: Parents, list: seq<Object>, i: nat, r: Object)
    requires r.Root? && i < |list| && list[i] in p
    ensures Ranked(CutParent(p, Spec(r, false), list[..i], r)[list[i] := r])
    ensures CutParent(p, Spec(r, false), list[..i + 1], r) == CutParent(p, Spec(r, false), list[..i], r)[list[i] := r]
  {
    var more := CutParent(p, Spec(r, false), list[..i + 1], r);
    var next := CutParent(p, Spec(r, false), list[..i], r)[list[i] := r];
    assert list[..i + 1] == list[..i] + [list[i]];
    assert more.Keys == next.Keys;
    forall o | o in p
      ensures more[o] == next[o]
    {
    }
  }

  class Arena {
    var parent: Parents
    var childList: map<Object, seq<Object>>
    var children: map<Object, map<string, Object>>
    var graph: map<Object, nat>
    var objects: map<nat, seq<Object>>
    var edges: map<nat, seq<Edge>>
    var next: nat

    constructor (s: Store)
      ensures Now() == s
    {
      parent, childList, children, graph := s.parent, s.childList, s.children, s.graph;
      objects, edges, next := s.objects, s.edges, s.next;
    }

    function Now(): Store
      reads this
    {
      Store(parent, childList, children, graph, objects, edges, next)
    }

    method NewGraph() returns (n: nat)
      modifies this
      ensures n == old(next) && Now() == WithGraph(old(Now()))
    {
      n := next;
      childList := childList[Root(n) := []];
      children := children[Root(n) := map[]];
      graph := graph[Root(n) := n];
      objects := objects[n := []];
      edges := edges[n := []];
      next := n + 1;
    }

    method RemoveChild(from: Object, child: Object)
      requires from in childList && from in children
      modifies this`childList, this`children
      ensures childList == old(childList)[from := RemoveFirst(old(childList)[from], child)]
      ensures children == old(children)[from := old(children)[from] - {Key(child)}]
    {
      children := children[from := children[from] - {Key(child)}];
      var list := childList[from];
      var i := 0;
      while i < |list|
        invariant i <= |list| && child !in list[..i]
        invariant childList == old(childList)
      {
        if list[i] == child {
          RemoveFirstAt(list, i, child);
          childList := childList[from := list[..i] + list[i + 1..]];
          return;
        }
        i := i + 1;
      }
      assert list[..i] == list;
      RemoveFirstAbsent(list, child);
      assert childList == childList[from := list];
    }

    /** Gives the nested graph its objects' pointers and its root its children. */
    method Detach(spec: Spec, n: nat)
      requires spec.container.Item? && CanCut(Now(), spec, n)
      requires parent[spec.container] != Root(n)
      requires Root(n) in childList && childList[Root(n)] == []
      requires Root(n) in children && children[Root(n)] == map[]
      requires forall o :: o in objects[n] ==> o in graph
      requires forall x :: x in childList[spec.container] ==> x in parent
      modifies this`parent, this`childList, this`children, this`graph
      ensures Now() == Cut(old(Now()), spec, n)
    {
      hide Ranked, CutParent, Key, ByKey, RemoveFirst, CutGraph;
      SetGraph(objects[n], n);
      var c, r := spec.container, Root(n);
      var list := childList[c];
      if spec.includeSelf {
        RemoveChild(parent[c], c);
        childList := childList[r := [c]];
        CutParentAlone(parent, spec, list, r);
        parent := parent[c := r];
        children := children[r := children[r][Key(c) := c]];
      } else {
        assert childList[r] + childList[c] == childList[c];
        CutParentOther(parent, spec, childList[c], r);
        childList := childList[r := childList[r] + childList[c]];
        Adopt(childList[c], r);
        children := children[c := map[]];
        childList := childList[c := []];
      }
    }

    method SetGraph(list: seq<Object>, n: nat)
      requires forall o :: o in list ==> o in graph
      modifies this`graph
      ensures graph == CutGraph(old(graph), list, n)
    {
      var i := 0;
      while i < |list|
        invariant i <= |list| && graph == CutGraph(old(graph), list[..i], n)
      {
        graph := graph[list[i] := n];
        i := i + 1;
      }
      assert list[..i] == list;
    }

    /** Every listed object becomes a child of the root. */
    method Adopt(list: seq<Object>, r: Object)
      requires r.Root? && r in children && children[r] == map[]
      requires forall x :: x in list ==> x in parent
      modifies this`parent, this`children
      ensures parent == CutParent(old(parent), Spec(r, false), list, r)
      ensures children == old(children)[r := ByKey(list)]
    {
      hide Ranked, CutParent, Key;
      assert list[..0] == [];
      CutParentNone(parent, r);
      var i := 0;
      while i < |list|
        invariant i <= |list|
        invariant parent == CutParent(old(parent), Spec(r, false), list[..i], r)
        invariant children == old(children)[r := ByKey(list[..i])]
      {
        CutParentMore(old(parent), list, i, r);
        parent := parent[list[i] := r];
        children := children[r := children[r][Key(list[i]) := list[i]]];
        assert list[..i + 1][..i] == list[..i];
        i := i + 1;
      }
      assert list[..i] == list;
    }

    /** Takes one diagram out of its graph; the edges across its border are handed back with their ends' IDs. */
    method ExtractSubgraph(container: Object, includeSelf: bool)
          returns (nested: nat, external: seq<Edge>, ids: seq<(string, string)>)
      requires container.Item? && container in graph
      requires CanTakeOut(Now(), graph[container], Spec(container, includeSelf))
      requires Root(next) !in childList && parent[container] != Root(next)
      requires forall o :: o in objects[graph[container]] ==> o in graph
      requires forall x :: x in childList[container] ==> x in parent
      modifies this
      ensures nested == old(next)
      ensures var s, g, spec := old(Now()), old(graph[container]), Spec(container, includeSelf);
              && external == Filter(s.edges[g], EdgesCrossing(s.parent, spec))
              && (forall e :: e in external ==>
                   !e.dst.LifelineEnd? && IsNested(s.parent, spec, e.src) != IsNested(s.parent, spec, e.dst))
              && Now() == OneOut(s, g, spec)
      ensures |ids| == |external|
      ensures forall i :: 0 <= i < |ids| ==>
                            ids[i].0 == AbsID(old(parent), external[i].src) &&
                            ids[i].1 == AbsID(old(parent), external[i].dst)
    {
      hide Filter, EdgesCrossing, EdgesInside, EdgesOutside, Inside, Outside, IsNested, AbsID, CutParent, CutLists,
        CutMaps, CutGraph;
      var spec := Spec(container, includeSelf);
      nested := NewGraph();
      var g := graph[container];
      external, ids := SplitEdges(g, nested, spec);
      SplitObjects(g, nested, spec);
      InsideKnown(parent, spec, old(objects[graph[container]]));
      Detach(spec, nested);
    }

    method SplitEdges(g: nat, n: nat, spec: Spec) returns (external: seq<Edge>, ids: seq<(string, string)>)
      requires g in edges && n in edges && g != n && edges[n] == []
      modifies this`edges
      ensures external == Filter(old(edges)[g], EdgesCrossing(parent, spec))
      ensures |ids| == |external|
      ensures forall i :: 0 <= i < |ids| ==>
                            ids[i].0 == AbsID(parent, external[i].src) && ids[i].1 == AbsID(parent, external[i].dst)
      ensures forall e :: e in external ==>
                            !e.dst.LifelineEnd? && IsNested(parent, spec, e.src) != IsNested(parent, spec, e.dst)
      ensures edges == old(edges)[g := Filter(old(edges)[g], EdgesOutside(parent, spec))]
                                 [n := Filter(old(edges)[g], EdgesInside(parent, spec))]
    {
      hide Filter, IsNested, AbsID, AreEndIDs;
      var list := edges[g];
      var remaining: seq<Edge> := [];
      external, ids := [], [];
      EndIDsNone(parent);
      FilterNone(list[..0], EdgesOutside(parent, spec));
      FilterNone(list[..0], EdgesCrossing(parent, spec));
      FilterNone(list[..0], EdgesInside(parent, spec));
      assert edges == edges[n := []];
      var i := 0;
      while i < |list|
        invariant i <= |list|
        invariant remaining == Filter(list[..i], EdgesOutside(parent, spec))
        invariant external == Filter(list[..i], EdgesCrossing(parent, spec))
        invariant AreEndIDs(parent, external, ids)
        invariant edges == old(edges)[n := Filter(list[..i], EdgesInside(parent, spec))]
      {
        var e := list[i];
        FilterAppend(list[..i], e, EdgesOutside(parent, spec));
        FilterAppend(list[..i], e, EdgesCrossing(parent, spec));
        FilterAppend(list[..i], e, EdgesInside(parent, spec));
        assert list[..i + 1] == list[..i] + [e];
        var srcIsNested := IsNested(parent, spec, e.src);
        if e.dst.LifelineEnd? {
          if srcIsNested {
            edges := edges[n := edges[n] + [e]];
          } else {
            remaining := remaining + [e];
          }
        } else {
          var dstIsNested := IsNested(parent, spec, e.dst);
          if srcIsNested && dstIsNested {
            edges := edges[n := edges[n] + [e]];
          } else if srcIsNested || dstIsNested {
            EndIDsMore(parent, external, ids, e);
            external := external + [e];
            ids := ids + [(AbsID(parent, e.src), AbsID(parent, e.dst))];
          } else {
            remaining := remaining + [e];
          }
        }
        assert edges[n] == Filter(list[..i + 1], EdgesInside(parent, spec));
        assert edges == old(edges)[n := edges[n]];
        i := i + 1;
      }
      assert list[..i] == list;
      EndIDsRead(parent, external, ids);
      forall e | e in external
        ensures !e.dst.LifelineEnd? && IsNested(parent, spec, e.src) != IsNested(parent, spec, e.dst)
      {
        CrossingEnds(parent, spec, list, e);
      }
      edges := edges[g := remaining];
    }

    method SplitObjects(g: nat, n: nat, spec: Spec)
      requires g in objects && n in objects && g != n && objects[n] == []
      modifies this`objects
      ensures objects == old(objects)[g := Filter(old(objects)[g], Outside(parent, spec))]
                                     [n := Filter(old(objects)[g], Inside(parent, spec))]
    {
      hide Filter, IsNested;
      var list := objects[g];
      var remaining: seq<Object> := [];
      FilterNone(list[..0], Outside(parent, spec));
      FilterNone(list[..0], Inside(parent, spec));
      assert objects == objects[n := []];
      var i := 0;
      while i < |list|
        invariant i <= |list|
        invariant remaining == Filter(list[..i], Outside(parent, spec))
        invariant objects == old(objects)[n := Filter(list[..i], Inside(parent, spec))]
      {
        var o := list[i];
        FilterAppend(list[..i], o, Outside(parent, spec));
        FilterAppend(list[..i], o, Inside(parent, spec));
        assert list[..i + 1] == list[..i] + [o];
        if IsNested(parent, spec, o) {
          objects := objects[n := objects[n] + [o]];
        } else {
          remaining := remaining + [o];
        }
        assert objects[n] == Filter(list[..i + 1], Inside(parent, spec));
        assert objects == old(objects)[n := objects[n]];
        i := i + 1;
      }
      assert list[..i] == list;
      objects := objects[g := remaining];
    }

    // ----- the batched form -----

    method SaveChildrenOrder(container: Object) returns (saved: SavedOrder)
      requires container in childList
      ensures saved == SavedOrder(container, OrderOf(parent, childList[container]))
    {
      var list := childList[container];
      var order: map<string, nat> := map[];
      var i := 0;
      while i < |list|
        invariant i <= |list| && order == OrderOf(parent, list[..i])
      {
        order := order[AbsID(parent, list[i]) := i];
        assert list[..i + 1][..i] == list[..i];
        i := i + 1;
      }
      assert list[..i] == list;
      saved := SavedOrder(container, order);
    }

    /** Saves the order of the parent diagram i is taken from, unless it is saved already. */
    method SaveOnce(specs: seq<Spec>, i: nat, before: set<Object>, savedBefore: seq<SavedOrder>, ghost s: Store)
        returns (restoreInto: Object, parentOrderSaved: set<Object>, saved: seq<SavedOrder>)
      requires i < |specs| && OrdersSaved(s, specs, i, savedBefore) && parent == s.parent
      requires forall o :: HasSaved(savedBefore, o) <==> o in before
      requires var c := specs[i].container;
               && c in s.parent && s.parent[c] in s.childList && s.parent[c] in childList
               && childList[s.parent[c]] == s.childList[s.parent[c]]
      ensures OrdersSaved(s, specs, i + 1, saved) && restoreInto == RestoreInto(s.parent, specs[i])
      ensures forall o :: HasSaved(saved, o) <==> o in parentOrderSaved
    {
      hide OrdersSaved, HasSaved, AbsID, OrderOf;
      restoreInto, parentOrderSaved, saved := specs[i].container, before, savedBefore;
      if specs[i].includeSelf {
        restoreInto := parent[specs[i].container];
        if restoreInto !in parentOrderSaved {
          parentOrderSaved := parentOrderSaved + {restoreInto};
          var order := SaveChildrenOrder(restoreInto);
          SavedMore(s, specs, i, saved, order);
          saved := saved + [order];
          return;
        }
      }
      SavedSame(s, specs, i, saved);
    }

    /** Makes a graph for each diagram and saves the order of every parent about to lose a child. */
    method Prepare(g: nat, specs: seq<Spec>) returns (extractions: seq<Nested>, saved: seq<SavedOrder>)
      requires g in objects && g in edges && Valid(Now(), g) && Fits(Now(), g, specs)
      modifies this
      ensures Detached(old(Now()), g, specs, 0, |specs|, Now()) && next == old(next) + |specs|
      ensures DealtObjects(old(Now()), specs, [], objects) && DealtEdges(old(Now()), specs, [], edges)
      ensures |extractions| == |specs| && AllNested(old(Now()), specs, [], extractions)
      ensures OrdersSaved(old(Now()), specs, |specs|, saved)
    {
      hide Linked, Listed, Antichain, Detached, Ranked, AbsID, OrderOf, OrdersSaved, AllNested, NewlyEmpty,
        DealtObjects, DealtEdges, Extracted, HasSaved;
      ghost var s := Now();
      extractions, saved := [], [];
      var parentOrderSaved: set<Object> := {};
      NothingOut(s, g, specs);
      ExtractedDetached(s, g, specs, 0, s);
      SavedNone(s, specs);
      NoneEmpty(s, g);
      var i := 0;
      while i < |specs|
        invariant i <= |specs| == |specs| && next == s.next + i && |extractions| == i
        invariant Detached(s, g, specs, 0, i, Now()) && parent == s.parent
        invariant NewlyEmpty(s, i, objects, edges)
        invariant AllNested(s, specs, [], extractions)
        invariant OrdersSaved(s, specs, i, saved)
        invariant forall o :: HasSaved(saved, o) <==> o in parentOrderSaved
      {
        OldContainer(s, g, specs, i, i, Now());
        var restoreInto;
        restoreInto, parentOrderSaved, saved := SaveOnce(specs, i, parentOrderSaved, saved, s);
        WithGraphDetached(s, g, specs, 0, i, Now());
        WithGraphEmpty(s, i, Now());
        var n := NewGraph();
        extractions := extractions + [Nested(n, [], [], restoreInto)];
        NestedMore(s, specs, i, extractions, parent);
        i := i + 1;
      }
      AllEmpty(s, specs, objects, edges);
    }

    method FindOwnerOf(specs: seq<Spec>, memo: map<Object, nat>, o: Object) returns (owner: nat)
      requires Antichain(parent, specs)
      requires forall x :: x in memo ==> memo[x] == Owner(parent, specs, x)
      ensures owner == Owner(parent, specs, o)
    {
      if o in memo {
        return memo[o];
      }
      owner := FindOwner(parent, specs, o, o);
      FindOwnerIsOwner(parent, specs, o);
    }

    method DealObjects(g: nat, specs: seq<Spec>, base: nat, ghost s: Store) returns (objectOwner: map<Object, nat>)
      requires s.parent == parent && s.next == base && g in s.objects && g in objects && objects[g] == s.objects[g]
      requires Antichain(parent, specs) && (forall n :: n in s.objects ==> n < s.next)
      requires DealtObjects(s, specs, [], objects)
      modifies this`objects
      ensures ObjectsAt(s, g, specs, |specs|, objects)
      ensures forall x :: x in objectOwner ==> objectOwner[x] == Owner(parent, specs, x)
    {
      hide Antichain, Owner, Filter, DealtObjects, ObjectsAt;
      var list := objects[g];
      var remaining: seq<Object> := [];
      objectOwner := map[];
      FilterNone(list[..0], NotOut(parent, specs, Below(|specs|)));
      var j := 0;
      while j < |list|
        invariant j <= |list|
        invariant DealtObjects(s, specs, list[..j], objects)
        invariant remaining == Filter(list[..j], NotOut(parent, specs, Below(|specs|)))
        invariant forall x :: x in objectOwner ==> objectOwner[x] == Owner(parent, specs, x)
      {
        var o := list[j];
        FilterAppend(list[..j], o, NotOut(parent, specs, Below(|specs|)));
        assert list[..j + 1] == list[..j] + [o];
        var owner := FindOwnerOf(specs, objectOwner, o);
        ghost var before := objects;
        if owner == |specs| {
          remaining := remaining + [o];
        } else {
          objectOwner := objectOwner[o := owner];
          DealtKnown(s, specs, list[..j], owner, objects);
          objects := objects[base + owner := objects[base + owner] + [o]];
        }
        DealObject(s, specs, list[..j], o, before, objects);
        j := j + 1;
      }
      assert list[..j] == list;
      AllObjectsDealt(s, g, specs, objects);
      objects := objects[g := remaining];
    }

    method DealEdges(g: nat, specs: seq<Spec>, base: nat, objectOwner: map<Object, nat>, xs: seq<Nested>,
                     ghost s: Store)
        returns (extractions: seq<Nested>)
      requires s.parent == parent && s.next == base && g in s.edges && g in edges && edges[g] == s.edges[g]
      requires Antichain(parent, specs) && (forall n :: n in s.edges ==> n < s.next)
      requires forall x :: x in objectOwner ==> objectOwner[x] == Owner(parent, specs, x)
      requires DealtEdges(s, specs, [], edges) && |xs| == |specs| && AllNested(s, specs, [], xs)
      modifies this`edges
      ensures EdgesAt(s, g, specs, |specs|, edges)
      ensures |extractions| == |specs| && AllNested(s, specs, s.edges[g], extractions)
    {
      hide Antichain, Owner, Filter, DealtEdges, EdgesAt, AllNested, AbsID;
      var list := edges[g];
      var remaining: seq<Edge> := [];
      extractions := xs;
      FilterNone(list[..0], Untouched(parent, specs, Below(|specs|)));
      var j := 0;
      while j < |list|
        invariant j <= |list| && |extractions| == |specs|
        invariant DealtEdges(s, specs, list[..j], edges)
        invariant AllNested(s, specs, list[..j], extractions)
        invariant remaining == Filter(list[..j], Untouched(parent, specs, Below(|specs|)))
      {
        var e := list[j];
        FilterAppend(list[..j], e, Untouched(parent, specs, Below(|specs|)));
        assert list[..j + 1] == list[..j] + [e];
        ghost var before := edges;
        ghost var soFar := extractions;
        var srcOwner := FindOwnerOf(specs, objectOwner, e.src);
        if e.dst.LifelineEnd? {
          if srcOwner < |specs| {
            EdgesDealtKnown(s, specs, list[..j], srcOwner, edges);
            edges := edges[base + srcOwner := edges[base + srcOwner] + [e]];
          } else {
            remaining := remaining + [e];
          }
        } else {
          var dstOwner := FindOwnerOf(specs, objectOwner, e.dst);
          var srcNested, dstNested := srcOwner < |specs|, dstOwner < |specs|;
          if srcNested && dstNested && srcOwner == dstOwner {
            EdgesDealtKnown(s, specs, list[..j], srcOwner, edges);
            edges := edges[base + srcOwner := edges[base + srcOwner] + [e]];
          } else if !srcNested && !dstNested {
            remaining := remaining + [e];
          } else {
            var owner := srcOwner;
            if !srcNested || (dstNested && dstOwner < owner) {
              owner := dstOwner;
            }
            var x := extractions[owner];
            extractions := extractions[owner := x.(
              externalEdges := x.externalEdges + [e],
              externalIDs := x.externalIDs + [(AbsID(parent, e.src), AbsID(parent, e.dst))])];
          }
        }
        DealEdge(s, specs, list[..j], e, before, edges);
        DealExternal(s, specs, list[..j], e, soFar, extractions);
        j := j + 1;
      }
      assert list[..j] == list;
      AllEdgesDealt(s, g, specs, edges);
      edges := edges[g := remaining];
    }

    /** Pointers change only after every membership is known. */
    method DetachAll(g: nat, specs: seq<Spec>, base: nat, ghost s: Store)
      requires s.next == base && g in s.objects && Valid(s, g) && Fits(s, g, specs)
      requires Detached(s, g, specs, 0, |specs|, Now()) && ObjectsAt(s, g, specs, |specs|, objects)
      modifies this`parent, this`childList, this`children, this`graph
      ensures Detached(s, g, specs, |specs|, |specs|, Now())
    {
      hide Linked, Listed, Antichain, Detached, ObjectsAt, Filter;
      var i := 0;
      while i < |specs|
        invariant i <= |specs| && Detached(s, g, specs, i, |specs|, Now())
        invariant objects == old(objects) && edges == old(edges) && next == old(next)
      {
        NextContainer(s, g, specs, i, |specs|, Now());
        OwnedAt(s, g, specs, |specs|, i, objects);
        EmptyRoot(s, g, specs, i, Now());
        OwnedInGraph(s, g, specs, i, |specs|, Now());
        DetachStep(s, g, specs, i, |specs|, Now(), Cut(Now(), specs[i], base + i));
        Detach(specs[i], base + i);
        i := i + 1;
      }
    }

    /** The one-pass form: every diagram of the list is taken out of graph g at once. */
    method ExtractSubgraphs(g: nat, specs: seq<Spec>) returns (extractions: seq<Nested>, saved: seq<SavedOrder>)
      requires g in objects && g in edges && Valid(Now(), g) && Fits(Now(), g, specs)
      modifies this
      ensures Extracted(old(Now()), g, specs, |specs|, Now())
      ensures |extractions| == |specs| && AllNested(old(Now()), specs, old(edges)[g], extractions)
      ensures forall i :: 0 <= i < |specs| ==> |extractions[i].externalIDs| == |extractions[i].externalEdges|
      ensures forall i, j :: 0 <= i < |specs| && 0 <= j < |extractions[i].externalIDs| ==>
                               var (e, ids) := (extractions[i].externalEdges[j], extractions[i].externalIDs[j]);
                               ids.0 == AbsID(old(parent), e.src) && ids.1 == AbsID(old(parent), e.dst) &&
                               !e.dst.LifelineEnd?
      ensures OrdersSaved(old(Now()), specs, |specs|, saved)
    {
      hide Linked, Antichain, Detached, ObjectsAt, EdgesAt, AllNested, OrdersSaved, DealtObjects, DealtEdges, AbsID;
      ghost var s := Now();
      var base := next;
      extractions, saved := Prepare(g, specs);
      PreparedKnown(s, g, specs, Now());
      ghost var prepared := Now();
      var objectOwner := DealObjects(g, specs, base, s);
      extractions := DealEdges(g, specs, base, objectOwner, extractions, s);
      NestedIDs(s, specs, s.edges[g], extractions);
      SameDetached(s, g, specs, 0, |specs|, prepared, Now());
      DetachAll(g, specs, base, s);
    }

    // ----- the sequential form -----

    /** Takes the first k diagrams out one after the other. */
    method ExtractInOrder(g: nat, specs: seq<Spec>, k: nat)
          returns (external: seq<seq<Edge>>, ids: seq<seq<(string, string)>>)
      requires g in objects && g in edges && Valid(Now(), g) && Fits(Now(), g, specs) && k <= |specs|
      modifies this
      ensures Extracted(old(Now()), g, specs, k, Now())
      ensures |external| == |ids| == k
      ensures forall i :: 0 <= i < k ==> external[i] == Filter(old(edges)[g], ExternalTo(old(parent), specs, i))
      ensures forall i :: 0 <= i < k ==> |ids[i]| == |external[i]|
      ensures forall i, j :: 0 <= i < k && 0 <= j < |ids[i]| ==>
                               ids[i][j].0 == AbsID(old(parent), external[i][j].src) &&
                               ids[i][j].1 == AbsID(old(parent), external[i][j].dst)
    {
      hide Valid, Fits, Extracted, OneOut, CanTakeOut, Filter, EdgesCrossing, ExternalTo, AbsID, IsNested;
      ghost var s := Now();
      NothingOut(s, g, specs);
      external, ids := [], [];
      var i := 0;
      while i < k
        invariant i <= k && Extracted(s, g, specs, i, Now())
        invariant |external| == |ids| == i
        invariant forall j :: 0 <= j < i ==> external[j] == Filter(s.edges[g], ExternalTo(s.parent, specs, j))
        invariant forall j :: 0 <= j < i ==> |ids[j]| == |external[j]|
        invariant forall j, n :: 0 <= j < i && 0 <= n < |ids[j]| ==>
                                   ids[j][n].0 == AbsID(s.parent, external[j][n].src) &&
                                   ids[j][n].1 == AbsID(s.parent, external[j][n].dst)
      {
        CanExtract(s, g, specs, i, Now());
        SequentialStep(s, g, specs, i, Now());
        NextExternal(s, g, specs, i, Now());
        var nested, x, xIDs := ExtractSubgraph(specs[i].container, specs[i].includeSelf);
        external, ids := external + [x], ids + [xIDs];
        i := i + 1;
      }
    }

    // ----- putting diagrams back -----

    method RestoreChildrenOrder(saved: SavedOrder)
      requires saved.container in childList
      modifies this`childList
      ensures childList == old(childList)[saved.container :=
                SortStable(old(childList)[saved.container], ByID(parent, saved.order))]
    {
      childList := childList[saved.container := SortStable(childList[saved.container], ByID(parent, saved.order))];
    }

    /** Appends the listed objects to the container's children. */
    method AdoptUnder(list: seq<Object>, container: Object)
      requires container in childList && !container.LifelineEnd?
      requires forall o :: o in list ==> o in parent && Depth(container) < Depth(o)
      modifies this`parent, this`childList, this`children
      ensures parent == AdoptedBy(old(parent), list, container)
      ensures childList == old(childList)[container := old(childList)[container] + list]
      ensures children == old(children)[container := ChildMap(old(children), container) + ByKey(list)]
    {
      hide Ranked, ByKey, Key, AdoptedBy, Depth;
      ghost var kids := ChildMap(children, container);
      if container !in children {
        children := children[container := map[]];
      }
      AdoptedByNone(parent, container);
      ByKeyNone();
      assert list[..0] == [] && kids + ByKey([]) == kids;
      assert childList[container] + list[..0] == childList[container];
      var i := 0;
      while i < |list|
        invariant i <= |list|
        invariant parent == AdoptedBy(old(parent), list[..i], container)
        invariant childList == old(childList)[container := old(childList)[container] + list[..i]]
        invariant children == old(children)[container := kids + ByKey(list[..i])]
      {
        AdoptedByMore(old(parent), list, i, container);
        ByKeyMore(kids, list, i);
        parent := parent[list[i] := container];
        children := children[container := children[container][Key(list[i]) := list[i]]];
        childList := childList[container := childList[container] + [list[i]]];
        assert childList[container] == old(childList)[container] + list[..i + 1];
        i := i + 1;
      }
      assert list[..i] == list;
    }

    /** Puts the objects and edges of graph n under the container again. */
    method InjectNested(container: Object, n: nat)
      requires CanInject(Now(), container, n)
      requires forall o :: o in childList[Root(n)] ==> o in parent
      requires forall o :: o in objects[n] ==> o in graph
      modifies this
      ensures Now() == Inject(old(Now()), container, n)
    {
      hide Ranked, ByKey, Key, CutGraph, AdoptedBy, Depth;
      var g := graph[container];
      AdoptUnder(childList[Root(n)], container);
      SetGraph(objects[n], g);
      objects := objects[g := objects[g] + objects[n]];
      edges := edges[g := edges[g] + edges[n]];
    }

    /** Puts back every diagram after the given one, as if they had never been taken out. */
    method RollbackAfter(g: nat, specs: seq<Spec>, extractions: seq<Nested>, saved: seq<SavedOrder>, index: nat,
                         ghost s: Store)
      requires g in s.objects && g in s.edges && Valid(s, g) && Fits(s, g, specs)
      requires Extracted(s, g, specs, |specs|, Now()) && index < |specs| == |extractions|
      requires AllNested(s, specs, s.edges[g], extractions) && OrdersSaved(s, specs, |specs|, saved)
      modifies this
      ensures Back(s, g, specs, Below(index + 1), Now())
      ensures forall o :: o in s.childList ==> InOrder(s, specs, Below(index + 1), o, childList)
    {
      hide Valid, Fits, Extracted, AllNested, OrdersSaved, Back, Filter, Inject, CanInject, RestoreInto, ParentsWithout,
        InOrder, ListsBack, ByID, SortStable;
      ExtractedBack(s, g, specs, Now());
      var k := index + 1;
      assert Gaps(k, k, |specs|) == Below(|specs|);
      var i := k;
      while i < |specs|
        invariant k <= i <= |specs| && Back(s, g, specs, Gaps(k, i, |specs|), Now())
      {
        var x := extractions[i];
        CanGoBack(s, g, specs, Gaps(k, i, |specs|), i, Now());
        NestedIs(s, specs, s.edges[g], extractions, i);
        InjectKeeps(Now(), x.restoreInto, x.graph, g);
        GoingBack(s, g, specs, Gaps(k, i, |specs|), i, Now());
        InjectBack(s, g, specs, Gaps(k, i, |specs|), i, Now(), x.externalEdges,
                   WithEdges(Inject(Now(), x.restoreInto, x.graph), g, x.externalEdges));
        assert Gaps(k, i, |specs|) - {i} == Gaps(k, i + 1, |specs|);
        InjectNested(x.restoreInto, x.graph);
        edges := edges[g := edges[g] + x.externalEdges];
        i := i + 1;
      }
      assert Gaps(k, i, |specs|) == Below(k);
      RestoreOrders(g, specs, saved, Below(k), s);
    }

    method RestoreOrders(g: nat, specs: seq<Spec>, saved: seq<SavedOrder>, ghost out: set<nat>, ghost s: Store)
      requires g in s.objects && g in s.edges && Valid(s, g) && Fits(s, g, specs)
      requires OrdersSaved(s, specs, |specs|, saved) && Back(s, g, specs, out, Now())
      modifies this`childList
      ensures Back(s, g, specs, out, Now())
      ensures forall o :: o in s.childList ==> InOrder(s, specs, out, o, childList)
    {
      hide Valid, Fits, OrdersSaved, Filter, ParentsWithout, InOrder, ListsBack, MapsBack, GraphBack, ObjectsBack,
        EdgesBack, ByID, SortStable;
      var j := 0;
      while j < |saved|
        invariant j <= |saved| && ListsBack(s, specs, out, childList)
        invariant forall i :: 0 <= i < j ==> saved[i].container in s.childList &&
                                              InOrder(s, specs, out, saved[i].container, childList)
      {
        OrderStep(s, g, specs, out, saved, j, childList);
        RestoreChildrenOrder(saved[j]);
        j := j + 1;
      }
      forall o | o in s.childList
        ensures InOrder(s, specs, out, o, childList)
      {
        AllInOrder(s, specs, out, saved, childList, o);
      }
    }

    // ----- the order of a whole board -----

    method SaveOrder(g: nat) returns (saved: SavedBoard)
      requires g in objects && g in edges && Root(g) in childList
      ensures saved.objectOrder == OrderOf(parent, objects[g])
      ensures saved.edgeOrder == EdgeOrderOf(parent, edges[g]) && saved.edgeCount == |edges[g]|
      ensures saved.rootOrder == SavedOrder(Root(g), OrderOf(parent, childList[Root(g)]))
    {
      hide AbsID, EdgeAbsID;
      var list := objects[g];
      var objectOrder: map<string, nat> := map[];
      var i := 0;
      while i < |list|
        invariant i <= |list| && objectOrder == OrderOf(parent, list[..i])
      {
        objectOrder := objectOrder[AbsID(parent, list[i]) := i];
        assert list[..i + 1][..i] == list[..i];
        i := i + 1;
      }
      assert list[..i] == list;
      var edgeList := edges[g];
      var edgeOrder: map<string, nat> := map[];
      i := 0;
      while i < |edgeList|
        invariant i <= |edgeList| && edgeOrder == EdgeOrderOf(parent, edgeList[..i])
      {
        edgeOrder := edgeOrder[EdgeAbsID(parent, edgeList[i]) := i];
        assert edgeList[..i + 1][..i] == edgeList[..i];
        i := i + 1;
      }
      assert edgeList[..i] == edgeList;
      var rootOrder := SaveChildrenOrder(Root(g));
      saved := SavedBoard(objectOrder, edgeOrder, |edgeList|, rootOrder);
    }

    method RestoreOrder(g: nat, saved: SavedBoard)
      requires g in objects && g in edges && saved.rootOrder.container in childList
      modifies this`objects, this`edges, this`childList
      ensures objects == old(objects)[g := SortStable(old(objects)[g], ByID(parent, saved.objectOrder))]
      ensures edges == old(edges)[g := SortStable(old(edges)[g], EdgeByID(parent, saved.edgeOrder, saved.edgeCount))]
      ensures var o := saved.rootOrder.container;
              childList == old(childList)[o := SortStable(old(childList)[o], ByID(parent, saved.rootOrder.order))]
    {
      objects := objects[g := SortStable(objects[g], ByID(parent, saved.objectOrder))];
      edges := edges[g := SortStable(edges[g], EdgeByID(parent, saved.edgeOrder, saved.edgeCount))];
      RestoreChildrenOrder(saved.rootOrder);
    }
  }

  /** The order of a graph's objects, its edges and its root's children. */
  datatype SavedBoard = SavedBoard(objectOrder: map<string, nat>, edgeOrder: map<string, nat>, edgeCount: nat,
                                   rootOrder: SavedOrder)

  lemma InsideKnown(p: Parents, spec: Spec, list: seq<Object>)
    ensures forall o :: o in Filter(list, Inside(p, spec)) ==> o in list
  {
    forall o | o in Filter(list, Inside(p, spec))
      ensures o in list
    {
      FilterHas(list, Inside(p, spec), o);
    }
  }

  lemma ExtractedDetached(s: Store, g: nat, specs: seq<Spec>, k: nat, t: Store)
    requires g in s.objects && g in s.edges && k <= |specs| && Extracted(s, g, specs, k, t)
    ensures Detached(s, g, specs, k, k, t)
  {
  }

  lemma AdoptedByNone(p: Parents, container: Object)
    requires !container.LifelineEnd?
    ensures AdoptedBy(p, [], container) == p
  {
  }

  lemma AdoptedByMore(p: Parents, list: seq<Object>, i: nat, container: Object)
    requires !container.LifelineEnd? && i < |list| && list[i] in p
    requires forall o :: o in list && o in p ==> Depth(container) < Depth(o)
    ensures Ranked(AdoptedBy(p, list[..i], container)[list[i] := container])
    ensures AdoptedBy(p, list[..i + 1], container) == AdoptedBy(p, list[..i], container)[list[i] := container]
  {
    var more := AdoptedBy(p, list[..i + 1], container);
    var next := AdoptedBy(p, list[..i], container)[list[i] := container];
    assert list[..i + 1] == list[..i] + [list[i]];
    assert more.Keys == next.Keys;
    forall o | o in p
      ensures more[o] == next[o]
    {
    }
  }

  lemma ByKeyNone()
    ensures ByKey([]) == map[]
  {
  }

  lemma ByKeyMore(kids: map<string, Object>, list: seq<Object>, i: nat)
    requires i < |list|
    ensures kids + ByKey(list[..i + 1]) == (kids + ByKey(list[..i]))[Key(list[i]) := list[i]]
  {
    assert list[..i + 1][..i] == list[..i];
  }

  lemma InjectKeeps(t: Store, into: Object, n: nat, g: nat)
    requires CanInject(t, into, n) && t.graph[into] == g
    ensures g in Inject(t, into, n).edges && Root(n) in t.childList && n in t.objects
  {
  }

  lemma NestedIs(s: Store, specs: seq<Spec>, prefix: seq<Edge>, xs: seq<Nested>, i: nat)
    requires AllNested(s, specs, prefix, xs) && i < |xs| && i < |specs|
    ensures xs[i].graph == s.next + i && xs[i].restoreInto == RestoreInto(s.parent, specs[i])
    ensures xs[i].externalEdges == Filter(prefix, ExternalTo(s.parent, specs, i))
  {
    assert IsNestedOf(s, specs, prefix, i, xs[i]);
  }

  /** The IDs recorded for a diagram are those of the ends of its external edges, on the board before. */
  lemma NestedIDs(s: Store, specs: seq<Spec>, prefix: seq<Edge>, xs: seq<Nested>)
    requires AllNested(s, specs, prefix, xs) && |xs| == |specs|
    ensures forall i :: 0 <= i < |xs| ==> |xs[i].externalIDs| == |xs[i].externalEdges|
    ensures forall i, j :: 0 <= i < |xs| && 0 <= j < |xs[i].externalIDs| ==>
                             var (e, ids) := (xs[i].externalEdges[j], xs[i].externalIDs[j]);
                             ids.0 == AbsID(s.parent, e.src) && ids.1 == AbsID(s.parent, e.dst) && !e.dst.LifelineEnd?
  {
    hide AbsID, Filter, Touches;
    forall i | 0 <= i < |xs|
      ensures IsNestedOf(s, specs, prefix, i, xs[i])
    {
    }
    forall i, j | 0 <= i < |xs| && 0 <= j < |xs[i].externalEdges|
      ensures !xs[i].externalEdges[j].dst.LifelineEnd?
    {
      assert IsNestedOf(s, specs, prefix, i, xs[i]);
      FilterHas(prefix, ExternalTo(s.parent, specs, i), xs[i].externalEdges[j]);
    }
  }

  /** The objects that go back have parents and graphs. */
  lemma GoingBack(s: Store, g: nat, specs: seq<Spec>, out: set<nat>, i: nat, t: Store)
    requires i < |specs| && i in out && g in s.objects && g in s.edges && Valid(s, g) && Fits(s, g, specs)
    requires CanInject(t, RestoreInto(s.parent, specs[i]), s.next + i)
    requires t.childList[Root(s.next + i)] == Tops(s, specs[i])
    requires Back(s, g, specs, out, t)
    ensures forall o :: o in t.childList[Root(s.next + i)] ==> o in t.parent
    ensures forall o :: o in t.objects[s.next + i] ==> o in t.graph
  {
    hide Linked, Antichain, ListsBack, MapsBack, EdgesBack, Filter, Tops, Owner, Unique, ParentsWithout, RestoreInto;
    TopsAre(s, specs, i);
    assert NewObjects(s, g, specs, i, t.objects);
    forall o | o in t.objects[s.next + i]
      ensures o in t.graph
    {
      FilterHas(s.objects[g], OwnedBy(s.parent, specs, i), o);
    }
  }

  lemma CanExtract(s: Store, g: nat, specs: seq<Spec>, k: nat, t: Store)
    requires g in s.objects && g in s.edges && Valid(s, g) && Fits(s, g, specs) && k < |specs|
    requires Extracted(s, g, specs, k, t)
    ensures var c := specs[k].container;
            && c.Item? && c in t.graph && t.graph[c] == g && CanTakeOut(t, g, specs[k])
            && Root(t.next) !in t.childList && t.parent[c] != Root(t.next)
            && (forall o :: o in t.objects[g] ==> o in t.graph)
            && (forall x :: x in t.childList[c] ==> x in t.parent)
  {
    hide Linked, Antichain, RootList, RootMap, Filter, Staying, StaysIn, OwnedGraph, ParentsWithout, NotOut, Untouched,
      Unique;
    NextContainer(s, g, specs, k, k, t);
    NoNewRoot(s, k);
    forall o | o in t.objects[g]
      ensures o in t.graph
    {
      FilterHas(s.objects[g], NotOut(s.parent, specs, Below(k)), o);
    }
  }

  lemma NextExternal(s: Store, g: nat, specs: seq<Spec>, k: nat, t: Store)
    requires g in s.objects && g in s.edges && Fits(s, g, specs) && k < |specs|
    requires Extracted(s, g, specs, k, t)
    ensures g in t.edges
    ensures Filter(t.edges[g], EdgesCrossing(t.parent, specs[k])) == Filter(s.edges[g], ExternalTo(s.parent, specs, k))
    ensures var external := Filter(s.edges[g], ExternalTo(s.parent, specs, k));
            forall e :: e in external ==>
                          AbsID(t.parent, e.src) == AbsID(s.parent, e.src) &&
                          AbsID(t.parent, e.dst) == AbsID(s.parent, e.dst)
  {
    hide Antichain, ListsAt, MapsAt, GraphAt, ObjectsAt, Filter, ParentsWithout, Untouched, NestedIn, ExternalTo,
      EdgesCrossing, AbsID;
    CrossingNow(s, g, specs, k, t.edges);
  }
}

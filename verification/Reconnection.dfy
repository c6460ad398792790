/**
 After layout every diagram goes back and the edges across diagrams are connected again, by nothing but the absolute
 IDs recorded for their ends when they were taken out.
 */
module Reconnection {
  import opened Lists
  import opened Forest
  import opened Extraction
  import opened ExtractionSteps
  import opened ExtractionBatch
  import opened ExtractionRollback
  import opened ExtractionOrder
  import opened ExtractionRuns
  import opened Layouts

  predicate HasID(p: Parents, list: seq<Object>, id: string) {
    exists k :: 0 <= k < |list| && AbsID(p, list[k]) == id
  }

  /** The object is the last of the list with this ID: a later one overwrites an earlier one's entry. */
  predicate LastWithID(p: Parents, list: seq<Object>, id: string, o: Object) {
    exists k :: 0 <= k < |list| && list[k] == o && AbsID(p, o) == id &&
      forall j :: k < j < |list| ==> AbsID(p, list[j]) != id
  }

  lemma LastIs(p: Parents, list: seq<Object>, id: string, o: Object)
    requires LastWithID(p, list, id, o)
    ensures o in list && AbsID(p, o) == id
  {
    hide AbsID;
  }

  lemma LastMore(p: Parents, list: seq<Object>, x: Object, id: string, o: Object)
    requires if AbsID(p, x) == id then o == x else LastWithID(p, list, id, o)
    ensures LastWithID(p, list + [x], id, o)
  {
    hide AbsID;
    var more := list + [x];
    if AbsID(p, x) == id {
      assert more[|list|] == o;
    } else {
      var k :| 0 <= k < |list| && list[k] == o && AbsID(p, o) == id &&
        forall j :: k < j < |list| ==> AbsID(p, list[j]) != id;
      assert more[k] == o;
    }
  }

  lemma HasMore(p: Parents, list: seq<Object>, x: Object, id: string)
    ensures HasID(p, list + [x], id) <==> HasID(p, list, id) || AbsID(p, x) == id
  {
    hide AbsID;
    var more := list + [x];
    if HasID(p, list, id) {
      var k :| 0 <= k < |list| && AbsID(p, list[k]) == id;
      assert AbsID(p, more[k]) == id;
    }
    assert AbsID(p, more[|list|]) == AbsID(p, x);
  }

  /** The map from absolute ID to object over a graph's objects. */
  method ObjectsByID(p: Parents, list: seq<Object>) returns (byID: map<string, Object>)
    ensures forall id :: id in byID <==> HasID(p, list, id)
    ensures forall id :: id in byID ==> LastWithID(p, list, id, byID[id])
  {
    hide HasID, LastWithID, AbsID;
    byID := map[];
    NoneHasID(p);
    assert list[..0] == [];
    var i := 0;
    while i < |list|
      invariant i <= |list|
      invariant forall id :: id in byID <==> HasID(p, list[..i], id)
      invariant forall id :: id in byID ==> LastWithID(p, list[..i], id, byID[id])
    {
      ghost var before := byID;
      byID := byID[AbsID(p, list[i]) := list[i]];
      assert list[..i + 1] == list[..i] + [list[i]];
      forall id
        ensures id in byID <==> HasID(p, list[..i + 1], id)
        ensures id in byID ==> LastWithID(p, list[..i + 1], id, byID[id])
      {
        HasMore(p, list[..i], list[i], id);
        if id in byID {
          LastMore(p, list[..i], list[i], id, byID[id]);
        }
      }
      i := i + 1;
    }
    assert list[..i] == list;
  }

  lemma NoneHasID(p: Parents)
    ensures forall id :: !HasID(p, [], id)
  {
  }

  /** The edge as it was but for its ends, which are the objects found under the two IDs. */
  predicate IsReconnected(p: Parents, list: seq<Object>, e: Edge, ids: (string, string), r: Edge) {
    && r == e.(src := r.src, dst := r.dst)
    && LastWithID(p, list, ids.0, r.src) && LastWithID(p, list, ids.1, r.dst)
  }

  /** Looks up the ends of one edge; fails at the first ID not found, with the source set when that was found. */
  method Connect(byID: map<string, Object>, e: Edge, ids: (string, string)) returns (ok: bool, r: Edge)
    ensures ok <==> ids.0 in byID && ids.1 in byID
    ensures ok ==> r == e.(src := byID[ids.0], dst := byID[ids.1])
  {
    r := e;
    if ids.0 !in byID {
      return false, r;
    }
    r := r.(src := byID[ids.0]);
    if ids.1 !in byID {
      return false, r;
    }
    r := r.(dst := byID[ids.1]);
    ok := true;
  }

  /** Appends the edges to graph g and looks their ends up among its objects; fails at the first ID not found. */
  method Reconnect(a: Arena, g: nat, external: seq<Edge>, ids: seq<(string, string)>) returns (ok: bool)
    requires g in a.objects && g in a.edges && |ids| == |external|
    modifies a`edges
    ensures ok <==> forall i :: 0 <= i < |ids| ==>
              HasID(a.parent, a.objects[g], ids[i].0) && HasID(a.parent, a.objects[g], ids[i].1)
    ensures g in a.edges && a.edges == old(a.edges)[g := a.edges[g]]
    ensures |a.edges[g]| == |old(a.edges)[g]| + |external| && old(a.edges)[g] <= a.edges[g]
    ensures ok ==> forall i :: 0 <= i < |external| ==>
              IsReconnected(a.parent, a.objects[g], external[i], ids[i], a.edges[g][|old(a.edges)[g]| + i])
  {
    hide HasID, LastWithID, AbsID;
    var list := a.edges[g];
    var byID := ObjectsByID(a.parent, a.objects[g]);
    var connected: seq<Edge> := [];
    var i := 0;
    while i < |external|
      invariant i <= |external| && |connected| == i && a.edges == old(a.edges)
      invariant forall j :: 0 <= j < i ==>
                  HasID(a.parent, a.objects[g], ids[j].0) && HasID(a.parent, a.objects[g], ids[j].1)
      invariant forall j :: 0 <= j < i ==>
                  IsReconnected(a.parent, a.objects[g], external[j], ids[j], connected[j])
    {
      var e;
      ok, e := Connect(byID, external[i], ids[i]);
      if !ok {
        assert !(HasID(a.parent, a.objects[g], ids[i].0) && HasID(a.parent, a.objects[g], ids[i].1));
        var some := connected + [e] + external[i + 1..];
        a.edges := a.edges[g := list + some];
        return;
      }
      connected := connected + [e];
      i := i + 1;
    }
    a.edges := a.edges[g := list + connected];
    ok := true;
  }

  // ----- the IDs lead back to the objects -----

  /** Among objects with distinct IDs, an object's ID leads to that object. */
  lemma IDLeadsBack(p: Parents, before: seq<Object>, list: seq<Object>, o: Object, x: Object)
    requires Identified(p, before) && multiset(list) == multiset(before) && o in before
    requires LastWithID(p, list, AbsID(p, o), x)
    ensures x == o
  {
    hide AbsID, LastWithID;
    LastIs(p, list, AbsID(p, o), x);
    assert x in multiset(before);
    var i, j :| 0 <= i < |before| && before[i] == o && 0 <= j < |before| && before[j] == x;
    assert AbsID(p, before[i]) == AbsID(p, before[j]);
  }

  lemma FoundByID(p: Parents, before: seq<Object>, list: seq<Object>, o: Object)
    requires multiset(list) == multiset(before) && o in before
    ensures HasID(p, list, AbsID(p, o))
  {
    hide AbsID;
    assert o in multiset(list);
    var k :| 0 <= k < |list| && list[k] == o;
  }

  /** The edges whose ends are found by the IDs they had on the board are the edges they were. */
  lemma ReconnectedSame(p: Parents, before: seq<Object>, list: seq<Object>, e: Edge, ids: (string, string), r: Edge)
    requires Identified(p, before) && multiset(list) == multiset(before) && e.src in before && e.dst in before
    requires ids == (AbsID(p, e.src), AbsID(p, e.dst)) && IsReconnected(p, list, e, ids, r)
    ensures r == e
  {
    hide AbsID, LastWithID, Identified;
    IDLeadsBack(p, before, list, e.src, r.src);
    IDLeadsBack(p, before, list, e.dst, r.dst);
  }

  // ----- a whole board -----

  /** The edges of the board end at its listed objects, or at a lifeline. */
  predicate EndsListed(objects: seq<Object>, edges: seq<Edge>) {
    forall e :: e in edges ==> e.src in objects && (e.dst.LifelineEnd? || e.dst in objects)
  }

  /** The containers that stay in the graph are found again by their IDs; the others' diagrams go back to the root. */
  method FindHomes(a: Arena, g: nat, specs: seq<Spec>, extractions: seq<Nested>, ghost s: Store)
      returns (ok: bool, homes: seq<Object>)
    requires g in s.objects && g in s.edges && Valid(s, g) && Fits(s, g, specs)
    requires Extracted(s, g, specs, |specs|, a.Now())
    requires Identified(s.parent, s.objects[g]) && g in a.objects
    requires |extractions| == |specs| && AllNested(s, specs, s.edges[g], extractions)
    ensures ok && |homes| == |specs|
    ensures forall i :: 0 <= i < |specs| ==> homes[i] == RestoreInto(s.parent, specs[i])
  {
    hide Valid, Fits, Extracted, Identified, HasID, LastWithID, AbsID, RestoreInto, AllNested, Filter;
    var byID := ObjectsByID(a.parent, a.objects[g]);
    homes := [];
    var i := 0;
    while i < |specs|
      invariant i <= |specs| && |homes| == i
      invariant forall j :: 0 <= j < i ==> homes[j] == RestoreInto(s.parent, specs[j])
    {
      NestedIs(s, specs, s.edges[g], extractions, i);
      if specs[i].includeSelf {
        homes := homes + [extractions[i].restoreInto];
      } else {
        var id := AbsID(a.parent, specs[i].container);
        ContainerFound(s, g, specs, i, a.Now());
        if id !in byID {
          return false, homes;
        }
        ContainerOnly(s, g, specs, i, a.Now(), byID[id]);
        homes := homes + [byID[id]];
      }
      i := i + 1;
    }
    ok := true;
  }

  lemma LeftInGraph(s: Store, g: nat, specs: seq<Spec>, t: Store, o: Object)
    requires g in s.objects && g in s.edges && Fits(s, g, specs) && Extracted(s, g, specs, |specs|, t)
    ensures g in t.objects && t.objects[g] == Filter(s.objects[g], NotOut(s.parent, specs, Below(|specs|)))
    ensures o in t.objects[g] <==> o in s.objects[g] && Owner(s.parent, specs, o) == |specs|
    ensures o in t.objects[g] ==> AbsID(t.parent, o) == AbsID(s.parent, o)
  {
    hide ListsAt, MapsAt, GraphAt, EdgesAt, Filter, Owner, Antichain, AbsID, ParentsWithout;
    FilterHas(s.objects[g], NotOut(s.parent, specs, Below(|specs|)), o);
    if o in t.objects[g] {
      AbsIDKept(s.parent, specs, Below(|specs|), s.next, o);
    }
  }

  lemma ContainerFound(s: Store, g: nat, specs: seq<Spec>, i: nat, t: Store)
    requires g in s.objects && g in s.edges && Fits(s, g, specs) && Extracted(s, g, specs, |specs|, t)
    requires i < |specs| && !specs[i].includeSelf && g in t.objects
    ensures HasID(t.parent, t.objects[g], AbsID(t.parent, specs[i].container))
    ensures specs[i].container in t.objects[g]
  {
    hide Extracted, Owner, Antichain, AbsID;
    var c := specs[i].container;
    ContainerOwner(s.parent, specs, i);
    LeftInGraph(s, g, specs, t, c);
    var k :| 0 <= k < |t.objects[g]| && t.objects[g][k] == c;
  }

  lemma ContainerOnly(s: Store, g: nat, specs: seq<Spec>, i: nat, t: Store, x: Object)
    requires g in s.objects && g in s.edges && Fits(s, g, specs) && Extracted(s, g, specs, |specs|, t)
    requires Identified(s.parent, s.objects[g])
    requires i < |specs| && !specs[i].includeSelf && g in t.objects
    requires LastWithID(t.parent, t.objects[g], AbsID(t.parent, specs[i].container), x)
    ensures x == RestoreInto(s.parent, specs[i])
  {
    hide Extracted, Fits, Owner, AbsID, LastWithID;
    var c := specs[i].container;
    ContainerFound(s, g, specs, i, t);
    LastIs(t.parent, t.objects[g], AbsID(t.parent, c), x);
    LeftInGraph(s, g, specs, t, c);
    LeftInGraph(s, g, specs, t, x);
    var list := s.objects[g];
    var j, k :| 0 <= j < |list| && list[j] == c && 0 <= k < |list| && list[k] == x;
    assert AbsID(s.parent, list[j]) == AbsID(s.parent, list[k]);
  }

  /** `u` is `t` with the external edges handed back already, in some order. */
  predicate HandedBack(u: Store, t: Store, g: nat, external: multiset<Edge>) {
    && u == t.(edges := u.edges) && u.edges.Keys == t.edges.Keys && g in t.edges
    && (forall n :: n in t.edges && n != g ==> u.edges[n] == t.edges[n])
    && multiset(u.edges[g]) == multiset(t.edges[g]) + external
  }

  lemma InjectApart(u: Store, t: Store, g: nat, external: multiset<Edge>, into: Object, n: nat, more: seq<Edge>)
    requires HandedBack(u, t, g, external) && CanInject(u, into, n) && u.graph[into] == g && n != g
    ensures CanInject(t, into, n) && t.graph[into] == g && u.childList == t.childList && u.parent == t.parent
    ensures u.objects == t.objects && u.graph == t.graph
    ensures g in Inject(u, into, n).edges
    ensures HandedBack(WithEdges(Inject(u, into, n), g, more), Inject(t, into, n), g, external + multiset(more))
  {
    hide AdoptedBy, ByKey, CutGraph, ChildMap;
  }

  /** With every diagram back, the graph lists the objects it listed. */
  lemma AllBack(s: Store, g: nat, specs: seq<Spec>, u: Store, t: Store, external: seq<Edge>)
    requires g in s.objects && g in s.edges && Back(s, g, specs, {}, u) && HandedBack(u, t, g, multiset(external))
    ensures t.parent == s.parent && g in t.edges && g in t.objects && multiset(t.objects[g]) == multiset(s.objects[g])
    ensures Back(s, g, specs, {}, WithEdges(t, g, external))
  {
    hide Filter, ListsBack, MapsBack, GraphBack, Owner;
    assert t.parent == s.parent;
    FilterAll(s.objects[g], NotOut(s.parent, specs, {}));
    var v := WithEdges(t, g, external);
    assert multiset(v.edges[g]) == multiset(u.edges[g]);
  }

  /** Every external edge is connected as it was. */
  lemma AllReconnected(p: Parents, before: seq<Object>, list: seq<Object>, edges: seq<Edge>, external: seq<Edge>,
                       ids: seq<(string, string)>, after: seq<Edge>)
    requires Identified(p, before) && multiset(list) == multiset(before) && AreEndIDs(p, external, ids)
    requires forall e :: e in external ==> e.src in before && e.dst in before
    requires |after| == |edges| + |external| && edges <= after
    requires forall i :: 0 <= i < |external| ==> IsReconnected(p, list, external[i], ids[i], after[|edges| + i])
    ensures after == edges + external
  {
    hide AbsID, Identified, IsReconnected;
    forall i | 0 <= i < |external|
      ensures after[|edges| + i] == external[i]
    {
      assert external[i] in external;
      ReconnectedSame(p, before, list, external[i], ids[i], after[|edges| + i]);
    }
  }

  lemma AllFound(p: Parents, before: seq<Object>, list: seq<Object>, external: seq<Edge>, ids: seq<(string, string)>)
    requires multiset(list) == multiset(before) && AreEndIDs(p, external, ids)
    requires forall e :: e in external ==> e.src in before && e.dst in before
    ensures |ids| == |external|
    ensures forall i :: 0 <= i < |ids| ==> HasID(p, list, ids[i].0) && HasID(p, list, ids[i].1)
  {
    hide AbsID, HasID;
    forall i | 0 <= i < |ids|
      ensures HasID(p, list, ids[i].0) && HasID(p, list, ids[i].1)
    {
      assert external[i] in external;
      FoundByID(p, before, list, external[i].src);
      FoundByID(p, before, list, external[i].dst);
    }
  }

  /** The external edges of a diagram are edges of the board, between two of its objects. */
  lemma ExternalListed(s: Store, g: nat, specs: seq<Spec>, xs: seq<Nested>, i: nat)
    requires g in s.objects && g in s.edges && AllNested(s, specs, s.edges[g], xs) && i < |xs| && i < |specs|
    requires EndsListed(s.objects[g], s.edges[g])
    ensures AreEndIDs(s.parent, xs[i].externalEdges, xs[i].externalIDs)
    ensures forall e :: e in xs[i].externalEdges ==> e.src in s.objects[g] && e.dst in s.objects[g]
  {
    hide AbsID, Filter, Touches, RestoreInto;
    assert IsNestedOf(s, specs, s.edges[g], i, xs[i]);
    forall e | e in xs[i].externalEdges
      ensures e.src in s.objects[g] && e.dst in s.objects[g]
    {
      FilterHas(s.edges[g], ExternalTo(s.parent, specs, i), e);
    }
  }

  lemma EndIDsJoin(p: Parents, a: seq<Edge>, b: seq<Edge>, aIDs: seq<(string, string)>, bIDs: seq<(string, string)>)
    requires AreEndIDs(p, a, aIDs) && AreEndIDs(p, b, bIDs)
    ensures AreEndIDs(p, a + b, aIDs + bIDs)
  {
    hide AbsID;
  }

  /** Every diagram goes back to its home, and the external edges are collected with their IDs. */
  method InjectAll(a: Arena, g: nat, specs: seq<Spec>, extractions: seq<Nested>, homes: seq<Object>, ghost s: Store)
      returns (external: seq<Edge>, ids: seq<(string, string)>, ghost u: Store)
    requires g in s.objects && g in s.edges && Valid(s, g) && Fits(s, g, specs)
    requires Extracted(s, g, specs, |specs|, a.Now())
    requires |extractions| == |homes| == |specs| && AllNested(s, specs, s.edges[g], extractions)
    requires forall i :: 0 <= i < |specs| ==> homes[i] == RestoreInto(s.parent, specs[i])
    requires EndsListed(s.objects[g], s.edges[g])
    modifies a
    ensures Back(s, g, specs, {}, u) && HandedBack(u, a.Now(), g, multiset(external))
    ensures AreEndIDs(s.parent, external, ids)
    ensures forall e :: e in external ==> e.src in s.objects[g] && e.dst in s.objects[g]
  {
    hide Linked, Fits, Extracted, AllNested, Back, Filter, Inject, CanInject, RestoreInto, HandedBack, AreEndIDs,
      EndsListed;
    ExtractedBack(s, g, specs, a.Now());
    u := a.Now();
    external, ids := [], [];
    EndIDsNone(s.parent);
    NothingHandedBack(s, g, specs, u);
    assert Gaps(0, 0, |specs|) == Below(|specs|);
    var i := 0;
    while i < |specs|
      invariant i <= |specs| && Back(s, g, specs, Gaps(0, i, |specs|), u)
      invariant HandedBack(u, a.Now(), g, multiset(external)) && AreEndIDs(s.parent, external, ids)
      invariant forall e :: e in external ==> e.src in s.objects[g] && e.dst in s.objects[g]
    {
      var x := extractions[i];
      NestedIs(s, specs, s.edges[g], extractions, i);
      ExternalListed(s, g, specs, extractions, i);
      EndIDsJoin(s.parent, external, x.externalEdges, ids, x.externalIDs);
      CanGoBack(s, g, specs, Gaps(0, i, |specs|), i, u);
      GoingBack(s, g, specs, Gaps(0, i, |specs|), i, u);
      InjectApart(u, a.Now(), g, multiset(external), homes[i], x.graph, x.externalEdges);
      ghost var v := WithEdges(Inject(u, homes[i], x.graph), g, x.externalEdges);
      InjectBack(s, g, specs, Gaps(0, i, |specs|), i, u, x.externalEdges, v);
      assert Gaps(0, i, |specs|) - {i} == Gaps(0, i + 1, |specs|);
      a.InjectNested(homes[i], x.graph);
      u := v;
      external, ids := external + x.externalEdges, ids + x.externalIDs;
      i := i + 1;
    }
    assert Gaps(0, i, |specs|) == {};
  }

  lemma NothingHandedBack(s: Store, g: nat, specs: seq<Spec>, t: Store)
    requires g in s.objects && g in s.edges && Back(s, g, specs, Below(|specs|), t)
    ensures HandedBack(t, t, g, multiset([]))
  {
    hide Filter, ListsBack, MapsBack, GraphBack, ObjectsBack;
  }

  /**
   A layout that moves nothing, around the whole board: every diagram is taken out, put back where its container is
   found by ID, every edge across diagrams is connected by the IDs recorded for its ends, and the saved order is
   restored. No ID is missing, and the board is the board it was, with every edge on the objects it was on.
   */
  method AllOutAndBack(a: Arena, g: nat, specs: seq<Spec>) returns (ok: bool)
    requires g in a.objects && g in a.edges && Valid(a.Now(), g) && Fits(a.Now(), g, specs)
    requires FromRoot(a.parent, g, specs) && EndsListed(a.objects[g], a.edges[g])
    requires Identified(a.parent, a.objects[g]) && EdgesIdentified(a.parent, a.edges[g])
    modifies a
    ensures ok && SameBoard(old(a.Now()), a.Now())
  {
    hide Linked, Fits, Extracted, AllNested, Back, Filter, RestoreInto, HandedBack, AreEndIDs, EndsListed, OrdersSaved,
      AbsID, HasID, IsReconnected, Identified, EdgesIdentified, OrderOf, EdgeOrderOf, ByID, EdgeByID, SortStable,
      SameBoard, FromRoot, Unique;
    ghost var s := a.Now();
    BoardRoot(s, g);
    var saved := a.SaveOrder(g);
    var extractions, orders := a.ExtractSubgraphs(g, specs);
    StillThere(s, g, specs, a.Now());
    var homes;
    ok, homes := FindHomes(a, g, specs, extractions, s);
    var external, ids, u := InjectAll(a, g, specs, extractions, homes, s);
    AllBack(s, g, specs, u, a.Now(), external);
    AllFound(s.parent, s.objects[g], a.objects[g], external, ids);
    ghost var t := a.Now();
    ok := Reconnect(a, g, external, ids);
    AllReconnected(s.parent, s.objects[g], a.objects[g], t.edges[g], external, ids, a.edges[g]);
    assert a.Now() == WithEdges(t, g, external);
    BackKnown(s, g, specs, {}, a.Now());
    ghost var shuffled := a.Now();
    a.RestoreOrder(g, saved);
    Finish(s, g, specs, saved, shuffled, a.Now());
  }

  lemma StillThere(s: Store, g: nat, specs: seq<Spec>, t: Store)
    requires g in s.objects && g in s.edges && Extracted(s, g, specs, |specs|, t)
    ensures g in t.objects && g in t.edges
  {
    hide Detached, Filter;
  }
}

/** One extraction step, written as the updates the code makes, moves the board from k diagrams out to k + 1. */
module ExtractionSteps {
  import opened Lists
  import opened Forest
  import opened Extraction

  // ----- the updates -----

  function CutParent(p: Parents, spec: Spec, list: seq<Object>, r: Object): Parents
    requires r.Root?
  {
    map o | o in p :: if (if spec.includeSelf then o == spec.container else o in list) then r else p[o]
  }

  function CutLists(lists: map<Object, seq<Object>>, spec: Spec, parent: Object, r: Object): map<Object, seq<Object>>
    requires spec.container in lists && parent in lists
  {
    var c := spec.container;
    if spec.includeSelf then lists[parent := RemoveFirst(lists[parent], c)][r := [c]]
    else lists[r := lists[c]][c := []]
  }

  function ByKey(list: seq<Object>): map<string, Object> {
    if list == [] then map[] else ByKey(list[..|list| - 1])[Key(list[|list| - 1]) := list[|list| - 1]]
  }

  function CutMaps(maps: map<Object, map<string, Object>>, spec: Spec, parent: Object, list: seq<Object>, r: Object)
    : map<Object, map<string, Object>>
    requires parent in maps
  {
    var c := spec.container;
    if spec.includeSelf then maps[parent := maps[parent] - {Key(c)}][r := map[Key(c) := c]]
    else maps[r := ByKey(list)][c := map[]]
  }

  function CutGraph(graph: map<Object, nat>, objects: seq<Object>, n: nat): map<Object, nat> {
    map o | o in graph :: if o in objects then n else graph[o]
  }

  // ----- the steps -----

  lemma ChildOf(s: Store, o: Object)
    requires Linked(s) && o in s.childList
    ensures Unique(s.childList[o])
    ensures forall x :: x in s.childList[o] ==> x in s.parent && s.parent[x] == o
  {
  }

  lemma NoNewRoot(s: Store, k: nat)
    requires Linked(s)
    ensures Root(s.next + k) !in s.childList && Root(s.next + k) !in s.children && Root(s.next + k) !in s.graph
  {
  }

  lemma OldRoot(s: Store, o: Object)
    requires Linked(s) && o in s.childList && o.Root?
    ensures o.board < s.next
  {
  }

  lemma KnownChild(s: Store, o: Object)
    requires Linked(s) && o in s.parent
    ensures o in s.childList && s.parent[o] in s.childList && o in s.childList[s.parent[o]]
  {
  }

  lemma StaysStep(p: Parents, specs: seq<Spec>, k: nat, o: Object)
    requires Antichain(p, specs) && k < |specs|
    ensures Stays(p, specs, Below(k + 1), o) == (Stays(p, specs, Below(k), o) && !IsTop(p, specs[k], o))
  {
    if IsTop(p, specs[k], o) {
      TopOwned(p, specs, o, k);
    }
  }

  lemma TopStays(p: Parents, specs: seq<Spec>, k: nat, o: Object)
    requires Antichain(p, specs) && k < |specs| && IsTop(p, specs[k], o)
    ensures Stays(p, specs, Below(k), o) && Owner(p, specs, o) == k
  {
    TopOwned(p, specs, o, k);
  }

  /** The children of a container that is about to be emptied are all still there. */
  lemma ContainerList(s: Store, specs: seq<Spec>, k: nat)
    requires Linked(s) && Antichain(s.parent, specs) && k < |specs| && specs[k].container in s.childList
    requires !specs[k].includeSelf
    ensures Filter(s.childList[specs[k].container], StaysIn(s.parent, specs, Below(k))) ==
            s.childList[specs[k].container]
    ensures forall o :: o in s.childList[specs[k].container] <==> IsTop(s.parent, specs[k], o)
  {
    var list := s.childList[specs[k].container];
    forall o
      ensures o in list <==> IsTop(s.parent, specs[k], o)
    {
      ChildOf(s, specs[k].container);
      if IsTop(s.parent, specs[k], o) {
        KnownChild(s, o);
      }
    }
    hide Linked;
    forall o | o in list
      ensures Stays(s.parent, specs, Below(k), o)
    {
      TopStays(s.parent, specs, k, o);
    }
    FilterAll(list, StaysIn(s.parent, specs, Below(k)));
  }

  lemma ParentStep(s: Store, specs: seq<Spec>, k: nat, list: seq<Object>)
    requires Linked(s) && Antichain(s.parent, specs) && k < |specs| && specs[k].container in s.parent
    requires !specs[k].includeSelf ==> list == s.childList[specs[k].container]
    ensures CutParent(ParentsWithout(s.parent, specs, Below(k), s.next), specs[k], list, Root(s.next + k)) ==
            ParentsWithout(s.parent, specs, Below(k + 1), s.next)
  {
    hide Linked, Antichain, ParentsWithout;
    var p := s.parent;
    var cut := CutParent(ParentsWithout(p, specs, Below(k), s.next), specs[k], list, Root(s.next + k));
    if !specs[k].includeSelf {
      KnownChild(s, specs[k].container);
      ContainerList(s, specs, k);
    }
    forall o | o in p
      ensures cut[o] == ParentsWithout(p, specs, Below(k + 1), s.next)[o]
    {
      ParentStepAt(p, specs, k, s.next, o);
    }
  }

  lemma ParentStepAt(p: Parents, specs: seq<Spec>, k: nat, base: nat, o: Object)
    requires Antichain(p, specs) && k < |specs| && o in p
    ensures ParentsWithout(p, specs, Below(k + 1), base)[o] ==
            if IsTop(p, specs[k], o) then Root(base + k) else ParentsWithout(p, specs, Below(k), base)[o]
  {
    StaysStep(p, specs, k, o);
    if IsTop(p, specs[k], o) {
      TopStays(p, specs, k, o);
    }
  }

  /** A list without tops of the diagram does not change. */
  lemma FilterStep(s: Store, specs: seq<Spec>, k: nat, list: seq<Object>)
    requires Antichain(s.parent, specs) && k < |specs|
    requires forall o :: o in list ==> !IsTop(s.parent, specs[k], o)
    ensures Filter(list, StaysIn(s.parent, specs, Below(k + 1))) == Filter(list, StaysIn(s.parent, specs, Below(k)))
  {
    forall o | o in list
      ensures StaysIn(s.parent, specs, Below(k + 1))(o) == StaysIn(s.parent, specs, Below(k))(o)
    {
      StaysStep(s.parent, specs, k, o);
    }
    FilterSame(list, StaysIn(s.parent, specs, Below(k + 1)), StaysIn(s.parent, specs, Below(k)));
  }

  lemma FilterCut(s: Store, specs: seq<Spec>, k: nat, list: seq<Object>)
    requires Antichain(s.parent, specs) && k < |specs| && specs[k].includeSelf && Unique(list)
    ensures Filter(list, StaysIn(s.parent, specs, Below(k + 1))) ==
            RemoveFirst(Filter(list, StaysIn(s.parent, specs, Below(k))), specs[k].container)
  {
    var c := specs[k].container;
    var stays := StaysIn(s.parent, specs, Below(k));
    var other := (o: Object) => o != c;
    forall o | o in list
      ensures StaysIn(s.parent, specs, Below(k + 1))(o) == (stays(o) && other(o))
    {
      StaysStep(s.parent, specs, k, o);
    }
    FilterTwice(list, stays, other, StaysIn(s.parent, specs, Below(k + 1)));
    FilterUnique(list, stays);
    RemoveFirstFilters(Filter(list, stays), c, other);
  }

  lemma FilterEmptied(s: Store, specs: seq<Spec>, k: nat, list: seq<Object>)
    requires Antichain(s.parent, specs) && k < |specs|
    requires forall o :: o in list ==> IsTop(s.parent, specs[k], o)
    ensures Filter(list, StaysIn(s.parent, specs, Below(k + 1))) == []
  {
    forall o | o in list
      ensures !StaysIn(s.parent, specs, Below(k + 1))(o)
    {
      StaysStep(s.parent, specs, k, o);
    }
    FilterNone(list, StaysIn(s.parent, specs, Below(k + 1)));
  }

  lemma ListStepAt(s: Store, specs: seq<Spec>, k: nat, o: Object)
    requires Linked(s) && Antichain(s.parent, specs) && k < |specs| && specs[k].container in s.parent
    requires o in s.childList
    ensures Filter(s.childList[o], StaysIn(s.parent, specs, Below(k + 1))) ==
            var c := specs[k].container;
            var before := Filter(s.childList[o], StaysIn(s.parent, specs, Below(k)));
            if specs[k].includeSelf then (if o == s.parent[c] then RemoveFirst(before, c) else before)
            else if o == c then [] else before
  {
    hide Linked, Antichain, StaysIn, RemoveFirst, Filter, Unique;
    var c := specs[k].container;
    ChildOf(s, o);
    if specs[k].includeSelf {
      if o == s.parent[c] {
        FilterCut(s, specs, k, s.childList[o]);
      } else {
        FilterStep(s, specs, k, s.childList[o]);
      }
    } else if o == c {
      FilterEmptied(s, specs, k, s.childList[o]);
    } else {
      FilterStep(s, specs, k, s.childList[o]);
    }
  }

  lemma ListsStepOld(s: Store, specs: seq<Spec>, k: nat, n: nat, lists: map<Object, seq<Object>>, o: Object)
    requires Linked(s) && Antichain(s.parent, specs) && k < n <= |specs| && specs[k].container in s.parent
    requires ListsAt(s, specs, k, n, lists) && o in s.childList
    requires specs[k].container in lists && s.parent[specs[k].container] in lists
    ensures CutLists(lists, specs[k], s.parent[specs[k].container], Root(s.next + k))[o] ==
            Filter(s.childList[o], StaysIn(s.parent, specs, Below(k + 1)))
  {
    hide Filter, StaysIn, Linked, Antichain, RemoveFirst, RootList;
    NoNewRoot(s, k);
    ListStepAt(s, specs, k, o);
  }

  lemma ListsStepNew(s: Store, specs: seq<Spec>, k: nat, n: nat, lists: map<Object, seq<Object>>, i: nat)
    requires Linked(s) && Antichain(s.parent, specs) && k < n <= |specs| && specs[k].container in s.parent
    requires ListsAt(s, specs, k, n, lists) && i < n
    requires specs[k].container in lists && s.parent[specs[k].container] in lists
    ensures RootList(s, specs, k + 1, i, CutLists(lists, specs[k], s.parent[specs[k].container], Root(s.next + k)))
  {
    hide Filter, StaysIn, Linked, Antichain, RemoveFirst;
    NoNewRoot(s, i);
    KnownChild(s, specs[k].container);
    if !specs[k].includeSelf {
      ContainerList(s, specs, k);
    }
    assert RootList(s, specs, k, i, lists);
  }

  lemma ListsStep(s: Store, specs: seq<Spec>, k: nat, n: nat, lists: map<Object, seq<Object>>)
    requires Linked(s) && Antichain(s.parent, specs) && k < n <= |specs| && specs[k].container in s.parent
    requires ListsAt(s, specs, k, n, lists)
    ensures specs[k].container in lists && s.parent[specs[k].container] in lists
    ensures ListsAt(s, specs, k + 1, n, CutLists(lists, specs[k], s.parent[specs[k].container], Root(s.next + k)))
  {
    hide Filter, StaysIn, Linked, Antichain, RemoveFirst;
    var c := specs[k].container;
    KnownChild(s, c);
    var cut := CutLists(lists, specs[k], s.parent[c], Root(s.next + k));
    assert RootList(s, specs, k, k, lists);
    assert cut.Keys == lists.Keys;
    forall o | o in s.childList
      ensures cut[o] == Filter(s.childList[o], StaysIn(s.parent, specs, Below(k + 1)))
    {
      ListsStepOld(s, specs, k, n, lists, o);
    }
    var k' := k + 1;
    forall i: nat | i < n
      ensures RootList(s, specs, k', i, cut)
    {
      ListsStepNew(s, specs, k, n, lists, i);
    }
  }

  // ----- child indexes -----

  lemma {:induction false} ByKeyHas(list: seq<Object>)
    ensures forall key :: key in ByKey(list) ==> ByKey(list)[key] in list && Key(ByKey(list)[key]) == key
    ensures forall x :: x in list ==> Key(x) in ByKey(list)
  {
    hide Key;
    if list != [] {
      var n := |list| - 1;
      ByKeyHas(list[..n]);
      assert list == list[..n] + [list[n]];
    }
  }

  lemma ByKeyIndexed(list: seq<Object>, children: map<string, Object>)
    requires Indexed(list, children)
    ensures ByKey(list) == children
  {
    hide Key;
    ByKeyHas(list);
    forall key | key in ByKey(list)
      ensures key in children && children[key] == ByKey(list)[key]
    {
    }
    forall key | key in children
      ensures key in ByKey(list)
    {
      assert Key(children[key]) == key;
    }
  }

  lemma IndexOf(s: Store, o: Object)
    requires Linked(s) && o in s.childList
    ensures o in s.children && Indexed(s.childList[o], s.children[o])
  {
  }

  lemma StayingSame(s: Store, specs: seq<Spec>, k: nat, o: Object)
    requires Linked(s) && Antichain(s.parent, specs) && k < |specs| && o in s.children && o in s.childList
    requires forall x :: x in s.childList[o] ==> !IsTop(s.parent, specs[k], x)
    ensures Staying(s.children[o], StaysIn(s.parent, specs, Below(k + 1))) ==
            Staying(s.children[o], StaysIn(s.parent, specs, Below(k)))
  {
    hide Linked, Antichain, IsTop, Stays, Key;
    IndexOf(s, o);
    forall key | key in s.children[o]
      ensures Stays(s.parent, specs, Below(k + 1), s.children[o][key]) ==
              Stays(s.parent, specs, Below(k), s.children[o][key])
    {
      StaysStep(s.parent, specs, k, s.children[o][key]);
    }
  }

  lemma StayingCut(s: Store, specs: seq<Spec>, k: nat, o: Object)
    requires Linked(s) && Antichain(s.parent, specs) && k < |specs| && o in s.children && o in s.childList
    requires specs[k].includeSelf && specs[k].container in s.childList[o]
    ensures Staying(s.children[o], StaysIn(s.parent, specs, Below(k + 1))) ==
            Staying(s.children[o], StaysIn(s.parent, specs, Below(k))) - {Key(specs[k].container)}
  {
    hide Linked, Antichain, Stays, Key;
    IndexOf(s, o);
    forall key | key in s.children[o]
      ensures Stays(s.parent, specs, Below(k + 1), s.children[o][key]) ==
              (Stays(s.parent, specs, Below(k), s.children[o][key]) && key != Key(specs[k].container))
    {
      StaysStep(s.parent, specs, k, s.children[o][key]);
    }
  }

  lemma StayingEmptied(s: Store, specs: seq<Spec>, k: nat, o: Object)
    requires Linked(s) && Antichain(s.parent, specs) && k < |specs| && o in s.children && o in s.childList
    requires forall x :: x in s.childList[o] ==> IsTop(s.parent, specs[k], x)
    ensures Staying(s.children[o], StaysIn(s.parent, specs, Below(k + 1))) == map[]
  {
    hide Linked, Antichain, Stays, Key, IsTop;
    IndexOf(s, o);
    forall key | key in s.children[o]
      ensures !Stays(s.parent, specs, Below(k + 1), s.children[o][key])
    {
      StaysStep(s.parent, specs, k, s.children[o][key]);
    }
  }

  lemma MapsStepOld(s: Store, specs: seq<Spec>, k: nat, n: nat, maps: map<Object, map<string, Object>>, o: Object)
    requires Linked(s) && Antichain(s.parent, specs) && k < n <= |specs| && specs[k].container in s.parent
    requires MapsAt(s, specs, k, n, maps) && o in s.childList && o in s.children
    requires specs[k].container in s.childList && s.parent[specs[k].container] in maps
    ensures CutMaps(maps, specs[k], s.parent[specs[k].container], s.childList[specs[k].container],
                    Root(s.next + k))[o] ==
            Staying(s.children[o], StaysIn(s.parent, specs, Below(k + 1)))
  {
    hide Linked, Antichain, Staying, StaysIn, RootMap, ByKey, Key;
    var c := specs[k].container;
    NoNewRoot(s, k);
    ChildOf(s, o);
    KnownChild(s, c);
    if specs[k].includeSelf {
      if o == s.parent[c] {
        StayingCut(s, specs, k, o);
      } else {
        StayingSame(s, specs, k, o);
      }
    } else if o == c {
      StayingEmptied(s, specs, k, o);
    } else {
      StayingSame(s, specs, k, o);
    }
  }

  lemma MapsStepNew(s: Store, specs: seq<Spec>, k: nat, n: nat, maps: map<Object, map<string, Object>>, i: nat)
    requires Linked(s) && Antichain(s.parent, specs) && k < n <= |specs| && specs[k].container in s.parent
    requires MapsAt(s, specs, k, n, maps) && i < n
    requires specs[k].container in s.childList && s.parent[specs[k].container] in maps
    ensures RootMap(s, specs, k + 1, i,
                    CutMaps(maps, specs[k], s.parent[specs[k].container], s.childList[specs[k].container],
                            Root(s.next + k)))
  {
    hide Linked, Antichain, Staying, StaysIn, ByKey, Key, Indexed;
    NoNewRoot(s, i);
    KnownChild(s, specs[k].container);
    IndexOf(s, specs[k].container);
    IndexOf(s, s.parent[specs[k].container]);
    ByKeyIndexed(s.childList[specs[k].container], s.children[specs[k].container]);
    assert RootMap(s, specs, k, i, maps);
  }

  lemma MapsStep(s: Store, specs: seq<Spec>, k: nat, n: nat, maps: map<Object, map<string, Object>>)
    requires Linked(s) && Antichain(s.parent, specs) && k < n <= |specs| && specs[k].container in s.parent
    requires MapsAt(s, specs, k, n, maps)
    ensures specs[k].container in s.childList && s.parent[specs[k].container] in maps
    ensures MapsAt(s, specs, k + 1, n,
                   CutMaps(maps, specs[k], s.parent[specs[k].container], s.childList[specs[k].container],
                           Root(s.next + k)))
  {
    hide Linked, Antichain, Staying, StaysIn, RootMap, ByKey, Key, Indexed;
    var c := specs[k].container;
    KnownChild(s, c);
    IndexOf(s, c);
    IndexOf(s, s.parent[c]);
    var cut := CutMaps(maps, specs[k], s.parent[c], s.childList[c], Root(s.next + k));
    assert cut.Keys == maps.Keys + {Root(s.next + k)};
    forall o | o in s.children
      ensures cut[o] == Staying(s.children[o], StaysIn(s.parent, specs, Below(k + 1)))
    {
      KnownLists(s, o);
      MapsStepOld(s, specs, k, n, maps, o);
    }
    var k' := k + 1;
    forall i: nat | i < n
      ensures RootMap(s, specs, k', i, cut)
    {
      MapsStepNew(s, specs, k, n, maps, i);
    }
  }

  lemma KnownLists(s: Store, o: Object)
    requires Linked(s) && o in s.children
    ensures o in s.childList
  {
  }

  // ----- graph pointers -----

  lemma GraphStep(s: Store, g: nat, specs: seq<Spec>, k: nat, n: nat, graph: map<Object, nat>)
    requires g in s.objects && Valid(s, g) && Antichain(s.parent, specs) && k < n <= |specs|
    requires GraphAt(s, g, specs, k, n, graph)
    ensures GraphAt(s, g, specs, k + 1, n, CutGraph(graph, Filter(s.objects[g], OwnedBy(s.parent, specs, k)),
                                                    s.next + k))
  {
    hide Linked, Listed, Antichain, Owner, Filter;
    var owned := Filter(s.objects[g], OwnedBy(s.parent, specs, k));
    var cut := CutGraph(graph, owned, s.next + k);
    forall o | o in s.graph
      ensures cut[o] == OwnedGraph(s, g, specs, Below(k + 1), o)
    {
      FilterHas(s.objects[g], OwnedBy(s.parent, specs, k), o);
    }
    forall o | o in NewRoots(s.next, n)
      ensures cut[o] == o.board
    {
      FilterHas(s.objects[g], OwnedBy(s.parent, specs, k), o);
      ListedItem(s, g, o);
    }
  }

  lemma ListedItem(s: Store, g: nat, o: Object)
    requires Listed(s, g)
    ensures o in s.objects[g] ==> o.Item? && o in s.parent
  {
  }

  // ----- lists -----

  function Inside(p: Parents, spec: Spec): Object -> bool {
    o => IsNested(p, spec, o)
  }

  function Outside(p: Parents, spec: Spec): Object -> bool {
    o => !IsNested(p, spec, o)
  }

  predicate EdgeInside(p: Parents, spec: Spec, e: Edge) {
    IsNested(p, spec, e.src) && (e.dst.LifelineEnd? || IsNested(p, spec, e.dst))
  }

  predicate EdgeOutside(p: Parents, spec: Spec, e: Edge) {
    !IsNested(p, spec, e.src) && (e.dst.LifelineEnd? || !IsNested(p, spec, e.dst))
  }

  function EdgesInside(p: Parents, spec: Spec): Edge -> bool {
    e => EdgeInside(p, spec, e)
  }

  function EdgesOutside(p: Parents, spec: Spec): Edge -> bool {
    e => EdgeOutside(p, spec, e)
  }

  function EdgesCrossing(p: Parents, spec: Spec): Edge -> bool {
    e => !EdgeInside(p, spec, e) && !EdgeOutside(p, spec, e)
  }

  /** Each pair holds the absolute IDs of an edge's ends, its source first; they connect the edge again. */
  predicate AreEndIDs(p: Parents, edges: seq<Edge>, ids: seq<(string, string)>) {
    && |ids| == |edges|
    && forall i :: 0 <= i < |ids| ==> ids[i] == (AbsID(p, edges[i].src), AbsID(p, edges[i].dst))
  }

  lemma EndIDsNone(p: Parents)
    ensures AreEndIDs(p, [], [])
  {
  }

  lemma EndIDsOnce(p: Parents, edges: seq<Edge>, a: seq<(string, string)>, b: seq<(string, string)>)
    requires AreEndIDs(p, edges, a) && AreEndIDs(p, edges, b)
    ensures a == b
  {
    hide AbsID;
  }

  lemma EndIDsRead(p: Parents, edges: seq<Edge>, ids: seq<(string, string)>)
    requires AreEndIDs(p, edges, ids)
    ensures |ids| == |edges|
    ensures forall i :: 0 <= i < |ids| ==> ids[i].0 == AbsID(p, edges[i].src) && ids[i].1 == AbsID(p, edges[i].dst)
  {
    hide AbsID;
  }

  lemma EndIDsMore(p: Parents, edges: seq<Edge>, ids: seq<(string, string)>, e: Edge)
    requires AreEndIDs(p, edges, ids)
    ensures AreEndIDs(p, edges + [e], ids + [(AbsID(p, e.src), AbsID(p, e.dst))])
  {
    hide AbsID;
  }

  /** An edge handed back has exactly one end in the diagram, and does not end at a lifeline. */
  lemma CrossingEnds(p: Parents, spec: Spec, list: seq<Edge>, e: Edge)
    requires e in Filter(list, EdgesCrossing(p, spec))
    ensures e in list && !e.dst.LifelineEnd? && IsNested(p, spec, e.src) != IsNested(p, spec, e.dst)
  {
    hide Filter, IsNested;
    FilterHas(list, EdgesCrossing(p, spec), e);
  }

  /** With earlier diagrams out, membership in the next one is still what it was on the whole board. */
  lemma NestedNow(p: Parents, specs: seq<Spec>, k: nat, base: nat, o: Object)
    requires Antichain(p, specs) && k < |specs| && Remains(p, specs, Below(k), o)
    ensures IsNested(ParentsWithout(p, specs, Below(k), base), specs[k], o) <==> Owner(p, specs, o) == k
  {
    var now := ParentsWithout(p, specs, Below(k), base);
    AncestryKept(p, specs, Below(k), base, o, specs[k].container);
    if o in p {
      RemainsUp(p, specs, Below(k), base, o);
      AncestryKept(p, specs, Below(k), base, p[o], specs[k].container);
    }
    hide Antichain, ParentsWithout, Remains;
    assert IsNested(now, specs[k], o) == IsNested(p, specs[k], o);
    if IsNested(p, specs[k], o) {
      OwnerIs(p, specs, o, k);
    }
  }

  lemma ObjectsStep(s: Store, g: nat, specs: seq<Spec>, k: nat, objects: map<nat, seq<Object>>)
    requires g in s.objects && Listed(s, g) && Antichain(s.parent, specs) && k < |specs|
    requires ObjectsAt(s, g, specs, k, objects)
    ensures var now := ParentsWithout(s.parent, specs, Below(k), s.next);
            ObjectsAt(s, g, specs, k + 1, objects[g := Filter(objects[g], Outside(now, specs[k]))]
                                                 [s.next + k := Filter(objects[g], Inside(now, specs[k]))])
  {
    hide Antichain, Owner, Filter, ParentsWithout, IsNested, Unique;
    var p := s.parent;
    var now := ParentsWithout(p, specs, Below(k), s.next);
    forall o | o in s.objects[g]
      ensures NotOut(p, specs, Below(k + 1))(o) == (NotOut(p, specs, Below(k))(o) && Outside(now, specs[k])(o))
      ensures OwnedBy(p, specs, k)(o) == (NotOut(p, specs, Below(k))(o) && Inside(now, specs[k])(o))
    {
      if Remains(p, specs, Below(k), o) {
        NestedNow(p, specs, k, s.next, o);
      }
    }
    FilterTwice(s.objects[g], NotOut(p, specs, Below(k)), Outside(now, specs[k]), NotOut(p, specs, Below(k + 1)));
    FilterTwice(s.objects[g], NotOut(p, specs, Below(k)), Inside(now, specs[k]), OwnedBy(p, specs, k));
    ObjectsMore(s, g, specs, k, objects, Filter(s.objects[g], NotOut(p, specs, Below(k + 1))));
  }

  lemma ObjectsMore(s: Store, g: nat, specs: seq<Spec>, k: nat, objects: map<nat, seq<Object>>, left: seq<Object>)
    requires g in s.objects && k < |specs| && g < s.next && (forall n :: n in s.objects ==> n < s.next)
    requires ObjectsAt(s, g, specs, k, objects)
    requires left == Filter(s.objects[g], NotOut(s.parent, specs, Below(k + 1)))
    ensures ObjectsAt(s, g, specs, k + 1, objects[g := left][s.next + k :=
                                                             Filter(s.objects[g], OwnedBy(s.parent, specs, k))])
  {
    hide Filter, NotOut, OwnedBy;
    var more := objects[g := left][s.next + k := Filter(s.objects[g], OwnedBy(s.parent, specs, k))];
    forall i: nat | i < k + 1
      ensures NewObjects(s, g, specs, i, more)
    {
      if i < k {
        assert NewObjects(s, g, specs, i, objects);
      }
    }
  }

  lemma EdgeNow(p: Parents, specs: seq<Spec>, k: nat, base: nat, e: Edge)
    requires Antichain(p, specs) && k < |specs|
    ensures var now := ParentsWithout(p, specs, Below(k), base);
            && Untouched(p, specs, Below(k + 1))(e) == (Untouched(p, specs, Below(k))(e) &&
                                                        EdgesOutside(now, specs[k])(e))
            && NestedIn(p, specs, k)(e) == (Untouched(p, specs, Below(k))(e) && EdgesInside(now, specs[k])(e))
            && ExternalTo(p, specs, k)(e) == (Untouched(p, specs, Below(k))(e) && EdgesCrossing(now, specs[k])(e))
  {
    hide Antichain, Owner, ParentsWithout, IsNested;
    if Untouched(p, specs, Below(k))(e) {
      NestedNow(p, specs, k, base, e.src);
      if !e.dst.LifelineEnd? {
        NestedNow(p, specs, k, base, e.dst);
      }
    }
  }

  lemma EdgesStep(s: Store, g: nat, specs: seq<Spec>, k: nat, edges: map<nat, seq<Edge>>)
    requires g in s.edges && Listed(s, g) && Antichain(s.parent, specs) && k < |specs|
    requires EdgesAt(s, g, specs, k, edges)
    ensures var now := ParentsWithout(s.parent, specs, Below(k), s.next);
            EdgesAt(s, g, specs, k + 1, edges[g := Filter(edges[g], EdgesOutside(now, specs[k]))]
                                             [s.next + k := Filter(edges[g], EdgesInside(now, specs[k]))])
  {
    hide Antichain, Filter, ParentsWithout, Untouched, NestedIn, ExternalTo, EdgesInside, EdgesOutside, Unique;
    var p := s.parent;
    var now := ParentsWithout(p, specs, Below(k), s.next);
    forall e | e in s.edges[g]
      ensures Untouched(p, specs, Below(k + 1))(e) == (Untouched(p, specs, Below(k))(e) &&
                                                       EdgesOutside(now, specs[k])(e))
      ensures NestedIn(p, specs, k)(e) == (Untouched(p, specs, Below(k))(e) && EdgesInside(now, specs[k])(e))
    {
      EdgeNow(p, specs, k, s.next, e);
    }
    FilterTwice(s.edges[g], Untouched(p, specs, Below(k)), EdgesOutside(now, specs[k]),
                Untouched(p, specs, Below(k + 1)));
    FilterTwice(s.edges[g], Untouched(p, specs, Below(k)), EdgesInside(now, specs[k]), NestedIn(p, specs, k));
    EdgesMore(s, g, specs, k, edges, Filter(s.edges[g], Untouched(p, specs, Below(k + 1))));
  }

  lemma EdgesMore(s: Store, g: nat, specs: seq<Spec>, k: nat, edges: map<nat, seq<Edge>>, left: seq<Edge>)
    requires g in s.edges && k < |specs| && g < s.next && (forall n :: n in s.edges ==> n < s.next)
    requires EdgesAt(s, g, specs, k, edges)
    requires left == Filter(s.edges[g], Untouched(s.parent, specs, Below(k + 1)))
    ensures EdgesAt(s, g, specs, k + 1, edges[g := left][s.next + k :=
                                                         Filter(s.edges[g], NestedIn(s.parent, specs, k))])
  {
    hide Filter, Untouched, NestedIn;
    var more := edges[g := left][s.next + k := Filter(s.edges[g], NestedIn(s.parent, specs, k))];
    forall i: nat | i < k + 1
      ensures NewEdges(s, g, specs, i, more)
    {
      if i < k {
        assert NewEdges(s, g, specs, i, edges);
      }
    }
  }

  /** The external edges of the next diagram, and the IDs recorded for their ends, are those of the whole board. */
  lemma CrossingNow(s: Store, g: nat, specs: seq<Spec>, k: nat, edges: map<nat, seq<Edge>>)
    requires g in s.edges && Antichain(s.parent, specs) && k < |specs|
    requires EdgesAt(s, g, specs, k, edges)
    ensures var now := ParentsWithout(s.parent, specs, Below(k), s.next);
            var external := Filter(s.edges[g], ExternalTo(s.parent, specs, k));
            && Filter(edges[g], EdgesCrossing(now, specs[k])) == external
            && (forall e :: e in external ==>
                 AbsID(now, e.src) == AbsID(s.parent, e.src) && AbsID(now, e.dst) == AbsID(s.parent, e.dst))
  {
    hide Antichain, Filter, ParentsWithout, Untouched, ExternalTo, EdgesCrossing;
    var p := s.parent;
    var now := ParentsWithout(p, specs, Below(k), s.next);
    forall e | e in s.edges[g]
      ensures ExternalTo(p, specs, k)(e) == (Untouched(p, specs, Below(k))(e) && EdgesCrossing(now, specs[k])(e))
    {
      EdgeNow(p, specs, k, s.next, e);
    }
    FilterTwice(s.edges[g], Untouched(p, specs, Below(k)), EdgesCrossing(now, specs[k]), ExternalTo(p, specs, k));
    var external := Filter(s.edges[g], ExternalTo(p, specs, k));
    forall e | e in external
      ensures AbsID(now, e.src) == AbsID(p, e.src) && AbsID(now, e.dst) == AbsID(p, e.dst)
    {
      FilterHas(s.edges[g], ExternalTo(p, specs, k), e);
      ExternalEnds(p, specs, k, s.next, e);
    }
  }

  lemma ExternalEnds(p: Parents, specs: seq<Spec>, k: nat, base: nat, e: Edge)
    requires Antichain(p, specs) && k < |specs| && ExternalTo(p, specs, k)(e)
    ensures var now := ParentsWithout(p, specs, Below(k), base);
            AbsID(now, e.src) == AbsID(p, e.src) && AbsID(now, e.dst) == AbsID(p, e.dst)
  {
    hide Antichain, Owner, ParentsWithout;
    AbsIDKept(p, specs, Below(k), base, e.src);
    AbsIDKept(p, specs, Below(k), base, e.dst);
  }

  // ----- one whole step -----

  predicate CanCut(t: Store, spec: Spec, n: nat) {
    var c := spec.container;
    && c in t.parent && c in t.childList && t.parent[c] in t.childList && t.parent[c] in t.children
    && n in t.objects
  }

  /** The pointers of graph n's objects and of its root's children are set, and the container lets them go. */
  function Cut(t: Store, spec: Spec, n: nat): Store
    requires CanCut(t, spec, n)
  {
    var c, r := spec.container, Root(n);
    t.(parent := CutParent(t.parent, spec, t.childList[c], r),
       childList := CutLists(t.childList, spec, t.parent[c], r),
       children := CutMaps(t.children, spec, t.parent[c], t.childList[c], r),
       graph := CutGraph(t.graph, t.objects[n], n))
  }

  function WithGraph(s: Store): Store {
    var r := Root(s.next);
    s.(childList := s.childList[r := []], children := s.children[r := map[]], graph := s.graph[r := s.next],
       objects := s.objects[s.next := []], edges := s.edges[s.next := []], next := s.next + 1)
  }

  /** Graph n takes the objects and edges inside the container from graph g. */
  function Split(s: Store, g: nat, spec: Spec, n: nat): Store
    requires g in s.objects && g in s.edges
  {
    s.(objects := s.objects[g := Filter(s.objects[g], Outside(s.parent, spec))]
                           [n := Filter(s.objects[g], Inside(s.parent, spec))],
       edges := s.edges[g := Filter(s.edges[g], EdgesOutside(s.parent, spec))]
                       [n := Filter(s.edges[g], EdgesInside(s.parent, spec))])
  }

  predicate CanTakeOut(s: Store, g: nat, spec: Spec) {
    var c := spec.container;
    && c in s.parent && c in s.childList && s.parent[c] in s.childList && s.parent[c] in s.children
    && g in s.objects && g in s.edges && g < s.next
  }

  /** The whole state after one diagram is taken out of graph g. */
  function OneOut(s: Store, g: nat, spec: Spec): Store
    requires CanTakeOut(s, g, spec)
  {
    Cut(Split(WithGraph(s), g, spec, s.next), spec, s.next)
  }

  lemma ListsMore(s: Store, specs: seq<Spec>, k: nat, n: nat, lists: map<Object, seq<Object>>)
    requires Linked(s) && k <= n < |specs| && ListsAt(s, specs, k, n, lists)
    ensures ListsAt(s, specs, k, n + 1, lists[Root(s.next + n) := []])
  {
    hide Linked, Filter, StaysIn, Tops;
    var more := lists[Root(s.next + n) := []];
    NoNewRoot(s, n);
    forall i: nat | i < n + 1
      ensures RootList(s, specs, k, i, more)
    {
      if i < n {
        assert RootList(s, specs, k, i, lists);
      }
    }
  }

  lemma MapsMore(s: Store, specs: seq<Spec>, k: nat, n: nat, maps: map<Object, map<string, Object>>)
    requires Linked(s) && k <= n < |specs| && MapsAt(s, specs, k, n, maps)
    ensures MapsAt(s, specs, k, n + 1, maps[Root(s.next + n) := map[]])
  {
    hide Linked, Staying, StaysIn, TopMap;
    var more := maps[Root(s.next + n) := map[]];
    NoNewRoot(s, n);
    forall i: nat | i < n + 1
      ensures RootMap(s, specs, k, i, more)
    {
      if i < n {
        assert RootMap(s, specs, k, i, maps);
      }
    }
  }

  lemma GraphMore(s: Store, g: nat, specs: seq<Spec>, k: nat, n: nat, graph: map<Object, nat>)
    requires g in s.objects && Linked(s) && n < |specs| && GraphAt(s, g, specs, k, n, graph)
    ensures GraphAt(s, g, specs, k, n + 1, graph[Root(s.next + n) := s.next + n])
  {
    hide Linked, OwnedGraph;
    NoNewRoot(s, n);
  }

  lemma CutParentSelf(p: Parents, spec: Spec, list: seq<Object>, list': seq<Object>, r: Object)
    requires r.Root? && (spec.includeSelf || list == list')
    ensures CutParent(p, spec, list, r) == CutParent(p, spec, list', r)
  {
  }

  /** The container of the next diagram, and a container about to be emptied, are as on the whole board. */
  lemma NextContainer(s: Store, g: nat, specs: seq<Spec>, k: nat, n: nat, t: Store)
    requires g in s.objects && Valid(s, g) && Fits(s, g, specs) && k < |specs| && k <= n <= |specs|
    requires Detached(s, g, specs, k, n, t)
    ensures var c := specs[k].container;
            && c in s.parent && c in t.parent && c.Item? && t.parent[c] == s.parent[c] && c in t.graph &&
               t.graph[c] == g
            && c in s.childList && c in t.childList && s.parent[c] in t.childList && s.parent[c] in t.children
            && s.parent[c] in s.childList
            && (!specs[k].includeSelf ==> t.childList[c] == s.childList[c])
            && (forall x :: x in t.childList[c] ==> x in t.parent)
            && (s.parent[c].Root? ==> s.parent[c].board < s.next)
  {
    hide Linked, Filter, StaysIn, Antichain, ParentsWithout, RootList, RootMap, Unique, Staying;
    var c := specs[k].container;
    KnownChild(s, c);
    ChildOf(s, c);
    IndexOf(s, c);
    IndexOf(s, s.parent[c]);
    ContainerOwner(s.parent, specs, k);
    RemainsUp(s.parent, specs, Below(k), s.next, c);
    if !specs[k].includeSelf {
      ContainerList(s, specs, k);
    }
    forall x | x in t.childList[c]
      ensures x in t.parent
    {
      FilterHas(s.childList[c], StaysIn(s.parent, specs, Below(k)), x);
    }
    if s.parent[c].Root? {
      OldRoot(s, s.parent[c]);
    }
  }

  /** Setting the pointers of the next diagram. */
  lemma DetachStep(s: Store, g: nat, specs: seq<Spec>, k: nat, n: nat, t: Store, u: Store)
    requires k < n <= |specs| && g in s.objects
    requires CanCut(t, specs[k], s.next + k) && u == Cut(t, specs[k], s.next + k)
    requires t.objects[s.next + k] == Filter(s.objects[g], OwnedBy(s.parent, specs, k))
    requires Valid(s, g) && Fits(s, g, specs)
    requires Detached(s, g, specs, k, n, t)
    ensures Detached(s, g, specs, k + 1, n, u)
  {
    hide Linked, Listed, Antichain, ListsAt, MapsAt, GraphAt, ParentsWithout, Filter, CutParent, CutLists, CutMaps,
      CutGraph;
    NextContainer(s, g, specs, k, n, t);
    var spec, c, r := specs[k], specs[k].container, Root(s.next + k);
    CutParentSelf(t.parent, spec, t.childList[c], s.childList[c], r);
    CutMapsSelf(t.children, spec, s.parent[c], t.childList[c], s.childList[c], r);
    ParentStep(s, specs, k, s.childList[c]);
    ListsStep(s, specs, k, n, t.childList);
    MapsStep(s, specs, k, n, t.children);
    GraphStep(s, g, specs, k, n, t.graph);
  }

  lemma CutMapsSelf(maps: map<Object, map<string, Object>>, spec: Spec, parent: Object, list: seq<Object>,
                    list': seq<Object>, r: Object)
    requires parent in maps && (spec.includeSelf || list == list')
    ensures CutMaps(maps, spec, parent, list, r) == CutMaps(maps, spec, parent, list', r)
  {
  }

  /** A new graph with its root, before anything hangs from it. */
  lemma WithGraphDetached(s: Store, g: nat, specs: seq<Spec>, k: nat, n: nat, t: Store)
    requires g in s.objects && Valid(s, g) && k <= n < |specs| && t.next == s.next + n
    requires Detached(s, g, specs, k, n, t)
    ensures Detached(s, g, specs, k, n + 1, WithGraph(t))
  {
    hide Linked, Listed, ListsAt, MapsAt, GraphAt, ParentsWithout;
    ListsMore(s, specs, k, n, t.childList);
    MapsMore(s, specs, k, n, t.children);
    GraphMore(s, g, specs, k, n, t.graph);
  }

  /** With nothing out, the board is as it was. */
  lemma NothingOut(s: Store, g: nat, specs: seq<Spec>)
    requires g in s.objects && g in s.edges
    ensures Extracted(s, g, specs, 0, s)
  {
    hide Filter;
    forall o | o in s.childList
      ensures s.childList[o] == Filter(s.childList[o], StaysIn(s.parent, specs, Below(0)))
    {
      FilterAll(s.childList[o], StaysIn(s.parent, specs, Below(0)));
    }
    FilterAll(s.objects[g], NotOut(s.parent, specs, Below(0)));
    FilterAll(s.edges[g], Untouched(s.parent, specs, Below(0)));
  }

  lemma SplitFields(t: Store, g: nat, spec: Spec)
    requires g in t.objects && g in t.edges && g < t.next
    ensures var u := Split(WithGraph(t), g, spec, t.next);
            && u.parent == t.parent && u.next == t.next + 1
            && u.childList == WithGraph(t).childList && u.children == WithGraph(t).children &&
               u.graph == WithGraph(t).graph
            && u.objects == t.objects[g := Filter(t.objects[g], Outside(t.parent, spec))]
                                     [t.next := Filter(t.objects[g], Inside(t.parent, spec))]
            && u.edges == t.edges[g := Filter(t.edges[g], EdgesOutside(t.parent, spec))]
                                 [t.next := Filter(t.edges[g], EdgesInside(t.parent, spec))]
  {
    hide Filter, Inside, Outside, EdgesInside, EdgesOutside;
  }

  /** Splitting the lists of graph g for the next diagram. */
  lemma SplitStep(s: Store, g: nat, specs: seq<Spec>, k: nat, t: Store)
    requires k < |specs| && g in s.objects && g in s.edges
    requires t.next == s.next + k && t.parent == ParentsWithout(s.parent, specs, Below(k), s.next)
    requires Listed(s, g) && Antichain(s.parent, specs)
    requires ObjectsAt(s, g, specs, k, t.objects) && EdgesAt(s, g, specs, k, t.edges)
    ensures g in t.objects && g in t.edges && g < t.next
    ensures ObjectsAt(s, g, specs, k + 1, Split(WithGraph(t), g, specs[k], t.next).objects)
    ensures EdgesAt(s, g, specs, k + 1, Split(WithGraph(t), g, specs[k], t.next).edges)
  {
    hide Antichain, Filter, Inside, Outside, EdgesInside, EdgesOutside, ParentsWithout, Split, WithGraph, NewObjects,
      NewEdges, Unique;
    assert g in t.objects && g in t.edges;
    SplitFields(t, g, specs[k]);
    ObjectsStep(s, g, specs, k, t.objects);
    EdgesStep(s, g, specs, k, t.edges);
  }

  /** Taking out the next diagram of the list moves the board one step on. */
  lemma SequentialStep(s: Store, g: nat, specs: seq<Spec>, k: nat, t: Store)
    requires g in s.objects && g in s.edges && Valid(s, g) && Fits(s, g, specs) && k < |specs|
    requires Extracted(s, g, specs, k, t)
    ensures CanTakeOut(t, g, specs[k])
    ensures Extracted(s, g, specs, k + 1, OneOut(t, g, specs[k]))
  {
    hide Linked, Listed, Antichain, ListsAt, MapsAt, GraphAt, ObjectsAt, EdgesAt, Filter, ParentsWithout, CutParent,
      CutLists, CutMaps, CutGraph, Inside, Outside, EdgesInside, EdgesOutside;
    NextContainer(s, g, specs, k, k, t);
    SplitStep(s, g, specs, k, t);
    WithGraphDetached(s, g, specs, k, k, t);
    var u := Split(WithGraph(t), g, specs[k], t.next);
    SameDetached(s, g, specs, k, k + 1, WithGraph(t), u);
    OwnedNow(s, g, specs, k, u.objects);
    NextContainer(s, g, specs, k, k + 1, u);
    DetachStep(s, g, specs, k, k + 1, u, Cut(u, specs[k], s.next + k));
  }

  lemma SameDetached(s: Store, g: nat, specs: seq<Spec>, k: nat, n: nat, t: Store, u: Store)
    requires g in s.objects && k <= n <= |specs| && Detached(s, g, specs, k, n, t)
    requires t.parent == u.parent && t.childList == u.childList && t.children == u.children && t.graph == u.graph
    ensures Detached(s, g, specs, k, n, u)
  {
  }

  lemma OwnedNow(s: Store, g: nat, specs: seq<Spec>, k: nat, objects: map<nat, seq<Object>>)
    requires g in s.objects && k < |specs| && ObjectsAt(s, g, specs, k + 1, objects)
    ensures s.next + k in objects && objects[s.next + k] == Filter(s.objects[g], OwnedBy(s.parent, specs, k))
  {
    hide Filter;
    assert NewObjects(s, g, specs, k, objects);
  }
}

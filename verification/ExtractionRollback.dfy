/** Putting diagrams back: the board as it is while some of the extracted diagrams have been injected again. */
module ExtractionRollback {
  import opened Lists
  import opened Forest
  import opened Extraction
  import opened ExtractionSteps
  import opened ExtractionBatch

  /** The first k diagrams, and those from i on, are out. */
  function Gaps(k: nat, i: nat, n: nat): set<nat> {
    Below(k) + (Below(n) - Below(i))
  }

  /** Graph n goes back under the container. */
  function Inject(t: Store, container: Object, n: nat): Store
    requires CanInject(t, container, n)
  {
    var list, g := t.childList[Root(n)], t.graph[container];
    t.(parent := AdoptedBy(t.parent, list, container),
       childList := t.childList[container := t.childList[container] + list],
       children := t.children[container := ChildMap(t.children, container) + ByKey(list)],
       graph := CutGraph(t.graph, t.objects[n], g),
       objects := t.objects[g := t.objects[g] + t.objects[n]],
       edges := t.edges[g := t.edges[g] + t.edges[n]])
  }

  predicate CanInject(t: Store, container: Object, n: nat) {
    && container in t.graph && container in t.childList && !container.LifelineEnd?
    && Root(n) in t.childList && n in t.objects && n in t.edges
    && t.graph[container] in t.objects && t.graph[container] in t.edges
    && (forall o :: o in t.childList[Root(n)] && o in t.parent ==> Depth(container) < Depth(o))
  }

  function ChildMap(children: map<Object, map<string, Object>>, o: Object): map<string, Object> {
    if o in children then children[o] else map[]
  }

  function AdoptedBy(p: Parents, list: seq<Object>, container: Object): (r: Parents)
    requires !container.LifelineEnd? && forall o :: o in list && o in p ==> Depth(container) < Depth(o)
    ensures r.Keys == p.Keys
  {
    assert forall o :: o in p ==> o.Item? && !p[o].LifelineEnd? && Depth(p[o]) < o.depth == Depth(o);
    map o | o in p :: if o in list then container else p[o]
  }

  // ----- the state between injections -----

  /** A container whose child list may be out of order. */
  predicate Shuffled(s: Store, specs: seq<Spec>, o: Object) {
    exists i :: 0 <= i < |specs| && IsSelfParent(s.parent, specs[i], o)
  }

  predicate ListsBack(s: Store, specs: seq<Spec>, out: set<nat>, lists: map<Object, seq<Object>>) {
    && (forall o :: o in s.childList ==> ListBack(s, specs, out, o, lists))
    && (forall i: nat :: i in out && i < |specs| ==> TopsBack(s, specs, i, lists))
  }

  predicate ListBack(s: Store, specs: seq<Spec>, out: set<nat>, o: Object, lists: map<Object, seq<Object>>)
    requires o in s.childList
  {
    && o in lists
    && multiset(lists[o]) == multiset(Filter(s.childList[o], StaysIn(s.parent, specs, out)))
    && (Shuffled(s, specs, o) || lists[o] == Filter(s.childList[o], StaysIn(s.parent, specs, out)))
  }

  predicate TopsBack(s: Store, specs: seq<Spec>, i: nat, lists: map<Object, seq<Object>>)
    requires i < |specs|
  {
    Root(s.next + i) in lists && lists[Root(s.next + i)] == Tops(s, specs[i])
  }

  predicate MapsBack(s: Store, specs: seq<Spec>, out: set<nat>, maps: map<Object, map<string, Object>>) {
    && (forall o :: o in s.children ==> o in maps && maps[o] == Staying(s.children[o], StaysIn(s.parent, specs, out)))
    && (forall i: nat :: i in out && i < |specs| ==> TopMapBack(s, specs, i, maps))
  }

  predicate TopMapBack(s: Store, specs: seq<Spec>, i: nat, maps: map<Object, map<string, Object>>)
    requires i < |specs|
  {
    Root(s.next + i) in maps && maps[Root(s.next + i)] == TopMap(s, specs[i])
  }

  predicate GraphBack(s: Store, g: nat, specs: seq<Spec>, out: set<nat>, graph: map<Object, nat>)
    requires g in s.objects
  {
    && (forall o :: o in s.graph ==> o in graph && graph[o] == OwnedGraph(s, g, specs, out, o))
    && (forall i: nat :: i in out && i < |specs| ==> RootBack(s, i, graph))
  }

  predicate RootBack(s: Store, i: nat, graph: map<Object, nat>) {
    Root(s.next + i) in graph && graph[Root(s.next + i)] == s.next + i
  }

  predicate ObjectsBack(s: Store, g: nat, specs: seq<Spec>, out: set<nat>, objects: map<nat, seq<Object>>)
    requires g in s.objects
  {
    && g in objects && multiset(objects[g]) == multiset(Filter(s.objects[g], NotOut(s.parent, specs, out)))
    && (forall n :: n in s.objects && n != g ==> n in objects && objects[n] == s.objects[n])
    && (forall i: nat :: i in out && i < |specs| ==> NewObjects(s, g, specs, i, objects))
  }

  predicate EdgesBack(s: Store, g: nat, specs: seq<Spec>, out: set<nat>, edges: map<nat, seq<Edge>>)
    requires g in s.edges
  {
    && g in edges && multiset(edges[g]) == multiset(Filter(s.edges[g], Untouched(s.parent, specs, out)))
    && (forall n :: n in s.edges && n != g ==> n in edges && edges[n] == s.edges[n])
    && (forall i: nat :: i in out && i < |specs| ==> NewEdges(s, g, specs, i, edges))
  }

  /** Exactly the diagrams `out` are extracted, up to the order of lists that have lost and regained elements. */
  predicate Back(s: Store, g: nat, specs: seq<Spec>, out: set<nat>, t: Store)
    requires g in s.objects && g in s.edges
  {
    && t.parent == ParentsWithout(s.parent, specs, out, s.next)
    && ListsBack(s, specs, out, t.childList)
    && MapsBack(s, specs, out, t.children)
    && GraphBack(s, g, specs, out, t.graph)
    && ObjectsBack(s, g, specs, out, t.objects)
    && EdgesBack(s, g, specs, out, t.edges)
  }

  lemma ExtractedListsBack(s: Store, specs: seq<Spec>, lists: map<Object, seq<Object>>)
    requires ListsAt(s, specs, |specs|, |specs|, lists)
    ensures ListsBack(s, specs, Below(|specs|), lists)
  {
    hide Filter, StaysIn, Tops, Shuffled;
    forall i: nat | i in Below(|specs|) && i < |specs|
      ensures TopsBack(s, specs, i, lists)
    {
      assert RootList(s, specs, |specs|, i, lists);
    }
  }

  lemma ExtractedMapsBack(s: Store, g: nat, specs: seq<Spec>, maps: map<Object, map<string, Object>>,
                          graph: map<Object, nat>)
    requires g in s.objects && MapsAt(s, specs, |specs|, |specs|, maps) && GraphAt(s, g, specs, |specs|, |specs|, graph)
    ensures MapsBack(s, specs, Below(|specs|), maps) && GraphBack(s, g, specs, Below(|specs|), graph)
  {
    hide Staying, StaysIn, TopMap, OwnedGraph;
    forall i: nat | i in Below(|specs|) && i < |specs|
      ensures TopMapBack(s, specs, i, maps) && RootBack(s, i, graph)
    {
      assert RootMap(s, specs, |specs|, i, maps);
      assert Root(s.next + i) in NewRoots(s.next, |specs|);
    }
  }

  lemma ExtractedListings(s: Store, g: nat, specs: seq<Spec>, objects: map<nat, seq<Object>>,
                          edges: map<nat, seq<Edge>>)
    requires g in s.objects && g in s.edges
    requires ObjectsAt(s, g, specs, |specs|, objects) && EdgesAt(s, g, specs, |specs|, edges)
    ensures ObjectsBack(s, g, specs, Below(|specs|), objects) && EdgesBack(s, g, specs, Below(|specs|), edges)
  {
    hide Filter, NotOut, Untouched, NewObjects, NewEdges;
  }

  /** The batch leaves every diagram out. */
  lemma ExtractedBack(s: Store, g: nat, specs: seq<Spec>, t: Store)
    requires g in s.objects && g in s.edges && Extracted(s, g, specs, |specs|, t)
    ensures Back(s, g, specs, Below(|specs|), t)
  {
    hide ParentsWithout, ListsAt, ListsBack, MapsAt, MapsBack, GraphAt, GraphBack, ObjectsAt, ObjectsBack, EdgesAt,
      EdgesBack;
    ExtractedListsBack(s, specs, t.childList);
    ExtractedListings(s, g, specs, t.objects, t.edges);
    ExtractedMapsBack(s, g, specs, t.children, t.graph);
  }

  // ----- one injection -----

  lemma StaysAgain(p: Parents, specs: seq<Spec>, out: set<nat>, i: nat, o: Object)
    requires Antichain(p, specs) && i < |specs| && i in out
    ensures Stays(p, specs, out - {i}, o) == (Stays(p, specs, out, o) || IsTop(p, specs[i], o))
    ensures !(Stays(p, specs, out, o) && IsTop(p, specs[i], o))
    ensures IsTop(p, specs[i], o) ==> Owner(p, specs, o) == i
  {
    if IsTop(p, specs[i], o) {
      TopOwned(p, specs, o, i);
    }
  }

  function TopIn(p: Parents, spec: Spec): Object -> bool {
    o => IsTop(p, spec, o)
  }

  /** The tops of a diagram are exactly those children of the container it goes back to. */
  lemma TopsAre(s: Store, specs: seq<Spec>, i: nat)
    requires Linked(s) && Antichain(s.parent, specs) && i < |specs| && specs[i].container in s.parent
    ensures var into := RestoreInto(s.parent, specs[i]);
            && into in s.childList
            && Filter(s.childList[into], TopIn(s.parent, specs[i])) == Tops(s, specs[i])
    ensures forall o :: o in Tops(s, specs[i]) <==> IsTop(s.parent, specs[i], o)
    ensures forall o :: IsTop(s.parent, specs[i], o) ==> o in s.parent && s.parent[o] == RestoreInto(s.parent, specs[i])
  {
    hide Linked, Antichain;
    var c := specs[i].container;
    KnownChild(s, c);
    if specs[i].includeSelf {
      var list := s.childList[s.parent[c]];
      ChildOf(s, s.parent[c]);
      OnlyOne(list, c, TopIn(s.parent, specs[i]));
    } else {
      ContainerList(s, specs, i);
      FilterAll(s.childList[c], TopIn(s.parent, specs[i]));
    }
  }

  lemma {:induction false} OnlyOne(list: seq<Object>, c: Object, keep: Object -> bool)
    requires Unique(list) && c in list && forall o :: o in list ==> (keep(o) <==> o == c)
    ensures Filter(list, keep) == [c]
  {
    var n := |list| - 1;
    assert list == list[..n] + [list[n]];
    if list[n] == c {
      FilterNone(list[..n], keep);
    } else {
      OnlyOne(list[..n], c, keep);
    }
  }

  lemma ParentBack(s: Store, specs: seq<Spec>, out: set<nat>, i: nat, list: seq<Object>)
    requires Linked(s) && Antichain(s.parent, specs) && i < |specs| && i in out && specs[i].container in s.parent
    requires list == Tops(s, specs[i])
    ensures var now, into := ParentsWithout(s.parent, specs, out, s.next), RestoreInto(s.parent, specs[i]);
            && !into.LifelineEnd? && (forall o :: o in list && o in now ==> Depth(into) < Depth(o))
            && AdoptedBy(now, list, into) == ParentsWithout(s.parent, specs, out - {i}, s.next)
  {
    hide Linked, Antichain, ParentsWithout, Tops, RestoreInto;
    TopsAre(s, specs, i);
    var now, into := ParentsWithout(s.parent, specs, out, s.next), RestoreInto(s.parent, specs[i]);
    IntoDepth(s.parent, specs[i], list);
    forall o | o in now
      ensures (if o in list then into else now[o]) == ParentsWithout(s.parent, specs, out - {i}, s.next)[o]
    {
      ParentBackAt(s.parent, specs, out, i, s.next, o);
    }
  }

  lemma ParentBackAt(p: Parents, specs: seq<Spec>, out: set<nat>, i: nat, base: nat, o: Object)
    requires Antichain(p, specs) && i < |specs| && i in out && o in p
    ensures ParentsWithout(p, specs, out - {i}, base)[o] ==
            if IsTop(p, specs[i], o) then p[o] else ParentsWithout(p, specs, out, base)[o]
  {
    StaysAgain(p, specs, out, i, o);
  }

  lemma IntoDepth(p: Parents, spec: Spec, list: seq<Object>)
    requires spec.container in p
    requires forall o :: o in list ==> o in p && p[o] == RestoreInto(p, spec)
    ensures !RestoreInto(p, spec).LifelineEnd?
    ensures forall o :: o in list ==> Depth(RestoreInto(p, spec)) < Depth(o)
  {
    assert spec.container.Item? && !p[spec.container].LifelineEnd?;
  }

  lemma FilterBack(s: Store, specs: seq<Spec>, out: set<nat>, i: nat, list: seq<Object>)
    requires Antichain(s.parent, specs) && i < |specs| && i in out
    ensures multiset(Filter(list, StaysIn(s.parent, specs, out - {i}))) ==
            multiset(Filter(list, StaysIn(s.parent, specs, out))) + multiset(Filter(list, TopIn(s.parent, specs[i])))
    ensures (forall o :: o in list ==> !IsTop(s.parent, specs[i], o)) ==>
              Filter(list, StaysIn(s.parent, specs, out - {i})) == Filter(list, StaysIn(s.parent, specs, out))
    ensures (forall o :: o in list ==> IsTop(s.parent, specs[i], o)) ==>
              Filter(list, StaysIn(s.parent, specs, out - {i})) == list &&
              Filter(list, StaysIn(s.parent, specs, out)) == []
  {
    hide Antichain, Stays, IsTop, Filter;
    forall o | o in list
      ensures StaysIn(s.parent, specs, out - {i})(o) == (StaysIn(s.parent, specs, out)(o) ||
                                                         TopIn(s.parent, specs[i])(o))
      ensures !(StaysIn(s.parent, specs, out)(o) && TopIn(s.parent, specs[i])(o))
    {
      StaysAgain(s.parent, specs, out, i, o);
    }
    FilterSplit(list, StaysIn(s.parent, specs, out), TopIn(s.parent, specs[i]), StaysIn(s.parent, specs, out - {i}));
    if forall o :: o in list ==> !IsTop(s.parent, specs[i], o) {
      FilterSame(list, StaysIn(s.parent, specs, out - {i}), StaysIn(s.parent, specs, out));
    }
    if forall o :: o in list ==> IsTop(s.parent, specs[i], o) {
      FilterAll(list, StaysIn(s.parent, specs, out - {i}));
      FilterNone(list, StaysIn(s.parent, specs, out));
    }
  }

  /** A container that is emptied of its children is not the parent of another diagram's container. */
  lemma NotShuffled(s: Store, specs: seq<Spec>, i: nat)
    requires Antichain(s.parent, specs) && i < |specs| && !specs[i].includeSelf
    ensures !Shuffled(s, specs, specs[i].container)
  {
    var c := specs[i].container;
    if Shuffled(s, specs, c) {
      var j :| 0 <= j < |specs| && IsSelfParent(s.parent, specs[j], c);
      assert IsDescendantOf(s.parent, specs[j].container, c);
    }
  }

  lemma ListElsewhere(s: Store, specs: seq<Spec>, out: set<nat>, i: nat, lists: map<Object, seq<Object>>, o: Object)
    requires Linked(s) && Antichain(s.parent, specs) && i < |specs| && i in out && specs[i].container in s.parent
    requires o in s.childList && ListBack(s, specs, out, o, lists) && o != RestoreInto(s.parent, specs[i])
    ensures ListBack(s, specs, out - {i}, o, lists)
  {
    hide Linked, Antichain, Filter, StaysIn, Tops, Unique, RestoreInto, Shuffled, IsTop;
    TopsAre(s, specs, i);
    ChildOf(s, o);
    FilterBack(s, specs, out, i, s.childList[o]);
  }

  lemma ListRegains(s: Store, specs: seq<Spec>, out: set<nat>, i: nat, lists: map<Object, seq<Object>>)
    requires Linked(s) && Antichain(s.parent, specs) && i < |specs| && i in out && specs[i].container in s.parent
    requires RestoreInto(s.parent, specs[i]) in s.childList
    requires ListBack(s, specs, out, RestoreInto(s.parent, specs[i]), lists)
    ensures var into := RestoreInto(s.parent, specs[i]);
            ListBack(s, specs, out - {i}, into, lists[into := lists[into] + Tops(s, specs[i])])
  {
    hide Linked, Antichain, Filter, StaysIn, Unique, IsTop;
    TopsAre(s, specs, i);
    var into := RestoreInto(s.parent, specs[i]);
    FilterBack(s, specs, out, i, s.childList[into]);
    if specs[i].includeSelf {
      assert IsSelfParent(s.parent, specs[i], into);
    } else {
      NotShuffled(s, specs, i);
      ContainerList(s, specs, i);
      assert lists[into] + Tops(s, specs[i]) == Tops(s, specs[i]);
    }
  }

  lemma ListsBackStep(s: Store, specs: seq<Spec>, out: set<nat>, i: nat, lists: map<Object, seq<Object>>)
    requires Linked(s) && Antichain(s.parent, specs) && i < |specs| && i in out && specs[i].container in s.parent
    requires ListsBack(s, specs, out, lists)
    ensures Root(s.next + i) in lists && RestoreInto(s.parent, specs[i]) in lists
    ensures lists[Root(s.next + i)] == Tops(s, specs[i])
    ensures var into := RestoreInto(s.parent, specs[i]);
            ListsBack(s, specs, out - {i}, lists[into := lists[into] + lists[Root(s.next + i)]])
  {
    hide Linked, Antichain, Filter, StaysIn, Tops, RestoreInto;
    TopsAre(s, specs, i);
    var into := RestoreInto(s.parent, specs[i]);
    assert TopsBack(s, specs, i, lists);
    assert ListBack(s, specs, out, into, lists);
    var next := lists[into := lists[into] + lists[Root(s.next + i)]];
    forall o | o in s.childList
      ensures ListBack(s, specs, out - {i}, o, next)
    {
      if o == into {
        ListRegains(s, specs, out, i, lists);
      } else {
        ListElsewhere(s, specs, out, i, lists, o);
      }
    }
    forall j: nat | j in out - {i} && j < |specs|
      ensures TopsBack(s, specs, j, next)
    {
      assert TopsBack(s, specs, j, lists);
      NoNewRoot(s, j);
    }
  }

  lemma KeysBack(s: Store, specs: seq<Spec>, out: set<nat>, i: nat)
    requires Linked(s) && Antichain(s.parent, specs) && i < |specs| && i in out && specs[i].container in s.parent
    requires RestoreInto(s.parent, specs[i]) in s.children
    ensures var into := RestoreInto(s.parent, specs[i]);
            Staying(s.children[into], StaysIn(s.parent, specs, out)) + ByKey(Tops(s, specs[i])) ==
            Staying(s.children[into], StaysIn(s.parent, specs, out - {i}))
  {
    hide Linked, Antichain, Stays, IsTop, Tops, RestoreInto, Key, ByKey, Filter, Unique;
    TopsAre(s, specs, i);
    var into, tops := RestoreInto(s.parent, specs[i]), Tops(s, specs[i]);
    IndexOf(s, into);
    ByKeyHas(tops);
    forall o | o in tops
      ensures o in s.childList[into]
    {
      FilterHas(s.childList[into], TopIn(s.parent, specs[i]), o);
    }
    var before := Staying(s.children[into], StaysIn(s.parent, specs, out));
    var after := Staying(s.children[into], StaysIn(s.parent, specs, out - {i}));
    forall key
      ensures key in before + ByKey(tops) <==> key in after
      ensures key in after ==> (before + ByKey(tops))[key] == after[key]
    {
      if key in s.children[into] {
        StaysAgain(s.parent, specs, out, i, s.children[into][key]);
      }
    }
  }

  lemma MapsBackStep(s: Store, specs: seq<Spec>, out: set<nat>, i: nat, maps: map<Object, map<string, Object>>)
    requires Linked(s) && Antichain(s.parent, specs) && i < |specs| && i in out && specs[i].container in s.parent
    requires MapsBack(s, specs, out, maps)
    ensures var into := RestoreInto(s.parent, specs[i]);
            MapsBack(s, specs, out - {i}, maps[into := ChildMap(maps, into) + ByKey(Tops(s, specs[i]))])
  {
    hide Linked, Antichain, Staying, StaysIn, Tops, RestoreInto, ByKey, IsTop, Filter, Indexed;
    TopsAre(s, specs, i);
    var into := RestoreInto(s.parent, specs[i]);
    IndexOf(s, into);
    KeysBack(s, specs, out, i);
    forall o | o in s.children && o != into
      ensures Staying(s.children[o], StaysIn(s.parent, specs, out - {i})) ==
              Staying(s.children[o], StaysIn(s.parent, specs, out))
    {
      KeysElsewhere(s, specs, out, i, o);
    }
    var next := maps[into := ChildMap(maps, into) + ByKey(Tops(s, specs[i]))];
    forall j: nat | j in out - {i} && j < |specs|
      ensures TopMapBack(s, specs, j, next)
    {
      assert TopMapBack(s, specs, j, maps);
      NoNewRoot(s, j);
    }
  }

  lemma KeysElsewhere(s: Store, specs: seq<Spec>, out: set<nat>, i: nat, o: Object)
    requires Linked(s) && Antichain(s.parent, specs) && i < |specs| && i in out && specs[i].container in s.parent
    requires o in s.children && o != RestoreInto(s.parent, specs[i])
    ensures Staying(s.children[o], StaysIn(s.parent, specs, out - {i})) ==
            Staying(s.children[o], StaysIn(s.parent, specs, out))
  {
    hide Linked, Antichain, Stays, IsTop, Tops, RestoreInto, Key, Filter, Unique;
    TopsAre(s, specs, i);
    KnownLists(s, o);
    IndexOf(s, o);
    ChildOf(s, o);
    forall key | key in s.children[o]
      ensures Stays(s.parent, specs, out - {i}, s.children[o][key]) == Stays(s.parent, specs, out, s.children[o][key])
    {
      StaysAgain(s.parent, specs, out, i, s.children[o][key]);
    }
  }

  lemma GraphBackStep(s: Store, g: nat, specs: seq<Spec>, out: set<nat>, i: nat, graph: map<Object, nat>)
    requires g in s.objects && Listed(s, g) && i < |specs| && i in out && GraphBack(s, g, specs, out, graph)
    ensures GraphBack(s, g, specs, out - {i}, CutGraph(graph, Filter(s.objects[g], OwnedBy(s.parent, specs, i)), g))
  {
    hide Owner, Filter, Unique;
    forall o | o in s.graph
      ensures OwnedGraph(s, g, specs, out - {i}, o) ==
              if o in Filter(s.objects[g], OwnedBy(s.parent, specs, i)) then g else OwnedGraph(s, g, specs, out, o)
    {
      FilterHas(s.objects[g], OwnedBy(s.parent, specs, i), o);
    }
    var owned := Filter(s.objects[g], OwnedBy(s.parent, specs, i));
    forall j: nat | j in out - {i} && j < |specs|
      ensures RootBack(s, j, CutGraph(graph, owned, g))
    {
      assert RootBack(s, j, graph);
      FilterHas(s.objects[g], OwnedBy(s.parent, specs, i), Root(s.next + j));
      ListedItem(s, g, Root(s.next + j));
    }
  }

  lemma ObjectsBackStep(s: Store, g: nat, specs: seq<Spec>, out: set<nat>, i: nat, objects: map<nat, seq<Object>>)
    requires g in s.objects && Listed(s, g) && i < |specs| && i in out && ObjectsBack(s, g, specs, out, objects)
    ensures s.next + i in objects && objects[s.next + i] == Filter(s.objects[g], OwnedBy(s.parent, specs, i))
    ensures ObjectsBack(s, g, specs, out - {i}, objects[g := objects[g] + objects[s.next + i]])
  {
    hide Owner, Filter, Unique;
    assert NewObjects(s, g, specs, i, objects);
    forall o | o in s.objects[g]
      ensures NotOut(s.parent, specs, out - {i})(o) == (NotOut(s.parent, specs, out)(o) ||
                                                        OwnedBy(s.parent, specs, i)(o))
      ensures !(NotOut(s.parent, specs, out)(o) && OwnedBy(s.parent, specs, i)(o))
    {
    }
    FilterSplit(s.objects[g], NotOut(s.parent, specs, out), OwnedBy(s.parent, specs, i),
                NotOut(s.parent, specs, out - {i}));
    hide NotOut, OwnedBy;
    var next := objects[g := objects[g] + objects[s.next + i]];
    forall j: nat | j in out - {i} && j < |specs|
      ensures NewObjects(s, g, specs, j, next)
    {
      assert NewObjects(s, g, specs, j, objects);
    }
  }

  function TouchesFirst(p: Parents, specs: seq<Spec>, i: nat): Edge -> bool {
    e => Touches(p, specs, e) == i
  }

  lemma EdgesSplit(s: Store, specs: seq<Spec>, out: set<nat>, i: nat, list: seq<Edge>)
    requires i < |specs| && i in out
    ensures multiset(Filter(list, Untouched(s.parent, specs, out - {i}))) ==
            multiset(Filter(list, Untouched(s.parent, specs, out))) +
            multiset(Filter(list, NestedIn(s.parent, specs, i))) +
            multiset(Filter(list, ExternalTo(s.parent, specs, i)))
  {
    hide Touches, Within, Filter;
    FilterSplit(list, Untouched(s.parent, specs, out), TouchesFirst(s.parent, specs, i),
                Untouched(s.parent, specs, out - {i}));
    FilterSplit(list, NestedIn(s.parent, specs, i), ExternalTo(s.parent, specs, i), TouchesFirst(s.parent, specs, i));
  }

  lemma EdgesBackStep(s: Store, g: nat, specs: seq<Spec>, out: set<nat>, i: nat, edges: map<nat, seq<Edge>>,
                      external: seq<Edge>)
    requires g in s.edges && g < s.next && i < |specs| && i in out && EdgesBack(s, g, specs, out, edges)
    requires external == Filter(s.edges[g], ExternalTo(s.parent, specs, i))
    ensures s.next + i in edges
    ensures EdgesBack(s, g, specs, out - {i}, edges[g := edges[g] + edges[s.next + i] + external])
  {
    hide Filter, Untouched, NestedIn, ExternalTo;
    assert NewEdges(s, g, specs, i, edges);
    EdgesSplit(s, specs, out, i, s.edges[g]);
    var next := edges[g := edges[g] + edges[s.next + i] + external];
    forall j: nat | j in out - {i} && j < |specs|
      ensures NewEdges(s, g, specs, j, next)
    {
      assert NewEdges(s, g, specs, j, edges);
    }
  }

  /** The container a diagram goes back to is in graph g and not itself extracted. */
  lemma IntoRemains(s: Store, g: nat, specs: seq<Spec>, i: nat)
    requires g in s.objects && Listed(s, g) && Fits(s, g, specs) && i < |specs|
    ensures var into := RestoreInto(s.parent, specs[i]);
            && Owner(s.parent, specs, into) == |specs|
            && (into == Root(g) || into in s.objects[g]) && into in s.graph && s.graph[into] == g
  {
    hide Antichain;
    var c := specs[i].container;
    ContainerOwner(s.parent, specs, i);
    if specs[i].includeSelf && Owner(s.parent, specs, s.parent[c]) < |specs| {
      ChildOwned(s.parent, specs, c);
      DescendantDepth(s.parent, s.parent[c], c);
    }
  }

  function WithEdges(t: Store, g: nat, more: seq<Edge>): Store
    requires g in t.edges
  {
    t.(edges := t.edges[g := t.edges[g] + more])
  }

  lemma InjectFields(t: Store, into: Object, n: nat, g: nat, more: seq<Edge>)
    requires CanInject(t, into, n) && t.graph[into] == g
    ensures var u := WithEdges(Inject(t, into, n), g, more);
            && u.parent == AdoptedBy(t.parent, t.childList[Root(n)], into)
            && u.childList == t.childList[into := t.childList[into] + t.childList[Root(n)]]
            && u.children == t.children[into := ChildMap(t.children, into) + ByKey(t.childList[Root(n)])]
            && u.graph == CutGraph(t.graph, t.objects[n], g)
            && u.objects == t.objects[g := t.objects[g] + t.objects[n]]
            && u.edges == t.edges[g := t.edges[g] + t.edges[n] + more]
  {
    hide AdoptedBy, ByKey, CutGraph;
  }

  lemma BackGraph(s: Store, g: nat, specs: seq<Spec>, out: set<nat>, i: nat, graph: map<Object, nat>)
    requires i < |specs| && g in s.objects && Listed(s, g) && Fits(s, g, specs)
    requires GraphBack(s, g, specs, out, graph)
    ensures RestoreInto(s.parent, specs[i]) in graph && graph[RestoreInto(s.parent, specs[i])] == g
  {
    hide Antichain, RestoreInto, Owner, Unique;
    IntoRemains(s, g, specs, i);
  }

  /** A diagram that is out can go back to where it came from. */
  lemma CanGoBack(s: Store, g: nat, specs: seq<Spec>, out: set<nat>, i: nat, t: Store)
    requires i < |specs| && i in out && g in s.objects && g in s.edges && Valid(s, g) && Fits(s, g, specs)
    requires Back(s, g, specs, out, t)
    ensures CanInject(t, RestoreInto(s.parent, specs[i]), s.next + i) && t.graph[RestoreInto(s.parent, specs[i])] == g
    ensures t.childList[Root(s.next + i)] == Tops(s, specs[i])
  {
    hide Linked, Antichain, ListsBack, MapsBack, GraphBack, ParentsWithout, RestoreInto, Filter, Tops, Owner, Unique,
      Untouched, NotOut;
    ListsBackStep(s, specs, out, i, t.childList);
    BackGraph(s, g, specs, out, i, t.graph);
    ParentBack(s, specs, out, i, t.childList[Root(s.next + i)]);
    assert NewObjects(s, g, specs, i, t.objects) && NewEdges(s, g, specs, i, t.edges);
  }

  /** Injecting diagram i and returning its external edges leaves exactly the other diagrams out. */
  lemma InjectBack(s: Store, g: nat, specs: seq<Spec>, out: set<nat>, i: nat, t: Store, external: seq<Edge>, u: Store)
    requires i < |specs| && i in out && g in s.objects && g in s.edges
    requires external == Filter(s.edges[g], ExternalTo(s.parent, specs, i))
    requires CanInject(t, RestoreInto(s.parent, specs[i]), s.next + i) && t.graph[RestoreInto(s.parent, specs[i])] == g
    requires u == WithEdges(Inject(t, RestoreInto(s.parent, specs[i]), s.next + i), g, external)
    requires Valid(s, g) && Fits(s, g, specs)
    requires Back(s, g, specs, out, t)
    ensures Back(s, g, specs, out - {i}, u)
  {
    hide Linked, Listed, Antichain, ListsBack, MapsBack, GraphBack, ObjectsBack, EdgesBack, Filter, ParentsWithout,
      AdoptedBy, CutGraph, ByKey, RestoreInto, Tops, Inject, WithEdges, CanInject, OwnedBy;
    ListedBelow(s, g, specs[i].container);
    ListsBackStep(s, specs, out, i, t.childList);
    ParentBack(s, specs, out, i, t.childList[Root(s.next + i)]);
    MapsBackStep(s, specs, out, i, t.children);
    GraphBackStep(s, g, specs, out, i, t.graph);
    ObjectsBackStep(s, g, specs, out, i, t.objects);
    EdgesBackStep(s, g, specs, out, i, t.edges, external);
    InjectFields(t, RestoreInto(s.parent, specs[i]), s.next + i, g, external);
  }

  lemma ListedBelow(s: Store, g: nat, o: Object)
    requires Listed(s, g)
    ensures g < s.next && (o in s.objects[g] ==> o in s.parent)
  {
  }
}

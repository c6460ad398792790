/**
 What extracting nested diagrams does to a board: the state after the first k diagrams are out, one extraction step,
 and one injection step, all as relations between whole states.
 */
module Extraction {
  import opened Lists
  import opened Forest

  /** Every object's and every graph's fields. Graph n has the root Root(n); graphs from `next` on do not exist yet. */
  datatype Store = Store(
    parent: Parents,
    childList: map<Object, seq<Object>>,
    children: map<Object, map<string, Object>>,
    graph: map<Object, nat>,
    objects: map<nat, seq<Object>>,
    edges: map<nat, seq<Edge>>,
    next: nat)

  predicate Indexed(childList: seq<Object>, children: map<string, Object>) {
    && (forall key :: key in children ==> children[key] in childList && Key(children[key]) == key)
    && (forall x :: x in childList ==> Key(x) in children && children[Key(x)] == x)
  }

  /** The forest is well formed: child lists, child indexes and parent pointers agree. */
  predicate Linked(s: Store) {
    && s.childList.Keys == s.children.Keys == s.graph.Keys
    && (forall o :: o in s.parent ==> o in s.childList && s.parent[o] in s.childList && o in s.childList[s.parent[o]])
    && (forall o, x :: o in s.childList && x in s.childList[o] ==> x in s.parent && s.parent[x] == o)
    && (forall o :: o in s.childList ==> Unique(s.childList[o]) && Indexed(s.childList[o], s.children[o]))
    && (forall o :: o in s.childList && o.Root? ==> o.board < s.next)
  }

  /** Graph g lists each of its objects once, and its edges end at objects or at lifeline ends. */
  predicate Listed(s: Store, g: nat) {
    && g in s.objects && g in s.edges && g < s.next
    && (forall n :: n in s.objects ==> n < s.next)
    && (forall n :: n in s.edges ==> n < s.next)
    && Root(g) in s.graph && s.graph[Root(g)] == g
    && Unique(s.objects[g])
    && (forall o :: o in s.objects[g] ==> o in s.parent && o in s.graph && s.graph[o] == g)
    && (forall o :: o in s.objects[g] ==> s.parent[o] == Root(g) || s.parent[o] in s.objects[g])
    && (forall e :: e in s.edges[g] ==> e.src in s.parent && (e.dst.LifelineEnd? || e.dst in s.parent))
  }

  predicate Valid(s: Store, g: nat) {
    Linked(s) && Listed(s, g)
  }

  /** Containers of g, none within another: what the breadth-first collection yields. */
  predicate Fits(s: Store, g: nat, specs: seq<Spec>)
    requires g in s.objects
  {
    Antichain(s.parent, specs) && forall i :: 0 <= i < |specs| ==> specs[i].container in s.objects[g]
  }

  // ----- which list an object or edge belongs to -----

  function OwnedBy(p: Parents, specs: seq<Spec>, i: nat): Object -> bool {
    o => Owner(p, specs, o) == i
  }

  function NotOut(p: Parents, specs: seq<Spec>, out: set<nat>): Object -> bool {
    o => Remains(p, specs, out, o)
  }

  /** The first diagram an edge touches; an edge to a lifeline end belongs to its source alone. */
  function Touches(p: Parents, specs: seq<Spec>, e: Edge): (r: nat)
    ensures r <= |specs|
  {
    var src := Owner(p, specs, e.src);
    if e.dst.LifelineEnd? then src
    else
      var dst := Owner(p, specs, e.dst);
      if dst < src then dst else src
  }

  predicate Within(p: Parents, specs: seq<Spec>, e: Edge) {
    e.dst.LifelineEnd? || Owner(p, specs, e.src) == Owner(p, specs, e.dst)
  }

  function NestedIn(p: Parents, specs: seq<Spec>, i: nat): Edge -> bool {
    e => Touches(p, specs, e) == i && Within(p, specs, e)
  }

  function ExternalTo(p: Parents, specs: seq<Spec>, i: nat): Edge -> bool {
    e => Touches(p, specs, e) == i && !Within(p, specs, e)
  }

  function Untouched(p: Parents, specs: seq<Spec>, out: set<nat>): Edge -> bool {
    e => Touches(p, specs, e) == |specs| || Touches(p, specs, e) !in out
  }

  function Below(k: nat): (r: set<nat>)
    ensures forall i: nat :: i in r <==> i < k
  {
    if k == 0 then {} else Below(k - 1) + {k - 1}
  }

  // ----- the state after the first k diagrams are out -----

  function Tops(s: Store, spec: Spec): seq<Object> {
    if spec.includeSelf then [spec.container]
    else if spec.container in s.childList then s.childList[spec.container] else []
  }

  function TopMap(s: Store, spec: Spec): map<string, Object> {
    if spec.includeSelf then map[Key(spec.container) := spec.container]
    else if spec.container in s.children then s.children[spec.container] else map[]
  }

  function Staying(children: map<string, Object>, stays: Object -> bool): map<string, Object> {
    map key | key in children && stays(children[key]) :: children[key]
  }

  function OwnedGraph(s: Store, g: nat, specs: seq<Spec>, out: set<nat>, o: Object): nat
    requires o in s.graph && g in s.objects
  {
    if o in s.objects[g] && !Remains(s.parent, specs, out, o) then s.next + Owner(s.parent, specs, o) else s.graph[o]
  }

  function NewRoots(base: nat, n: nat): (r: set<Object>)
    ensures forall o :: o in r <==> o.Root? && base <= o.board < base + n
  {
    if n == 0 then {} else NewRoots(base, n - 1) + {Root(base + n - 1)}
  }

  /** Child lists when the first k diagrams hang from their new roots and roots are made for the first n. */
  predicate ListsAt(s: Store, specs: seq<Spec>, k: nat, n: nat, lists: map<Object, seq<Object>>)
    requires n <= |specs|
  {
    && lists.Keys == s.childList.Keys + NewRoots(s.next, n)
    && (forall o :: o in s.childList ==> lists[o] == Filter(s.childList[o], StaysIn(s.parent, specs, Below(k))))
    && (forall i: nat :: i < n ==> RootList(s, specs, k, i, lists))
  }

  predicate RootList(s: Store, specs: seq<Spec>, k: nat, i: nat, lists: map<Object, seq<Object>>)
    requires i < |specs|
  {
    var r := Root(s.next + i);
    r in lists && lists[r] == if i < k then Tops(s, specs[i]) else []
  }

  /** Child indexes in the same state. */
  predicate MapsAt(s: Store, specs: seq<Spec>, k: nat, n: nat, maps: map<Object, map<string, Object>>)
    requires n <= |specs|
  {
    && maps.Keys == s.children.Keys + NewRoots(s.next, n)
    && (forall o :: o in s.children ==> maps[o] == Staying(s.children[o], StaysIn(s.parent, specs, Below(k))))
    && (forall i: nat :: i < n ==> RootMap(s, specs, k, i, maps))
  }

  predicate RootMap(s: Store, specs: seq<Spec>, k: nat, i: nat, maps: map<Object, map<string, Object>>)
    requires i < |specs|
  {
    var r := Root(s.next + i);
    r in maps && maps[r] == if i < k then TopMap(s, specs[i]) else map[]
  }

  /** Graph pointers in the same state. */
  predicate GraphAt(s: Store, g: nat, specs: seq<Spec>, k: nat, n: nat, graph: map<Object, nat>)
    requires g in s.objects
  {
    && graph.Keys == s.graph.Keys + NewRoots(s.next, n)
    && (forall o :: o in s.graph ==> graph[o] == OwnedGraph(s, g, specs, Below(k), o))
    && (forall o :: o in NewRoots(s.next, n) ==> graph[o] == o.board)
  }

  predicate Detached(s: Store, g: nat, specs: seq<Spec>, k: nat, n: nat, t: Store)
    requires g in s.objects && k <= n <= |specs|
  {
    && t.parent == ParentsWithout(s.parent, specs, Below(k), s.next)
    && ListsAt(s, specs, k, n, t.childList)
    && MapsAt(s, specs, k, n, t.children)
    && GraphAt(s, g, specs, k, n, t.graph)
  }

  /** The graphs' object lists when the first k diagrams have theirs. */
  predicate ObjectsAt(s: Store, g: nat, specs: seq<Spec>, k: nat, objects: map<nat, seq<Object>>)
    requires g in s.objects && k <= |specs|
  {
    && objects.Keys == s.objects.Keys + NewNumbers(s.next, k)
    && (forall n :: n in s.objects && n != g ==> objects[n] == s.objects[n])
    && objects[g] == Filter(s.objects[g], NotOut(s.parent, specs, Below(k)))
    && (forall i: nat :: i < k ==> NewObjects(s, g, specs, i, objects))
  }

  predicate NewObjects(s: Store, g: nat, specs: seq<Spec>, i: nat, objects: map<nat, seq<Object>>)
    requires g in s.objects
  {
    s.next + i in objects && objects[s.next + i] == Filter(s.objects[g], OwnedBy(s.parent, specs, i))
  }

  /** The graphs' edge lists when the first k diagrams have theirs; external edges are in no graph. */
  predicate EdgesAt(s: Store, g: nat, specs: seq<Spec>, k: nat, edges: map<nat, seq<Edge>>)
    requires g in s.edges && k <= |specs|
  {
    && edges.Keys == s.edges.Keys + NewNumbers(s.next, k)
    && (forall n :: n in s.edges && n != g ==> edges[n] == s.edges[n])
    && edges[g] == Filter(s.edges[g], Untouched(s.parent, specs, Below(k)))
    && (forall i: nat :: i < k ==> NewEdges(s, g, specs, i, edges))
  }

  predicate NewEdges(s: Store, g: nat, specs: seq<Spec>, i: nat, edges: map<nat, seq<Edge>>)
    requires g in s.edges
  {
    s.next + i in edges && edges[s.next + i] == Filter(s.edges[g], NestedIn(s.parent, specs, i))
  }

  function NewNumbers(base: nat, n: nat): (r: set<nat>)
    ensures forall m: nat :: m in r <==> base <= m < base + n
  {
    if n == 0 then {} else NewNumbers(base, n - 1) + {base + n - 1}
  }

  /** The state reached from the board `s` when the first k diagrams are out. */
  predicate Extracted(s: Store, g: nat, specs: seq<Spec>, k: nat, t: Store)
    requires g in s.objects && g in s.edges && k <= |specs|
  {
    && Detached(s, g, specs, k, k, t)
    && ObjectsAt(s, g, specs, k, t.objects)
    && EdgesAt(s, g, specs, k, t.edges)
    && t.next == s.next + k
  }

  lemma SameList(s: Store, specs: seq<Spec>, k: nat, n: nat, a: map<Object, seq<Object>>, b: map<Object, seq<Object>>)
    requires n <= |specs| && ListsAt(s, specs, k, n, a) && ListsAt(s, specs, k, n, b)
    ensures a == b
  {
    hide Filter, StaysIn, Tops;
    forall o | o in a
      ensures a[o] == b[o]
    {
      if o !in s.childList {
        assert RootList(s, specs, k, o.board - s.next, a) && RootList(s, specs, k, o.board - s.next, b);
      }
    }
  }

  lemma SameMap(s: Store, specs: seq<Spec>, k: nat, n: nat, a: map<Object, map<string, Object>>,
                b: map<Object, map<string, Object>>)
    requires n <= |specs| && MapsAt(s, specs, k, n, a) && MapsAt(s, specs, k, n, b)
    ensures a == b
  {
    hide Staying, StaysIn, TopMap;
    forall o | o in a
      ensures a[o] == b[o]
    {
      if o !in s.children {
        assert RootMap(s, specs, k, o.board - s.next, a) && RootMap(s, specs, k, o.board - s.next, b);
      }
    }
  }

  lemma SameGraph(s: Store, g: nat, specs: seq<Spec>, k: nat, n: nat, a: map<Object, nat>, b: map<Object, nat>)
    requires g in s.objects && GraphAt(s, g, specs, k, n, a) && GraphAt(s, g, specs, k, n, b)
    ensures a == b
  {
    hide OwnedGraph;
    forall o | o in a
      ensures a[o] == b[o]
    {
      assert o in s.graph || o in NewRoots(s.next, n);
    }
  }

  lemma SameObjects(s: Store, g: nat, specs: seq<Spec>, k: nat, a: map<nat, seq<Object>>, b: map<nat, seq<Object>>)
    requires g in s.objects && k <= |specs| && ObjectsAt(s, g, specs, k, a) && ObjectsAt(s, g, specs, k, b)
    ensures a == b
  {
    hide Filter;
    forall n | n in a
      ensures a[n] == b[n]
    {
      if n !in s.objects {
        assert NewObjects(s, g, specs, n - s.next, a) && NewObjects(s, g, specs, n - s.next, b);
      }
    }
  }

  lemma SameEdges(s: Store, g: nat, specs: seq<Spec>, k: nat, a: map<nat, seq<Edge>>, b: map<nat, seq<Edge>>)
    requires g in s.edges && k <= |specs| && EdgesAt(s, g, specs, k, a) && EdgesAt(s, g, specs, k, b)
    ensures a == b
  {
    hide Filter;
    forall n | n in a
      ensures a[n] == b[n]
    {
      if n !in s.edges {
        assert NewEdges(s, g, specs, n - s.next, a) && NewEdges(s, g, specs, n - s.next, b);
      }
    }
  }

  /** The state is determined: two forms that both reach it agree on every field. */
  lemma ExtractedOnce(s: Store, g: nat, specs: seq<Spec>, k: nat, t: Store, u: Store)
    requires g in s.objects && g in s.edges && k <= |specs|
    requires Extracted(s, g, specs, k, t) && Extracted(s, g, specs, k, u)
    ensures t == u
  {
    hide ListsAt, MapsAt, GraphAt, ObjectsAt, EdgesAt;
    SameList(s, specs, k, k, t.childList, u.childList);
    SameMap(s, specs, k, k, t.children, u.children);
    SameGraph(s, g, specs, k, k, t.graph, u.graph);
    SameObjects(s, g, specs, k, t.objects, u.objects);
    SameEdges(s, g, specs, k, t.edges, u.edges);
  }
}

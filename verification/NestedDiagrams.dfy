/** Which containers are extracted: the topmost nested diagrams of a board, found breadth first. */
module NestedDiagrams {
  import opened Lists
  import opened Forest
  import opened Extraction
  import opened ExtractionSteps
  import opened Layouts

  /** What an object's attributes say of it: at a constant position, or a sequence or grid diagram. */
  datatype Info = Info(near: Object -> bool, special: Object -> bool)

  predicate IsDiagram(info: Info, o: Object) {
    info.near(o) || info.special(o)
  }

  /** No diagram lies between the object and the board's root. */
  predicate Clear(p: Parents, g: nat, info: Info, o: Object)
    decreases Depth(o)
  {
    o in p && (p[o] == Root(g) || (!IsDiagram(info, p[o]) && Clear(p, g, info, p[o])))
  }

  /** A topmost diagram with something to lay out. */
  predicate Topmost(s: Store, g: nat, info: Info, o: Object) {
    && Clear(s.parent, g, info, o) && IsDiagram(info, o)
    && (info.near(o) || (o in s.children && s.children[o] != map[]))
  }

  /** Every child of the board's objects is an object of the board. */
  predicate Complete(s: Store, g: nat)
    requires g in s.objects
  {
    forall o, x :: o in s.childList && (o == Root(g) || o in s.objects[g]) && x in s.childList[o] ==> x in s.objects[g]
  }

  predicate HasSpec(specs: seq<Spec>, o: Object) {
    exists i :: 0 <= i < |specs| && specs[i].container == o
  }

  /** The search has reached the object: it is a child of the root or of a visited object that is no diagram. */
  predicate Reached(s: Store, g: nat, info: Info, visited: set<Object>, x: Object) {
    x in s.parent && (s.parent[x] == Root(g) || (s.parent[x] in visited && !IsDiagram(info, s.parent[x])))
  }

  ghost predicate Searching(s: Store, g: nat, info: Info, visited: set<Object>, queue: seq<Object>)
    requires g in s.objects
  {
    && Unique(queue)
    && (forall x :: x in queue ==> x !in visited)
    && (forall x :: x in queue || x in visited ==> x in s.objects[g] && Clear(s.parent, g, info, x))
    && (forall x :: x in s.objects[g] ==> (x in queue || x in visited <==> Reached(s, g, info, visited, x)))
  }

  ghost predicate Collected(s: Store, g: nat, info: Info, visited: set<Object>, specs: seq<Spec>) {
    && (forall i :: 0 <= i < |specs| ==> specs[i].container in visited && Topmost(s, g, info, specs[i].container))
    && (forall i :: 0 <= i < |specs| ==> specs[i].includeSelf == info.near(specs[i].container))
    && (forall i, j :: 0 <= i < j < |specs| ==> specs[i].container != specs[j].container)
    && (forall o :: o in visited && Topmost(s, g, info, o) ==> HasSpec(specs, o))
  }

  /** A topmost diagram is not within another. */
  lemma {:induction false} ClearAbove(p: Parents, g: nat, info: Info, o: Object, a: Object)
    requires Clear(p, g, info, o) && IsDescendantOf(p, o, a) && o != a && IsDiagram(info, a) && a in p
    ensures false
    decreases Depth(o)
  {
    if p[o] != a {
      ClearAbove(p, g, info, p[o], a);
    }
  }

  lemma CollectedFits(s: Store, g: nat, info: Info, visited: set<Object>, specs: seq<Spec>)
    requires g in s.objects && Collected(s, g, info, visited, specs) && forall x :: x in visited ==> x in s.objects[g]
    ensures Fits(s, g, specs)
  {
    forall i, j | 0 <= i < |specs| && 0 <= j < |specs| && i != j
      ensures !IsDescendantOf(s.parent, specs[i].container, specs[j].container)
    {
      var c, d := specs[i].container, specs[j].container;
      assert c != d;
      if IsDescendantOf(s.parent, c, d) {
        ClearAbove(s.parent, g, info, c, d);
      }
    }
  }

  /** When the queue is empty, every object without a diagram above it has been visited. */
  lemma {:induction false} AllVisited(s: Store, g: nat, info: Info, visited: set<Object>, x: Object)
    requires g in s.objects && Listed(s, g) && Searching(s, g, info, visited, [])
    requires x in s.objects[g] && Clear(s.parent, g, info, x)
    ensures x in visited
    decreases Depth(x)
  {
    hide Unique;
    if s.parent[x] != Root(g) {
      assert s.parent[x] in s.objects[g];
      AllVisited(s, g, info, visited, s.parent[x]);
    }
    assert Reached(s, g, info, visited, x);
  }

  lemma {:induction false} UniqueTail(queue: seq<Object>)
    requires Unique(queue) && queue != []
    ensures Unique(queue[1..]) && queue[0] !in queue[1..]
    ensures forall x :: x in queue <==> x == queue[0] || x in queue[1..]
  {
    assert queue == [queue[0]] + queue[1..];
  }

  lemma UniqueConcat(a: seq<Object>, b: seq<Object>)
    requires Unique(a) && Unique(b) && forall x :: x in a ==> x !in b
    ensures Unique(a + b)
  {
    var both := a + b;
    forall i, j | 0 <= i < j < |both|
      ensures both[i] != both[j]
    {
      if i < |a| <= j {
        assert both[i] in a && both[j] == b[j - |a|] && b[j - |a|] in b;
      }
    }
  }

  /** A diagram is not searched further. */
  lemma VisitDiagram(s: Store, g: nat, info: Info, visited: set<Object>, queue: seq<Object>)
    requires g in s.objects && queue != [] && Searching(s, g, info, visited, queue) && IsDiagram(info, queue[0])
    ensures Searching(s, g, info, visited + {queue[0]}, queue[1..])
  {
    hide Clear, IsDiagram, Unique;
    UniqueTail(queue);
    forall x | x in s.objects[g]
      ensures Reached(s, g, info, visited + {queue[0]}, x) == Reached(s, g, info, visited, x)
    {
    }
  }

  lemma VisitOther(s: Store, g: nat, info: Info, visited: set<Object>, queue: seq<Object>)
    requires g in s.objects && queue != [] && queue[0] in s.childList
    requires Linked(s) && Complete(s, g) && queue[0] in s.objects[g] && queue[0].Item?
    requires !IsDiagram(info, queue[0]) && Searching(s, g, info, visited, queue)
    ensures Searching(s, g, info, visited + {queue[0]}, queue[1..] + s.childList[queue[0]])
  {
    hide Linked, IsDiagram, Unique, Reached;
    var curr, kids := queue[0], s.childList[queue[0]];
    UniqueTail(queue);
    ChildOf(s, curr);
    forall x | x in s.objects[g]
      ensures Reached(s, g, info, visited + {curr}, x) == (Reached(s, g, info, visited, x) || x in kids)
      ensures x in kids ==> !Reached(s, g, info, visited, x)
    {
      ReachedMore(s, g, info, visited, curr, x);
    }
    UniqueConcat(queue[1..], kids);
  }

  lemma ReachedMore(s: Store, g: nat, info: Info, visited: set<Object>, curr: Object, x: Object)
    requires Linked(s) && curr in s.childList && curr.Item? && !IsDiagram(info, curr) && curr !in visited
    ensures Reached(s, g, info, visited + {curr}, x) == (Reached(s, g, info, visited, x) || x in s.childList[curr])
    ensures x in s.childList[curr] ==> !Reached(s, g, info, visited, x)
  {
    hide Linked, IsDiagram, Unique;
    ChildOf(s, curr);
    if x in s.parent && s.parent[x] == curr {
      KnownChild(s, x);
    }
  }

  // ----- breadth first -----

  /** How many containers the object is in, the root counted. */
  function Level(p: Parents, o: Object): nat
    decreases Depth(o)
  {
    if o in p then 1 + Level(p, p[o]) else 0
  }

  predicate Precedes(kids: seq<Object>, o: Object, x: Object) {
    exists i, j :: 0 <= i < j < |kids| && kids[i] == o && kids[j] == x
  }

  /** Level by level; on one level in the order of the parents, and children of one parent as they are listed. */
  predicate Earlier(s: Store, o: Object, x: Object)
    decreases Depth(o)
  {
    || Level(s.parent, o) < Level(s.parent, x)
    || (&& Level(s.parent, o) == Level(s.parent, x) && o in s.parent && x in s.parent
        && if s.parent[o] == s.parent[x] then s.parent[o] in s.childList && Precedes(s.childList[s.parent[o]], o, x)
           else Earlier(s, s.parent[o], s.parent[x]))
  }

  /** Of two objects at most one is the earlier, so there is one order only. */
  lemma {:induction false} EarlierOneWay(s: Store, o: Object, x: Object)
    requires Linked(s) && Earlier(s, o, x)
    ensures !Earlier(s, x, o)
    decreases Depth(o)
  {
    hide Linked;
    if Level(s.parent, o) == Level(s.parent, x) {
      if s.parent[o] == s.parent[x] {
        ChildOf(s, s.parent[o]);
      } else {
        EarlierOneWay(s, s.parent[o], s.parent[x]);
      }
    }
  }

  /** The queue runs through at most two levels, in order, and everything visited comes before it. */
  ghost predicate Ordered(s: Store, visited: set<Object>, queue: seq<Object>) {
    && (forall v, q :: v in visited && q in queue ==> Earlier(s, v, q))
    && (forall i, j :: 0 <= i < j < |queue| ==> Earlier(s, queue[i], queue[j]))
    && (forall i :: 0 <= i < |queue| ==> Level(s.parent, queue[i]) <= Level(s.parent, queue[0]) + 1)
  }

  lemma KidsOrdered(s: Store, o: Object)
    requires Linked(s) && o in s.childList
    ensures var kids := s.childList[o];
            && (forall i, j :: 0 <= i < j < |kids| ==> Earlier(s, kids[i], kids[j]))
            && (forall x :: x in kids ==>
                x in s.parent && s.parent[x] == o &&
                Level(s.parent, x) == 1 + Level(s.parent, o))
  {
    hide Linked;
    ChildOf(s, o);
    var kids := s.childList[o];
    forall i, j | 0 <= i < j < |kids|
      ensures Earlier(s, kids[i], kids[j])
    {
      assert Precedes(kids, kids[i], kids[j]);
    }
  }

  lemma OrderedStart(s: Store, g: nat)
    requires Linked(s) && Root(g) in s.childList
    ensures Ordered(s, {}, s.childList[Root(g)])
  {
    hide Linked, Earlier;
    KidsOrdered(s, Root(g));
  }

  lemma EarlierLevel(s: Store, o: Object, x: Object)
    requires Earlier(s, o, x)
    ensures Level(s.parent, o) <= Level(s.parent, x)
  {
  }

  lemma OrderedTail(s: Store, visited: set<Object>, queue: seq<Object>)
    requires queue != [] && Ordered(s, visited, queue)
    ensures Ordered(s, visited + {queue[0]}, queue[1..])
  {
    hide Earlier, Level;
    if |queue| > 1 {
      EarlierLevel(s, queue[0], queue[1]);
    }
  }

  /** What is left in the queue comes before the children of what was taken from it. */
  lemma BeforeKid(s: Store, g: nat, info: Info, visited: set<Object>, queue: seq<Object>, i: nat, x: Object)
    requires g in s.objects && Valid(s, g) && Searching(s, g, info, visited, queue) && Ordered(s, visited, queue)
    requires 0 < i < |queue| && queue[0] in s.childList && x in s.childList[queue[0]] && queue[0] in s.parent
    ensures Earlier(s, queue[i], x)
  {
    hide Valid, Unique, IsDiagram, Clear;
    var curr, q := queue[0], queue[i];
    assert q in queue;
    ValidLinked(s, g);
    KidsOrdered(s, curr);
    SearchKnows(s, g, info, visited, queue, q);
    if Level(s.parent, q) == Level(s.parent, x) {
      if s.parent[q] == Root(g) {
        RootLevel(s, g);
      } else {
        assert s.parent[q] in visited;
        assert s.parent[q] != curr;
      }
    }
  }

  lemma ValidLinked(s: Store, g: nat)
    requires Valid(s, g)
    ensures Linked(s)
  {
  }

  lemma RootLevel(s: Store, g: nat)
    ensures Level(s.parent, Root(g)) == 0
  {
  }

  lemma SearchKnows(s: Store, g: nat, info: Info, visited: set<Object>, queue: seq<Object>, q: Object)
    requires g in s.objects && Searching(s, g, info, visited, queue) && q in queue
    ensures q in s.parent && (s.parent[q] == Root(g) || s.parent[q] in visited)
  {
    hide Unique, IsDiagram, Clear;
    assert Reached(s, g, info, visited, q);
  }

  lemma RestFirst(s: Store, g: nat, info: Info, visited: set<Object>, queue: seq<Object>)
    requires g in s.objects && Valid(s, g) && queue != [] && Searching(s, g, info, visited, queue)
    requires Ordered(s, visited, queue) && queue[0] in s.childList && queue[0] in s.parent
    ensures forall i, x :: 0 <= i < |queue| - 1 && x in s.childList[queue[0]] ==> Earlier(s, queue[1..][i], x)
  {
    hide Valid, Searching, Earlier, Level, Ordered;
    forall i, x | 0 <= i < |queue| - 1 && x in s.childList[queue[0]]
      ensures Earlier(s, queue[1..][i], x)
    {
      BeforeKid(s, g, info, visited, queue, i + 1, x);
    }
  }

  lemma RestLevels(s: Store, visited: set<Object>, queue: seq<Object>)
    requires queue != [] && Ordered(s, visited, queue)
    ensures forall i :: 0 <= i < |queue| - 1 ==>
              Level(s.parent, queue[0]) <= Level(s.parent, queue[1..][i]) <= Level(s.parent, queue[0]) + 1
  {
    hide Earlier, Level;
    forall i | 0 <= i < |queue| - 1
      ensures Level(s.parent, queue[0]) <= Level(s.parent, queue[1..][i])
    {
      EarlierLevel(s, queue[0], queue[i + 1]);
    }
  }

  lemma OrderedMore(s: Store, g: nat, info: Info, visited: set<Object>, queue: seq<Object>)
    requires g in s.objects && Valid(s, g) && queue != [] && Searching(s, g, info, visited, queue)
    requires Ordered(s, visited, queue) && queue[0] in s.childList && queue[0] in s.parent
    ensures Ordered(s, visited + {queue[0]}, queue[1..] + s.childList[queue[0]])
  {
    hide Valid, Searching, Earlier, Level, Ordered;
    ValidLinked(s, g);
    KidsOrdered(s, queue[0]);
    OrderedTail(s, visited, queue);
    RestFirst(s, g, info, visited, queue);
    RestLevels(s, visited, queue);
    VisitedFirst(s, visited, queue, s.childList[queue[0]]);
    Joined(s, visited + {queue[0]}, queue[1..], s.childList[queue[0]], Level(s.parent, queue[0]));
  }

  lemma VisitedFirst(s: Store, visited: set<Object>, queue: seq<Object>, kids: seq<Object>)
    requires queue != [] && Ordered(s, visited, queue)
    requires forall x :: x in kids ==> Level(s.parent, x) == 1 + Level(s.parent, queue[0])
    ensures forall v, x :: v in visited + {queue[0]} && x in kids ==> Earlier(s, v, x)
  {
    hide Earlier, Level;
    forall v, x | v in visited + {queue[0]} && x in kids
      ensures Earlier(s, v, x)
    {
      if v != queue[0] {
        assert queue[0] in queue;
        EarlierLevel(s, v, queue[0]);
      }
      LowerEarlier(s, v, x);
    }
  }

  lemma LowerEarlier(s: Store, o: Object, x: Object)
    requires Level(s.parent, o) < Level(s.parent, x)
    ensures Earlier(s, o, x)
  {
  }

  lemma Joined(s: Store, visited: set<Object>, a: seq<Object>, b: seq<Object>, level: nat)
    requires Ordered(s, visited, a) && forall v, x :: v in visited && x in b ==> Earlier(s, v, x)
    requires forall i, j :: 0 <= i < j < |b| ==> Earlier(s, b[i], b[j])
    requires forall i, x :: 0 <= i < |a| && x in b ==> Earlier(s, a[i], x)
    requires forall i :: 0 <= i < |a| ==> level <= Level(s.parent, a[i]) <= level + 1
    requires forall x :: x in b ==> Level(s.parent, x) == level + 1
    ensures Ordered(s, visited, a + b)
  {
    hide Earlier, Level;
    var both := a + b;
    forall i, j | 0 <= i < j < |both|
      ensures Earlier(s, both[i], both[j])
    {
      if i < |a| <= j {
        assert both[j] == b[j - |a|] && b[j - |a|] in b;
      }
    }
    forall i | 0 <= i < |both|
      ensures level <= Level(s.parent, both[i]) <= level + 1
    {
      if i >= |a| {
        assert both[i] == b[i - |a|] && b[i - |a|] in b;
      }
    }
  }

  ghost predicate InOrder(s: Store, specs: seq<Spec>) {
    forall i, j :: 0 <= i < j < |specs| ==> Earlier(s, specs[i].container, specs[j].container)
  }

  lemma InOrderMore(s: Store, g: nat, info: Info, visited: set<Object>, queue: seq<Object>, specs: seq<Spec>,
                    spec: Spec)
    requires InOrder(s, specs) && Collected(s, g, info, visited, specs) && Ordered(s, visited, queue)
    requires queue != [] && spec.container == queue[0]
    ensures InOrder(s, specs + [spec])
  {
    hide Earlier, Topmost;
    assert queue[0] in queue;
  }

  /** The specs are the topmost diagrams, each once, breadth first, and they can be extracted together. */
  method CollectNestedExtractions(a: Arena, g: nat, info: Info) returns (specs: seq<Spec>)
    requires g in a.objects && g in a.edges && Valid(a.Now(), g) && Complete(a.Now(), g)
    ensures Fits(a.Now(), g, specs)
    ensures forall i :: 0 <= i < |specs| ==> specs[i].includeSelf == info.near(specs[i].container)
    ensures forall o :: HasSpec(specs, o) <==> o in a.objects[g] && Topmost(a.Now(), g, info, o)
    ensures InOrder(a.Now(), specs)
  {
    hide Linked, Listed, Fits, Searching, Collected, Topmost, Complete, Ordered, InOrder;
    ghost var s := a.Now();
    RootKnown(s, g);
    var queue := a.childList[Root(g)];
    specs := [];
    ghost var visited: set<Object> := {};
    ghost var all := set o | o in s.objects[g];
    StartSearch(s, g, info);
    OrderedStart(s, g);
    NoneInOrder(s);
    while queue != []
      invariant Searching(s, g, info, visited, queue) && Collected(s, g, info, visited, specs)
      invariant forall x :: x in visited ==> x in s.objects[g]
      invariant Ordered(s, visited, queue) && InOrder(s, specs)
      decreases all - visited
    {
      var curr := queue[0];
      SearchStep(s, g, info, visited, queue);
      if info.near(curr) || info.special(curr) {
        VisitDiagram(s, g, info, visited, queue);
        OrderedTail(s, visited, queue);
        if !info.near(curr) && a.children[curr] == map[] {
          CollectedSame(s, g, info, visited, specs, curr);
        } else {
          InOrderMore(s, g, info, visited, queue, specs, Spec(curr, info.near(curr)));
          CollectedMore(s, g, info, visited, specs, curr);
          specs := specs + [Spec(curr, info.near(curr))];
        }
        queue := queue[1..];
      } else {
        OrderedMore(s, g, info, visited, queue);
        VisitOther(s, g, info, visited, queue);
        CollectedSame(s, g, info, visited, specs, curr);
        queue := queue[1..] + a.childList[curr];
      }
      visited := visited + {curr};
    }
    CollectedFits(s, g, info, visited, specs);
    CollectedAll(s, g, info, visited, specs);
  }

  lemma NoneInOrder(s: Store)
    ensures InOrder(s, [])
  {
  }

  lemma RootKnown(s: Store, g: nat)
    requires Linked(s) && Listed(s, g)
    ensures Root(g) in s.childList
  {
  }

  lemma StartSearch(s: Store, g: nat, info: Info)
    requires g in s.objects && Valid(s, g) && Complete(s, g)
    ensures Root(g) in s.childList && Searching(s, g, info, {}, s.childList[Root(g)]) && Collected(s, g, info, {}, [])
  {
    hide IsDiagram, Indexed;
    ChildOf(s, Root(g));
    forall x | x in s.objects[g]
      ensures x in s.childList[Root(g)] <==> Reached(s, g, info, {}, x)
    {
      KnownChild(s, x);
    }
  }

  lemma SearchStep(s: Store, g: nat, info: Info, visited: set<Object>, queue: seq<Object>)
    requires g in s.objects && Valid(s, g) && queue != [] && Searching(s, g, info, visited, queue)
    ensures var curr := queue[0];
            && curr in s.objects[g] && curr !in visited && curr.Item? && Clear(s.parent, g, info, curr)
            && curr in s.childList && curr in s.children && curr in s.parent
  {
    hide Unique, Indexed, IsDiagram, Reached;
    assert queue[0] in queue;
  }

  lemma CollectedSame(s: Store, g: nat, info: Info, visited: set<Object>, specs: seq<Spec>, curr: Object)
    requires Collected(s, g, info, visited, specs)
    requires !IsDiagram(info, curr) || (!info.near(curr) && (curr in s.children ==> s.children[curr] == map[]))
    ensures Collected(s, g, info, visited + {curr}, specs)
  {
  }

  lemma CollectedMore(s: Store, g: nat, info: Info, visited: set<Object>, specs: seq<Spec>, curr: Object)
    requires Collected(s, g, info, visited, specs) && curr !in visited
    requires IsDiagram(info, curr) && Clear(s.parent, g, info, curr)
    requires info.near(curr) || (curr in s.children && s.children[curr] != map[])
    ensures Collected(s, g, info, visited + {curr}, specs + [Spec(curr, info.near(curr))])
  {
    hide IsDiagram, Clear;
    var more := specs + [Spec(curr, info.near(curr))];
    assert more[|specs|].container == curr;
    forall o | o in visited + {curr} && Topmost(s, g, info, o)
      ensures HasSpec(more, o)
    {
      if o in visited {
        var i :| 0 <= i < |specs| && specs[i].container == o;
        assert more[i].container == o;
      }
    }
  }

  lemma CollectedAll(s: Store, g: nat, info: Info, visited: set<Object>, specs: seq<Spec>)
    requires g in s.objects && Listed(s, g) && Searching(s, g, info, visited, [])
    requires Collected(s, g, info, visited, specs)
    ensures forall i :: 0 <= i < |specs| ==> specs[i].includeSelf == info.near(specs[i].container)
    ensures forall o :: HasSpec(specs, o) <==> o in s.objects[g] && Topmost(s, g, info, o)
  {
    hide Listed, Unique, IsDiagram, Clear, Reached;
    forall o
      ensures HasSpec(specs, o) <==> o in s.objects[g] && Topmost(s, g, info, o)
    {
      if o in s.objects[g] && Topmost(s, g, info, o) {
        AllVisited(s, g, info, visited, o);
      }
    }
  }
}

/**
 Nodes of the intermediate representation and their links. Substitution shares composites instead of copying them, so
 the nodes form a graph; it must never get a cycle.
 */
module IRGraph {
  import opened Options

  type Node = nat

  /** A scalar's value is an object of its own that several scalars may share. */
  datatype Value = NoValue | Shared(id: nat, units: nat)

  datatype Shape =
    | MapNode(fields: seq<Node>, edges: seq<Node>)
    | FieldNode(nameUnits: nat, references: nat, primary: Option<Node>, composite: Option<Node>)
    | EdgeNode(pathUnits: seq<nat>, references: nat, primary: Option<Node>, map_: Option<Node>)
    | ArrayNode(values: seq<Node>)
    | ScalarNode(value: Value)

  type Nodes = map<Node, Shape>

  function Opt(o: Option<Node>): seq<Node> {
    if o.Some? then [o.value] else []
  }

  /** What a node holds, leaving out the primary scalars. */
  function Kids(s: Shape): seq<Node> {
    match s
    case MapNode(fields, edges) => fields + edges
    case FieldNode(_, _, _, composite) => Opt(composite)
    case EdgeNode(_, _, _, map_) => Opt(map_)
    case ArrayNode(values) => values
    case ScalarNode(_) => []
  }

  predicate Linked(nodes: Nodes) {
    forall n, k :: n in nodes && k in Kids(nodes[n]) ==> k in nodes
  }

  // ----- reachability -----

  predicate IsPath(nodes: Nodes, p: seq<Node>) {
    p != [] && forall i :: 0 <= i < |p| - 1 ==> p[i] in nodes && p[i + 1] in Kids(nodes[p[i]])
  }

  ghost predicate Reaches(nodes: Nodes, a: Node, b: Node) {
    exists p :: IsPath(nodes, p) && p[0] == a && p[|p| - 1] == b
  }

  lemma ReachesSelf(nodes: Nodes, a: Node)
    ensures Reaches(nodes, a, a)
  {
    assert IsPath(nodes, [a]);
  }

  lemma ReachesKid(nodes: Nodes, a: Node, b: Node)
    requires a in nodes && b in Kids(nodes[a])
    ensures Reaches(nodes, a, b)
  {
    assert IsPath(nodes, [a, b]);
  }

  lemma ReachesTrans(nodes: Nodes, a: Node, b: Node, c: Node)
    requires Reaches(nodes, a, b) && Reaches(nodes, b, c)
    ensures Reaches(nodes, a, c)
  {
    hide Kids;
    var p :| IsPath(nodes, p) && p[0] == a && p[|p| - 1] == b;
    var q :| IsPath(nodes, q) && q[0] == b && q[|q| - 1] == c;
    var r := p + q[1..];
    forall i | 0 <= i < |r| - 1
      ensures r[i] in nodes && r[i + 1] in Kids(nodes[r[i]])
    {
      if i < |p| - 1 {
        assert r[i] == p[i] && r[i + 1] == p[i + 1];
      } else {
        assert r[i] == q[i - (|p| - 1)] && r[i + 1] == q[i - (|p| - 1) + 1];
      }
    }
    assert IsPath(nodes, r) && r[0] == a && r[|r| - 1] == c;
  }

  lemma PathTail(nodes: Nodes, p: seq<Node>)
    requires IsPath(nodes, p) && |p| > 1
    ensures IsPath(nodes, p[1..]) && p[1..][|p| - 2] == p[|p| - 1]
  {
    hide Kids;
    var q := p[1..];
    forall i | 0 <= i < |q| - 1
      ensures q[i] in nodes && q[i + 1] in Kids(nodes[q[i]])
    {
      assert q[i] == p[i + 1] && q[i + 1] == p[i + 1 + 1];
    }
  }

  /** A set closed under links holds everything its members reach. */
  lemma {:induction false} ClosedPath(nodes: Nodes, closed: set<Node>, p: seq<Node>)
    requires IsPath(nodes, p) && p[0] in closed
    requires forall n, k :: n in closed && n in nodes && k in Kids(nodes[n]) ==> k in closed
    ensures p[|p| - 1] in closed
  {
    hide Kids;
    if |p| > 1 {
      var q := p[1..];
      PathTail(nodes, p);
      ClosedPath(nodes, closed, q);
    }
  }

  // ----- the walk -----

  /** Everything on the stack or seen was reached, and what seen nodes hold has not been forgotten. */
  ghost predicate Walking(nodes: Nodes, root: Node, stack: seq<Node>, seen: set<Node>) {
    && (root in seen || root in stack)
    && (forall n :: n in stack || n in seen ==> n in nodes && Reaches(nodes, root, n))
    && (forall n, k :: n in seen && k in Kids(nodes[n]) ==> k in seen || k in stack)
  }

  lemma WalkStart(nodes: Nodes, root: Node)
    requires root in nodes
    ensures Walking(nodes, root, [root], {})
  {
    ReachesSelf(nodes, root);
  }

  lemma WalkOn(nodes: Nodes, root: Node, stack: seq<Node>, seen: set<Node>)
    requires Linked(nodes) && stack != [] && Walking(nodes, root, stack, seen)
    ensures var n, rest := stack[|stack| - 1], stack[..|stack| - 1];
            && n in nodes && Reaches(nodes, root, n)
            && (n in seen ==> Walking(nodes, root, rest, seen))
            && (n !in seen ==> Walking(nodes, root, rest + Kids(nodes[n]), seen + {n}))
  {
    hide Kids, Reaches;
    var n, rest := stack[|stack| - 1], stack[..|stack| - 1];
    assert stack == rest + [n];
    forall k | k in Kids(nodes[n])
      ensures Reaches(nodes, root, k)
    {
      ReachesKid(nodes, n, k);
      ReachesTrans(nodes, root, n, k);
    }
  }

  lemma WalkDone(nodes: Nodes, root: Node, seen: set<Node>)
    requires Walking(nodes, root, [], seen)
    ensures forall n :: n in seen <==> Reaches(nodes, root, n)
  {
    hide Kids;
    forall n | Reaches(nodes, root, n)
      ensures n in seen
    {
      var p :| IsPath(nodes, p) && p[0] == root && p[|p| - 1] == n;
      ClosedPath(nodes, seen, p);
    }
  }

  // ----- spreads that are still to be expanded -----

  /** For each placeholder whose spread can be resolved, the composites it stands for. */
  type Pending = map<Node, seq<Node>>

  predicate Resolved(nodes: Nodes, pending: Pending) {
    forall n, k :: n in pending && k in pending[n] ==> k in nodes
  }

  /** The nodes as if every placeholder already held what it stands for. */
  function WithSpreads(nodes: Nodes, pending: Pending): Nodes {
    map n | n in nodes :: if n in pending then MapNode(Kids(nodes[n]) + pending[n], []) else nodes[n]
  }

  lemma SpreadKids(nodes: Nodes, pending: Pending, n: Node, k: Node)
    requires n in nodes
    ensures k in Kids(WithSpreads(nodes, pending)[n]) <==> k in Kids(nodes[n]) || (n in pending && k in pending[n])
  {
  }

  /** Every link is still there. */
  predicate MoreLinks(nodes: Nodes, nodes': Nodes) {
    forall n :: n in nodes ==> n in nodes' && forall k :: k in Kids(nodes[n]) ==> k in Kids(nodes'[n])
  }

  lemma ReachesMore(nodes: Nodes, nodes': Nodes, a: Node, b: Node)
    requires MoreLinks(nodes, nodes') && Reaches(nodes, a, b)
    ensures Reaches(nodes', a, b)
  {
    hide Kids;
    var p :| IsPath(nodes, p) && p[0] == a && p[|p| - 1] == b;
    assert IsPath(nodes', p);
  }

  lemma SpreadsReachMore(nodes: Nodes, pending: Pending, a: Node, b: Node)
    requires Reaches(nodes, a, b)
    ensures Reaches(WithSpreads(nodes, pending), a, b)
  {
    hide Reaches;
    ReachesMore(nodes, WithSpreads(nodes, pending), a, b);
  }

  /**
   Composites on the stack or searched lie below the root; the searched ones do not reach the target, and what their
   placeholders stand for has not been forgotten.
   */
  ghost predicate Searching(nodes: Nodes, pending: Pending, root: Node, target: Node, stack: seq<Node>,
                            seen: set<Node>) {
    && (root in seen || root in stack)
    && (forall c :: c in stack || c in seen ==> c in nodes && Reaches(WithSpreads(nodes, pending), root, c))
    && (forall c :: c in seen ==> !Reaches(nodes, c, target))
    && (forall c, n, k :: c in seen && Reaches(nodes, c, n) && n in pending && k in pending[n] ==>
        k in seen ||
        k in stack)
  }

  lemma SearchStart(nodes: Nodes, pending: Pending, root: Node, target: Node)
    requires root in nodes
    ensures Searching(nodes, pending, root, target, [root], {})
  {
    hide WithSpreads;
    ReachesSelf(WithSpreads(nodes, pending), root);
  }

  lemma SearchKnown(nodes: Nodes, pending: Pending, root: Node, target: Node, stack: seq<Node>, seen: set<Node>)
    requires Searching(nodes, pending, root, target, stack, seen)
    ensures forall c :: c in stack || c in seen ==> c in nodes
  {
  }

  lemma SearchAgain(nodes: Nodes, pending: Pending, root: Node, target: Node, stack: seq<Node>, seen: set<Node>)
    requires stack != [] && stack[|stack| - 1] in seen && Searching(nodes, pending, root, target, stack, seen)
    ensures Searching(nodes, pending, root, target, stack[..|stack| - 1], seen)
  {
    hide Reaches, WithSpreads;
    assert stack == stack[..|stack| - 1] + [stack[|stack| - 1]];
  }

  lemma SearchFound(nodes: Nodes, pending: Pending, root: Node, target: Node, stack: seq<Node>, seen: set<Node>)
    requires stack != [] && Searching(nodes, pending, root, target, stack, seen)
    requires Reaches(nodes, stack[|stack| - 1], target)
    ensures Reaches(WithSpreads(nodes, pending), root, target)
  {
    hide Reaches, WithSpreads;
    var c := stack[|stack| - 1];
    SpreadsReachMore(nodes, pending, c, target);
    ReachesTrans(WithSpreads(nodes, pending), root, c, target);
  }

  lemma SearchOn(nodes: Nodes, pending: Pending, root: Node, target: Node, stack: seq<Node>, seen: set<Node>,
                 more: seq<Node>)
    requires stack != [] && Searching(nodes, pending, root, target, stack, seen)
    requires !Reaches(nodes, stack[|stack| - 1], target)
    requires Resolved(nodes, pending) && pending.Keys <= nodes.Keys
    requires forall n, k :: n in pending && Reaches(nodes, stack[|stack| - 1], n) && k in pending[n] ==> k in more
    requires forall k :: k in more ==> exists n ::
             n in pending && Reaches(nodes, stack[|stack| - 1], n) &&
             k in pending[n]
    ensures Searching(nodes, pending, root, target, stack[..|stack| - 1] + more, seen + {stack[|stack| - 1]})
  {
    hide Reaches, WithSpreads, Kids;
    var c, rest := stack[|stack| - 1], stack[..|stack| - 1];
    assert stack == rest + [c];
    forall k | k in more
      ensures k in nodes && Reaches(WithSpreads(nodes, pending), root, k)
    {
      var n :| n in pending && Reaches(nodes, c, n) && k in pending[n];
      SpreadsReachMore(nodes, pending, c, n);
      ReachesTrans(WithSpreads(nodes, pending), root, c, n);
      SpreadReaches(nodes, pending, n, k);
      ReachesTrans(WithSpreads(nodes, pending), root, n, k);
    }
  }

  lemma SpreadReaches(nodes: Nodes, pending: Pending, n: Node, k: Node)
    requires n in nodes && n in pending && k in pending[n]
    ensures Reaches(WithSpreads(nodes, pending), n, k)
  {
    hide Reaches;
    SpreadKids(nodes, pending, n, k);
    ReachesKid(WithSpreads(nodes, pending), n, k);
  }

  /** What searched composites reach is closed under links and spreads, so the target is not below the root. */
  lemma SearchDone(nodes: Nodes, pending: Pending, root: Node, target: Node, seen: set<Node>)
    requires Linked(nodes) && Resolved(nodes, pending) && Searching(nodes, pending, root, target, [], seen)
    ensures !Reaches(WithSpreads(nodes, pending), root, target)
  {
    hide Kids;
    var spread := WithSpreads(nodes, pending);
    if Reaches(spread, root, target) {
      ghost var below := set n | n in nodes && BelowOneOf(nodes, seen, n);
      ReachesSelf(nodes, root);
      assert root in below;
      forall n, k | n in below && n in spread && k in Kids(spread[n])
        ensures k in below
      {
        SpreadKids(nodes, pending, n, k);
        BelowStep(nodes, pending, root, target, seen, n, k);
      }
      var p :| IsPath(spread, p) && p[0] == root && p[|p| - 1] == target;
      ClosedPath(spread, below, p);
    }
  }

  ghost predicate BelowOneOf(nodes: Nodes, seen: set<Node>, n: Node) {
    exists c :: c in seen && Reaches(nodes, c, n)
  }

  lemma BelowStep(nodes: Nodes, pending: Pending, root: Node, target: Node, seen: set<Node>, n: Node, k: Node)
    requires Linked(nodes) && Resolved(nodes, pending) && Searching(nodes, pending, root, target, [], seen)
    requires n in nodes && BelowOneOf(nodes, seen, n) && (k in Kids(nodes[n]) || (n in pending && k in pending[n]))
    ensures k in nodes && BelowOneOf(nodes, seen, k)
  {
    hide Kids, Reaches, WithSpreads;
    var c :| c in seen && Reaches(nodes, c, n);
    if k in Kids(nodes[n]) {
      ReachesKid(nodes, n, k);
      ReachesTrans(nodes, c, n, k);
    } else {
      ReachesSelf(nodes, k);
    }
  }

  // ----- acyclicity -----

  /** Links lead to smaller ranks. */
  predicate Ranked(nodes: Nodes, rank: map<Node, nat>) {
    && nodes.Keys <= rank.Keys
    && forall n, k :: n in nodes && k in Kids(nodes[n]) ==> k in rank && rank[k] < rank[n]
  }

  ghost predicate Acyclic(nodes: Nodes) {
    exists rank :: Ranked(nodes, rank)
  }

  lemma {:induction false} RankFalls(nodes: Nodes, rank: map<Node, nat>, p: seq<Node>)
    requires Ranked(nodes, rank) && IsPath(nodes, p) && p[0] in rank
    ensures p[|p| - 1] in rank && rank[p[|p| - 1]] <= rank[p[0]]
  {
    hide Kids;
    if |p| > 1 {
      var q := p[1..];
      assert p[1] in Kids(nodes[p[0]]);
      PathTail(nodes, p);
      RankFalls(nodes, rank, q);
    }
  }

  lemma ReachRank(nodes: Nodes, rank: map<Node, nat>, a: Node, b: Node)
    requires Ranked(nodes, rank) && Reaches(nodes, a, b) && a in rank
    ensures b in rank && rank[b] <= rank[a]
  {
    var p :| IsPath(nodes, p) && p[0] == a && p[|p| - 1] == b;
    RankFalls(nodes, rank, p);
  }

  /** No node of an acyclic graph is reached from what it holds. */
  lemma AcyclicNoCycle(nodes: Nodes, n: Node, k: Node)
    requires Acyclic(nodes) && n in nodes && k in Kids(nodes[n])
    ensures !Reaches(nodes, k, n)
  {
    hide Kids, Reaches;
    var rank :| Ranked(nodes, rank);
    if Reaches(nodes, k, n) {
      ReachRank(nodes, rank, k, n);
    }
  }

  // ----- changing one node -----

  /** One node gets new links: old ones of its own, or to things the composite c reaches. */
  ghost predicate Relinked(nodes: Nodes, n: Node, c: Node, nodes': Nodes) {
    && n in nodes && c in nodes && nodes'.Keys == nodes.Keys
    && (forall x :: x in nodes && x != n ==> nodes'[x] == nodes[x])
    && (forall k :: k in Kids(nodes'[n]) ==> k in Kids(nodes[n]) || (k in nodes && Reaches(nodes, c, k)))
  }

  /** Links into what c reaches make no cycle when c does not reach the node. */
  lemma RelinkKeepsAcyclic(nodes: Nodes, n: Node, c: Node, nodes': Nodes)
    requires Acyclic(nodes) && Relinked(nodes, n, c, nodes') && !Reaches(nodes, c, n)
    ensures Acyclic(nodes')
  {
    hide Kids, Reaches;
    var rank :| Ranked(nodes, rank);
    var lift := rank[c] + 1;
    var rank' := map x | x in rank :: if Reaches(nodes, x, n) then rank[x] + lift else rank[x];
    forall x, k | x in nodes' && k in Kids(nodes'[x])
      ensures k in rank' && rank'[k] < rank'[x]
    {
      if k in Kids(nodes[x]) {
        ReachesKid(nodes, x, k);
        if Reaches(nodes, k, n) {
          ReachesTrans(nodes, x, k, n);
        }
      } else {
        ReachesSelf(nodes, n);
        ReachRank(nodes, rank, c, k);
        if Reaches(nodes, k, n) {
          ReachesTrans(nodes, c, k, n);
        }
      }
    }
    assert Ranked(nodes', rank');
  }

  /** A way to n needs no link of n itself, so it survives any change of n. */
  lemma {:induction false} WaySurvives(nodes: Nodes, nodes': Nodes, n: Node, p: seq<Node>)
    requires forall x :: x in nodes && x != n ==> x in nodes' && nodes'[x] == nodes[x]
    requires IsPath(nodes, p) && p[|p| - 1] == n
    ensures Reaches(nodes', p[0], n)
  {
    hide Kids, Reaches;
    if p[0] == n {
      ReachesSelf(nodes', n);
    } else {
      var q := p[1..];
      PathTail(nodes, p);
      WaySurvives(nodes, nodes', n, q);
      ReachesKid(nodes', p[0], p[1]);
      ReachesTrans(nodes', p[0], p[1], n);
    }
  }

  // ----- expanding every spread -----

  function Only(pending: Pending, keys: set<Node>): Pending {
    map n | n in pending && n in keys :: pending[n]
  }

  lemma SameLinks(nodes: Nodes, nodes': Nodes)
    requires Acyclic(nodes) && nodes'.Keys == nodes.Keys
    requires forall n, k :: n in nodes && k in Kids(nodes'[n]) ==> k in Kids(nodes[n])
    ensures Acyclic(nodes')
  {
    hide Kids;
    var rank :| Ranked(nodes, rank);
    assert Ranked(nodes', rank);
  }

  /** No composite that a placeholder stands for leads back to the placeholder, through links and spreads. */
  ghost predicate SpreadsEnd(nodes: Nodes, pending: Pending) {
    forall n, k :: n in pending && k in pending[n] ==> !Reaches(WithSpreads(nodes, pending), k, n)
  }

  /** One placeholder more, with the first j of what it stands for. */
  lemma {:induction false} AcyclicWithOne(nodes: Nodes, pending: Pending, keys: set<Node>, p: Node, j: nat)
    requires Resolved(nodes, pending) && pending.Keys <= nodes.Keys && SpreadsEnd(nodes, pending)
    requires p in pending && p !in keys && j <= |pending[p]| && Acyclic(WithSpreads(nodes, Only(pending, keys)))
    ensures Acyclic(WithSpreads(nodes, Only(pending, keys)[p := pending[p][..j]]))
    decreases j
  {
    hide Reaches, Acyclic, Kids;
    var now := WithSpreads(nodes, Only(pending, keys)[p := pending[p][..j]]);
    if j == 0 {
      var before := WithSpreads(nodes, Only(pending, keys));
      forall n, k | n in before && k in Kids(now[n])
        ensures k in Kids(before[n])
      {
        SpreadKids(nodes, Only(pending, keys), n, k);
        SpreadKids(nodes, Only(pending, keys)[p := []], n, k);
      }
      assert pending[p][..0] == [];
      SameLinks(before, now);
    } else {
      var before := WithSpreads(nodes, Only(pending, keys)[p := pending[p][..j - 1]]);
      AcyclicWithOne(nodes, pending, keys, p, j - 1);
      var c := pending[p][j - 1];
      LinksGrow(nodes, pending, Only(pending, keys)[p := pending[p][..j - 1]]);
      if Reaches(before, c, p) {
        ReachesMore(before, WithSpreads(nodes, pending), c, p);
      }
      forall k | k in Kids(now[p])
        ensures k in Kids(before[p]) || (k in before && Reaches(before, c, k))
      {
        SpreadKids(nodes, Only(pending, keys)[p := pending[p][..j]], p, k);
        SpreadKids(nodes, Only(pending, keys)[p := pending[p][..j - 1]], p, k);
        ReachesSelf(before, c);
        assert pending[p][..j] == pending[p][..j - 1] + [c];
      }
      RelinkKeepsAcyclic(before, p, c, now);
    }
  }

  lemma LinksGrow(nodes: Nodes, pending: Pending, part: Pending)
    requires forall n, k :: n in part && k in part[n] ==> n in pending && k in pending[n]
    ensures MoreLinks(WithSpreads(nodes, part), WithSpreads(nodes, pending))
  {
    hide Kids;
    forall n, k | n in nodes && k in Kids(WithSpreads(nodes, part)[n])
      ensures k in Kids(WithSpreads(nodes, pending)[n])
    {
      SpreadKids(nodes, part, n, k);
      SpreadKids(nodes, pending, n, k);
    }
  }

  lemma {:induction false} AcyclicWithAll(nodes: Nodes, pending: Pending, keys: set<Node>)
    requires Acyclic(nodes) && Resolved(nodes, pending) && keys <= pending.Keys <= nodes.Keys
    requires SpreadsEnd(nodes, pending)
    ensures Acyclic(WithSpreads(nodes, Only(pending, keys)))
    decreases keys
  {
    hide Reaches, Acyclic, Kids, SpreadsEnd;
    if keys == {} {
      assert WithSpreads(nodes, Only(pending, keys)) == nodes;
    } else {
      var p :| p in keys;
      AcyclicWithAll(nodes, pending, keys - {p});
      AcyclicWithOne(nodes, pending, keys - {p}, p, |pending[p]|);
      assert pending[p][..|pending[p]|] == pending[p] && p in Only(pending, keys);
      assert Only(pending, keys - {p})[p := pending[p]] == Only(pending, keys);
    }
  }

  /** The guard refuses some spread exactly when expanding all of them would close a cycle. */
  lemma SpreadsCloseNoCycle(nodes: Nodes, pending: Pending)
    requires Acyclic(nodes) && Resolved(nodes, pending) && pending.Keys <= nodes.Keys
    ensures Acyclic(WithSpreads(nodes, pending)) <==> SpreadsEnd(nodes, pending)
  {
    hide Reaches, Acyclic, Kids;
    if SpreadsEnd(nodes, pending) {
      AcyclicWithAll(nodes, pending, pending.Keys);
      assert Only(pending, pending.Keys) == pending;
    }
    if Acyclic(WithSpreads(nodes, pending)) {
      forall n, k | n in pending && k in pending[n]
        ensures !Reaches(WithSpreads(nodes, pending), k, n)
      {
        SpreadKids(nodes, pending, n, k);
        AcyclicNoCycle(WithSpreads(nodes, pending), n, k);
      }
    }
  }

  // ----- attaching and splicing -----

  /** The node, a field or an edge, holds the shared composite from now on. */
  function Attached(s: Shape, c: Node): Shape
    requires s.FieldNode? || s.EdgeNode?
  {
    if s.FieldNode? then s.(composite := Some(c)) else s.(map_ := Some(c))
  }

  /** Attaching a composite keeps the graph acyclic exactly when the composite does not reach the node. */
  lemma AttachIffNotReached(nodes: Nodes, n: Node, c: Node)
    requires Acyclic(nodes) && n in nodes && c in nodes && (nodes[n].FieldNode? || nodes[n].EdgeNode?)
    ensures Acyclic(nodes[n := Attached(nodes[n], c)]) <==> !Reaches(nodes, c, n)
  {
    hide Acyclic;
    var nodes' := nodes[n := Attached(nodes[n], c)];
    assert Kids(nodes'[n]) == [c];
    ReachesSelf(nodes, c);
    if Reaches(nodes, c, n) {
      var p :| IsPath(nodes, p) && p[0] == c && p[|p| - 1] == n;
      WaySurvives(nodes, nodes', n, p);
      if Acyclic(nodes') {
        AcyclicNoCycle(nodes', n, c);
      }
    } else {
      RelinkKeepsAcyclic(nodes, n, c, nodes');
    }
  }

  /** Array values, one of which gives way to the values of another array. */
  function Spliced(values: seq<Node>, i: nat, other: seq<Node>): seq<Node>
    requires i < |values|
  {
    values[..i] + other + values[i + 1..]
  }

  /** Splicing shares the values of the other array; the placeholder not being reached from it rules out a cycle. */
  lemma SpliceKeepsAcyclic(nodes: Nodes, a: Node, i: nat, c: Node)
    requires Acyclic(nodes) && Linked(nodes) && a in nodes && c in nodes && nodes[a].ArrayNode? && nodes[c].ArrayNode?
    requires i < |nodes[a].values| && !Reaches(nodes, c, nodes[a].values[i])
    ensures Acyclic(nodes[a := ArrayNode(Spliced(nodes[a].values, i, nodes[c].values))])
  {
    hide Acyclic, Reaches;
    var nodes' := nodes[a := ArrayNode(Spliced(nodes[a].values, i, nodes[c].values))];
    assert nodes[a].values[i] in Kids(nodes[a]);
    if Reaches(nodes, c, a) {
      ReachesKid(nodes, a, nodes[a].values[i]);
      ReachesTrans(nodes, c, a, nodes[a].values[i]);
    }
    forall k | k in Kids(nodes'[a])
      ensures k in Kids(nodes[a]) || (k in nodes && Reaches(nodes, c, k))
    {
      if k in nodes[c].values {
        assert k in Kids(nodes[c]);
        ReachesKid(nodes, c, k);
      }
    }
    RelinkKeepsAcyclic(nodes, a, c, nodes');
  }

  // ----- substitution -----

  class IR {
    var nodes: Nodes

    ghost predicate Valid()
      reads this
    {
      Linked(nodes) && Acyclic(nodes)
    }

    constructor (nodes: Nodes)
      requires Linked(nodes) && Acyclic(nodes)
      ensures Valid() && this.nodes == nodes
    {
      this.nodes := nodes;
    }

    /**
     The walk with a stack and a set of seen nodes: it ends on any finite graph, shared or cyclic, stops at some reached
     node that the visitor wants, if there is one, and otherwise visits exactly the reached nodes.
     */
    method WalkComposite(composite: Node, wanted: Node -> bool) returns (stopped: bool, visited: seq<Node>)
      requires Linked(nodes) && composite in nodes
      ensures stopped <==> exists n :: Reaches(nodes, composite, n) && wanted(n)
      ensures !stopped ==> forall n :: n in visited <==> Reaches(nodes, composite, n)
    {
      hide Kids, Reaches, Walking, Linked;
      var stack := [composite];
      var seen: set<Node> := {};
      visited := [];
      WalkStart(nodes, composite);
      while stack != []
        invariant Walking(nodes, composite, stack, seen)
        invariant forall n :: n in seen ==> !wanted(n)
        invariant forall n :: n in visited <==> n in seen
        decreases nodes.Keys - seen, |stack|
      {
        WalkOn(nodes, composite, stack, seen);
        var n := stack[|stack| - 1];
        stack := stack[..|stack| - 1];
        if n !in seen {
          seen := seen + {n};
          visited := visited + [n];
          if wanted(n) {
            return true, visited;
          }
          stack := stack + Kids(nodes[n]);
        }
      }
      WalkDone(nodes, composite, seen);
      stopped := false;
    }

    method CompositeContainsNode(composite: Node, target: Node) returns (found: bool)
      requires Linked(nodes) && composite in nodes
      ensures found <==> Reaches(nodes, composite, target)
    {
      hide Reaches, Linked;
      var visited;
      found, visited := WalkComposite(composite, n => n == target);
    }

    /** The placeholders below a composite. */
    method CompositeSpreadNodes(composite: Node, pending: Pending) returns (found: seq<Node>)
      requires Linked(nodes) && composite in nodes
      ensures forall n :: n in found <==> n in pending && Reaches(nodes, composite, n)
    {
      hide Reaches, Linked;
      var stopped, visited := WalkComposite(composite, n => false);
      found := [];
      for i := 0 to |visited|
        invariant forall n :: n in found <==> n in pending && n in visited[..i]
      {
        if visited[i] in pending {
          found := found + [visited[i]];
        }
      }
      assert visited[..|visited|] == visited;
    }

    /**
     Whether the composite would hold the target once every spread below it, and below what those spread, were expanded;
     nothing is changed to find out.
     */
    method SpreadCompositeReferencesNode(composite: Node, target: Node, pending: Pending) returns (found: bool)
      requires Linked(nodes) && composite in nodes && Resolved(nodes, pending) && pending.Keys <= nodes.Keys
      ensures found <==> Reaches(WithSpreads(nodes, pending), composite, target)
    {
      hide Kids, Reaches, Linked, Searching, WithSpreads;
      var stack := [composite];
      var seen: set<Node> := {};
      SearchStart(nodes, pending, composite, target);
      while stack != []
        invariant Searching(nodes, pending, composite, target, stack, seen)
        decreases nodes.Keys - seen, |stack|
      {
        SearchKnown(nodes, pending, composite, target, stack, seen);
        var current := stack[|stack| - 1];
        if current in seen {
          SearchAgain(nodes, pending, composite, target, stack, seen);
          stack := stack[..|stack| - 1];
        } else {
          var contained := CompositeContainsNode(current, target);
          if contained {
            SearchFound(nodes, pending, composite, target, stack, seen);
            return true;
          }
          var candidates := CompositeSpreadNodes(current, pending);
          var more := Targets(candidates, pending);
          SearchOn(nodes, pending, composite, target, stack, seen, more);
          stack := stack[..|stack| - 1] + more;
          seen := seen + {current};
        }
      }
      SearchDone(nodes, pending, composite, target, seen);
      found := false;
    }

    /** What the placeholders stand for, in order. */
    method Targets(candidates: seq<Node>, pending: Pending) returns (more: seq<Node>)
      requires forall n :: n in candidates ==> n in pending
      ensures forall k :: k in more <==> exists n :: n in candidates && k in pending[n]
    {
      more := [];
      for i := 0 to |candidates|
        invariant forall k :: k in more <==> exists n :: n in candidates[..i] && k in pending[n]
      {
        assert candidates[..i + 1] == candidates[..i] + [candidates[i]];
        more := more + pending[candidates[i]];
      }
      assert candidates[..|candidates|] == candidates;
    }

    /**
     A substitution gives a field or an edge the resolved composite, an edge only a map, unless that would make a cycle.
     */
    method AttachComposite(n: Node, c: Node) returns (ok: bool)
      requires Valid() && n in nodes && c in nodes && (nodes[n].FieldNode? || nodes[n].EdgeNode?)
      modifies this
      ensures Valid()
      ensures ok <==>
              (old(nodes)[n].EdgeNode? ==> old(nodes)[c].MapNode?) &&
              Acyclic(old(nodes)[n := Attached(old(nodes)[n], c)])
      ensures nodes == if ok then old(nodes)[n := Attached(old(nodes)[n], c)] else old(nodes)
    {
      hide Reaches, Acyclic;
      var contained := CompositeContainsNode(c, n);
      AttachIffNotReached(nodes, n, c);
      ok := !contained && (nodes[n].FieldNode? || nodes[c].MapNode?);
      if ok {
        nodes := nodes[n := Attached(nodes[n], c)];
      }
    }

    /** An array value that stands for a spread gives way to the values of the resolved array. */
    method SpreadArray(a: Node, placeholder: Node, c: Node, pending: Pending) returns (ok: bool)
      requires Valid() && a in nodes && nodes[a].ArrayNode? && placeholder in nodes[a].values
      requires c in nodes && nodes[c].ArrayNode? && Resolved(nodes, pending) && pending.Keys <= nodes.Keys
      modifies this
      ensures Valid()
      ensures ok <==> !Reaches(WithSpreads(old(nodes), pending), c, placeholder)
      ensures !ok ==> nodes == old(nodes)
      ensures ok ==> exists i :: 0 <= i < |old(nodes)[a].values| && old(nodes)[a].values[i] == placeholder
                                 && nodes == old(nodes)[a :=
                                                        ArrayNode(Spliced(old(nodes)[a].values, i,
                                                                          old(nodes)[c].values))]
    {
      hide Reaches, Acyclic, WithSpreads;
      var contained := CompositeContainsNode(c, placeholder);
      if contained {
        SpreadsReachMore(nodes, pending, c, placeholder);
        return false;
      }
      var referenced := SpreadCompositeReferencesNode(c, placeholder, pending);
      if referenced {
        return false;
      }
      var values := nodes[a].values;
      var i := 0;
      while values[i] != placeholder
        invariant 0 <= i < |values| && placeholder in values[i..]
        invariant nodes == old(nodes)
        decreases |values| - i
      {
        i := i + 1;
      }
      SpliceKeepsAcyclic(nodes, a, i, c);
      SpliceLinked(nodes, a, i, c);
      nodes := nodes[a := ArrayNode(Spliced(values, i, nodes[c].values))];
      ok := true;
    }
  }

  lemma SpliceLinked(nodes: Nodes, a: Node, i: nat, c: Node)
    requires Linked(nodes) && a in nodes && c in nodes && nodes[a].ArrayNode? && nodes[c].ArrayNode?
    requires i < |nodes[a].values|
    ensures Linked(nodes[a := ArrayNode(Spliced(nodes[a].values, i, nodes[c].values))])
  {
    forall k | k in Spliced(nodes[a].values, i, nodes[c].values)
      ensures k in nodes
    {
      assert k in nodes[a].values || k in nodes[c].values;
      assert k in Kids(nodes[a]) || k in Kids(nodes[c]);
    }
  }
}

/** Copies that substitution causes are paid for from a budget before they are made. */
module IRExpansion {
  import opened Options
  import opened IRGraph

  const MAX := 0x7fff_ffff_ffff_ffff

  // ----- units -----

  /** Adding counts stops at the largest 64-bit number. */
  function Add(total: nat, count: nat): (r: nat)
    requires total <= MAX
    ensures r == if total + count < MAX then total + count else MAX
  {
    if count == 0 then total
    else if count > MAX - total then MAX
    else total + count
  }

  function AddAll(total: nat, counts: seq<nat>): (r: nat)
    requires total <= MAX
    ensures r <= MAX
    decreases |counts|
  {
    if counts == [] then total else AddAll(Add(total, counts[0]), counts[1..])
  }

  function Sum(counts: seq<nat>): nat {
    if counts == [] then 0 else counts[0] + Sum(counts[1..])
  }

  lemma {:induction false} AddAllIsSum(total: nat, counts: seq<nat>)
    requires total <= MAX
    ensures AddAll(total, counts) == if total + Sum(counts) < MAX then total + Sum(counts) else MAX
    decreases |counts|
  {
    if counts != [] {
      AddAllIsSum(Add(total, counts[0]), counts[1..]);
    }
  }

  function ValueUnits(v: Value): nat {
    if v.Shared? then v.units else 0
  }

  /** What one node is worth: itself, its lists' elements, its names and its value. */
  function Counts(s: Shape): seq<nat> {
    match s
    case MapNode(fields, edges) => [|fields|, |edges|]
    case FieldNode(nameUnits, references, _, _) => [references, nameUnits]
    case EdgeNode(pathUnits, references, _, _) => [references, |pathUnits|] + pathUnits
    case ScalarNode(value) => [ValueUnits(value)]
    case ArrayNode(values) => [|values|]
  }

  function TrueUnits(s: Shape): nat {
    1 + Sum(Counts(s))
  }

  function NodeUnits(s: Shape): (r: nat)
    ensures 1 <= r <= MAX
  {
    AddAllIsSum(1, Counts(s));
    AddAll(1, Counts(s))
  }

  /** Saturation is all that may be lost. */
  lemma UnitsSaturate(s: Shape)
    ensures NodeUnits(s) == if TrueUnits(s) < MAX then TrueUnits(s) else MAX
  {
    AddAllIsSum(1, Counts(s));
  }

  // ----- the budget -----

  class Budget {
    const limit: nat
    var used: nat

    predicate Valid()
      reads this
    {
      used <= limit <= MAX
    }

    /** Zero stands for the default limit. */
    constructor (limit: nat)
      requires limit <= MAX
      ensures Valid() && used == 0 && this.limit == if limit == 0 then 65536 else limit
    {
      this.limit := if limit == 0 then 65536 else limit;
      used := 0;
    }

    method Reserve(units: nat) returns (ok: bool)
      requires Valid()
      modifies this
      ensures Valid()
      ensures ok == (old(used) + units <= limit)
      ensures used == old(used) + if ok then units else 0
    {
      if units > limit - used {
        return false;
      }
      used := used + units;
      ok := true;
    }
  }

  /**
   A saturated charge falls short of the true units exactly when it can be paid at all: by an untouched largest budget.
   */
  lemma UnderchargedOnlyAtMax(s: Shape, limit: nat, used: nat)
    requires used <= limit <= MAX
    ensures used + NodeUnits(s) <= limit && NodeUnits(s) < TrueUnits(s) <==>
            limit == MAX && used == 0 && TrueUnits(s) > MAX
  {
    UnitsSaturate(s);
  }

  // ----- logical occurrences -----

  /** All that a node holds, in the order of the walk. */
  function Holds(s: Shape): seq<Node> {
    match s
    case MapNode(fields, edges) => fields + edges
    case FieldNode(_, _, primary, composite) => Opt(primary) + Opt(composite)
    case EdgeNode(_, _, primary, map_) => Opt(primary) + Opt(map_)
    case ArrayNode(values) => values
    case ScalarNode(_) => []
  }

  /** Nothing that a node points to is left out, and nothing else comes in. */
  lemma HoldsEverything(s: Shape, k: Node)
    ensures k in Holds(s) <==>
              || (s.MapNode? && (k in s.fields || k in s.edges))
              || (s.FieldNode? && (s.primary == Some(k) || s.composite == Some(k)))
              || (s.EdgeNode? && (s.primary == Some(k) || s.map_ == Some(k)))
              || (s.ArrayNode? && k in s.values)
    ensures s.MapNode? ==> |Holds(s)| == |s.fields| + |s.edges|
    ensures s.ArrayNode? ==> |Holds(s)| == |s.values|
  {
    if s.FieldNode? && s.primary.Some? {
      assert Holds(s)[0] == s.primary.value;
    }
    if s.EdgeNode? && s.primary.Some? {
      assert Holds(s)[0] == s.primary.value;
    }
  }

  predicate WellRanked(nodes: Nodes, rank: map<Node, nat>) {
    && nodes.Keys <= rank.Keys
    && forall n, k :: n in nodes && k in Holds(nodes[n]) ==> k in nodes && rank[k] < rank[n]
  }

  /** The tree one gets by giving every occurrence its own node. */
  datatype Tree = Tree(shape: Shape, kids: seq<Tree>)

  /** A shape without the identities of what it holds. */
  function Blank(s: Shape): Shape {
    match s
    case MapNode(fields, edges) => MapNode(seq(|fields|, i => 0), seq(|edges|, i => 0))
    case FieldNode(nameUnits, references, primary, composite) =>
      FieldNode(nameUnits, references, if primary.Some? then Some(0) else None, if composite.Some? then Some(0)
                else None)
    case EdgeNode(pathUnits, references, primary, map_) =>
      EdgeNode(pathUnits, references, if primary.Some? then Some(0) else None, if map_.Some? then Some(0) else None)
    case ArrayNode(values) => ArrayNode(seq(|values|, i => 0))
    case ScalarNode(value) => s
  }

  ghost function Unfold(nodes: Nodes, rank: map<Node, nat>, n: Node): Tree
    requires WellRanked(nodes, rank) && n in nodes
    decreases rank[n], 1
  {
    Tree(Blank(nodes[n]), UnfoldAll(nodes, rank, Holds(nodes[n]), rank[n]))
  }

  ghost function UnfoldAll(nodes: Nodes, rank: map<Node, nat>, ns: seq<Node>, below: nat): (r: seq<Tree>)
    requires WellRanked(nodes, rank)
    requires forall n :: n in ns ==> n in nodes && rank[n] < below
    ensures |r| == |ns|
    decreases below, 0, |ns|
  {
    if ns == [] then [] else [Unfold(nodes, rank, ns[0])] + UnfoldAll(nodes, rank, ns[1..], below)
  }

  /** What it costs to make a tree, and how many nodes it has. */
  function Cost(t: Tree): nat {
    NodeUnits(t.shape) + Costs(t.kids)
  }

  function Costs(ts: seq<Tree>): nat {
    if ts == [] then 0 else Cost(ts[0]) + Costs(ts[1..])
  }

  function Size(t: Tree): nat {
    1 + Sizes(t.kids)
  }

  function Sizes(ts: seq<Tree>): nat {
    if ts == [] then 0 else Size(ts[0]) + Sizes(ts[1..])
  }

  lemma {:induction false} SizeWithinCost(t: Tree)
    ensures Size(t) <= Cost(t)
    decreases t, 1
  {
    hide NodeUnits;
    SizesWithinCosts(t.kids);
  }

  lemma {:induction false} SizesWithinCosts(ts: seq<Tree>)
    ensures Sizes(ts) <= Costs(ts)
    decreases ts, 0
  {
    hide NodeUnits;
    if ts != [] {
      SizeWithinCost(ts[0]);
      SizesWithinCosts(ts[1..]);
    }
  }

  // ----- what the cost counts -----

  /** A sum over the nodes of a tree. */
  function Total(t: Tree, f: Shape -> nat): nat {
    f(t.shape) + Totals(t.kids, f)
  }

  function Totals(ts: seq<Tree>, f: Shape -> nat): nat {
    if ts == [] then 0 else Total(ts[0], f) + Totals(ts[1..], f)
  }

  /** The elements of a node's lists: a map's fields and edges, an array's values, the steps of an edge's path. */
  function ListElements(s: Shape): nat {
    if s.MapNode? then |s.fields| + |s.edges|
    else if s.ArrayNode? then |s.values|
    else if s.EdgeNode? then |s.pathUnits|
    else 0
  }

  function ReferenceCount(s: Shape): nat {
    if s.FieldNode? || s.EdgeNode? then s.references else 0
  }

  /** The text of a field's name, or of the names on an edge's path. */
  function NameText(s: Shape): nat {
    if s.FieldNode? then s.nameUnits else if s.EdgeNode? then Sum(s.pathUnits) else 0
  }

  /** The units of a value that is shared. */
  function SharedValue(s: Shape): nat {
    if s.ScalarNode? && s.value.Shared? then s.value.units else 0
  }

  /** No node is worth more than the largest number. */
  predicate Countable(t: Tree) {
    TrueUnits(t.shape) <= MAX && forall i :: 0 <= i < |t.kids| ==> Countable(t.kids[i])
  }

  lemma SumFront(x: nat, rest: seq<nat>)
    ensures Sum([x] + rest) == x + Sum(rest)
  {
    assert ([x] + rest)[1..] == rest;
  }

  lemma SumOne(x: nat)
    ensures Sum([x]) == x
  {
    assert [x][1..] == [];
  }

  lemma SumTwo(x: nat, y: nat)
    ensures Sum([x, y]) == x + y
  {
    assert [x, y][1..] == [y];
    SumOne(y);
  }

  lemma UnitsCount(s: Shape)
    ensures TrueUnits(s) == 1 + ListElements(s) + ReferenceCount(s) + NameText(s) + SharedValue(s)
  {
    hide Sum;
    match s
    case MapNode(fields, edges) => SumTwo(|fields|, |edges|);
    case FieldNode(nameUnits, references, _, _) => SumTwo(references, nameUnits);
    case EdgeNode(pathUnits, references, _, _) =>
      SumFront(references, [|pathUnits|] + pathUnits);
      SumFront(|pathUnits|, pathUnits);
      assert Counts(s) == [references] + ([|pathUnits|] + pathUnits);
    case ScalarNode(value) => SumOne(ValueUnits(value));
    case ArrayNode(values) => SumOne(|values|);
  }

  /**
   The cost of a tree counts every node, every element of its lists, every reference, every name and every shared value
   once for each time it occurs; it is less only where a single node is worth more than the largest number.
   */
  lemma {:induction false} CostCounts(t: Tree)
    ensures var all := Size(t) + Total(t, ListElements) + Total(t, ReferenceCount) + Total(t, NameText) +
                       Total(t, SharedValue);
            Cost(t) <= all && (Cost(t) == all <==> Countable(t))
    decreases t, 1
  {
    hide TrueUnits, NodeUnits, ListElements, ReferenceCount, NameText, SharedValue;
    UnitsSaturate(t.shape);
    UnitsCount(t.shape);
    CostsCount(t.kids);
  }

  lemma {:induction false} CostsCount(ts: seq<Tree>)
    ensures var all := Sizes(ts) + Totals(ts, ListElements) + Totals(ts, ReferenceCount) + Totals(ts, NameText) +
                       Totals(ts, SharedValue);
            Costs(ts) <= all && (Costs(ts) == all <==> forall i :: 0 <= i < |ts| ==> Countable(ts[i]))
    decreases ts, 0
  {
    hide Cost, Size, Total, Countable;
    if ts != [] {
      CostCounts(ts[0]);
      CostsCount(ts[1..]);
      assert forall i :: 0 < i < |ts| ==> ts[i] == ts[1..][i - 1];
    }
  }

  lemma BlankUnits(s: Shape)
    ensures NodeUnits(Blank(s)) == NodeUnits(s)
  {
    assert Counts(Blank(s)) == Counts(s);
  }

  lemma {:induction false} CostsConcat(a: seq<Tree>, b: seq<Tree>)
    ensures Costs(a + b) == Costs(a) + Costs(b)
  {
    hide Cost;
    if a == [] {
      assert a + b == b;
    } else {
      CostsConcat(a[1..], b);
      assert (a + b)[1..] == a[1..] + b;
    }
  }

  /** The stack of the walk holds occurrences still to be paid for, the next one last. */
  ghost function Owed(nodes: Nodes, rank: map<Node, nat>, stack: seq<Node>): nat
    requires WellRanked(nodes, rank) && forall n :: n in stack ==> n in nodes
  {
    if stack == [] then 0
    else Owed(nodes, rank, stack[..|stack| - 1]) + Cost(Unfold(nodes, rank, stack[|stack| - 1]))
  }

  lemma {:induction false} OwedConcat(nodes: Nodes, rank: map<Node, nat>, a: seq<Node>, b: seq<Node>)
    requires WellRanked(nodes, rank) && (forall n :: n in a ==> n in nodes) && (forall n :: n in b ==> n in nodes)
    ensures forall n :: n in a + b ==> n in nodes
    ensures Owed(nodes, rank, a + b) == Owed(nodes, rank, a) + Owed(nodes, rank, b)
  {
    hide WellRanked, Cost, Unfold;
    if b == [] {
      assert a + b == a;
    } else {
      var n := |b| - 1;
      OwedConcat(nodes, rank, a, b[..n]);
      assert (a + b)[..|a + b| - 1] == a + b[..n];
    }
  }

  lemma {:induction false} OwedReversed(nodes: Nodes, rank: map<Node, nat>, ns: seq<Node>, below: nat)
    requires WellRanked(nodes, rank) && forall n :: n in ns ==> n in nodes && rank[n] < below
    ensures forall n :: n in Reversed(ns) ==> n in nodes
    ensures Owed(nodes, rank, Reversed(ns)) == Costs(UnfoldAll(nodes, rank, ns, below))
  {
    hide WellRanked, Cost, Unfold;
    ReversedHas(ns);
    if ns != [] {
      ReversedHas(ns[1..]);
      OwedReversed(nodes, rank, ns[1..], below);
      assert Reversed(ns)[..|ns| - 1] == Reversed(ns[1..]);
    }
  }

  function Reversed(ns: seq<Node>): (r: seq<Node>)
    ensures |r| == |ns|
  {
    if ns == [] then [] else Reversed(ns[1..]) + [ns[0]]
  }

  lemma {:induction false} ReversedHas(ns: seq<Node>)
    ensures forall n :: n in Reversed(ns) <==> n in ns
  {
    if ns != [] {
      ReversedHas(ns[1..]);
    }
  }

  // ----- paying for a copy -----

  predicate Closed(nodes: Nodes) {
    forall n, k :: n in nodes && k in Holds(nodes[n]) ==> k in nodes
  }

  ghost predicate Paying(nodes: Nodes, rank: map<Node, nat>, root: Node, stack: seq<Node>, paid: nat) {
    WellRanked(nodes, rank) && root in nodes && (forall n :: n in stack ==> n in nodes) ==>
      paid + Owed(nodes, rank, stack) == Cost(Unfold(nodes, rank, root))
  }

  lemma PayNext(nodes: Nodes, rank: map<Node, nat>, root: Node, stack: seq<Node>, paid: nat)
    requires Closed(nodes) && stack != [] && (forall n :: n in stack ==> n in nodes)
    requires Paying(nodes, rank, root, stack, paid)
    ensures var n, rest := stack[|stack| - 1], stack[..|stack| - 1];
            && n in nodes && (forall x :: x in rest + Reversed(Holds(nodes[n])) ==> x in nodes)
            && Paying(nodes, rank, root, rest + Reversed(Holds(nodes[n])), paid + NodeUnits(nodes[n]))
  {
    hide NodeUnits, Holds, Cost;
    var n, rest := stack[|stack| - 1], stack[..|stack| - 1];
    assert stack == rest + [n];
    ReversedHas(Holds(nodes[n]));
    if WellRanked(nodes, rank) && root in nodes {
      OwedReversed(nodes, rank, Holds(nodes[n]), rank[n]);
      OwedConcat(nodes, rank, rest, Reversed(Holds(nodes[n])));
      CostOf(nodes, rank, n);
    }
  }

  lemma CostOf(nodes: Nodes, rank: map<Node, nat>, n: Node)
    requires WellRanked(nodes, rank) && n in nodes
    ensures Cost(Unfold(nodes, rank, n)) == NodeUnits(nodes[n]) +
            Costs(UnfoldAll(nodes, rank, Holds(nodes[n]), rank[n]))
  {
    hide NodeUnits, Holds;
    BlankUnits(nodes[n]);
  }

  lemma PayFirst(nodes: Nodes, rank: map<Node, nat>, root: Node)
    ensures Paying(nodes, rank, root, [root], 0)
  {
    hide Cost;
    if WellRanked(nodes, rank) && root in nodes {
      assert Owed(nodes, rank, []) == 0 && [root][..0] == [];
    }
  }

  lemma OwedAtLeast(nodes: Nodes, rank: map<Node, nat>, stack: seq<Node>)
    requires WellRanked(nodes, rank) && stack != [] && forall n :: n in stack ==> n in nodes
    ensures Owed(nodes, rank, stack) >= NodeUnits(nodes[stack[|stack| - 1]])
  {
    hide NodeUnits, Holds;
    CostOf(nodes, rank, stack[|stack| - 1]);
  }

  /**
   The walk that pays for every logical occurrence. It ends on any finite graph, cyclic or not, since each occurrence
   costs something; where the graph is acyclic it pays exactly for the tree, and fails exactly when the budget cannot.
   */
  method ReserveCopy(nodes: Nodes, root: Node, budget: Budget, ghost rank: map<Node, nat>) returns (ok: bool)
    requires Closed(nodes) && root in nodes && budget.Valid()
    modifies budget
    ensures budget.Valid() && budget.used >= old(budget.used)
    ensures WellRanked(nodes, rank) ==>
              (ok <==> old(budget.used) + Cost(Unfold(nodes, rank, root)) <= budget.limit)
    ensures WellRanked(nodes, rank) && ok ==> budget.used == old(budget.used) + Cost(Unfold(nodes, rank, root))
  {
    hide NodeUnits, Holds, Paying, Closed, Cost, Unfold, WellRanked;
    var stack := [root];
    ghost var start := budget.used;
    PayFirst(nodes, rank, root);
    while stack != []
      invariant budget.Valid() && start <= budget.used && forall n :: n in stack ==> n in nodes
      invariant Paying(nodes, rank, root, stack, budget.used - start)
      decreases budget.limit - budget.used
    {
      var n := stack[|stack| - 1];
      PayNext(nodes, rank, root, stack, budget.used - start);
      ghost var paid := budget.used - start;
      var paidOne := budget.Reserve(NodeUnits(nodes[n]));
      if !paidOne {
        TooDear(nodes, rank, root, stack, paid, budget.limit - start);
        return false;
      }
      stack := stack[..|stack| - 1] + Reversed(Holds(nodes[n]));
    }
    AllPaid(nodes, rank, root, budget.used - start);
    ok := true;
  }

  lemma TooDear(nodes: Nodes, rank: map<Node, nat>, root: Node, stack: seq<Node>, paid: nat, room: int)
    requires stack != [] && root in nodes && (forall n :: n in stack ==> n in nodes)
    requires Paying(nodes, rank, root, stack, paid)
    requires paid + NodeUnits(nodes[stack[|stack| - 1]]) > room
    ensures WellRanked(nodes, rank) ==> Cost(Unfold(nodes, rank, root)) > room
  {
    hide NodeUnits, Holds, Cost;
    if WellRanked(nodes, rank) {
      OwedAtLeast(nodes, rank, stack);
    }
  }

  lemma AllPaid(nodes: Nodes, rank: map<Node, nat>, root: Node, paid: nat)
    requires root in nodes && Paying(nodes, rank, root, [], paid)
    ensures WellRanked(nodes, rank) ==> Cost(Unfold(nodes, rank, root)) == paid
  {
  }

  predicate PrimariesAreScalars(nodes: Nodes) {
    forall n :: n in nodes ==>
      (nodes[n].FieldNode? && nodes[n].primary.Some? ==> IsScalar(nodes, nodes[n].primary.value)) &&
      (nodes[n].EdgeNode? && nodes[n].primary.Some? ==> IsScalar(nodes, nodes[n].primary.value))
  }

  predicate IsScalar(nodes: Nodes, n: Node) {
    n in nodes && nodes[n].ScalarNode?
  }

  lemma HeldOrScalar(nodes: Nodes, n: Node, k: Node)
    requires PrimariesAreScalars(nodes) && n in nodes && k in Holds(nodes[n])
    ensures k in Kids(nodes[n]) || (IsScalar(nodes, k) && !nodes[n].ScalarNode?)
  {
  }

  lemma KidFalls(nodes: Nodes, rank: map<Node, nat>, n: Node, k: Node)
    requires Linked(nodes) && Ranked(nodes, rank) && n in nodes && k in Kids(nodes[n])
    ensures k in nodes && k in rank && n in rank && rank[k] < rank[n] && !nodes[n].ScalarNode?
  {
  }

  /** The graphs substitution keeps acyclic are those on which copies have a cost. */
  lemma AcyclicHasCosts(nodes: Nodes)
    requires Linked(nodes) && Acyclic(nodes) && PrimariesAreScalars(nodes)
    ensures exists rank :: WellRanked(nodes, rank)
  {
    hide Holds, Kids, Linked, PrimariesAreScalars, Ranked;
    var rank :| Ranked(nodes, rank);
    RankKnown(nodes, rank);
    var rank' := map n | n in nodes :: if nodes[n].ScalarNode? then 0 else rank[n] + 1;
    forall n, k | n in nodes && k in Holds(nodes[n])
      ensures k in nodes && rank'[k] < rank'[n]
    {
      HeldOrScalar(nodes, n, k);
      if k in Kids(nodes[n]) {
        KidFalls(nodes, rank, n, k);
      }
    }
    assert WellRanked(nodes, rank');
  }

  lemma RankKnown(nodes: Nodes, rank: map<Node, nat>)
    requires Ranked(nodes, rank)
    ensures forall n :: n in nodes ==> n in rank
  {
  }
}

/** Copies give every logical occurrence a node of its own; paid for in advance, they never outgrow the budget. */
module IRCopy {
  import opened Options
  import opened IRGraph
  import opened IRExpansion

  lemma OptsKept(a: Option<Node>, b: Option<Node>, ns: seq<Node>)
    requires |ns| == |Opt(a) + Opt(b)|
    ensures Opt(if a.Some? then Some(ns[0]) else None) + Opt(if b.Some? then Some(ns[|ns| - 1]) else None) == ns
  {
  }

  /** The shape with other nodes in the places of those it holds. */
  function WithHolds(s: Shape, ns: seq<Node>): (r: Shape)
    requires |ns| == |Holds(s)|
    ensures Holds(r) == ns && Blank(r) == Blank(s)
  {
    match s
    case MapNode(fields, edges) => MapNode(ns[..|fields|], ns[|fields|..])
    case FieldNode(nameUnits, references, primary, composite) =>
      OptsKept(primary, composite, ns);
      FieldNode(nameUnits, references,
                if primary.Some? then Some(ns[0]) else None,
                if composite.Some? then Some(ns[|ns| - 1]) else None)
    case EdgeNode(pathUnits, references, primary, map_) =>
      OptsKept(primary, map_, ns);
      EdgeNode(pathUnits, references,
               if primary.Some? then Some(ns[0]) else None,
               if map_.Some? then Some(ns[|ns| - 1]) else None)
    case ArrayNode(values) => ArrayNode(ns)
    case ScalarNode(_) => s
  }

  predicate Extends(nodes: Nodes, nodes': Nodes) {
    forall n :: n in nodes ==> n in nodes' && nodes'[n] == nodes[n]
  }

  predicate RankExtends(rank: map<Node, nat>, rank': map<Node, nat>) {
    forall n :: n in rank ==> n in rank' && rank'[n] == rank[n]
  }

  /** New nodes elsewhere do not change what an old one unfolds to. */
  lemma {:induction false} UnfoldKept(nodes: Nodes, rank: map<Node, nat>, nodes': Nodes, rank': map<Node, nat>, n: Node)
    requires WellRanked(nodes, rank) && WellRanked(nodes', rank') && Extends(nodes, nodes') && RankExtends(rank, rank')
    requires n in nodes
    ensures n in nodes' && Unfold(nodes', rank', n) == Unfold(nodes, rank, n)
    decreases rank[n], 1
  {
    UnfoldAllKept(nodes, rank, nodes', rank', Holds(nodes[n]), rank[n]);
  }

  lemma {:induction false} UnfoldAllKept(nodes: Nodes, rank: map<Node, nat>, nodes': Nodes, rank': map<Node, nat>,
                                         ns: seq<Node>, below: nat)
    requires WellRanked(nodes, rank) && WellRanked(nodes', rank') && Extends(nodes, nodes') && RankExtends(rank, rank')
    requires forall n :: n in ns ==> n in nodes && rank[n] < below
    ensures forall n :: n in ns ==> n in nodes' && rank'[n] < below
    ensures UnfoldAll(nodes', rank', ns, below) == UnfoldAll(nodes, rank, ns, below)
    decreases below, 0, |ns|
  {
    hide WellRanked, Extends, RankExtends, Unfold;
    KeptEverywhere(nodes, rank, nodes', rank', ns, below);
    if ns != [] {
      UnfoldKept(nodes, rank, nodes', rank', ns[0]);
      UnfoldAllKept(nodes, rank, nodes', rank', ns[1..], below);
    }
  }

  lemma KeptEverywhere(nodes: Nodes, rank: map<Node, nat>, nodes': Nodes, rank': map<Node, nat>, ns: seq<Node>,
                       below: nat)
    requires WellRanked(nodes, rank) && Extends(nodes, nodes') && RankExtends(rank, rank')
    requires forall n :: n in ns ==> n in nodes && rank[n] < below
    ensures forall n :: n in ns ==> n in nodes' && n in rank' && rank'[n] < below
  {
  }

  lemma {:induction false} UnfoldAllAppend(nodes: Nodes, rank: map<Node, nat>, ns: seq<Node>, n: Node, below: nat)
    requires WellRanked(nodes, rank) && (forall x :: x in ns ==> x in nodes && rank[x] < below) && n in nodes
    requires rank[n] < below
    ensures forall x :: x in ns + [n] ==> x in nodes && rank[x] < below
    ensures UnfoldAll(nodes, rank, ns + [n], below) == UnfoldAll(nodes, rank, ns, below) + [Unfold(nodes, rank, n)]
    decreases |ns|
  {
    hide WellRanked, Unfold;
    if ns == [] {
      assert [] + [n] == [n] && [n][1..] == [];
    } else {
      UnfoldAllAppend(nodes, rank, ns[1..], n, below);
      assert (ns + [n])[1..] == ns[1..] + [n];
    }
  }

  lemma {:induction false} SizesAppend(ts: seq<Tree>, t: Tree)
    ensures Sizes(ts + [t]) == Sizes(ts) + Size(t)
  {
    hide Size;
    if ts == [] {
      assert [] + [t] == [t] && [t][1..] == [];
    } else {
      SizesAppend(ts[1..], t);
      assert (ts + [t])[1..] == ts[1..] + [t];
    }
  }

  /** The nodes of a compilation; `rank` witnesses that they form no cycle. */
  class Store {
    var nodes: Nodes
    var next: Node
    ghost var rank: map<Node, nat>

    ghost predicate Valid()
      reads this
    {
      && WellRanked(nodes, rank) && rank.Keys == nodes.Keys
      && forall n :: n in nodes ==> n < next
    }

    constructor (nodes: Nodes, next: Node, ghost rank: map<Node, nat>)
      requires WellRanked(nodes, rank) && rank.Keys == nodes.Keys && forall n :: n in nodes ==> n < next
      ensures Valid() && this.nodes == nodes && this.next == next && this.rank == rank
    {
      this.nodes, this.next, this.rank := nodes, next, rank;
    }

    /**
     A copy unfolds to the same tree, is made of new nodes only, one for each logical occurrence, and leaves every old
     node as it was.
     */
    method Copy(n: Node) returns (c: Node)
      requires Valid() && n in nodes
      modifies this
      ensures Valid() && Grown(old(nodes), old(rank), old(next), nodes, rank, next)
      ensures c in nodes && c !in old(nodes) && rank[c] == old(rank)[n]
      ensures Unfold(nodes, rank, c) == Unfold(old(nodes), old(rank), n)
      ensures next == old(next) + Size(Unfold(old(nodes), old(rank), n))
      decreases rank[n], 1, 0
    {
      hide Holds, Blank, WithHolds, Unfold, UnfoldAll, Grown, WellRanked, Size, Sizes;
      ghost var nodes0, rank0, next0 := nodes, rank, next;
      var shape := nodes[n];
      ghost var below := rank[n];
      HoldsRanked(nodes, rank, n);
      var kids := CopyAll(Holds(shape), below);
      ghost var nodes1, rank1 := nodes, rank;
      c := next;
      next := next + 1;
      nodes := nodes[c := WithHolds(shape, kids)];
      rank := rank[c := below];
      CopyMade(nodes0, rank0, next0, nodes1, rank1, n, c, kids);
    }

    method CopyAll(ns: seq<Node>, ghost below: nat) returns (cs: seq<Node>)
      requires Valid() && forall n :: n in ns ==> n in nodes && rank[n] < below
      modifies this
      ensures Valid() && Grown(old(nodes), old(rank), old(next), nodes, rank, next)
      ensures |cs| == |ns| && forall c :: c in cs ==> c in nodes && rank[c] < below
      ensures UnfoldAll(nodes, rank, cs, below) == UnfoldAll(old(nodes), old(rank), ns, below)
      ensures next == old(next) + Sizes(UnfoldAll(old(nodes), old(rank), ns, below))
      decreases below, 0, |ns|
    {
      hide Holds, Blank, Unfold, UnfoldAll, Grown, WellRanked, Size, Sizes;
      ghost var nodes0, rank0, next0 := nodes, rank, next;
      GrownSelf(nodes, rank, next);
      UnfoldNone(nodes, rank, below);
      cs := [];
      var i := 0;
      assert ns[..0] == [];
      while i < |ns|
        invariant i <= |ns| == |ns| && |cs| == i && Valid() && Grown(nodes0, rank0, next0, nodes, rank, next)
        invariant forall c :: c in cs ==> c in nodes && rank[c] < below
        invariant UnfoldAll(nodes, rank, cs, below) == UnfoldAll(nodes0, rank0, ns[..i], below)
        invariant next == next0 + Sizes(UnfoldAll(nodes0, rank0, ns[..i], below))
      {
        ghost var nodes1, rank1, next1 := nodes, rank, next;
        assert ns[i] in ns;
        OldKept(nodes0, rank0, next0, nodes, rank, next, ns[i]);
        var c := Copy(ns[i]);
        GrownTrans(nodes0, rank0, next0, nodes1, rank1, next1, nodes, rank, next);
        AllKept(nodes1, rank1, next1, nodes, rank, next, cs, below);
        UnfoldAllAppend(nodes, rank, cs, c, below);
        UnfoldAllAppend(nodes0, rank0, ns[..i], ns[i], below);
        SizesAppend(UnfoldAll(nodes0, rank0, ns[..i], below), Unfold(nodes0, rank0, ns[i]));
        assert ns[..i + 1] == ns[..i] + [ns[i]];
        cs := cs + [c];
        i := i + 1;
      }
      assert ns[..i] == ns;
    }
  }

  /** The old nodes are as they were, and exactly the numbers handed out since are new. */
  ghost predicate Grown(nodes: Nodes, rank: map<Node, nat>, next: Node, nodes': Nodes, rank': map<Node, nat>,
                        next': Node) {
    && Extends(nodes, nodes') && RankExtends(rank, rank') && next <= next'
    && forall x :: x in nodes' <==> x in nodes || next <= x < next'
  }

  lemma GrownSelf(nodes: Nodes, rank: map<Node, nat>, next: Node)
    ensures Grown(nodes, rank, next, nodes, rank, next)
  {
  }

  lemma GrownTrans(nodes: Nodes, rank: map<Node, nat>, next: Node, nodes1: Nodes, rank1: map<Node, nat>, next1: Node,
                   nodes2: Nodes, rank2: map<Node, nat>, next2: Node)
    requires Grown(nodes, rank, next, nodes1, rank1, next1) && Grown(nodes1, rank1, next1, nodes2, rank2, next2)
    ensures Grown(nodes, rank, next, nodes2, rank2, next2)
  {
  }

  lemma HoldsRanked(nodes: Nodes, rank: map<Node, nat>, n: Node)
    requires WellRanked(nodes, rank) && n in nodes
    ensures forall k :: k in Holds(nodes[n]) ==> k in nodes && rank[k] < rank[n]
  {
  }

  lemma UnfoldNone(nodes: Nodes, rank: map<Node, nat>, below: nat)
    requires WellRanked(nodes, rank)
    ensures UnfoldAll(nodes, rank, [], below) == [] && Sizes([]) == 0
  {
  }

  lemma OldKept(nodes: Nodes, rank: map<Node, nat>, next: Node, nodes': Nodes, rank': map<Node, nat>, next': Node,
                n: Node)
    requires WellRanked(nodes, rank) && WellRanked(nodes', rank') && Grown(nodes, rank, next, nodes', rank', next')
    requires n in nodes
    ensures n in nodes' && rank'[n] == rank[n] && Unfold(nodes', rank', n) == Unfold(nodes, rank, n)
  {
    UnfoldKept(nodes, rank, nodes', rank', n);
  }

  lemma AllKept(nodes: Nodes, rank: map<Node, nat>, next: Node, nodes': Nodes, rank': map<Node, nat>, next': Node,
                ns: seq<Node>, below: nat)
    requires WellRanked(nodes, rank) && WellRanked(nodes', rank') && Grown(nodes, rank, next, nodes', rank', next')
    requires forall n :: n in ns ==> n in nodes && rank[n] < below
    ensures forall n :: n in ns ==> n in nodes' && rank'[n] < below
    ensures UnfoldAll(nodes', rank', ns, below) == UnfoldAll(nodes, rank, ns, below)
  {
    hide WellRanked;
    UnfoldAllKept(nodes, rank, nodes', rank', ns, below);
  }

  /** Putting the copied node in place. */
  lemma CopyMade(nodes0: Nodes, rank0: map<Node, nat>, next0: Node, nodes1: Nodes, rank1: map<Node, nat>, n: Node,
                 c: Node, kids: seq<Node>)
    requires WellRanked(nodes0, rank0) && WellRanked(nodes1, rank1) && rank0.Keys == nodes0.Keys
    requires rank1.Keys == nodes1.Keys
    requires Grown(nodes0, rank0, next0, nodes1, rank1, c) && n in nodes0 && (forall x :: x in nodes1 ==> x < c)
    requires forall x :: x in nodes0 ==> x < next0
    requires |kids| == |Holds(nodes0[n])| && forall k :: k in kids ==> k in nodes1 && rank1[k] < rank0[n]
    requires forall k :: k in Holds(nodes0[n]) ==> k in nodes0 && rank0[k] < rank0[n]
    requires UnfoldAll(nodes1, rank1, kids, rank0[n]) == UnfoldAll(nodes0, rank0, Holds(nodes0[n]), rank0[n])
    ensures var nodes2, rank2 := nodes1[c := WithHolds(nodes0[n], kids)], rank1[c := rank0[n]];
            && WellRanked(nodes2, rank2) && rank2.Keys == nodes2.Keys && (forall x :: x in nodes2 ==> x < c + 1)
            && Grown(nodes0, rank0, next0, nodes2, rank2, c + 1) && c !in nodes0
            && Unfold(nodes2, rank2, c) == Unfold(nodes0, rank0, n)
            && Size(Unfold(nodes0, rank0, n)) == 1 + Sizes(UnfoldAll(nodes0, rank0, Holds(nodes0[n]), rank0[n]))
  {
    hide Blank, WithHolds, Unfold, UnfoldAll, Holds, WellRanked, Grown, Size, Sizes, Extends, RankExtends;
    var s := WithHolds(nodes0[n], kids);
    AddedRanked(nodes1, rank1, c, s, rank0[n]);
    AddedGrown(nodes0, rank0, next0, nodes1, rank1, c, s, rank0[n]);
    AddedUnfolds(nodes1, rank1, c, s, rank0[n]);
    UnfoldIs(nodes0, rank0, n);
    UnfoldIs(nodes1[c := s], rank1[c := rank0[n]], c);
  }

  lemma AddedRanked(nodes: Nodes, rank: map<Node, nat>, c: Node, s: Shape, r: nat)
    requires WellRanked(nodes, rank) && rank.Keys == nodes.Keys && c !in nodes
    requires forall k :: k in Holds(s) ==> k in nodes && rank[k] < r
    ensures WellRanked(nodes[c := s], rank[c := r]) && rank[c := r].Keys == nodes[c := s].Keys
  {
    hide Holds;
  }

  lemma AddedGrown(nodes0: Nodes, rank0: map<Node, nat>, next0: Node, nodes: Nodes, rank: map<Node, nat>, c: Node,
                   s: Shape, r: nat)
    requires Grown(nodes0, rank0, next0, nodes, rank, c) && (forall x :: x in nodes0 ==> x < next0)
    requires rank0.Keys == nodes0.Keys
    ensures Grown(nodes0, rank0, next0, nodes[c := s], rank[c := r], c + 1) && c !in nodes0
  {
  }

  lemma AddedUnfolds(nodes: Nodes, rank: map<Node, nat>, c: Node, s: Shape, r: nat)
    requires WellRanked(nodes, rank) && rank.Keys == nodes.Keys && c !in nodes
    requires forall k :: k in Holds(s) ==> k in nodes && rank[k] < r
    requires WellRanked(nodes[c := s], rank[c := r])
    ensures forall k :: k in Holds(s) ==> k in nodes[c := s] && rank[c := r][k] < r
    ensures UnfoldAll(nodes[c := s], rank[c := r], Holds(s), r) == UnfoldAll(nodes, rank, Holds(s), r)
  {
    hide Holds, WellRanked, UnfoldAll;
    UnfoldAllKept(nodes, rank, nodes[c := s], rank[c := r], Holds(s), r);
  }

  lemma UnfoldIs(nodes: Nodes, rank: map<Node, nat>, n: Node)
    requires WellRanked(nodes, rank) && n in nodes
    ensures forall k :: k in Holds(nodes[n]) ==> k in nodes && rank[k] < rank[n]
    ensures Unfold(nodes, rank, n) == Tree(Blank(nodes[n]), UnfoldAll(nodes, rank, Holds(nodes[n]), rank[n]))
    ensures Size(Unfold(nodes, rank, n)) == 1 + Sizes(UnfoldAll(nodes, rank, Holds(nodes[n]), rank[n]))
  {
    hide Blank, Holds;
  }

  /**
   A copy is paid for first and made only if it could be. Over any run of such steps the nodes made by copying stay
   within what was paid, and that within the limit.
   */
  method ReserveThenCopy(store: Store, budget: Budget, n: Node, ghost made: nat)
        returns (ok: bool, c: Node, ghost made': nat)
    requires store.Valid() && budget.Valid() && n in store.nodes && made <= budget.used
    modifies store, budget
    ensures store.Valid() && budget.Valid()
    ensures ok <==> old(budget.used) + Cost(Unfold(old(store.nodes), old(store.rank), n)) <= budget.limit
    ensures made' == made + (store.next - old(store.next))
    ensures made' <= budget.used <= budget.limit
    ensures !ok ==> store.nodes == old(store.nodes)
    ensures ok ==>
            c in store.nodes && Unfold(store.nodes, store.rank, c) ==
            Unfold(old(store.nodes), old(store.rank), n)
    ensures Grown(old(store.nodes), old(store.rank), old(store.next), store.nodes, store.rank, store.next)
  {
    hide Unfold, Cost, Size, WellRanked, Grown, Holds;
    GrownSelf(store.nodes, store.rank, store.next);
    RankedIsClosed(store.nodes, store.rank);
    ok := ReserveCopy(store.nodes, n, budget, store.rank);
    c, made' := n, made;
    if ok {
      SizeWithinCost(Unfold(store.nodes, store.rank, n));
      c := store.Copy(n);
      made' := made + (store.next - old(store.next));
    }
  }

  /**
   Any run of such steps, copies of copies included, under one budget: the nodes made never exceed the limit, and no
   node that was there changes. A number that names no node yet is passed over.
   */
  method CopyInTurn(store: Store, budget: Budget, ns: seq<Node>)
    requires store.Valid() && budget.Valid() && budget.used == 0
    modifies store, budget
    ensures store.Valid() && budget.Valid()
    ensures Grown(old(store.nodes), old(store.rank), old(store.next), store.nodes, store.rank, store.next)
    ensures store.next - old(store.next) <= budget.used <= budget.limit
  {
    hide Unfold, Cost, Size, WellRanked, Grown, Holds;
    GrownSelf(store.nodes, store.rank, store.next);
    ghost var made: nat := 0;
    for i := 0 to |ns|
      invariant store.Valid() && budget.Valid() && made <= budget.used
      invariant store.next == old(store.next) + made
      invariant Grown(old(store.nodes), old(store.rank), old(store.next), store.nodes, store.rank, store.next)
    {
      if ns[i] in store.nodes {
        ghost var nodes, rank, next := store.nodes, store.rank, store.next;
        var ok, c;
        ok, c, made := ReserveThenCopy(store, budget, ns[i], made);
        GrownTrans(old(store.nodes), old(store.rank), old(store.next), nodes, rank, next, store.nodes, store.rank,
                   store.next);
      }
    }
  }

  lemma RankedIsClosed(nodes: Nodes, rank: map<Node, nat>)
    requires WellRanked(nodes, rank)
    ensures Closed(nodes)
  {
  }
}

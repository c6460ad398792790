/**
 Before graph objects are made, every repeated occurrence of a shared node is paid for, and every scalar that shares its
 value with an earlier one.
 */
module IRAliases {
  import opened IRGraph
  import opened IRExpansion

  ghost function SumSet<T(!new)>(s: set<T>, f: T -> nat): nat
    decreases |s|
  {
    if s == {} then 0
    else
      var x :| x in s;
      f(x) + SumSet(s - {x}, f)
  }

  lemma {:induction false} SumSetPick<T(!new)>(s: set<T>, x: T, f: T -> nat)
    requires x in s
    ensures SumSet(s, f) == f(x) + SumSet(s - {x}, f)
    decreases |s|
  {
    var y :| y in s && SumSet(s, f) == f(y) + SumSet(s - {y}, f);
    if y != x {
      SumSetPick(s - {y}, x, f);
      SumSetPick(s - {x}, y, f);
      assert s - {y} - {x} == s - {x} - {y};
    }
  }

  lemma SumSetAdd<T(!new)>(s: set<T>, x: T, f: T -> nat)
    requires x !in s
    ensures SumSet(s + {x}, f) == SumSet(s, f) + f(x)
  {
    SumSetPick(s + {x}, x, f);
    assert s + {x} - {x} == s;
  }

  function UnitsIn(nodes: Nodes): Node -> nat {
    n => if n in nodes then NodeUnits(nodes[n]) else 0
  }

  function ValueUnitsIn(nodes: Nodes): Node -> nat {
    n => if n in nodes && nodes[n].ScalarNode? then ValueUnits(nodes[n].value) else 0
  }

  function ValueUnitsOf(): Value -> nat {
    v => ValueUnits(v)
  }

  predicate ClosedSet(nodes: Nodes, s: set<Node>) {
    forall n, k :: n in s && n in nodes && k in Holds(nodes[n]) ==> k in s
  }

  /** The node occurs below the root: it is in every set that holds the root and whatever its members hold. */
  ghost predicate Occurs(nodes: Nodes, root: Node, n: Node) {
    forall s: set<Node> :: ClosedSet(nodes, s) && root in s ==> n in s
  }

  predicate HasValue(nodes: Nodes, n: Node) {
    n in nodes && nodes[n].ScalarNode? && nodes[n].value.Shared?
  }

  predicate ValuesSeen(nodes: Nodes, seen: set<Node>, values: set<Value>) {
    && (forall n :: n in seen && HasValue(nodes, n) ==> nodes[n].value in values)
    && (forall v :: v in values ==> v.Shared? && exists n :: n in seen && HasValue(nodes, n) && nodes[n].value == v)
  }

  /** What has been paid, plus what is owed, against the full price less one payment for each node and value. */
  ghost predicate Balanced(nodes: Nodes, rank: map<Node, nat>, root: Node, stack: seq<Node>, seen: set<Node>,
                           values: set<Value>, paid: nat) {
    WellRanked(nodes, rank) && root in nodes && (forall n :: n in stack ==> n in nodes) ==>
      paid + Owed(nodes, rank, stack) + SumSet(seen, UnitsIn(nodes)) + SumSet(values, ValueUnitsOf()) ==
      Cost(Unfold(nodes, rank, root)) + SumSet(seen, ValueUnitsIn(nodes))
  }

  /** Everything found occurs, and what seen nodes hold has not been forgotten. */
  ghost predicate Found(nodes: Nodes, root: Node, stack: seq<Node>, seen: set<Node>) {
    && (root in seen || root in stack)
    && (forall n :: n in stack || n in seen ==> n in nodes && Occurs(nodes, root, n))
    && (forall n, k :: n in seen && k in Holds(nodes[n]) ==> k in seen || k in stack)
  }

  lemma FoundNext(nodes: Nodes, root: Node, stack: seq<Node>, seen: set<Node>)
    requires Closed(nodes) && stack != [] && Found(nodes, root, stack, seen)
    ensures var n, rest := stack[|stack| - 1], stack[..|stack| - 1];
            n in nodes && Found(nodes, root, rest + Reversed(Holds(nodes[n])), seen + {n})
  {
    hide Holds;
    var n, rest := stack[|stack| - 1], stack[..|stack| - 1];
    assert stack == rest + [n];
    ReversedHas(Holds(nodes[n]));
  }

  lemma FoundAll(nodes: Nodes, root: Node, seen: set<Node>)
    requires Found(nodes, root, [], seen)
    ensures forall n :: n in seen <==> Occurs(nodes, root, n)
  {
    assert ClosedSet(nodes, seen);
  }

  lemma OweLess(nodes: Nodes, rank: map<Node, nat>, root: Node, stack: seq<Node>)
    requires Closed(nodes) && stack != [] && forall n :: n in stack ==> n in nodes
    ensures var n, rest := stack[|stack| - 1], stack[..|stack| - 1];
            && n in nodes && (forall x :: x in rest + Reversed(Holds(nodes[n])) ==> x in nodes)
            && (WellRanked(nodes, rank) ==>
                Owed(nodes, rank, stack) == NodeUnits(nodes[n]) + Owed(nodes, rank, rest + Reversed(Holds(nodes[n]))))
  {
    hide NodeUnits, Holds, Cost;
    var n, rest := stack[|stack| - 1], stack[..|stack| - 1];
    assert stack == rest + [n];
    ReversedHas(Holds(nodes[n]));
    if WellRanked(nodes, rank) {
      OwedReversed(nodes, rank, Holds(nodes[n]), rank[n]);
      OwedConcat(nodes, rank, rest, Reversed(Holds(nodes[n])));
      CostOf(nodes, rank, n);
    }
  }

  /** A repeated occurrence is paid in full. */
  lemma RepeatPaid(nodes: Nodes, rank: map<Node, nat>, root: Node, stack: seq<Node>, seen: set<Node>,
                   values: set<Value>, paid: nat)
    requires Closed(nodes) && stack != [] && (forall n :: n in stack ==> n in nodes)
    requires Balanced(nodes, rank, root, stack, seen, values, paid)
    ensures var n, rest := stack[|stack| - 1], stack[..|stack| - 1];
            n in nodes && Balanced(nodes, rank, root, rest + Reversed(Holds(nodes[n])), seen, values,
                                   paid + NodeUnits(nodes[n]))
  {
    hide NodeUnits, Holds, Cost, WellRanked, SumSet;
    OweLess(nodes, rank, root, stack);
  }

  /** The first occurrence is free, but for a value already met on another scalar. */
  lemma FirstFree(nodes: Nodes, rank: map<Node, nat>, root: Node, stack: seq<Node>, seen: set<Node>, values: set<Value>,
                  paid: nat)
    requires Closed(nodes) && stack != [] && (forall n :: n in stack ==> n in nodes) && stack[|stack| - 1] !in seen
    requires Balanced(nodes, rank, root, stack, seen, values, paid)
    ensures var n, rest := stack[|stack| - 1], stack[..|stack| - 1];
            var rest' := rest + Reversed(Holds(nodes[n]));
            if !HasValue(nodes, n) then Balanced(nodes, rank, root, rest', seen + {n}, values, paid)
            else if nodes[n].value in values then
              Balanced(nodes, rank, root, rest', seen + {n}, values, paid + ValueUnits(nodes[n].value))
            else Balanced(nodes, rank, root, rest', seen + {n}, values + {nodes[n].value}, paid)
  {
    hide NodeUnits, Holds, Cost, WellRanked, SumSet;
    var n := stack[|stack| - 1];
    OweLess(nodes, rank, root, stack);
    SumSetAdd(seen, n, UnitsIn(nodes));
    SumSetAdd(seen, n, ValueUnitsIn(nodes));
    if HasValue(nodes, n) && nodes[n].value !in values {
      SumSetAdd(values, nodes[n].value, ValueUnitsOf());
    }
  }

  lemma BalancedStart(nodes: Nodes, rank: map<Node, nat>, root: Node)
    ensures Balanced(nodes, rank, root, [root], {}, {}, 0)
  {
    hide Cost;
    PayFirst(nodes, rank, root);
  }

  // ----- the price -----

  ghost function Occurring(nodes: Nodes, root: Node): set<Node> {
    set n | n in nodes && Occurs(nodes, root, n)
  }

  ghost function OccurringValues(nodes: Nodes, root: Node): set<Value> {
    set n | n in Occurring(nodes, root) && HasValue(nodes, n) :: nodes[n].value
  }

  /**
   The unfolded tree less one payment for every node that occurs, and, for the scalars that occur, their values less one
   payment for every value.
   */
  ghost function AliasPrice(nodes: Nodes, rank: map<Node, nat>, root: Node): int
    requires WellRanked(nodes, rank) && root in nodes
  {
    Cost(Unfold(nodes, rank, root)) - SumSet(Occurring(nodes, root), UnitsIn(nodes)) +
    SumSet(Occurring(nodes, root), ValueUnitsIn(nodes)) - SumSet(OccurringValues(nodes, root), ValueUnitsOf())
  }

  /** With nothing left on the stack, what was seen is what occurs, and the price is paid. */
  lemma PricePaid(nodes: Nodes, rank: map<Node, nat>, root: Node, seen: set<Node>, values: set<Value>, paid: nat)
    requires root in nodes && Found(nodes, root, [], seen) && ValuesSeen(nodes, seen, values)
    requires Balanced(nodes, rank, root, [], seen, values, paid)
    ensures WellRanked(nodes, rank) ==> paid == AliasPrice(nodes, rank, root)
  {
    FoundAll(nodes, root, seen);
    assert seen == Occurring(nodes, root);
    AllValues(nodes, root, seen, values);
    hide SumSet, Cost, Occurs, ValuesSeen, Found;
    Settled(nodes, rank, root, seen, values, paid);
  }

  lemma AllValues(nodes: Nodes, root: Node, seen: set<Node>, values: set<Value>)
    requires ValuesSeen(nodes, seen, values) && seen == Occurring(nodes, root)
    ensures values == OccurringValues(nodes, root)
  {
    forall v | v in values
      ensures v in OccurringValues(nodes, root)
    {
      var n :| n in seen && HasValue(nodes, n) && nodes[n].value == v;
    }
  }

  /** At every point of the walk, what was paid is no more than the price: going on only adds to it. */
  lemma {:induction false} PaidWithinPrice(nodes: Nodes, rank: map<Node, nat>, root: Node, stack: seq<Node>,
                                           seen: set<Node>, values: set<Value>, paid: nat)
    requires Closed(nodes) && WellRanked(nodes, rank) && root in nodes && (forall n :: n in stack ==> n in nodes)
    requires Found(nodes, root, stack, seen) && ValuesSeen(nodes, seen, values)
    requires Balanced(nodes, rank, root, stack, seen, values, paid)
    ensures paid <= AliasPrice(nodes, rank, root)
    decreases Owed(nodes, rank, stack)
  {
    hide NodeUnits, Holds, Balanced, Found, Closed, Cost, Unfold, SumSet, ValueUnits, Occurs, ValuesSeen, AliasPrice,
      WellRanked;
    if stack == [] {
      PricePaid(nodes, rank, root, seen, values, paid);
    } else {
      var n := stack[|stack| - 1];
      FoundNext(nodes, root, stack, seen);
      OweLess(nodes, rank, root, stack);
      var rest := stack[..|stack| - 1] + Reversed(Holds(nodes[n]));
      if n in seen {
        RepeatPaid(nodes, rank, root, stack, seen, values, paid);
        assert seen + {n} == seen;
        PaidWithinPrice(nodes, rank, root, rest, seen, values, paid + NodeUnits(nodes[n]));
      } else {
        FirstFree(nodes, rank, root, stack, seen, values, paid);
        NextValues(nodes, seen, values, n);
        var more := if HasValue(nodes, n) && nodes[n].value in values then ValueUnits(nodes[n].value) else 0;
        var values' := if HasValue(nodes, n) then values + {nodes[n].value} else values;
        PaidWithinPrice(nodes, rank, root, rest, seen + {n}, values', paid + more);
      }
    }
  }

  /**
   The walk with a set of seen nodes. On an acyclic graph it succeeds exactly when the budget covers the price, and then
   the price is what it has paid.
   */
  method ReserveAliases(nodes: Nodes, root: Node, budget: Budget, ghost rank: map<Node, nat>) returns (ok: bool)
    requires Closed(nodes) && root in nodes && budget.Valid()
    modifies budget
    ensures budget.Valid() && budget.used >= old(budget.used)
    ensures WellRanked(nodes, rank) ==> (ok <==> old(budget.used) + AliasPrice(nodes, rank, root) <= budget.limit)
    ensures WellRanked(nodes, rank) && ok ==> budget.used == old(budget.used) + AliasPrice(nodes, rank, root)
  {
    hide NodeUnits, Holds, Balanced, Found, Closed, WellRanked, SumSet, ValueUnits, ValuesSeen, AliasPrice;
    var stack := [root];
    var seen: set<Node> := {};
    var values: set<Value> := {};
    ghost var start := budget.used;
    Starting(nodes, rank, root);
    while stack != []
      invariant budget.Valid() && start <= budget.used && Found(nodes, root, stack, seen)
      invariant Balanced(nodes, rank, root, stack, seen, values, budget.used - start)
      invariant ValuesSeen(nodes, seen, values)
      decreases nodes.Keys - seen, budget.limit - budget.used
    {
      FoundKnown(nodes, root, stack, seen);
      FoundNext(nodes, root, stack, seen);
      var n := stack[|stack| - 1];
      ghost var rest, paid0 := stack[..|stack| - 1] + Reversed(Holds(nodes[n])), budget.used - start;
      FoundKnown(nodes, root, rest, seen + {n});
      if n in seen {
        assert seen + {n} == seen;
        RepeatPaid(nodes, rank, root, stack, seen, values, paid0);
        var paid := budget.Reserve(NodeUnits(nodes[n]));
        if !paid {
          if WellRanked(nodes, rank) {
            PaidWithinPrice(nodes, rank, root, rest, seen, values, paid0 + NodeUnits(nodes[n]));
          }
          return false;
        }
      } else {
        FirstFree(nodes, rank, root, stack, seen, values, paid0);
        NextValues(nodes, seen, values, n);
        seen := seen + {n};
        if HasValue(nodes, n) {
          if nodes[n].value in values {
            var paid := budget.Reserve(ValueUnits(nodes[n].value));
            if !paid {
              if WellRanked(nodes, rank) {
                PaidWithinPrice(nodes, rank, root, rest, seen, values, paid0 + ValueUnits(nodes[n].value));
              }
              return false;
            }
          } else {
            values := values + {nodes[n].value};
          }
        }
      }
      stack := stack[..|stack| - 1] + Reversed(Holds(nodes[n]));
    }
    PricePaid(nodes, rank, root, seen, values, budget.used - start);
    ok := true;
  }

  lemma Starting(nodes: Nodes, rank: map<Node, nat>, root: Node)
    requires root in nodes
    ensures Found(nodes, root, [root], {}) && ValuesSeen(nodes, {}, {})
    ensures Balanced(nodes, rank, root, [root], {}, {}, 0)
  {
    BalancedStart(nodes, rank, root);
  }

  lemma FoundKnown(nodes: Nodes, root: Node, stack: seq<Node>, seen: set<Node>)
    requires Found(nodes, root, stack, seen)
    ensures forall n :: n in stack ==> n in nodes
  {
  }

  lemma NextValues(nodes: Nodes, seen: set<Node>, values: set<Value>, n: Node)
    requires n in nodes && ValuesSeen(nodes, seen, values)
    ensures ValuesSeen(nodes, seen + {n}, if HasValue(nodes, n) then values + {nodes[n].value} else values)
    ensures HasValue(nodes, n) && nodes[n].value in values ==> values + {nodes[n].value} == values
  {
    var values' := if HasValue(nodes, n) then values + {nodes[n].value} else values;
    forall v | v in values'
      ensures v.Shared? && exists m :: m in seen + {n} && HasValue(nodes, m) && nodes[m].value == v
    {
      if v in values {
        var m :| m in seen && HasValue(nodes, m) && nodes[m].value == v;
        assert m in seen + {n};
      } else {
        assert n in seen + {n};
      }
    }
  }

  lemma Settled(nodes: Nodes, rank: map<Node, nat>, root: Node, seen: set<Node>, values: set<Value>, paid: nat)
    requires root in nodes && Balanced(nodes, rank, root, [], seen, values, paid)
    ensures WellRanked(nodes, rank) ==>
              paid == Cost(Unfold(nodes, rank, root)) - SumSet(seen, UnitsIn(nodes)) +
                      SumSet(seen, ValueUnitsIn(nodes)) - SumSet(values, ValueUnitsOf())
  {
    hide SumSet, Cost;
  }
}

/**
 Objects and their parent pointers: ancestry, absolute IDs, and which nested diagram an object belongs to.
 An object's `depth` never changes; a parent always has the smaller one, so every walk to the root ends.
 */
module Forest {
  import opened KeyPath

  datatype Object =
    | Root(board: nat)
    | Item(number: nat, name: string, depth: nat)
    | LifelineEnd(text: string)

  datatype Edge = Edge(number: nat, src: Object, dst: Object, arrow: string, index: string)

  /** A container to extract, with or without itself. */
  datatype Spec = Spec(container: Object, includeSelf: bool)

  function Depth(o: Object): nat {
    if o.Item? then o.depth else 0
  }

  function ID(o: Object): string {
    match o
    case Root(_) => ""
    case Item(_, name, _) => name
    case LifelineEnd(text) => text
  }

  /** The key of an object among its siblings. */
  function Key(o: Object): string {
    Lower(ID(o))
  }

  predicate Ranked(p: map<Object, Object>) {
    forall o :: o in p ==> o.Item? && !p[o].LifelineEnd? && Depth(p[o]) < o.depth
  }

  /** Parent pointers; an object without an entry has none. */
  type Parents = p: map<Object, Object> | Ranked(p) witness map[]

  predicate IsDescendantOf(p: Parents, o: Object, a: Object)
    decreases Depth(o)
  {
    o == a || (o in p && IsDescendantOf(p, p[o], a))
  }

  function AbsID(p: Parents, o: Object): string
    decreases Depth(o)
  {
    if o in p && ID(p[o]) != "" then AbsID(p, p[o]) + "." + ID(o) else ID(o)
  }

  function AbsIDArray(p: Parents, o: Object): seq<string>
    decreases Depth(o)
  {
    if o in p then AbsIDArray(p, p[o]) + [ID(o)] else []
  }

  /** The containers both ends share are written once, in front. */
  function EdgeID(src: seq<string>, dst: seq<string>, common: string, arrow: string, index: string): string {
    if |src| > 1 && |dst| > 1 && EqualFold(src[0], dst[0]) then
      EdgeID(src[1..], dst[1..], common + src[0] + ".", arrow, index)
    else common + "(" + Join(src) + " " + arrow + " " + Join(dst) + ")[" + index + "]"
  }

  function EdgeAbsID(p: Parents, e: Edge): string {
    EdgeID(AbsIDArray(p, e.src), AbsIDArray(p, e.dst), "", e.arrow, e.index)
  }

  lemma {:induction false} Comparable(p: Parents, o: Object, a: Object, b: Object)
    requires IsDescendantOf(p, o, a) && IsDescendantOf(p, o, b)
    ensures IsDescendantOf(p, a, b) || IsDescendantOf(p, b, a)
    decreases Depth(o)
  {
    if o != a && o != b {
      Comparable(p, p[o], a, b);
    }
  }

  lemma {:induction false} DescendantDepth(p: Parents, o: Object, a: Object)
    requires IsDescendantOf(p, o, a)
    ensures Depth(a) <= Depth(o) && (o != a ==> Depth(a) < Depth(o))
    decreases Depth(o)
  {
    if o != a {
      DescendantDepth(p, p[o], a);
    }
  }

  lemma {:induction false} DescendantTrans(p: Parents, o: Object, a: Object, b: Object)
    requires IsDescendantOf(p, o, a) && IsDescendantOf(p, a, b)
    ensures IsDescendantOf(p, o, b)
    decreases Depth(o)
  {
    if o != a {
      DescendantTrans(p, p[o], a, b);
    }
  }

  // ----- ownership -----

  predicate IsNested(p: Parents, spec: Spec, o: Object) {
    if spec.includeSelf then IsDescendantOf(p, o, spec.container)
    else o in p && IsDescendantOf(p, p[o], spec.container)
  }

  /** The objects that become children of the nested diagram's root. */
  predicate IsTop(p: Parents, spec: Spec, o: Object) {
    if spec.includeSelf then o == spec.container else o in p && p[o] == spec.container
  }

  function FirstNested(p: Parents, specs: seq<Spec>, o: Object, i: nat): (r: nat)
    requires i <= |specs|
    ensures i <= r <= |specs|
    ensures r < |specs| ==> IsNested(p, specs[r], o)
    ensures forall j :: i <= j < r ==> !IsNested(p, specs[j], o)
    decreases |specs| - i
  {
    if i == |specs| || IsNested(p, specs[i], o) then i else FirstNested(p, specs, o, i + 1)
  }

  /** The nested diagram an object belongs to, or the number of diagrams when it belongs to none. */
  function Owner(p: Parents, specs: seq<Spec>, o: Object): (r: nat)
    ensures r <= |specs|
    ensures r < |specs| ==> IsNested(p, specs[r], o)
  {
    FirstNested(p, specs, o, 0)
  }

  /** No container lies within another. */
  predicate Antichain(p: Parents, specs: seq<Spec>) {
    forall i, j :: 0 <= i < |specs| && 0 <= j < |specs| && i != j ==>
                     !IsDescendantOf(p, specs[i].container, specs[j].container)
  }

  lemma OwnerIs(p: Parents, specs: seq<Spec>, o: Object, i: nat)
    requires Antichain(p, specs) && i < |specs| && IsNested(p, specs[i], o)
    ensures Owner(p, specs, o) == i
  {
    var j := Owner(p, specs, o);
    if i != j {
      assert IsDescendantOf(p, o, specs[i].container) && IsDescendantOf(p, o, specs[j].container);
      Comparable(p, o, specs[i].container, specs[j].container);
    }
  }

  lemma ChildOwned(p: Parents, specs: seq<Spec>, o: Object)
    requires Antichain(p, specs) && o in p && Owner(p, specs, p[o]) < |specs|
    ensures Owner(p, specs, o) == Owner(p, specs, p[o])
  {
    OwnerIs(p, specs, o, Owner(p, specs, p[o]));
  }

  lemma ParentOwned(p: Parents, specs: seq<Spec>, o: Object)
    requires Antichain(p, specs) && Owner(p, specs, o) < |specs| && !IsTop(p, specs[Owner(p, specs, o)], o)
    ensures o in p && Owner(p, specs, p[o]) == Owner(p, specs, o)
  {
    OwnerIs(p, specs, p[o], Owner(p, specs, o));
  }

  lemma TopOwned(p: Parents, specs: seq<Spec>, o: Object, i: nat)
    requires Antichain(p, specs) && i < |specs| && IsTop(p, specs[i], o)
    ensures Owner(p, specs, o) == i
  {
    OwnerIs(p, specs, o, i);
  }

  lemma ContainerOwner(p: Parents, specs: seq<Spec>, i: nat)
    requires Antichain(p, specs) && i < |specs|
    ensures Owner(p, specs, specs[i].container) == if specs[i].includeSelf then i else |specs|
  {
    var c := specs[i].container;
    if specs[i].includeSelf {
      OwnerIs(p, specs, c, i);
    } else {
      var j := Owner(p, specs, c);
      if j == i {
        DescendantDepth(p, p[c], c);
      } else if j < |specs| {
        assert IsDescendantOf(p, c, specs[j].container);
      }
    }
  }

  /** The walk of the batched form: the nearest container on the way up decides. */
  function FindOwner(p: Parents, specs: seq<Spec>, o: Object, ancestor: Object): nat
    decreases Depth(ancestor)
  {
    var i := ContainerIndex(specs, ancestor, 0);
    if i < |specs| then (if specs[i].includeSelf || ancestor != o then i else |specs|)
    else if ancestor in p then FindOwner(p, specs, o, p[ancestor])
    else |specs|
  }

  function ContainerIndex(specs: seq<Spec>, o: Object, i: nat): (r: nat)
    requires i <= |specs|
    ensures i <= r <= |specs|
    ensures r < |specs| ==> specs[r].container == o
    ensures forall j :: i <= j < r ==> specs[j].container != o
    decreases |specs| - i
  {
    if i == |specs| || specs[i].container == o then i else ContainerIndex(specs, o, i + 1)
  }

  lemma {:induction false} FindOwnerFrom(p: Parents, specs: seq<Spec>, o: Object, ancestor: Object)
    requires Antichain(p, specs) && IsDescendantOf(p, o, ancestor)
    requires forall j :: 0 <= j < |specs| && IsDescendantOf(p, o, specs[j].container) ==>
                           IsDescendantOf(p, ancestor, specs[j].container)
    ensures FindOwner(p, specs, o, ancestor) == Owner(p, specs, o)
    decreases Depth(ancestor)
  {
    var i := ContainerIndex(specs, ancestor, 0);
    if i < |specs| {
      if specs[i].includeSelf || ancestor != o {
        OwnerIs(p, specs, o, i);
      } else {
        ContainerOwner(p, specs, i);
      }
    } else if ancestor in p {
      DescendantTrans(p, o, ancestor, p[ancestor]);
      FindOwnerFrom(p, specs, o, p[ancestor]);
    }
  }

  /** The walk to the nearest container finds the one nested diagram that holds the object. */
  lemma FindOwnerIsOwner(p: Parents, specs: seq<Spec>, o: Object)
    requires Antichain(p, specs)
    ensures FindOwner(p, specs, o, o) == Owner(p, specs, o)
  {
    FindOwnerFrom(p, specs, o, o);
  }

  // ----- parent pointers while some diagrams are out -----

  /** Whether an object still hangs from its own parent while the diagrams `out` are extracted. */
  predicate Stays(p: Parents, specs: seq<Spec>, out: set<nat>, o: Object) {
    var i := Owner(p, specs, o);
    !(i < |specs| && i in out && IsTop(p, specs[i], o))
  }

  function StaysIn(p: Parents, specs: seq<Spec>, out: set<nat>): Object -> bool {
    o => Stays(p, specs, out, o)
  }

  function ParentsWithout(p: Parents, specs: seq<Spec>, out: set<nat>, base: nat): (r: Parents)
    ensures r.Keys == p.Keys
  {
    map o | o in p :: if Stays(p, specs, out, o) then p[o] else Root(base + Owner(p, specs, o))
  }

  predicate Remains(p: Parents, specs: seq<Spec>, out: set<nat>, o: Object) {
    Owner(p, specs, o) == |specs| || Owner(p, specs, o) !in out
  }

  lemma RemainsUp(p: Parents, specs: seq<Spec>, out: set<nat>, base: nat, o: Object)
    requires Antichain(p, specs) && Remains(p, specs, out, o) && o in p
    ensures Remains(p, specs, out, p[o]) && ParentsWithout(p, specs, out, base)[o] == p[o]
  {
    if Owner(p, specs, p[o]) < |specs| {
      ChildOwned(p, specs, o);
    }
  }

  lemma {:induction false} AncestryKept(p: Parents, specs: seq<Spec>, out: set<nat>, base: nat, o: Object, a: Object)
    requires Antichain(p, specs) && Remains(p, specs, out, o)
    ensures IsDescendantOf(ParentsWithout(p, specs, out, base), o, a) == IsDescendantOf(p, o, a)
    decreases Depth(o)
  {
    if o in p {
      RemainsUp(p, specs, out, base, o);
      hide Remains, ParentsWithout;
      AncestryKept(p, specs, out, base, p[o], a);
    }
  }

  lemma {:induction false} AbsIDKept(p: Parents, specs: seq<Spec>, out: set<nat>, base: nat, o: Object)
    requires Antichain(p, specs) && Remains(p, specs, out, o)
    ensures AbsID(ParentsWithout(p, specs, out, base), o) == AbsID(p, o)
    decreases Depth(o)
  {
    if o in p {
      RemainsUp(p, specs, out, base, o);
      hide Remains, ParentsWithout;
      AbsIDKept(p, specs, out, base, p[o]);
    }
  }

  /** An extracted object no longer lies below anything that remains. */
  lemma {:induction false} ExtractedApart(p: Parents, specs: seq<Spec>, out: set<nat>, base: nat, o: Object, a: Object)
    requires Antichain(p, specs) && !Remains(p, specs, out, o) && Remains(p, specs, out, a) && a.Item?
    ensures !IsDescendantOf(ParentsWithout(p, specs, out, base), o, a)
    decreases Depth(o)
  {
    var i := Owner(p, specs, o);
    if o in p && Stays(p, specs, out, o) {
      ParentOwned(p, specs, o);
      ExtractedApart(p, specs, out, base, p[o], a);
    }
  }
}

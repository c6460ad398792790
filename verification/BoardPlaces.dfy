/**
 Where the boards of a tree come to lie, by names and kinds alone. From that follow the exact conditions under which all
 outputs differ, and under which the check of claimed paths accepts them.
 */
module BoardPlaces {
  import opened BoardOutput
  import K = KeyPath

  /** Boards below the root have names, no two of one list the same. */
  predicate NamedApart(ds: seq<Diagram>)
    decreases ds
  {
    && (forall i :: 0 <= i < |ds| ==> ds[i].name != "")
    && (forall i, j :: 0 <= i < j < |ds| ==> ds[i].name != ds[j].name)
    && (forall i :: 0 <= i < |ds| ==>
        NamedApart(ds[i].layers) && NamedApart(ds[i].scenarios) &&
        NamedApart(ds[i].steps))
  }

  /** No component of the boards, or of any board below them, has a dot. */
  predicate DotFree(ds: seq<Diagram>, digest: string -> string)
    decreases ds
  {
    forall i :: 0 <= i < |ds| ==> '.' !in Component(ds[i].name, digest) && DotFreeBelow(ds[i], digest)
  }

  predicate DotFreeBelow(d: Diagram, digest: string -> string)
    decreases d
  {
    DotFree(d.layers, digest) && DotFree(d.scenarios, digest) && DotFree(d.steps, digest)
  }

  /** There is an extension to tell from the names, or there are no dots to mistake for one. */
  predicate Clear(p: Path, ds: seq<Diagram>, digest: string -> string)
    requires p != []
  {
    ExtensionOf(p) != "" || DotFree(ds, digest)
  }

  predicate ClearBoard(p: Path, d: Diagram, digest: string -> string)
    requires p != []
  {
    ExtensionOf(p) != "" || ((d.name == "" || '.' !in Component(d.name, digest)) && DotFreeBelow(d, digest))
  }

  predicate Distinct<T(==)>(s: seq<T>) {
    forall i, j :: 0 <= i < j < |s| ==> s[i] != s[j]
  }

  // ----- places -----

  const KINDS: set<string> := {"layers", "scenarios", "steps"}

  /** The way to a written board, and whether there are boards below it. */
  datatype Spot = Spot(place: seq<string>, kids: bool)

  function Base(at: seq<string>, d: Diagram, digest: string -> string): seq<string> {
    if d.name != "" then at + [Component(d.name, digest)] else at
  }

  function KindAt(base: seq<string>, tag: string, own: bool): seq<string> {
    if own then base + [tag] else base
  }

  /** The spots of all written boards, in the order of the outputs. A board without a name adds nothing to the way. */
  function Places(at: seq<string>, d: Diagram, digest: string -> string): seq<Spot>
    decreases d, 1
  {
    var base := Base(at, d, digest);
    (if d.folderOnly then [] else [Spot(base, HasKids(d))]) +
    PlacesAll(KindAt(base, "layers", d.scenarios != [] || d.steps != []), d.layers, digest) +
    PlacesAll(KindAt(base, "scenarios", d.layers != [] || d.steps != []), d.scenarios, digest) +
    PlacesAll(KindAt(base, "steps", d.layers != [] || d.scenarios != []), d.steps, digest)
  }

  function PlacesAll(at: seq<string>, ds: seq<Diagram>, digest: string -> string): seq<Spot>
    decreases ds, 0, |ds|
  {
    if ds == [] then [] else PlacesAll(at, ds[..|ds| - 1], digest) + Places(at, ds[|ds| - 1], digest)
  }

  /** What the output of a spot adds to the stem. */
  function Trail(s: Spot): seq<string> {
    if s.kids then s.place + ["index"] else s.place
  }

  /** The output path that goes a trail below another. */
  function FromTrail(p: Path, t: seq<string>): Path
    requires p != []
  {
    if t == [] then p else Stem(p) + t[..|t| - 1] + [t[|t| - 1] + ExtensionOf(p)]
  }

  // ----- every output goes its trail -----

  predicate Lies(p: Path, t: seq<string>, q: Path)
    requires p != []
  {
    q != [] && q == FromTrail(p, t) && Stem(q) == Stem(p) + t && ExtensionOf(q) == ExtensionOf(p)
  }

  lemma LiesAppend(p: Path, t: seq<string>, q: Path, component: string)
    requires p != [] && Lies(p, t, q) && component != "" && (ExtensionOf(p) != "" || '.' !in component)
    ensures Lies(p, t + [component], Append(q, component))
  {
    AppendStem(q, component);
    hide Stem, ExtensionOf;
    assert Stem(p) + t + [component] == Stem(p) + (t + [component]);
  }

  lemma LiesKind(p: Path, t: seq<string>, q: Path, tag: string, own: bool)
    requires p != [] && Lies(p, t, q) && (tag in KINDS || tag == "index")
    ensures Lies(p, KindAt(t, tag, own), if own then Append(q, tag) else q)
  {
    hide Lies;
    assert tag != "" && '.' !in tag;
    LiesIsPath(p, t, q);
    LiesAppend(p, t, q, tag);
  }

  lemma LiesIsPath(p: Path, t: seq<string>, q: Path)
    requires p != [] && Lies(p, t, q)
    ensures q != [] && ExtensionOf(q) == ExtensionOf(p)
  {
  }

  predicate Match(p: Path, qs: seq<Path>, ss: seq<Spot>)
    requires p != []
  {
    |qs| == |ss| && forall i :: 0 <= i < |qs| ==> qs[i] == FromTrail(p, Trail(ss[i]))
  }

  lemma MatchConcat(p: Path, qs: seq<Path>, ss: seq<Spot>, qs': seq<Path>, ss': seq<Spot>)
    requires p != [] && Match(p, qs, ss) && Match(p, qs', ss')
    ensures Match(p, qs + qs', ss + ss')
  {
    hide FromTrail;
  }

  lemma OwnMatches(p: Path, t: seq<string>, q: Path, d: Diagram)
    requires p != [] && Lies(p, t, q)
    ensures Match(p, if d.folderOnly then [] else [if HasKids(d) then Append(q, "index") else q],
                  if d.folderOnly then [] else [Spot(t, HasKids(d))])
  {
    hide Append, FromTrail, Stem, ExtensionOf;
    LiesKind(p, t, q, "index", HasKids(d));
  }

  /** Each output is the path its spot says. */
  lemma {:induction false} OutputsMatch(p: Path, t: seq<string>, q: Path, d: Diagram, digest: string -> string)
    requires p != [] && q != [] && Lies(p, t, q) && ClearBoard(q, d, digest)
    ensures Match(p, Outputs(q, d, digest), Places(t, d, digest))
    decreases d, 1
  {
    hide Lies, Match, Append, Component, OutputsAll, PlacesAll, ExtensionOf, DotFree;
    LiesIsPath(p, t, q);
    var plan, base := PlanBoardOutput(q, d, digest), Base(t, d, digest);
    if d.name != "" {
      ComponentFree(d.name, digest);
      LiesAppend(p, t, q, Component(d.name, digest));
    }
    LiesIsPath(p, base, plan.base);
    LiesKind(p, base, plan.base, "layers", d.scenarios != [] || d.steps != []);
    LiesKind(p, base, plan.base, "scenarios", d.layers != [] || d.steps != []);
    LiesKind(p, base, plan.base, "steps", d.layers != [] || d.scenarios != []);
    var at, bt := KindAt(base, "layers", d.scenarios != [] || d.steps != []),
      KindAt(base, "scenarios", d.layers != [] || d.steps != []);
    var ct := KindAt(base, "steps", d.layers != [] || d.scenarios != []);
    LiesIsPath(p, at, plan.layers);
    LiesIsPath(p, bt, plan.scenarios);
    LiesIsPath(p, ct, plan.steps);
    OutputsAllMatch(p, at, plan.layers, d.layers, digest);
    OutputsAllMatch(p, bt, plan.scenarios, d.scenarios, digest);
    OutputsAllMatch(p, ct, plan.steps, d.steps, digest);
    OwnMatches(p, base, plan.base, d);
    var own, spot := if d.folderOnly then [] else [plan.board], if d.folderOnly then [] else [Spot(base, HasKids(d))];
    var a, b, c := OutputsAll(plan.layers, d.layers, digest), OutputsAll(plan.scenarios, d.scenarios, digest),
      OutputsAll(plan.steps, d.steps, digest);
    MatchConcat(p, own, spot, a, PlacesAll(at, d.layers, digest));
    MatchConcat(p, own + a, spot + PlacesAll(at, d.layers, digest), b, PlacesAll(bt, d.scenarios, digest));
    MatchConcat(p, own + a + b, spot + PlacesAll(at, d.layers, digest) + PlacesAll(bt, d.scenarios, digest), c,
                PlacesAll(ct, d.steps, digest));
  }

  lemma {:induction false} OutputsAllMatch(p: Path, t: seq<string>, q: Path, ds: seq<Diagram>, digest: string -> string)
    requires p != [] && q != [] && Lies(p, t, q) && Clear(q, ds, digest)
    ensures Match(p, OutputsAll(q, ds, digest), PlacesAll(t, ds, digest))
    decreases ds, 0, |ds|
  {
    hide Lies, Outputs, Places, Component, ExtensionOf;
    if ds != [] {
      var n := |ds| - 1;
      OutputsAllMatch(p, t, q, ds[..n], digest);
      OutputsMatch(p, t, q, ds[n], digest);
      hide Match;
      MatchConcat(p, OutputsAll(q, ds[..n], digest), PlacesAll(t, ds[..n], digest), Outputs(q, ds[n], digest),
                  Places(t, ds[n], digest));
    }
  }

  lemma LiesHere(p: Path)
    requires p != []
    ensures Lies(p, [], p)
  {
    hide Stem, ExtensionOf;
    assert Stem(p) + [] == Stem(p);
  }

  // ----- when all outputs differ -----

  lemma FromTrailTells(p: Path, t: seq<string>, u: seq<string>)
    requires p != []
    ensures FromTrail(p, t) == FromTrail(p, u) <==> t == u
  {
    StemLength(p);
    hide Stem, ExtensionOf;
    var q, r, n := FromTrail(p, t), FromTrail(p, u), |Stem(p)|;
    assert |q| == n + |t| && |r| == n + |u|;
    if q == r && t != [] {
      var k := |t| - 1;
      assert q[n..n + k] == t[..k] && r[n..n + k] == u[..k];
      assert q[n + k] == t[k] + ExtensionOf(p) && r[n + k] == u[k] + ExtensionOf(p);
      assert q[n + k][..|t[k]|] == t[k] && r[n + k][..|u[k]|] == u[k];
      assert t == t[..k] + [t[k]] && u == u[..k] + [u[k]];
    }
  }

  lemma StemLength(p: Path)
    requires p != []
    ensures |Stem(p)| == |p|
  {
  }

  /** No board lies at an index: that name is kept for boards with others below them. */
  predicate Proper(place: seq<string>) {
    place != [] ==> place[|place| - 1] != "index"
  }

  predicate AllProper(ss: seq<Spot>) {
    forall s :: s in ss ==> Proper(s.place)
  }

  lemma {:induction false} PlacesProper(at: seq<string>, d: Diagram, digest: string -> string)
    requires Proper(at)
    ensures AllProper(Places(at, d, digest))
    decreases d, 1
  {
    hide Component, PlacesAll;
    ComponentFree(d.name, digest);
    var base := Base(at, d, digest);
    PlacesAllProper(KindAt(base, "layers", d.scenarios != [] || d.steps != []), d.layers, digest);
    PlacesAllProper(KindAt(base, "scenarios", d.layers != [] || d.steps != []), d.scenarios, digest);
    PlacesAllProper(KindAt(base, "steps", d.layers != [] || d.scenarios != []), d.steps, digest);
  }

  lemma {:induction false} PlacesAllProper(at: seq<string>, ds: seq<Diagram>, digest: string -> string)
    requires Proper(at)
    ensures AllProper(PlacesAll(at, ds, digest))
    decreases ds, 0, |ds|
  {
    hide Proper, Places;
    if ds != [] {
      PlacesAllProper(at, ds[..|ds| - 1], digest);
      PlacesProper(at, ds[|ds| - 1], digest);
    }
  }

  lemma TrailTells(s: Spot, r: Spot)
    requires Proper(s.place) && Proper(r.place)
    ensures Trail(s) == Trail(r) <==> s == r
  {
    if Trail(s) == Trail(r) {
      var t, u := Trail(s), Trail(r);
      if t != [] && t[|t| - 1] == "index" {
        assert t[..|t| - 1] == u[..|u| - 1];
      }
    }
  }

  /**
   All outputs differ exactly when no two written boards lie in one place and both have boards below them, or both have
   none. A board without a name lies where the one above it does, or in that one's directory for its kind.
   */
  lemma DistinctIffPlaces(output: Path, d: Diagram, digest: string -> string)
    requires output != [] && ClearBoard(output, d, digest)
    ensures Distinct(Outputs(output, d, digest)) <==> Distinct(Places([], d, digest))
  {
    hide Outputs, Places, FromTrail, Trail, Proper, ClearBoard, Lies;
    var qs, ss := Outputs(output, d, digest), Places([], d, digest);
    LiesHere(output);
    OutputsMatch(output, [], output, d, digest);
    RootProper();
    PlacesProper([], d, digest);
    forall i, j | 0 <= i < j < |qs|
      ensures qs[i] == qs[j] <==> ss[i] == ss[j]
    {
      FromTrailTells(output, Trail(ss[i]), Trail(ss[j]));
      TrailTells(ss[i], ss[j]);
    }
  }

  lemma RootProper()
    ensures Proper([])
  {
  }

  /** The children of a board that has them of one kind only; they get no directory of their own. */
  function OnlyKind(d: Diagram): seq<Diagram> {
    if d.scenarios == [] && d.steps == [] then d.layers
    else if d.layers == [] && d.steps == [] then d.scenarios
    else if d.layers == [] && d.scenarios == [] then d.steps
    else []
  }

  lemma {:induction false} InAll(at: seq<string>, ds: seq<Diagram>, digest: string -> string, s: Spot)
    ensures s in PlacesAll(at, ds, digest) <==> exists x :: x in ds && s in Places(at, x, digest)
    decreases |ds|
  {
    hide Places;
    if ds != [] {
      var n := |ds| - 1;
      InAll(at, ds[..n], digest, s);
      if s in PlacesAll(at, ds, digest) && s !in Places(at, ds[n], digest) {
        var x :| x in ds[..n] && s in Places(at, x, digest);
        assert x in ds;
      }
      if x :| x in ds && s in Places(at, x, digest) {
        assert x in ds[..n] || x == ds[n];
      }
    }
  }

  lemma {:induction false} OutputsWithin(p: Path, ds: seq<Diagram>, i: nat, digest: string -> string)
    requires p != [] && i < |ds|
    ensures exists a, b :: OutputsAll(p, ds, digest) == a + Outputs(p, ds[i], digest) + b
    decreases |ds|
  {
    hide Outputs;
    var n := |ds| - 1;
    var last := Outputs(p, ds[n], digest);
    if i == n {
      assert OutputsAll(p, ds, digest) == OutputsAll(p, ds[..n], digest) + last + [];
    } else {
      OutputsWithin(p, ds[..n], i, digest);
      var a, b :| OutputsAll(p, ds[..n], digest) == a + Outputs(p, ds[i], digest) + b;
      assert OutputsAll(p, ds, digest) == a + Outputs(p, ds[i], digest) + (b + last);
    }
  }

  lemma OnlyOutputs(p: Path, d: Diagram, digest: string -> string)
    requires p != [] && !d.folderOnly && OnlyKind(d) != []
    ensures var base := Named(p, d, digest);
            Outputs(p, d, digest) == [Append(base, "index")] + OutputsAll(base, OnlyKind(d), digest)
  {
    hide Append, Named;
    var plan := PlanBoardOutput(p, d, digest);
    NoBoards(plan.layers, digest);
    NoBoards(plan.scenarios, digest);
    NoBoards(plan.steps, digest);
    hide OutputsAll;
    assert Outputs(p, d, digest) == [plan.board] + OutputsAll(plan.base, OnlyKind(d), digest);
  }

  lemma NoBoards(p: Path, digest: string -> string)
    requires p != []
    ensures OutputsAll(p, [], digest) == []
  {
  }

  lemma OwnFirst(p: Path, d: Diagram, digest: string -> string)
    requires p != [] && d.name == "" && HasKids(d) && !d.folderOnly
    ensures Outputs(p, d, digest) != [] && Outputs(p, d, digest)[0] == Append(p, "index")
  {
  }

  /**
   A nameless board with boards below it takes the index of the board above, if that has children of one kind only.
   */
  lemma NamelessBoardCollides(p: Path, d: Diagram, y: Diagram, digest: string -> string)
    requires p != [] && y in OnlyKind(d) && y.name == "" && HasKids(y) && !y.folderOnly && !d.folderOnly
    ensures !Distinct(Outputs(p, d, digest))
  {
    var base := Named(p, d, digest);
    OnlyOutputs(p, d, digest);
    OwnFirst(base, y, digest);
    hide Outputs, OutputsAll, Named, Append;
    var i :| 0 <= i < |OnlyKind(d)| && OnlyKind(d)[i] == y;
    OutputsWithin(base, OnlyKind(d), i, digest);
    var a, b :| OutputsAll(base, OnlyKind(d), digest) == a + Outputs(base, y, digest) + b;
    var all := Outputs(p, d, digest);
    assert all[0] == all[1 + |a|];
  }

  // ----- boards with names of their own -----

  predicate ApartBelow(d: Diagram) {
    NamedApart(d.layers) && NamedApart(d.scenarios) && NamedApart(d.steps)
  }

  lemma NamedParts(ds: seq<Diagram>)
    requires NamedApart(ds)
    ensures forall x :: x in ds ==> x.name != "" && ApartBelow(x)
    ensures forall x, y :: x in ds && y in ds && x != y ==> x.name != y.name
    ensures ds != [] ==> NamedApart(ds[..|ds| - 1]) && ds[|ds| - 1] !in ds[..|ds| - 1]
  {
  }

  lemma {:induction false} DistinctConcat<T>(s: seq<T>, r: seq<T>)
    requires Distinct(s) && Distinct(r) && forall x :: x in s ==> x !in r
    ensures Distinct(s + r)
  {
    var all := s + r;
    forall i, j | 0 <= i < j < |all|
      ensures all[i] != all[j]
    {
      if i < |s| <= j {
        assert all[i] in s && all[j] == r[j - |s|] && r[j - |s|] in r;
      }
    }
  }

  /** At the base itself there is only the board's own spot. */
  predicate AtOrBelow(base: seq<string>, s: Spot, kids: bool) {
    base <= s.place && (s.place == base ==> s.kids == kids) && (|s.place| > |base| ==> kids)
  }

  lemma {:induction false} PlacesBelow(at: seq<string>, d: Diagram, digest: string -> string, s: Spot)
    requires ApartBelow(d) && s in Places(at, d, digest)
    ensures AtOrBelow(Base(at, d, digest), s, HasKids(d))
    ensures s.place == Base(at, d, digest) ==> !d.folderOnly
    decreases d, 1
  {
    hide Component, PlacesAll, NamedApart, Base;
    var base := Base(at, d, digest);
    var at0, at1 := KindAt(base, "layers", d.scenarios != [] || d.steps != []),
      KindAt(base, "scenarios", d.layers != [] || d.steps != []);
    var at2 := KindAt(base, "steps", d.layers != [] || d.scenarios != []);
    if s in PlacesAll(at0, d.layers, digest) {
      KindBelow(at0, d.layers, digest, s);
    } else if s in PlacesAll(at1, d.scenarios, digest) {
      KindBelow(at1, d.scenarios, digest, s);
    } else if s in PlacesAll(at2, d.steps, digest) {
      KindBelow(at2, d.steps, digest, s);
    }
  }

  lemma {:induction false} KindBelow(at: seq<string>, ds: seq<Diagram>, digest: string -> string, s: Spot)
    requires NamedApart(ds) && s in PlacesAll(at, ds, digest)
    ensures ds != [] && at < s.place
    decreases ds, 0
  {
    hide Component, Places, PlacesAll, NamedApart;
    InAll(at, ds, digest, s);
    var x :| x in ds && s in Places(at, x, digest);
    NamedParts(ds);
    PlacesBelow(at, x, digest, s);
  }

  /** Where a spot below a board goes on. */
  lemma NextIs(at: seq<string>, d: Diagram, digest: string -> string, s: Spot)
    requires ApartBelow(d) && d.name != "" && s in Places(at, d, digest)
    ensures at < s.place && s.place[|at|] == Component(d.name, digest)
  {
    hide Component, Places;
    PlacesBelow(at, d, digest, s);
    assert Base(at, d, digest)[|at|] == s.place[|at|];
  }

  lemma KindNext(base: seq<string>, tag: string, ds: seq<Diagram>, digest: string -> string, s: Spot)
    requires NamedApart(ds) && s in PlacesAll(base + [tag], ds, digest)
    ensures |base| + 1 < |s.place| && base < s.place && s.place[|base|] == tag
  {
    hide PlacesAll, NamedApart;
    KindBelow(base + [tag], ds, digest, s);
    assert (base + [tag])[|base|] == s.place[|base|];
    assert base == (base + [tag])[..|base|] == s.place[..|base|];
  }

  lemma ComponentsApart(x: Diagram, y: Diagram, digest: string -> string)
    requires Injective(digest) && x.name != y.name
    ensures Component(x.name, digest) != Component(y.name, digest)
  {
    hide Component;
    ComponentsDiffer(x.name, y.name, digest);
  }

  lemma {:induction false} ListDistinct(at: seq<string>, ds: seq<Diagram>, digest: string -> string)
    requires NamedApart(ds) && Injective(digest)
    ensures Distinct(PlacesAll(at, ds, digest))
    decreases ds, 0, |ds|
  {
    hide Component, Places, NamedApart, Injective;
    if ds != [] {
      var n := |ds| - 1;
      NamedParts(ds);
      ListDistinct(at, ds[..n], digest);
      BoardDistinct(at, ds[n], digest);
      forall s | s in PlacesAll(at, ds[..n], digest)
        ensures s !in Places(at, ds[n], digest)
      {
        InAll(at, ds[..n], digest, s);
        var x :| x in ds[..n] && s in Places(at, x, digest);
        NextIs(at, x, digest, s);
        ComponentsApart(x, ds[n], digest);
        if s in Places(at, ds[n], digest) {
          NextIs(at, ds[n], digest, s);
        }
      }
      DistinctConcat(PlacesAll(at, ds[..n], digest), Places(at, ds[n], digest));
    }
  }

  /** The four groups of a board's spots: its own, and those of each kind. */
  datatype Groups = Groups(own: seq<Spot>, layers: seq<Spot>, scenarios: seq<Spot>, steps: seq<Spot>)

  function GroupsOf(at: seq<string>, d: Diagram, digest: string -> string): (g: Groups)
    ensures Places(at, d, digest) == g.own + g.layers + g.scenarios + g.steps
  {
    var base := Base(at, d, digest);
    Groups(if d.folderOnly then [] else [Spot(base, HasKids(d))],
           PlacesAll(KindAt(base, "layers", d.scenarios != [] || d.steps != []), d.layers, digest),
           PlacesAll(KindAt(base, "scenarios", d.layers != [] || d.steps != []), d.scenarios, digest),
           PlacesAll(KindAt(base, "steps", d.layers != [] || d.scenarios != []), d.steps, digest))
  }

  /** A group below the base, in a directory of its own where there are others. */
  predicate IsGroup(ss: seq<Spot>, base: seq<string>, tag: string, others: bool) {
    forall s :: s in ss ==> base < s.place && (others ==> |base| + 1 < |s.place| && s.place[|base|] == tag)
  }

  lemma GroupIs(base: seq<string>, tag: string, own: bool, ds: seq<Diagram>, digest: string -> string, others: bool)
    requires NamedApart(ds) && (others ==> own)
    ensures IsGroup(PlacesAll(KindAt(base, tag, own), ds, digest), base, tag, others)
  {
    hide PlacesAll, NamedApart;
    forall s | s in PlacesAll(KindAt(base, tag, own), ds, digest)
      ensures base < s.place && (others ==> |base| + 1 < |s.place| && s.place[|base|] == tag)
    {
      if own {
        KindNext(base, tag, ds, digest, s);
      } else {
        KindBelow(base, ds, digest, s);
      }
    }
  }

  lemma GroupsAre(at: seq<string>, d: Diagram, digest: string -> string)
    requires ApartBelow(d)
    ensures var g, base := GroupsOf(at, d, digest), Base(at, d, digest);
            && IsGroup(g.layers, base, "layers", g.scenarios + g.steps != [])
            && IsGroup(g.scenarios, base, "scenarios", g.layers + g.steps != [])
            && IsGroup(g.steps, base, "steps", g.layers + g.scenarios != [])
  {
    hide NamedApart, Base, IsGroup;
    var base, g := Base(at, d, digest), GroupsOf(at, d, digest);
    assert forall t :: PlacesAll(t, [], digest) == [];
    hide PlacesAll;
    GroupIs(base, "layers", d.scenarios != [] || d.steps != [], d.layers, digest, g.scenarios + g.steps != []);
    GroupIs(base, "scenarios", d.layers != [] || d.steps != [], d.scenarios, digest, g.layers + g.steps != []);
    GroupIs(base, "steps", d.layers != [] || d.scenarios != [], d.steps, digest, g.layers + g.scenarios != []);
  }

  lemma {:induction false} BoardDistinct(at: seq<string>, d: Diagram, digest: string -> string)
    requires ApartBelow(d) && Injective(digest)
    ensures Distinct(Places(at, d, digest))
    decreases d, 1
  {
    hide NamedApart, Injective, PlacesAll, Places;
    var base, g := Base(at, d, digest), GroupsOf(at, d, digest);
    ListDistinct(KindAt(base, "layers", d.scenarios != [] || d.steps != []), d.layers, digest);
    ListDistinct(KindAt(base, "scenarios", d.layers != [] || d.steps != []), d.scenarios, digest);
    ListDistinct(KindAt(base, "steps", d.layers != [] || d.scenarios != []), d.steps, digest);
    GroupsAre(at, d, digest);
    hide Base, KindAt;
    GroupsDistinct(g, base);
  }

  lemma GroupsDistinct(g: Groups, base: seq<string>)
    requires Distinct(g.own) && Distinct(g.layers) && Distinct(g.scenarios) && Distinct(g.steps)
    requires forall s :: s in g.own ==> s.place == base
    requires IsGroup(g.layers, base, "layers", g.scenarios + g.steps != [])
    requires IsGroup(g.scenarios, base, "scenarios", g.layers + g.steps != [])
    requires IsGroup(g.steps, base, "steps", g.layers + g.scenarios != [])
    ensures Distinct(g.own + g.layers + g.scenarios + g.steps)
  {
    hide Distinct;
    DistinctConcat(g.own, g.layers);
    GroupsApart(g.layers, "layers", g.scenarios, "scenarios", base);
    DistinctConcat(g.own + g.layers, g.scenarios);
    GroupsApart(g.layers, "layers", g.steps, "steps", base);
    GroupsApart(g.scenarios, "scenarios", g.steps, "steps", base);
    DistinctConcat(g.own + g.layers + g.scenarios, g.steps);
  }

  lemma GroupsApart(a: seq<Spot>, tag: string, b: seq<Spot>, tag': string, base: seq<string>)
    requires tag != tag' && (b != [] ==> IsGroup(a, base, tag, true)) && (a != [] ==> IsGroup(b, base, tag', true))
    ensures forall s :: s in a ==> s !in b
  {
  }

  /**
   With an extension, or without dots in the components, and with names below the root that differ among siblings, every
   board has a path of its own.
   */
  lemma OutputsAreDistinct(output: Path, d: Diagram, digest: string -> string)
    requires output != [] && ClearBoard(output, d, digest) && Injective(digest)
    requires NamedApart(d.layers) && NamedApart(d.scenarios) && NamedApart(d.steps)
    ensures Distinct(Outputs(output, d, digest))
  {
    hide ClearBoard, Injective, NamedApart, Outputs, Places;
    BoardDistinct([], d, digest);
    DistinctIffPlaces(output, d, digest);
  }

  // ----- when all outputs are accepted -----

  /**
   A file where another output needs a directory: with the extension, the trail ends in what is a component of the
   other.
   */
  predicate Blocks(t: seq<string>, u: seq<string>, ext: string) {
    0 < |t| < |u| && t[..|t| - 1] == u[..|t| - 1] && u[|t| - 1] == t[|t| - 1] + ext
  }

  predicate NoBlocks(a: seq<Spot>, b: seq<Spot>, ext: string) {
    forall s, r :: s in a && r in b ==> !Blocks(Trail(s), Trail(r), ext)
  }

  lemma FrontOf(p: Path, u: seq<string>, m: nat)
    requires p != [] && m < |u|
    ensures m + |Stem(p)| < |FromTrail(p, u)| == |Stem(p)| + |u|
    ensures FromTrail(p, u)[..|Stem(p)| + m] == Stem(p) + u[..m]
  {
    hide Stem, ExtensionOf;
    var k := |u| - 1;
    assert FromTrail(p, u)[..|Stem(p)| + k] == Stem(p) + u[..k];
    assert (Stem(p) + u[..k])[..|Stem(p)| + m] == Stem(p) + u[..m];
  }

  lemma SameEnds(stem: Path, x: seq<string>, a: string, y: seq<string>, b: string)
    requires |x| == |y|
    ensures stem + x + [a] == stem + y + [b] <==> x == y && a == b
  {
    var q, r := stem + x + [a], stem + y + [b];
    assert q[|stem|..|q| - 1] == x && q[|q| - 1] == a && r[|stem|..|r| - 1] == y && r[|r| - 1] == b;
  }

  lemma PrefixIffBlocks(p: Path, t: seq<string>, u: seq<string>)
    requires p != [] && t != [] && u != [] && t != u
    ensures FromTrail(p, t) <= FromTrail(p, u) <==> Blocks(t, u, ExtensionOf(p))
  {
    hide Stem, ExtensionOf;
    var q, r, k := FromTrail(p, t), FromTrail(p, u), |t| - 1;
    FrontOf(p, t, k);
    FrontOf(p, u, |u| - 1);
    FromTrailTells(p, t, u);
    if |t| < |u| {
      SameEnds(Stem(p), t[..k], t[k] + ExtensionOf(p), u[..k], u[k]);
      FrontOf(p, u, |t|);
      assert u[..|t|] == u[..k] + [u[k]];
      hide FromTrail;
      ByPrefix(q, r);
    }
  }

  lemma ByPrefix(q: Path, r: Path)
    requires |q| <= |r|
    ensures q <= r <==> q == r[..|q|]
  {
  }

  /** Some board at or below this one is written. */
  predicate Writes(d: Diagram)
    decreases d, 1
  {
    !d.folderOnly || AnyWrites(d.layers) || AnyWrites(d.scenarios) || AnyWrites(d.steps)
  }

  predicate AnyWrites(ds: seq<Diagram>)
    decreases ds, 0
  {
    exists x :: x in ds && Writes(x)
  }

  lemma {:induction false} WritesIff(at: seq<string>, d: Diagram, digest: string -> string)
    ensures Writes(d) <==> Places(at, d, digest) != []
    decreases d, 1
  {
    hide AnyWrites, PlacesAll;
    var base := Base(at, d, digest);
    AnyWritesIff(KindAt(base, "layers", d.scenarios != [] || d.steps != []), d.layers, digest);
    AnyWritesIff(KindAt(base, "scenarios", d.layers != [] || d.steps != []), d.scenarios, digest);
    AnyWritesIff(KindAt(base, "steps", d.layers != [] || d.scenarios != []), d.steps, digest);
  }

  lemma {:induction false} AnyWritesIff(at: seq<string>, ds: seq<Diagram>, digest: string -> string)
    ensures AnyWrites(ds) <==> PlacesAll(at, ds, digest) != []
    decreases ds, 0
  {
    hide Places, PlacesAll;
    if x :| x in ds && Writes(x) {
      WritesIff(at, x, digest);
      InAll(at, ds, digest, Places(at, x, digest)[0]);
    }
    if PlacesAll(at, ds, digest) != [] {
      var s := PlacesAll(at, ds, digest)[0];
      InAll(at, ds, digest, s);
      var x :| x in ds && s in Places(at, x, digest);
      WritesIff(at, x, digest);
    }
  }

  /** A board that needs a directory, because something below it is written. */
  predicate IsDeep(d: Diagram) {
    HasKids(d) && Writes(d)
  }

  predicate IsFile(d: Diagram) {
    !HasKids(d) && !d.folderOnly
  }

  /** No board of the list needs a directory under the very name of another's file. */
  predicate NoneInTheWay(ds: seq<Diagram>, ext: string, digest: string -> string)
    decreases ds, 0
  {
    && (forall x, y :: x in ds && y in ds && IsFile(x) && IsDeep(y) ==>
          Component(y.name, digest) != Component(x.name, digest) + ext)
    && (forall x :: x in ds ==> NoFileInTheWay(x, ext, digest))
  }

  /** The names under which no file gets in the way of a directory, at the board and at all below it. */
  predicate NoFileInTheWay(d: Diagram, ext: string, digest: string -> string)
    decreases d, 1
  {
    && (!d.folderOnly ==> IndexFree(OnlyKind(d), ext, digest))
    && NoneInTheWay(d.layers, ext, digest) && NoneInTheWay(d.scenarios, ext, digest) &&
       NoneInTheWay(d.steps, ext, digest)
  }

  /** No board of the list needs a directory under the name of the index beside it. */
  predicate IndexFree(ds: seq<Diagram>, ext: string, digest: string -> string) {
    forall y :: y in ds && IsDeep(y) ==> Component(y.name, digest) != "index" + ext
  }

  /** A deep board has an output more than one component below. */
  lemma DeepTrail(at: seq<string>, y: Diagram, digest: string -> string)
    requires ApartBelow(y) && y.name != "" && IsDeep(y)
    ensures exists r :: r in Places(at, y, digest) && |at| + 1 < |Trail(r)| && at < Trail(r)
                        && Trail(r)[|at|] == Component(y.name, digest)
  {
    hide Component, Places;
    WritesIff(at, y, digest);
    var r := Places(at, y, digest)[0];
    PlacesBelow(at, y, digest, r);
    NextIs(at, y, digest, r);
    assert r in Places(at, y, digest) && r.place <= Trail(r);
  }

  lemma TrailNext(at: seq<string>, x: Diagram, digest: string -> string, s: Spot)
    requires ApartBelow(x) && x.name != "" && s in Places(at, x, digest)
    ensures at < Trail(s) && Trail(s)[|at|] == Component(x.name, digest)
    ensures |Trail(s)| > |at| + 1 ==> IsDeep(x)
    ensures |Trail(s)| == |at| + 1 ==> IsFile(x) && Trail(s) == at + [Component(x.name, digest)]
  {
    hide Component, Places;
    PlacesBelow(at, x, digest, s);
    NextIs(at, x, digest, s);
    WritesIff(at, x, digest);
    assert s.place <= Trail(s);
  }

  lemma FileTrail(at: seq<string>, x: Diagram, digest: string -> string)
    requires x.name != "" && IsFile(x)
    ensures Spot(at + [Component(x.name, digest)], false) in Places(at, x, digest)
  {
    hide Component;
  }

  lemma BlocksAt(t: seq<string>, u: seq<string>, at: seq<string>, ext: string)
    requires at < t && at < u && t[|at|] != u[|at|]
    ensures Blocks(t, u, ext) <==> |t| == |at| + 1 < |u| && u[|at|] == t[|at|] + ext
  {
    BlocksAgree(t, u, ext);
  }

  lemma BlocksAgree(t: seq<string>, u: seq<string>, ext: string)
    ensures Blocks(t, u, ext) ==> forall k :: 0 <= k < |t| - 1 ==> t[k] == u[k]
  {
    if Blocks(t, u, ext) {
      forall k | 0 <= k < |t| - 1
        ensures t[k] == u[k]
      {
        assert t[..|t| - 1][k] == u[..|t| - 1][k];
      }
    }
  }

  /** Two boards of one list. */
  lemma PairBlocks(at: seq<string>, x: Diagram, y: Diagram, ext: string, digest: string -> string)
    requires Injective(digest) && ApartBelow(x) && ApartBelow(y) && x.name != "" && y.name != "" && x.name != y.name
    ensures NoBlocks(Places(at, x, digest), Places(at, y, digest), ext) <==>
            !(IsFile(x) && IsDeep(y) && Component(y.name, digest) == Component(x.name, digest) + ext)
  {
    hide Component, Places, Injective, IsFile, IsDeep, NamedApart;
    ComponentsApart(x, y, digest);
    forall s, r | s in Places(at, x, digest) && r in Places(at, y, digest)
      ensures Blocks(Trail(s), Trail(r), ext) ==>
              IsFile(x) && IsDeep(y) && Component(y.name, digest) == Component(x.name, digest) + ext
    {
      TrailNext(at, x, digest, s);
      TrailNext(at, y, digest, r);
      BlocksAt(Trail(s), Trail(r), at, ext);
    }
    if IsFile(x) && IsDeep(y) && Component(y.name, digest) == Component(x.name, digest) + ext {
      FileTrail(at, x, digest);
      DeepTrail(at, y, digest);
      var s := Spot(at + [Component(x.name, digest)], false);
      var r :| r in Places(at, y, digest) && |at| + 1 < |Trail(r)| && at < Trail(r)
               && Trail(r)[|at|] == Component(y.name, digest);
      BlocksAt(Trail(s), Trail(r), at, ext);
    }
  }

  lemma {:induction false} ListBlocks(at: seq<string>, ds: seq<Diagram>, ext: string, digest: string -> string)
    requires Injective(digest) && NamedApart(ds) && ext != "" && ext[0] == '.'
    ensures NoBlocks(PlacesAll(at, ds, digest), PlacesAll(at, ds, digest), ext) <==> NoneInTheWay(ds, ext, digest)
    decreases ds, 0
  {
    hide Component, Places, PlacesAll, Injective, NamedApart, NoFileInTheWay, IsFile, IsDeep, NoBlocks;
    NamedParts(ds);
    forall x, y | x in ds && y in ds
      ensures NoBlocks(Places(at, x, digest), Places(at, y, digest), ext) <==>
              if x == y then NoFileInTheWay(x, ext, digest)
              else !(IsFile(x) && IsDeep(y) && Component(y.name, digest) == Component(x.name, digest) + ext)
    {
      if x == y {
        BoardBlocks(at, x, ext, digest);
      } else {
        PairBlocks(at, x, y, ext, digest);
      }
    }
    AllPairs(at, ds, ext, digest);
    FileNotDeep();
  }

  lemma FileNotDeep()
    ensures forall d :: IsFile(d) ==> !IsDeep(d)
  {
  }

  lemma AllPairs(at: seq<string>, ds: seq<Diagram>, ext: string, digest: string -> string)
    ensures NoBlocks(PlacesAll(at, ds, digest), PlacesAll(at, ds, digest), ext) <==>
            forall x, y :: x in ds && y in ds ==> NoBlocks(Places(at, x, digest), Places(at, y, digest), ext)
  {
    hide Places, PlacesAll, Blocks;
    forall s
      ensures s in PlacesAll(at, ds, digest) <==> exists x :: x in ds && s in Places(at, x, digest)
    {
      InAll(at, ds, digest, s);
    }
  }

  lemma BlocksConcat(a: seq<Spot>, b: seq<Spot>, c: seq<Spot>, ext: string)
    ensures NoBlocks(a + b, c, ext) <==> NoBlocks(a, c, ext) && NoBlocks(b, c, ext)
    ensures NoBlocks(c, a + b, ext) <==> NoBlocks(c, a, ext) && NoBlocks(c, b, ext)
  {
    hide Blocks;
    assert forall s :: s in a + b <==> s in a || s in b;
  }

  /** Groups in directories of their own do not meet. */
  lemma GroupsFree(a: seq<Spot>, tag: string, b: seq<Spot>, tag': string, base: seq<string>, ext: string)
    requires tag != tag' && (b != [] ==> IsGroup(a, base, tag, true)) && (a != [] ==> IsGroup(b, base, tag', true))
    ensures NoBlocks(a, b, ext)
  {
    forall s, r | s in a && r in b
      ensures !Blocks(Trail(s), Trail(r), ext)
    {
      assert s.place <= Trail(s) && r.place <= Trail(r);
      assert Trail(s)[|base|] == tag && Trail(r)[|base|] == tag';
      BlocksAt(Trail(s), Trail(r), base, ext);
    }
  }

  /** A board's own output is never below another's file. */
  lemma OwnFree(a: seq<Spot>, own: seq<Spot>, base: seq<string>, tag: string, others: bool, ext: string)
    requires IsGroup(a, base, tag, others) && ext != "" && forall s :: s in own ==> s.place == base
    ensures NoBlocks(a, own, ext) && NoBlocks(own, own, ext)
  {
  }

  /** A board's own index, and the boards of one kind. */
  lemma IndexBlocks(at: seq<string>, d: Diagram, ds: seq<Diagram>, tag: string, own: bool, ext: string,
                    digest: string -> string)
    requires NamedApart(ds) && Injective(digest) && ext != "" && ext[0] == '.' && tag in KINDS
    ensures var base := Base(at, d, digest);
            NoBlocks([Spot(base, true)], PlacesAll(KindAt(base, tag, own), ds, digest), ext) <==>
            own || IndexFree(ds, ext, digest)
  {
    hide Component, Places, PlacesAll, Injective, NamedApart, IsDeep, Base;
    var base := Base(at, d, digest);
    var i := Spot(base, true);
    assert Trail(i) == base + ["index"];
    if own {
      forall r | r in PlacesAll(base + [tag], ds, digest)
        ensures !Blocks(Trail(i), Trail(r), ext)
      {
        KindNext(base, tag, ds, digest, r);
        assert r.place <= Trail(r) && Trail(r)[|base|] == tag;
        KindIsNoIndex(tag, ext);
      }
    } else {
      NamedParts(ds);
      forall y | y in ds
        ensures NoBlocks([i], Places(base, y, digest), ext) <==>
                !(IsDeep(y) && Component(y.name, digest) == "index" + ext)
      {
        IndexPair(base, y, ext, digest);
      }
      hide Blocks;
      forall s
        ensures s in PlacesAll(base, ds, digest) <==> exists x :: x in ds && s in Places(base, x, digest)
      {
        InAll(base, ds, digest, s);
      }
    }
  }

  lemma KindIsNoIndex(tag: string, ext: string)
    requires tag in KINDS
    ensures tag != "index" && tag != "index" + ext
  {
    assert ("index" + ext)[0] == 'i';
  }

  lemma IndexPair(base: seq<string>, y: Diagram, ext: string, digest: string -> string)
    requires ApartBelow(y) && y.name != "" && ext != ""
    ensures NoBlocks([Spot(base, true)], Places(base, y, digest), ext) <==>
            !(IsDeep(y) && Component(y.name, digest) == "index" + ext)
  {
    hide Component, Places, IsDeep, NamedApart, IsFile;
    var i := Spot(base, true);
    ComponentFree(y.name, digest);
    forall r | r in Places(base, y, digest)
      ensures Blocks(Trail(i), Trail(r), ext) ==> IsDeep(y) && Component(y.name, digest) == "index" + ext
    {
      TrailNext(base, y, digest, r);
      BlocksAt(Trail(i), Trail(r), base, ext);
    }
    if IsDeep(y) && Component(y.name, digest) == "index" + ext {
      DeepTrail(base, y, digest);
      var r :| r in Places(base, y, digest) && |base| + 1 < |Trail(r)| && base < Trail(r)
               && Trail(r)[|base|] == Component(y.name, digest);
      BlocksAt(Trail(i), Trail(r), base, ext);
      assert i in [i];
    }
  }

  lemma OwnBlocks(at: seq<string>, d: Diagram, ext: string, digest: string -> string)
    requires ApartBelow(d) && Injective(digest) && ext != "" && ext[0] == '.'
    ensures var g := GroupsOf(at, d, digest);
            NoBlocks(g.own, g.layers, ext) && NoBlocks(g.own, g.scenarios, ext) && NoBlocks(g.own, g.steps, ext) <==>
            !d.folderOnly ==> IndexFree(OnlyKind(d), ext, digest)
  {
    hide Component, PlacesAll, Injective, NamedApart, Base, Blocks, IsDeep, Places;
    if d.folderOnly {
      assert GroupsOf(at, d, digest).own == [];
    } else if HasKids(d) {
      IndexBlocks(at, d, d.layers, "layers", d.scenarios != [] || d.steps != [], ext, digest);
      IndexBlocks(at, d, d.scenarios, "scenarios", d.layers != [] || d.steps != [], ext, digest);
      IndexBlocks(at, d, d.steps, "steps", d.layers != [] || d.scenarios != [], ext, digest);
      assert IndexFree([], ext, digest);
    } else {
      NothingBelow(at, d, digest);
    }
  }

  lemma NothingBelow(at: seq<string>, d: Diagram, digest: string -> string)
    requires !HasKids(d)
    ensures var g := GroupsOf(at, d, digest); g.layers == g.scenarios == g.steps == []
  {
  }

  /** The files and directories of a board and all below it. */
  lemma {:induction false} BoardBlocks(at: seq<string>, d: Diagram, ext: string, digest: string -> string)
    requires Injective(digest) && ApartBelow(d) && ext != "" && ext[0] == '.'
    ensures NoBlocks(Places(at, d, digest), Places(at, d, digest), ext) <==> NoFileInTheWay(d, ext, digest)
    decreases d, 1
  {
    hide Component, PlacesAll, Injective, NamedApart, NoneInTheWay, IndexFree, Places;
    var base, g := Base(at, d, digest), GroupsOf(at, d, digest);
    ListBlocks(KindAt(base, "layers", d.scenarios != [] || d.steps != []), d.layers, ext, digest);
    ListBlocks(KindAt(base, "scenarios", d.layers != [] || d.steps != []), d.scenarios, ext, digest);
    ListBlocks(KindAt(base, "steps", d.layers != [] || d.scenarios != []), d.steps, ext, digest);
    OwnBlocks(at, d, ext, digest);
    GroupsAre(at, d, digest);
    hide Base, KindAt, OnlyKind, NoBlocks;
    GroupsBlock(g, base, ext);
  }

  lemma GroupsBlock(g: Groups, base: seq<string>, ext: string)
    requires ext != "" && forall s :: s in g.own ==> s.place == base
    requires IsGroup(g.layers, base, "layers", g.scenarios + g.steps != [])
    requires IsGroup(g.scenarios, base, "scenarios", g.layers + g.steps != [])
    requires IsGroup(g.steps, base, "steps", g.layers + g.scenarios != [])
    ensures var all := g.own + g.layers + g.scenarios + g.steps;
            NoBlocks(all, all, ext) <==>
            && NoBlocks(g.own, g.layers, ext) && NoBlocks(g.own, g.scenarios, ext) && NoBlocks(g.own, g.steps, ext)
            && NoBlocks(g.layers, g.layers, ext) && NoBlocks(g.scenarios, g.scenarios, ext) &&
               NoBlocks(g.steps, g.steps, ext)
  {
    hide Blocks;
    OwnFree(g.layers, g.own, base, "layers", g.scenarios + g.steps != [], ext);
    OwnFree(g.scenarios, g.own, base, "scenarios", g.layers + g.steps != [], ext);
    OwnFree(g.steps, g.own, base, "steps", g.layers + g.scenarios != [], ext);
    GroupsFree(g.layers, "layers", g.scenarios, "scenarios", base, ext);
    GroupsFree(g.layers, "layers", g.steps, "steps", base, ext);
    GroupsFree(g.scenarios, "scenarios", g.layers, "layers", base, ext);
    GroupsFree(g.scenarios, "scenarios", g.steps, "steps", base, ext);
    GroupsFree(g.steps, "steps", g.layers, "layers", base, ext);
    GroupsFree(g.steps, "steps", g.scenarios, "scenarios", base, ext);
    hide NoBlocks, IsGroup;
    var two, three := g.own + g.layers, g.own + g.layers + g.scenarios;
    FourSplit(g.own, g.layers, g.scenarios, g.steps, three + g.steps, ext);
    FourSplit(g.own, g.layers, g.scenarios, g.steps, g.own, ext);
    FourSplit(g.own, g.layers, g.scenarios, g.steps, g.layers, ext);
    FourSplit(g.own, g.layers, g.scenarios, g.steps, g.scenarios, ext);
    FourSplit(g.own, g.layers, g.scenarios, g.steps, g.steps, ext);
  }

  lemma FourSplit(a: seq<Spot>, b: seq<Spot>, c: seq<Spot>, d: seq<Spot>, e: seq<Spot>, ext: string)
    ensures NoBlocks(a + b + c + d, e, ext) <==>
            NoBlocks(a, e, ext) && NoBlocks(b, e, ext) && NoBlocks(c, e, ext) && NoBlocks(d, e, ext)
    ensures NoBlocks(e, a + b + c + d, ext) <==>
            NoBlocks(e, a, ext) && NoBlocks(e, b, ext) && NoBlocks(e, c, ext) && NoBlocks(e, d, ext)
  {
    hide NoBlocks;
    BlocksConcat(a, b, e, ext);
    BlocksConcat(a + b, c, e, ext);
    BlocksConcat(a + b + c, d, e, ext);
  }

  /** Only a root without a name and without boards below it goes no way at all. */
  lemma TrailNonempty(d: Diagram, digest: string -> string, s: Spot)
    requires ApartBelow(d) && (d.name != "" || HasKids(d)) && s in Places([], d, digest)
    ensures Trail(s) != []
  {
    hide Component, Places, NamedApart;
    PlacesBelow([], d, digest, s);
  }

  /**
   With an extension and names that differ among siblings, a new validation accepts the whole tree exactly when no board
   that needs a directory is called what a file beside it is called, extension included: a sibling's file, or the index
   of the board above.
   */
  lemma AcceptedIff(output: Path, d: Diagram, digest: string -> string)
    requires output != [] && ExtensionOf(output) != "" && Injective(digest)
    requires NamedApart(d.layers) && NamedApart(d.scenarios) && NamedApart(d.steps)
    ensures Accepts({}, Outputs(output, d, digest)) <==> NoFileInTheWay(d, ExtensionOf(output), digest)
  {
    hide Injective, Accepts, NamedApart, Clash, NoFileInTheWay, Outputs, Places, Distinct, ExtensionOf, Lies, Stem;
    var qs, ss, ext := Outputs(output, d, digest), Places([], d, digest), ExtensionOf(output);
    LastExtension(output);
    AcceptsIffApart({}, qs);
    BoardBlocks([], d, ext, digest);
    if d.name == "" && !HasKids(d) {
      RootAlone(output, d, digest, ext);
    } else {
      LiesHere(output);
      OutputsMatch(output, [], output, d, digest);
      BoardDistinct([], d, digest);
      MatchedApart(output, qs, ss, d, digest);
    }
  }

  lemma LastExtension(p: Path)
    requires p != []
    ensures ExtensionOf(p) != "" ==> ExtensionOf(p)[0] == '.'
  {
    ExtIsSuffix(p[|p| - 1]);
  }

  lemma RootAlone(p: Path, d: Diagram, digest: string -> string, ext: string)
    requires p != [] && d.name == "" && !HasKids(d) && ext != ""
    ensures |Outputs(p, d, digest)| <= 1 && NoFileInTheWay(d, ext, digest)
  {
    NoBoards(p, digest);
  }

  lemma MatchedApart(p: Path, qs: seq<Path>, ss: seq<Spot>, d: Diagram, digest: string -> string)
    requires p != [] && Match(p, qs, ss) && Distinct(ss) && ss == Places([], d, digest)
    requires ApartBelow(d) && (d.name != "" || HasKids(d))
    ensures (forall i, j :: 0 <= i < j < |qs| ==> !Clash(qs[i], qs[j])) <==> NoBlocks(ss, ss, ExtensionOf(p))
  {
    hide Places, NamedApart, FromTrail, ExtensionOf, Blocks, Trail, Proper;
    RootProper();
    PlacesProper([], d, digest);
    forall i, j | 0 <= i < |ss| && 0 <= j < |ss| && i != j
      ensures Trail(ss[i]) != Trail(ss[j])
      ensures qs[i] <= qs[j] <==> Blocks(Trail(ss[i]), Trail(ss[j]), ExtensionOf(p))
    {
      TrailNonempty(d, digest, ss[i]);
      TrailNonempty(d, digest, ss[j]);
      TrailTells(ss[i], ss[j]);
      PrefixIffBlocks(p, Trail(ss[i]), Trail(ss[j]));
    }
    NoneBlocksItself(ss, ExtensionOf(p));
    PairsOf(qs, ss, ExtensionOf(p));
  }

  lemma NoneBlocksItself(ss: seq<Spot>, ext: string)
    ensures forall s :: s in ss ==> !Blocks(Trail(s), Trail(s), ext)
  {
  }

  lemma PairsOf(qs: seq<Path>, ss: seq<Spot>, ext: string)
    requires |qs| == |ss|
    requires forall i, j :: 0 <= i < |ss| && 0 <= j < |ss| && i != j ==>
               (qs[i] <= qs[j] <==> Blocks(Trail(ss[i]), Trail(ss[j]), ext))
    requires forall s :: s in ss ==> !Blocks(Trail(s), Trail(s), ext)
    ensures (forall i, j :: 0 <= i < j < |qs| ==> !Clash(qs[i], qs[j])) <==> NoBlocks(ss, ss, ext)
  {
    hide Blocks, Trail;
    if NoBlocks(ss, ss, ext) {
      forall i, j | 0 <= i < j < |qs|
        ensures !Clash(qs[i], qs[j])
      {
        assert ss[i] in ss && ss[j] in ss;
      }
    }
    if forall i, j :: 0 <= i < j < |qs| ==> !Clash(qs[i], qs[j]) {
      forall s, r | s in ss && r in ss
        ensures !Blocks(Trail(s), Trail(r), ext)
      {
        var i :| 0 <= i < |ss| && ss[i] == s;
        var j :| 0 <= j < |ss| && ss[j] == r;
        if i < j {
          assert !Clash(qs[i], qs[j]);
        } else if j < i {
          assert !Clash(qs[j], qs[i]);
        }
      }
    }
  }

  // ----- examples -----

  /** A board without children. */
  function Leaf(name: string): Diagram {
    Diagram(name, false, [], [], [])
  }

  /** A board with one layer. */
  function Over(name: string, layer: string): Diagram {
    Diagram(name, false, [Leaf(layer)], [], [])
  }

  lemma OutputsOver(p: Path, name: string, layer: string, digest: string -> string)
    requires p != [] && name != "" && layer != ""
    ensures var base := Append(p, Component(name, digest));
            Outputs(p, Over(name, layer), digest) == [Append(base, "index"), Append(base, Component(layer, digest))]
  {
    hide Append, Component;
    var base := Append(p, Component(name, digest));
    assert [Leaf(layer)][..0] == [] && OutputsAll(base, [], digest) == [];
    assert Outputs(base, Leaf(layer), digest) == [Append(base, Component(layer, digest))];
    assert OutputsAll(base, [Leaf(layer)], digest) == [] + Outputs(base, Leaf(layer), digest);
  }

  predicate IsOrdinary(name: string) {
    && 0 < |name| <= 5 && |name| != 2 && name[0] in "acxy" && (|name| > 1 ==> name[1] == '.')
    && (forall i :: 1 < i < |name| ==> name[i] in "bcsvg")
  }

  lemma NotReserved(name: string)
    requires IsOrdinary(name)
    ensures !IsReservedComponent(name)
  {
    var lower := K.Lower(name);
    assert |lower| <= 5 && lower[0] in "acxy" && lower[0] != PREFIX[0];
    assert |MANIFEST_NAME| > 5 && |"steps"| == 5 && "steps"[0] == 's' && "index"[0] == 'i';
  }

  lemma Portable(name: string)
    requires IsOrdinary(name)
    ensures IsPortable(name)
  {
    assert DeviceBase(name) == [name[0]] by {
      assert |name| > 1 ==> name[1..][0] == '.';
    }
    var base := K.Upper(TrimSpaces([name[0]]));
    assert |base| == 1 && base !in DEVICES;
  }

  lemma OrdinaryName(name: string, digest: string -> string)
    requires IsOrdinary(name)
    ensures Component(name, digest) == name
  {
    hide IsReservedComponent, IsPortable, IsOrdinary;
    NotReserved(name);
    Portable(name);
  }

  lemma OrdinaryNames(digest: string -> string)
    ensures forall name :: name in {"a", "c", "x", "y", "a.b", "c.b", "x.svg"} ==> Component(name, digest) == name
  {
    hide Component;
    forall name | name in {"a", "c", "x", "y", "a.b", "c.b", "x.svg"}
      ensures Component(name, digest) == name
    {
      OrdinaryName(name, digest);
    }
  }

  /**
   Without an extension, what follows a dot in a board's name is taken for one: a board "c" below "a.b" and a board
   "c.b" below "a" have one output, in a tree whose siblings all have names of their own.
   */
  lemma NoExtensionCollides(digest: string -> string)
    ensures var d := Diagram("", false, [Over("a.b", "c"), Over("a", "c.b")], [], []);
            && ExtensionOf(["out"]) == "" && NamedApart(d.layers) && NamedApart(d.scenarios) && NamedApart(d.steps)
            && !Distinct(Outputs(["out"], d, digest))
  {
    hide Component, Append, Outputs, Stem, NamedApart, ExtensionOf;
    var p := ["out"];
    TwoApart(Over("a.b", "c"), Over("a", "c.b"));
    OrdinaryNames(digest);
    ChainsMeet();
    TwoLayers(p, Over("a.b", "c"), Over("a", "c.b"), digest);
    OutputsOver(p, "a.b", "c", digest);
    OutputsOver(p, "a", "c.b", digest);
    var all := Outputs(p, Diagram("", false, [Over("a.b", "c"), Over("a", "c.b")], [], []), digest);
    assert all[2] == all[4];
  }

  lemma LeavesApart(ds: seq<Diagram>)
    requires |ds| <= 1 && forall d :: d in ds ==> d == Leaf(d.name) && d.name != ""
    ensures NamedApart(ds)
  {
  }

  lemma TwoApart(one: Diagram, two: Diagram)
    requires one.name != "" && two.name != "" && one.name != two.name
    requires one.scenarios == one.steps == two.scenarios == two.steps == [] && |one.layers| <= 1 && |two.layers| <= 1
    requires forall d :: d in one.layers + two.layers ==> d == Leaf(d.name) && d.name != ""
    ensures NamedApart([one, two]) && NamedApart([])
  {
    LeavesApart(one.layers);
    LeavesApart(two.layers);
    LeavesApart([]);
  }

  lemma TwoLayers(p: Path, one: Diagram, two: Diagram, digest: string -> string)
    requires p != []
    ensures Outputs(p, Diagram("", false, [one, two], [], []), digest) ==
            [Append(p, "index")] + Outputs(p, one, digest) + Outputs(p, two, digest)
  {
    hide Append, Outputs;
    var ds := [one, two];
    LayersOnly(p, ds, digest);
    NoBoards(p, digest);
    OutputsMore(p, ds, digest, 0);
    OutputsMore(p, ds, digest, 1);
    assert ds[..0] == [] && ds[..2] == ds;
  }

  lemma LayersOnly(p: Path, ds: seq<Diagram>, digest: string -> string)
    requires p != [] && ds != []
    ensures Outputs(p, Diagram("", false, ds, [], []), digest) == [Append(p, "index")] + OutputsAll(p, ds, digest)
  {
    hide Append, OutputsAll;
    NoBoards(Append(p, "scenarios"), digest);
    NoBoards(Append(p, "steps"), digest);
  }

  lemma ChainsMeet()
    ensures Append(Append(["out"], "a.b"), "c") == Append(Append(["out"], "a"), "c.b") && ExtensionOf(["out"]) == ""
  {
    NoDotNoExt("out");
    NoDotNoExt("a");
    assert Ext("a.b") == ".b" by {
      assert "a.b"[..2] == "a.";
    }
    assert "out"[..3] == "out" && "a.b"[..1] == "a" && "a"[..1] == "a";
    assert "a.b" + "" == "a.b" && "a" + "" == "a" && "c.b" + "" == "c.b" && "c" + ".b" == "c.b";
    assert Append(["out"], "a.b") == ["out", "a.b"] && Append(["out"], "a") == ["out", "a"];
    assert ["out", "a.b"][..1] == ["out"] && ["out", "a"][..1] == ["out"];
  }

  /** A board "x" is a file where a board "x.svg" with a board below it needs a directory. */
  lemma SuffixClashes(digest: string -> string)
    ensures var d := Diagram("", false, [Leaf("x"), Over("x.svg", "y")], [], []);
            && NamedApart(d.layers) && NamedApart(d.scenarios) && NamedApart(d.steps)
            && !Accepts({}, Outputs(["out.svg"], d, digest))
  {
    hide Component, Append, Outputs, Stem, Accepts, NamedApart;
    var p := ["out.svg"];
    var d := Diagram("", false, [Leaf("x"), Over("x.svg", "y")], [], []);
    TwoApart(Leaf("x"), Over("x.svg", "y"));
    OrdinaryNames(digest);
    TwoLayers(p, Leaf("x"), Over("x.svg", "y"), digest);
    OutputsLeaf(p, "x", digest);
    OutputsOver(p, "x.svg", "y", digest);
    FileInTheWay("x");
    assert "x" + ".svg" == "x.svg";
    var all := Outputs(p, d, digest);
    assert all[1] == Append(p, "x") && all[2] == Append(Append(p, "x.svg"), "index");
    AcceptsIffApart({}, all);
  }

  lemma OutputsLeaf(p: Path, name: string, digest: string -> string)
    requires p != [] && name != ""
    ensures Outputs(p, Leaf(name), digest) == [Append(p, Component(name, digest))]
  {
    hide Append, Component;
    NoBoards(Append(p, Component(name, digest)), digest);
  }

  lemma AppendShape(front: Path, c: string, ext: string, component: string)
    requires IsExtension(ext) && c != ""
    ensures Append(front + [c + ext], component) == front + [c, component + ext]
  {
    hide IsExtension, Ext;
    ExtOf(c, ext);
    var p := front + [c + ext];
    assert (c + ext)[..|c|] == c && p[..|p| - 1] == front;
  }

  lemma FileInTheWay(c: string)
    requires c != ""
    ensures Clash(Append(["out.svg"], c), Append(Append(["out.svg"], c + ".svg"), "index"))
  {
    hide Append, Stem, Ext;
    AppendShape([], "out", ".svg", c);
    AppendShape([], "out", ".svg", c + ".svg");
    AppendShape(["out"], c + ".svg", ".svg", "index");
    assert "out" + ".svg" == "out.svg" && [] + ["out.svg"] == ["out.svg"];
    assert [] + ["out", c + ".svg" + ".svg"] == ["out"] + [c + ".svg" + ".svg"];
    assert ["out"] + [c + ".svg", "index" + ".svg"] == ["out", c + ".svg"] + ["index" + ".svg"];
    assert [] + ["out", c + ".svg"] == ["out", c + ".svg"];
  }

  lemma {:induction false} DeviceBaseIs(s: string, n: nat)
    requires n < |s| && s[n] == '.' && forall i :: 0 <= i < n ==> s[i] != '.' && s[i] != ':'
    ensures DeviceBase(s) == s[..n]
    decreases n
  {
    if n > 0 {
      DeviceBaseIs(s[1..], n - 1);
      assert s[..n] == [s[0]] + s[1..][..n - 1];
    }
  }

  lemma IndexReserved()
    ensures !IsReservedComponent("index.svg")
  {
    var lower := K.Lower("index.svg");
    assert |lower| == 9 && lower[0] == 'i' && lower[5] == '.';
    assert |MANIFEST_NAME| > 9 && "scenarios"[0] == 's';
  }

  lemma IndexDevice()
    ensures K.Upper(TrimSpaces(DeviceBase("index.svg"))) !in DEVICES
  {
    DeviceBaseIs("index.svg", 5);
    var base := "index.svg"[..5];
    hide DeviceBase;
    assert TrimSpaces(base) == base;
    assert K.Upper(base)[0] == 'I';
  }

  lemma IndexName(digest: string -> string)
    ensures Component("index.svg", digest) == "index.svg"
  {
    hide IsReservedComponent, DeviceBase, TrimSpaces, K.Upper, DEVICES;
    IndexReserved();
    IndexDevice();
  }

  /** A root's index is a file where a board "index.svg" with a board below it needs a directory. */
  lemma IndexClashes(digest: string -> string)
    ensures var d := Diagram("", false, [Over("index.svg", "y")], [], []);
            && NamedApart(d.layers) && NamedApart(d.scenarios) && NamedApart(d.steps)
            && !Accepts({}, Outputs(["out.svg"], d, digest))
  {
    hide Component, Append, Outputs, Stem, Accepts;
    var p, ds := ["out.svg"], [Over("index.svg", "y")];
    LeavesApart(ds[0].layers);
    LeavesApart([]);
    IndexName(digest);
    LayersOnly(p, ds, digest);
    NoBoards(p, digest);
    OutputsMore(p, ds, digest, 0);
    assert ds[..0] == [] && ds[..1] == ds;
    OutputsOver(p, "index.svg", "y", digest);
    FileInTheWay("index");
    assert "index" + ".svg" == "index.svg";
    var all := Outputs(p, Diagram("", false, ds, [], []), digest);
    assert all[0] == Append(p, "index") && all[1] == Append(Append(p, "index.svg"), "index");
    AcceptsIffApart({}, all);
  }
}

/** Boards with their layers, scenarios and steps are compiled one by one, handing geometry along. */
module BoardCompile {
  import opened Bytes
  import opened Options
  import opened LayoutSignature
  import opened LayoutInputs
  import opened LayoutReuse

  datatype Board = Board(graph: Graph, layers: seq<Board>, scenarios: seq<Board>, steps: seq<Board>)

  datatype Diagram = Diagram(graph: Graph, layers: seq<Diagram>, scenarios: seq<Diagram>, steps: seq<Diagram>)

  /**
   The choices of one compilation. `resolves` says whether an engine and an edge router are found; `cancelled` whether
   the context is; a layout sees that and the whole board, and fails with None.
   */
  datatype Setup = Setup(reuse: bool, engine: Text, resolves: bool, cancelled: bool,
                         layout: (bool, Graph) -> Option<Graph>)

  // ----- what is taken for granted of a layout engine -----

  predicate ObjectMoved(o: Object, r: Object) {
    r == o.(box := r.box, labelPosition := r.labelPosition, iconPosition := r.iconPosition)
  }

  predicate EdgeMoved(e: Edge, r: Edge) {
    r == e.(route := r.route, labelPosition := r.labelPosition, labelPercentage := r.labelPercentage,
            isCurve := r.isCurve)
  }

  /** The same board, but for where its objects and edges are. */
  predicate OnlyMoved(g: Graph, r: Graph) {
    && r.rootLevel == g.rootLevel && ObjectMoved(g.root, r.root)
    && |r.objects| == |g.objects| && |r.edges| == |g.edges|
    && (forall i :: 0 <= i < |g.objects| ==> ObjectMoved(g.objects[i], r.objects[i]))
    && (forall i :: 0 <= i < |g.edges| ==> EdgeMoved(g.edges[i], r.edges[i]))
  }

  predicate ObjectPlacedAlike(r: Object, r': Object) {
    r.box == r'.box && r.labelPosition == r'.labelPosition && r.iconPosition == r'.iconPosition
  }

  predicate EdgePlacedAlike(r: Edge, r': Edge) {
    && r.route == r'.route && r.labelPosition == r'.labelPosition && r.labelPercentage == r'.labelPercentage
    && r.isCurve == r'.isCurve
  }

  /** Objects and edges at the same places in their lists have the same geometry. */
  predicate PlacedAlike(r: Graph, r': Graph) {
    && ObjectPlacedAlike(r.root, r'.root) && |r.objects| == |r'.objects| && |r.edges| == |r'.edges|
    && (forall i :: 0 <= i < |r.objects| ==> ObjectPlacedAlike(r.objects[i], r'.objects[i]))
    && (forall i :: 0 <= i < |r.edges| ==> EdgePlacedAlike(r.edges[i], r'.edges[i]))
  }

  /** A layout that succeeds decides where things are, and nothing else. */
  predicate OnlyPlaces(setup: Setup, g: Graph) {
    var r := setup.layout(setup.cancelled, g);
    r.Some? ==> OnlyMoved(g, r.value)
  }

  /** The built-in engines do not look at what only rendering uses. */
  predicate IgnoresLooks(setup: Setup, g: Graph, g': Graph) {
    Supports(g, setup.engine) && Supports(g', setup.engine) && AgreeButLooks(g, g') ==>
      var r, r' := setup.layout(setup.cancelled, g), setup.layout(setup.cancelled, g');
      r.Some? == r'.Some? && (r.Some? ==> PlacedAlike(r.value, r'.value))
  }

  ghost predicate Sound(setup: Setup) {
    && (forall g: Graph :: OnlyPlaces(setup, g))
    && (forall g: Graph, g': Graph :: IgnoresLooks(setup, g, g'))
  }

  // ----- laying every board out afresh -----

  function LaidOut(setup: Setup, g: Graph): Option<Graph> {
    if g.objects == [] then Some(g)
    else if !setup.resolves then None
    else setup.layout(setup.cancelled, g)
  }

  function Fresh(setup: Setup, b: Board): Option<Diagram>
    decreases b, 1
  {
    var g := LaidOut(setup, b.graph);
    var layers := FreshAll(setup, b.layers);
    var scenarios := FreshAll(setup, b.scenarios);
    var steps := FreshAll(setup, b.steps);
    if g.Some? && layers.Some? && scenarios.Some? && steps.Some? then
      Some(Diagram(g.value, layers.value, scenarios.value, steps.value))
    else None
  }

  function FreshAll(setup: Setup, bs: seq<Board>): (r: Option<seq<Diagram>>)
    decreases bs, 0
  {
    if bs == [] then Some([])
    else
      var init := FreshAll(setup, bs[..|bs| - 1]);
      var last := Fresh(setup, bs[|bs| - 1]);
      if init.Some? && last.Some? then Some(init.value + [last.value]) else None
  }

  lemma FreshPrefix(setup: Setup, bs: seq<Board>, i: nat)
    requires i < |bs|
    ensures FreshAll(setup, bs[..i + 1]) ==
            var init, last := FreshAll(setup, bs[..i]), Fresh(setup, bs[i]);
            if init.Some? && last.Some? then Some(init.value + [last.value]) else None
  {
    assert bs[..i + 1][..i] == bs[..i];
  }

  /** One failed board fails the list. */
  lemma {:induction false} FreshFails(setup: Setup, bs: seq<Board>, i: nat)
    requires i <= |bs| && FreshAll(setup, bs[..i]).None?
    ensures FreshAll(setup, bs).None?
    decreases |bs| - i
  {
    if i < |bs| {
      FreshPrefix(setup, bs, i);
      FreshFails(setup, bs, i + 1);
    } else {
      assert bs[..i] == bs;
    }
  }

  // ----- replaying -----

  /** Captured from a board this engine laid out, under that board's signature. */
  ghost predicate Trusted(setup: Setup, geometry: Option<Geometry>) {
    geometry.Some? ==> exists g: Graph :: CapturedFrom(setup, g, geometry.value)
  }

  predicate CapturedFrom(setup: Setup, g: Graph, geometry: Geometry) {
    && setup.resolves && Supports(g, setup.engine)
    && var r := setup.layout(setup.cancelled, g);
       r.Some? && geometry == Captured(r.value, Signature(setup.engine, g))
  }

  /** As many keys as objects: every object has its own. */
  lemma {:induction false} ObjectMapHas(os: seq<Object>, i: nat)
    requires i < |os| && |ObjectMap(os)| == |os|
    ensures os[i].absID in ObjectMap(os) && ObjectMap(os)[os[i].absID] == ObjectGeometryOf(os[i])
  {
    var n := |os| - 1;
    var m := ObjectMap(os[..n]);
    ObjectMapSize(os[..n]);
    assert ObjectMap(os).Keys == m.Keys + {os[n].absID};
    if i < n {
      assert os[n].absID !in m;
      ObjectMapKeys(os[..n]);
      ObjectMapHas(os[..n], i);
    }
  }

  lemma {:induction false} ObjectMapSize(os: seq<Object>)
    ensures |ObjectMap(os)| <= |os|
  {
    if os != [] {
      var n := |os| - 1;
      ObjectMapSize(os[..n]);
      assert ObjectMap(os).Keys == ObjectMap(os[..n]).Keys + {os[n].absID};
    }
  }

  lemma {:induction false} ObjectMapKeys(os: seq<Object>)
    ensures forall i :: 0 <= i < |os| ==> os[i].absID in ObjectMap(os)
  {
    if os != [] {
      ObjectMapKeys(os[..|os| - 1]);
      assert os == os[..|os| - 1] + [os[|os| - 1]];
    }
  }

  lemma {:induction false} EdgeMapHas(es: seq<Edge>, i: nat)
    requires i < |es| && |EdgeMap(es)| == |es|
    ensures es[i].absID in EdgeMap(es) && EdgeMap(es)[es[i].absID] == EdgeGeometryOf(es[i])
  {
    var n := |es| - 1;
    var m := EdgeMap(es[..n]);
    EdgeMapSize(es[..n]);
    assert EdgeMap(es).Keys == m.Keys + {es[n].absID};
    if i < n {
      assert es[n].absID !in m;
      EdgeMapKeys(es[..n]);
      EdgeMapHas(es[..n], i);
    }
  }

  lemma {:induction false} EdgeMapSize(es: seq<Edge>)
    ensures |EdgeMap(es)| <= |es|
  {
    if es != [] {
      var n := |es| - 1;
      EdgeMapSize(es[..n]);
      assert EdgeMap(es).Keys == EdgeMap(es[..n]).Keys + {es[n].absID};
    }
  }

  lemma {:induction false} EdgeMapKeys(es: seq<Edge>)
    ensures forall i :: 0 <= i < |es| ==> es[i].absID in EdgeMap(es)
  {
    if es != [] {
      EdgeMapKeys(es[..|es| - 1]);
      assert es == es[..|es| - 1] + [es[|es| - 1]];
    }
  }

  /** Replaying geometry captured under the same signature is laying the board out. */
  lemma ReplayIsLayout(setup: Setup, g: Graph, geometry: Geometry)
    requires Sound(setup) && Trusted(setup, Some(geometry)) && g.objects != [] && Supports(g, setup.engine)
    requires CanReplay(Some(geometry), g, Signature(setup.engine, g))
    ensures LaidOut(setup, g) == Some(Placed(g, PlacementOf(geometry, g)))
  {
    hide Signature, Supports, AgreeButLooks, OnlyMoved, PlacedAlike, Placed, PlacementOf, CanReplay, Captured;
    var g0: Graph :| CapturedFrom(setup, g0, geometry);
    SignatureMatches(Some(geometry), g, Signature(setup.engine, g));
    CapturedSignature(setup.layout(setup.cancelled, g0).value, Signature(setup.engine, g0));
    SameSignature(setup.engine, g, setup.engine, g0);
    assert OnlyPlaces(setup, g) && OnlyPlaces(setup, g0) && IgnoresLooks(setup, g, g0);
    var r, r0 := setup.layout(setup.cancelled, g).value, setup.layout(setup.cancelled, g0).value;
    SameIDs(g, g0, r0);
    PlacementRestored(g, r, r0, geometry);
  }

  lemma CapturedSignature(r: Graph, signature: seq<byte>)
    ensures Captured(r, signature).signature == signature
  {
  }

  /** A board that agrees with the one laid out has its IDs, at the same places. */
  lemma SameIDs(g: Graph, g0: Graph, r0: Graph)
    requires AgreeButLooks(g, g0) && OnlyMoved(g0, r0)
    ensures |g.objects| == |r0.objects| && |g.edges| == |r0.edges|
    ensures forall i :: 0 <= i < |g.objects| ==> g.objects[i].absID == r0.objects[i].absID
    ensures forall i :: 0 <= i < |g.edges| ==> g.edges[i].absID == r0.edges[i].absID
  {
    forall i | 0 <= i < |g.objects|
      ensures g.objects[i].absID == r0.objects[i].absID
    {
      assert LooksAside(g.objects[i], g0.objects[i]) && ObjectMoved(g0.objects[i], r0.objects[i]);
    }
    forall i | 0 <= i < |g.edges|
      ensures g.edges[i].absID == r0.edges[i].absID
    {
      assert EdgeLooksAside(g.edges[i], g0.edges[i]) && EdgeMoved(g0.edges[i], r0.edges[i]);
    }
  }

  /** What was captured from one board and is put on another makes it the board its own layout would have made it. */
  lemma PlacementRestored(g: Graph, r: Graph, r0: Graph, geometry: Geometry)
    requires OnlyMoved(g, r) && PlacedAlike(r, r0)
    requires forall i :: 0 <= i < |g.objects| ==> g.objects[i].absID == r0.objects[i].absID
    requires forall i :: 0 <= i < |g.edges| ==> g.edges[i].absID == r0.edges[i].absID
    requires CanReplay(Some(geometry), g, geometry.signature)
    requires geometry == Captured(r0, geometry.signature)
    ensures Placed(g, PlacementOf(geometry, g)) == r
  {
    hide ObjectMap, EdgeMap;
    var placed := Placed(g, PlacementOf(geometry, g));
    assert ObjectMoved(g.root, r.root) && ObjectPlacedAlike(r.root, r0.root);
    assert placed.root == r.root;
    forall i | 0 <= i < |g.objects|
      ensures placed.objects[i] == r.objects[i]
    {
      ObjectMapHas(r0.objects, i);
      assert ObjectMoved(g.objects[i], r.objects[i]) && ObjectPlacedAlike(r.objects[i], r0.objects[i]);
    }
    forall i | 0 <= i < |g.edges|
      ensures placed.edges[i] == r.edges[i]
    {
      EdgeMapHas(r0.edges, i);
      assert EdgeMoved(g.edges[i], r.edges[i]) && EdgePlacedAlike(r.edges[i], r0.edges[i]);
    }
    assert placed.objects == r.objects && placed.edges == r.edges;
  }

  /** Lays a board out, or takes the geometry handed along when its signature is the same. */
  method LayOut(setup: Setup, graph: Graph, reuse: Option<Geometry>, wanted: bool)
        returns (g: Option<Graph>, geometry: Option<Geometry>)
    requires Sound(setup) && Trusted(setup, reuse)
    ensures g == LaidOut(setup, graph)
    ensures Trusted(setup, geometry)
  {
    hide Signature, Sound, Captured, Supports, CanReplay, Placed, PlacementOf;
    geometry := None;
    if graph.objects == [] {
      return Some(graph), None;
    }
    var needsGeometry := setup.reuse && (reuse.Some? || wanted);
    var signature: seq<byte> := [];
    var reusable := false;
    if needsGeometry {
      signature, reusable := NewLayoutInputSignature(graph, setup.engine);
    }
    var live := new LiveGraph(graph);
    var reused := false;
    if !setup.cancelled && reusable && setup.reuse {
      reused := live.Apply(reuse, signature);
    }
    if reused {
      SignatureMatches(reuse, graph, signature);
      ReplayIsLayout(setup, graph, reuse.value);
      TrustedResolves(setup, reuse.value);
      g := Some(live.Now());
    } else {
      if !setup.resolves {
        return None, None;
      }
      g := setup.layout(setup.cancelled, graph);
      if g.None? {
        return;
      }
    }
    if reusable && wanted {
      var captured := CaptureLayoutGeometry(g.value, signature);
      CapturedIsTrusted(setup, graph, g.value, captured);
      geometry := Some(captured);
    }
  }

  lemma SignatureMatches(geometry: Option<Geometry>, g: Graph, signature: seq<byte>)
    requires CanReplay(geometry, g, signature)
    ensures geometry.Some? && geometry.value.signature == signature
  {
  }

  lemma TrustedResolves(setup: Setup, geometry: Geometry)
    requires Trusted(setup, Some(geometry))
    ensures setup.resolves
  {
    var g: Graph :| CapturedFrom(setup, g, geometry);
  }

  lemma CapturedIsTrusted(setup: Setup, graph: Graph, laid: Graph, geometry: Geometry)
    requires graph.objects != [] && LaidOut(setup, graph) == Some(laid) && Supports(graph, setup.engine)
    requires geometry == Captured(laid, Signature(setup.engine, graph)) && setup.resolves
    ensures Trusted(setup, Some(geometry))
  {
    hide Signature, Captured, Supports;
    assert CapturedFrom(setup, graph, geometry);
  }

  /**
   The compilation of a tree of boards. Layers start anew, scenarios take their parent's geometry, and each step that of
   the step before it. Whatever is handed along, the outcome, failures included, is that of laying every board out
   afresh.
   */
  method CompileBoard(setup: Setup, b: Board, reuse: Option<Geometry>, captureForCaller: bool)
      returns (d: Option<Diagram>, geometry: Option<Geometry>)
    requires Sound(setup) && Trusted(setup, reuse)
    ensures d == Fresh(setup, b)
    ensures Trusted(setup, geometry)
    decreases b
  {
    hide Sound, Trusted, LaidOut;
    var g;
    g, geometry := LayOut(setup, b.graph, reuse, captureForCaller || b.scenarios != [] || b.steps != []);
    d := None;
    if g.None? {
      return;
    }
    NothingTrusted(setup);
    var layers: seq<Diagram> := [];
    var i := 0;
    while i < |b.layers|
      invariant i <= |b.layers| && FreshAll(setup, b.layers[..i]) == Some(layers)
    {
      var ld, _ := CompileBoard(setup, b.layers[i], None, false);
      FreshPrefix(setup, b.layers, i);
      if ld.None? {
        FreshFails(setup, b.layers, i + 1);
        return;
      }
      layers := layers + [ld.value];
      i := i + 1;
    }
    assert b.layers[..i] == b.layers;
    var scenarios: seq<Diagram> := [];
    i := 0;
    while i < |b.scenarios|
      invariant i <= |b.scenarios| && FreshAll(setup, b.scenarios[..i]) == Some(scenarios)
    {
      var ld, _ := CompileBoard(setup, b.scenarios[i], geometry, false);
      FreshPrefix(setup, b.scenarios, i);
      if ld.None? {
        FreshFails(setup, b.scenarios, i + 1);
        return;
      }
      scenarios := scenarios + [ld.value];
      i := i + 1;
    }
    assert b.scenarios[..i] == b.scenarios;
    var steps: seq<Diagram> := [];
    var previous := geometry;
    i := 0;
    while i < |b.steps|
      invariant i <= |b.steps| && FreshAll(setup, b.steps[..i]) == Some(steps)
      invariant Trusted(setup, previous)
    {
      var ld, stepGeometry := CompileBoard(setup, b.steps[i], previous, i + 1 < |b.steps|);
      FreshPrefix(setup, b.steps, i);
      if ld.None? {
        FreshFails(setup, b.steps, i + 1);
        return;
      }
      steps := steps + [ld.value];
      previous := stepGeometry;
      i := i + 1;
    }
    assert b.steps[..i] == b.steps;
    d := Some(Diagram(g.value, layers, scenarios, steps));
  }

  lemma NothingTrusted(setup: Setup)
    ensures Trusted(setup, None)
  {
  }
}

/** The signature builder, and geometry captured from one board and replayed on the next. */
module LayoutReuse {
  import opened Bytes
  import opened Options
  import opened LayoutSignature
  import opened LayoutInputs

  // ----- the signature builder -----

  /** `written` lists the values whose encodings the buffer holds. */
  class Builder {
    var buffer: seq<byte>
    ghost var written: seq<Value>

    ghost predicate Valid()
      reads this
    {
      buffer == EncodeAll(written)
    }

    constructor ()
      ensures Valid() && written == []
    {
      buffer, written := [], [];
    }

    method WriteFlag(on: bool)
      requires Valid()
      modifies this
      ensures Valid() && written == old(written) + [Flag(on)]
    {
      EncodeAppend(written, Flag(on));
      if on {
        buffer := buffer + [1];
      } else {
        buffer := buffer + [0];
      }
      written := written + [Flag(on)];
    }

    method WriteWord(w: Word)
      requires Valid()
      modifies this
      ensures Valid() && written == old(written) + [Number(w)]
    {
      EncodeAppend(written, Number(w));
      var scratch: seq<byte> := [];
      var rest: nat := w;
      var i := 0;
      while i < 8
        invariant i <= 8 && scratch + Little(rest, 8 - i) == WordBytes(w)
      {
        assert Little(rest, 8 - i) == [(rest % 256) as byte] + Little(rest / 256, 8 - i - 1);
        scratch := scratch + [(rest % 256) as byte];
        rest := rest / 256;
        i := i + 1;
      }
      assert scratch == WordBytes(w);
      buffer := buffer + scratch;
      written := written + [Number(w)];
    }

    method WriteInt(i: Int64)
      requires Valid()
      modifies this
      ensures Valid() && written == old(written) + [Int(i)]
    {
      WriteWord(IntWord(i));
    }

    method WriteText(text: Text)
      requires Valid()
      modifies this
      ensures Valid() && written == old(written) + [Bytes(text)]
    {
      hide WordBytes;
      ghost var before := written;
      WriteWord(|text|);
      EncodeAppend(before, Number(|text|));
      EncodeAppend(before, Bytes(text));
      buffer := buffer + text;
      written := before + [Bytes(text)];
    }

    /** The parts written since `before` are read as one value from now on. */
    ghost method Group(before: seq<Value>, parts: seq<Value>, whole: Value)
      requires Valid() && written == before + parts && EncodeAll(parts) == Encode(whole)
      modifies this`written
      ensures Valid() && written == before + [whole]
    {
      Regroup(before, parts, whole);
      written := before + [whole];
    }

    method WriteMaybeText(o: Option<Text>)
      requires Valid()
      modifies this
      ensures Valid() && written == old(written) + [MaybeText(o)]
    {
      hide Encode, EncodeAll, Valid;
      ghost var before := written;
      WriteFlag(o.Some?);
      if o.Some? {
        WriteText(o.value);
      }
      MaybeParts(MaybeText(o).value);
      Group(before, if o.Some? then [Flag(true), Bytes(o.value)] else [Flag(false)], MaybeText(o));
    }

    method WriteMaybeFloat(o: Option<Float>)
      requires Valid()
      modifies this
      ensures Valid() && written == old(written) + [MaybeFloat(o)]
    {
      hide Encode, EncodeAll, Valid;
      ghost var before := written;
      WriteFlag(o.Some?);
      if o.Some? {
        WriteWord(o.value);
      }
      MaybeParts(MaybeFloat(o).value);
      Group(before, if o.Some? then [Flag(true), Number(o.value)] else [Flag(false)], MaybeFloat(o));
    }

    method WriteMaybeInt(o: Option<Int64>)
      requires Valid()
      modifies this
      ensures Valid() && written == old(written) + [MaybeInt(o)]
    {
      hide Encode, EncodeAll, Valid;
      ghost var before := written;
      WriteFlag(o.Some?);
      if o.Some? {
        WriteInt(o.value);
      }
      MaybeParts(MaybeInt(o).value);
      Group(before, if o.Some? then [Flag(true), Int(o.value)] else [Flag(false)], MaybeInt(o));
    }

    method WriteTexts(texts: Vec<Text>)
      requires Valid()
      modifies this
      ensures Valid() && written == old(written) + [Texts(texts)]
    {
      hide Encode, EncodeAll, Valid;
      ghost var before, items := written, Texts(texts).items;
      WriteWord(IntWord(|texts|));
      var i := 0;
      while i < |texts|
        invariant i <= |texts| && Valid() && written == before + ([Number(|texts|)] + items[..i])
      {
        WriteText(texts[i]);
        i := i + 1;
      }
      assert items[..i] == items;
      ListParts(items);
      Group(before, [Number(|texts|)] + items, Texts(texts));
    }

    method WriteMaybeTexts(o: Option<Vec<Text>>)
      requires Valid()
      modifies this
      ensures Valid() && written == old(written) + [MaybeTexts(o)]
    {
      hide Encode, EncodeAll, Valid, Texts;
      ghost var before := written;
      WriteFlag(o.Some?);
      if o.Some? {
        WriteTexts(o.value);
      }
      MaybeParts(MaybeTexts(o).value);
      Group(before, if o.Some? then [Flag(true), Texts(o.value)] else [Flag(false)], MaybeTexts(o));
    }

    method WritePoint(o: Option<Point>)
      requires Valid()
      modifies this
      ensures Valid() && written == old(written) + [MaybePoint(o)]
    {
      hide EncodeAll, Valid;
      ghost var before := written;
      WriteFlag(o.Some?);
      if o.Some? {
        WriteWord(o.value.x);
        WriteWord(o.value.y);
        Group(before + [Flag(true)], [Number(o.value.x), Number(o.value.y)], MaybePoint(o).value.value);
      }
      MaybeParts(MaybePoint(o).value);
      Group(before, if o.Some? then [Flag(true), MaybePoint(o).value.value] else [Flag(false)], MaybePoint(o));
    }

    method WriteBox(o: Option<Box>)
      requires Valid()
      modifies this
      ensures Valid() && written == old(written) + [MaybeBox(o)]
    {
      hide EncodeAll, Valid, MaybePoint;
      ghost var before := written;
      WriteFlag(o.Some?);
      if o.Some? {
        WritePoint(o.value.topLeft);
        WriteWord(o.value.width);
        WriteWord(o.value.height);
        Group(before + [Flag(true)], MaybeBox(o).value.value.fields, MaybeBox(o).value.value);
      }
      MaybeParts(MaybeBox(o).value);
      Group(before, if o.Some? then [Flag(true), MaybeBox(o).value.value] else [Flag(false)], MaybeBox(o));
    }

    method WritePoints(o: Option<Vec<Option<Point>>>)
      requires Valid()
      modifies this
      ensures Valid() && written == old(written) + [MaybePoints(o)]
    {
      hide Encode, EncodeAll, Valid, MaybePoint;
      ghost var before := written;
      WriteFlag(o.Some?);
      if o.Some? {
        ghost var items := MaybePoints(o).value.value.items;
        WriteWord(IntWord(|o.value|));
        var i := 0;
        while i < |o.value|
          invariant i <= |o.value| && Valid() && written == before + [Flag(true)] + ([Number(|o.value|)] + items[..i])
        {
          WritePoint(o.value[i]);
          i := i + 1;
        }
        assert items[..i] == items;
        ListParts(items);
        Group(before + [Flag(true)], [Number(|o.value|)] + items, List(items));
      }
      MaybeParts(MaybePoints(o).value);
      Group(before, if o.Some? then [Flag(true), MaybePoints(o).value.value] else [Flag(false)], MaybePoints(o));
    }

    method WriteScalars(a: Attributes)
      requires Valid()
      modifies this
      ensures Valid() && written == old(written) + ScalarFields(a)
    {
      hide Valid, MaybeText;
      WriteMaybeText(a.width);
      WriteMaybeText(a.height);
      WriteMaybeText(a.top);
      WriteMaybeText(a.left);
      WriteMaybeText(a.gridRows);
      WriteMaybeText(a.gridColumns);
      WriteMaybeText(a.gridGap);
      WriteMaybeText(a.verticalGap);
      WriteMaybeText(a.horizontalGap);
      WriteMaybeText(a.labelPosition);
      WriteMaybeText(a.iconPosition);
    }

    method WriteAttributes(a: Attributes)
      requires Valid()
      modifies this
      ensures Valid() && written == old(written) + [AttributesValue(a)]
    {
      hide EncodeAll, Valid, Int, Texts, MaybeTexts, ScalarFields;
      ghost var before := written;
      WriteFlag(a.hasLabelText);
      WriteInt(a.labelWidth);
      WriteInt(a.labelHeight);
      WriteText(a.shape);
      WriteText(a.direction);
      WriteTexts(a.constraint);
      WriteText(a.language);
      assert written == before + LabelFields(a);
      hide LabelFields;
      WriteScalars(a);
      WriteMaybeTexts(a.nearKey);
      Group(before, AttributeFields(a), AttributesValue(a));
    }

    method WriteObject(o: Object)
      requires Valid()
      modifies this
      ensures Valid() && written == old(written) + [ObjectValue(o)]
    {
      hide EncodeAll, Valid, Int, Texts, MaybeText, MaybeBox, MaybeFloat, AttributesValue;
      ghost var before := written;
      WriteText(o.absID);
      WriteMaybeText(o.parentID);
      WriteTexts(o.children);
      WriteInt(o.childKeys);
      WriteFlag(o.childKeys > 0);
      WriteBox(o.box);
      WriteMaybeText(o.labelPosition);
      WriteMaybeText(o.iconPosition);
      WriteMaybeFloat(o.aspectRatio);
      assert written == before + TreeFields(o);
      hide TreeFields;
      WriteLook(o);
      Group(before, ObjectFields(o), ObjectValue(o));
    }

    method WriteLook(o: Object)
      requires Valid()
      modifies this
      ensures Valid() && written == old(written) + LookFields(o)
    {
      hide Valid, AttributesValue;
      WriteFlag(o.hasLabel);
      WriteFlag(o.hasIcon);
      WriteFlag(o.iconSet);
      WriteFlag(o.is3D);
      WriteFlag(o.isMultiple);
      WriteText(o.classJSON);
      WriteText(o.tableJSON);
      WriteAttributes(o.attributes);
    }

    method WriteHead(o: Option<Attributes>)
      requires Valid()
      modifies this
      ensures Valid() && written == old(written) + [MaybeAttributes(o)]
    {
      hide Encode, EncodeAll, Valid, AttributesValue;
      ghost var before := written;
      WriteFlag(o.Some?);
      if o.Some? {
        WriteAttributes(o.value);
      }
      MaybeParts(MaybeAttributes(o).value);
      Group(before, if o.Some? then [Flag(true), AttributesValue(o.value)] else [Flag(false)], MaybeAttributes(o));
    }

    method WriteEdge(e: Edge)
      requires Valid()
      modifies this
      ensures Valid() && written == old(written) + [EdgeValue(e)]
    {
      hide EncodeAll, Valid, Int, MaybeInt, RouteFields;
      ghost var before := written;
      WriteText(e.absID);
      WriteText(e.srcID);
      WriteText(e.dstID);
      WriteInt(e.index);
      WriteMaybeInt(e.srcColumn);
      WriteMaybeInt(e.dstColumn);
      WriteFlag(e.srcArrow);
      WriteFlag(e.dstArrow);
      assert written == before + EndFields(e);
      hide EndFields;
      WriteRoute(e);
      Group(before, EdgeFields(e), EdgeValue(e));
    }

    method WriteRoute(e: Edge)
      requires Valid()
      modifies this
      ensures Valid() && written == old(written) + RouteFields(e)
    {
      hide Valid, MaybePoints, MaybeText, MaybeFloat, AttributesValue, MaybeAttributes;
      WriteFlag(e.isCurve);
      WritePoints(e.route);
      WriteMaybeText(e.labelPosition);
      WriteMaybeFloat(e.labelPercentage);
      WriteAttributes(e.attributes);
      WriteHead(e.srcHead);
      WriteHead(e.dstHead);
    }

    method WriteObjects(os: Vec<Object>)
      requires Valid()
      modifies this
      ensures Valid() && written == old(written) + [List(ObjectValues(os))]
    {
      hide Encode, EncodeAll, Valid, ObjectValue;
      ghost var before, items := written, ObjectValues(os);
      WriteInt(|os|);
      var i := 0;
      while i < |os|
        invariant i <= |os| && Valid() && written == before + ([Number(|os|)] + items[..i])
      {
        WriteObject(os[i]);
        i := i + 1;
      }
      assert items[..i] == items;
      ListParts(items);
      Group(before, [Number(|os|)] + items, List(items));
    }

    method WriteEdges(es: Vec<Edge>)
      requires Valid()
      modifies this
      ensures Valid() && written == old(written) + [List(EdgeValues(es))]
    {
      hide Encode, EncodeAll, Valid, EdgeValue;
      ghost var before, items := written, EdgeValues(es);
      WriteInt(|es|);
      var i := 0;
      while i < |es|
        invariant i <= |es| && Valid() && written == before + ([Number(|es|)] + items[..i])
      {
        WriteEdge(es[i]);
        i := i + 1;
      }
      assert items[..i] == items;
      ListParts(items);
      Group(before, [Number(|es|)] + items, List(items));
    }
  }

  /** The engines whose geometry depends on the signature's inputs alone. */
  const DAGRE: Text := [100, 97, 103, 114, 101]
  const ELK: Text := [101, 108, 107]

  predicate Supports(g: Graph, engine: Text) {
    && (engine == DAGRE || engine == ELK)
    && !g.root.special && forall i :: 0 <= i < |g.objects| ==> !g.objects[i].special
  }

  method NewLayoutInputSignature(g: Graph, engine: Text) returns (signature: seq<byte>, ok: bool)
    ensures ok == Supports(g, engine)
    ensures ok ==> signature == Signature(engine, g)
  {
    hide ObjectValue, Int;
    if !Supports(g, engine) {
      return [], false;
    }
    var b := new Builder();
    b.WriteText(engine);
    b.WriteInt(g.rootLevel);
    b.WriteObject(g.root);
    b.WriteObjects(g.objects);
    b.WriteEdges(g.edges);
    assert b.written == Input(engine, g).fields;
    signature, ok := b.buffer, true;
  }

  // ----- captured geometry -----

  datatype ObjectGeometry = ObjectGeometry(box: Option<Box>, labelPosition: Option<Text>, iconPosition: Option<Text>)

  datatype EdgeGeometry = EdgeGeometry(route: Option<Vec<Option<Point>>>, labelPosition: Option<Text>,
                                       labelPercentage: Option<Float>, isCurve: bool)

  datatype Geometry = Geometry(signature: seq<byte>, root: ObjectGeometry, objects: map<Text, ObjectGeometry>,
                               edges: map<Text, EdgeGeometry>)

  function ObjectGeometryOf(o: Object): ObjectGeometry {
    ObjectGeometry(o.box, o.labelPosition, o.iconPosition)
  }

  function EdgeGeometryOf(e: Edge): EdgeGeometry {
    EdgeGeometry(e.route, e.labelPosition, e.labelPercentage, e.isCurve)
  }

  function ObjectWith(o: Object, geo: ObjectGeometry): Object {
    o.(box := geo.box, labelPosition := geo.labelPosition, iconPosition := geo.iconPosition)
  }

  function EdgeWith(e: Edge, geo: EdgeGeometry): Edge {
    e.(route := geo.route, labelPosition := geo.labelPosition, labelPercentage := geo.labelPercentage,
       isCurve := geo.isCurve)
  }

  function ObjectMap(os: seq<Object>): map<Text, ObjectGeometry> {
    if os == [] then map[]
    else ObjectMap(os[..|os| - 1])[os[|os| - 1].absID := ObjectGeometryOf(os[|os| - 1])]
  }

  function EdgeMap(es: seq<Edge>): map<Text, EdgeGeometry> {
    if es == [] then map[] else EdgeMap(es[..|es| - 1])[es[|es| - 1].absID := EdgeGeometryOf(es[|es| - 1])]
  }

  function Captured(g: Graph, signature: seq<byte>): Geometry {
    Geometry(signature, ObjectGeometryOf(g.root), ObjectMap(g.objects), EdgeMap(g.edges))
  }

  method CaptureLayoutGeometry(g: Graph, signature: seq<byte>) returns (geometry: Geometry)
    ensures geometry == Captured(g, signature)
  {
    var objects: map<Text, ObjectGeometry> := map[];
    var i := 0;
    while i < |g.objects|
      invariant i <= |g.objects| && objects == ObjectMap(g.objects[..i])
    {
      objects := objects[g.objects[i].absID := ObjectGeometryOf(g.objects[i])];
      assert g.objects[..i + 1][..i] == g.objects[..i];
      i := i + 1;
    }
    assert g.objects[..i] == g.objects;
    var edges: map<Text, EdgeGeometry> := map[];
    i := 0;
    while i < |g.edges|
      invariant i <= |g.edges| && edges == EdgeMap(g.edges[..i])
    {
      edges := edges[g.edges[i].absID := EdgeGeometryOf(g.edges[i])];
      assert g.edges[..i + 1][..i] == g.edges[..i];
      i := i + 1;
    }
    assert g.edges[..i] == g.edges;
    geometry := Geometry(signature, ObjectGeometryOf(g.root), objects, edges);
  }

  predicate CanReplay(geometry: Option<Geometry>, g: Graph, signature: seq<byte>) {
    && geometry.Some? && geometry.value.signature == signature
    && |geometry.value.objects| == |g.objects| && |geometry.value.edges| == |g.edges|
    && (forall i :: 0 <= i < |g.objects| ==> g.objects[i].absID in geometry.value.objects)
    && (forall i :: 0 <= i < |g.edges| ==> g.edges[i].absID in geometry.value.edges)
  }

  /** A board being compiled: its objects and edges are updated in place. */
  class LiveGraph {
    var rootLevel: Int64
    var root: Object
    var objects: Vec<Object>
    var edges: Vec<Edge>

    constructor (g: Graph)
      ensures Now() == g
    {
      rootLevel, root, objects, edges := g.rootLevel, g.root, g.objects, g.edges;
    }

    function Now(): Graph
      reads this
    {
      Graph(rootLevel, root, objects, edges)
    }

    /** Replays captured geometry when every object and edge has some; otherwise nothing changes. */
    method Apply(geometry: Option<Geometry>, signature: seq<byte>) returns (ok: bool)
      modifies this
      ensures ok == CanReplay(geometry, old(Now()), signature)
      ensures !ok ==> Now() == old(Now())
      ensures ok ==> Now() == Placed(old(Now()), PlacementOf(geometry.value, old(Now())))
    {
      if geometry.None? || geometry.value.signature != signature || |geometry.value.objects| != |objects| ||
         |geometry.value.edges| != |edges| {
        return false;
      }
      var i := 0;
      while i < |objects|
        invariant i <= |objects| && Now() == old(Now())
        invariant forall j :: 0 <= j < i ==> objects[j].absID in geometry.value.objects
      {
        if objects[i].absID !in geometry.value.objects {
          return false;
        }
        i := i + 1;
      }
      i := 0;
      while i < |edges|
        invariant i <= |edges| && Now() == old(Now())
        invariant forall j :: 0 <= j < i ==> edges[j].absID in geometry.value.edges
      {
        if edges[i].absID !in geometry.value.edges {
          return false;
        }
        i := i + 1;
      }
      Replay(geometry.value);
      ok := true;
    }

    method Replay(geometry: Geometry)
      requires CanReplay(Some(geometry), Now(), geometry.signature)
      modifies this
      ensures Now() == Placed(old(Now()), PlacementOf(geometry, old(Now())))
    {
      ghost var p := PlacementOf(geometry, Now());
      root := ObjectWith(root, geometry.root);
      var i := 0;
      while i < |objects|
        invariant i <= |objects| == old(|objects|) && rootLevel == old(rootLevel) && edges == old(edges)
        invariant root == ObjectWith(old(root), geometry.root)
        invariant forall j :: 0 <= j < i ==> objects[j] == ObjectWith(old(objects)[j], p.objects[j])
        invariant forall j :: i <= j < |objects| ==> objects[j] == old(objects)[j]
      {
        objects := objects[i := ObjectWith(objects[i], geometry.objects[objects[i].absID])];
        i := i + 1;
      }
      assert objects == Placed(old(Now()), p).objects;
      i := 0;
      while i < |edges|
        invariant i <= |edges| == old(|edges|) && rootLevel == old(rootLevel)
        invariant objects == Placed(old(Now()), p).objects && root == ObjectWith(old(root), geometry.root)
        invariant forall j :: 0 <= j < i ==> edges[j] == EdgeWith(old(edges)[j], p.edges[j])
        invariant forall j :: i <= j < |edges| ==> edges[j] == old(edges)[j]
      {
        edges := edges[i := EdgeWith(edges[i], geometry.edges[edges[i].absID])];
        i := i + 1;
      }
      assert edges == Placed(old(Now()), p).edges;
    }
  }

  // ----- what a layout decides -----

  /** Geometry for each object and edge, in their order. */
  datatype Placement = Placement(root: ObjectGeometry, objects: seq<ObjectGeometry>, edges: seq<EdgeGeometry>)

  predicate Places(p: Placement, g: Graph) {
    |p.objects| == |g.objects| && |p.edges| == |g.edges|
  }

  function Placed(g: Graph, p: Placement): Graph
    requires Places(p, g)
  {
    Graph(g.rootLevel, ObjectWith(g.root, p.root),
          seq(|g.objects|, i requires 0 <= i < |g.objects| => ObjectWith(g.objects[i], p.objects[i])),
          seq(|g.edges|, i requires 0 <= i < |g.edges| => EdgeWith(g.edges[i], p.edges[i])))
  }

  /** The geometry stored under the board's own IDs. */
  function PlacementOf(geometry: Geometry, g: Graph): (p: Placement)
    requires CanReplay(Some(geometry), g, geometry.signature)
    ensures Places(p, g)
  {
    Placement(geometry.root,
              seq(|g.objects|, i requires 0 <= i < |g.objects| => geometry.objects[g.objects[i].absID]),
              seq(|g.edges|, i requires 0 <= i < |g.edges| => geometry.edges[g.edges[i].absID]))
  }
}

/** A board's objects and edges as the layout signature sees them, and the builder that writes the signature. */
module LayoutInputs {
  import opened Bytes
  import opened Options
  import opened LayoutSignature

  type Vec<T> = s: seq<T> | |s| < 0x8000_0000_0000_0000 witness []

  datatype Point = Point(x: Float, y: Float)

  datatype Box = Box(topLeft: Option<Point>, width: Float, height: Float)

  datatype Attributes = Attributes(
    hasLabelText: bool, labelWidth: Int64, labelHeight: Int64, shape: Text, direction: Text, constraint: Vec<Text>,
    language: Text, width: Option<Text>, height: Option<Text>, top: Option<Text>, left: Option<Text>,
    gridRows: Option<Text>, gridColumns: Option<Text>, gridGap: Option<Text>, verticalGap: Option<Text>,
    horizontalGap: Option<Text>, labelPosition: Option<Text>, iconPosition: Option<Text>, nearKey: Option<Vec<Text>>)

  /** `look` stands for what only rendering uses; `special` for sequence, grid and constant-near objects. */
  datatype Object = Object(
    absID: Text, parentID: Option<Text>, children: Vec<Text>, childKeys: Int64, box: Option<Box>,
    labelPosition: Option<Text>, iconPosition: Option<Text>, aspectRatio: Option<Float>, hasLabel: bool, hasIcon: bool,
    iconSet: bool, is3D: bool, isMultiple: bool, classJSON: Text, tableJSON: Text, attributes: Attributes,
    special: bool, look: Text)

  datatype Edge = Edge(
    absID: Text, srcID: Text, dstID: Text, index: Int64, srcColumn: Option<Int64>, dstColumn: Option<Int64>,
    srcArrow: bool, dstArrow: bool, isCurve: bool, route: Option<Vec<Option<Point>>>, labelPosition: Option<Text>,
    labelPercentage: Option<Float>, attributes: Attributes, srcHead: Option<Attributes>, dstHead: Option<Attributes>,
    look: Text)

  datatype Graph = Graph(rootLevel: Int64, root: Object, objects: Vec<Object>, edges: Vec<Edge>)

  // ----- the inputs as values -----

  function Int(i: Int64): Value {
    Number(IntWord(i))
  }

  function MaybeText(o: Option<Text>): Value {
    Maybe(if o.Some? then Some(Bytes(o.value)) else None)
  }

  function MaybeFloat(o: Option<Float>): Value {
    Maybe(if o.Some? then Some(Number(o.value)) else None)
  }

  function MaybeInt(o: Option<Int64>): Value {
    Maybe(if o.Some? then Some(Int(o.value)) else None)
  }

  function Texts(ss: Vec<Text>): Value {
    List(seq(|ss|, i requires 0 <= i < |ss| => Bytes(ss[i])))
  }

  function MaybePoint(o: Option<Point>): Value {
    Maybe(if o.Some? then Some(Record([Number(o.value.x), Number(o.value.y)])) else None)
  }

  function MaybeBox(o: Option<Box>): Value {
    Maybe(if o.Some? then Some(Record([MaybePoint(o.value.topLeft), Number(o.value.width), Number(o.value.height)]))
          else None)
  }

  function MaybePoints(o: Option<Vec<Option<Point>>>): Value {
    Maybe(if o.Some? then Some(List(seq(|o.value|, i requires 0 <= i < |o.value| => MaybePoint(o.value[i])))) else None)
  }

  function MaybeTexts(o: Option<Vec<Text>>): Value {
    Maybe(if o.Some? then Some(Texts(o.value)) else None)
  }

  function LabelFields(a: Attributes): seq<Value> {
    [Flag(a.hasLabelText), Int(a.labelWidth), Int(a.labelHeight), Bytes(a.shape), Bytes(a.direction),
     Texts(a.constraint), Bytes(a.language)]
  }

  function ScalarFields(a: Attributes): seq<Value> {
    [MaybeText(a.width), MaybeText(a.height), MaybeText(a.top), MaybeText(a.left), MaybeText(a.gridRows),
     MaybeText(a.gridColumns), MaybeText(a.gridGap), MaybeText(a.verticalGap), MaybeText(a.horizontalGap),
     MaybeText(a.labelPosition), MaybeText(a.iconPosition)]
  }

  function AttributeFields(a: Attributes): seq<Value> {
    LabelFields(a) + ScalarFields(a) + [MaybeTexts(a.nearKey)]
  }

  function AttributesValue(a: Attributes): Value {
    Record(AttributeFields(a))
  }

  function MaybeAttributes(o: Option<Attributes>): Value {
    Maybe(if o.Some? then Some(AttributesValue(o.value)) else None)
  }

  function TreeFields(o: Object): seq<Value> {
    [Bytes(o.absID), MaybeText(o.parentID), Texts(o.children), Int(o.childKeys), Flag(o.childKeys > 0), MaybeBox(o.box),
     MaybeText(o.labelPosition), MaybeText(o.iconPosition), MaybeFloat(o.aspectRatio)]
  }

  function LookFields(o: Object): seq<Value> {
    [Flag(o.hasLabel), Flag(o.hasIcon), Flag(o.iconSet), Flag(o.is3D), Flag(o.isMultiple), Bytes(o.classJSON),
     Bytes(o.tableJSON), AttributesValue(o.attributes)]
  }

  function ObjectFields(o: Object): seq<Value> {
    TreeFields(o) + LookFields(o)
  }

  function ObjectValue(o: Object): Value {
    Record(ObjectFields(o))
  }

  function EndFields(e: Edge): seq<Value> {
    [Bytes(e.absID), Bytes(e.srcID), Bytes(e.dstID), Int(e.index), MaybeInt(e.srcColumn), MaybeInt(e.dstColumn),
     Flag(e.srcArrow), Flag(e.dstArrow)]
  }

  function RouteFields(e: Edge): seq<Value> {
    [Flag(e.isCurve), MaybePoints(e.route), MaybeText(e.labelPosition), MaybeFloat(e.labelPercentage),
     AttributesValue(e.attributes), MaybeAttributes(e.srcHead), MaybeAttributes(e.dstHead)]
  }

  function EdgeFields(e: Edge): seq<Value> {
    EndFields(e) + RouteFields(e)
  }

  function EdgeValue(e: Edge): Value {
    Record(EdgeFields(e))
  }

  function ObjectValues(os: Vec<Object>): seq<Value> {
    seq(|os|, i requires 0 <= i < |os| => ObjectValue(os[i]))
  }

  function EdgeValues(es: Vec<Edge>): seq<Value> {
    seq(|es|, i requires 0 <= i < |es| => EdgeValue(es[i]))
  }

  /** All that is written into the signature. */
  function Input(engine: Text, g: Graph): Value {
    Record([Bytes(engine), Int(g.rootLevel), ObjectValue(g.root), List(ObjectValues(g.objects)),
            List(EdgeValues(g.edges))])
  }

  // ----- their shape -----

  const TEXT_OPTION := AMaybe(SomeBytes)
  const POINT := AMaybe(ARecord([ANumber, ANumber]))
  const ATTRIBUTES := ARecord([AFlag, ANumber, ANumber, SomeBytes, SomeBytes, AList(SomeBytes), SomeBytes, TEXT_OPTION,
    TEXT_OPTION, TEXT_OPTION, TEXT_OPTION, TEXT_OPTION, TEXT_OPTION, TEXT_OPTION, TEXT_OPTION, TEXT_OPTION, TEXT_OPTION,
    TEXT_OPTION, AMaybe(AList(SomeBytes))])
  const OBJECT := ARecord([SomeBytes, TEXT_OPTION, AList(SomeBytes), ANumber, AFlag,
    AMaybe(ARecord([POINT, ANumber, ANumber])), TEXT_OPTION, TEXT_OPTION, AMaybe(ANumber), AFlag, AFlag, AFlag, AFlag,
    AFlag, SomeBytes, SomeBytes, ATTRIBUTES])
  const EDGE := ARecord([SomeBytes, SomeBytes, SomeBytes, ANumber, AMaybe(ANumber), AMaybe(ANumber), AFlag, AFlag,
                         AFlag,
    AMaybe(AList(POINT)), TEXT_OPTION, AMaybe(ANumber), ATTRIBUTES, AMaybe(ATTRIBUTES), AMaybe(ATTRIBUTES)])
  const INPUT := ARecord([SomeBytes, ANumber, OBJECT, AList(OBJECT), AList(EDGE)])

  lemma FitsRecord(vs: seq<Value>, ts: seq<Shape>)
    requires |vs| == |ts| && forall i :: 0 <= i < |ts| ==> Fits(vs[i], ts[i])
    ensures Fits(Record(vs), ARecord(ts))
  {
  }

  lemma LeavesFit()
    ensures forall on :: Fits(Flag(on), AFlag)
    ensures forall i :: Fits(Int(i), ANumber)
    ensures forall text :: Fits(Bytes(text), SomeBytes)
    ensures forall o :: Fits(MaybeText(o), TEXT_OPTION)
    ensures forall o :: Fits(MaybeFloat(o), AMaybe(ANumber))
    ensures forall o :: Fits(MaybeInt(o), AMaybe(ANumber))
  {
  }

  lemma ListsFit()
    ensures forall ss :: Fits(Texts(ss), AList(SomeBytes))
    ensures forall o :: Fits(MaybeTexts(o), AMaybe(AList(SomeBytes)))
  {
    forall ss: Vec<Text>
      ensures Fits(Texts(ss), AList(SomeBytes))
    {
    }
  }

  lemma GeometryFits()
    ensures forall o :: Fits(MaybeBox(o), AMaybe(ARecord([POINT, ANumber, ANumber])))
    ensures forall o :: Fits(MaybePoints(o), AMaybe(AList(POINT)))
  {
    forall o: Option<Point>
      ensures Fits(MaybePoint(o), POINT)
    {
      if o.Some? {
        FitsRecord([Number(o.value.x), Number(o.value.y)], [ANumber, ANumber]);
      }
    }
    forall o: Option<Box>
      ensures Fits(MaybeBox(o), AMaybe(ARecord([POINT, ANumber, ANumber])))
    {
      if o.Some? {
        FitsRecord([MaybePoint(o.value.topLeft), Number(o.value.width), Number(o.value.height)],
                   [POINT, ANumber, ANumber]);
      }
    }
    hide MaybePoint, POINT;
    forall o: Option<Vec<Option<Point>>>
      ensures Fits(MaybePoints(o), AMaybe(AList(POINT)))
    {
    }
  }

  lemma AttributesFit(a: Attributes)
    ensures Fits(AttributesValue(a), ATTRIBUTES)
  {
    hide Fits, Int, MaybeText, Texts, MaybeTexts, TEXT_OPTION;
    LeavesFit();
    ListsFit();
    FitsRecord(AttributeFields(a), ATTRIBUTES.shapes);
  }

  lemma ObjectFits(o: Object)
    ensures Fits(ObjectValue(o), OBJECT)
  {
    hide Fits, Int, MaybeText, Texts, MaybeBox, MaybeFloat, AttributesValue, TEXT_OPTION, POINT, ATTRIBUTES;
    LeavesFit();
    ListsFit();
    GeometryFits();
    AttributesFit(o.attributes);
    FitsRecord(ObjectFields(o), OBJECT.shapes);
  }

  lemma MaybeAttributesFit(o: Option<Attributes>)
    ensures Fits(MaybeAttributes(o), AMaybe(ATTRIBUTES))
  {
    hide AttributesValue, ATTRIBUTES;
    if o.Some? {
      AttributesFit(o.value);
    }
  }

  lemma EdgeFits(e: Edge)
    ensures Fits(EdgeValue(e), EDGE)
  {
    hide Fits, Int, MaybeText, MaybePoints, MaybeFloat, MaybeInt, AttributesValue, MaybeAttributes, TEXT_OPTION, POINT,
      ATTRIBUTES;
    LeavesFit();
    GeometryFits();
    AttributesFit(e.attributes);
    MaybeAttributesFit(e.srcHead);
    MaybeAttributesFit(e.dstHead);
    FitsRecord(EdgeFields(e), EDGE.shapes);
  }

  lemma InputFits(engine: Text, g: Graph)
    ensures Fits(Input(engine, g), INPUT)
  {
    hide OBJECT, EDGE, ObjectValue, EdgeValue;
    ObjectFits(g.root);
    forall i | 0 <= i < |g.objects|
      ensures Fits(ObjectValues(g.objects)[i], OBJECT)
    {
      ObjectFits(g.objects[i]);
    }
    forall i | 0 <= i < |g.edges|
      ensures Fits(EdgeValues(g.edges)[i], EDGE)
    {
      EdgeFits(g.edges[i]);
    }
  }

  function Signature(engine: Text, g: Graph): seq<byte> {
    Encode(Input(engine, g))
  }

  // ----- what one signature says of two boards -----

  /** The same object but for what only rendering uses and for whether it is special. */
  predicate LooksAside(o: Object, o': Object) {
    o.(look := o'.look, special := o'.special) == o'
  }

  predicate EdgeLooksAside(e: Edge, e': Edge) {
    e.(look := e'.look) == e'
  }

  /** Two boards that agree in every field of every object, edge and attribute but `look` and `special`. */
  predicate AgreeButLooks(g: Graph, g': Graph) {
    && g.rootLevel == g'.rootLevel && LooksAside(g.root, g'.root)
    && |g.objects| == |g'.objects| && |g.edges| == |g'.edges|
    && (forall i :: 0 <= i < |g.objects| ==> LooksAside(g.objects[i], g'.objects[i]))
    && (forall i :: 0 <= i < |g.edges| ==> EdgeLooksAside(g.edges[i], g'.edges[i]))
  }

  lemma TextsDetermine(ss: Vec<Text>, ss': Vec<Text>)
    requires Texts(ss) == Texts(ss')
    ensures ss == ss'
  {
    var vs, ws := Texts(ss).items, Texts(ss').items;
    assert |vs| == |ws|;
    forall i | 0 <= i < |ss|
      ensures ss[i] == ss'[i]
    {
      assert vs[i] == ws[i];
    }
  }

  lemma MaybeTextsDetermine(o: Option<Vec<Text>>, o': Option<Vec<Text>>)
    requires MaybeTexts(o) == MaybeTexts(o')
    ensures o == o'
  {
    if o.Some? && o'.Some? {
      TextsDetermine(o.value, o'.value);
    }
  }

  lemma PointDetermines(o: Option<Point>, o': Option<Point>)
    requires MaybePoint(o) == MaybePoint(o')
    ensures o == o'
  {
    if o.Some? && o'.Some? {
      var v, w := MaybePoint(o).value.value.fields, MaybePoint(o').value.value.fields;
      assert v[0] == w[0] && v[1] == w[1];
    }
  }

  lemma BoxDetermines(o: Option<Box>, o': Option<Box>)
    requires MaybeBox(o) == MaybeBox(o')
    ensures o == o'
  {
    hide MaybePoint;
    if o.Some? && o'.Some? {
      var v, w := MaybeBox(o).value.value.fields, MaybeBox(o').value.value.fields;
      assert v[0] == w[0] && v[1] == w[1] && v[2] == w[2];
      PointDetermines(o.value.topLeft, o'.value.topLeft);
    }
  }

  lemma PointsDetermine(o: Option<Vec<Option<Point>>>, o': Option<Vec<Option<Point>>>)
    requires MaybePoints(o) == MaybePoints(o')
    ensures o == o'
  {
    hide MaybePoint;
    if o.Some? && o'.Some? {
      var vs, ws := MaybePoints(o).value.value.items, MaybePoints(o').value.value.items;
      assert |vs| == |ws|;
      forall i | 0 <= i < |o.value|
        ensures o.value[i] == o'.value[i]
      {
        assert vs[i] == ws[i];
        PointDetermines(o.value[i], o'.value[i]);
      }
      assert o.value == o'.value;
    }
  }

  lemma LabelsDetermine(a: Attributes, a': Attributes)
    requires LabelFields(a) == LabelFields(a')
    ensures a.hasLabelText == a'.hasLabelText && a.labelWidth == a'.labelWidth && a.labelHeight == a'.labelHeight
    ensures a.shape == a'.shape && a.direction == a'.direction && a.constraint == a'.constraint
    ensures a.language == a'.language
  {
    hide Texts;
    var v, w := LabelFields(a), LabelFields(a');
    assert v[0] == w[0] && v[1] == w[1] && v[2] == w[2] && v[3] == w[3] && v[4] == w[4] && v[5] == w[5] && v[6] == w[6];
    TextsDetermine(a.constraint, a'.constraint);
  }

  lemma MaybeTextDetermines(o: Option<Text>, o': Option<Text>)
    requires MaybeText(o) == MaybeText(o')
    ensures o == o'
  {
  }

  lemma ScalarsDetermine(a: Attributes, a': Attributes)
    requires ScalarFields(a) == ScalarFields(a')
    ensures a.width == a'.width && a.height == a'.height && a.top == a'.top && a.left == a'.left
    ensures a.gridRows == a'.gridRows && a.gridColumns == a'.gridColumns && a.gridGap == a'.gridGap
    ensures a.verticalGap == a'.verticalGap && a.horizontalGap == a'.horizontalGap
    ensures a.labelPosition == a'.labelPosition && a.iconPosition == a'.iconPosition
  {
    hide MaybeText;
    var v, w := ScalarFields(a), ScalarFields(a');
    assert v[0] == w[0] && v[1] == w[1] && v[2] == w[2] && v[3] == w[3] && v[4] == w[4] && v[5] == w[5];
    assert v[6] == w[6] && v[7] == w[7] && v[8] == w[8] && v[9] == w[9] && v[10] == w[10];
    MaybeTextDetermines(a.width, a'.width);
    MaybeTextDetermines(a.height, a'.height);
    MaybeTextDetermines(a.top, a'.top);
    MaybeTextDetermines(a.left, a'.left);
    MaybeTextDetermines(a.gridRows, a'.gridRows);
    MaybeTextDetermines(a.gridColumns, a'.gridColumns);
    MaybeTextDetermines(a.gridGap, a'.gridGap);
    MaybeTextDetermines(a.verticalGap, a'.verticalGap);
    MaybeTextDetermines(a.horizontalGap, a'.horizontalGap);
    MaybeTextDetermines(a.labelPosition, a'.labelPosition);
    MaybeTextDetermines(a.iconPosition, a'.iconPosition);
  }

  lemma PartsAgree(a: seq<Value>, b: seq<Value>, c: Value, a': seq<Value>, b': seq<Value>, c': Value)
    requires a + b + [c] == a' + b' + [c'] && |a| == |a'| && |b| == |b'|
    ensures a == a' && b == b' && c == c'
  {
    var v, w := a + b + [c], a' + b' + [c'];
    assert v[..|a|] == a && w[..|a|] == a' && v[|a|..|a| + |b|] == b && w[|a|..|a| + |b|] == b';
    assert v[|a| + |b|] == c && w[|a| + |b|] == c';
  }

  lemma AttributesDetermine(a: Attributes, a': Attributes)
    requires AttributesValue(a) == AttributesValue(a')
    ensures a == a'
  {
    hide Texts, MaybeTexts, MaybeText;
    PartsAgree(LabelFields(a), ScalarFields(a), MaybeTexts(a.nearKey), LabelFields(a'), ScalarFields(a'),
               MaybeTexts(a'.nearKey));
    hide LabelFields, ScalarFields;
    LabelsDetermine(a, a');
    ScalarsDetermine(a, a');
    MaybeTextsDetermine(a.nearKey, a'.nearKey);
  }

  lemma MaybeAttributesDetermine(o: Option<Attributes>, o': Option<Attributes>)
    requires MaybeAttributes(o) == MaybeAttributes(o')
    ensures o == o'
  {
    hide AttributesValue;
    if o.Some? && o'.Some? {
      AttributesDetermine(o.value, o'.value);
    }
  }

  lemma ObjectDetermines(o: Object, o': Object)
    requires ObjectValue(o) == ObjectValue(o')
    ensures LooksAside(o, o')
  {
    hide AttributesValue, Texts, MaybeBox;
    var v, w := ObjectFields(o), ObjectFields(o');
    assert v[0] == w[0] && v[1] == w[1] && v[2] == w[2] && v[3] == w[3] && v[5] == w[5] && v[6] == w[6] && v[7] == w[7];
    assert v[8] == w[8] && v[9] == w[9] && v[10] == w[10] && v[11] == w[11] && v[12] == w[12] && v[13] == w[13];
    assert v[14] == w[14] && v[15] == w[15] && v[16] == w[16];
    TextsDetermine(o.children, o'.children);
    BoxDetermines(o.box, o'.box);
    AttributesDetermine(o.attributes, o'.attributes);
  }

  lemma EdgeDetermines(e: Edge, e': Edge)
    requires EdgeValue(e) == EdgeValue(e')
    ensures EdgeLooksAside(e, e')
  {
    hide AttributesValue, MaybePoints, MaybeAttributes;
    var v, w := EdgeFields(e), EdgeFields(e');
    assert v[0] == w[0] && v[1] == w[1] && v[2] == w[2] && v[3] == w[3] && v[4] == w[4] && v[5] == w[5] && v[6] == w[6];
    assert v[7] == w[7] && v[8] == w[8] && v[9] == w[9] && v[10] == w[10] && v[11] == w[11] && v[12] == w[12];
    assert v[13] == w[13] && v[14] == w[14];
    PointsDetermine(e.route, e'.route);
    AttributesDetermine(e.attributes, e'.attributes);
    MaybeAttributesDetermine(e.srcHead, e'.srcHead);
    MaybeAttributesDetermine(e.dstHead, e'.dstHead);
  }

  lemma InputDetermines(engine: Text, g: Graph, engine': Text, g': Graph)
    requires Input(engine, g) == Input(engine', g')
    ensures engine == engine' && AgreeButLooks(g, g')
  {
    hide ObjectValue, EdgeValue, LooksAside, EdgeLooksAside;
    var v, w := Input(engine, g).fields, Input(engine', g').fields;
    assert v[0] == w[0] && v[1] == w[1] && v[2] == w[2] && v[3] == w[3] && v[4] == w[4];
    assert ObjectValues(g.objects) == ObjectValues(g'.objects) && EdgeValues(g.edges) == EdgeValues(g'.edges);
    ObjectDetermines(g.root, g'.root);
    forall i | 0 <= i < |g.objects|
      ensures LooksAside(g.objects[i], g'.objects[i])
    {
      assert ObjectValues(g.objects)[i] == ObjectValues(g'.objects)[i];
      ObjectDetermines(g.objects[i], g'.objects[i]);
    }
    forall i | 0 <= i < |g.edges|
      ensures EdgeLooksAside(g.edges[i], g'.edges[i])
    {
      assert EdgeValues(g.edges)[i] == EdgeValues(g'.edges)[i];
      EdgeDetermines(g.edges[i], g'.edges[i]);
    }
  }

  /** Boards share a signature only if they have one engine and agree in every field but those of rendering. */
  lemma SameSignature(engine: Text, g: Graph, engine': Text, g': Graph)
    requires Signature(engine, g) == Signature(engine', g')
    ensures engine == engine' && AgreeButLooks(g, g')
  {
    hide Input, INPUT, Encode, AgreeButLooks;
    InputFits(engine, g);
    InputFits(engine', g');
    SignatureDetermines(Input(engine, g), Input(engine', g'), INPUT);
    InputDetermines(engine, g, engine', g');
  }
}

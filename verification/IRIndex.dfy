/** A map of the intermediate representation keeps ordered lists and drops or patches the indexes derived from them. */
module IRIndex {
  import opened Options
  import opened Lists
  import opened KeyPath
  import opened EdgeKeys

  /** A field is one object; a field without a name is never found by name. */
  datatype Field = Field(id: nat, name: Option<Name>)

  datatype Edge = Edge(id: nat, edgeID: EdgeID)

  datatype FieldKey = FieldKey(folded: string, unquotedReserved: bool)

  predicate IsReserved(s: string, reserved: set<string>) {
    Lower(s) in reserved
  }

  function KeyOf(n: Name, reserved: set<string>): FieldKey {
    FieldKey(Upper(n.text), IsReserved(n.text, reserved) && n.unquoted)
  }

  /** The test of the linear scan. */
  predicate Answers(f: Field, s: Name, reserved: set<string>) {
    && f.name.Some? && EqualFold(f.name.value.text, s.text)
    && (IsReserved(s.text, reserved) ==> f.name.value.unquoted == s.unquoted)
  }

  lemma KeyIffAnswers(f: Field, s: Name, reserved: set<string>)
    requires f.name.Some?
    ensures KeyOf(f.name.value, reserved) == KeyOf(s, reserved) <==> Answers(f, s, reserved)
  {
    FoldIsEqualFold(f.name.value.text, s.text);
  }

  /** The first field that answers to the name. */
  function FirstField(fields: seq<Field>, s: Name, reserved: set<string>): Option<Field> {
    if fields == [] then None
    else if Answers(fields[0], s, reserved) then Some(fields[0])
    else FirstField(fields[1..], s, reserved)
  }

  function FirstByKey(fields: seq<Field>, key: FieldKey, reserved: set<string>): Option<Field> {
    if fields == [] then None
    else if fields[0].name.Some? && KeyOf(fields[0].name.value, reserved) == key then Some(fields[0])
    else FirstByKey(fields[1..], key, reserved)
  }

  lemma {:induction false} FirstByKeyIsFirst(fields: seq<Field>, s: Name, reserved: set<string>)
    ensures FirstByKey(fields, KeyOf(s, reserved), reserved) == FirstField(fields, s, reserved)
  {
    hide Answers, KeyOf;
    if fields != [] {
      if fields[0].name.Some? {
        KeyIffAnswers(fields[0], s, reserved);
      } else {
        NamelessAnswersNothing(fields[0], s, reserved);
      }
      FirstByKeyIsFirst(fields[1..], s, reserved);
    }
  }

  lemma NamelessAnswersNothing(f: Field, s: Name, reserved: set<string>)
    requires f.name.None?
    ensures !Answers(f, s, reserved)
  {
  }

  function At(index: map<FieldKey, Field>, key: FieldKey): Option<Field> {
    if key in index then Some(index[key]) else None
  }

  /** The index holds, under every key, the first field with that key. */
  ghost predicate Indexes(index: map<FieldKey, Field>, fields: seq<Field>, reserved: set<string>) {
    forall key :: At(index, key) == FirstByKey(fields, key, reserved)
  }

  predicate HasKey(fields: seq<Field>, key: FieldKey, reserved: set<string>) {
    exists i :: 0 <= i < |fields| && fields[i].name.Some? && KeyOf(fields[i].name.value, reserved) == key
  }

  lemma {:induction false} FirstByKeyConcat(a: seq<Field>, b: seq<Field>, key: FieldKey, reserved: set<string>)
    ensures FirstByKey(a + b, key, reserved) ==
            if FirstByKey(a, key, reserved).Some? then FirstByKey(a, key, reserved) else FirstByKey(b, key, reserved)
  {
    hide KeyOf;
    if a == [] {
      assert a + b == b;
    } else {
      FirstByKeyConcat(a[1..], b, key, reserved);
      assert (a + b)[1..] == a[1..] + b;
    }
  }

  lemma {:induction false} FirstByKeyHas(fields: seq<Field>, key: FieldKey, reserved: set<string>)
    ensures FirstByKey(fields, key, reserved).Some? <==> HasKey(fields, key, reserved)
  {
    hide KeyOf;
    if fields != [] {
      FirstByKeyHas(fields[1..], key, reserved);
      if HasKey(fields[1..], key, reserved) {
        var i :| 0 <= i < |fields| - 1 && fields[1..][i].name.Some? && KeyOf(fields[1..][i].name.value, reserved) ==
          key;
        assert fields[i + 1] == fields[1..][i];
      }
      if HasKey(fields, key, reserved) && FirstByKey(fields, key, reserved) != Some(fields[0]) {
        var i :| 0 <= i < |fields| && fields[i].name.Some? && KeyOf(fields[i].name.value, reserved) == key;
        assert fields[i] == fields[1..][i - 1];
      }
    }
  }

  /** What the code does to a valid index when a field is added anywhere: an existing entry stays. */
  function Patched(index: map<FieldKey, Field>, f: Field, reserved: set<string>): map<FieldKey, Field>
    requires f.name.Some?
  {
    var key := KeyOf(f.name.value, reserved);
    if key in index then index else index[key := f]
  }

  /**
   Patching keeps the index right exactly when no field after the insertion point already has the new field's key. At
   the end of the list that always holds; in the middle it is up to the caller.
   */
  lemma PatchIffNoneAfter(index: map<FieldKey, Field>, a: seq<Field>, b: seq<Field>, f: Field, reserved: set<string>)
    requires Indexes(index, a + b, reserved) && f.name.Some? && f !in a + b
    ensures Indexes(Patched(index, f, reserved), a + [f] + b, reserved) <==>
            HasKey(a, KeyOf(f.name.value, reserved), reserved) || !HasKey(b, KeyOf(f.name.value, reserved), reserved)
  {
    hide KeyOf, HasKey;
    var own := KeyOf(f.name.value, reserved);
    forall key
      ensures FirstByKey(a + [f] + b, key, reserved) ==
              if FirstByKey(a, key, reserved).Some? then FirstByKey(a, key, reserved)
              else if key == own then Some(f) else FirstByKey(b, key, reserved)
    {
      FirstByKeyConcat(a + [f], b, key, reserved);
      FirstByKeyConcat(a, [f], key, reserved);
      FirstByKeyOne(f, key, reserved);
    }
    forall key
      ensures At(index, key) == if FirstByKey(a, key, reserved).Some? then FirstByKey(a, key, reserved)
              else FirstByKey(b, key, reserved)
    {
      FirstByKeyConcat(a, b, key, reserved);
    }
    hide FirstByKey;
    FirstByKeyHas(a, own, reserved);
    FirstByKeyHas(b, own, reserved);
    if !HasKey(a, own, reserved) && HasKey(b, own, reserved) {
      FirstByKeyIn(b, own, reserved);
      assert At(Patched(index, f, reserved), own) != FirstByKey(a + [f] + b, own, reserved);
    }
  }

  lemma NothingIndexed(reserved: set<string>)
    ensures Indexes(map[], [], reserved)
  {
  }

  lemma PatchAtEnd(index: map<FieldKey, Field>, fields: seq<Field>, f: Field, reserved: set<string>)
    requires Indexes(index, fields, reserved)
    ensures Indexes(if f.name.Some? then Patched(index, f, reserved) else index, fields + [f], reserved)
  {
    hide KeyOf;
    forall key
      ensures FirstByKey(fields + [f], key, reserved) ==
              if FirstByKey(fields, key, reserved).Some? then FirstByKey(fields, key, reserved)
              else if f.name.Some? && key == KeyOf(f.name.value, reserved) then Some(f) else None
    {
      FirstByKeyConcat(fields, [f], key, reserved);
      assert [f][1..] == [];
    }
    hide FirstByKey;
  }

  lemma FirstByKeyOne(f: Field, key: FieldKey, reserved: set<string>)
    requires f.name.Some?
    ensures FirstByKey([f], key, reserved) == if key == KeyOf(f.name.value, reserved) then Some(f) else None
  {
    assert [f][1..] == [];
  }

  lemma {:induction false} FirstByKeyIn(fields: seq<Field>, key: FieldKey, reserved: set<string>)
    ensures FirstByKey(fields, key, reserved).Some? ==> FirstByKey(fields, key, reserved).value in fields
  {
    if fields != [] {
      FirstByKeyIn(fields[1..], key, reserved);
    }
  }

  // ----- edges -----

  function MatchesID(id: EdgeID): Edge -> bool {
    (e: Edge) => Match(e.edgeID, id)
  }

  function HasEdgeKey(key: string): Edge -> bool {
    (e: Edge) => EdgeKey(e.edgeID) == key
  }

  function EdgesAt(index: map<string, seq<Edge>>, key: string): seq<Edge> {
    if key in index then index[key] else []
  }

  ghost predicate IndexesEdges(index: map<string, seq<Edge>>, edges: seq<Edge>) {
    forall key :: EdgesAt(index, key) == Filter(edges, HasEdgeKey(key))
  }

  lemma ScanByKey(edges: seq<Edge>, id: EdgeID)
    ensures Filter(Filter(edges, HasEdgeKey(EdgeKey(id))), MatchesID(id)) == Filter(edges, MatchesID(id))
  {
    hide EdgeKey, Direct, Flipped, Filter;
    forall e | e in edges
      ensures MatchesID(id)(e) == (HasEdgeKey(EdgeKey(id))(e) && MatchesID(id)(e))
    {
      KeyIffMatch(e.edgeID, id);
    }
    FilterTwice(edges, HasEdgeKey(EdgeKey(id)), MatchesID(id), MatchesID(id));
  }

  /** Scanning the edges under the key gives what scanning all edges gives, in the same order. */
  lemma IndexedScan(index: map<string, seq<Edge>>, edges: seq<Edge>, id: EdgeID)
    requires IndexesEdges(index, edges)
    ensures Filter(EdgesAt(index, EdgeKey(id)), MatchesID(id)) == Filter(edges, MatchesID(id))
  {
    hide EdgeKey, Match, Filter;
    ScanByKey(edges, id);
  }

  lemma NoEdges()
    ensures IndexesEdges(map[], [])
  {
  }

  lemma EdgeAppended(index: map<string, seq<Edge>>, edges: seq<Edge>, e: Edge)
    requires IndexesEdges(index, edges)
    ensures IndexesEdges(index[EdgeKey(e.edgeID) := EdgesAt(index, EdgeKey(e.edgeID)) + [e]], edges + [e])
  {
    hide EdgeKey, Filter;
    var index' := index[EdgeKey(e.edgeID) := EdgesAt(index, EdgeKey(e.edgeID)) + [e]];
    forall key
      ensures EdgesAt(index', key) == Filter(edges + [e], HasEdgeKey(key))
    {
      FilterAppend(edges, e, HasEdgeKey(key));
    }
  }

  // ----- the map -----

  class Map {
    const reserved: set<string>
    var fields: seq<Field>
    var edges: seq<Edge>
    var fieldIndex: Option<map<FieldKey, Field>>
    var fieldIndexSize: nat
    var edgeIndex: Option<map<string, seq<Edge>>>
    var edgeIndexSize: nat

    /** An index that lookups will trust is right. */
    ghost predicate Valid()
      reads this
    {
      && (fieldIndex.Some? && fieldIndexSize == |fields| ==> Indexes(fieldIndex.value, fields, reserved))
      && (edgeIndex.Some? && edgeIndexSize == |edges| ==> IndexesEdges(edgeIndex.value, edges))
    }

    constructor (reserved: set<string>)
      ensures Valid() && fields == [] && edges == [] && this.reserved == reserved
    {
      this.reserved := reserved;
      fields, edges := [], [];
      fieldIndex, fieldIndexSize, edgeIndex, edgeIndexSize := None, 0, None, 0;
    }

    method EnsureFieldIndex()
      requires Valid()
      modifies this`fieldIndex, this`fieldIndexSize
      ensures Valid() && fieldIndex.Some? && fieldIndexSize == |fields|
    {
      if fieldIndex.Some? && fieldIndexSize == |fields| {
        return;
      }
      hide KeyOf, FirstByKey, Indexes;
      var index: map<FieldKey, Field> := map[];
      NothingIndexed(reserved);
      var i := 0;
      assert fields[..0] == [];
      while i < |fields|
        invariant i <= |fields| && Indexes(index, fields[..i], reserved)
      {
        var f := fields[i];
        assert fields[..i + 1] == fields[..i] + [f];
        PatchAtEnd(index, fields[..i], f, reserved);
        if f.name.Some? {
          var key := KeyOf(f.name.value, reserved);
          if key !in index {
            index := index[key := f];
          }
        }
        i := i + 1;
      }
      assert fields[..i] == fields;
      fieldIndex, fieldIndexSize := Some(index), |fields|;
    }

    /** The indexed lookup answers what a scan of the list answers. */
    method LookupField(name: Name) returns (r: Option<Field>)
      requires Valid()
      modifies this`fieldIndex, this`fieldIndexSize
      ensures Valid() && r == FirstField(fields, name, reserved)
    {
      EnsureFieldIndex();
      FirstByKeyIsFirst(fields, name, reserved);
      r := At(fieldIndex.value, KeyOf(name, reserved));
    }

    method AppendField(f: Field)
      requires Valid()
      modifies this`fields, this`fieldIndex, this`fieldIndexSize
      ensures Valid() && fields == old(fields) + [f]
    {
      hide KeyOf, FirstByKey, Indexes;
      var oldLen := |fields|;
      fields := fields + [f];
      if fieldIndex.Some? && fieldIndexSize == oldLen && f.name.Some? {
        PatchAtEnd(fieldIndex.value, old(fields), f, reserved);
        var key := KeyOf(f.name.value, reserved);
        if key !in fieldIndex.value {
          fieldIndex := Some(fieldIndex.value[key := f]);
        }
        fieldIndexSize := fieldIndexSize + 1;
      } else {
        fieldIndex, fieldIndexSize := None, 0;
      }
    }

    /** A trusted index stays right exactly when no field behind the new one has its key, or one before it has. */
    method InsertField(index: nat, f: Field)
      requires Valid() && f !in fields && index <= |fields|
      modifies this`fields, this`fieldIndex, this`fieldIndexSize
      ensures fields == old(fields)[..index] + [f] + old(fields)[index..]
      ensures var a, b := old(fields)[..index], old(fields)[index..];
              Valid() <==> !(old(fieldIndex).Some? && old(fieldIndexSize) == old(|fields|) && f.name.Some?) ||
                           HasKey(a, KeyOf(f.name.value, reserved), reserved) ||
                           !HasKey(b, KeyOf(f.name.value, reserved), reserved)
    {
      hide KeyOf, HasKey, FirstByKey, Indexes;
      var oldLen := |fields|;
      ghost var a, b := fields[..index], fields[index..];
      assert fields == a + b;
      fields := fields[..index] + [f] + fields[index..];
      if fieldIndex.Some? && fieldIndexSize == oldLen && f.name.Some? {
        PatchIffNoneAfter(fieldIndex.value, a, b, f, reserved);
        var key := KeyOf(f.name.value, reserved);
        if key !in fieldIndex.value {
          fieldIndex := Some(fieldIndex.value[key := f]);
        }
        fieldIndexSize := fieldIndexSize + 1;
      } else {
        fieldIndex, fieldIndexSize := None, 0;
      }
    }

    /** An insertion that follows a failed lookup, as every one does, keeps a trusted index right. */
    method InsertIfAbsent(index: nat, f: Field) returns (inserted: bool)
      requires Valid() && f !in fields && index <= |fields| && f.name.Some?
      modifies this`fields, this`fieldIndex, this`fieldIndexSize
      ensures Valid() && inserted == FirstField(old(fields), f.name.value, reserved).None?
      ensures fields == if inserted then old(fields)[..index] + [f] + old(fields)[index..] else old(fields)
    {
      hide KeyOf, FirstByKey, Indexes, FirstField;
      var found := LookupField(f.name.value);
      inserted := found.None?;
      if inserted {
        FirstByKeyIsFirst(fields, f.name.value, reserved);
        FirstByKeyHas(fields, KeyOf(f.name.value, reserved), reserved);
        InsertField(index, f);
      }
    }

    method RemoveField(index: nat) returns (f: Field)
      requires Valid() && index < |fields|
      modifies this`fields, this`fieldIndex, this`fieldIndexSize
      ensures Valid() && f == old(fields)[index] && fields == old(fields)[..index] + old(fields)[index + 1..]
    {
      f := fields[index];
      fields := fields[..index] + fields[index + 1..];
      fieldIndex, fieldIndexSize := None, 0;
    }

    method EnsureEdgeIndex()
      requires Valid()
      modifies this`edgeIndex, this`edgeIndexSize
      ensures Valid() && edgeIndex.Some? && edgeIndexSize == |edges|
    {
      hide EdgeKey, IndexesEdges, Indexes, EdgesAt;
      if edgeIndex.Some? && edgeIndexSize == |edges| {
        return;
      }
      NoEdges();
      var index: map<string, seq<Edge>> := map[];
      var i := 0;
      while i < |edges|
        invariant i <= |edges| && IndexesEdges(index, edges[..i])
      {
        var key := EdgeKey(edges[i].edgeID);
        EdgeAppended(index, edges[..i], edges[i]);
        index := index[key := EdgesAt(index, key) + [edges[i]]];
        assert edges[..i + 1] == edges[..i] + [edges[i]];
        i := i + 1;
      }
      assert edges[..i] == edges;
      edgeIndex, edgeIndexSize := Some(index), |edges|;
    }

    /** The indexed edge lookup answers what a scan of the list answers, in the same order. */
    method GetEdgesIndexed(id: EdgeID) returns (r: seq<Edge>)
      requires Valid()
      modifies this`edgeIndex, this`edgeIndexSize
      ensures Valid() && r == Filter(edges, MatchesID(id))
    {
      hide EdgeKey, Match, Filter;
      EnsureEdgeIndex();
      IndexedScan(edgeIndex.value, edges, id);
      var candidates := EdgesAt(edgeIndex.value, EdgeKey(id));
      r := [];
      FilterNone(candidates[..0], MatchesID(id));
      var i := 0;
      while i < |candidates|
        invariant i <= |candidates| && r == Filter(candidates[..i], MatchesID(id)) && Valid()
      {
        FilterAppend(candidates[..i], candidates[i], MatchesID(id));
        assert candidates[..i + 1] == candidates[..i] + [candidates[i]];
        if Match(candidates[i].edgeID, id) {
          r := r + [candidates[i]];
        }
        i := i + 1;
      }
      assert candidates[..i] == candidates;
    }

    method AppendEdge(e: Edge)
      requires Valid()
      modifies this`edges, this`edgeIndex, this`edgeIndexSize
      ensures Valid() && edges == old(edges) + [e]
    {
      hide EdgeKey;
      var oldLen := |edges|;
      edges := edges + [e];
      if edgeIndex.Some? && edgeIndexSize == oldLen {
        var key := EdgeKey(e.edgeID);
        EdgeAppended(edgeIndex.value, old(edges), e);
        edgeIndex := Some(edgeIndex.value[key := EdgesAt(edgeIndex.value, key) + [e]]);
        edgeIndexSize := edgeIndexSize + 1;
      } else {
        edgeIndex, edgeIndexSize := None, 0;
      }
    }

    method RemoveEdge(index: nat) returns (e: Edge)
      requires Valid() && index < |edges|
      modifies this`edges, this`edgeIndex, this`edgeIndexSize
      ensures Valid() && e == old(edges)[index] && edges == old(edges)[..index] + old(edges)[index + 1..]
    {
      e := edges[index];
      edges := edges[..index] + edges[index + 1..];
      edgeIndex, edgeIndexSize := None, 0;
    }
  }
}

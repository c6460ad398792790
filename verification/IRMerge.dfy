/**
 Laying one map over another. The code updates the base in place, entry by entry; what comes out is a right-biased merge
 that keeps the base's order, and it is associative unless an array comes between two maps.
 */
module IRMerge {
  import opened Options
  import opened Lists

  /** Keys under which lookups find a field or an edge; distinct keys, distinct lookups. */
  type Key = string

  /**
   A field or an edge: its key, the spelling it was first written with, its primary value, what it holds, and its
   references.
   */
  datatype Entry = Entry(key: Key, spelling: string, primary: Option<string>, composite: Option<Composite>,
                         references: seq<nat>)

  datatype Composite = OfMap(m: IRMap) | OfArray(values: seq<string>)

  datatype IRMap = IRMap(fields: seq<Entry>, edges: seq<Entry>)

  const EMPTY := IRMap([], [])

  predicate HasKey(es: seq<Entry>, key: Key) {
    exists i :: 0 <= i < |es| && es[i].key == key
  }

  /** The first entry with the key, or the number of entries. */
  function Position(es: seq<Entry>, key: Key): (r: nat)
    ensures r <= |es|
    ensures r < |es| ==> es[r].key == key
    ensures r == |es| <==> !HasKey(es, key)
    ensures forall i :: 0 <= i < r ==> es[i].key != key
  {
    if es == [] then 0
    else if es[|es| - 1].key == key && !HasKey(es[..|es| - 1], key) then |es| - 1
    else
      var r := Position(es[..|es| - 1], key);
      if r == |es| - 1 then |es| else r
  }

  predicate Distinct(es: seq<Entry>) {
    forall i, j :: 0 <= i < j < |es| ==> es[i].key != es[j].key
  }

  predicate AllDistinct(m: IRMap) {
    && Distinct(m.fields) && Distinct(m.edges)
    && (forall i :: 0 <= i < |m.fields| && HasMap(m.fields[i]) ==> AllDistinct(m.fields[i].composite.value.m))
    && (forall i :: 0 <= i < |m.edges| && HasMap(m.edges[i]) ==> AllDistinct(m.edges[i].composite.value.m))
  }

  predicate HasMap(e: Entry) {
    e.composite.Some? && e.composite.value.OfMap?
  }

  predicate ArrayFree(m: IRMap) {
    && (forall i :: 0 <= i < |m.fields| && m.fields[i].composite.Some? ==>
          HasMap(m.fields[i]) && ArrayFree(m.fields[i].composite.value.m))
    && (forall i :: 0 <= i < |m.edges| && m.edges[i].composite.Some? ==>
          HasMap(m.edges[i]) && ArrayFree(m.edges[i].composite.value.m))
  }

  // ----- the merge -----

  /** Base entries first, each with the overlay's entry of its key laid over it; then the overlay's other entries. */
  function Merge(b: IRMap, o: IRMap): IRMap
    decreases o, 2
  {
    IRMap(MergeEntries(b.fields, o.fields), MergeEntries(b.edges, o.edges))
  }

  function MergeEntries(b: seq<Entry>, o: seq<Entry>): seq<Entry>
    decreases o, 1
  {
    Over(b, o) + Filter(o, NotIn(b))
  }

  function NotIn(b: seq<Entry>): Entry -> bool {
    (e: Entry) => !HasKey(b, e.key)
  }

  function Over(b: seq<Entry>, o: seq<Entry>): (r: seq<Entry>)
    ensures |r| == |b|
    decreases o, 0, |b|
  {
    if b == [] then []
    else
      var last := b[|b| - 1];
      var j := Position(o, last.key);
      Over(b[..|b| - 1], o) + [if j < |o| then MergeEntry(last, o[j]) else last]
  }

  function MergeEntry(e: Entry, o: Entry): (r: Entry)
    ensures r.key == e.key
    decreases o
  {
    Entry(e.key, e.spelling, if o.primary.Some? then o.primary else e.primary,
          if o.composite.None? then e.composite
          else if HasMap(e) && HasMap(o) then Some(OfMap(Merge(e.composite.value.m, o.composite.value.m)))
          else o.composite,
          e.references + o.references)
  }

  // ----- entries by position and by key -----

  lemma {:induction false} OverAt(b: seq<Entry>, o: seq<Entry>, i: nat)
    requires i < |b|
    ensures Over(b, o)[i] == var j := Position(o, b[i].key); if j < |o| then MergeEntry(b[i], o[j]) else b[i]
    ensures Over(b, o)[i].key == b[i].key
    decreases |b|
  {
    hide MergeEntry;
    if i < |b| - 1 {
      OverAt(b[..|b| - 1], o, i);
    }
  }

  lemma OverKeys(b: seq<Entry>, o: seq<Entry>, key: Key)
    ensures HasKey(Over(b, o), key) <==> HasKey(b, key)
  {
    hide Over;
    forall i | 0 <= i < |b|
      ensures Over(b, o)[i].key == b[i].key
    {
      OverAt(b, o, i);
    }
  }

  lemma FilterKeys(es: seq<Entry>, keep: Entry -> bool, key: Key)
    requires forall e, f :: e in es && f in es && e.key == f.key ==> keep(e) == keep(f)
    ensures HasKey(Filter(es, keep), key) <==> exists i :: 0 <= i < |es| && es[i].key == key && keep(es[i])
  {
    var r := Filter(es, keep);
    if HasKey(r, key) {
      var i :| 0 <= i < |r| && r[i].key == key;
      FilterHas(es, keep, r[i]);
    }
    if i :| 0 <= i < |es| && es[i].key == key && keep(es[i]) {
      FilterHas(es, keep, es[i]);
    }
  }

  lemma HasKeyConcat(a: seq<Entry>, b: seq<Entry>, key: Key)
    ensures HasKey(a + b, key) <==> HasKey(a, key) || HasKey(b, key)
  {
    if HasKey(a, key) {
      var i :| 0 <= i < |a| && a[i].key == key;
      assert (a + b)[i].key == key;
    }
    if HasKey(b, key) {
      var i :| 0 <= i < |b| && b[i].key == key;
      assert (a + b)[|a| + i].key == key;
    }
  }

  /** The keys of a merge are the union of the keys. */
  lemma MergeKeys(b: seq<Entry>, o: seq<Entry>, key: Key)
    ensures HasKey(MergeEntries(b, o), key) <==> HasKey(b, key) || HasKey(o, key)
  {
    hide Over, Filter;
    OverKeys(b, o, key);
    FilterKeys(o, NotIn(b), key);
    HasKeyConcat(Over(b, o), Filter(o, NotIn(b)), key);
  }

  lemma PositionIs(es: seq<Entry>, i: nat)
    requires i < |es| && forall j :: 0 <= j < i ==> es[j].key != es[i].key
    ensures Position(es, es[i].key) == i
  {
    assert HasKey(es, es[i].key);
  }

  // ----- what an overlay must hold -----

  predicate DistinctWithin(es: seq<Entry>) {
    Distinct(es) && forall i :: 0 <= i < |es| && HasMap(es[i]) ==> AllDistinct(es[i].composite.value.m)
  }

  /** The result has exactly the keys of both, and under each key what the two hold there. */
  ghost predicate IsOverlay(b: IRMap, o: IRMap, r: IRMap)
    decreases o, 2
  {
    EntriesOverlaid(b.fields, o.fields, r.fields) && EntriesOverlaid(b.edges, o.edges, r.edges)
  }

  ghost predicate EntriesOverlaid(b: seq<Entry>, o: seq<Entry>, r: seq<Entry>)
    decreases o, 1
  {
    && (forall key :: HasKey(r, key) <==> HasKey(b, key) || HasKey(o, key))
    && (forall p, i :: 0 <= p < |r| && 0 <= i < |b| && b[i].key == r[p].key && !HasKey(o, r[p].key) ==> r[p] == b[i])
    && (forall p, j :: 0 <= p < |r| && 0 <= j < |o| && o[j].key == r[p].key && !HasKey(b, r[p].key) ==> r[p] == o[j])
    && (forall p, i, j :: 0 <= p < |r| && 0 <= i < |b| && 0 <= j < |o| && b[i].key == r[p].key == o[j].key ==>
          EntryOverlaid(b[i], o[j], r[p]))
  }

  /**
   Both have the key: the overlay's primary value counts if it has one, its references come after the base's, two maps
   are overlaid in turn, and any other composite of the overlay replaces the base's.
   */
  ghost predicate EntryOverlaid(e: Entry, o: Entry, r: Entry)
    decreases o, 0
  {
    && r.spelling == e.spelling && r.references == e.references + o.references
    && (o.primary.Some? ==> r.primary == o.primary) && (o.primary.None? ==> r.primary == e.primary)
    && (o.composite.None? ==> r.composite == e.composite)
    && (HasMap(e) && HasMap(o) ==>
          HasMap(r) && IsOverlay(e.composite.value.m, o.composite.value.m, r.composite.value.m))
    && (o.composite.Some? && !(HasMap(e) && HasMap(o)) ==> r.composite == o.composite)
  }

  /** The merge is such an overlay. */
  lemma {:induction false} MergeIsOverlay(b: IRMap, o: IRMap)
    requires AllDistinct(b) && AllDistinct(o)
    ensures IsOverlay(b, o, Merge(b, o))
    decreases o, 2
  {
    hide EntriesOverlaid, MergeEntries;
    MergedEntries(b.fields, o.fields);
    MergedEntries(b.edges, o.edges);
  }

  lemma {:induction false} MergedEntries(b: seq<Entry>, o: seq<Entry>)
    requires DistinctWithin(b) && DistinctWithin(o)
    ensures EntriesOverlaid(b, o, MergeEntries(b, o))
    decreases o, 1
  {
    hide Over, MergeEntry, Filter, EntryOverlaid, HasKey, AllDistinct, Position;
    var r := MergeEntries(b, o);
    forall key
      ensures HasKey(r, key) <==> HasKey(b, key) || HasKey(o, key)
    {
      MergeKeys(b, o, key);
    }
    forall p | 0 <= p < |r|
      ensures forall i :: 0 <= i < |b| && b[i].key == r[p].key && !HasKey(o, r[p].key) ==> r[p] == b[i]
      ensures forall j :: 0 <= j < |o| && o[j].key == r[p].key && !HasKey(b, r[p].key) ==> r[p] == o[j]
      ensures forall i, j :: 0 <= i < |b| && 0 <= j < |o| && b[i].key == r[p].key == o[j].key ==>
                               EntryOverlaid(b[i], o[j], r[p])
    {
      if p < |b| {
        MergedFront(b, o, p);
      } else {
        MergedBack(b, o, p);
      }
    }
  }

  lemma {:induction false} MergedFront(b: seq<Entry>, o: seq<Entry>, p: nat)
    requires DistinctWithin(b) && DistinctWithin(o) && p < |b|
    ensures var e := MergeEntries(b, o)[p];
            && e.key == b[p].key && HasKey(b, e.key) && (!HasKey(o, e.key) ==> e == b[p])
            && (forall i :: 0 <= i < |b| && b[i].key == e.key ==> i == p)
            && (forall j :: 0 <= j < |o| && o[j].key == e.key ==> EntryOverlaid(b[p], o[j], e))
    decreases o, 0
  {
    hide Over, Filter, EntryOverlaid, AllDistinct;
    OverAt(b, o, p);
    var e := MergeEntries(b, o)[p];
    assert e == Over(b, o)[p];
    forall j | 0 <= j < |o| && o[j].key == e.key
      ensures EntryOverlaid(b[p], o[j], e)
    {
      PositionIs(o, j);
      MergedEntry(b[p], o[j]);
    }
  }

  lemma MergedBack(b: seq<Entry>, o: seq<Entry>, p: nat)
    requires Distinct(o) && |b| <= p < |MergeEntries(b, o)|
    ensures var e := MergeEntries(b, o)[p];
            && (forall i :: 0 <= i < |b| ==> b[i].key != e.key)
            && (forall j :: 0 <= j < |o| && o[j].key == e.key ==> e == o[j])
  {
    hide Over, MergeEntry;
    var rest := Filter(o, NotIn(b));
    var e := MergeEntries(b, o)[p];
    assert e == rest[p - |b|] && e in rest;
    FilterHas(o, NotIn(b), e);
  }

  lemma {:induction false} MergedEntry(e: Entry, o: Entry)
    requires HasMap(e) ==> AllDistinct(e.composite.value.m)
    requires HasMap(o) ==> AllDistinct(o.composite.value.m)
    ensures EntryOverlaid(e, o, MergeEntry(e, o))
    decreases o, 0
  {
    hide Merge, IsOverlay, AllDistinct;
    if HasMap(e) && HasMap(o) {
      MergeIsOverlay(e.composite.value.m, o.composite.value.m);
    }
  }

  // ----- the overlay, one entry after the other -----

  lemma OverOne(b: seq<Entry>, o: seq<Entry>, x: Entry, i: nat)
    requires Distinct(o + [x]) && i < |b|
    ensures Over(b, o + [x])[i] ==
            if b[i].key == x.key then MergeEntry(b[i], x) else Over(b, o)[i]
    ensures b[i].key == x.key ==> Over(b, o)[i] == b[i]
  {
    hide Over, MergeEntry;
    OverAt(b, o, i);
    OverAt(b, o + [x], i);
    if b[i].key == x.key {
      forall j | 0 <= j < |o|
        ensures o[j].key != x.key
      {
        assert (o + [x])[j].key != (o + [x])[|o|].key;
      }
      PositionIs(o + [x], |o|);
    } else if HasKey(o, b[i].key) {
      var p := Position(o, b[i].key);
      assert forall j :: 0 <= j < p ==> (o + [x])[j].key != b[i].key;
      PositionIs(o + [x], p);
    } else {
      HasKeyConcat(o, [x], b[i].key);
    }
  }

  lemma FoundStep(b: seq<Entry>, o: seq<Entry>, x: Entry, i: nat)
    requires i < |b| && b[i].key == x.key && Distinct(b) && Distinct(o + [x])
    ensures Over(b, o)[i] == b[i] && Over(b, o + [x]) == Over(b, o)[i := MergeEntry(b[i], x)]
    ensures Position(MergeEntries(b, o), x.key) == i
  {
    hide MergeEntry, Filter, Position, Over;
    var r := MergeEntries(b, o);
    OverOne(b, o, x, i);
    forall j | 0 <= j < |b|
      ensures Over(b, o + [x])[j] == if j == i then MergeEntry(b[i], x) else Over(b, o)[j]
      ensures r[j].key == b[j].key
    {
      OverOne(b, o, x, j);
      OverAt(b, o, j);
    }
    PositionIs(r, i);
  }

  lemma NotFoundStep(b: seq<Entry>, o: seq<Entry>, x: Entry)
    requires !HasKey(b, x.key) && Distinct(o + [x])
    ensures Over(b, o + [x]) == Over(b, o) && Position(MergeEntries(b, o), x.key) == |MergeEntries(b, o)|
  {
    hide MergeEntry, Filter, Position, Over;
    MergeKeys(b, o, x.key);
    NotAmong(o, x);
    forall j | 0 <= j < |b|
      ensures Over(b, o + [x])[j] == Over(b, o)[j]
    {
      OverOne(b, o, x, j);
      assert b[j].key != x.key;
    }
  }

  /** One more overlay entry is laid over the base entry of its key, or goes to the end. */
  lemma OverlayStep(b: seq<Entry>, o: seq<Entry>, x: Entry)
    requires Distinct(b) && Distinct(o + [x])
    ensures var r, r' := MergeEntries(b, o), MergeEntries(b, o + [x]);
            var p := Position(r, x.key);
            if p == |r| then r' == r + [x]
            else p < |b| && r[p] == b[p] && r' == r[p := MergeEntry(b[p], x)]
  {
    hide Over, MergeEntry, Filter, Position, HasKey;
    FilterAppend(o, x, NotIn(b));
    if HasKey(b, x.key) {
      var i := Position(b, x.key);
      FoundStep(b, o, x, i);
      UpdateFront(Over(b, o), Filter(o, NotIn(b)), i, MergeEntry(b[i], x));
    } else {
      NotFoundStep(b, o, x);
      AppendTwice(Over(b, o), Filter(o, NotIn(b)), x);
    }
  }

  lemma UpdateFront(front: seq<Entry>, tail: seq<Entry>, i: nat, e: Entry)
    requires i < |front|
    ensures (front + tail)[i] == front[i] && front[i := e] + (tail + []) == (front + tail)[i := e]
  {
  }

  lemma AppendTwice(front: seq<Entry>, tail: seq<Entry>, e: Entry)
    ensures front + (tail + [e]) == front + tail + [e]
  {
  }

  lemma NotAmong(o: seq<Entry>, x: Entry)
    requires Distinct(o + [x])
    ensures !HasKey(o, x.key)
  {
    forall j | 0 <= j < |o|
      ensures o[j].key != x.key
    {
      assert (o + [x])[j].key != (o + [x])[|o|].key;
    }
  }

  /** Lays the overlay's entries over the base's, each found by its key in what there is so far. */
  method OverlayEntries(b: seq<Entry>, o: seq<Entry>) returns (r: seq<Entry>)
    requires DistinctWithin(b) && DistinctWithin(o)
    ensures r == MergeEntries(b, o)
    decreases o, 1
  {
    hide MergeEntries, MergeEntry, Position;
    NoOverlay(b);
    r := b;
    var j := 0;
    assert o[..0] == [];
    while j < |o|
      invariant j <= |o| && r == MergeEntries(b, o[..j])
    {
      assert o[..j + 1] == o[..j] + [o[j]];
      OverlayStep(b, o[..j], o[j]);
      var p := Position(r, o[j].key);
      if p == |r| {
        r := r + [o[j]];
      } else {
        var e := OverlayEntry(r[p], o[j]);
        r := r[p := e];
      }
      j := j + 1;
    }
    assert o[..j] == o;
  }

  lemma NoOverlay(b: seq<Entry>)
    ensures MergeEntries(b, []) == b
  {
    hide Over;
    forall i | 0 <= i < |b|
      ensures Over(b, [])[i] == b[i]
    {
      OverAt(b, [], i);
    }
    assert Over(b, []) == b;
  }

  method OverlayEntry(e: Entry, o: Entry) returns (r: Entry)
    requires HasMap(e) ==> AllDistinct(e.composite.value.m)
    requires HasMap(o) ==> AllDistinct(o.composite.value.m)
    ensures r == MergeEntry(e, o)
    decreases o, 0
  {
    hide Merge, AllDistinct;
    r := e;
    if o.primary.Some? {
      r := r.(primary := o.primary);
    }
    if o.composite.Some? {
      if HasMap(e) && HasMap(o) {
        var m := OverlayMap(e.composite.value.m, o.composite.value.m);
        r := r.(composite := Some(OfMap(m)));
      } else {
        r := r.(composite := o.composite);
      }
    }
    r := r.(references := e.references + o.references);
  }

  /** The overlay of two maps is their merge. */
  method OverlayMap(base: IRMap, overlay: IRMap) returns (r: IRMap)
    requires AllDistinct(base) && AllDistinct(overlay)
    ensures r == Merge(base, overlay) && IsOverlay(base, overlay, r)
    decreases overlay, 2
  {
    hide MergeEntries, IsOverlay;
    MergeIsOverlay(base, overlay);
    var fields := OverlayEntries(base.fields, overlay.fields);
    var edges := OverlayEntries(base.edges, overlay.edges);
    r := IRMap(fields, edges);
  }

  // ----- associativity -----

  function Find(es: seq<Entry>, key: Key): Option<Entry> {
    var p := Position(es, key);
    if p < |es| then Some(es[p]) else None
  }

  function LaidOver(e: Entry, o: Option<Entry>): Entry {
    if o.Some? then MergeEntry(e, o.value) else e
  }

  lemma OverFind(b: seq<Entry>, o: seq<Entry>, i: nat)
    requires i < |b|
    ensures Over(b, o)[i] == LaidOver(b[i], Find(o, b[i].key)) && Over(b, o)[i].key == b[i].key
  {
    hide Over, MergeEntry;
    OverAt(b, o, i);
  }

  lemma FindConcat(a: seq<Entry>, b: seq<Entry>, key: Key)
    ensures Find(a + b, key) == if HasKey(a, key) then Find(a, key) else Find(b, key)
  {
    HasKeyConcat(a, b, key);
    var p, q := Position(a, key), Position(b, key);
    if HasKey(a, key) {
      assert (a + b)[p] == a[p] && forall j :: 0 <= j < p ==> (a + b)[j] == a[j];
      PositionIs(a + b, p);
    } else if HasKey(b, key) {
      assert (a + b)[|a| + q] == b[q];
      forall j | 0 <= j < |a| + q
        ensures (a + b)[j].key != key
      {
        if j < |a| {
          assert (a + b)[j] == a[j];
        } else {
          assert (a + b)[j] == b[j - |a|];
        }
      }
      PositionIs(a + b, |a| + q);
    }
  }

  lemma {:induction false} FindFilter(es: seq<Entry>, b: seq<Entry>, key: Key)
    requires !HasKey(b, key)
    ensures Find(Filter(es, NotIn(b)), key) == Find(es, key)
    decreases |es|
  {
    if es != [] {
      var n := |es| - 1;
      FindFilter(es[..n], b, key);
      hide Find, Position, HasKey;
      assert es == es[..n] + [es[n]];
      FindConcat(es[..n], [es[n]], key);
      FilterAppend(es[..n], es[n], NotIn(b));
      FindLast(es[..n], es[n], b, key);
    }
  }

  lemma FindLast(es: seq<Entry>, x: Entry, b: seq<Entry>, key: Key)
    requires !HasKey(b, key) && Find(Filter(es, NotIn(b)), key) == Find(es, key)
    ensures Find(Filter(es, NotIn(b)) + (if NotIn(b)(x) then [x] else []), key) == Find(es + [x], key)
  {
    hide Filter;
    var r := Filter(es, NotIn(b));
    FindConcat(es, [x], key);
    FindConcat(r, if NotIn(b)(x) then [x] else [], key);
    assert HasKey(es, key) <==> Find(es, key).Some?;
    assert HasKey(r, key) <==> Find(r, key).Some?;
    assert HasKey([x], key) <==> x.key == key by {
      if x.key == key {
        assert [x][0].key == key;
      }
    }
  }

  /** What a merge holds under a key. */
  lemma FindMerge(b: seq<Entry>, o: seq<Entry>, key: Key)
    ensures Find(MergeEntries(b, o), key) ==
            if HasKey(b, key) then Some(LaidOver(Find(b, key).value, Find(o, key))) else Find(o, key)
  {
    hide Filter, MergeEntry;
    FindConcat(Over(b, o), Filter(o, NotIn(b)), key);
    OverKeys(b, o, key);
    if HasKey(b, key) {
      var p := Position(b, key);
      OverFind(b, o, p);
      forall j | 0 <= j < p
        ensures Over(b, o)[j].key != key
      {
        OverFind(b, o, j);
      }
      PositionIs(Over(b, o), p);
    } else {
      FindFilter(o, b, key);
    }
  }

  lemma OverLast(b: seq<Entry>, o: seq<Entry>)
    requires b != []
    ensures Over(b, o) == Over(b[..|b| - 1], o) + [LaidOver(b[|b| - 1], Find(o, b[|b| - 1].key))]
  {
    hide MergeEntry, Position;
  }

  lemma {:induction false} OverConcat(a: seq<Entry>, b: seq<Entry>, o: seq<Entry>)
    ensures Over(a + b, o) == Over(a, o) + Over(b, o)
    decreases |b|
  {
    hide MergeEntry, Position;
    if b == [] {
      assert a + b == a;
    } else {
      var n := |b| - 1;
      OverConcat(a, b[..n], o);
      OverLast(a + b, o);
      OverLast(b, o);
      hide Over, LaidOver;
      assert (a + b)[..|a + b| - 1] == a + b[..n] && (a + b)[|a + b| - 1] == b[n];
    }
  }

  lemma {:induction false} OverFilter(b: seq<Entry>, a: seq<Entry>, o: seq<Entry>)
    ensures Over(Filter(b, NotIn(a)), o) == Filter(Over(b, o), NotIn(a))
    decreases |b|
  {
    hide MergeEntry, HasKey;
    if b != [] {
      var n := |b| - 1;
      OverFilter(b[..n], a, o);
      var j := Position(o, b[n].key);
      var last := if j < |o| then MergeEntry(b[n], o[j]) else b[n];
      assert Over(b, o) == Over(b[..n], o) + [last];
      FilterAppend(Over(b[..n], o), last, NotIn(a));
      if NotIn(a)(b[n]) {
        OverConcat(Filter(b[..n], NotIn(a)), [b[n]], o);
        assert [b[n]][..0] == [] && Over([b[n]], o) == [last];
      } else {
        assert Filter(b[..n], NotIn(a)) + [] == Filter(b[..n], NotIn(a));
        assert Filter(Over(b[..n], o), NotIn(a)) + [] == Filter(Over(b[..n], o), NotIn(a));
      }
    }
  }

  /**
   How three maps must meet for their grouping not to matter: wherever the first and the last hold maps and the middle
   one holds an array, the first map adds nothing to the last.
   */
  predicate Grouped(a: IRMap, b: IRMap, c: IRMap)
    decreases c, 2
  {
    GroupedEntries(a.fields, b.fields, c.fields) && GroupedEntries(a.edges, b.edges, c.edges)
  }

  predicate GroupedEntries(a: seq<Entry>, b: seq<Entry>, c: seq<Entry>)
    decreases c, 1
  {
    forall i :: 0 <= i < |a| && HasKey(b, a[i].key) && HasKey(c, a[i].key) ==>
      GroupedEntry(a[i], b[Position(b, a[i].key)], c[Position(c, a[i].key)])
  }

  predicate GroupedEntry(x: Entry, y: Entry, z: Entry)
    decreases z, 0
  {
    HasMap(x) && HasMap(z) && y.composite.Some? ==>
      if HasMap(y) then Grouped(x.composite.value.m, y.composite.value.m, z.composite.value.m)
      else Merge(x.composite.value.m, z.composite.value.m) == z.composite.value.m
  }

  lemma {:induction false} EntryGrouping(x: Entry, y: Entry, z: Entry)
    ensures MergeEntry(MergeEntry(x, y), z) == MergeEntry(x, MergeEntry(y, z)) <==> GroupedEntry(x, y, z)
    decreases z, 0
  {
    hide Merge, Grouped;
    assert x.references + y.references + z.references == x.references + (y.references + z.references);
    if HasMap(x) && HasMap(y) && HasMap(z) {
      GroupingMatters(x.composite.value.m, y.composite.value.m, z.composite.value.m);
    }
  }

  /** The entry that the base holds at a place, laid over twice. */
  lemma {:induction false} OverTwice(a: seq<Entry>, b: seq<Entry>, c: seq<Entry>, i: nat)
    requires i < |a|
    ensures var key := a[i].key;
            Over(Over(a, b), c)[i] == Over(a, MergeEntries(b, c))[i] <==>
            HasKey(b, key) && HasKey(c, key) ==> GroupedEntry(a[i], b[Position(b, key)], c[Position(c, key)])
    decreases c, 0
  {
    hide Over, MergeEntries, MergeEntry, Position, GroupedEntry;
    var key := a[i].key;
    OverFind(a, b, i);
    OverFind(Over(a, b), c, i);
    OverFind(a, MergeEntries(b, c), i);
    FindMerge(b, c, key);
    if HasKey(b, key) && HasKey(c, key) {
      EntryGrouping(a[i], b[Position(b, key)], c[Position(c, key)]);
    }
  }

  /** What comes after the base's entries does not depend on the grouping. */
  lemma RestsAgree(a: seq<Entry>, b: seq<Entry>, c: seq<Entry>)
    ensures exists rest :: MergeEntries(MergeEntries(a, b), c) == Over(Over(a, b), c) + rest &&
                           MergeEntries(a, MergeEntries(b, c)) == Over(a, MergeEntries(b, c)) + rest
  {
    hide Over, Filter, HasKey;
    var ab, bc := MergeEntries(a, b), MergeEntries(b, c);
    OverConcat(Over(a, b), Filter(b, NotIn(a)), c);
    OverFilter(b, a, c);
    FilterConcat(Over(b, c), Filter(c, NotIn(b)), NotIn(a));
    forall x | x in c
      ensures NotIn(ab)(x) == (NotIn(b)(x) && NotIn(a)(x))
    {
      MergeKeys(a, b, x.key);
    }
    FilterTwice(c, NotIn(b), NotIn(a), NotIn(ab));
    var rest := Filter(bc, NotIn(a));
    assert MergeEntries(ab, c) == Over(Over(a, b), c) + rest;
  }

  lemma FrontsDecide<T>(p: seq<T>, q: seq<T>, rest: seq<T>)
    requires |p| == |q|
    ensures p + rest == q + rest <==> forall i :: 0 <= i < |p| ==> p[i] == q[i]
  {
    assert p + rest == q + rest ==> (p + rest)[..|p|] == (q + rest)[..|q|];
    assert (p + rest)[..|p|] == p && (q + rest)[..|q|] == q;
  }

  lemma {:induction false} EntriesGrouping(a: seq<Entry>, b: seq<Entry>, c: seq<Entry>)
    ensures MergeEntries(MergeEntries(a, b), c) == MergeEntries(a, MergeEntries(b, c)) <==> GroupedEntries(a, b, c)
    decreases c, 1
  {
    hide Over, MergeEntries, HasKey, Position, GroupedEntry;
    var p, q := Over(Over(a, b), c), Over(a, MergeEntries(b, c));
    RestsAgree(a, b, c);
    var rest :| MergeEntries(MergeEntries(a, b), c) == p + rest && MergeEntries(a, MergeEntries(b, c)) == q + rest;
    FrontsDecide(p, q, rest);
    forall i | 0 <= i < |a|
      ensures p[i] == q[i] <==>
              HasKey(b, a[i].key) && HasKey(c, a[i].key) ==>
                GroupedEntry(a[i], b[Position(b, a[i].key)], c[Position(c, a[i].key)])
    {
      OverTwice(a, b, c, i);
    }
  }

  /** Exactly when the grouping of three overlays does not matter. */
  lemma {:induction false} GroupingMatters(a: IRMap, b: IRMap, c: IRMap)
    ensures Merge(Merge(a, b), c) == Merge(a, Merge(b, c)) <==> Grouped(a, b, c)
    decreases c, 2
  {
    hide MergeEntries, GroupedEntries;
    EntriesGrouping(a.fields, b.fields, c.fields);
    EntriesGrouping(a.edges, b.edges, c.edges);
  }

  lemma {:induction false} ArrayFreeGrouped(a: IRMap, b: IRMap, c: IRMap)
    requires ArrayFree(b)
    ensures Grouped(a, b, c)
    decreases b, 1
  {
    hide GroupedEntries;
    ArrayFreeEntries(a.fields, b.fields, c.fields);
    ArrayFreeEntries(a.edges, b.edges, c.edges);
  }

  lemma {:induction false} ArrayFreeEntries(a: seq<Entry>, b: seq<Entry>, c: seq<Entry>)
    requires forall i :: 0 <= i < |b| && b[i].composite.Some? ==> HasMap(b[i]) && ArrayFree(b[i].composite.value.m)
    ensures GroupedEntries(a, b, c)
    decreases b, 0
  {
    hide ArrayFree, Grouped, Merge;
    forall i | 0 <= i < |a| && HasKey(b, a[i].key) && HasKey(c, a[i].key)
      ensures GroupedEntry(a[i], b[Position(b, a[i].key)], c[Position(c, a[i].key)])
    {
      var x, y, z := a[i], b[Position(b, a[i].key)], c[Position(c, a[i].key)];
      if HasMap(x) && HasMap(y) && HasMap(z) {
        ArrayFreeGrouped(x.composite.value.m, y.composite.value.m, z.composite.value.m);
      }
    }
  }

  /** With no array in the middle, laying maps over one another may be grouped in any way. */
  lemma MergeAssoc(a: IRMap, b: IRMap, c: IRMap)
    requires ArrayFree(b)
    ensures Merge(Merge(a, b), c) == Merge(a, Merge(b, c))
  {
    ArrayFreeGrouped(a, b, c);
    GroupingMatters(a, b, c);
  }

  /** The empty map changes nothing on either side. */
  lemma EmptyIsUnit(m: IRMap)
    ensures Merge(EMPTY, m) == m && Merge(m, EMPTY) == m
  {
    hide Filter;
    FilterAll(m.fields, NotIn([]));
    FilterAll(m.edges, NotIn([]));
    NoOverlay(m.fields);
    NoOverlay(m.edges);
  }

  function Holding(c: Composite): IRMap {
    IRMap([Entry("k", "k", None, Some(c), [])], [])
  }

  lemma HoldingMerge(c: Composite, d: Composite)
    ensures Merge(Holding(c), Holding(d)) == Holding(if c.OfMap? && d.OfMap? then OfMap(Merge(c.m, d.m)) else d)
  {
    hide MergeEntries;
    var x, y := Holding(c).fields[0], Holding(d).fields[0];
    OneOver(x, y);
    NoOverlay([]);
    assert x.references + y.references == [];
  }

  /**
   An array between two maps makes the grouping matter: the later map replaces the array, or joins the earlier map.
   */
  lemma ArraysBreakAssociativity()
    ensures var a, b := Holding(OfMap(IRMap([Entry("x", "x", None, None, [])], []))), Holding(OfArray([]));
            var c := Holding(OfMap(EMPTY));
            Merge(Merge(a, b), c) != Merge(a, Merge(b, c))
  {
    hide Merge;
    var m := IRMap([Entry("x", "x", None, None, [])], []);
    HoldingMerge(OfMap(m), OfArray([]));
    HoldingMerge(OfArray([]), OfMap(EMPTY));
    HoldingMerge(OfMap(m), OfMap(EMPTY));
    EmptyIsUnit(m);
  }

  lemma OneOver(x: Entry, y: Entry)
    requires x.key == y.key
    ensures MergeEntries([x], [y]) == [MergeEntry(x, y)]
  {
    hide MergeEntry;
    assert [y][0].key == y.key && HasKey([y], x.key);
    assert [x][0].key == x.key && HasKey([x], y.key);
    PositionIs([y], 0);
    OverAt([x], [y], 0);
    FilterNone([y], NotIn([x]));
  }
}

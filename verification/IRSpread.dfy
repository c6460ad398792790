/**
 Spreading a map into another: the fields the map adds go where the placeholder stands, and what both maps have is laid
 over as in any overlay.
 */
module IRSpread {
  import opened Lists
  import opened IRMerge

  /** An element of a field list: a field, or the nameless placeholder of a spread. */
  datatype Slot = Named(entry: Entry) | Placeholder(id: nat)

  predicate Holds(slot: Slot, key: Key) {
    slot.Named? && slot.entry.key == key
  }

  predicate HasSlot(slots: seq<Slot>, key: Key) {
    exists i :: 0 <= i < |slots| && Holds(slots[i], key)
  }

  /** The first field with the key from place i on, or the number of slots. */
  function SlotPosition(slots: seq<Slot>, key: Key, i: nat): (r: nat)
    requires i <= |slots|
    ensures i <= r <= |slots|
    ensures r < |slots| ==> Holds(slots[r], key)
    ensures forall j :: i <= j < r ==> !Holds(slots[j], key)
    decreases |slots| - i
  {
    if i == |slots| || Holds(slots[i], key) then i else SlotPosition(slots, key, i + 1)
  }

  predicate DistinctSlots(slots: seq<Slot>) {
    forall i, j :: 0 <= i < j < |slots| && slots[i].Named? ==> !Holds(slots[j], slots[i].entry.key)
  }

  predicate DistinctWithinSlots(slots: seq<Slot>) {
    DistinctSlots(slots) && forall i :: 0 <= i < |slots| && slots[i].Named? && HasMap(slots[i].entry) ==>
      AllDistinct(slots[i].entry.composite.value.m)
  }

  /** The fields, placeholders left out. */
  function Names(slots: seq<Slot>): seq<Entry> {
    if slots == [] then []
    else Names(slots[..|slots| - 1]) + if slots[|slots| - 1].Named? then [slots[|slots| - 1].entry] else []
  }

  lemma {:induction false} NamesConcat(a: seq<Slot>, b: seq<Slot>)
    ensures Names(a + b) == Names(a) + Names(b)
    decreases |b|
  {
    if b == [] {
      assert a + b == a;
    } else {
      var init := b[..|b| - 1];
      NamesConcat(a, init);
      assert (a + b)[..|a + b| - 1] == a + init;
    }
  }

  lemma {:induction false} NamesHave(slots: seq<Slot>, key: Key)
    ensures HasKey(Names(slots), key) <==> HasSlot(slots, key)
    decreases |slots|
  {
    if slots != [] {
      var init, last := slots[..|slots| - 1], slots[|slots| - 1];
      NamesHave(init, key);
      HasKeyConcat(Names(init), if last.Named? then [last.entry] else [], key);
      assert slots == init + [last];
      if HasSlot(init, key) {
        var i :| 0 <= i < |init| && Holds(init[i], key);
        assert Holds(slots[i], key);
      }
      if Holds(last, key) {
        assert [last.entry][0].key == key;
      }
    }
  }

  // ----- the expansion -----

  function LaySlot(slot: Slot, o: seq<Entry>): Slot {
    if slot.Named? then Named(LaidOver(slot.entry, Find(o, slot.entry.key))) else slot
  }

  function Lay(slots: seq<Slot>, o: seq<Entry>): (r: seq<Slot>)
    ensures |r| == |slots|
  {
    seq(|slots|, i requires 0 <= i < |slots| => LaySlot(slots[i], o))
  }

  function Wrap(es: seq<Entry>): (r: seq<Slot>)
    ensures |r| == |es|
  {
    seq(|es|, i requires 0 <= i < |es| => Named(es[i]))
  }

  /** The fields of o that the slots do not have, in the order of o. */
  function Added(slots: seq<Slot>, o: seq<Entry>): seq<Slot> {
    Wrap(Filter(o, NotIn(Names(slots))))
  }

  /** The slots with o spread at the placeholder, which stands behind what was added. */
  function Expanded(slots: seq<Slot>, at: nat, o: seq<Entry>): (r: seq<Slot>)
    requires at < |slots|
    ensures |r| == |slots| + |Added(slots, o)|
  {
    Lay(slots[..at], o) + Added(slots, o) + Lay(slots[at..], o)
  }

  /** Where slot i stands once o has been spread. */
  function Moved(slots: seq<Slot>, at: nat, o: seq<Entry>, i: nat): nat {
    if i < at then i else i + |Added(slots, o)|
  }

  lemma ExpandedAt(slots: seq<Slot>, at: nat, o: seq<Entry>, q: nat)
    requires at < |slots| && q < |Expanded(slots, at, o)|
    ensures Expanded(slots, at, o)[q] ==
            if q < at then LaySlot(slots[q], o)
            else if q < at + |Added(slots, o)| then Added(slots, o)[q - at]
            else LaySlot(slots[q - |Added(slots, o)|], o)
  {
    hide LaySlot, Added;
    var added := Added(slots, o);
    if q >= at + |added| {
      assert slots[at..][q - at - |added|] == slots[q - |added|];
    }
  }

  lemma LaidOnce(slot: Slot, o: seq<Entry>, x: Entry)
    requires Distinct(o + [x])
    ensures LaySlot(slot, o + [x]) == if Holds(slot, x.key) then Named(MergeEntry(slot.entry, x)) else LaySlot(slot, o)
    ensures Holds(slot, x.key) ==> LaySlot(slot, o) == slot
    ensures LaySlot(slot, o).Named? == slot.Named? && (slot.Named? ==> LaySlot(slot, o).entry.key == slot.entry.key)
  {
    hide MergeEntry;
    if slot.Named? {
      var key := slot.entry.key;
      NotAmong(o, x);
      FindConcat(o, [x], key);
      if key == x.key {
        assert [x][0].key == key;
        PositionIs([x], 0);
      } else {
        assert !HasKey([x], key);
      }
    }
  }

  lemma AddedMore(slots: seq<Slot>, o: seq<Entry>, x: Entry)
    ensures Added(slots, o + [x]) == Added(slots, o) + if HasSlot(slots, x.key) then [] else [Named(x)]
  {
    hide Names, Filter, HasSlot;
    FilterAppend(o, x, NotIn(Names(slots)));
    NamesHave(slots, x.key);
  }

  /** Nothing that was added has the key of the next entry. */
  lemma AddedLacks(slots: seq<Slot>, o: seq<Entry>, x: Entry)
    requires Distinct(o + [x])
    ensures forall i :: 0 <= i < |Added(slots, o)| ==> !Holds(Added(slots, o)[i], x.key)
  {
    hide Names, Filter;
    NotAmong(o, x);
    var kept := Filter(o, NotIn(Names(slots)));
    forall i | 0 <= i < |kept|
      ensures kept[i].key != x.key
    {
      FilterHas(o, NotIn(Names(slots)), kept[i]);
      assert kept[i] in o;
      var j :| 0 <= j < |o| && o[j] == kept[i];
    }
  }

  /** One more entry is laid over the field of its key, wherever that stands by now. */
  lemma FoundStep(slots: seq<Slot>, at: nat, o: seq<Entry>, x: Entry, i: nat)
    requires at < |slots| && i < |slots| && Holds(slots[i], x.key) && DistinctSlots(slots) && Distinct(o + [x])
    ensures var r, p := Expanded(slots, at, o), Moved(slots, at, o, i);
            && p < |r| && r[p] == slots[i] && SlotPosition(r, x.key, 0) == p
            && Expanded(slots, at, o + [x]) == r[p := Named(MergeEntry(slots[i].entry, x))]
  {
    hide MergeEntry, LaySlot, Added, Expanded, SlotPosition;
    var r, r', p := Expanded(slots, at, o), Expanded(slots, at, o + [x]), Moved(slots, at, o, i);
    AddedMore(slots, o, x);
    AddedLacks(slots, o, x);
    assert Added(slots, o + [x]) == Added(slots, o);
    forall q | 0 <= q < |r|
      ensures Holds(r[q], x.key) == (q == p)
      ensures r'[q] == if q == p then Named(MergeEntry(slots[i].entry, x)) else r[q]
    {
      ExpandedAt(slots, at, o, q);
      ExpandedAt(slots, at, o + [x], q);
      if q < at || q >= at + |Added(slots, o)| {
        var j := if q < at then q else q - |Added(slots, o)|;
        LaidOnce(slots[j], o, x);
        assert Holds(slots[j], x.key) ==> j == i;
      }
    }
    ExpandedAt(slots, at, o, p);
    LaidOnce(slots[i], o, x);
    assert Holds(r[p], x.key);
  }

  /** An entry of a new key goes right in front of the placeholder. */
  lemma NotFoundStep(slots: seq<Slot>, at: nat, o: seq<Entry>, x: Entry)
    requires at < |slots| && !HasSlot(slots, x.key) && Distinct(o + [x])
    ensures var r, fi := Expanded(slots, at, o), at + |Added(slots, o)|;
            && fi <= |r| && SlotPosition(r, x.key, 0) == |r|
            && Expanded(slots, at, o + [x]) == r[..fi] + [Named(x)] + r[fi..]
            && |Added(slots, o + [x])| == |Added(slots, o)| + 1
  {
    hide LaySlot, Added, Expanded, SlotPosition;
    var r, r', fi := Expanded(slots, at, o), Expanded(slots, at, o + [x]), at + |Added(slots, o)|;
    AddedMore(slots, o, x);
    AddedLacks(slots, o, x);
    forall q | 0 <= q < |r|
      ensures !Holds(r[q], x.key)
      ensures r'[if q < fi then q else q + 1] == r[q]
    {
      var q' := if q < fi then q else q + 1;
      ExpandedAt(slots, at, o, q);
      ExpandedAt(slots, at, o + [x], q');
      if q < at || q >= fi {
        var j := if q < at then q else q - |Added(slots, o)|;
        LaidOnce(slots[j], o, x);
        assert !Holds(slots[j], x.key);
      }
    }
    ExpandedAt(slots, at, o + [x], fi);
    forall q | 0 <= q < |r'|
      ensures r'[q] == (r[..fi] + [Named(x)] + r[fi..])[q]
    {
      if q > fi {
        assert r'[if q - 1 < fi then q - 1 else q - 1 + 1] == r[q - 1];
      } else if q < fi {
        assert r'[if q < fi then q else q + 1] == r[q];
      }
    }
  }

  lemma NothingSpread(slots: seq<Slot>, at: nat)
    requires at < |slots|
    ensures Expanded(slots, at, []) == slots && Added(slots, []) == []
  {
    hide Names;
    forall i | 0 <= i < |slots|
      ensures LaySlot(slots[i], []) == slots[i]
    {
      assert !HasKey([], if slots[i].Named? then slots[i].entry.key else "");
    }
    assert Lay(slots[..at], []) == slots[..at] && Lay(slots[at..], []) == slots[at..];
  }

  /** The resolved map's fields, each looked up in what there is so far, and its edges, laid over the base's. */
  method ExpandSubstitution(slots: seq<Slot>, edges: seq<Entry>, id: nat, resolved: IRMap)
      returns (slots': seq<Slot>, edges': seq<Entry>, ghost at: nat)
    requires DistinctWithinSlots(slots) && DistinctWithin(edges) && AllDistinct(resolved) && Placeholder(id) in slots
    ensures at < |slots| && slots[at] == Placeholder(id) && Placeholder(id) !in slots[..at]
    ensures slots' == Expanded(slots, at, resolved.fields) && edges' == MergeEntries(edges, resolved.edges)
  {
    hide Expanded, Added, Holds, MergeEntry, SlotPosition;
    var fi := 0;
    while slots[fi] != Placeholder(id)
      invariant fi < |slots| && Placeholder(id) in slots[fi..] && Placeholder(id) !in slots[..fi]
      decreases |slots| - fi
    {
      fi := fi + 1;
    }
    at := fi;
    var o := resolved.fields;
    slots' := slots;
    NothingSpread(slots, at);
    assert o[..0] == [];
    for j := 0 to |o|
      invariant slots' == Expanded(slots, at, o[..j]) && fi == at + |Added(slots, o[..j])|
    {
      var x := o[j];
      assert o[..j + 1] == o[..j] + [x];
      AddedMore(slots, o[..j], x);
      Step(slots, at, o[..j], x);
      var p := SlotPosition(slots', x.key, 0);
      if p == |slots'| {
        slots' := slots'[..fi] + [Named(x)] + slots'[fi..];
        fi := fi + 1;
      } else {
        var e := OverlayEntry(slots'[p].entry, x);
        slots' := slots'[p := Named(e)];
      }
    }
    assert o[..|o|] == o;
    edges' := OverlayEntries(edges, resolved.edges);
  }

  lemma Step(slots: seq<Slot>, at: nat, o: seq<Entry>, x: Entry)
    requires at < |slots| && DistinctWithinSlots(slots) && Distinct(o + [x])
    ensures var r, r' := Expanded(slots, at, o), Expanded(slots, at, o + [x]);
            var p, fi := SlotPosition(r, x.key, 0), at + |Added(slots, o)|;
            if p == |r| then fi <= |r| && r' == r[..fi] + [Named(x)] + r[fi..] && !HasSlot(slots, x.key)
            else r[p].Named? && r' == r[p := Named(MergeEntry(r[p].entry, x))] && HasSlot(slots, x.key)
                 && (HasMap(r[p].entry) ==> AllDistinct(r[p].entry.composite.value.m))
  {
    hide Expanded, Added, MergeEntry, SlotPosition;
    if HasSlot(slots, x.key) {
      var i :| 0 <= i < |slots| && Holds(slots[i], x.key);
      FoundStep(slots, at, o, x, i);
    } else {
      NotFoundStep(slots, at, o, x);
    }
  }

  // ----- what a spread comes to -----

  /** Expands the spread and takes the placeholder away. */
  method SpreadMap(slots: seq<Slot>, edges: seq<Entry>, id: nat, resolved: IRMap)
        returns (slots': seq<Slot>, edges': seq<Entry>)
    requires DistinctWithinSlots(slots) && DistinctWithin(edges) && AllDistinct(resolved) && Placeholder(id) in slots
    ensures IsSpread(slots, id, resolved.fields, slots') && edges' == MergeEntries(edges, resolved.edges)
  {
    hide Names, LaySlot, DistinctWithinSlots, DistinctWithin, AllDistinct;
    ghost var at;
    slots', edges', at := ExpandSubstitution(slots, edges, id, resolved);
    ghost var added := Added(slots, resolved.fields);
    PlaceholderStays(slots, at, id, resolved.fields);
    var i := 0;
    while slots'[i] != Placeholder(id)
      invariant i <= at + |added| < |slots'|
      invariant slots' == Expanded(slots, at, resolved.fields)
      decreases |slots'| - i
    {
      i := i + 1;
    }
    slots' := slots'[..i] + slots'[i + 1..];
  }

  ghost predicate IsSpread(slots: seq<Slot>, id: nat, o: seq<Entry>, r: seq<Slot>) {
    exists at :: SpreadAt(slots, at, id, o, r)
  }

  predicate SpreadAt(slots: seq<Slot>, at: nat, id: nat, o: seq<Entry>, r: seq<Slot>) {
    && at < |slots| && slots[at] == Placeholder(id)
    && r == Lay(slots[..at], o) + Added(slots, o) + Lay(slots[at + 1..], o)
  }

  lemma PlaceholderStays(slots: seq<Slot>, at: nat, id: nat, o: seq<Entry>)
    requires at < |slots| && slots[at] == Placeholder(id) && Placeholder(id) !in slots[..at]
    ensures var r, fi := Expanded(slots, at, o), at + |Added(slots, o)|;
            && fi < |r| && r[fi] == Placeholder(id) && (forall q :: 0 <= q < fi ==> r[q] != Placeholder(id))
            && SpreadAt(slots, at, id, o, r[..fi] + r[fi + 1..])
  {
    hide Names;
    var r, fi := Expanded(slots, at, o), at + |Added(slots, o)|;
    forall q | 0 <= q < fi
      ensures r[q] != Placeholder(id)
    {
      ExpandedAt(slots, at, o, q);
      if q < at {
        assert slots[..at][q] == slots[q];
      }
    }
    assert slots[at..] == [slots[at]] + slots[at + 1..];
    assert Lay(slots[at..], o) == [slots[at]] + Lay(slots[at + 1..], o);
  }

  lemma {:induction false} NamesLaid(slots: seq<Slot>, o: seq<Entry>)
    ensures Names(Lay(slots, o)) == Over(Names(slots), o)
    decreases |slots|
  {
    hide Find, LaidOver;
    if slots != [] {
      var init, last := slots[..|slots| - 1], slots[|slots| - 1];
      NamesLaid(init, o);
      assert Lay(slots, o)[..|slots| - 1] == Lay(init, o);
      if last.Named? {
        OverLast(Names(slots), o);
        assert Names(slots)[..|Names(slots)| - 1] == Names(init);
      } else {
        assert Names(slots) == Names(init);
      }
    }
  }

  lemma {:induction false} NamesWrapped(es: seq<Entry>)
    ensures Names(Wrap(es)) == es
    decreases |es|
  {
    if es != [] {
      NamesWrapped(es[..|es| - 1]);
      assert Wrap(es)[..|es| - 1] == Wrap(es[..|es| - 1]);
    }
  }

  /** A spread is the overlay of the map's fields, except that the added ones stand where the placeholder stood. */
  lemma SpreadIsOverlay(slots: seq<Slot>, at: nat, id: nat, o: seq<Entry>, r: seq<Slot>)
    requires SpreadAt(slots, at, id, o, r)
    ensures var base := Names(slots);
            var front, back, added := Over(Names(slots[..at]), o), Over(Names(slots[at + 1..]), o),
              Filter(o, NotIn(base));
            && Names(r) == front + added + back
            && MergeEntries(base, o) == front + back + added
  {
    hide Names, Over, Filter;
    var before, after := slots[..at], slots[at + 1..];
    assert slots == before + [slots[at]] + after;
    NamesConcat(before + [slots[at]], after);
    NamesConcat(before, [slots[at]]);
    NoName(slots[at]);
    OverConcat(Names(before), Names(after), o);
    NamesConcat(Lay(before, o) + Added(slots, o), Lay(after, o));
    NamesConcat(Lay(before, o), Added(slots, o));
    NamesLaid(before, o);
    NamesLaid(after, o);
    NamesWrapped(Filter(o, NotIn(Names(slots))));
    assert Names(before) + [] == Names(before);
  }

  lemma NoName(slot: Slot)
    requires slot.Placeholder?
    ensures Names([slot]) == []
  {
    assert [slot][..0] == [];
  }
}

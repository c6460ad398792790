/**
 Lookups along paths through nested maps, for fields and for edges, by scan and by index. Edge lookups first move an
 edge to the map both its ends live in.
 */
module IRPaths {
  import opened Options
  import opened Lists
  import opened KeyPath
  import opened EdgeKeys
  import opened IRIndex

  /** A map with the maps its fields hold. */
  datatype Tree = Tree(fields: seq<Branch>, edges: seq<Edge>)

  datatype Branch = Branch(name: Name, map_: Option<Tree>)

  predicate BranchAnswers(b: Branch, s: Name, reserved: set<string>) {
    EqualFold(b.name.text, s.text) && (IsReserved(s.text, reserved) ==> b.name.unquoted == s.unquoted)
  }

  predicate IsUnderscore(s: Name) {
    s.text == "_" && s.unquoted
  }

  function Onto(b: Branch, rest: Option<seq<Branch>>): Option<seq<Branch>> {
    if rest.Some? then Some([b] + rest.value) else None
  }

  /** The fields on the way to the last one. The scan goes on past a matching field that has no map to descend into. */
  function LinearTrail(fields: seq<Branch>, path: seq<Name>, reserved: set<string>): Option<seq<Branch>>
    decreases path, |fields|
  {
    if path == [] || IsUnderscore(path[0]) || fields == [] then None
    else
      var b := fields[0];
      if !BranchAnswers(b, path[0], reserved) then LinearTrail(fields[1..], path, reserved)
      else if |path| == 1 then Some([b])
      else if b.map_.Some? then Onto(b, LinearTrail(b.map_.value.fields, path[1..], reserved))
      else LinearTrail(fields[1..], path, reserved)
  }

  function FirstBranch(fields: seq<Branch>, s: Name, reserved: set<string>): (r: Option<Branch>)
    ensures r.Some? ==> r.value in fields && BranchAnswers(r.value, s, reserved)
  {
    if fields == [] then None
    else if BranchAnswers(fields[0], s, reserved) then Some(fields[0])
    else FirstBranch(fields[1..], s, reserved)
  }

  /** The indexed lookup takes the first match on each level; an underscore climbs past the root and finds nothing. */
  function IndexedTrail(fields: seq<Branch>, path: seq<Name>, reserved: set<string>): Option<seq<Branch>>
    decreases |path|
  {
    if path == [] || IsUnderscore(path[0]) then None
    else
      var b := FirstBranch(fields, path[0], reserved);
      if b.None? then None
      else if |path| == 1 then Some([b.value])
      else if b.value.map_.None? then None
      else Onto(b.value, IndexedTrail(b.value.map_.value.fields, path[1..], reserved))
  }

  ghost predicate AllDistinct(t: Tree, reserved: set<string>) {
    && (forall i, j :: 0 <= i < j < |t.fields| ==>
        KeyOf(t.fields[i].name, reserved) !=
        KeyOf(t.fields[j].name, reserved))
    && (forall b :: b in t.fields && b.map_.Some? ==> AllDistinct(b.map_.value, reserved))
  }

  lemma SameAnswer(b: Branch, c: Branch, s: Name, reserved: set<string>)
    requires BranchAnswers(b, s, reserved) && BranchAnswers(c, s, reserved)
    ensures KeyOf(b.name, reserved) == KeyOf(c.name, reserved)
  {
    FoldIsEqualFold(b.name.text, c.name.text);
  }

  lemma {:induction false} NoOther(fields: seq<Branch>, path: seq<Name>, b: Branch, reserved: set<string>)
    requires path != [] && BranchAnswers(b, path[0], reserved)
    requires forall i :: 0 <= i < |fields| ==> KeyOf(fields[i].name, reserved) != KeyOf(b.name, reserved)
    ensures LinearTrail(fields, path, reserved) == None
    decreases |fields|
  {
    hide BranchAnswers, KeyOf;
    if fields != [] {
      if BranchAnswers(fields[0], path[0], reserved) {
        SameAnswer(fields[0], b, path[0], reserved);
      }
      NoOther(fields[1..], path, b, reserved);
    }
  }

  /** On maps whose fields have distinct keys, the two lookups agree on every path. */
  lemma {:induction false} TrailsAgree(t: Tree, n: nat, path: seq<Name>, reserved: set<string>)
    requires AllDistinct(t, reserved) && n <= |t.fields|
    ensures IndexedTrail(t.fields[n..], path, reserved) == LinearTrail(t.fields[n..], path, reserved)
    decreases |path|, |t.fields| - n
  {
    hide BranchAnswers, KeyOf;
    var fields := t.fields[n..];
    if path != [] && !IsUnderscore(path[0]) && fields != [] {
      assert fields[1..] == t.fields[n + 1..] && fields[0] == t.fields[n];
      if !BranchAnswers(fields[0], path[0], reserved) {
        TrailsAgree(t, n + 1, path, reserved);
      } else if |path| > 1 {
        if fields[0].map_.Some? {
          var sub := fields[0].map_.value;
          assert fields[0] in t.fields;
          TrailsAgree(sub, 0, path[1..], reserved);
          assert sub.fields[0..] == sub.fields;
        } else {
          NoOther(fields[1..], path, fields[0], reserved);
        }
      }
    }
  }

  // ----- which duplicates make the lookups differ -----

  function FirstMapped(fields: seq<Branch>, s: Name, reserved: set<string>): (r: Option<Branch>)
    ensures r.Some? ==> r.value in fields && r.value.map_.Some?
  {
    if fields == [] then None
    else if BranchAnswers(fields[0], s, reserved) && fields[0].map_.Some? then Some(fields[0])
    else FirstMapped(fields[1..], s, reserved)
  }

  /** The name to look a field up by; an unquoted underscore would climb. */
  function Ask(n: Name): Name {
    Name(n.text, n.unquoted && n.text != "_")
  }

  /** No field can be looked up. */
  predicate Barren(fields: seq<Branch>, reserved: set<string>) {
    forall b :: b in fields ==> FirstBranch(fields, Ask(b.name), reserved).None?
  }

  /**
   Where the first field of a key has no map, no later one of that key has a map with anything in it; and so on in the
   maps that can be reached.
   */
  predicate NoShadow(t: Tree, reserved: set<string>) {
    forall b :: b in t.fields ==>
      var first := FirstBranch(t.fields, Ask(b.name), reserved);
      first.Some? ==>
        if first.value.map_.Some? then NoShadow(first.value.map_.value, reserved)
        else
          var later := FirstMapped(t.fields, Ask(b.name), reserved);
          later.Some? ==> Barren(later.value.map_.value.fields, reserved)
  }

  /** A field is looked up as by its own name. */
  lemma {:induction false} AskSame(fields: seq<Branch>, s: Name, b: Branch, reserved: set<string>)
    requires !IsUnderscore(s) && BranchAnswers(b, s, reserved)
    ensures FirstBranch(fields, Ask(b.name), reserved) == FirstBranch(fields, s, reserved)
    ensures FirstMapped(fields, Ask(b.name), reserved) == FirstMapped(fields, s, reserved)
    decreases |fields|
  {
    hide BranchAnswers;
    if fields != [] {
      AskAnswers(fields[0], s, b, reserved);
      AskSame(fields[1..], s, b, reserved);
    }
  }

  lemma AskAnswers(c: Branch, s: Name, b: Branch, reserved: set<string>)
    requires !IsUnderscore(s) && BranchAnswers(b, s, reserved)
    ensures BranchAnswers(c, Ask(b.name), reserved) <==> BranchAnswers(c, s, reserved)
  {
    if b.name.text == "_" {
      OnlyUnderscore(s.text);
    } else if s.text == "_" {
      OnlyUnderscore(b.name.text);
    }
  }

  lemma OnlyUnderscore(s: string)
    ensures EqualFold("_", s) ==> s == "_"
  {
    if EqualFold("_", s) {
      assert Lower("_")[0] == Lower(s)[0] == LowerChar(s[0]);
    }
  }

  lemma {:induction false} MappedAfterFirst(fields: seq<Branch>, s: Name, reserved: set<string>)
    ensures var first, mapped := FirstBranch(fields, s, reserved), FirstMapped(fields, s, reserved);
            && (first.None? ==> mapped.None?)
            && (first.Some? && first.value.map_.Some? ==> mapped == first)
    decreases |fields|
  {
    hide BranchAnswers;
    if fields != [] {
      MappedAfterFirst(fields[1..], s, reserved);
    }
  }

  /** The scan descends into the first field that answers and has a map. */
  lemma {:induction false} LinearStep(fields: seq<Branch>, path: seq<Name>, reserved: set<string>)
    requires path != [] && !IsUnderscore(path[0])
    ensures LinearTrail(fields, path, reserved) ==
            if |path| == 1 then
              var b := FirstBranch(fields, path[0], reserved); if b.Some? then Some([b.value]) else None
            else
              var b := FirstMapped(fields, path[0], reserved);
              if b.Some? then Onto(b.value, LinearTrail(b.value.map_.value.fields, path[1..], reserved)) else None
    decreases |fields|
  {
    hide BranchAnswers, Onto;
    if fields != [] {
      LinearStep(fields[1..], path, reserved);
    }
  }

  lemma BarrenFindsNothing(fields: seq<Branch>, path: seq<Name>, reserved: set<string>)
    requires Barren(fields, reserved)
    ensures LinearTrail(fields, path, reserved) == None
  {
    hide BranchAnswers, FirstMapped, LinearTrail;
    if path != [] && !IsUnderscore(path[0]) {
      var b := FirstBranch(fields, path[0], reserved);
      if b.Some? {
        AskSame(fields, path[0], b.value, reserved);
      }
      MappedAfterFirst(fields, path[0], reserved);
      LinearStep(fields, path, reserved);
    } else {
      NothingToFind(fields, path, reserved);
    }
  }

  lemma NothingToFind(fields: seq<Branch>, path: seq<Name>, reserved: set<string>)
    requires path == [] || IsUnderscore(path[0])
    ensures LinearTrail(fields, path, reserved) == None && IndexedTrail(fields, path, reserved) == None
  {
  }

  lemma {:induction false} UnshadowedAgree(t: Tree, path: seq<Name>, reserved: set<string>)
    requires NoShadow(t, reserved)
    ensures IndexedTrail(t.fields, path, reserved) == LinearTrail(t.fields, path, reserved)
    decreases |path|
  {
    hide BranchAnswers, FirstBranch, FirstMapped, LinearTrail, Barren;
    if path == [] || IsUnderscore(path[0]) {
      NothingToFind(t.fields, path, reserved);
    } else {
      var first, mapped := FirstBranch(t.fields, path[0], reserved), FirstMapped(t.fields, path[0], reserved);
      LinearStep(t.fields, path, reserved);
      MappedAfterFirst(t.fields, path[0], reserved);
      if first.Some? && |path| > 1 {
        AskSame(t.fields, path[0], first.value, reserved);
        if first.value.map_.Some? {
          UnshadowedAgree(first.value.map_.value, path[1..], reserved);
        } else if mapped.Some? {
          BarrenFindsNothing(mapped.value.map_.value.fields, path[1..], reserved);
        }
      }
    }
  }

  lemma OntoEqual(b: Branch, p: Option<seq<Branch>>, q: Option<seq<Branch>>)
    ensures Onto(b, p) == Onto(b, q) ==> p == q
  {
    if p.Some? && q.Some? && Onto(b, p) == Onto(b, q) {
      assert ([b] + p.value)[1..] == p.value && ([b] + q.value)[1..] == q.value;
    }
  }

  /** A path on which the two lookups differ. */
  lemma {:induction false} ShadowSeen(t: Tree, reserved: set<string>) returns (path: seq<Name>)
    requires !NoShadow(t, reserved)
    ensures IndexedTrail(t.fields, path, reserved) != LinearTrail(t.fields, path, reserved)
    decreases t
  {
    hide BranchAnswers, FirstBranch, FirstMapped, LinearTrail;
    var b :| b in t.fields &&
      var first := FirstBranch(t.fields, Ask(b.name), reserved);
      first.Some? &&
        if first.value.map_.Some? then !NoShadow(first.value.map_.value, reserved)
        else
          var later := FirstMapped(t.fields, Ask(b.name), reserved);
          later.Some? && !Barren(later.value.map_.value.fields, reserved);
    var s := Ask(b.name);
    var first := FirstBranch(t.fields, s, reserved).value;
    MappedAfterFirst(t.fields, s, reserved);
    if first.map_.Some? {
      var rest := ShadowSeen(first.map_.value, reserved);
      if rest == [] {
        NothingToFind(first.map_.value.fields, rest, reserved);
      }
      path := [s] + rest;
      assert path[1..] == rest;
      LinearStep(t.fields, path, reserved);
      OntoEqual(first, IndexedTrail(first.map_.value.fields, rest, reserved),
                LinearTrail(first.map_.value.fields, rest, reserved));
    } else {
      var sub := FirstMapped(t.fields, s, reserved).value.map_.value;
      var c :| c in sub.fields && FirstBranch(sub.fields, Ask(c.name), reserved).Some?;
      path := [s, Ask(c.name)];
      assert path[1..] == [Ask(c.name)];
      LinearStep(t.fields, path, reserved);
      LinearStep(sub.fields, path[1..], reserved);
    }
  }

  /** The two lookups agree on every path exactly when no field without a map hides a later one of its key. */
  lemma TrailsAgreeIff(t: Tree, reserved: set<string>)
    ensures (forall path :: IndexedTrail(t.fields, path, reserved) == LinearTrail(t.fields, path, reserved)) <==>
            NoShadow(t, reserved)
  {
    hide LinearTrail, IndexedTrail, NoShadow;
    if NoShadow(t, reserved) {
      forall path: seq<Name>
        ensures IndexedTrail(t.fields, path, reserved) == LinearTrail(t.fields, path, reserved)
      {
        UnshadowedAgree(t, path, reserved);
      }
    } else {
      var path := ShadowSeen(t, reserved);
    }
  }

  /** With two fields of one key, the first without a map, the lookups part. */
  lemma DuplicatesPart(reserved: set<string>)
    ensures var a, b := Name("a", true), Name("b", true);
            var fields := [Branch(a, None), Branch(a, Some(Tree([Branch(b, None)], [])))];
            IndexedTrail(fields, [a, b], reserved) != LinearTrail(fields, [a, b], reserved)
  {
    var a, b := Name("a", true), Name("b", true);
    var fields := [Branch(a, None), Branch(a, Some(Tree([Branch(b, None)], [])))];
    assert FirstBranch(fields, a, reserved) == Some(fields[0]);
    assert [a, b][1..] == [b] && fields[1..][0] == fields[1];
    assert LinearTrail([Branch(b, None)], [b], reserved) == Some([Branch(b, None)]);
    assert LinearTrail(fields[1..], [a, b], reserved).Some?;
  }

  // ----- where an edge lives -----

  /** A map's surroundings, nearest first: the name of the field that holds it, and the map that has the field. */
  datatype Frame = Frame(name: Name, outer: Tree)

  datatype Place = Place(up: seq<Frame>, here: Tree)

  /** Invalid stands for an underscore too many; Panics for a path that is read past its end. */
  datatype Resolution = Resolved(id: EdgeID, place: Place, common: seq<Name>) | Invalid | Panics

  function Lead(path: seq<Name>): (n: nat)
    ensures n <= |path|
  {
    if path == [] || !IsUnderscore(path[0]) then 0 else 1 + Lead(path[1..])
  }

  /** A path of nothing but underscores counts as having none. */
  function CountUnderscores(path: seq<Name>): nat {
    if Lead(path) == |path| then 0 else Lead(path)
  }

  function MaxUnderscores(id: EdgeID): nat {
    var a, b := CountUnderscores(id.srcPath), CountUnderscores(id.dstPath);
    if a > b then a else b
  }

  const ROOT_NAME := Name("root", true)

  function Outside(path: seq<Name>, name: Name): seq<Name>
    requires path != []
  {
    if IsUnderscore(path[0]) then path[1..] else [name] + path
  }

  /** Steps out n times: a leading underscore is used up, any other path gets the name of the field left behind. */
  function Climb(id: EdgeID, place: Place, n: nat): (r: Resolution)
    requires n <= Lead(id.srcPath) || n <= Lead(id.dstPath)
    ensures r.Resolved? ==> |r.id.srcPath| + |r.id.dstPath| <= |id.srcPath| + |id.dstPath| && r.common == []
    decreases n
  {
    if n == 0 then Resolved(id, place, [])
    else if id.srcPath == [] || id.dstPath == [] then Panics
    else if place.up == [] then Invalid
    else
      var name := place.up[0].name;
      Climb(id.(srcPath := Outside(id.srcPath, name), dstPath := Outside(id.dstPath, name)),
            Place(place.up[1..], place.up[0].outer), n - 1)
  }

  lemma SharedMore(src: seq<Name>, dst: seq<Name>, k: nat)
    requires k < |src| && k < |dst| && EqualFold(src[0].text, dst[0].text) && PathEqual(src[1..][..k], dst[1..][..k])
    ensures PathEqual(src[..k + 1], dst[..k + 1])
  {
    var p, q := src[..k + 1], dst[..k + 1];
    forall i | 0 <= i < k + 1
      ensures EqualFold(p[i].text, q[i].text)
    {
      if i > 0 {
        assert p[i] == src[1..][..k][i - 1] && q[i] == dst[1..][..k][i - 1];
      }
    }
  }

  /** How many elements the two paths share in front, not counting the last of either. */
  function Shared(src: seq<Name>, dst: seq<Name>): (k: nat)
    ensures k == 0 || (k < |src| && k < |dst|)
    ensures k <= |src| && k <= |dst| && PathEqual(src[..k], dst[..k])
  {
    if |src| > 1 && |dst| > 1 && EqualFold(src[0].text, dst[0].text) && '*' !in src[0].text then
      var k := Shared(src[1..], dst[1..]);
      SharedMore(src, dst, k);
      k + 1
    else 0
  }

  function Resolve(id: EdgeID, place: Place): (r: Resolution)
    ensures r.Resolved? ==> |r.id.srcPath| + |r.id.dstPath| + 2 * |r.common| <= |id.srcPath| + |id.dstPath|
  {
    var r := Climb(id, place, MaxUnderscores(id));
    if !r.Resolved? then r
    else
      var src, dst := r.id.srcPath, r.id.dstPath;
      var k := Shared(src, dst);
      Resolved(r.id.(srcPath := src[k..], dstPath := dst[k..]), r.place, src[..k])
  }

  /** Out of the maps that the underscores leave. */
  method ClimbOut(id: EdgeID, place: Place) returns (r: Resolution)
    ensures r == Climb(id, place, MaxUnderscores(id))
  {
    var max := MaxUnderscores(id);
    var e, p, i := id, place, 0;
    while i < max
      invariant i <= max && (max - i <= Lead(e.srcPath) || max - i <= Lead(e.dstPath))
      invariant Climb(e, p, max - i) == Climb(id, place, max)
    {
      var name := if p.up == [] then ROOT_NAME else p.up[0].name;
      if e.srcPath == [] {
        return Panics;
      }
      e := e.(srcPath := Outside(e.srcPath, name));
      if e.dstPath == [] {
        return Panics;
      }
      e := e.(dstPath := Outside(e.dstPath, name));
      if p.up == [] {
        return Invalid;
      }
      p := Place(p.up[1..], p.up[0].outer);
      i := i + 1;
    }
    r := Resolved(e, p, []);
  }

  /** The two loops that resolve an edge: out of the maps its underscores leave, and into what its paths share. */
  method ResolveEdge(id: EdgeID, place: Place) returns (r: Resolution)
    ensures r == Resolve(id, place)
  {
    hide Climb, EqualFold;
    r := ClimbOut(id, place);
    if r.Resolved? {
      var e := r.id;
      var src, dst, common := e.srcPath, e.dstPath, [];
      while |src| > 1 && |dst| > 1
        invariant |common| <= |e.srcPath| && |common| <= |e.dstPath|
        invariant common == e.srcPath[..|common|] && src == e.srcPath[|common|..] && dst == e.dstPath[|common|..]
        invariant Shared(e.srcPath, e.dstPath) == |common| + Shared(src, dst)
        decreases |src|
      {
        if !EqualFold(src[0].text, dst[0].text) || '*' in src[0].text {
          break;
        }
        common, src, dst := common + [src[0]], src[1..], dst[1..];
      }
      assert Shared(src, dst) == 0;
      r := Resolved(e.(srcPath := src, dstPath := dst), r.place, common);
    }
  }

  function UpNames(up: seq<Frame>): seq<Name> {
    if up == [] then [] else UpNames(up[1..]) + [up[0].name]
  }

  /** The path from the outermost map to what the path names here. */
  function Absolute(up: seq<Frame>, path: seq<Name>): seq<Name>
    decreases |up|
  {
    if path != [] && IsUnderscore(path[0]) && up != [] then Absolute(up[1..], path[1..]) else UpNames(up) + path
  }

  /** Fields have proper names: an unquoted underscore never names one. */
  predicate Proper(up: seq<Frame>) {
    forall i :: 0 <= i < |up| ==> !IsUnderscore(up[i].name)
  }

  lemma OutsideSame(up: seq<Frame>, path: seq<Name>)
    requires up != [] && path != [] && Proper(up)
    ensures Absolute(up[1..], Outside(path, up[0].name)) == Absolute(up, path)
  {
    if !IsUnderscore(path[0]) {
      assert UpNames(up[1..]) + ([up[0].name] + path) == UpNames(up[1..]) + [up[0].name] + path;
    }
  }

  predicate Names(path: seq<Name>) {
    Lead(path) < |path|
  }

  lemma OutsideNames(path: seq<Name>, name: Name)
    requires Names(path) && !IsUnderscore(name)
    ensures Names(Outside(path, name)) && Lead(Outside(path, name)) == if Lead(path) == 0 then 0 else Lead(path) - 1
  {
  }

  lemma {:induction false} ClimbKeepsEnds(id: EdgeID, place: Place, n: nat)
    requires Proper(place.up) && Names(id.srcPath) && Names(id.dstPath)
    requires (n <= Lead(id.srcPath) || n <= Lead(id.dstPath))
    ensures var r := Climb(id, place, n);
            && r.Resolved? == (n <= |place.up|) && !r.Panics?
            && (r.Resolved? ==>
                  && Absolute(r.place.up, r.id.srcPath) == Absolute(place.up, id.srcPath)
                  && Absolute(r.place.up, r.id.dstPath) == Absolute(place.up, id.dstPath)
                  && Names(r.id.srcPath) && Names(r.id.dstPath) && Proper(r.place.up)
                  && (Lead(id.srcPath) <= n ==> Lead(r.id.srcPath) == 0)
                  && (Lead(id.dstPath) <= n ==> Lead(r.id.dstPath) == 0))
    decreases n
  {
    hide Absolute, Outside;
    if n > 0 && place.up != [] {
      var name := place.up[0].name;
      OutsideSame(place.up, id.srcPath);
      OutsideSame(place.up, id.dstPath);
      OutsideNames(id.srcPath, name);
      OutsideNames(id.dstPath, name);
      ClimbKeepsEnds(id.(srcPath := Outside(id.srcPath, name), dstPath := Outside(id.dstPath, name)),
                     Place(place.up[1..], place.up[0].outer), n - 1);
    }
  }

  /**
   Moving an edge to the map its ends share leaves both ends where they were, up to letter case, and fails exactly when
   it has more underscores than there are maps around.
   */
  lemma ResolveKeepsEnds(id: EdgeID, place: Place)
    requires Proper(place.up) && Names(id.srcPath) && Names(id.dstPath)
    ensures var r := Resolve(id, place);
            && !r.Panics? && r.Invalid? == (MaxUnderscores(id) > |place.up|)
            && (r.Resolved? ==>
                  && Absolute(r.place.up, r.common + r.id.srcPath) == Absolute(place.up, id.srcPath)
                  && PathEqual(Absolute(r.place.up, r.common + r.id.dstPath), Absolute(place.up, id.dstPath))
                  && r.id.srcPath != [] && r.id.dstPath != [])
  {
    hide Climb, Shared, Absolute, EqualFold;
    var c := Climb(id, place, MaxUnderscores(id));
    ClimbKeepsEnds(id, place, MaxUnderscores(id));
    if c.Resolved? {
      var src, dst := c.id.srcPath, c.id.dstPath;
      var k := Shared(src, dst);
      assert src[..k] + src[k..] == src;
      MixedEnd(c.place.up, src, dst, k);
    }
  }

  /** A path of underscores only, used up after n steps with a step still to go. */
  predicate RunsOut(path: seq<Name>, place: Place, n: nat) {
    !Names(path) && |path| < n && |path| <= |place.up|
  }

  lemma OutsideRunsOut(path: seq<Name>, place: Place, n: nat)
    requires path != [] && place.up != [] && Proper(place.up) && n > 0
    ensures RunsOut(Outside(path, place.up[0].name), Place(place.up[1..], place.up[0].outer), n - 1) ==
            RunsOut(path, place, n)
    ensures n <= Lead(path) ==> n - 1 <= Lead(Outside(path, place.up[0].name))
  {
  }

  lemma {:induction false} ClimbRunsOut(id: EdgeID, place: Place, n: nat)
    requires Proper(place.up) && (n <= Lead(id.srcPath) || n <= Lead(id.dstPath))
    ensures Climb(id, place, n).Panics? <==> RunsOut(id.srcPath, place, n) || RunsOut(id.dstPath, place, n)
    decreases n
  {
    hide Outside, RunsOut;
    if n > 0 && id.srcPath != [] && id.dstPath != [] && place.up != [] {
      var name := place.up[0].name;
      OutsideRunsOut(id.srcPath, place, n);
      OutsideRunsOut(id.dstPath, place, n);
      ClimbRunsOut(id.(srcPath := Outside(id.srcPath, name), dstPath := Outside(id.dstPath, name)),
                   Place(place.up[1..], place.up[0].outer), n - 1);
    } else {
      AtOnce(id.srcPath, place, n);
      AtOnce(id.dstPath, place, n);
    }
  }

  lemma AtOnce(path: seq<Name>, place: Place, n: nat)
    ensures path == [] ==> RunsOut(path, place, n) == (n > 0)
    ensures path != [] && (n == 0 || place.up == []) ==> !RunsOut(path, place, n)
  {
  }

  /**
   Resolving reads past the end of a path exactly when one end consists of underscores only, has fewer of them than the
   other end has in front, and there are maps enough to get that far.
   */
  lemma ResolvePanicsIff(id: EdgeID, place: Place)
    requires Proper(place.up)
    ensures Resolve(id, place).Panics? <==>
            RunsOut(id.srcPath, place, MaxUnderscores(id)) || RunsOut(id.dstPath, place, MaxUnderscores(id))
  {
    hide Climb, RunsOut, Shared;
    ClimbRunsOut(id, place, MaxUnderscores(id));
  }

  /** The edge from `_` to `_._.x` in a map one field below the root. */
  lemma UnderscoresRunOut(outer: Tree, here: Tree)
    ensures var up, x := Name("_", true), Name("x", true);
            Resolve(EdgeID([up], false, [up, up, x], true, None), Place([Frame(Name("a", true), outer)], here)).Panics?
  {
    var up, x := Name("_", true), Name("x", true);
    var id, place := EdgeID([up], false, [up, up, x], true, None), Place([Frame(Name("a", true), outer)], here);
    assert [up, up, x][1..] == [up, x] && [up, x][1..] == [x] && [up][1..] == [];
    assert IsUnderscore(up) && !IsUnderscore(x);
    assert Lead([x]) == 0;
    assert Lead([up, x]) == 1 + Lead([up, x][1..]);
    assert Lead([up, up, x]) == 1 + Lead([up, up, x][1..]);
    assert Lead([up]) == 1 + Lead([up][1..]);
    assert MaxUnderscores(id) == 2 && RunsOut([up], place, 2);
    ResolvePanicsIff(id, place);
  }

  lemma FoldSame(s: string)
    ensures EqualFold(s, s)
  {
  }

  lemma MixedEnd(up: seq<Frame>, src: seq<Name>, dst: seq<Name>, k: nat)
    requires k <= |src| && k <= |dst| && PathEqual(src[..k], dst[..k])
    requires Names(src) && Names(dst) && Lead(src) == Lead(dst) == 0
    ensures PathEqual(Absolute(up, src[..k] + dst[k..]), Absolute(up, dst))
  {
    hide UpNames, EqualFold;
    var mixed := src[..k] + dst[k..];
    assert !IsUnderscore(mixed[0]);
    forall i | 0 <= i < |dst|
      ensures EqualFold(mixed[i].text, dst[i].text)
    {
      if i < k {
        assert mixed[i] == src[..k][i] && dst[i] == dst[..k][i];
      } else {
        assert mixed[i] == dst[i];
        FoldSame(dst[i].text);
      }
    }
    forall i | 0 <= i < |UpNames(up)|
      ensures EqualFold(UpNames(up)[i].text, UpNames(up)[i].text)
    {
      FoldSame(UpNames(up)[i].text);
    }
  }

  // ----- edge lookups -----

  /** Into the maps of the fields on the trail, as far as they have maps. */
  function Descend(place: Place, trail: seq<Branch>): Option<Place>
    decreases |trail|
  {
    if trail == [] then Some(place)
    else if trail[0].map_.None? then None
    else Descend(Place([Frame(trail[0].name, place.here)] + place.up, trail[0].map_.value), trail[1..])
  }

  /** The lookup that scans lists; None when a path is read past its end. */
  function LinearEdges(place: Place, id: EdgeID, reserved: set<string>): Option<seq<Edge>>
    decreases |id.srcPath| + |id.dstPath|
  {
    match Resolve(id, place)
    case Panics => None
    case Invalid => Some([])
    case Resolved(id', place', common) =>
      if common == [] then Some(Filter(place'.here.edges, MatchesID(id')))
      else
        var trail := LinearTrail(place'.here.fields, common, reserved);
        if trail.None? then Some([])
        else
          var inner := Descend(place', trail.value);
          if inner.None? then Some([]) else LinearEdges(inner.value, id', reserved)
  }

  /** The lookup through indexes: of the edges under the key of the one asked for, those that match. */
  function IndexedEdges(place: Place, id: EdgeID, reserved: set<string>): Option<seq<Edge>>
    decreases |id.srcPath| + |id.dstPath|
  {
    match Resolve(id, place)
    case Panics => None
    case Invalid => Some([])
    case Resolved(id', place', common) =>
      if common == [] then Some(Filter(Filter(place'.here.edges, HasEdgeKey(EdgeKey(id'))), MatchesID(id')))
      else
        var trail := IndexedTrail(place'.here.fields, common, reserved);
        if trail.None? then Some([])
        else
          var inner := Descend(place', trail.value);
          if inner.None? then Some([]) else IndexedEdges(inner.value, id', reserved)
  }

  ghost predicate DistinctAround(place: Place, reserved: set<string>) {
    AllDistinct(place.here, reserved) && forall i :: 0 <= i < |place.up| ==> AllDistinct(place.up[i].outer, reserved)
  }

  lemma {:induction false} ClimbDistinct(id: EdgeID, place: Place, n: nat, reserved: set<string>)
    requires DistinctAround(place, reserved) && (n <= Lead(id.srcPath) || n <= Lead(id.dstPath))
    ensures Climb(id, place, n).Resolved? ==> DistinctAround(Climb(id, place, n).place, reserved)
    decreases n
  {
    hide AllDistinct;
    if n > 0 && id.srcPath != [] && id.dstPath != [] && place.up != [] {
      var name := place.up[0].name;
      ClimbDistinct(id.(srcPath := Outside(id.srcPath, name), dstPath := Outside(id.dstPath, name)),
                    Place(place.up[1..], place.up[0].outer), n - 1, reserved);
    }
  }

  /** The fields on a trail hang one below the other. */
  predicate IsTrail(fields: seq<Branch>, trail: seq<Branch>)
    decreases |trail|
  {
    trail == [] || (trail[0] in fields && (trail[0].map_.Some? ==> IsTrail(trail[0].map_.value.fields, trail[1..])))
  }

  lemma {:induction false} LinearIsTrail(fields: seq<Branch>, path: seq<Name>, reserved: set<string>)
    ensures LinearTrail(fields, path, reserved).Some? ==> IsTrail(fields, LinearTrail(fields, path, reserved).value)
    decreases path, |fields|
  {
    hide BranchAnswers;
    var trail := LinearTrail(fields, path, reserved);
    if trail.Some? {
      var b := fields[0];
      if !BranchAnswers(b, path[0], reserved) || (|path| > 1 && b.map_.None?) {
        LinearIsTrail(fields[1..], path, reserved);
        assert trail.value == [] || trail.value[0] in fields[1..];
      } else if |path| > 1 {
        LinearIsTrail(b.map_.value.fields, path[1..], reserved);
        assert trail.value[1..] == LinearTrail(b.map_.value.fields, path[1..], reserved).value;
      } else {
        assert trail.value[1..] == [];
      }
    }
  }

  lemma {:induction false} DescendDistinct(place: Place, trail: seq<Branch>, reserved: set<string>)
    requires DistinctAround(place, reserved) && IsTrail(place.here.fields, trail)
    ensures Descend(place, trail).Some? ==> DistinctAround(Descend(place, trail).value, reserved)
    decreases |trail|
  {
    if trail != [] && trail[0].map_.Some? {
      var inner := Place([Frame(trail[0].name, place.here)] + place.up, trail[0].map_.value);
      forall i | 0 <= i < |inner.up|
        ensures AllDistinct(inner.up[i].outer, reserved)
      {
        assert inner.up[i] == if i == 0 then Frame(trail[0].name, place.here) else place.up[i - 1];
      }
      DescendDistinct(inner, trail[1..], reserved);
    }
  }

  /** The two edge lookups find the same edges in the same order, wherever underscores and shared paths lead them. */
  lemma {:induction false} EdgeLookupsAgree(place: Place, id: EdgeID, reserved: set<string>)
    requires DistinctAround(place, reserved)
    ensures IndexedEdges(place, id, reserved) == LinearEdges(place, id, reserved)
    decreases |id.srcPath| + |id.dstPath|
  {
    hide Climb, Filter, EdgeKey, LinearTrail, IndexedTrail, AllDistinct, Descend, DistinctAround;
    var r := Resolve(id, place);
    if r.Resolved? {
      ClimbDistinct(id, place, MaxUnderscores(id), reserved);
      if r.common == [] {
        ScanByKey(r.place.here.edges, r.id);
      } else {
        var t := r.place.here;
        TrailsAgreeHere(r.place, r.common, reserved);
        LinearIsTrail(t.fields, r.common, reserved);
        var trail := LinearTrail(t.fields, r.common, reserved);
        if trail.Some? {
          DescendDistinct(r.place, trail.value, reserved);
          var inner := Descend(r.place, trail.value);
          if inner.Some? {
            EdgeLookupsAgree(inner.value, r.id, reserved);
          }
        }
      }
    }
  }

  lemma TrailsAgreeHere(place: Place, path: seq<Name>, reserved: set<string>)
    requires DistinctAround(place, reserved)
    ensures IndexedTrail(place.here.fields, path, reserved) == LinearTrail(place.here.fields, path, reserved)
  {
    TrailsAgree(place.here, 0, path, reserved);
    assert place.here.fields[0..] == place.here.fields;
  }
}

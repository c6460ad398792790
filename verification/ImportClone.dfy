/**
 An import is compiled once and kept as a template; each use gets a clone with nodes, reference contexts and glob
 contexts of its own, so that what is later done to one clone touches neither the template nor another clone.
 */
module ImportClone {
  import opened Options

  type Id = nat
  type Ctx = nat
  type Glob = nat

  datatype Kind = MapKind(fields: nat) | FieldKind(name: string) | EdgeKind(name: string) | ArrayKind
                | ScalarKind(value: string)

  /** Tree-shaped IR: a node, the contexts of its references, a map's globs, and what it holds. */
  datatype Tree = Tree(id: Id, kind: Kind, refs: seq<Ctx>, globs: seq<Glob>, kids: seq<Tree>)

  datatype Context = Context(scopeMap: Option<Id>, key: string)

  datatype GlobContext = GlobContext(root: Option<Glob>, refctx: Option<Ctx>, appliedFields: set<string>,
                                     appliedEdges: set<string>)

  // ----- copying the nodes -----

  function Size(t: Tree): (r: nat)
    ensures r > 0
    decreases t, 1
  {
    1 + Sizes(t.kids)
  }

  function Sizes(ts: seq<Tree>): nat
    decreases ts, 0, |ts|
  {
    if ts == [] then 0 else Sizes(ts[..|ts| - 1]) + Size(ts[|ts| - 1])
  }

  /** The same tree with fresh nodes; references and globs are still the originals'. */
  function Renumbered(t: Tree, base: Id): Tree
    decreases t, 1
  {
    Tree(base, t.kind, t.refs, t.globs, RenumberedAll(t.kids, base + 1))
  }

  function RenumberedAll(ts: seq<Tree>, base: Id): (r: seq<Tree>)
    ensures |r| == |ts|
    decreases ts, 0, |ts|
  {
    if ts == [] then []
    else
      var n := |ts| - 1;
      RenumberedAll(ts[..n], base) + [Renumbered(ts[n], base + Sizes(ts[..n]))]
  }

  function Ids(t: Tree): seq<Id>
    decreases t, 1
  {
    [t.id] + IdsAll(t.kids)
  }

  function IdsAll(ts: seq<Tree>): seq<Id>
    decreases ts, 0, |ts|
  {
    if ts == [] then [] else IdsAll(ts[..|ts| - 1]) + Ids(ts[|ts| - 1])
  }

  lemma {:induction false} RenumberedIds(t: Tree, base: Id)
    ensures Ids(Renumbered(t, base)) == seq(Size(t), i => base + i)
    decreases t, 1
  {
    RenumberedAllIds(t.kids, base + 1);
  }

  lemma {:induction false} RenumberedAllIds(ts: seq<Tree>, base: Id)
    ensures IdsAll(RenumberedAll(ts, base)) == seq(Sizes(ts), i => base + i)
    decreases ts, 0, |ts|
  {
    hide Renumbered, Size, Ids;
    if ts != [] {
      var n := |ts| - 1;
      RenumberedAllIds(ts[..n], base);
      RenumberedIds(ts[n], base + Sizes(ts[..n]));
      var r := RenumberedAll(ts, base);
      assert r[..n] == RenumberedAll(ts[..n], base);
    }
  }

  // ----- where the maps went -----

  predicate Distinct(s: seq<Id>) {
    forall i, j :: 0 <= i < j < |s| ==> s[i] != s[j]
  }

  /** The copies of the maps of a tree, by original; both trees have one shape. */
  function MapsOf(src: Tree, dst: Tree): map<Id, Id>
    requires Alike(src, dst)
    decreases src, 1
  {
    (if src.kind.MapKind? then map[src.id := dst.id] else map[]) + MapsOfAll(src.kids, dst.kids)
  }

  function MapsOfAll(ss: seq<Tree>, ds: seq<Tree>): map<Id, Id>
    requires |ss| == |ds| && forall i :: 0 <= i < |ss| ==> Alike(ss[i], ds[i])
    decreases ss, 0, |ss|
  {
    if ss == [] then map[]
    else MapsOfAll(ss[..|ss| - 1], ds[..|ss| - 1]) + MapsOf(ss[|ss| - 1], ds[|ss| - 1])
  }

  predicate Alike(src: Tree, dst: Tree)
    decreases src
  {
    && src.kind == dst.kind && |src.kids| == |dst.kids|
    && forall i :: 0 <= i < |src.kids| ==> Alike(src.kids[i], dst.kids[i])
  }

  lemma {:induction false} RenumberedAlike(t: Tree, base: Id)
    ensures Alike(t, Renumbered(t, base))
    decreases t, 1
  {
    RenumberedAllAlike(t.kids, base + 1);
  }

  lemma {:induction false} RenumberedAllAlike(ts: seq<Tree>, base: Id)
    ensures forall i :: 0 <= i < |ts| ==> Alike(ts[i], RenumberedAll(ts, base)[i])
    decreases ts, 0, |ts|
  {
    hide Renumbered, Size, Alike;
    if ts != [] {
      var n := |ts| - 1;
      RenumberedAllAlike(ts[..n], base);
      RenumberedAlike(ts[n], base + Sizes(ts[..n]));
      forall i | 0 <= i < n
        ensures Alike(ts[i], RenumberedAll(ts, base)[i])
      {
        assert ts[..n][i] == ts[i] && RenumberedAll(ts, base)[i] == RenumberedAll(ts[..n], base)[i];
      }
    }
  }

  lemma {:induction false} MapsOfKeys(src: Tree, dst: Tree)
    requires Alike(src, dst)
    ensures forall k :: k in MapsOf(src, dst) ==> k in Ids(src) && MapsOf(src, dst)[k] in Ids(dst)
    decreases src, 1
  {
    MapsOfAllKeys(src.kids, dst.kids);
  }

  lemma {:induction false} MapsOfAllKeys(ss: seq<Tree>, ds: seq<Tree>)
    requires |ss| == |ds| && forall i :: 0 <= i < |ss| ==> Alike(ss[i], ds[i])
    ensures forall k :: k in MapsOfAll(ss, ds) ==> k in IdsAll(ss) && MapsOfAll(ss, ds)[k] in IdsAll(ds)
    decreases ss, 0, |ss|
  {
    hide Alike, MapsOf, Ids;
    if ss != [] {
      var n := |ss| - 1;
      MapsOfAllKeys(ss[..n], ds[..n]);
      MapsOfKeys(ss[n], ds[n]);
    }
  }

  /** Every map of the source finds its own copy. */
  predicate Mapped(src: Tree, dst: Tree, copies: map<Id, Id>)
    decreases src
  {
    && (src.kind.MapKind? ==> src.id in copies && copies[src.id] == dst.id)
    && |src.kids| == |dst.kids|
    && forall i :: 0 <= i < |src.kids| ==> Mapped(src.kids[i], dst.kids[i], copies)
  }

  /** Entries for other nodes do not matter. */
  lemma {:induction false} MappedMore(src: Tree, dst: Tree, copies: map<Id, Id>, more: map<Id, Id>)
    requires Mapped(src, dst, copies) && forall id :: id in Ids(src) && id in copies ==>
             id in more &&
             more[id] == copies[id]
    ensures Mapped(src, dst, more)
    decreases src
  {
    forall i | 0 <= i < |src.kids|
      ensures Mapped(src.kids[i], dst.kids[i], more)
    {
      KidIds(src.kids, i);
      MappedMore(src.kids[i], dst.kids[i], copies, more);
    }
  }

  lemma {:induction false} KidIds(ts: seq<Tree>, i: nat)
    requires i < |ts|
    ensures forall id :: id in Ids(ts[i]) ==> id in IdsAll(ts)
    decreases |ts|
  {
    hide Ids;
    if i < |ts| - 1 {
      KidIds(ts[..|ts| - 1], i);
    }
  }

  lemma DistinctParts(a: seq<Id>, b: seq<Id>)
    requires Distinct(a + b)
    ensures Distinct(a) && Distinct(b) && forall id :: id in a ==> id !in b
  {
    forall i, j | 0 <= i < j < |a|
      ensures a[i] != a[j]
    {
      assert (a + b)[i] == a[i] && (a + b)[j] == a[j];
    }
    forall i, j | 0 <= i < j < |b|
      ensures b[i] != b[j]
    {
      assert (a + b)[|a| + i] == b[i] && (a + b)[|a| + j] == b[j];
    }
    forall i, j | 0 <= i < |a| && 0 <= j < |b|
      ensures a[i] != b[j]
    {
      assert (a + b)[i] == a[i] && (a + b)[|a| + j] == b[j];
    }
  }

  lemma {:induction false} MapsOfMaps(src: Tree, dst: Tree)
    requires Alike(src, dst) && Distinct(Ids(src))
    ensures Mapped(src, dst, MapsOf(src, dst))
    decreases src, 1
  {
    hide Ids, IdsAll;
    IdsOf(src);
    DistinctParts([src.id], IdsAll(src.kids));
    MapsOfAllMaps(src.kids, dst.kids);
    MapsOfAllKeys(src.kids, dst.kids);
    var copies, maps := MapsOf(src, dst), MapsOfAll(src.kids, dst.kids);
    assert src.id !in IdsAll(src.kids) by {
      assert src.id in [src.id];
    }
    forall i | 0 <= i < |src.kids|
      ensures Mapped(src.kids[i], dst.kids[i], copies)
    {
      MappedMore(src.kids[i], dst.kids[i], maps, copies);
    }
  }

  lemma IdsOf(t: Tree)
    ensures Ids(t) == [t.id] + IdsAll(t.kids)
  {
  }

  lemma IdsAllOf(ts: seq<Tree>)
    requires ts != []
    ensures IdsAll(ts) == IdsAll(ts[..|ts| - 1]) + Ids(ts[|ts| - 1])
  {
  }

  lemma {:induction false} MapsOfAllMaps(ss: seq<Tree>, ds: seq<Tree>)
    requires |ss| == |ds| && (forall i :: 0 <= i < |ss| ==> Alike(ss[i], ds[i])) && Distinct(IdsAll(ss))
    ensures forall i :: 0 <= i < |ss| ==> Mapped(ss[i], ds[i], MapsOfAll(ss, ds))
    decreases ss, 0, |ss|
  {
    hide Alike, MapsOf, Ids, IdsAll, Mapped;
    if ss != [] {
      var n := |ss| - 1;
      IdsAllOf(ss);
      DistinctParts(IdsAll(ss[..n]), Ids(ss[n]));
      MapsOfAllMaps(ss[..n], ds[..n]);
      MapsOfMaps(ss[n], ds[n]);
      MapsOfKeys(ss[n], ds[n]);
      var before, all := MapsOfAll(ss[..n], ds[..n]), MapsOfAll(ss, ds);
      MappedMore(ss[n], ds[n], MapsOf(ss[n], ds[n]), all);
      forall i | 0 <= i < n
        ensures Mapped(ss[i], ds[i], all)
      {
        assert ss[..n][i] == ss[i] && ds[..n][i] == ds[i];
        KidIds(ss[..n], i);
        MappedMore(ss[i], ds[i], before, all);
      }
    }
  }

  // ----- the same place in two trees -----

  /** The node with this id is a map of the tree. */
  predicate HasMap(t: Tree, id: Id)
    decreases t
  {
    (t.kind.MapKind? && t.id == id) || exists i :: 0 <= i < |t.kids| && HasMap(t.kids[i], id)
  }

  /** Node `b` stands in `dst` where the map `a` stands in `src`: at the end of the same way down. */
  predicate StandsFor(src: Tree, dst: Tree, a: Id, b: Id)
    decreases src
  {
    || (src.kind.MapKind? && src.id == a && dst.id == b)
    || exists i :: 0 <= i < |src.kids| && i < |dst.kids| && StandsFor(src.kids[i], dst.kids[i], a, b)
  }

  /**
   What a context of the clone holds of the template's: the same key, and as scope map the map of the clone that stands
   where the template's stands - or the very scope map of the template's, when that lies outside the template.
   */
  predicate LedInto(src: Tree, dst: Tree, original: Context, c: Context) {
    && c.key == original.key
    && (if original.scopeMap.Some? && HasMap(src, original.scopeMap.value) then
          c.scopeMap.Some? && StandsFor(src, dst, original.scopeMap.value, c.scopeMap.value) &&
          c.scopeMap.value in Ids(dst)
        else c.scopeMap == original.scopeMap)
  }

  /** A map of the source is led to the node that stands for it. */
  lemma {:induction false} MappedStands(src: Tree, dst: Tree, copies: map<Id, Id>, id: Id)
    requires Mapped(src, dst, copies) && HasMap(src, id)
    ensures id in copies && StandsFor(src, dst, id, copies[id]) && copies[id] in Ids(dst)
    decreases src
  {
    if src.kind.MapKind? && src.id == id {
    } else {
      var i :| 0 <= i < |src.kids| && HasMap(src.kids[i], id);
      MappedStands(src.kids[i], dst.kids[i], copies, id);
      KidIds(dst.kids, i);
    }
  }

  predicate AnyHasMap(ts: seq<Tree>, id: Id) {
    exists i :: 0 <= i < |ts| && HasMap(ts[i], id)
  }

  lemma HasMapIf(t: Tree, id: Id)
    requires (t.kind.MapKind? && t.id == id) || AnyHasMap(t.kids, id)
    ensures HasMap(t, id)
  {
  }

  lemma AnyHasMapIf(ts: seq<Tree>, id: Id)
    requires ts != [] && (AnyHasMap(ts[..|ts| - 1], id) || HasMap(ts[|ts| - 1], id))
    ensures AnyHasMap(ts, id)
  {
    hide HasMap;
    if AnyHasMap(ts[..|ts| - 1], id) {
      var i :| 0 <= i < |ts| - 1 && HasMap(ts[..|ts| - 1][i], id);
      assert HasMap(ts[i], id);
    }
  }

  /** Only maps have copies to lead to. */
  lemma {:induction false} OnlyMapsCopied(src: Tree, dst: Tree)
    requires Alike(src, dst)
    ensures forall id :: id in MapsOf(src, dst) ==> HasMap(src, id)
    decreases src, 1
  {
    hide HasMap, AnyHasMap;
    OnlyMapsCopiedAll(src.kids, dst.kids);
    forall id | id in MapsOf(src, dst)
      ensures HasMap(src, id)
    {
      HasMapIf(src, id);
    }
  }

  lemma {:induction false} OnlyMapsCopiedAll(ss: seq<Tree>, ds: seq<Tree>)
    requires |ss| == |ds| && forall i :: 0 <= i < |ss| ==> Alike(ss[i], ds[i])
    ensures forall id :: id in MapsOfAll(ss, ds) ==> AnyHasMap(ss, id)
    decreases ss, 0, |ss|
  {
    hide Alike, MapsOf, HasMap, AnyHasMap;
    if ss != [] {
      var n := |ss| - 1;
      OnlyMapsCopiedAll(ss[..n], ds[..n]);
      OnlyMapsCopied(ss[n], ds[n]);
      forall id | id in MapsOfAll(ss, ds)
        ensures AnyHasMap(ss, id)
      {
        AnyHasMapIf(ss, id);
      }
    }
  }

  /** A moved context is led into the clone. */
  lemma MovedIsLed(src: Tree, dst: Tree, copies: map<Id, Id>, original: Context)
    requires Mapped(src, dst, copies) && forall id :: id in copies ==> HasMap(src, id)
    ensures LedInto(src, dst, original, Moved(original, copies))
  {
    hide Mapped, HasMap, StandsFor, Ids;
    if original.scopeMap.Some? && HasMap(src, original.scopeMap.value) {
      MappedStands(src, dst, copies, original.scopeMap.value);
    }
  }

  /** Every context copied so far holds what its original holds, led into the clone. */
  ghost predicate AllLed(src: Tree, dst: Tree, contexts: map<Ctx, Context>, cs: map<Ctx, Ctx>,
                         contexts': map<Ctx, Context>) {
    forall k :: k in cs ==> k in contexts && cs[k] in contexts' && LedInto(src, dst, contexts[k], contexts'[cs[k]])
  }

  lemma CopiedAreLed(src: Tree, dst: Tree, contexts: map<Ctx, Context>, base: Ctx, copies: map<Id, Id>,
                     cs: map<Ctx, Ctx>, contexts': map<Ctx, Context>, next: Ctx)
    requires ContextsCopied(contexts, base, copies, cs, contexts', next)
    requires Mapped(src, dst, copies) && forall id :: id in copies ==> HasMap(src, id)
    ensures AllLed(src, dst, contexts, cs, contexts')
  {
    hide Mapped, HasMap, LedInto;
    forall k | k in cs
      ensures k in contexts && cs[k] in contexts' && LedInto(src, dst, contexts[k], contexts'[cs[k]])
    {
      MovedIsLed(src, dst, copies, contexts[k]);
    }
  }

  // ----- contexts and globs -----

  /** A scope map inside the source moves to its copy; any other stays. */
  function Moved(c: Context, copies: map<Id, Id>): Context {
    c.(scopeMap := if c.scopeMap.Some? && c.scopeMap.value in copies then Some(copies[c.scopeMap.value])
       else c.scopeMap)
  }

  predicate Known(t: Tree, contexts: set<Ctx>, globs: set<Glob>)
    decreases t
  {
    && (forall c :: c in t.refs ==> c in contexts) && (forall g :: g in t.globs ==> g in globs)
    && forall i :: 0 <= i < |t.kids| ==> Known(t.kids[i], contexts, globs)
  }

  function MapRefs(refs: seq<nat>, copies: map<nat, nat>): (r: seq<nat>)
    requires forall c :: c in refs ==> c in copies
    ensures |r| == |refs|
  {
    seq(|refs|, i requires 0 <= i < |refs| => copies[refs[i]])
  }

  predicate Covered(t: Tree, cs: map<Ctx, Ctx>)
    decreases t
  {
    && (forall c :: c in t.refs ==> c in cs)
    && forall i :: 0 <= i < |t.kids| ==> Covered(t.kids[i], cs)
  }

  predicate GlobsCovered(t: Tree, gs: map<Glob, Glob>)
    decreases t
  {
    && (forall g :: g in t.globs ==> g in gs)
    && forall i :: 0 <= i < |t.kids| ==> GlobsCovered(t.kids[i], gs)
  }

  /** The tree with its references pointing to the copies of their contexts. */
  function WithRefs(t: Tree, cs: map<Ctx, Ctx>): Tree
    requires Covered(t, cs)
    decreases t
  {
    Tree(t.id, t.kind, MapRefs(t.refs, cs), t.globs, seq(|t.kids|,
                                                         i requires 0 <= i < |t.kids| => WithRefs(t.kids[i], cs)))
  }

  function WithGlobs(t: Tree, gs: map<Glob, Glob>): Tree
    requires GlobsCovered(t, gs)
    decreases t
  {
    Tree(t.id, t.kind, t.refs, MapRefs(t.globs, gs), seq(|t.kids|,
                                                         i requires 0 <= i < |t.kids| => WithGlobs(t.kids[i], gs)))
  }

  /** The same tree, reference by reference and glob by glob, each replaced by its copy. */
  predicate IsCopyOf(src: Tree, dst: Tree, cs: map<Ctx, Ctx>, gs: map<Glob, Glob>)
    decreases src
  {
    && dst.kind == src.kind
    && |dst.refs| == |src.refs| && |dst.globs| == |src.globs| && |dst.kids| == |src.kids|
    && (forall i :: 0 <= i < |src.refs| ==> src.refs[i] in cs && dst.refs[i] == cs[src.refs[i]])
    && (forall i :: 0 <= i < |src.globs| ==> src.globs[i] in gs && dst.globs[i] == gs[src.globs[i]])
    && (forall i :: 0 <= i < |src.kids| ==> IsCopyOf(src.kids[i], dst.kids[i], cs, gs))
  }

  /** The same tree but for the numbers of its nodes. */
  predicate SameButIds(src: Tree, t: Tree)
    decreases src
  {
    && t.kind == src.kind && t.refs == src.refs && t.globs == src.globs && |t.kids| == |src.kids|
    && forall i :: 0 <= i < |src.kids| ==> SameButIds(src.kids[i], t.kids[i])
  }

  lemma {:induction false} RenumberedSame(t: Tree, base: Id)
    ensures SameButIds(t, Renumbered(t, base))
    decreases t, 1
  {
    RenumberedAllSame(t.kids, base + 1);
  }

  lemma {:induction false} RenumberedAllSame(ts: seq<Tree>, base: Id)
    ensures forall i :: 0 <= i < |ts| ==> SameButIds(ts[i], RenumberedAll(ts, base)[i])
    decreases ts, 0, |ts|
  {
    hide Renumbered, Size, SameButIds;
    if ts != [] {
      var n := |ts| - 1;
      RenumberedAllSame(ts[..n], base);
      RenumberedSame(ts[n], base + Sizes(ts[..n]));
      forall i | 0 <= i < n
        ensures SameButIds(ts[i], RenumberedAll(ts, base)[i])
      {
        assert ts[..n][i] == ts[i] && RenumberedAll(ts, base)[i] == RenumberedAll(ts[..n], base)[i];
      }
    }
  }

  lemma {:induction false} LinkedCopy(src: Tree, t: Tree, cs: map<Ctx, Ctx>, gs: map<Glob, Glob>)
    requires SameButIds(src, t) && Covered(t, cs) && GlobsCovered(WithRefs(t, cs), gs)
    ensures IsCopyOf(src, WithGlobs(WithRefs(t, cs), gs), cs, gs)
    decreases src
  {
    var r := WithRefs(t, cs);
    var w := WithGlobs(r, gs);
    forall i | 0 <= i < |src.kids|
      ensures IsCopyOf(src.kids[i], w.kids[i], cs, gs)
    {
      assert r.kids[i] == WithRefs(t.kids[i], cs) && w.kids[i] == WithGlobs(r.kids[i], gs);
      LinkedCopy(src.kids[i], t.kids[i], cs, gs);
    }
    forall i | 0 <= i < |src.refs|
      ensures src.refs[i] in cs && w.refs[i] == cs[src.refs[i]]
    {
      assert src.refs[i] in t.refs;
    }
    forall i | 0 <= i < |src.globs|
      ensures src.globs[i] in gs && w.globs[i] == gs[src.globs[i]]
    {
      assert src.globs[i] in r.globs;
    }
  }

  predicate Grows(m: map<nat, nat>, m': map<nat, nat>) {
    forall k :: k in m ==> k in m' && m'[k] == m[k]
  }

  lemma {:induction false} WithRefsKept(t: Tree, cs: map<Ctx, Ctx>, cs': map<Ctx, Ctx>)
    requires Covered(t, cs) && Grows(cs, cs')
    ensures Covered(t, cs') && WithRefs(t, cs') == WithRefs(t, cs)
    decreases t
  {
    forall i | 0 <= i < |t.kids|
      ensures Covered(t.kids[i], cs') && WithRefs(t.kids[i], cs') == WithRefs(t.kids[i], cs)
    {
      WithRefsKept(t.kids[i], cs, cs');
    }
    assert Covered(t, cs');
    assert MapRefs(t.refs, cs') == MapRefs(t.refs, cs);
    assert WithRefs(t, cs').kids == WithRefs(t, cs).kids;
  }

  lemma {:induction false} WithGlobsKept(t: Tree, gs: map<Glob, Glob>, gs': map<Glob, Glob>)
    requires GlobsCovered(t, gs) && Grows(gs, gs')
    ensures GlobsCovered(t, gs') && WithGlobs(t, gs') == WithGlobs(t, gs)
    decreases t
  {
    forall i | 0 <= i < |t.kids|
      ensures GlobsCovered(t.kids[i], gs') && WithGlobs(t.kids[i], gs') == WithGlobs(t.kids[i], gs)
    {
      WithGlobsKept(t.kids[i], gs, gs');
    }
    assert GlobsCovered(t, gs');
    assert MapRefs(t.globs, gs') == MapRefs(t.globs, gs);
    assert WithGlobs(t, gs').kids == WithGlobs(t, gs).kids;
  }

  /**
   Copies so far: each has a number handed out since `base`, no two the same, and holds what its original holds with the
   scope map moved. The originals are as they were.
   */
  ghost predicate ContextsCopied(contexts: map<Ctx, Context>, base: Ctx, copies: map<Id, Id>, cs: map<Ctx, Ctx>,
                                 contexts': map<Ctx, Context>, next: Ctx) {
    && base <= next
    && (forall c :: c in contexts ==> c < base && c in contexts' && contexts'[c] == contexts[c])
    && (forall c :: c in cs ==> c in contexts && base <= cs[c] < next && cs[c] in contexts'
                                && contexts'[cs[c]] == Moved(contexts[c], copies))
    && (forall c, d :: c in cs && d in cs && cs[c] == cs[d] ==> c == d)
    && (forall c :: c in contexts' ==> c < next)
  }

  predicate GlobsKnown(globs: map<Glob, GlobContext>, contexts: map<Ctx, Context>) {
    forall g :: g in globs ==>
      (globs[g].root.Some? ==> globs[g].root.value in globs) &&
      (globs[g].refctx.Some? ==> globs[g].refctx.value in contexts)
  }

  /** A copied glob applies to what its original applied to, under the copies of its root and its context. */
  predicate IsGlobCopy(glob: GlobContext, cs: map<Ctx, Ctx>, gs: map<Glob, Glob>, copy: GlobContext) {
    && copy.appliedFields == glob.appliedFields && copy.appliedEdges == glob.appliedEdges
    && (if glob.root.Some? then glob.root.value in gs && copy.root == Some(gs[glob.root.value]) else copy.root.None?)
    && (if glob.refctx.Some? then glob.refctx.value in cs && copy.refctx == Some(cs[glob.refctx.value])
        else copy.refctx.None?)
  }

  /** As for contexts; the globs in `open` have a copy whose links are still to be set. */
  ghost predicate GlobsCopied(globs: map<Glob, GlobContext>, base: Glob, cs: map<Ctx, Ctx>, gs: map<Glob, Glob>,
                              open: set<Glob>, globs': map<Glob, GlobContext>, next: Glob) {
    && base <= next
    && (forall g :: g in globs ==> g < base && g in globs' && globs'[g] == globs[g])
    && (forall g :: g in gs ==> g in globs && base <= gs[g] < next && gs[g] in globs')
    && (forall g :: g in gs && g !in open ==> IsGlobCopy(globs[g], cs, gs, globs'[gs[g]]))
    && (forall g, h :: g in gs && h in gs && gs[g] == gs[h] ==> g == h)
    && (forall g :: g in globs' ==> g < next && (g in globs || IsCopy(g, gs)))
  }

  predicate IsCopy(g: Glob, gs: map<Glob, Glob>) {
    exists h :: h in gs && gs[h] == g
  }

  /** Everything the imports of one compilation share. */
  class Imports {
    var nextId: Id
    var contexts: map<Ctx, Context>
    var nextCtx: Ctx
    var globs: map<Glob, GlobContext>
    var nextGlob: Glob

    constructor (contexts: map<Ctx, Context>, nextCtx: Ctx, globs: map<Glob, GlobContext>, nextGlob: Glob, nextId: Id)
      ensures this.contexts == contexts && this.nextCtx == nextCtx && this.globs == globs && this.nextGlob == nextGlob
      ensures this.nextId == nextId
    {
      this.contexts, this.nextCtx, this.globs, this.nextGlob, this.nextId := contexts, nextCtx, globs, nextGlob, nextId;
    }

    ghost predicate Valid()
      reads this
    {
      && (forall c :: c in contexts ==> c < nextCtx)
      && (forall g :: g in globs ==> g < nextGlob)
      && GlobsKnown(globs, contexts)
    }

    method CopyTree(t: Tree) returns (c: Tree)
      modifies this`nextId
      ensures c == Renumbered(t, old(nextId)) && nextId == old(nextId) + Size(t)
      decreases t, 1
    {
      var id := nextId;
      nextId := nextId + 1;
      var kids := CopyAll(t.kids);
      c := Tree(id, t.kind, t.refs, t.globs, kids);
    }

    method CopyAll(ts: seq<Tree>) returns (cs: seq<Tree>)
      modifies this`nextId
      ensures cs == RenumberedAll(ts, old(nextId)) && nextId == old(nextId) + Sizes(ts)
      decreases ts, 0
    {
      hide Renumbered, Size;
      cs := [];
      var i := 0;
      while i < |ts|
        invariant i <= |ts| && cs == RenumberedAll(ts[..i], old(nextId)) && nextId == old(nextId) + Sizes(ts[..i])
      {
        var c := CopyTree(ts[i]);
        cs := cs + [c];
        assert ts[..i + 1][..i] == ts[..i];
        i := i + 1;
      }
      assert ts[..i] == ts;
    }

    method CollectMapCopies(src: Tree, dst: Tree, before: map<Id, Id>) returns (copies: map<Id, Id>)
      requires Alike(src, dst)
      ensures copies == before + MapsOf(src, dst)
      decreases src
    {
      hide MapsOf;
      copies := before;
      if src.kind.MapKind? {
        copies := copies[src.id := dst.id];
      }
      ghost var start := copies;
      var i := 0;
      while i < |src.kids|
        invariant i <= |src.kids| && copies == start + MapsOfAll(src.kids[..i], dst.kids[..i])
      {
        MapsOfMore(src.kids, dst.kids, i);
        PlusAssoc(start, MapsOfAll(src.kids[..i], dst.kids[..i]), MapsOf(src.kids[i], dst.kids[i]));
        copies := CollectMapCopies(src.kids[i], dst.kids[i], copies);
        i := i + 1;
      }
      assert src.kids[..i] == src.kids && dst.kids[..i] == dst.kids;
      MapsOfIs(src, dst);
      PlusAssoc(before, if src.kind.MapKind? then map[src.id := dst.id] else map[], MapsOfAll(src.kids, dst.kids));
    }

    /** Each context is copied once, however many references share it. */
    method CloneContext(c: Ctx, copies: map<Id, Id>, cs: map<Ctx, Ctx>, ghost contexts0: map<Ctx, Context>,
                        ghost base: Ctx)
        returns (d: Ctx, cs': map<Ctx, Ctx>)
      requires c in contexts0 && ContextsCopied(contexts0, base, copies, cs, contexts, nextCtx)
      modifies this`contexts, this`nextCtx
      ensures ContextsCopied(contexts0, base, copies, cs', contexts, nextCtx)
      ensures Grows(cs, cs') && c in cs' && d == cs'[c]
    {
      if c in cs {
        return cs[c], cs;
      }
      d := nextCtx;
      nextCtx := nextCtx + 1;
      contexts := contexts[d := Moved(contexts[c], copies)];
      cs' := cs[c := d];
    }

    method CloneRefs(refs: seq<Ctx>, copies: map<Id, Id>, cs: map<Ctx, Ctx>, ghost contexts0: map<Ctx, Context>,
                     ghost base: Ctx)
        returns (refs': seq<Ctx>, cs': map<Ctx, Ctx>)
      requires (forall c :: c in refs ==> c in contexts0)
      requires ContextsCopied(contexts0, base, copies, cs, contexts, nextCtx)
      modifies this`contexts, this`nextCtx
      ensures ContextsCopied(contexts0, base, copies, cs', contexts, nextCtx) && Grows(cs, cs')
      ensures (forall c :: c in refs ==> c in cs') && refs' == MapRefs(refs, cs')
    {
      hide ContextsCopied;
      refs', cs' := [], cs;
      var i := 0;
      while i < |refs|
        invariant i <= |refs| == |refs| && |refs'| == i
        invariant ContextsCopied(contexts0, base, copies, cs', contexts, nextCtx) && Grows(cs, cs')
        invariant forall j :: 0 <= j < i ==> refs[j] in cs' && refs'[j] == cs'[refs[j]]
      {
        var d;
        d, cs' := CloneContext(refs[i], copies, cs', contexts0, base);
        refs' := refs' + [d];
        i := i + 1;
      }
    }

    method CloneNodeReferences(t: Tree, copies: map<Id, Id>, cs: map<Ctx, Ctx>, ghost contexts0: map<Ctx, Context>,
                               ghost base: Ctx, ghost known: set<Glob>)
        returns (t': Tree, cs': map<Ctx, Ctx>)
      requires Known(t, contexts0.Keys, known) && ContextsCopied(contexts0, base, copies, cs, contexts, nextCtx)
      modifies this`contexts, this`nextCtx
      ensures ContextsCopied(contexts0, base, copies, cs', contexts, nextCtx) && Grows(cs, cs')
      ensures Covered(t, cs') && t' == WithRefs(t, cs')
      decreases t
    {
      hide ContextsCopied, WithRefs, Covered;
      var refs';
      refs', cs' := CloneRefs(t.refs, copies, cs, contexts0, base);
      ghost var cs1 := cs';
      var kids': seq<Tree> := [];
      var i := 0;
      while i < |t.kids|
        invariant i <= |t.kids| == |t.kids| && |kids'| == i
        invariant ContextsCopied(contexts0, base, copies, cs', contexts, nextCtx) && Grows(cs1, cs')
        invariant forall j :: 0 <= j < i ==> Covered(t.kids[j], cs') && kids'[j] == WithRefs(t.kids[j], cs')
      {
        ghost var cs2 := cs';
        var kid';
        kid', cs' := CloneNodeReferences(t.kids[i], copies, cs', contexts0, base, known);
        forall j | 0 <= j < i
          ensures Covered(t.kids[j], cs') && kids'[j] == WithRefs(t.kids[j], cs')
        {
          WithRefsKept(t.kids[j], cs2, cs');
        }
        kids' := kids' + [kid'];
        i := i + 1;
      }
      WithRefsIs(t, cs', refs', kids');
      t' := Tree(t.id, t.kind, refs', t.globs, kids');
    }

    /** Each glob context is copied once; its copy is known before its root is copied, so roots may lead back. */
    method CloneGlob(g: Glob, copies: map<Id, Id>, cs: map<Ctx, Ctx>, gs: map<Glob, Glob>, ghost open: set<Glob>,
                     ghost contexts0: map<Ctx, Context>, ghost base: Ctx, ghost globs0: map<Glob, GlobContext>,
                     ghost gbase: Glob)
        returns (d: Glob, cs': map<Ctx, Ctx>, gs': map<Glob, Glob>)
      requires g in globs0 && GlobsKnown(globs0, contexts0)
      requires ContextsCopied(contexts0, base, copies, cs, contexts, nextCtx)
      requires GlobsCopied(globs0, gbase, cs, gs, open, globs, nextGlob)
      modifies this`contexts, this`nextCtx, this`globs, this`nextGlob
      ensures ContextsCopied(contexts0, base, copies, cs', contexts, nextCtx)
      ensures GlobsCopied(globs0, gbase, cs', gs', open, globs, nextGlob)
      ensures Grows(cs, cs') && Grows(gs, gs') && g in gs' && d == gs'[g]
      decreases globs0.Keys - gs.Keys
    {
      hide ContextsCopied, GlobsCopied, IsGlobCopy, GlobsKnown;
      cs', gs' := cs, gs;
      if g in gs {
        return gs[g], cs, gs;
      }
      LinksKnown(globs0, contexts0, g);
      d := OpenGlob(g, cs, gs, open, globs0, gbase);
      gs' := gs[g := d];
      ghost var globs1, gnext1 := globs, nextGlob;
      var glob := globs[d];
      var copy := glob;
      if glob.refctx.Some? {
        var refctx;
        refctx, cs' := CloneContext(glob.refctx.value, copies, cs', contexts0, base);
        copy := copy.(refctx := Some(refctx));
      }
      ContextsGrew(globs0, gbase, cs, cs', gs', open + {g}, globs1, gnext1);
      ghost var cs1 := cs';
      if glob.root.Some? {
        var root;
        root, cs', gs' := CloneGlob(glob.root.value, copies, cs', gs', open + {g}, contexts0, base, globs0, gbase);
        copy := copy.(root := Some(root));
      }
      CopyMade(globs0[g], cs1, cs', gs', copy);
      GlobClosed(globs0, gbase, cs', gs', open, globs, nextGlob, g, copy);
      globs := globs[d := copy];
    }

    method OpenGlob(g: Glob, ghost cs: map<Ctx, Ctx>, ghost gs: map<Glob, Glob>, ghost open: set<Glob>,
                    ghost globs0: map<Glob, GlobContext>, ghost gbase: Glob) returns (d: Glob)
      requires g in globs0 && g !in gs && GlobsCopied(globs0, gbase, cs, gs, open, globs, nextGlob)
      modifies this`globs, this`nextGlob
      ensures GlobsCopied(globs0, gbase, cs, gs[g := d], open + {g}, globs, nextGlob)
      ensures d in globs && globs[d] == globs0[g]
    {
      hide GlobsCopied;
      GlobAt(globs0, gbase, cs, gs, open, globs, nextGlob);
      GlobOpened(globs0, gbase, cs, gs, open, globs, nextGlob, g);
      d := nextGlob;
      nextGlob := nextGlob + 1;
      globs := globs[d := globs[g]];
    }

    method CloneGlobs(list: seq<Glob>, copies: map<Id, Id>, cs: map<Ctx, Ctx>, gs: map<Glob, Glob>,
                      ghost contexts0: map<Ctx, Context>, ghost base: Ctx, ghost globs0: map<Glob, GlobContext>,
                      ghost gbase: Glob)
        returns (list': seq<Glob>, cs': map<Ctx, Ctx>, gs': map<Glob, Glob>)
      requires (forall g :: g in list ==> g in globs0) && GlobsKnown(globs0, contexts0)
      requires ContextsCopied(contexts0, base, copies, cs, contexts, nextCtx)
      requires GlobsCopied(globs0, gbase, cs, gs, {}, globs, nextGlob)
      modifies this`contexts, this`nextCtx, this`globs, this`nextGlob
      ensures ContextsCopied(contexts0, base, copies, cs', contexts, nextCtx)
      ensures GlobsCopied(globs0, gbase, cs', gs', {}, globs, nextGlob)
      ensures Grows(cs, cs') && Grows(gs, gs')
      ensures (forall g :: g in list ==> g in gs') && list' == MapRefs(list, gs')
    {
      hide ContextsCopied, GlobsCopied, GlobsKnown;
      list', cs', gs' := [], cs, gs;
      var i := 0;
      while i < |list|
        invariant i <= |list| == |list| && |list'| == i
        invariant ContextsCopied(contexts0, base, copies, cs', contexts, nextCtx)
        invariant GlobsCopied(globs0, gbase, cs', gs', {}, globs, nextGlob)
        invariant Grows(cs, cs') && Grows(gs, gs')
        invariant forall j :: 0 <= j < i ==> list[j] in gs' && list'[j] == gs'[list[j]]
      {
        var d;
        d, cs', gs' := CloneGlob(list[i], copies, cs', gs', {}, contexts0, base, globs0, gbase);
        list' := list' + [d];
        i := i + 1;
      }
    }

    method CloneGlobContexts(t: Tree, copies: map<Id, Id>, cs: map<Ctx, Ctx>, gs: map<Glob, Glob>,
                             ghost contexts0: map<Ctx, Context>, ghost base: Ctx, ghost globs0: map<Glob, GlobContext>,
                             ghost gbase: Glob)
        returns (t': Tree, cs': map<Ctx, Ctx>, gs': map<Glob, Glob>)
      requires AllGlobs(t, globs0.Keys) && GlobsKnown(globs0, contexts0)
      requires ContextsCopied(contexts0, base, copies, cs, contexts, nextCtx)
      requires GlobsCopied(globs0, gbase, cs, gs, {}, globs, nextGlob)
      modifies this`contexts, this`nextCtx, this`globs, this`nextGlob
      ensures ContextsCopied(contexts0, base, copies, cs', contexts, nextCtx)
      ensures GlobsCopied(globs0, gbase, cs', gs', {}, globs, nextGlob)
      ensures Grows(cs, cs') && Grows(gs, gs') && GlobsCovered(t, gs') && t' == WithGlobs(t, gs')
      decreases t
    {
      hide ContextsCopied, GlobsCopied, GlobsKnown, WithGlobs, GlobsCovered;
      var globs';
      globs', cs', gs' := CloneGlobs(t.globs, copies, cs, gs, contexts0, base, globs0, gbase);
      ghost var gs1 := gs';
      var kids': seq<Tree> := [];
      var i := 0;
      while i < |t.kids|
        invariant i <= |t.kids| == |t.kids| && |kids'| == i
        invariant ContextsCopied(contexts0, base, copies, cs', contexts, nextCtx)
        invariant GlobsCopied(globs0, gbase, cs', gs', {}, globs, nextGlob)
        invariant Grows(cs, cs') && Grows(gs, gs') && Grows(gs1, gs')
        invariant forall j :: 0 <= j < i ==> GlobsCovered(t.kids[j], gs') && kids'[j] == WithGlobs(t.kids[j], gs')
      {
        ghost var gs2 := gs';
        var kid';
        kid', cs', gs' := CloneGlobContexts(t.kids[i], copies, cs', gs', contexts0, base, globs0, gbase);
        forall j | 0 <= j < i
          ensures GlobsCovered(t.kids[j], gs') && kids'[j] == WithGlobs(t.kids[j], gs')
        {
          WithGlobsKept(t.kids[j], gs2, gs');
        }
        kids' := kids' + [kid'];
        i := i + 1;
      }
      WithGlobsIs(t, gs', globs', kids');
      t' := Tree(t.id, t.kind, t.refs, globs', kids');
    }

    /**
     The clone of a template: fresh nodes in the same tree, references sharing contexts exactly where the template's do,
     scope maps and glob roots led into the clone. The template's contexts and globs are as they were.
     */
    method CloneImportMap(src: Tree)
          returns (dst: Tree, copies: map<Id, Id>, ghost cs: map<Ctx, Ctx>, ghost gs: map<Glob, Glob>)
      requires Valid() && Known(src, contexts.Keys, globs.Keys) && Distinct(Ids(src))
      modifies this
      ensures Valid()
      ensures Covered(Renumbered(src, old(nextId)), cs) && GlobsCovered(WithRefs(Renumbered(src, old(nextId)), cs), gs)
      ensures dst == WithGlobs(WithRefs(Renumbered(src, old(nextId)), cs), gs)
      ensures Ids(dst) == seq(Size(src), i => old(nextId) + i) && nextId == old(nextId) + Size(src)
      ensures Mapped(src, dst, copies)
      ensures ContextsCopied(old(contexts), old(nextCtx), copies, cs, contexts, nextCtx)
      ensures AllLed(src, dst, old(contexts), cs, contexts) && IsCopyOf(src, dst, cs, gs)
      ensures GlobsCopied(old(globs), old(nextGlob), cs, gs, {}, globs, nextGlob)
    {
      hide ContextsCopied, GlobsCopied, GlobsKnown, WithRefs, WithGlobs, Renumbered, Mapped, MapsOf, Known, AllGlobs,
        Alike, Ids, Distinct, Covered, GlobsCovered, HasMap, AllLed, IsCopyOf, SameButIds;
      ghost var contexts0, globs0, base, gbase, first := contexts, globs, nextCtx, nextGlob, nextId;
      NothingCopied(contexts, nextCtx, globs, nextGlob);
      var copy := CopyTree(src);
      RenumberedAlike(src, first);
      RenumberedKnown(src, first, contexts.Keys, globs.Keys);
      copies := CollectMapCopies(src, copy, map[]);
      assert copies == MapsOf(src, copy);
      OnlyMapsCopied(src, copy);
      MapsOfMaps(src, copy);
      NothingCopiedAs(contexts, nextCtx, copies);
      var referring, cs1 := CloneNodeReferences(copy, copies, map[], contexts0, base, globs0.Keys);
      WithRefsGlobs(copy, cs1, globs0.Keys);
      NoGlobsGrew(globs0, gbase, cs1);
      var cs2: map<Ctx, Ctx>, gs2: map<Glob, Glob>;
      dst, cs2, gs2 := CloneGlobContexts(referring, copies, cs1, map[], contexts0, base, globs0, gbase);
      WithRefsKept(copy, cs1, cs2);
      cs, gs := cs2, gs2;
      CloneIds(copy, cs, gs);
      RenumberedIds(src, first);
      CloneMapped(src, copy, copies, cs, gs);
      RenumberedSame(src, first);
      LinkedCopy(src, copy, cs, gs);
      CopiedAreLed(src, dst, contexts0, base, copies, cs, contexts, nextCtx);
      StillKnown(globs0, gbase, contexts0, base, copies, cs, gs, contexts, nextCtx, globs, nextGlob);
    }

    /** Forgets the scope maps of a tree's references, as far as it descends: not into arrays. */
    method NilScopeMap(t: Tree)
      requires forall c :: c in NilRefs(t) ==> c in contexts
      modifies this`contexts
      ensures contexts.Keys == old(contexts).Keys
      ensures forall c :: c in contexts ==>
                contexts[c] == if c in NilRefs(t) then old(contexts)[c].(scopeMap := None) else old(contexts)[c]
      decreases t
    {
      if t.kind.MapKind? {
        NilAll(t.kids, false);
      } else if t.kind.FieldKind? || t.kind.EdgeKind? {
        var i := 0;
        while i < |t.refs|
          invariant i <= |t.refs| && contexts.Keys == old(contexts).Keys
          invariant forall c :: c in contexts ==>
                      contexts[c] == if c in t.refs[..i] then old(contexts)[c].(scopeMap := None) else old(contexts)[c]
        {
          contexts := contexts[t.refs[i] := contexts[t.refs[i]].(scopeMap := None)];
          assert t.refs[..i + 1] == t.refs[..i] + [t.refs[i]];
          i := i + 1;
        }
        assert t.refs[..i] == t.refs;
        NilAll(t.kids, true);
      }
    }

    method NilAll(ts: seq<Tree>, mapsOnly: bool)
      requires forall c :: c in NilRefsAll(ts, mapsOnly) ==> c in contexts
      modifies this`contexts
      ensures contexts.Keys == old(contexts).Keys
      ensures forall c :: c in contexts ==>
                contexts[c] == if c in NilRefsAll(ts, mapsOnly) then old(contexts)[c].(scopeMap := None)
                else old(contexts)[c]
      decreases ts
    {
      hide NilRefs;
      var i := 0;
      while i < |ts|
        invariant i <= |ts| && contexts.Keys == old(contexts).Keys
        invariant forall c :: c in contexts ==>
                    contexts[c] == if c in NilRefsAll(ts[..i], mapsOnly) then old(contexts)[c].(scopeMap := None)
                    else old(contexts)[c]
      {
        NilRefsMore(ts, mapsOnly, i);
        if !mapsOnly || ts[i].kind.MapKind? {
          NilScopeMap(ts[i]);
        }
        i := i + 1;
      }
      assert ts[..i] == ts;
    }
  }

  predicate AllGlobs(t: Tree, globs: set<Glob>)
    decreases t
  {
    (forall g :: g in t.globs ==> g in globs) && forall i :: 0 <= i < |t.kids| ==> AllGlobs(t.kids[i], globs)
  }

  lemma GlobAt(globs: map<Glob, GlobContext>, base: Glob, cs: map<Ctx, Ctx>, gs: map<Glob, Glob>, open: set<Glob>,
               globs': map<Glob, GlobContext>, next: Glob)
    requires GlobsCopied(globs, base, cs, gs, open, globs', next)
    ensures forall h :: h in gs ==> gs[h] in globs' && gs[h] < next
    ensures forall h :: h in globs ==> h in globs' && globs'[h] == globs[h]
  {
  }

  lemma LinksKnown(globs: map<Glob, GlobContext>, contexts: map<Ctx, Context>, g: Glob)
    requires GlobsKnown(globs, contexts) && g in globs
    ensures globs[g].root.Some? ==> globs[g].root.value in globs
    ensures globs[g].refctx.Some? ==> globs[g].refctx.value in contexts
  {
  }

  lemma GlobOpened(globs: map<Glob, GlobContext>, base: Glob, cs: map<Ctx, Ctx>, gs: map<Glob, Glob>, open: set<Glob>,
                   globs': map<Glob, GlobContext>, next: Glob, g: Glob)
    requires GlobsCopied(globs, base, cs, gs, open, globs', next) && g in globs && g !in gs
    ensures GlobsCopied(globs, base, cs, gs[g := next], open + {g}, globs'[next := globs[g]], next + 1)
  {
    hide IsGlobCopy;
    var gs', globs'' := gs[g := next], globs'[next := globs[g]];
    forall x | x in globs''
      ensures x < next + 1 && (x in globs || IsCopy(x, gs'))
    {
      if x == next {
        assert g in gs' && gs'[g] == x;
      } else if x !in globs {
        var h :| h in gs && gs[h] == x;
        assert h in gs' && gs'[h] == x;
      }
    }
    forall h | h in gs' && h !in open + {g}
      ensures IsGlobCopy(globs[h], cs, gs', globs''[gs'[h]])
    {
      MoreGlobs(globs[h], cs, gs, gs', globs'[gs[h]]);
    }
  }

  lemma MoreGlobs(glob: GlobContext, cs: map<Ctx, Ctx>, gs: map<Glob, Glob>, gs': map<Glob, Glob>, copy: GlobContext)
    requires IsGlobCopy(glob, cs, gs, copy) && Grows(gs, gs')
    ensures IsGlobCopy(glob, cs, gs', copy)
  {
  }

  lemma ContextsGrew(globs: map<Glob, GlobContext>, base: Glob, cs: map<Ctx, Ctx>, cs': map<Ctx, Ctx>,
                     gs: map<Glob, Glob>, open: set<Glob>, globs': map<Glob, GlobContext>, next: Glob)
    requires GlobsCopied(globs, base, cs, gs, open, globs', next) && Grows(cs, cs')
    ensures GlobsCopied(globs, base, cs', gs, open, globs', next)
  {
  }

  lemma CopyMade(glob: GlobContext, cs: map<Ctx, Ctx>, cs': map<Ctx, Ctx>, gs: map<Glob, Glob>, copy: GlobContext)
    requires Grows(cs, cs') && copy.appliedFields == glob.appliedFields && copy.appliedEdges == glob.appliedEdges
    requires if glob.root.Some? then glob.root.value in gs && copy.root == Some(gs[glob.root.value])
             else copy.root.None?
    requires if glob.refctx.Some? then glob.refctx.value in cs && copy.refctx == Some(cs[glob.refctx.value])
             else copy.refctx.None?
    ensures IsGlobCopy(glob, cs', gs, copy)
  {
  }

  lemma GlobClosed(globs: map<Glob, GlobContext>, base: Glob, cs: map<Ctx, Ctx>, gs: map<Glob, Glob>, open: set<Glob>,
                   globs': map<Glob, GlobContext>, next: Glob, g: Glob, copy: GlobContext)
    requires GlobsCopied(globs, base, cs, gs, open + {g}, globs', next) && g in gs && g in globs
    requires IsGlobCopy(globs[g], cs, gs, copy)
    ensures GlobsCopied(globs, base, cs, gs, open, globs'[gs[g] := copy], next)
  {
    hide IsGlobCopy;
  }

  lemma WithGlobsIs(t: Tree, gs: map<Glob, Glob>, globs: seq<Glob>, kids: seq<Tree>)
    requires (forall g :: g in t.globs ==> g in gs) && globs == MapRefs(t.globs, gs) && |kids| == |t.kids|
    requires forall i :: 0 <= i < |kids| ==> GlobsCovered(t.kids[i], gs) && kids[i] == WithGlobs(t.kids[i], gs)
    ensures GlobsCovered(t, gs) && WithGlobs(t, gs) == Tree(t.id, t.kind, t.refs, globs, kids)
  {
    assert WithGlobs(t, gs).kids == kids;
  }

  lemma PlusAssoc(a: map<Id, Id>, b: map<Id, Id>, c: map<Id, Id>)
    ensures a + b + c == a + (b + c)
  {
  }

  lemma MapsOfMore(ss: seq<Tree>, ds: seq<Tree>, i: nat)
    requires |ss| == |ds| && i < |ss| && forall j :: 0 <= j < |ss| ==> Alike(ss[j], ds[j])
    ensures MapsOfAll(ss[..i + 1], ds[..i + 1]) == MapsOfAll(ss[..i], ds[..i]) + MapsOf(ss[i], ds[i])
  {
    hide MapsOf;
    assert ss[..i + 1][..i] == ss[..i] && ds[..i + 1][..i] == ds[..i];
  }

  lemma MapsOfIs(src: Tree, dst: Tree)
    requires Alike(src, dst)
    ensures MapsOf(src, dst) == (if src.kind.MapKind? then map[src.id := dst.id] else map[]) +
            MapsOfAll(src.kids, dst.kids)
  {
  }

  lemma WithRefsIs(t: Tree, cs: map<Ctx, Ctx>, refs: seq<Ctx>, kids: seq<Tree>)
    requires (forall c :: c in t.refs ==> c in cs) && refs == MapRefs(t.refs, cs) && |kids| == |t.kids|
    requires forall i :: 0 <= i < |kids| ==> Covered(t.kids[i], cs) && kids[i] == WithRefs(t.kids[i], cs)
    ensures Covered(t, cs) && WithRefs(t, cs) == Tree(t.id, t.kind, refs, t.globs, kids)
  {
    assert WithRefs(t, cs).kids == kids;
  }

  // ----- what forgetting scope maps touches -----

  function NilRefs(t: Tree): set<Ctx>
    decreases t, 1
  {
    if t.kind.MapKind? then NilRefsAll(t.kids, false)
    else if t.kind.FieldKind? || t.kind.EdgeKind? then (set c | c in t.refs) + NilRefsAll(t.kids, true)
    else {}
  }

  function NilRefsAll(ts: seq<Tree>, mapsOnly: bool): set<Ctx>
    decreases ts, 0, |ts|
  {
    if ts == [] then {}
    else
      var last := ts[|ts| - 1];
      NilRefsAll(ts[..|ts| - 1], mapsOnly) + (if !mapsOnly || last.kind.MapKind? then NilRefs(last) else {})
  }

  lemma {:induction false} NilRefsMore(ts: seq<Tree>, mapsOnly: bool, i: nat)
    requires i < |ts|
    ensures NilRefsAll(ts[..i + 1], mapsOnly) ==
            NilRefsAll(ts[..i], mapsOnly) + (if !mapsOnly || ts[i].kind.MapKind? then NilRefs(ts[i]) else {})
    ensures NilRefsAll(ts[..i + 1], mapsOnly) <= NilRefsAll(ts, mapsOnly)
    decreases |ts| - i
  {
    hide NilRefs;
    assert ts[..i + 1][..i] == ts[..i];
    if i + 1 < |ts| {
      NilRefsMore(ts, mapsOnly, i + 1);
    } else {
      assert ts[..i + 1] == ts;
    }
  }

  lemma NothingCopied(contexts: map<Ctx, Context>, next: Ctx, globs: map<Glob, GlobContext>, gnext: Glob)
    requires (forall c :: c in contexts ==> c < next) && (forall g :: g in globs ==> g < gnext)
    ensures GlobsCopied(globs, gnext, map[], map[], {}, globs, gnext)
  {
  }

  lemma NothingCopiedAs(contexts: map<Ctx, Context>, next: Ctx, copies: map<Id, Id>)
    requires forall c :: c in contexts ==> c < next
    ensures ContextsCopied(contexts, next, copies, map[], contexts, next)
  {
  }

  lemma NoGlobsGrew(globs: map<Glob, GlobContext>, gnext: Glob, cs: map<Ctx, Ctx>)
    requires forall g :: g in globs ==> g < gnext
    ensures GlobsCopied(globs, gnext, cs, map[], {}, globs, gnext)
  {
  }

  lemma {:induction false} RenumberedKnown(t: Tree, base: Id, contexts: set<Ctx>, globs: set<Glob>)
    requires Known(t, contexts, globs)
    ensures Known(Renumbered(t, base), contexts, globs)
    decreases t, 1
  {
    RenumberedAllKnown(t.kids, base + 1, contexts, globs);
  }

  lemma {:induction false} RenumberedAllKnown(ts: seq<Tree>, base: Id, contexts: set<Ctx>, globs: set<Glob>)
    requires forall i :: 0 <= i < |ts| ==> Known(ts[i], contexts, globs)
    ensures forall i :: 0 <= i < |ts| ==> Known(RenumberedAll(ts, base)[i], contexts, globs)
    decreases ts, 0, |ts|
  {
    hide Renumbered, Known, Size;
    if ts != [] {
      var n := |ts| - 1;
      RenumberedAllKnown(ts[..n], base, contexts, globs);
      RenumberedKnown(ts[n], base + Sizes(ts[..n]), contexts, globs);
    }
  }

  lemma {:induction false} WithRefsGlobs(t: Tree, cs: map<Ctx, Ctx>, globs: set<Glob>)
    requires Covered(t, cs) && exists contexts :: Known(t, contexts, globs)
    ensures AllGlobs(WithRefs(t, cs), globs)
    decreases t
  {
    var contexts :| Known(t, contexts, globs);
    forall i | 0 <= i < |t.kids|
      ensures AllGlobs(WithRefs(t.kids[i], cs), globs)
    {
      assert Known(t.kids[i], contexts, globs);
      WithRefsGlobs(t.kids[i], cs, globs);
    }
  }

  /** Replacing references and globs leaves the nodes. */
  lemma {:induction false} CloneIds(t: Tree, cs: map<Ctx, Ctx>, gs: map<Glob, Glob>)
    requires Covered(t, cs) && GlobsCovered(WithRefs(t, cs), gs)
    ensures Ids(WithGlobs(WithRefs(t, cs), gs)) == Ids(t)
    decreases t, 1
  {
    hide Ids;
    var r := WithRefs(t, cs);
    forall i | 0 <= i < |t.kids|
      ensures GlobsCovered(r.kids[i], gs) && Ids(WithGlobs(r.kids[i], gs)) == Ids(t.kids[i])
    {
      assert r.kids[i] == WithRefs(t.kids[i], cs);
      CloneIds(t.kids[i], cs, gs);
    }
    SameIds(t.kids, WithGlobs(r, gs).kids);
    IdsOf(t);
    IdsOf(WithGlobs(r, gs));
  }

  lemma {:induction false} SameIds(ts: seq<Tree>, us: seq<Tree>)
    requires |ts| == |us| && forall i :: 0 <= i < |ts| ==> Ids(us[i]) == Ids(ts[i])
    ensures IdsAll(us) == IdsAll(ts)
    decreases |ts|
  {
    hide Ids;
    if ts != [] {
      SameIds(ts[..|ts| - 1], us[..|us| - 1]);
    }
  }

  lemma {:induction false} CloneMapped(src: Tree, t: Tree, copies: map<Id, Id>, cs: map<Ctx, Ctx>, gs: map<Glob, Glob>)
    requires Covered(t, cs) && GlobsCovered(WithRefs(t, cs), gs) && Mapped(src, t, copies)
    ensures Mapped(src, WithGlobs(WithRefs(t, cs), gs), copies)
    decreases t
  {
    var r := WithRefs(t, cs);
    forall i | 0 <= i < |t.kids|
      ensures Mapped(src.kids[i], WithGlobs(r.kids[i], gs), copies)
    {
      assert r.kids[i] == WithRefs(t.kids[i], cs);
      CloneMapped(src.kids[i], t.kids[i], copies, cs, gs);
    }
  }

  lemma StillKnown(globs: map<Glob, GlobContext>, gbase: Glob, contexts: map<Ctx, Context>, base: Ctx,
                   copies: map<Id, Id>, cs: map<Ctx, Ctx>, gs: map<Glob, Glob>, contexts': map<Ctx, Context>, next: Ctx,
                   globs': map<Glob, GlobContext>, gnext: Glob)
    requires GlobsKnown(globs, contexts) && ContextsCopied(contexts, base, copies, cs, contexts', next)
    requires GlobsCopied(globs, gbase, cs, gs, {}, globs', gnext)
    ensures GlobsKnown(globs', contexts')
    ensures (forall c :: c in contexts' ==> c < next) && (forall g :: g in globs' ==> g < gnext)
  {
  }

  /** References of a clone share a context exactly where the template's do. */
  lemma SharedAlike(contexts: map<Ctx, Context>, base: Ctx, copies: map<Id, Id>, cs: map<Ctx, Ctx>,
                    contexts': map<Ctx, Context>, next: Ctx, a: Tree, b: Tree, i: nat, j: nat)
    requires ContextsCopied(contexts, base, copies, cs, contexts', next) && Covered(a, cs) && Covered(b, cs)
    requires i < |a.refs| && j < |b.refs|
    ensures WithRefs(a, cs).refs[i] == WithRefs(b, cs).refs[j] <==> a.refs[i] == b.refs[j]
  {
    assert a.refs[i] in a.refs && b.refs[j] in b.refs;
  }
}

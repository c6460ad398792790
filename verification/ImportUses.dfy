/**
 Many uses of one import template, in any order. What is done to one clone reaches neither the template nor another
 clone.
 */
module ImportUses {
  import opened Options
  import opened ImportClone

  /** The context of some reference in the tree, wherever it stands. */
  predicate Refers(t: Tree, c: Ctx)
    decreases t
  {
    c in t.refs || exists i :: 0 <= i < |t.kids| && Refers(t.kids[i], c)
  }

  lemma {:induction false} KnownRefers(t: Tree, contexts: set<Ctx>, globs: set<Glob>, c: Ctx)
    requires Known(t, contexts, globs) && Refers(t, c)
    ensures c in contexts
    decreases t
  {
    if c !in t.refs {
      var i :| 0 <= i < |t.kids| && Refers(t.kids[i], c);
      KnownRefers(t.kids[i], contexts, globs, c);
    }
  }

  lemma {:induction false} CoveredRefers(t: Tree, cs: map<Ctx, Ctx>, c: Ctx)
    requires Covered(t, cs) && Refers(t, c)
    ensures c in cs
    decreases t
  {
    if c !in t.refs {
      var i :| 0 <= i < |t.kids| && Refers(t.kids[i], c);
      CoveredRefers(t.kids[i], cs, c);
    }
  }

  lemma {:induction false} RenumberedRefers(t: Tree, base: Id, c: Ctx)
    ensures Refers(Renumbered(t, base), c) == Refers(t, c)
    decreases t, 1
  {
    RenumberedAllRefer(t.kids, base + 1, c);
  }

  lemma {:induction false} RenumberedAllRefer(ts: seq<Tree>, base: Id, c: Ctx)
    ensures forall i :: 0 <= i < |ts| ==> Refers(RenumberedAll(ts, base)[i], c) == Refers(ts[i], c)
    decreases ts, 0, |ts|
  {
    if ts != [] {
      var n := |ts| - 1;
      RenumberedAllRefer(ts[..n], base, c);
      RenumberedRefers(ts[n], base + Sizes(ts[..n]), c);
    }
  }

  lemma {:induction false} GlobsRefer(t: Tree, gs: map<Glob, Glob>, c: Ctx)
    requires GlobsCovered(t, gs)
    ensures Refers(WithGlobs(t, gs), c) == Refers(t, c)
    decreases t
  {
    var w := WithGlobs(t, gs);
    forall i | 0 <= i < |t.kids|
      ensures Refers(w.kids[i], c) == Refers(t.kids[i], c)
    {
      GlobsRefer(t.kids[i], gs, c);
    }
  }

  predicate Leads(t: Tree, cs: map<Ctx, Ctx>, k: Ctx, c: Ctx) {
    Refers(t, k) && k in cs && cs[k] == c
  }

  /** The references of the copy are the copies of the references. */
  lemma {:induction false} CopiedRefers(t: Tree, cs: map<Ctx, Ctx>, c: Ctx)
    requires Covered(t, cs)
    ensures Refers(WithRefs(t, cs), c) <==> exists k :: Leads(t, cs, k, c)
    decreases t
  {
    var w := WithRefs(t, cs);
    forall i | 0 <= i < |t.kids|
      ensures Refers(w.kids[i], c) <==> exists k :: Leads(t.kids[i], cs, k, c)
    {
      CopiedRefers(t.kids[i], cs, c);
    }
    if Refers(w, c) {
      if c in w.refs {
        var i :| 0 <= i < |w.refs| && w.refs[i] == c;
        assert Leads(t, cs, t.refs[i], c);
      } else {
        var i :| 0 <= i < |w.kids| && Refers(w.kids[i], c);
        var k :| Leads(t.kids[i], cs, k, c);
        assert Leads(t, cs, k, c);
      }
    }
    if k :| Leads(t, cs, k, c) {
      if k in t.refs {
        var i :| 0 <= i < |t.refs| && t.refs[i] == k;
        assert w.refs[i] == c;
      } else {
        var i :| 0 <= i < |t.kids| && Refers(t.kids[i], k);
        assert Leads(t.kids[i], cs, k, c);
        assert Refers(w.kids[i], c);
      }
    }
  }

  lemma {:induction false} NilRefers(t: Tree, c: Ctx)
    requires c in NilRefs(t)
    ensures Refers(t, c)
    decreases t, 1
  {
    if c !in t.refs {
      var i := NilAllRefers(t.kids, !t.kind.MapKind?, c);
    }
  }

  lemma {:induction false} NilAllRefers(ts: seq<Tree>, mapsOnly: bool, c: Ctx) returns (i: nat)
    requires c in NilRefsAll(ts, mapsOnly)
    ensures i < |ts| && Refers(ts[i], c)
    decreases ts, 0, |ts|
  {
    var n := |ts| - 1;
    if c in NilRefsAll(ts[..n], mapsOnly) {
      i := NilAllRefers(ts[..n], mapsOnly, c);
    } else {
      NilRefers(ts[n], c);
      i := n;
    }
  }

  // ----- what is forgotten -----

  /** Maps hold fields and edges, fields and edges hold composites, and only those two have references. */
  predicate IsIR(t: Tree)
    decreases t
  {
    && (!t.kind.FieldKind? && !t.kind.EdgeKind? ==> t.refs == [])
    && (t.kind.ScalarKind? ==> t.kids == [])
    && (forall i :: 0 <= i < |t.kids| ==>
          (t.kind.MapKind? <==> t.kids[i].kind.FieldKind? || t.kids[i].kind.EdgeKind?) && IsIR(t.kids[i]))
  }

  /** Some way down to a reference with this context passes no array. */
  predicate OutsideArrays(t: Tree, c: Ctx)
    decreases t
  {
    c in t.refs || (!t.kind.ArrayKind? && exists i :: 0 <= i < |t.kids| && OutsideArrays(t.kids[i], c))
  }

  /** The references whose scope maps are forgotten are exactly those that can be reached without passing an array. */
  lemma {:induction false} ForgetsOutsideArrays(t: Tree, c: Ctx)
    requires IsIR(t)
    ensures c in NilRefs(t) <==> OutsideArrays(t, c)
    decreases t, 1
  {
    ForgetsAll(t.kids, !t.kind.MapKind?, c);
  }

  lemma {:induction false} ForgetsAll(ts: seq<Tree>, mapsOnly: bool, c: Ctx)
    requires forall i :: 0 <= i < |ts| ==> IsIR(ts[i])
    requires mapsOnly ==> forall i :: 0 <= i < |ts| ==> !ts[i].kind.FieldKind? && !ts[i].kind.EdgeKind?
    ensures c in NilRefsAll(ts, mapsOnly) <==> exists i :: 0 <= i < |ts| && OutsideArrays(ts[i], c)
    decreases ts, 0, |ts|
  {
    hide NilRefs;
    if ts != [] {
      var n := |ts| - 1;
      ForgetsAll(ts[..n], mapsOnly, c);
      ForgetsOutsideArrays(ts[n], c);
      if i :| 0 <= i < n && OutsideArrays(ts[i], c) {
        assert OutsideArrays(ts[..n][i], c);
      }
      if i :| 0 <= i < n && OutsideArrays(ts[..n][i], c) {
        assert OutsideArrays(ts[i], c);
      }
    }
  }

  // ----- a clone and its contexts -----

  /** How a clone was made: where its maps and contexts went, and the numbers its contexts lie between. */
  datatype Made = Made(copies: map<Id, Id>, cs: map<Ctx, Ctx>, lo: Ctx, hi: Ctx)

  /** The clone refers to the copies of the template's contexts, each its own, and to nothing else. */
  ghost predicate IsClone(template: Tree, clone: Tree, m: Made) {
    && Mapped(template, clone, m.copies) && m.lo <= m.hi
    && (forall k :: Refers(template, k) ==> k in m.cs && m.lo <= m.cs[k] < m.hi)
    && (forall k, l :: Refers(template, k) && Refers(template, l) && k in m.cs && l in m.cs && m.cs[k] == m.cs[l] ==>
        k == l)
    && (forall c :: Refers(clone, c) <==> exists k :: Leads(template, m.cs, k, c))
  }

  /** What a context of the clone must hold: what the template's holds, led into the clone, unless it was forgotten. */
  predicate Holds(template: Tree, clone: Tree, original: Context, c: Context, gone: bool) {
    if gone then c.key == original.key && c.scopeMap.None? else LedInto(template, clone, original, c)
  }

  /** Every reference of the clone, under arrays too, has the context it should have. */
  ghost predicate Intact(template: Tree, contexts0: map<Ctx, Context>, contexts: map<Ctx, Context>, clone: Tree,
                         m: Made, forgotten: bool) {
    forall k :: Refers(template, k) ==>
      && k in contexts0 && k in m.cs && m.cs[k] in contexts
      && Holds(template, clone, contexts0[k], contexts[m.cs[k]], forgotten && m.cs[k] in NilRefs(clone))
  }

  lemma NewClone(imports0: map<Ctx, Context>, base: Ctx, first: Id, copies: map<Id, Id>, cs: map<Ctx, Ctx>,
                 gs: map<Glob, Glob>, imports1: map<Ctx, Context>, next: Ctx, contexts0: map<Ctx, Context>,
                 globs: set<Glob>, template: Tree, clone: Tree)
    requires Covered(Renumbered(template, first), cs) && GlobsCovered(WithRefs(Renumbered(template, first), cs), gs)
    requires clone == WithGlobs(WithRefs(Renumbered(template, first), cs), gs) && Mapped(template, clone, copies)
    requires Known(template, contexts0.Keys, globs)
    requires forall c :: c in contexts0 ==> c in imports0 && imports0[c] == contexts0[c]
    requires ContextsCopied(imports0, base, copies, cs, imports1, next)
    requires AllLed(template, clone, imports0, cs, imports1)
    ensures IsClone(template, clone, Made(copies, cs, base, next))
    ensures Intact(template, contexts0, imports1, clone, Made(copies, cs, base, next), false)
  {
    hide Refers, Covered, GlobsCovered, WithRefs, WithGlobs, Renumbered, Mapped, Known, NilRefs, ContextsCopied,
      LedInto;
    var t := Renumbered(template, first);
    forall k | Refers(template, k)
      ensures k in contexts0 && k in cs
    {
      KnownRefers(template, contexts0.Keys, globs, k);
      RenumberedRefers(template, first, k);
      CoveredRefers(t, cs, k);
    }
    forall c
      ensures Refers(clone, c) <==> exists k :: Leads(template, cs, k, c)
    {
      GlobsRefer(WithRefs(t, cs), gs, c);
      CopiedRefers(t, cs, c);
      forall k
        ensures Leads(t, cs, k, c) == Leads(template, cs, k, c)
      {
        RenumberedRefers(template, first, k);
      }
    }
    Copied(imports0, base, copies, cs, imports1, next);
  }

  lemma Copied(contexts: map<Ctx, Context>, base: Ctx, copies: map<Id, Id>, cs: map<Ctx, Ctx>,
               contexts': map<Ctx, Context>, next: Ctx)
    requires ContextsCopied(contexts, base, copies, cs, contexts', next)
    ensures base <= next && (forall c :: c in contexts ==> c < base && c in contexts' && contexts'[c] == contexts[c])
    ensures forall c :: c in cs ==> c in contexts && base <= cs[c] < next && cs[c] in contexts'
                                    && contexts'[cs[c]] == Moved(contexts[c], copies)
    ensures forall c, d :: c in cs && d in cs && cs[c] == cs[d] ==> c == d
    ensures forall c :: c in contexts' ==> c < next
  {
  }

  // ----- any number of uses, in any order -----

  /** Cloning the template once more, or forgetting the scope maps of a clone made before. */
  datatype Op = Use | Forget(i: nat)

  function Uses(ops: seq<Op>): nat {
    if ops == [] then 0 else Uses(ops[..|ops| - 1]) + if ops[|ops| - 1].Use? then 1 else 0
  }

  /** Clone i has been there, and has been made to forget. */
  predicate Forgotten(ops: seq<Op>, i: nat) {
    exists j :: 0 <= j < |ops| && ops[j] == Forget(i) && i < Uses(ops[..j])
  }

  lemma UsesMore(ops: seq<Op>, j: nat)
    requires j < |ops|
    ensures Uses(ops[..j + 1]) == Uses(ops[..j]) + if ops[j].Use? then 1 else 0
  {
    assert ops[..j + 1][..j] == ops[..j];
  }

  lemma ForgottenMore(ops: seq<Op>, j: nat, i: nat)
    requires j < |ops|
    ensures Forgotten(ops[..j + 1], i) == (Forgotten(ops[..j], i) || (ops[j] == Forget(i) && i < Uses(ops[..j])))
  {
    hide Uses;
    var now, before := ops[..j + 1], ops[..j];
    forall l | 0 <= l <= j
      ensures now[l] == ops[l] && now[..l] == ops[..l] && (l < j ==> before[l] == ops[l] && before[..l] == ops[..l])
    {
    }
    if Forgotten(before, i) {
      var l :| 0 <= l < |before| && before[l] == Forget(i) && i < Uses(before[..l]);
      assert now[l] == Forget(i) && i < Uses(now[..l]);
    }
    if ops[j] == Forget(i) && i < Uses(before) {
      assert now[j] == Forget(i) && i < Uses(now[..j]);
    }
  }

  ghost predicate AllIntact(template: Tree, contexts0: map<Ctx, Context>, contexts: map<Ctx, Context>, base: Ctx,
                            next: Ctx, clones: seq<Tree>, made: seq<Made>, forgotten: seq<bool>) {
    && |clones| == |made| == |forgotten|
    && (forall c :: c in contexts0 ==> c < base && c in contexts && contexts[c] == contexts0[c])
    && (forall i :: 0 <= i < |clones| ==>
        IsClone(template, clones[i], made[i]) && base <= made[i].lo &&
        made[i].hi <= next)
    && (forall i :: 0 <= i < |clones| ==> Intact(template, contexts0, contexts, clones[i], made[i], forgotten[i]))
    && (forall i, j :: 0 <= i < j < |clones| ==> made[i].hi <= made[j].lo)
  }

  lemma Cloned(template: Tree, contexts0: map<Ctx, Context>, contexts: map<Ctx, Context>, base: Ctx, next: Ctx,
               clones: seq<Tree>, made: seq<Made>, forgotten: seq<bool>, contexts': map<Ctx, Context>, next': Ctx,
               clone: Tree, m: Made)
    requires AllIntact(template, contexts0, contexts, base, next, clones, made, forgotten)
    requires forall c :: c in contexts ==> c in contexts' && contexts'[c] == contexts[c]
    requires IsClone(template, clone, m) && Intact(template, contexts0, contexts', clone, m, false)
    requires base <= next == m.lo && next <= next' == m.hi
    ensures AllIntact(template, contexts0, contexts', base, next', clones + [clone], made + [m], forgotten + [false])
  {
    hide IsClone, Intact;
    forall i | 0 <= i < |clones|
      ensures Intact(template, contexts0, contexts', clones[i], made[i], forgotten[i])
    {
      StillIntact(template, contexts0, contexts, contexts', clones[i], made[i], forgotten[i]);
    }
    assert (forgotten + [false])[|forgotten|] == false;
  }

  lemma StillIntact(template: Tree, contexts0: map<Ctx, Context>, contexts: map<Ctx, Context>,
                    contexts': map<Ctx, Context>, clone: Tree, m: Made, forgotten: bool)
    requires Intact(template, contexts0, contexts, clone, m, forgotten)
    requires forall c :: c in contexts ==> c in contexts' && contexts'[c] == contexts[c]
    ensures Intact(template, contexts0, contexts', clone, m, forgotten)
  {
    hide Refers, NilRefs, Holds;
  }

  /** Forgetting touches the contexts of one clone only, and among those only what it descends to. */
  lemma ForgotOne(template: Tree, contexts0: map<Ctx, Context>, contexts: map<Ctx, Context>, base: Ctx, next: Ctx,
                  clones: seq<Tree>, made: seq<Made>, forgotten: seq<bool>, i: nat, contexts': map<Ctx, Context>)
    requires AllIntact(template, contexts0, contexts, base, next, clones, made, forgotten) && i < |clones|
    requires contexts'.Keys == contexts.Keys
    requires forall c :: c in contexts ==>
               contexts'[c] == if c in NilRefs(clones[i]) then contexts[c].(scopeMap := None) else contexts[c]
    ensures AllIntact(template, contexts0, contexts', base, next, clones, made, forgotten[i := true])
  {
    hide NilRefs, IsClone, Intact;
    forall c | c in NilRefs(clones[i])
      ensures made[i].lo <= c < made[i].hi
    {
      NilRefers(clones[i], c);
      CloneNumbers(template, clones[i], made[i], c);
    }
    forall j | 0 <= j < |clones|
      ensures Intact(template, contexts0, contexts', clones[j], made[j], forgotten[i := true][j])
    {
      if j == i {
        NowForgotten(template, contexts0, contexts, contexts', clones[i], made[i], forgotten[i]);
      } else {
        OthersIntact(template, contexts0, contexts, contexts', clones[j], made[j], forgotten[j], made[i].lo,
                     made[i].hi);
      }
    }
  }

  lemma CloneNumbers(template: Tree, clone: Tree, m: Made, c: Ctx)
    requires IsClone(template, clone, m) && Refers(clone, c)
    ensures m.lo <= c < m.hi
  {
    hide Refers, Mapped;
    var k :| Leads(template, m.cs, k, c);
  }

  lemma NowForgotten(template: Tree, contexts0: map<Ctx, Context>, contexts: map<Ctx, Context>,
                     contexts': map<Ctx, Context>, clone: Tree, m: Made, forgotten: bool)
    requires Intact(template, contexts0, contexts, clone, m, forgotten) && contexts'.Keys == contexts.Keys
    requires forall c :: c in contexts ==>
               contexts'[c] == if c in NilRefs(clone) then contexts[c].(scopeMap := None) else contexts[c]
    ensures Intact(template, contexts0, contexts', clone, m, true)
  {
    hide Refers, NilRefs, HasMap, StandsFor, Ids;
  }

  lemma OthersIntact(template: Tree, contexts0: map<Ctx, Context>, contexts: map<Ctx, Context>,
                     contexts': map<Ctx, Context>, clone: Tree, m: Made, forgotten: bool, lo: Ctx, hi: Ctx)
    requires IsClone(template, clone, m) && Intact(template, contexts0, contexts, clone, m, forgotten)
    requires contexts'.Keys == contexts.Keys && (m.hi <= lo || hi <= m.lo)
    requires forall c :: c in contexts && !(lo <= c < hi) ==> contexts'[c] == contexts[c]
    ensures Intact(template, contexts0, contexts', clone, m, forgotten)
  {
    hide Refers, NilRefs, Mapped, Holds;
  }

  /**
   Uses of one template and of its clones, in any order. Whatever was cloned and forgotten, the template's contexts are
   as they were; every reference of every clone has a context of its clone's own with the template's key, and for scope
   map the map of that very clone that stands where the template's stands, or the template's own if it lies outside it;
   only where this very clone was made to forget is the scope map gone. No two clones share a node, and none has a node
   that was there before.
   */
  method UseInAnyOrder(imports: Imports, template: Tree, ops: seq<Op>)
      returns (clones: seq<Tree>, ghost made: seq<Made>, ghost forgotten: seq<bool>)
    requires imports.Valid() && Known(template, imports.contexts.Keys, imports.globs.Keys) && Distinct(Ids(template))
    modifies imports
    ensures imports.Valid() && |clones| == |made| == |forgotten| == Uses(ops)
    ensures forall i :: 0 <= i < |clones| ==> (forgotten[i] <==> Forgotten(ops, i))
    ensures forall c :: c in old(imports.contexts) ==>
              c in imports.contexts && imports.contexts[c] == old(imports.contexts)[c]
    ensures forall g :: g in old(imports.globs) ==> g in imports.globs && imports.globs[g] == old(imports.globs)[g]
    ensures forall i :: 0 <= i < |clones| ==> IsClone(template, clones[i], made[i])
    ensures forall i :: 0 <= i < |clones| ==>
              Intact(template, old(imports.contexts), imports.contexts, clones[i], made[i], forgotten[i])
    ensures forall i, c :: 0 <= i < |clones| && Refers(clones[i], c) ==> c !in old(imports.contexts)
    ensures forall i, j, c :: 0 <= i < j < |clones| && Refers(clones[i], c) ==> !Refers(clones[j], c)
    ensures NodesApart(clones, old(imports.nextId), imports.nextId)
  {
    hide Known, Mapped, Covered, GlobsCovered, WithRefs, WithGlobs, Renumbered, NilRefs, GlobsCopied, ContextsCopied,
      IsCopy, Ids, Distinct, GlobsKnown, Refers, IsClone, Intact, AllIntact, Uses, AllLed, NodesApart, Flagged,
      Forgotten;
    clones, made, forgotten := [], [], [];
    ghost var contexts0, globs0, base := imports.contexts, imports.globs, imports.nextCtx;
    ghost var firstId := imports.nextId;
    NothingYet(template, contexts0, base);
    NoNodes(firstId);
    NoOps(ops);
    for n := 0 to |ops|
      invariant imports.Valid() && Known(template, imports.contexts.Keys, imports.globs.Keys) && base <= imports.nextCtx
      invariant AllIntact(template, contexts0, imports.contexts, base, imports.nextCtx, clones, made, forgotten)
      invariant |clones| == |made| == |forgotten| == Uses(ops[..n])
      invariant forall g :: g in globs0 ==> g in imports.globs && imports.globs[g] == globs0[g]
      invariant Flagged(ops[..n], forgotten)
      invariant NoneBeyond(ops[..n], |clones|) && NodesApart(clones, firstId, imports.nextId)
    {
      UsesMore(ops, n);
      NextForgotten(ops, n, |clones|);
      ghost var flags := forgotten;
      ghost var contexts, next, globs := imports.contexts, imports.nextCtx, imports.globs;
      if ops[n].Use? {
        ghost var first, nextGlob := imports.nextId, imports.nextGlob;
        var clone, copies;
        ghost var cs, gs;
        clone, copies, cs, gs := imports.CloneImportMap(template);
        Copied(contexts, next, copies, cs, imports.contexts, imports.nextCtx);
        TemplateKept(template, contexts0, contexts, base, next, clones, made, forgotten);
        KeysGrow(globs, nextGlob, cs, gs, imports.globs, imports.nextGlob);
        NewClone(contexts, next, first, copies, cs, gs, imports.contexts, imports.nextCtx, contexts0, globs0.Keys,
                 template, clone);
        KnownMore(template, contexts.Keys, globs.Keys, imports.contexts.Keys, imports.globs.Keys);
        Cloned(template, contexts0, contexts, base, next, clones, made, forgotten, imports.contexts, imports.nextCtx,
               clone, Made(copies, cs, next, imports.nextCtx));
        MoreNodes(clones, firstId, first, clone, imports.nextId);
        clones, made, forgotten := clones + [clone], made + [Made(copies, cs, next, imports.nextCtx)],
          forgotten + [false];
      } else if ops[n].i < |clones| {
        var i := ops[n].i;
        NilKnown(template, contexts0, contexts, base, next, clones, made, forgotten, i);
        imports.NilScopeMap(clones[i]);
        StillValid(imports.globs, contexts, imports.contexts);
        ForgotOne(template, contexts0, contexts, base, next, clones, made, forgotten, i, imports.contexts);
        forgotten := forgotten[i := true];
      }
      NextFlags(ops, n, flags, forgotten);
    }
    assert ops[..|ops|] == ops;
    AllApart(template, contexts0, imports.contexts, base, imports.nextCtx, clones, made, forgotten);
    FlagsRead(ops, forgotten);
  }

  lemma FlagsRead(ops: seq<Op>, flags: seq<bool>)
    requires Flagged(ops, flags)
    ensures forall i :: 0 <= i < |flags| ==> (flags[i] <==> Forgotten(ops, i))
  {
    hide Forgotten;
  }

  /** The nodes of the clones have numbers from `first` on, and no two clones share one. */
  ghost predicate NodesApart(clones: seq<Tree>, first: Id, next: Id) {
    && (forall i, id :: 0 <= i < |clones| && id in Ids(clones[i]) ==> first <= id < next)
    && (forall i, j, id :: 0 <= i < j < |clones| && id in Ids(clones[i]) ==> id !in Ids(clones[j]))
    && first <= next
  }

  lemma NoNodes(first: Id)
    ensures NodesApart([], first, first)
  {
  }

  lemma MoreNodes(clones: seq<Tree>, first: Id, next: Id, clone: Tree, next': Id)
    requires NodesApart(clones, first, next) && next <= next'
    requires Ids(clone) == seq(next' - next, i => next + i)
    ensures NodesApart(clones + [clone], first, next')
  {
    hide Ids;
    var more := clones + [clone];
    forall i, id | 0 <= i < |more| && id in Ids(more[i])
      ensures first <= id < next' && (i < |clones| ==> id < next)
    {
      assert i < |clones| ==> more[i] == clones[i];
    }
  }

  lemma StillValid(globs: map<Glob, GlobContext>, contexts: map<Ctx, Context>, contexts': map<Ctx, Context>)
    requires GlobsKnown(globs, contexts) && contexts'.Keys == contexts.Keys
    ensures GlobsKnown(globs, contexts')
  {
  }

  lemma NothingYet(template: Tree, contexts0: map<Ctx, Context>, base: Ctx)
    requires forall c :: c in contexts0 ==> c < base
    ensures AllIntact(template, contexts0, contexts0, base, base, [], [], [])
  {
  }

  ghost predicate NoneBeyond(ops: seq<Op>, n: nat) {
    forall i: nat :: Forgotten(ops, i) ==> i < n
  }

  lemma NextForgotten(ops: seq<Op>, j: nat, n: nat)
    requires j < |ops| && NoneBeyond(ops[..j], n) && n == Uses(ops[..j])
    ensures NoneBeyond(ops[..j + 1], if ops[j].Use? then n + 1 else n)
    ensures forall i: nat :: Forgotten(ops[..j + 1], i) <==> Forgotten(ops[..j], i) || (ops[j] == Forget(i) && i < n)
  {
    hide Forgotten, Uses;
    var now, before := ops[..j + 1], ops[..j];
    forall i: nat
      ensures Forgotten(now, i) <==> Forgotten(before, i) || (ops[j] == Forget(i) && i < n)
    {
      ForgottenMore(ops, j, i);
    }
    forall i: nat | Forgotten(now, i)
      ensures i < n
    {
      assert Forgotten(before, i) ==> i < n;
    }
  }

  ghost predicate Flagged(ops: seq<Op>, flags: seq<bool>) {
    forall i :: 0 <= i < |flags| ==> (flags[i] <==> Forgotten(ops, i))
  }

  /** The flag of each clone, one step on. */
  lemma NextFlags(ops: seq<Op>, n: nat, flags: seq<bool>, after: seq<bool>)
    requires n < |ops| && NoneBeyond(ops[..n], |flags|) && |flags| == Uses(ops[..n]) && Flagged(ops[..n], flags)
    requires after == match ops[n]
                      case Use => flags + [false]
                      case Forget(i) => if i < |flags| then flags[i := true] else flags
    ensures Flagged(ops[..n + 1], after)
  {
    hide Forgotten, Uses;
    NextForgotten(ops, n, |flags|);
    forall i | 0 <= i < |after|
      ensures after[i] <==> Forgotten(ops[..n + 1], i)
    {
      if i < |flags| {
        assert flags[i] <==> Forgotten(ops[..n], i);
      } else {
        assert !Forgotten(ops[..n], i);
      }
    }
  }

  lemma NoOps(ops: seq<Op>)
    ensures Uses(ops[..0]) == 0 && NoneBeyond(ops[..0], 0) && Flagged(ops[..0], [])
  {
  }

  lemma TemplateKept(template: Tree, contexts0: map<Ctx, Context>, contexts: map<Ctx, Context>, base: Ctx, next: Ctx,
                     clones: seq<Tree>, made: seq<Made>, forgotten: seq<bool>)
    requires AllIntact(template, contexts0, contexts, base, next, clones, made, forgotten)
    ensures forall c :: c in contexts0 ==> c in contexts && contexts[c] == contexts0[c]
  {
  }

  lemma NilKnown(template: Tree, contexts0: map<Ctx, Context>, contexts: map<Ctx, Context>, base: Ctx, next: Ctx,
                 clones: seq<Tree>, made: seq<Made>, forgotten: seq<bool>, i: nat)
    requires AllIntact(template, contexts0, contexts, base, next, clones, made, forgotten) && i < |clones|
    ensures forall c :: c in NilRefs(clones[i]) ==> c in contexts
  {
    hide Refers, NilRefs, Mapped;
    forall c | c in NilRefs(clones[i])
      ensures c in contexts
    {
      NilRefers(clones[i], c);
      assert IsClone(template, clones[i], made[i]);
      var k :| Leads(template, made[i].cs, k, c);
      assert Intact(template, contexts0, contexts, clones[i], made[i], forgotten[i]);
    }
  }

  lemma AllApart(template: Tree, contexts0: map<Ctx, Context>, contexts: map<Ctx, Context>, base: Ctx, next: Ctx,
                 clones: seq<Tree>, made: seq<Made>, forgotten: seq<bool>)
    requires AllIntact(template, contexts0, contexts, base, next, clones, made, forgotten)
    ensures forall i, c :: 0 <= i < |clones| && Refers(clones[i], c) ==> c !in contexts0
    ensures forall i, j, c :: 0 <= i < j < |clones| && Refers(clones[i], c) ==> !Refers(clones[j], c)
    ensures forall c :: c in contexts0 ==> c in contexts && contexts[c] == contexts0[c]
    ensures forall i :: 0 <= i < |clones| ==> IsClone(template, clones[i], made[i])
    ensures forall i :: 0 <= i < |clones| ==> Intact(template, contexts0, contexts, clones[i], made[i], forgotten[i])
  {
    hide Refers, Intact, IsClone;
    forall i, c: Ctx | 0 <= i < |clones| && Refers(clones[i], c)
      ensures made[i].lo <= c < made[i].hi
    {
      CloneNumbers(template, clones[i], made[i], c);
    }
  }

  lemma KeysGrow(globs: map<Glob, GlobContext>, gbase: Glob, cs: map<Ctx, Ctx>, gs: map<Glob, Glob>,
                 globs': map<Glob, GlobContext>, gnext: Glob)
    requires GlobsCopied(globs, gbase, cs, gs, {}, globs', gnext)
    ensures globs.Keys <= globs'.Keys && forall g :: g in globs ==> globs'[g] == globs[g]
  {
  }

  lemma {:induction false} KnownMore(t: Tree, contexts: set<Ctx>, globs: set<Glob>, contexts': set<Ctx>,
                                     globs': set<Glob>)
    requires Known(t, contexts, globs) && contexts <= contexts' && globs <= globs'
    ensures Known(t, contexts', globs')
    decreases t
  {
    forall i | 0 <= i < |t.kids|
      ensures Known(t.kids[i], contexts', globs')
    {
      KnownMore(t.kids[i], contexts, globs, contexts', globs');
    }
  }

  /** Wherever a clone was made to forget, the scope maps are gone. */
  lemma ForgottenScopes(template: Tree, contexts0: map<Ctx, Context>, contexts: map<Ctx, Context>, clone: Tree, m: Made)
    requires IsClone(template, clone, m) && Intact(template, contexts0, contexts, clone, m, true)
    ensures forall c :: c in NilRefs(clone) ==> c in contexts && contexts[c].scopeMap.None?
    ensures forall c :: Refers(clone, c) && c !in NilRefs(clone) ==>
              exists k ::
              Leads(template, m.cs, k, c) && k in contexts0 && c in contexts &&
              LedInto(template, clone, contexts0[k], contexts[c])
  {
    hide Refers, NilRefs, Mapped, LedInto;
    forall c | c in NilRefs(clone)
      ensures c in contexts && contexts[c].scopeMap.None?
    {
      NilRefers(clone, c);
      var k :| Leads(template, m.cs, k, c);
    }
    forall c | Refers(clone, c) && c !in NilRefs(clone)
      ensures exists k ::
              Leads(template, m.cs, k, c) && k in contexts0 && c in contexts &&
              LedInto(template, clone, contexts0[k], contexts[c])
    {
      var k :| Leads(template, m.cs, k, c);
    }
  }
}

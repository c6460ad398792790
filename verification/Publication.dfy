/**
 The publication transaction over an existing output tree: back up, create directories, install and remove
 files, prune stale directories, write the manifest last; on failure undo everything in reverse.
 */
module Publication {
  import opened Options
  import opened FileSystem
  import opened Install

  const MANIFEST: Path := [Plain(".d2-board-output-manifest-v1.json")]

  datatype Entry = Entry(rel: Path, dir: bool, staged: Staged)

  datatype ManifestFile = ManifestFile(path: Path, sha: Digest)

  datatype Manifest = Manifest(files: seq<ManifestFile>, directories: seq<Path>)

  datatype FileChange = FileChange(rel: Path, source: Staged, remove: bool, expected: Digest,
                                   existed: bool, originalIno: nat, backup: Staged, skip: bool, installed: Option<nat>)

  datatype RemovedDir = RemovedDir(rel: Path, mode: nat)

  // ----- the tree as a user sees it: contents and modes, no inode numbers -----

  datatype Shape = FileShape(content: Content, mode: nat) | DirShape(perm: nat) | SpecialShape

  type View = map<Path, Shape>

  function ShapeOf(n: Node): Shape {
    match n
    case File(_, content, mode) => FileShape(content, mode)
    case Dir(perm) => DirShape(perm)
    case Special => SpecialShape
  }

  function Seen(tree: map<Path, Node>, leak: set<Path>): View {
    map p | p in tree && p !in leak :: ShapeOf(tree[p])
  }

  // ----- what undoing the recorded steps, last first, makes of a view -----

  function UndoDirs(v: View, removed: seq<RemovedDir>): View
    decreases |removed|
  {
    if removed == [] then v
    else
      var last := removed[|removed| - 1];
      UndoDirs(v[last.rel := DirShape(last.mode)], removed[..|removed| - 1])
  }

  function UndoFile(v: View, c: FileChange): View {
    if c.existed then v[c.rel := FileShape(c.backup.content, c.backup.mode)] else v - {c.rel}
  }

  function UndoFiles(v: View, applied: seq<FileChange>): View
    decreases |applied|
  {
    if applied == [] then v else UndoFiles(UndoFile(v, applied[|applied| - 1]), applied[..|applied| - 1])
  }

  function UndoCreated(v: View, created: seq<Path>): View
    decreases |created|
  {
    if created == [] then v else UndoCreated(v - {created[|created| - 1]}, created[..|created| - 1])
  }

  /** What the transaction has done so far, in order. */
  datatype Journal = Journal(created: seq<Path>, applied: seq<FileChange>, removed: seq<RemovedDir>)

  /** Removed directories come back first, then files, then created directories go. */
  function Undone(v: View, j: Journal): View {
    UndoCreated(UndoFiles(UndoDirs(v, j.removed), j.applied), j.created)
  }

  predicate Mentions(removed: seq<RemovedDir>, p: Path) {
    exists i :: 0 <= i < |removed| && removed[i].rel == p
  }

  lemma {:induction false} UndoDirsCommutes(v: View, removed: seq<RemovedDir>, c: FileChange)
    requires !Mentions(removed, c.rel)
    ensures UndoFile(UndoDirs(v, removed), c) == UndoDirs(UndoFile(v, c), removed)
    decreases |removed|
  {
    if removed != [] {
      var last := removed[|removed| - 1];
      assert last.rel != c.rel;
      UndoDirsCommutes(v[last.rel := DirShape(last.mode)], removed[..|removed| - 1], c);
      assert UndoFile(v[last.rel := DirShape(last.mode)], c) == UndoFile(v, c)[last.rel := DirShape(last.mode)];
    }
  }

  /** Undoing the journal from this tree gives back the starting tree, leaked temporary files aside. */
  ghost predicate Recoverable(tree: map<Path, Node>, leak: set<Path>, start: map<Path, Node>, temps: nat, j: Journal) {
    && (forall p :: p in start ==> Known(p, temps))
    && (forall q :: q in leak ==> !Known(q, temps) && q in tree)
    && (forall i :: 0 <= i < |j.removed| ==> j.removed[i].rel !in tree && j.removed[i].rel in start)
    && (forall i, k :: 0 <= i < k < |j.removed| ==> j.removed[i].rel != j.removed[k].rel)
    && (forall i :: 0 <= i < |j.applied| ==> Known(j.applied[i].rel, temps))
    && (forall i :: 0 <= i < |j.created| ==> Known(j.created[i], temps))
    && Undone(Seen(tree, leak), j) == Seen(start, {})
  }

  lemma RecordMkdir(tree: map<Path, Node>, start: map<Path, Node>, temps: nat, j: Journal, p: Path, mode: nat)
    requires Recoverable(tree, {}, start, temps, j) && j.applied == [] && j.removed == [] && p !in tree && p !in start
    requires Known(p, temps)
    ensures Recoverable(tree[p := Dir(mode)], {}, start, temps, j.(created := j.created + [p]))
    ensures forall base :: OldKept(tree, start, base, j.created) ==>
            OldKept(tree[p := Dir(mode)], start, base, j.created + [p])
    ensures OnlyAt(tree[p := Dir(mode)], tree, {p})
  {
    assert Seen(tree[p := Dir(mode)], {}) - {p} == Seen(tree, {});
    assert (j.created + [p])[..|j.created|] == j.created;
  }

  lemma RecordRmdir(tree: map<Path, Node>, start: map<Path, Node>, temps: nat, j: Journal, p: Path)
    requires Recoverable(tree, {}, start, temps, j) && p in tree && tree[p].Dir? && p in start
    requires start[p] == tree[p]
    ensures Recoverable(tree - {p}, {}, start, temps, j.(removed := j.removed + [RemovedDir(p, tree[p].perm)]))
    ensures forall base :: OldKept(tree, start, base, j.created) ==> OldKept(tree - {p}, start, base, j.created)
    ensures OnlyAt(tree - {p}, tree, {p})
  {
    assert Seen(tree - {p}, {})[p := DirShape(tree[p].perm)] == Seen(tree, {});
    assert (j.removed + [RemovedDir(p, tree[p].perm)])[..|j.removed|] == j.removed;
  }

  /** Restoring what was at c.rel at the start makes the view what it was before the change. */
  lemma UndoOne(tree: map<Path, Node>, tree': map<Path, Node>, leak: set<Path>, start: map<Path, Node>, c: FileChange)
    requires OnlyAt(tree', tree, {c.rel} + leak) && (forall q :: q in leak ==> q in tree' && q !in tree)
    requires (c.existed <==> c.rel in start) && AgreeAt(tree, start, c.rel)
    requires c.existed ==> ShapeOf(start[c.rel]) == FileShape(c.backup.content, c.backup.mode)
    ensures UndoFile(Seen(tree', leak), c) == Seen(tree, {})
  {
    SeenElsewhere(tree, tree', leak, {c.rel});
  }

  /** A change at c.rel, even an incomplete one, is undone by restoring what was there at the start. */
  lemma RecordFile(tree: map<Path, Node>, tree': map<Path, Node>, leak: set<Path>, start: map<Path, Node>, temps: nat,
                   j: Journal, c: FileChange)
    requires Recoverable(tree, {}, start, temps, j) && OnlyAt(tree', tree, {c.rel} + leak)
    requires Known(c.rel, temps) && (forall q :: q in leak ==> !Known(q, temps) && q in tree' && q !in tree)
    requires (c.existed <==> c.rel in start) && AgreeAt(tree, start, c.rel)
    requires c.existed ==> ShapeOf(start[c.rel]) == FileShape(c.backup.content, c.backup.mode)
    ensures Recoverable(tree', leak, start, temps, j.(applied := j.applied + [c]))
  {
    hide Known, Seen, UndoFile, UndoDirs, UndoCreated;
    UndoOne(tree, tree', leak, start, c);
    UndoDirsCommutes(Seen(tree', leak), j.removed, c);
    assert (j.applied + [c])[..|j.applied|] == j.applied;
    forall i | 0 <= i < |j.removed|
      ensures j.removed[i].rel !in tree'
    {
      assert AgreeAt(tree', tree, j.removed[i].rel);
    }
  }

  lemma RecordLeak(tree: map<Path, Node>, tree': map<Path, Node>, leak: set<Path>, start: map<Path, Node>, temps: nat,
                   j: Journal)
    requires Recoverable(tree, {}, start, temps, j) && OnlyAt(tree', tree, leak)
    requires forall q :: q in leak ==> !Known(q, temps) && q in tree' && q !in tree
    ensures Recoverable(tree', leak, start, temps, j)
  {
    hide Known;
    SeenElsewhere(tree, tree', leak, {});
    assert Seen(tree', leak) == Seen(tree, {});
    forall i | 0 <= i < |j.removed|
      ensures j.removed[i].rel !in tree'
    {
      assert AgreeAt(tree', tree, j.removed[i].rel);
    }
  }

  lemma OnlyAtSelf(tree: map<Path, Node>, p: Path)
    ensures OnlyAt(tree, tree, {p})
  {
  }

  lemma SeenElsewhere(tree: map<Path, Node>, tree': map<Path, Node>, leak: set<Path>, at: set<Path>)
    requires OnlyAt(tree', tree, at + leak) && forall q :: q in leak ==> q !in tree
    ensures forall p :: p !in at ==> (p in Seen(tree', leak) <==> p in Seen(tree, {}))
    ensures forall p :: p !in at && p in Seen(tree, {}) ==> Seen(tree', leak)[p] == Seen(tree, {})[p]
  {
    assert forall p :: p !in at && p !in leak ==> AgreeAt(tree', tree, p);
  }

  // ----- why undoing goes through -----

  /** Each removed directory can be made again, last removed first. */
  predicate Restorable(tree: map<Path, Node>, removed: seq<RemovedDir>)
    decreases |removed|
  {
    removed != [] ==>
      var last := removed[|removed| - 1];
      && last.rel != [] && IsDir(tree, Parent(last.rel))
      && Restorable(tree[last.rel := Dir(last.mode)], removed[..|removed| - 1])
  }

  /** Directories were created parents first and removed children first. */
  ghost predicate Orderly(tree: map<Path, Node>, start: map<Path, Node>, j: Journal) {
    && Rooted(start) && Restorable(tree, j.removed)
    && (forall i :: 0 <= i < |j.applied| && j.applied[i].existed ==> IsFile(start, j.applied[i].rel))
    && (forall i, k :: 0 <= i < |j.applied| && 0 <= k < |j.removed| ==> j.applied[i].rel != j.removed[k].rel)
    && (forall i, k :: 0 <= i < k < |j.created| ==> Parent(j.created[i]) != j.created[k])
    && (j.applied == [] && j.removed == [] ==> forall i :: 0 <= i < |j.created| ==> j.created[i] in tree)
  }

  /** The path is as the change left it. */
  predicate Recorded(tree: map<Path, Node>, c: FileChange) {
    if c.installed.Some? then IsFile(tree, c.rel) && tree[c.rel].ino == c.installed.value else c.rel !in tree
  }

  /** Every applied change is still there to be undone, each at a path of its own. */
  predicate Undoable(tree: map<Path, Node>, applied: seq<FileChange>) {
    && (forall i :: 0 <= i < |applied| ==> Recorded(tree, applied[i]))
    && (forall i, k :: 0 <= i < k < |applied| ==> applied[i].rel != applied[k].rel)
  }

  /**
   Nothing stands in the way of undoing: every change is as it was left, and nothing leaked into a created directory.
   */
  ghost predicate CanUndo(tree: map<Path, Node>, leak: set<Path>, j: Journal) {
    Undoable(tree, j.applied) && forall q :: q in leak ==> Parent(q) !in j.created
  }

  ghost predicate Standing(tree: map<Path, Node>, start: map<Path, Node>, applied: seq<FileChange>) {
    Undoable(tree, applied) && forall i :: 0 <= i < |applied| ==> !AgreeAt(tree, start, applied[i].rel)
  }

  lemma {:induction false} RestorableKept(tree: map<Path, Node>, tree': map<Path, Node>, removed: seq<RemovedDir>)
    requires Restorable(tree, removed) && forall p :: IsDir(tree, p) ==> IsDir(tree', p)
    ensures Restorable(tree', removed)
    decreases |removed|
  {
    if removed != [] {
      var last := removed[|removed| - 1];
      var u, u' := tree[last.rel := Dir(last.mode)], tree'[last.rel := Dir(last.mode)];
      forall p | IsDir(u, p)
        ensures IsDir(u', p)
      {
        assert p != last.rel ==> IsDir(tree, p);
      }
      RestorableKept(u, u', removed[..|removed| - 1]);
    }
  }

  lemma RestorableStep(tree: map<Path, Node>, removed: seq<RemovedDir>, n: nat)
    requires n < |removed|
    ensures Restorable(tree, removed[..n + 1]) ==>
              && removed[n].rel != [] && IsDir(tree, Parent(removed[n].rel))
              && Restorable(tree[removed[n].rel := Dir(removed[n].mode)], removed[..n])
  {
    assert removed[..n + 1][n] == removed[n] && removed[..n + 1][..n] == removed[..n];
  }

  lemma AgreeSelf(tree: map<Path, Node>)
    ensures forall p :: AgreeAt(tree, tree, p)
  {
  }

  lemma OnlyUpdate(before: map<Path, Node>, after: map<Path, Node>, p: Path)
    requires p in after && after == before[p := after[p]]
    ensures OnlyAt(after, before, {p})
  {
  }

  lemma MentionedOnly(tree: map<Path, Node>, before: map<Path, Node>, after: map<Path, Node>, removed: seq<RemovedDir>,
                      n: nat)
    requires n < |removed| && OnlyAt(after, before, {removed[n].rel})
    requires forall p :: AgreeAt(before, tree, p) || Mentions(removed, p)
    ensures forall p :: AgreeAt(after, tree, p) || Mentions(removed, p)
  {
    forall p
      ensures AgreeAt(after, tree, p) || Mentions(removed, p)
    {
      assert AgreeAt(before, tree, p) || Mentions(removed, p);
      assert p != removed[n].rel ==> AgreeAt(after, before, p);
    }
  }

  lemma OrderlyMkdir(tree: map<Path, Node>, start: map<Path, Node>, j: Journal, p: Path, mode: nat)
    requires Orderly(tree, start, j) && Rooted(tree) && j.applied == [] && j.removed == [] && p !in tree
    requires p != [] && IsDir(tree, Parent(p))
    ensures Orderly(tree[p := Dir(mode)], start, j.(created := j.created + [p]))
  {
    var more := j.created + [p];
    forall i, k | 0 <= i < k < |more|
      ensures Parent(more[i]) != more[k]
    {
      assert more[i] == j.created[i] && j.created[i] in tree;
      if k == |j.created| {
        assert more[i] != [] ==> IsDir(tree, Parent(more[i]));
        assert more[i] == [] ==> Parent(more[i]) == [];
      }
    }
  }

  lemma OrderlyRmdir(tree: map<Path, Node>, start: map<Path, Node>, j: Journal, p: Path)
    requires Orderly(tree, start, j) && Rooted(tree) && p in tree && tree[p].Dir? && p != []
    requires Standing(tree, start, j.applied)
    ensures Orderly(tree - {p}, start, j.(removed := j.removed + [RemovedDir(p, tree[p].perm)]))
  {
    var more := j.removed + [RemovedDir(p, tree[p].perm)];
    assert IsDir(tree, Parent(p)) && Parent(p) != p;
    assert (tree - {p})[p := Dir(tree[p].perm)] == tree && more[..|j.removed|] == j.removed;
    hide Rooted;
    assert Restorable(tree - {p}, more);
    forall i | 0 <= i < |j.applied|
      ensures j.applied[i].rel != p
    {
      assert Recorded(tree, j.applied[i]);
    }
  }

  lemma OrderlyFile(tree: map<Path, Node>, tree': map<Path, Node>, leak: set<Path>, start: map<Path, Node>, j: Journal,
                    c: FileChange)
    requires Orderly(tree, start, j) && OnlyAt(tree', tree, {c.rel} + leak) && AgreeAt(tree, start, c.rel)
    requires (c.existed ==> IsFile(start, c.rel)) && (!c.existed ==> c.rel !in start)
    requires forall k :: 0 <= k < |j.removed| ==> j.removed[k].rel !in tree && j.removed[k].rel in start
    requires forall q :: q in leak ==> q !in tree
    ensures Orderly(tree', start, j.(applied := j.applied + [c]))
  {
    hide Rooted;
    forall p | IsDir(tree, p)
      ensures IsDir(tree', p)
    {
      assert AgreeAt(tree', tree, p);
    }
    RestorableKept(tree, tree', j.removed);
  }

  lemma OrderlyLeak(tree: map<Path, Node>, tree': map<Path, Node>, leak: set<Path>, start: map<Path, Node>, j: Journal)
    requires Orderly(tree, start, j) && OnlyAt(tree', tree, leak) && forall q :: q in leak ==> q !in tree
    ensures Orderly(tree', start, j)
  {
    hide Rooted;
    forall p | p in tree
      ensures AgreeAt(tree', tree, p)
    {
    }
    RestorableKept(tree, tree', j.removed);
  }

  lemma StandingUndoes(tree: map<Path, Node>, start: map<Path, Node>, leak: set<Path>, j: Journal)
    ensures Standing(tree, start, j.applied) && leak == {} ==> CanUndo(tree, leak, j)
  {
    hide Undoable;
  }

  lemma NothingStanding(tree: map<Path, Node>, start: map<Path, Node>)
    ensures Standing(tree, start, [])
  {
  }

  lemma StandingRmdir(tree: map<Path, Node>, start: map<Path, Node>, applied: seq<FileChange>, p: Path)
    requires Standing(tree, start, applied) && IsDir(tree, p)
    ensures Standing(tree - {p}, start, applied)
  {
    forall i | 0 <= i < |applied|
      ensures Recorded(tree - {p}, applied[i]) && !AgreeAt(tree - {p}, start, applied[i].rel)
    {
      assert Recorded(tree, applied[i]) && !AgreeAt(tree, start, applied[i].rel);
    }
  }

  lemma InstallStands(tree: map<Path, Node>, tree': map<Path, Node>, start: map<Path, Node>, applied: seq<FileChange>,
                      c: FileChange, base: nat)
    requires Standing(tree, start, applied) && OnlyAt(tree', tree, {c.rel}) && AgreeAt(tree, start, c.rel)
    requires Recorded(tree', c) && c.installed.Some? && c.installed.value >= base
    requires if c.existed then IsFile(start, c.rel) && start[c.rel].ino < base else c.rel !in start
    ensures Standing(tree', start, applied + [c])
  {
    hide Standing, OnlyAt;
    StandingFile(tree, tree', start, applied, c);
  }

  lemma RemovedGone(tree: map<Path, Node>, leak: set<Path>, start: map<Path, Node>, temps: nat, j: Journal)
    requires Recoverable(tree, leak, start, temps, j)
    ensures forall k :: 0 <= k < |j.removed| ==> j.removed[k].rel !in tree && j.removed[k].rel in start
  {
    hide Known;
  }

  lemma StandingFile(tree: map<Path, Node>, tree': map<Path, Node>, start: map<Path, Node>, applied: seq<FileChange>,
                     c: FileChange)
    requires Standing(tree, start, applied) && OnlyAt(tree', tree, {c.rel}) && AgreeAt(tree, start, c.rel)
    requires Recorded(tree', c) && !AgreeAt(tree', start, c.rel)
    ensures Standing(tree', start, applied + [c])
  {
    var more := applied + [c];
    forall i | 0 <= i < |applied|
      ensures more[i].rel != c.rel && Recorded(tree', more[i]) && !AgreeAt(tree', start, more[i].rel)
    {
      assert Recorded(tree, applied[i]) && !AgreeAt(tree, start, applied[i].rel);
      assert AgreeAt(tree', tree, applied[i].rel);
    }
  }

  // ----- what a prepared change knows, and when it is done -----

  /** base separates the inode numbers handed out before this transaction from its own. */
  ghost predicate Prepared(start: map<Path, Node>, c: FileChange, base: nat) {
    && (c.existed <==> c.rel in start)
    && (c.existed ==> c.originalIno < base && start[c.rel] == File(c.originalIno, c.backup.content, c.backup.mode))
    && (c.skip ==> c.remove) && (c.remove ==> c.installed.None?)
  }

  /** The change has reached the disk, or there was nothing to do. */
  predicate DoneAt(tree: map<Path, Node>, c: FileChange, base: nat) {
    if c.skip || (c.remove && !c.existed) then true
    else if c.remove then c.rel !in tree
    else c.rel in tree && tree[c.rel].File? && tree[c.rel].ino >= base
         && tree[c.rel].content == c.source.content && tree[c.rel].mode == c.source.mode
  }

  predicate AllDone(tree: map<Path, Node>, changes: seq<FileChange>, base: nat) {
    forall i :: 0 <= i < |changes| ==> DoneAt(tree, changes[i], base)
  }

  ghost predicate Pruned(tree: map<Path, Node>, p: Path) {
    p in tree && tree[p].Dir? ==> HasChild(tree, p)
  }

  /** Files with inode numbers from before, and directories not created here, are as they were. */
  ghost predicate OldKept(tree: map<Path, Node>, start: map<Path, Node>, base: nat, created: seq<Path>) {
    && (forall p :: p in tree && tree[p].File? && tree[p].ino < base ==> p in start && start[p] == tree[p])
    && (forall p :: p in tree && tree[p].Dir? ==> p in created || (p in start && start[p] == tree[p]))
    && (forall p :: p in created ==> p !in start)
  }

  // ----- sorting stale directories, deepest first -----

  function InsertByDepth(p: Path, s: seq<Path>): (r: seq<Path>)
    ensures multiset(r) == multiset(s) + multiset{p}
  {
    if s == [] || |p| >= |s[0]| then [p] + s
    else
      assert s == [s[0]] + s[1..];
      [s[0]] + InsertByDepth(p, s[1..])
  }

  function DeepestFirst(s: seq<Path>): (r: seq<Path>)
    ensures multiset(r) == multiset(s)
  {
    if s == [] then []
    else
      assert s == [s[0]] + s[1..];
      InsertByDepth(s[0], DeepestFirst(s[1..]))
  }

  predicate ByDepth(s: seq<Path>) {
    forall i, j :: 0 <= i < j < |s| ==> |s[i]| >= |s[j]|
  }

  lemma {:induction false} InsertSorted(p: Path, s: seq<Path>)
    requires ByDepth(s)
    ensures ByDepth(InsertByDepth(p, s))
  {
    if s != [] && |p| < |s[0]| {
      InsertSorted(p, s[1..]);
      var rest := InsertByDepth(p, s[1..]);
      forall i | 0 <= i < |rest|
        ensures |rest[i]| <= |s[0]|
      {
        assert rest[i] in multiset(rest);
        assert rest[i] == p || rest[i] in s[1..];
      }
    }
  }

  lemma {:induction false} DeepestFirstSorted(s: seq<Path>)
    ensures ByDepth(DeepestFirst(s))
  {
    if s != [] {
      DeepestFirstSorted(s[1..]);
      InsertSorted(s[0], DeepestFirst(s[1..]));
    }
  }

  // ----- what a publication is asked to do -----

  predicate InFiles(m: Manifest, p: Path) {
    exists i :: 0 <= i < |m.files| && m.files[i].path == p
  }

  /** Validated manifests never own the manifest itself or the root, and the new one describes the staged entries. */
  ghost predicate Plan(entries: seq<Entry>, previous: Manifest, current: Manifest, temps: nat) {
    && (forall e :: e in entries ==> Known(e.rel, temps) && e.rel != MANIFEST)
    && (forall e :: e in entries && !e.dir ==> InFiles(current, e.rel))
    && (forall e :: e in entries && e.dir && e.rel != [] ==> e.rel in current.directories)
    && (forall f :: f in previous.files ==> Known(f.path, temps) && f.path != MANIFEST)
    && (forall d :: d in previous.directories ==> Known(d, temps) && d != MANIFEST && d != [])
  }

  /** Removals for the first n files of the old manifest, as far as they are eligible. */
  ghost predicate StaleOf(stale: seq<FileChange>, previous: Manifest, n: nat, current: Manifest,
                          start: map<Path, Node>, digest: Content -> Digest)
    requires n <= |previous.files|
  {
    && (forall i :: 0 <= i < |stale| ==> exists k :: 0 <= k < n && stale[i].rel == previous.files[k].path)
    && (ListedOnce(previous.files) ==> RelsApart(stale))
    && (forall i :: 0 <= i < |stale| ==>
          stale[i].remove && !stale[i].skip && !stale[i].existed && stale[i].installed.None? &&
          Owned(stale[i], previous, current, start, digest))
    && (forall k :: 0 <= k < n && Eligible(previous.files[k], current, start, digest) ==>
          exists i :: 0 <= i < |stale| && stale[i].rel == previous.files[k].path)
  }

  lemma NoStale(previous: Manifest, current: Manifest, start: map<Path, Node>, digest: Content -> Digest)
    ensures StaleOf([], previous, 0, current, start, digest)
  {
  }

  lemma StaleMore(stale: seq<FileChange>, previous: Manifest, n: nat, current: Manifest, start: map<Path, Node>,
                  digest: Content -> Digest)
    requires n < |previous.files| && StaleOf(stale, previous, n, current, start, digest)
    ensures var f := previous.files[n];
            if Eligible(f, current, start, digest) then
              StaleOf(stale + [NewChange(f.path, Staged("", 0), true, f.sha)], previous, n + 1, current, start, digest)
            else StaleOf(stale, previous, n + 1, current, start, digest)
  {
    hide InFiles;
    var f := previous.files[n];
    if Eligible(f, current, start, digest) {
      var more := stale + [NewChange(f.path, Staged("", 0), true, f.sha)];
      assert more[|stale|].rel == f.path && f in previous.files;
      assert forall i :: 0 <= i < |stale| ==> more[i] == stale[i];
      forall k | 0 <= k < n + 1 && Eligible(previous.files[k], current, start, digest)
        ensures exists i :: 0 <= i < |more| && more[i].rel == previous.files[k].path
      {
        if k < n {
          var i :| 0 <= i < |stale| && stale[i].rel == previous.files[k].path;
          assert more[i].rel == previous.files[k].path;
        }
      }
    }
  }

  lemma StaleRead(stale: seq<FileChange>, previous: Manifest, n: nat, current: Manifest, start: map<Path, Node>,
                  digest: Content -> Digest)
    requires n <= |previous.files| && StaleOf(stale, previous, n, current, start, digest)
    ensures forall i :: 0 <= i < |stale| ==>
              stale[i].remove && !stale[i].skip && !stale[i].existed && stale[i].installed.None? &&
              Owned(stale[i], previous, current, start, digest)
    ensures n == |previous.files| ==>
              forall f :: f in previous.files && Eligible(f, current, start, digest) ==>
                exists i :: 0 <= i < |stale| && stale[i].rel == f.path
    ensures ListedOnce(previous.files) ==> RelsApart(stale)
  {
    hide Eligible, Owned, RelsApart, ListedOnce;
  }

  /** A file the old manifest lists, the new one does not, and nobody changed since it was published. */
  predicate Eligible(f: ManifestFile, current: Manifest, start: map<Path, Node>, digest: Content -> Digest) {
    && !InFiles(current, f.path)
    && f.path in start && start[f.path].File? && digest(start[f.path].content) == f.sha
  }

  predicate Installed(tree: map<Path, Node>, rel: Path, source: Staged) {
    rel in tree && tree[rel].File? && tree[rel].content == source.content && tree[rel].mode == source.mode
  }

  /** Every staged file is in place and every eligible stale file is gone. */
  ghost predicate FilesDone(tree: map<Path, Node>, entries: seq<Entry>, previous: Manifest, current: Manifest,
                            start: map<Path, Node>, digest: Content -> Digest) {
    && (forall e :: e in entries && !e.dir ==> Installed(tree, e.rel, e.staged))
    && (forall f :: f in previous.files && Eligible(f, current, start, digest) ==> f.path !in tree)
  }

  /** A file of the start is missing or different only where one is staged or the old manifest justifies it. */
  ghost predicate GoneJustified(tree: map<Path, Node>, entries: seq<Entry>, previous: Manifest, current: Manifest,
                                start: map<Path, Node>, digest: Content -> Digest) {
    forall p :: p in start && start[p].File? && !AgreeAt(tree, start, p) ==>
      || p == MANIFEST
      || (exists e :: e in entries && !e.dir && e.rel == p)
      || (exists f :: f in previous.files && f.path == p && Eligible(f, current, start, digest))
  }

  /**
   What becomes of the files nothing is staged at: a file goes if the old manifest lists it with the digest it has and
   the new one does not list it, and any other stays as it was.
   */
  ghost predicate OthersDecided(tree: map<Path, Node>, entries: seq<Entry>, previous: Manifest, current: Manifest,
                                start: map<Path, Node>, digest: Content -> Digest) {
    forall p :: p in start && start[p].File? && p != MANIFEST && (forall e :: e in entries && !e.dir ==> e.rel != p) ==>
      if (exists f :: f in previous.files && f == ManifestFile(p, digest(start[p].content))) &&
         (forall f :: f in current.files ==> f.path != p)
      then p !in tree
      else p in tree && tree[p] == start[p]
  }

  lemma DoneDecides(tree: map<Path, Node>, entries: seq<Entry>, previous: Manifest, current: Manifest,
                    start: map<Path, Node>, digest: Content -> Digest)
    requires FilesDone(tree, entries, previous, current, start, digest)
    requires GoneJustified(tree, entries, previous, current, start, digest)
    ensures OthersDecided(tree, entries, previous, current, start, digest)
  {
    forall p | p in start && start[p].File? && p != MANIFEST && forall e :: e in entries && !e.dir ==> e.rel != p
      ensures if (exists f :: f in previous.files && f == ManifestFile(p, digest(start[p].content))) &&
                 (forall f :: f in current.files ==> f.path != p)
              then p !in tree
              else p in tree && tree[p] == start[p]
    {
      if !AgreeAt(tree, start, p) {
        var f :| f in previous.files && f.path == p && Eligible(f, current, start, digest);
        assert f == ManifestFile(p, digest(start[p].content));
      }
    }
  }

  /** A removal that the old manifest justifies. */
  ghost predicate Owned(c: FileChange, previous: Manifest, current: Manifest, start: map<Path, Node>,
                        digest: Content -> Digest) {
    c.remove ==> exists f ::
      f in previous.files && f.path == c.rel && f.sha == c.expected &&
      Eligible(f, current, start, digest)
  }

  /** A file from the start is missing only if a removal took it. */
  ghost predicate OnlyRemoved(tree: map<Path, Node>, start: map<Path, Node>, changes: seq<FileChange>) {
    forall p :: p in start && start[p].File? && p !in tree ==> exists i ::
      0 <= i < |changes| && changes[i].remove &&
      changes[i].rel == p
  }

  // ----- what lets a publication go through -----

  /** The path's directory is there or among the staged ones. */
  predicate HasHome(entries: seq<Entry>, start: map<Path, Node>, p: Path) {
    IsDir(start, Parent(p)) || exists e :: e in entries && e.dir && e.rel != [] && e.rel == Parent(p)
  }

  /** Staged files differ from one another and from staged directories, have a home, and replace files only. */
  predicate FilesFit(entries: seq<Entry>, start: map<Path, Node>) {
    && (forall e :: e in entries && !e.dir ==> FileOrFree(start, e.rel) && HasHome(entries, start, e.rel))
    && (forall e, d :: e in entries && d in entries && !e.dir && d.dir ==> e.rel != d.rel)
    && FilesApart(entries)
  }

  predicate FilesApart(entries: seq<Entry>) {
    forall i, k :: 0 <= i < k < |entries| && !entries[i].dir && !entries[k].dir ==> entries[i].rel != entries[k].rel
  }

  /** A staged directory is there already, or can be made in one that is there or staged before it. */
  predicate DirsFit(entries: seq<Entry>, start: map<Path, Node>) {
    forall k :: 0 <= k < |entries| && entries[k].dir && entries[k].rel != [] ==>
      if entries[k].rel in start then IsDir(start, entries[k].rel) else HasHome(entries[..k], start, entries[k].rel)
  }

  predicate ListedOnce(files: seq<ManifestFile>) {
    forall i, k :: 0 <= i < k < |files| ==> files[i].path != files[k].path
  }

  /** Nothing in the tree stands in the way of what is to be published. */
  predicate Fits(entries: seq<Entry>, previous: Manifest, start: map<Path, Node>) {
    && IsDir(start, []) && FileOrFree(start, MANIFEST) && FilesFit(entries, start) && DirsFit(entries, start)
    && ListedOnce(previous.files)
  }

  predicate RelsApart(changes: seq<FileChange>) {
    forall i, k :: 0 <= i < k < |changes| ==> changes[i].rel != changes[k].rel
  }

  /** Every path is still as it was at the start, and every new file has a directory to go to. */
  ghost predicate Applicable(tree: map<Path, Node>, start: map<Path, Node>, changes: seq<FileChange>, n: nat) {
    forall i :: n <= i < |changes| ==>
      AgreeAt(tree, start, changes[i].rel) && (!changes[i].remove ==> IsDir(tree, Parent(changes[i].rel)))
  }

  function NewChange(rel: Path, source: Staged, remove: bool, expected: Digest): FileChange {
    FileChange(rel, source, remove, expected, false, 0, Staged("", 0), false, None)
  }

  /** What the transaction knows of each of its file changes. */
  ghost predicate Sound(c: FileChange, start: map<Path, Node>, base: nat, temps: nat, previous: Manifest,
                        current: Manifest, digest: Content -> Digest) {
    && Prepared(start, c, base) && Known(c.rel, temps) && c.rel != MANIFEST
    && Owned(c, previous, current, start, digest)
    && (c.skip ==> c.rel in start && start[c.rel].File? && digest(start[c.rel].content) != c.expected)
  }

  ghost predicate AllSound(changes: seq<FileChange>, start: map<Path, Node>, base: nat, temps: nat, previous: Manifest,
                           current: Manifest, digest: Content -> Digest) {
    forall i :: 0 <= i < |changes| ==> Sound(changes[i], start, base, temps, previous, current, digest)
  }

  /** Every staged file has an installing change and every eligible stale file a removing one. */
  ghost predicate Covers(changes: seq<FileChange>, entries: seq<Entry>, previous: Manifest, current: Manifest,
                         start: map<Path, Node>, digest: Content -> Digest) {
    && (forall e :: e in entries && !e.dir ==>
          exists i ::
          0 <= i < |changes| && !changes[i].remove && changes[i].rel == e.rel &&
          changes[i].source == e.staged)
    && (forall f :: f in previous.files && Eligible(f, current, start, digest) ==>
          exists i :: 0 <= i < |changes| && changes[i].remove && changes[i].rel == f.path)
  }

  lemma CoveredAndDone(tree: map<Path, Node>, changes: seq<FileChange>, entries: seq<Entry>, previous: Manifest,
                       current: Manifest, start: map<Path, Node>, base: nat, temps: nat, digest: Content -> Digest)
    requires AllSound(changes, start, base, temps, previous, current, digest)
    requires Covers(changes, entries, previous, current, start, digest) && AllDone(tree, changes, base)
    ensures FilesDone(tree, entries, previous, current, start, digest)
  {
    hide Known;
    forall e | e in entries && !e.dir
      ensures Installed(tree, e.rel, e.staged)
    {
      var i :| 0 <= i < |changes| && !changes[i].remove && changes[i].rel == e.rel && changes[i].source == e.staged;
      assert Sound(changes[i], start, base, temps, previous, current, digest) && DoneAt(tree, changes[i], base);
    }
    forall f | f in previous.files && Eligible(f, current, start, digest)
      ensures f.path !in tree
    {
      var i :| 0 <= i < |changes| && changes[i].remove && changes[i].rel == f.path;
      assert Sound(changes[i], start, base, temps, previous, current, digest) && DoneAt(tree, changes[i], base);
    }
  }

  ghost predicate NothingButManifest(entries: seq<Entry>, previous: Manifest) {
    entries == [] && previous.files == [] && previous.directories == []
  }

  /** Only a new manifest is to be published, from call k on, and its temporary file cannot be prepared. */
  ghost predicate CannotPrepare(entries: seq<Entry>, previous: Manifest, start: map<Path, Node>, f: nat -> bool,
                                k: nat) {
    && NothingButManifest(entries, previous) && MANIFEST !in start && IsDir(start, Parent(MANIFEST))
    && !f(k) && !f(k + 1) && !f(k + 2) && !PrepareRun(f, k + 3, true).ok
  }

  // ----- the transaction -----

  class Transaction {
    const fs: FileSystem
    const digest: Content -> Digest
    var changes: seq<FileChange>
    var appliedChanges: seq<FileChange>
    var createdDirs: seq<Path>
    var removedDirs: seq<RemovedDir>
    var visibleMutation: bool
    ghost const start: map<Path, Node>
    ghost const base: nat
    ghost const temps0: nat
    ghost var leak: set<Path>
    ghost var failed: Option<Try>

    ghost function Log(): Journal
      reads this
    {
      Journal(createdDirs, appliedChanges, removedDirs)
    }

    /** A temporary file is left exactly when the failed installation leaves one. */
    ghost predicate LeakExplained()
      reads this
    {
      && (leak != {} <==> failed.Some? && InstallRun(fs.faults, failed.value).left)
      && (failed.Some? ==> !InstallRun(fs.faults, failed.value).ok)
    }

    /** At every point, failed or not, undoing the recorded steps gives back the tree as it was, leaked files aside. */
    ghost predicate Valid()
      reads this, fs
    {
      && fs.Valid() && base <= fs.nextIno && temps0 <= fs.temps
      && Recoverable(fs.tree, leak, start, temps0, Log())
      && LeakExplained() && Orderly(fs.tree, start, Log())
      && (failed.None? ==> OldKept(fs.tree, start, base, createdDirs) && Standing(fs.tree, start, appliedChanges))
      && (!visibleMutation ==> removedDirs == [] && appliedChanges == [] && createdDirs == [])
    }

    /** Before any failed installation: nothing has leaked, and a file with an inode number from before is untouched. */
    ghost predicate Live()
      reads this, fs
    {
      Valid() && failed.None? && leak == {} && OldKept(fs.tree, start, base, createdDirs)
    }

    constructor (fs: FileSystem, digest: Content -> Digest)
      requires fs.Valid()
      ensures Live() && this.fs == fs && this.digest == digest && start == fs.tree && base == fs.nextIno
      ensures temps0 == fs.temps
      ensures changes == [] && appliedChanges == [] && createdDirs == [] && removedDirs == [] && !visibleMutation
    {
      this.fs, this.digest, start, base, temps0, leak, failed := fs, digest, fs.tree, fs.nextIno, fs.temps, {}, None;
      changes, appliedChanges, createdDirs, removedDirs, visibleMutation := [], [], [], [], false;
    }

    method EnsureDirectory(rel: Path, mode: nat, ghost m: Mark) returns (ok: bool)
      requires Live() && appliedChanges == [] && removedDirs == [] && Known(rel, temps0) && start.Keys <= fs.tree.Keys
      requires Since(fs, m) && (rel in start || MayChange(m, rel))
      modifies this`createdDirs, this`visibleMutation, fs
      ensures Live() && Since(fs, m)
      ensures fs.tree == old(fs.tree) || (rel !in old(fs.tree) && fs.tree == old(fs.tree)[rel := Dir(mode)])
      ensures ok ==> rel in fs.tree && fs.tree[rel].Dir?
      ensures createdDirs == old(createdDirs) || createdDirs == old(createdDirs) + [rel]
      ensures fs.clock >= old(fs.clock)
      ensures Quiet(fs.faults, old(fs.clock)) ==> IsDir(old(fs.tree), rel) ==> ok
      ensures Quiet(fs.faults, old(fs.clock)) ==>
              rel !in old(fs.tree) && rel != [] && IsDir(old(fs.tree), Parent(rel)) ==> ok
    {
      hide Known, Recoverable, OldKept, SinceMark, OnlyAt, MayChange, Orderly, Standing, Rooted;
      var stat := fs.Lstat(rel);
      match stat
      case Failed => return false;
      case Found(node) => return node.Dir?;
      case Missing =>
        var allowed := fs.Call();
        if !allowed {
          return false;
        }
        RecordMkdir(fs.tree, start, temps0, Log(), rel, mode);
        SinceStep(fs.log, fs.tree, fs.temps, m, fs.tree[rel := Dir(mode)], rel);
        KnownGrows(rel, temps0, fs.temps);
        NothingStanding(fs.tree[rel := Dir(mode)], start);
        if rel != [] && IsDir(fs.tree, Parent(rel)) {
          OrderlyMkdir(fs.tree, start, Log(), rel, mode);
        }
        var made := fs.Mkdir(rel, mode);
        if made != Done {
          return false;
        }
        createdDirs := createdDirs + [rel];
        visibleMutation := true;
        return true;
    }

    /** Removals for the files the old manifest owns and the new one drops, if nobody changed them. */
    method StaleFileChanges(previous: Manifest, current: Manifest) returns (ok: bool, stale: seq<FileChange>)
      requires Live() && fs.tree == start
      modifies fs`clock
      ensures Live()
      ensures forall i :: 0 <= i < |stale| ==>
                stale[i].remove && !stale[i].skip && !stale[i].existed && stale[i].installed.None? &&
                Owned(stale[i], previous, current, start, digest)
      ensures ok ==> forall f :: f in previous.files && Eligible(f, current, start, digest) ==>
                exists i :: 0 <= i < |stale| && stale[i].rel == f.path
      ensures previous.files == [] ==> ok && stale == [] && fs.clock == old(fs.clock)
      ensures fs.clock >= old(fs.clock) && (Quiet(fs.faults, old(fs.clock)) ==> ok)
      ensures ListedOnce(previous.files) ==> RelsApart(stale)
    {
      hide Recoverable, OldKept, Orderly, Standing, Rooted, StaleOf, Known;
      stale := [];
      NoStale(previous, current, start, digest);
      for n := 0 to |previous.files|
        invariant Live() && (n == 0 ==> stale == [] && fs.clock == old(fs.clock)) && fs.clock >= old(fs.clock)
        invariant StaleOf(stale, previous, n, current, start, digest)
      {
        StaleMore(stale, previous, n, current, start, digest);
        var f := previous.files[n];
        if InFiles(current, f.path) {
          continue;
        }
        var stat := fs.Lstat(f.path);
        if stat.Failed? {
          StaleRead(stale, previous, n, current, start, digest);
          return false, stale;
        }
        if stat.Missing? || !stat.node.File? {
          continue;
        }
        var read := fs.Call();
        if !read {
          StaleRead(stale, previous, n, current, start, digest);
          return false, stale;
        }
        if digest(stat.node.content) != f.sha {
          continue;
        }
        stale := stale + [NewChange(f.path, Staged("", 0), true, f.sha)];
      }
      StaleRead(stale, previous, |previous.files|, current, start, digest);
      return true, stale;
    }

    /** Records what each path held before anything is changed. */
    method PrepareBackups(planned: seq<FileChange>) returns (ok: bool, prepared: seq<FileChange>)
      requires Live() && fs.tree == start && fs.nextIno == base
      requires forall i :: 0 <= i < |planned| ==> !planned[i].existed && !planned[i].skip && planned[i].installed.None?
      modifies fs`clock
      ensures Live()
      ensures ok ==> |prepared| == |planned|
      ensures ok ==> forall i :: 0 <= i < |planned| ==>
              Prepared(start, prepared[i], base) &&
              SamePlan(planned[i], prepared[i], start, digest)
      ensures |planned| == 1 && planned[0].rel !in start && !fs.faults(old(fs.clock)) ==>
              ok && prepared == planned && fs.clock == old(fs.clock) + 1
      ensures fs.clock >= old(fs.clock)
      ensures Quiet(fs.faults, old(fs.clock)) && (forall i :: 0 <= i < |planned| ==>
                                                  FileOrFree(start, planned[i].rel)) ==>
              ok
    {
      hide Recoverable, OldKept, Orderly, Standing, Rooted;
      prepared := [];
      for n := 0 to |planned|
        invariant Live() && |prepared| == n && fs.clock >= old(fs.clock)
        invariant n == 0 ==> fs.clock == old(fs.clock)
        invariant n == 1 && planned[0].rel !in start && !fs.faults(old(fs.clock)) ==>
                  prepared == [planned[0]] && fs.clock == old(fs.clock) + 1
        invariant forall i :: 0 <= i < n ==>
                  Prepared(start, prepared[i], base) &&
                  SamePlan(planned[i], prepared[i], start, digest)
      {
        var c := planned[n];
        var stat := fs.Lstat(c.rel);
        if stat.Failed? {
          return false, prepared;
        }
        if stat.Found? {
          if !stat.node.File? {
            return false, prepared;
          }
          var copied := BackUp();
          if !copied {
            return false, prepared;
          }
          c := c.(existed := true, originalIno := stat.node.ino, backup := Staged(stat.node.content, stat.node.mode),
                  skip := c.remove && digest(stat.node.content) != c.expected);
        }
        prepared := prepared + [c];
      }
      return true, prepared;
    }

    /** The calls that copy one file outside the tree: create the directory and the file, copy, and read it back. */
    method BackUp() returns (ok: bool)
      requires Live()
      modifies fs`clock
      ensures Live() && fs.clock >= old(fs.clock) && (Quiet(fs.faults, old(fs.clock)) ==> ok)
    {
      hide Recoverable, OldKept, Orderly, Standing, Rooted;
      for n := 0 to 4
        invariant Live() && fs.clock >= old(fs.clock)
      {
        ok := fs.Call();
        if !ok {
          return;
        }
      }
      return true;
    }

    /** The path must still be what it was when it was backed up. */
    method VerifyState(c: FileChange) returns (ok: bool)
      requires Live() && Prepared(start, c, base)
      modifies fs`clock
      ensures Live()
      ensures ok ==> AgreeAt(fs.tree, start, c.rel)
      ensures fs.clock == old(fs.clock) + 1
      ensures !c.existed && !fs.faults(old(fs.clock)) ==> (ok <==> c.rel !in fs.tree)
      ensures !fs.faults(old(fs.clock)) && AgreeAt(fs.tree, start, c.rel) ==> ok
    {
      hide Known, Recoverable, Orderly, Standing, Rooted;
      var stat := fs.Lstat(c.rel);
      match stat
      case Failed => return false;
      case Missing => return !c.existed;
      case Found(node) => return c.existed && node.File? && node.ino == c.originalIno;
    }

    /** Installs or removes one file. A failure may leave it half done, but always undoable. */
    method ApplyChange(c: FileChange, ghost m: Mark) returns (ok: bool, c': FileChange)
      requires Live() && Prepared(start, c, base) && Known(c.rel, temps0) && Since(fs, m) && MayChange(m, c.rel)
      modifies this`appliedChanges, this`visibleMutation, this`leak, this`failed, fs
      ensures Valid() && Since(fs, m)
      ensures c' == c.(skip := c'.skip, installed := c'.installed)
      ensures ok ==> Live() && Prepared(start, c', base) && DoneAt(fs.tree, c', base)
      ensures ok ==> OnlyAt(fs.tree, old(fs.tree), {c.rel})
      ensures ok ==> fs.tree == old(fs.tree) || AgreeAt(old(fs.tree), start, c.rel)
      ensures ok && c.rel in old(fs.tree) && c.rel !in fs.tree ==> c'.remove && !c'.skip
      ensures ok ==> DirsKept(fs.tree, old(fs.tree))
      ensures c.skip ==> c'.skip
      ensures c'.skip && !c.skip ==> c.rel in start && start[c.rel].File? && digest(start[c.rel].content) != c.expected
      ensures !c.remove && !c.existed && !c.skip && c.rel !in old(fs.tree)
              && !fs.faults(old(fs.clock)) && !fs.faults(old(fs.clock) + 1) ==>
              var t := Try(old(fs.clock) + 2, IsDir(old(fs.tree), Parent(c.rel)), false, false);
              && failed == (if ok then None else Some(t)) && ok == InstallRun(fs.faults, t).ok
              && (!PrepareRun(fs.faults, t.clock, t.dir).ok ==> appliedChanges == old(appliedChanges))
      ensures fs.clock >= old(fs.clock)
      ensures Quiet(fs.faults, old(fs.clock)) && AgreeAt(old(fs.tree), start, c.rel) ==>
              (!c.remove ==> IsDir(old(fs.tree), Parent(c.rel))) ==> ok
    {
      hide Known, Recoverable, OldKept, SinceMark, InstallRun, PrepareRun, Orderly, Standing, Rooted;
      ghost var before := fs.tree;
      c' := c;
      if c.skip || (c.remove && !c.existed) {
        return true, c;
      }
      ok := fs.Call();
      if !ok {
        return;
      }
      ok := VerifyState(c);
      if !ok {
        return;
      }
      if c.remove {
        ok, c' := ApplyRemoval(c, m);
      } else {
        ok, c' := ApplyInstall(c, m);
      }
      if ok {
        DirsKeptAt(fs.tree, before, start, c, base);
      }
    }

    method ApplyRemoval(c: FileChange, ghost m: Mark) returns (ok: bool, c': FileChange)
      requires Live() && Prepared(start, c, base) && Known(c.rel, temps0) && Since(fs, m) && MayChange(m, c.rel)
      requires c.remove && c.existed && !c.skip && AgreeAt(fs.tree, start, c.rel)
      modifies this`appliedChanges, this`visibleMutation, fs
      ensures Live() && Since(fs, m)
      ensures c' == c.(skip := c'.skip)
      ensures ok ==> DoneAt(fs.tree, c', base)
      ensures OnlyAt(fs.tree, old(fs.tree), {c.rel})
      ensures c.rel !in fs.tree ==> !c'.skip
      ensures c'.skip ==> digest(start[c.rel].content) != c.expected
      ensures fs.clock >= old(fs.clock) && (Quiet(fs.faults, old(fs.clock)) ==> ok)
    {
      hide Known, Recoverable, OldKept, SinceMark, OnlyAt, Orderly, Standing, Rooted;
      OnlyAtSelf(fs.tree, c.rel);
      c' := c;
      ok := fs.Call();
      if !ok {
        return;
      }
      if digest(fs.tree[c.rel].content) != c.expected {
        c' := c.(skip := true);
        return;
      }
      OldKeptRemoval(fs.tree, start, base, createdDirs, c.rel);
      assert {c.rel} + {} == {c.rel};
      RecordFile(fs.tree, fs.tree - {c.rel}, {}, start, temps0, Log(), c);
      RemovedGone(fs.tree, {}, start, temps0, Log());
      OrderlyFile(fs.tree, fs.tree - {c.rel}, {}, start, Log(), c);
      StandingFile(fs.tree, fs.tree - {c.rel}, start, appliedChanges, c);
      SinceStep(fs.log, fs.tree, fs.temps, m, fs.tree - {c.rel}, c.rel);
      var removed := fs.Remove(c.rel);
      if removed != Done {
        return false, c;
      }
      appliedChanges := appliedChanges + [c];
      visibleMutation := true;
    }

    method ApplyInstall(c: FileChange, ghost m: Mark) returns (ok: bool, c': FileChange)
      requires Live() && Prepared(start, c, base) && Known(c.rel, temps0) && Since(fs, m) && MayChange(m, c.rel)
      requires !c.remove && AgreeAt(fs.tree, start, c.rel)
      modifies this`appliedChanges, this`visibleMutation, this`leak, this`failed, fs
      ensures Valid() && Since(fs, m)
      ensures c' == c.(installed := c'.installed)
      ensures ok ==> Live() && DoneAt(fs.tree, c', base) && OnlyAt(fs.tree, old(fs.tree), {c.rel})
      ensures var t := Try(old(fs.clock), IsDir(old(fs.tree), Parent(c.rel)), c.existed, c.existed);
              && failed == (if ok then None else Some(t)) && ok == InstallRun(fs.faults, t).ok
              && (!PrepareRun(fs.faults, t.clock, t.dir).ok ==> appliedChanges == old(appliedChanges))
      ensures fs.clock >= old(fs.clock)
      ensures Quiet(fs.faults, old(fs.clock)) && IsDir(old(fs.tree), Parent(c.rel)) ==> ok
    {
      hide Recoverable, OldKept, SinceMark, InstallRun, PrepareRun, Orderly, Standing, Rooted;
      ghost var tree, j := fs.tree, Log();
      ghost var t := Try(fs.clock, IsDir(fs.tree, Parent(c.rel)), c.existed, c.existed);
      KnownGrows(c.rel, temps0, fs.temps);
      var applied, installed, done;
      ghost var leaked;
      QuietInstalls(fs.faults, t);
      applied, installed, done, leaked := InstallFile(fs, c.source, c.rel, c.existed, m);
      ok, c' := done, c.(installed := installed);
      leak, failed := leaked, if ok then None else Some(t);
      FreshLeak(leak, temps0, old(fs.temps), tree);
      if applied {
        RecordFile(tree, fs.tree, leak, start, temps0, j, c');
        RemovedGone(tree, {}, start, temps0, j);
        OrderlyFile(tree, fs.tree, leak, start, j, c');
        appliedChanges := appliedChanges + [c'];
        visibleMutation := true;
        if ok {
          assert {c.rel} + {} == {c.rel};
          InstallStands(tree, fs.tree, start, j.applied, c', base);
          OldKeptInstall(tree, fs.tree, start, base, createdDirs, c.rel);
        }
      } else {
        RecordLeak(tree, fs.tree, leak, start, temps0, j);
        OrderlyLeak(tree, fs.tree, leak, start, j);
      }
    }

    /** The directories only the previous manifest lists, deepest first. */
    method StaleDirectories(previous: Manifest, current: Manifest) returns (sorted: seq<Path>)
      ensures ByDepth(sorted)
      ensures forall d :: d in sorted <==> d in previous.directories && d !in current.directories
    {
      var stale: seq<Path> := [];
      for n := 0 to |previous.directories|
        invariant forall d :: d in stale <==> d in previous.directories[..n] && d !in current.directories
      {
        assert previous.directories[..n + 1] == previous.directories[..n] + [previous.directories[n]];
        if previous.directories[n] !in current.directories {
          stale := stale + [previous.directories[n]];
        }
      }
      assert previous.directories[..|previous.directories|] == previous.directories;
      sorted := DeepestFirst(stale);
      DeepestFirstSorted(stale);
      assert forall d :: d in sorted <==> d in multiset(sorted);
    }

    /** Removes the stale directories that have become empty, deepest first. */
    method RemoveStaleDirectories(previous: Manifest, current: Manifest, ghost m: Mark) returns (ok: bool)
      requires Live() && Since(fs, m)
      requires forall d :: d in previous.directories ==>
                 d != [] && (IsFile(start, d) || MayChange(m, d)) && Known(d, temps0)
      requires forall d :: d in createdDirs ==> d in current.directories
      modifies this`removedDirs, this`visibleMutation, fs
      ensures Live() && Since(fs, m)
      ensures FilesKept(fs.tree, old(fs.tree))
      ensures forall p :: p in fs.tree ==> AgreeAt(fs.tree, old(fs.tree), p)
      ensures forall p :: p in old(fs.tree) && p !in fs.tree ==> p !in current.directories && p in previous.directories
      ensures ok ==> forall d :: d in previous.directories && d !in current.directories ==> Pruned(fs.tree, d)
      ensures fs.clock >= old(fs.clock) && (Quiet(fs.faults, old(fs.clock)) ==> ok)
      ensures previous.directories == [] ==>
              ok && fs.clock == old(fs.clock) && fs.tree == old(fs.tree) && removedDirs == old(removedDirs)
    {
      hide Known, Recoverable, OldKept, SinceMark, AgreeOff, MayChange, FilesKept, Orderly, Standing, Rooted;
      var sorted := StaleDirectories(previous, current);
      assert sorted != [] ==> sorted[0] in previous.directories;
      FilesKeptSelf(fs.tree);
      for n := 0 to |sorted|
        invariant Live() && Since(fs, m) && createdDirs == old(createdDirs) && fs.clock >= old(fs.clock)
        invariant n == 0 ==> fs.clock == old(fs.clock) && fs.tree == old(fs.tree) && removedDirs == old(removedDirs)
        invariant FilesKept(fs.tree, old(fs.tree))
        invariant forall p :: p in fs.tree ==> AgreeAt(fs.tree, old(fs.tree), p)
        invariant forall p :: p in old(fs.tree) && p !in fs.tree ==> p in sorted
        invariant forall k :: 0 <= k < n ==> Pruned(fs.tree, sorted[k])
      {
        var rel := sorted[n];
        ghost var before := fs.tree;
        ok := RemoveIfEmpty(rel, m);
        FilesKeptTrans(fs.tree, before, old(fs.tree));
        if !ok {
          return;
        }
        forall k | 0 <= k < n
          ensures Pruned(fs.tree, sorted[k])
        {
          PrunedKept(before, fs.tree, sorted[k], rel);
        }
      }
      return true;
    }

    /** One stale directory: removed when it is an empty directory, otherwise left alone. */
    method RemoveIfEmpty(rel: Path, ghost m: Mark) returns (ok: bool)
      requires Live() && Since(fs, m) && (IsFile(start, rel) || MayChange(m, rel)) && rel !in createdDirs && rel != []
      modifies this`removedDirs, this`visibleMutation, fs
      ensures Live() && Since(fs, m)
      ensures fs.tree == old(fs.tree) || (rel in old(fs.tree) && old(fs.tree)[rel].Dir? &&
                                          fs.tree == old(fs.tree) - {rel})
      ensures FilesKept(fs.tree, old(fs.tree))
      ensures ok ==> Pruned(fs.tree, rel)
      ensures fs.clock >= old(fs.clock) && (Quiet(fs.faults, old(fs.clock)) ==> ok)
    {
      hide Known, Recoverable, SinceMark, AgreeOff, MayChange, OldKept, FilesKept, HasChild, Orderly, Standing, Rooted;
      FilesKeptSelf(fs.tree);
      var stat := fs.Lstat(rel);
      if stat.Failed? {
        return false;
      }
      if stat.Missing? || !stat.node.Dir? {
        return true;
      }
      var read := fs.Call();
      if !read {
        return false;
      }
      if HasChild(fs.tree, rel) {
        return true;
      }
      OldDirectory(fs.tree, start, base, createdDirs, rel);
      ok := RemoveEmpty(rel, stat.node.perm, m);
    }

    method RemoveEmpty(rel: Path, mode: nat, ghost m: Mark) returns (ok: bool)
      requires Live() && Since(fs, m) && MayChange(m, rel) && rel !in createdDirs && rel != []
      requires rel in fs.tree && fs.tree[rel] == Dir(mode) && !HasChild(fs.tree, rel)
      modifies this`removedDirs, this`visibleMutation, fs
      ensures Live() && Since(fs, m)
      ensures fs.tree == if ok then old(fs.tree) - {rel} else old(fs.tree)
      ensures fs.clock >= old(fs.clock) && (Quiet(fs.faults, old(fs.clock)) ==> ok)
      ensures FilesKept(fs.tree, old(fs.tree))
    {
      hide Known, Recoverable, SinceMark, AgreeOff, MayChange, OldKept, FilesKept, OnlyAt, HasChild, Orderly, Standing,
        Rooted;
      FilesKeptSelf(fs.tree);
      OldDirectory(fs.tree, start, base, createdDirs, rel);
      RecordRmdir(fs.tree, start, temps0, Log(), rel);
      OrderlyRmdir(fs.tree, start, Log(), rel);
      StandingRmdir(fs.tree, start, appliedChanges, rel);
      SinceStep(fs.log, fs.tree, fs.temps, m, fs.tree - {rel}, rel);
      ok := fs.Call();
      if !ok {
        return;
      }
      var again := fs.Lstat(rel);
      if !again.Found? {
        return false;
      }
      var removed := fs.Remove(rel);
      if removed == Done {
        removedDirs := removedDirs + [RemovedDir(rel, mode)];
        visibleMutation := true;
        return true;
      }
      // A concurrent creator would win here; without one the directory is still empty and this is a failure.
      var statAgain := fs.Lstat(rel);
      if statAgain.Found? {
        var _ := fs.Call();
      }
      return false;
    }

    /** Runs every file change in order. */
    method ApplyChanges(previous: Manifest, current: Manifest, ghost m: Mark) returns (ok: bool)
      requires Live() && Since(fs, m) && AllSound(changes, start, base, temps0, previous, current, digest)
      requires forall i :: 0 <= i < |changes| ==> MayChange(m, changes[i].rel)
      requires OnlyRemoved(fs.tree, start, changes)
      modifies this`changes, this`appliedChanges, this`visibleMutation, this`leak, this`failed, fs
      ensures Valid() && Since(fs, m)
      ensures ok ==>
              Live() && AllSound(changes, start, base, temps0, previous, current, digest) &&
              AllDone(fs.tree, changes, base)
      ensures ok ==>
              SameWork(changes, old(changes)) && OnlyRemoved(fs.tree, start, changes) &&
              DirsKept(fs.tree, old(fs.tree))
      ensures old(changes) == [] ==>
              ok && fs.clock == old(fs.clock) && fs.tree == old(fs.tree) && appliedChanges == old(appliedChanges)
      ensures fs.clock >= old(fs.clock)
      ensures Quiet(fs.faults, old(fs.clock)) ==>
              RelsApart(old(changes)) && Applicable(old(fs.tree), start, old(changes), 0) ==> ok
    {
      hide Known, Recoverable, OldKept, SinceMark, Owned, MayChange, OnlyAt, OnlyRemoved, DirsKept, DoneAt, Prepared,
        RelsApart, Applicable, Orderly, Standing, Rooted, AllSound, LeakExplained;
      ghost var going := RelsApart(changes) && Applicable(fs.tree, start, changes, 0);
      DirsKeptSelf(fs.tree);
      for n := 0 to |changes|
        invariant Live() && Since(fs, m) && AllSound(changes, start, base, temps0, previous, current, digest)
        invariant SameWork(changes, old(changes))
        invariant n == 0 ==>
                  fs.clock == old(fs.clock) && fs.tree == old(fs.tree) &&
                  appliedChanges == old(appliedChanges)
        invariant AllDone(fs.tree, changes[..n], base)
        invariant OnlyRemoved(fs.tree, start, changes) && DirsKept(fs.tree, old(fs.tree))
        invariant fs.clock >= old(fs.clock) && (going ==> RelsApart(changes) && Applicable(fs.tree, start, changes, n))
      {
        ghost var before, was := fs.tree, changes;
        ok := ApplyNext(n, previous, current, m);
        if !ok {
          return;
        }
        DirsKeptTrans(fs.tree, before, old(fs.tree));
        SameWorkTrans(changes, was, old(changes));
      }
      assert changes[..|changes|] == changes;
      return true;
    }

    method ApplyNext(n: nat, previous: Manifest, current: Manifest, ghost m: Mark) returns (ok: bool)
      requires Live() && Since(fs, m) && AllSound(changes, start, base, temps0, previous, current, digest)
      requires n < |changes| && MayChange(m, changes[n].rel) && AllDone(fs.tree, changes[..n], base)
      requires OnlyRemoved(fs.tree, start, changes)
      modifies this`changes, this`appliedChanges, this`visibleMutation, this`leak, this`failed, fs
      ensures Valid() && Since(fs, m) && fs.clock >= old(fs.clock)
      ensures ok ==> Live() && AllSound(changes, start, base, temps0, previous, current, digest)
      ensures ok ==> SameWork(changes, old(changes)) && AllDone(fs.tree, changes[..n + 1], base)
      ensures ok ==> OnlyRemoved(fs.tree, start, changes) && DirsKept(fs.tree, old(fs.tree))
      ensures RelsApart(old(changes)) && Applicable(old(fs.tree), start, old(changes), n) ==>
              && (Quiet(fs.faults, old(fs.clock)) ==> ok)
              && (ok ==> RelsApart(changes) && Applicable(fs.tree, start, changes, n + 1))
    {
      hide Known, Recoverable, OldKept, SinceMark, Owned, MayChange, OnlyAt, OnlyRemoved, DirsKept, DoneAt, Prepared,
        RelsApart, Applicable, Orderly, Standing, Rooted, AllSound, AllDone, InstallRun, PrepareRun, Quiet, AgreeAt,
        SameWork;
      ghost var before, was := fs.tree, changes;
      SoundAt(changes, start, base, temps0, previous, current, digest, n);
      ApplicableNow(before, start, changes, n);
      var c;
      ok, c := ApplyChange(changes[n], m);
      if !ok {
        return;
      }
      AfterChange(before, fs.tree, start, was, n, c, base, temps0, previous, current, digest);
      ApplicableLater(before, fs.tree, start, was, n, c);
      SameWorkAt(was, n, c);
      changes := changes[n := c];
      assert changes[..n + 1] == was[..n] + [c];
    }

    method CreateDirectories(entries: seq<Entry>, current: Manifest, ghost m: Mark) returns (ok: bool)
      requires Live() && Since(fs, m) && appliedChanges == [] && removedDirs == [] && createdDirs == []
      requires fs.tree == start
      requires forall e :: e in entries ==> Known(e.rel, temps0) && (e.rel in start || MayChange(m, e.rel))
      requires forall e :: e in entries && e.dir && e.rel != [] ==> e.rel in current.directories
      modifies this`createdDirs, this`visibleMutation, fs
      ensures Live() && Since(fs, m) && start.Keys <= fs.tree.Keys
      ensures forall d :: d in createdDirs ==> d in current.directories
      ensures ok ==> DirsThere(fs.tree, start, entries)
      ensures entries == [] ==>
              ok && fs.clock == old(fs.clock) && fs.tree == old(fs.tree) &&
              createdDirs == old(createdDirs)
      ensures fs.clock >= old(fs.clock) && (Quiet(fs.faults, old(fs.clock)) && DirsFit(entries, start) ==> ok)
      ensures GrownBy(fs.tree, start, entries)
    {
      hide Known, Recoverable, OldKept, SinceMark, MayChange, OnlyAt, Orderly, Standing, Rooted, GrownBy, DirsThere;
      assert entries[..0] == [];
      GrownSelf(start, []);
      for n := 0 to |entries|
        invariant n == 0 ==> fs.clock == old(fs.clock) && fs.tree == old(fs.tree) && createdDirs == old(createdDirs)
        invariant Live() && Since(fs, m) && start.Keys <= fs.tree.Keys
        invariant fs.clock >= old(fs.clock) && GrownBy(fs.tree, start, entries[..n])
        invariant forall d :: d in createdDirs ==> d in current.directories
        invariant DirsThere(fs.tree, start, entries[..n])
      {
        var e := entries[n];
        ghost var before := fs.tree;
        if e.dir && e.rel != [] {
          DirFits(fs.tree, start, entries, n);
          ok := EnsureDirectory(e.rel, e.staged.mode, m);
          GrownMore(before, fs.tree, start, entries, n);
          if !ok {
            return;
          }
          DirsThereMore(before, fs.tree, start, entries, n);
        } else {
          GrownMore(before, fs.tree, start, entries, n);
          DirsThereSkip(fs.tree, start, entries, n);
        }
      }
      assert entries[..|entries|] == entries;
      return true;
    }

    /** One installing change for each staged file. */
    method StagedChanges(entries: seq<Entry>) returns (staged: seq<FileChange>)
      ensures staged == StagedOf(entries)
    {
      staged := [];
      for n := 0 to |entries|
        invariant staged == StagedOf(entries[..n])
      {
        assert entries[..n + 1][..n] == entries[..n];
        if !entries[n].dir {
          staged := staged + [NewChange(entries[n].rel, entries[n].staged, false, "")];
        }
      }
      assert entries[..|entries|] == entries;
    }

    /** Plans and backs up every file change; nothing is changed yet. */
    method Stage(entries: seq<Entry>, previous: Manifest, current: Manifest, manifestSource: Staged)
        returns (ok: bool, manifestChange: FileChange)
      requires Live() && fs.tree == start && fs.nextIno == base && Plan(entries, previous, current, temps0)
      modifies this`changes, fs`clock
      ensures Live()
      ensures ok ==> AllSound(changes, start, base, temps0, previous, current, digest)
      ensures ok ==> Covers(changes, entries, previous, current, start, digest)
      ensures ok ==> forall i :: 0 <= i < |changes| ==> changes[i].rel in Changeable(entries, previous, current, start,
                digest)
      ensures ok ==>
              Prepared(start, manifestChange, base) &&
              SamePlan(NewChange(MANIFEST, manifestSource, false, ""), manifestChange, start, digest)
      ensures NothingButManifest(entries, previous) && MANIFEST !in start && !fs.faults(old(fs.clock)) ==>
              ok && changes == [] && manifestChange == NewChange(MANIFEST, manifestSource, false, "") &&
              fs.clock == old(fs.clock) + 1
      ensures fs.clock >= old(fs.clock)
      ensures Fits(entries, previous, start) ==>
              (Quiet(fs.faults, old(fs.clock)) ==> ok) && (ok ==> RelsApart(changes) && FromEntries(changes, entries))
    {
      hide Known, Recoverable, OldKept, Orderly, Standing, Rooted, Plan, AllSound, Covers, Changeable, Prepared,
        SamePlan, Owned, Eligible, IsStaged, Fits, RelsApart, FromEntries, FileOrFree, StagedOf, FilesApart;
      var staged := StagedChanges(entries);
      StagedOfIs(entries);
      var stale;
      ok, stale := StaleFileChanges(previous, current);
      if !ok {
        return false, NewChange(MANIFEST, manifestSource, false, "");
      }
      var planned := staged + stale + [NewChange(MANIFEST, manifestSource, false, "")];
      if Fits(entries, previous, start) {
        FitsParts(entries, previous, start);
        PlannedFits(entries, previous, current, start, temps0, digest, staged, stale, planned, manifestSource);
      }
      var prepared;
      ok, prepared := PrepareBackups(planned);
      if !ok {
        return false, NewChange(MANIFEST, manifestSource, false, "");
      }
      changes, manifestChange := prepared[..|prepared| - 1], prepared[|prepared| - 1];
      StagedIsSound(entries, previous, current, start, base, temps0, digest, staged, stale, planned, prepared);
      if Fits(entries, previous, start) {
        PreparedApart(start, base, digest, entries, staged, stale, planned, prepared);
      }
    }

    /** Everything but the manifest: directories, staged files, stale files and stale directories. */
    method ApplyOutputs(entries: seq<Entry>, previous: Manifest, current: Manifest, manifestSource: Staged)
        returns (ok: bool, manifestChange: FileChange)
      requires Live() && fs.tree == start && fs.nextIno == base && fs.temps == temps0
      requires appliedChanges == [] && removedDirs == [] && createdDirs == []
      requires Plan(entries, previous, current, temps0)
      modifies this, fs
      ensures Valid() && old(fs.log) <= fs.log
      ensures ok ==> Live() && FilesDone(fs.tree, entries, previous, current, start, digest)
      ensures ok ==> DirsThere(fs.tree, start, entries)
      ensures ok ==> forall p :: p in start && start[p].File? && p !in fs.tree ==>
                exists f :: f in previous.files && f.path == p && Eligible(f, current, start, digest)
      ensures ok ==> forall d :: d in previous.directories && d !in current.directories ==> Pruned(fs.tree, d)
      ensures ok ==> Prepared(start, manifestChange, base)
                     && SamePlan(NewChange(MANIFEST, manifestSource, false, ""), manifestChange, start, digest)
      ensures forall k :: |old(fs.log)| <= k < |fs.log| ==> AgreeAt(fs.log[k], start, MANIFEST)
      ensures GoneJustified(fs.tree, entries, previous, current, start, digest)
      ensures forall k :: |old(fs.log)| <= k < |fs.log| ==> GoneJustified(fs.log[k], entries, previous, current, start,
                                                                          digest)
      ensures NothingButManifest(entries, previous) && MANIFEST !in start && !fs.faults(old(fs.clock)) ==>
              ok && manifestChange == NewChange(MANIFEST, manifestSource, false, "")
              && fs.clock == old(fs.clock) + 1 && fs.tree == start
              && appliedChanges == [] && removedDirs == [] && createdDirs == []
      ensures fs.clock >= old(fs.clock) && AgreeAt(fs.tree, start, MANIFEST)
      ensures Fits(entries, previous, start) ==>
              (Quiet(fs.faults, old(fs.clock)) ==> ok) && (ok ==> IsDir(fs.tree, []))
    {
      hide Known, Recoverable, OldKept, SinceMark, Sound, Covers, FilesDone, Plan, AgreeAt, AllSound, AllDone, Prepared,
        Orderly, Standing, Rooted;
      hide Changeable, GoneJustified, MayChange, LeakExplained, DirsKept, Pruned, OnlyRemoved, SamePlan, FilesKept;
      ghost var m := Mark(fs.log, fs.tree, Changeable(entries, previous, current, start, digest), fs.temps);
      FirstMark(fs.log, fs.tree, fs.temps, m);
      PlanMay(entries, previous, current, temps0, m, start, digest);
      ok, manifestChange := ApplyAndPrune(entries, previous, current, manifestSource, m);
      ManifestKept(fs.log, fs.tree, fs.temps, m);
      SinceJustifies(fs.log, fs.tree, fs.temps, m, entries, previous, current, digest);
    }

    method ApplyAndPrune(entries: seq<Entry>, previous: Manifest, current: Manifest, manifestSource: Staged,
                         ghost m: Mark)
        returns (ok: bool, manifestChange: FileChange)
      requires Live() && fs.tree == start && fs.nextIno == base && fs.temps == temps0 && Since(fs, m)
      requires appliedChanges == [] && removedDirs == [] && createdDirs == []
      requires Plan(entries, previous, current, temps0)
      requires forall p :: p in Changeable(entries, previous, current, start, digest) ==>
               MayChange(m, p) &&
               Known(p, temps0)
      requires forall e :: e in entries ==> Known(e.rel, temps0) && (e.rel in start || MayChange(m, e.rel))
      requires forall e :: e in entries && e.dir && e.rel != [] ==> e.rel in current.directories
      requires forall d :: d in previous.directories ==>
                 d != [] && (IsFile(start, d) || MayChange(m, d)) && Known(d, temps0)
      modifies this, fs
      ensures Valid() && Since(fs, m)
      ensures ok ==> Live() && FilesDone(fs.tree, entries, previous, current, start, digest)
      ensures ok ==> DirsThere(fs.tree, start, entries)
      ensures ok ==> forall p :: p in start && start[p].File? && p !in fs.tree ==>
                exists f :: f in previous.files && f.path == p && Eligible(f, current, start, digest)
      ensures ok ==> forall d :: d in previous.directories && d !in current.directories ==> Pruned(fs.tree, d)
      ensures ok ==> Prepared(start, manifestChange, base)
                     && SamePlan(NewChange(MANIFEST, manifestSource, false, ""), manifestChange, start, digest)
      ensures NothingButManifest(entries, previous) && MANIFEST !in start && !fs.faults(old(fs.clock)) ==>
              ok && manifestChange == NewChange(MANIFEST, manifestSource, false, "")
              && fs.clock == old(fs.clock) + 1 && fs.tree == start
              && appliedChanges == [] && removedDirs == [] && createdDirs == []
      ensures fs.clock >= old(fs.clock)
      ensures Fits(entries, previous, start) ==>
              (Quiet(fs.faults, old(fs.clock)) ==> ok) && (ok ==> IsDir(fs.tree, []))
    {
      hide Known, Recoverable, OldKept, SinceMark, Sound, Covers, FilesDone, Plan, AgreeAt, AllSound, AllDone, Prepared,
        Orderly, Standing, Rooted;
      hide Changeable, MayChange, LeakExplained, OnlyRemoved, SamePlan, Fits, FromEntries, RelsApart, Applicable,
        GrownBy;
      ghost var fitting := Fits(entries, previous, start);
      if fitting {
        FitsParts(entries, previous, start);
      }
      ok, manifestChange := Stage(entries, previous, current, manifestSource);
      if !ok {
        return;
      }
      ok := CreateDirectories(entries, current, m);
      if !ok {
        return;
      }
      NoneRemoved(fs.tree, start, changes);
      ghost var planned, made := changes, fs.tree;
      if fitting {
        NowApplicable(fs.tree, start, entries, previous, current, base, temps0, digest, changes);
      }
      ok := ApplyChanges(previous, current, m);
      if !ok {
        return;
      }
      SameWorkCovers(planned, changes, entries, previous, current, start, digest);
      CoveredAndDone(fs.tree, changes, entries, previous, current, start, base, temps0, digest);
      ghost var filesDone := fs.tree;
      ok := RemoveStaleDirectories(previous, current, m);
      if !ok {
        return;
      }
      FilesDoneAfterPruning(filesDone, fs.tree, entries, previous, current, start, digest);
      JustifiedAfterPruning(filesDone, fs.tree, start, base, createdDirs, changes, temps0, previous, current, digest);
      EntryDirectories(made, filesDone, fs.tree, start, entries, previous, current, temps0);
      if fitting {
        RootStays(start, made, filesDone, fs.tree, entries, previous);
      }
    }

    /**
     Runs the publication. Success means every file, directory and the manifest is in place, a file is gone only
     because the old manifest justified it, and no stale directory that is left is empty. In every tree on the
     way, the manifest is as it was at the start unless all staged files are in and all eligible stale files out;
     and, failed or not, no file is gone without justification, unless it is just being replaced.
     */
    method Apply(entries: seq<Entry>, previous: Manifest, current: Manifest, manifestSource: Staged) returns (ok: bool)
      requires Live() && fs.tree == start && fs.nextIno == base && fs.temps == temps0
      requires appliedChanges == [] && removedDirs == [] && createdDirs == []
      requires Plan(entries, previous, current, temps0)
      modifies this, fs
      ensures Valid() && |old(fs.log)| <= |fs.log|
      ensures ok ==> Live() && Installed(fs.tree, MANIFEST, manifestSource)
      ensures ok ==> FilesDone(fs.tree, entries, previous, current, start, digest)
      ensures ok ==> DirsThere(fs.tree, start, entries)
      ensures ok ==> forall p :: p in start && start[p].File? && p !in fs.tree ==>
                exists f :: f in previous.files && f.path == p && Eligible(f, current, start, digest)
      ensures ok ==> forall d :: d in previous.directories && d !in current.directories ==> Pruned(fs.tree, d)
      ensures forall k :: |old(fs.log)| <= k < |fs.log| ==>
                AgreeAt(fs.log[k], start, MANIFEST) || FilesDone(fs.log[k], entries, previous, current, start, digest)
      ensures GoneJustified(fs.tree, entries, previous, current, start, digest)
      ensures forall k :: |old(fs.log)| <= k < |fs.log| ==> GoneJustified(fs.log[k], entries, previous, current, start,
                                                                          digest)
      ensures CannotPrepare(entries, previous, start, fs.faults, old(fs.clock)) ==>
              !ok && appliedChanges == [] && removedDirs == [] && createdDirs == []
              && failed == Some(Try(old(fs.clock) + 3, true, false, false))
      ensures fs.clock >= old(fs.clock)
      ensures Quiet(fs.faults, old(fs.clock)) && Fits(entries, previous, start) ==> ok
    {
      hide Known, Recoverable, OldKept, SinceMark, FilesDone, Plan, AgreeAt, Prepared, Eligible, Orderly, Standing,
        Rooted;
      hide InstallRun, PrepareRun, GoneJustified, LeakExplained, DirsThere, Pruned, SamePlan;
      var manifestChange;
      ok, manifestChange := ApplyOutputs(entries, previous, current, manifestSource);
      if !ok {
        return;
      }
      ghost var pruned := fs.tree;
      ghost var m := Mark(fs.log, fs.tree, {MANIFEST}, fs.temps);
      FirstMark(fs.log, fs.tree, fs.temps, m);
      ManifestKnown(temps0);
      BareManifest(manifestChange, manifestSource, start, digest);
      StartIsKnown(fs.tree, leak, start, temps0, Log(), fs.temps);
      UnpreparedFails(fs.faults, Try(fs.clock + 2, IsDir(fs.tree, Parent(MANIFEST)), false, false));
      var published;
      ok, published := ApplyChange(manifestChange, m);
      DoneSince(fs.log, fs.tree, fs.temps, m, entries, previous, current, start, temps0, digest);
      ManifestJustifies(fs.log, fs.tree, fs.temps, m, entries, previous, current, start, digest);
      assert forall k :: 0 <= k < |m.log| ==> fs.log[k] == m.log[k];
      if ok {
        ManifestInstalled(fs.tree, manifestChange, published, start, base, manifestSource, digest);
        AfterManifest(pruned, fs.tree, previous, current, temps0, entries);
        DirsStay(pruned, fs.tree, start, entries, previous, current, temps0);
      }
    }

    /** Undoes one file change, refusing to touch a path that is not as the transaction left it. */
    method RollbackFile(c: FileChange) returns (ok: bool)
      requires fs.Valid() && Known(c.rel, temps0) && temps0 <= fs.temps
      requires forall q :: q in leak ==> !Known(q, temps0)
      modifies fs
      ensures fs.Valid() && temps0 <= fs.temps
      ensures ok ==> Seen(fs.tree, leak) == UndoFile(old(Seen(fs.tree, leak)), c)
      ensures ok ==> forall q :: q in leak && q in old(fs.tree) ==> q in fs.tree
      ensures ok ==> OnlyAt(fs.tree, old(fs.tree), {c.rel})
      ensures fs.clock >= old(fs.clock)
      ensures Quiet(fs.faults, old(fs.clock)) && Recorded(old(fs.tree), c) ==>
              (c.existed ==> IsDir(old(fs.tree), Parent(c.rel))) ==> ok
    {
      KnownGrows(c.rel, temps0, fs.temps);
      hide Known, Rooted, InstallRun, PrepareRun;
      ghost var before := fs.tree;
      var stat := fs.Lstat(c.rel);
      if c.installed.Some? {
        if !stat.Found? || !stat.node.File? || stat.node.ino != c.installed.value {
          return false;
        }
      } else if !stat.Missing? {
        return false;
      }
      if c.existed {
        ghost var m := Mark(fs.log, fs.tree, {c.rel}, fs.temps);
        FirstMark(fs.log, fs.tree, fs.temps, m);
        var applied, installed;
        ghost var leaked;
        QuietInstalls(fs.faults, Try(fs.clock, true, c.rel in fs.tree, c.rel in fs.tree));
        applied, installed, ok, leaked := InstallFile(fs, c.backup, c.rel, c.installed.Some?, m);
        if ok {
          assert {c.rel} + {} == {c.rel};
          SeenUpdate(before, fs.tree, leak, c.rel);
        }
        return;
      }
      if c.installed.None? {
        return true;
      }
      var removed := fs.Remove(c.rel);
      ok := removed == Done;
    }

    /**
     Restores removed directories, then files, then removes created directories, each in reverse order. When no
     step reports an error the tree looks exactly as it did at the start, leaked temporary files aside.
     */
    method Rollback() returns (ok: bool)
      requires Valid()
      modifies this`visibleMutation, fs
      ensures ok ==> Seen(fs.tree, leak) == Seen(start, {}) && !visibleMutation
      ensures ok ==> forall q :: q in leak ==> q in fs.tree
      ensures !ok ==> visibleMutation == old(visibleMutation)
      ensures removedDirs == [] && appliedChanges == [] && createdDirs == [] ==> ok
      ensures Quiet(fs.faults, old(fs.clock)) && CanUndo(old(fs.tree), leak, Log()) ==> ok
    {
      hide Known, Orderly, Standing, Rooted, OldKept, LeakExplained, Undoable, Seen;
      OrderlyParts(fs.tree, start, Log());
      ok := RestoreDirectories();
      ghost var view := UndoDirs(old(Seen(fs.tree, leak)), removedDirs);
      HomesBack(view, Log(), start);
      var filesOk := RestoreFiles(view, ok);
      ok := ok && filesOk;
      ghost var view2 := UndoFiles(view, appliedChanges);
      var dirsOk := RemoveCreated(view2, ok);
      ok := ok && dirsOk;
      if ok {
        visibleMutation := false;
      }
    }

    method RestoreDirectories() returns (ok: bool)
      requires Valid()
      modifies fs
      ensures fs.Valid() && temps0 <= fs.temps
      ensures ok ==> Seen(fs.tree, leak) == UndoDirs(old(Seen(fs.tree, leak)), removedDirs)
      ensures forall q :: q in leak ==> q in fs.tree
      ensures removedDirs == [] ==> ok
      ensures fs.clock >= old(fs.clock) && (Quiet(fs.faults, old(fs.clock)) ==> ok)
      ensures Undoable(old(fs.tree), appliedChanges) ==> Undoable(fs.tree, appliedChanges)
    {
      hide Known, UndoFiles, UndoCreated, Orderly, Standing, Rooted, OldKept, LeakExplained, Undoable, Restorable,
        AgreeAt, Mentions;
      ok := true;
      ghost var quiet := Quiet(fs.faults, fs.clock);
      OrderlyParts(fs.tree, start, Log());
      AgreeSelf(fs.tree);
      ghost var goal := UndoDirs(Seen(fs.tree, leak), removedDirs);
      assert removedDirs[..|removedDirs|] == removedDirs;
      for n := |removedDirs| downto 0
        invariant fs.Valid() && temps0 <= fs.temps && (n == |removedDirs| ==> ok)
        invariant fs.clock >= old(fs.clock) && (quiet ==> ok && Restorable(fs.tree, removedDirs[..n]))
        invariant forall p :: AgreeAt(fs.tree, old(fs.tree), p) || Mentions(removedDirs, p)
        invariant forall i :: 0 <= i < n ==> removedDirs[i].rel !in fs.tree
        invariant ok ==> UndoDirs(Seen(fs.tree, leak), removedDirs[..n]) == goal
        invariant forall q :: q in leak ==> q in fs.tree
      {
        var dir := removedDirs[n];
        StartKnown(start, temps0, fs.temps, dir.rel);
        ghost var before := fs.tree;
        RestorableStep(before, removedDirs, n);
        var made := fs.Mkdir(dir.rel, dir.mode);
        if made == Refused {
          ok := false;
        } else {
          OnlyUpdate(before, fs.tree, dir.rel);
          SeenUpdate(before, fs.tree, leak, dir.rel);
          MentionedOnly(old(fs.tree), before, fs.tree, removedDirs, n);
          assert removedDirs[..n + 1][..n] == removedDirs[..n];
        }
      }
      UndoableElsewhere(old(fs.tree), fs.tree, Log());
    }

    method RestoreFiles(ghost view: View, ghost exact: bool) returns (ok: bool)
      requires fs.Valid() && temps0 <= fs.temps && (exact ==> Seen(fs.tree, leak) == view)
      requires forall q :: q in leak ==> !Known(q, temps0) && q in fs.tree
      requires forall i :: 0 <= i < |appliedChanges| ==> Known(appliedChanges[i].rel, temps0)
      modifies fs
      ensures fs.Valid() && temps0 <= fs.temps
      ensures ok && exact ==> Seen(fs.tree, leak) == UndoFiles(view, appliedChanges)
      ensures ok ==> forall q :: q in leak ==> q in fs.tree
      ensures appliedChanges == [] ==> ok
      ensures fs.clock >= old(fs.clock)
      ensures Quiet(fs.faults, old(fs.clock)) && exact ==>
              Undoable(old(fs.tree), appliedChanges) && Homes(view, appliedChanges) ==> ok
    {
      hide Known, UndoFile, Rooted, Undoable, Homes, Recorded, OnlyAt;
      ghost var quiet := Quiet(fs.faults, fs.clock) && exact && Undoable(fs.tree, appliedChanges)
                         && Homes(view, appliedChanges);
      ok := true;
      assert appliedChanges[..|appliedChanges|] == appliedChanges;
      for n := |appliedChanges| downto 0
        invariant fs.Valid() && temps0 <= fs.temps && (n == |appliedChanges| ==> ok)
        invariant ok && exact ==> UndoFiles(Seen(fs.tree, leak), appliedChanges[..n]) == UndoFiles(view, appliedChanges)
        invariant ok ==> forall q :: q in leak ==> q in fs.tree
        invariant fs.clock >= old(fs.clock) && (quiet ==> ok && Undoable(fs.tree, appliedChanges[..n]))
        invariant quiet ==> forall p :: IsDir(old(fs.tree), p) ==> IsDir(fs.tree, p)
      {
        ghost var before := fs.tree;
        if quiet {
          if appliedChanges[n].existed {
            HomeOf(old(fs.tree), leak, view, appliedChanges, n);
          }
          UndoableLast(fs.tree, appliedChanges, n);
        }
        var undone := RollbackFile(appliedChanges[n]);
        if quiet {
          UndoableInit(before, fs.tree, appliedChanges, n);
        }
        ok := ok && undone;
        assert appliedChanges[..n + 1][..n] == appliedChanges[..n];
      }
    }

    method RemoveCreated(ghost view: View, ghost exact: bool) returns (ok: bool)
      requires fs.Valid() && (exact ==> Seen(fs.tree, leak) == view)
      requires exact ==> forall q :: q in leak ==> q in fs.tree
      requires forall q :: q in leak ==> q !in createdDirs
      modifies fs
      ensures ok && exact ==> Seen(fs.tree, leak) == UndoCreated(view, createdDirs)
      ensures ok && exact ==> forall q :: q in leak ==> q in fs.tree
      ensures createdDirs == [] ==> ok
      ensures Quiet(fs.faults, old(fs.clock)) && exact && Removable(view, leak, start, createdDirs) ==> ok
    {
      hide Known, Rooted, HasChild, Removable;
      ghost var quiet := Quiet(fs.faults, fs.clock) && exact && Removable(view, leak, start, createdDirs);
      ok := true;
      assert createdDirs[..|createdDirs|] == createdDirs;
      for n := |createdDirs| downto 0
        invariant fs.Valid() && (n == |createdDirs| ==> ok)
        invariant ok && exact ==> UndoCreated(Seen(fs.tree, leak), createdDirs[..n]) == UndoCreated(view, createdDirs)
        invariant exact ==> forall q :: q in leak ==> q in fs.tree
        invariant quiet ==> ok && fs.clock >= old(fs.clock)
      {
        var rel := createdDirs[n];
        if quiet {
          NoChildLeft(fs.tree, leak, view, start, createdDirs, n);
        }
        ghost var before := Seen(fs.tree, leak);
        var removed := fs.Remove(rel);
        if removed == Refused {
          // Whether the directory has children decides only which error is reported.
          var stat := fs.Lstat(rel);
          if stat.Found? {
            var _ := fs.Call();
          }
          ok := false;
        } else {
          assert Seen(fs.tree, leak) == before - {rel};
          assert createdDirs[..n + 1][..n] == createdDirs[..n];
        }
      }
    }

    /**
     A whole publication. If it fails and the rollback reports no error, nothing counts as touched and every file's
     content and mode and every directory is as before, temporary files aside; and the tree is exactly as before if and
     only if the faults of the installation that failed, if one did, are not such as to leave its temporary file.
     */
    method Publish(entries: seq<Entry>, previous: Manifest, current: Manifest, manifestSource: Staged)
        returns (touched: bool, applied: bool, rolledBack: bool, ghost turned: nat)
      requires Live() && fs.tree == start && fs.nextIno == base && fs.temps == temps0 && !visibleMutation
      requires Plan(entries, previous, current, temps0)
      modifies this, fs
      ensures applied ==> && Installed(fs.tree, MANIFEST, manifestSource)
                          && FilesDone(fs.tree, entries, previous, current, start, digest)
                          && DirsThere(fs.tree, start, entries)
                          && OthersDecided(fs.tree, entries, previous, current, start, digest)
      ensures !applied ==> touched == !rolledBack
      ensures !applied && rolledBack ==> !visibleMutation
      ensures !applied && rolledBack ==> Seen(fs.tree, leak) == Seen(start, {})
      ensures !applied && rolledBack ==>
              (Seen(fs.tree, {}) == Seen(start, {}) <==> !(failed.Some? && InstallRun(fs.faults, failed.value).left))
      ensures failed.Some? ==> !applied && !InstallRun(fs.faults, failed.value).ok
      ensures CannotPrepare(entries, previous, start, fs.faults, old(fs.clock)) ==>
              !applied && rolledBack && failed == Some(Try(old(fs.clock) + 3, true, false, false))
      ensures Quiet(fs.faults, old(fs.clock)) && Fits(entries, previous, start) ==> applied
      ensures old(fs.clock) <= turned && (!applied && failed.None? && Quiet(fs.faults, turned) ==> rolledBack)
    {
      hide Known, Recoverable, OldKept, FilesDone, DirsThere, GoneJustified, OthersDecided, Plan, InstallRun,
        PrepareRun, Orderly, Standing, Rooted;
      applied := Apply(entries, previous, current, manifestSource);
      rolledBack, turned := false, fs.clock;
      StandingUndoes(fs.tree, start, leak, Log());
      if applied {
        DoneDecides(fs.tree, entries, previous, current, start, digest);
        touched := visibleMutation;
        return;
      }
      LeakIsNew(fs.tree, leak, start, temps0, Log());
      rolledBack := Rollback();
      touched := !rolledBack;
      if rolledBack && leak != {} {
        var q :| q in leak;
        assert q in Seen(fs.tree, {}) && q !in Seen(start, {});
      }
    }
  }

  /** What is left of the starting tree once all is undone but the created directories: no child of any of them. */
  lemma {:induction false} UndoCreatedHas(v: View, created: seq<Path>, p: Path)
    ensures p in UndoCreated(v, created) <==> p in v && p !in created
    decreases |created|
  {
    if created != [] {
      var n := |created| - 1;
      UndoCreatedHas(v - {created[n]}, created[..n], p);
      assert created == created[..n] + [created[n]];
    }
  }

  /** Undoing files and created directories never makes a directory. */
  lemma {:induction false} UndoCreatedKeeps(v: View, created: seq<Path>, p: Path)
    requires p in UndoCreated(v, created)
    ensures p in v && v[p] == UndoCreated(v, created)[p]
    decreases |created|
  {
    if created != [] {
      UndoCreatedKeeps(v - {created[|created| - 1]}, created[..|created| - 1], p);
    }
  }

  lemma {:induction false} UndoFilesKeepDirs(v: View, applied: seq<FileChange>, p: Path)
    requires p in UndoFiles(v, applied) && UndoFiles(v, applied)[p].DirShape?
    ensures p in v && v[p].DirShape?
    decreases |applied|
  {
    if applied != [] {
      UndoFilesKeepDirs(UndoFile(v, applied[|applied| - 1]), applied[..|applied| - 1], p);
    }
  }

  /** Every file that is put back has its directory in the view. */
  predicate Homes(view: View, applied: seq<FileChange>) {
    forall i :: 0 <= i < |applied| && applied[i].existed ==>
      Parent(applied[i].rel) in view && view[Parent(applied[i].rel)].DirShape?
  }

  lemma OrderlyParts(tree: map<Path, Node>, start: map<Path, Node>, j: Journal)
    requires Orderly(tree, start, j)
    ensures Rooted(start) && Restorable(tree, j.removed)
    ensures forall i, k :: 0 <= i < k < |j.created| ==> Parent(j.created[i]) != j.created[k]
    ensures forall i :: 0 <= i < |j.applied| && j.applied[i].existed ==> IsFile(start, j.applied[i].rel)
    ensures forall i, k :: 0 <= i < |j.applied| && 0 <= k < |j.removed| ==> j.applied[i].rel != j.removed[k].rel
  {
  }

  lemma HomesBack(view: View, j: Journal, start: map<Path, Node>)
    requires UndoCreated(UndoFiles(view, j.applied), j.created) == Seen(start, {}) && Rooted(start)
    requires forall i :: 0 <= i < |j.applied| && j.applied[i].existed ==> IsFile(start, j.applied[i].rel)
    ensures Homes(view, j.applied)
  {
    forall i | 0 <= i < |j.applied| && j.applied[i].existed
      ensures Parent(j.applied[i].rel) in view && view[Parent(j.applied[i].rel)].DirShape?
    {
      var home := Parent(j.applied[i].rel);
      assert IsDir(start, home) && home in Seen(start, {});
      UndoCreatedKeeps(UndoFiles(view, j.applied), j.created, home);
      UndoFilesKeepDirs(view, j.applied, home);
    }
  }

  lemma HomeOf(tree: map<Path, Node>, leak: set<Path>, view: View, applied: seq<FileChange>, n: nat)
    requires n < |applied| && Homes(view, applied) && Seen(tree, leak) == view && applied[n].existed
    ensures IsDir(tree, Parent(applied[n].rel))
  {
    assert Parent(applied[n].rel) in Seen(tree, leak);
  }

  lemma UndoableElsewhere(tree: map<Path, Node>, tree': map<Path, Node>, j: Journal)
    requires forall p :: AgreeAt(tree', tree, p) || Mentions(j.removed, p)
    requires forall i, k :: 0 <= i < |j.applied| && 0 <= k < |j.removed| ==> j.applied[i].rel != j.removed[k].rel
    ensures Undoable(tree, j.applied) ==> Undoable(tree', j.applied)
  {
    if Undoable(tree, j.applied) {
      forall i | 0 <= i < |j.applied|
        ensures Recorded(tree', j.applied[i])
      {
        assert Recorded(tree, j.applied[i]) && !Mentions(j.removed, j.applied[i].rel);
        assert AgreeAt(tree', tree, j.applied[i].rel);
      }
    }
  }

  lemma UndoableLast(tree: map<Path, Node>, applied: seq<FileChange>, n: nat)
    requires n < |applied| && Undoable(tree, applied[..n + 1])
    ensures Recorded(tree, applied[n])
  {
    assert applied[..n + 1][n] == applied[n];
  }

  lemma UndoableInit(tree: map<Path, Node>, tree': map<Path, Node>, applied: seq<FileChange>, n: nat)
    requires n < |applied| && Undoable(tree, applied[..n + 1]) && OnlyAt(tree', tree, {applied[n].rel})
    ensures Undoable(tree', applied[..n])
    ensures forall p :: IsDir(tree, p) ==> IsDir(tree', p)
  {
    var more := applied[..n + 1];
    assert more[n] == applied[n] && Recorded(tree, more[n]);
    forall i | 0 <= i < n
      ensures Recorded(tree', applied[..n][i])
    {
      assert applied[..n][i] == more[i] && Recorded(tree, more[i]) && more[i].rel != more[n].rel;
      assert AgreeAt(tree', tree, more[i].rel);
    }
    forall i, k | 0 <= i < k < n
      ensures applied[..n][i].rel != applied[..n][k].rel
    {
      assert more[i].rel != more[k].rel;
    }
    forall p | IsDir(tree, p)
      ensures IsDir(tree', p)
    {
      assert p != more[n].rel ==> AgreeAt(tree', tree, p);
    }
  }

  /** Only the created directories are left to undo, parents first among them, and nothing has leaked into one. */
  ghost predicate Removable(view: View, leak: set<Path>, start: map<Path, Node>, created: seq<Path>) {
    && Rooted(start) && UndoCreated(view, created) == Seen(start, {})
    && (forall i, k :: 0 <= i < k < |created| ==> Parent(created[i]) != created[k])
    && (forall q :: q in leak ==> Parent(q) !in created)
  }

  /** A created directory has no children when its turn comes. */
  lemma NoChildLeft(tree: map<Path, Node>, leak: set<Path>, view: View, start: map<Path, Node>, created: seq<Path>,
                    n: nat)
    requires n < |created| && UndoCreated(Seen(tree, leak), created[..n + 1]) == UndoCreated(view, created)
    requires Removable(view, leak, start, created)
    ensures !HasChild(tree, created[n])
  {
    forall q | q in tree.Keys && q != []
      ensures Parent(q) != created[n]
    {
      if q !in leak {
        NotAChild(Seen(tree, leak), start, created, n, q);
      }
    }
  }

  lemma NotAChild(v: View, start: map<Path, Node>, created: seq<Path>, n: nat, q: Path)
    requires n < |created| && UndoCreated(v, created[..n + 1]) == Seen(start, {}) && Rooted(start)
    requires forall i, k :: 0 <= i < k < |created| ==> Parent(created[i]) != created[k]
    requires q in v && q != []
    ensures Parent(q) != created[n]
  {
    var init := created[..n + 1];
    assert init[n] == created[n];
    UndoCreatedHas(v, init, q);
    UndoCreatedHas(v, init, created[n]);
    assert created[n] !in start by {
      assert created[n] !in Seen(start, {});
    }
    if q in init {
      var k :| 0 <= k < |init| && init[k] == q;
      assert created[k] == q && |Parent(q)| < |q|;
    } else {
      assert q in Seen(start, {});
      assert IsDir(start, Parent(q));
    }
  }

  lemma SeenUpdate(before: map<Path, Node>, after: map<Path, Node>, leak: set<Path>, p: Path)
    requires OnlyAt(after, before, {p}) && p !in leak && p in after
    ensures Seen(after, leak) == Seen(before, leak)[p := ShapeOf(after[p])]
  {
    var a, b := Seen(after, leak), Seen(before, leak)[p := ShapeOf(after[p])];
    forall q
      ensures (q in a <==> q in b) && (q in a ==> a[q] == b[q])
    {
      assert q != p ==> AgreeAt(after, before, q);
    }
  }

  lemma StartKnown(start: map<Path, Node>, temps: nat, temps': nat, p: Path)
    requires (forall q :: q in start ==> Known(q, temps)) && p in start && temps <= temps'
    ensures Known(p, temps')
  {
    KnownGrows(p, temps, temps');
  }

  lemma LeakIsNew(tree: map<Path, Node>, leak: set<Path>, start: map<Path, Node>, temps: nat, j: Journal)
    requires Recoverable(tree, leak, start, temps, j)
    ensures forall q :: q in leak ==> q !in start
  {
    hide Known;
  }

  function StagedOf(entries: seq<Entry>): seq<FileChange> {
    if entries == [] then []
    else
      var last := entries[|entries| - 1];
      StagedOf(entries[..|entries| - 1]) + if last.dir then [] else [NewChange(last.rel, last.staged, false, "")]
  }

  lemma {:induction false} StagedOfHas(entries: seq<Entry>, c: FileChange)
    ensures c in StagedOf(entries) <==> IsStaged(c, entries)
    decreases |entries|
  {
    if entries != [] {
      var n := |entries| - 1;
      StagedOfHas(entries[..n], c);
      assert entries == entries[..n] + [entries[n]];
    }
  }

  lemma {:induction false} StagedOfApart(entries: seq<Entry>)
    requires FilesApart(entries)
    ensures RelsApart(StagedOf(entries))
    decreases |entries|
  {
    if entries != [] {
      var n := |entries| - 1;
      var init, last := StagedOf(entries[..n]), entries[n];
      StagedOfApart(entries[..n]);
      forall i | 0 <= i < |init| && !last.dir
        ensures init[i].rel != last.rel
      {
        StagedOfHas(entries[..n], init[i]);
        var e :| e in entries[..n] && !e.dir && init[i] == NewChange(e.rel, e.staged, false, "");
        var k :| 0 <= k < n && entries[k] == e;
      }
    }
  }

  lemma StagedOfIs(entries: seq<Entry>)
    ensures forall i :: 0 <= i < |StagedOf(entries)| ==> IsStaged(StagedOf(entries)[i], entries)
    ensures forall i :: 0 <= i < |StagedOf(entries)| ==>
              !StagedOf(entries)[i].existed && !StagedOf(entries)[i].skip && StagedOf(entries)[i].installed.None?
    ensures forall k :: 0 <= k < |entries| && !entries[k].dir ==> exists i ::
              0 <= i < |StagedOf(entries)| &&
              StagedOf(entries)[i] == NewChange(entries[k].rel, entries[k].staged, false, "")
    ensures FilesApart(entries) ==> RelsApart(StagedOf(entries))
    ensures entries == [] ==> StagedOf(entries) == []
  {
    var staged := StagedOf(entries);
    if FilesApart(entries) {
      StagedOfApart(entries);
    }
    hide StagedOf, FilesApart, RelsApart;
    forall i | 0 <= i < |staged|
      ensures IsStaged(staged[i], entries) && !staged[i].existed && !staged[i].skip && staged[i].installed.None?
    {
      StagedOfHas(entries, staged[i]);
    }
    forall k | 0 <= k < |entries| && !entries[k].dir
      ensures exists i :: 0 <= i < |staged| && staged[i] == NewChange(entries[k].rel, entries[k].staged, false, "")
    {
      var c := NewChange(entries[k].rel, entries[k].staged, false, "");
      assert IsStaged(c, entries);
      StagedOfHas(entries, c);
    }
  }

  /** Every change removes a file or installs a staged one. */
  predicate FromEntries(changes: seq<FileChange>, entries: seq<Entry>) {
    forall i :: 0 <= i < |changes| ==> changes[i].remove || exists e ::
      e in entries && !e.dir &&
      e.rel == changes[i].rel
  }

  lemma FitsParts(entries: seq<Entry>, previous: Manifest, start: map<Path, Node>)
    requires Fits(entries, previous, start)
    ensures IsDir(start, []) && FilesApart(entries) && ListedOnce(previous.files) && DirsFit(entries, start)
  {
  }

  /** What is planned differs in its paths and replaces files only. */
  lemma PlannedFits(entries: seq<Entry>, previous: Manifest, current: Manifest, start: map<Path, Node>, temps: nat,
                    digest: Content -> Digest, staged: seq<FileChange>, stale: seq<FileChange>,
                    planned: seq<FileChange>, source: Staged)
    requires Fits(entries, previous, start) && Plan(entries, previous, current, temps)
    requires forall i :: 0 <= i < |staged| ==> IsStaged(staged[i], entries)
    requires forall i :: 0 <= i < |stale| ==> stale[i].remove && Owned(stale[i], previous, current, start, digest)
    requires planned == staged + stale + [NewChange(MANIFEST, source, false, "")] && RelsApart(staged)
    requires RelsApart(stale)
    ensures RelsApart(planned) && forall i :: 0 <= i < |planned| ==> FileOrFree(start, planned[i].rel)
  {
    hide Known, InFiles, HasHome;
    forall i | 0 <= i < |staged|
      ensures InFiles(current, staged[i].rel) && FileOrFree(start, staged[i].rel) && staged[i].rel != MANIFEST
    {
      assert IsStaged(staged[i], entries);
    }
    forall i | 0 <= i < |stale|
      ensures !InFiles(current, stale[i].rel) && FileOrFree(start, stale[i].rel) && stale[i].rel != MANIFEST
    {
      assert Owned(stale[i], previous, current, start, digest);
    }
    hide IsStaged, Owned, Plan, Fits, FileOrFree;
    ThreeApart(staged, stale, planned[|staged| + |stale|], current);
  }

  lemma ThreeApart(staged: seq<FileChange>, stale: seq<FileChange>, last: FileChange, current: Manifest)
    requires RelsApart(staged) && RelsApart(stale)
    requires forall i :: 0 <= i < |staged| ==> InFiles(current, staged[i].rel) && staged[i].rel != last.rel
    requires forall i :: 0 <= i < |stale| ==> !InFiles(current, stale[i].rel) && stale[i].rel != last.rel
    ensures RelsApart(staged + stale + [last])
  {
    hide InFiles;
    var all := staged + stale + [last];
    forall i, k | 0 <= i < k < |all|
      ensures all[i].rel != all[k].rel
    {
      if k == |staged| + |stale| {
        assert all[k] == last;
      } else if |staged| <= i {
        assert all[i] == stale[i - |staged|] && all[k] == stale[k - |staged|];
      } else if |staged| <= k {
        assert all[i] == staged[i] && all[k] == stale[k - |staged|];
      } else {
        assert all[i] == staged[i] && all[k] == staged[k];
      }
    }
  }

  lemma PreparedApart(start: map<Path, Node>, base: nat, digest: Content -> Digest, entries: seq<Entry>,
                      staged: seq<FileChange>, stale: seq<FileChange>, planned: seq<FileChange>,
                      prepared: seq<FileChange>)
    requires RelsApart(planned) && |planned| == |prepared| == |staged| + |stale| + 1 && staged + stale <= planned
    requires forall i :: 0 <= i < |staged| ==> IsStaged(staged[i], entries)
    requires forall i :: 0 <= i < |stale| ==> stale[i].remove
    requires forall i :: 0 <= i < |planned| ==>
               Prepared(start, prepared[i], base) && SamePlan(planned[i], prepared[i], start, digest)
    ensures RelsApart(prepared[..|prepared| - 1]) && FromEntries(prepared[..|prepared| - 1], entries)
  {
    hide Prepared;
    var n := |prepared| - 1;
    forall i | 0 <= i < n
      ensures prepared[i].rel == planned[i].rel
      ensures prepared[i].remove || exists e :: e in entries && !e.dir && e.rel == prepared[i].rel
    {
      assert SamePlan(planned[i], prepared[i], start, digest);
      if i < |staged| {
        assert planned[i] == (staged + stale)[i] == staged[i] && IsStaged(staged[i], entries);
      } else {
        assert planned[i] == (staged + stale)[i] == stale[i - |staged|];
      }
    }
    forall i, k | 0 <= i < k < n
      ensures prepared[i].rel != prepared[k].rel
    {
      assert planned[i].rel != planned[k].rel;
    }
  }

  /** Once the directories are there, every change can go ahead. */
  lemma NowApplicable(tree: map<Path, Node>, start: map<Path, Node>, entries: seq<Entry>, previous: Manifest,
                      current: Manifest, base: nat, temps: nat, digest: Content -> Digest, changes: seq<FileChange>)
    requires Fits(entries, previous, start) && GrownBy(tree, start, entries) && FromEntries(changes, entries)
    requires AllSound(changes, start, base, temps, previous, current, digest)
    requires DirsThere(tree, start, entries)
    ensures Applicable(tree, start, changes, 0)
  {
    hide Known;
    forall i | 0 <= i < |changes|
      ensures AgreeAt(tree, start, changes[i].rel) && (!changes[i].remove ==> IsDir(tree, Parent(changes[i].rel)))
    {
      var c := changes[i];
      assert Sound(c, start, base, temps, previous, current, digest);
      if !c.remove {
        var e :| e in entries && !e.dir && e.rel == c.rel;
        assert HasHome(entries, start, c.rel);
        if IsDir(start, Parent(c.rel)) {
          assert AgreeAt(tree, start, Parent(c.rel));
        }
      }
    }
  }

  lemma RootStays(start: map<Path, Node>, made: map<Path, Node>, done: map<Path, Node>, tree: map<Path, Node>,
                  entries: seq<Entry>, previous: Manifest)
    requires IsDir(start, []) && GrownBy(made, start, entries) && DirsKept(done, made)
    requires forall p :: p in tree ==> AgreeAt(tree, done, p)
    requires forall p :: p in done && p !in tree ==> p in previous.directories
    requires forall d :: d in previous.directories ==> d != []
    ensures IsDir(tree, [])
  {
    assert AgreeAt(made, start, []);
  }

  ghost predicate IsStaged(c: FileChange, entries: seq<Entry>) {
    exists e :: e in entries && !e.dir && c == NewChange(e.rel, e.staged, false, "")
  }

  /** What may change before the manifest does: staged files, new directories, stale files and stale directories. */
  ghost function Changeable(entries: seq<Entry>, previous: Manifest, current: Manifest, start: map<Path, Node>,
                            digest: Content -> Digest): set<Path> {
    (set e | e in entries && (!e.dir || e.rel !in start) :: e.rel) +
    (set f | f in previous.files && Eligible(f, current, start, digest) :: f.path) +
    (set d | d in previous.directories && !IsFile(start, d))
  }

  lemma StagedIsSound(entries: seq<Entry>, previous: Manifest, current: Manifest, start: map<Path, Node>, base: nat,
                      temps: nat, digest: Content -> Digest, staged: seq<FileChange>, stale: seq<FileChange>,
                      planned: seq<FileChange>, prepared: seq<FileChange>)
    requires Plan(entries, previous, current, temps)
    requires forall i :: 0 <= i < |staged| ==> IsStaged(staged[i], entries)
    requires forall k :: 0 <= k < |entries| && !entries[k].dir ==>
               exists i :: 0 <= i < |staged| && staged[i] == NewChange(entries[k].rel, entries[k].staged, false, "")
    requires forall i :: 0 <= i < |stale| ==> stale[i].remove && Owned(stale[i], previous, current, start, digest)
    requires forall f :: f in previous.files && Eligible(f, current, start, digest) ==> exists i ::
             0 <= i < |stale| &&
             stale[i].rel == f.path
    requires |planned| == |prepared| == |staged| + |stale| + 1 && staged + stale <= planned
    requires forall i :: 0 <= i < |planned| ==>
             Prepared(start, prepared[i], base) &&
             SamePlan(planned[i], prepared[i], start, digest)
    ensures AllSound(prepared[..|prepared| - 1], start, base, temps, previous, current, digest)
    ensures Covers(prepared[..|prepared| - 1], entries, previous, current, start, digest)
    ensures forall i :: 0 <= i < |prepared| - 1 ==> prepared[i].rel in Changeable(entries, previous, current, start,
              digest)
  {
    hide Known;
    var changes := prepared[..|prepared| - 1];
    forall i | 0 <= i < |changes|
      ensures Sound(changes[i], start, base, temps, previous, current, digest)
      ensures changes[i].rel in Changeable(entries, previous, current, start, digest)
    {
      assert planned[i] == (staged + stale)[i];
      assert SamePlan(planned[i], changes[i], start, digest);
      if i < |staged| {
        var e :| e in entries && !e.dir && staged[i] == NewChange(e.rel, e.staged, false, "");
      } else {
        var f :| f in previous.files && f.path == changes[i].rel && f.sha == changes[i].expected &&
          Eligible(f, current, start, digest);
      }
    }
    forall e | e in entries && !e.dir
      ensures exists i ::
              0 <= i < |changes| && !changes[i].remove && changes[i].rel == e.rel &&
              changes[i].source == e.staged
    {
      var k :| 0 <= k < |entries| && entries[k] == e;
      var i :| 0 <= i < |staged| && staged[i] == NewChange(entries[k].rel, entries[k].staged, false, "");
      assert planned[i] == staged[i] && SamePlan(planned[i], changes[i], start, digest);
    }
    forall f | f in previous.files && Eligible(f, current, start, digest)
      ensures exists i :: 0 <= i < |changes| && changes[i].remove && changes[i].rel == f.path
    {
      var i :| 0 <= i < |stale| && stale[i].rel == f.path;
      assert planned[|staged| + i] == (staged + stale)[|staged| + i] &&
             SamePlan(planned[|staged| + i], changes[|staged| + i], start, digest);
    }
  }

  /** The same files with the same contents, whatever was recorded since. */
  ghost predicate SameWork(a: seq<FileChange>, b: seq<FileChange>) {
    |a| == |b| && forall i :: 0 <= i < |a| ==>
      a[i].rel == b[i].rel && a[i].source == b[i].source &&
      a[i].remove == b[i].remove
  }

  lemma SameWorkTrans(a: seq<FileChange>, b: seq<FileChange>, c: seq<FileChange>)
    requires SameWork(a, b) && SameWork(b, c)
    ensures SameWork(a, c)
  {
  }

  lemma SameWorkAt(was: seq<FileChange>, n: nat, c: FileChange)
    requires n < |was| && c == was[n].(skip := c.skip, installed := c.installed)
    ensures SameWork(was[n := c], was)
  {
  }

  lemma SoundAt(changes: seq<FileChange>, start: map<Path, Node>, base: nat, temps: nat, previous: Manifest,
                current: Manifest, digest: Content -> Digest, n: nat)
    requires n < |changes| && AllSound(changes, start, base, temps, previous, current, digest)
    ensures Prepared(start, changes[n], base) && Known(changes[n].rel, temps)
  {
    hide Known, Owned, Prepared;
    assert Sound(changes[n], start, base, temps, previous, current, digest);
  }

  lemma DirsKeptSelf(t: map<Path, Node>)
    ensures DirsKept(t, t)
  {
  }

  lemma AfterChange(before: map<Path, Node>, tree: map<Path, Node>, start: map<Path, Node>, was: seq<FileChange>,
                    n: nat, c: FileChange, base: nat, temps: nat, previous: Manifest, current: Manifest,
                    digest: Content -> Digest)
    requires n < |was| && AllSound(was, start, base, temps, previous, current, digest)
    requires AllDone(before, was[..n], base)
    requires OnlyRemoved(before, start, was)
    requires c == was[n].(skip := c.skip, installed := c.installed) && Prepared(start, c, base) && DoneAt(tree, c, base)
    requires OnlyAt(tree, before, {c.rel}) && (tree == before || AgreeAt(before, start, c.rel))
    requires c.rel in before && c.rel !in tree ==> c.remove
    requires c.skip && !was[n].skip ==>
             c.rel in start && start[c.rel].File? &&
             digest(start[c.rel].content) != c.expected
    ensures AllDone(tree, was[..n] + [c], base) && OnlyRemoved(tree, start, was[n := c])
    ensures AllSound(was[n := c], start, base, temps, previous, current, digest)
  {
    hide Known;
    var now := was[n := c];
    assert Sound(was[n], start, base, temps, previous, current, digest);
    assert Owned(c, previous, current, start, digest);
    forall i | 0 <= i < n
      ensures DoneAt(tree, was[i], base)
    {
      assert Sound(was[i], start, base, temps, previous, current, digest);
      assert DoneAt(before, was[..n][i], base);
      if tree != before && was[i].rel != c.rel {
        assert AgreeAt(tree, before, was[i].rel);
      }
    }
    forall p | p in start && start[p].File? && p !in tree
      ensures exists i :: 0 <= i < |now| && now[i].remove && now[i].rel == p
    {
      if p in before {
        assert p != c.rel ==> AgreeAt(tree, before, p);
        assert now[n].rel == p;
      } else {
        var i :| 0 <= i < |was| && was[i].remove && was[i].rel == p;
        assert now[i].remove && now[i].rel == p;
      }
    }
  }

  /** All that is new in the tree are staged directories, each with the mode it was staged with. */
  ghost predicate GrownBy(tree: map<Path, Node>, start: map<Path, Node>, entries: seq<Entry>) {
    && (forall p :: p in start ==> AgreeAt(tree, start, p))
    && (forall p :: p in tree && p !in start ==>
          exists e :: e in entries && e.dir && e.rel == p && tree[p] == Dir(e.staged.mode))
  }

  lemma GrownMore(before: map<Path, Node>, after: map<Path, Node>, start: map<Path, Node>, entries: seq<Entry>, n: nat)
    requires n < |entries| && GrownBy(before, start, entries[..n])
    requires after == before || (entries[n].dir && entries[n].rel !in before &&
                                 after == before[entries[n].rel := Dir(entries[n].staged.mode)])
    ensures GrownBy(after, start, entries[..n + 1]) && GrownBy(after, start, entries)
  {
    assert entries[..n + 1] == entries[..n] + [entries[n]];
    assert entries[n] in entries[..n + 1];
    forall p | p in after && p !in start
      ensures exists e :: e in entries[..n + 1] && e.dir && e.rel == p && after[p] == Dir(e.staged.mode)
    {
      if p in before {
        var e :| e in entries[..n] && e.dir && e.rel == p && before[p] == Dir(e.staged.mode);
        assert e in entries[..n + 1];
      }
    }
  }

  lemma GrownSelf(start: map<Path, Node>, entries: seq<Entry>)
    ensures GrownBy(start, start, entries) && DirsThere(start, start, [])
  {
  }

  lemma DirFits(tree: map<Path, Node>, start: map<Path, Node>, entries: seq<Entry>, n: nat)
    requires n < |entries| && entries[n].dir && entries[n].rel != [] && GrownBy(tree, start, entries[..n])
    requires DirsThere(tree, start, entries[..n])
    ensures DirsFit(entries, start) ==>
              IsDir(tree, entries[n].rel) || (entries[n].rel !in tree && IsDir(tree, Parent(entries[n].rel)))
  {
    var rel := entries[n].rel;
    if DirsFit(entries, start) && rel !in start {
      assert HasHome(entries[..n], start, rel);
      if !IsDir(start, Parent(rel)) {
        var e :| e in entries[..n] && e.dir && e.rel != [] && e.rel == Parent(rel);
        assert IsDir(tree, e.rel);
      } else {
        assert AgreeAt(tree, start, Parent(rel));
      }
    } else if DirsFit(entries, start) {
      assert AgreeAt(tree, start, rel);
    }
  }

  lemma ApplicableNow(tree: map<Path, Node>, start: map<Path, Node>, changes: seq<FileChange>, n: nat)
    requires n < |changes|
    ensures Applicable(tree, start, changes, n) ==>
              AgreeAt(tree, start, changes[n].rel) && (!changes[n].remove ==> IsDir(tree, Parent(changes[n].rel)))
  {
  }

  lemma ApplicableLater(before: map<Path, Node>, after: map<Path, Node>, start: map<Path, Node>,
                        changes: seq<FileChange>, n: nat, c: FileChange)
    requires n < |changes| && OnlyAt(after, before, {changes[n].rel}) && DirsKept(after, before)
    requires c.rel == changes[n].rel
    ensures RelsApart(changes) && Applicable(before, start, changes, n) ==>
              RelsApart(changes[n := c]) && Applicable(after, start, changes[n := c], n + 1)
  {
    if RelsApart(changes) && Applicable(before, start, changes, n) {
      var more := changes[n := c];
      forall i | n + 1 <= i < |more|
        ensures AgreeAt(after, start, more[i].rel) && (!more[i].remove ==> IsDir(after, Parent(more[i].rel)))
      {
        assert AgreeAt(after, before, changes[i].rel) && changes[i].rel != changes[n].rel;
      }
    }
  }

  /** No directory of u is missing or different in t. */
  ghost predicate DirsKept(t: map<Path, Node>, u: map<Path, Node>) {
    forall p :: p in u && u[p].Dir? ==> p in t && t[p] == u[p]
  }

  lemma DirsKeptTrans(t: map<Path, Node>, u: map<Path, Node>, v: map<Path, Node>)
    requires DirsKept(t, u) && DirsKept(u, v)
    ensures DirsKept(t, v)
  {
  }

  lemma DirsKeptAt(t: map<Path, Node>, u: map<Path, Node>, start: map<Path, Node>, c: FileChange, base: nat)
    requires OnlyAt(t, u, {c.rel}) && Prepared(start, c, base) && AgreeAt(u, start, c.rel)
    ensures DirsKept(t, u)
  {
    forall p | p in u && u[p].Dir?
      ensures p in t && t[p] == u[p]
    {
      assert p != c.rel ==> AgreeAt(t, u, p);
    }
  }

  /** No file of u is missing or different in t. */
  ghost predicate FilesKept(t: map<Path, Node>, u: map<Path, Node>) {
    forall p :: p in u && !u[p].Dir? ==> p in t && t[p] == u[p]
  }

  lemma OldDirectory(tree: map<Path, Node>, start: map<Path, Node>, base: nat, created: seq<Path>, p: Path)
    requires OldKept(tree, start, base, created) && p in tree && tree[p].Dir? && p !in created
    ensures p in start && start[p] == tree[p] && FilesKept(tree - {p}, tree)
  {
  }

  lemma FilesKeptSelf(t: map<Path, Node>)
    ensures FilesKept(t, t)
  {
  }

  lemma FilesKeptTrans(t: map<Path, Node>, u: map<Path, Node>, v: map<Path, Node>)
    requires FilesKept(t, u) && FilesKept(u, v)
    ensures FilesKept(t, v)
  {
  }

  /** Removing a directory that is no deeper takes no child from one pruned before. */
  lemma PrunedKept(before: map<Path, Node>, after: map<Path, Node>, p: Path, rel: Path)
    requires Pruned(before, p) && |rel| <= |p|
    requires after == before || after == before - {rel}
    ensures Pruned(after, p)
  {
    if p in after && after[p].Dir? {
      var q :| q in before && q != [] && Parent(q) == p;
      assert q in after;
    }
  }

  /** Backing a change up keeps what it plans; a removal is skipped only for changed content. */
  ghost predicate SamePlan(planned: FileChange, c: FileChange, start: map<Path, Node>, digest: Content -> Digest) {
    && c.rel == planned.rel && c.source == planned.source && c.remove == planned.remove &&
       c.expected == planned.expected
    && (c.skip ==> c.remove && c.rel in start && start[c.rel].File? && digest(start[c.rel].content) != c.expected)
  }

  lemma FreshLeak(leak: set<Path>, temps: nat, temps': nat, tree: map<Path, Node>)
    requires temps <= temps' && (forall p :: p in tree ==> Known(p, temps'))
    requires forall q :: q in leak ==> !Known(q, temps')
    ensures forall q :: q in leak ==> !Known(q, temps) && q !in tree
  {
    forall q | q in leak
      ensures !Known(q, temps)
    {
      KnownGrows(q, temps, temps');
    }
  }

  lemma OldKeptRemoval(tree: map<Path, Node>, start: map<Path, Node>, base: nat, created: seq<Path>, p: Path)
    requires OldKept(tree, start, base, created)
    ensures OldKept(tree - {p}, start, base, created) && OnlyAt(tree - {p}, tree, {p})
  {
  }

  lemma OldKeptInstall(tree: map<Path, Node>, tree': map<Path, Node>, start: map<Path, Node>, base: nat,
                       created: seq<Path>, p: Path)
    requires OldKept(tree, start, base, created) && OnlyAt(tree', tree, {p})
    requires p in tree' && tree'[p].File? && tree'[p].ino >= base
    ensures OldKept(tree', start, base, created)
  {
    forall q | q in tree' && q != p
      ensures q in tree && tree'[q] == tree[q]
    {
      assert AgreeAt(tree', tree, q);
    }
  }

  lemma FirstMark(log: seq<map<Path, Node>>, tree: map<Path, Node>, temps: nat, m: Mark)
    requires m.log == log && m.tree == tree && m.temps == temps
    ensures SinceMark(log, tree, temps, m)
  {
  }

  lemma ManifestKnown(temps: nat)
    ensures Known(MANIFEST, temps)
  {
  }

  lemma PlanMay(entries: seq<Entry>, previous: Manifest, current: Manifest, temps: nat, m: Mark, start: map<Path, Node>,
                digest: Content -> Digest)
    requires Plan(entries, previous, current, temps) && m.at == Changeable(entries, previous, current, start, digest)
    ensures forall p :: p in m.at ==> MayChange(m, p) && Known(p, temps)
    ensures MANIFEST !in m.at
    ensures forall e :: e in entries ==> Known(e.rel, temps) && (e.rel in start || MayChange(m, e.rel))
    ensures forall e :: e in entries && e.dir && e.rel != [] ==> e.rel in current.directories
    ensures forall d :: d in previous.directories ==>
              d != [] && (IsFile(start, d) || MayChange(m, d)) && Known(d, temps)
  {
    hide Known;
  }

  /** While the manifest is not among the changeable paths, no tree shows another one. */
  lemma ManifestKept(log: seq<map<Path, Node>>, tree: map<Path, Node>, temps: nat, m: Mark)
    requires SinceMark(log, tree, temps, m) && MANIFEST !in m.at
    ensures forall k :: |m.log| <= k < |log| ==> AgreeAt(log[k], m.tree, MANIFEST)
    ensures m.log <= log && AgreeAt(tree, m.tree, MANIFEST)
  {
    ManifestKnown(m.temps);
  }

  /** Whenever only those paths may have changed, a missing file of the start is a justified one. */
  lemma ChangeableJustifies(tree: map<Path, Node>, m: Mark, entries: seq<Entry>, previous: Manifest, current: Manifest,
                            digest: Content -> Digest)
    requires AgreeOff(tree, m.tree, m.at, m.temps) && forall p :: p in m.tree ==> Known(p, m.temps)
    requires m.at == Changeable(entries, previous, current, m.tree, digest)
    ensures GoneJustified(tree, entries, previous, current, m.tree, digest)
  {
    hide Known;
    forall p | p in m.tree && m.tree[p].File? && p !in tree
      ensures p in m.at
    {
      assert p !in m.at ==> AgreeAt(tree, m.tree, p);
    }
  }

  lemma SinceJustifies(log: seq<map<Path, Node>>, tree: map<Path, Node>, temps: nat, m: Mark, entries: seq<Entry>,
                       previous: Manifest, current: Manifest, digest: Content -> Digest)
    requires SinceMark(log, tree, temps, m) && forall p :: p in m.tree ==> Known(p, m.temps)
    requires m.at == Changeable(entries, previous, current, m.tree, digest)
    ensures GoneJustified(tree, entries, previous, current, m.tree, digest)
    ensures forall k :: |m.log| <= k < |log| ==> GoneJustified(log[k], entries, previous, current, m.tree, digest)
  {
    hide Known, AgreeOff, GoneJustified;
    ChangeableJustifies(tree, m, entries, previous, current, digest);
    forall k | |m.log| <= k < |log|
      ensures GoneJustified(log[k], entries, previous, current, m.tree, digest)
    {
      ChangeableJustifies(log[k], m, entries, previous, current, digest);
    }
  }

  /** While only the manifest changes, no other file goes. */
  lemma ManifestJustifies(log: seq<map<Path, Node>>, tree: map<Path, Node>, temps: nat, m: Mark, entries: seq<Entry>,
                          previous: Manifest, current: Manifest, start: map<Path, Node>, digest: Content -> Digest)
    requires SinceMark(log, tree, temps, m) && m.at == {MANIFEST} && forall p :: p in start ==> Known(p, m.temps)
    requires GoneJustified(m.tree, entries, previous, current, start, digest)
    ensures GoneJustified(tree, entries, previous, current, start, digest)
    ensures forall k :: |m.log| <= k < |log| ==> GoneJustified(log[k], entries, previous, current, start, digest)
  {
    hide Known;
    assert forall p :: p in start && p != MANIFEST ==> AgreeAt(tree, m.tree, p);
    forall k | |m.log| <= k < |log|
      ensures GoneJustified(log[k], entries, previous, current, start, digest)
    {
      assert forall p :: p in start && p != MANIFEST ==> AgreeAt(log[k], m.tree, p);
    }
  }

  lemma SameWorkCovers(a: seq<FileChange>, b: seq<FileChange>, entries: seq<Entry>, previous: Manifest,
                       current: Manifest, start: map<Path, Node>, digest: Content -> Digest)
    requires SameWork(b, a) && Covers(a, entries, previous, current, start, digest)
    ensures Covers(b, entries, previous, current, start, digest)
  {
    forall e | e in entries && !e.dir
      ensures exists i :: 0 <= i < |b| && !b[i].remove && b[i].rel == e.rel && b[i].source == e.staged
    {
      var i :| 0 <= i < |a| && !a[i].remove && a[i].rel == e.rel && a[i].source == e.staged;
      assert !b[i].remove && b[i].rel == e.rel && b[i].source == e.staged;
    }
    forall f | f in previous.files && Eligible(f, current, start, digest)
      ensures exists i :: 0 <= i < |b| && b[i].remove && b[i].rel == f.path
    {
      var i :| 0 <= i < |a| && a[i].remove && a[i].rel == f.path;
      assert b[i].remove && b[i].rel == f.path;
    }
  }

  lemma FilesDoneAfterPruning(before: map<Path, Node>, after: map<Path, Node>, entries: seq<Entry>, previous: Manifest,
                              current: Manifest, start: map<Path, Node>, digest: Content -> Digest)
    requires FilesDone(before, entries, previous, current, start, digest)
    requires FilesKept(after, before) && forall p :: p in after ==> AgreeAt(after, before, p)
    ensures FilesDone(after, entries, previous, current, start, digest)
  {
  }

  lemma JustifiedAfterPruning(before: map<Path, Node>, after: map<Path, Node>, start: map<Path, Node>, base: nat,
                              created: seq<Path>, changes: seq<FileChange>, temps: nat, previous: Manifest,
                              current: Manifest, digest: Content -> Digest)
    requires OnlyRemoved(before, start, changes) && AllSound(changes, start, base, temps, previous, current, digest)
    requires OldKept(before, start, base, created) && FilesKept(after, before)
    ensures forall p :: p in start && start[p].File? && p !in after ==>
              exists f :: f in previous.files && f.path == p && Eligible(f, current, start, digest)
  {
    hide Known, Prepared;
    forall p | p in start && start[p].File? && p !in after
      ensures exists f :: f in previous.files && f.path == p && Eligible(f, current, start, digest)
    {
      assert p !in before;
      var i :| 0 <= i < |changes| && changes[i].remove && changes[i].rel == p;
      assert Sound(changes[i], start, base, temps, previous, current, digest);
    }
  }

  /** Once the files are done, changing the manifest alone keeps them done in every later tree. */
  lemma DoneSince(log: seq<map<Path, Node>>, tree: map<Path, Node>, temps: nat, m: Mark, entries: seq<Entry>,
                  previous: Manifest, current: Manifest, start: map<Path, Node>, temps0: nat, digest: Content -> Digest)
    requires SinceMark(log, tree, temps, m) && m.at == {MANIFEST} && temps0 <= m.temps
    requires Plan(entries, previous, current, temps0)
    requires FilesDone(m.tree, entries, previous, current, start, digest)
    ensures FilesDone(tree, entries, previous, current, start, digest)
    ensures forall k :: |m.log| <= k < |log| ==> FilesDone(log[k], entries, previous, current, start, digest)
    ensures m.log <= log
  {
    DoneOff(tree, m, entries, previous, current, start, temps0, digest);
    forall k | |m.log| <= k < |log|
      ensures FilesDone(log[k], entries, previous, current, start, digest)
    {
      DoneOff(log[k], m, entries, previous, current, start, temps0, digest);
    }
  }

  lemma DoneOff(tree: map<Path, Node>, m: Mark, entries: seq<Entry>, previous: Manifest, current: Manifest,
                start: map<Path, Node>, temps0: nat, digest: Content -> Digest)
    requires AgreeOff(tree, m.tree, m.at, m.temps) && m.at == {MANIFEST} && temps0 <= m.temps
    requires Plan(entries, previous, current, temps0)
    requires FilesDone(m.tree, entries, previous, current, start, digest)
    ensures FilesDone(tree, entries, previous, current, start, digest)
  {
    forall p | Known(p, temps0) && p != MANIFEST
      ensures AgreeAt(tree, m.tree, p)
    {
      KnownGrows(p, temps0, m.temps);
    }
    hide Known;
    assert forall e :: e in entries && !e.dir ==> AgreeAt(tree, m.tree, e.rel);
    assert forall f :: f in previous.files ==> AgreeAt(tree, m.tree, f.path);
  }

  lemma NoneRemoved(tree: map<Path, Node>, start: map<Path, Node>, changes: seq<FileChange>)
    requires start.Keys <= tree.Keys
    ensures OnlyRemoved(tree, start, changes)
  {
  }

  lemma BareManifest(planned: FileChange, source: Staged, start: map<Path, Node>, digest: Content -> Digest)
    requires SamePlan(NewChange(MANIFEST, source, false, ""), planned, start, digest)
    ensures planned.rel == MANIFEST
  {
  }

  lemma StartIsKnown(tree: map<Path, Node>, leak: set<Path>, start: map<Path, Node>, temps: nat, j: Journal,
                     temps': nat)
    requires Recoverable(tree, leak, start, temps, j) && temps <= temps'
    ensures forall p :: p in start ==> Known(p, temps')
  {
    forall p | p in start
      ensures Known(p, temps')
    {
      KnownGrows(p, temps, temps');
    }
  }

  lemma ManifestInstalled(tree: map<Path, Node>, planned: FileChange, published: FileChange, start: map<Path, Node>,
                          base: nat, source: Staged, digest: Content -> Digest)
    requires SamePlan(NewChange(MANIFEST, source, false, ""), planned, start, digest)
    requires published == planned.(skip := published.skip, installed := published.installed)
    requires Prepared(start, published, base) && DoneAt(tree, published, base)
    ensures Installed(tree, MANIFEST, source)
  {
  }

  lemma AfterManifest(before: map<Path, Node>, after: map<Path, Node>, previous: Manifest, current: Manifest,
                      temps: nat, entries: seq<Entry>)
    requires OnlyAt(after, before, {MANIFEST}) && Plan(entries, previous, current, temps) && MANIFEST in after
    ensures forall p :: p in before ==> p in after
    ensures forall d :: d in previous.directories && Pruned(before, d) ==> Pruned(after, d)
  {
    hide Known;
    forall p | p in before
      ensures p in after
    {
      assert p != MANIFEST ==> AgreeAt(after, before, p);
    }
    forall d | d in previous.directories && Pruned(before, d)
      ensures Pruned(after, d)
    {
      assert AgreeAt(after, before, d);
      if d in after && after[d].Dir? {
        var q :| q in before.Keys && q != [] && Parent(q) == d;
        assert q in after.Keys;
      }
    }
  }

  lemma EntryDirectories(made: map<Path, Node>, filesDone: map<Path, Node>, pruned: map<Path, Node>,
                         start: map<Path, Node>, entries: seq<Entry>, previous: Manifest, current: Manifest, temps: nat)
    requires Plan(entries, previous, current, temps) && DirsThere(made, start, entries)
    requires DirsKept(filesDone, made)
    requires forall p :: p in pruned ==> AgreeAt(pruned, filesDone, p)
    requires forall p :: p in filesDone && p !in pruned ==> p !in current.directories && p in previous.directories
    ensures DirsThere(pruned, start, entries)
  {
    hide Known;
    forall e | e in entries && e.dir && e.rel != []
      ensures IsDir(pruned, e.rel) && pruned[e.rel] == made[e.rel]
    {
      assert IsDir(made, e.rel);
      assert e.rel in pruned;
      assert AgreeAt(pruned, filesDone, e.rel);
    }
  }

  /** The first entry that makes its directory. */
  predicate FirstDir(entries: seq<Entry>, k: nat)
    requires k < |entries|
  {
    && entries[k].dir && entries[k].rel != []
    && forall j :: 0 <= j < k && entries[j].dir ==> entries[j].rel != entries[k].rel
  }

  /** New directories have the staged mode; those of the start are as they were. */
  predicate DirAsStaged(tree: map<Path, Node>, start: map<Path, Node>, e: Entry) {
    e.rel in tree && tree[e.rel] == if e.rel in start then start[e.rel] else Dir(e.staged.mode)
  }

  /**
   Every staged directory is there: with the mode its first entry was staged with if it was not there at the start, and
   as it was if it was.
   */
  ghost predicate DirsThere(tree: map<Path, Node>, start: map<Path, Node>, entries: seq<Entry>) {
    && (forall e :: e in entries && e.dir && e.rel != [] ==> IsDir(tree, e.rel))
    && (forall k :: 0 <= k < |entries| && FirstDir(entries, k) ==> DirAsStaged(tree, start, entries[k]))
  }

  lemma FirstBefore(entries: seq<Entry>, n: nat, k: nat)
    requires k < n <= |entries|
    ensures FirstDir(entries[..n], k) == FirstDir(entries, k)
  {
    assert forall j :: 0 <= j <= k ==> entries[..n][j] == entries[j];
  }

  /** What the first entry of a directory finds or makes. */
  lemma FirstMakes(before: map<Path, Node>, after: map<Path, Node>, start: map<Path, Node>, entries: seq<Entry>, n: nat)
    requires n < |entries| && FirstDir(entries, n) && GrownBy(before, start, entries[..n])
    requires IsDir(after, entries[n].rel)
    requires after == before || (entries[n].rel !in before &&
                                 after == before[entries[n].rel := Dir(entries[n].staged.mode)])
    ensures DirAsStaged(after, start, entries[n])
  {
    var rel := entries[n].rel;
    assert forall e :: e in entries[..n] && e.dir ==> e.rel != rel;
    if rel in start {
      assert AgreeAt(before, start, rel);
    }
  }

  lemma DirsThereMore(before: map<Path, Node>, after: map<Path, Node>, start: map<Path, Node>, entries: seq<Entry>,
                      n: nat)
    requires n < |entries| && entries[n].dir && IsDir(after, entries[n].rel)
    requires GrownBy(before, start, entries[..n]) && DirsThere(before, start, entries[..n])
    requires after == before || (entries[n].rel !in before &&
                                 after == before[entries[n].rel := Dir(entries[n].staged.mode)])
    ensures DirsThere(after, start, entries[..n + 1])
  {
    hide FirstDir, GrownBy;
    var more := entries[..n + 1];
    assert more == entries[..n] + [entries[n]];
    forall k | 0 <= k < |more| && FirstDir(more, k)
      ensures DirAsStaged(after, start, more[k])
    {
      FirstBefore(entries, n + 1, k);
      if k < n {
        FirstBefore(entries, n, k);
        assert DirAsStaged(before, start, entries[..n][k]);
      } else {
        FirstMakes(before, after, start, entries, n);
      }
    }
  }

  lemma DirsThereSkip(tree: map<Path, Node>, start: map<Path, Node>, entries: seq<Entry>, n: nat)
    requires n < |entries| && (!entries[n].dir || entries[n].rel == []) && DirsThere(tree, start, entries[..n])
    ensures DirsThere(tree, start, entries[..n + 1])
  {
    hide DirAsStaged;
    var more := entries[..n + 1];
    assert more == entries[..n] + [entries[n]];
    forall k | 0 <= k < |more| && FirstDir(more, k)
      ensures DirAsStaged(tree, start, more[k])
    {
      FirstBefore(entries, n + 1, k);
      FirstBefore(entries, n, k);
      assert DirAsStaged(tree, start, entries[..n][k]);
    }
  }

  lemma DirsStay(before: map<Path, Node>, after: map<Path, Node>, start: map<Path, Node>, entries: seq<Entry>,
                 previous: Manifest, current: Manifest, temps: nat)
    requires Plan(entries, previous, current, temps) && OnlyAt(after, before, {MANIFEST})
    requires DirsThere(before, start, entries)
    ensures DirsThere(after, start, entries)
  {
    hide Known;
    assert forall e :: e in entries ==> AgreeAt(after, before, e.rel);
  }

  /**
   The restoration promise fails without any call to undo or clean up failing: here the one call that fails is the close
   of the source after the manifest's temporary file was prepared. The publication counts as not touched, and the tree
   has a file it did not have before.
   */
  method LeakSurvivesPublish() returns (fs: FileSystem, ghost start: map<Path, Node>, touched: bool, applied: bool)
    ensures start == map[[] := Dir(0x1ed)] && !applied && !touched
    ensures Seen(fs.tree, {}) != Seen(start, {})
    ensures forall k :: fs.faults(k) <==> k == 11
  {
    hide FilesDone, PrepareRun, InstallRun, Recoverable, OldKept, Seen, DirsThere, Installed;
    fs := new FileSystem(map[[] := Dir(0x1ed)], 0, 0, k => k == 11, _ => "");
    start := fs.tree;
    var t := new Transaction(fs, content => content);
    SourceCloseFails(fs.faults);
    var rolledBack;
    ghost var turned;
    touched, applied, rolledBack, turned := t.Publish([], Manifest([], []), Manifest([], []), Staged("{}", 0x1a4));
  }

  lemma SourceCloseFails(f: nat -> bool)
    requires forall k :: f(k) <==> k == 11
    ensures !PrepareRun(f, 3, true).ok && InstallRun(f, Try(3, true, false, false)).left
  {
  }
}

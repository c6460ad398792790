/**
 Installing one output file: prepare a temporary file beside the destination, move it into place by link,
 exclusive copy, rename or (on systems that cannot rename onto a file) remove and rename, then clean up.
 */
module Install {
  import opened Options
  import opened FileSystem

  /** A file outside the published tree: a staged output, or the backup of an overwritten one. */
  datatype Staged = Staged(content: Content, mode: nat)

  /** A point in a publication: what every later tree is compared with, and where it may differ. */
  datatype Mark = Mark(log: seq<map<Path, Node>>, tree: map<Path, Node>, at: set<Path>, temps: nat)

  /** The tree, and every tree logged since the mark, agrees with the marked tree off `at` and fresh temporary names. */
  ghost predicate SinceMark(log: seq<map<Path, Node>>, tree: map<Path, Node>, temps: nat, m: Mark) {
    && m.log <= log && m.temps <= temps
    && AgreeOff(tree, m.tree, m.at, m.temps)
    && forall k :: |m.log| <= k < |log| ==> AgreeOff(log[k], m.tree, m.at, m.temps)
  }

  ghost predicate Since(fs: FileSystem, m: Mark)
    reads fs
  {
    SinceMark(fs.log, fs.tree, fs.temps, m)
  }

  lemma SinceStep(log: seq<map<Path, Node>>, tree: map<Path, Node>, temps: nat, m: Mark, tree': map<Path, Node>,
                  p: Path)
    requires SinceMark(log, tree, temps, m) && MayChange(m, p) && OnlyAt(tree', tree, {p})
    ensures SinceMark(log + [tree'], tree', temps, m)
  {
    hide Known;
    forall q | q !in m.at && Known(q, m.temps)
      ensures AgreeAt(tree', m.tree, q)
    {
      assert AgreeAt(tree', tree, q) && AgreeAt(tree, m.tree, q);
    }
  }

  predicate MayChange(m: Mark, p: Path) {
    p in m.at || !Known(p, m.temps)
  }

  // ----- what a schedule of faults makes of an installation -----

  /** Whether it succeeds, whether its temporary file is left in the tree, and the number of the next call. */
  datatype Run = Run(ok: bool, left: bool, clock: nat)

  /** The first failing call among the n calls from k on, or k + n. */
  function FirstFault(f: nat -> bool, k: nat, n: nat): (j: nat)
    ensures k <= j <= k + n && (j < k + n ==> f(j))
    ensures forall i :: k <= i < j ==> !f(i)
    decreases n
  {
    if n == 0 || f(k) then k else FirstFault(f, k + 1, n - 1)
  }

  /** Inspecting the temporary file and removing it, from call k on. */
  function CleanRun(f: nat -> bool, k: nat, there: bool): Run {
    if !there || f(k) then Run(!f(k), there, k + 1) else Run(!f(k + 1), f(k + 1), k + 2)
  }

  /** Stating the new temporary file, copying, changing its mode, stating it again and closing it, from call k on. */
  function FillRun(f: nat -> bool, k: nat): Run {
    if f(k) then Run(false, f(k + 2), k + 3)
    else
      var j := FirstFault(f, k + 1, 4);
      if j < k + 5 then
        var clean := CleanRun(f, j + 2, true);
        Run(false, clean.left, clean.clock)
      else Run(true, true, k + 5)
  }

  /**
   Preparing, from call k on: open and stat the source, create the temporary file and stat it, copy, change mode, stat
   and close it, and last of all close the source. By then the temporary file counts as handed over, so nobody removes
   it when that close fails.
   */
  function PrepareRun(f: nat -> bool, k: nat, dir: bool): Run {
    if f(k) then Run(false, false, k + 1)
    else if f(k + 1) then Run(false, false, k + 3)
    else if f(k + 2) || !dir then Run(false, false, k + 4)
    else
      var filled := FillRun(f, k + 3);
      Run(filled.ok && !f(filled.clock), filled.left, filled.clock + 1)
  }

  function CopyIntoRun(f: nat -> bool, k: nat): Run {
    if f(k) then Run(false, true, k + 3)
    else
      var j := FirstFault(f, k + 1, 2);
      if j < k + 3 then Run(false, true, j + 3) else Run(!f(k + 3) && !f(k + 4), true, k + 5)
  }

  /** The copy to a destination that is free: the temporary file stays where it is. */
  function CopyRun(f: nat -> bool, k: nat): Run {
    if f(k) then Run(false, true, k + 1)
    else if f(k + 1) then Run(false, true, k + 3)
    else if f(k + 2) then Run(false, true, k + 4)
    else if f(k + 3) then Run(false, true, k + 5)
    else CopyIntoRun(f, k + 4)
  }

  /** Moving the prepared file into place; only a rename takes the temporary file away. */
  function PlaceRun(f: nat -> bool, k: nat, exists_: bool, replacing: bool): Run {
    if replacing then
      if !f(k) then Run(!f(k + 1), false, k + 2)
      else if f(k + 1) || !exists_ then Run(false, true, k + 2)
      else if f(k + 2) then Run(false, true, k + 3)
      else Run(!f(k + 3), false, k + 4)
    else if !exists_ && !f(k) then Run(!f(k + 1), true, k + 2)
    else if exists_ || f(k + 1) then Run(false, true, k + 2)
    else CopyRun(f, k + 2)
  }

  /**
   A whole installation: its first call, whether its directory is there, whether its destination is, and how it
   replaces.
   */
  datatype Try = Try(clock: nat, dir: bool, exists_: bool, replacing: bool)

  function InstallRun(f: nat -> bool, t: Try): Run {
    var prepared := PrepareRun(f, t.clock, t.dir);
    if !prepared.ok then prepared
    else
      var placed := PlaceRun(f, prepared.clock, t.exists_, t.replacing);
      var clean := CleanRun(f, placed.clock, placed.left);
      Run(placed.ok && clean.ok, clean.left, clean.clock)
  }

  lemma UnpreparedFails(f: nat -> bool, t: Try)
    ensures var prepared := PrepareRun(f, t.clock, t.dir);
            !prepared.ok ==> InstallRun(f, t) == prepared
  {
  }

  /** A successful installation leaves no temporary file. */
  lemma SuccessLeavesNothing(f: nat -> bool, t: Try)
    ensures InstallRun(f, t).ok ==> !InstallRun(f, t).left
  {
  }

  /**
   When a single call fails, a new file's installation leaves its temporary file exactly if that call is the close of
   the source, the inspection before the cleanup, or the cleanup itself; a replacement, only if it is the close of the
   source.
   */
  lemma OneFaultLeaves(f: nat -> bool, k: nat, i: nat)
    requires k <= i && forall j :: k <= j ==> (f(j) <==> j == i)
    ensures InstallRun(f, Try(k, true, false, false)).left <==> i in {k + 8, k + 11, k + 12}
    ensures InstallRun(f, Try(k, true, true, true)).left <==> i == k + 8
  {
    if i == k + 9 {
      assert FirstFault(f, k + 16, 2) == k + 18;
    }
  }

  /** No call from k on fails. */
  ghost predicate Quiet(f: nat -> bool, k: nat) {
    forall j :: k <= j ==> !f(j)
  }

  /** Where no call fails and the directory is there, an installation succeeds, by link or by renaming over a file. */
  lemma QuietInstalls(f: nat -> bool, t: Try)
    ensures Quiet(f, t.clock) && t.dir && t.exists_ == t.replacing ==>
            InstallRun(f, t).ok && InstallRun(f, t).clock > t.clock && PrepareRun(f, t.clock, t.dir).ok
  {
  }

  // ----- the steps -----

  /** Removes the temporary file if it is still the one prepared. */
  method RemoveIfSame(fs: FileSystem, temp: Path, ino: nat, ghost m: Mark) returns (ok: bool)
    requires fs.Valid() && Since(fs, m) && MayChange(m, temp)
    modifies fs`clock, fs`tree, fs`log
    ensures fs.clock >= old(fs.clock) && fs.Valid() && Since(fs, m)
    ensures OnlyAt(fs.tree, old(fs.tree), {temp}) && fs.tree.Keys <= old(fs.tree).Keys
    ensures ok ==> temp !in fs.tree
    ensures temp in old(fs.tree) ==> old(fs.tree)[temp].File? && old(fs.tree)[temp].ino == ino ==>
            CleanRun(fs.faults, old(fs.clock), true) == Run(ok, temp in fs.tree, fs.clock)
    ensures temp !in old(fs.tree) ==> CleanRun(fs.faults, old(fs.clock), false) == Run(ok, temp in fs.tree, fs.clock)
  {
    hide Known, Rooted;
    var stat := fs.Lstat(temp);
    match stat
    case Missing => return true;
    case Failed => return false;
    case Found(node) =>
      if !node.File? || node.ino != ino {
        return false;
      }
      var removed := fs.Remove(temp);
      return removed == Done;
  }

  lemma FreshTemp(dir: Path, temps: nat)
    ensures !Known(dir + [Temp(temps)], temps)
  {
    assert (dir + [Temp(temps)])[|dir|] == Temp(temps);
  }

  /** Copies the staged file to a fresh temporary file in dir; on most failures it tries to remove what it created. */
  method Prepare(fs: FileSystem, source: Staged, dir: Path, ghost m: Mark) returns (ok: bool, temp: Path, ino: nat)
    requires fs.Valid() && Known(dir, fs.temps) && Since(fs, m)
    modifies fs
    ensures fs.clock >= old(fs.clock) && fs.Valid() && Since(fs, m) && fs.nextIno >= old(fs.nextIno)
    ensures fs.temps >= old(fs.temps)
    ensures temp == dir + [Temp(old(fs.temps))] && temp !in old(fs.tree) && !Known(temp, old(fs.temps))
    ensures OnlyAt(fs.tree, old(fs.tree), {temp})
    ensures ok ==> temp in fs.tree && fs.tree[temp] == File(ino, source.content, source.mode)
                   && old(fs.nextIno) <= ino < fs.nextIno
    ensures PrepareRun(fs.faults, old(fs.clock), IsDir(old(fs.tree), dir)) == Run(ok, temp in fs.tree, fs.clock)
  {
    hide Rooted;
    temp, ino := dir + [Temp(fs.temps)], 0;
    FreshTemp(dir, fs.temps);
    assert temp !in fs.tree;
    assert MayChange(m, temp) by {
      KnownGrows(temp, m.temps, fs.temps);
    }
    hide Known, FillRun;
    ok := fs.Call();
    if !ok {
      return;
    }
    ok := fs.Call();
    if !ok {
      var _ := fs.Call();
      return;
    }
    var created: Option<nat>;
    temp, created := fs.CreateTemp(dir);
    if created.None? {
      var _ := fs.Call();
      return false, temp, 0;
    }
    ino := created.value;
    ok := FillTemp(fs, source, temp, m);
    var closed := fs.Call();
    ok := ok && closed;
  }

  /**
   Everything between creating the temporary file and closing the source; the file stays only if this fails to remove
   it.
   */
  method FillTemp(fs: FileSystem, source: Staged, temp: Path, ghost m: Mark) returns (ok: bool)
    requires fs.Valid() && Since(fs, m) && MayChange(m, temp) && IsFile(fs.tree, temp)
    modifies fs`clock, fs`tree, fs`log
    ensures fs.clock >= old(fs.clock) && fs.Valid() && Since(fs, m) && OnlyAt(fs.tree, old(fs.tree), {temp})
    ensures ok ==> temp in fs.tree && fs.tree[temp] == File(old(fs.tree)[temp].ino, source.content, source.mode)
    ensures FillRun(fs.faults, old(fs.clock)) == Run(ok, temp in fs.tree, fs.clock)
  {
    hide Known, SinceMark, MayChange, Rooted, HasChild, CleanRun, FirstFault;
    ghost var start := fs.tree;
    var ino := fs.tree[temp].ino;
    ok := fs.Call();
    if !ok {
      var _ := fs.Call();
      SinceStep(fs.log, fs.tree, fs.temps, m, fs.tree - {temp}, temp);
      var _ := fs.Remove(temp);
      return;
    }
    ok := Fill(fs, source, temp, 2, m);
    if !ok {
      ghost var filled := fs.tree;
      var _ := fs.Call();
      var _ := RemoveIfSame(fs, temp, ino, m);
      OnlyAtChain(fs.tree, filled, start, {temp}, {temp});
      assert {temp} + {temp} == {temp};
    }
  }

  /** Writes content and mode to a file just created, then makes some more calls on the open file. */
  method Fill(fs: FileSystem, source: Staged, p: Path, more: nat, ghost m: Mark) returns (ok: bool)
    requires fs.Valid() && IsFile(fs.tree, p)
    requires Since(fs, m) && MayChange(m, p)
    modifies fs`clock, fs`tree, fs`log
    ensures fs.clock >= old(fs.clock) && fs.Valid() && Since(fs, m)
    ensures IsFile(fs.tree, p) && fs.tree[p].ino == old(fs.tree)[p].ino
    ensures OnlyAt(fs.tree, old(fs.tree), {p})
    ensures ok ==> fs.tree[p] == File(fs.tree[p].ino, source.content, source.mode)
    ensures var j := FirstFault(fs.faults, old(fs.clock), 2 + more);
            ok == (j == old(fs.clock) + 2 + more) && fs.clock == if ok then j else j + 1
  {
    hide Known, Rooted;
    ok := fs.Write(p, source.content);
    if !ok {
      return;
    }
    ok := fs.Chmod(p, source.mode);
    if !ok {
      return;
    }
    for n := 0 to more
      invariant fs.Valid() && Since(fs, m) && ok
      invariant IsFile(fs.tree, p) && fs.tree[p] == File(old(fs.tree)[p].ino, source.content, source.mode)
      invariant OnlyAt(fs.tree, old(fs.tree), {p})
      invariant fs.clock == old(fs.clock) + 2 + n
      invariant FirstFault(fs.faults, old(fs.clock), 2 + more) >= fs.clock
    {
      ok := fs.Call();
      if !ok {
        return;
      }
    }
  }

  /** Copies the temporary file to a destination that must not exist yet. */
  method CopyExclusive(fs: FileSystem, source: Staged, dest: Path, ghost m: Mark)
      returns (applied: bool, installed: Option<nat>, ok: bool)
    requires fs.Valid() && Known(dest, fs.temps) && Since(fs, m) && MayChange(m, dest)
    modifies fs`clock, fs`tree, fs`nextIno, fs`log
    ensures fs.clock >= old(fs.clock) && fs.Valid() && Since(fs, m) && fs.nextIno >= old(fs.nextIno)
    ensures OnlyAt(fs.tree, old(fs.tree), {dest})
    ensures !applied ==> fs.tree == old(fs.tree) && installed.None? && !ok
    ensures installed.Some? ==> dest in fs.tree && fs.tree[dest].File?
                                && fs.tree[dest].ino == installed.value >= old(fs.nextIno)
    ensures ok ==> applied && installed.Some? && fs.tree[dest] == File(installed.value, source.content, source.mode)
    ensures dest !in old(fs.tree) && IsDir(old(fs.tree), Parent(dest)) ==>
              CopyRun(fs.faults, old(fs.clock)) == Run(ok, true, fs.clock)
  {
    hide Known, CopyIntoRun, Rooted;
    applied, installed := false, None;
    ok := fs.Call();
    if !ok {
      return;
    }
    ok := fs.Call();
    if !ok {
      var _ := fs.Call();
      return;
    }
    ok := fs.Call();
    if !ok {
      var _ := fs.Call();
      return;
    }
    var ino := fs.Create(dest, source.mode);
    if ino.None? {
      var _ := fs.Call();
      return false, None, false;
    }
    applied := true;
    var known;
    known, ok := CopyInto(fs, source, dest, m);
    installed := if known then ino else None;
  }

  /** From the first look at the new file to closing both. */
  method CopyInto(fs: FileSystem, source: Staged, dest: Path, ghost m: Mark) returns (known: bool, ok: bool)
    requires fs.Valid() && IsFile(fs.tree, dest) && Since(fs, m) && MayChange(m, dest)
    modifies fs`clock, fs`tree, fs`log
    ensures fs.clock >= old(fs.clock) && fs.Valid() && Since(fs, m) && OnlyAt(fs.tree, old(fs.tree), {dest})
    ensures IsFile(fs.tree, dest) && fs.tree[dest].ino == old(fs.tree)[dest].ino
    ensures ok ==> known && fs.tree[dest] == File(fs.tree[dest].ino, source.content, source.mode)
    ensures CopyIntoRun(fs.faults, old(fs.clock)) == Run(ok, true, fs.clock)
  {
    hide Known, Rooted;
    ok := fs.Call();
    known := ok;
    if !ok {
      var _ := fs.Call();
      var _ := fs.Call();
      return;
    }
    ok := Fill(fs, source, dest, 0, m);
    var outputClosed := fs.Call();
    var inputClosed := fs.Call();
    ok := ok && outputClosed && inputClosed;
  }

  /** Moves the prepared file into place. */
  method Place(fs: FileSystem, temp: Path, source: Staged, dest: Path, replacing: bool, ghost m: Mark)
      returns (applied: bool, installed: Option<nat>, ok: bool)
    requires fs.Valid() && Known(dest, fs.temps) && Since(fs, m) && MayChange(m, temp) && MayChange(m, dest)
    requires temp != dest && temp in fs.tree && fs.tree[temp].File?
    requires source == Staged(fs.tree[temp].content, fs.tree[temp].mode)
    modifies fs`clock, fs`tree, fs`nextIno, fs`log
    ensures fs.clock >= old(fs.clock) && fs.Valid() && Since(fs, m) && fs.nextIno >= old(fs.nextIno)
    ensures OnlyAt(fs.tree, old(fs.tree), {dest, temp})
    ensures temp in fs.tree ==> fs.tree[temp] == old(fs.tree)[temp]
    ensures !applied ==> fs.tree == old(fs.tree) && installed.None? && !ok
    ensures installed.Some? ==> dest in fs.tree && fs.tree[dest].File? && fs.tree[dest].ino == installed.value
                                && (installed.value == old(fs.tree)[temp].ino || installed.value >= old(fs.nextIno))
    ensures ok ==> applied && installed.Some? && fs.tree[dest] == File(installed.value, source.content, source.mode)
    ensures IsDir(old(fs.tree), Parent(dest)) && FileOrFree(old(fs.tree), dest) ==>
              PlaceRun(fs.faults, old(fs.clock), dest in old(fs.tree), replacing) == Run(ok, temp in fs.tree, fs.clock)
  {
    hide Known, CopyRun, Rooted;
    if !replacing {
      var linked := fs.Link(temp, dest);
      var stat := fs.Lstat(dest);
      if linked {
        return true, if stat.Found? then Some(stat.node.ino) else None, stat.Found?;
      }
      if !stat.Missing? {
        return false, None, false;
      }
      applied, installed, ok := CopyExclusive(fs, source, dest, m);
      assert AgreeAt(fs.tree, old(fs.tree), temp);
      return;
    }
    applied, installed, ok := RenameOver(fs, temp, source, dest, m);
  }

  /** The destination is free, or a file that can be replaced. */
  predicate FileOrFree(tree: map<Path, Node>, dest: Path) {
    dest in tree ==> tree[dest].File?
  }

  /** Renames the prepared file over the old one; where that is refused, the old one is removed first. */
  method RenameOver(fs: FileSystem, temp: Path, source: Staged, dest: Path, ghost m: Mark)
      returns (applied: bool, installed: Option<nat>, ok: bool)
    requires fs.Valid() && Known(dest, fs.temps) && Since(fs, m) && MayChange(m, temp) && MayChange(m, dest)
    requires temp != dest && temp in fs.tree && fs.tree[temp].File?
    requires source == Staged(fs.tree[temp].content, fs.tree[temp].mode)
    modifies fs`clock, fs`tree, fs`nextIno, fs`log
    ensures fs.clock >= old(fs.clock) && fs.Valid() && Since(fs, m) && fs.nextIno >= old(fs.nextIno)
    ensures OnlyAt(fs.tree, old(fs.tree), {dest, temp})
    ensures temp in fs.tree ==> fs.tree[temp] == old(fs.tree)[temp]
    ensures !applied ==> fs.tree == old(fs.tree) && installed.None? && !ok
    ensures installed.Some? ==> dest in fs.tree && fs.tree[dest].File? && fs.tree[dest].ino == installed.value
                                && installed.value == old(fs.tree)[temp].ino
    ensures ok ==> applied && installed.Some? && fs.tree[dest] == File(installed.value, source.content, source.mode)
    ensures IsDir(old(fs.tree), Parent(dest)) && FileOrFree(old(fs.tree), dest) ==>
              PlaceRun(fs.faults, old(fs.clock), dest in old(fs.tree), true) == Run(ok, temp in fs.tree, fs.clock)
  {
    hide Known, HasChild, SinceMark, MayChange, Rooted;
    RenameSteps(fs.log, fs.tree, fs.temps, m, temp, dest);
    var renamed := fs.Rename(temp, dest);
    if !renamed {
      var removed := fs.Remove(dest);
      if removed != Done {
        return false, None, false;
      }
      renamed := fs.Rename(temp, dest);
      if !renamed {
        return true, None, false;
      }
    }
    var stat := fs.Lstat(dest);
    return true, if stat.Found? then Some(stat.node.ino) else None, stat.Found?;
  }

  /** Moving temp onto dest, and removing dest before that, stay within the mark. */
  lemma RenameSteps(log: seq<map<Path, Node>>, tree: map<Path, Node>, temps: nat, m: Mark, temp: Path, dest: Path)
    requires SinceMark(log, tree, temps, m) && MayChange(m, temp) && MayChange(m, dest) && temp in tree && temp != dest
    ensures var moved := (tree - {temp})[dest := tree[temp]];
            && SinceMark(log + [moved], moved, temps, m)
            && SinceMark(log + [tree - {dest}], tree - {dest}, temps, m)
            && SinceMark(log + [tree - {dest}] + [moved], moved, temps, m)
            && (tree - {dest} - {temp})[dest := (tree - {dest})[temp]] == moved
  {
    hide Known, SinceMark, MayChange, Rooted;
    var moved, removed := (tree - {temp})[dest := tree[temp]], tree - {dest};
    SinceStep(log, tree, temps, m, removed, dest);
    SinceTwo(log, tree, temps, m, moved, temp, dest);
    SinceTwo(log + [removed], removed, temps, m, moved, temp, dest);
  }

  lemma SinceTwo(log: seq<map<Path, Node>>, tree: map<Path, Node>, temps: nat, m: Mark, tree': map<Path, Node>, p: Path,
                 q: Path)
    requires SinceMark(log, tree, temps, m) && MayChange(m, p) && MayChange(m, q) && OnlyAt(tree', tree, {p, q})
    ensures SinceMark(log + [tree'], tree', temps, m)
  {
    hide Known, Rooted;
    forall r | r !in m.at && Known(r, m.temps)
      ensures AgreeAt(tree', m.tree, r)
    {
      assert AgreeAt(tree', tree, r) && AgreeAt(tree, m.tree, r);
    }
  }

  lemma OnlyAtChain(t: map<Path, Node>, u: map<Path, Node>, v: map<Path, Node>, at: set<Path>, before: set<Path>)
    requires OnlyAt(t, u, at) && OnlyAt(u, v, before)
    ensures OnlyAt(t, v, at + before)
  {
    forall p | p !in at + before
      ensures AgreeAt(t, v, p)
    {
      assert AgreeAt(t, u, p) && AgreeAt(u, v, p);
    }
  }

  lemma KnownGrows(p: Path, temps: nat, temps': nat)
    requires temps <= temps'
    ensures Known(p, temps) ==> Known(p, temps')
    ensures Known(p, temps) ==> Known(Parent(p), temps)
  {
  }

  /**
   Installs source at dest. When it reports success the destination holds exactly the staged content and mode and
   nothing else changed. Otherwise `applied` says whether the destination may have changed, and `leak` holds the
   temporary file if it is still there. Which calls have to fail for that, InstallRun says.
   */
  method InstallFile(fs: FileSystem, source: Staged, dest: Path, replacing: bool, ghost m: Mark)
      returns (applied: bool, installed: Option<nat>, ok: bool, ghost leak: set<Path>)
    requires fs.Valid() && Known(dest, fs.temps) && Since(fs, m) && MayChange(m, dest)
    modifies fs
    ensures fs.clock >= old(fs.clock) && fs.Valid() && Since(fs, m) && fs.nextIno >= old(fs.nextIno)
    ensures fs.temps >= old(fs.temps)
    ensures OnlyAt(fs.tree, old(fs.tree), {dest} + leak)
    ensures forall q :: q in leak ==> !Known(q, old(fs.temps)) && q in fs.tree
    ensures !applied ==> AgreeAt(fs.tree, old(fs.tree), dest) && installed.None? && !ok
    ensures installed.Some? ==> dest in fs.tree && fs.tree[dest].File?
                                && fs.tree[dest].ino == installed.value >= old(fs.nextIno)
    ensures ok ==> applied && leak == {} && installed.Some?
                   && fs.tree[dest] == File(installed.value, source.content, source.mode)
    ensures FileOrFree(old(fs.tree), dest) ==>
              var t := Try(old(fs.clock), IsDir(old(fs.tree), Parent(dest)), dest in old(fs.tree), replacing);
              InstallRun(fs.faults, t) == Run(ok, leak != {}, fs.clock)
    ensures FileOrFree(old(fs.tree), dest) ==>
              !PrepareRun(fs.faults, old(fs.clock), IsDir(old(fs.tree), Parent(dest))).ok ==> !applied
  {
    KnownGrows(dest, fs.temps, fs.temps);
    ghost var start, temps0 := fs.tree, fs.temps;
    var prepared, temp, ino := Prepare(fs, source, Parent(dest), m);
    ghost var prep := fs.tree;
    assert MayChange(m, temp) by {
      KnownGrows(temp, m.temps, temps0);
    }
    assert AgreeAt(prep, start, dest) && (Parent(dest) in start ==> AgreeAt(prep, start, Parent(dest)));
    hide Known, PrepareRun, PlaceRun, CleanRun, Rooted;
    if prepared {
      applied, installed, ok := Place(fs, temp, source, dest, replacing, m);
      OnlyAtChain(fs.tree, prep, start, {dest, temp}, {temp});
      ghost var placed := fs.tree;
      var cleaned := RemoveIfSame(fs, temp, ino, m);
      OnlyAtChain(fs.tree, placed, start, {temp}, {dest, temp});
      assert AgreeAt(fs.tree, placed, dest);
      ok := ok && cleaned;
    } else {
      applied, installed, ok := false, None, false;
    }
    leak := if temp in fs.tree then {temp} else {};
    assert OnlyAt(fs.tree, start, {dest, temp});
    assert !applied ==> OnlyAt(fs.tree, start, {temp});
  }
}

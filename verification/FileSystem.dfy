/**
 The directory tree a publication works on: a map from relative paths to nodes, changed only by system calls.
 The k-th system call fails exactly when faults(k); a failed call changes nothing, except that a failed write
 leaves torn content behind. `log` records the tree after every call that may have changed it.
 */
module FileSystem {

  import opened Options

  type Content = string
  type Digest = string

  // Temporary names are drawn fresh: no tree or plan contains a Temp name with a number not yet handed out.
  datatype Name = Plain(text: string) | Temp(id: nat)

  type Path = seq<Name>

  datatype Node = File(ino: nat, content: Content, mode: nat) | Dir(perm: nat) | Special

  datatype Stat = Found(node: Node) | Missing | Failed

  datatype Change = Done | Exists | Absent | Refused

  function Parent(p: Path): Path {
    if p == [] then [] else p[..|p| - 1]
  }

  predicate Known(p: Path, temps: nat) {
    forall i :: 0 <= i < |p| ==> p[i].Temp? ==> p[i].id < temps
  }

  predicate HasChild(tree: map<Path, Node>, p: Path) {
    exists q | q in tree.Keys :: q != [] && Parent(q) == p
  }

  predicate IsDir(tree: map<Path, Node>, p: Path) {
    p in tree && tree[p].Dir?
  }

  predicate IsFile(tree: map<Path, Node>, p: Path) {
    p in tree && tree[p].File?
  }

  /** The root is a directory, and everything else lies in one. */
  predicate Rooted(tree: map<Path, Node>) {
    && ([] in tree ==> tree[[]].Dir?)
    && forall p {:trigger Parent(p)} :: p in tree && p != [] ==> IsDir(tree, Parent(p))
  }

  ghost predicate AgreeAt(t: map<Path, Node>, u: map<Path, Node>, p: Path) {
    (p in t <==> p in u) && (p in t ==> t[p] == u[p])
  }

  /** t and u agree outside `at`. */
  ghost predicate OnlyAt(t: map<Path, Node>, u: map<Path, Node>, at: set<Path>) {
    forall p :: p !in at ==> AgreeAt(t, u, p)
  }

  /** t and u agree outside `at` on every path free of temporary names handed out since `temps`. */
  ghost predicate AgreeOff(t: map<Path, Node>, u: map<Path, Node>, at: set<Path>, temps: nat) {
    forall p :: p !in at && Known(p, temps) ==> AgreeAt(t, u, p)
  }

  lemma RootedWithout(tree: map<Path, Node>, p: Path)
    requires Rooted(tree) && p in tree && !(tree[p].Dir? && HasChild(tree, p))
    ensures Rooted(tree - {p})
  {
    forall q | q in tree - {p} && q != []
      ensures IsDir(tree - {p}, Parent(q))
    {
      assert IsDir(tree, Parent(q)) && q in tree.Keys;
    }
  }

  class FileSystem {
    var tree: map<Path, Node>
    var clock: nat
    var nextIno: nat
    var temps: nat
    const faults: nat -> bool
    const torn: nat -> Content
    ghost var log: seq<map<Path, Node>>

    ghost predicate Valid()
      reads this
    {
      && (forall p :: p in tree ==> Known(p, temps))
      && (forall p :: p in tree && tree[p].File? ==> tree[p].ino < nextIno)
      && Rooted(tree)
    }

    constructor (tree: map<Path, Node>, nextIno: nat, temps: nat, faults: nat -> bool, torn: nat -> Content)
      requires forall p :: p in tree ==> Known(p, temps)
      requires forall p :: p in tree && tree[p].File? ==> tree[p].ino < nextIno
      requires Rooted(tree)
      ensures Valid() && this.tree == tree && this.nextIno == nextIno && this.temps == temps
      ensures clock == 0 && this.faults == faults && this.torn == torn && log == [tree]
    {
      this.tree, this.nextIno, this.temps, this.faults, this.torn := tree, nextIno, temps, faults, torn;
      clock, log := 0, [tree];
    }

    /** A call that does not change the tree: opening, reading, closing, or a hook that may refuse. */
    method Call() returns (ok: bool)
      modifies this`clock
      ensures ok == !faults(old(clock)) && clock == old(clock) + 1
    {
      ok := !faults(clock);
      clock := clock + 1;
    }

    method Lstat(p: Path) returns (r: Stat)
      modifies this`clock
      ensures clock == old(clock) + 1
      ensures r == if faults(old(clock)) then Failed else if p in tree then Found(tree[p]) else Missing
    {
      var ok := Call();
      r := if !ok then Failed else if p in tree then Found(tree[p]) else Missing;
    }

    method Mkdir(p: Path, mode: nat) returns (r: Change)
      requires Valid() && Known(p, temps)
      modifies this`clock, this`tree, this`log
      ensures Valid() && clock == old(clock) + 1
      ensures r == if faults(old(clock)) then Refused
                   else if p in old(tree) then Exists
                   else if p == [] || !IsDir(old(tree), Parent(p)) then Refused
                   else Done
      ensures r == Done ==> p !in old(tree) && tree == old(tree)[p := Dir(mode)] && log == old(log) + [tree]
      ensures r != Done ==> tree == old(tree) && log == old(log)
    {
      var ok := Call();
      if !ok {
        return Refused;
      }
      if p in tree {
        return Exists;
      }
      if p == [] || !IsDir(tree, Parent(p)) {
        return Refused;
      }
      tree := tree[p := Dir(mode)];
      log := log + [tree];
      return Done;
    }

    method Remove(p: Path) returns (r: Change)
      requires Valid()
      modifies this`clock, this`tree, this`log
      ensures Valid() && clock == old(clock) + 1
      ensures r == if faults(old(clock)) then Refused
                   else if p !in old(tree) then Absent
                   else if old(tree)[p].Dir? && HasChild(old(tree), p) then Refused
                   else Done
      ensures r == Done ==> tree == old(tree) - {p} && log == old(log) + [tree]
      ensures r != Done ==> tree == old(tree) && log == old(log)
    {
      hide Rooted, HasChild, Known;
      var ok := Call();
      if !ok {
        return Refused;
      }
      if p !in tree {
        return Absent;
      }
      if tree[p].Dir? && HasChild(tree, p) {
        return Refused;
      }
      RootedWithout(tree, p);
      tree := tree - {p};
      log := log + [tree];
      return Done;
    }

    /** Moves a file onto dest, replacing a file there. */
    method Rename(source: Path, dest: Path) returns (ok: bool)
      requires Valid() && Known(dest, temps) && source != dest
      modifies this`clock, this`tree, this`log
      ensures Valid() && clock == old(clock) + 1
      ensures ok == (!faults(old(clock)) && IsFile(old(tree), source) && !IsDir(old(tree), dest)
                     && IsDir(old(tree), Parent(dest)))
      ensures ok ==> tree == (old(tree) - {source})[dest := old(tree)[source]] && log == old(log) + [tree]
      ensures !ok ==> tree == old(tree) && log == old(log)
    {
      ok := Call();
      if !ok || !IsFile(tree, source) || IsDir(tree, dest) || !IsDir(tree, Parent(dest)) {
        return false;
      }
      tree := (tree - {source})[dest := tree[source]];
      log := log + [tree];
    }

    method Link(source: Path, dest: Path) returns (ok: bool)
      requires Valid() && Known(dest, temps)
      modifies this`clock, this`tree, this`log
      ensures Valid() && clock == old(clock) + 1
      ensures ok == (!faults(old(clock)) && IsFile(old(tree), source) && dest !in old(tree)
                     && IsDir(old(tree), Parent(dest)))
      ensures ok ==> tree == old(tree)[dest := old(tree)[source]] && log == old(log) + [tree]
      ensures !ok ==> tree == old(tree) && log == old(log)
    {
      ok := Call();
      if !ok || !IsFile(tree, source) || dest in tree || !IsDir(tree, Parent(dest)) {
        return false;
      }
      tree := tree[dest := tree[source]];
      log := log + [tree];
    }

    /** Creates an empty file at a path that does not exist. */
    method Create(p: Path, mode: nat) returns (ino: Option<nat>)
      requires Valid() && Known(p, temps)
      modifies this`clock, this`tree, this`nextIno, this`log
      ensures Valid() && clock == old(clock) + 1
      ensures ino.Some? == (!faults(old(clock)) && p !in old(tree) && IsDir(old(tree), Parent(p)))
      ensures ino.Some? ==> tree == old(tree)[p := File(ino.value, "", mode)] && log == old(log) + [tree]
                            && ino.value == old(nextIno) && nextIno == old(nextIno) + 1
      ensures ino.None? ==> tree == old(tree) && nextIno == old(nextIno) && log == old(log)
    {
      var ok := Call();
      if !ok || p in tree || !IsDir(tree, Parent(p)) {
        return None;
      }
      tree := tree[p := File(nextIno, "", mode)];
      log := log + [tree];
      nextIno := nextIno + 1;
      return Some(nextIno - 1);
    }

    /** Hands out a fresh temporary name in dir and creates an empty private file there. */
    method CreateTemp(dir: Path) returns (temp: Path, ino: Option<nat>)
      requires Valid() && Known(dir, temps)
      modifies this
      ensures Valid() && clock == old(clock) + 1 && temps == old(temps) + 1
      ensures temp == dir + [Temp(old(temps))] && !Known(temp, old(temps)) && Parent(temp) == dir
      ensures temp !in old(tree) && ino.Some? == (!faults(old(clock)) && IsDir(old(tree), dir))
      ensures ino.Some? ==> tree == old(tree)[temp := File(ino.value, "", 0x180)] && log == old(log) + [tree]
                            && ino.value == old(nextIno) && nextIno == old(nextIno) + 1
      ensures ino.None? ==> tree == old(tree) && nextIno == old(nextIno) && log == old(log)
    {
      temp := dir + [Temp(temps)];
      assert temp[|dir|] == Temp(temps);
      temps := temps + 1;
      ino := Create(temp, 0x180);
    }

    method Write(p: Path, content: Content) returns (ok: bool)
      requires Valid() && p in tree && tree[p].File?
      modifies this`clock, this`tree, this`log
      ensures Valid() && clock == old(clock) + 1 && ok == !faults(old(clock))
      ensures log == old(log) + [tree]
      ensures tree.Keys == old(tree).Keys && tree[p].File? && tree[p].ino == old(tree)[p].ino
      ensures forall q :: q in tree && q != p ==> tree[q] == old(tree)[q]
      ensures ok ==> tree[p] == old(tree)[p].(content := content)
    {
      ok := !faults(clock);
      tree := tree[p := tree[p].(content := if ok then content else torn(clock))];
      log := log + [tree];
      clock := clock + 1;
    }

    method Chmod(p: Path, mode: nat) returns (ok: bool)
      requires Valid() && p in tree && tree[p].File?
      modifies this`clock, this`tree, this`log
      ensures Valid() && clock == old(clock) + 1 && ok == !faults(old(clock))
      ensures ok ==> tree == old(tree)[p := old(tree)[p].(mode := mode)] && log == old(log) + [tree]
      ensures !ok ==> tree == old(tree) && log == old(log)
    {
      ok := Call();
      if ok {
        tree := tree[p := tree[p].(mode := mode)];
        log := log + [tree];
      }
    }
  }
}

/** Where each board of a tree is written, and the check that no two outputs get in each other's way. */
module BoardOutput {
  import K = KeyPath

  /** A path is its components; the root of the file system has none. */
  type Path = seq<string>

  // ----- components -----

  const PREFIX := "_d2_"
  const MANIFEST_NAME := ".d2-board-output-manifest-v1.json"
  const DEVICES: set<string> := {
    "CON", "PRN", "AUX", "NUL", "CLOCK$", "COM1", "COM2", "COM3", "COM4", "COM5", "COM6", "COM7", "COM8", "COM9",
    "LPT1", "LPT2", "LPT3", "LPT4", "LPT5", "LPT6", "LPT7", "LPT8", "LPT9", "CONIN$", "CONOUT$"
  }

  predicate HasPrefix(s: string, p: string) {
    |p| <= |s| && s[..|p|] == p
  }

  predicate IsReservedComponent(name: string) {
    var lower := K.Lower(name);
    || HasPrefix(lower, PREFIX)
    || lower in {"index", "layers", "scenarios", "steps", MANIFEST_NAME}
  }

  /** What stands before the first dot or colon. */
  function DeviceBase(s: string): string {
    if s == "" || s[0] == '.' || s[0] == ':' then "" else [s[0]] + DeviceBase(s[1..])
  }

  function TrimSpaces(s: string): string {
    if s != "" && s[|s| - 1] == ' ' then TrimSpaces(s[..|s| - 1]) else s
  }

  predicate IsPortable(name: string) {
    && name != "" && |name| <= 200 && name[|name| - 1] != '.' && name[|name| - 1] != ' '
    && (forall i :: 0 <= i < |name| ==> ' ' <= name[i] != 0x7f as char && name[i] !in "<>:\"/\\|?*")
    && K.Upper(TrimSpaces(DeviceBase(name))) !in DEVICES
  }

  /** Ordinary names stand for themselves; any other becomes the prefix and the digest of the name. */
  function Component(name: string, digest: string -> string): string {
    if IsPortable(name) && !IsReservedComponent(name) then name else PREFIX + digest(name)
  }

  ghost predicate Injective(f: string -> string) {
    forall s, t :: f(s) == f(t) ==> s == t
  }

  lemma LowerPrefix(s: string)
    ensures HasPrefix(s, PREFIX) ==> IsReservedComponent(s)
  {
    if HasPrefix(s, PREFIX) {
      assert K.Lower(s)[..4] == K.Lower(s[..4]);
      assert K.Lower(PREFIX) == PREFIX;
    }
  }

  /** No component is empty or takes a name the layout of directories needs. */
  lemma ComponentFree(name: string, digest: string -> string)
    ensures Component(name, digest) != ""
    ensures Component(name, digest) !in {"index", "layers", "scenarios", "steps"}
  {
    LowerOfReserved();
    assert (PREFIX + digest(name))[0] == '_';
  }

  predicate IsHex(s: string) {
    forall i :: 0 <= i < |s| ==> '0' <= s[i] <= '9' || 'a' <= s[i] <= 'f'
  }

  predicate NoControls(s: string) {
    forall i :: 0 <= i < |s| ==> s[i] >= 0x20 as char && s[i] != 0x7f as char
  }

  /** Whatever a board is called, its component is one plain name on every file system. */
  lemma ComponentIsPlain(name: string, digest: string -> string)
    requires |digest(name)| == 64 && IsHex(digest(name))
    ensures var c := Component(name, digest);
            && 0 < |c| <= 200 && c != "." && c != ".." && c[|c| - 1] != '.' && c[|c| - 1] != ' '
            && '/' !in c && '\\' !in c && ':' !in c && '"' !in c && '|' !in c && '?' !in c && '*' !in c
            && '<' !in c && '>' !in c
    ensures NoControls(Component(name, digest))
  {
    hide IsReservedComponent, TrimSpaces, DeviceBase;
    var c := Component(name, digest);
    if c == name && IsPortable(name) {
      PortableHasNone(name);
    } else {
      forall i | 0 <= i < |c|
        ensures c[i] in "_d2" || '0' <= c[i] <= '9' || 'a' <= c[i] <= 'f'
      {
        assert c[i] == if i < 4 then PREFIX[i] else digest(name)[i - 4];
      }
    }
  }

  lemma PortableHasNone(name: string)
    requires IsPortable(name)
    ensures '/' !in name && '\\' !in name && ':' !in name && '"' !in name && '|' !in name && '?' !in name
    ensures '*' !in name && '<' !in name && '>' !in name
    ensures 0 < |name| <= 200 && name[|name| - 1] != '.' && name[|name| - 1] != ' '
    ensures NoControls(name)
  {
    hide TrimSpaces, DeviceBase;
    var refused := "<>:\"/\\|?*";
    assert refused[0] == '<' && refused[1] == '>' && refused[2] == ':' && refused[3] == '"' && refused[4] == '/';
    assert refused[5] == '\\' && refused[6] == '|' && refused[7] == '?' && refused[8] == '*';
  }

  /** Boards of different names get different components, and none takes a name the layout of directories needs. */
  lemma ComponentsDiffer(a: string, b: string, digest: string -> string)
    requires Injective(digest)
    ensures Component(a, digest) == Component(b, digest) <==> a == b
    ensures Component(a, digest) != ""
    ensures Component(a, digest) !in {"index", "layers", "scenarios", "steps"}
  {
    LowerPrefix(a);
    LowerPrefix(b);
    assert HasPrefix(PREFIX + digest(a), PREFIX) && HasPrefix(PREFIX + digest(b), PREFIX);
    assert (PREFIX + digest(a))[4..] == digest(a) && (PREFIX + digest(b))[4..] == digest(b);
    LowerOfReserved();
    assert (PREFIX + digest(a))[0] == '_';
  }

  lemma LowerOfReserved()
    ensures K.Lower("index") == "index" && K.Lower("layers") == "layers" && K.Lower("scenarios") == "scenarios"
    ensures K.Lower("steps") == "steps"
  {
  }

  // ----- extensions -----

  /** The extension of a file name: from its last dot on. */
  function Ext(name: string): string {
    if name == "" then ""
    else if name[|name| - 1] == '.' then "."
    else
      var init := Ext(name[..|name| - 1]);
      if init == "" then "" else init + [name[|name| - 1]]
  }

  predicate IsExtension(ext: string) {
    ext != "" && ext[0] == '.' && '.' !in ext[1..]
  }

  lemma {:induction false} ExtOf(c: string, ext: string)
    requires IsExtension(ext)
    ensures Ext(c + ext) == ext
  {
    var name, n := c + ext, |ext| - 1;
    assert name[..|name| - 1] == c + ext[..n] && name[|name| - 1] == ext[n];
    if n > 0 {
      assert ext[n] == ext[1..][n - 1] && ext[n] in ext[1..];
      assert forall x :: x in ext[..n][1..] ==> x in ext[1..] by {
        assert ext[..n][1..] == ext[1..][..n - 1];
      }
      ExtOf(c, ext[..n]);
      assert ext == ext[..n] + [ext[n]];
    }
  }

  lemma {:induction false} ExtIsSuffix(name: string)
    ensures |Ext(name)| <= |name| && name[|name| - |Ext(name)|..] == Ext(name)
    ensures Ext(name) != "" ==> IsExtension(Ext(name))
  {
    if name != "" && name[|name| - 1] != '.' {
      var n := |name| - 1;
      ExtIsSuffix(name[..n]);
      var init := Ext(name[..n]);
      if init != "" {
        assert name == name[..n] + [name[n]];
        assert (init + [name[n]])[1..] == init[1..] + [name[n]];
      }
    }
  }

  /** The path without its extension, unless nothing else would be left of the last component. */
  function Stem(p: Path): Path
    requires p != []
  {
    ExtIsSuffix(p[|p| - 1]);
    var last, ext := p[|p| - 1], Ext(p[|p| - 1]);
    if |last| == |ext| then p else p[..|p| - 1] + [last[..|last| - |ext|]]
  }

  function ExtensionOf(p: Path): string
    requires p != []
  {
    Ext(p[|p| - 1])
  }

  function Append(p: Path, component: string): (r: Path)
    requires p != []
    ensures r != []
  {
    Stem(p) + [component + ExtensionOf(p)]
  }

  lemma {:induction false} NoDotNoExt(name: string)
    ensures Ext(name) == "" <==> '.' !in name
  {
    if name != "" {
      NoDotNoExt(name[..|name| - 1]);
      assert name == name[..|name| - 1] + [name[|name| - 1]];
    }
  }

  /** With an extension, or a component that has no dot, appending adds exactly that component to the stem. */
  lemma AppendStem(p: Path, component: string)
    requires p != [] && component != "" && (ExtensionOf(p) != "" || '.' !in component)
    ensures Stem(Append(p, component)) == Stem(p) + [component] && ExtensionOf(Append(p, component)) == ExtensionOf(p)
  {
    ExtIsSuffix(p[|p| - 1]);
    var ext := ExtensionOf(p);
    var name := component + ext;
    if ext != "" {
      ExtOf(component, ext);
    } else {
      NoDotNoExt(component);
      assert name == component;
    }
    assert name[..|name| - |ext|] == component;
    assert Append(p, component)[..|Append(p, component)| - 1] == Stem(p);
  }

  // ----- the plan -----

  datatype Diagram = Diagram(name: string, folderOnly: bool, layers: seq<Diagram>, scenarios: seq<Diagram>,
                             steps: seq<Diagram>)

  datatype Plan = Plan(base: Path, board: Path, layers: Path, scenarios: Path, steps: Path)

  predicate HasKids(d: Diagram) {
    d.layers != [] || d.scenarios != [] || d.steps != []
  }

  function Named(p: Path, d: Diagram, digest: string -> string): (r: Path)
    requires p != []
    ensures r != []
  {
    if d.name != "" then Append(p, Component(d.name, digest)) else p
  }

  /** A directory of its own for each kind of child boards, where there is more than one kind. */
  function PlanBoardOutput(p: Path, d: Diagram, digest: string -> string): (r: Plan)
    requires p != []
    ensures r.base != [] && r.board != [] && r.layers != [] && r.scenarios != [] && r.steps != []
  {
    var base := Named(p, d, digest);
    Plan(base,
         if HasKids(d) then Append(base, "index") else base,
         if d.scenarios != [] || d.steps != [] then Append(base, "layers") else base,
         if d.layers != [] || d.steps != [] then Append(base, "scenarios") else base,
         if d.layers != [] || d.scenarios != [] then Append(base, "steps") else base)
  }

  /** The output of every board of the tree, folders left out. */
  function Outputs(p: Path, d: Diagram, digest: string -> string): seq<Path>
    requires p != []
    decreases d, 1
  {
    var plan := PlanBoardOutput(p, d, digest);
    (if d.folderOnly then [] else [plan.board]) + OutputsAll(plan.layers, d.layers, digest) +
    OutputsAll(plan.scenarios, d.scenarios, digest) + OutputsAll(plan.steps, d.steps, digest)
  }

  function OutputsAll(p: Path, ds: seq<Diagram>, digest: string -> string): seq<Path>
    requires p != []
    decreases ds, 0, |ds|
  {
    if ds == [] then [] else OutputsAll(p, ds[..|ds| - 1], digest) + Outputs(p, ds[|ds| - 1], digest)
  }

  // ----- claims -----

  /** Two files get in each other's way when one is at or below the other. */
  predicate Clash(a: Path, b: Path) {
    a <= b || b <= a
  }

  function Parent(p: Path): Path {
    if p == [] then p else p[..|p| - 1]
  }

  class Claims {
    var files: set<Path>
    var dirs: set<Path>

    /** The directories are exactly the proper ancestors of the files, and the root, which is its own parent. */
    predicate Valid()
      reads this
    {
      ValidClaims(files, dirs)
    }

    constructor ()
      ensures Valid() && files == {}
    {
      files, dirs := {}, {};
    }

    /** A file is accepted exactly when it clashes with none before it. */
    method AddFile(path: Path) returns (ok: bool)
      requires Valid()
      modifies this
      ensures ok <==> forall f :: f in old(files) ==> !Clash(f, path)
      ensures files == if ok then old(files) + {path} else old(files)
      ensures ok ==> Valid()
    {
      hide IsDir;
      if path in files {
        assert Clash(path, path);
        return false;
      }
      if path in dirs {
        DirClash(path, files);
        return false;
      }
      ghost var files0, dirs0 := files, dirs;
      var dir := Parent(path);
      while true
        invariant files == files0 && dir == path[..|dir|] && (|dir| < |path| || path == [])
        invariant forall d :: d in dirs <==> d in dirs0 || (|dir| < |d| < |path| && d <= path)
        invariant forall n :: |dir| < n < |path| ==> path[..n] !in files0
        decreases |dir|
      {
        if dir in files {
          assert Clash(dir, path);
          return false;
        }
        if dir !in dirs {
          dirs := dirs + {dir};
        }
        var parent := Parent(dir);
        if parent == dir {
          break;
        }
        assert forall d: Path :: d <= path && |d| == |dir| ==> d == dir;
        dir := parent;
      }
      NoClash(path, files0, dirs0);
      Accepted(path, files0, dirs0, dirs);
      files := files + {path};
      ok := true;
    }

    /** Claims the outputs of a whole tree, a board before the boards below it. */
    method Validate(p: Path, d: Diagram, digest: string -> string) returns (ok: bool)
      requires p != [] && Valid()
      modifies this
      ensures ok <==> Accepts(old(files), Outputs(p, d, digest))
      ensures ok ==> Valid() && files == old(files) + Elements(Outputs(p, d, digest))
      decreases d, 1
    {
      hide Valid, Accepts, OutputsAll, Append;
      var plan := PlanBoardOutput(p, d, digest);
      ghost var files0 := files;
      ghost var own: seq<Path> := if d.folderOnly then [] else [plan.board];
      AcceptsNone(files);
      if !d.folderOnly {
        AcceptsOne(files, plan.board);
        ok := AddFile(plan.board);
        if !ok {
          Rejects(files0, own, OutputsAll(plan.layers, d.layers, digest));
          Rejects(files0, own + OutputsAll(plan.layers, d.layers, digest),
                  OutputsAll(plan.scenarios, d.scenarios, digest));
          Rejects(files0, own + OutputsAll(plan.layers, d.layers, digest) +
                  OutputsAll(plan.scenarios, d.scenarios, digest), OutputsAll(plan.steps, d.steps, digest));
          return;
        }
      }
      ghost var a, b := OutputsAll(plan.layers, d.layers, digest), OutputsAll(plan.scenarios, d.scenarios, digest);
      ghost var c := OutputsAll(plan.steps, d.steps, digest);
      AcceptsConcat(files0, own, a);
      AcceptsConcat(files0, own + a, b);
      AcceptsConcat(files0, own + a + b, c);
      ElementsConcat(own, a);
      ElementsConcat(own + a, b);
      ElementsConcat(own + a + b, c);
      assert files == files0 + Elements(own);
      ok := ValidateAll(plan.layers, d.layers, digest);
      if ok {
        assert files == files0 + Elements(own + a);
        ok := ValidateAll(plan.scenarios, d.scenarios, digest);
        if ok {
          assert files == files0 + Elements(own + a + b);
          ok := ValidateAll(plan.steps, d.steps, digest);
        }
      }
    }

    method ValidateAll(p: Path, ds: seq<Diagram>, digest: string -> string) returns (ok: bool)
      requires p != [] && Valid()
      modifies this
      ensures ok <==> Accepts(old(files), OutputsAll(p, ds, digest))
      ensures ok ==> Valid() && files == old(files) + Elements(OutputsAll(p, ds, digest))
      decreases ds, 0
    {
      hide Valid, Accepts, Outputs, Append;
      ghost var files0 := files;
      AcceptsNone(files);
      var i := 0;
      assert ds[..0] == [];
      while i < |ds|
        invariant i <= |ds| && Valid() && Accepts(files0, OutputsAll(p, ds[..i], digest))
        invariant files == files0 + Elements(OutputsAll(p, ds[..i], digest))
      {
        OutputsMore(p, ds, digest, i);
        AcceptsConcat(files0, OutputsAll(p, ds[..i], digest), Outputs(p, ds[i], digest));
        ElementsConcat(OutputsAll(p, ds[..i], digest), Outputs(p, ds[i], digest));
        ok := Validate(p, ds[i], digest);
        if !ok {
          RejectsLater(files0, p, ds, digest, i + 1);
          return;
        }
        i := i + 1;
      }
      assert ds[..i] == ds;
      ok := true;
    }
  }

  function Elements(ps: seq<Path>): set<Path> {
    set p | p in ps
  }

  /** Each output in turn clashes with none before it. */
  predicate Accepts(files: set<Path>, ps: seq<Path>)
    decreases |ps|
  {
    ps == [] || ((forall f :: f in files ==> !Clash(f, ps[0])) && Accepts(files + {ps[0]}, ps[1..]))
  }

  lemma AcceptsNone(files: set<Path>)
    ensures Accepts(files, []) && Elements([]) == {}
  {
  }

  lemma AcceptsOne(files: set<Path>, p: Path)
    ensures Accepts(files, [p]) <==> forall f :: f in files ==> !Clash(f, p)
    ensures Elements([p]) == {p}
  {
    assert [p][1..] == [];
  }

  lemma ElementsConcat(a: seq<Path>, b: seq<Path>)
    ensures Elements(a + b) == Elements(a) + Elements(b)
  {
  }

  lemma {:induction false} AcceptsConcat(files: set<Path>, a: seq<Path>, b: seq<Path>)
    ensures Accepts(files, a + b) <==> Accepts(files, a) && Accepts(files + Elements(a), b)
    decreases |a|
  {
    hide Clash;
    if a == [] {
      assert a + b == b && files + Elements(a) == files;
    } else {
      AcceptsConcat(files + {a[0]}, a[1..], b);
      assert (a + b)[1..] == a[1..] + b;
      assert files + {a[0]} + Elements(a[1..]) == files + Elements(a) by {
        assert a == [a[0]] + a[1..];
      }
    }
  }

  lemma Rejects(files: set<Path>, a: seq<Path>, b: seq<Path>)
    requires !Accepts(files, a)
    ensures !Accepts(files, a + b)
  {
    AcceptsConcat(files, a, b);
  }

  lemma OutputsMore(p: Path, ds: seq<Diagram>, digest: string -> string, i: nat)
    requires p != [] && i < |ds|
    ensures OutputsAll(p, ds[..i + 1], digest) == OutputsAll(p, ds[..i], digest) + Outputs(p, ds[i], digest)
  {
    hide Outputs;
    assert ds[..i + 1][..i] == ds[..i];
  }

  lemma {:induction false} RejectsLater(files: set<Path>, p: Path, ds: seq<Diagram>, digest: string -> string, i: nat)
    requires p != [] && i <= |ds| && !Accepts(files, OutputsAll(p, ds[..i], digest))
    ensures !Accepts(files, OutputsAll(p, ds, digest))
    decreases |ds| - i
  {
    hide Accepts, Outputs;
    if i < |ds| {
      OutputsMore(p, ds, digest, i);
      Rejects(files, OutputsAll(p, ds[..i], digest), Outputs(p, ds[i], digest));
      RejectsLater(files, p, ds, digest, i + 1);
    } else {
      assert ds[..i] == ds;
    }
  }

  /** A run of claims is accepted exactly when no two of its paths are at or below one another. */
  lemma {:induction false} AcceptsIffApart(files: set<Path>, ps: seq<Path>)
    ensures Accepts(files, ps) <==>
            (forall f, i :: f in files && 0 <= i < |ps| ==> !Clash(f, ps[i])) &&
            (forall i, j :: 0 <= i < j < |ps| ==> !Clash(ps[i], ps[j]))
    decreases |ps|
  {
    hide Clash;
    if ps != [] {
      var rest := ps[1..];
      AcceptsIffApart(files + {ps[0]}, rest);
      if Accepts(files, ps) {
        forall f, i | f in files && 0 <= i < |ps|
          ensures !Clash(f, ps[i])
        {
          if i > 0 {
            assert ps[i] == rest[i - 1] && f in files + {ps[0]};
          }
        }
        forall i, j | 0 <= i < j < |ps|
          ensures !Clash(ps[i], ps[j])
        {
          assert ps[j] == rest[j - 1];
          if i > 0 {
            assert ps[i] == rest[i - 1];
          } else {
            assert ps[0] in files + {ps[0]};
          }
        }
      }
      if (forall f, i :: f in files && 0 <= i < |ps| ==> !Clash(f, ps[i])) &&
         (forall i, j :: 0 <= i < j < |ps| ==> !Clash(ps[i], ps[j])) {
        forall f, i | f in files + {ps[0]} && 0 <= i < |rest|
          ensures !Clash(f, rest[i])
        {
          assert rest[i] == ps[i + 1];
        }
        forall i, j | 0 <= i < j < |rest|
          ensures !Clash(rest[i], rest[j])
        {
          assert rest[i] == ps[i + 1] && rest[j] == ps[j + 1];
        }
      }
    }
  }

  predicate IsDir(d: Path, files: set<Path>) {
    (d == [] && files != {}) || exists f :: f in files && d <= f && d != f
  }

  predicate ValidClaims(files: set<Path>, dirs: set<Path>) {
    && (forall d :: d in dirs ==> IsDir(d, files))
    && (forall f, n :: f in files && 0 <= n < |f| ==> f[..n] in dirs)
    && (files != {} ==> [] in dirs)
  }

  lemma PrefixIs(a: Path, b: Path)
    ensures a <= b ==> a == b || (|a| < |b| && b[..|a|] == a)
  {
  }

  /** A file that is no directory, and has no file among its ancestors, clashes with no other. */
  lemma NoClash(path: Path, files: set<Path>, dirs: set<Path>)
    requires ValidClaims(files, dirs) && path !in files && path !in dirs
    requires forall n :: 0 <= n < |path| ==> path[..n] !in files
    ensures forall f :: f in files ==> !Clash(f, path)
  {
    forall f | f in files
      ensures !Clash(f, path)
    {
      PrefixIs(f, path);
      PrefixIs(path, f);
    }
  }

  lemma Accepted(path: Path, files: set<Path>, dirs: set<Path>, dirs': set<Path>)
    requires ValidClaims(files, dirs)
    requires forall d :: d in dirs' <==> d in dirs || d == [] || (0 < |d| < |path| && d <= path)
    ensures ValidClaims(files + {path}, dirs')
  {
    forall d | d in dirs'
      ensures IsDir(d, files + {path})
    {
      if d in dirs {
        if f :| f in files && d <= f && d != f {
          assert f in files + {path};
        }
      } else if d != [] {
        assert path in files + {path} && d <= path && d != path;
      }
    }
    forall f, n | f in files + {path} && 0 <= n < |f|
      ensures f[..n] in dirs'
    {
      if f == path {
        assert path[..n] <= path;
      }
    }
  }

  lemma DirClash(path: Path, files: set<Path>)
    requires IsDir(path, files)
    ensures exists f :: f in files && Clash(f, path)
  {
    if path == [] && files != {} {
      var f :| f in files;
      assert Clash(f, path);
    } else {
      var f :| f in files && path <= f && path != f;
      assert Clash(f, path);
    }
  }
}

/**
 What names stand for which files (inventory.rs): relative class names, fallbacks, the
 names of class files that patterns see, target names, and what a class list expands to.
*/
module FileNames {
  import opened Wrappers
  import opened Values
  import opened Strings
  import opened Order
  import opened Fnmatch
  import opened ClassLoader
  import opened ClassNames
  import opened Rendering

  // ---- file names -----------------------------------------------------------------------------

  lemma StemOf(stem: string, ext: string)
    requires '.' !in ext
    ensures Stem(stem + "." + ext) == stem && (IsYaml(stem + "." + ext) <==> stem != "" && ext in {"yml", "yaml"})
  {
    LastDot(stem, ext);
    assert (stem + "." + ext)[..|stem|] == stem && (stem + "." + ext)[|stem| + 1..] == ext;
  }

  /** A YAML file has a name and one of the two extensions. */
  lemma {:induction false} YamlNames(file: string)
    ensures IsYaml(file) <==>
      exists stem: string :: stem != "" && (file == stem + "." + "yml" || file == stem + "." + "yaml")
  {
    if IsYaml(file) {
      var i := LastIndex(file, '.');
      assert file == file[..i] + "." + file[i + 1..] && file[..i] != "";
    }
    forall stem | stem != "" && (file == stem + "." + "yml" || file == stem + "." + "yaml") ensures IsYaml(file) {
      StemOf(stem, "yml");
      StemOf(stem, "yaml");
    }
  }

  predicate Undotted(parts: seq<string>) { forall i :: 0 <= i < |parts| ==> '.' !in parts[i] }

  /** The files a name stands for, fallbacks left aside. */
  predicate IsNamed(env: Env, parts: seq<string>, file: Path)
    requires parts != []
  {
    exists i :: 0 <= i < 2 &&
      (file == Directory(env, parts) + ["init." + EXTENSIONS[i]] ||
       file == AsFile(Directory(env, parts), EXTENSIONS[i]))
  }

  /** `classes/a/b.yml` and `classes/a/b/init.yml` are the class `a.b`, and a top-level
      `init.yml` is `init`; the name leads back to the file, and not by a fallback. */
  lemma {:induction false} ClassFileIsItsClass(env: Env, dirs: Path, stem: string, ext: string, from: Path)
    requires AreNames(dirs + [stem]) && Undotted(dirs + [stem]) && ext in {"yml", "yaml"}
    ensures var parts := if stem == "init" && dirs != [] then dirs else dirs + [stem];
      var file := env.ClassesDir() + dirs + [stem + "." + ext];
      && ClassName(dirs + [stem + "." + ext]) == Some(Join(parts, "."))
      && IsNamed(env, Split(Join(parts, "."), '.'), file)
      && file in Candidates(env, Join(parts, "."), from)
  {
    var parts := if stem == "init" && dirs != [] then dirs else dirs + [stem];
    HasClassName(dirs, stem, ext);
    assert dirs == (dirs + [stem])[..|dirs|];
    SplitJoin(parts, '.');
    IsItsName(env, dirs, stem, ext);
    NamedIsCandidate(env, parts, env.ClassesDir() + dirs + [stem + "." + ext], Join(parts, "."), from);
  }

  lemma {:induction false} NamesAreOfFiles(classes: Path, files: set<Path>, name: string)
    requires forall f :: f in files ==> classes < f
    ensures name in NamesOf(classes, files) <==> exists f :: f in files && ClassName(f[|classes|..]) == Some(name)
  {
    if f :| f in files && ClassName(f[|classes|..]) == Some(name) {
      assert ClassName(f[|classes|..]).Some?;
    }
  }

  predicate IsClassFile(classes: Path, f: Path) { classes < f && IsYaml(f[|f| - 1]) }

  lemma {:induction false} ListingIsClassFiles(env: Env, t: Tree, f: Path)
    ensures f in Listing(env, t) <==> f in t && IsClassFile(env.ClassesDir(), f)
  {
  }

  lemma {:induction false} AvailableIsNames(env: Env, t: Tree, name: string)
    ensures name in Available(env, t) <==> name in NamesOf(env.ClassesDir(), Listing(env, t))
  {
  }

  /** Patterns see exactly the names of the YAML files below `classes/`. */
  lemma {:induction false} AvailableExactly(env: Env, t: Tree, name: string)
    ensures name in Available(env, t) <==>
      exists f ::
        f in t && IsClassFile(env.ClassesDir(), f) && ClassName(f[|env.ClassesDir()|..]) == Some(name)
  {
    var classes, files := env.ClassesDir(), Listing(env, t);
    AvailableIsNames(env, t, name);
    NamesAreOfFiles(classes, files, name);
    forall f ensures f in files <==> f in t && IsClassFile(classes, f) {
      ListingIsClassFiles(env, t, f);
    }
  }

  lemma HasClassName(dirs: Path, stem: string, ext: string)
    requires AreNames(dirs + [stem]) && Undotted(dirs + [stem]) && '.' !in ext
    ensures ClassName(dirs + [stem + "." + ext]) ==
      Some(Join(if stem == "init" && dirs != [] then dirs else dirs + [stem], "."))
  {
    var rel := dirs + [stem + "." + ext];
    NotHidden(dirs, stem, ext);
    StemOf(stem, ext);
    assert rel[..|rel| - 1] == dirs && rel[|rel| - 1] == stem + "." + ext;
  }

  lemma NamedIsCandidate(env: Env, parts: seq<string>, file: Path, name: string, from: Path)
    requires parts != [] && AreNames(parts) && Split(name, '.') == parts && IsNamed(env, parts, file)
    ensures file in Candidates(env, name, from)
  {
    OrdinaryCandidates(env, name, from);
    var yml, yaml := FourCandidates(env, parts, "yml"), FourCandidates(env, parts, "yaml");
    assert file in [yml[0], yml[1], yaml[0], yaml[1]];
    assert yml[0] in yml && yml[1] in yml && yaml[0] in yaml && yaml[1] in yaml;
  }

  lemma IsItsName(env: Env, dirs: Path, stem: string, ext: string)
    requires ext in {"yml", "yaml"}
    ensures IsNamed(env, if stem == "init" && dirs != [] then dirs else dirs + [stem],
                    env.ClassesDir() + dirs + [stem + "." + ext])
  {
    var parts := if stem == "init" && dirs != [] then dirs else dirs + [stem];
    var i := if ext == "yml" then 0 else 1;
    assert EXTENSIONS[i] == ext && "init" + "." + ext == "init." + ext;
    var file := env.ClassesDir() + dirs + [stem + "." + ext];
    if parts == dirs {
      assert file == Directory(env, parts) + ["init." + ext];
    } else {
      assert Directory(env, parts) == env.ClassesDir() + dirs + [stem];
      assert file == AsFile(Directory(env, parts), ext);
    }
  }

  lemma NotHidden(dirs: Path, stem: string, ext: string)
    requires AreNames(dirs + [stem]) && Undotted(dirs + [stem])
    ensures forall i :: 0 <= i < |dirs| + 1 ==>
      var n := (dirs + [stem + "." + ext])[i]; n != "" && n[0] != '.'
  {
    forall i | 0 <= i < |dirs| + 1 ensures var n := (dirs + [stem + "." + ext])[i]; n != "" && n[0] != '.' {
      var n := (dirs + [stem])[i];
      assert n != "" && n[0] in n;
    }
  }

  /** A hidden file, or one in a hidden directory, is no class to patterns. */
  lemma HiddenHasNoName(rel: Path, i: nat)
    requires i < |rel| && rel[i] != "" && rel[i][0] == '.'
    ensures ClassName(rel) == None
  {
  }

  // ---- fallbacks ----------------------------------------------------------------------------------

  /** A class is found by a fallback exactly when what is found is none of the files its
      name stands for; and that is a file with nothing of the name when its first two
      parts are all there is, or what is left is `init`. */
  lemma {:induction false} FallbackIsNotTheName(env: Env, t: Tree, name: string, from: Path)
    requires AreNames(Split(name, '.')) && ResolveClass(env, t, name, from).found.Some?
    ensures var res, parts := ResolveClass(env, t, name, from), Split(name, '.');
      && (res.fallback <==> !IsNamed(env, parts, res.found.value))
      && (res.fallback ==> (Unrelated(env, res.found.value) <==>
           |parts| <= 2 || exists i :: 0 <= i < 2 && res.found.value == env.ClassesDir() + ["init." + EXTENSIONS[i]]))
  {
    var parts := Split(name, '.');
    OrdinaryCandidates(env, name, from);
    var e, i := OneOfEight(t, Candidates(env, name, from), env, parts);
    if i < 2 {
      assert IsNamed(env, parts, FourCandidates(env, parts, EXTENSIONS[e])[i]);
    } else {
      NotNamed(env, parts, e, i);
      LeftOver(env, parts, e, i);
    }
  }

  lemma {:induction false} OneOfEight(t: Tree, all: seq<Path>, env: Env, parts: seq<string>) returns (e: nat, i: nat)
    requires parts != [] && all == FourCandidates(env, parts, "yml") + FourCandidates(env, parts, "yaml")
    requires TryFrom(t, all, 0).found.Some?
    ensures e < 2 && i < 4
    ensures var r, four := TryFrom(t, all, 0), FourCandidates(env, parts, EXTENSIONS[e]);
      r.found == Some(four[i]) && (r.fallback <==> i >= 2) && (i >= 2 ==> four[i] != four[1])
  {
    var k := FoundAt(t, all, 0);
    e, i := k / 4, k % 4;
    assert all[4 * e + 1] == FourCandidates(env, parts, EXTENSIONS[e])[1];
    assert k == 4 * e + i;
  }

  /** The candidate that is found is the first one that is there. */
  lemma {:induction false} FoundAt(t: Tree, candidates: seq<Path>, i: nat) returns (k: nat)
    requires i <= |candidates| && TryFrom(t, candidates, i).found.Some?
    ensures var r := TryFrom(t, candidates, i);
      && i <= k < |candidates| && candidates[k] in t && (forall j :: i <= j < k ==> candidates[j] !in t)
      && r.found == Some(candidates[k]) && (r.fallback <==> k % 4 >= 2)
    decreases |candidates| - i
  {
    k := i;
    if candidates[i] !in t {
      k := FoundAt(t, candidates, i + 1);
    }
  }

  /** How long a fallback's path is, and where it ends. */
  lemma FallbackAt(env: Env, parts: seq<string>, e: nat, i: nat)
    requires parts != [] && e < 2 && 2 <= i < 4
    ensures var f, n := FourCandidates(env, parts, EXTENSIONS[e])[i], if |parts| >= 2 then |parts| - 2 else 0;
      |f| == |env.ClassesDir()| + n + i - 2 && (i == 3 ==> f[|f| - 1] == "init." + EXTENSIONS[e])
  {
  }

  lemma {:induction false} NotNamed(env: Env, parts: seq<string>, e: nat, i: nat)
    requires parts != [] && e < 2 && 2 <= i < 4
    requires var four := FourCandidates(env, parts, EXTENSIONS[e]); four[i] != four[1]
    ensures !IsNamed(env, parts, FourCandidates(env, parts, EXTENSIONS[e])[i])
  {
    var f, full := FourCandidates(env, parts, EXTENSIONS[e])[i], Directory(env, parts);
    FallbackAt(env, parts, e, i);
    forall j | 0 <= j < 2
      ensures f != full + ["init." + EXTENSIONS[j]] && f != AsFile(full, EXTENSIONS[j])
    {
      assert |full| == |env.ClassesDir()| + |parts|;
      if j != e && f == AsFile(full, EXTENSIONS[j]) {
        assert f[|f| - 1] == full[|full| - 1] + "." + EXTENSIONS[j];
        Endings(full[|full| - 1] + ".");
      }
    }
  }

  lemma Endings(a: string)
    ensures a + "yml" != "init." + "yaml" && a + "yaml" != "init." + "yml"
  {
    var x, y := a + "yml", "init." + "yaml";
    assert x[|x| - 3] == 'y' && y[|y| - 3] == 'a';
    var u, v := a + "yaml", "init." + "yml";
    assert u[|u| - 3] == 'a' && v[|v| - 3] == 'y';
  }

  lemma {:induction false} LeftOver(env: Env, parts: seq<string>, e: nat, i: nat)
    requires parts != [] && e < 2 && 2 <= i < 4
    ensures var f := FourCandidates(env, parts, EXTENSIONS[e])[i];
      Unrelated(env, f) <==>
      |parts| <= 2 || exists j :: 0 <= j < 2 && f == env.ClassesDir() + ["init." + EXTENSIONS[j]]
  {
    var f, dir := FourCandidates(env, parts, EXTENSIONS[e])[i], env.ClassesDir();
    FallbackAt(env, parts, e, i);
    assert forall j :: 0 <= j < 2 ==> |WithExt(PathBuf(dir, false), EXTENSIONS[j])| == |dir|;
    if |parts| <= 2 {
      assert parts[|parts|..] == [] && Directory(env, []) == dir;
      FileOf(dir, EXTENSIONS[e]);
      assert f == (if i == 2 then WithExt(PathBuf(dir, false), EXTENSIONS[e]) else dir + ["init." + EXTENSIONS[e]]);
    }
  }

  // ---- relative names --------------------------------------------------------------------------------

  /** A relative name is looked for in the directory of the file that includes it; there
      a fallback drops its first part only. In `classes/` itself, and at the root, what
      is left of a single part is the directory with an extension inside it. */
  function RelativeFour(dir: Path, names: seq<string>, top: bool, ext: string): seq<Path>
    requires names != [] && (dir == [] ==> top)
  {
    var full, dropped := dir + names, dir + names[1..];
    [full + ["init." + ext], AsFile(full, ext),
     if names[1..] == [] && top then dropped + ["." + ext] else AsFile(dropped, ext),
     dropped + ["init." + ext]]
  }

  lemma {:induction false} RelativeCandidates(env: Env, name: string, from: Path)
    requires from != [] && |Split(name, '.')| > 1 && Split(name, '.')[0] == "" && AreNames(Split(name, '.')[1..])
    ensures var dir, names := from[..|from| - 1], Split(name, '.')[1..];
      var top := dir == env.ClassesDir() || dir == [];
      Candidates(env, name, from) == RelativeFour(dir, names, top, "yml") + RelativeFour(dir, names, top, "yaml")
  {
    var dir, parts := from[..|from| - 1], Split(name, '.');
    StartsWithDot(name);
    var base := PathBuf(dir, dir == env.ClassesDir() || dir == []);
    assert Base(env, name, from) == base;
    CasesOfRelative(base, parts, "yml");
    CasesOfRelative(base, parts, "yaml");
  }

  lemma StartsWithDot(name: string)
    requires |Split(name, '.')| > 1 && Split(name, '.')[0] == ""
    ensures name != "" && name[0] == '.'
  {
    assert name != "";
  }

  lemma {:induction false} CasesOfRelative(base: PathBuf, parts: seq<string>, ext: string)
    requires |parts| > 1 && parts[0] == "" && AreNames(parts[1..]) && (base.comps == [] ==> base.slash)
    ensures Cases(base, parts, ext) == RelativeFour(base.comps, parts[1..], base.slash, ext)
  {
    var names := parts[1..];
    assert PushAll(base, parts) == PushAll(base, names);
    assert parts[2..] == names[1..];
    PushNames(base, names);
    PushNames(base, names[1..]);
    assert base.comps + [] == base.comps;
    FileOf(base.comps + names, ext);
    if names[1..] != [] {
      FileOf(base.comps + names[1..], ext);
    } else if !base.slash {
      FileOf(base.comps, ext);
    }
  }

  // ---- targets --------------------------------------------------------------------------------------------

  predicate Unslashed(parts: seq<string>) { forall i :: 0 <= i < |parts| ==> '/' !in parts[i] }

  lemma {:induction false} JoinLast(dirs: seq<string>, last: string, sep: string)
    ensures Join(dirs + [last], sep) == (if dirs == [] then "" else Join(dirs, sep) + sep) + last
    decreases |dirs|
  {
    if dirs != [] {
      assert (dirs + [last])[1..] == dirs[1..] + [last];
      JoinLast(dirs[1..], last, sep);
    }
  }

  lemma {:induction false} Replacing(parts: seq<string>)
    requires Unslashed(parts)
    ensures ReplaceChar(Join(parts, "/"), '/', '.') == Join(parts, ".")
    decreases |parts|
  {
    if parts != [] {
      assert parts[0] == ReplaceChar(parts[0], '/', '.') by {
        assert forall i :: 0 <= i < |parts[0]| ==> parts[0][i] in parts[0];
      }
      if |parts| > 1 {
        Replacing(parts[1..]);
        var rest := Join(parts[1..], "/");
        assert Join(parts, "/") == parts[0] + "/" + rest;
        assert ReplaceChar(parts[0] + "/" + rest, '/', '.') == parts[0] + "." + ReplaceChar(rest, '/', '.');
      }
    }
  }

  /** The path of a target is where its file is below `targets/`; its initial parameters
      get this path without the extension; its name is this with dots, or the last part
      alone. With names that hold no dot, the parts can be told again. */
  lemma {:induction false} TargetIsItsPath(env: Env, dirs: Path, stem: string, ext: string)
    requires Unslashed(dirs + [stem]) && stem != "" && ext in {"yml", "yaml"}
    ensures var file := env.TargetsDir() + dirs + [stem + "." + ext];
      IsTargetFile(env, file) &&
      var s := SpecOf(env, file);
      && s.file == file && Split(s.path, '/') == dirs + [stem + "." + ext]
      && InitialParameters(env, s) == env.initial(s.name, Join(dirs + [stem], "/"))
      && s.name == (if env.composeTargetName then Join(dirs + [stem], ".") else stem)
      && (env.composeTargetName && Undotted(dirs + [stem]) ==> Split(s.name, '.') == dirs + [stem])
  {
    IsBelowTargets(env, dirs, stem + "." + ext);
    StemOf(stem, ext);
    PathTexts(dirs, stem, ext);
    Replacing(dirs + [stem]);
    if Undotted(dirs + [stem]) {
      SplitJoin(dirs + [stem], '.');
    }
  }

  lemma IsBelowTargets(env: Env, dirs: Path, last: string)
    ensures var file := env.TargetsDir() + dirs + [last];
      env.TargetsDir() < file && file[|env.TargetsDir()|..] == dirs + [last] && file[|file| - 1] == last
  {
  }

  lemma {:induction false} PathTexts(dirs: Path, stem: string, ext: string)
    requires Unslashed(dirs + [stem]) && ext in {"yml", "yaml"}
    ensures var rel := dirs + [stem + "." + ext];
      Split(Join(rel, "/"), '/') == rel && Stem(Join(rel, "/")) == Join(dirs + [stem], "/")
  {
    var rel := dirs + [stem + "." + ext];
    assert Unslashed(rel) by {
      assert forall i :: 0 <= i < |dirs| ==> (dirs + [stem])[i] == dirs[i];
      assert (dirs + [stem])[|dirs|] == stem && '/' !in ext;
    }
    SplitJoin(rel, '/');
    JoinLast(dirs, stem + "." + ext, "/");
    JoinLast(dirs, stem, "/");
    var front := if dirs == [] then "" else Join(dirs, "/") + "/";
    assert front + (stem + "." + ext) == (front + stem) + "." + ext;
    StemOf(front + stem, ext);
  }
}

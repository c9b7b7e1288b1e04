/**
 Installing a target's fresh output and cleaning up after targets that are gone
 (engine.rs): what `install`, `merge_dirs`, `move_path` and `cleanup` leave on
 disk, as functions of the tree. `Disk` is the program that does it entry by entry.
*/
module Install {
  import opened Wrappers
  import opened Strings
  import opened Digest

  const MANIFEST_FILE := ".krab-manifest.json"

  function Parent(p: Path): Path { if p == [] then [] else p[..|p| - 1] }

  predicate IsDir(fs: Fs, p: Path) { p in fs && fs[p].Dir? }

  /** What is right above an entry is a directory. */
  ghost predicate Grounded(fs: Fs) {
    forall p :: p in fs && p != [] ==> IsDir(fs, Parent(p))
  }

  /** So is everything above it. */
  lemma {:induction false} AboveIsDir(fs: Fs, p: Path, q: Path)
    requires Grounded(fs) && p in fs && q < p
    ensures IsDir(fs, q)
    decreases |p|
  {
    if q != Parent(p) {
      assert q < Parent(p);
      AboveIsDir(fs, Parent(p), q);
    }
  }

  // ---- install ------------------------------------------------------------------

  /** Entries of the target's directory that installing leaves alone. */
  predicate IsKept(children: set<string>, n: string) { n in children || n == MANIFEST_FILE }

  /** The disk once the old output is gone. */
  function Emptied(fs: Fs, dir: Path, children: set<string>): Fs {
    map p | p in fs && (dir < p ==> IsKept(children, p[|dir|])) :: fs[p]
  }

  /** The subtree at `from`, as it will be at `to`. */
  function Moved(temp: Fs, from: Path, to: Path): (r: Fs)
    ensures forall p :: p in r <==> to <= p && from + p[|to|..] in temp
    ensures forall p :: p in r ==> r[p] == temp[from + p[|to|..]]
  {
    var ps := set q | q in temp && from <= q :: to + q[|from|..];
    assert forall p :: to <= p && from + p[|to|..] in temp ==>
      from <= from + p[|to|..] && to + (from + p[|to|..])[|from|..] == p;
    assert forall q :: q in temp && from <= q ==> from + q[|from|..] == q;
    assert forall p :: p in ps ==> to <= p && from + p[|to|..] in temp;
    map p | p in ps :: temp[from + p[|to|..]]
  }

  /** Of that, the directory itself and what is below the given names. */
  function Part(temp: Fs, from: Path, to: Path, names: set<string>): Fs {
    map p | p in Moved(temp, from, to) && (p == to || p[|to|] in names) :: Moved(temp, from, to)[p]
  }

  /** All directories down to `dir`. */
  function DirsTo(dir: Path): (r: Fs)
    ensures forall p :: p in r <==> p <= dir
    ensures forall p :: p in r ==> r[p] == Dir
  {
    var ps := set i | 0 <= i <= |dir| :: dir[..i];
    assert forall p :: p <= dir ==> p == dir[..|p|] && 0 <= |p| <= |dir|;
    map p | p in ps :: Dir
  }

  /** No file where the other tree has a directory. */
  predicate Compatible(a: Fs, b: Fs) {
    forall p :: p in a && p in b ==> a[p].Dir? == b[p].Dir?
  }

  /** `install` succeeds. `temp` is the temporary tree, rooted at a directory, or
      empty when the compile wrote nothing. */
  predicate CanInstall(fs: Fs, temp: Fs, dir: Path, children: set<string>) {
    && Compatible(fs, DirsTo(dir))
    && Compatible(Emptied(fs, dir, children), Moved(temp, [], dir))
    && forall n :: n in children && [n] in temp ==> temp[[n]].Dir?
  }

  /** What it leaves. */
  function Installed(fs: Fs, temp: Fs, dir: Path, children: set<string>): Fs {
    Emptied(fs, dir, children) + DirsTo(dir) + Moved(temp, [], dir)
  }

  // ---- cleanup --------------------------------------------------------------------

  /** An entry at `rel` is inside a target's directory, is such a directory or one
      above it, or is the manifest. */
  predicate Belongs(e: Entry, targets: set<Path>, rel: Path) {
    || (exists tp :: tp in targets && tp < rel)
    || (e.Dir? && exists tp :: tp in targets && rel <= tp)
    || (e.File? && rel == [MANIFEST_FILE])
  }

  /** What `cleanup` keeps. */
  function Cleaned(fs: Fs, root: Path, targets: set<Path>): Fs {
    CleanedUpTo(fs, root, root, targets, {})
  }

  /** Below `dir`, the names in `todo` have not been looked at. */
  function CleanedUpTo(fs: Fs, root: Path, dir: Path, targets: set<Path>, todo: set<string>): Fs {
    map p | p in fs && (root <= dir < p && p[|dir|] !in todo ==> Belongs(fs[p], targets, p[|root|..])) :: fs[p]
  }

  /** The same for one entry and everything below it. */
  function CleanedAt(fs: Fs, root: Path, path: Path, targets: set<Path>): Fs {
    map p | p in fs && (root <= path <= p ==> Belongs(fs[p], targets, p[|root|..])) :: fs[p]
  }

  // ---- the program -------------------------------------------------------------------

  class Disk {
    var fs: Fs

    constructor (fs: Fs)
      ensures this.fs == fs
    {
      this.fs := fs;
    }

    /** Directories above come first. */
    method CreateDirAll(dir: Path) returns (ok: bool)
      requires Grounded(fs)
      modifies this
      ensures Grounded(fs)
      ensures ok <==> Compatible(old(fs), DirsTo(dir))
      ensures fs == if ok then old(fs) + DirsTo(dir) else old(fs)
    {
      if dir in fs {
        DirIsThere(fs, dir);
        return fs[dir].Dir?;
      }
      if dir != [] {
        var parent := Parent(dir);
        ok := CreateDirAll(parent);
        if !ok {
          assert forall p :: p in DirsTo(parent) ==> p in DirsTo(dir);
          return;
        }
      }
      OneDirMore(old(fs), dir);
      fs := fs[dir := Dir];
      ok := true;
    }

    method RemoveAll(p: Path)
      requires Grounded(fs)
      modifies this
      ensures fs == map q | q in old(fs) && !(p <= q) :: old(fs)[q]
      ensures Grounded(fs)
    {
      fs := map q | q in fs && !(p <= q) :: fs[q];
    }

    /** The old output is removed, entry by entry. */
    method EmptyDir(dir: Path, children: set<string>)
      requires Grounded(fs)
      modifies this
      ensures Grounded(fs)
      ensures fs == Emptied(old(fs), dir, children)
    {
      var names := Children(fs, dir);
      var todo := names;
      NothingLeftToEmpty(fs, dir, children);
      while todo != {}
        invariant todo <= names && Grounded(fs)
        invariant fs == EmptiedUpTo(old(fs), dir, children, todo)
        decreases |todo|
      {
        var n :| n in todo;
        if !IsKept(children, n) {
          RemoveAll(dir + [n]);
        }
        EmptiedMore(old(fs), dir, children, todo, n);
        todo := todo - {n};
      }
    }

    /** The names in a directory, in whatever order the system lists them. */
    static method ReadDir(t: Fs, dir: Path) returns (names: seq<string>)
      ensures Lists(names, Children(t, dir))
    {
      names := [];
      var todo := Children(t, dir);
      while todo != {}
        invariant todo <= Children(t, dir) && Lists(names, Children(t, dir) - todo)
        decreases |todo|
      {
        var n :| n in todo;
        names := names + [n];
        todo := todo - {n};
      }
    }

    /** A directory of the temporary tree is merged into what is at `to`. */
    method MergeDirs(temp: Fs, from: Path, to: Path) returns (ok: bool)
      requires Grounded(fs) && Grounded(temp) && from in temp && temp[from].Dir?
      requires to != [] && IsDir(fs, Parent(to))
      modifies this
      ensures Grounded(fs) && SameElsewhere(old(fs), fs, to)
      ensures ok <==> Compatible(old(fs), Moved(temp, from, to))
      ensures ok ==> fs == old(fs) + Moved(temp, from, to)
      decreases |Below(temp, from)|, 2
    {
      if to in fs && fs[to].File? {
        FileInTheWay(fs, temp, from, to);
        return false;
      }
      GroundedDir(fs, to);
      fs := fs[to := Dir];
      var names := ReadDir(temp, from);
      MergeWhole(old(fs), temp, from, to, names);
      ok := MergeEntries(temp, from, to, names);
    }

    method MergeEntries(temp: Fs, from: Path, to: Path, names: seq<string>) returns (ok: bool)
      requires Grounded(fs) && Grounded(temp) && from in temp && IsDir(fs, to)
      requires forall n :: n in names ==> n in Children(temp, from)
      modifies this
      ensures Grounded(fs) && SameElsewhere(old(fs), fs, to)
      ensures var goal := MergeAll(old(fs), temp, from, to, names);
        (ok <==> goal.Some?) && (ok ==> fs == goal.value)
      decreases |Below(temp, from)|, 1
    {
      ghost var goal := MergeAll(fs, temp, from, to, names);
      var i := 0;
      assert names[0..] == names;
      while i < |names|
        invariant 0 <= i <= |names|
        invariant Grounded(fs) && IsDir(fs, to) && SameElsewhere(old(fs), fs, to)
        invariant MergeAll(fs, temp, from, to, names[i..]) == goal
      {
        ghost var before := fs;
        MergeAllStep(fs, temp, from, to, names, i);
        ok := MergeEntry(temp, from, to, names[i]);
        SameFurther(old(fs), before, fs, to, names[i]);
        if !ok {
          return;
        }
        i := i + 1;
      }
      ok := true;
    }

    method MergeEntry(temp: Fs, from: Path, to: Path, n: string) returns (ok: bool)
      requires Grounded(fs) && Grounded(temp) && from in temp && n in Children(temp, from)
      requires IsDir(fs, to)
      modifies this
      ensures Grounded(fs) && SameElsewhere(old(fs), fs, to + [n])
      ensures ok <==> Compatible(old(fs), Moved(temp, from + [n], to + [n]))
      ensures ok ==> fs == old(fs) + Moved(temp, from + [n], to + [n])
      decreases |Below(temp, from)|, 0
    {
      var src, dest := from + [n], to + [n];
      ChildrenAreEntries(temp, from, n);
      assert Parent(dest) == to;
      if temp[src].Dir? {
        FewerBelow(temp, from, n);
        ok := MergeDirs(temp, src, dest);
      } else {
        FileMoves(temp, src, dest);
        if dest in fs && fs[dest].Dir? {
          return false;
        }
        FileGrounds(fs, dest, temp[src]);
        fs := fs[dest := temp[src]];
        ok := true;
      }
    }

    /** Renaming moves a whole subtree at once, when the system allows it and nothing
        is in the way; otherwise entries are copied one by one, as in merging. */
    method MovePath(temp: Fs, from: Path, to: Path, renames: bool) returns (ok: bool)
      requires Grounded(fs) && Grounded(temp) && from in temp
      requires to != [] && IsDir(fs, Parent(to))
      modifies this
      ensures Grounded(fs) && SameElsewhere(old(fs), fs, to)
      ensures ok <==> Compatible(old(fs), Moved(temp, from, to))
      ensures ok ==> fs == old(fs) + Moved(temp, from, to)
    {
      if renames && Renames(fs, temp, from, to) {
        RenameFits(fs, temp, from, to);
        fs := fs + Moved(temp, from, to);
        return true;
      }
      if temp[from].Dir? {
        ok := MergeDirs(temp, from, to);
      } else {
        FileMoves(temp, from, to);
        if to in fs && fs[to].Dir? {
          return false;
        }
        FileGrounds(fs, to, temp[from]);
        fs := fs[to := temp[from]];
        ok := true;
      }
    }

    /** The target's output is replaced by the fresh one; nested targets stay. */
    method Install(temp: Fs, dir: Path, children: set<string>, renames: bool) returns (ok: bool)
      requires Grounded(fs) && Grounded(temp) && (temp == map[] || IsDir(temp, []))
      modifies this
      ensures Grounded(fs)
      ensures ok <==> CanInstall(old(fs), temp, dir, children)
      ensures ok ==> fs == Installed(old(fs), temp, dir, children)
    {
      ok := CreateDirAll(dir);
      if !ok {
        return;
      }
      EmptyDir(dir, children);
      EmptiedBase(old(fs), dir, children);
      var names := ReadDir(temp, []);
      TopNames(temp, names, children);
      InstallAllMoves(fs, temp, dir, children, names);
      InstallWhole(fs, temp, dir, names);
      ok := InstallEntries(temp, dir, children, names, renames);
      EmptiedFits(old(fs), temp, dir, children);
    }

    method InstallEntries(temp: Fs, dir: Path, children: set<string>, names: seq<string>, renames: bool)
      returns (ok: bool)
      requires Grounded(fs) && Grounded(temp) && IsDir(fs, dir)
      requires forall n :: n in names ==> [n] in temp
      modifies this
      ensures Grounded(fs)
      ensures var goal := InstallAll(old(fs), temp, dir, children, names);
        (ok <==> goal.Some?) && (ok ==> fs == goal.value)
    {
      ghost var goal := InstallAll(fs, temp, dir, children, names);
      var i := 0;
      assert names[0..] == names;
      while i < |names|
        invariant 0 <= i <= |names|
        invariant Grounded(fs) && IsDir(fs, dir)
        invariant InstallAll(fs, temp, dir, children, names[i..]) == goal
      {
        InstallAllStep(fs, temp, dir, children, names, i);
        ok := InstallStep(temp, dir, children, names[i], renames);
        if !ok {
          return;
        }
        i := i + 1;
      }
      ok := true;
    }

    method InstallStep(temp: Fs, dir: Path, children: set<string>, n: string, renames: bool) returns (ok: bool)
      requires Grounded(fs) && Grounded(temp) && IsDir(fs, dir) && [n] in temp
      modifies this
      ensures Grounded(fs) && IsDir(fs, dir)
      ensures ok <==> InstallOne(old(fs), temp, dir, children, n).Some?
      ensures ok ==> fs == InstallOne(old(fs), temp, dir, children, n).value
    {
      var src, dest: Path := [] + [n], dir + [n];
      assert src == [n] && Parent(dest) == dir && !(dest <= dir);
      ok := InstallEntry(temp, src, dest, n in children, renames);
    }

    /** A nested target's directory is merged into, anything else is moved. */
    method InstallEntry(temp: Fs, src: Path, dest: Path, nested: bool, renames: bool) returns (ok: bool)
      requires Grounded(fs) && Grounded(temp) && src in temp
      requires dest != [] && IsDir(fs, Parent(dest))
      modifies this
      ensures Grounded(fs) && SameElsewhere(old(fs), fs, dest)
      ensures ok <==> Compatible(old(fs), Moved(temp, src, dest)) && (nested ==> temp[src].Dir?)
      ensures ok ==> fs == old(fs) + Moved(temp, src, dest)
    {
      if nested {
        if temp[src].File? {
          return false;
        }
        ok := MergeDirs(temp, src, dest);
      } else {
        ok := MovePath(temp, src, dest, renames);
      }
    }

    /** Everything below `dir` that belongs to no target goes. */
    method Cleanup(root: Path, dir: Path, targets: set<Path>)
      requires Grounded(fs) && root <= dir
      requires forall tp :: tp in targets ==> !(tp <= dir[|root|..])
      modifies this
      ensures Grounded(fs)
      ensures fs == CleanedUpTo(old(fs), root, dir, targets, {})
      decreases |Below(fs, dir)|, 2
    {
      var names := ReadDir(fs, dir);
      CleanNamesClean(fs, root, dir, targets, {}, names);
      ghost var goal := CleanNames(fs, root, dir, targets, names);
      var i := 0;
      assert names[0..] == names;
      while i < |names|
        invariant 0 <= i <= |names| && Grounded(fs)
        invariant |Below(fs, dir)| <= |Below(old(fs), dir)|
        invariant CleanNames(fs, root, dir, targets, names[i..]) == goal
      {
        CleanNamesStep(fs, root, dir, targets, names, i);
        CleanStep(root, dir, targets, names[i]);
        i := i + 1;
      }
    }

    method CleanStep(root: Path, dir: Path, targets: set<Path>, n: string)
      requires Grounded(fs) && root <= dir
      requires forall tp :: tp in targets ==> !(tp <= dir[|root|..])
      modifies this
      ensures Grounded(fs) && |Below(fs, dir)| <= |Below(old(fs), dir)|
      ensures fs == CleanedAt(old(fs), root, dir + [n], targets)
      decreases |Below(fs, dir)|, 1
    {
      FewerStays(fs, root, dir, targets, n);
      if dir + [n] in fs {
        CleanEntry(root, dir, targets, n);
      } else {
        NothingThere(fs, root, dir + [n], targets);
      }
    }

    method CleanEntry(root: Path, dir: Path, targets: set<Path>, n: string)
      requires Grounded(fs) && root <= dir && dir + [n] in fs
      requires forall tp :: tp in targets ==> !(tp <= dir[|root|..])
      modifies this
      ensures Grounded(fs)
      ensures fs == CleanedAt(old(fs), root, dir + [n], targets)
      decreases |Below(fs, dir)|, 0
    {
      var path := dir + [n];
      var rel := path[|root|..];
      EntryCase(fs, root, dir, targets, n);
      if fs[path].Dir? {
        if rel in targets {
          return;
        }
        if exists tp :: tp in targets && rel < tp {
          FewerBelow(fs, dir, n);
          Cleanup(root, path, targets);
        } else {
          RemoveAll(path);
        }
      } else if rel != [MANIFEST_FILE] {
        RemoveAll(path);
      }
    }
  }

  /** Every name of a directory, one after the other. */
  function CleanNames(fs: Fs, root: Path, dir: Path, targets: set<Path>, names: seq<string>): Fs
    decreases |names|
  {
    if names == [] then fs
    else CleanNames(CleanedAt(fs, root, dir + [names[0]], targets), root, dir, targets, names[1..])
  }

  lemma CleanNamesStep(fs: Fs, root: Path, dir: Path, targets: set<Path>, names: seq<string>, i: nat)
    requires i < |names|
    ensures CleanNames(fs, root, dir, targets, names[i..]) ==
            CleanNames(CleanedAt(fs, root, dir + [names[i]], targets), root, dir, targets, names[i + 1..])
  {
    assert names[i..][0] == names[i] && names[i..][1..] == names[i + 1..];
  }

  lemma {:induction false} CleanNamesClean(
    fs: Fs, root: Path, dir: Path, targets: set<Path>, done: set<string>, names: seq<string>)
    requires Grounded(fs) && root <= dir && done <= Children(fs, dir) && Lists(names, Children(fs, dir) - done)
    ensures CleanNames(CleanedUpTo(fs, root, dir, targets, Children(fs, dir) - done), root, dir, targets, names)
            == CleanedUpTo(fs, root, dir, targets, {})
    ensures done == {} ==> CleanNames(fs, root, dir, targets, names) == CleanedUpTo(fs, root, dir, targets, {})
    decreases |names|
  {
    var todo := Children(fs, dir) - done;
    if names == [] {
      assert todo == {} by {
        assert forall n :: n in todo ==> n in names;
      }
    } else {
      ListsRest(names, Children(fs, dir), done);
      CleanOne(fs, root, dir, targets, todo, names[0]);
      assert todo - {names[0]} == Children(fs, dir) - (done + {names[0]});
      CleanNamesClean(fs, root, dir, targets, done + {names[0]}, names[1..]);
    }
    CleanNothingYet(fs, root, dir, targets);
    assert done == {} ==> todo == Children(fs, dir);
  }

  lemma NothingThere(fs: Fs, root: Path, path: Path, targets: set<Path>)
    requires Grounded(fs) && path !in fs
    ensures CleanedAt(fs, root, path, targets) == fs
  {
    forall p | p in fs && path <= p ensures p == path {
      if p != path {
        assert path < p;
        AboveIsDir(fs, p, path);
      }
    }
  }

  lemma FewerStays(fs: Fs, root: Path, dir: Path, targets: set<Path>, n: string)
    ensures |Below(CleanedAt(fs, root, dir + [n], targets), dir)| <= |Below(fs, dir)|
  {
    Cardinality(Below(CleanedAt(fs, root, dir + [n], targets), dir), Below(fs, dir));
  }

  /** What each branch of the loop body amounts to. */
  lemma EntryCase(fs: Fs, root: Path, dir: Path, targets: set<Path>, n: string)
    requires Grounded(fs) && root <= dir && dir + [n] in fs
    requires forall tp :: tp in targets ==> !(tp <= dir[|root|..])
    ensures var path := dir + [n]; var rel := path[|root|..];
      && root < path
      && (rel !in targets ==> forall tp :: tp in targets ==> !(tp <= rel))
      && CleanedAt(fs, root, path, targets) ==
         if fs[path].Dir? then
           if rel in targets then fs
           else if exists tp :: tp in targets && rel < tp then CleanedUpTo(fs, root, path, targets, {})
           else map q | q in fs && !(path <= q) :: fs[q]
         else if rel == [MANIFEST_FILE] then fs
         else map q | q in fs && !(path <= q) :: fs[q]
  {
    var path := dir + [n];
    var rel := path[|root|..];
    assert rel == dir[|root|..] + [n] && root < path;
    BetweenIsEqual(dir[|root|..], n, targets);
    if fs[path].File? {
      FileCase(fs, root, targets, path);
    } else if rel in targets {
      TargetCase(fs, root, targets, path);
    } else if exists tp :: tp in targets && rel < tp {
      AboveCase(fs, root, targets, path);
    } else {
      StrayCase(fs, root, targets, path);
    }
  }

  lemma FileCase(fs: Fs, root: Path, targets: set<Path>, path: Path)
    requires Grounded(fs) && root < path && path in fs && fs[path].File?
    requires forall tp :: tp in targets ==> !(tp < path[|root|..])
    ensures CleanedAt(fs, root, path, targets) ==
      if path[|root|..] == [MANIFEST_FILE] then fs else map q | q in fs && !(path <= q) :: fs[q]
  {
    FileStandsAlone(fs, root, targets, path);
  }

  lemma TargetCase(fs: Fs, root: Path, targets: set<Path>, path: Path)
    requires Grounded(fs) && root < path && IsDir(fs, path) && path[|root|..] in targets
    ensures CleanedAt(fs, root, path, targets) == fs
  {
    TargetIsKept(fs, root, targets, path);
  }

  lemma AboveCase(fs: Fs, root: Path, targets: set<Path>, path: Path)
    requires root < path && IsDir(fs, path) && exists tp :: tp in targets && path[|root|..] < tp
    ensures CleanedAt(fs, root, path, targets) == CleanedUpTo(fs, root, path, targets, {})
  {
    assert Belongs(fs[path], targets, path[|root|..]) && root <= path;
    forall p | p in fs
      ensures p in CleanedAt(fs, root, path, targets) <==> p in CleanedUpTo(fs, root, path, targets, {})
    {
      assert path <= p <==> p == path || path < p;
    }
  }

  lemma StrayCase(fs: Fs, root: Path, targets: set<Path>, path: Path)
    requires root < path && IsDir(fs, path)
    requires forall tp :: tp in targets ==> !(tp <= path[|root|..]) && !(path[|root|..] < tp)
    ensures CleanedAt(fs, root, path, targets) == map q | q in fs && !(path <= q) :: fs[q]
  {
    NothingBelongs(fs, root, targets, path);
  }

  lemma CleanNothingYet(fs: Fs, root: Path, dir: Path, targets: set<Path>)
    requires Grounded(fs)
    ensures CleanedUpTo(fs, root, dir, targets, Children(fs, dir)) == fs
  {
    forall p | p in fs && dir < p ensures p[|dir|] in Children(fs, dir) {
      NamesAreChildren(fs, dir, p);
    }
  }

  /** What handling one name of `dir` does to everything at or below it. */
  lemma CleanOne(fs: Fs, root: Path, dir: Path, targets: set<Path>, todo: set<string>, n: string)
    requires root <= dir && n in todo
    ensures CleanedAt(CleanedUpTo(fs, root, dir, targets, todo), root, dir + [n], targets) ==
            CleanedUpTo(fs, root, dir, targets, todo - {n})
    ensures dir + [n] in CleanedUpTo(fs, root, dir, targets, todo) <==> dir + [n] in fs
  {
    forall p ensures dir + [n] <= p <==> dir < p && p[|dir|] == n {
      BelowName([], dir, n, p);
    }
    assert root <= dir + [n] && (dir + [n])[|dir|] == n;
  }

  lemma TargetIsKept(fs: Fs, root: Path, targets: set<Path>, path: Path)
    requires Grounded(fs) && root < path && IsDir(fs, path) && path[|root|..] in targets
    ensures forall p :: p in fs && path <= p ==> Belongs(fs[p], targets, p[|root|..])
  {
    forall p | p in fs && path <= p ensures Belongs(fs[p], targets, p[|root|..]) {
      assert path[|root|..] <= p[|root|..];
      if path != p {
        assert path[|root|..] < p[|root|..];
      }
    }
  }

  lemma BetweenIsEqual(dir: Path, n: string, targets: set<Path>)
    requires forall tp :: tp in targets ==> !(tp <= dir)
    ensures forall tp :: tp in targets && tp <= dir + [n] ==> tp == dir + [n]
  {
    forall tp | tp in targets && tp <= dir + [n] ensures tp == dir + [n] {
      PrefixesCompare(tp, dir, dir + [n]);
    }
  }

  lemma FileStandsAlone(fs: Fs, root: Path, targets: set<Path>, path: Path)
    requires Grounded(fs) && root < path && path in fs && fs[path].File?
    requires forall tp :: tp in targets ==> !(tp < path[|root|..])
    ensures forall p :: p in fs && path <= p ==> p == path
    ensures Belongs(fs[path], targets, path[|root|..]) <==> path[|root|..] == [MANIFEST_FILE]
  {
    forall p | p in fs && path <= p ensures p == path {
      if p != path {
        AboveIsDir(fs, p, path);
      }
    }
  }

  /** Neither a target's directory nor above one. */
  lemma NothingBelongs(fs: Fs, root: Path, targets: set<Path>, path: Path)
    requires root < path && IsDir(fs, path)
    requires forall tp :: tp in targets ==> !(tp <= path[|root|..]) && !(path[|root|..] < tp)
    ensures forall p :: p in fs && path <= p ==> !Belongs(fs[p], targets, p[|root|..])
  {
    var top := path[|root|..];
    forall p | p in fs && path <= p ensures !Belongs(fs[p], targets, p[|root|..]) {
      var rel := p[|root|..];
      assert top <= rel && top != [];
      forall tp | tp in targets ensures !(tp < rel) && !(rel <= tp) {
        ComparedAbove(tp, top, rel);
      }
      assert rel == [MANIFEST_FILE] ==> p == path;
    }
  }

  lemma ComparedAbove(tp: Path, top: Path, rel: Path)
    requires top <= rel
    ensures tp < rel || rel <= tp ==> tp <= top || top < tp
  {
    if tp < rel {
      PrefixesCompare(tp, top, rel);
    } else if rel <= tp {
      assert top <= tp && (top == tp || top < tp);
    }
  }

  lemma PrefixesCompare(a: Path, b: Path, p: Path)
    requires a <= p && b <= p
    ensures a <= b || b < a
  {
    if |a| <= |b| {
      assert a == p[..|a|] == b[..|a|];
    } else {
      assert b == p[..|b|] == a[..|b|];
    }
  }

  /** One entry of the fresh output; a file cannot go where a nested target's directory is. */
  function InstallOne(fs: Fs, temp: Fs, dir: Path, children: set<string>, n: string): Option<Fs>
    requires [n] in temp
  {
    var piece := Moved(temp, [] + [n], dir + [n]);
    if Compatible(fs, piece) && (n in children ==> temp[[n]].Dir?) then Some(fs + piece) else None
  }

  function InstallAll(fs: Fs, temp: Fs, dir: Path, children: set<string>, names: seq<string>): Option<Fs>
    requires forall n :: n in names ==> [n] in temp
    decreases |names|
  {
    if names == [] then Some(fs)
    else
      assert names[0] in names && forall n :: n in names[1..] ==> n in names;
      match InstallOne(fs, temp, dir, children, names[0])
      case None => None
      case Some(next) => InstallAll(next, temp, dir, children, names[1..])
  }

  lemma InstallAllStep(fs: Fs, temp: Fs, dir: Path, children: set<string>, names: seq<string>, i: nat)
    requires i < |names| && forall n :: n in names ==> [n] in temp
    ensures [names[i]] in temp
    ensures (forall n :: n in names[i..] ==> n in names) && (forall n :: n in names[i + 1..] ==> n in names)
    ensures InstallAll(fs, temp, dir, children, names[i..]) ==
      match InstallOne(fs, temp, dir, children, names[i])
      case None => None
      case Some(next) => InstallAll(next, temp, dir, children, names[i + 1..])
  {
    assert names[i] in names;
    assert names[i..][0] == names[i] && names[i..][1..] == names[i + 1..];
  }

  lemma {:induction false} InstallAllMoves(fs: Fs, temp: Fs, dir: Path, children: set<string>, names: seq<string>)
    requires forall n :: n in names ==> [n] in temp
    ensures InstallAll(fs, temp, dir, children, names) ==
      if forall n :: n in names && n in children ==> temp[[n]].Dir? then MergeAll(fs, temp, [], dir, names) else None
    decreases |names|
  {
    if names != [] {
      var n, rest := names[0], names[1..];
      assert n in names && names == [n] + rest;
      var piece := Moved(temp, [] + [n], dir + [n]);
      if Compatible(fs, piece) {
        InstallAllMoves(fs + piece, temp, dir, children, rest);
      }
    }
  }

  predicate Renames(fs: Fs, temp: Fs, from: Path, to: Path)
    requires from in temp
  {
    || to !in fs
    || (temp[from].File? && fs[to].File?)
    || (temp[from].Dir? && fs[to].Dir? && Children(fs, to) == {})
  }

  lemma RenameFits(fs: Fs, temp: Fs, from: Path, to: Path)
    requires Grounded(fs) && Grounded(temp) && from in temp && Renames(fs, temp, from, to)
    requires to != [] && IsDir(fs, Parent(to))
    ensures Compatible(fs, Moved(temp, from, to)) && Grounded(fs + Moved(temp, from, to))
  {
    var moved := Moved(temp, from, to);
    assert from + to[|to|..] == from;
    if temp[from].File? {
      FileMoves(temp, from, to);
      FileGrounds(fs, to, temp[from]);
      assert fs + moved == fs[to := temp[from]];
    } else {
      forall p | p in fs && to < p ensures false {
        AboveIsDir(fs, p, to);
        NamesAreChildren(fs, to, p);
      }
      MovedGrounds(fs, temp, from, to);
    }
  }

  lemma MovedGrounds(fs: Fs, temp: Fs, from: Path, to: Path)
    requires Grounded(fs) && Grounded(temp) && IsDir(temp, from)
    requires to != [] && IsDir(fs, Parent(to))
    requires Compatible(fs, Moved(temp, from, to))
    ensures Grounded(fs + Moved(temp, from, to))
  {
    var moved := Moved(temp, from, to);
    var r := fs + moved;
    forall p | p in r && p != [] ensures IsDir(r, Parent(p)) {
      if p in moved && p != to {
        ParentMoved(temp, from, to, p);
      }
    }
  }

  lemma ParentMoved(temp: Fs, from: Path, to: Path, p: Path)
    requires Grounded(temp) && p in Moved(temp, from, to) && p != to
    ensures IsDir(Moved(temp, from, to), Parent(p))
  {
    var q, rest := from + p[|to|..], p[|to|..];
    assert p == to + rest && rest != [] && q in temp;
    assert Parent(p) == to + Parent(rest) && Parent(q) == from + Parent(rest);
    assert Parent(p)[|to|..] == Parent(rest);
  }

  lemma TopNames(temp: Fs, names: seq<string>, children: set<string>)
    requires Lists(names, Children(temp, []))
    ensures forall n :: n in names <==> [n] in temp
    ensures (forall n :: n in children && [n] in temp ==> temp[[n]].Dir?) <==>
            (forall n :: n in names && n in children ==> temp[[n]].Dir?)
  {
    forall n ensures n in names <==> [n] in temp {
      ChildrenAreEntries(temp, [], n);
      assert [] + [n] == [n];
    }
  }

  lemma EmptiedBase(fs: Fs, dir: Path, children: set<string>)
    requires Compatible(fs, DirsTo(dir))
    ensures Emptied(fs + DirsTo(dir), dir, children) == Emptied(fs, dir, children) + DirsTo(dir)
    ensures IsDir(Emptied(fs, dir, children) + DirsTo(dir), dir)
  {
    assert forall p :: p in DirsTo(dir) ==> !(dir < p);
    assert dir in DirsTo(dir);
  }

  lemma EmptiedFits(fs: Fs, temp: Fs, dir: Path, children: set<string>)
    requires Compatible(fs, DirsTo(dir)) && (temp == map[] || IsDir(temp, []))
    ensures var emptied, moved := Emptied(fs, dir, children), Moved(temp, [], dir);
      Compatible(emptied + DirsTo(dir), moved) <==> Compatible(emptied, moved)
  {
    var emptied, moved := Emptied(fs, dir, children), Moved(temp, [], dir);
    assert [] + dir[|dir|..] == [];
    assert dir in DirsTo(dir);
    forall p | p in moved && p in DirsTo(dir) ensures p == dir && moved[p].Dir? && (p in emptied ==> emptied[p].Dir?) {
      assert dir <= p <= dir;
    }
    SameWhereItMatters(emptied, DirsTo(dir), moved);
  }

  lemma SameWhereItMatters(a: Fs, dirs: Fs, b: Fs)
    requires forall p :: p in b && p in dirs ==> dirs[p].Dir? && b[p].Dir? && (p in a ==> a[p].Dir?)
    ensures Compatible(a + dirs, b) <==> Compatible(a, b)
  {
  }

  lemma SomeName(names: seq<string>)
    ensures names == [] || exists n :: n in names
  {
    assert names == [] || names[0] in names;
  }

  lemma InstallWhole(base: Fs, temp: Fs, dir: Path, names: seq<string>)
    requires Grounded(temp) && (temp == map[] || IsDir(temp, [])) && IsDir(base, dir)
    requires Lists(names, Children(temp, []))
    ensures MergeAll(base, temp, [], dir, names) ==
      if Compatible(base, Moved(temp, [], dir)) then Some(base + Moved(temp, [], dir)) else None
  {
    if temp == map[] {
      assert Moved(temp, [], dir) == map[];
      SomeName(names);
      assert base + map[] == base;
    } else {
      assert base[dir := Dir] == base;
      MergeWhole(base, temp, [], dir, names);
    }
  }

  // ---- what the loops above rely on ------------------------------------------------------

  ghost predicate SameElsewhere(a: Fs, b: Fs, to: Path) {
    forall p :: !(to <= p) ==> (p in a <==> p in b) && (p in a ==> a[p] == b[p])
  }

  lemma SameFurther(a: Fs, b: Fs, c: Fs, to: Path, n: string)
    requires SameElsewhere(a, b, to) && SameElsewhere(b, c, to + [n])
    ensures SameElsewhere(a, c, to)
    ensures IsDir(b, to) ==> IsDir(c, to)
  {
    assert to <= to + [n];
    assert !(to + [n] <= to);
  }

  /** The names of a set, each once. */
  ghost predicate Lists(names: seq<string>, s: set<string>) {
    && (forall n :: n in names <==> n in s)
    && (forall i, j :: 0 <= i < j < |names| ==> names[i] != names[j])
  }

  /** Merging entry after entry, until one does not fit. */
  function MergeAll(fs: Fs, temp: Fs, from: Path, to: Path, names: seq<string>): Option<Fs>
    decreases |names|
  {
    if names == [] then Some(fs)
    else
      var piece := Moved(temp, from + [names[0]], to + [names[0]]);
      if Compatible(fs, piece) then MergeAll(fs + piece, temp, from, to, names[1..]) else None
  }

  lemma MergeAllStep(fs: Fs, temp: Fs, from: Path, to: Path, names: seq<string>, i: nat)
    requires i < |names|
    ensures var piece := Moved(temp, from + [names[i]], to + [names[i]]);
      MergeAll(fs, temp, from, to, names[i..]) ==
        if Compatible(fs, piece) then MergeAll(fs + piece, temp, from, to, names[i + 1..]) else None
  {
    assert names[i..][0] == names[i] && names[i..][1..] == names[i + 1..];
  }

  lemma ListsRest(names: seq<string>, all: set<string>, done: set<string>)
    requires names != [] && Lists(names, all - done) && done <= all
    ensures names[0] in all && names[0] !in done
    ensures Lists(names[1..], all - (done + {names[0]})) && done + {names[0]} <= all
  {
    assert names[0] in names;
    assert names == [names[0]] + names[1..];
    forall n ensures n in names[1..] <==> n in all - (done + {names[0]}) {
      assert n in names <==> n == names[0] || n in names[1..];
    }
  }

  /** In any order this moves the whole subtree, or fails because it does not fit. */
  lemma {:induction false} MergeAllMoves(
    base: Fs, temp: Fs, from: Path, to: Path, done: set<string>, names: seq<string>)
    requires Grounded(temp) && Lists(names, Children(temp, from) - done) && done <= Children(temp, from)
    requires Compatible(base, Part(temp, from, to, done))
    ensures MergeAll(base + Part(temp, from, to, done), temp, from, to, names) ==
      if Compatible(base, Moved(temp, from, to)) then Some(base + Moved(temp, from, to)) else None
    decreases |names|
  {
    if names == [] {
      assert done == Children(temp, from) by {
        forall n | n in Children(temp, from) ensures n in done {
          assert n !in names;
        }
      }
      PartIsAll(temp, from, to);
    } else {
      var n, rest := names[0], names[1..];
      ListsRest(names, Children(temp, from), done);
      MergeMore(base, temp, from, to, done, n);
      if Compatible(base + Part(temp, from, to, done), Moved(temp, from + [n], to + [n])) {
        MergeAllMoves(base, temp, from, to, done + {n}, rest);
      }
    }
  }

  lemma FileMoves(temp: Fs, from: Path, to: Path)
    requires Grounded(temp) && from in temp && temp[from].File?
    ensures Moved(temp, from, to) == map[to := temp[from]]
  {
    assert from + to[|to|..] == from;
    forall p | p in temp && from <= p ensures p == from {
      if from < p {
        AboveIsDir(temp, p, from);
      }
    }
  }

  lemma FileGrounds(fs: Fs, p: Path, e: Entry)
    requires Grounded(fs) && p != [] && IsDir(fs, Parent(p)) && e.File? && !IsDir(fs, p)
    ensures Grounded(fs[p := e])
  {
    forall q | q in fs && q != [] ensures Parent(q) != p {
      assert IsDir(fs, Parent(q));
    }
  }

  lemma FewerBelow(temp: Fs, from: Path, n: string)
    requires from + [n] in temp
    ensures |Below(temp, from + [n])| < |Below(temp, from)|
  {
    var inner := set rel | rel in Below(temp, from + [n]) :: [n] + rel;
    forall rel | rel in Below(temp, from + [n]) ensures [n] + rel in Below(temp, from) {
      assert from + [n] + rel == from + ([n] + rel);
    }
    assert [n] in Below(temp, from) && [n] !in inner;
    SameSize(Below(temp, from + [n]), n);
    SmallerSet(inner, Below(temp, from), [n]);
  }

  lemma {:induction false} SameSize(s: set<Path>, n: string)
    ensures |set rel | rel in s :: [n] + rel| == |s|
  {
    if s != {} {
      var x :| x in s;
      SameSize(s - {x}, n);
      var image := set rel | rel in s - {x} :: [n] + rel;
      assert (set rel | rel in s :: [n] + rel) == image + {[n] + x};
      assert forall rel :: rel in s - {x} ==> ([n] + rel)[1..] == rel;
      assert ([n] + x)[1..] == x;
      assert [n] + x !in image;
    }
  }

  lemma SmallerSet(a: set<Path>, b: set<Path>, x: Path)
    requires a <= b && x in b && x !in a
    ensures |a| < |b|
  {
    Cardinality(a, b - {x});
  }

  lemma {:induction false} Cardinality(a: set<Path>, b: set<Path>)
    requires a <= b
    ensures |a| <= |b|
  {
    if a != {} {
      var x :| x in a;
      Cardinality(a - {x}, b - {x});
    }
  }

  lemma FileInTheWay(base: Fs, temp: Fs, from: Path, to: Path)
    requires from in temp && temp[from].Dir? && to in base && base[to].File?
    ensures !Compatible(base, Moved(temp, from, to))
  {
    assert from + to[|to|..] == from;
    assert to in Moved(temp, from, to);
  }

  lemma MergeWhole(base: Fs, temp: Fs, from: Path, to: Path, names: seq<string>)
    requires Grounded(temp) && IsDir(temp, from) && !(to in base && base[to].File?)
    requires Lists(names, Children(temp, from))
    ensures MergeAll(base[to := Dir], temp, from, to, names) ==
      if Compatible(base, Moved(temp, from, to)) then Some(base + Moved(temp, from, to)) else None
  {
    EmptyPart(base, temp, from, to);
    assert Children(temp, from) - {} == Children(temp, from);
    MergeAllMoves(base, temp, from, to, {}, names);
  }

  lemma EmptyPart(base: Fs, temp: Fs, from: Path, to: Path)
    requires IsDir(temp, from) && !(to in base && base[to].File?)
    ensures base[to := Dir] == base + Part(temp, from, to, {})
    ensures Compatible(base, Part(temp, from, to, {}))
  {
    assert from + to[|to|..] == from;
    assert Part(temp, from, to, {}) == map[to := Dir];
  }

  lemma MergeMore(base: Fs, temp: Fs, from: Path, to: Path, done: set<string>, n: string)
    requires Compatible(base, Part(temp, from, to, done))
    requires n !in done
    ensures var part, piece, next :=
        Part(temp, from, to, done), Moved(temp, from + [n], to + [n]), Part(temp, from, to, done + {n});
      if Compatible(base + part, piece) then Compatible(base, next) && base + part + piece == base + next
      else !Compatible(base, Moved(temp, from, to))
  {
    var part, piece := Part(temp, from, to, done), Moved(temp, from + [n], to + [n]);
    PieceOfPart(temp, from, to, done, n);
    AddDisjoint(base, part, piece);
    if !Compatible(base, piece) {
      LargerClash(base, piece, Moved(temp, from, to));
    }
  }

  lemma AddDisjoint(base: Fs, part: Fs, piece: Fs)
    requires part.Keys !! piece.Keys && Compatible(base, part)
    ensures Compatible(base + part, piece) <==> Compatible(base, piece)
    ensures Compatible(base, piece) ==> Compatible(base, part + piece)
    ensures base + part + piece == base + (part + piece)
  {
  }

  lemma LargerClash(base: Fs, piece: Fs, whole: Fs)
    requires !Compatible(base, piece)
    requires forall p :: p in piece ==> p in whole && whole[p] == piece[p]
    ensures !Compatible(base, whole)
  {
  }

  lemma PieceOfPart(temp: Fs, from: Path, to: Path, done: set<string>, n: string)
    requires n !in done
    ensures var piece := Moved(temp, from + [n], to + [n]);
      && Part(temp, from, to, done + {n}) == Part(temp, from, to, done) + piece
      && piece.Keys !! Part(temp, from, to, done).Keys
      && forall p :: p in piece ==> p in Moved(temp, from, to) && Moved(temp, from, to)[p] == piece[p]
  {
    var piece, whole := Moved(temp, from + [n], to + [n]), Moved(temp, from, to);
    forall p ensures p in piece <==> p in whole && p != to && p[|to|] == n {
      BelowName(from, to, n, p);
    }
    forall p | p in piece ensures whole[p] == piece[p] {
      BelowName(from, to, n, p);
    }
  }

  lemma BelowName(from: Path, to: Path, n: string, p: Path)
    ensures to + [n] <= p <==> to < p && p[|to|] == n
    ensures to + [n] <= p ==> from + [n] + p[|to| + 1..] == from + p[|to|..]
  {
    if to < p && p[|to|] == n {
      assert p[..|to| + 1] == to + [n];
    }
    if to + [n] <= p {
      assert p[|to|..] == [n] + p[|to| + 1..];
    }
  }

  /** The names in a directory account for everything in it. */
  lemma PartIsAll(temp: Fs, from: Path, to: Path)
    requires Grounded(temp)
    ensures Part(temp, from, to, Children(temp, from)) == Moved(temp, from, to)
  {
    forall p | p in Moved(temp, from, to) && p != to ensures p[|to|] in Children(temp, from) {
      var q := from + p[|to|..];
      NamesAreChildren(temp, from, q);
      assert q[|from|] == p[|to|];
    }
  }

  lemma NamesAreChildren(fs: Fs, dir: Path, p: Path)
    requires Grounded(fs) && p in fs && dir < p
    ensures p[|dir|] in Children(fs, dir)
  {
    var top := p[..|dir| + 1];
    assert top == dir + [p[|dir|]];
    if top != p {
      AboveIsDir(fs, p, top);
    }
    ChildrenAreEntries(fs, dir, p[|dir|]);
  }

  /** Removal still has to look at the names in `todo`. */
  ghost function EmptiedUpTo(fs: Fs, dir: Path, children: set<string>, todo: set<string>): Fs {
    map p | p in fs && (dir < p ==> IsKept(children, p[|dir|]) || p[|dir|] in todo) :: fs[p]
  }

  lemma EmptiedMore(fs: Fs, dir: Path, children: set<string>, todo: set<string>, n: string)
    requires n in todo
    ensures EmptiedUpTo(fs, dir, children, todo - {n}) ==
      var now := EmptiedUpTo(fs, dir, children, todo);
      if IsKept(children, n) then now else map q | q in now && !(dir + [n] <= q) :: now[q]
  {
    forall q ensures dir + [n] <= q <==> dir < q && q[|dir|] == n {
      if dir < q && q[|dir|] == n {
        assert q[..|dir| + 1] == dir + [n];
      }
    }
  }

  lemma NothingLeftToEmpty(fs: Fs, dir: Path, children: set<string>)
    requires Grounded(fs)
    ensures EmptiedUpTo(fs, dir, children, {}) == Emptied(fs, dir, children)
    ensures Grounded(Emptied(fs, dir, children))
    ensures EmptiedUpTo(fs, dir, children, Children(fs, dir)) == fs
  {
    forall p | p in fs && dir < p ensures p[|dir|] in Children(fs, dir) {
      NamesAreChildren(fs, dir, p);
    }
  }

  lemma DirIsThere(fs: Fs, dir: Path)
    requires Grounded(fs) && dir in fs
    ensures Compatible(fs, DirsTo(dir)) <==> fs[dir].Dir?
    ensures fs[dir].Dir? ==> fs + DirsTo(dir) == fs
  {
    assert dir in DirsTo(dir);
    forall p | p in DirsTo(dir) && p != dir ensures IsDir(fs, p) {
      AboveIsDir(fs, dir, p);
    }
  }

  lemma DirsToStep(dir: Path)
    requires dir != []
    ensures DirsTo(dir) == DirsTo(Parent(dir))[dir := Dir]
  {
    forall p ensures p in DirsTo(dir) <==> p == dir || p in DirsTo(Parent(dir)) {
      if p <= dir && p != dir {
        assert p == Parent(dir)[..|p|];
      }
    }
  }

  lemma OneDirMore(fs: Fs, dir: Path)
    requires Grounded(fs) && dir !in fs
    requires dir != [] ==> Compatible(fs, DirsTo(Parent(dir))) && Grounded(fs + DirsTo(Parent(dir)))
    ensures Compatible(fs, DirsTo(dir))
    ensures (if dir == [] then fs else fs + DirsTo(Parent(dir)))[dir := Dir] == fs + DirsTo(dir)
    ensures Grounded(fs + DirsTo(dir))
  {
    var above := if dir == [] then map[] else DirsTo(Parent(dir));
    assert DirsTo(dir) == above[dir := Dir] by {
      if dir != [] { DirsToStep(dir); }
    }
    assert dir != [] ==> Parent(dir) in above && above[Parent(dir)] == Dir;
    AddEntry(fs, above, dir);
    GroundedDir(fs + above, dir);
  }

  lemma AddEntry(fs: Fs, m: Fs, dir: Path)
    requires Compatible(fs, m) && dir !in fs
    ensures Compatible(fs, m[dir := Dir]) && (fs + m)[dir := Dir] == fs + m[dir := Dir]
  {
  }

  lemma GroundedDir(fs: Fs, dir: Path)
    requires Grounded(fs) && (dir == [] || IsDir(fs, Parent(dir)))
    ensures Grounded(fs[dir := Dir])
  {
  }

  // ---- what this means for every set of targets --------------------------------------------

  /** `child_names`: first names of the targets nested in `tp`. */
  function ChildNames(tp: Path, targets: set<Path>): (r: set<string>)
    ensures forall q :: q in targets && tp < q && q[|tp|] != "" ==> q[|tp|] in r
  {
    set q | q in targets && tp < q && q[|tp|] != "" :: q[|tp|]
  }

  /** `root.join(target_path)`: empty name parts leave no trace in a path, except that a
      leading one makes it absolute. */
  function TargetDir(root: Path, tp: Path): Path {
    if |tp| > 1 && tp[0] == "" then Nonempty(tp) else root + Nonempty(tp)
  }

  lemma {:induction false} ProperPartsStay(tp: Path)
    requires forall i :: 0 <= i < |tp| ==> tp[i] != ""
    ensures Nonempty(tp) == tp
  {
    if tp != [] {
      ProperPartsStay(tp[1..]);
    }
  }

  /** Installing one target leaves every entry of any other target's directory as it
      is, unless the fresh output itself has an entry there. */
  lemma {:induction false} InstallSparesOthers(
    fs: Fs, temp: Fs, root: Path, targets: set<Path>, a: Path, b: Path, p: Path)
    requires a in targets && b in targets && a != b && !(b < a)
    requires forall tp, i :: tp in targets && 0 <= i < |tp| ==> tp[i] != ""
    requires root + b <= p
    requires root + a <= p ==> p[|root + a|..] !in temp
    ensures var after := Installed(fs, temp, root + a, ChildNames(a, targets));
      (p in fs <==> p in after) && (p in fs ==> after[p] == fs[p])
  {
    var dir := root + a;
    assert p !in Moved(temp, [], dir) by {
      assert dir <= p ==> [] + p[|dir|..] == p[|dir|..];
    }
    if dir <= p {
      PrefixesCompare(dir, root + b, p);
      assert a == dir[|root|..] && b == (root + b)[|root|..];
      assert a < b;
      assert p[|dir|] == b[|a|];
    } else {
      assert p <= dir ==> root + b <= dir;
      UnderRoot(root, b, a);
      assert p !in DirsTo(dir);
    }
  }

  lemma UnderRoot(root: Path, a: Path, b: Path)
    ensures root + a <= root + b <==> a <= b
  {
    if root + a <= root + b {
      assert a == (root + a)[|root|..] == (root + b)[|root|..|root + a|] == b[..|a|];
    }
  }

  /** A target nested in `b` (`b < a`) is installed inside one of the directories
      that `b`'s own installs and digests leave out. */
  lemma {:induction false} InstallSparesParent(fs: Fs, temp: Fs, root: Path, targets: set<Path>, a: Path, b: Path)
    requires a in targets && b in targets && b < a
    requires forall tp, i :: tp in targets && 0 <= i < |tp| ==> tp[i] != ""
    requires Compatible(fs, DirsTo(root + a))
    ensures var after := Installed(fs, temp, root + a, ChildNames(a, targets));
      TreeFiles(after, root + b, ChildNames(b, targets)) == TreeFiles(fs, root + b, ChildNames(b, targets))
  {
    var after, skip := Installed(fs, temp, root + a, ChildNames(a, targets)), ChildNames(b, targets);
    assert a[|b|] in skip;
    forall rel | rel != [] && rel[0] !in skip
      ensures var p := root + b + rel;
        (p in after && after[p].File? <==> p in fs && fs[p].File?) && (p in fs && fs[p].File? ==> after[p] == fs[p])
    {
      OutsideChild(fs, temp, root, targets, a, b, rel);
    }
  }

  lemma OutsideChild(fs: Fs, temp: Fs, root: Path, targets: set<Path>, a: Path, b: Path, rel: Path)
    requires b < a && rel != [] && rel[0] != a[|b|] && Compatible(fs, DirsTo(root + a))
    ensures var p, after := root + b + rel, Installed(fs, temp, root + a, ChildNames(a, targets));
      (p in after <==> p in fs) && (p in fs ==> after[p] == fs[p])
  {
    var p, dir := root + b + rel, root + a;
    assert p[|root| + |b|] == rel[0] && dir[|root| + |b|] == a[|b|];
    assert !(dir <= p) && !(p <= dir);
  }

  /** Cleaning up leaves the files in targets' directories and the manifest, the directories
      in, at or above these, and all that is not below the root. */
  lemma {:induction false} CleanupKeepsExactly(fs: Fs, root: Path, targets: set<Path>, p: Path)
    requires p in fs
    ensures p in Cleaned(fs, root, targets) <==>
      || !(root < p)
      || (exists tp :: tp in targets && root + tp < p)
      || if fs[p].File? then p == root + [MANIFEST_FILE] else exists tp :: tp in targets && p <= root + tp
    ensures p in Cleaned(fs, root, targets) ==> Cleaned(fs, root, targets)[p] == fs[p]
  {
    if root < p {
      var rel := p[|root|..];
      assert p == root + rel;
      forall tp ensures (root + tp < p <==> tp < rel) && (p <= root + tp <==> rel <= tp) {
        SameBelow(root, tp, rel);
        SameBelow(root, rel, tp);
      }
      assert rel == [MANIFEST_FILE] <==> p == root + [MANIFEST_FILE];
    }
  }

  lemma SameBelow(root: Path, a: Path, b: Path)
    ensures root + a <= root + b <==> a <= b
  {
    if root + a <= root + b {
      assert a == (root + a)[|root|..] == (root + b)[|root|..|root + a|] == b[..|a|];
    }
    if a <= b {
      assert root + a == (root + b)[..|root + a|];
    }
  }

  /** Cleaning up keeps all the files below a directory, whatever else there is. */
  ghost predicate CleanupSpares(root: Path, targets: set<Path>, dir: Path) {
    forall fs: Fs, p: Path :: Grounded(fs) && p in fs && fs[p].File? && dir < p ==> p in Cleaned(fs, root, targets)
  }

  /** This is true exactly when some target's path, empty parts included, leads to the
      directory or above it; and of directories that are apart from `root`. */
  lemma {:induction false} SparedExactly(root: Path, targets: set<Path>, dir: Path)
    ensures root <= dir ==> (CleanupSpares(root, targets, dir) <==> exists q :: q in targets && q <= dir[|root|..])
    ensures dir < root ==> (CleanupSpares(root, targets, dir) <==> [] in targets)
    ensures !(root <= dir) && !(dir <= root) ==> CleanupSpares(root, targets, dir)
  {
    if root <= dir {
      SparedBelow(root, targets, dir[|root|..]);
      assert root + dir[|root|..] == dir;
    } else if dir <= root {
      SparedBelow(root, targets, []);
      SparedAbove(root, targets, dir);
    } else {
      forall fs: Fs, p: Path | Grounded(fs) && p in fs && fs[p].File? && dir < p
        ensures p in Cleaned(fs, root, targets)
      {
        if root <= p {
          PrefixesCompare(root, dir, p);
        }
      }
    }
  }

  lemma {:induction false} SparedBelow(root: Path, targets: set<Path>, parts: Path)
    ensures CleanupSpares(root, targets, root + parts) <==> exists q :: q in targets && q <= parts
  {
    if q :| q in targets && q <= parts {
      forall fs: Fs, p: Path | Grounded(fs) && p in fs && fs[p].File? && root + parts < p
        ensures p in Cleaned(fs, root, targets)
      {
        assert p[|root|..][..|parts|] == parts;
        assert q < p[|root|..];
      }
    } else {
      OneFileIsLost(root, targets, parts);
    }
  }

  /** Above `root` everything in it counts. */
  lemma {:induction false} SparedAbove(root: Path, targets: set<Path>, dir: Path)
    requires dir < root && (CleanupSpares(root, targets, root + []) <==> exists q :: q in targets && q <= [])
    ensures CleanupSpares(root, targets, dir) <==> [] in targets
  {
    assert root + [] == root;
    if CleanupSpares(root, targets, dir) {
      forall fs: Fs, p: Path | Grounded(fs) && p in fs && fs[p].File? && root < p
        ensures p in Cleaned(fs, root, targets)
      {
        assert dir < p;
      }
      var q :| q in targets && q <= [];
      assert q == [];
    }
    if [] in targets {
      forall fs: Fs, p: Path | Grounded(fs) && p in fs && fs[p].File? && dir < p
        ensures p in Cleaned(fs, root, targets)
      {
        if root < p {
          assert [] < p[|root|..];
        }
      }
    }
  }

  lemma {:induction false} OneFileIsLost(root: Path, targets: set<Path>, parts: Path)
    requires forall q :: q in targets ==> !(q <= parts)
    ensures !CleanupSpares(root, targets, root + parts)
  {
    var dir := root + parts;
    var p := dir + ["x"];
    var fs := DirsTo(dir)[p := File(false, "")];
    OneFileGrounded(dir, "x");
    forall q | q in targets ensures !(q < parts + ["x"]) {
      ProperPrefix(q, parts, "x");
    }
    assert p == root + (parts + ["x"]);
    assert (parts + ["x"])[|parts|] == "x" && MANIFEST_FILE != "x";
    NotOfATarget(fs, root, targets, parts + ["x"]);
    assert Grounded(fs) && p in fs && fs[p].File? && dir < p;
  }

  lemma NotOfATarget(fs: Fs, root: Path, targets: set<Path>, rel: Path)
    requires root + rel in fs && fs[root + rel].File? && rel != [] && rel != [MANIFEST_FILE]
    requires forall q :: q in targets ==> !(q < rel)
    ensures root + rel !in Cleaned(fs, root, targets)
  {
    assert (root + rel)[|root|..] == rel && root < root + rel;
  }

  lemma ProperPrefix(q: Path, parts: Path, n: string)
    ensures q < parts + [n] <==> q <= parts
  {
    if q < parts + [n] {
      assert q == (parts + [n])[..|q|] == parts[..|q|];
    }
  }

  lemma OneFileGrounded(dir: Path, n: string)
    ensures Grounded(DirsTo(dir)[dir + [n] := File(false, "")])
  {
    var p := dir + [n];
    var fs := DirsTo(dir)[p := File(false, "")];
    assert Parent(p) == dir && dir in DirsTo(dir) && p !in DirsTo(dir);
    forall q | q in fs && q != [] ensures IsDir(fs, Parent(q)) {
      if q != p {
        assert Parent(q) <= q <= dir;
        assert Parent(q) in DirsTo(dir) && Parent(q) != p;
      }
    }
  }

  /** So a target's own output is kept exactly when its directory is at or below some
      target's path; a leading empty part takes it out of `compiled/` altogether. */
  lemma {:induction false} OwnOutputIsKept(root: Path, targets: set<Path>, tp: Path)
    requires |tp| > 1 ==> tp[0] != ""
    ensures CleanupSpares(root, targets, TargetDir(root, tp)) <==> exists q :: q in targets && q <= Nonempty(tp)
  {
    SparedBelow(root, targets, Nonempty(tp));
  }

  /** The output of `a..b`, alone, is lost; next to `a`, it is kept. */
  lemma {:induction false} EmptyPartIsLost(root: Path)
    ensures var tp: Path, a: Path := ["a", "", "b"], ["a"];
      && !CleanupSpares(root, {tp}, TargetDir(root, tp))
      && CleanupSpares(root, {tp, a}, TargetDir(root, tp))
  {
    var tp: Path, a: Path := ["a", "", "b"], ["a"];
    assert tp[1..] == ["", "b"] && tp[1..][1..] == ["b"] && tp[1..][1..][1..] == [];
    assert Nonempty(tp) == ["a", "b"] && TargetDir(root, tp) == root + ["a", "b"];
    OwnOutputIsKept(root, {tp}, tp);
    OwnOutputIsKept(root, {tp, a}, tp);
    assert a in {tp, a} && a <= ["a", "b"];
  }
}

/**
 A rendered target in terms of its files (inventory.rs): what is in its document, what the
 digests stand for, and what a failure says.
*/
module Rendered {
  import opened Wrappers
  import opened Values
  import opened Strings
  import opened ClassLoader
  import opened Footprint
  import opened Gathering
  import opened Rendering
  import opened Remarks
  import opened Failures
  import L = Linear

  /** The files of a target as they come up, its own last. */
  ghost function TargetVisits(env: Env, t: Tree, spec: TargetSpec): seq<Visit> {
    Visits(env, t, spec.file, spec.name, InitialParameters(env, spec), [])
  }

  /** A rendered target has the classes by the names under which they come up, the
      applications of all its files, the log of all their merges, and exactly the files
      that references reach; and its probes are what these files try. */
  lemma {:induction false} TargetIsItsFiles(env: Env, t: Tree, spec: TargetSpec)
    requires Render(env, t, spec).Ok?
    ensures var r, vs := Render(env, t, spec).value, TargetVisits(env, t, spec);
      && r.classes + [spec.name] == Total(vs).names
      && r.applications == Total(vs).applications
      && r.merges == Total(vs).events
      && (forall f :: f in r.files <==> Reached(env, t, spec.file, f))
      && (forall p :: p in r.probes <==> TriedBy(env, t, vs, p))
  {
    RenderedIsComplete(env, t, spec);
    ClosureGathers(env, t, spec.file, spec.name, InitialParameters(env, spec), []);
    ClosureAccounts(env, t, spec.file, spec.name, InitialParameters(env, spec), []);
    FilesAreExactlyReached(env, t, spec.file, InitialParameters(env, spec));
  }

  /** Where merging is associative, its parameters are those of its files, merged in order
      into the initial ones, and then evaluated; its exports are those of its files, merged;
      and the digest of the document is that of the document. */
  lemma {:induction false} TargetMergesAndEvaluates(env: Env, good: Node -> bool, t: Tree, spec: TargetSpec)
    requires L.Associates(env, good) && good(InitialParameters(env, spec)) && Render(env, t, spec).Ok?
    requires L.AllGood(good, Total(TargetVisits(env, t, spec)).parameters)
    requires L.AllGood(good, Total(TargetVisits(env, t, spec)).exports)
    ensures var r, s := Render(env, t, spec).value, Total(TargetVisits(env, t, spec));
      var e := env.evaluate(spec.name, MergeAll(env, InitialParameters(env, spec), s.parameters));
      && e.Ok? && r.parameters == e.value.params && r.resolutions == e.value.resolutions
      && r.exports == MergeAll(env, EmptyMap, s.exports)
      && r.documentDigest == env.documentDigest(e.value.params, r.classes, s.applications, r.exports)
  {
    RenderedIsComplete(env, t, spec);
    ClosureGathers(env, t, spec.file, spec.name, InitialParameters(env, spec), []);
    L.ClosureMergesFiles(env, good, t, spec.file, spec.name, InitialParameters(env, spec), []);
    L.ClosureMergesExports(env, good, t, spec.file, spec.name, InitialParameters(env, spec), []);
  }

  /** A target that cannot be rendered fails because its parameters cannot be evaluated, or
      at the end of a chain of class references; the failure is labelled with its name. */
  lemma {:induction false} TargetFailure(env: Env, t: Tree, spec: TargetSpec)
    requires Render(env, t, spec).Err?
    ensures var e, c := Render(env, t, spec).error, TargetClosure(env, t, spec);
      && e.target == Some(spec.name)
      && if c.Ok? then
           var why := env.evaluate(spec.name, c.value.params);
           why.Err? && e.cause == why.error.cause && e.labels == why.error.labels
         else
           exists w, via, at :: Explains(env, t, spec.file, [], e.(target := c.error.target), w, via, at)
  {
    var c := TargetClosure(env, t, spec);
    if c.Err? {
      var w, via, at := ClosureFailure(env, t, spec.file, InitialParameters(env, spec), []);
      assert Render(env, t, spec).error.(target := c.error.target) == c.error;
    }
  }

  // ---- the content digest --------------------------------------------------------------------------

  /** Texts are hashed without collisions, into digests of one length. */
  ghost predicate FixedHash(hash: string -> string) {
    && (forall a, b :: hash(a) == hash(b) ==> a == b)
    && forall a, b :: |hash(a)| == |hash(b)|
  }

  /** With the same files, the digest of a target's content tells their texts. */
  lemma {:induction false} DigestTellsContents(env: Env, t1: Tree, t2: Tree, files: seq<Path>)
    requires FixedHash(env.hash) && forall f :: f in files ==> Load(env, t1, f).Ok? && Load(env, t2, f).Ok?
    requires DigestText(env, t1, files) == DigestText(env, t2, files)
    ensures forall f :: f in files ==> f in t1 && f in t2 && t1[f] == t2[f]
    decreases |files|
  {
    if files != [] {
      var f := files[0];
      assert f in files && forall g :: g in files <==> g == f || g in files[1..] by {
        assert files == [files[0]] + files[1..];
      }
      SameStart(PathText(f), env.hash(t1[f]), DigestText(env, t1, files[1..]), env.hash(t2[f]),
                DigestText(env, t2, files[1..]));
      DigestTellsContents(env, t1, t2, files[1..]);
    }
  }

  lemma SameStart(p: string, a1: string, b1: string, a2: string, b2: string)
    requires |a1| == |a2| && p + a1 + b1 == p + a2 + b2
    ensures a1 == a2 && b1 == b2
  {
    var s := p + a1 + b1;
    assert a1 == s[|p|..|p| + |a1|] && a2 == s[|p|..|p| + |a2|];
    assert b1 == s[|p| + |a1|..] && b2 == s[|p| + |a2|..];
  }

  lemma {:induction false} DigestInTwo(env: Env, t: Tree, a: seq<Path>, b: seq<Path>)
    ensures DigestText(env, t, a + b) == DigestText(env, t, a) + DigestText(env, t, b)
    decreases |a|
  {
    if a == [] {
      assert a + b == b;
    } else {
      assert (a + b)[1..] == a[1..] + b;
      DigestInTwo(env, t, a[1..], b);
    }
  }

  /** Among the same other files, it tells a file from another one, whatever their texts. */
  lemma {:induction false} DigestTellsPaths(env: Env, t: Tree, a: seq<Path>, f: Path, g: Path, b: seq<Path>)
    requires FixedHash(env.hash) && Load(env, t, f).Ok? && Load(env, t, g).Ok?
    requires forall i :: 0 <= i < |f| ==> '/' !in f[i]
    requires forall i :: 0 <= i < |g| ==> '/' !in g[i]
    requires f != [] && g != [] && DigestText(env, t, a + [f] + b) == DigestText(env, t, a + [g] + b)
    ensures f == g
  {
    OneDigested(env, t, a, f, b);
    OneDigested(env, t, a, g, b);
    var x, y := PathText(f) + env.hash(t[f]), PathText(g) + env.hash(t[g]);
    Between(DigestText(env, t, a), x, y, DigestText(env, t, b));
    assert PathText(f) == x[..|x| - |env.hash(t[f])|] && PathText(g) == y[..|y| - |env.hash(t[g])|];
    assert Join(f, "/") == PathText(f)[1..] && Join(g, "/") == PathText(g)[1..];
    JoinIsInjective(f, g, '/');
  }

  lemma OneDigested(env: Env, t: Tree, a: seq<Path>, f: Path, b: seq<Path>)
    requires Load(env, t, f).Ok?
    ensures DigestText(env, t, a + [f] + b) ==
      DigestText(env, t, a) + (PathText(f) + env.hash(t[f])) + DigestText(env, t, b)
  {
    DigestInTwo(env, t, a + [f], b);
    DigestInTwo(env, t, a, [f]);
    assert [f][1..] == [];
  }

  lemma Between(a: string, x: string, y: string, b: string)
    requires a + x + b == a + y + b
    ensures x == y
  {
    var s := a + x + b;
    assert |x| == |y| && x == s[|a|..|a| + |x|] && y == s[|a|..|a| + |y|];
  }

  lemma {:induction false} TargetDigestTells(env: Env, t1: Tree, t2: Tree, spec: TargetSpec)
    requires FixedHash(env.hash) && Render(env, t1, spec).Ok? && Render(env, t2, spec).Ok?
    requires var r1, r2 := Render(env, t1, spec).value, Render(env, t2, spec).value;
      r1.files == r2.files && r1.digest == r2.digest
    ensures forall f :: f in Render(env, t1, spec).value.files ==> f in t1 && f in t2 && t1[f] == t2[f]
  {
    RenderedIsComplete(env, t1, spec);
    RenderedIsComplete(env, t2, spec);
    var files := Render(env, t1, spec).value.files;
    FilesLoad(env, t1, spec);
    FilesLoad(env, t2, spec);
    DigestTellsContents(env, t1, t2, files);
  }

  lemma FilesLoad(env: Env, t: Tree, spec: TargetSpec)
    requires TargetClosure(env, t, spec).Ok?
    ensures forall f :: f in TargetClosure(env, t, spec).value.files ==> Load(env, t, f).Ok?
  {
    forall f | f in TargetClosure(env, t, spec).value.files ensures Load(env, t, f).Ok? {
      var w := FilesAreReached(env, t, spec.file, InitialParameters(env, spec), [], f);
      WalkBuilds(env, t, InitialParameters(env, spec), w);
      BuildDone(env, t, f, if |w| == 1 then InitialParameters(env, spec) else EmptyMap, w[..|w| - 1]);
    }
  }
}

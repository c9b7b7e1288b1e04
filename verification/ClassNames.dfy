/**
 What class resolution and pattern expansion mean for the names people write
 (inventory.rs): the files an ordinary class name can be, and the class list that
 patterns stand for.
*/
module ClassNames {
  import opened Wrappers
  import opened Values
  import opened Strings
  import opened Order
  import opened Fnmatch
  import opened ClassLoader

  // ---- ordinary names -------------------------------------------------------------------

  /** Dotted parts that are file names. */
  predicate AreNames(parts: seq<string>) { forall i :: 0 <= i < |parts| ==> parts[i] != "" && '/' !in parts[i] }

  lemma {:induction false} OneComponent(s: string)
    requires s != "" && '/' !in s
    ensures Components(s) == [s] && s[0] != '/' && s[|s| - 1] != '/'
  {
    SplitAtom(s, '/');
    assert [s][1..] == [] && Nonempty([s]) == [s] + Nonempty([]);
    assert s[0] in s && s[|s| - 1] in s;
  }

  lemma {:induction false} PushNames(p: PathBuf, parts: seq<string>)
    requires AreNames(parts)
    ensures PushAll(p, parts) == if parts == [] then p else PathBuf(p.comps + parts, false)
    decreases |parts|
  {
    if parts != [] {
      PushName(p, parts[0]);
      PushNames(Push(p, parts[0]), parts[1..]);
      assert parts == [parts[0]] + parts[1..];
      assert p.comps + [parts[0]] + parts[1..] == p.comps + parts;
    }
  }

  lemma {:induction false} PushName(p: PathBuf, n: string)
    requires n != "" && '/' !in n
    ensures Push(p, n) == PathBuf(p.comps + [n], false)
  {
    OneComponent(n);
  }

  function Directory(env: Env, parts: seq<string>): Path { env.ClassesDir() + parts }

  /** `p` as a file: `<p>.<ext>`. */
  function AsFile(p: Path, ext: string): Path
    requires p != []
  {
    p[..|p| - 1] + [p[|p| - 1] + "." + ext]
  }

  function FourCandidates(env: Env, parts: seq<string>, ext: string): seq<Path> {
    var full, dropped := Directory(env, parts), Directory(env, if |parts| >= 2 then parts[2..] else []);
    [full + ["init." + ext], AsFile(full, ext), AsFile(dropped, ext), dropped + ["init." + ext]]
  }

  /** A name like `a.b.c` is `classes/a/b/c/init.yml` or `classes/a/b/c.yml`, or, without
      its first two parts, `classes/c.yml` or `classes/c/init.yml`; then the same with
      `.yaml`; from whichever file it is included. */
  lemma {:induction false} OrdinaryCandidates(env: Env, name: string, from: Path)
    requires AreNames(Split(name, '.'))
    ensures var parts := Split(name, '.');
      Candidates(env, name, from) == FourCandidates(env, parts, "yml") + FourCandidates(env, parts, "yaml")
  {
    var parts := Split(name, '.');
    NoLeadingDot(name);
    var base := PathBuf(env.ClassesDir(), false);
    assert Base(env, name, from) == base;
    CasesOfNames(env, parts, "yml");
    CasesOfNames(env, parts, "yaml");
  }

  lemma {:induction false} CasesOfNames(env: Env, parts: seq<string>, ext: string)
    requires parts != [] && AreNames(parts)
    ensures Cases(PathBuf(env.ClassesDir(), false), parts, ext) == FourCandidates(env, parts, ext)
  {
    var base := PathBuf(env.ClassesDir(), false);
    var rest := if |parts| >= 2 then parts[2..] else [];
    PushNames(base, parts);
    PushNames(base, rest);
    assert env.ClassesDir() + [] == env.ClassesDir();
    FileOf(Directory(env, parts), ext);
    FileOf(Directory(env, rest), ext);
  }

  lemma {:induction false} FileOf(p: Path, ext: string)
    requires p != []
    ensures WithExt(PathBuf(p, false), ext) == AsFile(p, ext)
  {
  }

  lemma {:induction false} NoLeadingDot(name: string)
    requires AreNames(Split(name, '.'))
    ensures name != "" && name[0] != '.'
  {
    assert Split(name, '.')[0] != "";
  }

  // ---- patterns ----------------------------------------------------------------------------

  function NamesIn(refs: seq<ClassRef>): set<string> { set r | r in refs :: r.name }

  ghost predicate NamedOnce(refs: seq<ClassRef>) {
    forall i, j :: 0 <= i < j < |refs| ==> refs[i].name != refs[j].name
  }

  /** What one entry stands for: itself, or the classes its pattern matches. */
  function Meant(available: seq<string>, n: string): set<string> {
    if StaysAsWritten(available, n) then {n} else set c | c in available && Accepts(n, c)
  }

  function AllMeant(available: seq<string>, refs: seq<ClassRef>): set<string> {
    if refs == [] then {} else Meant(available, refs[0].name) + AllMeant(available, refs[1..])
  }

  lemma {:induction false} PushedOnce(out: seq<ClassRef>, r: ClassRef)
    requires NamedOnce(out)
    ensures NamedOnce(PushRef(out, r)) && out <= PushRef(out, r) && NamesIn(PushRef(out, r)) == NamesIn(out) + {r.name}
  {
    if exists i :: 0 <= i < |out| && out[i].name == r.name {
      var i :| 0 <= i < |out| && out[i].name == r.name;
      assert out[i] in out;
    }
  }

  lemma {:induction false} PushedMatches(out: seq<ClassRef>, matches: seq<string>, origin: Origin)
    requires NamedOnce(out)
    ensures var r := PushMatches(out, matches, origin);
      NamedOnce(r) && out <= r && NamesIn(r) == NamesIn(out) + set m | m in matches
    decreases |matches|
  {
    if matches != [] {
      PushedOnce(out, ClassRef(matches[0], origin));
      PushedMatches(PushRef(out, ClassRef(matches[0], origin)), matches[1..], origin);
      FirstAndRest(matches);
    }
  }

  lemma {:induction false} FirstAndRest(matches: seq<string>)
    requires matches != []
    ensures (set m | m in matches) == {matches[0]} + set m | m in matches[1..]
  {
    assert matches == [matches[0]] + matches[1..];
  }

  lemma {:induction false} MatchingIsExact(pattern: string, names: seq<string>)
    ensures forall m :: m in Matching(pattern, names) <==> m in names && Accepts(pattern, m)
  {
    if names != [] {
      MatchingIsExact(pattern, names[1..]);
      assert names == [names[0]] + names[1..];
    }
  }

  /** Expansion succeeds exactly when every pattern matches something, or unmatched ones
      are ignored; it then lists each class that some entry stands for, once, and
      keeps the order in which they first come up. */
  lemma {:induction false} ExpansionIsExact(env: Env, available: seq<string>, refs: seq<ClassRef>, out: seq<ClassRef>)
    requires NamedOnce(out)
    ensures var r := ExpandFrom(env, available, refs, out);
      && (r.Ok? <==> env.ignoreClassNotFound || forall i :: 0 <= i < |refs| ==> Meant(available, refs[i].name) != {})
      && (r.Ok? ==> NamedOnce(r.value) && out <= r.value)
      && (r.Ok? ==> NamesIn(r.value) == NamesIn(out) + AllMeant(available, refs))
    decreases |refs|
  {
    if refs != [] {
      var next := PushEntry(available, refs[0], out);
      EntryIsPushed(available, refs[0], out);
      MeantIsMatched(available, refs[0].name);
      ExpansionIsExact(env, available, refs[1..], next);
      RestMeant(available, refs);
      assert NamesIn(out) + Meant(available, refs[0].name) + AllMeant(available, refs[1..]) ==
        NamesIn(out) + AllMeant(available, refs);
    }
  }

  function PushEntry(available: seq<string>, r: ClassRef, out: seq<ClassRef>): seq<ClassRef> {
    if StaysAsWritten(available, r.name) then PushRef(out, r)
    else PushMatches(out, Matching(r.name, available), r.origin)
  }

  lemma {:induction false} EntryIsPushed(available: seq<string>, r: ClassRef, out: seq<ClassRef>)
    requires NamedOnce(out)
    ensures var next := PushEntry(available, r, out);
      NamedOnce(next) && out <= next && NamesIn(next) == NamesIn(out) + Meant(available, r.name)
  {
    PushedOnce(out, r);
    PushedMatches(out, Matching(r.name, available), r.origin);
    MatchingIsExact(r.name, available);
  }

  lemma {:induction false} MeantIsMatched(available: seq<string>, n: string)
    ensures Meant(available, n) == {} <==> !StaysAsWritten(available, n) && Matching(n, available) == []
  {
    MatchingIsExact(n, available);
    if StaysAsWritten(available, n) {
      assert n in Meant(available, n);
    } else if Matching(n, available) != [] {
      assert Matching(n, available)[0] in Meant(available, n);
    }
  }

  lemma {:induction false} RestMeant(available: seq<string>, refs: seq<ClassRef>)
    requires refs != []
    ensures (forall i :: 0 <= i < |refs| ==> Meant(available, refs[i].name) != {}) <==>
            Meant(available, refs[0].name) != {} &&
            forall i :: 0 <= i < |refs[1..]| ==> Meant(available, refs[1..][i].name) != {}
  {
    assert forall i :: 0 < i < |refs| ==> refs[i] == refs[1..][i - 1];
  }

  // ---- the list as a whole ---------------------------------------------------------------------

  /** What an entry stands for: itself, when it is no pattern, names a class, or is to be
      evaluated first; the classes it matches in their order otherwise. */
  function StandsFor(available: set<string>, r: ClassRef): seq<ClassRef> {
    var n := r.name;
    if ('*' !in n && '?' !in n && '[' !in n) || n in available ||
       ('}' in n && exists i :: 0 <= i < |n| - 1 && n[i] == '$' && n[i + 1] == '{')
    then [r]
    else At(r.origin, SortedStrings(set m | m in available && Accepts(n, m)))
  }

  function At(origin: Origin, names: seq<string>): seq<ClassRef> {
    if names == [] then [] else [ClassRef(names[0], origin)] + At(origin, names[1..])
  }

  function AllStandFor(available: set<string>, refs: seq<ClassRef>): seq<ClassRef> {
    if refs == [] then [] else StandsFor(available, refs[0]) + AllStandFor(available, refs[1..])
  }

  /** Of several entries with one name the first stays. */
  function FirstOfEach(out: seq<ClassRef>, refs: seq<ClassRef>): seq<ClassRef>
    decreases |refs|
  {
    if refs == [] then out
    else FirstOfEach(if refs[0].name in NamesIn(out) then out else out + [refs[0]], refs[1..])
  }

  /** The first entry that stands for nothing. */
  function Unmatched(available: set<string>, refs: seq<ClassRef>): Option<ClassRef> {
    if refs == [] then None
    else if StandsFor(available, refs[0]) == [] then Some(refs[0])
    else Unmatched(available, refs[1..])
  }

  /** A class list is left alone unless wildcards are on and an entry is a pattern that
      needs no evaluation; then it is what its entries stand for, or the error of the
      first one that stands for nothing, unless that is to be ignored. */
  lemma {:induction false} ClassListIsExpanded(env: Env, t: Tree, refs: seq<ClassRef>)
    ensures var available := NamesOf(env.ClassesDir(), Listing(env, t));
      Expand(env, t, refs) ==
      if !env.classWildcards ||
         forall i :: 0 <= i < |refs| ==> !IsPattern(refs[i].name) || IsReference(refs[i].name) then Ok(refs)
      else match Unmatched(available, refs)
        case Some(r) =>
          if env.ignoreClassNotFound then Ok(FirstOfEach([], AllStandFor(available, refs)))
          else Err(Failure(PatternWithoutMatch(r.name),
                           if r.origin.Synthetic? then [] else [Label(r.origin, "referenced here")], None))
        case None => Ok(FirstOfEach([], AllStandFor(available, refs)))
  {
    ExpandedFrom(env, NamesOf(env.ClassesDir(), Listing(env, t)), refs, []);
  }

  lemma {:induction false} ExpandedFrom(env: Env, available: set<string>, refs: seq<ClassRef>, out: seq<ClassRef>)
    ensures ExpandFrom(env, SortedStrings(available), refs, out) ==
      match Unmatched(available, refs)
      case Some(r) =>
        if env.ignoreClassNotFound then Ok(FirstOfEach(out, AllStandFor(available, refs)))
        else Err(Failure(PatternWithoutMatch(r.name),
                         if r.origin.Synthetic? then [] else [Label(r.origin, "referenced here")], None))
      case None => Ok(FirstOfEach(out, AllStandFor(available, refs)))
    decreases |refs|
  {
    if refs != [] {
      var r, names := refs[0], SortedStrings(available);
      EntryStandsFor(available, r, out);
      FirstOfMore(out, StandsFor(available, r), AllStandFor(available, refs[1..]));
      assert [] + [Label(r.origin, "referenced here")] == [Label(r.origin, "referenced here")];
      ExpandedFrom(env, available, refs[1..], PushEntry(names, r, out));
    }
  }

  lemma {:induction false} FirstOfMore(out: seq<ClassRef>, a: seq<ClassRef>, b: seq<ClassRef>)
    ensures FirstOfEach(out, a + b) == FirstOfEach(FirstOfEach(out, a), b)
    decreases |a|
  {
    if a == [] {
      assert a + b == b;
    } else {
      assert (a + b)[1..] == a[1..] + b;
      FirstOfMore(if a[0].name in NamesIn(out) then out else out + [a[0]], a[1..], b);
    }
  }

  lemma {:induction false} EntryStandsFor(available: set<string>, r: ClassRef, out: seq<ClassRef>)
    ensures var names := SortedStrings(available);
      && PushEntry(names, r, out) == FirstOfEach(out, StandsFor(available, r))
      && (StandsFor(available, r) == [] <==> !StaysAsWritten(names, r.name) && Matching(r.name, names) == [])
  {
    var names := SortedStrings(available);
    if StaysAsWritten(names, r.name) {
      assert StandsFor(available, r) == [r] && [r][1..] == [];
      PushedIfNew(out, r);
    } else {
      MatchingInOrder(r.name, available);
      MatchesPushed(out, Matching(r.name, names), r.origin);
    }
  }

  lemma PushedIfNew(out: seq<ClassRef>, r: ClassRef)
    ensures PushRef(out, r) == if r.name in NamesIn(out) then out else out + [r]
  {
    if r.name in NamesIn(out) {
      var o :| o in out && o.name == r.name;
      var i :| 0 <= i < |out| && out[i] == o;
    } else if exists i :: 0 <= i < |out| && out[i].name == r.name {
      var i :| 0 <= i < |out| && out[i].name == r.name;
      assert out[i] in out;
    }
  }

  lemma {:induction false} MatchesPushed(out: seq<ClassRef>, names: seq<string>, origin: Origin)
    ensures PushMatches(out, names, origin) == FirstOfEach(out, At(origin, names))
    decreases |names|
  {
    if names != [] {
      PushedIfNew(out, ClassRef(names[0], origin));
      MatchesPushed(PushRef(out, ClassRef(names[0], origin)), names[1..], origin);
      assert At(origin, names)[1..] == At(origin, names[1..]);
    }
  }

  lemma {:induction false} MatchingInOrder(pattern: string, available: set<string>)
    ensures Matching(pattern, SortedStrings(available)) ==
            SortedStrings(set m | m in available && Accepts(pattern, m))
  {
    StrLeIsTotal();
    var names := SortedStrings(available);
    MatchingIsExact(pattern, names);
    MatchingAscends(pattern, names);
    AscendingIsUnique(StrLe, Matching(pattern, names), SortedStrings(set m | m in available && Accepts(pattern, m)));
  }

  lemma {:induction false} MatchingAscends(pattern: string, names: seq<string>)
    requires Ascending(StrLe, names)
    ensures Ascending(StrLe, Matching(pattern, names))
    decreases |names|
  {
    if names != [] {
      assert Ascending(StrLe, names[1..]);
      MatchingAscends(pattern, names[1..]);
      MatchingIsExact(pattern, names[1..]);
      var rest := Matching(pattern, names[1..]);
      forall j | 0 <= j < |rest| ensures StrLe(names[0], rest[j]) && names[0] != rest[j] {
        assert rest[j] in names[1..];
        var k :| 0 <= k < |names[1..]| && names[1..][k] == rest[j];
        assert names[k + 1] == rest[j];
      }
    }
  }
}

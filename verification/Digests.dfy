/**
 The digests of one run (digest.rs) as a program: fingerprints are computed once and
 kept in a table, trees are collected directory by directory and fed to the hash.
*/
module DigestRun {
  import opened Wrappers
  import opened Strings
  import opened Order
  import opened Digest
  import opened Install

  /** A file below `dir`, by its path relative to `root`, outside the skipped entries. */
  ghost predicate Collected(fs: Fs, root: Path, dir: Path, skip: set<string>, rel: Path) {
    rel in TreeFiles(fs, root, skip) && dir <= root + rel
  }

  ghost predicate NoTwice(rels: seq<Path>) {
    forall i, j :: 0 <= i < j < |rels| ==> rels[i] != rels[j]
  }

  /** `dir` is below `root`, and not inside a skipped entry. */
  predicate Visited(root: Path, dir: Path, skip: set<string>) {
    root <= dir && (dir == root || dir[|root|] !in skip)
  }

  class Digests {
    const hash: string -> string
    const fs: Fs
    var memo: map<Path, string>

    /** The table holds what would be computed now. */
    ghost predicate Valid() reads this {
      forall p :: p in memo ==> memo[p] == Fingerprint(hash, fs, p)
    }

    constructor (hash: string -> string, fs: Fs)
      ensures this.hash == hash && this.fs == fs && Valid()
    {
      this.hash, this.fs := hash, fs;
      memo := map[];
    }

    method FingerprintOf(p: Path) returns (f: string)
      requires Valid()
      modifies this
      ensures Valid() && f == Fingerprint(hash, fs, p)
      ensures memo == old(memo)[p := f]
    {
      if p in memo {
        return memo[p];
      }
      f := Fingerprint(hash, fs, p);
      memo := memo[p := f];
    }

    /** `collect`: every file below `dir`, once. */
    method Collect(root: Path, dir: Path, skip: set<string>) returns (out: seq<Path>)
      requires Grounded(fs) && Visited(root, dir, skip)
      ensures NoTwice(out) && forall rel :: rel in out <==> Collected(fs, root, dir, skip, rel) && root + rel != dir
      decreases |Below(fs, dir)|
    {
      var names := Disk.ReadDir(fs, dir);
      out := CollectEntries(root, dir, names, skip);
      AllEnter(fs, root, dir, skip, names, out);
    }

    method CollectEntries(root: Path, dir: Path, names: seq<string>, skip: set<string>) returns (out: seq<Path>)
      requires Grounded(fs) && Visited(root, dir, skip) && Lists(names, Children(fs, dir))
      ensures Gathered(fs, root, dir, skip, Names(names), out)
      decreases |Below(fs, dir)|, 1
    {
      out := [];
      for i := 0 to |names|
        invariant Gathered(fs, root, dir, skip, Names(names[..i]), out)
      {
        NextName(fs, dir, names, i);
        var more := CollectEntry(root, dir, names[i], skip);
        OneEntryMore(fs, root, dir, skip, Names(names[..i]), names[i], out, more);
        out := out + more;
      }
      assert names[..|names|] == names;
    }

    method CollectEntry(root: Path, dir: Path, n: string, skip: set<string>) returns (out: seq<Path>)
      requires Grounded(fs) && Visited(root, dir, skip) && dir + [n] in fs
      ensures NoTwice(out) && forall rel :: rel in out <==> Collected(fs, root, dir + [n], skip, rel)
      decreases |Below(fs, dir)|, 0
    {
      var path := dir + [n];
      if dir == root && n in skip {
        SkippedEntry(fs, root, n, skip);
        return [];
      }
      assert Visited(root, path, skip);
      if fs[path].Dir? {
        FewerBelow(fs, dir, n);
        out := Collect(root, path, skip);
        assert forall rel :: rel in TreeFiles(fs, root, skip) ==> root + rel != path;
      } else {
        out := [path[|root|..]];
        OnlyFile(fs, root, path, skip);
      }
    }

    /** `tree` */
    method Tree(root: Path, skip: set<string>) returns (digest: string)
      requires Valid() && Grounded(fs) && NamesOk(fs)
      modifies this
      ensures Valid() && digest == TreeDigest(hash, fs, root, skip)
    {
      var files := Collect(root, root, skip);
      // The paths are distinct, so sorting the list is sorting the set.
      var rels := SortedStrings(RelTexts(set rel | rel in files));
      CollectedAll(fs, root, skip, set rel | rel in files);
      digest := HashAll(root, rels);
    }

    method HashAll(root: Path, rels: seq<string>) returns (digest: string)
      requires Valid()
      modifies this
      ensures Valid() && digest == hash(Terminated(TreePieces(hash, fs, root, rels), NUL))
    {
      var text := "";
      ghost var whole := Terminated(TreePieces(hash, fs, root, rels), NUL);
      assert rels[0..] == rels;
      for i := 0 to |rels|
        invariant Valid() && text + Terminated(TreePieces(hash, fs, root, rels[i..]), NUL) == whole
      {
        var f := FingerprintOf(root + Split(rels[i], '/'));
        OneFileMore(hash, fs, root, rels, i, text);
        text := text + rels[i] + [NUL] + f + [NUL];
      }
      assert rels[|rels|..] == [] && text + "" == text;
      digest := hash(text);
    }
  }

  lemma OneFileMore(hash: string -> string, fs: Fs, root: Path, rels: seq<string>, i: nat, text: string)
    requires i < |rels|
    ensures var f := Fingerprint(hash, fs, root + Split(rels[i], '/'));
      text + Terminated(TreePieces(hash, fs, root, rels[i..]), NUL) ==
      (text + rels[i] + [NUL] + f + [NUL]) + Terminated(TreePieces(hash, fs, root, rels[i + 1..]), NUL)
  {
    var f := Fingerprint(hash, fs, root + Split(rels[i], '/'));
    var rest := TreePieces(hash, fs, root, rels[i + 1..]);
    NextPieces(hash, fs, root, rels, i);
    TwoPieces(rels[i], f, rest);
    Regroup(text, rels[i], [NUL], f, Terminated(rest, NUL));
  }

  lemma NextPieces(hash: string -> string, fs: Fs, root: Path, rels: seq<string>, i: nat)
    requires i < |rels|
    ensures TreePieces(hash, fs, root, rels[i..]) ==
      [rels[i], Fingerprint(hash, fs, root + Split(rels[i], '/'))] + TreePieces(hash, fs, root, rels[i + 1..])
  {
    assert rels[i..][0] == rels[i] && rels[i..][1..] == rels[i + 1..];
  }

  lemma Regroup(text: string, a: string, z: string, b: string, rest: string)
    ensures text + (a + z + b + z + rest) == (text + a + z + b + z) + rest
  {
  }

  /** The file is below one of these entries of `dir`. */
  ghost predicate Enters(root: Path, dir: Path, names: set<string>, rel: Path) {
    dir < root + rel && (root + rel)[|dir|] in names
  }

  function Names(names: seq<string>): set<string> { set n | n in names }

  /** Every file below these entries of `dir`, once. */
  ghost predicate Gathered(fs: Fs, root: Path, dir: Path, skip: set<string>, names: set<string>, out: seq<Path>) {
    NoTwice(out) && forall rel :: rel in out <==> Collected(fs, root, dir, skip, rel) && Enters(root, dir, names, rel)
  }

  lemma NextName(fs: Fs, dir: Path, names: seq<string>, i: nat)
    requires Lists(names, Children(fs, dir)) && i < |names|
    ensures dir + [names[i]] in fs && names[i] !in Names(names[..i])
    ensures Names(names[..i + 1]) == Names(names[..i]) + {names[i]}
  {
    assert names[i] in names;
    ChildrenAreEntries(fs, dir, names[i]);
    assert names[..i + 1] == names[..i] + [names[i]];
  }

  lemma CollectedAll(fs: Fs, root: Path, skip: set<string>, files: set<Path>)
    requires forall rel :: rel in files <==> Collected(fs, root, root, skip, rel) && root + rel != root
    ensures SortedStrings(RelTexts(files)) == TreeList(fs, root, skip)
  {
    var tree := TreeFiles(fs, root, skip);
    assert forall rel :: rel in tree ==> rel != [] && root <= root + rel && root + rel != root;
    assert files == tree.Keys;
  }

  lemma TwoPieces(a: string, b: string, rest: seq<string>)
    ensures Terminated([a, b] + rest, NUL) == a + [NUL] + b + [NUL] + Terminated(rest, NUL)
  {
    assert ([a, b] + rest)[1..] == [b] + rest && ([b] + rest)[1..] == rest;
  }

  lemma SkippedEntry(fs: Fs, root: Path, n: string, skip: set<string>)
    requires n in skip
    ensures forall rel :: !Collected(fs, root, root + [n], skip, rel)
  {
    forall rel | rel in TreeFiles(fs, root, skip) ensures !(root + [n] <= root + rel) {
      assert (root + rel)[|root|] == rel[0];
    }
  }

  lemma OnlyFile(fs: Fs, root: Path, path: Path, skip: set<string>)
    requires Grounded(fs) && path in fs && fs[path].File? && root < path && path[|root|] !in skip
    ensures forall rel :: Collected(fs, root, path, skip, rel) <==> rel == path[|root|..]
  {
    var own := path[|root|..];
    assert root + own == path && own[0] == path[|root|];
    forall rel | Collected(fs, root, path, skip, rel) ensures rel == own {
      if path != root + rel {
        AboveIsDir(fs, root + rel, path);
      }
      assert (root + rel)[|root|..] == rel;
    }
  }

  lemma OneEntryMore(
    fs: Fs, root: Path, dir: Path, skip: set<string>, seen: set<string>, n: string, before: seq<Path>, more: seq<Path>)
    requires n !in seen && Gathered(fs, root, dir, skip, seen, before) && NoTwice(more)
    requires forall rel :: rel in more <==> Collected(fs, root, dir + [n], skip, rel)
    ensures Gathered(fs, root, dir, skip, seen + {n}, before + more)
  {
    forall rel ensures rel in more <==> Collected(fs, root, dir, skip, rel) && Enters(root, dir, {n}, rel) {
      EntryPrefix(dir, n, root + rel);
    }
    NoTwiceTogether(before, more);
  }

  lemma NoTwiceTogether(a: seq<Path>, b: seq<Path>)
    requires NoTwice(a) && NoTwice(b) && forall rel :: rel in a ==> rel !in b
    ensures NoTwice(a + b)
  {
    forall i, j | 0 <= i < j < |a + b| ensures (a + b)[i] != (a + b)[j] {
      if i < |a| <= j {
        assert a[i] in a && b[j - |a|] in b;
      }
    }
  }

  lemma EntryPrefix(dir: Path, n: string, p: Path)
    ensures dir + [n] <= p <==> dir < p && p[|dir|] == n
  {
    if dir < p && p[|dir|] == n {
      assert p[..|dir| + 1] == dir + [n];
    }
  }

  lemma AllEnter(fs: Fs, root: Path, dir: Path, skip: set<string>, names: seq<string>, out: seq<Path>)
    requires Grounded(fs) && Lists(names, Children(fs, dir)) && Gathered(fs, root, dir, skip, Names(names), out)
    ensures NoTwice(out) && forall rel :: rel in out <==> Collected(fs, root, dir, skip, rel) && root + rel != dir
  {
    forall rel | Collected(fs, root, dir, skip, rel) && root + rel != dir ensures Enters(root, dir, Names(names), rel) {
      FileEnters(fs, root, dir, skip, names, rel);
    }
  }

  lemma {:induction false} FileEnters(fs: Fs, root: Path, dir: Path, skip: set<string>, names: seq<string>, rel: Path)
    requires Grounded(fs) && Lists(names, Children(fs, dir))
    requires Collected(fs, root, dir, skip, rel) && root + rel != dir
    ensures Enters(root, dir, Names(names), rel)
  {
    var p := root + rel;
    var n := p[|dir|];
    EntryPrefix(dir, n, p);
    if p != dir + [n] {
      AboveIsDir(fs, p, dir + [n]);
    }
    ChildrenAreEntries(fs, dir, n);
  }
}

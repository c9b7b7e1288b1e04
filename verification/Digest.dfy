/**
 Fingerprints and tree digests (digest.rs): the exact text that is hashed for a
 file, a directory listing and a tree, and the proof that it determines them.
*/
module Digest {
  import opened Wrappers
  import opened Decimal
  import opened Strings
  import opened Order

  type Path = seq<string>

  /** Contents are texts of bytes; of the mode only the executable bit is read. */
  datatype Entry = File(exec: bool, bytes: string) | Dir

  type Fs = map<Path, Entry>

  const NUL: char := '\0'

  /** What a file system guarantees about names. */
  predicate IsName(n: string) { n != "" && NUL !in n && '/' !in n }

  ghost predicate NamesOk(fs: Fs) {
    forall p, i :: p in fs && 0 <= i < |p| ==> IsName(p[i])
  }

  /** Hashes are collision-free, and print without separators. */
  ghost predicate Hashes(hash: string -> string) {
    && (forall a, b :: hash(a) == hash(b) ==> a == b)
    && (forall a :: hash(a) != "" && NUL !in hash(a) && '\n' !in hash(a) && hash(a) != "-")
  }

  /** The assumption can be met: spelling out each character does. */
  function Spelled(s: string): string { "h" + Terminated(CharTexts(s), '.') }

  function CharTexts(s: string): (r: seq<string>)
    ensures |r| == |s| && forall i :: 0 <= i < |r| ==> r[i] == Digits(s[i] as int)
  {
    seq(|s|, i requires 0 <= i < |s| => Digits(s[i] as int))
  }

  lemma {:induction false} SpellingIsAHash()
    ensures Hashes(s => Spelled(s))
  {
    forall a, b | Spelled(a) == Spelled(b) ensures a == b {
      var x, y := CharTexts(a), CharTexts(b);
      assert Spelled(a)[1..] == Terminated(x, '.') && Spelled(b)[1..] == Terminated(y, '.');
      assert forall t, c :: t in x + y && c in t ==> IsDigit(c);
      assert forall i :: 0 <= i < |x| ==> x[i] in x + y;
      assert forall i :: 0 <= i < |y| ==> y[i] in x + y;
      TerminatedIsInjective(x, y, '.');
      forall i | 0 <= i < |a| ensures a[i] == b[i] {
        ValueOfDigits(a[i] as int);
        ValueOfDigits(b[i] as int);
      }
    }
    forall a ensures Spelled(a)[0] == 'h' && NUL !in Spelled(a) && '\n' !in Spelled(a) {
      SpelledChars(CharTexts(a));
    }
  }

  lemma {:induction false} SpelledChars(texts: seq<string>)
    requires forall i :: 0 <= i < |texts| ==> forall c :: c in texts[i] ==> IsDigit(c)
    ensures forall c :: c in Terminated(texts, '.') ==> IsDigit(c) || c == '.'
  {
    if texts != [] {
      SpelledChars(texts[1..]);
    }
  }

  // ---- what can be seen at a path ----------------------------------------------

  /** A directory is seen as the names in it, with `/` after those of directories. */
  datatype View = Missing | FileView(file: Entry) | DirView(names: set<string>)

  function ListedName(fs: Fs, dir: Path, n: string): string
    requires dir + [n] in fs
  {
    n + if fs[dir + [n]].Dir? then "/" else ""
  }

  /** The names of the entries of a directory. */
  function Children(fs: Fs, dir: Path): set<string> {
    set p | p in fs && |p| == |dir| + 1 && dir < p :: p[|dir|]
  }

  lemma ChildrenAreEntries(fs: Fs, dir: Path, n: string)
    ensures n in Children(fs, dir) <==> dir + [n] in fs
  {
    if dir + [n] in fs {
      assert (dir + [n])[|dir|] == n;
    }
    if n in Children(fs, dir) {
      var p :| p in fs && |p| == |dir| + 1 && dir < p && p[|dir|] == n;
      assert p == dir + [n];
    }
  }

  function ListedNames(fs: Fs, dir: Path): set<string> {
    set p | p in fs && |p| == |dir| + 1 && dir < p :: p[|dir|] + if fs[p].Dir? then "/" else ""
  }

  function Look(fs: Fs, p: Path): View {
    if p !in fs then Missing
    else if fs[p].Dir? then DirView(ListedNames(fs, p))
    else FileView(fs[p])
  }

  // ---- fingerprints ---------------------------------------------------------------

  function ListingText(names: set<string>): string { Terminated(SortedStrings(names), NUL) }

  function FileText(e: Entry): string
    requires e.File?
  {
    (if e.exec then "x" else "-") + e.bytes
  }

  function ViewPrint(hash: string -> string, v: View): string
    requires v.FileView? ==> v.file.File?
  {
    match v
    case Missing => "-"
    case FileView(e) => "f:" + hash(FileText(e))
    case DirView(names) => "d:" + hash(ListingText(names))
  }

  /** `compute`: `f:` for a file's content and mode, `d:` for a listing, `-` for nothing. */
  function Fingerprint(hash: string -> string, fs: Fs, p: Path): string { ViewPrint(hash, Look(fs, p)) }

  lemma ListedNamesAreNulFree(fs: Fs, dir: Path)
    requires NamesOk(fs)
    ensures forall n :: n in ListedNames(fs, dir) ==> NUL !in n
  {
  }

  /** Equal fingerprints mean the same thing is seen. */
  lemma FingerprintDetermines(hash: string -> string, fs1: Fs, fs2: Fs, p: Path)
    requires Hashes(hash) && NamesOk(fs1) && NamesOk(fs2)
    requires Fingerprint(hash, fs1, p) == Fingerprint(hash, fs2, p)
    ensures Look(fs1, p) == Look(fs2, p)
  {
    var v1, v2 := Look(fs1, p), Look(fs2, p);
    var f1, f2 := ViewPrint(hash, v1), ViewPrint(hash, v2);
    TagsDiffer(hash, v1);
    TagsDiffer(hash, v2);
    match v1 {
      case Missing =>
      case FileView(e) =>
        assert f1[2..] == hash(FileText(e)) && f2[2..] == hash(FileText(v2.file));
        assert FileText(e)[1..] == e.bytes && FileText(v2.file)[1..] == v2.file.bytes;
      case DirView(names) =>
        assert f1[2..] == hash(ListingText(names)) && f2[2..] == hash(ListingText(v2.names));
        SameListing(fs1, fs2, p);
    }
  }

  lemma TagsDiffer(hash: string -> string, v: View)
    requires v.FileView? ==> v.file.File?
    ensures var f := ViewPrint(hash, v);
      && (v.Missing? <==> |f| == 1)
      && (v.FileView? <==> |f| > 1 && f[0] == 'f')
      && (v.DirView? <==> |f| > 1 && f[0] == 'd')
  {
  }

  lemma SameListing(fs1: Fs, fs2: Fs, p: Path)
    requires NamesOk(fs1) && NamesOk(fs2)
    requires ListingText(ListedNames(fs1, p)) == ListingText(ListedNames(fs2, p))
    ensures ListedNames(fs1, p) == ListedNames(fs2, p)
  {
    var a, b := SortedStrings(ListedNames(fs1, p)), SortedStrings(ListedNames(fs2, p));
    ListedNamesAreNulFree(fs1, p);
    ListedNamesAreNulFree(fs2, p);
    assert forall i :: 0 <= i < |a| ==> a[i] in a;
    assert forall i :: 0 <= i < |b| ==> b[i] in b;
    TerminatedIsInjective(a, b, NUL);
    assert forall n :: n in ListedNames(fs1, p) <==> n in a;
  }

  lemma SlashIsNoName(n: string, m: string)
    requires IsName(m)
    ensures n + "/" != m
  {
    assert (n + "/")[|n|] == '/';
  }

  /** A listing tells which entries there are, and which of them are directories. */
  lemma ListingDetermines(fs1: Fs, fs2: Fs, dir: Path, n: string)
    requires NamesOk(fs1) && NamesOk(fs2) && ListedNames(fs1, dir) == ListedNames(fs2, dir)
    ensures dir + [n] in fs1 ==> dir + [n] in fs2 && fs1[dir + [n]].Dir? == fs2[dir + [n]].Dir?
  {
    var p := dir + [n];
    if p in fs1 {
      var listed := ListedName(fs1, dir, n);
      assert p[|dir|] == n && listed in ListedNames(fs1, dir);
      var q :| q in fs2 && |q| == |dir| + 1 && dir < q && listed == q[|dir|] + if fs2[q].Dir? then "/" else "";
      var m := q[|dir|];
      assert IsName(n) && IsName(m);
      SlashIsNoName(n, m);
      SlashIsNoName(m, n);
      assert listed[..|listed| - (if fs1[p].Dir? then 1 else 0)] == n;
      assert q == p;
    }
  }

  // ---- trees -------------------------------------------------------------------------

  function Below(fs: Fs, root: Path): (r: set<Path>)
    ensures forall rel :: rel in r <==> rel != [] && root + rel in fs
  {
    var r := set p | p in fs && root < p :: p[|root|..];
    assert forall rel :: rel != [] && root + rel in fs ==> root < root + rel && (root + rel)[|root|..] == rel;
    assert forall p :: p in fs && root < p ==> root + p[|root|..] == p;
    r
  }

  /** The files below `root`, by relative path, without the entries named in `skip`. */
  function TreeFiles(fs: Fs, root: Path, skip: set<string>): map<Path, Entry> {
    map rel | rel in Below(fs, root) && fs[root + rel].File? && rel[0] !in skip :: fs[root + rel]
  }

  function RelText(rel: Path): string { Join(rel, "/") }

  function RelTexts(files: set<Path>): set<string> { set rel | rel in files :: RelText(rel) }

  /** The pieces that are hashed: each path and then its fingerprint. */
  function TreePieces(hash: string -> string, fs: Fs, root: Path, rels: seq<string>): seq<string> {
    if rels == [] then []
    else [rels[0], Fingerprint(hash, fs, root + Split(rels[0], '/'))] + TreePieces(hash, fs, root, rels[1..])
  }

  function TreeList(fs: Fs, root: Path, skip: set<string>): seq<string> {
    SortedStrings(RelTexts(TreeFiles(fs, root, skip).Keys))
  }

  /** `Digests::tree` */
  function TreeDigest(hash: string -> string, fs: Fs, root: Path, skip: set<string>): string {
    hash(Terminated(TreePieces(hash, fs, root, TreeList(fs, root, skip)), NUL))
  }

  lemma {:induction false} PiecesDetermine(
    hash: string -> string, fs1: Fs, fs2: Fs, root: Path, a: seq<string>, b: seq<string>)
    requires TreePieces(hash, fs1, root, a) == TreePieces(hash, fs2, root, b)
    ensures a == b
    ensures forall i :: 0 <= i < |a| ==>
      Fingerprint(hash, fs1, root + Split(a[i], '/')) == Fingerprint(hash, fs2, root + Split(a[i], '/'))
    decreases |a| + |b|
  {
    var x, y := TreePieces(hash, fs1, root, a), TreePieces(hash, fs2, root, b);
    if a != [] && b != [] {
      assert x[0] == a[0] && x[2..] == TreePieces(hash, fs1, root, a[1..]);
      assert y[0] == b[0] && y[2..] == TreePieces(hash, fs2, root, b[1..]);
      PiecesDetermine(hash, fs1, fs2, root, a[1..], b[1..]);
      assert x[1] == y[1];
      assert a == [a[0]] + a[1..] && b == [b[0]] + b[1..];
    }
  }

  lemma FingerprintIsNulFree(hash: string -> string, fs: Fs, p: Path)
    requires Hashes(hash)
    ensures NUL !in Fingerprint(hash, fs, p)
  {
    var v := Look(fs, p);
    if v.FileView? {
      assert NUL !in hash(FileText(v.file));
    } else if v.DirView? {
      assert NUL !in hash(ListingText(v.names));
    }
  }

  lemma {:induction false} PiecesAreNulFree(hash: string -> string, fs: Fs, root: Path, rels: seq<string>)
    requires Hashes(hash) && forall r :: r in rels ==> NUL !in r
    ensures forall x :: x in TreePieces(hash, fs, root, rels) ==> NUL !in x
  {
    if rels != [] {
      assert rels[0] in rels && forall r :: r in rels[1..] ==> r in rels;
      FingerprintIsNulFree(hash, fs, root + Split(rels[0], '/'));
      PiecesAreNulFree(hash, fs, root, rels[1..]);
    }
  }

  lemma {:induction false} JoinHasNoNul(parts: seq<string>)
    requires forall i :: 0 <= i < |parts| ==> NUL !in parts[i]
    ensures NUL !in Join(parts, "/")
  {
    if |parts| > 1 {
      JoinHasNoNul(parts[1..]);
    }
  }

  lemma TreeListProperties(fs: Fs, root: Path, skip: set<string>)
    requires NamesOk(fs)
    ensures forall r :: r in TreeList(fs, root, skip) ==> NUL !in r
    ensures forall rel :: rel in TreeFiles(fs, root, skip) ==>
      RelText(rel) in TreeList(fs, root, skip) && Split(RelText(rel), '/') == rel
    ensures forall r :: r in TreeList(fs, root, skip) ==>
      Split(r, '/') in TreeFiles(fs, root, skip)
  {
    var files := TreeFiles(fs, root, skip);
    forall rel | rel in files
      ensures RelText(rel) in TreeList(fs, root, skip) && Split(RelText(rel), '/') == rel && NUL !in RelText(rel)
    {
      forall i | 0 <= i < |rel| ensures IsName(rel[i]) {
        assert (root + rel)[|root| + i] == rel[i];
      }
      SplitJoin(rel, '/');
      JoinHasNoNul(rel);
      assert RelText(rel) in RelTexts(files.Keys);
    }
    forall r | r in TreeList(fs, root, skip) ensures NUL !in r && Split(r, '/') in files {
      assert r in RelTexts(files.Keys);
      var rel :| rel in files.Keys && RelText(rel) == r;
    }
  }

  lemma DigestDeterminesPieces(
    hash: string -> string, fs1: Fs, skip1: set<string>, fs2: Fs, skip2: set<string>, root: Path)
    requires Hashes(hash) && NamesOk(fs1) && NamesOk(fs2)
    requires TreeDigest(hash, fs1, root, skip1) == TreeDigest(hash, fs2, root, skip2)
    ensures TreeList(fs1, root, skip1) == TreeList(fs2, root, skip2)
    ensures var list := TreeList(fs1, root, skip1);
      forall i :: 0 <= i < |list| ==>
        Fingerprint(hash, fs1, root + Split(list[i], '/')) == Fingerprint(hash, fs2, root + Split(list[i], '/'))
  {
    var a, b := TreeList(fs1, root, skip1), TreeList(fs2, root, skip2);
    TreeListProperties(fs1, root, skip1);
    TreeListProperties(fs2, root, skip2);
    PiecesAreNulFree(hash, fs1, root, a);
    PiecesAreNulFree(hash, fs2, root, b);
    var p, q := TreePieces(hash, fs1, root, a), TreePieces(hash, fs2, root, b);
    assert forall i :: 0 <= i < |p| ==> p[i] in p;
    assert forall i :: 0 <= i < |q| ==> q[i] in q;
    TerminatedIsInjective(p, q, NUL);
    PiecesDetermine(hash, fs1, fs2, root, a, b);
  }

  /** Equal digests mean equal trees: the same files, with the same contents and modes. */
  lemma TreeDigestDetermines(
    hash: string -> string, fs1: Fs, skip1: set<string>, fs2: Fs, skip2: set<string>, root: Path)
    requires Hashes(hash) && NamesOk(fs1) && NamesOk(fs2)
    requires TreeDigest(hash, fs1, root, skip1) == TreeDigest(hash, fs2, root, skip2)
    ensures TreeFiles(fs1, root, skip1) == TreeFiles(fs2, root, skip2)
  {
    DigestDeterminesPieces(hash, fs1, skip1, fs2, skip2, root);
    var list := TreeList(fs1, root, skip1);
    var x, y := TreeFiles(fs1, root, skip1), TreeFiles(fs2, root, skip2);
    forall rel | rel in x ensures rel in y && x[rel] == y[rel] {
      FileIsShared(hash, fs1, skip1, fs2, skip2, root, list, rel);
    }
    forall rel | rel in y ensures rel in x && x[rel] == y[rel] {
      FileIsShared(hash, fs2, skip2, fs1, skip1, root, list, rel);
    }
  }

  lemma {:induction false} FileIsShared(
    hash: string -> string, fs1: Fs, skip1: set<string>, fs2: Fs, skip2: set<string>, root: Path, list: seq<string>,
    rel: Path)
    requires Hashes(hash) && NamesOk(fs1) && NamesOk(fs2)
    requires TreeList(fs1, root, skip1) == list == TreeList(fs2, root, skip2)
    requires forall i :: 0 <= i < |list| ==>
      Fingerprint(hash, fs1, root + Split(list[i], '/')) == Fingerprint(hash, fs2, root + Split(list[i], '/'))
    requires rel in TreeFiles(fs1, root, skip1)
    ensures rel in TreeFiles(fs2, root, skip2)
    ensures TreeFiles(fs1, root, skip1)[rel] == TreeFiles(fs2, root, skip2)[rel]
  {
    assert RelText(rel) in list && Split(RelText(rel), '/') == rel by {
      TreeListProperties(fs1, root, skip1);
    }
    assert rel in TreeFiles(fs2, root, skip2) by {
      TreeListProperties(fs2, root, skip2);
    }
    var i :| 0 <= i < |list| && list[i] == RelText(rel);
    FingerprintDetermines(hash, fs1, fs2, root + rel);
  }

  /** And equal trees have equal digests. */
  lemma SameTreeSameDigest(hash: string -> string, fs1: Fs, skip1: set<string>, fs2: Fs, skip2: set<string>, root: Path)
    requires NamesOk(fs1) && NamesOk(fs2)
    requires TreeFiles(fs1, root, skip1) == TreeFiles(fs2, root, skip2)
    ensures TreeDigest(hash, fs1, root, skip1) == TreeDigest(hash, fs2, root, skip2)
  {
    TreeListProperties(fs1, root, skip1);
    SamePieces(hash, fs1, fs2, root, TreeList(fs1, root, skip1), TreeFiles(fs1, root, skip1));
  }

  lemma {:induction false} SamePieces(
    hash: string -> string, fs1: Fs, fs2: Fs, root: Path, rels: seq<string>, files: map<Path, Entry>)
    requires forall r :: r in rels ==> Split(r, '/') in files
    requires forall rel :: rel in files ==>
      root + rel in fs1 && root + rel in fs2 && fs1[root + rel] == fs2[root + rel] && fs1[root + rel].File?
    ensures TreePieces(hash, fs1, root, rels) == TreePieces(hash, fs2, root, rels)
  {
    if rels != [] {
      assert rels[0] in rels && forall r :: r in rels[1..] ==> r in rels;
      SamePieces(hash, fs1, fs2, root, rels[1..], files);
    }
  }
}

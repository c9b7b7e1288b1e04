/**
 Lexical paths: `normalise_join` (fetch.rs), `safe_join` (oci.rs) and the check that an
 output path stays in its target (plan.rs), against walking the components one by one
 from any working directory.
*/
module Normalise {
  import opened Wrappers
  import opened Strings

  datatype Component = RootDir | CurDir | ParentDir | Normal(name: string)

  /** A path in normal form: `..` is the only name that is not one. */
  datatype Place = Place(absolute: bool, names: seq<string>)

  const UP := ".."

  // ---- from text to components ---------------------------------------------------------

  /** A dot counts only where a relative path begins. */
  function Part(piece: string): seq<Component> {
    if piece == "." then [] else if piece == UP then [ParentDir] else [Normal(piece)]
  }

  function Parts(pieces: seq<string>): seq<Component> {
    if pieces == [] then [] else Part(pieces[0]) + Parts(pieces[1..])
  }

  predicate IsAbsolute(text: string) { text != "" && text[0] == '/' }

  /** `Path::components` */
  function Components(text: string): seq<Component> {
    var pieces := Nonempty(Split(text, '/'));
    if IsAbsolute(text) then [RootDir] + Parts(pieces)
    else if pieces != [] && pieces[0] == "." then [CurDir] + Parts(pieces[1..])
    else Parts(pieces)
  }

  /** `Path::join` */
  function Joined(root: string, path: string): string {
    if IsAbsolute(path) || root == "" then path
    else if root[|root| - 1] == '/' then root + path
    else root + "/" + path
  }

  // ---- normalise_join ---------------------------------------------------------------------

  function Last(names: seq<string>): string
    requires names != []
  {
    names[|names| - 1]
  }

  function Push(out: Place, c: Component): Place {
    match c
    case CurDir => out
    case RootDir => Place(true, [])
    case Normal(n) => out.(names := out.names + [n])
    case ParentDir =>
      if out.names == [] then (if out.absolute then out else out.(names := [UP]))
      else if Last(out.names) == UP then out.(names := out.names + [UP])
      else out.(names := out.names[..|out.names| - 1])
  }

  function PushAll(out: Place, cs: seq<Component>): Place
    decreases |cs|
  {
    if cs == [] then out else PushAll(Push(out, cs[0]), cs[1..])
  }

  const EMPTY := Place(false, [])

  function Normalised(cs: seq<Component>): Place { PushAll(EMPTY, cs) }

  method NormaliseJoin(root: string, path: string) returns (out: Place)
    ensures out == Normalised(Components(Joined(root, path)))
  {
    var cs := Components(Joined(root, path));
    out := EMPTY;
    assert cs[0..] == cs;
    for i := 0 to |cs|
      invariant PushAll(out, cs[i..]) == Normalised(cs)
    {
      assert cs[i..][0] == cs[i] && cs[i..][1..] == cs[i + 1..];
      match cs[i] {
        case CurDir =>
        case ParentDir =>
          if out.names == [] {
            if !out.absolute {
              out := out.(names := [UP]);
            }
          } else if Last(out.names) != UP {
            out := out.(names := out.names[..|out.names| - 1]);
          } else {
            out := out.(names := out.names + [UP]);
          }
        case RootDir =>
          out := Place(true, []);
        case Normal(n) =>
          out := out.(names := out.names + [n]);
      }
    }
  }

  // ---- walking ----------------------------------------------------------------------------------

  /** One component from a directory, on a tree without links; the root is its own parent. */
  function Go(at: seq<string>, c: Component): seq<string> {
    match c
    case CurDir => at
    case RootDir => []
    case Normal(n) => at + [n]
    case ParentDir => if at == [] then [] else at[..|at| - 1]
  }

  function Walk(at: seq<string>, cs: seq<Component>): seq<string>
    decreases |cs|
  {
    if cs == [] then at else Walk(Go(at, cs[0]), cs[1..])
  }

  function NameComponent(n: string): Component { if n == UP then ParentDir else Normal(n) }

  function NameComponents(names: seq<string>): (r: seq<Component>)
    ensures |r| == |names| && forall i :: 0 <= i < |r| ==> r[i] == NameComponent(names[i])
  {
    seq(|names|, i requires 0 <= i < |names| => NameComponent(names[i]))
  }

  /** The components of a place. */
  function Steps(p: Place): seq<Component> { (if p.absolute then [RootDir] else []) + NameComponents(p.names) }

  lemma {:induction false} WalkAppend(at: seq<string>, a: seq<Component>, b: seq<Component>)
    ensures Walk(at, a + b) == Walk(Walk(at, a), b)
    decreases |a|
  {
    if a == [] {
      assert a + b == b;
    } else {
      assert (a + b)[1..] == a[1..] + b;
      WalkAppend(Go(at, a[0]), a[1..], b);
    }
  }

  /** Names are never `..`: that is the other component. */
  predicate Honest(cs: seq<Component>) { forall i :: 0 <= i < |cs| && cs[i].Normal? ==> cs[i].name != UP }

  /** `..` only as a leading run, and only when relative. */
  predicate IsNormal(p: Place) {
    && (p.absolute ==> UP !in p.names)
    && forall i, j :: 0 <= i < j < |p.names| && p.names[j] == UP ==> p.names[i] == UP
  }

  lemma {:induction false} PushKeeps(out: Place, c: Component)
    requires IsNormal(out) && (c.Normal? ==> c.name != UP)
    ensures IsNormal(Push(out, c))
    ensures forall at :: Walk(at, Steps(Push(out, c))) == Go(Walk(at, Steps(out)), c)
  {
    forall at ensures Walk(at, Steps(Push(out, c))) == Go(Walk(at, Steps(out)), c) {
      PushWalks(at, out, c);
    }
    if c.ParentDir? && out.names != [] && Last(out.names) == UP {
      assert forall i :: 0 <= i < |out.names| ==> out.names[i] == UP;
    }
  }

  lemma {:induction false} PushWalks(at: seq<string>, out: Place, c: Component)
    requires IsNormal(out) && (c.Normal? ==> c.name != UP)
    ensures Walk(at, Steps(Push(out, c))) == Go(Walk(at, Steps(out)), c)
  {
    match c {
      case CurDir =>
      case RootDir =>
        assert Steps(Place(true, [])) == [RootDir] && [RootDir][1..] == [];
      case Normal(n) =>
        OneStepMore(at, out, c, Push(out, c));
      case ParentDir =>
        if out.names == [] && out.absolute {
          assert Steps(out) == [RootDir] && [RootDir][1..] == [];
        } else if out.names == [] || Last(out.names) == UP {
          OneStepMore(at, out, c, Push(out, c));
        } else {
          OneStepMore(at, Push(out, c), Normal(Last(out.names)), out);
        }
    }
  }

  lemma {:induction false} OneStepMore(at: seq<string>, p: Place, c: Component, q: Place)
    requires q.absolute == p.absolute && q.names != [] && q.names[..|q.names| - 1] == p.names
    requires c == NameComponent(Last(q.names))
    ensures Walk(at, Steps(q)) == Go(Walk(at, Steps(p)), c)
  {
    assert Steps(q) == Steps(p) + [c];
    WalkAppend(at, Steps(p), [c]);
    assert [c][1..] == [];
  }

  lemma {:induction false} PushAllKeeps(out: Place, cs: seq<Component>, at: seq<string>)
    requires IsNormal(out) && Honest(cs)
    ensures IsNormal(PushAll(out, cs))
    ensures Walk(at, Steps(PushAll(out, cs))) == Walk(Walk(at, Steps(out)), cs)
    decreases |cs|
  {
    if cs != [] {
      PushKeeps(out, cs[0]);
      PushAllKeeps(Push(out, cs[0]), cs[1..], at);
    }
  }

  lemma {:induction false} PartsAreHonest(pieces: seq<string>)
    ensures Honest(Parts(pieces))
  {
    if pieces != [] {
      PartsAreHonest(pieces[1..]);
    }
  }

  lemma {:induction false} ComponentsAreHonest(text: string)
    ensures Honest(Components(text))
  {
    var pieces := Nonempty(Split(text, '/'));
    PartsAreHonest(pieces);
    if pieces != [] {
      PartsAreHonest(pieces[1..]);
    }
  }

  /** The normal form leads where the components lead, from every directory. */
  lemma NormalFormIsThePlace(root: string, path: string, at: seq<string>)
    ensures var cs := Components(Joined(root, path));
      IsNormal(Normalised(cs)) && Walk(at, Steps(Normalised(cs))) == Walk(at, cs)
  {
    var cs := Components(Joined(root, path));
    ComponentsAreHonest(Joined(root, path));
    PushAllKeeps(EMPTY, cs, at);
    assert Steps(EMPTY) == [];
  }

  // ---- normal forms are unique -----------------------------------------------------------------------

  function Repeat<T>(x: T, n: nat): (r: seq<T>)
    ensures |r| == n && forall i :: 0 <= i < n ==> r[i] == x
  {
    seq(n, _ => x)
  }

  /** How many leading `..` there are. */
  function Ups(names: seq<string>): (u: nat)
    ensures u <= |names| && (forall i :: 0 <= i < u ==> names[i] == UP) && (u < |names| ==> names[u] != UP)
  {
    if names == [] || names[0] != UP then 0 else 1 + Ups(names[1..])
  }

  lemma {:induction false} FirstName(names: seq<string>)
    requires names != []
    ensures NameComponents(names) == [NameComponent(names[0])] + NameComponents(names[1..])
    ensures NameComponents(names)[1..] == NameComponents(names[1..])
  {
  }

  lemma {:induction false} WalkStep(at: seq<string>, c: Component, cs: seq<Component>)
    ensures Walk(at, [c] + cs) == Walk(Go(at, c), cs)
  {
    assert ([c] + cs)[1..] == cs;
  }

  lemma {:induction false} WalkDown(at: seq<string>, names: seq<string>)
    requires UP !in names
    ensures Walk(at, NameComponents(names)) == at + names
    decreases |names|
  {
    if names == [] {
      assert at + names == at;
    } else {
      NoneLater(names, UP);
      FirstName(names);
      WalkStep(at, Normal(names[0]), NameComponents(names[1..]));
      WalkDown(at + [names[0]], names[1..]);
      OneFurther(at, names);
    }
  }

  lemma NoneLater(names: seq<string>, n: string)
    requires names != [] && n !in names
    ensures names[0] != n && n !in names[1..]
  {
    assert names[0] in names;
  }

  lemma OneFurther(at: seq<string>, names: seq<string>)
    requires names != []
    ensures at + [names[0]] + names[1..] == at + names
  {
  }

  lemma {:induction false} OneUp(at: seq<string>, names: seq<string>)
    requires names != [] && names[0] == UP && Ups(names) <= |at|
    ensures var u := Ups(names);
      && Ups(names[1..]) == u - 1
      && at[..|at| - 1][..|at| - 1 - (u - 1)] + names[1..][u - 1..] == at[..|at| - u] + names[u..]
  {
  }

  /** From a deep enough directory a relative place is some levels up and then down. */
  lemma {:induction false} WalkRelative(at: seq<string>, names: seq<string>)
    requires IsNormal(Place(false, names)) && Ups(names) <= |at|
    ensures Walk(at, NameComponents(names)) == at[..|at| - Ups(names)] + names[Ups(names)..]
    decreases |names|
  {
    if names == [] || names[0] != UP {
      NoUps(names);
      WalkDown(at, names);
      assert at[..|at|] == at && names[0..] == names;
    } else {
      FewerUps(names);
      StepUp(at, names);
      WalkRelative(at[..|at| - 1], names[1..]);
      OneUp(at, names);
    }
  }

  lemma {:induction false} StepUp(at: seq<string>, names: seq<string>)
    requires names != [] && names[0] == UP && at != []
    ensures Walk(at, NameComponents(names)) == Walk(at[..|at| - 1], NameComponents(names[1..]))
  {
    FirstName(names);
    WalkStep(at, ParentDir, NameComponents(names[1..]));
  }

  lemma NoUps(names: seq<string>)
    requires IsNormal(Place(false, names)) && (names == [] || names[0] != UP)
    ensures UP !in names && Ups(names) == 0
  {
  }

  lemma FewerUps(names: seq<string>)
    requires IsNormal(Place(false, names)) && names != [] && names[0] == UP
    ensures IsNormal(Place(false, names[1..])) && Ups(names) == 1 + Ups(names[1..])
  {
  }

  lemma {:induction false} WalkAbsolute(at: seq<string>, p: Place)
    requires IsNormal(p) && p.absolute
    ensures Walk(at, Steps(p)) == p.names
  {
    var names := NameComponents(p.names);
    assert Steps(p) == [RootDir] + names && Steps(p)[1..] == names;
    WalkDown([], p.names);
    assert [] + p.names == p.names;
  }

  /** A name that is none of these. */
  lemma {:induction false} NewName(names: seq<string>) returns (x: string)
    ensures x !in names
  {
    x := "";
    for i := 0 to |names|
      invariant forall k :: 0 <= k < i ==> |names[k]| < |x|
    {
      x := x + names[i] + "x";
    }
  }

  /** Where a place is, from a working directory. */
  function Reach(at: seq<string>, p: Place): seq<string> { Walk(at, Steps(p)) }

  lemma {:induction false} FromBelow(x: string, n: nat, p: Place)
    requires IsNormal(p) && !p.absolute && Ups(p.names) <= n
    ensures Reach(Repeat(x, n), p) == Repeat(x, n - Ups(p.names)) + p.names[Ups(p.names)..]
  {
    var at := Repeat(x, n);
    ReachRelative(at, p);
    WalkRelative(at, p.names);
    RepeatedLess(x, n, n - Ups(p.names));
  }

  lemma ReachRelative(at: seq<string>, p: Place)
    requires IsNormal(p) && !p.absolute
    ensures IsNormal(Place(false, p.names)) && Reach(at, p) == Walk(at, NameComponents(p.names))
  {
    assert Steps(p) == NameComponents(p.names);
  }

  lemma RepeatedLess<T>(x: T, n: nat, k: nat)
    requires k <= n
    ensures Repeat(x, n)[..k] == Repeat(x, k)
  {
  }

  lemma {:induction false} NewIsNotThere(x: string, n: nat, a: seq<string>, b: seq<string>)
    requires n > 0 && x !in b
    ensures Repeat(x, n) + a != b
  {
    assert (Repeat(x, n) + a)[0] == x;
    assert b != [] ==> b[0] in b;
  }

  lemma {:induction false} NotIn(x: string, b: seq<string>, u: nat)
    requires x !in b && u <= |b|
    ensures x !in b[u..]
  {
    assert forall i :: 0 <= i < |b| - u ==> b[u..][i] == b[u + i] && b[u + i] in b;
  }

  /** Two normal forms are the same, or lead apart from some directory. */
  lemma {:induction false} LeadApart(p: Place, q: Place) returns (at: seq<string>)
    requires IsNormal(p) && IsNormal(q) && p != q
    ensures Reach(at, p) != Reach(at, q)
  {
    if p.absolute {
      at := AbsoluteLeadsApart(p, q);
    } else if q.absolute {
      at := AbsoluteLeadsApart(q, p);
    } else if Ups(p.names) < Ups(q.names) {
      at := HigherLeadsApart(p, q);
    } else if Ups(q.names) < Ups(p.names) {
      at := HigherLeadsApart(q, p);
    } else {
      at := Repeat("", Ups(p.names));
      FromBelow("", Ups(p.names), p);
      FromBelow("", Ups(p.names), q);
      SameHeight(p.names, q.names);
      assert Repeat("", 0) == [];
      assert [] + p.names[Ups(p.names)..] == p.names[Ups(p.names)..];
      assert [] + q.names[Ups(q.names)..] == q.names[Ups(q.names)..];
    }
  }

  lemma {:induction false} SameHeight(a: seq<string>, b: seq<string>)
    requires Ups(a) == Ups(b)
    ensures a[Ups(a)..] == b[Ups(b)..] ==> a == b
  {
    assert a[..Ups(a)] == b[..Ups(b)];
    assert a == a[..Ups(a)] + a[Ups(a)..] && b == b[..Ups(b)] + b[Ups(b)..];
  }

  lemma {:induction false} AbsoluteLeadsApart(p: Place, q: Place) returns (at: seq<string>)
    requires IsNormal(p) && IsNormal(q) && p.absolute && p != q
    ensures Reach(at, p) != Reach(at, q)
  {
    if q.absolute {
      at := [];
      WalkAbsolute(at, p);
      WalkAbsolute(at, q);
    } else {
      var x := NewName(p.names);
      at := Repeat(x, Ups(q.names) + 1);
      WalkAbsolute(at, p);
      FromBelow(x, Ups(q.names) + 1, q);
      NewIsNotThere(x, 1, q.names[Ups(q.names)..], p.names);
    }
  }

  lemma {:induction false} HigherLeadsApart(p: Place, q: Place) returns (at: seq<string>)
    requires IsNormal(p) && IsNormal(q) && !p.absolute && !q.absolute && Ups(p.names) < Ups(q.names)
    ensures Reach(at, p) != Reach(at, q)
  {
    var u, v := Ups(p.names), Ups(q.names);
    var x := NewName(q.names);
    at := Repeat(x, v);
    FromBelow(x, v, p);
    assert Reach(at, q) == q.names[v..] by {
      FromBelow(x, v, q);
      assert Repeat(x, 0) == [] && [] + q.names[v..] == q.names[v..];
    }
    assert x !in q.names[v..] by { NotIn(x, q.names, v); }
    NewIsNotThere(x, v - u, p.names[u..], q.names[v..]);
  }

  /** So two paths have the same normal form exactly when they always lead to the same place. */
  lemma SameFormIffSamePlace(root1: string, path1: string, root2: string, path2: string)
    ensures var a, b := Components(Joined(root1, path1)), Components(Joined(root2, path2));
      Normalised(a) == Normalised(b) <==> forall at :: Walk(at, a) == Walk(at, b)
  {
    var a, b := Components(Joined(root1, path1)), Components(Joined(root2, path2));
    NormalFormIsThePlace(root1, path1, []);
    NormalFormIsThePlace(root2, path2, []);
    if Normalised(a) == Normalised(b) {
      forall at ensures Walk(at, a) == Walk(at, b) {
        NormalFormIsThePlace(root1, path1, at);
        NormalFormIsThePlace(root2, path2, at);
      }
    } else {
      var at := LeadApart(Normalised(a), Normalised(b));
      NormalFormIsThePlace(root1, path1, at);
      NormalFormIsThePlace(root2, path2, at);
      assert Walk(at, a) != Walk(at, b);
    }
  }

  // ---- and they stay as they are ----------------------------------------------------------------------

  /** How a place is written. */
  function Text(p: Place): string { (if p.absolute then "/" else "") + Join(p.names, "/") }

  predicate IsName(n: string) { n != "" && n != "." && '/' !in n }

  lemma {:induction false} NonemptyNames(names: seq<string>)
    requires forall i :: 0 <= i < |names| ==> IsName(names[i])
    ensures Nonempty(names) == names
    decreases |names|
  {
    if names != [] {
      NonemptyNames(names[1..]);
      assert [names[0]] + names[1..] == names;
    }
  }

  lemma {:induction false} PartsOfNames(names: seq<string>)
    requires forall i :: 0 <= i < |names| ==> IsName(names[i])
    ensures Nonempty(names) == names && Parts(names) == NameComponents(names)
    decreases |names|
  {
    NonemptyNames(names);
    if names != [] {
      PartsOfNames(names[1..]);
      FirstName(names);
    }
  }

  lemma {:induction false} RelativeText(names: seq<string>)
    requires forall i :: 0 <= i < |names| ==> IsName(names[i])
    ensures !IsAbsolute(Join(names, "/")) && Nonempty(Split(Join(names, "/"), '/')) == names
  {
    PartsOfNames(names);
    if names == [] {
      assert Split("", '/') == [""] && [""][1..] == [];
    } else {
      SplitJoin(names, '/');
      assert Join(names, "/")[0] == names[0][0] && names[0][0] in names[0];
    }
  }

  lemma {:induction false} AbsoluteText(text: string)
    ensures IsAbsolute("/" + text) && Nonempty(Split("/" + text, '/')) == Nonempty(Split(text, '/'))
  {
    assert ("/" + text)[1..] == text;
    var pieces := [""] + Split(text, '/');
    assert Split("/" + text, '/') == pieces && pieces[1..] == Split(text, '/');
  }

  lemma {:induction false} ComponentsOfText(p: Place)
    requires forall i :: 0 <= i < |p.names| ==> IsName(p.names[i])
    ensures Components(Text(p)) == Steps(p)
  {
    RelativeText(p.names);
    PartsOfNames(p.names);
    if p.absolute {
      AbsoluteText(Join(p.names, "/"));
    } else {
      assert Text(p) == Join(p.names, "/");
    }
  }

  lemma {:induction false} PushAllNames(out: Place, names: seq<string>)
    requires IsNormal(Place(out.absolute, out.names + names))
    ensures PushAll(out, NameComponents(names)) == Place(out.absolute, out.names + names)
    decreases |names|
  {
    if names == [] {
      assert out.names + names == out.names;
    } else {
      FirstName(names);
      PushName(out, names);
      OneFurther(out.names, names);
      PushAllNames(out.(names := out.names + [names[0]]), names[1..]);
    }
  }

  lemma {:induction false} PushName(out: Place, names: seq<string>)
    requires names != [] && IsNormal(Place(out.absolute, out.names + names))
    ensures Push(out, NameComponent(names[0])) == out.(names := out.names + [names[0]])
  {
    var whole := out.names + names;
    assert whole[|out.names|] == names[0] && names[0] in whole;
    assert forall i :: 0 <= i < |out.names| ==> whole[i] == out.names[i];
  }

  lemma {:induction false} NormalIsItsOwnForm(p: Place)
    requires IsNormal(p)
    ensures Normalised(Steps(p)) == p
  {
    assert [] + p.names == p.names;
    PushAllNames(Place(p.absolute, []), p.names);
    FirstStep(p);
  }

  lemma FirstStep(p: Place)
    ensures Normalised(Steps(p)) == PushAll(Place(p.absolute, []), NameComponents(p.names))
  {
    if p.absolute {
      assert Steps(p)[0] == RootDir && Steps(p)[1..] == NameComponents(p.names);
    } else {
      assert Steps(p) == NameComponents(p.names);
    }
  }

  predicate NamesAreNames(cs: seq<Component>) { forall i :: 0 <= i < |cs| && cs[i].Normal? ==> IsName(cs[i].name) }

  lemma {:induction false} PushAllIsNamed(out: Place, cs: seq<Component>)
    requires NamesAreNames(cs) && forall i :: 0 <= i < |out.names| ==> IsName(out.names[i])
    ensures forall i :: 0 <= i < |PushAll(out, cs).names| ==> IsName(PushAll(out, cs).names[i])
    decreases |cs|
  {
    if cs != [] {
      assert IsName(UP);
      PushAllIsNamed(Push(out, cs[0]), cs[1..]);
    }
  }

  lemma {:induction false} PartsAreNamed(pieces: seq<string>)
    requires forall i :: 0 <= i < |pieces| ==> pieces[i] != "" && '/' !in pieces[i]
    ensures NamesAreNames(Parts(pieces))
    decreases |pieces|
  {
    if pieces != [] {
      PartsAreNamed(pieces[1..]);
    }
  }

  lemma {:induction false} NonemptyPieces(pieces: seq<string>)
    requires forall i :: 0 <= i < |pieces| ==> '/' !in pieces[i]
    ensures forall i :: 0 <= i < |Nonempty(pieces)| ==> Nonempty(pieces)[i] != "" && '/' !in Nonempty(pieces)[i]
    decreases |pieces|
  {
    if pieces != [] {
      NonemptyPieces(pieces[1..]);
    }
  }

  lemma {:induction false} ComponentsAreNamed(text: string)
    ensures NamesAreNames(Components(text))
  {
    var pieces := Nonempty(Split(text, '/'));
    NonemptyPieces(Split(text, '/'));
    PartsAreNamed(pieces);
    if pieces != [] {
      PartsAreNamed(pieces[1..]);
    }
  }

  /** Normalising what is normalised changes nothing. */
  lemma NormalisingTwice(root: string, path: string)
    ensures var p := Normalised(Components(Joined(root, path)));
      Normalised(Components(Text(p))) == p
  {
    var cs := Components(Joined(root, path));
    NormalFormIsThePlace(root, path, []);
    ComponentsAreNamed(Joined(root, path));
    PushAllIsNamed(EMPTY, cs);
    ComponentsOfText(Normalised(cs));
    NormalIsItsOwnForm(Normalised(cs));
  }

  // ---- safe_join ----------------------------------------------------------------------------------------

  /** How far below its start a path is after its first `n` components. */
  function Depth(cs: seq<Component>, n: nat): int
    requires n <= |cs|
  {
    if n == 0 then 0
    else Depth(cs, n - 1) + (if cs[n - 1].Normal? then 1 else if cs[n - 1].ParentDir? then -1 else 0)
  }

  predicate NotAbove(cs: seq<Component>, n: nat)
    requires n <= |cs|
  {
    Depth(cs, n) >= 0
  }

  /** Relative, never above the start, and in the end below it. */
  ghost predicate StaysBelow(cs: seq<Component>) {
    && RootDir !in cs
    && (forall n :: 0 <= n <= |cs| ==> NotAbove(cs, n))
    && Depth(cs, |cs|) > 0
  }

  /** `safe_join`: the names below `root`, when the path stays there. */
  method SafeJoin(root: Place, rel: string) returns (out: Option<Place>)
    ensures out.Some? <==> StaysBelow(Components(rel))
    ensures out.Some? ==> IsNormal(root) ==> out.value == PushAll(root, Components(rel))
    ensures out.Some? ==> out.value.absolute == root.absolute && root.names < out.value.names
  {
    ComponentsAreHonest(rel);
    out := SafeJoinComponents(root, Components(rel));
  }

  method SafeJoinComponents(root: Place, cs: seq<Component>) returns (out: Option<Place>)
    requires Honest(cs)
    ensures out.Some? <==> StaysBelow(cs)
    ensures out.Some? ==> IsNormal(root) ==> out.value == PushAll(root, cs)
    ensures out.Some? ==> out.value.absolute == root.absolute && root.names < out.value.names
  {
    var names: seq<string>, depth := root.names, 0;
    ghost var goal := PushAll(root, cs);
    assert cs[0..] == cs;
    for i := 0 to |cs|
      invariant RootDir !in cs[..i] && depth == Depth(cs, i) && NeverAbove(cs, i)
      invariant Below(root.names, names, depth)
      invariant IsNormal(root) ==> PushAll(Place(root.absolute, names), cs[i..]) == goal
    {
      OnePush(Place(root.absolute, names), cs, i);
      assert cs[..i + 1] == cs[..i] + [cs[i]];
      match cs[i] {
        case Normal(n) =>
          OneBelow(root.names, names, n, depth);
          names := names + [n];
          depth := depth + 1;
        case CurDir =>
        case ParentDir =>
          if depth == 0 {
            ClimbsOut(cs, i);
            return None;
          }
          LastIsBelow(root.names, names, depth);
          names := names[..|names| - 1];
          depth := depth - 1;
        case RootDir =>
          LeavesRoot(cs, i);
          return None;
      }
    }
    assert cs[..|cs|] == cs;
    EndsBelow(cs);
    out := if depth == 0 then None else Some(Place(root.absolute, names));
  }

  lemma {:induction false} OnePush(out: Place, cs: seq<Component>, i: nat)
    requires i < |cs|
    ensures PushAll(out, cs[i..]) == PushAll(Push(out, cs[i]), cs[i + 1..])
  {
    assert cs[i..][0] == cs[i] && cs[i..][1..] == cs[i + 1..];
  }

  lemma {:induction false} OneBelow(root: seq<string>, names: seq<string>, n: string, depth: nat)
    requires Below(root, names, depth) && n != UP
    ensures Below(root, names + [n], depth + 1)
  {
    assert (names + [n])[|root|..] == names[|root|..] + [n];
  }

  /** `names` is `depth` names below `root`. */
  ghost predicate Below(root: seq<string>, names: seq<string>, depth: int) {
    |names| == |root| + depth && root <= names && UP !in names[|root|..]
  }

  lemma {:induction false} LastIsBelow(root: seq<string>, names: seq<string>, depth: nat)
    requires Below(root, names, depth) && depth > 0
    ensures Last(names) != UP && Below(root, names[..|names| - 1], depth - 1)
  {
    var tail := names[|root|..];
    assert Last(names) == tail[depth - 1] && tail[depth - 1] in tail;
    assert names[..|names| - 1][|root|..] == tail[..depth - 1];
    assert forall n :: n in tail[..depth - 1] ==> n in tail;
  }

  ghost predicate NeverAbove(cs: seq<Component>, n: nat)
    requires n <= |cs|
  {
    n == 0 || (NeverAbove(cs, n - 1) && NotAbove(cs, n))
  }

  lemma {:induction false} NeverAboveAtAll(cs: seq<Component>, n: nat)
    requires n <= |cs|
    ensures NeverAbove(cs, n) <==> forall m :: 0 <= m <= n ==> NotAbove(cs, m)
  {
    if n == 0 {
      assert NotAbove(cs, 0);
    } else {
      NeverAboveAtAll(cs, n - 1);
    }
  }

  lemma {:induction false} EndsBelow(cs: seq<Component>)
    requires RootDir !in cs && NeverAbove(cs, |cs|)
    ensures StaysBelow(cs) <==> Depth(cs, |cs|) > 0
  {
    NeverAboveAtAll(cs, |cs|);
  }

  lemma {:induction false} LeavesRoot(cs: seq<Component>, n: nat)
    requires n < |cs| && cs[n] == RootDir
    ensures !StaysBelow(cs)
  {
  }

  lemma {:induction false} ClimbsOut(cs: seq<Component>, n: nat)
    requires n < |cs| && cs[n].ParentDir? && Depth(cs, n) == 0
    ensures !StaysBelow(cs)
  {
    assert !NotAbove(cs, n + 1);
  }

  lemma {:induction false} PushAllAppend(out: Place, a: seq<Component>, b: seq<Component>)
    ensures PushAll(out, a + b) == PushAll(PushAll(out, a), b)
    decreases |a|
  {
    if a == [] {
      assert a + b == b;
    } else {
      assert (a + b)[1..] == a[1..] + b;
      PushAllAppend(Push(out, a[0]), a[1..], b);
    }
  }

  lemma {:induction false} NonemptyAppend(a: seq<string>, b: seq<string>)
    ensures Nonempty(a + b) == Nonempty(a) + Nonempty(b)
    decreases |a|
  {
    if a == [] {
      assert a + b == b;
    } else {
      assert (a + b)[1..] == a[1..] + b;
      NonemptyAppend(a[1..], b);
    }
  }

  lemma {:induction false} PartsAppend(a: seq<string>, b: seq<string>)
    ensures Parts(a + b) == Parts(a) + Parts(b)
    decreases |a|
  {
    if a == [] {
      assert a + b == b;
    } else {
      assert (a + b)[1..] == a[1..] + b;
      PartsAppend(a[1..], b);
    }
  }

  /** A leading dot makes no difference. */
  lemma {:induction false} PushRelative(out: Place, rel: string)
    requires !IsAbsolute(rel)
    ensures PushAll(out, Components(rel)) == PushAll(out, Parts(Nonempty(Split(rel, '/'))))
  {
    var pieces := Nonempty(Split(rel, '/'));
    if pieces != [] && pieces[0] == "." {
      var rest := Parts(pieces[1..]);
      assert Parts(pieces) == rest && ([CurDir] + rest)[1..] == rest;
    }
  }

  lemma {:induction false} JoinedPieces(root: Place, rel: string)
    requires (forall i :: 0 <= i < |root.names| ==> IsName(root.names[i])) && !IsAbsolute(rel) && root != EMPTY
    ensures var joined := Joined(Text(root), rel);
      IsAbsolute(joined) == root.absolute && Nonempty(Split(joined, '/')) == root.names + Nonempty(Split(rel, '/'))
  {
    if root.names == [] {
      assert Text(root) == "/" && Joined("/", rel) == "/" + rel;
      AbsoluteText(rel);
      assert [] + Nonempty(Split(rel, '/')) == Nonempty(Split(rel, '/'));
    } else {
      var names := Join(root.names, "/");
      NamedPieces(root.names, rel);
      TextEnds(root.names);
      if root.absolute {
        AbsoluteText(names + "/" + rel);
        assert Joined(Text(root), rel) == "/" + (names + "/" + rel);
      } else {
        assert Text(root) == names && Joined(names, rel) == names + "/" + rel;
      }
    }
  }

  lemma {:induction false} NamedPieces(names: seq<string>, rel: string)
    requires forall i :: 0 <= i < |names| ==> IsName(names[i])
    ensures Nonempty(Split(Join(names, "/") + "/" + rel, '/')) == names + Nonempty(Split(rel, '/'))
  {
    RelativeText(names);
    SplitConcat(Join(names, "/"), rel, '/');
    NonemptyAppend(Split(Join(names, "/"), '/'), Split(rel, '/'));
  }

  lemma {:induction false} TextEnds(names: seq<string>)
    requires names != [] && forall i :: 0 <= i < |names| ==> IsName(names[i])
    ensures var s := Join(names, "/"); s != "" && s[0] != '/' && s[|s| - 1] != '/'
    decreases |names|
  {
    assert names[0][0] in names[0] && names[0][|names[0]| - 1] in names[0];
    if |names| > 1 {
      TextEnds(names[1..]);
    }
  }

  /** On a normalised root it agrees with `normalise_join`. */
  lemma {:induction false} SafeJoinNormalises(root: Place, rel: string)
    requires IsNormal(root) && (forall i :: 0 <= i < |root.names| ==> IsName(root.names[i])) && !IsAbsolute(rel)
    ensures PushAll(root, Components(rel)) == Normalised(Components(Joined(Text(root), rel)))
  {
    PushRelative(root, rel);
    var tail := Parts(Nonempty(Split(rel, '/')));
    if root == EMPTY {
      assert Text(root) == "" && Joined("", rel) == rel;
      PushRelative(EMPTY, rel);
    } else {
      JoinedPieces(root, rel);
      PartsOfNames(root.names);
      PartsAppend(root.names, Nonempty(Split(rel, '/')));
      var cs := Components(Joined(Text(root), rel));
      JoinedComponents(root, rel, cs);
      PushAllAppend(EMPTY, Steps(root), tail);
      NormalIsItsOwnForm(root);
    }
  }

  lemma {:induction false} JoinedComponents(root: Place, rel: string, cs: seq<Component>)
    requires (forall i :: 0 <= i < |root.names| ==> IsName(root.names[i])) && !IsAbsolute(rel) && root != EMPTY
    requires cs == Components(Joined(Text(root), rel))
    ensures cs == Steps(root) + Parts(Nonempty(Split(rel, '/')))
  {
    JoinedPieces(root, rel);
    ComponentsFrom(Joined(Text(root), rel), root, Nonempty(Split(rel, '/')));
  }

  lemma {:induction false} ComponentsFrom(text: string, root: Place, tail: seq<string>)
    requires (forall i :: 0 <= i < |root.names| ==> IsName(root.names[i])) && root != EMPTY
    requires IsAbsolute(text) == root.absolute && Nonempty(Split(text, '/')) == root.names + tail
    ensures Components(text) == Steps(root) + Parts(tail)
  {
    PartsOfNames(root.names);
    PartsAppend(root.names, tail);
    if root.absolute {
      AbsoluteComponents(text, root.names + tail);
      Regrouped(RootDir, Parts(root.names), Parts(tail));
    } else {
      FirstIsName(root.names, tail);
      RelativeComponents(text, root.names + tail);
    }
  }

  lemma AbsoluteComponents(text: string, pieces: seq<string>)
    requires IsAbsolute(text) && Nonempty(Split(text, '/')) == pieces
    ensures Components(text) == [RootDir] + Parts(pieces)
  {
  }

  lemma RelativeComponents(text: string, pieces: seq<string>)
    requires !IsAbsolute(text) && Nonempty(Split(text, '/')) == pieces && pieces != [] && pieces[0] != "."
    ensures Components(text) == Parts(pieces)
  {
  }

  lemma Regrouped(c: Component, a: seq<Component>, b: seq<Component>)
    ensures [c] + (a + b) == ([c] + a) + b
  {
  }

  lemma FirstIsName(names: seq<string>, tail: seq<string>)
    requires names != [] && forall i :: 0 <= i < |names| ==> IsName(names[i])
    ensures names + tail != [] && (names + tail)[0] != "."
  {
    assert (names + tail)[0] == names[0];
  }

  // ---- output paths ---------------------------------------------------------------------------------------

  /** `Path::starts_with`, on normal forms. */
  predicate IsUnder(p: Place, dir: Place) { p.absolute == dir.absolute && dir.names <= p.names }

  /** Where a target's path leads; a leading slash makes it absolute, and empty parts leave
      no trace. */
  function PlaceOf(target: string): Place { Place(IsAbsolute(target), Nonempty(Split(target, '/'))) }

  /** The check of an `output_path`: the joined path must stay in the target's directory. */
  predicate OutputAccepted(target: string, output: string) {
    target == "" || IsUnder(Normalised(Components(Joined(target, output))), PlaceOf(target))
  }

  /** It accepts exactly the paths that end in the target's directory, wherever one starts
      (a target's path is its name with slashes for dots, and no name is empty). */
  lemma {:induction false} OutputAcceptedExactly(target: string, output: string)
    requires target != "" && '.' !in target
    ensures OutputAccepted(target, output) <==>
      forall at :: Reach(at, PlaceOf(target)) <= Walk(at, Components(Joined(target, output)))
  {
    TargetNames(target);
    if IsAbsolute(target) {
      AbsoluteOutput(target, output);
    } else {
      RelativeOutput(target, output);
    }
  }

  lemma {:induction false} TargetNames(target: string)
    requires '.' !in target
    ensures UP !in PlaceOf(target).names && (target != "" && !IsAbsolute(target) ==> PlaceOf(target).names != [])
  {
    PiecesWithout(target, '/', '.');
    SomeWithout(Split(target, '/'), '.');
    assert '.' in UP;
    if target != "" && !IsAbsolute(target) {
      FirstPiece(target);
    }
  }

  lemma {:induction false} FirstPiece(s: string)
    requires s != "" && s[0] != '/'
    ensures Split(s, '/')[0] != ""
  {
  }

  lemma {:induction false} PiecesWithout(s: string, sep: char, c: char)
    requires c !in s
    ensures forall i :: 0 <= i < |Split(s, sep)| ==> c !in Split(s, sep)[i]
  {
    if s != "" {
      PiecesWithout(s[1..], sep, c);
    }
  }

  lemma {:induction false} SomeWithout(pieces: seq<string>, c: char)
    requires forall i :: 0 <= i < |pieces| ==> c !in pieces[i]
    ensures forall n :: n in Nonempty(pieces) ==> c !in n
  {
    if pieces != [] {
      SomeWithout(pieces[1..], c);
    }
  }

  lemma {:induction false} StaysAbsolute(out: Place, cs: seq<Component>)
    requires out.absolute
    ensures PushAll(out, cs).absolute
    decreases |cs|
  {
    if cs != [] {
      StaysAbsolute(Push(out, cs[0]), cs[1..]);
    }
  }

  lemma {:induction false} AbsoluteOutput(target: string, output: string)
    requires IsAbsolute(target) && UP !in PlaceOf(target).names
    ensures OutputAccepted(target, output) <==>
      forall at :: Reach(at, PlaceOf(target)) <= Walk(at, Components(Joined(target, output)))
  {
    var cs := Components(Joined(target, output));
    var p := Normalised(cs);
    assert IsAbsolute(Joined(target, output));
    assert cs[0] == RootDir && p == PushAll(Place(true, []), cs[1..]);
    StaysAbsolute(Place(true, []), cs[1..]);
    forall at ensures Reach(at, PlaceOf(target)) == PlaceOf(target).names && Walk(at, cs) == p.names {
      NormalFormIsThePlace(target, output, at);
      WalkAbsolute(at, p);
      WalkAbsolute(at, PlaceOf(target));
    }
    assert Reach([], PlaceOf(target)) == PlaceOf(target).names;
  }

  lemma {:induction false} RelativeOutput(target: string, output: string)
    requires target != "" && !IsAbsolute(target) && UP !in PlaceOf(target).names && PlaceOf(target).names != []
    ensures OutputAccepted(target, output) <==>
      forall at :: Reach(at, PlaceOf(target)) <= Walk(at, Components(Joined(target, output)))
  {
    var cs, names := Components(Joined(target, output)), PlaceOf(target).names;
    var p := Normalised(cs);
    NormalFormIsThePlace(target, output, []);
    forall at ensures Reach(at, PlaceOf(target)) == at + names && Walk(at, cs) == Reach(at, p) {
      NormalFormIsThePlace(target, output, at);
      WalkDown(at, names);
      assert Steps(PlaceOf(target)) == NameComponents(names);
    }
    if OutputAccepted(target, output) {
      forall at ensures Reach(at, PlaceOf(target)) <= Walk(at, cs) {
        UnderFromAnywhere(at, names, p);
      }
    } else {
      assert forall n :: n in names ==> n != UP;
      var at := OutsideFromSomewhere(names, p);
      assert !(Reach(at, PlaceOf(target)) <= Walk(at, cs));
    }
  }

  lemma {:induction false} UnderFromAnywhere(at: seq<string>, target: seq<string>, p: Place)
    requires IsNormal(p) && !p.absolute && target <= p.names && target != [] && target[0] != UP
    ensures at + target <= Reach(at, p)
  {
    assert UP !in p.names;
    WalkDown(at, p.names);
    assert Steps(p) == NameComponents(p.names);
  }

  lemma {:induction false} OutsideFromSomewhere(target: seq<string>, p: Place) returns (at: seq<string>)
    requires IsNormal(p) && (p.absolute || !(target <= p.names)) && forall n :: n in target ==> n != UP
    ensures !(at + target <= Reach(at, p))
  {
    var x := NewName(p.names);
    if p.absolute {
      at := [x];
      WalkAbsolute(at, p);
      assert (at + target)[0] == x;
      assert p.names != [] ==> p.names[0] in p.names;
    } else {
      var u := Ups(p.names);
      at := Repeat(x, u);
      FromBelow(x, u, p);
      assert Repeat(x, 0) == [] && [] + p.names[u..] == p.names[u..];
      if u == 0 {
        assert at + target == target && p.names[0..] == p.names;
      } else {
        NotIn(x, p.names, u);
        assert (at + target)[0] == x;
        assert p.names[u..] != [] ==> p.names[u..][0] in p.names[u..];
      }
    }
  }
}

/** Splitting and joining strings, and when that loses nothing. */
module Strings {
  /** `s.split(sep)`: never empty. */
  function Split(s: string, sep: char): (r: seq<string>)
    ensures r != []
    ensures forall i :: 0 <= i < |r| ==> sep !in r[i]
  {
    if s == [] then [""]
    else
      var rest := Split(s[1..], sep);
      if s[0] == sep then [""] + rest else [[s[0]] + rest[0]] + rest[1..]
  }

  /** The pieces that are not empty. */
  function Nonempty(pieces: seq<string>): seq<string> {
    if pieces == [] then [] else (if pieces[0] == "" then [] else [pieces[0]]) + Nonempty(pieces[1..])
  }

  function Join(parts: seq<string>, sep: string): string {
    if parts == [] then ""
    else if |parts| == 1 then parts[0]
    else parts[0] + sep + Join(parts[1..], sep)
  }

  lemma {:induction false} SplitAppend(a: string, b: string, sep: char)
    requires sep !in a
    ensures Split(a + [sep] + b, sep) == [a] + Split(b, sep)
  {
    if a == [] {
      assert ([sep] + b)[1..] == b;
      assert a + [sep] + b == [sep] + b;
    } else {
      var whole := a + [sep] + b;
      assert whole[1..] == a[1..] + [sep] + b && whole[0] == a[0];
      SplitAppend(a[1..], b, sep);
      assert a == [a[0]] + a[1..];
    }
  }

  lemma {:induction false} SplitAtom(a: string, sep: char)
    requires sep !in a
    ensures Split(a, sep) == [a]
  {
    if a != [] {
      SplitAtom(a[1..], sep);
      assert a == [a[0]] + a[1..];
    }
  }

  /** Joining pieces that do not hold the separator can be undone. */
  lemma {:induction false} SplitJoin(parts: seq<string>, sep: char)
    requires parts != [] && forall i :: 0 <= i < |parts| ==> sep !in parts[i]
    ensures Split(Join(parts, [sep]), sep) == parts
  {
    if |parts| == 1 {
      SplitAtom(parts[0], sep);
    } else {
      SplitJoin(parts[1..], sep);
      SplitAppend(parts[0], Join(parts[1..], [sep]), sep);
      assert parts == [parts[0]] + parts[1..];
    }
  }

  lemma {:induction false} SplitConcat(a: string, b: string, sep: char)
    ensures Split(a + [sep] + b, sep) == Split(a, sep) + Split(b, sep)
  {
    if a == [] {
      assert a + [sep] + b == [sep] + b && ([sep] + b)[1..] == b;
    } else {
      assert (a + [sep] + b)[1..] == a[1..] + [sep] + b;
      SplitConcat(a[1..], b, sep);
    }
  }

  lemma {:induction false} JoinSplit(s: string, sep: char)
    ensures Join(Split(s, sep), [sep]) == s
  {
    if s != [] {
      JoinSplit(s[1..], sep);
      var rest := Split(s[1..], sep);
      if s[0] != sep {
        assert ([[s[0]] + rest[0]] + rest[1..])[1..] == rest[1..];
      } else {
        assert ([""] + rest)[1..] == rest;
      }
    }
  }

  lemma JoinIsInjective(a: seq<string>, b: seq<string>, sep: char)
    requires a != [] && b != []
    requires forall i :: 0 <= i < |a| ==> sep !in a[i]
    requires forall i :: 0 <= i < |b| ==> sep !in b[i]
    requires Join(a, [sep]) == Join(b, [sep])
    ensures a == b
  {
    SplitJoin(a, sep);
    SplitJoin(b, sep);
  }

  /** Each piece followed by `end`. */
  function Terminated(parts: seq<string>, end: char): string {
    if parts == [] then "" else parts[0] + [end] + Terminated(parts[1..], end)
  }

  lemma {:induction false} SplitTerminated(parts: seq<string>, end: char)
    requires forall i :: 0 <= i < |parts| ==> end !in parts[i]
    ensures Split(Terminated(parts, end), end) == parts + [""]
  {
    if parts != [] {
      SplitTerminated(parts[1..], end);
      SplitAppend(parts[0], Terminated(parts[1..], end), end);
      assert parts + [""] == [parts[0]] + (parts[1..] + [""]);
    }
  }

  lemma TerminatedIsInjective(a: seq<string>, b: seq<string>, end: char)
    requires forall i :: 0 <= i < |a| ==> end !in a[i]
    requires forall i :: 0 <= i < |b| ==> end !in b[i]
    requires Terminated(a, end) == Terminated(b, end)
    ensures a == b
  {
    SplitTerminated(a, end);
    SplitTerminated(b, end);
    assert (a + [""])[..|a|] == a && (b + [""])[..|b|] == b;
  }
}

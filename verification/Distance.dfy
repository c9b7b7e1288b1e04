/**
 The distance behind "did you mean" (classfile.rs): the loop that keeps one row of the
 table finds the cost of a cheapest script of edits from one string to the other.
*/
module Distance {
  /** Scripts are read, like the table is filled, up to the end of both strings. */
  datatype Edit = Keep | Replace | Insert | Delete

  function Cost(script: seq<Edit>): nat {
    if script == [] then 0 else Cost(Init(script)) + if Last(script).Keep? then 0 else 1
  }

  function Init<T>(s: seq<T>): seq<T>
    requires s != []
  {
    s[..|s| - 1]
  }

  function Last<T>(s: seq<T>): T
    requires s != []
  {
    s[|s| - 1]
  }

  /** The script turns `a` into `b`; replacing a character by itself is allowed. */
  predicate Turns(script: seq<Edit>, a: string, b: string) {
    if script == [] then a == [] && b == []
    else match Last(script)
      case Keep => a != [] && b != [] && Last(a) == Last(b) && Turns(Init(script), Init(a), Init(b))
      case Replace => a != [] && b != [] && Turns(Init(script), Init(a), Init(b))
      case Insert => b != [] && Turns(Init(script), a, Init(b))
      case Delete => a != [] && Turns(Init(script), Init(a), b)
  }

  function Min(x: nat, y: nat): nat { if x <= y then x else y }

  /** The table's entries. */
  function Table(a: string, b: string): nat
    decreases |a| + |b|
  {
    if a == [] then |b|
    else if b == [] then |a|
    else Min(Min(Table(Init(a), Init(b)) + (if Last(a) != Last(b) then 1 else 0), Table(a, Init(b)) + 1),
             Table(Init(a), b) + 1)
  }

  lemma {:induction false} TableIsLeast(script: seq<Edit>, a: string, b: string)
    requires Turns(script, a, b)
    ensures Table(a, b) <= Cost(script)
    decreases |script|
  {
    if script != [] {
      match Last(script)
      case Keep => TableIsLeast(Init(script), Init(a), Init(b));
      case Replace => TableIsLeast(Init(script), Init(a), Init(b));
      case Insert => TableIsLeast(Init(script), a, Init(b));
      case Delete => TableIsLeast(Init(script), Init(a), b);
    }
  }

  lemma Extend(script: seq<Edit>, e: Edit)
    ensures Init(script + [e]) == script && Last(script + [e]) == e
    ensures Cost(script + [e]) == Cost(script) + if e.Keep? then 0 else 1
  {
    assert Init(script + [e]) == script;
  }

  lemma {:induction false} TableIsReached(a: string, b: string) returns (script: seq<Edit>)
    ensures Turns(script, a, b) && Cost(script) == Table(a, b)
    decreases |a| + |b|
  {
    script := [];
    if a != [] || b != [] {
      var e: Edit;
      if a == [] || (b != [] && Table(a, b) == Table(a, Init(b)) + 1) {
        script := TableIsReached(a, Init(b));
        e := Insert;
      } else if b == [] || Table(a, b) == Table(Init(a), b) + 1 {
        script := TableIsReached(Init(a), b);
        e := Delete;
      } else {
        script := TableIsReached(Init(a), Init(b));
        e := if Last(a) == Last(b) then Keep else Replace;
      }
      Extend(script, e);
      script := script + [e];
    }
  }

  /** One row of the table: the distances from `a` to the first characters of `b`. */
  ghost function Row(a: string, b: string): (r: seq<nat>)
    ensures |r| == |b| + 1 && forall j :: 0 <= j < |r| ==> r[j] == Table(a, b[..j])
  {
    seq(|b| + 1, j requires 0 <= j <= |b| => Table(a, b[..j]))
  }

  /** The row `here` follows the row `above` for one more character. */
  ghost predicate Follows(above: seq<nat>, here: seq<nat>, ca: char, b: string) {
    && |above| == |here| == |b| + 1 && here[0] == above[0] + 1
    && forall j :: 0 <= j < |b| ==>
         here[j + 1] == Min(Min(above[j] + (if ca != b[j] then 1 else 0), here[j] + 1), above[j + 1] + 1)
  }

  lemma RowsFollow(a: string, ca: char, b: string)
    ensures Follows(Row(a, b), Row(a + [ca], b), ca, b)
  {
    forall j | 0 <= j < |b|
      ensures Row(a + [ca], b)[j + 1] ==
        Min(Min(Row(a, b)[j] + (if ca != b[j] then 1 else 0), Row(a + [ca], b)[j] + 1), Row(a, b)[j + 1] + 1)
    {
      assert b[..j + 1] == b[..j] + [b[j]];
      TableStep(a, ca, b[..j], b[j]);
    }
    assert b[..0] == [] && Table(a, []) == |a|;
  }

  lemma TableStep(a: string, x: char, b: string, y: char)
    ensures Table(a + [x], b + [y]) ==
      Min(Min(Table(a, b) + (if x != y then 1 else 0), Table(a + [x], b) + 1), Table(a, b + [y]) + 1)
  {
    assert Init(a + [x]) == a && Init(b + [y]) == b;
  }

  /** The next row, in place. */
  method NextRow(row: array<nat>, i: nat, ca: char, b: string, ghost here: seq<nat>)
    requires row.Length == |b| + 1 && row[0] == i && Follows(row[..], here, ca, b)
    modifies row
    ensures row[..] == here
  {
    ghost var above := row[..];
    var prev := row[0];
    row[0] := i + 1;
    for j := 0 to |b|
      invariant prev == above[j] && forall k :: 0 <= k <= j ==> row[k] == here[k]
      invariant forall k :: j < k <= |b| ==> row[k] == above[k]
    {
      var cur := Min(Min(prev + (if ca != b[j] then 1 else 0), row[j] + 1), row[j + 1] + 1);
      prev := row[j + 1];
      row[j + 1] := cur;
    }
  }

  /** `distance` */
  method Distance(a: string, b: string) returns (d: nat)
    ensures exists script :: Turns(script, a, b) && Cost(script) == d
    ensures forall script :: Turns(script, a, b) ==> d <= Cost(script)
  {
    var row := new nat[|b| + 1](j => j);
    assert row[..] == Row([], b);
    for i := 0 to |a|
      invariant row.Length == |b| + 1 && row[..] == Row(a[..i], b)
    {
      assert a[..i + 1] == a[..i] + [a[i]];
      RowsFollow(a[..i], a[i], b);
      assert row[..][0] == Table(a[..i], b[..0]);
      NextRow(row, i, a[i], b, Row(a[..i + 1], b));
    }
    assert a[..|a|] == a && b[..|b|] == b;
    d := row[|b|];
    assert d == row[..][|b|] == Table(a, b);
    var script := TableIsReached(a, b);
    forall other | Turns(other, a, b) ensures d <= Cost(other) {
      TableIsLeast(other, a, b);
    }
  }

  // ---- it is a metric ---------------------------------------------------------------------

  function Undone(script: seq<Edit>): (r: seq<Edit>)
    ensures |r| == |script|
  {
    seq(|script|, i requires 0 <= i < |script| =>
      match script[i] case Insert => Delete case Delete => Insert case e => e)
  }

  lemma {:induction false} UndoingTurnsBack(script: seq<Edit>, a: string, b: string)
    requires Turns(script, a, b)
    ensures Turns(Undone(script), b, a) && Cost(Undone(script)) == Cost(script)
    decreases |script|
  {
    if script != [] {
      assert Init(Undone(script)) == Undone(Init(script));
      match Last(script)
      case Keep => UndoingTurnsBack(Init(script), Init(a), Init(b));
      case Replace => UndoingTurnsBack(Init(script), Init(a), Init(b));
      case Insert => UndoingTurnsBack(Init(script), a, Init(b));
      case Delete => UndoingTurnsBack(Init(script), Init(a), b);
    }
  }

  lemma {:induction false} Symmetric(a: string, b: string)
    ensures Table(a, b) == Table(b, a)
  {
    var there := TableIsReached(a, b);
    UndoingTurnsBack(there, a, b);
    TableIsLeast(Undone(there), b, a);
    var back := TableIsReached(b, a);
    UndoingTurnsBack(back, b, a);
    TableIsLeast(Undone(back), a, b);
  }

  /** One script after the other, as one script. */
  lemma {:induction false} Composed(s: seq<Edit>, t: seq<Edit>, a: string, b: string, c: string) returns (r: seq<Edit>)
    requires Turns(s, a, b) && Turns(t, b, c)
    ensures Turns(r, a, c) && Cost(r) <= Cost(s) + Cost(t)
    decreases |s| + |t|
  {
    if s == [] && t == [] {
      r := [];
    } else if t != [] && Last(t).Insert? {
      var q := Composed(s, Init(t), a, b, Init(c));
      Extend(q, Insert);
      r := q + [Insert];
    } else if s != [] && Last(s).Delete? {
      var q := Composed(Init(s), t, Init(a), b, c);
      Extend(q, Delete);
      r := q + [Delete];
    } else {
      r := ComposedAtCharacter(s, t, a, b, c);
    }
  }

  /** The first script ends by writing a character that the second ends by reading. */
  lemma {:induction false} ComposedAtCharacter(s: seq<Edit>, t: seq<Edit>, a: string, b: string, c: string)
    returns (r: seq<Edit>)
    requires Turns(s, a, b) && Turns(t, b, c) && s != [] && t != [] && !Last(s).Delete? && !Last(t).Insert?
    ensures Turns(r, a, c) && Cost(r) <= Cost(s) + Cost(t)
    decreases |s| + |t|, 0
  {
    if Last(s).Insert? {
      if Last(t).Delete? {
        r := Composed(Init(s), Init(t), a, Init(b), c);
      } else {
        var q := Composed(Init(s), Init(t), a, Init(b), Init(c));
        Extend(q, Insert);
        r := q + [Insert];
      }
    } else if Last(t).Delete? {
      var q := Composed(Init(s), Init(t), Init(a), Init(b), c);
      Extend(q, Delete);
      r := q + [Delete];
    } else {
      var q := Composed(Init(s), Init(t), Init(a), Init(b), Init(c));
      var e := if Last(a) == Last(c) then Keep else Replace;
      Extend(q, e);
      r := q + [e];
    }
  }

  lemma {:induction false} Triangle(a: string, b: string, c: string)
    ensures Table(a, c) <= Table(a, b) + Table(b, c)
  {
    var s := TableIsReached(a, b);
    var t := TableIsReached(b, c);
    var r := Composed(s, t, a, b, c);
    TableIsLeast(r, a, c);
  }

  lemma {:induction false} ZeroMeansEqual(a: string, b: string)
    ensures Table(a, b) == 0 <==> a == b
    decreases |a| + |b|
  {
    if a != [] && b != [] {
      ZeroMeansEqual(Init(a), Init(b));
      assert a == Init(a) + [Last(a)] && b == Init(b) + [Last(b)];
    }
  }
}

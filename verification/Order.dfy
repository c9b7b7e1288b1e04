/** Total orders, and the sorted listing of a finite set (`Vec::sort`, `BTreeMap` keys). */
module Order {
  ghost predicate Total<T(!new)>(le: (T, T) -> bool) {
    && (forall x, y :: le(x, y) || le(y, x))
    && (forall x, y :: le(x, y) && le(y, x) ==> x == y)
    && (forall x, y, z :: le(x, y) && le(y, z) ==> le(x, z))
  }

  /** Lexicographic order of sequences. */
  predicate Lex<T(==)>(le: (T, T) -> bool, a: seq<T>, b: seq<T>) {
    a == [] || (b != [] && if a[0] == b[0] then Lex(le, a[1..], b[1..]) else le(a[0], b[0]))
  }

  lemma {:induction false} LexIsTotal<T(!new)>(le: (T, T) -> bool, a: seq<T>, b: seq<T>)
    requires Total(le)
    ensures Lex(le, a, b) || Lex(le, b, a)
    ensures Lex(le, a, b) && Lex(le, b, a) ==> a == b
  {
    if a != [] && b != [] && a[0] == b[0] {
      LexIsTotal(le, a[1..], b[1..]);
      assert a == [a[0]] + a[1..] && b == [b[0]] + b[1..];
    }
  }

  lemma {:induction false} LexIsTransitive<T(!new)>(le: (T, T) -> bool, a: seq<T>, b: seq<T>, c: seq<T>)
    requires Total(le) && Lex(le, a, b) && Lex(le, b, c)
    ensures Lex(le, a, c)
  {
    if a != [] && a[0] == b[0] && b[0] == c[0] {
      LexIsTransitive(le, a[1..], b[1..], c[1..]);
    }
  }

  predicate CharLe(a: char, b: char) { a <= b }

  predicate StrLe(a: string, b: string) { Lex(CharLe, a, b) }

  predicate PathLe(a: seq<string>, b: seq<string>) { Lex(StrLe, a, b) }

  lemma StrLeIsTotal()
    ensures Total(StrLe)
  {
    forall x: string, y: string ensures StrLe(x, y) || StrLe(y, x) {
      LexIsTotal(CharLe, x, y);
    }
    forall x: string, y: string | StrLe(x, y) && StrLe(y, x) ensures x == y {
      LexIsTotal(CharLe, x, y);
    }
    forall x: string, y: string, z: string | StrLe(x, y) && StrLe(y, z) ensures StrLe(x, z) {
      LexIsTransitive(CharLe, x, y, z);
    }
  }

  lemma PathLeIsTotal()
    ensures Total(PathLe)
  {
    StrLeIsTotal();
    forall x: seq<string>, y: seq<string> ensures PathLe(x, y) || PathLe(y, x) {
      LexIsTotal(StrLe, x, y);
    }
    forall x: seq<string>, y: seq<string> | PathLe(x, y) && PathLe(y, x) ensures x == y {
      LexIsTotal(StrLe, x, y);
    }
    forall x: seq<string>, y: seq<string>, z: seq<string> | PathLe(x, y) && PathLe(y, z) ensures PathLe(x, z) {
      LexIsTransitive(StrLe, x, y, z);
    }
  }

  ghost predicate Least<T(!new)>(le: (T, T) -> bool, s: set<T>, m: T) {
    m in s && forall x :: x in s ==> le(m, x)
  }

  /** One more element is either above the least one or below everything. */
  lemma LeastOfMore<T(!new)>(le: (T, T) -> bool, s: set<T>, y: T, m: T)
    requires y in s && Least(le, s - {y}, m) && le(m, m) && le(y, y)
    requires le(m, y) || (le(y, m) && forall x :: x in s - {y} ==> le(y, x))
    ensures exists l :: Least(le, s, l)
  {
    if le(m, y) {
      assert Least(le, s, m);
    } else {
      assert Least(le, s, y);
    }
  }

  lemma Chain<T(!new)>(le: (T, T) -> bool, x: T, y: T, z: T)
    requires Total(le) && le(x, y) && le(y, z)
    ensures le(x, z)
  {
  }

  lemma {:induction false} HasLeast<T(!new)>(le: (T, T) -> bool, s: set<T>)
    requires Total(le) && s != {}
    ensures exists m :: Least(le, s, m)
  {
    var y :| y in s;
    if s == {y} {
      assert Least(le, s, y);
    } else {
      HasLeast(le, s - {y});
      var m :| Least(le, s - {y}, m);
      if !le(m, y) {
        forall x | x in s - {y} ensures le(y, x) {
          Chain(le, y, m, x);
        }
      }
      LeastOfMore(le, s, y, m);
    }
  }

  ghost predicate Ascending<T>(le: (T, T) -> bool, r: seq<T>) {
    forall i, j :: 0 <= i < j < |r| ==> le(r[i], r[j]) && r[i] != r[j]
  }

  /** The elements of `s`, each once, in order. */
  function Sorted<T(!new, ==)>(le: (T, T) -> bool, s: set<T>): (r: seq<T>)
    requires Total(le)
    ensures forall x :: x in r <==> x in s
    ensures Ascending(le, r)
  {
    if s == {} then []
    else
      HasLeast(le, s);
      assert exists m :: m in s && forall x :: x in s ==> le(m, x) by {
        var m :| Least(le, s, m);
      }
      var m :| m in s && forall x :: x in s ==> le(m, x);
      [m] + Sorted(le, s - {m})
  }

  /** There is only one such listing. */
  lemma {:induction false} AscendingIsUnique<T(!new)>(le: (T, T) -> bool, a: seq<T>, b: seq<T>)
    requires Total(le) && Ascending(le, a) && Ascending(le, b) && forall x :: x in a <==> x in b
    ensures a == b
    decreases |a|
  {
    if a == [] {
      assert forall i :: 0 <= i < |b| ==> b[i] in b;
    } else {
      assert a[0] in b && b[0] in a;
      SameFirst(le, a, b);
      RestHas(a);
      RestHas(b);
      forall x ensures x in a[1..] <==> x in b[1..] {
        assert x in a[1..] ==> x != a[0];
        assert x in b[1..] ==> x != b[0];
      }
      AscendingIsUnique(le, a[1..], b[1..]);
      assert a == [a[0]] + a[1..] && b == [b[0]] + b[1..];
    }
  }

  lemma SameFirst<T(!new)>(le: (T, T) -> bool, a: seq<T>, b: seq<T>)
    requires Total(le) && Ascending(le, a) && Ascending(le, b) && a != [] && a[0] in b && b != [] && b[0] in a
    ensures a[0] == b[0]
  {
    var i :| 0 <= i < |a| && a[i] == b[0];
    var j :| 0 <= j < |b| && b[j] == a[0];
    assert le(a[0], a[i]) && le(b[0], b[j]);
  }

  lemma RestHas<T>(a: seq<T>)
    requires a != []
    ensures forall x :: x in a <==> x == a[0] || x in a[1..]
  {
    assert a == [a[0]] + a[1..];
  }

  /** Where two sequences differ first decides their order; a beginning comes before. */
  lemma {:induction false} LexMeans<T(!new)>(le: (T, T) -> bool, a: seq<T>, b: seq<T>, k: nat)
    requires k <= |a| && k <= |b| && a[..k] == b[..k]
    ensures k == |a| ==> Lex(le, a, b)
    ensures k == |b| < |a| ==> !Lex(le, a, b)
    ensures k < |a| && k < |b| && a[k] != b[k] ==> (Lex(le, a, b) <==> le(a[k], b[k]))
    decreases k
  {
    if k > 0 {
      assert a[0] == a[..k][0] == b[..k][0] == b[0];
      assert a[1..][..k - 1] == a[..k][1..] == b[..k][1..] == b[1..][..k - 1];
      LexMeans(le, a[1..], b[1..], k - 1);
    }
  }

  function SortedPaths(s: set<seq<string>>): (r: seq<seq<string>>)
    ensures forall x :: x in r <==> x in s
  {
    PathLeIsTotal();
    Sorted(PathLe, s)
  }

  function SortedStrings(s: set<string>): (r: seq<string>)
    ensures forall x :: x in r <==> x in s
  {
    StrLeIsTotal();
    Sorted(StrLe, s)
  }

  lemma SortedSingle(x: string)
    ensures SortedStrings({x}) == [x]
  {
    StrLeIsTotal();
    assert {x} - {x} == {};
    assert Sorted(StrLe, {x})[0] in {x};
  }
}

/**
 Python's `==` on inventory values (value.rs): numbers compare by value as doubles,
 maps without regard to order, everything else by type and content.
*/
module PythonEq {
  import opened Wrappers
  import opened Values

  // ---- numbers ------------------------------------------------------------------------

  const TWO53: int := 0x20_0000_0000_0000

  /** The least power of two with `n < 2^53 * unit`. */
  function Unit(n: nat, unit: nat): (r: nat)
    requires unit > 0
    ensures r >= unit && n < TWO53 * r
    decreases n - unit
  {
    if n < TWO53 * unit then unit else Unit(n, 2 * unit)
  }

  /** To the nearest multiple of `unit`, halves to the even one. */
  function RoundTo(n: nat, unit: nat): nat
    requires unit > 0
  {
    var q, r := n / unit, n % unit;
    if 2 * r > unit || (2 * r == unit && q % 2 == 1) then (q + 1) * unit else q * unit
  }

  /** `i as f64`: 53 significant bits. */
  function ToF64(i: int): F64 {
    if i >= 0 then Finite(RoundTo(i, Unit(i, 1)) as real)
    else Finite(-(RoundTo(-i, Unit(-i, 1)) as real))
  }

  function AsNumber(v: Value): Option<F64> {
    match v
    case Bool(b) => Some(Finite(if b then 1.0 else 0.0))
    case Int(i) => Some(ToF64(i))
    case Float(f) => Some(f)
    case _ => None
  }

  predicate F64Eq(x: F64, y: F64) { x == y && x != NaN }

  // ---- equality -------------------------------------------------------------------------

  /** `map.get(key)`, as a position. */
  function Find(entries: seq<Entry>, key: string): (r: Option<nat>)
    ensures match r
      case Some(i) => i < |entries| && entries[i].key == key && forall k :: 0 <= k < i ==> entries[k].key != key
      case None => forall k :: 0 <= k < |entries| ==> entries[k].key != key
  {
    if entries == [] then None
    else if entries[0].key == key then Some(0)
    else match Find(entries[1..], key)
      case None => None
      case Some(i) => Some(i + 1)
  }

  predicate PyEq(a: Value, b: Value)
    decreases a
  {
    match (a, b)
    case (Null, Null) => true
    case (Str(x), Str(y)) => x == y
    case (List(xs), List(ys)) =>
      |xs| == |ys| && forall i :: 0 <= i < |xs| ==> PyEq(xs[i].value, ys[i].value)
    case (Map(xs), Map(ys)) =>
      |xs| == |ys| && forall i :: 0 <= i < |xs| ==>
        var j := Find(ys, xs[i].key);
        j.Some? && PyEq(xs[i].node.value, ys[j.value].node.value)
    case _ =>
      AsNumber(a).Some? && AsNumber(b).Some? && F64Eq(AsNumber(a).value, AsNumber(b).value)
  }

  ghost predicate UniqueKeys(entries: seq<Entry>) {
    forall i, j :: 0 <= i < j < |entries| ==> entries[i].key != entries[j].key
  }

  /** Keys are unique in every map, as in the maps the source builds. */
  ghost predicate Proper(v: Value)
    decreases v
  {
    match v
    case List(xs) => forall i :: 0 <= i < |xs| ==> Proper(xs[i].value)
    case Map(xs) => UniqueKeys(xs) && forall i :: 0 <= i < |xs| ==> Proper(xs[i].node.value)
    case _ => true
  }

  predicate NaNFree(v: Value)
    decreases v
  {
    match v
    case Float(f) => f != NaN
    case List(xs) => forall i :: 0 <= i < |xs| ==> NaNFree(xs[i].value)
    case Map(xs) => forall i :: 0 <= i < |xs| ==> NaNFree(xs[i].node.value)
    case _ => true
  }

  /** A value equals itself exactly when it holds no NaN. */
  lemma {:induction false} Reflexive(v: Value)
    requires Proper(v)
    ensures PyEq(v, v) <==> NaNFree(v)
    decreases v
  {
    match v {
      case List(xs) =>
        forall i | 0 <= i < |xs| ensures PyEq(xs[i].value, xs[i].value) <==> NaNFree(xs[i].value) {
          Reflexive(xs[i].value);
        }
      case Map(xs) =>
        forall i | 0 <= i < |xs|
          ensures Find(xs, xs[i].key) == Some(i) &&
            (PyEq(xs[i].node.value, xs[i].node.value) <==> NaNFree(xs[i].node.value))
        {
          Reflexive(xs[i].node.value);
        }
      case _ =>
    }
  }

  /** No assumption is needed for this. */
  lemma {:induction false} Transitive(a: Value, b: Value, c: Value)
    requires PyEq(a, b) && PyEq(b, c)
    ensures PyEq(a, c)
    decreases a
  {
    match (a, b, c) {
      case (List(xs), List(ys), List(zs)) =>
        forall i | 0 <= i < |xs| ensures PyEq(xs[i].value, zs[i].value) {
          Transitive(xs[i].value, ys[i].value, zs[i].value);
        }
      case (Map(xs), Map(ys), Map(zs)) =>
        forall i | 0 <= i < |xs|
          ensures Find(zs, xs[i].key).Some? && PyEq(xs[i].node.value, zs[Find(zs, xs[i].key).value].node.value)
        {
          var j := Find(ys, xs[i].key).value;
          var k := Find(zs, ys[j].key).value;
          Transitive(xs[i].node.value, ys[j].node.value, zs[k].node.value);
        }
      case _ =>
    }
  }

  lemma {:induction false} Symmetric(a: Value, b: Value)
    requires Proper(a) && Proper(b) && PyEq(a, b)
    ensures PyEq(b, a)
    decreases a
  {
    match (a, b) {
      case (List(xs), List(ys)) =>
        forall i | 0 <= i < |ys| ensures PyEq(ys[i].value, xs[i].value) {
          Symmetric(xs[i].value, ys[i].value);
        }
      case (Map(xs), Map(ys)) =>
        forall j | 0 <= j < |ys|
          ensures Find(xs, ys[j].key).Some? && PyEq(ys[j].node.value, xs[Find(xs, ys[j].key).value].node.value)
        {
          SameKeys(xs, ys, j);
          var i := Find(xs, ys[j].key).value;
          assert Find(ys, xs[i].key) == Some(j);
          Symmetric(xs[i].node.value, ys[j].node.value);
        }
      case _ =>
    }
  }

  /** As many unique keys, all of them found: no key is left over. */
  lemma SameKeys(xs: seq<Entry>, ys: seq<Entry>, j: nat)
    requires UniqueKeys(xs) && UniqueKeys(ys) && |xs| == |ys| && j < |ys|
    requires forall i :: 0 <= i < |xs| ==> Find(ys, xs[i].key).Some?
    ensures Find(xs, ys[j].key).Some?
  {
    KeysCount(xs);
    KeysCount(ys);
    forall k | k in KeySet(xs) ensures k in KeySet(ys) {
      var i :| 0 <= i < |xs| && xs[i].key == k;
      assert ys[Find(ys, xs[i].key).value].key == k;
    }
    SubsetOfSameSize(KeySet(xs), KeySet(ys));
    assert ys[j].key in KeySet(ys);
  }

  function KeySet(xs: seq<Entry>): set<string> { set i | 0 <= i < |xs| :: xs[i].key }

  lemma {:induction false} KeysCount(xs: seq<Entry>)
    requires UniqueKeys(xs)
    ensures |KeySet(xs)| == |xs|
  {
    if xs != [] {
      var rest := xs[..|xs| - 1];
      KeysCount(rest);
      assert KeySet(xs) == KeySet(rest) + {xs[|xs| - 1].key};
    }
  }

  lemma {:induction false} SubsetOfSameSize(a: set<string>, b: set<string>)
    requires a <= b && |a| == |b|
    ensures a == b
  {
    if a != {} {
      var x :| x in a;
      SubsetOfSameSize(a - {x}, b - {x});
    }
  }

  // ---- integers as doubles -----------------------------------------------------------------

  const TWO52: int := 0x10_0000_0000_0000
  const TWO54: int := 0x40_0000_0000_0000
  const TWO63: int := 0x8000_0000_0000_0000

  predicate IsI64(i: int) { -TWO63 <= i < TWO63 }

  /** The double nearest to `n`. */
  function Rounded(n: nat): nat { RoundTo(n, Unit(n, 1)) }

  function Abs(i: int): nat { if i >= 0 then i else -i }

  /** The unit is the least one, and it is large only for large numbers. */
  lemma {:induction false} UnitIsTight(n: nat, unit: nat)
    requires unit > 0
    ensures var u := Unit(n, unit); u == unit || n >= TWO52 * u
    decreases n - unit
  {
    if n >= TWO53 * unit {
      UnitIsTight(n, 2 * unit);
    }
  }

  /** Numbers of one magnitude have one unit. */
  lemma {:induction false} SameUnit(n: nat, m: nat, unit: nat)
    requires unit > 0
    requires var u := Unit(n, unit); m < TWO53 * u && (u == unit || m >= TWO52 * u)
    ensures Unit(m, unit) == Unit(n, unit)
    decreases n - unit
  {
    if n >= TWO53 * unit {
      assert Unit(n, unit) == Unit(n, 2 * unit) && Unit(n, unit) >= 2 * unit;
      SameUnit(n, m, 2 * unit);
    }
  }

  lemma {:induction false} NextUnit(n: nat, unit: nat)
    requires unit > 0
    ensures var u := Unit(n, unit); Unit(TWO53 * u, unit) == 2 * u
    decreases n - unit
  {
    var u := Unit(n, unit);
    if n >= TWO53 * unit {
      NextUnit(n, 2 * unit);
    } else {
      assert Unit(TWO53 * unit, 2 * unit) == 2 * unit;
    }
  }

  lemma {:induction false} ProductsKeepOrder(a: nat, b: nat, u: nat)
    requires a <= b
    ensures a * u <= b * u && (a + 1) * u == a * u + u
  {
    assert b * u == a * u + (b - a) * u;
  }

  lemma {:induction false} Multiple(q: nat, u: nat)
    requires u > 0
    ensures (q * u) / u == q && (q * u) % u == 0 && RoundTo(q * u, u) == q * u
  {
    UniqueQuotient(q * u, u, q, 0);
  }

  /** What is a double already stays as it is: a multiple of its unit. */
  lemma {:induction false} MultipleStays(n: nat, q: nat, u: nat)
    requires u == Unit(n, 1) && TWO52 <= q <= TWO53
    ensures Rounded(q * u) == q * u
  {
    if q == TWO53 {
      NextUnit(n, 1);
      assert TWO53 * u == TWO52 * (2 * u);
      Multiple(TWO52, 2 * u);
    } else {
      ProductsKeepOrder(TWO52, q, u);
      ProductsKeepOrder(q + 1, TWO53, u);
      ProductsKeepOrder(q, q + 1, u);
      SameUnit(n, q * u, 1);
      Multiple(q, u);
    }
  }

  lemma {:induction false} QuotientOf(n: nat, u: nat)
    requires u > 0 && TWO52 * u <= n < TWO53 * u
    ensures TWO52 <= n / u < TWO53 && n == n / u * u + n % u
  {
    var q, r := n / u, n % u;
    assert n == q * u + r;
    NotBelow(q, r, TWO52, u, n);
    NotAbove(q, TWO53, u, n);
  }

  lemma NotBelow(q: nat, r: nat, b: nat, u: nat, n: nat)
    requires n == q * u + r && r < u && b * u <= n
    ensures b <= q
  {
    if q < b {
      ProductsKeepOrder(q + 1, b, u);
      ProductsKeepOrder(q, q, u);
    }
  }

  lemma NotAbove(q: nat, b: nat, u: nat, n: nat)
    requires q * u <= n < b * u
    ensures q < b
  {
    if q >= b {
      ProductsKeepOrder(b, q, u);
    }
  }

  lemma UnitIsTwo(n: nat)
    requires TWO53 <= n < TWO54
    ensures Unit(n, 1) == 2
  {
    assert Unit(n, 2) == 2;
  }

  /** Large numbers stay large. */
  lemma {:induction false} RoundedIsLarge(n: nat)
    requires n >= TWO53
    ensures Rounded(n) >= TWO53 && (n >= TWO54 ==> Rounded(n) >= TWO54)
  {
    var u := Unit(n, 1);
    UnitIsTight(n, 1);
    QuotientOf(n, u);
    ProductsKeepOrder(TWO52, n / u, u);
    ProductsKeepOrder(n / u, n / u, u);
    LargeUnit(n);
  }

  lemma LargeUnit(n: nat)
    requires n >= TWO53
    ensures Unit(n, 1) >= 2 && (n >= TWO54 ==> Unit(n, 1) >= 4)
  {
    assert Unit(n, 1) == Unit(n, 2);
  }

  lemma SmallIsItself(n: nat)
    requires n <= TWO53
    ensures Rounded(n) == n
  {
    if n < TWO53 {
      assert Unit(n, 1) == 1 && RoundTo(n, 1) == n;
    } else {
      UnitIsTwo(n);
      assert RoundTo(n, 2) == n;
    }
  }

  /** Even numbers as they are, odd ones to the multiple of four next to them. */
  function Evened(n: nat): nat { if n % 2 == 0 then n else if n % 4 == 1 then n - 1 else n + 1 }

  /** Between 2^53 and 2^54 even numbers are doubles; odd ones go to multiples of four. */
  lemma NextTo53(n: nat)
    requires TWO53 <= n < TWO54
    ensures Rounded(n) == Evened(n)
  {
    UnitIsTwo(n);
    ToEven(n);
  }

  lemma ToEven(n: nat)
    ensures RoundTo(n, 2) == Evened(n)
  {
    assert n == 2 * (n / 2) + n % 2;
  }

  /** No other integer is compared as the same double: below 2^53, and every second even
      number below 2^54. */
  predicate Distinguished(n: nat) { n < TWO53 || (n < TWO54 && n % 4 == 2) }

  lemma {:induction false} NoTwin(n: nat, m: nat)
    requires Distinguished(n) && Rounded(n) == Rounded(m)
    ensures n == m
  {
    if n < TWO53 {
      Located(n);
      Located(m);
    } else {
      NextTo53(n);
      EvenTwins(n, m);
    }
  }

  lemma EvenTwins(n: nat, m: nat)
    requires TWO53 <= n < TWO54 && n % 4 == 2 && Rounded(m) == n
    ensures n == m
  {
    Located(m);
  }

  lemma Located(n: nat)
    ensures n <= TWO53 ==> Rounded(n) == n
    ensures TWO53 <= n < TWO54 ==> Rounded(n) == Evened(n)
    ensures n >= TWO53 ==> Rounded(n) >= TWO53
    ensures n >= TWO54 ==> Rounded(n) >= TWO54
  {
    if n <= TWO53 {
      SmallIsItself(n);
    }
    if n >= TWO53 {
      RoundedIsLarge(n);
      if n < TWO54 {
        NextTo53(n);
      }
    }
  }

  lemma UnitTop(n: nat)
    requires TWO63 / 2 <= n < TWO63
    ensures Unit(n, 1) == 1024
  {
    assert Unit(n, 64) == Unit(n, 128) == Unit(n, 256) == Unit(n, 512) == Unit(n, 1024) == 1024;
    assert Unit(n, 1) == Unit(n, 2) == Unit(n, 4) == Unit(n, 8) == Unit(n, 16) == Unit(n, 32) == Unit(n, 64);
  }

  lemma AtTheTop()
    ensures Rounded(TWO63) == Rounded(TWO63 - 1) == Rounded(TWO63 - 2) == TWO63
  {
    UnitTop(TWO63 - 1);
    UnitTop(TWO63 - 2);
    assert TWO63 == TWO53 * 1024;
    NextUnit(TWO63 - 1, 1);
    assert RoundTo(TWO63 - 1, 1024) == TWO63 && RoundTo(TWO63 - 2, 1024) == TWO63;
    Multiple(TWO52, 2048);
  }

  /** Every other 64-bit magnitude has a twin, on either side of zero. */
  lemma {:induction false} HasTwin(n: nat) returns (m: nat)
    requires n <= TWO63 && !Distinguished(n)
    ensures 0 < m != n && Rounded(m) == Rounded(n) && m <= TWO63 && (n < TWO63 ==> m < TWO63)
  {
    if n < TWO54 {
      m := TwinBelow(n);
    } else if n == TWO63 {
      AtTheTop();
      m := TWO63 - 1;
    } else {
      m := TwinAbove(n);
    }
  }

  lemma {:induction false} TwinBelow(n: nat) returns (m: nat)
    requires TWO53 <= n < TWO54 && n % 4 != 2
    ensures 0 < m != n && Rounded(m) == Rounded(n) && m < TWO63
  {
    m := if n % 4 == 1 then n - 1 else n + 1;
    AtTwo54();
    NextTo53(n);
    if m < TWO54 {
      NextTo53(m);
    }
    SameTwin(n);
    assert Evened(TWO54) == TWO54;
  }

  lemma {:induction false} EvenedInFours(q: nat)
    ensures Evened(4 * q) == Evened(4 * q + 1) == 4 * q && Evened(4 * q + 3) == 4 * q + 4
  {
    InFours(4 * q + 1, q, 1);
    InFours(4 * q + 3, q, 3);
    InTwos(4 * q, 2 * q, 0);
    InTwos(4 * q + 1, 2 * q, 1);
    InTwos(4 * q + 3, 2 * q + 1, 1);
  }

  lemma InFours(n: nat, q: nat, r: nat)
    requires n == 4 * q + r && r < 4
    ensures n % 4 == r
  {
  }

  lemma InTwos(n: nat, q: nat, r: nat)
    requires n == 2 * q + r && r < 2
    ensures n % 2 == r
  {
  }

  lemma {:induction false} SameTwin(n: nat)
    requires n % 4 != 2
    ensures Evened(n) == Evened(if n % 4 == 1 then n - 1 else n + 1)
  {
    var q, r := n / 4, n % 4;
    assert n == 4 * q + r;
    EvenedInFours(q);
    if r == 3 {
      EvenedInFours(q + 1);
      assert n + 1 == 4 * (q + 1);
    }
  }

  lemma AtTwo54()
    ensures Rounded(TWO54) == TWO54
  {
    UnitIsTwo(TWO53);
    MultipleStays(TWO53, TWO53, 2);
  }

  lemma {:induction false} TwinAbove(n: nat) returns (m: nat)
    requires TWO54 <= n < TWO63
    ensures 0 < m != n && Rounded(m) == Rounded(n) && m < TWO63
  {
    var u := Unit(n, 1);
    UnitIsTight(n, 1);
    LargeUnit(n);
    QuotientOf(n, u);
    var q := n / u;
    ProductsKeepOrder(q, q, u);
    ProductsKeepOrder(TWO52, q, u);
    if n % u == 0 {
      m := n + 1;
      OneMore(n, q, u);
    } else if Rounded(n) == q * u {
      m := q * u;
      MultipleStays(n, q, u);
    } else {
      MultipleStays(n, q + 1, u);
      if (q + 1) * u < TWO63 {
        m := (q + 1) * u;
      } else {
        NotBeyondTop(n, q, u);
        AtTheTop();
        m := if n == TWO63 - 1 then TWO63 - 2 else TWO63 - 1;
      }
    }
  }

  /** The number after a multiple of the unit is rounded down to it. */
  lemma {:induction false} OneMore(n: nat, q: nat, u: nat)
    requires TWO54 <= n < TWO63 && u == Unit(n, 1) && u >= 4 && n == q * u && TWO52 <= q < TWO53
    ensures Rounded(n + 1) == Rounded(n) && n + 1 < TWO63
  {
    MultipleStays(n, q, u);
    ProductsKeepOrder(q + 1, TWO53, u);
    ProductsKeepOrder(TWO52, q, u);
    ProductsKeepOrder(q, q, u);
    SameUnit(n, n + 1, 1);
    OverMultiple(q, u);
    if n + 1 == TWO63 {
      UnitTop(n);
    }
  }

  lemma {:induction false} OverMultiple(q: nat, u: nat)
    requires u >= 4
    ensures RoundTo(q * u + 1, u) == q * u
  {
    UniqueQuotient(q * u + 1, u, q, 1);
  }

  lemma {:induction false} UniqueQuotient(n: nat, u: nat, q: nat, r: nat)
    requires u > 0 && n == q * u + r && r < u
    ensures n / u == q && n % u == r
  {
    var d, e := n / u, n % u;
    assert n == d * u + e;
    NotBelow(d, e, q, u, n);
    NotBelow(q, r, d, u, n);
  }

  lemma {:induction false} NotBeyondTop(n: nat, q: nat, u: nat)
    requires TWO54 <= n < TWO63 && u == Unit(n, 1) && TWO52 <= q < TWO53 && q * u <= n && (q + 1) * u >= TWO63
    ensures (q + 1) * u == TWO63
  {
    ProductsKeepOrder(q + 1, TWO53, u);
    ProductsKeepOrder(q, q, u);
    if n >= TWO63 / 2 {
      UnitTop(n);
    } else {
      UnitIsTight(n, 1);
    }
  }

  lemma DoubleOf(i: int)
    ensures i >= 0 ==> ToF64(i) == Finite(Rounded(Abs(i)) as real)
    ensures i < 0 ==> ToF64(i) == Finite(-(Rounded(Abs(i)) as real))
  {
  }

  /** Integers are compared as doubles. Exactly the distinguished ones are equal to no
      other integer: not `2^53` and `2^53 + 1`, but `2^53 + 2` again is one. */
  lemma {:induction false} IntegersCollide(i: int)
    requires IsI64(i)
    ensures (forall j :: IsI64(j) && PyEq(Int(i), Int(j)) ==> j == i) <==> Distinguished(Abs(i))
  {
    if Distinguished(Abs(i)) {
      forall j | PyEq(Int(i), Int(j)) ensures j == i {
        OnlyItself(i, j);
      }
    } else {
      var j := OtherInteger(i);
    }
  }

  /** The first two from `2^53` on are one, the next is alone. */
  lemma {:induction false} AfterTwo53(j: int)
    ensures PyEq(Int(TWO53), Int(TWO53 + 1))
    ensures IsI64(j) && PyEq(Int(TWO53 + 2), Int(j)) ==> j == TWO53 + 2
  {
    assert Distinguished(TWO53 + 2);
    IntegersCollide(TWO53 + 2);
    NextTo53(TWO53);
    NextTo53(TWO53 + 1);
    assert Evened(TWO53) == Evened(TWO53 + 1);
    Equal(TWO53, TWO53 + 1);
  }

  lemma {:induction false} OtherInteger(i: int) returns (j: int)
    requires IsI64(i) && !Distinguished(Abs(i))
    ensures IsI64(j) && j != i && PyEq(Int(i), Int(j))
  {
    var m: int := HasTwin(Abs(i));
    j := if i >= 0 then m else -m;
    Equal(i, j);
  }

  lemma Equal(i: int, j: int)
    requires Rounded(Abs(i)) == Rounded(Abs(j)) && (i >= 0 <==> j >= 0)
    ensures PyEq(Int(i), Int(j))
  {
    DoubleOf(i);
    DoubleOf(j);
  }

  lemma {:induction false} OnlyItself(i: int, j: int)
    requires Distinguished(Abs(i)) && PyEq(Int(i), Int(j))
    ensures j == i
  {
    DoubleOf(i);
    DoubleOf(j);
    Located(Abs(i));
    Located(Abs(j));
    NoTwin(Abs(i), Abs(j));
  }

  /** Small integers compare as such. */
  lemma {:induction false} SmallIntegersAreExact(i: int, j: int)
    requires -TWO53 <= i <= TWO53 && -TWO53 <= j <= TWO53
    ensures PyEq(Int(i), Int(j)) <==> i == j
  {
    DoubleOf(i);
    DoubleOf(j);
    SmallIsItself(Abs(i));
    SmallIsItself(Abs(j));
  }

  // ---- what equals what -------------------------------------------------------------------------

  /** Numbers are equal by value, whatever their types: `true` is one. Null and strings
      equal only themselves, and containers only containers of their kind. */
  lemma {:induction false} EqualsExactly(a: Value, b: Value)
    ensures a.Null? || b.Null? ==> (PyEq(a, b) <==> a == b)
    ensures a.Str? || b.Str? ==> (PyEq(a, b) <==> a == b)
    ensures PyEq(a, b) ==> (a.List? <==> b.List?) && (a.Map? <==> b.Map?)
    ensures a.Bool? && b.Bool? ==> (PyEq(a, b) <==> a == b)
    ensures a.Bool? && b.Int? ==> (PyEq(a, b) <==> b.i == if a.b then 1 else 0)
    ensures a.Bool? && b.Float? ==> (PyEq(a, b) <==> b.f == Finite(if a.b then 1.0 else 0.0))
    ensures a.Int? && b.Float? && Abs(a.i) <= TWO53 ==> (PyEq(a, b) <==> b.f == Finite(a.i as real))
    ensures a.Float? && b.Float? ==> (PyEq(a, b) <==> a.f == b.f && a.f != NaN)
  {
    if b.Int? {
      SmallDouble(b.i);
      if a.Bool? && Abs(b.i) > TWO53 {
        RoundedIsLarge(Abs(b.i));
      }
    }
    if a.Int? {
      SmallDouble(a.i);
    }
  }

  lemma SmallDouble(i: int)
    ensures Abs(i) <= TWO53 ==> ToF64(i) == Finite(i as real)
  {
    if Abs(i) <= TWO53 {
      DoubleOf(i);
      SmallIsItself(Abs(i));
    }
  }

  /** Maps are equal when they have the same keys and equal values under each, in whatever
      order. */
  lemma {:induction false} MapsEqualByKey(xs: seq<Entry>, ys: seq<Entry>)
    requires UniqueKeys(xs) && UniqueKeys(ys)
    ensures PyEq(Map(xs), Map(ys)) <==>
      && KeySet(xs) == KeySet(ys)
      && forall i, j :: 0 <= i < |xs| && 0 <= j < |ys| && xs[i].key == ys[j].key ==>
           PyEq(xs[i].node.value, ys[j].node.value)
  {
    KeysCount(xs);
    KeysCount(ys);
    if PyEq(Map(xs), Map(ys)) {
      KeysAmong(xs, ys);
      SubsetOfSameSize(KeySet(xs), KeySet(ys));
    } else if KeySet(xs) == KeySet(ys) {
      forall i | 0 <= i < |xs| ensures Find(ys, xs[i].key).Some? {
        assert xs[i].key in KeySet(ys);
      }
    }
  }

  lemma KeysAmong(xs: seq<Entry>, ys: seq<Entry>)
    requires forall i :: 0 <= i < |xs| ==> Find(ys, xs[i].key).Some?
    ensures KeySet(xs) <= KeySet(ys)
  {
    forall k | k in KeySet(xs) ensures k in KeySet(ys) {
      var i :| 0 <= i < |xs| && xs[i].key == k;
      assert ys[Find(ys, k).value].key == k;
    }
  }
}

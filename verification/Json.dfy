/**
 `json.dumps` (pyfmt.rs): what is printed, and a reader of the JSON grammar (RFC 8259)
 that gets every float-free value back, so printing loses nothing.
*/
module JsonText {
  import opened Wrappers
  import opened Decimal
  import opened Strings
  import opened Values

  // ---- printing -----------------------------------------------------------------------------

  function HexChar(d: nat): (c: char)
    requires d < 16
  {
    if d < 10 then '0' + d as char else 'a' + (d - 10) as char
  }

  /** `{:04x}` */
  function Hex4(u: nat): string
    requires u < 0x1_0000
  {
    [HexChar(u / 16 / 16 / 16), HexChar(u / 16 / 16 % 16), HexChar(u / 16 % 16), HexChar(u % 16)]
  }

  const SHORT := map['"' := '"', '\\' := '\\', '\n' := 'n', '\r' := 'r', '\t' := 't', '\U{8}' := 'b', '\U{c}' := 'f']

  /** UTF-16 code units above U+FFFF: a high and a low surrogate. */
  function Units(code: nat): (r: seq<nat>)
    requires code < 0x11_0000
    ensures forall u :: u in r ==> u < 0x1_0000
  {
    if code < 0x1_0000 then [code]
    else [0xd800 + (code - 0x1_0000) / 0x400, 0xdc00 + (code - 0x1_0000) % 0x400]
  }

  function EscapeUnits(units: seq<nat>): string
    requires forall u :: u in units ==> u < 0x1_0000
  {
    if units == [] then ""
    else
      assert units[0] in units && forall u :: u in units[1..] ==> u in units;
      "\\u" + Hex4(units[0]) + EscapeUnits(units[1..])
  }

  function EscapeChar(c: char): string {
    if c in SHORT then ['\\', SHORT[c]]
    else if c < ' ' || c > '~' then EscapeUnits(Units(c as nat))
    else [c]
  }

  function Escaped(s: string): string {
    if s == [] then "" else EscapeChar(s[0]) + Escaped(s[1..])
  }

  function StringText(s: string): string { "\"" + Escaped(s) + "\"" }

  function IntText(i: int): string { if i < 0 then "-" + Digits(-i) else Digits(i) }

  /** `float_text` is how floats print, which is not modelled. */
  function Dumps(floatText: F64 -> string, v: Value): string
    decreases v
  {
    match v
    case Null => "null"
    case Bool(b) => if b then "true" else "false"
    case Int(i) => IntText(i)
    case Float(f) => floatText(f)
    case Str(s) => StringText(s)
    case List(items) => "[" + DumpItems(floatText, items) + "]"
    case Map(entries) => "{" + DumpEntries(floatText, entries) + "}"
  }

  function DumpItems(floatText: F64 -> string, items: seq<Node>): string
    decreases items
  {
    if items == [] then ""
    else
      var n := items[0];
      assert n.value < n;
      Dumps(floatText, n.value) + (if |items| == 1 then "" else ", ") + DumpItems(floatText, items[1..])
  }

  function DumpEntries(floatText: F64 -> string, entries: seq<Entry>): string
    decreases entries
  {
    if entries == [] then ""
    else
      var e := entries[0];
      assert e.node < e;
      StringText(e.key) + ": " + Dumps(floatText, e.node.value) + (if |entries| == 1 then "" else ", ") +
      DumpEntries(floatText, entries[1..])
  }

  // ---- the reader -------------------------------------------------------------------------------

  /** What the grammar reads: members in the order written, repeated names included. */
  datatype Parsed =
    | JNull
    | JBool(b: bool)
    | JInt(i: int)
    | JNumber(text: string)   // with a fraction or an exponent
    | JString(s: string)
    | JArray(items: seq<Parsed>)
    | JObject(members: seq<Member>)

  datatype Member = Member(key: string, value: Parsed)

  type Read<T> = Option<(T, string)>

  predicate IsSpace(c: char) { c == ' ' || c == '\t' || c == '\n' || c == '\r' }

  function SkipSpace(s: string): (r: string)
    ensures |r| <= |s|
  {
    if s != "" && IsSpace(s[0]) then SkipSpace(s[1..]) else s
  }

  function HexValue(c: char): Option<nat> {
    if IsDigit(c) then Some((c - '0') as nat)
    else if 'a' <= c <= 'f' then Some((c - 'a') as nat + 10)
    else if 'A' <= c <= 'F' then Some((c - 'A') as nat + 10)
    else None
  }

  function ReadHex4(s: string): (r: Read<nat>)
    ensures r.Some? ==> r.value.0 < 0x1_0000 && |r.value.1| == |s| - 4
  {
    if |s| < 4 then None
    else match (HexValue(s[0]), HexValue(s[1]), HexValue(s[2]), HexValue(s[3]))
      case (Some(a), Some(b), Some(c), Some(d)) =>
        assert a < 16 && b < 16 && c < 16 && d < 16;
        Some((((a * 16 + b) * 16 + c) * 16 + d, s[4..]))
      case _ => None
  }

  const LONG := map['"' := '"', '\\' := '\\', '/' := '/', 'b' := '\U{8}', 'f' := '\U{c}', 'n' := '\n', 'r' := '\r',
    't' := '\t']

  /** A character written as one or two code units, after `\u`; a lone surrogate is no character. */
  function ReadUnits(s: string): (r: Read<char>)
    ensures r.Some? ==> |r.value.1| < |s|
  {
    match ReadHex4(s)
    case None => None
    case Some((u, rest)) =>
      if 0xd800 <= u < 0xdc00 then
        if |rest| < 2 || rest[0] != '\\' || rest[1] != 'u' then None
        else match ReadHex4(rest[2..])
          case Some((l, after)) =>
            if 0xdc00 <= l < 0xe000 then Some(((0x1_0000 + (u - 0xd800) * 0x400 + (l - 0xdc00)) as char, after))
            else None
          case None => None
      else if 0xdc00 <= u < 0xe000 then None
      else Some((u as char, rest))
  }

  /** The character after a backslash. */
  function ReadEscape(s: string): (r: Read<char>)
    ensures r.Some? ==> |r.value.1| < |s|
  {
    if s == "" then None
    else if s[0] == 'u' then ReadUnits(s[1..])
    else if s[0] in LONG then Some((LONG[s[0]], s[1..]))
    else None
  }

  function Before(c: char, r: Read<string>): Read<string> {
    match r
    case None => None
    case Some((s, rest)) => Some(([c] + s, rest))
  }

  /** A string, after its opening quote. */
  function ReadString(s: string): (r: Read<string>)
    ensures r.Some? ==> |r.value.1| < |s|
    decreases |s|
  {
    if s == "" then None
    else if s[0] == '"' then Some(("", s[1..]))
    else if s[0] == '\\' then
      match ReadEscape(s[1..])
      case None => None
      case Some((c, rest)) => Before(c, ReadString(rest))
    else if s[0] < ' ' then None
    else Before(s[0], ReadString(s[1..]))
  }

  function LeadingDigits(s: string): (r: string)
    ensures r <= s && AllDigits(r) && (|r| < |s| ==> !IsDigit(s[|r|]))
  {
    if s != "" && IsDigit(s[0]) then [s[0]] + LeadingDigits(s[1..]) else ""
  }

  /** `int [ frac ] [ exp ]`, after the sign. */
  function ReadNumber(negative: bool, s: string): (r: Read<Parsed>)
    ensures r.Some? ==> |r.value.1| < |s|
  {
    var whole := LeadingDigits(s);
    if whole == "" || (whole[0] == '0' && |whole| > 1) then None
    else
      var tail := s[|whole|..];
      match ReadFraction(tail)
      case None => None
      case Some(t) =>
        match ReadExponent(t)
        case None => None
        case Some(rest) =>
          var n: int := ValueOf(whole);
          if rest == tail then Some((JInt(if negative then -n else n), rest))
          else Some((JNumber((if negative then "-" else "") + s[..|s| - |rest|]), rest))
  }

  function ReadFraction(s: string): (r: Option<string>)
    ensures r.Some? ==> |r.value| <= |s|
  {
    if s == "" || s[0] != '.' then Some(s)
    else
      var ds := LeadingDigits(s[1..]);
      if ds == "" then None else Some(s[1 + |ds|..])
  }

  function ReadExponent(s: string): (r: Option<string>)
    ensures r.Some? ==> |r.value| <= |s|
  {
    if s == "" || (s[0] != 'e' && s[0] != 'E') then Some(s)
    else
      var t := if |s| > 1 && (s[1] == '+' || s[1] == '-') then s[2..] else s[1..];
      var ds := LeadingDigits(t);
      if ds == "" then None else Some(t[|ds|..])
  }

  function ReadWord(s: string, word: string, v: Parsed): (r: Read<Parsed>)
    ensures r.Some? ==> |r.value.1| == |s| - |word|
  {
    if word <= s then Some((v, s[|word|..])) else None
  }

  function ReadValue(s: string): (r: Read<Parsed>)
    ensures r.Some? ==> |r.value.1| < |s|
    decreases |s|, 0
  {
    if s == "" then None
    else if s[0] == '-' then ReadNumber(true, s[1..])
    else if IsDigit(s[0]) then ReadNumber(false, s)
    else if s[0] == 'n' then ReadWord(s, "null", JNull)
    else if s[0] == 't' then ReadWord(s, "true", JBool(true))
    else if s[0] == 'f' then ReadWord(s, "false", JBool(false))
    else if s[0] == '"' then
      (match ReadString(s[1..])
       case None => None
       case Some((t, rest)) => Some((JString(t), rest)))
    else if s[0] == '[' then ReadArray(SkipSpace(s[1..]))
    else if s[0] == '{' then ReadObject(SkipSpace(s[1..]))
    else None
  }

  function ReadArray(s: string): (r: Read<Parsed>)
    ensures r.Some? ==> |r.value.1| <= |s|
    decreases |s|, 2
  {
    if s != "" && s[0] == ']' then Some((JArray([]), s[1..]))
    else match ReadItems(s)
      case None => None
      case Some((items, rest)) => Some((JArray(items), rest))
  }

  function ReadObject(s: string): (r: Read<Parsed>)
    ensures r.Some? ==> |r.value.1| <= |s|
    decreases |s|, 2
  {
    if s != "" && s[0] == '}' then Some((JObject([]), s[1..]))
    else match ReadMembers(s)
      case None => None
      case Some((members, rest)) => Some((JObject(members), rest))
  }

  function ReadItems(s: string): (r: Read<seq<Parsed>>)
    ensures r.Some? ==> |r.value.1| < |s|
    decreases |s|, 1
  {
    match ReadValue(s)
    case None => None
    case Some((v, rest)) =>
      var t := SkipSpace(rest);
      if t == "" then None
      else if t[0] == ']' then Some(([v], t[1..]))
      else if t[0] != ',' then None
      else match ReadItems(SkipSpace(t[1..]))
        case None => None
        case Some((more, after)) => Some(([v] + more, after))
  }

  function ReadMembers(s: string): (r: Read<seq<Member>>)
    ensures r.Some? ==> |r.value.1| < |s|
    decreases |s|, 1
  {
    if s == "" || s[0] != '"' then None
    else match ReadString(s[1..])
      case None => None
      case Some((key, rest)) =>
        var colon := SkipSpace(rest);
        if colon == "" || colon[0] != ':' then None
        else match ReadValue(SkipSpace(colon[1..]))
          case None => None
          case Some((v, tail)) =>
            var t := SkipSpace(tail);
            if t == "" then None
            else if t[0] == '}' then Some(([Member(key, v)], t[1..]))
            else if t[0] != ',' then None
            else match ReadMembers(SkipSpace(t[1..]))
              case None => None
              case Some((more, after)) => Some(([Member(key, v)] + more, after))
  }

  /** A JSON text: one value, with nothing but space around it. */
  function Decode(s: string): Option<Parsed> {
    match ReadValue(SkipSpace(s))
    case None => None
    case Some((v, rest)) => if SkipSpace(rest) == "" then Some(v) else None
  }

  // ---- strings come back --------------------------------------------------------------------------

  lemma HexComesBack(d: nat)
    requires d < 16
    ensures HexValue(HexChar(d)) == Some(d)
  {
  }

  lemma Hex4ComesBack(u: nat, rest: string)
    requires u < 0x1_0000
    ensures ReadHex4(Hex4(u) + rest) == Some((u, rest))
  {
    var a, b, c, d := u / 16 / 16 / 16, u / 16 / 16 % 16, u / 16 % 16, u % 16;
    HexComesBack(a);
    HexComesBack(b);
    HexComesBack(c);
    HexComesBack(d);
    assert ((a * 16 + b) * 16 + c) * 16 + d == u;
    assert (Hex4(u) + rest)[4..] == rest;
  }

  lemma UnitsComeBack(c: char, rest: string)
    ensures ReadUnits((EscapeUnits(Units(c as nat)) + rest)[2..]) == Some((c, rest))
  {
    var code := c as nat;
    if code < 0x1_0000 {
      assert Units(code)[1..] == [];
      assert (EscapeUnits(Units(code)) + rest)[2..] == Hex4(code) + rest;
      Hex4ComesBack(code, rest);
    } else {
      PairComesBack(code, rest);
      PairText(Units(code)[0], Units(code)[1], rest);
    }
  }

  lemma {:induction false} PairText(hi: nat, lo: nat, rest: string)
    requires hi < 0x1_0000 && lo < 0x1_0000
    ensures (EscapeUnits([hi, lo]) + rest)[2..] == Hex4(hi) + ("\\u" + Hex4(lo) + rest)
  {
    assert [hi, lo][1..] == [lo] && [lo][1..] == [];
    assert EscapeUnits([lo]) == "\\u" + Hex4(lo) + EscapeUnits([]);
    assert EscapeUnits([hi, lo]) == "\\u" + Hex4(hi) + EscapeUnits([lo]);
  }

  /** A surrogate pair stands for its character. */
  lemma {:induction false} PairComesBack(code: nat, rest: string)
    requires 0x1_0000 <= code < 0x11_0000
    ensures var hi, lo := Units(code)[0], Units(code)[1];
      ReadUnits(Hex4(hi) + ("\\u" + Hex4(lo) + rest)) == Some((code as char, rest))
  {
    var hi, lo := Units(code)[0], Units(code)[1];
    var second := "\\u" + Hex4(lo) + rest;
    Hex4ComesBack(hi, second);
    assert second[2..] == Hex4(lo) + rest;
    Hex4ComesBack(lo, rest);
    assert 0x1_0000 + (hi - 0xd800) * 0x400 + (lo - 0xdc00) == code;
  }

  lemma CharComesBack(c: char, rest: string)
    ensures ReadString(EscapeChar(c) + rest) == Before(c, ReadString(rest))
  {
    var s := EscapeChar(c) + rest;
    if c in SHORT {
      assert s[1..] == [SHORT[c]] + rest && s[1..][1..] == rest;
      assert SHORT[c] in LONG && LONG[SHORT[c]] == c;
    } else if c < ' ' || c > '~' {
      UnitsComeBack(c, rest);
      assert s[0] == '\\' && s[1] == 'u' && s[1..][1..] == s[2..];
    } else {
      assert s[1..] == rest;
    }
  }

  lemma {:induction false} StringComesBack(t: string, rest: string)
    ensures ReadString(Escaped(t) + "\"" + rest) == Some((t, rest))
    decreases |t|
  {
    if t == [] {
      assert ("\"" + rest)[1..] == rest && Escaped(t) + "\"" + rest == "\"" + rest;
    } else {
      StringComesBack(t[1..], rest);
      assert Escaped(t) + "\"" + rest == EscapeChar(t[0]) + (Escaped(t[1..]) + "\"" + rest);
      CharComesBack(t[0], Escaped(t[1..]) + "\"" + rest);
      assert [t[0]] + t[1..] == t;
    }
  }

  /** Section 7 of RFC 8259: printed strings are printable ASCII. */
  predicate IsAscii(s: string) { forall i :: 0 <= i < |s| ==> ' ' <= s[i] <= '~' }

  lemma {:induction false} EscapedIsAscii(t: string)
    ensures IsAscii(Escaped(t))
    decreases |t|
  {
    if t != [] {
      EscapedIsAscii(t[1..]);
      CharIsAscii(t[0]);
    }
  }

  lemma CharIsAscii(c: char)
    ensures IsAscii(EscapeChar(c))
  {
    if c in SHORT {
      assert ' ' <= SHORT[c] <= '~';
    } else if c < ' ' || c > '~' {
      UnitsAreAscii(Units(c as nat));
    }
  }

  lemma {:induction false} UnitsAreAscii(units: seq<nat>)
    requires forall u :: u in units ==> u < 0x1_0000
    ensures IsAscii(EscapeUnits(units))
    decreases |units|
  {
    if units != [] {
      assert units[0] in units && forall u :: u in units[1..] ==> u in units;
      UnitsAreAscii(units[1..]);
      var u := units[0];
      forall d: nat | d < 16 ensures ' ' <= HexChar(d) <= '~' {
      }
      assert IsAscii(Hex4(u)) && IsAscii("\\u");
    }
  }

  // ---- numbers come back ------------------------------------------------------------------------------

  /** What may follow a number so that it ends there. */
  predicate EndsNumber(rest: string) {
    rest == "" || !(IsDigit(rest[0]) || rest[0] == '.' || rest[0] == 'e' || rest[0] == 'E')
  }

  lemma {:induction false} LeadingDigitsOf(ds: string, rest: string)
    requires AllDigits(ds) && (rest == "" || !IsDigit(rest[0]))
    ensures LeadingDigits(ds + rest) == ds
    decreases |ds|
  {
    if ds == "" {
      assert ds + rest == rest;
    } else {
      assert (ds + rest)[1..] == ds[1..] + rest;
      LeadingDigitsOf(ds[1..], rest);
      assert [ds[0]] + ds[1..] == ds;
    }
  }

  lemma NumberComesBack(negative: bool, n: nat, rest: string)
    requires EndsNumber(rest)
    ensures ReadNumber(negative, Digits(n) + rest) == Some((JInt(if negative then -(n as int) else n), rest))
  {
    LeadingDigitsOf(Digits(n), rest);
    ValueOfDigits(n);
    assert (Digits(n) + rest)[|Digits(n)|..] == rest;
  }

  lemma {:induction false} ReadsNegative(t: string)
    ensures ReadValue("-" + t) == ReadNumber(true, t)
  {
    assert ("-" + t)[1..] == t;
  }

  lemma {:induction false} ReadsPositive(s: string)
    requires s != "" && IsDigit(s[0])
    ensures ReadValue(s) == ReadNumber(false, s)
  {
  }

  lemma {:induction false} IntComesBack(i: int, rest: string)
    requires EndsNumber(rest)
    ensures ReadValue(IntText(i) + rest) == Some((JInt(i), rest))
  {
    if i < 0 {
      NegativeComesBack(-i, rest);
    } else {
      NumberComesBack(false, i, rest);
      FirstDigit(i, rest);
      ReadsPositive(Digits(i) + rest);
    }
  }

  lemma {:induction false} NegativeComesBack(n: nat, rest: string)
    requires EndsNumber(rest) && n > 0
    ensures ReadValue("-" + Digits(n) + rest) == Some((JInt(-(n as int)), rest))
  {
    NumberComesBack(true, n, rest);
    ReadsNegative(Digits(n) + rest);
    assert "-" + Digits(n) + rest == "-" + (Digits(n) + rest);
  }

  lemma {:induction false} FirstDigit(n: nat, rest: string)
    ensures Digits(n) + rest != "" && IsDigit((Digits(n) + rest)[0])
  {
    assert (Digits(n) + rest)[0] == Digits(n)[0];
  }

  // ---- values come back -------------------------------------------------------------------------------------

  predicate FloatFree(v: Value)
    decreases v
  {
    match v
    case Float(_) => false
    case List(items) => forall i :: 0 <= i < |items| ==> FloatFree(items[i].value)
    case Map(entries) => forall i :: 0 <= i < |entries| ==> FloatFree(entries[i].node.value)
    case _ => true
  }

  /** A float-free value without its origins. */
  function Bare(v: Value): Parsed
    requires FloatFree(v)
    decreases v
  {
    match v
    case Null => JNull
    case Bool(b) => JBool(b)
    case Int(i) => JInt(i)
    case Str(s) => JString(s)
    case List(items) => JArray(BareItems(items))
    case Map(entries) => JObject(BareEntries(entries))
  }

  function BareItems(items: seq<Node>): seq<Parsed>
    requires forall i :: 0 <= i < |items| ==> FloatFree(items[i].value)
    decreases items
  {
    if items == [] then []
    else
      var n := items[0];
      assert n.value < n;
      [Bare(n.value)] + BareItems(items[1..])
  }

  function BareEntries(entries: seq<Entry>): seq<Member>
    requires forall i :: 0 <= i < |entries| ==> FloatFree(entries[i].node.value)
    decreases entries
  {
    if entries == [] then []
    else
      var e := entries[0];
      assert e.node < e;
      [Member(e.key, Bare(e.node.value))] + BareEntries(entries[1..])
  }

  /** How a printed value starts. */
  lemma {:induction false} FirstChar(floatText: F64 -> string, v: Value)
    requires FloatFree(v)
    ensures var s := Dumps(floatText, v); s != "" && !IsSpace(s[0]) && s[0] != ']' && s[0] != '}'
  {
    if v.Int? && v.i < 0 {
      assert IntText(v.i)[0] == '-';
    }
  }

  /** The text starts with something that is neither space nor the end of a collection. */
  predicate StartsValue(s: string) { s != "" && !IsSpace(s[0]) && s[0] != ']' && s[0] != '}' }

  lemma ReadsList(t: string, items: seq<Parsed>, rest: string)
    requires StartsValue(t) && ReadItems(t) == Some((items, rest))
    ensures ReadValue("[" + t) == Some((JArray(items), rest))
  {
    assert ("[" + t)[1..] == t && SkipSpace(t) == t;
  }

  lemma ReadsObject(t: string, members: seq<Member>, rest: string)
    requires StartsValue(t) && ReadMembers(t) == Some((members, rest))
    ensures ReadValue("{" + t) == Some((JObject(members), rest))
  {
    assert ("{" + t)[1..] == t && SkipSpace(t) == t;
  }

  lemma ReadsEmpty(rest: string)
    ensures ReadValue("[]" + rest) == Some((JArray([]), rest)) && ReadValue("{}" + rest) == Some((JObject([]), rest))
  {
    var a, b := "[]" + rest, "{}" + rest;
    assert a[1..] == "]" + rest && ("]" + rest)[1..] == rest && SkipSpace("]" + rest) == "]" + rest;
    assert b[1..] == "}" + rest && ("}" + rest)[1..] == rest && SkipSpace("}" + rest) == "}" + rest;
  }

  lemma {:induction false} ReadsQuoted(t: string, u: string, rest: string)
    requires ReadString(t) == Some((u, rest))
    ensures ReadValue("\"" + t) == Some((JString(u), rest))
  {
    assert ("\"" + t)[0] == '"' && ("\"" + t)[1..] == t;
  }

  lemma {:induction false} ReadsString(t: string, rest: string)
    ensures ReadValue(StringText(t) + rest) == Some((JString(t), rest))
  {
    StringComesBack(t, rest);
    ReadsQuoted(Escaped(t) + "\"" + rest, t, rest);
    assert StringText(t) + rest == "\"" + (Escaped(t) + "\"" + rest);
  }

  lemma ReadsWord(word: string, v: Parsed, rest: string)
    ensures ReadWord(word + rest, word, v) == Some((v, rest))
  {
    assert word <= word + rest && (word + rest)[|word|..] == rest;
  }

  lemma LastItem(s: string, v: Parsed, rest: string)
    requires ReadValue(s) == Some((v, "]" + rest))
    ensures ReadItems(s) == Some(([v], rest))
  {
    assert SkipSpace("]" + rest) == "]" + rest && ("]" + rest)[1..] == rest;
  }

  lemma NextItem(s: string, v: Parsed, more: string, items: seq<Parsed>, rest: string)
    requires ReadValue(s) == Some((v, ", " + more)) && StartsValue(more) && ReadItems(more) == Some((items, rest))
    ensures ReadItems(s) == Some(([v] + items, rest))
  {
    CommaSpace(more);
  }

  lemma CommaSpace(more: string)
    requires StartsValue(more)
    ensures var t := ", " + more; SkipSpace(t) == t && t[0] == ',' && SkipSpace(t[1..]) == more
  {
    var t := ", " + more;
    assert t[1..] == " " + more && t[1..][1..] == more;
  }

  /** A member's key and colon are read; its value follows. */
  lemma ReadsKey(key: string, value: string, v: Parsed, tail: string)
    requires StartsValue(value) && ReadValue(value) == Some((v, tail))
    ensures var s := StringText(key) + ": " + value;
      && s[0] == '"' && ReadString(s[1..]) == Some((key, ": " + value))
      && SkipSpace(": " + value) == ": " + value && ReadValue(SkipSpace((": " + value)[1..])) == Some((v, tail))
  {
    QuotedText(key, ": " + value);
    assert StringText(key) + ": " + value == StringText(key) + (": " + value);
    StringComesBack(key, ": " + value);
    AfterColon(value);
  }

  lemma {:induction false} QuotedText(t: string, rest: string)
    ensures var s := StringText(t) + rest; s[0] == '"' && s[1..] == Escaped(t) + "\"" + rest
  {
  }

  lemma {:induction false} AfterColon(value: string)
    requires StartsValue(value)
    ensures SkipSpace(": " + value) == ": " + value && SkipSpace((": " + value)[1..]) == value
  {
    assert (": " + value)[1..] == " " + value && (" " + value)[1..] == value;
  }

  lemma LastMember(key: string, value: string, v: Parsed, rest: string)
    requires StartsValue(value) && ReadValue(value) == Some((v, "}" + rest))
    ensures ReadMembers(StringText(key) + ": " + value) == Some(([Member(key, v)], rest))
  {
    ReadsKey(key, value, v, "}" + rest);
    assert SkipSpace("}" + rest) == "}" + rest && ("}" + rest)[1..] == rest;
  }

  lemma NextMember(key: string, value: string, v: Parsed, more: string, members: seq<Member>, rest: string)
    requires StartsValue(value) && ReadValue(value) == Some((v, ", " + more))
    requires StartsValue(more) && ReadMembers(more) == Some((members, rest))
    ensures ReadMembers(StringText(key) + ": " + value) == Some(([Member(key, v)] + members, rest))
  {
    ReadsKey(key, value, v, ", " + more);
    CommaSpace(more);
  }

  /** Reading a printed value gives it back, and stops right after it. */
  lemma {:induction false} ValueComesBack(floatText: F64 -> string, v: Value, rest: string)
    requires FloatFree(v) && EndsNumber(rest)
    ensures ReadValue(Dumps(floatText, v) + rest) == Some((Bare(v), rest))
    decreases v
  {
    match v {
      case Null => ReadsWord("null", JNull, rest);
      case Bool(b) => ReadsWord(if b then "true" else "false", JBool(b), rest);
      case Int(i) => IntComesBack(i, rest);
      case Str(t) => ReadsString(t, rest);
      case List(items) => ListComesBack(floatText, items, rest);
      case Map(entries) => MapComesBack(floatText, entries, rest);
    }
  }

  lemma {:induction false} ListComesBack(floatText: F64 -> string, items: seq<Node>, rest: string)
    requires forall i :: 0 <= i < |items| ==> FloatFree(items[i].value)
    ensures ReadValue("[" + DumpItems(floatText, items) + "]" + rest) == Some((JArray(BareItems(items)), rest))
    decreases items, 1
  {
    if items == [] {
      ReadsEmpty(rest);
      assert "[" + "" + "]" + rest == "[]" + rest;
    } else {
      var body := DumpItems(floatText, items) + "]" + rest;
      assert "[" + DumpItems(floatText, items) + "]" + rest == "[" + body;
      assert DumpItems(floatText, items) + ("]" + rest) == body;
      ItemsStart(floatText, items, "]" + rest);
      ItemsComeBack(floatText, items, rest);
      ReadsList(body, BareItems(items), rest);
    }
  }

  lemma {:induction false} MapComesBack(floatText: F64 -> string, entries: seq<Entry>, rest: string)
    requires forall i :: 0 <= i < |entries| ==> FloatFree(entries[i].node.value)
    ensures ReadValue("{" + DumpEntries(floatText, entries) + "}" + rest) == Some((JObject(BareEntries(entries)), rest))
    decreases entries, 1
  {
    if entries == [] {
      ReadsEmpty(rest);
      assert "{" + "" + "}" + rest == "{}" + rest;
    } else {
      var body := DumpEntries(floatText, entries) + "}" + rest;
      assert "{" + DumpEntries(floatText, entries) + "}" + rest == "{" + body;
      EntriesComeBack(floatText, entries, rest);
      ReadsObject(body, BareEntries(entries), rest);
    }
  }

  lemma {:induction false} ItemsStart(floatText: F64 -> string, items: seq<Node>, rest: string)
    requires items != [] && FloatFree(items[0].value)
    ensures StartsValue(DumpItems(floatText, items) + rest)
  {
    FirstChar(floatText, items[0].value);
  }

  /** A list's text: the first item, and what comes after it. */
  lemma {:induction false} ItemsText(floatText: F64 -> string, items: seq<Node>, rest: string)
    requires items != []
    ensures DumpItems(floatText, items) + rest == Dumps(floatText, items[0].value) +
      if |items| == 1 then rest else ", " + (DumpItems(floatText, items[1..]) + rest)
  {
  }

  lemma {:induction false} EntriesText(floatText: F64 -> string, entries: seq<Entry>, rest: string)
    requires entries != []
    ensures DumpEntries(floatText, entries) + rest ==
      StringText(entries[0].key) + ": " + (Dumps(floatText, entries[0].node.value) +
      if |entries| == 1 then rest else ", " + (DumpEntries(floatText, entries[1..]) + rest))
  {
  }

  lemma {:induction false} ItemsComeBack(floatText: F64 -> string, items: seq<Node>, rest: string)
    requires items != [] && forall i :: 0 <= i < |items| ==> FloatFree(items[i].value)
    ensures ReadItems(DumpItems(floatText, items) + "]" + rest) == Some((BareItems(items), rest))
    decreases items, 0
  {
    var n := items[0];
    assert n.value < n;
    var own, text := Dumps(floatText, n.value), DumpItems(floatText, items) + "]" + rest;
    ItemsText(floatText, items, "]" + rest);
    assert DumpItems(floatText, items) + ("]" + rest) == text;
    if |items| == 1 {
      assert items[1..] == [] && BareItems(items) == [Bare(n.value)];
      ValueComesBack(floatText, n.value, "]" + rest);
      LastItem(text, Bare(n.value), rest);
    } else {
      var more := DumpItems(floatText, items[1..]) + "]" + rest;
      assert DumpItems(floatText, items[1..]) + ("]" + rest) == more;
      ValueComesBack(floatText, n.value, ", " + more);
      ItemsStart(floatText, items[1..], "]" + rest);
      ItemsComeBack(floatText, items[1..], rest);
      NextItem(text, Bare(n.value), more, BareItems(items[1..]), rest);
    }
  }

  lemma {:induction false} EntriesComeBack(floatText: F64 -> string, entries: seq<Entry>, rest: string)
    requires entries != [] && forall i :: 0 <= i < |entries| ==> FloatFree(entries[i].node.value)
    ensures ReadMembers(DumpEntries(floatText, entries) + "}" + rest) == Some((BareEntries(entries), rest))
    ensures StartsValue(DumpEntries(floatText, entries) + "}" + rest)
    decreases entries, 0
  {
    var e := entries[0];
    assert e.node < e;
    var own, text := Dumps(floatText, e.node.value), DumpEntries(floatText, entries) + "}" + rest;
    EntriesText(floatText, entries, "}" + rest);
    assert DumpEntries(floatText, entries) + ("}" + rest) == text;
    FirstChar(floatText, e.node.value);
    if |entries| == 1 {
      assert entries[1..] == [] && BareEntries(entries) == [Member(e.key, Bare(e.node.value))];
      ValueComesBack(floatText, e.node.value, "}" + rest);
      LastMember(e.key, own + ("}" + rest), Bare(e.node.value), rest);
    } else {
      var more := DumpEntries(floatText, entries[1..]) + "}" + rest;
      assert DumpEntries(floatText, entries[1..]) + ("}" + rest) == more;
      ValueComesBack(floatText, e.node.value, ", " + more);
      EntriesComeBack(floatText, entries[1..], rest);
      NextMember(e.key, own + (", " + more), Bare(e.node.value), more, BareEntries(entries[1..]), rest);
    }
  }

  /** Printing and reading back gives the value. */
  lemma RoundTrip(floatText: F64 -> string, v: Value)
    requires FloatFree(v)
    ensures Decode(Dumps(floatText, v)) == Some(Bare(v))
  {
    FirstChar(floatText, v);
    assert Dumps(floatText, v) + "" == Dumps(floatText, v);
    ValueComesBack(floatText, v, "");
  }

  /** So different values print differently. */
  lemma PrintingIsInjective(floatText: F64 -> string, v: Value, w: Value)
    requires FloatFree(v) && FloatFree(w) && Dumps(floatText, v) == Dumps(floatText, w)
    ensures Bare(v) == Bare(w)
  {
    RoundTrip(floatText, v);
    RoundTrip(floatText, w);
  }

  lemma {:induction false} AsciiBetween(a: string, b: string, c: string)
    requires IsAscii(a) && IsAscii(b) && IsAscii(c)
    ensures IsAscii(a + b + c)
  {
  }

  /** Everything printed is printable ASCII. */
  lemma {:induction false} DumpIsAscii(floatText: F64 -> string, v: Value)
    requires FloatFree(v)
    ensures IsAscii(Dumps(floatText, v))
    decreases v
  {
    match v {
      case Str(s) =>
        EscapedIsAscii(s);
        AsciiBetween("\"", Escaped(s), "\"");
      case List(items) =>
        ItemsAreAscii(floatText, items);
        AsciiBetween("[", DumpItems(floatText, items), "]");
      case Map(entries) =>
        EntriesAreAscii(floatText, entries);
        AsciiBetween("{", DumpEntries(floatText, entries), "}");
      case Int(i) =>
        assert IsAscii(Digits(if i < 0 then -i else i));
        AsciiBetween("-", Digits(if i < 0 then -i else i), "");
        assert "-" + Digits(if i < 0 then -i else i) + "" == "-" + Digits(if i < 0 then -i else i);
      case _ =>
    }
  }

  lemma {:induction false} ItemsAreAscii(floatText: F64 -> string, items: seq<Node>)
    requires forall i :: 0 <= i < |items| ==> FloatFree(items[i].value)
    ensures IsAscii(DumpItems(floatText, items))
    decreases items
  {
    if items != [] {
      var n := items[0];
      assert n.value < n;
      DumpIsAscii(floatText, n.value);
      ItemsAreAscii(floatText, items[1..]);
      AsciiBetween(Dumps(floatText, n.value), if |items| == 1 then "" else ", ", DumpItems(floatText, items[1..]));
    }
  }

  lemma {:induction false} EntriesAreAscii(floatText: F64 -> string, entries: seq<Entry>)
    requires forall i :: 0 <= i < |entries| ==> FloatFree(entries[i].node.value)
    ensures IsAscii(DumpEntries(floatText, entries))
    decreases entries
  {
    if entries != [] {
      var e := entries[0];
      assert e.node < e;
      EscapedIsAscii(e.key);
      DumpIsAscii(floatText, e.node.value);
      EntriesAreAscii(floatText, entries[1..]);
      AsciiBetween("\"", Escaped(e.key), "\"");
      AsciiBetween(StringText(e.key), ": ", Dumps(floatText, e.node.value));
      AsciiBetween(StringText(e.key) + ": " + Dumps(floatText, e.node.value), if |entries| == 1 then "" else ", ",
                   DumpEntries(floatText, entries[1..]));
    }
  }

  // ---- printing as it runs ---------------------------------------------------------------------------------

  class JsonWriter {
    var out: string
    const floatText: F64 -> string

    constructor (floatText: F64 -> string)
      ensures out == "" && this.floatText == floatText
    {
      out := "";
      this.floatText := floatText;
    }

    method Push(s: string)
      modifies this
      ensures out == old(out) + s
    {
      out := out + s;
    }

    /** `write_json_str` */
    method WriteString(s: string)
      modifies this
      ensures out == old(out) + StringText(s)
    {
      Around(out, "\"", Escaped(s), "\"");
      Push("\"");
      WriteEscaped(s);
      Push("\"");
    }

    method WriteEscaped(s: string)
      modifies this
      ensures out == old(out) + Escaped(s)
    {
      ghost var goal := out + Escaped(s);
      assert s[0..] == s;
      for i := 0 to |s|
        invariant out + Escaped(s[i..]) == goal
      {
        assert s[i..][0] == s[i] && s[i..][1..] == s[i + 1..];
        Regroup(out, EscapeChar(s[i]), Escaped(s[i + 1..]));
        WriteChar(s[i]);
      }
      assert s[|s|..] == [] && out + "" == out;
    }

    method WriteChar(c: char)
      modifies this
      ensures out == old(out) + EscapeChar(c)
    {
      if c in SHORT {
        Push(['\\', SHORT[c]]);
      } else if c < ' ' || c > '~' {
        WriteUnits(Units(c as nat));
      } else {
        Push([c]);
      }
    }

    method WriteUnits(units: seq<nat>)
      requires forall u :: u in units ==> u < 0x1_0000
      modifies this
      ensures out == old(out) + EscapeUnits(units)
      decreases |units|
    {
      if units == [] {
        assert out + "" == out;
        return;
      }
      assert units[0] in units && forall u :: u in units[1..] ==> u in units;
      Regroup(out, "\\u" + Hex4(units[0]), EscapeUnits(units[1..]));
      Push("\\u" + Hex4(units[0]));
      WriteUnits(units[1..]);
    }

    /** `write_json` */
    method Write(v: Value)
      modifies this
      ensures out == old(out) + Dumps(floatText, v)
      decreases v
    {
      match v {
        case Null => Push("null");
        case Bool(b) => Push(if b then "true" else "false");
        case Int(i) => Push(IntText(i));
        case Float(f) => Push(floatText(f));
        case Str(s) => WriteString(s);
        case List(items) =>
          Around(out, "[", DumpItems(floatText, items), "]");
          Push("[");
          WriteItems(items);
          Push("]");
        case Map(entries) =>
          Around(out, "{", DumpEntries(floatText, entries), "}");
          Push("{");
          WriteEntries(entries);
          Push("}");
      }
    }

    method WriteItems(items: seq<Node>)
      modifies this
      ensures out == old(out) + DumpItems(floatText, items)
      decreases items
    {
      ghost var goal := out + DumpItems(floatText, items);
      assert items[0..] == items;
      for i := 0 to |items|
        invariant out + ItemsFrom(floatText, items, i) == goal
      {
        OneItem(floatText, items, i, out);
        if i > 0 {
          Push(", ");
        }
        var n := items[i];
        assert n in items && n.value < n;
        Write(n.value);
      }
      assert out + "" == out;
    }

    method WriteEntry(e: Entry)
      modifies this
      ensures out == old(out) + EntryText(floatText, e)
      decreases e
    {
      WriteString(e.key);
      Push(": ");
      Write(e.node.value);
    }

    method WriteEntries(entries: seq<Entry>)
      modifies this
      ensures out == old(out) + DumpEntries(floatText, entries)
      decreases entries
    {
      ghost var goal := out + DumpEntries(floatText, entries);
      assert entries[0..] == entries;
      for i := 0 to |entries|
        invariant out + EntriesFrom(floatText, entries, i) == goal
      {
        OneEntry(floatText, entries, i, out);
        if i > 0 {
          Push(", ");
        }
        assert entries[i] in entries;
        WriteEntry(entries[i]);
      }
      assert out + "" == out;
    }
  }

  lemma {:induction false} Regroup(a: string, b: string, c: string)
    ensures a + (b + c) == (a + b) + c
  {
  }

  lemma Around(a: string, open: string, body: string, close: string)
    ensures ((a + open) + body) + close == a + (open + body + close)
  {
  }

  /** What is still to be written before the `i`-th item. */
  function ItemsFrom(floatText: F64 -> string, items: seq<Node>, i: nat): string
    requires i <= |items|
  {
    (if 0 < i < |items| then ", " else "") + DumpItems(floatText, items[i..])
  }

  lemma {:induction false} OneItem(floatText: F64 -> string, items: seq<Node>, i: nat, out: string)
    requires i < |items|
    ensures out + ItemsFrom(floatText, items, i) ==
      ((if i > 0 then out + ", " else out) + Dumps(floatText, items[i].value)) + ItemsFrom(floatText, items, i + 1)
  {
    assert items[i..][0] == items[i] && items[i..][1..] == items[i + 1..];
  }

  function EntryText(floatText: F64 -> string, e: Entry): string {
    StringText(e.key) + ": " + Dumps(floatText, e.node.value)
  }

  function EntriesFrom(floatText: F64 -> string, entries: seq<Entry>, i: nat): string
    requires i <= |entries|
  {
    (if 0 < i < |entries| then ", " else "") + DumpEntries(floatText, entries[i..])
  }

  lemma {:induction false} OneEntry(floatText: F64 -> string, entries: seq<Entry>, i: nat, out: string)
    requires i < |entries|
    ensures out + EntriesFrom(floatText, entries, i) ==
      ((if i > 0 then out + ", " else out) + EntryText(floatText, entries[i])) + EntriesFrom(floatText, entries, i + 1)
  {
    EntriesUnfold(floatText, entries, i);
    var sep, own := if i > 0 then ", " else "", EntryText(floatText, entries[i]);
    var rest := EntriesFrom(floatText, entries, i + 1);
    Regroup(sep, own, rest);
    Regroup(out + sep, own, rest);
    Regroup(out, sep, own + rest);
    assert i == 0 ==> out + sep == out;
  }

  lemma {:induction false} EntriesUnfold(floatText: F64 -> string, entries: seq<Entry>, i: nat)
    requires i < |entries|
    ensures DumpEntries(floatText, entries[i..]) ==
      EntryText(floatText, entries[i]) + EntriesFrom(floatText, entries, i + 1)
  {
    assert entries[i..][0] == entries[i] && entries[i..][1..] == entries[i + 1..];
    var sep := if |entries[i..]| == 1 then "" else ", ";
    Regroup(EntryText(floatText, entries[i]), sep, DumpEntries(floatText, entries[i + 1..]));
  }

  // ---- and in exactly this form ------------------------------------------------------------------------

  function Texts(floatText: F64 -> string, items: seq<Node>): (r: seq<string>)
    ensures |r| == |items| && forall i :: 0 <= i < |r| ==> r[i] == Dumps(floatText, items[i].value)
  {
    seq(|items|, i requires 0 <= i < |items| => Dumps(floatText, items[i].value))
  }

  function MemberTexts(floatText: F64 -> string, entries: seq<Entry>): (r: seq<string>)
    ensures |r| == |entries|
    ensures forall i :: 0 <= i < |r| ==>
      r[i] == StringText(entries[i].key) + ": " + Dumps(floatText, entries[i].node.value)
  {
    seq(|entries|, i requires 0 <= i < |entries| =>
      StringText(entries[i].key) + ": " + Dumps(floatText, entries[i].node.value))
  }

  /** Items and members are separated by a comma and a space, and there is no other space
      outside strings. */
  lemma {:induction false} CollectionsAreJoined(floatText: F64 -> string, items: seq<Node>, entries: seq<Entry>)
    ensures Dumps(floatText, List(items)) == "[" + Join(Texts(floatText, items), ", ") + "]"
    ensures Dumps(floatText, Map(entries)) == "{" + Join(MemberTexts(floatText, entries), ", ") + "}"
  {
    ItemsAreJoined(floatText, items);
    EntriesAreJoined(floatText, entries);
  }

  lemma {:induction false} ItemsAreJoined(floatText: F64 -> string, items: seq<Node>)
    ensures DumpItems(floatText, items) == Join(Texts(floatText, items), ", ")
    decreases |items|
  {
    if items != [] {
      assert Texts(floatText, items)[1..] == Texts(floatText, items[1..]);
      ItemsAreJoined(floatText, items[1..]);
    }
  }

  lemma {:induction false} EntriesAreJoined(floatText: F64 -> string, entries: seq<Entry>)
    ensures DumpEntries(floatText, entries) == Join(MemberTexts(floatText, entries), ", ")
    decreases |entries|
  {
    if entries != [] {
      assert MemberTexts(floatText, entries)[1..] == MemberTexts(floatText, entries[1..]);
      EntriesAreJoined(floatText, entries[1..]);
    }
  }

  /** A character is itself, a backslash and one character for exactly seven, and units of
      four lower-case digits for the others. */
  lemma {:induction false} CharForms(c: char)
    ensures var s := EscapeChar(c);
      && (|s| == 1 <==> ' ' <= c <= '~' && c != '"' && c != '\\') && (|s| == 1 ==> s == [c])
      && (|s| == 2 <==> c in "\"\\\n\r\t\U{8}\U{c}")
      && (|s| > 2 && (c as nat) < 0x1_0000 ==> s == "\\u" + Hex4(c as nat))
  {
    if c !in SHORT && (c < ' ' || c > '~') {
      var units := Units(c as nat);
      assert EscapeUnits(units) == "\\u" + Hex4(units[0]) + EscapeUnits(units[1..]);
    }
  }

  lemma HexIsLowerCase(d: nat)
    requires d < 16
    ensures HexChar(d) == "0123456789abcdef"[d]
  {
  }
}

/**
 Which key paths come back from their bracket form `a.b[0].c` (path.rs).

 A path that comes back consists of what the splitter made, and the splitter cannot make
 everything: no token holds a backslash that would escape, and a token that starts with a
 dot, or is empty, costs a bracket that opens in front of a dot, a closing bracket or the
 end. As many of these as there are in the keys are there in the text, so no bracket is
 left for such tokens; and of the other keys each is read as it is, from left to right.
*/
module BracketPaths {
  import opened Decimal
  import opened Values
  import opened KeyPaths

  // ---- what tokens cannot hold -------------------------------------------------------------------

  /** No backslash escapes; one at the very end only where `last` says so. */
  predicate Plain(t: string, last: bool)
    decreases |t|
  {
    t == "" ||
    if t[0] == '\\' then if |t| == 1 then last else !Escapes(t[1]) && Plain(t[2..], last)
    else Plain(t[1..], last)
  }

  lemma {:induction false} PlainJoin(a: string, b: string, last: bool)
    requires Plain(a, false) && Plain(b, last)
    ensures Plain(a + b, last)
    decreases |a|
  {
    if a == "" {
      assert a + b == b;
    } else if a[0] == '\\' {
      assert (a + b)[2..] == a[2..] + b;
      PlainJoin(a[2..], b, last);
    } else {
      assert (a + b)[1..] == a[1..] + b;
      PlainJoin(a[1..], b, last);
    }
  }

  /** What one step of the splitter adds to a token. */
  lemma {:induction false} OneMorePlain(cur: string, c: char)
    requires Plain(cur, false)
    ensures c != '\\' ==> Plain(cur + [c], false)
    ensures Plain(cur + "\\", true)
    ensures !Escapes(c) ==> Plain(cur + ['\\', c], false)
  {
    if c != '\\' {
      assert [c][1..] == "";
      PlainJoin(cur, [c], false);
    }
    PlainJoin(cur, "\\", true);
    if !Escapes(c) {
      assert ['\\', c][2..] == "";
      PlainJoin(cur, ['\\', c], false);
    }
  }

  lemma {:induction false} PlainAnyway(t: string, last: bool)
    requires Plain(t, false)
    ensures Plain(t, last)
  {
    PlainJoin(t, "", last);
    assert t + "" == t;
  }

  lemma {:induction false} DigitsPlain(t: string, last: bool)
    requires AllDigits(t)
    ensures Plain(t, last) && Intact(t, last)
    decreases |t|
  {
    if t != "" {
      assert IsDigit(t[0]);
      DigitsPlain(t[1..], last);
    }
  }

  ghost predicate AllPlain(ts: seq<string>, last: bool) {
    forall i :: 0 <= i < |ts| ==> Plain(ts[i], last && i == |ts| - 1)
  }

  lemma {:induction false} FinishPlain(st: State, last: bool)
    requires AllPlain(st.tokens, false) && Plain(st.cur, last) && (last ==> st.hasCur)
    ensures AllPlain(Finish(st), true)
  {
    forall i | 0 <= i < |Finish(st)| ensures Plain(Finish(st)[i], i == |Finish(st)| - 1) {
      if i < |st.tokens| {
        PlainAnyway(st.tokens[i], i == |Finish(st)| - 1);
      } else if !last {
        PlainAnyway(st.cur, true);
      }
    }
  }

  /** Whatever the text: of no token would a part be an escape. */
  lemma {:induction false} TokensArePlain(st: State, s: string)
    requires AllPlain(st.tokens, false) && Plain(st.cur, false)
    ensures AllPlain(Scan(st, s), true)
    decreases |s|
  {
    if s == "" {
      FinishPlain(st, false);
    } else if s[0] != '\\' {
      OneMorePlain(st.cur, s[0]);
      TokensArePlain(Take(st, s[0]), s[1..]);
    } else if |s| == 1 {
      OneMorePlain(st.cur, ' ');
      FinishPlain(TakeEscape(st, ""), true);
    } else {
      OneMorePlain(st.cur, s[1]);
      TokensArePlain(TakeEscape(st, s[1..]), s[2..]);
    }
  }

  // ---- brackets that open before nothing ------------------------------------------------------------

  /** Nothing but a separator is here. */
  predicate Blank(s: string) { s == "" || s[0] == '.' || s[0] == ']' }

  function Openings(s: string): nat {
    if s == "" then 0 else (if s[0] == '[' && Blank(s[1..]) then 1 else 0) + Openings(s[1..])
  }

  lemma {:induction false} Separated(a: string, c: char, b: string)
    requires c == '.' || c == ']'
    ensures Openings(a + [c] + b) == Openings(a) + Openings(b)
    decreases |a|
  {
    var s := a + [c] + b;
    if a == "" {
      assert s == [c] + b && s[1..] == b;
    } else {
      assert s[1..] == a[1..] + [c] + b;
      Separated(a[1..], c, b);
    }
  }

  lemma {:induction false} NothingOpens(a: string, z: string)
    requires '[' !in a
    ensures Openings(a + z) == Openings(z)
    decreases |a|
  {
    if a == "" {
      assert a + z == z;
    } else {
      assert (a + z)[1..] == a[1..] + z && a[0] in a && forall c :: c in a[1..] ==> c in a;
      NothingOpens(a[1..], z);
    }
  }

  /** A dot in front, or nothing at all except in the first place, costs one more. */
  function Cost(t: string, first: bool): nat {
    Openings(t) + if (t != "" && t[0] == '.') || (t == "" && !first) then 1 else 0
  }

  function Costs(ts: seq<string>, first: bool): nat {
    if ts == [] then 0 else Cost(ts[0], first) + Costs(ts[1..], false)
  }

  lemma {:induction false} CostsPush(ts: seq<string>, t: string, first: bool)
    ensures Costs(ts + [t], first) == Costs(ts, first) + Cost(t, first && ts == [])
    decreases |ts|
  {
    if ts == [] {
      assert (ts + [t])[1..] == [];
    } else {
      assert (ts + [t])[1..] == ts[1..] + [t];
      CostsPush(ts[1..], t, false);
    }
  }

  /** Outside brackets a token neither holds an opening one nor starts with a dot. */
  predicate Sound(st: State) {
    && (st.hasCur <==> st.cur != "")
    && (!st.inBracket && st.cur != "" ==> '[' !in st.cur && st.cur[0] != '.')
  }

  /** What the tokens so far and the text to come can cost. */
  function Bound(st: State, s: string): nat {
    Costs(st.tokens, true) + Openings(st.cur + s) + if st.inBracket && Blank(st.cur + s) then 1 else 0
  }

  lemma {:induction false} DotCosts(st: State, s: string)
    requires Sound(st) && !st.inBracket
    ensures Sound(Take(st, '.')) && Bound(Take(st, '.'), s) <= Bound(st, "." + s)
  {
    CostsPush(st.tokens, st.cur, true);
    Separated(st.cur, '.', s);
    assert st.cur + ("." + s) == st.cur + ['.'] + s && "" + s == s;
  }

  lemma {:induction false} OpenCosts(st: State, s: string)
    requires Sound(st) && !st.inBracket
    ensures Sound(Take(st, '[')) && Bound(Take(st, '['), s) <= Bound(st, "[" + s)
  {
    CostsPush(st.tokens, st.cur, true);
    NothingOpens(st.cur, "[" + s);
    NothingOpens(st.cur, "");
    assert st.cur + "" == st.cur && ("[" + s)[1..] == s && "" + s == s;
  }

  lemma {:induction false} CloseCosts(st: State, s: string)
    requires Sound(st) && st.inBracket
    ensures Sound(Take(st, ']')) && Bound(Take(st, ']'), s) <= Bound(st, "]" + s)
  {
    CostsPush(st.tokens, st.cur, true);
    Separated(st.cur, ']', s);
    assert st.cur + ("]" + s) == st.cur + [']'] + s && "" + s == s;
  }

  /** Characters of a token change nothing. */
  lemma {:induction false} GrowCosts(st: State, own: string, s: string)
    requires Sound(st) && own != "" && (!st.inBracket ==> '[' !in own && own[0] != '.')
    ensures var grown := st.(cur := st.cur + own, hasCur := true);
      Sound(grown) && Bound(grown, s) == Bound(st, own + s)
  {
    assert st.cur + own + s == st.cur + (own + s);
  }

  lemma {:induction false} TakeCosts(st: State, c: char, s: string)
    requires Sound(st)
    ensures Sound(Take(st, c)) && Bound(Take(st, c), s) <= Bound(st, [c] + s)
  {
    if c == '.' && !st.inBracket {
      DotCosts(st, s);
    } else if c == '[' && !st.inBracket {
      OpenCosts(st, s);
    } else if c == ']' && st.inBracket {
      CloseCosts(st, s);
    } else {
      GrowCosts(st, [c], s);
    }
  }

  lemma {:induction false} FinishCosts(st: State)
    requires Sound(st)
    ensures Costs(Finish(st), true) <= Bound(st, "")
  {
    CostsPush(st.tokens, st.cur, true);
    assert st.cur + "" == st.cur;
  }

  lemma {:induction false} ScanCosts(st: State, s: string)
    requires Sound(st) && Plain(s, true)
    ensures Costs(Scan(st, s), true) <= Bound(st, s)
    decreases |s|
  {
    if s == "" {
      FinishCosts(st);
    } else if s[0] != '\\' {
      assert s == [s[0]] + s[1..];
      TakeCosts(st, s[0], s[1..]);
      ScanCosts(Take(st, s[0]), s[1..]);
    } else if |s| == 1 {
      assert s == "\\" && s + "" == s;
      GrowCosts(st, "\\", "");
      FinishCosts(TakeEscape(st, ""));
    } else {
      assert s == ['\\', s[1]] + s[2..] && s[1..][0] == s[1];
      GrowCosts(st, ['\\', s[1]], s[2..]);
      ScanCosts(TakeEscape(st, s[1..]), s[2..]);
    }
  }

  // ---- the text, and the keys that come back --------------------------------------------------------------

  function OpeningsOf(path: KeyPath): nat {
    if path == [] then 0 else Openings(KeyText(path[0])) + OpeningsOf(path[1..])
  }

  /** A bracket that follows opens before a digit. */
  lemma {:induction false} DigitFollows(s: string, d: string)
    requires d != "" && AllDigits(d)
    ensures Openings(s + "[" + d) <= Openings(s)
    decreases |s|
  {
    if s == "" {
      assert s + "[" + d == "[" + d && ("[" + d)[1..] == d && IsDigit(d[0]);
      DigitsDoNotOpen(d);
    } else {
      assert (s + "[" + d)[1..] == s[1..] + "[" + d;
      DigitFollows(s[1..], d);
    }
  }

  lemma {:induction false} DigitsDoNotOpen(d: string)
    requires AllDigits(d)
    ensures Openings(d) == 0
  {
    assert forall c :: c in d ==> IsDigit(c);
    NothingOpens(d, "");
    assert d + "" == d;
  }

  lemma {:induction false} KeyOpens(s: string, k: Key)
    ensures Openings(s + Bracketed(k, s != "")) <= Openings(s) + Openings(KeyText(k))
  {
    match k {
      case Name(name) =>
        if s == "" {
          assert s + ("" + name) == name;
        } else {
          Separated(s, '.', name);
          assert s + ("." + name) == s + ['.'] + name;
        }
      case Index(i) =>
        DigitFollows(s, Digits(i));
        Separated(s + "[" + Digits(i), ']', "");
        assert s + ("[" + Digits(i) + "]") == s + "[" + Digits(i) + [']'] + "";
    }
  }

  lemma {:induction false} TextOpens(s: string, path: KeyPath)
    ensures Openings(OmegaConf(s, path)) <= Openings(s) + OpeningsOf(path)
    decreases |path|
  {
    if path != [] {
      KeyOpens(s, path[0]);
      TextOpens(s + Bracketed(path[0], s != ""), path[1..]);
    }
  }

  lemma {:induction false} BracketedPlain(s: string, k: Key, last: bool)
    requires Plain(s, false) && (k.Name? ==> Plain(k.s, last))
    ensures Plain(s + Bracketed(k, s != ""), last)
  {
    match k {
      case Name(name) =>
        if s == "" {
          assert s + ("" + name) == name;
        } else {
          PlainJoin(".", name, last);
          PlainJoin(s, "." + name, last);
        }
      case Index(i) =>
        DigitsPlain(Digits(i), false);
        PlainJoin("[", Digits(i), false);
        PlainJoin("[" + Digits(i), "]", last);
        PlainJoin(s, "[" + Digits(i) + "]", last);
    }
  }

  ghost predicate NamesPlain(path: KeyPath) {
    forall i :: 0 <= i < |path| && path[i].Name? ==> Plain(path[i].s, i == |path| - 1)
  }

  lemma {:induction false} TextIsPlain(s: string, path: KeyPath)
    requires Plain(s, false) && NamesPlain(path)
    ensures Plain(OmegaConf(s, path), true)
    decreases |path|
  {
    if path == [] {
      PlainAnyway(s, true);
    } else {
      var longer := s + Bracketed(path[0], s != "");
      BracketedPlain(s, path[0], path[1..] == []);
      if path[1..] != [] {
        TextIsPlain(longer, path[1..]);
      }
    }
  }

  /** These tokens are read as these keys. */
  ghost predicate ReadAs(ts: seq<string>, path: KeyPath) {
    |ts| == |path| && forall i :: 0 <= i < |ts| ==> ParseToken(ts[i]) == path[i]
  }

  lemma {:induction false} TokenOf(t: string)
    ensures match ParseToken(t)
      case Name(s) => s == t
      case Index(_) => t != "" && AllDigits(t)
  {
  }

  /** Names that a bracket must have opened for. */
  predicate Costly(k: Key, first: bool) { k.Name? && if k.s == "" then !first else k.s[0] == '.' }

  lemma {:induction false} KeysCost(ts: seq<string>, path: KeyPath, first: bool)
    requires ReadAs(ts, path)
    ensures OpeningsOf(path) <= Costs(ts, first)
    ensures OpeningsOf(path) == Costs(ts, first) ==>
      forall i :: 0 <= i < |path| ==> !Costly(path[i], first && i == 0)
    decreases |path|
  {
    if path != [] {
      TokenOf(ts[0]);
      if path[0].Index? {
        DigitsDoNotOpen(ts[0]);
        DigitsDoNotOpen(KeyText(path[0]));
      }
      KeysCost(ts[1..], path[1..], false);
      if OpeningsOf(path) == Costs(ts, first) {
        forall i | 0 <= i < |path| ensures !Costly(path[i], first && i == 0) {
          if i > 0 {
            assert path[i] == path[1..][i - 1];
          }
        }
      }
    }
  }

  lemma {:induction false} NamesOfTokens(ts: seq<string>, path: KeyPath)
    requires ReadAs(ts, path) && AllPlain(ts, true)
    ensures NamesPlain(path)
  {
    forall i | 0 <= i < |path| && path[i].Name? ensures Plain(path[i].s, i == |path| - 1) {
      TokenOf(ts[i]);
    }
  }

  /** Of a path that comes back no name starts with a dot, none but the first is empty,
      and none holds an escape. */
  lemma {:induction false} NoneIsCostly(path: KeyPath)
    requires Parse(OmegaConf("", path)) == path
    ensures NamesPlain(path) && ReadAs(Scan(START, OmegaConf("", path)), path)
    ensures forall i :: 0 <= i < |path| ==> !Costly(path[i], i == 0)
    ensures Costs(Scan(START, OmegaConf("", path)), true) == Openings(OmegaConf("", path))
  {
    var s := OmegaConf("", path);
    var ts := Scan(START, s);
    TokensArePlain(START, s);
    NamesOfTokens(ts, path);
    TextIsPlain("", path);
    ScanCosts(START, s);
    assert Bound(START, s) == Openings(s) by { assert "" + s == s; }
    TextOpens("", path);
    KeysCost(ts, path, true);
  }

  // ---- an empty first key -------------------------------------------------------------------------------

  /** What has been read of a token stays its beginning. */
  lemma {:induction false} ReadStays(st: State, s: string)
    requires st.hasCur
    ensures |Scan(st, s)| > |st.tokens| && st.cur <= Scan(st, s)[|st.tokens|]
    decreases |s|
  {
    if s == "" {
    } else if s[0] != '\\' {
      var next := Take(st, s[0]);
      if next.hasCur {
        ReadStays(next, s[1..]);
      } else {
        assert next.tokens == st.tokens + [st.cur];
        ScanWeighs(next, s[1..]);
      }
    } else {
      ReadStays(TakeEscape(st, s[1..]), if |s| == 1 then "" else s[2..]);
    }
  }

  lemma {:induction false} FirstIsEmpty(s: string)
    requires s != "" && s[0] != '.' && |Scan(START, s)| > 1 && Scan(START, s)[0] == ""
    ensures |s| > 1 && s[0] == '[' && s[1] == ']'
  {
    if s[0] == '\\' {
      ReadStays(TakeEscape(START, s[1..]), if |s| == 1 then "" else s[2..]);
    } else {
      var next := Take(START, s[0]);
      if next.hasCur {
        ReadStays(next, s[1..]);
      } else {
        InBracketIsEmpty(next, s[1..]);
      }
    }
  }

  lemma {:induction false} InBracketIsEmpty(st: State, s: string)
    requires st == State([], "", true, false) && |Scan(st, s)| > 1 && Scan(st, s)[0] == ""
    ensures s != "" && s[0] == ']'
  {
    if s != "" && s[0] == '\\' {
      ReadStays(TakeEscape(st, s[1..]), if |s| == 1 then "" else s[2..]);
    } else if s != "" && s[0] != ']' {
      ReadStays(Take(st, s[0]), s[1..]);
    }
  }

  /** It would have to be made of a bracket that opens before nothing. */
  lemma {:induction false} EmptyFirstCosts(s: string)
    requires |s| > 1 && s[0] == '[' && s[1] == ']' && Plain(s, true)
    ensures Costs(Scan(START, s), true) < Openings(s)
  {
    var rest := s[2..];
    assert s[1..] == "]" + rest && s[1..][1..] == rest;
    var after := Take(Take(START, '['), ']');
    assert after == State([""], "", false, false) && Scan(START, s) == Scan(after, rest);
    assert Plain(rest, true) && Costs([""], true) == 0 && "" + rest == rest;
    ScanCosts(after, rest);
  }

  lemma {:induction false} StartsWithKey(path: KeyPath)
    requires path != [] && Written(path) && (path[0].Name? ==> path[0].s[0] != '.')
    ensures var s := OmegaConf("", path); s != "" && s[0] != '.'
  {
    OmegaConfIsRest("", path);
    assert "" + BracketedRest(path, false) == BracketedRest(path, false);
    assert Bracketed(path[0], false) <= BracketedRest(path, false);
  }

  lemma {:induction false} LaterAreWritten(path: KeyPath)
    requires |path| > 1 && forall i :: 0 <= i < |path| ==> !Costly(path[i], i == 0)
    ensures Written(path[1..]) && (path[1].Name? ==> path[1].s[0] != '.')
  {
    forall i | 0 <= i < |path[1..]| ensures path[1..][i] != Name("") {
      assert path[1..][i] == path[i + 1] && !Costly(path[i + 1], false);
    }
    assert !Costly(path[1], false);
  }

  lemma {:induction false} EmptyFirstIsAlone(path: KeyPath)
    requires path != [] && path[0] == Name("") && Parse(OmegaConf("", path)) == path
    ensures |path| == 1
  {
    if |path| > 1 {
      var s := OmegaConf("", path);
      NoneIsCostly(path);
      LaterAreWritten(path);
      assert s == OmegaConf("", path[1..]);
      StartsWithKey(path[1..]);
      TokenOf(Scan(START, s)[0]);
      FirstIsEmpty(s);
      TextIsPlain("", path);
      EmptyFirstCosts(s);
    }
  }

  // ---- every other name is read as it is ---------------------------------------------------------------------

  /** What can follow a name: nothing, a dot, or a bracket and a digit. */
  predicate Follows(rest: string) {
    rest == "" || rest[0] == '.' || (|rest| > 1 && rest[0] == '[' && IsDigit(rest[1]))
  }

  /** Inside the bracket that the name itself opened, it cannot come out whole. */
  lemma {:induction false} OwnBracketFails(tokens: seq<string>, t: string, j: nat, rest: string)
    requires 0 < j <= |t| && forall i :: 0 <= i < j ==> t[i] == '['
    requires Follows(rest) && Plain(t[j..], rest == "")
    ensures var all := Scan(State(tokens, t[..j - 1], true, j > 1), t[j..] + rest);
      |all| > |tokens| ==> all[|tokens|] != t
    decreases |t| - j
  {
    var st, s := State(tokens, t[..j - 1], true, j > 1), t[j..] + rest;
    assert t[..j - 1] + "[" == t[..j];
    if j == |t| {
      assert s == rest;
      AfterOwnBracket(tokens, t, rest);
    } else if t[j] == '[' {
      assert s[0] == '[' && s[1..] == t[j + 1..] + rest && t[j..][1..] == t[j + 1..];
      OwnBracketFails(tokens, t, j + 1, rest);
    } else {
      assert s[0] == t[j] != '[';
      OtherInside(st, t, s);
    }
  }

  lemma {:induction false} AfterOwnBracket(tokens: seq<string>, t: string, rest: string)
    requires t != "" && Follows(rest) && forall i :: 0 <= i < |t| ==> t[i] == '['
    ensures var all := Scan(State(tokens, t[..|t| - 1], true, |t| > 1), rest);
      |all| > |tokens| ==> all[|tokens|] != t
  {
    var n := |t| - 1;
    var st := State(tokens, t[..n], true, n > 0);
    if rest != "" {
      var next := Take(st, rest[0]);
      assert next.hasCur && next.cur[n] == rest[0] && |next.cur| == |t|;
      ReadStays(next, rest[1..]);
      if rest[0] == '[' {
        var more := Take(next, rest[1]);
        assert more.hasCur && |more.cur| > |t| && rest[1..][0] == rest[1];
        ReadStays(more, rest[1..][1..]);
      }
    }
  }

  /** A character that is not the name's ends up in the token, or ends it too early. */
  lemma {:induction false} OtherInside(st: State, t: string, s: string)
    requires st.inBracket && |st.cur| < |t| && (st.hasCur <==> st.cur != "") && st.cur <= t
    requires s != "" && s[0] != t[|st.cur|] && (s[0] == '\\' ==> |s| == 1 || !Escapes(s[1]))
    ensures |Scan(st, s)| > |st.tokens| ==> Scan(st, s)[|st.tokens|] != t
  {
    if s[0] == '\\' {
      var next := TakeEscape(st, s[1..]);
      assert next.cur[|st.cur|] == '\\';
      ReadStays(next, if |s| == 1 then "" else s[2..]);
    } else if s[0] == ']' {
      ScanWeighs(Take(st, ']'), s[1..]);
    } else {
      var next := Take(st, s[0]);
      assert next.cur[|st.cur|] == s[0];
      ReadStays(next, s[1..]);
    }
  }

  /** A name that comes out as a token is read as it is. */
  lemma {:induction false} NameIsIntact(tokens: seq<string>, t: string, k: nat, rest: string)
    requires k <= |t| && t != "" && t[0] != '.' && Follows(rest) && Plain(t[k..], rest == "")
    requires var all := Scan(State(tokens, t[..k], false, k > 0), t[k..] + rest);
      |all| > |tokens| && all[|tokens|] == t
    ensures Intact(t[k..], rest == "")
    decreases |t| - k
  {
    var st, s := State(tokens, t[..k], false, k > 0), t[k..] + rest;
    if k < |t| {
      assert s[0] == t[k] && s[1..] == t[k + 1..] + rest && t[k..][1..] == t[k + 1..];
      if t[k] == '\\' {
        EscapeIsIntact(tokens, t, k, rest);
      } else if t[k] == '[' && k == 0 {
        assert t[..0] == "";
        OwnBracketFails(tokens, t, 1, rest);
      } else if t[k] == '.' || t[k] == '[' {
        var next := Take(st, t[k]);
        TokenEnded(next, s[1..], tokens, t[..k]);
      } else {
        assert t[..k] + [t[k]] == t[..k + 1];
        NameIsIntact(tokens, t, k + 1, rest);
      }
    }
  }

  lemma {:induction false} TokenEnded(st: State, s: string, tokens: seq<string>, token: string)
    requires st.tokens == tokens + [token]
    ensures |Scan(st, s)| > |tokens| && Scan(st, s)[|tokens|] == token
  {
    ScanWeighs(st, s);
    assert st.tokens[|tokens|] == token;
  }

  lemma {:induction false} EscapeIsIntact(tokens: seq<string>, t: string, k: nat, rest: string)
    requires k < |t| && t[0] != '.' && t[k] == '\\' && Follows(rest) && Plain(t[k..], rest == "")
    requires var all := Scan(State(tokens, t[..k], false, k > 0), t[k..] + rest);
      |all| > |tokens| && all[|tokens|] == t
    ensures Intact(t[k..], rest == "")
    decreases |t| - k, 0
  {
    if k + 1 < |t| {
      var s := t[k..] + rest;
      assert s[1..][0] == t[k + 1] && s[2..] == t[k + 2..] + rest && t[k..][2..] == t[k + 2..];
      assert t[..k] + ['\\', t[k + 1]] == t[..k + 2];
      NameIsIntact(tokens, t, k + 2, rest);
    }
  }

  lemma {:induction false} RestFollows(path: KeyPath)
    ensures Follows(BracketedRest(path, true)) && (path != [] ==> BracketedRest(path, true) != "")
  {
    if path != [] {
      var own := Bracketed(path[0], true);
      assert own <= BracketedRest(path, true) && |own| > 0;
      if path[0].Index? {
        assert own[1] == Digits(path[0].i)[0];
      }
    }
  }

  ghost predicate NamesIntact(path: KeyPath) {
    forall i :: 0 <= i < |path| && path[i].Name? ==> Intact(path[i].s, i == |path| - 1)
  }

  /** Names that are written, and not with a dot in front. */
  ghost predicate NoDots(path: KeyPath) {
    forall i :: 0 <= i < |path| && path[i].Name? ==> path[i].s != "" && path[i].s[0] != '.'
  }

  lemma {:induction false} FirstKeyIsRead(st: State, tokens: seq<string>, path: KeyPath) returns (after: State)
    requires path != [] && HasRead(st, tokens) && NoDots(path) && NamesPlain(path)
    requires var all := Scan(st, BracketedRest(path, tokens != []));
      |all| > |tokens| && ParseToken(all[|tokens|]) == path[0]
    ensures path[0].Name? ==> Intact(path[0].s, |path| == 1)
    ensures var read := tokens + [KeyText(path[0])];
      HasRead(after, read) &&
      Scan(st, BracketedRest(path, tokens != [])) == Scan(after, BracketedRest(path[1..], read != []))
  {
    var rest := BracketedRest(path[1..], true);
    RestFollows(path[1..]);
    match path[0] {
      case Index(n) =>
        ScanBracketed(st, tokens, n, rest);
        after := State(tokens + [Digits(n)], "", false, false);
      case Name(t) =>
        NameStarts(st, tokens, t, rest);
        TokenOf(Scan(st, BracketedRest(path, tokens != []))[|tokens|]);
        assert t[..0] == "" && t[0..] == t;
        NameIsIntact(tokens, t, 0, rest);
        ScanDotted(st, tokens, t, rest);
        after := State(tokens, t, false, true);
    }
  }

  lemma {:induction false} NameStarts(st: State, tokens: seq<string>, t: string, rest: string)
    requires HasRead(st, tokens)
    ensures Scan(st, (if tokens == [] then "" else ".") + t + rest) == Scan(State(tokens, "", false, false), t + rest)
  {
    if tokens == [] {
      assert "" + t + rest == t + rest;
    } else {
      var s := "." + t + rest;
      assert s[0] == '.' && s[1..] == t + rest;
    }
  }

  lemma {:induction false} NamesAreIntact(st: State, tokens: seq<string>, path: KeyPath)
    requires HasRead(st, tokens) && NoDots(path) && NamesPlain(path)
    requires var all := Scan(st, BracketedRest(path, tokens != []));
      |all| == |tokens| + |path| && ReadAs(all[|tokens|..], path)
    ensures NamesIntact(path)
    decreases |path|
  {
    if path != [] {
      var all := Scan(st, BracketedRest(path, tokens != []));
      assert all[|tokens|..][0] == all[|tokens|];
      var after := FirstKeyIsRead(st, tokens, path);
      var read := tokens + [KeyText(path[0])];
      assert all[|read|..] == all[|tokens|..][1..];
      NamesAreIntact(after, read, path[1..]);
      forall i | 0 <= i < |path| && path[i].Name? ensures Intact(path[i].s, i == |path| - 1) {
        if i > 0 {
          assert path[i] == path[1..][i - 1];
        }
      }
    }
  }

  // ---- the exact condition ----------------------------------------------------------------------------------------

  lemma {:induction false} IntactIsReadable(path: KeyPath)
    requires path != [] && NoDots(path) && NamesIntact(path) && Parse(OmegaConf("", path)) == path
    ensures Readable(path)
  {
    assert Written(path);
    WrittenReturns(path);
    forall i | 0 <= i < |path|
      ensures ParseToken(KeyText(path[i])) == path[i] && TextReads(KeyTexts(path), i)
    {
      assert KeyTexts(path)[i] == KeyText(path[i]);
      if path[i].Index? {
        DigitsPlain(Digits(path[i].i), i == |path| - 1);
      }
    }
  }

  lemma {:induction false} ReturnsIfReadable(path: KeyPath)
    requires path != [] && Parse(OmegaConf("", path)) == path
    ensures Readable(path)
  {
    NoneIsCostly(path);
    if path[0] == Name("") {
      EmptyFirstIsAlone(path);
      assert path == [Name("")] && ParseToken("") == Name("");
    } else {
      forall i | 0 <= i < |path| && path[i].Name? ensures path[i].s != "" && path[i].s[0] != '.' {
        assert !Costly(path[i], i == 0);
      }
      OmegaConfIsRest("", path);
      var s := BracketedRest(path, false);
      assert OmegaConf("", path) == "" + s == s;
      var all := Scan(START, s);
      assert all[0..] == all;
      NamesAreIntact(START, [], path);
      IntactIsReadable(path);
    }
  }

  /** `to_omegaconf` comes back exactly for readable paths that do not start with an empty
      key before others. */
  lemma {:induction false} BracketsReturn(path: KeyPath)
    ensures Parse(OmegaConf("", path)) == path <==> Readable(path) && (path[0] == Name("") ==> |path| == 1)
  {
    if path == [] {
      RootDoesNotComeBack();
    } else if Parse(OmegaConf("", path)) == path {
      ReturnsIfReadable(path);
      if path[0] == Name("") {
        EmptyFirstIsAlone(path);
      }
    } else if Readable(path) && (path[0] == Name("") ==> |path| == 1) {
      OmegaConfReturns(path);
    }
  }
}

/**
 Key paths as text (path.rs): the two printed forms, the splitter that reads them, and
 which paths come back from the dotted one. `BracketPaths` says it of the other.
*/
module KeyPaths {
  import opened Wrappers
  import opened Decimal
  import opened Strings
  import opened Values

  // ---- printing -----------------------------------------------------------------------

  /** Indices print as digits. */
  function KeyText(k: Key): string {
    match k case Name(s) => s case Index(i) => Digits(i)
  }

  function KeyTexts(path: KeyPath): (r: seq<string>)
    ensures |r| == |path| && forall i :: 0 <= i < |r| ==> r[i] == KeyText(path[i])
  {
    seq(|path|, i requires 0 <= i < |path| => KeyText(path[i]))
  }

  /** `to_dotted`: `a.b.0.c` */
  function Dotted(path: KeyPath): string { Join(KeyTexts(path), ".") }

  function Bracketed(k: Key, started: bool): string {
    match k
    case Name(s) => (if started then "." else "") + s
    case Index(i) => "[" + Digits(i) + "]"
  }

  /** `to_omegaconf`: `a.b[0].c`, written after `s`. */
  function OmegaConf(s: string, path: KeyPath): string
    decreases |path|
  {
    if path == [] then s else OmegaConf(s + Bracketed(path[0], s != ""), path[1..])
  }

  method WriteKey(s: string, k: Key) returns (r: string)
    ensures r == s + Bracketed(k, s != "")
  {
    r := s;
    match k {
      case Name(name) =>
        if r != "" {
          r := r + ".";
        }
        r := r + name;
      case Index(n) =>
        r := r + "[";
        r := r + Digits(n);
        r := r + "]";
    }
  }

  method ToOmegaConf(path: KeyPath) returns (s: string)
    ensures s == OmegaConf("", path)
  {
    s := "";
    assert path[0..] == path;
    for i := 0 to |path|
      invariant OmegaConf(s, path[i..]) == OmegaConf("", path)
    {
      assert path[i..][0] == path[i] && path[i..][1..] == path[i + 1..];
      s := WriteKey(s, path[i]);
    }
  }

  // ---- splitting --------------------------------------------------------------------------

  datatype State = State(tokens: seq<string>, cur: string, inBracket: bool, hasCur: bool)

  const START := State([], "", false, false)

  predicate Escapes(c: char) { c == '.' || c == '[' || c == ']' || c == '=' }

  /** One character that is not a backslash. */
  function Take(st: State, c: char): State {
    if c == '.' && !st.inBracket then
      if st.hasCur || st.tokens == [] then State(st.tokens + [st.cur], "", false, false) else st.(hasCur := false)
    else if c == '[' && !st.inBracket then
      if st.hasCur then State(st.tokens + [st.cur], "", true, false) else st.(inBracket := true)
    else if c == ']' && st.inBracket then State(st.tokens + [st.cur], "", false, false)
    else st.(cur := st.cur + [c], hasCur := true)
  }

  /** A backslash, and the character after it if there is one. */
  function TakeEscape(st: State, after: string): State {
    if after == "" then st.(cur := st.cur + "\\", hasCur := true)
    else if Escapes(after[0]) then st.(cur := st.cur + [after[0]], hasCur := true)
    else st.(cur := st.cur + ['\\', after[0]], hasCur := true)
  }

  function Finish(st: State): seq<string> {
    if st.hasCur || st.tokens == [] then st.tokens + [st.cur] else st.tokens
  }

  /** The tokens of what is left, after this state. */
  function Scan(st: State, s: string): seq<string>
    decreases |s|
  {
    if s == "" then Finish(st)
    else if s[0] != '\\' then Scan(Take(st, s[0]), s[1..])
    else Scan(TakeEscape(st, s[1..]), if |s| == 1 then "" else s[2..])
  }

  /** `split_key` */
  method SplitKey(key: string) returns (tokens: seq<string>)
    ensures tokens == Scan(START, key)
  {
    var cur, inBracket, hasCur := "", false, false;
    tokens := [];
    var i := 0;
    assert key[0..] == key;
    while i < |key|
      invariant 0 <= i <= |key|
      invariant Scan(State(tokens, cur, inBracket, hasCur), key[i..]) == Scan(START, key)
    {
      var c := key[i];
      ghost var st, here := State(tokens, cur, inBracket, hasCur), i;
      assert key[i..][0] == c && key[i..][1..] == key[i + 1..];
      i := i + 1;
      if c == '\\' {
        if i < |key| {
          assert key[here..][2..] == key[i + 1..];
          if Escapes(key[i]) {
            cur := cur + [key[i]];
          } else {
            cur := cur + "\\";
            cur := cur + [key[i]];
          }
          i := i + 1;
        } else {
          cur := cur + "\\";
          assert key[i..] == "";
        }
        hasCur := true;
        assert State(tokens, cur, inBracket, hasCur) == TakeEscape(st, key[here + 1..]);
      } else if c == '.' && !inBracket {
        if hasCur || tokens == [] {
          tokens, cur := tokens + [cur], "";
        }
        hasCur := false;
      } else if c == '[' && !inBracket {
        if hasCur {
          tokens, cur, hasCur := tokens + [cur], "", false;
        }
        inBracket := true;
      } else if c == ']' && inBracket {
        tokens, cur, hasCur, inBracket := tokens + [cur], "", false, false;
      } else {
        cur := cur + [c];
        hasCur := true;
      }
    }
    if hasCur || tokens == [] {
      tokens := tokens + [cur];
    }
  }

  // ---- parsing ---------------------------------------------------------------------------------

  /** Digits are an index, unless a sign comes first. */
  function ParseToken(t: string): Key {
    match ParseUsize(t)
    case Some(i) => if t[0] == '+' then Name(t) else Index(i)
    case None => Name(t)
  }

  function ParseTokens(ts: seq<string>): (r: KeyPath)
    ensures |r| == |ts| && forall i :: 0 <= i < |r| ==> r[i] == ParseToken(ts[i])
  {
    seq(|ts|, i requires 0 <= i < |ts| => ParseToken(ts[i]))
  }

  /** `KeyPath::parse` */
  function Parse(s: string): KeyPath { ParseTokens(Scan(START, s)) }

  // ---- what comes back ------------------------------------------------------------------------------

  /** A key's text is read as it is: no dot or bracket opens, and no backslash escapes; one
      at the very end is fine when nothing follows. */
  predicate Intact(t: string, last: bool)
    decreases |t|
  {
    t == "" ||
    if t[0] == '\\' then if |t| == 1 then last else !Escapes(t[1]) && Intact(t[2..], last)
    else t[0] != '.' && t[0] != '[' && Intact(t[1..], last)
  }

  /** What the text of key `i` must be for it to come back. */
  predicate TextReads(texts: seq<string>, i: nat)
    requires i < |texts|
  {
    Intact(texts[i], i == |texts| - 1) && (texts[i] != "" || i == 0)
  }

  /** A path whose keys are read as they are, names that are no index and indices that fit. */
  predicate Readable(path: KeyPath) {
    path != [] && forall i :: 0 <= i < |path| ==>
      ParseToken(KeyText(path[i])) == path[i] && TextReads(KeyTexts(path), i)
  }

  /** The splitter has read these tokens, and nothing more. */
  ghost predicate HasRead(st: State, tokens: seq<string>) {
    && !st.inBracket
    && if st.hasCur then st.tokens + [st.cur] == tokens else st.cur == "" && st.tokens == tokens
  }

  lemma {:induction false} ScanIntact(st: State, t: string, rest: string)
    requires !st.inBracket && Intact(t, rest == "")
    ensures Scan(st, t + rest) == Scan(if t == "" then st else st.(cur := st.cur + t, hasCur := true), rest)
    decreases |t|
  {
    if t == "" {
      assert t + rest == rest;
    } else if t[0] != '\\' {
      ScanOne(st, t, rest);
      ScanIntact(Take(st, t[0]), t[1..], rest);
      Regrown(st.cur, t, 1);
    } else if |t| == 1 {
      assert t + rest == t && t[1..] == "" && t == "\\";
    } else {
      ScanTwo(st, t, rest);
      ScanIntact(TakeEscape(st, t[1..] + rest), t[2..], rest);
      Regrown(st.cur, t, 2);
      assert t[..2] == ['\\', t[1]];
    }
  }

  lemma ScanOne(st: State, t: string, rest: string)
    requires t != "" && t[0] != '\\'
    ensures Scan(st, t + rest) == Scan(Take(st, t[0]), t[1..] + rest)
  {
    assert (t + rest)[1..] == t[1..] + rest;
  }

  lemma ScanTwo(st: State, t: string, rest: string)
    requires |t| >= 2 && t[0] == '\\'
    ensures Scan(st, t + rest) == Scan(TakeEscape(st, t[1..] + rest), t[2..] + rest)
  {
    assert (t + rest)[1..] == t[1..] + rest && (t + rest)[2..] == t[2..] + rest;
  }

  lemma Regrown(cur: string, t: string, k: nat)
    requires k <= |t|
    ensures cur + t[..k] + t[k..] == cur + t && (t[k..] == "" ==> cur + t[..k] == cur + t)
    ensures k == 1 ==> t[..k] == [t[0]]
  {
    assert t == t[..k] + t[k..];
  }

  lemma {:induction false} ScanInside(st: State, t: string, rest: string)
    requires st.inBracket && '\\' !in t && ']' !in t
    ensures Scan(st, t + rest) == Scan(if t == "" then st else st.(cur := st.cur + t, hasCur := true), rest)
    decreases |t|
  {
    if t == "" {
      assert t + rest == rest;
    } else {
      assert t[0] in t && forall c :: c in t[1..] ==> c in t;
      ScanOne(st, t, rest);
      ScanInside(Take(st, t[0]), t[1..], rest);
      Regrown(st.cur, t, 1);
    }
  }

  lemma {:induction false} DigitsArePlain(n: nat)
    ensures ']' !in Digits(n) && '\\' !in Digits(n) && AllDigits(Digits(n))
  {
    assert forall c :: c in Digits(n) ==> IsDigit(c);
  }

  /** Another token, after a dot unless it is the first. */
  lemma {:induction false} ScanDotted(st: State, tokens: seq<string>, t: string, rest: string)
    requires HasRead(st, tokens) && t != "" && Intact(t, rest == "")
    ensures var after := State(tokens, t, false, true);
      HasRead(after, tokens + [t]) &&
      Scan(st, (if tokens == [] then "" else ".") + t + rest) == Scan(after, rest)
  {
    if tokens == [] {
      assert "" + t + rest == t + rest && st.cur + t == t;
      ScanIntact(st, t, rest);
    } else {
      var s := "." + t + rest;
      assert s[0] == '.' && s[1..] == t + rest;
      var next := Take(st, '.');
      assert next == State(tokens, "", false, false);
      ScanIntact(next, t, rest);
      assert "" + t == t;
    }
  }

  /** Another token, in brackets. */
  lemma {:induction false} ScanBracketed(st: State, tokens: seq<string>, n: nat, rest: string)
    requires HasRead(st, tokens)
    ensures var after := State(tokens + [Digits(n)], "", false, false);
      HasRead(after, tokens + [Digits(n)]) && Scan(st, "[" + Digits(n) + "]" + rest) == Scan(after, rest)
  {
    var t := Digits(n);
    DigitsArePlain(n);
    var s := "[" + t + "]" + rest;
    assert s[0] == '[' && s[1..] == t + ("]" + rest);
    var open := Take(st, '[');
    assert open == State(tokens, "", true, false);
    ScanInside(open, t, "]" + rest);
    assert "" + t == t && ("]" + rest)[0] == ']' && ("]" + rest)[1..] == rest;
  }

  function BracketedRest(path: KeyPath, started: bool): string
    decreases |path|
  {
    if path == [] then "" else Bracketed(path[0], started) + BracketedRest(path[1..], true)
  }

  lemma {:induction false} Regroup(a: string, b: string, c: string)
    ensures (a + b) + c == a + (b + c)
  {
  }

  /** Keys that leave something written. */
  predicate Written(path: KeyPath) { forall i :: 0 <= i < |path| ==> path[i] != Name("") }

  lemma {:induction false} OmegaConfIsRest(s: string, path: KeyPath)
    requires Written(path)
    ensures OmegaConf(s, path) == s + BracketedRest(path, s != "")
    decreases |path|
  {
    if path == [] {
      assert s + "" == s;
    } else {
      var own := Bracketed(path[0], s != "");
      assert path[0] != Name("") && s + own != "";
      OmegaConfIsRest(s + own, path[1..]);
      Regroup(s, own, BracketedRest(path[1..], true));
    }
  }

  lemma {:induction false} FirstText(tokens: seq<string>, path: KeyPath)
    requires path != []
    ensures tokens + KeyTexts(path) == (tokens + [KeyText(path[0])]) + KeyTexts(path[1..])
  {
  }

  lemma {:induction false} SomethingFollows(path: KeyPath)
    requires path != []
    ensures BracketedRest(path, true) != ""
  {
  }

  lemma {:induction false} BracketedScans(st: State, tokens: seq<string>, path: KeyPath)
    requires HasRead(st, tokens) && tokens + KeyTexts(path) != [] && Written(path)
    requires forall i :: 0 <= i < |path| && path[i].Name? ==> Intact(path[i].s, i == |path| - 1)
    ensures Scan(st, BracketedRest(path, tokens != [])) == tokens + KeyTexts(path)
    decreases |path|
  {
    if path == [] {
      assert tokens + KeyTexts(path) == tokens;
    } else {
      var rest := BracketedRest(path[1..], true);
      FirstText(tokens, path);
      assert forall i :: 0 <= i < |path[1..]| ==> path[1..][i] == path[i + 1];
      assert path[0] != Name("");
      if path[1..] != [] {
        SomethingFollows(path[1..]);
      }
      match path[0] {
        case Name(t) =>
          ScanDotted(st, tokens, t, rest);
          BracketedScans(State(tokens, t, false, true), tokens + [t], path[1..]);
        case Index(n) =>
          ScanBracketed(st, tokens, n, rest);
          BracketedScans(State(tokens + [Digits(n)], "", false, false), tokens + [Digits(n)], path[1..]);
      }
    }
  }

  lemma {:induction false} WrittenReturns(path: KeyPath)
    requires path != [] && Written(path)
    requires forall i :: 0 <= i < |path| && path[i].Name? ==> Intact(path[i].s, i == |path| - 1)
    ensures Scan(START, OmegaConf("", path)) == KeyTexts(path)
  {
    var text, none := BracketedRest(path, false), [];
    OmegaConfIsRest("", path);
    assert "" + text == text;
    BracketedScans(START, none, path);
    assert none + KeyTexts(path) == KeyTexts(path);
  }

  lemma {:induction false} ReadableIsWritten(path: KeyPath)
    requires Readable(path) && path[0] != Name("")
    ensures Written(path) && ParseTokens(KeyTexts(path)) == path
    ensures forall i :: 0 <= i < |path| && path[i].Name? ==> Intact(path[i].s, i == |path| - 1)
  {
    assert forall i :: 0 <= i < |path| ==> TextReads(KeyTexts(path), i);
  }

  /** `to_omegaconf` comes back, for readable paths that do not start with an empty key. */
  lemma {:induction false} OmegaConfReturns(path: KeyPath)
    requires Readable(path) && (path[0] == Name("") ==> |path| == 1)
    ensures Parse(OmegaConf("", path)) == path
  {
    if path[0] == Name("") {
      assert path == [Name("")];
      EmptyKeyReturns();
    } else {
      ReadableIsWritten(path);
      WrittenReturns(path);
    }
  }

  lemma {:induction false} EmptyKeyReturns()
    ensures Parse(OmegaConf("", [Name("")])) == [Name("")]
  {
    assert [Name("")][1..] == [] && OmegaConf("", [Name("")]) == "";
    assert Scan(START, "") == [""];
  }

  // ---- dots: what is read of each text ---------------------------------------------------------------

  function DottedRest(texts: seq<string>): string
    decreases |texts|
  {
    if texts == [] then "" else "." + texts[0] + DottedRest(texts[1..])
  }

  lemma {:induction false} JoinIsRest(texts: seq<string>)
    requires texts != []
    ensures Join(texts, ".") == texts[0] + DottedRest(texts[1..])
    decreases |texts|
  {
    if |texts| > 1 {
      JoinIsRest(texts[1..]);
    }
  }

  /** Before text `i`, and after it. */
  function Ahead(texts: seq<string>, i: nat): State
    requires i <= |texts|
  {
    State(texts[..i], "", false, false)
  }

  function Behind(texts: seq<string>, i: nat): State
    requires i < |texts|
  {
    State(texts[..i], texts[i], false, texts[i] != "")
  }

  function After(texts: seq<string>, i: nat): string
    requires i < |texts|
  {
    DottedRest(texts[i + 1..])
  }

  lemma AfterText(texts: seq<string>, i: nat)
    requires i < |texts|
    ensures i == |texts| - 1 ==> After(texts, i) == ""
    ensures i < |texts| - 1 ==> After(texts, i) == "." + (texts[i + 1] + After(texts, i + 1))
  {
    if i < |texts| - 1 {
      assert texts[i + 1..][0] == texts[i + 1] && texts[i + 1..][1..] == texts[i + 2..];
    }
  }

  /** The dot after a text ends its token, unless there is none; so does the end. */
  lemma {:induction false} TextEnds(texts: seq<string>, i: nat)
    requires i < |texts|
    ensures i < |texts| - 1 && (texts[i] != "" || i == 0) ==>
      Scan(Behind(texts, i), After(texts, i)) == Scan(Ahead(texts, i + 1), texts[i + 1] + After(texts, i + 1))
    ensures i == |texts| - 1 ==>
      Scan(Behind(texts, i), After(texts, i)) == if texts[i] != "" || i == 0 then texts else texts[..i]
  {
    AfterText(texts, i);
    if i < |texts| - 1 {
      var rest := texts[i + 1] + After(texts, i + 1);
      ScanOne(Behind(texts, i), ".", rest);
      assert "."[1..] + rest == rest && texts[..i] + [texts[i]] == texts[..i + 1];
    } else {
      assert texts[..i] + [texts[i]] == texts;
    }
  }

  lemma {:induction false} TextsAreRead(texts: seq<string>, i: nat)
    requires i < |texts| && forall j :: i <= j < |texts| ==> TextReads(texts, j)
    ensures Scan(Ahead(texts, i), texts[i] + After(texts, i)) == texts
    decreases |texts| - i
  {
    assert TextReads(texts, i);
    AfterText(texts, i);
    ScanIntact(Ahead(texts, i), texts[i], After(texts, i));
    assert "" + texts[i] == texts[i];
    TextEnds(texts, i);
    if i < |texts| - 1 {
      TextsAreRead(texts, i + 1);
    }
  }

  // ---- and what is lost: every character that is no part of a token ends at most one ------------------------

  function Total(texts: seq<string>): nat {
    if texts == [] then 0 else |texts[0]| + Total(texts[1..])
  }

  lemma {:induction false} TotalPush(texts: seq<string>, t: string)
    ensures Total(texts + [t]) == Total(texts) + |t|
    decreases |texts|
  {
    if texts != [] {
      assert (texts + [t])[1..] == texts[1..] + [t];
      TotalPush(texts[1..], t);
    }
  }

  lemma {:induction false} TotalAt(texts: seq<string>, i: nat)
    requires i < |texts|
    ensures Total(texts) == Total(texts[..i]) + |texts[i]| + Total(texts[i + 1..])
    decreases i
  {
    if i == 0 {
      assert texts[..0] == [];
    } else {
      assert texts[1..][..i - 1] == texts[..i][1..] && texts[1..][i - 1] == texts[i] &&
        texts[1..][i..] == texts[i + 1..];
      TotalAt(texts[1..], i - 1);
    }
  }

  function Weight(st: State): nat { Total(st.tokens) + |st.tokens| + |st.cur| }

  lemma {:induction false} TakeWeighs(st: State, c: char)
    ensures Weight(Take(st, c)) <= Weight(st) + 1 && st.tokens <= Take(st, c).tokens
  {
    TotalPush(st.tokens, st.cur);
  }

  lemma {:induction false} ScanWeighs(st: State, s: string)
    ensures Total(Scan(st, s)) + |Scan(st, s)| <= Weight(st) + |s| + 1 && st.tokens <= Scan(st, s)
    decreases |s|
  {
    if s == "" {
      TotalPush(st.tokens, st.cur);
    } else if s[0] != '\\' {
      TakeWeighs(st, s[0]);
      ScanWeighs(Take(st, s[0]), s[1..]);
    } else {
      ScanWeighs(TakeEscape(st, s[1..]), if |s| == 1 then "" else s[2..]);
    }
  }

  lemma {:induction false} DottedRestWeighs(texts: seq<string>)
    ensures |DottedRest(texts)| == Total(texts) + |texts|
  {
    if texts != [] {
      DottedRestWeighs(texts[1..]);
    }
  }

  /** In the middle of text `i`. */
  function Within(texts: seq<string>, i: nat, k: nat): State
    requires i < |texts| && k <= |texts[i]|
  {
    State(texts[..i], texts[i][..k], false, k > 0)
  }

  /** If all texts come out there, no character is lost on the way. */
  lemma {:induction false} NothingToLose(texts: seq<string>, i: nat, k: nat)
    requires i < |texts| && k <= |texts[i]|
    ensures Weight(Within(texts, i, k)) + |texts[i][k..] + After(texts, i)| + 1 == Total(texts) + |texts|
  {
    TotalAt(texts, i);
    DottedRestWeighs(texts[i + 1..]);
  }

  lemma {:induction false} TokenTooShort(texts: seq<string>, i: nat, k: nat, bracket: bool, s: string)
    requires i < |texts| && k < |texts[i]|
    ensures Scan(State(texts[..i] + [texts[i][..k]], "", bracket, false), s) != texts
  {
    var st := State(texts[..i] + [texts[i][..k]], "", bracket, false);
    ScanWeighs(st, s);
    assert st.tokens[i] == texts[i][..k];
  }

  lemma {:induction false} CharacterLost(texts: seq<string>, i: nat, k: nat, st: State, s: string)
    requires i < |texts| && k <= |texts[i]|
    requires Weight(st) + |s| < Weight(Within(texts, i, k)) + |texts[i][k..] + After(texts, i)|
    ensures Scan(st, s) != texts
  {
    NothingToLose(texts, i, k);
    ScanWeighs(st, s);
  }

  /** From the middle of a text on: it must be intact, and is then read to its end. */
  lemma {:induction false} RestIsIntact(texts: seq<string>, i: nat, k: nat)
    requires i < |texts| && k <= |texts[i]|
    requires Scan(Within(texts, i, k), texts[i][k..] + After(texts, i)) == texts
    ensures Intact(texts[i][k..], i == |texts| - 1)
    ensures Scan(Behind(texts, i), After(texts, i)) == texts
    decreases |texts[i]| - k
  {
    var t, st, rest := texts[i], Within(texts, i, k), After(texts, i);
    if k == |t| {
      assert t[k..] + rest == rest && t[..k] == t;
    } else if t[k] == '\\' {
      BackslashIsIntact(texts, i, k);
    } else {
      ScanOne(st, t[k..], rest);
      assert t[k..][1..] == t[k + 1..] && t[..k] + [t[k]] == t[..k + 1];
      if t[k] == '.' || t[k] == '[' {
        LostHere(texts, i, k);
      } else {
        RestIsIntact(texts, i, k + 1);
      }
    }
  }

  lemma {:induction false} LostHere(texts: seq<string>, i: nat, k: nat)
    requires i < |texts| && k < |texts[i]| && texts[i][k] in ".["
    ensures Scan(Take(Within(texts, i, k), texts[i][k]), texts[i][k + 1..] + After(texts, i)) != texts
  {
    var st, rest := Within(texts, i, k), texts[i][k + 1..] + After(texts, i);
    var next := Take(st, texts[i][k]);
    if next.tokens == texts[..i] {
      CharacterLost(texts, i, k, next, rest);
    } else {
      TokenTooShort(texts, i, k, next.inBracket, rest);
    }
  }

  lemma {:induction false} BackslashIsIntact(texts: seq<string>, i: nat, k: nat)
    requires i < |texts| && k < |texts[i]| && texts[i][k] == '\\'
    requires Scan(Within(texts, i, k), texts[i][k..] + After(texts, i)) == texts
    ensures Intact(texts[i][k..], i == |texts| - 1)
    ensures Scan(Behind(texts, i), After(texts, i)) == texts
    decreases |texts[i]| - k, 0
  {
    var t, st, rest := texts[i], Within(texts, i, k), After(texts, i);
    var s := t[k..] + rest;
    AfterText(texts, i);
    assert s[0] == '\\' && s[1..] == t[k + 1..] + rest;
    if |s| == 1 {
      assert rest == "" && t == t[..k] + "\\" && t[k..] == "\\";
    } else {
      var next := TakeEscape(st, s[1..]);
      if Escapes(s[1]) {
        CharacterLost(texts, i, k, next, s[2..]);
      } else {
        assert k + 1 < |t|;
        assert s[1] == t[k + 1] && s[2..] == t[k + 2..] + rest && t[k..][2..] == t[k + 2..];
        assert t[..k] + ['\\', t[k + 1]] == t[..k + 2];
        RestIsIntact(texts, i, k + 2);
      }
    }
  }

  lemma {:induction false} AllTextsRead(texts: seq<string>, i: nat)
    requires i < |texts| && Scan(Ahead(texts, i), texts[i] + After(texts, i)) == texts
    ensures forall j :: i <= j < |texts| ==> TextReads(texts, j)
    decreases |texts| - i
  {
    assert texts[i][..0] == "" && texts[i][0..] == texts[i];
    RestIsIntact(texts, i, 0);
    TextEnds(texts, i);
    if i < |texts| - 1 {
      if texts[i] == "" && i > 0 {
        AfterText(texts, i);
        var rest := texts[i + 1] + After(texts, i + 1);
        ScanOne(Behind(texts, i), ".", rest);
        assert "."[1..] + rest == rest;
        CharacterLost(texts, i, 0, Behind(texts, i), rest);
      }
      AllTextsRead(texts, i + 1);
    }
  }

  /** The texts come out of the splitter exactly when each one is read as it is. */
  lemma {:induction false} SplitsBack(texts: seq<string>)
    requires texts != []
    ensures Scan(START, Join(texts, ".")) == texts <==> forall i :: 0 <= i < |texts| ==> TextReads(texts, i)
  {
    JoinIsRest(texts);
    assert Ahead(texts, 0) == START;
    if Scan(START, Join(texts, ".")) == texts {
      AllTextsRead(texts, 0);
    }
    if forall i :: 0 <= i < |texts| ==> TextReads(texts, i) {
      TextsAreRead(texts, 0);
    }
  }

  // ---- keys and their texts -------------------------------------------------------------------------------

  /** A token that is read as a key is no shorter than the key's text, and is that text
      when it is as short. */
  lemma {:induction false} TextIsShortest(t: string)
    ensures var own := KeyText(ParseToken(t)); |own| <= |t| && (|own| == |t| ==> own == t)
  {
    if ParseToken(t).Index? {
      DigitsAreShortest(t);
    }
  }

  lemma {:induction false} TextsAreShortest(tokens: seq<string>)
    ensures var own := KeyTexts(ParseTokens(tokens));
      Total(own) <= Total(tokens) && (Total(own) == Total(tokens) ==> own == tokens)
  {
    if tokens != [] {
      var own := KeyTexts(ParseTokens(tokens));
      TextIsShortest(tokens[0]);
      TextsAreShortest(tokens[1..]);
      assert own[1..] == KeyTexts(ParseTokens(tokens[1..]));
      assert tokens == [tokens[0]] + tokens[1..] && own == [own[0]] + own[1..];
    }
  }

  /** `to_dotted` comes back exactly for readable paths. */
  lemma {:induction false} DottedReturns(path: KeyPath)
    ensures Parse(Dotted(path)) == path <==> Readable(path)
  {
    var texts := KeyTexts(path);
    if path == [] {
      assert Scan(START, "") == [""];
    } else {
      SplitsBack(texts);
      var tokens := Scan(START, Dotted(path));
      if Parse(Dotted(path)) == path {
        JoinIsRest(texts);
        DottedRestWeighs(texts[1..]);
        ScanWeighs(START, Dotted(path));
        TextsAreShortest(tokens);
      } else if tokens == texts {
        assert ParseTokens(texts) != path;
      }
    }
  }

  /** Both printed forms of a readable path come back. */
  lemma {:induction false} RoundTrip(path: KeyPath)
    requires Readable(path)
    ensures Parse(Dotted(path)) == path
    ensures path[0] != Name("") || |path| == 1 ==> Parse(OmegaConf("", path)) == path
  {
    DottedReturns(path);
    if path[0] != Name("") || |path| == 1 {
      OmegaConfReturns(path);
    }
  }

  /** The root does not come back: its text is that of a single empty key. */
  lemma {:induction false} RootDoesNotComeBack()
    ensures Parse(OmegaConf("", [])) == [Name("")] == Parse(Dotted([]))
  {
    assert KeyTexts([]) == [];
    assert Scan(START, "") == [""];
  }
}

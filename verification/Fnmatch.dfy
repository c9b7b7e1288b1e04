/**
 The glob matcher behind class wildcards (`fnmatch` in inventory.rs).

 `Tokenize` and `FnMatch` are the two loops of the program. `Matches` is the
 independent reading of a pattern: some assignment of runs of characters to
 the `*` tokens makes the name equal, token by token.
*/
module Fnmatch {
  import opened Wrappers

  datatype Tok = Star | One | Set(negate: bool, ranges: seq<(char, char)>) | Lit(c: char)

  /** One character against one token that is not a `*`. */
  predicate Fits(t: Tok, c: char) {
    match t
    case Star => false
    case One => true
    case Lit(l) => l == c
    case Set(negate, ranges) =>
      InRanges(ranges, c) != negate
  }

  predicate InRanges(ranges: seq<(char, char)>, c: char) {
    exists r :: r in ranges && r.0 <= c <= r.1
  }

  // ---- tokens -----------------------------------------------------------

  /** The first `]` at or after `j`, or the length of the pattern. */
  function Closing(p: string, j: nat): (r: nat)
    requires j <= |p|
    ensures j <= r <= |p|
    ensures r < |p| ==> p[r] == ']'
    ensures forall k :: j <= k < r ==> p[k] != ']'
    decreases |p| - j
  {
    if j < |p| && p[j] != ']' then Closing(p, j + 1) else j
  }

  /** Where the search for the closing bracket of a set opened at `i` starts:
      a leading `!` and a `]` right after it belong to the set. */
  function SetStart(p: string, i: nat): (j: nat)
    requires i < |p|
    ensures i < j <= |p|
  {
    var j := if i + 1 < |p| && p[i + 1] == '!' then i + 2 else i + 1;
    if j < |p| && p[j] == ']' then j + 1 else j
  }

  /** The ranges written between the brackets, from index `k` on: `a-z` takes three
      characters, and contributes nothing when reversed; anything else stands for itself. */
  function Ranges(body: string, k: nat): seq<(char, char)>
    requires k <= |body|
    decreases |body| - k
  {
    if k == |body| then [] else RangeAt(body, k) + Ranges(body, k + Width(body, k))
  }

  /** How many characters the range at `k` takes. */
  function Width(body: string, k: nat): (w: nat)
    requires k < |body|
    ensures 0 < w <= |body| - k
  {
    if k + 2 < |body| && body[k + 1] == '-' then 3 else 1
  }

  function RangeAt(body: string, k: nat): seq<(char, char)>
    requires k < |body|
  {
    if Width(body, k) == 1 then [(body[k], body[k])]
    else if body[k] <= body[k + 2] then [(body[k], body[k + 2])]
    else []
  }

  /** The token written at index `i`, and the index after it. */
  function TokenAt(p: string, i: nat): (r: (Tok, nat))
    requires i < |p|
    ensures i < r.1 <= |p|
  {
    if p[i] == '*' then (Star, i + 1)
    else if p[i] == '?' then (One, i + 1)
    else if p[i] == '[' then
      var j := Closing(p, SetStart(p, i));
      if j == |p| then (Lit('['), i + 1)
      else
        var negate := p[i + 1] == '!';
        (Set(negate, Ranges(p[if negate then i + 2 else i + 1..j], 0)), j + 1)
    else (Lit(p[i]), i + 1)
  }

  /** The tokens of the pattern from index `i` on. */
  function Tokens(p: string, i: nat): seq<Tok>
    requires i <= |p|
    decreases |p| - i
  {
    if i == |p| then [] else [TokenAt(p, i).0] + Tokens(p, TokenAt(p, i).1)
  }

  /** A character is in a bracket body, read left to right as the program does. */
  predicate InBody(body: string, k: nat, c: char)
    requires k <= |body|
    decreases |body| - k
  {
    k < |body| &&
    if k + 2 < |body| && body[k + 1] == '-' then body[k] <= c <= body[k + 2] || InBody(body, k + 3, c)
    else body[k] == c || InBody(body, k + 1, c)
  }

  /** Reversed ranges are empty, so dropping them does not change the set. */
  lemma {:induction false} RangesAreTheBody(body: string, k: nat, negate: bool, c: char)
    requires k <= |body|
    ensures Fits(Set(negate, Ranges(body, k)), c) <==> InBody(body, k, c) != negate
    decreases |body| - k
  {
    if k < |body| {
      RangesAreTheBody(body, k + Width(body, k), negate, c);
      InEither(RangeAt(body, k), Ranges(body, k + Width(body, k)), c);
      InOne(RangeAt(body, k), c);
    }
  }

  lemma InEither(a: seq<(char, char)>, b: seq<(char, char)>, c: char)
    ensures InRanges(a + b, c) <==> InRanges(a, c) || InRanges(b, c)
  {
    assert forall r :: r in a + b <==> r in a || r in b;
  }

  lemma InOne(a: seq<(char, char)>, c: char)
    requires |a| <= 1
    ensures InRanges(a, c) <==> |a| == 1 && a[0].0 <= c <= a[0].1
  {
    if |a| == 1 { assert a[0] in a; }
  }

  method NextRange(body: string, k: nat) returns (one: seq<(char, char)>, width: nat)
    requires k < |body|
    ensures one == RangeAt(body, k) && width == Width(body, k)
  {
    if k + 2 < |body| && body[k + 1] == '-' {
      one := if body[k] <= body[k + 2] then [(body[k], body[k + 2])] else [];
      width := 3;
    } else {
      one, width := [(body[k], body[k])], 1;
    }
  }

  lemma PushRange(ranges: seq<(char, char)>, body: string, k: nat)
    requires k < |body|
    ensures (ranges + RangeAt(body, k)) + Ranges(body, k + Width(body, k)) == ranges + Ranges(body, k)
  {
    assert Ranges(body, k) == RangeAt(body, k) + Ranges(body, k + Width(body, k));
  }

  method ParseRanges(body: string) returns (ranges: seq<(char, char)>)
    ensures ranges == Ranges(body, 0)
  {
    ranges := [];
    var k := 0;
    while k < |body|
      invariant 0 <= k <= |body|
      invariant ranges + Ranges(body, k) == Ranges(body, 0)
    {
      var one, width := NextRange(body, k);
      PushRange(ranges, body, k);
      ranges := ranges + one;
      k := k + width;
    }
  }

  /** The bracket arm of the tokenising loop: the closing bracket, if any. */
  method ParseSet(p: string, i: nat) returns (tok: Tok, next: nat)
    requires i < |p| && p[i] == '['
    ensures (tok, next) == TokenAt(p, i)
  {
    var j := i + 1;
    if j < |p| && p[j] == '!' { j := j + 1; }
    if j < |p| && p[j] == ']' { j := j + 1; }
    assert j == SetStart(p, i);
    while j < |p| && p[j] != ']'
      invariant i < j <= |p|
      invariant Closing(p, j) == Closing(p, SetStart(p, i))
    {
      j := j + 1;
    }
    assert j == Closing(p, SetStart(p, i));
    if j >= |p| {
      tok, next := Lit('['), i + 1;
    } else {
      var negate := p[i + 1] == '!';
      var ranges := ParseRanges(p[if negate then i + 2 else i + 1..j]);
      tok, next := Set(negate, ranges), j + 1;
    }
  }

  method NextToken(p: string, i: nat) returns (tok: Tok, next: nat)
    requires i < |p|
    ensures (tok, next) == TokenAt(p, i)
  {
    if p[i] == '*' {
      tok, next := Star, i + 1;
    } else if p[i] == '?' {
      tok, next := One, i + 1;
    } else if p[i] == '[' {
      tok, next := ParseSet(p, i);
    } else {
      tok, next := Lit(p[i]), i + 1;
    }
  }

  lemma PushToken(toks: seq<Tok>, p: string, i: nat, tok: Tok, next: nat)
    requires i < |p| && (tok, next) == TokenAt(p, i)
    ensures (toks + [tok]) + Tokens(p, next) == toks + Tokens(p, i)
  {
    assert Tokens(p, i) == [tok] + Tokens(p, next);
  }

  method Tokenize(p: string) returns (toks: seq<Tok>)
    ensures toks == Tokens(p, 0)
  {
    toks := [];
    var i := 0;
    while i < |p|
      invariant 0 <= i <= |p|
      invariant toks + Tokens(p, i) == Tokens(p, 0)
    {
      var tok, next := NextToken(p, i);
      PushToken(toks, p, i, tok, next);
      toks := toks + [tok];
      i := next;
    }
  }

  // ---- what a pattern means ----------------------------------------------

  predicate AllStars(toks: seq<Tok>) {
    forall i :: 0 <= i < |toks| ==> toks[i].Star?
  }

  /** `runs[i]` is the run of characters token `i` stands for. */
  predicate Assigned(toks: seq<Tok>, runs: seq<string>, name: string)
    decreases |toks|
  {
    if toks == [] then runs == [] && name == []
    else
      && runs != []
      && runs[0] <= name
      && (!toks[0].Star? ==> |runs[0]| == 1 && Fits(toks[0], runs[0][0]))
      && Assigned(toks[1..], runs[1..], name[|runs[0]|..])
  }

  /** Some assignment of runs to the tokens spells the name. */
  ghost predicate Matches(toks: seq<Tok>, name: string) {
    exists runs :: Assigned(toks, runs, name)
  }

  /** The same relation, unfolded one character at a time. */
  predicate Unfolded(toks: seq<Tok>, name: string)
    decreases |toks| + |name|
  {
    if toks == [] then name == []
    else if toks[0].Star? then
      Unfolded(toks[1..], name) || (name != [] && Unfolded(toks, name[1..]))
    else name != [] && Fits(toks[0], name[0]) && Unfolded(toks[1..], name[1..])
  }

  /** A pattern accepts a name. */
  predicate Accepts(pattern: string, name: string) {
    Unfolded(Tokens(pattern, 0), name)
  }

  lemma {:induction false} UnfoldedHasRuns(toks: seq<Tok>, name: string)
    requires Unfolded(toks, name)
    ensures Matches(toks, name)
    decreases |toks| + |name|
  {
    if toks == [] {
      assert Assigned(toks, [], name);
    } else if toks[0].Star? {
      if Unfolded(toks[1..], name) {
        UnfoldedHasRuns(toks[1..], name);
        var runs :| Assigned(toks[1..], runs, name);
        var all := [""] + runs;
        assert all[1..] == runs && name[0..] == name;
        assert Assigned(toks, all, name);
      } else {
        UnfoldedHasRuns(toks, name[1..]);
        var runs :| Assigned(toks, runs, name[1..]);
        var all := [[name[0]] + runs[0]] + runs[1..];
        assert all[1..] == runs[1..] && name[|all[0]|..] == name[1..][|runs[0]|..];
        assert all[0] <= name by { assert name == [name[0]] + name[1..]; }
        assert Assigned(toks, all, name);
      }
    } else {
      UnfoldedHasRuns(toks[1..], name[1..]);
      var runs :| Assigned(toks[1..], runs, name[1..]);
      var all := [[name[0]]] + runs;
      assert all[1..] == runs;
      assert Assigned(toks, all, name);
    }
  }

  lemma {:induction false} RunsUnfold(toks: seq<Tok>, runs: seq<string>, name: string)
    requires Assigned(toks, runs, name)
    ensures Unfolded(toks, name)
    decreases |toks| + |name|
  {
    if toks != [] {
      if toks[0].Star? && runs[0] != [] {
        var shorter := [runs[0][1..]] + runs[1..];
        assert shorter[1..] == runs[1..] && name[1..][|shorter[0]|..] == name[|runs[0]|..];
        assert shorter[0] <= name[1..];
        RunsUnfold(toks, shorter, name[1..]);
      } else {
        assert name[0..] == name;
        RunsUnfold(toks[1..], runs[1..], name[|runs[0]|..]);
      }
    }
  }

  /** The two readings agree. */
  lemma UnfoldedIsMatches(toks: seq<Tok>, name: string)
    ensures Unfolded(toks, name) <==> Matches(toks, name)
  {
    if Unfolded(toks, name) {
      UnfoldedHasRuns(toks, name);
    }
    if Matches(toks, name) {
      var runs :| Assigned(toks, runs, name);
      RunsUnfold(toks, runs, name);
    }
  }

  // ---- the greedy loop ---------------------------------------------------

  /** Tokens that consume exactly one character. */
  function Fixed(toks: seq<Tok>): nat {
    if toks == [] then 0 else (if toks[0].Star? then 0 else 1) + Fixed(toks[1..])
  }

  lemma {:induction false} NeedsFixed(toks: seq<Tok>, name: string)
    requires Unfolded(toks, name)
    ensures Fixed(toks) <= |name|
    decreases |toks| + |name|
  {
    if toks != [] {
      if !toks[0].Star? {
        NeedsFixed(toks[1..], name[1..]);
      } else if Unfolded(toks[1..], name) {
        NeedsFixed(toks[1..], name);
      } else {
        NeedsFixed(toks, name[1..]);
      }
    }
  }

  /** A `*` that matches a suffix matches any longer one. */
  lemma {:induction false} StarGrows(toks: seq<Tok>, name: string, k: nat)
    requires toks != [] && toks[0].Star? && k <= |name|
    requires Unfolded(toks, name[k..])
    ensures Unfolded(toks, name)
  {
    if k == 0 {
      assert name[0..] == name;
    } else {
      assert name[1..][k - 1..] == name[k..];
      StarGrows(toks, name[1..], k - 1);
    }
  }

  /** `seg` holds no `*` and matches the front of `name`. */
  predicate Spells(seg: seq<Tok>, name: string) {
    |seg| <= |name| && forall i :: 0 <= i < |seg| ==> Fits(seg[i], name[i])
  }

  /** Past a segment without `*` there is only one way to go on. */
  lemma {:induction false} SegmentIsForced(toks: seq<Tok>, name: string, k: nat)
    requires k <= |toks| && Spells(toks[..k], name)
    ensures Unfolded(toks, name) <==> Unfolded(toks[k..], name[k..])
    decreases k
  {
    if k == 0 {
      assert toks[0..] == toks && name[0..] == name;
    } else {
      assert toks[..k][0] == toks[0];
      forall i | 0 <= i < k - 1 ensures Fits(toks[1..][..k - 1][i], name[1..][i]) {
        assert toks[..k][i + 1] == toks[i + 1];
      }
      SegmentIsForced(toks[1..], name[1..], k - 1);
      assert toks[1..][k - 1..] == toks[k..] && name[1..][k - 1..] == name[k..];
    }
  }

  /** Wherever the first `*` ends, the segment puts the second one at least `k - 1` in. */
  lemma {:induction false} ShiftedStar(toks: seq<Tok>, k: nat, name: string) returns (d: nat)
    requires 0 < k < |toks| && toks[0].Star? && toks[k].Star?
    requires forall i :: 0 < i < k ==> !toks[i].Star?
    requires Unfolded(toks, name)
    ensures k - 1 <= d <= |name| && Unfolded(toks[k..], name[d..])
    decreases |name|
  {
    if Unfolded(toks[1..], name) {
      StarAfterSegment(toks[1..], k - 1, name);
      assert toks[1..][k - 1..] == toks[k..];
      d := k - 1;
    } else {
      var e := ShiftedStar(toks, k, name[1..]);
      assert name[1..][e..] == name[e + 1..];
      d := e + 1;
    }
  }

  lemma {:induction false} StarAfterSegment(toks: seq<Tok>, k: nat, name: string)
    requires k < |toks| && forall i :: 0 <= i < k ==> !toks[i].Star?
    requires Unfolded(toks, name)
    ensures k <= |name| && Unfolded(toks[k..], name[k..])
    decreases k
  {
    if k == 0 {
      assert toks[0..] == toks && name[0..] == name;
    } else {
      StarAfterSegment(toks[1..], k - 1, name[1..]);
      assert toks[1..][k - 1..] == toks[k..] && name[1..][k - 1..] == name[k..];
    }
  }

  /** A run of `*`s accepts exactly what is left when nothing else is needed. */
  lemma {:induction false} StarsAcceptAnything(toks: seq<Tok>)
    ensures Unfolded(toks, "") <==> AllStars(toks)
  {
    if toks != [] {
      StarsAcceptAnything(toks[1..]);
      if AllStars(toks[1..]) && toks[0].Star? {
        forall i | 0 <= i < |toks| ensures toks[i].Star? {
          assert i > 0 ==> toks[i] == toks[1..][i - 1];
        }
      }
    }
  }

  /** What the loop knows after a `*` at `st` was set to end at `sc`: the whole
      question is whether the rest from that `*` on matches from `sc`, and the
      tokens since then spell the characters since then. */
  ghost predicate Committed(toks: seq<Tok>, n: string, st: nat, sc: nat, t: nat, c: nat) {
    && st < t <= |toks| && sc <= c <= |n| && t - st - 1 == c - sc
    && toks[st].Star?
    && (forall i :: st < i < t ==> !toks[i].Star?)
    && Spells(toks[st + 1..t], n[sc..])
    && (Unfolded(toks, n) <==> Unfolded(toks[st..], n[sc..]))
  }

  lemma {:induction false} TooFew(toks: seq<Tok>, k: nat)
    requires k <= |toks| && forall i :: 0 <= i < k ==> !toks[i].Star?
    ensures Fixed(toks) >= k
  {
    if k > 0 {
      TooFew(toks[1..], k - 1);
    }
  }

  /** When a leading `*` has to take at least one character, the other tokens fit in fewer. */
  lemma {:induction false} LongerStar(toks: seq<Tok>, name: string)
    requires toks != [] && toks[0].Star? && Unfolded(toks, name) && !Unfolded(toks[1..], name)
    ensures Fixed(toks[1..]) < |name|
    decreases |name|
  {
    if Unfolded(toks[1..], name[1..]) {
      NeedsFixed(toks[1..], name[1..]);
    } else {
      LongerStar(toks, name[1..]);
    }
  }

  /** Before the first `*` everything so far is forced. */
  ghost predicate Forced(toks: seq<Tok>, n: string, t: nat) {
    && t <= |toks| && t <= |n|
    && (forall i :: 0 <= i < t ==> !toks[i].Star?)
    && Spells(toks[..t], n)
  }

  ghost predicate Progress(toks: seq<Tok>, n: string, star: Option<(nat, nat)>, t: nat, c: nat) {
    match star
    case None => t == c && Forced(toks, n, t)
    case Some(s) => Committed(toks, n, s.0, s.1, t, c)
  }

  /** Meeting a second `*` while the first one is as short as it can be. */
  lemma {:induction false} SecondStar(toks: seq<Tok>, n: string, st: nat, sc: nat, t: nat, c: nat)
    requires Committed(toks, n, st, sc, t, c) && t < |toks| && toks[t].Star?
    ensures Unfolded(toks, n) <==> Unfolded(toks[t..], n[c..])
  {
    var rest, name, k := toks[st..], n[sc..], t - st;
    assert rest[k..] == toks[t..] && name[c - sc..] == n[c..];
    assert rest[0] == toks[st] && rest[k] == toks[t];
    if Unfolded(rest, name) {
      assert forall i :: 0 < i < k ==> !rest[i].Star? by {
        assert forall i :: 0 < i < k ==> rest[i] == toks[st + i];
      }
      var d := ShiftedStar(rest, k, name);
      assert name[c - sc..][d - (c - sc)..] == name[d..];
      StarGrows(rest[k..], name[c - sc..], d - (c - sc));
    }
    if Unfolded(toks[t..], n[c..]) {
      assert rest[1..][..k - 1] == toks[st + 1..t];
      assert rest[1..][k - 1..] == toks[t..];
      SegmentIsForced(rest[1..], name, k - 1);
    }
  }

  /** The current character does not fit: the `*` has to take one more. */
  lemma {:induction false} TakeOneMore(toks: seq<Tok>, n: string, st: nat, sc: nat, t: nat, c: nat)
    requires Committed(toks, n, st, sc, t, c) && c < |n|
    requires t == |toks| || (!toks[t].Star? && !Fits(toks[t], n[c]))
    ensures Progress(toks, n, Some((st, sc + 1)), st + 1, sc + 1)
  {
    var rest, name, k := toks[st..], n[sc..], t - st - 1;
    assert rest[1..][..k] == toks[st + 1..t] && rest[1..][k..] == toks[t..];
    assert name[k..] == n[c..] && name[1..] == n[sc + 1..];
    SegmentIsForced(rest[1..], name, k);
    assert toks[st + 1..st + 1] == [];
  }

  /** All of the name is used up. */
  lemma {:induction false} NameExhausted(toks: seq<Tok>, n: string, st: nat, sc: nat, t: nat, c: nat)
    requires Committed(toks, n, st, sc, t, c) && c == |n|
    ensures Unfolded(toks, n) <==> AllStars(toks[t..])
  {
    var rest, name, k := toks[st..], n[sc..], t - st - 1;
    assert rest[1..][..k] == toks[st + 1..t] && rest[1..][k..] == toks[t..];
    assert name[k..] == "";
    SegmentIsForced(rest[1..], name, k);
    StarsAcceptAnything(toks[t..]);
    if Unfolded(rest, name) && !Unfolded(rest[1..], name) {
      // The `*` would have to take more, leaving too few characters.
      TooFew(rest[1..], k);
      LongerStar(rest, name);
    }
  }

  /** The first arm of the loop: a `*` is remembered and first tried empty. */
  lemma {:induction false} OnStar(toks: seq<Tok>, n: string, star: Option<(nat, nat)>, t: nat, c: nat)
    requires Progress(toks, n, star, t, c) && t < |toks| && toks[t].Star?
    ensures Progress(toks, n, Some((t, c)), t + 1, c)
  {
    if star.Some? {
      SecondStar(toks, n, star.value.0, star.value.1, t, c);
    } else {
      SegmentIsForced(toks, n, t);
    }
    assert toks[t + 1..t + 1] == [];
  }

  /** The second arm: the character fits. */
  lemma OnFit(toks: seq<Tok>, n: string, star: Option<(nat, nat)>, t: nat, c: nat)
    requires Progress(toks, n, star, t, c) && t < |toks| && c < |n| && Fits(toks[t], n[c])
    ensures Progress(toks, n, star, t + 1, c + 1)
  {
    if star.Some? {
      var (st, sc) := star.value;
      assert toks[st + 1..t + 1] == toks[st + 1..t] + [toks[t]];
      assert n[sc..][c - sc] == n[c];
    } else {
      assert toks[..t + 1] == toks[..t] + [toks[t]];
    }
  }

  /** No arm applies: nothing can match. */
  lemma OnMismatch(toks: seq<Tok>, n: string, t: nat)
    requires Forced(toks, n, t) && t < |n|
    requires t == |toks| || (!toks[t].Star? && !Fits(toks[t], n[t]))
    ensures !Unfolded(toks, n)
  {
    SegmentIsForced(toks, n, t);
  }

  lemma OnEnd(toks: seq<Tok>, n: string, star: Option<(nat, nat)>, t: nat)
    requires Progress(toks, n, star, t, |n|)
    ensures Unfolded(toks, n) <==> AllStars(toks[t..])
  {
    if star.Some? {
      NameExhausted(toks, n, star.value.0, star.value.1, t, |n|);
    } else {
      SegmentIsForced(toks, n, t);
      assert n[t..] == "";
      StarsAcceptAnything(toks[t..]);
    }
  }

  ghost predicate InBounds(toks: seq<Tok>, n: string, star: Option<(nat, nat)>, t: nat, c: nat) {
    t <= |toks| && c <= |n| && (star.Some? ==> star.value.0 < |toks| && star.value.1 <= c)
  }

  /** What the loop answers from a given state on. */
  predicate GreedyFrom(toks: seq<Tok>, n: string, star: Option<(nat, nat)>, t: nat, c: nat)
    requires InBounds(toks, n, star, t, c)
    decreases |n| - (if star.Some? then star.value.1 else 0), |toks| - t
  {
    if c == |n| then AllStars(toks[t..])
    else if t < |toks| && toks[t].Star? then GreedyFrom(toks, n, Some((t, c)), t + 1, c)
    else if t < |toks| && Fits(toks[t], n[c]) then GreedyFrom(toks, n, star, t + 1, c + 1)
    else match star
      case Some(s) => GreedyFrom(toks, n, Some((s.0, s.1 + 1)), s.0 + 1, s.1 + 1)
      case None => false
  }

  /** Revisiting only the last `*` never misses a match. */
  lemma {:induction false} GreedyIsExact(toks: seq<Tok>, n: string, star: Option<(nat, nat)>, t: nat, c: nat)
    requires InBounds(toks, n, star, t, c) && Progress(toks, n, star, t, c)
    ensures GreedyFrom(toks, n, star, t, c) <==> Unfolded(toks, n)
    decreases |n| - (if star.Some? then star.value.1 else 0), |toks| - t, 1
  {
    if c == |n| {
      OnEnd(toks, n, star, t);
    } else if t < |toks| && toks[t].Star? {
      StarTaken(toks, n, star, t, c);
    } else if t < |toks| && Fits(toks[t], n[c]) {
      OnFit(toks, n, star, t, c);
      GreedyIsExact(toks, n, star, t + 1, c + 1);
    } else if star.Some? {
      StarWidened(toks, n, star.value.0, star.value.1, t, c);
    } else {
      OnMismatch(toks, n, t);
    }
  }

  lemma {:induction false} StarTaken(toks: seq<Tok>, n: string, star: Option<(nat, nat)>, t: nat, c: nat)
    requires InBounds(toks, n, star, t, c) && Progress(toks, n, star, t, c)
    requires c < |n| && t < |toks| && toks[t].Star?
    ensures GreedyFrom(toks, n, star, t, c) <==> Unfolded(toks, n)
    decreases |n| - (if star.Some? then star.value.1 else 0), |toks| - t, 0
  {
    OnStar(toks, n, star, t, c);
    GreedyIsExact(toks, n, Some((t, c)), t + 1, c);
  }

  lemma {:induction false} StarWidened(toks: seq<Tok>, n: string, st: nat, sc: nat, t: nat, c: nat)
    requires st < |toks| && sc <= c < |n| && t <= |toks| && Committed(toks, n, st, sc, t, c)
    requires t == |toks| || (!toks[t].Star? && !Fits(toks[t], n[c]))
    ensures GreedyFrom(toks, n, Some((st, sc)), t, c) <==> Unfolded(toks, n)
    decreases |n| - sc, |toks| - t, 0
  {
    TakeOneMore(toks, n, st, sc, t, c);
    GreedyIsExact(toks, n, Some((st, sc + 1)), st + 1, sc + 1);
  }

  /** `fnmatch`: the tokens, then the loop that revisits only the last `*`. */
  method FnMatch(pattern: string, n: string) returns (ok: bool)
    ensures ok <==> Matches(Tokens(pattern, 0), n)
    ensures ok <==> Accepts(pattern, n)
  {
    var toks := Tokenize(pattern);
    UnfoldedIsMatches(toks, n);
    GreedyIsExact(toks, n, None, 0, 0);
    var t, c := 0, 0;
    var star: Option<(nat, nat)> := None;
    while c < |n|
      invariant InBounds(toks, n, star, t, c)
      invariant GreedyFrom(toks, n, star, t, c) == GreedyFrom(toks, n, None, 0, 0)
      decreases |n| - (if star.Some? then star.value.1 else 0), |toks| - t
    {
      if t < |toks| && toks[t].Star? {
        star := Some((t, c));
        t := t + 1;
      } else if t < |toks| && Fits(toks[t], n[c]) {
        t, c := t + 1, c + 1;
      } else if star.Some? {
        var (st, sc) := star.value;
        t, c := st + 1, sc + 1;
        star := Some((st, sc + 1));
      } else {
        return false;
      }
    }
    ok := AllStars(toks[t..]);
  }

  // ---- what single tokens mean ----------------------------------------------------------------------

  lemma OneToken(p: string, t: Tok, name: string)
    requires p != "" && TokenAt(p, 0) == (t, |p|)
    ensures !t.Star? ==> (Accepts(p, name) <==> |name| == 1 && Fits(t, name[0]))
  {
    assert Tokens(p, |p|) == [] && Tokens(p, 0) == [t] && [t][1..] == [];
    if name != "" {
      assert Unfolded([], name[1..]) <==> |name| == 1;
    }
  }

  /** `?` is any one character, and a bracket set is one that its body lists, or one that
      it does not list. */
  lemma {:induction false} SetsMean(body: string, name: string)
    requires body != "" && ']' !in body && body[0] != '!'
    ensures Accepts("?", name) <==> |name| == 1
    ensures Accepts("[" + body + "]", name) <==> |name| == 1 && InBody(body, 0, name[0])
    ensures Accepts("[!" + body + "]", name) <==> |name| == 1 && !InBody(body, 0, name[0])
  {
    OneToken("?", One, name);
    var p, q := "[" + body + "]", "[!" + body + "]";
    ClosesAt(p, 1);
    ClosesAt(q, 2);
    assert body[0] in body && p[1] == body[0] && q[2] == body[0];
    assert p[1..|p| - 1] == body && q[2..|q| - 1] == body;
    OneToken(p, Set(false, Ranges(body, 0)), name);
    OneToken(q, Set(true, Ranges(body, 0)), name);
    if |name| == 1 {
      RangesAreTheBody(body, 0, false, name[0]);
      RangesAreTheBody(body, 0, true, name[0]);
    }
  }

  lemma {:induction false} ClosesAt(p: string, j: nat)
    requires j < |p| && p[|p| - 1] == ']' && forall k :: j <= k < |p| - 1 ==> p[k] != ']'
    ensures Closing(p, j) == |p| - 1
    decreases |p| - j
  {
    if j < |p| - 1 {
      ClosesAt(p, j + 1);
    }
  }

  /** A pattern without `*`, `?` and `[` accepts itself alone. */
  lemma {:induction false} LiteralMeansItself(p: string, i: nat, name: string)
    requires i <= |p| && forall c :: c in p ==> c != '*' && c != '?' && c != '['
    ensures Unfolded(Tokens(p, i), name) <==> name == p[i..]
    decreases |p| - i
  {
    if i < |p| {
      assert p[i] in p && p[i..] == [p[i]] + p[i + 1..];
      assert Tokens(p, i)[1..] == Tokens(p, i + 1);
      if name != "" {
        LiteralMeansItself(p, i + 1, name[1..]);
        assert name == [name[0]] + name[1..];
      }
    }
  }
}

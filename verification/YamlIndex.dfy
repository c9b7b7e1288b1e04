/**
 The editor's index of a YAML document (yaml_index.rs): an explicit-stack walk over the
 same parse events that the loader turns into a tree, and what a node adds to the index.
*/
module YamlIndex {
  import opened Wrappers
  import opened Values
  import opened PythonEq
  import opened YamlLoader

  /** Lines and columns from zero. */
  datatype Pos = Pos(line: nat, col: nat)

  function PosOf(m: Mark): Pos { Pos(if m.line == 0 then 0 else m.line - 1, m.col) }

  datatype ScalarValue = ScalarValue(at: Pos, text: string, quoted: bool)

  datatype Listed = Listed(path: KeyPath, key: Option<Pos>, value: Option<ScalarValue>)

  datatype Frame = MapFrame(key: Option<(string, Pos)>) | SeqFrame(next: nat)

  datatype State = State(frames: seq<Frame>, path: KeyPath, entries: seq<Listed>)

  predicate IsQuoted(s: Style) { s == SingleQuoted || s == DoubleQuoted }

  function ShowScalar(s: Scalar, m: Mark): ScalarValue { ScalarValue(PosOf(m), s.text, IsQuoted(s.style)) }

  // ---- one event after the other ----------------------------------------------------------------

  /** A scalar here would be a key. */
  predicate WantsKey(frames: seq<Frame>) {
    frames != [] && frames[|frames| - 1].MapFrame? && frames[|frames| - 1].key.None?
  }

  /** `value_key`: the frames after a value started, its key and the key's position. */
  function Taken(frames: seq<Frame>): seq<Frame> {
    if frames == [] then []
    else match frames[|frames| - 1]
      case MapFrame(_) => frames[..|frames| - 1] + [MapFrame(None)]
      case SeqFrame(n) => frames[..|frames| - 1] + [SeqFrame(n + 1)]
  }

  function KeyHere(frames: seq<Frame>): Option<Key> {
    if frames == [] then None
    else match frames[|frames| - 1]
      case MapFrame(None) => None
      case MapFrame(Some(k)) => Some(Name(k.0))
      case SeqFrame(n) => Some(Index(n))
  }

  function KeyPos(frames: seq<Frame>): Option<Pos> {
    if frames == [] then None
    else match frames[|frames| - 1]
      case MapFrame(Some(k)) => Some(k.1)
      case _ => None
  }

  function PathHere(s: State): KeyPath {
    match KeyHere(s.frames) case None => s.path case Some(k) => s.path + [k]
  }

  function Opened(s: State, frame: Frame): State {
    State(
      Taken(s.frames) + [frame], PathHere(s),
      s.entries + if KeyHere(s.frames).Some? then [Listed(PathHere(s), KeyPos(s.frames), None)] else [])
  }

  function Front<T>(s: seq<T>): seq<T> { if s == [] then [] else s[..|s| - 1] }

  function Step(s: State, e: Event): State {
    match e
    case ScalarEvent(sc, _, m) =>
      if WantsKey(s.frames) then s.(frames := Front(s.frames) + [MapFrame(Some((sc.text, PosOf(m))))])
      else State(Taken(s.frames), s.path, s.entries + [Listed(PathHere(s), KeyPos(s.frames), Some(ShowScalar(sc, m)))])
    case Alias(_, _) => s.(frames := Taken(s.frames))
    case MapStart(_, _, _) => Opened(s, MapFrame(None))
    case SeqStart(_, _, _) => Opened(s, SeqFrame(0))
    case MapEnd(_) => Closed(s)
    case SeqEnd(_) => Closed(s)
    case Outside(_, _) => s
  }

  function Closed(s: State): State {
    var frames := Front(s.frames);
    State(frames, if frames == [] then s.path else Front(s.path), s.entries)
  }

  function Walk(s: State, events: seq<Event>): State
    decreases |events|
  {
    if events == [] then s else Walk(Step(s, events[0]), events[1..])
  }

  const START := State([], [], [])

  /** `value_key` */
  method ValueKey(frames: seq<Frame>) returns (after: seq<Frame>, key: Option<Key>, at: Option<Pos>)
    ensures after == Taken(frames) && key == KeyHere(frames) && at == KeyPos(frames)
  {
    if frames == [] {
      return [], None, None;
    }
    var front := frames[..|frames| - 1];
    match frames[|frames| - 1] {
      case MapFrame(k) =>
        after := front + [MapFrame(None)];
        if k.Some? {
          key, at := Some(Name(k.value.0)), Some(k.value.1);
        } else {
          key, at := None, None;
        }
      case SeqFrame(next) =>
        after, key, at := front + [SeqFrame(next + 1)], Some(Index(next)), None;
    }
  }

  method Open(frames: seq<Frame>, path: KeyPath, entries: seq<Listed>, frame: Frame)
    returns (frames1: seq<Frame>, path1: KeyPath, entries1: seq<Listed>)
    ensures State(frames1, path1, entries1) == Opened(State(frames, path, entries), frame)
  {
    var after, child, at := ValueKey(frames);
    path1, entries1 := path, entries;
    if child.Some? {
      path1 := path + [child.value];
      entries1 := entries + [Listed(path1, at, None)];
    }
    frames1 := after + [frame];
  }

  /** `parse` */
  method Parse(events: seq<Event>) returns (entries: seq<Listed>)
    ensures entries == Walk(START, events).entries
  {
    var frames: seq<Frame>, path: KeyPath := [], [];
    entries := [];
    ghost var goal := Walk(START, events);
    assert events[0..] == events;
    for i := 0 to |events|
      invariant Walk(State(frames, path, entries), events[i..]) == goal
    {
      ghost var before := State(frames, path, entries);
      assert events[i..][0] == events[i] && events[i..][1..] == events[i + 1..];
      match events[i] {
        case ScalarEvent(sc, _, m) =>
          if frames != [] && frames[|frames| - 1].MapFrame? && frames[|frames| - 1].key.None? {
            frames := frames[..|frames| - 1] + [MapFrame(Some((sc.text, PosOf(m))))];
          } else {
            var after, child, at := ValueKey(frames);
            frames := after;
            var p := if child.Some? then path + [child.value] else path;
            entries := entries + [Listed(p, at, Some(ShowScalar(sc, m)))];
          }
        case Alias(_, _) =>
          var after, _, _ := ValueKey(frames);
          frames := after;
        case Outside(_, _) =>
        case MapStart(_, _, _) =>
          frames, path, entries := Open(frames, path, entries, MapFrame(None));
        case SeqStart(_, _, _) =>
          frames, path, entries := Open(frames, path, entries, SeqFrame(0));
        case MapEnd(_) =>
          frames := Front(frames);
          if frames != [] {
            path := Front(path);
          }
        case SeqEnd(_) =>
          frames := Front(frames);
          if frames != [] {
            path := Front(path);
          }
      }
      assert State(frames, path, entries) == Step(before, events[i]);
    }
    assert events[|events|..] == [];
  }

  // ---- what a node adds to the index ---------------------------------------------------------------

  /** No aliases, and every key a scalar. */
  predicate NoAliases(t: Syntax)
    decreases t
  {
    match t
    case Leaf(_, _, _) => true
    case Ref(_, _) => false
    case Items(_, _, _, items, _) => forall i :: 0 <= i < |items| ==> NoAliases(items[i])
    case Pairs(_, _, _, pairs, _) => forall i :: 0 <= i < |pairs| ==>
      pairs[i].key.KeyScalar? && NoAliases(pairs[i].value)
  }

  /** The entries of a node at `path`; the document's own node has no key. */
  function IndexOf(t: Syntax, path: KeyPath, key: Option<Pos>, top: bool): seq<Listed>
    decreases t
  {
    match t
    case Leaf(s, _, m) => [Listed(path, key, Some(ShowScalar(s, m)))]
    case Ref(_, _) => []
    case Items(_, _, _, items, _) => (if top then [] else [Listed(path, key, None)]) + IndexItems(items, path, 0)
    case Pairs(_, _, _, pairs, _) => (if top then [] else [Listed(path, key, None)]) + IndexPairs(pairs, path)
  }

  function IndexItems(items: seq<Syntax>, path: KeyPath, n: nat): seq<Listed>
    decreases items
  {
    if items == [] then []
    else IndexOf(items[0], path + [Index(n)], None, false) + IndexItems(items[1..], path, n + 1)
  }

  function KeyText(k: KeySyntax): string { if k.KeyScalar? then k.scalar.text else "" }

  function IndexPairs(pairs: seq<Pair>, path: KeyPath): seq<Listed>
    decreases pairs
  {
    if pairs == [] then []
    else
      var p := pairs[0];
      assert p.value < p;
      IndexOf(p.value, path + [Name(KeyText(p.key))], Some(PosOf(p.key.mark)), false) + IndexPairs(pairs[1..], path)
  }

  /** The state after a value that adds these entries. */
  function After(s: State, added: seq<Listed>): State { State(Taken(s.frames), s.path, s.entries + added) }

  /** What a value at this place adds. */
  function IndexHere(s: State, t: Syntax): seq<Listed> {
    IndexOf(t, PathHere(s), KeyPos(s.frames), KeyHere(s.frames).None?)
  }

  /** Walking over a node adds its entries and takes its key; nothing else changes. */
  lemma {:induction false} WalkNode(s: State, t: Syntax, rest: seq<Event>)
    requires NoAliases(t) && !WantsKey(s.frames)
    ensures Walk(s, Flatten(t) + rest) == Walk(After(s, IndexHere(s, t)), rest)
    decreases t
  {
    match t {
      case Leaf(c, a, m) =>
        assert ([ScalarEvent(c, a, m)] + rest)[1..] == rest;
      case Items(a, g, m, items, e) =>
        WalkItems(Opened(s, SeqFrame(0)), Taken(s.frames), 0, items, [SeqEnd(e)] + rest);
        AroundItems(s, a, g, m, items, e, rest);
      case Pairs(a, g, m, pairs, e) =>
        WalkPairs(Opened(s, MapFrame(None)), Taken(s.frames), pairs, [MapEnd(e)] + rest);
        AroundPairs(s, a, g, m, pairs, e, rest);
    }
  }

  lemma {:induction false} AroundItems(
    s: State, a: nat, g: Option<Tag>, m: Mark, items: seq<Syntax>, e: Mark, rest: seq<Event>)
    requires !WantsKey(s.frames)
    requires var o := Opened(s, SeqFrame(0));
      Walk(o, FlattenItems(items) + ([SeqEnd(e)] + rest)) ==
      Walk(State(Taken(s.frames) + [SeqFrame(|items|)], o.path, o.entries + IndexItems(items, o.path, 0)),
           [SeqEnd(e)] + rest)
    ensures var t := Items(a, g, m, items, e); Walk(s, Flatten(t) + rest) == Walk(After(s, IndexHere(s, t)), rest)
  {
    var t, added := Items(a, g, m, items, e), IndexItems(items, PathHere(s), 0);
    WalkAround(s, SeqFrame(0), SeqFrame(|items|), SeqStart(a, g, m), FlattenItems(items), added, SeqEnd(e), rest);
    assert IndexHere(s, t) == Own(s) + added;
    assert Flatten(t) == [SeqStart(a, g, m)] + FlattenItems(items) + [SeqEnd(e)];
  }

  lemma {:induction false} AroundPairs(
    s: State, a: nat, g: Option<Tag>, m: Mark, pairs: seq<Pair>, e: Mark, rest: seq<Event>)
    requires !WantsKey(s.frames)
    requires var o := Opened(s, MapFrame(None));
      Walk(o, FlattenPairs(pairs) + ([MapEnd(e)] + rest)) ==
      Walk(State(Taken(s.frames) + [MapFrame(None)], o.path, o.entries + IndexPairs(pairs, o.path)),
           [MapEnd(e)] + rest)
    ensures var t := Pairs(a, g, m, pairs, e); Walk(s, Flatten(t) + rest) == Walk(After(s, IndexHere(s, t)), rest)
  {
    var t, added := Pairs(a, g, m, pairs, e), IndexPairs(pairs, PathHere(s));
    WalkAround(s, MapFrame(None), MapFrame(None), MapStart(a, g, m), FlattenPairs(pairs), added, MapEnd(e), rest);
    assert IndexHere(s, t) == Own(s) + added;
    assert Flatten(t) == [MapStart(a, g, m)] + FlattenPairs(pairs) + [MapEnd(e)];
  }

  /** A collection's own entry. */
  function Own(s: State): seq<Listed> {
    if KeyHere(s.frames).None? then [] else [Listed(PathHere(s), KeyPos(s.frames), None)]
  }

  /** From the start of a collection to its end. */
  lemma {:induction false} WalkAround(
    s: State, first: Frame, last: Frame, start: Event, body: seq<Event>, added: seq<Listed>, end: Event,
    rest: seq<Event>)
    requires (end.SeqEnd? || end.MapEnd?) && !WantsKey(s.frames) && Step(s, start) == Opened(s, first)
    requires var o := Opened(s, first);
      Walk(o, body + ([end] + rest)) == Walk(State(Taken(s.frames) + [last], o.path, o.entries + added), [end] + rest)
    ensures Walk(s, [start] + body + [end] + rest) == Walk(After(s, Own(s) + added), rest)
  {
    WalkStart(s, first, start, body, [end] + rest);
    WalkEnd(s, last, s.entries + Own(s) + added, end, rest);
    AfterOwn(s, added);
    Regroup(start, body, end, rest);
  }

  lemma Regroup(start: Event, body: seq<Event>, end: Event, rest: seq<Event>)
    ensures [start] + body + [end] + rest == [start] + (body + ([end] + rest))
  {
  }

  lemma WalkStart(s: State, first: Frame, start: Event, body: seq<Event>, rest: seq<Event>)
    requires Step(s, start) == Opened(s, first)
    ensures Walk(s, [start] + (body + rest)) == Walk(Opened(s, first), body + rest)
    ensures Opened(s, first) == State(Taken(s.frames) + [first], PathHere(s), s.entries + Own(s))
  {
    WalkOne(s, start, body + rest);
  }

  lemma AfterOwn(s: State, added: seq<Listed>)
    ensures After(s, Own(s) + added) == State(Taken(s.frames), s.path, s.entries + Own(s) + added)
  {
    assert s.entries + Own(s) + added == s.entries + (Own(s) + added);
  }

  lemma {:induction false} WalkEnd(s: State, last: Frame, entries: seq<Listed>, end: Event, rest: seq<Event>)
    requires (end.SeqEnd? || end.MapEnd?) && !WantsKey(s.frames)
    ensures Walk(State(Taken(s.frames) + [last], PathHere(s), entries), [end] + rest) ==
            Walk(State(Taken(s.frames), s.path, entries), rest)
  {
    WalkOne(State(Taken(s.frames) + [last], PathHere(s), entries), end, rest);
    ClosedAgain(s, last, entries);
  }

  lemma WalkOne(s: State, e: Event, rest: seq<Event>)
    ensures Walk(s, [e] + rest) == Walk(Step(s, e), rest)
  {
    assert ([e] + rest)[1..] == rest;
  }

  lemma ClosedAgain(s: State, last: Frame, entries: seq<Listed>)
    requires !WantsKey(s.frames)
    ensures Closed(State(Taken(s.frames) + [last], PathHere(s), entries)) == State(Taken(s.frames), s.path, entries)
  {
    assert Front(Taken(s.frames) + [last]) == Taken(s.frames);
    if s.frames != [] {
      assert KeyHere(s.frames).Some? && Front(PathHere(s)) == s.path;
    }
  }

  lemma {:induction false} WalkItems(s: State, outer: seq<Frame>, n: nat, items: seq<Syntax>, rest: seq<Event>)
    requires s.frames == outer + [SeqFrame(n)] && forall i :: 0 <= i < |items| ==> NoAliases(items[i])
    ensures Walk(s, FlattenItems(items) + rest) ==
      Walk(State(outer + [SeqFrame(n + |items|)], s.path, s.entries + IndexItems(items, s.path, n)), rest)
    decreases items, 1
  {
    if items == [] {
      assert FlattenItems(items) + rest == rest && s.entries + [] == s.entries;
    } else {
      NoneLater(items);
      var next := FirstItem(s, outer, n, items, rest);
      WalkItems(next, outer, n + 1, items[1..], rest);
      NextItem(s, outer, n, items, rest);
    }
  }

  lemma {:induction false} FirstItem(s: State, outer: seq<Frame>, n: nat, items: seq<Syntax>, rest: seq<Event>)
    returns (next: State)
    requires s.frames == outer + [SeqFrame(n)] && items != [] && NoAliases(items[0])
    ensures next == After(s, IndexHere(s, items[0])) && next.frames == outer + [SeqFrame(n + 1)] && next.path == s.path
    ensures Walk(s, FlattenItems(items) + rest) == Walk(next, FlattenItems(items[1..]) + rest)
    decreases items, 0
  {
    next := After(s, IndexHere(s, items[0]));
    WalkNode(s, items[0], FlattenItems(items[1..]) + rest);
    NextItem(s, outer, n, items, rest);
  }

  lemma {:induction false} NoneLater(items: seq<Syntax>)
    requires items != [] && forall i :: 0 <= i < |items| ==> NoAliases(items[i])
    ensures NoAliases(items[0]) && forall i :: 0 <= i < |items[1..]| ==> NoAliases(items[1..][i])
  {
    assert forall i :: 0 <= i < |items[1..]| ==> items[1..][i] == items[i + 1];
  }

  lemma {:induction false} NextItem(s: State, outer: seq<Frame>, n: nat, items: seq<Syntax>, rest: seq<Event>)
    requires s.frames == outer + [SeqFrame(n)] && items != []
    ensures FlattenItems(items) + rest == Flatten(items[0]) + (FlattenItems(items[1..]) + rest)
    ensures Taken(s.frames) == outer + [SeqFrame(n + 1)]
    ensures State(outer + [SeqFrame(n + 1 + |items[1..]|)], s.path,
                  After(s, IndexHere(s, items[0])).entries + IndexItems(items[1..], s.path, n + 1)) ==
            State(outer + [SeqFrame(n + |items|)], s.path, s.entries + IndexItems(items, s.path, n))
  {
    var own := IndexOf(items[0], s.path + [Index(n)], None, false);
    assert IndexHere(s, items[0]) == own;
    assert s.entries + own + IndexItems(items[1..], s.path, n + 1) ==
      s.entries + (own + IndexItems(items[1..], s.path, n + 1));
    assert n + 1 + |items[1..]| == n + |items|;
  }

  lemma {:induction false} WalkPairs(s: State, outer: seq<Frame>, pairs: seq<Pair>, rest: seq<Event>)
    requires s.frames == outer + [MapFrame(None)]
    requires forall i :: 0 <= i < |pairs| ==> pairs[i].key.KeyScalar? && NoAliases(pairs[i].value)
    ensures Walk(s, FlattenPairs(pairs) + rest) ==
      Walk(State(outer + [MapFrame(None)], s.path, s.entries + IndexPairs(pairs, s.path)), rest)
    decreases pairs
  {
    if pairs == [] {
      assert FlattenPairs(pairs) + rest == rest && s.entries + [] == s.entries;
    } else {
      var p := pairs[0];
      assert p.value < p;
      var ahead := FlattenPairs(pairs[1..]) + rest;
      var keyed := Keyed(s, outer, p.key);
      WalkNode(keyed, p.value, ahead);
      WalkKey(s, outer, p, ahead);
      var own := IndexHere(keyed, p.value);
      WalkPairs(After(keyed, own), outer, pairs[1..], rest);
      NextKey(s, p, pairs, own, rest);
    }
  }

  lemma {:induction false} NextKey(s: State, p: Pair, pairs: seq<Pair>, own: seq<Listed>, rest: seq<Event>)
    requires pairs != [] && p == pairs[0]
    requires own == IndexOf(p.value, s.path + [Name(KeyText(p.key))], Some(PosOf(p.key.mark)), false)
    ensures [KeyEvent(p.key)] + (Flatten(p.value) + (FlattenPairs(pairs[1..]) + rest)) == FlattenPairs(pairs) + rest
    ensures s.entries + own + IndexPairs(pairs[1..], s.path) == s.entries + IndexPairs(pairs, s.path)
  {
    Shift([KeyEvent(p.key)], Flatten(p.value), FlattenPairs(pairs[1..]), rest);
    Shift([], s.entries, own, IndexPairs(pairs[1..], s.path));
  }

  lemma Shift<T>(a: seq<T>, b: seq<T>, c: seq<T>, d: seq<T>)
    ensures a + (b + (c + d)) == a + b + c + d
    ensures a == [] ==> b + c + d == b + (c + d)
  {
  }

  function Keyed(s: State, outer: seq<Frame>, k: KeySyntax): State {
    s.(frames := outer + [MapFrame(Some((KeyText(k), PosOf(k.mark))))])
  }

  /** A key is kept for the value that follows. */
  lemma WalkKey(s: State, outer: seq<Frame>, p: Pair, ahead: seq<Event>)
    requires s.frames == outer + [MapFrame(None)] && p.key.KeyScalar?
    ensures var keyed := Keyed(s, outer, p.key);
      && Walk(s, [KeyEvent(p.key)] + (Flatten(p.value) + ahead)) == Walk(keyed, Flatten(p.value) + ahead)
      && Taken(keyed.frames) == outer + [MapFrame(None)]
      && IndexHere(keyed, p.value) ==
           IndexOf(p.value, s.path + [Name(KeyText(p.key))], Some(PosOf(p.key.mark)), false)
  {
    WalkOne(s, KeyEvent(p.key), Flatten(p.value) + ahead);
    assert Front(s.frames) == outer;
  }
}

/**
 Building a tree from YAML parse events (yaml.rs). `Syntax` is what a well-nested run
 of events spells; the loader reads exactly the events of one node, and the tree it
 builds is what that syntax means.
*/
module YamlLoader {
  import opened Wrappers
  import opened Values
  import opened PythonEq

  // ---- events ---------------------------------------------------------------------------

  /** Where the parser stood: lines count from one, columns from zero. */
  datatype Mark = Mark(line: nat, col: nat)

  datatype Style = Plain | SingleQuoted | DoubleQuoted | Literal | Folded

  datatype Tag = Tag(handle: string, suffix: string)

  datatype Scalar = Scalar(text: string, style: Style, tag: Option<Tag>)

  datatype Outside = StreamStart | DocumentStart | DocumentEnd | StreamEnd | Nothing

  /** Anchors are numbered; zero means none. */
  datatype Event =
    | ScalarEvent(scalar: Scalar, anchor: nat, mark: Mark)
    | Alias(id: nat, mark: Mark)
    | SeqStart(anchor: nat, tag: Option<Tag>, mark: Mark)
    | SeqEnd(mark: Mark)
    | MapStart(anchor: nat, tag: Option<Tag>, mark: Mark)
    | MapEnd(mark: Mark)
    | Outside(what: Outside, mark: Mark)

  datatype YamlError = SyntaxError | ManyDocuments | UnknownAlias | UnknownTag | ComplexKey | BadScalar | BadMerge

  type Anchors = map<nat, Node>

  /** What is left uninterpreted: plain scalars, core tags other than `str` and `null`,
      and how a value prints as a key. */
  datatype Resolver = Resolver(
    file: Path, plain: string -> Value, tagged: (string, string) -> Result<Value, YamlError>, pyStr: Value -> string)

  predicate IsCore(tag: Tag) { tag.handle == "!!" || tag.handle == "tag:yaml.org,2002:" }

  /** `scalar_value` */
  function Resolve(r: Resolver, s: Scalar): Result<Value, YamlError> {
    match s.tag
    case Some(tag) =>
      if !IsCore(tag) then Err(UnknownTag)
      else if tag.suffix == "str" then Ok(Str(s.text))
      else if tag.suffix == "null" then Ok(Null)
      else r.tagged(tag.suffix, s.text)
    case None => if s.style != Plain then Ok(Str(s.text)) else Ok(r.plain(s.text))
  }

  /** A scalar resolves to a scalar. */
  ghost predicate ScalarsOnly(r: Resolver) {
    && (forall text :: !r.plain(text).IsContainer())
    && (forall suffix, text :: var v := r.tagged(suffix, text); v.Ok? ==> !v.value.IsContainer())
  }

  /** A collection accepts no tag but its own. */
  predicate TagFits(tag: Option<Tag>, core: string) { tag.Some? ==> IsCore(tag.value) && tag.value.suffix == core }

  function OriginOf(r: Resolver, m: Mark): Origin { At(r.file, m.line, m.col + 1) }

  function Anchored(anchors: Anchors, anchor: nat, n: Node): Anchors {
    if anchor == 0 then anchors else anchors[anchor := n]
  }

  // ---- maps ---------------------------------------------------------------------------------

  function Insert(entries: seq<Entry>, key: string, n: Node): seq<Entry> {
    match Find(entries, key)
    case Some(i) => entries[i := Entry(key, n)]
    case None => entries + [Entry(key, n)]
  }

  function InsertAll(into: seq<Entry>, from: seq<Entry>): seq<Entry>
    decreases |from|
  {
    if from == [] then into else InsertAll(Insert(into, from[0].key, from[0].node), from[1..])
  }

  function InsertMissing(into: seq<Entry>, from: seq<Entry>): seq<Entry>
    decreases |from|
  {
    if from == [] then into
    else InsertMissing(if Find(into, from[0].key).Some? then into else into + [from[0]], from[1..])
  }

  function InsertMaps(into: seq<Entry>, items: seq<Node>): Result<seq<Entry>, YamlError>
    decreases |items|
  {
    if items == [] then Ok(into)
    else
      var last := items[|items| - 1];
      if last.value.Map? then InsertMaps(InsertAll(into, last.value.entries), items[..|items| - 1]) else Err(BadMerge)
  }

  /** `flatten_merge` */
  function FlattenMerge(into: seq<Entry>, merge: Node): Result<seq<Entry>, YamlError> {
    match merge.value
    case Map(m) => Ok(InsertMissing(into, m))
    case List(items) => InsertMaps(into, items)
    case _ => Err(BadMerge)
  }

  function FlattenMerges(into: seq<Entry>, merges: seq<Node>): Result<seq<Entry>, YamlError>
    decreases |merges|
  {
    if merges == [] then Ok(into)
    else match FlattenMerge(into, merges[0])
      case Err(e) => Err(e)
      case Ok(next) => FlattenMerges(next, merges[1..])
  }

  /** The entries of a mapping: merged keys first, the mapping's own keys win. */
  function Entries(pairs: seq<Entry>, merges: seq<Node>): Result<seq<Entry>, YamlError> {
    match FlattenMerges([], merges)
    case Err(e) => Err(e)
    case Ok(merged) => Ok(InsertAll(merged, pairs))
  }

  // ---- what well-nested events spell ---------------------------------------------------------------

  datatype Syntax =
    | Leaf(scalar: Scalar, anchor: nat, mark: Mark)
    | Ref(id: nat, mark: Mark)
    | Items(anchor: nat, tag: Option<Tag>, mark: Mark, items: seq<Syntax>, end: Mark)
    | Pairs(anchor: nat, tag: Option<Tag>, mark: Mark, pairs: seq<Pair>, end: Mark)

  datatype KeySyntax = KeyScalar(scalar: Scalar, anchor: nat, mark: Mark) | KeyRef(id: nat, mark: Mark)

  datatype Pair = Pair(key: KeySyntax, value: Syntax)

  function KeyEvent(k: KeySyntax): Event {
    match k
    case KeyScalar(s, a, m) => ScalarEvent(s, a, m)
    case KeyRef(id, m) => Alias(id, m)
  }

  function Flatten(t: Syntax): (r: seq<Event>)
    ensures r != []
    decreases t
  {
    match t
    case Leaf(s, a, m) => [ScalarEvent(s, a, m)]
    case Ref(id, m) => [Alias(id, m)]
    case Items(a, g, m, items, e) => [SeqStart(a, g, m)] + FlattenItems(items) + [SeqEnd(e)]
    case Pairs(a, g, m, pairs, e) => [MapStart(a, g, m)] + FlattenPairs(pairs) + [MapEnd(e)]
  }

  function FlattenItems(items: seq<Syntax>): seq<Event>
    decreases items
  {
    if items == [] then [] else Flatten(items[0]) + FlattenItems(items[1..])
  }

  function FlattenPairs(pairs: seq<Pair>): seq<Event>
    decreases pairs
  {
    if pairs == [] then []
    else
      var first := pairs[0];
      assert first.value < first;
      [KeyEvent(first.key)] + Flatten(first.value) + FlattenPairs(pairs[1..])
  }

  // ---- what syntax means ------------------------------------------------------------------------------

  datatype Meaning = Meaning(node: Node, anchors: Anchors)

  datatype Meanings = Meanings(pairs: seq<Entry>, merges: seq<Node>, anchors: Anchors)

  /** A key's text, and whether it asks for merging. */
  function KeyOf(r: Resolver, k: KeySyntax, anchors: Anchors): Result<(string, bool), YamlError> {
    match k
    case KeyScalar(s, _, _) =>
      (match Resolve(r, s)
       case Err(e) => Err(e)
       case Ok(v) => Ok((r.pyStr(v), v == Str("<<") && s.style == Plain)))
    case KeyRef(id, _) => if id in anchors then Ok((r.pyStr(anchors[id].value), false)) else Err(UnknownAlias)
  }

  function Mean(r: Resolver, t: Syntax, anchors: Anchors): Result<Meaning, YamlError>
    decreases t
  {
    match t
    case Leaf(s, a, m) =>
      (match Resolve(r, s)
       case Err(e) => Err(e)
       case Ok(v) => var n := Node(v, OriginOf(r, m)); Ok(Meaning(n, Anchored(anchors, a, n))))
    case Ref(id, _) => if id in anchors then Ok(Meaning(anchors[id], anchors)) else Err(UnknownAlias)
    case Items(a, g, m, items, _) =>
      if !TagFits(g, "seq") then Err(UnknownTag)
      else (match MeanItems(r, items, anchors)
        case Err(e) => Err(e)
        case Ok((nodes, after)) =>
          var n := Node(List(nodes), OriginOf(r, m)); Ok(Meaning(n, Anchored(after, a, n))))
    case Pairs(a, g, m, pairs, _) =>
      if !TagFits(g, "map") then Err(UnknownTag)
      else match MeanPairs(r, pairs, anchors)
        case Err(e) => Err(e)
        case Ok(ms) => Mapping(r, a, m, ms)
  }

  function Mapping(r: Resolver, anchor: nat, mark: Mark, ms: Meanings): Result<Meaning, YamlError> {
    match Entries(ms.pairs, ms.merges)
    case Err(e) => Err(e)
    case Ok(entries) =>
      var n := Node(Map(entries), OriginOf(r, mark)); Ok(Meaning(n, Anchored(ms.anchors, anchor, n)))
  }

  function MeanItems(r: Resolver, items: seq<Syntax>, anchors: Anchors): Result<(seq<Node>, Anchors), YamlError>
    decreases items
  {
    if items == [] then Ok(([], anchors))
    else match Mean(r, items[0], anchors)
      case Err(e) => Err(e)
      case Ok(first) =>
        match MeanItems(r, items[1..], first.anchors)
        case Err(e) => Err(e)
        case Ok((rest, after)) => Ok(([first.node] + rest, after))
  }

  function MeanPairs(r: Resolver, pairs: seq<Pair>, anchors: Anchors): Result<Meanings, YamlError>
    decreases pairs
  {
    if pairs == [] then Ok(Meanings([], [], anchors))
    else
      var pair := pairs[0];
      assert pair.value < pair;
      match KeyOf(r, pair.key, anchors)
      case Err(e) => Err(e)
      case Ok((key, merge)) =>
        match Mean(r, pair.value, anchors)
        case Err(e) => Err(e)
        case Ok(first) =>
          match MeanPairs(r, pairs[1..], first.anchors)
          case Err(e) => Err(e)
          case Ok(rest) =>
            if merge then Ok(rest.(merges := [first.node] + rest.merges))
            else Ok(rest.(pairs := [Entry(key, first.node)] + rest.pairs))
  }

  // ---- the loader, as a function of the events ahead ------------------------------------------------------

  datatype Built = Built(node: Node, rest: seq<Event>, anchors: Anchors)

  datatype BuiltItems = BuiltItems(items: seq<Node>, rest: seq<Event>, anchors: Anchors)

  datatype BuiltPairs = BuiltPairs(pairs: seq<Entry>, merges: seq<Node>, rest: seq<Event>, anchors: Anchors)

  /** `build`: after the last event the stream ends. */
  function Build(r: Resolver, events: seq<Event>, anchors: Anchors): (b: Result<Built, YamlError>)
    ensures b.Ok? ==> |b.value.rest| < |events|
    decreases |events|, 0
  {
    if events == [] then Err(SyntaxError)
    else match events[0]
      case ScalarEvent(s, a, m) =>
        (match Resolve(r, s)
         case Err(e) => Err(e)
         case Ok(v) => var n := Node(v, OriginOf(r, m)); Ok(Built(n, events[1..], Anchored(anchors, a, n))))
      case Alias(id, _) => if id in anchors then Ok(Built(anchors[id], events[1..], anchors)) else Err(UnknownAlias)
      case SeqStart(a, g, m) =>
        if !TagFits(g, "seq") then Err(UnknownTag)
        else (match BuildItems(r, events[1..], anchors, [])
          case Err(e) => Err(e)
          case Ok(b) =>
            var n := Node(List(b.items), OriginOf(r, m)); Ok(Built(n, b.rest, Anchored(b.anchors, a, n))))
      case MapStart(a, g, m) =>
        if !TagFits(g, "map") then Err(UnknownTag)
        else (match BuildPairs(r, events[1..], anchors, [], [])
          case Err(e) => Err(e)
          case Ok(b) =>
            match Mapping(r, a, m, Meanings(b.pairs, b.merges, b.anchors))
            case Err(e) => Err(e)
            case Ok(mean) => Ok(Built(mean.node, b.rest, mean.anchors)))
      case _ => Err(SyntaxError)
  }

  function BuildItems(
    r: Resolver, events: seq<Event>, anchors: Anchors, items: seq<Node>): (b: Result<BuiltItems, YamlError>)
    ensures b.Ok? ==> |b.value.rest| < |events|
    decreases |events|, 1
  {
    if events != [] && events[0].SeqEnd? then Ok(BuiltItems(items, events[1..], anchors))
    else match Build(r, events, anchors)
      case Err(e) => Err(e)
      case Ok(b) => BuildItems(r, b.rest, b.anchors, items + [b.node])
  }

  /** Keys are scalars or aliases. */
  function AsKey(e: Event): Option<KeySyntax> {
    match e
    case ScalarEvent(s, a, m) => Some(KeyScalar(s, a, m))
    case Alias(id, m) => Some(KeyRef(id, m))
    case _ => None
  }

  function BuildPairs(
    r: Resolver, events: seq<Event>, anchors: Anchors, pairs: seq<Entry>, merges: seq<Node>)
    : (b: Result<BuiltPairs, YamlError>)
    ensures b.Ok? ==> |b.value.rest| < |events|
    decreases |events|, 1
  {
    if events == [] then Err(ComplexKey)
    else if events[0].MapEnd? then Ok(BuiltPairs(pairs, merges, events[1..], anchors))
    else match AsKey(events[0])
      case None => Err(ComplexKey)
      case Some(k) =>
        match KeyOf(r, k, anchors)
        case Err(e) => Err(e)
        case Ok((key, merge)) =>
          match Build(r, events[1..], anchors)
          case Err(e) => Err(e)
          case Ok(b) =>
            if merge then BuildPairs(r, b.rest, b.anchors, pairs, merges + [b.node])
            else BuildPairs(r, b.rest, b.anchors, pairs + [Entry(key, b.node)], merges)
  }

  // ---- the loader reads one node, and builds what it means ---------------------------------------------------

  function Whole(m: Result<Meaning, YamlError>, rest: seq<Event>): Result<Built, YamlError> {
    match m
    case Err(e) => Err(e)
    case Ok(mean) => Ok(Built(mean.node, rest, mean.anchors))
  }

  /** Of the events of one node, whatever follows, the loader makes what they mean, and
      stops right after them. */
  lemma {:induction false} BuildsTheMeaning(r: Resolver, t: Syntax, rest: seq<Event>, anchors: Anchors)
    ensures Build(r, Flatten(t) + rest, anchors) == Whole(Mean(r, t, anchors), rest)
    decreases t
  {
    match t {
      case Leaf(s, a, m) =>
        FirstEvent(ScalarEvent(s, a, m), rest);
      case Ref(id, m) =>
        FirstEvent(Alias(id, m), rest);
      case Items(a, g, m, items, e) =>
        BuildsItems(r, items, e, rest, anchors, []);
        BuildsList(r, t, rest, anchors);
      case Pairs(a, g, m, pairs, e) =>
        BuildsPairs(r, pairs, e, rest, anchors, [], []);
        BuildsMap(r, t, rest, anchors);
    }
  }

  lemma FirstEvent(e: Event, rest: seq<Event>)
    ensures ([e] + rest)[0] == e && ([e] + rest)[1..] == rest
  {
  }

  lemma {:induction false} BuildsList(r: Resolver, t: Syntax, rest: seq<Event>, anchors: Anchors)
    requires t.Items?
    requires BuildItems(r, FlattenItems(t.items) + [SeqEnd(t.end)] + rest, anchors, []) ==
      match MeanItems(r, t.items, anchors)
      case Err(e) => Err(e)
      case Ok((nodes, after)) => Ok(BuiltItems([] + nodes, rest, after))
    ensures Build(r, Flatten(t) + rest, anchors) == Whole(Mean(r, t, anchors), rest)
  {
    var events := Flatten(t) + rest;
    assert events[0] == SeqStart(t.anchor, t.tag, t.mark);
    assert events[1..] == FlattenItems(t.items) + [SeqEnd(t.end)] + rest;
    if MeanItems(r, t.items, anchors).Ok? {
      var nodes := MeanItems(r, t.items, anchors).value.0;
      assert [] + nodes == nodes;
    }
  }

  lemma {:induction false} BuildsMap(r: Resolver, t: Syntax, rest: seq<Event>, anchors: Anchors)
    requires t.Pairs?
    requires BuildPairs(r, FlattenPairs(t.pairs) + [MapEnd(t.end)] + rest, anchors, [], []) ==
      match MeanPairs(r, t.pairs, anchors)
      case Err(e) => Err(e)
      case Ok(ms) => Ok(BuiltPairs([] + ms.pairs, [] + ms.merges, rest, ms.anchors))
    ensures Build(r, Flatten(t) + rest, anchors) == Whole(Mean(r, t, anchors), rest)
  {
    var events := Flatten(t) + rest;
    assert events[0] == MapStart(t.anchor, t.tag, t.mark);
    assert events[1..] == FlattenPairs(t.pairs) + [MapEnd(t.end)] + rest;
    if MeanPairs(r, t.pairs, anchors).Ok? {
      var ms := MeanPairs(r, t.pairs, anchors).value;
      assert [] + ms.pairs == ms.pairs && [] + ms.merges == ms.merges;
      assert Meanings(ms.pairs, ms.merges, ms.anchors) == ms;
    }
  }

  lemma {:induction false} BuildsItems(
    r: Resolver, items: seq<Syntax>, end: Mark, rest: seq<Event>, anchors: Anchors, done: seq<Node>)
    ensures BuildItems(r, FlattenItems(items) + [SeqEnd(end)] + rest, anchors, done) ==
      match MeanItems(r, items, anchors)
      case Err(e) => Err(e)
      case Ok((nodes, after)) => Ok(BuiltItems(done + nodes, rest, after))
    decreases items
  {
    var events := FlattenItems(items) + [SeqEnd(end)] + rest;
    if items == [] {
      assert events == [SeqEnd(end)] + rest && events[1..] == rest && done + [] == done;
    } else {
      var ahead := FlattenItems(items[1..]) + [SeqEnd(end)] + rest;
      assert events == Flatten(items[0]) + ahead;
      BuildsTheMeaning(r, items[0], ahead, anchors);
      FirstIsNoEnd(items[0]);
      match Mean(r, items[0], anchors) {
        case Err(_) =>
        case Ok(first) =>
          BuildsItems(r, items[1..], end, rest, first.anchors, done + [first.node]);
          if MeanItems(r, items[1..], first.anchors).Ok? {
            var nodes := MeanItems(r, items[1..], first.anchors).value.0;
            assert done + [first.node] + nodes == done + ([first.node] + nodes);
          }
      }
    }
  }

  lemma FirstIsNoEnd(t: Syntax)
    ensures !Flatten(t)[0].SeqEnd? && !Flatten(t)[0].MapEnd? && !Flatten(t)[0].Outside?
  {
  }

  lemma {:induction false} BuildsPairs(
    r: Resolver, pairs: seq<Pair>, end: Mark, rest: seq<Event>, anchors: Anchors, own: seq<Entry>, merges: seq<Node>)
    ensures BuildPairs(r, FlattenPairs(pairs) + [MapEnd(end)] + rest, anchors, own, merges) ==
      match MeanPairs(r, pairs, anchors)
      case Err(e) => Err(e)
      case Ok(ms) => Ok(BuiltPairs(own + ms.pairs, merges + ms.merges, rest, ms.anchors))
    decreases pairs
  {
    var events := FlattenPairs(pairs) + [MapEnd(end)] + rest;
    if pairs == [] {
      assert events == [MapEnd(end)] + rest && events[1..] == rest;
      assert own + [] == own && merges + [] == merges;
    } else {
      var pair := pairs[0];
      assert pair.value < pair;
      var ahead := FlattenPairs(pairs[1..]) + [MapEnd(end)] + rest;
      assert events == [KeyEvent(pair.key)] + (Flatten(pair.value) + ahead);
      assert AsKey(events[0]) == Some(pair.key) && events[1..] == Flatten(pair.value) + ahead;
      BuildsTheMeaning(r, pair.value, ahead, anchors);
      NextPair(r, pairs, end, rest, anchors, own, merges, ahead);
    }
  }

  lemma {:induction false} NextPair(
    r: Resolver, pairs: seq<Pair>, end: Mark, rest: seq<Event>, anchors: Anchors, own: seq<Entry>, merges: seq<Node>,
    ahead: seq<Event>)
    requires pairs != [] && ahead == FlattenPairs(pairs[1..]) + [MapEnd(end)] + rest
    ensures var key, m := KeyOf(r, pairs[0].key, anchors), Mean(r, pairs[0].value, anchors);
      key.Ok? && m.Ok? ==>
        (if key.value.1 then BuildPairs(r, ahead, m.value.anchors, own, merges + [m.value.node])
         else BuildPairs(r, ahead, m.value.anchors, own + [Entry(key.value.0, m.value.node)], merges)) ==
        match MeanPairs(r, pairs, anchors)
        case Err(e) => Err(e)
        case Ok(ms) => Ok(BuiltPairs(own + ms.pairs, merges + ms.merges, rest, ms.anchors))
    decreases pairs, 0
  {
    var key, m := KeyOf(r, pairs[0].key, anchors), Mean(r, pairs[0].value, anchors);
    if key.Ok? && m.Ok? {
      var n, after := m.value.node, m.value.anchors;
      var tail := MeanPairs(r, pairs[1..], after);
      if key.value.1 {
        BuildsPairs(r, pairs[1..], end, rest, after, own, merges + [n]);
        if tail.Ok? {
          assert merges + [n] + tail.value.merges == merges + ([n] + tail.value.merges);
        }
      } else {
        var e := Entry(key.value.0, n);
        BuildsPairs(r, pairs[1..], end, rest, after, own + [e], merges);
        if tail.Ok? {
          assert own + [e] + tail.value.pairs == own + ([e] + tail.value.pairs);
        }
      }
    }
  }

  /** And when it succeeds, it was one node that it read. */
  lemma {:induction false} BuildReadsOneNode(r: Resolver, events: seq<Event>, anchors: Anchors) returns (t: Syntax)
    requires Build(r, events, anchors).Ok?
    ensures events == Flatten(t) + Build(r, events, anchors).value.rest
    decreases |events|, 0
  {
    var head, tail := events[0], events[1..];
    var rest := Build(r, events, anchors).value.rest;
    assert events == [head] + tail;
    match head {
      case ScalarEvent(s, a, m) => t := Leaf(s, a, m);
      case Alias(id, m) => t := Ref(id, m);
      case SeqStart(a, g, m) =>
        var items, e := ItemsReadNodes(r, tail, anchors, []);
        t := Items(a, g, m, items, e);
        Enclosed(head, FlattenItems(items), SeqEnd(e), rest);
      case MapStart(a, g, m) =>
        var pairs, e := PairsReadNodes(r, tail, anchors, [], []);
        t := Pairs(a, g, m, pairs, e);
        Enclosed(head, FlattenPairs(pairs), MapEnd(e), rest);
    }
  }

  lemma Enclosed(head: Event, body: seq<Event>, end: Event, rest: seq<Event>)
    ensures [head] + (body + [end] + rest) == [head] + body + [end] + rest
  {
  }

  lemma {:induction false} ItemsReadNodes(r: Resolver, events: seq<Event>, anchors: Anchors, done: seq<Node>)
    returns (items: seq<Syntax>, end: Mark)
    requires BuildItems(r, events, anchors, done).Ok?
    ensures events == FlattenItems(items) + [SeqEnd(end)] + BuildItems(r, events, anchors, done).value.rest
    decreases |events|, 1
  {
    if events[0].SeqEnd? {
      items, end := [], events[0].mark;
      assert events == [SeqEnd(end)] + events[1..];
    } else {
      var b := Build(r, events, anchors).value;
      var first := BuildReadsOneNode(r, events, anchors);
      var more, e := ItemsReadNodes(r, b.rest, b.anchors, done + [b.node]);
      items, end := [first] + more, e;
      OneMoreItem(first, more, [SeqEnd(e)], BuildItems(r, events, anchors, done).value.rest);
    }
  }

  lemma OneMoreItem(first: Syntax, more: seq<Syntax>, end: seq<Event>, rest: seq<Event>)
    ensures Flatten(first) + (FlattenItems(more) + end + rest) == FlattenItems([first] + more) + end + rest
  {
    assert ([first] + more)[1..] == more;
  }

  lemma OneMorePair(p: Pair, more: seq<Pair>, end: seq<Event>, rest: seq<Event>)
    ensures [KeyEvent(p.key)] + (Flatten(p.value) + (FlattenPairs(more) + end + rest)) ==
            FlattenPairs([p] + more) + end + rest
  {
    assert ([p] + more)[1..] == more;
  }

  lemma {:induction false} PairsReadNodes(
    r: Resolver, events: seq<Event>, anchors: Anchors, own: seq<Entry>, merges: seq<Node>)
    returns (pairs: seq<Pair>, end: Mark)
    requires BuildPairs(r, events, anchors, own, merges).Ok?
    ensures events == FlattenPairs(pairs) + [MapEnd(end)] + BuildPairs(r, events, anchors, own, merges).value.rest
    decreases |events|, 1
  {
    if events[0].MapEnd? {
      pairs, end := [], events[0].mark;
    } else {
      var k := AsKey(events[0]).value;
      var key := KeyOf(r, k, anchors).value;
      var b := Build(r, events[1..], anchors).value;
      var first := BuildReadsOneNode(r, events[1..], anchors);
      var more, e := PairsReadNodes(
        r, b.rest, b.anchors, if key.1 then own else own + [Entry(key.0, b.node)],
        if key.1 then merges + [b.node] else merges);
      pairs, end := [Pair(k, first)] + more, e;
      assert events == [KeyEvent(k)] + events[1..];
      OneMorePair(Pair(k, first), more, [MapEnd(e)], BuildPairs(r, events, anchors, own, merges).value.rest);
    }
  }

  // ---- the stream around it ------------------------------------------------------------------------------

  function NullAt(r: Resolver): Node { Node(Null, At(r.file, 1, 1)) }

  /** `parse_stream`: the documents so far, the one being read, and whether any content
      was seen. */
  function Stream(
    r: Resolver, single: bool, events: seq<Event>, anchors: Anchors, docs: seq<Node>, current: Option<Node>, seen: bool)
    : Result<seq<Node>, YamlError>
    decreases |events|
  {
    if events == [] then Ok(docs + Pending(current))
    else if events[0].Outside? then
      match events[0].what
      case DocumentStart => Stream(r, single, events[1..], map[], docs, current, seen)
      case DocumentEnd =>
        Stream(r, single, events[1..], anchors, docs + [if current.Some? then current.value else NullAt(r)], None, seen)
      case StreamEnd => Ok(docs + Pending(current))
      case _ => Stream(r, single, events[1..], anchors, docs, current, seen)
    else if single && seen then Err(ManyDocuments)
    else match Build(r, events, anchors)
      case Err(e) => Err(e)
      case Ok(b) => Stream(r, single, b.rest, b.anchors, docs, Some(b.node), true)
  }

  function Pending(current: Option<Node>): seq<Node> { if current.Some? then [current.value] else [] }

  /** A stream of one document. */
  function OneDocument(t: Syntax, m: Mark): seq<Event> {
    [Outside(StreamStart, m), Outside(DocumentStart, m)] + Flatten(t) + [Outside(DocumentEnd, m), Outside(StreamEnd, m)]
  }

  lemma OneDocumentIsItsMeaning(r: Resolver, single: bool, t: Syntax, m: Mark)
    ensures Stream(r, single, OneDocument(t, m), map[], [], None, false) ==
      match Mean(r, t, map[]) case Err(e) => Err(e) case Ok(mean) => Ok([mean.node])
  {
    var events := OneDocument(t, m);
    var end := [Outside(DocumentEnd, m), Outside(StreamEnd, m)];
    assert events[1..] == [Outside(DocumentStart, m)] + (Flatten(t) + end);
    assert events[1..][1..] == Flatten(t) + end;
    FirstIsNoEnd(t);
    BuildsTheMeaning(r, t, end, map[]);
    assert end[1..] == [Outside(StreamEnd, m)];
    var content := Stream(r, single, Flatten(t) + end, map[], [], None, false);
    assert Stream(r, single, events, map[], [], None, false) ==
      Stream(r, single, events[1..], map[], [], None, false) == content;
    match Mean(r, t, map[]) {
      case Err(_) =>
      case Ok(mean) =>
        assert content == Stream(r, single, end, mean.anchors, [], Some(mean.node), true);
        assert [] + [mean.node] == [mean.node] && [mean.node] + Pending(None) == [mean.node];
        assert Stream(r, single, end[1..], mean.anchors, [mean.node], None, true) == Ok([mean.node]);
    }
  }

  // ---- several documents ----------------------------------------------------------------------------

  /** A document with its content, if it has any. */
  datatype Document = Document(content: Option<Syntax>, mark: Mark)

  function DocumentEvents(docs: seq<Document>): seq<Event> {
    if docs == [] then []
    else
      var d := docs[0];
      [Outside(DocumentStart, d.mark)] + (if d.content.Some? then Flatten(d.content.value) else []) +
      [Outside(DocumentEnd, d.mark)] + DocumentEvents(docs[1..])
  }

  /** An empty document is null; where one document is wanted, a second one with content
      is an error. No document knows the anchors of another. */
  function DocumentsMean(r: Resolver, single: bool, docs: seq<Document>, seen: bool): Result<seq<Node>, YamlError> {
    if docs == [] then Ok([])
    else
      match docs[0].content
      case None =>
        (match DocumentsMean(r, single, docs[1..], seen)
         case Err(e) => Err(e)
         case Ok(rest) => Ok([Node(Null, At(r.file, 1, 1))] + rest))
      case Some(t) =>
        if single && seen then Err(ManyDocuments)
        else match Mean(r, t, map[])
          case Err(e) => Err(e)
          case Ok(first) =>
            match DocumentsMean(r, single, docs[1..], true)
            case Err(e) => Err(e)
            case Ok(rest) => Ok([first.node] + rest)
  }

  lemma {:induction false} DocumentsAreTheirMeanings(
    r: Resolver, single: bool, docs: seq<Document>, m: Mark, anchors: Anchors, done: seq<Node>, seen: bool)
    ensures Stream(r, single, DocumentEvents(docs) + [Outside(StreamEnd, m)], anchors, done, None, seen) ==
      match DocumentsMean(r, single, docs, seen) case Err(e) => Err(e) case Ok(nodes) => Ok(done + nodes)
    decreases |docs|
  {
    if docs == [] {
      assert DocumentEvents(docs) + [Outside(StreamEnd, m)] == [Outside(StreamEnd, m)];
      assert done + Pending(None) == done + [];
    } else {
      var d := docs[0];
      var after := DocumentOpens(r, single, docs, m, anchors, done, seen);
      match d.content {
        case None =>
          NextDocument(r, single, docs, m, map[], done, seen, NullAt(r));
        case Some(t) =>
          ContentIsRead(r, single, t, after, done, seen);
          if !(single && seen) && Mean(r, t, map[]).Ok? {
            NextDocument(r, single, docs, m, Mean(r, t, map[]).value.anchors, done, true, Mean(r, t, map[]).value.node);
          }
      }
    }
  }

  /** The start of a document forgets the anchors. */
  lemma {:induction false} DocumentOpens(
    r: Resolver, single: bool, docs: seq<Document>, m: Mark, anchors: Anchors, done: seq<Node>, seen: bool)
    returns (after: seq<Event>)
    requires docs != []
    ensures after != [] && after[0] == Outside(DocumentEnd, docs[0].mark)
    ensures after[1..] == DocumentEvents(docs[1..]) + [Outside(StreamEnd, m)]
    ensures Stream(r, single, DocumentEvents(docs) + [Outside(StreamEnd, m)], anchors, done, None, seen) ==
      match docs[0].content
      case Some(t) => Stream(r, single, Flatten(t) + after, map[], done, None, seen)
      case None => Stream(r, single, after[1..], map[], done + [NullAt(r)], None, seen)
  {
    after := [Outside(DocumentEnd, docs[0].mark)] + (DocumentEvents(docs[1..]) + [Outside(StreamEnd, m)]);
    FirstDocument(docs, Outside(StreamEnd, m), after);
  }

  lemma {:induction false} FirstDocument(docs: seq<Document>, end: Event, after: seq<Event>)
    requires docs != []
    requires after == [Outside(DocumentEnd, docs[0].mark)] + (DocumentEvents(docs[1..]) + [end])
    ensures var events := DocumentEvents(docs) + [end];
      var body := if docs[0].content.Some? then Flatten(docs[0].content.value) + after else after;
      events != [] && events[0] == Outside(DocumentStart, docs[0].mark) && events[1..] == body
  {
    var d := docs[0];
    var body := if d.content.Some? then Flatten(d.content.value) else [];
    assert DocumentEvents(docs) + [end] == [Outside(DocumentStart, d.mark)] + (body + after);
    assert body + after == if d.content.Some? then Flatten(d.content.value) + after else after;
  }

  lemma {:induction false} ContentIsRead(
    r: Resolver, single: bool, t: Syntax, after: seq<Event>, done: seq<Node>, seen: bool)
    requires after != [] && after[0].Outside? && after[0].what == DocumentEnd
    ensures Stream(r, single, Flatten(t) + after, map[], done, None, seen) ==
      if single && seen then Err(ManyDocuments)
      else match Mean(r, t, map[])
        case Err(e) => Err(e)
        case Ok(mean) => Stream(r, single, after[1..], mean.anchors, done + [mean.node], None, true)
  {
    var events := Flatten(t) + after;
    FirstIsNoEnd(t);
    assert events[0] == Flatten(t)[0];
    BuildsTheMeaning(r, t, after, map[]);
    if !(single && seen) && Mean(r, t, map[]).Ok? {
      var mean := Mean(r, t, map[]).value;
      assert Stream(r, single, events, map[], done, None, seen) ==
        Stream(r, single, after, mean.anchors, done, Some(mean.node), true);
    }
  }

  lemma {:induction false} NextDocument(
    r: Resolver, single: bool, docs: seq<Document>, m: Mark, anchors: Anchors, done: seq<Node>, seen: bool, n: Node)
    requires docs != []
    ensures Stream(r, single, DocumentEvents(docs[1..]) + [Outside(StreamEnd, m)], anchors, done + [n], None, seen) ==
      match DocumentsMean(r, single, docs[1..], seen) case Err(e) => Err(e) case Ok(nodes) => Ok(done + ([n] + nodes))
    decreases |docs|, 0
  {
    DocumentsAreTheirMeanings(r, single, docs[1..], m, anchors, done + [n], seen);
    if DocumentsMean(r, single, docs[1..], seen).Ok? {
      var nodes := DocumentsMean(r, single, docs[1..], seen).value;
      assert done + [n] + nodes == done + ([n] + nodes);
    }
  }

  /** Quoted scalars and those tagged as strings are their text, whatever it looks like;
      other tags than the core ones are an error, and plain ones are resolved. */
  lemma ScalarsMean(r: Resolver, text: string, style: Style, anchor: nat, m: Mark, rest: seq<Event>, anchors: Anchors)
    ensures var n := Node(Str(text), At(r.file, m.line, m.col + 1));
      && (style != Plain ==>
           Build(r, [ScalarEvent(Scalar(text, style, None), anchor, m)] + rest, anchors) ==
           Ok(Built(n, rest, if anchor == 0 then anchors else anchors[anchor := n])))
      && (forall h :: h in {"!!", "tag:yaml.org,2002:"} ==>
           Build(r, [ScalarEvent(Scalar(text, style, Some(Tag(h, "str"))), anchor, m)] + rest, anchors) ==
           Ok(Built(n, rest, if anchor == 0 then anchors else anchors[anchor := n])))
      && (forall h, suffix :: h !in {"!!", "tag:yaml.org,2002:"} ==>
           Build(r, [ScalarEvent(Scalar(text, style, Some(Tag(h, suffix))), anchor, m)] + rest, anchors) ==
           Err(UnknownTag))
  {
    forall e: Event ensures ([e] + rest)[0] == e && ([e] + rest)[1..] == rest {
    }
  }

  // ---- the loader as it runs -----------------------------------------------------------------------------

  class Loader {
    const r: Resolver
    var events: seq<Event>
    var anchors: Anchors

    constructor (r: Resolver, events: seq<Event>)
      ensures this.r == r && this.events == events && anchors == map[]
    {
      this.r, this.events, anchors := r, events, map[];
    }

    /** `next`: when the parser has no more events, the end of the stream. */
    method Next() returns (e: Event)
      modifies this`events
      ensures events == if old(events) == [] then [] else old(events)[1..]
      ensures e == if old(events) == [] then Outside(StreamEnd, Mark(0, 0)) else old(events)[0]
    {
      if events == [] {
        return Outside(StreamEnd, Mark(0, 0));
      }
      e := events[0];
      events := events[1..];
    }

    method Note(anchor: nat, n: Node)
      modifies this`anchors
      ensures anchors == Anchored(old(anchors), anchor, n)
    {
      if anchor != 0 {
        anchors := anchors[anchor := n];
      }
    }

    /** `build`, from the event at hand on. */
    method BuildNode(event: Event) returns (n: Result<Node, YamlError>)
      modifies this
      ensures Tells(Build(r, [event] + old(events), old(anchors)), n, events, anchors)
      decreases |events|, 1
    {
      assert ([event] + events)[1..] == events;
      match event {
        case ScalarEvent(s, a, m) =>
          var v := Resolve(r, s);
          if v.Err? {
            return Err(v.error);
          }
          Note(a, Node(v.value, OriginOf(r, m)));
          n := Ok(Node(v.value, OriginOf(r, m)));
        case Alias(id, _) =>
          n := if id in anchors then Ok(anchors[id]) else Err(UnknownAlias);
        case SeqStart(a, g, m) =>
          if !TagFits(g, "seq") {
            return Err(UnknownTag);
          }
          var items := ReadItems();
          if items.Err? {
            return Err(items.error);
          }
          Note(a, Node(List(items.value), OriginOf(r, m)));
          n := Ok(Node(List(items.value), OriginOf(r, m)));
        case MapStart(a, g, m) =>
          if !TagFits(g, "map") {
            return Err(UnknownTag);
          }
          var read := ReadPairs();
          if read.Err? {
            return Err(read.error);
          }
          var entries := Entries(read.value.0, read.value.1);
          if entries.Err? {
            return Err(entries.error);
          }
          Note(a, Node(Map(entries.value), OriginOf(r, m)));
          n := Ok(Node(Map(entries.value), OriginOf(r, m)));
        case _ =>
          n := Err(SyntaxError);
      }
    }

    method ReadItems() returns (items: Result<seq<Node>, YamlError>)
      modifies this
      ensures match BuildItems(r, old(events), old(anchors), [])
        case Err(e) => items == Err(e)
        case Ok(b) => items == Ok(b.items) && events == b.rest && anchors == b.anchors
      decreases |events|, 0
    {
      var read: seq<Node> := [];
      ghost var goal := BuildItems(r, events, anchors, []);
      while true
        invariant BuildItems(r, events, anchors, read) == goal && |events| <= old(|events|)
        decreases |events|
      {
        if events == [] {
          return Err(SyntaxError);
        }
        ghost var ahead := events;
        var e := Next();
        assert ahead == [e] + events;
        if e.SeqEnd? {
          return Ok(read);
        }
        var n := BuildNode(e);
        if n.Err? {
          return Err(n.error);
        }
        read := read + [n.value];
      }
    }

    method ReadPairs() returns (read: Result<(seq<Entry>, seq<Node>), YamlError>)
      modifies this
      ensures match BuildPairs(r, old(events), old(anchors), [], [])
        case Err(e) => read == Err(e)
        case Ok(b) => read == Ok((b.pairs, b.merges)) && events == b.rest && anchors == b.anchors
      decreases |events|, 0
    {
      var pairs: seq<Entry>, merges: seq<Node> := [], [];
      ghost var goal := BuildPairs(r, events, anchors, [], []);
      while true
        invariant BuildPairs(r, events, anchors, pairs, merges) == goal && |events| <= old(|events|)
        decreases |events|
      {
        if events == [] {
          return Err(ComplexKey);
        }
        ghost var ahead := events;
        var e := Next();
        assert ahead == [e] + events && ahead[1..] == events;
        if e.MapEnd? {
          return Ok((pairs, merges));
        }
        var k := AsKey(e);
        if k.None? {
          return Err(ComplexKey);
        }
        var key := KeyOf(r, k.value, anchors);
        if key.Err? {
          return Err(key.error);
        }
        if events == [] {
          return Err(SyntaxError);
        }
        var v := Next();
        assert ahead[1..] == [v] + events;
        var n := BuildNode(v);
        if n.Err? {
          return Err(n.error);
        }
        if key.value.1 {
          merges := merges + [n.value];
        } else {
          pairs := pairs + [Entry(key.value.0, n.value)];
        }
      }
    }
  }

  /** `parse_stream` */
  method ParseStream(r: Resolver, events: seq<Event>, single: bool) returns (docs: Result<seq<Node>, YamlError>)
    ensures docs == Stream(r, single, events, map[], [], None, false)
  {
    var loader := new Loader(r, events);
    var done: seq<Node>, current: Option<Node>, seen := [], None, false;
    ghost var goal := Stream(r, single, events, map[], [], None, false);
    while true
      invariant Stream(r, single, loader.events, loader.anchors, done, current, seen) == goal && loader.r == r
      decreases |loader.events|
    {
      ghost var ahead := loader.events;
      var wasEnd := loader.events == [];
      var e := loader.Next();
      assert !wasEnd ==> ahead == [e] + loader.events && ahead[1..] == loader.events;
      if e.Outside? {
        match e.what {
          case DocumentStart => loader.anchors := map[];
          case DocumentEnd =>
            done := done + [if current.Some? then current.value else NullAt(r)];
            current := None;
          case StreamEnd =>
            return Ok(done + Pending(current));
          case _ =>
        }
      } else {
        if single && seen {
          return Err(ManyDocuments);
        }
        seen := true;
        var n := loader.BuildNode(e);
        if n.Err? {
          return Err(n.error);
        }
        current := Some(n.value);
      }
    }
  }

  /** The loader did what the function says. */
  predicate Tells(b: Result<Built, YamlError>, n: Result<Node, YamlError>, events: seq<Event>, anchors: Anchors) {
    match b
    case Err(e) => n == Err(e)
    case Ok(v) => n == Ok(v.node) && events == v.rest && anchors == v.anchors
  }
}

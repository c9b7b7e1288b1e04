/**
 Deterministic programs that read the outside world (a target's compile, a kadet
 item), and what their reads determine. Such a program is a function from the
 answers it has had so far to its next question or its result; a run is the list
 of questions it asked.
*/
module Readers {
  import opened Wrappers
  import opened Digest

  /** A rendered document, as the JSON it is. */
  datatype Json =
    | JNull
    | JBool(b: bool)
    | JNumber(text: string)
    | JString(s: string)
    | JArray(items: seq<Json>)
    | JObject(members: map<string, Json>)
  {
    function Get(key: string): Option<Json> {
      if JObject? && key in members then Some(members[key]) else None
    }
  }

  /** What can be asked. Looking at a path covers reading a file, listing a directory
      and finding nothing there. */
  datatype Question =
    | LookAt(path: Path)
    | DocKey(key: string)          // part of the target's own document
    | OtherTarget(name: string)    // through the global inventory
    | AllTargets

  datatype Answer =
    | Seen(view: View)
    | Part(value: Option<Json>)
    | Doc(doc: Option<Json>)
    | Docs(docs: map<string, Json>)

  /** The disk, every rendered document, and whose compile this is. */
  datatype World = World(fs: Fs, docs: map<string, Json>, own: string)

  const OWN_PARAMETERS := "parameters."

  /** The part of the own document a key names: `parameters.<key>`, a top-level key, or `*`. */
  function DocPart(doc: Json, key: string): Option<Json> {
    if key == "*" then Some(doc)
    else if OWN_PARAMETERS <= key then
      match doc.Get("parameters")
      case None => None
      case Some(p) => p.Get(key[|OWN_PARAMETERS|..])
    else doc.Get(key)
  }

  function Ask(w: World, q: Question): Answer
    requires w.own in w.docs
  {
    match q
    case LookAt(p) => Seen(Look(w.fs, p))
    case DocKey(key) => Part(DocPart(w.docs[w.own], key))
    case OtherTarget(name) => Doc(if name in w.docs then Some(w.docs[name]) else None)
    case AllTargets => Docs(w.docs)
  }

  datatype Step<+Out> = Next(q: Question) | Done(out: Out)

  type Reader<+Out> = seq<Answer> -> Step<Out>

  function Answers(w: World, asked: seq<Question>): (r: seq<Answer>)
    requires w.own in w.docs
    ensures |r| == |asked| && forall i :: 0 <= i < |r| ==> r[i] == Ask(w, asked[i])
  {
    seq(|asked|, i requires 0 <= i < |asked| => Ask(w, asked[i]))
  }

  /** In world `w` the program asks exactly these questions and ends with `out`. */
  ghost predicate Runs<Out(!new)>(program: Reader<Out>, w: World, asked: seq<Question>, out: Out)
    requires w.own in w.docs
  {
    var got := Answers(w, asked);
    && (forall i :: 0 <= i < |asked| ==> program(got[..i]) == Next(asked[i]))
    && program(got) == Done(out)
  }

  /** Two worlds in which every question asked has the same answer. */
  ghost predicate SameAnswers(w1: World, w2: World, asked: seq<Question>)
    requires w1.own in w1.docs && w2.own in w2.docs
  {
    forall i :: 0 <= i < |asked| ==> Ask(w1, asked[i]) == Ask(w2, asked[i])
  }

  /** A run depends on nothing but the answers it had. */
  lemma SameAnswersSameRun<Out(!new)>(program: Reader<Out>, w1: World, w2: World, asked: seq<Question>, out: Out)
    requires w1.own in w1.docs && w2.own in w2.docs
    requires Runs(program, w1, asked, out) && SameAnswers(w1, w2, asked)
    ensures Runs(program, w2, asked, out)
  {
    assert Answers(w1, asked) == Answers(w2, asked);
  }

  /** In one world there is only one run. */
  lemma RunsAgree<Out(!new)>(
    program: Reader<Out>, w: World, asked1: seq<Question>, out1: Out, asked2: seq<Question>, out2: Out)
    requires w.own in w.docs
    requires Runs(program, w, asked1, out1) && Runs(program, w, asked2, out2)
    ensures asked1 == asked2 && out1 == out2
  {
    var n := if |asked1| <= |asked2| then |asked1| else |asked2|;
    SamePrefix(program, w, asked1, out1, asked2, out2, n);
    var got1, got2 := Answers(w, asked1), Answers(w, asked2);
    assert got1[..|asked1|] == got1 && got2[..|asked2|] == got2;
    assert asked1[..|asked1|] == asked1 && asked2[..|asked2|] == asked2;
    assert n == |asked1| == |asked2|;
  }

  lemma {:induction false} SamePrefix<Out(!new)>(
    program: Reader<Out>, w: World, asked1: seq<Question>, out1: Out, asked2: seq<Question>, out2: Out, n: nat)
    requires w.own in w.docs && n <= |asked1| && n <= |asked2|
    requires Runs(program, w, asked1, out1) && Runs(program, w, asked2, out2)
    ensures asked1[..n] == asked2[..n] && Answers(w, asked1)[..n] == Answers(w, asked2)[..n]
    decreases n
  {
    if n > 0 {
      SamePrefix(program, w, asked1, out1, asked2, out2, n - 1);
      assert asked1[..n] == asked1[..n - 1] + [asked1[n - 1]];
      assert asked2[..n] == asked2[..n - 1] + [asked2[n - 1]];
    }
  }
}

/**
 What a failed load says (inventory.rs): its cause is found at the end of a chain of class
 references, and its labels name the references of this chain, the innermost first.
*/
module Failures {
  import opened Wrappers
  import opened Values
  import opened ClassLoader
  import opened Footprint

  /** Something is wrong with the file itself, with a file on the stack being in use. */
  ghost predicate FailsAt(env: Env, t: Tree, file: Path, stack: seq<Path>, e: Failure) {
    || Load(env, t, file) == Err(e)
    || (Load(env, t, file).Ok? && Expand(env, t, Load(env, t, file).value.doc.classes) == Err(e))
    || (ClassList(env, t, file).Some? &&
        exists r :: r in ClassList(env, t, file).value && RefFails(env, t, file, r, stack, e))
  }

  /** A class that is not found, or closes a cycle. */
  ghost predicate RefFails(env: Env, t: Tree, file: Path, r: ClassRef, stack: seq<Path>, e: Failure) {
    var res := ResolveClass(env, t, r.name, file);
    match res.found
    case None =>
      !env.ignoreClassNotFound &&
      e == Failure(ClassNotFound(r.name, res.tried[..4]), Labels(r.origin, "referenced here"), None)
    case Some(g) => g in stack && e == Failure(ClassCycle(r.name), Labels(r.origin, "cycle closes here"), None)
  }

  function Labels(origin: Origin, text: string): seq<Label> {
    if origin.Synthetic? then [] else [Label(origin, text)]
  }

  /** The references of a chain, the last one first. */
  function IncludedAs(via: seq<ClassRef>): seq<Label> {
    if via == [] then [] else IncludedAs(via[1..]) + Labels(via[0].origin, "included as `" + via[0].name + "`")
  }

  /** Each file of the walk includes the next one by this reference. */
  ghost predicate Leads(env: Env, t: Tree, w: seq<Path>, via: seq<ClassRef>) {
    w != [] && |via| == |w| - 1 && forall i :: 0 <= i < |via| ==>
      && ClassList(env, t, w[i]).Some? && via[i] in ClassList(env, t, w[i]).value
      && ResolveClass(env, t, via[i].name, w[i]).found == Some(w[i + 1])
  }

  /** The failure is that of the last file of a chain, with the chain as labels. */
  ghost predicate Explains(
    env: Env, t: Tree, file: Path, stack: seq<Path>, e: Failure, w: seq<Path>, via: seq<ClassRef>, at: Failure)
  {
    && Leads(env, t, w, via) && w[0] == file
    && FailsAt(env, t, w[|w| - 1], stack + w, at)
    && e == at.(labels := at.labels + IncludedAs(via))
  }

  lemma {:induction false} ClosureFailure(env: Env, t: Tree, file: Path, initial: Node, stack: seq<Path>)
    returns (w: seq<Path>, via: seq<ClassRef>, at: Failure)
    requires file !in stack && BuildClosure(env, t, file, initial, stack).Err?
    ensures Explains(env, t, file, stack, BuildClosure(env, t, file, initial, stack).error, w, via, at)
    decreases Room(t, stack), 0, 0
  {
    var e := BuildFails(env, t, file, initial, stack);
    if ClassList(env, t, file).Some? {
      RoomShrinks(t, stack, file);
      var refs, acc := ClassList(env, t, file).value, Start(env, file, Load(env, t, file).value.doc, initial);
      var r, below;
      r, below, via, at := ListFailure(env, t, file, refs, acc, stack + [file]);
      if below == [] {
        w, via := [file], [];
        HereItself(env, t, file, stack, r, e);
      } else {
        OneMoreInFront(env, t, file, stack, r, at, below, via);
        w, via := [file] + below, [r] + via;
      }
    } else {
      w, via, at := [file], [], e;
      NoList(env, t, file, stack, e);
    }
  }

  /** A file that cannot be read, a bad class list, or a pass over it that fails. */
  lemma BuildFails(env: Env, t: Tree, file: Path, initial: Node, stack: seq<Path>) returns (e: Failure)
    requires file !in stack && BuildClosure(env, t, file, initial, stack).Err?
    ensures e == BuildClosure(env, t, file, initial, stack).error
    ensures ClassList(env, t, file).None? ==>
      || Load(env, t, file) == Err(e)
      || (Load(env, t, file).Ok? && Expand(env, t, Load(env, t, file).value.doc.classes) == Err(e))
    ensures ClassList(env, t, file).Some? ==>
      && Load(env, t, file).Ok?
      && var acc := Start(env, file, Load(env, t, file).value.doc, initial);
         Includes(env, t, file, ClassList(env, t, file).value, acc, stack + [file]) == Err(e)
  {
    e := BuildClosure(env, t, file, initial, stack).error;
  }

  lemma NoList(env: Env, t: Tree, file: Path, stack: seq<Path>, e: Failure)
    requires ClassList(env, t, file).None?
    requires Load(env, t, file) == Err(e) ||
      (Load(env, t, file).Ok? && Expand(env, t, Load(env, t, file).value.doc.classes) == Err(e))
    ensures Explains(env, t, file, stack, e, [file], [], e)
  {
    assert e.labels + [] == e.labels;
  }

  lemma HereItself(env: Env, t: Tree, file: Path, stack: seq<Path>, r: ClassRef, e: Failure)
    requires ClassList(env, t, file).Some? && r in ClassList(env, t, file).value
    requires RefFails(env, t, file, r, stack + [file], e)
    ensures Explains(env, t, file, stack, e, [file], [], e)
  {
    assert e.labels + [] == e.labels;
  }

  /** Of a list one reference fails, by itself or further down. */
  lemma {:induction false} ListFailure(
    env: Env, t: Tree, file: Path, refs: seq<ClassRef>, acc: Acc, stack: seq<Path>)
    returns (r: ClassRef, w: seq<Path>, via: seq<ClassRef>, at: Failure)
    requires Includes(env, t, file, refs, acc, stack).Err?
    ensures r in refs
    ensures var e := Includes(env, t, file, refs, acc, stack).error;
      if w == [] then e == at && RefFails(env, t, file, r, stack, at)
      else
        && ResolveClass(env, t, r.name, file).found == Some(w[0])
        && e.labels == at.labels + IncludedAs(via) + Labels(r.origin, "included as `" + r.name + "`")
        && Explains(env, t, w[0], stack, at.(labels := at.labels + IncludedAs(via)), w, via, at)
        && e == at.(labels := e.labels)
    decreases Room(t, stack), 1, |refs|
  {
    r := refs[0];
    var first := Include(env, t, file, r, acc, stack);
    if first.Ok? {
      r, w, via, at := ListFailure(env, t, file, refs[1..], first.value, stack);
    } else {
      var found := ResolveClass(env, t, r.name, file).found;
      if found.Some? && found.value !in stack {
        w, via, at := ClosureFailure(env, t, found.value, EmptyMap, stack);
      } else {
        w, via, at := [], [], first.error;
      }
    }
  }

  lemma OneMoreInFront(
    env: Env, t: Tree, file: Path, stack: seq<Path>, r: ClassRef, at: Failure, w: seq<Path>, via: seq<ClassRef>)
    requires ClassList(env, t, file).Some? && r in ClassList(env, t, file).value && w != []
    requires ResolveClass(env, t, r.name, file).found == Some(w[0])
    requires Explains(env, t, w[0], stack + [file], at.(labels := at.labels + IncludedAs(via)), w, via, at)
    ensures Explains(env, t, file, stack, at.(labels := at.labels + IncludedAs(via) +
      Labels(r.origin, "included as `" + r.name + "`")), [file] + w, [r] + via, at)
  {
    SameStack(stack, file, w);
    LeadsInFront(env, t, file, r, w, via);
    LabelsInFront(at.labels, r, via);
  }

  lemma SameStack(stack: seq<Path>, file: Path, w: seq<Path>)
    requires w != []
    ensures stack + [file] + w == stack + ([file] + w) && ([file] + w)[|[file] + w| - 1] == w[|w| - 1]
  {
  }

  lemma LabelsInFront(labels: seq<Label>, r: ClassRef, via: seq<ClassRef>)
    ensures labels + IncludedAs(via) + Labels(r.origin, "included as `" + r.name + "`") ==
            labels + IncludedAs([r] + via)
  {
    assert ([r] + via)[1..] == via;
    var a, b := IncludedAs(via), Labels(r.origin, "included as `" + r.name + "`");
    assert labels + a + b == labels + (a + b);
  }

  lemma LeadsInFront(env: Env, t: Tree, file: Path, r: ClassRef, w: seq<Path>, via: seq<ClassRef>)
    requires Leads(env, t, w, via) && ClassList(env, t, file).Some? && r in ClassList(env, t, file).value
    requires ResolveClass(env, t, r.name, file).found == Some(w[0])
    ensures Leads(env, t, [file] + w, [r] + via)
  {
    var all, refs := [file] + w, [r] + via;
    forall i | 0 <= i < |refs|
      ensures ClassList(env, t, all[i]).Some? && refs[i] in ClassList(env, t, all[i]).value &&
              ResolveClass(env, t, refs[i].name, all[i]).found == Some(all[i + 1])
    {
      if i > 0 {
        assert refs[i] == via[i - 1] && all[i] == w[i - 1] && all[i + 1] == w[i];
      }
    }
  }
}

/** A target's directory is its path joined to the root (engine.rs). */
module TargetDirs {
  import opened Strings
  import opened Normalise
  import I = Install

  predicate Dotless(parts: seq<string>) { forall i :: 0 <= i < |parts| ==> '/' !in parts[i] && '.' !in parts[i] }

  /** `root.join(target_path)`: where the joined text leads, empty parts and a leading slash
      included. */
  lemma {:induction false} TargetDirIsJoined(root: seq<string>, tp: seq<string>)
    requires (forall i :: 0 <= i < |root| ==> IsName(root[i])) && UP !in root && tp != [] && Dotless(tp)
    ensures Normalised(Components(Joined(Text(Place(true, root)), Join(tp, "/")))) == Place(true, I.TargetDir(root, tp))
  {
    var rel, pieces := Join(tp, "/"), Nonempty(tp);
    SplitJoin(tp, '/');
    NamesLeft(tp);
    StartsWithSlash(tp);
    if IsAbsolute(rel) {
      LeadsTo(rel, pieces);
    } else {
      JoinedPieces(Place(true, root), rel);
      LeadsTo(Joined(Text(Place(true, root)), rel), root + pieces);
    }
  }

  lemma StartsWithSlash(tp: seq<string>)
    requires tp != [] && Dotless(tp)
    ensures IsAbsolute(Join(tp, "/")) <==> |tp| > 1 && tp[0] == ""
  {
    if tp[0] != "" {
      assert tp[0][0] in tp[0] && Join(tp, "/")[0] == tp[0][0];
    }
  }

  lemma {:induction false} NamesLeft(tp: seq<string>)
    requires Dotless(tp)
    ensures forall i :: 0 <= i < |Nonempty(tp)| ==> IsName(Nonempty(tp)[i])
    ensures UP !in Nonempty(tp)
    decreases |tp|
  {
    if tp != [] {
      NamesLeft(tp[1..]);
      if tp[0] != "" {
        assert tp[0][0] in tp[0] && '.' in "." && '.' in UP;
        assert Nonempty(tp) == [tp[0]] + Nonempty(tp[1..]);
      } else {
        assert Nonempty(tp) == Nonempty(tp[1..]);
      }
    }
  }

  /** An absolute text of names leads to these names. */
  lemma {:induction false} LeadsTo(text: string, names: seq<string>)
    requires IsAbsolute(text) && Nonempty(Split(text, '/')) == names && UP !in names
    requires forall i :: 0 <= i < |names| ==> IsName(names[i])
    ensures Normalised(Components(text)) == Place(true, names)
  {
    PartsOfNames(names);
    assert Components(text) == Steps(Place(true, names));
    NormalIsItsOwnForm(Place(true, names));
  }
}

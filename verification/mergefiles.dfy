/** The merge of whole files and of whole trees, `three_way` and `rebase` of `github/merge.py`. */
module MergeFiles {
  import opened Merge
  import opened MergeOutput
  import opened Options

  /** What the merge of files takes from elsewhere: `is_text`, decoding and
      splitting into lines, joining and encoding, and the difference of two texts. */
  datatype Codec<!File> = Codec(isText: File -> bool, split: File -> seq<Line>, join: seq<Line> -> File, diff: Differ)

  ghost predicate TextFile<File>(codec: Codec<File>, f: Option<File>) {
    f == None || codec.isText(f.value)
  }

  /** `three_way`: the merged file, and whether it needs attention. */
  ghost function ThreeWay<File>(codec: Codec<File>, base: Option<File>, ours: Option<File>,
          theirs: Option<File>): (r: (Option<File>, bool))
    requires Diffs(codec.diff)
  {
    if ours == theirs then (ours, false)
    else if ours == base then (theirs, false)
    else if theirs == base then (ours, false)
    else if ours == None || theirs == None then (if ours != None then ours else theirs, true)
    else if !(TextFile(codec, base) && TextFile(codec, ours) && TextFile(codec, theirs)) then (ours, true)
    else
      var rs := MergeOf(codec.diff, if base == None then [] else codec.split(base.value),
                        codec.split(ours.value), codec.split(theirs.value));
      (Some(codec.join(Concat(Printed, rs))), Clashes(rs))
  }

  method ThreeWayMerge<File(==)>(codec: Codec<File>, base: Option<File>, ours: Option<File>, theirs: Option<File>)
    returns (merged: Option<File>, conflicted: bool)
    requires Diffs(codec.diff)
    ensures (merged, conflicted) == ThreeWay(codec, base, ours, theirs)
  {
    if ours == theirs { return ours, false; }
    if ours == base { return theirs, false; }
    if theirs == base { return ours, false; }
    if ours == None || theirs == None { return if ours != None then ours else theirs, true; }
    if !((base == None || codec.isText(base.value)) && codec.isText(ours.value) && codec.isText(theirs.value)) {
      return ours, true;
    }
    var lines, clash := MergeLines(if base == None then [] else codec.split(base.value),
                                   codec.split(ours.value), codec.split(theirs.value), codec.diff);
    return Some(codec.join(lines)), clash;
  }

  /** A side that did not change gives way to the other; and the verdict never
      depends on which side is called ours. */
  lemma ThreeWayLaws<File>(codec: Codec<File>, base: Option<File>, ours: Option<File>, theirs: Option<File>)
    requires Diffs(codec.diff)
    ensures ThreeWay(codec, base, base, theirs) == (theirs, false)
    ensures ThreeWay(codec, base, ours, base) == (ours, false)
    ensures ThreeWay(codec, base, ours, ours) == (ours, false)
    ensures ThreeWay(codec, base, ours, theirs).1 == ThreeWay(codec, base, theirs, ours).1
    ensures TextFile(codec, base) && TextFile(codec, ours) && TextFile(codec, theirs)
      && !ThreeWay(codec, base, ours, theirs).1
      ==> ThreeWay(codec, base, ours, theirs).0 == ThreeWay(codec, base, theirs, ours).0
  {
    hide MergeOf, Clashes;
    if ours != None && theirs != None {
      var b := if base == None then [] else codec.split(base.value);
      var rs, ss := MergeOf(codec.diff, b, codec.split(ours.value), codec.split(theirs.value)),
                    MergeOf(codec.diff, b, codec.split(theirs.value), codec.split(ours.value));
      MergeIsSymmetric(codec.diff, b, codec.split(ours.value), codec.split(theirs.value));
      if !Clashes(rs) { FlipPrints(b, rs, ss, codec.diff, codec.split(ours.value), codec.split(theirs.value)); }
    }
  }

  lemma FlipPrints(base: seq<Line>, rs: seq<Region>, ss: seq<Region>, diff: Differ, ours: seq<Line>, theirs: seq<Line>)
    requires Diffs(diff) && rs == MergeOf(diff, base, ours, theirs) && ss == Flip(rs) && !Clashes(rs)
    ensures Concat(Printed, ss) == Concat(Printed, rs)
  {
    MergeIsSymmetric(diff, base, ours, theirs);
    ConcatSame(rs, ss);
  }

  lemma {:induction false} ConcatSame(rs: seq<Region>, ss: seq<Region>)
    requires |rs| == |ss| && forall k | 0 <= k < |rs| :: rs[k].Print() == ss[k].Print()
    ensures Concat(Printed, ss) == Concat(Printed, rs)
  {
    if rs != [] { ConcatSame(rs[1..], ss[1..]); }
  }

  /** Each line put in by either side is among the lines. */
  ghost predicate HoldsEdits(diff: Differ, base: seq<Line>, ours: seq<Line>, theirs: seq<Line>, lines: seq<Line>)
    requires Diffs(diff)
  {
    forall c, l | (c in ChunksOf(diff, base, ours) || c in ChunksOf(diff, base, theirs)) && l in c.lines :: l in lines
  }

  /** When both sides have changed the file, and differently: an edit wins over a
      deletion and ours over theirs if one of the three is no text, always with a
      conflict; and the merge of texts holds every edit of both. */
  lemma ThreeWayDisagreements<File>(codec: Codec<File>, base: Option<File>, ours: Option<File>, theirs: Option<File>)
    requires Diffs(codec.diff) && ours != theirs && ours != base && theirs != base
    ensures ours == None ==> ThreeWay(codec, base, ours, theirs) == (theirs, true)
    ensures theirs == None ==> ThreeWay(codec, base, ours, theirs) == (ours, true)
    ensures ours != None && theirs != None ==>
      var text := (base == None || codec.isText(base.value)) && codec.isText(ours.value) && codec.isText(theirs.value);
      var b := if base == None then [] else codec.split(base.value);
      var rs := MergeOf(codec.diff, b, codec.split(ours.value), codec.split(theirs.value));
      if text then
        && (ThreeWay(codec, base, ours, theirs).1 <==> exists k :: 0 <= k < |rs| && rs[k].side == Clash)
        && exists lines :: ThreeWay(codec, base, ours, theirs).0 == Some(codec.join(lines))
             && HoldsEdits(codec.diff, b, codec.split(ours.value), codec.split(theirs.value), lines)
      else ThreeWay(codec, base, ours, theirs) == (ours, true)
  {
    hide MergeOf, HoldsEdits, Concat;
    if ours != None && theirs != None {
      var b := if base == None then [] else codec.split(base.value);
      MergeHoldsEdits(codec.diff, b, codec.split(ours.value), codec.split(theirs.value));
      var lines := Concat(Printed, MergeOf(codec.diff, b, codec.split(ours.value), codec.split(theirs.value)));
      if TextFile(codec, base) && TextFile(codec, ours) && TextFile(codec, theirs) {
        assert ThreeWay(codec, base, ours, theirs).0 == Some(codec.join(lines));
      }
    }
  }

  lemma MergeHoldsEdits(diff: Differ, base: seq<Line>, ours: seq<Line>, theirs: seq<Line>)
    requires Diffs(diff)
    ensures HoldsEdits(diff, base, ours, theirs, Concat(Printed, MergeOf(diff, base, ours, theirs)))
  {
    hide MergeOf, Concat, ChunksOf;
    forall c, l | (c in ChunksOf(diff, base, ours) || c in ChunksOf(diff, base, theirs)) && l in c.lines
      ensures l in Concat(Printed, MergeOf(diff, base, ours, theirs))
    {
      EveryEditIsPrinted(diff, base, ours, theirs, c, l);
    }
  }

  type Path = string

  /** The files of one side; None for a path without one. */
  type Tree<File> = map<Path, Option<File>>

  /** `Result`. */
  datatype Result<File> = Result(merged: Tree<File>, conflicts: seq<Path>, takenRemote: seq<Path>, keptLocal: seq<Path>)

  function Get<File>(files: Tree<File>, path: Path, default: Option<File>): Option<File> {
    if path in files then files[path] else default
  }

  /** The three-way merge of one path, a missing side read as base. */
  ghost function Merged<File>(codec: Codec<File>, base: Tree<File>, ours: Tree<File>, theirs: Tree<File>,
          path: Path): (Option<File>, bool)
    requires Diffs(codec.diff)
  {
    var b := Get(base, path, None);
    ThreeWay(codec, b, Get(ours, path, b), Get(theirs, path, b))
  }

  /** The paths of the list that are in the set, in order. */
  ghost function Among(paths: seq<Path>, keep: set<Path>): seq<Path> {
    if paths == [] then []
    else
      var last := paths[|paths| - 1];
      Among(paths[..|paths| - 1], keep) + if last in keep then [last] else []
  }

  ghost function Disputed<File>(codec: Codec<File>, base: Tree<File>, ours: Tree<File>, theirs: Tree<File>): set<Path>
    requires Diffs(codec.diff)
  {
    set p | p in ours.Keys + theirs.Keys && Merged(codec, base, ours, theirs, p).1
  }

  /** What `rebase` has to have done once it has been through a list of paths. */
  ghost predicate Rebased<File>(codec: Codec<File>, base: Tree<File>, ours: Tree<File>, theirs: Tree<File>,
          paths: seq<Path>, result: Result<File>)
    requires Diffs(codec.diff)
  {
    && (forall p :: p in result.merged <==> p in paths)
    && (forall p | p in result.merged :: result.merged[p] == Merged(codec, base, ours, theirs, p).0)
    && result.conflicts == Among(paths, Disputed(codec, base, ours, theirs))
    && result.takenRemote == Among(paths, theirs.Keys - ours.Keys)
    && result.keptLocal == Among(paths, ours.Keys - theirs.Keys)
  }

  lemma AmongLast(paths: seq<Path>, path: Path, keep: set<Path>)
    ensures Among(paths + [path], keep) == Among(paths, keep) + if path in keep then [path] else []
  {
    assert (paths + [path])[..|paths|] == paths;
  }

  lemma RebasedNext<File>(codec: Codec<File>, base: Tree<File>, ours: Tree<File>, theirs: Tree<File>,
          paths: seq<Path>, path: Path, was: Result<File>, now: Result<File>)
    requires Diffs(codec.diff) && Rebased(codec, base, ours, theirs, paths, was)
    requires path in ours || path in theirs
    requires var m := Merged(codec, base, ours, theirs, path);
      && now.merged == was.merged[path := m.0]
      && now.conflicts == was.conflicts + (if m.1 then [path] else [])
      && now.takenRemote == was.takenRemote + (if path !in ours then [path] else [])
      && now.keptLocal == was.keptLocal + (if path !in theirs then [path] else [])
    ensures Rebased(codec, base, ours, theirs, paths + [path], now)
  {
    hide Merged, Diffs, Among;
    AmongLast(paths, path, Disputed(codec, base, ours, theirs));
    AmongLast(paths, path, theirs.Keys - ours.Keys);
    AmongLast(paths, path, ours.Keys - theirs.Keys);
  }

  /** `rebase` over the sorted paths of both sides: every path gets exactly its three-way merge. */
  method Rebase<File(==)>(codec: Codec<File>, base: Tree<File>, ours: Tree<File>, theirs: Tree<File>, paths: seq<Path>)
    returns (result: Result<File>)
    requires Diffs(codec.diff)
    requires forall p :: p in paths <==> p in ours || p in theirs
    ensures Rebased(codec, base, ours, theirs, paths, result)
  {
    hide ThreeWay, Diffs, Among, Disputed;
    result := Result(map[], [], [], []);
    assert Rebased(codec, base, ours, theirs, [], result) by {
      AmongNone(Disputed(codec, base, ours, theirs), {});
      AmongNone(theirs.Keys - ours.Keys, ours.Keys - theirs.Keys);
    }
    for k := 0 to |paths|
      invariant Rebased(codec, base, ours, theirs, paths[..k], result)
    {
      hide Rebased;
      var path := paths[k];
      assert path in paths && paths[..k + 1] == paths[..k] + [path];
      var b := Get(base, path, None);
      var mine, remote := Get(ours, path, b), Get(theirs, path, b);
      ThreeWayLaws(codec, b, mine, remote);
      ghost var was := result;
      if path !in ours {
        result := result.(merged := result.merged[path := remote], takenRemote := result.takenRemote + [path]);
      } else if path !in theirs {
        result := result.(merged := result.merged[path := mine], keptLocal := result.keptLocal + [path]);
      } else {
        var merged, conflicted := ThreeWayMerge(codec, b, mine, remote);
        result := result.(merged := result.merged[path := merged]);
        if conflicted { result := result.(conflicts := result.conflicts + [path]); }
      }
      RebasedNext(codec, base, ours, theirs, paths[..k], path, was, result);
    }
    assert paths[..|paths|] == paths;
  }

  lemma AmongNone(keep: set<Path>, more: set<Path>)
    ensures Among([], keep) == [] == Among([], more)
  {
  }

  lemma {:induction false} AmongIs(paths: seq<Path>, keep: set<Path>, p: Path)
    ensures p in Among(paths, keep) <==> p in paths && p in keep
  {
    if paths != [] {
      var n := |paths| - 1;
      AmongIs(paths[..n], keep, p);
      assert paths == paths[..n] + [paths[n]];
    }
  }

  /** What becomes of one path: a path that only one side has is taken from it, and
      listed as such; of one that both have, a side that agrees with base gives way;
      and the conflicts are the paths both have whose merge needs attention. */
  lemma RebasedPath<File>(codec: Codec<File>, base: Tree<File>, ours: Tree<File>, theirs: Tree<File>,
          paths: seq<Path>, result: Result<File>, p: Path)
    requires Diffs(codec.diff) && Rebased(codec, base, ours, theirs, paths, result)
    requires p in paths && (p in ours || p in theirs)
    ensures p in result.merged
    ensures p !in ours ==> result.merged[p] == theirs[p]
    ensures p !in theirs ==> result.merged[p] == ours[p]
    ensures p in result.takenRemote <==> p !in ours
    ensures p in result.keptLocal <==> p !in theirs
    ensures p in ours && p in theirs ==>
      var b := if p in base then base[p] else None;
      && (ours[p] == b ==> result.merged[p] == theirs[p]) && (theirs[p] == b ==> result.merged[p] == ours[p])
      && (p in result.conflicts <==> ThreeWay(codec, b, ours[p], theirs[p]).1)
    ensures p in result.conflicts ==> p in ours && p in theirs
  {
    var b := if p in base then base[p] else None;
    ThreeWayLaws(codec, b, if p in ours then ours[p] else b, if p in theirs then theirs[p] else b);
    hide ThreeWay, Diffs;
    AmongIs(paths, Disputed(codec, base, ours, theirs), p);
    AmongIs(paths, theirs.Keys - ours.Keys, p);
    AmongIs(paths, ours.Keys - theirs.Keys, p);
  }
}

/** What a merge prints: region by region, and that no edit is missing from it. */
module MergeOutput {
  import opened Merge

  /** The lines a region stands for in the output: base untouched, the only side that
      edited it, what both made of it, or both between marks. */
  ghost function Image(base: seq<Line>, r: Region): seq<Line>
    requires r.lo <= r.hi <= |base|
  {
    match r.side
    case Neither => base[r.lo..r.hi]
    case Ours => r.ours
    case Theirs => r.theirs
    case Same => r.theirs
    case Clash => ["<<<<<<< yours\n"] + r.ours + ["=======\n"] + r.theirs + [">>>>>>> remote\n"]
  }

  /** `lines` is base[lo..hi] with a run of chunks of the script applied to it. */
  ghost predicate Patched(base: seq<Line>, cs: seq<Chunk>, lo: nat, hi: nat, lines: seq<Line>) {
    exists i, p :: Ordered(cs, i, p, lo, hi) && hi <= |base| && lines == Patch(base, cs, i, p, lo, hi)
  }

  lemma GapPatched(base: seq<Line>, cs: seq<Chunk>, pos: nat, lo: nat)
    requires pos <= lo <= |base|
    ensures Patched(base, cs, pos, lo, base[pos..lo])
  {
    assert Ordered(cs, 0, 0, pos, lo) && Patch(base, cs, 0, 0, pos, lo) == base[pos..lo];
  }

  lemma TurnPatched(base: seq<Line>, xs: seq<Chunk>, ys: seq<Chunk>, i: nat, j: nat, pos: nat)
    requires Pending(xs, ys, i, j, pos, |base|) && (i < |xs| || j < |ys|)
    ensures var r := Turn(base, xs, ys, i, j, pos);
      Patched(base, xs, r.lo, r.hi, r.ours) && Patched(base, ys, r.lo, r.hi, r.theirs)
  {
    hide Step, Low, Ordered, Patch, Pending;
    StepFits(xs, ys, i, j, pos, |base|);
  }

  /** What a region holds for a side is a slice of base with chunks of that side's script applied. */
  lemma {:induction false} RegionsPatched(base: seq<Line>, xs: seq<Chunk>, ys: seq<Chunk>, i: nat, j: nat, pos: nat)
    requires Pending(xs, ys, i, j, pos, |base|)
    ensures forall r | r in Regions(base, xs, ys, i, j, pos) ::
      Patched(base, xs, r.lo, r.hi, r.ours) && Patched(base, ys, r.lo, r.hi, r.theirs)
    decreases |xs| + |ys| - i - j
  {
    hide Step, Low, Script, Turn, Patched;
    if i < |xs| || j < |ys| {
      StepFits(xs, ys, i, j, pos, |base|);
      var r, lo := Step(xs, ys, i, j), Low(xs, ys, i, j);
      GapPatched(base, xs, pos, lo);
      GapPatched(base, ys, pos, lo);
      TurnPatched(base, xs, ys, i, j, pos);
      RegionsPatched(base, xs, ys, r.p, r.q, r.end);
    } else {
      GapPatched(base, xs, pos, |base|);
      GapPatched(base, ys, pos, |base|);
    }
  }

  lemma PrintIsImage(base: seq<Line>, r: Region)
    requires Faithful(base, r)
    ensures r.Print() == Image(base, r)
  {
  }

  /** The output is, region by region, one image after the other: where the output of
      the first k regions ends, the lines of region k stand.  A disputed region is the
      line "<<<<<<< yours", the text of ours, "=======", the text of theirs, and
      ">>>>>>> remote", each side's text being base patched with its own script. */
  lemma OutputIsImages(diff: Differ, base: seq<Line>, ours: seq<Line>, theirs: seq<Line>, k: nat)
    requires Diffs(diff) && k < |MergeOf(diff, base, ours, theirs)|
    ensures var rs := MergeOf(diff, base, ours, theirs); var r := rs[k];
      && Faithful(base, r)
      && Patched(base, ChunksOf(diff, base, ours), r.lo, r.hi, r.ours)
      && Patched(base, ChunksOf(diff, base, theirs), r.lo, r.hi, r.theirs)
      && Concat(Printed, rs) == Concat(Printed, rs[..k]) + Image(base, r) + Concat(Printed, rs[k + 1..])
  {
    hide Patched, Faithful, Image, Regions, Concat, Pending;
    var xs, ys, rs := ChunksOf(diff, base, ours), ChunksOf(diff, base, theirs), MergeOf(diff, base, ours, theirs);
    MergeStarts(diff, base, ours, theirs);
    RegionsFaithful(base, xs, ys, 0, 0, 0);
    RegionsPatched(base, xs, ys, 0, 0, 0);
    assert rs[k] in rs;
    ImageAt(base, rs, k);
  }

  lemma ImageAt(base: seq<Line>, rs: seq<Region>, k: nat)
    requires k < |rs| && Faithful(base, rs[k])
    ensures Concat(Printed, rs) == Concat(Printed, rs[..k]) + Image(base, rs[k]) + Concat(Printed, rs[k + 1..])
  {
    hide Faithful, Image, Concat;
    assert rs == rs[..k] + [rs[k]] + rs[k + 1..];
    PrintIsImage(base, rs[k]);
    ConcatTurn(Printed, rs[..k], rs[k], rs[k + 1..]);
  }

  // ---------------------------------------------------------------- no edit is missing

  lemma {:induction false} PatchHolds(base: seq<Line>, cs: seq<Chunk>, i: nat, k: nat, lo: nat, hi: nat, x: nat,
          l: Line)
    requires Ordered(cs, i, k, lo, hi) && hi <= |base| && i <= x < k && l in cs[x].lines
    ensures l in Patch(base, cs, i, k, lo, hi)
    decreases k - i
  {
    if i < x { PatchHolds(base, cs, i + 1, k, cs[i].end, hi, x, l); }
  }

  /** What a turn prints holds every line of the chunks it uses up. */
  lemma TurnHolds(base: seq<Line>, xs: seq<Chunk>, ys: seq<Chunk>, i: nat, j: nat, pos: nat, x: nat, l: Line)
    requires Pending(xs, ys, i, j, pos, |base|) && (i < |xs| || j < |ys|)
    ensures var r, now := Step(xs, ys, i, j), Turn(base, xs, ys, i, j, pos);
      && (i <= x < r.p && l in xs[x].lines ==> l in now.Print())
      && (j <= x < r.q && l in ys[x].lines ==> l in now.Print())
  {
    hide Step, Low, Ordered, Patch, Pending;
    StepFits(xs, ys, i, j, pos, |base|);
    var r, lo := Step(xs, ys, i, j), Low(xs, ys, i, j);
    if i <= x < r.p && l in xs[x].lines { PatchHolds(base, xs, i, r.p, lo, r.end, x, l); }
    if j <= x < r.q && l in ys[x].lines { PatchHolds(base, ys, j, r.q, lo, r.end, x, l); }
  }

  lemma {:induction false} RegionsHold(base: seq<Line>, xs: seq<Chunk>, ys: seq<Chunk>, i: nat, j: nat, pos: nat,
          x: nat, l: Line)
    requires Pending(xs, ys, i, j, pos, |base|)
    requires (i <= x < |xs| && l in xs[x].lines) || (j <= x < |ys| && l in ys[x].lines)
    ensures l in Concat(Printed, Regions(base, xs, ys, i, j, pos))
    decreases |xs| + |ys| - i - j
  {
    hide Step, Low, Turn, Regions, Script, Concat, Region.Print;
    RegionsTurn(base, xs, ys, i, j, pos);
    TurnHolds(base, xs, ys, i, j, pos, x, l);
    var r := Step(xs, ys, i, j);
    if (r.p <= x < |xs| && l in xs[x].lines) || (r.q <= x < |ys| && l in ys[x].lines) {
      RegionsHold(base, xs, ys, r.p, r.q, r.end, x, l);
    }
  }

  /** Every line that either side put in place of lines of base is in the output, disputed or not. */
  lemma EveryEditIsPrinted(diff: Differ, base: seq<Line>, ours: seq<Line>, theirs: seq<Line>, c: Chunk, l: Line)
    requires Diffs(diff) && l in c.lines
    requires c in ChunksOf(diff, base, ours) || c in ChunksOf(diff, base, theirs)
    ensures l in Concat(Printed, MergeOf(diff, base, ours, theirs))
  {
    hide Regions, Concat;
    var xs, ys := ChunksOf(diff, base, ours), ChunksOf(diff, base, theirs);
    MergeStarts(diff, base, ours, theirs);
    if c in xs {
      var x :| 0 <= x < |xs| && xs[x] == c;
      RegionsHold(base, xs, ys, 0, 0, 0, x, l);
    } else {
      var y :| 0 <= y < |ys| && ys[y] == c;
      RegionsHold(base, xs, ys, 0, 0, 0, y, l);
    }
  }
}

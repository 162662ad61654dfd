/** The line-based three-way merge of `github/merge.py`. */
module Merge {
  // An edit script over `base` is a list of chunks; chunk (start, end, lines)
  // says that base[start..end] is replaced by `lines`.  The merge walks the two
  // scripts from the front and produces a list of regions, which are then
  // printed.  The methods below follow the loops of the source; the functions
  // are what they are proved against.

  type Line = string

  const MARK_OURS: Line := "<<<<<<< yours\n"
  const MARK_SPLIT: Line := "=======\n"
  const MARK_THEIRS: Line := ">>>>>>> remote\n"

  datatype Chunk = Chunk(start: nat, end: nat, lines: seq<Line>)

  function Max(a: nat, b: nat): nat { if a < b then b else a }

  function Min(a: nat, b: nat): nat { if a < b then a else b }

  // ---------------------------------------------------------------- scripts

  /** What difflib's non-equal opcodes promise: inside base, in order, and any
      two consecutive chunks separated by at least one unchanged line. */
  ghost predicate Script(cs: seq<Chunk>, n: nat) {
    && (forall i | 0 <= i < |cs| :: cs[i].start <= cs[i].end <= n)
    && (forall i, j | 0 <= i < j < |cs| :: cs[i].end < cs[j].start)
  }

  /** Chunks i..k lie inside lo..hi, in order, touching allowed. */
  ghost predicate Ordered(cs: seq<Chunk>, i: nat, k: nat, lo: nat, hi: nat)
    decreases k - i
  {
    && i <= k <= |cs|
    && if i == k then lo <= hi
       else lo <= cs[i].start <= cs[i].end <= hi && Ordered(cs, i + 1, k, cs[i].end, hi)
  }

  /** base[lo..hi] with chunks i..k applied to it. */
  ghost function Patch(base: seq<Line>, cs: seq<Chunk>, i: nat, k: nat, lo: nat, hi: nat): seq<Line>
    requires Ordered(cs, i, k, lo, hi) && hi <= |base|
    decreases k - i
  {
    if i == k then base[lo..hi]
    else base[lo..cs[i].start] + cs[i].lines + Patch(base, cs, i + 1, k, cs[i].end, hi)
  }

  lemma {:induction false} ScriptOrdered(cs: seq<Chunk>, i: nat, k: nat, lo: nat, hi: nat)
    requires i <= k <= |cs| && lo <= hi
    requires forall x | i <= x < k :: cs[x].start <= cs[x].end
    requires forall x, y | i <= x < y < k :: cs[x].end <= cs[y].start
    requires i < k ==> lo <= cs[i].start && cs[k - 1].end <= hi
    ensures Ordered(cs, i, k, lo, hi)
    decreases k - i
  {
    if i < k { ScriptOrdered(cs, i + 1, k, cs[i].end, hi); }
  }

  /** Cutting a script in two at a base position no chunk straddles. */
  lemma {:induction false} PatchSplit(base: seq<Line>, cs: seq<Chunk>, i: nat, m: nat, k: nat, lo: nat, mid: nat,
          hi: nat)
    requires Ordered(cs, i, m, lo, mid) && Ordered(cs, m, k, mid, hi) && hi <= |base|
    ensures lo <= mid <= hi && Ordered(cs, i, k, lo, hi)
    ensures Patch(base, cs, i, k, lo, hi) == Patch(base, cs, i, m, lo, mid) + Patch(base, cs, m, k, mid, hi)
    decreases m - i
  {
    if i == m {
      if m < k {
        SliceApp(base, lo, mid, cs[m].start);
        Regroup(base[lo..mid], base[mid..cs[m].start], cs[m].lines, Patch(base, cs, m + 1, k, cs[m].end, hi));
      } else {
        SliceApp(base, lo, mid, hi);
      }
    } else {
      PatchSplit(base, cs, i + 1, m, k, cs[i].end, mid, hi);
      Shift([], base[lo..cs[i].start], cs[i].lines, Patch(base, cs, i + 1, m, cs[i].end, mid),
            Patch(base, cs, m, k, mid, hi));
    }
  }

  lemma SliceApp<T>(s: seq<T>, lo: nat, mid: nat, hi: nat)
    requires lo <= mid <= hi <= |s|
    ensures s[lo..hi] == s[lo..mid] + s[mid..hi]
  {
  }

  lemma Shift<T>(out: seq<T>, gap: seq<T>, now: seq<T>, more: seq<T>, rest: seq<T>)
    ensures out + (gap + now + rest) == (out + gap + now) + rest
    ensures gap + now + (more + rest) == (gap + now + more) + rest
  {
  }

  lemma Regroup<T>(a: seq<T>, b: seq<T>, c: seq<T>, d: seq<T>)
    ensures a + (b + c + d) == (a + b + c) + d && a + (b + d) == (a + b) + d
    ensures b == [] ==> a + b == a
  {
  }

  /** The first chunk of a patch, and the rest. */
  lemma PatchNext(base: seq<Line>, cs: seq<Chunk>, i: nat, k: nat, lo: nat, hi: nat)
    requires Ordered(cs, i, k, lo, hi) && hi <= |base|
    ensures i == k ==> lo <= hi && Patch(base, cs, i, k, lo, hi) == base[lo..hi]
    ensures i < k ==> k <= |cs| && lo <= cs[i].start <= cs[i].end <= hi && Ordered(cs, i + 1, k, cs[i].end, hi)
    ensures i < k ==>
      Patch(base, cs, i, k, lo, hi) == base[lo..cs[i].start] + cs[i].lines + Patch(base, cs, i + 1, k, cs[i].end, hi)
  {
  }

  /** `_reconstruct_slice`: the patched text of one slice of base. */
  method ReconstructSlice(base: seq<Line>, chunks: seq<Chunk>, start: nat, end: nat) returns (res: seq<Line>)
    requires Ordered(chunks, 0, |chunks|, start, end) && end <= |base|
    ensures res == Patch(base, chunks, 0, |chunks|, start, end)
  {
    hide Ordered, Patch;
    res := [];
    var curr: nat := start;
    assert [] + Patch(base, chunks, 0, |chunks|, start, end) == Patch(base, chunks, 0, |chunks|, start, end);
    for i := 0 to |chunks|
      invariant Ordered(chunks, i, |chunks|, curr, end)
      invariant res + Patch(base, chunks, i, |chunks|, curr, end) == Patch(base, chunks, 0, |chunks|, start, end)
    {
      var c := chunks[i];
      PatchNext(base, chunks, i, |chunks|, curr, end);
      Regroup(res, base[curr..c.start], c.lines, Patch(base, chunks, i + 1, |chunks|, c.end, end));
      if c.start > curr { res := res + base[curr..c.start]; }
      res := res + c.lines;
      curr := Max(curr, c.end);
    }
    PatchNext(base, chunks, |chunks|, |chunks|, curr, end);
    if curr < end { res := res + base[curr..end]; }
  }

  // ---------------------------------------------------------------- clusters

  /** `a` is merged strictly before `b`: they do not overlap, and touching is
      allowed unless both insert at the same place. */
  predicate Before(a: Chunk, b: Chunk) {
    a.end < b.start || (a.end == b.start && (a.start != a.end || b.start != b.end))
  }

  /** Where a cluster stops: the next unused chunk of either script, and its end in base. */
  datatype Extent = Extent(p: nat, q: nat, end: nat)

  function End(cs: seq<Chunk>, p: nat): nat
    requires p <= |cs|
  {
    if p == 0 then 0 else cs[p - 1].end
  }

  /** How far a cluster ending at `e` reaches once it holds the chunks up to p and q. */
  function Reach(xs: seq<Chunk>, ys: seq<Chunk>, p: nat, q: nat, e: nat): nat
    requires p <= |xs| && q <= |ys|
  {
    Max(e, Max(End(xs, p), End(ys, q)))
  }

  /** The index after one attempt to absorb chunk i. */
  function Take(cs: seq<Chunk>, i: nat, e: nat): (k: nat)
    requires i <= |cs|
    ensures i <= k <= |cs| && k <= i + 1
  {
    if i < |cs| && cs[i].start <= e then i + 1 else i
  }

  function Absorb(xs: seq<Chunk>, ys: seq<Chunk>, i: nat, j: nat, e: nat): (r: Extent)
    requires i <= |xs| && j <= |ys|
    ensures i <= r.p <= |xs| && j <= r.q <= |ys|
    decreases |xs| + |ys| - i - j
  {
    var i' := Take(xs, i, e);
    var j' := Take(ys, j, Max(e, End(xs, i')));
    if i' == i && j' == j then Extent(i, j, e)
    else Absorb(xs, ys, i', j', Reach(xs, ys, i', j', e))
  }

  /** Nothing left over begins inside the cluster or touches it. */
  ghost predicate Closed(xs: seq<Chunk>, ys: seq<Chunk>, p: nat, q: nat, e: nat) {
    && p <= |xs| && q <= |ys|
    && (p < |xs| ==> Reach(xs, ys, p, q, e) < xs[p].start)
    && (q < |ys| ==> Reach(xs, ys, p, q, e) < ys[q].start)
  }

  /** r is the smallest closed cluster that holds at least the chunks up to i and j. */
  ghost predicate Least(xs: seq<Chunk>, ys: seq<Chunk>, i: nat, j: nat, e: nat, r: Extent) {
    && i <= r.p && j <= r.q
    && Closed(xs, ys, r.p, r.q, e)
    && r.end == Reach(xs, ys, r.p, r.q, e)
    && forall p: nat, q: nat | i <= p && j <= q && Closed(xs, ys, p, q, e) :: r.p <= p && r.q <= q
  }

  lemma EndMonotone(cs: seq<Chunk>, i: nat, k: nat, n: nat)
    requires Script(cs, n) && i <= k <= |cs|
    ensures End(cs, i) <= End(cs, k) <= n
  {
    if 0 < i < k { assert cs[i - 1].end < cs[k - 1].start; }
  }

  lemma TakeForced(xs: seq<Chunk>, ys: seq<Chunk>, i: nat, j: nat, e: nat, p: nat, q: nat, n: nat)
    requires Script(xs, n) && Script(ys, n)
    requires i <= p && j <= q && Closed(xs, ys, p, q, e)
    ensures var i' := Take(xs, i, e); var j' := Take(ys, j, Max(e, End(xs, i')));
      i' <= p && j' <= q && Reach(xs, ys, p, q, Reach(xs, ys, i', j', e)) == Reach(xs, ys, p, q, e)
  {
    var i' := Take(xs, i, e);
    assert i' <= p;
    EndMonotone(xs, i', p, n);
    var j' := Take(ys, j, Max(e, End(xs, i')));
    assert j' <= q;
    EndMonotone(ys, j', q, n);
  }

  /** The absorption loop computes the least closed cluster. */
  lemma {:induction false} AbsorbLeast(xs: seq<Chunk>, ys: seq<Chunk>, i: nat, j: nat, e: nat, n: nat)
    requires Script(xs, n) && Script(ys, n)
    requires i <= |xs| && j <= |ys| && End(xs, i) <= e && End(ys, j) <= e
    ensures Least(xs, ys, i, j, e, Absorb(xs, ys, i, j, e))
    decreases |xs| + |ys| - i - j
  {
    var r := Absorb(xs, ys, i, j, e);
    var i' := Take(xs, i, e);
    var j' := Take(ys, j, Max(e, End(xs, i')));
    if i' == i && j' == j {
      assert Closed(xs, ys, i, j, e);
    } else {
      AbsorbLeast(xs, ys, i', j', Reach(xs, ys, i', j', e), n);
      EndMonotone(xs, i', r.p, n);
      EndMonotone(ys, j', r.q, n);
      forall p: nat, q: nat | i <= p && j <= q && Closed(xs, ys, p, q, e) ensures r.p <= p && r.q <= q {
        TakeForced(xs, ys, i, j, e, p, q, n);
        assert Closed(xs, ys, p, q, Reach(xs, ys, i', j', e));
      }
    }
  }

  /** So it does not matter which side each pass of the loop tries first. */
  lemma AbsorbSymmetric(xs: seq<Chunk>, ys: seq<Chunk>, i: nat, j: nat, e: nat, n: nat)
    requires Script(xs, n) && Script(ys, n)
    requires i <= |xs| && j <= |ys| && End(xs, i) <= e && End(ys, j) <= e
    ensures var r := Absorb(xs, ys, i, j, e); Absorb(ys, xs, j, i, e) == Extent(r.q, r.p, r.end)
  {
    AbsorbLeast(xs, ys, i, j, e, n);
    AbsorbLeast(ys, xs, j, i, e, n);
    LeastUnique(xs, ys, i, j, e, Absorb(xs, ys, i, j, e), Absorb(ys, xs, j, i, e));
  }

  lemma ClosedSwap(xs: seq<Chunk>, ys: seq<Chunk>, p: nat, q: nat, e: nat)
    ensures Closed(xs, ys, p, q, e) <==> Closed(ys, xs, q, p, e)
    ensures p <= |xs| && q <= |ys| ==> Reach(xs, ys, p, q, e) == Reach(ys, xs, q, p, e)
  {
  }

  lemma LeastUnique(xs: seq<Chunk>, ys: seq<Chunk>, i: nat, j: nat, e: nat, r: Extent, s: Extent)
    requires Least(xs, ys, i, j, e, r) && Least(ys, xs, j, i, e, s)
    ensures s == Extent(r.q, r.p, r.end)
  {
    ClosedSwap(xs, ys, r.p, r.q, e);
    ClosedSwap(xs, ys, s.q, s.p, e);
  }

  // ---------------------------------------------------------------- the walk

  /** The state of the walk: chunks from i and j on are still to come, `pos` lines of base are done. */
  ghost predicate Pending(xs: seq<Chunk>, ys: seq<Chunk>, i: nat, j: nat, pos: nat, n: nat) {
    && Script(xs, n) && Script(ys, n) && pos <= n
    && i <= |xs| && (i < |xs| ==> pos <= xs[i].start) && End(xs, i) <= pos
    && j <= |ys| && (j < |ys| ==> pos <= ys[j].start) && End(ys, j) <= pos
  }

  /** Which chunks the next turn of the main loop uses up, and where it ends in base. */
  function Step(xs: seq<Chunk>, ys: seq<Chunk>, i: nat, j: nat): (r: Extent)
    requires i <= |xs| && j <= |ys| && (i < |xs| || j < |ys|)
    ensures i <= r.p <= |xs| && j <= r.q <= |ys| && i + j < r.p + r.q
  {
    if i == |xs| then Extent(i, j + 1, ys[j].end)
    else if j == |ys| then Extent(i + 1, j, xs[i].end)
    else
      var a, b := xs[i], ys[j];
      if a == b then Extent(i + 1, j + 1, a.end)
      else if Before(a, b) then Extent(i + 1, j, a.end)
      else if Before(b, a) then Extent(i, j + 1, b.end)
      else Absorb(xs, ys, i + 1, j + 1, Max(a.end, b.end))
  }

  /** Where the region of that turn begins in base. */
  function Low(xs: seq<Chunk>, ys: seq<Chunk>, i: nat, j: nat): nat
    requires i <= |xs| && j <= |ys| && (i < |xs| || j < |ys|)
  {
    var r := Step(xs, ys, i, j);
    if r.p == i then ys[j].start
    else if r.q == j then xs[i].start
    else Min(xs[i].start, ys[j].start)
  }

  lemma StepCluster(xs: seq<Chunk>, ys: seq<Chunk>, i: nat, j: nat, pos: nat, n: nat)
    requires Pending(xs, ys, i, j, pos, n) && i < |xs| && j < |ys|
    requires xs[i] != ys[j] && !Before(xs[i], ys[j]) && !Before(ys[j], xs[i])
    ensures var r := Step(xs, ys, i, j);
      Pending(xs, ys, r.p, r.q, r.end, n) && xs[i].end <= r.end && ys[j].end <= r.end
  {
    var e := Max(xs[i].end, ys[j].end);
    AbsorbLeast(xs, ys, i + 1, j + 1, e, n);
    var r := Step(xs, ys, i, j);
    EndMonotone(xs, i + 1, r.p, n);
    EndMonotone(ys, j + 1, r.q, n);
  }

  lemma StepBounds(xs: seq<Chunk>, ys: seq<Chunk>, i: nat, j: nat, pos: nat, n: nat)
    requires Pending(xs, ys, i, j, pos, n) && (i < |xs| || j < |ys|)
    ensures var r := Step(xs, ys, i, j); var lo := Low(xs, ys, i, j);
      && pos <= lo <= r.end <= n && Pending(xs, ys, r.p, r.q, r.end, n)
      && (i < r.p ==> lo <= xs[i].start) && (j < r.q ==> lo <= ys[j].start)
  {
    hide Absorb;
    if i < |xs| && j < |ys| && xs[i] != ys[j] && !Before(xs[i], ys[j]) && !Before(ys[j], xs[i]) {
      StepCluster(xs, ys, i, j, pos, n);
    }
  }

  /** Every turn takes whole chunks, and leaves nothing pending before its end. */
  lemma StepFits(xs: seq<Chunk>, ys: seq<Chunk>, i: nat, j: nat, pos: nat, n: nat)
    requires Pending(xs, ys, i, j, pos, n) && (i < |xs| || j < |ys|)
    ensures var r := Step(xs, ys, i, j); var lo := Low(xs, ys, i, j);
      && pos <= lo <= r.end <= n
      && Ordered(xs, i, r.p, lo, r.end) && Ordered(ys, j, r.q, lo, r.end)
      && Pending(xs, ys, r.p, r.q, r.end, n)
  {
    hide Step, Low, Ordered;
    StepBounds(xs, ys, i, j, pos, n);
    var r, lo := Step(xs, ys, i, j), Low(xs, ys, i, j);
    ScriptOrdered(xs, i, r.p, lo, r.end);
    ScriptOrdered(ys, j, r.q, lo, r.end);
  }

  datatype Side = Neither | Ours | Theirs | Same | Clash

  /** One region of the merge: the lines lo..hi of base, and what each side made of them. */
  datatype Region = Region(side: Side, lo: nat, hi: nat, ours: seq<Line>, theirs: seq<Line>) {
    /** The lines printed for the region. */
    function Print(): seq<Line> {
      match side
      case Theirs => theirs
      case Clash => [MARK_OURS] + ours + [MARK_SPLIT] + theirs + [MARK_THEIRS]
      case _ => ours
    }

    function Flip(): Region {
      var other := match side case Ours => Theirs case Theirs => Ours case s => s;
      Region(other, lo, hi, theirs, ours)
    }
  }

  function Gap(base: seq<Line>, pos: nat, lo: nat): seq<Region>
    requires pos <= lo <= |base|
  {
    if pos < lo then [Region(Neither, pos, lo, base[pos..lo], base[pos..lo])] else []
  }

  /** The region of the next turn. */
  ghost function Turn(base: seq<Line>, xs: seq<Chunk>, ys: seq<Chunk>, i: nat, j: nat, pos: nat): Region
    requires Pending(xs, ys, i, j, pos, |base|) && (i < |xs| || j < |ys|)
  {
    StepFits(xs, ys, i, j, pos, |base|);
    var r, lo := Step(xs, ys, i, j), Low(xs, ys, i, j);
    var ours, theirs := Patch(base, xs, i, r.p, lo, r.end), Patch(base, ys, j, r.q, lo, r.end);
    var side := if r.p == i then Theirs else if r.q == j then Ours else if ours == theirs then Same else Clash;
    Region(side, lo, r.end, ours, theirs)
  }

  ghost function Regions(base: seq<Line>, xs: seq<Chunk>, ys: seq<Chunk>, i: nat, j: nat, pos: nat): seq<Region>
    requires Pending(xs, ys, i, j, pos, |base|)
    decreases |xs| + |ys| - i - j
  {
    if i == |xs| && j == |ys| then Gap(base, pos, |base|)
    else
      StepFits(xs, ys, i, j, pos, |base|);
      var r := Step(xs, ys, i, j);
      Gap(base, pos, Low(xs, ys, i, j)) + [Turn(base, xs, ys, i, j, pos)] + Regions(base, xs, ys, r.p, r.q, r.end)
  }

  function Printed(r: Region): seq<Line> { r.Print() }

  function OursOf(r: Region): seq<Line> { r.ours }

  function TheirsOf(r: Region): seq<Line> { r.theirs }

  function Concat(f: Region -> seq<Line>, rs: seq<Region>): seq<Line> {
    if rs == [] then [] else f(rs[0]) + Concat(f, rs[1..])
  }

  predicate Clashes(rs: seq<Region>) {
    exists k | 0 <= k < |rs| :: rs[k].side == Clash
  }

  function Flip(rs: seq<Region>): seq<Region> {
    seq(|rs|, k requires 0 <= k < |rs| => rs[k].Flip())
  }

  /** The regions cover base from pos to n, one after the other. */
  ghost predicate Tiles(rs: seq<Region>, pos: nat, n: nat) {
    if rs == [] then pos == n
    else rs[0].lo == pos <= rs[0].hi && Tiles(rs[1..], rs[0].hi, n)
  }

  /** A region printed without marks is base untouched, the only side that
      changed it, or what both agree on; a marked one is a real disagreement. */
  ghost predicate Faithful(base: seq<Line>, r: Region) {
    && r.lo <= r.hi <= |base|
    && match r.side
       case Neither => r.ours == base[r.lo..r.hi] == r.theirs
       case Ours => r.theirs == base[r.lo..r.hi]
       case Theirs => r.ours == base[r.lo..r.hi]
       case Same => r.ours == r.theirs
       case Clash => r.ours != r.theirs
  }

  lemma {:induction false} ConcatApp(f: Region -> seq<Line>, rs: seq<Region>, ss: seq<Region>)
    ensures Concat(f, rs + ss) == Concat(f, rs) + Concat(f, ss)
  {
    if rs == [] {
      assert rs + ss == ss;
    } else {
      assert (rs + ss)[1..] == rs[1..] + ss;
      ConcatApp(f, rs[1..], ss);
    }
  }

  lemma ConcatTurn(f: Region -> seq<Line>, gap: seq<Region>, r: Region, rest: seq<Region>)
    ensures Concat(f, gap + [r] + rest) == Concat(f, gap) + f(r) + Concat(f, rest)
  {
    ConcatApp(f, gap + [r], rest);
    ConcatApp(f, gap, [r]);
  }

  lemma {:induction false} TilesConcat(rs: seq<Region>, ss: seq<Region>, pos: nat, mid: nat, n: nat)
    requires Tiles(rs, pos, mid) && Tiles(ss, mid, n)
    ensures Tiles(rs + ss, pos, n)
  {
    if rs == [] { assert rs + ss == ss; }
    else {
      assert (rs + ss)[1..] == rs[1..] + ss;
      TilesConcat(rs[1..], ss, rs[0].hi, mid, n);
    }
  }

  lemma TurnFaithful(base: seq<Line>, xs: seq<Chunk>, ys: seq<Chunk>, i: nat, j: nat, pos: nat)
    requires Pending(xs, ys, i, j, pos, |base|) && (i < |xs| || j < |ys|)
    ensures Faithful(base, Turn(base, xs, ys, i, j, pos))
  {
    StepFits(xs, ys, i, j, pos, |base|);
  }

  // ---------------------------------------------------------------- the method

  /** The contract of difflib's `get_opcodes`: blocks that tile both texts, equal
      blocks equal, and never two changing blocks in a row. */
  datatype Opcode = Opcode(equal: bool, i1: nat, i2: nat, j1: nat, j2: nat)

  ghost predicate Opcodes(ops: seq<Opcode>, base: seq<Line>, other: seq<Line>, i: nat, j: nat, changed: bool) {
    if ops == [] then i == |base| && j == |other|
    else
      && i == ops[0].i1 <= ops[0].i2 <= |base| && j == ops[0].j1 <= ops[0].j2 <= |other|
      && (if ops[0].equal then ops[0].i1 < ops[0].i2 && base[ops[0].i1..ops[0].i2] == other[ops[0].j1..ops[0].j2]
          else !changed)
      && Opcodes(ops[1..], base, other, ops[0].i2, ops[0].j2, !ops[0].equal)
  }

  type Differ = (seq<Line>, seq<Line>) -> seq<Opcode>

  ghost predicate Diffs(diff: Differ) {
    forall base, other :: Opcodes(diff(base, other), base, other, 0, 0, false)
  }

  /** `other[j1:j2]`. */
  function Slice(other: seq<Line>, j1: nat, j2: nat): seq<Line> {
    var lo, hi := Min(j1, |other|), Min(j2, |other|);
    if lo <= hi then other[lo..hi] else []
  }

  function Edit(op: Opcode, other: seq<Line>): seq<Chunk> {
    if op.equal then [] else [Chunk(op.i1, op.i2, Slice(other, op.j1, op.j2))]
  }

  function Edits(ops: seq<Opcode>, other: seq<Line>): seq<Chunk> {
    if ops == [] then [] else Edit(ops[0], other) + Edits(ops[1..], other)
  }

  lemma {:induction false} PatchTail(base: seq<Line>, c: Chunk, cs: seq<Chunk>, i: nat, lo: nat, hi: nat)
    requires Ordered(cs, i, |cs|, lo, hi) && hi <= |base|
    ensures Ordered([c] + cs, i + 1, |cs| + 1, lo, hi)
    ensures Patch(base, [c] + cs, i + 1, |cs| + 1, lo, hi) == Patch(base, cs, i, |cs|, lo, hi)
    decreases |cs| - i
  {
    if i < |cs| { PatchTail(base, c, cs, i + 1, cs[i].end, hi); }
  }

  lemma {:induction false} OrderedFrom(base: seq<Line>, cs: seq<Chunk>, lo: nat, mid: nat, hi: nat)
    requires Ordered(cs, 0, |cs|, mid, hi) && lo <= mid && hi <= |base|
    ensures mid <= hi && Ordered(cs, 0, |cs|, lo, hi)
    ensures Patch(base, cs, 0, |cs|, lo, hi) == base[lo..mid] + Patch(base, cs, 0, |cs|, mid, hi)
  {
    PatchSplit(base, cs, 0, 0, |cs|, lo, mid, hi);
  }

  /** cs is a script on base[i..], starting beyond i after a change, that makes other[j..] of it. */
  ghost predicate Rebuilds(cs: seq<Chunk>, base: seq<Line>, other: seq<Line>, i: nat, j: nat, changed: bool) {
    && i <= |base| && j <= |other|
    && Script(cs, |base|) && (changed && cs != [] ==> i < cs[0].start)
    && Ordered(cs, 0, |cs|, i, |base|) && Patch(base, cs, 0, |cs|, i, |base|) == other[j..]
  }

  lemma RebuildsCopy(cs: seq<Chunk>, base: seq<Line>, other: seq<Line>, i: nat, i2: nat, j: nat, j2: nat)
    requires i < i2 && j <= j2 && Rebuilds(cs, base, other, i2, j2, false) && base[i..i2] == other[j..j2]
    ensures Rebuilds(cs, base, other, i, j, true)
  {
    OrderedFrom(base, cs, i, i2, |base|);
    assert other[j..] == other[j..j2] + other[j2..];
  }

  lemma RebuildsEdit(cs: seq<Chunk>, base: seq<Line>, other: seq<Line>, i: nat, i2: nat, j: nat, j2: nat)
    requires i <= i2 && j <= j2 && Rebuilds(cs, base, other, i2, j2, true)
    ensures Rebuilds([Chunk(i, i2, other[j..j2])] + cs, base, other, i, j, false)
  {
    var c := Chunk(i, i2, other[j..j2]);
    PatchTail(base, c, cs, 0, i2, |base|);
    ScriptCons(c, cs, |base|);
    assert base[i..i] == [];
    assert other[j..] == other[j..j2] + other[j2..];
  }

  /** The chunks of a difference are a script that turns base into the other text. */
  lemma {:induction false} EditsRebuild(ops: seq<Opcode>, base: seq<Line>, other: seq<Line>, i: nat, j: nat,
          changed: bool)
    requires Opcodes(ops, base, other, i, j, changed)
    ensures Rebuilds(Edits(ops, other), base, other, i, j, changed)
  {
    if ops == [] {
      assert base[i..|base|] == other[j..];
    } else {
      var op, rest := ops[0], Edits(ops[1..], other);
      EditsRebuild(ops[1..], base, other, op.i2, op.j2, !op.equal);
      if op.equal {
        RebuildsCopy(rest, base, other, op.i1, op.i2, op.j1, op.j2);
        assert Edits(ops, other) == rest;
      } else {
        assert Slice(other, op.j1, op.j2) == other[op.j1..op.j2];
        RebuildsEdit(rest, base, other, op.i1, op.i2, op.j1, op.j2);
      }
    }
  }

  lemma ScriptCons(c: Chunk, cs: seq<Chunk>, n: nat)
    requires Script(cs, n) && c.start <= c.end <= n && (cs != [] ==> c.end < cs[0].start)
    ensures Script([c] + cs, n)
  {
    forall i, j | 0 <= i < j < |[c] + cs| ensures ([c] + cs)[i].end < ([c] + cs)[j].start {
      if i == 0 && j > 1 { assert cs[0].end < cs[j - 1].start; }
    }
  }

  /** The script `_get_chunks` extracts. */
  ghost function ChunksOf(diff: Differ, base: seq<Line>, other: seq<Line>): (cs: seq<Chunk>)
    requires Diffs(diff)
    ensures Script(cs, |base|) && Ordered(cs, 0, |cs|, 0, |base|)
    ensures Patch(base, cs, 0, |cs|, 0, |base|) == other
  {
    EditsRebuild(diff(base, other), base, other, 0, 0, false);
    Edits(diff(base, other), other)
  }

  method GetChunks(base: seq<Line>, other: seq<Line>, diff: Differ) returns (chunks: seq<Chunk>)
    requires Diffs(diff)
    ensures chunks == ChunksOf(diff, base, other)
  {
    hide Opcodes, Script, Ordered, Patch, Slice;
    var ops := diff(base, other);
    chunks := [];
    for k := 0 to |ops|
      invariant chunks + Edits(ops[k..], other) == Edits(ops, other)
    {
      assert ops[k..][1..] == ops[k + 1..];
      Regroup(chunks, Edit(ops[k], other), [], Edits(ops[k + 1..], other));
      if !ops[k].equal {
        chunks := chunks + [Chunk(ops[k].i1, ops[k].i2, Slice(other, ops[k].j1, ops[k].j2))];
      }
    }
  }

  /** The regions of a three-way merge. */
  ghost function MergeOf(diff: Differ, base: seq<Line>, ours: seq<Line>, theirs: seq<Line>): seq<Region>
    requires Diffs(diff)
  {
    Regions(base, ChunksOf(diff, base, ours), ChunksOf(diff, base, theirs), 0, 0, 0)
  }

  lemma MergeStarts(diff: Differ, base: seq<Line>, ours: seq<Line>, theirs: seq<Line>)
    requires Diffs(diff)
    ensures var xs, ys := ChunksOf(diff, base, ours), ChunksOf(diff, base, theirs);
      Pending(xs, ys, 0, 0, 0, |base|) && MergeOf(diff, base, ours, theirs) == Regions(base, xs, ys, 0, 0, 0)
  {
    hide Regions;
  }

  lemma GapPrint(base: seq<Line>, pos: nat, lo: nat)
    requires pos <= lo <= |base|
    ensures Concat(Printed, Gap(base, pos, lo)) == base[pos..lo]
    ensures !Clashes(Gap(base, pos, lo))
  {
  }

  lemma ClashesTurn(gap: seq<Region>, r: Region, rest: seq<Region>)
    ensures Clashes(gap + [r] + rest) <==> Clashes(gap) || r.side == Clash || Clashes(rest)
  {
    var all := gap + [r] + rest;
    if k :| 0 <= k < |gap| && gap[k].side == Clash { assert all[k].side == Clash; }
    if r.side == Clash { assert all[|gap|].side == Clash; }
    if k :| 0 <= k < |rest| && rest[k].side == Clash { assert all[|gap| + 1 + k].side == Clash; }
  }

  /** What one turn of the main loop has to print and to report. */
  lemma RegionsTurn(base: seq<Line>, xs: seq<Chunk>, ys: seq<Chunk>, i: nat, j: nat, pos: nat)
    requires Pending(xs, ys, i, j, pos, |base|) && (i < |xs| || j < |ys|)
    ensures var r, lo := Step(xs, ys, i, j), Low(xs, ys, i, j);
      && pos <= lo <= r.end <= |base| && Pending(xs, ys, r.p, r.q, r.end, |base|)
      && var now, rest := Turn(base, xs, ys, i, j, pos), Regions(base, xs, ys, r.p, r.q, r.end);
        && Concat(Printed, Regions(base, xs, ys, i, j, pos)) == base[pos..lo] + now.Print() + Concat(Printed, rest)
        && (Clashes(Regions(base, xs, ys, i, j, pos)) <==> now.side == Clash || Clashes(rest))
  {
    StepFits(xs, ys, i, j, pos, |base|);
    var r, lo := Step(xs, ys, i, j), Low(xs, ys, i, j);
    var gap, now, rest := Gap(base, pos, lo), Turn(base, xs, ys, i, j, pos), Regions(base, xs, ys, r.p, r.q, r.end);
    GapPrint(base, pos, lo);
    ConcatTurn(Printed, gap, now, rest);
    ClashesTurn(gap, now, rest);
  }

  /** A chunk by itself turns its own slice of base into its lines. */
  lemma PatchOne(base: seq<Line>, cs: seq<Chunk>, i: nat)
    requires i < |cs| && cs[i].start <= cs[i].end <= |base|
    ensures Ordered(cs, i, i + 1, cs[i].start, cs[i].end)
    ensures Patch(base, cs, i, i + 1, cs[i].start, cs[i].end) == cs[i].lines
  {
    var c := cs[i];
    assert base[c.start..c.start] == [] && base[c.end..c.end] == [];
    assert Patch(base, cs, i + 1, i + 1, c.end, c.end) == [];
  }

  /** The turn that uses up one chunk c, or the same chunk c of both sides. */
  ghost predicate Single(base: seq<Line>, xs: seq<Chunk>, ys: seq<Chunk>, i: nat, j: nat, pos: nat, r: Extent, c: Chunk)
    requires Pending(xs, ys, i, j, pos, |base|) && (i < |xs| || j < |ys|)
  {
    var now := Turn(base, xs, ys, i, j, pos);
    && Step(xs, ys, i, j) == r && r.end == c.end && Low(xs, ys, i, j) == c.start
    && now.Print() == c.lines && now.side != Clash
  }

  lemma SingleTurn(base: seq<Line>, xs: seq<Chunk>, ys: seq<Chunk>, i: nat, j: nat, pos: nat, c: Chunk)
    requires Pending(xs, ys, i, j, pos, |base|) && (i < |xs| || j < |ys|)
    requires var r := Step(xs, ys, i, j);
      && r.end == c.end && Low(xs, ys, i, j) == c.start
      && (r.p == i || (r.p == i + 1 && xs[i] == c)) && (r.q == j || (r.q == j + 1 && ys[j] == c))
    ensures Single(base, xs, ys, i, j, pos, Step(xs, ys, i, j), c)
  {
    hide Step, Low, Ordered, Patch;
    StepFits(xs, ys, i, j, pos, |base|);
    if i < |xs| { PatchOne(base, xs, i); }
    if j < |ys| { PatchOne(base, ys, j); }
    StepAdvances(xs, ys, i, j, pos, |base|);
  }

  lemma TurnSingle(base: seq<Line>, xs: seq<Chunk>, ys: seq<Chunk>, i: nat, j: nat, pos: nat)
    requires Pending(xs, ys, i, j, pos, |base|) && (i < |xs| || j < |ys|)
    ensures i == |xs| ==> Single(base, xs, ys, i, j, pos, Extent(i, j + 1, ys[j].end), ys[j])
    ensures j == |ys| ==> Single(base, xs, ys, i, j, pos, Extent(i + 1, j, xs[i].end), xs[i])
    ensures i < |xs| && j < |ys| ==>
      var a, b := xs[i], ys[j];
      && (a == b ==> Single(base, xs, ys, i, j, pos, Extent(i + 1, j + 1, a.end), a))
      && (a != b && Before(a, b) ==> Single(base, xs, ys, i, j, pos, Extent(i + 1, j, a.end), a))
      && (a != b && !Before(a, b) && Before(b, a) ==> Single(base, xs, ys, i, j, pos, Extent(i, j + 1, b.end), b))
  {
    hide Absorb, Turn, Single, Ordered;
    if i == |xs| {
      SingleTurn(base, xs, ys, i, j, pos, ys[j]);
    } else if j == |ys| {
      SingleTurn(base, xs, ys, i, j, pos, xs[i]);
    } else if xs[i] == ys[j] || Before(xs[i], ys[j]) {
      SingleTurn(base, xs, ys, i, j, pos, xs[i]);
    } else if Before(ys[j], xs[i]) {
      SingleTurn(base, xs, ys, i, j, pos, ys[j]);
    }
  }

  /** The inner loop: let the cluster swallow every chunk that begins inside or right after it. */
  method AbsorbClusters(xs: seq<Chunk>, ys: seq<Chunk>, i: nat, j: nat, e: nat)
    returns (idxA: nat, idxB: nat, cEnd: nat)
    requires 0 < i <= |xs| && 0 < j <= |ys| && xs[i - 1].end <= e && ys[j - 1].end <= e
    ensures Extent(idxA, idxB, cEnd) == Absorb(xs, ys, i, j, e)
  {
    hide Absorb;
    idxA, idxB, cEnd := i, j, e;
    var expanded := true;
    while expanded
      invariant 0 < idxA <= |xs| && 0 < idxB <= |ys|
      invariant End(xs, idxA) <= cEnd && End(ys, idxB) <= cEnd
      invariant expanded ==> Absorb(xs, ys, idxA, idxB, cEnd) == Absorb(xs, ys, i, j, e)
      invariant !expanded ==> Extent(idxA, idxB, cEnd) == Absorb(xs, ys, i, j, e)
      decreases expanded, |xs| + |ys| - idxA - idxB
    {
      AbsorbPass(xs, ys, idxA, idxB, cEnd);
      expanded := false;
      if idxA < |xs| && xs[idxA].start <= cEnd {
        cEnd := Max(cEnd, xs[idxA].end);
        idxA := idxA + 1;
        expanded := true;
      }
      if idxB < |ys| && ys[idxB].start <= cEnd {
        cEnd := Max(cEnd, ys[idxB].end);
        idxB := idxB + 1;
        expanded := true;
      }
    }
  }

  lemma AbsorbPass(xs: seq<Chunk>, ys: seq<Chunk>, i: nat, j: nat, e: nat)
    requires i <= |xs| && j <= |ys|
    ensures var i' := Take(xs, i, e); var j' := Take(ys, j, Max(e, End(xs, i')));
      Absorb(xs, ys, i, j, e) ==
        if i' == i && j' == j then Extent(i, j, e) else Absorb(xs, ys, i', j', Reach(xs, ys, i', j', e))
  {
  }

  lemma {:induction false} PatchSlice(base: seq<Line>, cs: seq<Chunk>, i: nat, x: nat, k: nat, lo: nat, hi: nat)
    requires i + x <= k <= |cs| && Ordered(cs, i + x, k, lo, hi) && hi <= |base|
    ensures Ordered(cs[i..k], x, k - i, lo, hi)
    ensures Patch(base, cs[i..k], x, k - i, lo, hi) == Patch(base, cs, i + x, k, lo, hi)
    decreases k - i - x
  {
    if i + x < k { PatchSlice(base, cs, i, x + 1, k, cs[i + x].end, hi); }
  }

  lemma TurnTexts(base: seq<Line>, xs: seq<Chunk>, ys: seq<Chunk>, i: nat, j: nat, pos: nat)
    requires Pending(xs, ys, i, j, pos, |base|) && (i < |xs| || j < |ys|)
    ensures var r, lo, now := Step(xs, ys, i, j), Low(xs, ys, i, j), Turn(base, xs, ys, i, j, pos);
      && pos <= lo <= r.end <= |base|
      && Ordered(xs[i..r.p], 0, r.p - i, lo, r.end) && now.ours == Patch(base, xs[i..r.p], 0, r.p - i, lo, r.end)
      && Ordered(ys[j..r.q], 0, r.q - j, lo, r.end) && now.theirs == Patch(base, ys[j..r.q], 0, r.q - j, lo, r.end)
  {
    hide Step, Low, Script, Ordered, Patch;
    StepFits(xs, ys, i, j, pos, |base|);
    var r, lo := Step(xs, ys, i, j), Low(xs, ys, i, j);
    PatchSlice(base, xs, i, 0, r.p, lo, r.end);
    PatchSlice(base, ys, j, 0, r.q, lo, r.end);
  }

  ghost predicate Overlap(xs: seq<Chunk>, ys: seq<Chunk>, i: nat, j: nat) {
    i < |xs| && j < |ys| && xs[i] != ys[j] && !Before(xs[i], ys[j]) && !Before(ys[j], xs[i])
  }

  lemma TurnOverlap(base: seq<Line>, xs: seq<Chunk>, ys: seq<Chunk>, i: nat, j: nat, pos: nat)
    requires Pending(xs, ys, i, j, pos, |base|) && Overlap(xs, ys, i, j)
    ensures Step(xs, ys, i, j) == Absorb(xs, ys, i + 1, j + 1, Max(xs[i].end, ys[j].end))
    ensures Low(xs, ys, i, j) == Min(xs[i].start, ys[j].start)
    ensures var now := Turn(base, xs, ys, i, j, pos); now.side == if now.ours == now.theirs then Same else Clash
  {
    StepFits(xs, ys, i, j, pos, |base|);
  }

  /** Copy base up to a chunk, then the chunk. */
  method Emit(base: seq<Line>, out: seq<Line>, pos: nat, c: Chunk) returns (res: seq<Line>)
    requires pos <= c.start <= |base|
    ensures res == out + base[pos..c.start] + c.lines
  {
    res := out;
    if c.start > pos { res := res + base[pos..c.start]; }
    res := res + c.lines;
  }

  /** The turn that meets two overlapping chunks. */
  method EmitCluster(base: seq<Line>, xs: seq<Chunk>, ys: seq<Chunk>, i: nat, j: nat, pos: nat, out: seq<Line>,
          was: bool)
    returns (res: seq<Line>, conflicted: bool, p: nat, q: nat, cEnd: nat)
    requires Pending(xs, ys, i, j, pos, |base|) && Overlap(xs, ys, i, j)
    ensures Extent(p, q, cEnd) == Step(xs, ys, i, j)
    ensures pos <= Low(xs, ys, i, j) <= |base|
    ensures var now := Turn(base, xs, ys, i, j, pos);
      res == out + base[pos..Low(xs, ys, i, j)] + now.Print() && conflicted == (was || now.side == Clash)
  {
    hide Step, Low, Script, Ordered, Patch, Absorb, Turn;
    TurnOverlap(base, xs, ys, i, j, pos);
    TurnTexts(base, xs, ys, i, j, pos);
    ghost var now := Turn(base, xs, ys, i, j, pos);
    var cStart := Min(xs[i].start, ys[j].start);
    p, q, cEnd := AbsorbClusters(xs, ys, i + 1, j + 1, Max(xs[i].end, ys[j].end));
    res, conflicted := out, was;
    if cStart > pos { res := res + base[pos..cStart]; }
    assert res == out + base[pos..cStart];
    var oursContent := ReconstructSlice(base, xs[i..p], cStart, cEnd);
    var theirsContent := ReconstructSlice(base, ys[j..q], cStart, cEnd);
    if oursContent == theirsContent {
      res := res + oursContent;
    } else {
      conflicted := true;
      res := res + ([MARK_OURS] + oursContent + [MARK_SPLIT] + theirsContent + [MARK_THEIRS]);
    }
  }

  /** What the loop has printed and reported so far, and what remains, make up the whole. */
  ghost predicate Walked(base: seq<Line>, xs: seq<Chunk>, ys: seq<Chunk>, i: nat, j: nat, pos: nat, out: seq<Line>,
          conflicted: bool) {
    && Pending(xs, ys, i, j, pos, |base|) && Pending(xs, ys, 0, 0, 0, |base|)
    && var rest, all := Regions(base, xs, ys, i, j, pos), Regions(base, xs, ys, 0, 0, 0);
      && out + Concat(Printed, rest) == Concat(Printed, all)
      && ((conflicted || Clashes(rest)) <==> Clashes(all))
  }

  lemma WalkedStarts(diff: Differ, base: seq<Line>, ours: seq<Line>, theirs: seq<Line>)
    requires Diffs(diff)
    ensures var xs, ys, rs :=
      ChunksOf(diff, base, ours), ChunksOf(diff, base, theirs), MergeOf(diff, base, ours, theirs);
      && Pending(xs, ys, 0, 0, 0, |base|) && rs == Regions(base, xs, ys, 0, 0, 0)
      && Walked(base, xs, ys, 0, 0, 0, [], false)
  {
    hide Regions, Clashes, Concat, Script, Ordered, Patch;
    MergeStarts(diff, base, ours, theirs);
    var xs, ys := ChunksOf(diff, base, ours), ChunksOf(diff, base, theirs);
    assert [] + Concat(Printed, Regions(base, xs, ys, 0, 0, 0)) == Concat(Printed, Regions(base, xs, ys, 0, 0, 0));
  }

  lemma WalkedTurn(base: seq<Line>, xs: seq<Chunk>, ys: seq<Chunk>, i: nat, j: nat, pos: nat, out: seq<Line>,
          conflicted: bool)
    requires Walked(base, xs, ys, i, j, pos, out, conflicted) && (i < |xs| || j < |ys|)
    ensures i <= |xs| && j <= |ys| && Pending(xs, ys, i, j, pos, |base|)
    ensures var r, lo, now := Step(xs, ys, i, j), Low(xs, ys, i, j), Turn(base, xs, ys, i, j, pos);
      && pos <= lo <= |base|
      && Walked(base, xs, ys, r.p, r.q, r.end, out + base[pos..lo] + now.Print(), conflicted || now.side == Clash)
  {
    RegionsTurn(base, xs, ys, i, j, pos);
    var r, lo, now := Step(xs, ys, i, j), Low(xs, ys, i, j), Turn(base, xs, ys, i, j, pos);
    Shift(out, base[pos..lo], now.Print(), [], Concat(Printed, Regions(base, xs, ys, r.p, r.q, r.end)));
  }

  lemma WalkedEnds(base: seq<Line>, xs: seq<Chunk>, ys: seq<Chunk>, i: nat, j: nat, pos: nat, out: seq<Line>,
          conflicted: bool)
    requires Walked(base, xs, ys, i, j, pos, out, conflicted) && i == |xs| && j == |ys|
    ensures pos <= |base| && out + base[pos..] == Concat(Printed, Regions(base, xs, ys, 0, 0, 0))
    ensures conflicted == Clashes(Regions(base, xs, ys, 0, 0, 0))
  {
    GapPrint(base, pos, |base|);
    assert base[pos..|base|] == base[pos..];
  }

  /** `_merge_lines`: one turn of the loop per region. */
  method MergeLines(base: seq<Line>, ours: seq<Line>, theirs: seq<Line>, diff: Differ)
    returns (out: seq<Line>, conflicted: bool)
    requires Diffs(diff)
    ensures out == Concat(Printed, MergeOf(diff, base, ours, theirs))
    ensures conflicted == Clashes(MergeOf(diff, base, ours, theirs))
  {
    hide Step, Low, Script, Ordered, Patch, Absorb, Turn, Regions, Concat, Clashes, Walked, Pending;
    var xs := GetChunks(base, ours, diff);
    var ys := GetChunks(base, theirs, diff);
    out, conflicted := [], false;
    var idxA: nat, idxB: nat, pos: nat := 0, 0, 0;
    WalkedStarts(diff, base, ours, theirs);
    while idxA < |xs| || idxB < |ys|
      invariant idxA <= |xs| && idxB <= |ys| && Walked(base, xs, ys, idxA, idxB, pos, out, conflicted)
      decreases |xs| + |ys| - idxA - idxB
    {
      WalkedTurn(base, xs, ys, idxA, idxB, pos, out, conflicted);
      TurnSingle(base, xs, ys, idxA, idxB, pos);
      if idxA >= |xs| {
        out := Emit(base, out, pos, ys[idxB]);
        pos, idxB := ys[idxB].end, idxB + 1;
        continue;
      }
      if idxB >= |ys| {
        out := Emit(base, out, pos, xs[idxA]);
        pos, idxA := xs[idxA].end, idxA + 1;
        continue;
      }
      var a, b := xs[idxA], ys[idxB];
      if a.start == b.start && a.end == b.end && a.lines == b.lines {
        out := Emit(base, out, pos, a);
        pos, idxA, idxB := a.end, idxA + 1, idxB + 1;
        continue;
      }
      if a.end < b.start || (a.end == b.start && (a.start != a.end || b.start != b.end)) {
        out := Emit(base, out, pos, a);
        pos, idxA := a.end, idxA + 1;
        continue;
      }
      if b.end < a.start || (b.end == a.start && (b.start != b.end || a.start != a.end)) {
        out := Emit(base, out, pos, b);
        pos, idxB := b.end, idxB + 1;
        continue;
      }
      out, conflicted, idxA, idxB, pos := EmitCluster(base, xs, ys, idxA, idxB, pos, out, conflicted);
    }
    WalkedEnds(base, xs, ys, idxA, idxB, pos, out, conflicted);
    if pos < |base| { out := out + base[pos..]; }
  }

  // ---------------------------------------------------------------- what a merge is

  lemma {:induction false} RegionsFaithful(base: seq<Line>, xs: seq<Chunk>, ys: seq<Chunk>, i: nat, j: nat, pos: nat)
    requires Pending(xs, ys, i, j, pos, |base|)
    ensures Tiles(Regions(base, xs, ys, i, j, pos), pos, |base|)
    ensures forall r | r in Regions(base, xs, ys, i, j, pos) :: Faithful(base, r)
    decreases |xs| + |ys| - i - j
  {
    hide Step, Low, Script, Turn;
    if i < |xs| || j < |ys| {
      StepFits(xs, ys, i, j, pos, |base|);
      var r, lo := Step(xs, ys, i, j), Low(xs, ys, i, j);
      var gap, now, rest := Gap(base, pos, lo), Turn(base, xs, ys, i, j, pos), Regions(base, xs, ys, r.p, r.q, r.end);
      TurnFaithful(base, xs, ys, i, j, pos);
      RegionsFaithful(base, xs, ys, r.p, r.q, r.end);
      TurnPlace(base, xs, ys, i, j, pos);
      TilesConcat(gap, [now], pos, lo, r.end);
      TilesConcat(gap + [now], rest, pos, r.end, |base|);
    }
  }

  lemma TurnPlace(base: seq<Line>, xs: seq<Chunk>, ys: seq<Chunk>, i: nat, j: nat, pos: nat)
    requires Pending(xs, ys, i, j, pos, |base|) && (i < |xs| || j < |ys|)
    ensures var now := Turn(base, xs, ys, i, j, pos); now.lo == Low(xs, ys, i, j) && now.hi == Step(xs, ys, i, j).end
    ensures pos <= Low(xs, ys, i, j) <= Step(xs, ys, i, j).end <= |base|
  {
    StepFits(xs, ys, i, j, pos, |base|);
  }

  lemma {:induction false} RegionsSides(base: seq<Line>, xs: seq<Chunk>, ys: seq<Chunk>, i: nat, j: nat, pos: nat)
    requires Pending(xs, ys, i, j, pos, |base|)
    ensures Ordered(xs, i, |xs|, pos, |base|) && Ordered(ys, j, |ys|, pos, |base|)
    ensures Concat(OursOf, Regions(base, xs, ys, i, j, pos)) == Patch(base, xs, i, |xs|, pos, |base|)
    ensures Concat(TheirsOf, Regions(base, xs, ys, i, j, pos)) == Patch(base, ys, j, |ys|, pos, |base|)
    decreases |xs| + |ys| - i - j
  {
    hide Step, Low, Script;
    if i < |xs| || j < |ys| {
      StepFits(xs, ys, i, j, pos, |base|);
      var r, lo := Step(xs, ys, i, j), Low(xs, ys, i, j);
      RegionsSides(base, xs, ys, r.p, r.q, r.end);
      var gap, now, rest := Gap(base, pos, lo), Turn(base, xs, ys, i, j, pos), Regions(base, xs, ys, r.p, r.q, r.end);
      ConcatTurn(OursOf, gap, now, rest);
      ConcatTurn(TheirsOf, gap, now, rest);
      PatchThree(base, xs, i, r.p, pos, lo, r.end);
      PatchThree(base, ys, j, r.q, pos, lo, r.end);
      GapSides(base, pos, lo);
    } else {
      GapSides(base, pos, |base|);
    }
  }

  lemma GapSides(base: seq<Line>, pos: nat, lo: nat)
    requires pos <= lo <= |base|
    ensures Concat(OursOf, Gap(base, pos, lo)) == base[pos..lo] == Concat(TheirsOf, Gap(base, pos, lo))
  {
  }

  lemma PatchThree(base: seq<Line>, cs: seq<Chunk>, i: nat, m: nat, pos: nat, lo: nat, mid: nat)
    requires pos <= lo <= mid <= |base|
    requires Ordered(cs, i, m, lo, mid) && Ordered(cs, m, |cs|, mid, |base|)
    ensures Ordered(cs, i, |cs|, pos, |base|)
    ensures Patch(base, cs, i, |cs|, pos, |base|)
         == base[pos..lo] + Patch(base, cs, i, m, lo, mid) + Patch(base, cs, m, |cs|, mid, |base|)
  {
    PatchSplit(base, cs, i, m, |cs|, lo, mid, |base|);
    PatchSplit(base, cs, i, i, |cs|, pos, lo, |base|);
  }

  /** The merge cuts base into consecutive regions.  Put together, what the
      regions hold for either side is exactly that side's text, so no edit is
      lost or applied twice; and each region is faithful. */
  lemma MergeIsFaithful(diff: Differ, base: seq<Line>, ours: seq<Line>, theirs: seq<Line>)
    requires Diffs(diff)
    ensures var rs := MergeOf(diff, base, ours, theirs);
      && Tiles(rs, 0, |base|) && (forall r | r in rs :: Faithful(base, r))
      && Concat(OursOf, rs) == ours && Concat(TheirsOf, rs) == theirs
  {
    var xs, ys := ChunksOf(diff, base, ours), ChunksOf(diff, base, theirs);
    RegionsFaithful(base, xs, ys, 0, 0, 0);
    RegionsSides(base, xs, ys, 0, 0, 0);
  }

  // ---------------------------------------------------------------- symmetry

  lemma StepSymmetric(xs: seq<Chunk>, ys: seq<Chunk>, i: nat, j: nat, pos: nat, n: nat)
    requires Pending(xs, ys, i, j, pos, n) && (i < |xs| || j < |ys|)
    ensures var r := Step(xs, ys, i, j);
      Step(ys, xs, j, i) == Extent(r.q, r.p, r.end) && Low(ys, xs, j, i) == Low(xs, ys, i, j)
  {
    hide Absorb;
    if i < |xs| && j < |ys| {
      AbsorbSymmetric(xs, ys, i + 1, j + 1, Max(xs[i].end, ys[j].end), n);
    }
  }

  lemma TurnSymmetric(base: seq<Line>, xs: seq<Chunk>, ys: seq<Chunk>, i: nat, j: nat, pos: nat)
    requires Pending(xs, ys, i, j, pos, |base|) && (i < |xs| || j < |ys|)
    ensures Turn(base, ys, xs, j, i, pos) == Turn(base, xs, ys, i, j, pos).Flip()
  {
    hide Step, Low, Script, Patch, Ordered;
    StepSymmetric(xs, ys, i, j, pos, |base|);
    StepFits(xs, ys, i, j, pos, |base|);
    StepAdvances(xs, ys, i, j, pos, |base|);
  }

  lemma StepAdvances(xs: seq<Chunk>, ys: seq<Chunk>, i: nat, j: nat, pos: nat, n: nat)
    requires Pending(xs, ys, i, j, pos, n) && (i < |xs| || j < |ys|)
    ensures Step(xs, ys, i, j).p > i || Step(xs, ys, i, j).q > j
  {
  }

  lemma {:induction false} RegionsSymmetric(base: seq<Line>, xs: seq<Chunk>, ys: seq<Chunk>, i: nat, j: nat, pos: nat)
    requires Pending(xs, ys, i, j, pos, |base|)
    ensures Regions(base, ys, xs, j, i, pos) == Flip(Regions(base, xs, ys, i, j, pos))
    decreases |xs| + |ys| - i - j
  {
    hide Step, Low, Script, Turn, Flip, Gap, Region.Flip;
    if i < |xs| || j < |ys| {
      StepSymmetric(xs, ys, i, j, pos, |base|);
      TurnSymmetric(base, xs, ys, i, j, pos);
      StepFits(xs, ys, i, j, pos, |base|);
      var r := Step(xs, ys, i, j);
      RegionsSymmetric(base, xs, ys, r.p, r.q, r.end);
      FlipTurn(Gap(base, pos, Low(xs, ys, i, j)), Turn(base, xs, ys, i, j, pos),
            Regions(base, xs, ys, r.p, r.q, r.end));
      FlipGap(base, pos, Low(xs, ys, i, j));
    } else {
      FlipGap(base, pos, |base|);
    }
  }

  lemma FlipGap(base: seq<Line>, pos: nat, lo: nat)
    requires pos <= lo <= |base|
    ensures Flip(Gap(base, pos, lo)) == Gap(base, pos, lo)
  {
  }

  lemma FlipTurn(gap: seq<Region>, r: Region, rest: seq<Region>)
    ensures Flip(gap + [r] + rest) == Flip(gap) + [r.Flip()] + Flip(rest)
  {
    hide Region.Flip;
  }

  /** Swapping ours and theirs swaps the sides of every region and nothing
      else: the same lines are printed, with the two halves of each marked block
      exchanged, and the same verdict is reported. */
  lemma MergeIsSymmetric(diff: Differ, base: seq<Line>, ours: seq<Line>, theirs: seq<Line>)
    requires Diffs(diff)
    ensures var rs, ss := MergeOf(diff, base, ours, theirs), MergeOf(diff, base, theirs, ours);
      && ss == Flip(rs) && Clashes(ss) == Clashes(rs)
      && forall k | 0 <= k < |rs| && rs[k].side != Clash :: Faithful(base, rs[k]) && ss[k].Print() == rs[k].Print()
  {
    hide Regions, Script, Ordered, Patch, Tiles;
    var xs, ys := ChunksOf(diff, base, ours), ChunksOf(diff, base, theirs);
    MergeStarts(diff, base, ours, theirs);
    RegionsSymmetric(base, xs, ys, 0, 0, 0);
    RegionsFaithful(base, xs, ys, 0, 0, 0);
    var rs := MergeOf(diff, base, ours, theirs);
    FlipClashes(rs);
    forall k | 0 <= k < |rs| && rs[k].side != Clash ensures Faithful(base, rs[k]) {
      assert rs[k] in rs;
    }
  }

  lemma FlipClashes(rs: seq<Region>)
    ensures Clashes(Flip(rs)) == Clashes(rs)
  {
    if k :| 0 <= k < |rs| && rs[k].side == Clash { assert Flip(rs)[k].side == Clash; }
    if k :| 0 <= k < |rs| && Flip(rs)[k].side == Clash { assert rs[k].side == Clash; }
  }
}

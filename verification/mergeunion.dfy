/** Merging two scripts that do not overlap: no conflict, and both applied. */
module MergeUnion {
  import opened Merge

  /** Two chunks that replace no common line of base and do not both insert at one
      place; they may touch. */
  predicate Apart(a: Chunk, b: Chunk) {
    (a.end <= b.start || b.end <= a.start) && !(a.start == a.end == b.start == b.end)
  }

  /** No two chunks of the two scripts overlap, unless they are the same chunk. */
  ghost predicate Compatible(xs: seq<Chunk>, ys: seq<Chunk>) {
    forall i, j | 0 <= i < |xs| && 0 <= j < |ys| :: xs[i] == ys[j] || Apart(xs[i], ys[j])
  }

  /** u holds exactly the chunks of both scripts, each once, in the order of base. */
  ghost predicate HoldsBoth(u: seq<Chunk>, xs: seq<Chunk>, ys: seq<Chunk>) {
    && (forall a, b | 0 <= a < b < |u| :: u[a].end <= u[b].start && u[a] != u[b])
    && (forall c :: c in u <==> c in xs || c in ys)
  }

  lemma ApartIsBefore(a: Chunk, b: Chunk)
    requires a.start <= a.end && b.start <= b.end
    ensures Apart(a, b) <==> Before(a, b) || Before(b, a)
  {
  }

  /** Chunks u[k..] are those of xs[i..] and ys[j..], in the order in which they are merged. */
  ghost predicate Union(u: seq<Chunk>, k: nat, xs: seq<Chunk>, i: nat, ys: seq<Chunk>, j: nat) {
    && k <= |u| && i <= |xs| && j <= |ys|
    && (forall a, b | k <= a < b < |u| :: Before(u[a], u[b]))
    && (forall c :: c in u[k..] <==> c in xs[i..] || c in ys[j..])
  }

  /** c is the next chunk of the union, taken from one side or from both. */
  ghost predicate Head(c: Chunk, xs: seq<Chunk>, ys: seq<Chunk>, i: nat, j: nat, p: nat, q: nat) {
    && i <= p <= |xs| && p <= i + 1 && j <= q <= |ys| && q <= j + 1
    && (p > i ==> xs[i] == c) && (q > j ==> ys[j] == c) && (p > i || q > j)
    && (forall x | p <= x < |xs| :: Before(c, xs[x])) && (forall y | q <= y < |ys| :: Before(c, ys[y]))
  }

  lemma BeforeIsStrict(a: Chunk, b: Chunk)
    requires Before(a, b) && a.start <= a.end && b.start <= b.end
    ensures !Before(b, a) && a != b
  {
  }

  lemma CompatibleStep(xs: seq<Chunk>, ys: seq<Chunk>, i: nat, j: nat, pos: nat, n: nat)
    requires Pending(xs, ys, i, j, pos, n) && (i < |xs| || j < |ys|) && Compatible(xs, ys)
    ensures var r := Step(xs, ys, i, j); var c := if r.p > i then xs[i] else ys[j];
      && Head(c, xs, ys, i, j, r.p, r.q) && r.end == c.end && Low(xs, ys, i, j) == c.start
  {
    hide Absorb;
    if i < |xs| && j < |ys| {
      ApartIsBefore(xs[i], ys[j]);
    }
  }

  lemma HeadLeast(c: Chunk, d: Chunk, xs: seq<Chunk>, ys: seq<Chunk>, i: nat, j: nat, p: nat, q: nat)
    requires Head(c, xs, ys, i, j, p, q) && (d in xs[i..] || d in ys[j..])
    ensures d == c || ((d in xs[p..] || d in ys[q..]) && Before(c, d))
  {
    if d in xs[i..] {
      var x :| i <= x < |xs| && xs[x] == d;
    } else {
      var y :| j <= y < |ys| && ys[y] == d;
    }
  }

  lemma HeadOnce(c: Chunk, d: Chunk, xs: seq<Chunk>, ys: seq<Chunk>, i: nat, j: nat, p: nat, q: nat, n: nat)
    requires Script(xs, n) && Script(ys, n) && Head(c, xs, ys, i, j, p, q) && (d in xs[p..] || d in ys[q..])
    ensures d != c && Before(c, d) && (d in xs[i..] || d in ys[j..])
  {
    if d in xs[p..] {
      var x :| p <= x < |xs| && xs[x] == d;
      BeforeIsStrict(c, xs[x]);
      assert xs[i..][x - i] == d;
    } else {
      var y :| q <= y < |ys| && ys[y] == d;
      BeforeIsStrict(c, ys[y]);
      assert ys[j..][y - j] == d;
    }
  }

  lemma HeadChunk(c: Chunk, xs: seq<Chunk>, ys: seq<Chunk>, i: nat, j: nat, p: nat, q: nat)
    requires Head(c, xs, ys, i, j, p, q)
    ensures i <= p <= |xs| && j <= q <= |ys| && (c in xs[i..] || c in ys[j..])
  {
    if p > i { assert xs[i..][0] == c; } else { assert ys[j..][0] == c; }
  }

  lemma UnionHead(c: Chunk, u: seq<Chunk>, k: nat, xs: seq<Chunk>, i: nat, ys: seq<Chunk>, j: nat, p: nat, q: nat,
          n: nat)
    requires Script(xs, n) && Script(ys, n) && Union(u, k, xs, i, ys, j) && Head(c, xs, ys, i, j, p, q)
    ensures k < |u| && u[k] == c && Union(u, k + 1, xs, p, ys, q)
  {
    hide Head;
    HeadChunk(c, xs, ys, i, j, p, q);
    assert c in u[k..];
    var m :| k <= m < |u| && u[m] == c;
    assert u[k] in u[k..];
    if m > k { UnionOrdered(u, k, m, xs, i, ys, j, n); }
    HeadLeast(c, u[k], xs, ys, i, j, p, q);
    forall d ensures d in u[k + 1..] <==> d in xs[p..] || d in ys[q..] {
      UnionRest(c, d, u, k, xs, i, ys, j, p, q, n);
    }
  }

  lemma UnionRest(c: Chunk, d: Chunk, u: seq<Chunk>, k: nat, xs: seq<Chunk>, i: nat, ys: seq<Chunk>, j: nat, p: nat,
          q: nat, n: nat)
    requires Script(xs, n) && Script(ys, n) && Union(u, k, xs, i, ys, j) && Head(c, xs, ys, i, j, p, q) && k < |u|
      && u[k] == c
    ensures d in u[k + 1..] <==> d in xs[p..] || d in ys[q..]
  {
    assert u[k..] == [c] + u[k + 1..];
    if d in u[k + 1..] {
      var m :| k + 1 <= m < |u| && u[m] == d;
      assert u[k..][m - k] == d;
      HeadLeast(c, d, xs, ys, i, j, p, q);
      assert Before(u[k], u[m]);
      UnionOrdered(u, k, m, xs, i, ys, j, n);
    }
    if d in xs[p..] || d in ys[q..] { HeadOnce(c, d, xs, ys, i, j, p, q, n); }
  }

  lemma InScript(c: Chunk, cs: seq<Chunk>, i: nat, n: nat)
    requires Script(cs, n) && i <= |cs| && c in cs[i..]
    ensures c.start <= c.end
  {
    var x :| 0 <= x < |cs[i..]| && cs[i..][x] == c;
    assert cs[i + x] == c;
  }

  /** The chunks of a union are well-formed, so an earlier one is not a later one. */
  lemma UnionOrdered(u: seq<Chunk>, k: nat, m: nat, xs: seq<Chunk>, i: nat, ys: seq<Chunk>, j: nat, n: nat)
    requires Script(xs, n) && Script(ys, n) && Union(u, k, xs, i, ys, j) && k < m < |u|
    ensures u[k] != u[m] && !Before(u[m], u[k])
  {
    assert u[k..][0] == u[k] && u[k..][m - k] == u[m];
    assert u[k] in u[k..] && u[m] in u[k..];
    if u[k] in xs[i..] { InScript(u[k], xs, i, n); } else { InScript(u[k], ys, j, n); }
    if u[m] in xs[i..] { InScript(u[m], xs, i, n); } else { InScript(u[m], ys, j, n); }
    BeforeIsStrict(u[k], u[m]);
  }

  lemma {:induction false} RegionsUnion(base: seq<Line>, xs: seq<Chunk>, ys: seq<Chunk>, i: nat, j: nat, pos: nat,
          u: seq<Chunk>, k: nat)
    requires Pending(xs, ys, i, j, pos, |base|) && Compatible(xs, ys) && Union(u, k, xs, i, ys, j)
    ensures !Clashes(Regions(base, xs, ys, i, j, pos))
    ensures Ordered(u, k, |u|, pos, |base|)
    ensures Concat(Printed, Regions(base, xs, ys, i, j, pos)) == Patch(base, u, k, |u|, pos, |base|)
    decreases |xs| + |ys| - i - j
  {
    if i < |xs| || j < |ys| {
      hide Step, Low, Turn, Absorb;
      var r := Step(xs, ys, i, j);
      var c := if r.p > i then xs[i] else ys[j];
      CompatibleStep(xs, ys, i, j, pos, |base|);
      UnionHead(c, u, k, xs, i, ys, j, r.p, r.q, |base|);
      StepFits(xs, ys, i, j, pos, |base|);
      RegionsUnion(base, xs, ys, r.p, r.q, r.end, u, k + 1);
      RegionsTurn(base, xs, ys, i, j, pos);
      CompatibleTurn(base, xs, ys, i, j, pos);
    } else {
      if k < |u| { Inhabited(u[k..]); }
      GapPrint(base, pos, |base|);
    }
  }

  lemma Inhabited<T>(s: seq<T>)
    requires s != []
    ensures exists x :: x in s
  {
    assert s[0] in s;
  }

  lemma CompatibleTurn(base: seq<Line>, xs: seq<Chunk>, ys: seq<Chunk>, i: nat, j: nat, pos: nat)
    requires Pending(xs, ys, i, j, pos, |base|) && (i < |xs| || j < |ys|) && Compatible(xs, ys)
    ensures var r, now := Step(xs, ys, i, j), Turn(base, xs, ys, i, j, pos);
      now.side != Clash && now.Print() == (if r.p > i then xs[i] else ys[j]).lines
  {
    hide Absorb, Turn;
    TurnSingle(base, xs, ys, i, j, pos);
    if i < |xs| && j < |ys| {
      ApartIsBefore(xs[i], ys[j]);
    }
  }

  /** Compatible scripts do have a union. */
  lemma {:induction false} UnionExists(xs: seq<Chunk>, ys: seq<Chunk>, i: nat, j: nat, pos: nat, n: nat)
    returns (u: seq<Chunk>)
    requires Pending(xs, ys, i, j, pos, n) && Compatible(xs, ys)
    ensures Union(u, 0, xs, i, ys, j)
    decreases |xs| + |ys| - i - j
  {
    if i == |xs| && j == |ys| {
      u := [];
    } else {
      hide Step, Low, Absorb;
      var r := Step(xs, ys, i, j);
      var c := if r.p > i then xs[i] else ys[j];
      CompatibleStep(xs, ys, i, j, pos, n);
      StepFits(xs, ys, i, j, pos, n);
      var rest := UnionExists(xs, ys, r.p, r.q, r.end, n);
      u := [c] + rest;
      forall b | 1 <= b < |u| ensures Before(c, u[b]) {
        assert rest[b - 1] in rest[0..];
        HeadOnce(c, u[b], xs, ys, i, j, r.p, r.q, n);
      }
      forall d ensures d in u[0..] <==> d in xs[i..] || d in ys[j..] {
        assert rest[0..] == rest && u[0..] == u;
        if d in xs[i..] || d in ys[j..] { HeadLeast(c, d, xs, ys, i, j, r.p, r.q); }
        if d in xs[r.p..] || d in ys[r.q..] { HeadOnce(c, d, xs, ys, i, j, r.p, r.q, n); }
        assert r.p > i ==> xs[i..][0] == c;
        assert r.q > j ==> ys[j..][0] == c;
      }
    }
  }

  lemma UnionIs(u: seq<Chunk>, xs: seq<Chunk>, ys: seq<Chunk>, n: nat)
    requires Script(xs, n) && Script(ys, n) && Compatible(xs, ys) && HoldsBoth(u, xs, ys)
    ensures Union(u, 0, xs, 0, ys, 0)
  {
    assert u[0..] == u && xs[0..] == xs && ys[0..] == ys;
    forall a, b | 0 <= a < b < |u| ensures Before(u[a], u[b]) {
      assert u[a] in u && u[b] in u;
      InOneOf(u[a], u[b], xs, ys, n);
    }
  }

  lemma InOneOf(c: Chunk, d: Chunk, xs: seq<Chunk>, ys: seq<Chunk>, n: nat)
    requires Script(xs, n) && Script(ys, n) && Compatible(xs, ys)
    requires (c in xs || c in ys) && (d in xs || d in ys) && c != d && c.end <= d.start
    ensures Before(c, d)
  {
    if c in xs {
      var x :| 0 <= x < |xs| && xs[x] == c;
      if d in xs {
        var k :| 0 <= k < |xs| && xs[k] == d;
      } else {
        var k :| 0 <= k < |ys| && ys[k] == d;
        assert Apart(xs[x], ys[k]);
      }
    } else {
      var y :| 0 <= y < |ys| && ys[y] == c;
      if d in ys {
        var k :| 0 <= k < |ys| && ys[k] == d;
      } else {
        var k :| 0 <= k < |xs| && xs[k] == d;
        assert Apart(xs[k], ys[y]);
      }
    }
  }

  lemma UnionHolds(u: seq<Chunk>, xs: seq<Chunk>, ys: seq<Chunk>, n: nat)
    requires Script(xs, n) && Script(ys, n) && Union(u, 0, xs, 0, ys, 0)
    ensures HoldsBoth(u, xs, ys)
  {
    assert u[0..] == u && xs[0..] == xs && ys[0..] == ys;
    forall a, b | 0 <= a < b < |u| ensures u[a].end <= u[b].start && u[a] != u[b] {
      assert u[a] in u && u[b] in u;
      if u[a] in xs { InScript(u[a], xs, 0, n); } else { InScript(u[a], ys, 0, n); }
      if u[b] in xs { InScript(u[b], xs, 0, n); } else { InScript(u[b], ys, 0, n); }
      BeforeIsStrict(u[a], u[b]);
    }
  }

  /** When no two different chunks overlap there is no conflict, and the result
      is base with the chunks of both scripts applied to it, each once: u is any
      list that holds exactly the chunks of both scripts in order. */
  lemma MergeOfCompatible(diff: Differ, base: seq<Line>, ours: seq<Line>, theirs: seq<Line>, xs: seq<Chunk>,
          ys: seq<Chunk>, u: seq<Chunk>)
    requires Diffs(diff) && xs == ChunksOf(diff, base, ours) && ys == ChunksOf(diff, base, theirs)
    requires Compatible(xs, ys) && HoldsBoth(u, xs, ys)
    ensures !Clashes(MergeOf(diff, base, ours, theirs))
    ensures Ordered(u, 0, |u|, 0, |base|)
    ensures Concat(Printed, MergeOf(diff, base, ours, theirs)) == Patch(base, u, 0, |u|, 0, |base|)
  {
    hide *;
    MergeStarts(diff, base, ours, theirs);
    UnionIs(u, xs, ys, |base|);
    RegionsUnion(base, xs, ys, 0, 0, 0, u, 0);
  }

  /** Such a list exists for every pair of compatible scripts. */
  lemma MergeHasUnion(diff: Differ, base: seq<Line>, ours: seq<Line>, theirs: seq<Line>)
    requires Diffs(diff) && Compatible(ChunksOf(diff, base, ours), ChunksOf(diff, base, theirs))
    ensures exists u :: HoldsBoth(u, ChunksOf(diff, base, ours), ChunksOf(diff, base, theirs))
  {
    var u := UnionExists(ChunksOf(diff, base, ours), ChunksOf(diff, base, theirs), 0, 0, 0, |base|);
    UnionHolds(u, ChunksOf(diff, base, ours), ChunksOf(diff, base, theirs), |base|);
  }
}

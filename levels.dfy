/**
  The greedy level assigner of the dependency-graph drawer (`depHeights`).
  Arcs are taken shortest first (ties by source position); each gets one
  more than the highest floor among the gaps it spans, and those floors are
  raised to its level. Two arcs that end up on one level never overlap.
*/
module LevelAssigner {
  import opened Wrappers
  import opened Sorting
  import opened DepGraph

  /**
    The gaps an arc spans, as the half-open range `[from, to)`; gap `g`
    lies between tokens `g` and `g + 1`.
  */
  datatype Span = Span(from: nat, to: nat)

  predicate Overlap(a: Span, b: Span) {
    a.from < b.to && b.from < a.to
  }

  /** Every span is non-empty and lies within `n` gaps. */
  predicate SpansWithin(spans: seq<Span>, n: nat) {
    forall i :: 0 <= i < |spans| ==> spans[i].from < spans[i].to <= n
  }

  function SpanOf(d: Dep): Span {
    Span(d.tok1.pos, d.tok2.pos)
  }

  function SpansOf(deps: seq<Dep>): (r: seq<Span>)
    ensures |r| == |deps| && forall i :: 0 <= i < |deps| ==> r[i] == SpanOf(deps[i])
  {
    seq(|deps|, i requires 0 <= i < |deps| => SpanOf(deps[i]))
  }

  /** `depCMP`: by span length, then by source position. */
  function SpanKey(d: Dep): Key {
    (d.tok2.pos - d.tok1.pos, d.tok1.pos)
  }

  /** `depCMP` itself, which only ever compares `SpanKey`. */
  function DepCmp(a: Dep, b: Dep): (r: int)
    ensures r < 0 <==> KeyLe(SpanKey(a), SpanKey(b)) && SpanKey(a) != SpanKey(b)
    ensures r == 0 <==> SpanKey(a) == SpanKey(b)
  {
    var aLen := a.tok2.pos - a.tok1.pos;
    var bLen := b.tok2.pos - b.tok1.pos;
    if aLen != bLen then Cmp(aLen, bLen) else Cmp(a.tok1.pos, b.tok1.pos)
  }

  // ------------------------------------------------------------ specification

  /** Python's `max` over `f[lo..hi)`; `MaxRangeUpper` and `MaxRangeAttained` say so. */
  function MaxRange(f: seq<int>, lo: nat, hi: nat): int
    requires lo < hi <= |f|
    decreases hi - lo
  {
    if lo + 1 == hi then f[lo]
    else
      var m := MaxRange(f, lo + 1, hi);
      if f[lo] >= m then f[lo] else m
  }

  /** No element of the range exceeds its maximum. */
  lemma {:induction false} MaxRangeUpper(f: seq<int>, lo: nat, hi: nat, g: nat)
    requires lo <= g < hi <= |f|
    ensures f[g] <= MaxRange(f, lo, hi)
    decreases hi - lo
  {
    if g > lo {
      MaxRangeUpper(f, lo + 1, hi, g);
    }
  }

  /** The maximum is one of the elements of the range. */
  lemma {:induction false} MaxRangeAttained(f: seq<int>, lo: nat, hi: nat) returns (g: nat)
    requires lo < hi <= |f|
    ensures lo <= g < hi && f[g] == MaxRange(f, lo, hi)
    decreases hi - lo
  {
    if lo + 1 == hi || f[lo] >= MaxRange(f, lo + 1, hi) {
      g := lo;
    } else {
      g := MaxRangeAttained(f, lo + 1, hi);
    }
  }

  /** The largest element of a non-empty sequence. */
  function MaxOf(f: seq<int>): int
    requires f != []
  {
    MaxRange(f, 0, |f|)
  }

  /** The floors after raising the gaps of `s` to `level`. */
  function Raise(f: seq<int>, s: Span, level: int): (r: seq<int>)
    ensures |r| == |f|
  {
    seq(|f|, g requires 0 <= g < |f| => if s.from <= g < s.to then level else f[g])
  }

  /** The first `m` arcs are non-empty and lie within `n` gaps. */
  predicate PrefixWithin(spans: seq<Span>, m: nat, n: nat) {
    m <= |spans| && forall k :: 0 <= k < m ==> spans[k].from < spans[k].to <= n
  }

  /** The floor of gap `g` after the first `m` arcs have been placed, in order. */
  function Floor(n: nat, spans: seq<Span>, m: nat, g: nat): int
    requires PrefixWithin(spans, m, n) && g < n
    decreases m, 2, 0
  {
    if m == 0 then 0
    else if spans[m - 1].from <= g < spans[m - 1].to then Level(n, spans, m - 1)
    else Floor(n, spans, m - 1, g)
  }

  /** The level arc `k` gets: one above the highest floor among its gaps. */
  function Level(n: nat, spans: seq<Span>, k: nat): int
    requires PrefixWithin(spans, k + 1, n)
    decreases k + 1, 1, 0
  {
    1 + MaxFloor(n, spans, k, spans[k].from, spans[k].to)
  }

  /** The highest floor among gaps `lo..hi-1` after `k` arcs. */
  function MaxFloor(n: nat, spans: seq<Span>, k: nat, lo: nat, hi: nat): int
    requires PrefixWithin(spans, k, n) && lo < hi <= n
    decreases k + 1, 0, hi - lo
  {
    if lo + 1 == hi then Floor(n, spans, k, lo)
    else
      var m := MaxFloor(n, spans, k, lo + 1, hi);
      if Floor(n, spans, k, lo) >= m then Floor(n, spans, k, lo) else m
  }

  /** All floors after the first `m` arcs: the `heights` list of `depHeights`. */
  function Floors(n: nat, spans: seq<Span>, m: nat): (f: seq<int>)
    requires PrefixWithin(spans, m, n)
    ensures |f| == n
  {
    seq(n, g requires 0 <= g < n => Floor(n, spans, m, g))
  }

  /** The level each arc gets, in processing order. */
  function Levels(n: nat, spans: seq<Span>): (hs: seq<int>)
    requires SpansWithin(spans, n)
    ensures |hs| == |spans|
  {
    seq(|spans|, i requires 0 <= i < |spans| => Level(n, spans, i))
  }

  // ------------------------------------------------------------ properties

  /** `max` over the floor list is the highest floor. */
  lemma {:induction false} MaxRangeOfFloors(n: nat, spans: seq<Span>, k: nat, lo: nat, hi: nat)
    requires PrefixWithin(spans, k, n) && lo < hi <= n
    ensures MaxRange(Floors(n, spans, k), lo, hi) == MaxFloor(n, spans, k, lo, hi)
    decreases hi - lo
  {
    if lo + 1 < hi {
      MaxRangeOfFloors(n, spans, k, lo + 1, hi);
    }
  }

  /** Placing arc `k` over the floor list raises its gaps to its level. */
  lemma FloorsRaise(n: nat, spans: seq<Span>, k: nat)
    requires PrefixWithin(spans, k + 1, n)
    ensures Floors(n, spans, k + 1) == Raise(Floors(n, spans, k), spans[k], Level(n, spans, k))
  {
    var a := Floors(n, spans, k + 1);
    var b := Raise(Floors(n, spans, k), spans[k], Level(n, spans, k));
    forall g | 0 <= g < n ensures a[g] == b[g] {
    }
  }

  /** No floor in the range exceeds the highest. */
  lemma {:induction false} MaxFloorUpper(n: nat, spans: seq<Span>, k: nat, lo: nat, hi: nat, g: nat)
    requires PrefixWithin(spans, k, n) && lo <= g < hi <= n
    ensures Floor(n, spans, k, g) <= MaxFloor(n, spans, k, lo, hi)
    decreases hi - lo
  {
    if g > lo {
      MaxFloorUpper(n, spans, k, lo + 1, hi, g);
    }
  }

  lemma {:induction false} FloorNonNegative(n: nat, spans: seq<Span>, m: nat, g: nat)
    requires PrefixWithin(spans, m, n) && g < n
    ensures Floor(n, spans, m, g) >= 0
    decreases m
  {
    if m > 0 {
      var s := spans[m - 1];
      FloorNonNegative(n, spans, m - 1, g);
      FloorNonNegative(n, spans, m - 1, s.from);
      MaxFloorUpper(n, spans, m - 1, s.from, s.to, s.from);
    }
  }

  /** Every arc gets a level of at least one. */
  lemma LevelPositive(n: nat, spans: seq<Span>, i: nat)
    requires PrefixWithin(spans, i + 1, n)
    ensures Level(n, spans, i) >= 1
  {
    FloorNonNegative(n, spans, i, spans[i].from);
    MaxFloorUpper(n, spans, i, spans[i].from, spans[i].to, spans[i].from);
  }

  /** Placing arc `i` never lowers a floor. */
  lemma FloorStep(n: nat, spans: seq<Span>, i: nat, g: nat)
    requires PrefixWithin(spans, i + 1, n) && g < n
    ensures Floor(n, spans, i, g) <= Floor(n, spans, i + 1, g)
  {
    if spans[i].from <= g < spans[i].to {
      MaxFloorUpper(n, spans, i, spans[i].from, spans[i].to, g);
    }
  }

  /** Floors never decrease as more arcs are placed. */
  lemma {:induction false} FloorsGrow(n: nat, spans: seq<Span>, i: nat, j: nat, g: nat)
    requires PrefixWithin(spans, j, n) && i <= j && g < n
    ensures Floor(n, spans, i, g) <= Floor(n, spans, j, g)
    decreases j - i
  {
    if i < j {
      FloorStep(n, spans, i, g);
      FloorsGrow(n, spans, i + 1, j, g);
    }
  }

  /** An arc placed later that shares a gap with an earlier one gets a strictly higher level. */
  lemma LaterOverlapHigher(n: nat, spans: seq<Span>, i: nat, j: nat)
    requires SpansWithin(spans, n) && i < j < |spans|
    requires Overlap(spans[i], spans[j])
    ensures Levels(n, spans)[i] < Levels(n, spans)[j]
  {
    var g := if spans[i].from < spans[j].from then spans[j].from else spans[i].from;
    assert Floor(n, spans, i + 1, g) == Level(n, spans, i);
    FloorsGrow(n, spans, i + 1, j, g);
    MaxFloorUpper(n, spans, j, spans[j].from, spans[j].to, g);
  }

  /** Two arcs on one level have disjoint gap ranges. */
  lemma SameLevelDisjoint(n: nat, spans: seq<Span>, i: nat, j: nat)
    requires SpansWithin(spans, n) && i < |spans| && j < |spans| && i != j
    requires Levels(n, spans)[i] == Levels(n, spans)[j]
    ensures !Overlap(spans[i], spans[j])
  {
    if Overlap(spans[i], spans[j]) {
      if i < j { LaterOverlapHigher(n, spans, i, j); } else { LaterOverlapHigher(n, spans, j, i); }
    }
  }

  /** Every floor is zero or the level of some arc already placed. */
  lemma {:induction false} FloorIsLevel(n: nat, spans: seq<Span>, k: nat, g: nat) returns (i: int)
    requires PrefixWithin(spans, k, n) && g < n
    ensures -1 <= i < k
    ensures i == -1 ==> Floor(n, spans, k, g) == 0
    ensures i >= 0 ==> Floor(n, spans, k, g) == Level(n, spans, i)
    decreases k
  {
    if k == 0 {
      i := -1;
    } else if spans[k - 1].from <= g < spans[k - 1].to {
      i := k - 1;
    } else {
      i := FloorIsLevel(n, spans, k - 1, g);
    }
  }

  /** No arc's level exceeds the highest final floor. */
  lemma LevelBelowMaxFloor(n: nat, spans: seq<Span>, i: nat)
    requires SpansWithin(spans, n) && i < |spans| && n > 0
    ensures Levels(n, spans)[i] <= MaxOf(Floors(n, spans, |spans|))
  {
    var g := spans[i].from;
    assert Floor(n, spans, i + 1, g) == Level(n, spans, i);
    FloorsGrow(n, spans, i + 1, |spans|, g);
    MaxRangeUpper(Floors(n, spans, |spans|), 0, n, g);
  }

  /** The highest final floor is the level of some arc. */
  lemma MaxFloorIsLevel(n: nat, spans: seq<Span>) returns (i: nat)
    requires SpansWithin(spans, n) && spans != [] && n > 0
    ensures i < |spans| && Levels(n, spans)[i] == MaxOf(Floors(n, spans, |spans|))
  {
    var f := Floors(n, spans, |spans|);
    var g := MaxRangeAttained(f, 0, n);
    var k := FloorIsLevel(n, spans, |spans|, g);
    if k < 0 {
      LevelBelowMaxFloor(n, spans, 0);
      LevelPositive(n, spans, 0);
      assert false;
    }
    i := k;
  }

  /**
    `max(heights)` at the end of `depHeights`: the highest level given to
    any arc (zero when there are no arcs).
  */
  lemma MaxFloorIsMaxLevel(n: nat, spans: seq<Span>)
    requires SpansWithin(spans, n) && n > 0
    ensures forall i :: 0 <= i < |spans| ==> Levels(n, spans)[i] <= MaxOf(Floors(n, spans, |spans|))
    ensures spans == [] ==> MaxOf(Floors(n, spans, |spans|)) == 0
    ensures spans != [] ==> exists i :: 0 <= i < |spans| && Levels(n, spans)[i] == MaxOf(Floors(n, spans, |spans|))
  {
    forall i | 0 <= i < |spans| ensures Levels(n, spans)[i] <= MaxOf(Floors(n, spans, |spans|)) {
      LevelBelowMaxFloor(n, spans, i);
    }
    if spans == [] {
      var g := MaxRangeAttained(Floors(n, spans, 0), 0, n);
    } else {
      var i := MaxFloorIsLevel(n, spans);
    }
  }

  // ------------------------------------------------------------ depHeights

  /** The inner loop of `depHeights`: sets the floors of gaps `from..to-1` to `level`. */
  method RaiseGaps(heights: seq<int>, from: nat, to: nat, level: int) returns (r: seq<int>)
    requires from <= to <= |heights|
    ensures r == Raise(heights, Span(from, to), level)
  {
    r := heights;
    var tPos := from;
    while tPos < to
      invariant from <= tPos <= to
      invariant |r| == |heights|
      invariant forall g :: 0 <= g < |r| ==> r[g] == if from <= g < tPos then level else heights[g]
    {
      r := r[tPos := level];
      tPos := tPos + 1;
    }
  }

  /**
    The loop of `depHeights` over the sorted arcs: each arc's `height` is
    set to its level and the floors are raised. It stops where `max()`
    would raise, at the first arc that spans no gap.
  */
  method PlaceArcs(gapCount: nat, sorted: seq<Dep>) returns (heights: seq<int>, ok: bool)
    requires forall i :: 0 <= i < |sorted| ==> sorted[i].tok1.pos <= sorted[i].tok2.pos <= gapCount
    requires Distinct(sorted)
    modifies set i | 0 <= i < |sorted| :: sorted[i]
    ensures ok <==> forall i :: 0 <= i < |sorted| ==> sorted[i].tok1.pos < sorted[i].tok2.pos
    ensures ok ==> SpansWithin(SpansOf(sorted), gapCount)
    ensures ok ==> heights == Floors(gapCount, SpansOf(sorted), |sorted|)
    ensures ok ==> forall i :: 0 <= i < |sorted| ==> sorted[i].height == Levels(gapCount, SpansOf(sorted))[i]
  {
    heights := seq(gapCount, g => 0);
    ghost var spans := SpansOf(sorted);
    assert heights == Floors(gapCount, spans, 0);
    var i := 0;
    while i < |sorted|
      invariant 0 <= i <= |sorted|
      invariant PrefixWithin(spans, i, gapCount)
      invariant heights == Floors(gapCount, spans, i)
      invariant forall j :: 0 <= j < i ==> sorted[j].height == Level(gapCount, spans, j)
    {
      var dep := sorted[i];
      if dep.tok1.pos == dep.tok2.pos {
        // `max()` of an empty range raises
        return heights, false;
      }
      assert spans[i] == Span(dep.tok1.pos, dep.tok2.pos);
      var maxH := MaxRange(heights, dep.tok1.pos, dep.tok2.pos);
      assert PrefixWithin(spans, i + 1, gapCount);
      MaxRangeOfFloors(gapCount, spans, i, dep.tok1.pos, dep.tok2.pos);
      FloorsRaise(gapCount, spans, i);
      forall j | 0 <= j < i ensures sorted[j] != dep {
        DistinctAt(sorted, j, i);
      }
      dep.height := maxH + 1;
      heights := RaiseGaps(heights, dep.tok1.pos, dep.tok2.pos, maxH + 1);
      i := i + 1;
    }
    return heights, true;
  }

  /**
    `depHeights`: sorts `deps` by `depCMP`, writes each arc's `height` and
    returns the highest level. An arc that spans no gap makes `max()` fail,
    and so does the final `max()` when there are fewer than two tokens.
  */
  method DepHeights(tokenCount: nat, deps: seq<Dep>) returns (sorted: seq<Dep>, r: Result<int, DgError>)
    requires forall i :: 0 <= i < |deps| ==> deps[i].tok1.pos <= deps[i].tok2.pos < tokenCount
    requires forall i, j :: 0 <= i < j < |deps| ==> deps[i] != deps[j]
    modifies set i | 0 <= i < |deps| :: deps[i]
    ensures sorted == SortBy(deps, SpanKey)
    ensures r.Success? <==>
      tokenCount >= 2 && forall i :: 0 <= i < |deps| ==> deps[i].tok1.pos < deps[i].tok2.pos
    ensures r.Failure? ==> r.error == EmptyMaximum
    ensures r.Success? ==>
      SpansWithin(SpansOf(sorted), tokenCount - 1) &&
      (forall i :: 0 <= i < |sorted| ==> sorted[i].height == Levels(tokenCount - 1, SpansOf(sorted))[i]) &&
      r.value == MaxOf(Floors(tokenCount - 1, SpansOf(sorted), |sorted|))
  {
    var gapCount := if tokenCount == 0 then 0 else tokenCount - 1;
    sorted := SortBy(deps, SpanKey);
    SortByPerm(deps, SpanKey);
    assert forall i :: 0 <= i < |sorted| ==> exists k :: 0 <= k < |deps| && deps[k] == sorted[i] by {
      forall i | 0 <= i < |sorted| ensures exists k :: 0 <= k < |deps| && deps[k] == sorted[i] {
        assert sorted[i] in multiset(deps);
      }
    }
    assert Distinct(sorted) by {
      PermPairwise(deps, sorted, (a: Dep, b: Dep) => a != b);
      DistinctOfPairwise(sorted);
    }
    assert forall i :: 0 <= i < |sorted| ==> sorted[i].tok1.pos <= sorted[i].tok2.pos <= gapCount;
    var heights, ok := PlaceArcs(gapCount, sorted);
    assert ok <==> forall k :: 0 <= k < |deps| ==> deps[k].tok1.pos < deps[k].tok2.pos by {
      forall k | 0 <= k < |deps| ensures exists j :: 0 <= j < |sorted| && sorted[j] == deps[k] {
        assert deps[k] in multiset(sorted);
      }
    }
    if !ok || |heights| == 0 {
      return sorted, Failure(EmptyMaximum);
    }
    return sorted, Success(MaxOf(heights));
  }

  // ------------------------------------------------------------ examples

  /** Two neighbouring arcs that share only a token both sit on level one. */
  lemma ChainOnOneLevel()
    ensures Levels(2, [Span(0, 1), Span(1, 2)]) == [1, 1]
  {
    var s := [Span(0, 1), Span(1, 2)];
    assert Level(2, s, 0) == 1;
    assert Floor(2, s, 1, 1) == 0;
  }

  /** An arc over two short ones goes one level above them. */
  lemma SubsumingArcOneLevelUp()
    ensures Levels(2, [Span(0, 1), Span(1, 2), Span(0, 2)]) == [1, 1, 2]
  {
    var s := [Span(0, 1), Span(1, 2), Span(0, 2)];
    assert Level(2, s, 0) == 1;
    assert Floor(2, s, 1, 1) == 0;
    assert Level(2, s, 1) == 1;
    assert Floor(2, s, 2, 0) == 1 && Floor(2, s, 2, 1) == 1;
  }
}

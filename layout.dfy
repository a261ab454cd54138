/**
  Horizontal placement of the tokens (`simpleTokenLayout`, `nudgeTokens`,
  `improveTokenLayout`). Tokens are first packed left to right; then, one
  arc level at a time, every arc whose label does not fit between its end
  tokens pushes its target token, and with it every token after it, far
  enough to the right.
*/
module HorizontalLayout {
  import opened Sorting
  import opened DepGraph

  // ------------------------------------------------------------ heap views

  /** Token `i` of the sentence has position `i`. */
  predicate Indexed(tokens: seq<Token>) {
    forall i :: 0 <= i < |tokens| ==> tokens[i].pos == i
  }

  /** Every arc runs forwards between tokens of the sentence. */
  predicate Attached(deps: seq<Dep>, tokens: seq<Token>) {
    forall d :: d in deps ==>
      d.tok1.pos <= d.tok2.pos < |tokens| && tokens[d.tok1.pos] == d.tok1 && tokens[d.tok2.pos] == d.tok2
  }

  /** Every arc runs forwards between the first `n` tokens. */
  predicate Within(deps: seq<Dep>, n: nat) {
    forall d :: d in deps ==> d.tok1.pos <= d.tok2.pos < n
  }

  function Xs(tokens: seq<Token>): (xs: seq<real>)
    reads set i | 0 <= i < |tokens| :: tokens[i]
    ensures |xs| == |tokens| && forall i :: 0 <= i < |tokens| ==> xs[i] == tokens[i].x
  {
    if tokens == [] then [] else [tokens[0].x] + Xs(tokens[1..])
  }

  function Ys(tokens: seq<Token>): (ys: seq<int>)
    reads set i | 0 <= i < |tokens| :: tokens[i]
    ensures |ys| == |tokens| && forall i :: 0 <= i < |tokens| ==> ys[i] == tokens[i].y
  {
    if tokens == [] then [] else [tokens[0].y] + Ys(tokens[1..])
  }

  function Widths(tokens: seq<Token>): (ws: seq<real>)
    ensures |ws| == |tokens| && forall i :: 0 <= i < |tokens| ==> ws[i] == tokens[i].Width()
  {
    seq(|tokens|, i requires 0 <= i < |tokens| => tokens[i].Width())
  }

  // ------------------------------------------------------------ initial layout

  /** The centre of token `i` when tokens are packed `TokenSpace` apart. */
  function InitialX(ws: seq<real>, i: nat): real
    requires i < |ws|
  {
    if i == 0 then Half(ws[0])
    else InitialX(ws, i - 1) + Half(ws[i - 1]) + TokenSpace as real + Half(ws[i])
  }

  function InitialXs(ws: seq<real>): (xs: seq<real>)
    ensures |xs| == |ws|
  {
    seq(|ws|, i requires 0 <= i < |ws| => InitialX(ws, i))
  }

  /**
    Token centres in order, with at least `TokenSpace` between the
    (rounded-down) half widths of any two tokens.
  */
  predicate Separated(xs: seq<real>, ws: seq<real>)
    requires |xs| == |ws|
  {
    forall i, j :: 0 <= i < j < |xs| ==> Apart(xs, ws, i, j)
  }

  /** Tokens `i` and `j` are at least `TokenSpace` apart. */
  predicate Apart(xs: seq<real>, ws: seq<real>, i: nat, j: nat)
    requires i < |xs| && j < |xs| && |xs| == |ws|
  {
    xs[j] - xs[i] >= Half(ws[i]) + TokenSpace as real + Half(ws[j])
  }

  lemma {:induction false} InitialSpacing(ws: seq<real>, i: nat, j: nat)
    requires i < j < |ws| && forall k :: 0 <= k < |ws| ==> ws[k] >= 0.0
    ensures InitialX(ws, j) - InitialX(ws, i) >= Half(ws[i]) + TokenSpace as real + Half(ws[j])
    decreases j - i
  {
    if i + 1 < j {
      InitialSpacing(ws, i, j - 1);
    }
  }

  /** The packed layout starts at the first half width and keeps tokens apart. */
  lemma InitialSeparated(ws: seq<real>)
    requires forall k :: 0 <= k < |ws| ==> ws[k] >= 0.0
    ensures ws != [] ==> InitialXs(ws)[0] == Half(ws[0])
    ensures Separated(InitialXs(ws), ws)
  {
    forall i, j | 0 <= i < j < |ws| ensures Apart(InitialXs(ws), ws, i, j) {
      InitialSpacing(ws, i, j);
    }
  }

  /** `simpleTokenLayout`: packs the tokens left to right on the baseline `baseY`. */
  method SimpleTokenLayout(tokens: seq<Token>, deps: seq<Dep>, baseY: int)
    requires |tokens| >= 1 && Indexed(tokens)
    modifies set i | 0 <= i < |tokens| :: tokens[i]
    ensures Xs(tokens) == InitialXs(Widths(tokens))
    ensures forall i :: 0 <= i < |tokens| ==> tokens[i].y == baseY
    ensures Keyed(deps) == old(Keyed(deps))
  {
    var widths := Widths(tokens);
    ghost var xs := InitialXs(widths);
    tokens[0].x := Half(widths[0]);
    tokens[0].y := baseY;
    var idx := 1;
    while idx < |tokens|
      invariant 1 <= idx <= |tokens|
      invariant forall j :: 0 <= j < idx ==> tokens[j].x == xs[j] && tokens[j].y == baseY
    {
      var tok := tokens[idx];
      DistinctIndexed(tokens, idx);
      var x := tokens[idx - 1].x + Half(widths[idx - 1]) + TokenSpace as real + Half(widths[idx]);
      InitialXNext(widths, idx);
      tok.x, tok.y := x, baseY;
      idx := idx + 1;
    }
    XsPointwise(tokens, xs);
  }

  /** Each packed centre follows from the one before it. */
  lemma InitialXNext(ws: seq<real>, i: nat)
    requires 1 <= i < |ws|
    ensures InitialXs(ws)[i] == InitialXs(ws)[i - 1] + Half(ws[i - 1]) + TokenSpace as real + Half(ws[i])
  {
  }

  /** Tokens at different positions are different objects. */
  lemma DistinctIndexed(tokens: seq<Token>, idx: nat)
    requires idx < |tokens| && Indexed(tokens)
    ensures forall j :: 0 <= j < idx ==> tokens[j] != tokens[idx]
  {
  }

  lemma XsPointwise(tokens: seq<Token>, xs: seq<real>)
    requires |xs| == |tokens| && forall j :: 0 <= j < |tokens| ==> tokens[j].x == xs[j]
    ensures Xs(tokens) == xs
  {
  }

  // ------------------------------------------------------------ one level

  /** The label of `d` fits between its end tokens at the centres `xs`. */
  predicate Fits(xs: seq<real>, d: Dep) {
    d.tok1.pos < |xs| && d.tok2.pos < |xs| && xs[d.tok2.pos] - xs[d.tok1.pos] >= d.MinWidth()
  }

  /** `nudgeTokens` sorts its arcs by source position. */
  function FromKey(d: Dep): Key {
    (d.tok1.pos, 0)
  }

  /**
    The `nudge` list after the first `k` arcs of `ds`, in order: the
    shortfall of the last of them into each token that does not fit there,
    zero elsewhere.
  */
  function Deficits(xs: seq<real>, ds: seq<Dep>, k: nat): (v: seq<real>)
    requires Within(ds, |xs|) && k <= |ds|
    ensures |v| == |xs|
  {
    if k == 0 then seq(|xs|, g => 0.0)
    else
      var v := Deficits(xs, ds, k - 1);
      var d := ds[k - 1];
      var gap := xs[d.tok2.pos] - xs[d.tok1.pos];
      if d.MinWidth() > gap then v[d.tok2.pos := d.MinWidth() - gap] else v
  }

  /** Nudges are never negative. */
  lemma {:induction false} DeficitsNonneg(xs: seq<real>, ds: seq<Dep>, k: nat)
    requires Within(ds, |xs|) && k <= |ds|
    ensures forall g :: 0 <= g < |xs| ==> Deficits(xs, ds, k)[g] >= 0.0
  {
    if k > 0 {
      DeficitsNonneg(xs, ds, k - 1);
    }
  }

  /** `cumulative` after the first `k` entries of `v`. */
  function PrefixSum(v: seq<real>, k: nat): real
    requires k <= |v|
  {
    if k == 0 then 0.0 else PrefixSum(v, k - 1) + v[k - 1]
  }

  /** Every token moves right by the nudges up to and including its own. */
  function Shifted(xs: seq<real>, v: seq<real>): (r: seq<real>)
    requires |v| == |xs|
    ensures |r| == |xs|
  {
    seq(|xs|, i requires 0 <= i < |xs| => xs[i] + PrefixSum(v, i + 1))
  }

  /** The token centres after `nudgeTokens` over the arcs `ds`, already sorted. */
  function Nudged(xs: seq<real>, ds: seq<Dep>): (r: seq<real>)
    requires Within(ds, |xs|)
    ensures |r| == |xs|
  {
    Shifted(xs, Deficits(xs, ds, |ds|))
  }

  lemma {:induction false} PrefixSumGrows(v: seq<real>, k: nat, l: nat)
    requires k <= l <= |v| && forall g :: 0 <= g < |v| ==> v[g] >= 0.0
    ensures PrefixSum(v, k) <= PrefixSum(v, l)
    ensures k < l ==> PrefixSum(v, l) - PrefixSum(v, k) >= v[l - 1]
    decreases l - k
  {
    if k < l {
      PrefixSumGrows(v, k, l - 1);
    }
  }

  /** A nudge only moves tokens right and never brings two tokens closer. */
  lemma NudgeWidens(xs: seq<real>, ds: seq<Dep>)
    requires Within(ds, |xs|)
    ensures forall i :: 0 <= i < |xs| ==> Nudged(xs, ds)[i] >= xs[i]
    ensures forall i, j :: 0 <= i <= j < |xs| ==> Nudged(xs, ds)[j] - Nudged(xs, ds)[i] >= xs[j] - xs[i]
  {
    var v := Deficits(xs, ds, |ds|);
    DeficitsNonneg(xs, ds, |ds|);
    forall i | 0 <= i < |xs| ensures Nudged(xs, ds)[i] >= xs[i] {
      PrefixSumGrows(v, 0, i + 1);
    }
    forall i, j | 0 <= i <= j < |xs| ensures Nudged(xs, ds)[j] - Nudged(xs, ds)[i] >= xs[j] - xs[i] {
      PrefixSumGrows(v, i + 1, j + 1);
    }
  }

  /** An arc that already fits still fits after a nudge. */
  lemma FitsPreserved(xs: seq<real>, ds: seq<Dep>, d: Dep)
    requires Within(ds, |xs|) && Fits(xs, d) && d.tok1.pos <= d.tok2.pos
    ensures Fits(Nudged(xs, ds), d)
  {
    NudgeWidens(xs, ds);
  }

  /** Nudging keeps tokens separated. */
  lemma NudgeSeparated(xs: seq<real>, ws: seq<real>, ds: seq<Dep>)
    requires |xs| == |ws| && Within(ds, |xs|) && Separated(xs, ws)
    ensures Separated(Nudged(xs, ds), ws)
  {
    NudgeWidens(xs, ds);
    forall i, j | 0 <= i < j < |xs| ensures Apart(Nudged(xs, ds), ws, i, j) {
      assert Apart(xs, ws, i, j);
    }
  }

  /**
    When arc `i` does not fit and no later arc into the same token lacks
    room, `nudge` for that token is exactly the shortfall of arc `i`.
  */
  lemma {:induction false} DeficitWritten(xs: seq<real>, ds: seq<Dep>, i: nat, m: nat)
    requires Within(ds, |xs|) && i < m <= |ds| && !Fits(xs, ds[i])
    requires forall j :: i < j < m && ds[j].tok2.pos == ds[i].tok2.pos ==> Fits(xs, ds[j])
    ensures Deficits(xs, ds, m)[ds[i].tok2.pos]
         == ds[i].MinWidth() - (xs[ds[i].tok2.pos] - xs[ds[i].tok1.pos])
  {
    if i < m - 1 {
      DeficitWritten(xs, ds, i, m - 1);
    }
  }

  /** Among the arcs `ds` into any one token, at most one lacks room at the centres `xs`. */
  predicate OneUnfitPerTarget(xs: seq<real>, ds: seq<Dep>) {
    forall i, j :: 0 <= i < |ds| && 0 <= j < |ds| && i != j && ds[i].tok2.pos == ds[j].tok2.pos ==>
      Fits(xs, ds[i]) || Fits(xs, ds[j])
  }

  /**
    One level fits after `nudgeTokens` as soon as, among the arcs into any
    one token, at most one lacks room beforehand.
  */
  lemma NudgeFit(xs: seq<real>, ds: seq<Dep>)
    requires Within(ds, |xs|)
    requires forall d :: d in ds ==> d.tok1.pos < d.tok2.pos
    requires OneUnfitPerTarget(xs, ds)
    ensures forall d :: d in ds ==> Fits(Nudged(xs, ds), d)
  {
    var v := Deficits(xs, ds, |ds|);
    var r := Nudged(xs, ds);
    DeficitsNonneg(xs, ds, |ds|);
    forall d | d in ds ensures Fits(r, d) {
      if Fits(xs, d) {
        FitsPreserved(xs, ds, d);
      } else {
        var i :| 0 <= i < |ds| && ds[i] == d;
        DeficitWritten(xs, ds, i, |ds|);
        PrefixSumGrows(v, d.tok1.pos + 1, d.tok2.pos + 1);
      }
    }
  }

  /** The first loop of `nudgeTokens`: the `nudge` list for the arcs `sorted`, in order. */
  method ComputeNudge(tokens: seq<Token>, sorted: seq<Dep>) returns (nudge: seq<real>)
    requires Indexed(tokens) && Attached(sorted, tokens)
    ensures Within(sorted, |tokens|) && nudge == Deficits(Xs(tokens), sorted, |sorted|)
  {
    ghost var xs := Xs(tokens);
    nudge := seq(|tokens|, g => 0.0);
    var k := 0;
    while k < |sorted|
      invariant 0 <= k <= |sorted|
      invariant nudge == Deficits(xs, sorted, k)
    {
      var d := sorted[k];
      var currentDX := d.tok2.x - d.tok1.x;
      var minW := d.MinWidth();
      assert currentDX == xs[d.tok2.pos] - xs[d.tok1.pos] by {
        assert d in sorted;
      }
      if minW > currentDX {
        nudge := nudge[d.tok2.pos := minW - currentDX];
      }
      k := k + 1;
    }
  }

  /** The second loop of `nudgeTokens`: moves each token by the running total of `nudge`. */
  method ApplyNudge(tokens: seq<Token>, nudge: seq<real>)
    requires Indexed(tokens) && |nudge| == |tokens|
    modifies set i | 0 <= i < |tokens| :: tokens[i]
    ensures Xs(tokens) == Shifted(old(Xs(tokens)), nudge)
    ensures Ys(tokens) == old(Ys(tokens))
  {
    ghost var xs := Xs(tokens);
    ghost var ys := Ys(tokens);
    ghost var target := Shifted(xs, nudge);
    var cumulative := 0.0;
    var idx := 0;
    while idx < |nudge|
      invariant 0 <= idx <= |nudge| == |tokens|
      invariant cumulative == PrefixSum(nudge, idx)
      invariant forall j :: 0 <= j < |tokens| ==> tokens[j].x == if j < idx then target[j] else xs[j]
      invariant forall j :: 0 <= j < |tokens| ==> tokens[j].y == ys[j]
    {
      var tok := tokens[idx];
      assert forall j :: 0 <= j < |tokens| && j != idx ==> tokens[j] != tok by {
        assert forall j :: 0 <= j < |tokens| ==> tokens[j].pos == j;
      }
      cumulative := cumulative + nudge[idx];
      assert xs[idx] + cumulative == target[idx];
      tok.x := tok.x + cumulative;
      idx := idx + 1;
    }
    assert Xs(tokens) == target;
    assert Ys(tokens) == ys;
  }

  /** `nudgeTokens`: pushes tokens right until every arc of one level fits where it can. */
  method NudgeTokens(tokens: seq<Token>, deps: seq<Dep>)
    requires Indexed(tokens) && Attached(deps, tokens)
    modifies set i | 0 <= i < |tokens| :: tokens[i]
    ensures Within(SortBy(deps, FromKey), |tokens|)
    ensures Xs(tokens) == Nudged(old(Xs(tokens)), SortBy(deps, FromKey))
    ensures Ys(tokens) == old(Ys(tokens))
  {
    var sorted := SortBy(deps, FromKey);
    SortedWithin(deps, |tokens|);
    SortByMembers(deps, FromKey);
    AttachedSubset(sorted, deps, tokens);
    var nudge := ComputeNudge(tokens, sorted);
    ApplyNudge(tokens, nudge);
  }

  // ------------------------------------------------------------ level by level

  /** The breaks found by the scan over `hs[0..m)`: each index after which the height changes. */
  function InnerBreaks(hs: seq<int>, m: nat): (b: seq<int>)
    requires m <= |hs|
  {
    if m <= 1 then []
    else InnerBreaks(hs, m - 1) + (if hs[m - 1] != hs[m - 2] then [m - 2] else [])
  }

  /** `breaks`: the ends of the height groups of a list sorted by height. */
  function Breaks(hs: seq<int>): (b: seq<int>)
    ensures |b| >= 2
  {
    [0] + InnerBreaks(hs, |hs|) + [|hs| - 1]
  }

  /** Slice `k` runs from `b[k-1]` to `b[k]` inclusive and stays within `n`. */
  predicate SlicesOk(b: seq<int>, n: nat) {
    |b| >= 1 && forall k :: 1 <= k < |b| ==> SliceOk(b, k, n)
  }

  predicate SliceOk(b: seq<int>, k: nat, n: nat)
    requires 1 <= k < |b|
  {
    0 <= b[k - 1] <= b[k] + 1 <= n
  }

  /** The height does not change between indices `lo` and `hi`. */
  predicate NoChange(hs: seq<int>, lo: int, hi: int) {
    forall x :: lo <= x < hi && 0 <= x && x + 1 < |hs| ==> hs[x] == hs[x + 1]
  }

  /** `dependencies[breaks[k-1]:breaks[k]+1]`. */
  function Slice(ds: seq<Dep>, b: seq<int>, k: nat): (r: seq<Dep>)
    requires SlicesOk(b, |ds|) && 1 <= k < |b|
    ensures forall d :: d in r ==> d in ds
    ensures SliceOk(b, k, |ds|) && |r| == b[k] + 1 - b[k - 1]
    ensures forall i :: 0 <= i < |r| ==> r[i] == ds[b[k - 1] + i]
  {
    assert SliceOk(b, k, |ds|);
    ds[b[k - 1]..b[k] + 1]
  }

  /** An arc list sorted by `nudgeTokens` keeps the arcs, so it stays within the sentence. */
  lemma SortedWithin(ds: seq<Dep>, n: nat)
    requires Within(ds, n)
    ensures Within(SortBy(ds, FromKey), n)
    ensures forall d :: d in SortBy(ds, FromKey) <==> d in ds
  {
    var sorted := SortBy(ds, FromKey);
    SortByPerm(ds, FromKey);
    forall d | d in sorted ensures d in ds {
      assert d in multiset(sorted);
    }
    forall d | d in ds ensures d in sorted {
      assert d in multiset(ds);
    }
  }

  /**
    The slices of `ds` between the breaks `b`, each in the order
    `nudgeTokens` sorts it: group `k` is slice `k + 1` by source position.
  */
  function Groups(ds: seq<Dep>, b: seq<int>): (gs: seq<seq<Dep>>)
    requires SlicesOk(b, |ds|)
    ensures |gs| == |b| - 1
  {
    seq(|b| - 1, k requires 0 <= k < |b| - 1 => SortBy(Slice(ds, b, k + 1), FromKey))
  }

  /** Every group runs forwards between the first `n` tokens. */
  predicate GroupsWithin(gs: seq<seq<Dep>>, n: nat) {
    forall k :: 0 <= k < |gs| ==> Within(gs[k], n)
  }

  lemma GroupsOfWithin(ds: seq<Dep>, b: seq<int>, n: nat)
    requires Within(ds, n) && SlicesOk(b, |ds|)
    ensures GroupsWithin(Groups(ds, b), n)
  {
    forall k | 0 <= k < |b| - 1 ensures Within(Groups(ds, b)[k], n) {
      SortedWithin(Slice(ds, b, k + 1), n);
    }
  }

  /** The token centres once the first `c` groups have been nudged, in turn. */
  function Sweep(xs: seq<real>, gs: seq<seq<Dep>>, c: nat): (r: seq<real>)
    requires GroupsWithin(gs, |xs|) && c <= |gs|
    ensures |r| == |xs|
  {
    if c == 0 then xs else Nudged(Sweep(xs, gs, c - 1), gs[c - 1])
  }

  /** The token centres after `improveTokenLayout` over arcs `ds` sorted by their heights `hs`. */
  function Improved(xs: seq<real>, ds: seq<Dep>, hs: seq<int>): (r: seq<real>)
    requires Within(ds, |xs|) && |hs| == |ds|
    ensures |r| == |xs|
  {
    BreaksShape(hs);
    GroupsOfWithin(ds, Breaks(hs), |xs|);
    Sweep(xs, Groups(ds, Breaks(hs)), |Breaks(hs)| - 1)
  }

  lemma {:induction false} InnerBreaksShape(hs: seq<int>, m: nat)
    requires m <= |hs|
    ensures forall a, c :: 0 <= a < c < |InnerBreaks(hs, m)| ==> InnerBreaks(hs, m)[a] < InnerBreaks(hs, m)[c]
    ensures forall a :: 0 <= a < |InnerBreaks(hs, m)| ==> 0 <= InnerBreaks(hs, m)[a] <= m - 2
    ensures forall x :: 0 <= x <= m - 2 && hs[x] != hs[x + 1] ==> x in InnerBreaks(hs, m)
  {
    if m > 1 {
      InnerBreaksShape(hs, m - 1);
    }
  }

  /** An increasing sequence has no element strictly between two neighbours. */
  lemma NotBetween(s: seq<int>, p: int, x: int)
    requires forall a, c :: 0 <= a < c < |s| ==> s[a] < s[c]
    requires -1 <= p < |s|
    requires (p == -1 || s[p] < x) && (p + 1 == |s| || x < s[p + 1])
    ensures x !in s
  {
    forall q | 0 <= q < |s| ensures s[q] != x {
      if q <= p { assert s[q] <= s[p]; } else { assert s[p + 1] <= s[q]; }
    }
  }

  /**
    The slices cover the list in order, and within each the height does not
    change after its first element (for the first slice, not at all).
  */
  lemma BreaksShape(hs: seq<int>)
    ensures Breaks(hs)[0] == 0 && Breaks(hs)[|Breaks(hs)| - 1] == |hs| - 1
    ensures SlicesOk(Breaks(hs), |hs|)
    ensures NoChange(hs, 0, Breaks(hs)[1])
    ensures forall k :: 1 <= k < |Breaks(hs)| ==> NoChange(hs, Breaks(hs)[k - 1] + 1, Breaks(hs)[k])
  {
    var n := |hs|;
    var inner := InnerBreaks(hs, n);
    var b := Breaks(hs);
    InnerBreaksShape(hs, n);
    assert b[1..] == inner + [n - 1];
    if n == 0 {
      assert b == [0, -1];
    } else {
      forall k | 1 <= k < |b| ensures SliceOk(b, k, n) {
        if k >= 2 { assert b[k - 1] == inner[k - 2]; }
        if k < |b| - 1 { assert b[k] == inner[k - 1]; }
      }
      forall x | 0 <= x < b[1] ensures hs[x] == hs[x + 1] {
        if inner != [] { assert b[1] == inner[0]; }
        NotBetween(inner, -1, x);
      }
      forall k, x | 1 <= k < |b| && b[k - 1] + 1 <= x < b[k] && 0 <= x ensures hs[x] == hs[x + 1] {
        if k >= 2 {
          assert b[k - 1] == inner[k - 2];
          if k < |b| - 1 { assert b[k] == inner[k - 1]; }
          NotBetween(inner, k - 2, x);
        } else {
          if inner != [] { assert b[1] == inner[0]; }
          NotBetween(inner, -1, x);
        }
      }
    }
  }

  /** Heights are equal throughout a stretch with no change. */
  lemma {:induction false} NoChangeEqual(hs: seq<int>, lo: nat, hi: nat, a: nat)
    requires hi <= |hs| - 1 && lo <= a <= hi && NoChange(hs, lo, hi)
    ensures hs[a] == hs[lo]
    decreases a - lo
  {
    if a > lo {
      NoChangeEqual(hs, lo, hi, a - 1);
    }
  }

  /** Arcs of one height never end at the same token (two arcs on one level are disjoint). */
  predicate LevelTargetsDistinct(ds: seq<Dep>, hs: seq<int>)
    requires |hs| == |ds|
  {
    forall i, j :: 0 <= i < |ds| && 0 <= j < |ds| && i != j && hs[i] == hs[j] ==> ds[i].tok2.pos != ds[j].tok2.pos
  }

  /** Two arcs in a stretch of equal heights end at different tokens. */
  lemma RunTargetsDistinct(ds: seq<Dep>, hs: seq<int>, lo: nat, hi: nat, a: nat, a': nat)
    requires |hs| == |ds| && LevelTargetsDistinct(ds, hs)
    requires hi < |ds| && lo <= a <= hi && lo <= a' <= hi && a != a' && NoChange(hs, lo, hi)
    ensures ds[a].tok2.pos != ds[a'].tok2.pos
  {
    NoChangeEqual(hs, lo, hi, a);
    NoChangeEqual(hs, lo, hi, a');
  }

  /**
    Within slice `c`, at most one arc into any one token lacks room: all
    but the first arc share one height, and the first one (from the level
    below, for every slice but the first) already fits.
  */
  lemma SliceOneUnfit(ys: seq<real>, ds: seq<Dep>, hs: seq<int>, b: seq<int>, c: nat)
    requires Within(ds, |ys|) && |hs| == |ds| && LevelTargetsDistinct(ds, hs)
    requires SlicesOk(b, |ds|) && 1 <= c < |b|
    requires c == 1 ==> NoChange(hs, b[0], b[1])
    requires c >= 2 ==> NoChange(hs, b[c - 1] + 1, b[c]) && 0 <= b[c - 1] < |ds| && Fits(ys, ds[b[c - 1]])
    ensures OneUnfitPerTarget(ys, Slice(ds, b, c))
  {
    var slice := Slice(ds, b, c);
    assert SliceOk(b, c, |ds|);
    var lo, hi := b[c - 1], b[c];
    forall i, j | 0 <= i < |slice| && 0 <= j < |slice| && i != j && slice[i].tok2.pos == slice[j].tok2.pos
      ensures Fits(ys, slice[i]) || Fits(ys, slice[j])
    {
      assert slice[i] == ds[lo + i] && slice[j] == ds[lo + j];
      if c >= 2 && (i == 0 || j == 0) {
      } else if c == 1 {
        RunTargetsDistinct(ds, hs, lo, hi, lo + i, lo + j);
      } else {
        RunTargetsDistinct(ds, hs, lo + 1, hi, lo + i, lo + j);
      }
    }
  }

  /** Nudging a slice with at most one unfit arc per token makes the whole slice fit and keeps fitting arcs fitting. */
  lemma NudgeSliceFits(ys: seq<real>, ds: seq<Dep>, b: seq<int>, c: nat)
    requires Within(ds, |ys|) && SlicesOk(b, |ds|) && 1 <= c < |b|
    requires forall d :: d in ds ==> d.tok1.pos < d.tok2.pos
    requires OneUnfitPerTarget(ys, Slice(ds, b, c))
    ensures Within(Groups(ds, b)[c - 1], |ys|)
    ensures forall i :: b[c - 1] <= i <= b[c] && 0 <= i < |ds| ==> Fits(Nudged(ys, Groups(ds, b)[c - 1]), ds[i])
    ensures forall i :: 0 <= i < |ds| && Fits(ys, ds[i]) ==> Fits(Nudged(ys, Groups(ds, b)[c - 1]), ds[i])
  {
    var slice := Slice(ds, b, c);
    var sorted := SortBy<Dep>(slice, FromKey);
    assert Groups(ds, b)[c - 1] == sorted;
    SortedWithin(slice, |ys|);
    SortByPerm(slice, FromKey);
    SortByMembers(slice, FromKey);
    PermPairwise<Dep>(slice, sorted, (p: Dep, q: Dep) => p.tok2.pos == q.tok2.pos ==> Fits(ys, p) || Fits(ys, q));
    assert forall d :: d in sorted ==> d.tok1.pos < d.tok2.pos by {
      forall d | d in sorted ensures d.tok1.pos < d.tok2.pos {
        assert d in slice;
      }
    }
    NudgeFit(ys, sorted);
    forall i | b[c - 1] <= i <= b[c] && 0 <= i < |ds| ensures Fits(Nudged(ys, sorted), ds[i]) {
      assert ds[i] == slice[i - b[c - 1]];
    }
    forall i | 0 <= i < |ds| && Fits(ys, ds[i]) ensures Fits(Nudged(ys, sorted), ds[i]) {
      FitsPreserved(ys, sorted, ds[i]);
    }
  }

  /**
    After `improveTokenLayout`, the label of every arc fits between its end
    tokens, provided the arcs of one height end at distinct tokens.
  */
  lemma ImproveFit(xs: seq<real>, ds: seq<Dep>, hs: seq<int>)
    requires Within(ds, |xs|) && |hs| == |ds|
    requires forall d :: d in ds ==> d.tok1.pos < d.tok2.pos
    requires LevelTargetsDistinct(ds, hs)
    ensures forall d :: d in ds ==> Fits(Improved(xs, ds, hs), d)
  {
    var b := Breaks(hs);
    BreaksShape(hs);
    if |ds| >= 1 {
      var gs := Groups(ds, b);
      GroupsOfWithin(ds, b, |xs|);
      var c := 1;
      SliceOneUnfit(xs, ds, hs, b, 1);
      NudgeSliceFits(xs, ds, b, 1);
      while c < |b| - 1
        invariant 1 <= c < |b|
        invariant forall i :: 0 <= i <= b[c] && i < |ds| ==> Fits(Sweep(xs, gs, c), ds[i])
      {
        var ys := Sweep(xs, gs, c);
        assert SliceOk(b, c, |ds|) && SliceOk(b, c + 1, |ds|);
        SliceOneUnfit(ys, ds, hs, b, c + 1);
        NudgeSliceFits(ys, ds, b, c + 1);
        c := c + 1;
      }
      forall d | d in ds ensures Fits(Improved(xs, ds, hs), d) {
        var i :| 0 <= i < |ds| && ds[i] == d;
      }
    }
  }

  /** Nudging group after group keeps tokens separated. */
  lemma {:induction false} SweepSeparated(xs: seq<real>, ws: seq<real>, gs: seq<seq<Dep>>, c: nat)
    requires |xs| == |ws| && GroupsWithin(gs, |xs|) && c <= |gs| && Separated(xs, ws)
    ensures Separated(Sweep(xs, gs, c), ws)
  {
    if c > 0 {
      SweepSeparated(xs, ws, gs, c - 1);
      NudgeSeparated(Sweep(xs, gs, c - 1), ws, gs[c - 1]);
    }
  }

  lemma ImproveSeparated(xs: seq<real>, ws: seq<real>, ds: seq<Dep>, hs: seq<int>)
    requires |xs| == |ws| && Within(ds, |xs|) && |hs| == |ds| && Separated(xs, ws)
    ensures Separated(Improved(xs, ds, hs), ws)
  {
    BreaksShape(hs);
    GroupsOfWithin(ds, Breaks(hs), |xs|);
    SweepSeparated(xs, ws, Groups(ds, Breaks(hs)), |Breaks(hs)| - 1);
  }

  /** Nudging group after group moves no token left and shrinks no distance. */
  lemma {:induction false} SweepWidens(xs: seq<real>, gs: seq<seq<Dep>>, c: nat)
    requires GroupsWithin(gs, |xs|) && c <= |gs|
    ensures forall i :: 0 <= i < |xs| ==> Sweep(xs, gs, c)[i] >= xs[i]
    ensures forall i, j :: 0 <= i <= j < |xs| ==> Sweep(xs, gs, c)[j] - Sweep(xs, gs, c)[i] >= xs[j] - xs[i]
  {
    if c > 0 {
      SweepWidens(xs, gs, c - 1);
      NudgeWidens(Sweep(xs, gs, c - 1), gs[c - 1]);
    }
  }

  /** `improveTokenLayout` only moves tokens right, and never brings two closer. */
  lemma ImproveWidens(xs: seq<real>, ds: seq<Dep>, hs: seq<int>)
    requires Within(ds, |xs|) && |hs| == |ds|
    ensures forall i :: 0 <= i < |xs| ==> Improved(xs, ds, hs)[i] >= xs[i]
    ensures forall i, j :: 0 <= i <= j < |xs| ==> Improved(xs, ds, hs)[j] - Improved(xs, ds, hs)[i] >= xs[j] - xs[i]
  {
    BreaksShape(hs);
    GroupsOfWithin(ds, Breaks(hs), |xs|);
    SweepWidens(xs, Groups(ds, Breaks(hs)), |Breaks(hs)| - 1);
  }

  /** `improveTokenLayout` sorts by height alone, keeping arcs of one height in order. */
  function HeightKey(p: (int, Dep)): Key {
    (p.0, 0)
  }

  /** Each arc paired with its current height. */
  function Keyed(deps: seq<Dep>): (r: seq<(int, Dep)>)
    reads set i | 0 <= i < |deps| :: deps[i]
    ensures |r| == |deps| && forall i :: 0 <= i < |deps| ==> r[i] == (deps[i].height, deps[i])
  {
    if deps == [] then [] else [(deps[0].height, deps[0])] + Keyed(deps[1..])
  }

  function Heights(deps: seq<Dep>): (hs: seq<int>)
    reads set i | 0 <= i < |deps| :: deps[i]
    ensures |hs| == |deps| && forall i :: 0 <= i < |deps| ==> hs[i] == deps[i].height
  {
    if deps == [] then [] else [deps[0].height] + Heights(deps[1..])
  }

  /** The arcs of the pairs, in order. */
  function Unkeyed(pairs: seq<(int, Dep)>): (r: seq<Dep>)
    ensures |r| == |pairs| && forall i :: 0 <= i < |pairs| ==> r[i] == pairs[i].1
  {
    seq(|pairs|, i requires 0 <= i < |pairs| => pairs[i].1)
  }

  /**
    The sort at the start of `improveTokenLayout` orders the arcs stably by
    height: the order of the pairs sorted by `HeightKey`, same arcs.
  */
  lemma UnkeyedSorted(deps: seq<Dep>)
    ensures var pairs := SortBy(Keyed(deps), HeightKey); var sorted := Unkeyed(pairs);
      (forall i :: 0 <= i < |sorted| ==> sorted[i] in deps) &&
      (forall i :: 0 <= i < |deps| ==> deps[i] in sorted) &&
      Keyed(sorted) == pairs
  {
    var pairs := SortBy(Keyed(deps), HeightKey);
    var sorted := Unkeyed(pairs);
    SortByPerm(Keyed(deps), HeightKey);
    forall i | 0 <= i < |pairs| ensures pairs[i] == (sorted[i].height, sorted[i]) && sorted[i] in deps {
      assert pairs[i] in multiset(Keyed(deps));
      var k :| 0 <= k < |deps| && Keyed(deps)[k] == pairs[i];
    }
    assert Keyed(sorted) == pairs;
    forall i | 0 <= i < |deps| ensures deps[i] in sorted {
      assert Keyed(deps)[i] in multiset(pairs);
      var k :| 0 <= k < |pairs| && pairs[k] == Keyed(deps)[i];
      assert sorted[k] == deps[i];
    }
  }

  /** Nudging the next group extends the sweep by one step: group `k - 1` is slice `k`, as `nudgeTokens` sorts it. */
  lemma SweepStep(xs: seq<real>, ds: seq<Dep>, b: seq<int>, k: nat, before: seq<real>, after: seq<real>)
    requires SlicesOk(b, |ds|) && 1 <= k < |b| && GroupsWithin(Groups(ds, b), |xs|)
    requires before == Sweep(xs, Groups(ds, b), k - 1)
    requires Within(SortBy(Slice(ds, b, k), FromKey), |before|)
    requires after == Nudged(before, SortBy(Slice(ds, b, k), FromKey))
    ensures after == Sweep(xs, Groups(ds, b), k)
  {
    assert Groups(ds, b)[k - 1] == SortBy(Slice(ds, b, k), FromKey);
  }

  /** The scan in `improveTokenLayout` for the ends of the height groups. */
  method FindBreaks(sorted: seq<Dep>) returns (breaks: seq<int>)
    ensures breaks == Breaks(Heights(sorted))
  {
    ghost var hs := Heights(sorted);
    var inner := [];
    var idx := 1;
    while idx < |sorted|
      invariant 1 <= idx && (|sorted| >= 1 ==> idx <= |sorted|)
      invariant inner == InnerBreaks(hs, if |sorted| == 0 then 0 else idx)
    {
      if sorted[idx].height != sorted[idx - 1].height {
        inner := inner + [idx - 1];
      }
      idx := idx + 1;
    }
    breaks := [0] + inner + [|sorted| - 1];
  }

  /** One round of the loop of `improveTokenLayout`: `nudgeTokens` on group `k - 1`. */
  method NudgeGroup(tokens: seq<Token>, sorted: seq<Dep>, breaks: seq<int>, k: nat, ghost xs: seq<real>)
    requires Indexed(tokens) && Attached(sorted, tokens) && SlicesOk(breaks, |sorted|) && 1 <= k < |breaks|
    requires GroupsWithin(Groups(sorted, breaks), |xs|)
    requires Xs(tokens) == Sweep(xs, Groups(sorted, breaks), k - 1)
    modifies set i | 0 <= i < |tokens| :: tokens[i]
    ensures Xs(tokens) == Sweep(xs, Groups(sorted, breaks), k)
    ensures Ys(tokens) == old(Ys(tokens))
  {
    var slice := Slice(sorted, breaks, k);
    ghost var before := Xs(tokens);
    NudgeTokens(tokens, slice);
    SweepStep(xs, sorted, breaks, k, before, Xs(tokens));
  }

  /** The loop of `improveTokenLayout`: `nudgeTokens` on each group in turn. */
  method NudgeGroups(tokens: seq<Token>, sorted: seq<Dep>, breaks: seq<int>)
    requires Indexed(tokens) && Attached(sorted, tokens) && SlicesOk(breaks, |sorted|)
    requires GroupsWithin(Groups(sorted, breaks), |tokens|)
    modifies set i | 0 <= i < |tokens| :: tokens[i]
    ensures Xs(tokens) == Sweep(old(Xs(tokens)), Groups(sorted, breaks), |breaks| - 1)
    ensures Ys(tokens) == old(Ys(tokens))
  {
    ghost var xs := Xs(tokens);
    ghost var ys := Ys(tokens);
    var k := 1;
    while k < |breaks|
      invariant 1 <= k <= |breaks|
      invariant Xs(tokens) == Sweep(xs, Groups(sorted, breaks), k - 1)
      invariant Ys(tokens) == ys
    {
      NudgeGroup(tokens, sorted, breaks, k, xs);
      k := k + 1;
    }
  }

  /**
    The rest of `improveTokenLayout` once the arcs are sorted: the breaks
    between height groups, then `nudgeTokens` on each group in turn.
  */
  method SweepLevels(tokens: seq<Token>, sorted: seq<Dep>)
    requires Indexed(tokens) && Attached(sorted, tokens)
    modifies set i | 0 <= i < |tokens| :: tokens[i]
    ensures Within(sorted, |tokens|)
    ensures Xs(tokens) == Improved(old(Xs(tokens)), sorted, Heights(sorted))
    ensures Ys(tokens) == old(Ys(tokens))
    ensures Keyed(sorted) == old(Keyed(sorted))
  {
    ghost var xs := Xs(tokens);
    ghost var hs := Heights(sorted);
    ghost var keyed := Keyed(sorted);
    var breaks := FindBreaks(sorted);
    assert Within(sorted, |xs|);
    ImprovedIsSweep(xs, sorted, hs);
    NudgeGroups(tokens, sorted, breaks);
    assert forall i :: 0 <= i < |sorted| ==> sorted[i].height == hs[i];
    assert Heights(sorted) == hs;
    assert Keyed(sorted) == keyed;
  }

  /** The arcs of a sub-list of attached arcs are attached. */
  lemma AttachedSubset(sub: seq<Dep>, deps: seq<Dep>, tokens: seq<Token>)
    requires Attached(deps, tokens) && forall i :: 0 <= i < |sub| ==> sub[i] in deps
    ensures Attached(sub, tokens)
  {
    forall d | d in sub ensures d in deps {
      var i :| 0 <= i < |sub| && sub[i] == d;
    }
  }

  /** `Improved` is the sweep over all groups of the height breaks. */
  lemma ImprovedIsSweep(xs: seq<real>, ds: seq<Dep>, hs: seq<int>)
    requires Within(ds, |xs|) && |hs| == |ds|
    ensures SlicesOk(Breaks(hs), |ds|) && GroupsWithin(Groups(ds, Breaks(hs)), |xs|)
    ensures Improved(xs, ds, hs) == Sweep(xs, Groups(ds, Breaks(hs)), |Breaks(hs)| - 1)
  {
    BreaksShape(hs);
    GroupsOfWithin(ds, Breaks(hs), |xs|);
  }

  /**
    `improveTokenLayout`: sorts the arcs by height (returned, as the list is
    reordered in place) and nudges the tokens one height group at a time.
  */
  method ImproveTokenLayout(tokens: seq<Token>, deps: seq<Dep>) returns (sorted: seq<Dep>)
    requires Indexed(tokens) && Attached(deps, tokens)
    modifies set i | 0 <= i < |tokens| :: tokens[i]
    ensures forall i :: 0 <= i < |sorted| ==> sorted[i] in deps
    ensures forall i :: 0 <= i < |deps| ==> deps[i] in sorted
    ensures Keyed(sorted) == SortBy(old(Keyed(deps)), HeightKey)
    ensures Within(sorted, |tokens|)
    ensures Xs(tokens) == Improved(old(Xs(tokens)), sorted, Heights(sorted))
    ensures Ys(tokens) == old(Ys(tokens))
  {
    sorted := Unkeyed(SortBy(Keyed(deps), HeightKey));
    UnkeyedSorted(deps);
    AttachedSubset(sorted, deps, tokens);
    SweepLevels(tokens, sorted);
  }
}

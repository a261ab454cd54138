/**
  The top of the dependency-graph drawer: `layout`, which chains the level
  assigner and the horizontal layout and then computes every arc's curve,
  and `generateSVG`, which collects the drawing primitives and orders them
  with `drawOrder` so that arcs are drawn first and texts last.
*/
module Drawing {
  import opened Wrappers
  import opened Sorting
  import opened DepGraph
  import opened LevelAssigner
  import opened HorizontalLayout

  // ------------------------------------------------------------ layout

  /** The baseline of the tokens when the highest arc level is `maxHeight`. */
  function BaseY(maxHeight: int): int {
    FontSize + maxHeight * DepVertSpace + LabelFontSize / 2 + 5
  }

  /** The first components of the pairs. */
  function Firsts(ps: seq<(int, Dep)>): (hs: seq<int>)
    ensures |hs| == |ps| && forall i :: 0 <= i < |ps| ==> hs[i] == ps[i].0
  {
    seq(|ps|, i requires 0 <= i < |ps| => ps[i].0)
  }

  /** Each arc paired with the given height. */
  function Zip(hs: seq<int>, ds: seq<Dep>): (ps: seq<(int, Dep)>)
    requires |hs| == |ds|
    ensures |ps| == |ds| && forall i :: 0 <= i < |ds| ==> ps[i] == (hs[i], ds[i])
  {
    seq(|ds|, i requires 0 <= i < |ds| => (hs[i], ds[i]))
  }

  /** The arcs in the order `depHeights` processes them. */
  function ByLength(deps: seq<Dep>): seq<Dep> {
    SortBy(deps, SpanKey)
  }

  /**
    The arcs in their final order, `depHeights`'s order re-sorted stably by
    level, each paired with its level.
  */
  function FinalOrder(deps: seq<Dep>, m: nat): seq<(int, Dep)>
    requires SpansWithin(SpansOf(ByLength(deps)), m)
  {
    SortBy(Zip(Levels(m, SpansOf(ByLength(deps))), ByLength(deps)), HeightKey)
  }

  /**
    The state `layout` leaves behind, when it succeeds: arcs of the sorted
    list `sorted` in final order carry the levels the assigner gives them,
    tokens sit on the common baseline at the centres `improveTokenLayout`
    computes from the packed layout, and every arc's curve is computed
    from those coordinates.
  */
  predicate LaidOut(tokens: seq<Token>, deps: seq<Dep>, sorted: seq<Dep>, maxHeight: int)
    reads set i | 0 <= i < |tokens| :: tokens[i]
    reads set i | 0 <= i < |sorted| :: sorted[i]
  {
    var m := |tokens| - 1;
    |tokens| >= 2 &&
    SpansWithin(SpansOf(ByLength(deps)), m) &&
    var ps := FinalOrder(deps, m);
    sorted == Unkeyed(ps) &&
    Heights(sorted) == Firsts(ps) &&
    maxHeight == MaxOf(Floors(m, SpansOf(ByLength(deps)), |ByLength(deps)|)) &&
    (forall i :: 0 <= i < |tokens| ==> tokens[i].y == BaseY(maxHeight)) &&
    Within(sorted, |tokens|) &&
    Xs(tokens) == Improved(InitialXs(Widths(tokens)), sorted, Firsts(ps)) &&
    forall i :: 0 <= i < |sorted| ==> CurveComputed(sorted[i], Xs(tokens), BaseY(maxHeight))
  }

  /** The arcs and the heights of a keyed list. */
  lemma KeyedParts(ds: seq<Dep>, ps: seq<(int, Dep)>)
    requires Keyed(ds) == ps
    ensures ds == Unkeyed(ps) && Heights(ds) == Firsts(ps)
  {
  }

  /** Arc `d`'s curve is computed from the centres `xs` and the baseline `baseY`. */
  predicate CurveComputed(d: Dep, xs: seq<real>, baseY: int)
    reads d
  {
    d.tok1.pos < |xs| && d.tok2.pos < |xs| &&
    d.param == Some(ArcGeometry(xs[d.tok1.pos], baseY, xs[d.tok2.pos], d.height))
  }

  /** The last loop of `layout`: `computeParameters` for every arc. */
  method ComputeCurves(tokens: seq<Token>, deps: seq<Dep>, ghost baseY: int)
    requires Attached(deps, tokens)
    requires forall i :: 0 <= i < |tokens| ==> tokens[i].y == baseY
    modifies set i | 0 <= i < |deps| :: deps[i]
    ensures Keyed(deps) == old(Keyed(deps))
    ensures Xs(tokens) == old(Xs(tokens))
    ensures forall i :: 0 <= i < |tokens| ==> tokens[i].y == baseY
    ensures forall i :: 0 <= i < |deps| ==> CurveComputed(deps[i], Xs(tokens), baseY)
  {
    ghost var keyed := Keyed(deps);
    ghost var xs := Xs(tokens);
    var k := 0;
    while k < |deps|
      invariant 0 <= k <= |deps|
      invariant forall i :: 0 <= i < |deps| ==> deps[i].height == keyed[i].0
      invariant forall i :: 0 <= i < |tokens| ==> tokens[i].x == xs[i] && tokens[i].y == baseY
      invariant forall i :: 0 <= i < k ==> CurveComputed(deps[i], xs, baseY)
    {
      var d := deps[k];
      assert d in deps;
      d.ComputeParameters();
      assert CurveComputed(d, xs, baseY) by {
        assert tokens[d.tok1.pos] == d.tok1 && tokens[d.tok2.pos] == d.tok2;
      }
      k := k + 1;
    }
    assert Keyed(deps) == keyed;
    assert Xs(tokens) == xs;
  }

  /**
    The part of `layout` after the levels: the packed token layout on the
    baseline `baseY`, the nudged layout, and the curve of every arc in the
    order the nudging leaves the list in.
  */
  method PlaceTokens(tokens: seq<Token>, ds: seq<Dep>, baseY: int) returns (sorted: seq<Dep>)
    requires |tokens| >= 1 && Indexed(tokens) && Attached(ds, tokens)
    modifies set i | 0 <= i < |tokens| :: tokens[i]
    modifies set i | 0 <= i < |ds| :: ds[i]
    ensures forall i :: 0 <= i < |sorted| ==> sorted[i] in ds
    ensures forall i :: 0 <= i < |ds| ==> ds[i] in sorted
    ensures Keyed(sorted) == SortBy(old(Keyed(ds)), HeightKey)
    ensures Within(sorted, |tokens|)
    ensures Xs(tokens) == Improved(InitialXs(Widths(tokens)), sorted, Heights(sorted))
    ensures forall i :: 0 <= i < |tokens| ==> tokens[i].y == baseY
    ensures forall i :: 0 <= i < |sorted| ==> CurveComputed(sorted[i], Xs(tokens), baseY)
  {
    SimpleTokenLayout(tokens, ds, baseY);
    ghost var xs := Xs(tokens);
    sorted := ImproveTokenLayout(tokens, ds);
    ghost var keyed := Keyed(sorted);
    ghost var xs2 := Xs(tokens);
    assert xs2 == Improved(xs, sorted, Heights(sorted));
    KeyedParts(sorted, keyed);
    AttachedSubset(sorted, ds, tokens);
    ComputeCurves(tokens, sorted, baseY);
    KeyedParts(sorted, keyed);
    assert Xs(tokens) == xs2;
  }

  /**
    `layout` once the levels are known: the baseline from the highest
    level `maxHeight`, then the placement of tokens and arcs.
  */
  method LayoutLevelled(tokens: seq<Token>, deps: seq<Dep>, s1: seq<Dep>, maxHeight: int) returns (sorted: seq<Dep>)
    requires |tokens| >= 2 && Indexed(tokens) && Attached(s1, tokens)
    requires s1 == ByLength(deps) && SpansWithin(SpansOf(s1), |tokens| - 1)
    requires forall i :: 0 <= i < |s1| ==> s1[i].height == Levels(|tokens| - 1, SpansOf(s1))[i]
    requires maxHeight == MaxOf(Floors(|tokens| - 1, SpansOf(s1), |s1|))
    modifies set i | 0 <= i < |tokens| :: tokens[i]
    modifies set i | 0 <= i < |deps| :: deps[i]
    ensures forall i :: 0 <= i < |sorted| ==> sorted[i] in s1
    ensures forall i :: 0 <= i < |s1| ==> s1[i] in sorted
    ensures LaidOut(tokens, deps, sorted, maxHeight)
  {
    SortByMembers(deps, SpanKey);
    var baseY := BaseY(maxHeight);
    ghost var m := |tokens| - 1;
    ghost var ps := FinalOrder(deps, m);
    assert Keyed(s1) == Zip(Levels(m, SpansOf(ByLength(deps))), ByLength(deps));
    sorted := PlaceTokens(tokens, s1, baseY);
    KeyedParts(sorted, ps);
  }

  /**
    `layout`: levels first, then the baseline from the highest level and
    the placement of tokens and arcs. The list is re-sorted in place, so the
    final order is returned.
  */
  method Layout(tokens: seq<Token>, deps: seq<Dep>) returns (sorted: seq<Dep>, r: Result<int, DgError>)
    requires Indexed(tokens) && Attached(deps, tokens)
    requires forall i, j :: 0 <= i < j < |deps| ==> deps[i] != deps[j]
    modifies set i | 0 <= i < |tokens| :: tokens[i]
    modifies set i | 0 <= i < |deps| :: deps[i]
    ensures r.Success? <==> |tokens| >= 2 && forall i :: 0 <= i < |deps| ==> deps[i].tok1.pos < deps[i].tok2.pos
    ensures r.Failure? ==> r.error == EmptyMaximum
    ensures forall i :: 0 <= i < |sorted| ==> sorted[i] in deps
    ensures forall i :: 0 <= i < |deps| ==> deps[i] in sorted
    ensures r.Success? ==> LaidOut(tokens, deps, sorted, r.value)
  {
    var s1, res := DepHeights(|tokens|, deps);
    SortByMembers(deps, SpanKey);
    if res.Failure? {
      return s1, res;
    }
    AttachedSubset(s1, deps, tokens);
    sorted := LayoutLevelled(tokens, deps, s1, res.value);
    SameMembers(sorted, s1, deps);
    r := Success(res.value);
  }

  /** Two lists with the same elements as a third have the same elements as each other. */
  lemma SameMembers<T>(a: seq<T>, b: seq<T>, c: seq<T>)
    requires forall i :: 0 <= i < |a| ==> a[i] in b
    requires forall i :: 0 <= i < |b| ==> b[i] in a
    requires forall i :: 0 <= i < |b| ==> b[i] in c
    requires forall i :: 0 <= i < |c| ==> c[i] in b
    ensures forall i :: 0 <= i < |a| ==> a[i] in c
    ensures forall i :: 0 <= i < |c| ==> c[i] in a
  {
    forall i | 0 <= i < |a| ensures a[i] in c {
      assert a[i] in b;
      var j :| 0 <= j < |b| && b[j] == a[i];
    }
    forall i | 0 <= i < |c| ensures c[i] in a {
      assert c[i] in b;
      var j :| 0 <= j < |b| && b[j] == c[i];
    }
  }

  // ------------------------------------------------------------ what a layout guarantees

  /** Both sorts behind the final order permute what they are given. */
  lemma FinalOrderPerm(deps: seq<Dep>, m: nat)
    requires SpansWithin(SpansOf(ByLength(deps)), m)
    ensures multiset(ByLength(deps)) == multiset(deps)
    ensures multiset(FinalOrder(deps, m)) == multiset(Zip(Levels(m, SpansOf(ByLength(deps))), ByLength(deps)))
  {
    SortByPerm(deps, SpanKey);
    SortByPerm(Zip(Levels(m, SpansOf(ByLength(deps))), ByLength(deps)), HeightKey);
  }

  /** Each entry of the final order is some arc of `depHeights`'s order with its level. */
  lemma FinalOrderEntries(deps: seq<Dep>, m: nat)
    requires SpansWithin(SpansOf(ByLength(deps)), m)
    ensures |FinalOrder(deps, m)| == |deps|
    ensures forall i :: 0 <= i < |FinalOrder(deps, m)| ==>
      exists j :: 0 <= j < |ByLength(deps)| && FinalOrder(deps, m)[i] == (Levels(m, SpansOf(ByLength(deps)))[j], ByLength(deps)[j])
  {
    var s1 := ByLength(deps);
    var z := Zip(Levels(m, SpansOf(s1)), s1);
    var ps := FinalOrder(deps, m);
    FinalOrderPerm(deps, m);
    assert |multiset(s1)| == |multiset(deps)|;
    assert |multiset(ps)| == |multiset(z)|;
    forall i | 0 <= i < |ps| ensures exists j :: 0 <= j < |s1| && ps[i] == z[j] {
      assert ps[i] in multiset(z);
    }
  }

  /** The final order holds exactly the arcs of the graph. */
  lemma FinalOrderMembers(deps: seq<Dep>, m: nat)
    requires SpansWithin(SpansOf(ByLength(deps)), m)
    ensures forall d :: d in Unkeyed(FinalOrder(deps, m)) <==> d in deps
  {
    var s1 := ByLength(deps);
    var z := Zip(Levels(m, SpansOf(s1)), s1);
    var ps := FinalOrder(deps, m);
    FinalOrderPerm(deps, m);
    forall d | d in Unkeyed(ps) ensures d in deps {
      var i :| 0 <= i < |ps| && Unkeyed(ps)[i] == d;
      assert ps[i] in multiset(z);
      var j :| 0 <= j < |z| && ps[i] == z[j];
      assert s1[j] in multiset(deps);
    }
    forall d | d in deps ensures d in Unkeyed(ps) {
      assert d in multiset(s1);
      var j :| 0 <= j < |s1| && s1[j] == d;
      assert z[j] in multiset(ps);
      var i :| 0 <= i < |ps| && ps[i] == z[j];
      assert Unkeyed(ps)[i] == d;
    }
  }

  /** Arcs on one level share no gap, in the final order as in the assigner's. */
  lemma FinalOrderDisjoint(deps: seq<Dep>, m: nat)
    requires SpansWithin(SpansOf(ByLength(deps)), m)
    ensures var ps := FinalOrder(deps, m);
      forall i, j :: 0 <= i < |ps| && 0 <= j < |ps| && i != j && ps[i].0 == ps[j].0 ==>
        !Overlap(SpanOf(ps[i].1), SpanOf(ps[j].1))
  {
    var s1 := ByLength(deps);
    var spans := SpansOf(s1);
    var hs := Levels(m, spans);
    var z := Zip(hs, s1);
    var P := (p: (int, Dep), q: (int, Dep)) => p.0 == q.0 ==> !Overlap(SpanOf(p.1), SpanOf(q.1));
    forall i, j | 0 <= i < |z| && 0 <= j < |z| && i != j ensures P(z[i], z[j]) {
      if hs[i] == hs[j] {
        SameLevelDisjoint(m, spans, i, j);
      }
    }
    FinalOrderPerm(deps, m);
    PermPairwise(z, FinalOrder(deps, m), P);
  }

  /** Arcs the assigner puts on one level end at different tokens. */
  lemma FinalTargetsDistinct(deps: seq<Dep>, m: nat)
    requires SpansWithin(SpansOf(ByLength(deps)), m)
    ensures LevelTargetsDistinct(Unkeyed(FinalOrder(deps, m)), Firsts(FinalOrder(deps, m)))
  {
    var ps := FinalOrder(deps, m);
    FinalOrderDisjoint(deps, m);
    FinalOrderSpans(deps, m);
    forall i, j | 0 <= i < |ps| && 0 <= j < |ps| && i != j && ps[i].0 == ps[j].0
      ensures ps[i].1.tok2.pos != ps[j].1.tok2.pos
    {
      assert !Overlap(SpanOf(ps[i].1), SpanOf(ps[j].1));
      assert ps[i].1 in Unkeyed(ps) && ps[j].1 in Unkeyed(ps);
    }
  }

  /** Nudging the final order level by level makes every label fit. */
  lemma FinalOrderFits(xs: seq<real>, deps: seq<Dep>, m: nat)
    requires SpansWithin(SpansOf(ByLength(deps)), m) && |xs| == m + 1
    ensures Within(Unkeyed(FinalOrder(deps, m)), |xs|)
    ensures var sorted := Unkeyed(FinalOrder(deps, m));
      forall d :: d in sorted ==> Fits(Improved(xs, sorted, Firsts(FinalOrder(deps, m))), d)
  {
    var ps := FinalOrder(deps, m);
    FinalOrderSpans(deps, m);
    FinalTargetsDistinct(deps, m);
    ImproveFit(xs, Unkeyed(ps), Firsts(ps));
  }

  /** Every arc of the final order spans at least one of the `m` gaps. */
  lemma FinalOrderSpans(deps: seq<Dep>, m: nat)
    requires SpansWithin(SpansOf(ByLength(deps)), m)
    ensures |FinalOrder(deps, m)| == |deps|
    ensures forall d :: d in Unkeyed(FinalOrder(deps, m)) ==> d.tok1.pos < d.tok2.pos <= m
  {
    var s1 := ByLength(deps);
    var ps := FinalOrder(deps, m);
    var sorted := Unkeyed(ps);
    FinalOrderEntries(deps, m);
    forall d | d in sorted ensures d.tok1.pos < d.tok2.pos <= m {
      var i :| 0 <= i < |sorted| && sorted[i] == d;
      var j :| 0 <= j < |s1| && ps[i] == (Levels(m, SpansOf(s1))[j], s1[j]);
      assert SpansOf(s1)[j] == SpanOf(s1[j]);
    }
  }

  /** After `layout`, the label of every arc fits between its end tokens. */
  lemma LaidOutFits(tokens: seq<Token>, deps: seq<Dep>, sorted: seq<Dep>, maxHeight: int)
    requires LaidOut(tokens, deps, sorted, maxHeight)
    ensures forall d :: d in deps ==> Fits(Xs(tokens), d)
  {
    var m := |tokens| - 1;
    FinalOrderMembers(deps, m);
    FinalOrderFits(InitialXs(Widths(tokens)), deps, m);
  }

  /** After `layout`, tokens are still at least `TokenSpace` apart. */
  lemma LaidOutSeparated(tokens: seq<Token>, deps: seq<Dep>, sorted: seq<Dep>, maxHeight: int)
    requires LaidOut(tokens, deps, sorted, maxHeight)
    ensures Separated(Xs(tokens), Widths(tokens))
  {
    var ws := Widths(tokens);
    var ps := FinalOrder(deps, |tokens| - 1);
    InitialSeparated(ws);
    ImproveSeparated(InitialXs(ws), ws, sorted, Firsts(ps));
  }

  /** After `layout`, no token is left of where `simpleTokenLayout` put it, and no two are closer. */
  lemma LaidOutRightOfInitial(tokens: seq<Token>, deps: seq<Dep>, sorted: seq<Dep>, maxHeight: int)
    requires LaidOut(tokens, deps, sorted, maxHeight)
    ensures forall i :: 0 <= i < |tokens| ==> Xs(tokens)[i] >= InitialXs(Widths(tokens))[i]
    ensures forall i, j :: 0 <= i <= j < |tokens| ==>
      Xs(tokens)[j] - Xs(tokens)[i] >= InitialXs(Widths(tokens))[j] - InitialXs(Widths(tokens))[i]
  {
    var ps := FinalOrder(deps, |tokens| - 1);
    ImproveWidens(InitialXs(Widths(tokens)), sorted, Firsts(ps));
  }

  /** Every level in the final order is between one and the highest floor. */
  lemma FinalOrderLevelRange(deps: seq<Dep>, m: nat)
    requires SpansWithin(SpansOf(ByLength(deps)), m) && m > 0
    ensures var ps := FinalOrder(deps, m);
      forall i :: 0 <= i < |ps| ==> 1 <= ps[i].0 <= MaxOf(Floors(m, SpansOf(ByLength(deps)), |ByLength(deps)|))
  {
    var s1 := ByLength(deps);
    var spans := SpansOf(s1);
    var ps := FinalOrder(deps, m);
    FinalOrderEntries(deps, m);
    forall i | 0 <= i < |ps| ensures 1 <= ps[i].0 <= MaxOf(Floors(m, spans, |s1|)) {
      var j :| 0 <= j < |s1| && ps[i] == (Levels(m, spans)[j], s1[j]);
      LevelPositive(m, spans, j);
      LevelBelowMaxFloor(m, spans, j);
    }
  }

  /** Some arc of the final order reaches the highest floor, which is zero without arcs. */
  lemma FinalOrderTopReached(deps: seq<Dep>, m: nat)
    requires SpansWithin(SpansOf(ByLength(deps)), m) && m > 0
    ensures var ps := FinalOrder(deps, m); var top := MaxOf(Floors(m, SpansOf(ByLength(deps)), |ByLength(deps)|));
      (deps == [] ==> top == 0) && (deps != [] ==> exists i :: 0 <= i < |ps| && ps[i].0 == top)
  {
    var s1 := ByLength(deps);
    var spans := SpansOf(s1);
    var z := Zip(Levels(m, spans), s1);
    var ps := FinalOrder(deps, m);
    FinalOrderPerm(deps, m);
    assert |multiset(s1)| == |multiset(deps)|;
    MaxFloorIsMaxLevel(m, spans);
    if deps != [] {
      var j := MaxFloorIsLevel(m, spans);
      assert z[j] in multiset(ps);
    }
  }

  /**
    After `layout`, every arc sits on a level from one up to the returned
    maximum, which some arc reaches (zero without arcs).
  */
  lemma LaidOutLevels(tokens: seq<Token>, deps: seq<Dep>, sorted: seq<Dep>, maxHeight: int)
    requires LaidOut(tokens, deps, sorted, maxHeight)
    ensures forall i :: 0 <= i < |sorted| ==> 1 <= sorted[i].height <= maxHeight
    ensures deps == [] ==> maxHeight == 0
    ensures deps != [] ==> exists i :: 0 <= i < |sorted| && sorted[i].height == maxHeight
  {
    var m := |tokens| - 1;
    assert forall i :: 0 <= i < |sorted| ==> sorted[i].height == Firsts(FinalOrder(deps, m))[i];
    FinalOrderLevelRange(deps, m);
    FinalOrderTopReached(deps, m);
  }

  /** After `layout`, arcs on one level share no gap. */
  lemma LaidOutDisjoint(tokens: seq<Token>, deps: seq<Dep>, sorted: seq<Dep>, maxHeight: int)
    requires LaidOut(tokens, deps, sorted, maxHeight)
    ensures forall i, j :: 0 <= i < |sorted| && 0 <= j < |sorted| && i != j && sorted[i].height == sorted[j].height ==>
      !Overlap(SpanOf(sorted[i]), SpanOf(sorted[j]))
  {
    var m := |tokens| - 1;
    assert forall i :: 0 <= i < |sorted| ==> sorted[i].height == Firsts(FinalOrder(deps, m))[i];
    FinalOrderDisjoint(deps, m);
  }

  /**
    After `layout`, every arc's shelf lies at least half a label font size
    plus five units below the top of the picture and at least one level
    above the tops of the token texts.
  */
  lemma LaidOutArcsInside(tokens: seq<Token>, deps: seq<Dep>, sorted: seq<Dep>, maxHeight: int)
    requires LaidOut(tokens, deps, sorted, maxHeight)
    ensures forall i :: 0 <= i < |sorted| ==>
      LabelFontSize / 2 + 5 <= sorted[i].param.value.midy <= BaseY(maxHeight) - FontSize - DepVertSpace
  {
    LaidOutLevels(tokens, deps, sorted, maxHeight);
  }

  // ------------------------------------------------------------ drawOrder and generateSVG

  /** The element name of a primitive in the SVG tree. */
  function Tag(p: Prim): string {
    match p
    case Path(_) => "path"
    case Rect(_, _, _, _) => "rect"
    case Text(_, _, _, _) => "text"
  }

  /** The drawing layer of a primitive: arcs, then plaques, then texts. */
  function Layer(p: Prim): nat {
    match p
    case Path(_) => 0
    case Rect(_, _, _, _) => 1
    case Text(_, _, _, _) => 2
  }

  function LayerKey(p: Prim): Key {
    (Layer(p), 0)
  }

  /**
    `drawOrder`: the comparator `generateSVG` sorts by. It compares the
    layers and nothing else, so the sort is the stable sort by layer.
  */
  function DrawOrder(a: Prim, b: Prim): (r: int)
    ensures r == Cmp(Layer(a), Layer(b))
  {
    if Tag(a) != Tag(b) then
      if a.Path? then -1
      else if a.Text? then 1
      else if b.Path? then 1
      else if b.Text? then -1
      else assert false; 0
    else 0
  }

  lemma Regroup<T>(x: T, t0: seq<T>, t1: seq<T>, t2: seq<T>, h0: seq<T>, h1: seq<T>, h2: seq<T>)
    requires || (h0, h1, h2) == ([x], [], [])
             || ((h0, h1, h2) == ([], [x], []) && t0 == [])
             || ((h0, h1, h2) == ([], [], [x]) && t0 == [] && t1 == [])
    ensures [x] + (t0 + t1 + t2) == (h0 + t0) + (h1 + t1) + (h2 + t2)
  {
  }

  /** A list sorted by layer is its arcs, then its plaques, then its texts. */
  lemma {:induction false} SortedLayers(s: seq<Prim>)
    requires SortedBy(s, LayerKey)
    ensures s == Those(s, LayerKey, (0, 0)) + Those(s, LayerKey, (1, 0)) + Those(s, LayerKey, (2, 0))
  {
    if s != [] {
      var x, t := s[0], s[1..];
      SortedTail(s, LayerKey);
      SortedLayers(t);
      var t0, t1, t2 := Those(t, LayerKey, (0, 0)), Those(t, LayerKey, (1, 0)), Those(t, LayerKey, (2, 0));
      var h0, h1, h2 := if Layer(x) == 0 then [x] else [], if Layer(x) == 1 then [x] else [], if Layer(x) == 2 then [x] else [];
      ThoseCons(s, LayerKey, (0, 0));
      ThoseCons(s, LayerKey, (1, 0));
      ThoseCons(s, LayerKey, (2, 0));
      assert t0 == [] || Layer(x) == 0 by {
        if Layer(x) >= 1 {
          forall i | 0 <= i < |t| ensures LayerKey(t[i]) != (0, 0) {
            assert t[i] == s[i + 1];
          }
          ThoseNone(t, LayerKey, (0, 0));
        }
      }
      assert t1 == [] || Layer(x) < 2 by {
        if Layer(x) == 2 {
          forall i | 0 <= i < |t| ensures LayerKey(t[i]) != (1, 0) {
            assert t[i] == s[i + 1];
          }
          ThoseNone(t, LayerKey, (1, 0));
        }
      }
      assert s == [x] + t;
      Regroup(x, t0, t1, t2, h0, h1, h2);
    }
  }

  /** Sorting by `drawOrder` puts arcs first and texts last, each group in its original order. */
  lemma DrawOrderLayers(s: seq<Prim>)
    ensures SortBy(s, LayerKey) == Those(s, LayerKey, (0, 0)) + Those(s, LayerKey, (1, 0)) + Those(s, LayerKey, (2, 0))
  {
    SortBySorted(s, LayerKey);
    SortByStable(s, LayerKey);
    SortedLayers(SortBy(s, LayerKey));
  }

  /** `arcSVG` followed by `labelSVG` for an arc with curve `p` and type `depType`. */
  function ArcPrims(p: ArcParams, depType: string): seq<Prim> {
    [Path(p), LabelPrims(p, depType).0, LabelPrims(p, depType).1]
  }

  /** The primitives of the arcs with curves and types `cs`, arc by arc. */
  function ArcsScene(cs: seq<(ArcParams, string)>): seq<Prim> {
    if cs == [] then []
    else ArcsScene(cs[..|cs| - 1]) + ArcPrims(cs[|cs| - 1].0, cs[|cs| - 1].1)
  }

  function Curves(cs: seq<(ArcParams, string)>): (r: seq<Prim>)
    ensures |r| == |cs| && forall i :: 0 <= i < |cs| ==> r[i] == Path(cs[i].0)
  {
    seq(|cs|, i requires 0 <= i < |cs| => Path(cs[i].0))
  }

  function Plaques(cs: seq<(ArcParams, string)>): (r: seq<Prim>)
    ensures |r| == |cs| && forall i :: 0 <= i < |cs| ==> r[i] == LabelPrims(cs[i].0, cs[i].1).0
  {
    seq(|cs|, i requires 0 <= i < |cs| => LabelPrims(cs[i].0, cs[i].1).0)
  }

  function Labels(cs: seq<(ArcParams, string)>): (r: seq<Prim>)
    ensures |r| == |cs| && forall i :: 0 <= i < |cs| ==> r[i] == LabelPrims(cs[i].0, cs[i].1).1
  {
    seq(|cs|, i requires 0 <= i < |cs| => LabelPrims(cs[i].0, cs[i].1).1)
  }

  lemma ThreeLayers(x: Prim, y: Prim, z: Prim)
    requires x.Path? && y.Rect? && z.Text?
    ensures Those([x, y, z], LayerKey, (0, 0)) == [x]
    ensures Those([x, y, z], LayerKey, (1, 0)) == [y]
    ensures Those([x, y, z], LayerKey, (2, 0)) == [z]
  {
    assert [x, y, z][1..] == [y, z] && [y, z][1..] == [z] && [z][1..] == [];
    forall k ensures Those([x, y, z], LayerKey, k)
        == (if LayerKey(x) == k then [x] else []) + (if LayerKey(y) == k then [y] else [])
           + (if LayerKey(z) == k then [z] else [])
    {
      assert Those([z], LayerKey, k) == (if LayerKey(z) == k then [z] else []);
      assert Those([y, z], LayerKey, k) == (if LayerKey(y) == k then [y] else []) + Those([z], LayerKey, k);
    }
  }

  lemma ArcPrimsLayers(p: ArcParams, depType: string)
    ensures Those(ArcPrims(p, depType), LayerKey, (0, 0)) == [Path(p)]
    ensures Those(ArcPrims(p, depType), LayerKey, (1, 0)) == [LabelPrims(p, depType).0]
    ensures Those(ArcPrims(p, depType), LayerKey, (2, 0)) == [LabelPrims(p, depType).1]
  {
    var l := LabelPrims(p, depType);
    ThreeLayers(Path(p), l.0, l.1);
  }

  lemma LayersSnoc(cs: seq<(ArcParams, string)>)
    requires cs != []
    ensures Curves(cs) == Curves(cs[..|cs| - 1]) + [Path(cs[|cs| - 1].0)]
    ensures Plaques(cs) == Plaques(cs[..|cs| - 1]) + [LabelPrims(cs[|cs| - 1].0, cs[|cs| - 1].1).0]
    ensures Labels(cs) == Labels(cs[..|cs| - 1]) + [LabelPrims(cs[|cs| - 1].0, cs[|cs| - 1].1).1]
  {
  }

  /** The layers of the arcs' primitives: their curves, their plaques and their labels. */
  lemma {:induction false} ArcsSceneLayers(cs: seq<(ArcParams, string)>)
    ensures Those(ArcsScene(cs), LayerKey, (0, 0)) == Curves(cs)
    ensures Those(ArcsScene(cs), LayerKey, (1, 0)) == Plaques(cs)
    ensures Those(ArcsScene(cs), LayerKey, (2, 0)) == Labels(cs)
  {
    if cs != [] {
      var init, c := cs[..|cs| - 1], cs[|cs| - 1];
      ArcsSceneLayers(init);
      var a := ArcPrims(c.0, c.1);
      assert ArcsScene(cs) == ArcsScene(init) + a;
      ArcPrimsLayers(c.0, c.1);
      ThoseAppend(ArcsScene(init), a, LayerKey, (0, 0));
      ThoseAppend(ArcsScene(init), a, LayerKey, (1, 0));
      ThoseAppend(ArcsScene(init), a, LayerKey, (2, 0));
      LayersSnoc(cs);
    }
  }

  lemma ArcsSceneSnoc(cs: seq<(ArcParams, string)>, k: nat)
    requires k < |cs|
    ensures ArcsScene(cs[..k + 1]) == ArcsScene(cs[..k]) + ArcPrims(cs[k].0, cs[k].1)
  {
    assert cs[..k + 1][..k] == cs[..k];
  }

  /** The drawing of texts `texts` and arcs `cs` once sorted: curves, plaques, texts, labels. */
  lemma SceneLayers(texts: seq<Prim>, cs: seq<(ArcParams, string)>)
    requires forall i :: 0 <= i < |texts| ==> texts[i].Text?
    ensures SortBy(texts + ArcsScene(cs), LayerKey) == Curves(cs) + Plaques(cs) + texts + Labels(cs)
  {
    var a := ArcsScene(cs);
    var s := texts + a;
    assert Those(s, LayerKey, (0, 0)) == Curves(cs) by {
      ArcsSceneLayers(cs);
      ThoseNone(texts, LayerKey, (0, 0));
      ThoseAppend(texts, a, LayerKey, (0, 0));
    }
    assert Those(s, LayerKey, (1, 0)) == Plaques(cs) by {
      ArcsSceneLayers(cs);
      ThoseNone(texts, LayerKey, (1, 0));
      ThoseAppend(texts, a, LayerKey, (1, 0));
    }
    assert Those(s, LayerKey, (2, 0)) == texts + Labels(cs) by {
      ArcsSceneLayers(cs);
      ThoseAll(texts, LayerKey, (2, 0));
      ThoseAppend(texts, a, LayerKey, (2, 0));
    }
    LayersJoin(s, texts, cs);
  }

  lemma LayersJoin(s: seq<Prim>, texts: seq<Prim>, cs: seq<(ArcParams, string)>)
    requires Those(s, LayerKey, (0, 0)) == Curves(cs)
    requires Those(s, LayerKey, (1, 0)) == Plaques(cs)
    requires Those(s, LayerKey, (2, 0)) == texts + Labels(cs)
    ensures SortBy(s, LayerKey) == Curves(cs) + Plaques(cs) + texts + Labels(cs)
  {
    DrawOrderLayers(s);
  }

  /** `toSVG` of every token, in sentence order. */
  function Texts(tokens: seq<Token>): (r: seq<Prim>)
    reads set i | 0 <= i < |tokens| :: tokens[i]
    ensures |r| == |tokens| && forall i :: 0 <= i < |tokens| ==> r[i] == tokens[i].ToPrim()
  {
    seq(|tokens|, i reads tokens requires 0 <= i < |tokens| => tokens[i].ToPrim())
  }

  /** The curve and the type of every arc whose curve is computed. */
  function Arcs(deps: seq<Dep>): (r: seq<(ArcParams, string)>)
    reads set i | 0 <= i < |deps| :: deps[i]
    requires forall i :: 0 <= i < |deps| ==> deps[i].param.Some?
    ensures |r| == |deps| && forall i :: 0 <= i < |deps| ==> r[i] == (deps[i].param.value, deps[i].depType)
  {
    seq(|deps|, i reads deps requires 0 <= i < |deps| && deps[i].param.Some? => (deps[i].param.value, deps[i].depType))
  }

  /**
    `generateSVG`: lays the sentence out, then lists every token's text and
    every arc's curve, plaque and label, and sorts the list by `drawOrder`.
    The result is the arcs' curves, then their plaques, then the token
    texts, then the arc labels, each group in the order of the arcs (and
    of the tokens).
  */
  method GenerateSvg(tokens: seq<Token>, deps: seq<Dep>) returns (sorted: seq<Dep>, r: Result<seq<Prim>, DgError>)
    requires Indexed(tokens) && Attached(deps, tokens)
    requires forall i, j :: 0 <= i < j < |deps| ==> deps[i] != deps[j]
    modifies set i | 0 <= i < |tokens| :: tokens[i]
    modifies set i | 0 <= i < |deps| :: deps[i]
    ensures r.Success? <==> |tokens| >= 2 && forall i :: 0 <= i < |deps| ==> deps[i].tok1.pos < deps[i].tok2.pos
    ensures r.Failure? ==> r.error == EmptyMaximum
    ensures forall i :: 0 <= i < |sorted| ==> sorted[i] in deps
    ensures forall i :: 0 <= i < |deps| ==> deps[i] in sorted
    ensures r.Success? ==>
      && (forall i :: 0 <= i < |sorted| ==> sorted[i].param.Some?)
      && var cs := Arcs(sorted);
         r.value == Curves(cs) + Plaques(cs) + Texts(tokens) + Labels(cs)
  {
    var res;
    sorted, res := Layout(tokens, deps);
    if res.Failure? {
      return sorted, Failure(res.error);
    }
    assert forall i :: 0 <= i < |sorted| ==> sorted[i].param.Some? by {
      forall i | 0 <= i < |sorted| ensures sorted[i].param.Some? {
        assert CurveComputed(sorted[i], Xs(tokens), BaseY(res.value));
      }
    }
    var nodes := DrawScene(tokens, sorted);
    r := Success(nodes);
  }

  /** The part of `generateSVG` after the layout: collects the primitives and sorts them by `drawOrder`. */
  method DrawScene(tokens: seq<Token>, sorted: seq<Dep>) returns (nodes: seq<Prim>)
    requires forall i :: 0 <= i < |sorted| ==> sorted[i].param.Some?
    ensures var cs := Arcs(sorted); nodes == Curves(cs) + Plaques(cs) + Texts(tokens) + Labels(cs)
  {
    var texts := TokenNodes(tokens);
    var arcs := ArcNodes(sorted);
    nodes := SortBy(texts + arcs, LayerKey);
    SceneLayers(texts, Arcs(sorted));
  }

  /** The first loop of `generateSVG`: `toSVG` of every token. */
  method TokenNodes(tokens: seq<Token>) returns (nodes: seq<Prim>)
    ensures nodes == Texts(tokens)
  {
    nodes := [];
    var i := 0;
    while i < |tokens|
      invariant 0 <= i <= |tokens|
      invariant nodes == Texts(tokens)[..i]
    {
      nodes := nodes + [tokens[i].ToPrim()];
      i := i + 1;
    }
  }

  /** The second loop of `generateSVG`: `arcSVG` and `labelSVG` of every arc. */
  method ArcNodes(deps: seq<Dep>) returns (nodes: seq<Prim>)
    requires forall i :: 0 <= i < |deps| ==> deps[i].param.Some?
    ensures nodes == ArcsScene(Arcs(deps))
  {
    ghost var cs := Arcs(deps);
    nodes := [];
    var k := 0;
    while k < |deps|
      invariant 0 <= k <= |deps|
      invariant nodes == ArcsScene(cs[..k])
    {
      nodes := nodes + ArcPrims(deps[k].param.value, deps[k].depType);
      ArcsSceneSnoc(cs, k);
      k := k + 1;
    }
    assert cs[..|deps|] == cs;
  }
}

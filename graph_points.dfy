/**
 * The value-level specification of `getGraphPath`: the top line (`graphPoints`)
 * and the bottom line (`bottomPoints`) it builds from a point list, the dummy
 * points `addDummyPoints` inserts at gaps, and the way the two line paths are
 * joined into the area path.
 */
module GraphPoints {
  import opened AreaTypes

  /** What the point loop of `getGraphPath` reads besides the points. `tt` is
      the rounded translated threshold; `selfIndex` is the series' index. */
  datatype PathCtx = PathCtx(
    stacking: Stacking,
    connectNulls: bool,
    threshold: Option<real>,
    tt: real,
    getThreshold: Option<real> -> real,
    stack: Stack,
    selfIndex: int)

  /** The pixel a dummy point takes next to a null point without stacking:
      the translated threshold option, or `tt` when the threshold is null. */
  function ThresholdPixel(c: PathCtx): real {
    if c.threshold.None? then c.tt else c.getThreshold(c.threshold)
  }

  /** What one call of `addDummyPoints` does: nothing, push a top and a bottom
      dummy point, or throw because the stacked values it reads are missing. */
  datatype Dummy = NoDummy | Dummy(top: PathPoint, bottom: PathPoint) | StackValuesMissing

  /** `addDummyPoints` for point `p` toward one side (`left` or right);
      `otherNull` says whether the neighbouring point in the list exists and is null. */
  function DummyAt(p: PointState, otherNull: bool, left: bool, c: PathCtx): Dummy {
    var nullVal := if left then p.leftNull else p.rightNull;
    var cliffVal := (if left then p.leftCliff else p.rightCliff).GetOr(0.0);
    var plotX := PlotXOf(p);
    if c.stacking.Stacked? && p.x !in c.stack then StackValuesMissing
    else if cliffVal != 0.0 || nullVal then
      if c.stacking.Unstacked? || c.selfIndex !in c.stack[p.x].points then StackValuesMissing
      else
        var sv := c.stack[p.x].points[c.selfIndex];
        Dummy(CliffTop(plotX, c.getThreshold(Some((if nullVal then sv.0 else sv.1) + cliffVal)), nullVal),
              CliffBottom(plotX, c.getThreshold(Some(sv.0 + cliffVal))))
    else if c.stacking.Unstacked? && otherNull then
      var v := ThresholdPixel(c);
      Dummy(CliffTop(plotX, v, true), CliffBottom(plotX, v))
    else NoDummy
  }

  /** The two point lists built so far, or a thrown error. */
  datatype Lines = Lines(top: seq<PathPoint>, bottom: seq<PathPoint>) | Thrown

  function Push(b: Lines, t: PathPoint, u: PathPoint): Lines {
    if b.Thrown? then Thrown else Lines(b.top + [t], b.bottom + [u])
  }

  function PushDummy(b: Lines, d: Dummy): Lines {
    match d
    case NoDummy => b
    case Dummy(t, u) => Push(b, t, u)
    case StackValuesMissing => Thrown
  }

  /** Whether the loop looks at the point at all. */
  predicate Plotted(p: PointState, c: PathCtx) {
    !p.isNull || c.connectNulls
  }

  /** Whether the point itself goes into the top line: a null point is
      skipped when stacking is off and nulls are connected. */
  predicate Drawn(p: PointState, c: PathCtx) {
    Plotted(p, c) && !(p.isNull && c.stacking.Unstacked? && c.connectNulls)
  }

  function OtherNull(ps: seq<PointState>, j: int): bool {
    0 <= j < |ps| && ps[j].isNull
  }

  /** The bottom partner of the point at index `i`. */
  function MainBottom(ps: seq<PointState>, i: int, c: PathCtx): PathPoint
    requires 0 <= i < |ps|
  {
    BottomPoint(i, PlotXOf(ps[i]), if c.stacking.Stacked? then ps[i].yBottom.GetOr(c.tt) else c.tt)
  }

  /** One iteration of the point loop, at index `i`. */
  function StepAt(ps: seq<PointState>, i: int, c: PathCtx, b: Lines): Lines
    requires 0 <= i < |ps|
  {
    var p := ps[i];
    if !Plotted(p, c) then b
    else
      var b1 := if !c.connectNulls then PushDummy(b, DummyAt(p, OtherNull(ps, i - 1), true, c)) else b;
      var b2 := if Drawn(p, c) then Push(b1, SeriesPoint(p), MainBottom(ps, i, c)) else b1;
      if !c.connectNulls then PushDummy(b2, DummyAt(p, OtherNull(ps, i + 1), false, c)) else b2
  }

  /** The lines after the first `n` iterations. */
  function BuildLines(ps: seq<PointState>, n: nat, c: PathCtx): Lines
    requires n <= |ps|
  {
    if n == 0 then Lines([], []) else StepAt(ps, n - 1, c, BuildLines(ps, n - 1, c))
  }

  /** Once thrown, the error stays. */
  lemma {:induction false} ThrownSticks(ps: seq<PointState>, m: nat, n: nat, c: PathCtx)
    requires m <= n <= |ps|
    requires BuildLines(ps, m, c).Thrown?
    ensures BuildLines(ps, n, c).Thrown?
    decreases n - m
  {
    if m < n {
      ThrownSticks(ps, m + 1, n, c);
    }
  }

  /** Building throws only through a dummy point whose stacked values are missing. */
  lemma {:induction false} BuildLinesTotal(ps: seq<PointState>, n: nat, c: PathCtx)
    requires n <= |ps|
    requires forall i, o, left :: 0 <= i < |ps| ==> !DummyAt(ps[i], o, left, c).StackValuesMissing?
    ensures BuildLines(ps, n, c).Lines?
  {
    if n > 0 {
      var i := n - 1;
      BuildLinesTotal(ps, i, c);
      assert !DummyAt(ps[i], OtherNull(ps, i - 1), true, c).StackValuesMissing?;
      assert !DummyAt(ps[i], OtherNull(ps, i + 1), false, c).StackValuesMissing?;
    }
  }

  predicate IsTop(t: PathPoint) {
    t.SeriesPoint? || t.CliffTop?
  }

  /** The lines are paired entry by entry: a drawn point sits above its
      bottom point with the same plotX, a dummy top above a dummy bottom with
      the same plotX, and a null dummy has its top on its bottom. */
  ghost predicate Paired(ps: seq<PointState>, n: nat, c: PathCtx, top: seq<PathPoint>, bottom: seq<PathPoint>)
    requires n <= |ps|
  {
    && |top| == |bottom|
    && forall k :: 0 <= k < |top| ==>
         && IsTop(top[k])
         && (top[k].SeriesPoint? <==> bottom[k].BottomPoint?)
         && (top[k].SeriesPoint? ==>
               var i := bottom[k].x;
               && 0 <= i < n && top[k].state == ps[i] && Drawn(ps[i], c)
               && bottom[k] == MainBottom(ps, i, c))
         && (top[k].CliffTop? ==>
               && bottom[k].CliffBottom? && bottom[k].plotX == top[k].plotX
               && (top[k].isNull ==> bottom[k].plotY == top[k].plotY))
  }

  lemma PushDummyPaired(ps: seq<PointState>, n: nat, c: PathCtx, b: Lines, p: PointState, o: bool, left: bool)
    requires n <= |ps|
    requires b.Lines? && Paired(ps, n, c, b.top, b.bottom)
    ensures var r := PushDummy(b, DummyAt(p, o, left, c)); r.Lines? ==> Paired(ps, n, c, r.top, r.bottom)
  {
  }

  /** Every built pair of lines is paired. */
  lemma {:induction false} BuildLinesPaired(ps: seq<PointState>, n: nat, c: PathCtx)
    requires n <= |ps|
    ensures var b := BuildLines(ps, n, c); b.Lines? ==> Paired(ps, n, c, b.top, b.bottom)
  {
    if n > 0 {
      var i := n - 1;
      var b := BuildLines(ps, i, c);
      BuildLinesPaired(ps, i, c);
      if b.Lines? {
        var p := ps[i];
        assert Paired(ps, n, c, b.top, b.bottom);
        if Plotted(p, c) {
          var b1 := if !c.connectNulls then PushDummy(b, DummyAt(p, OtherNull(ps, i - 1), true, c)) else b;
          PushDummyPaired(ps, n, c, b, p, OtherNull(ps, i - 1), true);
          var b2 := if Drawn(p, c) then Push(b1, SeriesPoint(p), MainBottom(ps, i, c)) else b1;
          if b2.Lines? {
            assert Paired(ps, n, c, b2.top, b2.bottom);
            PushDummyPaired(ps, n, c, b2, p, OtherNull(ps, i + 1), false);
          }
        }
      }
    }
  }

  /** The points drawn among the first `n`, in order, as the top line lists them. */
  function DrawnTop(ps: seq<PointState>, n: nat, c: PathCtx): seq<PathPoint>
    requires n <= |ps|
  {
    if n == 0 then []
    else DrawnTop(ps, n - 1, c) + (if Drawn(ps[n - 1], c) then [SeriesPoint(ps[n - 1])] else [])
  }

  /** Their bottom partners. */
  function DrawnBottom(ps: seq<PointState>, n: nat, c: PathCtx): seq<PathPoint>
    requires n <= |ps|
  {
    if n == 0 then []
    else DrawnBottom(ps, n - 1, c) + (if Drawn(ps[n - 1], c) then [MainBottom(ps, n - 1, c)] else [])
  }

  /** With `connectNulls` no dummy point is added and nothing throws: the lines
      are exactly the drawn points and their bottoms. */
  lemma {:induction false} ConnectNullsAddsNoDummies(ps: seq<PointState>, n: nat, c: PathCtx)
    requires n <= |ps|
    requires c.connectNulls
    ensures BuildLines(ps, n, c) == Lines(DrawnTop(ps, n, c), DrawnBottom(ps, n, c))
  {
    if n > 0 {
      ConnectNullsAddsNoDummies(ps, n - 1, c);
    }
  }

  /** A point with no cliff and no null flag toward either side. */
  predicate Flat(p: PointState) {
    p.leftCliff.GetOr(0.0) == 0.0 && p.rightCliff.GetOr(0.0) == 0.0 && !p.leftNull && !p.rightNull
  }

  /** Without gaps no dummy point is added: when every point is flat and, with
      stacking, has a stack item at its x, or, without stacking, is not null. */
  lemma {:induction false} NoGapsAddsNoDummies(ps: seq<PointState>, n: nat, c: PathCtx)
    requires n <= |ps|
    requires forall i :: 0 <= i < |ps| ==> Flat(ps[i])
    requires c.stacking.Stacked? ==> forall i :: 0 <= i < |ps| ==> ps[i].x in c.stack
    requires c.stacking.Unstacked? ==> forall i :: 0 <= i < |ps| ==> !ps[i].isNull
    ensures BuildLines(ps, n, c) == Lines(DrawnTop(ps, n, c), DrawnBottom(ps, n, c))
  {
    if n > 0 {
      NoGapsAddsNoDummies(ps, n - 1, c);
      var i := n - 1;
      assert DummyAt(ps[i], OtherNull(ps, i - 1), true, c) == NoDummy;
      assert DummyAt(ps[i], OtherNull(ps, i + 1), false, c) == NoDummy;
    }
  }

  /** All four derived fields are undefined, as they are after the reset. */
  predicate Reset(p: PointState) {
    p.leftCliff == None && p.rightCliff == None && !p.leftNull && !p.rightNull
  }

  /** The states after the reset loop of an unstacked series: every point
      has its derived fields undefined and keeps everything else. */
  function ResetAll(ps: seq<PointState>): (r: seq<PointState>)
    ensures |r| == |ps|
    ensures forall j :: 0 <= j < |ps| ==> Reset(r[j]) && SameBase(r[j], ps[j])
  {
    seq(|ps|, j requires 0 <= j < |ps| => ResetDerived(ps[j]))
  }

  lemma UnstackedDummy(p: PointState, o: bool, left: bool, c: PathCtx)
    requires c.stacking.Unstacked? && Reset(p)
    ensures var d := DummyAt(p, o, left, c);
            && (d.Dummy? <==> o)
            && (d.Dummy? ==> d.top == CliffTop(PlotXOf(p), ThresholdPixel(c), true) &&
                             d.bottom == CliffBottom(PlotXOf(p), ThresholdPixel(c)))
  {
  }

  /** Without stacking and with the derived fields reset, building never
      throws, the lines are equally long, every main bottom point lies on
      `tt`, no null point is ever in the top line (it is skipped whether or
      not nulls are connected), and every dummy is a null point on the
      threshold pixel with its bottom on the same pixel. */
  lemma {:induction false} UnstackedLines(ps: seq<PointState>, n: nat, c: PathCtx)
    requires n <= |ps|
    requires c.stacking.Unstacked?
    requires forall i :: 0 <= i < |ps| ==> Reset(ps[i])
    ensures var b := BuildLines(ps, n, c);
            && b.Lines?
            && |b.top| == |b.bottom|
            && (forall k :: 0 <= k < |b.bottom| && b.bottom[k].BottomPoint? ==> b.bottom[k].plotY == c.tt)
            && (forall k :: 0 <= k < |b.top| && b.top[k].SeriesPoint? ==> !b.top[k].state.isNull)
            && (forall k :: 0 <= k < |b.top| && b.top[k].CliffTop? ==>
                  b.top[k] == CliffTop(b.top[k].plotX, ThresholdPixel(c), true) &&
                  b.bottom[k] == CliffBottom(b.top[k].plotX, ThresholdPixel(c)))
  {
    if n > 0 {
      var i := n - 1;
      UnstackedLines(ps, i, c);
      UnstackedDummy(ps[i], OtherNull(ps, i - 1), true, c);
      UnstackedDummy(ps[i], OtherNull(ps, i + 1), false, c);
    }
  }

  /** With stacking, a dummy point is added toward a side exactly when the
      point has a cliff or a null flag there; its top is on its bottom when
      the flag is set (the area falls down to the series' bottom), and
      otherwise it is the stacked top shifted by the cliff. */
  lemma StackedDummy(p: PointState, o: bool, left: bool, c: PathCtx)
    requires c.stacking.Stacked?
    requires p.x in c.stack && c.selfIndex in c.stack[p.x].points
    ensures var d := DummyAt(p, o, left, c);
            var nullVal := if left then p.leftNull else p.rightNull;
            var cliff := (if left then p.leftCliff else p.rightCliff).GetOr(0.0);
            var sv := c.stack[p.x].points[c.selfIndex];
            && !d.StackValuesMissing?
            && (d.Dummy? <==> cliff != 0.0 || nullVal)
            && (d.Dummy? ==>
                  && d.top == CliffTop(PlotXOf(p), d.top.plotY, nullVal)
                  && d.bottom == CliffBottom(PlotXOf(p), c.getThreshold(Some(sv.0 + cliff)))
                  && (nullVal ==> d.top.plotY == d.bottom.plotY)
                  && (!nullVal ==> d.top.plotY == c.getThreshold(Some(sv.1 + cliff))))
  {
  }

  /** The area path: the top path, then the bottom path with a leading move
      turned into a line, then a close command unless both are empty; its
      `xMap` is the top path's. */
  ghost predicate AreaShape(top: SvgPath, bottom: SvgPath, area: SvgPath) {
    var t, b, a := top.segments, bottom.segments, area.segments;
    && |a| == |t| + |b| + (if |t| + |b| > 0 then 1 else 0)
    && a[..|t|] == t
    && (|b| > 0 ==> a[|t|] == (if b[0].Move? then Line(b[0].x, b[0].y) else b[0]))
    && (forall k :: 0 < k < |b| ==> a[|t| + k] == b[k])
    && (|a| > 0 ==> a[|a| - 1] == Close)
    && area.xMap == top.xMap
  }

  /** Joining the top and the bottom path into the area path. */
  method JoinArea(top: SvgPath, bottom: SvgPath) returns (area: SvgPath)
    ensures AreaShape(top, bottom, area)
    ensures |area.segments| > 0 <==> |top.segments| + |bottom.segments| > 0
  {
    var b := bottom.segments;
    if |b| > 0 && b[0].Move? {
      b := b[0 := Line(b[0].x, b[0].y)];
    }
    var a := top.segments + b;
    if |a| > 0 {
      a := a + [Close];
    }
    area := SvgPath(a, top.xMap);
  }
}

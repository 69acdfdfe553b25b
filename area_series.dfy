/**
 * The area series: its points, whose cliff and null fields the series sets
 * in place, `getStackPoints`, which fills in the x values missing from a
 * stacked series, and `getGraphPath`, which builds the line path and the
 * closed area path.
 */
module Area {
  import opened AreaTypes
  import opened StackWalk
  import opened StackKeys
  import opened StackPoints
  import opened GraphPoints

  /** A point of an area series. The series only ever writes the two cliffs
      and the two null flags; the other fields are fixed here. */
  class AreaPoint {
    const x: int
    const isNull: bool
    const plotX: real
    const rectPlotX: Option<real>
    const plotY: Option<real>
    const yBottom: Option<real>
    var leftCliff: Option<real>
    var rightCliff: Option<real>
    var leftNull: bool
    var rightNull: bool

    function State(): PointState
      reads this
    {
      PointState(x, isNull, plotX, rectPlotX, plotY, yBottom, leftCliff, rightCliff, leftNull, rightNull)
    }

    constructor (s: PointState)
      ensures State() == s
    {
      x, isNull, plotX, rectPlotX, plotY, yBottom := s.x, s.isNull, s.plotX, s.rectPlotX, s.plotY, s.yBottom;
      leftCliff, rightCliff, leftNull, rightNull := s.leftCliff, s.rightCliff, s.leftNull, s.rightNull;
    }

    /** The null point `getStackPoints` inserts at an x value the series lacks. */
    constructor Synthetic(x: int, plotX: real, y: real)
      ensures State() == PointState(x, true, plotX, None, Some(y), Some(y), None, None, false, false)
    {
      this.x, isNull, this.plotX, rectPlotX, plotY, yBottom := x, true, plotX, None, Some(y), Some(y);
      leftCliff, rightCliff, leftNull, rightNull := None, None, false, false;
    }
  }

  /** The states of a list of points. */
  ghost function Snap(points: seq<AreaPoint>): (r: seq<PointState>)
    reads points
    ensures |r| == |points|
    ensures forall j :: 0 <= j < |points| ==> r[j] == points[j].State()
  {
    if points == [] then []
    else Snap(points[..|points| - 1]) + [points[|points| - 1].State()]
  }

  /** `pointMap`: each x value mapped to the last point with that x. */
  function PointObjects(points: seq<AreaPoint>): map<int, AreaPoint> {
    if points == [] then map[]
    else PointObjects(points[..|points| - 1])[points[|points| - 1].x := points[|points| - 1]]
  }

  lemma PointObjectsSnoc(points: seq<AreaPoint>, i: nat)
    requires i < |points|
    ensures PointObjects(points[..i + 1]) == PointObjects(points[..i])[points[i].x := points[i]]
  {
    assert points[..i + 1][..i] == points[..i];
  }

  /** The object map and the index map agree: each x maps to the point at
      the index `PointIndex` gives. */
  lemma {:induction false} PointObjectsAgree(points: seq<AreaPoint>, ps: seq<PointState>)
    requires |ps| == |points| && forall j :: 0 <= j < |ps| ==> ps[j].x == points[j].x
    ensures PointObjects(points).Keys == PointIndex(ps).Keys
    ensures forall x :: x in PointIndex(ps) ==> PointObjects(points)[x] == points[PointIndex(ps)[x]]
    decreases |points|
  {
    if points != [] {
      var n := |points| - 1;
      PointObjectsAgree(points[..n], ps[..n]);
    }
  }

  /** A call that returns a value, or throws. */
  datatype Outcome<T> = Returned(value: T) | Threw

  class AreaSeries {
    const index: int
    const options: AreaOptions
    const yAxis: YAxis
    const xAxis: XAxis
    const linePath: LinePath
    var areaPath: Option<SvgPath>

    constructor (index: int, options: AreaOptions, yAxis: YAxis, xAxis: XAxis, linePath: LinePath)
      ensures this.index == index && this.options == options && this.yAxis == yAxis
      ensures this.xAxis == xAxis && this.linePath == linePath && areaPath == None
    {
      this.index, this.options, this.yAxis, this.xAxis, this.linePath := index, options, yAxis, xAxis, linePath;
      areaPath := None;
    }

    /** The first loop of `getStackPoints`: clear the null flags of every
        point and map each x value to the last point with that x. */
    method ClearNullsAndIndex(points: seq<AreaPoint>) returns (pointMap: map<int, AreaPoint>)
      modifies points
      ensures forall j :: 0 <= j < |points| ==> points[j].State() == ClearNulls(old(points[j].State()))
      ensures pointMap == PointObjects(points)
    {
      ghost var ps := Snap(points);
      pointMap := map[];
      var i := 0;
      while i < |points|
        invariant 0 <= i <= |points|
        invariant ClearedUpTo(points, ps, i)
        invariant pointMap == PointObjects(points[..i])
      {
        PointObjectsSnoc(points, i);
        ClearOne(points, ps, i);
        pointMap := pointMap[points[i].x := points[i]];
        i := i + 1;
      }
      assert points[..|points|] == points;
    }

    /** The points before `i` have their null flags cleared; the later ones
        have them cleared or not yet (a point may occur twice in the list). */
    ghost predicate ClearedUpTo(points: seq<AreaPoint>, ps: seq<PointState>, i: int)
      reads points
    {
      && |ps| == |points| && 0 <= i <= |points|
      && (forall j, j' :: 0 <= j < |points| && 0 <= j' < |points| && points[j] == points[j'] ==> ps[j] == ps[j'])
      && (forall j :: 0 <= j < i ==> points[j].State() == ClearNulls(ps[j]))
      && (forall j :: i <= j < |points| ==> points[j].State() == ps[j] || points[j].State() == ClearNulls(ps[j]))
    }

    /** One iteration of the first loop: `points[i].leftNull = points[i].rightNull = void 0`. */
    method ClearOne(points: seq<AreaPoint>, ghost ps: seq<PointState>, i: int)
      requires 0 <= i < |points|
      requires ClearedUpTo(points, ps, i)
      modifies points[i]
      ensures ClearedUpTo(points, ps, i + 1)
    {
      points[i].leftNull, points[i].rightNull := false, false;
    }

    /** The `[-1, 1]` loop of `getStackPoints` for the point kept at key
        position `idx`: set its cliffs, and its null flags where this series
        is missing next door. The flags start cleared. */
    method SetCliffs(point: AreaPoint, keys: seq<int>, idx: int)
      requires KeysInStack(yAxis.stack, keys) && 0 <= idx < |keys|
      requires !point.leftNull && !point.rightNull
      modifies point
      ensures point.State() == Kept(old(point.State()), yAxis, index, keys, idx)
    {
      var seriesIndex := IndexOfSeries(yAxis.series, index);
      var upOrDown := Step(yAxis.reversedStacks);
      var here := yAxis.stack[keys[idx]];
      if idx - 1 >= 0 {
        var cliff, missingSelf := WalkNeighbour(yAxis.series, seriesIndex, upOrDown, index, here, yAxis.stack[keys[idx - 1]]);
        if missingSelf {
          point.leftNull := true;
        }
        point.leftCliff := Some(cliff);
      } else {
        point.leftCliff := Some(0.0);
      }
      if idx + 1 < |keys| {
        var cliff, missingSelf := WalkNeighbour(yAxis.series, seriesIndex, upOrDown, index, here, yAxis.stack[keys[idx + 1]]);
        if missingSelf {
          point.rightNull := true;
        }
        point.rightCliff := Some(cliff);
      } else {
        point.rightCliff := Some(0.0);
      }
    }

    /** `getStackPoints`: with stacking on, one point per stack key whose total
        is not null, in ascending x order; the series' own point where it has
        a non-null one, with its cliffs and null flags recomputed, and a new
        null point otherwise. With stacking off the result is empty. */
    method GetStackPoints(points: seq<AreaPoint>) returns (segment: seq<AreaPoint>)
      modifies points
      ensures Snap(segment) == StackSegment(old(Snap(points)), options.stacking, yAxis, xAxis, index)
      ensures forall j :: 0 <= j < |points| ==> SameBase(points[j].State(), old(points[j].State()))
      ensures forall j :: 0 <= j < |points| && points[j] !in segment ==>
                points[j].State() == if options.stacking.Stacked? then ClearNulls(old(points[j].State()))
                                     else old(points[j].State())
      ensures KeptAreInputs(points, old(Snap(points)), segment)
      ensures options.stacking.Stacked? ==> StackedInputsEnd(points, old(Snap(points)), Snap(points))
    {
      segment := [];
      if options.stacking.Unstacked? {
        return;
      }
      ghost var ps := Snap(points);
      var pointMap := ClearNullsAndIndex(points);
      PointObjectsAgree(points, ps);
      var collected := CollectKeys(yAxis.stack);
      var keys := SortNumeric(collected);
      SortedCollectedKeys(yAxis.stack, collected);
      OrderedKeysInStack(yAxis.stack);
      assert SegmentSoFar(points, ps, keys, segment);
      segment := FillSegment(points, ps, pointMap, keys);
      SegmentDone(points, ps, keys, segment);
      InputPointsAfter(points, ps, keys, segment);
      SegmentInputs(points, ps, keys, segment);
    }

    /** `keys.forEach(...)`: emit one point per key. */
    method FillSegment(points: seq<AreaPoint>, ghost ps: seq<PointState>, pointMap: map<int, AreaPoint>, keys: seq<int>)
      returns (segment: seq<AreaPoint>)
      requires SegmentSoFar(points, ps, keys, [])
      requires pointMap.Keys == PointIndex(ps).Keys
      requires forall x :: x in pointMap ==> pointMap[x] == points[PointIndex(ps)[x]]
      modifies points
      ensures |segment| == |keys| && SegmentSoFar(points, ps, keys, segment)
    {
      segment := [];
      var idx := 0;
      while idx < |keys|
        invariant 0 <= idx <= |keys| && |segment| == idx
        invariant SegmentSoFar(points, ps, keys, segment)
      {
        var x := keys[idx];
        if x in pointMap && !pointMap[x].isNull {
          segment := KeepPoint(points, ps, keys, segment, pointMap[x]);
        } else {
          var point := MissingPoint(x);
          segment := AddMissingPoint(points, ps, keys, segment, point);
        }
        idx := idx + 1;
      }
    }

    /** The loop invariant of `keys.forEach`: the points emitted so far have
        the states the specification gives, a kept point is the series' own
        object and a missing one is a new object, and every input point not
        emitted still only has its null flags cleared. */
    ghost predicate SegmentSoFar(points: seq<AreaPoint>, ps: seq<PointState>, keys: seq<int>, segment: seq<AreaPoint>)
      reads points, segment
    {
      && |ps| == |points| && |segment| <= |keys|
      && (forall j :: 0 <= j < |points| ==> points[j].x == ps[j].x)
      && KeysInStack(yAxis.stack, keys) && StrictlyAscending(keys)
      && (forall k :: 0 <= k < |segment| ==> segment[k].State() == Entry(ps, yAxis, xAxis, index, keys, k))
      && (forall k :: 0 <= k < |segment| ==>
            if HasPointAt(ps, keys[k]) then segment[k] == points[PointIndex(ps)[keys[k]]] else segment[k] !in points)
      && (forall j :: 0 <= j < |points| ==> points[j] in segment || points[j].State() == ClearNulls(ps[j]))
    }

    /** `segment.push(pointMap[x])` after setting the point's cliffs and null flags. */
    method KeepPoint(points: seq<AreaPoint>, ghost ps: seq<PointState>, keys: seq<int>, segment: seq<AreaPoint>,
                     point: AreaPoint) returns (segment': seq<AreaPoint>)
      requires SegmentSoFar(points, ps, keys, segment) && |segment| < |keys|
      requires HasPointAt(ps, keys[|segment|]) && point == points[PointIndex(ps)[keys[|segment|]]]
      modifies point
      ensures segment' == segment + [point]
      ensures SegmentSoFar(points, ps, keys, segment')
    {
      var idx := |segment|;
      var j := PointIndex(ps)[keys[idx]];
      forall k | 0 <= k < idx ensures segment[k] != point {
        if HasPointAt(ps, keys[k]) {
          assert segment[k].x == keys[k] < keys[idx] == point.x;
        }
      }
      assert point.State() == ClearNulls(ps[j]);
      SetCliffs(point, keys, idx);
      segment' := segment + [point];
      assert segment'[idx].State() == Entry(ps, yAxis, xAxis, index, keys, idx);
    }

    /** The null point `getStackPoints` makes for a key the series lacks: at
        the translated top of the first series with an entry at that key, met
        walking from this series in steps of `upOrDown` (up when stacks are
        reversed, down otherwise), or at the translated 0. */
    method MissingPoint(x: int) returns (point: AreaPoint)
      requires x in yAxis.stack
      ensures fresh(point) && point.State() == Synthetic(x, yAxis, xAxis, index)
    {
      var y := FindStackedTop(yAxis.series, IndexOfSeries(yAxis.series, index), Step(yAxis.reversedStacks), yAxis.stack[x]);
      y := yAxis.translate(y);
      point := new AreaPoint.Synthetic(x, xAxis.translate(x), y);
    }

    /** `segment.push(...)` of the null point made for a key the series lacks. */
    method AddMissingPoint(points: seq<AreaPoint>, ghost ps: seq<PointState>, keys: seq<int>, segment: seq<AreaPoint>,
                           point: AreaPoint) returns (segment': seq<AreaPoint>)
      requires SegmentSoFar(points, ps, keys, segment) && |segment| < |keys|
      requires !HasPointAt(ps, keys[|segment|]) && point !in points
      requires point.State() == Synthetic(keys[|segment|], yAxis, xAxis, index)
      ensures segment' == segment + [point]
      ensures SegmentSoFar(points, ps, keys, segment')
    {
      segment' := segment + [point];
      assert forall k :: 0 <= k < |segment| ==> segment'[k] == segment[k];
      assert segment'[|segment|].State() == Entry(ps, yAxis, xAxis, index, keys, |segment|);
    }

    /** An input point is either emitted, with only its derived fields
        changed, or left with its null flags cleared. */
    lemma InputPointsAfter(points: seq<AreaPoint>, ps: seq<PointState>, keys: seq<int>, segment: seq<AreaPoint>)
      requires SegmentSoFar(points, ps, keys, segment)
      requires forall j, j' :: 0 <= j < |points| && 0 <= j' < |points| && points[j] == points[j'] ==> ps[j] == ps[j']
      ensures forall j :: 0 <= j < |points| ==> SameBase(points[j].State(), ps[j])
      ensures forall j :: 0 <= j < |points| && points[j] !in segment ==> points[j].State() == ClearNulls(ps[j])
    {
      forall j | 0 <= j < |points| && points[j] in segment ensures SameBase(points[j].State(), ps[j]) {
        var k :| 0 <= k < |segment| && segment[k] == points[j];
        if HasPointAt(ps, keys[k]) {
          assert ps[PointIndex(ps)[keys[k]]] == ps[j];
        } else {
          assert false;
        }
      }
    }

    /** A kept entry is the input object `pointMap` holds for its x; a
        synthetic entry is none of the input points. */
    ghost predicate KeptAreInputs(points: seq<AreaPoint>, ps: seq<PointState>, segment: seq<AreaPoint>) {
      && |ps| == |points|
      && forall k :: 0 <= k < |segment| ==>
           if HasPointAt(ps, segment[k].x) then segment[k] == points[PointIndex(ps)[segment[k].x]]
           else segment[k] !in points
    }

    /** The state `s` an input point `j` ends in after `getStackPoints` with
        stacking: the object `pointMap` holds for a live key where the series
        has a non-null point gets the cliffs and null flags of that key; every
        other input point only has its null flags cleared. */
    ghost predicate StackedInputEnd(points: seq<AreaPoint>, ps: seq<PointState>, j: int, s: PointState)
      requires |ps| == |points| && 0 <= j < |points|
    {
      OrderedKeysInStack(yAxis.stack);
      var keys := OrderedKeys(yAxis.stack);
      var x := ps[j].x;
      if x in LiveKeys(yAxis.stack) && HasPointAt(ps, x) && points[PointIndex(ps)[x]] == points[j]
      then exists k :: 0 <= k < |keys| && keys[k] == x && s == Kept(ps[j], yAxis, index, keys, k)
      else s == ClearNulls(ps[j])
    }

    ghost predicate StackedInputsEnd(points: seq<AreaPoint>, ps: seq<PointState>, cur: seq<PointState>) {
      && |ps| == |points| && |cur| == |points|
      && forall j :: 0 <= j < |points| ==> StackedInputEnd(points, ps, j, cur[j])
    }

    /** Once every key is handled, the kept entries are the input objects and
        every input point is in its end state. */
    lemma SegmentInputs(points: seq<AreaPoint>, ps: seq<PointState>, keys: seq<int>, segment: seq<AreaPoint>)
      requires SegmentSoFar(points, ps, keys, segment) && |segment| == |keys|
      requires keys == OrderedKeys(yAxis.stack)
      requires AliasConsistent(points, ps)
      ensures KeptAreInputs(points, ps, segment)
      ensures StackedInputsEnd(points, ps, Snap(points))
    {
      forall k | 0 <= k < |segment| ensures segment[k].x == keys[k] {
        SegmentEntryAt(ps, yAxis, xAxis, index, keys, k);
      }
      var cur := Snap(points);
      forall j | 0 <= j < |points| ensures StackedInputEnd(points, ps, j, cur[j]) {
        var x := ps[j].x;
        if x in LiveKeys(yAxis.stack) && HasPointAt(ps, x) && points[PointIndex(ps)[x]] == points[j] {
          var k :| 0 <= k < |keys| && keys[k] == x;
          assert segment[k] == points[j];
          assert ps[PointIndex(ps)[x]] == ps[j];
        }
      }
    }

    lemma SegmentDone(points: seq<AreaPoint>, ps: seq<PointState>, keys: seq<int>, segment: seq<AreaPoint>)
      requires SegmentSoFar(points, ps, keys, segment) && |segment| == |keys|
      ensures Snap(segment) == FilledSegment(ps, yAxis, xAxis, index, keys)
    {
    }

    /** `pick(options.connectNulls, stacking === 'percent')` */
    function ConnectNulls(): bool {
      options.connectNulls.GetOr(options.stacking == Stacked(true))
    }

    /** `Math.round(yAxis.getThreshold(options.threshold))` */
    function TranslatedThreshold(): real {
      Round(yAxis.getThreshold(options.threshold)) as real
    }

    function Ctx(): PathCtx {
      PathCtx(options.stacking, ConnectNulls(), options.threshold, TranslatedThreshold(),
              yAxis.getThreshold, yAxis.stack, index)
    }

    /** The point states the loop of `getGraphPath` sees, given the states of
        the points passed in: the stack points with stacking, and the points
        with their derived fields reset without. */
    ghost function LineInput(ps: seq<PointState>): seq<PointState> {
      if options.stacking.Stacked? then StackSegment(ps, options.stacking, yAxis, xAxis, index) else ResetAll(ps)
    }

    /** Without stacking the point loop never throws. */
    lemma UnstackedNeverThrows(ps: seq<PointState>)
      requires options.stacking.Unstacked?
      ensures BuildLines(LineInput(ps), |ps|, Ctx()).Lines?
    {
      UnstackedLines(ResetAll(ps), |ps|, Ctx());
    }

    /** With stacking the point loop never throws when the stack registry
        holds this series' values at every key where the series has a
        non-null point. */
    lemma StackedNeverThrows(ps: seq<PointState>)
      requires options.stacking.Stacked?
      requires forall x :: x in yAxis.stack && HasPointAt(ps, x) ==> index in yAxis.stack[x].points
      ensures BuildLines(LineInput(ps), |LineInput(ps)|, Ctx()).Lines?
    {
      var keys := OrderedKeys(yAxis.stack);
      OrderedKeysInStack(yAxis.stack);
      var seg := LineInput(ps);
      var c := Ctx();
      forall i, o, left | 0 <= i < |seg| ensures !DummyAt(seg[i], o, left, c).StackValuesMissing? {
        SegmentEntryAt(ps, yAxis, xAxis, index, keys, i);
        if !seg[i].isNull {
          StackedDummy(seg[i], o, left, c);
        }
      }
      BuildLinesTotal(seg, |seg|, c);
    }

    /** The lines `getGraphPath` draws do not depend on the cliff and null
        fields the points carried in: with stacking they are recomputed,
        without they are reset first. */
    lemma GraphPathIgnoresStaleFields(ps: seq<PointState>, qs: seq<PointState>)
      requires |ps| == |qs|
      requires forall j :: 0 <= j < |ps| ==> SameBase(ps[j], qs[j])
      ensures LineInput(ps) == LineInput(qs)
    {
      if options.stacking.Stacked? {
        SegmentIgnoresStaleFields(ps, qs, options.stacking, yAxis, xAxis, index);
      } else {
        assert forall j :: 0 <= j < |ps| ==> ResetAll(ps)[j] == ResetAll(qs)[j];
      }
    }

    /** The states `cur` have their derived fields reset before `i`; the later
        ones have them reset or not yet (a point may occur twice in the list). */
    ghost predicate ResetPrefix(cur: seq<PointState>, ps: seq<PointState>, i: int) {
      && |cur| == |ps| && 0 <= i <= |ps|
      && (forall j :: 0 <= j < i ==> cur[j] == ResetDerived(ps[j]))
      && (forall j :: i <= j < |ps| ==> cur[j] == ps[j] || cur[j] == ResetDerived(ps[j]))
    }

    /** The same object occurs with the same state. */
    ghost predicate AliasConsistent(points: seq<AreaPoint>, ps: seq<PointState>) {
      && |ps| == |points|
      && (forall j, j' :: 0 <= j < |points| && 0 <= j' < |points| && points[j] == points[j'] ==> ps[j] == ps[j'])
    }

    /** `points[i].leftCliff = points[i].rightCliff = points[i].leftNull = points[i].rightNull = void 0` */
    method ResetOne(points: seq<AreaPoint>, ghost ps: seq<PointState>, i: int)
      requires 0 <= i < |points|
      requires AliasConsistent(points, ps) && ResetPrefix(Snap(points), ps, i)
      modifies points[i]
      ensures ResetPrefix(Snap(points), ps, i + 1)
    {
      ghost var before := Snap(points);
      points[i].leftCliff, points[i].rightCliff := None, None;
      points[i].leftNull, points[i].rightNull := false, false;
      ghost var after := Snap(points);
      forall j | 0 <= j < |points|
        ensures after[j] == (if points[j] == points[i] then ResetDerived(ps[j]) else before[j])
      {
      }
    }

    /** `addDummyPoints(i, otherI, side)`: push the dummy points for one side
        of `point`, or throw. */
    method AddDummyPoints(point: AreaPoint, otherNull: bool, left: bool, c: PathCtx,
                          graphPoints: seq<PathPoint>, bottomPoints: seq<PathPoint>)
      returns (graphPoints': seq<PathPoint>, bottomPoints': seq<PathPoint>, threw: bool)
      ensures var r := PushDummy(Lines(graphPoints, bottomPoints), DummyAt(point.State(), otherNull, left, c));
              if threw then r == Thrown else r == Lines(graphPoints', bottomPoints')
    {
      var d := DummyAt(point.State(), otherNull, left, c);
      graphPoints', bottomPoints', threw := graphPoints, bottomPoints, false;
      match d {
        case NoDummy =>
        case Dummy(top, bottom) =>
          graphPoints', bottomPoints' := graphPoints + [top], bottomPoints + [bottom];
        case StackValuesMissing =>
          threw := true;
      }
    }

    /** The body of the point loop of `getGraphPath` for the point at index `i`. */
    method PointStep(point: AreaPoint, i: int, prevNull: bool, nextNull: bool, c: PathCtx,
                     ghost ss: seq<PointState>, graphPoints: seq<PathPoint>, bottomPoints: seq<PathPoint>)
      returns (graphPoints': seq<PathPoint>, bottomPoints': seq<PathPoint>, threw: bool)
      requires 0 <= i < |ss| && ss[i] == point.State()
      requires prevNull == OtherNull(ss, i - 1) && nextNull == OtherNull(ss, i + 1)
      requires BuildLines(ss, i, c) == Lines(graphPoints, bottomPoints)
      ensures var r := BuildLines(ss, i + 1, c);
              if threw then r == Thrown else r == Lines(graphPoints', bottomPoints')
    {
      graphPoints', bottomPoints', threw := graphPoints, bottomPoints, false;
      var isNull := point.isNull;
      var plotX := point.rectPlotX.GetOr(point.plotX);
      var yBottom := if c.stacking.Stacked? then point.yBottom.GetOr(c.tt) else c.tt;
      if !isNull || c.connectNulls {
        if !c.connectNulls {
          graphPoints', bottomPoints', threw := AddDummyPoints(point, prevNull, true, c, graphPoints', bottomPoints');
          if threw {
            return;
          }
        }
        if !(isNull && c.stacking.Unstacked? && c.connectNulls) {
          graphPoints' := graphPoints' + [SeriesPoint(point.State())];
          bottomPoints' := bottomPoints' + [BottomPoint(i, plotX, yBottom)];
        }
        if !c.connectNulls {
          graphPoints', bottomPoints', threw := AddDummyPoints(point, nextNull, false, c, graphPoints', bottomPoints');
        }
      }
    }

    /** What the point loop of `getGraphPath` keeps: with stacking the loop
        points have the states `ss` lists; without, they are the points passed
        in, reset up to `i`. The points passed in only ever change their
        derived fields. */
    ghost predicate LoopFrame(points: seq<AreaPoint>, pts: seq<AreaPoint>, c: PathCtx, os: seq<PointState>,
                              ss: seq<PointState>, i: int)
      reads points, pts
    {
      && |ss| == |pts| && |os| == |points| && 0 <= i <= |pts|
      && (forall j :: 0 <= j < |pts| ==> pts[j].isNull == ss[j].isNull)
      && (c.stacking.Stacked? ==> Snap(pts) == ss)
      && (c.stacking.Unstacked? ==>
            pts == points && ss == ResetAll(os) && AliasConsistent(points, os) && ResetPrefix(Snap(points), os, i))
      && SameBases(Snap(points), os)
    }

    ghost predicate SameBases(cur: seq<PointState>, os: seq<PointState>) {
      |cur| == |os| && forall j :: 0 <= j < |cur| ==> SameBase(cur[j], os[j])
    }

    /** The reset at the head of the loop body, done only when stacking is off. */
    method ResetIfUnstacked(points: seq<AreaPoint>, pts: seq<AreaPoint>, c: PathCtx, ghost os: seq<PointState>,
                            ghost ss: seq<PointState>, i: int)
      requires LoopFrame(points, pts, c, os, ss, i) && i < |pts|
      modifies if c.stacking.Unstacked? && i < |points| then {points[i]} else {}
      ensures LoopFrame(points, pts, c, os, ss, i + 1)
      ensures pts[i].State() == ss[i]
    {
      if c.stacking.Unstacked? {
        ResetOne(points, os, i);
      }
    }

    /** One pass of the point loop of `getGraphPath`. */
    method LoopBody(points: seq<AreaPoint>, pts: seq<AreaPoint>, c: PathCtx, ghost os: seq<PointState>,
                    ghost ss: seq<PointState>, i: int, graphPoints: seq<PathPoint>, bottomPoints: seq<PathPoint>)
      returns (graphPoints': seq<PathPoint>, bottomPoints': seq<PathPoint>, threw: bool)
      requires LoopFrame(points, pts, c, os, ss, i) && i < |pts|
      requires BuildLines(ss, i, c) == Lines(graphPoints, bottomPoints)
      modifies if c.stacking.Unstacked? && i < |points| then {points[i]} else {}
      ensures LoopFrame(points, pts, c, os, ss, i + 1)
      ensures var r := BuildLines(ss, i + 1, c);
              if threw then r == Thrown else r == Lines(graphPoints', bottomPoints')
    {
      ResetIfUnstacked(points, pts, c, os, ss, i);
      var prevNull := i - 1 >= 0 && pts[i - 1].isNull;
      var nextNull := i + 1 < |pts| && pts[i + 1].isNull;
      graphPoints', bottomPoints', threw := PointStep(pts[i], i, prevNull, nextNull, c, ss, graphPoints, bottomPoints);
    }

    /** The point loop of `getGraphPath`. */
    method PointLoop(points: seq<AreaPoint>, pts: seq<AreaPoint>, c: PathCtx, ghost os: seq<PointState>,
                     ghost ss: seq<PointState>)
      returns (graphPoints: seq<PathPoint>, bottomPoints: seq<PathPoint>, threw: bool, ghost stop: int)
      requires |ss| == |pts| && LoopFrame(points, pts, c, os, ss, 0)
      modifies if c.stacking.Unstacked? then points else []
      ensures threw <==> BuildLines(ss, |ss|, c).Thrown?
      ensures !threw ==> BuildLines(ss, |ss|, c) == Lines(graphPoints, bottomPoints)
      ensures LoopFrame(points, pts, c, os, ss, stop)
      ensures !threw ==> stop == |pts|
    {
      graphPoints, bottomPoints, threw := [], [], false;
      var i := 0;
      while i < |pts| && !threw
        invariant LoopFrame(points, pts, c, os, ss, i)
        invariant if threw then BuildLines(ss, i, c).Thrown? else BuildLines(ss, i, c) == Lines(graphPoints, bottomPoints)
      {
        graphPoints, bottomPoints, threw := LoopBody(points, pts, c, os, ss, i, graphPoints, bottomPoints);
        i := i + 1;
      }
      if threw {
        ThrownSticks(ss, i, |ss|, c);
      }
      stop := i;
    }

    /** What the loop frame says once the walk stops. */
    lemma LoopFrameDone(points: seq<AreaPoint>, pts: seq<AreaPoint>, c: PathCtx, os: seq<PointState>,
                        ss: seq<PointState>, i: int)
      requires LoopFrame(points, pts, c, os, ss, i)
      ensures SameBases(Snap(points), os)
      ensures c.stacking.Unstacked? && i == |pts| ==> Snap(points) == ss
    {
    }

    /** The points the loop walks: the input itself, or the stacked segment
        when stacking is on. */
    method PreparePoints(points: seq<AreaPoint>, c: PathCtx, ghost os: seq<PointState>, ghost ss: seq<PointState>)
      returns (pts: seq<AreaPoint>)
      requires os == Snap(points) && ss == LineInput(os) && c.stacking == options.stacking
      modifies points
      ensures LoopFrame(points, pts, c, os, ss, 0)
      ensures c.stacking.Stacked? ==> StackedInputsEnd(points, os, Snap(points))
    {
      pts := points;
      if options.stacking.Stacked? {
        pts := GetStackPoints(points);
      }
    }

    /** Join the top line and the reversed bottom line into the closed area path. */
    method StoreArea(graphPoints: seq<PathPoint>, bottomPoints: seq<PathPoint>)
      modifies this
      ensures areaPath.Some?
      ensures AreaShape(linePath(graphPoints, false, true, true), linePath(bottomPoints, true, true, true),
                        areaPath.value)
    {
      var topPath := linePath(graphPoints, false, true, true);
      var bottomPath := linePath(bottomPoints, true, true, true);
      var area := JoinArea(topPath, bottomPath);
      areaPath := Some(area);
    }

    /** The stack points, when stacking is on, and the point loop. */
    method DrawLines(points: seq<AreaPoint>, c: PathCtx, ghost os: seq<PointState>, ghost ss: seq<PointState>)
      returns (graphPoints: seq<PathPoint>, bottomPoints: seq<PathPoint>, threw: bool)
      requires os == Snap(points) && ss == LineInput(os) && c.stacking == options.stacking
      modifies points
      ensures threw <==> BuildLines(ss, |ss|, c).Thrown?
      ensures !threw ==> BuildLines(ss, |ss|, c) == Lines(graphPoints, bottomPoints)
      ensures SameBases(Snap(points), os)
      ensures !threw && c.stacking.Unstacked? ==> Snap(points) == ss
      ensures c.stacking.Stacked? ==> StackedInputsEnd(points, os, Snap(points))
    {
      var pts := PreparePoints(points, c, os, ss);
      ghost var mid := Snap(points);
      ghost var stop;
      graphPoints, bottomPoints, threw, stop := PointLoop(points, pts, c, os, ss);
      LoopFrameDone(points, pts, c, os, ss, stop);
      assert c.stacking.Stacked? ==> Snap(points) == mid;
    }

    /** `getGraphPath`: build the top and bottom lines, store the closed area
        path in `areaPath` and return the line path; or throw, when a gap
        needs stacked values the stack registry does not have. */
    method GetGraphPath(points: seq<AreaPoint>) returns (outcome: Outcome<SvgPath>)
      modifies this, points
      ensures var ss := LineInput(old(Snap(points)));
              var lines := BuildLines(ss, |ss|, Ctx());
              && (outcome.Threw? <==> lines.Thrown?)
              && (outcome.Returned? ==>
                    && outcome.value == linePath(lines.top, false, false, ConnectNulls())
                    && areaPath.Some?
                    && AreaShape(linePath(lines.top, false, true, true), linePath(lines.bottom, true, true, true),
                                 areaPath.value))
              && (outcome.Threw? ==> areaPath == old(areaPath))
      ensures SameBases(Snap(points), old(Snap(points)))
      ensures outcome.Returned? && options.stacking.Unstacked? ==> Snap(points) == ResetAll(old(Snap(points)))
      ensures options.stacking.Stacked? ==> StackedInputsEnd(points, old(Snap(points)), Snap(points))
    {
      var c := Ctx();
      ghost var os := Snap(points);
      ghost var ss := LineInput(os);
      var graphPoints, bottomPoints, threw := DrawLines(points, c, os, ss);
      if threw {
        return Threw;
      }
      ghost var cur := Snap(points);
      StoreArea(graphPoints, bottomPoints);
      assert Snap(points) == cur;
      var graphPath := linePath(graphPoints, false, false, c.connectNulls);
      outcome := Returned(graphPath);
    }
  }
}

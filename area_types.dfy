/**
 * Value types shared by the area-series model: the stack registry of a y axis,
 * the series sharing that axis, snapshots of point state, the points handed to
 * the line path builder, and SVG path commands.
 */
module AreaTypes {

  datatype Option<+T> = None | Some(value: T) {
    /** `pick(value, default)`: the value when it is defined, else the default. */
    function GetOr(default: T): T {
      if Some? then value else default
    }
  }

  /** One stack item of the registry, at one x value: per series index the
      `[bottom, top]` pair that series occupies, and the stack total
      (`None` stands for a total of `null`). */
  datatype StackItem = StackItem(points: map<int, (real, real)>, total: Option<real>)

  /** `yAxis.stacking.stacks[stackKey]`: stack items by x value. */
  type Stack = map<int, StackItem>

  /** An entry of `yAxis.series`: the series' chart-wide index and whether it is visible. */
  datatype AxisSeries = AxisSeries(index: int, visible: bool)

  /** Snapshot of an area point. `leftNull`/`rightNull` are `false` where the
      source has `undefined`; the cliffs are `None` where it has `undefined`. */
  datatype PointState = PointState(
    x: int,
    isNull: bool,
    plotX: real,
    rectPlotX: Option<real>,
    plotY: Option<real>,
    yBottom: Option<real>,
    leftCliff: Option<real>,
    rightCliff: Option<real>,
    leftNull: bool,
    rightNull: bool)

  /** `pick(point.rectPlotX, point.plotX)` */
  function PlotXOf(p: PointState): real {
    p.rectPlotX.GetOr(p.plotX)
  }

  /** The state with `leftNull` and `rightNull` cleared. */
  function ClearNulls(p: PointState): (r: PointState)
    ensures !r.leftNull && !r.rightNull
    ensures r.(leftNull := p.leftNull, rightNull := p.rightNull) == p
  {
    p.(leftNull := false, rightNull := false)
  }

  /** The state with all four derived fields reset to undefined. */
  function ResetDerived(p: PointState): (r: PointState)
    ensures r.leftCliff == None && r.rightCliff == None && !r.leftNull && !r.rightNull
    ensures r.(leftCliff := p.leftCliff, rightCliff := p.rightCliff,
               leftNull := p.leftNull, rightNull := p.rightNull) == p
  {
    p.(leftCliff := None, rightCliff := None, leftNull := false, rightNull := false)
  }

  /** Two states agree on everything except the derived cliff and null fields. */
  predicate SameBase(p: PointState, q: PointState) {
    ResetDerived(p) == ResetDerived(q)
  }

  /** A point as the line path builder receives it. */
  datatype PathPoint =
    | SeriesPoint(state: PointState)                       // `graphPoints.push(points[i])`
    | CliffTop(plotX: real, plotY: real, isNull: bool)      // a dummy top point, `isCliff: true`
    | BottomPoint(x: int, plotX: real, plotY: real)         // `{ x: i, plotX, plotY: yBottom }`
    | CliffBottom(plotX: real, plotY: real)                 // a dummy bottom point, `doCurve: false`

  datatype Segment = Move(x: real, y: real) | Line(x: real, y: real) | Curve(coords: seq<real>) | Close

  /** An SVG path: its commands and the optional `xMap` property. */
  datatype SvgPath = SvgPath(segments: seq<Segment>, xMap: Option<seq<real>>)

  /** `LineSeries.prototype.getGraphPath`, called with the point list, whether
      the list carries `reversed = true`, `nullsAsZeroes` and `connectCliffs`. */
  type LinePath = (seq<PathPoint>, bool, bool, bool) -> SvgPath

  /** `options.stacking`: undefined, or a stacking mode (`percent` or another one). */
  datatype Stacking = Unstacked | Stacked(percent: bool)

  datatype AreaOptions = AreaOptions(stacking: Stacking, connectNulls: Option<bool>, threshold: Option<real>)

  /** The y axis as the core sees it: its series, `options.reversedStacks`,
      the stack of this series' stack key, and the translators
      `getThreshold` and `translate(y, 0, 1, 0, 1)`. */
  datatype YAxis = YAxis(
    series: seq<AxisSeries>,
    reversedStacks: bool,
    stack: Stack,
    getThreshold: Option<real> -> real,
    translate: real -> real)

  /** The x axis as the core sees it: `translate(x, 0, 0, 0, 1)`. */
  datatype XAxis = XAxis(translate: int -> real)

  /** `Math.round`: halves round up. */
  function Round(r: real): (n: int)
    ensures r - 0.5 < n as real <= r + 0.5
  {
    (r + 0.5).Floor
  }
}

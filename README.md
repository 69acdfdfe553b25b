# Area series: stack points and graph path

This project models the two methods at the centre of the area series of a
charting library. Both live in `ts/Series/Area/AreaSeries.ts`.

- `getStackPoints` prepares a stacked series for drawing. It returns one point
  per x value of the y axis' stack whose total is not null, in ascending
  numeric order:
  - where the series has a non-null point at that x, it uses the series' own
    point object. It recomputes that point's left and right *cliffs* and
    *null flags* from the neighbouring stack items, walking the other series
    of the axis from this one in steps of `upOrDown`;
  - everywhere else it uses a new null point. That point sits at the
    translated top of the first stacked series met by the same walk.
- `getGraphPath` walks the points and builds two lists:
  - the top line (`graphPoints`);
  - the bottom line (`bottomPoints`). Each point drawn in the top line has a
    bottom partner at the same plotX. That partner lies on the point's
    `yBottom` with stacking, and on the rounded translated threshold
    otherwise.

  When `connectNulls` is off, `addDummyPoints` runs on both sides of every
  non-null point. It adds a top and a bottom dummy point:
  - at a cliff or a null flag of that side, placed from the stacked values
    at the point's x shifted by the cliff;
  - for an unstacked series, next to a null neighbour, on the translated
    threshold option. That value is not rounded; a null threshold gives the
    rounded translated threshold.

  The method then:
  - joins the top path and the reversed bottom path into a closed area path,
    which it stores in `areaPath`;
  - returns the path of the top line.

  Without stacking it first resets the four derived fields of every point.

Points are objects that the two methods update in place, so an area point is
a class (`Area.AreaPoint`). Its derived fields `leftCliff`, `rightCliff`,
`leftNull` and `rightNull` are mutable; all other fields are constant, because
this code never writes them. The series is a class (`Area.AreaSeries`) with a
mutable `areaPath`. The loops are methods with loop invariants. Each is proved
against a value-level specification:
- `StackPoints.StackSegment` specifies the result of `getStackPoints`;
- `GraphPoints.BuildLines` specifies the lines of `getGraphPath`.

Lemmas state what those specifications promise. The model allows the same
point object to occur twice in the input list.

Modules:
- `AreaTypes`: shared values (stack items, axes, point snapshots, path points, SVG paths).
- `StackWalk`: the walks over `yAxis.series`.
- `StackKeys`: collecting and sorting the stack keys.
- `StackPoints`: the specification of `getStackPoints`.
- `GraphPoints`: the specification of the point loop of `getGraphPath` and of the area join.
- `Area`: the point and series classes and their methods.

The code is followed where the comments suggest otherwise. A synthetic null
point takes `stackPoint[1]`, the top of the series found, as its height. The
comment there speaks of the series "below". The walk goes in steps of
`upOrDown` from this series' own position, and the model does exactly that.

## Model

| member | source | states |
|---|---|---|
| AreaTypes.ClearNulls | ts/Series/Area/AreaSeries.ts:501 | both null flags are cleared and every other field is unchanged |
| AreaTypes.ResetDerived | ts/Series/Area/AreaSeries.ts:418-421 | all four derived fields become undefined and every other field is unchanged |
| AreaTypes.Round | ts/Series/Area/AreaSeries.ts:341-343 | `Math.round` gives the integer within half a unit of its argument |
| StackWalk.IndexOfSeries | ts/Series/Area/AreaSeries.ts:492 | `indexOf` is the first position holding this series, or -1 exactly when the series is absent |
| StackWalk.Walk | ts/Series/Area/AreaSeries.ts:549-580 | the walk visits consecutive positions from the start in steps of `upOrDown`, all inside the list, and stops at its end |
| StackWalk.WalkCoversSide | ts/Series/Area/AreaSeries.ts:549-580 | a walk from a position in the list visits exactly the positions on its side: above it when stacks are reversed, below it otherwise |
| StackWalk.WalkNeighbour | ts/Series/Area/AreaSeries.ts:544-582 | the cliff loop gives the accumulated cliff `CliffFrom` and the flag `MissesSelfFrom`: whether this series is missing from the neighbouring stack item |
| StackWalk.CliffIsMinusSpanSum | ts/Series/Area/AreaSeries.ts:544-582 | the cliff `CliffFrom` is minus the sum of `top - bottom` over the walked series that are visible, not this one, absent next door and present here |
| StackWalk.CliffNeedsGap | ts/Series/Area/AreaSeries.ts:552-580 | a non-zero `CliffFrom` implies that some walked, visible, other series is absent from the neighbour and present here |
| StackWalk.MissesSelfNeedsAbsence | ts/Series/Area/AreaSeries.ts:552-560 | the null flag `MissesSelfFrom` is only raised when this series has no entry in the neighbouring item |
| StackWalk.MissesSelfIff | ts/Series/Area/AreaSeries.ts:549-560 | walking from the series' own position, `MissesSelfFrom` holds exactly when the series is on the axis and has no entry next door |
| StackWalk.FindStackedTop | ts/Series/Area/AreaSeries.ts:593-605 | the search loop gives `FirstStackedTop`, the top of the first walked series with an entry at this x, else 0 as `pick(y, 0)` gives |
| StackWalk.FirstStackedTopNone | ts/Series/Area/AreaSeries.ts:593-605 | `FirstStackedTop` finds no top exactly when no walked series has an entry |
| StackWalk.FirstStackedTopFound | ts/Series/Area/AreaSeries.ts:593-604 | a top found by `FirstStackedTop` belongs to a walked series with an entry, and no series walked before it has one |
| StackKeys.CollectKeys | ts/Series/Area/AreaSeries.ts:509-518 | the `objectEach` loop collects, in any enumeration order and without repeats, exactly the keys whose total is not null |
| StackKeys.Insert | ts/Series/Area/AreaSeries.ts:519-521 | insertion into an ascending list gives an ascending list one longer, holding the old elements and the new one |
| StackKeys.InsertKeepsStrict | ts/Series/Area/AreaSeries.ts:519-521 | inserting a new key into a strictly ascending list keeps it strictly ascending |
| StackKeys.InsertMultiset | ts/Series/Area/AreaSeries.ts:519-521 | insertion adds exactly one occurrence of the key |
| StackKeys.SortNumeric | ts/Series/Area/AreaSeries.ts:519-521 | the numeric sort gives an ascending list of the same length and elements, strictly ascending when the input has no repeats |
| StackKeys.SortIsPermutation | ts/Series/Area/AreaSeries.ts:519-521 | the sort is a permutation of its input |
| StackKeys.AscendingUnique | ts/Series/Area/AreaSeries.ts:509-521 | two strictly ascending lists with the same elements are equal, so the sorted keys do not depend on the enumeration order |
| StackKeys.SeqOfSet | ts/Series/Area/AreaSeries.ts:509-518 | some list without repeats enumerates the live keys |
| StackKeys.OrderedKeys | ts/Series/Area/AreaSeries.ts:509-521 | the canonical key order is strictly ascending and holds exactly the live keys |
| StackKeys.SortedCollectedKeys | ts/Series/Area/AreaSeries.ts:509-521 | collecting in any order and then sorting gives the canonical key order |
| StackPoints.PointIndex | ts/Series/Area/AreaSeries.ts:499-506 | `pointMap` maps each x of the input to the index of a point with that x, and of the last such point |
| StackPoints.PointIndexOnlyReadsX | ts/Series/Area/AreaSeries.ts:499-506 | `pointMap` depends on nothing but the x values |
| StackPoints.OrderedKeysInStack | ts/Series/Area/AreaSeries.ts:509-521 | every emitted key has a stack item |
| StackPoints.SegmentFollowsLiveKeys | ts/Series/Area/AreaSeries.ts:497-623 | `StackSegment`, the specified result, has with stacking one entry per live key, in strictly ascending x order, covering every live key; without stacking it is empty |
| StackPoints.DistinctCard | ts/Series/Area/AreaSeries.ts:509-521 | a strictly ascending list of a set's elements is as long as the set is large |
| StackPoints.SegmentEntryAt | ts/Series/Area/AreaSeries.ts:530-617 | the `Entry` at a key is non-null exactly when the series has a non-null point there (`HasPointAt`). It is then the last input point with that x (`Kept`), differing only in derived fields. Otherwise it is a null point (`Synthetic`) at the translated key whose plotY equals its yBottom |
| StackPoints.SyntheticHeight | ts/Series/Area/AreaSeries.ts:593-617 | a `Synthetic` entry lies at the translated top of the first walked series with an entry, or at the translated 0 |
| StackPoints.KeptSides | ts/Series/Area/AreaSeries.ts:535-583 | a `Kept` entry's cliffs (`SideCliff`) are 0 at the ends and minus the summed gap spans elsewhere; its null flags (`SideNull`) are set exactly when a neighbour key exists, the series is on the axis and is absent there |
| StackPoints.SegmentIgnoresStaleFields | ts/Series/Area/AreaSeries.ts:499-583 | `StackSegment` does not depend on the cliff and null fields the input points carried in |
| GraphPoints.ThrownSticks | ts/Series/Area/AreaSeries.ts:415-449 | once `BuildLines` throws after some iterations, it throws after every later one |
| GraphPoints.BuildLinesTotal | ts/Series/Area/AreaSeries.ts:356-401 | `BuildLines` throws only through a `DummyAt` whose stacked values are missing |
| GraphPoints.BuildLinesPaired | ts/Series/Area/AreaSeries.ts:384-448 | the top and bottom lines `BuildLines` builds have equal length and pair entry by entry: a drawn point with its bottom (`MainBottom`) at its own plotX, a dummy top with a dummy bottom at the same plotX, coinciding when null |
| GraphPoints.PushDummyPaired | ts/Series/Area/AreaSeries.ts:384-400 | pushing a `DummyAt` pair keeps the lines paired |
| GraphPoints.ConnectNullsAddsNoDummies | ts/Series/Area/AreaSeries.ts:415-449 | with `connectNulls`, `BuildLines` never throws, adds no dummy, and gives exactly the drawn points and their bottoms |
| GraphPoints.NoGapsAddsNoDummies | ts/Series/Area/AreaSeries.ts:356-401 | without cliffs, null flags or null points, `BuildLines` adds no dummy and gives exactly the drawn points and their bottoms |
| GraphPoints.ResetAll | ts/Series/Area/AreaSeries.ts:418-421 | after the reset every point has its four derived fields undefined (`Reset`) and agrees with its old state on every other field (`SameBase`) |
| GraphPoints.UnstackedDummy | ts/Series/Area/AreaSeries.ts:375-400 | without stacking, for a reset point, `DummyAt` adds a dummy exactly when the neighbour is null, as a null point on the threshold pixel (`ThresholdPixel`: the unrounded translated threshold option, or `tt` when it is null) |
| GraphPoints.UnstackedLines | ts/Series/Area/AreaSeries.ts:415-449 | without stacking and after the reset, `BuildLines` never throws, the lines are equally long, every main bottom point lies on the rounded translated threshold `tt`, no null point is drawn, and every dummy lies on `ThresholdPixel` |
| GraphPoints.StackedDummy | ts/Series/Area/AreaSeries.ts:356-400 | with stacking, `DummyAt` adds a dummy exactly at a cliff or null flag. Its bottom is `getThreshold` of the stacked bottom shifted by the cliff. Its top is on the bottom when the flag is set, else `getThreshold` of the stacked top shifted by the cliff |
| GraphPoints.JoinArea | ts/Series/Area/AreaSeries.ts:451-467 | the area path is the top path, then the bottom path with a leading move made a line, then a close command unless both are empty; it takes the top path's `xMap` |
| Area.Snap | ts/Series/Area/AreaSeries.ts:331 | the state list has one state per point, in order |
| Area.PointObjectsAgree | ts/Series/Area/AreaSeries.ts:499-506 | the object map and the index map have the same keys and map each x to the same point |
| Area.AreaPoint.constructor | ts/Series/Area/AreaSeries.ts:331 | a point takes the given state |
| Area.AreaPoint.Synthetic | ts/Series/Area/AreaSeries.ts:609-617 | the pushed point is null at the given x and plotX, with plotY and yBottom both at the given height |
| Area.AreaSeries.constructor | ts/Series/Area/AreaSeries.ts:331-347 | the series holds its index, options, axes and line path builder, with no area path yet |
| Area.AreaSeries.ClearNullsAndIndex | ts/Series/Area/AreaSeries.ts:499-506 | the first loop clears every point's null flags, changes nothing else, and builds `pointMap` |
| Area.AreaSeries.ClearOne | ts/Series/Area/AreaSeries.ts:501 | one more point has its null flags cleared |
| Area.AreaSeries.SetCliffs | ts/Series/Area/AreaSeries.ts:535-583 | the `[-1, 1]` loop gives the point the cliffs and null flags of the specification |
| Area.AreaSeries.GetStackPoints | ts/Series/Area/AreaSeries.ts:479-624 | the returned points have the states `StackSegment` gives for the old states. Each kept entry is the input object `pointMap` holds for its x (the last input point with that x), and each synthetic entry is no input point (`KeptAreInputs`). With stacking, every input point ends as `StackedInputsEnd` says: the kept objects carry the cliffs and null flags of their key (`Kept`), the others only have their null flags cleared. Without stacking nothing changes |
| Area.AreaSeries.FillSegment | ts/Series/Area/AreaSeries.ts:525-619 | the `forEach` over the keys emits one point per key with the specified state |
| Area.AreaSeries.KeepPoint | ts/Series/Area/AreaSeries.ts:530-583 | pushing the series' own point, with its cliffs set, extends the segment as specified |
| Area.AreaSeries.MissingPoint | ts/Series/Area/AreaSeries.ts:589-617 | the new null point has the synthetic state for that key |
| Area.AreaSeries.AddMissingPoint | ts/Series/Area/AreaSeries.ts:609-617 | pushing the new null point extends the segment as specified |
| Area.AreaSeries.InputPointsAfter | ts/Series/Area/AreaSeries.ts:499-619 | every input point changes only in derived fields; one not emitted only has its null flags cleared |
| Area.AreaSeries.SegmentDone | ts/Series/Area/AreaSeries.ts:525-619 | after the last key the emitted states are exactly the specified segment |
| Area.AreaSeries.SegmentInputs | ts/Series/Area/AreaSeries.ts:499-619 | after the last key each kept entry is the input object `pointMap` holds for its x, each synthetic entry is no input point, and every input point is in its `StackedInputEnd` state |
| Area.AreaSeries.UnstackedNeverThrows | ts/Series/Area/AreaSeries.ts:415-449 | without stacking `getGraphPath` never throws |
| Area.AreaSeries.StackedNeverThrows | ts/Series/Area/AreaSeries.ts:351-449 | with stacking it does not throw if the registry holds this series' values wherever the series has a non-null point |
| Area.AreaSeries.GraphPathIgnoresStaleFields | ts/Series/Area/AreaSeries.ts:411-421 | the lines drawn do not depend on the cliff and null fields the points carried in |
| Area.AreaSeries.ResetOne | ts/Series/Area/AreaSeries.ts:418-421 | one more point has its derived fields reset, even when it occurs twice in the list |
| Area.AreaSeries.AddDummyPoints | ts/Series/Area/AreaSeries.ts:351-401 | the dummy pair for one side is pushed as the specification gives, or the call throws |
| Area.AreaSeries.PointStep | ts/Series/Area/AreaSeries.ts:423-448 | one iteration extends the lines exactly as the specification's step does, or throws |
| Area.AreaSeries.ResetIfUnstacked | ts/Series/Area/AreaSeries.ts:418-421 | the reset at the head of the loop body keeps the loop frame and leaves the point in its specified state |
| Area.AreaSeries.LoopBody | ts/Series/Area/AreaSeries.ts:415-449 | one pass keeps the loop frame and advances the lines by one specified step |
| Area.AreaSeries.PointLoop | ts/Series/Area/AreaSeries.ts:415-449 | the point loop throws exactly when the specification does, and otherwise builds exactly its lines |
| Area.AreaSeries.LoopFrameDone | ts/Series/Area/AreaSeries.ts:415-449 | after the loop the points changed only in derived fields, and were all reset without stacking |
| Area.AreaSeries.PreparePoints | ts/Series/Area/AreaSeries.ts:411-413 | the points the loop walks are the stack points with stacking, the input without; with stacking the input points are in their `StackedInputsEnd` state |
| Area.AreaSeries.StoreArea | ts/Series/Area/AreaSeries.ts:451-468 | the stored area path joins the top path and the reversed bottom path |
| Area.AreaSeries.DrawLines | ts/Series/Area/AreaSeries.ts:411-449 | the lines are the specified ones (`BuildLines` over `LineInput`) or the call throws. Input points change only in derived fields. Without stacking they are all reset; with stacking they end in their `StackedInputsEnd` state, whether or not the loop throws |
| Area.AreaSeries.GetGraphPath | ts/Series/Area/AreaSeries.ts:331-471 | the call throws exactly when `BuildLines` over `LineInput` does, with the context `Ctx` (`ConnectNulls`, `TranslatedThreshold`). Otherwise it returns the line path of the top line and stores the closed area path (`AreaShape`). A throw leaves `areaPath` as it was. Points change only in derived fields. Without stacking they are all reset; with stacking they end in their `StackedInputsEnd` state, the cliffs and null flags `getStackPoints` writes |

## Left out

- `points || this.points`: the points are always passed in. The fallback to the series' own points is not modelled.
- `LineSeries.prototype.getGraphPath`: the line path builder belongs to another file. It is a function parameter of the series; only its arguments are modelled, and the `reversed` property goes in as a flag.
- The axis translators `yAxis.getThreshold`, `yAxis.translate` and `xAxis.translate` are function parameters, because their code is not part of this model.
- Numbers are mathematical reals. Floating-point rounding, `NaN` and infinities are not modelled, so a `NaN` cliff does not count as 0.
- The x values of points and stack keys are integers. The string-to-number conversions of object keys are taken as exact.
- `options.threshold` is a number or `null`. An undefined threshold, which would make the dummy points next to unstacked nulls disappear, is not modelled.
- `yAxis.stacking.stacks[this.stackKey]` is assumed to exist, as a map from x to stack item. A missing stack for the series' key is not modelled.
- The TypeError raised when a dummy point needs stacked values the registry lacks is modelled as the outcome `Threw`. This covers a stack item missing at the point's x, or this series missing from that item. Nothing beyond the thrown state is modelled: not the exception object, and not the partially built lines.
- A series is identified by its `index` in `yAxis.series`, for `indexOf` and for the visibility lookup.
- `keys.sort` is modelled as a functional insertion sort, because the sort algorithm of the JavaScript engine is not part of this model. The enumeration order of `objectEach` is left open.
- Area.AreaSeries.GetStackPoints: the contract does not state that the null points it creates are fresh objects. It does state that they are none of the input points, and it fully specifies their states.
- `drawGraph`, `defaultOptions`, the point class's other members and the navigator files are not part of this model.

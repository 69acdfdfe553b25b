/**
 * The walks `getStackPoints` makes over the series of a y axis: from the
 * position of this series in `yAxis.series`, in steps of `upOrDown` (+1 when
 * stacks are reversed, -1 otherwise), while the position stays inside the list.
 */
module StackWalk {
  import opened AreaTypes

  /** `yAxis.series.indexOf(series)`, where a series is identified by its index. */
  function IndexOfSeries(series: seq<AxisSeries>, index: int): (pos: int)
    ensures -1 <= pos < |series|
    ensures pos >= 0 ==> series[pos].index == index && forall k :: 0 <= k < pos ==> series[k].index != index
    ensures pos == -1 ==> forall k :: 0 <= k < |series| ==> series[k].index != index
  {
    if series == [] then -1
    else if series[0].index == index then 0
    else
      var rest := IndexOfSeries(series[1..], index);
      if rest == -1 then -1 else rest + 1
  }

  /** `upOrDown` */
  function Step(reversedStacks: bool): int {
    if reversedStacks then 1 else -1
  }

  /** The positions the walk visits, in order. */
  function Walk(start: int, step: int, n: int): (w: seq<int>)
    requires step == 1 || step == -1
    ensures |w| == if 0 <= start < n then (if step == 1 then n - start else start + 1) else 0
    ensures forall k :: 0 <= k < |w| ==> 0 <= w[k] < n
    ensures step == 1 ==> forall k :: 0 <= k < |w| ==> w[k] == start + k
    ensures step == -1 ==> forall k :: 0 <= k < |w| ==> w[k] == start - k
    decreases if step == 1 then n - start else start + 1
  {
    if 0 <= start < n then [start] + Walk(start + step, step, n) else []
  }

  /** The walk from a position inside the list covers exactly the positions on
      its side of the list: above it when stepping up, below it when stepping down. */
  lemma {:induction false} WalkCoversSide(start: int, step: int, n: int, p: int)
    requires step == 1 || step == -1
    requires 0 <= start < n
    ensures p in Walk(start, step, n) <==>
            0 <= p < n && (if step == 1 then start <= p else p <= start)
  {
    var w := Walk(start, step, n);
    if 0 <= p < n && (if step == 1 then start <= p else p <= start) {
      var k := if step == 1 then p - start else start - p;
      assert w[k] == p;
    }
  }

  /** The part of the cliff contributed by the series at position `i`: it
      subtracts its `top - bottom` at this x when it is another, visible series
      that is missing from the neighbouring stack item but present in this one. */
  function MissingSpan(series: seq<AxisSeries>, i: int, selfIndex: int, here: StackItem, there: StackItem): real
    requires 0 <= i < |series|
  {
    var si := series[i].index;
    if si !in there.points && si != selfIndex && series[i].visible && si in here.points
    then here.points[si].1 - here.points[si].0
    else 0.0
  }

  /** The cliff the walk from `i` accumulates. */
  function CliffFrom(series: seq<AxisSeries>, i: int, step: int, selfIndex: int, here: StackItem, there: StackItem): real
    requires step == 1 || step == -1
    decreases if step == 1 then |series| - i else i + 1
  {
    if 0 <= i < |series|
    then CliffFrom(series, i + step, step, selfIndex, here, there) - MissingSpan(series, i, selfIndex, here, there)
    else 0.0
  }

  /** Whether the walk from `i` meets this series while it is missing from the
      neighbouring stack item. */
  predicate MissesSelfFrom(series: seq<AxisSeries>, i: int, step: int, selfIndex: int, there: StackItem)
    requires step == 1 || step == -1
    decreases if step == 1 then |series| - i else i + 1
  {
    0 <= i < |series| &&
    ((series[i].index == selfIndex && selfIndex !in there.points) ||
     MissesSelfFrom(series, i + step, step, selfIndex, there))
  }

  /** The top of the first series met by the walk from `i` that has an entry in `here`. */
  function FirstStackedTop(series: seq<AxisSeries>, i: int, step: int, here: StackItem): Option<real>
    requires step == 1 || step == -1
    decreases if step == 1 then |series| - i else i + 1
  {
    if 0 <= i < |series| then
      var si := series[i].index;
      if si in here.points then Some(here.points[si].1) else FirstStackedTop(series, i + step, step, here)
    else None
  }

  /** The sum of the spans the series at the listed positions contribute. */
  function SpanSum(series: seq<AxisSeries>, w: seq<int>, selfIndex: int, here: StackItem, there: StackItem): real
    requires forall k :: 0 <= k < |w| ==> 0 <= w[k] < |series|
  {
    if w == [] then 0.0
    else MissingSpan(series, w[0], selfIndex, here, there) + SpanSum(series, w[1..], selfIndex, here, there)
  }

  /** The cliff is minus the sum of the spans of the walked series that are
      missing next door but present here. */
  lemma {:induction false} CliffIsMinusSpanSum(series: seq<AxisSeries>, i: int, step: int, selfIndex: int,
                                               here: StackItem, there: StackItem)
    requires step == 1 || step == -1
    ensures CliffFrom(series, i, step, selfIndex, here, there)
            == -SpanSum(series, Walk(i, step, |series|), selfIndex, here, there)
    decreases if step == 1 then |series| - i else i + 1
  {
    if 0 <= i < |series| {
      var w := Walk(i, step, |series|);
      assert w[1..] == Walk(i + step, step, |series|);
      CliffIsMinusSpanSum(series, i + step, step, selfIndex, here, there);
    }
  }

  /** A non-zero cliff needs a gap: some walked series that is visible, not
      this one, missing from the neighbouring item and present in this one. */
  lemma {:induction false} CliffNeedsGap(series: seq<AxisSeries>, i: int, step: int, selfIndex: int,
                                         here: StackItem, there: StackItem)
    requires step == 1 || step == -1
    requires CliffFrom(series, i, step, selfIndex, here, there) != 0.0
    ensures exists p :: p in Walk(i, step, |series|) &&
              var si := series[p].index;
              si !in there.points && si != selfIndex && series[p].visible && si in here.points
    decreases if step == 1 then |series| - i else i + 1
  {
    var w := Walk(i, step, |series|);
    if MissingSpan(series, i, selfIndex, here, there) != 0.0 {
      assert w[0] == i;
    } else {
      CliffNeedsGap(series, i + step, step, selfIndex, here, there);
      var p :| p in Walk(i + step, step, |series|) &&
               var si := series[p].index;
               si !in there.points && si != selfIndex && series[p].visible && si in here.points;
      assert w == [i] + Walk(i + step, step, |series|);
      assert p in w;
    }
  }

  lemma {:induction false} MissesSelfNeedsAbsence(series: seq<AxisSeries>, i: int, step: int, selfIndex: int,
                                                  there: StackItem)
    requires step == 1 || step == -1
    requires MissesSelfFrom(series, i, step, selfIndex, there)
    ensures selfIndex !in there.points
    decreases if step == 1 then |series| - i else i + 1
  {
    if !(series[i].index == selfIndex && selfIndex !in there.points) {
      MissesSelfNeedsAbsence(series, i + step, step, selfIndex, there);
    }
  }

  /** Walking from this series' own position, the null flag is raised exactly
      when the series is in the axis list and has no entry in the neighbouring item. */
  lemma MissesSelfIff(series: seq<AxisSeries>, step: int, selfIndex: int, there: StackItem)
    requires step == 1 || step == -1
    ensures var pos := IndexOfSeries(series, selfIndex);
            MissesSelfFrom(series, pos, step, selfIndex, there) <==> pos >= 0 && selfIndex !in there.points
  {
    var pos := IndexOfSeries(series, selfIndex);
    if MissesSelfFrom(series, pos, step, selfIndex, there) {
      MissesSelfNeedsAbsence(series, pos, step, selfIndex, there);
    }
  }

  /** No series met by the walk has an entry exactly when the walk finds no top. */
  lemma {:induction false} FirstStackedTopNone(series: seq<AxisSeries>, i: int, step: int, here: StackItem)
    requires step == 1 || step == -1
    ensures FirstStackedTop(series, i, step, here) == None <==>
            forall p :: p in Walk(i, step, |series|) ==> series[p].index !in here.points
    decreases if step == 1 then |series| - i else i + 1
  {
    if 0 <= i < |series| {
      var w := Walk(i, step, |series|);
      assert w == [i] + Walk(i + step, step, |series|);
      FirstStackedTopNone(series, i + step, step, here);
    }
  }

  /** A found top belongs to the first series on the walk that has an entry:
      `k` is that series' place on the walk. */
  lemma {:induction false} FirstStackedTopFound(series: seq<AxisSeries>, i: int, step: int, here: StackItem)
    returns (k: nat)
    requires step == 1 || step == -1
    requires FirstStackedTop(series, i, step, here).Some?
    ensures k < |Walk(i, step, |series|)|
    ensures series[Walk(i, step, |series|)[k]].index in here.points
    ensures FirstStackedTop(series, i, step, here).value
            == here.points[series[Walk(i, step, |series|)[k]].index].1
    ensures forall j :: 0 <= j < k ==> series[Walk(i, step, |series|)[j]].index !in here.points
    decreases if step == 1 then |series| - i else i + 1
  {
    var w := Walk(i, step, |series|);
    assert w == [i] + Walk(i + step, step, |series|);
    if series[i].index in here.points {
      k := 0;
    } else {
      var k' := FirstStackedTopFound(series, i + step, step, here);
      k := k' + 1;
    }
  }

  /** The cliff loop of `getStackPoints` toward one neighbouring stack item:
      it accumulates the cliff and reports whether this series is missing there. */
  method WalkNeighbour(series: seq<AxisSeries>, start: int, step: int, selfIndex: int,
                       here: StackItem, there: StackItem) returns (cliff: real, missingSelf: bool)
    requires step == 1 || step == -1
    ensures cliff == CliffFrom(series, start, step, selfIndex, here, there)
    ensures missingSelf == MissesSelfFrom(series, start, step, selfIndex, there)
  {
    cliff, missingSelf := 0.0, false;
    var i := start;
    while 0 <= i < |series|
      invariant cliff + CliffFrom(series, i, step, selfIndex, here, there)
                == CliffFrom(series, start, step, selfIndex, here, there)
      invariant (missingSelf || MissesSelfFrom(series, i, step, selfIndex, there))
                == MissesSelfFrom(series, start, step, selfIndex, there)
      decreases if step == 1 then |series| - i else i + 1
    {
      var si := series[i].index;
      if si !in there.points {
        if si == selfIndex {
          missingSelf := true;
        } else if series[i].visible {
          if si in here.points {
            cliff := cliff - (here.points[si].1 - here.points[si].0);
          }
        }
      }
      i := i + step;
    }
  }

  /** The loop of `getStackPoints` that finds the stacked height for a missing
      point: the top of the first series met that has an entry, else 0. */
  method FindStackedTop(series: seq<AxisSeries>, start: int, step: int, here: StackItem) returns (y: real)
    requires step == 1 || step == -1
    ensures y == FirstStackedTop(series, start, step, here).GetOr(0.0)
  {
    y := 0.0;
    var i := start;
    while 0 <= i < |series|
      invariant FirstStackedTop(series, i, step, here) == FirstStackedTop(series, start, step, here)
      invariant y == 0.0
      decreases if step == 1 then |series| - i else i + 1
    {
      var si := series[i].index;
      if si in here.points {
        y := here.points[si].1;
        break;
      }
      i := i + step;
    }
  }
}

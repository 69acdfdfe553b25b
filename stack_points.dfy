/**
 * The value-level specification of `getStackPoints`: which state it gives the
 * point emitted at each live stack key, as a function of the states of the
 * series' points before the call.
 */
module StackPoints {
  import opened AreaTypes
  import opened StackWalk
  import opened StackKeys

  /** `pointMap`: each x value of the input points mapped to the index of the
      last input point with that x (a later point overwrites an earlier one). */
  function PointIndex(ps: seq<PointState>): (m: map<int, int>)
    ensures forall x :: x in m ==> 0 <= m[x] < |ps| && ps[m[x]].x == x
    ensures forall j :: 0 <= j < |ps| ==> ps[j].x in m && j <= m[ps[j].x]
    decreases |ps|
  {
    if ps == [] then map[]
    else PointIndex(ps[..|ps| - 1])[ps[|ps| - 1].x := |ps| - 1]
  }

  lemma PointIndexSnoc(ps: seq<PointState>, i: nat)
    requires i < |ps|
    ensures PointIndex(ps[..i + 1]) == PointIndex(ps[..i])[ps[i].x := i]
  {
    assert ps[..i + 1][..i] == ps[..i];
  }

  /** The index map only depends on the x values. */
  lemma {:induction false} PointIndexOnlyReadsX(ps: seq<PointState>, qs: seq<PointState>)
    requires |ps| == |qs|
    requires forall j :: 0 <= j < |ps| ==> ps[j].x == qs[j].x
    ensures PointIndex(ps) == PointIndex(qs)
    decreases |ps|
  {
    if ps != [] {
      PointIndexOnlyReadsX(ps[..|ps| - 1], qs[..|qs| - 1]);
    }
  }

  predicate KeysInStack(stack: Stack, keys: seq<int>) {
    forall k :: 0 <= k < |keys| ==> keys[k] in stack
  }

  /** The cliff of the point at key position `k` toward key position `n`. */
  function SideCliff(y: YAxis, selfIndex: int, keys: seq<int>, k: int, n: int): real
    requires KeysInStack(y.stack, keys) && 0 <= k < |keys|
  {
    if 0 <= n < |keys|
    then CliffFrom(y.series, IndexOfSeries(y.series, selfIndex), Step(y.reversedStacks), selfIndex,
                   y.stack[keys[k]], y.stack[keys[n]])
    else 0.0
  }

  /** The null flag of the point at key position `k` toward key position `n`. */
  predicate SideNull(y: YAxis, selfIndex: int, keys: seq<int>, n: int)
    requires KeysInStack(y.stack, keys)
  {
    0 <= n < |keys| &&
    MissesSelfFrom(y.series, IndexOfSeries(y.series, selfIndex), Step(y.reversedStacks), selfIndex, y.stack[keys[n]])
  }

  /** A series point kept at key position `k`, with its cliffs and null flags set. */
  function Kept(p: PointState, y: YAxis, selfIndex: int, keys: seq<int>, k: int): PointState
    requires KeysInStack(y.stack, keys) && 0 <= k < |keys|
  {
    p.(leftCliff := Some(SideCliff(y, selfIndex, keys, k, k - 1)),
       rightCliff := Some(SideCliff(y, selfIndex, keys, k, k + 1)),
       leftNull := SideNull(y, selfIndex, keys, k - 1),
       rightNull := SideNull(y, selfIndex, keys, k + 1))
  }

  /** The translated stacked height a missing point takes at `x`. */
  function SyntheticY(x: int, y: YAxis, selfIndex: int): real
    requires x in y.stack
  {
    y.translate(FirstStackedTop(y.series, IndexOfSeries(y.series, selfIndex), Step(y.reversedStacks), y.stack[x]).GetOr(0.0))
  }

  /** The null point synthesised at `x`. */
  function Synthetic(x: int, y: YAxis, xa: XAxis, selfIndex: int): PointState
    requires x in y.stack
  {
    var v := SyntheticY(x, y, selfIndex);
    PointState(x, true, xa.translate(x), None, Some(v), Some(v), None, None, false, false)
  }

  /** Whether the series has a non-null point at `x`. */
  predicate HasPointAt(ps: seq<PointState>, x: int) {
    var pm := PointIndex(ps);
    x in pm && !ps[pm[x]].isNull
  }

  function Entry(ps: seq<PointState>, y: YAxis, xa: XAxis, selfIndex: int, keys: seq<int>, k: int): PointState
    requires KeysInStack(y.stack, keys) && 0 <= k < |keys|
  {
    var x := keys[k];
    if HasPointAt(ps, x) then Kept(ps[PointIndex(ps)[x]], y, selfIndex, keys, k)
    else Synthetic(x, y, xa, selfIndex)
  }

  function FilledSegment(ps: seq<PointState>, y: YAxis, xa: XAxis, selfIndex: int, keys: seq<int>): (seg: seq<PointState>)
    requires KeysInStack(y.stack, keys)
    ensures |seg| == |keys|
    ensures forall k :: 0 <= k < |keys| ==> seg[k] == Entry(ps, y, xa, selfIndex, keys, k)
  {
    seq(|keys|, k requires 0 <= k < |keys| => Entry(ps, y, xa, selfIndex, keys, k))
  }

  lemma OrderedKeysInStack(stack: Stack)
    ensures KeysInStack(stack, OrderedKeys(stack))
  {
    var keys := OrderedKeys(stack);
    forall k | 0 <= k < |keys| ensures keys[k] in stack {
      assert keys[k] in LiveKeys(stack);
    }
  }

  /** The point states `getStackPoints` returns, given the states of the input points. */
  ghost function StackSegment(ps: seq<PointState>, stacking: Stacking, y: YAxis, xa: XAxis, selfIndex: int)
    : seq<PointState>
  {
    if stacking.Unstacked? then []
    else
      OrderedKeysInStack(y.stack);
      FilledSegment(ps, y, xa, selfIndex, OrderedKeys(y.stack))
  }

  /** With stacking on there is exactly one entry per stack key whose total is
      not null, and the entries are in ascending x order; with stacking off
      there are none. */
  lemma SegmentFollowsLiveKeys(ps: seq<PointState>, stacking: Stacking, y: YAxis, xa: XAxis, selfIndex: int)
    ensures var seg := StackSegment(ps, stacking, y, xa, selfIndex);
            && (stacking.Unstacked? ==> seg == [])
            && (stacking.Stacked? ==>
                  && |seg| == |LiveKeys(y.stack)|
                  && (forall k, k' :: 0 <= k < k' < |seg| ==> seg[k].x < seg[k'].x)
                  && (forall x :: x in LiveKeys(y.stack) <==> exists k :: 0 <= k < |seg| && seg[k].x == x))
  {
    if stacking.Stacked? {
      var keys := OrderedKeys(y.stack);
      OrderedKeysInStack(y.stack);
      var seg := StackSegment(ps, stacking, y, xa, selfIndex);
      forall k | 0 <= k < |seg| ensures seg[k].x == keys[k] {
        if HasPointAt(ps, keys[k]) {
          assert ps[PointIndex(ps)[keys[k]]].x == keys[k];
        }
      }
      forall x | x in LiveKeys(y.stack) ensures exists k :: 0 <= k < |seg| && seg[k].x == x {
        assert x in keys;
        var k :| 0 <= k < |keys| && keys[k] == x;
        assert seg[k].x == x;
      }
      assert forall k :: 0 <= k < |keys| ==> keys[k] in LiveKeys(y.stack);
      DistinctCard(keys, LiveKeys(y.stack));
    }
  }

  /** A strictly ascending sequence listing a set has the set's size. */
  lemma {:induction false} DistinctCard(keys: seq<int>, s: set<int>)
    requires StrictlyAscending(keys)
    requires forall x :: x in keys <==> x in s
    ensures |keys| == |s|
    decreases |keys|
  {
    if keys != [] {
      var rest := keys[1..];
      forall x ensures x in rest <==> x in s - {keys[0]} {
        if x in rest {
          var j :| 0 <= j < |rest| && rest[j] == x;
          assert keys[j + 1] == x;
        }
        if x in s - {keys[0]} {
          assert x in keys;
          var j :| 0 <= j < |keys| && keys[j] == x;
          assert j != 0;
          assert rest[j - 1] == x;
        }
      }
      assert keys[0] in keys;
      DistinctCard(rest, s - {keys[0]});
    } else {
      if s != {} {
        NonEmptyHasElement(s);
        assert false;
      }
    }
  }

  /** The entry at a key is the series' own point exactly when the series has
      a non-null point with that x (the last one in the list wins); the entry
      then differs from that point only in its cliffs and null flags. Any other
      entry is a synthetic null point at that key whose plotY equals its
      yBottom and whose plotX is the translated key. */
  lemma {:induction false} SegmentEntryAt(ps: seq<PointState>, y: YAxis, xa: XAxis, selfIndex: int, keys: seq<int>, k: int)
    requires KeysInStack(y.stack, keys) && 0 <= k < |keys|
    ensures var e := FilledSegment(ps, y, xa, selfIndex, keys)[k];
            && e.x == keys[k]
            && (!e.isNull <==> HasPointAt(ps, keys[k]))
            && (!e.isNull ==> exists j :: 0 <= j < |ps| && ps[j].x == keys[k] && SameBase(e, ps[j]) &&
                                           forall j' :: j < j' < |ps| ==> ps[j'].x != keys[k])
            && (e.isNull ==> e.plotY.Some? && e.plotY == e.yBottom && e.plotX == xa.translate(keys[k]) &&
                             e.rectPlotX == None)
  {
    var e := FilledSegment(ps, y, xa, selfIndex, keys)[k];
    if HasPointAt(ps, keys[k]) {
      var j := PointIndex(ps)[keys[k]];
      assert ps[j].x == keys[k];
      assert SameBase(e, ps[j]);
    }
  }

  /** The height of a synthetic point is the translated top of the first series
      from this one, in `upOrDown` steps, that has an entry at that x, or the
      translated 0 when no series met has one. */
  lemma SyntheticHeight(ps: seq<PointState>, y: YAxis, xa: XAxis, selfIndex: int, keys: seq<int>, k: int)
    requires KeysInStack(y.stack, keys) && 0 <= k < |keys|
    requires FilledSegment(ps, y, xa, selfIndex, keys)[k].isNull
    ensures var w := Walk(IndexOfSeries(y.series, selfIndex), Step(y.reversedStacks), |y.series|);
            var here := y.stack[keys[k]];
            var e := FilledSegment(ps, y, xa, selfIndex, keys)[k];
            && ((forall p :: p in w ==> y.series[p].index !in here.points) ==> e.plotY == Some(y.translate(0.0)))
            && (forall i :: 0 <= i < |w| && y.series[w[i]].index in here.points &&
                  (forall j :: 0 <= j < i ==> y.series[w[j]].index !in here.points)
                  ==> e.plotY == Some(y.translate(here.points[y.series[w[i]].index].1)))
  {
    var pos, step := IndexOfSeries(y.series, selfIndex), Step(y.reversedStacks);
    var here := y.stack[keys[k]];
    var w := Walk(pos, step, |y.series|);
    FirstStackedTopNone(y.series, pos, step, here);
    if FirstStackedTop(y.series, pos, step, here).Some? {
      var f := FirstStackedTopFound(y.series, pos, step, here);
      forall i | 0 <= i < |w| && y.series[w[i]].index in here.points &&
                 (forall j :: 0 <= j < i ==> y.series[w[j]].index !in here.points)
        ensures i == f
      {
        if i < f { assert false; }
        if f < i { assert false; }
      }
    }
  }

  /** A kept point's cliff toward a side is 0 when there is no key on that
      side, and otherwise minus the sum of `top - bottom` over the walked series
      that are visible, not this one, missing at the neighbouring key and
      present at this key. Its null flag toward a side is set exactly when
      there is a key on that side, the series is on the axis, and the series
      has no entry at that neighbouring key. */
  lemma KeptSides(ps: seq<PointState>, y: YAxis, xa: XAxis, selfIndex: int, keys: seq<int>, k: int)
    requires KeysInStack(y.stack, keys) && 0 <= k < |keys|
    requires !FilledSegment(ps, y, xa, selfIndex, keys)[k].isNull
    ensures var e := FilledSegment(ps, y, xa, selfIndex, keys)[k];
            var pos, step := IndexOfSeries(y.series, selfIndex), Step(y.reversedStacks);
            var w := Walk(pos, step, |y.series|);
            && e.leftCliff == Some(if k == 0 then 0.0
                                   else -SpanSum(y.series, w, selfIndex, y.stack[keys[k]], y.stack[keys[k - 1]]))
            && e.rightCliff == Some(if k == |keys| - 1 then 0.0
                                    else -SpanSum(y.series, w, selfIndex, y.stack[keys[k]], y.stack[keys[k + 1]]))
            && (e.leftNull <==> k > 0 && pos >= 0 && selfIndex !in y.stack[keys[k - 1]].points)
            && (e.rightNull <==> k < |keys| - 1 && pos >= 0 && selfIndex !in y.stack[keys[k + 1]].points)
  {
    var pos, step := IndexOfSeries(y.series, selfIndex), Step(y.reversedStacks);
    if k > 0 {
      CliffIsMinusSpanSum(y.series, pos, step, selfIndex, y.stack[keys[k]], y.stack[keys[k - 1]]);
      MissesSelfIff(y.series, step, selfIndex, y.stack[keys[k - 1]]);
    }
    if k < |keys| - 1 {
      CliffIsMinusSpanSum(y.series, pos, step, selfIndex, y.stack[keys[k]], y.stack[keys[k + 1]]);
      MissesSelfIff(y.series, step, selfIndex, y.stack[keys[k + 1]]);
    }
  }

  /** The result does not depend on the cliff and null fields the input points
      carried from an earlier pass: they are recomputed, never read. */
  lemma SegmentIgnoresStaleFields(ps: seq<PointState>, qs: seq<PointState>, stacking: Stacking,
                                  y: YAxis, xa: XAxis, selfIndex: int)
    requires |ps| == |qs|
    requires forall j :: 0 <= j < |ps| ==> SameBase(ps[j], qs[j])
    ensures StackSegment(ps, stacking, y, xa, selfIndex) == StackSegment(qs, stacking, y, xa, selfIndex)
  {
    assert forall j :: 0 <= j < |ps| ==> ps[j].x == ResetDerived(ps[j]).x == qs[j].x;
    PointIndexOnlyReadsX(ps, qs);
    if stacking.Stacked? {
      OrderedKeysInStack(y.stack);
      var keys := OrderedKeys(y.stack);
      forall k | 0 <= k < |keys|
        ensures Entry(ps, y, xa, selfIndex, keys, k) == Entry(qs, y, xa, selfIndex, keys, k)
      {
        var x := keys[k];
        var pm := PointIndex(ps);
        if x in pm {
          assert ResetDerived(ps[pm[x]]) == ResetDerived(qs[pm[x]]);
        }
      }
    }
  }
}

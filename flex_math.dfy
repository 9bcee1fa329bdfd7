/** The arithmetic of a flex container (native/neogui.c:128-200) over the sequence of its
    children's sizes `ss` and flex factors `fs`, in sibling order. A child is a flex
    child when its factor is positive. */
module FlexMath {
  import opened Types
  import opened Policy

  /** The sum of the sizes along `axis`. */
  function SumAlong(ss: seq<Vec2>, axis: Axis): real {
    if ss == [] then 0.0 else SumAlong(ss[..|ss| - 1], axis) + ss[|ss| - 1].Get(axis)
  }

  /** Sizes that are non-negative along `axis` sum to a non-negative size. */
  lemma {:induction false} SumAlongNonNegative(ss: seq<Vec2>, axis: Axis)
    requires forall j :: 0 <= j < |ss| ==> ss[j].Get(axis) >= 0.0
    ensures SumAlong(ss, axis) >= 0.0
  {
    if ss != [] {
      SumAlongNonNegative(ss[..|ss| - 1], axis);
    }
  }

  /** The sum along `axis` over the flex children (`flexPart`) or over the others. */
  function SumWhere(ss: seq<Vec2>, fs: seq<real>, axis: Axis, flexPart: bool): real
    requires |fs| == |ss|
  {
    if ss == [] then 0.0
    else
      var n := |ss| - 1;
      SumWhere(ss[..n], fs[..n], axis, flexPart) + (if (fs[n] > 0.0) == flexPart then ss[n].Get(axis) else 0.0)
  }

  /** The sum of the positive flex factors: the weight total every allotment divides by. */
  function FactorSum(fs: seq<real>): (r: real)
    ensures r >= 0.0
    ensures forall j :: 0 <= j < |fs| && fs[j] > 0.0 ==> r >= fs[j]
  {
    if fs == [] then 0.0
    else
      var n := |fs| - 1;
      FactorSum(fs[..n]) + (if fs[n] > 0.0 then fs[n] else 0.0)
  }

  /** The sum of the allotments of the flex children. */
  function AllotSum(fs: seq<real>, space: real, total: real): real
    requires total != 0.0
  {
    if fs == [] then 0.0
    else
      var n := |fs| - 1;
      AllotSum(fs[..n], space, total) + (if fs[n] > 0.0 then Allotment(space, fs[n], total) else 0.0)
  }

  /** Flex and non-flex sums together make the sum over all children. */
  lemma {:induction false} SumSplit(ss: seq<Vec2>, fs: seq<real>, axis: Axis)
    requires |fs| == |ss|
    ensures SumWhere(ss, fs, axis, true) + SumWhere(ss, fs, axis, false) == SumAlong(ss, axis)
  {
    if ss != [] {
      var n := |ss| - 1;
      SumSplit(ss[..n], fs[..n], axis);
    }
  }

  /** The partial sums only look at the children of their part. */
  lemma {:induction false} SumWhereAgree(ss: seq<Vec2>, ss': seq<Vec2>, fs: seq<real>, axis: Axis, flexPart: bool)
    requires |fs| == |ss| == |ss'|
    requires forall j :: 0 <= j < |ss| && (fs[j] > 0.0) == flexPart ==> ss[j].Get(axis) == ss'[j].Get(axis)
    ensures SumWhere(ss, fs, axis, flexPart) == SumWhere(ss', fs, axis, flexPart)
  {
    if ss != [] {
      var n := |ss| - 1;
      SumWhereAgree(ss[..n], ss'[..n], fs[..n], axis, flexPart);
    }
  }

  /** Proportional shares add up: the allotments are `space` times the fraction of the
      weight they cover. */
  lemma {:induction false} AllotmentsSum(fs: seq<real>, space: real, total: real)
    requires total != 0.0
    ensures AllotSum(fs, space, total) == Allotment(space, FactorSum(fs), total)
  {
    if fs == [] {
      ShareOfNothing(space, total);
    } else {
      var n := |fs| - 1;
      AllotmentsSum(fs[..n], space, total);
      var f := if fs[n] > 0.0 then fs[n] else 0.0;
      if fs[n] <= 0.0 {
        ShareOfNothing(space, total);
      }
      ShareSum(space, FactorSum(fs[..n]), f, total);
    }
  }

  lemma ShareOfNothing(space: real, total: real)
    requires total != 0.0
    ensures Allotment(space, 0.0, total) == 0.0
  {
  }

  lemma ShareSum(a: real, x: real, y: real, t: real)
    requires t != 0.0
    ensures Allotment(a, x, t) + Allotment(a, y, t) == Allotment(a, x + y, t)
  {
    var qx, qy := x / t, y / t;
    assert qx * t == x && qy * t == y;
    assert (qx + qy) * t == x + y;
    assert (x + y) / t == qx + qy;
  }

  lemma WholeShare(space: real, total: real)
    requires total != 0.0
    ensures Allotment(space, total, total) == space
  {
    assert total / total == 1.0;
  }

  /** With some flex child present, the allotments sum to exactly the available space. */
  lemma AllotmentsFill(fs: seq<real>, space: real)
    requires FactorSum(fs) > 0.0
    ensures AllotSum(fs, space, FactorSum(fs)) == space
  {
    AllotmentsSum(fs, space, FactorSum(fs));
    WholeShare(space, FactorSum(fs));
  }

  /** If every flex child takes its allotment, the flex children's sum is the allotment sum. */
  lemma {:induction false} SumOfAllotted(ss: seq<Vec2>, fs: seq<real>, axis: Axis, space: real, total: real)
    requires |fs| == |ss| && total != 0.0
    requires forall j :: 0 <= j < |ss| && fs[j] > 0.0 ==> ss[j].Get(axis) == Allotment(space, fs[j], total)
    ensures SumWhere(ss, fs, axis, true) == AllotSum(fs, space, total)
  {
    if ss != [] {
      var n := |ss| - 1;
      SumOfAllotted(ss[..n], fs[..n], axis, space, total);
    }
  }

  /** A finite main-axis max `m` that the non-flex children do not overflow is filled
      exactly when every flex child takes its whole allotment. */
  lemma FlexFillsMain(ss: seq<Vec2>, fs: seq<real>, axis: Axis, m: real)
    requires |fs| == |ss| && FactorSum(fs) > 0.0
    requires SumWhere(ss, fs, axis, false) <= m
    requires forall j :: 0 <= j < |ss| && fs[j] > 0.0 ==>
               ss[j].Get(axis) == Allotment(FlexSpace(Fin(m), SumWhere(ss, fs, axis, false)), fs[j], FactorSum(fs))
    ensures SumAlong(ss, axis) == m
  {
    var space := FlexSpace(Fin(m), SumWhere(ss, fs, axis, false));
    SumOfAllotted(ss, fs, axis, space, FactorSum(fs));
    AllotmentsFill(fs, space);
    SumSplit(ss, fs, axis);
  }

  /** The running offset after one more child grows by its extent. */
  lemma SumAlongStep(ss: seq<Vec2>, i: nat, axis: Axis)
    requires i < |ss|
    ensures SumAlong(ss[..i + 1], axis) == SumAlong(ss[..i], axis) + ss[i].Get(axis)
  {
    assert ss[..i + 1][..i] == ss[..i];
  }

  /** The children tile the main axis: each one starts where the previous one ends, and
      the last ends at the total. */
  lemma Tiling(ss: seq<Vec2>, axis: Axis)
    ensures forall j :: 0 <= j < |ss| ==> SumAlong(ss[..j], axis) + ss[j].Get(axis) == SumAlong(ss[..j + 1], axis)
    ensures SumAlong(ss[..|ss|], axis) == SumAlong(ss, axis)
  {
    forall j | 0 <= j < |ss|
      ensures SumAlong(ss[..j], axis) + ss[j].Get(axis) == SumAlong(ss[..j + 1], axis)
    {
      assert ss[..j + 1][..j] == ss[..j];
    }
    assert ss[..|ss|] == ss;
  }

  /** With non-negative sizes the offsets never decrease and the sum is non-negative. */
  lemma {:induction false} OffsetsMonotone(ss: seq<Vec2>, axis: Axis, i: nat, j: nat)
    requires i <= j <= |ss|
    requires forall k :: 0 <= k < |ss| ==> ss[k].Get(axis) >= 0.0
    ensures 0.0 <= SumAlong(ss[..i], axis) <= SumAlong(ss[..j], axis)
    decreases j
  {
    Tiling(ss, axis);
    if j == 0 {
      assert ss[..0] == [];
    } else {
      OffsetsMonotone(ss, axis, if i < j then i else j - 1, j - 1);
    }
  }

  /** Where a flex container puts its `j`-th child: along the main axis right after the
      children before it, across it aligned within the container's cross size. */
  function Placed(ss: seq<Vec2>, j: nat, main: Axis, crossSize: real, align: real): (r: Vec2)
    requires j < |ss|
    ensures r.Get(main) == SumAlong(ss[..j], main)
    ensures r.Get(main.Other()) == AlignOffset(crossSize, ss[j].Get(main.Other()), align)
  {
    var cross := main.Other();
    Zero.With(cross, AlignOffset(crossSize, ss[j].Get(cross), align)).With(main, SumAlong(ss[..j], main))
  }

  /** `m` is the running cross-axis maximum of a loop over the children of one part
      (flex or not) that started from `base`: at least `base` and every such child's
      cross size, and equal to one of them. */
  ghost predicate CrossMax(ss: seq<Vec2>, fs: seq<real>, cross: Axis, flexPart: bool, base: real, m: real)
    requires |fs| == |ss|
  {
    && m >= base
    && (forall j :: 0 <= j < |ss| && (fs[j] > 0.0) == flexPart ==> m >= ss[j].Get(cross))
    && (m == base || exists j :: 0 <= j < |ss| && (fs[j] > 0.0) == flexPart && m == ss[j].Get(cross))
  }

  /** What the first loop of a flex container knows after the children `ss`/`fs`: no
      factor was negative, `nonFlex` sums the non-flex main sizes, `factors` the flex
      factors, and `maxCross` is the running cross maximum over the non-flex children. */
  ghost predicate Measured(ss: seq<Vec2>, fs: seq<real>, main: Axis, minCross: real,
                           nonFlex: real, factors: real, maxCross: real)
    requires |fs| == |ss|
  {
    && (forall j :: 0 <= j < |fs| ==> fs[j] >= 0.0)
    && nonFlex == SumWhere(ss, fs, main, false) && factors == FactorSum(fs)
    && CrossMax(ss, fs, main.Other(), false, minCross, maxCross)
  }

  /** The larger of two sizes: a running maximum after it meets `a`. */
  function Larger(a: real, b: real): real {
    if a > b then a else b
  }

  /** One more child keeps the running maximum: a child of the part raises it when larger. */
  lemma CrossMaxStep(ss: seq<Vec2>, fs: seq<real>, cross: Axis, flexPart: bool, base: real, m: real,
                     x: Vec2, f: real)
    requires |fs| == |ss| && CrossMax(ss, fs, cross, flexPart, base, m)
    ensures CrossMax(ss + [x], fs + [f], cross, flexPart, base,
                     if (f > 0.0) == flexPart && x.Get(cross) > m then x.Get(cross) else m)
  {
    var ss', fs' := ss + [x], fs + [f];
    assert forall j :: 0 <= j < |ss| ==> ss'[j] == ss[j] && fs'[j] == fs[j];
    assert ss'[|ss|] == x && fs'[|ss|] == f;
  }

  /** One step of the first loop for a child without a flex factor: its main size
      joins the non-flex sum and its cross size may raise the maximum. */
  lemma MeasuredSized(ss: seq<Vec2>, fs: seq<real>, main: Axis, minCross: real,
                      nonFlex: real, factors: real, maxCross: real, x: Vec2)
    requires |fs| == |ss| && Measured(ss, fs, main, minCross, nonFlex, factors, maxCross)
    ensures Measured(ss + [x], fs + [0.0], main, minCross, nonFlex + x.Get(main), factors,
                     Larger(x.Get(main.Other()), maxCross))
  {
    var ss', fs' := ss + [x], fs + [0.0];
    assert ss'[..|ss|] == ss && fs'[..|fs|] == fs;
    CrossMaxStep(ss, fs, main.Other(), false, minCross, maxCross, x, 0.0);
  }

  /** One step of the first loop for a flex child: only its factor is added. */
  lemma MeasuredFlex(ss: seq<Vec2>, fs: seq<real>, main: Axis, minCross: real,
                     nonFlex: real, factors: real, maxCross: real, x: Vec2, f: real)
    requires |fs| == |ss| && Measured(ss, fs, main, minCross, nonFlex, factors, maxCross) && f > 0.0
    ensures Measured(ss + [x], fs + [f], main, minCross, nonFlex, factors + f, maxCross)
  {
    var ss', fs' := ss + [x], fs + [f];
    assert ss'[..|ss|] == ss && fs'[..|fs|] == fs;
    CrossMaxStep(ss, fs, main.Other(), false, minCross, maxCross, x, f);
  }

  /** What the second loop of a flex container knows after the children `ss`/`fs`:
      `flexSum` sums the flex main sizes, and `maxCross` is the running cross maximum
      over the flex children, from `base`. */
  ghost predicate FlexMeasured(ss: seq<Vec2>, fs: seq<real>, main: Axis, base: real,
                               flexSum: real, maxCross: real)
    requires |fs| == |ss|
  {
    flexSum == SumWhere(ss, fs, main, true) && CrossMax(ss, fs, main.Other(), true, base, maxCross)
  }

  /** One step of the second loop for a flex child: its main size joins the flex sum
      and its cross size may raise the maximum. */
  lemma FlexMeasuredAdd(ss: seq<Vec2>, fs: seq<real>, main: Axis, base: real,
                        flexSum: real, maxCross: real, x: Vec2, f: real)
    requires |fs| == |ss| && FlexMeasured(ss, fs, main, base, flexSum, maxCross) && f > 0.0
    ensures FlexMeasured(ss + [x], fs + [f], main, base, flexSum + x.Get(main),
                         Larger(x.Get(main.Other()), maxCross))
  {
    var ss', fs' := ss + [x], fs + [f];
    assert ss'[..|ss|] == ss && fs'[..|fs|] == fs;
    CrossMaxStep(ss, fs, main.Other(), true, base, maxCross, x, f);
  }

  /** One step of the second loop for a child without a flex factor: nothing changes. */
  lemma FlexMeasuredSkip(ss: seq<Vec2>, fs: seq<real>, main: Axis, base: real,
                         flexSum: real, maxCross: real, x: Vec2, f: real)
    requires |fs| == |ss| && FlexMeasured(ss, fs, main, base, flexSum, maxCross) && f <= 0.0
    ensures FlexMeasured(ss + [x], fs + [f], main, base, flexSum, maxCross)
  {
    var ss', fs' := ss + [x], fs + [f];
    assert ss'[..|ss|] == ss && fs'[..|fs|] == fs;
    CrossMaxStep(ss, fs, main.Other(), true, base, maxCross, x, f);
  }

  /** The running maximum only looks at the children of its part. */
  lemma CrossMaxAgree(ss: seq<Vec2>, ss': seq<Vec2>, fs: seq<real>, cross: Axis, flexPart: bool, base: real, m: real)
    requires |fs| == |ss| == |ss'| && CrossMax(ss, fs, cross, flexPart, base, m)
    requires forall j :: 0 <= j < |ss| && (fs[j] > 0.0) == flexPart ==> ss[j].Get(cross) == ss'[j].Get(cross)
    ensures CrossMax(ss', fs, cross, flexPart, base, m)
  {
    if m != base {
      var j :| 0 <= j < |ss| && (fs[j] > 0.0) == flexPart && m == ss[j].Get(cross);
      assert m == ss'[j].Get(cross);
    }
  }

  /** `m` is the cross size a flex container ends with: at least the incoming minimum
      `base` and every child's cross size, and equal to one of them. */
  ghost predicate CrossSpan(ss: seq<Vec2>, cross: Axis, base: real, m: real) {
    && m >= base
    && (forall j :: 0 <= j < |ss| ==> m >= ss[j].Get(cross))
    && (m == base || exists j :: 0 <= j < |ss| && m == ss[j].Get(cross))
  }

  /** The maximum over the other children from `base`, continued over the flex children,
      is the maximum over all of them from `base`. */
  lemma CrossJoin(ss: seq<Vec2>, fs: seq<real>, cross: Axis, base: real, m1: real, m2: real)
    requires |fs| == |ss|
    requires CrossMax(ss, fs, cross, false, base, m1) && CrossMax(ss, fs, cross, true, m1, m2)
    ensures CrossSpan(ss, cross, base, m2)
  {
    forall j | 0 <= j < |ss|
      ensures m2 >= ss[j].Get(cross)
    {
      if fs[j] > 0.0 {
        assert (fs[j] > 0.0) == true;
      } else {
        assert (fs[j] > 0.0) == false;
      }
    }
    if m2 != base && m2 == m1 {
      var j :| 0 <= j < |ss| && (fs[j] > 0.0) == false && m1 == ss[j].Get(cross);
    }
  }

  /** The size a flex container ends with, from what its two loops measured: along the
      main axis the sum of the non-flex sum `nonFlex` (first loop, sizes `ss1`) and the
      flex sum `flexSum` (second loop, final sizes `ss`) is the sum over all children;
      across it, the second loop's maximum spans all children from the incoming minimum. */
  lemma FlexSpan(ss1: seq<Vec2>, ss: seq<Vec2>, fs: seq<real>, main: Axis, minCross: real,
                 nonFlex: real, factors: real, maxCross1: real, flexSum: real, maxCross: real)
    requires |fs| == |ss1| == |ss|
    requires Measured(ss1, fs, main, minCross, nonFlex, factors, maxCross1)
    requires FlexMeasured(ss, fs, main, maxCross1, flexSum, maxCross)
    requires forall j :: 0 <= j < |fs| && (fs[j] > 0.0) == false ==> ss1[j] == ss[j]
    ensures flexSum + nonFlex == SumAlong(ss, main) && nonFlex == SumWhere(ss, fs, main, false)
    ensures CrossSpan(ss, main.Other(), minCross, maxCross)
  {
    SumWhereAgree(ss1, ss, fs, main, false);
    SumSplit(ss, fs, main);
    CrossMaxAgree(ss1, ss, fs, main.Other(), false, minCross, maxCross1);
    CrossJoin(ss, fs, main.Other(), minCross, maxCross1, maxCross);
  }
}

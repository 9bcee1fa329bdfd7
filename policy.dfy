/** The two clamp policies of the constraint protocol and the constraints and
    sizes each layout kind derives (native/neogui.c:32-200), as functions on values. */
module Policy {
  import opened Types

  function Max0(v: real): real { if v < 0.0 then 0.0 else v }

  /** `constrain_size` on one axis: clamp down to a finite max, then up to min. */
  function ConstrainAxis(v: real, lo: real, hi: Extent): (r: real)
    ensures r >= lo
    ensures hi.Covers(lo) ==> hi.Covers(r)
    ensures lo <= v && hi.Covers(v) ==> r == v
    ensures hi.Fin? && hi.Covers(lo) && v > hi.value ==> r == hi.value
    ensures !hi.Covers(lo) ==> r == lo
  {
    var t := if hi.Fin? && v > hi.value then hi.value else v;
    if t < lo then lo else t
  }

  /** `constrain_and_grow_size` on one axis: take a finite max, then raise to min. */
  function GrowAxis(v: real, lo: real, hi: Extent): (r: real)
    ensures r >= lo
    ensures hi.Covers(lo) ==> hi.Covers(r)
    ensures hi.Fin? && hi.Covers(lo) ==> r == hi.value
    ensures hi.Fin? && !hi.Covers(lo) ==> r == lo
    ensures hi.Inf? ==> r == (if v < lo then lo else v)
  {
    var t := if hi.Fin? then hi.value else v;
    if t < lo then lo else t
  }

  /** `constrain_size`: never grows past the current size except to reach min. */
  function ConstrainSize(s: Vec2, c: Constraints): (r: Vec2)
    ensures c.Satisfiable() ==> c.Admits(r)
    ensures c.Admits(s) ==> r == s
    ensures r.x >= c.minSize.x && r.y >= c.minSize.y
    ensures r.x <= (if s.x < c.minSize.x then c.minSize.x else s.x)
    ensures r.y <= (if s.y < c.minSize.y then c.minSize.y else s.y)
  {
    Axes(ConstrainAxis(s.x, c.minSize.x, c.maxSize.x), ConstrainAxis(s.y, c.minSize.y, c.maxSize.y))
  }

  /** `constrain_and_grow_size`: fills every bounded axis. */
  function ConstrainAndGrow(s: Vec2, c: Constraints): (r: Vec2)
    ensures c.Satisfiable() ==> c.Admits(r)
    ensures forall axis: Axis :: c.maxSize.Get(axis).Fin? && c.maxSize.Get(axis).Covers(c.minSize.Get(axis))
              ==> r.Get(axis) == c.maxSize.Get(axis).value
    ensures r.x >= c.minSize.x && r.y >= c.minSize.y
  {
    Axes(GrowAxis(s.x, c.minSize.x, c.maxSize.x), GrowAxis(s.y, c.minSize.y, c.maxSize.y))
  }

  /** `modify_padding_constraints_axis`: on a bounded axis, shrink max by the two insets
      (floored at 0) and lower min only if it now exceeds max. */
  function PadAxis(c: Constraints, p: EdgeInsets, axis: Axis): Constraints {
    match c.maxSize.Get(axis)
    case Inf => c
    case Fin(m) =>
      var hi := Max0(m - p.Along(axis));
      var lo := c.minSize.Get(axis);
      Constraints(c.minSize.With(axis, if lo > hi then hi else lo), c.maxSize.With(axis, Fin(hi)))
  }

  /** The constraints a padding element offers its child. */
  function PaddedConstraints(c: Constraints, p: EdgeInsets): (r: Constraints)
    ensures forall axis: Axis :: c.maxSize.Get(axis).Inf? ==>
              r.maxSize.Get(axis) == Inf && r.minSize.Get(axis) == c.minSize.Get(axis)
    ensures forall axis: Axis :: c.maxSize.Get(axis).Fin? ==>
              && r.maxSize.Get(axis) == Fin(Max0(c.maxSize.Get(axis).value - p.Along(axis)))
              && r.minSize.Get(axis) == (if c.minSize.Get(axis) > r.maxSize.Get(axis).value
                                        then r.maxSize.Get(axis).value else c.minSize.Get(axis))
    ensures c.Sane() ==> r.Sane()
  {
    PadAxis(PadAxis(c, p, X), p, Y)
  }

  /** A padding element's natural size: its child's plus the insets. */
  function PaddedSize(child: Vec2, p: EdgeInsets): Vec2 {
    Axes(child.x + p.left + p.right, child.y + p.top + p.bottom)
  }

  /** Under an unbounded max, padding gives exactly child size plus insets. */
  lemma PaddingRoundTrip(child: Vec2, p: EdgeInsets, c: Constraints)
    requires c.maxSize == Axes(Inf, Inf)
    requires c.minSize.x <= PaddedSize(child, p).x && c.minSize.y <= PaddedSize(child, p).y
    ensures ConstrainSize(PaddedSize(child, p), c) == PaddedSize(child, p)
    ensures PaddedConstraints(c, p) == c
  {
  }

  /** Offset of a child along one axis: -1 puts it at the start, 0 centres it, 1 puts
      it at the end. */
  function AlignOffset(own: real, child: real, f: real): (r: real)
    ensures f == -1.0 ==> r == 0.0
    ensures f == 0.0 ==> r == (own - child) / 2.0
    ensures f == 1.0 ==> r == own - child
    ensures -1.0 <= f <= 1.0 && child <= own ==> 0.0 <= r <= own - child
  {
    var gap, t := own - child, f + 1.0;
    AlignBound(gap, t);
    gap * t * 0.5
  }

  /** Half of a non-negative gap scaled by a factor in [0, 2] stays within the gap. */
  lemma AlignBound(gap: real, t: real)
    ensures gap >= 0.0 && 0.0 <= t <= 2.0 ==> 0.0 <= gap * t * 0.5 <= gap
  {
    if gap >= 0.0 && 0.0 <= t <= 2.0 {
      assert gap * t <= gap * 2.0;
    }
  }

  function AlignedPosition(own: Vec2, child: Vec2, factor: Vec2): Vec2 {
    Axes(AlignOffset(own.x, child.x, factor.x), AlignOffset(own.y, child.y, factor.y))
  }

  /** A 200x100 element aligning a 50x50 child with factor (1, 1) places it at (150, 50). */
  lemma AlignExample()
    ensures AlignedPosition(Axes(200.0, 100.0), Axes(50.0, 50.0), Axes(1.0, 1.0)) == Axes(150.0, 50.0)
  {
  }

  /** The constraints a sized box offers its child: min = max = the configured dimension
      on each axis where it is positive, the incoming constraints elsewhere. */
  function SizedChildConstraints(c: Constraints, dims: Vec2): (r: Constraints)
    ensures forall axis: Axis :: dims.Get(axis) > 0.0 ==>
              r.minSize.Get(axis) == dims.Get(axis) && r.maxSize.Get(axis) == Fin(dims.Get(axis))
    ensures forall axis: Axis :: dims.Get(axis) <= 0.0 ==>
              r.minSize.Get(axis) == c.minSize.Get(axis) && r.maxSize.Get(axis) == c.maxSize.Get(axis)
    ensures c.Sane() ==> r.Sane()
  {
    var cx := if dims.x > 0.0 then Constraints(c.minSize.With(X, dims.x), c.maxSize.With(X, Fin(dims.x))) else c;
    if dims.y > 0.0 then Constraints(cx.minSize.With(Y, dims.y), cx.maxSize.With(Y, Fin(dims.y))) else cx
  }

  /** A sized box with both dimensions positive pins its child to exactly those
      dimensions, whatever it was offered itself. */
  lemma SizedBoxForcing(c: Constraints, w: real, h: real)
    requires w > 0.0 && h > 0.0
    ensures SizedChildConstraints(c, Axes(w, h)) == Exact(w, h)
  {
    var r := SizedChildConstraints(c, Axes(w, h));
    assert r.minSize.Get(X) == w && r.minSize.Get(Y) == h;
    assert r.maxSize.Get(X) == Fin(w) && r.maxSize.Get(Y) == Fin(h);
  }

  /** The demo tree under a 1024x768 window: the outer padding (100, 50, 100, 50) offers
      its child exactly 824x668. */
  lemma ScenarioOuterPadding()
    ensures PaddedConstraints(Exact(1024.0, 768.0), EdgeInsets(100.0, 50.0, 100.0, 50.0)) == Exact(824.0, 668.0)
  {
    EdgeArithmetic();
  }

  /** The stretch rule of a flex container: it applies when the fraction is positive and
      the incoming cross-axis max is finite. */
  predicate Stretches(c: Constraints, args: FlexArgs) {
    args.crossStretch > 0.0 && c.maxSize.Get(args.mainAxis.Other()).Fin?
  }

  /** The constraints a flex container offers a non-flex child: main axis from 0 to
      unbounded, cross axis from 0 to the incoming max, or pinned to a fraction of it. */
  function FlexChildConstraints(c: Constraints, args: FlexArgs): (r: Constraints)
    ensures r.minSize.Get(args.mainAxis) == 0.0 && r.maxSize.Get(args.mainAxis) == Inf
    ensures !Stretches(c, args) ==>
              r.minSize.Get(args.mainAxis.Other()) == 0.0
              && r.maxSize.Get(args.mainAxis.Other()) == c.maxSize.Get(args.mainAxis.Other())
    ensures Stretches(c, args) ==>
              var m := c.maxSize.Get(args.mainAxis.Other()).value * args.crossStretch;
              r.minSize.Get(args.mainAxis.Other()) == m && r.maxSize.Get(args.mainAxis.Other()) == Fin(m)
    ensures c.Sane() ==> r.Sane()
  {
    var main, cross := args.mainAxis, args.mainAxis.Other();
    var nc := Constraints(c.minSize.With(cross, 0.0).With(main, 0.0), c.maxSize.With(main, Inf));
    if Stretches(c, args) then
      var m := c.maxSize.Get(cross).value * args.crossStretch;
      assert c.Sane() ==> m >= 0.0 by {
        if c.Sane() { StretchNonNegative(c.maxSize.Get(cross).value, args.crossStretch); }
      }
      Constraints(nc.minSize.With(cross, m), nc.maxSize.With(cross, Fin(m)))
    else nc
  }

  lemma StretchNonNegative(m: real, s: real)
    requires m >= 0.0 && s > 0.0
    ensures m * s >= 0.0
  {
  }

  /** The constraints a flex container offers a flex child with main-axis allotment `a`. */
  function FlexAllottedConstraints(c: Constraints, args: FlexArgs, a: real): (r: Constraints)
    ensures r.minSize == FlexChildConstraints(c, args).minSize
    ensures r.maxSize.Get(args.mainAxis) == Fin(a)
    ensures r.maxSize.Get(args.mainAxis.Other()) == FlexChildConstraints(c, args).maxSize.Get(args.mainAxis.Other())
    ensures c.Sane() && a >= 0.0 ==> r.Sane()
  {
    var nc := FlexChildConstraints(c, args);
    Constraints(nc.minSize, nc.maxSize.With(args.mainAxis, Fin(a)))
  }

  /** The main-axis space left for flex children: max(0, M - S) under a finite max M,
      nothing under an unbounded one. */
  function FlexSpace(mainMax: Extent, nonFlexSum: real): (r: real)
    ensures r >= 0.0
    ensures mainMax.Inf? ==> r == 0.0
    ensures mainMax.Fin? && nonFlexSum <= mainMax.value ==> nonFlexSum + r == mainMax.value
    ensures mainMax.Fin? && nonFlexSum > mainMax.value ==> r == 0.0
  {
    if mainMax.Fin? then Max0(mainMax.value - nonFlexSum) else 0.0
  }

  /** A flex child's share: space * (weight / total weight). */
  function Allotment(space: real, weight: real, total: real): real
    requires total != 0.0
  {
    space * (weight / total)
  }

  /** A default-kind flex child offered main-axis max `a` keeps its preset main size,
      cut down to `a`: `constrain_size` never grows it to its allotment, so a spacer with
      no preset size takes no room. */
  lemma FlexLeafKeepsPreset(s: Vec2, c: Constraints, args: FlexArgs, a: real)
    requires s.Get(args.mainAxis) >= 0.0 && a >= 0.0
    ensures ConstrainSize(s, FlexAllottedConstraints(c, args, a)).Get(args.mainAxis)
              == (if s.Get(args.mainAxis) > a then a else s.Get(args.mainAxis))
  {
    var nc := FlexAllottedConstraints(c, args, a);
    var main := args.mainAxis;
    assert nc.minSize.Get(main) == 0.0 && nc.maxSize.Get(main) == Fin(a);
    assert ConstrainSize(s, nc).Get(main) == ConstrainAxis(s.Get(main), nc.minSize.Get(main), nc.maxSize.Get(main));
  }

  lemma AllotmentNonNegative(space: real, weight: real, total: real)
    requires space >= 0.0 && weight > 0.0 && total > 0.0
    ensures Allotment(space, weight, total) >= 0.0
  {
    assert weight / total > 0.0;
  }
}

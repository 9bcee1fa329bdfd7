/** The three loops of a flex container (native/neogui.c:128-200) stated on arena
    snapshots: what each loop has established after its first `i` children, and the
    lemma that takes it from `i` to `i + 1`. The methods of `Engine.UIContext` run the
    loops on the live buffers and carry these predicates as their invariants. */
module FlexPass {
  import opened Types
  import opened Policy
  import opened Tree
  import opened FlexMath
  import opened Frame

  /** The entries of `s` at the handles `ks`. */
  function Pick<T>(s: seq<T>, ks: seq<Elem>): (r: seq<T>)
    requires forall j :: 0 <= j < |ks| ==> ks[j] < |s|
    ensures |r| == |ks| && forall j :: 0 <= j < |ks| ==> r[j] == s[ks[j]]
  {
    if ks == [] then [] else Pick(s, ks[..|ks| - 1]) + [s[ks[|ks| - 1]]]
  }

  /** `ss` lists the entries of `s` at the first `|ss|` handles of `ks`. */
  ghost predicate Lists<T>(ss: seq<T>, s: seq<T>, ks: seq<Elem>) {
    |ss| <= |ks| && forall j :: 0 <= j < |ss| ==> ks[j] < |s| && ss[j] == s[ks[j]]
  }

  /** A list of all the handles is their pick. */
  lemma ListsPick<T>(ss: seq<T>, s: seq<T>, ks: seq<Elem>)
    requires Lists(ss, s, ks) && |ss| == |ks|
    ensures ss == Pick(s, ks)
  {
  }

  /** A list for `a` is one for `b` where they agree, and grows by the next entry of `b`. */
  lemma ListsStep<T>(ss: seq<T>, a: seq<T>, b: seq<T>, ks: seq<Elem>, v: T)
    requires Lists(ss, a, ks) && |ss| < |ks| && ks[|ss|] < |b| && b[ks[|ss|]] == v
    requires forall j :: 0 <= j < |ss| ==> ks[j] < |b| && b[ks[j]] == a[ks[j]]
    ensures Lists(ss + [v], b, ks)
  {
  }

  /** `kids` are the children of `e` in `s`: the sibling chain that starts at the first
      child, each with parent `e` and a larger handle than the one before it. */
  ghost predicate KidsOf(s: Arena, e: Elem, kids: seq<Elem>) {
    && s.Fits() && 1 <= e < s.count
    && s.parentNode[e].firstChild == (if kids == [] then 0 else kids[0])
    && (forall j :: 0 <= j < |kids| ==> e < kids[j] < s.count)
    && (forall j {:trigger s.node[kids[j]]} :: 0 <= j < |kids| ==>
          && s.node[kids[j]].parent == e
          && s.node[kids[j]].nextSibling == (if j + 1 < |kids| then kids[j + 1] else 0)
          && (j + 1 < |kids| ==> kids[j] < kids[j + 1]))
  }

  /** A sequence that increases from each entry to the next increases throughout. */
  lemma {:induction false} Ascending(ks: seq<Elem>, j: nat, i: nat)
    requires forall j :: 0 <= j < |ks| - 1 ==> ks[j] < ks[j + 1]
    requires j < i < |ks|
    ensures ks[j] < ks[i]
    decreases i - j
  {
    if j + 1 < i {
      Ascending(ks, j + 1, i);
    }
  }

  /** Under the link invariant, the children of `e` are its kids. */
  lemma KidsOfLinked(s: Arena, e: Elem)
    requires s.Fits() && LinksOk(s.node, s.parentNode, s.count) && 1 <= e < s.count
    ensures KidsOf(s, e, Tree.Children(s.node, s.parentNode, s.count, e))
  {
    ChildrenFacts(s.node, s.parentNode, s.count, e);
  }

  /** The kids are pairwise distinct: they increase along the chain. */
  lemma KidsDistinct(s: Arena, e: Elem, kids: seq<Elem>, i: nat)
    requires KidsOf(s, e, kids) && i < |kids|
    ensures forall j :: 0 <= j < |kids| && j != i ==> kids[j] != kids[i]
  {
    forall j | 0 <= j < |kids| - 1
      ensures kids[j] < kids[j + 1]
    {
      assert s.node[kids[j]].parent == e;
    }
    forall j | 0 <= j < |kids| && j != i
      ensures kids[j] != kids[i]
    {
      if j < i {
        Ascending(kids, j, i);
      } else {
        Ascending(kids, i, j);
      }
    }
  }

  /** `k` was laid out under `nc`, and came out non-negative if `nc` is sane. */
  ghost predicate LaidOut(s: Arena, k: Elem, nc: Constraints)
    requires k < |s.size|
  {
    k in s.offered && s.offered[k] == nc && (nc.Sane() ==> NonNegative(s.size[k]))
  }

  /** `b` arises from `a` by laying out the `i`-th kid of `e` under `nc`: the buffers
      only grew, the child links of `e` and the links and factors of its kids are kept,
      and so are the sizes and offers of every other kid. */
  ghost predicate ChildStep(a: Arena, b: Arena, e: Elem, kids: seq<Elem>, i: nat, nc: Constraints) {
    && a.Fits() && b.Fits() && a.count <= b.count && e < a.count && i < |kids|
    && (forall j :: 0 <= j < |kids| ==> kids[j] < a.count)
    && b.parentNode[e] == a.parentNode[e]
    && (forall j :: 0 <= j < |kids| ==>
          b.node[kids[j]] == a.node[kids[j]] && b.flexFactor[kids[j]] == a.flexFactor[kids[j]])
    && LaidOut(b, kids[i], nc)
    && (forall j :: 0 <= j < |kids| && kids[j] != kids[i] ==>
          b.size[kids[j]] == a.size[kids[j]] && SameOffer(a.offered, b.offered, kids[j]))
  }

  /** Laying out one kid, within its own frame, is a child step of its parent, and a
      step within the frame of the parent. */
  lemma ChildStepOf(a: Arena, b: Arena, e: Elem, kids: seq<Elem>, i: nat, nc: Constraints)
    requires KidsOf(a, e, kids) == true && i < |kids| && Within(a, b, kids[i]) == true
    requires kids[i] in b.offered && b.offered[kids[i]] == nc
    requires nc.Sane() ==> NonNegative(b.size[kids[i]])
    ensures ChildStep(a, b, e, kids, i, nc) && Within(a, b, e) == true
  {
    assert a.node[kids[i]].parent == e;
    WithinChild(a, b, kids[i], e);
    assert Outside(a.node, e, kids[i]);
    forall j | 0 <= j < |kids| && kids[j] != kids[i]
      ensures b.size[kids[j]] == a.size[kids[j]] && SameOffer(a.offered, b.offered, kids[j])
    {
      assert a.node[kids[j]].parent == e;
      SiblingsApart(a.node, kids[j], kids[i], e);
      assert Outside(a.node, kids[j], kids[i]);
    }
  }

  /** A child step keeps the kids. */
  lemma KidsStep(a: Arena, b: Arena, e: Elem, kids: seq<Elem>, i: nat, nc: Constraints)
    requires KidsOf(a, e, kids) == true && ChildStep(a, b, e, kids, i, nc) == true
    ensures KidsOf(b, e, kids)
  {
  }

  /** A list for `a` is one for `b` where they agree. */
  lemma ListsKeep<T>(ss: seq<T>, a: seq<T>, b: seq<T>, ks: seq<Elem>)
    requires Lists(ss, a, ks)
    requires forall j :: 0 <= j < |ks| ==> ks[j] < |a| && ks[j] < |b| && b[ks[j]] == a[ks[j]]
    ensures Lists(ss, b, ks)
  {
  }

  /** Laying out the `i`-th kid keeps the sizes of the kids before it. */
  lemma EarlierKept(a: Arena, b: Arena, e: Elem, kids: seq<Elem>, i: nat, nc: Constraints)
    requires KidsOf(a, e, kids) == true && ChildStep(a, b, e, kids, i, nc) == true
    ensures forall j :: 0 <= j < i ==> kids[j] < |b.size| && b.size[kids[j]] == a.size[kids[j]]
    ensures forall j :: 0 <= j < |kids| ==>
      kids[j] < |a.flexFactor| && kids[j] < |b.flexFactor| && b.flexFactor[kids[j]] == a.flexFactor[kids[j]]
  {
    KidsDistinct(a, e, kids, i);
  }

  /** Every kid among the first `|fs|` whose factor in `fs` is not positive was laid
      out under `nc`. */
  ghost predicate SizedLaidOut(s: Arena, kids: seq<Elem>, fs: seq<real>, nc: Constraints) {
    |fs| <= |kids| && forall j :: 0 <= j < |fs| && fs[j] <= 0.0 ==> kids[j] < |s.size| && LaidOut(s, kids[j], nc)
  }

  lemma SizedLaidOutStep(s: Arena, s': Arena, e: Elem, kids: seq<Elem>, fs: seq<real>, nc: Constraints)
    requires SizedLaidOut(s, kids, fs, nc) == true && KidsOf(s, e, kids) == true
    requires ChildStep(s, s', e, kids, |fs|, nc) == true
    ensures SizedLaidOut(s', kids, fs + [0.0], nc)
  {
    KidsDistinct(s, e, kids, |fs|);
  }

  /** What the first loop has established after the kids listed in `ss` (sizes) and
      `fs` (flex factors): `Measured` over them, and every non-flex kid among them laid
      out under `nc`. */
  ghost predicate FirstPassAt(s: Arena, e: Elem, kids: seq<Elem>, nc: Constraints, main: Axis, minCross: real,
                              ss: seq<Vec2>, fs: seq<real>, nonFlex: real, factors: real, maxCross: real) {
    && KidsOf(s, e, kids) && |fs| == |ss|
    && Lists(ss, s.size, kids) && Lists(fs, s.flexFactor, kids)
    && Measured(ss, fs, main, minCross, nonFlex, factors, maxCross)
    && SizedLaidOut(s, kids, fs, nc)
  }

  lemma FirstPassStart(s: Arena, e: Elem, kids: seq<Elem>, nc: Constraints, main: Axis, minCross: real)
    requires KidsOf(s, e, kids)
    ensures FirstPassAt(s, e, kids, nc, main, minCross, [], [], 0.0, 0.0, minCross)
  {
  }

  /** A flex kid adds its factor and is not laid out. */
  lemma FirstPassFlex(s: Arena, e: Elem, kids: seq<Elem>, nc: Constraints, main: Axis, minCross: real,
                      ss: seq<Vec2>, fs: seq<real>, nonFlex: real, factors: real, maxCross: real, x: Vec2, f: real)
    requires FirstPassAt(s, e, kids, nc, main, minCross, ss, fs, nonFlex, factors, maxCross) == true
    requires |ss| < |kids| && x == s.size[kids[|ss|]] && f == s.flexFactor[kids[|ss|]] && f > 0.0
    ensures FirstPassAt(s, e, kids, nc, main, minCross, ss + [x], fs + [f], nonFlex, factors + f, maxCross) == true
  {
    ListsStep(ss, s.size, s.size, kids, x);
    ListsStep(fs, s.flexFactor, s.flexFactor, kids, f);
    MeasuredFlex(ss, fs, main, minCross, nonFlex, factors, maxCross, x, f);
    assert SizedLaidOut(s, kids, fs + [f], nc);
  }

  /** A kid with factor 0 is laid out under `nc`; its main size joins the non-flex sum
      and its cross size may raise the maximum. */
  lemma FirstPassSized(s: Arena, s': Arena, e: Elem, kids: seq<Elem>, nc: Constraints, main: Axis,
                       minCross: real, ss: seq<Vec2>, fs: seq<real>, nonFlex: real, factors: real, maxCross: real,
                       x: Vec2)
    requires FirstPassAt(s, e, kids, nc, main, minCross, ss, fs, nonFlex, factors, maxCross) == true
    requires ChildStep(s, s', e, kids, |ss|, nc) == true && s.flexFactor[kids[|ss|]] == 0.0
    requires x == s'.size[kids[|ss|]]
    ensures FirstPassAt(s', e, kids, nc, main, minCross, ss + [x], fs + [0.0],
                        nonFlex + x.Get(main), factors, Larger(x.Get(main.Other()), maxCross)) == true
  {
    var i := |ss|;
    KidsStep(s, s', e, kids, i, nc);
    EarlierKept(s, s', e, kids, i, nc);
    ListsStep(ss, s.size, s'.size, kids, x);
    ListsKeep(fs, s.flexFactor, s'.flexFactor, kids);
    ListsStep(fs, s'.flexFactor, s'.flexFactor, kids, 0.0);
    MeasuredSized(ss, fs, main, minCross, nonFlex, factors, maxCross, x);
    SizedLaidOutStep(s, s', e, kids, fs, nc);
  }

  /** Every kid among the first `|fs|` with a positive factor in `fs` was laid out under
      its allotment of `space`, weighted by its factor over `total`. */
  ghost predicate FlexLaidOut(s: Arena, kids: seq<Elem>, fs: seq<real>, c: Constraints, args: FlexArgs,
                              space: real, total: real) {
    |fs| <= |kids| && forall j :: 0 <= j < |fs| && fs[j] > 0.0 ==>
      total != 0.0 && kids[j] < |s.size| && LaidOut(s, kids[j], FlexAllottedConstraints(c, args, Allotment(space, fs[j], total)))
  }

  lemma FlexLaidOutStep(s: Arena, s': Arena, e: Elem, kids: seq<Elem>, fs: seq<real>, c: Constraints,
                        args: FlexArgs, space: real, total: real, f: real)
    requires FlexLaidOut(s, kids, fs, c, args, space, total) == true && KidsOf(s, e, kids) == true && total != 0.0
    requires ChildStep(s, s', e, kids, |fs|, FlexAllottedConstraints(c, args, Allotment(space, f, total))) == true
    ensures FlexLaidOut(s', kids, fs + [f], c, args, space, total)
  {
    KidsDistinct(s, e, kids, |fs|);
  }

  /** The kids whose factor in `fsAll` is not positive have the sizes and offers they
      had in `s1`. */
  ghost predicate SizedKept(s1: Arena, s: Arena, kids: seq<Elem>, fsAll: seq<real>) {
    |fsAll| == |kids| && forall j :: 0 <= j < |kids| && fsAll[j] <= 0.0 ==>
      kids[j] < |s.size| && kids[j] < |s1.size| &&
      s.size[kids[j]] == s1.size[kids[j]] && SameOffer(s1.offered, s.offered, kids[j])
  }

  lemma SizedKeptStep(s1: Arena, s: Arena, s': Arena, e: Elem, kids: seq<Elem>, fsAll: seq<real>, i: nat,
                      nc: Constraints)
    requires SizedKept(s1, s, kids, fsAll) == true && KidsOf(s, e, kids) == true
    requires ChildStep(s, s', e, kids, i, nc) == true
    requires fsAll[i] > 0.0
    ensures SizedKept(s1, s', kids, fsAll)
  {
    KidsDistinct(s, e, kids, i);
  }

  /** The bookkeeping half of the second loop after the kids listed in `ss` and `fs`,
      starting from `s1`: the kids of `e` are still `kids`, `ss` and `fs` list their
      sizes and factors, the non-flex kids kept their sizes and offers, and `total` is
      the sum of all the factors `fsAll`. */
  ghost predicate SecondKept(s1: Arena, s: Arena, e: Elem, kids: seq<Elem>, fsAll: seq<real>, total: real,
                             ss: seq<Vec2>, fs: seq<real>) {
    && KidsOf(s, e, kids) && |fs| == |ss|
    && Lists(fsAll, s.flexFactor, kids) && total == FactorSum(fsAll)
    && SizedKept(s1, s, kids, fsAll)
    && Lists(ss, s.size, kids) && Lists(fs, s.flexFactor, kids)
  }

  /** Laying out a flex kid keeps the bookkeeping and extends the lists by it. */
  lemma SecondKeptStep(s1: Arena, s: Arena, s': Arena, e: Elem, kids: seq<Elem>, fsAll: seq<real>, total: real,
                       ss: seq<Vec2>, fs: seq<real>, nc: Constraints)
    requires SecondKept(s1, s, e, kids, fsAll, total, ss, fs) == true
    requires |ss| < |kids| && ChildStep(s, s', e, kids, |ss|, nc) == true
    requires s.flexFactor[kids[|ss|]] > 0.0
    ensures SecondKept(s1, s', e, kids, fsAll, total, ss + [s'.size[kids[|ss|]]], fs + [s.flexFactor[kids[|ss|]]]) == true
  {
    var i := |ss|;
    var f, x := s.flexFactor[kids[i]], s'.size[kids[i]];
    KidsStep(s, s', e, kids, i, nc);
    EarlierKept(s, s', e, kids, i, nc);
    ListsStep(ss, s.size, s'.size, kids, x);
    ListsKeep(fs, s.flexFactor, s'.flexFactor, kids);
    ListsStep(fs, s'.flexFactor, s'.flexFactor, kids, f);
    ListsKeep(fsAll, s.flexFactor, s'.flexFactor, kids);
    SizedKeptStep(s1, s, s', e, kids, fsAll, i, nc);
  }

  /** What the second loop has established after the kids listed in `ss` and `fs`,
      starting from `s1`: the bookkeeping of `SecondKept`; the flex main sizes so far
      sum to `flexSum`; `maxCross` is the running cross maximum over the flex kids so
      far, from `base`; every flex kid so far was laid out under its allotment of
      `space`, weighted by its factor over `total`. */
  ghost predicate SecondPassAt(s1: Arena, s: Arena, e: Elem, kids: seq<Elem>, c: Constraints,
                               args: FlexArgs, space: real, fsAll: seq<real>, total: real, base: real,
                               ss: seq<Vec2>, fs: seq<real>, flexSum: real, maxCross: real) {
    && SecondKept(s1, s, e, kids, fsAll, total, ss, fs)
    && FlexMeasured(ss, fs, args.mainAxis, base, flexSum, maxCross)
    && FlexLaidOut(s, kids, fs, c, args, space, total)
  }

  lemma SecondPassStart(s: Arena, e: Elem, kids: seq<Elem>, fsAll: seq<real>, c: Constraints,
                        args: FlexArgs, space: real, base: real)
    requires KidsOf(s, e, kids) && Lists(fsAll, s.flexFactor, kids) && |fsAll| == |kids|
    ensures SecondPassAt(s, s, e, kids, c, args, space, fsAll, FactorSum(fsAll), base, [], [], 0.0, base)
  {
  }

  /** A non-flex kid is skipped. */
  lemma SecondPassSkip(s1: Arena, s: Arena, e: Elem, kids: seq<Elem>, c: Constraints, args: FlexArgs,
                       space: real, fsAll: seq<real>, total: real, base: real,
                       ss: seq<Vec2>, fs: seq<real>, flexSum: real, maxCross: real, x: Vec2, f: real)
    requires SecondPassAt(s1, s, e, kids, c, args, space, fsAll, total, base, ss, fs, flexSum, maxCross) == true
    requires |ss| < |kids| && x == s.size[kids[|ss|]] && f == s.flexFactor[kids[|ss|]] && f <= 0.0
    ensures SecondPassAt(s1, s, e, kids, c, args, space, fsAll, total, base, ss + [x], fs + [f], flexSum, maxCross) == true
  {
    ListsStep(ss, s.size, s.size, kids, x);
    ListsStep(fs, s.flexFactor, s.flexFactor, kids, f);
    FlexMeasuredSkip(ss, fs, args.mainAxis, base, flexSum, maxCross, x, f);
    assert FlexLaidOut(s, kids, fs + [f], c, args, space, total);
  }

  /** A flex kid is laid out under its allotment; its main size joins the flex sum and
      its cross size may raise the maximum. */
  lemma SecondPassFlex(s1: Arena, s: Arena, s': Arena, e: Elem, kids: seq<Elem>, c: Constraints,
                       args: FlexArgs, space: real, fsAll: seq<real>, total: real, base: real,
                       ss: seq<Vec2>, fs: seq<real>, flexSum: real, maxCross: real, f: real, x: Vec2)
    requires SecondPassAt(s1, s, e, kids, c, args, space, fsAll, total, base, ss, fs, flexSum, maxCross) == true
    requires |ss| < |kids| && s.flexFactor[kids[|ss|]] == f && f > 0.0 && total != 0.0
    requires ChildStep(s, s', e, kids, |ss|, FlexAllottedConstraints(c, args, Allotment(space, f, total))) == true
    requires x == s'.size[kids[|ss|]]
    ensures SecondPassAt(s1, s', e, kids, c, args, space, fsAll, total, base, ss + [x], fs + [f],
                         flexSum + x.Get(args.mainAxis), Larger(x.Get(args.mainAxis.Other()), maxCross)) == true
  {
    var nc := FlexAllottedConstraints(c, args, Allotment(space, f, total));
    SecondKeptStep(s1, s, s', e, kids, fsAll, total, ss, fs, nc);
    FlexMeasuredAdd(ss, fs, args.mainAxis, base, flexSum, maxCross, x, f);
    FlexLaidOutStep(s, s', e, kids, fs, c, args, space, total, f);
  }

  /** What the third loop has established after `i` kids of `e` in `s2`: `pos` differs
      from the positions of `s2` only strictly inside the subtree of `e`; the first `i`
      kids sit where `Placed` puts them for the sizes `ss` of all kids; `offset` is where
      the next one starts. */
  ghost predicate PlacedUpTo(s2: Arena, pos: seq<Vec2>, e: Elem, kids: seq<Elem>, ss: seq<Vec2>,
                             main: Axis, crossSize: real, align: real, i: nat, offset: real) {
    && KidsOf(s2, e, kids) && |pos| == s2.count && i <= |kids|
    && pos[e] == s2.pos[e]
    && (forall k {:trigger Outside(s2.node, k, e)} :: 0 <= k < s2.count && Outside(s2.node, k, e) ==>
          pos[k] == s2.pos[k])
    && Lists(ss, s2.size, kids) && |ss| == |kids|
    && offset == SumAlong(ss[..i], main)
    && (forall j :: 0 <= j < i ==> pos[kids[j]] == Placed(ss, j, main, crossSize, align))
  }

  lemma PlaceStart(s: Arena, e: Elem, kids: seq<Elem>, ss: seq<Vec2>, main: Axis, crossSize: real, align: real)
    requires KidsOf(s, e, kids) && Lists(ss, s.size, kids) && |ss| == |kids|
    ensures PlacedUpTo(s, s.pos, e, kids, ss, main, crossSize, align, 0, 0.0)
  {
  }

  /** Placing the next kid: its cross position comes from the alignment, its main
      position is the running offset, which then grows by its main size. */
  lemma PlaceStep(s2: Arena, pos: seq<Vec2>, e: Elem, kids: seq<Elem>, ss: seq<Vec2>,
                  main: Axis, crossSize: real, align: real, i: nat, offset: real)
    requires PlacedUpTo(s2, pos, e, kids, ss, main, crossSize, align, i, offset) == true && i < |kids|
    ensures var k, cross := kids[i], main.Other();
      var v := pos[k].With(cross, AlignOffset(crossSize, s2.size[k].Get(cross), align)).With(main, offset);
      PlacedUpTo(s2, pos[k := v], e, kids, ss, main, crossSize, align, i + 1, offset + s2.size[k].Get(main))
  {
    var k, cross := kids[i], main.Other();
    var v := pos[k].With(cross, AlignOffset(crossSize, s2.size[k].Get(cross), align)).With(main, offset);
    assert s2.node[k].parent == e;
    KidsDistinct(s2, e, kids, i);
    SumAlongStep(ss, i, main);
    forall j | 0 <= j < s2.count && Outside(s2.node, j, e)
      ensures j != k
    {
      ChildInSubtree(s2.node, k, e);
    }
    assert v == Placed(ss, i, main, crossSize, align) by {
      assert v.Get(main) == offset && v.Get(cross) == AlignOffset(crossSize, ss[i].Get(cross), align);
    }
  }

  /** Positions placed within the frame of `e` make a step within that frame. */
  lemma PlacedWithin(s2: Arena, pos: seq<Vec2>, e: Elem, kids: seq<Elem>, ss: seq<Vec2>,
                     main: Axis, crossSize: real, align: real, i: nat, offset: real)
    requires PlacedUpTo(s2, pos, e, kids, ss, main, crossSize, align, i, offset)
    ensures Within(s2, s2.(pos := pos), e) == true
  {
  }

  /** The offers of a flex container to its kids with sizes `ss` and factors `fs`:
      every non-flex kid was offered `FlexChildConstraints`, every flex kid its share of
      the space the non-flex kids leave under a finite main max. */
  ghost predicate FlexOffered(s: Arena, kids: seq<Elem>, ss: seq<Vec2>, fs: seq<real>, c: Constraints, args: FlexArgs)
    requires |fs| == |ss|
  {
    |fs| == |kids| && forall j :: 0 <= j < |kids| ==>
      && kids[j] < |s.size|
      && (fs[j] <= 0.0 ==> LaidOut(s, kids[j], FlexChildConstraints(c, args)))
      && (fs[j] > 0.0 ==> LaidOut(s, kids[j], FlexAllottedConstraints(c, args,
            Allotment(FlexSpace(c.maxSize.Get(args.mainAxis), SumWhere(ss, fs, args.mainAxis, false)),
                      fs[j], FactorSum(fs)))))
  }

  /** Each kid sits where `Placed` puts it. */
  ghost predicate FlexPlaced(pos: seq<Vec2>, kids: seq<Elem>, ss: seq<Vec2>, main: Axis, crossSize: real, align: real) {
    |ss| == |kids| && forall j :: 0 <= j < |kids| ==> kids[j] < |pos| && pos[kids[j]] == Placed(ss, j, main, crossSize, align)
  }

  /** The outcome of laying out the flex container `e` under `c` in `s`, over its kids
      in sibling order with their final sizes and factors: no factor is negative; the
      kids were offered what `FlexOffered` says; the container spans the kids along the
      main axis and the widest of them (or the incoming minimum) across it; each kid
      sits where `Placed` puts it. */
  ghost predicate FlexDone(s: Arena, e: Elem, kids: seq<Elem>, c: Constraints, args: FlexArgs) {
    && KidsOf(s, e, kids)
    && var main, cross := args.mainAxis, args.mainAxis.Other();
       var ss, fs := Pick(s.size, kids), Pick(s.flexFactor, kids);
       && (forall j :: 0 <= j < |fs| ==> fs[j] >= 0.0)
       && FlexOffered(s, kids, ss, fs, c, args)
       && s.size[e].Get(main) == SumAlong(ss, main)
       && CrossSpan(ss, cross, c.minSize.Get(cross), s.size[e].Get(cross))
       && FlexPlaced(s.pos, kids, ss, main, s.size[e].Get(cross), args.crossAlign)
  }

  /** What a flex layout did holds in any state with the same links, sizes, positions
      and factors and the same offers to the kids. */
  lemma FlexDoneKept(s: Arena, t: Arena, e: Elem, kids: seq<Elem>, c: Constraints, args: FlexArgs)
    requires FlexDone(s, e, kids, c, args)
    requires t.Fits() && t.count == s.count && t.node == s.node && t.parentNode == s.parentNode
    requires t.size == s.size && t.pos == s.pos && t.flexFactor == s.flexFactor
    requires forall j :: 0 <= j < |kids| ==> SameOffer(s.offered, t.offered, kids[j])
    ensures FlexDone(t, e, kids, c, args)
  {
    var ss, fs := Pick(s.size, kids), Pick(s.flexFactor, kids);
    assert KidsOf(t, e, kids);
    assert FlexOffered(t, kids, ss, fs, c, args);
  }

  /** Recording an offer to the container itself leaves what its layout did to the kids. */
  lemma FlexDoneOffer(s: Arena, e: Elem, kids: seq<Elem>, c: Constraints, args: FlexArgs, o: Constraints)
    requires FlexDone(s, e, kids, c, args)
    ensures FlexDone(s.(offered := s.offered[e := o]), e, kids, c, args)
  {
    var t := s.(offered := s.offered[e := o]);
    forall j | 0 <= j < |kids|
      ensures SameOffer(s.offered, t.offered, kids[j])
    {
      assert kids[j] != e;
    }
    FlexDoneKept(s, t, e, kids, c, args);
  }

  /** Under sane constraints a laid-out flex container has a non-negative size: every
      kid was offered sane constraints, so the kids' sizes, their sum and the cross
      maximum from the incoming minimum are all non-negative. */
  lemma FlexDoneNonNegative(s: Arena, e: Elem, kids: seq<Elem>, c: Constraints, args: FlexArgs)
    requires FlexDone(s, e, kids, c, args) && c.Sane()
    ensures NonNegative(s.size[e])
  {
    var main, cross := args.mainAxis, args.mainAxis.Other();
    var ss, fs := Pick(s.size, kids), Pick(s.flexFactor, kids);
    var space := FlexSpace(c.maxSize.Get(main), SumWhere(ss, fs, main, false));
    forall j | 0 <= j < |kids|
      ensures NonNegative(ss[j]) && ss[j].Get(main) >= 0.0
    {
      if fs[j] > 0.0 {
        AllotmentNonNegative(space, fs[j], FactorSum(fs));
      }
    }
    SumAlongNonNegative(ss, main);
    assert s.size[e].Get(cross) >= c.minSize.Get(cross) >= 0.0;
  }

  /** After the second loop the listed sizes and factors are those of every kid, and the
      factors are the ones the first loop saw. */
  lemma SecondPassFull(s1: Arena, s2: Arena, e: Elem, kids: seq<Elem>, c: Constraints, args: FlexArgs,
                       space: real, fsAll: seq<real>, total: real, base: real,
                       ss: seq<Vec2>, fs: seq<real>, flexSum: real, maxCross: real)
    requires SecondPassAt(s1, s2, e, kids, c, args, space, fsAll, total, base, ss, fs, flexSum, maxCross)
    requires |ss| == |kids|
    ensures fs == fsAll == Pick(s2.flexFactor, kids) && ss == Pick(s2.size, kids)
  {
    ListsPick(fs, s2.flexFactor, kids);
    ListsPick(fsAll, s2.flexFactor, kids);
    ListsPick(ss, s2.size, kids);
  }

  /** The non-flex kids end the second loop with the sizes the first loop measured. */
  lemma SizedAgree(s1: Arena, s2: Arena, kids: seq<Elem>, ss1: seq<Vec2>, ss2: seq<Vec2>, fs: seq<real>)
    requires SizedKept(s1, s2, kids, fs) && Lists(ss1, s1.size, kids) && Lists(ss2, s2.size, kids)
    requires |ss1| == |ss2| == |fs|
    ensures forall j :: 0 <= j < |fs| && (fs[j] > 0.0) == false ==> ss1[j] == ss2[j]
  {
  }

  /** The offers after the second loop: the non-flex kids keep those of the first. */
  lemma OffersAfter(s1: Arena, s2: Arena, kids: seq<Elem>, ss: seq<Vec2>, fs: seq<real>, c: Constraints,
                    args: FlexArgs, space: real)
    requires |fs| == |ss| == |kids|
    requires SizedLaidOut(s1, kids, fs, FlexChildConstraints(c, args)) && SizedKept(s1, s2, kids, fs)
    requires FlexLaidOut(s2, kids, fs, c, args, space, FactorSum(fs))
    requires space == FlexSpace(c.maxSize.Get(args.mainAxis), SumWhere(ss, fs, args.mainAxis, false))
    requires forall j :: 0 <= j < |kids| ==> kids[j] < |s2.size|
    ensures FlexOffered(s2, kids, ss, fs, c, args)
  {
  }

  /** Setting the container's size and its kids' positions keeps the offers. */
  lemma OffersKept(s2: Arena, s4: Arena, e: Elem, kids: seq<Elem>, ss: seq<Vec2>, fs: seq<real>, c: Constraints,
                   args: FlexArgs)
    requires |fs| == |ss| && FlexOffered(s2, kids, ss, fs, c, args)
    requires s4.offered == s2.offered && |s4.size| == |s2.size|
    requires forall j :: 0 <= j < |kids| ==> kids[j] < |s2.size| && s4.size[kids[j]] == s2.size[kids[j]]
    ensures FlexOffered(s4, kids, ss, fs, c, args)
  {
  }

  /** The third loop done: every kid is placed, and the kids are unchanged. */
  lemma PlacedAll(s3: Arena, pos: seq<Vec2>, e: Elem, kids: seq<Elem>, ss: seq<Vec2>,
                  main: Axis, crossSize: real, align: real, offset: real)
    requires PlacedUpTo(s3, pos, e, kids, ss, main, crossSize, align, |kids|, offset)
    ensures FlexPlaced(pos, kids, ss, main, crossSize, align) && KidsOf(s3.(pos := pos), e, kids)
  {
  }

  /** `FlexDone` from its parts, for the kids' final sizes `ss` and factors `fs`. */
  lemma FlexDoneIntro(s: Arena, e: Elem, kids: seq<Elem>, c: Constraints, args: FlexArgs,
                      ss: seq<Vec2>, fs: seq<real>)
    requires KidsOf(s, e, kids)
    requires Lists(ss, s.size, kids) && Lists(fs, s.flexFactor, kids) && |ss| == |fs| == |kids|
    requires forall j :: 0 <= j < |fs| ==> fs[j] >= 0.0
    requires FlexOffered(s, kids, ss, fs, c, args)
    requires s.size[e].Get(args.mainAxis) == SumAlong(ss, args.mainAxis)
    requires CrossSpan(ss, args.mainAxis.Other(), c.minSize.Get(args.mainAxis.Other()), s.size[e].Get(args.mainAxis.Other()))
    requires FlexPlaced(s.pos, kids, ss, args.mainAxis, s.size[e].Get(args.mainAxis.Other()), args.crossAlign)
    ensures FlexDone(s, e, kids, c, args)
  {
    ListsPick(ss, s.size, kids);
    ListsPick(fs, s.flexFactor, kids);
  }

  /** The container's new size leaves its kids' entries alone. */
  lemma ResizeKeepsKids(s2: Arena, s4: Arena, e: Elem, kids: seq<Elem>, ss: seq<Vec2>, fs: seq<real>, v: Vec2)
    requires KidsOf(s2, e, kids) && Lists(ss, s2.size, kids) && Lists(fs, s2.flexFactor, kids)
    requires s4.size == s2.size[e := v] && s4.flexFactor == s2.flexFactor
    ensures Lists(ss, s4.size, kids) && Lists(fs, s4.flexFactor, kids)
    ensures forall j :: 0 <= j < |kids| ==> kids[j] < |s2.size| && s4.size[kids[j]] == s2.size[kids[j]]
  {
  }

  /** What the first two loops leave for the rest: the kids with final sizes `ss` and
      factors `fs`, no factor negative, the offers `FlexOffered` describes, and the
      extents the container takes: `mainSum` along the main axis, `maxCross` across. */
  ghost predicate Gathered(s: Arena, e: Elem, kids: seq<Elem>, c: Constraints, args: FlexArgs,
                           ss: seq<Vec2>, fs: seq<real>, mainSum: real, maxCross: real) {
    && KidsOf(s, e, kids) && |ss| == |kids| && |fs| == |kids|
    && Lists(ss, s.size, kids) && Lists(fs, s.flexFactor, kids)
    && (forall j :: 0 <= j < |fs| ==> fs[j] >= 0.0)
    && FlexOffered(s, kids, ss, fs, c, args)
    && mainSum == SumAlong(ss, args.mainAxis)
    && CrossSpan(ss, args.mainAxis.Other(), c.minSize.Get(args.mainAxis.Other()), maxCross)
  }

  /** The first two loops together. */
  lemma Gather(s1: Arena, s2: Arena, e: Elem, kids: seq<Elem>, c: Constraints, args: FlexArgs,
               ss1: seq<Vec2>, fs1: seq<real>, nonFlex: real, factors: real, maxCross1: real,
               ss2: seq<Vec2>, fs2: seq<real>, flexSum: real, maxCross2: real)
    requires FirstPassAt(s1, e, kids, FlexChildConstraints(c, args), args.mainAxis,
                         c.minSize.Get(args.mainAxis.Other()), ss1, fs1, nonFlex, factors, maxCross1) == true
    requires |ss1| == |kids|
    requires SecondPassAt(s1, s2, e, kids, c, args, FlexSpace(c.maxSize.Get(args.mainAxis), nonFlex),
                          fs1, factors, maxCross1, ss2, fs2, flexSum, maxCross2) == true
    requires |ss2| == |kids|
    ensures Gathered(s2, e, kids, c, args, ss2, fs1, flexSum + nonFlex, maxCross2) == true
  {
    var main, cross := args.mainAxis, args.mainAxis.Other();
    var minCross := c.minSize.Get(cross);
    SecondPassFull(s1, s2, e, kids, c, args, FlexSpace(c.maxSize.Get(main), nonFlex), fs1, factors, maxCross1,
                   ss2, fs2, flexSum, maxCross2);
    SizedAgree(s1, s2, kids, ss1, ss2, fs1);
    FlexSpan(ss1, ss2, fs1, main, minCross, nonFlex, factors, maxCross1, flexSum, maxCross2);
    OffersAfter(s1, s2, kids, ss2, fs1, c, args, FlexSpace(c.maxSize.Get(main), nonFlex));
  }

  /** Setting the container's size to `mainSum` and `maxCross` and placing the kids
      completes the layout `FlexDone` describes. */
  lemma Finish(s2: Arena, s3: Arena, s4: Arena, e: Elem, kids: seq<Elem>, c: Constraints, args: FlexArgs,
               ss: seq<Vec2>, fs: seq<real>, mainSum: real, maxCross: real, offset: real)
    requires Gathered(s2, e, kids, c, args, ss, fs, mainSum, maxCross) == true
    requires s3 == s2.(size := s2.size[e := s2.size[e].With(args.mainAxis, mainSum).With(args.mainAxis.Other(), maxCross)])
    requires PlacedUpTo(s3, s4.pos, e, kids, ss, args.mainAxis, maxCross, args.crossAlign, |kids|, offset) == true
    requires s4 == s3.(pos := s4.pos)
    ensures FlexDone(s4, e, kids, c, args) == true
  {
    var main, cross := args.mainAxis, args.mainAxis.Other();
    var v := s2.size[e].With(main, mainSum).With(cross, maxCross);
    ResizeKeepsKids(s2, s4, e, kids, ss, fs, v);
    OffersKept(s2, s4, e, kids, ss, fs, c, args);
    PlacedAll(s3, s4.pos, e, kids, ss, main, maxCross, args.crossAlign, offset);
    OtherTwice(main);
    assert s4.size[e] == v && v.Get(main) == mainSum && v.Get(cross) == maxCross;
    FlexDoneIntro(s4, e, kids, c, args, ss, fs);
  }
}

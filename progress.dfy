/** When laying out a subtree cannot fail. The C code aborts in `perform_layout` only on
    its assertions: a slot without a layout routine (native/neogui.c:28), a second child
    of a single-child kind (21), a cross stretch above 1 or a negative flex factor in a
    flex container (144, 153), and a builder's element that already had children, so
    that the callback's new child is not its single one (121). `LaysOut` says that none
    of these can fire anywhere in a subtree, within `d` levels of nesting. */
module Progress {
  import opened Types
  import opened Tree
  import opened Frame
  import opened FlexPass

  /** The assertions of a routine of kind `kind` hold for an element whose children are
      `kids`, where `factors` holds the flex factors. */
  ghost predicate LocalOk(kind: LayoutKind, kids: seq<Elem>, factors: seq<real>) {
    match kind
    case NoLayout => false
    case ConstrainOnly => true
    case Padding(_) => |kids| <= 1
    case Align(_) => |kids| <= 1
    case SizedBox(_) => |kids| <= 1
    case Flex(args) =>
      args.crossStretch <= 1.0 && forall j :: 0 <= j < |kids| ==> kids[j] < |factors| && factors[kids[j]] >= 0.0
    case Builder(_) => kids == []
  }

  /** A kind whose routine cannot fail on a new element without children, within `d`
      levels of nesting: the kind a builder callback gives the child it makes. A builder
      of builders needs every kind its callback can return to be such a kind again. */
  ghost predicate FreshOk(kind: LayoutKind, d: nat)
    decreases d
  {
    if d == 0 then false
    else match kind
      case NoLayout => false
      case Flex(args) => args.crossStretch <= 1.0
      case Builder(build) => forall p: Elem, c: Constraints :: FreshOk(build(p, c).kind, d - 1)
      case _ => true
  }

  /** Laying out `e` in `s` within `d` levels of nesting cannot fail, whatever the
      constraints: `e` is live, its routine's assertions hold, every child its routine
      lays out (all of them, except for the default kind, which lays out none) lays
      out within `d - 1` levels, and a builder's callback only returns kinds that lay
      out on a new child within `d - 1` levels. */
  ghost predicate LaysOut(s: Arena, e: Elem, d: nat)
    decreases d
  {
    && s.Fits() && 1 <= e < s.count && 0 < d
    && var kids := Tree.Children(s.node, s.parentNode, s.count, e);
      && LocalOk(s.layout[e], kids, s.flexFactor)
      && (!s.layout[e].ConstrainOnly? ==> forall j :: 0 <= j < |kids| ==> LaysOut(s, kids[j], d - 1))
      && (s.layout[e].Builder? ==> forall c :: FreshOk(s.layout[e].build(e, c).kind, d - 1))
  }

  /** The child of a single-child kind lays out one level further down. */
  lemma OnlyChildLaysOut(s: Arena, e: Elem, d: nat, k: Elem)
    requires s.Fits() && 1 <= e < s.count && !s.layout[e].ConstrainOnly?
    requires Tree.Children(s.node, s.parentNode, s.count, e) == [k]
    ensures LaysOut(s, e, d) ==> d > 0 && LaysOut(s, k, d - 1)
  {
  }

  /** A builder lays out when it has no children yet and its callback, under any
      constraints, returns a kind that lays out on the new child one level down. */
  lemma BuilderLaysOut(s: Arena, e: Elem, d: nat, c: Constraints)
    requires s.Fits() && 1 <= e < s.count && s.layout[e].Builder?
    ensures LaysOut(s, e, d) ==>
      && d > 0 && Tree.Children(s.node, s.parentNode, s.count, e) == []
      && FreshOk(s.layout[e].build(e, c).kind, d - 1)
  {
  }

  /** A new element without children lays out exactly when its kind does. */
  lemma FreshLaysOut(s: Arena, k: Elem, d: nat)
    requires s.Fits() && 1 <= k < s.count && Tree.Children(s.node, s.parentNode, s.count, k) == []
    requires FreshOk(s.layout[k], d)
    ensures LaysOut(s, k, d)
  {
  }

  /** Laying out `x` keeps every subtree disjoint from its own able to lay out: their
      links, kinds and flex factors are untouched. */
  lemma {:induction false} LaysOutFrame(a: Arena, b: Arena, x: Elem, q: Elem, d: nat)
    requires Within(a, b, x) == true && LinksOk(a.node, a.parentNode, a.count)
    requires 1 <= q < a.count && Outside(a.node, q, x) && !InSubtree(a.node, x, q)
    requires LaysOut(a, q, d)
    ensures LaysOut(b, q, d)
    decreases d
  {
    var kids := Tree.Children(a.node, a.parentNode, a.count, q);
    WithinKeepsChildren(a, b, x, q);
    ChildrenFacts(a.node, a.parentNode, a.count, q);
    assert b.layout[q] == a.layout[q];
    assert LocalOk(b.layout[q], kids, b.flexFactor) by {
      if a.layout[q].Flex? {
        forall j | 0 <= j < |kids|
          ensures b.flexFactor[kids[j]] == a.flexFactor[kids[j]]
        {
        }
      }
    }
    if !a.layout[q].ConstrainOnly? {
      forall j | 0 <= j < |kids|
        ensures LaysOut(b, kids[j], d - 1)
      {
        var k := kids[j];
        assert Outside(a.node, k, x);
        if InSubtree(a.node, x, k) {
          SubtreeOfChild(a.node, x, k, q);
        }
        LaysOutFrame(a, b, x, k, d - 1);
      }
    }
  }

  /** In a tree without builders, an element whose whole subtree meets its kinds'
      assertions lays out within as many levels as there are live slots from it on:
      a child has a larger handle than its parent. */
  lemma {:induction false} LaysOutWithoutBuilders(s: Arena, e: Elem, d: nat)
    requires s.Fits() && LinksOk(s.node, s.parentNode, s.count) && 1 <= e < s.count
    requires forall k {:trigger InSubtree(s.node, k, e)} :: e <= k < s.count && InSubtree(s.node, k, e) ==>
               && !s.layout[k].Builder?
               && LocalOk(s.layout[k], Tree.Children(s.node, s.parentNode, s.count, k), s.flexFactor)
    requires d >= s.count - e
    ensures LaysOut(s, e, d)
    decreases s.count - e
  {
    var kids := Tree.Children(s.node, s.parentNode, s.count, e);
    ChildrenFacts(s.node, s.parentNode, s.count, e);
    assert InSubtree(s.node, e, e);
    forall j | 0 <= j < |kids|
      ensures LaysOut(s, kids[j], d - 1)
    {
      var k := kids[j];
      forall m | k <= m < s.count && InSubtree(s.node, m, k)
        ensures InSubtree(s.node, m, e)
      {
        SubtreeOfChild(s.node, m, k, e);
      }
      LaysOutWithoutBuilders(s, k, d - 1);
    }
  }

  /** The flex kids still to be laid out can be: every kid has a non-negative factor,
      and every kid from the `i`-th on, and every one with a positive factor, lays out
      within `d` levels. The first loop lays out the kids with factor 0; the second
      those with a positive factor. */
  ghost predicate Pending(s: Arena, kids: seq<Elem>, i: nat, d: nat) {
    forall j :: 0 <= j < |kids| ==>
      && kids[j] < |s.flexFactor| && s.flexFactor[kids[j]] >= 0.0
      && (i <= j || s.flexFactor[kids[j]] > 0.0 ==> LaysOut(s, kids[j], d))
  }

  /** A flex container that lays out has a cross stretch of at most 1, and its kids are
      all pending at the start. */
  lemma PendingStart(s: Arena, e: Elem, d: nat)
    requires s.Fits() && 1 <= e < s.count && s.layout[e].Flex?
    ensures LaysOut(s, e, d) ==>
      && d > 0 && s.layout[e].flex.crossStretch <= 1.0
      && Pending(s, Tree.Children(s.node, s.parentNode, s.count, e), 0, d - 1)
  {
  }

  /** The `i`-th kid, when pending, lays out. */
  lemma PendingNext(s: Arena, kids: seq<Elem>, i: nat, d: nat)
    requires i < |kids|
    ensures Pending(s, kids, i, d) ==> LaysOut(s, kids[i], d)
    ensures PendingFlex(s, kids, i, d) && kids[i] < |s.flexFactor| && s.flexFactor[kids[i]] > 0.0 ==>
      LaysOut(s, kids[i], d)
  {
  }

  /** A kid the first loop passes over (a positive factor) stays pending. */
  lemma PendingSkip(s: Arena, kids: seq<Elem>, i: nat, d: nat)
    requires Pending(s, kids, i, d) && i < |kids| && s.flexFactor[kids[i]] > 0.0
    ensures Pending(s, kids, i + 1, d)
  {
  }

  /** Laying out the `i`-th kid, one with factor 0, leaves the others pending: their
      subtrees are apart from its own. */
  lemma PendingStep(a: Arena, b: Arena, e: Elem, kids: seq<Elem>, i: nat, d: nat)
    requires Pending(a, kids, i, d) && KidsOf(a, e, kids) && LinksOk(a.node, a.parentNode, a.count)
    requires i < |kids| && a.flexFactor[kids[i]] <= 0.0 && Within(a, b, kids[i]) == true
    ensures Pending(b, kids, i + 1, d)
  {
    KidsDistinct(a, e, kids, i);
    forall j | 0 <= j < |kids|
      ensures kids[j] < |b.flexFactor| && b.flexFactor[kids[j]] == a.flexFactor[kids[j]]
      ensures i + 1 <= j || b.flexFactor[kids[j]] > 0.0 ==> LaysOut(b, kids[j], d)
    {
      assert b.flexFactor[kids[j]] == a.flexFactor[kids[j]];
      if j != i && (i + 1 <= j || a.flexFactor[kids[j]] > 0.0) {
        assert a.node[kids[j]].parent == e && a.node[kids[i]].parent == e;
        SiblingsApart(a.node, kids[j], kids[i], e);
        SiblingsApart(a.node, kids[i], kids[j], e);
        LaysOutFrame(a, b, kids[i], kids[j], d);
      }
    }
  }

  /** The kids with a positive factor from the `i`-th on lay out within `d` levels. */
  ghost predicate PendingFlex(s: Arena, kids: seq<Elem>, i: nat, d: nat) {
    forall j :: i <= j < |kids| ==>
      kids[j] < |s.flexFactor| && (s.flexFactor[kids[j]] > 0.0 ==> LaysOut(s, kids[j], d))
  }

  /** After the first loop, the flex kids are pending for the second. */
  lemma PendingFlexStart(s: Arena, kids: seq<Elem>, d: nat)
    requires Pending(s, kids, |kids|, d)
    ensures PendingFlex(s, kids, 0, d)
  {
  }

  /** Laying out the `i`-th kid leaves the later flex kids pending. */
  lemma PendingFlexStep(a: Arena, b: Arena, e: Elem, kids: seq<Elem>, i: nat, d: nat)
    requires PendingFlex(a, kids, i, d) && KidsOf(a, e, kids) && LinksOk(a.node, a.parentNode, a.count)
    requires i < |kids| && Within(a, b, kids[i]) == true
    ensures PendingFlex(b, kids, i + 1, d)
  {
    KidsDistinct(a, e, kids, i);
    forall j | i + 1 <= j < |kids|
      ensures kids[j] < |b.flexFactor| && (b.flexFactor[kids[j]] > 0.0 ==> LaysOut(b, kids[j], d))
    {
      assert b.flexFactor[kids[j]] == a.flexFactor[kids[j]];
      if a.flexFactor[kids[j]] > 0.0 {
        assert a.node[kids[j]].parent == e && a.node[kids[i]].parent == e;
        SiblingsApart(a.node, kids[j], kids[i], e);
        SiblingsApart(a.node, kids[i], kids[j], e);
        LaysOutFrame(a, b, kids[i], kids[j], d);
      }
    }
  }
}

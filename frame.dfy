/** Snapshots of the element arena (the component buffers of `UIContext`,
    native/neogui.h:92-121) and the frame condition of a layout pass: what laying out an
    element may change. */
module Frame {
  // Many contracts in this project state a predicate `P(...)` as `P(...) == true`.
  // The two mean the same; the second keeps a conjunctive predicate as one proof
  // obligation at the call site instead of one obligation per conjunct, each proved
  // in a heap state of its own, which keeps the methods of the layout pass within
  // the solver's resource limit.
  import opened Types
  import opened Tree

  /** The first capacity `elem_create` allocates; later growth doubles it. */
  const InitialCapacity: nat := 256

  /** The live prefix of every component buffer, the live count and the shared
      capacity, plus the log of the constraints each element was last laid out with. */
  datatype Arena = Arena(
    count: nat, capacity: nat,
    node: seq<Node>, parentNode: seq<ParentNode>,
    size: seq<Vec2>, pos: seq<Vec2>, worldPos: seq<Vec2>,
    color: seq<Color>, flexFactor: seq<real>, layout: seq<LayoutKind>,
    offered: map<Elem, Constraints>)
  {
    /** Every buffer holds exactly the live slots, and they fit the capacity. */
    ghost predicate Fits() {
      && |node| == count && |parentNode| == count
      && |size| == count && |pos| == count && |worldPos| == count
      && |color| == count && |flexFactor| == count && |layout| == count
      && count <= capacity
    }
  }

  /** `b` is `a` after `elem_create(parent)` returned `e` and the new element was given
      the kind `kind` and the flex factor `f`: the capacity grew only if every slot was
      live; with parent 0 the tree restarted at the root 1, otherwise slot `e` was
      appended as the last child of `parent`; every other buffer gained a zero slot, and
      every existing slot kept its contents. */
  ghost predicate Created(a: Arena, b: Arena, parent: Elem, e: Elem, kind: LayoutKind, f: real) {
    && b.offered == a.offered
    && (a.count < a.capacity ==> b.capacity == a.capacity)
    && (a.count >= a.capacity ==> b.capacity == if a.capacity == 0 then InitialCapacity else 2 * a.capacity)
    && (parent == 0 ==>
          && e == 1 && b.count == 2 && b.node == [Node(0, 0), Node(0, 0)]
          && b.parentNode == [ParentNode(0, 0), ParentNode(0, 0)]
          && b.size == [Zero, Zero] && b.pos == [Zero, Zero] && b.worldPos == [Zero, Zero]
          && b.color == [Transparent, Transparent] && b.flexFactor == [0.0, f]
          && b.layout == [NoLayout, kind])
    && (parent != 0 ==>
          && e == a.count && b.count == a.count + 1
          && Appended(a.node, a.parentNode, e, parent, b.node, b.parentNode)
          && b.size == a.size + [Zero] && b.pos == a.pos + [Zero] && b.worldPos == a.worldPos + [Zero]
          && b.color == a.color + [Transparent] && b.flexFactor == a.flexFactor + [f]
          && b.layout == a.layout + [kind])
  }

  /** `a` and `b` record the same offer (or none) for `k`. */
  ghost predicate SameOffer(a: map<Elem, Constraints>, b: map<Elem, Constraints>, k: Elem) {
    (k in a <==> k in b) && (k in a ==> a[k] == b[k])
  }

  /** `k` lies outside the subtree of `e`. The frame below is stated in these terms,
      which do not unfold into further instances of themselves. */
  ghost predicate Outside(nodes: seq<Node>, k: nat, e: nat) {
    !InSubtree(nodes, k, e)
  }

  /** `b` arises from `a` by laying out `e`: existing elements keep their links, colour,
      flex factor and kind; outside the subtree of `e` sizes, child links and offers are
      unchanged; positions change only strictly inside the subtree; world positions are
      untouched. New elements may have been appended. */
  ghost predicate Within(a: Arena, b: Arena, e: Elem) {
    && a.Fits() && b.Fits()
    && a.count <= b.count && a.capacity <= b.capacity
    && (forall k {:trigger b.node[k]} :: 0 <= k < a.count ==> b.node[k] == a.node[k])
    && (forall k {:trigger b.color[k]} :: 0 <= k < a.count ==> b.color[k] == a.color[k])
    && (forall k {:trigger b.flexFactor[k]} :: 0 <= k < a.count ==> b.flexFactor[k] == a.flexFactor[k])
    && (forall k {:trigger b.layout[k]} :: 0 <= k < a.count ==> b.layout[k] == a.layout[k])
    && (forall k {:trigger Outside(a.node, k, e)} :: 0 <= k < a.count && Outside(a.node, k, e) ==>
          b.size[k] == a.size[k] && b.parentNode[k] == a.parentNode[k] && SameOffer(a.offered, b.offered, k))
    && (forall k {:trigger Outside(a.node, k, e)} :: 0 <= k < a.count && Outside(a.node, k, e) ==> b.pos[k] == a.pos[k])
    && (e < a.count ==> b.pos[e] == a.pos[e])
    && (forall k {:trigger b.worldPos[k]} :: 0 <= k < a.count ==> b.worldPos[k] == a.worldPos[k])
  }

  /** What every layout routine promises about `e` when it succeeds under `c`: the
      step from `a` to `b` stays within the subtree of `e`, sane constraints give a
      non-negative size, and a routine that clamps its own size last (`clamps`) gives
      a size the constraints admit whenever some size is. */
  ghost predicate Settled(a: Arena, b: Arena, e: Elem, c: Constraints, clamps: bool) {
    && Within(a, b, e) && e < b.count
    && (c.Sane() ==> NonNegative(b.size[e]))
    && (clamps && c.Satisfiable() ==> c.Admits(b.size[e]))
  }

  /** Two layout steps of the same subtree make one. */
  lemma WithinTrans(a: Arena, b: Arena, c: Arena, e: Elem)
    requires Within(a, b, e) == true && Within(b, c, e) == true
    ensures Within(a, c, e) == true
  {
    forall k | 0 <= k < a.count
      ensures Outside(b.node, k, e) == Outside(a.node, k, e)
    {
      SubtreeAgree(a.node, b.node, a.count, k, e);
    }
  }

  /** Laying out a child is laying out inside its parent's subtree. */
  lemma WithinChild(a: Arena, b: Arena, child: Elem, e: Elem)
    requires Within(a, b, child) == true
    requires e < child < a.count && a.node[child].parent == e
    ensures Within(a, b, e) == true
  {
    forall k | 0 <= k < a.count && Outside(a.node, k, e)
      ensures Outside(a.node, k, child)
    {
      if InSubtree(a.node, k, child) {
        SubtreeOfChild(a.node, k, child, e);
      }
    }
    assert Outside(a.node, e, child);
  }

  /** Doing nothing is a layout step. */
  lemma WithinRefl(a: Arena, e: Elem)
    requires a.Fits()
    ensures Within(a, a, e) == true
  {
  }

  /** Resizing the element being laid out stays within its frame. */
  lemma WithinResize(a: Arena, b: Arena, e: Elem, v: Vec2)
    requires Within(a, b, e) == true && e < b.count
    ensures Within(a, b.(size := b.size[e := v]), e) == true
  {
  }

  /** Placing a child of the element being laid out stays within its frame. */
  lemma WithinPlace(a: Arena, b: Arena, e: Elem, k: Elem, v: Vec2)
    requires Within(a, b, e) == true && e < k < a.count && a.node[k].parent == e
    ensures Within(a, b.(pos := b.pos[k := v]), e) == true
  {
    forall j | 0 <= j < a.count && Outside(a.node, j, e)
      ensures j != k
    {
      ChildInSubtree(a.node, k, e);
    }
  }

  /** Recording the offer made to the element being laid out stays within its frame. */
  lemma WithinOffer(a: Arena, b: Arena, e: Elem, c: Constraints)
    requires Within(a, b, e) == true
    ensures Within(a, b.(offered := b.offered[e := c]), e) == true
  {
  }

  /** Laying out `x` leaves the children of an element outside its subtree alone. */
  lemma WithinKeepsChildren(a: Arena, b: Arena, x: Elem, e: Elem)
    requires Within(a, b, x) == true && LinksOk(a.node, a.parentNode, a.count)
    requires 1 <= e < a.count && Outside(a.node, e, x)
    ensures Tree.Children(b.node, b.parentNode, b.count, e) == Tree.Children(a.node, a.parentNode, a.count, e)
  {
    ChildrenFrame(a.node, a.parentNode, a.count, b.node, b.parentNode, b.count, e, 0);
  }

  /** Appending new elements, and relinking `e` itself, stays within the frame of `e`. */
  lemma WithinGrown(a: Arena, b: Arena, e: Elem)
    requires a.Fits() && b.Fits() && a.count <= b.count && a.capacity <= b.capacity
    requires forall k :: 0 <= k < a.count ==>
               && b.node[k] == a.node[k] && b.color[k] == a.color[k] && b.flexFactor[k] == a.flexFactor[k]
               && b.layout[k] == a.layout[k] && b.size[k] == a.size[k] && b.pos[k] == a.pos[k]
               && b.worldPos[k] == a.worldPos[k]
    requires forall k :: 0 <= k < a.count && k != e ==> b.parentNode[k] == a.parentNode[k]
    requires b.offered == a.offered
    ensures Within(a, b, e) == true
  {
  }

  /** A new leaf `k` made the only child of `e`, with its own kind, size, colour and
      flex factor and the zero position, stays within the frame of `e`. */
  lemma WithinNewLeaf(a: Arena, b: Arena, e: Elem, k: Elem, kind: LayoutKind, s: Vec2, col: Color, f: real)
    requires a.Fits() && b.Fits() && k == a.count && b.count == k + 1 && a.capacity <= b.capacity
    requires Appended(a.node, a.parentNode, k, e, b.node, b.parentNode) && a.parentNode[e].lastChild == 0
    requires b.size == (a.size + [Zero])[k := s] && b.pos == a.pos + [Zero] && b.worldPos == a.worldPos + [Zero]
    requires b.color == (a.color + [Transparent])[k := col] && b.flexFactor == (a.flexFactor + [0.0])[k := f]
    requires b.layout == (a.layout + [ConstrainOnly])[k := kind] && b.offered == a.offered
    ensures Within(a, b, e) == true
  {
    WithinGrown(a, b, e);
  }

  /** Laying out a child leaves its parent's own size, child links and offer alone. */
  lemma WithinKeepsParent(a: Arena, b: Arena, x: Elem, e: Elem)
    requires Within(a, b, x) == true && e < x && e < a.count
    ensures b.size[e] == a.size[e] && b.parentNode[e] == a.parentNode[e] && SameOffer(a.offered, b.offered, e)
  {
    assert Outside(a.node, e, x);
  }
}

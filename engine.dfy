/** The layout engine of native/neogui.c: one `UIContext` whose component buffers are
    updated in place while the host builds the element tree and while a frame is laid
    out, positioned and painted. */
module Engine {
  import opened Types
  import opened Policy
  import opened Tree
  import opened FlexMath
  import opened World
  import opened Frame
  import opened FlexPass
  import opened Progress

  /** The kinds whose own size goes through one of the two clamp policies last. */
  predicate Clamps(kind: LayoutKind) {
    kind.ConstrainOnly? || kind.Padding? || kind.Align?
  }

  /** The cases in which `e`, of kind `kind` with children `kids`, ends with a size that
      satisfiable constraints `c` admit: the clamping kinds; a sized box without a child,
      which clamps its dimensions; a builder whose callback makes a child of a clamping
      kind under `c`, whose size it adopts. */
  ghost predicate EndsAdmitted(kind: LayoutKind, kids: seq<Elem>, e: Elem, c: Constraints) {
    || Clamps(kind)
    || (kind.SizedBox? && kids == [])
    || (kind.Builder? && Clamps(kind.build(e, c).kind))
  }

  /** What the routine of `e`'s kind in `a` did when it laid `e` out under `c` and
      left `b`: the default kind clamped `e`'s own size; padding, align and sized box
      handled their single child (if any) as each of them does; a flex container
      finished as `FlexDone` describes; a builder made its one new child from the
      callback's template, at (0, 0), and laid it out under `c`. A slot without a
      routine did nothing. */
  ghost predicate KindDone(a: Arena, b: Arena, e: Elem, c: Constraints) {
    && a.Fits() && b.Fits() && 1 <= e < a.count <= b.count
    && var kids := Tree.Children(a.node, a.parentNode, a.count, e);
    match a.layout[e]
    case NoLayout => false
    case ConstrainOnly => b.size[e] == ConstrainSize(a.size[e], c)
    case Padding(insets) =>
      && |kids| <= 1
      && (kids == [] ==> b.size[e] == ConstrainSize(PaddedSize(Zero, insets), c))
      && (|kids| == 1 ==>
            var k := kids[0];
            && k < b.count && k in b.offered && b.offered[k] == PaddedConstraints(c, insets)
            && b.pos[k] == Axes(insets.left, insets.top)
            && b.size[e] == ConstrainSize(PaddedSize(b.size[k], insets), c))
    case Align(factor) =>
      && |kids| <= 1
      && b.size[e] == ConstrainAndGrow(a.size[e], c)
      && (|kids| == 1 ==>
            var k := kids[0];
            && k < b.count && k in b.offered && b.offered[k] == Unbounded
            && b.pos[k] == AlignedPosition(b.size[e], b.size[k], factor))
    case SizedBox(dims) =>
      && |kids| <= 1
      && (kids == [] ==> b.size[e] == ConstrainSize(dims, c))
      && (|kids| == 1 ==>
            var k := kids[0];
            && k < a.count && k in b.offered && b.offered[k] == SizedChildConstraints(c, dims)
            && b.size[e] == b.size[k] && b.pos[k] == a.pos[k])
    case Flex(args) => FlexDone(b, e, kids, c, args)
    case Builder(build) =>
      && kids == [] && a.count < b.count
      && Tree.Children(b.node, b.parentNode, b.count, e) == [a.count]
      && var k, t := a.count, build(e, c);
        && b.layout[k] == t.kind && b.color[k] == t.color && b.flexFactor[k] == t.flexFactor
        && k in b.offered && b.offered[k] == c && b.pos[k] == Zero && b.size[e] == b.size[k]
  }

  /** Computing world positions keeps what the routine of `e` did. */
  lemma KindDoneWorld(a: Arena, b: Arena, e: Elem, c: Constraints, w: seq<Vec2>)
    requires KindDone(a, b, e, c) == true && |w| == |b.worldPos|
    ensures KindDone(a, b.(worldPos := w), e, c) == true
  {
    var t := b.(worldPos := w);
    if a.layout[e].Flex? {
      var kids := Tree.Children(a.node, a.parentNode, a.count, e);
      FlexDoneKept(b, t, e, kids, c, a.layout[e].flex);
    }
  }

  /** Recording the offer to `e` itself keeps what its routine did. */
  lemma KindDoneOffer(a: Arena, b: Arena, e: Elem, c: Constraints, o: Constraints)
    requires LinksOk(a.node, a.parentNode, a.count) && KindDone(a, b, e, c) == true
    ensures KindDone(a, b.(offered := b.offered[e := o]), e, c) == true
  {
    var b' := b.(offered := b.offered[e := o]);
    ChildrenFacts(a.node, a.parentNode, a.count, e);
    if a.layout[e].Flex? {
      FlexDoneOffer(b, e, Tree.Children(a.node, a.parentNode, a.count, e), c, a.layout[e].flex, o);
    }
  }

  class UIContext {
    var count: nat
    var capacity: nat
    var node: seq<Node>
    var parentNode: seq<ParentNode>
    var size: seq<Vec2>
    var pos: seq<Vec2>
    var worldPos: seq<Vec2>
    var color: seq<Color>
    var flexFactor: seq<real>
    var layout: seq<LayoutKind>
    var inputIndex: nat
    var input: seq<InputState>
    /** The constraints each element was last laid out with. */
    ghost var offered: map<Elem, Constraints>

    ghost function Snap(): Arena
      reads this
    {
      Arena(count, capacity, node, parentNode, size, pos, worldPos, color, flexFactor, layout, offered)
    }

    /** Every buffer holds the live slots `[0, count)` (slot 0 is reserved, so a
        non-empty frame also has the root 1); the allocated capacity is 0 or at least
        256; the links are consistent; the two input buffers hold 256 key bytes each. */
    ghost predicate Valid()
      reads this
    {
      && |node| == count && |parentNode| == count
      && |size| == count && |pos| == count && |worldPos| == count
      && |color| == count && |flexFactor| == count && |layout| == count
      && count <= capacity
      && (capacity == 0 || capacity >= InitialCapacity)
      && (count == 0 || count >= 2)
      && LinksOk(node, parentNode, count)
      && InputOk()
    }

    /** Two input buffers of 256 key bytes, one of them current. */
    ghost predicate InputOk()
      reads this`inputIndex, this`input
    {
      inputIndex < 2 && |input| == 2 && |input[0].keyDown| == KeyCount && |input[1].keyDown| == KeyCount
    }

    /** The children of `p`, in creation order. */
    ghost function Children(p: Elem): seq<Elem>
      reads this
      requires count <= |node|
    {
      Tree.Children(node, parentNode, count, p)
    }

    /** The statically zeroed context: no buffers, no elements, both input buffers empty. */
    constructor ()
      ensures Valid() && count == 0 && capacity == 0 && inputIndex == 0
      ensures input == [NoKeysDown, NoKeysDown] && offered == map[]
    {
      count, capacity := 0, 0;
      node, parentNode, size, pos, worldPos := [], [], [], [], [];
      color, flexFactor, layout := [], [], [];
      inputIndex, input := 0, [NoKeysDown, NoKeysDown];
      offered := map[];
    }

    /** `elem_create`: grows the capacity when every slot is live (to 256, then by
        doubling); with parent 0 it starts the frame's tree at the root 1, otherwise it
        appends the next handle as the last child of `parent`. The new element is zero
        except for its link to the parent and the default kind. */
    method ElemCreate(parent: Elem) returns (e: Elem)
      requires Valid()
      requires parent == 0 ==> count == 0
      requires parent != 0 ==> parent < count
      modifies this`count, this`capacity, this`node, this`parentNode, this`size, this`pos,
               this`worldPos, this`color, this`flexFactor, this`layout
      ensures Valid() && 1 <= e < count && node[e].parent == parent
      ensures old(count) < old(capacity) ==> capacity == old(capacity)
      ensures old(count) >= old(capacity) ==>
                capacity == if old(capacity) == 0 then InitialCapacity else 2 * old(capacity)
      ensures parent == 0 ==>
                && e == 1 && count == 2 && node == [Node(0, 0), Node(0, 0)]
                && parentNode == [ParentNode(0, 0), ParentNode(0, 0)]
                && size == [Zero, Zero] && pos == [Zero, Zero] && worldPos == [Zero, Zero]
                && color == [Transparent, Transparent] && flexFactor == [0.0, 0.0]
                && layout == [NoLayout, ConstrainOnly] && Children(1) == []
      ensures parent != 0 ==>
                && e == old(count) && count == old(count) + 1
                && Appended(old(node), old(parentNode), e, parent, node, parentNode)
                && size == old(size) + [Zero] && pos == old(pos) + [Zero]
                && worldPos == old(worldPos) + [Zero] && color == old(color) + [Transparent]
                && flexFactor == old(flexFactor) + [0.0] && layout == old(layout) + [ConstrainOnly]
      ensures parent != 0 ==> Children(parent) == old(Children(parent)) + [e]
      ensures parent != 0 ==> forall q :: 1 <= q < old(count) && q != parent ==> Children(q) == old(Children(q))
    {
      Reserve();
      if parent != 0 {
        e := LinkNew(parent);
      } else {
        e := 1;
        StartTree();
      }
    }

    /** The growth step of `elem_create`: with every slot live, the capacity becomes
        256 the first time and doubles after that, so a free slot always remains. */
    method Reserve()
      requires Valid()
      modifies this`capacity
      ensures Valid() && count < capacity
      ensures old(count) < old(capacity) ==> capacity == old(capacity)
      ensures old(count) >= old(capacity) ==>
                capacity == if old(capacity) == 0 then InitialCapacity else 2 * old(capacity)
    {
      if count >= capacity {
        capacity := if capacity == 0 then InitialCapacity else 2 * capacity;
      }
    }

    /** The root half of `elem_create`: slots 0 and 1 become live, 1 with the default
        kind. */
    method StartTree()
      requires InputOk() && capacity >= InitialCapacity
      modifies this`count, this`node, this`parentNode, this`size, this`pos,
               this`worldPos, this`color, this`flexFactor, this`layout
      ensures Valid() && count == 2 && Children(1) == []
      ensures node == [Node(0, 0), Node(0, 0)] && parentNode == [ParentNode(0, 0), ParentNode(0, 0)]
      ensures size == [Zero, Zero] && pos == [Zero, Zero] && worldPos == [Zero, Zero]
      ensures color == [Transparent, Transparent] && flexFactor == [0.0, 0.0]
      ensures layout == [NoLayout, ConstrainOnly]
    {
      count := 2;
      node, parentNode := [Node(0, 0), Node(0, 0)], [ParentNode(0, 0), ParentNode(0, 0)];
      size, pos, worldPos := [Zero, Zero], [Zero, Zero], [Zero, Zero];
      color, flexFactor, layout := [Transparent, Transparent], [0.0, 0.0], [NoLayout, ConstrainOnly];
      RootLinksOk(node, parentNode);
    }

    /** The non-root half of `elem_create` once there is room: a zero slot is appended to
        every buffer and linked in as the last child of `parent`. */
    method LinkNew(parent: Elem) returns (e: Elem)
      requires Valid() && 1 <= parent < count && count < capacity
      modifies this`count, this`node, this`parentNode, this`size, this`pos,
               this`worldPos, this`color, this`flexFactor, this`layout
      ensures Valid() && e == old(count) && count == old(count) + 1
      ensures Appended(old(node), old(parentNode), e, parent, node, parentNode)
      ensures |node| == count && |parentNode| == count
      ensures size == old(size) + [Zero] && pos == old(pos) + [Zero]
      ensures worldPos == old(worldPos) + [Zero] && color == old(color) + [Transparent]
      ensures flexFactor == old(flexFactor) + [0.0] && layout == old(layout) + [ConstrainOnly]
      ensures Children(parent) == old(Children(parent)) + [e]
      ensures forall q :: 1 <= q < old(count) && q != parent ==> Children(q) == old(Children(q))
    {
      ghost var nodes0, pnodes0 := node, parentNode;
      e := count;
      LinkSlot(parent);
      size, pos, worldPos := size + [Zero], pos + [Zero], worldPos + [Zero];
      color, flexFactor, layout := color + [Transparent], flexFactor + [0.0], layout + [ConstrainOnly];
      count := count + 1;
      LinkedAppends(nodes0, pnodes0, parent);
      AppendFacts(nodes0, pnodes0, e, parent, node, parentNode);
    }

    /** The pointer updates of `elem_create` for slot `count`: the new node names
        `parent`, the old last child (or else `parent`'s first-child link) points to it,
        and it becomes `parent`'s last child. */
    method LinkSlot(parent: Elem)
      requires LinksOk(node, parentNode, count) && |node| == count && |parentNode| == count
      requires 1 <= parent < count
      modifies this`node, this`parentNode
      ensures node == LinkedNodes(old(node), old(parentNode), parent)
      ensures parentNode == LinkedParents(old(node), old(parentNode), parent)
    {
      ghost var nodes0, pnodes0 := node, parentNode;
      var e := count;
      var pn := parentNode[parent];
      node := node + [Node(parent, 0)];
      parentNode := parentNode + [ParentNode(0, 0)];
      if pn.lastChild != 0 {
        assert ChildLinksOk(nodes0, pnodes0, e, parent);
        node := node[pn.lastChild := node[pn.lastChild].(nextSibling := e)];
      } else {
        parentNode := parentNode[parent := pn.(firstChild := e)];
      }
      parentNode := parentNode[parent := parentNode[parent].(lastChild := e)];
    }

    /** `padding_create`. */
    method PaddingCreate(parent: Elem, left: real, top: real, right: real, bottom: real) returns (e: Elem)
      requires Valid()
      requires parent == 0 ==> count == 0
      requires parent != 0 ==> parent < count
      modifies this`count, this`capacity, this`node, this`parentNode, this`size, this`pos,
               this`worldPos, this`color, this`flexFactor, this`layout
      ensures Valid() && 1 <= e < count && node[e].parent == parent
      ensures layout[e] == Padding(EdgeInsets(left, top, right, bottom))
      ensures Created(old(Snap()), Snap(), parent, e, Padding(EdgeInsets(left, top, right, bottom)), 0.0) == true
      ensures parent != 0 ==> Children(parent) == old(Children(parent)) + [e]
      ensures parent != 0 ==> forall q :: 1 <= q < old(count) && q != parent ==> Children(q) == old(Children(q))
    {
      e := ElemCreate(parent);
      layout := layout[e := Padding(EdgeInsets(left, top, right, bottom))];
    }

    /** `align_create`. */
    method AlignCreate(parent: Elem, x: real, y: real) returns (e: Elem)
      requires Valid()
      requires parent == 0 ==> count == 0
      requires parent != 0 ==> parent < count
      modifies this`count, this`capacity, this`node, this`parentNode, this`size, this`pos,
               this`worldPos, this`color, this`flexFactor, this`layout
      ensures Valid() && 1 <= e < count && node[e].parent == parent
      ensures layout[e] == Align(Axes(x, y))
      ensures Created(old(Snap()), Snap(), parent, e, Align(Axes(x, y)), 0.0) == true
      ensures parent != 0 ==> Children(parent) == old(Children(parent)) + [e]
      ensures parent != 0 ==> forall q :: 1 <= q < old(count) && q != parent ==> Children(q) == old(Children(q))
    {
      e := ElemCreate(parent);
      layout := layout[e := Align(Axes(x, y))];
    }

    /** `center_create`: align with factor (0, 0). */
    method CenterCreate(parent: Elem) returns (e: Elem)
      requires Valid()
      requires parent == 0 ==> count == 0
      requires parent != 0 ==> parent < count
      modifies this`count, this`capacity, this`node, this`parentNode, this`size, this`pos,
               this`worldPos, this`color, this`flexFactor, this`layout
      ensures Valid() && 1 <= e < count && node[e].parent == parent
      ensures layout[e] == Align(Zero)
      ensures Created(old(Snap()), Snap(), parent, e, Align(Zero), 0.0) == true
      ensures parent != 0 ==> Children(parent) == old(Children(parent)) + [e]
      ensures parent != 0 ==> forall q :: 1 <= q < old(count) && q != parent ==> Children(q) == old(Children(q))
    {
      e := AlignCreate(parent, 0.0, 0.0);
    }

    /** `sized_box_create`. */
    method SizedBoxCreate(parent: Elem, w: real, h: real) returns (e: Elem)
      requires Valid()
      requires parent == 0 ==> count == 0
      requires parent != 0 ==> parent < count
      modifies this`count, this`capacity, this`node, this`parentNode, this`size, this`pos,
               this`worldPos, this`color, this`flexFactor, this`layout
      ensures Valid() && 1 <= e < count && node[e].parent == parent
      ensures layout[e] == SizedBox(Axes(w, h))
      ensures Created(old(Snap()), Snap(), parent, e, SizedBox(Axes(w, h)), 0.0) == true
      ensures parent != 0 ==> Children(parent) == old(Children(parent)) + [e]
      ensures parent != 0 ==> forall q :: 1 <= q < old(count) && q != parent ==> Children(q) == old(Children(q))
    {
      e := ElemCreate(parent);
      layout := layout[e := SizedBox(Axes(w, h))];
    }

    /** `flex_create`: alignment and stretch start at 0 (the zeroed `ArgsUnion`). */
    method FlexCreate(parent: Elem, mainAxis: Axis) returns (e: Elem)
      requires Valid()
      requires parent == 0 ==> count == 0
      requires parent != 0 ==> parent < count
      modifies this`count, this`capacity, this`node, this`parentNode, this`size, this`pos,
               this`worldPos, this`color, this`flexFactor, this`layout
      ensures Valid() && 1 <= e < count && node[e].parent == parent
      ensures layout[e] == Flex(FlexArgs(mainAxis, 0.0, 0.0))
      ensures Created(old(Snap()), Snap(), parent, e, Flex(FlexArgs(mainAxis, 0.0, 0.0)), 0.0) == true
      ensures parent != 0 ==> Children(parent) == old(Children(parent)) + [e]
      ensures parent != 0 ==> forall q :: 1 <= q < old(count) && q != parent ==> Children(q) == old(Children(q))
    {
      e := ElemCreate(parent);
      layout := layout[e := Flex(FlexArgs(mainAxis, 0.0, 0.0))];
    }

    /** `row_create`: a flex container along X. */
    method RowCreate(parent: Elem) returns (e: Elem)
      requires Valid()
      requires parent == 0 ==> count == 0
      requires parent != 0 ==> parent < count
      modifies this`count, this`capacity, this`node, this`parentNode, this`size, this`pos,
               this`worldPos, this`color, this`flexFactor, this`layout
      ensures Valid() && 1 <= e < count && node[e].parent == parent
      ensures layout[e] == Flex(FlexArgs(X, 0.0, 0.0))
      ensures Created(old(Snap()), Snap(), parent, e, Flex(FlexArgs(X, 0.0, 0.0)), 0.0) == true
      ensures parent != 0 ==> Children(parent) == old(Children(parent)) + [e]
      ensures parent != 0 ==> forall q :: 1 <= q < old(count) && q != parent ==> Children(q) == old(Children(q))
    {
      e := FlexCreate(parent, X);
    }

    /** `column_create`: a flex container along Y. */
    method ColumnCreate(parent: Elem) returns (e: Elem)
      requires Valid()
      requires parent == 0 ==> count == 0
      requires parent != 0 ==> parent < count
      modifies this`count, this`capacity, this`node, this`parentNode, this`size, this`pos,
               this`worldPos, this`color, this`flexFactor, this`layout
      ensures Valid() && 1 <= e < count && node[e].parent == parent
      ensures layout[e] == Flex(FlexArgs(Y, 0.0, 0.0))
      ensures Created(old(Snap()), Snap(), parent, e, Flex(FlexArgs(Y, 0.0, 0.0)), 0.0) == true
      ensures parent != 0 ==> Children(parent) == old(Children(parent)) + [e]
      ensures parent != 0 ==> forall q :: 1 <= q < old(count) && q != parent ==> Children(q) == old(Children(q))
    {
      e := FlexCreate(parent, Y);
    }

    /** `spacer_create`: a default-kind element with a flex factor. */
    method SpacerCreate(parent: Elem, factor: real) returns (e: Elem)
      requires Valid()
      requires parent == 0 ==> count == 0
      requires parent != 0 ==> parent < count
      modifies this`count, this`capacity, this`node, this`parentNode, this`size, this`pos,
               this`worldPos, this`color, this`flexFactor, this`layout
      ensures Valid() && 1 <= e < count && node[e].parent == parent
      ensures layout[e] == ConstrainOnly && flexFactor[e] == factor && size[e] == Zero
      ensures Created(old(Snap()), Snap(), parent, e, ConstrainOnly, factor) == true
      ensures parent != 0 ==> Children(parent) == old(Children(parent)) + [e]
      ensures parent != 0 ==> forall q :: 1 <= q < old(count) && q != parent ==> Children(q) == old(Children(q))
    {
      e := ElemCreate(parent);
      flexFactor := flexFactor[e := factor];
    }

    /** `layout_builder_create`: the callback together with its user data. */
    method LayoutBuilderCreate(parent: Elem, build: BuildFunc) returns (e: Elem)
      requires Valid()
      requires parent == 0 ==> count == 0
      requires parent != 0 ==> parent < count
      modifies this`count, this`capacity, this`node, this`parentNode, this`size, this`pos,
               this`worldPos, this`color, this`flexFactor, this`layout
      ensures Valid() && 1 <= e < count && node[e].parent == parent
      ensures layout[e] == Builder(build)
      ensures Created(old(Snap()), Snap(), parent, e, Builder(build), 0.0) == true
      ensures parent != 0 ==> Children(parent) == old(Children(parent)) + [e]
      ensures parent != 0 ==> forall q :: 1 <= q < old(count) && q != parent ==> Children(q) == old(Children(q))
    {
      e := ElemCreate(parent);
      layout := layout[e := Builder(build)];
    }

    /** A host write of an element's preset size through the `USE` aliases. */
    method SetSize(e: Elem, s: Vec2)
      requires Valid() && 1 <= e < count
      modifies this`size
      ensures Valid() && size == old(size)[e := s]
    {
      size := size[e := s];
    }

    /** A host write of an element's colour through the `USE` aliases. */
    method SetColor(e: Elem, c: Color)
      requires Valid() && 1 <= e < count
      modifies this`color
      ensures Valid() && color == old(color)[e := c]
    {
      color := color[e := c];
    }

    /** A host write of an element's flex factor through the `USE` aliases. */
    method SetFlexFactor(e: Elem, f: real)
      requires Valid() && 1 <= e < count
      modifies this`flexFactor
      ensures Valid() && flexFactor == old(flexFactor)[e := f]
    {
      flexFactor := flexFactor[e := f];
    }

    /** A host write of a flex container's cross alignment and cross stretch through the
        `USE` aliases, into the flex arm of its `ArgsUnion`; the main axis stays. */
    method SetFlexArgs(e: Elem, crossAlign: real, crossStretch: real)
      requires Valid() && 1 <= e < count && layout[e].Flex?
      modifies this`layout
      ensures Valid()
      ensures layout == old(layout)[e := Flex(FlexArgs(old(layout[e]).flex.mainAxis, crossAlign, crossStretch))]
    {
      layout := layout[e := Flex(layout[e].flex.(crossAlign := crossAlign, crossStretch := crossStretch))];
    }

    /** `get_single_child`: the first child, provided there is at most one; a second
        child fails the assertion (`ok` is false). */
    method GetSingleChild(e: Elem) returns (child: Elem, ok: bool)
      requires Valid() && 1 <= e < count
      ensures ok <==> |Children(e)| <= 1
      ensures ok ==> (child == 0 <==> Children(e) == [])
      ensures ok && child != 0 ==> Children(e) == [child] && e < child < count && node[child].parent == e
    {
      var pn := parentNode[e];
      SingleChild(node, parentNode, count, e);
      ChildrenFacts(node, parentNode, count, e);
      ok := pn.firstChild == 0 || pn.firstChild == pn.lastChild;
      child := pn.firstChild;
    }

    /** `constrain_size` applied to the element's current size. */
    method ConstrainSizeAt(e: Elem, c: Constraints)
      requires Valid() && 1 <= e < count
      modifies this`size
      ensures Valid() && size == old(size)[e := ConstrainSize(old(size[e]), c)]
    {
      size := size[e := ConstrainSize(size[e], c)];
    }

    /** The element's size set to `v` and then clamped by `constrain_size`. */
    method ResizeClamped(e: Elem, v: Vec2, c: Constraints)
      requires Valid() && 1 <= e < count
      modifies this`size
      ensures Valid() && size == old(size)[e := ConstrainSize(v, c)]
    {
      size := size[e := v];
      ConstrainSizeAt(e, c);
    }

    /** `constrain_and_grow_size` applied to the element's current size. */
    method ConstrainAndGrowAt(e: Elem, c: Constraints)
      requires Valid() && 1 <= e < count
      modifies this`size
      ensures Valid() && size == old(size)[e := ConstrainAndGrow(old(size[e]), c)]
    {
      size := size[e := ConstrainAndGrow(size[e], c)];
    }

    /** `perform_layout`: lays out `e` under `c` with the routine of its kind. A cleared
        slot (no layout routine) fails the assertion, as does running out of `depth`,
        the nesting the model allows. On success `e` and its subtree are the only
        elements whose size, position or offer changed, and the offer to `e` is `c`. */
    method Layout(e: Elem, c: Constraints, depth: nat) returns (ok: bool)
      requires Valid() && 1 <= e < count
      modifies this`count, this`capacity, this`node, this`parentNode, this`size, this`pos,
               this`worldPos, this`color, this`flexFactor, this`layout, this`offered
      decreases depth, 6
      ensures Valid() && old(count) <= count
      ensures ok ==> Within(old(Snap()), Snap(), e) == true && e in offered && offered[e] == c
      ensures ok && c.Sane() ==> NonNegative(size[e])
      ensures ok && c.Satisfiable() && EndsAdmitted(old(layout[e]), old(Children(e)), e, c) ==> c.Admits(size[e])
      ensures ok ==> KindDone(old(Snap()), Snap(), e, c) == true
      ensures old(layout[e]) == NoLayout || depth == 0 ==> !ok
      ensures LaysOut(old(Snap()), e, depth) ==> ok
    {
      ok := false;
      if depth > 0 {
        ghost var s0 := Snap();
        ok := LayoutByKind(e, c, depth);
        if ok {
          ghost var s1 := Snap();
          offered := offered[e := c];
          WithinOffer(s0, s1, e, c);
          KindDoneOffer(s0, s1, e, c, c);
        }
      }
    }

    /** The layout routine of `e`'s kind, run on `e`; a cleared slot has none. */
    method LayoutByKind(e: Elem, c: Constraints, depth: nat) returns (ok: bool)
      requires Valid() && 1 <= e < count && depth > 0
      modifies this`count, this`capacity, this`node, this`parentNode, this`size, this`pos,
               this`worldPos, this`color, this`flexFactor, this`layout, this`offered
      decreases depth, 5
      ensures Valid() && old(count) <= count
      ensures ok ==> Settled(old(Snap()), Snap(), e, c, Clamps(old(layout[e]))) == true
      ensures old(layout[e]) == NoLayout ==> !ok
      ensures ok && c.Satisfiable() && EndsAdmitted(old(layout[e]), old(Children(e)), e, c) ==> c.Admits(size[e])
      ensures ok ==> KindDone(old(Snap()), Snap(), e, c) == true
      ensures LaysOut(old(Snap()), e, depth) ==> ok
    {
      match layout[e] {
        case NoLayout =>
          ok := false;
        case ConstrainOnly =>
          ConstrainOnlyLayout(e, c);
          ok := true;
        case Padding(insets) =>
          ok := PaddingLayout(e, c, insets, depth);
        case Align(factor) =>
          ok := AlignLayout(e, c, factor, depth);
        case SizedBox(dims) =>
          ok := SizedBoxLayout(e, c, dims, depth);
        case Flex(args) =>
          ok := FlexLayout(e, c, args, depth);
        case Builder(build) =>
          ok := BuilderLayout(e, c, build, depth);
      }
    }

    /** The default kind: `constrain_size` alone, which leaves the children alone. */
    method ConstrainOnlyLayout(e: Elem, c: Constraints)
      requires Valid() && 1 <= e < count
      modifies this`size
      ensures Valid() && Settled(old(Snap()), Snap(), e, c, true) == true
      ensures size == old(size)[e := ConstrainSize(old(size[e]), c)] && offered == old(offered)
    {
      ghost var s0 := Snap();
      ConstrainSizeAt(e, c);
      WithinRefl(s0, e);
      WithinResize(s0, s0, e, size[e]);
    }

    /** The only child `k` of `e` laid out under `nc`, as the single-child kinds do it;
        nothing outside `k`'s subtree changes, `e`'s own size included. */
    method LayoutOnlyChild(e: Elem, k: Elem, nc: Constraints, depth: nat) returns (ok: bool)
      requires Valid() && 1 <= e < k < count && node[k].parent == e && depth > 0
      modifies this`count, this`capacity, this`node, this`parentNode, this`size, this`pos,
               this`worldPos, this`color, this`flexFactor, this`layout, this`offered
      decreases depth, 0
      ensures Valid() && old(count) <= count
      ensures ok ==> Within(old(Snap()), Snap(), e) == true && size[e] == old(size[e])
      ensures ok ==> k in offered && offered[k] == nc && pos[k] == old(pos[k])
      ensures ok && nc.Sane() ==> NonNegative(size[k])
      ensures ok && nc.Satisfiable() && Clamps(old(layout[k])) ==> nc.Admits(size[k])
      ensures LaysOut(old(Snap()), k, depth - 1) ==> ok
    {
      ghost var s0 := Snap();
      ok := Layout(k, nc, depth - 1);
      if ok {
        WithinChild(s0, Snap(), k, e);
        WithinKeepsParent(s0, Snap(), k, e);
      }
    }

    /** Padding: the single child (if any) is laid out under the incoming constraints
        shrunk by the insets and placed at (left, top); the element takes the child's
        size plus the insets, clamped by `constrain_size`. A second child fails. */
    method PaddingLayout(e: Elem, c: Constraints, insets: EdgeInsets, depth: nat) returns (ok: bool)
      requires Valid() && 1 <= e < count && depth > 0 && layout[e] == Padding(insets)
      modifies this`count, this`capacity, this`node, this`parentNode, this`size, this`pos,
               this`worldPos, this`color, this`flexFactor, this`layout, this`offered
      decreases depth, 2
      ensures Valid() && old(count) <= count
      ensures |old(Children(e))| > 1 ==> !ok
      ensures ok ==> Settled(old(Snap()), Snap(), e, c, true) == true
      ensures ok && old(Children(e)) == [] ==> size[e] == ConstrainSize(PaddedSize(Zero, insets), c)
      ensures ok && |old(Children(e))| == 1 ==>
                var k := old(Children(e))[0];
                && k in offered && offered[k] == PaddedConstraints(c, insets)
                && pos[k] == Axes(insets.left, insets.top)
                && size[e] == ConstrainSize(PaddedSize(size[k], insets), c)
      ensures LaysOut(old(Snap()), e, depth) ==> ok
    {
      ghost var s0 := Snap();
      var child, single := GetSingleChild(e);
      if !single {
        return false;
      }
      var childSize := Zero;
      WithinRefl(s0, e);
      if child != 0 {
        OnlyChildLaysOut(s0, e, depth, child);
        ok, childSize := PaddingChild(e, child, c, insets, depth);
        if !ok {
          return;
        }
      }
      ghost var s2 := Snap();
      ResizeClamped(e, PaddedSize(childSize, insets), c);
      WithinResize(s0, s2, e, size[e]);
      ok := true;
    }

    /** The child half of padding: `k` laid out under the constraints shrunk by the
        insets and placed at (left, top); `childSize` is the size it took. */
    method PaddingChild(e: Elem, k: Elem, c: Constraints, insets: EdgeInsets, depth: nat)
      returns (ok: bool, childSize: Vec2)
      requires Valid() && 1 <= e < k < count && node[k].parent == e && depth > 0
      modifies this`count, this`capacity, this`node, this`parentNode, this`size, this`pos,
               this`worldPos, this`color, this`flexFactor, this`layout, this`offered
      decreases depth, 1
      ensures Valid() && old(count) <= count
      ensures ok ==> Within(old(Snap()), Snap(), e) == true && size[e] == old(size[e]) && childSize == size[k]
      ensures ok ==> k in offered && offered[k] == PaddedConstraints(c, insets)
      ensures ok ==> pos[k] == Axes(insets.left, insets.top)
      ensures LaysOut(old(Snap()), k, depth - 1) ==> ok
    {
      ghost var s0 := Snap();
      var nc := PaddedConstraints(c, insets);
      ok := LayoutOnlyChild(e, k, nc, depth);
      childSize := size[k];
      if ok {
        ghost var s1 := Snap();
        pos := pos[k := Axes(insets.left, insets.top)];
        WithinPlace(s0, s1, e, k, Axes(insets.left, insets.top));
      }
    }

    /** Align: the single child (if any) is laid out unbounded, the element fills every
        bounded axis (`constrain_and_grow_size`), and the child is placed by the align
        factor: -1 at the start, 0 centred, 1 at the end. A second child fails. */
    method AlignLayout(e: Elem, c: Constraints, factor: Vec2, depth: nat) returns (ok: bool)
      requires Valid() && 1 <= e < count && depth > 0 && layout[e] == Align(factor)
      modifies this`count, this`capacity, this`node, this`parentNode, this`size, this`pos,
               this`worldPos, this`color, this`flexFactor, this`layout, this`offered
      decreases depth, 2
      ensures Valid() && old(count) <= count
      ensures |old(Children(e))| > 1 ==> !ok
      ensures ok ==> Settled(old(Snap()), Snap(), e, c, true) == true
      ensures ok ==> size[e] == ConstrainAndGrow(old(size[e]), c)
      ensures ok && |old(Children(e))| == 1 ==>
                var k := old(Children(e))[0];
                && k in offered && offered[k] == Unbounded
                && pos[k] == AlignedPosition(size[e], size[k], factor)
      ensures LaysOut(old(Snap()), e, depth) ==> ok
    {
      ghost var s0 := Snap();
      var child;
      child, ok := GetSingleChild(e);
      if ok {
        if child == 0 {
          WithinRefl(s0, e);
          ConstrainAndGrowAt(e, c);
          WithinResize(s0, s0, e, size[e]);
        } else {
          OnlyChildLaysOut(s0, e, depth, child);
          ok := AlignChild(e, child, c, factor, depth);
        }
      }
    }

    /** The child half of align: `k` laid out unbounded, then the element grown to the
        incoming constraints and `k` placed in it by the align factor. */
    method AlignChild(e: Elem, k: Elem, c: Constraints, factor: Vec2, depth: nat) returns (ok: bool)
      requires Valid() && 1 <= e < k < count && node[k].parent == e && depth > 0
      modifies this`count, this`capacity, this`node, this`parentNode, this`size, this`pos,
               this`worldPos, this`color, this`flexFactor, this`layout, this`offered
      decreases depth, 1
      ensures Valid() && old(count) <= count
      ensures ok ==> Within(old(Snap()), Snap(), e) == true && size[e] == ConstrainAndGrow(old(size[e]), c)
      ensures ok ==> k in offered && offered[k] == Unbounded && pos[k] == AlignedPosition(size[e], size[k], factor)
      ensures LaysOut(old(Snap()), k, depth - 1) ==> ok
    {
      ghost var s0 := Snap();
      ok := LayoutOnlyChild(e, k, Unbounded, depth);
      if ok {
        ghost var s1 := Snap();
        ConstrainAndGrowAt(e, c);
        WithinResize(s0, s1, e, size[e]);
        ghost var s2 := Snap();
        var at := AlignedPosition(size[e], size[k], factor);
        pos := pos[k := at];
        WithinPlace(s0, s2, e, k, at);
      }
    }

    /** Sized box: with a child, the child is laid out with each positive dimension
        fixed as both min and max and the box takes the child's size; without one, the
        box takes its dimensions, clamped by `constrain_size`. A second child fails. */
    method SizedBoxLayout(e: Elem, c: Constraints, dims: Vec2, depth: nat) returns (ok: bool)
      requires Valid() && 1 <= e < count && depth > 0 && layout[e] == SizedBox(dims)
      modifies this`count, this`capacity, this`node, this`parentNode, this`size, this`pos,
               this`worldPos, this`color, this`flexFactor, this`layout, this`offered
      decreases depth, 1
      ensures Valid() && old(count) <= count
      ensures |old(Children(e))| > 1 ==> !ok
      ensures ok ==> Settled(old(Snap()), Snap(), e, c, false) == true
      ensures ok && old(Children(e)) == [] ==> size[e] == ConstrainSize(dims, c)
      ensures ok && |old(Children(e))| == 1 ==>
                var k := old(Children(e))[0];
                && k in offered && offered[k] == SizedChildConstraints(c, dims)
                && size[e] == size[k] && pos[k] == old(pos[k])
                && (SizedChildConstraints(c, dims).Satisfiable() && Clamps(old(layout[k])) ==>
                      SizedChildConstraints(c, dims).Admits(size[e]))
      ensures LaysOut(old(Snap()), e, depth) ==> ok
    {
      ghost var s0 := Snap();
      var child, single := GetSingleChild(e);
      if !single {
        return false;
      }
      WithinRefl(s0, e);
      if child != 0 {
        OnlyChildLaysOut(s0, e, depth, child);
        ok := LayoutOnlyChild(e, child, SizedChildConstraints(c, dims), depth);
        if !ok {
          return;
        }
        ghost var s1 := Snap();
        size := size[e := size[child]];
        WithinResize(s0, s1, e, size[child]);
      } else {
        ResizeClamped(e, dims, c);
        WithinResize(s0, s0, e, size[e]);
        ok := true;
      }
    }

    /** Layout builder: the callback makes the element's one child (from the template it
        returns), which must then be the element's single child; that child is laid out
        under the incoming constraints and the element takes its size. */
    method BuilderLayout(e: Elem, c: Constraints, build: BuildFunc, depth: nat) returns (ok: bool)
      requires Valid() && 1 <= e < count && depth > 0 && layout[e] == Builder(build)
      modifies this`count, this`capacity, this`node, this`parentNode, this`size, this`pos,
               this`worldPos, this`color, this`flexFactor, this`layout, this`offered
      decreases depth, 1
      ensures Valid() && old(count) <= count
      ensures old(Children(e)) != [] ==> !ok
      ensures ok ==> Settled(old(Snap()), Snap(), e, c, false) == true
      ensures ok ==>
                && Children(e) == [old(count)] && old(count) < count
                && var k, t := old(count), build(e, c);
                && layout[k] == t.kind && color[k] == t.color && flexFactor[k] == t.flexFactor
                && k in offered && offered[k] == c && size[e] == size[k] && pos[k] == Zero
                && (c.Satisfiable() && Clamps(t.kind) ==> c.Admits(size[e]))
      ensures LaysOut(old(Snap()), e, depth) ==> ok
    {
      ghost var s0 := Snap();
      BuilderLaysOut(s0, e, depth, c);
      ghost var fine := LaysOut(s0, e, depth);
      var t := build(e, c);
      var child;
      ok, child := BuilderAttach(e, t);
      if !ok {
        return;
      }
      ghost var s1 := Snap();
      if fine {
        FreshLaysOut(s1, child, depth - 1);
      }
      ok := BuilderChild(e, child, c, depth);
      if ok {
        WithinTrans(s0, s1, Snap(), e);
      }
    }

    /** The second half of the layout builder: its new only child `k` laid out under
        the builder's constraints, and the builder resized to the child's size. */
    method BuilderChild(e: Elem, k: Elem, c: Constraints, depth: nat) returns (ok: bool)
      requires Valid() && 1 <= e < k < count && node[k].parent == e && Children(e) == [k] && depth > 0
      modifies this`count, this`capacity, this`node, this`parentNode, this`size, this`pos,
               this`worldPos, this`color, this`flexFactor, this`layout, this`offered
      decreases depth, 0
      ensures Valid() && old(count) <= count
      ensures ok ==> Within(old(Snap()), Snap(), e) == true && Children(e) == [k]
      ensures ok ==> k in offered && offered[k] == c && size[e] == size[k] && pos[k] == old(pos[k])
      ensures ok && c.Sane() ==> NonNegative(size[e])
      ensures ok && c.Satisfiable() && Clamps(old(layout[k])) ==> c.Admits(size[e])
      ensures LaysOut(old(Snap()), k, depth - 1) ==> ok
    {
      ghost var s1 := Snap();
      ok := Layout(k, c, depth - 1);
      if !ok {
        return;
      }
      WithinChild(s1, Snap(), k, e);
      WithinKeepsChildren(s1, Snap(), k, e);
      ghost var s2 := Snap();
      size := size[e := size[k]];
      WithinResize(s1, s2, e, size[k]);
    }

    /** The first half of the layout builder: a new child of `e` made from `t`, which
        is `e`'s only child exactly when `e` had none before. */
    method BuilderAttach(e: Elem, t: BuiltChild) returns (ok: bool, child: Elem)
      requires Valid() && 1 <= e < count
      modifies this`count, this`capacity, this`node, this`parentNode, this`size, this`pos,
               this`worldPos, this`color, this`flexFactor, this`layout
      ensures Valid() && child == old(count) && count == old(count) + 1
      ensures layout[child] == t.kind && size[child] == t.size && color[child] == t.color
      ensures flexFactor[child] == t.flexFactor && pos[child] == Zero
      ensures ok <==> old(Children(e)) == []
      ensures ok ==> Children(e) == [child] && e < child && node[child].parent == e
      ensures Children(child) == []
      ensures ok ==> Within(old(Snap()), Snap(), e) == true
    {
      ghost var s0 := Snap();
      child := BuildChild(e, t);
      var single, okSingle := GetSingleChild(e);
      ok := okSingle && single == child;
      if ok {
        ChildrenFacts(s0.node, s0.parentNode, s0.count, e);
        assert ChildLinksOk(s0.node, s0.parentNode, s0.count, e);
        WithinNewLeaf(s0, Snap(), e, child, t.kind, t.size, t.color, t.flexFactor);
      }
    }

    /** What the builder callback does in the model: `elem_create(e)`, then the new
        element takes the template's kind, size, colour and flex factor. */
    method BuildChild(e: Elem, t: BuiltChild) returns (child: Elem)
      requires Valid() && 1 <= e < count
      modifies this`count, this`capacity, this`node, this`parentNode, this`size, this`pos,
               this`worldPos, this`color, this`flexFactor, this`layout
      ensures Valid() && child == old(count) && count == old(count) + 1 && old(capacity) <= capacity
      ensures Appended(old(node), old(parentNode), child, e, node, parentNode)
      ensures Children(e) == old(Children(e)) + [child]
      ensures size == (old(size) + [Zero])[child := t.size] && pos == old(pos) + [Zero]
      ensures worldPos == old(worldPos) + [Zero]
      ensures color == (old(color) + [Transparent])[child := t.color]
      ensures flexFactor == (old(flexFactor) + [0.0])[child := t.flexFactor]
      ensures layout == (old(layout) + [ConstrainOnly])[child := t.kind]
    {
      child := ElemCreate(e);
      layout := layout[child := t.kind];
      size := size[child := t.size];
      color := color[child := t.color];
      flexFactor := flexFactor[child := t.flexFactor];
    }

    /** The first loop of a flex container: walking the kids in sibling order, it fails
        on a negative flex factor, adds up the positive ones, and lays out every other
        kid under `nc`, summing their main-axis sizes and raising the cross size from
        the incoming cross min to the largest of theirs. `ss` and `fs` are the sizes
        and factors it saw. */
    method FlexFirstPass(e: Elem, c: Constraints, args: FlexArgs, nc: Constraints, ghost kids: seq<Elem>, depth: nat)
      returns (ok: bool, nonFlex: real, factors: real, maxCross: real, ghost ss: seq<Vec2>, ghost fs: seq<real>)
      requires Valid() && KidsOf(Snap(), e, kids) && depth > 0
      modifies this`count, this`capacity, this`node, this`parentNode, this`size, this`pos,
               this`worldPos, this`color, this`flexFactor, this`layout, this`offered
      decreases depth, 2
      ensures Valid() && old(count) <= count
      ensures ok ==> Within(old(Snap()), Snap(), e) == true && |ss| == |kids|
      ensures ok ==> FirstPassAt(Snap(), e, kids, nc, args.mainAxis, c.minSize.Get(args.mainAxis.Other()),
                                 ss, fs, nonFlex, factors, maxCross) == true
      ensures Pending(old(Snap()), kids, 0, depth - 1) ==> ok && Pending(Snap(), kids, |kids|, depth - 1)
    {
      ghost var s0 := Snap();
      var main := args.mainAxis;
      var minCross := c.minSize.Get(main.Other());
      nonFlex, factors, maxCross := 0.0, 0.0, minCross;
      ss, fs := [], [];
      FirstPassStart(s0, e, kids, nc, main, minCross);
      WithinRefl(s0, e);
      ok := true;
      var child := parentNode[e].firstChild;
      while child != 0
        invariant Valid() && s0.count <= count && Within(s0, Snap(), e) == true
        invariant |ss| <= |kids| && child == (if |ss| < |kids| then kids[|ss|] else 0)
        invariant FirstPassAt(Snap(), e, kids, nc, main, minCross, ss, fs, nonFlex, factors, maxCross) == true
        invariant Pending(s0, kids, 0, depth - 1) ==> Pending(Snap(), kids, |ss|, depth - 1)
        decreases |kids| - |ss|
      {
        var x, f;
        ok, nonFlex, factors, maxCross, x, f :=
          FirstPassKid(e, nc, kids, depth, main, minCross, s0, ss, fs, nonFlex, factors, maxCross, child);
        if !ok {
          return;
        }
        ss, fs := ss + [x], fs + [f];
        child := node[child].nextSibling;
      }
    }

    /** One kid of the first loop: a negative factor fails; a positive one joins the
        factor sum; with factor 0 the kid is laid out under `nc`, its main size joins
        the non-flex sum and its cross size may raise the maximum. `x` and `f` are the
        kid's size and factor, which extend what the loop has established. */
    method FirstPassKid(e: Elem, nc: Constraints, ghost kids: seq<Elem>, depth: nat, main: Axis, minCross: real,
                        ghost s0: Arena, ghost ss: seq<Vec2>, ghost fs: seq<real>, nonFlex: real, factors: real,
                        maxCross: real, child: Elem)
      returns (ok: bool, nonFlex': real, factors': real, maxCross': real, x: Vec2, f: real)
      requires Valid() && depth > 0 && s0.count <= count && Within(s0, Snap(), e) == true
      requires FirstPassAt(Snap(), e, kids, nc, main, minCross, ss, fs, nonFlex, factors, maxCross) == true
      requires |ss| < |kids| && child == kids[|ss|]
      modifies this`count, this`capacity, this`node, this`parentNode, this`size, this`pos,
               this`worldPos, this`color, this`flexFactor, this`layout, this`offered
      decreases depth, 1
      ensures Valid() && old(count) <= count
      ensures old(flexFactor[child]) < 0.0 ==> !ok
      ensures ok ==> Within(s0, Snap(), e) == true
      ensures ok ==> FirstPassAt(Snap(), e, kids, nc, main, minCross, ss + [x], fs + [f],
                                 nonFlex', factors', maxCross') == true
      ensures Pending(old(Snap()), kids, |ss|, depth - 1) ==> ok && Pending(Snap(), kids, |ss| + 1, depth - 1)
    {
      f, x := flexFactor[child], size[child];
      nonFlex', factors', maxCross' := nonFlex, factors, maxCross;
      if f < 0.0 {
        ok := false;
      } else if f > 0.0 {
        FirstPassFlex(Snap(), e, kids, nc, main, minCross, ss, fs, nonFlex, factors, maxCross, x, f);
        if Pending(Snap(), kids, |ss|, depth - 1) {
          PendingSkip(Snap(), kids, |ss|, depth - 1);
        }
        factors' := factors + f;
        ok := true;
      } else {
        ghost var sb := Snap();
        PendingNext(sb, kids, |ss|, depth - 1);
        ok, x := FixedKid(e, nc, kids, depth, main, minCross, s0, ss, fs, nonFlex, factors, maxCross, child);
        if ok {
          if Pending(sb, kids, |ss|, depth - 1) {
            PendingStep(sb, Snap(), e, kids, |ss|, depth - 1);
          }
          nonFlex', maxCross' := nonFlex + x.Get(main), Larger(x.Get(main.Other()), maxCross);
        }
      }
    }

    /** A kid with factor 0 in the first loop: it is laid out under `nc`, and its size
        `x` extends what the loop has established. */
    method FixedKid(e: Elem, nc: Constraints, ghost kids: seq<Elem>, depth: nat, main: Axis, minCross: real,
                    ghost s0: Arena, ghost ss: seq<Vec2>, ghost fs: seq<real>, nonFlex: real, factors: real,
                    maxCross: real, child: Elem)
      returns (ok: bool, x: Vec2)
      requires Valid() && depth > 0 && s0.count <= count && Within(s0, Snap(), e) == true
      requires FirstPassAt(Snap(), e, kids, nc, main, minCross, ss, fs, nonFlex, factors, maxCross) == true
      requires |ss| < |kids| && child == kids[|ss|] && flexFactor[child] == 0.0
      modifies this`count, this`capacity, this`node, this`parentNode, this`size, this`pos,
               this`worldPos, this`color, this`flexFactor, this`layout, this`offered
      decreases depth, 0
      ensures Valid() && old(count) <= count
      ensures ok ==> Within(s0, Snap(), e) == true && child < count && x == size[child]
      ensures ok ==> FirstPassAt(Snap(), e, kids, nc, main, minCross, ss + [x], fs + [0.0],
                                 nonFlex + x.Get(main), factors, Larger(x.Get(main.Other()), maxCross)) == true
      ensures ok ==> Within(old(Snap()), Snap(), child) == true
      ensures LaysOut(old(Snap()), child, depth - 1) ==> ok
    {
      ghost var sb := Snap();
      ok := Layout(child, nc, depth - 1);
      x := size[child];
      if ok {
        ChildStepOf(sb, Snap(), e, kids, |ss|, nc);
        FirstPassSized(sb, Snap(), e, kids, nc, main, minCross, ss, fs, nonFlex, factors, maxCross, x);
        WithinTrans(s0, sb, Snap(), e);
      }
    }

    /** The second loop of a flex container: every kid with a positive factor `f` is laid
        out under `nc` with its main max set to its share `space * (f / total)`; their
        main-axis sizes are summed and the cross size is raised from `base`. */
    method FlexSecondPass(e: Elem, c: Constraints, args: FlexArgs, ghost kids: seq<Elem>, depth: nat,
                          space: real, ghost fsAll: seq<real>, total: real, base: real)
      returns (ok: bool, flexSum: real, maxCross: real, ghost ss: seq<Vec2>, ghost fs: seq<real>)
      requires Valid() && KidsOf(Snap(), e, kids) && depth > 0
      requires Lists(fsAll, flexFactor, kids) && |fsAll| == |kids| && total == FactorSum(fsAll)
      modifies this`count, this`capacity, this`node, this`parentNode, this`size, this`pos,
               this`worldPos, this`color, this`flexFactor, this`layout, this`offered
      decreases depth, 2
      ensures Valid() && old(count) <= count
      ensures ok ==> Within(old(Snap()), Snap(), e) == true && |ss| == |kids|
      ensures ok ==> SecondPassAt(old(Snap()), Snap(), e, kids, c, args, space, fsAll, total, base,
                                  ss, fs, flexSum, maxCross) == true
      ensures PendingFlex(old(Snap()), kids, 0, depth - 1) ==> ok
    {
      ghost var s1 := Snap();
      flexSum, maxCross := 0.0, base;
      ss, fs := [], [];
      SecondPassStart(s1, e, kids, fsAll, c, args, space, base);
      WithinRefl(s1, e);
      ok := true;
      var child := parentNode[e].firstChild;
      while child != 0
        invariant Valid() && s1.count <= count && Within(s1, Snap(), e) == true
        invariant |ss| <= |kids| && child == (if |ss| < |kids| then kids[|ss|] else 0)
        invariant SecondPassAt(s1, Snap(), e, kids, c, args, space, fsAll, total, base, ss, fs, flexSum, maxCross) == true
        invariant PendingFlex(s1, kids, 0, depth - 1) ==> PendingFlex(Snap(), kids, |ss|, depth - 1)
        decreases |kids| - |ss|
      {
        var x, f;
        ok, flexSum, maxCross, x, f :=
          SecondPassKid(e, c, args, kids, depth, space, fsAll, total, base, s1, ss, fs, flexSum, maxCross, child);
        if !ok {
          return;
        }
        ss, fs := ss + [x], fs + [f];
        child := node[child].nextSibling;
      }
    }

    /** One kid of the second loop: a kid with a positive factor `f` is laid out under
        the constraints whose main max is its share of `space`; its main size joins the
        flex sum and its cross size may raise the maximum. Other kids are skipped. `x`
        and `f` are the kid's size and factor, which extend what the loop has
        established. */
    method SecondPassKid(e: Elem, c: Constraints, args: FlexArgs, ghost kids: seq<Elem>, depth: nat,
                         space: real, ghost fsAll: seq<real>, total: real, base: real,
                         ghost s1: Arena, ghost ss: seq<Vec2>, ghost fs: seq<real>, flexSum: real, maxCross: real,
                         child: Elem)
      returns (ok: bool, flexSum': real, maxCross': real, x: Vec2, f: real)
      requires Valid() && depth > 0 && s1.count <= count && Within(s1, Snap(), e) == true
      requires SecondPassAt(s1, Snap(), e, kids, c, args, space, fsAll, total, base, ss, fs, flexSum, maxCross) == true
      requires |ss| < |kids| && child == kids[|ss|]
      modifies this`count, this`capacity, this`node, this`parentNode, this`size, this`pos,
               this`worldPos, this`color, this`flexFactor, this`layout, this`offered
      decreases depth, 1
      ensures Valid() && old(count) <= count
      ensures ok ==> Within(s1, Snap(), e) == true
      ensures ok ==> SecondPassAt(s1, Snap(), e, kids, c, args, space, fsAll, total, base,
                                  ss + [x], fs + [f], flexSum', maxCross') == true
      ensures PendingFlex(old(Snap()), kids, |ss|, depth - 1) ==> ok && PendingFlex(Snap(), kids, |ss| + 1, depth - 1)
    {
      f, x := flexFactor[child], size[child];
      flexSum', maxCross' := flexSum, maxCross;
      if f > 0.0 {
        ghost var sb := Snap();
        PendingNext(sb, kids, |ss|, depth - 1);
        ok, x := FlexKid(e, c, args, kids, depth, space, fsAll, total, base, s1, ss, fs, flexSum, maxCross, child, f);
        if ok {
          if PendingFlex(sb, kids, |ss|, depth - 1) {
            PendingFlexStep(sb, Snap(), e, kids, |ss|, depth - 1);
          }
          flexSum', maxCross' := flexSum + x.Get(args.mainAxis), Larger(x.Get(args.mainAxis.Other()), maxCross);
        }
      } else {
        SecondPassSkip(s1, Snap(), e, kids, c, args, space, fsAll, total, base, ss, fs, flexSum, maxCross, x, f);
        ok := true;
      }
    }

    /** A kid with a positive factor `f` in the second loop: it is laid out under the
        constraints whose main max is its share of `space`, and its size `x` extends
        what the loop has established. */
    method FlexKid(e: Elem, c: Constraints, args: FlexArgs, ghost kids: seq<Elem>, depth: nat,
                   space: real, ghost fsAll: seq<real>, total: real, base: real,
                   ghost s1: Arena, ghost ss: seq<Vec2>, ghost fs: seq<real>, flexSum: real, maxCross: real,
                   child: Elem, f: real)
      returns (ok: bool, x: Vec2)
      requires Valid() && depth > 0 && s1.count <= count && Within(s1, Snap(), e) == true
      requires SecondPassAt(s1, Snap(), e, kids, c, args, space, fsAll, total, base, ss, fs, flexSum, maxCross) == true
      requires |ss| < |kids| && child == kids[|ss|] && flexFactor[child] == f && f > 0.0
      modifies this`count, this`capacity, this`node, this`parentNode, this`size, this`pos,
               this`worldPos, this`color, this`flexFactor, this`layout, this`offered
      decreases depth, 0
      ensures Valid() && old(count) <= count
      ensures ok ==> Within(s1, Snap(), e) == true && child < count && x == size[child]
      ensures ok ==> SecondPassAt(s1, Snap(), e, kids, c, args, space, fsAll, total, base,
                                  ss + [x], fs + [f],
                                  flexSum + x.Get(args.mainAxis), Larger(x.Get(args.mainAxis.Other()), maxCross)) == true
      ensures ok ==> Within(old(Snap()), Snap(), child) == true
      ensures LaysOut(old(Snap()), child, depth - 1) ==> ok
    {
      assert fsAll[|ss|] == f;
      var nc := FlexAllottedConstraints(c, args, Allotment(space, f, total));
      ghost var sb := Snap();
      ok := Layout(child, nc, depth - 1);
      x := size[child];
      if ok {
        ChildStepOf(sb, Snap(), e, kids, |ss|, nc);
        SecondPassFlex(s1, sb, Snap(), e, kids, c, args, space, fsAll, total, base, ss, fs, flexSum, maxCross, f, x);
        WithinTrans(s1, sb, Snap(), e);
      }
    }

    /** The third loop of a flex container: each kid is placed across by the cross
        alignment within `crossSize` and along the main axis at the running offset,
        which then grows by its main size. */
    method FlexPlace(e: Elem, ghost kids: seq<Elem>, ghost ss: seq<Vec2>, main: Axis, crossSize: real, align: real)
      returns (ghost offset: real)
      requires Valid() && KidsOf(Snap(), e, kids) && Lists(ss, size, kids) && |ss| == |kids|
      modifies this`pos
      ensures Valid()
      ensures PlacedUpTo(old(Snap()), pos, e, kids, ss, main, crossSize, align, |kids|, offset) == true
    {
      ghost var s2 := Snap();
      var cross := main.Other();
      var at := 0.0;
      ghost var i := 0;
      PlaceStart(s2, e, kids, ss, main, crossSize, align);
      var child := parentNode[e].firstChild;
      while child != 0
        invariant |pos| == count && Snap() == s2.(pos := pos)
        invariant i <= |kids| && child == (if i < |kids| then kids[i] else 0)
        invariant PlacedUpTo(s2, pos, e, kids, ss, main, crossSize, align, i, at) == true
        decreases |kids| - i
      {
        PlaceStep(s2, pos, e, kids, ss, main, crossSize, align, i, at);
        pos := pos[child := pos[child].With(cross, AlignOffset(crossSize, size[child].Get(cross), align)).With(main, at)];
        at := at + size[child].Get(main);
        child := node[child].nextSibling;
        i := i + 1;
      }
      offset := at;
    }

    /** `perform_flex_layout`: the three loops over the kids of `e`, between which the
        container takes the summed main-axis size and the largest cross size. A cross
        stretch above 1 fails the assertion, and so does a negative flex factor or a
        kid whose own layout fails. On success the kids were laid out and placed as
        `FlexDone` describes. */
    method FlexLayout(e: Elem, c: Constraints, args: FlexArgs, depth: nat) returns (ok: bool)
      requires Valid() && 1 <= e < count && depth > 0 && layout[e] == Flex(args)
      modifies this`count, this`capacity, this`node, this`parentNode, this`size, this`pos,
               this`worldPos, this`color, this`flexFactor, this`layout, this`offered
      decreases depth, 4
      ensures Valid() && old(count) <= count
      ensures args.crossStretch > 1.0 ==> !ok
      ensures ok ==> Settled(old(Snap()), Snap(), e, c, false) == true && FlexDone(Snap(), e, old(Children(e)), c, args) == true
      ensures LaysOut(old(Snap()), e, depth) ==> ok
    {
      PendingStart(Snap(), e, depth);
      if args.crossStretch > 0.0 && args.crossStretch > 1.0 {
        return false;
      }
      ghost var s0 := Snap();
      ghost var kids := Children(e);
      KidsOfLinked(s0, e);
      var mainSum, maxCross;
      ghost var ss, fs;
      ok, mainSum, maxCross, ss, fs := FlexMeasure(e, c, args, kids, depth);
      if !ok {
        return;
      }
      ghost var s2 := Snap();
      FlexFinish(e, c, args, s2, kids, ss, fs, mainSum, maxCross);
      WithinTrans(s0, s2, Snap(), e);
    }

    /** The first two loops of `perform_flex_layout`: the non-flex kids are laid out
        first, then the flex kids share what is left along the main axis. On success the
        container's main-axis extent is `mainSum` and its cross extent `maxCross`. */
    method FlexMeasure(e: Elem, c: Constraints, args: FlexArgs, ghost kids: seq<Elem>, depth: nat)
      returns (ok: bool, mainSum: real, maxCross: real, ghost ss: seq<Vec2>, ghost fs: seq<real>)
      requires Valid() && KidsOf(Snap(), e, kids) && depth > 0
      modifies this`count, this`capacity, this`node, this`parentNode, this`size, this`pos,
               this`worldPos, this`color, this`flexFactor, this`layout, this`offered
      decreases depth, 3
      ensures Valid() && old(count) <= count
      ensures ok ==> Within(old(Snap()), Snap(), e) == true
      ensures ok ==> Gathered(Snap(), e, kids, c, args, ss, fs, mainSum, maxCross) == true
      ensures Pending(old(Snap()), kids, 0, depth - 1) ==> ok
    {
      ghost var s0 := Snap();
      mainSum, maxCross, ss, fs := 0.0, 0.0, [], [];
      var main := args.mainAxis;
      var nc := FlexChildConstraints(c, args);
      var nonFlex, factors, maxCross1;
      ghost var ss1, fs1;
      ok, nonFlex, factors, maxCross1, ss1, fs1 := FlexFirstPass(e, c, args, nc, kids, depth);
      if !ok {
        return;
      }
      ghost var s1 := Snap();
      if Pending(s0, kids, 0, depth - 1) {
        PendingFlexStart(s1, kids, depth - 1);
      }
      var space := FlexSpace(c.maxSize.Get(main), nonFlex);
      var flexSum;
      ghost var fs2;
      ok, flexSum, maxCross, ss, fs2 := FlexSecondPass(e, c, args, kids, depth, space, fs1, factors, maxCross1);
      if !ok {
        return;
      }
      Gather(s1, Snap(), e, kids, c, args, ss1, fs1, nonFlex, factors, maxCross1, ss, fs2, flexSum, maxCross);
      WithinTrans(s0, s1, Snap(), e);
      mainSum, fs := flexSum + nonFlex, fs1;
    }

    /** The tail of `perform_flex_layout`: the container takes `mainSum` along the main
        axis and `maxCross` across, then the third loop places the kids. */
    method FlexFinish(e: Elem, c: Constraints, args: FlexArgs, ghost s2: Arena, ghost kids: seq<Elem>,
                      ghost ss: seq<Vec2>, ghost fs: seq<real>, mainSum: real, maxCross: real)
      requires Valid() && 1 <= e < count && s2 == Snap()
      requires Gathered(s2, e, kids, c, args, ss, fs, mainSum, maxCross) == true
      modifies this`size, this`pos
      ensures Valid()
      ensures Within(old(Snap()), Snap(), e) == true && FlexDone(Snap(), e, kids, c, args) == true
      ensures c.Sane() ==> NonNegative(size[e])
    {
      var main := args.mainAxis;
      size := size[e := size[e].With(main, mainSum).With(main.Other(), maxCross)];
      ghost var s3 := Snap();
      ResizeKeepsKids(s2, s3, e, kids, ss, fs, size[e]);
      ghost var offset := FlexPlace(e, kids, ss, main, maxCross, args.crossAlign);
      Finish(s2, s3, Snap(), e, kids, c, args, ss, fs, mainSum, maxCross, offset);
      WithinRefl(s2, e);
      WithinResize(s2, s2, e, s3.size[e]);
      PlacedWithin(s3, pos, e, kids, ss, main, maxCross, args.crossAlign, |kids|, offset);
      WithinTrans(s2, s3, Snap(), e);
      if c.Sane() {
        FlexDoneNonNegative(Snap(), e, kids, c, args);
      }
    }

    /** `ui_flip_input`: the other input buffer becomes current; its index is returned
        for the host to fill. */
    method FlipInput() returns (current: nat)
      requires Valid()
      modifies this`inputIndex
      ensures Valid() && inputIndex == 1 - old(inputIndex) && current == inputIndex
    {
      inputIndex := if inputIndex == 0 then 1 else 0;
      current := inputIndex;
    }

    /** `calc_world_positions`: one sweep in handle order. Slot 0 keeps its local
        position and every later slot adds its own to its parent's world position,
        which the sweep has already set because a parent's handle is smaller. */
    method CalcWorldPositions()
      requires Valid()
      modifies this`worldPos
      ensures Valid()
      ensures forall k :: 0 <= k < count ==> worldPos[k] == WorldOf(node, pos, k)
    {
      if count == 0 {
        return;
      }
      worldPos := worldPos[0 := pos[0]];
      var e := 1;
      while e < count
        invariant 1 <= e <= count && |worldPos| == count
        invariant forall k :: 0 <= k < e ==> worldPos[k] == WorldOf(node, pos, k)
      {
        var parent := node[e].parent;
        worldPos := worldPos[e := Plus(worldPos[parent], pos[e])];
        e := e + 1;
      }
    }

    /** `draw_elements`: the rectangles handed to the paint primitives, one for each
        live slot with non-zero alpha, in handle order. */
    method DrawElements() returns (rects: seq<FilledRect>)
      requires Valid()
      ensures rects == Painted(color, worldPos, size, count)
    {
      rects := [];
      var e := 0;
      while e < count
        invariant e <= count && rects == Painted(color, worldPos, size, e)
      {
        if color[e].a != 0 {
          rects := rects + [FilledRect(worldPos[e], size[e], color[e])];
        }
        e := e + 1;
      }
    }

    /** `ui_frame_begin`: every live slot is zeroed and the count reset, so the next
        `elem_create(0)` starts a new tree; the capacity and the input stay. */
    method FrameBegin()
      requires Valid()
      modifies this`count, this`node, this`parentNode, this`size, this`pos,
               this`worldPos, this`color, this`flexFactor, this`layout, this`offered
      ensures Valid() && count == 0 && offered == map[]
    {
      if count != 0 {
        node, parentNode, size, pos, worldPos := [], [], [], [], [];
        color, flexFactor, layout := [], [], [];
        count := 0;
      }
      offered := map[];
    }

    /** `ui_frame_end`: root 1 is laid out with min = max = the window size, then the
        world positions are computed and the rectangles painted. Without a tree root 1
        has no layout routine, which fails the assertion in `perform_layout`. */
    method FrameEnd(width: real, height: real, depth: nat) returns (ok: bool, rects: seq<FilledRect>)
      requires Valid()
      modifies this`count, this`capacity, this`node, this`parentNode, this`size, this`pos,
               this`worldPos, this`color, this`flexFactor, this`layout, this`offered
      ensures Valid() && old(count) <= count
      ensures ok ==> 2 <= old(count) && old(layout[1]) != NoLayout
      ensures ok ==> 1 in offered && offered[1] == Exact(width, height)
      ensures ok && EndsAdmitted(old(layout[1]), old(Children(1)), 1, Exact(width, height)) ==>
                size[1] == Axes(width, height)
      ensures ok ==> forall k :: 0 <= k < count ==> worldPos[k] == WorldOf(node, pos, k)
      ensures ok ==> rects == Painted(color, worldPos, size, count)
      ensures ok ==> KindDone(old(Snap()), Snap(), 1, Exact(width, height)) == true
      ensures LaysOut(old(Snap()), 1, depth) ==> ok
    {
      ok, rects := false, [];
      if count < 2 {
        return;
      }
      ghost var s0 := Snap();
      ok := Layout(1, Exact(width, height), depth);
      if !ok {
        return;
      }
      ghost var s1 := Snap();
      CalcWorldPositions();
      KindDoneWorld(s0, s1, 1, Exact(width, height), worldPos);
      rects := DrawElements();
    }
  }
}

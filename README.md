# neogui layout engine in Dafny

This project models the per-frame UI layout engine of neogui (`native/neogui.c`, with the
types of `native/neogui.h`). Each frame the host builds a tree of elements in an arena of
parallel component buffers. `ui_frame_end` then lays the tree out from root 1 under the
window size, resolves world positions in one sweep in handle order, and emits one filled
rectangle per element with non-zero alpha.

Layout of the project:

- `types.dfy` (module `Types`) holds the declarations of `neogui.h` as datatypes:
  - `Axis` and `Edge`, with the enum arithmetic.
  - `Axes<T>`, a two-component vector with an axis accessor. It replaces `(&v.x)[axis]`.
  - `Extent`, which is `Fin(r) | Inf` in place of `INFINITY`.
  - `Constraints`, `EdgeInsets`, `Color`, `Node`/`ParentNode` and `FlexArgs`.
  - `LayoutKind`, one datatype for the function-pointer kind together with its `ArgsUnion` arm.
  - `InputState`.
- `policy.dfy` (module `Policy`) holds, as functions on values, the two clamp policies and
  the constraints and sizes each layout kind derives.
- `tree.dfy` (module `Tree`) holds the link invariant that `elem_create` keeps, sibling
  chains, children lists and subtrees.
- `flex_math.dfy` (module `FlexMath`) holds the sums, proportional shares, running cross
  maximum and placement of a flex container.
- `world.dfy` (module `World`) holds world positions as path sums, and the painted
  rectangle list.
- `frame.dfy` (module `Frame`) holds arena snapshots, what creating an element leaves
  behind, and what laying out an element may change: only its own subtree.
- `progress.dfy` (module `Progress`) holds when laying out a subtree cannot fail: none of
  the layout pass's assertions can fire in it, and its nesting fits the depth allowed.
- `flex_pass.dfy` (module `FlexPass`) holds what each of the three flex loops has
  established after `i` children.
- `engine.dfy` (module `Engine`) holds the class `UIContext`. Its `seq` fields are the
  component buffers, and its methods update them in place as the C functions do:
  - `elem_create` and the `*_create` constructors.
  - `perform_layout` and the five layout routines.
  - `calc_world_positions`, `draw_elements`, `ui_frame_begin`, `ui_frame_end` and
    `ui_flip_input`.

How the C code is modelled:

- An `assert` in the layout pass becomes a `false` result (`ok`). Conversely, every
  layout method promises `ok` when `Progress.LaysOut` holds of the element at the start.
  The cases that fail are:
  - a second child under a single-child kind;
  - a negative flex factor;
  - a cross stretch above 1;
  - a slot with no layout routine;
  - a builder child that is not the element's single child.
- An `assert` in a host-called constructor (`elem_create`'s parent checks) becomes a
  `requires`.

## Model

| member | source | states |
|---|---|---|
| Policy.ConstrainAxis | native/neogui.c:39-45 | `constrain_size` on one axis: the result is at least min. It is at most max when min <= max. A size already in range is unchanged. A size above a finite max that is at least min becomes that max. When min exceeds max, min wins. |
| Policy.GrowAxis | native/neogui.c:32-38 | `constrain_and_grow_size` on one axis: a finite max is taken, then raised to min, so a max below min gives min. On an unbounded axis the result is the larger of the old size and min. |
| Policy.ConstrainSize | native/neogui.c:39-45 | satisfiable constraints admit the clamped size; an admitted size is unchanged; the size never grows past the larger of its old value and min |
| Policy.ConstrainAndGrow | native/neogui.c:32-38 | satisfiable constraints admit the result; every bounded axis (with min <= max) takes exactly the max |
| Policy.PaddedConstraints | native/neogui.c:48-67 | On a finite axis the child's max is the incoming max minus the two insets, floored at 0. Min is lowered to the new max only when it exceeds it. Unbounded axes pass through. Sane constraints stay sane. |
| Policy.PaddingRoundTrip | native/neogui.c:59-78 | under an unbounded max, padding offers the incoming constraints unchanged and resolves to exactly child size plus insets |
| Policy.AlignOffset | native/neogui.c:98-99 | the align offset: factor -1 gives 0, 0 gives half the gap, 1 gives the whole gap; a factor in [-1, 1] keeps the child inside |
| Policy.AlignExample | native/neogui.c:98-99 | a 200x100 element aligning a 50x50 child with factor (1, 1) puts it at (150, 50) |
| Policy.SizedChildConstraints | native/neogui.c:106-108 | on each axis with a positive dimension the child gets min = max = that dimension, other axes pass through; sane stays sane |
| Policy.SizedBoxForcing | native/neogui.c:106-108 | a sized box with positive width and height offers its child exactly min = max = (w, h), whatever it was offered |
| Policy.ScenarioOuterPadding | native/neogui.c:335 | under a 1024x768 window the demo's outer padding (100, 50, 100, 50) offers its child exactly 824x668 |
| Policy.FlexChildConstraints | native/neogui.c:139-149 | A flex child's main axis runs from 0 to unbounded. The cross axis runs from 0 to the incoming max, or is pinned to incomingCrossMax * stretch when stretch > 0 and that max is finite. |
| Policy.FlexAllottedConstraints | native/neogui.c:178 | a flex child's constraints are the non-flex ones with the main max set to its allotment |
| Policy.FlexSpace | native/neogui.c:166-173 | the available flex space is max(0, M - S) under a finite main max M, with S + space = M when S <= M, and 0 under an unbounded one |
| Policy.FlexLeafKeepsPreset | native/neogui.c:39-45 | a default-kind flex child keeps its preset main size (cut to its allotment); it is never grown to the allotment |
| Policy.AllotmentNonNegative | native/neogui.c:178 | a positive weight's share of non-negative space is non-negative |
| FlexMath.FactorSum | native/neogui.c:152-155 | the weight total is non-negative and at least every positive factor |
| FlexMath.AllotmentsSum | native/neogui.c:175-179 | the flex allotments sum to space * (sum of weights / total) |
| FlexMath.AllotmentsFill | native/neogui.c:175-179 | with some flex child present, the allotments sum exactly to the available space |
| FlexMath.FlexFillsMain | native/neogui.c:166-189 | when every flex child takes its whole allotment and the non-flex children fit a finite main max M, the container's main size is exactly M |
| FlexMath.SumSplit | native/neogui.c:188 | the flex sum plus the non-flex sum is the sum over all children |
| FlexMath.OffsetsMonotone | native/neogui.c:192-199 | with non-negative sizes the running main-axis offsets are non-negative and non-decreasing in sibling order |
| FlexMath.Tiling | native/neogui.c:197-198 | each child starts where the one before it ends, and the last ends at the total |
| FlexMath.Placed | native/neogui.c:196-197 | a child's main position is the sum of the earlier siblings' main sizes; its cross position is the align offset within the container's cross size |
| FlexMath.FlexSpan | native/neogui.c:151-190 | the two loops' sums give the sum of all main sizes, and their running maxima give the largest of the incoming cross min and every child's cross size |
| FlexMath.CrossJoin | native/neogui.c:151-186 | the maximum over the non-flex children, continued over the flex children, is the maximum over all children |
| FlexPass.FlexDoneNonNegative | native/neogui.c:128-200 | under sane constraints a laid-out flex container has a non-negative size |
| FlexPass.Gather | native/neogui.c:151-188 | the first two loops together leave the offers, main sum and cross span that the container's size is built from |
| FlexPass.Finish | native/neogui.c:188-199 | setting the container's size and placing the children completes the flex layout as described |
| Tree.ChildrenFacts | native/neogui.h:57-65 | the children of p are the chain from its first to its last child, all with parent p and larger, increasing handles, the last ending at 0 |
| Tree.SingleChild | native/neogui.c:18-23 | `get_single_child`'s test (first child is 0 or equals the last) holds exactly when there is at most one child |
| Tree.AppendFacts | native/neogui.c:256-267 | appending keeps the link invariant, adds the new element at the end of the parent's children, and leaves every other element's children alone |
| Tree.ChainAppend | native/neogui.c:262-267 | linking the new element after the old last child extends the sibling chain by exactly that element |
| Tree.RootLinksOk | native/neogui.c:268-272 | a frame with only the root satisfies the link invariant and the root has no children |
| World.PathShape | native/neogui.c:209-220 | the path to an element starts at slot 0, climbs one parent link per step, and its handles increase, so an increasing sweep meets every ancestor first |
| World.WorldIsPathSum | native/neogui.c:209-220 | the world position of an element is the sum of the local positions along its path from slot 0 |
| World.VisibleExact | native/neogui.c:222-232 | exactly the live slots with non-zero alpha are painted, each once, in increasing handle order |
| World.PaintedIsVisible | native/neogui.c:222-232 | the i-th emitted rectangle is the i-th visible slot's world position, size and colour |
| Frame.WithinTrans | native/neogui.c:25-30 | two layout steps of the same subtree compose into one |
| Frame.WithinChild | native/neogui.c:25-30 | laying out a child stays inside the parent's subtree |
| Progress.LaysOutFrame | native/neogui.c:151-186 | laying out one element leaves every subtree disjoint from its own able to lay out, so laying out one sibling cannot make a later sibling fail |
| Progress.LaysOutWithoutBuilders | native/neogui.c:18-30 | in a tree without builders where every element meets its kind's assertions, laying out an element cannot fail within as many levels as there are slots from it on |
| Progress.FreshLaysOut | native/neogui.c:117-123 | a builder's new child, which has no children, lays out when the kind the callback gave it does |
| Progress.PendingStep | native/neogui.c:151-164 | after the first loop lays out a kid with factor 0, every later kid and every flex kid can still be laid out |
| Progress.PendingFlexStep | native/neogui.c:175-186 | after the second loop lays out a flex kid, every later flex kid can still be laid out |
| Types.EdgeArithmetic | native/neogui.h:22-32 | EDGE_LEFT + axis is left for X and top for Y; EDGE_RIGHT + axis is right for X and bottom for Y |
| Types.Exact | native/neogui.c:242-245 | min = max = (w, h) admits exactly the size (w, h) |
| Engine.UIContext.ElemCreate | native/neogui.c:251-275 | `elem_create(0)` on an empty arena gives root 1 and count 2. Otherwise it returns the old count, appends it as the parent's last child with default kind and zero components, and keeps every other element's children. Capacity becomes 256, then doubles, when full. |
| Engine.UIContext.PaddingCreate | native/neogui.c:277-282 | `elem_create(parent)` followed by setting the padding kind with the given insets: the state is exactly `elem_create`'s, zero components and links included, except for the new element's kind; every other element keeps its children |
| Engine.UIContext.AlignCreate | native/neogui.c:287-292 | `elem_create(parent)` followed by setting the align kind with the given factor: the state is exactly `elem_create`'s, zero components and links included, except for the new element's kind; every other element keeps its children |
| Engine.UIContext.CenterCreate | native/neogui.c:284-286 | `elem_create(parent)` followed by setting the align kind with factor (0, 0): the state is exactly `elem_create`'s, zero components and links included, except for the new element's kind; every other element keeps its children |
| Engine.UIContext.SizedBoxCreate | native/neogui.c:294-299 | `elem_create(parent)` followed by setting the sized-box kind with the given dimensions: the state is exactly `elem_create`'s, zero components and links included, except for the new element's kind; every other element keeps its children |
| Engine.UIContext.FlexCreate | native/neogui.c:307-312 | `elem_create(parent)` followed by setting the flex kind along the given main axis, with zero alignment and stretch: the state is exactly `elem_create`'s, zero components and links included, except for the new element's kind; every other element keeps its children |
| Engine.UIContext.RowCreate | native/neogui.c:301-303 | `elem_create(parent)` followed by setting a flex container along X: the state is exactly `elem_create`'s, zero components and links included, except for the new element's kind; every other element keeps its children |
| Engine.UIContext.ColumnCreate | native/neogui.c:304-306 | `elem_create(parent)` followed by setting a flex container along Y: the state is exactly `elem_create`'s, zero components and links included, except for the new element's kind; every other element keeps its children |
| Engine.UIContext.SpacerCreate | native/neogui.c:313-317 | `elem_create(parent)` followed by setting the default kind with the given flex factor: the state is exactly `elem_create`'s, zero components and links included, except for the new element's kind and factor; every other element keeps its children |
| Engine.UIContext.LayoutBuilderCreate | native/neogui.c:319-324 | `elem_create(parent)` followed by setting the builder kind with the given callback: the state is exactly `elem_create`'s, zero components and links included, except for the new element's kind; every other element keeps its children |
| Engine.UIContext.SetSize | native/neogui.c:350-351 | a host write of an element's preset size through the `USE` alias; only that element's size changes |
| Engine.UIContext.SetColor | native/neogui.c:335-336 | a host write of an element's colour through the `USE` alias; only that element's colour changes |
| Engine.UIContext.SetFlexFactor | native/neogui.h:99-107 | a host write of an element's flex factor through the `USE` alias; only that element's factor changes |
| Engine.UIContext.SetFlexArgs | native/neogui.h:77-89 | a host write of a flex container's cross alignment and stretch into its `ArgsUnion`; only that element's kind changes, and its main axis is kept |
| Engine.UIContext.GetSingleChild | native/neogui.c:18-23 | succeeds exactly when there is at most one child, and returns it (0 for none) |
| Engine.UIContext.Layout | native/neogui.c:25-30 | Dispatch on the kind: on success `KindDone` holds, which states for the element's own kind what its routine did to the element and its child (the default kind clamps its size; padding, align and sized box offer, place and size their single child as their rows below say; a flex container ends as `FlexDone`; a builder's new child is made from the callback's template at (0, 0) and offered the same constraints). Also on success only the element's subtree changed, the offer to it is recorded, sane constraints give a non-negative size, and the clamping kinds, a childless sized box and a builder whose child clamps end admitted. A slot with no routine fails. When `LaysOut` holds of the element it succeeds. |
| Engine.UIContext.LayoutByKind | native/neogui.c:27-29 | runs the routine of the element's kind: on success `KindDone` holds for that kind and the step stays within the element's subtree; a slot without a routine fails; succeeds when `LaysOut` holds |
| Engine.UIContext.ConstrainOnlyLayout | native/neogui.c:39-45 | the default kind applies `constrain_size` to the preset size; no other size and no offer changes |
| Engine.UIContext.PaddingLayout | native/neogui.c:59-78 | the only child is offered the padded constraints and placed at (left, top); the element is child size plus insets (insets alone without a child), clamped; a second child fails; succeeds when `LaysOut` holds |
| Engine.UIContext.AlignLayout | native/neogui.c:80-100 | the only child is laid out unbounded; the element is grown to the incoming constraints; the child sits at the align offset; without a child only the grow step happens; a second child fails; succeeds when `LaysOut` holds |
| Engine.UIContext.SizedBoxLayout | native/neogui.c:102-115 | with a child, the child gets the sized-box constraints, keeps its position, and the box takes exactly its size; without one the box is its dimensions, clamped; a second child fails; succeeds when `LaysOut` holds |
| Engine.UIContext.BuilderLayout | native/neogui.c:117-126 | the callback's child must be the element's only child; it stays at the new slot's (0, 0), is laid out under the same constraints and the element adopts its size; succeeds when the element had no children and every kind the callback returns lays out |
| Engine.UIContext.FlexFirstPass | native/neogui.c:151-164 | non-flex children are laid out under the flex child constraints, their main sizes summed and the cross maximum raised; factors are summed; a negative factor fails; when all kids are pending it succeeds and leaves the flex kids pending |
| Engine.UIContext.FlexSecondPass | native/neogui.c:175-186 | each flex child is laid out with main max equal to its share of the available space; their main sizes are summed and the cross maximum raised; when the flex kids are pending it succeeds |
| Engine.UIContext.FlexPlace | native/neogui.c:192-199 | each child is placed at the running main offset and the cross align offset |
| Engine.UIContext.FlexLayout | native/neogui.c:128-200 | The flex layout as a whole. Its main size is the sum of the children's and its cross size the largest of the incoming cross min and the children's; it is not clamped. Each child gets its stated offer and position. A stretch above 1 fails; when `LaysOut` holds it succeeds. |
| Engine.UIContext.FlipInput | native/neogui.c:204-207 | the other of the two input buffers becomes current |
| Engine.UIContext.CalcWorldPositions | native/neogui.c:209-220 | every live slot's world position is its parent's world position plus its own local position (slot 0: its local position) |
| Engine.UIContext.DrawElements | native/neogui.c:222-232 | returns one rectangle per live slot with non-zero alpha, in handle order |
| Engine.UIContext.FrameBegin | native/neogui.c:234-239 | the live count is 0 and the offer log empty; capacity and input are kept |
| Engine.UIContext.FrameEnd | native/neogui.c:241-248 | root 1 is offered exactly the window size, and `KindDone` says what the routine of the root's kind did to it and its child. A clamping root, a childless sized-box root and a builder root whose child clamps resolve to exactly that size. Then world positions and the painted rectangles follow. Without a tree the frame fails; when `LaysOut` holds of the root within the depth it succeeds. |

## Left out

- `native/main.c` (SDL window, event loop, SDL paint primitives) and `native/text.c` (HarfBuzz text shaping) are I/O and foreign-library wrappers. They are not part of this model.
- `web/render.ts`, `web/main.ts` and `web/library.js` (WebGL, browser bootstrap, canvas calls) are not part of this model for the same reason.
- `set_fill_color`/`fill_rect` are foreign calls. `draw_elements` returns the list of rectangles it would paint.
- IEEE `float` rounding is not modelled. Sizes are `real`, and `INFINITY` is the `Inf` tag of `Extent`. `Elem` is an unbounded `nat` rather than `uint32_t`.
- `realloc`/`memset` in `REALLOC_BUF`/`CLEAR_BUF` are not modelled byte by byte. Each buffer is a `seq` holding the live slots. A new slot is appended zeroed, and the capacity is a number that starts at 256 and doubles.
- Slots beyond the live count are not represented, so clearing them in `ui_frame_begin` is empty buffers.
- The user `LayoutBuildFunc` and its `userdata` are a function from (element, constraints) to the kind, size, colour and flex factor of the one child it creates. The model then creates that child itself.
- `assert` failures end the process in C. The model returns `ok == false` and promises nothing more about that path, beyond the success promised under `Progress.LaysOut`.
- Engine.UIContext.Layout: recursion carries a `depth` bound standing for the C stack. Running out returns `ok == false`, which the C code has no counterpart for. Depth is needed because a layout builder adds elements mid-layout.
- Engine.UIContext.FrameEnd: the model proves that the root resolves to exactly the window size for the clamping kinds (default, padding, align), for a sized box without a child, and for a builder whose callback makes a child of a clamping kind. A flex root is not clamped (native/neogui.c:188-190). A sized box with a child, or a builder with a child of another kind, adopts the child's size (native/neogui.c:110,125), which the model does not relate to the window size.
- Engine.UIContext.FrameEnd: with fewer than two live slots it fails. In C, slot 1 then has no layout routine and `perform_layout` asserts.
- Engine.UIContext.CalcWorldPositions: with no live slots it does nothing. The C code writes `world_pos[0]` even into an unallocated buffer.
- Engine.UIContext.FlipInput: returns the index of the newly current buffer rather than a pointer to it. The host's writes of key states into that buffer are not modelled: no operation of the model writes `input`.
- `test_ui` and the `USE` macro (demo tree construction) are left out. The host writes through the `USE` aliases that are modelled are `SetSize`, `SetColor`, `SetFlexFactor` and `SetFlexArgs`. The demo's first constraint step is `Policy.ScenarioOuterPadding`.
- Engine.UIContext.SetFlexArgs: only the flex arm of a flex container is written. `USE` also exposes `node`, `parent_node`, `pos`, `world_pos`, `layout_func` and the other `ArgsUnion` arms, and writing a union arm that does not match the element's kind reinterprets the bytes of another arm. Those writes are not modelled, because they break the link invariant or the pairing of kind and arguments that the model keeps in one `LayoutKind`.
- Engine.UIContext.PaddingLayout: the C code keeps a pointer into `ctx.args` (native/neogui.c:60) and reads the insets through it after the child's layout (70, 74-75). A layout builder in the subtree may grow the buffers and `realloc` `args` (native/neogui.c:251-255), and the pointer then dangles. The model reads the insets once, by value, which is the evidently intended behaviour.
- Engine.UIContext.FlexLayout: likewise the C code reads `args->cross_axis_align` (native/neogui.c:196) through a pointer taken at 129, after the children's layouts may have reallocated `args`. The model reads the flex arguments once, by value.
- Padding shrinks only the child's max by the insets. The child's min is lowered only when it exceeds the new max, and is not itself reduced by the insets (native/neogui.c:49-56). The model follows the code here.
- A default-kind flex child is not grown to its allotment (`Policy.FlexLeafKeepsPreset`), so a spacer with no preset size takes no room. The model keeps this behaviour of the code.

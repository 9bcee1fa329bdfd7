/** Value types of the layout engine: the declarations of native/neogui.h.
    Sizes and positions are `real`; an unbounded maximum is the tag `Inf`. */
module Types {

  /** An element handle. 0 means "no element", 1 is the root of the frame. */
  type Elem = nat

  /** An 8-bit colour channel or key-state byte. */
  type Byte = b: int | 0 <= b < 256

  /** The two layout axes; the C enum gives X the value 0 and Y the value 1. */
  datatype Axis = X | Y {
    function Index(): nat { if X? then 0 else 1 }

    /** The perpendicular axis (`!axis` in C). */
    function Other(): (r: Axis)
      ensures r != this && r.Index() == 1 - Index()
    {
      if X? then Y else X
    }
  }

  /** The perpendicular of the perpendicular is the axis itself. */
  lemma OtherTwice(a: Axis)
    ensures a.Other().Other() == a
  {
  }

  /** The four edges, in the C enum's order. */
  datatype Edge = Left | Top | Right | Bottom {
    function Index(): nat {
      match this
      case Left => 0
      case Top => 1
      case Right => 2
      case Bottom => 3
    }
  }

  function EdgeAt(i: nat): (r: Edge)
    requires i < 4
    ensures r.Index() == i
  {
    if i == 0 then Left else if i == 1 then Top else if i == 2 then Right else Bottom
  }

  /** `EDGE_LEFT + axis`: the edge where an axis starts. */
  function LeadingEdge(axis: Axis): Edge {
    EdgeAt(Left.Index() + axis.Index())
  }

  /** `EDGE_RIGHT + axis`: the edge where an axis ends. */
  function TrailingEdge(axis: Axis): Edge {
    EdgeAt(Right.Index() + axis.Index())
  }

  /** The enum arithmetic picks left/right for X and top/bottom for Y. */
  lemma EdgeArithmetic()
    ensures LeadingEdge(X) == Left && LeadingEdge(Y) == Top
    ensures TrailingEdge(X) == Right && TrailingEdge(Y) == Bottom
  {
  }

  /** A pair of per-axis values with an axis accessor, in place of `(&v.x)[axis]`. */
  datatype Axes<T> = Axes(x: T, y: T) {
    function Get(axis: Axis): T {
      if axis == X then x else y
    }

    function With(axis: Axis, v: T): (r: Axes<T>)
      ensures r.Get(axis) == v && r.Get(axis.Other()) == Get(axis.Other())
    {
      if axis == X then Axes(v, y) else Axes(x, v)
    }
  }

  type Vec2 = Axes<real>

  const Zero: Vec2 := Axes(0.0, 0.0)

  function Plus(a: Vec2, b: Vec2): Vec2 {
    Axes(a.x + b.x, a.y + b.y)
  }

  predicate NonNegative(v: Vec2) {
    v.x >= 0.0 && v.y >= 0.0
  }

  /** A maximum extent: finite, or unbounded (`INFINITY` in C). */
  datatype Extent = Fin(value: real) | Inf {
    /** `v <= this`, where nothing exceeds `Inf`. */
    predicate Covers(v: real) {
      Inf? || v <= value
    }
  }

  /** A (min_size, max_size) pair; only the maximum may be unbounded. */
  datatype Constraints = Constraints(minSize: Vec2, maxSize: Axes<Extent>) {
    /** On every axis with a finite maximum, min <= max. */
    predicate Satisfiable() {
      maxSize.x.Covers(minSize.x) && maxSize.y.Covers(minSize.y)
    }

    /** Satisfiable, and no minimum is negative: what the engine offers its elements. */
    predicate Sane() {
      Satisfiable() && NonNegative(minSize)
    }

    /** `s` lies within [min, max] on both axes. */
    predicate Admits(s: Vec2) {
      minSize.x <= s.x && minSize.y <= s.y && maxSize.x.Covers(s.x) && maxSize.y.Covers(s.y)
    }
  }

  /** min = max = (w, h): the root's constraints. */
  function Exact(w: real, h: real): (c: Constraints)
    ensures c.Satisfiable()
    ensures forall s: Vec2 :: c.Admits(s) <==> s == Axes(w, h)
  {
    Constraints(Axes(w, h), Axes(Fin(w), Fin(h)))
  }

  /** min = (0, 0), max = (Inf, Inf). */
  const Unbounded: Constraints := Constraints(Zero, Axes(Inf, Inf))

  datatype EdgeInsets = EdgeInsets(left: real, top: real, right: real, bottom: real) {
    function Inset(edge: Edge): real {
      match edge
      case Left => left
      case Top => top
      case Right => right
      case Bottom => bottom
    }

    /** The two insets that shrink an axis. */
    function Along(axis: Axis): real {
      Inset(LeadingEdge(axis)) + Inset(TrailingEdge(axis))
    }
  }

  datatype Color = Color(r: Byte, g: Byte, b: Byte, a: Byte)

  const Transparent: Color := Color(0, 0, 0, 0)

  /** A filled rectangle handed to the paint primitives. */
  datatype FilledRect = FilledRect(pos: Vec2, size: Vec2, color: Color)

  /** Per-element tree links: `Node` and `ParentNode` in C. */
  datatype Node = Node(parent: Elem, nextSibling: Elem)

  datatype ParentNode = ParentNode(firstChild: Elem, lastChild: Elem)

  datatype FlexArgs = FlexArgs(mainAxis: Axis, crossAlign: real, crossStretch: real)

  /** The function-pointer kind together with its `ArgsUnion` arm. `NoLayout` is a
      cleared slot (a NULL `layout_func`); `ConstrainOnly` is the default leaf kind. */
  datatype LayoutKind =
    | NoLayout
    | ConstrainOnly
    | Padding(insets: EdgeInsets)
    | Align(factor: Vec2)
    | SizedBox(dims: Vec2)
    | Flex(flex: FlexArgs)
    | Builder(build: BuildFunc)

  /** What a layout-builder callback makes of its one new child. */
  datatype BuiltChild = BuiltChild(kind: LayoutKind, size: Vec2, color: Color, flexFactor: real)

  /** A `LayoutBuildFunc` with its user data: (element, incoming constraints) to the child. */
  type BuildFunc = (Elem, Constraints) -> BuiltChild

  const KeyCount: nat := 256

  datatype InputState = InputState(keyDown: seq<Byte>)

  const NoKeysDown: InputState := InputState(seq(KeyCount, _ => 0))
}

/** World positions and the painted rectangle list (native/neogui.c:209-232), as
    functions of the arena's component values. */
module World {
  import opened Types

  /** Every slot in `[1, n)` has a parent with a smaller handle. */
  ghost predicate ParentsFirst(nodes: seq<Node>, n: nat) {
    n <= |nodes| && forall k :: 1 <= k < n ==> nodes[k].parent < k
  }

  /** The world position of slot `k`: slot 0 keeps its local position, every other slot
      adds its local position to its parent's world position. */
  function WorldOf(nodes: seq<Node>, pos: seq<Vec2>, k: nat): Vec2
    requires ParentsFirst(nodes, k + 1) && k < |pos|
    decreases k
  {
    if k == 0 then pos[0] else Plus(WorldOf(nodes, pos, nodes[k].parent), pos[k])
  }

  /** The handles on the way from slot 0 down to `k`. */
  function Path(nodes: seq<Node>, k: nat): seq<Elem>
    requires ParentsFirst(nodes, k + 1)
    decreases k
  {
    if k == 0 then [0] else Path(nodes, nodes[k].parent) + [k]
  }

  /** The sum of the local positions of the given slots. */
  function SumAt(pos: seq<Vec2>, ks: seq<Elem>): Vec2
    requires forall j :: 0 <= j < |ks| ==> ks[j] < |pos|
  {
    if ks == [] then Zero else Plus(SumAt(pos, ks[..|ks| - 1]), pos[ks[|ks| - 1]])
  }

  /** The path starts at slot 0, ends at `k`, climbs one parent link per step, and its
      handles increase: a sweep in handle order meets every ancestor before `k`. */
  lemma {:induction false} PathShape(nodes: seq<Node>, k: nat)
    requires ParentsFirst(nodes, k + 1)
    ensures var p := Path(nodes, k);
      && p[0] == 0 && p[|p| - 1] == k
      && (forall j :: 0 <= j < |p| ==> p[j] <= k)
      && (forall j, j' :: 0 <= j < j' < |p| ==> p[j] < p[j'])
      && (forall j :: 1 <= j < |p| ==> nodes[p[j]].parent == p[j - 1])
    decreases k
  {
    if k != 0 {
      PathShape(nodes, nodes[k].parent);
    }
  }

  /** World position = the sum of the local positions along the path from slot 0. */
  lemma {:induction false} WorldIsPathSum(nodes: seq<Node>, pos: seq<Vec2>, k: nat)
    requires ParentsFirst(nodes, k + 1) && k < |pos|
    ensures (PathShape(nodes, k); WorldOf(nodes, pos, k) == SumAt(pos, Path(nodes, k)))
    decreases k
  {
    PathShape(nodes, k);
    if k == 0 {
      assert Path(nodes, 0) == [0];
      assert Path(nodes, 0)[..0] == [];
    } else {
      var parent := nodes[k].parent;
      PathShape(nodes, parent);
      WorldIsPathSum(nodes, pos, parent);
      var p := Path(nodes, k);
      assert p[..|p| - 1] == Path(nodes, parent);
    }
  }

  /** The slots below `n` with non-zero alpha, in increasing order. */
  function Visible(colors: seq<Color>, n: nat): seq<Elem>
    requires n <= |colors|
  {
    if n == 0 then [] else Visible(colors, n - 1) + (if colors[n - 1].a != 0 then [n - 1] else [])
  }

  /** Exactly the slots with non-zero alpha are painted, each once, lower handles
      (so parents) first. */
  lemma {:induction false} VisibleExact(colors: seq<Color>, n: nat)
    requires n <= |colors|
    ensures forall k: nat :: k in Visible(colors, n) <==> k < n && colors[k].a != 0
    ensures forall j, j' :: 0 <= j < j' < |Visible(colors, n)| ==> Visible(colors, n)[j] < Visible(colors, n)[j']
  {
    if n != 0 {
      VisibleExact(colors, n - 1);
      var prev := Visible(colors, n - 1);
      forall j | 0 <= j < |prev|
        ensures prev[j] < n - 1
      {
        assert prev[j] in prev;
      }
    }
  }

  /** `draw_elements` as the list of rectangles it hands to the paint primitives. */
  function Painted(colors: seq<Color>, world: seq<Vec2>, sizes: seq<Vec2>, n: nat): seq<FilledRect>
    requires n <= |colors| && n <= |world| && n <= |sizes|
  {
    if n == 0 then []
    else
      var k := n - 1;
      Painted(colors, world, sizes, k)
      + (if colors[k].a != 0 then [FilledRect(world[k], sizes[k], colors[k])] else [])
  }

  /** The i-th painted rectangle is that of the i-th visible slot, at its world position
      and with its size and colour. */
  lemma {:induction false} PaintedIsVisible(colors: seq<Color>, world: seq<Vec2>, sizes: seq<Vec2>, n: nat)
    requires n <= |colors| && n <= |world| && n <= |sizes|
    ensures var vis, rects := Visible(colors, n), Painted(colors, world, sizes, n);
      && |rects| == |vis|
      && forall i :: 0 <= i < |vis| ==> vis[i] < n && rects[i] == FilledRect(world[vis[i]], sizes[vis[i]], colors[vis[i]])
  {
    if n != 0 {
      PaintedIsVisible(colors, world, sizes, n - 1);
      VisibleExact(colors, n - 1);
    }
  }
}

/** The tree links of the element arena (`Node`/`ParentNode`, native/neogui.h:57-65)
    as values: the invariants `elem_create` maintains, sibling chains, subtrees. */
module Tree {
  import opened Types

  /** A non-zero next sibling comes later in the arena and has the same parent. */
  ghost predicate SiblingOk(nodes: seq<Node>, n: nat, k: nat)
    requires k < n <= |nodes|
  {
    var s := nodes[k].nextSibling;
    s == 0 || (k < s < n && nodes[s].parent == nodes[k].parent)
  }

  /** First and last child are both set or both 0; when set they are children of `p`
      created after it, and the last one ends the sibling chain. */
  ghost predicate ChildLinksOk(nodes: seq<Node>, pnodes: seq<ParentNode>, n: nat, p: nat)
    requires p < n <= |nodes| && n <= |pnodes|
  {
    var pn := pnodes[p];
    && (pn.firstChild == 0 <==> pn.lastChild == 0)
    && (pn.firstChild != 0 ==>
          && p < pn.firstChild <= pn.lastChild < n
          && nodes[pn.firstChild].parent == p
          && nodes[pn.lastChild].parent == p
          && nodes[pn.lastChild].nextSibling == 0)
  }

  /** The link invariant of the live elements `[0, n)`: every element but the root has
      an earlier parent (creation order is a topological order), and sibling chains are
      consistent with first/last child. */
  ghost predicate LinksOk(nodes: seq<Node>, pnodes: seq<ParentNode>, n: nat) {
    && n <= |nodes| && n <= |pnodes|
    && (forall k :: 1 <= k < n ==> nodes[k].parent < k)
    && (forall k :: 2 <= k < n ==> 1 <= nodes[k].parent)
    && (forall k :: 1 <= k < n ==> SiblingOk(nodes, n, k))
    && (forall p :: 1 <= p < n ==> ChildLinksOk(nodes, pnodes, n, p))
    && (forall k :: 2 <= k < n && nodes[k].nextSibling == 0 ==> pnodes[nodes[k].parent].lastChild == k)
  }

  /** The sibling chain that starts at `k`, following `next_sibling` while it moves
      forward inside `[0, n)`. */
  function Chain(nodes: seq<Node>, n: nat, k: nat): (r: seq<Elem>)
    requires n <= |nodes|
    decreases n - k
    ensures forall j :: 0 <= j < |r| ==> k <= r[j] < n && r[j] != 0
    ensures |r| > 0 <==> 0 < k < n
    ensures |r| > 0 ==> r[0] == k
  {
    if k == 0 || k >= n then []
    else
      var s := nodes[k].nextSibling;
      [k] + (if k < s then Chain(nodes, n, s) else [])
  }

  /** A chain increases strictly, each member's `next_sibling` is the member after it,
      and the last member's `next_sibling` does not lead further forward. */
  lemma {:induction false} ChainShape(nodes: seq<Node>, n: nat, k: nat)
    requires n <= |nodes|
    ensures var r := Chain(nodes, n, k);
      && (forall j, j' :: 0 <= j < j' < |r| ==> r[j] < r[j'])
      && (forall j :: 0 <= j < |r| - 1 ==> nodes[r[j]].nextSibling == r[j + 1])
      && (|r| > 0 ==> var s := nodes[r[|r| - 1]].nextSibling; !(r[|r| - 1] < s < n))
    decreases n - k
  {
    if 0 < k < n {
      var s := nodes[k].nextSibling;
      if k < s {
        ChainShape(nodes, n, s);
      }
    }
  }

  /** The children of `p`, in creation order. */
  function Children(nodes: seq<Node>, pnodes: seq<ParentNode>, n: nat, p: nat): seq<Elem>
    requires n <= |nodes|
  {
    if p < |pnodes| then Chain(nodes, n, pnodes[p].firstChild) else []
  }

  /** Every element of a chain has the parent of its first element, and under the link
      invariant the chain ends where `next_sibling` is 0. */
  lemma {:induction false} ChainParents(nodes: seq<Node>, pnodes: seq<ParentNode>, n: nat, k: nat)
    requires LinksOk(nodes, pnodes, n) && 0 < k < n
    ensures var r := Chain(nodes, n, k);
      && (forall j :: 0 <= j < |r| ==> nodes[r[j]].parent == nodes[k].parent)
      && nodes[r[|r| - 1]].nextSibling == 0
    decreases n - k
  {
    assert SiblingOk(nodes, n, k);
    var s := nodes[k].nextSibling;
    if k < s {
      ChainParents(nodes, pnodes, n, s);
    }
  }

  /** The children of `p` are exactly the chain from its first to its last child; all of
      them have parent `p`. */
  lemma ChildrenFacts(nodes: seq<Node>, pnodes: seq<ParentNode>, n: nat, p: nat)
    requires LinksOk(nodes, pnodes, n) && 1 <= p < n
    ensures var r := Children(nodes, pnodes, n, p);
      && (r == [] <==> pnodes[p].firstChild == 0)
      && (r != [] ==> r[0] == pnodes[p].firstChild && r[|r| - 1] == pnodes[p].lastChild)
      && (forall j :: 0 <= j < |r| ==> p < r[j] < n && nodes[r[j]].parent == p)
      && (forall j :: 0 <= j < |r| - 1 ==> nodes[r[j]].nextSibling == r[j + 1] && r[j] < r[j + 1])
      && (r != [] ==> nodes[r[|r| - 1]].nextSibling == 0)
  {
    assert ChildLinksOk(nodes, pnodes, n, p);
    var first := pnodes[p].firstChild;
    if first != 0 {
      ChainParents(nodes, pnodes, n, first);
      ChainShape(nodes, n, first);
      var r := Chain(nodes, n, first);
      var last := r[|r| - 1];
      assert nodes[last].parent == p && 2 <= last;
    }
  }

  /** `get_single_child` accepts exactly the elements with at most one child. */
  lemma SingleChild(nodes: seq<Node>, pnodes: seq<ParentNode>, n: nat, p: nat)
    requires LinksOk(nodes, pnodes, n) && 1 <= p < n
    ensures var pn := pnodes[p];
      && ((pn.firstChild == 0 || pn.firstChild == pn.lastChild) <==> |Children(nodes, pnodes, n, p)| <= 1)
      && (pn.firstChild == 0 ==> Children(nodes, pnodes, n, p) == [])
      && (pn.firstChild != 0 && pn.firstChild == pn.lastChild ==> Children(nodes, pnodes, n, p) == [pn.firstChild])
  {
    ChildrenFacts(nodes, pnodes, n, p);
  }

  /** Appending `e` as the last child of the chain that ends at `last`: the chain grows
      by exactly `e` at its end. */
  lemma {:induction false} ChainAppend(nodes: seq<Node>, pnodes: seq<ParentNode>, n: nat,
                                       nodes': seq<Node>, k: nat, last: nat)
    requires LinksOk(nodes, pnodes, n) && 0 < k <= last < n && n < |nodes'|
    requires Chain(nodes, n, k)[|Chain(nodes, n, k)| - 1] == last
    requires forall j :: 0 <= j < n && j != last ==> nodes'[j] == nodes[j]
    requires nodes'[last].nextSibling == n && nodes'[n].nextSibling == 0
    ensures Chain(nodes', n + 1, k) == Chain(nodes, n, k) + [n]
    decreases n - k
  {
    assert SiblingOk(nodes, n, k);
    var s := nodes[k].nextSibling;
    if k == last {
      assert s == 0;
      assert Chain(nodes, n, k) == [k];
      assert Chain(nodes', n + 1, n) == [n];
      assert Chain(nodes', n + 1, k) == [k] + Chain(nodes', n + 1, n);
    } else {
      var r := Chain(nodes, n, k);
      assert |r| > 1;
      assert k < s;
      assert r == [k] + Chain(nodes, n, s);
      ChainAppend(nodes, pnodes, n, nodes', s, last);
      assert nodes'[k] == nodes[k];
      assert Chain(nodes', n + 1, k) == [k] + Chain(nodes', n + 1, s);
    }
  }

  /** `k` is `e` or a descendant of `e`. Ancestors always have smaller handles. */
  function InSubtree(nodes: seq<Node>, k: nat, e: nat): bool
    decreases k
  {
    k == e || (e < k < |nodes| && nodes[k].parent < k && InSubtree(nodes, nodes[k].parent, e))
  }

  /** Whether `k` is in the subtree of `e` depends only on the parents of `[0, k]`. */
  lemma {:induction false} SubtreeAgree(a: seq<Node>, b: seq<Node>, n: nat, k: nat, e: nat)
    requires n <= |a| && n <= |b| && k < n
    requires forall j :: 0 <= j < n ==> a[j].parent == b[j].parent
    ensures InSubtree(a, k, e) == InSubtree(b, k, e)
    decreases k
  {
    if k != e && e < k && a[k].parent < k {
      SubtreeAgree(a, b, n, a[k].parent, e);
    }
  }

  /** The subtree of a child lies inside the subtree of its parent. */
  lemma {:induction false} SubtreeOfChild(nodes: seq<Node>, k: nat, c: nat, e: nat)
    requires c < |nodes| && e < c && nodes[c].parent == e
    requires InSubtree(nodes, k, c)
    ensures InSubtree(nodes, k, e)
    decreases k
  {
    if k != c {
      SubtreeOfChild(nodes, nodes[k].parent, c, e);
    }
  }

  /** Two different children of the same element have disjoint subtrees. */
  lemma SiblingsApart(nodes: seq<Node>, a: nat, b: nat, e: nat)
    requires a < |nodes| && b < |nodes| && a != b
    requires e < a && e < b && nodes[a].parent == e && nodes[b].parent == e
    ensures !InSubtree(nodes, a, b)
  {
  }

  /** `p` together with its children: everything `elem_create(p)` may touch. */
  lemma ChildInSubtree(nodes: seq<Node>, c: nat, e: nat)
    requires c < |nodes| && e < c && nodes[c].parent == e
    ensures InSubtree(nodes, c, e)
  {
  }

  /** A chain only depends on the links of its own members, which all share the parent
      of its first element: when only slot `x`, an element with another parent, may have
      changed, and there are more live slots, it is the same chain. */
  lemma {:induction false} ChainFrame(nodes: seq<Node>, pnodes: seq<ParentNode>, n: nat,
                                      nodes': seq<Node>, n': nat, k: nat, x: nat)
    requires LinksOk(nodes, pnodes, n) && 0 < k < n && n <= n' <= |nodes'|
    requires forall j :: 0 <= j < n && j != x ==> nodes'[j] == nodes[j]
    requires x == 0 || x >= n || nodes[x].parent != nodes[k].parent
    ensures Chain(nodes', n', k) == Chain(nodes, n, k)
    decreases n - k
  {
    assert SiblingOk(nodes, n, k);
    assert nodes'[k] == nodes[k];
    var s := nodes[k].nextSibling;
    if k < s {
      ChainFrame(nodes, pnodes, n, nodes', n', s, x);
    }
  }

  /** Children are unchanged when the links of the parent and of the children are. */
  lemma ChildrenFrame(nodes: seq<Node>, pnodes: seq<ParentNode>, n: nat,
                      nodes': seq<Node>, pnodes': seq<ParentNode>, n': nat, p: nat, x: nat)
    requires LinksOk(nodes, pnodes, n) && 1 <= p < n && n <= n' <= |nodes'| && p < |pnodes'|
    requires pnodes'[p] == pnodes[p]
    requires forall j :: 0 <= j < n && j != x ==> nodes'[j] == nodes[j]
    requires x == 0 || x >= n || nodes[x].parent != p
    ensures Children(nodes', pnodes', n', p) == Children(nodes, pnodes, n, p)
  {
    assert ChildLinksOk(nodes, pnodes, n, p);
    var first := pnodes[p].firstChild;
    if first != 0 {
      ChainFrame(nodes, pnodes, n, nodes', n', first, x);
    }
  }

  /** The first element of the frame: slot 1, a root with no parent and no links. */
  lemma RootLinksOk(nodes: seq<Node>, pnodes: seq<ParentNode>)
    requires 2 <= |nodes| && 2 <= |pnodes|
    requires nodes[1] == Node(0, 0) && pnodes[1] == ParentNode(0, 0)
    ensures LinksOk(nodes, pnodes, 2)
    ensures Children(nodes, pnodes, 2, 1) == []
  {
    assert SiblingOk(nodes, 2, 1);
    assert ChildLinksOk(nodes, pnodes, 2, 1);
  }

  /** `elem_create(p)` on the links: `nodes'`/`pnodes'` are `nodes`/`pnodes` with slot `n`
      linked in as the last child of `p`. */
  ghost predicate Appended(nodes: seq<Node>, pnodes: seq<ParentNode>, n: nat, p: nat,
                           nodes': seq<Node>, pnodes': seq<ParentNode>)
  {
    && LinksOk(nodes, pnodes, n) && 1 <= p < n && n < |nodes'| && n < |pnodes'|
    && var last := pnodes[p].lastChild;
      && (forall j :: 0 <= j < n && (j == 0 || j != last) ==> nodes'[j] == nodes[j])
      && (0 < last < n ==> nodes'[last] == nodes[last].(nextSibling := n))
      && nodes'[n] == Node(p, 0) && pnodes'[n] == ParentNode(0, 0)
      && (forall q :: 0 <= q < n && q != p ==> pnodes'[q] == pnodes[q])
      && pnodes'[p] == ParentNode(if last == 0 then n else pnodes[p].firstChild, n)
  }

  /** The links after `elem_create(p)` makes slot `n == |nodes|`: the new node points to
      `p`, the old last child (if any) to the new node, and `p` ends with it. */
  function LinkedNodes(nodes: seq<Node>, pnodes: seq<ParentNode>, p: nat): seq<Node>
    requires p < |pnodes|
  {
    var last, appended := pnodes[p].lastChild, nodes + [Node(p, 0)];
    if 0 < last < |nodes| then appended[last := nodes[last].(nextSibling := |nodes|)] else appended
  }

  function LinkedParents(nodes: seq<Node>, pnodes: seq<ParentNode>, p: nat): seq<ParentNode>
    requires p < |pnodes|
  {
    var pn, n := pnodes[p], |nodes|;
    (pnodes + [ParentNode(0, 0)])[p := ParentNode(if pn.lastChild == 0 then n else pn.firstChild, n)]
  }

  /** Those links are an append. */
  lemma LinkedAppends(nodes: seq<Node>, pnodes: seq<ParentNode>, p: nat)
    requires LinksOk(nodes, pnodes, |nodes|) && |pnodes| == |nodes| && 1 <= p < |nodes|
    ensures Appended(nodes, pnodes, |nodes|, p, LinkedNodes(nodes, pnodes, p), LinkedParents(nodes, pnodes, p))
  {
    assert ChildLinksOk(nodes, pnodes, |nodes|, p);
  }

  /** Appending keeps the link invariant. */
  lemma AppendLinksOk(nodes: seq<Node>, pnodes: seq<ParentNode>, n: nat, p: nat,
                      nodes': seq<Node>, pnodes': seq<ParentNode>)
    requires Appended(nodes, pnodes, n, p, nodes', pnodes')
    ensures LinksOk(nodes', pnodes', n + 1)
  {
    var last := pnodes[p].lastChild;
    assert ChildLinksOk(nodes, pnodes, n, p);
    assert last != 0 ==> last < n;
    forall k | 0 <= k < n
      ensures nodes'[k].parent == nodes[k].parent
    {
      if k != 0 && k == last {
        assert nodes'[last] == nodes[last].(nextSibling := n);
      }
    }
    var n1 := n + 1;
    forall k | 1 <= k < n1
      ensures SiblingOk(nodes', n1, k)
    {
      if k < n && k != last {
        assert SiblingOk(nodes, n, k);
      }
    }
    forall q | 1 <= q < n1
      ensures ChildLinksOk(nodes', pnodes', n1, q)
    {
      if q < n && q != p {
        assert ChildLinksOk(nodes, pnodes, n, q);
      }
    }
    forall k | 2 <= k < n1 && nodes'[k].nextSibling == 0
      ensures pnodes'[nodes'[k].parent].lastChild == k
    {
      if k < n && k != last {
        assert nodes[k].nextSibling == 0;
        assert pnodes[nodes[k].parent].lastChild == k;
      }
    }
  }

  /** Appending adds `n` at the end of the children of `p`. */
  lemma AppendChildren(nodes: seq<Node>, pnodes: seq<ParentNode>, n: nat, p: nat,
                       nodes': seq<Node>, pnodes': seq<ParentNode>)
    requires Appended(nodes, pnodes, n, p, nodes', pnodes')
    ensures Children(nodes', pnodes', n + 1, p) == Children(nodes, pnodes, n, p) + [n]
  {
    var last := pnodes[p].lastChild;
    ChildrenFacts(nodes, pnodes, n, p);
    assert ChildLinksOk(nodes, pnodes, n, p);
    if last == 0 {
      assert Chain(nodes', n + 1, n) == [n];
    } else {
      ChainAppend(nodes, pnodes, n, nodes', pnodes[p].firstChild, last);
    }
  }

  /** Appending leaves the children of every other element alone. */
  lemma AppendOthers(nodes: seq<Node>, pnodes: seq<ParentNode>, n: nat, p: nat,
                     nodes': seq<Node>, pnodes': seq<ParentNode>, q: nat)
    requires Appended(nodes, pnodes, n, p, nodes', pnodes') && 1 <= q < n && q != p
    ensures Children(nodes', pnodes', n + 1, q) == Children(nodes, pnodes, n, q)
  {
    var last := pnodes[p].lastChild;
    assert ChildLinksOk(nodes, pnodes, n, p);
    ChildrenFrame(nodes, pnodes, n, nodes', pnodes', n + 1, q, last);
  }

  /** What appending means for the link invariant and for the children lists. */
  lemma AppendFacts(nodes: seq<Node>, pnodes: seq<ParentNode>, n: nat, p: nat,
                    nodes': seq<Node>, pnodes': seq<ParentNode>)
    requires Appended(nodes, pnodes, n, p, nodes', pnodes')
    ensures LinksOk(nodes', pnodes', n + 1)
    ensures Children(nodes', pnodes', n + 1, p) == Children(nodes, pnodes, n, p) + [n]
    ensures forall q :: 1 <= q < n && q != p ==> Children(nodes', pnodes', n + 1, q) == Children(nodes, pnodes, n, q)
  {
    AppendLinksOk(nodes, pnodes, n, p, nodes', pnodes');
    AppendChildren(nodes, pnodes, n, p, nodes', pnodes');
    forall q | 1 <= q < n && q != p
      ensures Children(nodes', pnodes', n + 1, q) == Children(nodes, pnodes, n, q)
    {
      AppendOthers(nodes, pnodes, n, p, nodes', pnodes', q);
    }
  }
}

/** The rehype pass (index.js:71-85): on the HTML tree, a `code` element's annotation moves to
    its parent when the parent is a `pre` element, so that a fenced code block's annotation lands
    on the block (`pre`) and not on the `code` element inside it. */
module Rehype {
  import opened Keys

  /** An HTML (hast) node: the root, an element with its tag name and properties, or any other
      node (text, comment, MDX element) that has children or none. */
  datatype HNode =
    | Root(children: seq<HNode>)
    | Element(tagName: string, properties: map<string, string>, children: seq<HNode>)
    | Other(kind: string, children: seq<HNode>)

  /** The case the visitor acts on: a `code` element carrying an annotation, directly under a
      `pre` element. */
  predicate Stranded(node: HNode, parent: HNode) {
    node.Element? && node.tagName == "code" && AnnotationKey in node.properties &&
    parent.Element? && parent.tagName == "pre"
  }

  /** The visitor body for an element `node` under `parent`: in the `Stranded` case the parent
      takes the code element's annotation and the code element loses it; nothing else changes,
      and in every other case nothing changes at all. */
  function Relocate(node: HNode, parent: HNode): (r: (HNode, HNode))
    requires node.Element?
    ensures Stranded(node, parent) ==>
      r.0 == node.(properties := node.properties - {AnnotationKey}) &&
      r.1 == parent.(properties := parent.properties[AnnotationKey := node.properties[AnnotationKey]])
    ensures !Stranded(node, parent) ==> r == (node, parent)
    ensures r.0.children == node.children && SameHeader(r.0, node)
    ensures r.1.children == parent.children && SameHeader(r.1, parent)
    ensures !(parent.Element? && parent.tagName == "pre") ==> r.1 == parent
  {
    if node.tagName == "code" && AnnotationKey in node.properties && parent.Element? && parent.tagName == "pre" then
      (node.(properties := node.properties - {AnnotationKey}),
       parent.(properties := parent.properties[AnnotationKey := node.properties[AnnotationKey]]))
    else
      (node, parent)
  }

  /** Number of levels below a node: 0 for a leaf. The measure `Mdast.Height` is for Markdown
      nodes, here over HTML nodes, which are a different type. */
  ghost function Height(n: HNode): nat
    decreases n
  {
    HeightOf(n.children)
  }

  ghost function HeightOf(s: seq<HNode>): (h: nat)
    decreases s
    ensures forall k :: 0 <= k < |s| ==> Height(s[k]) < h
  {
    if s == [] then 0
    else
      var rest := HeightOf(s[1..]);
      assert forall k :: 1 <= k < |s| ==> s[k] == s[1..][k - 1];
      if 1 + Height(s[0]) < rest then rest else 1 + Height(s[0])
  }

  lemma {:induction false} HeightOfBound(s: seq<HNode>, h: nat)
    requires forall k :: 0 <= k < |s| ==> Height(s[k]) < h
    ensures HeightOf(s) <= h
  {
    if s != [] {
      assert forall k :: 0 <= k < |s| - 1 ==> s[1..][k] == s[k + 1];
      HeightOfBound(s[1..], h);
    }
  }

  /** `n` with everything but its properties and its children kept. */
  predicate SameHeader(a: HNode, b: HNode) {
    match a
    case Root(_) => b.Root?
    case Element(tag, _, _) => b.Element? && b.tagName == tag
    case Other(kind, _) => b.Other? && b.kind == kind
  }

  /** unist-util-visit with the `'element'` test over the children of `n` from index `i` on:
      the visitor runs on each element child (with `n` as its parent), then the walk descends
      into that child. The tree's shape never changes; only a `pre` element's own properties
      can change while its children are walked, and the children already walked stay as they
      are. */
  function WalkChildren(n: HNode, i: nat): (r: HNode)
    decreases Height(n), |n.children| - i, 1
    ensures Height(r) <= Height(n)
    ensures SameHeader(r, n) && |r.children| == |n.children|
  {
    if i >= |n.children| then n
    else WalkChildren(StepAt(n, i), i + 1)
  }

  /** One step of the walk at child `i` of `n`: the visitor's result for the child and for `n`,
      and `n` with the walked child put back, from which the walk continues at `i + 1`. */
  function StepAt(n: HNode, i: nat): (r: HNode)
    requires i < |n.children|
    decreases Height(n), |n.children| - i, 0
    ensures Height(r) <= Height(n)
    ensures SameHeader(r, n) && |r.children| == |n.children|
    ensures r.children[..i] == n.children[..i] && r.children[i + 1..] == n.children[i + 1..]
    ensures !(n.Element? && n.tagName == "pre") ==> r == n.(children := r.children)
  {
    var c := n.children[i];
    var visited := if c.Element? then Relocate(c, n) else (c, n);
    var c', p := visited.0, visited.1;
    assert Height(c') == Height(c) < Height(n);
    var r := p.(children := p.children[i := WalkChildren(c', 0)]);
    HeightOfBound(r.children, Height(n));
    r
  }

  /** The walk leaves the children it has passed alone. */
  lemma {:induction false} WalkKeepsPrefix(n: HNode, i: nat)
    requires i <= |n.children|
    ensures WalkChildren(n, i).children[..i] == n.children[..i]
    decreases Height(n), |n.children| - i
  {
    if i < |n.children| {
      var p' := StepAt(n, i);
      WalkKeepsPrefix(p', i + 1);
      assert WalkChildren(p', i + 1).children[..i] == WalkChildren(p', i + 1).children[..i + 1][..i];
    }
  }

  /** The walk changes nothing but the children of a node that is not a `pre` element. */
  lemma {:induction false} WalkKeepsHeader(n: HNode, i: nat)
    requires !(n.Element? && n.tagName == "pre")
    ensures WalkChildren(n, i) == n.(children := WalkChildren(n, i).children)
    decreases Height(n), |n.children| - i
  {
    if i < |n.children| {
      var p' := StepAt(n, i);
      WalkKeepsHeader(p', i + 1);
    }
  }

  /** The rehype pass over a whole HTML tree; unified always hands the plugin a hast `root`,
      which the `'element'` test never visits. */
  function RehypePass(tree: HNode): (r: HNode)
    requires tree.Root?
    ensures r.Root? && |r.children| == |tree.children|
  {
    WalkChildren(tree, 0)
  }

  // ---------------------------------------------------------------------------------------------
  // Properties of the whole pass

  /** Child `k` of `p` is not a stranded annotated `code` element. */
  predicate ChildSettled(p: HNode, k: nat)
    requires k < |p.children|
  {
    !Stranded(p.children[k], p)
  }

  /** Nowhere in the tree does a `pre` element hold an annotated `code` element. */
  ghost predicate Settled(n: HNode)
    decreases n, 1
  {
    SettledFrom(n, 0)
  }

  /** The children of `n` from index `i` on, and their subtrees, are settled. */
  ghost predicate SettledFrom(n: HNode, i: nat)
    decreases n, 0
  {
    forall k :: i <= k < |n.children| ==> ChildSettled(n, k) && Settled(n.children[k])
  }

  /** Every child the walk has passed is settled, whatever the input. */
  lemma {:induction false} WalkSettles(n: HNode, i: nat)
    ensures SettledFrom(WalkChildren(n, i), i)
    decreases Height(n), |n.children| - i, 1
  {
    if i < |n.children| {
      var p' := StepAt(n, i);
      StepSettles(n, i);
      WalkSettles(p', i + 1);
      WalkKeepsPrefix(p', i + 1);
      var r := WalkChildren(p', i + 1);
      assert r.children[i] == p'.children[i] by {
        assert r.children[i] == r.children[..i + 1][i];
      }
    }
  }

  /** The child a step has walked is settled and not stranded under its parent. */
  lemma {:induction false} StepSettles(n: HNode, i: nat)
    requires i < |n.children|
    ensures Settled(StepAt(n, i).children[i]) && !Stranded(StepAt(n, i).children[i], n)
    decreases Height(n), |n.children| - i, 0
  {
    var c := n.children[i];
    var visited := if c.Element? then Relocate(c, n) else (c, n);
    var c' := visited.0;
    assert Height(c') == Height(c) < Height(n);
    var c'' := WalkChildren(c', 0);
    assert StepAt(n, i).children[i] == c'';
    WalkSettles(c', 0);
    if c''.Element? && c''.tagName == "code" {
      WalkKeepsHeader(c', 0);
    }
  }

  /** After the pass no `code` element directly under a `pre` element keeps an annotation. */
  lemma RehypeSettles(tree: HNode)
    requires tree.Root?
    ensures Settled(RehypePass(tree))
  {
    WalkSettles(tree, 0);
  }

  /** On a settled tree the walk changes nothing. */
  lemma {:induction false} WalkSettledUnchanged(n: HNode, i: nat)
    requires SettledFrom(n, i)
    ensures WalkChildren(n, i) == n
    decreases Height(n), |n.children| - i
  {
    if i < |n.children| {
      var c := n.children[i];
      assert Height(c) < Height(n);
      WalkSettledUnchanged(c, 0);
      assert n.(children := n.children[i := c]) == n;
      WalkSettledUnchanged(n, i + 1);
    }
  }

  /** Running the pass a second time changes nothing. */
  lemma RehypeIdempotent(tree: HNode)
    requires tree.Root?
    ensures RehypePass(RehypePass(tree)) == RehypePass(tree)
  {
    RehypeSettles(tree);
    WalkSettledUnchanged(RehypePass(tree), 0);
  }
}

/** The remark pass (index.js:14-70): the visitor that unist-util-visit calls on every node of the
    Markdown tree, with its three cases (code-block meta, annotation-only table row, generic
    marker scan), and the preorder walk that drives it. */
module Remark {
  import opened Wrappers
  import opened Sequences
  import opened Strings
  import opened Keys
  import opened Mdast

  // ---------------------------------------------------------------------------------------------
  // Code blocks (index.js:17-21)

  /** `m` splits as `{` w1 `{` x `}` w2 `}` with w1, w2 white space and x free of line
      terminators: the meaning of `/^{\s*{.*?}\s*}$/` (the lazy `.*?` makes no difference to
      whether an anchored pattern matches). */
  ghost predicate MetaShape(m: string, w1: string, x: string, w2: string) {
    AllWhite(w1) && AllWhite(w2) && NoLineTerminator(x) && m == Braced(w1 + Braced(x) + w2)
  }

  /** `s` between a pair of curly braces. */
  function Braced(s: string): (r: string)
    ensures |r| == |s| + 2 && r[0] == '{' && r[|r| - 1] == '}' && r[1..|r| - 1] == s
  {
    "{" + s + "}"
  }

  ghost predicate MatchesMetaPattern(m: string) {
    exists w1, x, w2 :: MetaShape(m, w1, x, w2)
  }

  /** Decides the pattern without a regular-expression engine: strip the outer braces, trim,
      and look for a brace-wrapped group with no line break inside. */
  predicate MetaMatches(m: string) {
    |m| >= 2 && m[0] == '{' && m[|m| - 1] == '}' &&
    var t := Trim(m[1..|m| - 1]);
    |t| >= 2 && t[0] == '{' && t[|t| - 1] == '}' && NoLineTerminator(t[1..|t| - 1])
  }

  /** The decision procedure is exactly the pattern, in both directions. */
  lemma MetaMatchesPattern(m: string)
    ensures MetaMatches(m) <==> MatchesMetaPattern(m)
  {
    if MetaMatches(m) {
      MetaMatchesSound(m);
    }
    if MatchesMetaPattern(m) {
      var w1, x, w2 :| MetaShape(m, w1, x, w2);
      MetaMatchesComplete(m, w1, x, w2);
    }
  }

  /** A string the procedure accepts splits as the pattern says. */
  lemma MetaMatchesSound(m: string)
    requires MetaMatches(m)
    ensures MatchesMetaPattern(m)
  {
    var inner := m[1..|m| - 1];
    var t := Trim(inner);
    var w1, w2 := TrimSplits(inner);
    var x := t[1..|t| - 1];
    BracedParts(t);
    BracedParts(m);
    assert MetaShape(m, w1, x, w2);
  }

  /** A string that starts with `{` and ends with `}` is the braced form of its middle. */
  lemma BracedParts(s: string)
    requires |s| >= 2 && s[0] == '{' && s[|s| - 1] == '}'
    ensures s == Braced(s[1..|s| - 1])
  {
  }

  /** A string of the pattern's shape is accepted by the procedure. */
  lemma MetaMatchesComplete(m: string, w1: string, x: string, w2: string)
    requires MetaShape(m, w1, x, w2)
    ensures MetaMatches(m)
    ensures m[1..|m| - 1] == w1 + Braced(x) + w2
  {
    TrimShape(w1, x, w2);
  }

  /** Trimming the inside of the pattern leaves exactly the inner brace group. */
  lemma TrimShape(w1: string, x: string, w2: string)
    requires AllWhite(w1) && AllWhite(w2)
    ensures Trim(w1 + Braced(x) + w2) == Braced(x)
  {
    var core := Braced(x);
    var rest := core + w2;
    assert w1 + core + w2 == w1 + rest;
    LeadingWhiteOf(w1, rest);
    TrailingWhiteOf(core, w2);
  }

  /** `regex.test(node.meta)`; a `null` meta is tested as the text "null", which never matches. */
  predicate CodeMetaMatches(meta: Option<string>) {
    meta.Some? && MetaMatches(meta.value)
  }

  /** The code-block case: when the meta is a brace-wrapped group, what lies between its outer
      braces becomes the block's annotation and the meta is cleared; any other code block is
      returned untouched. */
  function AnnotateCode(n: Node): (r: Node)
    requires n.kind == Code
    ensures n.meta.Some? && MatchesMetaPattern(n.meta.value) ==>
      r.meta.None? && r.(data := n.data, meta := n.meta) == n &&
      forall w1, x, w2 :: MetaShape(n.meta.value, w1, x, w2) ==>
        AnnotationOf(r) == Some(w1 + Braced(x) + w2) && r.data == SetAnnotation(n, w1 + Braced(x) + w2).data
    ensures !(n.meta.Some? && MatchesMetaPattern(n.meta.value)) ==> r == n
  {
    if CodeMetaMatches(n.meta) then
      var m := n.meta.value;
      MetaMatchesPattern(m);
      assert forall w1, x, w2 :: MetaShape(m, w1, x, w2) ==> m[1..|m| - 1] == w1 + Braced(x) + w2 by {
        forall w1, x, w2 | MetaShape(m, w1, x, w2) ensures m[1..|m| - 1] == w1 + Braced(x) + w2 {
          MetaMatchesComplete(m, w1, x, w2);
        }
      }
      SetAnnotation(n, m[1..|m| - 1]).(meta := None)
    else if n.meta.Some? then
      MetaMatchesPattern(n.meta.value);
      n
    else
      n
  }

  // ---------------------------------------------------------------------------------------------
  // Table rows (index.js:23-34)

  /** A row of exactly one cell holding exactly one text expression (no brace test here). */
  predicate AnnotationRow(row: Node) {
    |row.children| == 1 && row.children[0].kind == TableCell &&
    |row.children[0].children| == 1 && row.children[0].children[0].kind == TextExpression
  }

  /** The table-row case, applied to the row's parent: the table takes the expression's text as
      its annotation and loses exactly that row; the other rows keep their order. */
  function DropAnnotationRow(table: Node, i: nat): (r: Node)
    requires i < |table.children| && AnnotationRow(table.children[i])
    ensures AnnotationOf(r) == Some(table.children[i].children[0].children[0].value)
    ensures r.data == SetAnnotation(table, table.children[i].children[0].children[0].value).data
    ensures |r.children| == |table.children| - 1
    ensures r.children[..i] == table.children[..i] && r.children[i..] == table.children[i + 1..]
    ensures r.(data := table.data, children := table.children) == table
  {
    SetAnnotation(table, table.children[i].children[0].children[0].value).(children := Remove(table.children, i))
  }

  // ---------------------------------------------------------------------------------------------
  // Generic markers (index.js:36-66)

  /** A text expression whose text starts with `{` and ends with `}`. */
  predicate IsMarker(c: Node) {
    c.kind == TextExpression && |c.value| > 0 && c.value[0] == '{' && c.value[|c.value| - 1] == '}'
  }

  /** A paragraph that is the sole child of a list item passes its annotation to the list item. */
  predicate PromotesToListItem(node: Node, parent: Option<Node>) {
    node.kind == Paragraph && parent.Some? && parent.value.kind == ListItem && |parent.value.children| == 1
  }

  /** `a` is `b` with at most its annotation bag and, for a text run, its text rewritten. */
  predicate Shallow(a: Node, b: Node) {
    a.kind == b.kind && a.meta == b.meta && a.children == b.children &&
    (a.kind != Text ==> a.value == b.value)
  }

  /** `out` is `inp` with some markers deleted and every other node kept in order, rewritten at
      most shallowly. */
  ghost predicate Thinned(out: seq<Node>, inp: seq<Node>)
    decreases |inp|
  {
    if inp == [] then out == []
    else
      (IsMarker(inp[0]) && Thinned(out, inp[1..])) ||
      (out != [] && Shallow(out[0], inp[0]) && Thinned(out[1..], inp[1..]))
  }

  /** The state the scan loop works on: the node being visited and its parent. */
  datatype Scan = Scan(node: Node, parent: Option<Node>)

  /** One iteration of the scan loop at index `i`. */
  function Step(s: Scan, i: nat): (r: Scan)
    requires i < |s.node.children|
    ensures r.parent.Some? == s.parent.Some?
    ensures r.parent.Some? ==> r.parent.value.(data := s.parent.value.data) == s.parent.value
    ensures r.node.(data := s.node.data, children := s.node.children) == s.node
    // not a candidate, or no predecessor: nothing happens
    ensures !(i > 0 && IsMarker(s.node.children[i])) ==> r == s
    // a consumed candidate: exactly it leaves, the others keep their places
    ensures i > 0 && IsMarker(s.node.children[i]) ==>
      |r.node.children| == |s.node.children| - 1 &&
      r.node.children[..i - 1] == s.node.children[..i - 1] &&
      r.node.children[i..] == s.node.children[i + 1..]
    // a trailing candidate after text: the text is trimmed and the enclosing node (or the list
    // item around a sole paragraph) carries the annotation
    ensures (i > 0 && IsMarker(s.node.children[i]) && s.node.children[i - 1].kind == Text
      && i == |s.node.children| - 1) ==>
      r.node.children[i - 1] == s.node.children[i - 1].(value := TrimEnd(s.node.children[i - 1].value)) &&
      if PromotesToListItem(s.node, s.parent) then
        r.parent == Some(SetAnnotation(s.parent.value, s.node.children[i].value)) && r.node.data == s.node.data
      else
        r.parent == s.parent && AnnotationOf(r.node) == Some(s.node.children[i].value) &&
        r.node.data == SetAnnotation(s.node, s.node.children[i].value).data
    // any other candidate annotates its predecessor
    ensures (i > 0 && IsMarker(s.node.children[i]) &&
      !(s.node.children[i - 1].kind == Text && i == |s.node.children| - 1)) ==>
      r.parent == s.parent && r.node.data == s.node.data &&
      r.node.children[i - 1] == SetAnnotation(s.node.children[i - 1], s.node.children[i].value)
  {
    var kids := s.node.children;
    if i == 0 || !IsMarker(kids[i]) then
      s
    else
      var value := kids[i].value;
      var prev := kids[i - 1];
      if prev.kind == Text && i == |kids| - 1 then
        var kids' := Remove(kids[i - 1 := prev.(value := TrimEnd(prev.value))], i);
        if PromotesToListItem(s.node, s.parent) then
          Scan(s.node.(children := kids'), Some(SetAnnotation(s.parent.value, value)))
        else
          Scan(SetAnnotation(s.node, value).(children := kids'), s.parent)
      else
        var kids' := Remove(kids[i - 1 := SetAnnotation(prev, value)], i);
        Scan(s.node.(children := kids'), s.parent)
  }

  /** The scan loop from index `i` on. The index moves on after a splice, so the sibling that
      slides into the freed slot is never examined. */
  function ScanFrom(s: Scan, i: nat): (r: Scan)
    decreases |s.node.children| - i
    ensures r.parent.Some? == s.parent.Some?
    ensures r.parent.Some? ==> r.parent.value.(data := s.parent.value.data) == s.parent.value
    ensures r.node.(data := s.node.data, children := s.node.children) == s.node
  {
    if i >= |s.node.children| then s
    else ScanFrom(Step(s, i), i + 1)
  }

  /** One step deletes at most the marker it consumes and rewrites its predecessor shallowly. */
  lemma StepThins(s: Scan, i: nat)
    requires i < |s.node.children|
    ensures Thinned(Step(s, i).node.children, s.node.children)
  {
    var kids := s.node.children;
    if i == 0 || !IsMarker(kids[i]) {
      ThinnedRefl(kids);
    } else {
      var prev := kids[i - 1];
      if prev.kind == Text && i == |kids| - 1 {
        ThinnedStep(kids, i, prev.(value := TrimEnd(prev.value)));
      } else {
        ThinnedStep(kids, i, SetAnnotation(prev, kids[i].value));
      }
    }
  }

  /** The whole scan deletes only markers and rewrites the other children shallowly. */
  lemma {:induction false} ScanThins(s: Scan, i: nat)
    ensures Thinned(ScanFrom(s, i).node.children, s.node.children)
    decreases |s.node.children| - i
  {
    if i >= |s.node.children| {
      ThinnedRefl(s.node.children);
    } else {
      var s' := Step(s, i);
      StepThins(s, i);
      ScanThins(s', i + 1);
      ThinnedTrans(ScanFrom(s', i + 1).node.children, s'.node.children, s.node.children);
    }
  }

  /** The marker scan of index.js:38-66 as the loop it is: walk the children left to right,
      consume each brace-wrapped text expression that has a predecessor, and splice it out. */
  method ScanMarkers(node: Node, parent: Option<Node>) returns (node': Node, parent': Option<Node>)
    ensures Scan(node', parent') == ScanFrom(Scan(node, parent), 0)
    ensures Thinned(node'.children, node.children)
    ensures parent'.Some? == parent.Some?
  {
    node', parent' := node, parent;
    var i := 0;
    while i < |node'.children|
      invariant ScanFrom(Scan(node', parent'), i) == ScanFrom(Scan(node, parent), 0)
      decreases |node'.children| - i
    {
      var child := node'.children[i];
      if i > 0 && IsMarker(child) {
        var prev := node'.children[i - 1];
        if prev.kind == Text && i == |node'.children| - 1 {
          if PromotesToListItem(node', parent') {
            parent' := Some(SetAnnotation(parent'.value, child.value));
          } else {
            node' := SetAnnotation(node', child.value);
          }
          prev := prev.(value := TrimEnd(prev.value));
        } else {
          prev := SetAnnotation(prev, child.value);
        }
        node' := node'.(children := Remove(node'.children[i - 1 := prev], i));
      }
      i := i + 1;
    }
    ScanThins(Scan(node, parent), 0);
  }

  lemma {:induction false} ThinnedRefl(s: seq<Node>)
    ensures Thinned(s, s)
    decreases |s|
  {
    if s != [] {
      ThinnedRefl(s[1..]);
    }
  }

  /** A common prefix can be put in front of both sides. */
  lemma {:induction false} ThinnedPrefix(p: seq<Node>, u: seq<Node>, v: seq<Node>)
    requires Thinned(u, v)
    ensures Thinned(p + u, p + v)
    decreases |p|
  {
    if p != [] {
      assert (p + v)[0] == p[0] && (p + v)[1..] == p[1..] + v;
      assert (p + u)[0] == p[0] && (p + u)[1..] == p[1..] + u;
      ThinnedPrefix(p[1..], u, v);
      assert Shallow(p[0], p[0]);
      assert Thinned((p + u)[1..], (p + v)[1..]);
    } else {
      assert p + u == u && p + v == v;
    }
  }

  /** One consumed marker: the slot before it is rewritten shallowly, the marker leaves. */
  lemma ThinnedStep(kids: seq<Node>, i: nat, prev': Node)
    requires 0 < i < |kids| && IsMarker(kids[i]) && Shallow(prev', kids[i - 1])
    ensures Thinned(Remove(kids[i - 1 := prev'], i), kids)
  {
    var head, tail := kids[..i - 1], kids[i + 1..];
    ThinnedPair(prev', kids[i - 1], kids[i], tail);
    ThinnedPrefix(head, [prev'] + tail, [kids[i - 1], kids[i]] + tail);
    SplitPair(kids, i);
    RemoveAfterUpdate(kids, i, prev');
  }

  lemma ThinnedPair(prev': Node, prev: Node, marker: Node, tail: seq<Node>)
    requires IsMarker(marker) && Shallow(prev', prev)
    ensures Thinned([prev'] + tail, [prev, marker] + tail)
  {
    ThinnedRefl(tail);
    var inp := [marker] + tail;
    assert inp[0] == marker && inp[1..] == tail;
    assert Thinned(tail, inp);
    assert ([prev, marker] + tail)[1..] == inp;
    assert ([prev'] + tail)[1..] == tail;
  }

  lemma {:induction false} ThinnedTrans(a: seq<Node>, b: seq<Node>, c: seq<Node>)
    requires Thinned(a, b) && Thinned(b, c)
    ensures Thinned(a, c)
    decreases |c|
  {
    if c != [] {
      if IsMarker(c[0]) && Thinned(b, c[1..]) {
        ThinnedTrans(a, b, c[1..]);
      } else {
        assert b != [] && Shallow(b[0], c[0]) && Thinned(b[1..], c[1..]);
        if IsMarker(b[0]) && Thinned(a, b[1..]) {
          ThinnedTrans(a, b[1..], c[1..]);
        } else {
          ThinnedTrans(a[1..], b[1..], c[1..]);
        }
      }
    }
  }

  /** Thinning a child list never makes a node taller. */
  lemma {:induction false} ThinnedHeight(a: seq<Node>, b: seq<Node>)
    requires Thinned(a, b)
    ensures HeightOf(a) <= HeightOf(b)
    decreases |b|
  {
    if b != [] {
      if IsMarker(b[0]) && Thinned(a, b[1..]) {
        ThinnedHeight(a, b[1..]);
      } else {
        ThinnedHeight(a[1..], b[1..]);
      }
    }
  }

  /** Removing one node from a list never makes it taller. */
  lemma RemoveHeight(s: seq<Node>, i: nat)
    requires i < |s|
    ensures HeightOf(Remove(s, i)) <= HeightOf(s)
  {
    var r := Remove(s, i);
    forall k | 0 <= k < |r| ensures Height(r[k]) < HeightOf(s) {
      if k >= i { assert r[k] == s[k + 1]; }
    }
    HeightOfBound(r, HeightOf(s));
  }

  /** With no candidate past the first slot, the scan changes nothing. */
  lemma {:induction false} ScanQuiet(s: Scan, i: nat)
    requires forall k :: i <= k < |s.node.children| && 0 < k ==> !IsMarker(s.node.children[k])
    ensures ScanFrom(s, i) == s
    decreases |s.node.children| - i
  {
    if i < |s.node.children| {
      ScanQuiet(Step(s, i), i + 1);
    }
  }

  // ---------------------------------------------------------------------------------------------
  // The visitor and the walk

  /** What the visitor leaves behind: the visited node and its parent, or only the parent when
      the visited row was spliced out of it. */
  datatype Visited = Kept(node: Node, parent: Node) | Dropped(parent: Node)

  /** The visitor body for child `i` of `p`, cases in the source's order. */
  function Visit(c: Node, p: Node, i: nat): (v: Visited)
    requires i < |p.children| && p.children[i] == c
    ensures v.Dropped? <==> c.kind == TableRow && AnnotationRow(c)
    ensures v.Kept? ==> Height(v.node) <= Height(c) && v.parent.(data := p.data) == p
    ensures v.Dropped? ==> v.parent == DropAnnotationRow(p, i) && Height(v.parent) <= Height(p)
  {
    if c.kind == Code && CodeMetaMatches(c.meta) then
      Kept(AnnotateCode(c), p)
    else if c.kind == TableRow then
      if AnnotationRow(c) then
        RemoveHeight(p.children, i);
        Dropped(DropAnnotationRow(p, i))
      else
        Kept(c, p)
    else if c.children == [] then
      Kept(c, p)
    else
      var s := ScanFrom(Scan(c, Some(p)), 0);
      ScanThins(Scan(c, Some(p)), 0);
      ThinnedHeight(s.node.children, c.children);
      Kept(s.node, s.parent.value)
  }

  /** unist-util-visit over the children of `n` from index `i` on: visit the child, then its
      subtree, then the next index of the live list. After the visitor splices a row out, the
      walk moves on to the next index, so the row that slid into the freed slot is skipped; the
      removed row itself is detached and walking it could change nothing in the tree. */
  function WalkChildren(n: Node, i: nat): (r: Node)
    decreases Height(n), |n.children| - i
    ensures Height(r) <= Height(n)
    ensures r.kind == n.kind
  {
    if i >= |n.children| then n
    else
      match Visit(n.children[i], n, i)
      case Dropped(p) =>
        WalkChildren(p, i + 1)
      case Kept(c, p) =>
        assert Height(n.children[i]) < Height(n);
        var c' := WalkChildren(c, 0);
        var p' := p.(children := p.children[i := c']);
        HeightOfBound(p'.children, Height(n));
        WalkChildren(p', i + 1)
  }

  /** The remark pass over a whole document: the root is visited (it has no parent), then its
      subtree. unified always hands the plugin an mdast `root`. */
  function RemarkPass(tree: Node): (r: Node)
    requires tree.kind == Root
    ensures r.kind == Root && Height(r) <= Height(tree)
  {
    var s := ScanFrom(Scan(tree, None), 0);
    ScanThins(Scan(tree, None), 0);
    ThinnedHeight(s.node.children, tree.children);
    WalkChildren(s.node, 0)
  }

  // ---------------------------------------------------------------------------------------------
  // Properties of the whole pass

  /** No case of the visitor applies anywhere in the subtree of `n`. */
  ghost predicate Quiet(n: Node)
    decreases n
  {
    !(n.kind == Code && CodeMetaMatches(n.meta)) &&
    (n.kind == TableRow ==> !AnnotationRow(n)) &&
    (n.kind != TableRow ==> forall k :: 1 <= k < |n.children| ==> !IsMarker(n.children[k])) &&
    forall k :: 0 <= k < |n.children| ==> Quiet(n.children[k])
  }

  lemma {:induction false} WalkQuiet(n: Node, i: nat)
    requires forall k :: i <= k < |n.children| ==> Quiet(n.children[k])
    ensures WalkChildren(n, i) == n
    decreases Height(n), |n.children| - i
  {
    if i < |n.children| {
      var c := n.children[i];
      if !(c.kind == Code && CodeMetaMatches(c.meta)) && c.kind != TableRow && c.children != [] {
        ScanQuiet(Scan(c, Some(n)), 0);
      }
      assert Visit(c, n, i) == Kept(c, n);
      assert Height(c) < Height(n);
      WalkQuiet(c, 0);
      assert n.(children := n.children[i := c]) == n;
      WalkQuiet(n, i + 1);
    }
  }

  /** A document in which no code meta, no table row and no marker calls for an annotation
      comes out of the pass exactly as it went in. */
  lemma RemarkQuiet(tree: Node)
    requires tree.kind == Root && Quiet(tree)
    ensures RemarkPass(tree) == tree
  {
    ScanQuiet(Scan(tree, None), 0);
    WalkQuiet(tree, 0);
  }
}

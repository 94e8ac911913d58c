/** The Markdown syntax tree (mdast, with the MDX text-expression node) as the remark pass sees it,
    and the one place where the pass writes an annotation (`setAnnotation`, index.js:7-11). */
module Mdast {
  import opened Wrappers
  import opened Keys

  /** The node `type` tags the pass tests for; every other tag is `Other`. */
  datatype Kind =
    | Root | Paragraph | Text | ListItem | Code
    | Table | TableRow | TableCell | TextExpression
    | Other(tag: string)

  /** A node's `data` bag: `hProperties` (absent until someone creates it) is what the
      Markdown-to-HTML lowering copies onto the element; `fields` stands for the bag's other keys. */
  datatype Data = Data(hProperties: Option<map<string, string>>, fields: map<string, string>)

  /** One mdast node. `value` is the literal text of text and expression nodes, `meta` the code
      block's meta string (`null` is `None`), `data` the optional data bag, `children` the ordered
      children (empty for leaves). */
  datatype Node = Node(kind: Kind, value: string, meta: Option<string>, data: Option<Data>, children: seq<Node>)

  /** The `hProperties` map of a node, empty when `data` or `hProperties` is absent. */
  function HProperties(n: Node): map<string, string> {
    if n.data.Some? && n.data.value.hProperties.Some? then n.data.value.hProperties.value else map[]
  }

  /** The annotation a node carries, if any. */
  function AnnotationOf(n: Node): (a: Option<string>)
    ensures a.Some? <==> AnnotationKey in HProperties(n)
    ensures a.Some? ==> a.value == HProperties(n)[AnnotationKey]
  {
    if AnnotationKey in HProperties(n) then Some(HProperties(n)[AnnotationKey]) else None
  }

  /** `setAnnotation`: create `data` and `data.hProperties` only where they are missing, then
      write the one key. Every other key of the bag and of `hProperties`, and every other field
      of the node, is left as it was. */
  function SetAnnotation(n: Node, annotation: string): (r: Node)
    ensures r.data.Some? && r.data.value.hProperties.Some?
    ensures AnnotationOf(r) == Some(annotation)
    ensures forall k :: k != AnnotationKey ==>
      (k in HProperties(r) <==> k in HProperties(n)) && (k in HProperties(n) ==> HProperties(r)[k] == HProperties(n)[k])
    ensures r.data.value.fields == if n.data.Some? then n.data.value.fields else map[]
    ensures r.(data := n.data) == n
  {
    var data := if n.data.Some? then n.data.value else Data(None, map[]);
    var props := if data.hProperties.Some? then data.hProperties.value else map[];
    n.(data := Some(data.(hProperties := Some(props[AnnotationKey := annotation]))))
  }

  /** A later write replaces an earlier one: the node ends as if only the later write happened. */
  lemma SetAnnotationOverwrites(n: Node, a: string, b: string)
    ensures SetAnnotation(SetAnnotation(n, a), b) == SetAnnotation(n, b)
  {
    var props := HProperties(n);
    assert props[AnnotationKey := a][AnnotationKey := b] == props[AnnotationKey := b];
  }

  /** Writing the annotation a node already carries changes nothing once the bag exists. */
  lemma SetAnnotationIdempotent(n: Node, a: string)
    ensures SetAnnotation(SetAnnotation(n, a), a) == SetAnnotation(n, a)
  {
    SetAnnotationOverwrites(n, a, a);
  }

  /** Number of levels below a node: 0 for a leaf. Only `children` matters, so rewriting a
      node's own fields never changes it. */
  ghost function Height(n: Node): nat
    decreases n
  {
    HeightOf(n.children)
  }

  /** One more than the tallest node of `s`; 0 for no nodes. */
  ghost function HeightOf(s: seq<Node>): (h: nat)
    decreases s
    ensures forall k :: 0 <= k < |s| ==> Height(s[k]) < h
  {
    if s == [] then 0
    else
      var rest := HeightOf(s[1..]);
      assert forall k :: 1 <= k < |s| ==> s[k] == s[1..][k - 1];
      if 1 + Height(s[0]) < rest then rest else 1 + Height(s[0])
  }

  /** A list whose nodes are all lower than `h` has height at most `h`. */
  lemma {:induction false} HeightOfBound(s: seq<Node>, h: nat)
    requires forall k :: 0 <= k < |s| ==> Height(s[k]) < h
    ensures HeightOf(s) <= h
  {
    if s != [] {
      assert forall k :: 0 <= k < |s| - 1 ==> s[1..][k] == s[k + 1];
      HeightOfBound(s[1..], h);
    }
  }
}

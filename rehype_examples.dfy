/** The rehype pass on the two shapes of `code` element the repository's tests compile. */
module RehypeExamples {
  import opened Keys
  import opened Rehype

  const Payload: string := "{ foo: 'bar' }"

  function Text(): HNode {
    Other("text", [])
  }

  /** A fenced block: the annotation leaves the `code` element and lands on the enclosing `pre`
      element (test.js:25, 86-93). */
  lemma FencedCodeExample()
    ensures
      var code := Element("code", map[AnnotationKey := Payload], [Text()]);
      RehypePass(Root([Element("pre", map[], [code])])) ==
        Root([Element("pre", map[AnnotationKey := Payload], [Element("code", map[], [Text()])])])
  {
    var code := Element("code", map[AnnotationKey := Payload], [Text()]);
    var pre := Element("pre", map[], [code]);
    var root := Root([pre]);
    var pre' := Element("pre", map[AnnotationKey := Payload], [Element("code", map[], [Text()])]);
    assert map[AnnotationKey := Payload] - {AnnotationKey} == map[];
    assert map[][AnnotationKey := Payload] == map[AnnotationKey := Payload];
    var code' := Element("code", map[], [Text()]);
    assert Relocate(code, pre) == (code', Element("pre", map[AnnotationKey := Payload], [code]));
    assert WalkChildren(Text(), 0) == Text();
    assert StepAt(code', 0) == code';
    assert WalkChildren(code', 0) == code';
    assert StepAt(pre, 0) == pre';
    assert WalkChildren(pre, 0) == pre';
    assert StepAt(root, 0) == Root([pre']);
    assert WalkChildren(Root([pre']), 1) == Root([pre']);
    assert WalkChildren(root, 0) == Root([pre']);
  }

  /** Inline code inside a paragraph: the parent is not `pre`, so the annotation stays on the
      `code` element (test.js:34, 152-158). */
  lemma InlineCodeExample()
    ensures
      var code := Element("code", map[AnnotationKey := Payload], [Text()]);
      var tree := Root([Element("p", map[], [Text(), code])]);
      RehypePass(tree) == tree
  {
    var code := Element("code", map[AnnotationKey := Payload], [Text()]);
    var tree := Root([Element("p", map[], [Text(), code])]);
    assert Settled(tree) by {
      assert Settled(code) && Settled(Text());
      assert SettledFrom(Element("p", map[], [Text(), code]), 0);
    }
    WalkSettledUnchanged(tree, 0);
  }
}

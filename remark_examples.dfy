/** The remark pass on the documents the repository's tests compile (test.js:18-41, 240-247),
    and on the shapes where the index bookkeeping skips a sibling. Each document is first
    treated with its texts left open, then instantiated with the tests' texts. */
module RemarkExamples {
  import opened Wrappers
  import opened Strings
  import opened Keys
  import opened Mdast
  import opened Sequences
  import opened Remark

  const Payload: string := "{ foo: 'bar' }"

  function Leaf(kind: Kind, value: string): Node {
    Node(kind, value, None, None, [])
  }

  function Parent(kind: Kind, children: seq<Node>): Node {
    Node(kind, "", None, None, children)
  }

  /** A node with the annotation `a` in a freshly created data bag. */
  function Annotated(n: Node, a: string): Node {
    n.(data := Some(Data(Some(map[AnnotationKey := a]), map[])))
  }

  /** A table row of one cell holding one text expression. */
  function AnnotationOnlyRow(text: string): Node {
    Parent(TableRow, [Parent(TableCell, [Leaf(TextExpression, text)])])
  }

  /** Annotating a node without a data bag creates the bag with the one key. */
  lemma SetAnnotationFresh(n: Node, a: string)
    requires n.data.None?
    ensures SetAnnotation(n, a) == Annotated(n, a)
  {
    assert map[][AnnotationKey := a] == map[AnnotationKey := a];
  }

  /** The payload of the tests is a marker. */
  lemma PayloadIsMarker()
    ensures IsMarker(Leaf(TextExpression, Payload))
  {
  }

  // ---------------------------------------------------------------------------------------------
  // A marker after text at the end of a block

  /** The text the marker scan leaves in `Hello {{ ... }}`. */
  lemma HelloTrimmed()
    ensures TrimEnd("Hello ") == "Hello"
  {
    TrimEndUnique("Hello ", "Hello", " ");
  }

  /** The step at the marker of `[Text text, marker]` under `parent`: the text is trimmed at its
      end, and the node, or the list item around a sole paragraph, carries the payload. */
  lemma TrailingMarkerStep(kind: Kind, parent: Option<Node>, text: string, p: string)
    requires IsMarker(Leaf(TextExpression, p))
    ensures
      var n := Parent(kind, [Leaf(Text, text), Leaf(TextExpression, p)]);
      var s := Step(Scan(n, parent), 1);
      var n' := Parent(kind, [Leaf(Text, TrimEnd(text))]);
      if PromotesToListItem(n, parent) then
        s.node == n' && s.parent == Some(SetAnnotation(parent.value, p))
      else
        s.node == Annotated(n', p) && s.parent == parent
  {
    var n := Parent(kind, [Leaf(Text, text), Leaf(TextExpression, p)]);
    var s := Step(Scan(n, parent), 1);
    var n' := Parent(kind, [Leaf(Text, TrimEnd(text))]);
    assert s.node.children == n'.children by {
      assert IsMarker(n.children[1]) && n.children[0].kind == Text;
      assert s.node.children[0] == Leaf(Text, TrimEnd(text));
    }
    if !PromotesToListItem(n, parent) {
      SetAnnotationFresh(n', p);
    }
  }

  /** The whole scan of `[Text text, marker]` is its step at the marker. */
  lemma TrailingMarkerScan(kind: Kind, parent: Option<Node>, text: string, p: string)
    requires IsMarker(Leaf(TextExpression, p))
    ensures
      var n := Parent(kind, [Leaf(Text, text), Leaf(TextExpression, p)]);
      ScanFrom(Scan(n, parent), 0) == Step(Scan(n, parent), 1)
  {
    var n := Parent(kind, [Leaf(Text, text), Leaf(TextExpression, p)]);
    var s0 := Scan(n, parent);
    var s1 := Step(s0, 1);
    assert |s1.node.children| == 1 by { TrailingMarkerStep(kind, parent, text, p); }
    assert ScanFrom(s0, 0) == ScanFrom(s0, 1) by { assert Step(s0, 0) == s0; }
    assert ScanFrom(s1, 2) == s1;
  }

  /** The visitor on a heading `text marker` under the root. */
  lemma HeadingVisit(root: Node, text: string, p: string)
    requires IsMarker(Leaf(TextExpression, p))
    requires root == Parent(Root, [Parent(Other("heading"), [Leaf(Text, text), Leaf(TextExpression, p)])])
    ensures Visit(root.children[0], root, 0) == Kept(Annotated(Parent(Other("heading"), [Leaf(Text, TrimEnd(text))]), p), root)
  {
    TrailingMarkerScan(Other("heading"), Some(root), text, p);
    TrailingMarkerStep(Other("heading"), Some(root), text, p);
  }

  /** A heading `text marker` as the only block of a document. */
  lemma HeadingDocument(text: string, p: string)
    requires IsMarker(Leaf(TextExpression, p))
    ensures
      var heading := Parent(Other("heading"), [Leaf(Text, text), Leaf(TextExpression, p)]);
      RemarkPass(Parent(Root, [heading])) ==
        Parent(Root, [Annotated(Parent(Other("heading"), [Leaf(Text, TrimEnd(text))]), p)])
  {
    var heading := Parent(Other("heading"), [Leaf(Text, text), Leaf(TextExpression, p)]);
    var root := Parent(Root, [heading]);
    var done := Annotated(Parent(Other("heading"), [Leaf(Text, TrimEnd(text))]), p);
    assert ScanFrom(Scan(root, None), 0) == Scan(root, None) by { ScanQuiet(Scan(root, None), 0); }
    HeadingVisit(root, text, p);
    assert WalkChildren(done, 0) == done by {
      assert Quiet(done.children[0]);
      WalkQuiet(done, 0);
    }
    var root' := Parent(Root, [done]);
    assert root.(children := root.children[0 := done]) == root';
    assert WalkChildren(root', 1) == root';
  }

  /** `# Hello {{ foo: 'bar' }}`: the heading carries the payload and its text loses the blank
      before the marker (test.js:22, 63-67). */
  lemma HeadingExample()
    ensures
      var heading := Parent(Other("heading"), [Leaf(Text, "Hello "), Leaf(TextExpression, Payload)]);
      RemarkPass(Parent(Root, [heading])) ==
        Parent(Root, [Annotated(Parent(Other("heading"), [Leaf(Text, "Hello")]), Payload)])
  {
    HelloTrimmed();
    PayloadIsMarker();
    HeadingDocument("Hello ", Payload);
  }

  /** `- Hello {{ foo: 'bar' }}`: the paragraph is the list item's only child, so the list item
      carries the payload, not the paragraph (test.js:23, 68-75). */
  lemma ListItemExample()
    ensures
      var para := Parent(Paragraph, [Leaf(Text, "Hello "), Leaf(TextExpression, Payload)]);
      var item := Parent(ListItem, [para]);
      var s := ScanFrom(Scan(para, Some(item)), 0);
      s.node == Parent(Paragraph, [Leaf(Text, "Hello")]) && s.parent == Some(Annotated(item, Payload))
  {
    var para := Parent(Paragraph, [Leaf(Text, "Hello "), Leaf(TextExpression, Payload)]);
    var item := Parent(ListItem, [para]);
    HelloTrimmed();
    PayloadIsMarker();
    TrailingMarkerScan(Paragraph, Some(item), "Hello ", Payload);
    TrailingMarkerStep(Paragraph, Some(item), "Hello ", Payload);
    SetAnnotationFresh(item, Payload);
  }

  /** `- Hello {{ foo: 'bar' }}` followed by a second paragraph: the list item has two children,
      so the paragraph itself carries the payload (test.js:24, 76-84). */
  lemma LooseListItemExample()
    ensures
      var para := Parent(Paragraph, [Leaf(Text, "Hello "), Leaf(TextExpression, Payload)]);
      var item := Parent(ListItem, [para, Parent(Paragraph, [Leaf(Text, "World")])]);
      var s := ScanFrom(Scan(para, Some(item)), 0);
      s.node == Annotated(Parent(Paragraph, [Leaf(Text, "Hello")]), Payload) && s.parent == Some(item)
  {
    var para := Parent(Paragraph, [Leaf(Text, "Hello "), Leaf(TextExpression, Payload)]);
    var item := Parent(ListItem, [para, Parent(Paragraph, [Leaf(Text, "World")])]);
    HelloTrimmed();
    PayloadIsMarker();
    TrailingMarkerScan(Paragraph, Some(item), "Hello ", Payload);
    TrailingMarkerStep(Paragraph, Some(item), "Hello ", Payload);
  }

  // ---------------------------------------------------------------------------------------------
  // A marker after an inline node

  /** `text inline marker`: the marker annotates the inline node, and the text keeps its white
      space. */
  lemma InlineMarker(text: string, inline: Node, p: string)
    requires inline.kind != Text && !IsMarker(inline) && inline.data.None?
    requires IsMarker(Leaf(TextExpression, p))
    ensures
      var para := Parent(Paragraph, [Leaf(Text, text), inline, Leaf(TextExpression, p)]);
      ScanFrom(Scan(para, None), 0).node == Parent(Paragraph, [Leaf(Text, text), Annotated(inline, p)])
  {
    var para := Parent(Paragraph, [Leaf(Text, text), inline, Leaf(TextExpression, p)]);
    var s0 := Scan(para, None);
    var s3 := Step(s0, 2);
    assert ScanFrom(s0, 0) == ScanFrom(s0, 1) by { assert Step(s0, 0) == s0; }
    assert ScanFrom(s0, 1) == ScanFrom(s0, 2) by { assert Step(s0, 1) == s0; }
    assert |s3.node.children| == 2;
    assert ScanFrom(s3, 3) == s3;
    assert s3.node == Parent(Paragraph, [Leaf(Text, text), Annotated(inline, p)]) by {
      assert IsMarker(para.children[2]);
      SetAnnotationFresh(inline, p);
      assert s3.node.children[..1] == [Leaf(Text, text)];
      assert s3.node.children[1] == Annotated(inline, p);
      assert s3.node.children == s3.node.children[..1] + [s3.node.children[1]];
    }
  }

  /** `Hello **world**{{ foo: 'bar' }}`: the marker follows an inline node, which carries the
      payload; the text before it keeps its blank (test.js:32, 138-144). */
  lemma InlineExample()
    ensures
      var strong := Parent(Other("strong"), [Leaf(Text, "world")]);
      var para := Parent(Paragraph, [Leaf(Text, "Hello "), strong, Leaf(TextExpression, Payload)]);
      ScanFrom(Scan(para, None), 0).node == Parent(Paragraph, [Leaf(Text, "Hello "), Annotated(strong, Payload)])
  {
    PayloadIsMarker();
    InlineMarker("Hello ", Parent(Other("strong"), [Leaf(Text, "world")]), Payload);
  }

  /** Two markers in a row after an inline node: the first annotates the node and is spliced out,
      the second slides into its slot, which the loop has already passed, and stays in the text,
      whatever it is. */
  lemma SkippedMarker(inline: Node, p: string, next: Node)
    requires inline.data.None? && IsMarker(Leaf(TextExpression, p))
    ensures
      var para := Parent(Paragraph, [inline, Leaf(TextExpression, p), next]);
      ScanFrom(Scan(para, None), 0).node == Parent(Paragraph, [Annotated(inline, p), next])
  {
    var para := Parent(Paragraph, [inline, Leaf(TextExpression, p), next]);
    var s0 := Scan(para, None);
    var s2 := Step(s0, 1);
    assert ScanFrom(s0, 0) == s2 by {
      assert Step(s0, 0) == s0;
      assert |s2.node.children| == 2;
      assert ScanFrom(s2, 2) == s2;
    }
    assert s2.node == Parent(Paragraph, [Annotated(inline, p), next]) by {
      assert IsMarker(para.children[1]);
      SetAnnotationFresh(inline, p);
      assert s2.node.children[0] == Annotated(inline, p);
      assert s2.node.children[1..] == [next];
    }
  }

  lemma SkippedMarkerExample()
    ensures
      var strong := Parent(Other("strong"), [Leaf(Text, "world")]);
      var second := Leaf(TextExpression, "{ b: 2 }");
      var para := Parent(Paragraph, [strong, Leaf(TextExpression, Payload), second]);
      ScanFrom(Scan(para, None), 0).node == Parent(Paragraph, [Annotated(strong, Payload), second])
  {
    PayloadIsMarker();
    SkippedMarker(Parent(Other("strong"), [Leaf(Text, "world")]), Payload, Leaf(TextExpression, "{ b: 2 }"));
  }

  /** A marker with no predecessor is left where it is. */
  lemma OrphanMarkerExample(tail: string)
    ensures
      var para := Parent(Paragraph, [Leaf(TextExpression, Payload), Leaf(Text, tail)]);
      ScanFrom(Scan(para, None), 0) == Scan(para, None)
  {
    var para := Parent(Paragraph, [Leaf(TextExpression, Payload), Leaf(Text, tail)]);
    var s0 := Scan(para, None);
    assert Step(s0, 0) == s0 && Step(s0, 1) == s0;
    assert ScanFrom(s0, 2) == s0;
    assert ScanFrom(s0, 1) == s0;
  }

  // ---------------------------------------------------------------------------------------------
  // Annotation rows

  /** A table whose last row holds one cell with one expression: the table carries the
      expression's text and keeps its other row. */
  lemma KeptRow(row: Node, last: Node)
    requires row.kind == TableRow && !AnnotationRow(row) && Quiet(row)
    ensures WalkChildren(Parent(Table, [row, last]), 0) == WalkChildren(Parent(Table, [row, last]), 1)
  {
    var table := Parent(Table, [row, last]);
    assert Visit(row, table, 0) == Kept(row, table);
    assert WalkChildren(row, 0) == row by { WalkQuiet(row, 0); }
    assert table.(children := table.children[0 := row]) == table;
  }

  lemma DroppedLastRow(row: Node, a: string)
    ensures WalkChildren(Parent(Table, [row, AnnotationOnlyRow(a)]), 1) == Annotated(Parent(Table, [row]), a)
  {
    var marker := AnnotationOnlyRow(a);
    var table := Parent(Table, [row, marker]);
    assert AnnotationRow(marker);
    var done := DropAnnotationRow(table, 1);
    assert WalkChildren(table, 1) == WalkChildren(done, 2) by {
      assert Visit(marker, table, 1) == Dropped(done);
    }
    assert |done.children| == 1;
    assert done == Annotated(Parent(Table, [row]), a) by {
      SetAnnotationFresh(table, a);
      assert Remove(table.children, 1) == [row];
    }
  }

  lemma TrailingRow(row: Node, a: string)
    requires row.kind == TableRow && !AnnotationRow(row) && Quiet(row)
    ensures WalkChildren(Parent(Table, [row, AnnotationOnlyRow(a)]), 0) == Annotated(Parent(Table, [row]), a)
  {
    KeptRow(row, AnnotationOnlyRow(a));
    DroppedLastRow(row, a);
  }

  /** `| baz | bim |` followed by `| {{ foo: "bar" }} |` (test.js:245, 276-296). */
  lemma TableRowExample()
    ensures
      var row := Parent(TableRow, [TextCell("baz"), TextCell("bim")]);
      WalkChildren(Parent(Table, [row, AnnotationOnlyRow("{ foo: \"bar\" }")]), 0) ==
        Annotated(Parent(Table, [row]), "{ foo: \"bar\" }")
  {
    var row := Parent(TableRow, [TextCell("baz"), TextCell("bim")]);
    TextCellQuiet("baz");
    TextCellQuiet("bim");
    assert Quiet(row);
    TrailingRow(row, "{ foo: \"bar\" }");
  }

  /** A table cell holding one text run. */
  function TextCell(text: string): Node {
    Parent(TableCell, [Leaf(Text, text)])
  }

  lemma TextCellQuiet(text: string)
    ensures Quiet(TextCell(text))
  {
    assert Quiet(TextCell(text).children[0]);
  }

  /** After an annotation row is spliced out, the node that slides into its slot is never
      visited: whatever it is, it stays as it is. */
  lemma SkippedRow(a: string, next: Node)
    ensures WalkChildren(Parent(Table, [AnnotationOnlyRow(a), next]), 0) == Annotated(Parent(Table, [next]), a)
  {
    var first := AnnotationOnlyRow(a);
    var table := Parent(Table, [first, next]);
    assert AnnotationRow(first);
    var done := DropAnnotationRow(table, 0);
    assert WalkChildren(table, 0) == WalkChildren(done, 1) by {
      assert Visit(first, table, 0) == Dropped(done);
    }
    assert |done.children| == 1;
    assert done == Annotated(Parent(Table, [next]), a) by {
      SetAnnotationFresh(table, a);
      assert Remove(table.children, 0) == [next];
    }
  }

  /** Two annotation rows in a row: the second is never visited and stays in the table. */
  lemma SkippedRowExample()
    ensures
      WalkChildren(Parent(Table, [AnnotationOnlyRow("{ a: 1 }"), AnnotationOnlyRow("{ b: 2 }")]), 0) ==
        Annotated(Parent(Table, [AnnotationOnlyRow("{ b: 2 }")]), "{ a: 1 }")
  {
    SkippedRow("{ a: 1 }", AnnotationOnlyRow("{ b: 2 }"));
  }

  // ---------------------------------------------------------------------------------------------
  // Code blocks

  /** A code block whose meta is `{{` x `}}`: the annotation is `{` x `}` and the meta is
      cleared. */
  lemma CodeMeta(code: string, x: string)
    requires NoLineTerminator(x)
    ensures
      var n := Node(Code, code, Some(Braced(Braced(x))), None, []);
      AnnotateCode(n) == Annotated(n.(meta := None), Braced(x))
  {
    var n := Node(Code, code, Some(Braced(Braced(x))), None, []);
    assert MetaShape(Braced(Braced(x)), "", x, "") by {
      assert "" + Braced(x) + "" == Braced(x);
    }
    var r := AnnotateCode(n);
    assert AnnotationOf(r) == Some("" + Braced(x) + "");
    assert "" + Braced(x) + "" == Braced(x);
    SetAnnotationFresh(n.(meta := None), Braced(x));
  }

  /** The inside of the payload has no line break. */
  lemma PayloadInside()
    ensures Braced(" foo: 'bar' ") == Payload && NoLineTerminator(" foo: 'bar' ")
  {
  }

  /** A code block whose meta is `{{ foo: 'bar' }}`: the payload is the meta without its outer
      braces and the meta is cleared (test.js:28-31, 110-137). */
  lemma CodeMetaExample()
    ensures
      var code := Node(Code, "Hello world", Some("{" + Payload + "}"), None, []);
      AnnotateCode(code) == Annotated(code.(meta := None), Payload)
  {
    PayloadInside();
    CodeMeta("Hello world", " foo: 'bar' ");
  }
}

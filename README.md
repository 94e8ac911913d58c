# mdx-annotations in Dafny

mdx-annotations lets an MDX author attach an expression such as `{{ foo: 'bar' }}` to a block
or an inline element. The expression ends up as extra props on the rendered element. The plugin
does this in three passes over the three trees the MDX compiler builds:

- **remark** (Markdown tree, mdast). It finds annotation markers and stores the marker's raw
  text under the `annotation` key of the target node's `data.hProperties`. It then removes the
  marker. There are three kinds of marker:
  - a code block's meta of the shape `{{ … }}`;
  - a table row (in practice the last one) that holds one cell with one text expression;
  - a brace-wrapped text expression after another inline node.
- **rehype** (HTML tree, hast). It moves the annotation of a `code` element onto its `pre`
  parent.
- **recma** (the generated program, estree). In every `_jsx` / `_jsxs` / `_jsxDEV` call whose
  second argument is an object literal:
  - the first `annotation` entry is replaced by a spread of the parsed annotation text;
  - the spread is appended last, so the annotation's fields override the generated ones.

Modules:

| module | file | contents |
|---|---|---|
| `Keys` | keys.dfy | the `annotation` key |
| `Wrappers` | wrappers.dfy | `Option` |
| `Sequences` | sequences.dfy | `Remove`, which is `splice(i, 1)` |
| `Strings` | strings.dfy | ECMAScript white space, `trimEnd` and `trim` |
| `Mdast` | mdast.dfy | mdast nodes and `setAnnotation` |
| `Remark` | remark.dfy | the remark visitor, its marker-scan loop and the walk |
| `Rehype` | rehype.dfy | the rehype visitor and the walk |
| `Recma` | recma.dfy | the recma visitor, its find/splice/push on the property list, and the walk |

The `*_examples.dfy` files replay the documents and outputs of the repository's tests.

The trees are values. Each in-place mutation of index.js is a record update that returns the
new node, or the new node and its new parent. The marker scan (index.js:38-66) and the
find/splice/push of the recma visitor (index.js:100-107) are methods with loops. Each is proved
equal to a specification function, and the properties are proved about those functions.

## Model

| member | source | states |
|---|---|---|
| Sequences.Remove | index.js:65 | `splice(i, 1)` leaves one element fewer. The elements before `i` stay in place and the ones after it move down by one. The multiset loses exactly `s[i]`. |
| Strings.TrimEnd | index.js:60 | The result is a prefix of the input, what it drops is all white space, and it does not end in white space. |
| Strings.Trim | index.js:103 | The result neither starts nor ends with white space. |
| Strings.TrimSplits | index.js:103 | Every string is leading white space, then its trim, then trailing white space. |
| Strings.TrimEndUnique | index.js:60 | Trailing white space after a non-white end is exactly what `trimEnd` drops. |
| Strings.TrimUnchanged | index.js:103 | A string with non-white ends is its own trim. |
| Mdast.SetAnnotation | index.js:7-11 | Writes the annotation. It creates `data` and `hProperties` only when absent. Every other key and every other node field is unchanged. |
| Mdast.SetAnnotationOverwrites | index.js:7-11 | A later write replaces an earlier one: writing `a` then `b` equals writing `b`. |
| Mdast.SetAnnotationIdempotent | index.js:7-11 | Writing the same annotation twice equals writing it once. |
| Remark.CodeMetaMatches | index.js:17 | The meta test: a null meta never matches. |
| Remark.MetaMatchesPattern | index.js:17 | The regex-free test accepts a meta iff it has the shape `{` w1 `{` x `}` w2 `}`, where w1 and w2 are white space and x has no line terminator. This is `/^{\s*{.*?}\s*}$/`. |
| Remark.MetaMatchesSound | index.js:17 | Every meta the test accepts splits into the pattern's parts. |
| Remark.MetaMatchesComplete | index.js:17 | Every meta of the pattern's shape is accepted, and its middle is w1 `{`x`}` w2. |
| Remark.AnnotateCode | index.js:17-21 | A matching meta becomes the annotation without its outer braces (w1 `{`x`}` w2), written as `setAnnotation` writes it, and the meta is cleared. Any other code node, including one with a null meta, is unchanged. |
| Remark.AnnotationRow | index.js:24-29 | A row with exactly one cell that holds exactly one text expression; the text is not tested. |
| Remark.DropAnnotationRow | index.js:23-32 | The table's data is what `setAnnotation` makes of it with the expression's text. The table has exactly one row fewer, and the rows before and after keep their order. Nothing else changes. |
| Remark.IsMarker | index.js:40-43 | A text expression whose text starts with `{` and ends with `}`. |
| Remark.PromotesToListItem | index.js:52-56 | A paragraph that is the only child of a list item. |
| Remark.Step | index.js:38-66 | One loop iteration. With no predecessor or no candidate, nothing changes. A candidate is removed and the other children keep their order. A trailing candidate after text trims the text and applies `setAnnotation` to the node, or to the list item around a sole paragraph. Any other candidate applies `setAnnotation` to its predecessor. |
| Remark.ScanFrom | index.js:38-66 | The loop from index `i` on. The node changes only in its data and children, and the parent only in its data. |
| Remark.StepThins | index.js:38-66 | One iteration removes at most the marker it consumes and rewrites the node before it at most shallowly. |
| Remark.ScanThins | index.js:38-66 | The output children of the loop are the input children with some markers removed and the rest rewritten at most shallowly. |
| Remark.ScanMarkers | index.js:38-66 | The `for` loop with its splice equals `ScanFrom` from index 0, and removes nothing but markers. |
| Remark.ThinnedTrans | index.js:65 | Removing markers over successive iterations composes. |
| Remark.ScanQuiet | index.js:38-48 | With no candidate after index 0, the loop changes nothing. A candidate at index 0 stays. |
| Remark.Visit | index.js:16-66 | The visitor's cases in source order. A row is removed exactly when it is a table row with one cell holding one text expression. A kept node never grows taller, and its parent only changes its data. |
| Remark.WalkChildren | index.js:16 | The preorder walk keeps each node's kind and never makes a subtree taller. |
| Remark.RemarkPass | index.js:14-69 | The whole pass turns a root into a root and never makes the tree taller. |
| Remark.WalkQuiet | index.js:16-66 | A subtree where no case of the visitor applies is walked without change. |
| Remark.RemarkQuiet | index.js:14-69 | A document with no matching code meta, no annotation row and no candidate after a first child comes out unchanged. |
| RemarkExamples.TrailingMarkerStep | index.js:50-62 | At a marker that ends a node after text, the text is `trimEnd`-ed and the node carries the marker's text. Under a list item whose sole child is the paragraph, the list item carries it instead. |
| RemarkExamples.TrailingMarkerScan | index.js:38-66 | The scan of `[text, marker]` is its one step at the marker. |
| RemarkExamples.HeadingDocument | index.js:14-69 | A document that is one heading `text marker` becomes that heading with its text trimmed at the end and carrying the marker's text. |
| RemarkExamples.HeadingExample | test.js:63-67 | `# Hello {{ foo: 'bar' }}` gives a heading annotated with `{ foo: 'bar' }` whose text is `Hello`. |
| RemarkExamples.ListItemExample | test.js:68-75 | A list item's sole paragraph passes the annotation to the list item. |
| RemarkExamples.LooseListItemExample | test.js:76-84 | A paragraph that is one of several list-item children keeps the annotation itself. |
| RemarkExamples.InlineMarker | index.js:50-64 | A marker after an inline node annotates that node, and the text before it is not trimmed. |
| RemarkExamples.InlineExample | test.js:138-144 | A marker after `**world**` annotates the strong node, and the text before it keeps its blank. |
| RemarkExamples.SkippedMarker | index.js:38-65 | Of two markers in a row, the second is never examined, whatever it is. |
| RemarkExamples.SkippedMarkerExample | index.js:38-65 | Of two markers in a row, the second slides into the freed slot, is not examined, and stays. |
| RemarkExamples.OrphanMarkerExample | index.js:46-48 | A marker with no predecessor stays where it is. |
| RemarkExamples.TrailingRow | index.js:23-32 | A table whose last row is one cell with one expression loses that row and carries the expression's text. Its other row is kept as it is. |
| RemarkExamples.TableRowExample | test.js:276-296 | A trailing annotation row is removed and the table carries its text. |
| RemarkExamples.SkippedRow | index.js:30-31 | After an annotation row is removed, the node that slid into its slot is not visited, whatever it is. |
| RemarkExamples.SkippedRowExample | index.js:30-31 | Of two annotation rows in a row, the second slides into the freed slot and is not visited. |
| RemarkExamples.CodeMeta | index.js:17-21 | A code meta `{{` x `}}` gives the annotation `{` x `}` and a cleared meta. |
| RemarkExamples.CodeMetaExample | test.js:110-137 | The meta `{{ foo: 'bar' }}` yields `{ foo: 'bar' }` and a cleared meta. |
| Rehype.Stranded | index.js:74-79 | A `code` element with an annotation whose parent is a `pre` element. |
| Rehype.Relocate | index.js:74-82 | For an annotated `code` element under `pre`, the parent takes the annotation and the code element loses it. Every other case changes nothing. |
| Rehype.StepAt | index.js:73-83 | One step of the walk. It keeps the parent's header and length and the children other than the visited one. Only a `pre` parent can change anything besides its children. |
| Rehype.WalkChildren | index.js:73 | The walk keeps each node's tag and number of children and never makes a subtree taller. |
| Rehype.WalkKeepsPrefix | index.js:73 | Children the walk has passed are not touched again. |
| Rehype.WalkKeepsHeader | index.js:80-81 | The walked node's own header changes only if it is a `pre` element. Any other walked node changes only in its children. |
| Rehype.RehypePass | index.js:71-85 | The pass turns a root into a root with as many children. |
| Rehype.WalkSettles | index.js:73-83 | After the walk, no child it passed is an annotated `code` element under `pre`, at any depth. |
| Rehype.StepSettles | index.js:73-83 | The child a step has visited and walked is settled and no longer stranded under its parent. |
| Rehype.RehypeSettles | index.js:71-85 | After the pass, no `code` element directly under a `pre` element keeps an annotation. |
| Rehype.WalkSettledUnchanged | index.js:73-83 | On a settled tree the walk changes nothing. |
| Rehype.RehypeIdempotent | index.js:71-85 | Running the pass twice equals running it once. |
| RehypeExamples.FencedCodeExample | test.js:86-93 | For a fenced block, the annotation moves from `code` to `pre`. |
| RehypeExamples.InlineCodeExample | test.js:152-158 | Inline code under `p` keeps its annotation. |
| Recma.IsConstruction | index.js:90-95 | The callee is one of the identifiers `_jsx`, `_jsxs`, `_jsxDEV`. |
| Recma.Rewritable | index.js:89-98 | A construction call whose second argument is an object literal. |
| Recma.IsAnnotationEntry | index.js:100 | An entry whose key is the identifier `annotation`. |
| Recma.ParserInput | index.js:103 | The annotation text trimmed and wrapped in parentheses. |
| Recma.FindAsWritten | index.js:100 | `find` as written. It throws iff a spread entry comes before the first annotation entry. Otherwise it returns the first annotation entry. |
| Recma.FirstAnnotation | index.js:100 | `find` with a spread never matching. It returns the least index of an entry keyed `annotation`, or none iff there is no such entry. |
| Recma.Inject | index.js:97-107 | With no annotation entry, the list is unchanged. Otherwise it throws iff the entry's value is not a string or the trimmed, parenthesised text does not parse. On success the list has the same length: the list without the entry, followed by a spread of the parsed expression. |
| Recma.RewriteProps | index.js:100-107 | The find, `indexOf`/`splice` and `push` on the property list equal `Inject`. |
| Recma.VisitCall | index.js:89-98 | Only `_jsx`/`_jsxs`/`_jsxDEV` calls whose second argument is an object literal are rewritten, and only in that literal. Every other call is unchanged. |
| Recma.Walk | index.js:88-109 | The walk keeps each node's shape: the same literal or identifier, or the same constructor with as many parts. Its only faults are a non-string annotation value and a parse failure. |
| Recma.WalkAll | index.js:88 | The walk over a list of expressions keeps the length and each element's shape, with the same faults. |
| Recma.WalkProps | index.js:88 | The walk over an object literal's entries keeps the length and which entries are keyed and which are spreads, with the same faults. |
| Recma.WalkProp | index.js:88 | A keyed entry stays keyed and a spread stays a spread, with the same faults. |
| Recma.RecmaPass | index.js:86-110 | The whole pass keeps the program's shape, and fails only on a non-string annotation value or a parse failure. |
| Recma.WalkQuiet | index.js:88 | A tree with no annotation entry is walked without change, whatever the parser. |
| Recma.RecmaQuiet | index.js:86-110 | A program with no annotation entry comes out of the pass unchanged. |
| Recma.CountRemoveAppend | index.js:105-107 | Removing one entry and pushing another moves any count by what each of them contributes. |
| Recma.InjectCounts | index.js:106-107 | A rewrite removes exactly one annotation entry and adds exactly one spread. |
| Recma.InjectOverrides | index.js:106-107 | A field the parsed object literal defines takes its value from it, whatever the generated entries say. Other fields read as in the literal without the annotation entry. A non-literal annotation makes every field unknown. |
| RecmaExamples.HeadingCallExample | test.js:63-67 | `_jsx(_components.h1, {children, annotation})` becomes `_jsx(_components.h1, {children, ...{foo: 'bar'}})`. |
| RecmaExamples.DevelopmentCallExample | test.js:204-219 | The same holds for `_jsxDEV`, and its further arguments are kept. |
| RecmaExamples.ClassNameOverrideExample | index.js:106-107 | An annotation's `className` overrides a generated `className`. |
| RecmaExamples.SpreadEntryFaults | index.js:100 | On `{...props}`, `find` as written throws, while the corrected search finds nothing and leaves the literal alone. |

## Left out

- `acorn.parse` (index.js:103) is a parameter `Parser` from text to expression.
  - `None` stands for a thrown syntax error.
  - Taking `.body[0].expression` is part of that parameter.
- unist-util-visit (index.js:3, 16, 73) and estree-util-visit (index.js:2, 88) are not part of this model. Their traversal is written out as recursion.
  - remark and rehype: the model visits a node, then its subtree, then the next index of the parent's current children list. After a splice, the node that slid into the freed slot is therefore skipped.
  - A removed annotation row is not walked. It is detached, and walking its one cell could change nothing.
- Recma.Walk visits a call after its callee and arguments rather than before. Because of this order:
  - the parsed annotation is not itself walked, so a construction call inside an annotation's text is not rewritten;
  - when two calls would fault, the inner one's fault is reported.
- In-place mutation and aliasing are not modelled.
  - Nodes are values, and a visitor that writes its parent returns the new parent.
  - The trees the compiler builds share no nodes.
- The Markdown-to-HTML and HTML-to-program lowerings between the passes are external and not modelled. These depend on them:
  - the copy of `hProperties` into `properties`;
  - the count of markers against injected spreads across the whole pipeline.
- The MDX compiler and the test harness (test.js:8-16) are not modelled. The tests' documents appear only as example lemmas on hand-built trees.
- Remark.RemarkPass and Rehype.RehypePass require a root node: the unified pipeline only ever hands the plugins a root.
  - When the marker scan runs without a parent (only the root has none), the list-item promotion is taken as not applying.
- Expression kinds other than identifiers, string literals, calls and object literals are one `Other` node with their sub-expressions. This covers numbers, booleans, members and template literals.
  - A computed key `[annotation]` is an identifier key in the model, as in the source's `key.name` test. `Recma.Lookup` reads it as the field's name.
- The other keys of an mdast `data` bag are a `map<string, string>`. Other node fields (positions, `lang`, attributes) are not represented.

## Findings

| source | as written | input that shows it | evidently intended | confidence | as-written member | corrected member |
|---|---|---|---|---|---|---|
| index.js:100 | The `find` callback reads `property.key.name` for every entry up to the annotation entry. A spread entry has no `key`, so the callback throws a TypeError. | `_jsx(MDXLayout, {...props, children: …})`, the layout call in the expected MDX 3 output at test.js:509-513, and `_jsx(Foo, {...props})`, what `<Foo {...props} />` compiles to (`RecmaExamples.SpreadEntryFaults`) | A spread entry never matches, and a literal without an annotation entry is left alone | high; not executed | Recma.FindAsWritten | Recma.FirstAnnotation |

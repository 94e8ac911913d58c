/** The recma pass on the construction calls the repository's tests compile, and on an object
    literal with a spread entry. */
module RecmaExamples {
  import opened Wrappers
  import opened Strings
  import opened Keys
  import opened Sequences
  import opened Recma

  const Payload: string := "{ foo: 'bar' }"

  /** The expression `{ foo: 'bar' }`. */
  const FooBar: Expr := Obj([Keyed(Id("foo"), Str("bar"))])

  /** A parser that knows one program: the parenthesised payload. */
  function ParsePayload(s: string): Option<Expr> {
    if s == "(" + Payload + ")" then Some(FooBar) else None
  }

  /** `_components.h1` */
  const Heading: Expr := Other("MemberExpression", [Id("_components"), Id("h1")])

  lemma PayloadInput()
    ensures ParserInput(Payload) == "(" + Payload + ")"
  {
    TrimUnchanged(Payload);
  }

  /** Arguments that the walk leaves alone one by one, it leaves alone together. */
  lemma {:induction false} WalkAllFixed(es: seq<Expr>, parse: Parser)
    requires forall k :: 0 <= k < |es| ==> Walk(es[k], parse) == Ok(es[k])
    ensures WalkAll(es, parse) == Ok(es)
  {
    if es != [] {
      assert forall k :: 0 <= k < |es[1..]| ==> es[1..][k] == es[k + 1];
      WalkAllFixed(es[1..], parse);
      assert [es[0]] + es[1..] == es;
    }
  }

  /** The generated `{children: "Hello", annotation: "{ foo: 'bar' }"}`, which has nothing to
      rewrite below it. */
  lemma WalkHeadingProps(parse: Parser)
    ensures
      var props := Obj([Keyed(Id("children"), Str("Hello")), Keyed(Id(AnnotationKey), Str(Payload))]);
      Walk(props, parse) == Ok(props) && Walk(Heading, parse) == Ok(Heading)
  {
    var props := Obj([Keyed(Id("children"), Str("Hello")), Keyed(Id(AnnotationKey), Str(Payload))]);
    WalkPropsQuiet(props.props, parse);
    WalkQuiet(Heading, parse);
  }

  /** The heading's property list after the rewrite. */
  lemma InjectHeading()
    ensures
      Inject([Keyed(Id("children"), Str("Hello")), Keyed(Id(AnnotationKey), Str(Payload))], ParsePayload) ==
        Ok([Keyed(Id("children"), Str("Hello")), Spread(FooBar)])
  {
    var ps := [Keyed(Id("children"), Str("Hello")), Keyed(Id(AnnotationKey), Str(Payload))];
    PayloadInput();
    assert ParsePayload(ParserInput(Payload)) == Some(FooBar);
    assert FirstAnnotation(ps, 0) == Some(1);
    assert ps[1].value == Str(Payload);
    assert Remove(ps, 1) == [ps[0]];
    var r := Inject(ps, ParsePayload);
    assert r.Ok?;
    assert r.value == r.value[..1] + [r.value[1]];
    assert r.value[1] == Spread(FooBar);
    assert r.value[..1] == [ps[0]];
    assert |r.value| == 2;
    assert r.value == [ps[0]] + [Spread(FooBar)];
    assert [ps[0]] + [Spread(FooBar)] == [ps[0], Spread(FooBar)];
  }

  /** A call whose callee and arguments the walk leaves alone is handed to the visitor as it
      is. */
  lemma WalkCall(callee: Expr, args: seq<Expr>, parse: Parser)
    requires Walk(callee, parse) == Ok(callee) && WalkAll(args, parse) == Ok(args)
    ensures Walk(Call(callee, args), parse) == VisitCall(callee, args, parse)
  {
  }

  /** Arguments `[first, Obj(ps)] + rest` that the walk leaves alone one by one. */
  lemma WalkArgsFixed(first: Expr, ps: seq<Prop>, rest: seq<Expr>, parse: Parser)
    requires Walk(first, parse) == Ok(first) && Walk(Obj(ps), parse) == Ok(Obj(ps))
    requires forall k :: 0 <= k < |rest| ==> Walk(rest[k], parse) == Ok(rest[k])
    ensures WalkAll([first, Obj(ps)] + rest, parse) == Ok([first, Obj(ps)] + rest)
  {
    WalkAllFixed(rest, parse);
    var tail := [Obj(ps)] + rest;
    assert tail[0] == Obj(ps) && tail[1..] == rest;
    assert WalkAll(tail, parse) == Ok(tail);
    var args := [first] + tail;
    assert args[0] == first && args[1..] == tail;
    assert args == [first, Obj(ps)] + rest;
  }

  /** A construction call whose property list the walk leaves alone and the visitor rewrites,
      with any first argument and any arguments after the list that the walk leaves alone. */
  lemma ConstructionCall(name: string, first: Expr, ps: seq<Prop>, ps': seq<Prop>, rest: seq<Expr>, parse: Parser)
    requires name in ConstructionNames
    requires Walk(first, parse) == Ok(first) && Walk(Obj(ps), parse) == Ok(Obj(ps))
    requires forall k :: 0 <= k < |rest| ==> Walk(rest[k], parse) == Ok(rest[k])
    requires Inject(ps, parse) == Ok(ps')
    ensures RecmaPass(Call(Id(name), [first, Obj(ps)] + rest), parse) == Ok(Call(Id(name), [first, Obj(ps')] + rest))
  {
    var args := [first, Obj(ps)] + rest;
    WalkArgsFixed(first, ps, rest, parse);
    WalkCall(Id(name), args, parse);
    VisitConstruction(name, args, ps, ps', parse);
    ReplaceSecond(first, Obj(ps), Obj(ps'), rest);
  }

  lemma ReplaceSecond<T>(a: T, b: T, b': T, rest: seq<T>)
    ensures ([a, b] + rest)[1 := b'] == [a, b'] + rest
  {
  }

  /** The visitor on a construction call whose second argument is `Obj(ps)`. */
  lemma VisitConstruction(name: string, args: seq<Expr>, ps: seq<Prop>, ps': seq<Prop>, parse: Parser)
    requires name in ConstructionNames && |args| >= 2 && args[1] == Obj(ps)
    requires Inject(ps, parse) == Ok(ps')
    ensures VisitCall(Id(name), args, parse) == Ok(Call(Id(name), args[1 := Obj(ps')]))
  {
    assert Rewritable(Id(name), args);
  }

  lemma HeadingCall(name: string, rest: seq<Expr>)
    requires name in ConstructionNames
    requires forall k :: 0 <= k < |rest| ==> Walk(rest[k], ParsePayload) == Ok(rest[k])
    ensures
      var props := Obj([Keyed(Id("children"), Str("Hello")), Keyed(Id(AnnotationKey), Str(Payload))]);
      var done := Obj([Keyed(Id("children"), Str("Hello")), Spread(FooBar)]);
      RecmaPass(Call(Id(name), [Heading, props] + rest), ParsePayload) ==
        Ok(Call(Id(name), [Heading, done] + rest))
  {
    WalkHeadingProps(ParsePayload);
    InjectHeading();
    ConstructionCall(name, Heading, [Keyed(Id("children"), Str("Hello")), Keyed(Id(AnnotationKey), Str(Payload))],
      [Keyed(Id("children"), Str("Hello")), Spread(FooBar)], rest, ParsePayload);
  }

  /** `# Hello {{ foo: 'bar' }}`: the heading's construction call keeps `children` and ends with
      a spread of `{ foo: 'bar' }` (test.js:63-67). */
  lemma HeadingCallExample()
    ensures
      var props := Obj([Keyed(Id("children"), Str("Hello")), Keyed(Id(AnnotationKey), Str(Payload))]);
      RecmaPass(Call(Id("_jsx"), [Heading, props]), ParsePayload) ==
        Ok(Call(Id("_jsx"), [Heading, Obj([Keyed(Id("children"), Str("Hello")), Spread(FooBar)])]))
  {
    var props := Obj([Keyed(Id("children"), Str("Hello")), Keyed(Id(AnnotationKey), Str(Payload))]);
    var done := Obj([Keyed(Id("children"), Str("Hello")), Spread(FooBar)]);
    HeadingCall("_jsx", []);
    assert [Heading, props] + [] == [Heading, props] && [Heading, done] + [] == [Heading, done];
  }

  /** The same heading compiled for development: the `_jsxDEV` call has further arguments, which
      stay as they are (test.js:204-219). */
  lemma DevelopmentCallExample()
    ensures
      var props := Obj([Keyed(Id("children"), Str("Hello")), Keyed(Id(AnnotationKey), Str(Payload))]);
      var rest := [Id("undefined"), Other("Literal", [])];
      RecmaPass(Call(Id("_jsxDEV"), [Heading, props] + rest), ParsePayload) ==
        Ok(Call(Id("_jsxDEV"), [Heading, Obj([Keyed(Id("children"), Str("Hello")), Spread(FooBar)])] + rest))
  {
    var rest := [Id("undefined"), Other("Literal", [])];
    assert Quiet(rest[0]) && Quiet(rest[1]);
    WalkQuiet(rest[0], ParsePayload);
    WalkQuiet(rest[1], ParsePayload);
    HeadingCall("_jsxDEV", rest);
  }

  /** A spread of the annotation overrides a generated field of the same name: whatever class
      the compiler generated, an annotation `{ className: … }` decides the element's class. */
  lemma ClassNameOverrideExample(generated: string, text: string, parse: Parser, v: Expr)
    requires parse(ParserInput(text)) == Some(Obj([Keyed(Id("className"), v)]))
    ensures
      var ps := [Keyed(Id("className"), Str(generated)), Keyed(Id(AnnotationKey), Str(text))];
      Inject(ps, parse).Ok? && Lookup(Inject(ps, parse).value, "className") == Known(v)
  {
    var ps := [Keyed(Id("className"), Str(generated)), Keyed(Id(AnnotationKey), Str(text))];
    assert !IsAnnotationEntry(ps[0]);
    assert FirstAnnotation(ps, 0) == Some(1);
    InjectOverrides(ps, parse, "className");
    var qs := [Keyed(Id("className"), v)];
    assert Lookup(qs, "className") == Known(v) by {
      assert Defines(qs[0], "className") == Known(v);
    }
  }

  /** `_jsx(Foo, {...props})`, the call an MDX element with a spread attribute compiles to: `find`
      as written throws on the spread entry, while the pass with a spread never matching leaves
      the literal alone. */
  lemma SpreadEntryFaults()
    ensures FindAsWritten([Spread(Id("props"))], 0) == Err(SpreadHasNoKey)
    ensures FirstAnnotation([Spread(Id("props"))], 0) == None
    ensures Inject([Spread(Id("props"))], ParsePayload) == Ok([Spread(Id("props"))])
  {
  }
}

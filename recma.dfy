/** The recma pass (index.js:86-111): on the generated program's expression tree, every call of
    an element-construction function whose second argument is an object literal loses its first
    `annotation` entry, and a spread of the parsed annotation text is appended as the literal's
    last entry, so that the annotation's fields override the generated ones. */
module Recma {
  import opened Wrappers
  import opened Sequences
  import opened Strings
  import opened Keys

  /** An estree expression, reduced to what the pass looks at: string literals, identifiers,
      calls, object literals, and every other kind of node with its sub-expressions in order. */
  datatype Expr =
    | Str(value: string)
    | Id(name: string)
    | Call(callee: Expr, args: seq<Expr>)
    | Obj(props: seq<Prop>)
    | Other(kind: string, parts: seq<Expr>)

  /** An entry of an object literal: `key: value`, or `...argument`. */
  datatype Prop = Keyed(key: Expr, value: Expr) | Spread(argument: Expr)

  /** Why the pass throws instead of producing a program. */
  datatype Fault =
    | NotAStringLiteral  // the annotation entry's value has no string `.value` to trim
    | ParseFailure       // the parser rejects the annotation text
    | SpreadHasNoKey     // `find` reads `.key.name` of a spread entry, which has no key

  datatype Result<+T> = Ok(value: T) | Err(fault: Fault)

  /** The parser, `acorn.parse` followed by taking the first statement's expression; `None`
      stands for a thrown syntax error. */
  type Parser = string -> Option<Expr>

  /** The callee names of the three element-construction functions the compiler emits (the
      single-child, multi-child and development forms). */
  const ConstructionNames: set<string> := {"_jsx", "_jsxs", "_jsxDEV"}

  predicate IsConstruction(callee: Expr) {
    callee.Id? && callee.name in ConstructionNames
  }

  /** The calls the visitor rewrites: a construction call whose second argument is an object
      literal. */
  predicate Rewritable(callee: Expr, args: seq<Expr>) {
    IsConstruction(callee) && |args| >= 2 && args[1].Obj?
  }

  /** An entry whose key is the identifier `annotation`. */
  predicate IsAnnotationEntry(p: Prop) {
    p.Keyed? && p.key.Id? && p.key.name == AnnotationKey
  }

  predicate IsSpread(p: Prop) {
    p.Spread?
  }

  /** The text handed to the parser: the annotation trimmed and wrapped in parentheses, so that
      an object literal parses as an expression and not as a block. */
  function ParserInput(text: string): string {
    "(" + Trim(text) + ")"
  }

  // ---------------------------------------------------------------------------------------------
  // Finding the annotation entry

  /** `find` as it is written at index.js:100: the callback reads `property.key.name` of every
      entry it reaches, and a spread entry has no `key`, so reaching one throws. */
  function FindAsWritten(ps: seq<Prop>, i: nat): (r: Result<Option<nat>>)
    decreases |ps| - i
    ensures r.Ok? ==> r.value == FirstAnnotation(ps, i)
    ensures r.Err? ==> r.fault == SpreadHasNoKey
    ensures r.Err? <==>
      exists j :: i <= j < |ps| && IsSpread(ps[j]) && forall k :: i <= k < j ==> !IsAnnotationEntry(ps[k])
  {
    if i >= |ps| then Ok(None)
    else if ps[i].Spread? then Err(SpreadHasNoKey)
    else if IsAnnotationEntry(ps[i]) then Ok(Some(i))
    else FindAsWritten(ps, i + 1)
  }

  /** The first annotation entry at index `i` or later, where a spread entry never matches. */
  function FirstAnnotation(ps: seq<Prop>, i: nat): (r: Option<nat>)
    decreases |ps| - i
    ensures r.Some? ==> i <= r.value < |ps| && IsAnnotationEntry(ps[r.value])
    ensures r.Some? ==> forall j :: i <= j < r.value ==> !IsAnnotationEntry(ps[j])
    ensures r.None? <==> forall j :: i <= j < |ps| ==> !IsAnnotationEntry(ps[j])
  {
    if i >= |ps| then None
    else if IsAnnotationEntry(ps[i]) then Some(i)
    else FirstAnnotation(ps, i + 1)
  }

  // ---------------------------------------------------------------------------------------------
  // Rewriting one object literal

  /** The visitor's edit of a construction call's property list: without an annotation entry
      the list is unchanged; otherwise the first annotation entry's string value is trimmed and
      parsed, the entry is removed, and a spread of the parsed expression is appended, so the
      list keeps its length and the other entries their order. */
  function Inject(ps: seq<Prop>, parse: Parser): (r: Result<seq<Prop>>)
    ensures FirstAnnotation(ps, 0).None? ==> r == Ok(ps)
    ensures r.Err? ==> r.fault != SpreadHasNoKey
    ensures FirstAnnotation(ps, 0).Some? ==>
      var v := ps[FirstAnnotation(ps, 0).value].value;
      (r == Err(NotAStringLiteral) <==> !v.Str?) &&
      (r == Err(ParseFailure) <==> v.Str? && parse(ParserInput(v.value)).None?)
    ensures FirstAnnotation(ps, 0).Some? && r.Ok? ==>
      var k := FirstAnnotation(ps, 0).value;
      var v := ps[k].value;
      v.Str? && parse(ParserInput(v.value)).Some? &&
      |r.value| == |ps| &&
      r.value[..|ps| - 1] == Remove(ps, k) &&
      r.value[|ps| - 1] == Spread(parse(ParserInput(v.value)).value)
  {
    match FirstAnnotation(ps, 0)
    case None => Ok(ps)
    case Some(k) =>
      var v := ps[k].value;
      if !v.Str? then Err(NotAStringLiteral)
      else
        match parse(ParserInput(v.value))
        case None => Err(ParseFailure)
        case Some(payload) =>
          var r := Remove(ps, k) + [Spread(payload)];
          assert r[..|ps| - 1] == Remove(ps, k);
          Ok(r)
  }

  /** The visitor body at index.js:100-107 on a property list: `find`, then `splice` at the
      found index and `push` of the spread. */
  method RewriteProps(ps: seq<Prop>, parse: Parser) returns (r: Result<seq<Prop>>)
    ensures r == Inject(ps, parse)
  {
    var i := 0;
    while i < |ps| && !IsAnnotationEntry(ps[i])
      invariant i <= |ps|
      invariant FirstAnnotation(ps, i) == FirstAnnotation(ps, 0)
    {
      i := i + 1;
    }
    if i == |ps| {
      return Ok(ps);
    }
    var value := ps[i].value;
    if !value.Str? {
      return Err(NotAStringLiteral);
    }
    var parsed := parse(ParserInput(value.value));
    if parsed.None? {
      return Err(ParseFailure);
    }
    var properties := ps;
    properties := Remove(properties, i);
    properties := properties + [Spread(parsed.value)];
    return Ok(properties);
  }

  /** The visitor on a call whose callee and arguments are already walked: only a construction
      call with an object literal as its second argument is rewritten, and only that literal. */
  function VisitCall(callee: Expr, args: seq<Expr>, parse: Parser): (r: Result<Expr>)
    ensures !Rewritable(callee, args) ==> r == Ok(Call(callee, args))
    ensures Rewritable(callee, args) ==>
      (r.Ok? <==> Inject(args[1].props, parse).Ok?) &&
      (r.Ok? ==> r.value == Call(callee, args[1 := Obj(Inject(args[1].props, parse).value)]))
  {
    if Rewritable(callee, args) then
      match Inject(args[1].props, parse)
      case Err(f) => Err(f)
      case Ok(ps) => Ok(Call(callee, args[1 := Obj(ps)]))
    else Ok(Call(callee, args))
  }

  // ---------------------------------------------------------------------------------------------
  // The walk

  /** `b` is built like `a`: the same literal or identifier, or the same constructor with as
      many arguments, entries or parts (and, for any other expression, the same kind). */
  predicate SameShape(a: Expr, b: Expr) {
    match a
    case Str(_) => b == a
    case Id(_) => b == a
    case Call(_, args) => b.Call? && |b.args| == |args|
    case Obj(ps) => b.Obj? && |b.props| == |ps|
    case Other(kind, parts) => b.Other? && b.kind == kind && |b.parts| == |parts|
  }

  /** estree-util-visit over the expression tree, with the visitor applied to each call after
      its callee and arguments; the first fault stops the pass. The walk never changes the shape
      of a node, and with the corrected search the only faults are those of reading and parsing
      an annotation. */
  function Walk(e: Expr, parse: Parser): (r: Result<Expr>)
    decreases e
    ensures r.Ok? ==> SameShape(e, r.value)
    ensures r.Err? ==> r.fault != SpreadHasNoKey
  {
    match e
    case Call(callee, args) =>
      (match Walk(callee, parse)
       case Err(f) => Err(f)
       case Ok(callee') =>
         match WalkAll(args, parse)
         case Err(f) => Err(f)
         case Ok(args') => VisitCall(callee', args', parse))
    case Obj(ps) =>
      (match WalkProps(ps, parse)
       case Err(f) => Err(f)
       case Ok(ps') => Ok(Obj(ps')))
    case Other(kind, parts) =>
      (match WalkAll(parts, parse)
       case Err(f) => Err(f)
       case Ok(parts') => Ok(Other(kind, parts')))
    case _ => Ok(e)
  }

  function WalkAll(es: seq<Expr>, parse: Parser): (r: Result<seq<Expr>>)
    decreases es
    ensures r.Ok? ==> |r.value| == |es| && forall k :: 0 <= k < |es| ==> SameShape(es[k], r.value[k])
    ensures r.Err? ==> r.fault != SpreadHasNoKey
  {
    if es == [] then Ok([])
    else
      match Walk(es[0], parse)
      case Err(f) => Err(f)
      case Ok(e') =>
        match WalkAll(es[1..], parse)
        case Err(f) => Err(f)
        case Ok(rest) => Ok([e'] + rest)
  }

  function WalkProps(ps: seq<Prop>, parse: Parser): (r: Result<seq<Prop>>)
    decreases ps
    ensures r.Ok? ==> |r.value| == |ps| && forall k :: 0 <= k < |ps| ==> r.value[k].Keyed? == ps[k].Keyed?
    ensures r.Err? ==> r.fault != SpreadHasNoKey
  {
    if ps == [] then Ok([])
    else
      match WalkProp(ps[0], parse)
      case Err(f) => Err(f)
      case Ok(p') =>
        match WalkProps(ps[1..], parse)
        case Err(f) => Err(f)
        case Ok(rest) => Ok([p'] + rest)
  }

  function WalkProp(p: Prop, parse: Parser): (r: Result<Prop>)
    decreases p
    ensures r.Ok? ==> r.value.Keyed? == p.Keyed?
    ensures r.Err? ==> r.fault != SpreadHasNoKey
  {
    match p
    case Keyed(key, value) =>
      (match Walk(key, parse)
       case Err(f) => Err(f)
       case Ok(key') =>
         match Walk(value, parse)
         case Err(f) => Err(f)
         case Ok(value') => Ok(Keyed(key', value')))
    case Spread(argument) =>
      (match Walk(argument, parse)
       case Err(f) => Err(f)
       case Ok(argument') => Ok(Spread(argument')))
  }

  /** The recma pass over a whole program. */
  function RecmaPass(program: Expr, parse: Parser): (r: Result<Expr>)
    ensures r.Ok? ==> SameShape(program, r.value)
    ensures r.Err? ==> r.fault != SpreadHasNoKey
  {
    Walk(program, parse)
  }

  // ---------------------------------------------------------------------------------------------
  // Properties

  /** No object literal anywhere in `e` has an annotation entry. */
  ghost predicate Quiet(e: Expr)
    decreases e
  {
    match e
    case Call(callee, args) => Quiet(callee) && forall k :: 0 <= k < |args| ==> Quiet(args[k])
    case Obj(ps) => forall k :: 0 <= k < |ps| ==> !IsAnnotationEntry(ps[k]) && QuietProp(ps[k])
    case Other(_, parts) => forall k :: 0 <= k < |parts| ==> Quiet(parts[k])
    case _ => true
  }

  ghost predicate QuietProp(p: Prop)
    decreases p
  {
    match p
    case Keyed(key, value) => Quiet(key) && Quiet(value)
    case Spread(argument) => Quiet(argument)
  }

  /** A program without annotation entries passes through unchanged, whatever the parser. */
  lemma {:induction false} WalkQuiet(e: Expr, parse: Parser)
    requires Quiet(e)
    ensures Walk(e, parse) == Ok(e)
    decreases e
  {
    match e
    case Call(callee, args) =>
      WalkQuiet(callee, parse);
      WalkAllQuiet(args, parse);
      if Rewritable(callee, args) {
        assert Quiet(args[1]);
        assert FirstAnnotation(args[1].props, 0).None?;
        assert args[1 := Obj(args[1].props)] == args;
      }
    case Obj(ps) =>
      WalkPropsQuiet(ps, parse);
    case Other(_, parts) =>
      WalkAllQuiet(parts, parse);
    case _ =>
  }

  lemma {:induction false} WalkAllQuiet(es: seq<Expr>, parse: Parser)
    requires forall k :: 0 <= k < |es| ==> Quiet(es[k])
    ensures WalkAll(es, parse) == Ok(es)
    decreases es
  {
    if es != [] {
      WalkQuiet(es[0], parse);
      WalkAllQuiet(es[1..], parse);
      assert [es[0]] + es[1..] == es;
    }
  }

  lemma {:induction false} WalkPropsQuiet(ps: seq<Prop>, parse: Parser)
    requires forall k :: 0 <= k < |ps| ==> QuietProp(ps[k])
    ensures WalkProps(ps, parse) == Ok(ps)
    decreases ps
  {
    if ps != [] {
      WalkPropQuiet(ps[0], parse);
      WalkPropsQuiet(ps[1..], parse);
      assert [ps[0]] + ps[1..] == ps;
    }
  }

  lemma {:induction false} WalkPropQuiet(p: Prop, parse: Parser)
    requires QuietProp(p)
    ensures WalkProp(p, parse) == Ok(p)
    decreases p
  {
    match p
    case Keyed(key, value) =>
      WalkQuiet(key, parse);
      WalkQuiet(value, parse);
    case Spread(argument) =>
      WalkQuiet(argument, parse);
  }

  lemma RecmaQuiet(program: Expr, parse: Parser)
    requires Quiet(program)
    ensures RecmaPass(program, parse) == Ok(program)
  {
    WalkQuiet(program, parse);
  }

  /** Number of entries of `ps` that satisfy `p`. */
  function Count(ps: seq<Prop>, p: Prop -> bool): nat {
    if ps == [] then 0 else (if p(ps[0]) then 1 else 0) + Count(ps[1..], p)
  }

  lemma {:induction false} CountConcat(a: seq<Prop>, b: seq<Prop>, p: Prop -> bool)
    ensures Count(a + b, p) == Count(a, p) + Count(b, p)
  {
    if a != [] {
      assert (a + b)[0] == a[0] && (a + b)[1..] == a[1..] + b;
      CountConcat(a[1..], b, p);
      assert Count(a + b, p) == (if p(a[0]) then 1 else 0) + Count(a[1..] + b, p);
    } else {
      assert a + b == b;
    }
  }

  /** One entry counts once when it satisfies `p`. */
  lemma CountSingle(x: Prop, p: Prop -> bool)
    ensures Count([x], p) == if p(x) then 1 else 0
  {
    assert [x][1..] == [];
  }

  /** Taking out the entry at `k` and appending `x` moves the count by what each of them adds. */
  lemma CountRemoveAppend(ps: seq<Prop>, k: nat, x: Prop, p: Prop -> bool)
    requires k < |ps|
    ensures Count(Remove(ps, k) + [x], p) == Count(ps, p) - Count([ps[k]], p) + Count([x], p)
  {
    var head, tail := ps[..k], ps[k + 1..];
    assert ps == head + ([ps[k]] + tail);
    assert Remove(ps, k) == head + tail;
    CountConcat(head, [ps[k]] + tail, p);
    CountConcat([ps[k]], tail, p);
    CountConcat(head, tail, p);
    CountConcat(Remove(ps, k), [x], p);
  }

  /** A rewrite trades exactly one annotation entry for exactly one spread. */
  lemma InjectCounts(ps: seq<Prop>, parse: Parser)
    requires FirstAnnotation(ps, 0).Some? && Inject(ps, parse).Ok?
    ensures Count(Inject(ps, parse).value, IsAnnotationEntry) == Count(ps, IsAnnotationEntry) - 1
    ensures Count(Inject(ps, parse).value, IsSpread) == Count(ps, IsSpread) + 1
  {
    var k := FirstAnnotation(ps, 0).value;
    var r := Inject(ps, parse).value;
    var x := r[|ps| - 1];
    assert r == Remove(ps, k) + [x] by {
      assert r == r[..|ps| - 1] + [x];
    }
    CountRemoveAppend(ps, k, x, IsAnnotationEntry);
    CountRemoveAppend(ps, k, x, IsSpread);
    CountSingle(ps[k], IsAnnotationEntry);
    CountSingle(ps[k], IsSpread);
    CountSingle(x, IsAnnotationEntry);
    CountSingle(x, IsSpread);
  }

  // ---------------------------------------------------------------------------------------------
  // What the rewritten literal evaluates to

  /** What an object literal says about one of its fields: nothing (`Absent`), a value
      (`Known`), or something that cannot be read off the literal (`Unknown`: a spread of a
      non-literal, or a key that is neither an identifier nor a string). */
  datatype Field = Absent | Known(value: Expr) | Unknown

  /** The field `name` of the object an object literal creates: the last entry that can define
      `name` decides, as in JavaScript. */
  function Lookup(ps: seq<Prop>, name: string): Field
    decreases ps
  {
    if ps == [] then Absent
    else
      var here := Defines(ps[|ps| - 1], name);
      if here.Absent? then Lookup(ps[..|ps| - 1], name) else here
  }

  /** What one entry says about the field `name`. */
  function Defines(p: Prop, name: string): Field
    decreases p, 0
  {
    match p
    case Keyed(Id(n), v) => if n == name then Known(v) else Absent
    case Keyed(Str(n), v) => if n == name then Known(v) else Absent
    case Keyed(_, _) => Unknown
    case Spread(Obj(qs)) => Lookup(qs, name)
    case Spread(_) => Unknown
  }

  lemma LookupAppend(ps: seq<Prop>, p: Prop, name: string)
    ensures Lookup(ps + [p], name) == if Defines(p, name).Absent? then Lookup(ps, name) else Defines(p, name)
  {
    assert (ps + [p])[..|ps|] == ps;
  }

  /** The appended spread overrides: a field the annotation defines takes the annotation's
      value, whatever the generated entries say; any other field is what the literal without
      its annotation entry says; a non-literal annotation makes every field unknown. */
  lemma InjectOverrides(ps: seq<Prop>, parse: Parser, name: string)
    requires FirstAnnotation(ps, 0).Some? && Inject(ps, parse).Ok?
    ensures
      var k := FirstAnnotation(ps, 0).value;
      var payload := parse(ParserInput(ps[k].value.value)).value;
      var r := Inject(ps, parse).value;
      (payload.Obj? && !Lookup(payload.props, name).Absent? ==> Lookup(r, name) == Lookup(payload.props, name)) &&
      (payload.Obj? && Lookup(payload.props, name).Absent? ==> Lookup(r, name) == Lookup(Remove(ps, k), name)) &&
      (!payload.Obj? ==> Lookup(r, name) == Unknown)
  {
    var k := FirstAnnotation(ps, 0).value;
    var payload := parse(ParserInput(ps[k].value.value)).value;
    var r := Inject(ps, parse).value;
    assert r == Remove(ps, k) + [Spread(payload)] by {
      assert r == r[..|ps| - 1] + [r[|ps| - 1]];
    }
    LookupAppend(Remove(ps, k), Spread(payload), name);
  }
}

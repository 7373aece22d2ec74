/**
 The recursive-descent parser of the toy language (toy_lang/parser.cc). It works
 on the symbol table while it reads, so what it makes of an expression depends
 on both. What it does is compared with a reference that never looks at tokens:
 Resolved takes a program as written and replaces names by ids.
 */
module ToyParser {
  import opened Wrappers
  import opened ToySyntax
  import opened SymbolTables

  // The reference.

  type Resolution<T> = Option<(T, Table)>

  /** What the parser puts around an expression: a block that binds the ids of its scope. */
  function BlockOf(e: Expression, t: Table): Expression
    requires t.scopes != []
  {
    BlockExpression(e, Last(t).parameters, Last(t).locals)
  }

  /** A call of one of the functions a program cannot name. */
  function BuiltIn(name: string, arguments: seq<Expression>, t: Table): Resolution<Expression> {
    var id := Find(t, name, false);
    if id.None? then None else Some((CallExpression(SymbolExpression(id.value), arguments), t))
  }

  function Resolved(s: Source, t: Table): (r: Resolution<Expression>)
    ensures r.Some? ==> |r.value.1.scopes| == |t.scopes|
    decreases s, 0
  {
    match s
    case Int(n) => Some((IntExpression(n), t))
    case Str(v) => Some((StringExpression(v), t))
    case Name(name) =>
      var id := Find(t, name, true);
      if id.None? then None else BuiltIn("get", [SymbolExpression(id.value)], t)
    case For(name, range, body) =>
      var r := Resolved(range, t);
      if r.None? then None else
      var b := ResolvedBlock([name], body, r.value.1);
      if b.None? then None else BuiltIn("for", [r.value.0, b.value.0], b.value.1)
    case Set(name, rhs) =>
      var r := Resolved(rhs, t);
      if r.None? then None else
      var v := LocalVariable(r.value.1, name);
      if v.None? then None else BuiltIn("set", [SymbolExpression(v.value.0), r.value.0], v.value.1)
    case While(condition, body) =>
      var c := ResolvedCondition(condition, t);
      if c.None? then None else
      var b := ResolvedBlock([], body, c.value.1);
      if b.None? then None else BuiltIn("while", [c.value.0, b.value.0], b.value.1)
    case Call(callee, arguments) =>
      var f := Resolved(callee, t);
      if f.None? then None else
      var a := ResolvedAll(arguments, f.value.1);
      if a.None? then None else Some((CallExpression(f.value.0, a.value.0), a.value.1))
    case Block(body) => ResolvedBlock([], body, t)
    case List(items) =>
      var a := ResolvedAll(items, t);
      if a.None? then None else Some((ListExpression(a.value.0), a.value.1))
  }

  function ResolvedCondition(condition: Source, t: Table): (r: Resolution<Expression>)
    ensures r.Some? ==> |r.value.1.scopes| == |t.scopes|
    decreases condition, 1
  {
    var u := Entered(t, []);
    if u.None? then None else
    var c := Resolved(condition, u.value);
    if c.None? then None else Some((BlockOf(c.value.0, c.value.1), Left(c.value.1)))
  }

  function ResolvedBlock(names: seq<string>, body: seq<Source>, t: Table): (r: Resolution<Expression>)
    ensures r.Some? ==> |r.value.1.scopes| == |t.scopes|
    decreases body, 1
  {
    EnteredDepth(t, names);
    var u := Entered(t, names);
    if u.None? then None else
    var a := ResolvedAll(body, u.value);
    if a.None? then None else Some((BlockOf(ListExpression(a.value.0), a.value.1), Left(a.value.1)))
  }

  function ResolvedAll(sources: seq<Source>, t: Table): (r: Resolution<seq<Expression>>)
    ensures r.Some? ==> |r.value.1.scopes| == |t.scopes|
    decreases sources, 0
  {
    if sources == [] then Some(([], t)) else
    var first := Resolved(sources[0], t);
    if first.None? then None else
    var others := ResolvedAll(sources[1..], first.value.1);
    if others.None? then None else Some(([first.value.0] + others.value.0, others.value.1))
  }

  lemma EnteredDepth(t: Table, names: seq<string>)
    ensures Entered(t, names).Some? ==> |Entered(t, names).value.scopes| == |t.scopes| + 1
  {
    ParametersDepth(t.(scopes := t.scopes + [EMPTY_SCOPE]), names);
  }

  lemma {:induction false} ParametersDepth(t: Table, names: seq<string>)
    ensures WithParameters(t, names).Some? ==> |WithParameters(t, names).value.scopes| == |t.scopes|
    decreases |names|
  {
    if names != [] && WithParameter(t, names[0]).Some? {
      ParametersDepth(WithParameter(t, names[0]).value, names[1..]);
    }
  }

  // The parser as a function of the tokens left and the table.

  datatype Parsed<+T> = Failed | Parsed(value: T, rest: seq<Token>, table: Table)

  predicate Shorter<T>(p: Parsed<T>, tokens: seq<Token>, t: Table) {
    p.Parsed? ==> |p.rest| < |tokens| && |p.table.scopes| == |t.scopes|
  }

  function ParseExpression(tokens: seq<Token>, t: Table): (p: Parsed<Expression>)
    ensures Shorter(p, tokens, t)
    decreases |tokens|, 1
  {
    if tokens == [] then Failed else
    match tokens[0]
    case IntLiteral(n) => Parsed(IntExpression(n), tokens[1..], t)
    case StringLiteral(v) => Parsed(StringExpression(v), tokens[1..], t)
    case Identifier(name) =>
      var id := Find(t, name, true);
      if id.None? then Failed else Finished("get", [SymbolExpression(id.value)], tokens[1..], t)
    case BeginExpression => Closed(ParseStatement(tokens[1..], t), EndExpression)
    case BeginBlock => ParseBlock([], tokens, t)
    case BeginList => AsList(Closed(ParseExpressionList(EndList, tokens[1..], t), EndList))
    case _ => Failed
  }

  /** The closing token that has to come next. */
  function Closed<T>(p: Parsed<T>, end: Token): Parsed<T> {
    if p.Failed? || p.rest == [] || p.rest[0] != end then Failed else p.(rest := p.rest[1..])
  }

  function AsList(p: Parsed<seq<Expression>>): Parsed<Expression> {
    if p.Failed? then Failed else Parsed(ListExpression(p.value), p.rest, p.table)
  }

  function Finished(name: string, arguments: seq<Expression>, tokens: seq<Token>, t: Table): Parsed<Expression> {
    var call := BuiltIn(name, arguments, t);
    if call.None? then Failed else Parsed(call.value.0, tokens, call.value.1)
  }

  /** What stands between the parentheses. */
  function ParseStatement(tokens: seq<Token>, t: Table): (p: Parsed<Expression>)
    ensures Shorter(p, tokens, t)
    decreases |tokens|, 3
  {
    if tokens == [] then Failed
    else if tokens[0] == ForKeyword then ParseFor(tokens[1..], t)
    else if tokens[0] == SetKeyword then ParseSet(tokens[1..], t)
    else if tokens[0] == WhileKeyword then ParseWhile(tokens[1..], t)
    else ParseFunctionCall(tokens, t)
  }

  function ParseFor(tokens: seq<Token>, t: Table): (p: Parsed<Expression>)
    ensures Shorter(p, tokens, t)
    decreases |tokens|, 0
  {
    if tokens == [] || !tokens[0].Identifier? then Failed else
    var range := ParseExpression(tokens[1..], t);
    if range.Failed? then Failed else
    var block := ParseBlock([tokens[0].name], range.rest, range.table);
    if block.Failed? then Failed else Finished("for", [range.value, block.value], block.rest, block.table)
  }

  function ParseSet(tokens: seq<Token>, t: Table): (p: Parsed<Expression>)
    ensures Shorter(p, tokens, t)
    decreases |tokens|, 0
  {
    if tokens == [] || !tokens[0].Identifier? then Failed else
    var rhs := ParseExpression(tokens[1..], t);
    if rhs.Failed? then Failed else
    var variable := LocalVariable(rhs.table, tokens[0].name);
    if variable.None? then Failed
    else Finished("set", [SymbolExpression(variable.value.0), rhs.value], rhs.rest, variable.value.1)
  }

  function ParseWhile(tokens: seq<Token>, t: Table): (p: Parsed<Expression>)
    ensures Shorter(p, tokens, t)
    decreases |tokens|, 2
  {
    var u := Entered(t, []);
    if u.None? then Failed else
    var condition := ParseExpression(tokens, u.value);
    if condition.Failed? then Failed else
    var block := ParseBlock([], condition.rest, Left(condition.table));
    if block.Failed? then Failed
    else Finished("while", [BlockOf(condition.value, condition.table), block.value], block.rest, block.table)
  }

  function ParseFunctionCall(tokens: seq<Token>, t: Table): (p: Parsed<Expression>)
    ensures Shorter(p, tokens, t)
    decreases |tokens|, 2
  {
    var callee := ParseExpression(tokens, t);
    if callee.Failed? then Failed else
    var arguments := ParseExpressionList(EndExpression, callee.rest, callee.table);
    if arguments.Failed? then Failed
    else Parsed(CallExpression(callee.value, arguments.value), arguments.rest, arguments.table)
  }

  function ParseBlock(names: seq<string>, tokens: seq<Token>, t: Table): (p: Parsed<Expression>)
    ensures Shorter(p, tokens, t)
    decreases |tokens|, 0
  {
    EnteredDepth(t, names);
    if tokens == [] || tokens[0] != BeginBlock then Failed else
    var u := Entered(t, names);
    if u.None? then Failed else
    var body := ParseExpressionList(EndBlock, tokens[1..], u.value);
    if body.Failed? then Failed
    else Closed(Parsed(BlockOf(ListExpression(body.value), body.table), body.rest, Left(body.table)), EndBlock)
  }

  /** Expressions up to the end token, which stays. */
  function ParseExpressionList(end: Token, tokens: seq<Token>, t: Table): (p: Parsed<seq<Expression>>)
    ensures p.Parsed? ==> 0 < |p.rest| <= |tokens| && p.rest[0] == end && |p.table.scopes| == |t.scopes|
    decreases |tokens|, 3
  {
    if tokens == [] then Failed
    else if tokens[0] == end then Parsed([], tokens, t)
    else
      var first := ParseExpression(tokens, t);
      if first.Failed? then Failed else
      var others := ParseExpressionList(end, first.rest, first.table);
      if others.Failed? then Failed else Parsed([first.value] + others.value, others.rest, others.table)
  }

  /** A whole file is one block. */
  function ParseItems(tokens: seq<Token>, t: Table): (r: Resolution<seq<Expression>>)
    ensures r.Some? ==> |r.value.1.scopes| == |t.scopes|
    decreases |tokens|
  {
    if tokens == [] then Some(([], t)) else
    var first := ParseExpression(tokens, t);
    if first.Failed? then None else
    var others := ParseItems(first.rest, first.table);
    if others.None? then None else Some(([first.value] + others.value.0, others.value.1))
  }

  function ParseFile(tokens: seq<Token>, t: Table): Resolution<Expression> {
    EnteredDepth(t, []);
    var u := Entered(t, []);
    if u.None? then None else
    var items := ParseItems(tokens, u.value);
    if items.None? then None
    else Some((BlockOf(ListExpression(items.value.0), items.value.1), Left(items.value.1)))
  }

  // Reading back what was written.

  function AsParsed<T>(r: Resolution<T>, rest: seq<Token>): Parsed<T> {
    if r.None? then Failed else Parsed(r.value.0, rest, r.value.1)
  }

  lemma Regroup<T>(a: seq<T>, b: seq<T>, c: seq<T>)
    ensures (a + b) + c == a + (b + c)
  {
  }

  lemma Enclosed<T>(begin: T, inner: seq<T>, end: T, rest: seq<T>)
    ensures [begin] + (inner + ([end] + rest)) == ([begin] + inner + [end]) + rest
  {
  }

  /** The parser, given a written program, does what the reference does: it succeeds exactly when names resolve. */
  lemma {:induction false} ParsesWritten(s: Source, rest: seq<Token>, t: Table)
    ensures ParseExpression(Written(s) + rest, t) == AsParsed(Resolved(s, t), rest)
    decreases s, 3
  {
    if s.Block? {
      ParsesBlock([], s.body, rest, t);
    } else if s.List? {
      ParsesList(s, rest, t);
    } else if IsStatement(s) {
      ParsesBracket(s, rest, t);
    } else {
      assert (Written(s) + rest)[1..] == rest;
    }
  }

  lemma {:induction false} ParsesList(s: Source, rest: seq<Token>, t: Table)
    requires s.List?
    ensures ParseExpression(Written(s) + rest, t) == AsParsed(Resolved(s, t), rest)
    decreases s, 1
  {
    var tokens := Written(s) + rest;
    assert tokens[0] == BeginList && tokens[1..] == WrittenAll(s.items) + ([EndList] + rest);
    ParsesAll(s.items, EndList, [EndList] + rest, t);
    assert ([EndList] + rest)[1..] == rest;
  }

  lemma {:induction false} ParsesBracket(s: Source, rest: seq<Token>, t: Table)
    requires IsStatement(s)
    ensures ParseExpression(Written(s) + rest, t) == AsParsed(Resolved(s, t), rest)
    decreases s, 2
  {
    var tokens, inner := Written(s) + rest, [EndExpression] + rest;
    assert tokens[0] == BeginExpression && tokens[1..] == WrittenStatement(s) + inner;
    ParsesStatement(s, inner, t);
    assert inner[1..] == rest;
    Closes(AsParsed(Resolved(s, t), inner), EndExpression, rest);
  }

  lemma Closes<T>(p: Parsed<T>, end: Token, rest: seq<Token>)
    requires p.Parsed? ==> p.rest == [end] + rest
    ensures Closed(p, end) == if p.Failed? then Failed else p.(rest := rest)
  {
    assert p.Parsed? ==> p.rest[1..] == rest;
  }

  lemma {:induction false} ParsesStatement(s: Source, rest: seq<Token>, t: Table)
    requires IsStatement(s) && rest != [] && rest[0] == EndExpression
    ensures ParseStatement(WrittenStatement(s) + rest, t) == AsParsed(Resolved(s, t), rest)
    decreases s, 1
  {
    match s
    case For(name, range, body) => ParsesFor(s, rest, t);
    case Set(name, rhs) => ParsesSet(s, rest, t);
    case While(condition, body) => ParsesWhile(s, rest, t);
    case Call(callee, arguments) => ParsesCall(s, rest, t);
  }

  lemma {:induction false} ParsesFor(s: Source, rest: seq<Token>, t: Table)
    requires s.For?
    ensures ParseStatement(WrittenStatement(s) + rest, t) == AsParsed(Resolved(s, t), rest)
    decreases s, 0
  {
    var tokens, block := WrittenStatement(s) + rest, WrittenBlock(s.body) + rest;
    var after := tokens[1..];
    assert tokens[0] == ForKeyword && after[0] == Identifier(s.name);
    assert after[1..] == Written(s.range) + block;
    ParsesWritten(s.range, block, t);
    if Resolved(s.range, t).Some? {
      ParsesBlock([s.name], s.body, rest, Resolved(s.range, t).value.1);
    }
    ForParsed(s, after, block, rest, t);
  }

  /** A for statement parses as it resolves, if its range and its block do. */
  lemma ForParsed(s: Source, after: seq<Token>, block: seq<Token>, rest: seq<Token>, t: Table)
    requires s.For? && after != [] && after[0] == Identifier(s.name)
    requires ParseExpression(after[1..], t) == AsParsed(Resolved(s.range, t), block)
    requires Resolved(s.range, t).Some? ==>
               var u := Resolved(s.range, t).value.1;
               ParseBlock([s.name], block, u) == AsParsed(ResolvedBlock([s.name], s.body, u), rest)
    ensures ParseFor(after, t) == AsParsed(Resolved(s, t), rest)
  {
  }

  lemma {:induction false} ParsesSet(s: Source, rest: seq<Token>, t: Table)
    requires s.Set?
    ensures ParseStatement(WrittenStatement(s) + rest, t) == AsParsed(Resolved(s, t), rest)
    decreases s, 0
  {
    var tokens := WrittenStatement(s) + rest;
    assert tokens[1..][1..] == Written(s.rhs) + rest;
    ParsesWritten(s.rhs, rest, t);
  }

  lemma {:induction false} ParsesWhile(s: Source, rest: seq<Token>, t: Table)
    requires s.While?
    ensures ParseStatement(WrittenStatement(s) + rest, t) == AsParsed(Resolved(s, t), rest)
    decreases s, 0
  {
    var tokens, block := WrittenStatement(s) + rest, WrittenBlock(s.body) + rest;
    var after := tokens[1..];
    assert tokens[0] == WhileKeyword && after == Written(s.condition) + block;
    var u := Entered(t, []);
    if u.Some? {
      ParsesWritten(s.condition, block, u.value);
      var c := ResolvedCondition(s.condition, t);
      if c.Some? {
        ParsesBlock([], s.body, rest, c.value.1);
      }
    }
    WhileParsed(s, after, block, rest, t);
  }

  /** A while statement parses as it resolves, if its condition and its block do. */
  lemma WhileParsed(s: Source, after: seq<Token>, block: seq<Token>, rest: seq<Token>, t: Table)
    requires s.While?
    requires Entered(t, []).Some? ==>
               var u := Entered(t, []).value;
               ParseExpression(after, u) == AsParsed(Resolved(s.condition, u), block)
    requires ResolvedCondition(s.condition, t).Some? ==>
               var u := ResolvedCondition(s.condition, t).value.1;
               ParseBlock([], block, u) == AsParsed(ResolvedBlock([], s.body, u), rest)
    ensures ParseWhile(after, t) == AsParsed(Resolved(s, t), rest)
  {
  }

  lemma {:induction false} ParsesCall(s: Source, rest: seq<Token>, t: Table)
    requires s.Call? && rest != [] && rest[0] == EndExpression
    ensures ParseStatement(WrittenStatement(s) + rest, t) == AsParsed(Resolved(s, t), rest)
    decreases s, 0
  {
    var tokens := Written(s.callee) + (WrittenAll(s.arguments) + rest);
    Regroup(Written(s.callee), WrittenAll(s.arguments), rest);
    assert WrittenStatement(s) + rest == tokens;
    ParsesWritten(s.callee, WrittenAll(s.arguments) + rest, t);
    if Resolved(s.callee, t).Some? {
      ParsesAll(s.arguments, EndExpression, rest, Resolved(s.callee, t).value.1);
    }
    var callee := ParseExpression(tokens, t);
    assert callee == AsParsed(Resolved(s.callee, t), WrittenAll(s.arguments) + rest);
    assert ParseFunctionCall(tokens, t) == AsParsed(Resolved(s, t), rest);
    OpensCall(tokens, t);
  }

  /** An expression does not open with a keyword. */
  lemma OpensCall(tokens: seq<Token>, t: Table)
    requires tokens != [] && StartsExpression(tokens[0])
    ensures ParseStatement(tokens, t) == ParseFunctionCall(tokens, t)
  {
  }

  lemma {:induction false} ParsesBlock(names: seq<string>, body: seq<Source>, rest: seq<Token>, t: Table)
    ensures ParseBlock(names, WrittenBlock(body) + rest, t) == AsParsed(ResolvedBlock(names, body, t), rest)
    decreases body, 2
  {
    var tokens := WrittenBlock(body) + rest;
    assert tokens[1..] == WrittenAll(body) + ([EndBlock] + rest);
    assert ([EndBlock] + rest)[1..] == rest;
    if Entered(t, names).Some? {
      ParsesAll(body, EndBlock, [EndBlock] + rest, Entered(t, names).value);
    }
  }

  lemma {:induction false} ParsesAll(sources: seq<Source>, end: Token, rest: seq<Token>, t: Table)
    requires rest != [] && rest[0] == end && !StartsExpression(end)
    ensures ParseExpressionList(end, WrittenAll(sources) + rest, t) == AsParsed(ResolvedAll(sources, t), rest)
    decreases sources, 0
  {
    if sources == [] {
      assert WrittenAll(sources) + rest == rest;
    } else {
      var after := WrittenAll(sources[1..]) + rest;
      var tokens := Written(sources[0]) + after;
      Regroup(Written(sources[0]), WrittenAll(sources[1..]), rest);
      assert WrittenAll(sources) + rest == tokens;
      assert tokens[0] == Written(sources[0])[0];
      ParsesWritten(sources[0], after, t);
      assert ParseExpression(tokens, t) == AsParsed(Resolved(sources[0], t), after);
      if Resolved(sources[0], t).Some? {
        ParsesAll(sources[1..], end, rest, Resolved(sources[0], t).value.1);
      }
    }
  }

  // Everything the parser accepts was written that way.

  lemma {:induction false} AcceptsOnlyWritten(tokens: seq<Token>, t: Table) returns (s: Source)
    requires ParseExpression(tokens, t).Parsed?
    ensures tokens == Written(s) + ParseExpression(tokens, t).rest
    decreases |tokens|, 1
  {
    match tokens[0]
    case BeginExpression => s := BracketOnlyWritten(tokens, t);
    case BeginList => s := ItemsInBracketsOnlyWritten(tokens, t);
    case BeginBlock =>
      var body := BlockOnlyWritten([], tokens, t);
      s := Block(body);
    case _ => s := LeafOnlyWritten(tokens, t);
  }

  lemma LeafOnlyWritten(tokens: seq<Token>, t: Table) returns (s: Source)
    requires ParseExpression(tokens, t).Parsed? && tokens[0] !in {BeginExpression, BeginBlock, BeginList}
    ensures tokens == Written(s) + ParseExpression(tokens, t).rest
  {
    match tokens[0]
    case IntLiteral(n) => s := Int(n);
    case StringLiteral(v) => s := Str(v);
    case Identifier(name) => s := Name(name);
  }

  lemma {:induction false} BracketOnlyWritten(tokens: seq<Token>, t: Table) returns (s: Source)
    requires ParseExpression(tokens, t).Parsed? && tokens[0] == BeginExpression
    ensures tokens == Written(s) + ParseExpression(tokens, t).rest
    decreases |tokens|, 0
  {
    StatementParts(tokens, t);
    s := StatementOnlyWritten(tokens[1..], t);
    Enclosed(BeginExpression, WrittenStatement(s), EndExpression, ParseExpression(tokens, t).rest);
  }

  lemma {:induction false} ItemsInBracketsOnlyWritten(tokens: seq<Token>, t: Table) returns (s: Source)
    requires ParseExpression(tokens, t).Parsed? && tokens[0] == BeginList
    ensures tokens == Written(s) + ParseExpression(tokens, t).rest
    decreases |tokens|, 0
  {
    ListParts(tokens, t);
    var items := ListOnlyWritten(EndList, tokens[1..], t);
    s := List(items);
    Enclosed(BeginList, WrittenAll(items), EndList, ParseExpression(tokens, t).rest);
  }

  /** The tokens of a statement that parses: the opening one, what it says, the closing one, the rest. */
  lemma StatementParts(tokens: seq<Token>, t: Table)
    requires tokens != [] && tokens[0] == BeginExpression && ParseExpression(tokens, t).Parsed?
    ensures tokens == [BeginExpression] + tokens[1..]
    ensures var p := ParseStatement(tokens[1..], t);
            p.Parsed? && p.rest == [EndExpression] + ParseExpression(tokens, t).rest
  {
    var rest := ParseStatement(tokens[1..], t).rest;
    assert rest == [EndExpression] + rest[1..];
  }

  lemma ListParts(tokens: seq<Token>, t: Table)
    requires tokens != [] && tokens[0] == BeginList && ParseExpression(tokens, t).Parsed?
    ensures tokens == [BeginList] + tokens[1..]
    ensures var p := ParseExpressionList(EndList, tokens[1..], t);
            p.Parsed? && p.rest == [EndList] + ParseExpression(tokens, t).rest
  {
    var rest := ParseExpressionList(EndList, tokens[1..], t).rest;
    assert rest == [EndList] + rest[1..];
  }

  lemma {:induction false} StatementOnlyWritten(tokens: seq<Token>, t: Table) returns (s: Source)
    requires ParseStatement(tokens, t).Parsed?
    ensures IsStatement(s) && tokens == WrittenStatement(s) + ParseStatement(tokens, t).rest
    decreases |tokens|, 3
  {
    if tokens[0] == ForKeyword {
      s := ForOnlyWritten(tokens, t);
    } else if tokens[0] == SetKeyword {
      s := SetOnlyWritten(tokens, t);
    } else if tokens[0] == WhileKeyword {
      s := WhileOnlyWritten(tokens, t);
    } else {
      s := CallOnlyWritten(tokens, t);
    }
  }

  lemma {:induction false} ForOnlyWritten(tokens: seq<Token>, t: Table) returns (s: Source)
    requires tokens != [] && tokens[0] == ForKeyword && ParseFor(tokens[1..], t).Parsed?
    ensures s.For? && tokens == WrittenStatement(s) + ParseFor(tokens[1..], t).rest
    decreases |tokens|, 2
  {
    var name, after := tokens[1].name, tokens[1..][1..];
    var range := ParseExpression(after, t);
    var r := AcceptsOnlyWritten(after, t);
    var body := BlockOnlyWritten([name], range.rest, range.table);
    s := For(name, r, body);
    assert tokens == [ForKeyword, Identifier(name)] + after;
    var rest := ParseFor(tokens[1..], t).rest;
    assert after == Written(r) + (WrittenBlock(body) + rest);
    Regroup(Written(r), WrittenBlock(body), rest);
    Regroup([ForKeyword, Identifier(name)], Written(r) + WrittenBlock(body), rest);
    Regroup([ForKeyword, Identifier(name)], Written(r), WrittenBlock(body));
  }

  lemma {:induction false} SetOnlyWritten(tokens: seq<Token>, t: Table) returns (s: Source)
    requires tokens != [] && tokens[0] == SetKeyword && ParseSet(tokens[1..], t).Parsed?
    ensures s.Set? && tokens == WrittenStatement(s) + ParseSet(tokens[1..], t).rest
    decreases |tokens|, 2
  {
    var name, after := tokens[1].name, tokens[1..][1..];
    var rhs := AcceptsOnlyWritten(after, t);
    s := Set(name, rhs);
    assert tokens == [SetKeyword, Identifier(name)] + after;
    Regroup([SetKeyword, Identifier(name)], Written(rhs), ParseSet(tokens[1..], t).rest);
  }

  lemma {:induction false} WhileOnlyWritten(tokens: seq<Token>, t: Table) returns (s: Source)
    requires tokens != [] && tokens[0] == WhileKeyword && ParseWhile(tokens[1..], t).Parsed?
    ensures s.While? && tokens == WrittenStatement(s) + ParseWhile(tokens[1..], t).rest
    decreases |tokens|, 2
  {
    var u, after := Entered(t, []).value, tokens[1..];
    var condition := ParseExpression(after, u);
    var c := AcceptsOnlyWritten(after, u);
    var body := BlockOnlyWritten([], condition.rest, Left(condition.table));
    s := While(c, body);
    assert tokens == [WhileKeyword] + after;
    var rest := ParseWhile(tokens[1..], t).rest;
    assert after == Written(c) + (WrittenBlock(body) + rest);
    Regroup(Written(c), WrittenBlock(body), rest);
    Regroup([WhileKeyword], Written(c) + WrittenBlock(body), rest);
    Regroup([WhileKeyword], Written(c), WrittenBlock(body));
  }

  lemma {:induction false} CallOnlyWritten(tokens: seq<Token>, t: Table) returns (s: Source)
    requires ParseFunctionCall(tokens, t).Parsed?
    ensures s.Call? && tokens == WrittenStatement(s) + ParseFunctionCall(tokens, t).rest
    decreases |tokens|, 2
  {
    var callee := ParseExpression(tokens, t);
    var f := AcceptsOnlyWritten(tokens, t);
    var arguments := ListOnlyWritten(EndExpression, callee.rest, callee.table);
    s := Call(f, arguments);
    Regroup(Written(f), WrittenAll(arguments), ParseFunctionCall(tokens, t).rest);
  }

  lemma {:induction false} BlockOnlyWritten(names: seq<string>, tokens: seq<Token>, t: Table)
    returns (body: seq<Source>)
    requires ParseBlock(names, tokens, t).Parsed?
    ensures tokens == WrittenBlock(body) + ParseBlock(names, tokens, t).rest
    decreases |tokens|, 0
  {
    BlockParts(names, tokens, t);
    body := ListOnlyWritten(EndBlock, tokens[1..], Entered(t, names).value);
    Enclosed(BeginBlock, WrittenAll(body), EndBlock, ParseBlock(names, tokens, t).rest);
  }

  /** The tokens of a block that parses: the opening one, the expressions, the closing one, the rest. */
  lemma BlockParts(names: seq<string>, tokens: seq<Token>, t: Table)
    requires ParseBlock(names, tokens, t).Parsed?
    ensures tokens != [] && tokens == [BeginBlock] + tokens[1..] && Entered(t, names).Some?
    ensures var p := ParseExpressionList(EndBlock, tokens[1..], Entered(t, names).value);
            p.Parsed? && p.rest == [EndBlock] + ParseBlock(names, tokens, t).rest
  {
    var rest := ParseExpressionList(EndBlock, tokens[1..], Entered(t, names).value).rest;
    assert rest == [EndBlock] + rest[1..];
  }

  lemma {:induction false} ListOnlyWritten(end: Token, tokens: seq<Token>, t: Table) returns (sources: seq<Source>)
    requires ParseExpressionList(end, tokens, t).Parsed?
    ensures tokens == WrittenAll(sources) + ParseExpressionList(end, tokens, t).rest
    decreases |tokens|, 3
  {
    if tokens[0] == end {
      sources := [];
    } else {
      var first := ParseExpression(tokens, t);
      var s := AcceptsOnlyWritten(tokens, t);
      var others := ListOnlyWritten(end, first.rest, first.table);
      sources := [s] + others;
      assert sources[1..] == others;
      Regroup(Written(s), WrittenAll(others), ParseExpressionList(end, first.rest, first.table).rest);
    }
  }

  lemma {:induction false} ItemsAreWritten(sources: seq<Source>, t: Table)
    ensures ParseItems(WrittenAll(sources), t) == ResolvedAll(sources, t)
    decreases |sources|
  {
    if sources != [] {
      ParsesWritten(sources[0], WrittenAll(sources[1..]), t);
      if Resolved(sources[0], t).Some? {
        ItemsAreWritten(sources[1..], Resolved(sources[0], t).value.1);
      }
    }
  }

  lemma {:induction false} ItemsOnlyWritten(tokens: seq<Token>, t: Table) returns (sources: seq<Source>)
    requires ParseItems(tokens, t).Some?
    ensures tokens == WrittenAll(sources)
    decreases |tokens|
  {
    if tokens == [] {
      sources := [];
    } else {
      var first := ParseExpression(tokens, t);
      var s := AcceptsOnlyWritten(tokens, t);
      var others := ItemsOnlyWritten(first.rest, first.table);
      sources := [s] + others;
      assert sources[1..] == others;
    }
  }

  /**
   A file is accepted exactly if it is the text of some program whose names
   resolve, and the tree is that program's.
   */
  lemma AcceptedExactlyWhen(tokens: seq<Token>, t: Table, e: Expression, u: Table)
    ensures ParseFile(tokens, t) == Some((e, u)) <==>
            exists sources :: tokens == WrittenAll(sources) && ResolvedBlock([], sources, t) == Some((e, u))
  {
    if ParseFile(tokens, t) == Some((e, u)) {
      var sources := ItemsOnlyWritten(tokens, Entered(t, []).value);
      ItemsAreWritten(sources, Entered(t, []).value);
      assert tokens == WrittenAll(sources) && ResolvedBlock([], sources, t) == Some((e, u));
    }
    if sources :| tokens == WrittenAll(sources) && ResolvedBlock([], sources, t) == Some((e, u)) {
      ItemsAreWritten(sources, Entered(t, []).value);
    }
  }
}

/**
 The parser as it is in toy_lang/parser.cc: methods that take tokens from the
 lexer and work on the symbol table. Each is proved to do what the function of
 the same name in ToyParser says. None stands for a failed check or a fatal
 error, which stops the program.
 */
module ToyParserMethods {
  import opened Wrappers
  import opened ToySyntax
  import opened SymbolTables
  import Spec = ToyParser

  /** The outcome of a method, against what the function says. */
  ghost predicate Does<T>(p: Spec.Parsed<T>, r: Option<T>, tokens: seq<Token>, t: Table) {
    match p
    case Failed => r.None?
    case Parsed(value, rest, u) => r == Some(value) && tokens == rest && t == u
  }

  class Parser {
    var tokens: seq<Token>
    const table: SymbolTable

    constructor (tokens: seq<Token>, table: SymbolTable)
      ensures this.tokens == tokens && this.table == table
    {
      this.tokens, this.table := tokens, table;
    }

    method ParseFile() returns (r: Option<Expression>)
      modifies this, table
      ensures match Spec.ParseFile(old(tokens), old(table.Value()))
              case None => r.None?
              case Some((e, u)) => r == Some(e) && tokens == [] && table.Value() == u
    {
      Spec.EnteredDepth(table.Value(), []);
      var ok := table.EnterScope([]);
      if !ok {
        return None;
      }
      ghost var entered := table.Value();
      var items: seq<Expression> := [];
      NothingBefore(Spec.ParseItems(tokens, entered));
      while tokens != []
        invariant |table.scopes| == |entered.scopes|
        invariant Spec.ParseItems(old(tokens), entered) == Preceded(items, Spec.ParseItems(tokens, table.Value()))
        decreases |tokens|
      {
        var item := ParseExpression();
        if item.None? {
          return None;
        }
        PrecededOnce(items, item.value, Spec.ParseItems(tokens, table.Value()));
        items := items + [item.value];
      }
      assert items + [] == items;
      r := LeaveScope(ListExpression(items));
    }

    method ParseExpression() returns (r: Option<Expression>)
      modifies this, table
      ensures Does(Spec.ParseExpression(old(tokens), old(table.Value())), r, tokens, table.Value())
      decreases |tokens|, 1
    {
      if tokens == [] {
        return None;
      }
      match tokens[0]
      case IntLiteral(n) =>
        tokens := tokens[1..];
        r := Some(IntExpression(n));
      case StringLiteral(v) =>
        tokens := tokens[1..];
        r := Some(StringExpression(v));
      case Identifier(name) =>
        tokens := tokens[1..];
        var id := table.PrivateGetSymbolId(name, true);
        if id.None? {
          return None;
        }
        r := BuiltIn("get", [SymbolExpression(id.value)]);
      case BeginExpression =>
        r := ParseStatement();
      case BeginBlock =>
        r := ParseBlock([]);
      case BeginList =>
        r := ParseList();
      case _ =>
        r := None;
    }

    /** The call of a function that programs cannot name. */
    method BuiltIn(name: string, arguments: seq<Expression>) returns (r: Option<Expression>)
      ensures Does(Spec.Finished(name, arguments, tokens, table.Value()), r, tokens, table.Value())
    {
      var id := table.PrivateGetSymbolId(name, false);
      if id.None? {
        return None;
      }
      r := Some(CallExpression(SymbolExpression(id.value), arguments));
    }

    method ParseStatement() returns (r: Option<Expression>)
      requires tokens != [] && tokens[0] == BeginExpression
      modifies this, table
      ensures Does(Spec.Closed(Spec.ParseStatement(old(tokens)[1..], old(table.Value())), EndExpression),
                   r, tokens, table.Value())
      decreases |tokens|, 0
    {
      tokens := tokens[1..];
      if tokens == [] {
        return None;
      }
      match tokens[0] {
        case ForKeyword =>
          r := ParseForStatement();
        case SetKeyword =>
          r := ParseSetStatement();
        case WhileKeyword =>
          r := ParseWhileStatement();
        case _ =>
          r := ParseFunctionCall();
      }
      if r.None? || tokens == [] || tokens[0] != EndExpression {
        return None;
      }
      tokens := tokens[1..];
    }

    method ParseForStatement() returns (r: Option<Expression>)
      requires tokens != [] && tokens[0] == ForKeyword
      modifies this, table
      ensures Does(Spec.ParseFor(old(tokens)[1..], old(table.Value())), r, tokens, table.Value())
      decreases |tokens|, 0
    {
      tokens := tokens[1..];
      if tokens == [] || !tokens[0].Identifier? {
        return None;
      }
      var name := tokens[0].name;
      tokens := tokens[1..];
      var range := ParseExpression();
      if range.None? {
        return None;
      }
      var block := ParseBlock([name]);
      if block.None? {
        return None;
      }
      r := BuiltIn("for", [range.value, block.value]);
    }

    method ParseSetStatement() returns (r: Option<Expression>)
      requires tokens != [] && tokens[0] == SetKeyword
      modifies this, table
      ensures Does(Spec.ParseSet(old(tokens)[1..], old(table.Value())), r, tokens, table.Value())
      decreases |tokens|, 0
    {
      tokens := tokens[1..];
      if tokens == [] || !tokens[0].Identifier? {
        return None;
      }
      var name := tokens[0].name;
      tokens := tokens[1..];
      var rhs := ParseExpression();
      if rhs.None? {
        return None;
      }
      var id := table.GetLocalVariable(name);
      if id.None? {
        return None;
      }
      r := BuiltIn("set", [SymbolExpression(id.value), rhs.value]);
    }

    method ParseWhileStatement() returns (r: Option<Expression>)
      requires tokens != [] && tokens[0] == WhileKeyword
      modifies this, table
      ensures Does(Spec.ParseWhile(old(tokens)[1..], old(table.Value())), r, tokens, table.Value())
      decreases |tokens|, 0
    {
      tokens := tokens[1..];
      Spec.EnteredDepth(table.Value(), []);
      var ok := table.EnterScope([]);
      if !ok {
        return None;
      }
      var condition := ParseExpression();
      if condition.None? {
        return None;
      }
      var conditionBlock := LeaveScope(condition.value);
      var block := ParseBlock([]);
      if block.None? {
        return None;
      }
      r := BuiltIn("while", [conditionBlock.value, block.value]);
    }

    method ParseFunctionCall() returns (r: Option<Expression>)
      modifies this, table
      ensures Does(Spec.ParseFunctionCall(old(tokens), old(table.Value())), r, tokens, table.Value())
      decreases |tokens|, 2
    {
      var callee := ParseExpression();
      if callee.None? {
        return None;
      }
      var arguments := ParseExpressionList(EndExpression);
      if arguments.None? {
        return None;
      }
      r := Some(CallExpression(callee.value, arguments.value));
    }

    method ParseBlock(names: seq<string>) returns (r: Option<Expression>)
      modifies this, table
      ensures Does(Spec.ParseBlock(names, old(tokens), old(table.Value())), r, tokens, table.Value())
      decreases |tokens|, 0
    {
      if tokens == [] || tokens[0] != BeginBlock {
        return None;
      }
      tokens := tokens[1..];
      Spec.EnteredDepth(table.Value(), names);
      var ok := table.EnterScope(names);
      if !ok {
        return None;
      }
      var body := ParseExpressionList(EndBlock);
      if body.None? {
        return None;
      }
      r := LeaveScope(ListExpression(body.value));
      tokens := tokens[1..];
    }

    method ParseList() returns (r: Option<Expression>)
      requires tokens != [] && tokens[0] == BeginList
      modifies this, table
      ensures Does(Spec.ParseExpression(old(tokens), old(table.Value())), r, tokens, table.Value())
      decreases |tokens|, 0
    {
      tokens := tokens[1..];
      var items := ParseExpressionList(EndList);
      if items.None? {
        return None;
      }
      tokens := tokens[1..];
      r := Some(ListExpression(items.value));
    }

    method ParseExpressionList(end: Token) returns (r: Option<seq<Expression>>)
      modifies this, table
      ensures Does(Spec.ParseExpressionList(end, old(tokens), old(table.Value())), r, tokens, table.Value())
      decreases |tokens|, 3
    {
      var items: seq<Expression> := [];
      ghost var all := Spec.ParseExpressionList(end, tokens, table.Value());
      NothingBeforeList(all);
      while tokens != [] && tokens[0] != end
        invariant |tokens| <= |old(tokens)|
        invariant all == PrecededList(items, Spec.ParseExpressionList(end, tokens, table.Value()))
        decreases |tokens|
      {
        var item := ParseExpression();
        if item.None? {
          return None;
        }
        PrecededListOnce(items, item.value, Spec.ParseExpressionList(end, tokens, table.Value()));
        items := items + [item.value];
      }
      if tokens == [] {
        return None;
      }
      r := Some(items);
      assert items + [] == items;
    }

    method LeaveScope(e: Expression) returns (r: Option<Expression>)
      requires table.scopes != []
      modifies table
      ensures r == Some(Spec.BlockOf(e, old(table.Value()))) && table.Value() == Left(old(table.Value()))
    {
      var parameters, locals := table.LeaveScope();
      r := Some(BlockExpression(e, parameters, locals));
    }
  }

  /** The items read so far come before those still to be read. */
  ghost function Preceded(items: seq<Expression>, r: Spec.Resolution<seq<Expression>>)
    : Spec.Resolution<seq<Expression>>
  {
    if r.None? then None else Some((items + r.value.0, r.value.1))
  }

  lemma NothingBefore(r: Spec.Resolution<seq<Expression>>)
    ensures Preceded([], r) == r
  {
    if r.Some? {
      assert [] + r.value.0 == r.value.0;
    }
  }

  lemma PrecededOnce(items: seq<Expression>, item: Expression, r: Spec.Resolution<seq<Expression>>)
    ensures Preceded(items, Preceded([item], r)) == Preceded(items + [item], r)
  {
    if r.Some? {
      assert items + ([item] + r.value.0) == (items + [item]) + r.value.0;
    }
  }

  ghost function PrecededList(items: seq<Expression>, p: Spec.Parsed<seq<Expression>>): Spec.Parsed<seq<Expression>> {
    if p.Failed? then Spec.Failed else p.(value := items + p.value)
  }

  lemma NothingBeforeList(p: Spec.Parsed<seq<Expression>>)
    ensures PrecededList([], p) == p
  {
    if p.Parsed? {
      assert [] + p.value == p.value;
    }
  }

  lemma PrecededListOnce(items: seq<Expression>, item: Expression, p: Spec.Parsed<seq<Expression>>)
    ensures PrecededList(items, PrecededList([item], p)) == PrecededList(items + [item], p)
  {
    if p.Parsed? {
      assert items + ([item] + p.value) == (items + [item]) + p.value;
    }
  }
}

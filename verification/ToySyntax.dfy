/**
 The toy language: its tokens (toy_lang/token.h), its surface syntax, and the
 expression trees that the parser makes of it (toy_lang/expression.h), in which
 names are replaced by symbol ids and every block lists the ids it binds.
 */
module ToySyntax {
  datatype Token =
    | IntLiteral(n: int)
    | StringLiteral(s: string)
    | Identifier(name: string)
    | ForKeyword
    | SetKeyword
    | WhileKeyword
    | BeginExpression
    | EndExpression
    | BeginBlock
    | EndBlock
    | BeginList
    | EndList

  datatype Expression =
    | IntExpression(n: int)
    | StringExpression(s: string)
    | SymbolExpression(id: int)
    | BlockExpression(body: Expression, parameters: seq<int>, locals: seq<int>)
    | CallExpression(function_: Expression, arguments: seq<Expression>)
    | ListExpression(items: seq<Expression>)

  /** A program as it is written, with names. */
  datatype Source =
    | Int(n: int)
    | Str(s: string)
    | Name(name: string)
    | For(name: string, range: Source, body: seq<Source>)
    | Set(name: string, rhs: Source)
    | While(condition: Source, body: seq<Source>)
    | Call(callee: Source, arguments: seq<Source>)
    | Block(body: seq<Source>)
    | List(items: seq<Source>)

  predicate IsStatement(s: Source) {
    s.For? || s.Set? || s.While? || s.Call?
  }

  /** The tokens of a program. */
  function Written(s: Source): (tokens: seq<Token>)
    ensures tokens != [] && StartsExpression(tokens[0])
    decreases s, 1
  {
    match s
    case Int(n) => [IntLiteral(n)]
    case Str(v) => [StringLiteral(v)]
    case Name(name) => [Identifier(name)]
    case Block(body) => WrittenBlock(body)
    case List(items) => [BeginList] + WrittenAll(items) + [EndList]
    case _ => [BeginExpression] + WrittenStatement(s) + [EndExpression]
  }

  function WrittenStatement(s: Source): seq<Token>
    requires IsStatement(s)
    decreases s, 0
  {
    match s
    case For(name, range, body) => [ForKeyword, Identifier(name)] + Written(range) + WrittenBlock(body)
    case Set(name, rhs) => [SetKeyword, Identifier(name)] + Written(rhs)
    case While(condition, body) => [WhileKeyword] + Written(condition) + WrittenBlock(body)
    case Call(callee, arguments) => Written(callee) + WrittenAll(arguments)
  }

  function WrittenBlock(body: seq<Source>): seq<Token>
    decreases body, 1
  {
    [BeginBlock] + WrittenAll(body) + [EndBlock]
  }

  function WrittenAll(sources: seq<Source>): seq<Token>
    decreases sources, 0
  {
    if sources == [] then [] else Written(sources[0]) + WrittenAll(sources[1..])
  }

  predicate StartsExpression(token: Token) {
    match token
    case IntLiteral(_) => true
    case StringLiteral(_) => true
    case Identifier(_) => true
    case BeginExpression => true
    case BeginBlock => true
    case BeginList => true
    case _ => false
  }
}

/**
 Back from the trees to the text. The parser replaces names by ids and forgets
 them, but nothing else is lost: given a name for every id, the program can be
 read off its tree.
 */
module ToyUnparsing {
  import opened Wrappers
  import opened ToySyntax
  import opened SymbolTables
  import opened ToyParser
  import opened ToyScoping

  type Externals = map<string, External>

  /** What each id was called. */
  type Naming = map<int, string>

  function NameOf(names: Naming, id: int): string {
    if id in names then names[id] else ""
  }

  /** The id of a function that a program cannot name. */
  predicate IsBuiltIn(externals: Externals, name: string, id: int) {
    name in externals && !externals[name].visible && externals[name].id == id
  }

  function Recovered(e: Expression, externals: Externals, names: Naming): Source
    decreases e, 0
  {
    match e
    case IntExpression(n) => Int(n)
    case StringExpression(s) => Str(s)
    case SymbolExpression(id) => Name(NameOf(names, id))
    case BlockExpression(body, _, _) => Block(RecoveredBody(body, externals, names))
    case ListExpression(items) => List(RecoveredAll(items, externals, names))
    case CallExpression(callee, arguments) =>
      if callee.SymbolExpression? then RecoveredBuiltIn(callee.id, arguments, externals, names)
      else Call(Recovered(callee, externals, names), RecoveredAll(arguments, externals, names))
  }

  function RecoveredAll(es: seq<Expression>, externals: Externals, names: Naming): seq<Source>
    decreases es, 0
  {
    if es == [] then [] else [Recovered(es[0], externals, names)] + RecoveredAll(es[1..], externals, names)
  }

  function RecoveredBody(e: Expression, externals: Externals, names: Naming): seq<Source>
    decreases e, 1
  {
    if e.ListExpression? then RecoveredAll(e.items, externals, names) else [Recovered(e, externals, names)]
  }

  /** The statement that calls a built-in function with these arguments. */
  function RecoveredBuiltIn(id: int, arguments: seq<Expression>, externals: Externals, names: Naming): Source
    decreases arguments, 1
  {
    if |arguments| == 1 && IsBuiltIn(externals, "get", id) then Recovered(arguments[0], externals, names)
    else if |arguments| != 2 then Int(0)
    else
      var first, second := arguments[0], arguments[1];
      if IsBuiltIn(externals, "for", id) && second.BlockExpression? && |second.parameters| == 1 then
        For(NameOf(names, second.parameters[0]), Recovered(first, externals, names),
            RecoveredBody(second.body, externals, names))
      else if IsBuiltIn(externals, "set", id) && first.SymbolExpression? then
        Set(NameOf(names, first.id), Recovered(second, externals, names))
      else if IsBuiltIn(externals, "while", id) && first.BlockExpression? && second.BlockExpression? then
        While(Recovered(first.body, externals, names), RecoveredBody(second.body, externals, names))
      else Int(0)
  }

  // Namings that go with a table.

  predicate Says(names: Naming, id: int, name: string) {
    id in names && names[id] == name
  }

  ghost predicate ScopesNamed(scopes: seq<Scope>, names: Naming) {
    forall i, name | 0 <= i < |scopes| && name in scopes[i].names :: Says(names, scopes[i].names[name], name)
  }

  /** Every id that the table can still give for a name has that name, and the ids to come have none. */
  ghost predicate Named(t: Table, names: Naming) {
    && ScopesNamed(t.scopes, names)
    && (forall name | name in t.externals :: Says(names, t.externals[name].id, name))
    && forall id | id in names :: id < t.next
  }

  ghost predicate Extends(names: Naming, more: Naming) {
    forall id | id in names :: Says(more, id, names[id])
  }

  /** Under this naming and any larger one the program is read off the tree. */
  ghost predicate Tells(e: Expression, externals: Externals, names: Naming, s: Source) {
    forall more | Extends(names, more) :: Recovered(e, externals, more) == s
  }

  ghost predicate TellsAll(es: seq<Expression>, externals: Externals, names: Naming, sources: seq<Source>) {
    forall more | Extends(names, more) :: RecoveredAll(es, externals, more) == sources
  }

  ghost predicate TellsBlock(e: Expression, externals: Externals, names: Naming, parameters: seq<string>,
                             body: seq<Source>) {
    && e.BlockExpression? && |e.parameters| == |parameters|
    && (forall i | 0 <= i < |parameters| :: Says(names, e.parameters[i], parameters[i]))
    && forall more | Extends(names, more) :: RecoveredBody(e.body, externals, more) == body
  }

  lemma ExtendsFurther(names: Naming, more: Naming, most: Naming)
    requires Extends(names, more) && Extends(more, most)
    ensures Extends(names, most)
  {
    forall id | id in names
      ensures Says(most, id, names[id])
    {
      assert Says(more, id, names[id]);
    }
  }

  lemma TellsFurther(e: Expression, externals: Externals, names: Naming, more: Naming, s: Source)
    requires Tells(e, externals, names, s) && Extends(names, more)
    ensures Tells(e, externals, more, s)
  {
    forall most | Extends(more, most)
      ensures Recovered(e, externals, most) == s
    {
      ExtendsFurther(names, more, most);
    }
  }

  lemma FoundIsNamed(t: Table, names: Naming, name: string)
    requires Named(t, names) && Find(t, name, true).Some?
    ensures Says(names, Find(t, name, true).value, name)
  {
    if FindIn(t.scopes, name).Some? {
      ScopeIsNamed(t.scopes, names, name);
    }
  }

  lemma {:induction false} ScopeIsNamed(scopes: seq<Scope>, names: Naming, name: string)
    requires ScopesNamed(scopes, names) && FindIn(scopes, name).Some?
    ensures Says(names, FindIn(scopes, name).value, name)
    decreases |scopes|
  {
    var n := |scopes| - 1;
    if name !in scopes[n].names {
      assert forall i | 0 <= i < n :: scopes[..n][i] == scopes[i];
      ScopeIsNamed(scopes[..n], names, name);
    }
  }

  /** A later table with the same scopes, or fewer, and more ids used up. */
  lemma StaysNamed(t: Table, names: Naming, u: Table, more: Naming)
    requires Named(t, names) && Extends(names, more)
    requires |u.scopes| <= |t.scopes| && u.scopes == t.scopes[..|u.scopes|] && u.externals == t.externals
    requires forall id | id in more :: id < u.next
    ensures Named(u, more)
  {
    forall i, name | 0 <= i < |u.scopes| && name in u.scopes[i].names
      ensures Says(more, u.scopes[i].names[name], name)
    {
      assert Says(names, t.scopes[i].names[name], name);
    }
    forall name | name in u.externals
      ensures Says(more, u.externals[name].id, name)
    {
      assert Says(names, t.externals[name].id, name);
    }
  }

  /** A new id under a new name. */
  lemma OneMoreName(t: Table, names: Naming, name: string)
    requires Named(t, names)
    ensures Extends(names, names[t.next := name]) && Says(names[t.next := name], t.next, name)
  {
    assert t.next !in names;
  }

  lemma VariableIsNamed(t: Table, names: Naming, name: string) returns (more: Naming)
    requires Named(t, names) && t.scopes != [] && LocalVariable(t, name).Some?
    ensures var (id, u) := LocalVariable(t, name).value; Named(u, more) && Extends(names, more) && Says(more, id, name)
  {
    var (id, u) := LocalVariable(t, name).value;
    if Find(t, name, true).Some? {
      more := names;
      FoundIsNamed(t, names, name);
    } else {
      more := names[t.next := name];
      OneMoreName(t, names, name);
      var n := |t.scopes| - 1;
      assert u.scopes[..n] == t.scopes[..n] && Last(u).names == Last(t).names[name := t.next];
      StaysNamed(t, names, t.(next := u.next), more);
      forall i, other | 0 <= i < |u.scopes| && other in u.scopes[i].names
        ensures Says(more, u.scopes[i].names[other], other)
      {
        assert i < n ==> u.scopes[i] == t.scopes[i];
      }
    }
  }

  lemma ParametersAreNamed(t: Table, names: Naming, parameters: seq<string>) returns (more: Naming)
    requires Named(t, names) && |parameters| <= 1 && Entered(t, parameters).Some?
    ensures var u := Entered(t, parameters).value;
            && Named(u, more) && Extends(names, more) && u.scopes != [] && |Last(u).parameters| == |parameters|
            && forall i | 0 <= i < |parameters| :: Says(more, Last(u).parameters[i], parameters[i])
  {
    EnteredExactlyWhen(t, parameters);
    var inner, u := t.(scopes := t.scopes + [EMPTY_SCOPE]), Entered(t, parameters).value;
    assert inner.scopes[..|t.scopes|] == t.scopes;
    more := names;
    if parameters != [] {
      more := names[t.next := parameters[0]];
      OneMoreName(t, names, parameters[0]);
    }
    StaysNamed(t, names, t.(next := u.next), more);
    forall i, name | 0 <= i < |u.scopes| && name in u.scopes[i].names
      ensures Says(more, u.scopes[i].names[name], name)
    {
      assert i < |t.scopes| ==> u.scopes[i] == t.scopes[i];
    }
  }

  // The tree tells the program.

  ghost predicate IdsApart(externals: Externals) {
    forall a, b | a in externals && b in externals && externals[a].id == externals[b].id :: a == b
  }

  lemma BuiltInFound(t: Table, name: string)
    requires Find(t, name, false).Some? && IdsApart(t.externals)
    ensures IsBuiltIn(t.externals, name, Find(t, name, false).value)
    ensures forall other | IsBuiltIn(t.externals, other, Find(t, name, false).value) :: other == name
  {
  }

  ghost predicate Ready(t: Table, names: Naming) {
    Valid(t) && t.scopes != [] && Named(t, names) && IdsApart(t.externals)
  }

  /** From the one table and naming to the other. */
  ghost predicate Goes(t: Table, names: Naming, u: Table, more: Naming) {
    Ready(u, more) && u.externals == t.externals && Extends(names, more)
  }

  lemma {:induction false} TreeTells(s: Source, t: Table, names: Naming) returns (more: Naming)
    requires Ready(t, names) && Resolved(s, t).Some?
    ensures Goes(t, names, Resolved(s, t).value.1, more)
    ensures Tells(Resolved(s, t).value.0, t.externals, more, s)
    decreases s, 1
  {
    match s
    case Int(_) => more := names;
    case Str(_) => more := names;
    case Name(name) =>
      more := names;
      NameTells(name, t, names);
    case For(_, _, _) => more := ForTells(s, t, names);
    case Set(_, _) => more := SetTells(s, t, names);
    case While(_, _) => more := WhileTells(s, t, names);
    case Call(_, _) => more := CallTells(s, t, names);
    case Block(body) => more := BlockTells([], body, t, names);
    case List(items) => more := AllTell(items, t, names);
  }

  lemma NameTells(name: string, t: Table, names: Naming)
    requires Ready(t, names) && Resolved(Name(name), t).Some?
    ensures Tells(Resolved(Name(name), t).value.0, t.externals, names, Name(name))
  {
    FoundIsNamed(t, names, name);
    BuiltInFound(t, "get");
    var id, e := Find(t, name, true).value, Resolved(Name(name), t).value.0;
    assert e == CallExpression(SymbolExpression(Find(t, "get", false).value), [SymbolExpression(id)]);
    forall more | Extends(names, more)
      ensures Recovered(e, t.externals, more) == Name(name)
    {
      assert Says(more, id, names[id]);
      assert Recovered(SymbolExpression(id), t.externals, more) == Name(name);
    }
  }

  lemma {:induction false} ForTells(s: Source, t: Table, names: Naming) returns (more: Naming)
    requires s.For? && Ready(t, names) && Resolved(s, t).Some?
    ensures Goes(t, names, Resolved(s, t).value.1, more)
    ensures Tells(Resolved(s, t).value.0, t.externals, more, s)
    decreases s, 0
  {
    var (range, u) := Resolved(s.range, t).value;
    var middle := TreeTells(s.range, t, names);
    var (block, v) := ResolvedBlock([s.name], s.body, u).value;
    more := BlockTells([s.name], s.body, u, middle);
    TellsFurther(range, t.externals, middle, more, s.range);
    ExtendsFurther(names, middle, more);
    BuiltInFound(v, "for");
    var e := Resolved(s, t).value.0;
    assert e == CallExpression(SymbolExpression(Find(v, "for", false).value), [range, block]);
    forall most | Extends(more, most)
      ensures Recovered(e, t.externals, most) == s
    {
      assert Says(more, block.parameters[0], s.name);
    }
  }

  lemma {:induction false} SetTells(s: Source, t: Table, names: Naming) returns (more: Naming)
    requires s.Set? && Ready(t, names) && Resolved(s, t).Some?
    ensures Goes(t, names, Resolved(s, t).value.1, more)
    ensures Tells(Resolved(s, t).value.0, t.externals, more, s)
    decreases s, 0
  {
    var (rhs, u) := Resolved(s.rhs, t).value;
    var middle := TreeTells(s.rhs, t, names);
    var (id, v) := LocalVariable(u, s.name).value;
    more := VariableIsNamed(u, middle, s.name);
    var added := LocalVariableIsBound(u, s.name);
    TellsFurther(rhs, t.externals, middle, more, s.rhs);
    ExtendsFurther(names, middle, more);
    BuiltInFound(v, "set");
    var e := Resolved(s, t).value.0;
    assert e == CallExpression(SymbolExpression(Find(v, "set", false).value), [SymbolExpression(id), rhs]);
    forall most | Extends(more, most)
      ensures Recovered(e, t.externals, most) == s
    {
      assert Says(more, id, s.name);
    }
  }

  lemma {:induction false} WhileTells(s: Source, t: Table, names: Naming) returns (more: Naming)
    requires s.While? && Ready(t, names) && Resolved(s, t).Some?
    ensures Goes(t, names, Resolved(s, t).value.1, more)
    ensures Tells(Resolved(s, t).value.0, t.externals, more, s)
    decreases s, 0
  {
    var (condition, u) := ResolvedCondition(s.condition, t).value;
    var middle := ConditionTells(s.condition, t, names);
    var (block, v) := ResolvedBlock([], s.body, u).value;
    more := BlockTells([], s.body, u, middle);
    TellsFurther(condition.body, t.externals, middle, more, s.condition);
    ExtendsFurther(names, middle, more);
    BuiltInFound(v, "while");
  }

  lemma {:induction false} ConditionTells(condition: Source, t: Table, names: Naming) returns (more: Naming)
    requires Ready(t, names) && ResolvedCondition(condition, t).Some?
    ensures Goes(t, names, ResolvedCondition(condition, t).value.1, more)
    ensures ResolvedCondition(condition, t).value.0.BlockExpression?
    ensures Tells(ResolvedCondition(condition, t).value.0.body, t.externals, more, condition)
    decreases condition, 2
  {
    var u := Entered(t, []).value;
    EnteredIsInside(t, []);
    var middle := ParametersAreNamed(t, names, []);
    var added := ResolvedIsMade(condition, u);
    more := TreeTells(condition, u, middle);
    ConditionIsMade(condition, t);
    ExtendsFurther(names, middle, more);
    StaysNamed(t, names, ResolvedCondition(condition, t).value.1, more);
  }

  lemma {:induction false} CallTells(s: Source, t: Table, names: Naming) returns (more: Naming)
    requires s.Call? && Ready(t, names) && Resolved(s, t).Some?
    ensures Goes(t, names, Resolved(s, t).value.1, more)
    ensures Tells(Resolved(s, t).value.0, t.externals, more, s)
    decreases s, 0
  {
    var (callee, u) := Resolved(s.callee, t).value;
    var middle := TreeTells(s.callee, t, names);
    more := AllTell(s.arguments, u, middle);
    TellsFurther(callee, t.externals, middle, more, s.callee);
    ExtendsFurther(names, middle, more);
    assert !callee.SymbolExpression?;
  }

  lemma {:induction false} BlockTells(parameters: seq<string>, body: seq<Source>, t: Table, names: Naming)
    returns (more: Naming)
    requires Ready(t, names) && |parameters| <= 1 && ResolvedBlock(parameters, body, t).Some?
    ensures Goes(t, names, ResolvedBlock(parameters, body, t).value.1, more)
    ensures TellsBlock(ResolvedBlock(parameters, body, t).value.0, t.externals, more, parameters, body)
    decreases body, 1
  {
    var u := Entered(t, parameters).value;
    EnteredIsInside(t, parameters);
    var middle := ParametersAreNamed(t, names, parameters);
    var added := AllIsMade(body, u);
    more := AllTell(body, u, middle);
    BlockIsMade(parameters, body, t);
    ExtendsFurther(names, middle, more);
    StaysNamed(t, names, ResolvedBlock(parameters, body, t).value.1, more);
  }

  lemma {:induction false} AllTell(sources: seq<Source>, t: Table, names: Naming) returns (more: Naming)
    requires Ready(t, names) && ResolvedAll(sources, t).Some?
    ensures Goes(t, names, ResolvedAll(sources, t).value.1, more)
    ensures TellsAll(ResolvedAll(sources, t).value.0, t.externals, more, sources)
    decreases sources, 0
  {
    if sources == [] {
      more := names;
    } else {
      var (first, u) := Resolved(sources[0], t).value;
      var middle := TreeTells(sources[0], t, names);
      var (others, v) := ResolvedAll(sources[1..], u).value;
      more := AllTell(sources[1..], u, middle);
      TellsFurther(first, t.externals, middle, more, sources[0]);
      ExtendsFurther(names, middle, more);
      assert ([first] + others)[1..] == others && sources == [sources[0]] + sources[1..];
    }
  }

  lemma ExternalsNamed(t: Table) returns (names: Naming)
    requires IdsApart(t.externals)
    ensures forall name | name in t.externals :: Says(names, t.externals[name].id, name)
    ensures forall id | id in names :: id in ExternalIds(t)
  {
    names := map[];
    var rest := t.externals.Keys;
    while rest != {}
      invariant rest <= t.externals.Keys
      invariant forall name | name in t.externals.Keys - rest :: Says(names, t.externals[name].id, name)
      invariant forall id | id in names :: id in ExternalIds(t)
      decreases rest
    {
      var name :| name in rest;
      names := names[t.externals[name].id := name];
      rest := rest - {name};
    }
  }

  /**
   Of every file that the parser accepts, the tree tells the text: there is a
   naming of the ids under which the program read off the tree, written down
   again, is the file, token by token.
   */
  lemma TreeTellsTheFile(tokens: seq<Token>, t: Table) returns (names: Naming)
    requires Valid(t) && t.scopes == [] && IdsApart(t.externals) && ParseFile(tokens, t).Some?
    ensures var e := ParseFile(tokens, t).value.0;
            e.BlockExpression? && WrittenAll(RecoveredBody(e.body, t.externals, names)) == tokens
  {
    var inner := Entered(t, []).value;
    EnteredIsInside(t, []);
    assert inner.scopes == [EMPTY_SCOPE];
    var sources := ItemsOnlyWritten(tokens, inner);
    ItemsAreWritten(sources, inner);
    var externals := ExternalsNamed(t);
    assert forall id | id in externals :: id in Environment(t);
    names := AllTell(sources, inner, externals);
    assert Extends(names, names);
  }

  /** External symbols that are added to a table one by one have different ids. */
  lemma AddedApart(t: Table, name: string, visible: bool)
    requires Valid(t) && t.scopes == [] && IdsApart(t.externals) && WithExternal(t, name, visible).Some?
    ensures IdsApart(WithExternal(t, name, visible).value.1.externals)
  {
    assert forall other | other in t.externals :: t.externals[other].id in ExternalIds(t);
    assert Environment(t) == ExternalIds(t);
  }
}

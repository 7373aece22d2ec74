/**
 Which programs the parser accepts, said with names alone: a reference that knows
 no ids, scopes or tokens, only which names can be used where.
 */
module ToyNames {
  import opened Wrappers
  import opened ToySyntax
  import opened SymbolTables
  import opened ToyParser
  import opened ToyScoping

  /**
   The names that can be used after a piece of program, given those that can be
   used before it; None if it uses a name that cannot be used there. A variable
   can be used after it was set, up to the end of the block; the variable of a
   "for" only inside.
   */
  function Seen(s: Source, names: set<string>): Option<set<string>>
    decreases s, 0
  {
    match s
    case Int(_) => Some(names)
    case Str(_) => Some(names)
    case Name(name) => if name in names then Some(names) else None
    case For(name, range, body) =>
      var r := Seen(range, names);
      if r.None? || name == "" || SeenAll(body, r.value + {name}).None? then None else r
    case Set(name, rhs) =>
      var r := Seen(rhs, names);
      if r.None? || (name == "" && name !in r.value) then None else Some(r.value + {name})
    case While(condition, body) =>
      if Seen(condition, names).None? || SeenAll(body, names).None? then None else Some(names)
    case Call(callee, arguments) =>
      var r := Seen(callee, names);
      if r.None? then None else SeenAll(arguments, r.value)
    case Block(body) => if SeenAll(body, names).None? then None else Some(names)
    case List(items) => SeenAll(items, names)
  }

  function SeenAll(sources: seq<Source>, names: set<string>): Option<set<string>>
    decreases sources, 0
  {
    if sources == [] then Some(names)
    else
      var r := Seen(sources[0], names);
      if r.None? then None else SeenAll(sources[1..], r.value)
  }

  /** The names that a program can use with this table. */
  ghost predicate Sees(t: Table, names: set<string>) {
    forall name :: name in names <==> Find(t, name, true).Some?
  }

  /** The functions that statements call are there. */
  predicate HasBuiltIns(t: Table) {
    && Find(t, "get", false).Some? && Find(t, "for", false).Some?
    && Find(t, "set", false).Some? && Find(t, "while", false).Some?
  }

  ghost predicate Ready(t: Table, names: set<string>) {
    Valid(t) && t.scopes != [] && HasBuiltIns(t) && Sees(t, names)
  }

  /** A resolution works exactly when the reference does, and then the same names can be used after it. */
  ghost predicate Agrees<T>(r: Resolution<T>, seen: Option<set<string>>) {
    && (r.Some? <==> seen.Some?)
    && (r.Some? ==> Ready(r.value.1, seen.value))
  }

  /** The names that can be used inside a block with at most one parameter. */
  function NamesInside(names: set<string>, parameters: seq<string>): set<string> {
    if parameters == [] then names else names + {parameters[0]}
  }

  lemma EnteredSees(t: Table, names: set<string>, parameters: seq<string>)
    requires Valid(t) && HasBuiltIns(t) && Sees(t, names) && |parameters| <= 1
    ensures Entered(t, parameters).Some? <==> parameters == [] || parameters[0] != ""
    ensures Entered(t, parameters).Some? ==>
              && Ready(Entered(t, parameters).value, NamesInside(names, parameters))
              && Left(Entered(t, parameters).value).scopes == t.scopes
  {
    EnteredExactlyWhen(t, parameters);
    if Entered(t, parameters).Some? {
      EnteredIsInside(t, parameters);
      var u := Entered(t, parameters).value;
      assert u.scopes[..|u.scopes| - 1] == t.scopes;
      forall name
        ensures Find(u, name, true).Some? <==> name in parameters || Find(t, name, true).Some?
      {
        assert name in Last(u).names <==> name in parameters;
      }
    }
  }

  /** Back outside, everything is as before. */
  lemma LeftSees(t: Table, names: set<string>, u: Table, added: seq<int>, v: Table)
    requires Ready(t, names) && u.scopes != [] && Left(u).scopes == t.scopes && u.externals == t.externals
    requires Grows(u, v, added) && Valid(Left(v))
    ensures Ready(Left(v), names)
  {
    assert Left(v).scopes == t.scopes;
    forall name, visible
      ensures Find(Left(v), name, visible) == Find(t, name, visible)
    {
    }
  }

  lemma {:induction false} ResolvesExactlyWhen(s: Source, t: Table, names: set<string>)
    requires Ready(t, names)
    ensures Agrees(Resolved(s, t), Seen(s, names))
    decreases s, 1
  {
    match s
    case Int(_) =>
    case Str(_) =>
    case Name(name) => assert name in names <==> Find(t, name, true).Some?;
    case For(_, _, _) => ForResolvesExactlyWhen(s, t, names);
    case Set(_, _) => SetResolvesExactlyWhen(s, t, names);
    case While(_, _) => WhileResolvesExactlyWhen(s, t, names);
    case Call(callee, arguments) =>
      ResolvesExactlyWhen(callee, t, names);
      if Resolved(callee, t).Some? {
        AllResolveExactlyWhen(arguments, Resolved(callee, t).value.1, Seen(callee, names).value);
      }
    case Block(body) => BlockResolvesExactlyWhen([], body, t, names);
    case List(items) => AllResolveExactlyWhen(items, t, names);
  }

  lemma {:induction false} ForResolvesExactlyWhen(s: Source, t: Table, names: set<string>)
    requires s.For? && Ready(t, names)
    ensures Agrees(Resolved(s, t), Seen(s, names))
    decreases s, 0
  {
    ResolvesExactlyWhen(s.range, t, names);
    if Resolved(s.range, t).Some? {
      BlockResolvesExactlyWhen([s.name], s.body, Resolved(s.range, t).value.1, Seen(s.range, names).value);
    }
  }

  lemma {:induction false} SetResolvesExactlyWhen(s: Source, t: Table, names: set<string>)
    requires s.Set? && Ready(t, names)
    ensures Agrees(Resolved(s, t), Seen(s, names))
    decreases s, 0
  {
    ResolvesExactlyWhen(s.rhs, t, names);
    if Resolved(s.rhs, t).Some? {
      SetSees(Resolved(s.rhs, t).value.1, Seen(s.rhs, names).value, s.name);
    }
  }

  lemma SetSees(t: Table, names: set<string>, name: string)
    requires Ready(t, names)
    ensures LocalVariable(t, name).Some? <==> name != "" || name in names
    ensures LocalVariable(t, name).Some? ==> Ready(LocalVariable(t, name).value.1, names + {name})
  {
    LocalVariableMeaning(t, name);
    assert name in names <==> Find(t, name, true).Some?;
    if LocalVariable(t, name).Some? {
      var u := LocalVariable(t, name).value.1;
      var added := LocalVariableIsBound(t, name);
      forall other
        ensures other in names + {name} <==> Find(u, other, true).Some?
      {
        assert other in names <==> Find(t, other, true).Some?;
      }
    }
  }

  lemma {:induction false} WhileResolvesExactlyWhen(s: Source, t: Table, names: set<string>)
    requires s.While? && Ready(t, names)
    ensures Agrees(Resolved(s, t), Seen(s, names))
    decreases s, 0
  {
    ConditionResolvesExactlyWhen(s.condition, t, names);
    if ResolvedCondition(s.condition, t).Some? {
      BlockResolvesExactlyWhen([], s.body, ResolvedCondition(s.condition, t).value.1, names);
    }
  }

  lemma {:induction false} ConditionResolvesExactlyWhen(condition: Source, t: Table, names: set<string>)
    requires Ready(t, names)
    ensures ResolvedCondition(condition, t).Some? <==> Seen(condition, names).Some?
    ensures ResolvedCondition(condition, t).Some? ==> Ready(ResolvedCondition(condition, t).value.1, names)
    decreases condition, 2
  {
    EnteredSees(t, names, []);
    var u := Entered(t, []).value;
    ResolvesExactlyWhen(condition, u, names);
    if Resolved(condition, u).Some? {
      var added := ResolvedIsMade(condition, u);
      EnteredIsInside(t, []);
      ConditionIsMade(condition, t);
      LeftSees(t, names, u, added, Resolved(condition, u).value.1);
    }
  }

  lemma {:induction false} BlockResolvesExactlyWhen(parameters: seq<string>, body: seq<Source>, t: Table,
                                                    names: set<string>)
    requires Ready(t, names) && |parameters| <= 1
    ensures ResolvedBlock(parameters, body, t).Some? <==>
            && (parameters == [] || parameters[0] != "")
            && SeenAll(body, NamesInside(names, parameters)).Some?
    ensures ResolvedBlock(parameters, body, t).Some? ==> Ready(ResolvedBlock(parameters, body, t).value.1, names)
    decreases body, 1
  {
    EnteredSees(t, names, parameters);
    if Entered(t, parameters).Some? {
      var u := Entered(t, parameters).value;
      AllResolveExactlyWhen(body, u, NamesInside(names, parameters));
      if ResolvedAll(body, u).Some? {
        var added := AllIsMade(body, u);
        EnteredIsInside(t, parameters);
        BlockIsMade(parameters, body, t);
        LeftSees(t, names, u, added, ResolvedAll(body, u).value.1);
      }
    }
  }

  lemma {:induction false} AllResolveExactlyWhen(sources: seq<Source>, t: Table, names: set<string>)
    requires Ready(t, names)
    ensures Agrees(ResolvedAll(sources, t), SeenAll(sources, names))
    decreases sources, 0
  {
    if sources != [] {
      ResolvesExactlyWhen(sources[0], t, names);
      if Resolved(sources[0], t).Some? {
        AllResolveExactlyWhen(sources[1..], Resolved(sources[0], t).value.1, Seen(sources[0], names).value);
      }
    }
  }

  /**
   The parser accepts a file exactly if it is the text of a program each of whose
   names can be used where it stands.
   */
  lemma AcceptedExactlyWhenSeen(tokens: seq<Token>, t: Table, names: set<string>)
    requires Valid(t) && t.scopes == [] && HasBuiltIns(t) && Sees(t, names)
    ensures ParseFile(tokens, t).Some? <==>
            exists sources :: tokens == WrittenAll(sources) && SeenAll(sources, names).Some?
  {
    EnteredSees(t, names, []);
    var u := Entered(t, []).value;
    if ParseFile(tokens, t).Some? {
      var sources := ItemsOnlyWritten(tokens, u);
      ItemsAreWritten(sources, u);
      AllResolveExactlyWhen(sources, u, names);
      assert tokens == WrittenAll(sources) && SeenAll(sources, names).Some?;
    }
    if sources :| tokens == WrittenAll(sources) && SeenAll(sources, names).Some? {
      AllResolveExactlyWhen(sources, u, names);
      ItemsAreWritten(sources, u);
    }
  }

  /** A variable cannot be set from itself before it has been set. */
  lemma SetFromItself(t: Table, names: set<string>, name: string)
    requires Ready(t, names)
    ensures Resolved(Set(name, Name(name)), t).Some? <==> name in names
  {
    ResolvesExactlyWhen(Set(name, Name(name)), t, names);
  }
}

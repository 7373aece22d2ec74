/**
 Scoping of the trees the parser makes: every symbol in them is external or bound
 by an enclosing block, and no two blocks bind the same id, so that no id is
 bound twice on the way down to any expression.
 */
module ToyScoping {
  import opened ToySyntax
  import opened SymbolTables
  import opened ToyParser

  /** The ids that the blocks of an expression bind, each as often as it is bound. */
  function Binders(e: Expression): multiset<int> {
    match e
    case BlockExpression(body, parameters, locals) => multiset(parameters) + multiset(locals) + Binders(body)
    case CallExpression(callee, arguments) => Binders(callee) + BindersOf(arguments)
    case ListExpression(items) => BindersOf(items)
    case _ => multiset{}
  }

  function BindersOf(es: seq<Expression>): multiset<int> {
    if es == [] then multiset{} else Binders(es[0]) + BindersOf(es[1..])
  }

  ghost predicate NoRepeats(ids: multiset<int>) {
    forall id :: ids[id] <= 1
  }

  ghost predicate InRange(ids: multiset<int>, low: int, high: int) {
    forall id | id in ids :: low <= id < high
  }

  function IdsOf(parameters: seq<int>, locals: seq<int>): set<int> {
    (set id | id in parameters) + (set id | id in locals)
  }

  /** With the ids of the environment bound, every symbol is bound, and every block binds new ids, each once. */
  ghost predicate WellScoped(e: Expression, environment: set<int>) {
    match e
    case SymbolExpression(id) => id in environment
    case BlockExpression(body, parameters, locals) =>
      && NoRepeats(multiset(parameters) + multiset(locals))
      && IdsOf(parameters, locals) !! environment
      && WellScoped(body, environment + IdsOf(parameters, locals))
    case CallExpression(callee, arguments) => WellScoped(callee, environment) && AllWellScoped(arguments, environment)
    case ListExpression(items) => AllWellScoped(items, environment)
    case _ => true
  }

  ghost predicate AllWellScoped(es: seq<Expression>, environment: set<int>) {
    es == [] || (WellScoped(es[0], environment) && AllWellScoped(es[1..], environment))
  }

  lemma {:induction false} WellScopedIn(e: Expression, environment: set<int>, more: set<int>)
    requires WellScoped(e, environment) && (forall id | id in Binders(e) :: id !in more)
    ensures WellScoped(e, environment + more)
    decreases e, 0
  {
    match e
    case BlockExpression(body, parameters, locals) =>
      var ids := IdsOf(parameters, locals);
      WellScopedIn(body, environment + ids, more);
      assert environment + ids + more == environment + more + ids;
      forall id | id in ids
        ensures id in Binders(e) && id !in environment + more
      {
        assert id in parameters || id in locals;
        assert id in multiset(parameters) + multiset(locals);
      }
    case CallExpression(callee, arguments) =>
      WellScopedIn(callee, environment, more);
      AllWellScopedIn(arguments, environment, more);
    case ListExpression(items) => AllWellScopedIn(items, environment, more);
    case _ =>
  }

  lemma {:induction false} AllWellScopedIn(es: seq<Expression>, environment: set<int>, more: set<int>)
    requires AllWellScoped(es, environment) && (forall id | id in BindersOf(es) :: id !in more)
    ensures AllWellScoped(es, environment + more)
    decreases es, 0
  {
    if es != [] {
      WellScopedIn(es[0], environment, more);
      AllWellScopedIn(es[1..], environment, more);
    }
  }

  lemma {:induction false} Appended(es: seq<Expression>, fs: seq<Expression>, environment: set<int>)
    ensures BindersOf(es + fs) == BindersOf(es) + BindersOf(fs)
    ensures AllWellScoped(es, environment) && AllWellScoped(fs, environment) ==> AllWellScoped(es + fs, environment)
    decreases |es|
  {
    if es == [] {
      assert es + fs == fs;
    } else {
      assert (es + fs)[1..] == es[1..] + fs;
      Appended(es[1..], fs, environment);
    }
  }

  /**
   From one table to a later one, some expressions were made, and the innermost
   scope gained some locals. The expressions are well scoped in what is bound by
   then, and they and the locals have used only new ids, each once.
   */
  ghost predicate Made(t: Table, es: seq<Expression>, u: Table, added: seq<int>) {
    && Valid(u) && Grows(t, u, added)
    && AllWellScoped(es, Environment(u))
    && NoRepeats(BindersOf(es) + multiset(added))
    && InRange(BindersOf(es), t.next, u.next)
  }

  lemma GrowsFurther(t: Table, u: Table, v: Table, added: seq<int>, more: seq<int>)
    requires Grows(t, u, added) && Grows(u, v, more)
    ensures Grows(t, v, added + more)
  {
    assert Last(v).locals == Last(t).locals + (added + more);
  }

  lemma NoRepeatsTogether(a: multiset<int>, b: multiset<int>, low: int, middle: int, high: int)
    requires NoRepeats(a) && NoRepeats(b) && InRange(a, low, middle) && InRange(b, middle, high)
    ensures NoRepeats(a + b)
  {
    forall id
      ensures (a + b)[id] <= 1
    {
      assert id in a ==> id < middle;
      assert id in b ==> id >= middle;
      assert a[id] <= 1 && b[id] <= 1;
    }
  }

  lemma RangeWith(a: multiset<int>, added: seq<int>, low: int, high: int)
    requires InRange(a, low, high) && (forall id | id in added :: low <= id < high)
    ensures InRange(a + multiset(added), low, high)
  {
    forall id | id in a + multiset(added)
      ensures low <= id < high
    {
      assert id in a || id in multiset(added);
      assert id in multiset(added) ==> id in added;
    }
  }

  /** One after the other. */
  lemma MadeFurther(t: Table, es: seq<Expression>, u: Table, added: seq<int>, fs: seq<Expression>, v: Table,
                    more: seq<int>)
    requires Made(t, es, u, added) && Made(u, fs, v, more)
    ensures Made(t, es + fs, v, added + more)
  {
    GrowsFurther(t, u, v, added, more);
    GrownEnvironment(u, v, more);
    AllWellScopedIn(es, Environment(u), set id | id in more);
    Appended(es, fs, Environment(v));
    IdsFurther(BindersOf(es), added, BindersOf(fs), more, t.next, u.next, v.next);
  }

  lemma IdsFurther(a: multiset<int>, added: seq<int>, b: multiset<int>, more: seq<int>, low: int, middle: int,
                   high: int)
    requires NoRepeats(a + multiset(added)) && NoRepeats(b + multiset(more)) && low <= middle <= high
    requires InRange(a, low, middle) && InRange(b, middle, high)
    requires (forall id | id in added :: low <= id < middle) && (forall id | id in more :: middle <= id < high)
    ensures NoRepeats(a + b + multiset(added + more)) && InRange(a + b, low, high)
  {
    RangeWith(a, added, low, middle);
    RangeWith(b, more, middle, high);
    NoRepeatsTogether(a + multiset(added), b + multiset(more), low, middle, high);
    assert a + b + multiset(added + more) == (a + multiset(added)) + (b + multiset(more));
  }

  lemma NothingMade(t: Table)
    requires Valid(t) && t.scopes != []
    ensures Made(t, [], t, [])
  {
    assert Last(t).locals + [] == Last(t).locals;
  }

  /** A call of a built-in function, or of one of the expressions, binds what the expressions bind. */
  lemma MadeCall(t: Table, es: seq<Expression>, u: Table, added: seq<int>, id: int)
    requires Made(t, es, u, added) && id in Environment(u)
    ensures Made(t, [CallExpression(SymbolExpression(id), es)], u, added)
  {
    Alone(CallExpression(SymbolExpression(id), es), Environment(u));
    assert multiset{} + BindersOf(es) == BindersOf(es);
  }

  lemma Alone(e: Expression, environment: set<int>)
    ensures BindersOf([e]) == Binders(e)
    ensures AllWellScoped([e], environment) == WellScoped(e, environment)
  {
    assert [e][1..] == [];
    assert Binders(e) + multiset{} == Binders(e);
  }

  lemma MadeList(t: Table, es: seq<Expression>, u: Table, added: seq<int>)
    requires Made(t, es, u, added)
    ensures Made(t, [ListExpression(es)], u, added)
  {
    Alone(ListExpression(es), Environment(u));
  }

  lemma MadeSymbol(t: Table, id: int)
    requires Valid(t) && t.scopes != [] && id in Environment(t)
    ensures Made(t, [SymbolExpression(id)], t, [])
  {
    NothingMade(t);
    Alone(SymbolExpression(id), Environment(t));
  }

  // Scopes.

  /** A new parameter in the scope. */
  lemma ParameterAdded(t: Table, name: string)
    requires Valid(t) && t.scopes != [] && WithParameter(t, name).Some?
    ensures var u := WithParameter(t, name).value;
            && Valid(u) && u.externals == t.externals && u.next == t.next + 1
            && |u.scopes| == |t.scopes| && u.scopes[..|t.scopes| - 1] == t.scopes[..|t.scopes| - 1]
            && Last(u).parameters == Last(t).parameters + [t.next] && Last(u).locals == Last(t).locals
            && Environment(u) == Environment(t) + {t.next}
  {
    var u := WithParameter(t, name).value;
    var scope := Last(t).(names := Last(t).names[name := t.next], parameters := Last(t).parameters + [t.next]);
    assert u.scopes == t.scopes[..|t.scopes| - 1] + [scope];
    LastBound(t, u, scope);
    assert Bound(scope) == Bound(Last(t)) + {t.next};
    assert ExternalIds(t) + BoundIn(t.scopes[..|t.scopes| - 1]) + Bound(Last(t)) == Environment(t);
  }

  /** Inside a new scope whose parameters have new ids. */
  ghost predicate Inside(t: Table, u: Table) {
    && Valid(u) && u.externals == t.externals && t.next <= u.next
    && |u.scopes| == |t.scopes| + 1 && u.scopes[..|t.scopes|] == t.scopes
    && Last(u).locals == []
    && Environment(u) == Environment(t) + (set id | id in Last(u).parameters)
    && NoRepeats(multiset(Last(u).parameters)) && InRange(multiset(Last(u).parameters), t.next, u.next)
  }

  lemma InsideOneMore(t: Table, u: Table, name: string)
    requires Inside(t, u) && WithParameter(u, name).Some?
    ensures Inside(t, WithParameter(u, name).value)
  {
    ParameterAdded(u, name);
    var v := WithParameter(u, name).value;
    assert multiset(Last(v).parameters) == multiset(Last(u).parameters) + multiset{u.next};
    NoRepeatsTogether(multiset(Last(u).parameters), multiset{u.next}, t.next, u.next, v.next);
  }

  lemma {:induction false} InsideParameters(t: Table, u: Table, names: seq<string>)
    requires Inside(t, u) && WithParameters(u, names).Some?
    ensures Inside(t, WithParameters(u, names).value)
    decreases |names|
  {
    if names != [] {
      InsideOneMore(t, u, names[0]);
      InsideParameters(t, WithParameter(u, names[0]).value, names[1..]);
    }
  }

  lemma EnteredIsInside(t: Table, names: seq<string>)
    requires Valid(t) && Entered(t, names).Some?
    ensures Inside(t, Entered(t, names).value)
  {
    var u := t.(scopes := t.scopes + [EMPTY_SCOPE]);
    assert u.scopes[..|t.scopes|] == t.scopes && Bound(EMPTY_SCOPE) == {};
    assert ExternalIds(u) == ExternalIds(t);
    assert Environment(u) == Environment(t);
    InsideParameters(t, u, names);
  }

  /** Leaving the scope makes a block of what was made inside. */
  lemma MadeBlock(t: Table, u: Table, e: Expression, v: Table, added: seq<int>)
    requires Valid(t) && t.scopes != [] && Inside(t, u) && Made(u, [e], v, added)
    ensures Made(t, [BlockOf(e, v)], Left(v), [])
  {
    var block, parameters := BlockOf(e, v), Last(u).parameters;
    assert Last(v).parameters == parameters && Last(v).locals == added;
    GrownEnvironment(u, v, added);
    Alone(e, Environment(v));
    Alone(block, Environment(t));
    assert Environment(t) + IdsOf(parameters, added) == Environment(v);
    assert Left(v).scopes == t.scopes;
    assert Environment(Left(v)) == Environment(t);
    BlockIds(Binders(e), parameters, added, t.next, u.next, v.next);
    assert Binders(block) == multiset(parameters) + multiset(added) + Binders(e);
    assert Binders(block) + multiset([]) == Binders(block);
    assert Last(t).locals + [] == Last(t).locals;
    Disjoint(t, parameters, added, v.next);
  }

  lemma BlockIds(inner: multiset<int>, parameters: seq<int>, locals: seq<int>, low: int, middle: int, high: int)
    requires NoRepeats(multiset(parameters)) && InRange(multiset(parameters), low, middle) && low <= middle <= high
    requires NoRepeats(inner + multiset(locals)) && InRange(inner, middle, high)
    requires forall id | id in locals :: middle <= id < high
    ensures var all := multiset(parameters) + multiset(locals) + inner; NoRepeats(all) && InRange(all, low, high)
    ensures NoRepeats(multiset(parameters) + multiset(locals))
    ensures InRange(multiset(parameters) + multiset(locals), low, high)
  {
    var own, all := multiset(parameters) + multiset(locals), multiset(parameters) + multiset(locals) + inner;
    RangeWith(inner, locals, middle, high);
    assert InRange(multiset(parameters), low, high);
    RangeWith(multiset(parameters), locals, low, high);
    NoRepeatsTogether(multiset(parameters), inner + multiset(locals), low, middle, high);
    assert all == multiset(parameters) + (inner + multiset(locals));
    forall id
      ensures own[id] <= 1
    {
      assert own[id] <= all[id] <= 1;
    }
  }

  lemma Disjoint(t: Table, parameters: seq<int>, locals: seq<int>, high: int)
    requires Valid(t) && InRange(multiset(parameters) + multiset(locals), t.next, high)
    ensures IdsOf(parameters, locals) !! Environment(t)
  {
    forall id | id in IdsOf(parameters, locals)
      ensures id !in Environment(t)
    {
      assert id in parameters || id in locals;
      assert id in multiset(parameters) + multiset(locals);
    }
  }

  // Everything the reference makes is well scoped.

  lemma {:induction false} ResolvedIsMade(s: Source, t: Table) returns (added: seq<int>)
    requires Valid(t) && t.scopes != [] && Resolved(s, t).Some?
    ensures Made(t, [Resolved(s, t).value.0], Resolved(s, t).value.1, added)
    decreases s, 1
  {
    match s
    case Int(n) =>
      added := [];
      NothingMade(t);
      Alone(IntExpression(n), Environment(t));
    case Str(v) =>
      added := [];
      NothingMade(t);
      Alone(StringExpression(v), Environment(t));
    case Name(name) =>
      added := [];
      FoundIsBound(t, name, true);
      FoundIsBound(t, "get", false);
      MadeSymbol(t, Find(t, name, true).value);
      MadeCall(t, [SymbolExpression(Find(t, name, true).value)], t, [], Find(t, "get", false).value);
    case For(name, range, body) => added := ForIsMade(s, t);
    case Set(name, rhs) => added := SetIsMade(s, t);
    case While(condition, body) =>
      added := [];
      WhileIsMade(s, t);
    case Call(callee, arguments) => added := CallIsMade(s, t);
    case Block(body) =>
      added := [];
      BlockIsMade([], body, t);
    case List(items) =>
      added := AllIsMade(items, t);
      MadeList(t, ResolvedAll(items, t).value.0, ResolvedAll(items, t).value.1, added);
  }

  lemma {:induction false} ForIsMade(s: Source, t: Table) returns (added: seq<int>)
    requires s.For? && Valid(t) && t.scopes != [] && Resolved(s, t).Some?
    ensures Made(t, [Resolved(s, t).value.0], Resolved(s, t).value.1, added)
    decreases s, 0
  {
    var (range, u) := Resolved(s.range, t).value;
    added := ResolvedIsMade(s.range, t);
    var (block, v) := ResolvedBlock([s.name], s.body, u).value;
    BlockIsMade([s.name], s.body, u);
    MadeFurther(t, [range], u, added, [block], v, []);
    assert [range] + [block] == [range, block] && added + [] == added;
    FoundIsBound(v, "for", false);
    MadeCall(t, [range, block], v, added, Find(v, "for", false).value);
  }

  lemma {:induction false} SetIsMade(s: Source, t: Table) returns (added: seq<int>)
    requires s.Set? && Valid(t) && t.scopes != [] && Resolved(s, t).Some?
    ensures Made(t, [Resolved(s, t).value.0], Resolved(s, t).value.1, added)
    decreases s, 0
  {
    var (rhs, u) := Resolved(s.rhs, t).value;
    var first := ResolvedIsMade(s.rhs, t);
    var (id, v) := LocalVariable(u, s.name).value;
    var more := LocalVariableIsBound(u, s.name);
    assert Made(u, [], v, more) by {
      assert multiset{} + multiset(more) == multiset(more) && |more| <= 1;
    }
    MadeFurther(t, [rhs], u, first, [], v, more);
    added := first + more;
    assert [rhs] + [] == [rhs];
    SymbolFirst(t, rhs, v, added, id);
    FoundIsBound(v, "set", false);
    MadeCall(t, [SymbolExpression(id), rhs], v, added, Find(v, "set", false).value);
  }

  lemma SymbolFirst(t: Table, e: Expression, u: Table, added: seq<int>, id: int)
    requires Made(t, [e], u, added) && id in Environment(u)
    ensures Made(t, [SymbolExpression(id), e], u, added)
  {
    var es := [SymbolExpression(id), e];
    assert es[1..] == [e];
    assert multiset{} + BindersOf([e]) == BindersOf([e]);
  }

  lemma {:induction false} WhileIsMade(s: Source, t: Table)
    requires s.While? && Valid(t) && t.scopes != [] && Resolved(s, t).Some?
    ensures Made(t, [Resolved(s, t).value.0], Resolved(s, t).value.1, [])
    decreases s, 0
  {
    var (condition, u) := ResolvedCondition(s.condition, t).value;
    ConditionIsMade(s.condition, t);
    var (block, v) := ResolvedBlock([], s.body, u).value;
    BlockIsMade([], s.body, u);
    MadeFurther(t, [condition], u, [], [block], v, []);
    assert [condition] + [block] == [condition, block];
    FoundIsBound(v, "while", false);
    MadeCall(t, [condition, block], v, [], Find(v, "while", false).value);
  }

  lemma {:induction false} ConditionIsMade(condition: Source, t: Table)
    requires Valid(t) && t.scopes != [] && ResolvedCondition(condition, t).Some?
    ensures Made(t, [ResolvedCondition(condition, t).value.0], ResolvedCondition(condition, t).value.1, [])
    decreases condition, 2
  {
    var u := Entered(t, []).value;
    EnteredIsInside(t, []);
    var added := ResolvedIsMade(condition, u);
    MadeBlock(t, u, Resolved(condition, u).value.0, Resolved(condition, u).value.1, added);
  }

  lemma {:induction false} CallIsMade(s: Source, t: Table) returns (added: seq<int>)
    requires s.Call? && Valid(t) && t.scopes != [] && Resolved(s, t).Some?
    ensures Made(t, [Resolved(s, t).value.0], Resolved(s, t).value.1, added)
    decreases s, 0
  {
    var (callee, u) := Resolved(s.callee, t).value;
    var first := ResolvedIsMade(s.callee, t);
    var (arguments, v) := ResolvedAll(s.arguments, u).value;
    var more := AllIsMade(s.arguments, u);
    MadeFurther(t, [callee], u, first, arguments, v, more);
    added := first + more;
    var es := [callee] + arguments;
    assert es[0] == callee && es[1..] == arguments;
    Alone(CallExpression(callee, arguments), Environment(v));
  }

  lemma {:induction false} BlockIsMade(names: seq<string>, body: seq<Source>, t: Table)
    requires Valid(t) && t.scopes != [] && ResolvedBlock(names, body, t).Some?
    ensures Made(t, [ResolvedBlock(names, body, t).value.0], ResolvedBlock(names, body, t).value.1, [])
    decreases body, 1
  {
    var u := Entered(t, names).value;
    EnteredIsInside(t, names);
    var (items, v) := ResolvedAll(body, u).value;
    var added := AllIsMade(body, u);
    MadeList(u, items, v, added);
    MadeBlock(t, u, ListExpression(items), v, added);
  }

  lemma {:induction false} AllIsMade(sources: seq<Source>, t: Table) returns (added: seq<int>)
    requires Valid(t) && t.scopes != [] && ResolvedAll(sources, t).Some?
    ensures Made(t, ResolvedAll(sources, t).value.0, ResolvedAll(sources, t).value.1, added)
    decreases sources, 0
  {
    if sources == [] {
      added := [];
      NothingMade(t);
    } else {
      var (first, u) := Resolved(sources[0], t).value;
      var head := ResolvedIsMade(sources[0], t);
      var (others, v) := ResolvedAll(sources[1..], u).value;
      var tail := AllIsMade(sources[1..], u);
      MadeFurther(t, [first], u, head, others, v, tail);
      added := head + tail;
    }
  }

  /**
   Every file that the parser accepts becomes a block that is well scoped in the
   external symbols alone, all of whose binders, inner ones included, are
   pairwise distinct and different from the external ids.
   */
  lemma ParsedIsWellScoped(tokens: seq<Token>, t: Table)
    requires Valid(t) && t.scopes == [] && ParseFile(tokens, t).Some?
    ensures var (e, u) := ParseFile(tokens, t).value;
            && e.BlockExpression? && e.parameters == [] && WellScoped(e, ExternalIds(t))
            && NoRepeats(Binders(e)) && (forall id | id in Binders(e) :: id !in ExternalIds(t))
            && Valid(u) && u.scopes == [] && u.externals == t.externals
  {
    var (e, u) := ParseFile(tokens, t).value;
    var inner := Entered(t, []).value;
    EnteredIsInside(t, []);
    assert inner.scopes == [EMPTY_SCOPE];
    var sources := ItemsOnlyWritten(tokens, inner);
    ItemsAreWritten(sources, inner);
    var (items, v) := ResolvedAll(sources, inner).value;
    var added := AllIsMade(sources, inner);
    MadeList(inner, items, v, added);
    Alone(ListExpression(items), Environment(v));
    GrownEnvironment(inner, v, added);
    assert Environment(t) == ExternalIds(t) && Environment(u) == ExternalIds(u);
    assert Last(v).parameters == [] && Last(v).locals == added;
    assert NoRepeats(multiset([]));
    BlockIds(BindersOf(items), [], added, t.next, t.next, v.next);
    Disjoint(t, [], added, v.next);
    assert Environment(v) == ExternalIds(t) + IdsOf([], added);
  }
}

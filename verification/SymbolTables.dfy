/**
 The symbol table of the toy language (toy_lang/symbol_table.cc): a stack of
 scopes, each with the ids of its parameters and local variables, and the
 symbols that come from outside, of which some cannot be named in a program.
 */
module SymbolTables {
  import opened Wrappers
  import opened ToySyntax

  datatype External = External(id: int, visible: bool)

  datatype Scope = Scope(names: map<string, int>, parameters: seq<int>, locals: seq<int>)

  datatype Table = Table(scopes: seq<Scope>, externals: map<string, External>, next: int)

  const EMPTY_SCOPE := Scope(map[], [], [])

  const EMPTY_TABLE := Table([], map[], 1)

  /** The innermost scope that has the name decides. */
  function FindIn(scopes: seq<Scope>, name: string): Option<int>
    decreases |scopes|
  {
    if scopes == [] then None
    else if name in scopes[|scopes| - 1].names then Some(scopes[|scopes| - 1].names[name])
    else FindIn(scopes[..|scopes| - 1], name)
  }

  /** The scope at position i has the name, and no scope inside it has. */
  predicate Decides(scopes: seq<Scope>, name: string, i: int) {
    0 <= i < |scopes| && name in scopes[i].names && forall j | i < j < |scopes| :: name !in scopes[j].names
  }

  /** A name means what the innermost scope that has it says. */
  lemma {:induction false} InnermostDecides(scopes: seq<Scope>, name: string, i: int)
    requires Decides(scopes, name, i)
    ensures FindIn(scopes, name) == Some(scopes[i].names[name])
    decreases |scopes|
  {
    var n := |scopes| - 1;
    if i < n {
      assert name !in scopes[n].names;
      InnermostDecides(scopes[..n], name, i);
    }
  }

  /** And it means nothing exactly if no scope has it. */
  lemma {:induction false} NothingExactlyWhen(scopes: seq<Scope>, name: string)
    ensures FindIn(scopes, name).None? <==> forall i | 0 <= i < |scopes| :: name !in scopes[i].names
    decreases |scopes|
  {
    if scopes != [] {
      var n := |scopes| - 1;
      NothingExactlyWhen(scopes[..n], name);
      assert forall i | 0 <= i < n :: scopes[..n][i] == scopes[i];
    }
  }

  function Find(t: Table, name: string, visible: bool): Option<int> {
    if visible && FindIn(t.scopes, name).Some? then FindIn(t.scopes, name)
    else if name in t.externals && t.externals[name].visible == visible then Some(t.externals[name].id)
    else None
  }

  function WithLast(t: Table, scope: Scope): Table
    requires t.scopes != []
  {
    t.(scopes := t.scopes[..|t.scopes| - 1] + [scope])
  }

  function Last(t: Table): Scope
    requires t.scopes != []
  {
    t.scopes[|t.scopes| - 1]
  }

  /** A new symbol in the innermost scope has the next id. None stands for a check that fails. */
  function Created(t: Table, name: string): Option<(int, Table)> {
    if t.scopes == [] || name == "" || name in Last(t).names then None
    else Some((t.next, WithLast(t, Last(t).(names := Last(t).names[name := t.next])).(next := t.next + 1)))
  }

  function WithParameter(t: Table, name: string): Option<Table> {
    var created := Created(t, name);
    if created.None? then None
    else
      var (id, u) := created.value;
      Some(WithLast(u, Last(u).(parameters := Last(u).parameters + [id])))
  }

  function WithParameters(t: Table, names: seq<string>): Option<Table>
    decreases |names|
  {
    if names == [] then Some(t)
    else
      var u := WithParameter(t, names[0]);
      if u.None? then None else WithParameters(u.value, names[1..])
  }

  function Entered(t: Table, names: seq<string>): Option<Table> {
    WithParameters(t.(scopes := t.scopes + [EMPTY_SCOPE]), names)
  }

  function Left(t: Table): Table
    requires t.scopes != []
  {
    t.(scopes := t.scopes[..|t.scopes| - 1])
  }

  /** A variable that is set for the first time becomes a local of the innermost scope. */
  function LocalVariable(t: Table, name: string): Option<(int, Table)> {
    if Find(t, name, true).Some? then Some((Find(t, name, true).value, t))
    else
      var created := Created(t, name);
      if created.None? then None
      else
        var (id, u) := created.value;
        Some((id, WithLast(u, Last(u).(locals := Last(u).locals + [id]))))
  }

  function WithExternal(t: Table, name: string, visible: bool): Option<(int, Table)> {
    if name == "" || name in t.externals then None
    else Some((t.next, t.(externals := t.externals[name := External(t.next, visible)], next := t.next + 1)))
  }

  // What the operations mean for the names.

  /** From one table to the next only the one name has changed its meaning. */
  ghost predicate OnlyNames(t: Table, u: Table, name: string) {
    forall other, visible | other != name || !visible :: Find(u, other, visible) == Find(t, other, visible)
  }

  function NextIds(next: int, count: nat): seq<int> {
    seq(count, i => next + i)
  }

  /** The innermost scope has gained parameters: each name leads to its own new id, in order. */
  ghost predicate Gained(t: Table, names: seq<string>, u: Table) {
    && t.scopes != [] && |u.scopes| == |t.scopes| && u.scopes[..|t.scopes| - 1] == t.scopes[..|t.scopes| - 1]
    && u.externals == t.externals && u.next == t.next + |names|
    && Last(u).parameters == Last(t).parameters + NextIds(t.next, |names|) && Last(u).locals == Last(t).locals
    && Last(u).names.Keys == Last(t).names.Keys + (set name | name in names)
    && (forall name | name in Last(t).names :: Last(u).names[name] == Last(t).names[name])
    && forall i | 0 <= i < |names| :: Last(u).names[names[i]] == t.next + i
  }

  /** The names can be parameters of the innermost scope: none is empty, taken or repeated. */
  predicate CanGain(t: Table, names: seq<string>) {
    && t.scopes != []
    && (forall i | 0 <= i < |names| :: names[i] != "" && names[i] !in Last(t).names)
    && forall i, j | 0 <= i < j < |names| :: names[i] != names[j]
  }

  lemma OneParameter(t: Table, name: string)
    requires t.scopes != []
    ensures WithParameter(t, name).Some? <==> name != "" && name !in Last(t).names
    ensures WithParameter(t, name).Some? ==>
              var u := WithParameter(t, name).value;
              Gained(t, [name], u) && Last(u).names == Last(t).names[name := t.next]
  {
    if WithParameter(t, name).Some? {
      var u := WithParameter(t, name).value;
      assert Last(u).parameters == Last(t).parameters + [t.next] == Last(t).parameters + NextIds(t.next, 1);
    }
  }

  lemma {:induction false} ParametersMeaning(t: Table, names: seq<string>)
    requires t.scopes != []
    ensures WithParameters(t, names).Some? <==> CanGain(t, names)
    ensures WithParameters(t, names).Some? ==> Gained(t, names, WithParameters(t, names).value)
    decreases |names|
  {
    if names != [] {
      OneParameter(t, names[0]);
      if WithParameter(t, names[0]).Some? {
        var u := WithParameter(t, names[0]).value;
        ParametersMeaning(u, names[1..]);
        FirstThenOthers(t, names, u);
        if CanGain(u, names[1..]) {
          GainedFurther(t, names, u, WithParameters(t, names).value);
        }
      }
    }
  }

  lemma FirstThenOthers(t: Table, names: seq<string>, u: Table)
    requires names != [] && Gained(t, [names[0]], u) && names[0] != "" && names[0] !in Last(t).names
    ensures CanGain(t, names) <==> CanGain(u, names[1..])
  {
    var others := names[1..];
    assert forall i | 0 <= i < |others| :: others[i] == names[i + 1];
    if CanGain(u, others) {
      forall i | 0 < i < |names|
        ensures names[i] != "" && names[i] !in Last(t).names && names[i] != names[0]
      {
        assert names[i] == others[i - 1];
      }
      forall i, j | 0 <= i < j < |names|
        ensures names[i] != names[j]
      {
        assert names[j] == others[j - 1] && (i > 0 ==> names[i] == others[i - 1]);
      }
    }
  }

  lemma GainedFurther(t: Table, names: seq<string>, u: Table, v: Table)
    requires names != [] && Gained(t, [names[0]], u) && Gained(u, names[1..], v)
    ensures Gained(t, names, v)
  {
    var others := names[1..];
    assert names == [names[0]] + others;
    assert NextIds(t.next, |names|) == NextIds(t.next, 1) + NextIds(u.next, |others|);
    forall i | 0 <= i < |names|
      ensures Last(v).names[names[i]] == t.next + i
    {
      assert i > 0 ==> names[i] == others[i - 1];
      assert [names[0]][0] == names[0];
    }
  }

  /**
   A scope can be entered exactly if its parameters have different, non-empty
   names. Then the parameters have the next ids in order, their names lead to
   them, and leaving the scope again gives back the table but for the ids used up.
   */
  lemma EnteredExactlyWhen(t: Table, names: seq<string>)
    ensures var inner := t.(scopes := t.scopes + [EMPTY_SCOPE]);
            && (Entered(t, names).Some? <==> CanGain(inner, names))
            && (Entered(t, names).Some? ==>
                  && Gained(inner, names, Entered(t, names).value)
                  && Left(Entered(t, names).value) == t.(next := t.next + |names|))
  {
    ParametersMeaning(t.(scopes := t.scopes + [EMPTY_SCOPE]), names);
  }

  lemma CreatedMeaning(t: Table, name: string)
    requires Created(t, name).Some?
    ensures var (id, u) := Created(t, name).value;
            && id == t.next && u.next == t.next + 1
            && Find(u, name, true) == Some(id) && OnlyNames(t, u, name)
  {
    var (id, u) := Created(t, name).value;
    SameBelow(t, u, name);
  }

  /**
   Setting a variable works exactly if its name is visible, or could be a local of
   the innermost scope. Then the name leads to the id given, and no other name has
   changed.
   */
  lemma LocalVariableMeaning(t: Table, name: string)
    ensures LocalVariable(t, name).Some? <==> Find(t, name, true).Some? || (t.scopes != [] && name != "")
    ensures LocalVariable(t, name).Some? ==>
              var (id, u) := LocalVariable(t, name).value;
              && Find(u, name, true) == Some(id) && OnlyNames(t, u, name)
              && (Find(t, name, true).None? ==> id == t.next && u.next == t.next + 1)
  {
    if LocalVariable(t, name).Some? && Find(t, name, true).None? {
      var (id, u) := LocalVariable(t, name).value;
      SameBelow(t, u, name);
    }
  }

  /** Two tables that differ in one name of the innermost scope. */
  lemma SameBelow(t: Table, u: Table, name: string)
    requires t.scopes != [] && u.externals == t.externals
    requires |u.scopes| == |t.scopes| && u.scopes[..|t.scopes| - 1] == t.scopes[..|t.scopes| - 1]
    requires forall other | other != name ::
               && (other in Last(u).names <==> other in Last(t).names)
               && (other in Last(t).names ==> Last(u).names[other] == Last(t).names[other])
    ensures OnlyNames(t, u, name)
  {
    forall other | other != name
      ensures FindIn(u.scopes, other) == FindIn(t.scopes, other)
    {
      assert other in Last(u).names <==> other in Last(t).names;
    }
  }

  // What the ids mean.

  function Bound(scope: Scope): set<int> {
    (set id | id in scope.parameters) + (set id | id in scope.locals)
  }

  function BoundIn(scopes: seq<Scope>): set<int>
    decreases |scopes|
  {
    if scopes == [] then {} else BoundIn(scopes[..|scopes| - 1]) + Bound(scopes[|scopes| - 1])
  }

  function ExternalIds(t: Table): set<int> {
    set name | name in t.externals :: t.externals[name].id
  }

  /** The ids a program may use here: the externals, and what the enclosing scopes bind. */
  function Environment(t: Table): set<int> {
    ExternalIds(t) + BoundIn(t.scopes)
  }

  /** Every name leads to an id bound by its scope, and the ids given out are below the next one. */
  ghost predicate Valid(t: Table) {
    && (forall i, name | 0 <= i < |t.scopes| && name in t.scopes[i].names ::
          t.scopes[i].names[name] in Bound(t.scopes[i]))
    && (forall id | id in Environment(t) :: 0 < id < t.next)
    && 0 < t.next
  }

  /** Adding external symbols, before any scope is entered, gives a valid table and a new id. */
  lemma ExternalIsNew(t: Table, name: string, visible: bool)
    requires Valid(t) && t.scopes == [] && WithExternal(t, name, visible).Some?
    ensures var (id, u) := WithExternal(t, name, visible).value;
            && Valid(u) && u.scopes == [] && id !in ExternalIds(t) && ExternalIds(u) == ExternalIds(t) + {id}
            && Find(u, name, visible) == Some(id) && Find(u, name, !visible) == None
  {
    var (id, u) := WithExternal(t, name, visible).value;
    assert forall n | n in t.externals :: t.externals[n].id in ExternalIds(t) && u.externals[n] == t.externals[n];
    assert u.externals[name].id == id;
    assert Environment(t) == ExternalIds(t) && Environment(u) == ExternalIds(u);
  }

  lemma {:induction false} FindInIsBound(scopes: seq<Scope>, name: string)
    requires forall i, name | 0 <= i < |scopes| && name in scopes[i].names :: scopes[i].names[name] in Bound(scopes[i])
    ensures FindIn(scopes, name).Some? ==> FindIn(scopes, name).value in BoundIn(scopes)
    decreases |scopes|
  {
    if scopes != [] {
      FindInIsBound(scopes[..|scopes| - 1], name);
    }
  }

  /** Whatever a name is found to mean is in the environment. */
  lemma FoundIsBound(t: Table, name: string, visible: bool)
    requires Valid(t)
    ensures Find(t, name, visible).Some? ==> Find(t, name, visible).value in Environment(t)
  {
    FindInIsBound(t.scopes, name);
  }

  /**
   From one table to a later one inside the same scope: the enclosing scopes and
   the externals stay, and the innermost scope gains the new locals.
   */
  ghost predicate Grows(t: Table, u: Table, added: seq<int>) {
    && t.scopes != [] && u.scopes != []
    && u.externals == t.externals && t.next <= u.next
    && |u.scopes| == |t.scopes| && u.scopes[..|t.scopes| - 1] == t.scopes[..|t.scopes| - 1]
    && Last(u).parameters == Last(t).parameters && Last(u).locals == Last(t).locals + added
    && (forall id | id in added :: t.next <= id < u.next)
  }

  lemma GrownEnvironment(t: Table, u: Table, added: seq<int>)
    requires Grows(t, u, added)
    ensures Environment(u) == Environment(t) + (set id | id in added)
  {
    assert Bound(Last(u)) == Bound(Last(t)) + (set id | id in added);
    assert ExternalIds(u) == ExternalIds(t);
  }

  lemma LastBound(t: Table, u: Table, scope: Scope)
    requires t.scopes != [] && u.externals == t.externals && u.scopes == t.scopes[..|t.scopes| - 1] + [scope]
    ensures Environment(u) == ExternalIds(t) + BoundIn(t.scopes[..|t.scopes| - 1]) + Bound(scope)
  {
    assert u.scopes[..|u.scopes| - 1] == t.scopes[..|t.scopes| - 1];
    assert ExternalIds(u) == ExternalIds(t);
  }

  /**
   Setting a variable keeps the table valid and gives an id of the environment,
   new exactly if the name was not visible.
   */
  lemma LocalVariableIsBound(t: Table, name: string) returns (added: seq<int>)
    requires Valid(t) && t.scopes != [] && LocalVariable(t, name).Some?
    ensures var (id, u) := LocalVariable(t, name).value;
            && Valid(u) && Grows(t, u, added) && id in Environment(u) && |added| <= 1
            && (added == [id] <==> Find(t, name, true).None?)
  {
    FoundIsBound(t, name, true);
    if Find(t, name, true).Some? {
      added := [];
    } else {
      added := [t.next];
      var (id, u) := LocalVariable(t, name).value;
      var scope := Last(t).(names := Last(t).names[name := t.next], locals := Last(t).locals + [t.next]);
      assert u.scopes == t.scopes[..|t.scopes| - 1] + [scope];
      assert Bound(scope) == Bound(Last(t)) + {t.next};
      GrownEnvironment(t, u, added);
    }
  }

  /** The methods answer false, or None, where the source stops the program with a failed check. */
  class SymbolTable {
    var scopes: seq<Scope>
    var externals: map<string, External>
    var next: int

    ghost function Value(): Table
      reads this
    {
      Table(scopes, externals, next)
    }

    constructor ()
      ensures Value() == EMPTY_TABLE
    {
      scopes, externals, next := [], map[], 1;
    }

    method CreateSymbol(name: string) returns (r: Option<int>)
      modifies this
      ensures match Created(old(Value()), name)
              case None => r == None && Value() == old(Value())
              case Some((id, u)) => r == Some(id) && Value() == u
      ensures r.None? <==> old(scopes) == [] || name == "" || name in Last(old(Value())).names
    {
      if scopes == [] || name == "" {
        return None;
      }
      var last := scopes[|scopes| - 1];
      if name in last.names {
        return None;
      }
      r := Some(next);
      scopes := scopes[..|scopes| - 1] + [last.(names := last.names[name := next])];
      next := next + 1;
    }

    method EnterScope(names: seq<string>) returns (ok: bool)
      modifies this
      ensures match Entered(old(Value()), names)
              case None => !ok
              case Some(u) => ok && Value() == u
      ensures var inner := old(Value()).(scopes := old(scopes) + [EMPTY_SCOPE]);
              (ok <==> CanGain(inner, names)) && (ok ==> Gained(inner, names, Value()))
    {
      EnteredExactlyWhen(Value(), names);
      scopes := scopes + [EMPTY_SCOPE];
      ghost var entered := Value();
      for i := 0 to |names|
        invariant scopes != [] && WithParameters(entered, names) == WithParameters(Value(), names[i..])
      {
        assert names[i..][0] == names[i] && names[i..][1..] == names[i + 1..];
        ghost var before := Value();
        var id := CreateSymbol(names[i]);
        if id.None? {
          return false;
        }
        var last := scopes[|scopes| - 1];
        scopes := scopes[..|scopes| - 1] + [last.(parameters := last.parameters + [id.value])];
        assert WithParameter(before, names[i]) == Some(Value());
      }
      ok := true;
    }

    method LeaveScope() returns (parameters: seq<int>, locals: seq<int>)
      requires scopes != []
      modifies this
      ensures Value() == Left(old(Value()))
      ensures parameters == Last(old(Value())).parameters && locals == Last(old(Value())).locals
    {
      var last := scopes[|scopes| - 1];
      parameters, locals := last.parameters, last.locals;
      scopes := scopes[..|scopes| - 1];
    }

    predicate IsScopedName(name: string)
      reads this
    {
      exists i | 0 <= i < |scopes| :: name in scopes[i].names
    }

    predicate IsExternal(name: string, visible: bool)
      reads this
    {
      name in externals && externals[name].visible == visible
    }

    method PrivateGetSymbolId(name: string, visible: bool) returns (r: Option<int>)
      ensures r == Find(Value(), name, visible)
      ensures visible ==> forall i | Decides(scopes, name, i) :: r == Some(scopes[i].names[name])
      ensures !visible || !IsScopedName(name) ==>
                r == if IsExternal(name, visible) then Some(externals[name].id) else None
    {
      NothingExactlyWhen(scopes, name);
      if visible {
        var i := |scopes|;
        while i > 0
          invariant 0 <= i <= |scopes| && forall j | i <= j < |scopes| :: name !in scopes[j].names
        {
          i := i - 1;
          if name in scopes[i].names {
            InnermostDecides(scopes, name, i);
            return Some(scopes[i].names[name]);
          }
        }
      }
      if name in externals && externals[name].visible == visible {
        return Some(externals[name].id);
      }
      r := None;
    }

    method GetLocalVariable(name: string) returns (r: Option<int>)
      modifies this
      ensures match LocalVariable(old(Value()), name)
              case None => r == None
              case Some((id, u)) => r == Some(id) && Value() == u
      ensures r.Some? <==> Find(old(Value()), name, true).Some? || (old(scopes) != [] && name != "")
      ensures r.Some? ==> Find(Value(), name, true) == r && OnlyNames(old(Value()), Value(), name)
    {
      LocalVariableMeaning(Value(), name);
      r := PrivateGetSymbolId(name, true);
      if r.None? {
        r := CreateSymbol(name);
        if r.Some? {
          var last := scopes[|scopes| - 1];
          scopes := scopes[..|scopes| - 1] + [last.(locals := last.locals + [r.value])];
        }
      }
    }

    method AddExternalSymbol(name: string, visible: bool) returns (r: Option<int>)
      modifies this
      ensures match WithExternal(old(Value()), name, visible)
              case None => r == None && Value() == old(Value())
              case Some((id, u)) => r == Some(id) && Value() == u
      ensures r.None? <==> name == "" || name in old(externals)
    {
      if name == "" || name in externals {
        return None;
      }
      r := Some(next);
      externals, next := externals[name := External(next, visible)], next + 1;
    }
  }
}

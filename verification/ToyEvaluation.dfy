/**
 Evaluation of the trees (toy_lang/expression.cc) and of the code blocks that a
 block expression evaluates to (toy_lang/code_block.cc). Objects are numbered as
 they are created. What a method call answers is not modelled: an evaluation is
 given a list of answers, and None, or the end of the list, means that the
 engine is rewinding, so that the evaluation returns at once.
 */
module ToyEvaluation {
  import opened Wrappers
  import opened ToySyntax
  import opened SymbolTables
  import opened ToyParser
  import opened ToyScoping

  type Object = nat

  type Bindings = map<int, Object>

  datatype CodeBlock = CodeBlock(body: Expression, externals: Bindings, parameters: seq<int>, locals: seq<int>)

  datatype Content =
    | IntObject(n: int)
    | StringObject(s: string)
    | BlockObject(block: CodeBlock)
    | ListObject(items: seq<Object>)
    | VariableObject

  /** What an evaluation does to the engine: it creates objects, and calls a function object with a list object. */
  datatype Event = Created(object: Object, content: Content) | Called(callee: Object, list: Object)

  /** The number of the next object, the answers to calls and how many of them are used up, and what was done so far. */
  datatype Context = Context(next: Object, answers: seq<Option<Object>>, used: nat, log: seq<Event>)

  /** A value, or an early return, or a failed check. */
  datatype Result<+T> = CheckFailed | Rewinding(context: Context) | Value(value: T, context: Context)

  function Create(c: Context, content: Content): Result<Object> {
    Value(c.next, c.(next := c.next + 1, log := c.log + [Created(c.next, content)]))
  }

  /** The next answer. */
  function CallMethod(c: Context, callee: Object, list: Object): Result<Object> {
    var d := c.(log := c.log + [Called(callee, list)]);
    if c.used >= |c.answers| then Rewinding(d)
    else if c.answers[c.used].None? then Rewinding(d.(used := c.used + 1))
    else Value(c.answers[c.used].value, d.(used := c.used + 1))
  }

  function Evaluate(e: Expression, bindings: Bindings, c: Context): Result<Object>
    decreases e, 0
  {
    match e
    case IntExpression(n) => Create(c, IntObject(n))
    case StringExpression(s) => Create(c, StringObject(s))
    case SymbolExpression(id) => if id in bindings then Value(bindings[id], c) else CheckFailed
    case BlockExpression(body, parameters, locals) =>
      Create(c, BlockObject(CodeBlock(body, bindings, parameters, locals)))
    case CallExpression(callee, arguments) =>
      (match Evaluate(callee, bindings, c)
       case CheckFailed => CheckFailed
       case Rewinding(d) => Rewinding(d)
       case Value(function_, d) =>
         match EvaluateList(arguments, bindings, d)
         case CheckFailed => CheckFailed
         case Rewinding(f) => Rewinding(f)
         case Value(list, f) => CallMethod(f, function_, list))
    case ListExpression(items) => EvaluateList(items, bindings, c)
  }

  /** The values of the expressions, in order; then a list object is created for them. */
  function EvaluateList(es: seq<Expression>, bindings: Bindings, c: Context): Result<Object>
    decreases es, 1
  {
    Listed(EvaluateAll(es, bindings, c))
  }

  function Listed(items: Result<seq<Object>>): Result<Object> {
    match items
    case CheckFailed => CheckFailed
    case Rewinding(d) => Rewinding(d)
    case Value(values, d) => Create(d, ListObject(values))
  }

  function EvaluateAll(es: seq<Expression>, bindings: Bindings, c: Context): (r: Result<seq<Object>>)
    decreases es, 0
  {
    if es == [] then Value([], c) else
    match Evaluate(es[0], bindings, c)
    case CheckFailed => CheckFailed
    case Rewinding(d) => Rewinding(d)
    case Value(first, d) =>
      match EvaluateAll(es[1..], bindings, d)
      case CheckFailed => CheckFailed
      case Rewinding(f) => Rewinding(f)
      case Value(others, f) => Value([first] + others, f)
  }

  /** Binds the ids one after the other; each must be new. */
  function Bind(bindings: Bindings, ids: seq<int>, objects: seq<Object>): Option<Bindings>
    requires |ids| == |objects|
    decreases |ids|
  {
    if ids == [] then Some(bindings)
    else if ids[0] in bindings then None
    else Bind(bindings[ids[0] := objects[0]], ids[1..], objects[1..])
  }

  /** The objects that come next. */
  function NextObjects(next: Object, count: nat): seq<Object> {
    seq(count, i requires 0 <= i => next + i)
  }

  function BlockBindings(block: CodeBlock, arguments: seq<Object>, next: Object): Option<Bindings> {
    if |arguments| != |block.parameters| then None
    else
      var bound := Bind(block.externals, block.parameters, arguments);
      if bound.None? then None else Bind(bound.value, block.locals, NextObjects(next, |block.locals|))
  }

  /** After so many variables have been created, all unset. */
  function WithVariables(c: Context, count: nat): Context {
    c.(next := c.next + count, log := c.log + seq(count, i requires 0 <= i => Created(c.next + i, VariableObject)))
  }

  function EvaluateBlock(block: CodeBlock, arguments: seq<Object>, c: Context): Result<Object> {
    var bindings := BlockBindings(block, arguments, c.next);
    if bindings.None? then CheckFailed
    else Evaluate(block.body, bindings.value, WithVariables(c, |block.locals|))
  }

  // What the bindings are.

  /** The ids are new, and each occurs once. */
  ghost predicate Bindable(bindings: Bindings, ids: seq<int>) {
    NoRepeats(multiset(ids)) && forall id | id in ids :: id !in bindings
  }

  /** The bindings with each id bound to the object at its own position. */
  ghost predicate Extends(bindings: Bindings, ids: seq<int>, objects: seq<Object>, after: Bindings)
    requires |ids| == |objects|
  {
    && after.Keys == bindings.Keys + (set id | id in ids)
    && (forall id | id in bindings :: after[id] == bindings[id])
    && forall i | 0 <= i < |ids| :: after[ids[i]] == objects[i]
  }

  lemma Separate(first: int, others: seq<int>, all: multiset<int>)
    requires all == multiset{first} + multiset(others) && NoRepeats(all)
    ensures NoRepeats(multiset(others)) && first !in others
  {
    assert all[first] <= 1;
    forall id
      ensures multiset(others)[id] <= 1
    {
      assert all[id] <= 1;
    }
    assert multiset(others)[first] == 0;
  }

  lemma OneMoreBindable(bindings: Bindings, ids: seq<int>, first: Object)
    requires ids != []
    ensures Bindable(bindings, ids) <==> ids[0] !in bindings && Bindable(bindings[ids[0] := first], ids[1..])
  {
    var id, others := ids[0], ids[1..];
    assert ids == [id] + others;
    if Bindable(bindings, ids) {
      Separate(id, others, multiset(ids));
    }
    if id !in bindings && Bindable(bindings[id := first], others) {
      assert id !in others;
      forall x
        ensures multiset(ids)[x] <= 1
      {
        assert multiset(others)[x] <= 1;
      }
    }
  }

  /** Ids can be bound one after the other exactly if they are new, each once; then each is bound to its own object. */
  lemma {:induction false} BindsExactlyWhen(bindings: Bindings, ids: seq<int>, objects: seq<Object>)
    requires |ids| == |objects|
    ensures Bind(bindings, ids, objects).Some? <==> Bindable(bindings, ids)
    ensures Bind(bindings, ids, objects).Some? ==> Extends(bindings, ids, objects, Bind(bindings, ids, objects).value)
    decreases |ids|
  {
    if ids != [] {
      OneMoreBindable(bindings, ids, objects[0]);
      if ids[0] !in bindings {
        var more := bindings[ids[0] := objects[0]];
        BindsExactlyWhen(more, ids[1..], objects[1..]);
        if Bindable(bindings, ids) {
          ExtendsFurther(bindings, ids, objects, Bind(bindings, ids, objects).value);
        }
      }
    }
  }

  lemma ExtendsFurther(bindings: Bindings, ids: seq<int>, objects: seq<Object>, after: Bindings)
    requires |ids| == |objects| && ids != [] && ids[0] !in bindings
    requires Extends(bindings[ids[0] := objects[0]], ids[1..], objects[1..], after)
    ensures Extends(bindings, ids, objects, after)
  {
    assert ids == [ids[0]] + ids[1..];
    var more := bindings[ids[0] := objects[0]];
    assert forall id | id in more :: after[id] == more[id];
    assert more[ids[0]] == objects[0] && after[ids[0]] == more[ids[0]];
    forall i | 0 <= i < |ids|
      ensures after[ids[i]] == objects[i]
    {
      assert i > 0 ==> ids[i] == ids[1..][i - 1] && objects[i] == objects[1..][i - 1];
    }
  }

  /** Each external symbol, parameter and local is bound to its own object, and nothing else is bound. */
  ghost predicate Binds(block: CodeBlock, arguments: seq<Object>, next: Object, bindings: Bindings)
    requires |arguments| == |block.parameters|
  {
    && bindings.Keys == block.externals.Keys + IdsOf(block.parameters, block.locals)
    && (forall id | id in block.externals :: bindings[id] == block.externals[id])
    && (forall i | 0 <= i < |arguments| :: bindings[block.parameters[i]] == arguments[i])
    && forall i | 0 <= i < |block.locals| :: bindings[block.locals[i]] == next + i
  }

  ghost predicate BindsNewIds(block: CodeBlock) {
    Bindable(block.externals, block.parameters + block.locals)
  }

  lemma BindableApart(bindings: Bindings, ids: seq<int>, objects: seq<Object>, more: seq<int>, after: Bindings)
    requires |ids| == |objects| && Extends(bindings, ids, objects, after) && Bindable(bindings, ids)
    ensures Bindable(bindings, ids + more) <==> Bindable(after, more)
  {
    assert multiset(ids + more) == multiset(ids) + multiset(more);
    if Bindable(bindings, ids + more) {
      forall id
        ensures multiset(more)[id] <= 1 && (id in more ==> id !in after)
      {
        assert multiset(ids + more)[id] <= 1;
        assert id in more ==> id in ids + more && id in multiset(more);
        assert id in ids ==> id in multiset(ids);
      }
    }
    if Bindable(after, more) {
      forall id
        ensures multiset(ids + more)[id] <= 1
      {
        assert multiset(ids)[id] <= 1 && multiset(more)[id] <= 1;
        assert id in multiset(ids) ==> id in ids;
        assert id in multiset(more) ==> id in more;
      }
    }
  }

  lemma BindableFirst(bindings: Bindings, ids: seq<int>, more: seq<int>)
    requires Bindable(bindings, ids + more)
    ensures Bindable(bindings, ids)
  {
    assert multiset(ids + more) == multiset(ids) + multiset(more);
    forall id
      ensures multiset(ids)[id] <= 1
    {
      assert multiset(ids + more)[id] <= 1;
    }
    assert forall id | id in ids :: id in ids + more;
  }

  lemma BindsBoth(block: CodeBlock, arguments: seq<Object>, next: Object, bound: Bindings, after: Bindings)
    requires |arguments| == |block.parameters| && Extends(block.externals, block.parameters, arguments, bound)
    requires Extends(bound, block.locals, NextObjects(next, |block.locals|), after)
    ensures Binds(block, arguments, next, after)
  {
    assert forall id | id in bound :: after[id] == bound[id];
    forall i | 0 <= i < |arguments|
      ensures after[block.parameters[i]] == arguments[i]
    {
      assert block.parameters[i] in bound;
    }
    forall i | 0 <= i < |block.locals|
      ensures after[block.locals[i]] == next + i
    {
      assert NextObjects(next, |block.locals|)[i] == next + i;
    }
  }

  /** A code block can be given bindings exactly if the count is right and no id is bound twice. */
  lemma BlockBindsExactlyWhen(block: CodeBlock, arguments: seq<Object>, next: Object)
    ensures BlockBindings(block, arguments, next).Some? <==>
            |arguments| == |block.parameters| && BindsNewIds(block)
    ensures BlockBindings(block, arguments, next).Some? ==>
              Binds(block, arguments, next, BlockBindings(block, arguments, next).value)
  {
    if |arguments| == |block.parameters| {
      BindsExactlyWhen(block.externals, block.parameters, arguments);
      var bound := Bind(block.externals, block.parameters, arguments);
      if bound.Some? {
        BindsExactlyWhen(bound.value, block.locals, NextObjects(next, |block.locals|));
        BindableApart(block.externals, block.parameters, arguments, block.locals, bound.value);
        if BindsNewIds(block) {
          BindsBoth(block, arguments, next, bound.value, BlockBindings(block, arguments, next).value);
        }
      } else if BindsNewIds(block) {
        BindableFirst(block.externals, block.parameters, block.locals);
      }
    }
  }

  /** CodeBlock::Evaluate up to the evaluation of the body. */
  method BindSymbols(block: CodeBlock, arguments: seq<Object>, c: Context) returns (r: Option<Bindings>, after: Context)
    ensures r == BlockBindings(block, arguments, c.next)
    ensures r.Some? <==> |arguments| == |block.parameters| && BindsNewIds(block)
    ensures r.Some? ==> Binds(block, arguments, c.next, r.value) && after == WithVariables(c, |block.locals|)
  {
    BlockBindsExactlyWhen(block, arguments, c.next);
    after := c;
    if |arguments| != |block.parameters| {
      return None, after;
    }
    var bindings: Bindings := block.externals;
    for i := 0 to |arguments|
      invariant Bind(block.externals, block.parameters, arguments) ==
                Bind(bindings, block.parameters[i..], arguments[i..])
    {
      assert block.parameters[i..][1..] == block.parameters[i + 1..] && arguments[i..][1..] == arguments[i + 1..];
      if block.parameters[i] in bindings {
        return None, after;
      }
      bindings := bindings[block.parameters[i] := arguments[i]];
    }
    r, after := BindLocals(block, bindings, c);
  }

  /** The second loop, which creates the variables. */
  method BindLocals(block: CodeBlock, bound: Bindings, c: Context) returns (r: Option<Bindings>, after: Context)
    ensures r == Bind(bound, block.locals, NextObjects(c.next, |block.locals|))
    ensures r.Some? ==> after == WithVariables(c, |block.locals|)
  {
    after := c;
    var bindings: Bindings := bound;
    ghost var created := NextObjects(c.next, |block.locals|);
    for i := 0 to |block.locals|
      invariant after == WithVariables(c, i)
      invariant Bind(bound, block.locals, created) == Bind(bindings, block.locals[i..], created[i..])
    {
      assert block.locals[i..][1..] == block.locals[i + 1..] && created[i..][1..] == created[i + 1..];
      if block.locals[i] in bindings {
        return None, after;
      }
      bindings := bindings[block.locals[i] := after.next];
      after := Create(after, VariableObject).context;
    }
    r := Some(bindings);
  }

  // Good code blocks.

  ghost predicate Good(block: CodeBlock) {
    WellScoped(BlockExpression(block.body, block.parameters, block.locals), block.externals.Keys)
  }

  predicate IsBlock(event: Event) {
    event.Created? && event.content.BlockObject?
  }

  ghost predicate AllGood(log: seq<Event>) {
    forall i | 0 <= i < |log| && IsBlock(log[i]) :: Good(log[i].content.block)
  }

  /** What an evaluation leaves behind, when it does not fail. */
  ghost predicate Fine<T>(r: Result<T>, c: Context) {
    !r.CheckFailed? && c.log <= r.context.log && AllGood(r.context.log)
  }

  /** A well-scoped expression never meets an unbound symbol, and creates good code blocks only. */
  lemma {:induction false} WellScopedIsFine(e: Expression, bindings: Bindings, c: Context)
    requires WellScoped(e, bindings.Keys) && AllGood(c.log)
    ensures Fine(Evaluate(e, bindings, c), c)
    decreases e, 0
  {
    match e
    case CallExpression(callee, arguments) =>
      WellScopedIsFine(callee, bindings, c);
      var f := Evaluate(callee, bindings, c);
      if f.Value? {
        ListIsFine(arguments, bindings, f.context);
      }
    case ListExpression(items) => ListIsFine(items, bindings, c);
    case BlockExpression(body, parameters, locals) =>
      assert Good(CodeBlock(body, bindings, parameters, locals));
    case _ =>
  }

  lemma {:induction false} ListIsFine(es: seq<Expression>, bindings: Bindings, c: Context)
    requires AllWellScoped(es, bindings.Keys) && AllGood(c.log)
    ensures Fine(EvaluateList(es, bindings, c), c) && Fine(EvaluateAll(es, bindings, c), c)
    decreases es, 0
  {
    if es != [] {
      WellScopedIsFine(es[0], bindings, c);
      var first := Evaluate(es[0], bindings, c);
      if first.Value? {
        ListIsFine(es[1..], bindings, first.context);
      }
    }
  }

  lemma GoodBinds(block: CodeBlock)
    requires Good(block)
    ensures BindsNewIds(block)
  {
    assert multiset(block.parameters + block.locals) == multiset(block.parameters) + multiset(block.locals);
    assert forall id | id in block.parameters + block.locals :: id in IdsOf(block.parameters, block.locals);
  }

  /**
   A good code block fails exactly when it is given the wrong number of arguments;
   otherwise it creates only good ones.
   */
  lemma GoodFailsExactlyWhen(block: CodeBlock, arguments: seq<Object>, c: Context)
    requires Good(block) && AllGood(c.log)
    ensures EvaluateBlock(block, arguments, c).CheckFailed? <==> |arguments| != |block.parameters|
    ensures |arguments| == |block.parameters| ==> Fine(EvaluateBlock(block, arguments, c), c)
  {
    GoodBinds(block);
    BlockBindsExactlyWhen(block, arguments, c.next);
    if |arguments| == |block.parameters| {
      WellScopedIsFine(block.body, BlockBindings(block, arguments, c.next).value, WithVariables(c, |block.locals|));
    }
  }

  // What an evaluation does, read off the tree.

  /** The method calls an evaluation makes; the calls inside blocks are left to the code blocks. */
  function Calls(e: Expression): nat {
    match e
    case CallExpression(callee, arguments) => Calls(callee) + CallsOf(arguments) + 1
    case ListExpression(items) => CallsOf(items)
    case _ => 0
  }

  function CallsOf(es: seq<Expression>): nat {
    if es == [] then 0 else Calls(es[0]) + CallsOf(es[1..])
  }

  /** The objects it creates: one for each literal, block, list and argument list. */
  function Objects(e: Expression): nat {
    match e
    case SymbolExpression(_) => 0
    case CallExpression(callee, arguments) => Objects(callee) + ObjectsOf(arguments) + 1
    case ListExpression(items) => ObjectsOf(items) + 1
    case _ => 1
  }

  function ObjectsOf(es: seq<Expression>): nat {
    if es == [] then 0 else Objects(es[0]) + ObjectsOf(es[1..])
  }

  predicate HasAnswer(answers: seq<Option<Object>>, k: int) {
    0 <= k < |answers| && answers[k].Some?
  }

  /** The answer at a position, where there is one. */
  function Answer(answers: seq<Option<Object>>, k: int): Object {
    if HasAnswer(answers, k) then answers[k].value else 0
  }

  /**
   What an expression means where the next object has this number and so many
   answers are used up: a symbol what it is bound to, a call its own, last, answer,
   and everything else the last object it creates.
   */
  function ValueOf(e: Expression, bindings: Bindings, answers: seq<Option<Object>>, next: Object, used: nat): Object {
    match e
    case SymbolExpression(id) => if id in bindings then bindings[id] else 0
    case CallExpression(_, _) => Answer(answers, used + Calls(e) - 1)
    case _ => next + Objects(e) - 1
  }

  /** The i-th of the expressions means what it means after those before it. */
  function ValuesOf(es: seq<Expression>, bindings: Bindings, answers: seq<Option<Object>>, next: Object, used: nat)
    : seq<Object>
  {
    seq(|es|, i requires 0 <= i < |es| =>
      ValueOf(es[i], bindings, answers, next + ObjectsOf(es[..i]), used + CallsOf(es[..i])))
  }

  /** Everything that is done, in order. */
  function EventsOf(e: Expression, bindings: Bindings, answers: seq<Option<Object>>, next: Object, used: nat)
    : seq<Event>
    decreases e, 0
  {
    match e
    case IntExpression(n) => [Created(next, IntObject(n))]
    case StringExpression(s) => [Created(next, StringObject(s))]
    case SymbolExpression(_) => []
    case BlockExpression(body, parameters, locals) =>
      [Created(next, BlockObject(CodeBlock(body, bindings, parameters, locals)))]
    case CallExpression(callee, arguments) =>
      EventsOf(callee, bindings, answers, next, used) +
      EventsOfList(arguments, bindings, answers, next + Objects(callee), used + Calls(callee)) +
      [Called(ValueOf(callee, bindings, answers, next, used), next + Objects(callee) + ObjectsOf(arguments))]
    case ListExpression(items) => EventsOfList(items, bindings, answers, next, used)
  }

  function EventsOfList(es: seq<Expression>, bindings: Bindings, answers: seq<Option<Object>>, next: Object, used: nat)
    : seq<Event>
    decreases es, 1
  {
    EventsOfAll(es, bindings, answers, next, used) +
    [Created(next + ObjectsOf(es), ListObject(ValuesOf(es, bindings, answers, next, used)))]
  }

  function EventsOfAll(es: seq<Expression>, bindings: Bindings, answers: seq<Option<Object>>, next: Object, used: nat)
    : seq<Event>
    decreases es, 0
  {
    if es == [] then []
    else EventsOf(es[0], bindings, answers, next, used) +
         EventsOfAll(es[1..], bindings, answers, next + Objects(es[0]), used + Calls(es[0]))
  }

  /** The next so many calls are answered with an object. */
  predicate Answered(answers: seq<Option<Object>>, used: nat, count: nat) {
    forall i | used <= i < used + count :: HasAnswer(answers, i)
  }

  function Later(c: Context, calls: nat, objects: nat, events: seq<Event>): Context {
    c.(next := c.next + objects, used := c.used + calls, log := c.log + events)
  }

  /** A result of work that makes so many calls, creates so many objects, and does these things. */
  ghost predicate Completes<T>(r: Result<T>, c: Context, calls: nat, objects: nat, events: seq<Event>) {
    && (r.Value? <==> Answered(c.answers, c.used, calls))
    && (r.Value? ==> r.context == Later(c, calls, objects, events))
  }

  /** What is read off the tree is what is done, and what comes out. */
  ghost predicate IsRight(r: Result<Object>, e: Expression, bindings: Bindings, c: Context) {
    && Completes(r, c, Calls(e), Objects(e), EventsOf(e, bindings, c.answers, c.next, c.used))
    && (r.Value? ==> r.value == ValueOf(e, bindings, c.answers, c.next, c.used))
  }

  /**
   An evaluation gets to its end exactly if all the calls it makes are answered.
   Then it has the value that is read off the tree, it has done exactly the things
   read off the tree, in that order, and has used up exactly its answers.
   */
  lemma {:induction false} CompletesExactlyWhen(e: Expression, bindings: Bindings, c: Context)
    requires WellScoped(e, bindings.Keys)
    ensures IsRight(Evaluate(e, bindings, c), e, bindings, c)
    decreases e, 1
  {
    match e
    case CallExpression(_, _) => CallCompletesExactlyWhen(e, bindings, c);
    case ListExpression(items) => ListCompletesExactlyWhen(items, bindings, c);
    case SymbolExpression(_) => assert c.log + [] == c.log;
    case IntExpression(_) =>
    case StringExpression(_) =>
    case BlockExpression(_, _, _) =>
  }

  lemma ListCreated(c: Context, items: Result<seq<Object>>, calls: nat, objects: nat, events: seq<Event>,
                    values: seq<Object>)
    requires Completes(items, c, calls, objects, events) && (items.Value? ==> items.value == values)
    ensures Completes(Listed(items), c, calls, objects + 1, events + [Created(c.next + objects, ListObject(values))])
    ensures Listed(items).Value? ==> Listed(items).value == c.next + objects
  {
    var last := Created(c.next + objects, ListObject(values));
    assert c.log + events + [last] == c.log + (events + [last]);
  }

  ghost predicate ListRight(r: Result<Object>, es: seq<Expression>, bindings: Bindings, c: Context) {
    && Completes(r, c, CallsOf(es), ObjectsOf(es) + 1, EventsOfList(es, bindings, c.answers, c.next, c.used))
    && (r.Value? ==> r.value == c.next + ObjectsOf(es))
  }

  lemma {:induction false} ListCompletesExactlyWhen(es: seq<Expression>, bindings: Bindings, c: Context)
    requires AllWellScoped(es, bindings.Keys)
    ensures ListRight(EvaluateList(es, bindings, c), es, bindings, c)
    decreases es, 1
  {
    AllCompleteExactlyWhen(es, bindings, c);
    ListCreated(c, EvaluateAll(es, bindings, c), CallsOf(es), ObjectsOf(es),
                EventsOfAll(es, bindings, c.answers, c.next, c.used),
                ValuesOf(es, bindings, c.answers, c.next, c.used));
  }

  lemma {:induction false} CallCompletesExactlyWhen(e: Expression, bindings: Bindings, c: Context)
    requires e.CallExpression? && WellScoped(e, bindings.Keys)
    ensures IsRight(Evaluate(e, bindings, c), e, bindings, c)
    decreases e, 0
  {
    CompletesExactlyWhen(e.function_, bindings, c);
    var f := Evaluate(e.function_, bindings, c);
    if f.Value? {
      ListCompletesExactlyWhen(e.arguments, bindings, f.context);
      var a := EvaluateList(e.arguments, bindings, f.context);
      CallEvaluated(e, bindings, c, f, a);
      CallRight(e, bindings, c, f, a, Evaluate(e, bindings, c));
    } else {
      CallStops(e, bindings, c);
      FewerAnswered(c.answers, c.used, Calls(e.function_), Calls(e));
    }
  }

  lemma {:induction false} CallRight(e: Expression, bindings: Bindings, c: Context, f: Result<Object>,
                                     a: Result<Object>, r: Result<Object>)
    requires e.CallExpression? && IsRight(f, e.function_, bindings, c) && f.Value?
    requires ListRight(a, e.arguments, bindings, f.context)
    requires if a.Value? then r == CallMethod(a.context, f.value, a.value) else !r.Value?
    ensures IsRight(r, e, bindings, c)
  {
    CallFinished(c, f, Calls(e.function_), Objects(e.function_),
                 EventsOf(e.function_, bindings, c.answers, c.next, c.used),
                 a, CallsOf(e.arguments), ObjectsOf(e.arguments),
                 EventsOfList(e.arguments, bindings, c.answers, c.next + Objects(e.function_),
                              c.used + Calls(e.function_)),
                 r);
  }

  /** Callee, argument list, call. */
  lemma CallFinished(c: Context, f: Result<Object>, calls: nat, objects: nat, done: seq<Event>, a: Result<Object>,
                     calls': nat, objects': nat, listed: seq<Event>, r: Result<Object>)
    requires Completes(f, c, calls, objects, done) && f.Value?
    requires Completes(a, f.context, calls', objects' + 1, listed)
    requires a.Value? ==> a.value == c.next + objects + objects'
    requires if a.Value? then r == CallMethod(a.context, f.value, a.value) else !r.Value?
    ensures Completes(r, c, calls + calls' + 1, objects + objects' + 1,
                      done + listed + [Called(f.value, c.next + objects + objects')])
    ensures r.Value? ==> r.value == Answer(c.answers, c.used + calls + calls')
  {
    OneAfterTheOther(c, f, calls, objects, done, a, calls', objects' + 1, listed);
    CallAnswered(c, a, r, f.value, calls + calls', objects + objects' + 1, done + listed);
  }

  /** Once callee and arguments are evaluated, a call makes one more method call. */
  lemma CallAnswered(c: Context, a: Result<Object>, r: Result<Object>, callee: Object, calls: nat, objects: nat,
                     events: seq<Event>)
    requires Completes(a, c, calls, objects, events)
    requires if a.Value? then r == CallMethod(a.context, callee, a.value) else !r.Value?
    ensures a.Value? ==> Completes(r, c, calls + 1, objects, events + [Called(callee, a.value)])
    ensures !a.Value? ==> !Answered(c.answers, c.used, calls + 1)
    ensures r.Value? ==> r.value == Answer(c.answers, c.used + calls)
  {
    FewerAnswered(c.answers, c.used, calls, calls + 1);
    if a.Value? {
      assert Answered(c.answers, c.used, calls + 1) <==> HasAnswer(c.answers, c.used + calls);
      assert c.log + events + [Called(callee, a.value)] == c.log + (events + [Called(callee, a.value)]);
    }
  }

  /** Where the callee is not evaluated to the end, neither is the call. */
  lemma CallStops(e: Expression, bindings: Bindings, c: Context)
    requires e.CallExpression? && !Evaluate(e.function_, bindings, c).Value?
    ensures !Evaluate(e, bindings, c).Value?
  {
  }

  lemma CallEvaluated(e: Expression, bindings: Bindings, c: Context, f: Result<Object>, a: Result<Object>)
    requires e.CallExpression? && f == Evaluate(e.function_, bindings, c) && f.Value?
    requires a == EvaluateList(e.arguments, bindings, f.context)
    ensures a.Value? ==> Evaluate(e, bindings, c) == CallMethod(a.context, f.value, a.value)
    ensures !a.Value? ==> !Evaluate(e, bindings, c).Value?
  {
  }

  lemma FewerAnswered(answers: seq<Option<Object>>, used: nat, few: nat, many: nat)
    requires few <= many
    ensures Answered(answers, used, many) ==> Answered(answers, used, few)
  {
  }

  ghost predicate AllRight(r: Result<seq<Object>>, es: seq<Expression>, bindings: Bindings, c: Context) {
    && Completes(r, c, CallsOf(es), ObjectsOf(es), EventsOfAll(es, bindings, c.answers, c.next, c.used))
    && (r.Value? ==> r.value == ValuesOf(es, bindings, c.answers, c.next, c.used))
  }

  lemma {:induction false} AllCompleteExactlyWhen(es: seq<Expression>, bindings: Bindings, c: Context)
    requires AllWellScoped(es, bindings.Keys)
    ensures AllRight(EvaluateAll(es, bindings, c), es, bindings, c)
    decreases es, 0
  {
    if es == [] {
      assert c.log + [] == c.log;
    } else {
      CompletesExactlyWhen(es[0], bindings, c);
      var first := Evaluate(es[0], bindings, c);
      if first.Value? {
        AllCompleteExactlyWhen(es[1..], bindings, first.context);
        OneMoreRight(es, bindings, c, first, EvaluateAll(es[1..], bindings, first.context));
      } else {
        FewerAnswered(c.answers, c.used, Calls(es[0]), CallsOf(es));
      }
    }
  }

  lemma {:induction false} OneMoreRight(es: seq<Expression>, bindings: Bindings, c: Context, first: Result<Object>,
                                        others: Result<seq<Object>>)
    requires es != [] && first == Evaluate(es[0], bindings, c) && IsRight(first, es[0], bindings, c) && first.Value?
    requires others == EvaluateAll(es[1..], bindings, first.context)
    requires AllRight(others, es[1..], bindings, first.context)
    ensures AllRight(EvaluateAll(es, bindings, c), es, bindings, c)
  {
    AllEvaluated(es, bindings, c, first, others);
    OneAfterTheOther(c, first, Calls(es[0]), Objects(es[0]), EventsOf(es[0], bindings, c.answers, c.next, c.used),
                     others, CallsOf(es[1..]), ObjectsOf(es[1..]),
                     EventsOfAll(es[1..], bindings, c.answers, c.next + Objects(es[0]), c.used + Calls(es[0])));
    ValuesFurther(es, bindings, c.answers, c.next, c.used);
  }

  lemma AllEvaluated(es: seq<Expression>, bindings: Bindings, c: Context, first: Result<Object>,
                     others: Result<seq<Object>>)
    requires es != [] && first == Evaluate(es[0], bindings, c) && first.Value?
    requires others == EvaluateAll(es[1..], bindings, first.context)
    ensures var r := EvaluateAll(es, bindings, c);
            if others.Value? then r == Value([first.value] + others.value, others.context) else !r.Value?
  {
  }

  lemma ValuesFurther(es: seq<Expression>, bindings: Bindings, answers: seq<Option<Object>>, next: Object, used: nat)
    requires es != []
    ensures ValuesOf(es, bindings, answers, next, used) ==
            [ValueOf(es[0], bindings, answers, next, used)] +
            ValuesOf(es[1..], bindings, answers, next + Objects(es[0]), used + Calls(es[0]))
  {
    forall i | 0 < i < |es|
      ensures es[..i][1..] == es[1..][..i - 1]
      ensures ObjectsOf(es[..i]) == Objects(es[0]) + ObjectsOf(es[1..][..i - 1])
      ensures CallsOf(es[..i]) == Calls(es[0]) + CallsOf(es[1..][..i - 1])
    {
      assert es[..i][1..] == es[1..][..i - 1] && es[..i][0] == es[0];
    }
  }

  lemma OneAfterTheOther<T, U>(c: Context, r: Result<T>, calls: nat, objects: nat, events: seq<Event>,
                               q: Result<U>, calls': nat, objects': nat, events': seq<Event>)
    requires Completes(r, c, calls, objects, events) && r.Value?
    requires Completes(q, r.context, calls', objects', events')
    ensures Completes(q, c, calls + calls', objects + objects', events + events')
  {
    assert c.log + events + events' == c.log + (events + events');
  }

  // What a code block passes on.

  /** A code block whose body is one of the symbols it can see evaluates to what that symbol is bound to. */
  lemma SymbolsMean(block: CodeBlock, arguments: seq<Object>, c: Context, id: int)
    requires Good(block) && |arguments| == |block.parameters| && block.body == SymbolExpression(id)
    ensures var after := WithVariables(c, |block.locals|);
            && (id in block.externals ==> EvaluateBlock(block, arguments, c) == Value(block.externals[id], after))
            && (forall i | 0 <= i < |arguments| && block.parameters[i] == id ::
                  EvaluateBlock(block, arguments, c) == Value(arguments[i], after))
            && (forall i | 0 <= i < |block.locals| && block.locals[i] == id ::
                  EvaluateBlock(block, arguments, c) == Value(c.next + i, after))
  {
    GoodBinds(block);
    BlockBindsExactlyWhen(block, arguments, c.next);
  }

  function Chosen(objects: seq<Object>, places: seq<nat>): seq<Object>
    requires forall k | 0 <= k < |places| :: places[k] < |objects|
  {
    seq(|places|, k requires 0 <= k < |places| => objects[places[k]])
  }

  /** The symbols of the parameters at some positions. */
  function Symbols(block: CodeBlock, places: seq<nat>): seq<Expression>
    requires forall k | 0 <= k < |places| :: places[k] < |block.parameters|
  {
    seq(|places|, k requires 0 <= k < |places| => SymbolExpression(block.parameters[places[k]]))
  }

  lemma {:induction false} SymbolsEvaluate(block: CodeBlock, arguments: seq<Object>, bindings: Bindings,
                                           places: seq<nat>, c: Context)
    requires forall k | 0 <= k < |places| :: places[k] < |block.parameters|
    requires |arguments| == |block.parameters|
    requires forall i | 0 <= i < |arguments| :: block.parameters[i] in bindings
    requires forall i | 0 <= i < |arguments| :: bindings[block.parameters[i]] == arguments[i]
    ensures EvaluateAll(Symbols(block, places), bindings, c) ==
            Value(Chosen(arguments, places), c)
    decreases |places|
  {
    if places != [] {
      SymbolsEvaluate(block, arguments, bindings, places[1..], c);
      assert Symbols(block, places)[1..] == Symbols(block, places[1..]);
      assert Symbols(block, places)[0] == SymbolExpression(block.parameters[places[0]]);
      assert Chosen(arguments, places) == [arguments[places[0]]] + Chosen(arguments, places[1..]);
    } else {
      assert Symbols(block, places) == [] && Chosen(arguments, places) == [];
    }
  }

  /**
   A code block that calls one of its parameters with some of them as arguments
   creates one list, of those arguments in that order, and makes one call, of that
   parameter's argument with that list; the answer is its value.
   */
  lemma ArgumentsArePassedOn(block: CodeBlock, callee: nat, places: seq<nat>, arguments: seq<Object>, c: Context)
    requires Good(block) && |arguments| == |block.parameters| && callee < |block.parameters|
    requires forall k | 0 <= k < |places| :: places[k] < |block.parameters|
    requires block.body == CallExpression(SymbolExpression(block.parameters[callee]), Symbols(block, places))
    requires HasAnswer(c.answers, c.used)
    ensures var after := WithVariables(c, |block.locals|);
            EvaluateBlock(block, arguments, c) ==
            Value(c.answers[c.used].value,
                  after.(next := after.next + 1, used := c.used + 1,
                         log := after.log + [Created(after.next, ListObject(Chosen(arguments, places)))] +
                                [Called(arguments[callee], after.next)]))
  {
    GoodBinds(block);
    BlockBindsExactlyWhen(block, arguments, c.next);
    var bindings := BlockBindings(block, arguments, c.next).value;
    var after := WithVariables(c, |block.locals|);
    SymbolsEvaluate(block, arguments, bindings, places, after);
    var called := SymbolExpression(block.parameters[callee]);
    assert Evaluate(called, bindings, after) == Value(arguments[callee], after);
    CallEvaluated(block.body, bindings, after, Evaluate(called, bindings, after),
                  EvaluateList(Symbols(block, places), bindings, after));
  }

  // A whole program.

  /** At any time any existing code block may be evaluated, with any arguments and any answers to its calls. */
  datatype Step = Step(place: nat, arguments: seq<Object>, answers: seq<Option<Object>>)

  /** Callers of code blocks pass as many arguments as the block has parameters. */
  predicate Enabled(c: Context, step: Step) {
    && step.place < |c.log| && IsBlock(c.log[step.place])
    && |step.arguments| == |c.log[step.place].content.block.parameters|
  }

  function After(c: Context, step: Step): Result<Object>
    requires Enabled(c, step)
  {
    EvaluateBlock(c.log[step.place].content.block, step.arguments, c.(answers := step.answers, used := 0))
  }

  /** A run goes on for as long as no check fails. */
  predicate Reaches(c: Context, steps: seq<Step>, d: Context)
    decreases |steps|
  {
    if steps == [] then c == d
    else Enabled(c, steps[0]) && !After(c, steps[0]).CheckFailed? && Reaches(After(c, steps[0]).context, steps[1..], d)
  }

  lemma StepIsGood(c: Context, step: Step)
    requires AllGood(c.log) && Enabled(c, step)
    ensures Fine(After(c, step), c)
  {
    GoodFailsExactlyWhen(c.log[step.place].content.block, step.arguments, c.(answers := step.answers, used := 0));
  }

  lemma {:induction false} ReachesGood(c: Context, steps: seq<Step>, d: Context)
    requires AllGood(c.log) && Reaches(c, steps, d)
    ensures AllGood(d.log)
    decreases |steps|
  {
    if steps != [] {
      StepIsGood(c, steps[0]);
      ReachesGood(After(c, steps[0]).context, steps[1..], d);
    }
  }

  /**
   Of every file the parser accepts: the program's block can be evaluated with
   the external symbols bound, and after that no evaluation of any code block, in
   any run, fails the check for unbound symbols or the one for double binding.
   */
  lemma ProgramsNeverFail(tokens: seq<Token>, t: Table, bindings: Bindings, start: Context, steps: seq<Step>,
                          c: Context, step: Step)
    requires Valid(t) && t.scopes == [] && ParseFile(tokens, t).Some?
    requires bindings.Keys == ExternalIds(t) && start.log == []
    ensures var program := Evaluate(ParseFile(tokens, t).value.0, bindings, start);
            && program.Value?
            && (Reaches(program.context, steps, c) && Enabled(c, step) ==> !After(c, step).CheckFailed?)
  {
    var e := ParseFile(tokens, t).value.0;
    ParsedIsWellScoped(tokens, t);
    WellScopedIsFine(e, bindings, start);
    var program := Evaluate(e, bindings, start);
    if Reaches(program.context, steps, c) && Enabled(c, step) {
      ReachesGood(program.context, steps, c);
      StepIsGood(c, step);
    }
  }
}

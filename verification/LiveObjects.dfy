/**
 Live objects share a reference-counted node until one of them is about to
 change, and then that one takes a copy of its own.  A local object is modelled
 by its value, and running a method on it by a function from the value to the
 new value and the value returned.
 */
module LiveObjects {
  import opened Wrappers

  type Call<!V, R> = V -> (V, R)

  class LiveObjectNode<V> {
    var localObject: V
    var refCount: int
    var deleted: bool

    constructor (value: V)
      ensures localObject == value && refCount == 1 && !deleted
    {
      localObject, refCount, deleted := value, 1, false;
    }

    method IncrementRefCount()
      requires refCount >= 1
      modifies this`refCount
      ensures refCount == old(refCount) + 1
    {
      refCount := refCount + 1;
      assert refCount >= 2;
    }

    method DecrementRefCount() returns (unused: bool)
      requires refCount >= 1
      modifies this`refCount
      ensures refCount == old(refCount) - 1 && unused == (refCount == 0)
    {
      refCount := refCount - 1;
      unused := refCount == 0;
    }

    /** Gives up one reference, and deletes the node with the last one. */
    method Release()
      requires refCount >= 1 && !deleted
      modifies this`refCount, this`deleted
      ensures refCount == old(refCount) - 1 && deleted == (refCount == 0)
    {
      var unused := DecrementRefCount();
      if unused {
        deleted := true;
      }
    }

    /** Runs the method here when nobody shares the node, and otherwise on a copy. */
    method InvokeMethod<R>(call: Call<V, R>) returns (node: LiveObjectNode<V>, result: R)
      requires refCount >= 1 && !deleted
      modifies this`localObject
      ensures old(refCount) == 1 ==> node == this
      ensures old(refCount) > 1 ==> fresh(node) && node.refCount == 1 && localObject == old(localObject)
      ensures node.localObject == call(old(localObject)).0 && result == call(old(localObject)).1 && !node.deleted
    {
      if refCount > 1 {
        var (value, returned) := call(localObject);
        node := new LiveObjectNode(value);
        result := returned;
      } else {
        var (value, returned) := call(localObject);
        localObject, result := value, returned;
        node := this;
      }
    }
  }

  /** The live objects that point to the node. */
  ghost function Pointing<V>(live: set<LiveObject<V>>, node: LiveObjectNode<V>): set<LiveObject<V>>
    reads live
  {
    set o | o in live && o.node == node
  }

  /** Every node in use is there, and its count is the number of live objects pointing to it. */
  ghost predicate Counted<V>(live: set<LiveObject<V>>)
    reads live, set o | o in live :: o.node
  {
    forall o | o in live :: o.node.refCount == |Pointing(live, o.node)| && !o.node.deleted
  }

  lemma PointingCounts<V>(live: set<LiveObject<V>>, o: LiveObject<V>)
    requires o in live && Counted(live)
    ensures o.node.refCount >= 1
    ensures o.node.refCount == 1 ==> forall p | p in live && p.node == o.node :: p == o
  {
    var all := Pointing(live, o.node);
    assert o in all && |all - {o}| == |all| - 1;
    if o.node.refCount == 1 {
      forall p | p in live && p.node == o.node
        ensures p == o
      {
        assert p in all;
        assert all - {o} == {};
      }
    }
  }

  class LiveObject<V> {
    var node: LiveObjectNode<V>

    constructor (value: V)
      ensures Value() == value && node.refCount == 1 && !node.deleted && fresh(node)
    {
      node := new LiveObjectNode(value);
    }

    constructor Sharing(shared: LiveObjectNode<V>)
      requires shared.refCount >= 1
      modifies shared`refCount
      ensures node == shared && shared.refCount == old(shared.refCount) + 1
    {
      node := shared;
      new;
      shared.IncrementRefCount();
    }

    ghost function Value(): V
      reads this, node
    {
      node.localObject
    }

    /** The copy has the value, and the counts stay right with the copy among the live objects. */
    method Clone(ghost live: set<LiveObject<V>>) returns (copy: LiveObject<V>)
      requires this in live && Counted(live)
      modifies node`refCount
      ensures fresh(copy) && copy.node == node && copy.Value() == old(Value())
      ensures Counted(live + {copy})
      ensures forall o | o in live :: o.node == old(o.node) && o.Value() == old(o.Value())
    {
      PointingCounts(live, this);
      copy := new LiveObject.Sharing(node);
      assert Pointing(live + {copy}, node) == old(Pointing(live, node)) + {copy};
      forall o | o in live && o.node != node
        ensures Pointing(live + {copy}, o.node) == old(Pointing(live, o.node))
      {
      }
    }

    /** The method acts on this object alone, as it would on a private copy. */
    method InvokeMethod<R>(call: Call<V, R>, ghost live: set<LiveObject<V>>) returns (result: R)
      requires this in live && Counted(live)
      modifies this, node
      ensures Value() == call(old(Value())).0 && result == call(old(Value())).1
      ensures Counted(live) && (node == old(node) || fresh(node))
      ensures forall o | o in live && o != this :: o.node == old(o.node) && o.Value() == old(o.Value())
    {
      PointingCounts(live, this);
      var target, returned := node.InvokeMethod(call);
      result := returned;
      if target != node {
        var before := node;
        node := target;
        before.Release();
        assert Pointing(live, target) == {this};
        assert Pointing(live, before) == old(Pointing(live, before)) - {this};
        forall o | o in live && o.node != before && o != this
          ensures Pointing(live, o.node) == old(Pointing(live, o.node))
        {
        }
      }
    }

    /** The object goes; its node goes with it exactly when nobody else points to it. */
    method Destroy(ghost live: set<LiveObject<V>>)
      requires this in live && Counted(live)
      modifies node`refCount, node`deleted
      ensures Counted(live - {this})
      ensures node.deleted <==> old(node.refCount) == 1
      ensures forall o | o in live - {this} :: o.node == old(o.node) && o.Value() == old(o.Value())
    {
      PointingCounts(live, this);
      node.Release();
      assert Pointing(live - {this}, node) == old(Pointing(live, node)) - {this};
      forall o | o in live - {this} && o.node != node
        ensures Pointing(live - {this}, o.node) == old(Pointing(live, o.node))
      {
      }
    }
  }

  /** What can be done with the objects made so far, each named by its number. */
  datatype Operation<!V> =
    | Make(value: V)
    | Copy(from: nat)
    | Invoke(target: nat, call: V -> V)
    | Drop(target: nat)

  /** The reference: every object has a value of its own, or has been destroyed. */
  type Copies<V> = seq<Option<V>>

  predicate Allowed<V>(copies: Copies<V>, op: Operation<V>) {
    match op
    case Make(_) => true
    case Copy(i) => i < |copies| && copies[i].Some?
    case Invoke(i, _) => i < |copies| && copies[i].Some?
    case Drop(i) => i < |copies| && copies[i].Some?
  }

  function After<V>(copies: Copies<V>, op: Operation<V>): Copies<V>
    requires Allowed(copies, op)
  {
    match op
    case Make(v) => copies + [Some(v)]
    case Copy(i) => copies + [copies[i]]
    case Invoke(i, f) => copies[i := Some(f(copies[i].value))]
    case Drop(i) => copies[i := None]
  }

  predicate GoodRun<V>(copies: Copies<V>, ops: seq<Operation<V>>)
    decreases |ops|
  {
    ops == [] || (Allowed(copies, ops[0]) && GoodRun(After(copies, ops[0]), ops[1..]))
  }

  function AfterRun<V>(copies: Copies<V>, ops: seq<Operation<V>>): Copies<V>
    requires GoodRun(copies, ops)
    decreases |ops|
  {
    if ops == [] then copies else AfterRun(After(copies, ops[0]), ops[1..])
  }

  ghost function Live<V>(objects: seq<LiveObject<V>>, copies: Copies<V>): set<LiveObject<V>>
    requires |objects| == |copies|
  {
    set i | 0 <= i < |objects| && copies[i].Some? :: objects[i]
  }

  ghost function Owners<V>(objects: seq<LiveObject<V>>): set<LiveObject<V>> {
    set o | o in objects
  }

  ghost function Nodes<V>(objects: seq<LiveObject<V>>): set<LiveObjectNode<V>>
    reads objects
  {
    set o: LiveObject<V> | o in objects :: o.node
  }

  ghost predicate Distinct<V>(objects: seq<LiveObject<V>>) {
    forall i, j | 0 <= i < j < |objects| :: objects[i] != objects[j]
  }

  /** The objects are distinct and rightly counted, and each live one has its private value. */
  ghost predicate Matches<V>(objects: seq<LiveObject<V>>, copies: Copies<V>)
    reads objects, Nodes(objects)
  {
    && |objects| == |copies|
    && Distinct(objects)
    && Counted(Live(objects, copies))
    && forall i | 0 <= i < |objects| && copies[i].Some? :: objects[i].Value() == copies[i].value
  }

  lemma LiveIsAt<V>(objects: seq<LiveObject<V>>, copies: Copies<V>, i: nat, v: V)
    requires |objects| == |copies| && i < |objects| && copies[i].Some? && Distinct(objects)
    ensures objects[i] in Live(objects, copies)
    ensures Live(objects, copies[i := None]) == Live(objects, copies) - {objects[i]}
    ensures Live(objects, copies[i := Some(v)]) == Live(objects, copies)
  {
    var after := copies[i := Some(v)];
    assert forall j | 0 <= j < |objects| :: after[j].Some? == copies[j].Some?;
  }

  lemma LiveGrows<V>(objects: seq<LiveObject<V>>, copies: Copies<V>, o: LiveObject<V>, v: V)
    requires |objects| == |copies|
    ensures Live(objects + [o], copies + [Some(v)]) == Live(objects, copies) + {o}
  {
    var more, after := objects + [o], copies + [Some(v)];
    assert more[|objects|] == o && after[|objects|].Some?;
    forall p | p in Live(objects, copies)
      ensures p in Live(more, after)
    {
      var j :| 0 <= j < |objects| && copies[j].Some? && objects[j] == p;
      assert more[j] == p && after[j].Some?;
    }
  }

  method PerformMake<V>(objects: seq<LiveObject<V>>, ghost copies: Copies<V>, v: V)
    returns (more: seq<LiveObject<V>>)
    requires Matches(objects, copies)
    ensures Matches(more, copies + [Some(v)])
    ensures fresh(Owners(more) - Owners(objects)) && fresh(Nodes(more) - old(Nodes(objects)))
  {
    ghost var live := Live(objects, copies);
    var made := new LiveObject(v);
    more := objects + [made];
    LiveGrows(objects, copies, made, v);
    assert Pointing(live + {made}, made.node) == {made};
    assert forall o | o in live :: Pointing(live + {made}, o.node) == old(Pointing(live, o.node));
  }

  method PerformCopy<V>(objects: seq<LiveObject<V>>, ghost copies: Copies<V>, i: nat)
    returns (more: seq<LiveObject<V>>)
    requires Matches(objects, copies) && i < |copies| && copies[i].Some?
    modifies Owners(objects), Nodes(objects)
    ensures Matches(more, copies + [copies[i]])
    ensures fresh(Owners(more) - Owners(objects)) && fresh(Nodes(more) - old(Nodes(objects)))
  {
    assert objects[i] in Owners(objects) && objects[i].node in Nodes(objects);
    LiveIsAt(objects, copies, i, copies[i].value);
    var copy := objects[i].Clone(Live(objects, copies));
    more := objects + [copy];
    LiveGrows(objects, copies, copy, copies[i].value);
    forall j | 0 <= j < |objects| && copies[j].Some?
      ensures objects[j].Value() == copies[j].value
    {
      assert objects[j] in Live(objects, copies);
    }
  }

  method PerformInvoke<V>(objects: seq<LiveObject<V>>, ghost copies: Copies<V>, i: nat, f: V -> V)
    requires Matches(objects, copies) && i < |copies| && copies[i].Some?
    modifies Owners(objects), Nodes(objects)
    ensures Matches(objects, copies[i := Some(f(copies[i].value))])
    ensures fresh(Nodes(objects) - old(Nodes(objects)))
  {
    assert objects[i] in Owners(objects) && objects[i].node in Nodes(objects);
    LiveIsAt(objects, copies, i, f(copies[i].value));
    var result := objects[i].InvokeMethod(v => (f(v), true), Live(objects, copies));
    forall j | 0 <= j < |objects| && copies[j].Some? && j != i
      ensures objects[j].Value() == copies[j].value
    {
      assert objects[j] in Live(objects, copies) && objects[j] != objects[i];
    }
  }

  method PerformDrop<V>(objects: seq<LiveObject<V>>, ghost copies: Copies<V>, i: nat)
    requires Matches(objects, copies) && i < |copies| && copies[i].Some?
    modifies Owners(objects), Nodes(objects)
    ensures Matches(objects, copies[i := None]) && fresh(Nodes(objects) - old(Nodes(objects)))
  {
    assert objects[i] in Owners(objects) && objects[i].node in Nodes(objects);
    LiveIsAt(objects, copies, i, copies[i].value);
    objects[i].Destroy(Live(objects, copies));
    forall j | 0 <= j < |objects| && copies[j].Some? && j != i
      ensures objects[j].Value() == copies[j].value
    {
      assert objects[j] in Live(objects, copies) && objects[j] != objects[i];
    }
  }

  /** One operation on shared nodes does to every live object what it does to the private values. */
  method Perform<V>(objects: seq<LiveObject<V>>, ghost copies: Copies<V>, op: Operation<V>)
    returns (more: seq<LiveObject<V>>)
    requires Matches(objects, copies) && Allowed(copies, op)
    modifies Owners(objects), Nodes(objects)
    ensures Matches(more, After(copies, op))
    ensures fresh(Owners(more) - Owners(objects)) && fresh(Nodes(more) - old(Nodes(objects)))
  {
    match op {
      case Make(v) =>
        more := PerformMake(objects, copies, v);
      case Copy(i) =>
        more := PerformCopy(objects, copies, i);
      case Invoke(i, f) =>
        PerformInvoke(objects, copies, i, f);
        more := objects;
      case Drop(i) =>
        PerformDrop(objects, copies, i);
        more := objects;
    }
  }

  /** Any run of operations leaves the live objects with the values of private copies. */
  method Execute<V>(ops: seq<Operation<V>>) returns (objects: seq<LiveObject<V>>)
    requires GoodRun([], ops)
    ensures Matches(objects, AfterRun([], ops))
  {
    objects := [];
    ghost var copies: Copies<V> := [];
    for n := 0 to |ops|
      invariant Matches(objects, copies) && fresh(Owners(objects)) && fresh(Nodes(objects))
      invariant GoodRun(copies, ops[n..]) && AfterRun(copies, ops[n..]) == AfterRun([], ops)
    {
      assert ops[n..][0] == ops[n] && ops[n..][1..] == ops[n + 1..];
      objects := Perform(objects, copies, ops[n]);
      copies := After(copies, ops[n]);
    }
  }
}

/**
 The connection manager (engine/connection_manager.cc). A connection is unnamed
 until the remote peer is known, and named after the remote peer from then on.
 When two connections to the same peer turn up, the one initiated by the peer
 whose id comes first is kept, and the other is drained. Connections are numbered.
 */
module Connections {
  import opened Wrappers

  type PeerId = string
  type Conn = nat

  /** Dictionary order, as the string comparison has it. */
  predicate Before(a: PeerId, b: PeerId) {
    b != [] && (a == [] || a[0] < b[0] || (a[0] == b[0] && Before(a[1..], b[1..])))
  }

  /** Of two different ids exactly one comes first. */
  lemma {:induction false} BeforeIsTotal(a: PeerId, b: PeerId)
    ensures a == b ==> !Before(a, b) && !Before(b, a)
    ensures a != b ==> Before(a, b) != Before(b, a)
  {
    if a != [] && b != [] && a[0] == b[0] {
      BeforeIsTotal(a[1..], b[1..]);
      assert a == [a[0]] + a[1..] && b == [b[0]] + b[1..];
    }
  }

  /**
   The two maps of the manager, and what it knows of its connections: which are
   open, which it initiated itself, whom they lead to, and which it told to drain.
   */
  datatype Manager = Manager(
    local: PeerId,
    named: map<PeerId, Conn>,
    unnamed: set<Conn>,
    open: set<Conn>,
    locally: set<Conn>,
    remote: map<Conn, PeerId>,
    draining: set<Conn>)

  function NewManager(local: PeerId): Manager {
    Manager(local, map[], {}, {}, {}, map[], {})
  }

  predicate IsNew(m: Manager, c: Conn) {
    c !in m.open && c !in m.locally && c !in m.remote && c !in m.draining
  }

  predicate IsNamed(m: Manager, c: Conn) {
    c in m.remote && m.remote[c] in m.named && m.named[m.remote[c]] == c
  }

  /** Every open connection is in exactly one of the two maps, and a named one under its remote peer. */
  ghost predicate Inv(m: Manager) {
    && (forall c | c in m.open :: IsNamed(m, c) != (c in m.unnamed))
    && m.unnamed <= m.open
    && (forall r | r in m.named ::
          r != m.local && m.named[r] in m.open && IsNamed(m, m.named[r]) && m.remote[m.named[r]] == r)
  }

  datatype Step =
    | Connect(conn: Conn)                      // ConnectToRemotePeer
    | GetOrCreate(peer: PeerId, conn: Conn)    // GetOrCreateNamedConnection
    | Accept(conn: Conn)                       // NotifyConnectionReceived
    | Greet(conn: Conn, peer: PeerId)          // HELLO arrives and the connection learns its remote peer
    | Known(conn: Conn)                        // NotifyRemotePeerKnown
    | Close(conn: Conn)                        // NotifyConnectionClosed

  /** A peer does not connect to itself, and says who it is truthfully. */
  predicate Enabled(m: Manager, step: Step) {
    match step
    case Connect(c) => IsNew(m, c)
    case GetOrCreate(r, c) => IsNew(m, c) && r != m.local
    case Accept(c) => IsNew(m, c)
    case Greet(c, r) => c in m.open && r != m.local && (c in m.remote ==> m.remote[c] == r)
    case Known(c) => c in m.open && c in m.remote && m.remote[c] != m.local
    case Close(c) => c in m.open
  }

  function After(m: Manager, step: Step): Manager
    requires Enabled(m, step)
  {
    match step
    case Connect(c) => m.(unnamed := m.unnamed + {c}, open := m.open + {c}, locally := m.locally + {c})
    case GetOrCreate(r, c) =>
      if r in m.named then m
      else m.(named := m.named[r := c], open := m.open + {c}, locally := m.locally + {c}, remote := m.remote[c := r])
    case Accept(c) => m.(unnamed := m.unnamed + {c}, open := m.open + {c})
    case Greet(c, r) => m.(remote := m.remote[c := r])
    case Known(c) => Identified(m, c, m.remote[c])
    case Close(c) =>
      if IsNamed(m, c) then m.(named := m.named - {m.remote[c]}, open := m.open - {c})
      else m.(unnamed := m.unnamed - {c}, open := m.open - {c})
  }

  function Initiator(m: Manager, c: Conn): PeerId {
    if c in m.locally then m.local else if c in m.remote then m.remote[c] else ""
  }

  function Identified(m: Manager, c: Conn, r: PeerId): Manager {
    if r !in m.named then m.(named := m.named[r := c], unnamed := m.unnamed - {c})
    else
      var existing := m.named[r];
      if existing == c then m
      else if Before(Initiator(m, c), Initiator(m, existing)) then
        m.(named := m.named[r := c], unnamed := m.unnamed - {c} + {existing}, draining := m.draining + {existing})
      else m.(draining := m.draining + {c})
  }

  /** The checks the manager makes of its two maps. */
  predicate ChecksHold(m: Manager, step: Step) {
    match step
    case Connect(c) => c !in m.unnamed
    case GetOrCreate(_, _) => true
    case Accept(_) => true
    case Greet(_, _) => true
    case Known(c) =>
      c in m.remote ==>
        var r := m.remote[c];
        if r in m.named && m.named[r] == c then c !in m.unnamed
        else
          && c in m.unnamed
          && (r in m.named ==>
                m.named[r] !in m.unnamed && (m.named[r] in m.locally || m.named[r] in m.remote))
    case Close(c) => IsNamed(m, c) <==> c !in m.unnamed
  }

  lemma StepKeepsInv(m: Manager, step: Step)
    requires Inv(m) && Enabled(m, step)
    ensures Inv(After(m, step)) && ChecksHold(m, step)
  {
  }

  /**
   Once a remote peer is known it has a named connection. Where it had another
   one already, the one whose initiator comes first is named, and the other stays
   open without a name and is drained; nothing else is drained.
   */
  lemma LoserIsDrained(m: Manager, c: Conn)
    requires Inv(m) && Enabled(m, Known(c))
    ensures var r, n := m.remote[c], After(m, Known(c));
            && r in n.named && n.open == m.open
            && (r !in m.named ==> n.named[r] == c && n.draining == m.draining)
            && (r in m.named ==>
                  var both := {c, m.named[r]};
                  && n.named[r] in both && n.draining == m.draining + (both - {n.named[r]})
                  && (forall d | d in both && d != n.named[r] :: d in n.draining && d in n.unnamed)
                  && (m.named[r] != c ==>
                        (n.named[r] == c <==> Before(Initiator(m, c), Initiator(m, m.named[r])))))
  {
    StepKeepsInv(m, Known(c));
    var r, n := m.remote[c], After(m, Known(c));
    if r in m.named {
      var d := if n.named[r] == c then m.named[r] else c;
      assert {c, m.named[r]} - {n.named[r]} == if c == m.named[r] then {} else {d};
    }
  }

  predicate IsRun(m: Manager, steps: seq<Step>)
    decreases |steps|, 0
  {
    steps == [] || (IsRun(m, steps[..|steps| - 1]) && Enabled(AfterRun(m, steps[..|steps| - 1]), steps[|steps| - 1]))
  }

  function AfterRun(m: Manager, steps: seq<Step>): Manager
    requires IsRun(m, steps)
    decreases |steps|, 1
  {
    if steps == [] then m else After(AfterRun(m, steps[..|steps| - 1]), steps[|steps| - 1])
  }

  /** With any number of peers and connections, in every run. */
  lemma {:induction false} RunKeepsInv(m: Manager, steps: seq<Step>)
    requires Inv(m) && IsRun(m, steps)
    ensures Inv(AfterRun(m, steps))
    decreases |steps|
  {
    if steps != [] {
      RunKeepsInv(m, steps[..|steps| - 1]);
      StepKeepsInv(AfterRun(m, steps[..|steps| - 1]), steps[|steps| - 1]);
    }
  }

  lemma ChecksNeverFail(local: PeerId, steps: seq<Step>, step: Step)
    requires IsRun(NewManager(local), steps) && Enabled(AfterRun(NewManager(local), steps), step)
    ensures ChecksHold(AfterRun(NewManager(local), steps), step)
  {
    RunKeepsInv(NewManager(local), steps);
    StepKeepsInv(AfterRun(NewManager(local), steps), step);
  }

  class ConnectionManager {
    const local: PeerId
    var named: map<PeerId, Conn>
    var unnamed: set<Conn>
    var open: set<Conn>
    var locally: set<Conn>
    var remote: map<Conn, PeerId>
    var draining: set<Conn>

    ghost function Value(): Manager
      reads this
    {
      Manager(local, named, unnamed, open, locally, remote, draining)
    }

    constructor (id: PeerId)
      ensures Value() == NewManager(id)
    {
      local := id;
      named, unnamed, open, locally, remote, draining := map[], {}, {}, {}, map[], {};
    }

    method ConnectToRemotePeer(c: Conn)
      requires Inv(Value()) && Enabled(Value(), Connect(c))
      modifies this
      ensures Value() == After(old(Value()), Connect(c)) && Inv(Value())
    {
      StepKeepsInv(Value(), Connect(c));
      open, locally := open + {c}, locally + {c};
      assert c !in unnamed;
      unnamed := unnamed + {c};
    }

    /** Gives back the connection already named after the peer, and makes c that connection otherwise. */
    method GetOrCreateNamedConnection(r: PeerId, c: Conn) returns (found: Conn, isNew: bool)
      requires Inv(Value()) && Enabled(Value(), GetOrCreate(r, c))
      modifies this
      ensures Value() == After(old(Value()), GetOrCreate(r, c)) && Inv(Value())
      ensures r in named && named[r] == found && isNew == (found == c)
    {
      StepKeepsInv(Value(), GetOrCreate(r, c));
      if r !in named {
        named, open, locally, remote := named[r := c], open + {c}, locally + {c}, remote[c := r];
        isNew := true;
      } else {
        isNew := false;
      }
      found := named[r];
    }

    method NotifyConnectionReceived(c: Conn)
      requires Inv(Value()) && Enabled(Value(), Accept(c))
      modifies this
      ensures Value() == After(old(Value()), Accept(c)) && Inv(Value())
    {
      StepKeepsInv(Value(), Accept(c));
      open := open + {c};
      unnamed := unnamed + {c};
    }

    method GetConnectionInitiator(c: Conn) returns (peer: PeerId)
      requires c in locally || c in remote
      ensures peer == Initiator(Value(), c)
    {
      if c in locally {
        peer := local;
      } else {
        peer := remote[c];
      }
    }

    method NotifyRemotePeerKnown(c: Conn) returns (toDrain: Option<Conn>)
      requires Inv(Value()) && Enabled(Value(), Known(c))
      modifies this
      ensures Value() == After(old(Value()), Known(c)) && Inv(Value())
      ensures remote[c] in named
      ensures toDrain.Some? <==> remote[c] in old(named) && old(named)[remote[c]] != c
      ensures toDrain.None? ==> named[remote[c]] == c && draining == old(draining)
      ensures toDrain.Some? ==>
                var existing := old(named)[remote[c]];
                && draining == old(draining) + {toDrain.value}
                && (if Before(Initiator(old(Value()), c), Initiator(old(Value()), existing))
                    then toDrain.value == existing && named[remote[c]] == c
                    else toDrain.value == c && named[remote[c]] == existing)
    {
      StepKeepsInv(Value(), Known(c));
      var r := remote[c];
      toDrain := None;
      if r !in named {
        assert c in unnamed;
        named, unnamed := named[r := c], unnamed - {c};
      } else if named[r] != c {
        assert c in unnamed;
        var existing := named[r];
        var existingInitiator := GetConnectionInitiator(existing);
        var newInitiator := GetConnectionInitiator(c);
        if Before(newInitiator, existingInitiator) {
          toDrain := Some(existing);
          assert existing !in unnamed;
          unnamed := unnamed + {existing};
          named := named[r := c];
          unnamed := unnamed - {c};
        } else {
          toDrain := Some(c);
        }
      } else {
        assert c !in unnamed;
      }
      if toDrain.Some? {
        draining := draining + {toDrain.value};
      }
    }

    method NotifyConnectionClosed(c: Conn)
      requires Inv(Value()) && Enabled(Value(), Close(c))
      modifies this
      ensures Value() == After(old(Value()), Close(c)) && Inv(Value())
    {
      StepKeepsInv(Value(), Close(c));
      if c !in remote || remote[c] !in named || named[remote[c]] != c {
        assert c in unnamed;
        unnamed := unnamed - {c};
      } else {
        assert c !in unnamed;
        named := named - {remote[c]};
      }
      open := open - {c};
    }
  }
}

/**
 Two peers that may each initiate a number of connections to the other, in every
 order of creating, accepting, greeting and closing. The connections that the
 left peer initiates have the even numbers at both ends, the right peer's the odd
 ones.
 */
module SimultaneousConnections {
  import opened Connections

  datatype Side = Left | Right

  function Opposite(side: Side): Side {
    if side == Left then Right else Left
  }

  /** The i-th connection that a side initiates. */
  function Nth(side: Side, i: nat): Conn {
    if side == Left then 2 * i else 2 * i + 1
  }

  /**
   One peer's manager, the connections it ever had, those whose HELLO it has
   heard, those for which it has handled HELLO to the end, how many connections
   it has initiated, and how many it may.
   */
  datatype Party = Party(m: Manager, ever: set<Conn>, greeted: set<Conn>, known: set<Conn>, made: nat, limit: nat)

  datatype World = World(left: Party, right: Party) {
    function At(side: Side): Party {
      if side == Left then left else right
    }

    function With(side: Side, p: Party): World {
      if side == Left then World(p, right) else World(left, p)
    }
  }

  function NewParty(id: PeerId, limit: nat): Party {
    Party(NewManager(id), {}, {}, {}, 0, limit)
  }

  function NewWorld(a: PeerId, b: PeerId, m: nat, n: nat): World {
    World(NewParty(a, m), NewParty(b, n))
  }

  datatype Move =
    | Initiate(side: Side, named: bool)
    | TakeUp(side: Side, conn: Conn)
    | Hello(side: Side, conn: Conn)
    | Finish(side: Side, conn: Conn)
    | End(side: Side, conn: Conn)

  function StepOf(w: World, move: Move): Step {
    var other := w.At(Opposite(move.side)).m.local;
    match move
    case Initiate(side, named) =>
      var c := Nth(side, w.At(side).made);
      if named then GetOrCreate(other, c) else Connect(c)
    case TakeUp(_, c) => Accept(c)
    case Hello(_, c) => Greet(c, other)
    case Finish(_, c) => Known(c)
    case End(_, c) => Close(c)
  }

  /**
   A peer initiates no more than it may. It can accept only what the other
   initiated, hears HELLO only from an end that exists, and a connection ends
   only after one of the peers drained it.
   */
  predicate CanMove(w: World, move: Move) {
    var p, q := w.At(move.side), w.At(Opposite(move.side));
    && Enabled(p.m, StepOf(w, move))
    && (match move
        case Initiate(_, _) => p.made < p.limit
        case TakeUp(_, c) => c in q.m.locally && c !in p.ever
        case Hello(_, c) => c in q.ever
        case Finish(_, c) => c in p.greeted
        case End(_, c) => c in p.m.draining || c in q.m.draining)
  }

  function PartyAfter(p: Party, step: Step): Party
    requires Enabled(p.m, step)
  {
    var m := After(p.m, step);
    match step
    case Greet(c, _) => p.(m := m, greeted := p.greeted + {c})
    case Known(c) => p.(m := m, known := p.known + {c})
    case Connect(_) => p.(m := m, ever := p.ever + m.open, made := p.made + 1)
    case GetOrCreate(_, c) =>
      p.(m := m, ever := p.ever + m.open, made := if c in m.open then p.made + 1 else p.made)
    case _ => p.(m := m, ever := p.ever + m.open)
  }

  function Moved(w: World, move: Move): World
    requires CanMove(w, move)
  {
    w.With(move.side, PartyAfter(w.At(move.side), StepOf(w, move)))
  }

  predicate IsRun(w: World, moves: seq<Move>)
    decreases |moves|, 0
  {
    moves == [] || (IsRun(w, moves[..|moves| - 1]) && CanMove(AfterRun(w, moves[..|moves| - 1]), moves[|moves| - 1]))
  }

  function AfterRun(w: World, moves: seq<Move>): World
    requires IsRun(w, moves)
    decreases |moves|, 1
  {
    if moves == [] then w else Moved(AfterRun(w, moves[..|moves| - 1]), moves[|moves| - 1])
  }

  // At most one connection from each side.

  /** The connection initiated by the peer whose id comes first. */
  function Kept(a: PeerId, b: PeerId): Conn {
    if Before(a, b) then 0 else 1
  }

  /** What holds at the peer `me`, whose own connection is `own`, towards `you`. */
  ghost predicate PartyInv(p: Party, me: PeerId, you: PeerId, own: Conn, theirs: Conn, kept: Conn) {
    && Inv(p.m) && p.m.local == me
    && p.made <= p.limit <= 1 && (own in p.ever <==> p.made == 1)
    && p.m.open <= p.ever <= {own, theirs} && p.m.locally == p.ever * {own}
    && (forall c | c in p.m.remote :: c in p.ever && p.m.remote[c] == you)
    && p.greeted <= p.m.remote.Keys && p.known <= p.greeted
    && p.m.draining <= p.ever - {kept}
    && (kept in p.ever ==> kept in p.m.open)
    && (kept in p.known ==> you in p.m.named && p.m.named[you] == kept)
  }

  /** As long as only one connection exists, it is not drained, and is named once it is known. */
  ghost predicate Alone(p: Party, you: PeerId, only: Conn) {
    && p.m.draining == {} && p.ever <= p.m.open
    && (only in p.known ==> you in p.m.named && p.m.named[you] == only)
  }

  ghost predicate WorldInv(w: World, a: PeerId, b: PeerId) {
    var kept := Kept(a, b);
    && PartyInv(w.left, a, b, 0, 1, kept) && PartyInv(w.right, b, a, 1, 0, kept)
    && (kept !in w.left.ever && kept !in w.right.ever ==> Alone(w.left, b, 1 - kept) && Alone(w.right, a, 1 - kept))
  }

  lemma IdentifiedKeeps(p: Party, me: PeerId, you: PeerId, own: Conn, theirs: Conn, kept: Conn, c: Conn)
    requires PartyInv(p, me, you, own, theirs, kept) && own != theirs && me != you
    requires kept == if Before(me, you) then own else theirs
    requires c in p.greeted && Enabled(p.m, Known(c))
    ensures PartyInv(PartyAfter(p, Known(c)), me, you, own, theirs, kept)
  {
    BeforeIsTotal(me, you);
    BeforeIsTotal(me, me);
    BeforeIsTotal(you, you);
    StepKeepsInv(p.m, Known(c));
    var after := After(p.m, Known(c));
    assert p.m.remote[c] == you && c in {own, theirs};
    if you in p.m.named && p.m.named[you] != c {
      var existing := p.m.named[you];
      assert existing in {own, theirs};
      assert Initiator(p.m, own) == me || own !in p.ever;
      assert after.draining == p.m.draining + {own + theirs - kept};
    }
  }

  /** The steps that a party may take. */
  predicate Fits(p: Party, you: PeerId, own: Conn, theirs: Conn, kept: Conn, step: Step) {
    match step
    case Connect(c) => c == own && own !in p.ever && p.made < p.limit
    case GetOrCreate(r, c) => r == you && c == own && own !in p.ever && p.made < p.limit
    case Accept(c) => c == theirs && theirs !in p.ever
    case Greet(c, r) => r == you
    case Known(c) => c in p.greeted
    case Close(c) => c != kept
  }

  lemma StepKeepsParty(p: Party, me: PeerId, you: PeerId, own: Conn, theirs: Conn, kept: Conn, step: Step)
    requires PartyInv(p, me, you, own, theirs, kept) && own != theirs && me != you
    requires kept == if Before(me, you) then own else theirs
    requires Enabled(p.m, step) && Fits(p, you, own, theirs, kept, step)
    ensures PartyInv(PartyAfter(p, step), me, you, own, theirs, kept)
  {
    StepKeepsInv(p.m, step);
    if step.Known? {
      IdentifiedKeeps(p, me, you, own, theirs, kept, step.conn);
    }
  }

  lemma StepKeepsAlone(p: Party, me: PeerId, you: PeerId, own: Conn, theirs: Conn, kept: Conn, step: Step)
    requires PartyInv(p, me, you, own, theirs, kept) && own != theirs && kept in {own, theirs}
    requires Enabled(p.m, step) && Fits(p, you, own, theirs, kept, step) && !step.Close?
    requires Alone(p, you, own + theirs - kept) && kept !in PartyAfter(p, step).ever
    ensures Alone(PartyAfter(p, step), you, own + theirs - kept)
  {
    var only, after := own + theirs - kept, PartyAfter(p, step);
    assert kept !in p.ever && p.ever <= {only};
    if you in p.m.named {
      assert p.m.named[you] in p.m.open;
    }
  }

  lemma MoveFits(w: World, move: Move, a: PeerId, b: PeerId)
    requires WorldInv(w, a, b) && CanMove(w, move)
    ensures if move.side == Left then Fits(w.left, b, 0, 1, Kept(a, b), StepOf(w, move))
            else Fits(w.right, a, 1, 0, Kept(a, b), StepOf(w, move))
  {
    var p, q := w.At(move.side), w.At(Opposite(move.side));
    if move.Initiate? {
      assert p.made == 0;
    }
  }

  lemma MoveKeepsInv(w: World, move: Move, a: PeerId, b: PeerId)
    requires WorldInv(w, a, b) && a != b && CanMove(w, move)
    ensures WorldInv(Moved(w, move), a, b)
  {
    BeforeIsTotal(a, b);
    MoveFits(w, move, a, b);
    if move.side == Left {
      SideKeepsInv(w.left, a, b, 0, 1, Kept(a, b), StepOf(w, move), w.right);
    } else {
      SideKeepsInv(w.right, b, a, 1, 0, Kept(a, b), StepOf(w, move), w.left);
    }
  }

  lemma SideKeepsInv(p: Party, me: PeerId, you: PeerId, own: Conn, theirs: Conn, kept: Conn, step: Step, q: Party)
    requires PartyInv(p, me, you, own, theirs, kept) && {own, theirs} == {0, 1} && me != you
    requires kept == if Before(me, you) then own else theirs
    requires kept !in p.ever && kept !in q.ever ==> Alone(p, you, 1 - kept) && q.m.draining == {}
    requires Enabled(p.m, step) && Fits(p, you, own, theirs, kept, step)
    requires step.Close? ==> step.conn in p.m.draining || step.conn in q.m.draining
    ensures PartyInv(PartyAfter(p, step), me, you, own, theirs, kept) && p.ever <= PartyAfter(p, step).ever
    ensures kept !in PartyAfter(p, step).ever && kept !in q.ever ==> Alone(PartyAfter(p, step), you, 1 - kept)
  {
    assert own + theirs == 1;
    StepKeepsParty(p, me, you, own, theirs, kept, step);
    if kept !in PartyAfter(p, step).ever && kept !in q.ever {
      StepKeepsAlone(p, me, you, own, theirs, kept, step);
    }
  }

  lemma {:induction false} RunKeepsInv(a: PeerId, b: PeerId, m: nat, n: nat, moves: seq<Move>)
    requires a != b && m <= 1 && n <= 1 && IsRun(NewWorld(a, b, m, n), moves)
    ensures WorldInv(AfterRun(NewWorld(a, b, m, n), moves), a, b)
    decreases |moves|
  {
    if moves != [] {
      RunKeepsInv(a, b, m, n, moves[..|moves| - 1]);
      MoveKeepsInv(AfterRun(NewWorld(a, b, m, n), moves[..|moves| - 1]), moves[|moves| - 1], a, b);
    }
  }

  /**
   As soon as a peer has handled HELLO on the connection initiated by the one
   whose id comes first, it names that connection, and never changes its mind:
   whatever happened, and happens, to the other connection.
   */
  lemma PeersAgree(a: PeerId, b: PeerId, m: nat, n: nat, moves: seq<Move>)
    requires a != b && m <= 1 && n <= 1 && IsRun(NewWorld(a, b, m, n), moves)
    ensures var w, kept := AfterRun(NewWorld(a, b, m, n), moves), Kept(a, b);
            && (kept in w.left.known ==> b in w.left.m.named && w.left.m.named[b] == kept)
            && (kept in w.right.known ==> a in w.right.m.named && w.right.m.named[a] == kept)
            && kept !in w.left.m.draining && kept !in w.right.m.draining
    ensures Kept(a, b) == 0 <==> Before(a, b)
    ensures Kept(a, b) == 1 <==> Before(b, a)
  {
    RunKeepsInv(a, b, m, n, moves);
    BeforeIsTotal(a, b);
  }

  /** At all times each open connection is in exactly one of the two maps, and at most one is named. */
  lemma EachInOneMap(a: PeerId, b: PeerId, m: nat, n: nat, moves: seq<Move>, side: Side)
    requires a != b && m <= 1 && n <= 1 && IsRun(NewWorld(a, b, m, n), moves)
    ensures var p := AfterRun(NewWorld(a, b, m, n), moves).At(side);
            (forall c | c in p.m.open :: IsNamed(p.m, c) != (c in p.m.unnamed)) && |p.m.named| <= 1
  {
    RunKeepsInv(a, b, m, n, moves);
    var p := AfterRun(NewWorld(a, b, m, n), moves).At(side);
    var you := if side == Left then b else a;
    assert p.m.named.Keys <= {you};
    AtMostOne(p.m.named, you);
  }

  lemma AtMostOne(named: map<PeerId, Conn>, you: PeerId)
    requires named.Keys <= {you}
    ensures |named| <= 1
  {
    if you in named {
      assert named.Keys == {you};
    } else {
      assert named.Keys == {};
    }
    assert |named| == |named.Keys|;
  }

  // Any number of connections.

  /** A connection on which HELLO was handled is named, or drained, or closed. */
  ghost predicate Handled(p: Party, you: PeerId, c: Conn) {
    c in p.known && c in p.m.open ==> c in p.m.draining || (you in p.m.named && p.m.named[you] == c)
  }

  ghost predicate Towards(p: Party, me: PeerId, you: PeerId) {
    && Inv(p.m) && p.m.local == me && p.known <= p.m.remote.Keys
    && (forall c | c in p.m.remote :: p.m.remote[c] == you)
    && forall c :: Handled(p, you, c)
  }

  lemma StepKeepsTowards(p: Party, me: PeerId, you: PeerId, step: Step)
    requires Towards(p, me, you) && Enabled(p.m, step)
    requires (step.Greet? ==> step.peer == you) && (step.GetOrCreate? ==> step.peer == you)
    ensures Towards(PartyAfter(p, step), me, you)
  {
    StepKeepsInv(p.m, step);
    if step.Known? {
      LoserIsDrained(p.m, step.conn);
    }
    forall c
      ensures Handled(PartyAfter(p, step), you, c)
    {
      assert Handled(p, you, c);
    }
  }

  lemma {:induction false} RunKeepsTowards(a: PeerId, b: PeerId, m: nat, n: nat, moves: seq<Move>)
    requires IsRun(NewWorld(a, b, m, n), moves)
    ensures var w := AfterRun(NewWorld(a, b, m, n), moves); Towards(w.left, a, b) && Towards(w.right, b, a)
    decreases |moves|
  {
    if moves != [] {
      RunKeepsTowards(a, b, m, n, moves[..|moves| - 1]);
      var w, move := AfterRun(NewWorld(a, b, m, n), moves[..|moves| - 1]), moves[|moves| - 1];
      if move.side == Left {
        StepKeepsTowards(w.left, a, b, StepOf(w, move));
      } else {
        StepKeepsTowards(w.right, b, a, StepOf(w, move));
      }
    }
  }

  /**
   However many connections the peers initiate: as soon as one of them has handled
   HELLO on a connection, that connection is the one it names, or it has been
   drained or is closed there. So of those it has handled, only one is not on its
   way out.
   */
  lemma OthersAreDrained(a: PeerId, b: PeerId, m: nat, n: nat, moves: seq<Move>, side: Side, c: Conn)
    requires IsRun(NewWorld(a, b, m, n), moves)
    ensures var p := AfterRun(NewWorld(a, b, m, n), moves).At(side);
            c in p.known ==> c !in p.m.open || c in p.m.draining || IsNamed(p.m, c)
  {
    RunKeepsTowards(a, b, m, n, moves);
    var p := AfterRun(NewWorld(a, b, m, n), moves).At(side);
    assert Handled(p, if side == Left then b else a, c);
  }

  /**
   With at most one connection from each: once a peer has handled HELLO on both,
   the one initiated by the peer whose id comes first is named there, and the
   other is being drained there or is closed.
   */
  lemma LoserGoes(a: PeerId, b: PeerId, m: nat, n: nat, moves: seq<Move>, side: Side)
    requires a != b && m <= 1 && n <= 1 && IsRun(NewWorld(a, b, m, n), moves)
    ensures var p, kept := AfterRun(NewWorld(a, b, m, n), moves).At(side), Kept(a, b);
            0 in p.known && 1 in p.known ==>
              && IsNamed(p.m, kept) && kept in p.m.open && kept !in p.m.draining
              && (1 - kept in p.m.draining || 1 - kept !in p.m.open)
  {
    RunKeepsInv(a, b, m, n, moves);
    OthersAreDrained(a, b, m, n, moves, side, 1 - Kept(a, b));
  }

  /** There are connections, and both peers have handled HELLO on all of them. */
  predicate Settled(w: World) {
    var all := w.left.ever + w.right.ever;
    all != {} && all <= w.left.known && all <= w.right.known
  }

  predicate NamesSame(w: World, a: PeerId, b: PeerId) {
    b in w.left.m.named && a in w.right.m.named && w.left.m.named[b] == w.right.m.named[a]
  }

  /** Whatever happens, two settled peers name the same connection. */
  ghost predicate AlwaysAgree(a: PeerId, b: PeerId, m: nat, n: nat) {
    forall moves | IsRun(NewWorld(a, b, m, n), moves) ::
      Settled(AfterRun(NewWorld(a, b, m, n), moves)) ==> NamesSame(AfterRun(NewWorld(a, b, m, n), moves), a, b)
  }

  /** Two peers are sure to agree exactly if neither may initiate more than one connection. */
  lemma AgreementExactlyWhen(a: PeerId, b: PeerId, m: nat, n: nat)
    requires a != b
    ensures AlwaysAgree(a, b, m, n) <==> m <= 1 && n <= 1
  {
    if m <= 1 && n <= 1 {
      forall moves | IsRun(NewWorld(a, b, m, n), moves) && Settled(AfterRun(NewWorld(a, b, m, n), moves))
        ensures NamesSame(AfterRun(NewWorld(a, b, m, n), moves), a, b)
      {
        RunKeepsInv(a, b, m, n, moves);
      }
    } else {
      var moves := TwoFromOnePeerCanDisagree(a, b, m, n, if m >= 2 then Left else Right);
    }
  }

  lemma OneMore(w: World, moves: seq<Move>, move: Move)
    requires IsRun(w, moves) && CanMove(AfterRun(w, moves), move)
    ensures IsRun(w, moves + [move]) && AfterRun(w, moves + [move]) == Moved(AfterRun(w, moves), move)
  {
    assert (moves + [move])[..|moves|] == moves;
  }

  /**
   One run of two peers of which one initiates two connections. It names the
   second one when it makes it; the other names the one it hears from first; and
   each drains the one that the other has named.
   */
  lemma TwoFromOnePeerCanDisagree(a: PeerId, b: PeerId, m: nat, n: nat, side: Side) returns (moves: seq<Move>)
    requires a != b && (if side == Left then m else n) >= 2
    ensures IsRun(NewWorld(a, b, m, n), moves)
    ensures var w := AfterRun(NewWorld(a, b, m, n), moves);
            && Settled(w) && !NamesSame(w, a, b)
            && w.At(side).m.draining == {Nth(side, 0)} && w.At(Opposite(side)).m.draining == {Nth(side, 1)}
  {
    var start, x, y := NewWorld(a, b, m, n), Nth(side, 0), Nth(side, 1);
    var me, you := start.At(side).m.local, start.At(Opposite(side)).m.local;
    moves := Initiating(start, side, me, you);
    moves := TakingUp(start, Opposite(side), you, x, y, moves);
    moves := Hearing(start, Opposite(side), you, me, x, y, moves);
    moves := HearingBack(start, side, me, you, x, y, moves);
  }

  lemma Initiating(start: World, side: Side, me: PeerId, you: PeerId) returns (moves: seq<Move>)
    requires me != you && start.At(side) == NewParty(me, start.At(side).limit) && start.At(side).limit >= 2
    requires start.At(Opposite(side)).m.local == you
    ensures IsRun(start, moves)
    ensures var x, y, w := Nth(side, 0), Nth(side, 1), AfterRun(start, moves);
            && w.At(side) == Party(Manager(me, map[you := y], {x}, {x, y}, {x, y}, map[y := you], {}),
                                   {x, y}, {}, {}, 2, start.At(side).limit)
            && w.At(Opposite(side)) == start.At(Opposite(side))
  {
    moves := [];
    OneMore(start, moves, Initiate(side, false));
    moves := moves + [Initiate(side, false)];
    OneMore(start, moves, Initiate(side, true));
    moves := moves + [Initiate(side, true)];
  }

  lemma TakingUp(start: World, side: Side, me: PeerId, x: Conn, y: Conn, before: seq<Move>) returns (moves: seq<Move>)
    requires IsRun(start, before) && x != y
    requires var w := AfterRun(start, before);
             && w.At(Opposite(side)).m.locally == {x, y}
             && w.At(side) == NewParty(me, w.At(side).limit)
    ensures IsRun(start, moves)
    ensures var w, v := AfterRun(start, before), AfterRun(start, moves);
            && v.At(Opposite(side)) == w.At(Opposite(side))
            && v.At(side) == Party(Manager(me, map[], {x, y}, {x, y}, {}, map[], {}),
                                   {x, y}, {}, {}, 0, w.At(side).limit)
  {
    AcceptedBoth(me, AfterRun(start, before).At(side).limit, x, y);
    OneMore(start, before, TakeUp(side, x));
    moves := before + [TakeUp(side, x)];
    OneMore(start, moves, TakeUp(side, y));
    moves := moves + [TakeUp(side, y)];
  }

  lemma AcceptedBoth(me: PeerId, limit: nat, x: Conn, y: Conn)
    requires x != y
    ensures var p := Party(Manager(me, map[], {x}, {x}, {}, map[], {}), {x}, {}, {}, 0, limit);
            && PartyAfter(NewParty(me, limit), Accept(x)) == p
            && PartyAfter(p, Accept(y)) ==
               Party(Manager(me, map[], {x, y}, {x, y}, {}, map[], {}), {x, y}, {}, {}, 0, limit)
  {
    var p := Party(Manager(me, map[], {x}, {x}, {}, map[], {}), {x}, {}, {}, 0, limit);
    assert {x} + {y} == {x, y};
    assert PartyAfter(p, Accept(y)).m.open == {x, y};
  }

  /** HELLO on a connection, handled to the end. */
  function Heard(p: Party, c: Conn, you: PeerId): Party
    requires Enabled(p.m, Greet(c, you))
  {
    PartyAfter(PartyAfter(p, Greet(c, you)), Known(c))
  }

  lemma HearingOne(start: World, side: Side, c: Conn, before: seq<Move>) returns (moves: seq<Move>)
    requires IsRun(start, before) && CanMove(AfterRun(start, before), Hello(side, c))
    ensures IsRun(start, moves)
    ensures var w, v := AfterRun(start, before), AfterRun(start, moves);
            v == w.With(side, Heard(w.At(side), c, w.At(Opposite(side)).m.local))
  {
    OneMore(start, before, Hello(side, c));
    moves := before + [Hello(side, c)];
    OneMore(start, moves, Finish(side, c));
    moves := moves + [Finish(side, c)];
  }

  /** The acceptor hears from x first and names it; y is then drained. */
  lemma Hearing(start: World, side: Side, me: PeerId, you: PeerId, x: Conn, y: Conn, before: seq<Move>)
    returns (moves: seq<Move>)
    requires IsRun(start, before) && me != you && x != y
    requires var w := AfterRun(start, before);
             && w.At(side) == Party(Manager(me, map[], {x, y}, {x, y}, {}, map[], {}),
                                    {x, y}, {}, {}, 0, w.At(side).limit)
             && w.At(Opposite(side)).m.local == you && w.At(Opposite(side)).ever == {x, y}
    ensures IsRun(start, moves)
    ensures var w, v := AfterRun(start, before), AfterRun(start, moves);
            && v.At(Opposite(side)) == w.At(Opposite(side))
            && v.At(side).m.local == me && v.At(side).m.named == map[you := x] && v.At(side).m.draining == {y}
            && v.At(side).ever == {x, y} == v.At(side).known
  {
    BeforeIsTotal(you, you);
    moves := HearingOne(start, side, x, before);
    moves := HearingOne(start, side, y, moves);
  }

  /** The initiator has named y, so it drains x when it hears from it. */
  lemma HearingBack(start: World, side: Side, me: PeerId, you: PeerId, x: Conn, y: Conn, before: seq<Move>)
    returns (moves: seq<Move>)
    requires IsRun(start, before) && me != you && x != y
    requires var w := AfterRun(start, before);
             && w.At(side) == Party(Manager(me, map[you := y], {x}, {x, y}, {x, y}, map[y := you], {}),
                                    {x, y}, {}, {}, 2, w.At(side).limit)
             && w.At(Opposite(side)).m.local == you && w.At(Opposite(side)).ever == {x, y}
    ensures IsRun(start, moves)
    ensures var w, v := AfterRun(start, before), AfterRun(start, moves);
            && v.At(Opposite(side)) == w.At(Opposite(side))
            && v.At(side).m.local == me && v.At(side).m.named == map[you := y] && v.At(side).m.draining == {x}
            && v.At(side).ever == {x, y} == v.At(side).known
  {
    HeardSecond(AfterRun(start, before).At(side), me, you, x, y);
    moves := HearingOne(start, side, x, before);
    moves := HearingOne(start, side, y, moves);
  }

  lemma HeardSecond(p: Party, me: PeerId, you: PeerId, x: Conn, y: Conn)
    requires me != you && x != y
    requires p == Party(Manager(me, map[you := y], {x}, {x, y}, {x, y}, map[y := you], {}), {x, y}, {}, {}, 2, p.limit)
    ensures Heard(p, x, you) ==
            Party(Manager(me, map[you := y], {x}, {x, y}, {x, y}, map[y := you, x := you], {x}),
                  {x, y}, {x}, {x}, 2, p.limit)
  {
    BeforeIsTotal(me, me);
    assert p.m.remote[x := you] == map[y := you, x := you];
  }
}

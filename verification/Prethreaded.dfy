/**
 * servers/prethreaded.c: a pool of worker threads takes turns in accept() under a
 * mutex; each worker echoes its connection and closes it. Any number of workers.
 */
module Prethreaded {
  import opened Prelude
  import opened Connections
  import EchoHandler

  /** Where a worker is; k is the number of the connection it holds. */
  datatype Pc =
    | Locking
    | Accepting
    | Unlocking(k: nat)
    | Echoing(k: nat)
    | Closing(k: nat)
    | AcceptFailed
    | EchoFailed(k: nat)

  /** An accepted connection, the worker that accepted it, and how often it was closed. */
  datatype Served = Served(worker: nat, conn: Conn, closes: nat)

  /** `owner` is the thread that locked the mutex, even after it has exited. */
  datatype Pool = Pool(owner: Option<nat>, workers: seq<Pc>, conns: seq<Served>, created: nat, joined: nat)

  datatype Action =
    | Create
    | Join
    | Lock(w: nat)
    | Accept(w: nat, sent: seq<Byte>, fin: bool)
    | AcceptFails(w: nat)
    | Unlock(w: nat)
    | Echo(w: nat, reply: Reply)
    | Close(w: nat)
    | ClientActs(k: nat, conn: Conn)

  function Initial(n: nat): Pool {
    Pool(None, seq(n, _ => Locking), [], 0, 0)
  }

  predicate Exited(pc: Pc) {
    pc.AcceptFailed? || pc.EchoFailed?
  }

  /** Between pthread_mutex_lock() and pthread_mutex_unlock(), or exited in between. */
  predicate Inside(pc: Pc) {
    pc.Accepting? || pc.Unlocking? || pc.AcceptFailed?
  }

  predicate HasConn(pc: Pc) {
    pc.Unlocking? || pc.Echoing? || pc.Closing? || pc.EchoFailed?
  }

  predicate At(p: Pool, w: nat) {
    w < |p.workers| && w < p.created
  }

  predicate Enabled(p: Pool, a: Action, bufsize: nat) {
    match a
    case Create => p.created < |p.workers|
    case Join => p.created == |p.workers| && p.joined < |p.workers| && Exited(p.workers[p.joined])
    case Lock(w) => At(p, w) && p.workers[w].Locking? && p.owner.None?
    case Accept(w, _, _) => At(p, w) && p.workers[w].Accepting?
    case AcceptFails(w) => At(p, w) && p.workers[w].Accepting?
    case Unlock(w) => At(p, w) && p.workers[w].Unlocking?
    case Echo(w, reply) =>
      At(p, w) && p.workers[w].Echoing? && p.workers[w].k < |p.conns| &&
      Allowed(p.conns[p.workers[w].k].conn, reply, bufsize)
    case Close(w) => At(p, w) && p.workers[w].Closing? && p.workers[w].k < |p.conns|
    case ClientActs(k, conn) => k < |p.conns| && ClientMoved(p.conns[k].conn, conn)
  }

  /** Where the worker goes after a round of the loop in handle_connection(). */
  function AfterEcho(out: EchoHandler.Outcome, k: nat): Pc {
    match out
    case GoesOn => Echoing(k)
    case AtEof => Closing(k)
    case _ => EchoFailed(k)
  }

  function Step(p: Pool, a: Action, bufsize: nat): Pool
    requires Enabled(p, a, bufsize)
  {
    match a
    case Create => p.(created := p.created + 1)
    case Join => p.(joined := p.joined + 1)
    case Lock(w) => p.(owner := Some(w), workers := p.workers[w := Accepting])
    case Accept(w, sent, fin) =>
      p.(conns := p.conns + [Served(w, Conn(|p.conns|, sent, fin, 0, [], false), 0)],
         workers := p.workers[w := Unlocking(|p.conns|)])
    case AcceptFails(w) => p.(workers := p.workers[w := AcceptFailed])
    case Unlock(w) => p.(owner := None, workers := p.workers[w := Echoing(p.workers[w].k)])
    case Echo(w, reply) =>
      var k := p.workers[w].k;
      var (conn, out) := EchoHandler.EchoOnce(p.conns[k].conn, reply);
      p.(conns := p.conns[k := p.conns[k].(conn := conn)], workers := p.workers[w := AfterEcho(out, k)])
    case Close(w) =>
      var k := p.workers[w].k;
      p.(conns := p.conns[k := p.conns[k].(closes := p.conns[k].closes + 1)], workers := p.workers[w := Locking])
    case ClientActs(k, conn) => p.(conns := p.conns[k := p.conns[k].(conn := conn)])
  }

  // ----- the invariant

  /** Exactly the lock's owner is inside, and it is one of the workers. */
  predicate LockOk(p: Pool) {
    && (forall w :: 0 <= w < |p.workers| ==> (Inside(p.workers[w]) <==> p.owner == Some(w)))
    && (p.owner.Some? ==> p.owner.value < |p.workers|)
  }

  /** A worker that holds a connection accepted it, and it is open. */
  predicate WorkersOk(p: Pool) {
    forall w :: 0 <= w < |p.workers| && HasConn(p.workers[w]) ==>
      p.workers[w].k < |p.conns| && p.conns[p.workers[w].k].worker == w && p.conns[p.workers[w].k].closes == 0
  }

  /** The state of connection k, given where its worker is. */
  predicate ConnOk(s: Served, pc: Pc, k: nat) {
    && (s.closes == 0 ==> HasConn(pc) && pc.k == k)
    && s.closes <= 1
    && Prefixed(s.conn)
    && (s.closes == 1 ==> s.conn.sawEof)
    && (s.closes == 0 && !pc.EchoFailed? ==> FaithfulSoFar(s.conn))
    && (s.closes == 0 ==> (s.conn.sawEof <==> pc.Closing?))
    && (s.conn.sawEof ==> s.conn.fin)
  }

  predicate ConnsOk(p: Pool) {
    forall k :: 0 <= k < |p.conns| ==>
      p.conns[k].worker < |p.workers| && ConnOk(p.conns[k], p.workers[p.conns[k].worker], k)
  }

  predicate MainOk(p: Pool) {
    && p.created <= |p.workers| && p.joined <= |p.workers|
    && (forall w :: p.created <= w < |p.workers| ==> p.workers[w].Locking?)
    && (forall w :: 0 <= w < p.joined ==> Exited(p.workers[w]))
  }

  predicate Inv(p: Pool) {
    LockOk(p) && WorkersOk(p) && ConnsOk(p) && MainOk(p)
  }

  lemma InitialInv(n: nat)
    ensures Inv(Initial(n))
  {
  }

  lemma ClientActsOk(s: Served, pc: Pc, k: nat, conn: Conn)
    requires ConnOk(s, pc, k) && ClientMoved(s.conn, conn)
    ensures ConnOk(s.(conn := conn), pc, k)
  {
    assert conn.sent[..conn.taken] == s.conn.sent[..s.conn.taken];
  }

  /** Worker w moves to another program counter without touching its connection. */
  lemma MoveKeepsInv(p: Pool, a: Action, bufsize: nat)
    requires Inv(p) && Enabled(p, a, bufsize)
    requires a.Lock? || a.AcceptFails? || a.Unlock? || a.Create? || a.Join?
    ensures Inv(Step(p, a, bufsize))
  {
    var q := Step(p, a, bufsize);
    forall k | 0 <= k < |q.conns| ensures ConnOk(q.conns[k], q.workers[q.conns[k].worker], k) {
      assert ConnOk(p.conns[k], p.workers[p.conns[k].worker], k);
    }
  }

  lemma AcceptKeepsInv(p: Pool, w: nat, sent: seq<Byte>, fin: bool, bufsize: nat)
    requires Inv(p) && Enabled(p, Accept(w, sent, fin), bufsize)
    ensures Inv(Step(p, Accept(w, sent, fin), bufsize))
  {
    var q := Step(p, Accept(w, sent, fin), bufsize);
    forall k | 0 <= k < |q.conns| ensures ConnOk(q.conns[k], q.workers[q.conns[k].worker], k) {
      if k < |p.conns| { assert ConnOk(p.conns[k], p.workers[p.conns[k].worker], k); }
    }
  }

  lemma EchoKeepsInv(p: Pool, w: nat, reply: Reply, bufsize: nat)
    requires Inv(p) && Enabled(p, Echo(w, reply), bufsize)
    ensures Inv(Step(p, Echo(w, reply), bufsize))
  {
    var k0 := p.workers[w].k;
    assert ConnOk(p.conns[k0], p.workers[w], k0);
    EchoHandler.EchoOnceFaithful(p.conns[k0].conn, reply, bufsize);
    var q := Step(p, Echo(w, reply), bufsize);
    forall k | 0 <= k < |q.conns| ensures ConnOk(q.conns[k], q.workers[q.conns[k].worker], k) {
      assert ConnOk(p.conns[k], p.workers[p.conns[k].worker], k);
    }
  }

  lemma CloseKeepsInv(p: Pool, w: nat, bufsize: nat)
    requires Inv(p) && Enabled(p, Close(w), bufsize)
    ensures Inv(Step(p, Close(w), bufsize))
  {
    var k0 := p.workers[w].k;
    assert ConnOk(p.conns[k0], p.workers[w], k0);
    var q := Step(p, Close(w), bufsize);
    forall k | 0 <= k < |q.conns| ensures ConnOk(q.conns[k], q.workers[q.conns[k].worker], k) {
      assert ConnOk(p.conns[k], p.workers[p.conns[k].worker], k);
    }
  }

  lemma StepKeepsInv(p: Pool, a: Action, bufsize: nat)
    requires Inv(p) && Enabled(p, a, bufsize)
    ensures Inv(Step(p, a, bufsize))
  {
    match a {
      case Accept(w, sent, fin) => AcceptKeepsInv(p, w, sent, fin, bufsize);
      case Echo(w, reply) => EchoKeepsInv(p, w, reply, bufsize);
      case Close(w) => CloseKeepsInv(p, w, bufsize);
      case ClientActs(k, conn) =>
        assert ConnOk(p.conns[k], p.workers[p.conns[k].worker], k);
        ClientActsOk(p.conns[k], p.workers[p.conns[k].worker], k, conn);
      case _ => MoveKeepsInv(p, a, bufsize);
    }
  }

  // ----- what the invariant means

  lemma AtMostOneInAccept(p: Pool, v: nat, w: nat)
    requires Inv(p) && v < |p.workers| && w < |p.workers| && p.workers[v].Accepting? && p.workers[w].Accepting?
    ensures v == w
  {
    assert Inside(p.workers[v]) && Inside(p.workers[w]);
  }

  /** A connection that is not closed is in the hands of the one worker that accepted it. */
  lemma OpenConnectionHasItsWorker(p: Pool, k: nat, w: nat)
    requires Inv(p) && k < |p.conns| && p.conns[k].closes == 0 && w < |p.workers|
    ensures HasConn(p.workers[w]) && p.workers[w].k == k <==> w == p.conns[k].worker
  {
    assert ConnOk(p.conns[k], p.workers[p.conns[k].worker], k);
  }

  /** No more connections are open than there are workers. */
  lemma {:induction false} OpenConnectionsBounded(p: Pool, open: set<nat>)
    requires Inv(p) && forall k :: k in open <==> 0 <= k < |p.conns| && p.conns[k].closes == 0
    ensures |open| <= |p.workers|
  {
    var holders := set k | k in open :: p.conns[k].worker;
    forall k | k in open ensures HasConn(p.workers[p.conns[k].worker]) && p.workers[p.conns[k].worker].k == k {
      assert ConnOk(p.conns[k], p.workers[p.conns[k].worker], k);
    }
    ImageSize(p, open, holders);
    BoundedSetSize(set k | k in open :: p.conns[k].worker as int, 0, |p.workers|);
    assert holders == set k | k in open :: p.conns[k].worker as int;
  }

  lemma {:induction false} ImageSize(p: Pool, open: set<nat>, holders: set<nat>)
    requires forall k :: k in open ==> k < |p.conns| && p.conns[k].worker < |p.workers|
    requires forall k :: k in open ==> HasConn(p.workers[p.conns[k].worker]) && p.workers[p.conns[k].worker].k == k
    requires holders == set k | k in open :: p.conns[k].worker
    ensures |open| == |holders|
  {
    if open != {} {
      var k :| k in open;
      var w := p.conns[k].worker;
      var rest := open - {k};
      ImageSize(p, rest, set j | j in rest :: p.conns[j].worker);
      assert holders == (set j | j in rest :: p.conns[j].worker) + {w};
      assert w !in set j | j in rest :: p.conns[j].worker;
    }
  }

  // ----- after a failure

  predicate SomeoneFailedToAccept(p: Pool) {
    exists w :: 0 <= w < |p.workers| && p.workers[w].AcceptFailed?
  }

  /** A worker whose accept() fails exits with the mutex locked: it stays locked and nobody accepts. */
  lemma LockedForGood(p: Pool, a: Action, bufsize: nat)
    requires Inv(p) && SomeoneFailedToAccept(p) && Enabled(p, a, bufsize)
    ensures !a.Lock? && !a.Accept? && !a.AcceptFails? && !a.Unlock?
    ensures SomeoneFailedToAccept(Step(p, a, bufsize))
    ensures Step(p, a, bufsize).owner == p.owner && |Step(p, a, bufsize).conns| == |p.conns|
  {
    var w :| 0 <= w < |p.workers| && p.workers[w].AcceptFailed?;
    assert Inside(p.workers[w]) && p.owner == Some(w);
    assert Step(p, a, bufsize).workers[w].AcceptFailed?;
  }

  /** main() returns only when all workers have exited, all but at most one of them out of an echo. */
  lemma WhenMainReturns(p: Pool, v: nat, w: nat)
    requires Inv(p) && p.joined == |p.workers| && v < |p.workers| && w < |p.workers| && v != w
    ensures p.workers[v].EchoFailed? || p.workers[w].EchoFailed?
  {
    assert Exited(p.workers[v]) && Exited(p.workers[w]);
    assert Inside(p.workers[v]) ==> p.owner == Some(v);
    assert Inside(p.workers[w]) ==> p.owner == Some(w);
  }

  // ----- whole runs

  ghost predicate IsRun(trace: seq<Pool>, actions: seq<Action>, bufsize: nat) {
    && |trace| == |actions| + 1
    && (forall k :: 0 <= k < |actions| ==>
          Enabled(trace[k], actions[k], bufsize) && trace[k + 1] == Step(trace[k], actions[k], bufsize))
  }

  /** How many connections k steps have accepted. */
  function Accepts(actions: seq<Action>, k: nat): nat
    requires k <= |actions|
  {
    if k == 0 then 0 else Accepts(actions, k - 1) + if actions[k - 1].Accept? then 1 else 0
  }

  /** The worker whose accept() was the m-th. */
  function Acceptor(actions: seq<Action>, m: nat, k: nat): nat
    requires k <= |actions|
  {
    if k == 0 then 0
    else if actions[k - 1].Accept? && Accepts(actions, k - 1) == m then actions[k - 1].w
    else Acceptor(actions, m, k - 1)
  }

  /** What the m-th client has sent within k steps, before it was accepted and since, and whether it has stopped. */
  function InputOf(actions: seq<Action>, m: nat, k: nat): (seq<Byte>, bool)
    requires k <= |actions|
  {
    if k == 0 then ([], false) else
    match actions[k - 1]
    case Accept(_, sent, fin) => if Accepts(actions, k - 1) == m then (sent, fin) else InputOf(actions, m, k - 1)
    case ClientActs(j, conn) => if j == m then (conn.sent, conn.fin) else InputOf(actions, m, k - 1)
    case _ => InputOf(actions, m, k - 1)
  }

  /** Connection m has the input and the worker that the actions say. */
  predicate ConnAt(s: Served, actions: seq<Action>, m: nat, k: nat)
    requires k <= |actions|
  {
    s.worker == Acceptor(actions, m, k) && (s.conn.sent, s.conn.fin) == InputOf(actions, m, k)
  }

  ghost predicate ConnsAt(p: Pool, actions: seq<Action>, k: nat)
    requires k <= |actions|
  {
    |p.conns| == Accepts(actions, k) && forall m :: 0 <= m < |p.conns| ==> ConnAt(p.conns[m], actions, m, k)
  }

  lemma ConnsFollow(p: Pool, actions: seq<Action>, k: nat, bufsize: nat)
    requires k < |actions| && Enabled(p, actions[k], bufsize) && ConnsAt(p, actions, k)
    ensures ConnsAt(Step(p, actions[k], bufsize), actions, k + 1)
  {
    var q := Step(p, actions[k], bufsize);
    forall m | 0 <= m < |q.conns| ensures ConnAt(q.conns[m], actions, m, k + 1) {
      if m < |p.conns| { assert ConnAt(p.conns[m], actions, m, k); }
    }
  }

  /** Its echo is a prefix of that input, and all of it once it is closed, which it is at most once. */
  predicate EchoAt(s: Served, actions: seq<Action>, m: nat, k: nat)
    requires k <= |actions|
  {
    && s.closes <= 1 && s.conn.echoed <= InputOf(actions, m, k).0
    && (s.closes == 1 ==> s.conn.echoed == InputOf(actions, m, k).0 && InputOf(actions, m, k).1)
  }

  /** Over every run the m-th client gets back what it sent itself, and all of it before its connection is closed. */
  lemma {:induction false} EveryRun(trace: seq<Pool>, actions: seq<Action>, n: nat, bufsize: nat, k: nat)
    requires IsRun(trace, actions, bufsize) && trace[0] == Initial(n) && k < |trace|
    ensures Inv(trace[k]) && |trace[k].workers| == n
    ensures ConnsAt(trace[k], actions, k)
    ensures forall m :: 0 <= m < |trace[k].conns| ==> EchoAt(trace[k].conns[m], actions, m, k)
  {
    if k == 0 {
      InitialInv(n);
    } else {
      EveryRun(trace, actions, n, bufsize, k - 1);
      StepKeepsInv(trace[k - 1], actions[k - 1], bufsize);
      ConnsFollow(trace[k - 1], actions, k - 1, bufsize);
    }
    forall m | 0 <= m < |trace[k].conns| ensures EchoAt(trace[k].conns[m], actions, m, k) {
      assert ConnOk(trace[k].conns[m], trace[k].workers[trace[k].conns[m].worker], m);
      assert ConnAt(trace[k].conns[m], actions, m, k);
    }
  }

  /**
   * A worker that is about to accept again has closed every connection it accepted
   * exactly once, after its client had stopped sending and got everything back.
   */
  lemma ClosedBeforeAcceptingAgain(trace: seq<Pool>, actions: seq<Action>, n: nat, bufsize: nat, k: nat, m: nat)
    requires IsRun(trace, actions, bufsize) && trace[0] == Initial(n) && k < |trace|
    requires m < Accepts(actions, k) && Acceptor(actions, m, k) < |trace[k].workers|
    requires var pc := trace[k].workers[Acceptor(actions, m, k)]; pc.Locking? || pc.Accepting?
    ensures m < |trace[k].conns| && trace[k].conns[m].closes == 1
    ensures trace[k].conns[m].conn.echoed == InputOf(actions, m, k).0 && InputOf(actions, m, k).1
  {
    EveryRun(trace, actions, n, bufsize, k);
    assert ConnAt(trace[k].conns[m], actions, m, k) && EchoAt(trace[k].conns[m], actions, m, k);
    assert ConnOk(trace[k].conns[m], trace[k].workers[trace[k].conns[m].worker], m);
  }

  /** After a failed accept() no continuation, however long, accepts another connection. */
  lemma {:induction false} NoAcceptAfterFailure(trace: seq<Pool>, actions: seq<Action>, bufsize: nat, k: nat)
    requires IsRun(trace, actions, bufsize) && Inv(trace[0]) && SomeoneFailedToAccept(trace[0]) && k < |trace|
    ensures Inv(trace[k]) && SomeoneFailedToAccept(trace[k])
    ensures |trace[k].conns| == |trace[0].conns| && trace[k].owner == trace[0].owner
    ensures k < |actions| ==> !actions[k].Accept? && !actions[k].Lock?
  {
    if k > 0 {
      NoAcceptAfterFailure(trace, actions, bufsize, k - 1);
      StepKeepsInv(trace[k - 1], actions[k - 1], bufsize);
      LockedForGood(trace[k - 1], actions[k - 1], bufsize);
    }
    if k < |actions| { LockedForGood(trace[k], actions[k], bufsize); }
  }

  /** Three steps are enough: the first worker is created, locks, and its accept() fails. */
  lemma FailureIsReached(n: nat, bufsize: nat) returns (trace: seq<Pool>, actions: seq<Action>)
    requires n > 0
    ensures IsRun(trace, actions, bufsize) && trace[0] == Initial(n) && |actions| == 3
    ensures SomeoneFailedToAccept(trace[3]) && trace[3].owner == Some(0)
  {
    var p := Initial(n);
    var p1 := Step(p, Create, bufsize);
    var p2 := Step(p1, Lock(0), bufsize);
    var p3 := Step(p2, AcceptFails(0), bufsize);
    trace, actions := [p, p1, p2, p3], [Create, Lock(0), AcceptFails(0)];
    assert p3.workers[0].AcceptFailed?;
  }

  // ----- exactly when the pool can still accept

  predicate SomeoneAccepts(p: Pool) {
    exists w :: 0 <= w < |p.workers| && p.workers[w].Accepting?
  }

  /** Some continuation, however long, brings a worker into accept(). */
  ghost predicate MayAccept(p: Pool, bufsize: nat) {
    exists trace: seq<Pool>, actions: seq<Action> ::
      IsRun(trace, actions, bufsize) && trace[0] == p && SomeoneAccepts(trace[|actions|])
  }

  lemma Prepend(p: Pool, a: Action, bufsize: nat)
    requires Enabled(p, a, bufsize) && MayAccept(Step(p, a, bufsize), bufsize)
    ensures MayAccept(p, bufsize)
  {
    var q := Step(p, a, bufsize);
    var trace: seq<Pool>, actions: seq<Action> :|
      IsRun(trace, actions, bufsize) && trace[0] == q && SomeoneAccepts(trace[|actions|]);
    var trace', actions' := [p] + trace, [a] + actions;
    assert trace'[|actions'|] == trace[|actions|];
    assert IsRun(trace', actions', bufsize);
  }

  lemma AcceptsNow(p: Pool, bufsize: nat)
    requires SomeoneAccepts(p)
    ensures MayAccept(p, bufsize)
  {
    assert IsRun([p], [], bufsize);
  }

  /** A worker that is created and stands before the free lock. */
  lemma {:induction false} LockerAccepts(p: Pool, w: nat, bufsize: nat)
    requires Inv(p) && w < |p.workers| && p.workers[w].Locking? && p.owner.None?
    ensures MayAccept(p, bufsize)
    decreases |p.workers| - p.created
  {
    if w < p.created {
      var q := Step(p, Lock(w), bufsize);
      assert q.workers[w].Accepting?;
      AcceptsNow(q, bufsize);
      Prepend(p, Lock(w), bufsize);
    } else {
      StepKeepsInv(p, Create, bufsize);
      LockerAccepts(Step(p, Create, bufsize), w, bufsize);
      Prepend(p, Create, bufsize);
    }
  }

  lemma CloserAccepts(p: Pool, w: nat, bufsize: nat)
    requires Inv(p) && At(p, w) && p.workers[w].Closing? && p.owner.None?
    ensures MayAccept(p, bufsize)
  {
    StepKeepsInv(p, Close(w), bufsize);
    LockerAccepts(Step(p, Close(w), bufsize), w, bufsize);
    Prepend(p, Close(w), bufsize);
  }

  /** The next byte of a connection, read and echoed; then its end of file. */
  function NextReply(c: Conn): Reply
    requires c.taken <= |c.sent|
  {
    if c.taken < |c.sent| then Reply(Data(c.sent[c.taken..c.taken + 1]), 1) else Reply(Eof, 0)
  }

  /** A worker that echoes gets through if its client has stopped sending. */
  lemma {:induction false} DrainerAccepts(p: Pool, w: nat, bufsize: nat)
    requires Inv(p) && At(p, w) && p.workers[w].Echoing? && p.owner.None? && bufsize > 0
    requires p.conns[p.workers[w].k].conn.fin
    requires p.conns[p.workers[w].k].conn.taken <= |p.conns[p.workers[w].k].conn.sent|
    ensures MayAccept(p, bufsize)
    decreases |p.conns[p.workers[w].k].conn.sent| - p.conns[p.workers[w].k].conn.taken
  {
    var a := Echo(w, NextReply(p.conns[p.workers[w].k].conn));
    var q := Step(p, a, bufsize);
    StepKeepsInv(p, a, bufsize);
    if q.workers[w].Closing? { CloserAccepts(q, w, bufsize); } else { DrainerAccepts(q, w, bufsize); }
    Prepend(p, a, bufsize);
  }

  lemma EchoerAccepts(p: Pool, w: nat, bufsize: nat)
    requires Inv(p) && At(p, w) && p.workers[w].Echoing? && p.owner.None? && bufsize > 0
    ensures MayAccept(p, bufsize)
  {
    var k := p.workers[w].k;
    assert ConnOk(p.conns[k], p.workers[w], k);
    var a := ClientActs(k, p.conns[k].conn.(fin := true));
    StepKeepsInv(p, a, bufsize);
    DrainerAccepts(Step(p, a, bufsize), w, bufsize);
    Prepend(p, a, bufsize);
  }

  /** With the lock free, any worker that has not exited can get into accept(). */
  lemma FreeLockAccepts(p: Pool, w: nat, bufsize: nat)
    requires Inv(p) && w < |p.workers| && !Exited(p.workers[w]) && p.owner.None? && bufsize > 0
    ensures MayAccept(p, bufsize)
  {
    assert !Inside(p.workers[w]);
    match p.workers[w] {
      case Locking => LockerAccepts(p, w, bufsize);
      case Echoing(_) => EchoerAccepts(p, w, bufsize);
      case Closing(_) => CloserAccepts(p, w, bufsize);
    }
  }

  /** So does the lock's owner, unless it has exited. */
  lemma OwnerAccepts(p: Pool, bufsize: nat)
    requires Inv(p) && p.owner.Some? && !SomeoneFailedToAccept(p) && bufsize > 0
    ensures MayAccept(p, bufsize)
  {
    var w := p.owner.value;
    assert Inside(p.workers[w]) && !p.workers[w].AcceptFailed?;
    if p.workers[w].Accepting? {
      AcceptsNow(p, bufsize);
    } else {
      StepKeepsInv(p, Unlock(w), bufsize);
      EchoerAccepts(Step(p, Unlock(w), bufsize), w, bufsize);
      Prepend(p, Unlock(w), bufsize);
    }
  }

  predicate SomeoneRuns(p: Pool) {
    exists w :: 0 <= w < |p.workers| && !Exited(p.workers[w])
  }

  /** A worker that has exited stays so, whoever moves. */
  lemma ExitedForGood(p: Pool, a: Action, bufsize: nat)
    requires Enabled(p, a, bufsize) && !SomeoneRuns(p)
    ensures !SomeoneRuns(Step(p, a, bufsize))
  {
    var q := Step(p, a, bufsize);
    forall w | 0 <= w < |q.workers| ensures Exited(q.workers[w]) {
      assert Exited(p.workers[w]);
    }
  }

  lemma {:induction false} NobodyEverRuns(trace: seq<Pool>, actions: seq<Action>, bufsize: nat, k: nat)
    requires IsRun(trace, actions, bufsize) && !SomeoneRuns(trace[0]) && k < |trace|
    ensures !SomeoneRuns(trace[k])
  {
    if k > 0 {
      NobodyEverRuns(trace, actions, bufsize, k - 1);
      ExitedForGood(trace[k - 1], actions[k - 1], bufsize);
    }
  }

  /** A failed accept() leaves nobody else inside, so nobody is in accept(). */
  lemma FailureExcludesAccept(p: Pool)
    requires Inv(p) && SomeoneFailedToAccept(p)
    ensures !SomeoneAccepts(p)
  {
    var v :| 0 <= v < |p.workers| && p.workers[v].AcceptFailed?;
    assert Inside(p.workers[v]);
    forall w | 0 <= w < |p.workers| ensures !p.workers[w].Accepting? {
      assert Inside(p.workers[w]) ==> p.owner == Some(w);
    }
  }

  /**
   * The exact condition: some continuation brings a worker into accept() again if and
   * only if no accept() has failed and some worker has not exited.
   */
  lemma MayAcceptExactly(p: Pool, bufsize: nat)
    requires Inv(p) && bufsize > 0
    ensures MayAccept(p, bufsize) <==> !SomeoneFailedToAccept(p) && SomeoneRuns(p)
  {
    if MayAccept(p, bufsize) {
      var trace: seq<Pool>, actions: seq<Action> :|
        IsRun(trace, actions, bufsize) && trace[0] == p && SomeoneAccepts(trace[|actions|]);
      if SomeoneFailedToAccept(p) {
        NoAcceptAfterFailure(trace, actions, bufsize, |actions|);
        FailureExcludesAccept(trace[|actions|]);
      }
      if !SomeoneRuns(p) {
        NobodyEverRuns(trace, actions, bufsize, |actions|);
      }
    }
    if !SomeoneFailedToAccept(p) && SomeoneRuns(p) {
      var w :| 0 <= w < |p.workers| && !Exited(p.workers[w]);
      if p.owner.None? { FreeLockAccepts(p, w, bufsize); } else { OwnerAccepts(p, bufsize); }
    }
  }
}

/**
 * servers/forking.c: one child per connection, reaped by a SIGCHLD handler.
 * Signals coalesce; children exit at any time, also while the handler runs.
 */
module Forking {

  /** What a descriptor refers to; connections are numbered as they are accepted. */
  datatype Object = Listener | Conn(k: nat) | Other

  type Table = map<int, Object>

  datatype ChildPc = Started | Serving | Closed | Zombie | Reaped

  datatype Child = Child(pc: ChildPc, cfd: int, fds: Table)

  datatype ParentPc = Accepting | Forked(cfd: int) | Closing(cfd: int) | Halted

  /**
   * `pending` is the one bit in which SIGCHLDs are remembered, `handling` says that
   * the handler runs (and that the rest of the parent stands still), `reaped` logs
   * what waitpid() returned.
   */
  datatype System = System(parent: ParentPc, pfds: Table, children: seq<Child>, accepted: nat,
                           pending: bool, handling: bool, reaped: seq<nat>)

  datatype Action =
    | Accept(cfd: int)
    | AcceptFails
    | Fork
    | ForkFails
    | CloseClient
    | ChildClosesListener(i: nat)
    | ChildCloses(i: nat)
    | ChildFails(i: nat)
    | ChildExits(i: nat)
    | HandlerStarts
    | Reap(i: nat)
    | HandlerReturns

  /** The parent's table before the first accept(), and the handler's loop: `while` as written, or `if`. */
  datatype Config = Config(sfd: int, table: Table, loops: bool)

  predicate ConfigOk(c: Config) {
    && c.sfd in c.table && c.table[c.sfd] == Listener
    && forall fd :: fd in c.table ==> !c.table[fd].Conn? && (fd != c.sfd ==> !c.table[fd].Listener?)
  }

  function Initial(c: Config): System {
    System(Accepting, c.table, [], 0, false, false, [])
  }

  predicate IsZombie(s: System, i: nat) {
    i < |s.children| && s.children[i].pc == Zombie
  }

  predicate NoZombies(s: System) {
    forall i :: 0 <= i < |s.children| ==> s.children[i].pc != Zombie
  }

  predicate Running(s: System) {
    s.parent != Halted && !s.handling
  }

  predicate Enabled(s: System, a: Action, c: Config) {
    match a
    case Accept(cfd) => Running(s) && s.parent.Accepting? && cfd !in s.pfds
    case AcceptFails => Running(s) && s.parent.Accepting?
    case Fork => Running(s) && s.parent.Forked?
    case ForkFails => Running(s) && s.parent.Forked?
    case CloseClient => Running(s) && s.parent.Closing?
    case ChildClosesListener(i) => i < |s.children| && s.children[i].pc == Started
    case ChildCloses(i) => i < |s.children| && s.children[i].pc == Serving
    case ChildFails(i) => i < |s.children| && s.children[i].pc == Serving
    case ChildExits(i) => i < |s.children| && s.children[i].pc == Closed
    case HandlerStarts => s.pending && Running(s)
    case Reap(i) => s.handling && s.parent != Halted && IsZombie(s, i)
    case HandlerReturns => s.handling && s.parent != Halted && NoZombies(s)
  }

  /** Process i exits: its descriptors are closed and SIGCHLD becomes pending. */
  function Exit(s: System, i: nat): System
    requires i < |s.children|
  {
    s.(children := s.children[i := s.children[i].(pc := Zombie, fds := map[])], pending := true)
  }

  function Step(s: System, a: Action, c: Config): System
    requires Enabled(s, a, c)
  {
    match a
    case Accept(cfd) => s.(parent := Forked(cfd), pfds := s.pfds[cfd := Conn(s.accepted)], accepted := s.accepted + 1)
    case AcceptFails => s.(parent := Halted, pfds := map[])
    case Fork => s.(parent := Closing(s.parent.cfd), children := s.children + [Child(Started, s.parent.cfd, s.pfds)])
    case ForkFails => s.(parent := Halted, pfds := map[])
    case CloseClient => s.(parent := Accepting, pfds := s.pfds - {s.parent.cfd})
    case ChildClosesListener(i) =>
      s.(children := s.children[i := s.children[i].(pc := Serving, fds := s.children[i].fds - {c.sfd})])
    case ChildCloses(i) =>
      s.(children := s.children[i := s.children[i].(pc := Closed, fds := s.children[i].fds - {s.children[i].cfd})])
    case ChildFails(i) => Exit(s, i)
    case ChildExits(i) => Exit(s, i)
    case HandlerStarts => s.(pending := false, handling := true)
    case Reap(i) =>
      s.(children := s.children[i := s.children[i].(pc := Reaped)], reaped := s.reaped + [i], handling := c.loops)
    case HandlerReturns => s.(handling := false)
  }

  // ----- the invariant

  /** With the handler's loop, zombies are always about to be collected. */
  predicate ZombiesSeen(s: System) {
    s.parent != Halted && !s.pending && !s.handling ==> NoZombies(s)
  }

  ghost predicate LogOk(s: System) {
    && (forall j :: 0 <= j < |s.reaped| ==> s.reaped[j] < |s.children| && s.children[s.reaped[j]].pc == Reaped)
    && (forall j, k :: 0 <= j < k < |s.reaped| ==> s.reaped[j] != s.reaped[k])
    && (forall i :: 0 <= i < |s.children| && s.children[i].pc == Reaped ==> i in s.reaped)
  }

  /** The parent holds what it started with, and the client's descriptor between accept() and close(). */
  predicate ParentOk(s: System, c: Config) {
    match s.parent
    case Accepting => s.pfds == c.table && s.accepted == |s.children|
    case Forked(cfd) =>
      cfd !in c.table && s.pfds == c.table[cfd := Conn(|s.children|)] && s.accepted == |s.children| + 1
    case Closing(cfd) =>
      cfd !in c.table && |s.children| > 0 && s.pfds == c.table[cfd := Conn(|s.children| - 1)] &&
      s.accepted == |s.children|
    case Halted => s.pfds == map[]
  }

  function ChildTable(ch: Child, i: nat, c: Config): Table {
    match ch.pc
    case Started => c.table[ch.cfd := Conn(i)]
    case Serving => (c.table - {c.sfd})[ch.cfd := Conn(i)]
    case Closed => c.table - {c.sfd}
    case _ => map[]
  }

  predicate ChildOk(ch: Child, i: nat, c: Config) {
    ch.cfd !in c.table && ch.fds == ChildTable(ch, i, c)
  }

  ghost predicate Inv(s: System, c: Config) {
    && (c.loops ==> ZombiesSeen(s))
    && LogOk(s)
    && ParentOk(s, c)
    && (forall i :: 0 <= i < |s.children| ==> ChildOk(s.children[i], i, c))
  }

  lemma InitialInv(c: Config)
    requires ConfigOk(c)
    ensures Inv(Initial(c), c)
  {
  }

  lemma ChildStepOk(s: System, a: Action, i: nat, c: Config)
    requires ConfigOk(c) && Inv(s, c) && Enabled(s, a, c) && i < |s.children|
    requires (a.ChildClosesListener? || a.ChildCloses? || a.ChildFails? || a.ChildExits?) && a.i == i
    ensures Inv(Step(s, a, c), c)
  {
    var t := Step(s, a, c);
    var ch := s.children[i];
    assert ChildOk(ch, i, c);
    assert ch.cfd != c.sfd;
    assert t.children[i].fds == ChildTable(t.children[i], i, c);
    assert i !in s.reaped;
    assert forall j :: 0 <= j < |s.children| && j != i ==> t.children[j] == s.children[j];
  }

  lemma ReapOk(s: System, i: nat, c: Config)
    requires ConfigOk(c) && Inv(s, c) && Enabled(s, Reap(i), c)
    ensures Inv(Step(s, Reap(i), c), c)
  {
    assert i !in s.reaped;
    var t := Step(s, Reap(i), c);
    assert forall j :: 0 <= j < |s.children| && j != i ==> t.children[j] == s.children[j];
    assert t.reaped[|s.reaped|] == i;
    assert forall j :: j in s.reaped ==> j in t.reaped;
  }

  lemma StepKeepsInv(s: System, a: Action, c: Config)
    requires ConfigOk(c) && Inv(s, c) && Enabled(s, a, c)
    ensures Inv(Step(s, a, c), c)
  {
    match a {
      case ChildClosesListener(i) => ChildStepOk(s, a, i, c);
      case ChildCloses(i) => ChildStepOk(s, a, i, c);
      case ChildFails(i) => ChildStepOk(s, a, i, c);
      case ChildExits(i) => ChildStepOk(s, a, i, c);
      case Reap(i) => ReapOk(s, i, c);
      case _ =>
    }
  }

  // ----- counting children

  function With(s: System, zombie: bool): set<nat> {
    set i | 0 <= i < |s.children| && s.children[i].pc != Reaped && (s.children[i].pc == Zombie) == zombie
  }

  lemma {:induction false} LogIsASet(log: seq<nat>) returns (all: set<nat>)
    requires forall j, k :: 0 <= j < k < |log| ==> log[j] != log[k]
    ensures |all| == |log| && forall i :: i in all <==> i in log
  {
    if log == [] {
      all := {};
    } else {
      var n := |log| - 1;
      var rest := LogIsASet(log[..n]);
      assert log == log[..n] + [log[n]];
      all := rest + {log[n]};
    }
  }

  lemma {:induction false} RangeSize(n: nat, all: set<nat>)
    requires forall i :: i in all <==> 0 <= i < n
    ensures |all| == n
  {
    if n == 0 {
      assert all == {};
    } else {
      RangeSize(n - 1, all - {n - 1});
      assert all == (all - {n - 1}) + {n - 1};
    }
  }

  /** No child is lost or counted twice: running + zombies + reaped == forked. */
  lemma ChildrenConserved(s: System, c: Config)
    requires Inv(s, c)
    ensures |With(s, false)| + |With(s, true)| + |s.reaped| == |s.children|
  {
    var gone := LogIsASet(s.reaped);
    var all := With(s, false) + With(s, true) + gone;
    RangeSize(|s.children|, all);
    assert With(s, false) !! With(s, true) && (With(s, false) + With(s, true)) !! gone;
  }

  /** When nothing is pending, no handler runs and every child has exited, each was reaped exactly once. */
  lemma AllReaped(s: System, c: Config)
    requires c.loops && Inv(s, c) && s.parent != Halted && !s.pending && !s.handling
    requires forall i :: 0 <= i < |s.children| ==> s.children[i].pc == Zombie || s.children[i].pc == Reaped
    ensures |s.reaped| == |s.children| && forall i :: 0 <= i < |s.children| ==> i in s.reaped
  {
    ChildrenConserved(s, c);
    assert With(s, false) == {} && With(s, true) == {};
  }

  // ----- who refers to a connection

  predicate Refers(t: Table, k: nat) {
    exists fd :: fd in t && t[fd] == Conn(k)
  }

  lemma ChildRefers(ch: Child, i: nat, k: nat, c: Config)
    requires ConfigOk(c) && ChildOk(ch, i, c)
    ensures Refers(ch.fds, k) <==> k == i && (ch.pc == Started || ch.pc == Serving)
  {
    if ch.pc == Started || ch.pc == Serving {
      assert ch.fds[ch.cfd] == Conn(i);
    }
  }

  /**
   * At the top of every iteration of the loop the parent's table is what it was at
   * the first, no child holds another child's connection, and a connection is held
   * by its own child alone, until that child closes it or exits.
   */
  lemma ConnectionsAtLoopTop(s: System, c: Config)
    requires ConfigOk(c) && Inv(s, c) && s.parent == Accepting
    ensures s.pfds == c.table
    ensures forall k: nat :: !Refers(s.pfds, k)
    ensures forall i, k: nat :: 0 <= i < |s.children| ==>
              (Refers(s.children[i].fds, k) <==> k == i && (s.children[i].pc == Started || s.children[i].pc == Serving))
  {
    forall i, k: nat | 0 <= i < |s.children|
      ensures Refers(s.children[i].fds, k) <==> k == i && (s.children[i].pc == Started || s.children[i].pc == Serving)
    {
      assert ChildOk(s.children[i], i, c);
      ChildRefers(s.children[i], i, k, c);
    }
  }

  /** A child that serves its client cannot accept: it has closed its copy of the listener. */
  lemma ServingChildHasNoListener(s: System, c: Config, i: nat, fd: int)
    requires ConfigOk(c) && Inv(s, c) && i < |s.children| && s.children[i].pc != Started && fd in s.children[i].fds
    ensures s.children[i].fds[fd] != Listener
  {
    assert ChildOk(s.children[i], i, c);
  }

  // ----- whole runs

  ghost predicate IsRun(trace: seq<System>, actions: seq<Action>, c: Config) {
    && |trace| == |actions| + 1
    && trace[0] == Initial(c)
    && (forall k :: 0 <= k < |actions| ==>
          Enabled(trace[k], actions[k], c) && trace[k + 1] == Step(trace[k], actions[k], c))
  }

  /**
   * In every reachable state: without a pending SIGCHLD and outside the handler
   * there are no zombies; each child is reaped at most once; none is lost.
   */
  lemma {:induction false} EveryRun(trace: seq<System>, actions: seq<Action>, c: Config, k: nat)
    requires ConfigOk(c) && IsRun(trace, actions, c) && k < |trace|
    ensures Inv(trace[k], c)
    ensures c.loops && trace[k].parent != Halted && !trace[k].pending && !trace[k].handling ==> NoZombies(trace[k])
    ensures forall i, j :: 0 <= i < j < |trace[k].reaped| ==> trace[k].reaped[i] != trace[k].reaped[j]
    ensures |With(trace[k], false)| + |With(trace[k], true)| + |trace[k].reaped| == |trace[k].children|
  {
    if k == 0 {
      InitialInv(c);
    } else {
      EveryRun(trace, actions, c, k - 1);
      StepKeepsInv(trace[k - 1], actions[k - 1], c);
    }
    ChildrenConserved(trace[k], c);
  }

  // ----- processes and signals, from the actions of a run alone

  /** How many children k steps have forked. */
  function Forks(actions: seq<Action>, k: nat): nat
    requires k <= |actions|
  {
    if k == 0 then 0 else Forks(actions, k - 1) + if actions[k - 1].Fork? then 1 else 0
  }

  /** What the last step of child i, or the last waitpid() that returned it, has made of it. */
  function PcAt(actions: seq<Action>, i: nat, k: nat): ChildPc
    requires k <= |actions|
  {
    if k == 0 then Started else
    match actions[k - 1]
    case ChildClosesListener(j) => if j == i then Serving else PcAt(actions, i, k - 1)
    case ChildCloses(j) => if j == i then Closed else PcAt(actions, i, k - 1)
    case ChildFails(j) => if j == i then Zombie else PcAt(actions, i, k - 1)
    case ChildExits(j) => if j == i then Zombie else PcAt(actions, i, k - 1)
    case Reap(j) => if j == i then Reaped else PcAt(actions, i, k - 1)
    case _ => PcAt(actions, i, k - 1)
  }

  /** A child has exited since the handler was last started. */
  function PendingAt(actions: seq<Action>, k: nat): bool
    requires k <= |actions|
  {
    if k == 0 then false else
    match actions[k - 1]
    case HandlerStarts => false
    case ChildFails(_) => true
    case ChildExits(_) => true
    case _ => PendingAt(actions, k - 1)
  }

  /** What waitpid() has returned, in order. */
  function ReapedBy(actions: seq<Action>, k: nat): seq<nat>
    requires k <= |actions|
  {
    if k == 0 then [] else
    if actions[k - 1].Reap? then ReapedBy(actions, k - 1) + [actions[k - 1].i] else ReapedBy(actions, k - 1)
  }

  predicate ChildAt(s: System, actions: seq<Action>, i: nat, k: nat)
    requires k <= |actions|
  {
    PcAt(actions, i, k) == if i < |s.children| then s.children[i].pc else Started
  }

  ghost predicate StateAt(s: System, actions: seq<Action>, k: nat)
    requires k <= |actions|
  {
    && |s.children| == Forks(actions, k) && s.pending == PendingAt(actions, k) && s.reaped == ReapedBy(actions, k)
    && (forall i: nat :: ChildAt(s, actions, i, k))
  }

  lemma StateFollows(s: System, actions: seq<Action>, k: nat, c: Config)
    requires k < |actions| && Enabled(s, actions[k], c) && StateAt(s, actions, k)
    ensures StateAt(Step(s, actions[k], c), actions, k + 1)
  {
    var t := Step(s, actions[k], c);
    var n := k + 1;
    forall i: nat ensures ChildAt(t, actions, i, n) {
      assert ChildAt(s, actions, i, k);
    }
  }

  /**
   * Over every run: each exit leaves SIGCHLD pending until the handler is started, also
   * one that happens while it runs; and every child is where its own last step, or the
   * waitpid() that returned it, has put it.
   */
  lemma {:induction false} StateOverRuns(trace: seq<System>, actions: seq<Action>, c: Config, k: nat)
    requires IsRun(trace, actions, c) && k < |trace|
    ensures StateAt(trace[k], actions, k)
  {
    if k > 0 {
      StateOverRuns(trace, actions, c, k - 1);
      assert Enabled(trace[k - 1], actions[k - 1], c);
      StateFollows(trace[k - 1], actions, k - 1, c);
    }
  }

  predicate ByChild(a: Action) {
    a.ChildClosesListener? || a.ChildCloses? || a.ChildFails? || a.ChildExits?
  }

  /**
   * error_exit() ends the parent: after a failing accept() or fork() it takes no further
   * step, has no descriptors, and reaps nobody; the children go on.
   */
  lemma {:induction false} ErrorExitHalts(trace: seq<System>, actions: seq<Action>, c: Config, j: nat, k: nat)
    requires ConfigOk(c) && IsRun(trace, actions, c) && j < k < |trace|
    requires actions[j].AcceptFails? || actions[j].ForkFails?
    ensures trace[k].parent == Halted && trace[k].pfds == map[] && trace[k].reaped == trace[j].reaped
    ensures k < |actions| ==> ByChild(actions[k])
    decreases k
  {
    if j < k - 1 { ErrorExitHalts(trace, actions, c, j, k - 1); }
    assert Enabled(trace[k - 1], actions[k - 1], c) && trace[k] == Step(trace[k - 1], actions[k - 1], c);
    if k < |actions| { assert Enabled(trace[k], actions[k], c); }
  }

  /**
   * The `while` matters: with a single waitpid() per signal, two exits reported by one
   * SIGCHLD leave a zombie behind with nothing pending, however the handler chooses.
   */
  lemma SingleWaitLeavesZombie(s: System, c: Config, i: nat, j: nat)
    requires !c.loops && Enabled(s, HandlerStarts, c) && IsZombie(s, i) && IsZombie(s, j) && i != j
    ensures var h := Step(s, HandlerStarts, c);
            && Enabled(h, Reap(i), c)
            && !Step(h, Reap(i), c).pending && !Step(h, Reap(i), c).handling && IsZombie(Step(h, Reap(i), c), j)
  {
    var t := Step(Step(s, HandlerStarts, c), Reap(i), c);
    assert t.children[j] == s.children[j];
  }

  ghost predicate Reachable(s: System, c: Config) {
    exists trace: seq<System>, actions: seq<Action> :: IsRun(trace, actions, c) && trace[|actions|] == s
  }

  lemma ReachStep(s: System, a: Action, c: Config)
    requires Reachable(s, c) && Enabled(s, a, c)
    ensures Reachable(Step(s, a, c), c)
  {
    var trace: seq<System>, actions: seq<Action> :| IsRun(trace, actions, c) && trace[|actions|] == s;
    assert IsRun(trace + [Step(s, a, c)], actions + [a], c);
  }

  /** One more client comes and its connection fails before the parent is signalled. */
  lemma OneMoreZombie(s: System, cfd: int, c: Config) returns (t: System)
    requires ConfigOk(c) && Reachable(s, c)
    requires s.parent.Accepting? && !s.handling && s.pfds == c.table && cfd !in c.table
    ensures Reachable(t, c) && t.parent.Accepting? && !t.handling && t.pfds == c.table && t.pending
    ensures |t.children| == |s.children| + 1 && IsZombie(t, |s.children|)
    ensures forall i :: 0 <= i < |s.children| ==> t.children[i] == s.children[i]
  {
    var n := |s.children|;
    t := s;
    for k := 0 to 5
      invariant Reachable(t, c) && !t.handling && t.parent != Halted
      invariant k < 2 ==> t.children == s.children
      invariant k >= 2 ==> |t.children| == n + 1 && forall i :: 0 <= i < n ==> t.children[i] == s.children[i]
      invariant k == 0 ==> t.parent.Accepting? && t.pfds == c.table
      invariant k == 1 ==> t.parent == Forked(cfd) && t.pfds - {cfd} == c.table
      invariant k == 2 ==> t.parent == Closing(cfd) && t.pfds - {cfd} == c.table
      invariant k >= 3 ==> t.parent.Accepting? && t.pfds == c.table
      invariant k == 2 || k == 3 ==> t.children[n].pc == Started
      invariant k == 4 ==> t.children[n].pc == Serving
      invariant k == 5 ==> t.children[n].pc == Zombie && t.pending
    {
      var a := if k == 0 then Accept(cfd) else if k == 1 then Fork else if k == 2 then CloseClient
               else if k == 3 then ChildClosesListener(n) else ChildFails(n);
      ReachStep(t, a, c);
      t := Step(t, a, c);
    }
  }

  /** Such states are reachable: with `if` instead of `while` a zombie stays with nothing pending. */
  lemma ZombieStaysBehind(cfd: int, c: Config) returns (t: System)
    requires ConfigOk(c) && !c.loops && cfd !in c.table
    ensures Reachable(t, c) && t.parent.Accepting? && !t.pending && !t.handling && !NoZombies(t)
  {
    assert IsRun([Initial(c)], [], c);
    var one := OneMoreZombie(Initial(c), cfd, c);
    var two := OneMoreZombie(one, cfd, c);
    SingleWaitLeavesZombie(two, c, 0, 1);
    ReachStep(two, HandlerStarts, c);
    var h := Step(two, HandlerStarts, c);
    ReachStep(h, Reap(0), c);
    t := Step(h, Reap(0), c);
    assert IsZombie(t, 1);
  }

  /** What the children do meanwhile: any of their steps, in any order, any number of exits. */
  function Meanwhile(s: System, actions: seq<Action>, c: Config): System
    decreases |actions|
  {
    if actions == [] then s else
    Meanwhile(if ByChild(actions[0]) && Enabled(s, actions[0], c) then Step(s, actions[0], c) else s, actions[1..], c)
  }

  lemma {:induction false} MeanwhileOk(s: System, actions: seq<Action>, c: Config)
    requires ConfigOk(c) && Inv(s, c)
    ensures var t := Meanwhile(s, actions, c);
            && Inv(t, c) && t.handling == s.handling && t.parent == s.parent && t.pfds == s.pfds
            && t.reaped == s.reaped && |t.children| == |s.children|
    decreases |actions|
  {
    if actions != [] {
      var a := actions[0];
      if ByChild(a) && Enabled(s, a, c) {
        ChildStepOk(s, a, a.i, c);
        MeanwhileOk(Step(s, a, c), actions[1..], c);
      } else {
        MeanwhileOk(s, actions[1..], c);
      }
    }
  }

  lemma {:induction false} MeanwhileAppend(s: System, a: seq<Action>, b: seq<Action>, c: Config)
    ensures Meanwhile(s, a + b, c) == Meanwhile(Meanwhile(s, a, c), b, c)
    decreases |a|
  {
    if a == [] {
      assert a + b == b;
    } else {
      assert (a + b)[1..] == a[1..] + b;
      MeanwhileAppend(if ByChild(a[0]) && Enabled(s, a[0], c) then Step(s, a[0], c) else s, a[1..], b, c);
    }
  }

  /** Some of the steps is one of child i. */
  predicate Names(actions: seq<Action>, i: nat) {
    exists k :: 0 <= k < |actions| && ByChild(actions[k]) && actions[k].i == i
  }

  lemma {:induction false} MeanwhileOthers(s: System, actions: seq<Action>, i: nat, c: Config)
    requires i < |s.children| && !Names(actions, i)
    ensures |Meanwhile(s, actions, c).children| == |s.children|
    ensures Meanwhile(s, actions, c).children[i] == s.children[i]
    decreases |actions|
  {
    if actions != [] {
      var a := actions[0];
      assert forall k :: 0 <= k < |actions[1..]| ==> actions[1..][k] == actions[k + 1];
      MeanwhileOthers(if ByChild(a) && Enabled(s, a, c) then Step(s, a, c) else s, actions[1..], i, c);
    }
  }

  /** t is u, except that some zombies of u are reaped in t. */
  ghost predicate SameButReaped(u: System, t: System) {
    && t.parent == u.parent && t.pfds == u.pfds && t.accepted == u.accepted
    && t.pending == u.pending && t.handling == u.handling && |t.children| == |u.children|
    && (forall i :: 0 <= i < |u.children| ==>
          t.children[i] == u.children[i] ||
          (u.children[i].pc == Zombie && t.children[i] == u.children[i].(pc := Reaped)))
  }

  lemma {:induction false} MeanwhileSame(u: System, t: System, actions: seq<Action>, c: Config)
    requires SameButReaped(u, t)
    ensures SameButReaped(Meanwhile(u, actions, c), Meanwhile(t, actions, c))
    decreases |actions|
  {
    if actions != [] {
      var a := actions[0];
      if ByChild(a) && Enabled(u, a, c) {
        MeanwhileSame(Step(u, a, c), Step(t, a, c), actions[1..], c);
      } else {
        MeanwhileSame(u, t, actions[1..], c);
      }
    }
  }

  /** All zombies reaped. */
  function Collected(children: seq<Child>): seq<Child> {
    seq(|children|, i requires 0 <= i < |children| =>
      if children[i].pc == Zombie then children[i].(pc := Reaped) else children[i])
  }

  function Flat(parts: seq<seq<Action>>): seq<Action> {
    if parts == [] then [] else Flat(parts[..|parts| - 1]) + parts[|parts| - 1]
  }

  /** What the children did before the first n calls of waitpid(), with nobody reaped. */
  function Unreaped(s: System, meanwhile: seq<seq<Action>>, n: nat, c: Config): System
    requires Enabled(s, HandlerStarts, c)
  {
    Meanwhile(Step(s, HandlerStarts, c), Flat(meanwhile[..if n < |meanwhile| then n else |meanwhile|]), c)
  }

  lemma UnreapedNext(s: System, meanwhile: seq<seq<Action>>, n: nat, c: Config)
    requires Enabled(s, HandlerStarts, c)
    ensures Unreaped(s, meanwhile, n + 1, c) ==
            if n < |meanwhile| then Meanwhile(Unreaped(s, meanwhile, n, c), meanwhile[n], c)
            else Unreaped(s, meanwhile, n, c)
  {
    if n < |meanwhile| {
      assert meanwhile[..n + 1][..n] == meanwhile[..n];
      MeanwhileAppend(Step(s, HandlerStarts, c), Flat(meanwhile[..n]), meanwhile[n], c);
    }
  }

  /** t may be reached from s while the handler runs. */
  ghost predicate HandlerAt(s: System, t: System, c: Config) {
    && Inv(t, c) && t.handling && t.parent == s.parent && t.pfds == s.pfds
    && s.reaped <= t.reaped && |t.children| == |s.children|
  }

  lemma HandlerReaps(s: System, u: System, t: System, i: nat, c: Config)
    requires ConfigOk(c) && c.loops && HandlerAt(s, t, c) && SameButReaped(u, t) && Enabled(t, Reap(i), c)
    ensures var t' := Step(t, Reap(i), c);
            HandlerAt(s, t', c) && SameButReaped(u, t') && |t'.reaped| == |t.reaped| + 1 <= |t'.children|
  {
    StepKeepsInv(t, Reap(i), c);
    ChildrenConserved(Step(t, Reap(i), c), c);
  }

  /** The children's steps before the next waitpid(). */
  lemma HandlerWaits(s: System, t: System, meanwhile: seq<seq<Action>>, n: nat, c: Config)
    requires ConfigOk(c) && Enabled(s, HandlerStarts, c) && HandlerAt(s, t, c)
    requires SameButReaped(Unreaped(s, meanwhile, n, c), t)
    ensures var t' := if n < |meanwhile| then Meanwhile(t, meanwhile[n], c) else t;
            HandlerAt(s, t', c) && SameButReaped(Unreaped(s, meanwhile, n + 1, c), t') && t'.reaped == t.reaped
  {
    UnreapedNext(s, meanwhile, n, c);
    if n < |meanwhile| {
      MeanwhileOk(t, meanwhile[n], c);
      MeanwhileSame(Unreaped(s, meanwhile, n, c), t, meanwhile[n], c);
    }
  }

  lemma HandlerEnds(s: System, u: System, t: System, c: Config)
    requires ConfigOk(c) && HandlerAt(s, t, c) && SameButReaped(u, t) && NoZombies(t) && t.parent != Halted
    ensures Enabled(t, HandlerReturns, c)
    ensures var t' := Step(t, HandlerReturns, c);
            && Inv(t', c) && NoZombies(t') && s.reaped <= t'.reaped
            && t' == u.(children := Collected(u.children), reaped := t.reaped, handling := false)
  {
    StepKeepsInv(t, HandlerReturns, c);
    assert t.children == Collected(u.children);
  }

  lemma UnreapedOthers(s: System, meanwhile: seq<seq<Action>>, n: nat, c: Config, i: nat)
    requires Enabled(s, HandlerStarts, c) && i < |s.children|
    requires !Names(Flat(meanwhile[..if n < |meanwhile| then n else |meanwhile|]), i)
    ensures |Unreaped(s, meanwhile, n, c).children| == |s.children|
    ensures Unreaped(s, meanwhile, n, c).children[i] == s.children[i]
  {
    MeanwhileOthers(Step(s, HandlerStarts, c), Flat(meanwhile[..if n < |meanwhile| then n else |meanwhile|]), i, c);
  }

  /**
   * The handler; `meanwhile[n]` is what the children do before the n-th waitpid(), which
   * returns any zombie. The result is what the children have made of the state by
   * themselves, with every zombie reaped and nothing else done: however many exits one
   * signal stood for, and however many followed while the handler ran, no zombie is left,
   * nobody is waited for who has not exited, and each call but the last reaps one child.
   */
  method SigchldHandler(s: System, meanwhile: seq<seq<Action>>, c: Config) returns (t: System, calls: nat)
    requires ConfigOk(c) && c.loops && Inv(s, c) && Enabled(s, HandlerStarts, c)
    ensures Inv(t, c) && NoZombies(t) && s.reaped <= t.reaped && calls == |t.reaped| - |s.reaped| + 1
    ensures var u := Unreaped(s, meanwhile, calls, c);
            t == u.(children := Collected(u.children), reaped := t.reaped, handling := false)
  {
    t := Step(s, HandlerStarts, c);
    StepKeepsInv(s, HandlerStarts, c);
    calls := 0;
    var found := true;
    while found
      invariant HandlerAt(s, t, c) && SameButReaped(Unreaped(s, meanwhile, calls, c), t)
      invariant calls == |t.reaped| - |s.reaped| + if found then 0 else 1
      invariant !found ==> NoZombies(t)
      decreases |t.children| - |t.reaped|, found
    {
      HandlerWaits(s, t, meanwhile, calls, c);
      if calls < |meanwhile| {
        t := Meanwhile(t, meanwhile[calls], c);
      }
      calls := calls + 1;
      if i: nat :| i < |t.children| && t.children[i].pc == Zombie {
        HandlerReaps(s, Unreaped(s, meanwhile, calls, c), t, i, c);
        t := Step(t, Reap(i), c);
      } else {
        found := false;
      }
    }
    HandlerEnds(s, Unreaped(s, meanwhile, calls, c), t, c);
    t := Step(t, HandlerReturns, c);
  }
}

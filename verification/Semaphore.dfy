/** sync/sem1.c: threads increment a shared counter under a POSIX semaphore. */
module Semaphore {
  import opened Prelude

  /** Where a worker is; `++count` is a load and a store. */
  datatype Pc = Waiting | Loading | Storing(loaded: nat) | Posting | Exited

  /** A worker and the number of iterations it has completed. */
  datatype Worker = Worker(pc: Pc, rounds: nat)

  /** The shared memory, the workers, and main()'s two loop counters. */
  datatype Program = Program(count: nat, permits: nat, workers: seq<Worker>, created: nat, joined: nat)

  datatype Actor = Main | Thread(id: nat)

  function Initial(n: nat, permits: nat): Program {
    Program(0, permits, seq(n, _ => Worker(Waiting, 0)), 0, 0)
  }

  /** Whether the actor's next step would not block. */
  predicate Enabled(p: Program, a: Actor, ops: nat) {
    match a
    case Main =>
      p.created < |p.workers| ||
      (p.joined < |p.workers| && p.workers[p.joined].pc.Exited?)
    case Thread(t) =>
      t < |p.workers| && t < p.created &&
      (match p.workers[t].pc
       case Waiting => p.workers[t].rounds >= ops || p.permits > 0
       case Exited => false
       case _ => true)
  }

  function WorkerStep(p: Program, t: nat, ops: nat): Program
    requires Enabled(p, Thread(t), ops)
  {
    var w := p.workers[t];
    match w.pc
    case Waiting =>
      if w.rounds >= ops then p.(workers := p.workers[t := w.(pc := Exited)])
      else p.(permits := p.permits - 1, workers := p.workers[t := w.(pc := Loading)])
    case Loading => p.(workers := p.workers[t := w.(pc := Storing(p.count))])
    case Storing(loaded) => p.(count := loaded + 1, workers := p.workers[t := w.(pc := Posting)])
    case Posting => p.(permits := p.permits + 1, workers := p.workers[t := Worker(Waiting, w.rounds + 1)])
  }

  function Step(p: Program, a: Actor, ops: nat): Program
    requires Enabled(p, a, ops)
  {
    match a
    case Main => if p.created < |p.workers| then p.(created := p.created + 1) else p.(joined := p.joined + 1)
    case Thread(t) => WorkerStep(p, t, ops)
  }

  predicate Inside(w: Worker) {
    w.pc.Loading? || w.pc.Storing? || w.pc.Posting?
  }

  // ----- sums over the workers

  function Insiders(ws: seq<Worker>): seq<int> {
    seq(|ws|, i requires 0 <= i < |ws| => if Inside(ws[i]) then 1 else 0)
  }

  /** Increments of the counter that a worker has already stored. */
  function Stored(w: Worker): nat {
    w.rounds + if w.pc.Posting? then 1 else 0
  }

  function StoredAll(ws: seq<Worker>): seq<int> {
    seq(|ws|, i requires 0 <= i < |ws| => Stored(ws[i]))
  }

  /** Steps a worker still has to take. */
  function Left(w: Worker, ops: nat): int {
    match w.pc
    case Waiting => 4 * (ops - w.rounds) + 1
    case Loading => 4 * (ops - w.rounds)
    case Storing(_) => 4 * (ops - w.rounds) - 1
    case Posting => 4 * (ops - w.rounds) - 2
    case Exited => 0
  }

  function LeftAll(ws: seq<Worker>, ops: nat): seq<int> {
    seq(|ws|, i requires 0 <= i < |ws| => Left(ws[i], ops))
  }

  /** Steps the whole program still has to take. */
  function Remaining(p: Program, ops: nat): int {
    Sum(LeftAll(p.workers, ops)) + 2 * |p.workers| - p.created - p.joined
  }

  lemma UpdateSums(ws: seq<Worker>, t: nat, w: Worker, ops: nat)
    requires t < |ws|
    ensures Sum(Insiders(ws[t := w])) ==
            Sum(Insiders(ws)) - (if Inside(ws[t]) then 1 else 0) + if Inside(w) then 1 else 0
    ensures Sum(StoredAll(ws[t := w])) == Sum(StoredAll(ws)) - Stored(ws[t]) + Stored(w)
    ensures Sum(LeftAll(ws[t := w], ops)) == Sum(LeftAll(ws, ops)) - Left(ws[t], ops) + Left(w, ops)
  {
    assert Insiders(ws[t := w]) == Insiders(ws)[t := if Inside(w) then 1 else 0];
    assert StoredAll(ws[t := w]) == StoredAll(ws)[t := Stored(w)];
    assert LeftAll(ws[t := w], ops) == LeftAll(ws, ops)[t := Left(w, ops)];
    SumUpdate(Insiders(ws), t, if Inside(w) then 1 else 0);
    SumUpdate(StoredAll(ws), t, Stored(w));
    SumUpdate(LeftAll(ws, ops), t, Left(w, ops));
  }

  // ----- the invariant

  ghost predicate WorkerOk(w: Worker, count: nat, ops: nat) {
    && w.rounds <= ops
    && (Inside(w) ==> w.rounds < ops)
    && (w.pc.Storing? ==> w.pc.loaded == count)
    && (w.pc.Exited? ==> w.rounds == ops)
  }

  ghost predicate Inv(p: Program, ops: nat) {
    && p.permits + Sum(Insiders(p.workers)) == 1
    && p.count == Sum(StoredAll(p.workers))
    && (forall t :: 0 <= t < |p.workers| ==> WorkerOk(p.workers[t], p.count, ops))
    && p.created <= |p.workers| && p.joined <= |p.workers|
    && (forall t :: 0 <= t < p.joined ==> p.workers[t].pc.Exited?)
    && (p.joined > 0 ==> p.created == |p.workers|)
  }

  lemma InitialInv(n: nat, ops: nat)
    ensures Inv(Initial(n, 1), ops) && Remaining(Initial(n, 1), ops) == n * (4 * ops + 3)
  {
    var ws := Initial(n, 1).workers;
    SumAllEqual(Insiders(ws), 0);
    SumAllEqual(StoredAll(ws), 0);
    SumAllEqual(LeftAll(ws, ops), 4 * ops + 1);
    assert n * (4 * ops + 1) + 2 * n == n * (4 * ops + 3);
  }

  lemma TwoOnes(ins: seq<int>, t: nat, u: nat)
    requires t < |ins| && u < |ins| && t != u && ins[t] == 1 && ins[u] == 1
    requires forall i :: 0 <= i < |ins| ==> ins[i] >= 0
    ensures Sum(ins) >= 2
  {
    var rest := ins[t := 0];
    SumUpdate(ins, t, 0);
    SumNonNegative(rest);
    assert rest[u] == 1;
  }

  /** The semaphore is a lock: its value and the number of threads inside always add up to 1. */
  lemma AtMostOneInside(p: Program, ops: nat, t: nat, u: nat)
    requires Inv(p, ops) && t < |p.workers| && u < |p.workers|
    requires Inside(p.workers[t]) && Inside(p.workers[u])
    ensures t == u && p.permits == 0
  {
    var ins := Insiders(p.workers);
    SumNonNegative(ins);
    assert ins[t] == 1 && ins[u] == 1;
    if t != u { TwoOnes(ins, t, u); }
  }

  lemma OthersStayOk(p: Program, t: nat, ops: nat)
    requires Inv(p, ops) && Enabled(p, Thread(t), ops)
    ensures var q := WorkerStep(p, t, ops);
            forall u :: 0 <= u < |p.workers| && u != t ==>
              q.workers[u] == p.workers[u] && WorkerOk(p.workers[u], q.count, ops)
  {
    var q := WorkerStep(p, t, ops);
    forall u | 0 <= u < |p.workers| && u != t ensures WorkerOk(p.workers[u], q.count, ops) {
      if q.count != p.count && p.workers[u].pc.Storing? { AtMostOneInside(p, ops, u, t); }
    }
  }

  /** Every step of every thread keeps the invariant and brings the end exactly one step nearer. */
  lemma StepKeepsInv(p: Program, a: Actor, ops: nat)
    requires Inv(p, ops) && Enabled(p, a, ops)
    ensures Inv(Step(p, a, ops), ops) && Remaining(Step(p, a, ops), ops) == Remaining(p, ops) - 1
  {
    if a.Thread? {
      var q := Step(p, a, ops);
      UpdateSums(p.workers, a.id, q.workers[a.id], ops);
      OthersStayOk(p, a.id, ops);
      assert WorkerOk(q.workers[a.id], q.count, ops);
    }
  }

  predicate Done(p: Program) {
    p.joined == |p.workers|
  }

  /** Until main() has joined every thread, somebody can move. */
  lemma NoDeadlock(p: Program, ops: nat) returns (a: Actor)
    requires Inv(p, ops) && !(p.created == |p.workers| && Done(p))
    ensures Enabled(p, a, ops)
  {
    if p.created < |p.workers| || p.workers[p.joined].pc.Exited? {
      a := Main;
    } else if p.permits > 0 {
      a := Thread(p.joined);
    } else {
      var ins := Insiders(p.workers);
      if forall t :: 0 <= t < |ins| ==> ins[t] == 0 {
        SumAllEqual(ins, 0);
      }
      var t :| 0 <= t < |ins| && ins[t] != 0;
      assert Inside(p.workers[t]);
      a := Thread(t);
    }
  }

  lemma CountAtTheEnd(p: Program, ops: nat)
    requires Inv(p, ops) && Done(p)
    ensures p.count == |p.workers| * ops
  {
    SumAllEqual(StoredAll(p.workers), ops);
  }

  // ----- whole runs

  /** `who` is the schedule: any interleaving of main() and the workers. */
  ghost predicate IsRun(trace: seq<Program>, who: seq<Actor>, n: nat, ops: nat) {
    && |trace| == |who| + 1
    && trace[0] == Initial(n, 1)
    && (forall k :: 0 <= k < |who| ==> Enabled(trace[k], who[k], ops) && trace[k + 1] == Step(trace[k], who[k], ops))
  }

  lemma {:induction false} EveryRun(trace: seq<Program>, who: seq<Actor>, n: nat, ops: nat, k: nat)
    requires IsRun(trace, who, n, ops) && k < |trace|
    ensures Inv(trace[k], ops) && |trace[k].workers| == n
    ensures Remaining(trace[k], ops) == n * (4 * ops + 3) - k
  {
    if k == 0 {
      InitialInv(n, ops);
    } else {
      EveryRun(trace, who, n, ops, k - 1);
      StepKeepsInv(trace[k - 1], who[k - 1], ops);
    }
  }

  lemma NothingLeft(p: Program, ops: nat)
    requires Inv(p, ops)
    ensures Remaining(p, ops) >= 0
    ensures Done(p) && p.created == |p.workers| ==> Remaining(p, ops) == 0
  {
    SumNonNegative(LeftAll(p.workers, ops));
    if Done(p) && p.created == |p.workers| { SumAllEqual(LeftAll(p.workers, ops), 0); }
  }

  /**
   * Under every schedule: a run has at most n * (4 * ops + 3) steps, and a run that
   * cannot be continued has exactly that many and ends with main()'s assertion true.
   */
  lemma EveryRunCounts(trace: seq<Program>, who: seq<Actor>, n: nat, ops: nat)
    requires IsRun(trace, who, n, ops)
    ensures |who| <= n * (4 * ops + 3)
    ensures (forall a :: !Enabled(trace[|who|], a, ops)) ==>
              Done(trace[|who|]) && trace[|who|].count == n * ops && |who| == n * (4 * ops + 3)
  {
    EveryRun(trace, who, n, ops, |who|);
    var end := trace[|who|];
    NothingLeft(end, ops);
    if forall a :: !Enabled(end, a, ops) {
      if !(end.created == n && Done(end)) {
        var a := NoDeadlock(end, ops);
        assert false;
      }
      CountAtTheEnd(end, ops);
    }
  }

  /** Some schedule leads from p to q in n steps. */
  ghost predicate Leads(p: Program, q: Program, ops: nat, n: nat)
    decreases n
  {
    if n == 0 then p == q
    else exists a: Actor :: Enabled(p, a, ops) && Leads(Step(p, a, ops), q, ops, n - 1)
  }

  lemma Prepend(p: Program, a: Actor, p': Program, q: Program, n: nat)
    requires Enabled(p, a, 1) && Step(p, a, 1) == p' && Leads(p', q, 1, n)
    ensures Leads(p, q, 1, n + 1)
  {
  }

  function Pair(count: nat, permits: nat, a: Worker, b: Worker, joined: nat): Program {
    Program(count, permits, [a, b], 2, joined)
  }

  /** Both threads take the same step from the same place, thread 1 first or last. */
  lemma BothStep(p: Program, mid: Program, p': Program, q: Program, n: nat)
    requires Enabled(p, Thread(0), 1) && Step(p, Thread(0), 1) == mid
    requires Enabled(mid, Thread(1), 1) && Step(mid, Thread(1), 1) == p' && Leads(p', q, 1, n)
    ensures Leads(p, q, 1, n + 2)
  {
    Prepend(mid, Thread(1), p', q, n);
    Prepend(p, Thread(0), mid, q, n + 1);
  }

  const LOST := Pair(1, 2, Worker(Exited, 1), Worker(Exited, 1), 2)

  lemma BothFinish()
    ensures Leads(Pair(1, 2, Worker(Waiting, 1), Worker(Waiting, 1), 0), LOST, 1, 4)
  {
    var back, gone := Worker(Waiting, 1), Worker(Exited, 1);
    Prepend(Pair(1, 2, gone, gone, 1), Main, LOST, LOST, 0);
    Prepend(Pair(1, 2, gone, gone, 0), Main, Pair(1, 2, gone, gone, 1), LOST, 1);
    BothStep(Pair(1, 2, back, back, 0), Pair(1, 2, gone, back, 0), Pair(1, 2, gone, gone, 0), LOST, 2);
  }

  lemma BothPost()
    ensures Leads(Pair(1, 0, Worker(Posting, 0), Worker(Posting, 0), 0), LOST, 1, 6)
  {
    var post, back := Worker(Posting, 0), Worker(Waiting, 1);
    assert Step(Pair(1, 0, post, post, 0), Thread(0), 1).workers == [back, post];
    assert Step(Pair(1, 1, back, post, 0), Thread(1), 1).workers == [back, back];
    BothFinish();
    BothStep(Pair(1, 0, post, post, 0), Pair(1, 1, back, post, 0), Pair(1, 2, back, back, 0), LOST, 4);
  }

  lemma BothStore()
    ensures Leads(Pair(0, 0, Worker(Storing(0), 0), Worker(Storing(0), 0), 0), LOST, 1, 8)
  {
    var store, post := Worker(Storing(0), 0), Worker(Posting, 0);
    assert Step(Pair(0, 0, store, store, 0), Thread(0), 1).workers == [post, store];
    assert Step(Pair(1, 0, post, store, 0), Thread(1), 1).workers == [post, post];
    BothPost();
    BothStep(Pair(0, 0, store, store, 0), Pair(1, 0, post, store, 0), Pair(1, 0, post, post, 0), LOST, 6);
  }

  lemma BothLoad()
    ensures Leads(Pair(0, 2, Worker(Waiting, 0), Worker(Waiting, 0), 0), LOST, 1, 12)
  {
    var wait, load, store := Worker(Waiting, 0), Worker(Loading, 0), Worker(Storing(0), 0);
    BothStore();
    BothStep(Pair(0, 0, load, load, 0), Pair(0, 0, store, load, 0), Pair(0, 0, store, store, 0), LOST, 8);
    BothStep(Pair(0, 2, wait, wait, 0), Pair(0, 1, load, wait, 0), Pair(0, 0, load, load, 0), LOST, 10);
  }

  /** The initial value 1 matters: with a second permit two threads can load the same value. */
  lemma TwoPermitsLoseAnUpdate()
    ensures Leads(Initial(2, 2), LOST, 1, 14) && Done(LOST) && LOST.count == 1 < 2 * 1
  {
    var wait := Worker(Waiting, 0);
    var s0 := Initial(2, 2);
    assert s0.workers == [wait, wait];
    BothLoad();
    Prepend(s0.(created := 1), Main, Pair(0, 2, wait, wait, 0), LOST, 12);
    Prepend(s0, Main, s0.(created := 1), LOST, 13);
  }

  /** The program under a scheduler that picks any actor that can move. */
  method Execute(n: nat, ops: nat) returns (count: nat, steps: nat)
    ensures count == n * ops && steps == n * (4 * ops + 3)
  {
    var p := Initial(n, 1);
    InitialInv(n, ops);
    steps := 0;
    while p.created < n || p.joined < n
      invariant Inv(p, ops) && |p.workers| == n
      invariant Remaining(p, ops) == n * (4 * ops + 3) - steps
      decreases Remaining(p, ops)
    {
      NothingLeft(p, ops);
      ghost var someone := NoDeadlock(p, ops);
      var candidates := set t | 0 <= t < n :: Thread(t);
      assert someone in candidates + {Main};
      var a :| a in candidates + {Main} && Enabled(p, a, ops);
      StepKeepsInv(p, a, ops);
      p := Step(p, a, ops);
      NothingLeft(p, ops);
      steps := steps + 1;
    }
    CountAtTheEnd(p, ops);
    NothingLeft(p, ops);
    count := p.count;
  }
}

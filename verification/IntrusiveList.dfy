/** The intrusive circular list of servers/threaded.c and the loop that drains it. */
module IntrusiveList {

  class ListEntry {
    var blink: ListEntry?
    var flink: ListEntry?

    /** calloc() leaves both links null. */
    constructor ()
      ensures blink == null && flink == null
    {
      blink, flink := null, null;
    }
  }

  /** The entry after position i of the ring [head] + s, counted from the head at -1. */
  function After(head: ListEntry, s: seq<ListEntry>, i: int): ListEntry
    requires -1 <= i < |s|
  {
    if i + 1 < |s| then s[i + 1] else head
  }

  function Before(head: ListEntry, s: seq<ListEntry>, i: int): ListEntry
    requires 0 <= i <= |s|
  {
    if i > 0 then s[i - 1] else head
  }

  /** The ring without its newest entry. */
  function Tail(s: seq<ListEntry>): seq<ListEntry> {
    if s == [] then [] else s[1..]
  }

  /** No entry occurs twice, and the head is none of them. */
  ghost predicate Apart(head: ListEntry, s: seq<ListEntry>) {
    (forall i :: 0 <= i < |s| ==> s[i] != head) && (forall i, j :: 0 <= i < j < |s| ==> s[i] != s[j])
  }

  /** head and s, in this order, form one circular doubly linked list. */
  ghost predicate Ring(head: ListEntry, s: seq<ListEntry>)
    reads head, s
  {
    && Apart(head, s)
    && head.flink == After(head, s, -1)
    && head.blink == Before(head, s, |s|)
    && (forall i {:trigger s[i].flink} :: 0 <= i < |s| ==> s[i].flink == After(head, s, i))
    && (forall i {:trigger s[i].blink} :: 0 <= i < |s| ==> s[i].blink == Before(head, s, i))
  }

  // ----- the four list functions

  method InitializeHead(head: ListEntry)
    modifies head
    ensures Ring(head, [])
  {
    head.blink := head;
    head.flink := head;
  }

  /**
   * As written, a list never looks empty once its head was initialised, whether it
   * holds entries or not; a head with null links does.
   */
  method IsEmpty(head: ListEntry, ghost s: seq<ListEntry>) returns (empty: bool)
    ensures Ring(head, s) ==> !empty
    ensures head.blink == null && head.flink == null ==> empty
  {
    empty := head.blink == null && head.flink == null;
  }

  method Push(head: ListEntry, entry: ListEntry, ghost s: seq<ListEntry>)
    requires Ring(head, s) && entry != head && entry !in s
    modifies head, entry, After(head, s, -1)
    ensures Ring(head, [entry] + s)
    ensures s != [] ==> s[0].flink == old(s[0].flink) && head.blink == old(head.blink)
  {
    ghost var t := [entry] + s;
    entry.blink := head;
    entry.flink := head.flink;
    head.flink.blink := entry;
    head.flink := entry;
    assert forall i :: 0 <= i < |s| ==> t[i + 1] == s[i];
    forall i | 0 <= i < |t| ensures t[i].flink == After(head, t, i) && t[i].blink == Before(head, t, i) {
      if i > 0 { assert t[i] == s[i - 1]; }
    }
  }

  /**
   * As written, a null result needs a head whose links are null. On a ring without
   * entries the head itself is returned and nothing changes.
   */
  method Pop(head: ListEntry, ghost s: seq<ListEntry>) returns (popped: ListEntry?)
    requires Ring(head, s) || (head.blink == null && head.flink == null && s == [])
    modifies head, After(head, s, -1), if |s| > 1 then s[1] else head
    ensures old(head.flink) == null <==> popped == null
    ensures popped == null ==> unchanged(head)
    ensures popped != null ==> popped == After(head, s, -1) && Ring(head, Tail(s))
    ensures popped != null && s == [] ==> popped == head && unchanged(head)
    ensures popped != null && s != [] ==> unchanged(s[0])
    ensures |s| > 1 ==> s[1].flink == old(s[1].flink) && head.blink == old(head.blink)
  {
    var empty := IsEmpty(head, s);
    if empty {
      return null;
    }
    popped := head.flink;
    ghost var t := Tail(s);
    head.flink := popped.flink;
    popped.flink.blink := head;
    forall i | 0 <= i < |t| ensures t[i].flink == After(head, t, i) && t[i].blink == Before(head, t, i) {
      assert t[i] == s[i + 1];
    }
  }

  // ----- push and pop undo each other, pointer by pointer

  twostate predicate SameLinks(e: ListEntry)
    reads e
  {
    e.blink == old(e.blink) && e.flink == old(e.flink)
  }

  method PushThenPop(head: ListEntry, entry: ListEntry, ghost s: seq<ListEntry>) returns (popped: ListEntry?)
    requires Ring(head, s) && entry != head && entry !in s
    modifies head, entry, s
    ensures popped == entry && Ring(head, s) && SameLinks(head)
    ensures forall e :: e in s ==> SameLinks(e)
  {
    Push(head, entry, s);
    popped := Pop(head, [entry] + s);
    assert ([entry] + s)[1..] == s;
    forall e | e in s ensures SameLinks(e) {
      var i :| 0 <= i < |s| && s[i] == e;
    }
  }

  method PopThenPush(head: ListEntry, ghost s: seq<ListEntry>)
    requires Ring(head, s) && s != []
    modifies head, s
    ensures Ring(head, s) && SameLinks(head)
    ensures forall e :: e in s ==> SameLinks(e)
  {
    var popped := Pop(head, s);
    Push(head, popped, s[1..]);
    assert [s[0]] + s[1..] == s;
    forall e | e in s ensures SameLinks(e) {
      var i :| 0 <= i < |s| && s[i] == e;
    }
  }

  // ----- any sequence of operations is a stack

  datatype Op = PushOp(entry: ListEntry) | PopOp

  /** The stack after the operations, top first; a pop of the empty stack leaves it empty. */
  function StackAfter(s: seq<ListEntry>, ops: seq<Op>): seq<ListEntry>
    decreases |ops|
  {
    if ops == [] then s else
    match ops[0]
    case PushOp(e) => StackAfter([e] + s, ops[1..])
    case PopOp => StackAfter(Tail(s), ops[1..])
  }

  /** What the pops return; on the empty stack that is the head. */
  function PopsOf(head: ListEntry, s: seq<ListEntry>, ops: seq<Op>): seq<ListEntry>
    decreases |ops|
  {
    if ops == [] then [] else
    match ops[0]
    case PushOp(e) => PopsOf(head, [e] + s, ops[1..])
    case PopOp => [After(head, s, -1)] + PopsOf(head, Tail(s), ops[1..])
  }

  /** Only entries that are not in the list at the time are pushed. */
  predicate FreshPushes(head: ListEntry, s: seq<ListEntry>, ops: seq<Op>)
    decreases |ops|
  {
    ops == [] ||
    match ops[0]
    case PushOp(e) => e != head && e !in s && FreshPushes(head, [e] + s, ops[1..])
    case PopOp => FreshPushes(head, Tail(s), ops[1..])
  }

  function Pushed(ops: seq<Op>): set<ListEntry> {
    set op | op in ops && op.PushOp? :: op.entry
  }

  /** From any ring, any operations: the pointers refine the stack, and the list never looks empty. */
  method RunOps(head: ListEntry, ops: seq<Op>, ghost s: seq<ListEntry>) returns (popped: seq<ListEntry>, empty: bool)
    requires Ring(head, s) && FreshPushes(head, s, ops)
    modifies head, s, Pushed(ops)
    ensures Ring(head, StackAfter(s, ops))
    ensures popped == PopsOf(head, s, ops) && !empty
    decreases |ops|
  {
    if ops == [] {
      popped := [];
      empty := IsEmpty(head, s);
      return;
    }
    assert Pushed(ops[1..]) <= Pushed(ops);
    match ops[0] {
      case PushOp(e) =>
        assert e in Pushed(ops);
        Push(head, e, s);
        popped, empty := RunOps(head, ops[1..], [e] + s);
      case PopOp =>
        var p := Pop(head, s);
        popped, empty := RunOps(head, ops[1..], Tail(s));
        popped := [p] + popped;
    }
  }

  function Reversed(s: seq<ListEntry>): (r: seq<ListEntry>)
    ensures |r| == |s|
  {
    if s == [] then [] else Reversed(s[1..]) + [s[0]]
  }

  function PushAll(s: seq<ListEntry>): seq<Op> {
    seq(|s|, i requires 0 <= i < |s| => PushOp(s[i]))
  }

  function PopTimes(n: nat): seq<Op> {
    seq(n, _ => PopOp)
  }

  lemma PushAllHead(es: seq<ListEntry>, rest: seq<Op>)
    requires es != []
    ensures (PushAll(es) + rest)[0] == PushOp(es[0]) && (PushAll(es) + rest)[1..] == PushAll(es[1..]) + rest
  {
  }

  lemma ReversedHead(es: seq<ListEntry>, s: seq<ListEntry>)
    requires es != []
    ensures Reversed(es) + s == Reversed(es[1..]) + ([es[0]] + s)
  {
  }

  lemma {:induction false} StackOfPushes(s: seq<ListEntry>, es: seq<ListEntry>, rest: seq<Op>)
    ensures StackAfter(s, PushAll(es) + rest) == StackAfter(Reversed(es) + s, rest)
    decreases |es|
  {
    if es == [] {
      assert PushAll(es) + rest == rest && Reversed(es) + s == s;
    } else {
      PushAllHead(es, rest);
      ReversedHead(es, s);
      StackOfPushes([es[0]] + s, es[1..], rest);
    }
  }

  lemma {:induction false} PopsOfPushes(head: ListEntry, s: seq<ListEntry>, es: seq<ListEntry>, rest: seq<Op>)
    ensures PopsOf(head, s, PushAll(es) + rest) == PopsOf(head, Reversed(es) + s, rest)
    decreases |es|
  {
    if es == [] {
      assert PushAll(es) + rest == rest && Reversed(es) + s == s;
    } else {
      PushAllHead(es, rest);
      ReversedHead(es, s);
      PopsOfPushes(head, [es[0]] + s, es[1..], rest);
    }
  }

  lemma {:induction false} PopsTakeTheTop(head: ListEntry, s: seq<ListEntry>, t: seq<ListEntry>)
    ensures StackAfter(s + t, PopTimes(|s|)) == t
    ensures PopsOf(head, s + t, PopTimes(|s|)) == s
    decreases |s|
  {
    if s == [] {
      assert s + t == t;
    } else {
      assert (s + t)[1..] == s[1..] + t && PopTimes(|s|)[1..] == PopTimes(|s| - 1);
      PopsTakeTheTop(head, s[1..], t);
    }
  }

  /** Pushing entries and popping as many gives them back last-in first-out and restores the stack. */
  lemma PushesThenPops(head: ListEntry, s: seq<ListEntry>, es: seq<ListEntry>)
    ensures StackAfter(s, PushAll(es) + PopTimes(|es|)) == s
    ensures PopsOf(head, s, PushAll(es) + PopTimes(|es|)) == Reversed(es)
  {
    StackOfPushes(s, es, PopTimes(|es|));
    PopsOfPushes(head, s, es, PopTimes(|es|));
    PopsTakeTheTop(head, Reversed(es), s);
  }

  // ----- the drain loop

  /** What is left of the list after k pops. */
  function Rest(s: seq<ListEntry>, k: nat): seq<ListEntry> {
    if k < |s| then s[k..] else []
  }

  lemma RestStep(s: seq<ListEntry>, k: nat)
    ensures Tail(Rest(s, k)) == Rest(s, k + 1)
    ensures forall i :: 0 <= i < |Rest(s, k)| ==> Rest(s, k)[i] == s[k + i]
  {
  }

  /** One more pop, told in terms of the original list: after the entries comes the head itself. */
  method PopNext(head: ListEntry, ghost s: seq<ListEntry>, ghost k: nat) returns (popped: ListEntry?)
    requires Ring(head, Rest(s, k))
    modifies head, s
    ensures popped == (if k < |s| then s[k] else head) && Ring(head, Rest(s, k + 1))
  {
    ghost var left := Rest(s, k);
    RestStep(s, k);
    assert forall i :: 0 <= i < |left| ==> left[i] in s;
    popped := Pop(head, left);
  }

  /** With emptiness tested as a self-linked head: every entry is joined once, newest first. */
  method Drain(head: ListEntry, ghost s: seq<ListEntry>) returns (joined: seq<ListEntry>)
    requires Ring(head, s)
    modifies head, s
    ensures joined == s && Ring(head, [])
  {
    joined := [];
    while head.flink != head
      invariant |joined| <= |s| && joined == s[..|joined|] && Ring(head, Rest(s, |joined|))
      decreases |s| - |joined|
    {
      var t := PopNext(head, s, |joined|);
      joined := joined + [t];
    }
  }

  /** The entries of s in order, and then the head again and again. */
  ghost predicate EntriesThenHead(popped: seq<ListEntry>, head: ListEntry, s: seq<ListEntry>) {
    forall i :: 0 <= i < |popped| ==> popped[i] == if i < |s| then s[i] else head
  }

  lemma OneMorePopped(popped: seq<ListEntry>, head: ListEntry, s: seq<ListEntry>, t: ListEntry)
    requires EntriesThenHead(popped, head, s) && t == if |popped| < |s| then s[|popped|] else head
    ensures EntriesThenHead(popped + [t], head, s)
  {
  }

  /**
   * As written the guard never becomes false: after any number k of iterations the
   * loop is still running. Once the |s| entries are joined every further iteration
   * "pops" the head itself, which is no thread, and leaves all pointers as they are.
   */
  method DrainAsWritten(head: ListEntry, k: nat, ghost s: seq<ListEntry>)
    returns (popped: seq<ListEntry>, running: bool)
    requires Ring(head, s)
    modifies head, s
    ensures running && |popped| == k && EntriesThenHead(popped, head, s)
    ensures Ring(head, Rest(s, k))
  {
    popped := [];
    var empty := IsEmpty(head, s);
    while |popped| < k && !empty
      invariant |popped| <= k && !empty
      invariant Ring(head, Rest(s, |popped|))
      invariant EntriesThenHead(popped, head, s)
      decreases k - |popped|
    {
      var t := PopNext(head, s, |popped|);
      OneMorePopped(popped, head, s, t);
      popped := popped + [t];
      empty := IsEmpty(head, Rest(s, |popped|));
    }
    running := !empty;
  }

  lemma {:induction false} ReversedSnoc(s: seq<ListEntry>, e: ListEntry)
    ensures Reversed(s + [e]) == [e] + Reversed(s)
  {
    if s != [] {
      assert (s + [e])[1..] == s[1..] + [e];
      ReversedSnoc(s[1..], e);
    }
  }

  /** The accept loop, left after n connections. */
  method AcceptThreads(n: nat) returns (head: ListEntry, pushed: seq<ListEntry>)
    ensures |pushed| == n && fresh(head) && forall i :: 0 <= i < n ==> fresh(Reversed(pushed)[i])
    ensures Ring(head, Reversed(pushed))
  {
    head := new ListEntry();
    InitializeHead(head);
    pushed := [];
    ghost var s: seq<ListEntry> := [];
    while |pushed| < n
      invariant |pushed| <= n && Ring(head, s) && s == Reversed(pushed)
      invariant fresh(head) && (forall i :: 0 <= i < |s| ==> fresh(s[i]))
    {
      var t := new ListEntry();
      Push(head, t, s);
      ReversedSnoc(pushed, t);
      pushed := pushed + [t];
      s := [t] + s;
    }
  }

  /** n connections, then the drain: main() with a finite accept loop. */
  method AcceptThenDrain(n: nat) returns (pushed: seq<ListEntry>, joined: seq<ListEntry>)
    ensures |pushed| == n && joined == Reversed(pushed)
    ensures forall i, j :: 0 <= i < j < n ==> joined[i] != joined[j]
  {
    var head;
    head, pushed := AcceptThreads(n);
    joined := Drain(head, Reversed(pushed));
  }

  /** The same with the drain as written: after the n threads the head is popped, k times in all. */
  method AcceptThenDrainAsWritten(n: nat, k: nat)
    returns (head: ListEntry, pushed: seq<ListEntry>, popped: seq<ListEntry>, running: bool)
    ensures |pushed| == n && |popped| == k && running && EntriesThenHead(popped, head, Reversed(pushed))
  {
    head, pushed := AcceptThreads(n);
    popped, running := DrainAsWritten(head, k, Reversed(pushed));
  }
}

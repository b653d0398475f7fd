/**
 * The scan over the slot array that both event loops run after select() or
 * poll(): a slot is served when it holds a positive descriptor that was
 * reported readable. Two forms: the plain scan visits every slot, the eager
 * one stops at a high-water mark and as soon as a countdown reaches zero.
 */
module Scan {
  import opened Connections

  /**
   * `served` logs the descriptors in the order they were served and `cleared`
   * those that were closed; `halted` says the process ended on a short write.
   */
  datatype Scan = Scan(slots: seq<int>, net: Net, served: seq<int>, cleared: set<int>, halted: bool)

  /** Slot i is to be served: it is in use and its descriptor was reported. */
  predicate Hot(slots: seq<int>, flags: seq<bool>, i: nat)
    requires |flags| == |slots| && i < |slots|
  {
    slots[i] > 0 && flags[i]
  }

  /** Which slots hold a descriptor of the set. */
  function Flags(slots: seq<int>, ready: set<int>): (f: seq<bool>)
    ensures |f| == |slots|
  {
    seq(|slots|, i requires 0 <= i < |slots| => slots[i] in ready)
  }

  function ServeSlot(sc: Scan, i: nat, replies: Replies): Scan
    requires i < |sc.slots|
  {
    var fd := sc.slots[i];
    var reply := replies(fd);
    var closes := !Answer(sc.net, fd, reply.read).Data?;
    Scan(if closes then sc.slots[i := -1] else sc.slots,
         Serve(sc.net, fd, reply),
         sc.served + [fd],
         if closes then sc.cleared + {fd} else sc.cleared,
         Short(sc.net, fd, reply))
  }

  /** Every slot from i on, whatever any counter says. */
  function Plain(sc: Scan, flags: seq<bool>, replies: Replies, i: nat): Scan
    requires |flags| == |sc.slots|
    decreases |sc.slots| - i
  {
    if i >= |sc.slots| || sc.halted then sc
    else Plain(if Hot(sc.slots, flags, i) then ServeSlot(sc, i, replies) else sc, flags, replies, i + 1)
  }

  /** Slots from i to `last`, only while `nready` is positive; the countdown is returned too. */
  function Eager(sc: Scan, flags: seq<bool>, replies: Replies, i: nat, last: int, nready: int): (Scan, int)
    requires |flags| == |sc.slots| && last < |sc.slots|
    decreases last - i
  {
    if i > last || nready <= 0 || sc.halted then (sc, nready)
    else if Hot(sc.slots, flags, i) then Eager(ServeSlot(sc, i, replies), flags, replies, i + 1, last, nready - 1)
    else Eager(sc, flags, replies, i + 1, last, nready)
  }

  lemma EagerStep(sc: Scan, flags: seq<bool>, replies: Replies, i: nat, last: int, nready: int)
    requires |flags| == |sc.slots| && i <= last < |sc.slots| && nready > 0 && !sc.halted
    ensures Hot(sc.slots, flags, i) ==>
              Eager(sc, flags, replies, i, last, nready) ==
              Eager(ServeSlot(sc, i, replies), flags, replies, i + 1, last, nready - 1)
    ensures !Hot(sc.slots, flags, i) ==>
              Eager(sc, flags, replies, i, last, nready) == Eager(sc, flags, replies, i + 1, last, nready)
  {
  }

  lemma {:induction false} EagerKeepsLength(sc: Scan, flags: seq<bool>, replies: Replies, i: nat, last: int,
                                            nready: int)
    requires |flags| == |sc.slots| && last < |sc.slots|
    ensures |Eager(sc, flags, replies, i, last, nready).0.slots| == |sc.slots|
    decreases last - i
  {
    if i > last || nready <= 0 || sc.halted {
    } else if Hot(sc.slots, flags, i) {
      EagerKeepsLength(ServeSlot(sc, i, replies), flags, replies, i + 1, last, nready - 1);
    } else {
      EagerKeepsLength(sc, flags, replies, i + 1, last, nready);
    }
  }

  /** Number of slots from i on that are to be served. */
  function CountHot(slots: seq<int>, flags: seq<bool>, i: nat): nat
    requires |flags| == |slots|
    decreases |slots| - i
  {
    if i >= |slots| then 0 else (if Hot(slots, flags, i) then 1 else 0) + CountHot(slots, flags, i + 1)
  }

  /** Their descriptors, in slot order. */
  function HotFds(slots: seq<int>, flags: seq<bool>, i: nat): seq<int>
    requires |flags| == |slots|
    decreases |slots| - i
  {
    if i >= |slots| then [] else (if Hot(slots, flags, i) then [slots[i]] else []) + HotFds(slots, flags, i + 1)
  }

  function HotSet(slots: seq<int>, flags: seq<bool>, i: nat): set<int>
    requires |flags| == |slots|
  {
    set j | i <= j < |slots| && Hot(slots, flags, j) :: slots[j]
  }

  /** The descriptors held by the slots. */
  function Live(slots: seq<int>): set<int> {
    set i | 0 <= i < |slots| && slots[i] > 0 :: slots[i]
  }

  /** The first slot from i on that the search for a free slot accepts, or the length. */
  function FirstFree(slots: seq<int>, i: nat): (r: nat)
    requires i <= |slots|
    ensures i <= r <= |slots|
    ensures r < |slots| ==> slots[r] < 0
    ensures forall j :: i <= j < r ==> slots[j] >= 0
    decreases |slots| - i
  {
    if i == |slots| || slots[i] < 0 then i else FirstFree(slots, i + 1)
  }

  /** No descriptor is in two slots. */
  ghost predicate Distinct(slots: seq<int>) {
    forall i, j :: 0 <= i < j < |slots| && slots[i] > 0 ==> slots[i] != slots[j]
  }

  lemma {:induction false} CountDependsOnSuffix(s: seq<int>, t: seq<int>, f: seq<bool>, g: seq<bool>, i: nat)
    requires |s| == |t| == |f| == |g|
    requires forall j :: i <= j < |s| ==> Hot(s, f, j) == Hot(t, g, j)
    ensures CountHot(s, f, i) == CountHot(t, g, i)
    decreases |s| - i
  {
    if i < |s| { CountDependsOnSuffix(s, t, f, g, i + 1); }
  }

  lemma {:induction false} HotFdsDependOnSuffix(s: seq<int>, t: seq<int>, f: seq<bool>, i: nat)
    requires |s| == |t| == |f|
    requires forall j :: i <= j < |s| ==> s[j] == t[j]
    ensures HotFds(s, f, i) == HotFds(t, f, i)
    decreases |s| - i
  {
    if i < |s| { HotFdsDependOnSuffix(s, t, f, i + 1); }
  }

  lemma {:induction false} NoneHot(slots: seq<int>, flags: seq<bool>, i: nat, from: nat)
    requires |flags| == |slots|
    requires forall j :: from <= j < |slots| ==> !Hot(slots, flags, j)
    requires i >= from
    ensures CountHot(slots, flags, i) == 0
    decreases |slots| - i
  {
    if i < |slots| { NoneHot(slots, flags, i + 1, from); }
  }

  lemma {:induction false} PlainOverNothing(sc: Scan, flags: seq<bool>, replies: Replies, i: nat)
    requires |flags| == |sc.slots| && CountHot(sc.slots, flags, i) == 0
    ensures Plain(sc, flags, replies, i) == sc
    decreases |sc.slots| - i
  {
    if i < |sc.slots| && !sc.halted { PlainOverNothing(sc, flags, replies, i + 1); }
  }

  /**
   * The eager scan is the plain scan: if the countdown is at least the number
   * of slots still to be served and no such slot lies above `last`, neither
   * bound skips anything, and exactly the served slots are counted down.
   */
  lemma {:induction false} EagerIsPlain(sc: Scan, flags: seq<bool>, replies: Replies, i: nat, last: int, nready: int)
    requires |flags| == |sc.slots| && last < |sc.slots|
    requires forall j :: 0 <= j < |sc.slots| && j > last ==> !Hot(sc.slots, flags, j)
    requires nready >= CountHot(sc.slots, flags, i)
    ensures var (end, left) := Eager(sc, flags, replies, i, last, nready);
            && end == Plain(sc, flags, replies, i)
            && (!end.halted ==> left == nready - CountHot(sc.slots, flags, i))
    decreases last - i
  {
    if i > last {
      NoneHot(sc.slots, flags, i, if last < 0 then 0 else last + 1);
      PlainOverNothing(sc, flags, replies, i);
    } else if sc.halted {
    } else if nready <= 0 {
      PlainOverNothing(sc, flags, replies, i);
    } else if Hot(sc.slots, flags, i) {
      var next := ServeSlot(sc, i, replies);
      CountDependsOnSuffix(next.slots, sc.slots, flags, flags, i + 1);
      EagerIsPlain(next, flags, replies, i + 1, last, nready - 1);
    } else {
      EagerIsPlain(sc, flags, replies, i + 1, last, nready);
    }
  }

  /** With distinct slots, counting slots is counting descriptors. */
  lemma {:induction false} CountIsCardinality(slots: seq<int>, flags: seq<bool>, i: nat)
    requires |flags| == |slots| && Distinct(slots)
    ensures CountHot(slots, flags, i) == |HotSet(slots, flags, i)| == |HotFds(slots, flags, i)|
    decreases |slots| - i
  {
    if i < |slots| {
      CountIsCardinality(slots, flags, i + 1);
      if Hot(slots, flags, i) {
        assert HotSet(slots, flags, i) == {slots[i]} + HotSet(slots, flags, i + 1);
        assert slots[i] !in HotSet(slots, flags, i + 1);
      } else {
        assert HotSet(slots, flags, i) == HotSet(slots, flags, i + 1);
      }
    } else {
      assert HotSet(slots, flags, i) == {};
    }
  }

  lemma {:induction false} HotFdsAreTheHotSet(slots: seq<int>, flags: seq<bool>, i: nat)
    requires |flags| == |slots| && Distinct(slots)
    ensures forall fd :: fd in HotFds(slots, flags, i) <==> fd in HotSet(slots, flags, i)
    ensures forall a, b :: 0 <= a < b < |HotFds(slots, flags, i)| ==>
              HotFds(slots, flags, i)[a] != HotFds(slots, flags, i)[b]
    decreases |slots| - i
  {
    if i < |slots| {
      HotFdsAreTheHotSet(slots, flags, i + 1);
      if Hot(slots, flags, i) {
        assert HotSet(slots, flags, i) == {slots[i]} + HotSet(slots, flags, i + 1);
        assert slots[i] !in HotSet(slots, flags, i + 1);
      } else {
        assert HotSet(slots, flags, i) == HotSet(slots, flags, i + 1);
      }
    }
  }

  /** Descriptor x is in a slot before one that holds y. */
  ghost predicate Before(slots: seq<int>, x: int, y: int) {
    exists i, j :: 0 <= i < j < |slots| && slots[i] == x && slots[j] == y
  }

  ghost predicate InSlotOrder(served: seq<int>, slots: seq<int>) {
    forall a, b :: 0 <= a < b < |served| ==> Before(slots, served[a], served[b])
  }

  ghost predicate InSlotsFrom(slots: seq<int>, i: nat, fd: int) {
    exists j :: i <= j < |slots| && slots[j] == fd
  }

  lemma {:induction false} HotFdsAreInSlots(slots: seq<int>, flags: seq<bool>, i: nat)
    requires |flags| == |slots|
    ensures forall fd :: fd in HotFds(slots, flags, i) ==> InSlotsFrom(slots, i, fd)
    decreases |slots| - i
  {
    if i < |slots| {
      HotFdsAreInSlots(slots, flags, i + 1);
      forall fd | fd in HotFds(slots, flags, i) ensures InSlotsFrom(slots, i, fd) {
        if fd == slots[i] {
          assert i <= i < |slots|;
        } else {
          assert fd in HotFds(slots, flags, i + 1) && InSlotsFrom(slots, i + 1, fd);
          var j :| i + 1 <= j < |slots| && slots[j] == fd;
        }
      }
    }
  }

  lemma OneMoreInOrder(served: seq<int>, slots: seq<int>, i: nat)
    requires i < |slots| && InSlotOrder(served, slots)
    requires forall fd :: fd in served ==> InSlotsFrom(slots, i + 1, fd)
    ensures InSlotOrder([slots[i]] + served, slots)
  {
    var all := [slots[i]] + served;
    forall a, b | 0 <= a < b < |all| ensures Before(slots, all[a], all[b]) {
      if a == 0 {
        assert served[b - 1] in served;
        var j :| i + 1 <= j < |slots| && slots[j] == served[b - 1];
        assert slots[i] == all[a] && slots[j] == all[b];
      } else {
        assert Before(slots, served[a - 1], served[b - 1]) && all[a] == served[a - 1] && all[b] == served[b - 1];
      }
    }
  }

  lemma {:induction false} HotFdsInSlotOrder(slots: seq<int>, flags: seq<bool>, i: nat)
    requires |flags| == |slots|
    ensures InSlotOrder(HotFds(slots, flags, i), slots)
    decreases |slots| - i
  {
    if i < |slots| {
      HotFdsInSlotOrder(slots, flags, i + 1);
      if Hot(slots, flags, i) {
        HotFdsAreInSlots(slots, flags, i + 1);
        OneMoreInOrder(HotFds(slots, flags, i + 1), slots, i);
      } else {
        assert HotFds(slots, flags, i) == HotFds(slots, flags, i + 1);
      }
    }
  }

  /** Slot i is the first that is free. */
  predicate IsFirstFree(slots: seq<int>, i: int) {
    0 <= i < |slots| && slots[i] < 0 && forall j :: 0 <= j < i ==> slots[j] >= 0
  }

  /** The slots after those that hold a descriptor in `gone` were freed. */
  predicate FreedFrom(before: seq<int>, after: seq<int>, gone: set<int>) {
    |after| == |before| &&
    forall j :: 0 <= j < |before| ==> after[j] == if before[j] in gone then -1 else before[j]
  }

  lemma InsertLive(slots: seq<int>, i: nat, fd: int)
    requires i < |slots| && slots[i] < 0 && fd > 0
    ensures Live(slots[i := fd]) == Live(slots) + {fd}
  {
    var slots' := slots[i := fd];
    forall f | f in Live(slots) ensures f in Live(slots') {
      var j :| 0 <= j < |slots| && slots[j] > 0 && slots[j] == f;
      assert slots'[j] == f;
    }
    assert slots'[i] == fd;
  }

  // ----- what the plain scan achieves, without slots, order or counters

  /** Some of these connections gets data whose echo is not written completely. */
  predicate ShortIn(net: Net, fds: set<int>, replies: Replies) {
    exists fd :: fd in fds && FallsShort(net, fd, replies(fd))
  }

  /** The slots after a complete scan from i: those that were served and not echoed are freed. */
  ghost predicate SlotsAfter(before: seq<int>, after: seq<int>, flags: seq<bool>, net: Net, replies: Replies, i: nat)
    requires |flags| == |before|
  {
    && |after| == |before|
    && (forall j :: 0 <= j < |before| ==>
          after[j] == if i <= j && Hot(before, flags, j) && !Answer(net, before[j], replies(before[j]).read).Data?
                      then -1 else before[j])
  }

  lemma ServeOthersUntouched(net: Net, fd: int, r: Reply, other: int)
    requires other != fd
    ensures other in Serve(net, fd, r).open <==> other in net.open
    ensures other in net.open ==> Serve(net, fd, r).open[other] == net.open[other]
  {
  }

  lemma HotSetHead(slots: seq<int>, flags: seq<bool>, i: nat, slots': seq<int>)
    requires |flags| == |slots| == |slots'| && i < |slots| && Distinct(slots) && Hot(slots, flags, i)
    requires forall j :: i < j < |slots| ==> slots'[j] == slots[j]
    ensures HotSet(slots', flags, i + 1) == HotSet(slots, flags, i + 1)
    ensures HotSet(slots, flags, i) == {slots[i]} + HotSet(slots, flags, i + 1)
    ensures slots[i] !in HotSet(slots, flags, i + 1)
  {
    var rest, rest' := HotSet(slots, flags, i + 1), HotSet(slots', flags, i + 1);
    forall fd ensures fd in rest' <==> fd in rest {
      if fd in rest {
        var j :| i + 1 <= j < |slots| && Hot(slots, flags, j) && slots[j] == fd;
        assert Hot(slots', flags, j);
      }
      if fd in rest' {
        var j :| i + 1 <= j < |slots'| && Hot(slots', flags, j) && slots'[j] == fd;
        assert Hot(slots, flags, j);
      }
    }
  }

  lemma ShortAfterServe(net: Net, fd: int, r: Reply, rest: set<int>, replies: Replies)
    requires fd !in rest
    ensures ShortIn(Serve(net, fd, r), rest, replies) <==> ShortIn(net, rest, replies)
  {
    forall f | f in rest
      ensures Short(Serve(net, fd, r), f, replies(f)) <==> Short(net, f, replies(f))
    {
      ServeOthersUntouched(net, fd, r, f);
    }
  }

  /** One step of the induction: serving slot i and then the rest serves the whole set. */
  lemma PlainHead(sc: Scan, flags: seq<bool>, replies: Replies, i: nat)
    requires |flags| == |sc.slots| && i < |sc.slots| && Distinct(sc.slots) && Hot(sc.slots, flags, i)
    requires HotSet(sc.slots, flags, i) <= sc.net.open.Keys
    ensures var next := ServeSlot(sc, i, replies);
            && Distinct(next.slots)
            && HotSet(next.slots, flags, i + 1) == HotSet(sc.slots, flags, i + 1)
            && HotSet(sc.slots, flags, i) == {sc.slots[i]} + HotSet(sc.slots, flags, i + 1)
            && sc.slots[i] !in HotSet(sc.slots, flags, i + 1)
            && HotSet(next.slots, flags, i + 1) <= next.net.open.Keys
            && (ShortIn(sc.net, HotSet(sc.slots, flags, i), replies) <==>
                next.halted || ShortIn(next.net, HotSet(sc.slots, flags, i + 1), replies))
  {
    var next := ServeSlot(sc, i, replies);
    var fd, rest := sc.slots[i], HotSet(sc.slots, flags, i + 1);
    HotSetHead(sc.slots, flags, i, next.slots);
    ShortAfterServe(sc.net, fd, replies(fd), rest, replies);
    forall f | f in rest ensures f in next.net.open {
      ServeOthersUntouched(sc.net, fd, replies(fd), f);
    }
  }

  /** `end` is the result of serving, from sc, exactly the hot slots from i on. */
  ghost predicate ServedFrom(sc: Scan, end: Scan, flags: seq<bool>, replies: Replies, i: nat)
    requires |flags| == |sc.slots|
  {
    var hot := HotSet(sc.slots, flags, i);
    && end.net == ServeAll(sc.net, hot, replies)
    && end.served == sc.served + HotFds(sc.slots, flags, i)
    && end.cleared == sc.cleared + Closing(hot, replies)
    && SlotsAfter(sc.slots, end.slots, flags, sc.net, replies, i)
  }

  lemma ServedNetStep(sc: Scan, flags: seq<bool>, replies: Replies, i: nat)
    requires |flags| == |sc.slots| && i < |sc.slots| && Distinct(sc.slots) && Hot(sc.slots, flags, i)
    requires HotSet(sc.slots, flags, i) <= sc.net.open.Keys && !Short(sc.net, sc.slots[i], replies(sc.slots[i]))
    ensures var next := ServeSlot(sc, i, replies);
            ServeAll(next.net, HotSet(next.slots, flags, i + 1), replies) ==
            ServeAll(sc.net, HotSet(sc.slots, flags, i), replies)
  {
    PlainHead(sc, flags, replies, i);
    ServeAllStep(sc.net, sc.slots[i], HotSet(sc.slots, flags, i + 1), replies);
  }

  lemma HotFdsHead(slots: seq<int>, flags: seq<bool>, i: nat, slots': seq<int>)
    requires |flags| == |slots| == |slots'| && i < |slots| && Hot(slots, flags, i)
    requires forall j :: i < j < |slots| ==> slots'[j] == slots[j]
    ensures HotFds(slots, flags, i) == [slots[i]] + HotFds(slots', flags, i + 1)
  {
    HotFdsDependOnSuffix(slots', slots, flags, i + 1);
  }

  lemma Regroup(served: seq<int>, fd: int, rest: seq<int>)
    ensures served + [fd] + rest == served + ([fd] + rest)
  {
  }

  lemma ServedLogStep(sc: Scan, flags: seq<bool>, replies: Replies, i: nat)
    requires |flags| == |sc.slots| && i < |sc.slots| && Hot(sc.slots, flags, i)
    ensures var next := ServeSlot(sc, i, replies);
            next.served + HotFds(next.slots, flags, i + 1) == sc.served + HotFds(sc.slots, flags, i)
  {
    var next := ServeSlot(sc, i, replies);
    HotFdsHead(sc.slots, flags, i, next.slots);
    Regroup(sc.served, sc.slots[i], HotFds(next.slots, flags, i + 1));
  }

  /** The descriptors among fds that are closed when they are served. */
  function Closing(fds: set<int>, replies: Replies): set<int> {
    set fd | fd in fds && !replies(fd).read.Data?
  }

  lemma ServedClearedStep(sc: Scan, flags: seq<bool>, replies: Replies, i: nat)
    requires |flags| == |sc.slots| && i < |sc.slots| && Distinct(sc.slots) && Hot(sc.slots, flags, i)
    requires HotSet(sc.slots, flags, i) <= sc.net.open.Keys
    ensures var next := ServeSlot(sc, i, replies);
            next.cleared + Closing(HotSet(next.slots, flags, i + 1), replies) ==
            sc.cleared + Closing(HotSet(sc.slots, flags, i), replies)
  {
    HotSetHead(sc.slots, flags, i, ServeSlot(sc, i, replies).slots);
  }

  lemma ServedStep(sc: Scan, end: Scan, flags: seq<bool>, replies: Replies, i: nat)
    requires |flags| == |sc.slots| && i < |sc.slots| && Distinct(sc.slots) && Hot(sc.slots, flags, i)
    requires HotSet(sc.slots, flags, i) <= sc.net.open.Keys
    requires !Short(sc.net, sc.slots[i], replies(sc.slots[i]))
    requires ServedFrom(ServeSlot(sc, i, replies), end, flags, replies, i + 1)
    ensures ServedFrom(sc, end, flags, replies, i)
  {
    ServedNetStep(sc, flags, replies, i);
    ServedLogStep(sc, flags, replies, i);
    ServedClearedStep(sc, flags, replies, i);
    PlainSlots(sc, end.slots, flags, replies, i);
  }

  lemma NothingToServe(sc: Scan, flags: seq<bool>, replies: Replies, i: nat)
    requires |flags| == |sc.slots| <= i
    ensures !ShortIn(sc.net, HotSet(sc.slots, flags, i), replies) && ServedFrom(sc, sc, flags, replies, i)
  {
    assert HotSet(sc.slots, flags, i) == {};
    ServeAllNone(sc.net, replies);
  }

  /** A slot that is not served leaves nothing to do. */
  lemma ColdHead(sc: Scan, flags: seq<bool>, replies: Replies, i: nat)
    requires |flags| == |sc.slots| && i < |sc.slots| && !Hot(sc.slots, flags, i)
    ensures HotSet(sc.slots, flags, i) == HotSet(sc.slots, flags, i + 1)
    ensures forall end {:trigger ServedFrom(sc, end, flags, replies, i)} ::
              ServedFrom(sc, end, flags, replies, i + 1) ==> ServedFrom(sc, end, flags, replies, i)
  {
    assert HotFds(sc.slots, flags, i) == HotFds(sc.slots, flags, i + 1);
  }

  /**
   * The plain scan serves exactly the reported descriptors, each once and in
   * slot order, with the effect of the order-free ServeAll; it ends the process
   * if and only if one of their writes is short.
   */
  lemma {:induction false} PlainMeaning(sc: Scan, flags: seq<bool>, replies: Replies, i: nat)
    requires |flags| == |sc.slots| && Distinct(sc.slots) && !sc.halted
    requires HotSet(sc.slots, flags, i) <= sc.net.open.Keys
    ensures var end := Plain(sc, flags, replies, i);
            && (end.halted <==> ShortIn(sc.net, HotSet(sc.slots, flags, i), replies))
            && (!end.halted ==> ServedFrom(sc, end, flags, replies, i))
    decreases |sc.slots| - i
  {
    if i >= |sc.slots| {
      NothingToServe(sc, flags, replies, i);
    } else if !Hot(sc.slots, flags, i) {
      ColdHead(sc, flags, replies, i);
      PlainMeaning(sc, flags, replies, i + 1);
    } else {
      PlainHead(sc, flags, replies, i);
      var next := ServeSlot(sc, i, replies);
      if !next.halted {
        PlainMeaning(next, flags, replies, i + 1);
        var end := Plain(next, flags, replies, i + 1);
        if !end.halted { ServedStep(sc, end, flags, replies, i); }
      }
    }
  }

  lemma PlainSlots(sc: Scan, after: seq<int>, flags: seq<bool>, replies: Replies, i: nat)
    requires |flags| == |sc.slots| && i < |sc.slots| && Distinct(sc.slots) && Hot(sc.slots, flags, i)
    requires var next := ServeSlot(sc, i, replies); SlotsAfter(next.slots, after, flags, next.net, replies, i + 1)
    ensures SlotsAfter(sc.slots, after, flags, sc.net, replies, i)
  {
    var next := ServeSlot(sc, i, replies);
    forall j | i < j < |sc.slots| && Hot(sc.slots, flags, j)
      ensures Answer(next.net, sc.slots[j], replies(sc.slots[j]).read) ==
              Answer(sc.net, sc.slots[j], replies(sc.slots[j]).read)
    {
      ServeOthersUntouched(sc.net, sc.slots[i], replies(sc.slots[i]), sc.slots[j]);
    }
  }

  /** The kernel keeps its promises for every slot from i on that is to be served. */
  ghost predicate AllowedFrom(slots: seq<int>, flags: seq<bool>, net: Net, replies: Replies, bufsize: nat, i: nat)
    requires |flags| == |slots|
  {
    forall j :: i <= j < |slots| && Hot(slots, flags, j) && slots[j] in net.open ==>
      Allowed(net.open[slots[j]], replies(slots[j]), bufsize)
  }

  lemma AllowedNext(sc: Scan, flags: seq<bool>, replies: Replies, bufsize: nat, i: nat)
    requires |flags| == |sc.slots| && i < |sc.slots| && Distinct(sc.slots)
    requires AllowedFrom(sc.slots, flags, sc.net, replies, bufsize, i)
    ensures AllowedFrom(sc.slots, flags, sc.net, replies, bufsize, i + 1)
    ensures Hot(sc.slots, flags, i) ==>
              var next := ServeSlot(sc, i, replies);
              Distinct(next.slots) && AllowedFrom(next.slots, flags, next.net, replies, bufsize, i + 1)
  {
    if Hot(sc.slots, flags, i) {
      var next := ServeSlot(sc, i, replies);
      forall j | i + 1 <= j < |next.slots| && Hot(next.slots, flags, j) && next.slots[j] in next.net.open
        ensures Allowed(next.net.open[next.slots[j]], replies(next.slots[j]), bufsize)
      {
        assert Hot(sc.slots, flags, j);
        ServeOthersUntouched(sc.net, sc.slots[i], replies(sc.slots[i]), sc.slots[j]);
      }
    }
  }

  /** `keeps(net, running)` survives every service the kernel may perform. */
  ghost predicate KeptByServing(keeps: (Net, bool) -> bool, bufsize: nat) {
    forall net, fd, r {:trigger Serve(net, fd, r)} ::
      keeps(net, true) && (fd in net.open ==> Allowed(net.open[fd], r, bufsize)) ==>
      keeps(Serve(net, fd, r), !Short(net, fd, r))
  }

  /** What every service keeps, every scan keeps. */
  lemma {:induction false} EagerKeeps(keeps: (Net, bool) -> bool, sc: Scan, flags: seq<bool>, replies: Replies,
                                      i: nat, last: int, nready: int, bufsize: nat)
    requires |flags| == |sc.slots| && last < |sc.slots| && Distinct(sc.slots)
    requires AllowedFrom(sc.slots, flags, sc.net, replies, bufsize, i)
    requires KeptByServing(keeps, bufsize) && keeps(sc.net, !sc.halted)
    ensures var end := Eager(sc, flags, replies, i, last, nready).0; keeps(end.net, !end.halted)
    decreases last - i
  {
    if i > last || nready <= 0 || sc.halted {
    } else {
      AllowedNext(sc, flags, replies, bufsize, i);
      if Hot(sc.slots, flags, i) {
        assert sc.slots[i] in sc.net.open ==> Allowed(sc.net.open[sc.slots[i]], replies(sc.slots[i]), bufsize);
        EagerKeeps(keeps, ServeSlot(sc, i, replies), flags, replies, i + 1, last, nready - 1, bufsize);
      } else {
        EagerKeeps(keeps, sc, flags, replies, i + 1, last, nready, bufsize);
      }
    }
  }

  ghost predicate NetOk(net: Net, running: bool) {
    StreamsOk(net, running) && SerialsOk(net)
  }

  lemma ServingKeepsNetOk(bufsize: nat)
    ensures KeptByServing((net, running) => NetOk(net, running), bufsize)
  {
    forall net, fd, r {:trigger Serve(net, fd, r)} |
      NetOk(net, true) && (fd in net.open ==> Allowed(net.open[fd], r, bufsize))
      ensures NetOk(Serve(net, fd, r), !Short(net, fd, r))
    {
      ServeKeepsStreams(net, fd, r, bufsize);
      ServeKeepsSerials(net, fd, r);
    }
  }

  lemma EagerKeepsNetOk(sc: Scan, flags: seq<bool>, replies: Replies, i: nat, last: int, nready: int, bufsize: nat)
    requires |flags| == |sc.slots| && last < |sc.slots| && Distinct(sc.slots)
    requires AllowedFrom(sc.slots, flags, sc.net, replies, bufsize, i)
    requires NetOk(sc.net, !sc.halted)
    ensures var end := Eager(sc, flags, replies, i, last, nready).0; NetOk(end.net, !end.halted)
  {
    ServingKeepsNetOk(bufsize);
    EagerKeeps((net, running) => NetOk(net, running), sc, flags, replies, i, last, nready, bufsize);
  }

  lemma ServingKeepsInputs(base: Net, bufsize: nat)
    ensures KeptByServing((net, running) => InputsKept(base, net), bufsize)
  {
    forall net, fd, r {:trigger Serve(net, fd, r)} | InputsKept(base, net)
      ensures InputsKept(base, Serve(net, fd, r))
    {
      ServeKeepsInputs(base, net, fd, r);
    }
  }

  lemma EagerKeepsInputs(sc: Scan, flags: seq<bool>, replies: Replies, i: nat, last: int, nready: int, bufsize: nat)
    requires |flags| == |sc.slots| && last < |sc.slots| && Distinct(sc.slots)
    requires AllowedFrom(sc.slots, flags, sc.net, replies, bufsize, i)
    ensures InputsKept(sc.net, Eager(sc, flags, replies, i, last, nready).0.net)
  {
    ServingKeepsInputs(sc.net, bufsize);
    assert InputsKept(sc.net, sc.net) by {
      forall c | c in Conns(sc.net) ensures exists b :: b in Conns(sc.net) && SameInput(b, c) {
        assert SameInput(c, c);
      }
    }
    EagerKeeps((net, running) => InputsKept(sc.net, net), sc, flags, replies, i, last, nready, bufsize);
  }
}

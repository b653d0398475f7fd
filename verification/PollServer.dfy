/** The event loop of servers/poll.c, as written and with the scan it intends. */
module PollServer {
  import opened Prelude
  import opened Connections
  import opened SystemCalls
  import opened Scan
  import opened EventLoop

  /** One struct pollfd; `other` stands for every returned condition besides POLLIN. */
  datatype PollFd = PollFd(fd: int, pollin: bool, other: bool)

  /**
   * `halted` after error_exit(); `overrun` after a slot beyond the array was
   * examined, where the C program has no defined behaviour.
   */
  datatype Server = Server(pollfds: seq<PollFd>, nready: int, sfd: int, net: Net, served: seq<int>,
                           halted: bool, overrun: bool)

  predicate Stopped(s: Server) {
    s.halted || s.overrun
  }

  /**
   * What distinguishes the code as written from the scan it intends: the first
   * slot the scan visits, and how far the search for a free slot may go.
   */
  datatype Variant = Variant(firstSlot: nat, searchLimit: nat)

  function Fds(p: seq<PollFd>): (r: seq<int>)
    ensures |r| == |p| && forall i :: 0 <= i < |p| ==> r[i] == p[i].fd
  {
    seq(|p|, i requires 0 <= i < |p| => p[i].fd)
  }

  function Pollins(p: seq<PollFd>): (r: seq<bool>)
    ensures |r| == |p| && forall i :: 0 <= i < |p| ==> r[i] == p[i].pollin
  {
    seq(|p|, i requires 0 <= i < |p| => p[i].pollin)
  }

  predicate Nonzero(e: PollFd) {
    e.pollin || e.other
  }

  function CountNonzero(p: seq<PollFd>, i: nat): nat
    decreases |p| - i
  {
    if i >= |p| then 0 else (if Nonzero(p[i]) then 1 else 0) + CountNonzero(p, i + 1)
  }

  // ----- the state transformers of the loop

  function Initial(sfd: int, size: nat): Server
    requires size > 0
  {
    Server(seq(size, i => PollFd(if i == 0 then sfd else -1, false, false)),
           0, sfd, Net(map[], {}, 0), [], false, false)
  }

  /** poll(): a negative descriptor is ignored and reports nothing. */
  function Polled(e: PollFd, env: Env): PollFd {
    PollFd(e.fd, e.fd >= 0 && e.fd in env.canRead, e.fd >= 0 && e.fd in env.other)
  }

  function PollAll(p: seq<PollFd>, env: Env): (r: seq<PollFd>)
    ensures |r| == |p| && forall i :: 0 <= i < |p| ==> r[i] == Polled(p[i], env)
  {
    seq(|p|, i requires 0 <= i < |p| => Polled(p[i], env))
  }

  function WithClient(s: Server, cfd: int, limit: nat): Server
    requires |s.pollfds| <= limit
  {
    var i := FirstFree(Fds(s.pollfds), 0);
    if i < |s.pollfds| then s.(nready := s.nready - 1, pollfds := s.pollfds[i := s.pollfds[i].(fd := cfd)])
    else if limit > |s.pollfds| then s.(nready := s.nready - 1, overrun := true)
    else s.(nready := s.nready - 1, halted := true)
  }

  function ScanOf(s: Server): Scan {
    Scan(Fds(s.pollfds), s.net, [], {}, false)
  }

  function PutFds(p: seq<PollFd>, fds: seq<int>): (r: seq<PollFd>)
    requires |fds| == |p|
    ensures |r| == |p| && forall i :: 0 <= i < |p| ==> r[i] == p[i].(fd := fds[i])
  {
    seq(|p|, i requires 0 <= i < |p| => p[i].(fd := fds[i]))
  }

  function ProcessReady(s: Server, replies: Replies, first: nat): Server {
    var (end, left) := Eager(ScanOf(s), Pollins(s.pollfds), replies, first, |s.pollfds| - 1, s.nready);
    EagerKeepsLength(ScanOf(s), Pollins(s.pollfds), replies, first, |s.pollfds| - 1, s.nready);
    s.(pollfds := PutFds(s.pollfds, end.slots), net := end.net, served := end.served,
       nready := left, halted := end.halted)
  }

  function BeforeScan(s: Server, env: Env, limit: nat): Server
    requires 0 < |s.pollfds| <= limit
  {
    if env.waitFails then s.(nready := -1, served := [], halted := true) else
    var p := PollAll(s.pollfds, env);
    var s1 := s.(pollfds := p, nready := CountNonzero(p, 0), served := []);
    if !p[0].pollin then s1
    else if env.accepted.None? then s1.(halted := true)
    else
      var n := env.accepted.value;
      WithClient(s1.(net := AcceptAs(s.net, n.fd, n.sent, n.fin)), n.fd, limit)
  }

  function Round(s: Server, env: Env, v: Variant): Server
    requires 0 < |s.pollfds| <= v.searchLimit
  {
    if Stopped(s) then s else
    var s1 := BeforeScan(s, env, v.searchLimit);
    if Stopped(s1) then s1 else ProcessReady(s1, env.replies, v.firstSlot)
  }

  // ----- the representation invariant

  ghost predicate SlotsOk(fds: seq<int>, sfd: int) {
    && |fds| > 0
    && (forall i :: 1 <= i < |fds| ==> (fds[i] == -1 || fds[i] > 0) && fds[i] != sfd)
    && (forall i, j :: 1 <= i < j < |fds| && fds[i] > 0 ==> fds[i] != fds[j])
  }

  function Clients(fds: seq<int>): set<int> {
    set i | 1 <= i < |fds| && fds[i] > 0 :: fds[i]
  }

  /** Apart from slot 0 the slots hold exactly the open connections. */
  ghost predicate Agree(fds: seq<int>, sfd: int, net: Net) {
    sfd >= 0 && SlotsOk(fds, sfd) && (fds[0] == sfd || fds[0] == -1) && net.open.Keys == Clients(fds)
  }

  ghost predicate Safe(s: Server) {
    Agree(Fds(s.pollfds), s.sfd, s.net) && !Stopped(s)
  }

  /** Safe, and slot 0 still holds the listener. */
  ghost predicate Valid(s: Server) {
    Safe(s) && s.pollfds[0].fd == s.sfd
  }

  predicate HasRoom(s: Server) {
    exists i :: 0 <= i < |s.pollfds| && s.pollfds[i].fd < 0
  }

  lemma RoomIsFound(s: Server)
    ensures HasRoom(s) <==> FirstFree(Fds(s.pollfds), 0) < |s.pollfds|
  {
    if FirstFree(Fds(s.pollfds), 0) < |s.pollfds| {
      assert s.pollfds[FirstFree(Fds(s.pollfds), 0)].fd < 0;
    }
  }

  lemma InitialValid(sfd: int, size: nat)
    requires sfd >= 0 && size > 0
    ensures Valid(Initial(sfd, size)) && NetOk(Initial(sfd, size).net, true)
  {
    assert Clients(Fds(Initial(sfd, size).pollfds)) == {};
  }

  // ----- before the scan

  /** Entries from i on with a nonzero result outnumber those that will be served. */
  lemma {:induction false} NonzeroCoversHot(p: seq<PollFd>, i: nat)
    ensures CountNonzero(p, i) >= CountHot(Fds(p), Pollins(p), i)
    decreases |p| - i
  {
    if i < |p| { NonzeroCoversHot(p, i + 1); }
  }

  lemma {:induction false} CountAfterInsert(p: seq<PollFd>, q: seq<PollFd>, i: nat)
    requires |p| == |q| && forall j :: i <= j < |p| ==> Nonzero(p[j]) == Nonzero(q[j])
    ensures CountNonzero(p, i) == CountNonzero(q, i)
    decreases |p| - i
  {
    if i < |p| { CountAfterInsert(p, q, i + 1); }
  }

  /** Serviceable from slot 1: the clients that were readable when poll() looked. */
  ghost predicate ReadyToScan(s: Server, ready: set<int>, others: int) {
    && Safe(s)
    && HotSet(Fds(s.pollfds), Pollins(s.pollfds), 1) == ready
    && others == CountNonzero(s.pollfds, 1)
    && CountHot(Fds(s.pollfds), Pollins(s.pollfds), 1) <= others
  }

  lemma PollAllSafe(s: Server, env: Env)
    requires Safe(s)
    ensures Safe(s.(pollfds := PollAll(s.pollfds, env)))
  {
    assert Fds(PollAll(s.pollfds, env)) == Fds(s.pollfds);
  }

  lemma PolledHotSet(s: Server, env: Env)
    requires Safe(s)
    ensures var p := PollAll(s.pollfds, env); HotSet(Fds(p), Pollins(p), 1) == ReadyClients(s.net, env)
  {
    var p := PollAll(s.pollfds, env);
    var hot := HotSet(Fds(p), Pollins(p), 1);
    forall fd ensures fd in hot <==> fd in ReadyClients(s.net, env) {
      if fd in ReadyClients(s.net, env) {
        assert fd in Clients(Fds(s.pollfds));
        var j :| 1 <= j < |p| && Fds(s.pollfds)[j] > 0 && Fds(s.pollfds)[j] == fd;
        assert Hot(Fds(p), Pollins(p), j) && Fds(p)[j] == fd;
      }
      if fd in hot {
        var j :| 1 <= j < |p| && Hot(Fds(p), Pollins(p), j) && Fds(p)[j] == fd;
        assert Fds(s.pollfds)[j] == fd;
        assert fd in Clients(Fds(s.pollfds));
      }
    }
  }

  lemma InsertClient(fds: seq<int>, i: nat, fd: int, sfd: int)
    requires SlotsOk(fds, sfd) && 1 <= i < |fds| && fds[i] < 0 && fd > 0 && fd != sfd && fd !in Clients(fds)
    ensures SlotsOk(fds[i := fd], sfd) && Clients(fds[i := fd]) == Clients(fds) + {fd}
  {
    var fds' := fds[i := fd];
    assert forall j :: 1 <= j < |fds| && fds[j] > 0 ==> fds[j] in Clients(fds);
    forall f | f in Clients(fds) ensures f in Clients(fds') {
      var j :| 1 <= j < |fds| && fds[j] > 0 && fds[j] == f;
      assert fds'[j] == f;
    }
    assert fds'[i] == fd;
  }

  /** The slot a newcomer gets was ignored by poll(), so it is not hot in this round. */
  lemma InsertedIsCold(p: seq<PollFd>, i: nat, fd: int)
    requires 1 <= i < |p| && !Nonzero(p[i]) && p[i].fd < 0
    ensures var q := p[i := p[i].(fd := fd)];
            && Fds(q) == Fds(p)[i := fd] && Pollins(q) == Pollins(p)
            && HotSet(Fds(q), Pollins(q), 1) == HotSet(Fds(p), Pollins(p), 1)
            && CountNonzero(q, 1) == CountNonzero(p, 1)
            && (forall j :: 0 <= j < |p| ==> Hot(Fds(q), Pollins(q), j) == Hot(Fds(p), Pollins(p), j))
  {
    var q := p[i := p[i].(fd := fd)];
    CountAfterInsert(q, p, 1);
    var a, b := HotSet(Fds(q), Pollins(q), 1), HotSet(Fds(p), Pollins(p), 1);
    assert forall j :: 0 <= j < |p| ==> Hot(Fds(q), Pollins(q), j) == Hot(Fds(p), Pollins(p), j);
    assert forall j :: 0 <= j < |p| && Hot(Fds(p), Pollins(p), j) ==> Fds(q)[j] == Fds(p)[j];
    forall f ensures f in a <==> f in b {
      if f in a {
        var j :| 1 <= j < |q| && Hot(Fds(q), Pollins(q), j) && Fds(q)[j] == f;
        assert Hot(Fds(p), Pollins(p), j) && Fds(p)[j] == f;
      }
      if f in b {
        var j :| 1 <= j < |p| && Hot(Fds(p), Pollins(p), j) && Fds(p)[j] == f;
        assert Hot(Fds(q), Pollins(q), j) && Fds(q)[j] == f;
      }
    }
  }

  /** The round accepts a newcomer. */
  predicate Accepts(s: Server, env: Env) {
    s.sfd in env.canRead && env.accepted.Some?
  }

  lemma AcceptedReady(s: Server, env: Env, limit: nat, bufsize: nat)
    requires Valid(s) && EnvOk(s.net, s.sfd, env, bufsize) && |s.pollfds| <= limit
    requires !env.waitFails && Accepts(s, env) && HasRoom(s)
    ensures var s1 := BeforeScan(s, env, limit);
            && !Stopped(s1) && s1.net == Admit(s.net, s.sfd, env) && s1.sfd == s.sfd && |s1.pollfds| == |s.pollfds|
            && s1.pollfds[0] == Polled(s.pollfds[0], env)
            && ReadyToScan(s1, ReadyClients(s.net, env), s1.nready)
  {
    var p, n := PollAll(s.pollfds, env), env.accepted.value;
    var t := s.(pollfds := p);
    PollAllSafe(s, env);
    PolledHotSet(s, env);
    RoomIsFound(s);
    assert Fds(p) == Fds(s.pollfds);
    var i := FirstFree(Fds(p), 0);
    assert i >= 1 && p[i].fd < 0 && !Nonzero(p[i]);
    InsertedIsCold(p, i, n.fd);
    InsertClient(Fds(p), i, n.fd, s.sfd);
    var q := p[i := p[i].(fd := n.fd)];
    NonzeroCoversHot(q, 1);
    assert CountNonzero(p, 0) == 1 + CountNonzero(p, 1);
    var s1 := BeforeScan(s, env, limit);
    assert s1.pollfds == q && s1.nready == CountNonzero(q, 1);
    assert AcceptAs(s.net, n.fd, n.sent, n.fin).open.Keys == s.net.open.Keys + {n.fd};
  }

  lemma UnacceptedReady(s: Server, env: Env, limit: nat)
    requires Safe(s) && |s.pollfds| <= limit && !env.waitFails
    requires s.pollfds[0].fd == -1 || s.sfd !in env.canRead
    ensures var s1 := BeforeScan(s, env, limit);
            && !Stopped(s1) && s1.net == s.net && s1.sfd == s.sfd && s1.pollfds == PollAll(s.pollfds, env)
            && s1.nready == CountNonzero(s1.pollfds, 0)
            && ReadyToScan(s1, ReadyClients(s.net, env), CountNonzero(s1.pollfds, 1))
            && CountNonzero(s1.pollfds, 1) <= s1.nready
  {
    PollAllSafe(s, env);
    PolledHotSet(s, env);
    NonzeroCoversHot(PollAll(s.pollfds, env), 1);
  }

  /** poll() succeeds, and a client that asks for it is accepted and finds a free slot. */
  predicate ReachesScan(s: Server, env: Env) {
    !env.waitFails && (s.sfd in env.canRead ==> env.accepted.Some? && HasRoom(s))
  }

  /** When a round stops before its scan: the exact condition. */
  lemma StopsBeforeScan(s: Server, env: Env, limit: nat)
    requires Valid(s) && |s.pollfds| <= limit
    ensures Stopped(BeforeScan(s, env, limit)) <==> !ReachesScan(s, env)
    ensures BeforeScan(s, env, limit).overrun <==>
              !env.waitFails && Accepts(s, env) && !HasRoom(s) && |s.pollfds| < limit
  {
    var p := PollAll(s.pollfds, env);
    assert Fds(p) == Fds(s.pollfds);
    RoomIsFound(s);
  }

  // ----- what poll() reports, from the descriptors and the environment alone

  /** Entry e is what poll() answers for descriptor fd; a negative one reports nothing. */
  predicate Shown(e: PollFd, fd: int, env: Env) {
    && (fd >= 0 ==> e.fd == fd)
    && (e.pollin <==> 0 <= fd && fd in env.canRead)
    && (e.other <==> 0 <= fd && fd in env.other)
  }

  predicate Shows(p: seq<PollFd>, fds: seq<int>, env: Env) {
    |p| == |fds| && forall j :: 0 <= j < |fds| ==> Shown(p[j], fds[j], env)
  }

  /** The slots from i on whose descriptors have anything to report. */
  function Reporting(fds: seq<int>, env: Env, i: nat): set<int> {
    set j | i <= j < |fds| && 0 <= fds[j] && (fds[j] in env.canRead || fds[j] in env.other)
  }

  lemma PollShows(p: seq<PollFd>, env: Env)
    ensures Shows(PollAll(p, env), Fds(p), env)
  {
  }

  /** poll() returns the number of entries that report something. */
  lemma {:induction false} CountIsReporting(p: seq<PollFd>, fds: seq<int>, env: Env, i: nat)
    requires Shows(p, fds, env)
    ensures CountNonzero(p, i) == |Reporting(fds, env, i)|
    decreases |p| - i
  {
    if i < |p| {
      CountIsReporting(p, fds, env, i + 1);
      assert Shown(p[i], fds[i], env);
      if Nonzero(p[i]) {
        assert Reporting(fds, env, i) == {i} + Reporting(fds, env, i + 1);
      } else {
        assert Reporting(fds, env, i) == Reporting(fds, env, i + 1);
      }
    } else {
      assert Reporting(fds, env, i) == {};
    }
  }

  /** The clients that will be served are those that are readable, in slot order. */
  function Readable(fds: seq<int>, env: Env): seq<int> {
    HotFds(fds, Flags(fds, env.canRead), 1)
  }

  lemma {:induction false} HotIsReadable(p: seq<PollFd>, fds: seq<int>, env: Env, i: nat)
    requires Shows(p, fds, env) && i >= 1 && forall j :: 1 <= j < |fds| ==> fds[j] == -1 || fds[j] > 0
    ensures HotFds(Fds(p), Pollins(p), i) == HotFds(fds, Flags(fds, env.canRead), i)
    decreases |p| - i
  {
    if i < |p| {
      HotIsReadable(p, fds, env, i + 1);
      assert Shown(p[i], fds[i], env);
    }
  }

  /** A newcomer gets the first free slot; the other slots keep their descriptors. */
  ghost predicate NewcomerIn(before: seq<int>, after: seq<int>, sfd: int, env: Env) {
    if sfd in env.canRead && env.accepted.Some?
    then exists i :: IsFirstFree(before, i) && after == before[i := env.accepted.value.fd]
    else after == before
  }

  /** What the scan finds in the array: the answers of poll(), and perhaps a newcomer. */
  lemma BeforeScanShows(s: Server, env: Env, limit: nat)
    requires Valid(s) && |s.pollfds| <= limit && ReachesScan(s, env)
    ensures Shows(BeforeScan(s, env, limit).pollfds, Fds(s.pollfds), env)
    ensures NewcomerIn(Fds(s.pollfds), Fds(BeforeScan(s, env, limit).pollfds), s.sfd, env)
  {
    var p, fds := PollAll(s.pollfds, env), Fds(s.pollfds);
    PollShows(s.pollfds, env);
    StopsBeforeScan(s, env, limit);
    RoomIsFound(s);
    assert Fds(p) == fds;
    if s.sfd in env.canRead {
      var i, fd := FirstFree(fds, 0), env.accepted.value.fd;
      var q := p[i := p[i].(fd := fd)];
      assert IsFirstFree(fds, i);
      assert BeforeScan(s, env, limit).pollfds == q;
      forall j | 0 <= j < |q| ensures Shown(q[j], fds[j], env) {
        assert Shown(p[j], fds[j], env);
      }
      assert Fds(q) == fds[i := fd];
    }
  }

  // ----- the intended scan, from slot 1

  lemma ScanFromOneMeaning(s: Server, ready: set<int>, others: int, replies: Replies)
    requires ReadyToScan(s, ready, others) && s.nready >= others
    ensures var t := ProcessReady(s, replies, 1);
            && (t.halted <==> ShortIn(s.net, ready, replies))
            && (!t.halted ==>
                  && t.net == ServeAll(s.net, ready, replies)
                  && t.served == HotFds(Fds(s.pollfds), Pollins(s.pollfds), 1)
                  && SlotsAfter(Fds(s.pollfds), Fds(t.pollfds), Pollins(s.pollfds), s.net, replies, 1))
  {
    var fds, flags := Fds(s.pollfds), Pollins(s.pollfds);
    EagerIsPlain(ScanOf(s), flags, replies, 1, |fds| - 1, s.nready);
    ReadyAreOpen(s, ready, others);
    PlainMeaning(ScanOf(s), flags, replies, 1);
    var t := ProcessReady(s, replies, 1);
    var end := Plain(ScanOf(s), flags, replies, 1);
    if !end.halted {
      assert ServedFrom(ScanOf(s), end, flags, replies, 1);
      assert Fds(t.pollfds) == end.slots;
    }
  }

  lemma ReadyAreOpen(s: Server, ready: set<int>, others: int)
    requires ReadyToScan(s, ready, others)
    ensures ready <= s.net.open.Keys && Distinct(Fds(s.pollfds)) && s.sfd !in ready
  {
    assert forall fd :: fd in ready ==> fd in Clients(Fds(s.pollfds));
  }

  lemma RemoveClient(fds: seq<int>, i: nat, sfd: int)
    requires sfd >= 0 && SlotsOk(fds, sfd) && i < |fds| && fds[i] > 0
    ensures SlotsOk(fds[i := -1], sfd)
    ensures Clients(fds[i := -1]) == Clients(fds) - (if i == 0 then {} else {fds[i]})
  {
    var fds' := fds[i := -1];
    forall f | f in Clients(fds) && (i == 0 || f != fds[i]) ensures f in Clients(fds') {
      var j :| 1 <= j < |fds| && fds[j] > 0 && fds[j] == f;
      assert fds'[j] == f;
    }
  }

  /** Serving any slot, even the listener's, keeps the slots and the open connections in agreement. */
  lemma ServeSlotAgrees(sc: Scan, flags: seq<bool>, i: nat, replies: Replies, sfd: int)
    requires |flags| == |sc.slots| && i < |sc.slots| && Hot(sc.slots, flags, i) && Agree(sc.slots, sfd, sc.net)
    ensures var next := ServeSlot(sc, i, replies); Agree(next.slots, sfd, next.net)
  {
    var fd := sc.slots[i];
    RemoveClient(sc.slots, i, sfd);
    assert i == 0 ==> fd !in Clients(sc.slots);
    assert i > 0 ==> fd in Clients(sc.slots);
    ServeKeys(sc.net, fd, replies(fd));
  }

  lemma ServeKeys(net: Net, fd: int, r: Reply)
    ensures Serve(net, fd, r).open.Keys == net.open.Keys - (if Answer(net, fd, r.read).Data? then {} else {fd})
  {
  }

  lemma {:induction false} EagerAgrees(sc: Scan, flags: seq<bool>, replies: Replies, i: nat, last: int,
                                       nready: int, sfd: int)
    requires |flags| == |sc.slots| && last < |sc.slots| && Agree(sc.slots, sfd, sc.net)
    ensures var end := Eager(sc, flags, replies, i, last, nready).0; Agree(end.slots, sfd, end.net)
    decreases last - i
  {
    if i > last || nready <= 0 || sc.halted {
    } else if Hot(sc.slots, flags, i) {
      ServeSlotAgrees(sc, flags, i, replies, sfd);
      EagerAgrees(ServeSlot(sc, i, replies), flags, replies, i + 1, last, nready - 1, sfd);
    } else {
      EagerAgrees(sc, flags, replies, i + 1, last, nready, sfd);
    }
  }

  lemma ScanKeepsSafe(s: Server, replies: Replies, first: nat)
    requires Safe(s)
    ensures var t := ProcessReady(s, replies, first); !t.halted ==> Safe(t)
  {
    var flags, last := Pollins(s.pollfds), |s.pollfds| - 1;
    EagerAgrees(ScanOf(s), flags, replies, first, last, s.nready, s.sfd);
    EagerKeepsLength(ScanOf(s), flags, replies, first, last, s.nready);
    var end := Eager(ScanOf(s), flags, replies, first, last, s.nready).0;
    assert Fds(ProcessReady(s, replies, first).pollfds) == end.slots;
  }

  lemma ScanFromOneKeepsListener(s: Server, replies: Replies)
    requires |s.pollfds| > 0
    ensures ProcessReady(s, replies, 1).pollfds[0].fd == s.pollfds[0].fd
  {
    EagerKeepsEarlierSlots(ScanOf(s), Pollins(s.pollfds), replies, 1, |s.pollfds| - 1, s.nready, 0);
  }

  /** Everything the scan may rely on when it starts. */
  lemma ScanStarts(s: Server, env: Env, limit: nat, bufsize: nat)
    requires Valid(s) && EnvOk(s.net, s.sfd, env, bufsize) && |s.pollfds| <= limit
    requires ReachesScan(s, env)
    ensures var s1 := BeforeScan(s, env, limit);
            && !Stopped(s1)
            && s1.net == Admit(s.net, s.sfd, env) && s1.sfd == s.sfd && |s1.pollfds| == |s.pollfds|
            && s1.pollfds[0] == Polled(s.pollfds[0], env)
            && ReadyToScan(s1, ReadyClients(s.net, env), CountNonzero(s1.pollfds, 1))
            && s1.nready == CountNonzero(s1.pollfds, 1)
                         + (if Nonzero(s1.pollfds[0]) && !s1.pollfds[0].pollin then 1 else 0)
  {
    StopsBeforeScan(s, env, limit);
    if Accepts(s, env) {
      AcceptedReady(s, env, limit, bufsize);
    } else {
      UnacceptedReady(s, env, limit);
    }
  }

  /**
   * With the scan from slot 1 a round of poll.c does the abstract turn, although
   * nready also counts entries that are never served: it is always large enough,
   * so the early exit skips nobody; slot 0 keeps the listener.
   */
  lemma IntendedRoundMeaning(s: Server, env: Env, limit: nat, bufsize: nat)
    requires Valid(s) && EnvOk(s.net, s.sfd, env, bufsize) && |s.pollfds| <= limit
    requires Accepts(s, env) ==> HasRoom(s)
    ensures var t := Round(s, env, Variant(1, limit));
            && (Stopped(t) <==> TurnHalts(s.net, s.sfd, env))
            && (!Stopped(t) ==> Valid(t) && t.sfd == s.sfd && |t.pollfds| == |s.pollfds|
                                && t.net == Turn(s.net, s.sfd, env))
  {
    StopsBeforeScan(s, env, limit);
    var s1 := BeforeScan(s, env, limit);
    if !Stopped(s1) {
      ScanStarts(s, env, limit, bufsize);
      var others := CountNonzero(s1.pollfds, 1);
      ScanFromOneMeaning(s1, ReadyClients(s.net, env), others, env.replies);
      AdmitKeepsShort(s.net, s.sfd, env, bufsize);
      ScanKeepsSafe(s1, env.replies, 1);
      ScanFromOneKeepsListener(s1, env.replies);
    }
  }

  // ----- the scan as written, from slot 0

  /** Some entry other than the listener's reports something. */
  predicate OthersReport(s: Server, env: Env) {
    exists i :: 1 <= i < |s.pollfds| && 0 <= s.pollfds[i].fd
                && (s.pollfds[i].fd in env.canRead || s.pollfds[i].fd in env.other)
  }

  lemma OthersCounted(s: Server, env: Env, limit: nat)
    requires Valid(s) && |s.pollfds| <= limit && ReachesScan(s, env)
    ensures CountNonzero(BeforeScan(s, env, limit).pollfds, 1) == |Reporting(Fds(s.pollfds), env, 1)|
    ensures |Reporting(Fds(s.pollfds), env, 1)| > 0 <==> OthersReport(s, env)
  {
    BeforeScanShows(s, env, limit);
    CountIsReporting(BeforeScan(s, env, limit).pollfds, Fds(s.pollfds), env, 1);
    if OthersReport(s, env) {
      var i :| 1 <= i < |s.pollfds| && 0 <= s.pollfds[i].fd
               && (s.pollfds[i].fd in env.canRead || s.pollfds[i].fd in env.other);
      assert Fds(s.pollfds)[i] == s.pollfds[i].fd && i in Reporting(Fds(s.pollfds), env, 1);
    }
    if |Reporting(Fds(s.pollfds), env, 1)| > 0 {
      var i :| i in Reporting(Fds(s.pollfds), env, 1);
      assert s.pollfds[i].fd == Fds(s.pollfds)[i];
    }
  }

  /** The listener is served like a client, and its read fails. */
  predicate ListenerServed(s: Server, env: Env) {
    s.sfd > 0 && s.sfd in env.canRead && OthersReport(s, env)
  }

  lemma {:induction false} EagerKeepsEarlierSlots(sc: Scan, flags: seq<bool>, replies: Replies, i: nat, last: int,
                                                  nready: int, j: nat)
    requires |flags| == |sc.slots| && last < |sc.slots| && j < i && j < |sc.slots|
    ensures var end := Eager(sc, flags, replies, i, last, nready).0;
            |end.slots| == |sc.slots| && end.slots[j] == sc.slots[j]
    decreases last - i
  {
    if i > last || nready <= 0 || sc.halted {
    } else if Hot(sc.slots, flags, i) {
      EagerKeepsEarlierSlots(ServeSlot(sc, i, replies), flags, replies, i + 1, last, nready - 1, j);
    } else {
      EagerKeepsEarlierSlots(sc, flags, replies, i + 1, last, nready, j);
    }
  }

  /** From slot 0 the scan first looks at the listener and then runs from slot 1. */
  lemma ScanFromZero(s: Server, replies: Replies)
    requires |s.pollfds| > 0
    ensures var hot0 := s.nready > 0 && s.pollfds[0].fd > 0 && s.pollfds[0].pollin;
            var sc := ScanOf(s);
            var flags := Pollins(s.pollfds);
            var last := |s.pollfds| - 1;
            Eager(sc, flags, replies, 0, last, s.nready) ==
            (if hot0 then Eager(ServeSlot(sc, 0, replies), flags, replies, 1, last, s.nready - 1)
             else Eager(sc, flags, replies, 1, last, s.nready))
  {
  }

  /**
   * The exact condition under which the code as written keeps its listener: a
   * round that gets as far as its scan leaves the listener in slot 0 if and only
   * if it was not readable together with another reporting entry.
   */
  lemma ListenerKeptExactly(s: Server, env: Env, limit: nat, bufsize: nat)
    requires Valid(s) && EnvOk(s.net, s.sfd, env, bufsize) && |s.pollfds| <= limit
    requires ReachesScan(s, env)
    ensures |Round(s, env, Variant(0, limit)).pollfds| == |s.pollfds|
    ensures Round(s, env, Variant(0, limit)).pollfds[0].fd == s.sfd <==> !ListenerServed(s, env)
    ensures ListenerServed(s, env) ==> Round(s, env, Variant(0, limit)).pollfds[0].fd == -1
  {
    ScanStarts(s, env, limit, bufsize);
    OthersCounted(s, env, limit);
    var s1 := BeforeScan(s, env, limit);
    assert s.sfd !in s1.net.open by { assert s.sfd !in Clients(Fds(s1.pollfds)); }
    SlotZeroAfterScan(s1, env.replies);
  }

  /** A descriptor in slot 0 that is no connection is removed exactly when the scan serves it. */
  lemma SlotZeroAfterScan(s: Server, replies: Replies)
    requires |s.pollfds| > 0 && s.pollfds[0].fd !in s.net.open
    ensures ProcessReady(s, replies, 0).pollfds[0].fd ==
            if s.nready > 0 && s.pollfds[0].fd > 0 && s.pollfds[0].pollin then -1 else s.pollfds[0].fd
  {
    var sc, flags, last := ScanOf(s), Pollins(s.pollfds), |s.pollfds| - 1;
    ScanFromZero(s, replies);
    EagerKeepsEarlierSlots(sc, flags, replies, 1, last, s.nready, 0);
    EagerKeepsEarlierSlots(ServeSlot(sc, 0, replies), flags, replies, 1, last, s.nready - 1, 0);
  }

  /** When the listener is kept, starting the scan at slot 0 makes no difference at all. */
  lemma KeptListenerRound(s: Server, env: Env, limit: nat, bufsize: nat)
    requires Valid(s) && EnvOk(s.net, s.sfd, env, bufsize) && |s.pollfds| <= limit
    requires !ListenerServed(s, env)
    ensures Round(s, env, Variant(0, limit)) == Round(s, env, Variant(1, limit))
  {
    StopsBeforeScan(s, env, limit);
    if ReachesScan(s, env) {
      ScanStarts(s, env, limit, bufsize);
      OthersCounted(s, env, limit);
      ScanFromZero(BeforeScan(s, env, limit), env.replies);
    }
  }

  /** A newcomer finds a free slot, and the scan does not come upon a readable listener. */
  predicate TurnOk(s: Server, env: Env, v: Variant) {
    (Accepts(s, env) ==> HasRoom(s)) && (v.firstSlot == 0 ==> !ListenerServed(s, env))
  }

  /**
   * The exact condition, for the scan as written as well as the intended one: under it
   * a round is the abstract turn; without it the process stops or loses its listener.
   */
  lemma RoundMeaning(s: Server, env: Env, v: Variant, bufsize: nat)
    requires Valid(s) && EnvOk(s.net, s.sfd, env, bufsize) && |s.pollfds| <= v.searchLimit && v.firstSlot <= 1
    ensures var t := Round(s, env, v);
            && |t.pollfds| == |s.pollfds| && t.sfd == s.sfd
            && (TurnOk(s, env, v) ==>
                  && (Stopped(t) <==> TurnHalts(s.net, s.sfd, env))
                  && (!Stopped(t) ==> Valid(t) && t.net == Turn(s.net, s.sfd, env)))
            && (!TurnOk(s, env, v) ==> Stopped(t) || t.pollfds[0].fd == -1)
  {
    RoundKeepsLength(s, env, v);
    if TurnOk(s, env, v) {
      IntendedRoundMeaning(s, env, v.searchLimit, bufsize);
      if v.firstSlot == 0 { KeptListenerRound(s, env, v.searchLimit, bufsize); }
    } else {
      StopsBeforeScan(s, env, v.searchLimit);
      if ReachesScan(s, env) { ListenerKeptExactly(s, env, v.searchLimit, bufsize); }
    }
  }

  lemma FreedAfterScan(s: Server, after: seq<int>, ready: set<int>, others: int, replies: Replies)
    requires ReadyToScan(s, ready, others)
    requires SlotsAfter(Fds(s.pollfds), after, Pollins(s.pollfds), s.net, replies, 1)
    ensures FreedFrom(Fds(s.pollfds), after, Closing(ready, replies))
  {
    var fds, flags := Fds(s.pollfds), Pollins(s.pollfds);
    ReadyAreOpen(s, ready, others);
    forall j | 0 <= j < |fds| ensures after[j] == if fds[j] in Closing(ready, replies) then -1 else fds[j] {
      if j > 0 && Hot(fds, flags, j) {
        assert fds[j] in HotSet(fds, flags, 1);
      }
    }
  }

  lemma IntendedRoundSlots(s: Server, env: Env, limit: nat, bufsize: nat)
    requires Valid(s) && EnvOk(s.net, s.sfd, env, bufsize) && |s.pollfds| <= limit && ReachesScan(s, env)
    requires !Stopped(Round(s, env, Variant(1, limit)))
    ensures var t := Round(s, env, Variant(1, limit));
            && t.served == Readable(Fds(s.pollfds), env)
            && FreedFrom(Fds(BeforeScan(s, env, limit).pollfds), Fds(t.pollfds),
                         Closing(ReadyClients(s.net, env), env.replies))
  {
    ScanStarts(s, env, limit, bufsize);
    ReadableBeforeScan(s, env, limit);
    var s1, ready := BeforeScan(s, env, limit), ReadyClients(s.net, env);
    var others := CountNonzero(s1.pollfds, 1);
    ScanFromOneMeaning(s1, ready, others, env.replies);
    FreedAfterScan(s1, Fds(ProcessReady(s1, env.replies, 1).pollfds), ready, others, env.replies);
  }

  /**
   * The slots after a completed turn, from those before it: a newcomer is in the first
   * one that was free, whoever was closed has left its slot, nothing else has changed;
   * and the readable clients were served in the order of their slots.
   */
  lemma RoundSlots(s: Server, env: Env, v: Variant, bufsize: nat)
    requires Valid(s) && EnvOk(s.net, s.sfd, env, bufsize) && |s.pollfds| <= v.searchLimit && v.firstSlot <= 1
    requires TurnOk(s, env, v) && !Stopped(Round(s, env, v))
    ensures Round(s, env, v).served == Readable(Fds(s.pollfds), env)
    ensures exists mid :: NewcomerIn(Fds(s.pollfds), mid, s.sfd, env)
                          && FreedFrom(mid, Fds(Round(s, env, v).pollfds),
                                       Closing(ReadyClients(s.net, env), env.replies))
  {
    StopsBeforeScan(s, env, v.searchLimit);
    if v.firstSlot == 0 { KeptListenerRound(s, env, v.searchLimit, bufsize); }
    IntendedRoundSlots(s, env, v.searchLimit, bufsize);
    BeforeScanShows(s, env, v.searchLimit);
  }

  lemma PrefixHead(served: seq<int>, fd: int, rest: seq<int>, n: int)
    requires n > 0
    ensures (served + [fd]) + rest[..Min(n - 1, |rest|)] == served + ([fd] + rest)[..Min(n, |rest| + 1)]
  {
  }

  lemma {:induction false} EagerServesPrefix(sc: Scan, flags: seq<bool>, replies: Replies, i: nat, last: int,
                                             nready: int)
    requires |flags| == |sc.slots| && last == |sc.slots| - 1 && nready >= 0
    requires !Eager(sc, flags, replies, i, last, nready).0.halted
    ensures var hot := HotFds(sc.slots, flags, i);
            Eager(sc, flags, replies, i, last, nready).0.served == sc.served + hot[..Min(nready, |hot|)]
    decreases last - i
  {
    if i > last || nready == 0 || sc.halted {
    } else if Hot(sc.slots, flags, i) {
      var next := ServeSlot(sc, i, replies);
      EagerServesPrefix(next, flags, replies, i + 1, last, nready - 1);
      HotFdsDependOnSuffix(next.slots, sc.slots, flags, i + 1);
      PrefixHead(sc.served, sc.slots[i], HotFds(sc.slots, flags, i + 1), nready);
    } else {
      EagerServesPrefix(sc, flags, replies, i + 1, last, nready);
    }
  }

  /** Serving the listener's slot frees it and leaves the clients' slots alone. */
  lemma ServeListener(sc: Scan, flags: seq<bool>, replies: Replies)
    requires |flags| == |sc.slots| > 0 && sc.slots[0] !in sc.net.open && sc.served == []
    ensures ServeSlot(sc, 0, replies).served == [sc.slots[0]]
    ensures HotFds(ServeSlot(sc, 0, replies).slots, flags, 1) == HotFds(sc.slots, flags, 1)
  {
    HotFdsDependOnSuffix(ServeSlot(sc, 0, replies).slots, sc.slots, flags, 1);
  }

  /** A scan from slot 0 that serves the listener first. */
  lemma ListenerFirst(s: Server, replies: Replies)
    requires |s.pollfds| > 0 && s.nready > 0 && s.pollfds[0].fd > 0 && s.pollfds[0].pollin
    requires s.pollfds[0].fd !in s.net.open && !ProcessReady(s, replies, 0).halted
    ensures var clients := HotFds(Fds(s.pollfds), Pollins(s.pollfds), 1);
            ProcessReady(s, replies, 0).served == [s.pollfds[0].fd] + clients[..Min(s.nready - 1, |clients|)]
  {
    var flags, last := Pollins(s.pollfds), |s.pollfds| - 1;
    ScanFromZero(s, replies);
    ServeListener(ScanOf(s), flags, replies);
    EagerServesPrefix(ServeSlot(ScanOf(s), 0, replies), flags, replies, 1, last, s.nready - 1);
  }

  lemma ReadableBeforeScan(s: Server, env: Env, limit: nat)
    requires Valid(s) && |s.pollfds| <= limit && ReachesScan(s, env)
    ensures var p := BeforeScan(s, env, limit).pollfds;
            HotFds(Fds(p), Pollins(p), 1) == Readable(Fds(s.pollfds), env)
  {
    BeforeScanShows(s, env, limit);
    HotIsReadable(BeforeScan(s, env, limit).pollfds, Fds(s.pollfds), env, 1);
  }

  /**
   * What else such a round loses: the listener uses up one unit of nready, so if
   * k other entries report, only the first k - 1 readable clients are served.
   */
  lemma LostListenerRound(s: Server, env: Env, limit: nat, bufsize: nat)
    requires Valid(s) && EnvOk(s.net, s.sfd, env, bufsize) && |s.pollfds| <= limit
    requires ReachesScan(s, env) && ListenerServed(s, env)
    requires !Round(s, env, Variant(0, limit)).halted
    ensures var clients, k := Readable(Fds(s.pollfds), env), |Reporting(Fds(s.pollfds), env, 1)|;
            k >= 1 && Round(s, env, Variant(0, limit)).served == [s.sfd] + clients[..Min(k - 1, |clients|)]
  {
    ScanStarts(s, env, limit, bufsize);
    OthersCounted(s, env, limit);
    ReadableBeforeScan(s, env, limit);
    ListenerFirst(BeforeScan(s, env, limit), env.replies);
  }

  /** Some entry from i on reports something without being served. */
  predicate HasUnserved(p: seq<PollFd>, i: nat) {
    exists j :: i <= j < |p| && Nonzero(p[j]) && !Hot(Fds(p), Pollins(p), j)
  }

  lemma {:induction false} UnservedEntries(p: seq<PollFd>, i: nat)
    ensures CountNonzero(p, i) >= CountHot(Fds(p), Pollins(p), i)
    ensures CountNonzero(p, i) > CountHot(Fds(p), Pollins(p), i) <==> HasUnserved(p, i)
    decreases |p| - i
  {
    if i < |p| { UnservedEntries(p, i + 1); }
  }

  /** Some entry besides the listener's reports a condition, but no readable data. */
  predicate OnlyOtherReported(s: Server, env: Env) {
    exists i :: 1 <= i < |s.pollfds| && 0 <= s.pollfds[i].fd
                && s.pollfds[i].fd in env.other && s.pollfds[i].fd !in env.canRead
  }

  lemma PrefixIsAll(fd: int, clients: seq<int>, n: nat)
    ensures [fd] + clients[..Min(n, |clients|)] == [fd] + clients <==> n >= |clients|
  {
    if n < |clients| {
      assert |[fd] + clients[..n]| < |[fd] + clients|;
    }
  }

  lemma UnservedReported(s: Server, env: Env, limit: nat)
    requires Valid(s) && |s.pollfds| <= limit && ReachesScan(s, env)
    ensures HasUnserved(BeforeScan(s, env, limit).pollfds, 1) <==> OnlyOtherReported(s, env)
  {
    var p, fds := BeforeScan(s, env, limit).pollfds, Fds(s.pollfds);
    BeforeScanShows(s, env, limit);
    forall j | 1 <= j < |p|
      ensures Nonzero(p[j]) && !Hot(Fds(p), Pollins(p), j) <==>
              0 <= s.pollfds[j].fd && s.pollfds[j].fd in env.other && s.pollfds[j].fd !in env.canRead
    {
      assert Shown(p[j], fds[j], env) && fds[j] == s.pollfds[j].fd;
    }
  }

  /** With one unit less than entries report, all hot ones are served iff some reporting one is not hot. */
  lemma ListenerFirstServesAll(s: Server, replies: Replies)
    requires |s.pollfds| > 0 && s.nready > 0 && s.pollfds[0].fd > 0 && s.pollfds[0].pollin
    requires s.pollfds[0].fd !in s.net.open && !ProcessReady(s, replies, 0).halted
    requires s.nready == CountNonzero(s.pollfds, 1) && Distinct(Fds(s.pollfds))
    ensures var clients := HotFds(Fds(s.pollfds), Pollins(s.pollfds), 1);
            ProcessReady(s, replies, 0).served == [s.pollfds[0].fd] + clients <==> HasUnserved(s.pollfds, 1)
  {
    ListenerFirst(s, replies);
    CountIsCardinality(Fds(s.pollfds), Pollins(s.pollfds), 1);
    UnservedEntries(s.pollfds, 1);
    PrefixIsAll(s.pollfds[0].fd, HotFds(Fds(s.pollfds), Pollins(s.pollfds), 1), s.nready - 1);
  }

  /**
   * Exactly when a round that loses the listener serves every readable client all the
   * same: when some other entry reports a condition without being readable.
   */
  lemma LostRoundServesAll(s: Server, env: Env, limit: nat, bufsize: nat)
    requires Valid(s) && EnvOk(s.net, s.sfd, env, bufsize) && |s.pollfds| <= limit
    requires ReachesScan(s, env) && ListenerServed(s, env)
    requires !Round(s, env, Variant(0, limit)).halted
    ensures Round(s, env, Variant(0, limit)).served == [s.sfd] + Readable(Fds(s.pollfds), env) <==>
            OnlyOtherReported(s, env)
  {
    ScanStarts(s, env, limit, bufsize);
    OthersCounted(s, env, limit);
    var s1 := BeforeScan(s, env, limit);
    ReadyAreOpen(s1, ReadyClients(s.net, env), s1.nready);
    UnservedReported(s, env, limit);
    ReadableBeforeScan(s, env, limit);
    ListenerFirstServesAll(s1, env.replies);
  }

  /**
   * A round without a listener, with either scan, serves every readable client and
   * admits nobody; it stops only if poll() fails or a write is short.
   */
  lemma LostRoundMeaning(s: Server, env: Env, v: Variant)
    requires Safe(s) && s.pollfds[0].fd == -1 && |s.pollfds| <= v.searchLimit && v.firstSlot <= 1
    ensures var t, ready := Round(s, env, v), ReadyClients(s.net, env);
            && (Stopped(t) <==> env.waitFails || ShortIn(s.net, ready, env.replies))
            && (!Stopped(t) ==> t.net == ServeAll(s.net, ready, env.replies))
  {
    if !env.waitFails {
      UnacceptedReady(s, env, v.searchLimit);
      var s1 := BeforeScan(s, env, v.searchLimit);
      ScanFromZero(s1, env.replies);
      assert ProcessReady(s1, env.replies, v.firstSlot) == ProcessReady(s1, env.replies, 1);
      ScanFromOneMeaning(s1, ReadyClients(s.net, env), CountNonzero(s1.pollfds, 1), env.replies);
    }
  }

  /** A lost listener never comes back, and no connection is accepted any more. */
  lemma LostForGood(s: Server, env: Env, v: Variant)
    requires 0 < |s.pollfds| <= v.searchLimit && s.pollfds[0].fd == -1
    ensures var t := Round(s, env, v);
            |t.pollfds| == |s.pollfds| && t.pollfds[0].fd == -1 && t.net.accepted == s.net.accepted
  {
    if !Stopped(s) {
      var s1 := BeforeScan(s, env, v.searchLimit);
      assert Fds(s1.pollfds) == Fds(s.pollfds);
      if !Stopped(s1) {
        var flags, last := Pollins(s1.pollfds), |s1.pollfds| - 1;
        EagerKeepsAccepted(ScanOf(s1), flags, env.replies, v.firstSlot, last, s1.nready);
        if v.firstSlot == 0 {
          ScanFromZero(s1, env.replies);
        }
        var from := if v.firstSlot == 0 then 1 else v.firstSlot;
        EagerKeepsEarlierSlots(ScanOf(s1), flags, env.replies, from, last, s1.nready, 0);
      }
    }
  }

  lemma {:induction false} EagerKeepsAccepted(sc: Scan, flags: seq<bool>, replies: Replies, i: nat, last: int,
                                              nready: int)
    requires |flags| == |sc.slots| && last < |sc.slots|
    ensures Eager(sc, flags, replies, i, last, nready).0.net.accepted == sc.net.accepted
    decreases last - i
  {
    if i > last || nready <= 0 || sc.halted {
    } else if Hot(sc.slots, flags, i) {
      EagerKeepsAccepted(ServeSlot(sc, i, replies), flags, replies, i + 1, last, nready - 1);
    } else {
      EagerKeepsAccepted(sc, flags, replies, i + 1, last, nready);
    }
  }

  /** Over any number of further rounds. */
  lemma {:induction false} LostOverRuns(trace: seq<Server>, envs: seq<Env>, v: Variant)
    requires |trace| == |envs| + 1 && 0 < |trace[0].pollfds| <= v.searchLimit && trace[0].pollfds[0].fd == -1
    requires forall k :: 0 <= k < |envs| ==>
               0 < |trace[k].pollfds| <= v.searchLimit && trace[k + 1] == Round(trace[k], envs[k], v)
    ensures var end := trace[|envs|];
            |end.pollfds| == |trace[0].pollfds| && end.pollfds[0].fd == -1 && end.net.accepted == trace[0].net.accepted
  {
    if |envs| > 0 {
      var n := |envs| - 1;
      LostOverRuns(trace[..n + 1], envs[..n], v);
      LostForGood(trace[n], envs[n], v);
    }
  }

  // ----- whole runs

  ghost predicate StepOk(s: Server, step: Step, bufsize: nat) {
    match step
    case ClientsAct(net) => ClientsMoved(s.net, net)
    case Turns(env) => EnvOk(s.net, s.sfd, env, bufsize)
  }

  function Do(s: Server, step: Step, v: Variant): Server
    requires 0 < |s.pollfds| <= v.searchLimit
  {
    match step
    case ClientsAct(net) => if Stopped(s) then s else s.(net := net)
    case Turns(env) => Round(s, env, v)
  }

  ghost predicate Invariant(s: Server) {
    |s.pollfds| > 0 && (Stopped(s) || Safe(s)) && NetOk(s.net, !Stopped(s))
  }

  lemma RoundKeepsLength(s: Server, env: Env, v: Variant)
    requires 0 < |s.pollfds| <= v.searchLimit
    ensures |Round(s, env, v).pollfds| == |s.pollfds| && Round(s, env, v).sfd == s.sfd
  {
  }

  lemma ReadyToScanAllowed(s: Server, ready: set<int>, others: int, replies: Replies, bufsize: nat)
    requires ReadyToScan(s, ready, others)
    requires forall fd :: fd in ready ==> fd in s.net.open && Allowed(s.net.open[fd], replies(fd), bufsize)
    ensures AllowedFrom(Fds(s.pollfds), Pollins(s.pollfds), s.net, replies, bufsize, 0)
  {
    var fds, flags := Fds(s.pollfds), Pollins(s.pollfds);
    assert s.sfd !in Clients(fds);
    assert forall j :: 1 <= j < |fds| && Hot(fds, flags, j) ==> fds[j] in HotSet(fds, flags, 1);
  }

  lemma AdmitKeepsNetOk(net: Net, sfd: int, env: Env, bufsize: nat)
    requires NetOk(net, true) && EnvOk(net, sfd, env, bufsize)
    ensures NetOk(Admit(net, sfd, env), true)
  {
    if sfd in env.canRead && env.accepted.Some? {
      var n := env.accepted.value;
      AcceptKeepsStreams(net, n.fd, n.sent, n.fin, true);
      AcceptKeepsSerials(net, n.fd, n.sent, n.fin);
    }
  }

  lemma NetOkWeakens(net: Net)
    requires NetOk(net, true)
    ensures NetOk(net, false)
  {
  }

  /** The scan may start from any safe state, with or without a listener. */
  lemma SafeScanStarts(s: Server, env: Env, limit: nat, bufsize: nat)
    requires Safe(s) && EnvOk(s.net, s.sfd, env, bufsize) && |s.pollfds| <= limit
    ensures var s1 := BeforeScan(s, env, limit);
            && (s1.net == s.net || s1.net == Admit(s.net, s.sfd, env))
            && (!Stopped(s1) ==> ReadyToScan(s1, ReadyClients(s.net, env), CountNonzero(s1.pollfds, 1)))
  {
    if !Stopped(BeforeScan(s, env, limit)) {
      if s.pollfds[0].fd == s.sfd {
        ScanStarts(s, env, limit, bufsize);
      } else {
        UnacceptedReady(s, env, limit);
      }
    }
  }

  lemma ScanMayStart(s: Server, env: Env, limit: nat, bufsize: nat)
    requires Safe(s) && EnvOk(s.net, s.sfd, env, bufsize) && |s.pollfds| <= limit
    requires !Stopped(BeforeScan(s, env, limit))
    ensures var s1 := BeforeScan(s, env, limit);
            && Distinct(Fds(s1.pollfds))
            && (forall first: nat ::
                  AllowedFrom(Fds(s1.pollfds), Pollins(s1.pollfds), s1.net, env.replies, bufsize, first))
  {
    SafeScanStarts(s, env, limit, bufsize);
    var s1 := BeforeScan(s, env, limit);
    var ready, others := ReadyClients(s.net, env), CountNonzero(s1.pollfds, 1);
    ReadyAreOpen(s1, ready, others);
    ReadyToScanAllowed(s1, ready, others, env.replies, bufsize);
  }

  /** Both variants keep every round safe, and keep the streams and the serial numbers in order. */
  lemma RoundKeepsSafe(s: Server, env: Env, v: Variant, bufsize: nat)
    requires Safe(s) && EnvOk(s.net, s.sfd, env, bufsize) && |s.pollfds| <= v.searchLimit
    requires NetOk(s.net, true)
    ensures var t := Round(s, env, v); (Stopped(t) || Safe(t)) && NetOk(t.net, !Stopped(t))
  {
    var s1 := BeforeScan(s, env, v.searchLimit);
    AdmitKeepsNetOk(s.net, s.sfd, env, bufsize);
    SafeScanStarts(s, env, v.searchLimit, bufsize);
    if !Stopped(s1) {
      var ready, others := ReadyClients(s.net, env), CountNonzero(s1.pollfds, 1);
      ReadyAreOpen(s1, ready, others);
      ReadyToScanAllowed(s1, ready, others, env.replies, bufsize);
      EagerKeepsNetOk(ScanOf(s1), Pollins(s1.pollfds), env.replies, v.firstSlot, |s1.pollfds| - 1, s1.nready, bufsize);
      ScanKeepsSafe(s1, env.replies, v.firstSlot);
    } else {
      NetOkWeakens(s.net);
      NetOkWeakens(Admit(s.net, s.sfd, env));
    }
  }

  /** A round with the scan from slot 1 leaves slot 0 as it is. */
  lemma IntendedKeepsSlotZero(s: Server, env: Env, limit: nat)
    requires 0 < |s.pollfds| <= limit && s.pollfds[0].fd >= 0
    ensures Round(s, env, Variant(1, limit)).pollfds[0].fd == s.pollfds[0].fd
  {
    if !Stopped(s) {
      ScanFromOneKeepsListener(BeforeScan(s, env, limit), env.replies);
    }
  }

  lemma DoKeepsInvariant(s: Server, step: Step, v: Variant, bufsize: nat)
    requires Invariant(s) && |s.pollfds| <= v.searchLimit && (Stopped(s) || StepOk(s, step, bufsize))
    ensures var t := Do(s, step, v);
            && Invariant(t) && |t.pollfds| == |s.pollfds| && t.sfd == s.sfd
            && (v.firstSlot == 1 && s.pollfds[0].fd == s.sfd >= 0 ==> t.pollfds[0].fd == s.sfd)
  {
    match step {
      case ClientsAct(net) =>
        if !Stopped(s) {
          ClientsKeepStreams(s.net, net, true);
          ClientsKeepSerials(s.net, net);
        }
      case Turns(env) =>
        if !Stopped(s) { RoundKeepsSafe(s, env, v, bufsize); }
        RoundKeepsLength(s, env, v);
        if v.firstSlot == 1 && s.pollfds[0].fd >= 0 { IntendedKeepsSlotZero(s, env, v.searchLimit); }
    }
  }

  ghost predicate StepsTo(s: Server, step: Step, t: Server, v: Variant, bufsize: nat) {
    0 < |s.pollfds| <= v.searchLimit && (Stopped(s) || StepOk(s, step, bufsize)) && t == Do(s, step, v)
  }

  ghost predicate IsRun(trace: seq<Server>, steps: seq<Step>, sfd: int, size: nat, v: Variant, bufsize: nat) {
    && |trace| == |steps| + 1
    && 0 < size <= v.searchLimit
    && trace[0] == Initial(sfd, size)
    && (forall k :: 0 <= k < |steps| ==> StepsTo(trace[k], steps[k], trace[k + 1], v, bufsize))
  }

  lemma StepInRun(trace: seq<Server>, steps: seq<Step>, sfd: int, size: nat, v: Variant, bufsize: nat, k: nat)
    requires IsRun(trace, steps, sfd, size, v, bufsize) && k < |steps|
    ensures 0 < |trace[k].pollfds| <= v.searchLimit && (Stopped(trace[k]) || StepOk(trace[k], steps[k], bufsize))
    ensures trace[k + 1] == Do(trace[k], steps[k], v)
  {
    assert StepsTo(trace[k], steps[k], trace[k + 1], v, bufsize);
  }

  lemma ExtendRun(trace: seq<Server>, steps: seq<Step>, step: Step, t: Server,
                  sfd: int, size: nat, v: Variant, bufsize: nat)
    requires IsRun(trace, steps, sfd, size, v, bufsize) && StepsTo(trace[|steps|], step, t, v, bufsize)
    ensures IsRun(trace + [t], steps + [step], sfd, size, v, bufsize)
  {
    var trace', steps' := trace + [t], steps + [step];
    forall k | 0 <= k < |steps'| ensures StepsTo(trace'[k], steps'[k], trace'[k + 1], v, bufsize) {
      if k < |steps| { assert StepsTo(trace[k], steps[k], trace[k + 1], v, bufsize); }
    }
  }

  /**
   * Over every run of either variant: slots and connections agree, every output
   * is a prefix of its own client's input and complete once the end of file was
   * seen, and no accepted connection is lost or counted twice. With the scan from
   * slot 1, slot 0 holds the listener in every reachable state.
   */
  lemma {:induction false} EveryRun(trace: seq<Server>, steps: seq<Step>, sfd: int, size: nat, v: Variant,
                                    bufsize: nat, k: nat)
    requires IsRun(trace, steps, sfd, size, v, bufsize) && sfd >= 0 && k < |trace|
    ensures Invariant(trace[k]) && |trace[k].pollfds| == size && trace[k].sfd == sfd
    ensures forall fd :: fd in trace[k].net.open ==> trace[k].net.open[fd].echoed <= trace[k].net.open[fd].sent
    ensures forall c :: c in trace[k].net.finished ==> c.echoed <= c.sent && (c.sawEof ==> c.echoed == c.sent)
    ensures |trace[k].net.open.Keys| + |trace[k].net.finished| == trace[k].net.accepted
    ensures v.firstSlot == 1 ==> trace[k].pollfds[0].fd == sfd
  {
    if k == 0 {
      InitialValid(sfd, size);
    } else {
      EveryRun(trace, steps, sfd, size, v, bufsize, k - 1);
      StepInRun(trace, steps, sfd, size, v, bufsize, k - 1);
      DoKeepsInvariant(trace[k - 1], steps[k - 1], v, bufsize);
    }
    StreamsMean(trace[k].net, !Stopped(trace[k]));
  }

  // ----- the listener, over runs

  /** The step is a turn whose scan, from slot 0, comes upon the listener and finds it readable. */
  predicate LosesListener(s: Server, step: Step, v: Variant) {
    && step.Turns? && 0 < |s.pollfds| <= v.searchLimit && v.firstSlot == 0 && s.pollfds[0].fd == s.sfd
    && !Stopped(s) && ReachesScan(s, step.env) && ListenerServed(s, step.env)
  }

  /** A round that stops before its scan leaves slot 0 as it was. */
  lemma StoppedKeepsSlotZero(s: Server, env: Env, v: Variant)
    requires Valid(s) && |s.pollfds| <= v.searchLimit && !ReachesScan(s, env)
    ensures Round(s, env, v).pollfds[0].fd == s.pollfds[0].fd
  {
    StopsBeforeScan(s, env, v.searchLimit);
  }

  /** A stopped process does not go on, and a lost listener does not come back. */
  predicate Lost(s: Server) {
    Stopped(s) || (|s.pollfds| > 0 && s.pollfds[0].fd == -1)
  }

  lemma DoKeepsLost(s: Server, step: Step, v: Variant)
    requires 0 < |s.pollfds| <= v.searchLimit && Lost(s)
    ensures Lost(Do(s, step, v))
  {
    if step.Turns? && !Stopped(s) { LostForGood(s, step.env, v); }
  }

  lemma DoListener(s: Server, step: Step, v: Variant, bufsize: nat)
    requires Invariant(s) && |s.pollfds| <= v.searchLimit && (Stopped(s) || StepOk(s, step, bufsize))
    requires s.sfd >= 0 && v.firstSlot <= 1
    ensures |Do(s, step, v).pollfds| == |s.pollfds|
    ensures Do(s, step, v).pollfds[0].fd == s.sfd <==> s.pollfds[0].fd == s.sfd && !LosesListener(s, step, v)
  {
    DoKeepsInvariant(s, step, v, bufsize);
    if step.Turns? && !Stopped(s) {
      if s.pollfds[0].fd == -1 {
        LostForGood(s, step.env, v);
      } else if !ReachesScan(s, step.env) {
        StoppedKeepsSlotZero(s, step.env, v);
      } else if v.firstSlot == 0 {
        ListenerKeptExactly(s, step.env, v.searchLimit, bufsize);
      }
    }
  }

  ghost predicate LossBefore(trace: seq<Server>, steps: seq<Step>, v: Variant, k: nat)
    requires k < |trace| == |steps| + 1
  {
    exists j :: 0 <= j < k && LosesListener(trace[j], steps[j], v)
  }

  lemma LossBeforeStep(trace: seq<Server>, steps: seq<Step>, v: Variant, k: nat)
    requires 0 < k < |trace| == |steps| + 1
    ensures LossBefore(trace, steps, v, k) <==>
            LossBefore(trace, steps, v, k - 1) || LosesListener(trace[k - 1], steps[k - 1], v)
  {
  }

  lemma RunStarts(trace: seq<Server>, steps: seq<Step>, sfd: int, size: nat, v: Variant, bufsize: nat)
    requires IsRun(trace, steps, sfd, size, v, bufsize)
    ensures |trace[0].pollfds| == size > 0 && trace[0].pollfds[0].fd == sfd
  {
  }

  lemma ListenerAt(trace: seq<Server>, steps: seq<Step>, sfd: int, size: nat, v: Variant, bufsize: nat, k: nat)
    requires IsRun(trace, steps, sfd, size, v, bufsize) && sfd >= 0 && v.firstSlot <= 1 && k < |steps|
    ensures |trace[k].pollfds| == |trace[k + 1].pollfds| == size > 0
    ensures trace[k + 1].pollfds[0].fd == sfd <==>
            trace[k].pollfds[0].fd == sfd && !LosesListener(trace[k], steps[k], v)
  {
    EveryRun(trace, steps, sfd, size, v, bufsize, k);
    StepInRun(trace, steps, sfd, size, v, bufsize, k);
    DoListener(trace[k], steps[k], v, bufsize);
  }

  /**
   * Over every run: the listener is in slot 0 exactly when no earlier turn got as far as
   * its scan, from slot 0, with a readable listener and another reporting entry.
   */
  lemma {:induction false} ListenerOverRuns(trace: seq<Server>, steps: seq<Step>, sfd: int, size: nat, v: Variant,
                                            bufsize: nat, k: nat)
    requires IsRun(trace, steps, sfd, size, v, bufsize) && sfd >= 0 && v.firstSlot <= 1 && k < |trace|
    ensures |trace[k].pollfds| == size > 0
    ensures trace[k].pollfds[0].fd == sfd <==> !LossBefore(trace, steps, v, k)
  {
    if k == 0 {
      RunStarts(trace, steps, sfd, size, v, bufsize);
    } else {
      ListenerOverRuns(trace, steps, sfd, size, v, bufsize, k - 1);
      ListenerAt(trace, steps, sfd, size, v, bufsize, k - 1);
      LossBeforeStep(trace, steps, v, k);
    }
  }

  // ----- each client's input over whole runs

  /** What the server can hear of a step: once the listener is lost, it is not polled. */
  function Heard(s: Server, step: Step): Step {
    if step.Turns? && |s.pollfds| > 0 && s.pollfds[0].fd == -1
    then Turns(step.env.(canRead := step.env.canRead - {s.sfd}))
    else step
  }

  function HeardSteps(trace: seq<Server>, steps: seq<Step>): (r: seq<Step>)
    requires |trace| == |steps| + 1
    ensures |r| == |steps| && forall k :: 0 <= k < |steps| ==> r[k] == Heard(trace[k], steps[k])
  {
    seq(|steps|, k requires 0 <= k < |steps| => Heard(trace[k], steps[k]))
  }

  lemma NetBeforeScan(s: Server, env: Env, limit: nat, bufsize: nat)
    requires Safe(s) && EnvOk(s.net, s.sfd, env, bufsize) && |s.pollfds| <= limit
    requires !Stopped(BeforeScan(s, env, limit))
    ensures BeforeScan(s, env, limit).net == Admit(s.net, s.sfd, Heard(s, Turns(env)).env)
  {
    if s.pollfds[0].fd == s.sfd {
      StopsBeforeScan(s, env, limit);
      ScanStarts(s, env, limit, bufsize);
    } else {
      UnacceptedReady(s, env, limit);
    }
  }

  lemma RoundKeepsInputs(s: Server, env: Env, v: Variant, bufsize: nat)
    requires Safe(s) && EnvOk(s.net, s.sfd, env, bufsize) && |s.pollfds| <= v.searchLimit
    requires !Stopped(Round(s, env, v))
    ensures var base := Admit(s.net, s.sfd, Heard(s, Turns(env)).env);
            InputsKept(base, Round(s, env, v).net) && Round(s, env, v).net.accepted == base.accepted
  {
    NetBeforeScan(s, env, v.searchLimit, bufsize);
    var s1 := BeforeScan(s, env, v.searchLimit);
    var flags, last := Pollins(s1.pollfds), |s1.pollfds| - 1;
    ScanMayStart(s, env, v.searchLimit, bufsize);
    EagerKeepsInputs(ScanOf(s1), flags, env.replies, v.firstSlot, last, s1.nready, bufsize);
    EagerKeepsAccepted(ScanOf(s1), flags, env.replies, v.firstSlot, last, s1.nready);
  }

  lemma InputsAt(trace: seq<Server>, steps: seq<Step>, sfd: int, size: nat, v: Variant, bufsize: nat, k: nat)
    requires IsRun(trace, steps, sfd, size, v, bufsize) && sfd >= 0 && k < |steps| && !Stopped(trace[k + 1])
    ensures !Stopped(trace[k])
    ensures var heard := HeardSteps(trace, steps);
            InputsAre(trace[k].net, heard, sfd, k) ==> InputsAre(trace[k + 1].net, heard, sfd, k + 1)
  {
    EveryRun(trace, steps, sfd, size, v, bufsize, k);
    StepInRun(trace, steps, sfd, size, v, bufsize, k);
    assert !Stopped(trace[k]);
    var heard := HeardSteps(trace, steps);
    var s := trace[k];
    if InputsAre(s.net, heard, sfd, k) {
      match steps[k] {
        case ClientsAct(net) => ClientsKeepInputs(s.net, net, heard, sfd, k);
        case Turns(env) =>
          RoundKeepsInputs(s, env, v, bufsize);
          TurnKeepsInputs(s.net, Round(s, env, v).net, heard[k].env, heard, sfd, k);
      }
    }
  }

  lemma {:induction false} InputsKeptOverRuns(trace: seq<Server>, steps: seq<Step>, sfd: int, size: nat, v: Variant,
                                              bufsize: nat, k: nat)
    requires IsRun(trace, steps, sfd, size, v, bufsize) && sfd >= 0 && k < |trace| && !Stopped(trace[k])
    ensures InputsAre(trace[k].net, HeardSteps(trace, steps), sfd, k)
  {
    if k > 0 {
      InputsAt(trace, steps, sfd, size, v, bufsize, k - 1);
      InputsKeptOverRuns(trace, steps, sfd, size, v, bufsize, k - 1);
    }
  }

  /**
   * Over every run of either variant: connection number m has the input that the steps
   * give to the m-th client admitted, and what was echoed to it comes from that client.
   */
  lemma InputsOverRuns(trace: seq<Server>, steps: seq<Step>, sfd: int, size: nat, v: Variant, bufsize: nat, k: nat)
    requires IsRun(trace, steps, sfd, size, v, bufsize) && sfd >= 0 && k < |trace| && !Stopped(trace[k])
    ensures var heard := HeardSteps(trace, steps);
            InputsAre(trace[k].net, heard, sfd, k) && EchoesAre(trace[k].net, heard, sfd, k)
  {
    EveryRun(trace, steps, sfd, size, v, bufsize, k);
    InputsKeptOverRuns(trace, steps, sfd, size, v, bufsize, k);
    InputsAreEchoed(trace[k].net, HeardSteps(trace, steps), sfd, k);
  }

  // ----- the array overrun

  /** The step is a turn that accepts a client although no slot is free. */
  predicate FullTurn(s: Server, step: Step) {
    step.Turns? && !Stopped(s) && !step.env.waitFails && Accepts(s, step.env) && !HasRoom(s)
  }

  lemma FullTurnStops(s: Server, env: Env, v: Variant)
    requires Safe(s) && |s.pollfds| <= v.searchLimit
    ensures Round(s, env, v).overrun <==> FullTurn(s, Turns(env)) && |s.pollfds| < v.searchLimit
    ensures FullTurn(s, Turns(env)) ==>
              Stopped(Round(s, env, v)) && (Round(s, env, v).halted <==> |s.pollfds| == v.searchLimit)
  {
    if s.pollfds[0].fd == s.sfd {
      StopsBeforeScan(s, env, v.searchLimit);
      var p := PollAll(s.pollfds, env);
      assert Fds(p) == Fds(s.pollfds);
      RoomIsFound(s);
    }
  }

  lemma DoOverrun(s: Server, step: Step, v: Variant)
    requires 0 < |s.pollfds| <= v.searchLimit && (Stopped(s) || Safe(s))
    ensures Do(s, step, v).overrun <==> s.overrun || (FullTurn(s, step) && |s.pollfds| < v.searchLimit)
    ensures FullTurn(s, step) ==>
              Stopped(Do(s, step, v)) && (Do(s, step, v).halted <==> |s.pollfds| == v.searchLimit)
  {
    if step.Turns? && !Stopped(s) { FullTurnStops(s, step.env, v); }
  }

  ghost predicate FullBefore(trace: seq<Server>, steps: seq<Step>, k: nat)
    requires k < |trace| == |steps| + 1
  {
    exists j :: 0 <= j < k && FullTurn(trace[j], steps[j])
  }

  lemma FullBeforeStep(trace: seq<Server>, steps: seq<Step>, k: nat)
    requires 0 < k < |trace| == |steps| + 1
    ensures FullBefore(trace, steps, k) <==> FullBefore(trace, steps, k - 1) || FullTurn(trace[k - 1], steps[k - 1])
  {
  }

  /** One step of a run: a full turn ends it, in "too many clients" exactly if the limit equals the length. */
  lemma OverrunAt(trace: seq<Server>, steps: seq<Step>, sfd: int, size: nat, v: Variant, bufsize: nat, k: nat)
    requires IsRun(trace, steps, sfd, size, v, bufsize) && sfd >= 0 && k < |steps|
    ensures trace[k + 1].overrun <==> trace[k].overrun || (FullTurn(trace[k], steps[k]) && size < v.searchLimit)
    ensures FullTurn(trace[k], steps[k]) ==>
              Stopped(trace[k + 1]) && (trace[k + 1].halted <==> size == v.searchLimit)
  {
    EveryRun(trace, steps, sfd, size, v, bufsize, k);
    StepInRun(trace, steps, sfd, size, v, bufsize, k);
    DoOverrun(trace[k], steps[k], v);
  }

  /**
   * Over every run: the array is overrun if and only if the search limit exceeds its
   * length and some turn accepted a client although no slot was free; with a limit that
   * equals the length no run overruns it.
   */
  lemma {:induction false} TooManyClientsExactly(trace: seq<Server>, steps: seq<Step>, sfd: int, size: nat,
                                                 v: Variant, bufsize: nat, k: nat)
    requires IsRun(trace, steps, sfd, size, v, bufsize) && sfd >= 0 && k < |trace|
    ensures trace[k].overrun <==> size < v.searchLimit && FullBefore(trace, steps, k)
  {
    if k > 0 {
      TooManyClientsExactly(trace, steps, sfd, size, v, bufsize, k - 1);
      OverrunAt(trace, steps, sfd, size, v, bufsize, k - 1);
      FullBeforeStep(trace, steps, k);
    }
  }

  // ----- the listener is lost in the second turn of a run of the code as written

  /** A turn in which the descriptors in canRead are readable and fd is accepted, whose client has sent one byte. */
  function TurnWith(canRead: set<int>, fd: int, byte: Byte): Env {
    Env(canRead, {}, false, Some(Newcomer(fd, [byte], false)), _ => Reply(Data([byte]), 1))
  }

  /** A scan with nothing left to count down changes nothing. */
  lemma NothingToScan(s: Server, replies: Replies, first: nat)
    requires s.nready == 0 && !s.halted && s.served == []
    ensures ProcessReady(s, replies, first) == s
  {
    assert PutFds(s.pollfds, Fds(s.pollfds)) == s.pollfds;
  }

  /** The slots when only the listener was readable and a newcomer was given the first free slot. */
  lemma ArrivalSlots(s: Server, fd: int, byte: Byte, limit: nat)
    requires Valid(s) && HasRoom(s) && |s.pollfds| <= limit
    ensures FirstFree(Fds(s.pollfds), 0) < |s.pollfds|
    ensures var s1 := BeforeScan(s, TurnWith({s.sfd}, fd, byte), limit);
            Fds(s1.pollfds) == Fds(s.pollfds)[FirstFree(Fds(s.pollfds), 0) := fd] && s1.served == []
  {
    RoomIsFound(s);
    assert Fds(PollAll(s.pollfds, TurnWith({s.sfd}, fd, byte))) == Fds(s.pollfds);
  }

  /** A turn in which only the listener is readable admits the newcomer and serves nobody. */
  lemma ArrivalTurn(s: Server, fd: int, byte: Byte, limit: nat)
    requires Valid(s) && s.sfd > 0 && HasRoom(s) && |s.pollfds| <= limit && Fresh(s.net, s.sfd, fd)
    ensures EnvOk(s.net, s.sfd, TurnWith({s.sfd}, fd, byte), 1)
    ensures FirstFree(Fds(s.pollfds), 0) < |s.pollfds|
    ensures var t := Round(s, TurnWith({s.sfd}, fd, byte), Variant(0, limit));
            && Valid(t) && t.sfd == s.sfd
            && Fds(t.pollfds) == Fds(s.pollfds)[FirstFree(Fds(s.pollfds), 0) := fd]
            && t.net == AcceptAs(s.net, fd, [byte], false)
  {
    var env := TurnWith({s.sfd}, fd, byte);
    assert s.sfd !in s.net.open by { assert s.sfd !in Clients(Fds(s.pollfds)); }
    assert !OthersReport(s, env);
    AcceptedReady(s, env, limit, 1);
    OthersCounted(s, env, limit);
    ScanStarts(s, env, limit, 1);
    ArrivalSlots(s, fd, byte, limit);
    NothingToScan(BeforeScan(s, env, limit), env.replies, 0);
  }

  /** The first turn admits a client in slot 1. */
  lemma FirstTurn(sfd: int, fd: int, byte: Byte, size: nat, limit: nat)
    requires 0 < sfd && 0 < fd && fd != sfd && 2 <= size <= limit
    ensures EnvOk(Initial(sfd, size).net, sfd, TurnWith({sfd}, fd, byte), 1)
    ensures var s := Round(Initial(sfd, size), TurnWith({sfd}, fd, byte), Variant(0, limit));
            && Valid(s) && s.sfd == sfd && |s.pollfds| == size
            && s.pollfds[1].fd == fd && (forall i :: 2 <= i < size ==> s.pollfds[i].fd == -1)
            && s.net == AcceptAs(Initial(sfd, size).net, fd, [byte], false)
  {
    var s0 := Initial(sfd, size);
    InitialValid(sfd, size);
    assert HasRoom(s0) by { assert s0.pollfds[1].fd < 0; }
    ArrivalTurn(s0, fd, byte, limit);
    assert FirstFree(Fds(s0.pollfds), 0) == 1 by { assert Fds(s0.pollfds)[0] == sfd && Fds(s0.pollfds)[1] == -1; }
    var s := Round(s0, TurnWith({sfd}, fd, byte), Variant(0, limit));
    assert |Fds(s.pollfds)| == size;
    assert forall i :: 0 <= i < size ==> s.pollfds[i].fd == Fds(s.pollfds)[i];
  }

  /** The first k + 1 slots are in use, by the listener and k clients; the others are free. */
  function Filled(sfd: int, size: nat, k: nat): seq<int> {
    seq(size, i => if i <= k then sfd + i else -1)
  }

  lemma FilledFurther(sfd: int, size: nat, k: nat)
    requires 0 < sfd && k + 1 < size
    ensures FirstFree(Filled(sfd, size, k), 0) == k + 1
    ensures Filled(sfd, size, k)[k + 1 := sfd + k + 1] == Filled(sfd, size, k + 1)
  {
    var fds := Filled(sfd, size, k);
    assert fds[k + 1] == -1 && forall i :: 0 <= i <= k ==> fds[i] >= 0;
  }

  /** A server whose first k + 1 slots are in use. */
  ghost predicate FilledTo(s: Server, size: nat, k: nat) {
    Valid(s) && 0 < s.sfd && k < size == |s.pollfds| && Fds(s.pollfds) == Filled(s.sfd, size, k)
  }

  /** The next descriptor is fresh, and room is left unless all slots are in use. */
  lemma FilledFacts(s: Server, size: nat, k: nat)
    requires FilledTo(s, size, k)
    ensures Fresh(s.net, s.sfd, s.sfd + k + 1) && s.sfd !in s.net.open
    ensures HasRoom(s) <==> k + 1 < size
  {
    var fds := Fds(s.pollfds);
    assert s.sfd + k + 1 !in Clients(fds) && s.sfd !in Clients(fds);
    assert forall i :: 0 <= i < size ==> s.pollfds[i].fd == fds[i];
    if k + 1 < size { assert s.pollfds[k + 1].fd < 0; }
  }

  lemma ArrivedIsFilled(s: Server, t: Server, size: nat, k: nat, fd: int)
    requires FilledTo(s, size, k) && k + 1 < size && fd == s.sfd + k + 1
    requires Valid(t) && t.sfd == s.sfd && |t.pollfds| == size && FirstFree(Fds(s.pollfds), 0) < size
    requires Fds(t.pollfds) == Fds(s.pollfds)[FirstFree(Fds(s.pollfds), 0) := fd]
    ensures FilledTo(t, size, k + 1)
  {
    FilledFurther(s.sfd, size, k);
  }

  lemma FillNext(s: Server, size: nat, k: nat, fd: int, byte: Byte, limit: nat)
    requires FilledTo(s, size, k) && k + 1 < size <= limit && fd == s.sfd + k + 1
    ensures EnvOk(s.net, s.sfd, TurnWith({s.sfd}, fd, byte), 1)
    ensures var t := Round(s, TurnWith({s.sfd}, fd, byte), Variant(0, limit));
            FilledTo(t, size, k + 1) && t.sfd == s.sfd
  {
    FilledFacts(s, size, k);
    ArrivalTurn(s, fd, byte, limit);
    RoundKeepsLength(s, TurnWith({s.sfd}, fd, byte), Variant(0, limit));
    ArrivedIsFilled(s, Round(s, TurnWith({s.sfd}, fd, byte), Variant(0, limit)), size, k, fd);
  }

  lemma FilledAtFirst(sfd: int, size: nat)
    requires 0 < sfd && 0 < size
    ensures FilledTo(Initial(sfd, size), size, 0)
  {
    InitialValid(sfd, size);
    assert Fds(Initial(sfd, size).pollfds) == Filled(sfd, size, 0);
  }

  lemma OneMoreTurn(trace: seq<Server>, steps: seq<Step>, env: Env, sfd: int, size: nat, v: Variant, bufsize: nat)
    returns (trace': seq<Server>, steps': seq<Step>)
    requires IsRun(trace, steps, sfd, size, v, bufsize)
    requires var s := trace[|steps|];
             0 < |s.pollfds| <= v.searchLimit && EnvOk(s.net, s.sfd, env, bufsize)
    ensures IsRun(trace', steps', sfd, size, v, bufsize) && |steps'| == |steps| + 1
    ensures trace'[|steps'|] == Round(trace[|steps|], env, v)
  {
    var t := Round(trace[|steps|], env, v);
    assert StepsTo(trace[|steps|], Turns(env), t, v, bufsize);
    ExtendRun(trace, steps, Turns(env), t, sfd, size, v, bufsize);
    trace', steps' := trace + [t], steps + [Turns(env)];
  }

  /** A run that fills the array, client by client. */
  lemma {:induction false} FillingRun(sfd: int, size: nat, k: nat, byte: Byte, limit: nat)
    returns (trace: seq<Server>, steps: seq<Step>)
    requires 0 < sfd && k < size <= limit
    ensures IsRun(trace, steps, sfd, size, Variant(0, limit), 1) && |steps| == k
    ensures FilledTo(trace[k], size, k) && trace[k].sfd == sfd
  {
    if k == 0 {
      trace, steps := [Initial(sfd, size)], [];
      FilledAtFirst(sfd, size);
    } else {
      trace, steps := FillingRun(sfd, size, k - 1, byte, limit);
      var s, fd := trace[k - 1], sfd + k;
      FillNext(s, size, k - 1, fd, byte, limit);
      trace, steps := OneMoreTurn(trace, steps, TurnWith({s.sfd}, fd, byte), sfd, size, Variant(0, limit), 1);
    }
  }

  /**
   * One client more than the array has room for: as written, with a limit beyond the
   * array, the run ends in an overrun; with the limit at its length, in the message.
   */
  lemma OverrunIsReached(sfd: int, size: nat, byte: Byte, limit: nat)
    returns (trace: seq<Server>, steps: seq<Step>)
    requires 0 < sfd && 0 < size <= limit
    ensures IsRun(trace, steps, sfd, size, Variant(0, limit), 1) && |steps| == size
    ensures trace[size].overrun <==> size < limit
    ensures trace[size].halted <==> size == limit
  {
    trace, steps := FillingRun(sfd, size, size - 1, byte, limit);
    var s, v := trace[size - 1], Variant(0, limit);
    FilledFacts(s, size, size - 1);
    var env := TurnWith({sfd}, sfd + size, byte);
    FullTurnStops(s, env, v);
    trace, steps := OneMoreTurn(trace, steps, env, sfd, size, v, 1);
  }

  /** When nready is 1 a readable listener uses it up and is removed; nobody else is served. */
  lemma OnlyTheListener(s: Server, replies: Replies)
    requires |s.pollfds| > 0 && s.nready == 1 && s.pollfds[0].fd > 0 && s.pollfds[0].pollin
    requires s.pollfds[0].fd !in s.net.open && !s.halted
    ensures var t := ProcessReady(s, replies, 0);
            && t.pollfds == s.pollfds[0 := s.pollfds[0].(fd := -1)]
            && t.net == s.net && !t.halted && t.overrun == s.overrun && t.served == [s.pollfds[0].fd]
  {
    ScanFromZero(s, replies);
    assert ProcessReady(s, replies, 0).pollfds == s.pollfds[0 := s.pollfds[0].(fd := -1)];
  }

  /** A server with one client, in slot 1, which has sent one byte. */
  ghost predicate OneClient(s: Server, fd: int, byte: Byte) {
    && Valid(s) && s.sfd > 0 && |s.pollfds| >= 3 && s.pollfds[1].fd == fd
    && (forall i :: 2 <= i < |s.pollfds| ==> s.pollfds[i].fd == -1)
    && s.net.open == map[fd := Conn(0, [byte], false, 0, [], false)]
  }

  lemma OneEntryBesides(s: Server, fd: int, next: int, byte: Byte)
    requires OneClient(s, fd, byte)
    ensures CountNonzero(PollAll(s.pollfds, TurnWith({s.sfd, fd}, next, byte)), 0) == 2
  {
    var env, fds := TurnWith({s.sfd, fd}, next, byte), Fds(s.pollfds);
    assert fd > 0 by { assert fd in s.net.open && fd in Clients(fds); }
    PollShows(s.pollfds, env);
    CountIsReporting(PollAll(s.pollfds, env), fds, env, 0);
    assert Reporting(fds, env, 0) == {0, 1};
  }

  lemma SecondTurn(s: Server, fd: int, next: int, byte: Byte, limit: nat)
    requires OneClient(s, fd, byte) && |s.pollfds| <= limit && next > 0 && next != s.sfd && next != fd
    ensures EnvOk(s.net, s.sfd, TurnWith({s.sfd, fd}, next, byte), 1)
    ensures var t := Round(s, TurnWith({s.sfd, fd}, next, byte), Variant(0, limit));
            && !Stopped(t) && |t.pollfds| == |s.pollfds| && t.pollfds[0].fd == -1 && t.served == [s.sfd]
            && t.net == AcceptAs(s.net, next, [byte], false)
  {
    var env := TurnWith({s.sfd, fd}, next, byte);
    assert HasRoom(s) by { assert s.pollfds[2].fd < 0; }
    StopsBeforeScan(s, env, limit);
    AcceptedReady(s, env, limit, 1);
    OneEntryBesides(s, fd, next, byte);
    var s1 := BeforeScan(s, env, limit);
    assert s1.nready == 1;
    OnlyTheListener(s1, env.replies);
  }

  /**
   * A run of two turns that loses the listener: a client is admitted, and in the next
   * turn both are readable. The listener is gone for good and the client's byte unread.
   */
  lemma ListenerIsLost(sfd: int, fd: int, next: int, byte: Byte, size: nat, limit: nat)
    requires 0 < sfd && 0 < fd && 0 < next && fd != sfd && next != sfd && next != fd && 3 <= size <= limit
    ensures var v, e1, e2 := Variant(0, limit), TurnWith({sfd}, fd, byte), TurnWith({sfd, fd}, next, byte);
            var s0 := Initial(sfd, size);
            var s := Round(s0, e1, v);
            && EnvOk(s0.net, sfd, e1, 1) && |s.pollfds| == size && EnvOk(s.net, sfd, e2, 1)
            && var t := Round(s, e2, v);
               && !Stopped(t) && t.pollfds[0].fd == -1 && t.served == [sfd]
               && fd in t.net.open && t.net.open[fd] == Conn(0, [byte], false, 0, [], false)
  {
    FirstTurn(sfd, fd, byte, size, limit);
    var s := Round(Initial(sfd, size), TurnWith({sfd}, fd, byte), Variant(0, limit));
    SecondTurn(s, fd, next, byte, limit);
  }

  /** Entry e is entry d with descriptor fd. */
  predicate Holds(e: PollFd, d: PollFd, fd: int) {
    e.fd == fd && e.pollin == d.pollin && e.other == d.other
  }

  /** The state when the scan stops at slot i with the array p. */
  lemma ScanEnds(s: Server, flags: seq<bool>, last: int, replies: Replies, first: nat, sc: Scan, i: nat, left: int,
                 p: seq<PollFd>)
    requires |sc.slots| == |p| == |s.pollfds| && (i > last || left <= 0 || sc.halted)
    requires flags == Pollins(s.pollfds) && last == |p| - 1
    requires forall j :: 0 <= j < |p| ==> Holds(p[j], s.pollfds[j], sc.slots[j])
    requires Eager(ScanOf(s), flags, replies, first, last, s.nready) == Eager(sc, flags, replies, i, last, left)
    ensures ProcessReady(s, replies, first)
         == s.(pollfds := p, net := sc.net, served := sc.served, nready := left, halted := sc.halted)
  {
    assert PutFds(s.pollfds, sc.slots) == p;
  }

  // ----- the loop itself, on the mutable context

  class Context {
    var nready: int
    const pollfds: array<PollFd>
    const sfd: int
    const kernel: Kernel
    ghost var served: seq<int>
    var halted: bool
    var overrun: bool

    ghost function State(): Server
      reads this, pollfds, kernel
    {
      Server(pollfds[..], nready, sfd, kernel.net, served, halted, overrun)
    }

    constructor (sfd: int, size: nat, kernel: Kernel)
      requires size > 0 && kernel.net == Net(map[], {}, 0)
      ensures this.kernel == kernel && fresh(pollfds)
      ensures State() == Initial(sfd, size)
    {
      this.sfd := sfd;
      this.kernel := kernel;
      nready, served, halted, overrun := 0, [], false, false;
      pollfds := new PollFd[size](_ => PollFd(0, false, false));
      new;
      for i := 0 to size
        invariant forall j :: 0 <= j < i ==> pollfds[j] == PollFd(-1, false, false)
        invariant nready == 0 && served == [] && !halted && !overrun && kernel.net == Net(map[], {}, 0)
        modifies pollfds
      {
        pollfds[i] := PollFd(-1, false, false);
      }
      pollfds[0] := pollfds[0].(fd := sfd);
      assert pollfds[..] == Initial(sfd, size).pollfds;
    }

    method AddClient(cfd: int, limit: nat)
      requires !halted && !overrun && pollfds.Length <= limit
      modifies this, pollfds
      ensures State() == WithClient(old(State()), cfd, limit)
    {
      ghost var p := pollfds[..];
      nready := nready - 1;
      var i := 0;
      while i < limit
        invariant 0 <= i <= pollfds.Length
        invariant FirstFree(Fds(p), i) == FirstFree(Fds(p), 0)
        invariant State() == old(State()).(nready := nready) && nready == old(nready) - 1
      {
        if i >= pollfds.Length {
          overrun := true;
          return;
        }
        if pollfds[i].fd < 0 {
          pollfds[i] := pollfds[i].(fd := cfd);
          assert pollfds[..] == p[i := p[i].(fd := cfd)];
          return;
        }
        i := i + 1;
      }
      if i == pollfds.Length {
        halted := true;
      }
    }

    /** The array and the kernel are at the point the scan has reached in sc. */
    ghost predicate At(sc: Scan, p: seq<PollFd>)
      reads this, pollfds, kernel
    {
      && |sc.slots| == |p| == pollfds.Length
      && (forall j {:trigger pollfds[j]} :: 0 <= j < |p| ==> Holds(pollfds[j], p[j], sc.slots[j]))
      && sc.net == kernel.net && sc.served == served && sc.halted == halted
    }

    /**
     * The scan has reached slot k: what is still to come leads to `goal`, and the kernel
     * keeps its promises for it.
     */
    ghost predicate Scanning(goal: (Scan, int), sc: Scan, p: seq<PollFd>, replies: Replies, bufsize: nat, k: nat)
      reads this, pollfds, kernel
    {
      && At(sc, p) && Distinct(sc.slots)
      && AllowedFrom(sc.slots, Pollins(p), sc.net, replies, bufsize, k)
      && goal == Eager(sc, Pollins(p), replies, k, |p| - 1, nready)
    }

    /** The body of the scan: serve the entry if it holds a readable descriptor. */
    method VisitSlot(i: nat, buffer: array<Byte>, replies: Replies,
                     ghost goal: (Scan, int), ghost sc: Scan, ghost p: seq<PollFd>)
      returns (ghost next: Scan)
      requires Scanning(goal, sc, p, replies, buffer.Length, i) && !halted && i < |p| && nready > 0
      modifies this, pollfds, kernel, buffer
      ensures Scanning(goal, next, p, replies, buffer.Length, i + 1) && overrun == old(overrun)
    {
      AllowedNext(sc, Pollins(p), replies, buffer.Length, i);
      EagerStep(sc, Pollins(p), replies, i, |p| - 1, nready);
      next := sc;
      var fd := pollfds[i].fd;
      assert Holds(pollfds[i], p[i], sc.slots[i]);
      if fd > 0 && pollfds[i].pollin {
        assert Hot(sc.slots, Pollins(p), i);
        next := ServeSlot(sc, i, replies);
        nready := nready - 1;
        served := served + [fd];
        var answer := if fd in kernel.net.open then replies(fd).read else Fail;
        var n := kernel.Read(fd, buffer, answer);
        if n > 0 {
          var w := kernel.Write(fd, buffer, n, replies(fd).written);
          assert buffer[..Transferred(replies(fd).written, n)] == buffer[..n][..Transferred(replies(fd).written, n)];
          if w != n {
            halted := true;
          }
        } else {
          kernel.Close(fd);
          pollfds[i] := pollfds[i].(fd := -1);
        }
      }
    }

    /** The loop of the scan: it stops past the array, at nready == 0, or when the process ends. */
    method ScanSlots(first: nat, buffer: array<Byte>, replies: Replies, ghost start: Scan, ghost p: seq<PollFd>)
      returns (ghost sc: Scan, ghost i: nat)
      requires At(start, p) && !halted && Distinct(start.slots)
      requires AllowedFrom(start.slots, Pollins(p), start.net, replies, buffer.Length, first)
      modifies this, pollfds, kernel, buffer
      ensures At(sc, p) && overrun == old(overrun)
      ensures Eager(start, Pollins(p), replies, first, |p| - 1, old(nready)) ==
              Eager(sc, Pollins(p), replies, i, |p| - 1, nready)
      ensures i >= |p| || nready <= 0 || sc.halted
    {
      var k := first;
      sc := start;
      ghost var goal := Eager(start, Pollins(p), replies, first, |p| - 1, nready);
      while k < pollfds.Length && nready > 0 && !halted
        invariant Scanning(goal, sc, p, replies, buffer.Length, k) && overrun == old(overrun)
        decreases pollfds.Length - k
      {
        sc := VisitSlot(k, buffer, replies, goal, sc, p);
        k := k + 1;
      }
      i := k;
    }

    method ProcessReadyClients(replies: Replies, first: nat, bufsize: nat)
      requires !halted && Distinct(Fds(pollfds[..]))
      requires AllowedFrom(Fds(pollfds[..]), Pollins(pollfds[..]), kernel.net, replies, bufsize, first)
      modifies this, pollfds, kernel
      ensures State() == ProcessReady(old(State()), replies, first)
    {
      var buffer := new Byte[bufsize];
      ghost var s, p := State(), pollfds[..];
      served := [];
      ghost var sc, i := ScanSlots(first, buffer, replies, ScanOf(s), p);
      ScanEnds(s, Pollins(p), |p| - 1, replies, first, sc, i, nready, pollfds[..]);
    }

    /** Waiting for events and accepting: the part of the loop body before the scan. */
    method WaitAndAccept(env: Env, limit: nat)
      requires !halted && !overrun && 0 < pollfds.Length <= limit
      modifies this, pollfds, kernel
      ensures State() == BeforeScan(old(State()), env, limit)
    {
      ghost var s := State();
      served := [];
      if env.waitFails {
        nready := -1;
        halted := true;
        return;
      }
      Poll(env);
      if pollfds[0].pollin {
        if env.accepted.None? {
          halted := true;
          return;
        }
        var n := env.accepted.value;
        kernel.Accept(n.fd, n.sent, n.fin);
        AddClient(n.fd, limit);
      }
    }

    /** poll() itself: fills in every entry's result and counts the nonzero ones. */
    method Poll(env: Env)
      modifies this, pollfds
      ensures State() == old(State()).(pollfds := PollAll(old(pollfds[..]), env), nready := nready)
      ensures nready == CountNonzero(PollAll(old(pollfds[..]), env), 0)
      ensures nready == |Reporting(Fds(old(pollfds[..])), env, 0)|
      ensures Shows(pollfds[..], Fds(old(pollfds[..])), env)
    {
      ghost var p := pollfds[..];
      ghost var q := PollAll(p, env);
      nready := 0;
      var i := pollfds.Length;
      while i > 0
        invariant 0 <= i <= pollfds.Length == |q|
        invariant pollfds[..] == p[..i] + q[i..]
        invariant nready == CountNonzero(q, i)
        invariant State() == old(State()).(pollfds := pollfds[..], nready := nready)
      {
        i := i - 1;
        pollfds[i] := Polled(pollfds[i], env);
        if Nonzero(pollfds[i]) {
          nready := nready + 1;
        }
        assert pollfds[..] == p[..i] + q[i..];
      }
      PollShows(p, env);
      CountIsReporting(q, Fds(p), env, 0);
    }

    /** The body of the endless loop in main(), in either variant. */
    method Turn(env: Env, v: Variant, bufsize: nat)
      requires Safe(State()) && EnvOk(kernel.net, sfd, env, bufsize) && pollfds.Length <= v.searchLimit
      modifies this, pollfds, kernel
      ensures State() == Round(old(State()), env, v)
      ensures !halted && !overrun ==> Safe(State())
    {
      ghost var s := State();
      SafeScanStarts(s, env, v.searchLimit, bufsize);
      WaitAndAccept(env, v.searchLimit);
      if !halted && !overrun {
        ghost var s1 := State();
        ScanMayStart(s, env, v.searchLimit, bufsize);
        ScanKeepsSafe(s1, env.replies, v.firstSlot);
        ProcessReadyClients(env.replies, v.firstSlot, bufsize);
      }
    }
  }
}

/** The event loop of servers/select.c. */
module SelectServer {
  import opened Prelude
  import opened Connections
  import opened SystemCalls
  import opened Scan
  import opened EventLoop

  /**
   * The server context, with the listening descriptor, the kernel's network
   * state, a log of the descriptors served in the last turn, and whether
   * error_exit() was called.
   */
  datatype Server = Server(maxfd: int, readSet: set<int>, readySet: set<int>, nready: int, maxi: int,
                           clientfd: seq<int>, sfd: int, net: Net, served: seq<int>, halted: bool)

  // ----- the state transformers of the loop

  function Initial(sfd: int, size: nat): Server {
    Server(sfd, {sfd}, {}, 0, -1, seq(size, _ => -1), sfd, Net(map[], {}, 0), [], false)
  }

  /** select() looks at descriptors below nfds only. */
  function SelectReturns(readSet: set<int>, nfds: int, canRead: set<int>): set<int> {
    set fd | fd in readSet && 0 <= fd < nfds && fd in canRead
  }

  function WithClient(s: Server, cfd: int): Server {
    var i := FirstFree(s.clientfd, 0);
    if i == |s.clientfd| then s.(nready := s.nready - 1, halted := true)
    else s.(nready := s.nready - 1,
            clientfd := s.clientfd[i := cfd],
            readSet := s.readSet + {cfd},
            maxfd := Max(cfd, s.maxfd),
            maxi := Max(i, s.maxi))
  }

  function ScanOf(s: Server): Scan {
    Scan(s.clientfd, s.net, [], {}, false)
  }

  function After(s: Server, end: Scan, nready: int): Server {
    s.(clientfd := end.slots, net := end.net, readSet := s.readSet - end.cleared,
       served := end.served, nready := nready, halted := end.halted)
  }

  /** The scan as written: up to maxi, while nready is positive. */
  function ProcessReady(s: Server, replies: Replies): Server
    requires s.maxi < |s.clientfd|
  {
    var (end, left) := Eager(ScanOf(s), Flags(s.clientfd, s.readySet), replies, 0, s.maxi, s.nready);
    After(s, end, left)
  }

  /** The scan of all slots, which uses neither maxi nor nready. */
  function ProcessAll(s: Server, replies: Replies): Server {
    After(s, Plain(ScanOf(s), Flags(s.clientfd, s.readySet), replies, 0), 0)
  }

  /** What precedes the scan: waiting, and accepting when the listener is ready. */
  function BeforeScan(s: Server, env: Env): Server {
    if env.waitFails then s.(readySet := s.readSet, nready := -1, served := [], halted := true) else
    var ready := SelectReturns(s.readSet, s.maxfd + 1, env.canRead);
    var s1 := s.(readySet := ready, nready := |ready|, served := []);
    if s.sfd !in ready then s1
    else if env.accepted.None? then s1.(halted := true)
    else
      var n := env.accepted.value;
      WithClient(s1.(net := AcceptAs(s.net, n.fd, n.sent, n.fin)), n.fd)
  }

  function Round(s: Server, env: Env): Server
    requires s.maxi < |s.clientfd|
  {
    if s.halted then s else
    var s1 := BeforeScan(s, env);
    if s1.halted then s1 else ProcessReady(s1, env.replies)
  }

  // ----- the representation invariant

  ghost predicate SlotsOk(slots: seq<int>, sfd: int) {
    && (forall i :: 0 <= i < |slots| ==> slots[i] == -1 || 0 < slots[i] < |slots|)
    && (forall i :: 0 <= i < |slots| ==> slots[i] != sfd)
    && Distinct(slots)
  }

  ghost predicate MarksOk(s: Server) {
    && -1 <= s.maxi < |s.clientfd|
    && (forall i :: 0 <= i < |s.clientfd| && s.clientfd[i] > 0 ==> i <= s.maxi)
    && (forall fd :: fd in s.readSet ==> 0 <= fd <= s.maxfd)
    && s.maxfd < |s.clientfd|
  }

  /** All redundant parts of the context agree with each other and with the kernel. */
  ghost predicate Valid(s: Server) {
    && 0 <= s.sfd < |s.clientfd|
    && SlotsOk(s.clientfd, s.sfd)
    && MarksOk(s)
    && s.readSet == {s.sfd} + Live(s.clientfd)
    && s.net.open.Keys == Live(s.clientfd)
    && !s.halted
  }

  /** The environment, for a process whose descriptors are all below FD_SETSIZE. */
  ghost predicate SelectEnvOk(s: Server, env: Env, bufsize: nat) {
    && EnvOk(s.net, s.sfd, env, bufsize)
    && (env.accepted.Some? ==> env.accepted.value.fd < |s.clientfd|)
  }

  lemma InitialValid(sfd: int, size: nat)
    requires 0 <= sfd < size
    ensures Valid(Initial(sfd, size))
    ensures StreamsOk(Initial(sfd, size).net, true) && SerialsOk(Initial(sfd, size).net)
  {
    assert Live(Initial(sfd, size).clientfd) == {};
  }

  /** Distinct entries from [1, n) cannot fill n slots: a free slot is always left. */
  lemma {:induction false} LiveCount(slots: seq<int>)
    requires Distinct(slots) && forall i :: 0 <= i < |slots| ==> slots[i] > 0
    ensures |Live(slots)| == |slots|
  {
    if slots != [] {
      var n := |slots| - 1;
      LiveCount(slots[..n]);
      assert Live(slots) == Live(slots[..n]) + {slots[n]};
      assert slots[n] !in Live(slots[..n]);
    } else {
      assert Live(slots) == {};
    }
  }

  lemma NeverTooManyClients(s: Server)
    requires Valid(s)
    ensures FirstFree(s.clientfd, 0) < |s.clientfd|
  {
    if FirstFree(s.clientfd, 0) == |s.clientfd| {
      LiveCount(s.clientfd);
      BoundedSetSize(Live(s.clientfd), 1, |s.clientfd|);
    }
  }

  /** With the marks in order select() misses no readable member of the read set. */
  lemma SelectMissesNothing(s: Server, canRead: set<int>)
    requires Valid(s)
    ensures SelectReturns(s.readSet, s.maxfd + 1, canRead) == s.readSet * canRead
  {
  }

  lemma FreshIsNotLive(s: Server, fd: int)
    requires Valid(s) && Fresh(s.net, s.sfd, fd)
    ensures fd !in s.readSet
    ensures forall i :: 0 <= i < |s.clientfd| ==> s.clientfd[i] != fd
  {
    assert forall i :: 0 <= i < |s.clientfd| && s.clientfd[i] > 0 ==> s.clientfd[i] in Live(s.clientfd);
  }

  lemma InsertSlotsOk(slots: seq<int>, i: nat, fd: int, sfd: int)
    requires SlotsOk(slots, sfd) && i < |slots| && 0 < fd < |slots| && fd != sfd && fd !in Live(slots)
    ensures SlotsOk(slots[i := fd], sfd)
  {
    assert forall j :: 0 <= j < |slots| && slots[j] > 0 ==> slots[j] in Live(slots);
  }

  lemma InsertMarksOk(s: Server, i: nat, fd: int)
    requires MarksOk(s) && i < |s.clientfd| && 0 < fd < |s.clientfd|
    ensures MarksOk(s.(clientfd := s.clientfd[i := fd], readSet := s.readSet + {fd},
                       maxfd := Max(fd, s.maxfd), maxi := Max(i, s.maxi)))
  {
  }

  lemma WithClientValid(s: Server, n: Newcomer)
    requires Valid(s) && Fresh(s.net, s.sfd, n.fd) && n.fd < |s.clientfd|
    ensures var t := WithClient(s.(net := AcceptAs(s.net, n.fd, n.sent, n.fin)), n.fd);
            Valid(t) && Live(t.clientfd) == Live(s.clientfd) + {n.fd}
  {
    NeverTooManyClients(s);
    var i := FirstFree(s.clientfd, 0);
    InsertLive(s.clientfd, i, n.fd);
    InsertSlotsOk(s.clientfd, i, n.fd, s.sfd);
    InsertMarksOk(s, i, n.fd);
    assert AcceptAs(s.net, n.fd, n.sent, n.fin).open.Keys == s.net.open.Keys + {n.fd};
  }

  /** The state the scan starts in: valid, its countdown exact, its hot slots the ready clients. */
  ghost predicate ReadyToScan(s: Server, ready: set<int>) {
    && Valid(s)
    && HotSet(s.clientfd, Flags(s.clientfd, s.readySet), 0) == ready
    && s.nready == CountHot(s.clientfd, Flags(s.clientfd, s.readySet), 0)
  }

  lemma HotSetIsReadyLive(slots: seq<int>, ready: set<int>)
    ensures HotSet(slots, Flags(slots, ready), 0) == Live(slots) * ready
  {
    var f := Flags(slots, ready);
    forall fd | fd in Live(slots) * ready ensures fd in HotSet(slots, f, 0) {
      var j :| 0 <= j < |slots| && slots[j] > 0 && slots[j] == fd;
      assert Hot(slots, f, j);
    }
  }

  lemma CountReady(slots: seq<int>, ready: set<int>)
    requires Distinct(slots)
    ensures CountHot(slots, Flags(slots, ready), 0) == |Live(slots) * ready|
  {
    HotSetIsReadyLive(slots, ready);
    CountIsCardinality(slots, Flags(slots, ready), 0);
  }

  lemma ReadySplit(s: Server, env: Env)
    requires Valid(s)
    ensures s.readSet * env.canRead == (if s.sfd in env.canRead then {s.sfd} else {}) + ReadyClients(s.net, env)
    ensures s.sfd !in ReadyClients(s.net, env)
    ensures Live(s.clientfd) * (s.readSet * env.canRead) == ReadyClients(s.net, env)
  {
    assert s.sfd !in Live(s.clientfd);
  }

  lemma ScanReady(s: Server, ready: set<int>)
    requires Valid(s) && ready == Live(s.clientfd) * s.readySet && s.nready == |ready|
    ensures ReadyToScan(s, ready)
  {
    HotSetIsReadyLive(s.clientfd, s.readySet);
    CountReady(s.clientfd, s.readySet);
  }

  /** The context right after select() has answered. */
  function Waited(s: Server, canRead: set<int>): Server {
    var ready := SelectReturns(s.readSet, s.maxfd + 1, canRead);
    s.(readySet := ready, nready := |ready|, served := [])
  }

  lemma WaitedReady(s: Server, env: Env)
    requires Valid(s)
    ensures Valid(Waited(s, env.canRead))
    ensures Waited(s, env.canRead).readySet
         == (if s.sfd in env.canRead then {s.sfd} else {}) + ReadyClients(s.net, env)
    ensures s.sfd !in ReadyClients(s.net, env)
    ensures Live(s.clientfd) * Waited(s, env.canRead).readySet == ReadyClients(s.net, env)
  {
    SelectMissesNothing(s, env.canRead);
    ReadySplit(s, env);
  }

  lemma AcceptedCount(s: Server, env: Env)
    requires Valid(s) && s.sfd in env.canRead
    ensures Waited(s, env.canRead).nready == |ReadyClients(s.net, env)| + 1
  {
    WaitedReady(s, env);
  }

  lemma AcceptedEquals(s: Server, env: Env)
    requires !env.waitFails && env.accepted.Some? && s.sfd in Waited(s, env.canRead).readySet
    ensures var n, s1 := env.accepted.value, Waited(s, env.canRead);
            BeforeScan(s, env) == WithClient(s1.(net := AcceptAs(s.net, n.fd, n.sent, n.fin)), n.fd)
  {
  }

  lemma AcceptedParts(s: Server, env: Env, bufsize: nat)
    requires Valid(s) && SelectEnvOk(s, env, bufsize) && !env.waitFails
    requires s.sfd in env.canRead && env.accepted.Some?
    ensures var t, fd := BeforeScan(s, env), env.accepted.value.fd;
            && Valid(t) && Live(t.clientfd) == Live(s.clientfd) + {fd} && fd !in s.readSet
            && t.readySet == Waited(s, env.canRead).readySet && t.nready == Waited(s, env.canRead).nready - 1
  {
    var s1, n := Waited(s, env.canRead), env.accepted.value;
    WaitedReady(s, env);
    WithClientValid(s1, n);
    AcceptedEquals(s, env);
    FreshIsNotLive(s, n.fd);
    NeverTooManyClients(s);
  }

  lemma AcceptedReady(s: Server, env: Env, bufsize: nat)
    requires Valid(s) && SelectEnvOk(s, env, bufsize) && !env.waitFails
    requires s.sfd in env.canRead && env.accepted.Some?
    ensures ReadyToScan(BeforeScan(s, env), ReadyClients(s.net, env))
  {
    AcceptedParts(s, env, bufsize);
    AcceptedCount(s, env);
    NewcomerNotReady(s, env, Live(s.clientfd), env.accepted.value.fd);
    ScanReady(BeforeScan(s, env), ReadyClients(s.net, env));
  }

  lemma NewcomerNotReady(s: Server, env: Env, live: set<int>, fd: int)
    requires Valid(s) && live == Live(s.clientfd) && fd !in s.readSet
    ensures (live + {fd}) * Waited(s, env.canRead).readySet == ReadyClients(s.net, env)
  {
    WaitedReady(s, env);
    assert Waited(s, env.canRead).readySet <= s.readSet;
  }

  lemma UnacceptedEquals(s: Server, env: Env)
    requires !env.waitFails && s.sfd !in Waited(s, env.canRead).readySet
    ensures BeforeScan(s, env) == Waited(s, env.canRead)
  {
  }

  lemma UnacceptedReady(s: Server, env: Env)
    requires Valid(s) && !env.waitFails && s.sfd !in env.canRead
    ensures ReadyToScan(BeforeScan(s, env), ReadyClients(s.net, env))
  {
    WaitedReady(s, env);
    UnacceptedEquals(s, env);
    ScanReady(Waited(s, env.canRead), ReadyClients(s.net, env));
  }

  lemma BeforeScanReady(s: Server, env: Env, bufsize: nat)
    requires Valid(s) && SelectEnvOk(s, env, bufsize)
    ensures BeforeScan(s, env).halted <==> env.waitFails || (s.sfd in env.canRead && env.accepted.None?)
    ensures !BeforeScan(s, env).halted ==>
              && ReadyToScan(BeforeScan(s, env), ReadyClients(s.net, env))
              && BeforeScan(s, env).net == Admit(s.net, s.sfd, env)
  {
    if !env.waitFails {
      SelectMissesNothing(s, env.canRead);
      if s.sfd !in env.canRead {
        UnacceptedReady(s, env);
      } else if env.accepted.Some? {
        AcceptedReady(s, env, bufsize);
      }
    }
  }

  /** The bounded, early-exit scan is the full scan, and it ends with nready == 0. */
  lemma ProcessReadyIsProcessAll(s: Server, ready: set<int>, replies: Replies)
    requires ReadyToScan(s, ready)
    ensures ProcessReady(s, replies).(nready := 0) == ProcessAll(s, replies)
    ensures !ProcessReady(s, replies).halted ==> ProcessReady(s, replies).nready == 0
  {
    EagerIsPlain(ScanOf(s), Flags(s.clientfd, s.readySet), replies, 0, s.maxi, s.nready);
  }

  /** The slots after a complete scan of distinct slots, told by descriptor. */
  lemma SlotsWithout(slots: seq<int>, after: seq<int>, ready: set<int>, net: Net, replies: Replies, gone: set<int>)
    requires Distinct(slots) && Live(slots) == net.open.Keys
    requires SlotsAfter(slots, after, Flags(slots, ready), net, replies, 0)
    requires gone == Closing(Live(slots) * ready, replies)
    ensures FreedFrom(slots, after, gone)
    ensures Live(after) == Live(slots) - gone
  {
    forall j | 0 <= j < |slots| ensures after[j] == if slots[j] in gone then -1 else slots[j] {
      if slots[j] > 0 {
        assert slots[j] in Live(slots);
        assert Hot(slots, Flags(slots, ready), j) <==> slots[j] in ready;
      }
    }
    forall fd | fd in Live(slots) - gone ensures fd in Live(after) {
      var j :| 0 <= j < |slots| && slots[j] > 0 && slots[j] == fd;
      assert after[j] == fd;
    }
  }

  lemma WithoutKeepsSlotsOk(slots: seq<int>, after: seq<int>, sfd: int, gone: set<int>)
    requires SlotsOk(slots, sfd) && FreedFrom(slots, after, gone) && sfd >= 0
    ensures SlotsOk(after, sfd)
  {
  }

  /** What the full scan leaves: the descriptors that were closed are gone from every part of the context. */
  lemma ProcessAllParts(s: Server, ready: set<int>, replies: Replies)
    requires ReadyToScan(s, ready) && !ProcessAll(s, replies).halted
    ensures var t, gone := ProcessAll(s, replies), Closing(ready, replies);
            && FreedFrom(s.clientfd, t.clientfd, gone)
            && Live(t.clientfd) == Live(s.clientfd) - gone
            && t.readSet == s.readSet - gone && t.net.open.Keys == s.net.open.Keys - gone && s.sfd !in gone
  {
    var f := Flags(s.clientfd, s.readySet);
    HotSetIsReadyLive(s.clientfd, s.readySet);
    PlainMeaning(ScanOf(s), f, replies, 0);
    SlotsWithout(s.clientfd, ProcessAll(s, replies).clientfd, s.readySet, s.net, replies, Closing(ready, replies));
    assert s.sfd !in Live(s.clientfd);
  }

  lemma ProcessAllValid(s: Server, ready: set<int>, replies: Replies)
    requires ReadyToScan(s, ready) && !ProcessAll(s, replies).halted
    ensures Valid(ProcessAll(s, replies))
  {
    ProcessAllParts(s, ready, replies);
    WithoutIsValid(s, ProcessAll(s, replies), Closing(ready, replies));
  }

  lemma WithoutIsValid(s: Server, t: Server, gone: set<int>)
    requires Valid(s) && FreedFrom(s.clientfd, t.clientfd, gone)
    requires t.sfd == s.sfd && t.maxi == s.maxi && t.maxfd == s.maxfd && !t.halted
    requires Live(t.clientfd) == Live(s.clientfd) - gone && s.sfd !in gone
    requires t.readSet == s.readSet - gone && t.net.open.Keys == s.net.open.Keys - gone
    ensures Valid(t)
  {
    WithoutKeepsSlotsOk(s.clientfd, t.clientfd, s.sfd, gone);
  }

  // ----- main results about one turn

  lemma BeforeScanMarks(s: Server, env: Env)
    requires s.maxi < |s.clientfd|
    ensures BeforeScan(s, env).maxi < |BeforeScan(s, env).clientfd| == |s.clientfd|
  {
  }

  lemma RoundKeepsLength(s: Server, env: Env)
    requires s.maxi < |s.clientfd|
    ensures |Round(s, env).clientfd| == |s.clientfd| && Round(s, env).sfd == s.sfd
    ensures Round(s, env).maxi < |s.clientfd|
  {
    BeforeScanMarks(s, env);
    var s1 := BeforeScan(s, env);
    EagerKeepsLength(ScanOf(s1), Flags(s1.clientfd, s1.readySet), env.replies, 0, s1.maxi, s1.nready);
  }

  /** The scan of a turn, as far as the outside can see it. */
  lemma ScanMeaning(s: Server, env: Env, bufsize: nat)
    requires Valid(s) && SelectEnvOk(s, env, bufsize) && !BeforeScan(s, env).halted
    ensures var t, ready := Round(s, env), ReadyClients(s.net, env);
            && (t.halted <==> ShortIn(s.net, ready, env.replies))
            && (!t.halted ==>
                  && t.net == Turn(s.net, s.sfd, env)
                  && (forall fd :: fd in t.served <==> fd in ready)
                  && (forall a, b :: 0 <= a < b < |t.served| ==> t.served[a] != t.served[b]))
  {
    BeforeScanReady(s, env, bufsize);
    var s1 := BeforeScan(s, env);
    var f := Flags(s1.clientfd, s1.readySet);
    ProcessReadyIsProcessAll(s1, ReadyClients(s.net, env), env.replies);
    assert ReadyClients(s.net, env) <= s1.net.open.Keys;
    PlainMeaning(ScanOf(s1), f, env.replies, 0);
    HotFdsAreTheHotSet(s1.clientfd, f, 0);
    AdmitKeepsShort(s.net, s.sfd, env, bufsize);
  }

  lemma ScanValid(s: Server, env: Env, bufsize: nat)
    requires Valid(s) && SelectEnvOk(s, env, bufsize) && !Round(s, env).halted
    ensures Valid(Round(s, env)) && Round(s, env).nready == 0
  {
    BeforeScanReady(s, env, bufsize);
    var s1 := BeforeScan(s, env);
    ProcessReadyIsProcessAll(s1, ReadyClients(s.net, env), env.replies);
    ProcessAllValid(s1, ReadyClients(s.net, env), env.replies);
  }

  /**
   * A turn as written does what the order-free abstract turn does, halts exactly
   * when that one does, serves each ready client exactly once and nobody else
   * (in particular no client accepted in the same turn), uses up nready, and
   * keeps the representation invariant.
   */
  lemma RoundMeaning(s: Server, env: Env, bufsize: nat)
    requires Valid(s) && SelectEnvOk(s, env, bufsize)
    ensures var t := Round(s, env);
            && (t.halted <==> TurnHalts(s.net, s.sfd, env))
            && (!t.halted ==>
                  && Valid(t) && t.sfd == s.sfd && |t.clientfd| == |s.clientfd|
                  && t.net == Turn(s.net, s.sfd, env)
                  && t.nready == 0
                  && (forall fd :: fd in t.served <==> fd in ReadyClients(s.net, env))
                  && (forall a, b :: 0 <= a < b < |t.served| ==> t.served[a] != t.served[b]))
  {
    BeforeScanReady(s, env, bufsize);
    RoundKeepsLength(s, env);
    if !BeforeScan(s, env).halted {
      ScanMeaning(s, env, bufsize);
      if !Round(s, env).halted { ScanValid(s, env, bufsize); }
    }
  }

  /** The full scan from the same state: same slots, read set, network and order of service. */
  lemma RoundIsFullScan(s: Server, env: Env, bufsize: nat)
    requires Valid(s) && SelectEnvOk(s, env, bufsize) && !BeforeScan(s, env).halted
    ensures Round(s, env).(nready := 0) == ProcessAll(BeforeScan(s, env), env.replies)
    ensures !Round(s, env).halted ==>
              Round(s, env).served == HotFds(BeforeScan(s, env).clientfd,
                                             Flags(BeforeScan(s, env).clientfd, BeforeScan(s, env).readySet), 0)
  {
    BeforeScanReady(s, env, bufsize);
    var s1 := BeforeScan(s, env);
    ProcessReadyIsProcessAll(s1, ReadyClients(s.net, env), env.replies);
    PlainMeaning(ScanOf(s1), Flags(s1.clientfd, s1.readySet), env.replies, 0);
  }

  /** The environment's promises still hold when the scan starts. */
  lemma ScanMayStart(s: Server, env: Env, bufsize: nat)
    requires Valid(s) && SelectEnvOk(s, env, bufsize) && !BeforeScan(s, env).halted
    ensures var s1 := BeforeScan(s, env);
            && s1.maxi < |s1.clientfd| && Distinct(s1.clientfd)
            && AllowedFrom(s1.clientfd, Flags(s1.clientfd, s1.readySet), s1.net, env.replies, bufsize, 0)
  {
    BeforeScanReady(s, env, bufsize);
    var s1 := BeforeScan(s, env);
    var f := Flags(s1.clientfd, s1.readySet);
    assert forall j :: 0 <= j < |f| && Hot(s1.clientfd, f, j) ==> s1.clientfd[j] in HotSet(s1.clientfd, f, 0);
  }

  lemma RoundKeepsNet(s: Server, env: Env, bufsize: nat)
    requires Valid(s) && SelectEnvOk(s, env, bufsize)
    requires StreamsOk(s.net, true) && SerialsOk(s.net)
    ensures StreamsOk(Round(s, env).net, !Round(s, env).halted) && SerialsOk(Round(s, env).net)
  {
    BeforeScanReady(s, env, bufsize);
    var s1 := BeforeScan(s, env);
    if s.sfd in env.canRead && env.accepted.Some? {
      var n := env.accepted.value;
      AcceptKeepsStreams(s.net, n.fd, n.sent, n.fin, true);
      AcceptKeepsSerials(s.net, n.fd, n.sent, n.fin);
    }
    if !s1.halted {
      ScanMayStart(s, env, bufsize);
      EagerKeepsNetOk(ScanOf(s1), Flags(s1.clientfd, s1.readySet), env.replies, 0, s1.maxi, s1.nready, bufsize);
    } else if !env.waitFails {
      assert s1.net == s.net;
    }
  }

  // ----- whole runs

  ghost predicate StepOk(s: Server, step: Step, bufsize: nat) {
    match step
    case ClientsAct(net) => ClientsMoved(s.net, net)
    case Turns(env) => SelectEnvOk(s, env, bufsize)
  }

  /** A halted process takes no further turn, whatever its clients do. */
  function Do(s: Server, step: Step): Server
    requires s.maxi < |s.clientfd|
  {
    match step
    case ClientsAct(net) => if s.halted then s else s.(net := net)
    case Turns(env) => Round(s, env)
  }

  ghost predicate Invariant(s: Server) {
    && s.maxi < |s.clientfd|
    && (s.halted || Valid(s))
    && StreamsOk(s.net, !s.halted) && SerialsOk(s.net)
  }

  lemma RoundKeepsInvariant(s: Server, env: Env, bufsize: nat)
    requires Invariant(s) && !s.halted && SelectEnvOk(s, env, bufsize)
    ensures Invariant(Round(s, env))
  {
    RoundMeaning(s, env, bufsize);
    RoundKeepsNet(s, env, bufsize);
    RoundKeepsLength(s, env);
  }

  lemma ClientsKeepValid(s: Server, net: Net)
    requires Valid(s) && net.open.Keys == s.net.open.Keys
    ensures Valid(s.(net := net))
  {
  }

  lemma ClientsKeepInvariant(s: Server, net: Net)
    requires Invariant(s) && !s.halted && ClientsMoved(s.net, net)
    ensures Invariant(s.(net := net))
  {
    ClientsKeepStreams(s.net, net, true);
    ClientsKeepSerials(s.net, net);
    ClientsKeepValid(s, net);
  }

  lemma DoKeepsInvariant(s: Server, step: Step, bufsize: nat)
    requires Invariant(s) && (s.halted || StepOk(s, step, bufsize))
    ensures Invariant(Do(s, step))
    ensures |Do(s, step).clientfd| == |s.clientfd| && Do(s, step).sfd == s.sfd
  {
    if !s.halted {
      match step {
        case ClientsAct(net) => ClientsKeepInvariant(s, net);
        case Turns(env) => RoundKeepsInvariant(s, env, bufsize); RoundKeepsLength(s, env);
      }
    }
  }

  /** trace[0] is initial and every state follows from the one before. */
  ghost predicate IsRun(trace: seq<Server>, steps: seq<Step>, sfd: int, size: nat, bufsize: nat) {
    && |trace| == |steps| + 1
    && trace[0] == Initial(sfd, size)
    && (forall k :: 0 <= k < |steps| ==>
          && trace[k].maxi < |trace[k].clientfd|
          && (trace[k].halted || StepOk(trace[k], steps[k], bufsize))
          && trace[k + 1] == Do(trace[k], steps[k]))
  }

  /**
   * Over every run: the representation invariant holds until the process halts, and
   * a slot is always free;
   * each connection's output is a prefix of what its own client sent, exactly the
   * bytes read from it, and all of it once its end of file was seen; and every
   * accepted connection is open or finished, once.
   */
  lemma {:induction false} EveryRun(trace: seq<Server>, steps: seq<Step>, sfd: int, size: nat, bufsize: nat, k: nat)
    requires IsRun(trace, steps, sfd, size, bufsize) && 0 <= sfd < size && k < |trace|
    ensures Invariant(trace[k]) && |trace[k].clientfd| == size && trace[k].sfd == sfd
    ensures !trace[k].halted ==> FirstFree(trace[k].clientfd, 0) < size
    ensures forall fd :: fd in trace[k].net.open ==> trace[k].net.open[fd].echoed <= trace[k].net.open[fd].sent
    ensures forall c :: c in trace[k].net.finished ==> c.echoed <= c.sent && (c.sawEof ==> c.echoed == c.sent)
    ensures |trace[k].net.open.Keys| + |trace[k].net.finished| == trace[k].net.accepted
  {
    if k == 0 {
      InitialValid(sfd, size);
    } else {
      EveryRun(trace, steps, sfd, size, bufsize, k - 1);
      StepInRun(trace, steps, sfd, size, bufsize, k - 1);
      DoKeepsInvariant(trace[k - 1], steps[k - 1], bufsize);
    }
    StreamsMean(trace[k].net, !trace[k].halted);
    if !trace[k].halted { NeverTooManyClients(trace[k]); }
  }

  lemma StepInRun(trace: seq<Server>, steps: seq<Step>, sfd: int, size: nat, bufsize: nat, k: nat)
    requires IsRun(trace, steps, sfd, size, bufsize) && k < |steps|
    ensures trace[k].maxi < |trace[k].clientfd| && (trace[k].halted || StepOk(trace[k], steps[k], bufsize))
    ensures trace[k + 1] == Do(trace[k], steps[k])
  {
  }

  // ----- the mark that is never lowered

  /**
   * Exactly when maxfd is in the read set, and so its largest member, after a turn:
   * it was there before the scan and was not closed by it.
   */
  lemma MaxfdExactly(s: Server, env: Env, bufsize: nat)
    requires Valid(s) && SelectEnvOk(s, env, bufsize) && !Round(s, env).halted
    ensures var s1, t, ready := BeforeScan(s, env), Round(s, env), ReadyClients(s.net, env);
            && t.maxfd == s1.maxfd && t.readSet == s1.readSet - Closing(ready, env.replies)
            && (t.maxfd in t.readSet <==> s1.maxfd in s1.readSet && s1.maxfd !in Closing(ready, env.replies))
  {
    BeforeScanReady(s, env, bufsize);
    var s1, ready := BeforeScan(s, env), ReadyClients(s.net, env);
    ProcessReadyIsProcessAll(s1, ready, env.replies);
    ProcessAllParts(s1, ready, env.replies);
  }

  /** The context with descriptor fd in slot i, told part by part. */
  predicate HasNewcomer(s: Server, t: Server, fd: int, i: int) {
    && IsFirstFree(s.clientfd, i) && t.clientfd == s.clientfd[i := fd]
    && t.readSet == s.readSet + {fd} && t.maxfd == Max(fd, s.maxfd) && t.maxi == Max(i, s.maxi)
  }

  lemma WithClientParts(s: Server, cfd: int)
    requires FirstFree(s.clientfd, 0) < |s.clientfd|
    ensures HasNewcomer(s, WithClient(s, cfd), cfd, FirstFree(s.clientfd, 0))
  {
  }

  /** A newcomer is put into the first free slot, and everything else follows from that. */
  lemma NewcomerSlot(s: Server, env: Env)
    requires Valid(s) && !BeforeScan(s, env).halted
    ensures if s.sfd in env.canRead
            then exists i :: HasNewcomer(s, BeforeScan(s, env), env.accepted.value.fd, i)
            else BeforeScan(s, env).clientfd == s.clientfd && BeforeScan(s, env).maxi == s.maxi
  {
    WaitedReady(s, env);
    if s.sfd in env.canRead {
      var n := env.accepted.value;
      AcceptedEquals(s, env);
      NeverTooManyClients(s);
      var w := Waited(s, env.canRead).(net := AcceptAs(s.net, n.fd, n.sent, n.fin));
      WithClientParts(w, n.fd);
      assert HasNewcomer(s, BeforeScan(s, env), n.fd, FirstFree(s.clientfd, 0));
    } else {
      UnacceptedEquals(s, env);
    }
  }

  lemma RoundFrees(s: Server, env: Env, bufsize: nat)
    requires Valid(s) && SelectEnvOk(s, env, bufsize) && !Round(s, env).halted
    ensures FreedFrom(BeforeScan(s, env).clientfd, Round(s, env).clientfd,
                      Closing(ReadyClients(s.net, env), env.replies))
    ensures Round(s, env).maxi == BeforeScan(s, env).maxi
    ensures InSlotOrder(Round(s, env).served, BeforeScan(s, env).clientfd)
  {
    BeforeScanReady(s, env, bufsize);
    var s1, ready := BeforeScan(s, env), ReadyClients(s.net, env);
    ProcessReadyIsProcessAll(s1, ready, env.replies);
    ProcessAllParts(s1, ready, env.replies);
    RoundIsFullScan(s, env, bufsize);
    HotFdsInSlotOrder(s1.clientfd, Flags(s1.clientfd, s1.readySet), 0);
  }

  /** Clients that were there before are in the order of the slots they had. */
  lemma OrderWithoutNewcomer(served: seq<int>, slots: seq<int>, i: nat, fd: int)
    requires i < |slots| && InSlotOrder(served, slots[i := fd]) && fd !in served
    ensures InSlotOrder(served, slots)
  {
    var slots' := slots[i := fd];
    forall a, b | 0 <= a < b < |served| ensures Before(slots, served[a], served[b]) {
      var x, y :| 0 <= x < y < |slots'| && slots'[x] == served[a] && slots'[y] == served[b];
      assert served[a] in served && served[b] in served;
      assert slots[x] == served[a] && slots[y] == served[b];
    }
  }

  /**
   * The slots after a turn, from those before it: a newcomer is in the first one that was
   * free, whoever was closed has left its slot, nothing else has changed; and the ready
   * clients were served in the order of their slots.
   */
  lemma RoundSlots(s: Server, env: Env, bufsize: nat)
    requires Valid(s) && SelectEnvOk(s, env, bufsize) && !Round(s, env).halted
    ensures var t, gone := Round(s, env), Closing(ReadyClients(s.net, env), env.replies);
            && InSlotOrder(t.served, s.clientfd)
            && if s.sfd in env.canRead
               then exists i :: IsFirstFree(s.clientfd, i) && t.maxi == Max(i, s.maxi)
                                && FreedFrom(s.clientfd[i := env.accepted.value.fd], t.clientfd, gone)
               else FreedFrom(s.clientfd, t.clientfd, gone) && t.maxi == s.maxi
  {
    BeforeScanReady(s, env, bufsize);
    NewcomerSlot(s, env);
    RoundFrees(s, env, bufsize);
    RoundMeaning(s, env, bufsize);
    if s.sfd in env.canRead {
      var fd := env.accepted.value.fd;
      var i :| HasNewcomer(s, BeforeScan(s, env), fd, i);
      FreshIsNotLive(s, fd);
      assert fd !in ReadyClients(s.net, env);
      OrderWithoutNewcomer(Round(s, env).served, s.clientfd, i, fd);
    }
  }

  /** The mark before the scan: raised by a newcomer, and never lowered. */
  lemma MarkBeforeScan(s: Server, env: Env, bufsize: nat)
    requires Valid(s) && SelectEnvOk(s, env, bufsize) && !BeforeScan(s, env).halted
    ensures BeforeScan(s, env).maxfd ==
            if s.sfd in env.canRead then Max(env.accepted.value.fd, s.maxfd) else s.maxfd
    ensures BeforeScan(s, env).readSet ==
            s.readSet + (if s.sfd in env.canRead then {env.accepted.value.fd} else {})
  {
    BeforeScanReady(s, env, bufsize);
    NewcomerSlot(s, env);
    if s.sfd !in env.canRead {
      WaitedReady(s, env);
      UnacceptedEquals(s, env);
    }
  }

  lemma MarkStep(s: Server, env: Env, bufsize: nat)
    requires Valid(s) && SelectEnvOk(s, env, bufsize) && !Round(s, env).halted
    ensures Round(s, env).maxfd >= s.maxfd
    ensures Round(s, env).maxfd == s.maxfd || Round(s, env).maxfd in Round(s, env).readSet
  {
    MaxfdExactly(s, env, bufsize);
    MarkBeforeScan(s, env, bufsize);
    if s.sfd in env.canRead {
      FreshIsNotLive(s, env.accepted.value.fd);
      assert env.accepted.value.fd !in ReadyClients(s.net, env);
    }
  }

  /** The slots in use. */
  function Used(slots: seq<int>): set<int> {
    set i | 0 <= i < |slots| && slots[i] > 0
  }

  lemma MaxiStep(s: Server, env: Env, bufsize: nat)
    requires Valid(s) && SelectEnvOk(s, env, bufsize) && !Round(s, env).halted
    ensures Round(s, env).maxi >= s.maxi
    ensures Round(s, env).maxi == s.maxi || Round(s, env).maxi in Used(Round(s, env).clientfd)
  {
    RoundSlots(s, env, bufsize);
    if s.sfd in env.canRead {
      var fd, gone := env.accepted.value.fd, Closing(ReadyClients(s.net, env), env.replies);
      var i :| IsFirstFree(s.clientfd, i) && Round(s, env).maxi == Max(i, s.maxi)
               && FreedFrom(s.clientfd[i := fd], Round(s, env).clientfd, gone);
      assert fd !in ReadyClients(s.net, env);
      assert s.clientfd[i := fd][i] == fd;
      assert Round(s, env).clientfd[i] == fd;
    }
  }

  /** One step of a run raises a mark to something in use, or leaves it. */
  lemma DoMarks(s: Server, step: Step, bufsize: nat)
    requires Invariant(s) && !s.halted && StepOk(s, step, bufsize) && !Do(s, step).halted
    ensures var t := Do(s, step);
            && t.maxfd >= s.maxfd && (t.maxfd == s.maxfd || t.maxfd in t.readSet)
            && (forall fd :: fd in t.readSet ==> fd <= t.maxfd)
            && t.maxi >= s.maxi && (t.maxi == s.maxi || t.maxi in Used(t.clientfd))
            && (forall i :: i in Used(t.clientfd) ==> i <= t.maxi)
  {
    DoKeepsInvariant(s, step, bufsize);
    if step.Turns? {
      MarkStep(s, step.env, bufsize);
      MaxiStep(s, step.env, bufsize);
    }
  }

  /** x is the largest number in any of the first k + 1 sets, or -1 if they are empty. */
  ghost predicate HighWater(sets: seq<set<int>>, k: nat, x: int)
    requires k < |sets|
  {
    && (forall j, f :: 0 <= j <= k && f in sets[j] ==> f <= x)
    && (x == -1 || exists j :: 0 <= j <= k && x in sets[j])
  }

  lemma HighWaterStep(sets: seq<set<int>>, k: nat, x: int, x': int)
    requires 0 < k < |sets| && HighWater(sets, k - 1, x) && x' >= x
    requires (forall f :: f in sets[k] ==> f <= x') && (x' == x || x' in sets[k])
    ensures HighWater(sets, k, x')
  {
    if x' == x != -1 {
      var j :| 0 <= j <= k - 1 && x in sets[j];
      assert x' in sets[j];
    }
  }

  function ReadSets(trace: seq<Server>): (r: seq<set<int>>)
    ensures |r| == |trace| && forall k :: 0 <= k < |trace| ==> r[k] == trace[k].readSet
  {
    seq(|trace|, k requires 0 <= k < |trace| => trace[k].readSet)
  }

  function UsedSlots(trace: seq<Server>): (r: seq<set<int>>)
    ensures |r| == |trace| && forall k :: 0 <= k < |trace| ==> r[k] == Used(trace[k].clientfd)
  {
    seq(|trace|, k requires 0 <= k < |trace| => Used(trace[k].clientfd))
  }

  /**
   * Over every run maxfd is the largest descriptor that was ever in the read set, and maxi
   * the largest slot that was ever in use.
   */
  lemma {:induction false} MarksOverRuns(trace: seq<Server>, steps: seq<Step>, sfd: int, size: nat, bufsize: nat,
                                         k: nat)
    requires IsRun(trace, steps, sfd, size, bufsize) && 0 <= sfd < size && k < |trace| && !trace[k].halted
    ensures HighWater(ReadSets(trace), k, trace[k].maxfd)
    ensures HighWater(UsedSlots(trace), k, trace[k].maxi)
  {
    if k == 0 {
      assert trace[0].maxfd in ReadSets(trace)[0];
    } else {
      EveryRun(trace, steps, sfd, size, bufsize, k - 1);
      StepInRun(trace, steps, sfd, size, bufsize, k - 1);
      assert !trace[k - 1].halted;
      MarksOverRuns(trace, steps, sfd, size, bufsize, k - 1);
      DoMarks(trace[k - 1], steps[k - 1], bufsize);
      HighWaterStep(ReadSets(trace), k, trace[k - 1].maxfd, trace[k].maxfd);
      HighWaterStep(UsedSlots(trace), k, trace[k - 1].maxi, trace[k].maxi);
    }
  }

  // ----- each client's input over whole runs

  lemma RoundKeepsInputs(s: Server, env: Env, bufsize: nat)
    requires Valid(s) && SelectEnvOk(s, env, bufsize) && !Round(s, env).halted
    ensures InputsKept(Admit(s.net, s.sfd, env), Round(s, env).net)
  {
    BeforeScanReady(s, env, bufsize);
    ScanMayStart(s, env, bufsize);
    var s1 := BeforeScan(s, env);
    EagerKeepsInputs(ScanOf(s1), Flags(s1.clientfd, s1.readySet), env.replies, 0, s1.maxi, s1.nready, bufsize);
  }

  lemma DoKeepsInputs(s: Server, steps: seq<Step>, k: nat, bufsize: nat)
    requires Invariant(s) && !s.halted && k < |steps| && StepOk(s, steps[k], bufsize) && !Do(s, steps[k]).halted
    requires InputsAre(s.net, steps, s.sfd, k)
    ensures InputsAre(Do(s, steps[k]).net, steps, s.sfd, k + 1)
  {
    match steps[k] {
      case ClientsAct(net) => ClientsKeepInputs(s.net, net, steps, s.sfd, k);
      case Turns(env) =>
        RoundKeepsInputs(s, env, bufsize);
        RoundMeaning(s, env, bufsize);
        TurnKeepsInputs(s.net, Round(s, env).net, env, steps, s.sfd, k);
    }
  }

  lemma InputsAt(trace: seq<Server>, steps: seq<Step>, sfd: int, size: nat, bufsize: nat, k: nat)
    requires IsRun(trace, steps, sfd, size, bufsize) && 0 <= sfd < size && k < |steps| && !trace[k + 1].halted
    ensures !trace[k].halted
    ensures InputsAre(trace[k].net, steps, sfd, k) ==> InputsAre(trace[k + 1].net, steps, sfd, k + 1)
  {
    EveryRun(trace, steps, sfd, size, bufsize, k);
    StepInRun(trace, steps, sfd, size, bufsize, k);
    var s := trace[k];
    assert !s.halted;
    if InputsAre(s.net, steps, sfd, k) { DoKeepsInputs(s, steps, k, bufsize); }
  }

  lemma {:induction false} InputsKeptOverRuns(trace: seq<Server>, steps: seq<Step>, sfd: int, size: nat,
                                              bufsize: nat, k: nat)
    requires IsRun(trace, steps, sfd, size, bufsize) && 0 <= sfd < size && k < |trace| && !trace[k].halted
    ensures InputsAre(trace[k].net, steps, sfd, k)
  {
    if k > 0 {
      InputsAt(trace, steps, sfd, size, bufsize, k - 1);
      InputsKeptOverRuns(trace, steps, sfd, size, bufsize, k - 1);
    }
  }

  /**
   * Over every run: connection number m has the input that the steps give to the m-th
   * client admitted, and what was echoed to it comes from that client.
   */
  lemma InputsOverRuns(trace: seq<Server>, steps: seq<Step>, sfd: int, size: nat, bufsize: nat, k: nat)
    requires IsRun(trace, steps, sfd, size, bufsize) && 0 <= sfd < size && k < |trace| && !trace[k].halted
    ensures InputsAre(trace[k].net, steps, sfd, k) && EchoesAre(trace[k].net, steps, sfd, k)
  {
    EveryRun(trace, steps, sfd, size, bufsize, k);
    InputsKeptOverRuns(trace, steps, sfd, size, bufsize, k);
    InputsAreEchoed(trace[k].net, steps, sfd, k);
  }

  /** A turn that admits a client who sends nothing at all. */
  function Arrival(sfd: int, fd: int): Env {
    Env({sfd}, {}, false, Some(Newcomer(fd, [], true)), _ => Reply(Fail, -1))
  }

  /** The turn in which that client's end of file is read. */
  function Departure(fd: int): Env {
    Env({fd}, {}, false, None, _ => Reply(Eof, 0))
  }

  lemma ReadSetIs(s: Server)
    requires Valid(s)
    ensures s.readSet == {s.sfd} + s.net.open.Keys
  {
  }

  lemma ArrivalNet(net: Net, sfd: int, fd: int)
    requires net == Net(map[], {}, 0)
    ensures EventLoop.Turn(net, sfd, Arrival(sfd, fd)).open == map[fd := Conn(0, [], true, 0, [], false)]
    ensures !TurnHalts(net, sfd, Arrival(sfd, fd))
  {
    assert ReadyClients(net, Arrival(sfd, fd)) == {};
    ServeAllNone(Admit(net, sfd, Arrival(sfd, fd)), Arrival(sfd, fd).replies);
  }

  lemma ArrivalTurn(sfd: int, fd: int, size: nat)
    requires 0 <= sfd < fd < size
    ensures var s0, env := Initial(sfd, size), Arrival(sfd, fd);
            && SelectEnvOk(s0, env, 1)
            && var s := Round(s0, env);
               && Valid(s) && s.sfd == sfd && s.maxfd == fd && |s.clientfd| == size
               && s.net.open == map[fd := Conn(0, [], true, 0, [], false)]
  {
    var s0, env := Initial(sfd, size), Arrival(sfd, fd);
    InitialValid(sfd, size);
    RoundMeaning(s0, env, 1);
    MaxfdExactly(s0, env, 1);
    MarkBeforeScan(s0, env, 1);
    ArrivalNet(s0.net, sfd, fd);
  }

  lemma DepartureTurn(s: Server, fd: int)
    requires Valid(s) && s.sfd != fd && s.maxfd == fd && s.net.open == map[fd := Conn(0, [], true, 0, [], false)]
    ensures SelectEnvOk(s, Departure(fd), 1)
    ensures var t := Round(s, Departure(fd)); !t.halted && t.maxfd == fd && t.readSet == {s.sfd}
  {
    RoundMeaning(s, Departure(fd), 1);
    MaxfdExactly(s, Departure(fd), 1);
    MarkBeforeScan(s, Departure(fd), 1);
    ReadSetIs(s);
  }

  /** A run of two turns after which maxfd is larger than every descriptor in the read set. */
  lemma MaxfdIsStale(sfd: int, fd: int, size: nat)
    requires 0 <= sfd < fd < size
    ensures var s0, e1, e2 := Initial(sfd, size), Arrival(sfd, fd), Departure(fd);
            && SelectEnvOk(s0, e1, 1)
            && var s1 := Round(s0, e1);
               && Valid(s1) && SelectEnvOk(s1, e2, 1)
               && var s2 := Round(s1, e2);
                  !s2.halted && s2.maxfd == fd && s2.readSet == {sfd}
  {
    ArrivalTurn(sfd, fd, size);
    DepartureTurn(Round(Initial(sfd, size), Arrival(sfd, fd)), fd);
  }

  /** The state when the scan stops at slot i. */
  lemma ScanEnds(s: Server, replies: Replies, goal: (Scan, int), sc: Scan, i: nat, left: int)
    requires s.maxi < |s.clientfd| == |sc.slots| && (i > s.maxi || left <= 0 || sc.halted)
    requires goal == Eager(ScanOf(s), Flags(s.clientfd, s.readySet), replies, 0, s.maxi, s.nready)
    requires goal == Eager(sc, Flags(s.clientfd, s.readySet), replies, i, s.maxi, left)
    ensures ProcessReady(s, replies) == After(s, sc, left)
  {
  }

  // ----- the loop itself, on the mutable context

  class Context {
    var maxfd: int
    var readSet: set<int>
    var readySet: set<int>
    var nready: int
    var maxi: int
    const clientfd: array<int>
    const sfd: int
    const kernel: Kernel
    ghost var served: seq<int>
    var halted: bool

    ghost function State(): Server
      reads this, clientfd, kernel
    {
      Server(maxfd, readSet, readySet, nready, maxi, clientfd[..], sfd, kernel.net, served, halted)
    }

    constructor (sfd: int, size: nat, kernel: Kernel)
      requires kernel.net == Net(map[], {}, 0)
      ensures this.kernel == kernel && fresh(clientfd)
      ensures State() == Initial(sfd, size)
    {
      this.sfd := sfd;
      this.kernel := kernel;
      this.clientfd := new int[size];
      maxi := -1;
      readySet, nready, served, halted := {}, 0, [], false;
      maxfd := sfd;
      readSet := {sfd};
      new;
      for i := 0 to size
        invariant forall j :: 0 <= j < i ==> clientfd[j] == -1
        invariant maxi == -1 && maxfd == sfd && readSet == {sfd} && readySet == {} && nready == 0
        invariant served == [] && !halted && kernel.net == Net(map[], {}, 0)
        modifies clientfd
      {
        clientfd[i] := -1;
      }
      assert clientfd[..] == seq(size, _ => -1);
    }

    method AddClient(cfd: int)
      requires !halted
      modifies this, clientfd
      ensures State() == WithClient(old(State()), cfd)
    {
      nready := nready - 1;
      var i := 0;
      ghost var slots := clientfd[..];
      while i < clientfd.Length
        invariant 0 <= i <= clientfd.Length
        invariant clientfd[..] == slots
        invariant FirstFree(slots, i) == FirstFree(slots, 0)
        invariant State() == old(State()).(nready := nready) && nready == old(nready) - 1
      {
        if clientfd[i] < 0 {
          assert i == FirstFree(slots, 0);
          clientfd[i] := cfd;
          assert clientfd[..] == slots[i := cfd];
          readSet := readSet + {cfd};
          maxfd := Max(cfd, maxfd);
          maxi := Max(i, maxi);
          return;
        }
        i := i + 1;
      }
      halted := true;
    }

    /**
     * The body of the scan for a slot that is to be served. The one buffer serves
     * all clients; only the bytes just read are written back.
     */
    method ServeClient(i: nat, buffer: array<Byte>, reply: Reply,
                       ghost sc: Scan, ghost replies: Replies, ghost watched: set<int>)
      requires !halted && i < clientfd.Length && reply == replies(clientfd[i]) && buffer != clientfd as object
      requires sc.slots == clientfd[..] && sc.net == kernel.net && sc.served == served
      requires readSet == watched - sc.cleared
      requires clientfd[i] in kernel.net.open ==> Allowed(kernel.net.open[clientfd[i]], reply, buffer.Length)
      modifies this, clientfd, kernel, buffer
      ensures var next := ServeSlot(sc, i, replies);
              && clientfd[..] == next.slots && kernel.net == next.net
              && served == next.served && halted == next.halted
              && readSet == watched - next.cleared
      ensures nready == old(nready) - 1 && maxi == old(maxi) && maxfd == old(maxfd) && readySet == old(readySet)
    {
      var cfd := clientfd[i];
      nready := nready - 1;
      served := served + [cfd];
      var answer := if cfd in kernel.net.open then reply.read else Fail;
      var n := kernel.Read(cfd, buffer, answer);
      if n > 0 {
        var w := kernel.Write(cfd, buffer, n, reply.written);
        assert buffer[..Transferred(reply.written, n)] == buffer[..n][..Transferred(reply.written, n)];
        if w != n {
          halted := true;
        }
      } else {
        kernel.Close(cfd);
        readSet := readSet - {cfd};
        clientfd[i] := -1;
      }
    }

    /** The parts of the context that the scan leaves alone, and those that sc tells. */
    ghost predicate At(s: Server, sc: Scan)
      reads this, clientfd, kernel
    {
      && maxi == s.maxi && maxfd == s.maxfd && readySet == s.readySet && sfd == s.sfd
      && clientfd[..] == sc.slots && kernel.net == sc.net && served == sc.served && halted == sc.halted
      && readSet == s.readSet - sc.cleared
    }

    /**
     * The scan that began in state s has reached slot i: what is still to come leads to
     * `goal`, and the kernel keeps its promises for it.
     */
    ghost predicate Scanning(s: Server, goal: (Scan, int), sc: Scan, replies: Replies, bufsize: nat, i: nat)
      reads this, clientfd, kernel
    {
      var flags := Flags(s.clientfd, s.readySet);
      && At(s, sc) && |sc.slots| == |s.clientfd| && maxi < |sc.slots|
      && (forall j :: i <= j < |sc.slots| ==> sc.slots[j] == s.clientfd[j])
      && goal == Eager(sc, flags, replies, i, maxi, nready)
      && Distinct(sc.slots) && AllowedFrom(sc.slots, flags, sc.net, replies, bufsize, i)
    }

    /** The body of the scan: serve the slot if it holds a ready descriptor. */
    method VisitSlot(i: nat, buffer: array<Byte>, replies: Replies,
                     ghost s: Server, ghost goal: (Scan, int), ghost sc: Scan)
      returns (ghost next: Scan)
      requires Scanning(s, goal, sc, replies, buffer.Length, i) && !halted && i <= maxi && nready > 0
      requires buffer != clientfd as object
      modifies this, clientfd, kernel, buffer
      ensures Scanning(s, goal, next, replies, buffer.Length, i + 1)
      ensures maxi == old(maxi)
    {
      ghost var flags := Flags(s.clientfd, s.readySet);
      var cfd := clientfd[i];
      assert cfd == sc.slots[i] && flags[i] == (cfd in readySet);
      AllowedNext(sc, flags, replies, buffer.Length, i);
      EagerStep(sc, flags, replies, i, maxi, nready);
      next := sc;
      if cfd > 0 && cfd in readySet {
        assert Hot(sc.slots, flags, i);
        next := ServeSlot(sc, i, replies);
        ServeClient(i, buffer, replies(cfd), sc, replies, s.readSet);
      }
    }

    method ProcessReadyClients(replies: Replies, bufsize: nat)
      requires maxi < clientfd.Length && !halted
      requires AllowedFrom(clientfd[..], Flags(clientfd[..], readySet), kernel.net, replies, bufsize, 0)
      requires Distinct(clientfd[..])
      modifies this, clientfd, kernel
      ensures State() == ProcessReady(old(State()), replies)
    {
      var buffer := new Byte[bufsize];
      ghost var s, sc := State(), ScanOf(State());
      ghost var goal := Eager(sc, Flags(s.clientfd, s.readySet), replies, 0, maxi, nready);
      served := [];
      var i := 0;
      while i <= maxi && nready > 0 && !halted
        invariant 0 <= i && Scanning(s, goal, sc, replies, bufsize, i)
        decreases maxi - i
      {
        sc := VisitSlot(i, buffer, replies, s, goal, sc);
        i := i + 1;
      }
      ScanEnds(s, replies, goal, sc, i, nready);
    }

    /** Waiting for events and accepting: the part of the loop body before the scan. */
    method WaitAndAccept(env: Env)
      requires !halted
      modifies this, clientfd, kernel
      ensures State() == BeforeScan(old(State()), env)
    {
      served := [];
      readySet := readSet;
      if env.waitFails {
        nready := -1;
        halted := true;
        return;
      }
      readySet := SelectReturns(readySet, maxfd + 1, env.canRead);
      nready := |readySet|;
      if sfd in readySet {
        if env.accepted.None? {
          halted := true;
          return;
        }
        var n := env.accepted.value;
        kernel.Accept(n.fd, n.sent, n.fin);
        AddClient(n.fd);
      }
    }

    /** The body of the endless loop in main(). */
    method Turn(env: Env, bufsize: nat)
      requires Valid(State()) && SelectEnvOk(State(), env, bufsize)
      modifies this, clientfd, kernel
      ensures State() == Round(old(State()), env)
      ensures !halted ==> Valid(State()) && nready == 0 && kernel.net == EventLoop.Turn(old(kernel.net), sfd, env)
    {
      ghost var s := State();
      RoundMeaning(s, env, bufsize);
      WaitAndAccept(env);
      if !halted {
        ScanMayStart(s, env, bufsize);
        ProcessReadyClients(env.replies, bufsize);
      }
    }
  }
}

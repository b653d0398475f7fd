/**
 * The kernel's side of the echo servers: which connections are open, what each
 * client has sent, how much of it was read, and what was written back.
 * Every answer the kernel may give (how many bytes a read returns, whether a
 * write is short) is a parameter, so statements range over all kernels.
 */
module Connections {
  import opened Prelude

  /**
   * One accepted connection. `sent` is everything the client has sent so far,
   * `fin` says that it will send no more; `taken` counts the bytes already read
   * by the server and `echoed` is what the server wrote back. `sawEof` records
   * that a read returned 0. `serial` numbers connections in order of acceptance,
   * because descriptors are reused.
   */
  datatype Conn = Conn(serial: nat, sent: seq<Byte>, fin: bool, taken: nat, echoed: seq<Byte>, sawEof: bool)

  /** What read() answers: n > 0 bytes, 0, or -1. */
  datatype ReadReply = Data(bytes: seq<Byte>) | Eof | Fail

  /** The kernel's answers while one descriptor is served: read(), then write(). */
  datatype Reply = Reply(read: ReadReply, written: int)

  type Replies = int -> Reply

  datatype Net = Net(open: map<int, Conn>, finished: set<Conn>, accepted: nat)

  /** What a read of at most `bufsize` bytes may answer on connection c. */
  predicate Allowed(c: Conn, r: Reply, bufsize: nat) {
    match r.read
    case Data(b) => 0 < |b| <= bufsize && c.taken + |b| <= |c.sent| && b == c.sent[c.taken..c.taken + |b|]
                    && -1 <= r.written <= |b|
    case Eof => c.fin && c.taken == |c.sent|
    case Fail => true
  }

  /** Reading a descriptor that is no open connection fails. */
  function Answer(net: Net, fd: int, r: ReadReply): ReadReply {
    if fd in net.open then r else Fail
  }

  function ReadFrom(net: Net, fd: int, r: ReadReply): Net {
    if fd !in net.open then net else
    match r
    case Data(b) => net.(open := net.open[fd := net.open[fd].(taken := net.open[fd].taken + |b|)])
    case Eof => net.(open := net.open[fd := net.open[fd].(sawEof := true)])
    case Fail => net
  }

  function WriteTo(net: Net, fd: int, bytes: seq<Byte>): Net {
    if fd !in net.open then net else
    net.(open := net.open[fd := net.open[fd].(echoed := net.open[fd].echoed + bytes)])
  }

  function CloseFd(net: Net, fd: int): Net {
    if fd !in net.open then net else
    net.(open := net.open - {fd}, finished := net.finished + {net.open[fd]})
  }

  function AcceptAs(net: Net, fd: int, sent: seq<Byte>, fin: bool): Net {
    net.(open := net.open[fd := Conn(net.accepted, sent, fin, 0, [], false)], accepted := net.accepted + 1)
  }

  /** How many of n offered bytes a write() answering `written` transferred. */
  function Transferred(written: int, n: nat): nat {
    if written < 0 then 0 else if written > n then n else written
  }

  /** The write that follows the read of fd is not complete, which ends the process. */
  predicate Short(net: Net, fd: int, r: Reply) {
    var a := Answer(net, fd, r.read);
    a.Data? && r.written != |a.bytes|
  }

  /** The connection gets data, and write() does not take all of it. */
  predicate FallsShort(net: Net, fd: int, r: Reply) {
    fd in net.open && r.read.Data? && r.written != |r.read.bytes|
  }

  /** One service of fd: read, then echo what was read or close. */
  function Serve(net: Net, fd: int, r: Reply): Net {
    var net1 := ReadFrom(net, fd, r.read);
    match Answer(net, fd, r.read)
    case Data(b) => WriteTo(net1, fd, b[..Transferred(r.written, |b|)])
    case _ => CloseFd(net1, fd)
  }

  /**
   * What a service with data b and a write that answers w leaves behind: everything was
   * taken from the client, and exactly the first w bytes went back, none on an error.
   */
  lemma ServeWrites(net: Net, fd: int, b: seq<Byte>, w: int)
    requires fd in net.open && -1 <= w <= |b|
    ensures var c, net' := net.open[fd], Serve(net, fd, Reply(Data(b), w));
            && net'.open == net.open[fd := net'.open[fd]] && net'.finished == net.finished
            && net'.open[fd] == c.(taken := c.taken + |b|, echoed := c.echoed + if w == -1 then [] else b[..w])
  {
  }

  // ----- what holds of every reachable network state

  predicate FaithfulSoFar(c: Conn) {
    c.taken <= |c.sent| && c.echoed == c.sent[..c.taken]
  }

  /** A connection after its process may have stopped in the middle of a write. */
  predicate Prefixed(c: Conn) {
    c.taken <= |c.sent| && c.echoed <= c.sent[..c.taken] && (c.sawEof ==> c.echoed == c.sent)
  }

  ghost predicate StreamsOk(net: Net, running: bool) {
    && (forall fd :: fd in net.open ==> Prefixed(net.open[fd]) && !net.open[fd].sawEof)
    && (forall c :: c in net.finished ==> Prefixed(c) && FaithfulSoFar(c))
    && (running ==> forall fd :: fd in net.open ==> FaithfulSoFar(net.open[fd]))
  }

  lemma StreamsMean(net: Net, running: bool)
    requires StreamsOk(net, running)
    ensures forall fd :: fd in net.open ==> net.open[fd].echoed <= net.open[fd].sent
    ensures forall c :: c in net.finished ==> c.echoed <= c.sent && (c.sawEof ==> c.echoed == c.sent)
  {
    forall fd | fd in net.open ensures net.open[fd].echoed <= net.open[fd].sent {
      assert Prefixed(net.open[fd]);
    }
    forall c | c in net.finished ensures c.echoed <= c.sent && (c.sawEof ==> c.echoed == c.sent) {
      assert Prefixed(c);
    }
  }

  /** Serial numbers identify connections: no two of them, open or finished, share one. */
  ghost predicate SerialsDistinct(open: map<int, Conn>, finished: set<Conn>) {
    && (forall f, g :: f in open && g in open && f != g ==> open[f].serial != open[g].serial)
    && (forall c, d :: c in finished && d in finished && c != d ==> c.serial != d.serial)
    && (forall fd, c :: fd in open && c in finished ==> open[fd].serial != c.serial)
  }

  ghost predicate SerialsBounded(open: map<int, Conn>, finished: set<Conn>, n: nat) {
    && (forall fd :: fd in open ==> open[fd].serial < n)
    && (forall c :: c in finished ==> c.serial < n)
  }

  /** Every accepted connection is open or finished, exactly once. */
  ghost predicate SerialsOk(net: Net) {
    && SerialsDistinct(net.open, net.finished)
    && SerialsBounded(net.open, net.finished, net.accepted)
    && |net.open.Keys| + |net.finished| == net.accepted
  }

  lemma UpdateKeepsDistinct(open: map<int, Conn>, finished: set<Conn>, fd: int, c: Conn)
    requires SerialsDistinct(open, finished) && fd in open && c.serial == open[fd].serial
    ensures SerialsDistinct(open[fd := c], finished)
  {
  }

  lemma CloseKeepsDistinct(open: map<int, Conn>, finished: set<Conn>, fd: int)
    requires SerialsDistinct(open, finished) && fd in open
    ensures SerialsDistinct(open - {fd}, finished + {open[fd]})
  {
  }

  lemma AddKeepsDistinct(open: map<int, Conn>, finished: set<Conn>, fd: int, c: Conn)
    requires SerialsDistinct(open, finished) && SerialsBounded(open, finished, c.serial)
    ensures SerialsDistinct(open[fd := c], finished)
  {
  }

  lemma ServeKeepsStreams(net: Net, fd: int, r: Reply, bufsize: nat)
    requires StreamsOk(net, true)
    requires fd in net.open ==> Allowed(net.open[fd], r, bufsize)
    ensures StreamsOk(Serve(net, fd, r), !Short(net, fd, r))
  {
    if fd in net.open && r.read.Data? {
      var c, b := net.open[fd], r.read.bytes;
      var w := Transferred(r.written, |b|);
      var d := Serve(net, fd, r).open[fd];
      assert c.sent[..c.taken] + b == c.sent[..c.taken + |b|];
      assert c.echoed + b[..w] == c.sent[..c.taken + w];
    }
  }

  lemma UpdateKeepsSerials(net: Net, fd: int, c: Conn)
    requires SerialsOk(net) && fd in net.open && c.serial == net.open[fd].serial
    ensures SerialsOk(net.(open := net.open[fd := c]))
  {
    UpdateKeepsDistinct(net.open, net.finished, fd, c);
    assert net.open[fd := c].Keys == net.open.Keys;
  }

  lemma CloseKeepsSerials(net: Net, fd: int)
    requires SerialsOk(net)
    ensures SerialsOk(CloseFd(net, fd))
  {
    if fd in net.open {
      CloseKeepsDistinct(net.open, net.finished, fd);
      assert (net.open - {fd}).Keys == net.open.Keys - {fd};
      assert net.open[fd] !in net.finished;
    }
  }

  lemma ServeKeepsSerials(net: Net, fd: int, r: Reply)
    requires SerialsOk(net)
    ensures SerialsOk(Serve(net, fd, r))
  {
    if fd in net.open {
      var net1 := ReadFrom(net, fd, r.read);
      if !r.read.Fail? { UpdateKeepsSerials(net, fd, net1.open[fd]); }
      if r.read.Data? {
        UpdateKeepsSerials(net1, fd, Serve(net, fd, r).open[fd]);
      } else {
        CloseKeepsSerials(net1, fd);
      }
    }
  }

  lemma AcceptKeepsSerials(net: Net, fd: int, sent: seq<Byte>, fin: bool)
    requires SerialsOk(net) && fd !in net.open
    ensures SerialsOk(AcceptAs(net, fd, sent, fin))
  {
    AddKeepsDistinct(net.open, net.finished, fd, Conn(net.accepted, sent, fin, 0, [], false));
    assert AcceptAs(net, fd, sent, fin).open.Keys == net.open.Keys + {fd};
  }

  lemma AcceptKeepsStreams(net: Net, fd: int, sent: seq<Byte>, fin: bool, running: bool)
    requires StreamsOk(net, running)
    ensures StreamsOk(AcceptAs(net, fd, sent, fin), running)
  {
  }

  // ----- what the clients may do between two turns of a server

  /** A client may send more and may stop sending; nothing else changes. */
  predicate ClientMoved(c: Conn, d: Conn) {
    && c.sent <= d.sent
    && (c.fin ==> d.fin && d.sent == c.sent)
    && d == c.(sent := d.sent, fin := d.fin)
  }

  ghost predicate ClientsMoved(net: Net, net': Net) {
    && net'.open.Keys == net.open.Keys
    && net' == net.(open := net'.open)
    && (forall fd :: fd in net.open ==> ClientMoved(net.open[fd], net'.open[fd]))
  }

  lemma ClientsKeepStreams(net: Net, net': Net, running: bool)
    requires StreamsOk(net, running) && ClientsMoved(net, net')
    ensures StreamsOk(net', running)
  {
    forall fd | fd in net'.open
      ensures Prefixed(net'.open[fd]) && (running ==> FaithfulSoFar(net'.open[fd]))
    {
      var c, d := net.open[fd], net'.open[fd];
      assert ClientMoved(c, d);
      assert d.sent[..c.taken] == c.sent[..c.taken];
    }
  }

  lemma ClientsKeepSerials(net: Net, net': Net)
    requires SerialsOk(net) && ClientsMoved(net, net')
    ensures SerialsOk(net')
  {
    assert forall fd :: fd in net.open ==> net'.open[fd].serial == net.open[fd].serial;
  }

  // ----- whose input is whose

  /** All connections there ever were. */
  function Conns(net: Net): set<Conn> {
    (set fd | fd in net.open :: net.open[fd]) + net.finished
  }

  /** Accepted connections are numbered from 0, and no two have the same number. */
  lemma SerialsOfConns(net: Net, c: Conn)
    requires SerialsOk(net) && c in Conns(net)
    ensures c.serial < net.accepted
    ensures forall fd :: fd in net.open && net.open[fd].serial == c.serial ==> net.open[fd] == c
  {
    if c !in net.finished {
      var f :| f in net.open && net.open[f] == c;
    }
  }

  predicate SameInput(c: Conn, d: Conn) {
    c.serial == d.serial && c.sent == d.sent && c.fin == d.fin
  }

  /** Every connection of net was there in base, with the same input. */
  ghost predicate InputsKept(base: Net, net: Net) {
    forall c :: c in Conns(net) ==> exists b :: b in Conns(base) && SameInput(b, c)
  }

  /** Nothing the server does to a connection changes what its client has sent. */
  lemma ServeKeepsInputs(base: Net, net: Net, fd: int, r: Reply)
    requires InputsKept(base, net)
    ensures InputsKept(base, Serve(net, fd, r))
  {
    var net' := Serve(net, fd, r);
    forall c | c in Conns(net') ensures exists b :: b in Conns(base) && SameInput(b, c) {
      if c !in Conns(net) {
        assert fd in net.open && net.open[fd] in Conns(net);
        assert SameInput(net.open[fd], c);
        var b :| b in Conns(base) && SameInput(b, net.open[fd]);
        assert SameInput(b, c);
      }
    }
  }

  // ----- the service of a whole set of descriptors, with no order

  function Echoed(c: Conn, b: seq<Byte>): Conn {
    c.(taken := c.taken + |b|, echoed := c.echoed + b)
  }

  function Ended(c: Conn, r: ReadReply): Conn {
    if r.Eof? then c.(sawEof := true) else c
  }

  /**
   * The state after every descriptor in fds was served completely. It is a map
   * comprehension: no slot array, no order, no counter.
   */
  function ServeAll(net: Net, fds: set<int>, replies: Replies): Net {
    net.(
      open := map fd | fd in net.open && (fd in fds ==> replies(fd).read.Data?) ::
                if fd in fds then Echoed(net.open[fd], replies(fd).read.bytes) else net.open[fd],
      finished := net.finished +
                  set fd | fd in net.open && fd in fds && !replies(fd).read.Data? ::
                    Ended(net.open[fd], replies(fd).read))
  }

  lemma ServeAllNone(net: Net, replies: Replies)
    ensures ServeAll(net, {}, replies) == net
  {
    assert ServeAll(net, {}, replies).open == net.open;
  }

  /** Serving one descriptor first and the others after is serving them all. */
  lemma ServeAllStep(net: Net, fd: int, fds: set<int>, replies: Replies)
    requires fd !in fds && fd in net.open && !Short(net, fd, replies(fd))
    ensures ServeAll(Serve(net, fd, replies(fd)), fds, replies) == ServeAll(net, {fd} + fds, replies)
  {
    var one := Serve(net, fd, replies(fd));
    var a, b := ServeAll(one, fds, replies), ServeAll(net, {fd} + fds, replies);
    assert forall f :: f != fd ==> (f in one.open <==> f in net.open);
    assert forall f :: f != fd && f in net.open ==> one.open[f] == net.open[f];
    if replies(fd).read.Data? {
      var bytes := replies(fd).read.bytes;
      assert bytes[..|bytes|] == bytes;
      assert one.open[fd] == Echoed(net.open[fd], bytes);
    } else {
      assert one.finished == net.finished + {Ended(net.open[fd], replies(fd).read)};
    }
    assert a.open == b.open;
    forall c ensures c in a.finished <==> c in b.finished {
      if c in b.finished && c !in net.finished {
        var f :| f in net.open && f in {fd} + fds && !replies(f).read.Data? && c == Ended(net.open[f], replies(f).read);
        if f != fd { assert f in one.open && f in fds && c == Ended(one.open[f], replies(f).read); }
      }
      if c in a.finished && c !in one.finished {
        var f :| f in one.open && f in fds && !replies(f).read.Data? && c == Ended(one.open[f], replies(f).read);
        assert f in net.open && f in {fd} + fds && c == Ended(net.open[f], replies(f).read);
      }
    }
  }
}

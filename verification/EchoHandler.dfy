/**
 * handle_connection() of servers/threaded.c, servers/forking.c and
 * servers/prethreaded.c: one echo loop, three ways to leave it.
 */
module EchoHandler {
  import opened Prelude
  import opened Connections
  import opened SystemCalls

  /** Whether the loop goes on, and otherwise how it is left. */
  datatype Outcome = GoesOn | AtEof | ReadFailed | WriteShort

  /** One round of the loop: read, then echo what was read. */
  function EchoOnce(c: Conn, reply: Reply): (Conn, Outcome) {
    match reply.read
    case Data(b) =>
      if reply.written == |b| then (Echoed(c, b), GoesOn)
      else (c.(taken := c.taken + |b|, echoed := c.echoed + b[..Transferred(reply.written, |b|)]), WriteShort)
    case Eof => (c.(sawEof := true), AtEof)
    case Fail => (c, ReadFailed)
  }

  /**
   * The connection after the loop, given the kernel's answers to successive reads
   * and writes; the loop is still running when the answers end first.
   */
  function EchoAll(c: Conn, script: seq<Reply>): (Conn, Outcome)
    decreases |script|
  {
    if script == [] then (c, GoesOn) else
    var (d, out) := EchoOnce(c, script[0]);
    if out.GoesOn? then EchoAll(d, script[1..]) else (d, out)
  }

  /** Each answer is one the kernel may give at that point. */
  ghost predicate ScriptOk(c: Conn, script: seq<Reply>, bufsize: nat)
    decreases |script|
  {
    script == [] ||
    (Allowed(c, script[0], bufsize) &&
     (script[0].read.Data? ==> ScriptOk(Echoed(c, script[0].read.bytes), script[1..], bufsize)))
  }

  /** A round keeps the echo a prefix of the input, and a complete one up to a short write. */
  lemma EchoOnceFaithful(c: Conn, reply: Reply, bufsize: nat)
    requires FaithfulSoFar(c) && !c.sawEof && Allowed(c, reply, bufsize)
    ensures var (d, out) := EchoOnce(c, reply);
            && d.sent == c.sent && d.fin == c.fin && Prefixed(d) && c.echoed <= d.echoed
            && (out == AtEof <==> d.sawEof) && (d.sawEof ==> d.fin)
            && (out != WriteShort ==> FaithfulSoFar(d))
  {
    if reply.read.Data? {
      var b := reply.read.bytes;
      var w := Transferred(reply.written, |b|);
      assert b == c.sent[c.taken..c.taken + |b|];
      assert c.sent[..c.taken] + b == c.sent[..c.taken + |b|];
      assert c.echoed + b[..w] == c.sent[..c.taken + w];
    }
  }

  /** The client gets back a prefix of what it sent, and everything when its end of file was reached. */
  lemma {:induction false} EchoAllFaithful(c: Conn, script: seq<Reply>, bufsize: nat)
    requires FaithfulSoFar(c) && !c.sawEof && ScriptOk(c, script, bufsize)
    ensures var (d, out) := EchoAll(c, script);
            && d.sent == c.sent && Prefixed(d) && c.echoed <= d.echoed
            && (out == AtEof <==> d.sawEof)
            && (out == AtEof ==> d.echoed == d.sent)
            && (out != WriteShort ==> FaithfulSoFar(d))
    decreases |script|
  {
    if script != [] {
      EchoOnceFaithful(c, script[0], bufsize);
      var (d, out) := EchoOnce(c, script[0]);
      if out.GoesOn? { EchoAllFaithful(d, script[1..], bufsize); }
    }
  }

  /** The read got data and the write took all of it. */
  predicate Complete(r: Reply) {
    r.read.Data? && r.written == |r.read.bytes|
  }

  function AllBytes(script: seq<Reply>): seq<Byte>
    requires forall i :: 0 <= i < |script| ==> Complete(script[i])
  {
    if script == [] then [] else assert Complete(script[0]); script[0].read.bytes + AllBytes(script[1..])
  }

  /** How an answer that is not complete ends the loop. */
  function EndedBy(c: Conn, r: Reply): (Conn, Outcome)
    requires !Complete(r) && (r.read.Data? ==> -1 <= r.written < |r.read.bytes|)
  {
    match r.read
    case Data(b) =>
      (c.(taken := c.taken + |b|, echoed := c.echoed + if r.written == -1 then [] else b[..r.written]), WriteShort)
    case Eof => (c.(sawEof := true), AtEof)
    case Fail => (c, ReadFailed)
  }

  /**
   * The loop goes on exactly as long as the answers are complete: the bytes of the first m
   * answers are echoed, and the next one, if there is one, ends the loop in its own way.
   */
  lemma {:induction false} EchoAllExactly(c: Conn, script: seq<Reply>, m: nat)
    requires m <= |script| && (forall i :: 0 <= i < m ==> Complete(script[i]))
    requires m < |script| ==>
               !Complete(script[m]) && (script[m].read.Data? ==> -1 <= script[m].written < |script[m].read.bytes|)
    ensures var all := AllBytes(script[..m]);
            var d := c.(taken := c.taken + |all|, echoed := c.echoed + all);
            EchoAll(c, script) == if m == |script| then (d, GoesOn) else EndedBy(d, script[m])
    decreases m
  {
    if m == 0 {
      assert script[..0] == [] && c.echoed + [] == c.echoed;
    } else {
      var b, rest := script[0].read.bytes, script[1..][..m - 1];
      assert Complete(script[0]) && script[..m][1..] == rest;
      EchoAllExactly(Echoed(c, b), script[1..], m - 1);
      assert (c.echoed + b) + AllBytes(rest) == c.echoed + (b + AllBytes(rest));
    }
  }

  /** What the i-th answer does to the rest of the loop. */
  lemma NextRound(c: Conn, script: seq<Reply>, i: nat, bufsize: nat)
    requires i < |script| && ScriptOk(c, script[i..], bufsize)
    ensures Allowed(c, script[i], bufsize)
    ensures var (d, out) := EchoOnce(c, script[i]);
            if out.GoesOn?
            then EchoAll(c, script[i..]) == EchoAll(d, script[i + 1..]) && ScriptOk(d, script[i + 1..], bufsize)
            else EchoAll(c, script[i..]) == (d, out)
  {
    assert script[i..][0] == script[i] && script[i..][1..] == script[i + 1..];
  }

  /** Only the connection at cfd may differ. */
  predicate OthersKept(net: Net, net': Net, cfd: int) {
    cfd in net'.open && net' == net.(open := net.open[cfd := net'.open[cfd]])
  }

  /** The loop's guard and body, on the kernel's state: a read and, if it got something, a write. */
  method EchoRound(kernel: Kernel, cfd: int, buffer: array<Byte>, reply: Reply) returns (out: Outcome)
    requires cfd in kernel.net.open && Allowed(kernel.net.open[cfd], reply, buffer.Length)
    modifies kernel, buffer
    ensures OthersKept(old(kernel.net), kernel.net, cfd)
    ensures (kernel.net.open[cfd], out) == EchoOnce(old(kernel.net).open[cfd], reply)
  {
    var n := kernel.Read(cfd, buffer, reply.read);
    if n <= 0 {
      return if n == 0 then AtEof else ReadFailed;
    }
    var w := kernel.Write(cfd, buffer, n, reply.written);
    assert buffer[..Transferred(reply.written, n)] == buffer[..n][..Transferred(reply.written, n)];
    return if w == n then GoesOn else WriteShort;
  }

  /** The loop, with a buffer that is reused. */
  method EchoLoop(kernel: Kernel, cfd: int, bufsize: nat, script: seq<Reply>) returns (out: Outcome)
    requires cfd in kernel.net.open && ScriptOk(kernel.net.open[cfd], script, bufsize)
    modifies kernel
    ensures cfd in kernel.net.open
    ensures (kernel.net.open[cfd], out) == EchoAll(old(kernel.net.open[cfd]), script)
    ensures kernel.net == old(kernel.net).(open := old(kernel.net.open)[cfd := kernel.net.open[cfd]])
  {
    var buffer := new Byte[bufsize];
    ghost var net := kernel.net;
    var i := 0;
    while i < |script|
      invariant i <= |script| && OthersKept(net, kernel.net, cfd)
      invariant EchoAll(net.open[cfd], script) == EchoAll(kernel.net.open[cfd], script[i..])
      invariant ScriptOk(kernel.net.open[cfd], script[i..], bufsize)
    {
      NextRound(kernel.net.open[cfd], script, i, bufsize);
      out := EchoRound(kernel, cfd, buffer, script[i]);
      if !out.GoesOn? {
        return;
      }
      i := i + 1;
    }
    return GoesOn;
  }

  /** The connection at cfd has become c and is closed, or not; everything else is as it was. */
  predicate Left(net: Net, net': Net, cfd: int, c: Conn, closed: bool) {
    net' == if closed then net.(open := net.open - {cfd}, finished := net.finished + {c})
            else net.(open := net.open[cfd := c])
  }

  /** threaded.c: a short write leaves the descriptor open, a failing read closes it like an end of file. */
  method HandleThreaded(kernel: Kernel, cfd: int, bufsize: nat, script: seq<Reply>) returns (out: Outcome)
    requires cfd in kernel.net.open && ScriptOk(kernel.net.open[cfd], script, bufsize)
    requires FaithfulSoFar(kernel.net.open[cfd]) && !kernel.net.open[cfd].sawEof
    modifies kernel
    ensures out == EchoAll(old(kernel.net.open[cfd]), script).1
    ensures cfd !in kernel.net.open <==> out == AtEof || out == ReadFailed
    ensures out == AtEof ==>
              var c := EchoAll(old(kernel.net.open[cfd]), script).0; c in kernel.net.finished && c.echoed == c.sent
    ensures Left(old(kernel.net), kernel.net, cfd, EchoAll(old(kernel.net.open[cfd]), script).0,
                 out == AtEof || out == ReadFailed)
  {
    EchoAllFaithful(kernel.net.open[cfd], script, bufsize);
    out := EchoLoop(kernel, cfd, bufsize, script);
    if out == AtEof || out == ReadFailed {
      kernel.Close(cfd);
    }
  }

  /**
   * forking.c and prethreaded.c: close() is reached only after an end of file, hence
   * only for a connection that was echoed completely; otherwise the process or the
   * thread exits.
   */
  method HandleOrExit(kernel: Kernel, cfd: int, bufsize: nat, script: seq<Reply>) returns (out: Outcome, exits: bool)
    requires cfd in kernel.net.open && ScriptOk(kernel.net.open[cfd], script, bufsize)
    requires FaithfulSoFar(kernel.net.open[cfd]) && !kernel.net.open[cfd].sawEof
    modifies kernel
    ensures out == EchoAll(old(kernel.net.open[cfd]), script).1 && (exits <==> out == ReadFailed || out == WriteShort)
    ensures cfd !in kernel.net.open <==> out == AtEof
    ensures out == AtEof ==>
              var c := EchoAll(old(kernel.net.open[cfd]), script).0; c in kernel.net.finished && c.echoed == c.sent
    ensures Left(old(kernel.net), kernel.net, cfd, EchoAll(old(kernel.net.open[cfd]), script).0, out == AtEof)
  {
    EchoAllFaithful(kernel.net.open[cfd], script, bufsize);
    out := EchoLoop(kernel, cfd, bufsize, script);
    exits := out == ReadFailed || out == WriteShort;
    if out == AtEof {
      kernel.Close(cfd);
    }
  }
}

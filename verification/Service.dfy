/** How fast an event loop serves its clients, whatever the others do. */
module Service {
  import opened Prelude
  import opened Connections
  import opened EventLoop

  datatype Event = Clients | Loop(env: Env)

  /** A read takes everything pending, up to the size of the buffer. */
  function FullRead(c: Conn, bufsize: nat): ReadReply
    requires c.taken <= |c.sent|
  {
    if c.taken == |c.sent| then Eof else Data(c.sent[c.taken..Min(c.taken + bufsize, |c.sent|)])
  }

  /** So it does for client fd; what the other clients' reads answer is left open. */
  predicate ReadsFully(net: Net, env: Env, bufsize: nat, fd: int) {
    fd in ReadyClients(net, env) ==>
      net.open[fd].taken <= |net.open[fd].sent| && env.replies(fd).read == FullRead(net.open[fd], bufsize)
  }

  /** net' may follow net: the clients act, or a complete turn is taken with full reads of fd. */
  ghost predicate Follows(net: Net, sfd: int, ev: Event, net': Net, bufsize: nat, fd: int) {
    match ev
    case Clients => ClientsMoved(net, net')
    case Loop(env) =>
      EnvOk(net, sfd, env, bufsize) && ReadsFully(net, env, bufsize, fd) && !TurnHalts(net, sfd, env)
      && net' == Turn(net, sfd, env)
  }

  ghost predicate IsHistory(nets: seq<Net>, events: seq<Event>, sfd: int, bufsize: nat, fd: int) {
    && |nets| == |events| + 1
    && (forall k :: 0 <= k < |events| ==> Follows(nets[k], sfd, events[k], nets[k + 1], bufsize, fd))
  }

  /** The event is a turn in which fd is readable. */
  predicate ReadyAt(ev: Event, fd: int) {
    ev.Loop? && fd in ev.env.canRead
  }

  /** In how many of the first k events fd was readable in a turn. */
  function ReadyTurns(events: seq<Event>, fd: int, k: nat): nat
    requires k <= |events|
  {
    if k == 0 then 0 else ReadyTurns(events, fd, k - 1) + if ReadyAt(events[k - 1], fd) then 1 else 0
  }

  /** ceil(pending / bufsize) + 1 */
  function TurnsNeeded(c: Conn, bufsize: nat): nat
    requires c.taken <= |c.sent| && bufsize > 0
  {
    (|c.sent| - c.taken + bufsize - 1) / bufsize + 1
  }

  lemma CeilingBounds(pending: nat, bufsize: nat, r: nat)
    requires bufsize > 0
    ensures r < (pending + bufsize - 1) / bufsize <==> r * bufsize < pending
  {
    var q := (pending + bufsize - 1) / bufsize;
    var rem := (pending + bufsize - 1) % bufsize;
    assert q * bufsize + rem == pending + bufsize - 1;
    if r < q {
      Multiples(r + 1, q, bufsize);
      assert (r + 1) * bufsize == r * bufsize + bufsize;
    } else {
      Multiples(q, r, bufsize);
    }
  }

  lemma Multiples(a: nat, b: nat, n: nat)
    requires a <= b
    ensures a * n <= b * n
  {
  }

  /** The connection when n more bytes were echoed, or all there are. */
  function Advance(c: Conn, n: nat): Conn
    requires c.taken <= |c.sent|
  {
    var t := Min(c.taken + n, |c.sent|);
    c.(taken := t, echoed := c.echoed + c.sent[c.taken..t])
  }

  lemma TurnOnOne(net: Net, sfd: int, env: Env, net': Net, bufsize: nat, fd: int)
    requires Follows(net, sfd, Loop(env), net', bufsize, fd)
    requires fd in net.open && net.open[fd].taken <= |net.open[fd].sent|
    ensures fd !in env.canRead ==> fd in net'.open && net'.open[fd] == net.open[fd]
    ensures fd in env.canRead && net.open[fd].taken < |net.open[fd].sent| ==>
              fd in net'.open && net'.open[fd] == Advance(net.open[fd], bufsize)
    ensures fd in env.canRead && net.open[fd].taken == |net.open[fd].sent| ==>
              fd !in net'.open && net.open[fd].(sawEof := true) in net'.finished
  {
    var net1 := Admit(net, sfd, env);
    assert fd in net1.open && net1.open[fd] == net.open[fd];
    if fd in env.canRead {
      assert fd in ReadyClients(net, env);
      if net.open[fd].taken == |net.open[fd].sent| {
        assert env.replies(fd).read == Eof;
        assert Ended(net1.open[fd], Eof) in net'.finished;
      }
    }
  }

  lemma Slices(s: seq<Byte>, i: nat, j: nat, k: nat)
    requires i <= j <= k <= |s|
    ensures s[i..j] + s[j..k] == s[i..k]
  {
  }

  lemma AdvanceAdds(c: Conn, n: nat, m: nat)
    requires c.taken + n <= |c.sent|
    ensures Advance(Advance(c, n), m) == Advance(c, n + m)
  {
    var t, u := c.taken + n, Min(c.taken + n + m, |c.sent|);
    assert Advance(c, n).taken == t && Advance(Advance(c, n), m).taken == u;
    Slices(c.sent, c.taken, t, u);
    assert (c.echoed + c.sent[c.taken..t]) + c.sent[t..u] == c.echoed + (c.sent[c.taken..t] + c.sent[t..u]);
  }

  lemma AdvanceAll(c: Conn, n: nat)
    requires FaithfulSoFar(c) && c.taken + n >= |c.sent|
    ensures Advance(c, n) == c.(taken := |c.sent|, echoed := c.sent)
  {
    assert c.sent[..c.taken] + c.sent[c.taken..] == c.sent;
  }

  /**
   * A client that has stopped sending is drained and its descriptor freed in
   * exactly the TurnsNeeded-th turn in which it is readable: before that turn its
   * progress is determined by the number of such turns alone, and in that turn it
   * is closed with everything echoed. Other clients and newcomers have no effect, even
   * if their reads are short or fail.
   */
  lemma {:induction false} BoundedService(nets: seq<Net>, events: seq<Event>, sfd: int, bufsize: nat, fd: int, k: nat)
    requires IsHistory(nets, events, sfd, bufsize, fd) && bufsize > 0 && k <= |events|
    requires fd in nets[0].open && nets[0].open[fd].fin && FaithfulSoFar(nets[0].open[fd])
    ensures var c := nets[0].open[fd];
            var r := ReadyTurns(events, fd, k);
            && (r < TurnsNeeded(c, bufsize) ==>
                  fd in nets[k].open && nets[k].open[fd] == Advance(c, r * bufsize))
            && (r == TurnsNeeded(c, bufsize) && k > 0 && ReadyAt(events[k - 1], fd) ==>
                  fd !in nets[k].open
                  && c.(taken := |c.sent|, echoed := c.sent, sawEof := true) in nets[k].finished)
  {
    var c := nets[0].open[fd];
    if k == 0 {
      assert c.sent[c.taken..c.taken] == [];
    } else {
      BoundedService(nets, events, sfd, bufsize, fd, k - 1);
      var q := ReadyTurns(events, fd, k - 1);
      if q < TurnsNeeded(c, bufsize) {
        ServedOnce(nets[k - 1], sfd, events[k - 1], nets[k], bufsize, fd, c, q);
      }
    }
  }

  /** After q full reads either more is pending, or everything was read and echoed. */
  lemma ReadsSoFar(c: Conn, q: nat, bufsize: nat)
    requires bufsize > 0 && FaithfulSoFar(c) && q < TurnsNeeded(c, bufsize)
    ensures var d := Advance(c, q * bufsize);
            && d.sent == c.sent && d.taken <= |d.sent| && d.fin == c.fin
            && (q + 1 < TurnsNeeded(c, bufsize) <==> d.taken < |d.sent|)
            && (d.taken < |d.sent| ==> Advance(d, bufsize) == Advance(c, (q + 1) * bufsize))
            && (d.taken == |d.sent| ==> d == c.(taken := |c.sent|, echoed := c.sent))
  {
    CeilingBounds(|c.sent| - c.taken, bufsize, q);
    assert (q + 1) * bufsize == q * bufsize + bufsize;
    if c.taken + q * bufsize < |c.sent| {
      AdvanceAdds(c, q * bufsize, bufsize);
    } else {
      AdvanceAll(c, q * bufsize);
    }
  }

  lemma ServedOnce(net: Net, sfd: int, ev: Event, net': Net, bufsize: nat, fd: int, c: Conn, q: nat)
    requires Follows(net, sfd, ev, net', bufsize, fd) && bufsize > 0
    requires c.fin && FaithfulSoFar(c) && q < TurnsNeeded(c, bufsize)
    requires fd in net.open && net.open[fd] == Advance(c, q * bufsize)
    ensures !ReadyAt(ev, fd) ==> fd in net'.open && net'.open[fd] == Advance(c, q * bufsize)
    ensures ReadyAt(ev, fd) && q + 1 < TurnsNeeded(c, bufsize) ==>
              fd in net'.open && net'.open[fd] == Advance(c, (q + 1) * bufsize)
    ensures ReadyAt(ev, fd) && q + 1 == TurnsNeeded(c, bufsize) ==>
              fd !in net'.open && c.(taken := |c.sent|, echoed := c.sent, sawEof := true) in net'.finished
  {
    ReadsSoFar(c, q, bufsize);
    match ev {
      case Clients => assert ClientMoved(net.open[fd], net'.open[fd]);
      case Loop(env) =>
        TurnOnOne(net, sfd, env, net', bufsize, fd);
    }
  }

  // ----- work left

  function Load(c: Conn): nat {
    1 + if c.taken <= |c.sent| then |c.sent| - c.taken else 0
  }

  /** Pending bytes plus open clients. */
  ghost function Work(open: map<int, Conn>): nat
    decreases open.Keys
  {
    if exists fd :: fd in open then
      var fd :| fd in open;
      Load(open[fd]) + Work(open - {fd})
    else 0
  }

  lemma {:induction false} WorkWithout(open: map<int, Conn>, fd: int)
    requires fd in open
    ensures Work(open) == Load(open[fd]) + Work(open - {fd})
    decreases open.Keys
  {
    var g :| g in open && Work(open) == Load(open[g]) + Work(open - {g});
    if g != fd {
      WorkWithout(open - {g}, fd);
      WorkWithout(open - {fd}, g);
      assert open - {g} - {fd} == open - {fd} - {g};
    }
  }

  lemma {:induction false} WorkMonotone(a: map<int, Conn>, b: map<int, Conn>)
    requires b.Keys <= a.Keys && forall fd :: fd in b ==> Load(b[fd]) <= Load(a[fd])
    ensures Work(b) <= Work(a)
    ensures (exists fd :: fd in a && (fd in b ==> Load(b[fd]) < Load(a[fd]))) ==> Work(b) < Work(a)
    decreases a.Keys
  {
    if exists f :: f in a {
      var fd :| fd in a;
      if exists f :: f in a && (f in b ==> Load(b[f]) < Load(a[f])) {
        fd :| fd in a && (fd in b ==> Load(b[fd]) < Load(a[fd]));
      }
      WorkWithout(a, fd);
      if fd in b {
        WorkWithout(b, fd);
        WorkMonotone(a - {fd}, b - {fd});
      } else {
        assert b - {fd} == b;
        WorkMonotone(a - {fd}, b);
      }
    }
  }

  predicate SomeoneReady(net: Net, env: Env) {
    exists fd :: fd in net.open && fd in env.canRead
  }

  /** A turn with someone to serve and nobody to admit leaves strictly less to do. */
  lemma WorkShrinks(net: Net, sfd: int, env: Env, bufsize: nat)
    requires EnvOk(net, sfd, env, bufsize) && !TurnHalts(net, sfd, env)
    requires sfd !in env.canRead && SomeoneReady(net, env)
    ensures Work(Turn(net, sfd, env).open) < Work(net.open)
  {
    var net' := Turn(net, sfd, env);
    forall fd | fd in net'.open
      ensures fd in net.open && Load(net'.open[fd]) <= Load(net.open[fd])
      ensures fd in env.canRead ==> Load(net'.open[fd]) < Load(net.open[fd])
    {
      assert fd in env.canRead ==> fd in ReadyClients(net, env) && Allowed(net.open[fd], env.replies(fd), bufsize);
    }
    var f :| f in net.open && f in env.canRead;
    assert f in net.open && (f in net'.open ==> Load(net'.open[f]) < Load(net.open[f]));
    WorkMonotone(net.open, net'.open);
  }

  /** Hence no more than Work(...) such turns can follow each other. */
  lemma {:induction false} QuietTurnsAreFew(nets: seq<Net>, envs: seq<Env>, sfd: int, bufsize: nat)
    requires |nets| == |envs| + 1
    requires forall k :: 0 <= k < |envs| ==>
               && EnvOk(nets[k], sfd, envs[k], bufsize) && !TurnHalts(nets[k], sfd, envs[k])
               && sfd !in envs[k].canRead && SomeoneReady(nets[k], envs[k])
               && nets[k + 1] == Turn(nets[k], sfd, envs[k])
    ensures |envs| + Work(nets[|envs|].open) <= Work(nets[0].open)
  {
    if |envs| > 0 {
      var n := |envs| - 1;
      QuietTurnsAreFew(nets[..n + 1], envs[..n], sfd, bufsize);
      WorkShrinks(nets[n], sfd, envs[n], bufsize);
    }
  }
}

/**
 * One turn of an event loop seen from outside: a map from descriptors to
 * connections, a set of readable descriptors, and no slots, marks or counters.
 */
module EventLoop {
  import opened Prelude
  import opened Connections
  import opened Scan

  /** A freshly accepted connection; its client may already have sent something. */
  datatype Newcomer = Newcomer(fd: int, sent: seq<Byte>, fin: bool)

  /**
   * Everything the kernel decides in one turn. `canRead` are the descriptors on
   * which a read would not block, `other` those with some other condition that
   * poll() reports; `accepted` is None when accept() or fcntl() fails.
   */
  datatype Env = Env(canRead: set<int>, other: set<int>, waitFails: bool, accepted: Option<Newcomer>, replies: Replies)

  /** One step of a run: the clients act, or the loop takes a turn. */
  datatype Step = ClientsAct(net: Net) | Turns(env: Env)

  predicate Fresh(net: Net, sfd: int, fd: int) {
    fd > 0 && fd != sfd && fd !in net.open
  }

  /** The environment answers as the system calls promise. */
  ghost predicate EnvOk(net: Net, sfd: int, env: Env, bufsize: nat) {
    && (sfd in env.canRead && env.accepted.Some? ==> Fresh(net, sfd, env.accepted.value.fd))
    && (forall fd :: fd in net.open && fd in env.canRead ==> Allowed(net.open[fd], env.replies(fd), bufsize))
  }

  function ReadyClients(net: Net, env: Env): set<int> {
    set fd | fd in net.open && fd in env.canRead
  }

  /** The turn ends the process. */
  predicate TurnHalts(net: Net, sfd: int, env: Env) {
    env.waitFails || (sfd in env.canRead && env.accepted.None?) || ShortIn(net, ReadyClients(net, env), env.replies)
  }

  function Admit(net: Net, sfd: int, env: Env): Net {
    if sfd in env.canRead && env.accepted.Some? then
      AcceptAs(net, env.accepted.value.fd, env.accepted.value.sent, env.accepted.value.fin)
    else net
  }

  /** The abstract turn: admit the newcomer, serve everyone who was readable before. */
  function Turn(net: Net, sfd: int, env: Env): Net {
    ServeAll(Admit(net, sfd, env), ReadyClients(net, env), env.replies)
  }

  /** A newcomer has no influence on whether the others' writes are short. */
  lemma AdmitKeepsShort(net: Net, sfd: int, env: Env, bufsize: nat)
    requires EnvOk(net, sfd, env, bufsize)
    ensures ShortIn(Admit(net, sfd, env), ReadyClients(net, env), env.replies) <==>
            ShortIn(net, ReadyClients(net, env), env.replies)
  {
    var net' := Admit(net, sfd, env);
    assert forall fd :: fd in ReadyClients(net, env) ==>
             (Short(net', fd, env.replies(fd)) <==> Short(net, fd, env.replies(fd)));
  }

  /**
   * What a turn that goes on does, connection by connection: the newcomer is open with
   * all it has sent and nothing read; who was not readable is untouched; who was has its
   * bytes echoed, or is finished, with or without an end of file.
   */
  lemma TurnMeaning(net: Net, sfd: int, env: Env, bufsize: nat)
    requires EnvOk(net, sfd, env, bufsize) && !TurnHalts(net, sfd, env)
    ensures sfd in env.canRead ==>
              var n, t := env.accepted.value, Turn(net, sfd, env);
              && n.fd in t.open && t.open[n.fd] == Conn(net.accepted, n.sent, n.fin, 0, [], false)
              && t.accepted == net.accepted + 1
    ensures sfd !in env.canRead ==> Turn(net, sfd, env).accepted == net.accepted
    ensures forall fd :: fd in net.open && fd !in env.canRead ==>
              fd in Turn(net, sfd, env).open && Turn(net, sfd, env).open[fd] == net.open[fd]
    ensures forall fd :: fd in net.open && fd in env.canRead ==>
              var c, t := net.open[fd], Turn(net, sfd, env);
              match env.replies(fd).read
              case Data(b) => fd in t.open && t.open[fd] == c.(taken := c.taken + |b|, echoed := c.echoed + b)
              case Eof => fd !in t.open && c.(sawEof := true) in t.finished
              case Fail => fd !in t.open && c in t.finished
    ensures forall fd :: fd in Turn(net, sfd, env).open ==>
              fd in net.open || (sfd in env.canRead && fd == env.accepted.value.fd)
    ensures net.finished <= Turn(net, sfd, env).finished
  {
    var net1 := Admit(net, sfd, env);
    forall fd | fd in net.open && fd in env.canRead && !env.replies(fd).read.Data?
      ensures Ended(net.open[fd], env.replies(fd).read) in Turn(net, sfd, env).finished
    {
      assert fd in net1.open && net1.open[fd] == net.open[fd] && fd in ReadyClients(net, env);
    }
  }

  // ----- each client's input, from the steps of a run alone

  predicate Admits(sfd: int, env: Env) {
    !env.waitFails && sfd in env.canRead && env.accepted.Some?
  }

  /** How many clients the first k steps have admitted. */
  function Admitted(steps: seq<Step>, sfd: int, k: nat): nat
    requires k <= |steps|
  {
    if k == 0 then 0
    else Admitted(steps, sfd, k - 1) + if steps[k - 1].Turns? && Admits(sfd, steps[k - 1].env) then 1 else 0
  }

  /** What the client admitted as number m has sent within k steps, and whether it has stopped sending. */
  ghost function InputBy(steps: seq<Step>, sfd: int, m: nat, k: nat): (seq<Byte>, bool)
    requires k <= |steps|
  {
    if k == 0 then ([], false) else
    var before := InputBy(steps, sfd, m, k - 1);
    match steps[k - 1]
    case ClientsAct(net) =>
      if exists fd :: fd in net.open && net.open[fd].serial == m then
        var fd :| fd in net.open && net.open[fd].serial == m;
        (net.open[fd].sent, net.open[fd].fin)
      else before
    case Turns(env) =>
      if Admits(sfd, env) && Admitted(steps, sfd, k - 1) == m then (env.accepted.value.sent, env.accepted.value.fin)
      else before
  }

  /** Every connection there ever was has the input that the steps say, under its own number. */
  ghost predicate InputsAre(net: Net, steps: seq<Step>, sfd: int, k: nat)
    requires k <= |steps|
  {
    && net.accepted == Admitted(steps, sfd, k)
    && (forall c :: c in Conns(net) ==> (c.sent, c.fin) == InputBy(steps, sfd, c.serial, k))
  }

  /** What any connection got back is from its own client, and all of it after an end of file. */
  ghost predicate EchoesAre(net: Net, steps: seq<Step>, sfd: int, k: nat)
    requires k <= |steps|
  {
    forall c :: c in Conns(net) ==>
      && c.echoed <= InputBy(steps, sfd, c.serial, k).0
      && (c.sawEof ==> c.echoed == InputBy(steps, sfd, c.serial, k).0)
  }

  lemma InputsAreEchoed(net: Net, steps: seq<Step>, sfd: int, k: nat)
    requires k <= |steps| && InputsAre(net, steps, sfd, k) && StreamsOk(net, true)
    ensures EchoesAre(net, steps, sfd, k)
  {
    forall c | c in Conns(net) ensures Prefixed(c) {
      if c !in net.finished {
        var f :| f in net.open && net.open[f] == c;
      }
    }
  }

  lemma ClientsKeepInputs(net: Net, net': Net, steps: seq<Step>, sfd: int, k: nat)
    requires k < |steps| && steps[k] == ClientsAct(net') && ClientsMoved(net, net')
    requires SerialsOk(net) && InputsAre(net, steps, sfd, k)
    ensures InputsAre(net', steps, sfd, k + 1)
  {
    ClientsKeepSerials(net, net');
    forall c | c in Conns(net') ensures (c.sent, c.fin) == InputBy(steps, sfd, c.serial, k + 1) {
      SerialsOfConns(net', c);
      if c in net'.finished {
        assert c in Conns(net);
      } else {
        var f :| f in net'.open && net'.open[f] == c;
        assert net'.open[f].serial == c.serial;
      }
    }
  }

  lemma AdmittedConns(net: Net, sfd: int, env: Env, c: Conn)
    requires c in Conns(Admit(net, sfd, env)) && !env.waitFails
    ensures c in Conns(net) ||
            (Admits(sfd, env) && c == Conn(net.accepted, env.accepted.value.sent, env.accepted.value.fin, 0, [], false))
    ensures Admit(net, sfd, env).accepted == net.accepted + if Admits(sfd, env) then 1 else 0
  {
  }

  lemma TurnKeepsInputs(net: Net, net': Net, env: Env, steps: seq<Step>, sfd: int, k: nat)
    requires k < |steps| && steps[k] == Turns(env) && !env.waitFails
    requires SerialsOk(net) && InputsAre(net, steps, sfd, k)
    requires InputsKept(Admit(net, sfd, env), net') && net'.accepted == Admit(net, sfd, env).accepted
    ensures InputsAre(net', steps, sfd, k + 1)
  {
    var base := Admit(net, sfd, env);
    forall c | c in Conns(net') ensures (c.sent, c.fin) == InputBy(steps, sfd, c.serial, k + 1) {
      var b :| b in Conns(base) && SameInput(b, c);
      AdmittedConns(net, sfd, env, b);
      if b in Conns(net) { SerialsOfConns(net, b); }
    }
  }
}

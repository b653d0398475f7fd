/** The two event loops compared: same connections, same environment, same outcome. */
module LoopEquivalence {
  import opened Connections
  import opened EventLoop
  import opened Service
  import S = SelectServer
  import P = PollServer

  /** A select server and a poll server with the same listener and the same connections. */
  ghost predicate Related(s: S.Server, p: P.Server) {
    S.Valid(s) && P.Valid(p) && s.net == p.net && s.sfd == p.sfd
  }

  /**
   * One turn of each loop has the same effect on the connections, although the slots
   * may be ordered differently, exactly when poll.c finds room for a newcomer and,
   * scanning from slot 0 as written, does not come upon a readable listener.
   */
  lemma SameTurn(s: S.Server, p: P.Server, env: Env, v: P.Variant, bufsize: nat)
    requires Related(s, p) && S.SelectEnvOk(s, env, bufsize) && |p.pollfds| <= v.searchLimit && v.firstSlot <= 1
    ensures var s', p' := S.Round(s, env), P.Round(p, env, v);
            && (P.TurnOk(p, env, v) ==> (s'.halted <==> P.Stopped(p')) && (!s'.halted ==> Related(s', p')))
            && (!P.TurnOk(p, env, v) ==> P.Lost(p') && !Related(s', p'))
  {
    S.RoundMeaning(s, env, bufsize);
    P.RoundMeaning(p, env, v, bufsize);
  }

  /** When the clients act, both servers see the same. */
  lemma SameClients(s: S.Server, p: P.Server, net: Net)
    requires Related(s, p) && ClientsMoved(s.net, net)
    ensures Related(s.(net := net), p.(net := net))
  {
    S.ClientsKeepValid(s, net);
  }

  /** The step is a turn that poll.c cannot take as select.c does. */
  predicate Trouble(p: P.Server, step: Step, v: P.Variant) {
    step.Turns? && !P.Stopped(p) && !P.TurnOk(p, step.env, v)
  }

  ghost predicate TroubleBefore(ps: seq<P.Server>, steps: seq<Step>, v: P.Variant, k: nat)
    requires k < |ps| == |steps| + 1
  {
    exists j :: 0 <= j < k && Trouble(ps[j], steps[j], v)
  }

  lemma TroubleStep(ps: seq<P.Server>, steps: seq<Step>, v: P.Variant, k: nat)
    requires 0 < k < |ps| == |steps| + 1
    ensures TroubleBefore(ps, steps, v, k) <==>
            TroubleBefore(ps, steps, v, k - 1) || Trouble(ps[k - 1], steps[k - 1], v)
  {
  }

  /** Both servers are at the same point, or both have ended. */
  ghost predicate Together(s: S.Server, p: P.Server) {
    (s.halted <==> P.Stopped(p)) && (!s.halted ==> Related(s, p))
  }

  lemma SameStep(s: S.Server, p: P.Server, step: Step, v: P.Variant, bufsize: nat)
    requires Together(s, p) && s.maxi < |s.clientfd| && 0 < |p.pollfds| <= v.searchLimit && v.firstSlot <= 1
    requires s.halted || S.StepOk(s, step, bufsize)
    ensures !Trouble(p, step, v) ==> Together(S.Do(s, step), P.Do(p, step, v))
    ensures Trouble(p, step, v) ==> P.Lost(P.Do(p, step, v))
  {
    if !s.halted {
      match step {
        case ClientsAct(net) => SameClients(s, p, net);
        case Turns(env) => SameTurn(s, p, env, v, bufsize);
      }
    }
  }

  /**
   * Over whole runs with the same client actions and the same environment, as long as
   * select.c has not ended: both servers have the same connections if and only if
   * poll.c has not met trouble. Without trouble they also end together.
   */
  lemma {:induction false} SameRuns(ss: seq<S.Server>, ps: seq<P.Server>, steps: seq<Step>, sfd: int, size: nat,
                                    slots: nat, v: P.Variant, bufsize: nat, k: nat)
    requires S.IsRun(ss, steps, sfd, size, bufsize) && P.IsRun(ps, steps, sfd, slots, v, bufsize)
    requires 0 <= sfd < size && v.firstSlot <= 1 && k <= |steps|
    ensures !TroubleBefore(ps, steps, v, k) ==> Together(ss[k], ps[k])
    ensures TroubleBefore(ps, steps, v, k) ==> P.Lost(ps[k])
    ensures !ss[k].halted ==> (Related(ss[k], ps[k]) <==> !TroubleBefore(ps, steps, v, k))
  {
    P.EveryRun(ps, steps, sfd, slots, v, bufsize, k);
    if k == 0 {
      S.InitialValid(sfd, size);
      P.InitialValid(sfd, slots);
    } else {
      SameRuns(ss, ps, steps, sfd, size, slots, v, bufsize, k - 1);
      S.StepInRun(ss, steps, sfd, size, bufsize, k - 1);
      P.StepInRun(ps, steps, sfd, slots, v, bufsize, k - 1);
      TroubleStep(ps, steps, v, k);
      if TroubleBefore(ps, steps, v, k - 1) {
        P.DoKeepsLost(ps[k - 1], steps[k - 1], v);
      } else {
        SameStep(ss[k - 1], ps[k - 1], steps[k - 1], v, bufsize);
      }
    }
  }

  // ----- the service bound holds of the loops themselves

  function EventOf(step: Step): Event {
    match step
    case ClientsAct(_) => Clients
    case Turns(env) => Loop(env)
  }

  function Events(steps: seq<Step>): (r: seq<Event>)
    ensures |r| == |steps| && forall k :: 0 <= k < |steps| ==> r[k] == EventOf(steps[k])
  {
    seq(|steps|, k requires 0 <= k < |steps| => EventOf(steps[k]))
  }

  function SelectNets(ss: seq<S.Server>): (r: seq<Net>)
    ensures |r| == |ss| && forall k :: 0 <= k < |ss| ==> r[k] == ss[k].net
  {
    seq(|ss|, k requires 0 <= k < |ss| => ss[k].net)
  }

  function PollNets(ps: seq<P.Server>): (r: seq<Net>)
    ensures |r| == |ps| && forall k :: 0 <= k < |ps| ==> r[k] == ps[k].net
  {
    seq(|ps|, k requires 0 <= k < |ps| => ps[k].net)
  }

  /** Whenever fd is readable in a turn from `from` on, its read takes everything pending, up to the buffer's size. */
  ghost predicate AlwaysReadsFully(nets: seq<Net>, steps: seq<Step>, bufsize: nat, fd: int, from: nat)
    requires |nets| == |steps| + 1
  {
    forall k :: from <= k < |steps| && steps[k].Turns? ==> ReadsFully(nets[k], steps[k].env, bufsize, fd)
  }

  /** A run of select.c that does not halt is a history of abstract turns. */
  lemma SelectRunIsHistory(ss: seq<S.Server>, steps: seq<Step>, sfd: int, size: nat, bufsize: nat, fd: int, from: nat)
    requires S.IsRun(ss, steps, sfd, size, bufsize) && 0 <= sfd < size && from <= |steps|
    requires forall k :: from <= k < |ss| ==> !ss[k].halted
    requires AlwaysReadsFully(SelectNets(ss), steps, bufsize, fd, from)
    ensures IsHistory(SelectNets(ss)[from..], Events(steps)[from..], sfd, bufsize, fd)
  {
    var nets, events := SelectNets(ss), Events(steps);
    forall k | 0 <= k < |steps| - from
      ensures Follows(nets[from..][k], sfd, events[from..][k], nets[from..][k + 1], bufsize, fd)
    {
      var j := from + k;
      S.EveryRun(ss, steps, sfd, size, bufsize, j);
      S.StepInRun(ss, steps, sfd, size, bufsize, j);
      assert !ss[j].halted && !ss[j + 1].halted;
      if steps[j].Turns? { S.RoundMeaning(ss[j], steps[j].env, bufsize); }
    }
  }

  /** What the connections see of a step of poll.c. */
  function PollEvent(p: P.Server, step: Step): Event {
    EventOf(P.Heard(p, step))
  }

  function PollEvents(ps: seq<P.Server>, steps: seq<Step>): (r: seq<Event>)
    requires |ps| == |steps| + 1
    ensures |r| == |steps| && forall k :: 0 <= k < |steps| ==> r[k] == PollEvent(ps[k], steps[k])
  {
    seq(|steps|, k requires 0 <= k < |steps| => PollEvent(ps[k], steps[k]))
  }

  /** A turn of poll.c without its listener. */
  lemma LostFollows(p: P.Server, env: Env, v: P.Variant, bufsize: nat, fd: int)
    requires P.Safe(p) && p.pollfds[0].fd == -1 && |p.pollfds| <= v.searchLimit && v.firstSlot <= 1
    requires EnvOk(p.net, p.sfd, env, bufsize) && ReadsFully(p.net, env, bufsize, fd)
    requires !P.Stopped(P.Round(p, env, v))
    ensures Follows(p.net, p.sfd, PollEvent(p, Turns(env)), P.Round(p, env, v).net, bufsize, fd)
  {
    var env' := env.(canRead := env.canRead - {p.sfd});
    assert ReadyClients(p.net, env') == ReadyClients(p.net, env) by { assert p.sfd !in P.Clients(P.Fds(p.pollfds)); }
    P.LostRoundMeaning(p, env, v);
  }

  /** So is a run of poll.c, in either variant, as long as it neither stops nor loses its listener. */
  lemma PollRunIsHistory(ps: seq<P.Server>, steps: seq<Step>, sfd: int, size: nat, v: P.Variant, bufsize: nat,
                         fd: int, from: nat)
    requires P.IsRun(ps, steps, sfd, size, v, bufsize) && sfd >= 0 && v.firstSlot <= 1 && from <= |steps|
    requires forall k :: from <= k < |ps| ==> !P.Stopped(ps[k])
    requires forall k :: from <= k < |steps| ==> !P.LosesListener(ps[k], steps[k], v)
    requires AlwaysReadsFully(PollNets(ps), steps, bufsize, fd, from)
    ensures IsHistory(PollNets(ps)[from..], PollEvents(ps, steps)[from..], sfd, bufsize, fd)
  {
    var nets, events := PollNets(ps), PollEvents(ps, steps);
    forall k | 0 <= k < |steps| - from
      ensures Follows(nets[from..][k], sfd, events[from..][k], nets[from..][k + 1], bufsize, fd)
    {
      var j := from + k;
      P.EveryRun(ps, steps, sfd, size, v, bufsize, j);
      P.StepInRun(ps, steps, sfd, size, v, bufsize, j);
      assert !P.Stopped(ps[j]) && !P.Stopped(ps[j + 1]);
      P.DoListener(ps[j], steps[j], v, bufsize);
      if steps[j].Turns? {
        if ps[j].pollfds[0].fd == -1 {
          LostFollows(ps[j], steps[j].env, v, bufsize, fd);
        } else {
          P.RoundMeaning(ps[j], steps[j].env, v, bufsize);
        }
      }
    }
  }

  /** The turns in which fd is readable are counted alike when the same turns are ready for it. */
  lemma {:induction false} SameReadyTurns(a: seq<Event>, b: seq<Event>, fd: int, k: nat)
    requires k <= |a| == |b| && forall j :: 0 <= j < k ==> (ReadyAt(a[j], fd) <==> ReadyAt(b[j], fd))
    ensures ReadyTurns(a, fd, k) == ReadyTurns(b, fd, k)
  {
    if k > 0 { SameReadyTurns(a, b, fd, k - 1); }
  }

  lemma SamePollTurns(ps: seq<P.Server>, steps: seq<Step>, sfd: int, size: nat, v: P.Variant, bufsize: nat,
                      fd: int, from: nat, k: nat)
    requires P.IsRun(ps, steps, sfd, size, v, bufsize) && sfd >= 0 && fd != sfd && from + k <= |steps|
    ensures ReadyTurns(PollEvents(ps, steps)[from..], fd, k) == ReadyTurns(Events(steps)[from..], fd, k)
    ensures k > 0 ==>
              (ReadyAt(PollEvents(ps, steps)[from..][k - 1], fd) <==> ReadyAt(Events(steps)[from..][k - 1], fd))
  {
    var events, events' := PollEvents(ps, steps)[from..], Events(steps)[from..];
    forall j | 0 <= j < k ensures ReadyAt(events[j], fd) <==> ReadyAt(events'[j], fd) {
      P.EveryRun(ps, steps, sfd, size, v, bufsize, from + j);
    }
    SameReadyTurns(events, events', fd, k);
  }

  /**
   * After k more steps: still open if fd was readable in fewer turns than needed, and
   * closed with everything echoed if the last of these steps was the last turn needed.
   */
  ghost predicate ServedInTime(nets: seq<Net>, events: seq<Event>, bufsize: nat, fd: int, k: nat)
    requires |nets| == |events| + 1 && k <= |events| && bufsize > 0
    requires fd in nets[0].open && nets[0].open[fd].taken <= |nets[0].open[fd].sent|
  {
    var c, r := nets[0].open[fd], ReadyTurns(events, fd, k);
    && (r < TurnsNeeded(c, bufsize) ==> fd in nets[k].open)
    && (r == TurnsNeeded(c, bufsize) && k > 0 && ReadyAt(events[k - 1], fd) ==>
          && fd !in nets[k].open
          && c.(taken := |c.sent|, echoed := c.sent, sawEof := true) in nets[k].finished)
  }

  /** The service bound for any client of select.c that has stopped sending, from any point of a run on. */
  lemma SelectServesInTime(ss: seq<S.Server>, steps: seq<Step>, sfd: int, size: nat, bufsize: nat,
                           from: nat, fd: int, k: nat)
    requires S.IsRun(ss, steps, sfd, size, bufsize) && 0 <= sfd < size && bufsize > 0 && from + k <= |steps|
    requires forall j :: from <= j < |ss| ==> !ss[j].halted
    requires AlwaysReadsFully(SelectNets(ss), steps, bufsize, fd, from)
    requires fd in ss[from].net.open && ss[from].net.open[fd].fin
    ensures FaithfulSoFar(ss[from].net.open[fd])
    ensures ServedInTime(SelectNets(ss)[from..], Events(steps)[from..], bufsize, fd, k)
  {
    S.EveryRun(ss, steps, sfd, size, bufsize, from);
    assert !ss[from].halted;
    SelectRunIsHistory(ss, steps, sfd, size, bufsize, fd, from);
    BoundedService(SelectNets(ss)[from..], Events(steps)[from..], sfd, bufsize, fd, k);
  }

  /**
   * The same for poll.c, as written or as intended, with or without its listener: only a
   * turn that loses the listener can skip a client.
   */
  lemma PollServesInTime(ps: seq<P.Server>, steps: seq<Step>, sfd: int, size: nat, v: P.Variant, bufsize: nat,
                         from: nat, fd: int, k: nat)
    requires P.IsRun(ps, steps, sfd, size, v, bufsize) && sfd >= 0 && v.firstSlot <= 1 && bufsize > 0
    requires forall j :: from <= j < |ps| ==> !P.Stopped(ps[j])
    requires forall j :: from <= j < |steps| ==> !P.LosesListener(ps[j], steps[j], v)
    requires AlwaysReadsFully(PollNets(ps), steps, bufsize, fd, from) && from + k <= |steps|
    requires fd in ps[from].net.open && ps[from].net.open[fd].fin
    ensures FaithfulSoFar(ps[from].net.open[fd])
    ensures ServedInTime(PollNets(ps)[from..], Events(steps)[from..], bufsize, fd, k)
  {
    P.EveryRun(ps, steps, sfd, size, v, bufsize, from);
    assert !P.Stopped(ps[from]) && fd != sfd by { assert sfd !in P.Clients(P.Fds(ps[from].pollfds)); }
    PollRunIsHistory(ps, steps, sfd, size, v, bufsize, fd, from);
    SamePollTurns(ps, steps, sfd, size, v, bufsize, fd, from, k);
    BoundedService(PollNets(ps)[from..], PollEvents(ps, steps)[from..], sfd, bufsize, fd, k);
  }
}

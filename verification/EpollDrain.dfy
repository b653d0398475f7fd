/**
 * async-io/epoll1.c: writer threads fill pipes and one level-triggered epoll loop
 * drains and closes them. Any number of threads, any interleaving.
 */
module EpollDrain {
  import opened Prelude

  /** N_THREADS, BYTES_TO_WRITE, BUFSIZE and the capacity of a pipe. */
  datatype Config = Config(threads: nat, target: nat, bufsize: nat, capacity: nat)

  /** In a write() call `done` bytes are in the pipe already and `left` are still to be transferred. */
  datatype WriterPc = NotStarted | Filling | Writing(left: seq<Byte>, done: nat) | Finished | Failed

  /**
   * One writer thread with its pipe: `written` is the thread's counter, `queue` the
   * bytes in the pipe, `sent` and `got` the bytes ever written and ever read,
   * `writeOpen` whether the write end is open, `closes` how often the event loop
   * closed the read end.
   */
  datatype Channel = Channel(pc: WriterPc, written: nat, queue: seq<Byte>, sent: seq<Byte>, got: seq<Byte>,
                             writeOpen: bool, closes: nat)

  /** One entry of the array filled by epoll_wait(). */
  datatype Event = Event(id: nat, input: bool, hangup: bool)

  datatype MainPc = Creating(next: nat) | Waiting | Handling(events: seq<Event>) | Joining(at: nat) | Died

  datatype Program = Program(main: MainPc, remaining: int, channels: seq<Channel>)

  /** One atomic step, with everything the kernel decides about it. */
  datatype Action =
    | Create
    | Fill(id: nat, bytes: seq<Byte>)
    | Transfer(id: nat, n: nat)
    | Write(id: nat, n: nat)
    | CloseEnd(id: nat)
    | WriterFails(id: nat)
    | Wait(events: seq<Event>)
    | Interrupted
    | Handle(n: nat)
    | MainFails
    | Join

  function Fresh(): Channel {
    Channel(NotStarted, 0, [], [], [], true, 0)
  }

  /** The guard `n_remaining > 0`. */
  function LoopTest(remaining: int): MainPc {
    if remaining > 0 then Waiting else Joining(0)
  }

  function Initial(cfg: Config): Program {
    Program(if cfg.threads == 0 then LoopTest(0) else Creating(0), cfg.threads, seq(cfg.threads, _ => Fresh()))
  }

  // ----- the kernel's side: what a call may return

  /** The read end is registered and has something to report. */
  predicate Ready(c: Channel) {
    c.pc != NotStarted && c.closes == 0 && (c.queue != [] || !c.writeOpen)
  }

  predicate Reports(c: Channel, e: Event) {
    Ready(c) && e.input == (c.queue != []) && e.hangup == !c.writeOpen
  }

  /** epoll_wait() returns some ready descriptors, each once, in any order. */
  predicate MayReturn(p: Program, events: seq<Event>) {
    && events != []
    && (forall j :: 0 <= j < |events| ==> events[j].id < |p.channels| && Reports(p.channels[events[j].id], events[j]))
    && (forall j, k :: 0 <= j < k < |events| ==> events[j].id != events[k].id)
  }

  predicate IsWriters(a: Action) {
    a.Fill? || a.Transfer? || a.Write? || a.CloseEnd? || a.WriterFails?
  }

  /**
   * What a writer thread may do. While the pipe has no room for the rest, write()
   * transfers a part and goes on waiting (Transfer); it returns with the last part, or
   * earlier when it is interrupted (Write). It fails only with nothing transferred.
   */
  predicate WriterMay(c: Channel, a: Action, cfg: Config) {
    match a
    case Fill(_, bytes) => c.pc.Filling? && c.written < cfg.target && 0 < |bytes| <= cfg.bufsize
    case Transfer(_, n) => c.pc.Writing? && 0 < n < |c.pc.left| && |c.queue| + n <= cfg.capacity
    case Write(_, n) => c.pc.Writing? && 0 < n <= |c.pc.left| && |c.queue| + n <= cfg.capacity
    case CloseEnd(_) => c.pc.Filling? && c.written >= cfg.target
    case WriterFails(_) => (c.pc.Filling? && c.written == 0) || (c.pc.Writing? && c.pc.done == 0)
    case _ => false
  }

  /** error() ends the whole process, with all its threads. */
  predicate Enabled(p: Program, a: Action, cfg: Config) {
    !p.main.Died? &&
    match a
    case Create => p.main.Creating? && p.main.next < |p.channels|
    case Fill(id, _) => id < |p.channels| && WriterMay(p.channels[id], a, cfg)
    case Transfer(id, _) => id < |p.channels| && WriterMay(p.channels[id], a, cfg)
    case Write(id, _) => id < |p.channels| && WriterMay(p.channels[id], a, cfg)
    case CloseEnd(id) => id < |p.channels| && WriterMay(p.channels[id], a, cfg)
    case WriterFails(id) => id < |p.channels| && WriterMay(p.channels[id], a, cfg)
    case Wait(events) => p.main.Waiting? && MayReturn(p, events)
    case Interrupted => p.main.Waiting?
    case Handle(n) =>
      p.main.Handling? && p.main.events != [] && p.main.events[0].id < |p.channels| &&
      (p.main.events[0].input ==> 0 < n <= cfg.bufsize && n <= |p.channels[p.main.events[0].id].queue|)
    case MainFails => !p.main.Joining?
    case Join =>
      p.main.Joining? && p.main.at < |p.channels| &&
      (p.channels[p.main.at].pc.Finished? || p.channels[p.main.at].pc.Failed?)
  }

  // ----- the program's side

  function WriterStep(c: Channel, a: Action): Channel
    requires IsWriters(a) && (a.Transfer? || a.Write? ==> c.pc.Writing? && a.n <= |c.pc.left|)
  {
    match a
    case Fill(_, bytes) => c.(pc := Writing(bytes, 0))
    case Transfer(_, n) =>
      var bytes := c.pc.left[..n];
      c.(pc := Writing(c.pc.left[n..], c.pc.done + n), queue := c.queue + bytes, sent := c.sent + bytes)
    case Write(_, n) =>
      var bytes := c.pc.left[..n];
      c.(pc := Filling, written := c.written + c.pc.done + n, queue := c.queue + bytes, sent := c.sent + bytes)
    case CloseEnd(_) => c.(pc := Finished, writeOpen := false)
    case WriterFails(_) => c.(pc := Failed)
    case _ => c
  }

  /** The body of the inner loop for one event: EPOLLIN is tested before EPOLLHUP. */
  function HandleOne(c: Channel, e: Event, n: nat): Channel
    requires e.input ==> n <= |c.queue|
  {
    if e.input then c.(queue := c.queue[n..], got := c.got + c.queue[..n])
    else if e.hangup then c.(closes := c.closes + 1)
    else c
  }

  function Step(p: Program, a: Action, cfg: Config): Program
    requires Enabled(p, a, cfg)
  {
    match a
    case Create =>
      p.(channels := p.channels[p.main.next := p.channels[p.main.next].(pc := Filling)],
         main := if p.main.next + 1 < |p.channels| then Creating(p.main.next + 1) else LoopTest(p.remaining))
    case Fill(id, _) => p.(channels := p.channels[id := WriterStep(p.channels[id], a)])
    case Transfer(id, _) => p.(channels := p.channels[id := WriterStep(p.channels[id], a)])
    case Write(id, _) => p.(channels := p.channels[id := WriterStep(p.channels[id], a)])
    case CloseEnd(id) => p.(channels := p.channels[id := WriterStep(p.channels[id], a)])
    case WriterFails(id) => p.(channels := p.channels[id := WriterStep(p.channels[id], a)])
    case Wait(events) => p.(main := Handling(events))
    case Interrupted => p
    case Handle(n) =>
      var e := p.main.events[0];
      var left := p.remaining - if !e.input && e.hangup then 1 else 0;
      p.(channels := p.channels[e.id := HandleOne(p.channels[e.id], e, n)],
         remaining := left,
         main := if |p.main.events| > 1 then Handling(p.main.events[1..]) else LoopTest(left))
    case MainFails => p.(main := Died)
    case Join => p.(main := Joining(p.main.at + 1))
  }

  // ----- the invariant

  /** Bytes that a pending write() has already put into the pipe. */
  function Done(pc: WriterPc): nat {
    if pc.Writing? then pc.done else 0
  }

  predicate Conserved(c: Channel) {
    c.sent == c.got + c.queue && c.written + Done(c.pc) == |c.sent|
  }

  predicate ChannelOk(c: Channel, cfg: Config) {
    && Conserved(c)
    && |c.queue| <= cfg.capacity
    && c.written < cfg.target + cfg.bufsize
    && (c.pc.NotStarted? ==> c == Fresh())
    && (c.pc.Writing? ==> c.written < cfg.target && c.pc.done + |c.pc.left| <= cfg.bufsize && c.pc.left != [])
    && (c.pc.Finished? ==> c.written >= cfg.target)
    && (c.writeOpen <==> !c.pc.Finished?)
    && c.closes <= 1
    && (c.closes == 1 ==> c.pc.Finished? && c.queue == [])
  }

  /** A reported event stays true until it is handled, whatever the writers do meanwhile. */
  predicate EventOk(c: Channel, e: Event) {
    && c.pc != NotStarted && c.closes == 0
    && (e.input ==> c.queue != [])
    && (!e.input ==> e.hangup && !c.writeOpen && c.queue == [])
  }

  predicate EventsOk(channels: seq<Channel>, events: seq<Event>) {
    && (forall j :: 0 <= j < |events| ==> events[j].id < |channels| && EventOk(channels[events[j].id], events[j]))
    && (forall j, k :: 0 <= j < k < |events| ==> events[j].id != events[k].id)
  }

  /** Which channels exist, given how far main() has got. */
  predicate MainOk(main: MainPc, remaining: int, channels: seq<Channel>) {
    match main
    case Creating(k) => k < |channels| && remaining == |channels| &&
                        forall i :: 0 <= i < |channels| ==> (channels[i].pc.NotStarted? <==> i >= k)
    case Waiting => remaining > 0 && AllStarted(channels)
    case Handling(events) => events != [] && EventsOk(channels, events) && AllStarted(channels)
    case Joining(at) => remaining == 0 && at <= |channels| && AllStarted(channels)
    case Died => true
  }

  predicate AllStarted(channels: seq<Channel>) {
    forall i :: 0 <= i < |channels| ==> !channels[i].pc.NotStarted?
  }

  function Registered(channels: seq<Channel>): seq<int> {
    seq(|channels|, i requires 0 <= i < |channels| => 1 - channels[i].closes)
  }

  predicate ChannelsOk(channels: seq<Channel>, cfg: Config) {
    forall i :: 0 <= i < |channels| ==> ChannelOk(channels[i], cfg)
  }

  ghost predicate Inv(p: Program, cfg: Config) {
    && |p.channels| == cfg.threads
    && ChannelsOk(p.channels, cfg)
    && p.remaining == Sum(Registered(p.channels))
    && MainOk(p.main, p.remaining, p.channels)
  }

  /** The buffers exist and a pipe can hold something. */
  predicate Usable(cfg: Config) {
    cfg.bufsize > 0 && cfg.capacity > 0
  }

  lemma FreshOk(c: Channel, cfg: Config)
    requires Usable(cfg) && c == Fresh()
    ensures ChannelOk(c, cfg)
  {
  }

  lemma AllRegistered(channels: seq<Channel>)
    requires forall i :: 0 <= i < |channels| ==> channels[i].closes == 0
    ensures Sum(Registered(channels)) == |channels|
  {
    SumAllEqual(Registered(channels), 1);
  }

  lemma FreshChannels(channels: seq<Channel>, cfg: Config)
    requires Usable(cfg) && forall i :: 0 <= i < |channels| ==> channels[i] == Fresh()
    ensures ChannelsOk(channels, cfg) && Sum(Registered(channels)) == |channels|
  {
    forall i | 0 <= i < |channels| ensures ChannelOk(channels[i], cfg) {
      FreshOk(channels[i], cfg);
    }
    AllRegistered(channels);
  }

  lemma InitialInv(cfg: Config)
    requires Usable(cfg)
    ensures Inv(Initial(cfg), cfg)
  {
    FreshChannels(Initial(cfg).channels, cfg);
  }

  /** Bytes that go from a writer into its pipe are conserved. */
  lemma PutOk(c: Channel, d: Channel, bytes: seq<Byte>)
    requires Conserved(c) && d.got == c.got && d.queue == c.queue + bytes && d.sent == c.sent + bytes
    requires d.written + Done(d.pc) == c.written + Done(c.pc) + |bytes|
    ensures Conserved(d)
  {
    assert c.got + (c.queue + bytes) == (c.got + c.queue) + bytes;
  }

  lemma WriterKeepsEvents(c: Channel, a: Action, cfg: Config)
    requires ChannelOk(c, cfg) && WriterMay(c, a, cfg)
    ensures forall e :: EventOk(c, e) ==> EventOk(WriterStep(c, a), e)
  {
  }

  /** A call of write() that puts n more bytes into the pipe, and goes on or returns. */
  lemma PutKeepsOk(c: Channel, n: nat, pc: WriterPc, written: nat, cfg: Config)
    requires ChannelOk(c, cfg) && c.pc.Writing? && 0 < n <= |c.pc.left| && |c.queue| + n <= cfg.capacity
    requires written + Done(pc) == c.written + c.pc.done + n
    requires if pc.Writing? then written == c.written && n < |c.pc.left| && pc.left == c.pc.left[n..] else pc.Filling?
    ensures var bytes := c.pc.left[..n];
            ChannelOk(c.(pc := pc, written := written, queue := c.queue + bytes, sent := c.sent + bytes), cfg)
  {
    var bytes := c.pc.left[..n];
    PutOk(c, c.(pc := pc, written := written, queue := c.queue + bytes, sent := c.sent + bytes), bytes);
  }

  lemma WriterStepOk(c: Channel, a: Action, cfg: Config)
    requires ChannelOk(c, cfg) && WriterMay(c, a, cfg)
    ensures ChannelOk(WriterStep(c, a), cfg) && WriterStep(c, a).closes == c.closes
    ensures !c.pc.NotStarted? && !WriterStep(c, a).pc.NotStarted?
  {
    match a {
      case Transfer(_, n) => PutKeepsOk(c, n, Writing(c.pc.left[n..], c.pc.done + n), c.written, cfg);
      case Write(_, n) => PutKeepsOk(c, n, Filling, c.written + c.pc.done + n, cfg);
      case _ =>
    }
  }

  lemma HandleOneOk(c: Channel, e: Event, n: nat, cfg: Config)
    requires ChannelOk(c, cfg) && EventOk(c, e) && (e.input ==> 0 < n <= |c.queue|)
    ensures ChannelOk(HandleOne(c, e, n), cfg)
    ensures HandleOne(c, e, n).closes == c.closes + if e.input then 0 else 1
    ensures !HandleOne(c, e, n).pc.NotStarted?
  {
    if e.input { assert c.got + c.queue[..n] + c.queue[n..] == c.got + c.queue; }
  }

  lemma UpdateRegistered(channels: seq<Channel>, id: nat, c: Channel)
    requires id < |channels|
    ensures Sum(Registered(channels[id := c])) == Sum(Registered(channels)) + channels[id].closes - c.closes
  {
    assert Registered(channels[id := c]) == Registered(channels)[id := 1 - c.closes];
    SumUpdate(Registered(channels), id, 1 - c.closes);
  }

  lemma ReplaceOk(channels: seq<Channel>, k: nat, d: Channel, cfg: Config)
    requires ChannelsOk(channels, cfg) && k < |channels| && ChannelOk(d, cfg)
    ensures ChannelsOk(channels[k := d], cfg)
  {
  }

  /** A channel may change in any way that keeps the reported events true. */
  lemma ReplaceKeepsInv(p: Program, id: nat, d: Channel, cfg: Config)
    requires Inv(p, cfg) && id < |p.channels| && ChannelOk(d, cfg)
    requires d.closes == p.channels[id].closes && !d.pc.NotStarted? && !p.channels[id].pc.NotStarted?
    requires forall e :: EventOk(p.channels[id], e) ==> EventOk(d, e)
    ensures Inv(p.(channels := p.channels[id := d]), cfg)
  {
    UpdateRegistered(p.channels, id, d);
    ReplaceOk(p.channels, id, d, cfg);
    var channels := p.channels[id := d];
    assert forall i :: 0 <= i < |channels| ==> (channels[i].pc.NotStarted? <==> p.channels[i].pc.NotStarted?);
    if p.main.Handling? {
      forall j | 0 <= j < |p.main.events|
        ensures EventOk(channels[p.main.events[j].id], p.main.events[j])
      {
        assert EventOk(p.channels[p.main.events[j].id], p.main.events[j]);
      }
    }
  }

  /** A writer's step keeps everything that main() relies on. */
  lemma WriterKeepsInv(p: Program, a: Action, id: nat, cfg: Config)
    requires Inv(p, cfg) && Enabled(p, a, cfg) && id < |p.channels|
    requires IsWriters(a) && a.id == id
    ensures Inv(Step(p, a, cfg), cfg)
  {
    var d := WriterStep(p.channels[id], a);
    WriterStepOk(p.channels[id], a, cfg);
    WriterKeepsEvents(p.channels[id], a, cfg);
    ReplaceKeepsInv(p, id, d, cfg);
    assert Step(p, a, cfg) == p.(channels := p.channels[id := d]);
  }

  lemma WaitKeepsInv(p: Program, events: seq<Event>, cfg: Config)
    requires Inv(p, cfg) && Enabled(p, Wait(events), cfg)
    ensures Inv(Step(p, Wait(events), cfg), cfg)
  {
    forall j | 0 <= j < |events| ensures EventOk(p.channels[events[j].id], events[j]) {
      assert Reports(p.channels[events[j].id], events[j]);
    }
  }

  lemma HandleKeepsInv(p: Program, n: nat, cfg: Config)
    requires Inv(p, cfg) && Enabled(p, Handle(n), cfg)
    ensures Inv(Step(p, Handle(n), cfg), cfg)
  {
    var events := p.main.events;
    var e := events[0];
    var c := p.channels[e.id];
    assert EventOk(c, e);
    HandleOneOk(c, e, n, cfg);
    var d := HandleOne(c, e, n);
    UpdateRegistered(p.channels, e.id, d);
    var channels := p.channels[e.id := d];
    forall j | 1 <= j < |events| ensures EventOk(channels[events[j].id], events[j]) {
      assert events[j].id != e.id;
    }
    assert EventsOk(channels, events[1..]);
    var q := Step(p, Handle(n), cfg);
    assert q.remaining == Sum(Registered(channels)) && AllStarted(channels);
    SumOfRegistered(channels, cfg);
  }

  lemma SumOfRegistered(channels: seq<Channel>, cfg: Config)
    requires ChannelsOk(channels, cfg)
    ensures Sum(Registered(channels)) >= 0
    ensures Sum(Registered(channels)) == 0 ==> forall i :: 0 <= i < |channels| ==> channels[i].closes == 1
    ensures Sum(Registered(channels)) > 0 ==> exists i :: 0 <= i < |channels| && channels[i].closes == 0
  {
    var r := Registered(channels);
    SumNonNegative(r);
    forall i | 0 <= i < |channels| ensures Sum(r) == 0 ==> channels[i].closes == 1 {
      assert r[i] <= Sum(r);
    }
    if Sum(r) > 0 && forall i :: 0 <= i < |channels| ==> channels[i].closes != 0 {
      SumAllEqual(r, 0);
      assert false;
    }
  }

  lemma StartedOk(cfg: Config)
    requires Usable(cfg)
    ensures ChannelOk(Fresh().(pc := Filling), cfg)
  {
  }

  lemma CreatedMain(k: nat, remaining: int, channels: seq<Channel>, d: Channel)
    requires MainOk(Creating(k), remaining, channels) && !d.pc.NotStarted?
    ensures MainOk(if k + 1 < |channels| then Creating(k + 1) else LoopTest(remaining), remaining, channels[k := d])
  {
  }

  lemma CreatedInv(p: Program, k: nat, d: Channel, cfg: Config)
    requires Inv(p, cfg) && p.main == Creating(k) && ChannelOk(d, cfg)
    requires d.closes == p.channels[k].closes && !d.pc.NotStarted?
    ensures var main := if k + 1 < |p.channels| then Creating(k + 1) else LoopTest(p.remaining);
            Inv(p.(channels := p.channels[k := d], main := main), cfg)
  {
    UpdateRegistered(p.channels, k, d);
    ReplaceOk(p.channels, k, d, cfg);
    CreatedMain(k, p.remaining, p.channels, d);
  }

  lemma CreateKeepsInv(p: Program, cfg: Config)
    requires Usable(cfg) && Inv(p, cfg) && Enabled(p, Create, cfg)
    ensures Inv(Step(p, Create, cfg), cfg)
  {
    var k, d := p.main.next, p.channels[p.main.next].(pc := Filling);
    assert p.channels[k] == Fresh() by { assert ChannelOk(p.channels[k], cfg); }
    StartedOk(cfg);
    CreatedInv(p, k, d, cfg);
  }

  lemma StepKeepsInv(p: Program, a: Action, cfg: Config)
    requires Usable(cfg) && Inv(p, cfg) && Enabled(p, a, cfg)
    ensures Inv(Step(p, a, cfg), cfg)
  {
    match a {
      case Create => CreateKeepsInv(p, cfg);
      case Fill(id, _) => WriterKeepsInv(p, a, id, cfg);
      case Transfer(id, _) => WriterKeepsInv(p, a, id, cfg);
      case Write(id, _) => WriterKeepsInv(p, a, id, cfg);
      case CloseEnd(id) => WriterKeepsInv(p, a, id, cfg);
      case WriterFails(id) => WriterKeepsInv(p, a, id, cfg);
      case Wait(events) => WaitKeepsInv(p, events, cfg);
      case Interrupted =>
      case Handle(n) => HandleKeepsInv(p, n, cfg);
      case MainFails =>
      case Join =>
    }
  }

  // ----- what holds when the drain loop is left

  /**
   * Leaving the loop means that every pipe was closed exactly once and that every
   * byte arrived, in order; each writer wrote at least its target and less than one
   * buffer more.
   */
  lemma DrainedAtExit(p: Program, cfg: Config, i: nat)
    requires Inv(p, cfg) && p.main.Joining? && i < |p.channels|
    ensures p.channels[i].closes == 1 && p.channels[i].pc.Finished?
    ensures p.channels[i].got == p.channels[i].sent
    ensures cfg.target <= |p.channels[i].sent| < cfg.target + cfg.bufsize
  {
    SumOfRegistered(p.channels, cfg);
    assert ChannelOk(p.channels[i], cfg);
    assert p.channels[i].got + [] == p.channels[i].got;
  }

  // ----- progress

  /** Steps that are taken unless something is interrupted or fails. */
  predicate Normal(a: Action) {
    !a.Interrupted? && !a.WriterFails? && !a.MainFails?
  }

  ghost predicate Stuck(p: Program, cfg: Config) {
    forall a :: Normal(a) ==> !Enabled(p, a, cfg)
  }

  /** A writer that has started and has not ended can always move unless its pipe is full. */
  lemma WriterMoves(p: Program, i: nat, cfg: Config)
    requires Usable(cfg) && Inv(p, cfg) && Stuck(p, cfg) && i < |p.channels|
    requires !p.channels[i].pc.NotStarted? && !p.main.Died?
    ensures p.channels[i].pc.Finished? || p.channels[i].pc.Failed? ||
            (p.channels[i].pc.Writing? && |p.channels[i].queue| == cfg.capacity)
  {
    var c := p.channels[i];
    assert ChannelOk(c, cfg);
    assert !Enabled(p, CloseEnd(i), cfg) && !Enabled(p, Fill(i, [0]), cfg) && !Enabled(p, Write(i, 1), cfg);
  }

  lemma NothingReady(p: Program, i: nat, cfg: Config)
    requires Usable(cfg) && Inv(p, cfg) && Stuck(p, cfg) && p.main.Waiting? && i < |p.channels|
    ensures !Ready(p.channels[i])
  {
    if Ready(p.channels[i]) {
      var e := Event(i, p.channels[i].queue != [], !p.channels[i].writeOpen);
      assert Enabled(p, Wait([e]), cfg);
    }
  }

  lemma HandlingMoves(p: Program, cfg: Config)
    requires Usable(cfg) && Inv(p, cfg) && p.main.Handling?
    ensures Enabled(p, Handle(1), cfg)
  {
    assert EventOk(p.channels[p.main.events[0].id], p.main.events[0]);
  }

  /**
   * Where a run can end: in main()'s last statement if no writer failed, and
   * otherwise waiting for ever for exactly the pipes of the failed writers, which
   * are empty; all others are drained and closed.
   */
  lemma StuckMeans(p: Program, cfg: Config)
    requires Usable(cfg) && Inv(p, cfg) && Stuck(p, cfg) && !p.main.Died?
    ensures (forall i :: 0 <= i < |p.channels| ==> !p.channels[i].pc.Failed?) <==> p.main == Joining(cfg.threads)
    ensures p.main.Waiting? || p.main == Joining(cfg.threads)
    ensures forall i :: 0 <= i < |p.channels| ==>
              && p.channels[i].got == p.channels[i].sent
              && (p.channels[i].closes == 1 <==> p.channels[i].pc.Finished?)
              && (p.channels[i].closes == 0 <==> p.channels[i].pc.Failed?)
  {
    assert !Enabled(p, Create, cfg) && !Enabled(p, Join, cfg);
    match p.main {
      case Creating(k) => assert false;
      case Handling(_) => HandlingMoves(p, cfg);
      case Waiting =>
        SumOfRegistered(p.channels, cfg);
        forall i | 0 <= i < |p.channels|
          ensures p.channels[i].got == p.channels[i].sent
          ensures p.channels[i].closes == 1 <==> p.channels[i].pc.Finished?
          ensures p.channels[i].closes == 0 <==> p.channels[i].pc.Failed?
        {
          NothingReady(p, i, cfg);
          WriterMoves(p, i, cfg);
          assert ChannelOk(p.channels[i], cfg);
          assert p.channels[i].got + [] == p.channels[i].got;
        }
      case Joining(at) =>
        forall i | 0 <= i < |p.channels|
          ensures p.channels[i].closes == 1 && p.channels[i].pc.Finished? && p.channels[i].got == p.channels[i].sent
        {
          DrainedAtExit(p, cfg, i);
        }
    }
  }

  // ----- a bound on the length of runs

  function Budget(cfg: Config): nat {
    cfg.target + cfg.bufsize
  }

  function WriterRank(c: Channel, cfg: Config): int {
    match c.pc
    case NotStarted => 2 * Budget(cfg) + 3
    case Filling => 2 * (Budget(cfg) - c.written) + 2
    case Writing(_, done) => 2 * (Budget(cfg) - c.written - done) + 1
    case _ => 0
  }

  function ChannelRank(c: Channel, cfg: Config): int {
    WriterRank(c, cfg) + 2 * (Budget(cfg) - |c.got|) + 2 * (1 - c.closes)
  }

  function Ranks(channels: seq<Channel>, cfg: Config): seq<int> {
    seq(|channels|, i requires 0 <= i < |channels| => ChannelRank(channels[i], cfg))
  }

  function MainRank(main: MainPc, n: nat): int {
    match main
    case Creating(k) => 2 * n + 3 - k
    case Waiting => n + 2
    case Handling(_) => n + 1
    case Joining(at) => n - at
    case Died => 0
  }

  function Rank(p: Program, cfg: Config): int {
    MainRank(p.main, cfg.threads) + Sum(Ranks(p.channels, cfg))
  }

  lemma UpdateRanks(channels: seq<Channel>, id: nat, c: Channel, cfg: Config)
    requires id < |channels|
    ensures Sum(Ranks(channels[id := c], cfg)) ==
            Sum(Ranks(channels, cfg)) - ChannelRank(channels[id], cfg) + ChannelRank(c, cfg)
  {
    assert Ranks(channels[id := c], cfg) == Ranks(channels, cfg)[id := ChannelRank(c, cfg)];
    SumUpdate(Ranks(channels, cfg), id, ChannelRank(c, cfg));
  }

  lemma RankNonNegative(p: Program, cfg: Config)
    requires Inv(p, cfg)
    ensures Rank(p, cfg) >= 0
  {
    forall i | 0 <= i < |p.channels| ensures Ranks(p.channels, cfg)[i] >= 0 {
      assert ChannelOk(p.channels[i], cfg);
    }
    SumNonNegative(Ranks(p.channels, cfg));
  }

  lemma WriterRankDecreases(p: Program, a: Action, id: nat, cfg: Config)
    requires Inv(p, cfg) && Enabled(p, a, cfg) && id < |p.channels|
    requires IsWriters(a) && a.id == id
    ensures Rank(Step(p, a, cfg), cfg) < Rank(p, cfg)
  {
    assert ChannelOk(p.channels[id], cfg);
    UpdateRanks(p.channels, id, WriterStep(p.channels[id], a), cfg);
  }

  lemma HandleRankDecreases(p: Program, n: nat, cfg: Config)
    requires Inv(p, cfg) && Enabled(p, Handle(n), cfg)
    ensures Rank(Step(p, Handle(n), cfg), cfg) < Rank(p, cfg)
  {
    var e := p.main.events[0];
    assert EventOk(p.channels[e.id], e);
    UpdateRanks(p.channels, e.id, HandleOne(p.channels[e.id], e, n), cfg);
  }

  /** Every step except an interrupted wait uses up some of the rank. */
  lemma RankDecreases(p: Program, a: Action, cfg: Config)
    requires Inv(p, cfg) && Enabled(p, a, cfg) && !a.Interrupted?
    ensures Rank(Step(p, a, cfg), cfg) < Rank(p, cfg)
  {
    match a {
      case Create => UpdateRanks(p.channels, p.main.next, p.channels[p.main.next].(pc := Filling), cfg);
      case Fill(id, _) => WriterRankDecreases(p, a, id, cfg);
      case Transfer(id, _) => WriterRankDecreases(p, a, id, cfg);
      case Write(id, _) => WriterRankDecreases(p, a, id, cfg);
      case CloseEnd(id) => WriterRankDecreases(p, a, id, cfg);
      case WriterFails(id) => WriterRankDecreases(p, a, id, cfg);
      case Handle(n) => HandleRankDecreases(p, n, cfg);
      case _ =>
    }
  }

  // ----- whole runs

  ghost predicate IsRun(trace: seq<Program>, actions: seq<Action>, cfg: Config) {
    && |trace| == |actions| + 1
    && trace[0] == Initial(cfg)
    && (forall k :: 0 <= k < |actions| ==>
          Enabled(trace[k], actions[k], cfg) && trace[k + 1] == Step(trace[k], actions[k], cfg))
  }

  function Uninterrupted(actions: seq<Action>, k: nat): nat
    requires k <= |actions|
  {
    if k == 0 then 0 else Uninterrupted(actions, k - 1) + if actions[k - 1].Interrupted? then 0 else 1
  }

  lemma {:induction false} EveryRun(trace: seq<Program>, actions: seq<Action>, cfg: Config, k: nat)
    requires Usable(cfg) && IsRun(trace, actions, cfg) && k < |trace|
    ensures Inv(trace[k], cfg)
    ensures Uninterrupted(actions, k) + Rank(trace[k], cfg) <= Rank(Initial(cfg), cfg)
  {
    if k == 0 {
      InitialInv(cfg);
    } else {
      EveryRun(trace, actions, cfg, k - 1);
      StepKeepsInv(trace[k - 1], actions[k - 1], cfg);
      if !actions[k - 1].Interrupted? { RankDecreases(trace[k - 1], actions[k - 1], cfg); }
    }
  }

  /** A failed writer keeps its write end open, so its pipe is never closed. */
  lemma FailureBlocksExit(p: Program, cfg: Config, i: nat)
    requires Inv(p, cfg) && i < |p.channels| && p.channels[i].pc.Failed?
    ensures !p.main.Joining?
  {
    if p.main.Joining? { DrainedAtExit(p, cfg, i); }
  }

  // ----- what is written and read, from the actions of a run alone

  /** The bytes that writer i passed to its last write(). */
  function Chunk(actions: seq<Action>, i: nat, k: nat): seq<Byte>
    requires k <= |actions|
  {
    if k == 0 then [] else
    match actions[k - 1]
    case Fill(id, bytes) => if id == i then bytes else Chunk(actions, i, k - 1)
    case _ => Chunk(actions, i, k - 1)
  }

  /** How many of them were transferred. */
  function Moved(actions: seq<Action>, i: nat, k: nat): nat
    requires k <= |actions|
  {
    if k == 0 then 0 else
    match actions[k - 1]
    case Fill(id, _) => if id == i then 0 else Moved(actions, i, k - 1)
    case Transfer(id, n) => Moved(actions, i, k - 1) + if id == i then n else 0
    case Write(id, n) => Moved(actions, i, k - 1) + if id == i then n else 0
    case _ => Moved(actions, i, k - 1)
  }

  function Cut(bytes: seq<Byte>, n: nat): seq<Byte> {
    if n <= |bytes| then bytes[..n] else bytes
  }

  /** What was transferred of the calls before the last one. */
  function Earlier(actions: seq<Action>, i: nat, k: nat): seq<Byte>
    requires k <= |actions|
  {
    if k == 0 then [] else
    match actions[k - 1]
    case Fill(id, _) =>
      if id == i then Earlier(actions, i, k - 1) + Cut(Chunk(actions, i, k - 1), Moved(actions, i, k - 1))
      else Earlier(actions, i, k - 1)
    case _ => Earlier(actions, i, k - 1)
  }

  /** Everything writer i has written in k steps: of each call the part that was transferred, in order. */
  function WrittenBy(actions: seq<Action>, i: nat, k: nat): seq<Byte>
    requires k <= |actions|
  {
    Earlier(actions, i, k) + Cut(Chunk(actions, i, k), Moved(actions, i, k))
  }

  /** What the last epoll_wait() returned. */
  function Batch(actions: seq<Action>, k: nat): seq<Event>
    requires k <= |actions|
  {
    if k == 0 then [] else if actions[k - 1].Wait? then actions[k - 1].events else Batch(actions, k - 1)
  }

  /** How many events have been handled since. */
  function Handled(actions: seq<Action>, k: nat): nat
    requires k <= |actions|
  {
    if k == 0 then 0 else
    match actions[k - 1]
    case Wait(_) => 0
    case Handle(_) => Handled(actions, k - 1) + 1
    case _ => Handled(actions, k - 1)
  }

  /** Step k handles an event of channel i. */
  predicate HandlesAt(actions: seq<Action>, i: nat, k: nat)
    requires k < |actions|
  {
    actions[k].Handle? && Handled(actions, k) < |Batch(actions, k)| && Batch(actions, k)[Handled(actions, k)].id == i
  }

  /** How many bytes have been read from pipe i. */
  function ReadFrom(actions: seq<Action>, i: nat, k: nat): nat
    requires k <= |actions|
  {
    if k == 0 then 0 else
    ReadFrom(actions, i, k - 1) +
    if HandlesAt(actions, i, k - 1) && Batch(actions, k - 1)[Handled(actions, k - 1)].input then actions[k - 1].n else 0
  }

  ghost predicate WriterAt(c: Channel, actions: seq<Action>, i: nat, k: nat)
    requires k <= |actions|
  {
    var chunk, moved := Chunk(actions, i, k), Moved(actions, i, k);
    && moved <= |chunk| && c.sent == Earlier(actions, i, k) + chunk[..moved]
    && (c.pc.Writing? ==> c.pc.left == chunk[moved..] && c.pc.done == moved)
  }

  lemma PutMore(sent: seq<Byte>, earlier: seq<Byte>, chunk: seq<Byte>, m: nat, n: nat)
    requires m + n <= |chunk| && sent == earlier + chunk[..m]
    ensures sent + chunk[m..][..n] == earlier + chunk[..m + n] && chunk[m..][n..] == chunk[m + n..]
  {
  }

  lemma OwnStep(c: Channel, a: Action, actions: seq<Action>, i: nat, k: nat, cfg: Config)
    requires k < |actions| && a == actions[k] && WriterMay(c, a, cfg) && a.id == i && WriterAt(c, actions, i, k)
    ensures WriterAt(WriterStep(c, a), actions, i, k + 1)
  {
    if a.Transfer? || a.Write? {
      PutMore(c.sent, Earlier(actions, i, k), Chunk(actions, i, k), Moved(actions, i, k), a.n);
    }
  }

  lemma OthersStep(c: Channel, d: Channel, actions: seq<Action>, i: nat, k: nat)
    requires k < |actions| && WriterAt(c, actions, i, k) && !(IsWriters(actions[k]) && actions[k].id == i)
    requires d.sent == c.sent && (d.pc.Writing? ==> d.pc == c.pc)
    ensures WriterAt(d, actions, i, k + 1)
  {
  }

  lemma WriterFollows(p: Program, actions: seq<Action>, i: nat, k: nat, cfg: Config)
    requires k < |actions| && i < |p.channels| && Enabled(p, actions[k], cfg) && WriterAt(p.channels[i], actions, i, k)
    ensures i < |Step(p, actions[k], cfg).channels|
    ensures WriterAt(Step(p, actions[k], cfg).channels[i], actions, i, k + 1)
  {
    var a := actions[k];
    if IsWriters(a) && a.id == i {
      OwnStep(p.channels[i], a, actions, i, k, cfg);
    } else {
      OthersStep(p.channels[i], Step(p, a, cfg).channels[i], actions, i, k);
    }
  }

  /** The event loop stands where the actions say: at the next event of the last batch, or at its end. */
  ghost predicate LoopAt(p: Program, actions: seq<Action>, k: nat)
    requires k <= |actions|
  {
    var batch, handled := Batch(actions, k), Handled(actions, k);
    && handled <= |batch|
    && (p.main.Handling? ==> handled < |batch| && p.main.events == batch[handled..])
    && (p.main.Creating? || p.main.Waiting? || p.main.Joining? ==> handled == |batch|)
    && (forall i :: 0 <= i < |p.channels| ==> |p.channels[i].got| == ReadFrom(actions, i, k))
  }

  lemma LoopFollows(p: Program, actions: seq<Action>, k: nat, cfg: Config)
    requires k < |actions| && Enabled(p, actions[k], cfg) && LoopAt(p, actions, k)
    ensures LoopAt(Step(p, actions[k], cfg), actions, k + 1)
  {
    var q := Step(p, actions[k], cfg);
    forall i | 0 <= i < |q.channels| ensures |q.channels[i].got| == ReadFrom(actions, i, k + 1) {
      assert |p.channels[i].got| == ReadFrom(actions, i, k);
    }
  }

  /**
   * Over every run: what is in each pipe and what was read from it is what its writer
   * passed to its write() calls, cut to what they transferred, in order; and each batch of
   * events is handled completely, one by one, before the next epoll_wait().
   */
  lemma {:induction false} BytesOverRuns(trace: seq<Program>, actions: seq<Action>, cfg: Config, k: nat)
    requires Usable(cfg) && IsRun(trace, actions, cfg) && k < |trace|
    ensures LoopAt(trace[k], actions, k)
    ensures forall i :: 0 <= i < |trace[k].channels| ==> WriterAt(trace[k].channels[i], actions, i, k)
  {
    if k > 0 {
      BytesOverRuns(trace, actions, cfg, k - 1);
      LoopFollows(trace[k - 1], actions, k - 1, cfg);
      forall i | 0 <= i < |trace[k].channels| ensures WriterAt(trace[k].channels[i], actions, i, k) {
        WriterFollows(trace[k - 1], actions, i, k - 1, cfg);
      }
    }
  }

  /** In every reachable state the bytes read from a pipe are the first ones that its writer wrote. */
  lemma BytesRead(trace: seq<Program>, actions: seq<Action>, cfg: Config, k: nat, i: nat)
    requires Usable(cfg) && IsRun(trace, actions, cfg) && k < |trace| && i < |trace[k].channels|
    ensures var c, w := trace[k].channels[i], WrittenBy(actions, i, k);
            c.got + c.queue == w && |c.got| == ReadFrom(actions, i, k)
  {
    EveryRun(trace, actions, cfg, k);
    BytesOverRuns(trace, actions, cfg, k);
    assert ChannelOk(trace[k].channels[i], cfg) && WriterAt(trace[k].channels[i], actions, i, k);
  }

  /** The pipe of channel c was closed once and has delivered exactly these bytes. */
  predicate Delivered(c: Channel, bytes: seq<Byte>, cfg: Config) {
    c.closes == 1 && c.got == bytes && cfg.target <= |bytes| < cfg.target + cfg.bufsize
  }

  /**
   * For any number of writers and any interleaving: runs are finite up to
   * interruptions; a run that cannot go on and did not die returns from main() if
   * and only if no writer failed, and then every pipe was closed exactly once and
   * delivered, in order, what its writer passed to write(). Without that, too, all that
   * was written has been read.
   */
  lemma EveryRunDrains(trace: seq<Program>, actions: seq<Action>, cfg: Config)
    requires Usable(cfg) && IsRun(trace, actions, cfg)
    ensures Uninterrupted(actions, |actions|) <= Rank(Initial(cfg), cfg)
    ensures var end, n := trace[|actions|], |actions|;
            Stuck(end, cfg) && !end.main.Died? ==>
              && (end.main == Joining(cfg.threads) <==>
                    forall i :: 0 <= i < |end.channels| ==> !end.channels[i].pc.Failed?)
              && (forall i :: 0 <= i < |end.channels| ==>
                    && end.channels[i].got == WrittenBy(actions, i, n)
                    && (end.main == Joining(cfg.threads) ==>
                          Delivered(end.channels[i], WrittenBy(actions, i, n), cfg)))
  {
    EveryRun(trace, actions, cfg, |actions|);
    var end, n := trace[|actions|], |actions|;
    RankNonNegative(end, cfg);
    if Stuck(end, cfg) && !end.main.Died? {
      StuckMeans(end, cfg);
      forall i | 0 <= i < |end.channels|
        ensures end.channels[i].got == WrittenBy(actions, i, n)
        ensures end.main.Joining? ==> Delivered(end.channels[i], WrittenBy(actions, i, n), cfg)
      {
        BytesRead(trace, actions, cfg, n, i);
        assert ChannelOk(end.channels[i], cfg);
        assert end.channels[i].queue == [];
        if end.main.Joining? { DrainedAtExit(end, cfg, i); }
      }
    }
  }

  /** The program under a given schedule; steps that are not enabled are skipped. */
  function After(p: Program, schedule: seq<Action>, cfg: Config): Program
    decreases |schedule|
  {
    if schedule == [] then p
    else After(if Enabled(p, schedule[0], cfg) then Step(p, schedule[0], cfg) else p, schedule[1..], cfg)
  }

  /** The schedule of a run leads to its end. */
  lemma {:induction false} RunIsAfter(trace: seq<Program>, actions: seq<Action>, cfg: Config, k: nat)
    requires IsRun(trace, actions, cfg) && k <= |actions|
    ensures After(trace[k], actions[k..], cfg) == trace[|actions|]
    decreases |actions| - k
  {
    if k < |actions| {
      RunIsAfter(trace, actions, cfg, k + 1);
      assert actions[k..][1..] == actions[k + 1..];
    }
  }

  method Replay(cfg: Config, schedule: seq<Action>) returns (p: Program)
    requires Usable(cfg)
    ensures p == After(Initial(cfg), schedule, cfg) && Inv(p, cfg)
    ensures p.main.Joining? ==>
              forall i :: 0 <= i < |p.channels| ==> p.channels[i].got == p.channels[i].sent && p.channels[i].closes == 1
  {
    p := Initial(cfg);
    InitialInv(cfg);
    for k := 0 to |schedule|
      invariant Inv(p, cfg)
      invariant After(Initial(cfg), schedule, cfg) == After(p, schedule[k..], cfg)
    {
      assert schedule[k..][1..] == schedule[k + 1..];
      if Enabled(p, schedule[k], cfg) {
        StepKeepsInv(p, schedule[k], cfg);
        p := Step(p, schedule[k], cfg);
      }
    }
    if p.main.Joining? {
      forall i | 0 <= i < |p.channels| ensures p.channels[i].got == p.channels[i].sent && p.channels[i].closes == 1 {
        DrainedAtExit(p, cfg, i);
      }
    }
  }

  // ----- the order of the two tests matters

  /** The same event with EPOLLHUP tested first. */
  function HandleHangupFirst(c: Channel, e: Event, n: nat): Channel
    requires e.input ==> n <= |c.queue|
  {
    if e.hangup then c.(closes := c.closes + 1)
    else if e.input then c.(queue := c.queue[n..], got := c.got + c.queue[..n])
    else c
  }

  /**
   * An event with both flags always has bytes in the pipe: closing on EPOLLHUP first
   * would cut them off, while the loop as written reads and leaves the pipe open.
   */
  lemma HangupFirstLosesBytes(p: Program, cfg: Config, n: nat)
    requires Inv(p, cfg) && Enabled(p, Handle(n), cfg) && p.main.events[0].input && p.main.events[0].hangup
    ensures var c, e := p.channels[p.main.events[0].id], p.main.events[0];
            && HandleHangupFirst(c, e, n).closes == 1 && HandleHangupFirst(c, e, n).got != c.sent
            && HandleOne(c, e, n).closes == 0 && |HandleOne(c, e, n).got| > |c.got|
  {
    var c := p.channels[p.main.events[0].id];
    assert EventOk(c, p.main.events[0]) && ChannelOk(c, cfg);
    assert |c.sent| == |c.got| + |c.queue|;
  }

  ghost predicate Reachable(p: Program, cfg: Config) {
    exists trace: seq<Program>, actions: seq<Action> :: IsRun(trace, actions, cfg) && trace[|actions|] == p
  }

  lemma ReachStep(p: Program, a: Action, cfg: Config)
    requires Reachable(p, cfg) && Enabled(p, a, cfg)
    ensures Reachable(Step(p, a, cfg), cfg)
  {
    var trace: seq<Program>, actions: seq<Action> :| IsRun(trace, actions, cfg) && trace[|actions|] == p;
    assert IsRun(trace + [Step(p, a, cfg)], actions + [a], cfg);
  }

  /** One writer that sends one byte ... */
  lemma OneByteSent(byte: Byte) returns (p: Program)
    ensures Reachable(p, Config(1, 1, 1, 1)) && p.main.Waiting? && |p.channels| == 1
    ensures p.channels[0].pc.Filling? && p.channels[0].written == 1
    ensures p.channels[0].queue == [byte] && p.channels[0].closes == 0
  {
    var cfg := Config(1, 1, 1, 1);
    p := Initial(cfg);
    assert IsRun([p], [], cfg);
    ReachStep(p, Create, cfg);
    p := Step(p, Create, cfg);
    ReachStep(p, Fill(0, [byte]), cfg);
    p := Step(p, Fill(0, [byte]), cfg);
    ReachStep(p, Write(0, 1), cfg);
    p := Step(p, Write(0, 1), cfg);
  }

  /** ... and ends before the loop looks: events with both flags do occur. */
  lemma BothFlagsOccur(byte: Byte) returns (p: Program)
    ensures Reachable(p, Config(1, 1, 1, 1)) && p.main == Handling([Event(0, true, true)])
  {
    var cfg, events := Config(1, 1, 1, 1), [Event(0, true, true)];
    p := OneByteSent(byte);
    ReachStep(p, CloseEnd(0), cfg);
    p := Step(p, CloseEnd(0), cfg);
    assert MayReturn(p, events) by { assert Reports(p.channels[0], events[0]); }
    ReachStep(p, Wait(events), cfg);
    p := Step(p, Wait(events), cfg);
  }

  /** A writer that fails at once: the program is left waiting, and nothing can move any more. */
  lemma FailureIsReached() returns (p: Program)
    ensures var cfg := Config(1, 1, 1, 1);
            && Reachable(p, cfg) && Stuck(p, cfg) && p.main.Waiting?
            && |p.channels| == 1 && p.channels[0].pc.Failed?
  {
    var cfg := Config(1, 1, 1, 1);
    p := Initial(cfg);
    assert IsRun([p], [], cfg);
    ReachStep(p, Create, cfg);
    p := Step(p, Create, cfg);
    ReachStep(p, WriterFails(0), cfg);
    p := Step(p, WriterFails(0), cfg);
    assert p.channels == [Fresh().(pc := Failed)];
    forall a | Normal(a) ensures !Enabled(p, a, cfg) {
      if a.Wait? && a.events != [] { assert !Reports(p.channels[0], a.events[0]); }
    }
  }
}

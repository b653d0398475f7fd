/**
 * process/redirect1.c: a parent forks a writer and a reader, connects them with one
 * pipe and itself to the reader with another, waits for both, and only then reads.
 * Three processes with inherited descriptor tables under any interleaving.
 */
module Pipeline {
  import opened Prelude

  /** What a descriptor refers to: an end of the child-to-child pipe A, of the child-to-parent pipe B, or else. */
  datatype End = AR | AW | BR | BW | Terminal

  type Table = map<int, End>

  /** How a child fares: fork() fails, exec() fails, or the program runs. */
  datatype Fate = ForkFails | ExecFails | Runs

  /**
   * The descriptors returned by pipe(), the bytes the writer program writes, the
   * reader program as a function from its whole input to its output, the capacity
   * of a pipe, and the children's fates. `closeFirst` is the order of the code: the
   * parent closes its copy of AW before it forks the reader.
   */
  datatype Config = Config(a0: int, a1: int, b0: int, b1: int, message: seq<Byte>,
                           report: seq<Byte> -> seq<Byte>, capacity: nat, bufsize: nat,
                           writer: Fate, reader: Fate, closeFirst: bool)

  datatype ChildPc = Absent | Dup(n: nat) | Exec | Consuming(input: seq<Byte>) | Producing(left: seq<Byte>)
                   | Zombie | Reaped

  datatype Child = Child(pc: ChildPc, fds: Table)

  datatype ParentPc = ForkWriter | CloseA1 | ForkReader | CloseA0 | CloseB1 | Waiting(n: nat) | Reading | Done

  /** `a` and `b` are the bytes in the two pipes, `printed` what the parent has printed. */
  datatype System = System(parent: ParentPc, pfds: Table, writer: Child, reader: Child,
                           a: seq<Byte>, b: seq<Byte>, printed: seq<Byte>)

  /** n bytes are transferred by a read or write; `first` picks the writer if wait() has a choice. */
  datatype Action = Parent(n: nat, first: bool) | Writer(n: nat) | Reader(n: nat)

  predicate ConfigOk(c: Config) {
    && c.a0 != c.a1 && c.a0 != c.b0 && c.a0 != c.b1 && c.a1 != c.b0 && c.a1 != c.b1 && c.b0 != c.b1
    && c.a0 !in {0, 1, 2} && c.a1 !in {0, 1, 2} && c.b0 !in {0, 1, 2} && c.b1 !in {0, 1, 2}
    && c.capacity > 0 && c.bufsize > 0
  }

  function AllFds(c: Config): Table {
    map[0 := Terminal, 1 := Terminal, 2 := Terminal, c.a0 := AR, c.a1 := AW, c.b0 := BR, c.b1 := BW]
  }

  function Initial(c: Config): System {
    System(ForkWriter, AllFds(c), Child(Absent, map[]), Child(Absent, map[]), [], [], [])
  }

  predicate Holds(t: Table, e: End) {
    exists fd :: fd in t && t[fd] == e
  }

  /** Some process has a descriptor for this end. */
  predicate Held(s: System, e: End) {
    Holds(s.pfds, e) || Holds(s.writer.fds, e) || Holds(s.reader.fds, e)
  }

  predicate Unreaped(ch: Child) {
    ch.pc != Absent && ch.pc != Reaped
  }

  predicate Alive(ch: Child) {
    Unreaped(ch) && ch.pc != Zombie
  }

  function AfterWait(k: nat): ParentPc {
    if k + 1 < 2 then Waiting(k + 1) else Reading
  }

  /** The parent's next statement. */
  function AfterForkWriter(c: Config): ParentPc { if c.closeFirst then CloseA1 else ForkReader }
  function AfterCloseA1(c: Config): ParentPc { if c.closeFirst then ForkReader else CloseA0 }
  function AfterForkReader(c: Config): ParentPc { if c.closeFirst then CloseA0 else CloseA1 }

  predicate ParentEnabled(s: System, n: nat, first: bool, c: Config) {
    match s.parent
    case Waiting(k) =>
      k < 2 &&
      ((!Unreaped(s.writer) && !Unreaped(s.reader)) || (if first then s.writer.pc == Zombie else s.reader.pc == Zombie))
    case Reading => if s.b != [] then 0 < n <= c.bufsize && n <= |s.b| else !Held(s, BW)
    case Done => false
    case _ => true
  }

  function ParentStep(s: System, n: nat, first: bool, c: Config): System
    requires ParentEnabled(s, n, first, c)
  {
    match s.parent
    case ForkWriter =>
      s.(parent := AfterForkWriter(c), writer := if c.writer.ForkFails? then s.writer else Child(Dup(0), s.pfds))
    case CloseA1 => s.(parent := AfterCloseA1(c), pfds := s.pfds - {c.a1})
    case ForkReader =>
      s.(parent := AfterForkReader(c), reader := if c.reader.ForkFails? then s.reader else Child(Dup(0), s.pfds))
    case CloseA0 => s.(parent := CloseB1, pfds := s.pfds - {c.a0})
    case CloseB1 => s.(parent := Waiting(0), pfds := s.pfds - {c.b1})
    case Waiting(k) =>
      if !Unreaped(s.writer) && !Unreaped(s.reader) then s.(parent := AfterWait(k))
      else if first then s.(parent := AfterWait(k), writer := s.writer.(pc := Reaped))
      else s.(parent := AfterWait(k), reader := s.reader.(pc := Reaped))
    case Reading => if s.b != [] then s.(printed := s.printed + s.b[..n], b := s.b[n..]) else s.(parent := Done)
  }

  /** dup2(from, to) */
  function Dup2(t: Table, from: int, to: int): Table {
    if from in t then t[to := t[from]] else t
  }

  function Exit(): Child {
    Child(Zombie, map[])
  }

  /** A write is possible when there is room; without any reader the process is killed. */
  predicate WriterEnabled(s: System, n: nat, c: Config) {
    match s.writer.pc
    case Dup(_) => true
    case Exec => true
    case Producing(left) =>
      left == [] || (1 in s.writer.fds && s.writer.fds[1] == AW &&
                     (Held(s, AR) ==> 0 < n <= |left| && |s.a| + n <= c.capacity))
    case _ => false
  }

  function WriterStep(s: System, n: nat, c: Config): System
    requires WriterEnabled(s, n, c)
  {
    var w := s.writer;
    match w.pc
    case Dup(_) => s.(writer := Child(Exec, Dup2(w.fds, c.a1, 1)))
    case Exec => if c.writer.Runs? then s.(writer := w.(pc := Producing(c.message))) else s.(writer := Exit())
    case Producing(left) =>
      if left == [] || !Held(s, AR) then s.(writer := Exit())
      else s.(writer := w.(pc := Producing(left[n..])), a := s.a + left[..n])
  }

  predicate ReaderEnabled(s: System, n: nat, c: Config) {
    match s.reader.pc
    case Dup(_) => true
    case Exec => true
    case Consuming(_) =>
      0 in s.reader.fds && s.reader.fds[0] == AR && (if s.a != [] then 0 < n <= |s.a| else !Held(s, AW))
    case Producing(left) =>
      left == [] || (1 in s.reader.fds && s.reader.fds[1] == BW &&
                     (Held(s, BR) ==> 0 < n <= |left| && |s.b| + n <= c.capacity))
    case _ => false
  }

  function ReaderStep(s: System, n: nat, c: Config): System
    requires ReaderEnabled(s, n, c)
  {
    var r := s.reader;
    match r.pc
    case Dup(k) =>
      if k == 0 then s.(reader := Child(Dup(1), Dup2(r.fds, c.a0, 0)))
      else s.(reader := Child(Exec, Dup2(r.fds, c.b1, 1)))
    case Exec => if c.reader.Runs? then s.(reader := r.(pc := Consuming([]))) else s.(reader := Exit())
    case Consuming(input) =>
      if s.a != [] then s.(reader := r.(pc := Consuming(input + s.a[..n])), a := s.a[n..])
      else s.(reader := r.(pc := Producing(c.report(input))))
    case Producing(left) =>
      if left == [] || !Held(s, BR) then s.(reader := Exit())
      else s.(reader := r.(pc := Producing(left[n..])), b := s.b + left[..n])
  }

  predicate Enabled(s: System, a: Action, c: Config) {
    match a
    case Parent(n, first) => ParentEnabled(s, n, first, c)
    case Writer(n) => WriterEnabled(s, n, c)
    case Reader(n) => ReaderEnabled(s, n, c)
  }

  function Step(s: System, a: Action, c: Config): System
    requires Enabled(s, a, c)
  {
    match a
    case Parent(n, first) => ParentStep(s, n, first, c)
    case Writer(n) => WriterStep(s, n, c)
    case Reader(n) => ReaderStep(s, n, c)
  }

  // ----- descriptor tables, told by program counters

  function ParentFds(pc: ParentPc, c: Config): Table {
    match pc
    case ForkWriter => AllFds(c)
    case CloseA1 => AllFds(c)
    case ForkReader => AllFds(c) - {c.a1}
    case CloseA0 => AllFds(c) - {c.a1}
    case CloseB1 => AllFds(c) - {c.a1} - {c.a0}
    case _ => AllFds(c) - {c.a1} - {c.a0} - {c.b1}
  }

  function WriterFds(pc: ChildPc, c: Config): Table {
    match pc
    case Dup(_) => AllFds(c)
    case Exec => AllFds(c)[1 := AW]
    case Producing(_) => AllFds(c)[1 := AW]
    case _ => map[]
  }

  function ReaderFds(pc: ChildPc, c: Config): Table {
    var t := AllFds(c) - {c.a1};
    match pc
    case Dup(k) => if k == 0 then t else t[0 := AR]
    case Exec => t[0 := AR][1 := BW]
    case Consuming(_) => t[0 := AR][1 := BW]
    case Producing(_) => t[0 := AR][1 := BW]
    case _ => map[]
  }

  ghost predicate TablesOk(s: System, c: Config) {
    && s.pfds == ParentFds(s.parent, c)
    && s.writer.fds == WriterFds(s.writer.pc, c)
    && s.reader.fds == ReaderFds(s.reader.pc, c)
  }

  // ----- the control state

  predicate BeforeWriter(p: ParentPc) { p == ForkWriter }
  predicate BeforeReader(p: ParentPc) { p == ForkWriter || p == CloseA1 || p == ForkReader }
  predicate Collected(p: ParentPc) { p == Reading || p == Done }

  function Forked(f: Fate): nat { if f.ForkFails? then 0 else 1 }
  function Count(b: bool): nat { if b then 1 else 0 }

  /** How many children wait() still has to collect. */
  function Uncollected(p: ParentPc, c: Config): int {
    var all := Forked(c.writer) + Forked(c.reader);
    match p
    case Waiting(k) => Max(0, all - k)
    case _ => 0
  }

  predicate WriterPcOk(pc: ChildPc, c: Config) {
    && (pc.Dup? ==> pc.n == 0)
    && !pc.Consuming?
    && (pc.Producing? ==> c.writer.Runs?)
  }

  predicate ReaderPcOk(pc: ChildPc, c: Config) {
    && (pc.Dup? ==> pc.n <= 1)
    && (pc.Producing? || pc.Consuming? ==> c.reader.Runs?)
  }

  ghost predicate ControlOk(s: System, c: Config) {
    && WriterPcOk(s.writer.pc, c) && ReaderPcOk(s.reader.pc, c)
    && (s.writer.pc.Absent? <==> BeforeWriter(s.parent) || c.writer.ForkFails?)
    && (s.reader.pc.Absent? <==> BeforeReader(s.parent) || c.reader.ForkFails?)
    && (s.parent.Waiting? ==> s.parent.n < 2)
    && (if s.parent.Waiting? || Collected(s.parent)
        then Count(Unreaped(s.writer)) + Count(Unreaped(s.reader)) == Uncollected(s.parent, c)
        else s.writer.pc != Reaped && s.reader.pc != Reaped)
  }

  // ----- the data

  /** What the reader program gets to see. */
  function Input(c: Config): seq<Byte> {
    if c.writer.Runs? then c.message else []
  }

  function Expected(c: Config): seq<Byte> {
    if c.reader.Runs? then c.report(Input(c)) else []
  }

  function Unwritten(s: System, c: Config): seq<Byte> {
    match s.writer.pc
    case Producing(left) => left
    case Zombie => []
    case Reaped => []
    case _ => Input(c)
  }

  function Unreported(s: System, c: Config): seq<Byte> {
    match s.reader.pc
    case Producing(left) => left
    case Zombie => []
    case Reaped => []
    case _ => Expected(c)
  }

  predicate PastInput(pc: ChildPc) {
    pc.Producing? || pc.Zombie? || pc.Reaped?
  }

  /** The bytes the reader has taken so far: all of them once it has seen the end of file. */
  function Taken(s: System, c: Config): seq<Byte> {
    match s.reader.pc
    case Consuming(input) => input
    case _ => if c.reader.Runs? && PastInput(s.reader.pc) then Input(c) else []
  }

  /** Nothing is lost, duplicated or reordered in either pipe. */
  ghost predicate DataOk(s: System, c: Config) {
    && Input(c) == Taken(s, c) + s.a + Unwritten(s, c)
    && Expected(c) == s.printed + s.b + Unreported(s, c)
    && |s.a| <= c.capacity && |s.b| <= c.capacity
    && (!Collected(s.parent) ==> s.printed == [])
    && (c.reader.Runs? && PastInput(s.reader.pc) ==> !Alive(s.writer) && !BeforeReader(s.parent))
    && (c.reader.Runs? && !s.reader.pc.Absent? && PastInput(s.reader.pc) && !s.reader.pc.Producing? ==>
          |Expected(c)| <= c.capacity)
    && (!c.reader.Runs? && (s.writer.pc.Zombie? || s.writer.pc.Reaped?) ==> |Input(c)| <= c.capacity)
    && (s.parent == Done ==> s.b == [])
  }

  ghost predicate Inv(s: System, c: Config) {
    TablesOk(s, c) && ControlOk(s, c) && DataOk(s, c)
  }

  lemma InitialInv(c: Config)
    requires ConfigOk(c)
    ensures Inv(Initial(c), c)
  {
  }

  // ----- who holds which end

  lemma TableHolds(c: Config)
    requires ConfigOk(c)
    ensures Holds(AllFds(c), AW) && !Holds(AllFds(c) - {c.a1}, AW)
    ensures !Holds(AllFds(c) - {c.a1} - {c.a0}, AW) && !Holds(AllFds(c) - {c.a1} - {c.a0} - {c.b1}, AW)
    ensures !Holds(AllFds(c) - {c.a1} - {c.a0} - {c.b1}, BW)
    ensures Holds(AllFds(c)[1 := AW], AW) && Holds(AllFds(c)[1 := AW], AR)
    ensures var t := AllFds(c) - {c.a1};
            !Holds(t[0 := AR], AW) && !Holds(t[0 := AR][1 := BW], AW) && Holds(t[0 := AR][1 := BW], BR)
  {
    var all := AllFds(c);
    assert all[c.a1] == AW;
    assert all[1 := AW][c.a0] == AR && all[1 := AW][1] == AW;
    assert (all - {c.a1})[0 := AR][1 := BW][c.b0] == BR;
  }

  /** A write end of A is held by the parent before it closes it, and by the writer: never by the reader. */
  lemma HoldersOfAW(s: System, c: Config)
    requires ConfigOk(c) && TablesOk(s, c) && ControlOk(s, c)
    ensures !Holds(s.reader.fds, AW)
    ensures Held(s, AW) <==> s.parent == ForkWriter || s.parent == CloseA1 || Alive(s.writer)
    ensures s.writer.pc.Producing? ==> Held(s, AR)
    ensures s.reader.pc.Producing? ==> Held(s, BR)
  {
    TableHolds(c);
  }

  /** When the parent starts to read, nobody holds a write end of the pipe it reads. */
  lemma NoWriterLeft(s: System, c: Config)
    requires ConfigOk(c) && TablesOk(s, c) && ControlOk(s, c) && Collected(s.parent)
    ensures !Held(s, BW) && !Held(s, AW)
  {
    TableHolds(c);
  }

  // ----- every step keeps the invariant

  /** Bytes that move from the end of a pipe's writer into the pipe, or out of it to its reader. */
  lemma MoveIn(taken: seq<Byte>, queue: seq<Byte>, left: seq<Byte>, n: nat)
    requires n <= |left|
    ensures taken + (queue + left[..n]) + left[n..] == taken + queue + left
  {
  }

  lemma MoveOut(taken: seq<Byte>, queue: seq<Byte>, left: seq<Byte>, n: nat)
    requires n <= |queue|
    ensures (taken + queue[..n]) + queue[n..] + left == taken + queue + left
  {
  }

  lemma WriterKeepsControl(s: System, n: nat, c: Config)
    requires ConfigOk(c) && c.closeFirst && TablesOk(s, c) && ControlOk(s, c) && WriterEnabled(s, n, c)
    ensures TablesOk(WriterStep(s, n, c), c) && ControlOk(WriterStep(s, n, c), c)
  {
  }

  lemma WriterWrites(s: System, n: nat, c: Config)
    requires ConfigOk(c) && c.closeFirst && Inv(s, c) && WriterEnabled(s, n, c)
    requires s.writer.pc.Producing? && s.writer.pc.left != []
    ensures DataOk(WriterStep(s, n, c), c)
  {
    HoldersOfAW(s, c);
    MoveIn(Taken(s, c), s.a, s.writer.pc.left, n);
  }

  lemma WriterExits(s: System, c: Config)
    requires ConfigOk(c) && Inv(s, c) && s.writer.pc.Producing? && s.writer.pc.left == []
    ensures DataOk(s.(writer := Exit()), c)
  {
    assert Input(c) == Taken(s, c) + s.a;
    if !c.reader.Runs? { assert Input(c) == s.a; }
  }

  lemma WriterKeepsData(s: System, n: nat, c: Config)
    requires ConfigOk(c) && c.closeFirst && Inv(s, c) && WriterEnabled(s, n, c)
    ensures DataOk(WriterStep(s, n, c), c)
  {
    if s.writer.pc.Producing? {
      if s.writer.pc.left != [] { WriterWrites(s, n, c); } else { WriterExits(s, c); }
    } else {
      assert Unwritten(WriterStep(s, n, c), c) == Unwritten(s, c);
    }
  }

  lemma ReaderKeepsTables(s: System, n: nat, c: Config)
    requires ConfigOk(c) && c.closeFirst && TablesOk(s, c) && ReaderPcOk(s.reader.pc, c) && ReaderEnabled(s, n, c)
    ensures TablesOk(ReaderStep(s, n, c), c)
  {
  }

  lemma ReaderKeepsControl(s: System, n: nat, c: Config)
    requires ControlOk(s, c) && ReaderEnabled(s, n, c)
    ensures ControlOk(ReaderStep(s, n, c), c)
  {
  }

  lemma ReaderReads(s: System, n: nat, c: Config)
    requires ConfigOk(c) && c.closeFirst && Inv(s, c) && ReaderEnabled(s, n, c) && s.reader.pc.Consuming?
    ensures DataOk(ReaderStep(s, n, c), c)
  {
    HoldersOfAW(s, c);
    var input := s.reader.pc.input;
    if s.a != [] {
      MoveOut(input, s.a, Unwritten(s, c), n);
    } else {
      assert Unwritten(s, c) == [];
      assert Input(c) == input;
    }
  }

  lemma ReaderWrites(s: System, n: nat, c: Config)
    requires ConfigOk(c) && c.closeFirst && Inv(s, c) && ReaderEnabled(s, n, c) && s.reader.pc.Producing?
    ensures DataOk(ReaderStep(s, n, c), c)
  {
    HoldersOfAW(s, c);
    var left := s.reader.pc.left;
    if left != [] {
      MoveIn(s.printed, s.b, left, n);
    } else {
      assert !Collected(s.parent);
      assert Expected(c) == s.b;
    }
  }

  lemma ReaderKeepsData(s: System, n: nat, c: Config)
    requires ConfigOk(c) && c.closeFirst && Inv(s, c) && ReaderEnabled(s, n, c)
    ensures DataOk(ReaderStep(s, n, c), c)
  {
    if s.reader.pc.Consuming? {
      ReaderReads(s, n, c);
    } else if s.reader.pc.Producing? {
      ReaderWrites(s, n, c);
    }
  }

  lemma ParentKeepsTables(s: System, n: nat, first: bool, c: Config)
    requires ConfigOk(c) && c.closeFirst && TablesOk(s, c) && ControlOk(s, c) && ParentEnabled(s, n, first, c)
    ensures TablesOk(ParentStep(s, n, first, c), c)
  {
  }

  lemma ParentKeepsControl(s: System, n: nat, first: bool, c: Config)
    requires ConfigOk(c) && c.closeFirst && TablesOk(s, c) && ControlOk(s, c) && ParentEnabled(s, n, first, c)
    ensures ControlOk(ParentStep(s, n, first, c), c)
  {
  }

  lemma ParentReads(s: System, n: nat, first: bool, c: Config)
    requires ConfigOk(c) && c.closeFirst && Inv(s, c) && ParentEnabled(s, n, first, c)
    requires s.parent == Reading && s.b != []
    ensures DataOk(ParentStep(s, n, first, c), c)
  {
    MoveOut(s.printed, s.b, Unreported(s, c), n);
  }

  lemma ParentKeepsData(s: System, n: nat, first: bool, c: Config)
    requires ConfigOk(c) && c.closeFirst && Inv(s, c) && ParentEnabled(s, n, first, c)
    ensures DataOk(ParentStep(s, n, first, c), c)
  {
    if s.parent == Reading && s.b != [] {
      ParentReads(s, n, first, c);
    } else {
      var t := ParentStep(s, n, first, c);
      assert t.a == s.a && t.b == s.b && t.printed == s.printed;
      assert Unwritten(t, c) == Unwritten(s, c) && Unreported(t, c) == Unreported(s, c) && Taken(t, c) == Taken(s, c);
    }
  }

  lemma StepKeepsInv(s: System, a: Action, c: Config)
    requires ConfigOk(c) && c.closeFirst && Inv(s, c) && Enabled(s, a, c)
    ensures Inv(Step(s, a, c), c)
  {
    match a {
      case Parent(n, first) =>
        ParentKeepsTables(s, n, first, c);
        ParentKeepsControl(s, n, first, c);
        ParentKeepsData(s, n, first, c);
      case Writer(n) =>
        WriterKeepsControl(s, n, c);
        WriterKeepsData(s, n, c);
      case Reader(n) =>
        ReaderKeepsTables(s, n, c);
        ReaderKeepsControl(s, n, c);
        ReaderKeepsData(s, n, c);
    }
  }

  predicate Transfers(pc: ChildPc, read: bool, queue: seq<Byte>, held: bool) {
    if read then pc.Consuming? && queue != [] else pc.Producing? && pc.left != [] && held
  }

  /** A step that reads or writes moves exactly its n bytes from one place to the next, and no other step moves any. */
  lemma BytesMoved(s: System, a: Action, c: Config)
    requires Enabled(s, a, c)
    ensures var t := Step(s, a, c);
            match a
            case Writer(n) =>
              && |t.a| == |s.a| + (if Transfers(s.writer.pc, false, s.a, Held(s, AR)) then n else 0)
              && t.b == s.b && t.printed == s.printed
            case Reader(n) =>
              && |t.a| == |s.a| - (if Transfers(s.reader.pc, true, s.a, true) then n else 0)
              && |t.b| == |s.b| + (if Transfers(s.reader.pc, false, s.b, Held(s, BR)) then n else 0)
              && t.printed == s.printed
            case Parent(n, _) =>
              var moved := if s.parent == Reading && s.b != [] then n else 0;
              t.a == s.a && |t.b| == |s.b| - moved && |t.printed| == |s.printed| + moved
  {
  }

  // ----- where a run can end

  /** The condition, which can be read off the configuration, for the pipeline to complete. */
  predicate Fits(c: Config) {
    if c.reader.Runs? then |c.report(Input(c))| <= c.capacity else |Input(c)| <= c.capacity
  }

  ghost predicate Stuck(s: System, c: Config) {
    forall a :: !Enabled(s, a, c)
  }

  lemma StuckParent(s: System, c: Config)
    requires ConfigOk(c) && Inv(s, c) && Stuck(s, c)
    ensures s.parent == Done || (s.parent.Waiting? && (Unreaped(s.writer) || Unreaped(s.reader))
                                 && s.writer.pc != Zombie && s.reader.pc != Zombie)
  {
    assert !Enabled(s, Parent(1, true), c) && !Enabled(s, Parent(1, false), c);
    if s.parent == Reading { NoWriterLeft(s, c); }
  }

  lemma StuckWriter(s: System, c: Config)
    requires ConfigOk(c) && Inv(s, c) && Stuck(s, c) && Alive(s.writer)
    ensures s.writer.pc.Producing? && s.writer.pc.left != [] && |s.a| == c.capacity
  {
    assert !Enabled(s, Writer(1), c);
    HoldersOfAW(s, c);
  }

  lemma StuckReader(s: System, c: Config)
    requires ConfigOk(c) && Inv(s, c) && Stuck(s, c) && s.parent.Waiting? && Alive(s.reader)
    ensures s.reader.pc.Producing? && s.reader.pc.left != [] && |s.b| == c.capacity
  {
    assert !Enabled(s, Reader(1), c);
    HoldersOfAW(s, c);
    if s.reader.pc.Consuming? {
      if Alive(s.writer) { StuckWriter(s, c); }
      assert false;
    }
  }

  lemma DoneFits(s: System, c: Config)
    requires ConfigOk(c) && Inv(s, c) && s.parent == Done
    ensures Fits(c) && s.printed == Expected(c)
  {
    assert s.printed + s.b + Unreported(s, c) == s.printed;
  }

  /**
   * A run that cannot continue has printed the whole output, or waits for ever: for
   * a reader (or, without a reader program, a writer) in front of a full pipe.
   */
  lemma StuckMeans(s: System, c: Config)
    requires ConfigOk(c) && Inv(s, c) && Stuck(s, c)
    ensures s.parent == Done <==> Fits(c)
    ensures s.parent == Done ==> s.printed == Expected(c)
    ensures s.parent != Done ==>
              && s.parent.Waiting? && s.printed == []
              && (c.reader.Runs? ==> s.reader.pc.Producing? && s.reader.pc.left != [] && |s.b| == c.capacity)
              && (!c.reader.Runs? ==> s.writer.pc.Producing? && s.writer.pc.left != [] && |s.a| == c.capacity)
  {
    StuckParent(s, c);
    if s.parent == Done {
      DoneFits(s, c);
    } else if Alive(s.reader) {
      StuckReader(s, c);
      assert Expected(c) == s.b + s.reader.pc.left;
    } else {
      assert Alive(s.writer);
      StuckWriter(s, c);
      assert Input(c) == Taken(s, c) + s.a + s.writer.pc.left;
    }
  }

  // ----- every run ends

  function ParentRank(s: System, c: Config): int {
    match s.parent
    case ForkWriter => 8 + |Expected(c)|
    case CloseA1 => 7 + |Expected(c)|
    case ForkReader => 6 + |Expected(c)|
    case CloseA0 => 5 + |Expected(c)|
    case CloseB1 => 4 + |Expected(c)|
    case Waiting(k) => 3 - k + |Expected(c)|
    case Reading => 1 + |Expected(c)| - |s.printed|
    case Done => 0
  }

  function WriterRank(s: System, c: Config): int {
    match s.writer.pc
    case Absent => if BeforeWriter(s.parent) then 3 + |Input(c)| else 0
    case Dup(_) => 3 + |Input(c)|
    case Exec => 2 + |Input(c)|
    case Producing(left) => 1 + |left|
    case _ => 0
  }

  function ReaderRank(s: System, c: Config): int {
    var whole := |Input(c)| + |Expected(c)|;
    match s.reader.pc
    case Absent => if BeforeReader(s.parent) then 5 + whole else 0
    case Dup(k) => 5 - k + whole
    case Exec => 3 + whole
    case Consuming(input) => 2 + whole - |input|
    case Producing(left) => 1 + |left|
    case _ => 0
  }

  function Rank(s: System, c: Config): int {
    ParentRank(s, c) + WriterRank(s, c) + ReaderRank(s, c)
  }

  lemma ParentStepRanks(s: System, n: nat, first: bool, c: Config)
    requires ConfigOk(c) && c.closeFirst && ControlOk(s, c) && ParentEnabled(s, n, first, c)
    ensures WriterRank(ParentStep(s, n, first, c), c) <= WriterRank(s, c)
    ensures ReaderRank(ParentStep(s, n, first, c), c) <= ReaderRank(s, c)
  {
  }

  lemma ParentRankDecreases(s: System, n: nat, first: bool, c: Config)
    requires ConfigOk(c) && c.closeFirst && Inv(s, c) && ParentEnabled(s, n, first, c)
    ensures Rank(ParentStep(s, n, first, c), c) < Rank(s, c)
  {
    ParentStepRanks(s, n, first, c);
    ParentGetsOn(s, n, first, c);
  }

  lemma ParentGetsOn(s: System, n: nat, first: bool, c: Config)
    requires c.closeFirst && DataOk(s, c) && ParentEnabled(s, n, first, c)
    ensures ParentRank(ParentStep(s, n, first, c), c) < ParentRank(s, c)
  {
    LengthsAdd(s, c);
  }

  lemma WriterRankDecreases(s: System, n: nat, c: Config)
    requires ConfigOk(c) && Inv(s, c) && WriterEnabled(s, n, c)
    ensures Rank(WriterStep(s, n, c), c) < Rank(s, c)
  {
    HoldersOfAW(s, c);
    LengthsAdd(s, c);
  }

  lemma ReaderGetsOn(s: System, n: nat, c: Config)
    requires ConfigOk(c) && Inv(s, c) && ReaderEnabled(s, n, c)
    ensures ReaderRank(ReaderStep(s, n, c), c) < ReaderRank(s, c)
  {
    HoldersOfAW(s, c);
    LengthsAdd(s, c);
    if s.reader.pc.Consuming? && s.a == [] {
      assert Unwritten(s, c) == [];
      assert Input(c) == s.reader.pc.input;
    }
  }

  lemma ReaderRankDecreases(s: System, n: nat, c: Config)
    requires ConfigOk(c) && Inv(s, c) && ReaderEnabled(s, n, c)
    ensures Rank(ReaderStep(s, n, c), c) < Rank(s, c)
  {
    ReaderGetsOn(s, n, c);
    OthersStand(s, n, c);
  }

  lemma OthersStand(s: System, n: nat, c: Config)
    requires ReaderEnabled(s, n, c)
    ensures var t := ReaderStep(s, n, c);
            t.parent == s.parent && t.writer == s.writer && t.printed == s.printed
  {
  }

  lemma RankNonNegative(s: System, c: Config)
    requires Inv(s, c)
    ensures Rank(s, c) >= 0
  {
    LengthsAdd(s, c);
  }

  lemma RankDecreases(s: System, a: Action, c: Config)
    requires ConfigOk(c) && c.closeFirst && Inv(s, c) && Enabled(s, a, c)
    ensures Rank(Step(s, a, c), c) < Rank(s, c)
  {
    match a {
      case Parent(n, first) => ParentRankDecreases(s, n, first, c);
      case Writer(n) => WriterRankDecreases(s, n, c);
      case Reader(n) => ReaderRankDecreases(s, n, c);
    }
  }

  lemma LengthsAdd(s: System, c: Config)
    requires DataOk(s, c)
    ensures |Input(c)| == |Taken(s, c)| + |s.a| + |Unwritten(s, c)|
    ensures |Expected(c)| == |s.printed| + |s.b| + |Unreported(s, c)|
  {
  }

  // ----- whole runs

  ghost predicate IsRun(trace: seq<System>, actions: seq<Action>, c: Config) {
    && |trace| == |actions| + 1
    && trace[0] == Initial(c)
    && (forall k :: 0 <= k < |actions| ==>
          Enabled(trace[k], actions[k], c) && trace[k + 1] == Step(trace[k], actions[k], c))
  }

  lemma StepInRun(trace: seq<System>, actions: seq<Action>, c: Config, k: nat)
    requires IsRun(trace, actions, c) && k < |actions|
    ensures Enabled(trace[k], actions[k], c) && trace[k + 1] == Step(trace[k], actions[k], c)
  {
  }

  /** One step of a run, from s to t. */
  lemma RunStep(s: System, a: Action, t: System, c: Config)
    requires ConfigOk(c) && c.closeFirst && Inv(s, c) && Enabled(s, a, c) && t == Step(s, a, c)
    ensures Inv(t, c) && Rank(t, c) <= Rank(s, c) - 1
  {
    RankDecreases(s, a, c);
    StepKeepsInv(s, a, c);
  }

  lemma {:induction false} EveryRun(trace: seq<System>, actions: seq<Action>, c: Config, k: nat)
    requires ConfigOk(c) && c.closeFirst && IsRun(trace, actions, c) && k < |trace|
    ensures Inv(trace[k], c) && Rank(trace[k], c) <= Rank(Initial(c), c) - k
  {
    if k == 0 {
      InitialInv(c);
    } else {
      EveryRun(trace, actions, c, k - 1);
      StepInRun(trace, actions, c, k - 1);
      RunStep(trace[k - 1], actions[k - 1], trace[k], c);
    }
  }

  /**
   * Every interleaving is finite. If the reader's output (or, when the reader
   * program does not run, the writer's) fits into a pipe, every complete run ends
   * with exactly the reader's output printed; if not, every complete run ends with
   * the parent in wait() and that process in front of a full pipe.
   */
  lemma EveryRunEnds(trace: seq<System>, actions: seq<Action>, c: Config)
    requires ConfigOk(c) && c.closeFirst && IsRun(trace, actions, c)
    ensures |actions| <= Rank(Initial(c), c)
    ensures var end := trace[|actions|];
            Stuck(end, c) ==>
              && (end.parent == Done <==> Fits(c))
              && (Fits(c) ==> end.printed == Expected(c))
              && (!Fits(c) ==> end.parent.Waiting? && end.printed == []
                               && (if c.reader.Runs? then |end.b| == c.capacity else |end.a| == c.capacity))
  {
    EveryRun(trace, actions, c, |actions|);
    var end := trace[|actions|];
    RankNonNegative(end, c);
    if Stuck(end, c) { StuckMeans(end, c); }
  }

  /** Every run can be continued to a complete one, so each outcome of EveryRunEnds does occur. */
  lemma {:induction false} CompleteRun(trace: seq<System>, actions: seq<Action>, c: Config)
    returns (trace': seq<System>, actions': seq<Action>)
    requires ConfigOk(c) && c.closeFirst && IsRun(trace, actions, c)
    ensures IsRun(trace', actions', c) && Stuck(trace'[|actions'|], c) && actions <= actions'
    ensures trace'[|actions'|].parent == Done <==> Fits(c)
    decreases Rank(Initial(c), c) - |actions|
  {
    EveryRunEnds(trace, actions, c);
    if Stuck(trace[|actions|], c) {
      trace', actions' := trace, actions;
    } else {
      var a :| Enabled(trace[|actions|], a, c);
      trace', actions' := trace + [Step(trace[|actions|], a, c)], actions + [a];
      EveryRunEnds(trace', actions', c);
      trace', actions' := CompleteRun(trace', actions', c);
    }
  }

  /** The end of file reaches both readers: in no interleaving do they wait for themselves. */
  lemma EofReachesBothReaders(trace: seq<System>, actions: seq<Action>, c: Config, k: nat)
    requires ConfigOk(c) && c.closeFirst && IsRun(trace, actions, c) && k < |trace|
    ensures !Holds(trace[k].reader.fds, AW)
    ensures Collected(trace[k].parent) ==> !Held(trace[k], BW)
  {
    EveryRun(trace, actions, c, k);
    HoldersOfAW(trace[k], c);
    if Collected(trace[k].parent) { NoWriterLeft(trace[k], c); }
  }

  // ----- the order of the parent's statements matters

  /**
   * What is reachable when the parent forks the reader before it closes its copy of
   * AW: the reader inherits a write end of its own input and keeps it.
   */
  ghost predicate LateOk(s: System, c: Config) {
    && (s.parent == ForkWriter || s.parent == ForkReader <==> s.reader.pc.Absent?)
    && (s.reader.pc.Absent? ==> c.a1 in s.pfds && s.pfds[c.a1] == AW)
    && (!s.reader.pc.Absent? ==> c.a1 in s.reader.fds && s.reader.fds[c.a1] == AW)
    && s.reader.pc != Zombie && s.reader.pc != Reaped && !s.reader.pc.Producing?
    && !Collected(s.parent)
    && (s.parent.Waiting? ==> s.parent.n == Count(s.writer.pc == Reaped) < 2)
    && (s.writer.pc == Reaped ==> s.parent.Waiting?)
  }

  lemma LateStep(s: System, a: Action, c: Config)
    requires ConfigOk(c) && !c.closeFirst && c.reader.Runs? && LateOk(s, c) && Enabled(s, a, c)
    ensures LateOk(Step(s, a, c), c)
  {
  }

  lemma LateRunStep(s: System, a: Action, t: System, c: Config)
    requires ConfigOk(c) && !c.closeFirst && c.reader.Runs? && LateOk(s, c) && Enabled(s, a, c) && t == Step(s, a, c)
    ensures LateOk(t, c)
  {
    LateStep(s, a, c);
  }

  /** Then no run completes, however short the output: the reader never sees the end of its input. */
  lemma {:induction false} LateCloseNeverCompletes(trace: seq<System>, actions: seq<Action>, c: Config, k: nat)
    requires ConfigOk(c) && !c.closeFirst && c.reader.Runs? && IsRun(trace, actions, c) && k < |trace|
    ensures LateOk(trace[k], c) && !Collected(trace[k].parent) && !trace[k].reader.pc.Producing?
  {
    if k > 0 {
      LateCloseNeverCompletes(trace, actions, c, k - 1);
      StepInRun(trace, actions, c, k - 1);
      LateRunStep(trace[k - 1], actions[k - 1], trace[k], c);
    }
  }

  /** The system after a given schedule; steps that are not enabled are skipped. */
  function After(s: System, schedule: seq<Action>, c: Config): System
    decreases |schedule|
  {
    if schedule == [] then s
    else After(if Enabled(s, schedule[0], c) then Step(s, schedule[0], c) else s, schedule[1..], c)
  }

  /** The schedule of a run leads to its end. */
  lemma {:induction false} RunIsAfter(trace: seq<System>, actions: seq<Action>, c: Config, k: nat)
    requires IsRun(trace, actions, c) && k <= |actions|
    ensures After(trace[k], actions[k..], c) == trace[|actions|]
    decreases |actions| - k
  {
    if k < |actions| {
      StepInRun(trace, actions, c, k);
      RunIsAfter(trace, actions, c, k + 1);
      assert actions[k..][1..] == actions[k + 1..];
    }
  }

  method Replay(c: Config, schedule: seq<Action>) returns (printed: seq<Byte>, completed: bool)
    requires ConfigOk(c) && c.closeFirst
    ensures printed == After(Initial(c), schedule, c).printed
    ensures completed <==> After(Initial(c), schedule, c).parent == Done
    ensures completed ==> Fits(c) && printed == Expected(c)
    ensures printed <= Expected(c)
  {
    var s := Initial(c);
    InitialInv(c);
    for k := 0 to |schedule|
      invariant Inv(s, c)
      invariant After(Initial(c), schedule, c) == After(s, schedule[k..], c)
    {
      assert schedule[k..][1..] == schedule[k + 1..];
      if Enabled(s, schedule[k], c) {
        StepKeepsInv(s, schedule[k], c);
        s := Step(s, schedule[k], c);
      }
    }
    printed, completed := s.printed, s.parent == Done;
    if completed { DoneFits(s, c); }
  }
}

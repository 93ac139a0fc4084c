/**
 The threads of one PTY as a transition system: the owner of the PTY object, the reader thread, and for a
 pseudoconsole also the watcher and the detached cleanup thread. Each has a program counter; a step is one
 atomic action of one of them, or an event outside. `Sync` is the WinPTY instance of `PTYProcess`, `Async`
 the ConPTY one. Line numbers: B is src/pty/base.rs, C is src/pty/conpty/pty_impl.rs.
 */
module Protocol {
  import opened Unicode
  import opened ReadPath
  import opened Channels

  datatype Mode = Sync | Async
  datatype Handshake = Process | Nobody

  /** A message of the output channel: `Some(Ok(text))`, `Some(Err(_))` or `None`. */
  datatype Item = Chunk(text: seq<CodeUnit>) | ReadError | Eof

  /** How a `ReadFile` ended. */
  datatype Answer = Data(bytes: seq<Byte>) | Nothing | Failure

  datatype Thread = Owner | Cleaner
  datatype Optional<T> = None | Some(value: T)

  datatype ReaderPc =
    | RHandshake                   // B 476, 566: recv
    | RReady(owned: bool)          // B 477, 567: reader_ready.store(true)
    | RForward                     // B 569: process to the watcher
    | RPoll                        // B 479, 493: try_recv on the alive channel
    | RPeek                        // B 484, 378: PeekNamedPipe
    | RAlive(total: nat)           // B 381-390: is the process alive?
    | RIssue                       // B 485, 572: ReadFile is called
    | RReading(cancelled: bool)    // the read is pending
    | RGot(answer: Answer)         // B 486-491, 573-581: send the result
    | RSendEof                     // B 497
    | RStore                       // B 502, 588: reader_atomic.store(false)
    | RSignal                      // B 505, 591: SetEvent
    | RDropProcess | RDropAlive | RDropOut | RDropSecond // B 508-510, 594-597
    | RDone
    | RPanicked                    // an unwrap failed

  datatype WatcherPc =
    | WAbsent
    | WRecv     // B 601
    | WChild    // B 602: wait for the child
    | WFirst    // B 611: wait 5000 ms for the exit event
    | WCancel   // B 612, 617: CancelIoEx
    | WAgain    // B 614: wait 50 ms
    | WSend     // B 624: send(true)
    | WEnd      // B 628: drop the receiver, and the cleanup sender
    | WDone

  datatype CleanerPc =
    | CAbsent
    | CRelease  // C 434: recv
    | CMessage  // C 436: recv
    | CLock     // C 438
    | CCheck    // C 439
    | CClose    // C 440: ClosePseudoConsole
    | CMark     // C 447: (handle, false)
    | CUnlock   // C 449
    | CEnd      // C 454-455
    | CDone

  datatype OwnerPc =
    | OIdle
    | OSpawnLock         // C 551
    | OSpawnCreate       // C 554-595
    | OSetProcess        // B 860-874
    | OSendRelease       // C 598
    | OSpawnUnlock       // C 607
    | ODropMessage       // C 677: send(false)
    | ODropThread        // C 679
    | ODropProcess       // C 683
    | ODropLock          // C 688
    | ODropCheck         // C 689
    | ODropClose         // C 690: ClosePseudoConsole
    | ODropMark          // C 691
    | ODropUnlock        // C 698
    | OReady             // B 913: reader_ready.load
    | OSendNobody        // B 915: send(None)
    | OSendStop(retry: bool) // B 923, 932: send(false)
    | OCancel(retry: bool)   // B 924, 933: CancelIoEx
    | OWait              // B 929: wait 50 ms for the exit event
    | OJoinReader        // B 938
    | OCloseIn           // B 942
    | OCloseOut          // B 946
    | OCloseProcess      // B 950
    | OJoinWatcher       // B 954
    | OCloseEvent        // B 958
    | ODropFields        // the channel ends held by PTYProcess
    | ODropRelease       // release_info_tx
    | ODropCleanup       // cleanup_tx
    | ODone
    | OPanicked          // an unwrap failed

  /** The output pipe, the output channel, and the history of both. */
  datatype Io = Io(
    pipe: seq<Byte>,          // bytes waiting in the pipe
    broken: bool,             // its write end is closed
    fed: seq<Byte>,           // bytes ever put in the pipe
    results: seq<Answer>,     // the reads whose result was sent
    out: Channel<Item>,
    sent: seq<Item>,
    received: seq<Item>)

  /** How often each handle has been closed. An overlapped PTY has one pipe, a synchronous one two files. */
  datatype Closed = Closed(pipe: nat, conin: nat, conout: nat, thread: nat, process: nat, exitEvent: nat)

  /** What the reader shares with the owner and the watcher, apart from the output. */
  datatype Link = Link(
    reader: ReaderPc,
    process: Channel<Handshake>, alive: Channel<bool>, second: Channel<()>,
    ready: bool, running: bool, exitEvent: bool, // two atomics and the manual-reset event
    handshakes: nat, got: Optional<Handshake>)   // history: messages taken by the handshake, and the last one

  /** What the cleanup thread shares with the owner and the watcher. */
  datatype Console = Console(
    cleaner: CleanerPc,
    release: Channel<()>, clean: Channel<bool>,
    lock: Optional<Thread>, open: bool,          // the mutex and the flag it guards
    first: Optional<bool>,                       // history: the first message sent on `clean`
    closes: nat, closer: Optional<Thread>)       // history: closes of the pseudoconsole, thread of the last

  datatype State = State(
    mode: Mode, owner: OwnerPc, watcher: WatcherPc, link: Link, io: Io, console: Console,
    spawned: bool, closeProcess: bool, closed: Closed, // of the owner; the handles closed so far
    exited: bool,                                // the child has ended
    childWait: Optional<bool>)                   // history: how the watcher's wait for the child ended

  function Init(mode: Mode): (s: State) {
    if mode == Async then
      State(mode, OIdle, WRecv,
        Link(RHandshake, Open(1), Open(1), Open(1), false, true, false, 0, None),
        Io([], false, [], [], Open(1), [], []),
        Console(CRelease, Open(1), Open(2), None, true, None, 0, None),
        false, true, Closed(0, 0, 0, 0, 0, 0), false, None)
    else
      State(mode, OIdle, WAbsent,
        Link(RHandshake, Open(1), Open(1), Absent(), false, true, false, 0, None),
        Io([], false, [], [], Open(1), [], []),
        Console(CAbsent, Absent(), Absent(), None, false, None, 0, None),
        false, true, Closed(0, 0, 0, 0, 0, 0), false, None)
  }

  /** A step is the next action of a thread, the answer of a foreign call it waits in, or an outside event. */
  datatype Label =
    | ReaderStep
    | PeekAnswer(total: Optional<nat>)
    | AliveAnswer(alive: Optional<bool>)
    | ReadAnswer(answer: Answer)
    | WatcherStep
    | ChildWaitReturns(dead: bool)
    | WatcherTimesOut
    | CleanerStep
    | OwnerStep
    | OwnerTimesOut
    | BeginSpawn
    | SpawnFails
    | BeginDrop
    | OwnerRead(blocking: bool)
    | Feed(bytes: seq<Byte>)
    | Break
    | ChildExits

  // ----- The reader

  predicate ReaderEnabled(k: Link) {
    match k.reader
    case RHandshake => k.process.Ready()
    case RPeek => false
    case RAlive(_) => false
    case RReading(_) => false
    case RDone => false
    case RPanicked => false
    case _ => true
  }

  function ItemOf(a: Answer): (item: Item) {
    match a
    case Data(bytes) => Chunk(Text(bytes))
    case Nothing => Chunk([])
    case Failure => ReadError
  }

  /** A synchronous reader polls for a stop after every read; an overlapped one stops at an error or at zero bytes. */
  function AfterRead(mode: Mode, a: Answer): (pc: ReaderPc) {
    if mode == Sync then RPoll else if a.Data? then RIssue else RStore
  }

  /** The reader's next action on what it shares. Its sends are unwrapped: they need the `receiver` of the output. */
  function LinkNext(mode: Mode, k: Link, receiver: bool): (k': Link)
    requires ReaderEnabled(k)
  {
    match k.reader
    case RHandshake =>
      if k.process.queue != [] then
        var m := k.process.queue[0];
        k.(process := k.process.Pop(), handshakes := k.handshakes + 1, got := Some(m), reader := RReady(m == Process))
      else k.(reader := RReady(false))
    case RReady(owned) =>
      k.(ready := true, reader := if !owned then RStore else if mode == Async then RForward else RPoll)
    case RForward => k.(second := k.second.Send(()), reader := RIssue)
    case RPoll =>
      if k.alive.queue == [] then k.(reader := RPeek)
      else k.(alive := k.alive.Pop(), reader := if k.alive.queue[0] then RPeek else RStore)
    case RIssue => k.(reader := RReading(false))
    case RGot(a) => k.(reader := if receiver then AfterRead(mode, a) else RPanicked)
    case RSendEof => k.(reader := if receiver then RStore else RPanicked)
    case RStore => k.(running := false, reader := RSignal)
    case RSignal => k.(exitEvent := true, reader := RDropProcess)
    case RDropProcess => k.(process := k.process.DropReceiver(), reader := RDropAlive)
    case RDropAlive => k.(alive := k.alive.DropReceiver(), reader := RDropOut)
    case RDropOut => k.(reader := if mode == Async then RDropSecond else RDone)
    case RDropSecond => k.(second := k.second.DropSender(), reader := RDone)
  }

  function Sent(io: Io, item: Item): (io': Io) {
    if io.out.receiver then io.(out := io.out.Send(item), sent := io.sent + [item]) else io
  }

  /** What the same action does to the output. */
  function IoNext(pc: ReaderPc, io: Io): (io': Io) {
    match pc
    case RGot(a) => Sent(io.(results := io.results + [a]), ItemOf(a))
    case RSendEof => Sent(io, Eof)
    case RDropOut => io.(out := io.out.DropSender())
    case _ => io
  }

  function ReaderNext(s: State): (s': State)
    requires ReaderEnabled(s.link)
  {
    s.(link := LinkNext(s.mode, s.link, s.io.out.receiver), io := IoNext(s.link.reader, s.io))
  }

  /** A cancelled read fails; zero bytes mean the end of a closed pipe; otherwise a read takes bytes off the pipe. */
  predicate ReadCompletes(pc: ReaderPc, io: Io, a: Answer) {
    pc.RReading? &&
    match a
    case Failure => true
    case Nothing => !pc.cancelled && io.pipe == [] && io.broken
    case Data(bytes) => !pc.cancelled && 0 < |bytes| <= BUFFER_SIZE && bytes <= io.pipe
  }

  function Taken(io: Io, a: Answer): (io': Io)
    requires a.Data? ==> |a.bytes| <= |io.pipe|
  {
    if a.Data? then io.(pipe := io.pipe[|a.bytes|..]) else io
  }

  /** The free function `is_eof`: never an error, and true when a call fails. */
  function EofAnswer(total: Optional<nat>, alive: Optional<bool>): (eof: bool) {
    total.None? || alive.None? || (!alive.value && total.value == 0)
  }

  /** `CancelIoEx` marks the pending read, if there is one. */
  function Cancelled(k: Link): (k': Link) {
    if k.reader.RReading? then k.(reader := RReading(true)) else k
  }

  // ----- The watcher

  predicate WatcherEnabled(s: State) {
    match s.watcher
    case WRecv => s.link.second.Ready()
    case WFirst => s.link.exitEvent
    case WAgain => s.link.exitEvent
    case WCancel => true
    case WSend => true
    case WEnd => true
    case _ => false
  }

  /** A message to the cleanup thread. */
  function Message(c: Console, m: bool): (c': Console) {
    c.(clean := c.clean.Send(m), first := if c.first.None? then Some(m) else c.first)
  }

  function WatcherNext(s: State): (s': State)
    requires WatcherEnabled(s)
  {
    match s.watcher
    case WRecv =>
      if s.link.second.queue != [] then s.(link := s.link.(second := s.link.second.Pop()), watcher := WChild)
      else s.(watcher := WEnd)
    case WCancel => s.(link := Cancelled(s.link), watcher := WAgain)
    case WSend => s.(console := Message(s.console, true), watcher := WEnd)
    case WEnd =>
      s.(link := s.link.(second := s.link.second.DropReceiver()),
         console := s.console.(clean := s.console.clean.DropSender()), watcher := WDone)
    case _ => s.(watcher := WSend)
  }

  // ----- The cleanup thread

  predicate CleanerEnabled(c: Console) {
    match c.cleaner
    case CRelease => c.release.Ready()
    case CMessage => c.clean.Ready()
    case CLock => c.lock.None?
    case CAbsent => false
    case CDone => false
    case _ => true
  }

  function CleanerNext(c: Console): (c': Console)
    requires CleanerEnabled(c)
  {
    match c.cleaner
    case CRelease =>
      if c.release.queue != [] then c.(release := c.release.Pop(), cleaner := CMessage) else c.(cleaner := CEnd)
    case CMessage =>
      if c.clean.queue != [] then c.(clean := c.clean.Pop(), cleaner := if c.clean.queue[0] then CLock else CEnd)
      else c.(cleaner := CEnd)
    case CLock => c.(lock := Some(Cleaner), cleaner := CCheck)
    case CCheck => c.(cleaner := if c.open then CClose else CUnlock)
    case CClose => c.(closes := c.closes + 1, closer := Some(Cleaner), cleaner := CMark)
    case CMark => c.(open := false, cleaner := CUnlock)
    case CUnlock => c.(lock := None, cleaner := CEnd)
    case CEnd => c.(clean := c.clean.DropReceiver(), release := c.release.DropReceiver(), cleaner := CDone)
  }

  // ----- The owner

  predicate OwnerEnabled(s: State) {
    match s.owner
    case OIdle => false
    case OSpawnLock => s.console.lock.None?
    case ODropLock => s.console.lock.None?
    case OWait => s.link.exitEvent
    case OJoinReader => s.link.reader == RDone
    case OJoinWatcher => s.watcher == WDone || s.watcher == WAbsent
    case ODone => false
    case OPanicked => false
    case _ => true
  }

  /**
   The owner's next statement, through `ConPTY::spawn` (for WinPTY only `set_process`), `ConPTY::drop`,
   `PTYProcess::drop` and the fields dropped after it. The two sends of a spawn are unwrapped.
   */
  function OwnerPcNext(mode: Mode, pc: OwnerPc, k: Link, c: Console): (pc': OwnerPc) {
    match pc
    case OSpawnLock => OSpawnCreate
    case OSpawnCreate => OSetProcess
    case OSetProcess => if !k.process.receiver then OPanicked else if mode == Async then OSendRelease else OIdle
    case OSendRelease => if !c.release.receiver then OPanicked else OSpawnUnlock
    case OSpawnUnlock => OIdle
    case ODropMessage => ODropThread
    case ODropThread => ODropProcess
    case ODropProcess => ODropLock
    case ODropLock => ODropCheck
    case ODropCheck => if c.open then ODropClose else ODropUnlock
    case ODropClose => ODropMark
    case ODropMark => ODropUnlock
    case ODropUnlock => OReady
    case OReady => if k.ready then OSendStop(false) else OSendNobody
    case OSendNobody => OReady
    case OSendStop(retry) => OCancel(retry)
    case OCancel(_) => OWait
    case OWait => OJoinReader
    case OJoinReader => OCloseIn
    case OCloseIn => OCloseOut
    case OCloseOut => OCloseProcess
    case OCloseProcess => OJoinWatcher
    case OJoinWatcher => OCloseEvent
    case OCloseEvent => ODropFields
    case ODropFields => if mode == Async then ODropRelease else ODone
    case ODropRelease => ODropCleanup
    case ODropCleanup => ODone
    case _ => pc
  }

  /** What the statement at `pc` does to the link. */
  function OwnerLink(pc: OwnerPc, k: Link): (k': Link) {
    match pc
    case OSetProcess => k.(process := k.process.Send(Process))
    case OSendNobody => k.(process := k.process.Send(Nobody))
    case OSendStop(_) => k.(alive := k.alive.Send(false))
    case OCancel(_) => Cancelled(k)
    case ODropFields => k.(process := k.process.DropSender(), alive := k.alive.DropSender())
    case _ => k
  }

  function OwnerIo(pc: OwnerPc, io: Io): (io': Io) {
    if pc == ODropFields then io.(out := io.out.DropReceiver()) else io
  }

  /** What it does to the console. */
  function OwnerConsole(pc: OwnerPc, c: Console): (c': Console) {
    match pc
    case OSpawnLock => c.(lock := Some(Owner))
    case OSendRelease => c.(release := c.release.Send(()))
    case OSpawnUnlock => c.(lock := None)
    case ODropMessage => Message(c, false)
    case ODropLock => c.(lock := Some(Owner))
    case ODropClose => c.(closes := c.closes + 1, closer := Some(Owner))
    case ODropMark => c.(open := false)
    case ODropUnlock => c.(lock := None)
    case ODropRelease => c.(release := c.release.DropSender())
    case ODropCleanup => c.(clean := c.clean.DropSender())
    case _ => c
  }

  /** The handles closed after it; it closes only valid ones. */
  function OwnerCloses(mode: Mode, pc: OwnerPc, spawned: bool, closeProcess: bool, h: Closed): (h': Closed) {
    match pc
    case ODropThread => if spawned then h.(thread := h.thread + 1) else h
    case ODropProcess => if spawned then h.(process := h.process + 1) else h
    case OCloseIn => if mode == Async then h.(pipe := h.pipe + 1) else h.(conin := h.conin + 1)
    case OCloseOut => if mode == Sync then h.(conout := h.conout + 1) else h
    case OCloseProcess => if closeProcess && spawned then h.(process := h.process + 1) else h
    case OCloseEvent => h.(exitEvent := h.exitEvent + 1)
    case _ => h
  }

  function OwnerNext(s: State): (s': State)
    requires OwnerEnabled(s)
  {
    s.(owner := OwnerPcNext(s.mode, s.owner, s.link, s.console),
       link := OwnerLink(s.owner, s.link),
       io := OwnerIo(s.owner, s.io),
       console := OwnerConsole(s.owner, s.console),
       spawned := s.spawned || s.owner == OSetProcess,
       closeProcess := if s.owner == OSetProcess then s.mode == Sync else s.closeProcess,
       closed := OwnerCloses(s.mode, s.owner, s.spawned, s.closeProcess, s.closed))
  }

  /** `PTYProcess::read` with `recv` or `try_recv`: what is returned, and the channel afterwards. */
  datatype Receipt = Received(item: Item) | Empty | Blocks

  function Receive(c: Channel<Item>, blocking: bool): (r: (Receipt, Channel<Item>)) {
    if c.queue != [] then (Received(c.queue[0]), c.Pop())
    else if blocking && c.senders > 0 then (Blocks, c)
    else (Empty, c)
  }

  // ----- The transition system

  predicate Enabled(s: State, l: Label) {
    match l
    case ReaderStep => ReaderEnabled(s.link)
    case PeekAnswer(total) => s.link.reader == RPeek && (total.Some? ==> total.value == |s.io.pipe|)
    case AliveAnswer(alive) => s.link.reader.RAlive? && (alive.Some? ==> alive.value == !s.exited)
    case ReadAnswer(a) => ReadCompletes(s.link.reader, s.io, a)
    case WatcherStep => WatcherEnabled(s)
    case ChildWaitReturns(dead) => s.watcher == WChild && (if dead then s.exited else s.closed.process > 0)
    case WatcherTimesOut => (s.watcher == WFirst || s.watcher == WAgain) && !s.link.exitEvent
    case CleanerStep => CleanerEnabled(s.console)
    case OwnerStep => OwnerEnabled(s)
    case OwnerTimesOut => s.owner == OWait && !s.link.exitEvent
    case BeginSpawn => s.owner == OIdle && !s.spawned
    case SpawnFails => s.owner == OSpawnCreate
    case BeginDrop => s.owner == OIdle
    case OwnerRead(blocking) => s.owner == OIdle && !Receive(s.io.out, blocking).0.Blocks?
    case Feed(_) => !s.io.broken
    case Break => !s.io.broken
    case ChildExits => !s.exited && s.spawned
  }

  function Next(s: State, l: Label): (s': State)
    requires Enabled(s, l)
  {
    match l
    case ReaderStep => ReaderNext(s)
    case PeekAnswer(total) => s.(link := s.link.(reader := if total.None? then RSendEof else RAlive(total.value)))
    case AliveAnswer(alive) =>
      s.(link := s.link.(reader := if EofAnswer(Some(s.link.reader.total), alive) then RSendEof else RIssue))
    case ReadAnswer(a) => s.(io := Taken(s.io, a), link := s.link.(reader := RGot(a)))
    case WatcherStep => WatcherNext(s)
    case ChildWaitReturns(dead) => s.(childWait := Some(dead), watcher := WFirst)
    case WatcherTimesOut => s.(watcher := WCancel)
    case CleanerStep => s.(console := CleanerNext(s.console))
    case OwnerStep => OwnerNext(s)
    case OwnerTimesOut => s.(owner := OSendStop(true))
    case BeginSpawn => s.(owner := if s.mode == Async then OSpawnLock else OSetProcess)
    case SpawnFails => s.(console := s.console.(lock := None), owner := OIdle)
    case BeginDrop => s.(owner := if s.mode == Async then ODropMessage else OReady)
    case OwnerRead(blocking) =>
      var (receipt, c) := Receive(s.io.out, blocking);
      if receipt.Received? then s.(io := s.io.(out := c, received := s.io.received + [receipt.item])) else s
    case Feed(bytes) => s.(io := s.io.(pipe := s.io.pipe + bytes, fed := s.io.fed + bytes))
    case Break => s.(io := s.io.(broken := true))
    case ChildExits => s.(exited := true)
  }

  /** A run: states joined by enabled steps. */
  predicate Run(mode: Mode, states: seq<State>, steps: seq<Label>) {
    && |states| == |steps| + 1
    && states[0] == Init(mode)
    && forall i :: 0 <= i < |steps| ==> Joined(states, steps, i)
  }

  /** The `i`-th step is enabled and leads to the next state. */
  predicate Joined(states: seq<State>, steps: seq<Label>, i: nat)
    requires i < |steps| && |states| == |steps| + 1
  {
    Enabled(states[i], steps[i]) && states[i + 1] == Next(states[i], steps[i])
  }
}

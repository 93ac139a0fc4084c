/**
 Teardown terminates. A measure falls on every step but retries, waits that time out, cancels that hit no
 read and bytes arriving, and from every state of a teardown a falling step is at most one retry away. So
 a teardown can always finish, and only finitely many of its steps are not retries.
 */
module Teardown {
  import opened Sequences
  import opened Unicode
  import opened Protocol
  import opened Invariant
  import opened Contents
  import opened Safety

  /** What a byte in the pipe weighs: more than one turn of the reader's loop. */
  const BYTE: nat := 4

  function ReaderWeight(pc: ReaderPc): (n: nat) {
    match pc
    case RHandshake => 30
    case RReady(_) => 29
    case RForward => 28
    case RPeek => 27
    case RAlive(_) => 26
    case RGot(a) => if a.Data? then 25 else 21
    case RIssue => 24
    case RReading(cancelled) => if cancelled then 22 else 23
    case RPoll => 20
    case RSendEof => 19
    case RStore => 18
    case RSignal => 17
    case RDropProcess => 16
    case RDropAlive => 15
    case RDropOut => 14
    case RDropSecond => 13
    case RDone => 12
    case RPanicked => 0
  }

  function WatcherWeight(pc: WatcherPc): (n: nat) {
    match pc
    case WRecv => 7
    case WChild => 6
    case WFirst => 5
    case WCancel => 4
    case WAgain => 4
    case WSend => 3
    case WEnd => 2
    case WDone => 1
    case WAbsent => 0
  }

  function CleanerWeight(pc: CleanerPc): (n: nat) {
    match pc
    case CRelease => 9
    case CMessage => 8
    case CLock => 7
    case CCheck => 6
    case CClose => 5
    case CMark => 4
    case CUnlock => 3
    case CEnd => 2
    case CDone => 1
    case CAbsent => 0
  }

  function OwnerWeight(pc: OwnerPc, spawned: bool): (n: nat) {
    match pc
    case OIdle => if spawned then 40 else 50
    case OSpawnLock => 49
    case OSpawnCreate => 48
    case OSetProcess => 47
    case OSendRelease => 46
    case OSpawnUnlock => 45
    case OPanicked => 0
    case _ => if OwnerStage(pc) <= 30 then 30 - OwnerStage(pc) else 0
  }

  function LinkWeight(k: Link, io: Io): (n: nat) { ReaderWeight(k.reader) + BYTE * |io.pipe| }

  function Measure(s: State): (n: nat) {
    LinkWeight(s.link, s.io) + WatcherWeight(s.watcher) + CleanerWeight(s.console.cleaner) +
    OwnerWeight(s.owner, s.spawned) + (if s.exited then 0 else 1) + (if s.io.broken then 0 else 1)
  }

  /** A cancel would hit no read that is not cancelled already. */
  predicate NothingToCancel(k: Link) { k.reader != RReading(false) }

  /** The owner's statements that may be repeated, whatever they hit. */
  predicate Repeats(pc: OwnerPc, ready: bool) {
    (pc == OReady && !ready) || pc == OSendNobody || pc == OSendStop(true) || pc == OCancel(true)
  }

  /** Steps that may be repeated without progress. */
  predicate Idle(s: State, l: Label) {
    match l
    case ReaderStep => s.link.reader == RPoll && s.link.alive.queue == [] // a synchronous reader goes on reading
    case WatcherStep => s.watcher == WCancel && NothingToCancel(s.link)
    case WatcherTimesOut => true
    case OwnerStep =>
      Repeats(s.owner, s.link.ready) && (s.owner == OCancel(true) ==> NothingToCancel(s.link))
    case OwnerTimesOut => true
    case SpawnFails => true
    case OwnerRead(_) => true
    case Feed(_) => true
    case _ => false
  }

  lemma ReaderFalls(mode: Mode, k: Link, io: Io, spawned: bool, o: nat)
    requires Flags(mode, k) && Handshakes(k, spawned, o) && Stops(mode, k, o) && ReaderEnabled(k)
    requires !(k.reader == RPoll && k.alive.queue == [])
    ensures LinkWeight(LinkNext(mode, k, true), IoNext(k.reader, io)) < LinkWeight(k, io)
  {
    if k.reader.RPoll? {
      assert k.alive.queue[0] in k.alive.queue;
    }
  }

  lemma AnswersFall(s: State, l: Label)
    requires Enabled(s, l) && (l.PeekAnswer? || l.AliveAnswer? || l.ReadAnswer?)
    ensures Measure(Next(s, l)) < Measure(s)
  {
  }

  lemma CleanerFalls(c: Console)
    requires CleanerEnabled(c)
    ensures CleanerWeight(CleanerNext(c).cleaner) < CleanerWeight(c.cleaner)
  {
  }

  lemma DropFalls(mode: Mode, pc: OwnerPc, ready: bool, open: bool, o': nat)
    requires Moves(mode, pc, ready, open, o') && 2 <= OwnerStage(pc) <= 22
    ensures OwnerStage(pc) <= o' <= 23 && (o' == OwnerStage(pc) ==> Repeats(pc, ready))
  {
  }

  lemma SpawnFalls(mode: Mode, k: Link, c: Console, spawned: bool, pc: OwnerPc)
    requires OwnerFits(mode, pc, spawned) && OwnerStage(pc) == 1
    ensures OwnerWeight(OwnerPcNext(mode, pc, k, c), spawned || pc == OSetProcess) < OwnerWeight(pc, spawned)
  {
  }

  lemma WeightByStage(pc: OwnerPc, spawned: bool)
    requires 2 <= OwnerStage(pc) <= 23
    ensures OwnerWeight(pc, spawned) == 30 - OwnerStage(pc)
  {
  }

  lemma OwnerFalls(s: State)
    requires Control(s) && OwnerEnabled(s)
    ensures var t := OwnerNext(s);
            OwnerWeight(t.owner, t.spawned) <= OwnerWeight(s.owner, s.spawned) &&
            (OwnerWeight(t.owner, t.spawned) == OwnerWeight(s.owner, s.spawned) ==> Repeats(s.owner, s.link.ready))
  {
    if OwnerStage(s.owner) == 1 {
      SpawnFalls(s.mode, s.link, s.console, s.spawned, s.owner);
    } else {
      var o' := OwnerAdvances(s);
      DropFalls(s.mode, s.owner, s.link.ready, s.console.open, o');
      WeightByStage(s.owner, s.spawned);
      WeightByStage(OwnerNext(s).owner, OwnerNext(s).spawned);
    }
  }

  lemma OwnerLinkFalls(pc: OwnerPc, k: Link, io: Io)
    ensures LinkWeight(OwnerLink(pc, k), OwnerIo(pc, io)) <= LinkWeight(k, io)
    ensures pc == OCancel(true) && !NothingToCancel(k) ==>
            LinkWeight(OwnerLink(pc, k), OwnerIo(pc, io)) < LinkWeight(k, io)
    ensures OwnerIo(pc, io).broken == io.broken
  {
  }

  lemma OwnerConsoleKeepsCleaner(pc: OwnerPc, c: Console)
    ensures OwnerConsole(pc, c).cleaner == c.cleaner
  {
  }

  /** An owner's step never raises the measure, and an idle one at most keeps it. */
  lemma OwnerStepFalls(s: State)
    requires Control(s) && OwnerEnabled(s)
    ensures Measure(OwnerNext(s)) <= Measure(s)
    ensures !Idle(s, OwnerStep) ==> Measure(OwnerNext(s)) < Measure(s)
  {
    OwnerFalls(s);
    OwnerLinkFalls(s.owner, s.link, s.io);
    OwnerConsoleKeepsCleaner(s.owner, s.console);
  }

  lemma WatcherStepFalls(s: State)
    requires WatcherEnabled(s)
    ensures Measure(WatcherNext(s)) <= Measure(s)
    ensures !Idle(s, WatcherStep) ==> Measure(WatcherNext(s)) < Measure(s)
  {
    CancelFalls(s.link, s.io);
    WatcherFalls(s);
  }

  lemma CancelFalls(k: Link, io: Io)
    ensures LinkWeight(Cancelled(k), io) <= LinkWeight(k, io)
    ensures !NothingToCancel(k) ==> LinkWeight(Cancelled(k), io) < LinkWeight(k, io)
  {
  }

  /** Of the watcher's own actions only a cancel bears on the reader; each of the others takes it further. */
  lemma WatcherFalls(s: State)
    requires WatcherEnabled(s)
    ensures var t := WatcherNext(s);
            && t == s.(watcher := t.watcher, link := t.link, console := t.console)
            && t.console.cleaner == s.console.cleaner
            && WatcherWeight(t.watcher) <= WatcherWeight(s.watcher)
            && (s.watcher == WCancel ==> t.link == Cancelled(s.link))
            && (s.watcher != WCancel ==> WatcherWeight(t.watcher) < WatcherWeight(s.watcher))
            && (s.watcher != WCancel ==> t.link.reader == s.link.reader)
  {
  }

  lemma WatcherWaitsFall(s: State, l: Label)
    requires Enabled(s, l) && (l.WatcherTimesOut? || l.ChildWaitReturns?)
    ensures Measure(Next(s, l)) <= Measure(s)
    ensures l.ChildWaitReturns? ==> Measure(Next(s, l)) < Measure(s)
  {
  }

  lemma ChoicesFall(s: State, l: Label)
    requires Enabled(s, l) && (l.BeginSpawn? || l.BeginDrop? || l.Break? || l.ChildExits?)
    ensures Measure(Next(s, l)) < Measure(s)
  {
  }

  lemma ReaderStepFalls(s: State)
    requires Control(s) && ReaderEnabled(s.link) && !Idle(s, ReaderStep)
    ensures Measure(ReaderNext(s)) < Measure(s)
  {
    ReaderOutputAlive(s);
    ReaderFalls(s.mode, s.link, s.io, s.spawned, OwnerStage(s.owner));
  }

  /** The measure falls on every step that is not idle, in teardown or not. */
  lemma MeasureFalls(s: State, l: Label)
    requires Control(s) && Enabled(s, l) && !Idle(s, l)
    ensures Measure(Next(s, l)) < Measure(s)
  {
    match l
    case ReaderStep => ReaderStepFalls(s);
    case OwnerStep => OwnerStepFalls(s);
    case CleanerStep => CleanerFalls(s.console);
    case WatcherStep => WatcherStepFalls(s);
    case ChildWaitReturns(_) => WatcherWaitsFall(s, l);
    case PeekAnswer(_) => AnswersFall(s, l);
    case AliveAnswer(_) => AnswersFall(s, l);
    case ReadAnswer(_) => AnswersFall(s, l);
    case _ => ChoicesFall(s, l);
  }

  lemma FeedWeighs(s: State, bytes: seq<Byte>)
    requires Enabled(s, Feed(bytes))
    ensures Measure(Next(s, Feed(bytes))) == Measure(s) + BYTE * (|Next(s, Feed(bytes)).io.fed| - |s.io.fed|)
  {
  }

  /** The PTY is being dropped. */
  predicate Dropping(s: State) { OwnerStage(s.owner) >= 2 }

  /** The PTY is being dropped, and a synchronous reader, which polls, has been sent its first stop. */
  predicate Stopping(s: State) { Dropping(s) && (s.mode == Sync ==> OwnerStage(s.owner) >= 12) }

  /** From then on, idle steps do not raise the measure, except by the bytes they put in the pipe. */
  lemma IdleKeepsMeasure(s: State, l: Label)
    requires Control(s) && Enabled(s, l) && Idle(s, l) && Stopping(s)
    ensures Measure(Next(s, l)) <= Measure(s) + BYTE * (|Next(s, l).io.fed| - |s.io.fed|)
  {
    if l.Feed? {
      FeedWeighs(s, l.bytes);
    } else {
      OnlyFeedFeeds(s, l);
      IdleActionKeepsMeasure(s, l);
    }
  }

  lemma IdleActionKeepsMeasure(s: State, l: Label)
    requires Control(s) && Enabled(s, l) && Idle(s, l) && Stopping(s) && !l.Feed?
    ensures Measure(Next(s, l)) <= Measure(s)
  {
    match l
    case OwnerStep => OwnerStepFalls(s);
    case WatcherStep => WatcherStepFalls(s);
    case WatcherTimesOut => WatcherWaitsFall(s, l);
    case ReaderStep => PollFindsStop(s.mode, s.link, OwnerStage(s.owner));
    case _ =>
  }

  lemma PollFindsStop(mode: Mode, k: Link, o: nat)
    requires Flags(mode, k) && Stops(mode, k, o) && (mode == Sync ==> o >= 12) && k.reader == RPoll
    ensures k.alive.queue != []
  {
  }

  // ----- How many steps a teardown can take

  /** The steps from `i` to `j` that are not idle. */
  function Productive(states: seq<State>, steps: seq<Label>, i: nat, j: nat): (n: nat)
    requires i <= j <= |steps| && |states| == |steps| + 1
    decreases j
  {
    if i == j then 0
    else Productive(states, steps, i, j - 1) + if Idle(states[j - 1], steps[j - 1]) then 0 else 1
  }

  lemma OwnerKeepsDropping(mode: Mode, pc: OwnerPc, k: Link, c: Console)
    requires OwnerStage(pc) >= 2
    ensures OwnerStage(OwnerPcNext(mode, pc, k, c)) >= 2
  {
  }

  lemma DropStays(s: State, l: Label)
    requires Enabled(s, l) && Dropping(s)
    ensures Dropping(Next(s, l))
  {
    if l.OwnerStep? { OwnerKeepsDropping(s.mode, s.owner, s.link, s.console); }
  }

  lemma StoppingStays(s: State, l: Label)
    requires Enabled(s, l) && Stopping(s)
    ensures Stopping(Next(s, l))
  {
    DropStays(s, l);
    StepKeepsMode(s, l);
    if s.mode == Sync { StopStays(s, l); }
  }

  /** From `i` to `j`, each step that is not idle was paid for by the measure or by arriving bytes. */
  predicate Paid(states: seq<State>, steps: seq<Label>, i: nat, j: nat)
    requires i <= j <= |steps| && |states| == |steps| + 1
  {
    Productive(states, steps, i, j) + Measure(states[j]) <=
    Measure(states[i]) + BYTE * (|states[j].io.fed| - |states[i].io.fed|)
  }

  lemma {:induction false} StoppingLasts(mode: Mode, states: seq<State>, steps: seq<Label>, i: nat, j: nat)
    requires Run(mode, states, steps) && i <= j <= |steps| && Stopping(states[i])
    ensures Stopping(states[j])
    decreases j
  {
    if i < j {
      StoppingLasts(mode, states, steps, i, j - 1);
      assert Joined(states, steps, j - 1);
      StoppingStays(states[j - 1], steps[j - 1]);
    }
  }

  predicate PaidStep(states: seq<State>, steps: seq<Label>, k: nat)
    requires k < |steps| && |states| == |steps| + 1
  {
    Paid(states, steps, k, k + 1)
  }

  lemma TeardownStep(mode: Mode, states: seq<State>, steps: seq<Label>, k: nat)
    requires Run(mode, states, steps) && k < |steps| && Stopping(states[k])
    ensures PaidStep(states, steps, k)
  {
    var s, l := states[k], steps[k];
    InvHolds(mode, states, steps, k);
    assert Joined(states, steps, k);
    OnlyFeedFeeds(s, l);
    if Idle(s, l) {
      IdleKeepsMeasure(s, l);
    } else {
      MeasureFalls(s, l);
    }
    assert Productive(states, steps, k, k) == 0;
  }

  lemma PaidSnoc(states: seq<State>, steps: seq<Label>, i: nat, j: nat)
    requires i < j <= |steps| && |states| == |steps| + 1
    requires Paid(states, steps, i, j - 1) && Paid(states, steps, j - 1, j)
    ensures Paid(states, steps, i, j)
  {
    assert Productive(states, steps, j - 1, j) == if Idle(states[j - 1], steps[j - 1]) then 0 else 1;
  }

  lemma {:induction false} StepsArePaid(states: seq<State>, steps: seq<Label>, i: nat, j: nat)
    requires i <= j <= |steps| && |states| == |steps| + 1
    requires forall k :: i <= k < j ==> PaidStep(states, steps, k)
    ensures Paid(states, steps, i, j)
    decreases j
  {
    if i < j {
      StepsArePaid(states, steps, i, j - 1);
      assert PaidStep(states, steps, j - 1);
      PaidSnoc(states, steps, i, j);
    }
  }

  /**
   In any run, from the start of the drop on for an overlapped reader, and from the first stop on for a
   synchronous one, the steps that are not idle are at most the measure at that point and `BYTE` for every
   byte that still arrives.
   */
  lemma TeardownBound(mode: Mode, states: seq<State>, steps: seq<Label>, i: nat, j: nat)
    requires Run(mode, states, steps) && i <= j <= |steps| && Stopping(states[i])
    ensures Stopping(states[j]) && Paid(states, steps, i, j)
  {
    forall k | i <= k < j ensures PaidStep(states, steps, k) {
      StoppingLasts(mode, states, steps, i, k);
      TeardownStep(mode, states, steps, k);
    }
    StepsArePaid(states, steps, i, j);
    StoppingLasts(mode, states, steps, i, j);
  }

  // ----- Progress

  /** Every thread has ended. */
  predicate Finished(s: State) {
    && s.owner == ODone && s.link.reader == RDone
    && (s.watcher == WDone || s.watcher == WAbsent)
    && (s.console.cleaner == CDone || s.console.cleaner == CAbsent)
  }

  /**
   The step needs no luck: a thread acts, a foreign call answers truthfully, a cancelled read fails, or the
   child ends after its pseudoconsole was closed.
   */
  predicate Due(s: State, l: Label) {
    match l
    case PeekAnswer(total) => total == Some(|s.io.pipe|)
    case AliveAnswer(alive) => alive == Some(!s.exited)
    case ReadAnswer(a) => s.link.reader == RReading(true)
    case ChildExits => !s.console.open
    case Feed(_) => false
    case Break => false
    case OwnerRead(_) => false
    case BeginSpawn => false
    case SpawnFails => false
    case BeginDrop => false
    case _ => true
  }

  /** A sequence of enabled steps, all due, and where it leads. */
  predicate Way(s: State, path: seq<Label>)
    decreases |path|
  {
    path == [] || (Enabled(s, path[0]) && Due(s, path[0]) && Way(Next(s, path[0]), path[1..]))
  }

  function Ahead(s: State, path: seq<Label>): (t: State)
    requires Way(s, path)
    decreases |path|
  {
    if path == [] then s else Ahead(Next(s, path[0]), path[1..])
  }

  /** The way leads to a smaller measure. */
  predicate Down(s: State, path: seq<Label>) { Way(s, path) && Measure(Ahead(s, path)) < Measure(s) }

  /** One step that is not idle leads down. */
  lemma FallingStep(s: State, l: Label) returns (path: seq<Label>)
    requires Control(s) && Enabled(s, l) && Due(s, l) && !Idle(s, l)
    ensures Down(s, path) && |path| == 1
  {
    path := [l];
    assert path[1..] == [];
    MeasureFalls(s, l);
  }

  /** A step or a time-out of the owner or the watcher. */
  predicate OfOwnerOrWatcher(l: Label) { l.OwnerStep? || l.OwnerTimesOut? || l.WatcherStep? || l.WatcherTimesOut? }

  /** So does a step that does not raise the measure, though idle, followed by a way down. */
  lemma IdleFirst(s: State, l: Label, t: State, rest: seq<Label>) returns (path: seq<Label>)
    requires Enabled(s, l) && Due(s, l) && t == Next(s, l) && Measure(t) <= Measure(s) && Down(t, rest)
    ensures Down(s, path) && |path| == |rest| + 1
  {
    path := [l] + rest;
    assert path[1..] == rest;
  }

  lemma ThreadKeepsMeasure(s: State, l: Label)
    requires Control(s) && Enabled(s, l) && OfOwnerOrWatcher(l)
    ensures Measure(Next(s, l)) <= Measure(s)
  {
    match l
    case OwnerStep => OwnerStepFalls(s);
    case WatcherStep => WatcherStepFalls(s);
    case WatcherTimesOut => WatcherWaitsFall(s, l);
    case OwnerTimesOut =>
  }

  /** A `None` was sent: the reader takes it, or has taken its handshake and says so. */
  lemma NobodyProgress(s: State) returns (path: seq<Label>)
    requires Control(s) && s.owner == OSendNobody
    ensures Down(s, path) && |path| <= 2
  {
    var t := Next(s, OwnerStep);
    StepKeepsControl(s, OwnerStep);
    path := FallingStep(t, if t.link.ready then OwnerStep else ReaderStep);
    ThreadKeepsMeasure(s, OwnerStep);
    path := IdleFirst(s, OwnerStep, Next(s, OwnerStep), path);
  }

  /** The first loop of the drop ends. */
  lemma HandshakeProgress(s: State) returns (path: seq<Label>)
    requires Control(s) && s.owner == OReady
    ensures Down(s, path) && |path| <= 3
  {
    if s.link.ready {
      path := FallingStep(s, OwnerStep);
    } else {
      StepKeepsControl(s, OwnerStep);
      path := NobodyProgress(Next(s, OwnerStep));
      ThreadKeepsMeasure(s, OwnerStep);
      path := IdleFirst(s, OwnerStep, Next(s, OwnerStep), path);
    }
  }

  /** A foreign call the reader waits in is answered, unless it is a read that nobody has cancelled. */
  lemma AnswerProgress(s: State) returns (path: seq<Label>)
    requires Control(s) && (s.link.reader.RPeek? || s.link.reader.RAlive? || s.link.reader == RReading(true))
    ensures Down(s, path) && |path| <= 3
  {
    match s.link.reader
    case RPeek => path := FallingStep(s, PeekAnswer(Some(|s.io.pipe|)));
    case RAlive(_) => path := FallingStep(s, AliveAnswer(Some(!s.exited)));
    case RReading(_) => path := FallingStep(s, ReadAnswer(Failure));
  }

  /** Otherwise the reader has a step of its own. */
  lemma ReaderProgress(s: State) returns (path: seq<Label>)
    requires Control(s) && OwnerStage(s.owner) >= 12 && s.link.reader != RDone && s.link.reader != RReading(false)
    ensures Down(s, path) && |path| <= 3
  {
    if s.link.reader.RPeek? || s.link.reader.RAlive? || s.link.reader.RReading? {
      path := AnswerProgress(s);
    } else {
      path := FallingStep(s, ReaderStep);
    }
  }

  /** After any cancel, of the drop, its first one included, or of the watcher, no read is pending uncancelled. */
  lemma CancelHitsPendingRead(s: State, l: Label)
    requires Enabled(s, l)
    requires (l == OwnerStep && s.owner.OCancel?) || (l == WatcherStep && s.watcher.WCancel?)
    ensures var pc, pc' := s.link.reader, Next(s, l).link.reader;
            pc' != RReading(false) && (pc' == pc || (pc == RReading(false) && pc' == RReading(true)))
  {
  }

  /** The exit event is set: the wait returns, */
  lemma SignalledCancel(s: State) returns (path: seq<Label>)
    requires Control(s) && s.owner == OCancel(true) && s.link.exitEvent
    ensures Down(s, path) && |path| <= 2
  {
    StepKeepsControl(s, OwnerStep);
    path := FallingStep(Next(s, OwnerStep), OwnerStep);
    ThreadKeepsMeasure(s, OwnerStep);
    path := IdleFirst(s, OwnerStep, Next(s, OwnerStep), path);
  }

  /** at the latest after the retry under way. */
  lemma SignalledProgress(s: State) returns (path: seq<Label>)
    requires Control(s) && OwnerStage(s.owner) == 13 && s.link.exitEvent
    ensures Down(s, path) && |path| <= 3
  {
    match s.owner
    case OWait => path := FallingStep(s, OwnerStep);
    case OCancel(_) => path := SignalledCancel(s);
    case OSendStop(_) =>
      StepKeepsControl(s, OwnerStep);
      path := SignalledCancel(Next(s, OwnerStep));
      ThreadKeepsMeasure(s, OwnerStep);
      path := IdleFirst(s, OwnerStep, Next(s, OwnerStep), path);
  }

  /** The reader is stuck in a read issued between cancel and wait: a retry cancels it. */
  lemma RetryCancels(s: State) returns (path: seq<Label>)
    requires Control(s) && s.owner == OSendStop(true) && s.link.reader == RReading(false)
    ensures Down(s, path) && |path| == 2
  {
    StepKeepsControl(s, OwnerStep);
    path := FallingStep(Next(s, OwnerStep), OwnerStep);
    ThreadKeepsMeasure(s, OwnerStep);
    path := IdleFirst(s, OwnerStep, Next(s, OwnerStep), path);
  }

  lemma StuckReadProgress(s: State) returns (path: seq<Label>)
    requires Control(s) && OwnerStage(s.owner) == 13 && s.link.reader == RReading(false)
    ensures Down(s, path) && |path| <= 3
  {
    match s.owner
    case OCancel(_) => path := FallingStep(s, OwnerStep);
    case OSendStop(_) => path := RetryCancels(s);
    case OWait =>
      StepKeepsControl(s, OwnerTimesOut);
      path := RetryCancels(Next(s, OwnerTimesOut));
      ThreadKeepsMeasure(s, OwnerTimesOut);
      path := IdleFirst(s, OwnerTimesOut, Next(s, OwnerTimesOut), path);
  }

  lemma WaitProgress(s: State) returns (path: seq<Label>)
    requires Control(s) && OwnerStage(s.owner) == 13
    ensures Down(s, path) && |path| <= 3
  {
    if s.link.exitEvent {
      path := SignalledProgress(s);
    } else if s.link.reader == RReading(false) {
      path := StuckReadProgress(s);
    } else {
      path := ReaderProgress(s);
    }
  }

  lemma WatcherCancels(s: State) returns (path: seq<Label>)
    requires Control(s) && s.watcher == WCancel && s.link.exitEvent
    ensures Down(s, path) && |path| <= 3
  {
    StepKeepsControl(s, WatcherStep);
    path := FallingStep(Next(s, WatcherStep), WatcherStep);
    ThreadKeepsMeasure(s, WatcherStep);
    path := IdleFirst(s, WatcherStep, Next(s, WatcherStep), path);
  }

  lemma ChildProgress(s: State) returns (path: seq<Label>)
    requires Control(s) && s.owner == OJoinWatcher && s.watcher == WChild
    ensures Down(s, path) && |path| <= 3
  {
    path := FallingStep(s, if s.exited then ChildWaitReturns(true) else ChildExits);
  }

  /** Waiting for the watcher: the child ends, the event is set, and the watcher goes on to its end. */
  lemma WatcherProgress(s: State) returns (path: seq<Label>)
    requires Control(s) && s.owner == OJoinWatcher
    ensures Down(s, path) && |path| <= 3
  {
    match s.watcher
    case WChild => path := ChildProgress(s);
    case WCancel => path := WatcherCancels(s);
    case WDone => path := FallingStep(s, OwnerStep);
    case WAbsent => path := FallingStep(s, OwnerStep);
    case _ => path := FallingStep(s, WatcherStep);
  }

  /** The mutex is free, or the cleanup thread holds it and goes on. */
  lemma LockProgress(s: State) returns (path: seq<Label>)
    requires Control(s) && s.owner == ODropLock
    ensures Down(s, path) && |path| <= 3
  {
    ThreadCases(s.console.lock);
    path := FallingStep(s, if s.console.lock.None? then OwnerStep else CleanerStep);
  }

  /** When the owner is gone, the cleanup thread never blocks. */
  lemma CleanerCanFinish(s: State)
    requires Control(s) && s.owner == ODone && s.console.cleaner != CDone && s.console.cleaner != CAbsent
    ensures CleanerEnabled(s.console)
  {
    ThreadCases(s.console.lock);
  }

  lemma LastProgress(s: State) returns (path: seq<Label>)
    requires Control(s) && s.owner == ODone && !Finished(s)
    ensures Down(s, path) && |path| <= 3
  {
    CleanerCanFinish(s);
    path := FallingStep(s, CleanerStep);
  }

  /** The stages at which the owner waits for others. */
  predicate Waits(pc: OwnerPc) {
    pc in {OReady, OSendNobody, OSendStop(true), OCancel(true), OWait, OJoinReader, OJoinWatcher, ODropLock, ODone}
  }

  lemma OwnerGoesOn(s: State) returns (path: seq<Label>)
    requires Control(s) && Dropping(s) && !Waits(s.owner)
    ensures Down(s, path) && |path| <= 3
  {
    path := FallingStep(s, OwnerStep);
  }

  lemma JoinProgress(s: State) returns (path: seq<Label>)
    requires Control(s) && s.owner == OJoinReader
    ensures Down(s, path) && |path| <= 3
  {
    if s.link.reader == RDone {
      path := FallingStep(s, OwnerStep);
    } else {
      path := ReaderProgress(s);
    }
  }

  /** From every state of a teardown that is not finished, a falling step is at most one retry away. */
  lemma Progress(s: State) returns (path: seq<Label>)
    requires Control(s) && Dropping(s) && !Finished(s)
    ensures Down(s, path) && |path| <= 3
  {
    if !Waits(s.owner) {
      path := OwnerGoesOn(s);
    } else if OwnerStage(s.owner) == 13 {
      path := WaitProgress(s);
    } else {
      match s.owner
      case OReady => path := HandshakeProgress(s);
      case OSendNobody => path := NobodyProgress(s);
      case OJoinReader => path := JoinProgress(s);
      case OJoinWatcher => path := WatcherProgress(s);
      case ODropLock => path := LockProgress(s);
      case ODone => path := LastProgress(s);
    }
  }

  lemma {:induction false} WayKeeps(s: State, path: seq<Label>)
    requires Control(s) && Dropping(s) && Way(s, path)
    ensures Control(Ahead(s, path)) && Dropping(Ahead(s, path))
    decreases |path|
  {
    if path != [] {
      StepKeepsControl(s, path[0]);
      DropStays(s, path[0]);
      WayKeeps(Next(s, path[0]), path[1..]);
    }
  }

  lemma {:induction false} WayOn(s: State, path: seq<Label>, more: seq<Label>)
    requires Way(s, path) && Way(Ahead(s, path), more)
    ensures Way(s, path + more) && Ahead(s, path + more) == Ahead(Ahead(s, path), more)
    decreases |path|
  {
    if path == [] {
      assert path + more == more;
    } else {
      var t := Next(s, path[0]);
      WayOn(t, path[1..], more);
      DropOfConcat(path, more, 1);
    }
  }

  lemma {:induction false} WayToTheEnd(s: State) returns (path: seq<Label>)
    requires Control(s) && Dropping(s)
    ensures Way(s, path) && Finished(Ahead(s, path))
    decreases Measure(s)
  {
    path := [];
    if !Finished(s) {
      var first := Progress(s);
      WayKeeps(s, first);
      var rest := WayToTheEnd(Ahead(s, first));
      WayOn(s, first, rest);
      path := first + rest;
    }
  }

  /**
   Teardown can always finish: whatever has happened before, once the PTY is being dropped there is a way,
   through due steps only, to the end of the owner, the reader, the watcher and the cleanup thread.
   */
  lemma TeardownCanFinish(mode: Mode, states: seq<State>, steps: seq<Label>, i: nat) returns (path: seq<Label>)
    requires Run(mode, states, steps) && i < |states| && Dropping(states[i])
    ensures Way(states[i], path) && Finished(Ahead(states[i], path))
  {
    InvHolds(mode, states, steps, i);
    path := WayToTheEnd(states[i]);
  }
}

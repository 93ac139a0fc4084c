/**
 What the end of the child sets in motion, with no help of the owner: the reader comes to its end, if need be
 because the watcher cancels its reads, the watcher tells the cleanup thread, and that closes the
 pseudoconsole. No byte needs to arrive for it, and the pipe need not break.
 */
module ChildExit {
  import opened Protocol
  import opened Invariant
  import opened Contents
  import opened Teardown
  import opened ChannelEnds

  // ----- The cleanup thread before a drop

  /** A cleanup thread that was told of a spawn ends after a message, and after `true` with the pseudoconsole closed. */
  predicate Acted(c: Console, released: bool) {
    (c.cleaner.CEnd? || c.cleaner.CDone?) && released ==> c.first.Some? && (c.first == Some(true) ==> !c.open)
  }

  predicate Attentive(s: State) {
    EndsHeld(s) && (OwnerStage(s.owner) <= 1 ==> Acted(s.console, Released(s.mode, s.spawned, s.owner)))
  }

  lemma CleanerKeepsActed(mode: Mode, c: Console, told: bool, released: bool, holding: bool, o: nat)
    requires mode == Async && o <= 1 && CleanerEnabled(c) && Acted(c, released) && c.clean.senders > 0
    requires Messages(mode, c, told, o) && Releases(mode, c, released, o) && Ownership(mode, c, holding, o)
    ensures Acted(CleanerNext(c), released)
  {
  }

  lemma WatcherKeepsActed(s: State, released: bool)
    requires WatcherEnabled(s) && Acted(s.console, released)
    ensures Acted(WatcherNext(s).console, released)
  {
  }

  lemma OwnerKeepsActed(mode: Mode, pc: OwnerPc, c: Console, released: bool)
    requires OwnerStage(pc) == 1 && Acted(c, released)
    requires released || !(c.cleaner.CEnd? || c.cleaner.CDone?)
    ensures Acted(OwnerConsole(pc, c), released || (mode == Async && pc == OSendRelease))
  {
  }

  lemma OwnerKeepsAttentive(s: State)
    requires Control(s) && s.mode == Async && OwnerEnabled(s) && OwnerStage(s.owner) == 1 && Attentive(s)
    ensures Attentive(OwnerNext(s))
  {
    OwnerStepKeepsHeld(s);
    var o' := OwnerAdvances(s);
    OwnerReleases(s.mode, s.link, s.console, s.spawned, s.owner);
    OwnerKeepsActed(s.mode, s.owner, s.console, Released(s.mode, s.spawned, s.owner));
  }

  lemma ThreadKeepsAttentive(s: State, l: Label)
    requires Control(s) && s.mode == Async && Enabled(s, l) && ThreadActs(l) && Attentive(s)
    requires OwnerStage(s.owner) <= 1
    ensures Attentive(Next(s, l))
  {
    ThreadKeepsHeld(s, l);
    match l
    case ReaderStep =>
    case WatcherStep => WatcherKeepsActed(s, Released(s.mode, s.spawned, s.owner));
    case OwnerStep => OwnerKeepsAttentive(s);
    case CleanerStep =>
      CleanerKeepsActed(s.mode, s.console, Told(s.link, s.watcher), Released(s.mode, s.spawned, s.owner),
                        Holding(s.owner), OwnerStage(s.owner));
  }

  lemma EventKeepsAttentive(s: State, l: Label)
    requires Control(s) && s.mode == Async && Enabled(s, l) && !ThreadActs(l) && Attentive(s)
    requires OwnerStage(s.owner) <= 1
    ensures Attentive(Next(s, l))
  {
    EventKeepsHeld(s, l);
  }

  lemma StepKeepsAttentive(s: State, l: Label, t: State)
    requires Control(s) && s.mode == Async && Attentive(s) && OwnerStage(s.owner) <= 1
    requires Enabled(s, l) && t == Next(s, l)
    ensures Attentive(t)
  {
    if ThreadActs(l) {
      ThreadKeepsAttentive(s, l);
    } else {
      EventKeepsAttentive(s, l);
    }
  }

  lemma StepOfRunKeepsAttentive(states: seq<State>, steps: seq<Label>, i: nat)
    requires Run(Async, states, steps) && 0 < i < |states| && Attentive(states[i - 1])
    requires OwnerStage(states[i - 1].owner) <= 1
    ensures Attentive(states[i])
  {
    var s, l, t := StepInRun(Async, states, steps, i);
    StepKeepsAttentive(s, l, t);
  }

  lemma DropIsLater(states: seq<State>, steps: seq<Label>, i: nat)
    requires Run(Async, states, steps) && 0 < i < |states| && OwnerStage(states[i].owner) <= 1
    ensures OwnerStage(states[i - 1].owner) <= 1
  {
    assert Joined(states, steps, i - 1);
    if Dropping(states[i - 1]) {
      DropStays(states[i - 1], steps[i - 1]);
    }
  }

  lemma {:induction false} StaysAttentive(states: seq<State>, steps: seq<Label>, i: nat)
    requires Run(Async, states, steps) && i < |states| && OwnerStage(states[i].owner) <= 1
    ensures Attentive(states[i])
  {
    if i > 0 {
      DropIsLater(states, steps, i);
      StaysAttentive(states, steps, i - 1);
      StepOfRunKeepsAttentive(states, steps, i);
    }
  }

  // ----- Progress without the owner

  /** The child has ended, and the owner does nothing. */
  predicate Left(s: State) {
    s.mode == Async && s.owner == OIdle && s.spawned && s.exited
  }

  /** Reader, watcher and cleanup thread have ended, and the pseudoconsole is closed. */
  predicate Cleaned(s: State) {
    && s.link.reader == RDone && s.watcher == WDone && s.console.cleaner == CDone
    && s.console.closer == Some(Cleaner) && s.console.closes == 1 && !s.console.open
  }

  predicate AllEnded(s: State) { s.link.reader == RDone && s.watcher == WDone && s.console.cleaner == CDone }

  lemma ReaderIsOverlapped(s: State)
    requires Control(s) && Left(s)
    ensures !s.link.reader.RPoll? && !s.link.reader.RPeek? && !s.link.reader.RAlive? && !s.link.reader.RPanicked?
    ensures s.link.reader == RHandshake ==> ReaderEnabled(s.link)
  {
  }

  lemma ReaderMoves(s: State) returns (path: seq<Label>)
    requires Control(s) && Left(s) && ReaderEnabled(s.link)
    ensures Down(s, path)
  {
    ReaderIsOverlapped(s);
    path := FallingStep(s, ReaderStep);
  }

  lemma CancelledReadFails(s: State) returns (path: seq<Label>)
    requires Control(s) && s.link.reader == RReading(true)
    ensures Down(s, path)
  {
    path := FallingStep(s, ReadAnswer(Failure));
  }

  /** The wait for the reader times out, and the watcher cancels the pending read. */
  lemma FallbackCancels(s: State) returns (path: seq<Label>)
    requires Control(s) && s.link.reader == RReading(false) && (s.watcher == WFirst || s.watcher == WAgain)
    ensures Down(s, path)
  {
    StepKeepsControl(s, WatcherTimesOut);
    path := FallingStep(Next(s, WatcherTimesOut), WatcherStep);
    ThreadKeepsMeasure(s, WatcherTimesOut);
    path := IdleFirst(s, WatcherTimesOut, Next(s, WatcherTimesOut), path);
  }

  lemma WatcherHears(s: State) returns (path: seq<Label>)
    requires Control(s) && Left(s) && s.watcher == WRecv && Forwarded(s.link)
    ensures Down(s, path)
  {
    path := FallingStep(s, WatcherStep);
  }

  lemma ChildWaitEnds(s: State) returns (path: seq<Label>)
    requires Control(s) && Left(s) && s.watcher == WChild
    ensures Down(s, path)
  {
    path := FallingStep(s, ChildWaitReturns(true));
  }

  /** Where the watcher can be while the reader waits in a read. */
  lemma WatcherOfReading(s: State)
    requires Control(s) && Left(s) && s.link.reader.RReading?
    ensures Forwarded(s.link) && s.watcher in {WRecv, WChild, WFirst, WCancel, WAgain}
  {
  }

  /** The reader waits in a read that nobody has cancelled: the watcher comes to cancel it. */
  lemma PendingReadMoves(s: State) returns (path: seq<Label>)
    requires Control(s) && Left(s) && s.link.reader == RReading(false)
    ensures Down(s, path)
  {
    WatcherOfReading(s);
    if s.watcher == WRecv {
      path := WatcherHears(s);
    } else if s.watcher == WChild {
      path := ChildWaitEnds(s);
    } else if s.watcher == WCancel {
      path := FallingStep(s, WatcherStep);
    } else {
      path := FallbackCancels(s);
    }
  }

  lemma WatcherOfDone(s: State)
    requires Control(s) && Left(s) && s.link.reader == RDone
    ensures Forwarded(s.link) && s.link.exitEvent && s.watcher != WAbsent
  {
  }

  /** The reader has ended: the watcher comes to its end. */
  lemma WatcherMoves(s: State) returns (path: seq<Label>)
    requires Control(s) && Left(s) && s.link.reader == RDone && s.watcher != WDone
    ensures Down(s, path)
  {
    WatcherOfDone(s);
    if s.watcher == WRecv {
      path := WatcherHears(s);
    } else if s.watcher == WChild {
      path := ChildWaitEnds(s);
    } else if s.watcher == WCancel {
      path := WatcherCancels(s);
    } else {
      path := FallingStep(s, WatcherStep);
    }
  }

  lemma CleanerIsTold(s: State)
    requires Control(s) && Left(s) && s.link.reader == RDone && s.watcher == WDone
    ensures s.console.first == Some(true) && Released(s.mode, s.spawned, s.owner)
    ensures s.console.cleaner != CAbsent && (s.console.cleaner != CDone ==> CleanerEnabled(s.console))
  {
    BoolCases(s.console.first);
    ThreadCases(s.console.lock);
  }

  lemma CleanerMoves(s: State) returns (path: seq<Label>)
    requires Control(s) && Left(s) && s.link.reader == RDone && s.watcher == WDone && s.console.cleaner != CDone
    ensures Down(s, path)
  {
    CleanerIsTold(s);
    path := FallingStep(s, CleanerStep);
  }

  lemma ReaderCases(s: State)
    requires Control(s) && Left(s)
    ensures ReaderEnabled(s.link) || s.link.reader == RDone || s.link.reader == RReading(true) ||
            s.link.reader == RReading(false)
  {
    ReaderIsOverlapped(s);
  }

  /** As long as not all have ended, a step that counts is at most one time-out away. */
  lemma SomeoneMoves(s: State) returns (path: seq<Label>)
    requires Control(s) && Left(s) && !AllEnded(s)
    ensures Down(s, path)
  {
    ReaderCases(s);
    if ReaderEnabled(s.link) {
      path := ReaderMoves(s);
    } else if s.link.reader == RReading(true) {
      path := CancelledReadFails(s);
    } else if s.link.reader == RReading(false) {
      path := PendingReadMoves(s);
    } else if s.watcher != WDone {
      path := WatcherMoves(s);
    } else {
      path := CleanerMoves(s);
    }
  }

  // ----- To the close

  lemma DueStepKeepsLeft(s: State, l: Label)
    requires Enabled(s, l) && Due(s, l) && Left(s)
    ensures Left(Next(s, l))
  {
  }

  lemma {:induction false} WayKeepsLeft(s: State, path: seq<Label>)
    requires Control(s) && Left(s) && Attentive(s) && Way(s, path)
    ensures var t := Ahead(s, path); Control(t) && Left(t) && Attentive(t)
    decreases |path|
  {
    if path != [] {
      StepKeepsControl(s, path[0]);
      DueStepKeepsLeft(s, path[0]);
      StepKeepsAttentive(s, path[0], Next(s, path[0]));
      WayKeepsLeft(Next(s, path[0]), path[1..]);
    }
  }

  lemma EndedIsCleaned(s: State)
    requires Control(s) && Left(s) && Attentive(s) && AllEnded(s)
    ensures Cleaned(s)
  {
    CleanerIsTold(s);
    ThreadCases(s.console.closer);
  }

  lemma {:induction false} WayToClose(s: State) returns (path: seq<Label>)
    requires Control(s) && Left(s) && Attentive(s)
    ensures Way(s, path) && Cleaned(Ahead(s, path))
    decreases Measure(s)
  {
    path := [];
    if AllEnded(s) {
      EndedIsCleaned(s);
    } else {
      var first := SomeoneMoves(s);
      WayKeepsLeft(s, first);
      var rest := WayToClose(Ahead(s, first));
      WayOn(s, first, rest);
      path := first + rest;
    }
  }

  /**
   From every state of every run in which the child has ended and the owner does nothing, there is a way,
   through due steps only, to the end of the reader, the watcher and the cleanup thread, which has closed the
   pseudoconsole. No step of the owner is among them.
   */
  lemma ChildExitCloses(states: seq<State>, steps: seq<Label>, i: nat) returns (path: seq<Label>)
    requires Run(Async, states, steps) && i < |states|
    requires states[i].owner == OIdle && states[i].spawned && states[i].exited
    ensures Way(states[i], path) && Cleaned(Ahead(states[i], path)) && Ahead(states[i], path).owner == OIdle
  {
    InvHolds(Async, states, steps, i);
    StaysAttentive(states, steps, i);
    path := WayToClose(states[i]);
    WayKeepsLeft(states[i], path);
  }
}

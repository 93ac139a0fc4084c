/** What holds in every run of the protocol, whatever the interleaving. */
module Safety {
  import opened Sequences
  import opened Unicode
  import opened ReadPath
  import opened Protocol
  import opened Invariant
  import opened Contents

  /** The sends of the reader's results, of the process and of the release are unwrapped: each needs its receiver. */
  lemma SendsAreUnwrapped(mode: Mode, k: Link, c: Console)
    ensures k.reader.RGot? || k.reader.RSendEof? ==>
            && LinkNext(mode, k, false).reader == RPanicked
            && !LinkNext(mode, k, true).reader.RPanicked?
    ensures OwnerPcNext(mode, OSetProcess, k, c) == OPanicked <==> !k.process.receiver
    ensures OwnerPcNext(mode, OSendRelease, k, c) == OPanicked <==> !c.release.receiver
  {
  }

  /** No `unwrap` ever fails: not of the reader's sends, nor of the sends of the first spawn, which are all received. */
  lemma NoPanics(mode: Mode, states: seq<State>, steps: seq<Label>, i: nat)
    requires Run(mode, states, steps) && i < |states|
    ensures var s := states[i];
            && !s.link.reader.RPanicked? && !s.owner.OPanicked?
            && (s.link.reader.RGot? || s.link.reader.RSendEof? ==> s.io.out.receiver)
            && (s.owner == OSetProcess ==> s.link.process.receiver)
            && (s.owner == OSendRelease ==> s.console.release.receiver)
  {
    InvHolds(mode, states, steps, i);
    ControlHasNoPanics(states[i]);
    SpawnIsHeardBy(states[i]);
  }

  lemma SpawnIsHeardBy(s: State)
    requires Control(s)
    ensures s.owner == OSetProcess ==> s.link.process.receiver
    ensures s.owner == OSendRelease ==> s.console.release.receiver
  {
    SpawnIsHeard(s.mode, s.link, s.console, s.spawned, s.owner);
  }

  lemma ControlHasNoPanics(s: State)
    requires Linked(s) && OwnerFits(s.mode, s.owner, s.spawned)
    ensures !s.link.reader.RPanicked? && !s.owner.OPanicked?
    ensures s.link.reader.RGot? || s.link.reader.RSendEof? ==> s.io.out.receiver
  {
  }

  /**
   The reader takes exactly one handshake, the process if and only if a process was set, however many
   `None`s the drop sends; and the drop gets past its first loop only after that.
   */
  lemma HandshakeDecidedBySpawn(mode: Mode, states: seq<State>, steps: seq<Label>, i: nat)
    requires Run(mode, states, steps) && i < |states|
    ensures var s := states[i];
            && s.link.handshakes <= 1
            && (s.link.handshakes == 1 ==> s.link.got == Some(if s.spawned then Process else Nobody))
            && (OwnerStage(s.owner) >= 11 ==> s.link.handshakes == 1)
  {
    InvHolds(mode, states, steps, i);
    var k := states[i].link;
    if k.got.Some? {
      assert k.got.value == Process || k.got.value == Nobody;
    }
  }

  /** The last item is the only one of a read that got no bytes: an error, or an empty chunk at the stream's end. */
  predicate OneTerminator(io: Io) {
    && Ended(io.results) && io.sent == Items(io.results)
    && (io.sent[|io.sent| - 1] == ReadError || io.sent[|io.sent| - 1] == Chunk([]))
  }

  lemma EndedHasOneTerminator(io: Io)
    requires Ended(io.results) && io.sent == Items(io.results)
    ensures OneTerminator(io)
    ensures io.sent[|io.sent| - 1] == Chunk([]) <==> io.results[|io.results| - 1] == Nothing
  {
    ItemAt(io.results, |io.results| - 1);
  }

  /**
   Cleanup waits for the reader: if the cleanup thread is the one that closed the pseudoconsole, the child
   has ended, the reader has set the exit event, and its terminating item is already sent. Nothing that the
   reader delivers is cut off by the close; what it delivers is all of the output exactly if the pipe is empty.
   */
  lemma CleanupWaitsForReader(mode: Mode, states: seq<State>, steps: seq<Label>, i: nat)
    requires Run(mode, states, steps) && i < |states| && states[i].console.closer == Some(Cleaner)
    ensures var s := states[i];
            && s.exited && s.childWait == Some(true)
            && s.link.exitEvent && !s.link.running
            && OneTerminator(s.io) && s.io.sent == s.io.received + s.io.out.queue
            && (Delivered(s.io.results) == s.io.fed <==> s.io.pipe == [])
  {
    InvHolds(mode, states, steps, i);
    var s := states[i];
    BoolCases(s.childWait);
    EndedHasOneTerminator(s.io);
    DeliveredIsAll(ViewOf(s.link), s.io);
  }

  lemma DeliveredIsAll(v: View, io: Io)
    requires BytesKept(v, io) && v.held.None?
    ensures io.fed == Delivered(io.results) + io.pipe
    ensures Delivered(io.results) == io.fed <==> io.pipe == []
  {
    NothingAppended(Delivered(io.results));
  }

  /**
   Items are received in the order they were sent, none lost and none invented. They are the results of the
   reads, one by one. In an overlapped run every read gets bytes until the one that ends the reader; in a
   synchronous run one `None` may follow the last result, and no other item is a `None`.
   */
  lemma OutputGrammar(mode: Mode, states: seq<State>, steps: seq<Label>, i: nat)
    requires Run(mode, states, steps) && i < |states|
    ensures var s := states[i];
            && s.io.sent == s.io.received + s.io.out.queue
            && (mode == Sync ==> s.io.sent == Items(s.io.results) || s.io.sent == Items(s.io.results) + [Eof])
            && Eof !in Items(s.io.results)
            && (mode == Async ==> s.io.sent == Items(s.io.results))
            && (mode == Async && ReaderStage(s.link.reader) <= 2 ==> AllData(s.io.results))
            && (mode == Async && !s.link.running ==> if s.spawned then OneTerminator(s.io) else s.io.sent == [])
  {
    InvHolds(mode, states, steps, i);
    var s := states[i];
    ItemsAreNotEof(s.io.results);
    if mode == Async && !s.link.running && s.spawned {
      EndedHasOneTerminator(s.io);
    }
  }

  /**
   An empty string need not be the end: in an overlapped run an item that is not the terminator is the text
   of a read, and it is empty exactly when that read held nothing but NULs.
   */
  lemma EmptyItems(states: seq<State>, steps: seq<Label>, i: nat, j: nat)
    requires Run(Async, states, steps) && i < |states| && j < |states[i].io.sent|
    requires ReaderStage(states[i].link.reader) <= 2 || j < |states[i].io.sent| - 1
    ensures var io := states[i].io;
            && |io.results| == |io.sent| && io.results[j].Data? && io.sent[j] == Chunk(Text(io.results[j].bytes))
            && (io.sent[j] == Chunk([]) <==> forall x :: 0 <= x < |io.results[j].bytes| ==> io.results[j].bytes[x] == 0)
  {
    InvHolds(Async, states, steps, i);
    var results := states[i].io.results;
    if ReaderStage(states[i].link.reader) <= 2 {
      AllDataAt(results, j);
    } else {
      AllDataAt(results[..|results| - 1], j);
    }
    ItemAt(results, j);
    EmptyTextIsNuls(results[j].bytes);
  }

  /**
   When an overlapped reader has ended, what was put in the pipe is what was delivered and then what is in
   the pipe. After an end by zero bytes that is nothing.
   */
  lemma EndedLeavesPipe(states: seq<State>, steps: seq<Label>, i: nat)
    requires Run(Async, states, steps) && i < |states| && !states[i].link.running && states[i].spawned
    ensures var io := states[i].io;
            && OneTerminator(io) && io.fed == Delivered(io.results) + io.pipe
            && (Delivered(io.results) == io.fed <==> io.pipe == [])
            && (io.sent[|io.sent| - 1] == Chunk([]) ==> io.pipe == [] && io.broken)
  {
    InvHolds(Async, states, steps, i);
    var s := states[i];
    EndedHasOneTerminator(s.io);
    DeliveredIsAll(ViewOf(s.link), s.io);
  }

  /**
   Nothing is lost on the way from the pipe: when an overlapped reader has ended with an empty chunk, the
   items received and queued carry every byte ever put in the pipe, and their text is the text of those
   bytes exactly when no read began inside a character.
   */
  lemma NaturalEndIsComplete(states: seq<State>, steps: seq<Label>, i: nat)
    requires Run(Async, states, steps) && i < |states|
    requires var s := states[i]; !s.link.running && s.io.sent != [] && s.io.sent[|s.io.sent| - 1] == Chunk([])
    ensures var io := states[i].io;
            && Delivered(io.results) == io.fed && io.broken
            && TextOfItems(io.received + io.out.queue) == TextOfReads(Pieces(io.results))
            && (WellFormed8(io.fed) ==>
                (TextOfItems(io.received + io.out.queue) == Text(io.fed) <==> OnBoundaries(Pieces(io.results))))
  {
    InvHolds(Async, states, steps, i);
    EndedLeavesPipe(states, steps, i);
    var io := states[i].io;
    TextOfReadItems(io.results);
    DeliveredInPieces(io.results);
    if WellFormed8(io.fed) {
      ReadsMakeUpStream(Pieces(io.results));
    }
  }

  // ----- The pseudoconsole

  /** A spawn finds the pseudoconsole open; once `ConPTY::drop` is through, it has been closed, once. */
  lemma ConsoleClosedOnce(mode: Mode, states: seq<State>, steps: seq<Label>, i: nat)
    requires Run(mode, states, steps) && i < |states|
    ensures var s := states[i];
            && s.console.closes <= 1
            && (mode == Async && (s.owner.OSpawnCreate? || s.owner.OSetProcess?) ==>
                s.console.open && s.console.closes == 0)
            && (mode == Async && OwnerStage(s.owner) >= 10 ==> s.console.closes == 1 && !s.console.open)
            && (mode == Sync ==> s.console.closes == 0)
  {
    InvHolds(mode, states, steps, i);
    var s := states[i];
    if s.owner.OSpawnCreate? || s.owner.OSetProcess? {
      assert !Released(s.mode, s.spawned, s.owner) && OwnerStage(s.owner) == 1;
      ThreadCases(s.console.closer);
    }
  }

  lemma ClosesOnlyGrow(s: State, l: Label)
    requires Enabled(s, l)
    ensures s.console.closes <= Next(s, l).console.closes
  {
  }

  /** It is never closed again: the count only grows, and never past one. */
  lemma {:induction false} ConsoleNeverClosedAgain(mode: Mode, states: seq<State>, steps: seq<Label>, i: nat, j: nat)
    requires Run(mode, states, steps) && i <= j < |states|
    ensures states[i].console.closes <= states[j].console.closes <= 1
    decreases j
  {
    ConsoleClosedOnce(mode, states, steps, j);
    if i < j {
      ConsoleNeverClosedAgain(mode, states, steps, i, j - 1);
      assert Joined(states, steps, j - 1);
      ClosesOnlyGrow(states[j - 1], steps[j - 1]);
    }
  }

  /** Without a spawn the reader reads nothing, the watcher waits for nothing, and the drop closes the pseudoconsole. */
  lemma NeverSpawned(states: seq<State>, steps: seq<Label>, i: nat)
    requires Run(Async, states, steps) && i < |states|
    requires states[i].owner == ODone && !states[i].spawned
    ensures var s := states[i];
            && s.link.reader == RDone && s.io.sent == [] && s.io.results == []
            && s.watcher == WDone && s.childWait.None?
            && s.console.first == Some(false) && s.console.closer == Some(Owner)
            && !Deciding(s.console.cleaner) && !s.console.cleaner.CMessage?
  {
    InvHolds(Async, states, steps, i);
    var c := states[i].console;
    ThreadCases(c.closer);
    BoolCases(c.first);
  }

  // ----- Handles

  /** The reader is at an action on its stream or on the process handle. */
  predicate Touches(pc: ReaderPc) { pc.RPeek? || pc.RAlive? || pc.RIssue? || pc.RReading? }

  /** No handle is closed twice, the reader's stream not under it, and the exit event only after its users ended. */
  lemma HandlesClosedInTime(mode: Mode, states: seq<State>, steps: seq<Label>, i: nat)
    requires Run(mode, states, steps) && i < |states|
    ensures var s := states[i];
            var h := s.closed;
            && h.pipe <= 1 && h.conin <= 1 && h.conout <= 1 && h.thread <= 1 && h.process <= 1 && h.exitEvent <= 1
            && (Touches(s.link.reader) ==> h.pipe == 0 && h.conout == 0 && (mode == Sync ==> h.process == 0))
            && (h.exitEvent == 1 ==> s.link.reader == RDone && (s.watcher.WDone? || s.watcher.WAbsent?))
  {
    InvHolds(mode, states, steps, i);
  }

  /** When the owner is gone every valid handle has been closed exactly once; an overlapped PTY has one pipe. */
  lemma HandlesAllClosed(mode: Mode, states: seq<State>, steps: seq<Label>, i: nat)
    requires Run(mode, states, steps) && i < |states| && states[i].owner == ODone
    ensures var p := if states[i].spawned then 1 else 0;
            states[i].closed == if mode == Async then Closed(1, 0, 0, p, p, 1) else Closed(0, 1, 1, 0, p, 1)
  {
    InvHolds(mode, states, steps, i);
  }

  // ----- The stop of a synchronous reader

  /** The reads begun by steps `i` to `j`. */
  function ReadsBegun(states: seq<State>, steps: seq<Label>, i: nat, j: nat): (n: nat)
    requires i <= j <= |steps| && |states| == |steps| + 1
    decreases j
  {
    if i == j then 0
    else
      ReadsBegun(states, steps, i, j - 1) +
      if steps[j - 1].ReaderStep? && states[j - 1].link.reader.RIssue? then 1 else 0
  }

  /** The reader is committed to one more read. */
  function Committed(pc: ReaderPc): (n: nat) { if pc.RPeek? || pc.RAlive? || pc.RIssue? then 1 else 0 }

  lemma StopStays(s: State, l: Label)
    requires OwnerStage(s.owner) >= 12 && Enabled(s, l)
    ensures OwnerStage(Next(s, l).owner) >= 12
  {
    if l.OwnerStep? {
      OwnerStaysStopped(s.mode, s.owner, s.link, s.console);
    }
  }

  lemma OwnerStaysStopped(mode: Mode, pc: OwnerPc, k: Link, c: Console)
    requires OwnerStage(pc) >= 12
    ensures OwnerStage(OwnerPcNext(mode, pc, k, c)) >= 12
  {
  }

  lemma ReaderCommits(k: Link, o: nat)
    requires Flags(Sync, k) && Stops(Sync, k, o) && o >= 12 && ReaderEnabled(k) && k.ready
    ensures (if k.reader.RIssue? then 1 else 0) + Committed(LinkNext(Sync, k, true).reader) <= Committed(k.reader)
  {
    if k.reader.RPoll? {
      assert k.alive.queue[0] in k.alive.queue;
    }
  }

  lemma OthersCommitNothing(s: State, l: Label)
    requires Enabled(s, l) && !l.ReaderStep?
    ensures Committed(Next(s, l).link.reader) <= Committed(s.link.reader)
  {
    if l.OwnerStep? {
      OwnerCommitsNothing(s.owner, s.link);
    } else if l.WatcherStep? {
      WatcherCommitsNothing(s);
    }
  }

  lemma WatcherCommitsNothing(s: State)
    requires WatcherEnabled(s)
    ensures Committed(WatcherNext(s).link.reader) == Committed(s.link.reader)
  {
  }

  lemma OwnerCommitsNothing(pc: OwnerPc, k: Link)
    ensures Committed(OwnerLink(pc, k).reader) == Committed(k.reader)
  {
  }

  lemma StopStep(states: seq<State>, steps: seq<Label>, k: nat)
    requires Run(Sync, states, steps) && k < |steps| && OwnerStage(states[k].owner) >= 12
    ensures OwnerStage(states[k + 1].owner) >= 12
    ensures var begun := if steps[k].ReaderStep? && states[k].link.reader.RIssue? then 1 else 0;
            begun + Committed(states[k + 1].link.reader) <= Committed(states[k].link.reader)
  {
    var s, l := states[k], steps[k];
    InvHolds(Sync, states, steps, k);
    assert Joined(states, steps, k);
    StopStays(s, l);
    if l.ReaderStep? {
      ReaderOutputAlive(s);
      ReaderCommits(s.link, OwnerStage(s.owner));
    } else {
      OthersCommitNothing(s, l);
    }
  }

  /** After the drop's first stop a synchronous reader begins at most one more read, and none if it is between reads. */
  lemma {:induction false} StopBound(states: seq<State>, steps: seq<Label>, i: nat, j: nat)
    requires Run(Sync, states, steps) && i <= j <= |steps| && OwnerStage(states[i].owner) >= 12
    ensures OwnerStage(states[j].owner) >= 12
    ensures ReadsBegun(states, steps, i, j) + Committed(states[j].link.reader) <= Committed(states[i].link.reader) <= 1
    decreases j
  {
    if i < j {
      StopBound(states, steps, i, j - 1);
      StopStep(states, steps, j - 1);
    }
  }
}

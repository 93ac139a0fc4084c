/** Runs that show what can happen: output lost or spoilt, an empty item amid the output, a cleanup without a drop. */
module Witnesses {
  import opened Sequences
  import opened Unicode
  import opened ReadPath
  import opened Channels
  import opened Protocol
  import opened Contents
  import opened Safety
  import opened SynchronousEnd

  /**
   What the environment may do, in any state. Calls the reader waits in may fail or be answered truthfully,
   and a read may complete with any bytes at the front of the pipe.
   */
  lemma AnswersAreFree(s: State, bytes: seq<Byte>)
    ensures s.link.reader == RPeek ==> Enabled(s, PeekAnswer(None)) && Enabled(s, PeekAnswer(Some(|s.io.pipe|)))
    ensures s.link.reader.RAlive? ==> Enabled(s, AliveAnswer(None)) && Enabled(s, AliveAnswer(Some(!s.exited)))
    ensures s.link.reader.RReading? ==> Enabled(s, ReadAnswer(Failure))
    ensures s.link.reader == RReading(false) && 0 < |bytes| <= 32768 && bytes <= s.io.pipe ==>
            Enabled(s, ReadAnswer(Data(bytes)))
    ensures s.link.reader == RReading(false) && s.io.pipe == [] && s.io.broken ==> Enabled(s, ReadAnswer(Nothing))
  {
  }

  /** Any timed wait may time out. A wait for the child ends with it, or when its handle is closed. */
  lemma WaitsAreFree(s: State)
    ensures s.watcher == WChild && s.exited ==> Enabled(s, ChildWaitReturns(true))
    ensures s.watcher == WChild && s.closed.process > 0 ==> Enabled(s, ChildWaitReturns(false))
    ensures (s.watcher == WFirst || s.watcher == WAgain) && !s.link.exitEvent ==> Enabled(s, WatcherTimesOut)
    ensures s.owner == OWait && !s.link.exitEvent ==> Enabled(s, OwnerTimesOut)
  {
  }

  /** Bytes may arrive, the pipe may break, the child may end, and the owner may spawn, in vain or not, and drop. */
  lemma EventsAreFree(s: State, bytes: seq<Byte>)
    ensures !s.io.broken ==> Enabled(s, Feed(bytes)) && Enabled(s, Break)
    ensures s.spawned && !s.exited ==> Enabled(s, ChildExits)
    ensures s.owner == OIdle ==> Enabled(s, BeginDrop) && (!s.spawned ==> Enabled(s, BeginSpawn))
    ensures s.owner == OSpawnCreate ==> Enabled(s, SpawnFails) && Enabled(s, OwnerStep)
  {
  }

  /** A run goes on by an enabled step. */
  lemma RunOn(mode: Mode, states: seq<State>, steps: seq<Label>, l: Label)
    returns (states': seq<State>, steps': seq<Label>)
    requires Run(mode, states, steps) && Enabled(states[|steps|], l)
    ensures Run(mode, states', steps') && states'[|steps'|] == Next(states[|steps|], l)
    ensures NoCallFailed(steps, |steps|) && l != PeekAnswer(None) && l != AliveAnswer(None) ==>
            NoCallFailed(steps', |steps'|)
  {
    states', steps' := states + [Next(states[|steps|], l)], steps + [l];
    forall i | 0 <= i < |steps'| ensures Joined(states', steps', i) {
      if i < |steps| { assert Joined(states, steps, i); }
    }
  }

  /** A process was set and the reader is about to peek for the first time. */
  lemma ReachFirstPeek() returns (states: seq<State>, steps: seq<Label>)
    ensures Run(Sync, states, steps) && NoCallFailed(steps, |steps|)
    ensures var s := states[|steps|];
            s.spawned && !s.exited && s.link.reader == RPeek && s.io == Init(Sync).io
  {
    states, steps := [Init(Sync)], [];
    states, steps := RunOn(Sync, states, steps, BeginSpawn);
    states, steps := RunOn(Sync, states, steps, OwnerStep);
    states, steps := RunOn(Sync, states, steps, ReaderStep);
    states, steps := RunOn(Sync, states, steps, ReaderStep);
    states, steps := RunOn(Sync, states, steps, ReaderStep);
  }

  /** A byte arrives after the peek and before the child's end is seen: the reader says end-of-file and leaves it. */
  lemma LateByteIsLost() returns (states: seq<State>, steps: seq<Label>)
    ensures Run(Sync, states, steps) && NoCallFailed(steps, |steps|)
    ensures var s := states[|steps|]; Eof in s.io.sent && s.io.results == [] && s.io.fed == [65]
  {
    states, steps := ReachFirstPeek();
    states, steps := RunOn(Sync, states, steps, PeekAnswer(Some(0)));
    states, steps := RunOn(Sync, states, steps, Feed([65]));
    states, steps := RunOn(Sync, states, steps, ChildExits);
    states, steps := RunOn(Sync, states, steps, AliveAnswer(Some(false)));
    states, steps := RunOn(Sync, states, steps, ReaderStep);
  }

  /** A peek fails although a byte waits in the pipe and the child lives: the reader says end-of-file and leaves it. */
  lemma FailedPeekLeavesByte() returns (states: seq<State>, steps: seq<Label>)
    ensures Run(Sync, states, steps)
    ensures var s := states[|steps|];
            && Eof in s.io.sent && s.io.results == [] && !s.exited && !s.io.broken
            && s.io.fed == [65] && s.io.pipe == [65]
  {
    states, steps := ReachFirstPeek();
    states, steps := RunOn(Sync, states, steps, Feed([65]));
    states, steps := RunOn(Sync, states, steps, PeekAnswer(None));
    states, steps := RunOn(Sync, states, steps, ReaderStep);
  }

  const ANNOUNCED := Init(Async).console.(release := Channel([()], 1, true))

  /** The owner is about to announce a spawned process. */
  lemma ReachSetProcess() returns (states: seq<State>, steps: seq<Label>)
    ensures Run(Async, states, steps)
    ensures var s := states[|steps|];
            && s.mode == Async && s.spawned && !s.exited && s.watcher == WRecv && s.owner == OSendRelease
            && s.console == Init(Async).console.(lock := Some(Owner))
            && s.link == Init(Async).link.(process := Channel([Process], 1, true)) && s.io == Init(Async).io
  {
    states, steps := [Init(Async)], [];
    states, steps := RunOn(Async, states, steps, BeginSpawn);
    states, steps := RunOn(Async, states, steps, OwnerStep);
    states, steps := RunOn(Async, states, steps, OwnerStep);
    states, steps := RunOn(Async, states, steps, OwnerStep);
  }

  /** A process was spawned under the pseudoconsole. */
  lemma ReachSpawned() returns (states: seq<State>, steps: seq<Label>)
    ensures Run(Async, states, steps)
    ensures var s := states[|steps|];
            && s.mode == Async && s.spawned && !s.exited && s.watcher == WRecv && s.console == ANNOUNCED
            && s.link == Init(Async).link.(process := Channel([Process], 1, true)) && s.io == Init(Async).io
  {
    states, steps := ReachSetProcess();
    states, steps := RunOn(Async, states, steps, OwnerStep);
    states, steps := RunOn(Async, states, steps, OwnerStep);
  }

  /** The watcher waits for the child and the reader in its first read, or in a later one. */
  predicate Reading(s: State) {
    && s.mode == Async && s.spawned && !s.exited && s.watcher == WChild && s.console == ANNOUNCED
    && s.link.reader == RReading(false) && s.link.running && !s.link.exitEvent && s.io.out.receiver
  }

  lemma ReachFirstRead() returns (states: seq<State>, steps: seq<Label>)
    ensures Run(Async, states, steps)
    ensures Reading(states[|steps|]) && states[|steps|].io == Init(Async).io
  {
    states, steps := ReachSpawned();
    states, steps := RunOn(Async, states, steps, ReaderStep);
    states, steps := RunOn(Async, states, steps, ReaderStep);
    states, steps := RunOn(Async, states, steps, ReaderStep);
    states, steps := RunOn(Async, states, steps, ReaderStep);
    states, steps := RunOn(Async, states, steps, WatcherStep);
  }

  // ----- Parts of a run

  /** The pending read gets bytes, the reader sends their text and reads again. */
  lemma ReadMore(states: seq<State>, steps: seq<Label>, bytes: seq<Byte>)
    returns (states': seq<State>, steps': seq<Label>)
    requires Run(Async, states, steps) && Reading(states[|steps|])
    requires 0 < |bytes| <= BUFFER_SIZE && bytes <= states[|steps|].io.pipe
    ensures Run(Async, states', steps')
    ensures var s := states[|steps|];
            states'[|steps'|] == s.(io := IoNext(RGot(Data(bytes)), Taken(s.io, Data(bytes))))
  {
    states', steps' := RunOn(Async, states, steps, ReadAnswer(Data(bytes)));
    states', steps' := RunOn(Async, states', steps', ReaderStep);
    states', steps' := RunOn(Async, states', steps', ReaderStep);
  }

  /** The pending read gets no bytes: the reader sends its last item and clears its flag. */
  lemma ReadLast(states: seq<State>, steps: seq<Label>, a: Answer) returns (states': seq<State>, steps': seq<Label>)
    requires Run(Async, states, steps) && states[|steps|].mode == Async
    requires ReadCompletes(states[|steps|].link.reader, states[|steps|].io, a) && !a.Data?
    requires states[|steps|].io.out.receiver
    ensures Run(Async, states', steps')
    ensures var s := states[|steps|];
            states'[|steps'|] == s.(io := IoNext(RGot(a), s.io), link := s.link.(reader := RSignal, running := false))
  {
    states', steps' := RunOn(Async, states, steps, ReadAnswer(a));
    states', steps' := RunOn(Async, states', steps', ReaderStep);
    states', steps' := RunOn(Async, states', steps', ReaderStep);
  }

  /** The watcher tells the cleanup thread, and that closes the pseudoconsole. */
  lemma TellCleaner(states: seq<State>, steps: seq<Label>) returns (states': seq<State>, steps': seq<Label>)
    requires Run(Async, states, steps)
    requires states[|steps|].watcher == WSend && states[|steps|].console == ANNOUNCED
    ensures Run(Async, states', steps')
    ensures var s, t := states[|steps|], states'[|steps'|]; t.console.closer == Some(Cleaner) && t.io == s.io
  {
    states', steps' := RunOn(Async, states, steps, WatcherStep);
    states', steps' := RunOn(Async, states', steps', CleanerStep);
    states', steps' := RunOn(Async, states', steps', CleanerStep);
    states', steps' := CleanerCloses(states', steps');
  }

  lemma CleanerCloses(states: seq<State>, steps: seq<Label>) returns (states': seq<State>, steps': seq<Label>)
    requires Run(Async, states, steps)
    requires var c := states[|steps|].console; c.cleaner == CLock && c.lock.None? && c.open
    ensures Run(Async, states', steps')
    ensures var s, t := states[|steps|], states'[|steps'|]; t.console.closer == Some(Cleaner) && t.io == s.io
  {
    states', steps' := RunOn(Async, states, steps, CleanerStep);
    states', steps' := RunOn(Async, states', steps', CleanerStep);
    states', steps' := RunOn(Async, states', steps', CleanerStep);
  }

  // ----- The cleanup thread closes the pseudoconsole before any drop

  /** The pipe breaks, the reader ends of its own accord, and everything is delivered. */
  lemma CleanupCloses() returns (states: seq<State>, steps: seq<Label>)
    ensures Run(Async, states, steps)
    ensures var s := states[|steps|]; s.console.closer == Some(Cleaner) && s.io.sent == [Chunk([])]
  {
    states, steps := ReachFirstRead();
    states, steps := RunOn(Async, states, steps, Break);
    states, steps := ReadLast(states, steps, Nothing);
    states, steps := RunOn(Async, states, steps, ReaderStep);
    states, steps := ChildEnds(states, steps);
    states, steps := TellCleaner(states, steps);
  }

  lemma ChildEnds(states: seq<State>, steps: seq<Label>) returns (states': seq<State>, steps': seq<Label>)
    requires Run(Async, states, steps)
    requires var s := states[|steps|]; s.spawned && !s.exited && s.watcher == WChild && s.link.exitEvent
    ensures Run(Async, states', steps')
    ensures var s, t := states[|steps|], states'[|steps'|]; t.watcher == WSend && t.console == s.console && t.io == s.io
  {
    states', steps' := RunOn(Async, states, steps, ChildExits);
    states', steps' := RunOn(Async, states', steps', ChildWaitReturns(true));
    states', steps' := RunOn(Async, states', steps', WatcherStep);
  }

  /** The child ends, and the watcher's wait for the reader times out: it cancels the pending read. */
  lemma ReachFallbackCancel() returns (states: seq<State>, steps: seq<Label>)
    ensures Run(Async, states, steps)
    ensures var s := states[|steps|];
            && s.mode == Async && s.watcher == WAgain && s.console == ANNOUNCED
            && s.link.reader == RReading(true) && s.io == Init(Async).io
  {
    states, steps := ReachFirstRead();
    states, steps := RunOn(Async, states, steps, ChildExits);
    states, steps := RunOn(Async, states, steps, ChildWaitReturns(true));
    states, steps := RunOn(Async, states, steps, WatcherTimesOut);
    states, steps := RunOn(Async, states, steps, WatcherStep);
  }

  /** A byte arrives after the cancel: the reader ends with an error, the close follows, the byte is not delivered. */
  lemma FallbackLeavesByte() returns (states: seq<State>, steps: seq<Label>)
    ensures Run(Async, states, steps)
    ensures var s := states[|steps|];
            && s.console.closer == Some(Cleaner) && s.io.sent == [ReadError]
            && s.io.fed == [65] && s.io.pipe == [65] && Delivered(s.io.results) == []
  {
    states, steps := ReachFallbackCancel();
    states, steps := RunOn(Async, states, steps, Feed([65]));
    states, steps := ReadLast(states, steps, Failure);
    LastResult(Init(Async).io.(pipe := [65], fed := [65]), Failure);
    states, steps := WatcherSeesEnd(states, steps);
    states, steps := TellCleaner(states, steps);
  }

  lemma LastResult(io: Io, a: Answer)
    requires !a.Data? && io.results == [] && io.sent == [] && io.out.receiver
    ensures var io' := IoNext(RGot(a), io);
            io'.sent == [ItemOf(a)] && Delivered(io'.results) == [] && io'.fed == io.fed && io'.pipe == io.pipe
  {
    ResultsSnoc(io.results, a);
    assert IoNext(RGot(a), io).results == io.results + [a] && IoNext(RGot(a), io).sent == io.sent + [ItemOf(a)];
  }

  lemma WatcherSeesEnd(states: seq<State>, steps: seq<Label>) returns (states': seq<State>, steps': seq<Label>)
    requires Run(Async, states, steps)
    requires var s := states[|steps|]; s.mode == Async && s.watcher == WAgain && s.link.reader == RSignal
    ensures Run(Async, states', steps')
    ensures var s, t := states[|steps|], states'[|steps'|]; t.watcher == WSend && t.console == s.console && t.io == s.io
  {
    states', steps' := RunOn(Async, states, steps, ReaderStep);
    states', steps' := RunOn(Async, states', steps', WatcherStep);
  }

  // ----- Ends and items of an overlapped reader

  lemma DeliveredOne(bytes: seq<Byte>)
    ensures Delivered([Data(bytes)]) == bytes && Pieces([Data(bytes)]) == [bytes]
    ensures Items([Data(bytes)]) == [Chunk(Text(bytes))]
  {
    assert [Data(bytes)] == [] + [Data(bytes)];
    ResultsSnoc([], Data(bytes));
    assert [Data(bytes)][..0] == [];
    assert Pieces([Data(bytes)]) == Pieces([]) + [bytes];
  }

  /** An error ends a reader that has delivered everything: the error alone does not tell. */
  lemma ErrorAfterEverything() returns (states: seq<State>, steps: seq<Label>)
    ensures Run(Async, states, steps)
    ensures var s := states[|steps|];
            && !s.link.running && s.io.sent == [Chunk(Text([65])), ReadError]
            && s.io.fed == [65] && s.io.pipe == []
  {
    states, steps := ReachFirstRead();
    states, steps := RunOn(Async, states, steps, Feed([65]));
    states, steps := ReadMore(states, steps, [65]);
    states, steps := ReadLast(states, steps, Failure);
  }

  lemma ReachNulRead() returns (states: seq<State>, steps: seq<Label>)
    ensures Run(Async, states, steps) && Reading(states[|steps|])
    ensures states[|steps|].io.sent == [Chunk([])] && states[|steps|].io.pipe == [65]
  {
    states, steps := ReachFirstRead();
    states, steps := RunOn(Async, states, steps, Feed([0, 65]));
    states, steps := ReadMore(states, steps, [0]);
    EmptyTextIsNuls([0]);
  }

  /** A read of one NUL sends an empty chunk, and the reader goes on. */
  lemma NulReadLooksLikeEnd() returns (states: seq<State>, steps: seq<Label>)
    ensures Run(Async, states, steps)
    ensures var s := states[|steps|]; s.link.running && s.io.sent == [Chunk([]), Chunk(Text([65]))]
  {
    states, steps := ReachNulRead();
    states, steps := ReadMore(states, steps, [65]);
  }

  /** The two bytes of one character arrive in two reads, */
  lemma ReachSplit() returns (states: seq<State>, steps: seq<Label>)
    ensures Run(Async, states, steps) && Reading(states[|steps|])
    ensures var io := states[|steps|].io;
            io.fed == [0xC3, 0xA9] && io.pipe == [] && !io.broken && io.results == [Data([0xC3]), Data([0xA9])]
  {
    states, steps := ReachFirstRead();
    states, steps := RunOn(Async, states, steps, Feed([0xC3, 0xA9]));
    states, steps := ReadMore(states, steps, [0xC3]);
    states, steps := ReadMore(states, steps, [0xA9]);
  }

  /** and the stream ends. */
  lemma ReachSplitEnd() returns (states: seq<State>, steps: seq<Label>)
    ensures Run(Async, states, steps)
    ensures var s := states[|steps|];
            !s.link.running && s.io.fed == [0xC3, 0xA9] && s.io.results == [Data([0xC3]), Data([0xA9]), Nothing]
  {
    states, steps := ReachSplit();
    states, steps := RunOn(Async, states, steps, Break);
    states, steps := ReadLast(states, steps, Nothing);
  }

  lemma PiecesOfSplit()
    ensures Pieces([Data([0xC3]), Data([0xA9]), Nothing]) == [[0xC3], [0xA9]]
    ensures Items([Data([0xC3]), Data([0xA9]), Nothing])[2] == Chunk([])
  {
    var r := [Data([0xC3]), Data([0xA9])];
    DeliveredOne([0xC3]);
    assert r[..1] == [Data([0xC3])];
    assert Pieces(r) == Pieces(r[..1]) + [[0xA9]];
    assert (r + [Nothing])[..2] == r;
    assert r + [Nothing] == [Data([0xC3]), Data([0xA9]), Nothing];
    NothingAppended(Pieces(r));
    ItemAt(r + [Nothing], 2);
  }

  /** Every byte is delivered, and still the text is not theirs: the second read began inside the character. */
  lemma SplitCharacterIsSpoilt() returns (states: seq<State>, steps: seq<Label>)
    ensures Run(Async, states, steps)
    ensures var io := states[|steps|].io;
            && !states[|steps|].link.running && Delivered(io.results) == io.fed && WellFormed8(io.fed)
            && TextOfItems(io.received + io.out.queue) != Text(io.fed)
  {
    states, steps := ReachSplitEnd();
    PiecesOfSplit();
    SplitIsOffBoundary();
    OutputGrammar(Async, states, steps, |steps|);
    NaturalEndIsComplete(states, steps, |steps|);
  }

  lemma SplitIsOffBoundary()
    ensures WellFormed8([0xC3, 0xA9]) && !OnBoundaries([[0xC3], [0xA9]])
  {
    var b: seq<Byte> := [0xC3, 0xA9];
    assert StartsWell(b) && b[2..] == [];
    var pieces: seq<seq<Byte>> := [[0xC3], [0xA9]];
    assert IsContinuation(pieces[1][0]);
  }
}

/**
 How far the end of an overlapped reader is the end of the output. The reader ends with the first read that
 gets no bytes: at the end of the stream, or because that read failed, which a cancel brings about.
 */
module OverlappedEnd {
  import opened Sequences
  import opened Protocol
  import opened Invariant
  import opened Contents
  import opened Safety

  /** The results of all completed reads, the one not yet sent included. */
  function Got(v: View, io: Io): (results: seq<Answer>) {
    io.results + if v.held.Some? then [v.held.value] else []
  }

  /** The last read got no bytes. */
  predicate Over(v: View) { (v.held.Some? && !v.held.value.Data?) || (v.stage >= 3 && v.owned) }

  // ----- The last read

  /** Only a read that gets no bytes ends the reading, and after it no read completes. */
  predicate Ends(v: View, io: Io, l: Label, v': View, io': Io) {
    Over(v') ==>
      if l.ReadAnswer? then !l.answer.Data? && v.held.None? && Got(v', io') == Got(v, io) + [l.answer]
      else Over(v) && Got(v', io') == Got(v, io)
  }

  lemma ReaderEnds(k: Link, io: Io, spawned: bool, o: nat)
    requires Flags(Async, k) && Handshakes(k, spawned, o) && ReaderEnabled(k) && io.out.receiver
    ensures Ends(ViewOf(k), io, ReaderStep, ViewOf(LinkNext(Async, k, true)), IoNext(k.reader, io))
  {
    var a := if k.reader.RGot? then k.reader.answer else Nothing;
    NothingAppended(io.results);
    NothingAppended(io.results + [a]);
  }

  lemma ReaderStepEnds(s: State)
    requires Control(s) && s.mode == Async && ReaderEnabled(s.link)
    ensures var t := ReaderNext(s); Ends(ViewOf(s.link), s.io, ReaderStep, ViewOf(t.link), t.io)
  {
    ReaderOutputAlive(s);
    ReaderEnds(s.link, s.io, s.spawned, OwnerStage(s.owner));
  }

  lemma ReadAnswerEnds(s: State, a: Answer)
    requires Enabled(s, ReadAnswer(a))
    ensures var t := Next(s, ReadAnswer(a)); Ends(ViewOf(s.link), s.io, ReadAnswer(a), ViewOf(t.link), t.io)
  {
    AnsweredView(s.link, a);
    NothingAppended(s.io.results);
  }

  lemma OthersEndNothing(s: State, l: Label)
    requires Enabled(s, l) && !l.ReaderStep? && !l.ReadAnswer?
    ensures var t := Next(s, l); ViewOf(t.link) == ViewOf(s.link) && t.io.results == s.io.results
  {
    if l.OwnerStep? {
      OwnerLeavesOutput(s.owner, s.link, s.io);
    } else if Quiet(l) {
      QuietStepsLeaveOutput(s, l);
    }
  }

  predicate EndsAt(s: State, l: Label, t: State) { Ends(ViewOf(s.link), s.io, l, ViewOf(t.link), t.io) }

  lemma StepEnds(s: State, l: Label, t: State)
    requires Control(s) && s.mode == Async && Enabled(s, l) && t == Next(s, l)
    ensures EndsAt(s, l, t)
  {
    if l.ReaderStep? {
      ReaderStepEnds(s);
    } else if l.ReadAnswer? {
      ReadAnswerEnds(s, l.answer);
    } else {
      OthersEndNothing(s, l);
    }
  }

  lemma StepOfRunEnds(states: seq<State>, steps: seq<Label>, i: nat)
    requires Run(Async, states, steps) && 0 < i < |states|
    ensures EndsAt(states[i - 1], steps[i - 1], states[i])
  {
    var s, l, t := StepInRun(Async, states, steps, i);
    StepEnds(s, l, t);
  }

  /** A reader that is over at `i` got no bytes from the read that completed with step `j`, its last. */
  predicate LastReadAt(states: seq<State>, steps: seq<Label>, j: nat, i: nat)
    requires |states| == |steps| + 1 && i < |states|
  {
    Over(ViewOf(states[i].link)) ==>
      && j < i && steps[j].ReadAnswer? && !steps[j].answer.Data? && ViewOf(states[j].link).held.None?
      && Got(ViewOf(states[i].link), states[i].io) == Got(ViewOf(states[j].link), states[j].io) + [steps[j].answer]
  }

  lemma LastReadOn(states: seq<State>, steps: seq<Label>, j: nat, i: nat) returns (j': nat)
    requires |states| == |steps| + 1 && 0 < i < |states| && LastReadAt(states, steps, j, i - 1)
    requires EndsAt(states[i - 1], steps[i - 1], states[i])
    ensures LastReadAt(states, steps, j', i)
  {
    j' := if steps[i - 1].ReadAnswer? then i - 1 else j;
  }

  lemma {:induction false} LastRead(states: seq<State>, steps: seq<Label>, i: nat) returns (j: nat)
    requires Run(Async, states, steps) && i < |states|
    ensures LastReadAt(states, steps, j, i)
  {
    j := 0;
    if i > 0 {
      j := LastRead(states, steps, i - 1);
      StepOfRunEnds(states, steps, i);
      j := LastReadOn(states, steps, j, i);
    }
  }

  lemma DeliveredByLast(before: seq<Answer>, results: seq<Answer>, a: Answer)
    requires results == before + [a] && !a.Data?
    ensures Delivered(results) == Delivered(before)
  {
    ResultsSnoc(before, a);
    NothingAppended(Delivered(before));
  }

  lemma GotIsSent(v: View, io: Io)
    requires v.held.None?
    ensures Got(v, io) == io.results
  {
    NothingAppended(io.results);
  }

  /** The last read of an ended reader: its answer is the last result, and the results before it were there. */
  lemma EndedByLast(states: seq<State>, steps: seq<Label>, i: nat) returns (j: nat)
    requires Run(Async, states, steps) && i < |states| && !states[i].link.running && states[i].spawned
    ensures j < i && steps[j].ReadAnswer? && !steps[j].answer.Data? && ViewOf(states[j].link).held.None?
    ensures states[i].io.results == states[j].io.results + [steps[j].answer]
  {
    j := LastRead(states, steps, i);
    EndedView(states, steps, i);
    GotIsSent(ViewOf(states[i].link), states[i].io);
    GotIsSent(ViewOf(states[j].link), states[j].io);
  }

  lemma BytesAtLast(states: seq<State>, steps: seq<Label>, j: nat)
    requires Run(Async, states, steps) && j < |steps| && steps[j].ReadAnswer?
    requires ViewOf(states[j].link).held.None?
    ensures states[j].io.fed == Delivered(states[j].io.results) + states[j].io.pipe
    ensures steps[j] == ReadAnswer(Nothing) ==> AtEnd(states[j].io)
  {
    InvHolds(Async, states, steps, j);
    assert Joined(states, steps, j);
    DeliveredIsAll(ViewOf(states[j].link), states[j].io);
  }

  /**
   How far the end of an overlapped reader is truthful, in every run: what was in the pipe when its last read
   completed, with step `j`, and what arrived later, is not delivered. So the output is complete if and only
   if the pipe was empty then and nothing arrived after that read.
   */
  lemma EndIsCompleteUpToLastRead(states: seq<State>, steps: seq<Label>, i: nat) returns (j: nat)
    requires Run(Async, states, steps) && i < |states| && !states[i].link.running && states[i].spawned
    ensures OneTerminator(states[i].io)
    ensures j < i && steps[j] == ReadAnswer(states[i].io.results[|states[i].io.results| - 1])
    ensures states[j].io.fed == Delivered(states[i].io.results) + states[j].io.pipe
    ensures Delivered(states[i].io.results) == states[i].io.fed <==>
            states[j].io.pipe == [] && states[i].io.fed == states[j].io.fed
    ensures steps[j] == ReadAnswer(Nothing) ==> AtEnd(states[j].io)
  {
    EndedLeavesPipe(states, steps, i);
    j := EndedByLast(states, steps, i);
    BytesAtLast(states, steps, j);
    var s, t := states[j].io, states[i].io;
    DeliveredByLast(s.results, t.results, steps[j].answer);
    FedGrows(Async, states, steps, j, i);
    NoneLeftNoneArrived(Delivered(t.results), s.pipe, s.fed, t.fed);
  }

  lemma EndedView(states: seq<State>, steps: seq<Label>, i: nat)
    requires Run(Async, states, steps) && i < |states| && !states[i].link.running && states[i].spawned
    ensures Over(ViewOf(states[i].link)) && ViewOf(states[i].link).held.None?
  {
    InvHolds(Async, states, steps, i);
  }

  // ----- Ends without a cancel

  /** No read up to `i` fails but those that are cancelled. */
  predicate FailsOnlyCancelled(states: seq<State>, steps: seq<Label>, i: nat)
    requires i <= |steps| && |states| == |steps| + 1
  {
    forall k :: 0 <= k < i && steps[k] == ReadAnswer(Failure) ==> states[k].link.reader == RReading(true)
  }

  /** The watcher's wait for the reader has not timed out up to `i`. */
  predicate NoTimeout(steps: seq<Label>, i: nat)
    requires i <= |steps|
  {
    forall k :: 0 <= k < i ==> !steps[k].WatcherTimesOut?
  }

  /** The drop has not come to its first `CancelIoEx`, or not past it. */
  predicate BeforeCancel(s: State) { OwnerStage(s.owner) <= 12 }

  /** Nothing has been cancelled, and no read has failed. */
  predicate Undisturbed(s: State) {
    && s.link.reader != RReading(true) && s.watcher != WCancel && s.watcher != WAgain
    && Failure !in Got(ViewOf(s.link), s.io)
  }

  lemma CancelStays(s: State, l: Label)
    requires Enabled(s, l) && !BeforeCancel(s)
    ensures !BeforeCancel(Next(s, l))
  {
    if l.OwnerStep? {
      OwnerStaysPastCancel(s.mode, s.owner, s.link, s.console);
    }
  }

  lemma OwnerStaysPastCancel(mode: Mode, pc: OwnerPc, k: Link, c: Console)
    requires OwnerStage(pc) >= 13
    ensures OwnerStage(OwnerPcNext(mode, pc, k, c)) >= 13
  {
  }

  lemma ReaderCancelsNothing(mode: Mode, k: Link)
    requires ReaderEnabled(k)
    ensures LinkNext(mode, k, true).reader != RReading(true)
  {
  }

  /** The results got by a reader's own step are those it had. */
  lemma ReaderGetsNothing(k: Link, io: Io)
    requires ReaderEnabled(k) && io.out.receiver
    ensures Got(ViewOf(LinkNext(Async, k, true)), IoNext(k.reader, io)) == Got(ViewOf(k), io)
  {
    var a := if k.reader.RGot? then k.reader.answer else Nothing;
    NothingAppended(io.results);
    NothingAppended(io.results + [a]);
  }

  lemma ReaderStepUndisturbed(s: State)
    requires s.mode == Async && ReaderEnabled(s.link) && s.io.out.receiver && Undisturbed(s)
    ensures Undisturbed(ReaderNext(s))
  {
    ReaderCancelsNothing(s.mode, s.link);
    ReaderGetsNothing(s.link, s.io);
  }

  lemma OwnerCancelsNothing(mode: Mode, pc: OwnerPc, k: Link, c: Console)
    requires OwnerStage(OwnerPcNext(mode, pc, k, c)) <= 12
    ensures OwnerLink(pc, k).reader == k.reader
  {
  }

  lemma WatcherCancelsNothing(s: State)
    requires WatcherEnabled(s) && s.watcher != WCancel && s.watcher != WAgain
    ensures var t := WatcherNext(s); t.link.reader == s.link.reader && t.watcher != WCancel && t.watcher != WAgain
  {
  }

  lemma OthersUndisturbed(s: State, l: Label)
    requires Enabled(s, l) && Undisturbed(s) && BeforeCancel(Next(s, l))
    requires !l.ReaderStep? && !l.ReadAnswer? && !l.WatcherTimesOut?
    ensures Undisturbed(Next(s, l))
  {
    OthersEndNothing(s, l);
    if l.OwnerStep? {
      OwnerCancelsNothing(s.mode, s.owner, s.link, s.console);
    } else if l.WatcherStep? {
      WatcherCancelsNothing(s);
    }
  }

  lemma ReadAnswerUndisturbed(s: State, a: Answer)
    requires Enabled(s, ReadAnswer(a)) && Undisturbed(s) && a != Failure
    ensures Undisturbed(Next(s, ReadAnswer(a)))
  {
    AnsweredView(s.link, a);
    NothingAppended(s.io.results);
  }

  predicate Heard(s: State) { s.mode == Async && (s.link.reader != RDone ==> s.io.out.receiver) }

  lemma HeardInRun(states: seq<State>, steps: seq<Label>, i: nat)
    requires Run(Async, states, steps) && i < |states|
    ensures Heard(states[i])
  {
    InvHolds(Async, states, steps, i);
  }

  lemma StepUndisturbed(s: State, l: Label, t: State)
    requires Heard(s) && Enabled(s, l) && t == Next(s, l) && Undisturbed(s) && BeforeCancel(t)
    requires !l.WatcherTimesOut? && l != ReadAnswer(Failure)
    ensures Undisturbed(t)
  {
    if l.ReaderStep? {
      ReaderStepUndisturbed(s);
    } else if l.ReadAnswer? {
      ReadAnswerUndisturbed(s, l.answer);
    } else {
      OthersUndisturbed(s, l);
    }
  }

  lemma StepOfRunUndisturbed(states: seq<State>, steps: seq<Label>, i: nat)
    requires Run(Async, states, steps) && 0 < i < |states| && Undisturbed(states[i - 1]) && BeforeCancel(states[i])
    requires !steps[i - 1].WatcherTimesOut? && steps[i - 1] != ReadAnswer(Failure)
    ensures Undisturbed(states[i])
  {
    HeardInRun(states, steps, i - 1);
    assert Joined(states, steps, i - 1);
    StepUndisturbed(states[i - 1], steps[i - 1], states[i]);
  }

  /** The step before `i` is none that disturbs. */
  lemma NoDisturbance(states: seq<State>, steps: seq<Label>, i: nat)
    requires 0 < i < |states| && |states| == |steps| + 1 && Undisturbed(states[i - 1])
    requires FailsOnlyCancelled(states, steps, i) && NoTimeout(steps, i)
    ensures !steps[i - 1].WatcherTimesOut? && steps[i - 1] != ReadAnswer(Failure)
  {
  }

  lemma CancelIsLater(states: seq<State>, steps: seq<Label>, i: nat)
    requires Run(Async, states, steps) && 0 < i < |states| && BeforeCancel(states[i])
    ensures BeforeCancel(states[i - 1])
  {
    assert Joined(states, steps, i - 1);
    if !BeforeCancel(states[i - 1]) {
      CancelStays(states[i - 1], steps[i - 1]);
    }
  }

  lemma StartsUndisturbed(states: seq<State>, steps: seq<Label>)
    requires Run(Async, states, steps)
    ensures Undisturbed(states[0])
  {
  }

  lemma {:induction false} StaysUndisturbed(states: seq<State>, steps: seq<Label>, i: nat)
    requires Run(Async, states, steps) && i < |states| && BeforeCancel(states[i])
    requires FailsOnlyCancelled(states, steps, i) && NoTimeout(steps, i)
    ensures Undisturbed(states[i])
  {
    if i == 0 {
      StartsUndisturbed(states, steps);
    } else {
      CancelIsLater(states, steps, i);
      StaysUndisturbed(states, steps, i - 1);
      NoDisturbance(states, steps, i);
      StepOfRunUndisturbed(states, steps, i);
    }
  }

  lemma EndWithoutFailure(io: Io)
    requires OneTerminator(io) && Failure !in io.results
    ensures io.sent[|io.sent| - 1] == Chunk([])
  {
    var last := |io.results| - 1;
    ItemAt(io.results, last);
    assert io.results[last] in io.results;
  }

  /**
   The end of a reader that nobody cancelled is the end of the output: as long as the watcher's wait has not
   timed out, the drop has not cancelled, and reads fail only when cancelled, an ended reader has delivered
   everything ever put in the pipe.
   */
  lemma UndisturbedEndIsComplete(states: seq<State>, steps: seq<Label>, i: nat)
    requires Run(Async, states, steps) && i < |states| && !states[i].link.running && states[i].spawned
    requires FailsOnlyCancelled(states, steps, i) && NoTimeout(steps, i) && BeforeCancel(states[i])
    ensures Delivered(states[i].io.results) == states[i].io.fed && AtEnd(states[i].io)
    ensures OneTerminator(states[i].io) && states[i].io.sent[|states[i].io.sent| - 1] == Chunk([])
  {
    StaysUndisturbed(states, steps, i);
    EndedLeavesPipe(states, steps, i);
    EndedView(states, steps, i);
    NothingAppended(states[i].io.results);
    EndWithoutFailure(states[i].io);
  }

  /** Then the close by the cleanup thread truncates nothing. */
  lemma UndisturbedCleanupTruncatesNothing(states: seq<State>, steps: seq<Label>, i: nat)
    requires Run(Async, states, steps) && i < |states| && states[i].console.closer == Some(Cleaner)
    requires FailsOnlyCancelled(states, steps, i) && NoTimeout(steps, i) && BeforeCancel(states[i])
    ensures states[i].exited && Delivered(states[i].io.results) == states[i].io.fed && AtEnd(states[i].io)
  {
    CleanupWaitsForReader(Async, states, steps, i);
    CleanerActsOnSpawn(states, steps, i);
    UndisturbedEndIsComplete(states, steps, i);
  }

  lemma CleanerActsOnSpawn(states: seq<State>, steps: seq<Label>, i: nat)
    requires Run(Async, states, steps) && i < |states| && states[i].console.closer == Some(Cleaner)
    ensures states[i].spawned
  {
    InvHolds(Async, states, steps, i);
  }
}

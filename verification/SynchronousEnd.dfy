/**
 How a synchronous reader ends on its own: the free function `is_eof` peeks at the pipe, then asks whether
 the child is alive, and takes a failure of either call for the end. The two looks are not one, so bytes that
 arrive after the peek are left in the pipe, and so are bytes that a failed call has not seen.
 */
module SynchronousEnd {
  import opened Sequences
  import opened Protocol
  import opened Invariant
  import opened Contents
  import opened Safety
  import EofProbe

  /** The reader is between a peek and its verdict, or past a verdict of end-of-file. */
  predicate Concluding(s: State) { s.link.reader.RAlive? || Concluded(s) }

  predicate Concluded(s: State) { s.link.reader == RSendEof || Eof in s.io.sent }

  lemma ReaderAfterEof(s: State)
    requires Inv(s) && s.mode == Sync && Eof in s.io.sent
    ensures ReaderStage(s.link.reader) >= 3
  {
    ItemsAreNotEof(s.io.results);
  }

  /** What a step may do to a synchronous reader's conclusion. */
  predicate Concludes(s: State, l: Label, t: State) {
    && (Concluding(t) ==> t.io.results == s.io.results && (l.PeekAnswer? || Concluding(s)))
    && (t.link.reader.RAlive? ==> l == PeekAnswer(Some(t.link.reader.total)) || t.link.reader == s.link.reader)
    && (l.PeekAnswer? ==> !Concluding(s))
    && (Concluded(t) ==> Concluded(s) || l == PeekAnswer(None) || AnswersEof(s, l))
  }

  predicate AnswersEof(s: State, l: Label) {
    s.link.reader.RAlive? && l.AliveAnswer? && EofAnswer(Some(s.link.reader.total), l.alive)
  }

  /** The reader's own actions begin no conclusion, and change nothing that was delivered once one has begun. */
  lemma ReaderConcludes(mode: Mode, k: Link, io: Io)
    requires mode == Sync && ReaderEnabled(k) && (Eof in io.sent ==> ReaderStage(k.reader) >= 3)
    ensures var pc' := LinkNext(mode, k, io.out.receiver).reader;
            var sent' := IoNext(k.reader, io).sent;
            && !pc'.RAlive? && pc' != RSendEof
            && (Eof in sent' ==> k.reader == RSendEof || Eof in io.sent)
    ensures k.reader == RSendEof || Eof in io.sent ==> IoNext(k.reader, io).results == io.results
  {
  }

  lemma ReaderKeepsConclusion(s: State)
    requires Inv(s) && s.mode == Sync && ReaderEnabled(s.link)
    ensures Concludes(s, ReaderStep, ReaderNext(s))
  {
    if Eof in s.io.sent { ReaderAfterEof(s); }
    ReaderConcludes(s.mode, s.link, s.io);
  }

  /** Nor do the actions of others and the events outside. */
  lemma OthersConcludeNothing(s: State, l: Label)
    requires Enabled(s, l) && !l.ReaderStep? && !l.PeekAnswer? && !l.AliveAnswer?
    ensures Concludes(s, l, Next(s, l))
  {
    if l.OwnerStep? {
      OwnerConcludesNothing(s.owner, s.link, s.io);
    } else if l.WatcherStep? {
      WatcherConcludesNothing(s);
    }
  }

  lemma OwnerConcludesNothing(pc: OwnerPc, k: Link, io: Io)
    ensures OwnerIo(pc, io).results == io.results && OwnerIo(pc, io).sent == io.sent
    ensures OwnerLink(pc, k).reader == k.reader || (OwnerLink(pc, k).reader.RReading? && k.reader.RReading?)
  {
  }

  lemma WatcherConcludesNothing(s: State)
    requires WatcherEnabled(s)
    ensures var t := WatcherNext(s);
            t.io == s.io && (t.link.reader == s.link.reader || (t.link.reader.RReading? && s.link.reader.RReading?))
  {
  }

  lemma QueriesConclude(s: State, l: Label)
    requires Inv(s) && s.mode == Sync && Enabled(s, l) && (l.PeekAnswer? || l.AliveAnswer?)
    ensures Concludes(s, l, Next(s, l))
  {
    if Eof in s.io.sent { ReaderAfterEof(s); }
    assert Eof !in s.io.sent;
    QueryConcludes(s, l);
  }

  lemma QueryConcludes(s: State, l: Label)
    requires Enabled(s, l) && (l.PeekAnswer? || l.AliveAnswer?) && Eof !in s.io.sent
    ensures Concludes(s, l, Next(s, l))
  {
  }

  /**
   How the two queries decide, for every answer: end-of-file if either fails, or if the child has ended and
   the peek saw nothing; otherwise the reader goes on, to its query and to its next read.
   */
  lemma QueriesDecide(s: State, l: Label)
    requires Enabled(s, l) && (l.PeekAnswer? || l.AliveAnswer?)
    ensures var pc, pc' := s.link.reader, Next(s, l).link.reader;
            && (l == PeekAnswer(None) ==> pc' == RSendEof)
            && (l.PeekAnswer? && l != PeekAnswer(None) ==> pc' == RAlive(|s.io.pipe|))
            && (l == AliveAnswer(None) ==> pc' == RSendEof)
            && (l == AliveAnswer(Some(true)) ==> pc' == RIssue)
            && (l == AliveAnswer(Some(false)) ==> pc' == if pc == RAlive(0) then RSendEof else RIssue)
  {
    if l.AliveAnswer? { BoolCases(l.alive); }
  }

  /**
   Only a peek begins a conclusion, and nothing is delivered during one; a verdict of end-of-file is a failed
   peek, a failed query, or an ended child after a peek that saw nothing.
   */
  lemma StepConcludes(s: State, l: Label)
    requires Inv(s) && s.mode == Sync && Enabled(s, l)
    ensures Concludes(s, l, Next(s, l))
  {
    if l.ReaderStep? {
      ReaderKeepsConclusion(s);
    } else if l.PeekAnswer? || l.AliveAnswer? {
      QueriesConclude(s, l);
    } else {
      OthersConcludeNothing(s, l);
    }
  }

  lemma StepOfRunConcludes(states: seq<State>, steps: seq<Label>, i: nat)
    requires Run(Sync, states, steps) && 0 < i < |states|
    ensures Concludes(states[i - 1], steps[i - 1], states[i])
  {
    InvHolds(Sync, states, steps, i - 1);
    assert Joined(states, steps, i - 1);
    StepConcludes(states[i - 1], steps[i - 1]);
  }

  /** The verdict of `is_eof` was end-of-file: its peek is step `j`, its query, if it came to that, step `k`. */
  predicate Verdict(steps: seq<Label>, j: nat, k: nat, i: nat)
    requires i <= |steps| && j < i && steps[j].PeekAnswer?
  {
    || steps[j] == PeekAnswer(None)
    || (j < k < i && steps[k] == AliveAnswer(None))
    || (j < k < i && steps[k] == AliveAnswer(Some(false)) && steps[j] == PeekAnswer(Some(0)))
  }

  /** A reader that is concluding at `i` has last peeked at `j`, and read nothing since. */
  predicate PeekedAt(states: seq<State>, steps: seq<Label>, j: nat, k: nat, i: nat)
    requires |states| == |steps| + 1 && i < |states|
  {
    Concluding(states[i]) ==>
      && j < i && steps[j].PeekAnswer? && states[i].io.results == states[j].io.results
      && (states[i].link.reader.RAlive? ==> steps[j].total == Some(states[i].link.reader.total))
      && (Concluded(states[i]) ==> Verdict(steps, j, k, i))
  }

  lemma PeekedOn(states: seq<State>, steps: seq<Label>, j: nat, k: nat, i: nat) returns (j': nat, k': nat)
    requires |states| == |steps| + 1 && 0 < i < |states| && PeekedAt(states, steps, j, k, i - 1)
    requires Concludes(states[i - 1], steps[i - 1], states[i])
    ensures PeekedAt(states, steps, j', k', i)
  {
    if steps[i - 1].AliveAnswer? { BoolCases(steps[i - 1].alive); }
    j' := if steps[i - 1].PeekAnswer? then i - 1 else j;
    k' := if steps[i - 1].AliveAnswer? && !Concluded(states[i - 1]) then i - 1 else k;
  }

  /** In every run, a reader that concludes has last peeked at some step, and read nothing since. */
  lemma {:induction false} LastPeek(states: seq<State>, steps: seq<Label>, i: nat) returns (j: nat, k: nat)
    requires Run(Sync, states, steps) && i < |states|
    ensures PeekedAt(states, steps, j, k, i)
  {
    j, k := 0, 0;
    if i > 0 {
      j, k := LastPeek(states, steps, i - 1);
      StepOfRunConcludes(states, steps, i);
      j, k := PeekedOn(states, steps, j, k, i);
    }
  }

  /** What the reader had left in the pipe when it peeked. */
  lemma PeekLeavesPipe(s: State)
    requires Inv(s) && s.link.reader == RPeek
    ensures s.io.fed == Delivered(s.io.results) + s.io.pipe
  {
    NothingAppended(Delivered(s.io.results));
  }

  /**
   How far the end-of-file of a synchronous reader is truthful, in every run: what was in the pipe at the last
   peek, step `j`, and what arrived later, is not delivered. So the output is complete if and only if that
   peek was at an empty pipe and nothing arrived after it.
   */
  lemma EofIsCompleteUpToPeek(states: seq<State>, steps: seq<Label>, i: nat) returns (j: nat, k: nat)
    requires Run(Sync, states, steps) && i < |states| && Eof in states[i].io.sent
    ensures j < i && steps[j].PeekAnswer? && Verdict(steps, j, k, i)
    ensures states[j].io.fed == Delivered(states[i].io.results) + states[j].io.pipe
    ensures Delivered(states[i].io.results) == states[i].io.fed <==>
            states[j].io.pipe == [] && states[i].io.fed == states[j].io.fed
  {
    j, k := LastPeek(states, steps, i);
    InvHolds(Sync, states, steps, j);
    assert Joined(states, steps, j);
    PeekLeavesPipe(states[j]);
    FedGrows(Sync, states, steps, j, i);
    NoneLeftNoneArrived(Delivered(states[i].io.results), states[j].io.pipe, states[j].io.fed, states[i].io.fed);
  }

  // ----- What ends a synchronous reader

  /** A reader that has left its loop has said end-of-file or was sent a stop. */
  predicate EndsForCause(s: State) {
    ReaderStage(s.link.reader) >= 3 && s.spawned ==> Eof in s.io.sent || OwnerStage(s.owner) >= 12
  }

  lemma ReaderEndsForCause(k: Link, io: Io, spawned: bool, o: nat)
    requires Flags(Sync, k) && Handshakes(k, spawned, o) && Stops(Sync, k, o) && ReaderEnabled(k) && io.out.receiver
    requires spawned && ReaderStage(k.reader) <= 2 && ReaderStage(LinkNext(Sync, k, true).reader) >= 3
    ensures Eof in IoNext(k.reader, io).sent || o >= 12
  {
    if k.reader == RSendEof {
      assert IoNext(k.reader, io).sent == io.sent + [Eof];
    }
  }

  lemma ReaderKeepsSent(pc: ReaderPc, io: Io)
    ensures Eof in io.sent ==> Eof in IoNext(pc, io).sent
  {
  }

  lemma ReaderStepHasCause(s: State)
    requires Inv(s) && s.mode == Sync && ReaderEnabled(s.link) && EndsForCause(s)
    ensures EndsForCause(ReaderNext(s))
  {
    ReaderOutputAlive(s);
    ReaderKeepsSent(s.link.reader, s.io);
    if s.spawned && ReaderStage(s.link.reader) <= 2 && ReaderStage(ReaderNext(s).link.reader) >= 3 {
      ReaderEndsForCause(s.link, s.io, s.spawned, OwnerStage(s.owner));
    }
  }

  lemma SpawnFindsReaderWaiting(s: State)
    requires Inv(s) && s.owner == OSetProcess
    ensures s.link.reader == RHandshake
  {
  }

  lemma OwnerStepHasCause(s: State)
    requires Inv(s) && s.mode == Sync && OwnerEnabled(s) && EndsForCause(s)
    ensures EndsForCause(OwnerNext(s))
  {
    OwnerLeavesOutput(s.owner, s.link, s.io);
    if s.owner == OSetProcess { SpawnFindsReaderWaiting(s); }
    if OwnerStage(s.owner) >= 12 { OwnerStaysStopped(s.mode, s.owner, s.link, s.console); }
  }

  lemma StepHasCause(s: State, l: Label)
    requires Inv(s) && s.mode == Sync && Enabled(s, l) && EndsForCause(s)
    ensures EndsForCause(Next(s, l))
  {
    match l
    case ReaderStep => ReaderStepHasCause(s);
    case OwnerStep => OwnerStepHasCause(s);
    case WatcherStep => WatcherConcludesNothing(s);
    case _ =>
  }

  lemma StepOfRunHasCause(states: seq<State>, steps: seq<Label>, i: nat)
    requires Run(Sync, states, steps) && 0 < i < |states| && EndsForCause(states[i - 1])
    ensures EndsForCause(states[i])
  {
    InvHolds(Sync, states, steps, i - 1);
    assert Joined(states, steps, i - 1);
    StepHasCause(states[i - 1], steps[i - 1]);
  }

  /**
   A synchronous reader goes on through errors and empty reads: in every run, one that has ended has said
   end-of-file or was sent a stop.
   */
  lemma {:induction false} ReaderEndsOnlyForCause(states: seq<State>, steps: seq<Label>, i: nat)
    requires Run(Sync, states, steps) && i < |states|
    ensures ReaderStage(states[i].link.reader) >= 3 && states[i].spawned ==>
            Eof in states[i].io.sent || OwnerStage(states[i].owner) >= 12
  {
    if i > 0 {
      ReaderEndsOnlyForCause(states, steps, i - 1);
      StepOfRunHasCause(states, steps, i);
    }
  }

  // ----- Runs without a failed query

  /** No call of `is_eof` up to `i` failed. */
  predicate NoCallFailed(steps: seq<Label>, i: nat)
    requires i <= |steps|
  {
    forall k :: 0 <= k < i ==> steps[k] != PeekAnswer(None) && steps[k] != AliveAnswer(None)
  }

  /**
   If no call of `is_eof` failed, an end-of-file means that the child has ended and that the last peek was at
   an empty pipe: the output is complete if and only if nothing arrived after it.
   */
  lemma EofOfSuccessfulCalls(states: seq<State>, steps: seq<Label>, i: nat) returns (j: nat)
    requires Run(Sync, states, steps) && i < |states| && Eof in states[i].io.sent && NoCallFailed(steps, i)
    ensures states[i].exited && j < i && steps[j] == PeekAnswer(Some(0)) && states[j].io.pipe == []
    ensures Delivered(states[i].io.results) == states[j].io.fed
    ensures Delivered(states[i].io.results) == states[i].io.fed <==> states[i].io.fed == states[j].io.fed
  {
    var k;
    j, k := EofIsCompleteUpToPeek(states, steps, i);
    assert Joined(states, steps, j) && Joined(states, steps, k);
    EofProbe.ExitedStays(Sync, states, steps, k, i);
    NothingAppended(Delivered(states[i].io.results));
  }
}

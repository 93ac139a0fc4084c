/**
 `PTYProcess::is_eof` takes four looks at a running system: a peek at the pipe, the state of the process,
 the emptiness of the output queue, and the reader's flag. Other threads act in between, so a call is a
 choice of four moments of a run, in order.
 */
module EofProbe {
  import opened Sequences
  import opened Protocol
  import opened Invariant
  import opened Contents

  /**
   Whether the two foreign calls succeeded, and the moments of the four looks. A peek may fail for any
   reason; the query for the process tells the truth if it succeeds.
   */
  datatype Probe = Probe(peeked: bool, queried: bool, peekedAt: nat, aliveAt: nat, emptyAt: nat, flagAt: nat)

  /** The looks are in order, a peek at a drained broken pipe fails, and a query needs a process. */
  predicate InRun(p: Probe, states: seq<State>) {
    && p.peekedAt <= p.aliveAt <= p.emptyAt <= p.flagAt < |states|
    && (AtEnd(states[p.peekedAt].io) ==> !p.peeked)
    && (p.queried ==> states[p.aliveAt].spawned)
  }

  datatype Verdict = Says(eof: bool) | Errs

  /** What the call returns. */
  function IsEof(p: Probe, states: seq<State>): (v: Verdict)
    requires InRun(p, states)
  {
    if !p.queried then Errs
    else
      var isAlive := !states[p.aliveAt].exited || states[p.emptyAt].io.out.queue != [];
      var succ := p.peeked || isAlive || states[p.flagAt].link.running;
      Says(!succ)
  }

  /**
   The verdict, for every call: an error exactly if the query for the process fails, as it does before a
   spawn; true exactly if the query succeeds, the peek failed, the child had ended when it was queried, the
   queue was empty at the third look and the flag clear at the fourth.
   */
  lemma VerdictIsExact(states: seq<State>, p: Probe)
    requires InRun(p, states)
    ensures IsEof(p, states) == Errs <==> !p.queried
    ensures !states[p.aliveAt].spawned ==> IsEof(p, states) == Errs
    ensures IsEof(p, states) == Says(true) <==>
            && p.queried && !p.peeked && states[p.aliveAt].exited
            && states[p.emptyAt].io.out.queue == [] && !states[p.flagAt].link.running
    ensures IsEof(p, states) == Says(false) <==>
            p.queried &&
            (p.peeked || !states[p.aliveAt].exited ||
             states[p.emptyAt].io.out.queue != [] || states[p.flagAt].link.running)
  {
  }

  /** As long as nothing was spawned, and that may be for a whole run, every call errs. */
  lemma ErrsWithoutSpawn(mode: Mode, states: seq<State>, steps: seq<Label>, p: Probe, j: nat)
    requires Run(mode, states, steps) && InRun(p, states) && p.aliveAt <= j < |states| && !states[j].spawned
    ensures IsEof(p, states) == Errs
  {
    SpawnedStays(mode, states, steps, p.aliveAt, j);
  }

  lemma SpawnStays(s: State, l: Label)
    requires Enabled(s, l) && s.spawned
    ensures Next(s, l).spawned
  {
  }

  lemma {:induction false} SpawnedStays(mode: Mode, states: seq<State>, steps: seq<Label>, i: nat, j: nat)
    requires Run(mode, states, steps) && i <= j < |states|
    ensures states[i].spawned ==> states[j].spawned
    decreases j
  {
    if i < j {
      SpawnedStays(mode, states, steps, i, j - 1);
      assert Joined(states, steps, j - 1);
      if states[j - 1].spawned {
        SpawnStays(states[j - 1], steps[j - 1]);
      }
    }
  }

  // ----- After the reader's final store

  lemma ReaderIsDone(mode: Mode, k: Link, io: Io)
    requires Flags(mode, k) && !k.running && ReaderEnabled(k)
    ensures !LinkNext(mode, k, io.out.receiver).running && IoNext(k.reader, io).sent == io.sent
  {
  }

  lemma OwnerSendsNothing(s: State)
    requires OwnerEnabled(s)
    ensures OwnerNext(s).link.running == s.link.running && OwnerNext(s).io.sent == s.io.sent
  {
  }

  lemma OthersSendNothing(s: State, l: Label)
    requires Enabled(s, l) && !l.ReaderStep?
    ensures Next(s, l).link.running == s.link.running && Next(s, l).io.sent == s.io.sent
  {
    if l.OwnerStep? { OwnerSendsNothing(s); }
  }

  lemma FinalStep(s: State, l: Label)
    requires Control(s) && !s.link.running && Enabled(s, l)
    ensures !Next(s, l).link.running && Next(s, l).io.sent == s.io.sent
  {
    if l.ReaderStep? {
      ReaderIsDone(s.mode, s.link, s.io);
    } else {
      OthersSendNothing(s, l);
    }
  }

  lemma FinalStepOfRun(mode: Mode, states: seq<State>, steps: seq<Label>, k: nat)
    requires Run(mode, states, steps) && k < |steps| && !states[k].link.running
    ensures !states[k + 1].link.running && states[k + 1].io.sent == states[k].io.sent
  {
    InvHolds(mode, states, steps, k);
    assert Joined(states, steps, k);
    FinalStep(states[k], steps[k]);
  }

  /** Nothing is sent after the reader has stored `false` in its flag. */
  lemma {:induction false} NothingSentAfterFinalStore(mode: Mode, states: seq<State>, steps: seq<Label>, i: nat, j: nat)
    requires Run(mode, states, steps) && i <= j < |states| && !states[i].link.running
    ensures !states[j].link.running && states[j].io.sent == states[i].io.sent
    decreases j
  {
    if i < j {
      NothingSentAfterFinalStore(mode, states, steps, i, j - 1);
      FinalStepOfRun(mode, states, steps, j - 1);
    }
  }

  lemma ReceivedOnlyGrows(s: State, l: Label)
    requires Enabled(s, l)
    ensures |s.io.received| <= |Next(s, l).io.received|
  {
    if l.ReaderStep? {
      assert IoNext(s.link.reader, s.io).received == s.io.received;
    } else if l.OwnerStep? {
      assert OwnerIo(s.owner, s.io).received == s.io.received;
    }
  }

  lemma {:induction false} ReceivedGrows(mode: Mode, states: seq<State>, steps: seq<Label>, i: nat, j: nat)
    requires Run(mode, states, steps) && i <= j < |states|
    ensures |states[i].io.received| <= |states[j].io.received|
    decreases j
  {
    if i < j {
      ReceivedGrows(mode, states, steps, i, j - 1);
      assert Joined(states, steps, j - 1);
      ReceivedOnlyGrows(states[j - 1], steps[j - 1]);
    }
  }

  /** The items of the queue at `j` are the last of those sent, and more than `n` had been sent before each of them. */
  predicate QueuedAfter(n: nat, io: Io) {
    && |io.out.queue| <= |io.sent| && io.out.queue == io.sent[|io.sent| - |io.out.queue|..]
    && |io.sent| - |io.out.queue| >= n
  }

  lemma {:induction false} QueueAfterEmptiness(mode: Mode, states: seq<State>, steps: seq<Label>, e: nat, j: nat)
    requires Run(mode, states, steps) && e <= j < |states| && states[e].io.out.queue == []
    ensures QueuedAfter(|states[e].io.sent|, states[j].io)
  {
    InvHolds(mode, states, steps, e);
    InvHolds(mode, states, steps, j);
    ReceivedGrows(mode, states, steps, e, j);
    NothingAppended(states[e].io.received);
  }

  /**
   A true answer is final: the reader has passed its last store, sends nothing more, and whatever is still
   queued, now or later, was sent after the call had found the queue empty.
   */
  lemma TrueIsFinal(mode: Mode, states: seq<State>, steps: seq<Label>, p: Probe, j: nat)
    requires Run(mode, states, steps) && InRun(p, states) && IsEof(p, states) == Says(true) && p.flagAt <= j < |states|
    ensures states[j].exited && !states[j].link.running
    ensures states[j].io.sent == states[p.flagAt].io.sent
    ensures QueuedAfter(|states[p.emptyAt].io.sent|, states[j].io)
  {
    ExitedStays(mode, states, steps, p.aliveAt, j);
    NothingSentAfterFinalStore(mode, states, steps, p.flagAt, j);
    QueueAfterEmptiness(mode, states, steps, p.emptyAt, j);
  }

  lemma EmptyStaysEmpty(mode: Mode, states: seq<State>, steps: seq<Label>, e: nat, j: nat)
    requires Run(mode, states, steps) && e <= j < |states|
    requires states[e].io.out.queue == [] && !states[e].link.running
    ensures states[j].io.out.queue == []
  {
    QueueAfterEmptiness(mode, states, steps, e, j);
    NothingSentAfterFinalStore(mode, states, steps, e, j);
  }

  // ----- What does not change back

  lemma ExitAndEndStay(s: State, l: Label)
    requires Enabled(s, l)
    ensures s.exited ==> Next(s, l).exited
    ensures AtEnd(s.io) && !l.ReadAnswer? ==> AtEnd(Next(s, l).io)
  {
    if l.ReaderStep? {
      ReaderLeavesPipe(s.link.reader, s.io);
    }
  }

  lemma ReaderLeavesPipe(pc: ReaderPc, io: Io)
    ensures IoNext(pc, io).pipe == io.pipe && IoNext(pc, io).broken == io.broken
  {
  }

  lemma NothingToRead(s: State, a: Answer)
    requires Enabled(s, ReadAnswer(a)) && AtEnd(s.io)
    ensures AtEnd(Next(s, ReadAnswer(a)).io) && Next(s, ReadAnswer(a)).exited == s.exited
  {
  }

  lemma StepStays(states: seq<State>, steps: seq<Label>, k: nat)
    requires k < |steps| && |states| == |steps| + 1 && Joined(states, steps, k)
    ensures states[k].exited ==> states[k + 1].exited
    ensures AtEnd(states[k].io) ==> AtEnd(states[k + 1].io)
  {
    ExitAndEndStay(states[k], steps[k]);
    if steps[k].ReadAnswer? && AtEnd(states[k].io) {
      NothingToRead(states[k], steps[k].answer);
    }
  }

  /** An ended child stays ended. */
  lemma {:induction false} ExitedStays(mode: Mode, states: seq<State>, steps: seq<Label>, i: nat, j: nat)
    requires Run(mode, states, steps) && i <= j < |states| && states[i].exited
    ensures states[j].exited
    decreases j
  {
    if i < j {
      ExitedStays(mode, states, steps, i, j - 1);
      assert Joined(states, steps, j - 1);
      StepStays(states, steps, j - 1);
    }
  }

  /** A drained broken pipe stays one. */
  lemma {:induction false} AtEndStays(mode: Mode, states: seq<State>, steps: seq<Label>, i: nat, j: nat)
    requires Run(mode, states, steps) && i <= j < |states| && AtEnd(states[i].io)
    ensures AtEnd(states[j].io)
    decreases j
  {
    if i < j {
      AtEndStays(mode, states, steps, i, j - 1);
      assert Joined(states, steps, j - 1);
      StepStays(states, steps, j - 1);
    }
  }

  // ----- Calls after the reader's final store

  /** A call that starts after the final store, with the child ended, answers by its peek and the queue alone. */
  lemma LateCallIsExact(mode: Mode, states: seq<State>, steps: seq<Label>, p: Probe)
    requires Run(mode, states, steps) && InRun(p, states) && !states[p.peekedAt].link.running
    requires p.queried && states[p.aliveAt].exited
    ensures IsEof(p, states) == Says(!p.peeked && states[p.emptyAt].io.out.queue == [])
    ensures AtEnd(states[p.peekedAt].io) ==> IsEof(p, states) == Says(states[p.emptyAt].io.out.queue == [])
    ensures IsEof(p, states) == Says(true) ==> forall j :: p.emptyAt <= j < |states| ==> states[j].io.out.queue == []
  {
    NothingSentAfterFinalStore(mode, states, steps, p.peekedAt, p.emptyAt);
    NothingSentAfterFinalStore(mode, states, steps, p.peekedAt, p.flagAt);
    if IsEof(p, states) == Says(true) {
      forall j | p.emptyAt <= j < |states| ensures states[j].io.out.queue == [] {
        EmptyStaysEmpty(mode, states, steps, p.emptyAt, j);
      }
    }
  }

  /**
   Once a call has said true with the queue empty, every later call that does not err says what its peek says,
   and so true from the moment on that the pipe is drained and broken.
   */
  lemma TrueStaysTrue(mode: Mode, states: seq<State>, steps: seq<Label>, p: Probe, q: Probe)
    requires Run(mode, states, steps) && InRun(p, states) && InRun(q, states) && p.flagAt <= q.peekedAt
    requires IsEof(p, states) == Says(true) && states[p.flagAt].io.out.queue == [] && q.queried
    ensures IsEof(q, states) == Says(!q.peeked)
    ensures AtEnd(states[p.flagAt].io) ==> IsEof(q, states) == Says(true)
  {
    ExitedStays(mode, states, steps, p.aliveAt, q.aliveAt);
    EmptyStaysEmpty(mode, states, steps, p.flagAt, q.emptyAt);
    NothingSentAfterFinalStore(mode, states, steps, p.flagAt, q.flagAt);
    if AtEnd(states[p.flagAt].io) {
      AtEndStays(mode, states, steps, p.flagAt, q.peekedAt);
    }
  }
}

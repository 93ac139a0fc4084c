/**
 Concurrent calls of `write` behave like calls made one after the other, in the order in which they took the
 mutex: each leaves the writer, the count and the verdict of the sequential call on what the one before left.
 */
module Linearisation {
  import opened Unicode
  import opened WritePath
  import opened Delivery
  import opened WriteCounts
  import opened SharedWriter

  /** The answers a call got; what it did not ask for does not matter. */
  function AnswersOf(e: Entry): (os: Answers) {
    (k: nat) => if k < |e.turns| then e.turns[k].answer else Refused(0)
  }

  /** A call that ended and left `w`: it is the sequential call, from the writer it found. */
  predicate IsCall(overlapped: bool, e: Entry, w: Writer) {
    AfterWrite(overlapped, e.start, WireBytes(e.text), AnswersOf(e)) == Outcome(w, e.total, !e.failed)
  }

  /** A write that succeeds; on a pipe that is not overlapped a deferred one does not. */
  predicate Accepted(overlapped: bool, a: WriteAnswer) { a.Written? || (overlapped && a.Pending?) }

  /** Only the last turn of a call may be a failed write, and only if the call failed. */
  predicate NoTurnAfterFailure(overlapped: bool, e: Entry) {
    forall k :: 0 <= k < |e.turns| && (k < |e.turns| - 1 || !e.failed) ==> Accepted(overlapped, e.turns[k].answer)
  }

  /** A call under way has done what the sequential call does with the chunks given so far. */
  predicate Underway(overlapped: bool, e: Entry, w: Writer) {
    && |e.turns| <= |ChunksOf(e)| && NoTurnAfterFailure(overlapped, e)
    && if e.failed then IsCall(overlapped, e, w)
       else AfterChunks(overlapped, e.start, ChunksOf(e)[..|e.turns|], AnswersOf(e), 0, 0) == Outcome(w, e.total, true)
  }

  // ----- Prefixes of a call

  /** The loop over all chunks goes on where the loop over the first `m` ends, unless that fails. */
  lemma {:induction false} PrefixThenRest(
    overlapped: bool, w: Writer, chunks: seq<seq<Byte>>, os: Answers, i: nat, m: nat, total: nat)
    requires i <= m <= |chunks|
    ensures var o := AfterChunks(overlapped, w, chunks[..m], os, i, total);
            AfterChunks(overlapped, w, chunks, os, i, total) ==
            if o.ok then AfterChunks(overlapped, o.writer, chunks, os, m, o.total) else o
    decreases m - i
  {
    if i < m {
      var o := AfterChunk(overlapped, w, chunks[i], os(i));
      if o.ok {
        PrefixThenRest(overlapped, o.writer, chunks, os, i + 1, m, total + o.total);
      }
    }
  }

  /** Only the answers to its chunks matter to the loop. */
  lemma {:induction false} SameAnswers(
    overlapped: bool, w: Writer, chunks: seq<seq<Byte>>, os: Answers, os': Answers, i: nat, total: nat)
    requires i <= |chunks| && forall k :: i <= k < |chunks| ==> os(k) == os'(k)
    ensures AfterChunks(overlapped, w, chunks, os, i, total) == AfterChunks(overlapped, w, chunks, os', i, total)
    decreases |chunks| - i
  {
    if i < |chunks| {
      var o := AfterChunk(overlapped, w, chunks[i], os(i));
      if o.ok {
        SameAnswers(overlapped, o.writer, chunks, os, os', i + 1, total + o.total);
      }
    }
  }

  /** The loop over one chunk more is one turn more. */
  lemma OneMore(overlapped: bool, w: Writer, chunks: seq<seq<Byte>>, os: Answers, n: nat)
    requires n < |chunks| && AfterChunks(overlapped, w, chunks[..n], os, 0, 0).ok
    ensures var p := AfterChunks(overlapped, w, chunks[..n], os, 0, 0);
            var o := AfterChunk(overlapped, p.writer, chunks[n], os(n));
            AfterChunks(overlapped, w, chunks[..n + 1], os, 0, 0) == o.(total := p.total + o.total)
  {
    var more := chunks[..n + 1];
    assert more[..n] == chunks[..n];
    PrefixThenRest(overlapped, w, more, os, 0, n, 0);
    var p := AfterChunks(overlapped, w, chunks[..n], os, 0, 0);
    var o := AfterChunk(overlapped, p.writer, chunks[n], os(n));
    if o.ok {
      assert AfterChunks(overlapped, o.writer, more, os, n + 1, p.total + o.total) ==
             Outcome(o.writer, p.total + o.total, true);
    }
  }

  // ----- One call

  /** The turn does not depend on the answer if the wait before it fails. */
  lemma UnissuedTurn(w: Writer, chunk: seq<Byte>, a: WriteAnswer, b: WriteAnswer)
    requires !Issued(true, w)
    ensures AfterChunk(true, w, chunk, a) == AfterChunk(true, w, chunk, b)
  {
  }

  lemma TurnIsAccepted(overlapped: bool, w: Writer, chunk: seq<Byte>, a: WriteAnswer)
    requires AfterChunk(overlapped, w, chunk, a).ok
    ensures Issued(overlapped, w) && Accepted(overlapped, a)
  {
  }

  lemma TurnKeepsUnderway(overlapped: bool, w: Writer, e: Entry, answer: WriteAnswer)
    requires Underway(overlapped, e, w) && !Finished(e)
    ensures var (w', e') := ChunkTurn(overlapped, w, e, answer); Underway(overlapped, e', w')
  {
    var (w', e') := ChunkTurn(overlapped, w, e, answer);
    var n, chunks, os := |e.turns|, ChunksOf(e), AnswersOf(e');
    SameAnswers(overlapped, e.start, chunks[..n], AnswersOf(e), os, 0, 0);
    OneMore(overlapped, e.start, chunks, os, n);
    if !Issued(overlapped, w) {
      UnissuedTurn(w, chunks[n], answer, os(n));
    }
    if e'.failed {
      PrefixThenRest(overlapped, e.start, chunks, os, 0, n + 1, 0);
    } else {
      TurnIsAccepted(overlapped, w, chunks[n], answer);
    }
  }

  lemma FinishedIsCall(overlapped: bool, w: Writer, e: Entry)
    requires Underway(overlapped, e, w) && Finished(e)
    ensures IsCall(overlapped, e, w)
  {
    assert ChunksOf(e)[..|ChunksOf(e)|] == ChunksOf(e);
  }

  // ----- All calls

  /** The calls of the log follow each other and leave `w`. */
  predicate Follow(overlapped: bool, log: seq<Entry>, w: Writer) {
    if log == [] then w == FRESH
    else
      var e := log[|log| - 1];
      && IsCall(overlapped, e, w) && NoTurnAfterFailure(overlapped, e)
      && Follow(overlapped, log[..|log| - 1], e.start)
  }

  predicate Sequential(overlapped: bool, s: State) {
    if s.holder.Holds? then
      && Follow(overlapped, s.log, s.holder.entry.start)
      && Underway(overlapped, s.holder.entry, s.writer)
    else Follow(overlapped, s.log, s.writer)
  }

  lemma AcquireKeepsSequential(overlapped: bool, s: State, id: nat)
    requires Sequential(overlapped, s) && Enabled(s, Acquire(id))
    ensures Sequential(overlapped, After(overlapped, s, Acquire(id)))
  {
    var e := After(overlapped, s, Acquire(id)).holder.entry;
    assert ChunksOf(e)[..0] == [];
    assert AfterChunks(overlapped, e.start, [], AnswersOf(e), 0, 0) == Outcome(s.writer, 0, true);
  }

  lemma ReleaseKeepsSequential(overlapped: bool, s: State)
    requires Sequential(overlapped, s) && Enabled(s, Release)
    ensures Sequential(overlapped, After(overlapped, s, Release))
  {
    var e := s.holder.entry;
    FinishedIsCall(overlapped, s.writer, e);
    assert (s.log + [e])[..|s.log|] == s.log;
  }

  lemma StepKeepsSequential(overlapped: bool, s: State, t: Step)
    requires Sequential(overlapped, s) && Enabled(s, t)
    ensures Sequential(overlapped, After(overlapped, s, t))
  {
    match t
    case Begin(_, _) =>
    case Acquire(id) => AcquireKeepsSequential(overlapped, s, id);
    case WriteChunk(answer) => TurnKeepsUnderway(overlapped, s.writer, s.holder.entry, answer);
    case Release => ReleaseKeepsSequential(overlapped, s);
  }

  lemma StepOfRunKeepsSequential(overlapped: bool, states: seq<State>, steps: seq<Step>, n: nat)
    requires Run(overlapped, states, steps) && 0 < n < |states| && Sequential(overlapped, states[n - 1])
    ensures Sequential(overlapped, states[n])
  {
    assert Joined(overlapped, states, steps, n - 1);
    StepKeepsSequential(overlapped, states[n - 1], steps[n - 1]);
  }

  /**
   In every run and at every point of it, each call that returned is the sequential call `AfterWrite` from the
   writer it found, which the call before it left: with the same writer afterwards, count and verdict. It made
   no turn after a failed one.
   */
  lemma {:induction false} CallsAreSequential(overlapped: bool, states: seq<State>, steps: seq<Step>, n: nat)
    requires Run(overlapped, states, steps) && n < |states|
    ensures Sequential(overlapped, states[n])
  {
    if n > 0 {
      CallsAreSequential(overlapped, states, steps, n - 1);
      StepOfRunKeepsSequential(overlapped, states, steps, n);
    }
  }

  // ----- The sequential history

  /** The calls of the log, in lock order. */
  function CallsOf(log: seq<Entry>): (calls: seq<Call>) {
    if log == [] then []
    else
      var e := log[|log| - 1];
      CallsOf(log[..|log| - 1]) + [Call(e.text, AnswersOf(e))]
  }

  /** What the successful calls returned, and what was counted inside the failed ones. */
  function Counted(log: seq<Entry>, failed: bool): (n: nat) {
    if log == [] then 0
    else
      var e := log[|log| - 1];
      Counted(log[..|log| - 1], failed) + if e.failed == failed then e.total else 0
  }

  lemma {:induction false} OneCallMore(overlapped: bool, t: Tally, calls: seq<Call>, c: Call)
    ensures AfterCalls(overlapped, t, calls + [c]) == AfterCalls(overlapped, AfterCalls(overlapped, t, calls), [c])
    decreases |calls|
  {
    if calls == [] {
      assert calls + [c] == [c];
    } else {
      var o := AfterWrite(overlapped, t.writer, WireBytes(calls[0].text), calls[0].os);
      assert (calls + [c])[1..] == calls[1..] + [c];
      OneCallMore(overlapped,
        Tally(o.writer, t.returned + if o.ok then o.total else 0, t.lost + if o.ok then 0 else o.total), calls[1..], c);
    }
  }

  lemma {:induction false} FollowingIsAfterCalls(overlapped: bool, log: seq<Entry>, w: Writer)
    requires Follow(overlapped, log, w)
    ensures AfterCalls(overlapped, Tally(FRESH, 0, 0), CallsOf(log)) ==
            Tally(w, Counted(log, false), Counted(log, true))
  {
    if log != [] {
      var e, before := log[|log| - 1], log[..|log| - 1];
      var c, t := Call(e.text, AnswersOf(e)), Tally(e.start, Counted(before, false), Counted(before, true));
      FollowingIsAfterCalls(overlapped, before, e.start);
      OneCallMore(overlapped, Tally(FRESH, 0, 0), CallsOf(before), c);
      assert [c][1..] == [];
      assert AfterCalls(overlapped, t, [c]) == Tally(w, Counted(log, false), Counted(log, true));
    }
  }

  /** Whenever nobody holds the mutex, a run has done what its calls do one after the other, in lock order. */
  lemma RunsLinearise(overlapped: bool, states: seq<State>, steps: seq<Step>, n: nat)
    requires Run(overlapped, states, steps) && n < |states| && states[n].holder.Nobody?
    ensures var s := states[n];
            AfterCalls(overlapped, Tally(FRESH, 0, 0), CallsOf(s.log)) ==
            Tally(s.writer, Counted(s.log, false), Counted(s.log, true))
  {
    CallsAreSequential(overlapped, states, steps, n);
    FollowingIsAfterCalls(overlapped, states[n].log, states[n].writer);
  }

  /** So the ledger of an overlapped pipe holds for concurrent calls too. */
  lemma ConcurrentLedger(states: seq<State>, steps: seq<Step>, n: nat)
    requires Run(true, states, steps) && n < |states| && states[n].holder.Nobody?
    ensures var s := states[n]; Accounted(Tally(s.writer, Counted(s.log, false), Counted(s.log, true)))
  {
    RunsLinearise(true, states, steps, n);
    OverlappedLedger(CallsOf(states[n].log));
  }
}

/**
 Concurrent calls of `PTYProcess::write`: every call encodes on its own, then takes the mutex for its whole
 chunk loop. The steps of the callers interleave freely; the lemmas say what arrives in the pipe after any
 run, and what reading it back yields.
 */
module SharedWriter {
  import opened Sequences
  import opened Unicode
  import opened WritePath
  import opened Delivery

  /**
   A call that has taken the mutex: its text, the writer as it found it, the chunks it gave to `WriteFile`,
   the bytes it counted, and whether it failed.
   */
  datatype Entry = Entry(text: seq<CodeUnit>, start: Writer, turns: seq<Turn>, total: nat, failed: bool)
  datatype Holder = Nobody | Holds(entry: Entry)

  /** Calls encoding or queueing for the mutex, the call holding it, and the calls that returned, in lock order. */
  datatype State = State(waiting: map<nat, seq<CodeUnit>>, holder: Holder, writer: Writer, log: seq<Entry>)

  datatype Step = Begin(id: nat, text: seq<CodeUnit>) | Acquire(id: nat) | WriteChunk(answer: WriteAnswer) | Release

  const START := State(map[], Nobody, FRESH, [])

  function ChunksOf(e: Entry): (c: seq<seq<Byte>>) { Chunks(WireBytes(e.text)) }

  predicate Finished(e: Entry) { e.failed || |e.turns| >= |ChunksOf(e)| }

  predicate Enabled(s: State, t: Step) {
    match t
    case Begin(id, _) => id !in s.waiting
    case Acquire(id) => id in s.waiting && s.holder.Nobody?
    case WriteChunk(_) => s.holder.Holds? && !Finished(s.holder.entry)
    case Release => s.holder.Holds? && Finished(s.holder.entry)
  }

  /** The holder's next turn of the chunk loop. */
  function ChunkTurn(overlapped: bool, w: Writer, e: Entry, answer: WriteAnswer): (r: (Writer, Entry))
    requires !Finished(e)
  {
    var chunk := ChunksOf(e)[|e.turns|];
    var o := AfterChunk(overlapped, w, chunk, answer);
    (o.writer,
     e.(failed := !o.ok, total := e.total + o.total,
        turns := if Issued(overlapped, w) then e.turns + [Turn(chunk, answer)] else e.turns))
  }

  function After(overlapped: bool, s: State, t: Step): (s': State)
    requires Enabled(s, t)
  {
    match t
    case Begin(id, text) => s.(waiting := s.waiting[id := text])
    case Acquire(id) => s.(waiting := s.waiting - {id}, holder := Holds(Entry(s.waiting[id], s.writer, [], 0, false)))
    case WriteChunk(answer) =>
      var (w, e) := ChunkTurn(overlapped, s.writer, s.holder.entry, answer);
      s.(writer := w, holder := Holds(e))
    case Release => s.(holder := Nobody, log := s.log + [s.holder.entry])
  }

  predicate Run(overlapped: bool, states: seq<State>, steps: seq<Step>) {
    && |states| == |steps| + 1
    && states[0] == START
    && forall i :: 0 <= i < |steps| ==> Joined(overlapped, states, steps, i)
  }

  /** The `i`-th step is enabled and leads to the next state. */
  predicate Joined(overlapped: bool, states: seq<State>, steps: seq<Step>, i: nat)
    requires i < |steps| && |states| == |steps| + 1
  {
    Enabled(states[i], steps[i]) && states[i + 1] == After(overlapped, states[i], steps[i])
  }

  // ----- Serialisation

  /** What arrives in the pipe from the calls of the log, in lock order. */
  function Contributions(log: seq<Entry>): (b: seq<Byte>) {
    if log == [] then [] else Contributions(log[..|log| - 1]) + Arrived(log[|log| - 1].turns)
  }

  /** The call gave the pipe its leading chunks, in order. */
  predicate GivesLeadingChunks(e: Entry) {
    |e.turns| <= |ChunksOf(e)| && forall k :: 0 <= k < |e.turns| ==> e.turns[k].chunk == ChunksOf(e)[k]
  }

  /** A call that returned gave all its chunks, unless it failed. */
  predicate Returned(e: Entry) { GivesLeadingChunks(e) && (!e.failed ==> |e.turns| == |ChunksOf(e)|) }

  predicate AllReturned(log: seq<Entry>) { forall i :: 0 <= i < |log| ==> Returned(log[i]) }

  function Current(h: Holder): (b: seq<Byte>) { if h.Holds? then Arrived(h.entry.turns) else [] }

  /** What arrives in the pipe is what arrives from each call, in lock order and never interleaved. */
  predicate Serialised(overlapped: bool, s: State) {
    && Consistent(s.writer) && (!overlapped ==> !s.writer.pending)
    && Stream(s.writer.pipe) == Contributions(s.log) + Current(s.holder)
    && (s.holder.Holds? ==> GivesLeadingChunks(s.holder.entry))
    && AllReturned(s.log)
  }

  lemma NextTurn(e: Entry, answer: WriteAnswer) returns (more: seq<Byte>)
    requires GivesLeadingChunks(e) && !Finished(e)
    ensures var chunk := ChunksOf(e)[|e.turns|];
            var turns := e.turns + [Turn(chunk, answer)];
            && |chunk| <= CHUNK_SIZE && GivesLeadingChunks(e.(turns := turns))
            && more == Through(chunk, Count(answer)) && Arrived(turns) == Arrived(e.turns) + more
  {
    var chunk := ChunksOf(e)[|e.turns|];
    ChunksMakeUp(WireBytes(e.text));
    TurnsSnoc(e.turns, Turn(chunk, answer));
    more := Through(chunk, Count(answer));
  }

  lemma TurnExtendsEntry(overlapped: bool, w: Writer, e: Entry, answer: WriteAnswer) returns (more: seq<Byte>)
    requires Consistent(w) && (!overlapped ==> !w.pending) && GivesLeadingChunks(e) && !Finished(e)
    ensures var (w', e') := ChunkTurn(overlapped, w, e, answer);
            && Consistent(w') && (!overlapped ==> !w'.pending) && GivesLeadingChunks(e')
            && Arrived(e'.turns) == Arrived(e.turns) + more
            && Stream(w'.pipe) == Stream(w.pipe) + more
  {
    var chunk := ChunksOf(e)[|e.turns|];
    more := NextTurn(e, answer);
    ChunkKeepsConsistent(overlapped, w, chunk, answer);
    ChunkArrives(overlapped, w, chunk, answer);
    if !Issued(overlapped, w) {
      more := [];
      NothingAppended(Arrived(e.turns));
    }
  }

  lemma ChunkKeepsSerialised(overlapped: bool, s: State, answer: WriteAnswer)
    requires Serialised(overlapped, s) && Enabled(s, WriteChunk(answer))
    ensures Serialised(overlapped, After(overlapped, s, WriteChunk(answer)))
  {
    var more := TurnExtendsEntry(overlapped, s.writer, s.holder.entry, answer);
    Associative(Contributions(s.log), Arrived(s.holder.entry.turns), more);
  }

  lemma ContributionsSnoc(log: seq<Entry>, e: Entry)
    ensures Contributions(log + [e]) == Contributions(log) + Arrived(e.turns)
  {
    assert (log + [e])[..|log|] == log;
  }

  lemma ReleaseKeepsSerialised(overlapped: bool, s: State)
    requires Serialised(overlapped, s) && Enabled(s, Release)
    ensures Serialised(overlapped, After(overlapped, s, Release))
  {
    ContributionsSnoc(s.log, s.holder.entry);
    NothingAppended(Contributions(s.log + [s.holder.entry]));
  }

  lemma StepKeepsSerialised(overlapped: bool, s: State, t: Step)
    requires Serialised(overlapped, s) && Enabled(s, t)
    ensures Serialised(overlapped, After(overlapped, s, t))
  {
    match t
    case Begin(_, _) =>
    case Acquire(_) =>
    case WriteChunk(answer) => ChunkKeepsSerialised(overlapped, s, answer);
    case Release => ReleaseKeepsSerialised(overlapped, s);
  }

  lemma StartIsSerialised(overlapped: bool)
    ensures Serialised(overlapped, START)
  {
    assert InFlight([]) == 0 && Arriving([]) == [];
  }

  lemma StepOfRunKeepsSerialised(overlapped: bool, states: seq<State>, steps: seq<Step>, n: nat)
    requires Run(overlapped, states, steps) && 0 < n < |states| && Serialised(overlapped, states[n - 1])
    ensures Serialised(overlapped, states[n])
  {
    assert Joined(overlapped, states, steps, n - 1);
    StepKeepsSerialised(overlapped, states[n - 1], steps[n - 1]);
  }

  /**
   Writes are serialised: at every point of every run, for any number of callers, what arrives in the pipe is,
   in lock order and never interleaved, what gets through of each call's chunks: all chunks were given for a
   call that returned successfully, leading chunks for every other.
   */
  lemma {:induction false} WritesAreSerialised(overlapped: bool, states: seq<State>, steps: seq<Step>, n: nat)
    requires Run(overlapped, states, steps) && n < |states|
    ensures Serialised(overlapped, states[n])
  {
    if n == 0 {
      StartIsSerialised(overlapped);
    } else {
      WritesAreSerialised(overlapped, states, steps, n - 1);
      StepOfRunKeepsSerialised(overlapped, states, steps, n);
    }
  }

  // ----- Whose calls they are

  /** The text was handed to a call that began by step `n`. */
  predicate Begun(steps: seq<Step>, n: nat, text: seq<CodeUnit>)
    requires n <= |steps|
  {
    exists k :: 0 <= k < n && Begins(steps[k], text)
  }

  predicate Begins(t: Step, text: seq<CodeUnit>) { t.Begin? && t.text == text }

  function Beginnings(steps: seq<Step>, n: nat): (b: nat)
    requires n <= |steps|
  {
    if n == 0 then 0 else Beginnings(steps, n - 1) + if steps[n - 1].Begin? then 1 else 0
  }

  /** Every call is one that began, and every one that began waits, holds the mutex or has returned. */
  predicate Kept(steps: seq<Step>, n: nat, s: State)
    requires n <= |steps|
  {
    && |s.waiting| + (if s.holder.Holds? then 1 else 0) + |s.log| == Beginnings(steps, n)
    && (forall id :: id in s.waiting ==> Begun(steps, n, s.waiting[id]))
    && (s.holder.Holds? ==> Begun(steps, n, s.holder.entry.text))
    && (forall i :: 0 <= i < |s.log| ==> Begun(steps, n, s.log[i].text))
  }

  lemma WaitingCounts(waiting: map<nat, seq<CodeUnit>>, id: nat, text: seq<CodeUnit>)
    ensures id !in waiting ==> |waiting[id := text]| == |waiting| + 1
    ensures id in waiting ==> |waiting - {id}| == |waiting| - 1
  {
    assert waiting[id := text].Keys == waiting.Keys + {id};
    assert (waiting - {id}).Keys == waiting.Keys - {id};
  }

  lemma BegunStays(steps: seq<Step>, n: nat, text: seq<CodeUnit>)
    requires n < |steps|
    ensures Begun(steps, n, text) ==> Begun(steps, n + 1, text)
    ensures Begins(steps[n], text) ==> Begun(steps, n + 1, text)
  {
  }

  lemma StepKeepsCalls(overlapped: bool, steps: seq<Step>, n: nat, s: State)
    requires n < |steps| && Enabled(s, steps[n]) && Kept(steps, n, s)
    ensures Kept(steps, n + 1, After(overlapped, s, steps[n]))
  {
    var s' := After(overlapped, s, steps[n]);
    forall text ensures Begun(steps, n, text) ==> Begun(steps, n + 1, text) {
      BegunStays(steps, n, text);
    }
    match steps[n]
    case Begin(id, text) =>
      WaitingCounts(s.waiting, id, text);
      BegunStays(steps, n, text);
    case Acquire(id) => WaitingCounts(s.waiting, id, []);
    case WriteChunk(_) =>
    case Release =>
  }

  /** In every run, the calls logged are those that began, with their texts, and none is lost. */
  lemma {:induction false} CallsAreKept(overlapped: bool, states: seq<State>, steps: seq<Step>, n: nat)
    requires Run(overlapped, states, steps) && n < |states|
    ensures Kept(steps, n, states[n])
  {
    if n > 0 {
      CallsAreKept(overlapped, states, steps, n - 1);
      assert Joined(overlapped, states, steps, n - 1);
      StepKeepsCalls(overlapped, steps, n - 1, states[n - 1]);
    }
  }

  // ----- Delivery

  /** Everything the calls of the log meant to write. */
  function Encodings(log: seq<Entry>): (b: seq<Byte>) {
    if log == [] then [] else Encodings(log[..|log| - 1]) + WireBytes(log[|log| - 1].text)
  }

  /** Every chunk of the call was given, and none was cut short. */
  predicate Whole(e: Entry) { |e.turns| == |ChunksOf(e)| && InFull(e.turns) }

  predicate AllWhole(log: seq<Entry>) { forall i :: 0 <= i < |log| ==> Whole(log[i]) }

  lemma {:induction false} LeadingBytes(chunks: seq<seq<Byte>>, n: nat)
    requires n <= |chunks| && ChunkSized(chunks)
    ensures |Flatten(chunks[..n])| <= |Flatten(chunks)|
    ensures |Flatten(chunks[..n])| == |Flatten(chunks)| <==> n == |chunks|
    decreases |chunks| - n
  {
    if n < |chunks| {
      LeadingBytes(chunks, n + 1);
      FlattenSnoc(chunks[..n], chunks[n]);
      assert chunks[..n + 1] == chunks[..n] + [chunks[n]];
    } else {
      assert chunks[..n] == chunks;
    }
  }

  lemma WholeIsDelivered(e: Entry)
    requires GivesLeadingChunks(e)
    ensures |Arrived(e.turns)| <= |WireBytes(e.text)|
    ensures |Arrived(e.turns)| == |WireBytes(e.text)| <==> Whole(e)
    ensures Arrived(e.turns) == WireBytes(e.text) <==> Whole(e)
  {
    var chunks := ChunksOf(e);
    ChunksMakeUp(WireBytes(e.text));
    OfferedIsFlatten(e.turns, chunks[..|e.turns|]);
    LeadingBytes(chunks, |e.turns|);
    ArrivedInFull(e.turns);
    assert |e.turns| == |chunks| ==> chunks[..|e.turns|] == chunks;
  }

  lemma AllWholeSnoc(log: seq<Entry>)
    requires log != []
    ensures AllWhole(log) <==> AllWhole(log[..|log| - 1]) && Whole(log[|log| - 1])
  {
    assert log == log[..|log| - 1] + [log[|log| - 1]];
  }

  /** The calls' encodings arrive exactly when no chunk of any of them was cut short. */
  lemma {:induction false} EncodingsArrive(log: seq<Entry>)
    requires AllReturned(log)
    ensures |Contributions(log)| <= |Encodings(log)|
    ensures |Contributions(log)| == |Encodings(log)| <==> AllWhole(log)
    ensures Contributions(log) == Encodings(log) <==> AllWhole(log)
  {
    if log != [] {
      EncodingsArrive(log[..|log| - 1]);
      WholeIsDelivered(log[|log| - 1]);
      AllWholeSnoc(log);
    }
  }

  /**
   Whenever nobody holds the mutex, what arrives in the pipe is all that the calls meant to write if and only
   if no chunk was cut short: whether the calls reported success does not matter.
   */
  lemma WholeLogIsDelivered(overlapped: bool, states: seq<State>, steps: seq<Step>, n: nat)
    requires Run(overlapped, states, steps) && n < |states| && states[n].holder.Nobody?
    ensures Stream(states[n].writer.pipe) == Encodings(states[n].log) <==> AllWhole(states[n].log)
  {
    WritesAreSerialised(overlapped, states, steps, n);
    NothingAppended(Contributions(states[n].log));
    EncodingsArrive(states[n].log);
  }
}

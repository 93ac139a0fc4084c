/**
 What arrives in the pipe. A write may be reported short and a deferred write may end short or fail after
 its call returned; the code repeats neither. So a successful call need not be delivered.
 */
module Delivery {
  import opened Sequences
  import opened Unicode
  import opened WritePath

  /** A chunk given to `WriteFile`, and the answer. */
  datatype Turn = Turn(chunk: seq<Byte>, answer: WriteAnswer)

  /** The turns of the first `n` chunks. */
  function Turns(chunks: seq<seq<Byte>>, os: Answers, n: nat): (turns: seq<Turn>)
    requires n <= |chunks|
    ensures |turns| == n
  {
    if n == 0 then [] else Turns(chunks, os, n - 1) + [Turn(chunks[n - 1], os(n - 1))]
  }

  lemma {:induction false} TurnAt(chunks: seq<seq<Byte>>, os: Answers, n: nat, k: nat)
    requires k < n <= |chunks|
    ensures Turns(chunks, os, n)[k] == Turn(chunks[k], os(k))
  {
    if k < n - 1 {
      TurnAt(chunks, os, n - 1, k);
    }
  }

  /** All bytes given. */
  function Offered(turns: seq<Turn>): (b: seq<Byte>) {
    if turns == [] then [] else Offered(turns[..|turns| - 1]) + turns[|turns| - 1].chunk
  }

  /** What arrives of them. */
  function Arrived(turns: seq<Turn>): (b: seq<Byte>) {
    if turns == [] then []
    else
      var last := turns[|turns| - 1];
      Arrived(turns[..|turns| - 1]) + Through(last.chunk, Count(last.answer))
  }

  /** No chunk was cut short, neither a written nor a deferred one. */
  predicate InFull(turns: seq<Turn>) { forall k :: 0 <= k < |turns| ==> Count(turns[k].answer) >= |turns[k].chunk| }

  lemma TurnsSnoc(turns: seq<Turn>, t: Turn)
    ensures Offered(turns + [t]) == Offered(turns) + t.chunk
    ensures Arrived(turns + [t]) == Arrived(turns) + Through(t.chunk, Count(t.answer))
  {
    assert (turns + [t])[..|turns|] == turns;
  }

  lemma {:induction false} OfferedIsFlatten(turns: seq<Turn>, chunks: seq<seq<Byte>>)
    requires |turns| == |chunks| && forall k :: 0 <= k < |turns| ==> turns[k].chunk == chunks[k]
    ensures Offered(turns) == Flatten(chunks)
  {
    if turns != [] {
      var n := |turns| - 1;
      OfferedIsFlatten(turns[..n], chunks[..n]);
      FlattenSnoc(chunks[..n], chunks[n]);
      assert chunks == chunks[..n] + [chunks[n]];
    }
  }

  /** What arrives is no longer than what was given, and is all of it exactly when no chunk was cut short. */
  lemma {:induction false} ArrivedInFull(turns: seq<Turn>)
    ensures |Arrived(turns)| <= |Offered(turns)|
    ensures |Arrived(turns)| == |Offered(turns)| <==> InFull(turns)
    ensures Arrived(turns) == Offered(turns) <==> InFull(turns)
  {
    if turns != [] {
      var n := |turns| - 1;
      ArrivedInFull(turns[..n]);
      assert turns == turns[..n] + [turns[n]];
      assert InFull(turns) <==> InFull(turns[..n]) && Count(turns[n].answer) >= |turns[n].chunk|;
      assert turns[n].chunk[..|turns[n].chunk|] == turns[n].chunk;
    }
  }

  /** Whether a turn gets as far as `WriteFile`: not if the harvest fails. */
  predicate Issued(overlapped: bool, w: Writer) { overlapped ==> AfterHarvest(w).ok }

  lemma ChunkArrives(overlapped: bool, w: Writer, chunk: seq<Byte>, a: WriteAnswer)
    requires Consistent(w) && (!overlapped ==> !w.pending)
    ensures var q := AfterChunk(overlapped, w, chunk, a).writer.pipe;
            Stream(q) == Stream(w.pipe) + if Issued(overlapped, w) then Through(chunk, Count(a)) else []
    ensures !overlapped ==> !AfterChunk(overlapped, w, chunk, a).writer.pending
  {
    HarvestKeepsConsistent(w);
    GivenOne(AfterHarvest(w).writer.pipe, chunk, Seen(overlapped, a));
    NothingAppended(Stream(w.pipe));
  }

  /** A pipe that had received `base`, when the first `n` chunks have had their turn. */
  function Extended(base: seq<Byte>, chunks: seq<seq<Byte>>, os: Answers, n: nat): (b: seq<Byte>)
    requires n <= |chunks|
  {
    if n == 0 then base else Extended(base, chunks, os, n - 1) + Through(chunks[n - 1], Count(os(n - 1)))
  }

  lemma {:induction false} ExtendedByArrived(base: seq<Byte>, chunks: seq<seq<Byte>>, os: Answers, n: nat)
    requires n <= |chunks|
    ensures Extended(base, chunks, os, n) == base + Arrived(Turns(chunks, os, n))
  {
    if n == 0 {
      NothingAppended(base);
    } else {
      ExtendedByArrived(base, chunks, os, n - 1);
      TurnsSnoc(Turns(chunks, os, n - 1), Turn(chunks[n - 1], os(n - 1)));
      Associative(base, Arrived(Turns(chunks, os, n - 1)), Through(chunks[n - 1], Count(os(n - 1))));
    }
  }

  /** `w` has given the pipe the first `i` chunks. */
  predicate HasGiven(overlapped: bool, w: Writer, chunks: seq<seq<Byte>>, os: Answers, i: nat, base: seq<Byte>)
    requires i <= |chunks|
  {
    Consistent(w) && (!overlapped ==> !w.pending) && Stream(w.pipe) == Extended(base, chunks, os, i)
  }

  lemma TurnArrives(overlapped: bool, w: Writer, chunks: seq<seq<Byte>>, os: Answers, i: nat, base: seq<Byte>)
    returns (n: nat)
    requires i < |chunks| && |chunks[i]| <= CHUNK_SIZE && HasGiven(overlapped, w, chunks, os, i, base)
    ensures n == (if Issued(overlapped, w) then i + 1 else i)
    ensures AfterChunk(overlapped, w, chunks[i], os(i)).ok ==> n == i + 1
    ensures HasGiven(overlapped, AfterChunk(overlapped, w, chunks[i], os(i)).writer, chunks, os, n, base)
  {
    ChunkKeepsConsistent(overlapped, w, chunks[i], os(i));
    ChunkArrives(overlapped, w, chunks[i], os(i));
    NothingAppended(Stream(w.pipe));
    n := if Issued(overlapped, w) then i + 1 else i;
  }

  // ----- Where a call stops

  /** The wait before turn `k` finds that the write it waits for has failed. */
  predicate HarvestFails(overlapped: bool, w: Writer, os: Answers, k: nat) {
    overlapped &&
    if k == 0 then w.pending && w.pipe.outstanding != [] && w.pipe.outstanding[0].fate.Fails?
    else os(k - 1).Pending? && os(k - 1).fate.Fails?
  }

  /** The `WriteFile` of turn `k` fails; on a pipe that is not overlapped a deferred write is a failure. */
  predicate WriteFails(overlapped: bool, os: Answers, k: nat) { os(k).Refused? || (!overlapped && os(k).Pending?) }

  /** What the loop's first `i` turns leave for the next one to wait for. */
  predicate Leaves(overlapped: bool, w0: Writer, os: Answers, i: nat, w: Writer) {
    overlapped ==> (HarvestFails(overlapped, w0, os, i) <==> HarvestFails(overlapped, w, os, 0))
  }

  lemma TurnStops(overlapped: bool, w0: Writer, w: Writer, chunk: seq<Byte>, os: Answers, i: nat)
    requires Consistent(w) && |chunk| <= CHUNK_SIZE && Leaves(overlapped, w0, os, i, w)
    ensures Issued(overlapped, w) <==> !HarvestFails(overlapped, w0, os, i)
    ensures var o := AfterChunk(overlapped, w, chunk, os(i));
            && (o.ok <==> !HarvestFails(overlapped, w0, os, i) && !WriteFails(overlapped, os, i))
            && (o.ok ==> Leaves(overlapped, w0, os, i + 1, o.writer))
  {
    HarvestKeepsConsistent(w);
    if overlapped && os(i).Pending? {
      var p := AfterHarvest(w).writer.pipe;
      assert Given(p, chunk, os(i)).outstanding == [LateWrite(chunk, os(i).fate)];
    }
  }

  /** Turns before `n` were all issued, and those before the last of them went well. */
  predicate WentWell(overlapped: bool, w0: Writer, os: Answers, n: nat) {
    && (forall k :: 0 <= k < n ==> !HarvestFails(overlapped, w0, os, k))
    && (forall k :: 0 <= k < n - 1 ==> !WriteFails(overlapped, os, k))
  }

  /** A call that ended after `n` turns: why it ended, and whether it succeeded. */
  predicate StopsAt(overlapped: bool, w0: Writer, chunks: seq<seq<Byte>>, os: Answers, n: nat, ok: bool) {
    && n <= |chunks| && WentWell(overlapped, w0, os, n)
    && (ok <==> n == |chunks| && (n > 0 ==> !WriteFails(overlapped, os, n - 1)))
    && (n < |chunks| && (n > 0 ==> !WriteFails(overlapped, os, n - 1)) ==> HarvestFails(overlapped, w0, os, n))
  }

  lemma {:induction false} LoopArrives(
    overlapped: bool, w0: Writer, w: Writer, chunks: seq<seq<Byte>>, os: Answers, i: nat, total: nat, base: seq<Byte>)
    returns (n: nat)
    requires i <= |chunks| && ChunkSized(chunks) && HasGiven(overlapped, w, chunks, os, i, base)
    requires Leaves(overlapped, w0, os, i, w) && WentWell(overlapped, w0, os, i)
    requires i > 0 ==> !WriteFails(overlapped, os, i - 1)
    ensures i <= n && StopsAt(overlapped, w0, chunks, os, n, AfterChunks(overlapped, w, chunks, os, i, total).ok)
    ensures HasGiven(overlapped, AfterChunks(overlapped, w, chunks, os, i, total).writer, chunks, os, n, base)
    decreases |chunks| - i
  {
    n := i;
    if i < |chunks| {
      var o := AfterChunk(overlapped, w, chunks[i], os(i));
      n := TurnArrives(overlapped, w, chunks, os, i, base);
      TurnStops(overlapped, w0, w, chunks[i], os, i);
      if o.ok {
        n := LoopArrives(overlapped, w0, o.writer, chunks, os, i + 1, total + o.total, base);
      }
    }
  }

  /**
   A call gives the pipe its chunks in order, up to the first failure and no further: a write that fails is
   its last turn, and a wait that fails prevents the turn. What arrives is what was there and then, of each
   chunk given, the bytes that get through. The call succeeds exactly when no wait and no write of it fails.
   */
  lemma WriteArrives(overlapped: bool, w: Writer, bytes: seq<Byte>, os: Answers) returns (n: nat)
    requires Consistent(w) && (!overlapped ==> !w.pending)
    ensures var o, chunks := AfterWrite(overlapped, w, bytes, os), Chunks(bytes);
            && StopsAt(overlapped, w, chunks, os, n, o.ok)
            && Stream(o.writer.pipe) == Stream(w.pipe) + Arrived(Turns(chunks, os, n))
  {
    ChunksMakeUp(bytes);
    n := LoopArrives(overlapped, w, w, Chunks(bytes), os, 0, 0, Stream(w.pipe));
    ExtendedByArrived(Stream(w.pipe), Chunks(bytes), os, n);
  }

  /**
   An overlapped call succeeds exactly if the carried-over write completes, no chunk is refused, and all
   deferred chunks but the last complete: the last is left to the next call.
   */
  lemma OverlappedSucceeds(w: Writer, bytes: seq<Byte>, os: Answers)
    requires Consistent(w)
    ensures AfterWrite(true, w, bytes, os).ok <==>
            bytes == [] ||
            ((w.pending ==> w.pipe.outstanding[0].fate.Completes?) &&
             (forall k :: 0 <= k < |Chunks(bytes)| ==> !os(k).Refused?) &&
             (forall k :: 0 <= k < |Chunks(bytes)| - 1 && os(k).Pending? ==> os(k).fate.Completes?))
  {
    var n := WriteArrives(true, w, bytes, os);
    ChunkAt(bytes, 0);
    var chunks := Chunks(bytes);
    if AfterWrite(true, w, bytes, os).ok && bytes != [] {
      assert !HarvestFails(true, w, os, 0);
      forall k | 0 <= k < |chunks| ensures !os(k).Refused? {
        assert !WriteFails(true, os, k);
      }
      forall k | 0 <= k < |chunks| - 1 && os(k).Pending? ensures os(k).fate.Completes? {
        assert !HarvestFails(true, w, os, k + 1);
      }
    }
  }

  /** The turns of a call that offers all of `bytes`. */
  function CallTurns(bytes: seq<Byte>, os: Answers): (turns: seq<Turn>) { Turns(Chunks(bytes), os, |Chunks(bytes)|) }

  /** The answers to a call cut no chunk short: neither a written chunk nor a deferred one, the last included. */
  predicate CutsNothing(bytes: seq<Byte>, os: Answers) {
    forall k :: 0 <= k < |Chunks(bytes)| ==> Count(os(k)) >= |Chunks(bytes)[k]|
  }

  lemma CallInFull(bytes: seq<Byte>, os: Answers)
    ensures InFull(CallTurns(bytes, os)) <==> CutsNothing(bytes, os)
  {
    var chunks, turns := Chunks(bytes), CallTurns(bytes, os);
    forall k | 0 <= k < |chunks| ensures turns[k] == Turn(chunks[k], os(k)) {
      TurnAt(chunks, os, |chunks|, k);
    }
    if InFull(turns) {
      forall k | 0 <= k < |chunks| ensures Count(os(k)) >= |chunks[k]| {
        assert Count(turns[k].answer) >= |turns[k].chunk|;
      }
    }
  }

  lemma CallOffersAll(bytes: seq<Byte>, os: Answers)
    ensures Offered(CallTurns(bytes, os)) == bytes && ChunkSized(Chunks(bytes))
  {
    ChunksMakeUp(bytes);
    forall k | 0 <= k < |Chunks(bytes)| ensures CallTurns(bytes, os)[k].chunk == Chunks(bytes)[k] {
      TurnAt(Chunks(bytes), os, |Chunks(bytes)|, k);
    }
    OfferedIsFlatten(CallTurns(bytes, os), Chunks(bytes));
  }

  /**
   A successful call is delivered whole exactly when none of its chunks was cut short: no write reported
   short, and no deferred write, the last one included, ends short.
   */
  lemma DeliveredWhole(overlapped: bool, w: Writer, bytes: seq<Byte>, os: Answers)
    requires Consistent(w) && (!overlapped ==> !w.pending) && AfterWrite(overlapped, w, bytes, os).ok
    ensures var q := AfterWrite(overlapped, w, bytes, os).writer.pipe;
            Stream(q) == Stream(w.pipe) + bytes <==> CutsNothing(bytes, os)
  {
    CallOffersAll(bytes, os);
    ArrivedInFull(CallTurns(bytes, os));
    CallInFull(bytes, os);
    var n := WriteArrives(overlapped, w, bytes, os);
    SameTail(Stream(w.pipe), Arrived(CallTurns(bytes, os)), bytes);
  }

  lemma SameTail(a: seq<Byte>, b: seq<Byte>, c: seq<Byte>)
    ensures a + b == a + c <==> b == c
  {
    assert (a + b)[|a|..] == b && (a + c)[|a|..] == c;
  }
}

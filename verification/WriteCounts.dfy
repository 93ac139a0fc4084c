/**
 The number a call of `write` returns: what it counts in either mode, when that is what the documentation
 promises, and the ledger of an overlapped pipe over any sequence of calls.
 */
module WriteCounts {
  import opened Sequences
  import opened Unicode
  import opened WritePath
  import opened Delivery

  // ----- What a call counts

  /** The sum of the counts a synchronous loop sees for its first `n` chunks. */
  function Reports(chunks: seq<seq<Byte>>, os: Answers, n: nat): (r: nat)
    requires n <= |chunks|
  {
    if n == 0 then 0 else Reports(chunks, os, n - 1) + Report(chunks[n - 1], os(n - 1))
  }

  function Report(chunk: seq<Byte>, a: WriteAnswer): (n: nat) { if a.Written? then Min(a.count, |chunk|) else 0 }

  lemma {:induction false} SynchronousSum(w: Writer, chunks: seq<seq<Byte>>, os: Answers, i: nat)
    requires i <= |chunks|
    ensures var o := AfterChunks(false, w, chunks, os, i, Reports(chunks, os, i));
            && (o.ok <==> forall k :: i <= k < |chunks| ==> os(k).Written?)
            && (o.ok ==> o.total == Reports(chunks, os, |chunks|))
    decreases |chunks| - i
  {
    if i < |chunks| {
      var o := AfterChunk(false, w, chunks[i], os(i));
      if o.ok {
        SynchronousSum(o.writer, chunks, os, i + 1);
      }
    }
  }

  lemma {:induction false} ReportsAreArrived(chunks: seq<seq<Byte>>, os: Answers, n: nat)
    requires n <= |chunks| && forall k :: 0 <= k < n ==> os(k).Written?
    ensures Reports(chunks, os, n) == |Arrived(Turns(chunks, os, n))|
  {
    if n > 0 {
      ReportsAreArrived(chunks, os, n - 1);
      TurnsSnoc(Turns(chunks, os, n - 1), Turn(chunks[n - 1], os(n - 1)));
    }
  }

  /**
   A synchronous call succeeds exactly when every chunk was written. It counts the sum of the reports, which
   is the number of bytes it delivered, and the whole length exactly when no chunk was cut short.
   */
  lemma SynchronousCounts(w: Writer, bytes: seq<Byte>, os: Answers)
    requires Consistent(w) && !w.pending
    ensures var o, chunks := AfterWrite(false, w, bytes, os), Chunks(bytes);
            && (o.ok <==> forall k :: 0 <= k < |chunks| ==> os(k).Written?)
            && (o.ok ==> o.total == Reports(chunks, os, |chunks|))
            && (o.ok ==> o.total == |Stream(o.writer.pipe)| - |Stream(w.pipe)|)
            && (o.ok ==> (o.total == |bytes| <==> CutsNothing(bytes, os)))
  {
    SynchronousSum(w, Chunks(bytes), os, 0);
    if AfterWrite(false, w, bytes, os).ok {
      SynchronousDelivers(w, bytes, os);
      ReportsInFull(bytes, os);
    }
  }

  lemma SynchronousDelivers(w: Writer, bytes: seq<Byte>, os: Answers)
    requires Consistent(w) && !w.pending && AfterWrite(false, w, bytes, os).ok
    requires forall k :: 0 <= k < |Chunks(bytes)| ==> os(k).Written?
    ensures |Stream(AfterWrite(false, w, bytes, os).writer.pipe)| ==
            |Stream(w.pipe)| + Reports(Chunks(bytes), os, |Chunks(bytes)|)
  {
    var n := WriteArrives(false, w, bytes, os);
    ReportsAreArrived(Chunks(bytes), os, n);
  }

  lemma ReportsInFull(bytes: seq<Byte>, os: Answers)
    requires forall k :: 0 <= k < |Chunks(bytes)| ==> os(k).Written?
    ensures Reports(Chunks(bytes), os, |Chunks(bytes)|) == |bytes| <==> CutsNothing(bytes, os)
  {
    CallOffersAll(bytes, os);
    ReportsAreArrived(Chunks(bytes), os, |Chunks(bytes)|);
    ArrivedInFull(CallTurns(bytes, os));
    CallInFull(bytes, os);
  }

  /** What the next harvest of the flag's write will report. */
  function Carried(w: Writer): (n: nat) { if w.pending then Harvest(w.pipe) else 0 }

  /** What a harvest reports, sooner or later, of a chunk. */
  function LateReport(chunk: seq<Byte>, a: WriteAnswer): (n: nat)
    ensures n <= |chunk|
  {
    if a.Pending? && a.fate.Completes? then Min(a.fate.count, |chunk|) else 0
  }

  function LateReports(chunks: seq<seq<Byte>>, os: Answers, n: nat): (r: nat)
    requires n <= |chunks|
  {
    if n == 0 then 0 else LateReports(chunks, os, n - 1) + LateReport(chunks[n - 1], os(n - 1))
  }

  lemma TurnCounts(w: Writer, chunk: seq<Byte>, a: WriteAnswer)
    requires |chunk| <= CHUNK_SIZE && Consistent(w) && AfterChunk(true, w, chunk, a).ok
    ensures var o := AfterChunk(true, w, chunk, a);
            Consistent(o.writer) && o.total == Carried(w) && Carried(o.writer) == LateReport(chunk, a)
  {
    ChunkKeepsConsistent(true, w, chunk, a);
    HarvestKeepsConsistent(w);
    if a.Pending? {
      assert Given(AfterHarvest(w).writer.pipe, chunk, a).outstanding == [LateWrite(chunk, a.fate)];
    }
  }

  /** What was carried in is returned or carried out, and so is every report of the call's own chunks. */
  lemma {:induction false} OverlappedSum(
    w: Writer, chunks: seq<seq<Byte>>, os: Answers, i: nat, total: nat, carried: nat)
    requires i <= |chunks| && ChunkSized(chunks) && Consistent(w)
    requires total + Carried(w) == carried + LateReports(chunks, os, i)
    ensures var o := AfterChunks(true, w, chunks, os, i, total);
            o.ok ==> o.total + Carried(o.writer) == carried + LateReports(chunks, os, |chunks|)
    decreases |chunks| - i
  {
    if i < |chunks| {
      var o := AfterChunk(true, w, chunks[i], os(i));
      if o.ok {
        TurnCounts(w, chunks[i], os(i));
        OverlappedSum(o.writer, chunks, os, i + 1, total + o.total, carried);
      }
    }
  }

  /** A call leaves its own last chunk to be reported. */
  lemma {:induction false} LastIsCarried(w: Writer, chunks: seq<seq<Byte>>, os: Answers, i: nat, total: nat)
    requires i < |chunks| && ChunkSized(chunks) && Consistent(w)
    ensures var o := AfterChunks(true, w, chunks, os, i, total);
            o.ok ==> Carried(o.writer) == LateReport(chunks[|chunks| - 1], os(|chunks| - 1))
    decreases |chunks| - i
  {
    var o := AfterChunk(true, w, chunks[i], os(i));
    if o.ok {
      TurnCounts(w, chunks[i], os(i));
      if i + 1 < |chunks| {
        LastIsCarried(o.writer, chunks, os, i + 1, total + o.total);
      }
    }
  }

  /**
   What a successful overlapped call counts, from any state: the report of the write it found, and those of
   its own deferred chunks but the last. Chunks that complete at once are not counted, nor is the last one.
   */
  lemma OverlappedCounts(w: Writer, bytes: seq<Byte>, os: Answers)
    requires Consistent(w) && AfterWrite(true, w, bytes, os).ok
    ensures var total, chunks := AfterWrite(true, w, bytes, os).total, Chunks(bytes);
            total == if bytes == [] then 0 else Carried(w) + LateReports(chunks, os, |chunks| - 1)
  {
    ChunksMakeUp(bytes);
    ChunkAt(bytes, 0);
    if bytes != [] {
      OverlappedSum(w, Chunks(bytes), os, 0, 0, Carried(w));
      LastIsCarried(w, Chunks(bytes), os, 0, 0);
    }
  }

  /** The bytes of the first `n` chunks that no harvest ever reports. */
  function Unreported(chunks: seq<seq<Byte>>, os: Answers, n: nat): (r: nat)
    requires n <= |chunks|
  {
    if n == 0 then 0 else Unreported(chunks, os, n - 1) + |chunks[n - 1]| - LateReport(chunks[n - 1], os(n - 1))
  }

  lemma {:induction false} UnreportedIsRest(chunks: seq<seq<Byte>>, os: Answers, n: nat)
    requires n <= |chunks|
    ensures LateReports(chunks, os, n) + Unreported(chunks, os, n) == |Flatten(chunks[..n])|
  {
    if n > 0 {
      UnreportedIsRest(chunks, os, n - 1);
      FlattenSnoc(chunks[..n - 1], chunks[n - 1]);
      assert chunks[..n] == chunks[..n - 1] + [chunks[n - 1]];
    }
  }

  /**
   The count of a successful overlapped call is its number of bytes exactly when the write it found makes up
   for its own last chunk and for everything unreported before; without such a write only for the empty text.
   */
  lemma OverlappedCountIsLength(w: Writer, bytes: seq<Byte>, os: Answers)
    requires Consistent(w) && AfterWrite(true, w, bytes, os).ok
    ensures var total, chunks := AfterWrite(true, w, bytes, os).total, Chunks(bytes);
            var last := |chunks| - 1;
            total == |bytes| <==> bytes == [] || Carried(w) == |chunks[last]| + Unreported(chunks, os, last)
    ensures !w.pending ==> (AfterWrite(true, w, bytes, os).total == |bytes| <==> bytes == [])
  {
    OverlappedCounts(w, bytes, os);
    if bytes != [] {
      LastAndRest(bytes, os);
    }
  }

  /** The first `n` chunks are deferred and complete in full. */
  predicate AllLate(chunks: seq<seq<Byte>>, os: Answers, n: nat)
    requires n <= |chunks|
  {
    forall k :: 0 <= k < n ==> LateReport(chunks[k], os(k)) == |chunks[k]|
  }

  lemma {:induction false} NothingUnreported(chunks: seq<seq<Byte>>, os: Answers, n: nat)
    requires n <= |chunks|
    ensures Unreported(chunks, os, n) == 0 <==> AllLate(chunks, os, n)
  {
    if n > 0 {
      NothingUnreported(chunks, os, n - 1);
    }
  }

  lemma {:induction false} FullChunks(bytes: seq<Byte>, n: nat)
    requires n < |Chunks(bytes)|
    ensures |Flatten(Chunks(bytes)[..n])| == n * CHUNK_SIZE < |bytes|
  {
    var chunks := Chunks(bytes);
    ChunkAt(bytes, n);
    if n > 0 {
      FullChunks(bytes, n - 1);
      ChunkAt(bytes, n - 1);
      FlattenSnoc(chunks[..n - 1], chunks[n - 1]);
      assert chunks[..n] == chunks[..n - 1] + [chunks[n - 1]];
    }
  }

  /** The bytes of all chunks but the last. */
  function BeforeLast(bytes: seq<Byte>): (n: nat)
    requires bytes != []
  {
    (|bytes| - 1) / CHUNK_SIZE * CHUNK_SIZE
  }

  lemma ChunksBeforeLast(bytes: seq<Byte>)
    requires bytes != []
    ensures Chunks(bytes) != [] && BeforeLast(bytes) == (|Chunks(bytes)| - 1) * CHUNK_SIZE
    ensures |Flatten(Chunks(bytes)[..|Chunks(bytes)| - 1])| == BeforeLast(bytes)
  {
    ChunkAt(bytes, 0);
    var n := |Chunks(bytes)|;
    ChunkAt(bytes, n - 1);
    ChunkAt(bytes, n);
    FullChunks(bytes, n - 1);
    assert (|bytes| - 1) / CHUNK_SIZE == n - 1;
  }

  /**
   In closed form: at most what was carried over and all full chunks before the last, and exactly that if
   and only if these are deferred and complete in full.
   */
  lemma OverlappedClosedForm(w: Writer, bytes: seq<Byte>, os: Answers)
    requires Consistent(w) && AfterWrite(true, w, bytes, os).ok && bytes != []
    ensures var total, chunks := AfterWrite(true, w, bytes, os).total, Chunks(bytes);
            && chunks != []
            && total <= Carried(w) + BeforeLast(bytes)
            && (total == Carried(w) + BeforeLast(bytes) <==> AllLate(chunks, os, |chunks| - 1))
  {
    var chunks := Chunks(bytes);
    OverlappedCounts(w, bytes, os);
    ChunksBeforeLast(bytes);
    UnreportedIsRest(chunks, os, |chunks| - 1);
    NothingUnreported(chunks, os, |chunks| - 1);
  }

  /** A successful overlapped call of one chunk counts the write before it, whatever its own text. */
  lemma OneChunkCountsCarried(w: Writer, bytes: seq<Byte>, os: Answers, promised: nat)
    requires Consistent(w) && AfterWrite(true, w, bytes, os).ok && 0 < |bytes| <= CHUNK_SIZE
    ensures AfterWrite(true, w, bytes, os).total == Carried(w)
    ensures promised > 0 ==>
            (AfterWrite(true, w, bytes, os).total == promised <==> w.pending && Harvest(w.pipe) == promised)
  {
    OverlappedCounts(w, bytes, os);
    ChunkAt(bytes, 0);
    ChunkAt(bytes, 1);
  }

  // ----- Characters and bytes

  predicate Ascii(text: seq<CodeUnit>) { forall i :: 0 <= i < |text| ==> text[i] < 0x80 }

  /** A character has as many bytes as units, or as many as characters, exactly if it is ASCII. */
  lemma BytesOfCharacter(text: seq<CodeUnit>)
    requires text != []
    ensures var (c, n) := Head16(text);
            && 1 <= n <= |Bytes(c)|
            && (|Bytes(c)| == n <==> Ascii(text[..n])) && (|Bytes(c)| == 1 <==> Ascii(text[..n]))
  {
    var (c, n) := Head16(text);
    assert text[..n][0] == text[0];
  }

  lemma AsciiConcat(a: seq<CodeUnit>, b: seq<CodeUnit>)
    ensures Ascii(a + b) <==> Ascii(a) && Ascii(b)
  {
    assert forall i :: 0 <= i < |b| ==> b[i] == (a + b)[|a| + i];
    assert forall i :: 0 <= i < |a| ==> a[i] == (a + b)[i];
  }

  /** A text has as many bytes as units, or as many as characters, exactly if it is ASCII. */
  lemma {:induction false} BytesPerUnit(text: seq<CodeUnit>)
    ensures |Scalars16(text)| <= |text| <= |Encode(text)|
    ensures |Encode(text)| == |text| <==> Ascii(text)
    ensures |Encode(text)| == |Scalars16(text)| <==> Ascii(text)
  {
    if text != [] {
      var n := Head16(text).1;
      EncodeStep(text);
      BytesPerUnit(text[n..]);
      BytesOfCharacter(text);
      AsciiConcat(text[..n], text[n..]);
      assert text == text[..n] + text[n..];
    }
  }

  /**
   The documentation promises the number of characters, the code counts bytes. For a synchronous call whose
   chunks were written in full the two agree exactly when the text is ASCII and can be sized, whether units or
   code points are counted.
   */
  lemma SynchronousCountsCharacters(w: Writer, text: seq<CodeUnit>, os: Answers)
    requires Consistent(w) && !w.pending
    requires AfterWrite(false, w, WireBytes(text), os).ok && CutsNothing(WireBytes(text), os)
    ensures var total := AfterWrite(false, w, WireBytes(text), os).total;
            && (total == |text| <==> Ascii(text) && Sizable(text))
            && (total == |Scalars16(text)| <==> Ascii(text) && Sizable(text))
  {
    SynchronousCounts(w, WireBytes(text), os);
    BytesPerUnit(text);
    if text != [] {
      assert Scalars16(text) != [];
    }
  }

  /** The bytes a text has beyond one for each unit. */
  function Surplus(text: seq<CodeUnit>): (n: nat) {
    BytesPerUnit(text);
    |Encode(text)| - |text|
  }

  /**
   For an overlapped call, from any state, the count is the number of units exactly when the write it found
   and the surplus of bytes over units make up for its own last chunk and for everything unreported before.
   If the chunks before the last are deferred and complete in full, that is a matter of sizes alone; and with
   nothing carried over an ASCII text is never counted right, but for the empty one.
   */
  lemma OverlappedCountsCharacters(w: Writer, text: seq<CodeUnit>, os: Answers)
    requires Consistent(w) && AfterWrite(true, w, WireBytes(text), os).ok
    ensures var total, bytes := AfterWrite(true, w, WireBytes(text), os).total, WireBytes(text);
            var chunks := Chunks(bytes);
            var last := |chunks| - 1;
            && (!Sizable(text) ==> total == 0)
            && (Sizable(text) && text != [] ==>
                && bytes != [] && last >= 0
                && (total == |text| <==> Carried(w) + Surplus(text) == |chunks[last]| + Unreported(chunks, os, last))
                && (AllLate(chunks, os, last) ==> (total == |text| <==> Carried(w) + BeforeLast(bytes) == |text|)))
            && (Ascii(text) && !w.pending ==> (total == |text| <==> text == []))
  {
    var bytes := WireBytes(text);
    BytesPerUnit(text);
    OverlappedCounts(w, bytes, os);
    if bytes != [] {
      OverlappedClosedForm(w, bytes, os);
      LastAndRest(bytes, os);
    }
  }

  /** A buffer is what its late chunks before the last report, what is unreported of these, and its last chunk. */
  lemma LastAndRest(bytes: seq<Byte>, os: Answers)
    requires bytes != []
    ensures var chunks := Chunks(bytes);
            var last := |chunks| - 1;
            last >= 0 && |chunks[last]| > 0 &&
            |bytes| == LateReports(chunks, os, last) + Unreported(chunks, os, last) + |chunks[last]|
  {
    ChunksMakeUp(bytes);
    ChunkAt(bytes, 0);
    var chunks := Chunks(bytes);
    var last := |chunks| - 1;
    UnreportedIsRest(chunks, os, last);
    FlattenSnoc(chunks[..last], chunks[last]);
    assert chunks == chunks[..last] + [chunks[last]];
  }

  // ----- The ledger

  /**
   An overlapped call adds to its total exactly what its harvests report, at most what completed. What it
   defers is at most its own bytes, and only a failing call finds a write failed.
   */
  lemma {:induction false} OverlappedAccounts(w: Writer, chunks: seq<seq<Byte>>, os: Answers, i: nat, total: nat)
    requires i <= |chunks| && ChunkSized(chunks) && Consistent(w)
    ensures var o := AfterChunks(true, w, chunks, os, i, total);
            var p, q := w.pipe, o.writer.pipe;
            && o.total - total == q.reported - p.reported
            && 0 <= q.reported - p.reported <= q.completed - p.completed
            && p.pended <= q.pended <= p.pended + |Flatten(chunks[i..])|
            && p.failed <= q.failed && (o.ok ==> q.failed == p.failed)
    decreases |chunks| - i
  {
    if i < |chunks| {
      var o := AfterChunk(true, w, chunks[i], os(i));
      ChunkKeepsConsistent(true, w, chunks[i], os(i));
      ChunkAccounts(w, chunks[i], os(i));
      assert chunks[i..][1..] == chunks[i + 1..];
      if o.ok {
        OverlappedAccounts(o.writer, chunks, os, i + 1, total + o.total);
      }
    }
  }

  lemma ChunkAccounts(w: Writer, chunk: seq<Byte>, a: WriteAnswer)
    requires Consistent(w)
    ensures var o := AfterChunk(true, w, chunk, a);
            var p, q := w.pipe, o.writer.pipe;
            && o.total == q.reported - p.reported && q.reported - p.reported <= q.completed - p.completed
            && p.pended <= q.pended <= p.pended + |chunk|
            && p.failed <= q.failed && (o.ok ==> q.failed == p.failed)
  {
  }

  /** An overlapped call counts at most its own bytes and the one chunk carried over from an earlier call. */
  lemma OverlappedBound(w: Writer, bytes: seq<Byte>, os: Answers)
    requires Consistent(w)
    ensures AfterWrite(true, w, bytes, os).total <= InFlight(w.pipe.outstanding) + |bytes| <= CHUNK_SIZE + |bytes|
  {
    ChunksMakeUp(bytes);
    assert Chunks(bytes)[0..] == Chunks(bytes);
    OverlappedAccounts(w, Chunks(bytes), os, 0, 0);
    WriteKeepsConsistent(true, w, Chunks(bytes), os, 0, 0);
  }

  datatype Call = Call(text: seq<CodeUnit>, os: Answers)

  /** `returned` sums the counts of successful calls, `lost` the counts inside calls that then failed. */
  datatype Tally = Tally(writer: Writer, returned: nat, lost: nat)

  function AfterCalls(overlapped: bool, t: Tally, calls: seq<Call>): (r: Tally)
    decreases |calls|
  {
    if calls == [] then t
    else
      var o := AfterWrite(overlapped, t.writer, WireBytes(calls[0].text), calls[0].os);
      AfterCalls(overlapped,
        Tally(o.writer, t.returned + if o.ok then o.total else 0, t.lost + if o.ok then 0 else o.total), calls[1..])
  }

  predicate Balanced(t: Tally) {
    && Consistent(t.writer) && t.writer.pipe.reported == t.returned + t.lost
    && t.writer.pipe.reported <= t.writer.pipe.completed
  }

  /** Over any calls on an overlapped pipe, what harvests report is returned by a call or lost in a failing one. */
  lemma {:induction false} CallsKeepBalance(t: Tally, calls: seq<Call>)
    requires Balanced(t)
    ensures Balanced(AfterCalls(true, t, calls))
    decreases |calls|
  {
    if calls != [] {
      var chunks, os := Chunks(WireBytes(calls[0].text)), calls[0].os;
      ChunksMakeUp(WireBytes(calls[0].text));
      OverlappedAccounts(t.writer, chunks, os, 0, 0);
      WriteKeepsConsistent(true, t.writer, chunks, os, 0, 0);
      var o := AfterChunks(true, t.writer, chunks, os, 0, 0);
      CallsKeepBalance(
        Tally(o.writer, t.returned + if o.ok then o.total else 0, t.lost + if o.ok then 0 else o.total), calls[1..]);
    }
  }

  /** Every deferred byte was returned, lost in a failing call, left out of a report, found failed, or is in flight. */
  predicate Accounted(t: Tally) {
    var p := t.writer.pipe;
    && p.pended == t.returned + t.lost + (p.completed - p.reported) + p.failed + InFlight(p.outstanding)
    && p.reported <= p.completed
    && |p.outstanding| == (if t.writer.pending then 1 else 0)
  }

  lemma BalancedIsAccounted(t: Tally)
    requires Balanced(t)
    ensures Accounted(t)
  {
  }

  /** The ledger of an overlapped pipe after any calls, in any mixture of success and failure. */
  lemma OverlappedLedger(calls: seq<Call>)
    ensures Accounted(AfterCalls(true, Tally(FRESH, 0, 0), calls))
  {
    var start := Tally(FRESH, 0, 0);
    CallsKeepBalance(start, calls);
    BalancedIsAccounted(AfterCalls(true, start, calls));
  }
}

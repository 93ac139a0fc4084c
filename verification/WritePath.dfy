/**
 `PTYProcess::write` of src/pty/base.rs: encode, cut into chunks, write under a mutex. A console pipe is
 overlapped: at most one write may be outstanding, and the one a call leaves is harvested by the next.
 `Pipe` is the operating system's side of these calls, `Writer` adds the flag kept in the mutex, and
 `AfterChunk` is one turn of the chunk loop.
 */
module WritePath {
  import opened Sequences
  import opened Unicode

  newtype U32 = x: int | 0 <= x < 0x1_0000_0000

  const CHUNK_SIZE: nat := 8192

  /** `WideCharToMultiByte` answers an `i32`. */
  const I32_MAX: nat := 0x7FFF_FFFF

  /** How a deferred write will end: how many bytes get through, and whether the wait for it succeeds. */
  datatype Fate = Completes(count: nat) | Fails(count: nat)

  /**
   The answer to a `WriteFile`, with the number of bytes that get through. The code sees the count of
   `Written`, the count of a completed deferred write when it is harvested, and no count of a failure.
   */
  datatype WriteAnswer = Written(count: nat) | Pending(fate: Fate) | Refused(count: nat)

  /** The answers to the successive chunks of one call. */
  type Answers = nat -> WriteAnswer

  datatype LateWrite = LateWrite(chunk: seq<Byte>, fate: Fate)

  /**
   The deferred writes in flight; the bytes delivered by writes that have ended; and byte totals over the
   deferred chunks: all, those later found complete, those found failed, and what was reported of the complete ones.
   */
  datatype Pipe = Pipe(
    outstanding: seq<LateWrite>, delivered: seq<Byte>, pended: nat, completed: nat, failed: nat, reported: nat)

  function Min(a: nat, b: nat): nat { if a < b then a else b }

  function Count(a: WriteAnswer): (n: nat) {
    match a
    case Written(n) => n
    case Pending(fate) => fate.count
    case Refused(n) => n
  }

  /** What gets through of a chunk: never more than the chunk. */
  function Through(chunk: seq<Byte>, count: nat): (b: seq<Byte>)
    ensures |b| == Min(count, |chunk|) && b <= chunk
  {
    chunk[..Min(count, |chunk|)]
  }

  /** A chunk given to `WriteFile`. */
  function Given(p: Pipe, chunk: seq<Byte>, a: WriteAnswer): (q: Pipe) {
    match a
    case Pending(fate) => p.(outstanding := p.outstanding + [LateWrite(chunk, fate)], pended := p.pended + |chunk|)
    case _ => p.(delivered := p.delivered + Through(chunk, Count(a)))
  }

  /** What the wait for the oldest outstanding write reports. */
  function Harvest(p: Pipe): (n: nat) {
    if p.outstanding != [] && p.outstanding[0].fate.Completes?
    then Min(p.outstanding[0].fate.count, |p.outstanding[0].chunk|)
    else 0
  }

  predicate HarvestSucceeds(p: Pipe) { p.outstanding != [] && p.outstanding[0].fate.Completes? }

  /** The pipe when that wait is over. */
  function Settled(p: Pipe): (q: Pipe) {
    if p.outstanding == [] then p
    else
      var d := p.outstanding[0];
      var r := p.(outstanding := p.outstanding[1..], delivered := p.delivered + Through(d.chunk, d.fate.count));
      if d.fate.Completes? then r.(completed := p.completed + |d.chunk|, reported := p.reported + Harvest(p))
      else r.(failed := p.failed + |d.chunk|)
  }

  function InFlight(ds: seq<LateWrite>): (n: nat) { if ds == [] then 0 else |ds[0].chunk| + InFlight(ds[1..]) }

  function Arriving(ds: seq<LateWrite>): (b: seq<Byte>) {
    if ds == [] then [] else Through(ds[0].chunk, ds[0].fate.count) + Arriving(ds[1..])
  }

  /** The bytes that have arrived in the pipe when nothing is in flight any more, in order. */
  function Stream(p: Pipe): (b: seq<Byte>) { p.delivered + Arriving(p.outstanding) }

  datatype Writer = Writer(pending: bool, pipe: Pipe)

  const FRESH := Writer(false, Pipe([], [], 0, 0, 0, 0))

  /** The flag is set exactly while a deferred write is unharvested, and there is at most one such write. */
  predicate Consistent(w: Writer) {
    && |w.pipe.outstanding| == (if w.pending then 1 else 0)
    && InFlight(w.pipe.outstanding) <= CHUNK_SIZE
    && w.pipe.pended == w.pipe.completed + w.pipe.failed + InFlight(w.pipe.outstanding)
  }

  /** How a turn or a call ended: the writer, the bytes added to the total, and whether it succeeded. */
  datatype Outcome = Outcome(writer: Writer, total: nat, ok: bool)

  /** The first half of a turn: wait for the outstanding write, if the flag asks for it. */
  function AfterHarvest(w: Writer): (o: Outcome) {
    if w.pending then Outcome(Writer(false, Settled(w.pipe)), Harvest(w.pipe), HarvestSucceeds(w.pipe))
    else Outcome(w, 0, true)
  }

  /** A pipe that is not overlapped defers nothing: there, that answer is an error too. */
  function Seen(overlapped: bool, a: WriteAnswer): (b: WriteAnswer)
    ensures Count(b) == Count(a)
  {
    if a.Pending? && !overlapped then Refused(Count(a)) else a
  }

  /** One turn of the chunk loop. */
  function AfterChunk(overlapped: bool, w: Writer, chunk: seq<Byte>, a: WriteAnswer): (o: Outcome) {
    var answer := Seen(overlapped, a);
    if overlapped then
      var h := AfterHarvest(w);
      if !h.ok then h
      else Outcome(Writer(answer.Pending?, Given(h.writer.pipe, chunk, answer)), h.total, !answer.Refused?)
    else
      Outcome(w.(pipe := Given(w.pipe, chunk, answer)),
        if answer.Written? then Min(answer.count, |chunk|) else 0, answer.Written?)
  }

  /** The chunk loop from chunk `i` on, with `total` bytes counted so far. */
  function AfterChunks(overlapped: bool, w: Writer, chunks: seq<seq<Byte>>, os: Answers, i: nat, total: nat)
    : (o: Outcome)
    requires i <= |chunks|
    decreases |chunks| - i
  {
    if i == |chunks| then Outcome(w, total, true)
    else
      var o := AfterChunk(overlapped, w, chunks[i], os(i));
      if o.ok then AfterChunks(overlapped, o.writer, chunks, os, i + 1, total + o.total)
      else o.(total := total + o.total)
  }

  /** `chunks(BUFFER_SIZE)` */
  function Chunks(bytes: seq<Byte>): (chunks: seq<seq<Byte>>)
    decreases |bytes|
  {
    if bytes == [] then []
    else
      var n := Min(CHUNK_SIZE, |bytes|);
      [bytes[..n]] + Chunks(bytes[n..])
  }

  function AfterWrite(overlapped: bool, w: Writer, bytes: seq<Byte>, os: Answers): (o: Outcome) {
    AfterChunks(overlapped, w, Chunks(bytes), os, 0, 0)
  }

  /** A text whose encoding an `i32` can size. */
  predicate Sizable(text: seq<CodeUnit>) { |Encode(text)| <= I32_MAX }

  /** The bytes a call writes: a text that cannot be sized is sized 0 and writes nothing. */
  function WireBytes(text: seq<CodeUnit>): (b: seq<Byte>)
    ensures |b| <= I32_MAX
  {
    if Sizable(text) then Encode(text) else []
  }

  /** Every text whose encoding has less than 2 ^ 31 bytes is written, and so every text of up to 715827882 units. */
  lemma WireBytesTable(text: seq<CodeUnit>)
    ensures WireBytes(text) == if |Encode(text)| < 0x8000_0000 then Encode(text) else []
    ensures |text| <= 715_827_882 ==> WireBytes(text) == Encode(text)
  {
    EncodingSize(text);
  }

  // ----- Chunks

  /** Chunks are nonempty, of at most 8192 bytes, and make up the buffer. */
  lemma {:induction false} ChunksMakeUp(bytes: seq<Byte>)
    ensures Flatten(Chunks(bytes)) == bytes
    ensures forall k :: 0 <= k < |Chunks(bytes)| ==> 0 < |Chunks(bytes)[k]| <= CHUNK_SIZE
    decreases |bytes|
  {
    if bytes != [] {
      var n := Min(CHUNK_SIZE, |bytes|);
      ChunksMakeUp(bytes[n..]);
      assert bytes == bytes[..n] + bytes[n..];
      assert Chunks(bytes)[1..] == Chunks(bytes[n..]);
    }
  }

  /** The `i`-th chunk starts at `i * 8192`. */
  lemma {:induction false} ChunkAt(bytes: seq<Byte>, i: nat)
    ensures i < |Chunks(bytes)| <==> i * 8192 < |bytes|
    ensures i < |Chunks(bytes)| ==> Chunks(bytes)[i] == bytes[i * 8192..Min((i + 1) * 8192, |bytes|)]
    decreases |bytes|
  {
    if bytes != [] && i > 0 {
      var n := Min(CHUNK_SIZE, |bytes|);
      ChunkAt(bytes[n..], i - 1);
    }
  }

  /** The slice that ends at `end` is the `i`-th chunk, and `end` is where the next one starts, if there is one. */
  lemma ChunkSlice(bytes: seq<Byte>, i: nat, start: nat, end: nat)
    requires start == i * CHUNK_SIZE < |bytes| && end == start + Min(CHUNK_SIZE, |bytes| - start)
    ensures i < |Chunks(bytes)| && Chunks(bytes)[i] == bytes[start..end]
    ensures end == Min((i + 1) * CHUNK_SIZE, |bytes|) && (i + 1 < |Chunks(bytes)| <==> end < |bytes|)
  {
    ChunkAt(bytes, i);
    ChunkAt(bytes, i + 1);
  }

  // ----- The imperative form

  datatype WriteResult = Total(count: U32) | Error

  class PtyWriter {
    const overlapped: bool
    var writePending: bool
    /** The state of the operating system, which only the two foreign calls touch. */
    var pipe: Pipe

    ghost function State(): Writer
      reads this
    {
      Writer(writePending, pipe)
    }

    constructor (overlapped: bool)
      ensures State() == FRESH && this.overlapped == overlapped
    {
      this.overlapped := overlapped;
      writePending := false;
      pipe := FRESH.pipe;
    }

    /** The foreign call. */
    method WriteFile(chunk: seq<Byte>, a: WriteAnswer) returns (answer: WriteAnswer)
      modifies this`pipe
      ensures answer == Seen(overlapped, a)
      ensures pipe == Given(old(pipe), chunk, answer)
    {
      answer := Seen(overlapped, a);
      pipe := Given(pipe, chunk, answer);
    }

    /** The foreign call that waits for the overlapped write in flight. */
    method GetOverlappedResult() returns (ok: bool, count: nat)
      requires pipe.outstanding != []
      modifies this`pipe
      ensures ok == HarvestSucceeds(old(pipe)) && count == Harvest(old(pipe))
      ensures pipe == Settled(old(pipe))
    {
      ok, count := HarvestSucceeds(pipe), Harvest(pipe);
      pipe := Settled(pipe);
    }

    /** The body of the chunk loop, with the amount it adds to the running total. */
    method WriteChunk(chunk: seq<Byte>, a: WriteAnswer) returns (ok: bool, added: U32)
      requires Consistent(State()) && |chunk| <= CHUNK_SIZE
      modifies this
      ensures Consistent(State())
      ensures AfterChunk(overlapped, old(State()), chunk, a) == Outcome(State(), added as int, ok)
      ensures added as int <= CHUNK_SIZE
    {
      ChunkKeepsConsistent(overlapped, State(), chunk, a);
      ok, added := false, 0;
      if overlapped {
        if writePending {
          writePending := false;
          var harvested, count := GetOverlappedResult();
          if !harvested { return; }
          added := count as U32;
        }
        var answer := WriteFile(chunk, a);
        if answer.Refused? { return; }
        if answer.Pending? { writePending := true; }
      } else {
        var answer := WriteFile(chunk, a);
        if !answer.Written? { return; }
        added := Min(answer.count, |chunk|) as U32;
      }
      ok := true;
    }

    /** The chunk loop. The running total fits a `u32` because the encoder sized the bytes by an `i32`. */
    method WriteBytes(bytes: seq<Byte>, os: Answers) returns (r: WriteResult)
      requires Consistent(State()) && |bytes| <= I32_MAX
      modifies this
      ensures Consistent(State())
      ensures var o := AfterWrite(overlapped, old(State()), bytes, os);
              State() == o.writer && r.Total? == o.ok && (r.Total? ==> r.count as int == o.total)
    {
      ghost var chunks := Chunks(bytes);
      var totalWritten: U32 := 0;
      var start, i := 0, 0;
      ChunkAt(bytes, 0);
      while start < |bytes|
        invariant Consistent(State())
        invariant start == Min(i * CHUNK_SIZE, |bytes|) && totalWritten as int <= i * CHUNK_SIZE
        invariant i <= |chunks| && (i < |chunks| <==> start < |bytes|)
        invariant AfterWrite(overlapped, old(State()), bytes, os) ==
                  AfterChunks(overlapped, State(), chunks, os, i, totalWritten as int)
        decreases |bytes| - start
      {
        var end := start + Min(CHUNK_SIZE, |bytes| - start);
        ChunkSlice(bytes, i, start, end);
        var ok, added := WriteChunk(bytes[start..end], os(i));
        if !ok { return Error; }
        totalWritten := totalWritten + added;
        start, i := end, i + 1;
      }
      r := Total(totalWritten);
    }

    /** `PTYProcess::write`, which holds the mutex during the whole loop. */
    method Write(text: seq<CodeUnit>, os: Answers) returns (r: WriteResult)
      requires Consistent(State())
      modifies this
      ensures Consistent(State())
      ensures var o := AfterWrite(overlapped, old(State()), WireBytes(text), os);
              State() == o.writer && r.Total? == o.ok && (r.Total? ==> r.count as int == o.total)
    {
      var buffer := EncodedBuffer(text);
      r := WriteBytes(buffer[..], os);
    }
  }

  // ----- The two passes of the encoder

  /** The first pass: the size of the encoding, 0 if an `i32` cannot hold it. */
  method RequiredSize(text: seq<CodeUnit>) returns (size: nat)
    ensures size == if |Encode(text)| < 0x8000_0000 then |Encode(text)| else 0
  {
    var i := 0;
    size := 0;
    assert text[0..] == text;
    while i < |text|
      invariant 0 <= i <= |text| && size <= I32_MAX && size + |Encode(text[i..])| == |Encode(text)|
    {
      var (c, n) := Head16(text[i..]);
      EncodeStep(text[i..]);
      assert text[i..][n..] == text[i + n..];
      size, i := size + |Bytes(c)|, i + n;
      if size > I32_MAX { return 0; }
    }
    assert text[i..] == [];
  }

  method StoreAt(buffer: array<Byte>, at: nat, b: seq<Byte>)
    requires at + |b| <= buffer.Length
    modifies buffer
    ensures buffer[..at + |b|] == old(buffer[..at]) + b
  {
    forall k | 0 <= k < |b| {
      buffer[at + k] := b[k];
    }
  }

  /** What is stored and what is still to be encoded make up the encoding. */
  lemma CharacterStored(text: seq<CodeUnit>, i: nat, stored: seq<Byte>)
    requires i < |text| && stored + Encode(text[i..]) == Encode(text)
    ensures var (c, n) := Head16(text[i..]);
            && |stored| + |Bytes(c)| <= |Encode(text)|
            && (stored + Bytes(c)) + Encode(text[i + n..]) == Encode(text)
  {
    var (c, n) := Head16(text[i..]);
    EncodeStep(text[i..]);
    assert text[i..][n..] == text[i + n..];
    Associative(stored, Bytes(c), Encode(text[i + n..]));
    assert |(stored + Bytes(c)) + Encode(text[i + n..])| == |stored| + |Bytes(c)| + |Encode(text[i + n..])|;
  }

  method StoreCharacter(text: seq<CodeUnit>, i: nat, buffer: array<Byte>, at: nat) returns (i': nat, at': nat)
    requires i < |text| && at <= buffer.Length == |Encode(text)|
    requires buffer[..at] + Encode(text[i..]) == Encode(text)
    modifies buffer
    ensures i < i' <= |text| && at <= at' <= buffer.Length
    ensures buffer[..at'] + Encode(text[i'..]) == Encode(text)
  {
    var (c, n) := Head16(text[i..]);
    CharacterStored(text, i, buffer[..at]);
    StoreAt(buffer, at, Bytes(c));
    i', at' := i + n, at + |Bytes(c)|;
  }

  /** The second pass: fill a buffer of exactly that size, character by character. */
  method FillBuffer(text: seq<CodeUnit>, buffer: array<Byte>)
    requires buffer.Length == |Encode(text)|
    modifies buffer
    ensures buffer[..] == Encode(text)
  {
    var i, at := 0, 0;
    assert text[0..] == text;
    while i < |text|
      invariant 0 <= i <= |text| && 0 <= at <= buffer.Length
      invariant buffer[..at] + Encode(text[i..]) == Encode(text)
    {
      i, at := StoreCharacter(text, i, buffer, at);
    }
    assert text[i..] == [];
    NothingAppended(buffer[..at]);
    assert buffer[..at] == buffer[..];
  }

  /**
   The buffer `write` cuts into chunks: well-formed UTF-8 that decodes to the text, unpaired surrogates
   replaced. It is empty only for the empty text and for one whose encoding has 2 ^ 31 bytes or more, which
   takes more than 715827882 units.
   */
  method EncodedBuffer(text: seq<CodeUnit>) returns (buffer: array<Byte>)
    ensures fresh(buffer) && buffer[..] == WireBytes(text)
    ensures buffer.Length < 0x8000_0000 && WellFormed8(buffer[..])
    ensures |Encode(text)| < 0x8000_0000 ==> buffer[..] == Encode(text) && Decode(buffer[..]) == Repair(text)
    ensures buffer.Length == 0 <==> text == [] || |Encode(text)| >= 0x8000_0000
    ensures |text| <= 715_827_882 ==> buffer[..] == Encode(text) && (buffer.Length == 0 ==> text == [])
  {
    var size := RequiredSize(text);
    buffer := new Byte[size](_ => 0);
    DecodeInvertsEncode(text);
    if size > 0 {
      FillBuffer(text, buffer);
    }
    EncodingSize(text);
    WireBytesTable(text);
  }

  // ----- What a call keeps

  lemma SettledOne(p: Pipe)
    requires |p.outstanding| == 1
    ensures Settled(p).outstanding == [] && Stream(Settled(p)) == Stream(p) == Settled(p).delivered
    ensures Settled(p).completed + Settled(p).failed == p.completed + p.failed + InFlight(p.outstanding)
    ensures Settled(p).pended == p.pended && Harvest(p) <= InFlight(p.outstanding)
  {
    var d := p.outstanding[0];
    assert p.outstanding == [d];
    NothingAppended(Through(d.chunk, d.fate.count));
    NothingAppended(Settled(p).delivered);
  }

  lemma GivenOne(p: Pipe, chunk: seq<Byte>, a: WriteAnswer)
    requires p.outstanding == []
    ensures Stream(Given(p, chunk, a)) == Stream(p) + Through(chunk, Count(a))
    ensures InFlight(Given(p, chunk, a).outstanding) == if a.Pending? then |chunk| else 0
    ensures |Given(p, chunk, a).outstanding| == if a.Pending? then 1 else 0
  {
    NothingAppended(p.delivered);
    NothingAppended(p.delivered + Through(chunk, Count(a)));
    NothingAppended(Through(chunk, Count(a)));
    if a.Pending? {
      var ds := Given(p, chunk, a).outstanding;
      assert ds == [LateWrite(chunk, a.fate)];
      assert Arriving(ds) == Through(chunk, Count(a)) + Arriving(ds[1..]);
    }
  }

  /** The writer once the flag's write is harvested. */
  lemma HarvestKeepsConsistent(w: Writer)
    requires Consistent(w)
    ensures var h := AfterHarvest(w);
            && Consistent(h.writer) && !h.writer.pending && h.writer.pipe.outstanding == []
            && Stream(h.writer.pipe) == Stream(w.pipe) && h.total <= CHUNK_SIZE
  {
    if w.pending {
      SettledOne(w.pipe);
    }
  }

  lemma ChunkKeepsConsistent(overlapped: bool, w: Writer, chunk: seq<Byte>, a: WriteAnswer)
    requires Consistent(w) && |chunk| <= CHUNK_SIZE
    ensures Consistent(AfterChunk(overlapped, w, chunk, a).writer)
    ensures AfterChunk(overlapped, w, chunk, a).total <= CHUNK_SIZE
  {
    if overlapped {
      HarvestKeepsConsistent(w);
      GivenOne(AfterHarvest(w).writer.pipe, chunk, Seen(overlapped, a));
    }
  }

  predicate ChunkSized(chunks: seq<seq<Byte>>) { forall k :: 0 <= k < |chunks| ==> 0 < |chunks[k]| <= CHUNK_SIZE }

  /** A call keeps the flag and the deferred writes in step, whether it succeeds or not. */
  lemma {:induction false} WriteKeepsConsistent(
    overlapped: bool, w: Writer, chunks: seq<seq<Byte>>, os: Answers, i: nat, total: nat)
    requires i <= |chunks| && ChunkSized(chunks) && Consistent(w)
    ensures Consistent(AfterChunks(overlapped, w, chunks, os, i, total).writer)
    decreases |chunks| - i
  {
    if i < |chunks| {
      var o := AfterChunk(overlapped, w, chunks[i], os(i));
      ChunkKeepsConsistent(overlapped, w, chunks[i], os(i));
      if o.ok {
        WriteKeepsConsistent(overlapped, o.writer, chunks, os, i + 1, total + o.total);
      }
    }
  }
}

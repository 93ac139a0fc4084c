/** Calls of `write` whose count, or whose success, does not mean what a caller would take it to mean. */
module WriteWitnesses {
  import opened Unicode
  import opened WritePath

  const LETTER: seq<CodeUnit> := [65]
  const ACCENT: seq<CodeUnit> := [0xE9]

  lemma LetterBytes()
    ensures Encode(LETTER) == [65] && Chunks([65]) == [[65]]
  {
    EncodeStep(LETTER);
    assert LETTER[1..] == [];
    assert [65][..1] == [65] && [65][1..] == [];
  }

  lemma AccentBytes()
    ensures Encode(ACCENT) == [0xC3, 0xA9] && Chunks([0xC3, 0xA9]) == [[0xC3, 0xA9]]
  {
    EncodeStep(ACCENT);
    assert ACCENT[1..] == [];
    var b: seq<Byte> := [0xC3, 0xA9];
    assert b[..2] == b && b[2..] == [];
  }

  /** A synchronous call of one character counts two. */
  lemma AccentCountsTwice() returns (os: Answers)
    ensures var o := AfterWrite(false, FRESH, WireBytes(ACCENT), os); o.ok && o.total == 2 && |ACCENT| == 1
  {
    AccentBytes();
    os := (_: nat) => Written(2);
    var bytes: seq<Byte> := [0xC3, 0xA9];
    var o := AfterChunk(false, FRESH, bytes, os(0));
    assert AfterChunks(false, o.writer, [bytes], os, 1, 2) == Outcome(o.writer, 2, true);
  }

  /** A synchronous call succeeds, and nothing arrives. */
  lemma ShortWriteIsLost() returns (os: Answers)
    ensures var o := AfterWrite(false, FRESH, WireBytes(LETTER), os);
            o.ok && o.total == 0 && Stream(o.writer.pipe) == []
  {
    LetterBytes();
    os := (_: nat) => Written(0);
    var o := AfterChunk(false, FRESH, [65], os(0));
    assert AfterChunks(false, o.writer, [[65]], os, 1, 0) == Outcome(o.writer, 0, true);
  }

  /** An overlapped call succeeds and counts nothing, because its write is deferred; that fails, and nothing arrives. */
  lemma DeferredWriteIsLost() returns (os: Answers)
    ensures var o := AfterWrite(true, FRESH, WireBytes(LETTER), os);
            && o.ok && o.total == 0 && o.writer.pending && Stream(o.writer.pipe) == []
            && !AfterWrite(true, o.writer, WireBytes(LETTER), os).ok
  {
    LetterBytes();
    os := (_: nat) => Pending(Fails(0));
    var o := AfterChunk(true, FRESH, [65], os(0));
    assert o.writer.pipe.outstanding == [LateWrite([65], Fails(0))];
    assert AfterChunks(true, o.writer, [[65]], os, 1, 0) == Outcome(o.writer, 0, true);
    assert !AfterChunk(true, o.writer, [65], os(0)).ok;
  }

  /** The same call twice, deferred and completed in full: the first counts nothing, the second counts the first. */
  lemma SecondCallCountsFirst() returns (os: Answers)
    ensures var o := AfterWrite(true, FRESH, WireBytes(LETTER), os);
            && o.ok && o.total == 0
            && AfterWrite(true, o.writer, WireBytes(LETTER), os).ok
            && AfterWrite(true, o.writer, WireBytes(LETTER), os).total == 1
  {
    LetterBytes();
    os := (_: nat) => Pending(Completes(1));
    var o := AfterChunk(true, FRESH, [65], os(0));
    assert o.writer.pipe.outstanding == [LateWrite([65], Completes(1))];
    assert AfterChunks(true, o.writer, [[65]], os, 1, 0) == Outcome(o.writer, 0, true);
    var p := AfterChunk(true, o.writer, [65], os(0));
    assert AfterChunks(true, p.writer, [[65]], os, 1, 1) == Outcome(p.writer, 1, true);
  }

  function Accents(n: nat): (text: seq<CodeUnit>)
    ensures |text| == n
  {
    if n == 0 then [] else ACCENT + Accents(n - 1)
  }

  lemma {:induction false} AccentsBytes(n: nat)
    ensures |Encode(Accents(n))| == 2 * n
  {
    if n > 0 {
      EncodeStep(Accents(n));
      AccentsBytes(n - 1);
      assert Accents(n)[1..] == Accents(n - 1);
    }
  }

  /**
   An overlapped call of two chunks counts its characters right by accident: the one chunk it harvests has as
   many bytes as the text has characters.
   */
  lemma RightByAccident() returns (text: seq<CodeUnit>, os: Answers)
    ensures var o := AfterWrite(true, FRESH, WireBytes(text), os);
            o.ok && o.total == |text| == CHUNK_SIZE && |WireBytes(text)| == 2 * CHUNK_SIZE
  {
    text, os := Accents(CHUNK_SIZE), (_: nat) => Pending(Completes(CHUNK_SIZE));
    AccentsBytes(CHUNK_SIZE);
    var bytes := WireBytes(text);
    ChunkAt(bytes, 0);
    ChunkAt(bytes, 1);
    ChunkAt(bytes, 2);
    TwoChunksCountOne(Chunks(bytes), os);
  }

  lemma TwoChunksCountOne(chunks: seq<seq<Byte>>, os: Answers)
    requires |chunks| == 2 && |chunks[0]| == CHUNK_SIZE && |chunks[1]| == CHUNK_SIZE
    requires os(0) == Pending(Completes(CHUNK_SIZE)) && os(1) == Pending(Completes(CHUNK_SIZE))
    ensures var o := AfterChunks(true, FRESH, chunks, os, 0, 0); o.ok && o.total == CHUNK_SIZE
  {
    var o := AfterChunk(true, FRESH, chunks[0], os(0));
    assert o.writer.pipe.outstanding == [LateWrite(chunks[0], Completes(CHUNK_SIZE))];
    var p := AfterChunk(true, o.writer, chunks[1], os(1));
    assert AfterChunks(true, p.writer, chunks, os, 2, CHUNK_SIZE) == Outcome(p.writer, CHUNK_SIZE, true);
    assert AfterChunks(true, o.writer, chunks, os, 1, 0) == AfterChunks(true, p.writer, chunks, os, 2, CHUNK_SIZE);
  }
}

/** Write, then read: what the texts of reads have to do with the texts that were written. */
module RoundTrip {
  import opened Sequences
  import opened Unicode
  import opened ReadPath
  import opened WritePath
  import opened Delivery
  import opened SharedWriter

  lemma TextOfEncoding(text: seq<CodeUnit>)
    ensures WellFormed8(Encode(text))
    ensures Text(Encode(text)) == text <==> WellFormed16(text) && 0 !in text
  {
    DecodeInvertsEncode(text);
    TextIsStrippedDecoding(Encode(text));
    RepairIsIdentityOnWellFormed(text);
    StripIsIdentityOnNulFree(Repair(text));
    var r := Repair(text);
    if 0 in text {
      var i :| 0 <= i < |text| && text[i] == 0;
      assert r[i] == 0;
      StripShortens(r);
    }
  }

  lemma {:induction false} StripShortens(v: seq<CodeUnit>)
    ensures 0 in v ==> |StripNul(v)| < |v|
  {
    if v != [] {
      StripShortens(v[1..]);
      assert v == [v[0]] + v[1..];
    }
  }

  /**
   Write then read is the identity: a text comes back from its bytes, however they are cut into reads that
   begin on character boundaries, exactly when it is well formed, free of NULs and short enough to be sized.
   */
  lemma WriteThenRead(text: seq<CodeUnit>, pieces: seq<seq<Byte>>)
    requires Flatten(pieces) == WireBytes(text) && OnBoundaries(pieces)
    ensures TextOfReads(pieces) == text <==> WellFormed16(text) && 0 !in text && Sizable(text)
  {
    TextOfEncoding(text);
    ReadsMakeUpStream(pieces);
    assert text == [] ==> Sizable(text);
  }

  /** A text that survives on its own. */
  predicate Transparent(text: seq<CodeUnit>) { WellFormed16(text) && 0 !in text && Sizable(text) }

  predicate AllTransparent(log: seq<Entry>) { forall i :: 0 <= i < |log| ==> Transparent(log[i].text) }

  function Texts(log: seq<Entry>): (t: seq<CodeUnit>) {
    if log == [] then [] else Texts(log[..|log| - 1]) + log[|log| - 1].text
  }

  lemma {:induction false} WellFormedConcat(a: seq<Byte>, b: seq<Byte>)
    requires WellFormed8(a) && WellFormed8(b)
    ensures WellFormed8(a + b) && !CutInside(a, b)
    decreases |a|
  {
    if a == [] {
      assert a + b == b;
    } else {
      WellFormedConcat(a[Head8(a).1..], b);
      HeadOfWellFormed(a, b);
    }
  }

  lemma HeadOfWellFormed(a: seq<Byte>, b: seq<Byte>)
    requires a != [] && StartsWell(a)
    ensures StartsWell(a + b) && Head8(a + b) == Head8(a)
    ensures (a + b)[Head8(a).1..] == a[Head8(a).1..] + b
  {
    DropOfConcat(a, b, Head8(a).1);
  }

  /** Transparent texts encode to a well-formed stream without NULs whose text they are. */
  lemma {:induction false} EncodingsOfTransparent(log: seq<Entry>)
    requires AllTransparent(log)
    ensures WellFormed8(Encodings(log)) && Text(Encodings(log)) == Texts(log) && 0 !in Encodings(log)
  {
    if log != [] {
      var e := log[|log| - 1];
      EncodingsOfTransparent(log[..|log| - 1]);
      TextOfEncoding(e.text);
      NulFreeEncoding(e.text);
      WellFormedConcat(Encodings(log[..|log| - 1]), WireBytes(e.text));
      TextConcat(Encodings(log[..|log| - 1]), WireBytes(e.text));
    }
  }

  lemma {:induction false} NulFreeEncoding(text: seq<CodeUnit>)
    requires 0 !in text
    ensures 0 !in Encode(text)
  {
    if text != [] {
      EncodeStep(text);
      NulFreeEncoding(text[Head16(text).1..]);
    }
  }

  lemma {:induction false} ArrivedIsPartOf(turns: seq<Turn>, x: Byte)
    ensures x in Arrived(turns) ==> x in Offered(turns)
  {
    if turns != [] {
      ArrivedIsPartOf(turns[..|turns| - 1], x);
    }
  }

  lemma {:induction false} FlattenPrefixIsPartOf(chunks: seq<seq<Byte>>, n: nat, x: Byte)
    requires n <= |chunks|
    ensures x in Flatten(chunks[..n]) ==> x in Flatten(chunks)
  {
    if n > 0 {
      assert chunks[..n][1..] == chunks[1..][..n - 1];
      FlattenPrefixIsPartOf(chunks[1..], n - 1, x);
    }
  }

  lemma {:induction false} ContributionsArePartOf(log: seq<Entry>, x: Byte)
    requires AllReturned(log)
    ensures x in Contributions(log) ==> x in Encodings(log)
  {
    if log != [] {
      var e := log[|log| - 1];
      ContributionsArePartOf(log[..|log| - 1], x);
      ArrivedIsPartOf(e.turns, x);
      ChunksMakeUp(WireBytes(e.text));
      OfferedIsFlatten(e.turns, ChunksOf(e)[..|e.turns|]);
      FlattenPrefixIsPartOf(ChunksOf(e), |e.turns|, x);
    }
  }

  // ----- Well-formed bytes without NULs are determined by their text

  lemma {:induction false} Scalars16InvertsUnitsOf(cs: seq<Scalar>)
    ensures Scalars16(UnitsOf(cs)) == cs
  {
    if cs != [] {
      Scalars16InvertsUnitsOf(cs[1..]);
      HeadOfUnits(cs[0], UnitsOf(cs[1..]));
    }
  }

  lemma HeadOfUnits(c: Scalar, rest: seq<CodeUnit>)
    ensures Head16(Units(c) + rest) == (c, |Units(c)|) && (Units(c) + rest)[|Units(c)|..] == rest
  {
  }

  lemma {:induction false} DecodeWithoutNul(b: seq<Byte>)
    requires 0 !in b && WellFormed8(b)
    ensures 0 !in Decode(b)
    decreases |b|
  {
    if b != [] {
      DecodeStep(b);
      DecodeWithoutNul(b[Head8(b).1..]);
      assert Head8(b).0 != 0;
    }
  }

  lemma EncodeInvertsText(b: seq<Byte>)
    requires 0 !in b && WellFormed8(b)
    ensures Encode(Text(b)) == b
  {
    TextIsStrippedDecoding(b);
    DecodeWithoutNul(b);
    StripIsIdentityOnNulFree(Decode(b));
    Scalars16InvertsUnitsOf(Scalars8(b));
    BytesOfInvertsScalars8(b);
  }

  /** No replacement character among the reads: the pieces are well formed and begin on boundaries. */
  lemma {:induction false} UnreplacedReads(pieces: seq<seq<Byte>>)
    requires Replaced(TextOfReads(pieces)) == 0
    ensures WellFormed8(Flatten(pieces)) && OnBoundaries(pieces)
  {
    if pieces != [] {
      ReplacedConcat(Text(pieces[0]), TextOfReads(pieces[1..]));
      UnreplacedIsWellFormed(pieces[0]);
      UnreplacedReads(pieces[1..]);
      WellFormedConcat(pieces[0], Flatten(pieces[1..]));
      OnBoundariesCons(pieces);
    }
  }

  lemma {:induction false} UnreplacedText(t: seq<CodeUnit>)
    ensures Replaced(t) == 0 <==> REPLACEMENT !in t
  {
    if t != [] {
      UnreplacedText(t[1..]);
      assert t == [t[0]] + t[1..];
    }
  }

  /** Reads that yield a text without replacement characters have received its encoding, NULs apart. */
  lemma ReadsDetermineStream(pieces: seq<seq<Byte>>, stream: seq<Byte>)
    requires 0 !in Flatten(pieces) && 0 !in stream && WellFormed8(stream)
    requires TextOfReads(pieces) == Text(stream) && REPLACEMENT !in Text(stream)
    ensures Flatten(pieces) == stream && OnBoundaries(pieces)
  {
    UnreplacedText(Text(stream));
    UnreplacedReads(pieces);
    ReadsMakeUpStream(pieces);
    EncodeInvertsText(stream);
    EncodeInvertsText(Flatten(pieces));
  }

  /**
   The whole path, whenever nobody holds the mutex in a run of calls with texts that survive on their own.
   If no chunk was cut short, reading what arrives yields the texts in lock order exactly when every read
   begins on a character boundary. If the texts hold no replacement characters, it does so exactly when that
   and the former are the case. When the flag is clear, everything has arrived.
   */
  lemma ConcurrentWritesReadBack(overlapped: bool, states: seq<State>, steps: seq<Step>, n: nat, pieces: seq<seq<Byte>>)
    requires Run(overlapped, states, steps) && n < |states| && states[n].holder.Nobody?
    requires AllTransparent(states[n].log) && Flatten(pieces) == Stream(states[n].writer.pipe)
    ensures var s, complete := states[n], TextOfReads(pieces) == Texts(states[n].log);
            && (AllWhole(s.log) ==> (complete <==> OnBoundaries(pieces)))
            && (REPLACEMENT !in Texts(s.log) ==> (complete <==> AllWhole(s.log) && OnBoundaries(pieces)))
            && (!s.writer.pending ==> Stream(s.writer.pipe) == s.writer.pipe.delivered)
  {
    var s := states[n];
    WholeLogIsDelivered(overlapped, states, steps, n);
    WritesAreSerialised(overlapped, states, steps, n);
    NothingAppended(Contributions(s.log));
    NothingAppended(s.writer.pipe.delivered);
    EncodingsOfTransparent(s.log);
    ContributionsArePartOf(s.log, 0);
    if AllWhole(s.log) {
      ReadsMakeUpStream(pieces);
    } else if REPLACEMENT !in Texts(s.log) && TextOfReads(pieces) == Texts(s.log) {
      ReadsDetermineStream(pieces, Encodings(s.log));
    }
  }
}

/**
 The free function `read` of src/pty/base.rs: one `ReadFile` into a zeroed buffer of fixed size, a
 conversion of the whole buffer, and the removal of every NUL. `Text` is what one read yields for the
 bytes it got; the lemmas say when the texts of successive reads make up the text of the whole stream.
 */
module ReadPath {
  import opened Sequences
  import opened Unicode

  const BUFFER_SIZE: nat := 32768

  /** What one `ReadFile` can deliver. */
  type Filled = d: seq<Byte> | |d| <= BUFFER_SIZE

  /** The answers of `ReadFile` and, for a deferred read, of the wait and of the final status. */
  datatype FileAnswer = Done(data: Filled) | Failed | Deferred(waited: bool, succeeded: bool, later: Filled)

  datatype ReadResult = Ok(text: seq<CodeUnit>, more: bool) | Err

  // ----- NUL removal

  function StripNul(v: seq<CodeUnit>): (r: seq<CodeUnit>)
    ensures |r| <= |v|
  {
    if v == [] then [] else (if v[0] == 0 then [] else [v[0]]) + StripNul(v[1..])
  }

  /** `split(|x| x == &0)`: the pieces between the NULs, one more than there are NULs. */
  function SplitOnNul(v: seq<CodeUnit>): (parts: seq<seq<CodeUnit>>)
    ensures |parts| >= 1
  {
    if v == [] then [[]]
    else if v[0] == 0 then [[]] + SplitOnNul(v[1..])
    else var parts := SplitOnNul(v[1..]); [[v[0]] + parts[0]] + parts[1..]
  }

  /** `fold(acc, append)`. */
  function FoldAppend(acc: seq<CodeUnit>, parts: seq<seq<CodeUnit>>): (r: seq<CodeUnit>)
    decreases |parts|
  {
    if parts == [] then acc else FoldAppend(acc + parts[0], parts[1..])
  }

  lemma {:induction false} FoldFromAcc(acc: seq<CodeUnit>, parts: seq<seq<CodeUnit>>)
    ensures FoldAppend(acc, parts) == acc + FoldAppend([], parts)
    decreases |parts|
  {
    if parts != [] {
      FoldFromAcc(acc + parts[0], parts[1..]);
      FoldFromAcc([] + parts[0], parts[1..]);
      Associative(acc, parts[0], FoldAppend([], parts[1..]));
    }
  }

  /** Splitting on NUL and appending the pieces removes the NULs and nothing else. */
  lemma {:induction false} SplitFoldStrips(v: seq<CodeUnit>)
    ensures FoldAppend([], SplitOnNul(v)) == StripNul(v)
  {
    if v != [] {
      var parts := SplitOnNul(v[1..]);
      SplitFoldStrips(v[1..]);
      FoldFromAcc([] + parts[0], parts[1..]);
      if v[0] == 0 {
        assert SplitOnNul(v)[1..] == parts;
        FoldFromAcc([] + [], parts);
      } else {
        FoldFromAcc([] + ([v[0]] + parts[0]), parts[1..]);
        Associative([v[0]], parts[0], FoldAppend([], parts[1..]));
      }
    }
  }

  lemma {:induction false} StripConcat(a: seq<CodeUnit>, b: seq<CodeUnit>)
    ensures StripNul(a + b) == StripNul(a) + StripNul(b)
  {
    if a == [] {
      assert a + b == b;
    } else {
      StripConcat(a[1..], b);
      DropOfConcat(a, b, 1);
      Associative(if a[0] == 0 then [] else [a[0]], StripNul(a[1..]), StripNul(b));
    }
  }

  lemma {:induction false} StripIsIdentityOnNulFree(v: seq<CodeUnit>)
    ensures StripNul(v) == v <==> 0 !in v
  {
    if v != [] {
      StripIsIdentityOnNulFree(v[1..]);
      assert v == [v[0]] + v[1..];
    }
  }

  // ----- The text of one read

  /** The units a character contributes: none for NUL. */
  function Visible(c: Scalar): (u: seq<CodeUnit>)
    ensures |u| <= |Units(c)| && (c != 0 ==> |u| == |Units(c)|)
  {
    if c == 0 then [] else Units(c)
  }

  /** The text of the bytes one read delivered. */
  function Text(b: seq<Byte>): (t: seq<CodeUnit>)
    decreases |b|
  {
    if b == [] then [] else Visible(Head8(b).0) + Text(b[Head8(b).1..])
  }

  lemma {:induction false} TextIsStrippedDecoding(b: seq<Byte>)
    ensures Text(b) == StripNul(Decode(b))
    decreases |b|
  {
    if b != [] {
      var (c, n) := Head8(b);
      DecodeStep(b);
      TextIsStrippedDecoding(b[n..]);
      StripConcat(Units(c), Decode(b[n..]));
      StripIsIdentityOnNulFree(Units(c));
    }
  }

  function Zeros(k: nat): (z: seq<int>)
    ensures |z| == k && forall i :: 0 <= i < k ==> z[i] == 0
  {
    seq(k, i => 0)
  }

  lemma {:induction false} DecodeZeros(k: nat)
    ensures Decode(Zeros(k)) == Zeros(k)
  {
    if k > 0 {
      DecodeStep(Zeros(k));
      assert Zeros(k)[1..] == Zeros(k - 1);
      DecodeZeros(k - 1);
    }
  }

  lemma {:induction false} StripZeros(k: nat)
    ensures StripNul(Zeros(k)) == []
  {
    if k > 0 {
      assert Zeros(k)[1..] == Zeros(k - 1);
      StripZeros(k - 1);
    }
  }

  lemma {:induction false} ContinuationsBeforeZeros(b: seq<Byte>, k: nat)
    ensures Continuations(b + Zeros(k)) == Continuations(b)
  {
    if b == [] {
      assert b + Zeros(k) == Zeros(k);
    } else {
      DropOfConcat(b, Zeros(k), 1);
      ContinuationsBeforeZeros(b[1..], k);
    }
  }

  lemma StripPadded(v: seq<CodeUnit>, k: nat)
    ensures StripNul(v + Zeros(k)) == StripNul(v)
  {
    StripZeros(k);
    StripConcat(v, Zeros(k));
    NothingAppended(StripNul(v));
  }

  /** Zeros after the data never complete or spoil a character. */
  lemma HeadBeforeZeros(b: seq<Byte>, k: nat)
    requires b != []
    ensures Head8(b + Zeros(k)) == Head8(b)
  {
    DropOfConcat(b, Zeros(k), 1);
    ContinuationsBeforeZeros(b[1..], k);
    assert Fragment(b + Zeros(k)) == Fragment(b);
    if k > 0 {
      assert (b + Zeros(k))[|b|] == 0;
    } else {
      assert b + Zeros(k) == b;
    }
  }

  /** The zero tail of the buffer decodes to zeros and leaves the decoded data alone. */
  lemma {:induction false} DecodePadded(b: seq<Byte>, k: nat)
    ensures Decode(b + Zeros(k)) == Decode(b) + Zeros(k)
    decreases |b|
  {
    if b == [] {
      DecodeZeros(k);
      assert b + Zeros(k) == Zeros(k);
    } else {
      var n := Head8(b).1;
      HeadBeforeZeros(b, k);
      DecodeStep(b + Zeros(k));
      DecodeStep(b);
      DecodePadded(b[n..], k);
      DropOfConcat(b, Zeros(k), n);
      Associative(Units(Head8(b).0), Decode(b[n..]), Zeros(k));
    }
  }

  lemma {:induction false} DecodeFits(b: seq<Byte>)
    ensures |Decode(b)| <= |b|
    decreases |b|
  {
    if b != [] {
      DecodeStep(b);
      DecodeFits(b[Head8(b).1..]);
    }
  }

  lemma PaddedYieldsText(data: seq<Byte>, size: nat)
    requires |data| <= size
    ensures var wide := Decode(data + Zeros(size - |data|));
            |wide| <= size && StripNul(wide + Zeros(size - |wide|)) == Text(data)
  {
    var wide := Decode(data + Zeros(size - |data|));
    TextIsStrippedDecoding(data);
    DecodeFits(data + Zeros(size - |data|));
    DecodePadded(data, size - |data|);
    StripPadded(Decode(data), size - |data|);
    StripPadded(wide, size - |wide|);
  }

  /** `data` in the zeroed buffer. */
  function Padded(data: Filled): (b: seq<Byte>)
    ensures |b| == BUFFER_SIZE
  {
    data + Zeros(BUFFER_SIZE - |data|)
  }

  /**
   Whatever `data` a read delivers, the decoded buffer fits the 32768 units reserved for it,
   and stripping the NULs of those units leaves the text of the data.
   */
  lemma BufferYieldsText(data: Filled)
    ensures var wide := Decode(Padded(data));
            |Padded(data)| == 32768 && |wide| <= 32768 && StripNul(wide + Zeros(32768 - |wide|)) == Text(data)
  {
    PaddedYieldsText(data, BUFFER_SIZE);
  }

  /** The conversion of the whole buffer and the removal of NULs. */
  method ConvertBuffer(buf: array<Byte>, ghost data: Filled) returns (text: seq<CodeUnit>)
    requires buf[..] == Padded(data)
    ensures text == Text(data)
  {
    var wide := new CodeUnit[buf.Length](_ => 0);
    BufferYieldsText(data);
    var converted := Decode(buf[..]);
    forall i | 0 <= i < |converted| {
      wide[i] := converted[i];
    }
    assert wide[..] == converted + Zeros(wide.Length - |converted|);
    SplitFoldStrips(wide[..]);
    text := FoldAppend([], SplitOnNul(wide[..]));
  }

  /** The free function `read`, called with `blocking` set, over the answers of the operating system. */
  method ReadStream(answer: FileAnswer, overlapped: bool) returns (r: ReadResult)
    ensures r == match answer
                 case Failed => Err
                 case Done(data) => if overlapped && data == [] then Ok([], false) else Ok(Text(data), true)
                 case Deferred(waited, succeeded, later) =>
                   if !overlapped || !waited || !succeeded then Err
                   else if later == [] then Ok([], false) else Ok(Text(later), true)
  {
    var buf := new Byte[BUFFER_SIZE](_ => 0);
    var charsRead := 0;
    var awaitingIo := false;
    match answer {
      case Failed => return Err;
      case Done(data) => charsRead := |data|;
      case Deferred(_, _, _) =>
        if !overlapped { return Err; }
        awaitingIo := true;
    }
    var data := if answer.Done? then answer.data else answer.later;
    if overlapped {
      if awaitingIo {
        if !answer.waited || !answer.succeeded { return Err; }
        charsRead := |answer.later|;
      }
      if charsRead == 0 { return Ok([], false); }
    }
    forall i | 0 <= i < |data| {
      buf[i] := data[i];
    }
    assert buf[..] == Padded(data);
    var text := ConvertBuffer(buf, data);
    r := Ok(text, true);
  }

  // ----- The texts of successive reads

  function TextOfReads(pieces: seq<seq<Byte>>): (t: seq<CodeUnit>) {
    if pieces == [] then [] else Text(pieces[0]) + TextOfReads(pieces[1..])
  }

  /** Reading character by character, the boundary between `a` and `b` falls inside a character. */
  predicate CutInside(a: seq<Byte>, b: seq<Byte>)
    decreases |a|
  {
    a != [] && (Head8(a + b).1 > |a| || CutInside(a[Head8(a + b).1..], b))
  }

  /** A well-formed head of `a + b` that ends within `a` is the head of `a`. */
  lemma HeadWithin(a: seq<Byte>, b: seq<Byte>)
    requires a != [] && StartsWell(a + b) && Head8(a + b).1 <= |a|
    ensures StartsWell(a) && Head8(a) == Head8(a + b)
  {
  }

  lemma TextWithin(a: seq<Byte>, b: seq<Byte>)
    requires a != [] && StartsWell(a + b) && Head8(a + b).1 <= |a|
    ensures var (c, n) := Head8(a + b);
            Text(a) == Visible(c) + Text(a[n..]) && Text(a + b) == Visible(c) + Text(a[n..] + b)
  {
    HeadWithin(a, b);
    DropOfConcat(a, b, Head8(a + b).1);
  }

  lemma {:induction false} TextConcat(a: seq<Byte>, b: seq<Byte>)
    requires WellFormed8(a + b) && !CutInside(a, b)
    ensures Text(a + b) == Text(a) + Text(b)
    decreases |a|
  {
    if a == [] {
      assert a + b == b;
    } else {
      var (c, n) := Head8(a + b);
      TextWithin(a, b);
      DropOfConcat(a, b, n);
      TextConcat(a[n..], b);
      Associative(Visible(c), Text(a[n..]), Text(b));
    }
  }

  /** In a well-formed stream a cut is inside a character exactly when a continuation byte follows it. */
  lemma {:induction false} CutSeenFromNextByte(a: seq<Byte>, b: seq<Byte>)
    requires WellFormed8(a + b)
    ensures CutInside(a, b) <==> a != [] && b != [] && IsContinuation(b[0])
    ensures !CutInside(a, b) ==> WellFormed8(b)
    decreases |a|
  {
    if a == [] {
      assert a + b == b;
    } else {
      var n := Head8(a + b).1;
      if n > |a| {
        assert (a + b)[|a|] == b[0];
      } else {
        DropOfConcat(a, b, n);
        CutSeenFromNextByte(a[n..], b);
        if a[n..] == [] {
          assert a[n..] + b == b;
        }
      }
    }
  }

  // ----- What a cut inside a character costs

  /** The replacement characters of a text. */
  function Replaced(t: seq<CodeUnit>): (n: nat) {
    if t == [] then 0 else (if t[0] == REPLACEMENT then 1 else 0) + Replaced(t[1..])
  }

  lemma {:induction false} ReplacedConcat(a: seq<CodeUnit>, b: seq<CodeUnit>)
    ensures Replaced(a + b) == Replaced(a) + Replaced(b)
  {
    if a == [] {
      assert a + b == b;
    } else {
      DropOfConcat(a, b, 1);
      ReplacedConcat(a[1..], b);
    }
  }

  lemma ReplacedStep(b: seq<Byte>)
    requires b != []
    ensures Replaced(Text(b)) == Replaced(Visible(Head8(b).0)) + Replaced(Text(b[Head8(b).1..]))
    ensures Replaced(Visible(Head8(b).0)) <= 1
    ensures !StartsWell(b) ==> Replaced(Visible(Head8(b).0)) == 1
  {
    var c := Head8(b).0;
    ReplacedConcat(Visible(c), Text(b[Head8(b).1..]));
    if c >= 0x1_0000 {
      assert Units(c)[1..] == [Units(c)[1]];
    }
  }

  /** A start that is no well-formed character shows: its text begins with U+FFFD. */
  lemma IllFormedShows(b: seq<Byte>)
    requires b != [] && !StartsWell(b)
    ensures Text(b) != [] && Text(b)[0] == 0xFFFD
  {
  }

  /** A text without replacement characters comes from well-formed bytes. */
  lemma {:induction false} UnreplacedIsWellFormed(b: seq<Byte>)
    requires Replaced(Text(b)) == 0
    ensures WellFormed8(b)
    decreases |b|
  {
    if b != [] {
      ReplacedStep(b);
      UnreplacedIsWellFormed(b[Head8(b).1..]);
    }
  }

  /** What is left of `s` after the continuation bytes it begins with. */
  function Body(s: seq<Byte>): (b: seq<Byte>) { s[Continuations(s)..] }

  /** A well-formed stream, possibly without the front of its first character. */
  predicate Frayed(s: seq<Byte>) { WellFormed8(Body(s)) }

  /** The replacement characters `s` cannot do without. */
  function Cost(s: seq<Byte>): (n: nat) { (if Continuations(s) > 0 then 1 else 0) + Replaced(Text(Body(s))) }

  lemma WellFormedIsFrayed(s: seq<Byte>)
    requires WellFormed8(s)
    ensures Continuations(s) == 0 && Body(s) == s && Frayed(s) && Cost(s) == Replaced(Text(s))
  {
  }

  lemma {:induction false} ContinuationsOfConcat(x: seq<Byte>, y: seq<Byte>)
    ensures Continuations(x + y) == if Continuations(x) < |x| then Continuations(x) else |x| + Continuations(y)
  {
    if x == [] {
      assert x + y == y;
    } else {
      DropOfConcat(x, y, 1);
      ContinuationsOfConcat(x[1..], y);
    }
  }

  lemma {:induction false} ContinuationsAfter(x: seq<Byte>, n: nat)
    requires n <= Continuations(x)
    ensures Continuations(x[n..]) == Continuations(x) - n
  {
    if n > 0 {
      ContinuationsAfter(x[1..], n - 1);
      assert x[1..][n - 1..] == x[n..];
    } else {
      assert x[n..] == x;
    }
  }

  /** A stretch of continuation bytes costs at least one replacement character, however they are grouped. */
  lemma {:induction false} StretchCosts(x: seq<Byte>)
    requires Continuations(x) > 0
    ensures Replaced(Text(x)) >= 1 + Replaced(Text(Body(x)))
    decreases |x|
  {
    var n := Head8(x).1;
    ReplacedStep(x);
    ContinuationsAfter(x, n);
    assert Body(x[n..]) == Body(x);
    if n < Continuations(x) {
      StretchCosts(x[n..]);
    } else {
      assert Body(x[n..]) == x[n..];
    }
  }

  /** The cut falls inside the first character: what is cut off it is `k` continuation bytes. */
  lemma BackOfCharacter(x: seq<Byte>, y: seq<Byte>) returns (k: nat)
    requires WellFormed8(x + y) && x != [] && Head8(x + y).1 > |x|
    ensures 0 < k <= |y| && (x + y)[Head8(x + y).1..] == y[k..]
    ensures forall i :: 0 <= i < k ==> IsContinuation(y[..k][i])
  {
    var s := x + y;
    k := Head8(s).1 - |x|;
    forall i | 0 <= i < k ensures IsContinuation(y[..k][i]) {
      assert y[i] == s[|x| + i];
      assert |x| + i == 1 || |x| + i == 2 || |x| + i == 3;
    }
  }

  lemma BackCosts(y: seq<Byte>, k: nat)
    requires 0 < k <= |y| && WellFormed8(y[k..])
    requires forall i :: 0 <= i < k ==> IsContinuation(y[..k][i])
    ensures Continuations(y) == k && Frayed(y) && Cost(y) == 1 + Replaced(Text(y[k..]))
  {
    AllContinuations(y[..k]);
    ContinuationsOfConcat(y[..k], y[k..]);
    assert y == y[..k] + y[k..];
    WellFormedIsFrayed(y[k..]);
  }

  lemma FirstCharacterCut(x: seq<Byte>, y: seq<Byte>)
    requires WellFormed8(x + y) && x != [] && Head8(x + y).1 > |x|
    ensures Replaced(Text(x)) >= 1 && Continuations(y) > 0
    ensures Frayed(y) && 1 + Cost(y) > Replaced(Text(x + y))
  {
    var k := BackOfCharacter(x, y);
    BackCosts(y, k);
    ReplacedStep(x + y);
    ReplacedStep(x);
    assert !StartsWell(x);
  }

  lemma {:induction false} AllContinuations(f: seq<Byte>)
    requires forall i :: 0 <= i < |f| ==> IsContinuation(f[i])
    ensures Continuations(f) == |f|
  {
    if f != [] {
      AllContinuations(f[1..]);
    }
  }

  /** The parts of a cut stream need as many replacement characters as the whole, and more if a character is cut. */
  lemma {:induction false} CutCosts(x: seq<Byte>, y: seq<Byte>)
    requires Frayed(x + y)
    ensures Frayed(y) && Replaced(Text(x)) + Cost(y) >= Cost(x + y)
    ensures WellFormed8(x + y) && CutInside(x, y) ==> Replaced(Text(x)) + Cost(y) > Cost(x + y)
    decreases |x|
  {
    ContinuationsOfConcat(x, y);
    if x == [] {
      assert x + y == y;
    } else if Continuations(x) > 0 {
      StretchCosts(x);
      FrayedCutCosts(x, y);
    } else {
      assert Body(x + y) == x + y;
      var n := Head8(x + y).1;
      if n > |x| {
        FirstCharacterCut(x, y);
      } else {
        HeadWithin(x, y);
        DropOfConcat(x, y, n);
        WellFormedIsFrayed(x[n..] + y);
        CutCosts(x[n..], y);
        ReplacedStep(x);
        ReplacedStep(x + y);
      }
    }
  }

  lemma {:induction false} FrayedCutCosts(x: seq<Byte>, y: seq<Byte>)
    requires Frayed(x + y) && Continuations(x) > 0 && Replaced(Text(x)) >= 1 + Replaced(Text(Body(x)))
    ensures Frayed(y) && Replaced(Text(x)) + Cost(y) >= Cost(x + y)
    decreases |x|, 0
  {
    var m := Continuations(x);
    ContinuationsOfConcat(x, y);
    if m == |x| {
      assert Body(x + y) == Body(y);
    } else {
      DropOfConcat(x, y, m);
      WellFormedIsFrayed(x[m..] + y);
      CutCosts(x[m..], y);
    }
  }

  lemma {:induction false} ReadsCost(pieces: seq<seq<Byte>>)
    requires Frayed(Flatten(pieces))
    ensures Replaced(TextOfReads(pieces)) >= Cost(Flatten(pieces))
  {
    if pieces != [] {
      CutCosts(pieces[0], Flatten(pieces[1..]));
      ReadsCost(pieces[1..]);
      ReplacedConcat(Text(pieces[0]), TextOfReads(pieces[1..]));
    }
  }

  /** No read begins in the middle of a character. */
  predicate OnBoundaries(pieces: seq<seq<Byte>>) {
    forall i :: 0 <= i < |pieces| && pieces[i] != [] ==> !IsContinuation(pieces[i][0])
  }

  lemma {:induction false} FirstByteOfReads(pieces: seq<seq<Byte>>)
    requires OnBoundaries(pieces) && Flatten(pieces) != []
    ensures !IsContinuation(Flatten(pieces)[0])
  {
    if pieces[0] == [] {
      assert Flatten(pieces) == Flatten(pieces[1..]);
      FirstByteOfReads(pieces[1..]);
    }
  }

  lemma OnBoundariesCons(pieces: seq<seq<Byte>>)
    requires pieces != []
    ensures OnBoundaries(pieces) <==> OnBoundaries(pieces[1..]) && (pieces[0] != [] ==> !IsContinuation(pieces[0][0]))
  {
    assert pieces == [pieces[0]] + pieces[1..];
  }

  lemma {:induction false} BoundaryReads(pieces: seq<seq<Byte>>)
    requires WellFormed8(Flatten(pieces)) && OnBoundaries(pieces)
    ensures TextOfReads(pieces) == Text(Flatten(pieces))
  {
    if pieces != [] {
      var first, rest := pieces[0], Flatten(pieces[1..]);
      OnBoundariesCons(pieces);
      CutSeenFromNextByte(first, rest);
      if rest != [] {
        FirstByteOfReads(pieces[1..]);
      }
      TextConcat(first, rest);
      BoundaryReads(pieces[1..]);
    }
  }

  /** A read that begins inside a character shows: there are more replacement characters than in the stream's text. */
  lemma {:induction false} CutReads(pieces: seq<seq<Byte>>)
    requires WellFormed8(Flatten(pieces)) && !OnBoundaries(pieces)
    ensures Replaced(TextOfReads(pieces)) > Replaced(Text(Flatten(pieces)))
  {
    var first, rest := pieces[0], Flatten(pieces[1..]);
    OnBoundariesCons(pieces);
    WellFormedIsFrayed(first + rest);
    CutSeenFromNextByte(first, rest);
    ReplacedConcat(Text(first), TextOfReads(pieces[1..]));
    if CutInside(first, rest) {
      CutCosts(first, rest);
      ReadsCost(pieces[1..]);
    } else {
      if first != [] {
        assert (first + rest)[0] == first[0];
      }
      CutReads(pieces[1..]);
      TextConcat(first, rest);
      ReplacedConcat(Text(first), Text(rest));
    }
  }

  /**
   Each read is decoded on its own. For a well-formed stream, however it is cut into pieces, and however
   ill-formed bytes are grouped for replacement, the texts of the reads make up the text of the stream if and
   only if no read begins inside a character.
   */
  lemma ReadsMakeUpStream(pieces: seq<seq<Byte>>)
    requires WellFormed8(Flatten(pieces))
    ensures TextOfReads(pieces) == Text(Flatten(pieces)) <==> OnBoundaries(pieces)
  {
    if OnBoundaries(pieces) {
      BoundaryReads(pieces);
    } else {
      CutReads(pieces);
    }
  }

  /** The text of a read is empty exactly when the read held nothing but NULs. */
  lemma {:induction false} EmptyTextIsNuls(b: seq<Byte>)
    ensures Text(b) == [] <==> forall i :: 0 <= i < |b| ==> b[i] == 0
    decreases |b|
  {
    if b != [] {
      var (c, n) := Head8(b);
      EmptyTextIsNuls(b[n..]);
      if c == 0 {
        assert n == 1 && b[0] == 0;
        assert forall i :: 1 <= i < |b| ==> b[i] == b[1..][i - 1];
      } else {
        assert Visible(c) != [] && (StartsWell(b) ==> b[0] != 0);
        assert b[0] == 0 ==> StartsWell(b);
      }
    }
  }
}

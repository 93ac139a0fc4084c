/**
 The two text conversions the PTY relies on: UTF-16 to UTF-8 before a write and UTF-8 to UTF-16
 after a read. UTF-8 follows sections 3 and 4 of RFC 3629, UTF-16 sections 2.1 and 2.2 of RFC 2781.
 Both directions are total: an unpaired surrogate becomes one replacement character, and so does a start
 that is no well-formed character. How many bytes such a start takes along is left open: see `REPLACING`.
 */
module Unicode {

  type Byte = b: int | 0 <= b < 0x100
  type CodeUnit = u: int | 0 <= u < 0x1_0000
  type Scalar = c: int | 0 <= c < 0xD800 || 0xE000 <= c < 0x11_0000

  const REPLACEMENT: Scalar := 0xFFFD

  predicate IsHigh(u: CodeUnit) { 0xD800 <= u < 0xDC00 }

  predicate IsLow(u: CodeUnit) { 0xDC00 <= u < 0xE000 }

  predicate IsContinuation(b: Byte) { 0x80 <= b < 0xC0 }

  // ----- UTF-16

  function Units(c: Scalar): (u: seq<CodeUnit>)
    ensures 1 <= |u| <= 2
  {
    if c < 0x1_0000 then [c]
    else [0xD800 + (c - 0x1_0000) / 0x400, 0xDC00 + (c - 0x1_0000) % 0x400]
  }

  function UnitsOf(cs: seq<Scalar>): (u: seq<CodeUnit>) {
    if cs == [] then [] else Units(cs[0]) + UnitsOf(cs[1..])
  }

  predicate StartsPair(u: seq<CodeUnit>) {
    |u| >= 2 && IsHigh(u[0]) && IsLow(u[1])
  }

  function Pair(high: int, low: int): (c: int) {
    0x1_0000 + (high - 0xD800) * 0x400 + (low - 0xDC00)
  }

  /** The first character of `u` and the number of units it takes. */
  function Head16(u: seq<CodeUnit>): (r: (Scalar, nat))
    requires u != []
    ensures 1 <= r.1 <= |u|
  {
    if StartsPair(u) then (Pair(u[0], u[1]), 2)
    else if IsHigh(u[0]) || IsLow(u[0]) then (REPLACEMENT, 1)
    else (u[0], 1)
  }

  function Scalars16(u: seq<CodeUnit>): (cs: seq<Scalar>) {
    if u == [] then [] else [Head16(u).0] + Scalars16(u[Head16(u).1..])
  }

  /** Every surrogate of `u` belongs to a pair. */
  predicate WellFormed16(u: seq<CodeUnit>) {
    u == [] ||
    if StartsPair(u) then WellFormed16(u[2..])
    else !IsHigh(u[0]) && !IsLow(u[0]) && WellFormed16(u[1..])
  }

  /** `u` with every unpaired surrogate replaced. */
  function Repair(u: seq<CodeUnit>): (r: seq<CodeUnit>) {
    UnitsOf(Scalars16(u))
  }

  /** The first character keeps its length and its NUL, and is kept if it is no unpaired surrogate. */
  lemma RepairHead(u: seq<CodeUnit>)
    requires u != []
    ensures var (c, n) := Head16(u);
            && |Units(c)| == n
            && (forall i :: 0 <= i < n ==> (Units(c)[i] == 0 <==> u[i] == 0))
            && (Units(c) == u[..n] <==> StartsPair(u) || (!IsHigh(u[0]) && !IsLow(u[0])))
  {
  }

  lemma RepairStep(u: seq<CodeUnit>)
    requires u != []
    ensures Repair(u) == Units(Head16(u).0) + Repair(u[Head16(u).1..])
  {
    assert Scalars16(u)[1..] == Scalars16(u[Head16(u).1..]);
  }

  /** Repairing keeps the length, keeps NULs where they are and changes nothing exactly in well-formed text. */
  lemma {:induction false} RepairIsIdentityOnWellFormed(u: seq<CodeUnit>)
    ensures |Repair(u)| == |u|
    ensures forall i :: 0 <= i < |u| ==> (Repair(u)[i] == 0 <==> u[i] == 0)
    ensures Repair(u) == u <==> WellFormed16(u)
  {
    if u != [] {
      var n := Head16(u).1;
      RepairIsIdentityOnWellFormed(u[n..]);
      RepairHead(u);
      RepairStep(u);
      assert u == u[..n] + u[n..];
      SplitEquality(Repair(u), u, n);
    }
  }

  lemma SplitEquality(a: seq<CodeUnit>, b: seq<CodeUnit>, n: nat)
    requires n <= |a| && n <= |b|
    ensures a == b <==> a[..n] == b[..n] && a[n..] == b[n..]
  {
    assert a == a[..n] + a[n..] && b == b[..n] + b[n..];
  }

  /** Section 2.1 of RFC 2781: one unit, or a high and a low surrogate with ten bits each of `c - 0x10000`. */
  lemma UnitsTable(c: Scalar)
    ensures c <= 0xFFFF ==> Units(c) == [c]
    ensures c >= 0x1_0000 ==>
            var u: seq<int> := Units(c);
            && |u| == 2 && 0xD800 <= u[0] <= 0xDBFF && 0xDC00 <= u[1] <= 0xDFFF
            && c == 0x1_0000 + (u[0] - 0xD800) * 1024 + (u[1] - 0xDC00)
  {
  }

  /** Section 2.2: a surrogate without its partner stands for no character. */
  lemma UnpairedTable(u: CodeUnit)
    ensures Repair([u]) == if 0xD800 <= u <= 0xDFFF then [0xFFFD] else [u]
  {
    RepairStep([u]);
  }

  // ----- UTF-8

  function Bytes(c: Scalar): (b: seq<Byte>)
    ensures 1 <= |b| <= 4
  {
    if c < 0x80 then [c]
    else if c < 0x800 then [0xC0 + c / 0x40, 0x80 + c % 0x40]
    else if c < 0x1_0000 then [0xE0 + c / 0x1000, 0x80 + c / 0x40 % 0x40, 0x80 + c % 0x40]
    else [0xF0 + c / 0x4_0000, 0x80 + c / 0x1000 % 0x40, 0x80 + c / 0x40 % 0x40, 0x80 + c % 0x40]
  }

  function BytesOf(cs: seq<Scalar>): (b: seq<Byte>) {
    if cs == [] then [] else Bytes(cs[0]) + BytesOf(cs[1..])
  }

  /** The length the lead byte announces, 0 for a byte that leads nothing. */
  function Announced(b0: Byte): (n: nat)
    ensures n <= 4
  {
    if b0 < 0x80 then 1
    else if 0xC0 <= b0 < 0xE0 then 2
    else if 0xE0 <= b0 < 0xF0 then 3
    else if 0xF0 <= b0 < 0xF8 then 4
    else 0
  }

  /** The low bits the `n` bytes of a character carry. */
  function Payload(b: seq<int>, n: nat): (v: int)
    requires 1 <= n <= 4 && n <= |b|
  {
    match n
    case 1 => b[0]
    case 2 => (b[0] - 0xC0) * 0x40 + (b[1] - 0x80)
    case 3 => (b[0] - 0xE0) * 0x1000 + (b[1] - 0x80) * 0x40 + (b[2] - 0x80)
    case _ => (b[0] - 0xF0) * 0x4_0000 + (b[1] - 0x80) * 0x1000 + (b[2] - 0x80) * 0x40 + (b[3] - 0x80)
  }

  /** `b` starts with a complete character: continuation bytes present, shortest form, a scalar value. */
  predicate StartsWell(b: seq<Byte>) {
    |b| > 0 &&
    var n := Announced(b[0]);
    1 <= n <= |b| &&
    (n >= 2 ==> IsContinuation(b[1])) && (n >= 3 ==> IsContinuation(b[2])) && (n >= 4 ==> IsContinuation(b[3])) &&
    var v := Payload(b, n);
    (n == 2 ==> v >= 0x80) && (n == 3 ==> v >= 0x800) && (n == 4 ==> v >= 0x1_0000) &&
    (v < 0xD800 || 0xE000 <= v < 0x11_0000)
  }

  /** The number of continuation bytes `b` begins with. */
  function Continuations(b: seq<Byte>): (n: nat)
    ensures n <= |b|
  {
    if b == [] || !IsContinuation(b[0]) then 0 else 1 + Continuations(b[1..])
  }

  /** A byte and the continuation bytes that follow it. */
  function Fragment(b: seq<Byte>): (f: seq<Byte>)
    requires b != []
    ensures 1 <= |f| <= |b| && f == b[..|f|]
  {
    b[..1 + Continuations(b[1..])]
  }

  /** How many bytes of an ill-formed fragment become one replacement character: at least one. */
  type Replacing = f: seq<Byte> -> nat | forall b :: b != [] ==> 1 <= f(b) <= |b| witness b => |b|

  /** The choice is the converter's, and arbitrary: one byte at a time, the longest valid prefix, or any other. */
  const REPLACING: Replacing

  /** The first character of `b` and the number of bytes it takes. */
  function Head8(b: seq<Byte>): (r: (Scalar, nat))
    requires b != []
    ensures 1 <= r.1 <= |b|
  {
    if StartsWell(b) then (Payload(b, Announced(b[0])), Announced(b[0])) else (REPLACEMENT, REPLACING(Fragment(b)))
  }

  function Scalars8(b: seq<Byte>): (cs: seq<Scalar>) {
    if b == [] then [] else [Head8(b).0] + Scalars8(b[Head8(b).1..])
  }

  predicate WellFormed8(b: seq<Byte>) {
    b == [] || (StartsWell(b) && WellFormed8(b[Head8(b).1..]))
  }

  lemma SixBitDigits(c: nat)
    ensures c == c / 0x40 * 0x40 + c % 0x40
    ensures c / 0x40 == c / 0x1000 * 0x40 + c / 0x40 % 0x40
    ensures c / 0x1000 == c / 0x4_0000 * 0x40 + c / 0x1000 % 0x40
  {
  }

  /** Section 3 of RFC 3629: which bytes a character has, and which character they stand for. */
  lemma BytesTable(c: Scalar)
    ensures c <= 0x7F ==> Bytes(c) == [c]
    ensures 0x80 <= c <= 0x7FF ==>
            var b: seq<int> := Bytes(c);
            Tail(b, 1) && 0xC2 <= b[0] <= 0xDF && c == (b[0] - 0xC0) * 64 + (b[1] - 0x80)
    ensures 0x800 <= c <= 0xFFFF ==>
            var b: seq<int> := Bytes(c);
            Tail(b, 2) && 0xE0 <= b[0] <= 0xEF && c == (b[0] - 0xE0) * 4096 + (b[1] - 0x80) * 64 + (b[2] - 0x80)
    ensures c >= 0x1_0000 ==>
            var b: seq<int> := Bytes(c);
            && Tail(b, 3) && 0xF0 <= b[0] <= 0xF4
            && c == (b[0] - 0xF0) * 262_144 + (b[1] - 0x80) * 4096 + (b[2] - 0x80) * 64 + (b[3] - 0x80)
  {
    SixBitDigits(c);
  }

  /** After its first byte, `b` has `n` bytes of the form 10xxxxxx. */
  predicate Tail(b: seq<int>, n: nat) {
    |b| == n + 1 && forall i :: 1 <= i <= n ==> 0x80 <= b[i] <= 0xBF
  }

  lemma HeadOfLong(c: Scalar, rest: seq<Byte>)
    requires c >= 0x800
    ensures StartsWell(Bytes(c) + rest) && Head8(Bytes(c) + rest) == (c, |Bytes(c)|)
  {
    SixBitDigits(c);
    var b := Bytes(c) + rest;
    if c < 0x1_0000 {
      assert Announced(b[0]) == 3 && Payload(b, 3) == c;
    } else {
      assert Announced(b[0]) == 4 && Payload(b, 4) == c;
    }
  }

  lemma HeadOfBytes(c: Scalar, rest: seq<Byte>)
    ensures StartsWell(Bytes(c) + rest) && Head8(Bytes(c) + rest) == (c, |Bytes(c)|)
  {
    var b := Bytes(c) + rest;
    if c < 0x80 {
      assert Announced(b[0]) == 1;
    } else if c < 0x800 {
      SixBitDigits(c);
      assert Announced(b[0]) == 2 && Payload(b, 2) == c;
    } else {
      HeadOfLong(c, rest);
    }
  }

  lemma DigitsUnique(q: nat, r: nat)
    requires r < 0x40
    ensures (q * 0x40 + r) / 0x40 == q && (q * 0x40 + r) % 0x40 == r
  {
  }

  lemma BytesOfHead(b: seq<Byte>)
    requires StartsWell(b)
    ensures Bytes(Head8(b).0) == b[..Head8(b).1]
  {
    var d: seq<int> := b;
    var n := Announced(b[0]);
    if n == 2 {
      DigitsUnique(d[0] - 0xC0, d[1] - 0x80);
    } else if n == 3 {
      BytesOfTriple(d[0] - 0xE0, d[1] - 0x80, d[2] - 0x80);
    } else if n == 4 {
      BytesOfQuadruple(d[0] - 0xF0, d[1] - 0x80, d[2] - 0x80, d[3] - 0x80);
    }
  }

  lemma BytesOfTriple(x: nat, y: nat, z: nat)
    requires y < 0x40 && z < 0x40
    ensures var c := x * 0x1000 + y * 0x40 + z; c / 0x1000 == x && c / 0x40 % 0x40 == y && c % 0x40 == z
  {
    DigitsUnique(x * 0x40 + y, z);
    DigitsUnique(x, y);
    SixBitDigits(x * 0x1000 + y * 0x40 + z);
  }

  lemma BytesOfQuadruple(w: nat, x: nat, y: nat, z: nat)
    requires x < 0x40 && y < 0x40 && z < 0x40
    ensures var c := w * 0x4_0000 + x * 0x1000 + y * 0x40 + z;
            c / 0x4_0000 == w && c / 0x1000 % 0x40 == x && c / 0x40 % 0x40 == y && c % 0x40 == z
  {
    BytesOfTriple(w * 0x40 + x, y, z);
    DigitsUnique(w, x);
    SixBitDigits(w * 0x4_0000 + x * 0x1000 + y * 0x40 + z);
  }

  lemma ScalarsStep(c: Scalar, tail: seq<Byte>)
    ensures Scalars8(Bytes(c) + tail) == [c] + Scalars8(tail)
    ensures WellFormed8(Bytes(c) + tail) <==> WellFormed8(tail)
  {
    HeadOfBytes(c, tail);
    assert (Bytes(c) + tail)[|Bytes(c)|..] == tail;
  }

  /** Encoding yields well-formed bytes, and decoding inverts it. */
  lemma {:induction false} Scalars8InvertsBytesOf(cs: seq<Scalar>)
    ensures Scalars8(BytesOf(cs)) == cs && WellFormed8(BytesOf(cs))
  {
    if cs != [] {
      ScalarsStep(cs[0], BytesOf(cs[1..]));
      Scalars8InvertsBytesOf(cs[1..]);
      assert cs == [cs[0]] + cs[1..];
    }
  }

  lemma BytesOfCons(c: Scalar, cs: seq<Scalar>)
    ensures BytesOf([c] + cs) == Bytes(c) + BytesOf(cs)
  {
    assert ([c] + cs)[1..] == cs;
  }

  /** Encoding inverts decoding on exactly the well-formed byte strings. */
  lemma {:induction false} BytesOfInvertsScalars8(b: seq<Byte>)
    ensures BytesOf(Scalars8(b)) == b <==> WellFormed8(b)
  {
    if WellFormed8(b) {
      BytesOfWellFormed(b);
    } else {
      Scalars8InvertsBytesOf(Scalars8(b));
    }
  }

  lemma {:induction false} BytesOfWellFormed(b: seq<Byte>)
    requires WellFormed8(b)
    ensures BytesOf(Scalars8(b)) == b
  {
    if b != [] {
      var (c, n) := Head8(b);
      BytesOfHead(b);
      BytesOfWellFormed(b[n..]);
      BytesOfCons(c, Scalars8(b[n..]));
    }
  }

  // ----- The conversions of the PTY

  function Encode(u: seq<CodeUnit>): (b: seq<Byte>) {
    BytesOf(Scalars16(u))
  }

  function Decode(b: seq<Byte>): (u: seq<CodeUnit>) {
    UnitsOf(Scalars8(b))
  }

  /** Encoded text is well formed and decodes to the text, unpaired surrogates replaced. */
  lemma DecodeInvertsEncode(u: seq<CodeUnit>)
    ensures WellFormed8(Encode(u))
    ensures Decode(Encode(u)) == Repair(u)
    ensures Decode(Encode(u)) == u <==> WellFormed16(u)
  {
    Scalars8InvertsBytesOf(Scalars16(u));
    RepairIsIdentityOnWellFormed(u);
  }

  lemma DecodeStep(b: seq<Byte>)
    requires b != []
    ensures Decode(b) == Units(Head8(b).0) + Decode(b[Head8(b).1..])
  {
    assert Scalars8(b)[1..] == Scalars8(b[Head8(b).1..]);
  }

  lemma EncodeStep(u: seq<CodeUnit>)
    requires u != []
    ensures Encode(u) == Bytes(Head16(u).0) + Encode(u[Head16(u).1..])
  {
    assert Scalars16(u)[1..] == Scalars16(u[Head16(u).1..]);
  }

  /** A unit takes at most three bytes: four are taken by two units. */
  lemma {:induction false} EncodingSize(u: seq<CodeUnit>)
    ensures |u| <= |Encode(u)| <= 3 * |u|
  {
    if u != [] {
      EncodeStep(u);
      EncodingSize(u[Head16(u).1..]);
    }
  }
}

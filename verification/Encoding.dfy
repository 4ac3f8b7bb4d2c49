/**
 * Key-segment codecs of `src/encoding.rs`: delimiter-terminated text
 * (`ByteTerminatedString<B, T>`), end-of-input text
 * (`EofTerminatedString<T>`), literal labels (`FixedString<S>`) and
 * count-prefixed sequences (`LengthVec<P, T>`).
 *
 * A decoder reads from the front of its input and hands back what it did
 * not consume (`Decoded.rest`), which is how `decode(&mut reader)` behaves
 * when several segments are read from one slice.  An encoder's output is
 * the byte string it appends to the writer.  The `State` impls of these
 * types attach to nothing, flush by encoding and load by decoding, so the
 * codec functions are also their lifecycle.
 */
module Encoding {
  import opened Results
  import opened Bytes

  datatype Decoded<T> = Decoded(value: T, rest: seq<byte>)

  // ---------------------------------------------------------------------
  // The text payload `T: FromStr + ToString`, instantiated as `String` or `u64`

  datatype TextKind = StringKind | U64Kind

  datatype Text = Str(bytes: seq<byte>) | Num(n: u64)

  function KindOf(t: Text): TextKind
  {
    match t
    case Str(_) => StringKind
    case Num(_) => U64Kind
  }

  /** A Rust `String` always holds UTF-8. */
  predicate WellFormedText(t: Text)
  {
    t.Str? ==> ValidUtf8(t.bytes)
  }

  /** `self.0.to_string().as_bytes()` */
  function ToText(t: Text): seq<byte>
  {
    match t
    case Str(b) => b
    case Num(n) => ShowNat(n)
  }

  /** `str::parse::<T>()` on text that is already known to be UTF-8. */
  function ParseText(kind: TextKind, s: seq<byte>): Option<Text>
  {
    match kind
    case StringKind => Some(Str(s))
    case U64Kind =>
      match ParseU64(s)
      case None => None
      case Some(n) => Some(Num(n))
  }

  /** `to_string` produces UTF-8 that `parse` maps back to the same value. */
  lemma TextRoundTrip(t: Text)
    requires WellFormedText(t)
    ensures ValidUtf8(ToText(t))
    ensures ParseText(KindOf(t), ToText(t)) == Some(t)
  {
    if t.Num? {
      ShowNatIsAscii(t.n);
      ParseShowU64(t.n);
    }
  }

  // ---------------------------------------------------------------------
  // ByteTerminatedString<B, T>

  function ByteTerminatedEncode(b: byte, t: Text): (r: seq<byte>)
    ensures |r| == ByteTerminatedEncodingLength(t) && r[|r| - 1] == b
  {
    ToText(t) + [b]
  }

  /** `encoding_length`: the text length plus the terminator. */
  function ByteTerminatedEncodingLength(t: Text): nat
  {
    |ToText(t)| + 1
  }

  /** Position of the first `b` in `s`, or `|s|` when there is none. */
  function FirstIndexOf(b: byte, s: seq<byte>): (i: nat)
    ensures i <= |s|
    ensures i < |s| ==> s[i] == b
    ensures b !in s[..i]
  {
    if s == [] then 0
    else if s[0] == b then 0
    else
      var j := FirstIndexOf(b, s[1..]);
      assert s[..j + 1] == [s[0]] + s[1..][..j];
      j + 1
  }

  /** The bytes up to the first terminator, and what follows the terminator. */
  function SplitAtTerminator(b: byte, input: seq<byte>): Decoded<seq<byte>>
  {
    var i := FirstIndexOf(b, input);
    Decoded(input[..i], if i < |input| then input[i + 1..] else [])
  }

  /** UTF-8 check, then `parse`; either failure is `UnexpectedByte(4)`. */
  function ParseSegment(kind: TextKind, body: seq<byte>): Result<Text>
  {
    if !ValidUtf8(body) then Err(UnexpectedByte(4))
    else
      match ParseText(kind, body)
      case None => Err(UnexpectedByte(4))
      case Some(t) => Ok(t)
  }

  /** Specification of `ByteTerminatedString::decode`. */
  function ByteTerminatedDecode(b: byte, kind: TextKind, input: seq<byte>): (r: Result<Decoded<Text>>)
    ensures r.Err? ==> r.error == UnexpectedByte(4)
    ensures r.Ok? ==> |r.value.rest| < |input| || (b !in input && r.value.rest == [])
  {
    var split := SplitAtTerminator(b, input);
    var t :- ParseSegment(kind, split.value);
    Ok(Decoded(t, split.rest))
  }

  /**
   * `ByteTerminatedString::decode`: push bytes into a buffer until the
   * terminator (which is consumed) or the end of the input, then parse.
   */
  method DecodeByteTerminated(b: byte, kind: TextKind, input: seq<byte>) returns (r: Result<Decoded<Text>>)
    ensures r == ByteTerminatedDecode(b, kind, input)
  {
    var bytes: seq<byte> := [];
    var pos := 0;
    var found := false;
    while pos < |input| && !found
      invariant 0 <= pos <= |input|
      invariant !found ==> bytes == input[..pos] && b !in bytes
      invariant found ==> 1 <= pos && bytes == input[..pos - 1] && input[pos - 1] == b && b !in bytes
    {
      if input[pos] == b {
        found := true;
      } else {
        bytes := bytes + [input[pos]];
      }
      pos := pos + 1;
    }
    assert |bytes| == FirstIndexOf(b, input) by {
      FirstIndexUnique(b, input, |bytes|);
    }
    assert input[pos..] == SplitAtTerminator(b, input).rest;
    var parsed := ParseSegment(kind, bytes);
    if parsed.Err? {
      return Err(parsed.error);
    }
    r := Ok(Decoded(parsed.value, input[pos..]));
  }

  /** The first index of `b` is the only position with `b` and none before it. */
  lemma FirstIndexUnique(b: byte, s: seq<byte>, i: nat)
    requires i <= |s| && b !in s[..i]
    requires i < |s| ==> s[i] == b
    ensures FirstIndexOf(b, s) == i
  {
  }

  /**
   * Framing: decoding stops at the first terminator, consumes it and leaves
   * everything after it unread; the text before it must be UTF-8 that
   * parses, otherwise the error is `UnexpectedByte(4)`.
   */
  lemma ByteTerminatedFraming(b: byte, kind: TextKind, body: seq<byte>, rest: seq<byte>)
    requires b !in body
    ensures ByteTerminatedDecode(b, kind, body + [b] + rest) ==
      if ValidUtf8(body) && ParseText(kind, body).Some?
      then Ok(Decoded(ParseText(kind, body).value, rest))
      else Err(UnexpectedByte(4))
  {
    var input := body + [b] + rest;
    assert input[..|body|] == body;
    FirstIndexUnique(b, input, |body|);
    assert input[|body| + 1..] == rest;
  }

  /** Without any terminator the decoder reads to the end and still succeeds on good text. */
  lemma ByteTerminatedUnterminated(b: byte, kind: TextKind, body: seq<byte>)
    requires b !in body
    ensures ByteTerminatedDecode(b, kind, body) ==
      if ValidUtf8(body) && ParseText(kind, body).Some?
      then Ok(Decoded(ParseText(kind, body).value, []))
      else Err(UnexpectedByte(4))
  {
    assert body[..|body|] == body;
    FirstIndexUnique(b, body, |body|);
  }

  /**
   * Round trip: a value followed by any further bytes decodes back to the
   * value and leaves exactly those bytes, if and only if the value's text
   * does not contain the terminator (the debug-asserted precondition).
   */
  lemma ByteTerminatedRoundTrip(b: byte, t: Text, rest: seq<byte>)
    requires WellFormedText(t)
    ensures ByteTerminatedDecode(b, KindOf(t), ByteTerminatedEncode(b, t) + rest) == Ok(Decoded(t, rest))
      <==> b !in ToText(t)
  {
    var text := ToText(t);
    var input := ByteTerminatedEncode(b, t) + rest;
    assert input == text + [b] + rest;
    TextRoundTrip(t);
    if b !in text {
      ByteTerminatedFraming(b, KindOf(t), text, rest);
    } else {
      var i := FirstIndexOf(b, text);
      assert input[..|text|] == text;
      assert input[..i] == text[..i];
      FirstIndexUnique(b, input, i);
      var r := ByteTerminatedDecode(b, KindOf(t), input);
      if r.Ok? {
        assert r.value.rest == input[i + 1..];
        assert |r.value.rest| > |rest|;
      }
    }
  }

  /** The bytes of the encoder's own test: "1234," and "1234,567,8,". */
  const DIGITS_1234: seq<byte> := [49, 50, 51, 52]                             // "1234"
  const COMMA_ENCODED: seq<byte> := [49, 50, 51, 52, 44]                       // "1234,"
  const COMMA_STREAM: seq<byte> := [49, 50, 51, 52, 44, 53, 54, 55, 44, 56, 44] // "1234,567,8,"
  const COMMA_STREAM_REST: seq<byte> := [53, 54, 55, 44, 56, 44]               // "567,8,"

  /** `ByteTerminatedString<b',', u64>(1234)` encodes as "1234,", five bytes. */
  lemma CommaTerminatedEncodeExample()
    ensures ByteTerminatedEncode(COMMA, Num(1234)) == COMMA_ENCODED
    ensures ByteTerminatedEncodingLength(Num(1234)) == |COMMA_ENCODED|
  {
    Show1234();
  }

  /** Decoding "1234,567,8," yields 1234 and leaves "567,8," unread. */
  lemma CommaTerminatedDecodeExample()
    ensures ByteTerminatedDecode(COMMA, U64Kind, COMMA_STREAM) == Ok(Decoded(Num(1234), COMMA_STREAM_REST))
  {
    Show1234();
    CommaStreamSplit();
    DecodeNumberThenRest(1234, COMMA_STREAM_REST);
  }

  lemma CommaStreamSplit()
    ensures COMMA_STREAM == DIGITS_1234 + [COMMA] + COMMA_STREAM_REST
  {
  }

  /** A printed number, a comma and any further bytes decode to the number and those bytes. */
  lemma DecodeNumberThenRest(n: u64, rest: seq<byte>)
    ensures ByteTerminatedDecode(COMMA, U64Kind, ShowNat(n) + [COMMA] + rest) == Ok(Decoded(Num(n), rest))
  {
    ParseShowU64(n);
    ShowNatIsAscii(n);
    ByteTerminatedFraming(COMMA, U64Kind, ShowNat(n), rest);
  }

  lemma Show1234()
    ensures ShowNat(1234) == DIGITS_1234
  {
    assert ShowNat(1) == [49];
    assert ShowNat(12) == [49, 50];
    assert ShowNat(123) == [49, 50, 51];
  }

  // ---------------------------------------------------------------------
  // EofTerminatedString<T>

  function EofEncode(t: Text): seq<byte>
  {
    ToText(t)
  }

  /** `encoding_length` as written: one byte more than `encode_into` writes. */
  function EofEncodingLength(t: Text): nat
  {
    |ToText(t)| + 1
  }

  lemma EofEncodingLengthOverstates(t: Text)
    ensures EofEncodingLength(t) == |EofEncode(t)| + 1
  {
  }

  /** The length `encode_into` actually produces. */
  function EofEncodingLengthCorrected(t: Text): (n: nat)
    ensures n == |EofEncode(t)|
  {
    |ToText(t)|
  }

  /**
   * `EofTerminatedString::decode`: `read_to_string` takes all remaining
   * input (an I/O `InvalidData` error if it is not UTF-8), then `parse`
   * (`UnexpectedByte(4)` on failure).  Nothing is left over.
   */
  function EofDecode(kind: TextKind, input: seq<byte>): (r: Result<Decoded<Text>>)
    ensures r.Ok? ==> r.value.rest == []
    ensures r.Err? ==> r.error == Io(InvalidData) || r.error == UnexpectedByte(4)
  {
    if !ValidUtf8(input) then Err(Io(InvalidData))
    else
      match ParseText(kind, input)
      case None => Err(UnexpectedByte(4))
      case Some(t) => Ok(Decoded(t, []))
  }

  lemma EofRoundTrip(t: Text)
    requires WellFormedText(t)
    ensures EofDecode(KindOf(t), EofEncode(t)) == Ok(Decoded(t, []))
  {
    TextRoundTrip(t);
  }

  /** `EofTerminatedString<u64>(1234)` encodes as "1234" and decodes back. */
  lemma EofExample()
    ensures EofEncode(Num(1234)) == DIGITS_1234
    ensures EofDecode(U64Kind, DIGITS_1234) == Ok(Decoded(Num(1234), []))
  {
    Show1234();
    EofRoundTrip(Num(1234));
  }

  // ---------------------------------------------------------------------
  // FixedString<S>

  function FixedEncode(s: seq<byte>): seq<byte>
  {
    s
  }

  /** Reads exactly `|S|` bytes and compares them with `S`. */
  function FixedDecode(s: seq<byte>, input: seq<byte>): (r: Result<Decoded<()>>)
  {
    if |input| < |s| then Err(Io(UnexpectedEof))
    else if input[..|s|] != s then Err(UnexpectedByte(3))
    else Ok(Decoded((), input[|s|..]))
  }

  /** The label decodes exactly when the input starts with it; short input is an I/O error, a mismatch `UnexpectedByte(3)`. */
  lemma FixedDecodeCases(s: seq<byte>, input: seq<byte>)
    ensures FixedDecode(s, input).Ok? <==> s <= input
    ensures FixedDecode(s, input).Ok? ==> s + FixedDecode(s, input).value.rest == input
    ensures |input| < |s| ==> FixedDecode(s, input) == Err(Io(UnexpectedEof))
    ensures |input| >= |s| && !(s <= input) ==> FixedDecode(s, input) == Err(UnexpectedByte(3))
  {
    if |input| >= |s| && input[..|s|] == s {
      assert s + input[|s|..] == input;
    }
  }

  lemma FixedRoundTrip(s: seq<byte>, rest: seq<byte>)
    ensures FixedDecode(s, FixedEncode(s) + rest) == Ok(Decoded((), rest))
  {
    assert (s + rest)[..|s|] == s;
    assert (s + rest)[|s|..] == rest;
  }

  // ---------------------------------------------------------------------
  // LengthVec<P, T>

  /** The unsigned integer type `P` of the count. */
  datatype LenType = U8 | U16 | U32 | U64 | U128

  function Width(p: LenType): nat
  {
    match p
    case U8 => 1
    case U16 => 2
    case U32 => 4
    case U64 => 8
    case U128 => 16
  }

  /** `usize` on a 64-bit target. */
  const USIZE_LIMIT: nat := 0x1_0000_0000_0000_0000

  /** `len` and `values` are separate fields: `new` does not check that they agree. */
  datatype LengthVec<T> = LengthVec(len: nat, values: seq<T>)

  /** The derived `Vec<T>` encoding: elements one after another. */
  function ConcatEncodings<T>(enc: T -> seq<byte>, xs: seq<T>): seq<byte>
  {
    if xs == [] then [] else enc(xs[0]) + ConcatEncodings(enc, xs[1..])
  }

  /** `encode` / `flush`: the count in `P`'s big-endian form, then each element. */
  function LengthVecEncode<T>(p: LenType, enc: T -> seq<byte>, v: LengthVec<T>): seq<byte>
    requires v.len < Pow256(Width(p))
  {
    EncodeBE(v.len, Width(p)) + ConcatEncodings(enc, v.values)
  }

  function DecodeCount(p: LenType, input: seq<byte>): Result<Decoded<nat>>
  {
    if |input| < Width(p) then Err(Io(UnexpectedEof))
    else Ok(Decoded(DecodeBE(input[..Width(p)]), input[Width(p)..]))
  }

  /** Decode `count` elements one after another, failing at the first error. */
  function DecodeMany<T>(dec: seq<byte> -> Result<Decoded<T>>, count: nat, input: seq<byte>): Result<Decoded<seq<T>>>
  {
    if count == 0 then Ok(Decoded([], input))
    else
      var first :- dec(input);
      var others :- DecodeMany(dec, count - 1, first.rest);
      Ok(Decoded([first.value] + others.value, others.rest))
  }

  /**
   * `LengthVec::decode` and `State::load` without their preallocation: the
   * count, `UnexpectedByte(80)` when it exceeds `usize`, then the elements.
   */
  function LengthVecDecode<T>(p: LenType, dec: seq<byte> -> Result<Decoded<T>>, input: seq<byte>)
    : (r: Result<Decoded<LengthVec<T>>>)
    ensures r.Ok? ==> r.value.value.len == |r.value.value.values| < USIZE_LIMIT
  {
    var count :- DecodeCount(p, input);
    if count.value >= USIZE_LIMIT then Err(UnexpectedByte(80))
    else
      var values :- DecodeMany(dec, count.value, count.rest);
      DecodeManyLength(dec, count.value, count.rest);
      Ok(Decoded(LengthVec(count.value, values.value), values.rest))
  }

  /** `isize::MAX` on a 64-bit target: the most bytes `Vec::with_capacity` may ask for. */
  const ISIZE_MAX: nat := 0x7FFF_FFFF_FFFF_FFFF

  /** Whether `Vec::with_capacity(count)`, for elements of `elemSize` bytes, panics with "capacity overflow". */
  predicate CapacityOverflows(elemSize: nat, count: nat)
  {
    count * elemSize > ISIZE_MAX
  }

  /**
   * `LengthVec::decode` and `State::load` as written: `Vec::with_capacity`
   * reserves room for the announced count before any element is read, so a
   * count whose elements (`elemSize` bytes each, `size_of::<T>()`) would
   * exceed `isize::MAX` bytes panics, whatever input follows.
   */
  function LengthVecDecodeAsWritten<T>(p: LenType, elemSize: nat, dec: seq<byte> -> Result<Decoded<T>>,
                                       input: seq<byte>): Result<Decoded<LengthVec<T>>>
  {
    var count :- DecodeCount(p, input);
    if count.value >= USIZE_LIMIT then Err(UnexpectedByte(80))
    else if CapacityOverflows(elemSize, count.value) then Err(Panic("capacity overflow"))
    else
      var values :- DecodeMany(dec, count.value, count.rest);
      Ok(Decoded(LengthVec(count.value, values.value), values.rest))
  }

  /** The preallocation only adds the capacity panic; otherwise the code decodes as `LengthVecDecode`. */
  lemma CapacityOnlyAddsPanic<T>(p: LenType, elemSize: nat, dec: seq<byte> -> Result<Decoded<T>>, input: seq<byte>)
    ensures var c := DecodeCount(p, input);
      LengthVecDecodeAsWritten(p, elemSize, dec, input)
        == if c.Ok? && c.value.value < USIZE_LIMIT && CapacityOverflows(elemSize, c.value.value)
           then Err(Panic("capacity overflow"))
           else LengthVecDecode(p, dec, input)
  {
  }

  /** A `u64` count of 2^63 with nothing after it. */
  const HUGE_COUNT: seq<byte> := EncodeBE(0x8000_0000_0000_0000, 8)

  /**
   * The eight bytes `80 00 00 00 00 00 00 00`, announcing 2^63 one-byte
   * elements, make the decoder panic, where decoding without
   * preallocation reports the first element's error.
   */
  lemma CapacityOverflowExample<T>(dec: seq<byte> -> Result<Decoded<T>>)
    requires dec([]).Err?
    ensures HUGE_COUNT == [128, 0, 0, 0, 0, 0, 0, 0]
    ensures LengthVecDecodeAsWritten(U64, 1, dec, HUGE_COUNT) == Err(Panic("capacity overflow"))
    ensures LengthVecDecode(U64, dec, HUGE_COUNT) == Err(dec([]).error)
  {
    HugeCountBytes();
    assert DecodeCount(U64, HUGE_COUNT) == Ok(Decoded(0x8000_0000_0000_0000, [])) by {
      DecodeEncodeBE(0x8000_0000_0000_0000, 8);
      assert HUGE_COUNT[..8] == HUGE_COUNT && HUGE_COUNT[8..] == [];
    }
    assert CapacityOverflows(1, 0x8000_0000_0000_0000);
    assert DecodeMany(dec, 0x8000_0000_0000_0000, []) == Err(dec([]).error);
  }

  lemma HugeCountBytes()
    ensures HUGE_COUNT == [128, 0, 0, 0, 0, 0, 0, 0]
  {
    assert EncodeBE(0x80, 1) == [128];
    assert EncodeBE(0x8000, 2) == [128, 0];
    assert EncodeBE(0x80_0000, 3) == [128, 0, 0];
    assert EncodeBE(0x8000_0000, 4) == [128, 0, 0, 0];
    assert EncodeBE(0x80_0000_0000, 5) == [128, 0, 0, 0, 0];
    assert EncodeBE(0x8000_0000_0000, 6) == [128, 0, 0, 0, 0, 0];
    assert EncodeBE(0x80_0000_0000_0000, 7) == [128, 0, 0, 0, 0, 0, 0];
  }

  /** Element decoders that report errors rather than panicking. */
  ghost predicate NeverPanics<T>(dec: seq<byte> -> Result<Decoded<T>>)
  {
    forall bs :: dec(bs).Err? ==> !dec(bs).error.Panic?
  }

  lemma {:induction false} DecodeManyNeverPanics<T>(dec: seq<byte> -> Result<Decoded<T>>, count: nat, input: seq<byte>)
    requires NeverPanics(dec)
    ensures DecodeMany(dec, count, input).Err? ==> !DecodeMany(dec, count, input).error.Panic?
  {
    if count > 0 && dec(input).Ok? {
      DecodeManyNeverPanics(dec, count - 1, dec(input).value.rest);
    }
  }

  /** Without the preallocation, decoding with a decoder that never panics never panics either. */
  lemma LengthVecDecodeNeverPanics<T>(p: LenType, dec: seq<byte> -> Result<Decoded<T>>, input: seq<byte>)
    requires NeverPanics(dec)
    ensures LengthVecDecode(p, dec, input).Err? ==> !LengthVecDecode(p, dec, input).error.Panic?
  {
    var c := DecodeCount(p, input);
    if c.Ok? {
      DecodeManyNeverPanics(dec, c.value.value, c.value.rest);
    }
  }

  /** Put already decoded elements in front of a `DecodeMany` result. */
  function Prepend<T>(done: seq<T>, r: Result<Decoded<seq<T>>>): Result<Decoded<seq<T>>>
  {
    match r
    case Err(e) => Err(e)
    case Ok(d) => Ok(Decoded(done + d.value, d.rest))
  }

  /**
   * `LengthVec::decode` / `load`: read the count, convert it to `usize`
   * (`UnexpectedByte(80)` if it does not fit), reserve room for that many
   * elements, then loop that many times, pushing each decoded element.
   */
  method DecodeLengthVec<T>(p: LenType, elemSize: nat, dec: seq<byte> -> Result<Decoded<T>>, input: seq<byte>)
    returns (r: Result<Decoded<LengthVec<T>>>)
    ensures r == LengthVecDecodeAsWritten(p, elemSize, dec, input)
  {
    var count := DecodeCount(p, input);
    if count.Err? {
      return Err(count.error);
    }
    var len := count.value.value;
    if len >= USIZE_LIMIT {
      return Err(UnexpectedByte(80));
    }
    if len * elemSize > ISIZE_MAX {
      return Err(Panic("capacity overflow"));
    }
    var values: seq<T> := [];
    var cur := count.value.rest;
    var i := 0;
    PrependNothing(DecodeMany(dec, len, cur));
    while i < len
      invariant 0 <= i <= len
      invariant DecodeMany(dec, len, count.value.rest) == Prepend(values, DecodeMany(dec, len - i, cur))
    {
      var d := dec(cur);
      if d.Err? {
        return Err(d.error);
      }
      assert values + ([d.value.value] + []) == values + [d.value.value];
      PrependStep(values, d.value.value, DecodeMany(dec, len - i - 1, d.value.rest));
      values := values + [d.value.value];
      cur := d.value.rest;
      i := i + 1;
    }
    assert Prepend(values, DecodeMany(dec, 0, cur)) == Ok(Decoded(values + [], cur));
    assert values + [] == values;
    r := Ok(Decoded(LengthVec(len, values), cur));
  }

  lemma PrependNothing<T>(r: Result<Decoded<seq<T>>>)
    ensures Prepend([], r) == r
  {
    if r.Ok? {
      assert [] + r.value.value == r.value.value;
    }
  }

  lemma PrependStep<T>(done: seq<T>, x: T, r: Result<Decoded<seq<T>>>)
    ensures Prepend(done, (if r.Err? then Err(r.error) else Ok(Decoded([x] + r.value.value, r.value.rest))))
         == Prepend(done + [x], r)
  {
    if r.Ok? {
      assert done + ([x] + r.value.value) == done + [x] + r.value.value;
    }
  }

  /** `DecodeMany` yields exactly `count` elements. */
  lemma {:induction false} DecodeManyLength<T>(dec: seq<byte> -> Result<Decoded<T>>, count: nat, input: seq<byte>)
    ensures DecodeMany(dec, count, input).Ok? ==> |DecodeMany(dec, count, input).value.value| == count
  {
    if count > 0 && dec(input).Ok? {
      DecodeManyLength(dec, count - 1, dec(input).value.rest);
    }
  }

  /** Each element's codec round-trips and is self-delimiting (`Terminated`). */
  ghost predicate SelfDelimiting<T(!new)>(enc: T -> seq<byte>, dec: seq<byte> -> Result<Decoded<T>>)
  {
    forall x: T, rest: seq<byte> {:trigger dec(enc(x) + rest)} :: dec(enc(x) + rest) == Ok(Decoded(x, rest))
  }

  lemma {:induction false} DecodeManyRoundTrip<T(!new)>(enc: T -> seq<byte>, dec: seq<byte> -> Result<Decoded<T>>, xs: seq<T>, rest: seq<byte>)
    requires SelfDelimiting(enc, dec)
    ensures DecodeMany(dec, |xs|, ConcatEncodings(enc, xs) + rest) == Ok(Decoded(xs, rest))
  {
    if xs != [] {
      var tail := ConcatEncodings(enc, xs[1..]) + rest;
      assert ConcatEncodings(enc, xs) + rest == enc(xs[0]) + tail;
      assert dec(enc(xs[0]) + tail) == Ok(Decoded(xs[0], tail));
      DecodeManyRoundTrip(enc, dec, xs[1..], rest);
      assert |xs[1..]| == |xs| - 1;
      assert DecodeMany(dec, |xs| - 1, tail) == Ok(Decoded(xs[1..], rest));
      assert [xs[0]] + xs[1..] == xs;
    } else {
      assert ConcatEncodings(enc, xs) + rest == rest;
    }
  }

  /**
   * Round trip of `LengthVec`: an encoded value followed by any bytes decodes
   * back to itself, leaving those bytes, if and only if its count field
   * equals the number of its elements (which `new` does not ensure).
   */
  lemma LengthVecRoundTrip<T(!new)>(p: LenType, enc: T -> seq<byte>, dec: seq<byte> -> Result<Decoded<T>>,
                                    v: LengthVec<T>, rest: seq<byte>)
    requires SelfDelimiting(enc, dec)
    requires v.len < Pow256(Width(p))
    requires |v.values| < USIZE_LIMIT
    ensures LengthVecDecode(p, dec, LengthVecEncode(p, enc, v) + rest) == Ok(Decoded(v, rest))
      <==> v.len == |v.values|
  {
    var w := Width(p);
    var input := LengthVecEncode(p, enc, v) + rest;
    var body := ConcatEncodings(enc, v.values) + rest;
    assert input == EncodeBE(v.len, w) + body;
    assert input[..w] == EncodeBE(v.len, w);
    assert input[w..] == body;
    DecodeEncodeBE(v.len, w);
    assert DecodeCount(p, input) == Ok(Decoded(v.len, body));
    if v.len == |v.values| {
      DecodeManyRoundTrip(enc, dec, v.values, rest);
    } else {
      DecodeManyLength(dec, v.len, body);
    }
  }

  /** `TryFrom<Vec<T>>`: the count is the vector's length, or `Overflow` if `P` cannot hold it. */
  function LengthVecFromValues<T>(p: LenType, values: seq<T>): (r: Result<LengthVec<T>>)
    ensures r.Ok? ==> r.value.len < Pow256(Width(p))
  {
    if |values| < Pow256(Width(p)) then Ok(LengthVec(|values|, values)) else Err(Overflow)
  }

  /** A `LengthVec` built by `TryFrom` is consistent, so it always round-trips. */
  lemma FromValuesRoundTrip<T(!new)>(p: LenType, enc: T -> seq<byte>, dec: seq<byte> -> Result<Decoded<T>>,
                                     values: seq<T>, rest: seq<byte>)
    requires SelfDelimiting(enc, dec)
    requires |values| < USIZE_LIMIT
    ensures LengthVecFromValues(p, values).Ok? <==> |values| < Pow256(Width(p))
    ensures LengthVecFromValues(p, values).Err? ==> LengthVecFromValues(p, values).error == Overflow
    ensures LengthVecFromValues(p, values).Ok? ==>
      var v := LengthVecFromValues(p, values).value;
      v.values == values && LengthVecDecode(p, dec, LengthVecEncode(p, enc, v) + rest) == Ok(Decoded(v, rest))
  {
    if |values| < Pow256(Width(p)) {
      LengthVecRoundTrip(p, enc, dec, LengthVec(|values|, values), rest);
    }
  }
}

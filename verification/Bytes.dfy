/**
 * Byte-level building blocks shared by the codecs: the byte type, named
 * ASCII bytes, fixed-width big-endian integers (the encoding `ed` uses for
 * `u16`, `u32`, `u64`), Rust's `u64` decimal `to_string` / `from_str`,
 * UTF-8 well-formedness (what `String::from_utf8` accepts) and the
 * byte-lexicographic order in which the store sorts keys.
 */
module Bytes {
  import opened Results

  type byte = b: int | 0 <= b < 0x100
  type u16 = n: int | 0 <= n < 0x1_0000
  type u64 = n: int | 0 <= n < 0x1_0000_0000_0000_0000

  const U64_LIMIT: nat := 0x1_0000_0000_0000_0000

  const PLUS: byte := 43    // '+'
  const MINUS: byte := 45   // '-'
  const SLASH: byte := 47   // '/'
  const COMMA: byte := 44   // ','
  const ZERO: byte := 48    // '0'

  // ---------------------------------------------------------------------
  // Fixed-width big-endian unsigned integers

  function Pow256(w: nat): (p: nat)
    ensures p >= 1
  {
    if w == 0 then 1 else 256 * Pow256(w - 1)
  }

  /** `n` written as `w` bytes, most significant first. */
  function EncodeBE(n: nat, w: nat): (r: seq<byte>)
    requires n < Pow256(w)
    ensures |r| == w
  {
    if w == 0 then [] else EncodeBE(n / 256, w - 1) + [n % 256]
  }

  /** The unsigned value of a big-endian byte string. */
  function DecodeBE(s: seq<byte>): nat
  {
    if s == [] then 0 else DecodeBE(s[..|s| - 1]) * 256 + s[|s| - 1]
  }

  lemma {:induction false} DecodeBEBound(s: seq<byte>)
    ensures DecodeBE(s) < Pow256(|s|)
  {
    if s != [] {
      DecodeBEBound(s[..|s| - 1]);
      var h := DecodeBE(s[..|s| - 1]);
      assert h + 1 <= Pow256(|s| - 1);
      assert h * 256 + 256 <= Pow256(|s| - 1) * 256;
    }
  }

  /** Big-endian decoding inverts big-endian encoding. */
  lemma {:induction false} DecodeEncodeBE(n: nat, w: nat)
    requires n < Pow256(w)
    ensures DecodeBE(EncodeBE(n, w)) == n
  {
    if w > 0 {
      var e := EncodeBE(n, w);
      assert n / 256 < Pow256(w - 1);
      assert e[..|e| - 1] == EncodeBE(n / 256, w - 1);
      DecodeEncodeBE(n / 256, w - 1);
    }
  }

  /** ... and encoding inverts decoding: every `w`-byte string is canonical. */
  lemma {:induction false} EncodeDecodeBE(s: seq<byte>)
    ensures DecodeBE(s) < Pow256(|s|)
    ensures EncodeBE(DecodeBE(s), |s|) == s
  {
    DecodeBEBound(s);
    if s != [] {
      var init := s[..|s| - 1];
      EncodeDecodeBE(init);
      var n := DecodeBE(s);
      assert n / 256 == DecodeBE(init) && n % 256 == s[|s| - 1];
      assert s == init + [s[|s| - 1]];
    }
  }

  // ---------------------------------------------------------------------
  // Decimal text of unsigned integers (Rust's `u64::to_string` and
  // `u64::from_str`)

  predicate IsDigit(b: byte) { ZERO <= b <= ZERO + 9 }

  predicate AllDigits(s: seq<byte>) { forall i | 0 <= i < |s| :: IsDigit(s[i]) }

  /** The shortest decimal form of `n`: no sign, no leading zero. */
  function ShowNat(n: nat): (r: seq<byte>)
    ensures |r| >= 1 && AllDigits(r)
    ensures r[0] != ZERO || n == 0
  {
    if n < 10 then [ZERO + n] else ShowNat(n / 10) + [ZERO + n % 10]
  }

  function DigitsValue(s: seq<byte>): nat
    requires AllDigits(s)
  {
    if s == [] then 0 else DigitsValue(s[..|s| - 1]) * 10 + (s[|s| - 1] - ZERO)
  }

  /**
   * `str::parse::<u64>`: an optional leading '+', then one or more decimal
   * digits (leading zeros allowed) whose value fits in 64 bits.
   */
  function ParseU64(s: seq<byte>): (r: Option<u64>)
    ensures r.Some? ==> |s| > 0
  {
    if |s| == 0 then None
    else if s[0] == PLUS then ParseDigits(s[1..])
    else ParseDigits(s)
  }

  function ParseDigits(s: seq<byte>): Option<u64>
  {
    if s != [] && AllDigits(s) && DigitsValue(s) < U64_LIMIT then Some(DigitsValue(s)) else None
  }

  lemma {:induction false} DigitsValueOfShow(n: nat)
    ensures DigitsValue(ShowNat(n)) == n
  {
    if n >= 10 {
      var r := ShowNat(n);
      assert r[..|r| - 1] == ShowNat(n / 10);
      DigitsValueOfShow(n / 10);
    }
  }

  /** Parsing the printed form of a `u64` gives the value back. */
  lemma ParseShowU64(n: u64)
    ensures ParseU64(ShowNat(n)) == Some(n)
  {
    DigitsValueOfShow(n);
    assert ShowNat(n)[0] != PLUS;
  }

  /** A successful parse accepts only digits after the optional sign. */
  lemma ParseU64Digits(s: seq<byte>)
    requires ParseU64(s).Some?
    ensures s[0] == PLUS || AllDigits(s)
    ensures s[0] == PLUS ==> |s| >= 2 && AllDigits(s[1..])
  {
  }

  // ---------------------------------------------------------------------
  // UTF-8 well-formedness, following table 3-7 of the Unicode Standard
  // (the check made by Rust's `String::from_utf8` and `str::from_utf8`)

  predicate IsContinuation(b: byte) { 0x80 <= b <= 0xBF }

  /** Length of the well-formed character at the start of `s`, or 0 if there is none. */
  function LeadingCharLength(s: seq<byte>): (n: nat)
    requires |s| > 0
    ensures n <= 4 && n <= |s|
  {
    var b0 := s[0];
    if b0 < 0x80 then 1
    else if 0xC2 <= b0 <= 0xDF then
      (if |s| >= 2 && IsContinuation(s[1]) then 2 else 0)
    else if b0 == 0xE0 then
      (if |s| >= 3 && 0xA0 <= s[1] <= 0xBF && IsContinuation(s[2]) then 3 else 0)
    else if 0xE1 <= b0 <= 0xEC || 0xEE <= b0 <= 0xEF then
      (if |s| >= 3 && IsContinuation(s[1]) && IsContinuation(s[2]) then 3 else 0)
    else if b0 == 0xED then
      (if |s| >= 3 && 0x80 <= s[1] <= 0x9F && IsContinuation(s[2]) then 3 else 0)
    else if b0 == 0xF0 then
      (if |s| >= 4 && 0x90 <= s[1] <= 0xBF && IsContinuation(s[2]) && IsContinuation(s[3]) then 4 else 0)
    else if 0xF1 <= b0 <= 0xF3 then
      (if |s| >= 4 && IsContinuation(s[1]) && IsContinuation(s[2]) && IsContinuation(s[3]) then 4 else 0)
    else if b0 == 0xF4 then
      (if |s| >= 4 && 0x80 <= s[1] <= 0x8F && IsContinuation(s[2]) && IsContinuation(s[3]) then 4 else 0)
    else 0
  }

  predicate ValidUtf8(s: seq<byte>)
    decreases |s|
  {
    s == [] || (LeadingCharLength(s) > 0 && ValidUtf8(s[LeadingCharLength(s)..]))
  }

  predicate IsAscii(s: seq<byte>) { forall i | 0 <= i < |s| :: s[i] < 0x80 }

  /** ASCII text, in particular every decimal numeral, is valid UTF-8. */
  lemma {:induction false} AsciiIsUtf8(s: seq<byte>)
    requires IsAscii(s)
    ensures ValidUtf8(s)
  {
    if s != [] {
      assert LeadingCharLength(s) == 1;
      AsciiIsUtf8(s[1..]);
    }
  }

  lemma ShowNatIsAscii(n: nat)
    ensures IsAscii(ShowNat(n)) && ValidUtf8(ShowNat(n))
  {
    AsciiIsUtf8(ShowNat(n));
  }

  // ---------------------------------------------------------------------
  // Byte-lexicographic order (the order of keys in the store)

  predicate LexLess(a: seq<byte>, b: seq<byte>)
  {
    if a == [] then b != []
    else if b == [] then false
    else a[0] < b[0] || (a[0] == b[0] && LexLess(a[1..], b[1..]))
  }

  /** A shared leading segment does not change how two keys compare. */
  lemma {:induction false} LexLessCommonPrefix(p: seq<byte>, a: seq<byte>, b: seq<byte>)
    ensures LexLess(p + a, p + b) <==> LexLess(a, b)
  {
    if p != [] {
      assert (p + a)[1..] == p[1..] + a;
      assert (p + b)[1..] == p[1..] + b;
      LexLessCommonPrefix(p[1..], a, b);
    } else {
      assert p + a == a && p + b == b;
    }
  }

  lemma {:induction false} LexLessIrreflexive(a: seq<byte>)
    ensures !LexLess(a, a)
  {
    if a != [] { LexLessIrreflexive(a[1..]); }
  }

  lemma {:induction false} LexLessTransitive(a: seq<byte>, b: seq<byte>, c: seq<byte>)
    requires LexLess(a, b) && LexLess(b, c)
    ensures LexLess(a, c)
  {
    if a != [] && b != [] && c != [] && a[0] == b[0] == c[0] {
      LexLessTransitive(a[1..], b[1..], c[1..]);
    }
  }

  lemma {:induction false} LexLessTotal(a: seq<byte>, b: seq<byte>)
    requires a != b
    ensures LexLess(a, b) || LexLess(b, a)
  {
    if a != [] && b != [] && a[0] == b[0] {
      assert a == [a[0]] + a[1..] && b == [b[0]] + b[1..];
      LexLessTotal(a[1..], b[1..]);
    }
  }

  lemma {:induction false} LexLessAsymmetric(a: seq<byte>, b: seq<byte>)
    requires LexLess(a, b)
    ensures !LexLess(b, a)
  {
    if a != [] && b != [] && a[0] == b[0] {
      LexLessAsymmetric(a[1..], b[1..]);
    }
  }

  /** Fixed-width big-endian encoding preserves the order of the numbers. */
  lemma {:induction false} EncodeBEOrder(m: nat, n: nat, w: nat)
    requires m < Pow256(w) && n < Pow256(w)
    ensures LexLess(EncodeBE(m, w), EncodeBE(n, w)) <==> m < n
  {
    if w > 0 {
      var em, en := EncodeBE(m, w), EncodeBE(n, w);
      assert m / 256 < Pow256(w - 1) && n / 256 < Pow256(w - 1);
      EncodeBEOrder(m / 256, n / 256, w - 1);
      LexLessSnoc(EncodeBE(m / 256, w - 1), EncodeBE(n / 256, w - 1), m % 256, n % 256);
      if m / 256 == n / 256 {
        DecodeEncodeBE(m / 256, w - 1);
      } else {
        DecodeEncodeBE(m / 256, w - 1);
        DecodeEncodeBE(n / 256, w - 1);
      }
    }
  }

  /** Equal-length leading parts decide first; only when they agree do the tails compare. */
  lemma {:induction false} LexLessConcat(a: seq<byte>, b: seq<byte>, c: seq<byte>, d: seq<byte>)
    requires |a| == |c|
    ensures LexLess(a + b, c + d) <==> LexLess(a, c) || (a == c && LexLess(b, d))
  {
    if a != [] {
      assert (a + b)[1..] == a[1..] + b;
      assert (c + d)[1..] == c[1..] + d;
      LexLessConcat(a[1..], b, c[1..], d);
      if a[0] == c[0] && a[1..] == c[1..] {
        assert a == [a[0]] + a[1..] && c == [c[0]] + c[1..];
      }
    } else {
      assert a + b == b && c + d == d;
    }
  }

  /** Comparing two equal-length strings, each extended by one byte. */
  lemma {:induction false} LexLessSnoc(a: seq<byte>, b: seq<byte>, x: byte, y: byte)
    requires |a| == |b|
    ensures LexLess(a + [x], b + [y]) <==> LexLess(a, b) || (a == b && x < y)
  {
    if a != [] {
      assert (a + [x])[1..] == a[1..] + [x];
      assert (b + [y])[1..] == b[1..] + [y];
      LexLessSnoc(a[1..], b[1..], x, y);
      if a[0] == b[0] && a[1..] == b[1..] {
        assert a == [a[0]] + a[1..] && b == [b[0]] + b[1..];
      }
    }
  }
}

/** Submitted passwords as UTF-16 text: which the scan lets through, and how they are measured. */
module Passwords {
  import opened Collections

  type CodeUnit = n: int | 0 <= n < 0x10000

  const MINIMUM_CODE_POINTS: nat := 6
  const MAXIMUM_CODE_POINTS: nat := 256
  const MAXIMUM_UTF8_BYTES: nat := 1024

  predicate IsHigh(u: CodeUnit) {
    0xd800 <= u <= 0xdbff
  }

  predicate IsLow(u: CodeUnit) {
    0xdc00 <= u <= 0xdfff
  }

  // ---------- well-formed text ----------

  /** A Unicode scalar value: any code point but a surrogate. */
  predicate IsScalar(c: int) {
    0 <= c < 0xd800 || 0xe000 <= c < 0x110000
  }

  /** UTF-16 as section 3.9 of the Unicode Standard defines it. */
  function EncodeScalar(c: int): seq<CodeUnit>
    requires IsScalar(c)
  {
    if c < 0x10000 then [c] else [0xd800 + (c - 0x10000) / 0x400, 0xdc00 + (c - 0x10000) % 0x400]
  }

  function Encode(scalars: seq<int>): seq<CodeUnit>
    requires forall c :: c in scalars ==> IsScalar(c)
  {
    if scalars == [] then [] else EncodeScalar(scalars[0]) + Encode(scalars[1..])
  }

  predicate WellFormedAt(s: seq<CodeUnit>, i: nat)
    requires i < |s|
  {
    && (IsHigh(s[i]) ==> i + 1 < |s| && IsLow(s[i + 1]))
    && (IsLow(s[i]) ==> i > 0 && IsHigh(s[i - 1]))
  }

  /** Every high surrogate is followed by a low one, and every low surrogate follows a high one. */
  ghost predicate WellFormed(s: seq<CodeUnit>) {
    forall i :: 0 <= i < |s| ==> WellFormedAt(s, i)
  }

  /** The code point that a surrogate pair stands for. */
  function Combine(high: CodeUnit, low: CodeUnit): int {
    0x10000 + (high - 0xd800) * 0x400 + (low - 0xdc00)
  }

  /** The code points that iterating over the text yields; an unpaired surrogate stands for itself. */
  function CodePoints(s: seq<CodeUnit>): seq<int> {
    if s == [] then []
    else if IsHigh(s[0]) && |s| > 1 && IsLow(s[1]) then [Combine(s[0], s[1])] + CodePoints(s[2..])
    else [s[0] as int] + CodePoints(s[1..])
  }

  lemma PairEncodes(high: CodeUnit, low: CodeUnit)
    requires IsHigh(high) && IsLow(low)
    ensures IsScalar(Combine(high, low)) && EncodeScalar(Combine(high, low)) == [high, low]
  {
  }

  lemma ScalarCombines(c: int)
    requires IsScalar(c)
    ensures
      var u := EncodeScalar(c);
      if c < 0x10000 then u == [c] && !IsHigh(u[0]) && !IsLow(u[0])
      else |u| == 2 && IsHigh(u[0]) && IsLow(u[1]) && Combine(u[0], u[1]) == c
  {
  }

  /** A pair or a plain unit before well-formed text gives well-formed text. */
  lemma WellFormedFront(first: seq<CodeUnit>, rest: seq<CodeUnit>)
    requires WellFormed(rest) && WellFormed(first) && first != [] && !IsHigh(first[|first| - 1])
    ensures WellFormed(first + rest)
  {
    var s := first + rest;
    forall i | 0 <= i < |s| ensures WellFormedAt(s, i) {
      if i < |first| { assert WellFormedAt(first, i); } else { assert WellFormedAt(rest, i - |first|); }
    }
  }

  /** Text encoded from scalar values is well formed, and iterating over it gives the scalar values back. */
  lemma {:induction false} EncodedIsWellFormed(scalars: seq<int>)
    requires forall c :: c in scalars ==> IsScalar(c)
    ensures WellFormed(Encode(scalars)) && CodePoints(Encode(scalars)) == scalars
  {
    if scalars != [] {
      EncodedIsWellFormed(scalars[1..]);
      var first, rest := EncodeScalar(scalars[0]), Encode(scalars[1..]);
      ScalarCombines(scalars[0]);
      hide EncodeScalar, Combine;
      WellFormedFront(first, rest);
      var s := first + rest;
      assert s[|first|..] == rest && s[0] == first[0];
      assert |first| == 2 ==> s[1] == first[1];
      hide WellFormed, IsHigh, IsLow;
      assert scalars == [scalars[0]] + scalars[1..];
    }
  }

  lemma WellFormedTail(s: seq<CodeUnit>, n: nat)
    requires WellFormed(s) && s != [] && n == if IsHigh(s[0]) then 2 else 1
    ensures n <= |s| && WellFormed(s[n..])
  {
    assert WellFormedAt(s, 0);
    var rest := s[n..];
    forall i | 0 <= i < |rest| ensures WellFormedAt(rest, i) {
      assert WellFormedAt(s, n + i) && WellFormedAt(s, n + i - 1);
    }
  }

  lemma FirstEncodes(s: seq<CodeUnit>, n: nat)
    requires WellFormed(s) && s != [] && n == (if IsHigh(s[0]) then 2 else 1) && n <= |s|
    ensures IsScalar(CodePoints(s)[0]) && EncodeScalar(CodePoints(s)[0]) == s[..n]
    ensures n == 2 ==> IsLow(s[1])
  {
    assert WellFormedAt(s, 0);
    if n == 2 {
      PairEncodes(s[0], s[1]);
      hide EncodeScalar, Combine;
      assert s[..2] == [s[0], s[1]];
    } else {
      assert s[..1] == [s[0]];
    }
  }

  /** Well-formed text is the encoding of the scalar values that iterating over it yields. */
  lemma {:induction false} WellFormedIsEncoded(s: seq<CodeUnit>)
    requires WellFormed(s)
    ensures (forall c :: c in CodePoints(s) ==> IsScalar(c)) && Encode(CodePoints(s)) == s
  {
    if s != [] {
      assert WellFormedAt(s, 0);
      var n := if IsHigh(s[0]) then 2 else 1;
      WellFormedTail(s, n);
      WellFormedIsEncoded(s[n..]);
      FirstEncodes(s, n);
      var points := CodePoints(s);
      assert points == [points[0]] + CodePoints(s[n..]);
      hide WellFormed, CodePoints, IsScalar;
      assert points[1..] == CodePoints(s[n..]) && s == s[..n] + s[n..];
    }
  }

  // ---------- the scan ----------

  /** Well formed but for at most one unpaired high surrogate in last position. */
  ghost predicate Acceptable(s: seq<CodeUnit>) {
    WellFormed(s) || (s != [] && IsHigh(s[|s| - 1]) && WellFormed(s[..|s| - 1]))
  }

  /** What the units before a scan position have to be like; the position may be one past the end. */
  ghost predicate ScannedTo(s: seq<CodeUnit>, index: nat) {
    if index <= |s| then WellFormed(s[..index])
    else index == |s| + 1 && s != [] && IsHigh(s[|s| - 1]) && WellFormed(s[..|s| - 1])
  }

  lemma WellFormedBack(so: seq<CodeUnit>, last: seq<CodeUnit>)
    requires WellFormed(so) && WellFormed(last) && (last != [] ==> !IsLow(last[0]))
    ensures WellFormed(so + last)
  {
    var s := so + last;
    forall i | 0 <= i < |s| ensures WellFormedAt(s, i) {
      if i < |so| { assert WellFormedAt(so, i); } else { assert WellFormedAt(last, i - |so|); }
    }
  }

  lemma ScanPlain(s: seq<CodeUnit>, index: nat)
    requires index < |s| && ScannedTo(s, index) && !IsHigh(s[index]) && !IsLow(s[index])
    ensures ScannedTo(s, index + 1)
  {
    WellFormedBack(s[..index], [s[index]]);
    assert s[..index + 1] == s[..index] + [s[index]];
  }

  lemma ScanPair(s: seq<CodeUnit>, index: nat)
    requires index + 1 < |s| && ScannedTo(s, index) && IsHigh(s[index]) && IsLow(s[index + 1])
    ensures ScannedTo(s, index + 2)
  {
    WellFormedBack(s[..index], [s[index], s[index + 1]]);
    assert s[..index + 2] == s[..index] + [s[index], s[index + 1]];
  }

  /** A unit at which the scan stops spoils every text that goes on from here. */
  lemma ScanStops(s: seq<CodeUnit>, index: nat)
    requires index < |s| && ScannedTo(s, index)
    requires IsLow(s[index]) || (IsHigh(s[index]) && index + 1 < |s| && !IsLow(s[index + 1]))
    ensures !Acceptable(s)
  {
    var so, most := s[..index], s[..|s| - 1];
    if index > 0 { assert WellFormedAt(so, index - 1) && so[index - 1] == s[index - 1]; }
    assert !WellFormedAt(s, index);
    if index < |most| {
      assert most[index] == s[index];
      assert !WellFormedAt(most, index);
    }
  }

  /**
   * Reads the code unit after a high surrogate even past the end, where it is not a number and so
   * neither below nor above the low surrogates: the scan accepts well-formed text, and text whose
   * only defect is an unpaired high surrogate at the very end.
   */
  method HasValidUnicodeScalarSequence(value: seq<CodeUnit>) returns (valid: bool)
    ensures valid <==> Acceptable(value)
  {
    var index := 0;
    while index < |value|
      invariant index <= |value| + 1 && ScannedTo(value, index)
    {
      var codeUnit := value[index];
      if IsHigh(codeUnit) {
        var next := if index + 1 < |value| then Some(value[index + 1]) else None;
        if next.Some? && (next.value < 0xdc00 || next.value > 0xdfff) {
          ScanStops(value, index);
          return false;
        }
        if next.Some? { ScanPair(value, index); }
        index := index + 1;
      } else if IsLow(codeUnit) {
        ScanStops(value, index);
        return false;
      } else {
        ScanPlain(value, index);
      }
      index := index + 1;
    }
    assert value[..|value|] == value;
    valid := true;
  }

  // ---------- length ----------

  /** Bytes of one code point in UTF-8, section 3 of RFC 3629; an unpaired surrogate is written as U+FFFD. */
  function Utf8Size(c: int): nat {
    if c < 0x80 then 1 else if c < 0x800 then 2 else if c < 0x10000 then 3 else 4
  }

  function Utf8Length(codePoints: seq<int>): nat {
    if codePoints == [] then 0 else Utf8Size(codePoints[0]) + Utf8Length(codePoints[1..])
  }

  datatype Verdict = Accepted | TypeInvalid | UnicodeInvalid | TooShort | TooLong | TooLarge

  ghost function VerdictOn(password: Option<seq<CodeUnit>>): Verdict {
    match password
    case None => TypeInvalid
    case Some(s) =>
      if !Acceptable(s) then UnicodeInvalid
      else if |CodePoints(s)| < MINIMUM_CODE_POINTS then TooShort
      else if |CodePoints(s)| > MAXIMUM_CODE_POINTS then TooLong
      else if Utf8Length(CodePoints(s)) > MAXIMUM_UTF8_BYTES then TooLarge
      else Accepted
  }

  /** `password` is None for a value that is not a text. */
  method InspectPassword(password: Option<seq<CodeUnit>>) returns (verdict: Verdict)
    ensures verdict == VerdictOn(password)
  {
    if password.None? { return TypeInvalid; }
    var valid := HasValidUnicodeScalarSequence(password.value);
    if !valid { return UnicodeInvalid; }
    var codePoints := CodePoints(password.value);
    if |codePoints| < MINIMUM_CODE_POINTS { return TooShort; }
    if |codePoints| > MAXIMUM_CODE_POINTS { return TooLong; }
    if Utf8Length(codePoints) > MAXIMUM_UTF8_BYTES { return TooLarge; }
    return Accepted;
  }

  lemma {:induction false} FourBytesAtMost(codePoints: seq<int>)
    ensures Utf8Length(codePoints) <= 4 * |codePoints|
  {
    if codePoints != [] { FourBytesAtMost(codePoints[1..]); }
  }

  /** The limit in bytes can never be what refuses a password: 256 code points take at most 1024 bytes. */
  lemma TooLargeIsUnreachable(password: Option<seq<CodeUnit>>)
    ensures VerdictOn(password) != TooLarge
    ensures VerdictOn(password) == TypeInvalid <==> password.None?
    ensures VerdictOn(password) == UnicodeInvalid <==> password.Some? && !Acceptable(password.value)
    ensures
      password.Some? && Acceptable(password.value) ==>
        var n := |CodePoints(password.value)|;
        && (VerdictOn(password) == TooShort <==> n <= 5)
        && (VerdictOn(password) == Accepted <==> 6 <= n <= 256)
        && (VerdictOn(password) == TooLong <==> n >= 257)
  {
    if password.Some? { FourBytesAtMost(CodePoints(password.value)); }
  }

  /** A text of six units can be accepted although it is not the encoding of any Unicode text. */
  lemma UnpairedSurrogateIsAccepted()
    ensures
      var s: seq<CodeUnit> := [0x61, 0x61, 0x61, 0x61, 0x61, 0xd800];
      VerdictOn(Some(s)) == Accepted && !WellFormed(s)
  {
    var s: seq<CodeUnit> := [0x61, 0x61, 0x61, 0x61, 0x61, 0xd800];
    assert IsHigh(s[5]) && s[..5] == [0x61, 0x61, 0x61, 0x61, 0x61];
    assert !WellFormedAt(s, 5) && WellFormed(s[..5]);
    assert s[1..][1..] == s[2..] && s[2..][1..] == s[3..] && s[3..][1..] == s[4..] && s[4..][1..] == s[5..] == [0xd800];
    assert CodePoints(s[5..]) == [0xd800];
    assert CodePoints(s[4..]) == [0x61, 0xd800];
    assert CodePoints(s[3..]) == [0x61, 0x61, 0xd800];
    assert CodePoints(s[2..]) == [0x61, 0x61, 0x61, 0xd800];
    assert CodePoints(s[1..]) == [0x61, 0x61, 0x61, 0x61, 0xd800];
    assert |CodePoints(s)| == 6;
    TooLargeIsUnreachable(Some(s));
  }
}

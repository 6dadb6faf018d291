/**
 Models `Win1252Converter`: the per-codepoint operator `win1252toUtf8`, which
 shifts every legacy-range codepoint into the Basic Cyrillic block and leaves
 every other codepoint alone, and `apply(String)`, which maps that operator
 over a string's codepoints and rebuilds a string from them.

 A Java string is modelled by the sequence of codepoints that
 `String.codePoints()` yields; a lone surrogate is a codepoint of its own, as
 in Java. Its UTF-16 length (`String.length()`) is `Utf16Length`.
 */
module Win1252Converter {
  import opened Results
  import opened Win1252Range

  /** A value `String.codePoints()` can produce: 0 through 0x10FFFF. */
  type CodePoint = c: int | 0 <= c <= 0x10FFFF

  /** First codepoint of the target block (Cyrillic capital A). */
  const Utf8Start: int := 0x0410
  /** The fixed shift from the legacy range into the Cyrillic block. */
  const Offset: int := Utf8Start - Win1252Start
  /** Last codepoint a legacy-range codepoint can be shifted to. */
  const Utf8End: int := Win1252End + Offset

  /** The remap offset is 0x350 (848) and the target block is [0x410, 0x44F]. */
  lemma OffsetValue()
    ensures Offset == 0x350 == 848
    ensures Win1252Start + Offset == Utf8Start && Utf8End == 0x44F
  {
  }

  /** True of the codepoints the shift can produce: [Utf8Start, Utf8End]. */
  predicate InTarget(c: int) {
    Utf8Start <= c <= Utf8End
  }

  /** The per-codepoint operator `win1252toUtf8`. */
  function Win1252ToUtf8(c: int): (r: int)
    ensures Test(c) ==> r == c + 848 && 0x410 <= r <= 0x44F
    ensures !Test(c) ==> r == c
    ensures !Test(r)
  {
    if Test(c) then c + Offset else c
  }

  /** Applying the operator twice is applying it once: the target block and
      the legacy range are disjoint. */
  lemma Win1252ToUtf8Idempotent(c: int)
    ensures Win1252ToUtf8(Win1252ToUtf8(c)) == Win1252ToUtf8(c)
  {
  }

  /** Exactly when two codepoints collide under the operator: they are equal,
      or one is a legacy codepoint and the other is its Cyrillic image. */
  lemma Win1252ToUtf8Collision(a: int, b: int)
    ensures Win1252ToUtf8(a) == Win1252ToUtf8(b) <==>
      a == b || (Test(a) && b == a + Offset) || (Test(b) && a == b + Offset)
  {
  }

  /** The operator is injective on the legacy range, and injective on all
      inputs that are not already in the target block. */
  lemma Win1252ToUtf8Injective(a: int, b: int)
    requires Win1252ToUtf8(a) == Win1252ToUtf8(b)
    ensures Test(a) && Test(b) ==> a == b
    ensures !InTarget(a) && !InTarget(b) ==> a == b
  {
  }

  /** The operator is not injective on all codepoints: 0xC0 and 0x410 both
      map to 0x410. */
  lemma Win1252ToUtf8NotInjective()
    ensures Win1252ToUtf8(0xC0) == Win1252ToUtf8(0x410) == 0x410
  {
  }

  /** The inverse shift: moves the target block back onto the legacy range. */
  function Utf8ToWin1252(c: int): (r: int) {
    if InTarget(c) then c - Offset else c
  }

  /** The shift is undone by its inverse on every codepoint outside the
      target block, and the inverse is undone by the shift on every codepoint
      outside the legacy range. */
  lemma Win1252ToUtf8Inverse(c: int)
    ensures !InTarget(c) ==> Utf8ToWin1252(Win1252ToUtf8(c)) == c
    ensures !Test(c) ==> Win1252ToUtf8(Utf8ToWin1252(c)) == c
  {
  }

  /** `s.codePoints().map(win1252toUtf8)`: the operator mapped over every
      codepoint, keeping the order and the count. */
  function Convert(s: seq<CodePoint>): (r: seq<CodePoint>)
    ensures |r| == |s|
    ensures forall i :: 0 <= i < |s| ==> r[i] == Win1252ToUtf8(s[i])
    ensures forall i :: 0 <= i < |r| ==> !Test(r[i])
  {
    if s == [] then [] else [Win1252ToUtf8(s[0]) as CodePoint] + Convert(s[1..])
  }

  /** True when no codepoint of `s` lies in the legacy range. */
  predicate NoLegacy(s: seq<CodePoint>) {
    forall i :: 0 <= i < |s| ==> !Test(s[i])
  }

  /** True when no codepoint of `s` lies in the Cyrillic target block. */
  predicate NoTarget(s: seq<CodePoint>) {
    forall i :: 0 <= i < |s| ==> !InTarget(s[i])
  }

  /** Converting works piece by piece: the result for a concatenation is the
      concatenation of the results. */
  lemma ConvertConcat(a: seq<CodePoint>, b: seq<CodePoint>)
    ensures Convert(a + b) == Convert(a) + Convert(b)
  {
  }

  /** A second conversion changes nothing. */
  lemma ConvertIdempotent(s: seq<CodePoint>)
    ensures Convert(Convert(s)) == Convert(s)
  {
  }

  /** A string comes back unchanged exactly when it holds no legacy-range
      codepoint. */
  lemma ConvertUnchangedIff(s: seq<CodePoint>)
    ensures Convert(s) == s <==> NoLegacy(s)
  {
  }

  /** The inverse shift mapped over a string. */
  function Restore(s: seq<CodePoint>): (r: seq<CodePoint>)
    ensures |r| == |s|
    ensures forall i :: 0 <= i < |s| ==> r[i] == Utf8ToWin1252(s[i])
  {
    if s == [] then [] else [Utf8ToWin1252(s[0]) as CodePoint] + Restore(s[1..])
  }

  /** A string without Cyrillic-block codepoints is recovered from its
      conversion, and a string without legacy codepoints is recovered by
      converting its restoration. */
  lemma ConvertRoundTrip(s: seq<CodePoint>)
    ensures NoTarget(s) ==> Restore(Convert(s)) == s
    ensures NoLegacy(s) ==> Convert(Restore(s)) == s
  {
    forall i | 0 <= i < |s|
      ensures !InTarget(s[i]) ==> Restore(Convert(s))[i] == s[i]
      ensures !Test(s[i]) ==> Convert(Restore(s))[i] == s[i]
    {
      Win1252ToUtf8Inverse(s[i]);
    }
  }

  /** True when every codepoint lies in the Basic Multilingual Plane, so that
      each occupies exactly one UTF-16 code unit. */
  predicate AllBmp(s: seq<CodePoint>) {
    forall i :: 0 <= i < |s| ==> s[i] < 0x10000
  }

  /** `String.length()`: the number of UTF-16 code units, two for each
      supplementary-plane codepoint and one for every other. It is never
      smaller than the codepoint count, and equal to it exactly when the
      string is BMP-only. */
  function Utf16Length(s: seq<CodePoint>): (n: nat)
    ensures n >= |s|
    ensures n == |s| <==> AllBmp(s)
  {
    if s == [] then 0
    else (if s[0] < 0x10000 then 1 else 2) + Utf16Length(s[1..])
  }

  /** Conversion never changes a string's UTF-16 length. */
  lemma {:induction false} ConvertKeepsUtf16Length(s: seq<CodePoint>)
    ensures Utf16Length(Convert(s)) == Utf16Length(s)
  {
    if s != [] {
      assert Convert(s)[1..] == Convert(s[1..]);
      ConvertKeepsUtf16Length(s[1..]);
    }
  }

  predicate IsHighSurrogate(c: int) {
    0xD800 <= c <= 0xDBFF
  }

  predicate IsLowSurrogate(c: int) {
    0xDC00 <= c <= 0xDFFF
  }

  /** True when no high surrogate is directly followed by a low surrogate.
      Every stream `String.codePoints()` yields has this shape, because such a
      pair is always read as one supplementary codepoint. */
  predicate NoSplitPair(s: seq<CodePoint>) {
    forall i :: 0 < i < |s| ==> !(IsHighSurrogate(s[i - 1]) && IsLowSurrogate(s[i]))
  }

  /** Conversion never creates or removes a surrogate, so it keeps the shape
      of a `codePoints()` stream. */
  lemma ConvertKeepsNoSplitPair(s: seq<CodePoint>)
    requires NoSplitPair(s)
    ensures NoSplitPair(Convert(s))
  {
  }

  /** The supplementary codepoint a surrogate pair stands for. */
  function PairValue(high: int, low: int): (c: CodePoint)
    requires IsHighSurrogate(high) && IsLowSurrogate(low)
    ensures 0x10000 <= c
  {
    0x10000 + (high - 0xD800) * 0x400 + (low - 0xDC00)
  }

  /** A stream with one codepoint in front has no split pair exactly when
      its tail has none and the front does not start one. */
  lemma NoSplitPairCons(x: CodePoint, rest: seq<CodePoint>)
    ensures NoSplitPair([x] + rest) <==>
              NoSplitPair(rest) && (|rest| > 0 ==> !(IsHighSurrogate(x) && IsLowSurrogate(rest[0])))
  {
    var s := [x] + rest;
    if NoSplitPair(s) {
      forall i | 0 < i < |rest|
        ensures !(IsHighSurrogate(rest[i - 1]) && IsLowSurrogate(rest[i]))
      {
        assert rest[i - 1] == s[i] && rest[i] == s[i + 1];
      }
      if |rest| > 0 {
        assert s[0] == x && s[1] == rest[0];
      }
    }
  }

  /** The UTF-16 length of a stream with one codepoint in front. */
  lemma Utf16LengthCons(x: CodePoint, rest: seq<CodePoint>)
    ensures Utf16Length([x] + rest) == (if x < 0x10000 then 1 else 2) + Utf16Length(rest)
  {
    assert ([x] + rest)[1..] == rest;
  }

  /** The codepoints of the string whose UTF-16 units are those of `s`: what
      `codePoints()` reads back after the constructor has written each
      codepoint as one or two units. Adjacent high and low surrogates
      become one supplementary codepoint. The result has the same UTF-16
      length and is a well-formed `codePoints()` stream; a stream that
      already is one comes back unchanged. */
  function Reread(s: seq<CodePoint>): (r: seq<CodePoint>)
    ensures Utf16Length(r) == Utf16Length(s)
    ensures NoSplitPair(r)
    ensures NoSplitPair(s) ==> r == s
    ensures |s| > 0 ==> |r| > 0 && (r[0] == s[0] || r[0] >= 0x10000)
  {
    if s == [] then []
    else if |s| >= 2 && IsHighSurrogate(s[0]) && IsLowSurrogate(s[1]) then
      var rest := Reread(s[2..]);
      var pair := PairValue(s[0], s[1]);
      assert s == [s[0]] + ([s[1]] + s[2..]);
      Utf16LengthCons(s[1], s[2..]);
      Utf16LengthCons(s[0], [s[1]] + s[2..]);
      Utf16LengthCons(pair, rest);
      NoSplitPairCons(pair, rest);
      NoSplitPairCons(s[0], s[1..]);
      [pair] + rest
    else
      var rest := Reread(s[1..]);
      assert s == [s[0]] + s[1..];
      Utf16LengthCons(s[0], s[1..]);
      Utf16LengthCons(s[0], rest);
      NoSplitPairCons(s[0], rest);
      NoSplitPairCons(s[0], s[1..]);
      [s[0]] + rest
  }

  /** Two lone surrogates written next to each other are read back as the one
      supplementary codepoint their UTF-16 units spell. */
  lemma NewStringPairsSurrogates()
    ensures NewString([0xD800, 0xDC00], 0, 2) == Success([0x10000])
  {
    var w: seq<CodePoint> := [0xD800, 0xDC00];
    assert [0xD800, 0xDC00][0..2] == w;
    assert w[2..] == [];
    var empty: seq<CodePoint> := [];
    assert Reread(w) == [PairValue(0xD800, 0xDC00)] + Reread(empty);
    assert Reread(empty) == [];
    assert Reread(w) == [0x10000];
    assert NewString([0xD800, 0xDC00], 0, 2) == Success(Reread(w));
  }

  /** The failures of the JDK constructor `String(int[], int, int)`. */
  datatype StringError =
    | IndexOutOfBounds   // the offset/count window leaves the array
    | IllegalArgument    // the window holds a value that is not a codepoint

  /** `new String(codePoints, offset, count)`: the bounds check, then the
      codepoint-validity check the JDK documents, then the string whose
      UTF-16 units encode the window codePoints[offset .. offset + count],
      seen through `codePoints()`. */
  function NewString(codePoints: seq<int>, offset: int, count: int): (r: Result<seq<CodePoint>, StringError>)
    ensures r == Failure(IndexOutOfBounds) <==>
      offset < 0 || count < 0 || offset + count > |codePoints|
    ensures r.Success? <==>
              && 0 <= offset && 0 <= count && offset + count <= |codePoints|
              && forall i :: offset <= i < offset + count ==> 0 <= codePoints[i] <= 0x10FFFF
    ensures r.Success? ==>
              && NoSplitPair(r.value)
              && Utf16Length(r.value) == Utf16Length(codePoints[offset..offset + count])
    ensures r.Success? && NoSplitPair(codePoints[offset..offset + count]) ==>
              && |r.value| == count
              && forall i :: 0 <= i < count ==> r.value[i] == codePoints[offset + i]
  {
    if offset < 0 || count < 0 || offset > |codePoints| - count then
      Failure(IndexOutOfBounds)
    else if forall i :: offset <= i < offset + count ==> 0 <= codePoints[i] <= 0x10FFFF then
      Success(Reread(codePoints[offset..offset + count]))
    else
      Failure(IllegalArgument)
  }

  /** `apply(String)` as written: the converted codepoints are handed to
      `new String(int[], 0, s.length())`, whose count is the UTF-16 length
      rather than the codepoint count. On a `codePoints()` stream it
      succeeds, with the converted string, exactly on BMP-only input; any
      supplementary-plane codepoint makes the count overrun the array and
      the constructor throw. */
  function Apply(s: seq<CodePoint>): (r: Result<seq<CodePoint>, StringError>)
    ensures r.Success? <==> AllBmp(s)
    ensures r.Success? && NoSplitPair(s) ==> r.value == Convert(s)
    ensures r.Failure? ==> r.error == IndexOutOfBounds
  {
    NewString(Convert(s), 0, Utf16Length(s))
  }

  /** Applying the converter to its own result gives that result again. */
  lemma ApplyIdempotent(s: seq<CodePoint>)
    requires Apply(s).Success? && NoSplitPair(s)
    ensures Apply(Apply(s).value) == Apply(s)
  {
    ConvertKeepsUtf16Length(s);
    ConvertKeepsNoSplitPair(s);
    ConvertIdempotent(s);
  }

  /** The evidently intended `apply`: the count passed to the constructor is
      the length of the codepoint array. It never fails, and on a
      `codePoints()` stream returns the converted string. */
  function ApplyFixed(s: seq<CodePoint>): (r: Result<seq<CodePoint>, StringError>)
    ensures r.Success?
    ensures NoSplitPair(s) ==> r == Success(Convert(s))
  {
    var converted := Convert(s);
    assert converted[0..|converted|] == converted;
    NewString(converted, 0, |converted|)
  }

  /** A legacy character next to an emoji: `apply` as written throws, while
      the intended conversion shifts the legacy character and keeps the emoji. */
  lemma ApplyRejectsSupplementary()
    ensures Apply([0xC0, 0x1F600]) == Failure(IndexOutOfBounds)
    ensures ApplyFixed([0xC0, 0x1F600]) == Success([0x410, 0x1F600])
  {
    var s: seq<CodePoint> := [0xC0, 0x1F600];
    assert !AllBmp(s) by {
      assert s[1] == 0x1F600;
    }
    var r: seq<CodePoint> := Convert(s);
    assert r[0] == 0x410 && r[1] == 0x1F600;
    assert r == [0x410, 0x1F600];
  }

  /** The fix agrees with the code as written wherever the latter succeeds. */
  lemma ApplyFixedExtendsApply(s: seq<CodePoint>)
    ensures Apply(s).Success? ==> Apply(s) == ApplyFixed(s)
    ensures AllBmp(s) <==> Apply(s) == ApplyFixed(s)
  {
  }
}

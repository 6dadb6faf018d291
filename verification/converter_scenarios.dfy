/**
 The concrete conversions the converter's unit tests expect, stated over
 string literals read as codepoint sequences.
 */
module ConverterScenarios {
  import opened Results
  import opened Win1252Converter

  /** The codepoints of a string literal. */
  function CodePointsOf(s: string): (r: seq<CodePoint>)
    ensures |r| == |s|
    ensures forall i :: 0 <= i < |s| ==> r[i] == s[i] as int
  {
    seq(|s|, i requires 0 <= i < |s| => s[i] as int as CodePoint)
  }

  /** A string without legacy codepoints is returned as it is. */
  lemma SkipsPlainText()
    ensures Apply(CodePointsOf(" Foo")) == Success(CodePointsOf(" Foo"))
  {
    var s := CodePointsOf(" Foo");
    assert s == [0x20, 0x46, 0x6F, 0x6F];
    ConvertUnchangedIff(s);
  }

  /** Legacy codepoints are shifted while the ASCII around them is kept. */
  lemma ConvertsMixedText()
    ensures Apply(CodePointsOf("SomÀÁêe")) == Success(CodePointsOf("SomАБкe"))
  {
    var s := CodePointsOf("SomÀÁêe");
    var t := CodePointsOf("SomАБкe");
    assert s == [0x53, 0x6F, 0x6D, 0xC0, 0xC1, 0xEA, 0x65];
    assert t == [0x53, 0x6F, 0x6D, 0x410, 0x411, 0x43A, 0x65];
    assert Convert(s) == t;
  }

  /** A string made only of legacy codepoints is shifted entirely. */
  lemma ConvertsLegacyText()
    ensures Apply(CodePointsOf("ÀÁê")) == Success(CodePointsOf("АБк"))
  {
    var s := CodePointsOf("ÀÁê");
    var t := CodePointsOf("АБк");
    assert s == [0xC0, 0xC1, 0xEA];
    assert t == [0x410, 0x411, 0x43A];
    assert Convert(s) == t;
  }

  /** The range boundaries: 0xBF and 0x100 stay, 0xC0 and 0xFF move to the
      two ends of the Cyrillic block. */
  lemma ConvertsBoundaries()
    ensures Apply([0xBF, 0xC0, 0xFF, 0x100]) == Success([0xBF, 0x410, 0x44F, 0x100])
  {
    var r := Convert([0xBF, 0xC0, 0xFF, 0x100]);
    assert r == [0xBF, 0x410, 0x44F, 0x100];
  }
}

/**
 When a text ends in the middle of a character: complete texts are those that characters, as UTF-8 encodes
 them, are put behind, and a part of the next character makes them incomplete.
 */
module Utf8 {
  import opened StopWords

  type CodePoint = c: nat | c < 0x11_0000

  /** The bytes of a code point. */
  function Encode(c: CodePoint): Bytes {
    if c < 0x80 then [c]
    else if c < 0x800 then [0xC0 + c / 0x40, Continuation(c)]
    else if c < 0x1_0000 then [0xE0 + c / 0x1000, Continuation(c / 0x40), Continuation(c)]
    else [0xF0 + c / 0x4_0000, Continuation(c / 0x1000), Continuation(c / 0x40), Continuation(c)]
  }

  function Continuation(c: nat): Byte { 0x80 + c % 0x40 }

  /** The first byte says how many there are, and the others say nothing. */
  lemma FirstByteCounts(c: CodePoint)
    ensures var e := Encode(c);
      && 1 <= |e| <= 4 && Needs(e[0]) == (if |e| == 1 then 0 else |e|) && forall j | 1 <= j < |e| :: Needs(e[j]) == 0
  {
  }

  lemma CompleteWithCharacter(text: Bytes, c: CodePoint)
    requires Complete(text)
    ensures Complete(text + Encode(c))
  {
    var e := Encode(c);
    FirstByteCounts(c);
    forall i | 1 <= i <= 4 && i <= |text + e|
      ensures !CutOff(text + e, i)
    {
      if i <= |e| {
        assert (text + e)[|text + e| - i] == e[|e| - i];
      } else {
        assert (text + e)[|text + e| - i] == text[|text| - (i - |e|)];
        assert !CutOff(text, i - |e|);
      }
    }
  }

  lemma IncompleteWithPart(text: Bytes, c: CodePoint, j: nat)
    requires 0 < j < |Encode(c)|
    ensures !Complete(text + Encode(c)[..j])
  {
    var part := Encode(c)[..j];
    FirstByteCounts(c);
    assert (text + part)[|text + part| - j] == part[0] == Encode(c)[0];
    assert CutOff(text + part, j);
  }

  function EncodeAll(cs: seq<CodePoint>): Bytes {
    if cs == [] then [] else EncodeAll(cs[..|cs| - 1]) + Encode(cs[|cs| - 1])
  }

  /** A text of characters, and a part of another one, is complete exactly if the part is empty. */
  lemma {:induction false} CompleteIff(cs: seq<CodePoint>, c: CodePoint, j: nat)
    requires j < |Encode(c)|
    ensures Complete(EncodeAll(cs) + Encode(c)[..j]) <==> j == 0
    decreases |cs|
  {
    if j > 0 {
      IncompleteWithPart(EncodeAll(cs), c, j);
    } else {
      assert EncodeAll(cs) + Encode(c)[..0] == EncodeAll(cs);
      if cs != [] {
        var last := cs[|cs| - 1];
        FirstByteCounts(last);
        CompleteIff(cs[..|cs| - 1], last, 0);
        assert EncodeAll(cs[..|cs| - 1]) + Encode(last)[..0] == EncodeAll(cs[..|cs| - 1]);
        CompleteWithCharacter(EncodeAll(cs[..|cs| - 1]), last);
      }
    }
  }
}

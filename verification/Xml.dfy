/** What every XML 1.0 reader does to a document before it looks at markup: it refuses characters outside
    section 2.2, and turns line ends into line feeds as section 2.11 says. */
module Xml {

  predicate IsChar(c: char) {
    var v := c as int;
    v == 0x9 || v == 0xA || v == 0xD || 0x20 <= v <= 0xD7FF || 0xE000 <= v <= 0xFFFD || v >= 0x1_0000
  }

  predicate AllChars(text: string) {
    forall i :: 0 <= i < |text| ==> IsChar(text[i])
  }

  function NormalizeLineEnds(text: string): string {
    if text == "" then ""
    else if text[0] != '\r' then [text[0]] + NormalizeLineEnds(text[1..])
    else if |text| > 1 && text[1] == '\n' then "\n" + NormalizeLineEnds(text[2..])
    else "\n" + NormalizeLineEnds(text[1..])
  }

  lemma {:induction false} NothingToNormalize(text: string)
    requires '\r' !in text
    ensures NormalizeLineEnds(text) == text
  {
    if text != "" {
      NothingToNormalize(text[1..]);
    }
  }

  lemma {:induction false} NoReturnLeft(text: string)
    ensures '\r' !in NormalizeLineEnds(text)
    decreases |text|
  {
    if text != "" {
      NoReturnLeft(text[1..]);
      if |text| > 1 {
        NoReturnLeft(text[2..]);
      }
    }
  }

  /** Only text without a carriage return stays as it is. */
  lemma NormalizedSame(text: string)
    ensures NormalizeLineEnds(text) == text <==> '\r' !in text
  {
    if '\r' !in text {
      NothingToNormalize(text);
    }
    NoReturnLeft(text);
  }

  /** Line ends are told apart piece by piece, unless one is cut in two. */
  lemma {:induction false} NormalizeConcat(a: string, b: string)
    requires a == "" || b == "" || a[|a| - 1] != '\r' || b[0] != '\n'
    ensures NormalizeLineEnds(a + b) == NormalizeLineEnds(a) + NormalizeLineEnds(b)
    decreases |a|
  {
    if a == "" {
      assert a + b == b;
    } else if a[0] == '\r' && |a| > 1 && a[1] == '\n' {
      assert (a + b)[2..] == a[2..] + b;
      NormalizeConcat(a[2..], b);
    } else {
      assert (a + b)[1..] == a[1..] + b;
      NormalizeConcat(a[1..], b);
    }
  }

  /** Text without line ends of its own in front and behind changes nothing. */
  lemma NormalizeInside(before: string, text: string, after: string)
    requires '\r' !in before && '\r' !in after && (after != "" ==> after[0] != '\n')
    ensures NormalizeLineEnds(before + (text + after)) == before + (NormalizeLineEnds(text) + after)
  {
    NothingToNormalize(before);
    NothingToNormalize(after);
    NormalizeConcat(text, after);
    if before != "" {
      assert before[|before| - 1] in before;
    }
    NormalizeConcat(before, text + after);
  }

  lemma AllCharsConcat(a: string, b: string)
    ensures AllChars(a + b) <==> AllChars(a) && AllChars(b)
  {
    if AllChars(a + b) {
      forall i | 0 <= i < |a|
        ensures IsChar(a[i])
      {
        assert (a + b)[i] == a[i];
      }
      forall i | 0 <= i < |b|
        ensures IsChar(b[i])
      {
        assert (a + b)[|a| + i] == b[i];
      }
    }
  }
}

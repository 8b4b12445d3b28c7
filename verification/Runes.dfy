/** What the extractor asks of the Unicode tables and the UTF-8 decoder. Both are
    library code, so they are function values with the one property the scanners use. */
module Runes {
  import opened Base
  import opened Spans

  datatype Decoder = Decoder(
    size: Text -> nat,        // bytes of the first rune of a non-empty text
    firstIsWord: Text -> bool, // whether that rune is a letter or a digit
    lastIsWord: Text -> bool)  // the same question about the last rune
  {
    /** A rune takes at least one byte, and the bytes after its first are not ASCII. */
    ghost predicate Valid() {
      forall s: Text :: s != [] ==>
        1 <= size(s) <= |s| && forall k: nat :: 0 < k < size(s) ==> s[k] >= 128
    }

    /** isWordBoundary: neither neighbour of the span is a letter or a digit. */
    predicate Boundary(hay: Text, at: Span)
      requires at.start <= at.end <= |hay|
    {
      && (at.start > 0 ==> !lastIsWord(hay[..at.start]))
      && (at.end < |hay| ==> !firstIsWord(hay[at.end..]))
    }
  }

  predicate IsDigit(b: byte) { 48 <= b <= 57 }
}

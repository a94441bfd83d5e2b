/** Classes of characters. */
module Text {
  predicate IsSpace(c: char) { c == ' ' || '\t' <= c <= '\r' }

  /** White space by its codes. */
  predicate SpaceCode(c: char) { c as int == 32 || 9 <= c as int <= 13 }

  predicate Spaces(s: string) { forall i :: 0 <= i < |s| ==> SpaceCode(s[i]) }

  lemma SpaceExactly(c: char)
    ensures IsSpace(c) <==> SpaceCode(c)
  {
  }
}

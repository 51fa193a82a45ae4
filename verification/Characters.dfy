/** C strings and character classes of the "C" locale. */
module Characters {
  predicate IsSpace(c: char) {
    c == ' ' || '\t' <= c <= '\r'
  }

  predicate IsAlnum(c: char) {
    '0' <= c <= '9' || 'A' <= c <= 'Z' || 'a' <= c <= 'z'
  }

  /** Printable ASCII. */
  predicate IsPrint(c: char) {
    ' ' <= c <= '~'
  }

  predicate IsWordChar(c: char) {
    IsAlnum(c) || c == '_'
  }

  /** The classes by their codes; no character of a word is a space, and all of them are printable. */
  lemma ClassesExact(c: char)
    ensures IsSpace(c) <==> c as int in {9, 10, 11, 12, 13, 32}
    ensures IsPrint(c) <==> 32 <= c as int < 127
    ensures IsWordChar(c) <==> 48 <= c as int < 58 || 65 <= c as int < 91 || c as int == 95 || 97 <= c as int < 123
    ensures IsWordChar(c) ==> IsPrint(c) && !IsSpace(c)
  {
  }

  /** Reading a buffer that ends in a NUL which does not belong to its text. */
  function CharAt(text: string, i: nat): char
    requires i <= |text|
  {
    if i < |text| then text[i] else '\0'
  }

  ghost predicate At(text: string, i: nat, w: string) {
    i + |w| <= |text| && text[i..i + |w|] == w
  }

  lemma AtChar(text: string, i: nat, w: string, j: nat)
    requires At(text, i, w) && j < |w|
    ensures i + j < |text| && text[i + j] == w[j]
  {
    assert text[i..i + |w|][j] == text[i + j];
  }

  lemma AtParts(text: string, i: nat, a: string, b: string)
    ensures At(text, i, a + b) <==> At(text, i, a) && At(text, i + |a|, b)
  {
    if At(text, i, a + b) {
      assert text[i..i + |a|] == (a + b)[..|a|] == a;
      assert text[i + |a|..i + |a| + |b|] == (a + b)[|a|..] == b;
    }
    if At(text, i, a) && At(text, i + |a|, b) {
      assert text[i..i + |a + b|] == text[i..i + |a|] + text[i + |a|..i + |a| + |b|];
    }
  }
}

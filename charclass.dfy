/**
 The character classes that the normaliser's regular expressions use
 (`\w`, `\d`, `\s`) and the per-character lower-casing of `str.lower`,
 restricted to ASCII. A character outside ASCII is treated as neither a
 word character, nor a digit, nor whitespace, and lower-casing leaves it
 unchanged.
 */
module CharClass {

  predicate IsUpper(c: char) { 'A' <= c <= 'Z' }

  predicate IsLowerLetter(c: char) { 'a' <= c <= 'z' }

  predicate IsLetter(c: char) { IsUpper(c) || IsLowerLetter(c) }

  /** `\d` */
  predicate IsDigit(c: char) { '0' <= c <= '9' }

  /** `\w`: letters, digits and the underscore */
  predicate IsWordChar(c: char) { IsLetter(c) || IsDigit(c) || c == '_' }

  /** `\s` and the set `str.strip()` removes: space, \t \n \v \f \r, and the
      four separator controls 0x1C-0x1F */
  predicate IsSpace(c: char) { c == ' ' || 9 <= c as int <= 13 || 28 <= c as int <= 31 }

  /** Characters of the input that survive normalisation (before lower-casing) */
  predicate Survives(c: char) { IsLetter(c) || c == '_' }

  /** Characters a normalised word is made of */
  predicate IsTokenChar(c: char) { IsLowerLetter(c) || c == '_' }

  /** `str.lower` on one character */
  function Lower(c: char): (r: char)
    ensures !IsUpper(r)
    ensures Survives(c) <==> IsTokenChar(r)
    ensures IsWordChar(r) == IsWordChar(c) && IsDigit(r) == IsDigit(c) && IsSpace(r) == IsSpace(c)
    ensures !IsUpper(c) ==> r == c
    ensures IsUpper(c) ==> IsLowerLetter(r) && r as int - 'a' as int == c as int - 'A' as int
  {
    if IsUpper(c) then (c as int + 32) as char else c
  }
}

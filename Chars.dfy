/** Character classes used by the review normaliser and the blank-input gate. */
module Chars {

  /** The 32 characters of Python's `string.punctuation`, in its order. */
  const Punctuation: string := "!\"#$%&'()*+,-./:;<=>?@[\\]^_`{|}~"

  predicate IsPunctuation(c: char) {
    c in Punctuation
  }

  /** ASCII decimal digit, the part of `\d` this model covers. */
  predicate IsDigit(c: char) {
    '0' <= c <= '9'
  }

  predicate IsUpper(c: char) {
    'A' <= c <= 'Z'
  }

  predicate IsLower(c: char) {
    'a' <= c <= 'z'
  }

  /** Python's whitespace (`str.isspace`, and `\s` in a `str` pattern). */
  predicate IsSpace(c: char) {
    || c == ' '
    || '\t' <= c <= '\r'                    // tab, line feed, vertical tab, form feed, carriage return
    || '\U{1C}' <= c <= '\U{1F}'            // file, group, record and unit separators
    || c == '\U{85}' || c == '\U{A0}' || c == '\U{1680}'
    || '\U{2000}' <= c <= '\U{200A}'
    || c == '\U{2028}' || c == '\U{2029}' || c == '\U{202F}' || c == '\U{205F}' || c == '\U{3000}'
  }

  /** `str.lower` on one character, restricted to ASCII capitals. */
  function LowerChar(c: char): (r: char)
    ensures IsUpper(c) ==> IsLower(r) && r as int == c as int + 32
    ensures !IsUpper(c) ==> r == c
    ensures !IsUpper(r)
  {
    if IsUpper(c) then (c as int + 32) as char else c
  }

  /** The printable ASCII characters that are neither letters, digits nor the
      space: codes 33-47, 58-64, 91-96 and 123-126. */
  predicate InPunctuationRanges(c: char) {
    33 <= c as int <= 47 || 58 <= c as int <= 64 || 91 <= c as int <= 96 || 123 <= c as int <= 126
  }

  /** `string.punctuation` is exactly the characters of `InPunctuationRanges`. */
  lemma PunctuationCodes(c: char)
    ensures IsPunctuation(c) <==> InPunctuationRanges(c)
  {
    if IsPunctuation(c) {
      PunctuationInRanges(c);
    } else if InPunctuationRanges(c) {
      RangesInPunctuation(c);
    }
  }

  lemma PunctuationInRanges(c: char)
    requires IsPunctuation(c)
    ensures InPunctuationRanges(c)
  {
    var i :| 0 <= i < |Punctuation| && Punctuation[i] == c;
    if i < 16 {
      assert Punctuation[i] in Punctuation[..16];
    } else {
      assert Punctuation[i] in Punctuation[16..];
    }
  }

  lemma RangesInPunctuation(c: char)
    requires InPunctuationRanges(c)
    ensures IsPunctuation(c)
  {
    var k := if c as int <= 47 then c as int - 33
             else if c as int <= 64 then c as int - 58 + 15
             else if c as int <= 96 then c as int - 91 + 22
             else c as int - 123 + 28;
    assert Punctuation[k] == c;
  }

  /** No punctuation character is a digit, a letter or whitespace. */
  lemma PunctuationDisjoint(c: char)
    requires IsPunctuation(c)
    ensures !IsDigit(c) && !IsUpper(c) && !IsLower(c) && !IsSpace(c)
  {
    PunctuationCodes(c);
  }
}

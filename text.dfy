/** Character classes and the clean-up applied to raw recogniser text before
    candidates are searched for (app.js, processFrame). */
module Text {

  /** Length of every code: 3 letters, 5 digits, 2 letters. */
  const CodeLength: nat := 10

  /** `[A-Z]` in a regular expression. */
  predicate IsUpper(c: char) { 'A' <= c <= 'Z' }

  /** `\d` in a JavaScript regular expression without the `u` flag. */
  predicate IsDigit(c: char) { '0' <= c <= '9' }

  predicate IsLower(c: char) { 'a' <= c <= 'z' }

  /** `\s` in a JavaScript regular expression: the ASCII blanks, the no-break
      and zero-width no-break spaces, and the Unicode space separators and
      line/paragraph separators. */
  predicate IsSpace(c: char) {
    c == ' ' || c == '\t' || c == '\n' || c == '\r' || c == 11 as char || c == 12 as char
    || c == 0xA0 as char || c == 0x1680 as char
    || (0x2000 as char <= c <= 0x200A as char)
    || c == 0x2028 as char || c == 0x2029 as char || c == 0x202F as char
    || c == 0x205F as char || c == 0x3000 as char || c == 0xFEFF as char
  }

  /** Upper-casing of one character, restricted to ASCII. */
  function ToUpper(c: char): (u: char)
    ensures IsLower(c) ==> IsUpper(u) && u as int == c as int - 32
    ensures !IsLower(c) ==> u == c
  {
    if IsLower(c) then (c as int - 32) as char else c
  }

  /** The blank-removing replacement of app.js:98: the characters of `s`
      that are not blanks, in order. A single character is dropped exactly
      when it is a blank; with `StripSpacesAppend` this determines the
      result for every text. */
  function StripSpaces(s: string): (r: string)
    ensures |r| <= |s|
    ensures forall k :: 0 <= k < |r| ==> !IsSpace(r[k])
    ensures (forall k :: 0 <= k < |s| ==> !IsSpace(s[k])) ==> r == s
    ensures |s| == 1 ==> r == (if IsSpace(s[0]) then [] else s)
  {
    if s == [] then []
    else if IsSpace(s[0]) then StripSpaces(s[1..])
    else [s[0]] + StripSpaces(s[1..])
  }

  /** Stripping works piece by piece: the blanks of a concatenation are
      removed by removing those of each part, so every non-blank character
      is kept and the order is preserved. */
  lemma {:induction false} StripSpacesAppend(a: string, b: string)
    ensures StripSpaces(a + b) == StripSpaces(a) + StripSpaces(b)
  {
    if a != [] {
      assert (a + b)[1..] == a[1..] + b;
      StripSpacesAppend(a[1..], b);
    } else {
      assert a + b == b;
    }
  }

  /** `toUpperCase()`, character by character. */
  function Upper(s: string): (r: string)
    ensures |r| == |s|
    ensures forall k :: 0 <= k < |s| ==> r[k] == ToUpper(s[k])
  {
    seq(|s|, k requires 0 <= k < |s| => ToUpper(s[k]))
  }

  /** The cleaned text of app.js:98. */
  function Clean(text: string): (r: string)
    ensures |r| <= |text|
    ensures forall k :: 0 <= k < |r| ==> !IsSpace(r[k]) && !IsLower(r[k])
  {
    Upper(StripSpaces(text))
  }

  /** Position `k` of a code holds a letter in the prefix and suffix, a digit
      in the five middle positions. */
  predicate FitsAt(k: nat, c: char) {
    if k < 3 || k >= 8 then IsUpper(c) else IsDigit(c)
  }

  /** `^[A-Z]{3}\d{5}[A-Z]{2}$`: the whole string has the code shape. */
  predicate IsCodeShape(s: string) {
    |s| == CodeLength && forall k :: 0 <= k < CodeLength ==> FitsAt(k, s[k])
  }

  /** Cleaning is idempotent: a cleaned text is left as it is. */
  lemma {:induction false} CleanIdempotent(text: string)
    ensures Clean(Clean(text)) == Clean(text)
  {
    var c := Clean(text);
    assert StripSpaces(c) == c;
    assert Upper(c) == c by {
      forall k | 0 <= k < |c| ensures Upper(c)[k] == c[k] {
        assert !IsLower(c[k]);
      }
    }
  }
}

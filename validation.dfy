/** `validateCode` (app.js:66-73) and its vocabularies (app.js:17-18). */
module Validation {
  import opened Text

  const ValidPrefixes: seq<string> := ["AKE", "PMC", "RKN", "LD3", "LD7"]
  const ValidSuffixes: seq<string> := ["CI", "BR", "CX", "JL", "NH"]

  /** The anchored shape test, then `slice(0, 3)` in the prefixes and
      `slice(-2)` in the suffixes. */
  predicate ValidateCode(s: string) {
    IsCodeShape(s) && s[..3] in ValidPrefixes && s[|s| - 2..] in ValidSuffixes
  }

  /** What `validateCode` accepts, spelled out: ten characters of shape
      LLLDDDDDLL, one of the prefixes that consist of letters and one of the
      suffixes. The prefixes `LD3` and `LD7` hold a digit where the shape
      demands a letter, so no string with them is ever accepted. */
  lemma ValidateCodeIff(s: string)
    ensures ValidateCode(s) <==>
      |s| == CodeLength &&
      (forall k :: 0 <= k < CodeLength ==> FitsAt(k, s[k])) &&
      s[..3] in {"AKE", "PMC", "RKN"} &&
      s[8..] in {"CI", "BR", "CX", "JL", "NH"}
  {
    if |s| == CodeLength && IsCodeShape(s) {
      assert FitsAt(2, s[2]);
      assert s[..3][2] == s[2];
    }
  }

  /** The two digit-bearing prefixes are dead entries of the vocabulary. */
  lemma DigitPrefixesNeverAccepted(s: string)
    requires |s| >= 3 && s[..3] in {"LD3", "LD7"}
    ensures !ValidateCode(s)
  {
    ValidateCodeIff(s);
  }
}

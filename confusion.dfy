/** The character-confusion correction of app.js:19 and app.js:62-64. */
module Confusion {
  import opened Text

  /** `CONFUSION_MAP`: glyphs the recogniser confuses. Every pair but the last
      goes both ways; `D` maps to `0`, which maps back to `O`. */
  const ConfusionMap: map<char, char> := map[
    '0' := 'O', 'O' := '0', '1' := 'I', 'I' := '1', '5' := 'S', 'S' := '5',
    '8' := 'B', 'B' := '8', '2' := 'Z', 'Z' := '2', '6' := 'G', 'G' := '6',
    'D' := '0']

  /** `CONFUSION_MAP[c] || c`: every value of the map is a non-empty string,
      so a mapped character is always replaced. */
  function Substitute(c: char): char {
    if c in ConfusionMap then ConfusionMap[c] else c
  }

  /** A mapped character changes class: letter to digit or digit to letter. */
  predicate Flips(c: char, d: char) {
    (IsUpper(c) && IsDigit(d)) || (IsDigit(c) && IsUpper(d))
  }

  /** `applyConfusionMap(text)`: the same length, characters outside the map
      unchanged, every mapped character replaced by its image, which lies in
      the other class. */
  function ApplyConfusionMap(s: string): (r: string)
    ensures |r| == |s|
    ensures forall k :: 0 <= k < |s| && s[k] !in ConfusionMap ==> r[k] == s[k]
    ensures forall k :: 0 <= k < |s| && s[k] in ConfusionMap ==>
      r[k] == ConfusionMap[s[k]] && Flips(s[k], r[k])
  {
    seq(|s|, k requires 0 <= k < |s| => Substitute(s[k]))
  }

  /** The correction is not an involution: `D` goes to `0` and then to `O`. */
  lemma NotInvolution()
    ensures ApplyConfusionMap(ApplyConfusionMap("D")) == "O" != "D"
  {
    assert ApplyConfusionMap("D")[0] == '0';
  }

  /** A code-shaped string whose correction still has the code shape was not
      changed by the correction: a mapped character would have changed class
      at its position. */
  lemma ShapeKeptOnlyIfUnchanged(s: string)
    requires IsCodeShape(s) && IsCodeShape(ApplyConfusionMap(s))
    ensures ApplyConfusionMap(s) == s
  {
    var r := ApplyConfusionMap(s);
    forall k | 0 <= k < |s| ensures r[k] == s[k] {
      assert FitsAt(k, s[k]) && FitsAt(k, r[k]);
    }
  }
}

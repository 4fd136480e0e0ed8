/** Candidate extraction (app.js:98-99): `cleanedText.match(/[A-Z]{3}\d{5}[A-Z]{2}/g)`.
    The pattern always spans exactly ten characters, so the global match is a
    scanner: at position `i`, if the ten characters there have the code shape
    they are a match and scanning resumes at `i + 10`; otherwise it resumes at
    `i + 1`. */
module Extraction {
  import opened Text

  /** The ten characters of `s` starting at `p` have the code shape. */
  predicate ShapeAt(s: string, p: nat)
    requires p + CodeLength <= |s|
  {
    IsCodeShape(s[p..p + CodeLength])
  }

  /** Start positions of the matches found by scanning `s` from position `i`. */
  function MatchesFrom(s: string, i: nat): (ps: seq<nat>)
    requires i <= |s|
    ensures forall j :: 0 <= j < |ps| ==> i <= ps[j] && ps[j] + CodeLength <= |s| && ShapeAt(s, ps[j])
    ensures forall j :: 0 <= j < |ps| - 1 ==> ps[j] + CodeLength <= ps[j + 1]
    decreases |s| - i
  {
    if i + CodeLength > |s| then []
    else if ShapeAt(s, i) then [i] + MatchesFrom(s, i + CodeLength)
    else MatchesFrom(s, i + 1)
  }

  /** Start positions of all matches in `s`, left to right. */
  function Matches(s: string): (ps: seq<nat>)
    ensures forall j :: 0 <= j < |ps| ==> ps[j] + CodeLength <= |s| && ShapeAt(s, ps[j])
    ensures forall j :: 0 <= j < |ps| - 1 ==> ps[j] + CodeLength <= ps[j + 1]
  {
    MatchesFrom(s, 0)
  }

  /** The candidates of one recognised text: the matched substrings of the
      cleaned text, in order. Every candidate has the code shape, is the
      substring of the cleaned text at its match position, and the matches
      neither overlap nor go backwards. */
  function ExtractCandidates(text: string): (cands: seq<string>)
    ensures |cands| == |Matches(Clean(text))|
    ensures forall j :: 0 <= j < |cands| ==>
      IsCodeShape(cands[j]) &&
      cands[j] == Clean(text)[Matches(Clean(text))[j]..Matches(Clean(text))[j] + CodeLength]
    ensures |Clean(text)| < CodeLength ==> cands == []
  {
    var s := Clean(text);
    var ps := Matches(s);
    seq(|ps|, j requires 0 <= j < |ps| => s[ps[j]..ps[j] + CodeLength])
  }

  /** Leftmost matching: scanning from `i`, every shaped window at or after
      `i` is either a match or lies inside an earlier match. */
  lemma {:induction false} MatchesFromLeftmost(s: string, i: nat, p: nat)
    requires i <= p && p + CodeLength <= |s| && ShapeAt(s, p)
    ensures p in MatchesFrom(s, i) ||
            exists q :: q in MatchesFrom(s, i) && q < p < q + CodeLength
    decreases |s| - i
  {
    if i == p {
    } else if ShapeAt(s, i) {
      if p < i + CodeLength {
        assert i in MatchesFrom(s, i);
      } else {
        MatchesFromLeftmost(s, i + CodeLength, p);
        var rest := MatchesFrom(s, i + CodeLength);
        assert MatchesFrom(s, i) == [i] + rest;
        if p !in rest {
          var q :| q in rest && q < p < q + CodeLength;
          assert q in MatchesFrom(s, i);
        }
      }
    } else {
      MatchesFromLeftmost(s, i + 1, p);
    }
  }

  /** Every position the scanner reports is the start of a shaped window, and
      every shaped window is reported unless an earlier match overlaps it:
      the matches are exactly those of a left-to-right global regex search. */
  lemma MatchesComplete(s: string, p: nat)
    requires p + CodeLength <= |s| && ShapeAt(s, p)
    ensures p in Matches(s) || exists q :: q in Matches(s) && q < p < q + CodeLength
  {
    MatchesFromLeftmost(s, 0, p);
  }

  /** Text without any shaped window yields no candidate. */
  lemma {:induction false} NoShapeNoMatch(s: string, i: nat)
    requires i <= |s|
    requires forall p :: i <= p && p + CodeLength <= |s| ==> !ShapeAt(s, p)
    ensures MatchesFrom(s, i) == []
    decreases |s| - i
  {
    if i + CodeLength <= |s| {
      NoShapeNoMatch(s, i + 1);
    }
  }
}

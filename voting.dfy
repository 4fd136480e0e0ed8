/** The voting window (app.js:14-15, 103-104, 111-112) and `voteResult`
    (app.js:75-81). */
module Voting {
  import opened Validation

  /** `maxRecent`: capacity of the window of recent codes. */
  const MaxRecent: nat := 5

  /** Occurrences of `x` in the window. */
  function Count(w: seq<string>, x: string): nat {
    multiset(w)[x]
  }

  /** Position of the first occurrence of `x` in `w`. */
  function FirstIndex(w: seq<string>, x: string): (k: nat)
    requires x in w
    ensures k < |w| && w[k] == x && x !in w[..k]
  {
    if w[0] == x then 0 else 1 + FirstIndex(w[1..], x)
  }

  /** `r` is what `voteResult(w)` must return: an element of `w` whose count
      is maximal, and among the elements with that count the one that occurs
      first. */
  ghost predicate IsWinner(w: seq<string>, r: string) {
    r in w &&
    (forall x :: x in w ==> Count(w, x) <= Count(w, r)) &&
    (forall x :: x in w && Count(w, x) == Count(w, r) ==> FirstIndex(w, r) <= FirstIndex(w, x))
  }

  /** Index of the first element of `cands` whose count in `w` is maximal
      among `cands`. */
  function FirstMaxIndex(w: seq<string>, cands: seq<string>): (k: nat)
    requires |cands| > 0
    ensures k < |cands|
    ensures forall j :: 0 <= j < |cands| ==> Count(w, cands[j]) <= Count(w, cands[k])
    ensures forall j :: 0 <= j < k ==> Count(w, cands[j]) < Count(w, cands[k])
  {
    if |cands| == 1 then 0
    else
      var t := 1 + FirstMaxIndex(w, cands[1..]);
      if Count(w, cands[0]) >= Count(w, cands[t]) then 0 else t
  }

  /** The reference definition of the vote: the most frequent code, earliest
      first occurrence on ties. */
  function Vote(w: seq<string>): (r: string)
    requires |w| > 0
    ensures IsWinner(w, r)
  {
    var k := FirstMaxIndex(w, w);
    assert FirstIndex(w, w[k]) <= k;
    w[k]
  }

  /** The winner is unique: the count and the tie-break determine it. */
  lemma WinnerUnique(w: seq<string>, a: string, b: string)
    requires IsWinner(w, a) && IsWinner(w, b)
    ensures a == b
  {
    var i, j := FirstIndex(w, a), FirstIndex(w, b);
    assert i == j;
  }

  /** The keys of `keys` occur in `w` and are listed in the order of their
      first occurrence, without repetition. */
  ghost predicate InFirstOccurrenceOrder(w: seq<string>, keys: seq<string>) {
    (forall a :: 0 <= a < |keys| ==> keys[a] in w) &&
    (forall a, b :: 0 <= a < b < |keys| ==> FirstIndex(w, keys[a]) < FirstIndex(w, keys[b]))
  }

  /** The counting loop of `voteResult`: each code of the window increments
      its entry of a count table, starting from zero when it has none. The
      table maps every code of `results` to its number of occurrences; `keys`
      lists the table's keys in insertion order, which is the order of first
      occurrence. The window only ever holds valid codes; such a code starts
      with letters, so it is neither an array-index-like key (which the
      object's key order would put first) nor an inherited property name. */
  method Tally(results: seq<string>) returns (counts: map<string, nat>, keys: seq<string>)
    requires forall c :: c in results ==> ValidateCode(c)
    ensures forall x :: x in counts <==> x in results
    ensures forall x :: x in keys <==> x in results
    ensures forall x :: x in counts ==> counts[x] == Count(results, x)
    ensures InFirstOccurrenceOrder(results, keys)
  {
    counts, keys := map[], [];
    var i := 0;
    while i < |results|
      invariant 0 <= i <= |results|
      invariant forall x :: x in counts <==> x in results[..i]
      invariant forall x :: x in keys <==> x in results[..i]
      invariant forall x :: x in counts ==> counts[x] == Count(results[..i], x)
      invariant InFirstOccurrenceOrder(results, keys)
      invariant forall a :: 0 <= a < |keys| ==> FirstIndex(results, keys[a]) < i
    {
      var x := results[i];
      assert results[..i + 1] == results[..i] + [x];
      if x in counts {
        counts := counts[x := counts[x] + 1];
      } else {
        counts := counts[x := 1];
        keys := keys + [x];
      }
      i := i + 1;
    }
    assert results[..|results|] == results;
  }

  /** `voteResult(results)`: tally the codes, then take the first entry of
      the table sorted by decreasing count; the sort is stable, so on equal
      counts the key inserted first stays ahead. `results` is never empty at
      the call sites and holds only valid codes; on an empty array the source
      would throw. */
  method VoteResult(results: seq<string>) returns (r: string)
    requires |results| > 0
    requires forall c :: c in results ==> ValidateCode(c)
    ensures IsWinner(results, r)
    ensures r == Vote(results)
  {
    var counts, keys := Tally(results);
    assert results[0] in keys;
    // The first entry, in key order, with the largest count: what a stable
    // sort by decreasing count puts in front.
    var best := 0;
    var j := 1;
    while j < |keys|
      invariant 0 <= best < j <= |keys|
      invariant forall a :: 0 <= a < j ==> counts[keys[a]] <= counts[keys[best]]
      invariant forall a :: 0 <= a < best ==> counts[keys[a]] < counts[keys[best]]
    {
      if counts[keys[j]] > counts[keys[best]] {
        best := j;
      }
      j := j + 1;
    }
    r := keys[best];
    forall x | x in results && Count(results, x) == Count(results, r)
      ensures FirstIndex(results, r) <= FirstIndex(results, x)
    {
      var a :| 0 <= a < |keys| && keys[a] == x;
      assert best <= a;
    }
    WinnerUnique(results, r, Vote(results));
  }

  /** The window after recording `code`: appended at the end, and if that
      makes it longer than `MaxRecent`, the oldest entry shifted out. */
  function Push(w: seq<string>, code: string): (r: seq<string>)
    ensures |w| <= MaxRecent ==> |r| <= MaxRecent
    ensures |r| > 0 && r[|r| - 1] == code
    ensures |w| < MaxRecent ==> r == w + [code]
    ensures |w| == MaxRecent ==> r == w[1..] + [code]
  {
    var pushed := w + [code];
    if |pushed| > MaxRecent then pushed[1..] else pushed
  }

  /** The window after recording the codes `cs` one after another. */
  function PushAll(w: seq<string>, cs: seq<string>): seq<string>
    decreases |cs|
  {
    if cs == [] then w else PushAll(Push(w, cs[0]), cs[1..])
  }

  /** Starting from an empty window, the window always holds the last
      `MaxRecent` codes recorded (all of them while fewer were recorded):
      recording `MaxRecent + 1` codes leaves `MaxRecent` and evicts the first. */
  lemma {:induction false} PushAllKeepsLast(w: seq<string>, cs: seq<string>)
    requires |w| <= MaxRecent
    ensures |w + cs| <= MaxRecent ==> PushAll(w, cs) == w + cs
    ensures |w + cs| > MaxRecent ==> PushAll(w, cs) == (w + cs)[|w + cs| - MaxRecent..]
    decreases |cs|
  {
    if cs != [] {
      var w' := Push(w, cs[0]);
      PushAllKeepsLast(w', cs[1..]);
      if |w| == MaxRecent {
        assert w' + cs[1..] == (w + cs)[1..];
      } else {
        assert w' + cs[1..] == w + cs;
      }
    }
  }
}

# Stable code recognition from a stream of OCR passes

This project models the recognition and stabilisation logic of `app.js`, a
browser page that samples a camera feed, runs OCR on a band of each frame and
publishes one stable code of the form `LLLDDDDDLL` (three letters, five
digits, two letters, for example `AKE12345CI`).

The model covers five parts:

- **Extraction.** The recognised text loses its whitespace, is upper-cased,
  and is searched left to right for non-overlapping ten-character windows of
  the code shape. The regular expression always matches exactly ten
  characters, so the model is a scanner over match positions.
- **Correction.** `applyConfusionMap` substitutes commonly confused glyphs
  (`0`/`O`, `1`/`I`, `5`/`S`, `8`/`B`, `2`/`Z`, `6`/`G`, `D`→`0`).
- **Validation.** `validateCode` checks the anchored shape, then the prefix
  and suffix vocabularies.
- **Voting.** A window of at most five recent codes is kept in insertion
  order. `voteResult` returns the most frequent code. On a tie it returns the
  code that occurs first, because the count table keeps insertion order and
  the sort is stable.
- **Admission and orchestration.** A frame is admitted only when no
  recognition is in flight and at least 400 ms have passed since the last
  admitted frame. The first candidate that validates, directly or after
  correction, is recorded. Once the frame reaches the `try` block, it ends
  by clearing the in-flight flag and setting `lastOCRTime` to the admission
  time, also after a recognition failure caught inside the `try`. A failure
  while capturing or preprocessing the frame (app.js:91-94) happens before
  the `try`: the flag then stays raised and no later frame is ever admitted.

Modules: `Text` (character classes, clean-up, the code shape), `Extraction`,
`Confusion`, `Validation`, `Voting` (window and vote), `Pipeline` (candidate
selection and the class `Scanner`, which holds the page's mutable state),
`Scenarios` (concrete cases), `Wrappers` (`Option`).

Proved facts worth knowing:

- The correction fallback at app.js:108-116 can never record a code. Every
  mapped character flips between letter and digit. So a code-shaped candidate
  that fails validation still fails after correction (`Pipeline.DeadFallback`).
  Recording therefore reduces to "the first candidate that validates as it
  is" (`Pipeline.AcceptIsFirstValid`).
- The prefixes `LD3` and `LD7` contain a digit where the shape requires a
  letter, so they can never be accepted (`Validation.DigitPrefixesNeverAccepted`).

Voting counts occurrences; there is no confidence weighting. Ties go to
the code whose first occurrence in the window is earliest. There is no focus
gate and no user-selected region. The window holds 5 codes.

## Model

| member | source | states |
|---|---|---|
| Text.StripSpaces | app.js:98 | no blank is left, a text without blanks is returned unchanged, and a single character is dropped exactly when it is a blank |
| Text.StripSpacesAppend | app.js:98 | stripping a concatenation strips each part; with the single-character case this keeps every non-blank character, in order, and drops exactly the `\s` characters |
| Text.Upper | app.js:98 | upper-casing keeps the length and maps every character through the ASCII upper-case mapping |
| Text.Clean | app.js:98 | the cleaned text is no longer than the input and contains no blank and no lower-case ASCII letter |
| Text.CleanIdempotent | app.js:98 | cleaning an already cleaned text changes nothing |
| Extraction.MatchesFrom | app.js:99 | every reported position starts a shaped ten-character window inside the text, and positions increase by at least ten (no overlap, left to right) |
| Extraction.ExtractCandidates | app.js:98-99 | each candidate has the code shape and is the substring of the cleaned text at its match position; the candidates are ordered and non-overlapping; a cleaned text shorter than ten characters gives none |
| Extraction.MatchesFromLeftmost | app.js:99 | scanning from a position, every shaped window after it is reported unless an earlier reported match overlaps it |
| Extraction.MatchesComplete | app.js:99 | the reported matches are exactly those of a leftmost, non-overlapping global search |
| Extraction.NoShapeNoMatch | app.js:99 | text without any shaped window yields the empty list, which the source writes as a fallback to an empty array |
| Confusion.ApplyConfusionMap | app.js:62-64 | length is preserved, characters outside the map are unchanged, and every mapped character is replaced by its image, which lies in the other class (letter to digit, digit to letter) |
| Confusion.NotInvolution | app.js:19 | correcting twice does not give back the input: `D` becomes `0`, then `O` |
| Confusion.ShapeKeptOnlyIfUnchanged | app.js:19 | if a code-shaped string still has the code shape after correction, the correction did not change it |
| Validation.ValidateCodeIff | app.js:66-73 | `validateCode` holds exactly for ten characters of shape LLLDDDDDLL whose prefix is AKE, PMC or RKN and whose suffix is one of CI, BR, CX, JL, NH |
| Validation.DigitPrefixesNeverAccepted | app.js:17 | no string starting with `LD3` or `LD7` is accepted |
| Voting.Vote | app.js:75-81 | the reference vote over a non-empty window: an element of maximal count that occurs first among those of equal count |
| Voting.WinnerUnique | app.js:75-81 | the count and the tie-break determine the vote: two winners of one window are equal |
| Voting.Tally | app.js:76-79 | for a window of valid codes, the counting loop maps every code of the window to its number of occurrences, and lists the keys in order of first occurrence |
| Voting.VoteResult | app.js:75-81 | for a non-empty window of valid codes, the tally followed by the first entry of the stable descending sort returns the winner, and agrees with the reference vote |
| Voting.Push | app.js:103-104 | recording keeps the window within 5 entries and puts the new code last; below capacity the earlier entries are untouched; at capacity exactly the oldest is dropped |
| Voting.PushAllKeepsLast | app.js:14-15 | starting from an empty window, the window holds exactly the last five codes recorded, or all of them when fewer were recorded |
| Pipeline.Accept | app.js:101-118 | the recorded code always validates, and nothing is recorded exactly when no candidate validates either as it is or after correction |
| Pipeline.DeadFallback | app.js:108-116 | a code-shaped candidate rejected by `validateCode` is also rejected after correction |
| Pipeline.AcceptIsFirstValid | app.js:101-118 | for extracted candidates, the recorded code is the first one that validates as it is, and nothing is recorded exactly when none validates |
| Pipeline.Scanner.constructor | app.js:11-14 | the page starts idle, with `lastOCRTime = 0`, an empty window and no code shown |
| Pipeline.Scanner.TryAdmit | app.js:84-90 | a frame is admitted exactly when nothing is in flight and `now - lastOCRTime >= 400`; admission raises the in-flight flag and remembers `now` as the admission time; a rejection changes nothing; a frame is never admitted while another is in flight |
| Pipeline.Scanner.Record | app.js:103-106 | the window becomes the pushed window and the output shows the vote over it; the window invariant (at most 5 valid codes, output shows their vote) is kept |
| Pipeline.Scanner.Complete | app.js:96-124 | the window and output change exactly when a candidate is accepted, by recording the accepted code; a recognition failure records nothing; afterwards the in-flight flag is clear and `lastOCRTime` is the admission time stored by `TryAdmit` |
| Pipeline.Scanner.ProcessFrame | app.js:83-126 | a rejected frame leaves the whole state unchanged; an admitted frame whose capture fails before the `try` keeps the in-flight flag raised and changes nothing else; any other admitted frame has the effects of `Complete`, with `lastOCRTime` set to `now` |
| Scenarios.ValidExample | app.js:66-73 | `AKE12345CI` is accepted; `AKE1234CI` (nine characters) and `XYZ12345CI` (unknown prefix) are rejected |

## Left out

- The OCR engine (app.js:21-31) is not modelled. What happens to an
  admitted frame is the parameter `outcome` of `Scanner.ProcessFrame`:
  `Recognized(text)`, or `RecognitionFailed` for a failure caught at
  app.js:119-121.
- Image handling is not modelled: `preprocessImage` (app.js:33-45),
  `extractROI` (app.js:47-60, floating-point canvas sizes) and the video
  drawing (app.js:91-94). That any of them throws is the outcome
  `CaptureFailed`; which inputs make them throw is not modelled.
- `Date.now()` is the parameter `now`.
- `requestAnimationFrame` scheduling (so also the end of the scheduling
  chain after a capture failure), `startCamera` and `getUserMedia`
  (app.js:128-146) and console logging are not modelled.
- The text written to the output element is the field `output`.
- The `await` interleaving is not modelled as concurrency.
  `Scanner.TryAdmit` and `Scanner.Complete` bracket the in-flight period.
  `Scanner.ProcessFrame` runs them back to back, as happens when no other
  frame is scheduled while a recognition is pending.
- Text.Upper: only ASCII `a`–`z` are upper-cased. JavaScript's
  `toUpperCase` also maps other characters, some of them to ASCII letters
  (U+0131 to `I`, U+017F to `S`), and some to two characters (`ß` to `SS`).
  Those cases are left out.
- Strings are sequences of Unicode characters, not UTF-16 code units.
- Voting.VoteResult: the stable sort is modelled by the entry it puts first.
  That entry is the first key, in table order, with the largest count. The
  rest of the sorted order is not modelled.

/** Per-frame orchestration (app.js:11-13, 83-126): the admission gate, the
    candidate loop in which the first validating code wins, and the update of
    the voting window and of the published output. */
module Pipeline {
  import opened Wrappers
  import opened Text
  import opened Extraction
  import opened Confusion
  import opened Validation
  import opened Voting

  /** `ocrInterval`: minimum spacing of two admitted frames, in milliseconds. */
  const OcrInterval: int := 400

  /** What happens to an admitted frame after `isRecognizing` is raised.
      `CaptureFailed`: drawing the video frame, cropping or preprocessing
      (app.js:91-94, outside the `try`) throws, so the rest of the frame never
      runs. `RecognitionFailed`: the recogniser throws inside the `try` and
      the error is caught (app.js:119-121). `Recognized(text)`: the recogniser
      answers with `text`. */
  datatype FrameOutcome = CaptureFailed | RecognitionFailed | Recognized(text: string)

  /** The code the candidate loop records for `cands`: the first candidate
      that validates as it is, or else after correction; none if no candidate
      validates either way. */
  function Accept(cands: seq<string>): (r: Option<string>)
    ensures r.Some? ==> ValidateCode(r.value)
    ensures r.None? <==> forall j :: 0 <= j < |cands| ==>
      !ValidateCode(cands[j]) && !ValidateCode(ApplyConfusionMap(cands[j]))
  {
    if cands == [] then None
    else if ValidateCode(cands[0]) then Some(cands[0])
    else if ValidateCode(ApplyConfusionMap(cands[0])) then Some(ApplyConfusionMap(cands[0]))
    else Accept(cands[1..])
  }

  /** The correction fallback is dead code: a code-shaped candidate that
      `validateCode` rejects is rejected after correction too, because every
      mapped character leaves its class and breaks the shape. */
  lemma DeadFallback(c: string)
    requires IsCodeShape(c) && !ValidateCode(c)
    ensures !ValidateCode(ApplyConfusionMap(c))
  {
    if ValidateCode(ApplyConfusionMap(c)) {
      ShapeKeptOnlyIfUnchanged(c);
      assert false;
    }
  }

  /** First valid wins: for code-shaped candidates, the loop records
      `cands[k]` exactly when it validates and no earlier candidate does, and
      records nothing exactly when no candidate validates. The corrected
      branch never contributes. */
  lemma {:induction false} AcceptIsFirstValid(cands: seq<string>)
    requires forall j :: 0 <= j < |cands| ==> IsCodeShape(cands[j])
    ensures forall k ::
      (0 <= k < |cands| && ValidateCode(cands[k]) && forall j :: 0 <= j < k ==> !ValidateCode(cands[j]))
      ==> Accept(cands) == Some(cands[k])
    ensures Accept(cands).Some? ==>
      exists k :: 0 <= k < |cands| && Accept(cands) == Some(cands[k]) &&
        ValidateCode(cands[k]) && forall j :: 0 <= j < k ==> !ValidateCode(cands[j])
    ensures Accept(cands).None? <==> forall j :: 0 <= j < |cands| ==> !ValidateCode(cands[j])
  {
    if cands != [] {
      if !ValidateCode(cands[0]) {
        DeadFallback(cands[0]);
        AcceptIsFirstValid(cands[1..]);
        forall k | 0 <= k < |cands| && ValidateCode(cands[k]) &&
            (forall j :: 0 <= j < k ==> !ValidateCode(cands[j]))
          ensures Accept(cands) == Some(cands[k])
        {
          assert cands[1..][k - 1] == cands[k];
        }
        if Accept(cands).Some? {
          var k :| 0 <= k < |cands[1..]| && Accept(cands[1..]) == Some(cands[1..][k]) &&
            ValidateCode(cands[1..][k]) && forall j :: 0 <= j < k ==> !ValidateCode(cands[1..][j]);
          assert cands[k + 1] == cands[1..][k];
        }
      }
    }
  }

  /** The application state of app.js: the single-flight flag and the time of
      the last admitted frame (app.js:11-12), the window of recent codes
      (app.js:14) and the text shown in the output element. `admittedAt` is
      the `now` that `processFrame` read when it admitted the frame in flight
      (app.js:84); the source keeps it in a local of the pending call. */
  class Scanner {
    var isRecognizing: bool
    var lastOCRTime: int
    var admittedAt: int
    var recent: seq<string>
    var output: Option<string>

    /** The window never exceeds its capacity and holds only valid codes, and
        once a code was recorded the output shows the vote over the window. */
    ghost predicate Valid()
      reads this
    {
      |recent| <= MaxRecent &&
      (forall c :: c in recent ==> ValidateCode(c)) &&
      (output.Some? <==> recent != []) &&
      (recent != [] ==> output == Some(Vote(recent)))
    }

    /** The state at module load: idle, `lastOCRTime = 0`, empty window, no
        code shown. */
    constructor ()
      ensures Valid()
      ensures !isRecognizing && lastOCRTime == 0 && recent == [] && output == None
    {
      isRecognizing := false;
      lastOCRTime := 0;
      admittedAt := 0;
      recent := [];
      output := None;
    }

    /** The gate at app.js:84-90: a frame is admitted when no recognition is
        in flight and at least `OcrInterval` milliseconds have passed since
        the last admitted frame (the boundary is admitted). Admission raises
        `isRecognizing` and remembers `now`; a rejected frame changes nothing. */
    method TryAdmit(now: int) returns (admitted: bool)
      requires Valid()
      modifies this
      ensures Valid()
      ensures admitted <==> !old(isRecognizing) && now - old(lastOCRTime) >= OcrInterval
      ensures admitted ==> isRecognizing && admittedAt == now
      ensures !admitted ==> isRecognizing == old(isRecognizing) && admittedAt == old(admittedAt)
      ensures lastOCRTime == old(lastOCRTime) && recent == old(recent) && output == old(output)
    {
      if now - lastOCRTime < OcrInterval || isRecognizing {
        return false;
      }
      isRecognizing := true;
      admittedAt := now;
      return true;
    }

    /** Recording an accepted code (app.js:103-106, repeated at 111-114):
        push it, shift the oldest entry out if the window grew past
        `MaxRecent`, and show the vote over the window. */
    method Record(code: string)
      requires Valid() && ValidateCode(code)
      modifies this
      ensures Valid()
      ensures recent == Push(old(recent), code)
      ensures output == Some(Vote(recent))
      ensures isRecognizing == old(isRecognizing) && lastOCRTime == old(lastOCRTime)
      ensures admittedAt == old(admittedAt)
    {
      recent := recent + [code];
      if |recent| > MaxRecent {
        recent := recent[1..];
      }
      var voted := VoteResult(recent);
      output := Some(voted);
    }

    /** The `try` block of an admitted frame and what follows it
        (app.js:96-124), once the recogniser has answered with `Some(text)`
        or failed with `None`. On text, the candidates are tried left to
        right and the first one that validates, as it is or after
        correction, is recorded; a failure is caught and records nothing.
        Either way the frame ends by setting `lastOCRTime` to the admission
        time and clearing `isRecognizing`. */
    method Complete(recognized: Option<string>)
      requires Valid() && isRecognizing
      modifies this
      ensures Valid()
      ensures !isRecognizing && lastOCRTime == old(admittedAt) && admittedAt == old(admittedAt)
      ensures var accepted := if recognized.Some? then Accept(ExtractCandidates(recognized.value)) else None;
        if accepted.Some? then recent == Push(old(recent), accepted.value) && output == Some(Vote(recent))
        else recent == old(recent) && output == old(output)
    {
      if recognized.Some? {
        var candidates := ExtractCandidates(recognized.value);
        var i := 0;
        while i < |candidates|
          invariant 0 <= i <= |candidates|
          invariant Accept(candidates) == Accept(candidates[i..])
          invariant Valid()
          invariant recent == old(recent) && output == old(output)
        {
          assert candidates[i..][1..] == candidates[i + 1..];
          var code := candidates[i];
          if ValidateCode(code) {
            Record(code);
            break;
          } else {
            var corrected := ApplyConfusionMap(code);
            if ValidateCode(corrected) {
              Record(corrected);
              break;
            }
          }
          i := i + 1;
        }
      }
      lastOCRTime := admittedAt;
      isRecognizing := false;
    }

    /** One call of `processFrame` at time `now`, where `outcome` is what
        happens to this frame if it is admitted. A rejected frame leaves the
        state as it was. An admitted frame whose capture fails stops with
        `isRecognizing` still raised, so no later frame is ever admitted; any
        other admitted frame runs to completion. */
    method ProcessFrame(now: int, outcome: FrameOutcome) returns (admitted: bool)
      requires Valid()
      modifies this
      ensures Valid()
      ensures admitted <==> !old(isRecognizing) && now - old(lastOCRTime) >= OcrInterval
      ensures !admitted ==>
        (isRecognizing == old(isRecognizing) && lastOCRTime == old(lastOCRTime) &&
         recent == old(recent) && output == old(output))
      ensures admitted && outcome.CaptureFailed? ==>
        (isRecognizing && lastOCRTime == old(lastOCRTime) && recent == old(recent) && output == old(output))
      ensures admitted && !outcome.CaptureFailed? ==> !isRecognizing && lastOCRTime == now
      ensures var accepted := if admitted && outcome.Recognized? then Accept(ExtractCandidates(outcome.text)) else None;
        if accepted.Some? then recent == Push(old(recent), accepted.value) && output == Some(Vote(recent))
        else recent == old(recent) && output == old(output)
    {
      admitted := TryAdmit(now);
      if admitted {
        match outcome
        case CaptureFailed =>
        case RecognitionFailed => Complete(None);
        case Recognized(text) => Complete(Some(text));
      }
    }
  }
}

/** Concrete scenarios: the admission boundary, a capture failure that
    blocks admission for good, and three validator cases. */
module Scenarios {
  import opened Wrappers
  import opened Text
  import opened Validation
  import opened Pipeline

  method AdmissionBoundary() {
    var s := new Scanner();
    var a := s.ProcessFrame(1000, RecognitionFailed);
    assert a && s.lastOCRTime == 1000 && !s.isRecognizing && s.output == None;
    a := s.ProcessFrame(1399, RecognitionFailed);
    assert !a;
    a := s.TryAdmit(1400);
    assert a && s.isRecognizing;
    a := s.TryAdmit(5000);
    assert !a;
    s.Complete(None);
    assert s.lastOCRTime == 1400 && !s.isRecognizing;
  }

  method CaptureFailureStalls() {
    var s := new Scanner();
    var a := s.ProcessFrame(1000, CaptureFailed);
    assert a && s.isRecognizing && s.lastOCRTime == 0;
    a := s.ProcessFrame(100000, RecognitionFailed);
    assert !a && s.isRecognizing;
  }

  lemma ValidExample()
    ensures ValidateCode("AKE12345CI")
    ensures !ValidateCode("AKE1234CI")
    ensures !ValidateCode("XYZ12345CI")
  {
    var c := "AKE12345CI";
    assert forall k :: 0 <= k < 10 ==> FitsAt(k, c[k]);
    assert c[..3] == "AKE" && c[8..] == "CI";
    assert "XYZ12345CI"[..3] == "XYZ";
  }
}

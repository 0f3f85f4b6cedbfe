/** What a passed display test says about the macropixels of its captures. */
module Verdicts {
  import opened Common
  import Layers
  import FrameScan
  import Capture

  /** The size of the display, the layers of each frame, and what the camera's buffers show. */
  datatype Bench = Bench(width: uint32, height: uint32, layers: seq<seq<Layers.State>>, views: nat -> FrameScan.Capture)

  /** CheckFrame without the quick flag, for a frame and a buffer. */
  function FullVerdict(b: Bench, k: nat, buffer: nat): (v: FrameScan.Verdict)
    requires k < |b.layers|
  {
    FrameScan.ScanVerdict(FrameScan.Judge(b.layers[k], b.views(buffer)), FrameScan.FullOrder(b.width, b.height))
  }

  /** CheckFrame with the quick flag, for a frame and what a buffer shows. */
  function QuickVerdict(b: Bench, k: nat, view: FrameScan.Capture): (v: FrameScan.Verdict)
    requires k < |b.layers|
  {
    FrameScan.ScanVerdict(FrameScan.Judge(b.layers[k], view), FrameScan.QuickOrder(b.width, b.height, 5))
  }

  function Check(b: Bench): (check: Capture.Check) {
    (k: nat, buffer: nat) => k < |b.layers| && FullVerdict(b, k, buffer) == FrameScan.Match
  }

  /** Every macropixel of frame k is uncertain or looks right in what the buffer shows. */
  ghost predicate FrameMatches(b: Bench, k: nat, buffer: nat)
    requires k < |b.layers|
  {
    forall c: FrameScan.Coord :: FrameScan.IsMacropixel(c, b.width, b.height) ==>
      FrameScan.PointMatches(b.layers[k], b.views(buffer), c.0, c.1)
  }

  ghost predicate AllFramesMatch(b: Bench, bufferIds: seq<nat>)
    requires |bufferIds| + 2 <= |b.layers|
  {
    forall k :: 0 <= k < |bufferIds| ==> FrameMatches(b, k + 2, bufferIds[k])
  }

  lemma CheckMeansFrameMatches(b: Bench, k: nat, buffer: nat)
    requires b.width % 2 == 0 && k < |b.layers|
    ensures Check(b)(k, buffer) <==> FrameMatches(b, k, buffer)
  {
    FrameScan.FullCheckIsComplete(b.layers[k], b.views(buffer), b.width, b.height);
  }

  /**
   In every reachable state a finished test on a display of even width passed if and only if every
   frame past calibration was captured and every macropixel of every one of them is skipped or
   matches; and it failed for a mismatch if and only if all were captured and some macropixel does not.
   */
  lemma PassedIffMacropixelsMatch(b: Bench, inputs: seq<Capture.Input>)
    requires b.width % 2 == 0 && Capture.Run(Check(b), inputs).Some?
    requires var s := Capture.Run(Check(b), inputs).value;
             s.phase.Finished? && |b.layers| == |s.frames|
    ensures var s := Capture.Run(Check(b), inputs).value;
            && |s.bufferIds| + 2 <= |b.layers|
            && (s.status == Capture.Ok <==> s.captureIdx == |s.frames| && AllFramesMatch(b, s.bufferIds))
            && (s.status == Capture.CaptureMismatch <==> s.captureIdx == |s.frames| && !AllFramesMatch(b, s.bufferIds))
  {
    var s := Capture.Run(Check(b), inputs).value;
    Capture.EveryVerdictIsRight(Check(b), inputs);
    AllMatchMeans(b, s.bufferIds);
  }

  lemma AllMatchMeans(b: Bench, bufferIds: seq<nat>)
    requires b.width % 2 == 0 && |bufferIds| + 2 <= |b.layers|
    ensures Capture.AllMatch(Check(b), bufferIds) <==> AllFramesMatch(b, bufferIds)
  {
    if Capture.AllMatch(Check(b), bufferIds) {
      forall k | 0 <= k < |bufferIds|
        ensures FrameMatches(b, k + 2, bufferIds[k])
      {
        assert Check(b)(k + 2, bufferIds[k]);
        CheckMeansFrameMatches(b, k + 2, bufferIds[k]);
      }
    } else {
      var k :| 0 <= k < |bufferIds| && !Check(b)(k + 2, bufferIds[k]);
      CheckMeansFrameMatches(b, k + 2, bufferIds[k]);
    }
  }

  // ----- calibration -----

  /** shows[n] is what the buffer of input n showed when it came; the quick checks come out accordingly. */
  ghost predicate QuicklyChecked(b: Bench, check: Capture.Check, inputs: seq<Capture.Input>,
                                 shows: seq<FrameScan.Capture>)
    requires |b.layers| >= 2 && |shows| == |inputs| && Capture.Run(check, inputs).Some?
  {
    inputs == [] ||
    var n := |inputs| - 1;
    var s := Capture.Run(check, inputs[..n]).value;
    && QuicklyChecked(b, check, inputs[..n], shows[..n])
    && (Capture.IsCalibrating(s, inputs[n], s.captureIdx) ==>
        (inputs[n].calibrated <==> QuickVerdict(b, s.captureIdx, shows[n]) == FrameScan.Match))
  }

  /** Some buffer showed the corners and the middle of frame k. */
  ghost predicate Showed(b: Bench, shows: seq<FrameScan.Capture>, k: nat)
    requires k < |b.layers|
  {
    exists view :: view in shows && FrameScan.CornersMatch(b.layers[k], view, b.width, b.height)
  }

  lemma {:induction false} CalibratedShowed(b: Bench, check: Capture.Check, inputs: seq<Capture.Input>,
                                            shows: seq<FrameScan.Capture>, k: nat)
    requires |b.layers| >= 2 && |shows| == |inputs| && Capture.Run(check, inputs).Some?
    requires QuicklyChecked(b, check, inputs, shows) && k < 2 && Capture.Calibrated(check, inputs, k)
    ensures Showed(b, shows, k)
  {
    var n := |inputs| - 1;
    if Capture.Calibrated(check, inputs[..n], k) {
      CalibratedShowed(b, check, inputs[..n], shows[..n], k);
      var view :| view in shows[..n] && FrameScan.CornersMatch(b.layers[k], view, b.width, b.height);
      assert view in shows;
    } else {
      FrameScan.QuickCheckMeans(b.layers[k], shows[n], b.width, b.height);
      assert shows[n] in shows;
    }
  }

  /** In every reachable state past calibration the corners and the middle of both calibration frames were shown. */
  lemma PastCalibrationShowed(b: Bench, check: Capture.Check, inputs: seq<Capture.Input>, shows: seq<FrameScan.Capture>)
    requires |b.layers| >= 2 && |shows| == |inputs| && Capture.Run(check, inputs).Some?
    requires QuicklyChecked(b, check, inputs, shows) && Capture.Run(check, inputs).value.captureIdx >= 2
    ensures Showed(b, shows, 0) && Showed(b, shows, 1)
  {
    Capture.PastCalibration(check, inputs, 0);
    CalibratedShowed(b, check, inputs, shows, 0);
    Capture.PastCalibration(check, inputs, 1);
    CalibratedShowed(b, check, inputs, shows, 1);
  }
}

/** The life of a display test: applying frames, capturing them with a camera, and giving its buffers back. */
module Capture {
  import opened Common

  const MAX_FRAMES: nat := 32

  datatype Status = Unknown | Ok | DisplayCheckFail | VsyncFail | CaptureMismatch

  /** Configuring: frames are being added. Running: test_running_. Finished: FinishTest was called. */
  datatype Phase = Configuring | Running | Finished

  /** The images of the layers of a frame, from the lowest; zero is a layer without one. */
  type Frame = seq<nat>

  /**
   The runner's fields, with the camera buffers ever delivered to it and released by it. `overrun`
   says that a vector was read past its end; nothing is said of what the program does afterwards.
   */
  datatype State = State(phase: Phase, frames: seq<Frame>, displayIdx: nat, captureIdx: nat, badCaptures: nat,
                         status: Status, bufferIds: seq<nat>, delivered: multiset<nat>, released: multiset<nat>,
                         overrun: bool)

  const INITIAL := State(Configuring, [], 0, 0, 0, Unknown, [], multiset{}, multiset{}, false)

  datatype Input =
    | StartTest(imageA: nat, imageB: nat)                // two calibration frames are applied first
    | ApplyConfig(frame: Frame)                          // the test adds a frame
    | Ready                                              // every resource is ready: the test runs
    | CheckRejected                                      // the display controller refuses a frame
    | Vsync(images: seq<nat>)                            // the images shown, from the lowest
    | FrameAvailable(buffer: nat, ok: bool, calibrated: bool)  // a captured frame; whether the quick check passes
    | CleanupTest

  /** Whether the retained buffer shows the frame, as the full check decides. */
  type Check = (nat, nat) -> bool

  /** What the program asserts or its environment provides; a false assertion ends the program. */
  predicate Enabled(s: State, i: Input) {
    !s.overrun &&
    match i
    case StartTest(_, _) => s.phase.Configuring? && s.frames == []
    case ApplyConfig(_) => s.phase.Configuring? && |s.frames| >= 2
    case Ready => s.phase.Configuring? && |s.frames| >= 2
    case CheckRejected => s.phase.Running?
    case Vsync(_) => true
    case FrameAvailable(buffer, ok, _) =>
      buffer < MAX_FRAMES && (s.phase.Running? && !ok ==> s.captureIdx == 0 && s.badCaptures < 5)
    case CleanupTest => !s.phase.Running?
  }

  predicate AllMatch(check: Check, bufferIds: seq<nat>) {
    forall k :: 0 <= k < |bufferIds| ==> check(k + 2, bufferIds[k])
  }

  function Finish(s: State, status: Status): (r: State) {
    s.(status := status, phase := Finished)
  }

  function Release(s: State, buffer: nat): (r: State) {
    s.(released := s.released + multiset{buffer})
  }

  /** The images that a frame needs. */
  function Images(frame: Frame): (ids: seq<nat>) {
    if frame == [] then []
    else
      var ids, id := Images(frame[..|frame| - 1]), frame[|frame| - 1];
      if id == 0 then ids else ids + [id]
  }

  /** The first frame of the test is looked up, whether it has one or not. */
  function OnReady(s: State): (r: State) {
    if |s.frames| <= 2 then s.(overrun := true) else s.(phase := Running)
  }

  function OnVsync(s: State, images: seq<nat>): (r: State)
    requires s.phase.Running? ==> s.displayIdx < |s.frames|
  {
    if !s.phase.Running? || images == [] then s
    else
      var needed := Images(s.frames[s.displayIdx]);
      if images < needed then s.(overrun := true)
      else if !(needed <= images) then if s.displayIdx != 0 then Finish(s, VsyncFail) else s
      else if s.captureIdx > 0 && s.displayIdx + 1 < |s.frames| then s.(displayIdx := s.displayIdx + 1)
      else s
  }

  function OnFrame(check: Check, s0: State, buffer: nat, ok: bool, calibrated: bool): (r: State) {
    var s := s0.(delivered := s0.delivered + multiset{buffer});
    if !s.phase.Running? then Release(s, buffer)
    else if !ok then Release(s.(badCaptures := s.badCaptures + 1), buffer)
    else if s.captureIdx < 2 then
      Release(if calibrated then s.(captureIdx := s.captureIdx + 1) else s, buffer)
    else Retained(check, s, buffer)
  }

  /** A frame past calibration is kept; the last one decides the test. */
  function Retained(check: Check, s: State, buffer: nat): (r: State) {
    var kept := s.(bufferIds := s.bufferIds + [buffer], captureIdx := s.captureIdx + 1);
    if kept.captureIdx != |kept.frames| then kept
    else Finish(kept, if AllMatch(check, kept.bufferIds) then Ok else CaptureMismatch)
  }

  function Cleanup(s: State): (r: State) {
    s.(phase := Configuring, frames := [], displayIdx := 0, captureIdx := 0, bufferIds := [],
       released := s.released + multiset(s.bufferIds))
  }

  // ----- what every run keeps -----

  function Past(captureIdx: nat): (n: nat) {
    if captureIdx < 2 then 0 else captureIdx - 2
  }

  /** No buffer is lost or released twice; indices stay within the frames; retained buffers follow the captures. */
  predicate Inv(s: State) {
    && s.delivered == s.released + multiset(s.bufferIds)
    && |s.bufferIds| == Past(s.captureIdx)
    && (forall i :: 0 <= i < |s.bufferIds| ==> s.bufferIds[i] < MAX_FRAMES)
    && (s.phase.Configuring? ==> s.captureIdx == 0 && s.displayIdx == 0 && (s.frames == [] || |s.frames| >= 2))
    && (s.phase.Running? ==> |s.frames| >= 3 && s.captureIdx < |s.frames| && s.displayIdx < |s.frames|)
    && (s.phase.Finished? ==> |s.frames| >= 3 && s.captureIdx <= |s.frames| && s.displayIdx < |s.frames|)
    && (s.displayIdx > 0 ==> s.captureIdx > 0)
  }

  lemma FrameKeepsInv(check: Check, s: State, buffer: nat, ok: bool, calibrated: bool)
    requires Inv(s) && Enabled(s, FrameAvailable(buffer, ok, calibrated))
    ensures Inv(OnFrame(check, s, buffer, ok, calibrated))
  {
    if s.phase.Running? && ok && s.captureIdx >= 2 {
      RetainKeepsInv(check, s, buffer);
    }
  }

  lemma RetainKeepsInv(check: Check, s: State, buffer: nat)
    requires Inv(s) && s.phase.Running? && s.captureIdx >= 2 && buffer < MAX_FRAMES
    ensures Inv(Retained(check, s.(delivered := s.delivered + multiset{buffer}), buffer))
  {
    var ids := s.bufferIds + [buffer];
    assert multiset(ids) == multiset(s.bufferIds) + multiset{buffer};
    assert forall i :: 0 <= i < |ids| ==> ids[i] < MAX_FRAMES;
  }

  function Step(check: Check, s: State, i: Input): (r: State)
    requires Inv(s) && Enabled(s, i)
  {
    match i
    case StartTest(imageA, imageB) => s.(status := Unknown, frames := [[imageA], [imageB]])
    case ApplyConfig(frame) => s.(frames := s.frames + [frame])
    case Ready => OnReady(s)
    case CheckRejected => Finish(s, DisplayCheckFail)
    case Vsync(images) => OnVsync(s, images)
    case FrameAvailable(buffer, ok, calibrated) => OnFrame(check, s, buffer, ok, calibrated)
    case CleanupTest => Cleanup(s)
  }

  lemma StepKeepsInv(check: Check, s: State, i: Input)
    requires Inv(s) && Enabled(s, i)
    ensures Inv(Step(check, s, i))
  {
    if i.FrameAvailable? {
      FrameKeepsInv(check, s, i.buffer, i.ok, i.calibrated);
    }
  }

  /** None once an input was impossible. Every reachable state keeps the invariant. */
  function Run(check: Check, inputs: seq<Input>): (r: Option<State>)
    ensures r.Some? ==> Inv(r.value)
  {
    if inputs == [] then Some(INITIAL)
    else
      var s, i := Run(check, inputs[..|inputs| - 1]), inputs[|inputs| - 1];
      if s.Some? && Enabled(s.value, i) then
        StepKeepsInv(check, s.value, i);
        Some(Step(check, s.value, i))
      else None
  }

  /** After every cleanup, each buffer that was ever delivered was released exactly as often. */
  lemma BuffersReturnedByCleanup(check: Check, inputs: seq<Input>)
    requires inputs != [] && inputs[|inputs| - 1].CleanupTest? && Run(check, inputs).Some?
    ensures Run(check, inputs).value.delivered == Run(check, inputs).value.released
  {
  }

  function DeliveredIn(inputs: seq<Input>): (buffers: multiset<nat>) {
    if inputs == [] then multiset{}
    else
      DeliveredIn(inputs[..|inputs| - 1]) +
      if inputs[|inputs| - 1].FrameAvailable? then multiset{inputs[|inputs| - 1].buffer} else multiset{}
  }

  /** What counts as delivered is what the camera delivered. */
  lemma {:induction false} DeliveredIsTracked(check: Check, inputs: seq<Input>)
    requires Run(check, inputs).Some?
    ensures Run(check, inputs).value.delivered == DeliveredIn(inputs)
  {
    if inputs != [] {
      DeliveredIsTracked(check, inputs[..|inputs| - 1]);
      StepDelivers(check, Run(check, inputs[..|inputs| - 1]).value, inputs[|inputs| - 1]);
    }
  }

  lemma StepDelivers(check: Check, s: State, i: Input)
    requires Inv(s) && Enabled(s, i)
    ensures Step(check, s, i).delivered == s.delivered + if i.FrameAvailable? then multiset{i.buffer} else multiset{}
  {
  }

  /** A capture ends the test exactly when it is the last frame's; it then passes iff every retained buffer matches. */
  lemma LastCaptureDecides(check: Check, s: State, buffer: nat, calibrated: bool)
    requires Inv(s) && s.phase.Running? && s.captureIdx >= 2
    ensures var r := OnFrame(check, s, buffer, true, calibrated);
            && (r.phase.Finished? <==> s.captureIdx + 1 == |s.frames|)
            && (r.phase.Finished? ==>
                |r.bufferIds| == |r.frames| - 2 && (r.status == Ok <==> AllMatch(check, r.bufferIds)))
            && (!r.phase.Finished? ==> r.phase.Running? && r.bufferIds == s.bufferIds + [buffer])
  {
  }

  /** A test that finished with a verdict on its captures got the right one. */
  predicate VerdictIsRight(check: Check, s: State) {
    s.phase.Finished? ==>
      && (s.status == Ok <==> s.captureIdx == |s.frames| && AllMatch(check, s.bufferIds))
      && (s.status == CaptureMismatch <==> s.captureIdx == |s.frames| && !AllMatch(check, s.bufferIds))
  }

  /**
   In every reachable state a finished test passed if and only if every frame past calibration was
   captured and all captures match, and failed for a mismatch if and only if all were captured and
   one does not.
   */
  lemma {:induction false} EveryVerdictIsRight(check: Check, inputs: seq<Input>)
    requires Run(check, inputs).Some?
    ensures VerdictIsRight(check, Run(check, inputs).value)
  {
    if inputs != [] {
      EveryVerdictIsRight(check, inputs[..|inputs| - 1]);
      StepKeepsVerdict(check, Run(check, inputs[..|inputs| - 1]).value, inputs[|inputs| - 1]);
    }
  }

  lemma StepKeepsVerdict(check: Check, s: State, i: Input)
    requires Inv(s) && VerdictIsRight(check, s) && Enabled(s, i)
    ensures VerdictIsRight(check, Step(check, s, i))
  {
  }

  // ----- how a test ends, and what is displayed -----

  /** The images of a frame are those of its layers that have one, in order. */
  lemma {:induction false} ImagesAre(frame: Frame, more: Frame)
    ensures Images(frame + more) == Images(frame) + Images(more)
    ensures forall id: nat :: Images([id]) == if id == 0 then [] else [id]
    decreases |more|
  {
    forall id: nat
      ensures Images([id]) == if id == 0 then [] else [id]
    {
      assert [id][..0] == [];
    }
    if more == [] {
      assert frame + more == frame;
    } else {
      ImagesAre(frame, more[..|more| - 1]);
      assert (frame + more)[..|frame + more| - 1] == frame + more[..|more| - 1];
    }
  }

  /** A vsync past the first frame shows an image other than the one that the frame on display needs there. */
  predicate ShowsOther(s: State, i: Input)
    requires Inv(s)
  {
    && i.Vsync? && s.phase.Running? && s.displayIdx != 0
    && var needed := Images(s.frames[s.displayIdx]);
       exists k :: 0 <= k < |needed| && k < |i.images| && needed[k] != i.images[k]
  }

  predicate CapturesLast(s: State, i: Input) {
    i.FrameAvailable? && i.ok && s.phase.Running? && s.captureIdx + 1 == |s.frames|
  }

  lemma PrefixOrDiffers(needed: seq<nat>, images: seq<nat>)
    ensures needed <= images || images < needed ||
            exists k :: 0 <= k < |needed| && k < |images| && needed[k] != images[k]
    ensures needed <= images || images < needed ==>
              !exists k :: 0 <= k < |needed| && k < |images| && needed[k] != images[k]
  {
  }

  /** What ends a running test, and how. */
  lemma FinishesIff(check: Check, s: State, i: Input)
    requires Inv(s) && Enabled(s, i) && s.phase.Running?
    ensures var r := Step(check, s, i);
            && (r.phase.Finished? <==> i.CheckRejected? || ShowsOther(s, i) || CapturesLast(s, i))
            && (r.phase.Finished? ==> EndsAs(s, i, r.status))
  {
    if i.Vsync? {
      PrefixOrDiffers(Images(s.frames[s.displayIdx]), i.images);
    }
  }

  /** The status that an input gives to the test it ends. */
  predicate EndsAs(s: State, i: Input, status: Status)
    requires Inv(s)
  {
    && (status == DisplayCheckFail <==> i.CheckRejected?)
    && (status == VsyncFail <==> ShowsOther(s, i))
    && (status == Ok || status == CaptureMismatch <==> CapturesLast(s, i))
  }

  /** Some input of the run ended the test, with this status, and nothing has been done about it since. */
  ghost predicate EndedAs(check: Check, inputs: seq<Input>, status: Status)
    requires Run(check, inputs).Some?
  {
    inputs != [] &&
    var init, i := inputs[..|inputs| - 1], inputs[|inputs| - 1];
    var s := Run(check, init).value;
    if s.phase.Running? then EndsAs(s, i, status) else EndedAs(check, init, status)
  }

  lemma FinishedStays(check: Check, s: State, i: Input)
    requires Inv(s) && Enabled(s, i) && !s.phase.Running?
    ensures var r := Step(check, s, i);
            r.phase.Finished? ==> s.phase.Finished? && r.status == s.status
  {
  }

  /** In every reachable state a finished test has the status of the input that ended it. */
  lemma {:induction false} EveryEndIsExplained(check: Check, inputs: seq<Input>)
    requires Run(check, inputs).Some? && Run(check, inputs).value.phase.Finished?
    ensures EndedAs(check, inputs, Run(check, inputs).value.status)
  {
    var init, i := inputs[..|inputs| - 1], inputs[|inputs| - 1];
    var s := Run(check, init).value;
    if s.phase.Running? {
      FinishesIff(check, s, i);
    } else {
      FinishedStays(check, s, i);
      EveryEndIsExplained(check, init);
    }
  }

  /** A vsync shows the images of frame k while it is on display and captures have begun. */
  predicate ShowsOwn(s: State, i: Input, k: nat)
    requires Inv(s)
  {
    && i.Vsync? && i.images != [] && s.phase.Running? && s.displayIdx == k && s.captureIdx > 0
    && Images(s.frames[k]) <= i.images
  }

  /** At some time of the run. */
  ghost predicate WasShown(check: Check, inputs: seq<Input>, k: nat)
    requires Run(check, inputs).Some?
  {
    inputs != [] &&
    var init := inputs[..|inputs| - 1];
    WasShown(check, init, k) || ShowsOwn(Run(check, init).value, inputs[|inputs| - 1], k)
  }

  lemma DisplaysNextIff(check: Check, s: State, i: Input)
    requires Inv(s) && Enabled(s, i) && s.phase.Running?
    ensures var r := Step(check, s, i);
            r.displayIdx == if ShowsOwn(s, i, s.displayIdx) && s.displayIdx + 1 < |s.frames| then s.displayIdx + 1
                            else s.displayIdx
  {
  }

  lemma OnlyRunningDisplays(check: Check, s: State, i: Input)
    requires Inv(s) && Enabled(s, i) && !s.phase.Running?
    ensures Step(check, s, i).displayIdx <= s.displayIdx
  {
  }

  /** Every run displays a frame only after a vsync showed the one before it. */
  lemma {:induction false} DisplayedAfterShown(check: Check, inputs: seq<Input>, k: nat)
    requires Run(check, inputs).Some? && Run(check, inputs).value.displayIdx > k
    ensures WasShown(check, inputs, k)
  {
    if inputs != [] {
      var init, i := inputs[..|inputs| - 1], inputs[|inputs| - 1];
      var s := Run(check, init).value;
      if s.phase.Running? {
        DisplaysNextIff(check, s, i);
      } else {
        OnlyRunningDisplays(check, s, i);
      }
      if s.displayIdx > k {
        DisplayedAfterShown(check, init, k);
      }
    }
  }

  /** How many captures went wrong while a test was running, over all the tests of a run. */
  ghost function BadIn(check: Check, inputs: seq<Input>): (n: nat)
    requires Run(check, inputs).Some?
  {
    if inputs == [] then 0
    else
      var init, i := inputs[..|inputs| - 1], inputs[|inputs| - 1];
      BadIn(check, init) + if Run(check, init).value.phase.Running? && i.FrameAvailable? && !i.ok then 1 else 0
  }

  lemma StepCountsBad(check: Check, s: State, i: Input)
    requires Inv(s) && Enabled(s, i)
    ensures Step(check, s, i).badCaptures ==
            s.badCaptures + if s.phase.Running? && i.FrameAvailable? && !i.ok then 1 else 0
  {
  }

  /** Over every run at most five captures go wrong, in all tests together: a sixth would end the program. */
  lemma {:induction false} BadCapturesCounted(check: Check, inputs: seq<Input>)
    requires Run(check, inputs).Some?
    ensures Run(check, inputs).value.badCaptures == BadIn(check, inputs) <= 5
  {
    if inputs != [] {
      BadCapturesCounted(check, inputs[..|inputs| - 1]);
      StepCountsBad(check, Run(check, inputs[..|inputs| - 1]).value, inputs[|inputs| - 1]);
    }
  }

  /** A captured frame is checked quickly, against frame k. */
  predicate IsCalibrating(s: State, i: Input, k: nat) {
    k < 2 && s.phase.Running? && s.captureIdx == k && i.FrameAvailable? && i.ok
  }

  /** At some time of the run the quick check against frame k passed. */
  ghost predicate Calibrated(check: Check, inputs: seq<Input>, k: nat)
    requires Run(check, inputs).Some?
  {
    inputs != [] &&
    var init, i := inputs[..|inputs| - 1], inputs[|inputs| - 1];
    Calibrated(check, init, k) || (IsCalibrating(Run(check, init).value, i, k) && i.calibrated)
  }

  lemma StepCalibrates(check: Check, s: State, i: Input, k: nat)
    requires Inv(s) && Enabled(s, i) && k < 2
    ensures s.captureIdx <= k < Step(check, s, i).captureIdx ==> IsCalibrating(s, i, k) && i.calibrated
  {
  }

  /** Every run gets past a calibration frame only by a quick check against it that passed. */
  lemma {:induction false} PastCalibration(check: Check, inputs: seq<Input>, k: nat)
    requires Run(check, inputs).Some? && k < 2 && Run(check, inputs).value.captureIdx > k
    ensures Calibrated(check, inputs, k)
  {
    if inputs != [] {
      var init := inputs[..|inputs| - 1];
      StepCalibrates(check, Run(check, init).value, inputs[|inputs| - 1], k);
      if Run(check, init).value.captureIdx > k {
        PastCalibration(check, init, k);
      }
    }
  }

  // ----- reading past the end of a vector -----

  /**
   What an input makes the program read past the end: the frames, when a test without frames of its
   own becomes ready, or the images shown, when they are fewer than the frame on display needs and
   agree with it as far as they go.
   */
  predicate ReadsPastEnd(s: State, i: Input)
    requires Inv(s)
  {
    || (i.Ready? && |s.frames| == 2)
    || (i.Vsync? && s.phase.Running? && i.images != [] && i.images < Images(s.frames[s.displayIdx]))
  }

  /** No input of a run was of that kind when it came. */
  ghost predicate NeverReadsPastEnd(check: Check, inputs: seq<Input>)
    requires Run(check, inputs).Some?
  {
    inputs == [] ||
    var init := inputs[..|inputs| - 1];
    NeverReadsPastEnd(check, init) && !ReadsPastEnd(Run(check, init).value, inputs[|inputs| - 1])
  }

  lemma StepOverruns(check: Check, s: State, i: Input)
    requires Inv(s) && Enabled(s, i)
    ensures Step(check, s, i).overrun <==> ReadsPastEnd(s, i)
  {
  }

  /** Over every run: something was read past its end if and only if some input was of that kind. */
  lemma {:induction false} OverrunIff(check: Check, inputs: seq<Input>)
    requires Run(check, inputs).Some?
    ensures Run(check, inputs).value.overrun <==> !NeverReadsPastEnd(check, inputs)
  {
    if inputs != [] {
      OverrunIff(check, inputs[..|inputs| - 1]);
      StepOverruns(check, Run(check, inputs[..|inputs| - 1]).value, inputs[|inputs| - 1]);
    }
  }

  lemma RunOne(check: Check, inputs: seq<Input>, s: State, i: Input)
    requires Run(check, inputs) == Some(s) && Enabled(s, i)
    ensures Inv(s) && Run(check, inputs + [i]) == Some(Step(check, s, i))
  {
    assert (inputs + [i])[..|inputs|] == inputs;
  }

  lemma ImagesOfTwo(a: nat, b: nat)
    requires a != 0 && b != 0
    ensures Images([a]) == [a] && Images([a, b]) == [a, b]
  {
    assert [a][..0] == [] && [a, b][..1] == [a];
  }

  lemma NextFrame(check: Check, s: State, a: nat)
    requires Inv(s) && !s.overrun && s.phase.Running? && s.captureIdx > 0 && s.displayIdx + 1 < |s.frames|
    requires a != 0 && s.frames[s.displayIdx] == [a]
    ensures Step(check, s, Vsync([a])) == s.(displayIdx := s.displayIdx + 1)
  {
    ImagesOfTwo(a, a);
  }

  /** The calibration images a and b, a frame with image x, and one with y on top of it. */
  function TwoFrames(a: nat, b: nat, x: nat, y: nat): (frames: seq<Frame>) {
    [[a], [b], [x], [x, y]]
  }

  /** The inputs until the test runs and its first capture has passed the quick check. */
  function UntilFirstCapture(a: nat, b: nat, x: nat, y: nat, buffer: nat): (inputs: seq<Input>) {
    [StartTest(a, b), ApplyConfig([x]), ApplyConfig([x, y]), Ready, FrameAvailable(buffer, true, true)]
  }

  function AfterFirstCapture(frames: seq<Frame>, buffer: nat): (s: State) {
    State(Running, frames, 0, 1, 0, Unknown, [], multiset{buffer}, multiset{buffer}, false)
  }

  lemma FirstCapture(check: Check, a: nat, b: nat, x: nat, y: nat, buffer: nat)
    requires buffer < MAX_FRAMES
    ensures Run(check, UntilFirstCapture(a, b, x, y, buffer)) ==
            Some(AfterFirstCapture(TwoFrames(a, b, x, y), buffer))
  {
    var i1, i2, i3, i4 := StartTest(a, b), ApplyConfig([x]), ApplyConfig([x, y]), Ready;
    var i5 := FrameAvailable(buffer, true, true);
    var s1 := INITIAL.(frames := [[a], [b]]);
    var s2 := s1.(frames := [[a], [b], [x]]);
    var s3 := s1.(frames := TwoFrames(a, b, x, y));
    assert s1.frames + [[x]] == s2.frames && s2.frames + [[x, y]] == s3.frames;
    assert multiset{} + multiset{buffer} == multiset{buffer};
    RunOne(check, [], INITIAL, i1);
    RunOne(check, [] + [i1], s1, i2);
    RunOne(check, [] + [i1] + [i2], s2, i3);
    RunOne(check, [] + [i1] + [i2] + [i3], s3, i4);
    RunOne(check, [] + [i1] + [i2] + [i3] + [i4], s3.(phase := Running), i5);
    assert [] + [i1] + [i2] + [i3] + [i4] + [i5] == UntilFirstCapture(a, b, x, y, buffer);
  }

  lemma FourthVsyncOverruns(check: Check, inputs: seq<Input>, s: State, a: nat, b: nat, x: nat, y: nat)
    requires Run(check, inputs) == Some(s) && !s.overrun && s.phase.Running? && s.captureIdx > 0 && s.displayIdx == 0
    requires s.frames == TwoFrames(a, b, x, y) && a != 0 && b != 0 && x != 0 && y != 0
    ensures var r := Run(check, inputs + [Vsync([a])] + [Vsync([b])] + [Vsync([x])] + [Vsync([x])]);
            r.Some? && r.value.overrun
  {
    var i1, i2, i3 := Vsync([a]), Vsync([b]), Vsync([x]);
    var s1, s2, s3 := s.(displayIdx := 1), s.(displayIdx := 2), s.(displayIdx := 3);
    NextFrame(check, s, a);
    RunOne(check, inputs, s, i1);
    NextFrame(check, s1, b);
    RunOne(check, inputs + [i1], s1, i2);
    NextFrame(check, s2, x);
    RunOne(check, inputs + [i1] + [i2], s2, i3);
    RunOne(check, inputs + [i1] + [i2] + [i3], s3, i3);
    ImagesOfTwo(x, y);
    StepOverruns(check, s3, i3);
  }

  /**
   A run in which this happens: the second frame adds a layer to the first, and a vsync still shows
   the first.
   */
  lemma LateVsyncOverruns(check: Check, a: nat, b: nat, x: nat, y: nat, buffer: nat)
    requires a != 0 && b != 0 && x != 0 && y != 0 && buffer < MAX_FRAMES
    ensures var r := Run(check, UntilFirstCapture(a, b, x, y, buffer)
                                + [Vsync([a])] + [Vsync([b])] + [Vsync([x])] + [Vsync([x])]);
            r.Some? && r.value.overrun
  {
    FirstCapture(check, a, b, x, y, buffer);
    FourthVsyncOverruns(check, UntilFirstCapture(a, b, x, y, buffer),
                        AfterFirstCapture(TwoFrames(a, b, x, y), buffer), a, b, x, y);
  }

  /** And the shorter one: a test that adds no frames. */
  lemma EmptyTestOverruns(check: Check, a: nat, b: nat)
    ensures Run(check, [StartTest(a, b), Ready]).Some? && Run(check, [StartTest(a, b), Ready]).value.overrun
  {
    RunOne(check, [], INITIAL, StartTest(a, b));
    RunOne(check, [] + [StartTest(a, b)], INITIAL.(frames := [[a], [b]]), Ready);
    assert [] + [StartTest(a, b)] + [Ready] == [StartTest(a, b), Ready];
  }

  // ----- the object -----

  datatype Shown = Same | Differs | PastEnd

  lemma {:induction false} ImagesOfPrefix(frame: Frame, k: nat)
    requires k <= |frame|
    ensures Images(frame[..k]) <= Images(frame)
    decreases |frame|
  {
    if k < |frame| {
      ImagesOfPrefix(frame[..|frame| - 1], k);
      assert frame[..|frame| - 1][..k] == frame[..k];
    } else {
      assert frame[..k] == frame;
    }
  }

  class Runner {
    /** CheckFrame without the quick flag, for a frame and a retained buffer. */
    const check: Check
    var testRunning: bool
    var frames: seq<Frame>
    var displayIdx: nat
    var captureIdx: nat
    var badCaptures: nat
    var status: Status
    var bufferIds: seq<nat>
    ghost var finished: bool
    ghost var delivered: multiset<nat>
    var released: multiset<nat>
    /** A vector was read past its end. */
    var overrun: bool

    ghost function View(): (s: State)
      reads this
    {
      State(if testRunning then Running else if finished then Finished else Configuring,
            frames, displayIdx, captureIdx, badCaptures, status, bufferIds, delivered, released, overrun)
    }

    constructor (check: Check)
      ensures View() == INITIAL && this.check == check
    {
      this.check := check;
      testRunning, frames, displayIdx, captureIdx, badCaptures, status := false, [], 0, 0, 0, Unknown;
      bufferIds, released, finished, delivered, overrun := [], multiset{}, false, multiset{}, false;
    }

    method FinishTest(s: Status)
      modifies this
      ensures View() == Finish(old(View()), s)
    {
      status := s;
      testRunning, finished := false, true;
    }

    method ReleaseFrame(buffer: nat)
      modifies this`released
      ensures released == old(released) + multiset{buffer}
    {
      released := released + multiset{buffer};
    }

    /** The loop over the layers of a frame; it stops where it would read past the images shown. */
    method ShowsFrame(frame: Frame, images: seq<nat>) returns (shown: Shown)
      ensures shown.Same? <==> Images(frame) <= images
      ensures shown.PastEnd? <==> images < Images(frame)
    {
      var imageIdx := 0;
      for i := 0 to |frame|
        invariant imageIdx == |Images(frame[..i])| && Images(frame[..i]) <= images
      {
        TakeOneMore(frame, i);
        ImagesOfPrefix(frame, i + 1);
        assert frame[..i + 1][..i] == frame[..i];
        if frame[i] != 0 {
          if imageIdx == |images| {
            return PastEnd;
          }
          if images[imageIdx] != frame[i] {
            return Differs;
          }
          imageIdx := imageIdx + 1;
        }
      }
      assert frame[..|frame|] == frame;
      return Same;
    }

    method OnResourceReady()
      requires !testRunning && !finished
      modifies this
      ensures View() == OnReady(old(View()))
    {
      if |frames| <= 2 {
        overrun := true;
        return;
      }
      testRunning := true;
    }

    method OnVsyncEvent(images: seq<nat>)
      requires testRunning ==> displayIdx < |frames|
      modifies this
      ensures View() == OnVsync(old(View()), images)
    {
      if !testRunning || images == [] {
        return;
      }
      var shown := ShowsFrame(frames[displayIdx], images);
      if shown.PastEnd? {
        overrun := true;
        return;
      }
      if shown.Differs? {
        if displayIdx != 0 {
          FinishTest(VsyncFail);
        }
        return;
      }
      if captureIdx > 0 {
        if displayIdx + 1 < |frames| {
          displayIdx := displayIdx + 1;
        }
      }
    }

    /** The loop after the last capture: every retained buffer against its frame, in range throughout. */
    method CheckRetained()
      requires |bufferIds| + 2 == |frames|
      modifies this
      ensures View() == Finish(old(View()), if AllMatch(check, old(bufferIds)) then Ok else CaptureMismatch)
    {
      for i := 2 to |frames|
        invariant unchanged(this)
        invariant forall k :: 0 <= k < i - 2 ==> check(k + 2, bufferIds[k])
      {
        if !check(i, bufferIds[i - 2]) {
          FinishTest(CaptureMismatch);
          return;
        }
      }
      FinishTest(Ok);
    }

    method FrameNotifyCallback(buffer: nat, ok: bool, calibrated: bool)
      requires Enabled(View(), FrameAvailable(buffer, ok, calibrated)) && |bufferIds| == Past(captureIdx)
      modifies this
      ensures View() == OnFrame(check, old(View()), buffer, ok, calibrated)
    {
      delivered := delivered + multiset{buffer};
      if testRunning {
        if !ok {
          badCaptures := badCaptures + 1;
        } else if captureIdx < 2 {
          if calibrated {
            captureIdx := captureIdx + 1;
          }
        } else {
          RetainFrame(buffer);
          return;
        }
      }
      ReleaseFrame(buffer);
    }

    /** A frame past calibration is kept for the comparison after the last one. */
    method RetainFrame(buffer: nat)
      requires testRunning && captureIdx >= 2 && |bufferIds| + 2 == captureIdx
      modifies this
      ensures View() == Retained(check, old(View()), buffer)
    {
      bufferIds := bufferIds + [buffer];
      captureIdx := captureIdx + 1;
      if captureIdx == |frames| {
        CheckRetained();
      }
    }

    /** The loop that gives the retained buffers back. */
    method ReleaseAll(ids: seq<nat>)
      modifies this`released
      ensures released == old(released) + multiset(ids)
    {
      ghost var back := multiset{};
      for i := 0 to |ids|
        invariant back == multiset(ids[..i]) && released == old(released) + back
      {
        ReleaseFrame(ids[i]);
        TakeOneMore(ids, i);
        back := back + multiset{ids[i]};
      }
      assert ids[..|ids|] == ids;
    }

    method CleanupTest() returns (r: Status)
      requires !testRunning
      modifies this
      ensures View() == Cleanup(old(View())) && r == old(status)
    {
      ReleaseAll(bufferIds);
      bufferIds, displayIdx, captureIdx, frames, finished := [], 0, 0, [], false;
      return status;
    }
  }
}

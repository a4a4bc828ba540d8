/** The application-facing controller object (usb_ds4_class): the input
    report being built, the last feedback report received and the touch
    point counter, with the operations that change them. */
module Gamepad {
  import opened ReportCodec
  import opened Endpoints

  class DS4 {
    var report: Report
    var feedback: Feedback
    var pointCtr: bv8

    /** The object lives in zeroed static storage; begin() does the real
        initialisation. */
    constructor ()
      ensures report == ZeroReport() && feedback == ZeroFeedback() && pointCtr == 0
    {
      report := ZeroReport();
      feedback := ZeroFeedback();
      pointCtr := 0;
    }

    /** begin(): the neutral report, a zeroed feedback block and the point
        counter at 0. */
    method Begin()
      modifies this
      ensures IsNeutral(report) && feedback == ZeroFeedback() && pointCtr == 0
    {
      report := ReportInit();
      feedback := ZeroFeedback();
      pointCtr := 0;
    }

    /** send(async): stamp the report with the sensor clock, hand it to the
        transport, and advance the frame counter only when the report went
        out. `sent` is what the transport returned; whether it waited for a
        free packet (async false) or not is the transport's business. */
    method Send(uptimeMs: nat, sent: int) returns (ok: bool)
      requires uptimeMs < 0x1_0000_0000
      modifies this
      ensures ok <==> SendReportResult(sent) == 0
      ensures report.sensorTimestamp == SensorTimestamp(uptimeMs)
      ensures report.buttons == if ok then CtrInc(old(report).buttons) else old(report).buttons
      ensures report == old(report).(sensorTimestamp := report.sensorTimestamp, buttons := report.buttons)
      ensures feedback == old(feedback) && pointCtr == old(pointCtr)
    {
      report := report.(sensorTimestamp := SensorTimestamp(uptimeMs));
      if SendReportResult(sent) == 0 {
        report := report.(buttons := CtrInc(report.buttons));
        return true;
      }
      return false;
    }

    /** update(): poll for a feedback report; the return code is dropped. */
    method Update(available: int, recvResult: int, received: seq<bv8>)
      requires available >= FeedbackSize && recvResult > 0 ==> |received| >= FeedbackSize
      modifies this
      ensures feedback == RecvFeedback(available, recvResult, received, old(feedback)).feedback
      ensures report == old(report) && pointCtr == old(pointCtr)
    {
      var polled := RecvFeedback(available, recvResult, received, feedback);
      feedback := polled.feedback;
    }

    method PressButton(buttonId: bv8)
      requires ButtonByte(buttonId) < 3
      modifies this
      ensures report == old(report).(buttons := BtnSet(old(report).buttons, buttonId))
      ensures feedback == old(feedback) && pointCtr == old(pointCtr)
    {
      report := report.(buttons := BtnSet(report.buttons, buttonId));
    }

    method ReleaseButton(buttonId: bv8)
      requires ButtonByte(buttonId) < 3
      modifies this
      ensures report == old(report).(buttons := BtnClr(old(report).buttons, buttonId))
      ensures feedback == old(feedback) && pointCtr == old(pointCtr)
    {
      report := report.(buttons := BtnClr(report.buttons, buttonId));
    }

    method ReleaseAllButton()
      modifies this
      ensures report == old(report).(buttons := BtnReset(old(report).buttons))
      ensures feedback == old(feedback) && pointCtr == old(pointCtr)
    {
      report := report.(buttons := BtnReset(report.buttons));
    }

    method PressDpad(pos: bv8)
      modifies this
      ensures report == old(report).(buttons := DpadSet(old(report).buttons, pos))
      ensures feedback == old(feedback) && pointCtr == old(pointCtr)
    {
      report := report.(buttons := DpadSet(report.buttons, pos));
    }

    method ReleaseDpad()
      modifies this
      ensures report.buttons[0] & 0x0f == DpadC
      ensures report == old(report).(buttons := DpadSet(old(report).buttons, DpadC))
      ensures feedback == old(feedback) && pointCtr == old(pointCtr)
    {
      report := report.(buttons := DpadSet(report.buttons, DpadC));
    }

    method SetLeftAnalog(x: bv8, y: bv8)
      modifies this
      ensures report == old(report).(analogLX := x, analogLY := y)
      ensures feedback == old(feedback) && pointCtr == old(pointCtr)
    {
      report := report.(analogLX := x, analogLY := y);
    }

    method SetRightAnalog(x: bv8, y: bv8)
      modifies this
      ensures report == old(report).(analogRX := x, analogRY := y)
      ensures feedback == old(feedback) && pointCtr == old(pointCtr)
    {
      report := report.(analogRX := x, analogRY := y);
    }

    /** setTouchPos1: update the first point of touch frame 0 and bump the
        frame's revision counter. */
    method SetTouchPos1(x: bv16, y: bv16)
      modifies this
      ensures var f := old(report).frames[0];
              report == old(report).(frames := old(report).frames[0 :=
                f.(seqNo := f.seqNo + 1, pos1 := TouchSet(f.pos1, pointCtr, x, y))])
      ensures feedback == old(feedback) && pointCtr == old(pointCtr)
    {
      var f := report.frames[0];
      f := f.(pos1 := TouchSet(f.pos1, pointCtr, x, y));
      f := f.(seqNo := f.seqNo + 1);
      report := report.(frames := report.frames[0 := f]);
    }

    /** setTouchPos2: the same for the second point. */
    method SetTouchPos2(x: bv16, y: bv16)
      modifies this
      ensures var f := old(report).frames[0];
              report == old(report).(frames := old(report).frames[0 :=
                f.(seqNo := f.seqNo + 1, pos2 := TouchSet(f.pos2, pointCtr, x, y))])
      ensures feedback == old(feedback) && pointCtr == old(pointCtr)
    {
      var f := report.frames[0];
      f := f.(pos2 := TouchSet(f.pos2, pointCtr, x, y));
      f := f.(seqNo := f.seqNo + 1);
      report := report.(frames := report.frames[0 := f]);
    }

    /** releaseTouchPos1: advance the point counter by the slot's state bit,
        apply the release macro to the point, bump the revision counter. */
    method ReleaseTouchPos1()
      modifies this
      ensures var f := old(report).frames[0];
              && pointCtr == CounterAfterRelease(f.pos1, old(pointCtr))
              && report == old(report).(frames := old(report).frames[0 :=
                   f.(seqNo := f.seqNo + 1, pos1 := TouchRelease(f.pos1))])
      ensures feedback == old(feedback)
    {
      var f := report.frames[0];
      pointCtr := pointCtr + TouchState(f.pos1) as bv8;
      f := f.(pos1 := TouchRelease(f.pos1));
      f := f.(seqNo := f.seqNo + 1);
      report := report.(frames := report.frames[0 := f]);
    }

    /** releaseTouchPos2: the same for the second point. */
    method ReleaseTouchPos2()
      modifies this
      ensures var f := old(report).frames[0];
              && pointCtr == CounterAfterRelease(f.pos2, old(pointCtr))
              && report == old(report).(frames := old(report).frames[0 :=
                   f.(seqNo := f.seqNo + 1, pos2 := TouchRelease(f.pos2))])
      ensures feedback == old(feedback)
    {
      var f := report.frames[0];
      pointCtr := pointCtr + TouchState(f.pos2) as bv8;
      f := f.(pos2 := TouchRelease(f.pos2));
      f := f.(seqNo := f.seqNo + 1);
      report := report.(frames := report.frames[0 := f]);
    }

    /** releaseTouchAll: release both points, then advance the point counter
        once more whatever the slots' states were. */
    method ReleaseTouchAll()
      modifies this
      ensures var f := old(report).frames[0];
              && pointCtr == CounterAfterRelease(f.pos2, CounterAfterRelease(f.pos1, old(pointCtr))) + 1
              && report == old(report).(frames := old(report).frames[0 :=
                   TouchFrame(f.seqNo + 1, TouchRelease(f.pos1), TouchRelease(f.pos2))])
      ensures feedback == old(feedback)
    {
      var f := report.frames[0];
      pointCtr := pointCtr + TouchState(f.pos1) as bv8;
      f := f.(pos1 := TouchRelease(f.pos1));
      pointCtr := pointCtr + TouchState(f.pos2) as bv8;
      f := f.(pos2 := TouchRelease(f.pos2));
      pointCtr := pointCtr + 1;
      f := f.(seqNo := f.seqNo + 1);
      report := report.(frames := report.frames[0 := f]);
    }
  }

  // ------------------------------------------------ frame counter over sends

  /** The button bytes after a run of send() calls whose transport results
      are `results`, in order. */
  function ButtonsAfterSends(buttons: Byte3, results: seq<int>): Byte3
    decreases |results|
  {
    if results == [] then buttons
    else
      var next := if SendReportResult(results[0]) == 0 then CtrInc(buttons) else buttons;
      ButtonsAfterSends(next, results[1..])
  }

  /** The number of those sends that succeeded. */
  function Successes(results: seq<int>): nat
    decreases |results|
  {
    if results == [] then 0
    else (if SendReportResult(results[0]) == 0 then 1 else 0) + Successes(results[1..])
  }

  /** The frame counter counts successful sends modulo 64, and no send
      touches the button bits. */
  lemma {:induction false} FrameCounterCountsSuccesses(buttons: Byte3, results: seq<int>)
    ensures FrameCounter(ButtonsAfterSends(buttons, results)[2])
            == (FrameCounter(buttons[2]) + Successes(results)) % 64
    ensures ButtonsAfterSends(buttons, results)[2] & 0x03 == buttons[2] & 0x03
    ensures ButtonsAfterSends(buttons, results)[0] == buttons[0]
    ensures ButtonsAfterSends(buttons, results)[1] == buttons[1]
    decreases |results|
  {
    if results != [] {
      var next := if SendReportResult(results[0]) == 0 then CtrInc(buttons) else buttons;
      FrameCounterCountsSuccesses(next, results[1..]);
      if SendReportResult(results[0]) == 0 {
        WrapThenAdd(FrameCounter(buttons[2]) + 1, Successes(results[1..]));
      }
    }
  }

  /** Reducing modulo 64 before adding does not change the sum modulo 64. */
  lemma WrapThenAdd(a: nat, n: nat)
    ensures (a % 64 + n) % 64 == (a + n) % 64
  {
    var q := a / 64;
    assert a == q * 64 + a % 64;
  }

  /** A client's view of the touch slot after begin(): touch, release and
      touch again. The release leaves the slot reading as touching, so the
      second touch keeps track id 0 although the point counter moved to 1. */
  method TouchAfterRelease(pad: DS4, x: bv16, y: bv16)
    modifies pad
    ensures TouchState(pad.report.frames[0].pos1) == 1
    ensures TouchId(pad.report.frames[0].pos1) == 0
    ensures pad.pointCtr == 1
  {
    pad.Begin();
    pad.SetTouchPos1(x, y);
    pad.ReleaseTouchPos1();
    pad.SetTouchPos1(x, y);
  }
}

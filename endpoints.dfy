/** What the firmware makes of the transport's answers when it sends an
    input report (usb_ds4_send_report) and when it polls for a feedback
    report (usb_ds4_recv_feedback). The transport calls themselves
    (usb_ds4_send, usb_ds4_recv, usb_ds4_available) poll the USB stack with
    timeouts; here their results are parameters. */
module Endpoints {

  /** Bytes in an input report. */
  const ReportSize: int := 64
  /** Bytes in the feedback block (sizeof(ds4_feedback_t)): tag, flags, two
      padding bytes, two rumble bytes, three LED colour bytes, two flash
      times and 20 padding bytes. */
  const FeedbackSize: nat := 31
  /** The report id a feedback report must carry. */
  const FeedbackTag: bv8 := 0x05

  /** The feedback block: tag, flags, rumble, LED colour and flash times,
      kept as opaque bytes. */
  type Feedback = f: seq<bv8> | |f| == FeedbackSize witness seq(31, _ => 0 as bv8)

  function ZeroFeedback(): (f: Feedback)
    ensures forall i :: 0 <= i < |f| ==> f[i] == 0
  {
    seq(FeedbackSize, _ => 0)
  }

  /** usb_ds4_send_report: the transport's result (bytes queued, 0 when no
      packet could be had in time, -1 when the device is not configured)
      mapped to 0 for success, -1 for "not configured", 1 otherwise. */
  function SendReportResult(sent: int): (rc: int)
    ensures rc == 0 <==> sent == ReportSize
    ensures rc == -1 <==> sent == -1
    ensures rc == 1 <==> sent != ReportSize && sent != -1
  {
    if sent == ReportSize then 0
    else if sent == -1 then -1
    else 1
  }

  /** The outcome of a feedback poll: the return code and the feedback block
      after it. */
  datatype Polled = Polled(rc: int, feedback: Feedback)

  /** A feedback report was taken: a whole report was waiting, the receive
      delivered a packet and the packet carries report id 5. */
  predicate Accepted(available: int, recvResult: int, received: seq<bv8>)
  {
    available >= FeedbackSize && recvResult > 0 && |received| > 0 && received[0] == FeedbackTag
  }

  /** usb_ds4_recv_feedback. `available` is the byte count the endpoint
      reports, `recvResult` what the receive returned (a positive byte count,
      0 on timeout, -1 when not configured) and `received` the packet it
      delivered. The receive is attempted only when a whole feedback report
      is waiting. */
  function RecvFeedback(available: int, recvResult: int, received: seq<bv8>, feedback: Feedback): (o: Polled)
    requires available >= FeedbackSize && recvResult > 0 ==> |received| >= FeedbackSize
    ensures o.rc == 0 || o.rc == 1
    // an accepted packet replaces the block verbatim
    ensures Accepted(available, recvResult, received) ==> o == Polled(0, received[..FeedbackSize])
    ensures !Accepted(available, recvResult, received) ==> o.feedback == feedback
    // failures: an unknown report id, a receive timeout, a partial report waiting
    ensures o.rc == 1 <==>
      || (available >= FeedbackSize && recvResult > 0 && received[0] != FeedbackTag)
      || (available >= FeedbackSize && recvResult == 0)
      || (0 < available < FeedbackSize)
  {
    if available >= FeedbackSize then
      if recvResult > 0 then
        if received[0] == FeedbackTag then Polled(0, received[..FeedbackSize])
        else Polled(1, feedback)
      else if recvResult == 0 then Polled(1, feedback)
      else Polled(0, feedback)
    else if available > 0 then Polled(1, feedback)
    else Polled(0, feedback)
  }

  /** A poll either leaves the block alone or installs one tagged 0x05, so
      once the block carries that tag it keeps carrying it. */
  lemma FeedbackKeepsTag(available: int, recvResult: int, received: seq<bv8>, feedback: Feedback)
    requires available >= FeedbackSize && recvResult > 0 ==> |received| >= FeedbackSize
    ensures var o := RecvFeedback(available, recvResult, received, feedback);
            o.feedback == feedback || o.feedback[0] == FeedbackTag
  {
  }

  /** A device that is not configured (receive result -1) reports success
      although nothing was received, whenever the receive is attempted (31
      bytes or more waiting); only a partial report waiting reports 1. */
  lemma UnconfiguredReadsAsSuccess(available: int, received: seq<bv8>, feedback: Feedback)
    ensures RecvFeedback(available, -1, received, feedback).feedback == feedback
    ensures RecvFeedback(available, -1, received, feedback).rc == 0 <==> !(0 < available < FeedbackSize)
  {
  }

  /** Exactly sizeof(ds4_feedback_t) = 31 waiting bytes are enough: a packet
      tagged 0x05 is then taken, and its first 31 bytes become the block. */
  lemma WholeReportAtThirtyOne(received: seq<bv8>, feedback: Feedback)
    requires |received| >= FeedbackSize && received[0] == FeedbackTag
    ensures RecvFeedback(31, |received|, received, feedback) == Polled(0, received[..31])
    ensures RecvFeedback(30, |received|, received, feedback) == Polled(1, feedback)
  {
  }
}

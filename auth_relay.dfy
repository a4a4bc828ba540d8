/** The authentication relay between a PS4 host and the application.

    The host writes challenge pages with HID SET_REPORT(Feature 0xf0) and polls
    for response pages with GET_REPORT(Feature 0xf2, 0xf1); the application
    takes each challenge page, computes the response elsewhere and leaves it
    in the same 64-byte feature buffer. The relay never looks inside a page
    beyond its tag, sequence number and page index.

    The selectors are the setup packet's wValue: report type 3 (Feature) in
    the high byte and the report id in the low byte, as section 7.2.1 of the
    USB HID Device Class Definition 1.11 lays them out.

    AuthState and the functions over it say what each step does to the
    relay's state; class Relay holds that state as the firmware does (a
    sequence byte, four flags and one shared byte buffer) and each of its
    methods is proved to perform the matching step. Every step is one atomic
    action: the firmware runs the host handlers in the USB interrupt and asks
    the application to call its side inside a critical section. */
module AuthRelay {

  /** A challenge or response page: type tag, sequence number, page index,
      a reserved byte, 56 payload bytes and a 4-byte crc32 field. */
  type Block = b: seq<bv8> | |b| == 64 witness seq(64, _ => 0 as bv8)

  const AuthBlockSize: nat := 64
  const StatusBlockSize: nat := 16

  // Feature-report selectors (wValue).
  const SetChallenge: bv16 := 0x03f0
  const GetChallengeResponse: bv16 := 0x03f1
  const ChallengeResponseAvailable: bv16 := 0x03f2
  const GetHwConfig: bv16 := 0x0303
  const ResetAuth: bv16 := 0x03f3

  const ChallengeTag: bv8 := 0xf0
  const StatusTag: bv8 := 0xf2
  const StatusReady: bv8 := 0x00
  const StatusNotReady: bv8 := 0x10
  /** Response pages with an index below this one leave more to come. */
  const LastPage: bv8 := 0x12

  /** The fixed hardware-configuration reply (Feature 0x03), 48 bytes. */
  const HwConfig: seq<bv8> := [
    0x03, 0x21, 0x27, 0x04, 0x4d, 0x00, 0x2c, 0x56,
    0x00, 0x00, 0x00, 0x00, 0x00, 0x00, 0x00, 0x00,
    0x00, 0x00, 0x0d, 0x0d, 0x00, 0x00, 0x00, 0x00,
    0x00, 0x00, 0x00, 0x00, 0x00, 0x00, 0x00, 0x00,
    0x00, 0x00, 0x00, 0x00, 0x00, 0x00, 0x00, 0x00,
    0x00, 0x00, 0x00, 0x00, 0x00, 0x00, 0x00, 0x00]

  /** The fixed reply to the host's request to reset the security chip
      (Feature 0xf3), 8 bytes. */
  const ResetAck: seq<bv8> := [0xf3, 0x00, 0x38, 0x38, 0x00, 0x00, 0x00, 0x00]

  /** n zero bytes. */
  function Zeros(n: nat): (z: seq<bv8>)
    ensures |z| == n
    ensures forall i :: 0 <= i < n ==> z[i] == 0
  {
    seq(n, _ => 0)
  }

  /** The relay's state: the tracked sequence number, the four flags and the
      feature buffer shared by the last challenge and the pending response. */
  datatype AuthState = AuthState(
    authSeq: bv8,
    challengeAvailable: bool,   // a challenge page waits for the application
    challengeSent: bool,        // the host has polled since the application last looked
    responseAvailable: bool,    // the application may produce the next response page
    responseBuffered: bool,     // a response page waits in the buffer for the host
    buffer: Block)

  /** The state the firmware starts in: static storage is zero. */
  function Initial(): (s: AuthState)
    ensures !s.challengeAvailable && !s.challengeSent && !s.responseAvailable && !s.responseBuffered
    ensures Consistent(s)
    ensures s.authSeq == 0 && s.buffer == Zeros(64)
  {
    AuthState(0, false, false, false, false, Zeros(64))
  }

  /** A page is never both waiting for the host and open for the
      application to produce. */
  predicate Consistent(s: AuthState)
  {
    !(s.responseBuffered && s.responseAvailable)
  }

  /** usb_ds4_auth_state_init: sequence 0 and every flag down; the buffer is
      left as it is. */
  function Reset(s: AuthState): (r: AuthState)
    ensures r.authSeq == 0 && r.buffer == s.buffer
    ensures !r.challengeAvailable && !r.challengeSent && !r.responseAvailable && !r.responseBuffered
  {
    s.(authSeq := 0, challengeAvailable := false, challengeSent := false,
       responseAvailable := false, responseBuffered := false)
  }

  /** What a GET_REPORT handler answers: nothing (the request is left to the
      USB stack's default handling), or the bytes written to the reply
      buffer, whose count is the reply length. */
  datatype Reply = Unhandled | Handled(bytes: seq<bv8>)

  /** The 16-byte status block: tag 0xf2, the sequence number, the status,
      nine zero padding bytes and a zero crc32. */
  function StatusBlock(authSeq: bv8, status: bv8): (b: seq<bv8>)
    ensures |b| == StatusBlockSize
    ensures b[0] == StatusTag && b[1] == authSeq && b[2] == status
    ensures forall i :: 3 <= i < |b| ==> b[i] == 0
  {
    [StatusTag, authSeq, status] + Zeros(13)
  }

  /** usb_ds4_on_get_report: the reply and the state after it. */
  function GetReport(s: AuthState, wValue: bv16): (o: (Reply, AuthState))
    ensures o.0.Unhandled? <==>
      wValue !in {GetChallengeResponse, ChallengeResponseAvailable, GetHwConfig, ResetAuth}
    ensures o.0.Unhandled? ==> o.1 == s
    // getChallengeResponse: the buffered page, or 64 zero bytes when none is buffered
    ensures wValue == GetChallengeResponse ==>
      && o.0 == Handled(if s.responseBuffered then s.buffer else Zeros(64))
      && !o.1.responseBuffered && !o.1.challengeSent
      && o.1.responseAvailable == (o.0.bytes[2] < LastPage || s.responseAvailable)
      && o.1.authSeq == s.authSeq && o.1.challengeAvailable == s.challengeAvailable
      && o.1.buffer == s.buffer
    // challengeResponseAvailable: ready exactly when a page is buffered
    ensures wValue == ChallengeResponseAvailable ==>
      && o.0 == Handled(StatusBlock(s.authSeq, if s.responseBuffered then StatusReady else StatusNotReady))
      && o.1.challengeSent == !s.responseBuffered
      && o.1 == s.(challengeSent := o.1.challengeSent)
    // the fixed tables touch no state
    ensures wValue == GetHwConfig ==> o.0 == Handled(HwConfig) && o.1 == s
    ensures wValue == ResetAuth ==> o.0 == Handled(ResetAck) && o.1 == s
  {
    if wValue == GetChallengeResponse then
      var page := if s.responseBuffered then s.buffer else Zeros(64);
      var available := if page[2] < LastPage then true else s.responseAvailable;
      (Handled(page), s.(challengeSent := false, responseAvailable := available, responseBuffered := false))
    else if wValue == ChallengeResponseAvailable then
      var status := if s.responseBuffered then StatusReady else StatusNotReady;
      (Handled(StatusBlock(s.authSeq, status)), s.(challengeSent := !s.responseBuffered))
    else if wValue == GetHwConfig then
      (Handled(HwConfig), s)
    else if wValue == ResetAuth then
      (Handled(ResetAck), s)
    else
      (Unhandled, s)
  }

  /** A challenge write starts a new transaction when its sequence number
      differs from the tracked one or its page index is 0. */
  predicate StartsTransaction(s: AuthState, page: seq<bv8>)
    requires |page| >= 3
  {
    s.authSeq != page[1] || page[2] == 0
  }

  /** usb_ds4_on_set_report: the return code and the state after it. Only a
      64-byte setChallenge write carrying tag 0xf0 is accepted (return code
      0); anything else returns 1 and changes nothing. */
  function SetReport(s: AuthState, wValue: bv16, wLength: bv16, data: seq<bv8>): (o: (int, AuthState))
    requires wValue == SetChallenge && wLength == 64 ==> |data| >= 64
    ensures o.0 == 0 || o.0 == 1
    ensures o.0 == 0 <==> wValue == SetChallenge && wLength == 64 && data[0] == ChallengeTag
    ensures o.0 == 1 ==> o.1 == s
    // an accepted page is stored and announced, whatever was waiting in the buffer
    ensures o.0 == 0 ==> o.1.buffer == data[..64] && o.1.challengeAvailable
    // a new transaction clears every other flag and adopts the page's sequence number
    ensures o.0 == 0 && StartsTransaction(s, data) ==>
      && o.1.authSeq == data[1]
      && !o.1.challengeSent && !o.1.responseAvailable && !o.1.responseBuffered
    // otherwise only the buffer and the challenge flag change
    ensures o.0 == 0 && !StartsTransaction(s, data) ==>
      o.1 == s.(buffer := data[..64], challengeAvailable := true)
  {
    if wValue != SetChallenge || wLength != 64 || data[0] != ChallengeTag then
      (1, s)
    else
      var base := if StartsTransaction(s, data) then Reset(s).(authSeq := data[1]) else s;
      (0, base.(buffer := data[..64], challengeAvailable := true))
  }

  /** authGetChallenge: the buffer as the challenge page, and the challenge
      flag cleared. */
  function ConsumeChallenge(s: AuthState): (o: (Block, AuthState))
    ensures o.0 == s.buffer
    ensures !o.1.challengeAvailable && o.1 == s.(challengeAvailable := false)
  {
    (s.buffer, s.(challengeAvailable := false))
  }

  /** authChallengeSent: reports whether the host has polled since the last
      call, and lowers the flag. */
  function ConsumePoll(s: AuthState): (o: (bool, AuthState))
    ensures o.0 == s.challengeSent
    ensures !o.1.challengeSent && o.1 == s.(challengeSent := false)
  {
    if s.challengeSent then (true, s.(challengeSent := false)) else (false, s)
  }

  /** The application writing a response page through the pointer that
      authGetResponseBuffer hands out: the page replaces the buffer. */
  function WriteResponse(s: AuthState, page: Block): (r: AuthState)
    ensures r.buffer == page && r == s.(buffer := page)
  {
    s.(buffer := page)
  }

  /** authSetBufferedFlag: the page in the buffer is ready for the host, and
      no further page may be produced until the host has taken it. */
  function MarkBuffered(s: AuthState): (r: AuthState)
    ensures r.responseBuffered && !r.responseAvailable
    ensures r == s.(responseBuffered := true, responseAvailable := false)
  {
    s.(responseBuffered := true, responseAvailable := false)
  }

  // ------------------------------------------------------------ properties

  /** Every step keeps the relay consistent; Reset and MarkBuffered
      establish it outright. */
  lemma StepsKeepConsistent(s: AuthState, wValue: bv16, wLength: bv16, data: Block, page: Block)
    requires Consistent(s)
    ensures Consistent(Reset(s)) && Consistent(MarkBuffered(s))
    ensures Consistent(GetReport(s, wValue).1)
    ensures Consistent(SetReport(s, wValue, wLength, data).1)
    ensures Consistent(ConsumeChallenge(s).1) && Consistent(ConsumePoll(s).1)
    ensures Consistent(WriteResponse(s, page))
  {
  }

  /** In a consistent state, delivering a page leaves the application free to
      produce the next one exactly when the delivered page index is below
      0x12, whatever the flag was before. */
  lemma DeliveryDecidesAvailability(s: AuthState)
    requires Consistent(s)
    ensures GetReport(s, GetChallengeResponse).1.responseAvailable
            == (GetReport(s, GetChallengeResponse).0.bytes[2] < LastPage)
  {
  }

  /** A read of getChallengeResponse with nothing buffered is answered with
      zero filler, whose page index 0 reopens production, even after the
      final page of the transaction was delivered. */
  lemma UnsyncedReadReopens(s: AuthState)
    requires !s.responseBuffered
    ensures GetReport(s, GetChallengeResponse).0 == Handled(Zeros(64))
    ensures GetReport(s, GetChallengeResponse).1.responseAvailable
  {
  }

  /** The buffer is shared: a challenge page accepted while a response is
      buffered (same sequence, page index not 0) replaces the response, and
      the host's next response read is handed the challenge page. */
  lemma ChallengeOverwritesBufferedResponse(s: AuthState, data: Block)
    requires s.responseBuffered && data[0] == ChallengeTag
    requires !StartsTransaction(s, data)
    ensures var s1 := SetReport(s, SetChallenge, 64, data).1;
            s1.responseBuffered && GetReport(s1, GetChallengeResponse).0 == Handled(data)
  {
  }

  /** After a status poll, the application sees the poll exactly once: the
      first authChallengeSent reports it (if no page was buffered) and the
      next one reports nothing. */
  lemma PollSeenOnce(s: AuthState)
    ensures var s1 := GetReport(s, ChallengeResponseAvailable).1;
            && ConsumePoll(s1).0 == !s.responseBuffered
            && !ConsumePoll(ConsumePoll(s1).1).0
  {
  }

  // ------------------------------------------------ interleavings of steps

  /** One atomic step by the host or the application. The read-only calls
      (authChallengeAvailable, authResponseAvailable, authGetResponseBuffer)
      change nothing and are not events. */
  datatype Event =
    | HostGet(wValue: bv16)
    | HostSet(wValue: bv16, wLength: bv16, data: Block)
    | AppGetChallenge
    | AppChallengeSent
    | AppWriteResponse(page: Block)
    | AppSetBuffered

  function Step(s: AuthState, e: Event): AuthState
  {
    match e
    case HostGet(wValue) => GetReport(s, wValue).1
    case HostSet(wValue, wLength, data) => SetReport(s, wValue, wLength, data).1
    case AppGetChallenge => ConsumeChallenge(s).1
    case AppChallengeSent => ConsumePoll(s).1
    case AppWriteResponse(page) => WriteResponse(s, page)
    case AppSetBuffered => MarkBuffered(s)
  }

  /** The state after a run of events, in order. */
  function Run(s: AuthState, events: seq<Event>): AuthState
    decreases |events|
  {
    if events == [] then s else Run(Step(s, events[0]), events[1..])
  }

  /** The number of status polls (getReport 0xf2) in a run. */
  function Polls(events: seq<Event>): nat
    decreases |events|
  {
    if events == [] then 0
    else (if events[0] == HostGet(ChallengeResponseAvailable) then 1 else 0) + Polls(events[1..])
  }

  /** The number of authChallengeSent calls in a run that return true. */
  function PollsSeen(s: AuthState, events: seq<Event>): nat
    decreases |events|
  {
    if events == [] then 0
    else
      (if events[0] == AppChallengeSent && s.challengeSent then 1 else 0)
      + PollsSeen(Step(s, events[0]), events[1..])
  }

  /** However host and application steps interleave, the relay stays
      consistent. */
  lemma {:induction false} RunKeepsConsistent(s: AuthState, events: seq<Event>)
    requires Consistent(s)
    ensures Consistent(Run(s, events))
    decreases |events|
  {
    if events != [] {
      var e := events[0];
      match e {
        case HostGet(wValue) => StepsKeepConsistent(s, wValue, 0, s.buffer, s.buffer);
        case HostSet(wValue, wLength, data) => StepsKeepConsistent(s, wValue, wLength, data, data);
        case AppWriteResponse(page) => StepsKeepConsistent(s, 0, 0, page, page);
        case _ => StepsKeepConsistent(s, 0, 0, s.buffer, s.buffer);
      }
      RunKeepsConsistent(Step(s, e), events[1..]);
    }
  }

  /** authChallengeSent reports true at most once per status poll: over any
      run, the true answers plus a poll still pending at the end never
      exceed the polls plus one pending at the start. */
  lemma {:induction false} PollsSeenBounded(s: AuthState, events: seq<Event>)
    ensures PollsSeen(s, events) + (if Run(s, events).challengeSent then 1 else 0)
            <= Polls(events) + (if s.challengeSent then 1 else 0)
    decreases |events|
  {
    if events != [] {
      PollsSeenBounded(Step(s, events[0]), events[1..]);
    }
  }

  /** Starting from the initial state, the application never sees more polls
      than the host made. */
  lemma PollsSeenFromStart(events: seq<Event>)
    ensures PollsSeen(Initial(), events) <= Polls(events)
  {
    PollsSeenBounded(Initial(), events);
  }

  // ------------------------------------------------------------- scenarios

  /** A challenge page with sequence 5 and page index 1 is announced, handed
      to the application, and no longer announced afterwards. */
  lemma ChallengeHandedOnce(data: Block)
    requires data[0] == ChallengeTag && data[1] == 5 && data[2] == 1
    ensures var s1 := SetReport(Initial(), SetChallenge, 64, data).1;
            && !Initial().challengeAvailable
            && s1.challengeAvailable
            && ConsumeChallenge(s1).0 == data
            && !ConsumeChallenge(s1).1.challengeAvailable
  {
  }

  /** A response page is buffered and delivered: the host receives it, and
      the application may produce another exactly when its page index is
      below 0x12. */
  lemma ResponseDelivered(s: AuthState, page: Block)
    requires Consistent(s)
    ensures var s1 := MarkBuffered(WriteResponse(s, page));
            var (reply, s2) := GetReport(s1, GetChallengeResponse);
            && !s1.responseAvailable
            && reply == Handled(page)
            && !s2.responseBuffered
            && s2.responseAvailable == (page[2] < LastPage)
  {
  }

  /** A write with the tracked sequence number but page index 0 still
      resets the transaction. */
  lemma PageZeroResets(s: AuthState, data: Block)
    requires data[0] == ChallengeTag && data[1] == s.authSeq && data[2] == 0
    ensures var s1 := SetReport(s, SetChallenge, 64, data).1;
            && s1.challengeAvailable && s1.authSeq == s.authSeq
            && !s1.challengeSent && !s1.responseAvailable && !s1.responseBuffered
  {
  }

  // --------------------------------------------------- the firmware state

  /** The relay's static state in the firmware: _auth_seq, the four _auth_*
      flags and usb_ds4_feature_buffer. */
  class Relay {
    var authSeq: bv8
    var challengeAvailable: bool
    var challengeSent: bool
    var responseAvailable: bool
    var responseBuffered: bool
    const featureBuffer: array<bv8>

    ghost predicate Valid()
      reads this
    {
      featureBuffer.Length == AuthBlockSize && !(responseBuffered && responseAvailable)
    }

    /** The state as an AuthState value. */
    function State(): (s: AuthState)
      requires featureBuffer.Length == AuthBlockSize
      reads this, featureBuffer
    {
      AuthState(authSeq, challengeAvailable, challengeSent, responseAvailable, responseBuffered,
                featureBuffer[..])
    }

    /** Static storage starts zeroed. */
    constructor ()
      ensures Valid() && fresh(featureBuffer)
      ensures State() == Initial()
    {
      authSeq := 0;
      challengeAvailable := false;
      challengeSent := false;
      responseAvailable := false;
      responseBuffered := false;
      featureBuffer := new bv8[64](_ => 0);
    }

    /** usb_ds4_auth_state_init. */
    method StateInit()
      requires Valid()
      modifies this
      ensures Valid()
      ensures State() == Reset(old(State()))
    {
      authSeq := 0;
      challengeAvailable := false;
      challengeSent := false;
      responseAvailable := false;
      responseBuffered := false;
    }

    /** usb_ds4_on_get_report, writing into the 64-byte reply buffer `data`.
        The reply length is stored only when the request is handled, so the
        caller's previous length comes back unchanged otherwise. */
    method OnGetReport(wValue: bv16, data: array<bv8>, prevLen: nat) returns (rc: int, len: nat)
      requires Valid()
      requires data.Length == AuthBlockSize && data != featureBuffer
      modifies this, data
      ensures Valid()
      ensures State() == GetReport(old(State()), wValue).1
      ensures GetReport(old(State()), wValue).0.Unhandled? ==>
        rc == 1 && len == prevLen && data[..] == old(data[..])
      ensures GetReport(old(State()), wValue).0.Handled? ==>
        var bytes := GetReport(old(State()), wValue).0.bytes;
        && rc == 0 && len == |bytes| && len <= data.Length
        && data[..len] == bytes && data[len..] == old(data[len..])
    {
      ghost var s := State();
      if wValue == GetChallengeResponse {
        challengeSent := false;
        if responseBuffered {
          forall i | 0 <= i < 64 {
            data[i] := featureBuffer[i];
          }
        } else {
          forall i | 0 <= i < 64 {
            data[i] := 0;
          }
        }
        assert data[..] == GetReport(s, wValue).0.bytes;
        if data[2] < LastPage {
          responseAvailable := true;
        }
        responseBuffered := false;
        rc, len := 0, 64;
      } else if wValue == ChallengeResponseAvailable {
        challengeSent := true;
        data[0] := StatusTag;
        data[1] := authSeq;
        forall i | 3 <= i < 12 {
          data[i] := 0;
        }
        if !responseBuffered {
          data[2] := StatusNotReady;
        } else {
          data[2] := StatusReady;
          challengeSent := false;
        }
        forall i | 12 <= i < 16 {
          data[i] := 0;
        }
        rc, len := 0, 16;
        assert data[..len] == GetReport(s, wValue).0.bytes;
        assert data[len..] == old(data[len..]);
      } else if wValue == GetHwConfig {
        forall i | 0 <= i < 48 {
          data[i] := HwConfig[i];
        }
        rc, len := 0, 48;
        assert data[..len] == HwConfig;
        assert data[len..] == old(data[len..]);
      } else if wValue == ResetAuth {
        forall i | 0 <= i < 8 {
          data[i] := ResetAck[i];
        }
        rc, len := 0, 8;
        assert data[..len] == ResetAck;
        assert data[len..] == old(data[len..]);
      } else {
        rc, len := 1, prevLen;
      }
    }

    /** usb_ds4_on_set_report, reading the host's data stage from `data`. */
    method OnSetReport(wValue: bv16, wLength: bv16, data: array<bv8>) returns (rc: int)
      requires Valid()
      requires wValue == SetChallenge && wLength == 64 ==> data.Length >= 64
      requires data != featureBuffer
      modifies this, featureBuffer
      ensures Valid()
      ensures (rc, State()) == SetReport(old(State()), wValue, wLength, data[..])
    {
      if wValue == SetChallenge {
        if wLength != 64 {
          return 1;
        } else if data[0] != ChallengeTag {
          return 1;
        } else {
          if authSeq != data[1] || data[2] == 0 {
            StateInit();
            authSeq := data[1];
          }
          forall i | 0 <= i < 64 {
            featureBuffer[i] := data[i];
          }
          assert featureBuffer[..] == data[..64];
          challengeAvailable := true;
        }
        return 0;
      } else {
        return 1;
      }
    }

    /** authChallengeAvailable: is a challenge page waiting? */
    method AuthChallengeAvailable() returns (available: bool)
      requires Valid()
      ensures available == State().challengeAvailable
    {
      available := challengeAvailable;
    }

    /** authGetChallenge: the buffer itself (not a copy), with the challenge
        flag cleared. */
    method AuthGetChallenge() returns (challenge: array<bv8>)
      requires Valid()
      modifies this
      ensures Valid() && challenge == featureBuffer
      ensures (challenge[..], State()) == ConsumeChallenge(old(State()))
    {
      challengeAvailable := false;
      challenge := featureBuffer;
    }

    /** authChallengeSent: has the host polled since the last call? */
    method AuthChallengeSent() returns (sent: bool)
      requires Valid()
      modifies this
      ensures Valid()
      ensures (sent, State()) == ConsumePoll(old(State()))
    {
      if challengeSent {
        challengeSent := false;
        return true;
      } else {
        return false;
      }
    }

    /** authGetResponseBuffer: the same buffer, for the application to fill. */
    method AuthGetResponseBuffer() returns (response: array<bv8>)
      requires Valid()
      ensures response == featureBuffer && response.Length == AuthBlockSize
    {
      response := featureBuffer;
    }

    /** authSetBufferedFlag. */
    method AuthSetBufferedFlag()
      requires Valid()
      modifies this
      ensures Valid()
      ensures State() == MarkBuffered(old(State()))
    {
      responseBuffered := true;
      responseAvailable := false;
    }

    /** authResponseAvailable: may the application produce the next page? */
    method AuthResponseAvailable() returns (available: bool)
      requires Valid()
      ensures available == State().responseAvailable
    {
      available := responseAvailable;
    }
  }
}

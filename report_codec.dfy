/** The controller-state block a DualShock 4 sends on its interrupt IN
    endpoint, and the bit operations the firmware applies to it: the d-pad
    nibble, the button bitmap, the frame counter in the top six bits of the
    third button byte, the packed 32-bit touch points and the sensor clock.
    Every field keeps its C width as a bit-vector, so the wrap-around of the
    source's uint8_t, uint16_t and uint32_t arithmetic is the bit-vector's own. */
module ReportCodec {

  /** A fixed three-byte field (the button bitmap, the trailing padding). */
  type Byte3 = b: seq<bv8> | |b| == 3 witness [0, 0, 0]

  // D-pad direction codes, written into the low nibble of buttons[0].
  const DpadN: bv8 := 0
  const DpadNE: bv8 := 1
  const DpadE: bv8 := 2
  const DpadSE: bv8 := 3
  const DpadS: bv8 := 4
  const DpadSW: bv8 := 5
  const DpadW: bv8 := 6
  const DpadNW: bv8 := 7
  const DpadC: bv8 := 8

  // Button ids: the button is bit (id & 7) of byte ((id >> 3) & 3).
  const BtnSquare: bv8 := 4
  const BtnCross: bv8 := 5
  const BtnCircle: bv8 := 6
  const BtnTriangle: bv8 := 7
  const BtnL1: bv8 := 8
  const BtnR1: bv8 := 9
  const BtnL2: bv8 := 10
  const BtnR2: bv8 := 11
  const BtnShare: bv8 := 12
  const BtnOption: bv8 := 13
  const BtnL3: bv8 := 14
  const BtnR3: bv8 := 15
  const BtnPs: bv8 := 16
  const BtnTouch: bv8 := 17

  /** The "no extension attached" value of the extension-state byte. */
  const ExtNull: bv8 := 0x08

  /** Bit j of byte b is set. */
  predicate Bit(b: bv8, j: nat)
    requires j < 8
  {
    (b >> j) & 1 == 1
  }

  // ---------------------------------------------------------------- d-pad

  /** DS4_DPAD_SET: clear the low nibble of buttons[0], then or in the
      direction's low nibble. */
  function DpadSet(buttons: Byte3, dir: bv8): (r: Byte3)
    ensures r[0] & 0x0f == dir & 0x0f
    ensures r[0] & 0xf0 == buttons[0] & 0xf0
    ensures r[1] == buttons[1] && r[2] == buttons[2]
  {
    var cleared := buttons[0] ^ (buttons[0] & 0x0f);
    [cleared | (dir & 0x0f), buttons[1], buttons[2]]
  }

  /** Setting the same direction twice is the same as setting it once. */
  lemma DpadSetIdempotent(buttons: Byte3, dir: bv8)
    ensures DpadSet(DpadSet(buttons, dir), dir) == DpadSet(buttons, dir)
  {
  }

  // -------------------------------------------------------------- buttons

  /** The byte a button id addresses. Ids from 24 to 31 (and every id whose
      bits 3 and 4 are both set) address a fourth byte the bitmap does not
      have. */
  function ButtonByte(id: bv8): (k: nat)
    ensures k < 4
  {
    ((id >> 3) & 3) as nat
  }

  /** The bit within that byte. */
  function ButtonBit(id: bv8): (j: nat)
    ensures j < 8
  {
    (id & 7) as nat
  }

  /** DS4_BTN_SET: set exactly the button's bit. */
  function BtnSet(buttons: Byte3, id: bv8): (r: Byte3)
    requires ButtonByte(id) < 3
    ensures forall k, j :: 0 <= k < 3 && 0 <= j < 8 ==>
      Bit(r[k], j) == (Bit(buttons[k], j) || (k == ButtonByte(id) && j == ButtonBit(id)))
  {
    var k := ButtonByte(id);
    var r := buttons[k := buttons[k] | (1 as bv8 << ButtonBit(id))];
    forall k', j | 0 <= k' < 3 && 0 <= j < 8
      ensures Bit(r[k'], j) == (Bit(buttons[k'], j) || (k' == k && j == ButtonBit(id)))
    {
      if k' == k { OrBit(buttons[k], j, ButtonBit(id)); }
    }
    r
  }

  /** Or-ing in bit m sets bit m and no other. */
  lemma OrBit(b: bv8, j: nat, m: nat)
    requires j < 8 && m < 8
    ensures Bit(b | (1 << m), j) == (Bit(b, j) || j == m)
  {
  }

  /** DS4_BTN_CLR: clear exactly the button's bit. */
  function BtnClr(buttons: Byte3, id: bv8): (r: Byte3)
    requires ButtonByte(id) < 3
    ensures forall k, j :: 0 <= k < 3 && 0 <= j < 8 ==>
      Bit(r[k], j) == (Bit(buttons[k], j) && !(k == ButtonByte(id) && j == ButtonBit(id)))
  {
    var k := ButtonByte(id);
    buttons[k := buttons[k] & !(1 as bv8 << ButtonBit(id))]
  }

  /** DS4_BTN_RESET: clear every button bit, keep the d-pad nibble and the
      six frame-counter bits. */
  function BtnReset(buttons: Byte3): (r: Byte3)
    ensures r[0] & 0xf0 == 0 && r[0] & 0x0f == buttons[0] & 0x0f
    ensures r[1] == 0
    ensures r[2] & 0x03 == 0 && r[2] & 0xfc == buttons[2] & 0xfc
  {
    [buttons[0] ^ (buttons[0] & 0xf0),
     buttons[1] ^ (buttons[1] & 0xff),
     buttons[2] ^ (buttons[2] & 0x03)]
  }

  /** The ids the header names (square to touch-pad click) lie in the bitmap
      and never address the d-pad nibble or the frame counter. */
  lemma NamedButtonsSpareDpadAndCounter(buttons: Byte3, id: bv8)
    requires BtnSquare <= id <= BtnTouch
    ensures ButtonByte(id) < 3
    ensures BtnSet(buttons, id)[0] & 0x0f == buttons[0] & 0x0f
    ensures BtnSet(buttons, id)[2] & 0xfc == buttons[2] & 0xfc
    ensures BtnClr(buttons, id)[0] & 0x0f == buttons[0] & 0x0f
    ensures BtnClr(buttons, id)[2] & 0xfc == buttons[2] & 0xfc
  {
  }

  // -------------------------------------------------------- frame counter

  /** The frame counter: the top six bits of buttons[2]. */
  function FrameCounter(b2: bv8): (c: nat)
    ensures c < 64
  {
    (b2 >> 2) as nat
  }

  /** DS4_BTN_CTR_INC: buttons[2] += 4 in uint8_t arithmetic. */
  function CtrInc(buttons: Byte3): (r: Byte3)
    ensures FrameCounter(r[2]) == (FrameCounter(buttons[2]) + 1) % 64
    ensures r[2] & 0x03 == buttons[2] & 0x03
    ensures r[0] == buttons[0] && r[1] == buttons[1]
  {
    [buttons[0], buttons[1], buttons[2] + 4]
  }

  /** DS4_BTN_CTR_RESET: clear the six counter bits, keep the two button bits. */
  function CtrReset(buttons: Byte3): (r: Byte3)
    ensures FrameCounter(r[2]) == 0
    ensures r[2] & 0x03 == buttons[2] & 0x03
    ensures r[0] == buttons[0] && r[1] == buttons[1]
  {
    [buttons[0], buttons[1], buttons[2] ^ (buttons[2] & 0xfc)]
  }

  // --------------------------------------------------------- touch points

  /** A touch point unpacked: state (1 = touching), track id, x and y. */
  datatype TouchPoint = TouchPoint(touch: bv32, id: bv32, x: bv32, y: bv32)

  /** DS4_TOUCH_GET_STATE: bit 7 is an inverted "active" flag. */
  function TouchState(tp: bv32): (t: bv32)
    ensures t == 0 || t == 1
    ensures t == 1 <==> tp & 0x80 == 0
  {
    (!(tp >> 7)) & 1
  }

  /** DS4_TOUCH_GET_ID: the 7-bit track id in bits 0-6. */
  function TouchId(tp: bv32): (id: bv32)
    ensures id < 0x80
  {
    tp & 0x7f
  }

  /** DS4_TOUCH_GET_X: the 12-bit x coordinate in bits 8-19. */
  function TouchX(tp: bv32): (x: bv32)
    ensures x < 0x1000
  {
    (tp >> 8) & 0xfff
  }

  /** DS4_TOUCH_GET_Y: the 12-bit y coordinate in bits 20-31. */
  function TouchY(tp: bv32): (y: bv32)
    ensures y < 0x1000
  {
    (tp >> 20) & 0xfff
  }

  /** DS4_TOUCH_POS_PACK, format yyyyyyyyyyyyxxxxxxxxxxxxtiiiiiii. Every
      field is masked to its width, so unpacking gives back the masked inputs. */
  function TouchPack(touch: bv32, id: bv32, x: bv32, y: bv32): (tp: bv32)
    ensures TouchState(tp) == touch & 1
    ensures TouchId(tp) == id & 0x7f
    ensures TouchX(tp) == x & 0xfff
    ensures TouchY(tp) == y & 0xfff
  {
    ((y & 0xfff) << 20) | ((x & 0xfff) << 8) | (((!touch) & 1) << 7) | (id & 0x7f)
  }

  /** DS4_TOUCH_POS_UNPACK: the four fields, which pack back into the same word. */
  function TouchUnpack(tp: bv32): (p: TouchPoint)
    ensures p.touch < 2 && p.id < 0x80 && p.x < 0x1000 && p.y < 0x1000
    ensures TouchPack(p.touch, p.id, p.x, p.y) == tp
  {
    TouchPoint(TouchState(tp), TouchId(tp), TouchX(tp), TouchY(tp))
  }

  /** Unpacking a packed point gives back its fields when they are in range. */
  lemma TouchRoundTrip(touch: bv32, id: bv32, x: bv32, y: bv32)
    requires touch < 2 && id < 0x80 && x < 0x1000 && y < 0x1000
    ensures TouchUnpack(TouchPack(touch, id, x, y)) == TouchPoint(touch, id, x, y)
  {
  }

  /** DS4_TOUCH_RELEASE as written: it CLEARS bit 7, which is the inverted
      active flag, so the point it leaves reads as touching. */
  function TouchRelease(tp: bv32): (r: bv32)
    ensures TouchState(r) == 1
    ensures TouchId(r) == TouchId(tp) && TouchX(r) == TouchX(tp) && TouchY(r) == TouchY(tp)
  {
    tp & 0xffffff7f
  }

  /** The release the touch format calls for: SET bit 7, so the point reads
      as not touching. */
  function TouchReleaseIntended(tp: bv32): (r: bv32)
    ensures TouchState(r) == 0
    ensures TouchId(r) == TouchId(tp) && TouchX(r) == TouchX(tp) && TouchY(r) == TouchY(tp)
  {
    tp | 0x80
  }

  /** setTouchPos1/2 on one slot: keep the slot's track id while it reads as
      touching, otherwise take the id from the point counter; always store a
      touching point at the 12-bit-masked coordinates. */
  function TouchSet(tp: bv32, pointCtr: bv8, x: bv16, y: bv16): (r: bv32)
    ensures TouchState(r) == 1
    ensures TouchId(r) == if TouchState(tp) == 1 then TouchId(tp) else (pointCtr & 0x7f) as bv32
    ensures TouchX(r) == (x & 0xfff) as bv32 && TouchY(r) == (y & 0xfff) as bv32
  {
    var pointTmp := TouchId(tp) as bv8;
    var touch := TouchState(tp) as bv8;
    if touch != 0 then TouchPack(1, pointTmp as bv32, x as bv32, y as bv32)
    else TouchPack(1, pointCtr as bv32, x as bv32, y as bv32)
  }

  /** releaseTouchPos1/2 on the point counter: it advances by the slot's
      state bit, that is by one exactly when the slot read as touching. */
  function CounterAfterRelease(tp: bv32, pointCtr: bv8): (c: bv8)
    ensures c == if TouchState(tp) == 1 then pointCtr + 1 else pointCtr
  {
    pointCtr + TouchState(tp) as bv8
  }

  /** Moving a touch through a run of positions, as repeated setTouchPos calls
      with the point counter held fixed. */
  function TouchMoves(tp: bv32, pointCtr: bv8, moves: seq<(bv16, bv16)>): bv32
    decreases |moves|
  {
    if moves == [] then tp
    else TouchMoves(TouchSet(tp, pointCtr, moves[0].0, moves[0].1), pointCtr, moves[1..])
  }

  /** A slot that reads as touching keeps its track id, and keeps touching,
      across any run of position updates. */
  lemma {:induction false} TouchIdStableWhileTouching(tp: bv32, pointCtr: bv8, moves: seq<(bv16, bv16)>)
    requires TouchState(tp) == 1
    ensures TouchState(TouchMoves(tp, pointCtr, moves)) == 1
    ensures TouchId(TouchMoves(tp, pointCtr, moves)) == TouchId(tp)
    decreases |moves|
  {
    if moves != [] {
      TouchIdStableWhileTouching(TouchSet(tp, pointCtr, moves[0].0, moves[0].1), pointCtr, moves[1..]);
    }
  }

  /** As written, releasing a slot leaves it reading as touching, so the next
      position update keeps the old track id even though the point counter
      has moved on. */
  lemma ReleasedSlotStillTouching(tp: bv32, pointCtr: bv8, x: bv16, y: bv16)
    requires TouchState(tp) == 1
    ensures TouchState(TouchRelease(tp)) == 1
    ensures CounterAfterRelease(tp, pointCtr) == pointCtr + 1
    ensures TouchId(TouchSet(TouchRelease(tp), CounterAfterRelease(tp, pointCtr), x, y)) == TouchId(tp)
  {
  }

  /** A concrete instance: a point touching with id 5 while the counter is 6
      keeps id 5 through release and the next update, though the counter
      advanced to 7. */
  lemma ReleasedSlotKeepsIdExample()
    ensures TouchId(TouchSet(TouchRelease(TouchPack(1, 5, 100, 200)), 7, 300, 400)) == 5
    ensures CounterAfterRelease(TouchPack(1, 5, 100, 200), 6) == 7
  {
  }

  /** With the intended release, the slot reads as released and the next
      update takes a fresh track id from the advanced counter: the id the
      touch had when the counter stood at c is replaced by c + 1. */
  lemma IntendedReleaseReassignsId(c: bv8, x0: bv16, y0: bv16, x: bv16, y: bv16)
    ensures var first := TouchSet(TouchReleaseIntended(0), c, x0, y0);
            var ctr := CounterAfterRelease(first, c);
            var released := TouchReleaseIntended(first);
            && TouchId(first) == (c & 0x7f) as bv32
            && TouchState(released) == 0
            && ctr == c + 1
            && TouchId(TouchSet(released, ctr, x, y)) == ((c + 1) & 0x7f) as bv32
            && TouchId(TouchSet(released, ctr, x, y)) != TouchId(first)
  {
  }

  // --------------------------------------------------------- sensor clock

  /** DS4_GET_SENSOR_TS: (millis() * 150) & 0xffff, with the product taken in
      uint32_t. The 32-bit wrap of the product does not change the 16-bit
      timestamp. */
  function SensorTimestamp(uptimeMs: nat): (ts: bv16)
    requires uptimeMs < 0x1_0000_0000
    ensures ts == ((uptimeMs * 150) % 0x1_0000) as bv16
  {
    var scaled := uptimeMs * 150;
    var product := scaled % 0x1_0000_0000;
    ModOfWrap(scaled);
    (product % 0x1_0000) as bv16
  }

  /** Reducing modulo 2^32 first does not change the value modulo 2^16. */
  lemma ModOfWrap(a: nat)
    ensures (a % 0x1_0000_0000) % 0x1_0000 == a % 0x1_0000
  {
    var q := a / 0x1_0000_0000;
    var r := a % 0x1_0000_0000;
    assert a == q * 0x1_0000_0000 + r;
    assert q * 0x1_0000_0000 == (q * 0x1_0000) * 0x1_0000;
  }

  // --------------------------------------------------------------- report

  /** One touch frame: a revision counter and two packed touch points. */
  datatype TouchFrame = TouchFrame(seqNo: bv8, pos1: bv32, pos2: bv32)

  type Frames = f: seq<TouchFrame> | |f| == 3 witness [TouchFrame(0, 0, 0), TouchFrame(0, 0, 0), TouchFrame(0, 0, 0)]

  /** The 64-byte input report, field by field at its documented offsets.
      The signed 16-bit sensor fields are kept as their bit patterns. */
  datatype Report = Report(
    reportType: bv8,        // 0
    analogLX: bv8,          // 1
    analogLY: bv8,          // 2
    analogRX: bv8,          // 3
    analogRY: bv8,          // 4
    buttons: Byte3,         // 5-7
    triggerL: bv8,          // 8
    triggerR: bv8,          // 9
    sensorTimestamp: bv16,  // 10-11
    battery: bv8,           // 12
    u13: bv8,               // 13
    accelZ: bv16,           // 14-15
    accelY: bv16,           // 16-17
    accelX: bv16,           // 18-19
    gyroX: bv16,            // 20-21
    gyroY: bv16,            // 22-23
    gyroZ: bv16,            // 24-25
    u26: bv32,              // 26-29
    stateExt: bv8,          // 30
    u31: bv16,              // 31-32
    tpAvailableFrame: bv8,  // 33
    frames: Frames,         // 34-60
    padding: Byte3)         // 61-63

  /** The all-zero report that memset leaves. */
  function ZeroReport(): Report
  {
    Report(0, 0, 0, 0, 0, [0, 0, 0], 0, 0, 0, 0, 0, 0, 0, 0, 0, 0, 0, 0, 0, 0, 0,
           [TouchFrame(0, 0, 0), TouchFrame(0, 0, 0), TouchFrame(0, 0, 0)], [0, 0, 0])
  }

  /** The neutral image usb_ds4_report_init writes: input report 1, d-pad
      centred and no button pressed, both sticks at mid-scale, no extension,
      every touch point released at (0, 0) with id 0, battery byte 0xff, the
      gyroscope at its fixed bias and every other byte zero. */
  ghost predicate IsNeutral(r: Report)
  {
    && r.reportType == 0x01
    && r.analogLX == 0x80 && r.analogLY == 0x80 && r.analogRX == 0x80 && r.analogRY == 0x80
    && r.buttons == [DpadC, 0, 0]
    && r.triggerL == 0 && r.triggerR == 0 && r.sensorTimestamp == 0
    && r.battery == 0xff && r.u13 == 0
    && r.accelZ == 0 && r.accelY == 0 && r.accelX == 0
    && r.gyroX == 0xffe7 && r.gyroY == 0x206e && r.gyroZ == 0x09d9
    && r.u26 == 0 && r.stateExt == ExtNull && r.u31 == 0 && r.tpAvailableFrame == 0
    && (forall i :: 0 <= i < 3 ==>
          r.frames[i] == TouchFrame(0, TouchPack(0, 0, 0, 0), TouchPack(0, 0, 0, 0)))
    && r.padding == [0, 0, 0]
  }

  /** In the neutral image no touch slot reads as touching. */
  lemma NeutralSlotsReleased(r: Report, i: nat)
    requires IsNeutral(r) && i < 3
    ensures TouchState(r.frames[i].pos1) == 0 && TouchState(r.frames[i].pos2) == 0
  {
  }

  /** usb_ds4_report_init: clear the block, then write the neutral fields and
      release the two points of each of the three touch frames in turn. */
  method ReportInit() returns (r: Report)
    ensures IsNeutral(r)
  {
    r := ZeroReport();
    r := r.(reportType := 0x01);
    r := r.(buttons := DpadSet(r.buttons, DpadC));
    r := r.(analogLX := 0x80, analogLY := 0x80, analogRX := 0x80, analogRY := 0x80);
    r := r.(stateExt := ExtNull);
    var released := TouchPack(0, 0, 0, 0);
    var i := 0;
    while i < 3
      invariant 0 <= i <= 3
      invariant forall j :: 0 <= j < i ==> r.frames[j] == TouchFrame(0, released, released)
      invariant forall j :: i <= j < 3 ==> r.frames[j] == TouchFrame(0, 0, 0)
      invariant r.reportType == 0x01 && r.buttons == [DpadC, 0, 0] && r.stateExt == ExtNull
      invariant r.analogLX == 0x80 && r.analogLY == 0x80 && r.analogRX == 0x80 && r.analogRY == 0x80
      // the fields the loop does not write are still as memset left them
      invariant r.triggerL == 0 && r.triggerR == 0 && r.sensorTimestamp == 0
      invariant r.battery == 0 && r.u13 == 0 && r.accelZ == 0 && r.accelY == 0 && r.accelX == 0
      invariant r.gyroX == 0 && r.gyroY == 0 && r.gyroZ == 0
      invariant r.u26 == 0 && r.u31 == 0 && r.tpAvailableFrame == 0 && r.padding == [0, 0, 0]
    {
      r := r.(frames := r.frames[i := r.frames[i].(pos1 := released)]);
      r := r.(frames := r.frames[i := r.frames[i].(pos2 := released)]);
      i := i + 1;
    }
    r := r.(battery := 0xff);
    r := r.(gyroX := 0xffe7, gyroY := 0x206e, gyroZ := 0x09d9);
  }
}

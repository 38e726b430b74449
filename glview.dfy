/**
 * The frame hand-off of glview: a libfreenect capture thread delivers depth
 * and video frames through two callbacks, and the GLUT drawing thread claims
 * the latest of each.  All shared state lives in globals guarded by one
 * mutex, so every critical section below is one atomic step.
 *
 * Video uses three buffers: `rgbKinect` (being filled by the device),
 * `rgbCache` (latest complete frame) and `rgbActive` (being drawn).  Depth
 * uses two: `depthMid` (filled with the heat map by the callback) and
 * `depthActive` (being drawn).  A delivery or a draw only exchanges which
 * buffer holds which role; no frame is ever copied between buffers.
 */
module GLView {
  import opened Types
  import opened DepthHeatMap

  const ResolutionX := 640
  const ResolutionY := 480
  /** Depth samples per frame. */
  const FramePixels := ResolutionX * ResolutionY
  /** Bytes of one three-channel frame buffer. */
  const FrameBytes := 3 * FramePixels

  /** The libfreenect video formats. */
  datatype VideoFormat =
    | VideoRgb | VideoBayer | VideoIr8Bit | VideoIr10Bit | VideoIr10BitPacked | VideoYuvRgb | VideoYuvRaw

  // ---------------------------------------------------------------------
  // The hand-off state as a value, and one function per critical section.
  // ---------------------------------------------------------------------

  /** A frame buffer; only its identity (its address) matters to the hand-off. */
  type Buffer = array<Byte>

  datatype HandOff = HandOff(
    rgbKinect: Buffer, rgbCache: Buffer, rgbActive: Buffer,
    depthMid: Buffer, depthActive: Buffer,
    gotRgb: nat, gotDepth: nat,
    requested: VideoFormat, current: VideoFormat)

  /** No buffer holds two roles of its stream at once. */
  predicate Rotatable(h: HandOff) {
    && h.rgbKinect != h.rgbCache && h.rgbCache != h.rgbActive && h.rgbKinect != h.rgbActive
    && h.depthMid != h.depthActive
  }

  /** The video buffers, whatever roles they hold. */
  function VideoBuffers(h: HandOff): multiset<Buffer> {
    multiset{h.rgbKinect, h.rgbCache, h.rgbActive}
  }

  /** The depth buffers, whatever roles they hold. */
  function DepthBuffers(h: HandOff): multiset<Buffer> {
    multiset{h.depthMid, h.depthActive}
  }

  /** Buffers and roles of both streams are those of `h`, whatever the counters and formats. */
  predicate SameBuffers(h: HandOff, h': HandOff) {
    && h'.rgbKinect == h.rgbKinect && h'.rgbCache == h.rgbCache && h'.rgbActive == h.rgbActive
    && h'.depthMid == h.depthMid && h'.depthActive == h.depthActive
  }

  /**
   * The video callback: the frame just filled in `rgbKinect` becomes the
   * cached frame, and the old cached buffer (dropped if never drawn) is
   * handed back to the device.
   */
  function VideoArrived(h: HandOff): (h': HandOff)
    ensures VideoBuffers(h') == VideoBuffers(h) && DepthBuffers(h') == DepthBuffers(h)
    ensures Rotatable(h) ==> Rotatable(h')
    ensures h'.rgbCache == h.rgbKinect && h'.rgbActive == h.rgbActive
    ensures h'.gotRgb > 0
  {
    h.(rgbKinect := h.rgbCache, rgbCache := h.rgbKinect, gotRgb := h.gotRgb + 1)
  }

  /** The depth callback's effect on the shared state: one more pending frame. */
  function DepthArrived(h: HandOff): (h': HandOff)
    ensures SameBuffers(h, h') && h'.gotRgb == h.gotRgb && h'.gotDepth > 0
  {
    h.(gotDepth := h.gotDepth + 1)
  }

  /** The depth half of the draw's claim: a pending depth frame becomes the active one. */
  function ClaimDepth(h: HandOff): (h': HandOff)
    ensures DepthBuffers(h') == DepthBuffers(h) && h'.depthMid != h'.depthActive <== h.depthMid != h.depthActive
    ensures h'.rgbKinect == h.rgbKinect && h'.rgbCache == h.rgbCache && h'.rgbActive == h.rgbActive
    ensures h'.gotRgb == h.gotRgb && h'.gotDepth == 0 && h'.requested == h.requested && h'.current == h.current
    ensures h.gotDepth == 0 ==> h' == h
    ensures h.gotDepth != 0 ==> h'.depthActive == h.depthMid && h'.depthMid == h.depthActive
  {
    if h.gotDepth != 0 then h.(depthActive := h.depthMid, depthMid := h.depthActive, gotDepth := 0) else h
  }

  /** The video half of the draw's claim: a pending video frame becomes the active one. */
  function ClaimVideo(h: HandOff): (h': HandOff)
    ensures VideoBuffers(h') == VideoBuffers(h)
    ensures h'.depthMid == h.depthMid && h'.depthActive == h.depthActive && h'.rgbKinect == h.rgbKinect
    ensures h'.gotDepth == h.gotDepth && h'.gotRgb == 0 && h'.requested == h.requested && h'.current == h.current
    ensures h.gotRgb == 0 ==> h' == h
    ensures h.gotRgb != 0 ==> h'.rgbActive == h.rgbCache && h'.rgbCache == h.rgbActive
  {
    if h.gotRgb != 0 then h.(rgbActive := h.rgbCache, rgbCache := h.rgbActive, gotRgb := 0) else h
  }

  /**
   * The critical section of the draw: nothing changes while a format switch
   * is pending; otherwise each stream with a pending frame exchanges its
   * ready and active buffers and its counter drops to zero.
   */
  function Claim(h: HandOff): (h': HandOff)
    ensures VideoBuffers(h') == VideoBuffers(h) && DepthBuffers(h') == DepthBuffers(h)
    ensures Rotatable(h) ==> Rotatable(h')
    ensures h'.rgbKinect == h.rgbKinect
    ensures h.requested != h.current ==> h' == h
    ensures h.requested == h.current ==> h'.gotRgb == 0 && h'.gotDepth == 0
    ensures h.gotRgb == 0 ==> h'.rgbCache == h.rgbCache && h'.rgbActive == h.rgbActive
    ensures h.gotDepth == 0 ==> h'.depthMid == h.depthMid && h'.depthActive == h.depthActive
  {
    if h.requested != h.current then h else ClaimVideo(ClaimDepth(h))
  }

  /** The capture thread's format step: a pending request becomes the current format. */
  function FormatSwitched(h: HandOff): (h': HandOff)
    ensures SameBuffers(h, h') && h'.gotRgb == h.gotRgb && h'.gotDepth == h.gotDepth
    ensures h'.current == h'.requested == h.requested
  {
    h.(current := h.requested)
  }

  /**
   * The 'f' key's video format cycle: IR 8-bit, RGB, YUV-RGB, IR 8-bit;
   * any other format goes to IR 8-bit.
   */
  function NextFormat(f: VideoFormat): (g: VideoFormat)
    ensures g == VideoIr8Bit || g == VideoRgb || g == VideoYuvRgb
    ensures g != f
  {
    if f == VideoIr8Bit then VideoRgb
    else if f == VideoRgb then VideoYuvRgb
    else VideoIr8Bit
  }

  /** The key press that requests the next video format. */
  function FormatRequested(h: HandOff): (h': HandOff)
    ensures SameBuffers(h, h') && h'.gotRgb == h.gotRgb && h'.gotDepth == h.gotDepth
    ensures h'.current == h.current && h'.requested == NextFormat(h.requested)
  {
    h.(requested := NextFormat(h.requested))
  }

  /** Three presses of 'f' come back to the format of the cycle they started from. */
  lemma FormatCycle(f: VideoFormat)
    requires f == VideoIr8Bit || f == VideoRgb || f == VideoYuvRgb
    ensures NextFormat(NextFormat(NextFormat(f))) == f
  {
  }

  /**
   * The condition of the draw's wait loops, as written: in YUV-RGB mode wait
   * while neither stream has a frame; in the other modes wait while one of
   * them has none and a format switch is pending.
   */
  predicate DrawWaits(h: HandOff) {
    if h.current == VideoYuvRgb then h.gotDepth == 0 && h.gotRgb == 0
    else (h.gotDepth == 0 || h.gotRgb == 0) && h.requested != h.current
  }

  /**
   * What the wait loops guarantee: in YUV-RGB mode the draw goes on as soon
   * as either stream has a frame; in the other modes it never waits while
   * the formats agree, and it waits only in states where the critical
   * section then returns without claiming anything.
   */
  lemma WaitConditions(h: HandOff)
    ensures h.current == VideoYuvRgb ==> (!DrawWaits(h) <==> h.gotDepth > 0 || h.gotRgb > 0)
    ensures h.current != VideoYuvRgb && h.requested == h.current ==> !DrawWaits(h)
    ensures h.current != VideoYuvRgb && DrawWaits(h) ==> Claim(h) == h
  {
  }

  // ---------------------------------------------------------------------
  // Runs of critical sections.
  // ---------------------------------------------------------------------

  datatype Event = VideoFrame | DepthFrame | Draw | FormatStep | FormatKey

  function Step(h: HandOff, e: Event): HandOff {
    match e
    case VideoFrame => VideoArrived(h)
    case DepthFrame => DepthArrived(h)
    case Draw => Claim(h)
    case FormatStep => FormatSwitched(h)
    case FormatKey => FormatRequested(h)
  }

  /** The state after the critical sections `evs`, in order. */
  function Run(h: HandOff, evs: seq<Event>): HandOff
    decreases |evs|
  {
    if evs == [] then h else Run(Step(h, evs[0]), evs[1..])
  }

  /** One critical section keeps the buffers of both streams, each in exactly one role. */
  lemma StepKeepsBuffers(h: HandOff, e: Event)
    ensures VideoBuffers(Step(h, e)) == VideoBuffers(h)
    ensures DepthBuffers(Step(h, e)) == DepthBuffers(h)
    ensures Rotatable(h) ==> Rotatable(Step(h, e))
  {
    match e
    case VideoFrame =>
    case DepthFrame =>
    case Draw =>
    case FormatStep =>
    case FormatKey =>
  }

  /** Buffers are only ever rotated: the same buffers stay, each in exactly one role. */
  lemma {:induction false} RunKeepsBuffers(h: HandOff, evs: seq<Event>)
    ensures VideoBuffers(Run(h, evs)) == VideoBuffers(h)
    ensures DepthBuffers(Run(h, evs)) == DepthBuffers(h)
    ensures Rotatable(h) ==> Rotatable(Run(h, evs))
    decreases |evs|
  {
    if evs != [] {
      StepKeepsBuffers(h, evs[0]);
      RunKeepsBuffers(Step(h, evs[0]), evs[1..]);
    }
  }

  lemma {:induction false} RunAppend(h: HandOff, a: seq<Event>, b: seq<Event>)
    ensures Run(h, a + b) == Run(Run(h, a), b)
    decreases |a|
  {
    if a == [] {
      assert a + b == b;
    } else {
      assert (a + b)[0] == a[0] && (a + b)[1..] == a[1..] + b;
      RunAppend(Step(h, a[0]), a[1..], b);
    }
  }

  /** Depth deliveries leave the video roles and the formats alone. */
  lemma {:induction false} DepthFramesKeepVideo(h: HandOff, evs: seq<Event>)
    requires forall i :: 0 <= i < |evs| ==> evs[i] == DepthFrame
    ensures SameBuffers(h, Run(h, evs)) && Run(h, evs).gotRgb == h.gotRgb
    ensures Run(h, evs).requested == h.requested && Run(h, evs).current == h.current
    decreases |evs|
  {
    if evs != [] {
      DepthFramesKeepVideo(DepthArrived(h), evs[1..]);
    }
  }

  /**
   * Frames are dropped, never stale: when the formats agree, a draw shows
   * the buffer filled by the latest video delivery, however many depth
   * frames came after it.
   */
  lemma {:induction false} DrawShowsLatestVideo(h: HandOff, pre: seq<Event>, post: seq<Event>)
    requires forall i :: 0 <= i < |post| ==> post[i] == DepthFrame
    requires Run(h, pre).requested == Run(h, pre).current
    ensures Run(h, pre + [VideoFrame] + post + [Draw]).rgbActive == Run(h, pre).rgbKinect
  {
    var before := Run(h, pre);
    RunAppend(h, pre, [VideoFrame]);
    RunAppend(h, pre + [VideoFrame], post);
    RunAppend(h, pre + [VideoFrame] + post, [Draw]);
    assert Run(h, pre + [VideoFrame]) == VideoArrived(before);
    DepthFramesKeepVideo(VideoArrived(before), post);
  }

  /** The number of draws that claimed a video frame. */
  function VideoClaims(h: HandOff, evs: seq<Event>): nat
    decreases |evs|
  {
    if evs == [] then 0
    else
      var claimed := evs[0] == Draw && h.requested == h.current && h.gotRgb > 0;
      (if claimed then 1 else 0) + VideoClaims(Step(h, evs[0]), evs[1..])
  }

  /** The number of video deliveries. */
  function VideoDeliveries(evs: seq<Event>): nat {
    if evs == [] then 0 else (if evs[0] == VideoFrame then 1 else 0) + VideoDeliveries(evs[1..])
  }

  /**
   * Frames are never duplicated: every draw that claims a video frame, and
   * the frame still pending at the end, consumes a distinct delivery.
   */
  lemma {:induction false} EachDeliveryClaimedAtMostOnce(h: HandOff, evs: seq<Event>)
    ensures VideoClaims(h, evs) + (if Run(h, evs).gotRgb > 0 then 1 else 0)
         <= (if h.gotRgb > 0 then 1 else 0) + VideoDeliveries(evs)
    decreases |evs|
  {
    if evs != [] {
      EachDeliveryClaimedAtMostOnce(Step(h, evs[0]), evs[1..]);
    }
  }

  // ---------------------------------------------------------------------
  // The depth callback's heat map, laid out as glview stores it.
  // ---------------------------------------------------------------------

  /** The bytes of a colourised depth frame: three per sample, red first. */
  function SixBandFrame(gamma: seq<U16>, depth: seq<U16>): (bytes: seq<Byte>)
    requires forall i :: 0 <= i < |depth| ==> depth[i] < |gamma|
    ensures |bytes| == 3 * |depth|
    decreases |depth|
  {
    if |depth| == 0 then []
    else
      var n := |depth| - 1;
      SixBandFrame(gamma, depth[..n]) + RgbBytes(SixBandColour(gamma[depth[n]]))
  }

  /** Sample `i` of the frame determines exactly bytes 3i, 3i+1 and 3i+2. */
  lemma {:induction false} SixBandFrameAt(gamma: seq<U16>, depth: seq<U16>, i: nat)
    requires forall j :: 0 <= j < |depth| ==> depth[j] < |gamma|
    requires i < |depth|
    ensures SixBandFrame(gamma, depth)[3 * i .. 3 * i + 3] == RgbBytes(SixBandColour(gamma[depth[i]]))
    decreases |depth|
  {
    var n := |depth| - 1;
    var prefix := SixBandFrame(gamma, depth[..n]);
    if i < n {
      SixBandFrameAt(gamma, depth[..n], i);
      assert SixBandFrame(gamma, depth)[3 * i .. 3 * i + 3] == prefix[3 * i .. 3 * i + 3];
    } else {
      assert SixBandFrame(gamma, depth)[3 * i .. 3 * i + 3] == SixBandFrame(gamma, depth)[|prefix|..];
    }
  }

  // ---------------------------------------------------------------------
  // IR brightness keys.
  // ---------------------------------------------------------------------

  const MaxIrBrightness := 50
  const MinIrBrightness := 1

  /** The '+' key: the reading plus 2 as a `uint16_t`, capped at 50. */
  function IrBrightnessUp(reading: int): (level: int)
    ensures 0 <= level <= MaxIrBrightness
    ensures MinIrBrightness <= reading <= MaxIrBrightness ==> MinIrBrightness <= level && reading <= level
  {
    var brightness := ToU16(reading + 2);
    if brightness > MaxIrBrightness then MaxIrBrightness else brightness
  }

  /**
   * The '-' key as written: the reading minus 2 is narrowed to `uint16_t`
   * before the lower clamp, so the clamp only catches 0 and a reading of 0
   * or 1 wraps round to 65534 or 65535.
   */
  function IrBrightnessDownAsWritten(reading: int): (level: int)
    ensures MinIrBrightness <= level < 0x1_0000
  {
    var brightness := ToU16(reading - 2);
    if brightness < MinIrBrightness then MinIrBrightness else brightness
  }

  /** The wrap-around at the bottom of the valid range. */
  lemma IrBrightnessDownWraps()
    ensures IrBrightnessDownAsWritten(1) == 0xFFFF
    ensures IrBrightnessDownAsWritten(0) == 0xFFFE
  {
  }

  /** The '-' key as intended: the lower clamp applied before narrowing. */
  function IrBrightnessDown(reading: int): (level: int)
    ensures reading <= MaxIrBrightness ==> MinIrBrightness <= level <= MaxIrBrightness
    ensures MinIrBrightness < reading ==> level < reading
    ensures MinIrBrightness + 2 <= reading < 0x1_0002 ==> level == IrBrightnessDownAsWritten(reading)
  {
    if reading - 2 < MinIrBrightness then MinIrBrightness else ToU16(reading - 2)
  }

  /**
   * From a valid brightness '+' stays within the device's range 1..50; '-'
   * as written stays within it exactly when the reading is above 1, and from
   * 1 it wraps to 65535; the corrected '-' always stays within it.
   */
  lemma {:induction false} IrKeysKeepRange(reading: int)
    requires MinIrBrightness <= reading <= MaxIrBrightness
    ensures MinIrBrightness <= IrBrightnessUp(reading) <= MaxIrBrightness
    ensures IrBrightnessDownAsWritten(reading) <= MaxIrBrightness <==> MinIrBrightness < reading
    ensures reading == MinIrBrightness ==> IrBrightnessDownAsWritten(reading) == 0xFFFF
    ensures MinIrBrightness <= IrBrightnessDown(reading) <= MaxIrBrightness
  {
  }

  // ---------------------------------------------------------------------
  // The commands of the key handler.
  // ---------------------------------------------------------------------

  datatype Flag = AutoExposure | AutoWhiteBalance | RawColor | MirrorDepth | MirrorVideo | NearMode

  /** The settings a key flips: five device flags and the camera rotation. */
  datatype Toggle =
    ToggleAutoExposure | ToggleWhiteBalance | ToggleRawColor | ToggleMirror | ToggleNearMode | ToggleRotation

  /** What a key asks for; every key the handler does not test is `Ignored`. */
  datatype Command =
    | Quit | TiltUp | TiltLevel | TiltDown | NextVideoFormat
    | Flip(toggle: Toggle) | IrUp | IrDown | ShowLed(led: Led) | Ignored

  const Escape: char := 27 as char

  /** The key tests of KeyPressed: the command each key selects. */
  function CommandOf(key: char): Command {
    if key == Escape then Quit
    else if key == 'w' then TiltUp
    else if key == 's' then TiltLevel
    else if key == 'x' then TiltDown
    else if key == 'f' then NextVideoFormat
    else if key == 'e' then Flip(ToggleAutoExposure)
    else if key == 'b' then Flip(ToggleWhiteBalance)
    else if key == 'r' then Flip(ToggleRawColor)
    else if key == 'm' then Flip(ToggleMirror)
    else if key == 'n' then Flip(ToggleNearMode)
    else if key == '+' then IrUp
    else if key == '-' then IrDown
    else if key == '0' then ShowLed(LedOff)
    else if key == '1' then ShowLed(LedGreen)
    else if key == '2' then ShowLed(LedRed)
    else if key == '3' then ShowLed(LedYellow)
    else if key == '4' || key == '5' then ShowLed(LedBlinkGreen)
    else if key == '6' then ShowLed(LedBlinkRedYellow)
    else if key == 'o' then Flip(ToggleRotation)
    else Ignored
  }

  /** The keys that select each command. */
  function KeysOf(cmd: Command): set<char> {
    match cmd
    case Quit => {Escape}
    case TiltUp => {'w'}
    case TiltLevel => {'s'}
    case TiltDown => {'x'}
    case NextVideoFormat => {'f'}
    case Flip(ToggleAutoExposure) => {'e'}
    case Flip(ToggleWhiteBalance) => {'b'}
    case Flip(ToggleRawColor) => {'r'}
    case Flip(ToggleMirror) => {'m'}
    case Flip(ToggleNearMode) => {'n'}
    case Flip(ToggleRotation) => {'o'}
    case IrUp => {'+'}
    case IrDown => {'-'}
    case ShowLed(LedOff) => {'0'}
    case ShowLed(LedGreen) => {'1'}
    case ShowLed(LedRed) => {'2'}
    case ShowLed(LedYellow) => {'3'}
    case ShowLed(LedBlinkGreen) => {'4', '5'}
    case ShowLed(LedBlinkRedYellow) => {'6'}
    case Ignored => {}
  }

  /**
   * Every command but `Ignored` is selected by exactly the keys listed for
   * it, so the tests are disjoint: no key triggers two branches.
   */
  lemma CommandOfSelectsListedKeys(key: char, cmd: Command)
    requires cmd != Ignored
    ensures CommandOf(key) == cmd <==> key in KeysOf(cmd)
  {
  }

  function IsTilt(cmd: Command): bool {
    cmd.TiltUp? || cmd.TiltLevel? || cmd.TiltDown?
  }

  /** The tilt angle after a command: up one, level or down one, within +-30. */
  function TiltAfter(angle: int, cmd: Command): (next: int)
    ensures -MaxTilt <= angle <= MaxTilt ==> -MaxTilt <= next <= MaxTilt
    ensures !IsTilt(cmd) ==> next == angle
    ensures cmd == TiltUp ==> next == if angle < MaxTilt then angle + 1 else MaxTilt
    ensures cmd == TiltDown ==> next == if angle > -MaxTilt then angle - 1 else -MaxTilt
    ensures cmd == TiltLevel ==> next == 0
  {
    match cmd
    case TiltUp => if angle + 1 > MaxTilt then MaxTilt else angle + 1
    case TiltLevel => 0
    case TiltDown => if angle - 1 < -MaxTilt then -MaxTilt else angle - 1
    case _ => angle
  }

  /** Tilting up and then down (or down and then up) away from the limits returns to the start. */
  lemma TiltUpDownCancel(angle: int)
    requires -MaxTilt < angle < MaxTilt
    ensures TiltAfter(TiltAfter(angle, TiltUp), TiltDown) == angle
    ensures TiltAfter(TiltAfter(angle, TiltDown), TiltUp) == angle
  {
  }

  // ---------------------------------------------------------------------
  // The toggles and the device calls a key press makes.
  // ---------------------------------------------------------------------

  datatype Toggles = Toggles(
    autoExposure: bool, whiteBalance: bool, rawColor: bool, mirror: bool, nearMode: bool,
    cameraRotate: bool)

  function Get(t: Toggles, which: Toggle): bool {
    match which
    case ToggleAutoExposure => t.autoExposure
    case ToggleWhiteBalance => t.whiteBalance
    case ToggleRawColor => t.rawColor
    case ToggleMirror => t.mirror
    case ToggleNearMode => t.nearMode
    case ToggleRotation => t.cameraRotate
  }

  function Flipped(t: Toggles, which: Toggle): Toggles {
    match which
    case ToggleAutoExposure => t.(autoExposure := !t.autoExposure)
    case ToggleWhiteBalance => t.(whiteBalance := !t.whiteBalance)
    case ToggleRawColor => t.(rawColor := !t.rawColor)
    case ToggleMirror => t.(mirror := !t.mirror)
    case ToggleNearMode => t.(nearMode := !t.nearMode)
    case ToggleRotation => t.(cameraRotate := !t.cameraRotate)
  }

  /** Flipping a toggle changes that one toggle and no other. */
  lemma FlippedChangesOnlyThat(t: Toggles, which: Toggle, other: Toggle)
    ensures Get(Flipped(t, which), other) == (Get(t, other) != (other == which))
  {
  }

  /** Flipping the same toggle twice restores every toggle. */
  lemma {:induction false} FlippedTwice(t: Toggles, which: Toggle)
    ensures Flipped(Flipped(t, which), which) == t
  {
  }

  function TogglesAfter(t: Toggles, cmd: Command): Toggles {
    if cmd.Flip? then Flipped(t, cmd.toggle) else t
  }

  /** The toggle that drives each device flag; one toggle drives both mirror flags. */
  function ToggleOf(flag: Flag): Toggle {
    match flag
    case AutoExposure => ToggleAutoExposure
    case AutoWhiteBalance => ToggleWhiteBalance
    case RawColor => ToggleRawColor
    case MirrorDepth => ToggleMirror
    case MirrorVideo => ToggleMirror
    case NearMode => ToggleNearMode
  }

  datatype DeviceCall =
    | SetTiltDegrees(degrees: int)
    | SetFlag(flag: Flag, on: bool)
    | SetIrBrightness(level: int)
    | SetLed(led: Led)

  /** The flag calls made after flipping a toggle, with the toggles after the flip. */
  function FlagCalls(which: Toggle, t: Toggles): seq<DeviceCall> {
    match which
    case ToggleAutoExposure => [SetFlag(AutoExposure, t.autoExposure)]
    case ToggleWhiteBalance => [SetFlag(AutoWhiteBalance, t.whiteBalance)]
    case ToggleRawColor => [SetFlag(RawColor, t.rawColor)]
    case ToggleMirror => [SetFlag(MirrorDepth, t.mirror), SetFlag(MirrorVideo, t.mirror)]
    case ToggleNearMode => [SetFlag(NearMode, t.nearMode)]
    case ToggleRotation => []
  }

  /** The brightness and LED calls of a command, given the device's IR reading. */
  function DeviceCalls(cmd: Command, irReading: int): seq<DeviceCall> {
    match cmd
    case IrUp => [SetIrBrightness(IrBrightnessUp(irReading))]
    case IrDown => [SetIrBrightness(IrBrightnessDownAsWritten(irReading))]
    case ShowLed(led) => [SetLed(led)]
    case _ => []
  }

  /**
   * Every device call of a key press, in order: the flag, brightness and
   * LED calls, then the tilt call made when the tilt changed.  `t` and
   * `angle` are the toggles and the angle after the key.
   */
  function CommandCalls(cmd: Command, t: Toggles, angle: int, irReading: int): seq<DeviceCall> {
    (if cmd.Flip? then FlagCalls(cmd.toggle, t) else [])
    + DeviceCalls(cmd, irReading)
    + (if IsTilt(cmd) then [SetTiltDegrees(angle)] else [])
  }

  /** A command calls the device unless it quits, switches format, rotates the camera or is ignored. */
  lemma CommandCallsDevice(cmd: Command, t: Toggles, angle: int, irReading: int)
    ensures CommandCalls(cmd, t, angle, irReading) == [] <==>
      cmd in {Quit, NextVideoFormat, Flip(ToggleRotation), Ignored}
  {
  }

  /**
   * One command makes one call, except the mirror toggle, which makes two;
   * a tilt command's one call reports the new angle; from a reading in the
   * device's range '+' sets a level in that range, and '-' does so exactly
   * when the reading is above 1 (from 1 it sends 65535).
   */
  lemma CommandCallsShape(cmd: Command, t: Toggles, angle: int, irReading: int)
    ensures var calls := CommandCalls(cmd, t, angle, irReading);
      && |calls| == (if cmd == Flip(ToggleMirror) then 2
                     else if cmd in {Quit, NextVideoFormat, Flip(ToggleRotation), Ignored} then 0
                     else 1)
      && (IsTilt(cmd) ==> calls == [SetTiltDegrees(angle)])
      && (cmd == IrUp && MinIrBrightness <= irReading <= MaxIrBrightness ==>
            calls[0].SetIrBrightness? && MinIrBrightness <= calls[0].level <= MaxIrBrightness)
      && (cmd == IrDown && MinIrBrightness <= irReading <= MaxIrBrightness ==>
            && calls[0].SetIrBrightness? && MinIrBrightness <= calls[0].level
            && (calls[0].level <= MaxIrBrightness <==> MinIrBrightness < irReading)
            && (irReading == MinIrBrightness ==> calls[0].level == 0xFFFF))
  {
    if MinIrBrightness <= irReading <= MaxIrBrightness {
      IrKeysKeepRange(irReading);
    }
  }

  /**
   * The flag calls of a toggle key report, for each flag the toggle drives,
   * the toggle's value after the flip, which differs from its value before.
   */
  lemma FlagCallsReportNewValue(which: Toggle, before: Toggles)
    ensures forall c :: c in FlagCalls(which, Flipped(before, which)) ==>
      && c.SetFlag? && ToggleOf(c.flag) == which
      && c.on == Get(Flipped(before, which), which)
      && c.on != Get(before, which)
  {
  }

  // ---------------------------------------------------------------------
  // The globals of glview.
  // ---------------------------------------------------------------------

  class GLViewState {
    var depthMid: array<Byte>
    var depthActive: array<Byte>
    var rgbKinect: array<Byte>
    var rgbCache: array<Byte>
    var rgbActive: array<Byte>
    /** The buffer libfreenect fills with the next video frame. */
    var deviceVideoBuffer: array<Byte>
    var gotRgb: nat
    var gotDepth: nat
    var requestedFormat: VideoFormat
    var currentFormat: VideoFormat
    var freenectAngle: int
    var tiltChanged: int
    /** `camera_rotate` and the function-local static toggles of the key handler. */
    var toggles: Toggles
    /** The gamma table, filled once at start-up. */
    const gamma: seq<U16>

    ghost function State(): HandOff
      reads this
    {
      HandOff(rgbKinect, rgbCache, rgbActive, depthMid, depthActive, gotRgb, gotDepth, requestedFormat, currentFormat)
    }

    ghost predicate Valid()
      reads this
    {
      && |gamma| == GammaSize
      && depthMid.Length == FrameBytes && depthActive.Length == FrameBytes
      && rgbKinect.Length == FrameBytes && rgbCache.Length == FrameBytes && rgbActive.Length == FrameBytes
      && Rotatable(State())
      && depthMid != rgbKinect && depthMid != rgbCache && depthMid != rgbActive
      && depthActive != rgbKinect && depthActive != rgbCache && depthActive != rgbActive
      && deviceVideoBuffer == rgbKinect
      && -MaxTilt <= freenectAngle <= MaxTilt
      && tiltChanged == 0
    }

    /** Start-up in `main`: five fresh buffers, RGB requested and current, level tilt. */
    constructor (gamma: seq<U16>)
      requires |gamma| == GammaSize
      ensures Valid() && this.gamma == gamma
      ensures fresh(depthMid) && fresh(depthActive) && fresh(rgbKinect) && fresh(rgbCache) && fresh(rgbActive)
      ensures gotRgb == 0 && gotDepth == 0
      ensures requestedFormat == VideoRgb && currentFormat == VideoRgb
      ensures freenectAngle == 0 && toggles == Toggles(false, false, false, false, false, false)
    {
      this.gamma := gamma;
      depthMid := new Byte[FrameBytes];
      depthActive := new Byte[FrameBytes];
      rgbKinect := new Byte[FrameBytes];
      rgbCache := new Byte[FrameBytes];
      rgbActive := new Byte[FrameBytes];
      deviceVideoBuffer := rgbKinect;
      gotRgb, gotDepth := 0, 0;
      requestedFormat, currentFormat := VideoRgb, VideoRgb;
      freenectAngle, tiltChanged := 0, 0;
      toggles := Toggles(false, false, false, false, false, false);
    }

    /**
     * depth_cb: colourise the delivered frame into `depthMid` and count it.
     * The buffer being drawn and the video buffers are not touched.
     */
    method DepthCallback(depth: seq<U16>)
      requires Valid()
      requires |depth| == FramePixels
      requires forall i :: 0 <= i < |depth| ==> depth[i] < GammaSize
      modifies depthMid, this`gotDepth
      ensures Valid()
      ensures State() == DepthArrived(old(State()))
      ensures depthMid[..] == SixBandFrame(gamma, depth)
      ensures unchanged(depthActive, rgbKinect, rgbCache, rgbActive)
    {
      var i := 0;
      while i < FramePixels
        invariant 0 <= i <= FramePixels
        invariant depthMid[..3 * i] == SixBandFrame(gamma, depth[..i])
        invariant gotDepth == old(gotDepth)
      {
        var colour := SixBandColour(gamma[depth[i]]);
        ghost var done := depthMid[..3 * i];
        depthMid[3 * i] := colour.red;
        depthMid[3 * i + 1] := colour.green;
        depthMid[3 * i + 2] := colour.blue;
        assert depthMid[..3 * i] == done;
        assert depthMid[..3 * i + 3] == done + RgbBytes(colour);
        assert depth[..i + 1][..i] == depth[..i];
        i := i + 1;
      }
      assert depth[..FramePixels] == depth;
      assert depthMid[..] == depthMid[..3 * FramePixels];
      gotDepth := gotDepth + 1;
    }

    /**
     * rgb_cb: the device hands back the buffer it was filling; it becomes
     * the cached frame and the old cached buffer is given to the device.
     */
    method RgbCallback(rgb: array<Byte>)
      requires Valid()
      requires rgb == rgbKinect
      modifies this`rgbKinect, this`rgbCache, this`gotRgb, this`deviceVideoBuffer
      ensures Valid()
      ensures State() == VideoArrived(old(State()))
      ensures rgbCache == rgb && deviceVideoBuffer == old(rgbCache)
    {
      rgbKinect := rgbCache;
      deviceVideoBuffer := rgbKinect;  // freenect_set_video_buffer
      rgbCache := rgb;
      gotRgb := gotRgb + 1;
    }

    /**
     * The critical section of DrawGLScene, entered once the wait loop is
     * done.  `draw` is false when it returns early for a pending format
     * switch.
     */
    method DrawCriticalSection() returns (draw: bool)
      requires Valid()
      modifies this`depthMid, this`depthActive, this`rgbCache, this`rgbActive, this`gotRgb, this`gotDepth
      ensures Valid()
      ensures State() == Claim(old(State()))
      ensures draw == (old(requestedFormat) == old(currentFormat))
    {
      if requestedFormat != currentFormat {
        return false;
      }
      ClaimDepthFrame();
      ClaimVideoFrame();
      draw := true;
    }

    /** The depth exchange of the draw's critical section. */
    method ClaimDepthFrame()
      requires Valid()
      modifies this`depthMid, this`depthActive, this`gotDepth
      ensures Valid()
      ensures State() == ClaimDepth(old(State()))
    {
      if gotDepth != 0 {
        var swap := depthActive;
        depthActive := depthMid;
        depthMid := swap;
        gotDepth := 0;
      }
    }

    /** The video exchange of the draw's critical section. */
    method ClaimVideoFrame()
      requires Valid()
      modifies this`rgbCache, this`rgbActive, this`gotRgb
      ensures Valid()
      ensures State() == ClaimVideo(old(State()))
    {
      if gotRgb != 0 {
        var swap := rgbActive;
        rgbActive := rgbCache;
        rgbCache := swap;
        gotRgb := 0;
      }
    }

    /**
     * The format step of the capture loop: a requested format restarts the
     * video stream in that format.  `restarted` says whether it did.
     */
    method SwitchVideoFormat() returns (restarted: bool)
      requires Valid()
      modifies this`currentFormat
      ensures Valid()
      ensures State() == FormatSwitched(old(State()))
      ensures restarted == (old(requestedFormat) != old(currentFormat))
    {
      restarted := requestedFormat != currentFormat;
      if restarted {
        currentFormat := requestedFormat;
      }
    }

    /**
     * The tilt tests of KeyPressed: a tilt command moves the angle and
     * counts a tilt change; any other command leaves both alone.
     */
    method TiltKey(cmd: Command)
      requires -MaxTilt <= freenectAngle <= MaxTilt && tiltChanged == 0
      modifies this`freenectAngle, this`tiltChanged
      ensures freenectAngle == TiltAfter(old(freenectAngle), cmd)
      ensures tiltChanged == if IsTilt(cmd) then 1 else 0
    {
      if cmd == TiltUp {
        freenectAngle := freenectAngle + 1;
        if freenectAngle > MaxTilt {
          freenectAngle := MaxTilt;
        }
        tiltChanged := tiltChanged + 1;
      }
      if cmd == TiltLevel {
        freenectAngle := 0;
        tiltChanged := tiltChanged + 1;
      }
      if cmd == TiltDown {
        freenectAngle := freenectAngle - 1;
        if freenectAngle < -MaxTilt {
          freenectAngle := -MaxTilt;
        }
        tiltChanged := tiltChanged + 1;
      }
    }

    /**
     * The toggle tests of KeyPressed: a toggle command flips its setting
     * and passes a device flag's new value on to the device.
     */
    method ToggleKey(cmd: Command) returns (calls: seq<DeviceCall>)
      modifies this`toggles
      ensures toggles == TogglesAfter(old(toggles), cmd)
      ensures calls == if cmd.Flip? then FlagCalls(cmd.toggle, toggles) else []
    {
      calls := [];
      if cmd.Flip? {
        match cmd.toggle
        case ToggleAutoExposure =>
          toggles := toggles.(autoExposure := !toggles.autoExposure);
          calls := [SetFlag(AutoExposure, toggles.autoExposure)];
        case ToggleWhiteBalance =>
          toggles := toggles.(whiteBalance := !toggles.whiteBalance);
          calls := [SetFlag(AutoWhiteBalance, toggles.whiteBalance)];
        case ToggleRawColor =>
          toggles := toggles.(rawColor := !toggles.rawColor);
          calls := [SetFlag(RawColor, toggles.rawColor)];
        case ToggleMirror =>
          toggles := toggles.(mirror := !toggles.mirror);
          calls := [SetFlag(MirrorDepth, toggles.mirror), SetFlag(MirrorVideo, toggles.mirror)];
        case ToggleNearMode =>
          toggles := toggles.(nearMode := !toggles.nearMode);
          calls := [SetFlag(NearMode, toggles.nearMode)];
        case ToggleRotation =>
          toggles := toggles.(cameraRotate := !toggles.cameraRotate);
      }
    }

    /**
     * The IR brightness and LED tests of KeyPressed, which only call the
     * device.  `irReading` is what the device reports as its IR brightness.
     */
    method DeviceKey(cmd: Command, irReading: int) returns (calls: seq<DeviceCall>)
      ensures calls == DeviceCalls(cmd, irReading)
    {
      calls := [];
      if cmd == IrUp {
        var brightness := ToU16(irReading + 2);
        if brightness > MaxIrBrightness {
          brightness := MaxIrBrightness;
        }
        calls := [SetIrBrightness(brightness)];
      } else if cmd == IrDown {
        var brightness := ToU16(irReading - 2);
        if brightness < MinIrBrightness {
          brightness := MinIrBrightness;
        }
        calls := [SetIrBrightness(brightness)];
      } else if cmd.ShowLed? {
        calls := [SetLed(cmd.led)];
      }
    }

    /**
     * KeyPressed: decode the key, update the tilt angle, the requested
     * format and the toggles, and return the device calls made, in order.
     * Escape returns `quit` and changes nothing.  `irReading` is what the
     * device reports as its IR brightness.
     */
    method KeyPressed(key: char, irReading: int) returns (calls: seq<DeviceCall>, quit: bool)
      requires Valid()
      modifies this`freenectAngle, this`tiltChanged, this`requestedFormat, this`toggles
      ensures Valid()
      ensures quit <==> key == Escape
      ensures quit ==> calls == [] && unchanged(this)
      ensures State() == if CommandOf(key) == NextVideoFormat then FormatRequested(old(State())) else old(State())
      ensures freenectAngle == TiltAfter(old(freenectAngle), CommandOf(key))
      ensures toggles == TogglesAfter(old(toggles), CommandOf(key))
      ensures calls == CommandCalls(CommandOf(key), toggles, freenectAngle, irReading)
    {
      calls, quit := [], false;
      var cmd := CommandOf(key);
      if cmd == Quit {
        quit := true;
        return;
      }
      TiltKey(cmd);
      if cmd == NextVideoFormat {
        requestedFormat := NextFormat(requestedFormat);
      }
      var toggled := ToggleKey(cmd);
      var device := DeviceKey(cmd, irReading);
      calls := toggled + device;
      if tiltChanged != 0 {
        calls := calls + [SetTiltDegrees(freenectAngle)];
        tiltChanged := 0;
      }
    }
  }
}

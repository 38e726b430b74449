/**
 * The OpenCV head hunter: a `MicrosoftKinect` device wrapper whose
 * callbacks publish the latest video and depth frames behind two
 * frame-available flags, the getters that consume those flags (one of
 * them painting the seven-band depth heat map), the resolution switch that
 * sizes the frames, and the tilt step of the face-tracking loop in `main`.
 */
module HeadHunter {
  import opened Types
  import opened DepthHeatMap

  // ---------------------------------------------------------------------
  // videoResolutionToColumnsAndRows.
  // ---------------------------------------------------------------------

  /** libfreenect's resolutions; any other value of the enum is `ResolutionOther`. */
  datatype Resolution = ResolutionLow | ResolutionMedium | ResolutionHigh | ResolutionOther(code: int)

  /** The result code and the two out-parameters of the switch. */
  datatype Conversion = Conversion(status: int, cols: int, rows: int)

  /**
   * The frame size of a resolution.  `cols` and `rows` are the values the
   * out-parameters held before the call; an unknown resolution returns -1
   * and leaves them as they were.
   */
  function VideoResolutionToColumnsAndRows(resolution: Resolution, cols: int, rows: int): (r: Conversion)
    ensures r.status == 0 <==> !resolution.ResolutionOther?
    ensures r.status != 0 ==> r == Conversion(-1, cols, rows)
    ensures r.status == 0 ==> 0 < r.rows < r.cols
  {
    match resolution
    case ResolutionLow => Conversion(0, 320, 240)
    case ResolutionMedium => Conversion(0, 640, 480)
    case ResolutionHigh => Conversion(0, 1280, 1024)
    case ResolutionOther(_) => Conversion(-1, cols, rows)
  }

  /**
   * Each known resolution doubles the one below it in both directions
   * (high only approximately: it is 5:4 where the others are 4:3), and the
   * result does not depend on the out-parameters' old values.
   */
  lemma ResolutionsGrow(cols: int, rows: int, cols': int, rows': int)
    ensures var low := VideoResolutionToColumnsAndRows(ResolutionLow, cols, rows);
      var medium := VideoResolutionToColumnsAndRows(ResolutionMedium, cols, rows);
      var high := VideoResolutionToColumnsAndRows(ResolutionHigh, cols, rows);
      && medium.cols == 2 * low.cols && medium.rows == 2 * low.rows
      && high.cols == 2 * medium.cols && high.rows > 2 * medium.rows
      && 3 * low.cols == 4 * low.rows && 3 * medium.cols == 4 * medium.rows && 4 * high.cols == 5 * high.rows
    ensures forall res: Resolution :: !res.ResolutionOther? ==>
      VideoResolutionToColumnsAndRows(res, cols, rows) == VideoResolutionToColumnsAndRows(res, cols', rows')
  {
  }

  // ---------------------------------------------------------------------
  // The heat map pixel and the frame-available flags.
  // ---------------------------------------------------------------------

  /** The three bytes getDepthHeatMap stores for a depth sample, blue first. */
  function HeatPixel(gamma: seq<U16>, sample: U16): (bytes: seq<Byte>)
    requires sample < |gamma|
    ensures |bytes| == 3
  {
    BgrBytes(SevenBandColour(gamma[sample]))
  }

  /** What happens to one frame-available flag: a callback delivers, or a getter polls. */
  datatype FeedEvent = Arrival | Poll

  /** How many polls of a trace find a frame, starting with the flag at `available`. */
  function Successes(available: bool, evs: seq<FeedEvent>): nat
    decreases |evs|
  {
    if evs == [] then 0
    else if evs[0] == Arrival then Successes(true, evs[1..])
    else (if available then 1 else 0) + Successes(false, evs[1..])
  }

  function Arrivals(evs: seq<FeedEvent>): nat
    decreases |evs|
  {
    if evs == [] then 0 else (if evs[0] == Arrival then 1 else 0) + Arrivals(evs[1..])
  }

  /** A getter returns true at most once per callback, plus once for a frame already waiting. */
  lemma {:induction false} AtMostOneSuccessPerArrival(available: bool, evs: seq<FeedEvent>)
    ensures Successes(available, evs) <= (if available then 1 else 0) + Arrivals(evs)
    decreases |evs|
  {
    if evs != [] {
      if evs[0] == Arrival {
        AtMostOneSuccessPerArrival(true, evs[1..]);
      } else {
        AtMostOneSuccessPerArrival(false, evs[1..]);
      }
    }
  }

  function Repeat(e: FeedEvent, n: nat): (evs: seq<FeedEvent>)
    ensures |evs| == n && forall i :: 0 <= i < n ==> evs[i] == e
  {
    if n == 0 then [] else [e] + Repeat(e, n - 1)
  }

  /** Polls after the last arrival find nothing. */
  lemma {:induction false} PollsFindNothing(m: nat)
    ensures Successes(false, Repeat(Poll, m)) == 0
  {
    if m > 0 {
      assert Repeat(Poll, m)[1..] == Repeat(Poll, m - 1);
      PollsFindNothing(m - 1);
    }
  }

  /**
   * Setting the flag is idempotent: any number of deliveries before the
   * getters run still give exactly one successful poll.
   */
  lemma {:induction false} RepeatedArrivalsOneSuccess(available: bool, n: nat, m: nat)
    requires n >= 1 && m >= 1
    ensures Successes(available, Repeat(Arrival, n) + Repeat(Poll, m)) == 1
    decreases n
  {
    var evs := Repeat(Arrival, n) + Repeat(Poll, m);
    assert evs[0] == Arrival;
    if n == 1 {
      assert evs[1..] == Repeat(Poll, m);
      assert Repeat(Poll, m)[1..] == Repeat(Poll, m - 1);
      PollsFindNothing(m - 1);
    } else {
      assert evs[1..] == Repeat(Arrival, n - 1) + Repeat(Poll, m);
      RepeatedArrivalsOneSuccess(true, n - 1, m);
    }
  }

  // ---------------------------------------------------------------------
  // The device wrapper.
  // ---------------------------------------------------------------------

  class MicrosoftKinect {
    /** The gamma table, filled once in the constructor. */
    const gamma: seq<U16>
    /** The frame size set by `setVideoResolution` in the constructor. */
    const rows: int
    const cols: int
    var rgbFrameAvailable: bool
    var depthFrameAvailable: bool
    /** The latest depth frame, one 11-bit sample per pixel. */
    var liveDepthFeed: array2<U16>
    /** The latest video frame, three bytes per pixel in red, green, blue order. */
    var liveRgbFeed: array3<Byte>

    ghost predicate Valid()
      reads this
    {
      && |gamma| == GammaSize
      && VideoResolutionToColumnsAndRows(ResolutionMedium, cols, rows) == Conversion(0, cols, rows)
      && liveDepthFeed.Length0 == rows && liveDepthFeed.Length1 == cols
      && liveRgbFeed.Length0 == rows && liveRgbFeed.Length1 == cols && liveRgbFeed.Length2 == 3
    }

    /** Every sample of the depth frame indexes the gamma table. */
    ghost predicate DepthInRange()
      reads this, liveDepthFeed
    {
      forall i, j :: 0 <= i < liveDepthFeed.Length0 && 0 <= j < liveDepthFeed.Length1 ==>
        liveDepthFeed[i, j] < |gamma|
    }

    /**
     * The constructor: medium resolution, so both feeds are 640 by 480 and
     * the video feed starts black; no frame is available yet.
     */
    constructor (gamma: seq<U16>)
      requires |gamma| == GammaSize
      ensures Valid() && this.gamma == gamma
      ensures cols == 640 && rows == 480
      ensures !rgbFrameAvailable && !depthFrameAvailable
      ensures fresh(liveDepthFeed) && fresh(liveRgbFeed)
      ensures forall i, j, k :: 0 <= i < rows && 0 <= j < cols && 0 <= k < 3 ==> liveRgbFeed[i, j, k] == 0
    {
      this.gamma := gamma;
      var size := VideoResolutionToColumnsAndRows(ResolutionMedium, 0, 0);
      cols := size.cols;
      rows := size.rows;
      liveDepthFeed := new U16[size.rows, size.cols];
      liveRgbFeed := new Byte[size.rows, size.cols, 3]((_, _, _) => 0);
      rgbFrameAvailable, depthFrameAvailable := false, false;
    }

    /**
     * getWindowColumnAndRowCount: the switch on the resolution the
     * constructor set, so the window is the size of both feeds.
     */
    function WindowColumnAndRowCount(cols: int, rows: int): (r: Conversion)
      requires Valid()
      reads this
      ensures r == Conversion(0, this.cols, this.rows)
      ensures r.cols == liveDepthFeed.Length1 == liveRgbFeed.Length1
      ensures r.rows == liveDepthFeed.Length0 == liveRgbFeed.Length0
    {
      VideoResolutionToColumnsAndRows(ResolutionMedium, cols, rows)
    }

    /** VideoCallback: the feed now shows the device's buffer, and a frame is available. */
    method VideoCallback(rgb: array3<Byte>)
      requires Valid()
      requires rgb.Length0 == rows && rgb.Length1 == cols && rgb.Length2 == 3
      modifies this`liveRgbFeed, this`rgbFrameAvailable
      ensures Valid()
      ensures liveRgbFeed == rgb && rgbFrameAvailable
    {
      liveRgbFeed := rgb;
      rgbFrameAvailable := true;
    }

    /** DepthCallback: the feed now shows the device's buffer, and a frame is available. */
    method DepthCallback(depth: array2<U16>)
      requires Valid()
      requires depth.Length0 == rows && depth.Length1 == cols
      modifies this`liveDepthFeed, this`depthFrameAvailable
      ensures Valid()
      ensures liveDepthFeed == depth && depthFrameAvailable
    {
      liveDepthFeed := depth;
      depthFrameAvailable := true;
    }

    /**
     * getBGRVideo: when a frame is available, copy it into `bgr` with the
     * channels reversed (red, green, blue to blue, green, red), consume the
     * flag and return true; otherwise return false and leave `bgr` alone.
     */
    method GetBgrVideo(bgr: array3<Byte>) returns (ok: bool)
      requires Valid()
      requires bgr.Length0 == rows && bgr.Length1 == cols && bgr.Length2 == 3 && bgr != liveRgbFeed
      modifies bgr, this`rgbFrameAvailable
      ensures Valid()
      ensures ok == old(rgbFrameAvailable) && !rgbFrameAvailable
      ensures ok ==> forall i, j, k :: 0 <= i < rows && 0 <= j < cols && 0 <= k < 3 ==>
        bgr[i, j, k] == liveRgbFeed[i, j, 2 - k]
      ensures !ok ==> unchanged(bgr)
    {
      if !rgbFrameAvailable {
        return false;
      }
      var r := 0;
      while r < rows
        invariant 0 <= r <= rows
        invariant forall i, j, k :: 0 <= i < r && 0 <= j < cols && 0 <= k < 3 ==>
          bgr[i, j, k] == liveRgbFeed[i, j, 2 - k]
      {
        var c := 0;
        while c < cols
          invariant 0 <= c <= cols
          invariant forall i, j, k :: 0 <= i < r && 0 <= j < cols && 0 <= k < 3 ==>
            bgr[i, j, k] == liveRgbFeed[i, j, 2 - k]
          invariant forall j, k :: 0 <= j < c && 0 <= k < 3 ==> bgr[r, j, k] == liveRgbFeed[r, j, 2 - k]
        {
          bgr[r, c, 0], bgr[r, c, 1], bgr[r, c, 2] := liveRgbFeed[r, c, 2], liveRgbFeed[r, c, 1], liveRgbFeed[r, c, 0];
          c := c + 1;
        }
        r := r + 1;
      }
      rgbFrameAvailable := false;
      ok := true;
    }

    /**
     * getDepthHeatMap: when a depth frame is available, paint every pixel
     * of `heatMap` with the seven-band colour of its sample, consume the
     * flag and return true; otherwise return false and leave `heatMap`
     * alone.  Every sample must index the 2048-entry gamma table.
     */
    method GetDepthHeatMap(heatMap: array3<Byte>) returns (ok: bool)
      requires Valid()
      requires heatMap.Length0 == rows && heatMap.Length1 == cols && heatMap.Length2 == 3
      requires depthFrameAvailable ==> DepthInRange()
      modifies heatMap, this`depthFrameAvailable
      ensures Valid()
      ensures ok == old(depthFrameAvailable) && !depthFrameAvailable
      ensures ok ==> forall i, j, k :: 0 <= i < rows && 0 <= j < cols && 0 <= k < 3 ==>
        heatMap[i, j, k] == HeatPixel(gamma, liveDepthFeed[i, j])[k]
      ensures !ok ==> unchanged(heatMap)
    {
      if !depthFrameAvailable {
        return false;
      }
      var r := 0;
      while r < rows
        invariant 0 <= r <= rows
        invariant forall i, j, k :: 0 <= i < r && 0 <= j < cols && 0 <= k < 3 ==>
          heatMap[i, j, k] == HeatPixel(gamma, liveDepthFeed[i, j])[k]
      {
        var c := 0;
        while c < cols
          invariant 0 <= c <= cols
          invariant forall i, j, k :: 0 <= i < r && 0 <= j < cols && 0 <= k < 3 ==>
            heatMap[i, j, k] == HeatPixel(gamma, liveDepthFeed[i, j])[k]
          invariant forall j, k :: 0 <= j < c && 0 <= k < 3 ==>
            heatMap[r, j, k] == HeatPixel(gamma, liveDepthFeed[r, j])[k]
        {
          var colour := SevenBandColour(gamma[liveDepthFeed[r, c]]);
          heatMap[r, c, 0], heatMap[r, c, 1], heatMap[r, c, 2] := colour.blue, colour.green, colour.red;
          c := c + 1;
        }
        r := r + 1;
      }
      depthFrameAvailable := false;
      ok := true;
    }
  }

  // ---------------------------------------------------------------------
  // Face tracking.
  // ---------------------------------------------------------------------

  /** How far the average face may sit from the middle before the camera tilts. */
  const DeadZone := 25

  /** Whether the average face row is within the dead zone around the middle row. */
  predicate InDeadZone(avgFaceY: int, halfHeight: int) {
    halfHeight - DeadZone <= avgFaceY <= halfHeight + DeadZone
  }

  /**
   * The tilt step: a face average above the dead zone raises the camera
   * by a degree, one below it lowers it, each clamped to +-30.
   */
  function TrackTilt(tilt: int, avgFaceY: int, halfHeight: int): (next: int)
    ensures -MaxTilt <= tilt <= MaxTilt ==> -MaxTilt <= next <= MaxTilt
    ensures -MaxTilt <= tilt <= MaxTilt && next > tilt ==> avgFaceY < halfHeight - DeadZone
    ensures -MaxTilt <= tilt <= MaxTilt && next < tilt ==> avgFaceY > halfHeight + DeadZone
    ensures InDeadZone(avgFaceY, halfHeight) ==> next == tilt
    ensures avgFaceY < halfHeight - DeadZone && tilt < MaxTilt ==> next == tilt + 1
    ensures avgFaceY > halfHeight + DeadZone && tilt > -MaxTilt ==> next == tilt - 1
  {
    if avgFaceY < halfHeight - DeadZone then
      (if tilt + 1 >= MaxTilt then MaxTilt else tilt + 1)
    else if avgFaceY > halfHeight + DeadZone then
      (if tilt - 1 <= -MaxTilt then -MaxTilt else tilt - 1)
    else tilt
  }

  /** The device calls of the face-tracking step. */
  datatype TrackingCall = SetLed(led: Led) | SetTiltDegrees(degrees: int)

  function Sum(ys: seq<int>): int
    decreases |ys|
  {
    if ys == [] then 0 else Sum(ys[..|ys| - 1]) + ys[|ys| - 1]
  }

  function Min(ys: seq<int>): int
    requires ys != []
    decreases |ys|
  {
    if |ys| == 1 then ys[0]
    else var m := Min(ys[..|ys| - 1]); if ys[|ys| - 1] < m then ys[|ys| - 1] else m
  }

  function Max(ys: seq<int>): int
    requires ys != []
    decreases |ys|
  {
    if |ys| == 1 then ys[0]
    else var m := Max(ys[..|ys| - 1]); if ys[|ys| - 1] > m then ys[|ys| - 1] else m
  }

  lemma ScaleMonotone(n: nat, a: int, b: int)
    requires a <= b
    ensures n * a <= n * b
  {
  }

  lemma ScaleSucc(n: nat, a: int)
    ensures (n + 1) * a == n * a + a
  {
  }

  lemma ScaleCancel(n: nat, a: int, b: int)
    requires n > 0 && n * a < n * b
    ensures a < b
  {
    if a >= b {
      ScaleMonotone(n, b, a);
    }
  }

  lemma ScaleCancelWeak(n: nat, a: int, b: int)
    requires n > 0 && n * a <= n * b
    ensures a <= b
  {
    if a > b {
      ScaleMonotone(n, b + 1, a);
      ScaleSucc(n, b);
    }
  }

  /** The sum of the face rows is at least |ys| times the smallest. */
  lemma {:induction false} SumAtLeast(ys: seq<int>)
    requires ys != []
    ensures |ys| * Min(ys) <= Sum(ys)
    decreases |ys|
  {
    if |ys| > 1 {
      var init, last := ys[..|ys| - 1], ys[|ys| - 1];
      var n, lo := |init|, Min(ys);
      SumAtLeast(init);
      assert lo <= Min(init) && lo <= last;
      ScaleMonotone(n, lo, Min(init));
      ScaleSucc(n, lo);
    }
  }

  /** The sum of the face rows is at most |ys| times the largest. */
  lemma {:induction false} SumAtMost(ys: seq<int>)
    requires ys != []
    ensures Sum(ys) <= |ys| * Max(ys)
    decreases |ys|
  {
    if |ys| > 1 {
      var init, last := ys[..|ys| - 1], ys[|ys| - 1];
      var n, hi := |init|, Max(ys);
      SumAtMost(init);
      assert Max(init) <= hi && last <= hi;
      ScaleMonotone(n, Max(init), hi);
      ScaleSucc(n, hi);
    }
  }

  /**
   * The average face row, rounded down as the integer division does, lies
   * between the topmost and the bottommost face.
   */
  lemma AverageWithinFaces(ys: seq<int>)
    requires ys != []
    ensures Min(ys) <= Sum(ys) / |ys| <= Max(ys)
  {
    var n: nat, total := |ys|, Sum(ys);
    var lo, hi := Min(ys), Max(ys);
    SumAtLeast(ys);
    SumAtMost(ys);
    var q := total / n;
    assert n * q <= total < n * q + n;
    ScaleSucc(n, q);
    ScaleCancel(n, lo, q + 1);
    ScaleCancelWeak(n, q, hi);
  }

  /**
   * One pass of the face-tracking branch of `main`, given the rows of the
   * detected faces and half the height of the scaled image.  With no face
   * the LED blinks red and yellow; otherwise the LED is set red once per
   * face while the rows are summed, and outside the dead zone the new tilt
   * is sent to the device.
   */
  method TrackFaces(tilt: int, faceYs: seq<int>, halfHeight: int) returns (next: int, calls: seq<TrackingCall>)
    requires forall i :: 0 <= i < |faceYs| ==> faceYs[i] >= 0
    ensures faceYs == [] ==> next == tilt && calls == [SetLed(LedBlinkRedYellow)]
    ensures faceYs != [] ==> next == TrackTilt(tilt, Sum(faceYs) / |faceYs|, halfHeight)
    ensures faceYs != [] ==> |calls| >= |faceYs| && forall i :: 0 <= i < |faceYs| ==> calls[i] == SetLed(LedRed)
    ensures faceYs != [] && InDeadZone(Sum(faceYs) / |faceYs|, halfHeight) ==> calls[|faceYs|..] == []
    ensures faceYs != [] && !InDeadZone(Sum(faceYs) / |faceYs|, halfHeight) ==> calls[|faceYs|..] == [SetTiltDegrees(next)]
  {
    next := tilt;
    if faceYs == [] {
      calls := [SetLed(LedBlinkRedYellow)];
      return;
    }
    var sum := 0;
    calls := [];
    var i := 0;
    while i < |faceYs|
      invariant 0 <= i <= |faceYs|
      invariant sum == Sum(faceYs[..i])
      invariant |calls| == i && forall j :: 0 <= j < i ==> calls[j] == SetLed(LedRed)
    {
      assert faceYs[..i + 1][..i] == faceYs[..i];
      sum := sum + faceYs[i];
      calls := calls + [SetLed(LedRed)];
      i := i + 1;
    }
    assert faceYs[..i] == faceYs;
    var avgFaceY := sum / |faceYs|;
    if avgFaceY < halfHeight - DeadZone {
      next := next + 1;
      if next >= MaxTilt {
        next := MaxTilt;
      }
      calls := calls + [SetTiltDegrees(next)];
    } else if avgFaceY > halfHeight + DeadZone {
      next := next - 1;
      if next <= -MaxTilt {
        next := -MaxTilt;
      }
      calls := calls + [SetTiltDegrees(next)];
    }
  }
}

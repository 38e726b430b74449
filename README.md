# Kinect viewers: heat map, frame hand-off and control rules

This project models the integer-only core of two Kinect (v1) viewers built on
libfreenect, and proves properties of that model.

- `glview_documented.c` is an OpenGL viewer. Its depth callback paints a
  six-band heat map into `depth_mid`. Its video callback rotates three colour
  buffers (`rgb_kinect`, `rgb_cache`, `rgb_active`). The draw's critical
  section claims pending frames, counted by `got_rgb` and `got_depth`. The
  capture thread switches the video format when one is requested.
  `KeyPressed` tilts the camera, cycles the format, flips device flags and
  sets the IR brightness and the LED.
- `kinect_opencv_head_hunter.cpp` is an OpenCV viewer. Its `MicrosoftKinect`
  device wrapper publishes frames behind two frame-available flags. Its
  getters consume the flags, and `getDepthHeatMap` paints a seven-band heat
  map in blue, green, red order. A resolution switch sizes the frames. The
  main loop tilts the camera towards the average detected face.

Files:

- `types.dfy`: `Byte`, `U16` and the `uint16_t` narrowing, libfreenect's LED
  states and ±30° tilt range.
- `depth_heat_map.dfy`: both band switches as functions. A reference
  definition states each band as a linear fade between two anchor colours,
  and lemmas tie the switches to it.
- `glview.dfy`: the hand-off state as a value, with one function per critical
  section and lemmas over runs of them. It also holds the class
  `GLViewState`, whose methods are the critical sections and the key
  handler, each proved against those functions. The IR brightness
  arithmetic is here too.
- `head_hunter.dfy`: the resolution switch and the class `MicrosoftKinect`
  with its callbacks and getters. It also holds a trace model of the
  frame-available flags and the face-tracking tilt step.

Readings chosen where `glview_documented.c` does not compile as written:

- `lb` (lines 571-602) is read as the declared `low_byte` (line 564).
- The undeclared `depth_cache` (line 124) is read as `depth_mid`. The depth
  claim therefore exchanges `depth_active` and `depth_mid`.
- `DrawGLScene` (line 89) is read as a function with no parameters.

A sample of 2048 or more would index past the 2048-entry table. Neither
viewer clamps it (glview_documented.c:563, kinect_opencv_head_hunter.cpp:133),
so the depth callbacks require every sample to be below 2048.

`KeyPressed` tests each key in a separate `if`. The model decodes the key once
(`CommandOf`) and dispatches on the result. `CommandOfSelectsListedKeys`
proves that the key tests are disjoint, so at most one branch fires and the
order of the branches does not matter.

## Model

| member | source | states |
|---|---|---|
| Types.ToU16 | glview_documented.c:377-386 | conversion to `uint16_t` keeps values in range and otherwise changes the value by a multiple of 2^16 |
| DepthHeatMap.SixBandColour | glview_documented.c:563-610 | every channel glview writes for a table entry is a byte |
| DepthHeatMap.SixBandsFade | glview_documented.c:563-610 | band k of an entry fades from anchor k (white, red, yellow, green, cyan, blue) towards anchor k+1 (ending in black), by the entry's low byte; entries past band 5 are grey |
| DepthHeatMap.SixBandsMeet | glview_documented.c:568-602 | for k = 0..4, the last colour of band k equals the first colour of band k+1 |
| DepthHeatMap.SevenBandColour | kinect_opencv_head_hunter.cpp:133-187 | every channel the head hunter writes for a table entry is a byte |
| DepthHeatMap.SevenBandsFade | kinect_opencv_head_hunter.cpp:133-187 | band k fades between the same anchors as glview, with magenta between blue and black; entries past band 6 are grey |
| DepthHeatMap.SevenBandsMeet | kinect_opencv_head_hunter.cpp:140-181 | for k = 0..5, the last colour of band k equals the first colour of band k+1 |
| DepthHeatMap.VariantsDifferExactlyInsideUpperBands | kinect_opencv_head_hunter.cpp:171-187 | the two viewers give different colours for an entry exactly when it lies strictly between 0x500 and 0x700, that is in band 5 past its first entry or in band 6 |
| GLView.VideoArrived | glview_documented.c:626-636 | the video callback makes the delivered buffer the cached one, keeps `rgb_active`, keeps the buffers distinct and leaves a frame pending |
| GLView.DepthArrived | glview_documented.c:614 | the depth callback changes no buffer role and leaves a depth frame pending |
| GLView.ClaimDepth | glview_documented.c:120-127 | a pending depth frame exchanges `depth_mid` and `depth_active` and zeroes `got_depth`; with none pending nothing changes |
| GLView.ClaimVideo | glview_documented.c:129-136 | a pending video frame exchanges `rgb_cache` and `rgb_active` and zeroes `got_rgb`; with none pending nothing changes |
| GLView.Claim | glview_documented.c:112-136 | with a format switch pending the draw changes nothing; otherwise both counters are zero afterwards, the same buffers stay, each in one role, and a stream with nothing pending keeps its roles |
| GLView.FormatSwitched | glview_documented.c:712-717 | after the capture thread's format step the current format is the requested one, with buffers and counters untouched |
| GLView.NextFormat | glview_documented.c:330-337 | the 'f' key always moves to a different format in the IR 8-bit, RGB, YUV-RGB cycle |
| GLView.FormatRequested | glview_documented.c:330-337 | 'f' changes only the requested format |
| GLView.FormatCycle | glview_documented.c:330-337 | three presses of 'f' return to the starting format of the cycle |
| GLView.WaitConditions | glview_documented.c:100-110 | in YUV-RGB mode the draw stops waiting exactly when a counter is non-zero; in the other modes it never waits while the formats agree, and when it waits the claim would change nothing |
| GLView.StepKeepsBuffers | glview_documented.c:112-136 | every critical section keeps the same buffers of both streams, each in one role |
| GLView.RunKeepsBuffers | glview_documented.c:95-139 | over any run of the four critical sections (the draw here, the depth and video callbacks at 550-640, the format step at 712-717) buffers are only rotated, never copied, duplicated or lost |
| GLView.DepthFramesKeepVideo | glview_documented.c:550-618 | depth deliveries leave the video roles, the video counter and the formats alone |
| GLView.DrawShowsLatestVideo | glview_documented.c:626-636 | when the formats agree, a draw after a video delivery shows the buffer that delivery filled, however many depth frames came in between |
| GLView.EachDeliveryClaimedAtMostOnce | glview_documented.c:129-136 | draws that claim a video frame, plus a frame still pending, never outnumber the video deliveries |
| GLView.SixBandFrame | glview_documented.c:559-610 | the painted depth frame has three bytes per sample |
| GLView.SixBandFrameAt | glview_documented.c:559-610 | bytes 3i, 3i+1 and 3i+2 of the painted frame are the colour of sample i, red first |
| GLView.IrBrightnessUp | glview_documented.c:376-380 | '+' sets a level of at most 50, and from a valid level one no lower |
| GLView.IrBrightnessDownAsWritten | glview_documented.c:383-387 | '-' as written yields a level of at least 1 that fits `uint16_t` |
| GLView.IrBrightnessDownWraps | glview_documented.c:383-387 | as written, '-' turns a reading of 1 into 65535 and a reading of 0 into 65534 |
| GLView.IrBrightnessDown | glview_documented.c:383-387 | '-' clamped before narrowing keeps a valid level in 1..50, lowers every level above 1, and agrees with the code wherever no wrap occurs |
| GLView.IrKeysKeepRange | glview_documented.c:376-387 | from a valid brightness '+' stays within 1..50; '-' as written stays within 1..50 exactly when the reading is above 1 and sends 65535 from 1; '-' clamped before narrowing always stays within 1..50 |
| GLView.CommandOfSelectsListedKeys | glview_documented.c:289-427 | each command is selected by exactly its listed keys ('4' and '5' both blink green), so no key fires two branches |
| GLView.TiltAfter | glview_documented.c:305-327 | 'w' raises the angle by one, 'x' lowers it by one, 's' levels it, all within ±30; other keys keep it |
| GLView.TiltUpDownCancel | glview_documented.c:305-327 | away from the limits, 'w' then 'x' (or 'x' then 'w') restores the angle |
| GLView.FlippedChangesOnlyThat | glview_documented.c:339-427 | a toggle key flips its own setting and no other |
| GLView.FlippedTwice | glview_documented.c:339-427 | pressing a toggle key twice restores every setting |
| GLView.CommandCallsDevice | glview_documented.c:339-433 | a key press calls the device unless it is Escape, 'f', 'o' or an ignored key |
| GLView.CommandCallsShape | glview_documented.c:339-433 | a key makes one device call ('m' makes two); a tilt key's call reports the new angle; from a valid reading '+' sets a level in 1..50, and '-' (as written) does so exactly when the reading is above 1, sending 65535 from a reading of 1 |
| GLView.FlagCallsReportNewValue | glview_documented.c:339-373 | every flag call reports the new value of its toggle, which differs from the old one |
| GLView.GLViewState.constructor | glview_documented.c:741-749 | start-up allocates five fresh frame-sized buffers, with RGB requested and current, no frame pending and the camera level |
| GLView.GLViewState.DepthCallback | glview_documented.c:550-618 | `depth_mid` becomes the six-band painting of the samples, `got_depth` grows by one, and no other buffer or role changes |
| GLView.GLViewState.RgbCallback | glview_documented.c:621-640 | requires the delivered buffer to be `rgb_kinect`; it becomes the cache, the old cache goes back to the device, and the hand-off invariant holds |
| GLView.GLViewState.DrawCriticalSection | glview_documented.c:112-139 | the draw's critical section has the effect of `Claim` and draws exactly when the formats agree |
| GLView.GLViewState.ClaimDepthFrame | glview_documented.c:120-127 | the depth exchange has the effect of `ClaimDepth` and keeps the hand-off invariant |
| GLView.GLViewState.ClaimVideoFrame | glview_documented.c:129-136 | the video exchange has the effect of `ClaimVideo` and keeps the hand-off invariant |
| GLView.GLViewState.SwitchVideoFormat | glview_documented.c:712-717 | the format step has the effect of `FormatSwitched` and restarts the stream exactly when a switch was pending |
| GLView.GLViewState.TiltKey | glview_documented.c:305-327 | the tilt keys move the angle as `TiltAfter` says and count exactly one tilt change |
| GLView.GLViewState.ToggleKey | glview_documented.c:339-427 | a toggle key flips its setting and reports the new value to the device |
| GLView.GLViewState.DeviceKey | glview_documented.c:376-418 | the brightness and LED keys make exactly the calls of `DeviceCalls`: '+' narrows then caps at 50, '-' narrows then clamps at 1, as written |
| GLView.GLViewState.KeyPressed | glview_documented.c:289-434 | Escape quits and changes nothing; otherwise the angle, the requested format and the toggles change as the key says, the calls are those of `CommandCalls`, `tilt_changed` is zero again and the angle stays within ±30 |
| HeadHunter.VideoResolutionToColumnsAndRows | kinect_opencv_head_hunter.cpp:235-265 | the status is 0 exactly for low, medium and high resolution, which give frames wider than tall; any other value returns -1 and leaves the out-parameters alone |
| HeadHunter.ResolutionsGrow | kinect_opencv_head_hunter.cpp:235-265 | a known resolution's result does not depend on the out-parameters' old values; the remaining clauses only relate the three constant sizes (medium doubles low, high doubles medium's width, 4:3 and 5:4) |
| HeadHunter.AtMostOneSuccessPerArrival | kinect_opencv_head_hunter.cpp:103-116 | a getter returns true at most once per callback, plus once for a frame already waiting |
| HeadHunter.RepeatedArrivalsOneSuccess | kinect_opencv_head_hunter.cpp:268-291 | any number of deliveries before the polls give exactly one successful poll |
| HeadHunter.MicrosoftKinect.constructor | kinect_opencv_head_hunter.cpp:76-94 | the constructor sets medium resolution, so both feeds are 640×480, the video feed is black and no frame is available |
| HeadHunter.MicrosoftKinect.WindowColumnAndRowCount | kinect_opencv_head_hunter.cpp:200-204 | the window size reported to `main` succeeds and equals the size of both feeds |
| HeadHunter.MicrosoftKinect.VideoCallback | kinect_opencv_head_hunter.cpp:268-278 | the video feed now shows the delivered buffer, and a frame is available |
| HeadHunter.MicrosoftKinect.DepthCallback | kinect_opencv_head_hunter.cpp:281-291 | the depth feed now shows the delivered buffer, and a frame is available |
| HeadHunter.MicrosoftKinect.GetBgrVideo | kinect_opencv_head_hunter.cpp:103-116 | with a frame available, the output gets every pixel with its channels reversed, the flag is cleared and the result is true; otherwise the result is false and the output is untouched |
| HeadHunter.MicrosoftKinect.GetDepthHeatMap | kinect_opencv_head_hunter.cpp:118-198 | with a frame available, every pixel gets the seven-band colour of its sample in blue, green, red order, the flag is cleared and the result is true; otherwise the result is false and the heat map is untouched |
| HeadHunter.TrackTilt | kinect_opencv_head_hunter.cpp:407-423 | the tilt stays within ±30; it rises only above the dead zone and falls only below it; it is unchanged inside the dead zone; it moves by one whenever there is room |
| HeadHunter.AverageWithinFaces | kinect_opencv_head_hunter.cpp:389-405 | the rounded-down average face row lies between the topmost and the bottommost face |
| HeadHunter.TrackFaces | kinect_opencv_head_hunter.cpp:383-424 | with no face the LED blinks red and yellow and the tilt is kept; otherwise the LED is set red once per face, the tilt follows `TrackTilt` on the average row, and a tilt call follows exactly when the average is outside the dead zone |

## Left out

- OpenGL and GLUT rendering, window setup and the texture upload after the critical section of `DrawGLScene`: graphics output.
- Threads, the mutexes and the condition variables: each critical section is one atomic method. The wait loops are the predicate `DrawWaits`.
- Device calls (tilt, LED, flags, IR brightness, stream start and stop): `KeyPressed` and `TrackFaces` return the calls they make as a sequence. The IR reading is a parameter.
- Building the gamma table with `powf` and `std::pow`, a floating-point computation: the table is a parameter of both constructors. It may hold any 2048 `uint16_t` values; the float-to-`uint16_t` conversion that fills it truncates.
- OpenCV face detection, resizing, grey conversion, rectangles and window display: the face rows and half the scaled image height are parameters of `TrackFaces`.
- `zak::waitKey`, the head hunter's key handling in `main`, screenshots and printing: terminal and file I/O.
- The accelerometer read-out in the capture thread: floating point and device I/O.
- GLView.GLViewState.DepthCallback: requires every sample to be below 2048, because the table has 2048 entries and the code indexes it directly.
- HeadHunter.MicrosoftKinect.GetDepthHeatMap: requires every sample to be below 2048 when a frame is available, for the same reason.
- HeadHunter.TrackFaces: does not model `int` overflow of the sum of face rows; it requires non-negative rows, as detected rectangles inside the image have. The source divides by the unsigned face count, which would turn a negative sum into a huge value.
- HeadHunter.TrackTilt: `tilt_degrees` is a `double` in the source, but it only ever holds whole numbers, so the model uses `int`.
- Counter overflow: `got_rgb` and `got_depth` are unbounded naturals. `int` overflow after 2^31 undrawn frames is not modelled.
- HeadHunter.MicrosoftKinect.VideoCallback: the feeds take the device's buffer by reference, as the source's `Mat` does. What the device writes into that buffer later is outside the model.

## Findings

| source | as written | input that shows it | evidently intended | confidence | as-written member | corrected member |
|---|---|---|---|---|---|---|
| glview_documented.c:383-387 | the '-' key stores `reading - 2` in a `uint16_t` before the `< 1` clamp, so the clamp only catches 0 | an IR reading of 1 gives 65535, and a reading of 0 gives 65534 | clamp to 1 before narrowing, so the level never leaves 1..50 | not executed | GLView.IrBrightnessDownAsWritten (shown by GLView.IrBrightnessDownWraps; the key handler `DeviceCalls` uses it) | GLView.IrBrightnessDown (its range proved in GLView.IrKeysKeepRange) |

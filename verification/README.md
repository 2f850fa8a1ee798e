# UVC capture adapter — a Dafny model

This project models `Camera_Capture`, the adapter that Pupil's video-capture
layer puts around a UVC camera handle, and proves properties of that model.
The adapter owns one capture handle and reports its name, frame size and frame
rate. It filters requested sizes through a quirk table for one camera model.
It picks the supported frame rate nearest to a requested one. It re-stamps
every retrieved frame from the software clock, or from the camera's hardware
clock when that is trusted, relative to a shared time base. It keeps a
"Camera Settings" menu in an application-owned sidebar.

Everything is pure: the adapter is an immutable `Adapter` record, each
operation returns a new record or a `Fault`, and the driver, the clocks and
the shared time-base value come in as parameters.

Modules:

- `Strings` models Python's substring test `sub in s`, with the lemma that
  it agrees with "some position starts an occurrence".
- `Lists` models the list operations the adapter uses: `index`, `insert`
  (an index past the end appends) and `remove` (the first equal element, or
  a ValueError when there is none).
- `FrameSizes` holds `filter_sizes` and the same rule read as an ordered
  quirk table.
- `FrameRates` models the `frame_rate` setter's `rates.index(min(distances))`
  choice.
- `Timestamps` covers time-base selection and the per-frame timestamp choice.
- `HwTimestamps` models the device-name heuristic `check_hw_ts_support`.
- `UvcCapture` holds the adapter itself: construction, `get_frame`, the
  property setters, the menu lifecycle, `re_init`, the device selector and
  `close`.

Behaviours of the code worth knowing:

- `close` called a second time raises AttributeError, because
  `del self.capture` finds no attribute. `UvcCapture.Close` models this, and
  `UvcCapture.CloseTwiceFails` states the consequence.
- `re_init` never updates `self.uid`. After a device switch, a capture error
  still names the previous device. `UvcCapture.ReInit` keeps `uid` as it was.
- `init_gui` does not check for a menu that is already attached. Attaching
  twice leaves the first menu in the sidebar with nothing pointing at it
  (`UvcCapture.InitGuiTwiceLeavesStaleMenu`). `re_init` avoids this by
  detaching first.
- `list.insert(1, menu)` on an empty sidebar puts the menu at index 0.
  `Lists.InsertPosition` models that clamping.

## Model

| member | source | states |
|---|---|---|
| Strings.ContainsIff | pupil_src/shared_modules/video_capture/uvc_capture.py:288 | the left-to-right scan used for `token in name` succeeds exactly when some position of the name starts an occurrence of the token |
| Lists.IndexOf | pupil_src/shared_modules/video_capture/uvc_capture.py:161 | `list.index` returns a position holding the value, with no earlier position holding it |
| Lists.InsertPosition | pupil_src/shared_modules/video_capture/uvc_capture.py:270 | the position `insert(1, menu)` uses is 1, or the end of the sidebar when it holds fewer than one entry |
| Lists.InsertAt | pupil_src/shared_modules/video_capture/uvc_capture.py:270 | `sidebar.insert(i, menu)` places the menu at `i`, or at the end when `i` is past it; everything before stays before and everything after stays after; the contents grow by exactly the menu |
| Lists.RemoveFirst | pupil_src/shared_modules/video_capture/uvc_capture.py:274 | `sidebar.remove(menu)` fails exactly when the menu is absent; otherwise it cuts out the first occurrence and nothing else |
| Lists.RemoveUndoesInsert | pupil_src/shared_modules/video_capture/uvc_capture.py:270-274 | removing a menu that was just inserted into a sidebar not holding it gives back the original sidebar |
| FrameSizes.FilterSizes | pupil_src/shared_modules/video_capture/uvc_capture.py:286-295 | the width is never changed; a size is changed only for a camera whose name contains "6000", and only for width 640 or 320 |
| FrameSizes.FilterSizesFollowsQuirkTable | pupil_src/shared_modules/video_capture/uvc_capture.py:286-295 | the filter equals the quirk table `[("6000", 640 -> 640x360), ("6000", 320 -> 320x160)]` evaluated first-match-wins, with pass-through when no rule matches |
| FrameSizes.FilterSizesIdempotent | pupil_src/shared_modules/video_capture/uvc_capture.py:286-295 | filtering an already filtered size changes nothing |
| FrameSizes.FilterSizesCaseTable | pupil_src/shared_modules/video_capture/uvc_capture.py:288-295 | for a "6000" camera, width 640 gives 640x360 and width 320 gives 320x160 whatever the height; for any other camera, every size passes through |
| FrameSizes.QuirkyCameraExample | pupil_src/shared_modules/video_capture/uvc_capture.py:288-294 | "HD-6000 Camera" turns 640x480 into 640x360 and 320x240 into 320x160 |
| FrameSizes.GenericCameraExample | pupil_src/shared_modules/video_capture/uvc_capture.py:288-295 | "Generic Camera" keeps 640x480 |
| FrameRates.MinOf | pupil_src/shared_modules/video_capture/uvc_capture.py:161 | `min` of a non-empty list is one of its elements and is no larger than any of them |
| FrameRates.Distances | pupil_src/shared_modules/video_capture/uvc_capture.py:160 | the distance list has one entry per supported rate, the absolute difference between that rate and the request |
| FrameRates.ChooseFrameRate | pupil_src/shared_modules/video_capture/uvc_capture.py:158-165 | an empty rate list fails; otherwise the chosen rate is in the list, no farther from the request than any other, strictly nearer than every earlier one, and the warning is given exactly when it differs from the request |
| FrameRates.NearestFirstUnique | pupil_src/shared_modules/video_capture/uvc_capture.py:160-162 | the nearest-first position is unique, so the tie-break to the smallest index fully determines the choice |
| FrameRates.ExactRateSelected | pupil_src/shared_modules/video_capture/uvc_capture.py:160-165 | a requested rate that is supported is chosen exactly, without the warning |
| HwTimestamps.CheckHwTsSupport | pupil_src/shared_modules/video_capture/uvc_capture.py:84-98 | hardware timestamps are trusted exactly when the device name contains "C930e", "Integrated Camera" or "USB 2.0 Camera" and no attached device's name contains "Microsoft" or "HD-6000" |
| Timestamps.ResolveTimebase | pupil_src/shared_modules/video_capture/uvc_capture.py:39-47 | only an argument carrying a `value` is kept as the shared time base; an absent or malformed one falls back to a private zero |
| Timestamps.TimebaseValue | pupil_src/shared_modules/video_capture/uvc_capture.py:147 | the epoch subtracted is zero for the private time base and the holder's current value for a shared one |
| Timestamps.SanitizeTimestamp | pupil_src/shared_modules/video_capture/uvc_capture.py:137-147 | untrusted: software clock minus epoch; trusted and within 2 s of the monotonic clock: hardware timestamp minus epoch; trusted and farther: monotonic clock minus epoch |
| Timestamps.TrustedTimestampWithinSkew | pupil_src/shared_modules/video_capture/uvc_capture.py:138-142 | with trusted hardware timestamps, the timestamp handed out (before the epoch is subtracted) is within 2 s of the monotonic reading taken for the check, or else is the monotonic reading taken for the substitute |
| Timestamps.SkewBoundaryKeepsHardwareTimestamp | pupil_src/shared_modules/video_capture/uvc_capture.py:140 | a hardware timestamp exactly 2 s from the monotonic clock is kept |
| Timestamps.UntrustedTimestampIgnoresHardware | pupil_src/shared_modules/video_capture/uvc_capture.py:143-147 | with untrusted hardware timestamps the frame's own timestamp has no influence |
| UvcCapture.Construct | pupil_src/shared_modules/video_capture/uvc_capture.py:37-71 | a new adapter keeps the given uid and the construction-time software clock, never trusts hardware timestamps, has no menu and no sidebar, holds the opened handle, and shares the time base exactly when the argument carried a value |
| UvcCapture.GetFrame | pupil_src/shared_modules/video_capture/uvc_capture.py:131-149 | fails with a capture error naming the adapter's uid exactly when retrieval fails or the handle is gone; otherwise only the timestamp changes, untrusted frames get the software clock minus the epoch, and trusted frames within the 2 s skew keep their hardware timestamp minus the epoch |
| UvcCapture.TrustedFrameNearMonotonic | pupil_src/shared_modules/video_capture/uvc_capture.py:137-148 | with trusted hardware timestamps, a retrieved frame's timestamp plus the epoch is within 2 s of the monotonic reading taken for the check, or else is the monotonic reading taken for the substitute |
| UvcCapture.FreshAdapterUsesSoftwareClock | pupil_src/shared_modules/video_capture/uvc_capture.py:143-148 | a newly built adapter stamps every frame with the software clock minus the holder's value, or minus zero when no holder was given |
| UvcCapture.FrameRate | pupil_src/shared_modules/video_capture/uvc_capture.py:154-156 | the getter reports the handle's current rate and fails once the handle is deleted |
| UvcCapture.SetFrameRate | pupil_src/shared_modules/video_capture/uvc_capture.py:157-165 | the setter succeeds exactly when the handle exists and lists at least one rate; it then applies the nearest-first supported rate and changes nothing else; otherwise it fails on the deleted handle or the empty rate list |
| UvcCapture.SetFrameRateRoundTrip | pupil_src/shared_modules/video_capture/uvc_capture.py:157-165 | setting a supported rate and reading it back gives that rate |
| UvcCapture.FrameSize | pupil_src/shared_modules/video_capture/uvc_capture.py:167-169 | the getter reports the handle's current size and fails once the handle is deleted |
| UvcCapture.SetFrameSize | pupil_src/shared_modules/video_capture/uvc_capture.py:170-172 | the setter keeps the requested width and changes nothing but the size; it fails on a deleted handle |
| UvcCapture.SetFrameSizeReadBack | pupil_src/shared_modules/video_capture/uvc_capture.py:170-172 | reading the size back gives the filtered request, and setting that read-back size again changes nothing |
| UvcCapture.InitGui | pupil_src/shared_modules/video_capture/uvc_capture.py:209-270 | fails on a deleted handle or a missing sidebar; otherwise the new menu becomes the adapter's menu and is inserted at index 1, or appended to an empty sidebar; the entries before that position (the general settings) stay in front in order, the entries after it follow in order, and the sidebar gains nothing else |
| UvcCapture.DeinitGui | pupil_src/shared_modules/video_capture/uvc_capture.py:272-275 | without a menu nothing changes; with one, it succeeds exactly when the sidebar holds the menu, and then the first occurrence is cut out with the other entries kept in order, and the reference is cleared |
| UvcCapture.InitGuiAttachesOnce | pupil_src/shared_modules/video_capture/uvc_capture.py:209-270 | a new menu ends up in the sidebar exactly once |
| UvcCapture.InitGuiTwiceLeavesStaleMenu | pupil_src/shared_modules/video_capture/uvc_capture.py:209-270 | attaching a second menu without detaching leaves the first one in the sidebar |
| UvcCapture.DeinitGuiIdempotent | pupil_src/shared_modules/video_capture/uvc_capture.py:272-275 | detaching twice has the same effect as detaching once |
| UvcCapture.DeinitGuiDetaches | pupil_src/shared_modules/video_capture/uvc_capture.py:272-275 | a menu attached once is gone from the sidebar after detaching |
| UvcCapture.DeinitGuiLeavesRest | pupil_src/shared_modules/video_capture/uvc_capture.py:272-275 | detaching removes exactly the menu's one entry and leaves the rest of the sidebar |
| UvcCapture.InitThenDeinitRestoresSidebar | pupil_src/shared_modules/video_capture/uvc_capture.py:268-275 | attaching a new menu and then detaching it restores the sidebar exactly |
| UvcCapture.ReInit | pupil_src/shared_modules/video_capture/uvc_capture.py:100-127 | succeeds exactly when the handle exists, a sidebar exists, and any current menu is in it; the new handle gets the previous size and rate, hardware timestamps are off, uid, time base and last timestamp are unchanged, and the sidebar is the detached one with the new menu inserted at index 1, the other entries in their order |
| UvcCapture.ReInitIgnoresSizeAndFps | pupil_src/shared_modules/video_capture/uvc_capture.py:100-113 | the `size` and `fps` arguments have no effect |
| UvcCapture.ReInitKeepsOneMenu | pupil_src/shared_modules/video_capture/uvc_capture.py:100-127 | afterwards exactly one menu, the new one, is attached; the old one is gone; every other sidebar entry stays |
| UvcCapture.ReInitTwiceKeepsOneMenu | pupil_src/shared_modules/video_capture/uvc_capture.py:100-127 | two switches in a row still leave exactly one menu, the latest, and none of the earlier ones |
| UvcCapture.SelectCamera | pupil_src/shared_modules/video_capture/uvc_capture.py:200-206 | a uid missing from the device list leaves the adapter unchanged; a listed one re-initialises with the default arguments |
| UvcCapture.SelectCameraKeepsOneMenu | pupil_src/shared_modules/video_capture/uvc_capture.py:200-206 | selecting a camera with a fresh menu always succeeds on an open adapter with a sidebar and keeps exactly one menu attached; the new menu is the current one exactly when the uid was listed |
| UvcCapture.Close | pupil_src/shared_modules/video_capture/uvc_capture.py:279-283 | succeeds exactly when the handle exists and the menu can be detached; on success the sidebar is the one detaching leaves, the menu reference is cleared, the handle is deleted, and nothing else changes; an already deleted handle fails |
| UvcCapture.CloseTwiceFails | pupil_src/shared_modules/video_capture/uvc_capture.py:279-283 | closing an open adapter succeeds and leaves no menu in the sidebar; closing it again fails |
| UvcCapture.GetFrameAsWritten | pupil_src/shared_modules/video_capture/uvc_capture.py:137-142 | the code as written fails in the skewed-hardware-timestamp branch and nowhere else beyond the capture error |
| UvcCapture.SkewedHardwareTimestampFailsAsWritten | pupil_src/shared_modules/video_capture/uvc_capture.py:140-142 | on a hardware timestamp more than 2 s off, the code as written fails while the corrected `GetFrame` substitutes the monotonic time |
| UvcCapture.GetFrameAsWrittenAgreesElsewhere | pupil_src/shared_modules/video_capture/uvc_capture.py:131-149 | outside that branch, the code as written and `GetFrame` agree |

## Findings

| source | as written | input that shows it | evidently intended | confidence | as-written member | corrected member |
|---|---|---|---|---|---|---|
| pupil_src/shared_modules/video_capture/uvc_capture.py:140-142 | the warning for a skewed hardware timestamp formats `self.src_id`, which `Camera_Capture` never assigns, so building the message raises AttributeError before the monotonic time is substituted | `use_hw_ts` true and a frame timestamp 3 s after the monotonic clock | log the warning and return the monotonic time minus the time base | medium, not executed (the attribute could be assigned from outside the class; the branch is unreachable while `use_hw_ts` is hard-set to false) | UvcCapture.GetFrameAsWritten (exhibited by UvcCapture.SkewedHardwareTimestampFailsAsWritten) | UvcCapture.GetFrame (UvcCapture.TrustedFrameNearMonotonic) |

## Left out

- The UVC driver is a parameter, not part of the model. This covers opening a handle for a uid, `get_frame_robust`, `device_list`, `get_sys_time_monotonic` and the handle's own format, rate and name. The opened handle, the retrieval outcome, the device list and the clock readings are arguments. A failure while opening a handle is not modelled.
- Writing a size or rate to the handle is modelled as storing it. A driver that adjusts or rejects the value is not modelled, so reading back after a set returns what was stored.
- The software clock `time()` and the monotonic clock are not modelled. Their readings are fields of `Clocks`. The monotonic clock is read twice, once for the check and once for the substitute, as the source does.
- Floating point is not modelled: timestamps, rates and the time base are mathematical reals. A time base given as a holder object is modelled by the kind of argument, and its value is read as a parameter at each frame.
- The pyglui widgets are not modelled. That means the selector and switch contents, `read_only`, `collapsed`, and the per-control closure loop (whose control list is hard-set to empty). The menu is an object identity (`Widget`). `if self.menu:` is read as "a menu is present", because the menu always holds its three fixed entries.
- Logging and the exception message texts are not modelled. One of those messages says "320,360" while the filter returns 320x160.
- The module-level version `assert` and all commented-out code are not modelled.
- Failures do not keep partial state. When an operation raises part-way, the model returns the fault and does not keep the fields assigned before it. For example, `init_gui` sets `self.menu` before reading the rate list.
- `_last_timestamp` is stored at construction and never read. It is kept as a field with no further property.
- `HwTimestamps.CheckHwTsSupport` takes the attached devices' names as given. The source reads them as `c.name`, while `init_gui` reads the same driver records as `c['name']`. Which form the driver supports is outside this model.
- The sidebar is not modelled as a shared list. In the source it is an application-owned list changed in place: `self.sidebar = sidebar` keeps the caller's object, and `insert` and `remove` change it. The model keeps a copy in `Adapter.sidebar`. Edits by the application or other plugins between calls can only be represented by the caller replacing that field.
- Several adapters sharing one time base, and the host's main loop, are not modelled. The model is sequential.

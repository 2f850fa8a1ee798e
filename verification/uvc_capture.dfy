/** The capture adapter: one camera handle, the time base, the timestamp
    policy and the settings menu it keeps in an application-owned sidebar. */
module UvcCapture {
  import opened Results
  import opened Reals
  import opened Lists
  import opened FrameSizes
  import opened FrameRates
  import opened Timestamps

  type Uid = string

  /** What the driver's capture handle reports: name, current format and
      rate, and the rates it supports. */
  datatype Capture = Capture(name: string, frameSize: Size, frameRate: real, frameRates: seq<real>)

  /** An entry of the sidebar; `id` stands for the entry's object identity. */
  datatype Widget = Widget(id: nat)

  /** An attached device as the driver enumerates it. */
  datatype Device = Device(uid: Uid, name: string)

  /** A retrieved frame: its timestamp and the image data it carries. */
  datatype Frame = Frame(timestamp: real, pixels: seq<int>)

  /** Why an operation fails. */
  datatype Fault =
    | CaptureError(uid: Uid)  // frame retrieval failed, named by the adapter's uid
    | CaptureReleased         // the capture handle was deleted by `Close`
    | NoSidebar               // the menu operations found no sidebar
    | MenuNotInSidebar        // the sidebar no longer holds the menu to remove
    | NoSupportedRates        // the driver listed no frame rates to choose from
    | NoSourceId              // a device-path attribute the adapter never sets was read

  /** The adapter's state. `capture` is `None` once `Close` has deleted it;
      `sidebar` is `None` until a menu was first attached. */
  datatype Adapter = Adapter(
    uid: Uid,
    timebase: Timebase,
    useHwTs: bool,
    lastTimestamp: real,
    capture: Option<Capture>,
    sidebar: Option<seq<Widget>>,
    menu: Option<Widget>)

  /** Index in the sidebar at which the menu goes: directly after the
      general settings. */
  const MenuIndex: nat := 1

  /** Arguments `ReInit` declares for the new device's format and rate. */
  const DefaultSize: Size := Size(640, 480)
  const DefaultFps: real := 30.0

  /** The menu, when there is one, sits in the sidebar exactly once. */
  predicate MenuAttachedOnce(a: Adapter)
  {
    a.menu.Some? ==> a.sidebar.Some? && multiset(a.sidebar.value)[a.menu.value] == 1
  }

  /** A new adapter over the handle the driver opened for `uid`; `now` is the
      software clock at construction. */
  function Construct(uid: Uid, timebase: TimebaseArg, now: real, handle: Capture): (a: Adapter)
    ensures a.uid == uid && a.lastTimestamp == now
    ensures !a.useHwTs && a.menu.None? && a.sidebar.None? && a.capture == Some(handle)
    ensures a.timebase.SharedHolder? <==> timebase.Holder?
    ensures MenuAttachedOnce(a)
  {
    Adapter(uid, ResolveTimebase(timebase), false, now, Some(handle), None, None)
  }

  // ---------------------------------------------------------------------
  // Frames

  /** One frame: `retrieved` is the driver's answer (`None` when it raised),
      `clocks` the clock readings, `holderValue` the shared time base's value
      at this moment. Only the timestamp of the frame is rewritten. */
  function GetFrame(a: Adapter, retrieved: Option<Frame>, clocks: Clocks, holderValue: real): (r: Result<Frame, Fault>)
    ensures r.Err? <==> a.capture.None? || retrieved.None?
    ensures r.Err? ==> r.error == CaptureError(a.uid)
    ensures r.Ok? ==> retrieved.Some? && r.value.pixels == retrieved.value.pixels
    ensures r.Ok? && !a.useHwTs ==> r.value.timestamp == clocks.now - TimebaseValue(a.timebase, holderValue)
    ensures r.Ok? && a.useHwTs && Abs(retrieved.value.timestamp - clocks.monoAtCheck) <= MaxHwSkew ==>
      r.value.timestamp == retrieved.value.timestamp - TimebaseValue(a.timebase, holderValue)
  {
    if a.capture.None? || retrieved.None? then Err(CaptureError(a.uid))
    else
      var f := retrieved.value;
      var t := SanitizeTimestamp(a.useHwTs, f.timestamp, clocks, TimebaseValue(a.timebase, holderValue));
      Ok(f.(timestamp := t))
  }

  /** `GetFrame` as the source writes it: the warning for a skewed hardware
      timestamp formats a device-path attribute the adapter never sets, so
      that branch fails instead of substituting the monotonic time. */
  function GetFrameAsWritten(a: Adapter, retrieved: Option<Frame>, clocks: Clocks, holderValue: real): (r: Result<Frame, Fault>)
    ensures r.Err? && r.error != NoSourceId <==> a.capture.None? || retrieved.None?
    ensures r == Err(NoSourceId) <==>
      a.capture.Some? && retrieved.Some? && a.useHwTs && Abs(retrieved.value.timestamp - clocks.monoAtCheck) > MaxHwSkew
  {
    if a.capture.None? || retrieved.None? then Err(CaptureError(a.uid))
    else
      var f := retrieved.value;
      if a.useHwTs && Abs(f.timestamp - clocks.monoAtCheck) > MaxHwSkew then Err(NoSourceId)
      else Ok(f.(timestamp := SanitizeTimestamp(a.useHwTs, f.timestamp, clocks, TimebaseValue(a.timebase, holderValue))))
  }

  /** A skewed hardware timestamp: the source fails where the monotonic time
      was meant to be substituted. */
  lemma SkewedHardwareTimestampFailsAsWritten(a: Adapter, f: Frame, clocks: Clocks, holderValue: real)
    requires a.capture.Some? && a.useHwTs
    requires Abs(f.timestamp - clocks.monoAtCheck) > MaxHwSkew
    ensures GetFrameAsWritten(a, Some(f), clocks, holderValue) == Err(NoSourceId)
    ensures GetFrame(a, Some(f), clocks, holderValue)
      == Ok(f.(timestamp := clocks.monoAtSubstitute - TimebaseValue(a.timebase, holderValue)))
  {
  }

  /** Off the skewed branch the source and the corrected model agree. */
  lemma GetFrameAsWrittenAgreesElsewhere(a: Adapter, retrieved: Option<Frame>, clocks: Clocks, holderValue: real)
    requires !(a.useHwTs && retrieved.Some? && Abs(retrieved.value.timestamp - clocks.monoAtCheck) > MaxHwSkew)
    ensures GetFrameAsWritten(a, retrieved, clocks, holderValue) == GetFrame(a, retrieved, clocks, holderValue)
  {
  }

  /** A frame stamped from trusted hardware timestamps is, relative to the
      epoch, within `MaxHwSkew` of the monotonic reading taken for the check,
      or else the monotonic reading taken for the substitute. */
  lemma TrustedFrameNearMonotonic(a: Adapter, f: Frame, clocks: Clocks, holderValue: real)
    requires a.capture.Some? && a.useHwTs
    ensures GetFrame(a, Some(f), clocks, holderValue).Ok?
    ensures var t := GetFrame(a, Some(f), clocks, holderValue).value.timestamp + TimebaseValue(a.timebase, holderValue);
            Abs(t - clocks.monoAtCheck) <= MaxHwSkew || t == clocks.monoAtSubstitute
  {
    TrustedTimestampWithinSkew(f.timestamp, clocks, TimebaseValue(a.timebase, holderValue));
  }

  /** A freshly built adapter stamps frames with the software clock minus the
      chosen time base: zero unless a holder was passed. */
  lemma FreshAdapterUsesSoftwareClock(uid: Uid, arg: TimebaseArg, t0: real, handle: Capture,
                                      f: Frame, clocks: Clocks, holderValue: real)
    ensures GetFrame(Construct(uid, arg, t0, handle), Some(f), clocks, holderValue)
      == Ok(f.(timestamp := clocks.now - (if arg.Holder? then holderValue else 0.0)))
  {
  }

  // ---------------------------------------------------------------------
  // Frame rate and frame size

  /** The driver-reported current rate. */
  function FrameRate(a: Adapter): (r: Result<real, Fault>)
    ensures r.Ok? <==> a.capture.Some?
    ensures r.Ok? ==> r.value == a.capture.value.frameRate
  {
    if a.capture.None? then Err(CaptureReleased) else Ok(a.capture.value.frameRate)
  }

  /** The `frame_rate` setter: applies the supported rate nearest to
      `requested`, the first of equally near ones. */
  function SetFrameRate(a: Adapter, requested: real): (r: Result<Adapter, Fault>)
    ensures r.Ok? <==> a.capture.Some? && |a.capture.value.frameRates| > 0
    ensures a.capture.None? ==> r == Err(CaptureReleased)
    ensures a.capture.Some? && |a.capture.value.frameRates| == 0 ==> r == Err(NoSupportedRates)
    ensures r.Ok? ==> a.capture.Some? && r.value.capture.Some?
    ensures r.Ok? ==> exists k :: IsNearestFirst(a.capture.value.frameRates, requested, k)
                                 && r.value.capture.value.frameRate == a.capture.value.frameRates[k]
    ensures r.Ok? ==> r.value == a.(capture := Some(a.capture.value.(frameRate := r.value.capture.value.frameRate)))
  {
    match a.capture
    case None => Err(CaptureReleased)
    case Some(c) =>
      match ChooseFrameRate(c.frameRates, requested)
      case None => Err(NoSupportedRates)
      case Some(choice) => Ok(a.(capture := Some(c.(frameRate := choice.selected))))
  }

  /** Setting a supported rate and reading it back gives that rate. */
  lemma SetFrameRateRoundTrip(a: Adapter, requested: real)
    requires a.capture.Some? && requested in a.capture.value.frameRates
    ensures SetFrameRate(a, requested).Ok?
    ensures FrameRate(SetFrameRate(a, requested).value) == Ok(requested)
  {
    ExactRateSelected(a.capture.value.frameRates, requested);
  }

  /** The driver-reported current format. */
  function FrameSize(a: Adapter): (r: Result<Size, Fault>)
    ensures r.Ok? <==> a.capture.Some?
    ensures r.Ok? ==> r.value == a.capture.value.frameSize
  {
    if a.capture.None? then Err(CaptureReleased) else Ok(a.capture.value.frameSize)
  }

  /** The `frame_size` setter: the request passes the quirk filter for this
      camera's name before it reaches the driver. */
  function SetFrameSize(a: Adapter, size: Size): (r: Result<Adapter, Fault>)
    ensures r.Ok? <==> a.capture.Some?
    ensures r.Err? ==> r.error == CaptureReleased
    ensures r.Ok? ==> r.value.capture.Some? && r.value.capture.value.frameSize.width == size.width
    ensures r.Ok? ==> r.value == a.(capture := Some(a.capture.value.(frameSize := r.value.capture.value.frameSize)))
  {
    match a.capture
    case None => Err(CaptureReleased)
    case Some(c) => Ok(a.(capture := Some(c.(frameSize := FilterSizes(c.name, size)))))
  }

  /** Reading the size back after setting it gives the filtered request, and
      setting what was read back changes nothing. */
  lemma SetFrameSizeReadBack(a: Adapter, size: Size)
    requires a.capture.Some?
    ensures FrameSize(SetFrameSize(a, size).value) == Ok(FilterSizes(a.capture.value.name, size))
    ensures SetFrameSize(SetFrameSize(a, size).value, FrameSize(SetFrameSize(a, size).value).value)
      == SetFrameSize(a, size)
  {
    FilterSizesIdempotent(a.capture.value.name, size);
  }

  // ---------------------------------------------------------------------
  // Settings menu

  /** Builds the settings menu `menu` (a new object) and inserts it into
      `sidebar` at `MenuIndex`. Reading the handle's rate list fails once the
      handle is deleted; inserting into a missing sidebar fails too. */
  function InitGui(a: Adapter, sidebar: Option<seq<Widget>>, menu: Widget): (r: Result<Adapter, Fault>)
    ensures r.Ok? <==> a.capture.Some? && sidebar.Some?
    ensures a.capture.None? ==> r == Err(CaptureReleased)
    ensures a.capture.Some? && sidebar.None? ==> r == Err(NoSidebar)
    ensures r.Ok? ==> r.value.menu == Some(menu) && r.value.sidebar.Some?
    ensures r.Ok? ==> multiset(r.value.sidebar.value) == multiset(sidebar.value) + multiset{menu}
    ensures r.Ok? ==> |r.value.sidebar.value| == |sidebar.value| + 1
    ensures r.Ok? ==> r.value.sidebar.value[InsertPosition(sidebar.value, MenuIndex)] == menu
    ensures r.Ok? ==> r.value.sidebar.value[..InsertPosition(sidebar.value, MenuIndex)]
                      == sidebar.value[..InsertPosition(sidebar.value, MenuIndex)]
    ensures r.Ok? ==> r.value.sidebar.value[InsertPosition(sidebar.value, MenuIndex) + 1..]
                      == sidebar.value[InsertPosition(sidebar.value, MenuIndex)..]
    ensures r.Ok? ==> r.value.(sidebar := a.sidebar, menu := a.menu) == a
  {
    if a.capture.None? then Err(CaptureReleased)
    else if sidebar.None? then Err(NoSidebar)
    else Ok(a.(sidebar := Some(InsertAt(sidebar.value, MenuIndex, menu)), menu := Some(menu)))
  }

  /** Detaches the menu, if there is one, and clears the reference. */
  function DeinitGui(a: Adapter): (r: Result<Adapter, Fault>)
    ensures a.menu.None? ==> r == Ok(a)
    ensures r.Ok? <==> a.menu.None? || (a.sidebar.Some? && a.menu.value in a.sidebar.value)
    ensures a.menu.Some? && a.sidebar.None? ==> r == Err(NoSidebar)
    ensures r.Ok? ==> r.value.menu.None? && r.value.(sidebar := a.sidebar, menu := a.menu) == a
    ensures r.Ok? && a.menu.Some? ==>
      r.value.sidebar.Some? && multiset(r.value.sidebar.value) == multiset(a.sidebar.value) - multiset{a.menu.value}
    ensures r.Ok? && a.menu.Some? ==>
      && a.sidebar.Some? && a.menu.value in a.sidebar.value && r.value.sidebar.Some?
      && r.value.sidebar.value == a.sidebar.value[..IndexOf(a.sidebar.value, a.menu.value)]
                                  + a.sidebar.value[IndexOf(a.sidebar.value, a.menu.value) + 1..]
  {
    match a.menu
    case None => Ok(a)
    case Some(m) =>
      match a.sidebar
      case None => Err(NoSidebar)
      case Some(s) =>
        match RemoveFirst(s, m)
        case None => Err(MenuNotInSidebar)
        case Some(rest) => Ok(a.(sidebar := Some(rest), menu := None))
  }

  /** Attaching a new menu makes it the only copy in the sidebar. */
  lemma InitGuiAttachesOnce(a: Adapter, sidebar: seq<Widget>, menu: Widget)
    requires a.capture.Some? && menu !in sidebar
    ensures InitGui(a, Some(sidebar), menu).Ok?
    ensures MenuAttachedOnce(InitGui(a, Some(sidebar), menu).value)
  {
    assert multiset(sidebar)[menu] == 0;
  }

  /** Attaching twice without detaching leaves the first menu behind in the
      sidebar, unreferenced: what `ReInit` avoids by detaching first. */
  lemma InitGuiTwiceLeavesStaleMenu(a: Adapter, sidebar: seq<Widget>, m1: Widget, m2: Widget)
    requires a.capture.Some? && m1 != m2
    ensures InitGui(a, Some(sidebar), m1).Ok?
    ensures var b := InitGui(a, Some(sidebar), m1).value;
            InitGui(b, b.sidebar, m2).Ok?
            && m1 in InitGui(b, b.sidebar, m2).value.sidebar.value
            && InitGui(b, b.sidebar, m2).value.menu == Some(m2)
  {
    var b := InitGui(a, Some(sidebar), m1).value;
    var c := InitGui(b, b.sidebar, m2).value;
    assert multiset(c.sidebar.value)[m1] >= 1;
  }

  /** Detaching twice is the same as detaching once. */
  lemma DeinitGuiIdempotent(a: Adapter)
    requires DeinitGui(a).Ok?
    ensures DeinitGui(DeinitGui(a).value) == DeinitGui(a)
  {
  }

  /** Detaching a menu attached once leaves no copy of it behind. */
  lemma DeinitGuiDetaches(a: Adapter)
    requires MenuAttachedOnce(a) && a.menu.Some?
    ensures DeinitGui(a).Ok?
    ensures a.menu.value !in DeinitGui(a).value.sidebar.value
  {
    assert a.menu.value in multiset(a.sidebar.value);
    var rest := DeinitGui(a).value.sidebar.value;
    assert multiset(rest)[a.menu.value] == 0;
  }

  /** Detaching a menu attached once takes exactly that one entry out. */
  lemma DeinitGuiLeavesRest(a: Adapter)
    requires MenuAttachedOnce(a) && a.sidebar.Some?
    ensures DeinitGui(a).Ok? && DeinitGui(a).value.sidebar.Some?
    ensures multiset(DeinitGui(a).value.sidebar.value)
      == multiset(a.sidebar.value) - (if a.menu.Some? then multiset{a.menu.value} else multiset{})
  {
    if a.menu.Some? {
      assert a.menu.value in multiset(a.sidebar.value);
    }
  }

  /** Detaching right after attaching a new menu restores the sidebar as it was. */
  lemma InitThenDeinitRestoresSidebar(a: Adapter, sidebar: seq<Widget>, menu: Widget)
    requires a.capture.Some? && menu !in sidebar
    ensures InitGui(a, Some(sidebar), menu).Ok?
    ensures DeinitGui(InitGui(a, Some(sidebar), menu).value) == Ok(a.(sidebar := Some(sidebar), menu := None))
  {
    RemoveUndoesInsert(sidebar, MenuIndex, menu);
  }

  // ---------------------------------------------------------------------
  // Re-initialisation and closing

  /** Switches to the handle `handle` the driver returned for `uid`: keeps the
      current format and rate, detaches the menu and attaches the new `menu`
      to the same sidebar. `size` and `fps` are accepted and not used, and the
      adapter's `uid` is left as it was. */
  function ReInit(a: Adapter, uid: Uid, size: Size, fps: real, handle: Capture, menu: Widget): (r: Result<Adapter, Fault>)
    ensures r.Ok? <==> a.capture.Some? && a.sidebar.Some? && (a.menu.Some? ==> a.menu.value in a.sidebar.value)
    ensures r.Ok? ==> r.value.capture == Some(handle.(frameSize := a.capture.value.frameSize,
                                                       frameRate := a.capture.value.frameRate))
    ensures r.Ok? ==> !r.value.useHwTs && r.value.uid == a.uid && r.value.timebase == a.timebase
    ensures r.Ok? ==> r.value.menu == Some(menu) && r.value.lastTimestamp == a.lastTimestamp
    ensures r.Ok? ==> DeinitGui(a).Ok?
                      && r.value.sidebar == Some(InsertAt(DeinitGui(a).value.sidebar.value, MenuIndex, menu))
  {
    match a.capture
    case None => Err(CaptureReleased)
    case Some(current) =>
      match DeinitGui(a.(capture := None))
      case Err(e) => Err(e)
      case Ok(bare) =>
        var reopened := bare.(useHwTs := false,
                              capture := Some(handle.(frameSize := current.frameSize, frameRate := current.frameRate)));
        InitGui(reopened, reopened.sidebar, menu)
  }

  /** The declared `size` and `fps` make no difference. */
  lemma ReInitIgnoresSizeAndFps(a: Adapter, uid: Uid, s1: Size, f1: real, s2: Size, f2: real,
                                handle: Capture, menu: Widget)
    ensures ReInit(a, uid, s1, f1, handle, menu) == ReInit(a, uid, s2, f2, handle, menu)
  {
  }

  /** Re-initialising with a new menu swaps it for the old one: exactly one
      menu is attached afterwards and every other entry stays. */
  lemma ReInitKeepsOneMenu(a: Adapter, uid: Uid, size: Size, fps: real, handle: Capture, menu: Widget)
    requires MenuAttachedOnce(a) && a.capture.Some? && a.sidebar.Some?
    requires menu !in a.sidebar.value
    ensures ReInit(a, uid, size, fps, handle, menu).Ok?
    ensures var b := ReInit(a, uid, size, fps, handle, menu).value;
            && MenuAttachedOnce(b)
            && (a.menu.Some? ==> a.menu.value !in b.sidebar.value)
            && multiset(b.sidebar.value) ==
               multiset(a.sidebar.value) - (if a.menu.Some? then multiset{a.menu.value} else multiset{}) + multiset{menu}
  {
    var s := a.sidebar.value;
    var released := a.(capture := None);
    DeinitGuiLeavesRest(released);
    var bare := DeinitGui(released).value;
    var reopened := bare.(useHwTs := false,
                          capture := Some(handle.(frameSize := a.capture.value.frameSize,
                                                  frameRate := a.capture.value.frameRate)));
    assert ReInit(a, uid, size, fps, handle, menu) == InitGui(reopened, reopened.sidebar, menu);
    DetachedSidebarCounts(a, bare.sidebar.value, menu);
    InitGuiAttachesOnce(reopened, bare.sidebar.value, menu);
    var b := InitGui(reopened, reopened.sidebar, menu).value;
    assert multiset(b.sidebar.value) == multiset(bare.sidebar.value) + multiset{menu};
    if a.menu.Some? {
      assert multiset(b.sidebar.value)[a.menu.value] == 0;
    }
  }

  /** After the old menu's one entry is taken out, neither the old menu nor a
      menu the sidebar never held is left in it. */
  lemma DetachedSidebarCounts(a: Adapter, rest: seq<Widget>, menu: Widget)
    requires MenuAttachedOnce(a) && a.sidebar.Some? && menu !in a.sidebar.value
    requires multiset(rest) == multiset(a.sidebar.value) - (if a.menu.Some? then multiset{a.menu.value} else multiset{})
    ensures menu !in rest
    ensures a.menu.Some? ==> a.menu.value !in rest && a.menu.value != menu
  {
    assert multiset(a.sidebar.value)[menu] == 0;
    assert multiset(rest)[menu] == 0;
    if a.menu.Some? {
      assert multiset(rest)[a.menu.value] == 0;
    }
  }

  /** Two re-initialisations in a row still leave exactly one menu: the
      latest one. */
  lemma ReInitTwiceKeepsOneMenu(a: Adapter, uid1: Uid, uid2: Uid, handle1: Capture, handle2: Capture,
                                m1: Widget, m2: Widget)
    requires MenuAttachedOnce(a) && a.capture.Some? && a.sidebar.Some?
    requires m1 !in a.sidebar.value && m2 !in a.sidebar.value && m1 != m2
    ensures ReInit(a, uid1, DefaultSize, DefaultFps, handle1, m1).Ok?
    ensures var b := ReInit(a, uid1, DefaultSize, DefaultFps, handle1, m1).value;
            && ReInit(b, uid2, DefaultSize, DefaultFps, handle2, m2).Ok?
            && var c := ReInit(b, uid2, DefaultSize, DefaultFps, handle2, m2).value;
               MenuAttachedOnce(c) && c.menu == Some(m2) && m1 !in c.sidebar.value
  {
    ReInitKeepsOneMenu(a, uid1, DefaultSize, DefaultFps, handle1, m1);
    var b := ReInit(a, uid1, DefaultSize, DefaultFps, handle1, m1).value;
    assert multiset(a.sidebar.value)[m2] == 0;
    assert multiset(b.sidebar.value)[m2] == 0;
    ReInitKeepsOneMenu(b, uid2, DefaultSize, DefaultFps, handle2, m2);
  }

  /** The device selector's action: re-initialises with the chosen uid when
      the driver still lists it, and does nothing otherwise. */
  function SelectCamera(a: Adapter, requested: Uid, devices: seq<Device>, handle: Capture, menu: Widget): (r: Result<Adapter, Fault>)
    ensures (forall i :: 0 <= i < |devices| ==> devices[i].uid != requested) ==> r == Ok(a)
    ensures (exists i :: 0 <= i < |devices| && devices[i].uid == requested) ==>
      r == ReInit(a, requested, DefaultSize, DefaultFps, handle, menu)
  {
    if exists i :: 0 <= i < |devices| && devices[i].uid == requested then
      ReInit(a, requested, DefaultSize, DefaultFps, handle, menu)
    else
      Ok(a)
  }

  /** Choosing a camera from the selector, listed or not, keeps exactly one
      menu in the sidebar when a fresh menu is built for the new device. */
  lemma SelectCameraKeepsOneMenu(a: Adapter, requested: Uid, devices: seq<Device>, handle: Capture, menu: Widget)
    requires MenuAttachedOnce(a) && a.capture.Some? && a.sidebar.Some?
    requires menu !in a.sidebar.value
    ensures SelectCamera(a, requested, devices, handle, menu).Ok?
    ensures var b := SelectCamera(a, requested, devices, handle, menu).value;
            && MenuAttachedOnce(b)
            && (b.menu == Some(menu) <==> exists i :: 0 <= i < |devices| && devices[i].uid == requested)
  {
    if exists i :: 0 <= i < |devices| && devices[i].uid == requested {
      ReInitKeepsOneMenu(a, requested, DefaultSize, DefaultFps, handle, menu);
    } else {
      assert a.menu != Some(menu) by {
        if a.menu.Some? {
          assert multiset(a.sidebar.value)[a.menu.value] == 1;
        }
      }
    }
  }

  /** Detaches the menu and deletes the capture handle. */
  function Close(a: Adapter): (r: Result<Adapter, Fault>)
    ensures r.Ok? <==> a.capture.Some? && DeinitGui(a).Ok?
    ensures a.capture.None? && DeinitGui(a).Ok? ==> r == Err(CaptureReleased)
    ensures r.Ok? ==> r.value.sidebar == DeinitGui(a).value.sidebar
    ensures r.Ok? ==> a.capture.Some? && r.value.capture.None? && r.value.menu.None?
    ensures r.Ok? ==> r.value.(capture := a.capture, sidebar := a.sidebar, menu := a.menu) == a
  {
    match DeinitGui(a)
    case Err(e) => Err(e)
    case Ok(b) => if b.capture.None? then Err(CaptureReleased) else Ok(b.(capture := None))
  }

  /** Closing an open adapter detaches its menu and succeeds; closing it a
      second time fails, because the handle is already gone. */
  lemma CloseTwiceFails(a: Adapter)
    requires MenuAttachedOnce(a) && a.capture.Some?
    ensures Close(a).Ok?
    ensures a.menu.Some? ==> a.menu.value !in Close(a).value.sidebar.value
    ensures Close(Close(a).value) == Err(CaptureReleased)
  {
    if a.menu.Some? {
      DeinitGuiDetaches(a);
    }
  }
}

/** The device-name heuristic deciding whether hardware timestamps can be trusted. */
module HwTimestamps {
  import opened Strings

  /** Attached devices whose presence rules hardware timestamps out. */
  const Blacklist: seq<string> := ["Microsoft", "HD-6000"]

  /** Devices known to report usable hardware timestamps. */
  const QualifyingDevices: seq<string> := ["C930e", "Integrated Camera", "USB 2.0 Camera"]

  /** The heuristic stated outright: the capture device qualifies and no
      attached device is blacklisted. */
  predicate TrustsHwTimestamps(name: string, attached: seq<string>)
  {
    && AnyContains(name, QualifyingDevices)
    && forall i :: 0 <= i < |attached| ==> !AnyContains(attached[i], Blacklist)
  }

  /** The decision as the source takes it: start from the allow-list test,
      then clear the flag for every blacklisted attached device. */
  method CheckHwTsSupport(name: string, attached: seq<string>) returns (useHwTs: bool)
    ensures useHwTs <==> TrustsHwTimestamps(name, attached)
  {
    useHwTs := AnyContains(name, QualifyingDevices);
    var i := 0;
    while i < |attached|
      invariant 0 <= i <= |attached|
      invariant useHwTs <==> AnyContains(name, QualifyingDevices)
                               && forall j :: 0 <= j < i ==> !AnyContains(attached[j], Blacklist)
    {
      if AnyContains(attached[i], Blacklist) {
        useHwTs := false;
      }
      i := i + 1;
    }
  }
}

/** The shared time base and the timestamp choice made for every retrieved frame. */
module Timestamps {
  import opened Reals

  /** What the constructor receives as its `timebase` argument: nothing, an
      object carrying a `value`, or something without one. */
  datatype TimebaseArg = Absent | Holder | Malformed

  /** The epoch an adapter subtracts: a private zero, or the value of a
      caller-owned holder read afresh at every frame. */
  datatype Timebase = SystemZero | SharedHolder

  /** The constructor's fallback: only an object with a `value` is kept; an
      absent or malformed argument gives a zero time base. */
  function ResolveTimebase(arg: TimebaseArg): (tb: Timebase)
    ensures tb.SharedHolder? <==> arg.Holder?
  {
    match arg
    case Absent => SystemZero
    case Holder => SharedHolder
    case Malformed => SystemZero
  }

  /** The epoch in force at a frame, given the holder's value at that moment. */
  function TimebaseValue(tb: Timebase, holderValue: real): (v: real)
    ensures tb.SystemZero? ==> v == 0.0
    ensures tb.SharedHolder? ==> v == holderValue
  {
    match tb
    case SystemZero => 0.0
    case SharedHolder => holderValue
  }

  /** The clock readings taken while one frame is stamped: the software
      clock, and the monotonic clock at the sanity check and again when it is
      substituted (the driver is asked twice). */
  datatype Clocks = Clocks(now: real, monoAtCheck: real, monoAtSubstitute: real)

  /** Largest tolerated distance, in seconds, between a hardware timestamp
      and the monotonic clock. */
  const MaxHwSkew: real := 2.0

  /** The timestamp a frame leaves with, relative to the epoch `timebase`. */
  function SanitizeTimestamp(useHwTs: bool, hwTs: real, clocks: Clocks, timebase: real): (t: real)
    ensures !useHwTs ==> t == clocks.now - timebase
    ensures useHwTs && Abs(hwTs - clocks.monoAtCheck) <= MaxHwSkew ==> t == hwTs - timebase
    ensures useHwTs && Abs(hwTs - clocks.monoAtCheck) > MaxHwSkew ==> t == clocks.monoAtSubstitute - timebase
  {
    var raw :=
      if !useHwTs then clocks.now
      else if Abs(hwTs - clocks.monoAtCheck) > MaxHwSkew then clocks.monoAtSubstitute
      else hwTs;
    raw - timebase
  }

  /** With hardware timestamps trusted, the timestamp handed out (before the
      epoch is subtracted) is within `MaxHwSkew` of the monotonic reading
      taken for the check, or else is the monotonic reading taken for the
      substitute. */
  lemma TrustedTimestampWithinSkew(hwTs: real, clocks: Clocks, timebase: real)
    ensures var t := SanitizeTimestamp(true, hwTs, clocks, timebase) + timebase;
            Abs(t - clocks.monoAtCheck) <= MaxHwSkew || t == clocks.monoAtSubstitute
  {
  }

  /** A hardware timestamp exactly `MaxHwSkew` away is still kept. */
  lemma SkewBoundaryKeepsHardwareTimestamp(hwTs: real, clocks: Clocks, timebase: real)
    requires Abs(hwTs - clocks.monoAtCheck) == MaxHwSkew
    ensures SanitizeTimestamp(true, hwTs, clocks, timebase) == hwTs - timebase
  {
  }

  /** With hardware timestamps untrusted the frame's own timestamp plays no part. */
  lemma UntrustedTimestampIgnoresHardware(hwTs1: real, hwTs2: real, clocks: Clocks, timebase: real)
    ensures SanitizeTimestamp(false, hwTs1, clocks, timebase) == SanitizeTimestamp(false, hwTs2, clocks, timebase)
  {
  }
}

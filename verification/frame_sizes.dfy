/** The frame-size quirk filter applied before a size reaches the driver. */
module FrameSizes {
  import opened Strings

  /** A capture format's `(width, height)` in pixels. */
  datatype Size = Size(width: int, height: int)

  /** The device-name token that marks the quirky camera model. */
  const QuirkToken: string := "6000"

  /** Rewrites a requested size for cameras whose name contains `QuirkToken`:
      width 640 is forced to 640x360 and width 320 to 320x160; every other
      request is passed through. */
  function FilterSizes(camName: string, size: Size): (r: Size)
    ensures r.width == size.width
    ensures r != size ==> Contains(camName, QuirkToken) && (size.width == 640 || size.width == 320)
  {
    if Contains(camName, QuirkToken) then
      if size.width == 640 then Size(640, 360)
      else if size.width == 320 then Size(320, 160)
      else size
    else size
  }

  /** One entry of the quirk table: for a camera whose name contains
      `nameToken`, a request of width `width` becomes `forced`. */
  datatype QuirkRule = QuirkRule(nameToken: string, width: int, forced: Size)

  /** The known quirks, in the order they are tried. */
  const QuirkTable: seq<QuirkRule> := [
    QuirkRule(QuirkToken, 640, Size(640, 360)),
    QuirkRule(QuirkToken, 320, Size(320, 160))
  ]

  /** Ordered rule evaluation: the first rule that matches decides; a request
      no rule matches is passed through. */
  function ApplyQuirks(rules: seq<QuirkRule>, camName: string, size: Size): (r: Size)
    ensures r == size || exists k :: 0 <= k < |rules| && r == rules[k].forced
  {
    if |rules| == 0 then size
    else if Contains(camName, rules[0].nameToken) && size.width == rules[0].width then rules[0].forced
    else
      var r := ApplyQuirks(rules[1..], camName, size);
      assert r != size ==> exists k :: 0 <= k < |rules[1..]| && r == rules[1..][k].forced;
      assert forall k :: 0 <= k < |rules[1..]| ==> rules[1..][k] == rules[k + 1];
      r
  }

  /** The filter is exactly the quirk table read as an ordered rule list. */
  lemma FilterSizesFollowsQuirkTable(camName: string, size: Size)
    ensures FilterSizes(camName, size) == ApplyQuirks(QuirkTable, camName, size)
  {
    assert QuirkTable[1..] == [QuirkRule(QuirkToken, 320, Size(320, 160))];
    assert QuirkTable[1..][1..] == [];
  }

  /** Filtering an already filtered size changes nothing. */
  lemma FilterSizesIdempotent(camName: string, size: Size)
    ensures FilterSizes(camName, FilterSizes(camName, size)) == FilterSizes(camName, size)
  {
  }

  /** The quirky model's two forced formats, and the pass-through for any
      other camera. */
  lemma FilterSizesCaseTable(camName: string, height: int)
    ensures Contains(camName, QuirkToken) ==> FilterSizes(camName, Size(640, height)) == Size(640, 360)
    ensures Contains(camName, QuirkToken) ==> FilterSizes(camName, Size(320, height)) == Size(320, 160)
    ensures !Contains(camName, QuirkToken) ==> forall w :: FilterSizes(camName, Size(w, height)) == Size(w, height)
  {
  }

  /** An "HD-6000" camera gets the forced formats. */
  lemma QuirkyCameraExample()
    ensures FilterSizes("HD-6000 Camera", Size(640, 480)) == Size(640, 360)
    ensures FilterSizes("HD-6000 Camera", Size(320, 240)) == Size(320, 160)
  {
    assert "HD-6000 Camera"[3..7] == QuirkToken;
    ContainsAt("HD-6000 Camera", QuirkToken, 3);
  }

  /** A camera without the token is passed through. */
  lemma GenericCameraExample()
    ensures FilterSizes("Generic Camera", Size(640, 480)) == Size(640, 480)
  {
    MissingFirstCharacter("Generic Camera", QuirkToken);
  }
}

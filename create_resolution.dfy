/** The "add custom resolution" form (src/renderer/src/components/pages/createResolution.tsx):
    `handleAddResolution` checks the three text fields in a fixed order and either reports one
    error or hands the raw strings to `onAddResolution`. */
module CreateResolution {
  import opened Interfaces
  import opened Decimal

  /** The error notifications, in the order the guards test them. */
  datatype AddError = MissingDimensions | NotNumbers | NotPositive | BadRefreshRate | AlreadyExists

  /** The single effect of one click: the callback with the raw strings, or one error. */
  datatype AddOutcome = Added(width: string, height: string, refreshRate: string) | Rejected(error: AddError)

  /** The error notification's description. */
  function Description(e: AddError): string {
    match e
    case MissingDimensions => "Please enter width and height"
    case NotNumbers => "Width and height must be numbers"
    case NotPositive => "Width and height must be positive numbers"
    case BadRefreshRate => "Refresh rate must be a positive number"
    case AlreadyExists => "Resolution already exists"
  }

  /** The `some` test of lines 71-76: with no refresh rate any entry of the same size matches,
      with one only an entry of the same size carrying that exact refresh rate. */
  predicate Duplicate(r: Resolution, width: int, height: int, rate: Option<int>) {
    r.width == width && r.height == height && (rate.None? || r.refreshRate == rate)
  }

  predicate Exists(resolutions: seq<Resolution>, width: int, height: int, rate: Option<int>) {
    exists i :: 0 <= i < |resolutions| && Duplicate(resolutions[i], width, height, rate)
  }

  /** `handleAddResolution` (lines 36-104) against the catalogue `appData.resolutions`. */
  function HandleAddResolution(width: string, height: string, refreshRate: string, resolutions: seq<Resolution>): AddOutcome {
    if width != "" && height != "" then
      var widthNum := ParseInt(width);
      var heightNum := ParseInt(height);
      var refreshRateNum := if refreshRate != "" then ParseInt(refreshRate) else None;
      if widthNum.None? || heightNum.None? then Rejected(NotNumbers)
      else if widthNum.value <= 0 || heightNum.value <= 0 then Rejected(NotPositive)
      else if refreshRate != "" && (refreshRateNum.None? || refreshRateNum.value <= 0) then Rejected(BadRefreshRate)
      else if Exists(resolutions, widthNum.value, heightNum.value, refreshRateNum) then Rejected(AlreadyExists)
      else Added(width, height, refreshRate)
    else Rejected(MissingDimensions)
  }

  /** The fields are acceptable on their own: both sizes are positive integers and a given
      refresh rate is a positive integer. */
  predicate FieldsValid(width: string, height: string, refreshRate: string) {
    width != "" && height != "" && ParseInt(width).Some? && ParseInt(height).Some?
    && ParseInt(width).value > 0 && ParseInt(height).value > 0
    && (refreshRate == "" || (ParseInt(refreshRate).Some? && ParseInt(refreshRate).value > 0))
  }

  /** The refresh rate the duplicate test compares with. */
  function RequestedRate(refreshRate: string): Option<int> {
    if refreshRate == "" then None else ParseInt(refreshRate)
  }

  /** Each error is reported exactly when every earlier guard passed and its own failed; the
      callback runs exactly when all guards pass, and gets the strings as typed. */
  lemma HandleAddResolutionCases(width: string, height: string, refreshRate: string, resolutions: seq<Resolution>)
    ensures var o := HandleAddResolution(width, height, refreshRate, resolutions);
      && (o == Rejected(MissingDimensions) <==> width == "" || height == "")
      && (o == Rejected(NotNumbers) <==>
        (width != "" && height != "" && (ParseInt(width).None? || ParseInt(height).None?)))
      && (o == Rejected(NotPositive) <==>
        (width != "" && height != "" && ParseInt(width).Some? && ParseInt(height).Some?
        && (ParseInt(width).value <= 0 || ParseInt(height).value <= 0)))
      && (o == Rejected(BadRefreshRate) <==>
        (width != "" && height != "" && ParseInt(width).Some? && ParseInt(height).Some?
        && ParseInt(width).value > 0 && ParseInt(height).value > 0
        && refreshRate != "" && (ParseInt(refreshRate).None? || ParseInt(refreshRate).value <= 0)))
      && (o == Rejected(AlreadyExists) <==>
        (FieldsValid(width, height, refreshRate)
        && Exists(resolutions, ParseInt(width).value, ParseInt(height).value, RequestedRate(refreshRate))))
      && (o.Added? <==>
        (FieldsValid(width, height, refreshRate)
        && !Exists(resolutions, ParseInt(width).value, ParseInt(height).value, RequestedRate(refreshRate))))
      && (o.Added? ==> o == Added(width, height, refreshRate))
  {
  }

  /** `handleOnAddResolution` (src/renderer/src/App.tsx:140-151): the record the callback
      builds from the strings with `parseInt`; the refresh rate is set only for a non-empty
      field. The favourites page's edit form builds its record the same way. `None` stands for
      a record with a NaN field, which the model does not hold. */
  function ToAdd(width: string, height: string, refreshRate: string): (r: Option<Resolution>)
    ensures r.Some? ==> ParseInt(width) == Some(r.value.width) && ParseInt(height) == Some(r.value.height)
    ensures r.Some? ==> (refreshRate == "" <==> r.value.refreshRate.None?)
    ensures r.Some? && refreshRate != "" ==> r.value.refreshRate == ParseInt(refreshRate)
    ensures r.None? <==> ParseInt(width).None? || ParseInt(height).None?
                         || (refreshRate != "" && ParseInt(refreshRate).None?)
  {
    var w := ParseInt(width);
    var h := ParseInt(height);
    if w.None? || h.None? then None
    else if refreshRate == "" then Some(Resolution(w.value, h.value, None))
    else if ParseInt(refreshRate).None? then None
    else Some(Resolution(w.value, h.value, ParseInt(refreshRate)))
  }

  /** What an accepted click adds is a well-formed record that is not already in the
      catalogue. */
  lemma AddedIsNew(width: string, height: string, refreshRate: string, resolutions: seq<Resolution>)
    requires HandleAddResolution(width, height, refreshRate, resolutions).Added?
    ensures ToAdd(width, height, refreshRate).Some?
    ensures var r := ToAdd(width, height, refreshRate).value;
      r.width > 0 && r.height > 0 && (r.refreshRate.None? || r.refreshRate.value > 0)
      && r !in resolutions
  {
  }

  /** Without a refresh rate, any entry of the same size blocks the add, whatever its rate. */
  lemma PlainSizeBlockedByAnyRate(width: string, height: string, resolutions: seq<Resolution>, i: nat)
    requires FieldsValid(width, height, "")
    requires i < |resolutions| && resolutions[i].width == ParseInt(width).value
    requires resolutions[i].height == ParseInt(height).value
    ensures HandleAddResolution(width, height, "", resolutions) == Rejected(AlreadyExists)
  {
    assert Duplicate(resolutions[i], ParseInt(width).value, ParseInt(height).value, None);
  }

  /** With a refresh rate, entries of the same size but another (or no) rate do not block it. */
  lemma RatedSizeNotBlockedByOtherRates(width: string, height: string, refreshRate: string, resolutions: seq<Resolution>)
    requires FieldsValid(width, height, refreshRate) && refreshRate != ""
    requires forall i :: 0 <= i < |resolutions| ==> resolutions[i].refreshRate != ParseInt(refreshRate)
    ensures HandleAddResolution(width, height, refreshRate, resolutions) == Added(width, height, refreshRate)
  {
    NoExactDuplicate(resolutions, ParseInt(width).value, ParseInt(height).value, ParseInt(refreshRate));
    assert RequestedRate(refreshRate) == ParseInt(refreshRate);
    HandleAddResolutionCases(width, height, refreshRate, resolutions);
  }

  lemma NoExactDuplicate(resolutions: seq<Resolution>, width: int, height: int, rate: Option<int>)
    requires rate.Some?
    requires forall i :: 0 <= i < |resolutions| ==> resolutions[i].refreshRate != rate
    ensures !Exists(resolutions, width, height, rate)
  {
  }

  /** The asymmetry on one catalogue: 1920x1080 is refused when 1920x1080@60 exists, while
      1920x1080@60 is accepted when only a plain 1920x1080 exists. */
  lemma DuplicateAsymmetry()
    ensures HandleAddResolution("1920", "1080", "", [Resolution(1920, 1080, Some(60))]) == Rejected(AlreadyExists)
    ensures HandleAddResolution("1920", "1080", "60", [Resolution(1920, 1080, None)]) == Added("1920", "1080", "60")
  {
    SampleFields();
    PlainSample("1920", "1080");
    RatedSample("1920", "1080", "60");
  }

  lemma PlainSample(w: string, h: string)
    requires w != "" && h != "" && ParseInt(w) == Some(1920) && ParseInt(h) == Some(1080)
    ensures HandleAddResolution(w, h, "", [Resolution(1920, 1080, Some(60))]) == Rejected(AlreadyExists)
  {
    PlainSizeBlockedByAnyRate(w, h, [Resolution(1920, 1080, Some(60))], 0);
  }

  lemma RatedSample(w: string, h: string, r: string)
    requires w != "" && h != "" && r != ""
    requires ParseInt(w) == Some(1920) && ParseInt(h) == Some(1080) && ParseInt(r) == Some(60)
    ensures HandleAddResolution(w, h, r, [Resolution(1920, 1080, None)]) == Added(w, h, r)
  {
    RatedSizeNotBlockedByOtherRates(w, h, r, [Resolution(1920, 1080, None)]);
  }

  lemma SampleFields()
    ensures ParseInt("1920") == Some(1920) && ParseInt("1080") == Some(1080) && ParseInt("60") == Some(60)
  {
    assert IsDigits("1920") && IsDigits("1080") && IsDigits("60");
    assert DigitsValue("1920") == 1920 by {
      assert "1920"[..3] == "192" && "192"[..2] == "19" && "19"[..1] == "1" && "1"[..0] == "";
    }
    assert DigitsValue("1080") == 1080 by {
      assert "1080"[..3] == "108" && "108"[..2] == "10" && "10"[..1] == "1" && "1"[..0] == "";
    }
    assert DigitsValue("60") == 60 by {
      assert "60"[..1] == "6" && "6"[..0] == "";
    }
  }
}

// The FlyCapture2 driver's property helpers: absolute-value properties
// written and read through the SDK, optionally as a ratio of the
// property's range, with SDK errors mapped to statuses.

module FlyCapture2Nodes {
  import opened Wrappers
  import opened Status
  import opened OpRange

  /** The SDK's property types, in its declaration order. */
  datatype PropertyType =
    | BRIGHTNESS | AUTO_EXPOSURE | SHARPNESS | WHITE_BALANCE | HUE | SATURATION
    | GAMMA | IRIS | FOCUS | ZOOM | PAN | TILT | SHUTTER | GAIN | TRIGGER_MODE
    | TRIGGER_DELAY | FRAME_RATE | TEMPERATURE | UNSPECIFIED_PROPERTY_TYPE

  /** An SDK call's outcome: success, or an error with its description. */
  datatype SdkError = PGRERROR_OK | SdkFailure(description: string)

  /** The range the SDK reports for a property. */
  datatype PropertyInfo = PropertyInfo(absMin: real, absMax: real)

  /** A property's control record. */
  datatype Property = Property(absValue: real, onOff: bool, absControl: bool, autoManualMode: bool)

  /** What the camera holds and answers for one property type: its range,
      its control record, and the outcome the SDK gives to reading the
      range, reading the record and writing it. */
  datatype PropertySlot = PropertySlot(
    info: PropertyInfo,
    property: Property,
    infoError: SdkError,
    getError: SdkError,
    setError: SdkError)

  /** `get_property_name`: the display name of the eleven properties the
      driver uses; every other type is unknown. */
  function PropertyName(t: PropertyType): string {
    match t
    case BRIGHTNESS => "Brightness"
    case AUTO_EXPOSURE => "Exposure"
    case SHARPNESS => "Sharpness"
    case WHITE_BALANCE => "White Balance"
    case HUE => "Hue"
    case SATURATION => "Saturation"
    case GAMMA => "Gamma"
    case SHUTTER => "Shutter"
    case GAIN => "Gain"
    case TRIGGER_DELAY => "Delay"
    case FRAME_RATE => "Sampling Rate"
    case _ => "Unknown Property"
  }

  /** The eleven property types with a name of their own. */
  predicate Named(t: PropertyType) {
    t in {BRIGHTNESS, AUTO_EXPOSURE, SHARPNESS, WHITE_BALANCE, HUE, SATURATION,
          GAMMA, SHUTTER, GAIN, TRIGGER_DELAY, FRAME_RATE}
  }

  /** The property a display name belongs to; the inverse of
      `PropertyName` on the named types. */
  function PropertyOfName(name: string): (t: Option<PropertyType>)
    ensures t.Some? ==> Named(t.value)
  {
    if name == "Brightness" then Some(BRIGHTNESS)
    else if name == "Exposure" then Some(AUTO_EXPOSURE)
    else if name == "Sharpness" then Some(SHARPNESS)
    else if name == "White Balance" then Some(WHITE_BALANCE)
    else if name == "Hue" then Some(HUE)
    else if name == "Saturation" then Some(SATURATION)
    else if name == "Gamma" then Some(GAMMA)
    else if name == "Shutter" then Some(SHUTTER)
    else if name == "Gain" then Some(GAIN)
    else if name == "Delay" then Some(TRIGGER_DELAY)
    else if name == "Sampling Rate" then Some(FRAME_RATE)
    else None
  }

  /** A type's name is its own exactly when the type is one of the eleven;
      names are told apart, so a name identifies its property. */
  lemma PropertyNameTable(t: PropertyType)
    ensures Named(t) <==> PropertyName(t) != "Unknown Property"
    ensures Named(t) ==> PropertyOfName(PropertyName(t)) == Some(t)
    ensures !Named(t) ==> PropertyOfName(PropertyName(t)) == None
  {
  }

  /** Every name `PropertyOfName` accepts is the name of what it returns. */
  lemma PropertyOfNameInverse(name: string)
    ensures PropertyOfName(name).Some? ==> PropertyName(PropertyOfName(name).value) == name
  {
  }

  /** `fc_assert_ok`'s status: the property's name and the SDK's
      description. */
  function PropertyError(t: PropertyType, description: string): (s: Status)
    ensures s.code == INTERNAL_ERROR
    ensures s.why == "[" + PropertyName(t) + "] " + description
  {
    InternalError(INTERNAL_ERROR, "[" + PropertyName(t) + "] " + description)
  }

  /** `set_gige_property`: the SDK's error is formatted and dropped, so the
      status is OK whatever the SDK answered. */
  function SetGigeProperty(error: SdkError): (s: Status)
    ensures s == Ok
  {
    match error
    case PGRERROR_OK => Ok
    case SdkFailure(_) => Ok
  }

  /** The outcome of `set_property_abs`: the status, the slot afterwards,
      and whether `SetProperty` was called. */
  datatype PropertyWrite = PropertyWrite(status: Status, slot: PropertySlot, written: bool)

  /** The reason of an out-of-range property write; `show` stands for the
      way `fmt` prints a float. */
  function PropertyRangeWhy(t: PropertyType, value: real, info: PropertyInfo, show: real -> string): string {
    "On " + PropertyName(t) + " property, value " + show(value)
      + " out of range. Current range: [" + show(info.absMin) + "," + show(info.absMax) + "]"
  }

  /** The value `set_property_abs` checks and writes: a ratio is first
      scaled onto the property's range. */
  function Target(info: PropertyInfo, value: real, isRatio: bool): real {
    if isRatio then OpRange(info.absMin, info.absMax).ToValue(value) else value
  }

  /** `set_property_abs`: read the range (an SDK error is returned), map a
      ratio onto it, refuse a value outside it with OUT_OF_RANGE, then write
      the value in manual absolute mode (an SDK error is returned). */
  function SetPropertyAbs(slot: PropertySlot, t: PropertyType, value: real, isRatio: bool, show: real -> string): (r: PropertyWrite)
    ensures slot.infoError.SdkFailure? ==>
      r == PropertyWrite(PropertyError(t, slot.infoError.description), slot, false)
    ensures r.written <==>
      slot.infoError == PGRERROR_OK && slot.info.absMin <= Target(slot.info, value, isRatio) <= slot.info.absMax
    ensures slot.infoError == PGRERROR_OK && !r.written ==>
      r.status == InternalError(OUT_OF_RANGE, PropertyRangeWhy(t, Target(slot.info, value, isRatio), slot.info, show))
    ensures !r.written || slot.setError.SdkFailure? ==> r.slot == slot
    ensures r.written && slot.setError.SdkFailure? ==> r.status == PropertyError(t, slot.setError.description)
    ensures r.status.code == OK <==> r.written && slot.setError == PGRERROR_OK
    ensures r.status.code == OK ==> r.slot == slot.(property := Property(Target(slot.info, value, isRatio), true, true, false))
  {
    match slot.infoError
    case SdkFailure(description) => PropertyWrite(PropertyError(t, description), slot, false)
    case PGRERROR_OK =>
      var v := Target(slot.info, value, isRatio);
      if v > slot.info.absMax || v < slot.info.absMin then
        PropertyWrite(InternalError(OUT_OF_RANGE, PropertyRangeWhy(t, v, slot.info, show)), slot, false)
      else
        var property := Property(v, true, true, false);
        match slot.setError
        case SdkFailure(description) => PropertyWrite(PropertyError(t, description), slot, true)
        case PGRERROR_OK => PropertyWrite(Ok, slot.(property := property), true)
  }

  /** `get_property_abs`: the absolute value, or in ratio mode its place on
      the property's range. The output is written with the absolute value
      before the range is read, so a failure to read the range leaves the
      absolute value there. `None` stands for the not-a-number a range of
      zero width gives. */
  function GetPropertyAbs(slot: PropertySlot, t: PropertyType, isRatio: bool, out: Option<real>): (r: Got<Option<real>>)
    ensures slot.getError.SdkFailure? ==> r == Got(PropertyError(t, slot.getError.description), out)
    ensures r.status.code == OK <==> slot.getError == PGRERROR_OK && (isRatio ==> slot.infoError == PGRERROR_OK)
    ensures slot.getError == PGRERROR_OK && isRatio && slot.infoError.SdkFailure? ==>
      r == Got(PropertyError(t, slot.infoError.description), Some(slot.property.absValue))
    ensures r.status.code == OK && !isRatio ==> r.value == Some(slot.property.absValue)
    ensures r.status.code == OK && isRatio ==>
      r.value == OpRange(slot.info.absMin, slot.info.absMax).ToRatio(slot.property.absValue)
  {
    match slot.getError
    case SdkFailure(description) => Got(PropertyError(t, description), out)
    case PGRERROR_OK =>
      var absolute := slot.property.absValue;
      if !isRatio then Got(Ok, Some(absolute))
      else
        match slot.infoError
        case SdkFailure(description) => Got(PropertyError(t, description), Some(absolute))
        case PGRERROR_OK => Got(Ok, OpRange(slot.info.absMin, slot.info.absMax).ToRatio(absolute))
  }

  /** A ratio written successfully reads back as the same ratio. */
  lemma PropertyRatioRoundTrip(slot: PropertySlot, t: PropertyType, ratio: real, show: real -> string, out: Option<real>)
    requires SetPropertyAbs(slot, t, ratio, true, show).status.code == OK
    requires slot.info.absMin != slot.info.absMax
    requires slot.getError == PGRERROR_OK
    ensures GetPropertyAbs(SetPropertyAbs(slot, t, ratio, true, show).slot, t, true, out) == Got(Ok, Some(ratio))
  {
    RatioRoundTrip(OpRange(slot.info.absMin, slot.info.absMax), ratio);
  }

  /** An absolute value written successfully reads back unchanged. */
  lemma PropertyValueRoundTrip(slot: PropertySlot, t: PropertyType, value: real, show: real -> string, out: Option<real>)
    requires SetPropertyAbs(slot, t, value, false, show).status.code == OK
    requires slot.getError == PGRERROR_OK
    ensures GetPropertyAbs(SetPropertyAbs(slot, t, value, false, show).slot, t, false, out) == Got(Ok, Some(value))
  {
  }

  /** On a range with `min <= max` every ratio in [0, 1] passes the range
      check, so only the SDK can refuse it. */
  lemma RatioInRangeIsWritten(slot: PropertySlot, t: PropertyType, ratio: real, show: real -> string)
    requires slot.infoError == PGRERROR_OK
    requires slot.info.absMin <= slot.info.absMax
    requires 0.0 <= ratio <= 1.0
    ensures SetPropertyAbs(slot, t, ratio, true, show).written
  {
    ToValueBounds(OpRange(slot.info.absMin, slot.info.absMax), ratio, ratio);
  }

  /** `set_image_settings`: the settings are written unless the SDK
      refuses, in which case the status carries its description. */
  function SetImageSettings<T>(current: T, settings: T, error: SdkError): (r: (Status, T))
    ensures r.0.code == OK <==> error == PGRERROR_OK
    ensures error == PGRERROR_OK ==> r == (Ok, settings)
    ensures error.SdkFailure? ==>
      r == (InternalError(INTERNAL_ERROR, "[SetImageSettings] " + error.description), current)
  {
    match error
    case PGRERROR_OK => (Ok, settings)
    case SdkFailure(description) => (InternalError(INTERNAL_ERROR, "[SetImageSettings] " + description), current)
  }

  /** `get_image_settings`: the camera's settings unless the SDK refuses. */
  function GetImageSettings<T>(camera: T, out: T, error: SdkError): (r: Got<T>)
    ensures r.status.code == OK <==> error == PGRERROR_OK
    ensures error == PGRERROR_OK ==> r == Got(Ok, camera)
    ensures error.SdkFailure? ==>
      r == Got(InternalError(INTERNAL_ERROR, "[GetImageSettings] " + error.description), out)
  {
    match error
    case PGRERROR_OK => Got(Ok, camera)
    case SdkFailure(description) => Got(InternalError(INTERNAL_ERROR, "[GetImageSettings] " + description), out)
  }

  /** Settings written without an SDK error read back unchanged. */
  lemma ImageSettingsRoundTrip<T>(current: T, settings: T, out: T)
    ensures var written := SetImageSettings(current, settings, PGRERROR_OK).1;
      GetImageSettings(written, out, PGRERROR_OK) == Got(Ok, settings)
  {
  }
}

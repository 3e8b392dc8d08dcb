// The legacy PtGrey driver's decision logic: the IP address parse of
// `connect`, the resolution-to-mode table, the colour-space names, the
// region-of-interest clamp, and the property writes behind sampling rate,
// delay, exposure, gain and shutter. The camera is a record of SDK answers;
// each operation yields the SDK calls it makes, in order, and how it ends.

module PtgreyDriver {
  import opened Wrappers
  import opened Arith
  import opened Text
  import opened Floats
  import opened OpRange
  import opened FlyCapture2Nodes
  import SpinnakerInfo
  import FlyCapture2Info

  // -------------------------------------------------------------------
  // The camera and the calls made to it
  // -------------------------------------------------------------------

  datatype GigEPropertyType = PACKET_DELAY | PACKET_SIZE

  datatype ImagingMode = MODE_0 | MODE_1 | MODE_5

  datatype PixelFormat = PIXEL_FORMAT_MONO8 | PIXEL_FORMAT_BGR | OtherPixelFormat

  /** `fc::GigEImageSettings`. */
  datatype GigESettings = GigESettings(offsetX: nat, offsetY: nat, width: nat, height: nat, pixelFormat: PixelFormat)

  /** `fc::GigEImageSettingsInfo`: the largest image the sensor gives. */
  datatype GigESettingsInfo = GigESettingsInfo(maxWidth: nat, maxHeight: nat)

  /** An SDK read: its error and what it filled in. */
  datatype Answer<T> = Answer(error: SdkError, value: T)

  /** What the camera answers: per property type its range, record and
      outcomes; the outcome of each imaging mode; the image settings and
      their limits; the outcome of writing settings; and the description
      the SDK gives a successful call. */
  datatype Camera = Camera(
    slots: PropertyType -> PropertySlot,
    modeError: ImagingMode -> SdkError,
    settingsInfo: Answer<GigESettingsInfo>,
    settings: Answer<GigESettings>,
    settingsError: SdkError,
    okDescription: string,
    lookupError: SdkError,
    connectError: SdkError)

  datatype SdkCall =
    | GetCameraFromIPAddress(octets: seq<Octet>)
    | Connect
    | SetGigEProperty(gige: GigEPropertyType, value: int)
    | StartCapture
    | StopCapture
    | GetPropertyInfo(infoType: PropertyType)
    | GetProperty(getType: PropertyType)
    | SetProperty(setType: PropertyType, property: Property)
    | SetGigEImagingMode(mode: ImagingMode)
    | GetGigEImageSettingsInfo
    | GetGigEImageSettings
    | SetGigEImageSettings(settings: GigESettings)

  /** How an operation ends: normally, by throwing `std::runtime_error`
      with a message, or by ending the process (a failed assertion, a
      `std::stoi` exception nothing catches, or a critical log). */
  datatype Outcome = Done | Thrown(message: string) | Aborted

  /** The SDK calls an operation made, in order, and how it ended. */
  datatype Trace = Trace(calls: seq<SdkCall>, outcome: Outcome)

  const Nothing: Trace := Trace([], Done)

  /** Run `b` after `a` unless `a` did not end normally. */
  function Then(a: Trace, b: Trace): Trace {
    if a.outcome == Done then Trace(a.calls + b.calls, b.outcome) else a
  }

  /** The SDK's description of an error, successful calls included. */
  function Describe(cam: Camera, e: SdkError): string {
    match e
    case PGRERROR_OK => cam.okDescription
    case SdkFailure(description) => description
  }

  /** `internal_error`: `[id] description`. */
  function Why(id: string, cam: Camera, e: SdkError): string {
    "[" + id + "] " + Describe(cam, e)
  }

  /** A call that throws `[id] description` when the SDK fails. */
  function Checked(call: SdkCall, id: string, cam: Camera, e: SdkError): (t: Trace)
    ensures t.calls == [call]
    ensures t.outcome == Done <==> e == PGRERROR_OK
  {
    Trace([call], if e == PGRERROR_OK then Done else Thrown(Why(id, cam, e)))
  }

  // -------------------------------------------------------------------
  // connect
  // -------------------------------------------------------------------

  /** The result of reading an IP address: the 32-bit value, a field
      count other than four, or a field `std::stoi` rejects. */
  datatype Address = Address(ip: nat) | AssertionFailed | ParseFailed

  const WordLimit: nat := 0x1_0000_0000

  /** The 32 bits of an `int`, two's complement. */
  function Int32Bits(v: int): (w: nat)
    requires IntMin <= v <= IntMax
    ensures w < WordLimit
    ensures 0 <= v ==> w == v
  {
    if v < 0 then v + WordLimit else v
  }

  /** `ip << 8` on a 32-bit `int`: the bits shifted out are lost. */
  function Shift8(acc: nat): nat {
    acc * 256 % WordLimit
  }

  /** One step of the fold: `(ip << 8) | v` on 32 bits. */
  function ShiftOr(acc: nat, v: int): (r: nat)
    requires IntMin <= v <= IntMax
    ensures r < WordLimit
  {
    Powers();
    BitOr(Shift8(acc), Int32Bits(v), 32)
  }

  /** Every field read by `std::stoi`, or `None` when one of them is not an
      `int` numeral (`std::stoi` throws). */
  function ParseFields(fields: seq<string>): (r: Option<seq<int>>)
    ensures r.Some? ==> |r.value| == |fields|
    ensures r.Some? ==> forall i :: 0 <= i < |fields| ==> Stoi(fields[i]) == Parsed(r.value[i])
    decreases |fields|
  {
    if fields == [] then Some([])
    else
      match Stoi(fields[0])
      case Parsed(v) =>
        (match ParseFields(fields[1..])
         case Some(vs) => Some([v] + vs)
         case None => None)
      case _ => None
  }

  /** Values that fit an `int`. */
  predicate Int32Values(vs: seq<int>) {
    forall i :: 0 <= i < |vs| ==> IntMin <= vs[i] <= IntMax
  }

  /** The fold `ip = (ip << 8) | v` over the parsed fields. */
  function FoldValues(vs: seq<int>, acc: nat): (ip: nat)
    requires Int32Values(vs)
    ensures acc < WordLimit || vs != [] ==> ip < WordLimit
    decreases |vs|
  {
    if vs == [] then acc else FoldValues(vs[1..], ShiftOr(acc, vs[0]))
  }

  /** The IP parse of `connect`: split on dots with runs of dots taken as
      one, assert four fields, read each with `std::stoi` and fold them into
      a 32-bit value. The source reads and folds field by field; as the
      fold itself cannot fail, reading all fields first fails on the same
      inputs. */
  function ParseIp(text: string): (r: Address)
    ensures r.AssertionFailed? <==> |SplitCompress(text, '.')| != 4
    ensures r.Address? ==> r.ip < WordLimit
  {
    var fields := SplitCompress(text, '.');
    if |fields| != 4 then AssertionFailed
    else
      match ParseFields(fields)
      case Some(vs) => Address(FoldValues(vs, 0))
      case None => ParseFailed
  }

  /** Reading fails exactly when some field is not an `int` numeral. */
  lemma {:induction false} ParseFailure(fields: seq<string>)
    ensures ParseFields(fields).None? <==>
      exists k :: 0 <= k < |fields| && !Stoi(fields[k]).Parsed?
    decreases |fields|
  {
    if fields != [] {
      ParseFailure(fields[1..]);
      ParseFieldsStep(fields);
      forall k | 1 <= k < |fields|
        ensures fields[1..][k - 1] == fields[k]
      {
      }
    }
  }

  /** One field read: the whole read fails when this field or the rest does. */
  lemma ParseFieldsStep(fields: seq<string>)
    requires fields != []
    ensures ParseFields(fields).None? <==>
      !Stoi(fields[0]).Parsed? || ParseFields(fields[1..]).None?
  {
  }

  /** The parse of a four-field text fails exactly when some field is not an
      `int` numeral. */
  lemma ParseIpFailure(text: string)
    requires |SplitCompress(text, '.')| == 4
    ensures ParseIp(text).ParseFailed? <==>
      exists k :: 0 <= k < 4 && !Stoi(SplitCompress(text, '.')[k]).Parsed?
  {
    ParseFailure(SplitCompress(text, '.'));
  }

  /** One step of the fold on an octet: shift and OR make room for the
      octet and add it. */
  lemma FoldStep(acc: nat, o: Octet)
    requires acc < 0x100_0000
    ensures ShiftOr(acc, o) == acc * 256 + o
  {
    Powers();
    ModBelow(acc * 256, WordLimit);
    assert (acc * 256) % Pow(2, 8) == 0 by {
      DivModUnique(acc * 256, 256, acc, 0);
    }
    BitOrDisjoint(acc * 256, o, 8, 32);
  }

  /** The values after the first still fit an `int`. */
  lemma TailValues(vs: seq<int>)
    requires |vs| >= 1 && Int32Values(vs)
    ensures Int32Values(vs[1..])
  {
    forall i | 0 <= i < |vs[1..]| ensures IntMin <= vs[1..][i] <= IntMax {
      assert vs[1..][i] == vs[i + 1];
    }
  }

  /** A leading octet takes one fold step. */
  lemma FoldOne(vs: seq<int>, acc: nat, o: Octet, next: nat)
    requires |vs| >= 1 && vs[0] == o && Int32Values(vs) && acc < 0x100_0000
    requires next == acc * 256 + o
    ensures Int32Values(vs[1..])
    ensures FoldValues(vs, acc) == FoldValues(vs[1..], next)
  {
    TailValues(vs);
    FoldStep(acc, o);
    assert ShiftOr(acc, vs[0]) == next;
  }

  /** Folding four octets gives the number they spell. */
  lemma FoldOctets(os: seq<Octet>)
    requires |os| == 4
    ensures Int32Values(os)
    ensures FoldValues(os, 0) == FromOctets(os)
  {
    var a1: nat := os[0];
    var a2: nat := a1 * 256 + os[1];
    var a3: nat := a2 * 256 + os[2];
    var a4: nat := a3 * 256 + os[3];
    assert a2 < 0x1_0000;
    assert a3 < 0x100_0000;
    var v1 := os[1..];
    var v2 := v1[1..];
    var v3 := v2[1..];
    FoldOne(os, 0, os[0], a1);
    FoldOne(v1, a1, os[1], a2);
    FoldOne(v2, a2, os[2], a3);
    FoldOne(v3, a3, os[3], a4);
    assert v3[1..] == [];
    assert FoldValues(v3[1..], a4) == a4;
    FlyCapture2Info.FromOctets4(os);
    assert FromOctets(os) == a4;
  }

  /** Octets printed in decimal read back as the octets. */
  lemma {:induction false} ParseDecimalOctets(os: seq<Octet>)
    ensures ParseFields(SpinnakerInfo.DecimalOctets(os)) == Some(os)
    decreases |os|
  {
    if os != [] {
      var ds := SpinnakerInfo.DecimalOctets(os);
      StoiDecimal(os[0]);
      assert ds[1..] == SpinnakerInfo.DecimalOctets(os[1..]);
      ParseDecimalOctets(os[1..]);
      ParseFieldsCons(ds, os[0]);
      assert os == [os[0]] + os[1..];
    }
  }

  /** A leading `int` numeral is read, and the rest as before. */
  lemma ParseFieldsCons(fields: seq<string>, v: int)
    requires |fields| > 0 && Stoi(fields[0]) == Parsed(v)
    ensures ParseFields(fields[1..]).Some? ==> ParseFields(fields) == Some([v] + ParseFields(fields[1..]).value)
    ensures ParseFields(fields[1..]).None? ==> ParseFields(fields).None?
  {
  }

  /** Four octets printed in decimal read and fold back into their value. */
  lemma FoldDecimalOctets(os: seq<Octet>)
    requires |os| == 4
    ensures ParseFields(SpinnakerInfo.DecimalOctets(os)) == Some(os)
    ensures Int32Values(os) && FoldValues(os, 0) == FromOctets(os)
  {
    ParseDecimalOctets(os);
    FoldOctets(os);
  }

  /** The dotted text of four octets splits back into their numerals. */
  lemma SplitDecimalOctets(os: seq<Octet>)
    requires |os| == 4
    ensures SplitCompress(Join(SpinnakerInfo.DecimalOctets(os), '.'), '.') == SpinnakerInfo.DecimalOctets(os)
  {
    var ds := SpinnakerInfo.DecimalOctets(os);
    forall k | 0 <= k < |ds| ensures |ds[k]| > 0 && '.' !in ds[k] {
      assert AllDigits(ds[k]);
    }
    SplitJoin(ds, '.');
  }

  /** Reading the FlyCapture2 driver's printed address gives the address
      its octets spell. */
  lemma ParseFlyCaptureAddress(os: seq<Octet>)
    requires |os| == 4
    ensures ParseIp(FlyCapture2Info.MakeIpAddress(os)) == Address(FromOctets(os))
  {
    SplitDecimalOctets(os);
    FoldDecimalOctets(os);
  }

  /** Reading the Spinnaker driver's printed address of a 32-bit number
      gives the number back. */
  lemma ParseSpinnakerAddress(ip: nat)
    requires ip < WordLimit
    ensures SpinnakerInfo.AddressLength(SpinnakerInfo.IpText(ip))
    ensures ParseIp(SpinnakerInfo.MakeIpAddress(ip)) == Address(ip)
  {
    SpinnakerInfo.IpAddressOctets(ip);
    var os := Octets(ip, 4);
    SplitDecimalOctets(os);
    FoldDecimalOctets(os);
  }

  /** `connect`: the camera is looked up by the parsed address (as the
      octets `fc::IPAddress` holds, most significant first) and connected,
      then packet delay 6000 and packet size 1400 are set, their SDK
      answers unchecked. A failed lookup or connection ends the process. */
  function ConnectTrace(text: string, cam: Camera): (t: Trace)
    ensures t.outcome == Done <==>
      ParseIp(text).Address? && cam.lookupError == PGRERROR_OK && cam.connectError == PGRERROR_OK
    ensures t.outcome != Done ==> t.outcome == Aborted
    ensures !ParseIp(text).Address? ==> t.calls == []
    ensures ParseIp(text).Address? ==>
      var lookup := GetCameraFromIPAddress(Octets(ParseIp(text).ip, 4));
      && (cam.lookupError != PGRERROR_OK ==> t.calls == [lookup])
      && (cam.lookupError == PGRERROR_OK && cam.connectError != PGRERROR_OK ==> t.calls == [lookup, Connect])
      && (t.outcome == Done ==>
            t.calls == [lookup, Connect, SetGigEProperty(PACKET_DELAY, 6000), SetGigEProperty(PACKET_SIZE, 1400)])
  {
    match ParseIp(text)
    case Address(ip) =>
      var lookup := GetCameraFromIPAddress(Octets(ip, 4));
      var packets := [SetGigEProperty(PACKET_DELAY, 6000), SetGigEProperty(PACKET_SIZE, 1400)];
      if cam.lookupError != PGRERROR_OK then Trace([lookup], Aborted)
      else if cam.connectError != PGRERROR_OK then Trace([lookup, Connect], Aborted)
      else Trace([lookup, Connect] + packets, Done)
    case _ => Trace([], Aborted)
  }

  /** Connecting to the address the Spinnaker driver printed looks up the
      camera by the octets of that number, and, when the SDK finds and
      connects it, packet settings follow. */
  lemma ConnectToPrinted(ip: nat, cam: Camera)
    requires ip < WordLimit
    requires cam.lookupError == PGRERROR_OK && cam.connectError == PGRERROR_OK
    ensures SpinnakerInfo.AddressLength(SpinnakerInfo.IpText(ip))
    ensures var t := ConnectTrace(SpinnakerInfo.MakeIpAddress(ip), cam);
      t.outcome == Done && t.calls[0] == GetCameraFromIPAddress(Octets(ip, 4))
      && t.calls[2..] == [SetGigEProperty(PACKET_DELAY, 6000), SetGigEProperty(PACKET_SIZE, 1400)]
  {
    ParseSpinnakerAddress(ip);
  }

  // -------------------------------------------------------------------
  // Property writes
  // -------------------------------------------------------------------

  /** `[name] description` for a property. */
  function PropertyWhy(cam: Camera, t: PropertyType, e: SdkError): string {
    Why(PropertyName(t), cam, e)
  }

  /** The value `set_property_abs` checks: a ratio is scaled onto the
      property's range as `(absMax - absMin) * v + absMin`. A ratio is
      always a finite percentage. */
  function AbsTarget(info: PropertyInfo, value: Float, isRatio: bool): Float {
    match value
    case Finite(v) => if isRatio then Finite((info.absMax - info.absMin) * v + info.absMin) else value
    case PositiveInfinity => value
  }

  /** The record `set_property_abs` writes: the value in manual absolute
      control. */
  function ManualAbs(v: real): Property {
    Property(v, true, true, false)
  }

  /** `set_property_abs`: read the range (an SDK error throws), scale a
      ratio, throw when the value lies outside the range (the message then
      carries the description of the successful range read), then write
      the value in manual absolute control (an SDK error throws). */
  function SetPropertyAbs(cam: Camera, t: PropertyType, value: Float, isRatio: bool): (r: Trace)
    ensures |r.calls| >= 1 && r.calls[0] == GetPropertyInfo(t)
    ensures r.outcome != Aborted
  {
    var slot := cam.slots(t);
    var read := Checked(GetPropertyInfo(t), PropertyName(t), cam, slot.infoError);
    if read.outcome != Done then read
    else
      var v := AbsTarget(slot.info, value, isRatio);
      if !v.Finite? || v.x > slot.info.absMax || v.x < slot.info.absMin then
        Trace(read.calls, Thrown(PropertyWhy(cam, t, slot.infoError)))
      else
        Then(read, Checked(SetProperty(t, ManualAbs(v.x)), PropertyName(t), cam, slot.setError))
  }

  /** `set_property_abs` writes exactly when the range was read and the
      value lies on it, and then writes nothing but the value in manual
      absolute control; it ends normally exactly when the write succeeds
      too. An out-of-range value throws without writing. */
  lemma SetPropertyAbsSpec(cam: Camera, t: PropertyType, value: Float, isRatio: bool)
    ensures var r := SetPropertyAbs(cam, t, value, isRatio);
      var slot := cam.slots(t);
      var v := AbsTarget(slot.info, value, isRatio);
      var accepted := slot.infoError == PGRERROR_OK && v.Finite? && slot.info.absMin <= v.x <= slot.info.absMax;
      && (accepted ==> r.calls == [GetPropertyInfo(t), SetProperty(t, ManualAbs(v.x))])
      && (!accepted ==> r.calls == [GetPropertyInfo(t)] && r.outcome.Thrown?)
      && (r.outcome == Done <==> accepted && slot.setError == PGRERROR_OK)
      && (slot.infoError == PGRERROR_OK && !accepted ==> r.outcome == Thrown(PropertyWhy(cam, t, PGRERROR_OK)))
  {
  }

  /** The scaled ratio is `OpRange::to_value` on the property's range, and
      on an ordered range every ratio in [0, 1] passes the range check. */
  lemma RatioOnRange(info: PropertyInfo, ratio: real)
    ensures AbsTarget(info, Finite(ratio), true) == Finite(OpRange(info.absMin, info.absMax).ToValue(ratio))
    ensures info.absMin <= info.absMax && 0.0 <= ratio <= 1.0 ==>
      info.absMin <= AbsTarget(info, Finite(ratio), true).x <= info.absMax
  {
    var range := OpRange(info.absMin, info.absMax);
    if info.absMin <= info.absMax && 0.0 <= ratio <= 1.0 {
      ToValueBounds(range, ratio, ratio);
    }
  }

  /** `set_property_auto`: switch the property on in automatic mode (the
      other fields keep the SDK's defaults); an SDK error throws. */
  function SetPropertyAuto(cam: Camera, t: PropertyType): (r: Trace)
    ensures r.calls == [SetProperty(t, Property(0.0, true, false, true))]
    ensures r.outcome == Done <==> cam.slots(t).setError == PGRERROR_OK
  {
    Checked(SetProperty(t, Property(0.0, true, false, true)), PropertyName(t), cam, cam.slots(t).setError)
  }

  // -------------------------------------------------------------------
  // Sampling rate and delay
  // -------------------------------------------------------------------

  /** `set_sampling_rate`: a period (in milliseconds) sets the frame rate
      to 1000 / period, then a rate sets it directly. A zero period gives
      an infinite rate, which fails the range check. */
  function SetSamplingRate(cam: Camera, period: Option<real>, rate: Option<real>): Trace {
    var byPeriod := if period.Some? then SetPropertyAbs(cam, FRAME_RATE, Over(1000.0, period.value), false) else Nothing;
    var byRate := if rate.Some? then SetPropertyAbs(cam, FRAME_RATE, Finite(rate.value), false) else Nothing;
    Then(byPeriod, byRate)
  }

  /** The properties written, in order. */
  function Writes(calls: seq<SdkCall>): (ps: seq<Property>)
    ensures |ps| <= |calls|
    decreases |calls|
  {
    if calls == [] then []
    else (if calls[0].SetProperty? then [calls[0].property] else []) + Writes(calls[1..])
  }

  lemma {:induction false} WritesAppend(a: seq<SdkCall>, b: seq<SdkCall>)
    ensures Writes(a + b) == Writes(a) + Writes(b)
    decreases |a|
  {
    if a != [] {
      var head := if a[0].SetProperty? then [a[0].property] else [];
      assert (a + b)[0] == a[0];
      assert (a + b)[1..] == a[1..] + b;
      assert Writes(a + b) == head + Writes(a[1..] + b);
      WritesAppend(a[1..], b);
      assert Writes(a) == head + Writes(a[1..]);
    } else {
      assert a + b == b;
    }
  }

  /** Given both a period and a rate, the rate is written last and wins:
      when the call ends normally the frame rate was written twice, from
      the period and then from the rate. */
  lemma RateWins(cam: Camera, period: real, rate: real)
    requires SetSamplingRate(cam, Some(period), Some(rate)).outcome == Done
    ensures period != 0.0
    ensures Writes(SetSamplingRate(cam, Some(period), Some(rate)).calls) ==
      [ManualAbs(1000.0 / period), ManualAbs(rate)]
  {
    SetPropertyAbsSpec(cam, FRAME_RATE, Over(1000.0, period), false);
    SetPropertyAbsSpec(cam, FRAME_RATE, Finite(rate), false);
    var a := SetPropertyAbs(cam, FRAME_RATE, Over(1000.0, period), false);
    var b := SetPropertyAbs(cam, FRAME_RATE, Finite(rate), false);
    WritesAppend(a.calls, b.calls);
    assert Writes(a.calls) == [ManualAbs(1000.0 / period)] by {
      assert a.calls[1..][1..] == [];
    }
    assert Writes(b.calls) == [ManualAbs(rate)] by {
      assert b.calls[1..][1..] == [];
    }
  }

  /** A zero period throws after reading the range, whatever the rate:
      the frame rate is not written and a rate given alongside is never
      applied. */
  lemma ZeroPeriodThrows(cam: Camera, rate: Option<real>)
    ensures var r := SetSamplingRate(cam, Some(0.0), rate);
      r.outcome.Thrown? && r.calls == [GetPropertyInfo(FRAME_RATE)]
  {
    SetPropertyAbsSpec(cam, FRAME_RATE, Over(1000.0, 0.0), false);
  }

  /** `set_delay`: the trigger delay in seconds, from whole milliseconds. */
  function SetDelay(cam: Camera, milliseconds: int): (r: Trace)
    ensures |r.calls| >= 1 && r.calls[0] == GetPropertyInfo(TRIGGER_DELAY)
  {
    SetPropertyAbs(cam, TRIGGER_DELAY, Finite(milliseconds as real / 1000.0), false)
  }

  /** A delay the range admits is written in seconds. */
  lemma DelayInSeconds(cam: Camera, milliseconds: int)
    requires SetDelay(cam, milliseconds).outcome == Done
    ensures SetDelay(cam, milliseconds).calls ==
      [GetPropertyInfo(TRIGGER_DELAY), SetProperty(TRIGGER_DELAY, ManualAbs(milliseconds as real / 1000.0))]
  {
    SetPropertyAbsSpec(cam, TRIGGER_DELAY, Finite(milliseconds as real / 1000.0), false);
  }

  /** `get_sampling_rate`: the frame rate's absolute value; an SDK error
      throws. */
  datatype RateRead = RateRead(trace: Trace, rate: real)

  function GetSamplingRate(cam: Camera): (r: RateRead)
    ensures r.trace.calls == [GetProperty(FRAME_RATE)]
    ensures r.trace.outcome == Done <==> cam.slots(FRAME_RATE).getError == PGRERROR_OK
    ensures r.trace.outcome == Done ==> r.rate == cam.slots(FRAME_RATE).property.absValue
  {
    var slot := cam.slots(FRAME_RATE);
    RateRead(Checked(GetProperty(FRAME_RATE), PropertyName(FRAME_RATE), cam, slot.getError), slot.property.absValue)
  }

  // -------------------------------------------------------------------
  // Resolution
  // -------------------------------------------------------------------

  /** The sensor's full width in pixels. */
  const FullWidth: nat := 1288

  /** The imaging mode for a requested width: `1288 / width` in unsigned
      division picks full, half or quarter resolution. */
  function ModeFor(width: nat): ImagingMode
    requires width > 0
  {
    var scale := FullWidth / width;
    if scale == 1 then MODE_0 else if scale == 2 then MODE_1 else MODE_5
  }

  /** Widths from 645 to 1288 pick the full mode, 430 to 644 the half
      mode, and everything else the quarter mode, a width above the sensor
      included. */
  lemma ModeTable(width: nat)
    requires width > 0
    ensures ModeFor(width) == MODE_0 <==> 645 <= width <= 1288
    ensures ModeFor(width) == MODE_1 <==> 430 <= width <= 644
    ensures ModeFor(width) == MODE_5 <==> width < 430 || width > 1288
  {
    var scale := FullWidth / width;
    DivModUnique(FullWidth, width, scale, FullWidth % width);
    if 645 <= width <= 1288 {
      DivModUnique(FullWidth, width, 1, FullWidth - width);
    } else if 430 <= width <= 644 {
      DivModUnique(FullWidth, width, 2, FullWidth - 2 * width);
    } else if width > 1288 {
      DivModUnique(FullWidth, width, 0, FullWidth);
    }
  }

  /** `set_resolution`: stop capture, set the imaging mode, start capture,
      and only then throw when the SDK refused the mode. The width must not
      be zero (the division would be undefined). */
  function SetResolution(cam: Camera, width: nat): (r: Trace)
    requires width > 0
    ensures r.calls == [StopCapture, SetGigEImagingMode(ModeFor(width)), StartCapture]
    ensures r.outcome == Done <==> cam.modeError(ModeFor(width)) == PGRERROR_OK
    ensures r.outcome != Done ==> r.outcome == Thrown(Why("Resolution", cam, cam.modeError(ModeFor(width))))
  {
    var mode := ModeFor(width);
    var error := cam.modeError(mode);
    Trace([StopCapture, SetGigEImagingMode(mode), StartCapture],
          if error == PGRERROR_OK then Done else Thrown(Why("Resolution", cam, error)))
  }

  // -------------------------------------------------------------------
  // Colour space
  // -------------------------------------------------------------------

  /** The pixel format a colour-space name selects. */
  function PixelFormatOf(name: string): Option<PixelFormat> {
    if name == "gray" then Some(PIXEL_FORMAT_MONO8)
    else if name == "rgb" then Some(PIXEL_FORMAT_BGR)
    else None
  }

  /** The message thrown for an unknown colour space. */
  function InvalidTypeWhy(name: string): string {
    "Invalid type \"" + name + "\". Valid types: \"rgb\" and \"gray\""
  }

  /** The steps of `set_color_space` for the name it compares: read the
      settings (an SDK error throws), map the name to a pixel format (an
      unknown name throws before capture is touched), then stop, write the
      settings with the new format, start, and throw when the write
      failed. */
  function ColorSpaceFor(cam: Camera, name: string): (r: Trace)
    ensures |r.calls| >= 1 && r.calls[0] == GetGigEImageSettings
  {
    var read := Checked(GetGigEImageSettings, "Color Space", cam, cam.settings.error);
    if read.outcome != Done then read
    else
      match PixelFormatOf(name)
      case None => Trace(read.calls, Thrown(InvalidTypeWhy(name)))
      case Some(format) =>
        var written := cam.settings.value.(pixelFormat := format);
        Trace(read.calls + [StopCapture, SetGigEImageSettings(written), StartCapture],
              if cam.settingsError == PGRERROR_OK then Done else Thrown(Why("Color Space", cam, cam.settingsError)))
  }

  /** `set_color_space` as written: the lower-cased copy is discarded, so
      the name is compared as given. */
  function SetColorSpaceAsWritten(cam: Camera, value: string): (r: Trace)
    ensures r == ColorSpaceFor(cam, value)
  {
    ColorSpaceFor(cam, value)
  }

  /** `set_color_space` as evidently intended: the name is lower-cased
      before it is compared and reported. */
  function SetColorSpace(cam: Camera, value: string): (r: Trace)
    ensures r == ColorSpaceFor(cam, Lower(value))
  {
    ColorSpaceFor(cam, Lower(value))
  }

  /** Only `gray` and `rgb` are accepted; any other name throws right
      after the settings are read, before capture is stopped; an accepted
      name writes the settings read with only the pixel format replaced,
      between a stop and a start of capture. */
  lemma ColorSpaceNames(cam: Camera, name: string)
    requires cam.settings.error == PGRERROR_OK
    ensures var r := ColorSpaceFor(cam, name);
      && (PixelFormatOf(name).None? <==> name != "gray" && name != "rgb")
      && (PixelFormatOf(name).None? ==> r == Trace([GetGigEImageSettings], Thrown(InvalidTypeWhy(name))))
      && (PixelFormatOf(name).Some? ==> r.calls == [GetGigEImageSettings, StopCapture,
            SetGigEImageSettings(cam.settings.value.(pixelFormat := PixelFormatOf(name).value)), StartCapture])
  {
  }

  /** The discarded lower-casing makes the name case-sensitive: `RGB` is
      refused by the code as written and accepted once lower-cased. */
  lemma ColorSpaceCaseSensitive(cam: Camera)
    requires cam.settings.error == PGRERROR_OK
    ensures SetColorSpaceAsWritten(cam, "RGB") == Trace([GetGigEImageSettings], Thrown(InvalidTypeWhy("RGB")))
    ensures SetColorSpace(cam, "RGB").calls[1..] ==
      [StopCapture, SetGigEImageSettings(cam.settings.value.(pixelFormat := PIXEL_FORMAT_BGR)), StartCapture]
  {
    assert Lower("RGB") == "rgb";
  }

  /** With the lower-casing in place the case of the name does not
      matter. */
  lemma ColorSpaceIgnoresCase(cam: Camera, value: string)
    ensures SetColorSpace(cam, value) == SetColorSpace(cam, Lower(value))
  {
    LowerIdempotent(value);
  }

  // -------------------------------------------------------------------
  // Region of interest
  // -------------------------------------------------------------------

  /** The legacy `RegionOfInterest` message. */
  datatype Roi = Roi(xOffset: nat, yOffset: nat, height: nat, width: nat)

  function Min(a: nat, b: nat): nat {
    if a <= b then a else b
  }

  /** The settings a region writes: offsets copied, width and height
      clamped to the sensor's limits. */
  function Clamp(info: GigESettingsInfo, settings: GigESettings, roi: Roi): (s: GigESettings)
    ensures s.width <= info.maxWidth && s.height <= info.maxHeight
    ensures s.width == roi.width <==> roi.width <= info.maxWidth
    ensures s.height == roi.height <==> roi.height <= info.maxHeight
    ensures s.offsetX == roi.xOffset && s.offsetY == roi.yOffset
    ensures s.pixelFormat == settings.pixelFormat
  {
    settings.(offsetX := roi.xOffset, offsetY := roi.yOffset,
              height := Min(info.maxHeight, roi.height), width := Min(info.maxWidth, roi.width))
  }

  /** `set_region_of_interest`: read the limits and the settings (either
      SDK error throws), then stop, write the clamped settings, start, and
      throw when the write failed. */
  function SetRegionOfInterest(cam: Camera, roi: Roi): (r: Trace)
    ensures cam.settingsInfo.error == PGRERROR_OK && cam.settings.error == PGRERROR_OK ==>
      r.calls == [GetGigEImageSettingsInfo, GetGigEImageSettings, StopCapture,
                  SetGigEImageSettings(Clamp(cam.settingsInfo.value, cam.settings.value, roi)), StartCapture]
    ensures r.outcome == Done <==>
      cam.settingsInfo.error == PGRERROR_OK && cam.settings.error == PGRERROR_OK && cam.settingsError == PGRERROR_OK
    ensures StopCapture in r.calls ==> StartCapture in r.calls
  {
    var limits := Checked(GetGigEImageSettingsInfo, "Region of Interest", cam, cam.settingsInfo.error);
    var read := Checked(GetGigEImageSettings, "Region of Interest", cam, cam.settings.error);
    var written := Clamp(cam.settingsInfo.value, cam.settings.value, roi);
    var write := Trace([StopCapture, SetGigEImageSettings(written), StartCapture],
                       if cam.settingsError == PGRERROR_OK then Done else Thrown(Why("Region of Interest", cam, cam.settingsError)));
    Then(Then(limits, read), write)
  }

  // -------------------------------------------------------------------
  // Exposure, gain, shutter
  // -------------------------------------------------------------------

  /** A legacy control message: a percentage of the range, an absolute
      value, and a request for automatic mode. */
  datatype Control = Control(percent: Option<real>, absolute: Option<real>, autoMode: Option<bool>)

  /** Percentage first, then the absolute value, then automatic mode when
      it is asked for and true; the first throw ends the sequence. */
  function SetControl(cam: Camera, t: PropertyType, control: Control): Trace {
    Then(Then(PercentPart(cam, t, control), ValuePart(cam, t, control)), AutoPart(cam, t, control))
  }

  function SetExposure(cam: Camera, exposure: Control): Trace {
    SetControl(cam, AUTO_EXPOSURE, exposure)
  }

  function SetGain(cam: Camera, gain: Control): Trace {
    SetControl(cam, GAIN, gain)
  }

  function SetShutter(cam: Camera, shutter: Control): Trace {
    SetControl(cam, SHUTTER, shutter)
  }

  /** `set_brightness` and `set_white_balance` do nothing. */
  function SetBrightness(cam: Camera, brightness: Control): (r: Trace)
    ensures r.calls == [] && r.outcome == Done
  {
    Nothing
  }

  function SetWhiteBalance(cam: Camera, red: Option<nat>, blue: Option<nat>, autoMode: Option<bool>): (r: Trace)
    ensures r.calls == [] && r.outcome == Done
  {
    Nothing
  }

  /** The writes of each part of a control that ended normally. */
  function PercentPart(cam: Camera, t: PropertyType, control: Control): Trace {
    if control.percent.Some? then SetPropertyAbs(cam, t, Finite(control.percent.value), true) else Nothing
  }

  function ValuePart(cam: Camera, t: PropertyType, control: Control): Trace {
    if control.absolute.Some? then SetPropertyAbs(cam, t, Finite(control.absolute.value), false) else Nothing
  }

  function AutoPart(cam: Camera, t: PropertyType, control: Control): Trace {
    if control.autoMode == Some(true) then SetPropertyAuto(cam, t) else Nothing
  }

  lemma PercentWrites(cam: Camera, t: PropertyType, control: Control)
    requires PercentPart(cam, t, control).outcome == Done
    ensures var info := cam.slots(t).info;
      Writes(PercentPart(cam, t, control).calls) ==
        if control.percent.Some? then [ManualAbs(OpRange(info.absMin, info.absMax).ToValue(control.percent.value))] else []
  {
    if control.percent.Some? {
      var x := control.percent.value;
      var calls := PercentPart(cam, t, control).calls;
      SetPropertyAbsSpec(cam, t, Finite(x), true);
      RatioOnRange(cam.slots(t).info, x);
      assert calls[1..][1..] == [];
    }
  }

  lemma ValueWrites(cam: Camera, t: PropertyType, control: Control)
    requires ValuePart(cam, t, control).outcome == Done
    ensures Writes(ValuePart(cam, t, control).calls) ==
      if control.absolute.Some? then [ManualAbs(control.absolute.value)] else []
  {
    if control.absolute.Some? {
      var calls := ValuePart(cam, t, control).calls;
      SetPropertyAbsSpec(cam, t, Finite(control.absolute.value), false);
      assert calls[1..][1..] == [];
    }
  }

  lemma AutoWrites(cam: Camera, t: PropertyType, control: Control)
    ensures Writes(AutoPart(cam, t, control).calls) ==
      if control.autoMode == Some(true) then [Property(0.0, true, false, true)] else []
  {
    if control.autoMode == Some(true) {
      assert AutoPart(cam, t, control).calls[1..] == [];
    }
  }

  /** The writes of a control that ended normally are the writes of its
      parts, in order. */
  lemma ControlWrites(cam: Camera, t: PropertyType, control: Control)
    requires SetControl(cam, t, control).outcome == Done
    ensures PercentPart(cam, t, control).outcome == Done && ValuePart(cam, t, control).outcome == Done
    ensures Writes(SetControl(cam, t, control).calls) ==
      Writes(PercentPart(cam, t, control).calls) + Writes(ValuePart(cam, t, control).calls) + Writes(AutoPart(cam, t, control).calls)
  {
    var p := PercentPart(cam, t, control).calls;
    var v := ValuePart(cam, t, control).calls;
    var u := AutoPart(cam, t, control).calls;
    assert SetControl(cam, t, control).calls == p + v + u;
    WritesAppend(p, v);
    WritesAppend(p + v, u);
  }

  /** Automatic mode is written only when asked for and true, and then as
      the last write; a control that ends normally with all three parts
      wrote the scaled percentage, the absolute value and automatic mode,
      in that order. */
  lemma ControlOrder(cam: Camera, t: PropertyType, control: Control)
    requires SetControl(cam, t, control).outcome == Done
    ensures control.autoMode != Some(true) ==>
      forall p :: p in Writes(SetControl(cam, t, control).calls) ==> !p.autoManualMode
    ensures control.autoMode == Some(true) ==>
      var ws := Writes(SetControl(cam, t, control).calls);
      |ws| >= 1 && ws[|ws| - 1] == Property(0.0, true, false, true)
    ensures control.percent.Some? && control.absolute.Some? && control.autoMode == Some(true) ==>
      var info := cam.slots(t).info;
      Writes(SetControl(cam, t, control).calls) ==
        [ManualAbs(OpRange(info.absMin, info.absMax).ToValue(control.percent.value)),
         ManualAbs(control.absolute.value), Property(0.0, true, false, true)]
  {
    ControlWrites(cam, t, control);
    PercentWrites(cam, t, control);
    ValueWrites(cam, t, control);
    AutoWrites(cam, t, control);
  }
}

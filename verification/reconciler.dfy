/** The configuration reconciler of the gateway: `set_configuration`
    applies the present fields of a request through the driver setters in
    a fixed order and stops at the first non-OK status (no rollback);
    `get_configuration` expands `ALL`, reads every getter of each requested
    group in a fixed order, clears a field whose getter is UNIMPLEMENTED and
    stops at any other failure. Every driver call is recorded in a log. */
module Reconciler {
  import opened Wrappers
  import opened Status
  import opened Config
  import opened Driver

  // ---------------------------------------------------------------------
  // set_configuration
  // ---------------------------------------------------------------------

  /** The order in which camera settings are applied. */
  const SetOrder: seq<Knob> := [
    Brightness, Exposure, Focus, Gain, Gamma, Hue, Iris,
    Saturation, Sharpness, Shutter, WhiteBalanceBu, WhiteBalanceRv, Zoom]

  /** Position of a control in `SetOrder`. */
  function KnobIndex(k: Knob): (i: nat)
    ensures i < |SetOrder| && SetOrder[i] == k
  {
    match k
    case Brightness => 0
    case Exposure => 1
    case Focus => 2
    case Gain => 3
    case Gamma => 4
    case Hue => 5
    case Iris => 6
    case Saturation => 7
    case Sharpness => 8
    case Shutter => 9
    case WhiteBalanceBu => 10
    case WhiteBalanceRv => 11
    case Zoom => 12
  }

  /** Setter calls of the present image fields. */
  function ImageCalls(img: ImageSettings): seq<Call> {
    (if img.resolution.Some? then [SetResolution(img.resolution.value)] else [])
    + (if img.colorSpace.Some? then [SetColorSpace(img.colorSpace.value)] else [])
    + (if img.format.Some? then [SetImageFormat(img.format.value)] else [])
    + (if img.region.Some? then [SetRegionOfInterest(img.region.value)] else [])
  }

  /** Setter calls of the present sampling fields: only a frequency is
      forwarded; a period is never applied. */
  function SamplingCalls(smp: SamplingSettings): seq<Call> {
    (if smp.rate.Frequency? then [SetSamplingRate(smp.rate.hz)] else [])
    + (if smp.delay.Some? then [SetDelay(smp.delay.value)] else [])
  }

  /** Setter calls of the present controls among `knobs`, in that order. */
  function KnobCalls(knobs: seq<Knob>, cam: CameraSettings): seq<Call>
    decreases |knobs|
  {
    if knobs == [] then []
    else
      (if knobs[0] in cam then [SetSetting(knobs[0], cam[knobs[0]])] else [])
      + KnobCalls(knobs[1..], cam)
  }

  /** Every setter call `set_configuration` would make if all succeeded. */
  function SetPlan(cfg: CameraConfig): seq<Call> {
    (if cfg.image.Some? then ImageCalls(cfg.image.value) else [])
    + (if cfg.sampling.Some? then SamplingCalls(cfg.sampling.value) else [])
    + (if cfg.camera.Some? then KnobCalls(SetOrder, cfg.camera.value) else [])
  }

  /** Position of a setter in the fixed apply order: image fields, then
      sampling fields, then camera controls in `SetOrder`. */
  function SetRank(c: Call): nat {
    match c
    case SetResolution(_) => 0
    case SetColorSpace(_) => 1
    case SetImageFormat(_) => 2
    case SetRegionOfInterest(_) => 3
    case SetSamplingRate(_) => 4
    case SetDelay(_) => 5
    case SetSetting(k, _) => 6 + KnobIndex(k)
    case _ => 0
  }

  /** `c` is the setter call of a present image field, with its value. */
  predicate ImageCarries(img: ImageSettings, c: Call) {
    || (c.SetResolution? && img.resolution == Some(c.resolution))
    || (c.SetColorSpace? && img.colorSpace == Some(c.colorSpace))
    || (c.SetImageFormat? && img.format == Some(c.format))
    || (c.SetRegionOfInterest? && img.region == Some(c.region))
  }

  /** `c` is the setter call of a present sampling field, with its value;
      a period is never carried. */
  predicate SamplingCarries(smp: SamplingSettings, c: Call) {
    || (c.SetSamplingRate? && smp.rate == Frequency(c.rate))
    || (c.SetDelay? && smp.delay == Some(c.delay))
  }

  /** `c` is the setter call of a present camera control, with its value. */
  predicate CameraCarries(cam: CameraSettings, c: Call) {
    c.SetSetting? && c.knob in cam && cam[c.knob] == c.setting
  }

  /** `c` is the setter call for a field present in `cfg`, with its value. */
  predicate Carries(cfg: CameraConfig, c: Call) {
    || (cfg.image.Some? && ImageCarries(cfg.image.value, c))
    || (cfg.sampling.Some? && SamplingCarries(cfg.sampling.value, c))
    || (cfg.camera.Some? && CameraCarries(cfg.camera.value, c))
  }

  /** Strictly increasing apply rank. */
  predicate RankSorted(calls: seq<Call>) {
    forall i, j :: 0 <= i < j < |calls| ==> SetRank(calls[i]) < SetRank(calls[j])
  }

  /** Strictly increasing position in `SetOrder`. */
  predicate KnobsSorted(knobs: seq<Knob>) {
    forall i, j :: 0 <= i < j < |knobs| ==> KnobIndex(knobs[i]) < KnobIndex(knobs[j])
  }

  /** The calls for the listed knobs are the setter calls of exactly those
      listed knobs present in `cam`, each with its value. */
  lemma {:induction false} KnobCallsMembers(knobs: seq<Knob>, cam: CameraSettings)
    ensures forall c :: c in KnobCalls(knobs, cam) <==> CameraCarries(cam, c) && c.knob in knobs
    decreases |knobs|
  {
    if knobs != [] {
      var rest := knobs[1..];
      KnobCallsMembers(rest, cam);
      var head := if knobs[0] in cam then [SetSetting(knobs[0], cam[knobs[0]])] else [];
      assert KnobCalls(knobs, cam) == head + KnobCalls(rest, cam);
      forall c ensures c in KnobCalls(knobs, cam) <==> CameraCarries(cam, c) && c.knob in knobs
      {
        if c.SetSetting? && c.knob in knobs && c.knob != knobs[0] {
          var j :| 0 <= j < |knobs| && knobs[j] == c.knob;
          assert rest[j - 1] == c.knob;
        }
      }
    }
  }

  lemma KnobsSortedTail(knobs: seq<Knob>)
    requires knobs != [] && KnobsSorted(knobs)
    ensures KnobsSorted(knobs[1..])
  {
    var rest := knobs[1..];
    forall i, j | 0 <= i < j < |rest| ensures KnobIndex(rest[i]) < KnobIndex(rest[j]) {
      assert rest[i] == knobs[i + 1] && rest[j] == knobs[j + 1];
    }
  }

  /** Listing the knobs in apply order lists their calls in apply order. */
  lemma {:induction false} KnobCallsSorted(knobs: seq<Knob>, cam: CameraSettings)
    requires KnobsSorted(knobs)
    ensures RankSorted(KnobCalls(knobs, cam))
    decreases |knobs|
  {
    if knobs != [] {
      var rest := knobs[1..];
      KnobsSortedTail(knobs);
      KnobCallsSorted(rest, cam);
      var head := if knobs[0] in cam then [SetSetting(knobs[0], cam[knobs[0]])] else [];
      var tail := KnobCalls(rest, cam);
      assert KnobCalls(knobs, cam) == head + tail;
      var bound := 7 + KnobIndex(knobs[0]);
      assert forall c :: c in tail ==> bound <= SetRank(c) by {
        KnobCallsMembers(rest, cam);
        forall c | c in tail ensures bound <= SetRank(c) {
          var j :| 0 <= j < |rest| && rest[j] == c.knob;
          assert rest[j] == knobs[j + 1];
        }
      }
      RankSortedConcat(head, tail, bound);
    }
  }

  lemma RankSortedConcat(a: seq<Call>, b: seq<Call>, bound: nat)
    requires RankSorted(a) && RankSorted(b)
    requires forall x :: x in a ==> SetRank(x) < bound
    requires forall y :: y in b ==> bound <= SetRank(y)
    ensures RankSorted(a + b)
  {
    forall i, j | 0 <= i < j < |a + b| ensures SetRank((a + b)[i]) < SetRank((a + b)[j]) {
      if j < |a| {
      } else if i >= |a| {
        assert (a + b)[i] == b[i - |a|] && (a + b)[j] == b[j - |a|];
      } else {
        assert (a + b)[i] in a && (a + b)[j] in b;
      }
    }
  }

  lemma SetOrderSorted()
    ensures KnobsSorted(SetOrder)
  {
    forall i, j | 0 <= i < j < |SetOrder| ensures KnobIndex(SetOrder[i]) < KnobIndex(SetOrder[j]) {
      assert forall k :: 0 <= k < |SetOrder| ==> KnobIndex(SetOrder[k]) == k;
    }
  }

  /** Image setter calls: one per present image field, in field order. */
  lemma ImageCallsSpec(img: ImageSettings)
    ensures forall c :: c in ImageCalls(img) <==> ImageCarries(img, c)
    ensures RankSorted(ImageCalls(img))
    ensures forall c :: c in ImageCalls(img) ==> SetRank(c) <= 3
  {
  }

  /** Sampling setter calls: the frequency (never a period), then the delay. */
  lemma SamplingCallsSpec(smp: SamplingSettings)
    ensures forall c :: c in SamplingCalls(smp) <==> SamplingCarries(smp, c)
    ensures RankSorted(SamplingCalls(smp))
    ensures forall c :: c in SamplingCalls(smp) ==> 4 <= SetRank(c) <= 5
  {
  }

  lemma SetPlanMembers(cfg: CameraConfig)
    ensures forall c :: c in SetPlan(cfg) <==> Carries(cfg, c)
  {
    var img := if cfg.image.Some? then ImageCalls(cfg.image.value) else [];
    var smp := if cfg.sampling.Some? then SamplingCalls(cfg.sampling.value) else [];
    var cam := if cfg.camera.Some? then KnobCalls(SetOrder, cfg.camera.value) else [];
    assert SetPlan(cfg) == img + smp + cam;
    if cfg.image.Some? { ImageCallsSpec(cfg.image.value); }
    if cfg.sampling.Some? { SamplingCallsSpec(cfg.sampling.value); }
    if cfg.camera.Some? {
      SetOrderSorted();
      KnobCallsMembers(SetOrder, cfg.camera.value);
      forall k: Knob ensures k in SetOrder { assert SetOrder[KnobIndex(k)] == k; }
    }
    forall c ensures c in SetPlan(cfg) <==> Carries(cfg, c) {
      assert c in SetPlan(cfg) <==> c in img || c in smp || c in cam;
      assert c in img <==> cfg.image.Some? && ImageCarries(cfg.image.value, c);
      assert c in smp <==> cfg.sampling.Some? && SamplingCarries(cfg.sampling.value, c);
      assert c in cam <==> cfg.camera.Some? && CameraCarries(cfg.camera.value, c);
    }
  }

  lemma CameraCallsSorted(cam: CameraSettings)
    ensures RankSorted(KnobCalls(SetOrder, cam))
    ensures forall c :: c in KnobCalls(SetOrder, cam) ==> 6 <= SetRank(c)
  {
    SetOrderSorted();
    KnobCallsSorted(SetOrder, cam);
    KnobCallsMembers(SetOrder, cam);
  }

  lemma SetPlanSorted(cfg: CameraConfig)
    ensures RankSorted(SetPlan(cfg))
  {
    var img := if cfg.image.Some? then ImageCalls(cfg.image.value) else [];
    var smp := if cfg.sampling.Some? then SamplingCalls(cfg.sampling.value) else [];
    var cam := if cfg.camera.Some? then KnobCalls(SetOrder, cfg.camera.value) else [];
    assert SetPlan(cfg) == img + smp + cam;
    assert RankSorted(img) && forall c :: c in img ==> SetRank(c) < 4 by {
      if cfg.image.Some? { ImageCallsSpec(cfg.image.value); }
    }
    assert RankSorted(smp) && forall c :: c in smp ==> 4 <= SetRank(c) < 6 by {
      if cfg.sampling.Some? { SamplingCallsSpec(cfg.sampling.value); }
    }
    assert RankSorted(cam) && forall c :: c in cam ==> 6 <= SetRank(c) by {
      if cfg.camera.Some? { CameraCallsSorted(cfg.camera.value); }
    }
    RankSortedConcat(img, smp, 4);
    assert forall c :: c in img + smp ==> SetRank(c) < 6;
    RankSortedConcat(img + smp, cam, 6);
  }

  /** The plan holds exactly one call per present field, carrying that
      field's value, in the fixed apply order; absent fields (and a
      period-only rate) cause no call. */
  lemma SetPlanSpec(cfg: CameraConfig)
    ensures forall c :: c in SetPlan(cfg) <==> Carries(cfg, c)
    ensures RankSorted(SetPlan(cfg))
  {
    SetPlanMembers(cfg);
    SetPlanSorted(cfg);
  }

  /** The outcome of applying a request: the status returned, the driver
      calls made, and the driver's final state. */
  datatype Applied<S> = Applied(status: Status, log: seq<Call>, state: S)

  /** Issue `plan` through `is_assert_set`: stop at, and return, the first
      non-OK status; calls already made are not undone. */
  function Apply<S>(d: Driver<S>, st: S, plan: seq<Call>): (r: Applied<S>)
    ensures |r.log| <= |plan| && r.log == plan[..|r.log|]
    ensures r.status.code == OK ==> r.log == plan
    ensures r.status.code == OK <==> OkBefore(d, st, plan, |plan|)
    ensures r.status.code != OK ==>
      && |r.log| > 0
      && r.status == Replies(d, st, plan)[|r.log| - 1].status
      && OkBefore(d, st, plan, |r.log| - 1)
    decreases |plan|
  {
    if plan == [] then Applied(Ok, [], st)
    else
      var reply := d.step(st, plan[0]);
      match AssertSet(reply.status)
      case Return(s) =>
        ApplyStops(d, st, plan);
        Applied(s, [plan[0]], reply.next)
      case Continue =>
        var rest := Apply(d, reply.next, plan[1..]);
        ApplyContinues(d, st, plan, rest);
        Applied(rest.status, [plan[0]] + rest.log, rest.state)
  }

  /** The postcondition of `Apply`, gathered so that its inductive step can
      be proved on its own. */
  ghost predicate Applies<S>(d: Driver<S>, st: S, plan: seq<Call>, r: Applied<S>) {
    && |r.log| <= |plan| && r.log == plan[..|r.log|]
    && (r.status.code == OK ==> r.log == plan)
    && (r.status.code == OK <==> OkBefore(d, st, plan, |plan|))
    && (r.status.code != OK ==>
         && |r.log| > 0
         && r.status == Replies(d, st, plan)[|r.log| - 1].status
         && OkBefore(d, st, plan, |r.log| - 1))
  }

  /** The first `n` calls of a run all answer OK. */
  predicate OkBefore<S>(d: Driver<S>, st: S, plan: seq<Call>, n: nat)
    requires n <= |plan|
  {
    forall i :: 0 <= i < n ==> Replies(d, st, plan)[i].status.code == OK
  }

  /** A first call that fails ends the run with its status. */
  lemma ApplyStops<S>(d: Driver<S>, st: S, plan: seq<Call>)
    requires |plan| > 0 && d.step(st, plan[0]).status.code != OK
    ensures Replies(d, st, plan)[0] == d.step(st, plan[0])
    ensures Applies(d, st, plan, Applied(d.step(st, plan[0]).status, [plan[0]], d.step(st, plan[0]).next))
  {
    RepliesCons(d, st, plan);
  }

  /** A first call that succeeds leaves the outcome to the rest of the plan. */
  lemma ApplyContinues<S>(d: Driver<S>, st: S, plan: seq<Call>, rest: Applied<S>)
    requires |plan| > 0 && d.step(st, plan[0]).status.code == OK
    requires Applies(d, d.step(st, plan[0]).next, plan[1..], rest)
    ensures Applies(d, st, plan, Applied(rest.status, [plan[0]] + rest.log, rest.state))
  {
    RepliesCons(d, st, plan);
    var r := Applied(rest.status, [plan[0]] + rest.log, rest.state);
    assert r.log == plan[..|r.log|];
    if r.status.code != OK {
      var rs := Replies(d, st, plan);
      assert rs[|r.log| - 1] == Replies(d, d.step(st, plan[0]).next, plan[1..])[|rest.log| - 1];
    }
  }

  /** The replies to a non-empty run: the first call's, then those of the
      rest from the state it left. */
  lemma RepliesCons<S>(d: Driver<S>, st: S, calls: seq<Call>)
    requires |calls| > 0
    ensures Replies(d, st, calls)[0] == d.step(st, calls[0])
    ensures forall i :: 0 <= i < |calls| - 1 ==>
      Replies(d, st, calls)[i + 1] == Replies(d, d.step(st, calls[0]).next, calls[1..])[i]
  {
    assert Replies(d, st, calls) == [d.step(st, calls[0])] + Replies(d, d.step(st, calls[0]).next, calls[1..]);
  }

  /** `set_configuration`: only present fields are applied, in the fixed
      order; the first failing setter's exact status is returned and no
      later setter is invoked; OK when every setter succeeded (or there was
      nothing to apply). */
  function SetConfiguration<S>(d: Driver<S>, st: S, cfg: CameraConfig): (r: Applied<S>)
    ensures forall c :: c in r.log ==> Carries(cfg, c)
    ensures RankSorted(r.log)
    ensures |r.log| <= |SetPlan(cfg)|
    ensures r.log == SetPlan(cfg)[..|r.log|]
    ensures r.status.code == OK <==>
      r.log == SetPlan(cfg) && forall i :: 0 <= i < |r.log| ==> Replies(d, st, r.log)[i].status.code == OK
    ensures r.status.code != OK ==>
      && |r.log| > 0
      && r.status == Replies(d, st, r.log)[|r.log| - 1].status
      && forall i :: 0 <= i < |r.log| - 1 ==> Replies(d, st, r.log)[i].status.code == OK
  {
    SetPlanSpec(cfg);
    var plan := SetPlan(cfg);
    var r := Apply(d, st, plan);
    RepliesPrefix(d, st, plan, |r.log|);
    r
  }

  /** The replies to a prefix of a plan are the prefix of its replies. */
  lemma {:induction false} RepliesPrefix<S>(d: Driver<S>, st: S, calls: seq<Call>, n: nat)
    requires n <= |calls|
    ensures Replies(d, st, calls[..n]) == Replies(d, st, calls)[..n]
    decreases n
  {
    if n > 0 {
      var rep := d.step(st, calls[0]);
      assert calls[..n][1..] == calls[1..][..n - 1];
      RepliesPrefix(d, rep.next, calls[1..], n - 1);
    }
  }

  // ---------------------------------------------------------------------
  // get_configuration
  // ---------------------------------------------------------------------

  /** The order in which camera settings are read. */
  const GetOrder: seq<Knob> := [
    Shutter, Gain, Brightness, WhiteBalanceBu, WhiteBalanceRv, Sharpness,
    Gamma, Exposure, Hue, Saturation, Focus, Zoom, Iris]

  const ImageGetters: seq<Call> :=
    [GetResolution, GetColorSpace, GetImageFormat, GetRegionOfInterest]

  const SamplingGetters: seq<Call> := [GetSamplingRate, GetDelay]

  const CameraGetters: seq<Call> := [
    GetSetting(Shutter), GetSetting(Gain), GetSetting(Brightness),
    GetSetting(WhiteBalanceBu), GetSetting(WhiteBalanceRv), GetSetting(Sharpness),
    GetSetting(Gamma), GetSetting(Exposure), GetSetting(Hue), GetSetting(Saturation),
    GetSetting(Focus), GetSetting(Zoom), GetSetting(Iris)]

  /** The three groups `ALL` stands for, in the order they are read. */
  const AllGroups: seq<Field> := [IMAGE_SETTINGS, SAMPLING_SETTINGS, CAMERA_SETTINGS]

  /** Every getter, each once, as a read of `ALL` issues them. */
  const AllGetters: seq<Call> := ImageGetters + SamplingGetters + CameraGetters

  /** The getters of one group, in the order they are read. */
  function Getters(f: Field): seq<Call> {
    match f
    case IMAGE_SETTINGS => ImageGetters
    case SAMPLING_SETTINGS => SamplingGetters
    case CAMERA_SETTINGS => CameraGetters
    case ALL => []
  }

  /** The selector as processed: `ALL` anywhere replaces it by the three
      groups; otherwise the entries in the order listed. */
  function Expand(sel: FieldSelector): seq<Field> {
    if ALL in sel then AllGroups else sel
  }

  /** The getters of `fields`, group after group. */
  function Flatten(fields: seq<Field>): seq<Call>
    decreases |fields|
  {
    if fields == [] then [] else Getters(fields[0]) + Flatten(fields[1..])
  }

  /** The configuration group a call belongs to. */
  function GroupOf(c: Call): Field {
    match c
    case SetResolution(_) => IMAGE_SETTINGS
    case SetColorSpace(_) => IMAGE_SETTINGS
    case SetImageFormat(_) => IMAGE_SETTINGS
    case SetRegionOfInterest(_) => IMAGE_SETTINGS
    case GetResolution => IMAGE_SETTINGS
    case GetColorSpace => IMAGE_SETTINGS
    case GetImageFormat => IMAGE_SETTINGS
    case GetRegionOfInterest => IMAGE_SETTINGS
    case SetSamplingRate(_) => SAMPLING_SETTINGS
    case SetDelay(_) => SAMPLING_SETTINGS
    case GetSamplingRate => SAMPLING_SETTINGS
    case GetDelay => SAMPLING_SETTINGS
    case SetSetting(_, _) => CAMERA_SETTINGS
    case GetSetting(_) => CAMERA_SETTINGS
  }

  function ImageOf(cfg: CameraConfig): ImageSettings { cfg.image.GetOr(EmptyImage) }
  function SamplingOf(cfg: CameraConfig): SamplingSettings { cfg.sampling.GetOr(EmptySampling) }
  function CameraOf(cfg: CameraConfig): CameraSettings { cfg.camera.GetOr(EmptyCamera) }

  /** The group `f` is present in `cfg` (`ALL` is never a group). */
  predicate GroupPresent(cfg: CameraConfig, f: Field) {
    match f
    case IMAGE_SETTINGS => cfg.image.Some?
    case SAMPLING_SETTINGS => cfg.sampling.Some?
    case CAMERA_SETTINGS => cfg.camera.Some?
    case ALL => false
  }

  /** `mutable_image()` and its siblings: create the group if absent. */
  function Touch(cfg: CameraConfig, f: Field): CameraConfig {
    match f
    case IMAGE_SETTINGS => cfg.(image := Some(ImageOf(cfg)))
    case SAMPLING_SETTINGS => cfg.(sampling := Some(SamplingOf(cfg)))
    case CAMERA_SETTINGS => cfg.(camera := Some(CameraOf(cfg)))
    case ALL => cfg
  }

  /** The field a getter reads, as a value, if present. */
  function Slot(cfg: CameraConfig, c: Call): Option<Value> {
    match c
    case GetResolution =>
      if cfg.image.Some? && cfg.image.value.resolution.Some?
      then Some(ResolutionValue(cfg.image.value.resolution.value)) else None
    case GetColorSpace =>
      if cfg.image.Some? && cfg.image.value.colorSpace.Some?
      then Some(ColorSpaceValue(cfg.image.value.colorSpace.value)) else None
    case GetImageFormat =>
      if cfg.image.Some? && cfg.image.value.format.Some?
      then Some(FormatValue(cfg.image.value.format.value)) else None
    case GetRegionOfInterest =>
      if cfg.image.Some? && cfg.image.value.region.Some?
      then Some(RegionValue(cfg.image.value.region.value)) else None
    case GetSamplingRate =>
      if cfg.sampling.Some? && cfg.sampling.value.rate.Frequency?
      then Some(FloatValue(cfg.sampling.value.rate.hz)) else None
    case GetDelay =>
      if cfg.sampling.Some? && cfg.sampling.value.delay.Some?
      then Some(FloatValue(cfg.sampling.value.delay.value)) else None
    case GetSetting(k) =>
      if cfg.camera.Some? && k in cfg.camera.value
      then Some(SettingValue(cfg.camera.value[k])) else None
    case _ => None
  }

  /** `v` is a message of the type of the field getter `c` reads. */
  predicate Fits(c: Call, v: Value) {
    match c
    case GetResolution => v.ResolutionValue?
    case GetColorSpace => v.ColorSpaceValue?
    case GetImageFormat => v.FormatValue?
    case GetRegionOfInterest => v.RegionValue?
    case GetSamplingRate => v.FloatValue?
    case GetDelay => v.FloatValue?
    case GetSetting(_) => v.SettingValue?
    case _ => false
  }

  /** The message `mutable_*` creates when the field is absent. */
  function Blank(c: Call): Value {
    match c
    case GetResolution => ResolutionValue(DefaultResolution)
    case GetColorSpace => ColorSpaceValue(DefaultColorSpace)
    case GetImageFormat => FormatValue(DefaultFormat)
    case GetRegionOfInterest => RegionValue(DefaultRegion)
    case GetSamplingRate => FloatValue(0.0)
    case GetDelay => FloatValue(0.0)
    case GetSetting(_) => SettingValue(DefaultSetting)
    case _ => Unwritten
  }

  /** What a getter's field holds after it returned OK having written `v`,
      given what the field held before: the written message, or, when it
      wrote nothing of the field's type, the earlier message that
      `mutable_*` handed it, or a default message when the field was absent. */
  function Normalize(c: Call, v: Value, prior: Option<Value>): Value {
    if Fits(c, v) then v
    else if prior.Some? && Fits(c, prior.value) then prior.value
    else Blank(c)
  }

  /** A getter returned OK: its field holds what it wrote, or keeps what it
      held when the getter wrote nothing; no other field changes, and only
      its own group can appear. */
  function Store(cfg: CameraConfig, c: Call, v: Value): (r: CameraConfig)
    ensures c.IsGetter() ==> Slot(r, c) == Some(Normalize(c, v, Slot(cfg, c)))
    ensures forall c' :: c' != c ==> Slot(r, c') == Slot(cfg, c')
    ensures forall f :: GroupPresent(r, f) <==> GroupPresent(cfg, f) || (c.IsGetter() && f == GroupOf(c))
  {
    var n := Normalize(c, v, Slot(cfg, c));
    match c
    case GetResolution => cfg.(image := Some(ImageOf(cfg).(resolution := Some(n.resolution))))
    case GetColorSpace => cfg.(image := Some(ImageOf(cfg).(colorSpace := Some(n.colorSpace))))
    case GetImageFormat => cfg.(image := Some(ImageOf(cfg).(format := Some(n.format))))
    case GetRegionOfInterest => cfg.(image := Some(ImageOf(cfg).(region := Some(n.region))))
    case GetSamplingRate => cfg.(sampling := Some(SamplingOf(cfg).(rate := Frequency(n.x))))
    case GetDelay => cfg.(sampling := Some(SamplingOf(cfg).(delay := Some(n.x))))
    case GetSetting(k) => cfg.(camera := Some(CameraOf(cfg)[k := n.setting]))
    case _ => cfg
  }

  /** A getter returned UNIMPLEMENTED: the releaser clears its field; no
      other field changes, and its group stays present. */
  function Clear(cfg: CameraConfig, c: Call): (r: CameraConfig)
    ensures Slot(r, c) == None
    ensures forall c' :: c' != c ==> Slot(r, c') == Slot(cfg, c')
    ensures forall f :: GroupPresent(r, f) <==> GroupPresent(cfg, f) || (c.IsGetter() && f == GroupOf(c))
  {
    match c
    case GetResolution => cfg.(image := Some(ImageOf(cfg).(resolution := None)))
    case GetColorSpace => cfg.(image := Some(ImageOf(cfg).(colorSpace := None)))
    case GetImageFormat => cfg.(image := Some(ImageOf(cfg).(format := None)))
    case GetRegionOfInterest => cfg.(image := Some(ImageOf(cfg).(region := None)))
    case GetSamplingRate => cfg.(sampling := Some(SamplingOf(cfg).(rate := RateNotSet)))
    case GetDelay => cfg.(sampling := Some(SamplingOf(cfg).(delay := None)))
    case GetSetting(k) => cfg.(camera := Some(CameraOf(cfg) - {k}))
    case _ => cfg
  }

  /** Statuses `get_configuration` reads past. */
  predicate Tolerated(s: Status) {
    s.code == OK || s.code == UNIMPLEMENTED
  }

  /** The field a getter leaves behind, given its reply and what the field
      held before the call. */
  function Expected<S>(c: Call, rep: Reply<S>, prior: Option<Value>): Option<Value> {
    if rep.status.code == OK then Some(Normalize(c, rep.value, prior)) else None
  }

  /** Some getter in `calls` belongs to group `f`. */
  predicate Mentions(calls: seq<Call>, f: Field) {
    exists i :: 0 <= i < |calls| && calls[i].IsGetter() && GroupOf(calls[i]) == f
  }

  /** The outcome of a read: the status returned, the response built, the
      driver calls made, and the driver's final state. */
  datatype Read<S> = Read(status: Status, config: CameraConfig, log: seq<Call>, state: S)

  /** The response after one getter replied: its field filled (or kept)
      when the reply is OK, released otherwise. */
  function Absorb<S>(cfg: CameraConfig, c: Call, reply: Reply<S>): (r: CameraConfig)
    ensures c.IsGetter() ==> Slot(r, c) == Expected(c, reply, Slot(cfg, c))
    ensures forall c' :: c' != c ==> Slot(r, c') == Slot(cfg, c')
    ensures forall f :: GroupPresent(r, f) <==> GroupPresent(cfg, f) || (c.IsGetter() && f == GroupOf(c))
  {
    if reply.status.code == OK then Store(cfg, c, reply.value) else Clear(cfg, c)
  }

  /** Issue getters through `is_assert_get`: OK keeps the field,
      UNIMPLEMENTED clears it and reading goes on, anything else stops the
      read and is returned. */
  function ReadCalls<S>(d: Driver<S>, st: S, calls: seq<Call>, cfg: CameraConfig): (r: Read<S>)
    ensures |r.log| <= |calls| && r.log == calls[..|r.log|]
    ensures r.status.code == OK ==> r.log == calls
    decreases |calls|
  {
    if calls == [] then Read(Ok, cfg, [], st)
    else
      var reply := d.step(st, calls[0]);
      var flow := AssertGet(reply.status);
      if flow.Abort? then Read(flow.status, cfg, [calls[0]], reply.next)
      else
        var rest := ReadCalls(d, reply.next, calls[1..], Absorb(cfg, calls[0], reply));
        Read(rest.status, rest.config, [calls[0]] + rest.log, rest.state)
  }

  /** A read succeeds exactly when every reply is OK or UNIMPLEMENTED;
      otherwise it returns the first other status, and the call that
      produced it is the last one made. */
  lemma {:induction false} ReadCallsStatus<S>(d: Driver<S>, st: S, calls: seq<Call>, cfg: CameraConfig)
    ensures ReadCalls(d, st, calls, cfg).status.code == OK ==>
      forall i :: 0 <= i < |calls| ==> Tolerated(Replies(d, st, calls)[i].status)
    ensures (forall i :: 0 <= i < |calls| ==> Tolerated(Replies(d, st, calls)[i].status)) ==>
      ReadCalls(d, st, calls, cfg).status.code == OK
    ensures ReadCalls(d, st, calls, cfg).status.code != OK ==>
      && |ReadCalls(d, st, calls, cfg).log| > 0
      && ReadCalls(d, st, calls, cfg).status == Replies(d, st, calls)[|ReadCalls(d, st, calls, cfg).log| - 1].status
      && !Tolerated(ReadCalls(d, st, calls, cfg).status)
      && forall i :: 0 <= i < |ReadCalls(d, st, calls, cfg).log| - 1 ==> Tolerated(Replies(d, st, calls)[i].status)
    decreases |calls|
  {
    if calls != [] {
      var reply := d.step(st, calls[0]);
      var all := Replies(d, st, calls);
      var tail := calls[1..];
      var trest := Replies(d, reply.next, tail);
      assert all == [reply] + trest;
      assert all[0] == reply;
      if Tolerated(reply.status) {
        var c := Absorb(cfg, calls[0], reply);
        ReadCallsStatus(d, reply.next, tail, c);
        var rest := ReadCalls(d, reply.next, tail, c);
        assert ReadCalls(d, st, calls, cfg) == Read(rest.status, rest.config, [calls[0]] + rest.log, rest.state);
        if rest.status.code == OK {
          forall i | 0 <= i < |calls| ensures Tolerated(all[i].status) {
            if i > 0 { assert all[i] == trest[i - 1]; }
          }
        } else {
          assert all[|rest.log|] == trest[|rest.log| - 1];
          forall i | 0 <= i < |rest.log| ensures Tolerated(all[i].status) {
            if i > 0 { assert all[i] == trest[i - 1]; }
          }
        }
        if forall i :: 0 <= i < |calls| ==> Tolerated(all[i].status) {
          forall i | 0 <= i < |tail| ensures Tolerated(trest[i].status) {
            assert trest[i] == all[i + 1];
          }
        }
      }
    }
  }

  /** When a read succeeds, each getter not repeated later leaves its field
      as its reply says, starting from what the field held when that getter
      ran (the response after the calls before it), and every group a getter
      belongs to is present; fields no getter reads are left alone. */
  lemma {:induction false} ReadCallsSlots<S>(d: Driver<S>, st: S, calls: seq<Call>, cfg: CameraConfig)
    ensures ReadCalls(d, st, calls, cfg).status.code == OK ==>
      forall i :: 0 <= i < |calls| && calls[i].IsGetter() && calls[i] !in calls[i + 1..] ==>
        Slot(ReadCalls(d, st, calls, cfg).config, calls[i])
          == Expected(calls[i], Replies(d, st, calls)[i], Slot(ReadCalls(d, st, calls[..i], cfg).config, calls[i]))
    ensures ReadCalls(d, st, calls, cfg).status.code == OK ==>
      forall i :: 0 <= i < |calls| && calls[i].IsGetter() ==>
        GroupPresent(ReadCalls(d, st, calls, cfg).config, GroupOf(calls[i]))
    ensures forall c :: c !in calls ==> Slot(ReadCalls(d, st, calls, cfg).config, c) == Slot(cfg, c)
    decreases |calls|
  {
    if calls != [] {
      var reply := d.step(st, calls[0]);
      var all := Replies(d, st, calls);
      var tail := calls[1..];
      var trest := Replies(d, reply.next, tail);
      assert all == [reply] + trest;
      assert all[0] == reply;
      if Tolerated(reply.status) {
        var c := Absorb(cfg, calls[0], reply);
        ReadCallsSlots(d, reply.next, tail, c);
        ReadCallsGroups(d, reply.next, tail, c);
        var rest := ReadCalls(d, reply.next, tail, c);
        assert ReadCalls(d, st, calls, cfg).config == rest.config;
        assert ReadCalls(d, st, calls, cfg).status == rest.status;
        if rest.status.code == OK {
          forall i | 0 <= i < |calls| && calls[i].IsGetter() && calls[i] !in calls[i + 1..]
            ensures Slot(rest.config, calls[i])
              == Expected(calls[i], all[i], Slot(ReadCalls(d, st, calls[..i], cfg).config, calls[i]))
          {
            if i == 0 {
              assert calls[0] !in tail;
              assert calls[..0] == [];
            } else {
              assert tail[i - 1] == calls[i];
              assert tail[i..] == calls[i + 1..];
              assert all[i] == trest[i - 1];
              var pre := calls[..i];
              assert pre != [] && pre[0] == calls[0] && pre[1..] == tail[..i - 1];
              assert ReadCalls(d, st, pre, cfg).config == ReadCalls(d, reply.next, tail[..i - 1], c).config;
            }
          }
          forall i | 0 <= i < |calls| && calls[i].IsGetter()
            ensures GroupPresent(rest.config, GroupOf(calls[i]))
          {
            if i > 0 { assert tail[i - 1] == calls[i]; }
          }
        }
        forall c' | c' !in calls ensures Slot(rest.config, c') == Slot(cfg, c') {
          assert c' !in tail;
        }
      }
    }
  }

  /** A getter read for the first time finds its field as the read started. */
  lemma ReadCallsFirstPrior<S>(d: Driver<S>, st: S, calls: seq<Call>, cfg: CameraConfig, i: nat)
    requires i < |calls| && calls[i] !in calls[..i]
    ensures Slot(ReadCalls(d, st, calls[..i], cfg).config, calls[i]) == Slot(cfg, calls[i])
  {
    ReadCallsSlots(d, st, calls[..i], cfg);
  }

  /** A read never removes a group, and adds only groups its getters
      belong to. */
  lemma {:induction false} ReadCallsGroups<S>(d: Driver<S>, st: S, calls: seq<Call>, cfg: CameraConfig)
    ensures forall f :: GroupPresent(cfg, f) ==> GroupPresent(ReadCalls(d, st, calls, cfg).config, f)
    ensures forall f :: GroupPresent(ReadCalls(d, st, calls, cfg).config, f) ==>
      GroupPresent(cfg, f) || Mentions(calls, f)
    decreases |calls|
  {
    if calls != [] {
      var reply := d.step(st, calls[0]);
      if Tolerated(reply.status) {
        var tail := calls[1..];
        var c := Absorb(cfg, calls[0], reply);
        ReadCallsGroups(d, reply.next, tail, c);
        var rest := ReadCalls(d, reply.next, tail, c);
        assert ReadCalls(d, st, calls, cfg).config == rest.config;
        forall f | GroupPresent(rest.config, f) && !GroupPresent(cfg, f) ensures Mentions(calls, f) {
          if GroupPresent(c, f) {
            assert calls[0].IsGetter() && GroupOf(calls[0]) == f;
          } else {
            var j :| 0 <= j < |tail| && tail[j].IsGetter() && GroupOf(tail[j]) == f;
            assert calls[j + 1] == tail[j];
          }
        }
      }
    }
  }

  /** Reading does not depend on the response being filled: the status,
      the calls made and the driver's final state are the same whatever
      the starting configuration. */
  lemma {:induction false} ReadCallsConfigFree<S>(d: Driver<S>, st: S, calls: seq<Call>, cfg1: CameraConfig, cfg2: CameraConfig)
    ensures ReadCalls(d, st, calls, cfg1).status == ReadCalls(d, st, calls, cfg2).status
    ensures ReadCalls(d, st, calls, cfg1).log == ReadCalls(d, st, calls, cfg2).log
    ensures ReadCalls(d, st, calls, cfg1).state == ReadCalls(d, st, calls, cfg2).state
    decreases |calls|
  {
    if calls != [] {
      var reply := d.step(st, calls[0]);
      if Tolerated(reply.status) {
        var c1 := if reply.status.code == OK then Store(cfg1, calls[0], reply.value) else Clear(cfg1, calls[0]);
        var c2 := if reply.status.code == OK then Store(cfg2, calls[0], reply.value) else Clear(cfg2, calls[0]);
        ReadCallsConfigFree(d, reply.next, calls[1..], c1, c2);
      }
    }
  }

  /** Reading `a + b` reads `a`, then (if that went through) reads `b`
      from where `a` left the driver and the response. */
  lemma {:induction false} ReadCallsAppend<S>(d: Driver<S>, st: S, a: seq<Call>, b: seq<Call>, cfg: CameraConfig)
    ensures ReadCalls(d, st, a, cfg).status.code != OK ==>
      ReadCalls(d, st, a + b, cfg) == ReadCalls(d, st, a, cfg)
    ensures ReadCalls(d, st, a, cfg).status.code == OK ==>
      var rb := ReadCalls(d, ReadCalls(d, st, a, cfg).state, b, ReadCalls(d, st, a, cfg).config);
      ReadCalls(d, st, a + b, cfg) == Read(rb.status, rb.config, a + rb.log, rb.state)
    decreases |a|
  {
    if a == [] {
      assert a + b == b;
    } else {
      var ab := a + b;
      assert ab != [] && ab[0] == a[0];
      assert ab[1..] == a[1..] + b;
      var reply := d.step(st, a[0]);
      if Tolerated(reply.status) {
        var c := Absorb(cfg, a[0], reply);
        ReadCallsAppend(d, reply.next, a[1..], b, c);
        var ra := ReadCalls(d, reply.next, a[1..], c);
        var rab := ReadCalls(d, reply.next, a[1..] + b, c);
        assert ReadCalls(d, st, a, cfg) == Read(ra.status, ra.config, [a[0]] + ra.log, ra.state);
        assert ReadCalls(d, st, ab, cfg) == Read(rab.status, rab.config, [a[0]] + rab.log, rab.state);
        if ra.status.code == OK {
          var rb := ReadCalls(d, ra.state, b, ra.config);
          assert [a[0]] + (a[1..] + rb.log) == a + rb.log;
        }
      }
    }
  }

  /** Creating a getter's group before the getter runs makes no difference
      to what the getter leaves behind. */
  lemma TouchThenStore(cfg: CameraConfig, c: Call, v: Value)
    requires c.IsGetter()
    ensures Store(Touch(cfg, GroupOf(c)), c, v) == Store(cfg, c, v)
    ensures Clear(Touch(cfg, GroupOf(c)), c) == Clear(cfg, c)
  {
  }

  /** Reading a group's getters into a response where the group was just
      created is the same as reading them into the response as it was:
      the first getter creates the group anyway. */
  lemma TouchedRead<S>(d: Driver<S>, st: S, f: Field, cfg: CameraConfig)
    ensures var r1 := ReadCalls(d, st, Getters(f), Touch(cfg, f));
      var r2 := ReadCalls(d, st, Getters(f), cfg);
      r1.status == r2.status && r1.log == r2.log && r1.state == r2.state
    ensures var r1 := ReadCalls(d, st, Getters(f), Touch(cfg, f));
      r1.status.code == OK ==> r1.config == ReadCalls(d, st, Getters(f), cfg).config
  {
    if f != ALL {
      var c0 := Getters(f)[0];
      assert c0.IsGetter() && GroupOf(c0) == f;
      TouchThenStore(cfg, c0, d.step(st, c0).value);
    }
  }

  /** One group's step of `ReadFields` against the flat read: the group's
      getters run first, into the response with the group created. */
  lemma FieldStep<S>(d: Driver<S>, st: S, f: Field, rest: seq<Field>, cfg: CameraConfig)
    ensures var head := ReadCalls(d, st, Getters(f), Touch(cfg, f));
      var flat := ReadCalls(d, st, Getters(f) + Flatten(rest), cfg);
      head.status.code != OK ==>
        flat.status == head.status && flat.log == head.log && flat.state == head.state
    ensures var head := ReadCalls(d, st, Getters(f), Touch(cfg, f));
      var flat := ReadCalls(d, st, Getters(f) + Flatten(rest), cfg);
      var tail := ReadCalls(d, head.state, Flatten(rest), head.config);
      head.status.code == OK ==> flat == Read(tail.status, tail.config, head.log + tail.log, tail.state)
  {
    TouchedRead(d, st, f, cfg);
    ReadCallsAppend(d, st, Getters(f), Flatten(rest), cfg);
  }

  /** Issue the getters of each group in `fields` in turn, creating each
      group in the response before its getters run; the first status other
      than OK or UNIMPLEMENTED ends the read. */
  function ReadFields<S>(d: Driver<S>, st: S, fields: seq<Field>, cfg: CameraConfig): (r: Read<S>)
    ensures r.status == ReadCalls(d, st, Flatten(fields), cfg).status
    ensures r.log == ReadCalls(d, st, Flatten(fields), cfg).log
    ensures r.state == ReadCalls(d, st, Flatten(fields), cfg).state
    ensures r.status.code == OK ==> r.config == ReadCalls(d, st, Flatten(fields), cfg).config
    decreases |fields|
  {
    if fields == [] then Read(Ok, cfg, [], st)
    else
      var f := fields[0];
      var head := ReadCalls(d, st, Getters(f), Touch(cfg, f));
      FieldStep(d, st, f, fields[1..], cfg);
      if head.status.code != OK then head
      else
        var rest := ReadFields(d, head.state, fields[1..], head.config);
        Read(rest.status, rest.config, head.log + rest.log, rest.state)
  }

  /** Creating a group adds no field. */
  lemma TouchSlots(cfg: CameraConfig, f: Field)
    ensures forall c :: Slot(Touch(cfg, f), c) == Slot(cfg, c)
    ensures forall g :: GroupPresent(Touch(cfg, f), g) <==> GroupPresent(cfg, g) || (f != ALL && g == f)
  {
  }

  /** The getters of a group belong to that group. */
  lemma GettersMentionOwnGroup(f: Field)
    ensures forall g :: Mentions(Getters(f), g) ==> g == f
  {
    forall g | Mentions(Getters(f), g) ensures g == f {
      var j :| 0 <= j < |Getters(f)| && Getters(f)[j].IsGetter() && GroupOf(Getters(f)[j]) == g;
    }
  }

  /** `ReadFields` never removes a group. */
  lemma {:induction false} ReadFieldsKeepsGroups<S>(d: Driver<S>, st: S, fields: seq<Field>, cfg: CameraConfig)
    ensures forall g :: GroupPresent(cfg, g) ==> GroupPresent(ReadFields(d, st, fields, cfg).config, g)
    decreases |fields|
  {
    if fields != [] {
      var f := fields[0];
      var touched := Touch(cfg, f);
      var head := ReadCalls(d, st, Getters(f), touched);
      TouchSlots(cfg, f);
      ReadCallsGroups(d, st, Getters(f), touched);
      if head.status.code == OK {
        ReadFieldsKeepsGroups(d, head.state, fields[1..], head.config);
        assert ReadFields(d, st, fields, cfg).config == ReadFields(d, head.state, fields[1..], head.config).config;
      } else {
        assert ReadFields(d, st, fields, cfg) == head;
      }
    }
  }

  /** `ReadFields` adds only the groups listed. */
  lemma {:induction false} ReadFieldsAddsListed<S>(d: Driver<S>, st: S, fields: seq<Field>, cfg: CameraConfig)
    ensures forall g :: GroupPresent(ReadFields(d, st, fields, cfg).config, g) ==> GroupPresent(cfg, g) || g in fields
    decreases |fields|
  {
    if fields != [] {
      var f := fields[0];
      var touched := Touch(cfg, f);
      var head := ReadCalls(d, st, Getters(f), touched);
      TouchSlots(cfg, f);
      ReadCallsGroups(d, st, Getters(f), touched);
      GettersMentionOwnGroup(f);
      if head.status.code == OK {
        ReadFieldsAddsListed(d, head.state, fields[1..], head.config);
        var rest := ReadFields(d, head.state, fields[1..], head.config);
        assert ReadFields(d, st, fields, cfg).config == rest.config;
        forall g | GroupPresent(rest.config, g) && !GroupPresent(cfg, g) ensures g in fields {
          if !GroupPresent(head.config, g) {
            assert g in fields[1..];
          }
        }
      } else {
        assert ReadFields(d, st, fields, cfg) == head;
      }
    }
  }

  /** A successful `ReadFields` leaves every listed group present. */
  lemma {:induction false} ReadFieldsListedPresent<S>(d: Driver<S>, st: S, fields: seq<Field>, cfg: CameraConfig)
    ensures ReadFields(d, st, fields, cfg).status.code == OK ==>
      forall g :: g in fields && g != ALL ==> GroupPresent(ReadFields(d, st, fields, cfg).config, g)
    decreases |fields|
  {
    if fields != [] {
      var f := fields[0];
      var touched := Touch(cfg, f);
      var head := ReadCalls(d, st, Getters(f), touched);
      TouchSlots(cfg, f);
      ReadCallsGroups(d, st, Getters(f), touched);
      if head.status.code == OK {
        ReadFieldsListedPresent(d, head.state, fields[1..], head.config);
        ReadFieldsKeepsGroups(d, head.state, fields[1..], head.config);
        var rest := ReadFields(d, head.state, fields[1..], head.config);
        assert ReadFields(d, st, fields, cfg) == Read(rest.status, rest.config, head.log + rest.log, rest.state);
        if rest.status.code == OK {
          forall g | g in fields && g != ALL ensures GroupPresent(rest.config, g) {
            if g != f { assert g in fields[1..]; }
          }
        }
      } else {
        assert ReadFields(d, st, fields, cfg) == head;
      }
    }
  }

  /** `ReadFields` leaves alone every field none of its getters reads. */
  lemma {:induction false} ReadFieldsUnread<S>(d: Driver<S>, st: S, fields: seq<Field>, cfg: CameraConfig)
    ensures forall c :: c !in Flatten(fields) ==> Slot(ReadFields(d, st, fields, cfg).config, c) == Slot(cfg, c)
    decreases |fields|
  {
    if fields != [] {
      var f := fields[0];
      var touched := Touch(cfg, f);
      var head := ReadCalls(d, st, Getters(f), touched);
      TouchSlots(cfg, f);
      ReadCallsSlots(d, st, Getters(f), touched);
      assert Flatten(fields) == Getters(f) + Flatten(fields[1..]);
      if head.status.code == OK {
        ReadFieldsUnread(d, head.state, fields[1..], head.config);
        assert ReadFields(d, st, fields, cfg).config == ReadFields(d, head.state, fields[1..], head.config).config;
      } else {
        assert ReadFields(d, st, fields, cfg) == head;
      }
    }
  }

  /** The getters a selector leads to, in the order they are issued. */
  function ReadPlan(sel: FieldSelector): seq<Call> {
    Flatten(Expand(sel))
  }

  /** `ALL` anywhere in the selector reads each getter exactly once, the
      image group first, then sampling, then camera; otherwise the listed
      groups are read in the listed order, repeats included. */
  lemma ReadPlanSpec(sel: FieldSelector)
    ensures ALL in sel ==> ReadPlan(sel) == AllGetters
    ensures ALL !in sel ==> ReadPlan(sel) == Flatten(sel)
  {
    assert Flatten(AllGroups[2..]) == CameraGetters;
    assert Flatten(AllGroups[1..]) == SamplingGetters + CameraGetters;
  }

  /** Position of a getter in `AllGetters`. */
  function GetterIndex(c: Call): nat {
    match c
    case GetResolution => 0
    case GetColorSpace => 1
    case GetImageFormat => 2
    case GetRegionOfInterest => 3
    case GetSamplingRate => 4
    case GetDelay => 5
    case GetSetting(k) =>
      (match k
       case Shutter => 6 case Gain => 7 case Brightness => 8
       case WhiteBalanceBu => 9 case WhiteBalanceRv => 10 case Sharpness => 11
       case Gamma => 12 case Exposure => 13 case Hue => 14 case Saturation => 15
       case Focus => 16 case Zoom => 17 case Iris => 18)
    case _ => 0
  }

  /** Reading everything makes 19 getter calls, no two alike. */
  lemma AllGettersDistinct()
    ensures |AllGetters| == 19
    ensures forall i, j :: 0 <= i < j < |AllGetters| ==> AllGetters[i] != AllGetters[j]
  {
    assert forall i :: 0 <= i < |AllGetters| ==> GetterIndex(AllGetters[i]) == i;
  }

  /** Every getter in a flattened group list belongs to a listed group. */
  lemma {:induction false} FlattenGroups(fields: seq<Field>)
    ensures forall i :: 0 <= i < |Flatten(fields)| ==>
      Flatten(fields)[i].IsGetter() && GroupOf(Flatten(fields)[i]) in fields
    decreases |fields|
  {
    if fields != [] {
      FlattenGroups(fields[1..]);
      var flat := Flatten(fields);
      var g := Getters(fields[0]);
      forall i | 0 <= i < |flat| ensures flat[i].IsGetter() && GroupOf(flat[i]) in fields {
        if i >= |g| {
          assert flat[i] == Flatten(fields[1..])[i - |g|];
        }
      }
    }
  }

  /** `get_configuration`: read the groups the selector names into an empty
      response. The calls made are a prefix of the selector's plan, all of
      it when the read succeeds. */
  function GetConfiguration<S>(d: Driver<S>, st: S, sel: FieldSelector): (r: Read<S>)
    ensures ALL in sel ==> ReadPlan(sel) == AllGetters
    ensures ALL !in sel ==> ReadPlan(sel) == Flatten(sel)
    ensures |r.log| <= |ReadPlan(sel)| && r.log == ReadPlan(sel)[..|r.log|]
    ensures r.status.code == OK ==> r.log == ReadPlan(sel)
  {
    ReadPlanSpec(sel);
    ReadFields(d, st, Expand(sel), EmptyConfig)
  }

  /** A read succeeds exactly when every reply along the plan is OK or
      UNIMPLEMENTED; otherwise the status returned is the first other one,
      and no getter after it runs. */
  lemma GetConfigurationStatus<S>(d: Driver<S>, st: S, sel: FieldSelector)
    ensures GetConfiguration(d, st, sel).status.code == OK <==>
      forall i :: 0 <= i < |ReadPlan(sel)| ==> Tolerated(Replies(d, st, ReadPlan(sel))[i].status)
    ensures var r := GetConfiguration(d, st, sel);
      r.status.code != OK ==>
        && |r.log| > 0
        && r.status == Replies(d, st, ReadPlan(sel))[|r.log| - 1].status
        && !Tolerated(r.status)
        && forall i :: 0 <= i < |r.log| - 1 ==> Tolerated(Replies(d, st, ReadPlan(sel))[i].status)
  {
    ReadCallsStatus(d, st, ReadPlan(sel), EmptyConfig);
  }

  /** After a successful read, each getter not repeated later in the plan
      leaves its field as its reply says, starting from the field as the
      earlier calls of the plan left it, which is absent when the getter runs
      only once; a field no getter in the plan reads is absent, whatever the
      outcome. */
  lemma GetConfigurationFields<S>(d: Driver<S>, st: S, sel: FieldSelector)
    ensures var r := GetConfiguration(d, st, sel);
      r.status.code == OK ==>
        forall i :: 0 <= i < |ReadPlan(sel)| && ReadPlan(sel)[i] !in ReadPlan(sel)[i + 1..] ==>
          Slot(r.config, ReadPlan(sel)[i]) == Expected(ReadPlan(sel)[i], Replies(d, st, ReadPlan(sel))[i],
            Slot(ReadCalls(d, st, ReadPlan(sel)[..i], EmptyConfig).config, ReadPlan(sel)[i]))
    ensures var r := GetConfiguration(d, st, sel);
      r.status.code == OK ==>
        forall i :: 0 <= i < |ReadPlan(sel)| && ReadPlan(sel)[i] !in ReadPlan(sel)[..i] && ReadPlan(sel)[i] !in ReadPlan(sel)[i + 1..] ==>
          Slot(r.config, ReadPlan(sel)[i]) == Expected(ReadPlan(sel)[i], Replies(d, st, ReadPlan(sel))[i], None)
    ensures forall c :: c !in ReadPlan(sel) ==> Slot(GetConfiguration(d, st, sel).config, c) == None
  {
    var plan := ReadPlan(sel);
    FlattenGroups(Expand(sel));
    ReadCallsSlots(d, st, plan, EmptyConfig);
    ReadFieldsUnread(d, st, Expand(sel), EmptyConfig);
    assert forall c :: Slot(EmptyConfig, c) == None;
    forall i | 0 <= i < |plan| && plan[i] !in plan[..i]
      ensures Slot(ReadCalls(d, st, plan[..i], EmptyConfig).config, plan[i]) == None
    {
      ReadCallsFirstPrior(d, st, plan, EmptyConfig, i);
    }
  }

  /** The response holds exactly the groups the selector names when the
      read succeeds, and never a group it does not name. */
  lemma GetConfigurationGroups<S>(d: Driver<S>, st: S, sel: FieldSelector)
    ensures var r := GetConfiguration(d, st, sel);
      r.status.code == OK ==> forall f :: f in Expand(sel) ==> GroupPresent(r.config, f)
    ensures forall f :: GroupPresent(GetConfiguration(d, st, sel).config, f) ==> f in Expand(sel)
  {
    ReadFieldsAddsListed(d, st, Expand(sel), EmptyConfig);
    ReadFieldsListedPresent(d, st, Expand(sel), EmptyConfig);
    assert ALL !in Expand(sel);
  }

  /** A read of `ALL` that succeeds holds all three groups and leaves every
      field as its getter's reply says: present with the written value after
      OK, absent after UNIMPLEMENTED. */
  lemma GetAllFields<S>(d: Driver<S>, st: S, sel: FieldSelector)
    requires ALL in sel
    ensures var r := GetConfiguration(d, st, sel);
      r.status.code == OK ==>
        && r.config.image.Some? && r.config.sampling.Some? && r.config.camera.Some?
        && forall i :: 0 <= i < |AllGetters| ==>
          Slot(r.config, AllGetters[i]) == Expected(AllGetters[i], Replies(d, st, AllGetters)[i], None)
  {
    ReadPlanSpec(sel);
    AllGettersDistinct();
    GetConfigurationFields(d, st, sel);
    GetConfigurationGroups(d, st, sel);
    var r := GetConfiguration(d, st, sel);
    if r.status.code == OK {
      forall i | 0 <= i < |AllGetters|
        ensures Slot(r.config, AllGetters[i]) == Expected(AllGetters[i], Replies(d, st, AllGetters)[i], None)
      {
        assert AllGetters[i] !in AllGetters[i + 1..];
        assert AllGetters[i] !in AllGetters[..i];
      }
      assert IMAGE_SETTINGS in Expand(sel) && SAMPLING_SETTINGS in Expand(sel) && CAMERA_SETTINGS in Expand(sel);
    }
  }

  /** A driver that answers every call OK, writing a resolution of 7 by 5
      on its first call and nothing afterwards. */
  function FirstWrites(n: nat, c: Call): Reply<nat> {
    Reply(Ok, if n == 0 then ResolutionValue(Resolution(7, 5)) else Unwritten, n + 1)
  }

  /** Reading the image group twice from that driver keeps the resolution
      written by the first read: the second `mutable_resolution()` hands the
      getter the earlier message, and writing nothing leaves it as it was. */
  lemma RereadKeepsEarlierValue()
    ensures var r := GetConfiguration(Driver(FirstWrites), 0, [IMAGE_SETTINGS, IMAGE_SETTINGS]);
      r.status.code == OK && Slot(r.config, GetResolution) == Some(ResolutionValue(Resolution(7, 5)))
  {
    var r := GetConfiguration(Driver(FirstWrites), 0, [IMAGE_SETTINGS, IMAGE_SETTINGS]);
    var first := ReadCalls(Driver(FirstWrites), 0, ImageGetters, EmptyConfig);
    RereadSucceeds();
    FirstReadWrites(first);
    RereadLast();
    assert Slot(r.config, GetResolution) == Expected(GetResolution, Reply(Ok, Unwritten, 5), Slot(first.config, GetResolution));
  }

  /** The plan of reading the image group twice. */
  lemma RereadPlan()
    ensures ReadPlan([IMAGE_SETTINGS, IMAGE_SETTINGS]) == ImageGetters + ImageGetters
  {
    ReadPlanSpec([IMAGE_SETTINGS, IMAGE_SETTINGS]);
    assert Flatten([IMAGE_SETTINGS, IMAGE_SETTINGS][1..]) == ImageGetters;
  }

  lemma RereadSucceeds()
    ensures GetConfiguration(Driver(FirstWrites), 0, [IMAGE_SETTINGS, IMAGE_SETTINGS]).status.code == OK
  {
    RereadPlan();
    RepliesOk(0, ImageGetters + ImageGetters);
    GetConfigurationStatus(Driver(FirstWrites), 0, [IMAGE_SETTINGS, IMAGE_SETTINGS]);
  }

  /** The second resolution getter is the last one; it is answered OK with
      nothing written, after the first read of the group. */
  lemma RereadLast()
    ensures var r := GetConfiguration(Driver(FirstWrites), 0, [IMAGE_SETTINGS, IMAGE_SETTINGS]);
      r.status.code == OK ==>
        Slot(r.config, GetResolution) == Expected(GetResolution, Reply(Ok, Unwritten, 5),
          Slot(ReadCalls(Driver(FirstWrites), 0, ImageGetters, EmptyConfig).config, GetResolution))
  {
    var d := Driver(FirstWrites);
    var plan := ImageGetters + ImageGetters;
    RereadPlan();
    RepliesOk(0, plan);
    assert Replies(d, 0, plan)[4] == Reply(Ok, Unwritten, 5);
    assert plan[4] == GetResolution && plan[4] !in plan[5..];
    assert plan[..4] == ImageGetters;
    GetConfigurationFields(d, 0, [IMAGE_SETTINGS, IMAGE_SETTINGS]);
  }

  /** The first read of the image group from `FirstWrites` stores its
      resolution. */
  lemma FirstReadWrites(first: Read<nat>)
    requires first == ReadCalls(Driver(FirstWrites), 0, ImageGetters, EmptyConfig)
    ensures Slot(first.config, GetResolution) == Some(ResolutionValue(Resolution(7, 5)))
  {
    var d := Driver(FirstWrites);
    var made := FirstWrites(0, GetResolution);
    var c1 := Absorb(EmptyConfig, GetResolution, made);
    assert Slot(c1, GetResolution) == Some(made.value);
    assert first.config == ReadCalls(d, 1, ImageGetters[1..], c1).config;
    ReadCallsSlots(d, 1, ImageGetters[1..], c1);
    assert GetResolution !in ImageGetters[1..];
  }

  /** Every reply of `FirstWrites` is OK, and the reply to call `i` of a
      run from state `n` is issued in state `n + i`. */
  lemma {:induction false} RepliesOk(n: nat, calls: seq<Call>)
    ensures forall i :: 0 <= i < |calls| ==> Replies(Driver(FirstWrites), n, calls)[i] == FirstWrites(n + i, calls[i])
    decreases |calls|
  {
    if calls != [] {
      RepliesOk(n + 1, calls[1..]);
      var all := Replies(Driver(FirstWrites), n, calls);
      assert all == [FirstWrites(n, calls[0])] + Replies(Driver(FirstWrites), n + 1, calls[1..]);
      forall i | 0 < i < |calls| ensures all[i] == FirstWrites(n + i, calls[i]) {
        assert calls[1..][i - 1] == calls[i];
      }
    }
  }
}

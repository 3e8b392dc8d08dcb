/** The older gateway (`CameraGateway` of the top-level header): it applies
    the sampling group before the image group, turns a period into a rate
    by `1 / period`, ignores camera controls, and answers OK unless a
    driver setter throws a `Status`, which it returns; its read answers OK
    and fills nothing in. Its loop publishes every grabbed frame and polls
    with a one-millisecond timeout. */
module LegacyGateway {
  import opened Wrappers
  import opened Status
  import opened Config
  import opened Floats
  import Driver
  import Reconciler
  import CaptureLoop

  // ---------------------------------------------------------------------
  // Driver interface
  // ---------------------------------------------------------------------

  /** The setters the legacy gateway calls, with the value it passes. */
  datatype LegacyCall =
    | SetSamplingRate(rate: Float)
    | SetDelay(delay: real)
    | SetResolution(resolution: Resolution)
    | SetColorSpace(colorSpace: ColorSpace)
    | SetImageFormat(format: ImageFormat)
    | SetRegionOfInterest(region: BoundingPoly)

  /** What a `void` setter does: return normally, throw a `Status`, or
      throw anything else (the PtGrey driver throws
      `std::runtime_error`). */
  datatype Effect = Returned | ThrewStatus(status: Status) | ThrewOther(what: string)

  datatype LegacyReply<S> = LegacyReply(effect: Effect, next: S)

  /** A legacy driver: its effect for each call in each state. */
  datatype LegacyDriver<!S> = LegacyDriver(step: (S, LegacyCall) -> LegacyReply<S>)

  /** The effects of `calls` issued one after another from `st`, whatever
      they are: the reference run the gateway's early exit is compared
      against. */
  function Effects<S>(d: LegacyDriver<S>, st: S, calls: seq<LegacyCall>): (r: seq<Effect>)
    ensures |r| == |calls|
    ensures |calls| > 0 ==> r[0] == d.step(st, calls[0]).effect
    decreases |calls|
  {
    if calls == [] then []
    else
      var rep := d.step(st, calls[0]);
      [rep.effect] + Effects(d, rep.next, calls[1..])
  }

  /** Index of the first effect that is a throw, or the count when every
      call returned. */
  function FirstThrow(fx: seq<Effect>): (k: nat)
    ensures k <= |fx|
    ensures forall i :: 0 <= i < k ==> fx[i].Returned?
    ensures k < |fx| ==> !fx[k].Returned?
    decreases |fx|
  {
    if fx == [] then 0
    else if !fx[0].Returned? then 0
    else 1 + FirstThrow(fx[1..])
  }

  // ---------------------------------------------------------------------
  // configure_camera
  // ---------------------------------------------------------------------

  /** The rate the sampling group asks for: a frequency as given, a period
      as its reciprocal (positive infinity for a zero period), nothing when
      the rate is not set. */
  function RateOf(rate: Rate): (r: Option<Float>)
    ensures r.None? <==> rate.RateNotSet?
    ensures rate.Frequency? ==> r == Some(Finite(rate.hz))
    ensures rate.Period? ==> (r == Some(PositiveInfinity) <==> rate.seconds == 0.0)
    ensures rate.Period? && rate.seconds != 0.0 ==> r.value.Finite? && r.value.x * rate.seconds == 1.0
  {
    match rate
    case RateNotSet => None
    case Frequency(hz) => Some(Finite(hz))
    case Period(p) => Some(Over(1.0, p))
  }

  /** `configure_sampling_settings`: the rate, then the delay. */
  function SamplingPlan(smp: SamplingSettings): seq<LegacyCall> {
    (if RateOf(smp.rate).Some? then [SetSamplingRate(RateOf(smp.rate).value)] else [])
    + (if smp.delay.Some? then [SetDelay(smp.delay.value)] else [])
  }

  /** `configure_image_settings`: resolution, colour space, format,
      region. */
  function ImagePlan(img: ImageSettings): seq<LegacyCall> {
    (if img.resolution.Some? then [SetResolution(img.resolution.value)] else [])
    + (if img.colorSpace.Some? then [SetColorSpace(img.colorSpace.value)] else [])
    + (if img.format.Some? then [SetImageFormat(img.format.value)] else [])
    + (if img.region.Some? then [SetRegionOfInterest(img.region.value)] else [])
  }

  /** `configure_camera`: the sampling group, then the image group; the
      camera group is looked at and nothing is done with it. */
  function LegacyPlan(cfg: CameraConfig): seq<LegacyCall> {
    (if cfg.sampling.Some? then SamplingPlan(cfg.sampling.value) else [])
    + (if cfg.image.Some? then ImagePlan(cfg.image.value) else [])
  }

  /** Position of a setter in the legacy apply order. */
  function LegacyRank(c: LegacyCall): nat {
    match c
    case SetSamplingRate(_) => 0
    case SetDelay(_) => 1
    case SetResolution(_) => 2
    case SetColorSpace(_) => 3
    case SetImageFormat(_) => 4
    case SetRegionOfInterest(_) => 5
  }

  /** `c` is the setter call for a field present in `cfg`, with the value
      the legacy gateway derives from it. */
  predicate LegacyCarries(cfg: CameraConfig, c: LegacyCall) {
    || (cfg.sampling.Some? && c.SetSamplingRate? && RateOf(cfg.sampling.value.rate) == Some(c.rate))
    || (cfg.sampling.Some? && c.SetDelay? && cfg.sampling.value.delay == Some(c.delay))
    || (cfg.image.Some? && c.SetResolution? && cfg.image.value.resolution == Some(c.resolution))
    || (cfg.image.Some? && c.SetColorSpace? && cfg.image.value.colorSpace == Some(c.colorSpace))
    || (cfg.image.Some? && c.SetImageFormat? && cfg.image.value.format == Some(c.format))
    || (cfg.image.Some? && c.SetRegionOfInterest? && cfg.image.value.region == Some(c.region))
  }

  /** Strictly increasing legacy rank. */
  predicate LegacySorted(calls: seq<LegacyCall>) {
    forall i, j :: 0 <= i < j < |calls| ==> LegacyRank(calls[i]) < LegacyRank(calls[j])
  }

  /** Two sorted runs, the first wholly below `bound` and the second wholly
      at or above it, make one sorted run. */
  lemma SortedConcat(a: seq<LegacyCall>, b: seq<LegacyCall>, bound: nat)
    requires LegacySorted(a) && LegacySorted(b)
    requires forall i :: 0 <= i < |a| ==> LegacyRank(a[i]) < bound
    requires forall j :: 0 <= j < |b| ==> LegacyRank(b[j]) >= bound
    ensures LegacySorted(a + b)
  {
    var ab := a + b;
    forall i, j | 0 <= i < j < |ab| ensures LegacyRank(ab[i]) < LegacyRank(ab[j]) {
      if j < |a| {
        assert ab[i] == a[i] && ab[j] == a[j];
      } else if i < |a| {
        assert ab[i] == a[i] && ab[j] == b[j - |a|];
      } else {
        assert ab[i] == b[i - |a|] && ab[j] == b[j - |a|];
      }
    }
  }

  /** The sampling calls are the present sampling fields, rate first. */
  lemma SamplingPlanSpec(smp: SamplingSettings)
    ensures forall c :: c in SamplingPlan(smp) <==>
      LegacyCarries(CameraConfig(None, Some(smp), None), c)
    ensures forall i :: 0 <= i < |SamplingPlan(smp)| ==> LegacyRank(SamplingPlan(smp)[i]) < 2
    ensures LegacySorted(SamplingPlan(smp))
  {
  }

  /** The image calls are the present image fields, in the fixed order. */
  lemma ImagePlanSpec(img: ImageSettings)
    ensures forall c :: c in ImagePlan(img) <==>
      LegacyCarries(CameraConfig(Some(img), None, None), c)
    ensures forall i :: 0 <= i < |ImagePlan(img)| ==> LegacyRank(ImagePlan(img)[i]) >= 2
    ensures LegacySorted(ImagePlan(img))
  {
    ImagePlanMembers(img);
    ImagePlanSorted(img);
  }

  /** The image calls rise in rank, from 2 up. */
  lemma ImagePlanSorted(img: ImageSettings)
    ensures forall i :: 0 <= i < |ImagePlan(img)| ==> LegacyRank(ImagePlan(img)[i]) >= 2
    ensures LegacySorted(ImagePlan(img))
  {
    var r := if img.resolution.Some? then [SetResolution(img.resolution.value)] else [];
    var cs := if img.colorSpace.Some? then [SetColorSpace(img.colorSpace.value)] else [];
    var f := if img.format.Some? then [SetImageFormat(img.format.value)] else [];
    var g := if img.region.Some? then [SetRegionOfInterest(img.region.value)] else [];
    var rcs := r + cs;
    var rcsf := rcs + f;
    assert ImagePlan(img) == rcsf + g;
    SortedConcat(r, cs, 3);
    RanksOfConcat(r, cs, 2, 3);
    SortedConcat(rcs, f, 4);
    RanksOfConcat(rcs, f, 2, 4);
    SortedConcat(rcsf, g, 5);
    RanksOfConcat(rcsf, g, 2, 5);
  }

  /** Rank bounds of the parts carry over to their concatenation. */
  lemma RanksOfConcat(a: seq<LegacyCall>, b: seq<LegacyCall>, lo: nat, hi: nat)
    requires forall i :: 0 <= i < |a| ==> lo <= LegacyRank(a[i]) <= hi
    requires forall j :: 0 <= j < |b| ==> lo <= LegacyRank(b[j]) <= hi
    ensures forall i :: 0 <= i < |a + b| ==> lo <= LegacyRank((a + b)[i]) <= hi
  {
    forall i | 0 <= i < |a + b| ensures lo <= LegacyRank((a + b)[i]) <= hi {
      if i < |a| { assert (a + b)[i] == a[i]; } else { assert (a + b)[i] == b[i - |a|]; }
    }
  }

  /** Membership in the image calls. */
  lemma ImagePlanMembers(img: ImageSettings)
    ensures forall c :: c in ImagePlan(img) <==>
      LegacyCarries(CameraConfig(Some(img), None, None), c)
  {
    var r := if img.resolution.Some? then [SetResolution(img.resolution.value)] else [];
    var cs := if img.colorSpace.Some? then [SetColorSpace(img.colorSpace.value)] else [];
    var f := if img.format.Some? then [SetImageFormat(img.format.value)] else [];
    var g := if img.region.Some? then [SetRegionOfInterest(img.region.value)] else [];
    assert ImagePlan(img) == r + cs + f + g;
    forall c ensures c in ImagePlan(img) <==> c in r || c in cs || c in f || c in g {
    }
  }

  /** The legacy plan calls exactly the setters of the present sampling and
      image fields, each once, sampling fields before image fields. */
  lemma LegacyPlanSpec(cfg: CameraConfig)
    ensures forall c :: c in LegacyPlan(cfg) <==> LegacyCarries(cfg, c)
    ensures LegacySorted(LegacyPlan(cfg))
  {
    LegacyPlanMembers(cfg);
    LegacyPlanSorted(cfg);
  }

  lemma LegacyPlanMembers(cfg: CameraConfig)
    ensures forall c :: c in LegacyPlan(cfg) <==> LegacyCarries(cfg, c)
  {
    var s := if cfg.sampling.Some? then SamplingPlan(cfg.sampling.value) else [];
    var m := if cfg.image.Some? then ImagePlan(cfg.image.value) else [];
    assert LegacyPlan(cfg) == s + m;
    assert forall c :: c in s <==> cfg.sampling.Some? && LegacyCarries(CameraConfig(None, cfg.sampling, None), c) by {
      if cfg.sampling.Some? { SamplingPlanSpec(cfg.sampling.value); }
    }
    assert forall c :: c in m <==> cfg.image.Some? && LegacyCarries(CameraConfig(cfg.image, None, None), c) by {
      if cfg.image.Some? { ImagePlanMembers(cfg.image.value); }
    }
    forall c ensures c in LegacyPlan(cfg) <==> LegacyCarries(cfg, c) {
      assert c in LegacyPlan(cfg) <==> c in s || c in m;
    }
  }

  lemma LegacyPlanSorted(cfg: CameraConfig)
    ensures LegacySorted(LegacyPlan(cfg))
  {
    var s := if cfg.sampling.Some? then SamplingPlan(cfg.sampling.value) else [];
    var m := if cfg.image.Some? then ImagePlan(cfg.image.value) else [];
    assert LegacyPlan(cfg) == s + m;
    assert LegacySorted(s) && forall i :: 0 <= i < |s| ==> LegacyRank(s[i]) < 2 by {
      if cfg.sampling.Some? { SamplingPlanSpec(cfg.sampling.value); }
    }
    assert LegacySorted(m) && forall i :: 0 <= i < |m| ==> LegacyRank(m[i]) >= 2 by {
      if cfg.image.Some? { ImagePlanSorted(cfg.image.value); }
    }
    SortedConcat(s, m, 2);
  }

  /** Camera controls never reach the driver: the plan is the same with the
      camera group removed. */
  lemma LegacyPlanIgnoresCamera(cfg: CameraConfig)
    ensures LegacyPlan(cfg) == LegacyPlan(cfg.(camera := None))
    ensures forall c :: c in LegacyPlan(cfg) ==> LegacyCarries(cfg.(camera := None), c)
  {
    LegacyPlanSpec(cfg.(camera := None));
  }

  // ---------------------------------------------------------------------
  // set_configuration / get_configuration
  // ---------------------------------------------------------------------

  /** What reaches the requester: a status, or an exception that leaves
      `set_configuration` (only `Status` is caught). */
  datatype Response = Replied(status: Status) | Escaped(what: string)

  /** The outcome of a request: the response, the driver calls made, and
      the driver's final state. */
  datatype Configured<S> = Configured(response: Response, log: seq<LegacyCall>, state: S)

  /** The response a throwing call leads to. */
  function Thrown(e: Effect): (r: Response)
    requires !e.Returned?
  {
    match e
    case ThrewStatus(s) => Replied(s)
    case ThrewOther(w) => Escaped(w)
  }

  /** Issue `plan` inside the `try`: stop at the first call that throws;
      OK when none did. */
  function Issue<S>(d: LegacyDriver<S>, st: S, plan: seq<LegacyCall>): (r: Configured<S>)
    ensures var k := FirstThrow(Effects(d, st, plan));
      k == |plan| ==> r.response == Replied(Ok) && r.log == plan
    ensures var k := FirstThrow(Effects(d, st, plan));
      k < |plan| ==> r.log == plan[..k + 1] && r.response == Thrown(Effects(d, st, plan)[k])
    decreases |plan|
  {
    if plan == [] then Configured(Replied(Ok), [], st)
    else
      var rep := d.step(st, plan[0]);
      if rep.effect.Returned? then
        var rest := Issue(d, rep.next, plan[1..]);
        IssueContinues(d, st, plan, rest);
        Configured(rest.response, [plan[0]] + rest.log, rest.state)
      else
        IssueStops(d, st, plan);
        Configured(Thrown(rep.effect), [plan[0]], rep.next)
  }

  /** The postcondition of `Issue`, gathered so that its inductive step can
      be proved on its own. */
  ghost predicate Issued<S>(d: LegacyDriver<S>, st: S, plan: seq<LegacyCall>, r: Configured<S>) {
    var fx := Effects(d, st, plan);
    var k := FirstThrow(fx);
    && (k == |plan| ==> r.response == Replied(Ok) && r.log == plan)
    && (k < |plan| ==> r.log == plan[..k + 1] && r.response == Thrown(fx[k]))
  }

  /** A first call that throws ends the request with that throw. */
  lemma IssueStops<S>(d: LegacyDriver<S>, st: S, plan: seq<LegacyCall>)
    requires |plan| > 0 && !d.step(st, plan[0]).effect.Returned?
    ensures Issued(d, st, plan, Configured(Thrown(d.step(st, plan[0]).effect), [plan[0]], d.step(st, plan[0]).next))
  {
  }

  /** A first call that returns leaves the outcome to the rest of the plan. */
  lemma IssueContinues<S>(d: LegacyDriver<S>, st: S, plan: seq<LegacyCall>, rest: Configured<S>)
    requires |plan| > 0 && d.step(st, plan[0]).effect.Returned?
    requires Issued(d, d.step(st, plan[0]).next, plan[1..], rest)
    ensures Issued(d, st, plan, Configured(rest.response, [plan[0]] + rest.log, rest.state))
  {
    var rep := d.step(st, plan[0]);
    var fx := Effects(d, st, plan);
    assert fx == [rep.effect] + Effects(d, rep.next, plan[1..]);
    assert fx[1..] == Effects(d, rep.next, plan[1..]);
    assert plan == [plan[0]] + plan[1..];
  }

  /** `set_configuration`: the legacy plan issued until a setter throws;
      OK when none threw, the thrown status when one threw a `Status`, and
      the exception passes through otherwise. */
  function SetConfiguration<S>(d: LegacyDriver<S>, st: S, cfg: CameraConfig): (r: Configured<S>)
    ensures forall c :: c in r.log ==> LegacyCarries(cfg, c)
    ensures LegacySorted(r.log)
    ensures |r.log| <= |LegacyPlan(cfg)| && r.log == LegacyPlan(cfg)[..|r.log|]
    ensures var k := FirstThrow(Effects(d, st, LegacyPlan(cfg)));
      k == |LegacyPlan(cfg)| ==> r.response == Replied(Ok) && r.log == LegacyPlan(cfg)
    ensures var k := FirstThrow(Effects(d, st, LegacyPlan(cfg)));
      k < |LegacyPlan(cfg)| ==>
        r.log == LegacyPlan(cfg)[..k + 1] && r.response == Thrown(Effects(d, st, LegacyPlan(cfg))[k])
  {
    LegacyPlanSpec(cfg);
    PrefixSorted(LegacyPlan(cfg), Issue(d, st, LegacyPlan(cfg)).log);
    Issue(d, st, LegacyPlan(cfg))
  }

  /** A prefix of a sorted plan is sorted and holds only calls of the
      plan. */
  lemma PrefixSorted(plan: seq<LegacyCall>, log: seq<LegacyCall>)
    requires LegacySorted(plan) && |log| <= |plan| && log == plan[..|log|]
    ensures LegacySorted(log)
    ensures forall c :: c in log ==> c in plan
  {
    forall i, j | 0 <= i < j < |log| ensures LegacyRank(log[i]) < LegacyRank(log[j]) {
      assert log[i] == plan[i] && log[j] == plan[j];
    }
  }

  /** A driver that never throws a `Status` can never make the legacy
      gateway answer anything but OK: a failure either escapes or is not
      reported at all. */
  lemma NeverThrowsStatus<S>(d: LegacyDriver<S>, st: S, cfg: CameraConfig)
    requires forall s: S, c: LegacyCall :: !d.step(s, c).effect.ThrewStatus?
    ensures var r := SetConfiguration(d, st, cfg);
      r.response == Replied(Ok) || r.response.Escaped?
  {
    NoStatusEffects(d, st, LegacyPlan(cfg));
  }

  /** No effect of such a driver is a thrown status. */
  lemma {:induction false} NoStatusEffects<S>(d: LegacyDriver<S>, st: S, calls: seq<LegacyCall>)
    requires forall s: S, c: LegacyCall :: !d.step(s, c).effect.ThrewStatus?
    ensures forall i :: 0 <= i < |calls| ==> !Effects(d, st, calls)[i].ThrewStatus?
    decreases |calls|
  {
    if calls != [] {
      var rep := d.step(st, calls[0]);
      NoStatusEffects(d, rep.next, calls[1..]);
      assert Effects(d, st, calls) == [rep.effect] + Effects(d, rep.next, calls[1..]);
    }
  }

  /** `get_configuration`: OK, with the response message as it came. */
  function GetConfiguration(sel: FieldSelector, response: CameraConfig): (r: (Status, CameraConfig))
    ensures r.0.code == OK
    ensures r.1 == response
  {
    (Ok, response)
  }

  // ---------------------------------------------------------------------
  // Against the reconciler
  // ---------------------------------------------------------------------

  /** A period reaches the driver in the legacy gateway and never in the
      reconciler. */
  lemma PeriodOnlyInLegacy(p: real)
    ensures var cfg := CameraConfig(None, Some(SamplingSettings(Period(p), None)), None);
      LegacyPlan(cfg) == [SetSamplingRate(Over(1.0, p))] && Reconciler.SetPlan(cfg) == []
  {
  }

  /** Camera controls reach the driver in the reconciler, one call per
      control, and never in the legacy gateway. */
  lemma CameraOnlyInReconciler(cam: CameraSettings)
    ensures var cfg := CameraConfig(None, None, Some(cam));
      && LegacyPlan(cfg) == []
      && forall c :: c in Reconciler.SetPlan(cfg) <==> c.SetSetting? && c.knob in cam && cam[c.knob] == c.setting
  {
    Reconciler.SetPlanMembers(CameraConfig(None, None, Some(cam)));
  }

  /** The two gateways apply a frequency and a resolution in opposite
      orders. */
  lemma OppositeOrder(hz: real, res: Resolution)
    ensures var cfg := CameraConfig(
        Some(ImageSettings(Some(res), None, None, None)),
        Some(SamplingSettings(Frequency(hz), None)),
        None);
      && LegacyPlan(cfg) == [SetSamplingRate(Finite(hz)), SetResolution(res)]
      && Reconciler.SetPlan(cfg) == [Driver.SetResolution(res), Driver.SetSamplingRate(hz)]
  {
  }

  // ---------------------------------------------------------------------
  // The loop
  // ---------------------------------------------------------------------

  /** One iteration of the legacy loop: grab, publish the frame whatever it
      holds, poll with a one-millisecond timeout, serve what arrived. There is
      no timestamp topic. */
  function LegacyIteration(pending: bool): (events: seq<CaptureLoop.Event>)
    ensures |events| == if pending then 4 else 3
    ensures events[..3] == [CaptureLoop.Grab, CaptureLoop.Publish(CaptureLoop.FrameTopic), CaptureLoop.Poll(1)]
    ensures CaptureLoop.Publish(CaptureLoop.TimestampTopic) !in events
    ensures CaptureLoop.Serve in events <==> pending
  {
    [CaptureLoop.Grab, CaptureLoop.Publish(CaptureLoop.FrameTopic), CaptureLoop.Poll(1)]
    + (if pending then [CaptureLoop.Serve] else [])
  }

  /** The legacy loop over a sequence of iterations, each given by whether
      a request was waiting. */
  function LegacyRun(pending: seq<bool>): seq<CaptureLoop.Event>
    decreases |pending|
  {
    if pending == [] then [] else LegacyIteration(pending[0]) + LegacyRun(pending[1..])
  }

  /** Every iteration publishes exactly one frame, however the frames
      looked. */
  lemma {:induction false} LegacyRunPublishes(pending: seq<bool>)
    ensures multiset(LegacyRun(pending))[CaptureLoop.Publish(CaptureLoop.FrameTopic)] == |pending|
    ensures CaptureLoop.Publish(CaptureLoop.TimestampTopic) !in LegacyRun(pending)
    decreases |pending|
  {
    if pending != [] {
      LegacyRunPublishes(pending[1..]);
      var head := LegacyIteration(pending[0]);
      assert LegacyRun(pending) == head + LegacyRun(pending[1..]);
      assert multiset(head)[CaptureLoop.Publish(CaptureLoop.FrameTopic)] == 1;
    }
  }

  /** On an empty frame the legacy loop still publishes it, where the
      current loop publishes nothing; both poll once and serve what
      waits. */
  lemma EmptyFrameContrast(pending: bool)
    ensures CaptureLoop.Publish(CaptureLoop.FrameTopic) in LegacyIteration(pending)
    ensures CaptureLoop.Publish(CaptureLoop.FrameTopic) !in CaptureLoop.Iteration(CaptureLoop.Observation(true, pending))
    ensures (CaptureLoop.Serve in LegacyIteration(pending)) ==
      (CaptureLoop.Serve in CaptureLoop.Iteration(CaptureLoop.Observation(true, pending)))
  {
    assert LegacyIteration(pending)[1] == CaptureLoop.Publish(CaptureLoop.FrameTopic);
    CaptureLoop.IterationCounts(CaptureLoop.Observation(true, pending));
  }

  /** `run` after its wiring: start capture, then loop; no initial
      configuration is applied. */
  function LegacyBoot(pending: seq<bool>): (events: seq<CaptureLoop.Event>)
    ensures |events| >= 1 && events[0] == CaptureLoop.StartCapture
    ensures forall e :: e in events ==> !e.Configure?
  {
    LegacyRunNoConfigure(pending);
    [CaptureLoop.StartCapture] + LegacyRun(pending)
  }

  /** The legacy loop neither configures nor restarts capture. */
  lemma {:induction false} LegacyRunNoConfigure(pending: seq<bool>)
    ensures forall e :: e in LegacyRun(pending) ==> !e.Configure? && e != CaptureLoop.StartCapture
    decreases |pending|
  {
    if pending != [] {
      LegacyRunNoConfigure(pending[1..]);
      assert LegacyRun(pending) == LegacyIteration(pending[0]) + LegacyRun(pending[1..]);
    }
  }
}

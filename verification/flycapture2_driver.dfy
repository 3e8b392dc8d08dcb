// The live part of the FlyCapture2 driver: it keeps the image format it
// accepted, answers the settings it cannot drive with UNIMPLEMENTED, and
// accepts every other call without touching the camera. Its encoder
// parameters come from the stored format.

module FlyCapture2Driver {
  import opened Wrappers
  import opened Status
  import opened Config
  import opened Driver
  import opened Reconciler
  import opened CaptureLoop

  /** What the live driver keeps between calls: the accepted image
      format. */
  datatype FlyState = FlyState(format: ImageFormat)

  /** A freshly constructed driver holds the default format. */
  const InitialState: FlyState := FlyState(DefaultFormat)

  /** The six controls the driver does not implement. */
  predicate Unsupported(k: Knob) {
    k in {Hue, Saturation, Focus, Zoom, Iris, Sharpness}
  }

  /** The name a stub quotes in its reason. */
  function StubName(k: Knob): string
    requires Unsupported(k)
  {
    match k
    case Hue => "HUE"
    case Saturation => "Saturation"
    case Focus => "Focus"
    case Zoom => "Zoom"
    case Iris => "Iris"
    case Sharpness => "Sharpness"
  }

  /** The status every stub returns, for its setter and its getter alike. */
  function NotImplemented(k: Knob): (s: Status)
    requires Unsupported(k)
    ensures s.code == UNIMPLEMENTED
    ensures s.why == "'" + StubName(k) + "' property not implemented for this camera."
  {
    InternalError(UNIMPLEMENTED, "'" + StubName(k) + "' property not implemented for this camera.")
  }

  /** The white-balance channel the `_bu` and `_rv` entry points delegate
      with. */
  function BalanceChannel(k: Knob): (channel: Option<string>)
    ensures channel.Some? <==> k == WhiteBalanceBu || k == WhiteBalanceRv
    ensures k == WhiteBalanceBu ==> channel == Some("Blue")
    ensures k == WhiteBalanceRv ==> channel == Some("Red")
  {
    match k
    case WhiteBalanceBu => Some("Blue")
    case WhiteBalanceRv => Some("Red")
    case _ => None
  }

  /** A compression ratio the driver accepts: absent, or within [0, 1]. */
  predicate ValidCompression(f: ImageFormat) {
    f.compression.None? || 0.0 <= f.compression.value <= 1.0
  }

  /** The reason of a refused compression; `show` stands for the way `fmt`
      prints a float. */
  function CompressionWhy(value: real, show: real -> string): string {
    "Compression level equals to " + show(value) + " is out of range. Must be: [0.0,1.0]"
  }

  /** The status the driver answers `c` with; it does not depend on the
      driver's state. */
  function FlyStatus(c: Call, show: real -> string): (s: Status)
    ensures s.code == OK || s.code == OUT_OF_RANGE || s.code == UNIMPLEMENTED
    ensures s.code == OUT_OF_RANGE <==> c.SetImageFormat? && !ValidCompression(c.format)
    ensures s.code == UNIMPLEMENTED <==> (c.SetSetting? && Unsupported(c.knob)) || (c.GetSetting? && Unsupported(c.getKnob))
  {
    match c
    case SetImageFormat(f) =>
      if f.compression.Some? && (f.compression.value < 0.0 || f.compression.value > 1.0)
      then InternalError(OUT_OF_RANGE, CompressionWhy(f.compression.value, show))
      else Ok
    case SetSetting(k, _) => if Unsupported(k) then NotImplemented(k) else Ok
    case GetSetting(k) => if Unsupported(k) then NotImplemented(k) else Ok
    case _ => Ok
  }

  /** The driver's answer to one call: the status, what a getter writes
      (the stored format, a zero delay; the other getters leave their output
      as it was), and the next state (a format is stored only when
      accepted). */
  function FlyStep(st: FlyState, c: Call, show: real -> string): (r: Reply<FlyState>)
    ensures r.status == FlyStatus(c, show)
    ensures r.next == (if c.SetImageFormat? && ValidCompression(c.format) then FlyState(c.format) else st)
    ensures c == GetImageFormat ==> r.value == FormatValue(st.format)
    ensures c == GetDelay ==> r.value == FloatValue(0.0)
    ensures c != GetImageFormat && c != GetDelay ==> r.value == Unwritten
  {
    var status := FlyStatus(c, show);
    match c
    case SetImageFormat(f) => Reply(status, Unwritten, if status.code == OK then FlyState(f) else st)
    case GetImageFormat => Reply(status, FormatValue(st.format), st)
    case GetDelay => Reply(status, FloatValue(0.0), st)
    case _ => Reply(status, Unwritten, st)
  }

  /** The FlyCapture2 driver as a driver of the reconciler. */
  function Fly(show: real -> string): Driver<FlyState> {
    Driver((st: FlyState, c: Call) => FlyStep(st, c, show))
  }

  /** A format the driver accepted is the one it reports back. */
  lemma ImageFormatRoundTrip(st: FlyState, f: ImageFormat, show: real -> string)
    requires ValidCompression(f)
    ensures var written := FlyStep(st, SetImageFormat(f), show);
      written.status == Ok && FlyStep(written.next, GetImageFormat, show) == Reply(Ok, FormatValue(f), written.next)
  {
  }

  /** A refused format leaves the stored one in place. */
  lemma RefusedFormatKept(st: FlyState, f: ImageFormat, show: real -> string)
    requires !ValidCompression(f)
    ensures var written := FlyStep(st, SetImageFormat(f), show);
      written.status.code == OUT_OF_RANGE && FlyStep(written.next, GetImageFormat, show).value == FormatValue(st.format)
  {
  }

  /** The stored compression is always a valid one: the initial format has
      none, and only valid formats are stored. */
  lemma StoredFormatValid(st: FlyState, c: Call, show: real -> string)
    requires ValidCompression(st.format)
    ensures ValidCompression(InitialState.format)
    ensures ValidCompression(FlyStep(st, c, show).next.format)
  {
  }

  // ---------------------------------------------------------------------
  // Through the reconciler
  // ---------------------------------------------------------------------

  /** The request's image format, if any, is one the driver accepts. */
  predicate FormatAccepted(cfg: CameraConfig) {
    cfg.image.None? || cfg.image.value.format.None? || ValidCompression(cfg.image.value.format.value)
  }

  /** The request sets none of the unimplemented controls. */
  predicate OnlySupported(cfg: CameraConfig) {
    cfg.camera.None? || forall k :: k in cfg.camera.value ==> !Unsupported(k)
  }

  /** The statuses along any sequence of calls are the per-call ones. */
  lemma FlyReplies(st: FlyState, calls: seq<Call>, show: real -> string)
    ensures forall i :: 0 <= i < |calls| ==> Replies(Fly(show), st, calls)[i].status == FlyStatus(calls[i], show)
  {
    RepliesOfStatusByCall(Fly(show), st, calls, (c: Call) => FlyStatus(c, show));
  }

  /** What the driver answers a call the request carries. */
  lemma CarriedStatus(cfg: CameraConfig, c: Call, show: real -> string)
    requires Carries(cfg, c)
    ensures FlyStatus(c, show).code == OUT_OF_RANGE ==> !FormatAccepted(cfg)
    ensures FlyStatus(c, show).code == UNIMPLEMENTED ==> !OnlySupported(cfg)
    ensures FormatAccepted(cfg) && OnlySupported(cfg) ==> FlyStatus(c, show).code == OK
  {
  }

  /** A bad compression is carried by the format call. */
  lemma BadFormatCarried(cfg: CameraConfig)
    requires !FormatAccepted(cfg)
    ensures Carries(cfg, SetImageFormat(cfg.image.value.format.value))
    ensures !ValidCompression(cfg.image.value.format.value)
  {
  }

  /** An unimplemented control is carried by its setter call. */
  lemma UnsupportedCarried(cfg: CameraConfig) returns (c: Call)
    requires !OnlySupported(cfg)
    ensures Carries(cfg, c) && c.SetSetting? && Unsupported(c.knob)
  {
    var k :| k in cfg.camera.value && Unsupported(k);
    c := SetSetting(k, cfg.camera.value[k]);
  }

  /** A request whose every call the driver accepts is applied in full. */
  lemma FlySetAccepted(st: FlyState, cfg: CameraConfig, show: real -> string)
    requires FormatAccepted(cfg) && OnlySupported(cfg)
    ensures SetConfiguration(Fly(show), st, cfg).status.code == OK
  {
    var r := SetConfiguration(Fly(show), st, cfg);
    if r.status.code != OK {
      var last := r.log[|r.log| - 1];
      FlyReplies(st, r.log, show);
      assert last in r.log;
      CarriedStatus(cfg, last, show);
    }
  }

  /** A request holding a call the driver refuses is not applied in
      full. */
  lemma FlySetRefused(st: FlyState, cfg: CameraConfig, c: Call, show: real -> string)
    requires Carries(cfg, c) && FlyStatus(c, show).code != OK
    ensures SetConfiguration(Fly(show), st, cfg).status.code != OK
  {
    var plan := SetPlan(cfg);
    SetPlanMembers(cfg);
    var j :| 0 <= j < |plan| && plan[j] == c;
    FlyReplies(st, plan, show);
    assert Replies(Fly(show), st, plan)[j].status.code != OK;
  }

  /** Applying a request to this driver succeeds exactly when its
      compression is valid and it sets no unimplemented control. */
  lemma FlySetConfiguration(st: FlyState, cfg: CameraConfig, show: real -> string)
    ensures SetConfiguration(Fly(show), st, cfg).status.code == OK <==> FormatAccepted(cfg) && OnlySupported(cfg)
  {
    if FormatAccepted(cfg) && OnlySupported(cfg) {
      FlySetAccepted(st, cfg, show);
    } else if !FormatAccepted(cfg) {
      BadFormatCarried(cfg);
      FlySetRefused(st, cfg, SetImageFormat(cfg.image.value.format.value), show);
    } else {
      var c := UnsupportedCarried(cfg);
      FlySetRefused(st, cfg, c, show);
    }
  }

  /** A failing request reports the first problem in apply order: a bad
      compression (applied before any control) wins over an unimplemented
      control. */
  lemma FlySetConfigurationError(st: FlyState, cfg: CameraConfig, show: real -> string)
    ensures !FormatAccepted(cfg) ==> SetConfiguration(Fly(show), st, cfg).status.code == OUT_OF_RANGE
    ensures FormatAccepted(cfg) && !OnlySupported(cfg) ==> SetConfiguration(Fly(show), st, cfg).status.code == UNIMPLEMENTED
  {
    var r := SetConfiguration(Fly(show), st, cfg);
    FlySetConfiguration(st, cfg, show);
    if r.status.code != OK {
      var plan := SetPlan(cfg);
      var n := |r.log|;
      var last := r.log[n - 1];
      FlyReplies(st, r.log, show);
      assert r.status == FlyStatus(last, show);
      CarriedStatus(cfg, last, show);
      if !FormatAccepted(cfg) {
        FormatCallFails(st, cfg, show);
      }
    }
  }

  /** What applying a request to this driver does, in terms of the
      per-call statuses alone. */
  lemma FlyApplied(st: FlyState, cfg: CameraConfig, show: real -> string)
    ensures var r := SetConfiguration(Fly(show), st, cfg);
      && |r.log| <= |SetPlan(cfg)| && r.log == SetPlan(cfg)[..|r.log|]
      && (r.status.code == OK ==> r.log == SetPlan(cfg))
      && (r.status.code != OK ==>
        && |r.log| > 0
        && r.status == FlyStatus(r.log[|r.log| - 1], show)
        && forall i :: 0 <= i < |r.log| - 1 ==> FlyStatus(r.log[i], show).code == OK)
  {
    var r := SetConfiguration(Fly(show), st, cfg);
    FlyReplies(st, r.log, show);
  }

  /** With a bad compression the failing call is the format call: every
      call before it in apply order is answered OK. */
  lemma FormatCallFails(st: FlyState, cfg: CameraConfig, show: real -> string)
    requires !FormatAccepted(cfg)
    ensures var log := SetConfiguration(Fly(show), st, cfg).log;
      |log| > 0 && log[|log| - 1] == SetImageFormat(cfg.image.value.format.value)
  {
    FlySetConfiguration(st, cfg, show);
    var r := SetConfiguration(Fly(show), st, cfg);
    var log := r.log;
    var plan := SetPlan(cfg);
    var c := SetImageFormat(cfg.image.value.format.value);
    assert c in plan && FlyStatus(c, show).code != OK by {
      SetPlanMembers(cfg);
      BadFormatCarried(cfg);
    }
    var j :| 0 <= j < |plan| && plan[j] == c;
    assert RankSorted(plan) by { SetPlanSorted(cfg); }
    assert forall i :: 0 <= i < |plan| ==> !plan[i].IsGetter() by { SetPlanSetters(cfg); }
    assert && |log| > 0 && |log| <= |plan| && log == plan[..|log|]
           && FlyStatus(log[|log| - 1], show).code != OK
           && forall i :: 0 <= i < |log| - 1 ==> FlyStatus(log[i], show).code == OK
    by {
      FlyApplied(st, cfg, show);
    }
    FirstFailureAt(log, plan, j, show);
  }

  /** A request's plan holds setter calls only. */
  lemma SetPlanSetters(cfg: CameraConfig)
    ensures forall i :: 0 <= i < |SetPlan(cfg)| ==> !SetPlan(cfg)[i].IsGetter()
  {
    SetPlanMembers(cfg);
    forall i | 0 <= i < |SetPlan(cfg)| ensures !SetPlan(cfg)[i].IsGetter() {
      var c := SetPlan(cfg)[i];
      assert c in SetPlan(cfg);
      CarriedIsSetter(cfg, c);
    }
  }

  lemma CarriedIsSetter(cfg: CameraConfig, c: Call)
    requires Carries(cfg, c)
    ensures !c.IsGetter()
  {
  }

  /** In a rank-sorted plan of setters whose executed prefix fails only at
      its last call, a refused format call of the plan is that last call:
      the calls ranked before it are always accepted. */
  lemma FirstFailureAt(log: seq<Call>, plan: seq<Call>, j: nat, show: real -> string)
    requires |log| > 0 && |log| <= |plan| && log == plan[..|log|] && RankSorted(plan)
    requires forall i :: 0 <= i < |plan| ==> !plan[i].IsGetter()
    requires forall i :: 0 <= i < |log| - 1 ==> FlyStatus(log[i], show).code == OK
    requires FlyStatus(log[|log| - 1], show).code != OK
    requires j < |plan| && plan[j].SetImageFormat? && FlyStatus(plan[j], show).code != OK
    ensures log[|log| - 1] == plan[j]
  {
    var n := |log|;
    assert forall i :: 0 <= i < n ==> log[i] == plan[i];
    assert j >= n - 1;
    assert forall i :: n - 1 < i < |plan| ==> SetRank(plan[n - 1]) < SetRank(plan[i]);
    var last := plan[n - 1];
    assert !last.IsGetter() && FlyStatus(last, show).code != OK;
    assert SetRank(last) >= 2;
    assert j <= n - 1;
  }

  /** The getters the driver answers without error leave the field they
      read as follows: the stored format, a zero delay, and a default
      message for each field the driver does not write; the unimplemented
      controls are absent. */
  function FlyField(st: FlyState, c: Call): Option<Value> {
    match c
    case GetImageFormat => Some(FormatValue(st.format))
    case GetDelay => Some(FloatValue(0.0))
    case GetSetting(k) => if Unsupported(k) then None else Some(Normalize(c, Unwritten, None))
    case _ => Some(Normalize(c, Unwritten, None))
  }

  /** Every getter is answered OK or UNIMPLEMENTED. */
  lemma FlyGettersTolerated(st: FlyState, show: real -> string)
    ensures forall i :: 0 <= i < |AllGetters| ==> Tolerated(Replies(Fly(show), st, AllGetters)[i].status)
    ensures forall i :: 0 <= i < |AllGetters| ==> Replies(Fly(show), st, AllGetters)[i] == FlyStep(st, AllGetters[i], show)
  {
    AllGettersAreGetters();
    forall i | 0 <= i < |AllGetters|
      ensures Fly(show).step(st, AllGetters[i]).next == st
      ensures Tolerated(FlyStep(st, AllGetters[i], show).status)
    {
      FlyGetterStep(st, AllGetters[i], show);
    }
    RepliesOfStatelessCalls(Fly(show), st, AllGetters);
  }

  /** A getter leaves the state alone and is answered OK or UNIMPLEMENTED. */
  lemma FlyGetterStep(st: FlyState, c: Call, show: real -> string)
    requires c.IsGetter()
    ensures FlyStep(st, c, show).next == st
    ensures Tolerated(FlyStep(st, c, show).status)
  {
  }

  /** Reading everything from this driver always succeeds and makes every
      getter call. */
  lemma FlyReadAllSucceeds(st: FlyState, show: real -> string)
    ensures GetConfiguration(Fly(show), st, [ALL]).status.code == OK
    ensures GetConfiguration(Fly(show), st, [ALL]).log == AllGetters
  {
    ReadPlanSpec([ALL]);
    FlyGettersTolerated(st, show);
    GetConfigurationStatus(Fly(show), st, [ALL]);
  }

  lemma AllGettersAreGetters()
    ensures forall i :: 0 <= i < |AllGetters| ==> AllGetters[i].IsGetter()
  {
  }

  /** What a getter's reply leaves in its field. */
  lemma FlyExpected(st: FlyState, c: Call, show: real -> string)
    requires c.IsGetter()
    ensures Expected(c, FlyStep(st, c, show), None) == FlyField(st, c)
  {
  }

  /** Reading everything from this driver holds all three groups, and
      every field is as `FlyField` says. */
  lemma FlyReadAll(st: FlyState, show: real -> string)
    ensures var cfg := GetConfiguration(Fly(show), st, [ALL]).config;
      cfg.image.Some? && cfg.sampling.Some? && cfg.camera.Some?
    ensures forall c :: c in AllGetters ==>
      Slot(GetConfiguration(Fly(show), st, [ALL]).config, c) == FlyField(st, c)
  {
    FlyReadAllSucceeds(st, show);
    FlyGettersTolerated(st, show);
    GetAllFields(Fly(show), st, [ALL]);
    var cfg := GetConfiguration(Fly(show), st, [ALL]).config;
    AllGettersAreGetters();
    forall c | c in AllGetters ensures Slot(cfg, c) == FlyField(st, c) {
      var i :| 0 <= i < |AllGetters| && AllGetters[i] == c;
      assert c.IsGetter();
      FlyExpected(st, c, show);
    }
  }

  // ---------------------------------------------------------------------
  // Capture stubs and encoder parameters
  // ---------------------------------------------------------------------

  /** `grab_image`: an image with no data. */
  function GrabImage(st: FlyState): (data: seq<bv8>)
    ensures |data| == 0
  {
    []
  }

  function StartCapture(st: FlyState): FlyState {
    st
  }

  function StopCapture(st: FlyState): FlyState {
    st
  }

  /** `start_capture` and `stop_capture` do nothing: the driver's state is
      the same after either, and after the two in turn. */
  lemma CaptureSwitchesInert(st: FlyState)
    ensures StartCapture(st) == st && StopCapture(st) == st
    ensures StopCapture(StartCapture(st)) == st
  {
  }

  /** Run over this driver, the gateway loop never publishes: every grabbed
      frame is empty, whatever requests arrive. */
  lemma FlyLoopNeverPublishes(st: FlyState, pending: seq<bool>)
    ensures var obs := seq(|pending|, i requires 0 <= i < |pending| => Observation(|GrabImage(st)| == 0, pending[i]));
      Publish(FrameTopic) !in Run(obs) && Publish(TimestampTopic) !in Run(obs)
      && multiset(Run(obs))[Serve] == Requests(obs)
  {
    var obs := seq(|pending|, i requires 0 <= i < |pending| => Observation(|GrabImage(st)| == 0, pending[i]));
    assert |GrabImage(st)| == 0;
    assert forall i :: 0 <= i < |obs| ==> obs[i].frameEmpty;
    EmptyFramesNeverPublish(obs);
    RunCounts(obs);
  }

  /** OpenCV's encoder parameter identifiers. */
  const ImwriteJpegQuality: int := 1
  const ImwritePngCompression: int := 16
  const ImwriteWebpQuality: int := 64

  /** Conversion of a float to `int`: truncation toward zero. */
  function Trunc(x: real): (n: int)
    ensures x >= 0.0 ==> n >= 0 && n as real <= x < n as real + 1.0
    ensures x < 0.0 ==> n <= 0 && n as real - 1.0 < x <= n as real
  {
    if x >= 0.0 then x.Floor else 0 - (0.0 - x).Floor
  }

  /** `get_compression_parm`: nothing without a compression ratio;
      otherwise the format's parameter and the ratio scaled onto its level
      range, truncated. */
  function CompressionParm(f: ImageFormat): (parm: seq<int>)
    ensures |parm| == 0 <==> f.compression.None?
    ensures |parm| == 0 || |parm| == 2
  {
    if f.compression.None? then []
    else
      var v := f.compression.value;
      match f.format
      case PNG => [ImwritePngCompression, Trunc(v * 9.0 + 0.0)]
      case JPEG => [ImwriteJpegQuality, Trunc(v * 100.0 + 0.0)]
      case WebP => [ImwriteWebpQuality, Trunc(v * 99.0 + 1.0)]
  }

  /** For a ratio in [0, 1] the level stays within the encoder's range:
      [0, 9] for PNG, [0, 100] for JPEG, [1, 100] for WebP; 0 gives the
      bottom of the range and 1 the top. */
  lemma CompressionLevels(f: ImageFormat)
    requires f.compression.Some? && 0.0 <= f.compression.value <= 1.0
    ensures var parm := CompressionParm(f);
      && (f.format == PNG ==> parm[0] == ImwritePngCompression && 0 <= parm[1] <= 9)
      && (f.format == JPEG ==> parm[0] == ImwriteJpegQuality && 0 <= parm[1] <= 100)
      && (f.format == WebP ==> parm[0] == ImwriteWebpQuality && 1 <= parm[1] <= 100)
    ensures f.compression.value == 0.0 ==> CompressionParm(f)[1] == (if f.format == WebP then 1 else 0)
    ensures f.compression.value == 1.0 ==> CompressionParm(f)[1] == (if f.format == PNG then 9 else 100)
  {
  }

  /** A higher compression ratio never gives a lower level. */
  lemma CompressionMonotone(f: ImageFormat, g: ImageFormat)
    requires f.format == g.format && f.compression.Some? && g.compression.Some?
    requires 0.0 <= f.compression.value <= g.compression.value
    ensures CompressionParm(f)[1] <= CompressionParm(g)[1]
  {
  }

  /** Whatever the driver was asked, the format it holds gives encoder
      levels within range. */
  lemma StoredCompressionLevels(st: FlyState, c: Call, show: real -> string)
    requires ValidCompression(st.format)
    requires FlyStep(st, c, show).next.format.compression.Some?
    ensures var f := FlyStep(st, c, show).next.format;
      |CompressionParm(f)| == 2 && 0 <= CompressionParm(f)[1] <= 100
  {
    var f := FlyStep(st, c, show).next.format;
    CompressionLevels(f);
  }
}

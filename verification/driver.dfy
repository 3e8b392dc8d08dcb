/** The camera driver port: every setter and getter of the driver interface
    as a `Call`, and a driver as a step function over a hidden state that
    answers each call with a status chosen by the driver (or environment),
    the value a getter wrote, and the next state. */
module Driver {
  import opened Status
  import opened Config

  /** One invocation of a driver setter or getter. */
  datatype Call =
    | SetResolution(resolution: Resolution)
    | SetColorSpace(colorSpace: ColorSpace)
    | SetImageFormat(format: ImageFormat)
    | SetRegionOfInterest(region: BoundingPoly)
    | SetSamplingRate(rate: real)
    | SetDelay(delay: real)
    | SetSetting(knob: Knob, setting: CameraSetting)
    | GetResolution
    | GetColorSpace
    | GetImageFormat
    | GetRegionOfInterest
    | GetSamplingRate
    | GetDelay
    | GetSetting(getKnob: Knob)
  {
    predicate IsGetter() {
      GetResolution? || GetColorSpace? || GetImageFormat? || GetRegionOfInterest?
      || GetSamplingRate? || GetDelay? || GetSetting?
    }
  }

  /** What a getter wrote into its output message, if anything. */
  datatype Value =
    | Unwritten
    | ResolutionValue(resolution: Resolution)
    | ColorSpaceValue(colorSpace: ColorSpace)
    | FormatValue(format: ImageFormat)
    | RegionValue(region: BoundingPoly)
    | FloatValue(x: real)
    | SettingValue(setting: CameraSetting)

  /** A driver's answer to one call. */
  datatype Reply<S> = Reply(status: Status, value: Value, next: S)

  /** A driver: its answer to each call in each state. */
  datatype Driver<!S> = Driver(step: (S, Call) -> Reply<S>)

  /** The answers to `calls` issued one after another from state `st`,
      whatever their statuses: the reference run the reconciler's
      early-exit runs are compared against. */
  function Replies<S>(d: Driver<S>, st: S, calls: seq<Call>): (r: seq<Reply<S>>)
    ensures |r| == |calls|
    ensures |calls| > 0 ==> r[0] == d.step(st, calls[0])
    decreases |calls|
  {
    if calls == [] then []
    else
      var rep := d.step(st, calls[0]);
      [rep] + Replies(d, rep.next, calls[1..])
  }

  /** A driver whose answer to `c` does not depend on the state and which
      never changes state on a call in `calls` answers them all as if it
      were called once from `st`. */
  lemma {:induction false} RepliesOfStatelessCalls<S>(d: Driver<S>, st: S, calls: seq<Call>)
    requires forall i :: 0 <= i < |calls| ==> d.step(st, calls[i]).next == st
    ensures forall i :: 0 <= i < |calls| ==> Replies(d, st, calls)[i] == d.step(st, calls[i])
    decreases |calls|
  {
    if calls != [] {
      var rep := d.step(st, calls[0]);
      assert forall i :: 0 <= i < |calls[1..]| ==> d.step(st, calls[1..][i]).next == st by {
        forall i | 0 <= i < |calls[1..]| ensures d.step(st, calls[1..][i]).next == st {
          assert calls[1..][i] == calls[i + 1];
        }
      }
      RepliesOfStatelessCalls(d, st, calls[1..]);
      assert Replies(d, st, calls) == [rep] + Replies(d, st, calls[1..]);
    }
  }

  /** The status of the i-th reply depends only on the call when the driver
      decides statuses by `code` alone, whatever the states in between. */
  lemma {:induction false} RepliesOfStatusByCall<S>(d: Driver<S>, st: S, calls: seq<Call>, code: Call -> Status)
    requires forall s: S, c: Call :: d.step(s, c).status == code(c)
    ensures forall i :: 0 <= i < |calls| ==> Replies(d, st, calls)[i].status == code(calls[i])
    decreases |calls|
  {
    if calls != [] {
      var rep := d.step(st, calls[0]);
      RepliesOfStatusByCall(d, rep.next, calls[1..], code);
      assert Replies(d, st, calls) == [rep] + Replies(d, rep.next, calls[1..]);
      forall i | 1 <= i < |calls| ensures Replies(d, st, calls)[i].status == code(calls[i]) {
        assert calls[1..][i - 1] == calls[i];
      }
    }
  }
}

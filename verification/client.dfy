/** The command-line test client: it turns its `--fps` and `--color-space`
    options into a `CameraConfig` request. Option parsing, the broker
    connection and the frame display loop are not modelled. */
module Client {
  import opened Wrappers
  import opened Config
  import opened Floats
  import opened Text
  import Driver
  import Reconciler
  import LegacyGateway

  /** `make_color_space`: the name lower-cased; "rgb" gives RGB, every
      other name gives GRAY. */
  function MakeColorSpace(name: string): (cs: ColorSpaces)
    ensures cs == RGB || cs == GRAY
  {
    if Lower(name) == "rgb" then RGB else GRAY
  }

  /** A name denotes RGB exactly when it is "rgb" in any mix of cases. */
  lemma MakeColorSpaceRgb(name: string)
    ensures MakeColorSpace(name) == RGB <==>
      |name| == 3 && LowerChar(name[0]) == 'r' && LowerChar(name[1]) == 'g' && LowerChar(name[2]) == 'b'
  {
    if |name| == 3 && LowerChar(name[0]) == 'r' && LowerChar(name[1]) == 'g' && LowerChar(name[2]) == 'b' {
      assert Lower(name) == "rgb";
    }
  }

  /** Upper- and mixed-case spellings of RGB give RGB; the empty name and
      "gray" give GRAY, as does any name that is not RGB. */
  lemma MakeColorSpaceExamples()
    ensures MakeColorSpace("rgb") == RGB && MakeColorSpace("RGB") == RGB && MakeColorSpace("Rgb") == RGB
    ensures MakeColorSpace("") == GRAY && MakeColorSpace("gray") == GRAY && MakeColorSpace("GRAY") == GRAY
    ensures MakeColorSpace("rgba") == GRAY
  {
    MakeColorSpaceRgb("rgb");
    MakeColorSpaceRgb("RGB");
    MakeColorSpaceRgb("Rgb");
    MakeColorSpaceRgb("");
    MakeColorSpaceRgb("gray");
    MakeColorSpaceRgb("GRAY");
    MakeColorSpaceRgb("rgba");
  }

  /** The request `main` builds: a sampling group holding the frequency
      when a frame rate was given, an image group holding the colour space
      when one was named, and nothing else. */
  function BuildConfig(fps: Option<real>, colorSpace: Option<string>): (cfg: CameraConfig)
    ensures cfg.sampling.Some? <==> fps.Some?
    ensures cfg.image.Some? <==> colorSpace.Some?
    ensures cfg.camera.None?
    ensures fps.Some? ==> cfg.sampling.value == SamplingSettings(Frequency(fps.value), None)
    ensures colorSpace.Some? ==>
      cfg.image.value == ImageSettings(None, Some(ColorSpace(MakeColorSpace(colorSpace.value))), None, None)
  {
    CameraConfig(
      if colorSpace.Some?
      then Some(ImageSettings(None, Some(ColorSpace(MakeColorSpace(colorSpace.value))), None, None))
      else None,
      if fps.Some? then Some(SamplingSettings(Frequency(fps.value), None)) else None,
      None)
  }

  /** The colour-space call a named colour space leads to. */
  function ColorSpaceCalls(colorSpace: Option<string>): seq<Driver.Call> {
    if colorSpace.Some? then [Driver.SetColorSpace(ColorSpace(MakeColorSpace(colorSpace.value)))] else []
  }

  /** The current gateway, sent the client's request, sets the colour
      space and then the frame rate, and nothing else. */
  lemma ReconcilerReceives(fps: Option<real>, colorSpace: Option<string>)
    ensures Reconciler.SetPlan(BuildConfig(fps, colorSpace)) ==
      ColorSpaceCalls(colorSpace)
      + (if fps.Some? then [Driver.SetSamplingRate(fps.value)] else [])
  {
    var cfg := BuildConfig(fps, colorSpace);
    if colorSpace.Some? {
      assert Reconciler.ImageCalls(cfg.image.value) == ColorSpaceCalls(colorSpace);
    }
  }

  /** The legacy gateway, sent the same request, sets the frame rate and
      then the colour space. */
  lemma LegacyReceives(fps: Option<real>, colorSpace: Option<string>)
    ensures LegacyGateway.LegacyPlan(BuildConfig(fps, colorSpace)) ==
      (if fps.Some? then [LegacyGateway.SetSamplingRate(Finite(fps.value))] else [])
      + (if colorSpace.Some?
         then [LegacyGateway.SetColorSpace(ColorSpace(MakeColorSpace(colorSpace.value)))]
         else [])
  {
    var cfg := BuildConfig(fps, colorSpace);
    if colorSpace.Some? {
      assert LegacyGateway.ImagePlan(cfg.image.value) ==
        [LegacyGateway.SetColorSpace(ColorSpace(MakeColorSpace(colorSpace.value)))];
    }
  }

  /** Without options the request is empty and neither gateway calls its
      driver. */
  lemma NoOptionsNoCalls()
    ensures BuildConfig(None, None) == EmptyConfig
    ensures Reconciler.SetPlan(BuildConfig(None, None)) == []
    ensures LegacyGateway.LegacyPlan(BuildConfig(None, None)) == []
  {
  }
}

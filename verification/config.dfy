/** The configuration messages exchanged with the gateway: a three-part
    `CameraConfig` whose groups and fields are each optional, and the
    `FieldSelector` of a read request. */
module Config {
  import opened Wrappers

  datatype Resolution = Resolution(width: nat, height: nat)

  /** Colour spaces; the first enumerator is the protobuf default. */
  datatype ColorSpaces = RGB | GRAY | HSV | YCbCr

  datatype ColorSpace = ColorSpace(value: ColorSpaces)

  /** Encodings; the first enumerator is the protobuf default. */
  datatype ImageFormats = PNG | JPEG | WebP

  /** An encoding and an optional compression ratio (meant to lie in [0,1]). */
  datatype ImageFormat = ImageFormat(format: ImageFormats, compression: Option<real>)

  datatype Vertex = Vertex(x: real, y: real)

  /** A region of interest: top-left and bottom-right vertices. */
  datatype BoundingPoly = BoundingPoly(vertices: seq<Vertex>)

  datatype ImageSettings = ImageSettings(
    resolution: Option<Resolution>,
    colorSpace: Option<ColorSpace>,
    format: Option<ImageFormat>,
    region: Option<BoundingPoly>)

  /** The `rate` oneof: at most one of frequency and period. */
  datatype Rate = RateNotSet | Frequency(hz: real) | Period(seconds: real)

  datatype SamplingSettings = SamplingSettings(rate: Rate, delay: Option<real>)

  /** A ratio in [0,1] over the device's physical range, or automatic mode. */
  datatype CameraSetting = CameraSetting(ratio: real, automatic: bool)

  /** The thirteen camera controls of `CameraSettings`. */
  datatype Knob =
    | Brightness | Exposure | Focus | Gain | Gamma | Hue | Iris
    | Saturation | Sharpness | Shutter | WhiteBalanceBu | WhiteBalanceRv | Zoom

  /** Present controls only: a control is set exactly when it is a key. */
  type CameraSettings = map<Knob, CameraSetting>

  datatype CameraConfig = CameraConfig(
    image: Option<ImageSettings>,
    sampling: Option<SamplingSettings>,
    camera: Option<CameraSettings>)

  /** Group tags of a read request; `ALL` stands for the other three. */
  datatype Field = ALL | IMAGE_SETTINGS | SAMPLING_SETTINGS | CAMERA_SETTINGS

  type FieldSelector = seq<Field>

  const EmptyImage: ImageSettings := ImageSettings(None, None, None, None)
  const EmptySampling: SamplingSettings := SamplingSettings(RateNotSet, None)
  const EmptyCamera: CameraSettings := map[]
  const EmptyConfig: CameraConfig := CameraConfig(None, None, None)

  /** Default (all-zero) messages, held by a field a getter created but did
      not fill in. */
  const DefaultResolution: Resolution := Resolution(0, 0)
  const DefaultColorSpace: ColorSpace := ColorSpace(RGB)
  const DefaultFormat: ImageFormat := ImageFormat(PNG, None)
  const DefaultRegion: BoundingPoly := BoundingPoly([])
  const DefaultSetting: CameraSetting := CameraSetting(0.0, false)
}

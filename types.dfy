/** Values shared by the pipeline and the output variants: frame geometry,
    codecs, and GStreamer elements, caps and pads abstracted to tokens. */
module Types {

  datatype Option<+T> = None | Some(value: T)

  /** A frame size in pixels (`savant.utils.source_info.Resolution`). */
  datatype Resolution = Resolution(width: int, height: int)

  type Positive = x: int | x > 0 witness 1

  /** Padding of the processing frame; only the fields the core reads. */
  datatype Padding = Padding(left: nat, top: nat, keep: bool)

  /** Processing frame parameters (the frame after nvstreammux): the frame
      proper and the padded totals the muxer works in. The frame width and
      height are positive: a zero divisor in the destination resolution is
      not modelled. */
  datatype FrameParameters = FrameParameters(
    width: Positive,
    height: Positive,
    totalWidth: nat,
    totalHeight: nat,
    padding: Option<Padding>)

  /** Output codecs; `Other` stands for every codec the pipeline does not
      single out. */
  datatype Codec = H264 | Hevc | Png | RawRgba | Other(name: string)

  /** A crop rectangle, written `left:top:width:height` in element properties. */
  datatype Crop = Crop(left: nat, top: nat, width: int, height: int)

  datatype MediaType =
    | NvmmRgba                  // video/x-raw(memory:NVMM), format=RGBA
    | EncodedMedia(codec: Codec) // the codec's caps name

  datatype Caps = Caps(media: MediaType, width: int, height: int)

  /** Element kinds, with the properties the core sets on them. */
  datatype Element =
    | NvVideoConvert(srcCrop: Option<Crop>, destCrop: Option<Crop>)
    | VideoConvert
    | CapsFilter(caps: Caps)
    | Queue
    | Encoder(codec: Codec, params: map<string, string>)
    | Parser(codec: Codec, configInterval: int)
    | FakeSink(name: string)

  /** Pads: a demuxer src pad by index, or the src pad of an element. */
  datatype Pad = DemuxerSrc(index: nat) | SrcOf(element: Element) | OtherPad(id: nat)

  /** What a pad probe returns to GStreamer. */
  datatype ProbeReturn = Pass | Drop
}

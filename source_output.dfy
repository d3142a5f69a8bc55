/** The output variants (`SourceOutput` and its subclasses): the destination
    resolution each computes and the chain of elements each appends after the
    demuxer. */
module SourceOutput {
  import opened Types
  import opened Sources

  /** The closed set of variants. The encoded ones carry the codec and the
      encoder parameters (already normalised from `params or {}`); every
      frame variant carries the processing frame parameters. */
  datatype SourceOutput =
    | OnlyMeta
    | RawRgbaOutput(frame: FrameParameters)
    | EncodedOutput(codec: Codec, params: map<string, string>, frame: FrameParameters)
    | H26XOutput(codec: Codec, params: map<string, string>, frame: FrameParameters)
    | PngOutput(codec: Codec, params: map<string, string>, frame: FrameParameters)
  {
    /** The variants derived from `SourceOutputWithFrame`. */
    predicate WithFrame() {
      !OnlyMeta?
    }

    /** The variants derived from `SourceOutputEncoded`. */
    predicate IsEncoded() {
      EncodedOutput? || H26XOutput? || PngOutput?
    }
  }

  predicate KeepsPadding(fp: FrameParameters) {
    fp.padding.Some? && fp.padding.value.keep
  }

  lemma FloorDivBounds(n: int, d: int)
    requires d > 0
    ensures (n / d) * d <= n < (n / d + 1) * d
  {
  }

  /** `SourceOutputWithFrame.dest_resolution`: when the padding is kept in the
      output, each dimension is scaled by total/frame with floor division;
      otherwise the source resolution is output unchanged. */
  function FrameDestResolution(fp: FrameParameters, src: Resolution): (r: Resolution)
    ensures KeepsPadding(fp) ==>
      && r.width * fp.width <= src.width * fp.totalWidth < (r.width + 1) * fp.width
      && r.height * fp.height <= src.height * fp.totalHeight < (r.height + 1) * fp.height
    ensures !KeepsPadding(fp) ==> r == src
  {
    if KeepsPadding(fp) then
      FloorDivBounds(src.width * fp.totalWidth, fp.width);
      FloorDivBounds(src.height * fp.totalHeight, fp.height);
      Resolution(src.width * fp.totalWidth / fp.width, src.height * fp.totalHeight / fp.height)
    else
      src
  }

  function Abs(x: int): nat {
    if x < 0 then -x else x
  }

  /** `round(x / 8) * 8` with Python's `round`, which sends halves to the even
      quotient: a multiple of 8 within 4 of `x`, and on a tie (distance
      exactly 4) the one whose quotient by 8 is even. */
  function RoundToMultipleOf8(x: int): (r: int)
    ensures r % 8 == 0
    ensures Abs(r - x) <= 4
    ensures Abs(r - x) == 4 ==> (r / 8) % 2 == 0
  {
    var q, m := x / 8, x % 8;
    var k := if m < 4 then q else if m > 4 then q + 1 else if q % 2 == 0 then q else q + 1;
    k * 8
  }

  /** No multiple of 8 is closer to `x` than the rounded value. */
  lemma RoundIsNearest(x: int, m: int)
    requires m % 8 == 0
    ensures Abs(x - RoundToMultipleOf8(x)) <= Abs(x - m)
  {
    var r := RoundToMultipleOf8(x);
    var t := m / 8;
    assert m == 8 * t;
    assert x == 8 * (x / 8) + x % 8;
    if t <= x / 8 - 1 {
      assert x - m >= 8 + x % 8 - 0;
    } else if t >= x / 8 + 2 {
      assert m - x >= 16 - x % 8;
    }
  }

  /** Two inputs whose quotient by 8 is 12.625 and 25.25. */
  lemma RoundExample()
    ensures RoundToMultipleOf8(101) == 104 && RoundToMultipleOf8(202) == 200
    ensures RoundToMultipleOf8(100) == 96 && RoundToMultipleOf8(108) == 112
  {
  }

  /** `dest_resolution` of every variant. */
  function DestResolution(out: SourceOutput, src: Resolution): (r: Resolution)
    ensures out.OnlyMeta? ==> r == src
    ensures out.WithFrame() && !out.PngOutput? ==> r == FrameDestResolution(out.frame, src)
    ensures out.PngOutput? ==>
      var d := FrameDestResolution(out.frame, src);
      && r.width % 8 == 0 && r.height % 8 == 0
      && Abs(r.width - d.width) <= 4 && Abs(r.height - d.height) <= 4
  {
    match out
    case OnlyMeta => src
    case PngOutput(_, _, fp) =>
      var d := FrameDestResolution(fp, src);
      Resolution(RoundToMultipleOf8(d.width), RoundToMultipleOf8(d.height))
    case _ => FrameDestResolution(out.frame, src)
  }

  /** With the padding not kept, a 101x202 source gives a 104x200 PNG output. */
  lemma PngDestExample(fp: FrameParameters, params: map<string, string>)
    requires !KeepsPadding(fp)
    ensures DestResolution(PngOutput(Png, params, fp), Resolution(101, 202)) == Resolution(104, 200)
  {
    RoundExample();
  }

  /** `src_crop` of the output converter: set exactly when there is padding
      and it is not kept, as `left:top:width:height` of the frame. */
  function ConverterCrop(fp: FrameParameters): (r: Option<Crop>)
    ensures r.Some? <==> fp.padding.Some? && !fp.padding.value.keep
    ensures r.Some? ==> r.value == Crop(fp.padding.value.left, fp.padding.value.top, fp.width, fp.height)
  {
    match fp.padding
    case None => None
    case Some(p) => if p.keep then None else Some(Crop(p.left, p.top, fp.width, fp.height))
  }

  /** The crop complements the scaling: with padding, exactly one of "crop
      the padding away" and "scale the output" applies, and a variant that
      crops outputs the source resolution. */
  lemma CropComplementsScaling(fp: FrameParameters, src: Resolution)
    ensures fp.padding.Some? ==> (ConverterCrop(fp).Some? <==> !KeepsPadding(fp))
    ensures ConverterCrop(fp).Some? ==> FrameDestResolution(fp, src) == src
    ensures FrameDestResolution(fp, src) != src ==> ConverterCrop(fp).None? && KeepsPadding(fp)
  {
  }

  /** `_build_output_caps`: raw RGBA in NVMM memory for the raw variant, the
      codec's caps for the encoded ones, with the destination size. */
  function OutputCaps(out: SourceOutput, dest: Resolution): (c: Caps)
    requires out.WithFrame()
    ensures c.width == dest.width && c.height == dest.height
    ensures c.media == NvmmRgba <==> out.RawRgbaOutput?
    ensures out.IsEncoded() ==> c.media == EncodedMedia(out.codec)
  {
    if out.RawRgbaOutput? then Caps(NvmmRgba, dest.width, dest.height)
    else Caps(EncodedMedia(out.codec), dest.width, dest.height)
  }

  /** The elements `_add_transform_elems` appends: none for raw RGBA, the
      encoder for encoded and PNG output, the encoder and then the parser
      (with `config-interval` -1) for H.264/H.265. */
  function TransformElements(out: SourceOutput): seq<Element>
    requires out.WithFrame()
  {
    match out
    case RawRgbaOutput(_) => []
    case H26XOutput(codec, params, _) => [Encoder(codec, params), Parser(codec, -1)]
    case EncodedOutput(codec, params, _) => [Encoder(codec, params)]
    case PngOutput(codec, params, _) => [Encoder(codec, params)]
  }

  /** Everything `add_output` appends to `after_demuxer` for a destination
      resolution `dest`. */
  function OutputElements(out: SourceOutput, dest: Resolution): seq<Element> {
    if out.OnlyMeta? then []
    else [NvVideoConvert(ConverterCrop(out.frame), None)] + TransformElements(out) + [CapsFilter(OutputCaps(out, dest))]
  }

  /** The order of the output chain: nothing for metadata-only output;
      otherwise the converter (cropping as `ConverterCrop` says) first and the
      capsfilter pinning `dest` last, an encoder exactly for the encoded
      variants, a parser exactly for H.264/H.265, and always directly after
      the encoder. */
  lemma OutputChainOrder(out: SourceOutput, dest: Resolution)
    ensures out.OnlyMeta? ==> OutputElements(out, dest) == []
    ensures out.WithFrame() ==>
      var c := OutputElements(out, dest);
      && |c| >= 2
      && c[0] == NvVideoConvert(ConverterCrop(out.frame), None)
      && c[|c| - 1].CapsFilter?
      && c[|c| - 1].caps.width == dest.width && c[|c| - 1].caps.height == dest.height
    ensures (exists i :: 0 <= i < |OutputElements(out, dest)| && OutputElements(out, dest)[i].Encoder?) <==> out.IsEncoded()
    ensures (exists i :: 0 <= i < |OutputElements(out, dest)| && OutputElements(out, dest)[i].Parser?) <==> out.H26XOutput?
    ensures forall i :: 0 <= i < |OutputElements(out, dest)| && OutputElements(out, dest)[i].Parser? ==>
      i > 0 && OutputElements(out, dest)[i - 1].Encoder?
  {
    var c := OutputElements(out, dest);
    if out.IsEncoded() {
      assert c[1].Encoder?;
    }
    if out.H26XOutput? {
      assert c[2].Parser?;
    }
  }

  /** `_add_transform_elems`: appends the variant's transform elements one
      after another. */
  method AddTransformElems(out: SourceOutput, info: SourceInfo)
    requires out.WithFrame()
    modifies info`afterDemuxer
    ensures info.afterDemuxer == old(info.afterDemuxer) + TransformElements(out)
  {
    match out
    case RawRgbaOutput(_) =>
    case EncodedOutput(codec, params, _) =>
      info.afterDemuxer := info.afterDemuxer + [Encoder(codec, params)];
    case PngOutput(codec, params, _) =>
      info.afterDemuxer := info.afterDemuxer + [Encoder(codec, params)];
    case H26XOutput(codec, params, _) =>
      info.afterDemuxer := info.afterDemuxer + [Encoder(codec, params)];
      info.afterDemuxer := info.afterDemuxer + [Parser(codec, -1)];
  }

  /** `add_output`: metadata-only output appends nothing and returns the input
      pad; frame output appends converter, transform elements and capsfilter,
      in that order, and returns the capsfilter's src pad. */
  method AddOutput(out: SourceOutput, info: SourceInfo, inputPad: Pad) returns (pad: Pad)
    requires info.destResolution.Some?
    modifies info`afterDemuxer
    ensures info.afterDemuxer == old(info.afterDemuxer) + OutputElements(out, info.destResolution.value)
    ensures out.OnlyMeta? ==> pad == inputPad
    ensures out.WithFrame() ==> pad == SrcOf(CapsFilter(OutputCaps(out, info.destResolution.value)))
  {
    if out.OnlyMeta? {
      return inputPad;
    }
    var converter := NvVideoConvert(ConverterCrop(out.frame), None);
    info.afterDemuxer := info.afterDemuxer + [converter];
    AddTransformElems(out, info);
    var capsfilter := CapsFilter(OutputCaps(out, info.destResolution.value));
    info.afterDemuxer := info.afterDemuxer + [capsfilter];
    pad := SrcOf(capsfilter);
  }
}

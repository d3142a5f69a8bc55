/** The dynamic part of `NvDsPipeline`: the slot pool, the source registry,
    the admission and teardown events of every source, the end-of-stream
    probes, and the per-batch metadata reconciliation. */
module Pipeline {
  import opened Types
  import opened SlotPool
  import opened Sources
  import opened SourceOutput
  import opened FrameMeta

  /** The `output_frame` configuration: the codec and the optional encoder
      parameters. */
  datatype OutputFrame = OutputFrame(codec: Codec, encoderParams: Option<map<string, string>>)

  datatype ModelKind = AttributeModel | ComplexModel | OtherModel

  /** An output attribute of a model, with its `internal` flag. */
  datatype AttributeConfig = AttributeConfig(name: string, internal: bool)

  /** A configured pipeline element, as `add_element` looks at it. */
  datatype PipelineElement =
    | PlainElement(name: string)
    | ModelElement(name: string, kind: ModelKind, attributes: seq<AttributeConfig>)

  /** A message put on the sink queue. */
  datatype SinkMessage = SinkEndOfStream(sourceId: string)

  /** Result of the new-pad handler. */
  datatype AddOutcome =
    | NotVideo                         // the pad's caps are not video: ignored
    | Admitting(info: SourceInfo)      // waiting for caps on the pad
    | AwaitingRelease(info: SourceInfo) // the id is registered: wait for its lock

  /** Result of the caps handler. */
  datatype CapsOutcome =
    | MissingWidth              // the width assertion fails
    | MissingHeight             // the height assertion fails
    | PoolExhausted             // no free index: retry later, nothing changed
    | Added

  /** Result of the demuxer stream-EOS probe. */
  datatype DemuxerEosResult =
    | PassThrough                   // PASS the event on untouched
    | IndexOutOfRange               // indexing the pad list raises
    | Redirected(peer: Option<Pad>) // unlink the peer, send it EOS, DROP

  /** `params or {}`. */
  function EncoderParams(p: Option<map<string, string>>): map<string, string> {
    match p
    case None => map[]
    case Some(m) => m
  }

  /** The variant the constructor picks for the configured output codec. */
  function SelectSourceOutput(outputFrame: Option<OutputFrame>, fp: FrameParameters): (r: SourceOutput)
    ensures r.OnlyMeta? <==> outputFrame.None?
    ensures r.RawRgbaOutput? <==> outputFrame.Some? && outputFrame.value.codec == RawRgba
    ensures r.H26XOutput? <==> outputFrame.Some? && outputFrame.value.codec in {H264, Hevc}
    ensures r.PngOutput? <==> outputFrame.Some? && outputFrame.value.codec == Png
    ensures r.EncodedOutput? <==> outputFrame.Some? && outputFrame.value.codec !in {RawRgba, H264, Hevc, Png}
    ensures r.WithFrame() ==> r.frame == fp
    ensures r.IsEncoded() ==> r.codec == outputFrame.value.codec && r.params == EncoderParams(outputFrame.value.encoderParams)
  {
    match outputFrame
    case None => OnlyMeta
    case Some(OutputFrame(codec, params)) =>
      if codec == RawRgba then RawRgbaOutput(fp)
      else if codec == H264 || codec == Hevc then H26XOutput(codec, EncoderParams(params), fp)
      else if codec == Png then PngOutput(codec, EncoderParams(params), fp)
      else EncodedOutput(codec, EncoderParams(params), fp)
  }

  /** Pairs of internal attributes among `attrs` of element `name`. */
  function InternalPairsOf(name: string, attrs: seq<AttributeConfig>): set<(string, string)> {
    set a | a in attrs && a.internal :: (name, a.name)
  }

  /** What `add_element` registers for one element: the internal output
      attributes of attribute and complex models, and nothing else. */
  function InternalPairs(e: PipelineElement): (r: set<(string, string)>)
    ensures forall p :: p in r <==>
      && e.ModelElement? && (e.kind == AttributeModel || e.kind == ComplexModel)
      && exists a :: a in e.attributes && a.internal && p == (e.name, a.name)
  {
    if e.ModelElement? && (e.kind == AttributeModel || e.kind == ComplexModel)
    then InternalPairsOf(e.name, e.attributes)
    else {}
  }

  /** The demuxer src pads `src_0 .. src_{n-1}`. */
  function DemuxerPads(n: nat): (r: seq<Pad>)
    ensures |r| == n && forall i :: 0 <= i < n ==> r[i] == DemuxerSrc(i)
  {
    seq(n, (i: int) requires 0 <= i < n => DemuxerSrc(i))
  }

  /** Python list indexing: negative indices count from the end. */
  function PyIndex(n: nat, i: int): (r: Option<nat>)
    ensures r.Some? ==> r.value < n
    ensures r.Some? <==> -(n as int) <= i < n
    ensures r.Some? && i >= 0 ==> r.value == i
  {
    if 0 <= i < n then Some(i) else if -(n as int) <= i < 0 then Some(n + i) else None
  }

  /** `dest-crop` of the input converter: the frame inside the padding. */
  function InputDestCrop(fp: FrameParameters): Option<Crop> {
    match fp.padding
    case None => None
    case Some(p) => Some(Crop(p.left, p.top, fp.width, fp.height))
  }

  /** What `_add_input_converter` appends to `before_muxer`. */
  function InputChain(fp: FrameParameters, nvConvertAcceptsCaps: bool): seq<Element> {
    var converter := NvVideoConvert(None, InputDestCrop(fp));
    var capsfilter := CapsFilter(Caps(NvmmRgba, fp.totalWidth, fp.totalHeight));
    if nvConvertAcceptsCaps then [converter, capsfilter] else [VideoConvert, converter, capsfilter]
  }

  /** The input chain is `[nvvideoconvert, capsfilter]`, or the same after a
      `videoconvert` exactly when nvvideoconvert rejects the caps; the
      capsfilter pins RGBA in NVMM memory at the padded muxer size. */
  lemma InputChainShape(fp: FrameParameters, accepts: bool)
    ensures var c := InputChain(fp, accepts);
      && |c| == (if accepts then 2 else 3)
      && (VideoConvert in c <==> !accepts)
      && (!accepts ==> c[0] == VideoConvert)
      && c[|c| - 2].NvVideoConvert? && c[|c| - 2].srcCrop.None?
      && (c[|c| - 2].destCrop.Some? <==> fp.padding.Some?)
      && c[|c| - 1] == CapsFilter(Caps(NvmmRgba, fp.totalWidth, fp.totalHeight))
  {
  }

  /** What `_add_source_output` appends to `after_demuxer`. */
  function SourceOutputChain(out: SourceOutput, dest: Resolution, sourceId: string): seq<Element> {
    [Queue] + OutputElements(out, dest) + [FakeSink("sink_" + sourceId)]
  }

  /** The output chain starts with the queue and ends with the source's
      fakesink; metadata-only output has nothing in between. */
  lemma SourceOutputChainShape(out: SourceOutput, dest: Resolution, sourceId: string)
    ensures var c := SourceOutputChain(out, dest, sourceId);
      && |c| >= 2 && c[0] == Queue && c[|c| - 1] == FakeSink("sink_" + sourceId)
      && c[1..|c| - 1] == OutputElements(out, dest)
      && (out.OnlyMeta? ==> c == [Queue, FakeSink("sink_" + sourceId)])
  {
    var c := SourceOutputChain(out, dest, sourceId);
    assert c[1..|c| - 1] == OutputElements(out, dest);
  }

  predicate Holds(info: SourceInfo, i: int)
    reads info
  {
    info.padIdx.Some? && info.padIdx.value == i
  }

  class NvDsPipeline {
    const frameParams: FrameParameters
    const maxParallelStreams: nat
    const sourceOutput: SourceOutput
    const suppressEos: bool
    var demuxerSrcPads: seq<Pad>
    var freePadIndices: seq<nat>
    var sources: map<string, SourceInfo>
    var internalAttrs: set<(string, string)>
    var sinkQueue: seq<SinkMessage>

    /** The slot each registered source holds. */
    ghost function Slots(): map<string, Option<nat>>
      reads this, sources.Values
    {
      map k | k in sources :: sources[k].padIdx
    }

    /** A registered record is keyed by its id, its lock is not set, and it
        holds a slot as soon as it has an output chain; once it holds a slot
        or has an output chain its resolutions are known. */
    ghost predicate RegisteredRecord(k: string, info: SourceInfo)
      reads info
    {
      && info.sourceId == k
      && !info.lockSet
      && (info.afterDemuxer != [] ==> info.padIdx.Some?)
      && (info.padIdx.Some? ==> info.srcResolution.Some? && info.destResolution.Some?)
    }

    ghost predicate Valid()
      reads this, sources.Values
    {
      && demuxerSrcPads == DemuxerPads(|demuxerSrcPads|)
      && PoolPartition(freePadIndices, Slots(), |demuxerSrcPads|)
      && (forall k :: k in sources ==> RegisteredRecord(k, sources[k]))
    }

    /** A record the caps handler may admit: its lock was cleared, and it is
        either the registered record of its id or a released one. */
    ghost predicate CanAdmit(info: SourceInfo)
      reads this, info
    {
      && !info.lockSet
      && (info.sourceId in sources ==> sources[info.sourceId] == info)
      && (info.sourceId !in sources ==> info.padIdx.None? && info.afterDemuxer == [])
    }

    /** `__init__`: picks the output variant; the pool and the demuxer pads
        start empty. `suppressEos` is set when the source is a ZeroMQ source
        bin. */
    constructor (frameParams: FrameParameters, maxParallelStreams: nat, outputFrame: Option<OutputFrame>, sourceElement: string)
      ensures Valid()
      ensures this.frameParams == frameParams && this.maxParallelStreams == maxParallelStreams
      ensures sourceOutput == SelectSourceOutput(outputFrame, frameParams)
      ensures suppressEos == (sourceElement == "zeromq_source_bin")
      ensures demuxerSrcPads == [] && freePadIndices == [] && sources == map[]
      ensures internalAttrs == {} && sinkQueue == []
    {
      this.frameParams := frameParams;
      this.maxParallelStreams := maxParallelStreams;
      sourceOutput := SelectSourceOutput(outputFrame, frameParams);
      suppressEos := sourceElement == "zeromq_source_bin";
      demuxerSrcPads := [];
      freePadIndices := [];
      sources := map[];
      internalAttrs := {};
      sinkQueue := [];
      new;
      assert Slots() == map[];
    }

    /** `add_element`: registers the internal attributes of attribute and
        complex models, one attribute after another. */
    method AddElement(e: PipelineElement)
      requires Valid()
      modifies this`internalAttrs
      ensures Valid()
      ensures internalAttrs == old(internalAttrs) + InternalPairs(e)
    {
      if e.ModelElement? && (e.kind == AttributeModel || e.kind == ComplexModel) {
        var i := 0;
        while i < |e.attributes|
          invariant 0 <= i <= |e.attributes|
          invariant internalAttrs == old(internalAttrs) + InternalPairsOf(e.name, e.attributes[..i])
        {
          var a := e.attributes[i];
          assert e.attributes[..i + 1] == e.attributes[..i] + [a];
          assert InternalPairsOf(e.name, e.attributes[..i + 1])
              == InternalPairsOf(e.name, e.attributes[..i]) + (if a.internal then {(e.name, a.name)} else {});
          if a.internal {
            internalAttrs := internalAttrs + {(e.name, a.name)};
          }
          i := i + 1;
        }
        assert e.attributes[..i] == e.attributes;
      }
    }

    /** `_add_sink`: allocates `max_parallel_streams` demuxer src pads and
        fills the pool with `[0, n)`. Runs while the pipeline is built, before
        any source is attached. */
    method AddSink()
      requires Valid() && sources == map[]
      modifies this`demuxerSrcPads, this`freePadIndices
      ensures Valid()
      ensures demuxerSrcPads == DemuxerPads(maxParallelStreams)
      ensures freePadIndices == InitialPool(maxParallelStreams)
    {
      var pads: seq<Pad> := [];
      var i := 0;
      while i < maxParallelStreams
        invariant 0 <= i <= maxParallelStreams
        invariant pads == DemuxerPads(i)
      {
        pads := pads + [DemuxerSrc(i)];
        i := i + 1;
      }
      demuxerSrcPads := pads;
      freePadIndices := InitialPool(|demuxerSrcPads|);
      InitialPartition(|demuxerSrcPads|);
      assert Slots() == map[];
    }

    /** `on_source_added`: a non-video pad is ignored; an unknown id gets a
        fresh registered record; a registered id has to wait for the release
        lock of its record first. */
    method OnSourceAdded(sourceId: string, capsName: Option<string>) returns (r: AddOutcome)
      requires Valid()
      modifies this`sources
      ensures Valid()
      ensures r.NotVideo? <==> capsName.Some? && !("video" <= capsName.value)
      ensures r.NotVideo? || sourceId in old(sources) ==> sources == old(sources)
      ensures !r.NotVideo? && sourceId in old(sources) ==> r == AwaitingRelease(old(sources)[sourceId])
      ensures !r.NotVideo? && sourceId !in old(sources) ==>
        && r.Admitting? && fresh(r.info)
        && sources == old(sources)[sourceId := r.info]
        && r.info.sourceId == sourceId && r.info.padIdx == None
        && r.info.srcResolution == None && r.info.destResolution == None
        && r.info.beforeMuxer == [] && r.info.afterDemuxer == []
      ensures r.Admitting? ==> CanAdmit(r.info)
    {
      if capsName.Some? && !("video" <= capsName.value) {
        return NotVideo;
      }
      if sourceId in sources {
        return AwaitingRelease(sources[sourceId]);
      }
      var info := new SourceInfo(sourceId);
      ghost var before := Slots();
      sources := sources[sourceId := info];
      assert Slots() == before[sourceId := None];
      RegisterPreservesPartition(freePadIndices, before, |demuxerSrcPads|, sourceId);
      r := Admitting(info);
    }

    /** One `lock.wait(5)` of a re-attached source, then `lock.clear()` when
        it returned. It cannot return while the record is still registered:
        only output teardown sets the lock, after unregistering the record. */
    method AwaitRelease(info: SourceInfo) returns (ready: bool)
      requires Valid()
      modifies info`lockSet
      ensures Valid()
      ensures ready == old(info.lockSet) && !info.lockSet
      ensures old(info.sourceId in sources && sources[info.sourceId] == info) ==> !ready
    {
      ready := info.lockSet;
      if ready {
        info.lockSet := false;
      }
    }

    /** `_add_input_converter`, reduced to the elements it appends; returns
        the capsfilter's src pad. */
    method AddInputConverter(info: SourceInfo, nvConvertAcceptsCaps: bool) returns (pad: Pad)
      modifies info`beforeMuxer
      ensures info.beforeMuxer == old(info.beforeMuxer) + InputChain(frameParams, nvConvertAcceptsCaps)
      ensures pad == SrcOf(CapsFilter(Caps(NvmmRgba, frameParams.totalWidth, frameParams.totalHeight)))
    {
      var converter := NvVideoConvert(None, InputDestCrop(frameParams));
      if !nvConvertAcceptsCaps {
        info.beforeMuxer := info.beforeMuxer + [VideoConvert];
      }
      info.beforeMuxer := info.beforeMuxer + [converter];
      var capsfilter := CapsFilter(Caps(NvmmRgba, frameParams.totalWidth, frameParams.totalHeight));
      info.beforeMuxer := info.beforeMuxer + [capsfilter];
      pad := SrcOf(capsfilter);
    }

    /** `_add_source_output`: queue, the variant's chain, and the fakesink,
        after computing the destination resolution. */
    method AddSourceOutput(info: SourceInfo)
      requires info.padIdx.Some? && info.padIdx.value < |demuxerSrcPads|
      requires info.srcResolution.Some?
      modifies info`afterDemuxer, info`destResolution
      ensures info.destResolution == Some(DestResolution(sourceOutput, info.srcResolution.value))
      ensures info.afterDemuxer == old(info.afterDemuxer)
        + SourceOutputChain(sourceOutput, info.destResolution.value, info.sourceId)
    {
      var fakesink := FakeSink("sink_" + info.sourceId);
      info.afterDemuxer := info.afterDemuxer + [Queue];
      var demuxerSrcPad := demuxerSrcPads[info.padIdx.value];
      info.destResolution := Some(DestResolution(sourceOutput, info.srcResolution.value));
      var outputPad := AddOutput(sourceOutput, info, SrcOf(Queue));
      info.afterDemuxer := info.afterDemuxer + [fakesink];
    }

    /** The records other than `info`'s id's are registered records. */
    ghost predicate OthersRegistered(info: SourceInfo)
      reads this, sources.Values
    {
      forall k :: k in sources && k != info.sourceId ==> RegisteredRecord(k, sources[k])
    }

    /** The admission step of `_on_source_caps`: takes the head of the free
        list while the record holds no index, records the source resolution
        and registers the record. */
    method Register(info: SourceInfo, src: Resolution)
      requires Valid() && CanAdmit(info)
      requires info.padIdx.Some? || freePadIndices != []
      modifies this`freePadIndices, this`sources, info`padIdx, info`srcResolution
      ensures demuxerSrcPads == DemuxerPads(|demuxerSrcPads|)
      ensures PoolPartition(freePadIndices, Slots(), |demuxerSrcPads|)
      ensures OthersRegistered(info)
      ensures old(info.padIdx).None? ==>
        info.padIdx == Some(old(freePadIndices)[0]) && freePadIndices == old(freePadIndices)[1..]
      ensures old(info.padIdx).Some? ==> info.padIdx == old(info.padIdx) && freePadIndices == old(freePadIndices)
      ensures info.padIdx.Some? && info.padIdx.value < |demuxerSrcPads|
      ensures info.srcResolution == Some(src)
      ensures sources == old(sources)[info.sourceId := info]
    {
      ghost var before := Slots();
      if info.padIdx.None? {
        AcquirePreservesPartition(freePadIndices, before, |demuxerSrcPads|, info.sourceId);
        info.padIdx := Some(freePadIndices[0]);
        freePadIndices := freePadIndices[1..];
      } else {
        assert before[info.sourceId := info.padIdx] == before;
      }
      info.srcResolution := Some(src);
      sources := sources[info.sourceId := info];
      assert Slots() == before[info.sourceId := info.padIdx] by {
        forall k | k in old(sources) && k != info.sourceId ensures sources[k] != info {
          assert old(sources[k].sourceId) == k;
        }
      }
      assert Slots()[info.sourceId] == info.padIdx;
    }

    /** `_on_source_caps`: checks the caps carry width and height, takes the
        head of the free list while the source has no index (reporting
        exhaustion without changing anything), records the resolution,
        registers the record, builds the output chain if there is none, and
        appends the input chain. */
    method OnSourceCaps(info: SourceInfo, width: Option<int>, height: Option<int>, nvConvertAcceptsCaps: bool)
      returns (r: CapsOutcome)
      requires Valid() && CanAdmit(info)
      modifies this`freePadIndices, this`sources, info
      ensures Valid()
      ensures r == MissingWidth <==> width.None?
      ensures r == MissingHeight <==> width.Some? && height.None?
      ensures r == PoolExhausted <==> width.Some? && height.Some? && old(info.padIdx).None? && old(freePadIndices) == []
      ensures r != Added ==> freePadIndices == old(freePadIndices) && sources == old(sources) && unchanged(info)
      ensures r == Added ==>
        && (old(info.padIdx).None? ==>
              info.padIdx == Some(old(freePadIndices)[0]) && freePadIndices == old(freePadIndices)[1..])
        && (old(info.padIdx).Some? ==> info.padIdx == old(info.padIdx) && freePadIndices == old(freePadIndices))
        && sources == old(sources)[info.sourceId := info]
        && !info.lockSet
        && info.srcResolution == Some(Resolution(width.value, height.value))
        && (old(info.afterDemuxer) == [] ==>
              && info.destResolution == Some(DestResolution(sourceOutput, info.srcResolution.value))
              && info.afterDemuxer == SourceOutputChain(sourceOutput, info.destResolution.value, info.sourceId))
        && (old(info.afterDemuxer) != [] ==>
              info.afterDemuxer == old(info.afterDemuxer) && info.destResolution == old(info.destResolution))
        && info.beforeMuxer == old(info.beforeMuxer) + InputChain(frameParams, nvConvertAcceptsCaps)
    {
      if width.None? {
        return MissingWidth;
      }
      if height.None? {
        return MissingHeight;
      }
      if info.padIdx.None? && freePadIndices == [] {
        return PoolExhausted;
      }
      Register(info, Resolution(width.value, height.value));
      ghost var registered := Slots();
      if info.afterDemuxer == [] {
        AddSourceOutput(info);
      }
      var inputPad := AddInputConverter(info, nvConvertAcceptsCaps);
      assert Slots() == registered;
      r := Added;
    }

    /** `_remove_input_elements`: empties `before_muxer`; the pool, the
        registry, the slot and the lock are left alone. */
    method RemoveInputElements(info: SourceInfo)
      requires Valid()
      modifies info`beforeMuxer
      ensures Valid()
      ensures info.beforeMuxer == []
    {
      info.beforeMuxer := [];
      assert Slots() == old(Slots());
    }

    /** `_remove_output_elements`: empties `after_demuxer`, unregisters the
        record, appends its index to the free list, clears `pad_idx` and only
        then sets the release lock. */
    method RemoveOutputElements(info: SourceInfo)
      requires Valid()
      requires info.sourceId in sources && sources[info.sourceId] == info
      requires info.afterDemuxer != []
      modifies this`sources, this`freePadIndices, info`afterDemuxer, info`padIdx, info`lockSet
      ensures Valid()
      ensures info.afterDemuxer == [] && info.padIdx == None && info.lockSet
      ensures sources == old(sources) - {info.sourceId}
      ensures freePadIndices == old(freePadIndices) + [old(info.padIdx).value]
      ensures Occurrences(freePadIndices, old(info.padIdx).value) == 1
      ensures old(info.padIdx).value !in HeldSet(Slots())
    {
      ghost var before := Slots();
      ghost var n := |demuxerSrcPads|;
      ReleasePreservesPartition(freePadIndices, before, n, info.sourceId);
      info.afterDemuxer := [];
      sources := sources - {info.sourceId};
      freePadIndices := freePadIndices + [info.padIdx.value];
      info.padIdx := None;
      info.lockSet := true;
      assert Slots() == before - {info.sourceId};
    }

    /** `on_last_pad_eos`: tells the sink the source ended, and drops the
        event exactly when EOS is suppressed. Output teardown is deferred: it
        is the separate `RemoveOutputElements` event. */
    method OnLastPadEos(info: SourceInfo) returns (r: ProbeReturn)
      modifies this`sinkQueue
      ensures sinkQueue == old(sinkQueue) + [SinkEndOfStream(info.sourceId)]
      ensures r == Drop <==> suppressEos
    {
      sinkQueue := sinkQueue + [SinkEndOfStream(info.sourceId)];
      r := if suppressEos then Drop else Pass;
    }

    /** `_on_demuxer_src_pad_eos` for the event's parsed stream index: the
        demuxer copies a stream-EOS to every src pad, and only the pad the
        index names acts on it. */
    function OnDemuxerSrcPadEos(pad: Pad, parsedIdx: Option<int>, peer: Option<Pad>): (r: DemuxerEosResult)
      reads this
      ensures r == PassThrough <==>
        parsedIdx.None? ||
        (PyIndex(|demuxerSrcPads|, parsedIdx.value).Some? && pad != demuxerSrcPads[PyIndex(|demuxerSrcPads|, parsedIdx.value).value])
      ensures r == IndexOutOfRange <==> parsedIdx.Some? && PyIndex(|demuxerSrcPads|, parsedIdx.value).None?
      ensures r.Redirected? ==> r.peer == peer
    {
      if parsedIdx.None? then PassThrough
      else match PyIndex(|demuxerSrcPads|, parsedIdx.value)
        case None => IndexOutOfRange
        case Some(i) => if pad != demuxerSrcPads[i] then PassThrough else Redirected(peer)
    }

    /** With the allocated pads, a stream-EOS for index `i` in range is acted on
        by pad `src_i` and passed through by every other pad. */
    lemma DemuxerEosOnlyOwnPad(pad: Pad, i: nat, peer: Option<Pad>)
      requires Valid() && i < |demuxerSrcPads|
      ensures OnDemuxerSrcPadEos(pad, Some(i), peer).Redirected? <==> pad == DemuxerSrc(i)
      ensures pad != DemuxerSrc(i) ==> OnDemuxerSrcPadEos(pad, Some(i), peer) == PassThrough
    {
    }

    /** No slot index is held by two registered sources. */
    lemma SlotOwnerUnique(k1: string, k2: string, i: int)
      requires Valid()
      requires k1 in sources && k2 in sources && Holds(sources[k1], i) && Holds(sources[k2], i)
      ensures k1 == k2
    {
      assert Slots()[k1] == Slots()[k2];
    }

    /** The pool is empty exactly when every one of the `n` indices is held. */
    lemma ExhaustedIffAllHeld()
      requires Valid()
      ensures |freePadIndices| + |HeldSet(Slots())| == |demuxerSrcPads|
      ensures freePadIndices == [] <==> HeldSet(Slots()) == SlotRange(|demuxerSrcPads|)
    {
      PoolAccounting(freePadIndices, Slots(), |demuxerSrcPads|);
    }

    /** The registered source holding slot `padIndex`, if any. */
    method SourceIdByPadIndex(padIndex: int) returns (r: Option<string>)
      requires Valid()
      ensures r.Some? ==> r.value in sources && Holds(sources[r.value], padIndex)
      ensures r.None? ==> forall k :: k in sources ==> !Holds(sources[k], padIndex)
    {
      var keys := sources.Keys;
      while keys != {}
        invariant keys <= sources.Keys
        invariant forall k :: k in sources && k !in keys ==> !Holds(sources[k], padIndex)
        decreases keys
      {
        var k :| k in keys;
        if Holds(sources[k], padIndex) {
          return Some(k);
        }
        keys := keys - {k};
      }
      return None;
    }

    /** `update_frame_meta`: one record per frame of the batch, for the
        registered source holding the frame's slot, at that source's
        destination resolution. A frame whose slot no registered source holds
        ends the batch. */
    method UpdateFrameMeta(batch: seq<BatchFrame>) returns (records: seq<FrameRecord>, complete: bool)
      requires Valid()
      ensures |records| <= |batch|
      ensures complete <==> |records| == |batch|
      ensures forall j :: 0 <= j < |records| ==>
        && records[j].sourceId in sources
        && Holds(sources[records[j].sourceId], batch[j].padIndex)
        && sources[records[j].sourceId].destResolution.Some?
        && records[j] == ReconciledFrame(batch[j], records[j].sourceId,
                                         sources[records[j].sourceId].destResolution.value, internalAttrs)
      ensures !complete ==> forall k :: k in sources ==> !Holds(sources[k], batch[|records|].padIndex)
    {
      records := [];
      var i := 0;
      while i < |batch|
        invariant 0 <= i <= |batch| && |records| == i
        invariant forall j :: 0 <= j < i ==>
          && records[j].sourceId in sources
          && Holds(sources[records[j].sourceId], batch[j].padIndex)
          && sources[records[j].sourceId].destResolution.Some?
          && records[j] == ReconciledFrame(batch[j], records[j].sourceId,
                                           sources[records[j].sourceId].destResolution.value, internalAttrs)
      {
        var id := SourceIdByPadIndex(batch[i].padIndex);
        if id.None? {
          return records, false;
        }
        var info := sources[id.value];
        assert RegisteredRecord(id.value, info);
        var record := ReconcileFrame(batch[i], id.value, info.destResolution.value, internalAttrs);
        records := records + [record];
        i := i + 1;
      }
      complete := true;
    }
  }
}

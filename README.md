# Savant DeepStream runtime: slot pool, source lifecycle and output variants

This project models the core of Savant's DeepStream pipeline (`NvDsPipeline`)
and of its output variants (`SourceOutput` and subclasses), and proves
properties of the model.

- **Slot pool.** `NvDsPipeline` owns a fixed pool of slot indices. Slot `i` is
  demuxer src pad `src_i` and muxer sink pad `sink_i`. The pool starts as
  `[0, n)`. A source takes the head of the free list when its caps arrive. The
  index goes back to the end of the list when the source's output side is torn
  down.
- **Source records.** Each attached source has a `SourceInfo` record. It holds
  the slot index, a release lock, the source and destination resolutions, and
  two ordered element lists. `beforeMuxer` is the chain in front of the muxer;
  `afterDemuxer` is the chain after the demuxer.
- **Lifecycle events.** The class has one method per event:
  - a new source pad;
  - one poll of the release lock;
  - the caps of the pad;
  - input teardown;
  - output teardown;
  - the last-pad end-of-stream;
  - the demuxer stream end-of-stream.
- **Invariant.** `NvDsPipeline.Valid()` states that the free indices and the
  indices held by registered sources are disjoint, have no repeats, make up
  exactly `[0, n)`, and that no index has two holders. Every event method
  (`AddSink`, `OnSourceAdded`, `AwaitRelease`, `OnSourceCaps`,
  `RemoveInputElements`, `RemoveOutputElements`) preserves it, and so does
  `AddElement`. `Register`, `AddSourceOutput` and `AddInputConverter` are steps
  of `OnSourceCaps`; `Valid()` holds again once the steps `OnSourceCaps` runs
  have all run (`AddSourceOutput` is skipped for a record that already has an
  output chain).
  `OnLastPadEos` touches only the sink queue.
- **Lock release.** Only output teardown sets a record's lock, and it needs the
  record's output chain. A record whose caps met an exhausted pool and never
  came back has no chain, so its lock is never set. Every later pad with that
  id then waits on it (`Scenarios.UnadmittedRecordBlocksReattach`). A waiting
  pad holds the same record as the old incarnation, so when input teardown
  runs after output teardown, the waiter's caps can be admitted in between and
  the late input teardown then empties the input chain of the re-admitted,
  registered record (`Scenarios.LateInputTeardownAfterReadmission`).
- **Per-batch metadata.** `update_frame_meta` is modelled too. Untracked objects
  get per-label fallback ids. Internal attributes are filtered out. The empty
  primary object that covers the whole frame is dropped.
- **Output variants.** Each variant computes a destination resolution (integer
  floor scaling, and Python's half-to-even rounding to a multiple of 8 for PNG).
  Each also appends an ordered chain of element kinds.

GStreamer elements and pads are modelled as tokens (`Types.Element`,
`Types.Pad`). An element records its kind plus the properties the core varies
or reads: crops, caps, encoder parameters, the parser's `config-interval` and
the fakesink's name. Fixed properties such as the fakesink's `sync`, `qos` and
`enable-last-sample` and the converters' `nvbuf-memory-type` are not recorded.

Modules, one per concern:

| file | module | what |
|---|---|---|
| `types.dfy` | `Types` | resolutions, frame parameters, codecs, caps, element and pad tokens |
| `slot_pool.dfy` | `SlotPool` | the pool invariant and the lemmas for register, acquire and release |
| `sources.dfy` | `Sources` | the `SourceInfo` record (a class: the handlers update it in place) |
| `source_output.dfy` | `SourceOutput` | variants, `dest_resolution`, output caps, output chain |
| `frame_meta.dfy` | `FrameMeta` | the per-frame passes of `update_frame_meta` |
| `pipeline.dfy` | `Pipeline` | the `NvDsPipeline` class: pool, registry, lifecycle, end-of-stream probes |
| `scenarios.dfy` | `Scenarios` | event sequences proved from the class contracts |

## Model

| member | source | states |
|---|---|---|
| SlotPool.InitialPool | savant/deepstream/pipeline.py:238 | the initial free list has length `n` and holds `i` at position `i` |
| SlotPool.SlotRange | savant/deepstream/pipeline.py:238 | membership in `[0, n)` |
| SlotPool.InitialPartition | savant/deepstream/pipeline.py:237-238 | a full free list and no registered source satisfy the ownership invariant |
| SlotPool.RegisterPreservesPartition | savant/deepstream/pipeline.py:263-265 | registering a source that holds no index keeps the invariant and the held set |
| SlotPool.AcquirePreservesPartition | savant/deepstream/pipeline.py:301-304 | giving the head of the free list to a source that holds none keeps the invariant; that index was held by nobody, and the held set grows by exactly it |
| SlotPool.ReleasePreservesPartition | savant/deepstream/pipeline.py:478-481 | unregistering a source and appending its index keeps the invariant; the index then occurs exactly once in the free list and is held by nobody |
| SlotPool.PoolAccounting | savant/deepstream/pipeline.py:301-314 | free plus held indices number exactly `n`; the free list is empty iff every index in `[0, n)` is held |
| Sources.SourceInfo.constructor | savant/deepstream/pipeline.py:265 | a fresh record has no index, no resolutions, empty element lists and a cleared lock |
| SourceOutput.FrameDestResolution | savant/deepstream/source_output.py:77-85 | with kept padding, each dimension is the floor of `src * total / frame` (bounded from both sides); otherwise the source resolution |
| SourceOutput.RoundToMultipleOf8 | savant/deepstream/source_output.py:235-241 | `round(x / 8) * 8`: a multiple of 8 within 4 of `x`; on a tie, the even quotient |
| SourceOutput.RoundIsNearest | savant/deepstream/source_output.py:235-241 | no multiple of 8 is closer to `x` than the rounded value |
| SourceOutput.RoundExample | savant/deepstream/source_output.py:238-241 | 101 to 104, 202 to 200, and the two ties 100 to 96 and 108 to 112 |
| SourceOutput.DestResolution | savant/deepstream/source_output.py:50-54 | metadata-only output keeps the source resolution; raw and encoded output use the frame rule; PNG output is divisible by 8 and within 4 of the frame rule in each dimension |
| SourceOutput.PngDestExample | savant/deepstream/source_output.py:235-241 | with padding not kept, a 101x202 source gives a 104x200 PNG output |
| SourceOutput.ConverterCrop | savant/deepstream/source_output.py:103-112 | the output converter's `src_crop` is set iff there is padding that is not kept, and is then `left:top:width:height` |
| SourceOutput.CropComplementsScaling | savant/deepstream/source_output.py:80-84 | with padding, exactly one of cropping and scaling applies; a variant that crops outputs the source resolution |
| SourceOutput.OutputCaps | savant/deepstream/source_output.py:152-162 | the output caps carry the destination width and height; the media is NVMM RGBA iff the variant is raw RGBA, and the codec's caps for the encoded variants |
| SourceOutput.OutputChainOrder | savant/deepstream/source_output.py:114-133 | metadata-only output appends nothing. Otherwise the chain starts with the converter and ends with the capsfilter at the destination size. It has an encoder iff the variant is encoded and a parser iff it is H.264/H.265, and a parser always directly follows an encoder |
| SourceOutput.AddTransformElems | savant/deepstream/source_output.py:149-150 | appends nothing (raw), the encoder (encoded, PNG), or the encoder then the parser with `config-interval` -1 (H.264/H.265) |
| SourceOutput.AddOutput | savant/deepstream/source_output.py:56-65 | appends exactly the variant's output elements in order; returns the input pad for metadata-only output, else the capsfilter's src pad |
| FrameMeta.AssignObjectIds | savant/deepstream/pipeline.py:510-516 | the counter loop computes exactly the fallback ids `WithObjectIds` |
| FrameMeta.CountUntrackedMonotone | savant/deepstream/pipeline.py:513-516 | a label's counter never decreases along the frame |
| FrameMeta.FallbackIdsIncrease | savant/deepstream/pipeline.py:513-516 | two untracked objects with the same label get strictly increasing ids in iteration order |
| FrameMeta.FallbackIdsCover | savant/deepstream/pipeline.py:510-516 | every number below a label's untracked count is the id of some untracked object of that label |
| FrameMeta.FallbackIdsBelowCount | savant/deepstream/pipeline.py:510-516 | every fallback id is below its label's untracked count, so each label's ids are exactly 0, 1, 2, … |
| FrameMeta.TrackedObjectsKeepIds | savant/deepstream/pipeline.py:513 | an object with a real id keeps it and advances no counter |
| FrameMeta.FallbackIdsExample | savant/deepstream/pipeline.py:510-516 | three untracked cars around a tracked car get 0, 1, 2, and the tracked car keeps its id |
| FrameMeta.KeptAttributesMembership | savant/deepstream/pipeline.py:536-544 | an attribute is output iff it belongs to the object and its `(element_name, name)` is not internal |
| FrameMeta.KeptAttributesAppend | savant/deepstream/pipeline.py:536-544 | attribute filtering keeps their order |
| FrameMeta.FilterAttributes | savant/deepstream/pipeline.py:536-544 | the attribute loop computes exactly `KeptAttributes` |
| FrameMeta.CollectedObjectsAppend | savant/deepstream/pipeline.py:529-566 | objects are output in iteration order |
| FrameMeta.CollectedSingle | savant/deepstream/pipeline.py:546-566 | an object is dropped iff its label is the primary label, its box is `(w/2, h/2, w, h)` of the destination, and no attribute is left; otherwise it is appended |
| FrameMeta.CollectedObjectsSound | savant/deepstream/pipeline.py:529-566 | every output object is the converted form of an input object, is not the degenerate one, and has no internal attribute |
| FrameMeta.DegenerateFilterExample | savant/deepstream/pipeline.py:546-564 | the bare whole-frame primary object is dropped; with one non-internal attribute it is kept |
| FrameMeta.CollectObjects | savant/deepstream/pipeline.py:529-566 | the object loop computes exactly `CollectedObjects` |
| FrameMeta.ReconcileFrame | savant/deepstream/pipeline.py:508-568 | both passes over a frame compute exactly `ReconciledFrame` |
| FrameMeta.ReconciledFrameSound | savant/deepstream/pipeline.py:508-568 | a frame record has the frame's source, index and pts; none of its objects is degenerate or carries an internal attribute, and each has the resolved id of an input object |
| Pipeline.SelectSourceOutput | savant/deepstream/pipeline.py:100-131 | no output frame selects metadata-only; raw RGBA, H.264/H.265 and PNG select their variants; any other codec selects the generic encoded one. Frame variants carry the frame parameters, and encoded ones the codec and `params or {}` |
| Pipeline.InternalPairs | savant/deepstream/pipeline.py:197-200 | the registered pairs are exactly `(element name, attribute name)` of the `internal` attributes of attribute or complex models |
| Pipeline.DemuxerPads | savant/deepstream/pipeline.py:715-727 | pad `i` of the allocated list is `src_i` |
| Pipeline.PyIndex | savant/deepstream/pipeline.py:733 | Python list indexing: in range iff `-n <= i < n`, and non-negative indices address themselves |
| Pipeline.InputChainShape | savant/deepstream/pipeline.py:345-396 | the input chain is `[nvvideoconvert, capsfilter]`, or has `videoconvert` in front exactly when nvvideoconvert rejects the caps. `dest-crop` is set iff there is padding. The capsfilter pins NVMM RGBA at the padded size |
| Pipeline.SourceOutputChainShape | savant/deepstream/pipeline.py:419-461 | the output chain is the queue, then the variant's elements, then `sink_<id>` last |
| Pipeline.NvDsPipeline.constructor | savant/deepstream/pipeline.py:71-134 | the variant is the one selected for the configured codec; the pool, pads and registry start empty; end-of-stream is suppressed iff the source is `zeromq_source_bin` (line 218) |
| Pipeline.NvDsPipeline.AddElement | savant/deepstream/pipeline.py:185-201 | the internal attributes grow by exactly the element's internal pairs |
| Pipeline.NvDsPipeline.AddSink | savant/deepstream/pipeline.py:229-238 | allocates pads `src_0 .. src_{n-1}` and sets the pool to `[0, n)`, keeping the invariant |
| Pipeline.NvDsPipeline.OnSourceAdded | savant/deepstream/pipeline.py:241-281 | a non-video pad is ignored iff its caps exist and their name does not start with `video`. An unknown id gets a fresh, registered record. A registered id waits for its record's lock, and nothing changes |
| Pipeline.NvDsPipeline.AwaitRelease | savant/deepstream/pipeline.py:267-271 | returns iff the lock was set and then clears it; it never returns while the old record is still registered |
| Pipeline.NvDsPipeline.AddInputConverter | savant/deepstream/pipeline.py:339-396 | appends exactly the input chain and returns the capsfilter's src pad |
| Pipeline.NvDsPipeline.AddSourceOutput | savant/deepstream/pipeline.py:419-461 | sets the variant's destination resolution and appends queue, variant chain and fakesink |
| Pipeline.NvDsPipeline.Register | savant/deepstream/pipeline.py:301-318 | takes the head of the free list only while the record holds no index, records the source resolution and registers the record |
| Pipeline.NvDsPipeline.OnSourceCaps | savant/deepstream/pipeline.py:283-337 | Missing width or height fails. With no index and an empty pool it reports exhaustion and changes nothing. Otherwise it admits the record: index from the head of the list, output chain only if there is none, input chain appended. The invariant is kept |
| Pipeline.NvDsPipeline.RemoveInputElements | savant/deepstream/pipeline.py:398-416 | empties `before_muxer` and touches neither the pool, the registry, the index nor the lock |
| Pipeline.NvDsPipeline.RemoveOutputElements | savant/deepstream/pipeline.py:463-487 | empties `after_demuxer`, unregisters the record, appends its index exactly once, clears the index and sets the lock; the invariant is kept |
| Pipeline.NvDsPipeline.OnLastPadEos | savant/deepstream/pipeline.py:489-500 | enqueues `SinkEndOfStream(id)` and drops the event iff end-of-stream is suppressed |
| Pipeline.NvDsPipeline.OnDemuxerSrcPadEos | savant/deepstream/pipeline.py:729-757 | passes iff there is no index or the pad is not the indexed one. An index out of range raises. Otherwise it drops the event and forwards end-of-stream to the peer |
| Pipeline.NvDsPipeline.DemuxerEosOnlyOwnPad | savant/deepstream/pipeline.py:733-735 | with the allocated pads, the event for index `i` is acted on by `src_i` alone |
| Pipeline.NvDsPipeline.SlotOwnerUnique | savant/deepstream/pipeline.py:301-304 | no index is held by two registered sources |
| Pipeline.NvDsPipeline.ExhaustedIffAllHeld | savant/deepstream/pipeline.py:301-314 | free plus held indices number `n`; admission waits exactly when all `n` indices are held |
| Pipeline.NvDsPipeline.SourceIdByPadIndex | savant/deepstream/pipeline.py:519 | returns a registered source holding the index, or none iff no registered source holds it |
| Pipeline.NvDsPipeline.UpdateFrameMeta | savant/deepstream/pipeline.py:502-570 | each frame record belongs to the registered source holding the frame's pad index and is that frame reconciled at the source's destination resolution; a missing holder ends the batch |
| Scenarios.NewPipeline | savant/deepstream/pipeline.py:71-238 | a built pipeline with metadata-only output has a full pool of the given capacity and no source |
| Scenarios.Attach | savant/deepstream/pipeline.py:241-337 | a new video source is registered and gets the head of the free list, unless the pool is exhausted |
| Scenarios.RetryCaps | savant/deepstream/pipeline.py:301-314 | a retry by a registered source without an index succeeds iff the pool is not empty |
| Scenarios.Readmit | savant/deepstream/pipeline.py:267-318 | a released record's lock wait returns and its caps are admitted with the head of the free list |
| Scenarios.Teardown | savant/deepstream/pipeline.py:398-487 | either order of the two teardowns unregisters the record, empties both chains, returns its index and sets its lock |
| Scenarios.CapacityOneBackoff | savant/deepstream/pipeline.py:301-314 | with one slot, a second source is refused until the first one's output is torn down, then gets index 0 |
| Scenarios.ReattachWaitsForRelease | savant/deepstream/pipeline.py:262-271 | a re-attached id cannot proceed before teardown, proceeds after it, and gets the index at the head of the list |
| Scenarios.BothDrainOrders | savant/deepstream/pipeline.py:406-412 | input-first and output-first teardown leave the same free list |
| Scenarios.LateInputTeardownAfterReadmission | savant/deepstream/pipeline.py:262-271 | with output teardown first, a waiting pad of the same record is admitted again, and the old incarnation's late input teardown leaves that registered record, which holds index 0, with an empty input chain |
| Scenarios.UnadmittedRecordBlocksReattach | savant/deepstream/pipeline.py:262-271 | a record registered while the pool was exhausted has no chain to tear down, and a re-attach of its id waits on its lock |
| Scenarios.StaleWaiterAfterReregistration | savant/deepstream/pipeline.py:262-271 | a pad can end up waiting on a released record while a newer record is registered under its id; the caps handler's precondition excludes admitting it |
| Scenarios.EosSuppression | savant/deepstream/pipeline.py:494-500 | behind `zeromq_source_bin` the last-pad end-of-stream is dropped, otherwise passed; the sink is told either way |

## Left out

- **GStreamer and pyds calls.** These are element creation, properties not
  listed above, `set_state`, `sync_state_with_parent`, linking, pad probes,
  request and release of pads, and caps parsing. Caps arrive as their name, an
  optional width and height, and whether nvvideoconvert accepts them.
- **Threading.** The adding lock, the pad-probe threads and concurrency are left
  out. Each handler runs atomically.
- **Waiting and retries.** A `lock.wait(5)` poll is one `AwaitRelease` call; a
  `time.sleep(5)` retry is one more `OnSourceCaps` call that reports
  `PoolExhausted`. The wait loops that do not terminate while the resource is
  missing are not modelled.
- **Deferred teardown.** `GLib.idle_add` deferral is collapsed: the two
  end-of-stream handlers do not run the teardowns, which are separate events.
  `_on_muxer_sink_pad_eos` and its registry lookup are not part of this model:
  input teardown receives the record.
- **`SourceInfoRegistry`.** It is modelled as a map from source id to record.
  Not modelled: `get_source`, `init_source`, `update_source`, `remove_source`,
  and `get_id_by_pad_index` beyond that map. Its behaviour for an index nobody
  holds is not modelled; `UpdateFrameMeta` stops at such a frame.
- **Frame output calls.** `get_source_frame_meta`, `metadata_add_frame_meta`,
  `nvds_remove_obj_attrs` and the nvds iterators are left out. A batch is a
  sequence of frames and the output is a sequence of records. The rewrite of
  `object_id` in the batch metadata in place is not modelled: the model
  returns the rewritten objects.
- **Object and attribute converters.** `nvds_obj_meta_output_converter`,
  `nvds_attr_meta_output_converter` and the floating-point box geometry are not
  part of this model. An input object carries its converted box as reals.
- **Constants.** `savant/meta/constants.py` is not part of this model.
  `UNTRACKED_OBJECT_ID` and `PRIMARY_OBJECT_LABEL` are given values of their
  own, and no property depends on them.
- **The schema of `FrameParameters`.** It is not part of this model.
  `total_width` and `total_height` are inputs rather than derived values.
- **Codecs.** `CODEC_BY_NAME` and the codec's encoder, parser and caps names
  are represented by the `Codec` value.
- Pipeline.NvDsPipeline.OnSourceCaps: its precondition (`CanAdmit`, also
  the precondition of `Register`) excludes one order of events. A pad waits on
  record R1 of an id. R1 is torn down, and a third pad of the same id
  registers a fresh R2. The waiting pad's caps then arrive for R1. The code
  would give R1 a second index and `update_source` would replace R2 in the
  registry, so R2's index would be neither free nor held. The model assumes
  at most one live source pad per id, which is what a source element emits
  for one stream. `Scenarios.StaleWaiterAfterReregistration` shows the state
  is reachable and excluded.
- Pipeline.NvDsPipeline.RemoveOutputElements: requires the record to be
  registered with an output chain, so a repeated last-pad end-of-stream for a
  released record is not modelled. What the code would then do depends on
  `remove_source`, which is not part of this model; the append at line 480
  would put `None` in the free list.
- Pipeline.NvDsPipeline.constructor: takes `max_parallel_streams` as a
  parameter; the default of 64 used when the setting is absent (line 85) is
  not modelled.
- Sources.SourceInfo.constructor: the record's own class and
  `SourceInfoRegistry.init_source` are not part of this model. A fresh
  record's lock is assumed cleared, the default of a new `threading.Event`.
  If it were set, the first `lock.wait` of a second pad with a registered id
  (line 268) would return at once, and that pad would go on to admission while
  the old record is still registered; `RegisteredRecord`'s `!lockSet` and
  `AwaitRelease`'s "never ready while registered" would then not hold.
- Types.FrameParameters: `width` and `height` are positive, so a zero frame
  width or height is not modelled; the source would raise `ZeroDivisionError`
  in `dest_resolution` (source_output.py:81) when padding is kept.
- SourceOutput.RoundToMultipleOf8: is exact for every integer, while Python's
  `x / 8` is a float division. The two agree for dimensions below 2^53.
- **Other configuration.** Muxer and demuxer property tables, the live-source
  queue, the draw probe, the buffer processor, object preprocessing,
  `before_shutdown`, and the platform-dependent memory-type properties are left
  out. They are setup of foreign components.
- **Other files.** `savant/meta/bbox.py`, `scripts/run_source.py` and
  `savant/entrypoint/main.py` are not part of this model. They hold geometry,
  command-line and bootstrap code.

/** Event sequences a client of `NvDsPipeline` can drive, each proved from the
    contracts of the pipeline alone. */
module Scenarios {
  import opened Types
  import opened Sources
  import opened Pipeline

  /** A pipeline with metadata-only output, its sink added. */
  method NewPipeline(fp: FrameParameters, capacity: nat, sourceElement: string) returns (p: NvDsPipeline)
    ensures fresh(p) && p.Valid() && p.sources == map[]
    ensures |p.demuxerSrcPads| == capacity && p.freePadIndices == SlotPool.InitialPool(capacity)
    ensures p.sourceOutput.OnlyMeta? && p.frameParams == fp
    ensures p.suppressEos == (sourceElement == "zeromq_source_bin") && p.sinkQueue == []
  {
    p := new NvDsPipeline(fp, capacity, None, sourceElement);
    p.AddSink();
  }

  /** A video pad of a new source appears and its caps arrive: the record is
      registered either way, and holds the head of the free list unless the
      pool is exhausted. */
  method Attach(p: NvDsPipeline, id: string, accepts: bool) returns (info: SourceInfo, r: CapsOutcome)
    requires p.Valid() && id !in p.sources
    modifies p
    ensures p.Valid() && fresh(info) && info.sourceId == id && !info.lockSet
    ensures p.sources == old(p.sources)[id := info]
    ensures r == (if old(p.freePadIndices) == [] then PoolExhausted else Added)
    ensures r == Added ==>
      info.padIdx == Some(old(p.freePadIndices)[0]) && p.freePadIndices == old(p.freePadIndices)[1..]
      && info.afterDemuxer != []
    ensures r == PoolExhausted ==> info.padIdx == None && p.freePadIndices == old(p.freePadIndices)
    ensures p.sinkQueue == old(p.sinkQueue)
  {
    var added := p.OnSourceAdded(id, Some("video/x-raw"));
    info := added.info;
    r := p.OnSourceCaps(info, Some(640), Some(480), accepts);
  }

  /** The caps retry of a registered source that holds no index. */
  method RetryCaps(p: NvDsPipeline, info: SourceInfo) returns (r: CapsOutcome)
    requires p.Valid() && p.CanAdmit(info) && info.sourceId in p.sources && info.padIdx == None
    modifies p, info
    ensures p.Valid() && p.sources == old(p.sources) && !info.lockSet
    ensures r == (if old(p.freePadIndices) == [] then PoolExhausted else Added)
    ensures r == Added ==>
      info.padIdx == Some(old(p.freePadIndices)[0]) && p.freePadIndices == old(p.freePadIndices)[1..]
  {
    r := p.OnSourceCaps(info, Some(640), Some(480), true);
  }

  /** A waiting re-attached source whose old incarnation was released: its
      lock wait returns and its caps are admitted. */
  method Readmit(p: NvDsPipeline, info: SourceInfo) returns (ready: bool, r: CapsOutcome)
    requires p.Valid() && info.sourceId !in p.sources
    requires info.lockSet && info.padIdx == None && info.afterDemuxer == []
    modifies p, info
    ensures p.Valid() && ready
    ensures r == (if old(p.freePadIndices) == [] then PoolExhausted else Added)
    ensures r == Added ==> info.padIdx == Some(old(p.freePadIndices)[0])
    ensures r == Added ==> p.sources == old(p.sources)[info.sourceId := info] && info.afterDemuxer != []
  {
    ready := p.AwaitRelease(info);
    r := p.OnSourceCaps(info, Some(640), Some(480), false);
  }

  /** Both teardowns of a registered source with an output chain, in either
      order. */
  method Teardown(p: NvDsPipeline, info: SourceInfo, inputFirst: bool)
    requires p.Valid() && info.sourceId in p.sources && p.sources[info.sourceId] == info && info.afterDemuxer != []
    modifies p, info
    ensures p.Valid()
    ensures p.sources == old(p.sources) - {info.sourceId}
    ensures p.freePadIndices == old(p.freePadIndices) + [old(info.padIdx).value]
    ensures info.beforeMuxer == [] && info.afterDemuxer == [] && info.padIdx == None && info.lockSet
  {
    if inputFirst {
      p.RemoveInputElements(info);
      p.RemoveOutputElements(info);
    } else {
      p.RemoveOutputElements(info);
      p.RemoveInputElements(info);
    }
  }

  /** With one slot, a second source is told the pool is exhausted, and the
      caps retry succeeds, with the same index, once the first source's
      output is torn down. */
  method CapacityOneBackoff(fp: FrameParameters) returns (first: CapsOutcome, blocked: CapsOutcome, retried: CapsOutcome, index: Option<nat>)
    ensures first == Added && blocked == PoolExhausted && retried == Added && index == Some(0)
  {
    var p := NewPipeline(fp, 1, "uridecodebin");
    var a, b;
    a, first := Attach(p, "cam-a", true);
    b, blocked := Attach(p, "cam-b", true);
    Teardown(p, a, true);
    retried := RetryCaps(p, b);
    index := b.padIdx;
  }

  /** A source re-attached under a registered id waits: its lock is not set
      while the old incarnation is registered, is set by output teardown,
      and the re-admitted record gets the index at the head of the free
      list (the one released longest ago), not necessarily its old one. */
  method ReattachWaitsForRelease(fp: FrameParameters)
    returns (waiting: bool, earlyWait: bool, lateWait: bool, outcome: CapsOutcome, oldIndex: Option<nat>, newIndex: Option<nat>)
    ensures waiting && !earlyWait && lateWait && outcome == Added
    ensures oldIndex == Some(0) && newIndex == Some(1)
  {
    var p := NewPipeline(fp, 2, "uridecodebin");
    var a, r := Attach(p, "cam-a", false);
    oldIndex := a.padIdx;
    var again := p.OnSourceAdded("cam-a", Some("video/x-raw"));
    waiting := again.AwaitingRelease?;
    earlyWait := p.AwaitRelease(again.info);
    Teardown(p, a, false);
    lateWait, outcome := Readmit(p, again.info);
    newIndex := again.info.padIdx;
  }

  /** Whichever end of a source is torn down first, the two teardowns leave
      the same state: the record unregistered with no elements and no index,
      its lock set, and its index back in the pool. */
  method BothDrainOrders(fp: FrameParameters) returns (freeInputFirst: seq<nat>, freeOutputFirst: seq<nat>)
    ensures freeInputFirst == freeOutputFirst == [0]
  {
    var p := NewPipeline(fp, 1, "uridecodebin");
    var a, r := Attach(p, "cam-a", true);
    Teardown(p, a, true);
    freeInputFirst := p.freePadIndices;
    var q := NewPipeline(fp, 1, "uridecodebin");
    var b, r' := Attach(q, "cam-a", true);
    Teardown(q, b, false);
    freeOutputFirst := q.freePadIndices;
  }

  /** The last-pad EOS is dropped behind a ZeroMQ source bin and passed on
      otherwise; the sink is told either way. */
  method EosSuppression(fp: FrameParameters) returns (zmq: ProbeReturn, uri: ProbeReturn, told: seq<SinkMessage>)
    ensures zmq == Drop && uri == Pass
    ensures told == [SinkEndOfStream("cam-a")]
  {
    var p := NewPipeline(fp, 1, "zeromq_source_bin");
    var a := p.OnSourceAdded("cam-a", None);
    zmq := p.OnLastPadEos(a.info);
    told := p.sinkQueue;
    var q := NewPipeline(fp, 1, "uridecodebin");
    var b := q.OnSourceAdded("cam-a", None);
    uri := q.OnLastPadEos(b.info);
  }

  /** A record registered without an index (its caps met an exhausted pool)
      has no output chain, so no teardown can set its lock: a re-attach of
      its id waits on it. */
  method UnadmittedRecordBlocksReattach(fp: FrameParameters) returns (blocked: CapsOutcome, waiting: bool, ready: bool)
    ensures blocked == PoolExhausted && waiting && !ready
  {
    var p := NewPipeline(fp, 1, "uridecodebin");
    var a, first := Attach(p, "cam-a", true);
    var b;
    b, blocked := Attach(p, "cam-b", true);
    var again := p.OnSourceAdded("cam-b", Some("video/x-raw"));
    waiting := again.AwaitingRelease?;
    ready := p.AwaitRelease(again.info);
  }

  /** A pad that waits on a record, while that record is released and a newer
      pad registers a fresh record under the same id, ends up holding a
      released record that the caps handler does not admit: the registry
      entry of its id is another record. */
  method StaleWaiterAfterReregistration(fp: FrameParameters) returns (p: NvDsPipeline, stale: SourceInfo, ready: bool)
    ensures p.Valid() && ready && !stale.lockSet
    ensures stale.sourceId in p.sources && p.sources[stale.sourceId] != stale
    ensures !p.CanAdmit(stale)
  {
    p := NewPipeline(fp, 1, "uridecodebin");
    var a, r := Attach(p, "cam-a", true);
    var again := p.OnSourceAdded("cam-a", Some("video/x-raw"));
    Teardown(p, a, false);
    var third := p.OnSourceAdded("cam-a", Some("video/x-raw"));
    stale := again.info;
    ready := p.AwaitRelease(stale);
  }

  /** With input teardown running after output teardown, a waiting pad of the
      same id can be admitted in between: the waiter holds the same record, so
      the late input teardown empties the input chain of the re-admitted
      record while it is registered and holds index 0. */
  method LateInputTeardownAfterReadmission(fp: FrameParameters)
    returns (p: NvDsPipeline, info: SourceInfo, ready: bool, r: CapsOutcome)
    ensures p.Valid() && ready && r == Added
    ensures info.sourceId in p.sources && p.sources[info.sourceId] == info
    ensures info.padIdx == Some(0) && info.afterDemuxer != [] && info.beforeMuxer == []
  {
    p := NewPipeline(fp, 1, "uridecodebin");
    var first;
    info, first := Attach(p, "cam-a", true);
    var again := p.OnSourceAdded("cam-a", Some("video/x-raw"));
    assert again.info == info;
    p.RemoveOutputElements(info);
    ready, r := Readmit(p, info);
    p.RemoveInputElements(info);
  }
}

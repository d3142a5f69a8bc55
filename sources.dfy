/** The per-source record the pipeline keeps for every attached stream. */
module Sources {
  import opened Types

  /** `SourceInfo`: the slot index the source holds, its release lock (an
      event; `lockSet` is whether it is set), the resolutions negotiated and
      computed at admission, and the two ordered element lists owned by the
      source: the chain in front of the muxer and the chain after the demuxer.
      Elements are kept as their kinds. */
  class SourceInfo {
    const sourceId: string
    var padIdx: Option<nat>
    var lockSet: bool
    var srcResolution: Option<Resolution>
    var destResolution: Option<Resolution>
    var beforeMuxer: seq<Element>
    var afterDemuxer: seq<Element>

    /** A fresh record: no slot, no elements, and a lock event that is not set
        (a new event starts cleared). */
    constructor (sourceId: string)
      ensures this.sourceId == sourceId
      ensures padIdx == None && !lockSet
      ensures srcResolution == None && destResolution == None
      ensures beforeMuxer == [] && afterDemuxer == []
    {
      this.sourceId := sourceId;
      padIdx := None;
      lockSet := false;
      srcResolution := None;
      destResolution := None;
      beforeMuxer := [];
      afterDemuxer := [];
    }
  }
}

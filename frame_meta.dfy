/** Per-frame metadata reconciliation (`update_frame_meta`): fallback object
    ids for untracked objects, removal of internal attributes, and removal of
    the empty whole-frame primary object. Objects reach this stage with the
    bounding box the output converter computed for them. */
module FrameMeta {
  import opened Types

  /** Tracker id of an object no tracker has seen (DeepStream's sentinel). */
  const UntrackedObjectId: int := 0xFFFF_FFFF_FFFF_FFFF

  /** Label of the primary object that stands for the whole frame. */
  const PrimaryObjectLabel: string := "frame"

  /** Centre, width and height of an output bounding box. */
  datatype BBox = BBox(xc: real, yc: real, width: real, height: real)

  /** An attribute: the element that produced it, its name, and its value. */
  datatype AttrMeta = AttrMeta(elementName: string, name: string, value: string)

  /** An object of a batch frame. */
  datatype ObjectMeta = ObjectMeta(objectId: int, objLabel: string, bbox: BBox, attributes: seq<AttrMeta>)

  /** An object of an output frame record. */
  datatype OutputObject = OutputObject(objectId: int, objLabel: string, bbox: BBox, attributes: seq<AttrMeta>)

  /** A frame of a batch: the muxer slot it came through, the frame index
      (absent when the frame carries no Savant frame meta), its PTS and its
      objects in iteration order. */
  datatype BatchFrame = BatchFrame(padIndex: int, frameIdx: Option<int>, pts: int, objects: seq<ObjectMeta>)

  /** The objects appended to a source's frame metadata. */
  datatype FrameRecord = FrameRecord(sourceId: string, frameIdx: Option<int>, pts: int, objects: seq<OutputObject>)

  // ---------------------------------------------------------------------
  // Fallback object ids

  predicate Untracked(o: ObjectMeta) {
    o.objectId == UntrackedObjectId
  }

  /** Number of untracked objects with `label` in `objs`. */
  function CountUntracked(objs: seq<ObjectMeta>, lbl: string): nat {
    if objs == [] then 0
    else
      var last := objs[|objs| - 1];
      CountUntracked(objs[..|objs| - 1], lbl) + (if Untracked(last) && last.objLabel == lbl then 1 else 0)
  }

  /** Object `j` with its id resolved: a tracked object keeps its id; an
      untracked one gets the number of untracked objects with its label
      before it. */
  function Resolved(objs: seq<ObjectMeta>, j: nat): ObjectMeta
    requires j < |objs|
  {
    if Untracked(objs[j]) then objs[j].(objectId := CountUntracked(objs[..j], objs[j].objLabel)) else objs[j]
  }

  function WithObjectIds(objs: seq<ObjectMeta>): seq<ObjectMeta> {
    seq(|objs|, j requires 0 <= j < |objs| => Resolved(objs, j))
  }

  /** `object_ids[label]` of a `defaultdict(int)`. */
  function Get(counts: map<string, nat>, lbl: string): nat {
    if lbl in counts then counts[lbl] else 0
  }

  /** The first loop over a frame's objects: a per-label counter, starting
      empty for every frame, gives untracked objects consecutive ids. */
  method AssignObjectIds(objs: seq<ObjectMeta>) returns (res: seq<ObjectMeta>)
    ensures res == WithObjectIds(objs)
  {
    var counts: map<string, nat> := map[];
    res := [];
    var i := 0;
    while i < |objs|
      invariant 0 <= i <= |objs|
      invariant |res| == i
      invariant forall j :: 0 <= j < i ==> res[j] == Resolved(objs, j)
      invariant forall l :: Get(counts, l) == CountUntracked(objs[..i], l)
    {
      var o := objs[i];
      assert objs[..i + 1][..i] == objs[..i];
      if o.objectId == UntrackedObjectId {
        var id := Get(counts, o.objLabel);
        o := o.(objectId := id);
        counts := counts[objs[i].objLabel := id + 1];
      }
      res := res + [o];
      i := i + 1;
    }
    assert objs[..i] == objs;
  }

  lemma {:induction false} CountUntrackedMonotone(objs: seq<ObjectMeta>, a: nat, b: nat, lbl: string)
    requires a <= b <= |objs|
    ensures CountUntracked(objs[..a], lbl) <= CountUntracked(objs[..b], lbl)
  {
    if a < b {
      CountUntrackedMonotone(objs, a, b - 1, lbl);
      assert objs[..b][..b - 1] == objs[..b - 1];
    }
  }

  /** Within one frame, untracked objects with the same label get strictly
      increasing ids in iteration order, so no two of them share an id. */
  lemma FallbackIdsIncrease(objs: seq<ObjectMeta>, i: nat, j: nat)
    requires i < j < |objs|
    requires Untracked(objs[i]) && Untracked(objs[j]) && objs[i].objLabel == objs[j].objLabel
    ensures WithObjectIds(objs)[i].objectId < WithObjectIds(objs)[j].objectId
  {
    assert objs[..i + 1][..i] == objs[..i];
    CountUntrackedMonotone(objs, i + 1, j, objs[i].objLabel);
  }

  /** The fallback ids of a label are exactly `0 .. count - 1`: each of them
      is given to some untracked object of that label, and no other. */
  lemma {:induction false} FallbackIdsCover(objs: seq<ObjectMeta>, lbl: string, n: nat)
    requires n < CountUntracked(objs, lbl)
    ensures exists j :: 0 <= j < |objs| && Untracked(objs[j]) && objs[j].objLabel == lbl
                        && WithObjectIds(objs)[j].objectId == n
  {
    var t := objs[..|objs| - 1];
    var last := objs[|objs| - 1];
    if n < CountUntracked(t, lbl) {
      FallbackIdsCover(t, lbl, n);
      var j :| 0 <= j < |t| && Untracked(t[j]) && t[j].objLabel == lbl && WithObjectIds(t)[j].objectId == n;
      assert t[..j] == objs[..j];
      assert WithObjectIds(objs)[j].objectId == n;
    } else {
      assert objs[..|objs| - 1] == t;
      assert WithObjectIds(objs)[|objs| - 1].objectId == n;
    }
  }

  lemma {:induction false} FallbackIdsBelowCount(objs: seq<ObjectMeta>, j: nat)
    requires j < |objs| && Untracked(objs[j])
    ensures WithObjectIds(objs)[j].objectId < CountUntracked(objs, objs[j].objLabel)
  {
    assert objs[..j + 1][..j] == objs[..j];
    CountUntrackedMonotone(objs, j + 1, |objs|, objs[j].objLabel);
    assert objs[..|objs|] == objs;
  }

  /** Tracked objects keep their id and do not advance any counter. */
  lemma TrackedObjectsKeepIds(objs: seq<ObjectMeta>, j: nat)
    requires j < |objs| && !Untracked(objs[j])
    ensures WithObjectIds(objs)[j] == objs[j]
    ensures forall l :: CountUntracked(objs[..j + 1], l) == CountUntracked(objs[..j], l)
  {
    assert objs[..j + 1][..j] == objs[..j];
  }

  /** Three untracked cars get 0, 1, 2; a fourth with a tracker id keeps it. */
  lemma FallbackIdsExample(box: BBox)
    ensures
      var car := ObjectMeta(UntrackedObjectId, "car", box, []);
      var tracked := ObjectMeta(7, "car", box, []);
      WithObjectIds([car, tracked, car, car]) == [car.(objectId := 0), tracked, car.(objectId := 1), car.(objectId := 2)]
  {
    var car := ObjectMeta(UntrackedObjectId, "car", box, []);
    var tracked := ObjectMeta(7, "car", box, []);
    var objs := [car, tracked, car, car];
    assert objs[..1] == [car];
    assert objs[..2] == [car, tracked];
    assert objs[..3] == [car, tracked, car];
    assert [car][..0] == [];
    assert CountUntracked([car], "car") == 1;
    assert [car, tracked][..1] == [car];
    assert [car, tracked, car][..2] == [car, tracked];
    assert CountUntracked(objs[..2], "car") == 1;
    assert CountUntracked(objs[..3], "car") == 2;
  }

  // ---------------------------------------------------------------------
  // Internal attributes

  /** Whether an attribute is registered as internal, by producer and name. */
  predicate IsInternal(a: AttrMeta, internal: set<(string, string)>) {
    (a.elementName, a.name) in internal
  }

  function KeptAttributes(attrs: seq<AttrMeta>, internal: set<(string, string)>): seq<AttrMeta> {
    if attrs == [] then []
    else
      var last := attrs[|attrs| - 1];
      KeptAttributes(attrs[..|attrs| - 1], internal) + (if IsInternal(last, internal) then [] else [last])
  }

  /** An attribute is output iff it is one of the object's and is not
      internal. */
  lemma {:induction false} KeptAttributesMembership(attrs: seq<AttrMeta>, internal: set<(string, string)>, a: AttrMeta)
    ensures a in KeptAttributes(attrs, internal) <==> a in attrs && !IsInternal(a, internal)
  {
    if attrs != [] {
      var t := attrs[..|attrs| - 1];
      KeptAttributesMembership(t, internal, a);
      assert attrs == t + [attrs[|attrs| - 1]];
    }
  }

  /** Filtering keeps the order: it distributes over concatenation. */
  lemma {:induction false} KeptAttributesAppend(a: seq<AttrMeta>, b: seq<AttrMeta>, internal: set<(string, string)>)
    ensures KeptAttributes(a + b, internal) == KeptAttributes(a, internal) + KeptAttributes(b, internal)
  {
    if b != [] {
      var t := b[..|b| - 1];
      KeptAttributesAppend(a, t, internal);
      assert (a + b)[..|a + b| - 1] == a + t;
    } else {
      assert a + b == a;
    }
  }

  /** The attribute loop of the second pass. */
  method FilterAttributes(attrs: seq<AttrMeta>, internal: set<(string, string)>) returns (kept: seq<AttrMeta>)
    ensures kept == KeptAttributes(attrs, internal)
  {
    kept := [];
    var i := 0;
    while i < |attrs|
      invariant 0 <= i <= |attrs|
      invariant kept == KeptAttributes(attrs[..i], internal)
    {
      assert attrs[..i + 1][..i] == attrs[..i];
      if (attrs[i].elementName, attrs[i].name) !in internal {
        kept := kept + [attrs[i]];
      }
      i := i + 1;
    }
    assert attrs[..i] == attrs;
  }

  // ---------------------------------------------------------------------
  // Output objects

  function ToOutput(o: ObjectMeta, internal: set<(string, string)>): OutputObject {
    OutputObject(o.objectId, o.objLabel, o.bbox, KeptAttributes(o.attributes, internal))
  }

  /** The empty primary object covering the whole destination frame: label
      `PrimaryObjectLabel`, box `(w/2, h/2, w, h)` and no attribute left. */
  predicate IsDegenerate(o: OutputObject, dest: Resolution) {
    && o.objLabel == PrimaryObjectLabel
    && o.bbox == BBox(dest.width as real / 2.0, dest.height as real / 2.0, dest.width as real, dest.height as real)
    && o.attributes == []
  }

  function CollectedObjects(objs: seq<ObjectMeta>, internal: set<(string, string)>, dest: Resolution): seq<OutputObject> {
    if objs == [] then []
    else
      var o := ToOutput(objs[|objs| - 1], internal);
      CollectedObjects(objs[..|objs| - 1], internal, dest) + (if IsDegenerate(o, dest) then [] else [o])
  }

  /** Objects are kept in iteration order: collecting distributes over
      concatenation. */
  lemma {:induction false} CollectedObjectsAppend(a: seq<ObjectMeta>, b: seq<ObjectMeta>, internal: set<(string, string)>, dest: Resolution)
    ensures CollectedObjects(a + b, internal, dest) == CollectedObjects(a, internal, dest) + CollectedObjects(b, internal, dest)
  {
    if b != [] {
      var t := b[..|b| - 1];
      CollectedObjectsAppend(a, t, internal, dest);
      assert (a + b)[..|a + b| - 1] == a + t;
    } else {
      assert a + b == a;
    }
  }

  /** A single object is dropped iff it is the degenerate primary object. */
  lemma CollectedSingle(o: ObjectMeta, internal: set<(string, string)>, dest: Resolution)
    ensures CollectedObjects([o], internal, dest) == [] <==> IsDegenerate(ToOutput(o, internal), dest)
    ensures !IsDegenerate(ToOutput(o, internal), dest) ==> CollectedObjects([o], internal, dest) == [ToOutput(o, internal)]
  {
    assert [o][..0] == [];
  }

  /** Every collected object is the output form of an input object, is not
      degenerate, and carries no internal attribute. */
  lemma {:induction false} CollectedObjectsSound(objs: seq<ObjectMeta>, internal: set<(string, string)>, dest: Resolution)
    ensures forall o :: o in CollectedObjects(objs, internal, dest) ==>
      && !IsDegenerate(o, dest)
      && (exists j :: 0 <= j < |objs| && o == ToOutput(objs[j], internal))
      && (forall a :: a in o.attributes ==> !IsInternal(a, internal))
  {
    if objs != [] {
      var t := objs[..|objs| - 1];
      CollectedObjectsSound(t, internal, dest);
      var last := ToOutput(objs[|objs| - 1], internal);
      forall a | a in last.attributes ensures !IsInternal(a, internal) {
        KeptAttributesMembership(objs[|objs| - 1].attributes, internal, a);
      }
      forall o | o in CollectedObjects(t, internal, dest)
        ensures exists j :: 0 <= j < |objs| && o == ToOutput(objs[j], internal)
      {
        var j :| 0 <= j < |t| && o == ToOutput(t[j], internal);
        assert objs[j] == t[j];
      }
    }
  }

  /** The primary object with the frame's box is dropped when it has no
      attribute, and kept once it has one that is not internal. */
  lemma DegenerateFilterExample(dest: Resolution, a: AttrMeta, internal: set<(string, string)>)
    requires !IsInternal(a, internal)
    ensures
      var box := BBox(dest.width as real / 2.0, dest.height as real / 2.0, dest.width as real, dest.height as real);
      var bare := ObjectMeta(0, PrimaryObjectLabel, box, []);
      var annotated := ObjectMeta(0, PrimaryObjectLabel, box, [a]);
      && CollectedObjects([bare], internal, dest) == []
      && CollectedObjects([annotated], internal, dest) == [OutputObject(0, PrimaryObjectLabel, box, [a])]
  {
    var box := BBox(dest.width as real / 2.0, dest.height as real / 2.0, dest.width as real, dest.height as real);
    var annotated := ObjectMeta(0, PrimaryObjectLabel, box, [a]);
    assert [a][..0] == [];
    assert KeptAttributes([a], internal) == [a];
    CollectedSingle(annotated, internal, dest);
    CollectedSingle(ObjectMeta(0, PrimaryObjectLabel, box, []), internal, dest);
  }

  /** The second loop over a frame's objects. */
  method CollectObjects(objs: seq<ObjectMeta>, internal: set<(string, string)>, dest: Resolution)
    returns (out: seq<OutputObject>)
    ensures out == CollectedObjects(objs, internal, dest)
  {
    out := [];
    var i := 0;
    while i < |objs|
      invariant 0 <= i <= |objs|
      invariant out == CollectedObjects(objs[..i], internal, dest)
    {
      assert objs[..i + 1][..i] == objs[..i];
      var kept := FilterAttributes(objs[i].attributes, internal);
      var o := OutputObject(objs[i].objectId, objs[i].objLabel, objs[i].bbox, kept);
      var degenerate := false;
      if o.objLabel == PrimaryObjectLabel {
        var w, h := dest.width as real, dest.height as real;
        degenerate := o.bbox == BBox(w / 2.0, h / 2.0, w, h) && kept == [];
      }
      if !degenerate {
        out := out + [o];
      }
      i := i + 1;
    }
    assert objs[..i] == objs;
  }

  // ---------------------------------------------------------------------
  // Frames

  /** The record produced for one frame of source `sourceId` output at `dest`. */
  function ReconciledFrame(frame: BatchFrame, sourceId: string, dest: Resolution, internal: set<(string, string)>): FrameRecord {
    FrameRecord(sourceId, frame.frameIdx, frame.pts, CollectedObjects(WithObjectIds(frame.objects), internal, dest))
  }

  /** Both passes over one frame. */
  method ReconcileFrame(frame: BatchFrame, sourceId: string, dest: Resolution, internal: set<(string, string)>)
    returns (record: FrameRecord)
    ensures record == ReconciledFrame(frame, sourceId, dest, internal)
  {
    var objs := AssignObjectIds(frame.objects);
    var out := CollectObjects(objs, internal, dest);
    record := FrameRecord(sourceId, frame.frameIdx, frame.pts, out);
  }

  /** No internal attribute and no degenerate object reaches a frame record,
      and every output object keeps the resolved id of an input object. */
  lemma ReconciledFrameSound(frame: BatchFrame, sourceId: string, dest: Resolution, internal: set<(string, string)>)
    ensures var r := ReconciledFrame(frame, sourceId, dest, internal);
      && r.sourceId == sourceId && r.frameIdx == frame.frameIdx && r.pts == frame.pts
      && forall o :: o in r.objects ==>
        && !IsDegenerate(o, dest)
        && (forall a :: a in o.attributes ==> !IsInternal(a, internal))
        && exists j :: 0 <= j < |frame.objects| && o.objectId == WithObjectIds(frame.objects)[j].objectId
  {
    var ids := WithObjectIds(frame.objects);
    CollectedObjectsSound(ids, internal, dest);
    forall o | o in ReconciledFrame(frame, sourceId, dest, internal).objects
      ensures exists j :: 0 <= j < |frame.objects| && o.objectId == ids[j].objectId
    {
      var j :| 0 <= j < |ids| && o == ToOutput(ids[j], internal);
    }
  }
}

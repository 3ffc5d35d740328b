/** One decoded recognition record and the face fields `get_face_info` pulls
    out of it (monitor_detections.py, `calculate_center` and `get_face_info`).

    A JSON object is modelled by a datatype whose optional members are `Option`s:
    `None` stands for a key the object lacks. Where the source indexes a key
    without checking for it (`bbox["xmin"]`, `unique_id["mode"]`, ...), a missing
    key raises inside the `try` of `get_face_info`: the fields assigned before it
    stay, and the rest of the extraction is skipped. */
module Records {
  import opened Common

  const ImageWidth: int := 640
  const ImageHeight: int := 360
  const RecognitionResult: string := "recognition_result"

  /** A `HailoBBox` object, in coordinates normalised to the frame. */
  datatype BBox = BBox(xmin: Option<real>, ymin: Option<real>, width: Option<real>, height: Option<real>)

  /** A `HailoUniqueID` object: mode 0 tags a detection id, mode 1 a gallery id. */
  datatype UniqueId = UniqueId(mode: Option<int>, uid: Option<int>)

  /** A `HailoClassification` object. */
  datatype Classification = Classification(classificationType: Option<string>, labelText: Option<string>)

  /** One element of `SubObjects`. */
  datatype SubObject = SubObject(uniqueId: Option<UniqueId>, classification: Option<Classification>)

  /** The `HailoROI` object; a missing `SubObjects` reads as the empty list. */
  datatype Roi = Roi(bbox: Option<BBox>, subObjects: seq<SubObject>)

  datatype Point = Point(x: int, y: int)

  /** The `face_info` dict of lines 53-59. */
  datatype FaceInfo = FaceInfo(
    mode0Id: Option<int>,
    mode1Id: Option<int>,
    labelText: Option<string>,
    centerX: Option<int>,
    centerY: Option<int>)

  const NoFace: FaceInfo := FaceInfo(None, None, None, None, None)

  /** Python's `int()` on a number: truncation toward zero. */
  function Trunc(x: real): (r: int)
    ensures 0.0 <= x ==> r as real <= x < r as real + 1.0
    ensures x < 0.0 ==> x <= r as real < x + 1.0
  {
    if 0.0 <= x then x.Floor else -((-x).Floor)
  }

  /** `calculate_center`: the pixel centre of a normalised bbox, or None when
      one of the four coordinates is missing (the lookup raises). */
  function CalculateCenter(b: BBox): (c: Option<Point>)
    ensures c.Some? <==> b.xmin.Some? && b.ymin.Some? && b.width.Some? && b.height.Some?
    ensures c.Some? ==>
      && c.value.x == Trunc((b.xmin.value + b.width.value / 2.0) * ImageWidth as real)
      && c.value.y == Trunc((b.ymin.value + b.height.value / 2.0) * ImageHeight as real)
  {
    if b.xmin.Some? && b.ymin.Some? && b.width.Some? && b.height.Some? then
      Some(Point(Trunc((b.xmin.value + b.width.value / 2.0) * ImageWidth as real),
                 Trunc((b.ymin.value + b.height.value / 2.0) * ImageHeight as real)))
    else None
  }

  /** For non-negative input `int()` is the floor. */
  lemma TruncIsFloor(x: real)
    requires 0.0 <= x
    ensures Trunc(x) == x.Floor
  {
  }

  /** A bbox lying inside the unit square has its centre inside the 640x360 frame;
      the centre reaches the right (bottom) edge only for a bbox of zero width (height). */
  lemma CenterInFrame(xmin: real, ymin: real, width: real, height: real)
    requires 0.0 <= xmin && 0.0 <= width && xmin + width <= 1.0
    requires 0.0 <= ymin && 0.0 <= height && ymin + height <= 1.0
    ensures var c := CalculateCenter(BBox(Some(xmin), Some(ymin), Some(width), Some(height)));
      && c.Some?
      && 0 <= c.value.x <= ImageWidth && (0.0 < width ==> c.value.x < ImageWidth)
      && 0 <= c.value.y <= ImageHeight && (0.0 < height ==> c.value.y < ImageHeight)
  {
  }

  /** Lines 71-76 for one sub-object's `HailoUniqueID`; None when a key it reads is missing. */
  function ApplyUniqueId(info: FaceInfo, u: Option<UniqueId>): Option<FaceInfo> {
    match u
    case None => Some(info)
    case Some(UniqueId(mode, uid)) =>
      if mode.None? then None
      else if mode.value == 0 then (if uid.None? then None else Some(info.(mode0Id := uid)))
      else if mode.value == 1 then (if uid.None? then None else Some(info.(mode1Id := uid)))
      else Some(info)
  }

  /** Lines 79-82 for one sub-object's `HailoClassification`; None when a key it reads is missing. */
  function ApplyClassification(info: FaceInfo, c: Option<Classification>): Option<FaceInfo> {
    match c
    case None => Some(info)
    case Some(Classification(ctype, text)) =>
      if ctype.None? then None
      else if ctype.value == RecognitionResult then (if text.None? then None else Some(info.(labelText := text)))
      else Some(info)
  }

  /** Some sub-object carries a `HailoUniqueID` with this mode and id. */
  predicate CarriesId(objs: seq<SubObject>, mode: int, id: Option<int>) {
    exists k :: 0 <= k < |objs| && objs[k].uniqueId == Some(UniqueId(Some(mode), id))
  }

  /** Some sub-object carries a recognition-result classification with this label. */
  predicate CarriesLabel(objs: seq<SubObject>, text: Option<string>) {
    exists k :: 0 <= k < |objs| && objs[k].classification == Some(Classification(Some(RecognitionResult), text))
  }

  /** The `for` loop of lines 69-82 from `info` on: sub-objects in order, stopping
      at the first missing key with what was assigned so far. */
  function ScanSubObjects(info: FaceInfo, objs: seq<SubObject>): (r: FaceInfo)
    ensures r.centerX == info.centerX && r.centerY == info.centerY
    ensures r.mode0Id == info.mode0Id || CarriesId(objs, 0, r.mode0Id)
    ensures r.mode1Id == info.mode1Id || CarriesId(objs, 1, r.mode1Id)
    ensures r.labelText == info.labelText || CarriesLabel(objs, r.labelText)
    decreases |objs|
  {
    if objs == [] then info
    else
      match ApplyUniqueId(info, objs[0].uniqueId)
      case None => info
      case Some(i1) =>
        match ApplyClassification(i1, objs[0].classification)
        case None => i1
        case Some(i2) =>
          var r := ScanSubObjects(i2, objs[1..]);
          assert forall k :: 0 <= k < |objs| - 1 ==> objs[1..][k] == objs[k + 1];
          r
  }

  /** `get_face_info(data)`, which reads only `data["HailoROI"]`. */
  function FaceInfoOf(roi: Option<Roi>): (r: FaceInfo)
    ensures roi.None? ==> r == NoFace
    ensures r.centerX.Some? <==> r.centerY.Some?
    ensures r.centerX.Some? <==>
      roi.Some? && roi.value.bbox.Some? && CalculateCenter(roi.value.bbox.value).Some?
    ensures r.centerX.Some? ==> CalculateCenter(roi.value.bbox.value) == Some(Point(r.centerX.value, r.centerY.value))
    ensures r.mode0Id.Some? ==> CarriesId(roi.value.subObjects, 0, r.mode0Id)
    ensures r.mode1Id.Some? ==> CarriesId(roi.value.subObjects, 1, r.mode1Id)
    ensures r.labelText.Some? ==> CarriesLabel(roi.value.subObjects, r.labelText)
  {
    match roi
    case None => NoFace
    case Some(Roi(bbox, objs)) =>
      if bbox.None? then ScanSubObjects(NoFace, objs)
      else match CalculateCenter(bbox.value)
        case None => NoFace
        case Some(c) => ScanSubObjects(NoFace.(centerX := Some(c.x), centerY := Some(c.y)), objs)
  }

  /** `get_face_info` as the source writes it: the dict filled field by field. */
  method GetFaceInfo(roi: Option<Roi>) returns (info: FaceInfo)
    ensures info == FaceInfoOf(roi)
  {
    info := NoFace;
    if roi.None? {
      return;
    }
    var r := roi.value;
    if r.bbox.Some? {
      var c := CalculateCenter(r.bbox.value);
      if c.None? {
        return;
      }
      info := info.(centerX := Some(c.value.x), centerY := Some(c.value.y));
    }
    var i := 0;
    while i < |r.subObjects|
      invariant 0 <= i <= |r.subObjects|
      invariant ScanSubObjects(info, r.subObjects[i..]) == FaceInfoOf(roi)
    {
      var obj := r.subObjects[i];
      if obj.uniqueId.Some? {
        var u := obj.uniqueId.value;
        if u.mode.None? {
          return;
        }
        if u.mode.value == 0 {
          if u.uid.None? {
            return;
          }
          info := info.(mode0Id := u.uid);
        } else if u.mode.value == 1 {
          if u.uid.None? {
            return;
          }
          info := info.(mode1Id := u.uid);
        }
      }
      if obj.classification.Some? {
        var c := obj.classification.value;
        if c.classificationType.None? {
          return;
        }
        if c.classificationType.value == RecognitionResult {
          if c.labelText.None? {
            return;
          }
          info := info.(labelText := c.labelText);
        }
      }
      i := i + 1;
    }
  }

  /** A sub-object none of whose looked-up keys is missing. */
  predicate WellFormed(o: SubObject) {
    && (o.uniqueId.Some? ==> ApplyUniqueId(NoFace, o.uniqueId).Some?)
    && (o.classification.Some? ==> ApplyClassification(NoFace, o.classification).Some?)
  }

  predicate AllWellFormed(objs: seq<SubObject>) {
    forall k :: 0 <= k < |objs| ==> WellFormed(objs[k])
  }

  /** Reference definition: the id of the LAST sub-object whose `HailoUniqueID` has the given mode. */
  function LastIdOfMode(objs: seq<SubObject>, mode: int): Option<int> {
    if objs == [] then None
    else
      var o := objs[|objs| - 1];
      if o.uniqueId.Some? && o.uniqueId.value.mode == Some(mode) then o.uniqueId.value.uid
      else LastIdOfMode(objs[..|objs| - 1], mode)
  }

  /** Reference definition: the label of the LAST recognition-result classification. */
  function LastRecognitionLabel(objs: seq<SubObject>): Option<string> {
    if objs == [] then None
    else
      var o := objs[|objs| - 1];
      if o.classification.Some? && o.classification.value.classificationType == Some(RecognitionResult)
      then o.classification.value.labelText
      else LastRecognitionLabel(objs[..|objs| - 1])
  }

  function OrElse<T>(a: Option<T>, b: Option<T>): Option<T> {
    if a.Some? then a else b
  }

  /** Scanning a list extended by one well-formed sub-object is scanning the list,
      then applying that sub-object. */
  lemma {:induction false} ScanSnoc(info: FaceInfo, objs: seq<SubObject>, o: SubObject)
    requires AllWellFormed(objs) && WellFormed(o)
    ensures ApplyUniqueId(ScanSubObjects(info, objs), o.uniqueId).Some?
    ensures ApplyClassification(ApplyUniqueId(ScanSubObjects(info, objs), o.uniqueId).value, o.classification).Some?
    ensures ScanSubObjects(info, objs + [o]) ==
      ApplyClassification(ApplyUniqueId(ScanSubObjects(info, objs), o.uniqueId).value, o.classification).value
    decreases |objs|
  {
    if objs == [] {
      assert [o][1..] == [];
    } else {
      assert WellFormed(objs[0]);
      var i2 := ApplyClassification(ApplyUniqueId(info, objs[0].uniqueId).value, objs[0].classification).value;
      assert (objs + [o])[1..] == objs[1..] + [o];
      assert AllWellFormed(objs[1..]) by {
        forall k | 0 <= k < |objs[1..]| ensures WellFormed(objs[1..][k]) {
          assert objs[1..][k] == objs[k + 1];
        }
      }
      ScanSnoc(i2, objs[1..], o);
    }
  }

  /** For well-formed sub-objects a later one overwrites an earlier one of the same
      mode (or classification type): each field is the last one seen, and unset
      fields keep their previous value. */
  lemma {:induction false} ScanIsLastWins(info: FaceInfo, objs: seq<SubObject>)
    requires AllWellFormed(objs)
    ensures var r := ScanSubObjects(info, objs);
      && r.mode0Id == OrElse(LastIdOfMode(objs, 0), info.mode0Id)
      && r.mode1Id == OrElse(LastIdOfMode(objs, 1), info.mode1Id)
      && r.labelText == OrElse(LastRecognitionLabel(objs), info.labelText)
    decreases |objs|
  {
    if objs != [] {
      var init := objs[..|objs| - 1];
      var o := objs[|objs| - 1];
      assert objs == init + [o];
      assert AllWellFormed(init) by {
        forall k | 0 <= k < |init| ensures WellFormed(init[k]) {
          assert init[k] == objs[k];
        }
      }
      ScanSnoc(info, init, o);
      ScanIsLastWins(info, init);
    }
  }

  /** With all sub-objects well formed, the detection id, gallery id and label are
      those of the last sub-object carrying them. */
  lemma FaceInfoLastWins(roi: Roi)
    requires AllWellFormed(roi.subObjects)
    ensures var r := FaceInfoOf(Some(roi));
      && (r.centerX.Some? || roi.bbox.None? ==> r.mode0Id == LastIdOfMode(roi.subObjects, 0))
      && (r.centerX.Some? || roi.bbox.None? ==> r.mode1Id == LastIdOfMode(roi.subObjects, 1))
      && (r.centerX.Some? || roi.bbox.None? ==> r.labelText == LastRecognitionLabel(roi.subObjects))
  {
    if roi.bbox.None? {
      ScanIsLastWins(NoFace, roi.subObjects);
    } else if CalculateCenter(roi.bbox.value).Some? {
      var c := CalculateCenter(roi.bbox.value).value;
      ScanIsLastWins(NoFace.(centerX := Some(c.x), centerY := Some(c.y)), roi.subObjects);
    }
  }

  /** A bbox lacking a coordinate ends the extraction: nothing at all is set. */
  lemma IncompleteBBoxSetsNothing(roi: Roi)
    requires roi.bbox.Some? && CalculateCenter(roi.bbox.value).None?
    ensures FaceInfoOf(Some(roi)) == NoFace
  {
  }

  /** Sub-objects after the first one whose `HailoUniqueID` lacks its mode are never read. */
  lemma {:induction false} ScanStopsAtModelessId(info: FaceInfo, objs: seq<SubObject>, k: nat)
    requires k < |objs| && objs[k].uniqueId.Some? && objs[k].uniqueId.value.mode.None?
    ensures ScanSubObjects(info, objs) == ScanSubObjects(info, objs[..k])
    decreases k
  {
    if k > 0 {
      match ApplyUniqueId(info, objs[0].uniqueId)
      case None =>
      case Some(i1) =>
        match ApplyClassification(i1, objs[0].classification)
        case None =>
        case Some(i2) =>
          assert objs[1..][k - 1] == objs[k];
          ScanStopsAtModelessId(i2, objs[1..], k - 1);
          assert objs[1..][..k - 1] == objs[..k][1..];
    }
  }
}

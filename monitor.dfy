/** The state one `monitor_files` loop carries from iteration to iteration
    (monitor_detections.py:135-215): the newest detection frame, the frames and
    recognition keys already handled, and the last usable recognition, together
    with the log rows written so far.

    Each iteration decodes the whole detection file and then the whole
    recognition file (after the bracket repair of module Text); the decoded
    lists are parameters here. A missing file, empty text or text `json.loads`
    rejects is the empty list. A record that lacks a key the loop indexes raises,
    and the handler ends that loop for this iteration: the records after it are
    not looked at, the effects of the ones before it stay. */
module Monitor {
  import opened Common
  import opened Records
  import opened Rows

  /** A decoded detection record; only `buffer_offset` is read (None: missing). */
  datatype Det = Det(bufferOffset: Option<int>)

  /** A decoded recognition record: `timestamp (ms)`, `stream_id`, `buffer_offset`
      and `HailoROI`, each None when missing. */
  datatype Rec = Rec(timestamp: Option<int>, streamId: Option<string>, bufferOffset: Option<int>, roi: Option<Roi>)

  /** The key of line 191, `f"{timestamp}_{stream_id}"`. */
  function DataId(timestamp: int, streamId: string): (key: string)
    ensures |key| == |IntToString(timestamp)| + 1 + |streamId|
    ensures key[..|IntToString(timestamp)|] == IntToString(timestamp)
    ensures key[|IntToString(timestamp)|] == '_'
    ensures key[|IntToString(timestamp)| + 1..] == streamId
    ensures '_' !in IntToString(timestamp)
  {
    var a := IntToString(timestamp);
    assert forall k :: 0 <= k < |a| ==> a[k] != '_';
    a + "_" + streamId
  }

  /** Two records get the same key only when they agree on timestamp and stream:
      the decimal timestamp contains no underscore. */
  lemma DataIdInjective(t1: int, s1: string, t2: int, s2: string)
    requires DataId(t1, s1) == DataId(t2, s2)
    ensures t1 == t2 && s1 == s2
  {
    var key := DataId(t1, s1);
    var a, b := IntToString(t1), IntToString(t2);
    assert key == a + "_" + s1 == b + "_" + s2;
    assert key[|a|] == '_' && key[|b|] == '_';
    assert forall k :: 0 <= k < |a| ==> key[k] == a[k] != '_';
    assert forall k :: 0 <= k < |b| ==> key[k] == b[k] != '_';
    assert a == key[..|a|] == b;
    IntToStringInjective(t1, t2);
    assert s1 == key[|a| + 1..] == s2;
  }

  /** The loop state: `current_frame`, `processed_frames`, `processed_rec_data`,
      `last_face_info`, and the rows written to the log so far. */
  datatype State = State(
    currentFrame: int,
    processedFrames: set<int>,
    processedRecData: set<string>,
    lastFaceInfo: Option<Stored>,
    log: seq<Row>)

  /** The state before the first iteration (lines 137-140). */
  const Initial: State := State(-1, {}, {}, None, [])

  // ---------------------------------------------------------------------------
  // Properties of the log and of the state
  // ---------------------------------------------------------------------------

  /** The frames of the rows the detection loop wrote. */
  function DetectionFrames(log: seq<Row>): set<int> {
    if log == [] then {}
    else
      var last := log[|log| - 1];
      DetectionFrames(log[..|log| - 1]) + (if last.origin.FromDetection? then {last.frame} else {})
  }

  predicate FramesNonDecreasing(log: seq<Row>) {
    forall i, j :: 0 <= i < j < |log| ==> log[i].frame <= log[j].frame
  }

  predicate IsDetectionRow(r: Row) {
    r.origin.FromDetection?
  }

  predicate IsRecognitionRow(r: Row) {
    r.origin.FromRecognition?
  }

  /** Detection rows carry strictly increasing frames: no frame is logged twice. */
  predicate DetectionFramesIncrease(log: seq<Row>) {
    forall i, j :: 0 <= i < j < |log| && IsDetectionRow(log[i]) && IsDetectionRow(log[j]) ==> log[i].frame < log[j].frame
  }

  /** No two recognition rows come from records with the same key. */
  predicate RecognitionKeysDistinct(log: seq<Row>) {
    forall i, j :: 0 <= i < j < |log| && IsRecognitionRow(log[i]) && IsRecognitionRow(log[j]) ==>
      log[i].origin.key != log[j].origin.key
  }

  /** Face data that reaches a row always carries a detection id. */
  predicate HasDetectionId(info: Option<Stored>) {
    info.Some? ==> info.value.info.mode0Id.Some?
  }

  /** What every state the loop reaches satisfies. */
  predicate Consistent(s: State) {
    && s.currentFrame >= -1
    && s.processedFrames == DetectionFrames(s.log)
    && (forall f :: f in s.processedFrames ==> f <= s.currentFrame)
    && (forall i :: 0 <= i < |s.log| ==> s.log[i].frame <= s.currentFrame)
    && FramesNonDecreasing(s.log)
    && DetectionFramesIncrease(s.log)
    && RecognitionKeysDistinct(s.log)
    && (forall i :: 0 <= i < |s.log| && IsRecognitionRow(s.log[i]) ==> s.log[i].origin.key in s.processedRecData)
    && (forall i :: 0 <= i < |s.log| ==> HasDetectionId(s.log[i].info))
    && HasDetectionId(s.lastFaceInfo)
  }

  lemma InitialConsistent()
    ensures Consistent(Initial)
  {
  }

  lemma DetectionFramesSnoc(log: seq<Row>, r: Row)
    ensures DetectionFrames(log + [r]) == DetectionFrames(log) + (if r.origin.FromDetection? then {r.frame} else {})
  {
    assert (log + [r])[..|log|] == log;
  }

  // ---------------------------------------------------------------------------
  // The detection loop (lines 164-171)
  // ---------------------------------------------------------------------------

  /** One detection record with offset `frame`. */
  function DetectOne(s: State, frame: int): (r: State)
    ensures frame <= s.currentFrame ==> r == s
    ensures frame > s.currentFrame ==> r.currentFrame == frame
    ensures frame > s.currentFrame && Consistent(s) ==>
      r == s.(currentFrame := frame, processedFrames := s.processedFrames + {frame},
              log := s.log + [Row(FromDetection, frame, frame, s.lastFaceInfo)])
  {
    if frame > s.currentFrame then
      var s1 := s.(currentFrame := frame);
      if frame !in s1.processedFrames then
        s1.(processedFrames := s1.processedFrames + {frame},
            log := s1.log + [Row(FromDetection, frame, frame, s1.lastFaceInfo)])
      else s1
    else s
  }

  /** The detection loop over one decoded list. */
  function Detect(s: State, dets: seq<Det>): State
    decreases |dets|
  {
    if dets == [] then s
    else match dets[0].bufferOffset
      case None => s
      case Some(frame) => Detect(DetectOne(s, frame), dets[1..])
  }

  /** Appending a row preserves the three ordering properties of the log when the
      row is no older than any row, newer than every detection row if it is one,
      and has a fresh key if it is a recognition row. */
  lemma AppendKeepsOrder(log: seq<Row>, row: Row)
    requires FramesNonDecreasing(log) && DetectionFramesIncrease(log) && RecognitionKeysDistinct(log)
    requires forall i :: 0 <= i < |log| ==> log[i].frame <= row.frame
    requires IsDetectionRow(row) ==> forall i :: 0 <= i < |log| && IsDetectionRow(log[i]) ==> log[i].frame < row.frame
    requires IsRecognitionRow(row) ==>
      forall i :: 0 <= i < |log| && IsRecognitionRow(log[i]) ==> log[i].origin.key != row.origin.key
    ensures FramesNonDecreasing(log + [row])
    ensures DetectionFramesIncrease(log + [row])
    ensures RecognitionKeysDistinct(log + [row])
  {
    var log' := log + [row];
    assert forall i :: 0 <= i < |log| ==> log'[i] == log[i];
    assert log'[|log|] == row;
  }

  /** A state that appends one row to a consistent state's log is consistent when
      the row fits the log and the state's other fields follow it. */
  lemma AppendPreserves(s: State, s': State, row: Row)
    requires Consistent(s)
    requires s'.log == s.log + [row]
    requires s.currentFrame <= s'.currentFrame && row.frame <= s'.currentFrame
    requires s'.processedFrames == s.processedFrames + (if row.origin.FromDetection? then {row.frame} else {})
    requires s.processedRecData <= s'.processedRecData
    requires row.origin.FromDetection? ==> row.frame !in s.processedFrames && s.currentFrame < row.frame
    requires row.origin.FromRecognition? ==> row.origin.key !in s.processedRecData && row.origin.key in s'.processedRecData
    requires s.currentFrame <= row.frame
    requires HasDetectionId(row.info) && HasDetectionId(s'.lastFaceInfo)
    ensures Consistent(s')
  {
    DetectionFramesSnoc(s.log, row);
    AppendKeepsOrder(s.log, row);
    assert forall i :: 0 <= i < |s.log| ==> s'.log[i] == s.log[i];
    assert s'.log[|s.log|] == row;
  }

  lemma DetectOnePreserves(s: State, frame: int)
    requires Consistent(s)
    ensures Consistent(DetectOne(s, frame))
  {
    if frame > s.currentFrame {
      var row := Row(FromDetection, frame, frame, s.lastFaceInfo);
      AppendPreserves(s, DetectOne(s, frame), row);
    }
  }

  lemma {:induction false} DetectPreserves(s: State, dets: seq<Det>)
    requires Consistent(s)
    ensures Consistent(Detect(s, dets))
    decreases |dets|
  {
    if dets != [] && dets[0].bufferOffset.Some? {
      DetectOnePreserves(s, dets[0].bufferOffset.value);
      DetectPreserves(DetectOne(s, dets[0].bufferOffset.value), dets[1..]);
    }
  }

  /** `r` extends `s` by detection rows only, each for a frame newer than `s`'s
      current frame and no newer than `r`'s, carrying `s`'s last recognition. */
  predicate AppendsDetections(s: State, r: State) {
    && s.log <= r.log
    && r.currentFrame >= s.currentFrame
    && r.processedRecData == s.processedRecData
    && r.lastFaceInfo == s.lastFaceInfo
    && forall i :: |s.log| <= i < |r.log| ==>
         r.log[i] == Row(FromDetection, r.log[i].frame, r.log[i].frame, s.lastFaceInfo) &&
         s.currentFrame < r.log[i].frame <= r.currentFrame
  }

  lemma AppendsDetectionsTrans(a: State, b: State, c: State)
    requires AppendsDetections(a, b) && AppendsDetections(b, c)
    ensures AppendsDetections(a, c)
  {
    assert forall i :: 0 <= i < |b.log| ==> c.log[i] == b.log[i];
  }

  /** One detection record appends at most one detection row, for a newer frame. */
  lemma DetectOneEffect(s: State, frame: int)
    ensures AppendsDetections(s, DetectOne(s, frame))
  {
    var r := DetectOne(s, frame);
    if frame > s.currentFrame && frame !in s.processedFrames {
      assert r.log == s.log + [Row(FromDetection, frame, frame, s.lastFaceInfo)];
      assert r.log[|s.log|] == Row(FromDetection, frame, frame, s.lastFaceInfo);
    }
  }

  /** The detection loop only appends rows, each for a frame newer than any
      before it, carrying the last recognition; it touches no recognition state. */
  lemma {:induction false} DetectEffect(s: State, dets: seq<Det>)
    ensures var r := Detect(s, dets);
      && s.log <= r.log
      && r.currentFrame >= s.currentFrame
      && r.processedRecData == s.processedRecData
      && r.lastFaceInfo == s.lastFaceInfo
      && forall i :: |s.log| <= i < |r.log| ==>
           r.log[i] == Row(FromDetection, r.log[i].frame, r.log[i].frame, s.lastFaceInfo) &&
           s.currentFrame < r.log[i].frame <= r.currentFrame
    decreases |dets|
  {
    if dets != [] && dets[0].bufferOffset.Some? {
      var s1 := DetectOne(s, dets[0].bufferOffset.value);
      DetectOneEffect(s, dets[0].bufferOffset.value);
      DetectEffect(s1, dets[1..]);
      AppendsDetectionsTrans(s, s1, Detect(s1, dets[1..]));
    }
  }

  /** Every offset before the first record without one is at most `frame`. */
  predicate Covered(frame: int, dets: seq<Det>)
    decreases |dets|
  {
    dets == [] || dets[0].bufferOffset.None? ||
    (dets[0].bufferOffset.value <= frame && Covered(frame, dets[1..]))
  }

  /** Every record has a `buffer_offset`: the loop runs to the end of the list. */
  predicate Complete(dets: seq<Det>) {
    forall k :: 0 <= k < |dets| ==> dets[k].bufferOffset.Some?
  }

  /** After the loop, the current frame is at least every offset it read. */
  lemma {:induction false} DetectCovers(s: State, dets: seq<Det>)
    ensures Detect(s, dets).currentFrame >= s.currentFrame
    ensures Covered(Detect(s, dets).currentFrame, dets)
    decreases |dets|
  {
    if dets != [] && dets[0].bufferOffset.Some? {
      DetectCovers(DetectOne(s, dets[0].bufferOffset.value), dets[1..]);
    }
  }

  lemma {:induction false} CoveredMonotone(a: int, b: int, dets: seq<Det>)
    requires Covered(a, dets) && a <= b
    ensures Covered(b, dets)
    decreases |dets|
  {
    if dets != [] && dets[0].bufferOffset.Some? {
      CoveredMonotone(a, b, dets[1..]);
    }
  }

  /** Re-reading records that are no newer than the current frame changes nothing;
      on a list extended at the end, only the appended records can have an
      effect, and none at all when the shared part stops the loop. */
  lemma {:induction false} DetectReplay(t: State, d: seq<Det>, e: seq<Det>)
    requires Covered(t.currentFrame, d)
    ensures Detect(t, d) == t
    ensures Detect(t, d + e) == if Complete(d) then Detect(t, e) else t
    decreases |d|
  {
    if d == [] {
      assert d + e == e;
    } else {
      assert (d + e)[0] == d[0];
      if d[0].bufferOffset.Some? {
        assert (d + e)[1..] == d[1..] + e;
        DetectReplay(t, d[1..], e);
        assert Complete(d) <==> Complete(d[1..]) by {
          if Complete(d[1..]) {
            forall k | 0 <= k < |d| ensures d[k].bufferOffset.Some? {
              if k > 0 { assert d[k] == d[1..][k - 1]; }
            }
          }
        }
      }
    }
  }

  /** A detection list read in one state has no effect in any state whose current
      frame is at least the one that reading produced: it is no newer, and the
      current frame never goes back (`IterationFrameGrows`). */
  lemma DetectStaleList(s: State, dets: seq<Det>, u: State)
    requires Detect(s, dets).currentFrame <= u.currentFrame
    ensures Detect(u, dets) == u
  {
    DetectCovers(s, dets);
    CoveredMonotone(Detect(s, dets).currentFrame, u.currentFrame, dets);
    DetectReplay(u, dets, []);
  }

  /** Re-feeding the same detection list adds no rows and changes nothing. */
  lemma DetectIdempotent(s: State, dets: seq<Det>)
    ensures Detect(Detect(s, dets), dets) == Detect(s, dets)
  {
    DetectCovers(s, dets);
    DetectReplay(Detect(s, dets), dets, []);
  }

  /** When the detection file has grown by `more`, re-reading all of it has the
      effect of reading only `more`. */
  lemma DetectGrownFile(s: State, dets: seq<Det>, more: seq<Det>)
    requires Complete(dets)
    ensures Detect(Detect(s, dets), dets + more) == Detect(Detect(s, dets), more)
  {
    DetectCovers(s, dets);
    DetectReplay(Detect(s, dets), dets, more);
  }

  // ---------------------------------------------------------------------------
  // The recognition loop (lines 189-204)
  // ---------------------------------------------------------------------------

  predicate HasKey(r: Rec) {
    r.timestamp.Some? && r.streamId.Some?
  }

  function Key(r: Rec): string
    requires HasKey(r)
  {
    DataId(r.timestamp.value, r.streamId.value)
  }

  /** One recognition record; None when a lookup raises and the loop ends. */
  function RecognizeOne(s: State, r: Rec): (o: Option<State>)
    ensures o.None? <==>
              || !HasKey(r)
              || (Key(r) !in s.processedRecData && FaceInfoOf(r.roi).mode0Id.Some? && r.bufferOffset.None?)
    ensures HasKey(r) && Key(r) in s.processedRecData ==> o == Some(s)
    ensures o.Some? ==> Key(r) in o.value.processedRecData
    ensures o.Some? ==> o.value.currentFrame == s.currentFrame && o.value.processedFrames == s.processedFrames
    ensures o.Some? && o.value.lastFaceInfo != s.lastFaceInfo ==> FaceInfoOf(r.roi).mode0Id.Some?
    ensures o.Some? && Key(r) !in s.processedRecData ==>
      && o.value.processedRecData == s.processedRecData + {Key(r)}
      && (FaceInfoOf(r.roi).mode0Id.None? ==> o.value.log == s.log && o.value.lastFaceInfo == s.lastFaceInfo)
      && (FaceInfoOf(r.roi).mode0Id.Some? ==>
            var st := Stored(FaceInfoOf(r.roi), r.bufferOffset.value);
            o.value.lastFaceInfo == Some(st) &&
            o.value.log == s.log + [Row(FromRecognition(Key(r)), s.currentFrame, r.bufferOffset.value, Some(st))])
  {
    if !HasKey(r) then None
    else
      var key := Key(r);
      if key in s.processedRecData then Some(s)
      else
        var info := FaceInfoOf(r.roi);
        if info.mode0Id.Some? then
          if r.bufferOffset.None? then None
          else
            var st := Stored(info, r.bufferOffset.value);
            Some(s.(lastFaceInfo := Some(st),
                    log := s.log + [Row(FromRecognition(key), s.currentFrame, r.bufferOffset.value, Some(st))],
                    processedRecData := s.processedRecData + {key}))
        else Some(s.(processedRecData := s.processedRecData + {key}))
  }

  /** The recognition loop over one decoded list. */
  function Recognize(s: State, recs: seq<Rec>): State
    decreases |recs|
  {
    if recs == [] then s
    else match RecognizeOne(s, recs[0])
      case None => s
      case Some(s1) => Recognize(s1, recs[1..])
  }

  lemma RecognizeOnePreserves(s: State, r: Rec)
    requires Consistent(s)
    ensures RecognizeOne(s, r).Some? ==> Consistent(RecognizeOne(s, r).value)
  {
    var o := RecognizeOne(s, r);
    if o.Some? && HasKey(r) && Key(r) !in s.processedRecData && FaceInfoOf(r.roi).mode0Id.Some? {
      var st := Stored(FaceInfoOf(r.roi), r.bufferOffset.value);
      AppendPreserves(s, o.value, Row(FromRecognition(Key(r)), s.currentFrame, r.bufferOffset.value, Some(st)));
    }
  }

  lemma {:induction false} RecognizePreserves(s: State, recs: seq<Rec>)
    requires Consistent(s)
    ensures Consistent(Recognize(s, recs))
    decreases |recs|
  {
    if recs != [] && RecognizeOne(s, recs[0]).Some? {
      RecognizeOnePreserves(s, recs[0]);
      RecognizePreserves(RecognizeOne(s, recs[0]).value, recs[1..]);
    }
  }

  /** The recognition loop only appends rows, one per record with a detection id
      whose key was not yet processed, all for the current frame; it only adds keys
      and leaves the detection state alone. */
  lemma {:induction false} RecognizeEffect(s: State, recs: seq<Rec>)
    ensures var r := Recognize(s, recs);
      && s.log <= r.log
      && s.processedRecData <= r.processedRecData
      && r.currentFrame == s.currentFrame
      && r.processedFrames == s.processedFrames
      && forall i :: |s.log| <= i < |r.log| ==>
           && r.log[i].origin.FromRecognition?
           && r.log[i].origin.key !in s.processedRecData
           && r.log[i].origin.key in r.processedRecData
           && r.log[i].frame == s.currentFrame
           && r.log[i].info.Some?
           && r.log[i].recBuffer == r.log[i].info.value.originalBuffer
    decreases |recs|
  {
    if recs != [] && RecognizeOne(s, recs[0]).Some? {
      var s1 := RecognizeOne(s, recs[0]).value;
      RecognizeEffect(s1, recs[1..]);
    }
  }

  /** Re-feeding the same recognition list changes nothing: every key it reached is
      marked, and the record that stopped it stops it again. */
  lemma {:induction false} RecognizeIdempotent(s: State, recs: seq<Rec>)
    ensures Recognize(Recognize(s, recs), recs) == Recognize(s, recs)
    decreases |recs|
  {
    if recs != [] {
      var r := recs[0];
      match RecognizeOne(s, r)
      case None =>
      case Some(s1) =>
        var s' := Recognize(s1, recs[1..]);
        RecognizeEffect(s1, recs[1..]);
        assert Key(r) in s'.processedRecData;
        assert RecognizeOne(s', r) == Some(s');
        RecognizeIdempotent(s1, recs[1..]);
    }
  }

  // ---------------------------------------------------------------------------
  // One iteration of the polling loop
  // ---------------------------------------------------------------------------

  /** The detection file first, then the recognition file (lines 150-209). */
  function Iteration(s: State, dets: seq<Det>, recs: seq<Rec>): State {
    Recognize(Detect(s, dets), recs)
  }

  lemma IterationPreserves(s: State, dets: seq<Det>, recs: seq<Rec>)
    requires Consistent(s)
    ensures Consistent(Iteration(s, dets, recs))
  {
    DetectPreserves(s, dets);
    RecognizePreserves(Detect(s, dets), recs);
  }

  /** Every state the polling loop reaches from the start, through any sequence
      of decoded file contents, is consistent. */
  lemma {:induction false} RunConsistent(dets: seq<seq<Det>>, recs: seq<seq<Rec>>)
    requires |dets| == |recs|
    ensures Consistent(Run(Initial, dets, recs))
    decreases |dets|
  {
    if dets == [] {
      InitialConsistent();
    } else {
      var n := |dets| - 1;
      RunConsistent(dets[..n], recs[..n]);
      IterationPreserves(Run(Initial, dets[..n], recs[..n]), dets[n], recs[n]);
    }
  }

  /** Iterations over a history of decoded file contents, oldest first. */
  function Run(s: State, dets: seq<seq<Det>>, recs: seq<seq<Rec>>): State
    requires |dets| == |recs|
    decreases |dets|
  {
    if dets == [] then s
    else
      var n := |dets| - 1;
      Iteration(Run(s, dets[..n], recs[..n]), dets[n], recs[n])
  }

  /** An iteration over files that have not changed since the previous one writes
      nothing and changes nothing. */
  lemma IterationIdempotent(s: State, dets: seq<Det>, recs: seq<Rec>)
    ensures Iteration(Iteration(s, dets, recs), dets, recs) == Iteration(s, dets, recs)
  {
    var t := Detect(s, dets);
    var u := Recognize(t, recs);
    DetectCovers(s, dets);
    RecognizeEffect(t, recs);
    DetectReplay(u, dets, []);
    RecognizeIdempotent(t, recs);
  }

  /** The current frame never goes back over an iteration. */
  lemma IterationFrameGrows(s: State, dets: seq<Det>, recs: seq<Rec>)
    ensures Iteration(s, dets, recs).currentFrame >= Detect(s, dets).currentFrame >= s.currentFrame
  {
    DetectEffect(s, dets);
    RecognizeEffect(Detect(s, dets), recs);
  }

  /** Detection records read in one iteration are inert in the next, whatever the
      files hold by then: re-reading them writes no row. */
  lemma StaleDetectionsStayInert(s: State, dets: seq<Det>, recs: seq<Rec>, dets': seq<Det>, recs': seq<Rec>)
    ensures var v := Iteration(Iteration(s, dets, recs), dets', recs');
      Detect(v, dets) == v
  {
    var u := Iteration(s, dets, recs);
    IterationFrameGrows(s, dets, recs);
    IterationFrameGrows(u, dets', recs');
    DetectStaleList(s, dets, Iteration(u, dets', recs'));
  }

  // ---------------------------------------------------------------------------
  // The loop as the source writes it
  // ---------------------------------------------------------------------------

  /** The local variables of `monitor_files` as an object, with the written rows as
      a ghost log (the file appends themselves are not modelled). */
  class DetectionMonitor {
    var currentFrame: int
    var processedFrames: set<int>
    var processedRecData: set<string>
    var lastFaceInfo: Option<Stored>
    ghost var log: seq<Row>

    ghost function Current(): State
      reads this
    {
      State(currentFrame, processedFrames, processedRecData, lastFaceInfo, log)
    }

    ghost predicate Valid()
      reads this
    {
      Consistent(Current())
    }

    /** Lines 137-140. */
    constructor ()
      ensures Valid() && Current() == Initial
    {
      currentFrame := -1;
      processedFrames := {};
      processedRecData := {};
      lastFaceInfo := None;
      log := [];
    }

    /** The detection loop of lines 164-171 over one decoded list. */
    method OnDetections(dets: seq<Det>)
      requires Valid()
      modifies this
      ensures Valid()
      ensures Current() == Detect(old(Current()), dets)
    {
      DetectPreserves(Current(), dets);
      var i := 0;
      while i < |dets|
        invariant 0 <= i <= |dets|
        invariant Detect(Current(), dets[i..]) == Detect(old(Current()), dets)
      {
        assert dets[i..][1..] == dets[i + 1..];
        if dets[i].bufferOffset.None? {
          return;
        }
        var frameNum := dets[i].bufferOffset.value;
        if frameNum > currentFrame {
          currentFrame := frameNum;
          if frameNum !in processedFrames {
            processedFrames := processedFrames + {frameNum};
            log := log + [Row(FromDetection, frameNum, frameNum, lastFaceInfo)];
          }
        }
        i := i + 1;
      }
    }

    /** Lines 191-204 for one record; false when a lookup raises, which ends the loop. */
    method OnRecognition(data: Rec) returns (ok: bool)
      modifies this
      ensures ok <==> RecognizeOne(old(Current()), data).Some?
      ensures ok ==> Current() == RecognizeOne(old(Current()), data).value
      ensures !ok ==> Current() == old(Current())
    {
      if data.timestamp.None? || data.streamId.None? {
        return false;
      }
      var dataId := DataId(data.timestamp.value, data.streamId.value);
      if dataId !in processedRecData {
        var faceInfo := GetFaceInfo(data.roi);
        if faceInfo.mode0Id.Some? {
          if data.bufferOffset.None? {
            return false;
          }
          var st := Stored(faceInfo, data.bufferOffset.value);
          lastFaceInfo := Some(st);
          log := log + [Row(FromRecognition(dataId), currentFrame, data.bufferOffset.value, Some(st))];
        }
        processedRecData := processedRecData + {dataId};
      }
      return true;
    }

    /** The recognition loop of lines 189-204 over one decoded list. */
    method OnRecognitions(recs: seq<Rec>)
      requires Valid()
      modifies this
      ensures Valid()
      ensures Current() == Recognize(old(Current()), recs)
    {
      RecognizePreserves(Current(), recs);
      var i := 0;
      while i < |recs|
        invariant 0 <= i <= |recs|
        invariant Recognize(Current(), recs[i..]) == Recognize(old(Current()), recs)
      {
        assert recs[i..][1..] == recs[i + 1..];
        var ok := OnRecognition(recs[i]);
        if !ok {
          return;
        }
        i := i + 1;
      }
    }

    /** One pass of the `while True` body. */
    method Iterate(dets: seq<Det>, recs: seq<Rec>)
      requires Valid()
      modifies this
      ensures Valid()
      ensures Current() == Iteration(old(Current()), dets, recs)
    {
      OnDetections(dets);
      OnRecognitions(recs);
    }
  }
}

# Face-tracking camera: detection monitor and servo tracker

This project models the two Python programs of a face-tracking pan/tilt camera:

- `monitor_detections.py` polls two JSON files, one with face detections and one
  with face recognitions. It turns them into rows of a CSV log: one row per new
  detection frame, and one row per new recognition record that carries a
  detection id.
- `tracking_motors.py` re-reads that log, picks the rows whose gallery id is 1
  and whose centre cells are not 'null', and steps two servos toward the face. A
  rectangular dead zone around the image centre leaves the servos alone.

Modules:

- `Common`: decimal text of integers, as `str()` writes it, and its parser.
- `Text`: `str.strip()` and the bracket repair applied to the JSON text before
  it is decoded.
- `Records`: a decoded recognition record, `calculate_center`, and
  `get_face_info`. `get_face_info` is both a function and a method proved
  equal to it.
- `Rows`: the eight cells `write_frame_info` writes for one row.
- `Monitor`: one iteration of `monitor_files` as a function on a `State`, the
  invariant every reachable state keeps, and a `DetectionMonitor` class whose
  methods are proved to perform those functions.
- `Servo`: `adjust_servo_angles` as pure functions on two angles.
- `Tracking`: one pass of `track_face` over the rows read from the log, and a
  `FaceTracker` class holding the angles and the cursor `last_processed_line`.
- `Pipeline`: what the tracker reads back from a row the monitor wrote.

Angles are integer tenths of a degree:

- the step of 0.3 degrees is 3;
- the range [0, 180] degrees is [0, 1800];
- the start pose of 120/95 degrees is 1200/950.

Python's `int()` on a float truncates toward zero (`Records.Trunc`). The model
follows the code here; for a bounding box inside the frame, truncation and the
floor agree (`Records.TruncIsFloor`).

A JSON object is a datatype with `Option` fields. A key the code indexes
without checking is `None` when missing. Its lookup raises, and the model
follows the effect of the surrounding `try`:

- in `get_face_info`, the fields set so far stay and the rest is skipped;
- in the detection or recognition loop, the records after the failing one are
  not read in that iteration.

The decoded JSON lists are parameters. An unreadable or missing file is the
empty list.

A Center_X/Center_Y cell as `int(float(...))` sees it is a
`Tracking.Coord`: the literal 'null', a number, or text the conversion
rejects. The monitor writes a missing centre as the empty text, which passes
the 'null' filter and then fails to convert.
`Pipeline.MissingCenterStallsTracker` proves what follows from that: a logged
row with gallery id 1 but no bounding box stops every later pass at that row,
wherever it lies past the cursor and whatever rows follow it, and the
tracker's cursor never moves past it.

## Model

| member | source | states |
|---|---|---|
| Common.DigitChar | monitor_detections.py:112-121 | the character written for a digit is a decimal digit with that value |
| Common.DigitValue | tracking_motors.py:87-88 | reading a digit character gives a value in 0..9 that is written back as the same character |
| Common.NatToString | monitor_detections.py:112-121 | the decimal text of a natural number is non-empty, all digits, and one character long exactly below 10 |
| Common.IntToString | monitor_detections.py:112-121 | the text starts with '-' exactly for negative numbers; everything after the first character is digits |
| Common.ParseNatToString | tracking_motors.py:87-88 | parsing the decimal text of a natural number gives the number back |
| Common.ParseIntToString | tracking_motors.py:87-88 | parsing the text of an integer gives the integer back |
| Common.IntToStringInjective | monitor_detections.py:191 | different integers have different texts |
| Common.IntToStringIsOne | tracking_motors.py:83 | an integer's text is "1" exactly when the integer is 1 |
| Text.LeadingSpace | monitor_detections.py:153 | the length of the longest all-whitespace prefix |
| Text.TrailingSpace | monitor_detections.py:178 | the length of the longest all-whitespace suffix |
| Text.Strip | monitor_detections.py:153 | the result is a substring of the input, with only whitespace cut off either end and no whitespace left at either end |
| Text.StripTrimmed | monitor_detections.py:178 | text with no whitespace at either end is left unchanged |
| Text.StripIdempotent | monitor_detections.py:153 | stripping twice is the same as stripping once |
| Text.Repair | monitor_detections.py:156-159 | the result is always bracketed; bracketed input is left unchanged; a trailing comma is dropped before bracketing; any other text is wrapped in brackets |
| Text.RepairIdempotent | monitor_detections.py:181-184 | repairing repaired text changes nothing |
| Text.RepairBody | monitor_detections.py:156-159 | repaired text that was not bracketed holds the whole input between its brackets, less one trailing comma |
| Text.TextForDecoder | monitor_detections.py:153-159 | nothing is decoded exactly when the stripped text is empty; otherwise the decoder gets bracketed text, and stripped text that is already bracketed goes through unchanged |
| Records.Trunc | monitor_detections.py:49 | `int()` truncates toward zero: within one below a non-negative value, and within one above a negative value |
| Records.CalculateCenter | monitor_detections.py:44-49 | a centre exists iff all four bbox coordinates exist, and it is the truncated pixel position of the bbox midpoint on the 640x360 frame |
| Records.TruncIsFloor | monitor_detections.py:49 | on non-negative values truncation is the floor |
| Records.CenterInFrame | monitor_detections.py:44-49 | a bbox inside the unit square has its centre in [0, 640] x [0, 360]; the right or bottom edge is reached only with zero width or height |
| Records.ScanSubObjects | monitor_detections.py:69-82 | the sub-object loop leaves the centre alone, and each id or label either keeps its old value or is one a sub-object carries |
| Records.FaceInfoOf | monitor_detections.py:51-87 | no ROI gives the empty face info; the centre is set iff the ROI has a complete bbox, and is then its computed centre; a set detection id, gallery id or label is carried by a sub-object |
| Records.GetFaceInfo | monitor_detections.py:51-87 | the field-by-field method, stopping where a lookup raises, returns exactly `FaceInfoOf` |
| Records.ScanSnoc | monitor_detections.py:69-82 | scanning a list extended by a well-formed sub-object is scanning the list, then applying that sub-object, and neither step raises |
| Records.ScanIsLastWins | monitor_detections.py:69-82 | with well-formed sub-objects, each id and the label are those of the last sub-object carrying them, and otherwise keep their previous value |
| Records.FaceInfoLastWins | monitor_detections.py:51-87 | when the extraction reaches the sub-objects, the detection id, gallery id and label are those of the last sub-object carrying them |
| Records.IncompleteBBoxSetsNothing | monitor_detections.py:64-66 | a bbox missing a coordinate ends the extraction with nothing set |
| Records.ScanStopsAtModelessId | monitor_detections.py:71-73 | sub-objects after the first unique id without a mode are never read |
| Rows.OptionalCell | monitor_detections.py:116-120 | a missing value is the empty cell, which is never 'null'; a present value parses back |
| Rows.GalleryCell | monitor_detections.py:109 | 'nd' exactly for a missing or zero gallery id; never empty or 'null'; "1" exactly for id 1; otherwise it parses back to the id |
| Rows.LabelCell | monitor_detections.py:110 | a missing or empty label is 'nd'; any other label is written as is |
| Rows.RecBufferCell | monitor_detections.py:106 | "cp" then the original buffer exactly when the buffers differ; 'null' exactly when both are 0; otherwise the buffer, which parses back |
| Rows.Cells | monitor_detections.py:89-121 | eight cells whose frame cell parses back; a row without face data has six 'null' cells; a row with face data has the cells of its fields, and never 'null' as detection or gallery id |
| Rows.NoFaceRowsAreRecognisable | monitor_detections.py:91-102 | a row has no face data exactly when its Detection_ID and Gallery_ID cells are both 'null' |
| Monitor.DataId | monitor_detections.py:191 | the key splits uniquely: the timestamp text, which holds no underscore, then one underscore, then the stream id |
| Monitor.DataIdInjective | monitor_detections.py:191-193 | two records get the same key only when timestamp and stream id agree |
| Monitor.InitialConsistent | monitor_detections.py:137-140 | the initial state satisfies the loop invariant `Consistent` |
| Monitor.DetectionFramesSnoc | monitor_detections.py:168-171 | appending a detection row adds its frame to the logged detection frames; appending any other row adds nothing |
| Monitor.DetectOne | monitor_detections.py:165-171 | an offset no newer than the current frame changes nothing; a newer one becomes the current frame, is marked processed and gets exactly one row carrying the last face info |
| Monitor.AppendKeepsOrder | monitor_detections.py:164-204 | appending a row no older than the log keeps frames non-decreasing, detection frames strictly increasing and recognition keys distinct |
| Monitor.AppendPreserves | monitor_detections.py:164-204 | appending a row that fits the log to a consistent state, with the frame, processed frames and keys following it, gives a consistent state |
| Monitor.DetectOnePreserves | monitor_detections.py:165-171 | one detection record keeps `Consistent` |
| Monitor.DetectPreserves | monitor_detections.py:164-171 | the detection loop keeps `Consistent` |
| Monitor.AppendsDetectionsTrans | monitor_detections.py:164-171 | two stretches of appended detection rows in turn are one such stretch |
| Monitor.DetectOneEffect | monitor_detections.py:165-171 | one detection record appends at most one detection row, for a frame newer than the current one, carrying the last face info |
| Monitor.DetectEffect | monitor_detections.py:164-171 | the detection loop only appends rows, each a detection row for a frame newer than every frame logged before, carrying the last face info |
| Monitor.DetectCovers | monitor_detections.py:164-167 | after the loop the current frame has not decreased and is at least every offset read |
| Monitor.CoveredMonotone | monitor_detections.py:166 | offsets at most one frame are at most any later frame |
| Monitor.DetectReplay | monitor_detections.py:164-171 | re-reading records no newer than the current frame changes nothing, and a list read again with new records after it applies only the new records |
| Monitor.DetectStaleList | monitor_detections.py:164-171 | a detection list read once has no effect in any state whose current frame is at least the one that reading reached |
| Monitor.DetectIdempotent | monitor_detections.py:151-171 | re-reading an unchanged detection file writes nothing and changes nothing |
| Monitor.DetectGrownFile | monitor_detections.py:151-171 | re-reading a detection file that has grown applies exactly the new records |
| Monitor.RecognizeOne | monitor_detections.py:189-204 | a record missing its key, or a new record with a detection id but no buffer offset, ends the loop; a processed key is skipped; otherwise the key is marked; a record with a detection id writes exactly one row and becomes the last face info, and a record without one writes nothing |
| Monitor.RecognizeOnePreserves | monitor_detections.py:189-204 | one recognition record keeps `Consistent` |
| Monitor.RecognizePreserves | monitor_detections.py:189-204 | the recognition loop keeps `Consistent` |
| Monitor.RecognizeEffect | monitor_detections.py:189-204 | the recognition loop only appends recognition rows at the current frame, and leaves the frame and the processed frames alone |
| Monitor.RecognizeIdempotent | monitor_detections.py:176-204 | re-reading an unchanged recognition file writes nothing and changes nothing |
| Monitor.IterationPreserves | monitor_detections.py:148-215 | one iteration of the polling loop keeps `Consistent` |
| Monitor.RunConsistent | monitor_detections.py:135-215 | every state reached from the start is `Consistent`: no detection frame or recognition key is logged twice, rows are in frame order, and every row with face data has a detection id |
| Monitor.IterationIdempotent | monitor_detections.py:148-215 | an iteration over unchanged files writes nothing and changes nothing |
| Monitor.IterationFrameGrows | monitor_detections.py:148-209 | the current frame never goes back over an iteration |
| Monitor.StaleDetectionsStayInert | monitor_detections.py:148-209 | detection records read in one iteration write no row when read again after the next iteration, whatever the files hold then |
| Monitor.DetectionMonitor.constructor | monitor_detections.py:137-140 | the object starts in the initial state |
| Monitor.DetectionMonitor.OnDetections | monitor_detections.py:164-171 | the fields are updated as `Detect` says |
| Monitor.DetectionMonitor.OnRecognition | monitor_detections.py:191-204 | one record updates the fields as `RecognizeOne` says, and reports whether a lookup raised |
| Monitor.DetectionMonitor.OnRecognitions | monitor_detections.py:189-204 | the fields are updated as `Recognize` says, extracting face info with `GetFaceInfo` |
| Monitor.DetectionMonitor.Iterate | monitor_detections.py:150-209 | the fields are updated as `Iteration` says |
| Servo.AxisStep | tracking_motors.py:52-67 | inside the inclusive dead zone the angle stays; outside it moves one step toward the target's side, unless that step would leave [0, 180] degrees; the result stays in range |
| Servo.HorizontalStep | tracking_motors.py:46-58 | the pan dead zone is 260..380 pixels; right of it the angle grows by 0.3 degrees, left of it the angle shrinks, each only within [0, 180] |
| Servo.VerticalStep | tracking_motors.py:48-67 | the tilt dead zone is 165..195 pixels; below it the angle grows by 0.3 degrees, above it the angle shrinks, each only within [0, 180] |
| Servo.Adjust | tracking_motors.py:38-67 | the pan moves only by the target's x and the tilt only by its y, each by at most one step, and in-range angles stay in range |
| Servo.Commands | tracking_motors.py:56-67 | a servo is commanded exactly when its axis moved, and it receives the new angle; the pan command comes before the tilt command; at most two commands, all in range, none for a target inside the dead zone |
| Servo.RunStaysInRange | tracking_motors.py:56-67 | over any sequence of targets the angles and every command stay within [0, 180] degrees |
| Servo.ApplyWritesAppend | tracking_motors.py:58-67 | sending two batches of commands in turn leaves the servos where sending them as one sequence does |
| Servo.CommandsReachAdjust | tracking_motors.py:55-67 | the commands one call sends put the servos exactly at the angles it stores in the globals |
| Servo.RunCommandsReachRun | tracking_motors.py:55-67 | over any sequence of targets, the servos stand at the angles the controller has stored |
| Servo.RunAxesIndependent | tracking_motors.py:51-67 | over any sequence of targets, the pan depends only on the x coordinates and the tilt only on the y coordinates |
| Servo.RunBoundedMotion | tracking_motors.py:54-55 | n targets move each angle by at most n steps |
| Servo.PanTowardRightTarget | tracking_motors.py:52-58 | a target that stays right of the dead zone pans one step per call until the next step would pass 180 degrees |
| Servo.PanTowardLeftTarget | tracking_motors.py:52-58 | a target that stays left of the dead zone pans one step per call until the next step would pass 0 degrees |
| Tracking.FirstFailure | tracking_motors.py:81-89 | every tracked row before the returned index converts; the row at it, if any, is tracked and does not convert |
| Tracking.SelectedTargetsCons | tracking_motors.py:81-89 | the targets of a list are those of its first row followed by those of the rest |
| Tracking.FeedIsRunOfSelected | tracking_motors.py:81-89 | feeding rows drives the controller with the targets of the tracked rows in file order, up to the first that does not convert; the feed completes exactly when there is none |
| Tracking.FeedCompletionIgnoresAngles | tracking_motors.py:87-88 | whether a feed completes depends on the rows only |
| Tracking.PassWithoutNewRows | tracking_motors.py:80 | a pass over a file that has not grown past the cursor changes nothing |
| Tracking.PassEffect | tracking_motors.py:75-100 | a pass applies the tracked rows past the cursor in order; the cursor moves to the end of the file exactly when every one converts |
| Tracking.PassIgnoresConsumedRows | tracking_motors.py:81 | rows below the cursor have no influence on a pass |
| Tracking.PassAfterGrowth | tracking_motors.py:80-91 | after a pass that reached the end, a pass over the grown file applies exactly the new rows |
| Tracking.PassRetriesAfterFailure | tracking_motors.py:87-100 | a pass stopped by an unconvertible row leaves the cursor put, so the next pass re-applies the rows before it and stops again |
| Tracking.PassStallsAtFailure | tracking_motors.py:73-100 | while the file is unchanged, an unconvertible tracked row keeps the cursor where it is for any number of passes |
| Tracking.UnconvertibleRowStalls | tracking_motors.py:81-100 | a tracked row past the cursor that does not convert, wherever it lies, holds the cursor for any number of passes over the unchanged file |
| Tracking.PassCommandsReachPass | tracking_motors.py:75-91 | the commands a pass sends put the servos exactly at the angles the pass ends with |
| Tracking.PassStaysInRange | tracking_motors.py:75-91 | a pass keeps the angles and every command it issues within [0, 180] degrees |
| Tracking.FaceTracker.constructor | tracking_motors.py:16-32 | both servos start at 120/95 degrees, commanded once each, with the cursor at 0 |
| Tracking.FaceTracker.AdjustServoAngles | tracking_motors.py:38-67 | the angles become `Adjust` of the old ones, and exactly `Commands` is sent |
| Tracking.FaceTracker.Recenter | tracking_motors.py:113-117 | the servos are sent back to 120/95 degrees and the stored angles stay |
| Tracking.FaceTracker.TrackPass | tracking_motors.py:75-91 | the angles, the cursor and the commands become those `Pass` gives |
| Pipeline.TrackerReadsLoggedRow | tracking_motors.py:83-88 | a logged row is tracked exactly when it has face data with gallery id 1; such a row converts exactly when the face had a centre, and then the target is that centre |
| Pipeline.MissingCenterStallsTracker | monitor_detections.py:119-120 | a logged row with gallery id 1 and no centre, anywhere past the cursor and followed by any rows, holds the tracker's cursor across any number of passes over the unchanged file |

## Left out

- File I/O is not modelled: clearing, creating and appending to the files, and the existence checks (`clear_file`, `os.path.exists`, `open`). The file contents are parameters.
- `json.loads` is not modelled; the decoded lists are parameters. Text it rejects is the empty list, and so is a `JSONDecodeError` for the recognition file.
- JSON `null` values are not told apart from missing keys: both are `None`, and a lookup of either ends the loop on the spot. In Python, `null` is read as `None` without raising.
- The CSV layer, `csv.writer` quoting and `csv.DictReader` parsing, is not modelled. Rows are cell texts, and the tracker sees the three columns it reads.
- `Pipeline.ReadCoord`: `int(float(cell))` is modelled only for the texts the monitor writes: 'null', decimal integers and the empty text. Rounding of integers above 2^53 by `float` is not captured.
- Floating point is not modelled. Angles are exact tenths of a degree, so the drift of repeated `+ 0.3` in binary floats near 0 and 180 degrees is not captured. Bounding-box coordinates are exact reals.
- `datetime.now()` timestamps are a parameter of `Rows.Cells`. The `time.sleep` delays are not modelled.
- Processes and threads are not modelled: `subprocess` launches of the recognition script and of the monitor, the daemon thread, and the two programs running concurrently on the same log file.
- The `ServoKit` hardware and its pulse-width setup are not modelled. Commands are recorded in a ghost log.
- Console printing, including the `ENABLE_CONSOLE_PRINT` branch, is not modelled.
- The `main` functions are not modelled. The infinite `while True` loops are modelled as single iterations and finite histories of them (`Monitor.Run`, `Tracking.Passes`).
- Text is Dafny `string`. There is no Unicode normalisation, and `str.isspace` is the fixed set of characters Python treats as whitespace.

/** The log file as the channel between the two programs: the cells
    `write_frame_info` writes (monitor_detections.py:89-121) read back by
    `track_face` (tracking_motors.py:81-89). */
module Pipeline {
  import opened Common
  import Records
  import Rows
  import Tracking
  import Servo

  /** What `int(float(cell))` makes of a Center_X or Center_Y cell the monitor
      wrote: the literal 'null' is filtered out before conversion, an integer text
      converts to its value, and anything else (the empty text `csv.writer` writes
      for a missing centre) raises. */
  function ReadCoord(c: string): Tracking.Coord {
    if c == Rows.NullText then Tracking.NullText
    else if ParseInt(c).Some? then Tracking.Number(ParseInt(c).value)
    else Tracking.Unparsable
  }

  /** The three columns of a logged line that the tracker uses. */
  function ReadRow(cells: seq<string>): Tracking.CsvRow
    requires |cells| == |Rows.Header|
  {
    Tracking.CsvRow(cells[4], ReadCoord(cells[6]), ReadCoord(cells[7]))
  }

  /** What the tracker reads from a line the monitor wrote: the line is tracked
      exactly when it carries face data with gallery id 1; such a line converts
      exactly when the face had a centre, and then the tracker steers toward that
      centre. */
  lemma TrackerReadsLoggedRow(timestamp: string, row: Rows.Row)
    ensures var r := ReadRow(Rows.Cells(timestamp, row));
      && (Tracking.Selected(r) <==> row.info.Some? && row.info.value.info.mode1Id == Some(1))
      && (Tracking.Selected(r) ==>
            (Tracking.Parses(r) <==> row.info.value.info.centerX.Some? && row.info.value.info.centerY.Some?))
      && (Tracking.Selected(r) && Tracking.Parses(r) ==>
            Tracking.TargetOf(r) == Servo.Target(row.info.value.info.centerX.value, row.info.value.info.centerY.value))
  {
  }

  /** A logged line with gallery id 1 but no centre (a recognition without a
      bounding box) stops every later pass of the tracker at that line, wherever it
      lies past the cursor and whatever rows follow it: the cursor never moves past
      it, whatever the tracker's state, however often the unchanged file is re-read. */
  lemma MissingCenterStallsTracker(t: Tracking.TrackerState, lines: seq<Tracking.CsvRow>, k: nat,
                                   timestamp: string, row: Rows.Row, n: nat)
    requires t.cursor <= k < |lines| && lines[k] == ReadRow(Rows.Cells(timestamp, row))
    requires row.info.Some? && row.info.value.info.mode1Id == Some(1) && row.info.value.info.centerX.None?
    ensures Tracking.Passes(t, lines, n).cursor == t.cursor
  {
    TrackerReadsLoggedRow(timestamp, row);
    Tracking.UnconvertibleRowStalls(t, lines, k, n);
  }
}

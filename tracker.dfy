/** One pass of the `track_face` loop (tracking_motors.py:69-100): the log is
    re-read as a whole, rows past the cursor are filtered and fed to the
    controller in file order, and the cursor moves to the end of the file.

    A row's `Center_X`/`Center_Y` cells are modelled by what `int(float(...))`
    makes of them: the literal 'null', a number, or text it rejects (which
    raises, so that the handler of line 98 ends the pass before the cursor moves). */
module Tracking {
  import opened Servo

  datatype Coord = NullText | Number(value: int) | Unparsable

  /** The three columns of a `csv.DictReader` row that `track_face` reads. */
  datatype CsvRow = CsvRow(galleryId: string, centerX: Coord, centerY: Coord)

  /** Lines 83-85: only gallery id '1' with both centres present is tracked. */
  predicate Selected(row: CsvRow) {
    row.galleryId == "1" && !row.centerX.NullText? && !row.centerY.NullText?
  }

  predicate Parses(row: CsvRow) {
    row.centerX.Number? && row.centerY.Number?
  }

  function TargetOf(row: CsvRow): Target
    requires Parses(row)
  {
    Target(row.centerX.value, row.centerY.value)
  }

  /** What feeding rows to the controller did: the angles, the servo commands,
      and whether every row was dealt with (false: a coordinate did not parse). */
  datatype FeedResult = FeedResult(servos: Servos, writes: seq<ServoWrite>, completed: bool)

  /** The `for` loop of lines 81-89 over `rows`. */
  function Feed(s: Servos, rows: seq<CsvRow>): FeedResult
    decreases |rows|
  {
    if rows == [] then FeedResult(s, [], true)
    else if !Selected(rows[0]) then Feed(s, rows[1..])
    else if !Parses(rows[0]) then FeedResult(s, [], false)
    else
      var t := TargetOf(rows[0]);
      var r := Feed(Adjust(s, t), rows[1..]);
      FeedResult(r.servos, Commands(s, t) + r.writes, r.completed)
  }

  /** The index of the first selected row whose coordinates do not parse, or |rows|. */
  function FirstFailure(rows: seq<CsvRow>): (k: nat)
    ensures k <= |rows|
    ensures forall i :: 0 <= i < k ==> Selected(rows[i]) ==> Parses(rows[i])
    ensures k < |rows| ==> Selected(rows[k]) && !Parses(rows[k])
    decreases |rows|
  {
    if rows == [] then 0
    else if Selected(rows[0]) && !Parses(rows[0]) then 0
    else
      var k := FirstFailure(rows[1..]);
      assert forall i :: 0 < i <= k ==> rows[i] == rows[1..][i - 1];
      1 + k
  }

  /** Reference definition: the targets of the selected rows, in file order. */
  function SelectedTargets(rows: seq<CsvRow>): seq<Target>
    requires forall i :: 0 <= i < |rows| ==> Selected(rows[i]) ==> Parses(rows[i])
  {
    if rows == [] then []
    else
      var last := rows[|rows| - 1];
      SelectedTargets(rows[..|rows| - 1]) + (if Selected(last) then [TargetOf(last)] else [])
  }

  lemma {:induction false} SelectedTargetsCons(rows: seq<CsvRow>)
    requires rows != []
    requires forall i :: 0 <= i < |rows| ==> Selected(rows[i]) ==> Parses(rows[i])
    ensures SelectedTargets(rows) ==
      (if Selected(rows[0]) then [TargetOf(rows[0])] else []) + SelectedTargets(rows[1..])
    decreases |rows|
  {
    if |rows| > 1 {
      var n := |rows| - 1;
      assert rows[..n][0] == rows[0];
      SelectedTargetsCons(rows[..n]);
      assert rows[..n][1..] == rows[1..][..n - 1];
      assert rows[1..][n - 1] == rows[n];
    } else {
      assert rows[..0] == [] && rows[1..] == [];
    }
  }

  /** Feeding rows is driving the controller with the targets of the selected rows
      in file order, up to the first selected row whose coordinates do not parse;
      the feed completes exactly when there is no such row. */
  lemma {:induction false} FeedIsRunOfSelected(s: Servos, rows: seq<CsvRow>)
    ensures var k := FirstFailure(rows);
      var ts := SelectedTargets(rows[..k]);
      Feed(s, rows) == FeedResult(Run(s, ts), RunCommands(s, ts), k == |rows|)
    decreases |rows|
  {
    var k := FirstFailure(rows);
    if rows == [] {
    } else if Selected(rows[0]) && !Parses(rows[0]) {
      assert rows[..0] == [];
    } else {
      var rest := rows[1..];
      var t := if Selected(rows[0]) then Adjust(s, TargetOf(rows[0])) else s;
      FeedIsRunOfSelected(t, rest);
      assert rows[..k][1..] == rest[..k - 1];
      assert rows[..k][0] == rows[0];
      SelectedTargetsCons(rows[..k]);
      var ts := SelectedTargets(rest[..k - 1]);
      assert k - 1 == FirstFailure(rest);
      if Selected(rows[0]) {
        assert SelectedTargets(rows[..k]) == [TargetOf(rows[0])] + ts;
        assert ([TargetOf(rows[0])] + ts)[1..] == ts;
      } else {
        assert SelectedTargets(rows[..k]) == [] + ts == ts;
        assert Feed(s, rows) == Feed(s, rest);
      }
    }
  }

  /** Whether a feed completes depends on the rows only, not on the angles. */
  lemma {:induction false} FeedCompletionIgnoresAngles(s1: Servos, s2: Servos, rows: seq<CsvRow>)
    ensures Feed(s1, rows).completed == Feed(s2, rows).completed
    decreases |rows|
  {
    if rows != [] && Selected(rows[0]) && Parses(rows[0]) {
      FeedCompletionIgnoresAngles(Adjust(s1, TargetOf(rows[0])), Adjust(s2, TargetOf(rows[0])), rows[1..]);
    } else if rows != [] && !Selected(rows[0]) {
      FeedCompletionIgnoresAngles(s1, s2, rows[1..]);
    }
  }

  /** The angles, the cursor `last_processed_line`, and the servo commands issued so far. */
  datatype TrackerState = TrackerState(servos: Servos, cursor: nat, writes: seq<ServoWrite>)

  /** One pass over the rows read from the log (lines 75-91). */
  function Pass(t: TrackerState, rows: seq<CsvRow>): TrackerState {
    if |rows| > t.cursor then
      var f := Feed(t.servos, rows[t.cursor..]);
      TrackerState(f.servos, if f.completed then |rows| else t.cursor, t.writes + f.writes)
    else t
  }

  /** If the file has not grown past the cursor, a pass changes nothing. */
  lemma PassWithoutNewRows(t: TrackerState, rows: seq<CsvRow>)
    requires |rows| <= t.cursor
    ensures Pass(t, rows) == t
  {
  }

  /** A pass applies the selected rows past the cursor in file order; it ends with
      the cursor at the end of the file, unless a coordinate fails to parse, in
      which case the rows before the failing one have been applied and the cursor
      has not moved. */
  lemma PassEffect(t: TrackerState, rows: seq<CsvRow>)
    requires t.cursor < |rows|
    ensures var newRows := rows[t.cursor..];
      var k := FirstFailure(newRows);
      var ts := SelectedTargets(newRows[..k]);
      Pass(t, rows) == TrackerState(Run(t.servos, ts),
                                    if k == |newRows| then |rows| else t.cursor,
                                    t.writes + RunCommands(t.servos, ts))
  {
    FeedIsRunOfSelected(t.servos, rows[t.cursor..]);
  }

  /** Rows below the cursor are never looked at again. */
  lemma PassIgnoresConsumedRows(t: TrackerState, rows: seq<CsvRow>, rows': seq<CsvRow>)
    requires |rows| == |rows'| && t.cursor <= |rows|
    requires rows[t.cursor..] == rows'[t.cursor..]
    ensures Pass(t, rows) == Pass(t, rows')
  {
  }

  /** After a pass that reached the end, a pass over the file grown by `more` applies
      exactly the rows of `more`: no row is applied twice. */
  lemma PassAfterGrowth(t: TrackerState, rows: seq<CsvRow>, more: seq<CsvRow>)
    requires Pass(t, rows).cursor == |rows|
    ensures var t' := Pass(t, rows);
      var f := Feed(t'.servos, more);
      Pass(t', rows + more) ==
        if more == [] then t'
        else TrackerState(f.servos, if f.completed then |rows + more| else |rows|, t'.writes + f.writes)
  {
    assert (rows + more)[|rows|..] == more;
  }

  /** A pass that stopped at a row whose coordinates do not parse leaves the cursor
      where it was, so the next pass over the same rows applies the rows before
      the failing one again and stops again. */
  lemma PassRetriesAfterFailure(t: TrackerState, rows: seq<CsvRow>)
    requires t.cursor < |rows| && !Feed(t.servos, rows[t.cursor..]).completed
    ensures Pass(t, rows).cursor == t.cursor
    ensures Pass(Pass(t, rows), rows).cursor == t.cursor
    ensures Pass(Pass(t, rows), rows).servos == Feed(Pass(t, rows).servos, rows[t.cursor..]).servos
  {
    FeedCompletionIgnoresAngles(t.servos, Pass(t, rows).servos, rows[t.cursor..]);
  }

  /** `n` passes over an unchanged file. */
  function Passes(t: TrackerState, rows: seq<CsvRow>, n: nat): TrackerState
    decreases n
  {
    if n == 0 then t else Pass(Passes(t, rows, n - 1), rows)
  }

  /** A row whose coordinates never parse holds the cursor back for good: however
      often the unchanged file is re-read, the cursor stays put. */
  lemma {:induction false} PassStallsAtFailure(t: TrackerState, rows: seq<CsvRow>, n: nat)
    requires t.cursor < |rows| && !Feed(t.servos, rows[t.cursor..]).completed
    ensures Passes(t, rows, n).cursor == t.cursor
    decreases n
  {
    if n > 0 {
      PassStallsAtFailure(t, rows, n - 1);
      var u := Passes(t, rows, n - 1);
      FeedCompletionIgnoresAngles(t.servos, u.servos, rows[t.cursor..]);
    }
  }

  /** Any tracked row past the cursor whose coordinates do not convert, wherever it
      lies among the new rows, holds the cursor in place for every later pass over
      the unchanged file. */
  lemma UnconvertibleRowStalls(t: TrackerState, rows: seq<CsvRow>, k: nat, n: nat)
    requires t.cursor <= k < |rows| && Selected(rows[k]) && !Parses(rows[k])
    ensures Passes(t, rows, n).cursor == t.cursor
  {
    assert rows[t.cursor..][k - t.cursor] == rows[k];
    FeedIsRunOfSelected(t.servos, rows[t.cursor..]);
    PassStallsAtFailure(t, rows, n);
  }

  /** The commands a pass sends put the servos exactly at the angles it ends with. */
  lemma PassCommandsReachPass(t: TrackerState, rows: seq<CsvRow>)
    ensures ApplyWrites(t.servos, Pass(t, rows).writes[|t.writes|..]) == Pass(t, rows).servos
  {
    if |rows| > t.cursor {
      PassEffect(t, rows);
      var newRows := rows[t.cursor..];
      var ts := SelectedTargets(newRows[..FirstFailure(newRows)]);
      assert Pass(t, rows).writes[|t.writes|..] == RunCommands(t.servos, ts);
      RunCommandsReachRun(t.servos, ts);
    } else {
      assert t.writes[|t.writes|..] == [];
    }
  }

  /** A pass keeps the angles, and every command it issues, within [0, 180] degrees. */
  lemma PassStaysInRange(t: TrackerState, rows: seq<CsvRow>)
    requires ServosInRange(t.servos)
    ensures ServosInRange(Pass(t, rows).servos)
    ensures forall i :: |t.writes| <= i < |Pass(t, rows).writes| ==> InRange(Pass(t, rows).writes[i].angle)
  {
    if |rows| > t.cursor {
      PassEffect(t, rows);
      var newRows := rows[t.cursor..];
      var ts := SelectedTargets(newRows[..FirstFailure(newRows)]);
      RunStaysInRange(t.servos, ts);
    }
  }

  /** The module globals of tracking_motors.py and the local cursor of `track_face`
      as one object; the servo commands are recorded in a ghost log instead of
      being sent to the hardware. */
  class FaceTracker {
    var currentVerticalAngle: int
    var currentHorizontalAngle: int
    var lastProcessedLine: nat
    ghost var writes: seq<ServoWrite>

    ghost function Current(): TrackerState
      reads this
    {
      TrackerState(Servos(currentVerticalAngle, currentHorizontalAngle), lastProcessedLine, writes)
    }

    /** The angles, and every command sent, lie in [0, 180] degrees. */
    ghost predicate Valid()
      reads this
    {
      && ServosInRange(Current().servos)
      && forall i :: 0 <= i < |writes| ==> InRange(writes[i].angle)
    }

    /** Lines 16-17 and 31-32, with the cursor of line 71. */
    constructor ()
      ensures Valid()
      ensures Current() == TrackerState(Servos(InitialVertical, InitialHorizontal), 0,
                                        [ServoWrite(VerticalChannel, InitialVertical),
                                         ServoWrite(HorizontalChannel, InitialHorizontal)])
    {
      currentVerticalAngle := InitialVertical;
      currentHorizontalAngle := InitialHorizontal;
      lastProcessedLine := 0;
      writes := [ServoWrite(VerticalChannel, InitialVertical), ServoWrite(HorizontalChannel, InitialHorizontal)];
    }

    /** `adjust_servo_angles`, updating the two angles in place. */
    method AdjustServoAngles(targetX: int, targetY: int)
      requires Valid()
      modifies this`currentVerticalAngle, this`currentHorizontalAngle, this`writes
      ensures Valid()
      ensures Current().servos == Adjust(old(Current().servos), Target(targetX, targetY))
      ensures writes == old(writes) + Commands(old(Current().servos), Target(targetX, targetY))
    {
      ghost var before := Current().servos;
      var xOffset := targetX - CenterX;
      var yOffset := targetY - CenterY;
      var deadzoneLeft := CenterX - DeadzoneWidth / 2;
      var deadzoneRight := CenterX + DeadzoneWidth / 2;
      var deadzoneTop := CenterY - DeadzoneHeight / 2;
      var deadzoneBottom := CenterY + DeadzoneHeight / 2;

      if targetX < deadzoneLeft || targetX > deadzoneRight {
        var adjustment := if xOffset > 0 then Step else -Step;
        var newHorizontal := currentHorizontalAngle + adjustment;
        if 0 <= newHorizontal <= MaxAngle {
          currentHorizontalAngle := newHorizontal;
          writes := writes + [ServoWrite(HorizontalChannel, currentHorizontalAngle)];
        }
      }
      if targetY < deadzoneTop || targetY > deadzoneBottom {
        var adjustment := if yOffset > 0 then Step else -Step;
        var newVertical := currentVerticalAngle + adjustment;
        if 0 <= newVertical <= MaxAngle {
          currentVerticalAngle := newVertical;
          writes := writes + [ServoWrite(VerticalChannel, currentVerticalAngle)];
        }
      }
      assert Current().servos == Adjust(before, Target(targetX, targetY));
    }

    /** Lines 116-117: on interrupt both servos are sent back to the start pose;
        the module globals keep the last angles. */
    method Recenter()
      requires Valid()
      modifies this`writes
      ensures Valid()
      ensures writes == old(writes) + [ServoWrite(VerticalChannel, InitialVertical),
                                       ServoWrite(HorizontalChannel, InitialHorizontal)]
    {
      writes := writes + [ServoWrite(VerticalChannel, InitialVertical), ServoWrite(HorizontalChannel, InitialHorizontal)];
    }

    /** One pass of the `while True` body of `track_face` over the rows just read. */
    method TrackPass(rows: seq<CsvRow>)
      requires Valid()
      modifies this
      ensures Valid()
      ensures Current() == Pass(old(Current()), rows)
    {
      PassStaysInRange(Current(), rows);
      if |rows| > lastProcessedLine {
        ghost var whole := Feed(Current().servos, rows[lastProcessedLine..]);
        var i := lastProcessedLine;
        while i < |rows|
          invariant lastProcessedLine == old(lastProcessedLine) <= i <= |rows|
          invariant Valid()
          invariant var f := Feed(Current().servos, rows[i..]);
            && f.servos == whole.servos && f.completed == whole.completed
            && writes + f.writes == old(writes) + whole.writes
        {
          assert rows[i..][1..] == rows[i + 1..];
          var row := rows[i];
          if row.galleryId == "1" && !row.centerX.NullText? && !row.centerY.NullText? {
            if row.centerX.Unparsable? || row.centerY.Unparsable? {
              return;
            }
            AdjustServoAngles(row.centerX.value, row.centerY.value);
          }
          i := i + 1;
        }
        lastProcessedLine := |rows|;
      }
    }
  }
}

/** The log rows `write_frame_info` renders (monitor_detections.py:89-121),
    as the eight cell texts `csv.writer` puts on one line. The timestamp is a
    parameter; the CSV quoting of the cell texts is not modelled. */
module Rows {
  import opened Common
  import opened Records

  const NullText: string := "null"
  /** Rendered for a gallery id or label that is missing: "not in gallery". */
  const NotDetected: string := "nd"

  /** The header row of lines 145-146. */
  const Header: seq<string> :=
    ["Timestamp", "Current_Frame", "Rec_BufferSet", "Detection_ID", "Gallery_ID", "Label", "Center_X", "Center_Y"]

  /** The `face_info` dict once `original_buffer` has been added to it (line 198). */
  datatype Stored = Stored(info: FaceInfo, originalBuffer: int)

  /** Which loop of `monitor_files` wrote a row; a recognition row also records the
      `timestamp_streamid` key of the record it came from. */
  datatype Origin = FromDetection | FromRecognition(key: string)

  /** The arguments of one `write_frame_info(frame_num, rec_buffer, face_info)` call. */
  datatype Row = Row(origin: Origin, frame: int, recBuffer: int, info: Option<Stored>)

  /** A number cell: `csv.writer` writes `None` as the empty text. */
  function OptionalCell(v: Option<int>): (c: string)
    ensures c == "" <==> v.None?
    ensures v.Some? ==> ParseInt(c) == v
    ensures c != NullText
  {
    if v.None? then "" else ParseIntToString(v.value); IntToString(v.value)
  }

  /** `face_info['mode1_id'] or 'nd'`: a missing or zero (falsy) gallery id is 'nd'. */
  function GalleryCell(id: Option<int>): (c: string)
    ensures c == NotDetected <==> id.None? || id == Some(0)
    ensures c != "" && c != NullText
    ensures c == "1" <==> id == Some(1)
    ensures c != NotDetected ==> ParseInt(c) == id
  {
    if id.None? || id.value == 0 then NotDetected
    else
      ParseIntToString(id.value);
      IntToStringIsOne(id.value);
      IntToString(id.value)
  }

  /** `face_info['label'] or 'nd'`: a missing or empty (falsy) label is 'nd'. */
  function LabelCell(text: Option<string>): (c: string)
    ensures c != ""
    ensures text.None? || text == Some("") ==> c == NotDetected
    ensures text.Some? && text.value != "" ==> c == text.value
  {
    if text.None? || text.value == "" then NotDetected else text.value
  }

  /** Line 106: a row carrying recognition data copied from another buffer says
      "cp" followed by that buffer; otherwise the buffer itself, where buffer 0
      (falsy) reads 'null'. */
  function RecBufferCell(recBuffer: int, originalBuffer: int): (c: string)
    ensures recBuffer != originalBuffer <==> |c| >= 2 && c[..2] == "cp"
    ensures recBuffer != originalBuffer ==> ParseInt(c[2..]) == Some(originalBuffer)
    ensures c == NullText <==> recBuffer == originalBuffer == 0
    ensures recBuffer == originalBuffer != 0 ==> ParseInt(c) == Some(recBuffer)
  {
    if recBuffer != originalBuffer then
      var c := "cp" + IntToString(originalBuffer);
      assert c[2..] == IntToString(originalBuffer);
      ParseIntToString(originalBuffer);
      c
    else if recBuffer == 0 then
      assert NullText[..2] == "nu";
      NullText
    else
      ParseIntToString(recBuffer);
      IntToString(recBuffer)
  }

  /** The cells of the row `write_frame_info` writes for `row` at time `timestamp`. */
  function Cells(timestamp: string, row: Row): (cells: seq<string>)
    ensures |cells| == |Header| == 8
    ensures cells[0] == timestamp
    ensures ParseInt(cells[1]) == Some(row.frame)
    ensures row.info.None? ==> cells[2..] == [NullText, NullText, NullText, NullText, NullText, NullText]
    ensures row.info.Some? ==>
      var st := row.info.value;
      && cells[2] == RecBufferCell(row.recBuffer, st.originalBuffer)
      && cells[3] == OptionalCell(st.info.mode0Id)
      && cells[4] == GalleryCell(st.info.mode1Id)
      && cells[5] == LabelCell(st.info.labelText)
      && cells[6] == OptionalCell(st.info.centerX)
      && cells[7] == OptionalCell(st.info.centerY)
    ensures row.info.Some? ==> cells[3] != NullText && cells[4] != NullText
  {
    ParseIntToString(row.frame);
    match row.info
    case None => [timestamp, IntToString(row.frame), NullText, NullText, NullText, NullText, NullText, NullText]
    case Some(st) =>
      [timestamp, IntToString(row.frame), RecBufferCell(row.recBuffer, st.originalBuffer),
       OptionalCell(st.info.mode0Id), GalleryCell(st.info.mode1Id), LabelCell(st.info.labelText),
       OptionalCell(st.info.centerX), OptionalCell(st.info.centerY)]
  }

  /** A row without face data and a row with it can be told apart from the text alone:
      only the former has 'null' in the Detection_ID and Gallery_ID columns. */
  lemma NoFaceRowsAreRecognisable(timestamp: string, row: Row)
    ensures var cells := Cells(timestamp, row);
      row.info.None? <==> cells[3] == NullText && cells[4] == NullText
  {
  }
}

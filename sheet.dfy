/** The worksheet as the converter sees it through openpyxl: cell values,
    rectangular merge ranges whose value lives in their top-left anchor cell,
    and the recognisers for time headers, day labels and the "Rooms" label. */
module Sheet {
  import opened Strings

  datatype Weekday = Monday | Tuesday | Wednesday | Thursday | Friday | Saturday | Sunday

  /** strftime("%A") of a date. */
  function WeekdayName(d: Weekday): string {
    match d
    case Monday => "Monday"
    case Tuesday => "Tuesday"
    case Wednesday => "Wednesday"
    case Thursday => "Thursday"
    case Friday => "Friday"
    case Saturday => "Saturday"
    case Sunday => "Sunday"
  }

  /** A cell value: None, text (a numeric value stands as its text), or a
      datetime, kept as its weekday and the text str() gives for it. */
  datatype Cell = Empty | Text(text: string) | Date(weekday: Weekday, shown: string)

  /** Python truthiness of a cell value. */
  predicate Truthy(c: Cell) {
    match c
    case Empty => false
    case Text(t) => t != ""
    case Date(_, _) => true
  }

  /** str() of a cell value. */
  function Str(c: Cell): string {
    match c
    case Empty => "None"
    case Text(t) => t
    case Date(_, shown) => shown
  }

  /** A merged range of cells, 1-based and inclusive, anchored at (minRow, minCol). */
  datatype MergeRange = MergeRange(minRow: int, minCol: int, maxRow: int, maxCol: int)

  predicate Covers(m: MergeRange, row: int, col: int) {
    m.minRow <= row <= m.maxRow && m.minCol <= col <= m.maxCol
  }

  predicate Disjoint(m: MergeRange, n: MergeRange) {
    m.maxRow < n.minRow || n.maxRow < m.minRow || m.maxCol < n.minCol || n.maxCol < m.minCol
  }

  /** Cell values by (row, column), the merge ranges in the sheet's order, and
      ws.max_row. */
  datatype Worksheet = Worksheet(cells: map<(int, int), Cell>, merges: seq<MergeRange>, maxRow: nat)

  /** ws.cell(row, col).value: a cell never written reads as None. */
  function Raw(ws: Worksheet, row: int, col: int): Cell {
    if (row, col) in ws.cells then ws.cells[(row, col)] else Empty
  }

  /** What a workbook openpyxl loads looks like: merge ranges are non-empty,
      start at row and column 1 or later, and never overlap. */
  predicate WellFormed(ws: Worksheet) {
    && (forall k | 0 <= k < |ws.merges| ::
          1 <= ws.merges[k].minRow <= ws.merges[k].maxRow && 1 <= ws.merges[k].minCol <= ws.merges[k].maxCol)
    && (forall i, j | 0 <= i < j < |ws.merges| :: Disjoint(ws.merges[i], ws.merges[j]))
  }

  /** Index of the first merge range from position k on that covers (row, col). */
  function FirstCoveringFrom(merges: seq<MergeRange>, row: int, col: int, k: nat): (r: Option<nat>)
    requires k <= |merges|
    ensures r.Some? ==> k <= r.value < |merges|
    decreases |merges| - k
  {
    if k == |merges| then None
    else if Covers(merges[k], row, col) then Some(k)
    else FirstCoveringFrom(merges, row, col, k + 1)
  }

  /** The search finds the first covering range, and finds none only when no
      range from k on covers the cell. */
  lemma {:induction false} FirstCoveringFromSpec(merges: seq<MergeRange>, row: int, col: int, k: nat)
    requires k <= |merges|
    ensures var r := FirstCoveringFrom(merges, row, col, k);
      && (r.Some? ==> Covers(merges[r.value], row, col) && forall p | k <= p < r.value :: !Covers(merges[p], row, col))
      && (r.None? ==> forall p | k <= p < |merges| :: !Covers(merges[p], row, col))
    decreases |merges| - k
  {
    if k < |merges| && !Covers(merges[k], row, col) {
      FirstCoveringFromSpec(merges, row, col, k + 1);
    }
  }

  function FirstCovering(merges: seq<MergeRange>, row: int, col: int): Option<nat> {
    FirstCoveringFrom(merges, row, col, 0)
  }

  /** get_cell_value: a cell inside a merge range reads as the range's anchor;
      any other cell reads as itself.  openpyxl refuses rows and columns below 1. */
  function GetCellValue(ws: Worksheet, row: int, col: int): Cell
    requires row >= 1 && col >= 1
  {
    match FirstCovering(ws.merges, row, col)
    case Some(k) => Raw(ws, ws.merges[k].minRow, ws.merges[k].minCol)
    case None => Raw(ws, row, col)
  }

  /** On any sheet: a cell no range covers reads as itself, and a covered cell
      reads as the anchor of a range that covers it. */
  lemma GetCellValueSpec(ws: Worksheet, row: int, col: int)
    requires row >= 1 && col >= 1
    ensures (forall k | 0 <= k < |ws.merges| :: !Covers(ws.merges[k], row, col)) ==>
      GetCellValue(ws, row, col) == Raw(ws, row, col)
    ensures (exists k | 0 <= k < |ws.merges| :: Covers(ws.merges[k], row, col)) ==>
      exists k | 0 <= k < |ws.merges| :: Covers(ws.merges[k], row, col)
        && GetCellValue(ws, row, col) == Raw(ws, ws.merges[k].minRow, ws.merges[k].minCol)
  {
    FirstCoveringFromSpec(ws.merges, row, col, 0);
  }

  /** In a well-formed sheet at most one merge range covers a cell. */
  lemma CoveringUnique(ws: Worksheet, i: nat, j: nat, row: int, col: int)
    requires WellFormed(ws)
    requires i < |ws.merges| && j < |ws.merges|
    requires Covers(ws.merges[i], row, col) && Covers(ws.merges[j], row, col)
    ensures i == j
  {
  }

  /** Every cell a merge range covers reads as the range's anchor, and so does
      the anchor itself. */
  lemma MergedCellReadsAnchor(ws: Worksheet, k: nat, row: int, col: int)
    requires WellFormed(ws)
    requires k < |ws.merges| && Covers(ws.merges[k], row, col)
    ensures row >= 1 && col >= 1
    ensures GetCellValue(ws, row, col) == Raw(ws, ws.merges[k].minRow, ws.merges[k].minCol)
    ensures GetCellValue(ws, row, col) == GetCellValue(ws, ws.merges[k].minRow, ws.merges[k].minCol)
  {
    var m := ws.merges[k];
    FirstCoveringFromSpec(ws.merges, row, col, 0);
    var first := FirstCovering(ws.merges, row, col);
    CoveringUnique(ws, first.value, k, row, col);
    assert Covers(m, m.minRow, m.minCol);
    FirstCoveringFromSpec(ws.merges, m.minRow, m.minCol, 0);
    var anchor := FirstCovering(ws.merges, m.minRow, m.minCol);
    CoveringUnique(ws, anchor.value, k, m.minRow, m.minCol);
  }

  /** Length of a `\d{1,2}:\d{2}` match at position i of s, 0 when there is none. */
  function ClockLength(s: string, i: nat): (k: nat)
    ensures k == 0 || k == 4 || k == 5
    ensures k > 0 ==> i + k <= |s| && IsDigit(s[i]) && s[i + k - 3] == ':'
  {
    if i + 4 <= |s| && IsDigit(s[i]) && s[i + 1] == ':' && IsDigit(s[i + 2]) && IsDigit(s[i + 3]) then 4
    else if i + 5 <= |s| && IsDigit(s[i]) && IsDigit(s[i + 1]) && s[i + 2] == ':'
      && IsDigit(s[i + 3]) && IsDigit(s[i + 4]) then 5
    else 0
  }

  /** First position at or after i that is not white space: where `\s*` stops. */
  function SkipSpaces(s: string, i: nat): (j: nat)
    ensures i <= j && (j <= |s| || j == i)
    ensures j < |s| ==> !IsSpace(s[j])
    decreases |s| - i
  {
    if i < |s| && IsSpace(s[i]) then SkipSpaces(s, i + 1) else i
  }

  /** The time-header pattern `\d{1,2}:\d{2}\s*[-–]\s*\d{1,2}:\d{2}` matches at i. */
  predicate TimeRangeAt(s: string, i: nat) {
    var k := ClockLength(s, i);
    k > 0 &&
      var j := SkipSpaces(s, i + k);
      j < |s| && (s[j] == '-' || s[j] == '–') && ClockLength(s, SkipSpaces(s, j + 1)) > 0
  }

  /** re.search of the time-header pattern from position i on. */
  predicate TimeRangeFrom(s: string, i: nat)
    decreases |s| - i
  {
    i < |s| && (TimeRangeAt(s, i) || TimeRangeFrom(s, i + 1))
  }

  /** The search succeeds exactly when the pattern matches at some position. */
  lemma {:induction false} TimeRangeFromSpec(s: string, i: nat)
    ensures TimeRangeFrom(s, i) <==> exists p | i <= p < |s| :: TimeRangeAt(s, p)
    decreases |s| - i
  {
    if i < |s| {
      TimeRangeFromSpec(s, i + 1);
    }
  }

  predicate HasTimeRange(s: string) {
    TimeRangeFrom(s, 0)
  }

  /** is_time_cell */
  predicate IsTimeCell(c: Cell) {
    Truthy(c) && HasTimeRange(Trim(Str(c)))
  }

  const DayNames: seq<string> := ["monday", "tuesday", "wednesday", "thursday", "friday", "saturday", "sunday"]

  /** is_day_name: a weekday written out in any letter case, or a date. */
  predicate IsDayName(c: Cell) {
    Truthy(c) && (Lower(Trim(Str(c))) in DayNames || c.Date?)
  }

  /** A cell whose trimmed, lower-cased text is "rooms". */
  predicate IsRoomsLabel(c: Cell) {
    Truthy(c) && Lower(Trim(Str(c))) == "rooms"
  }

  /** A date cell is always a day label, never a time header when str() renders
      it as "YYYY-MM-DD HH:MM:SS". */
  lemma DateIsDayName(d: Weekday, shown: string)
    ensures IsDayName(Date(d, shown))
  {
  }

  /** strip() leaves alone a string that neither starts nor ends with white space. */
  lemma TrimUnspaced(s: string)
    requires s != [] && !IsSpace(s[0]) && !IsSpace(s[|s| - 1])
    ensures Trim(s) == s
  {
    assert TrimLeft(s) == s;
  }

  lemma TimeHeaderExample()
    ensures IsTimeCell(Text("8:00-9:20"))
  {
    var u := "8:00-9:20";
    assert Trim(u) == u by { TrimUnspaced(u); }
    assert TimeRangeAt(u, 0) by {
      assert ClockLength(u, 0) == 4;
      assert SkipSpaces(u, 4) == 4;
      assert SkipSpaces(u, 5) == 5;
      assert ClockLength(u, 5) == 4;
    }
    TimeRangeFromSpec(u, 0);
  }

  /** A header with AM/PM markers between the clock times is not a time header:
      the pattern wants only white space before the dash. */
  lemma PeriodHeaderIsNotTimeCell()
    ensures !IsTimeCell(Text("10:45 AM - 12:25 PM"))
  {
    var u := "10:45 AM - 12:25 PM";
    assert Trim(u) == u by { TrimUnspaced(u); }
    forall i | 0 <= i < |u| ensures !TimeRangeAt(u, i) {
      PeriodHeaderNoMatchAt(i);
    }
    TimeRangeFromSpec(u, 0);
  }

  lemma PeriodHeaderNoMatchAt(i: nat)
    requires i < |"10:45 AM - 12:25 PM"|
    ensures !TimeRangeAt("10:45 AM - 12:25 PM", i)
  {
    var u := "10:45 AM - 12:25 PM";
    if i == 0 || i == 1 {
      NoDashAfterClock(u, i, 5);
    } else if i == 11 || i == 12 {
      NoDashAfterClock(u, i, 16);
    } else if i == 3 || i == 4 || i == 14 || i == 15 {
      assert u[i + 1] != ':' && u[i + 2] != ':';
    } else {
      assert !IsDigit(u[i]);
    }
  }

  /** A clock time followed by one space and then a letter starts no time range. */
  lemma NoDashAfterClock(s: string, i: nat, e: nat)
    requires ClockLength(s, i) > 0 && e == i + ClockLength(s, i)
    requires e + 1 < |s| && s[e] == ' ' && IsLetter(s[e + 1])
    ensures !TimeRangeAt(s, i)
  {
    assert SkipSpaces(s, e + 1) == e + 1;
  }

  /** The hour and minute texts of "H:MM". */
  predicate OneColon(s: string) {
    exists i | 0 <= i < |s| :: s[i] == ':' && ':' !in s[..i] && ':' !in s[i + 1..]
  }

  function ColonIndex(s: string): (i: nat)
    requires ':' in s
    ensures i < |s| && s[i] == ':' && ':' !in s[..i]
  {
    if s[0] == ':' then 0 else 1 + ColonIndex(s[1..])
  }

  /** What convert_to_24hour needs of time_str when a period is given:
      `hour, minute = time_str.split(':')` must unpack and int(hour) must parse. */
  predicate HourMinute(s: string) {
    ':' in s && var i := ColonIndex(s); ':' !in s[i + 1..] && s[..i] != [] && AllDigits(s[..i])
  }

  function HourText(s: string): string requires ':' in s { s[..ColonIndex(s)] }
  function MinuteText(s: string): string requires ':' in s { s[ColonIndex(s) + 1..] }

  /** The 24-hour clock hour of a 12-hour clock hour under convert_to_24hour's
      rule; any period other than AM and PM leaves the hour alone. */
  function Hour24(hour: nat, period: string): nat
  {
    if Upper(period) == "PM" && hour != 12 then hour + 12
    else if Upper(period) == "AM" && hour == 12 then 0
    else hour
  }

  /** convert_to_24hour: PM adds 12 unless the hour is 12, 12 AM becomes 00, the
      hour is zero-padded to two digits and the minutes are copied as written. */
  function Convert24Hour(timeStr: string, period: string): (r: string)
    requires period != "" ==> HourMinute(timeStr)
    ensures period == "" ==> r == timeStr
    ensures period != "" ==>
      && ':' in r && MinuteText(r) == MinuteText(timeStr)
      && |HourText(r)| >= 2 && AllDigits(HourText(r))
      && (|HourText(r)| == 2 || HourText(r)[0] != '0')
      && DigitsValue(HourText(r)) == Hour24(DigitsValue(HourText(timeStr)), period)
  {
    if period == "" then timeStr
    else
      var hh := Pad2(Hour24(DigitsValue(HourText(timeStr)), period));
      JoinAtColon(hh, MinuteText(timeStr));
      hh + ":" + MinuteText(timeStr)
  }

  /** Hours and minutes joined by a colon split back into the same two parts. */
  lemma JoinAtColon(hh: string, m: string)
    requires AllDigits(hh)
    ensures var r := hh + ":" + m; ':' in r && HourText(r) == hh && MinuteText(r) == m
  {
    var r := hh + ":" + m;
    assert ':' !in hh;
    assert r[|hh|] == ':' && r[..|hh|] == hh && r[|hh| + 1..] == m;
    ColonIndexAt(r, |hh|);
  }

  lemma ColonIndexAt(s: string, i: nat)
    requires i < |s| && s[i] == ':' && ':' !in s[..i]
    ensures ':' in s && ColonIndex(s) == i
  {
    if i > 0 {
      assert s[0] != ':' by { assert s[0] == s[..i][0]; }
      assert s[1..][..i - 1] == s[..i][1..];
      ColonIndexAt(s[1..], i - 1);
    }
  }

  /** Convert24Hour on a time written as hour digits, a colon and minutes. */
  lemma ConvertParts(t: string, period: string, hour: string, minute: string, hh: string)
    requires hour != [] && AllDigits(hour) && ':' !in minute && t == hour + ":" + minute
    requires period != "" && Pad2(Hour24(DigitsValue(hour), period)) == hh
    ensures HourMinute(t) && Convert24Hour(t, period) == hh + ":" + minute
  {
    JoinAtColon(hour, minute);
  }

  lemma Convert24HourAfternoon()
    ensures Convert24Hour("1:30", "pm") == "13:30"
  {
    assert Upper("pm") == "PM" && DigitsValue("1") == 1;
    assert Pad2(13) == "13" by { assert NatToString(13) == NatToString(1) + [DigitChar(3)]; }
    ConvertParts("1:30", "pm", "1", "30", "13");
  }

  lemma Convert24HourMorning()
    ensures Convert24Hour("10:45", "AM") == "10:45"
  {
    assert Upper("AM") == "AM" && DigitsValue("10") == 10;
    assert Pad2(10) == "10" by { assert NatToString(10) == NatToString(1) + [DigitChar(0)]; }
    ConvertParts("10:45", "AM", "10", "45", "10");
  }

  lemma Convert24HourMidnight()
    ensures Convert24Hour("12:05", "AM") == "00:05"
  {
    assert Upper("AM") == "AM" && DigitsValue("12") == 12;
    assert Pad2(0) == "00" by { assert NatToString(0) == [DigitChar(0)] == "0"; }
    ConvertParts("12:05", "AM", "12", "05", "00");
  }

  lemma Convert24HourNoon()
    ensures Convert24Hour("12:25", "PM") == "12:25"
  {
    assert Upper("PM") == "PM" && DigitsValue("12") == 12;
    assert Pad2(12) == "12" by { assert NatToString(12) == NatToString(1) + [DigitChar(2)]; }
    ConvertParts("12:25", "PM", "12", "25", "12");
  }
}

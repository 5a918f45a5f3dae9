/** convert_xlsx_to_csv: the day blocks of every worksheet, the room-by-time
    scan of each block (merged cells are listed once, from the cell the scan
    meets first), the time of each class (its own time line, or the header of
    the time columns its merged cell spans), and the final clean-up of the Time
    and Class/Group columns. */
module Records {
  import opened Strings
  import opened Sheet
  import opened Layout
  import opened Rewrite
  import opened TimeFormat
  import opened CellText

  /** One CSV row: Day, Time, Room, Subject, Class/Group, Teacher(s) Name. */
  datatype Row = Row(day: string, time: string, room: string, subject: string, group: string, teachers: string)

  /** A row together with the cell it was read from. */
  datatype Tagged = Tagged(row: int, col: int, record: Row)

  /** What detect_day_blocks hands over: rows and columns on the sheet, both
      lists strictly increasing. */
  predicate BlockOk(b: DayBlock) {
    && b.dayRow >= 1 && b.timeRow >= 1
    && (forall k | 0 <= k < |b.roomRows| :: b.roomRows[k] >= 1)
    && (forall k | 0 <= k < |b.timeCols| :: b.timeCols[k] >= 1)
    && Increasing(b.roomRows) && Increasing(b.timeCols)
  }

  /** Every block detect_day_blocks returns has that shape. */
  lemma DetectedBlocksOk(ws: Worksheet)
    requires DetectFrom(Classify(ws), 1, {}, []).Some?
    ensures forall b <- DetectFrom(Classify(ws), 1, {}, []).value :: BlockOk(b)
  {
    var m := Classify(ws);
    DetectedBlocks(m);
    forall b <- DetectFrom(m, 1, {}, []).value ensures BlockOk(b) {
      var row :| 1 <= row <= m.maxRow && BlockFromRow(m, row, b);
      BlockTimeCols(m, row, b);
      BlockRoomRows(m, row, b);
      ChooseSpec(m, row);
      forall k | 0 <= k < |b.timeCols| ensures b.timeCols[k] >= 1 {
        assert b.timeCols[k] in b.timeCols;
      }
      forall k | 0 <= k < |b.roomRows| ensures b.roomRows[k] >= 1 {
        assert b.roomRows[k] in b.roomRows;
      }
    }
  }

  /** The Day column: the weekday of a date, else the stripped text, else "Unknown". */
  function DayOf(ws: Worksheet, b: DayBlock): string
    requires BlockOk(b)
  {
    var raw := GetCellValue(ws, b.dayRow, 2);
    if raw.Date? then WeekdayName(raw.weekday)
    else if Truthy(raw) then Trim(Str(raw))
    else "Unknown"
  }

  // ---------------------------------------------------------------------------
  // Times from the header

  /** time_slots.get(col, ""): the cleaned header of a time column. */
  function TimeSlot(ws: Worksheet, b: DayBlock, col: int): string
    requires BlockOk(b)
  {
    if col in b.timeCols then CleanTimeValue(GetCellValue(ws, b.timeRow, col)) else ""
  }

  /** [tc for tc in time_cols if start_col <= tc <= end_col] */
  function Overlap(cols: seq<int>, m: MergeRange): (r: seq<int>)
    ensures forall c :: c in r <==> c in cols && m.minCol <= c <= m.maxCol
  {
    if cols == [] then []
    else (if m.minCol <= cols[0] <= m.maxCol then [cols[0]] else []) + Overlap(cols[1..], m)
  }

  /** re.search(r'(\d{1,2}:\d{2})', s) from position i. */
  function FirstClockFrom(s: string, i: nat): (r: Option<string>)
    ensures r.Some? ==> Clock(r.value)
    decreases |s| - i
  {
    if i >= |s| then None
    else if ClockLength(s, i) > 0 then Some(ClockText(s, i))
    else FirstClockFrom(s, i + 1)
  }

  /** re.search(r'(\d{1,2}:\d{2})\s*$', s) from position i: a clock time
      followed by nothing but white space. */
  function TrailingClockFrom(s: string, i: nat): (r: Option<string>)
    ensures r.Some? ==> Clock(r.value)
    decreases |s| - i
  {
    if i >= |s| then None
    else if ClockLength(s, i) > 0 && SkipSpaces(s, i + ClockLength(s, i)) == |s| then Some(ClockText(s, i))
    else TrailingClockFrom(s, i + 1)
  }

  /** What one merge range covering the cell decides: from two or more time
      columns, the first header's first time to the last header's closing time
      (None when either is missing: the search goes on); from one time column,
      that column's header; from none, nothing. */
  function RangeTime(ws: Worksheet, b: DayBlock, m: MergeRange): Option<string>
    requires BlockOk(b)
  {
    var ov := Overlap(b.timeCols, m);
    if |ov| >= 2 then
      var first := FirstClockFrom(TimeSlot(ws, b, ov[0]), 0);
      var last := TrailingClockFrom(TimeSlot(ws, b, ov[|ov| - 1]), 0);
      if first.Some? && last.Some? then Some(first.value + " - " + last.value) else None
    else if |ov| == 1 then Some(TimeSlot(ws, b, ov[0]))
    else None
  }

  /** get_merged_time_range: the loop over the merge ranges from position k on. */
  function MergedFrom(ws: Worksheet, b: DayBlock, r: int, c: int, k: nat): string
    requires BlockOk(b) && k <= |ws.merges|
    decreases |ws.merges| - k
  {
    if k == |ws.merges| then TimeSlot(ws, b, c)
    else if Covers(ws.merges[k], r, c) && RangeTime(ws, b, ws.merges[k]).Some? then RangeTime(ws, b, ws.merges[k]).value
    else MergedFrom(ws, b, r, c, k + 1)
  }

  function MergedTimeRange(ws: Worksheet, b: DayBlock, r: int, c: int): string
    requires BlockOk(b)
  {
    MergedFrom(ws, b, r, c, 0)
  }

  method GetMergedTimeRange(ws: Worksheet, b: DayBlock, r: int, c: int) returns (t: string)
    requires BlockOk(b)
    ensures t == MergedTimeRange(ws, b, r, c)
  {
    var k := 0;
    while k < |ws.merges|
      invariant 0 <= k <= |ws.merges|
      invariant MergedFrom(ws, b, r, c, k) == MergedTimeRange(ws, b, r, c)
    {
      if Covers(ws.merges[k], r, c) {
        var found := RangeTime(ws, b, ws.merges[k]);
        if found.Some? {
          return found.value;
        }
      }
      k := k + 1;
    }
    t := TimeSlot(ws, b, c);
  }

  /** A cell no merge range covers takes its own column's header. */
  lemma {:induction false} MergedUncovered(ws: Worksheet, b: DayBlock, r: int, c: int, k: nat)
    requires BlockOk(b) && k <= |ws.merges|
    requires forall p | k <= p < |ws.merges| :: !Covers(ws.merges[p], r, c)
    ensures MergedFrom(ws, b, r, c, k) == TimeSlot(ws, b, c)
    decreases |ws.merges| - k
  {
    if k < |ws.merges| {
      MergedUncovered(ws, b, r, c, k + 1);
    }
  }

  /** In a sheet whose merge ranges do not overlap, a cell inside range p
      takes what that range decides, or its own column's header when the
      range decides nothing. */
  lemma MergedInRange(ws: Worksheet, b: DayBlock, r: int, c: int, p: nat)
    requires BlockOk(b) && WellFormed(ws) && p < |ws.merges| && Covers(ws.merges[p], r, c)
    ensures MergedTimeRange(ws, b, r, c) ==
      match RangeTime(ws, b, ws.merges[p]) case Some(t) => t case None => TimeSlot(ws, b, c)
  {
    forall q | 0 <= q < |ws.merges| && q != p ensures !Covers(ws.merges[q], r, c) {
      if Covers(ws.merges[q], r, c) {
        CoveringUnique(ws, p, q, r, c);
      }
    }
    MergedSkips(ws, b, r, c, 0, p);
    MergedUncovered(ws, b, r, c, p + 1);
  }

  lemma {:induction false} MergedSkips(ws: Worksheet, b: DayBlock, r: int, c: int, k: nat, p: nat)
    requires BlockOk(b) && k <= p < |ws.merges|
    requires forall q | k <= q < p :: !Covers(ws.merges[q], r, c)
    ensures MergedFrom(ws, b, r, c, k) == MergedFrom(ws, b, r, c, p)
    decreases p - k
  {
    if k < p {
      MergedSkips(ws, b, r, c, k + 1, p);
    }
  }

  /** What a class's time from the header looks like: a column's cleaned
      header, or two clock times joined by " - ". */
  ghost predicate HeaderTime(ws: Worksheet, b: DayBlock, c: int, t: string)
    requires BlockOk(b)
  {
    t == TimeSlot(ws, b, c)
    || (exists x <- b.timeCols :: t == TimeSlot(ws, b, x))
    || (exists s, e | Clock(s) && Clock(e) :: t == s + " - " + e)
  }

  lemma {:induction false} MergedFromShape(ws: Worksheet, b: DayBlock, r: int, c: int, k: nat)
    requires BlockOk(b) && k <= |ws.merges|
    ensures HeaderTime(ws, b, c, MergedFrom(ws, b, r, c, k))
    decreases |ws.merges| - k
  {
    if k < |ws.merges| {
      if Covers(ws.merges[k], r, c) && RangeTime(ws, b, ws.merges[k]).Some? {
        RangeTimeShape(ws, b, ws.merges[k]);
      } else {
        MergedFromShape(ws, b, r, c, k + 1);
      }
    }
  }

  lemma RangeTimeShape(ws: Worksheet, b: DayBlock, m: MergeRange)
    requires BlockOk(b) && RangeTime(ws, b, m).Some?
    ensures var t := RangeTime(ws, b, m).value;
      (exists x <- b.timeCols :: t == TimeSlot(ws, b, x))
      || (exists s, e | Clock(s) && Clock(e) :: t == s + " - " + e)
  {
    var ov := Overlap(b.timeCols, m);
    if |ov| == 1 {
      assert ov[0] in ov;
    }
  }

  /** Every header-derived time is a cleaned header or a clock range; a clock
      range already has the form fix_time_format gives it. */
  lemma MergedTimeShape(ws: Worksheet, b: DayBlock, r: int, c: int)
    requires BlockOk(b)
    ensures HeaderTime(ws, b, c, MergedTimeRange(ws, b, r, c))
  {
    MergedFromShape(ws, b, r, c, 0);
  }

  lemma ClockRangeCanonical(s: string, e: string)
    requires Clock(s) && Clock(e)
    ensures FixTimeFormat(s + " - " + e) == s + " - " + e
  {
    FixTimeRange(s, " ", '-', " ", e);
    SpacedLiteral(s, e);
  }

  // ---------------------------------------------------------------------------
  // One cell of the scan

  /** The row a class cell gives: its own time if it named one, else the
      header's time. */
  function MakeRow(ws: Worksheet, b: DayBlock, day: string, r: int, c: int,
                   subject: string, group: string, teachers: string, slot: Option<string>): Row
    requires BlockOk(b) && r >= 1
  {
    var time := match slot case Some(t) => t case None => MergedTimeRange(ws, b, r, c);
    Row(day, time, Trim(Str(GetCellValue(ws, r, 2))), subject, group, teachers)
  }

  /** The row cell (r, c) gives, if it holds a class. */
  function RecordAt(ws: Worksheet, b: DayBlock, day: string, r: int, c: int): Option<Row>
    requires BlockOk(b) && r >= 1 && c >= 1
  {
    var v := GetCellValue(ws, r, c);
    if !Truthy(v) then None
    else match ReadCell(Str(v))
      case Entry(subject, group, teachers, slot) => Some(MakeRow(ws, b, day, r, c, subject, group, teachers, slot))
      case _ => None
  }

  /** The cells of a merge range that lie in the block's time columns. */
  function RangeCells(m: MergeRange, cols: seq<int>): set<(int, int)> {
    set mr: int, mc: int | m.minRow <= mr <= m.maxRow && mc in cols && m.minCol <= mc <= m.maxCol :: (mr, mc)
  }

  /** The cells marked processed when (r, c) is read: the time-column cells of
      the first range covering it, or the cell alone. */
  function Claimed(ws: Worksheet, b: DayBlock, r: int, c: int): set<(int, int)> {
    match FirstCovering(ws.merges, r, c)
    case Some(k) => RangeCells(ws.merges[k], b.timeCols)
    case None => {(r, c)}
  }

  predicate Uncovered(ws: Worksheet, r: int, c: int) {
    FirstCovering(ws.merges, r, c).None?
  }

  /** A cell of the block claims itself; everything else it claims lies in a
      merge range. */
  lemma ClaimedSpec(ws: Worksheet, b: DayBlock, r: int, c: int)
    requires c in b.timeCols
    ensures (r, c) in Claimed(ws, b, r, c)
    ensures forall p <- Claimed(ws, b, r, c) :: p == (r, c) || !Uncovered(ws, p.0, p.1)
  {
    FirstCoveringFromSpec(ws.merges, r, c, 0);
    match FirstCovering(ws.merges, r, c)
    case None =>
    case Some(k) =>
      forall p <- Claimed(ws, b, r, c) ensures !Uncovered(ws, p.0, p.1) {
        assert Covers(ws.merges[k], p.0, p.1);
        FirstCoveringFromSpec(ws.merges, p.0, p.1, 0);
      }
  }

  datatype StepResult = Halt | Next(processed: set<(int, int)>, added: seq<Tagged>)

  /** One pass of the inner loop: skip a processed or empty cell; otherwise
      mark it (and its merge range) processed and read it. */
  function Step(ws: Worksheet, b: DayBlock, day: string, r: int, c: int, processed: set<(int, int)>): StepResult
    requires BlockOk(b) && r >= 1 && c >= 1
  {
    if (r, c) in processed then Next(processed, [])
    else
      var v := GetCellValue(ws, r, c);
      if !Truthy(v) then Next(processed, [])
      else
        var marked := processed + Claimed(ws, b, r, c);
        match ReadCell(Str(v))
        case Crash => Halt
        case Skip => Next(marked, [])
        case Entry(subject, group, teachers, slot) =>
          Next(marked, [Tagged(r, c, MakeRow(ws, b, day, r, c, subject, group, teachers, slot))])
  }

  /** The scan over room rows i.. and, in room row i, time columns j..; None
      when a cell's text is blank (lines[0] raises IndexError). */
  function ScanFrom(ws: Worksheet, b: DayBlock, day: string, i: nat, j: nat, processed: set<(int, int)>, acc: seq<Tagged>): Option<seq<Tagged>>
    requires BlockOk(b) && i <= |b.roomRows| && j <= |b.timeCols|
    decreases |b.roomRows| - i, |b.timeCols| - j
  {
    if i == |b.roomRows| then Some(acc)
    else if j == |b.timeCols| then ScanFrom(ws, b, day, i + 1, 0, processed, acc)
    else
      match Step(ws, b, day, b.roomRows[i], b.timeCols[j], processed)
      case Halt => None
      case Next(marked, added) => ScanFrom(ws, b, day, i, j + 1, marked, acc + added)
  }

  function RecordsOf(es: seq<Tagged>): (rows: seq<Row>)
    ensures |rows| == |es| && forall k | 0 <= k < |es| :: rows[k] == es[k].record
  {
    if es == [] then [] else RecordsOf(es[..|es| - 1]) + [es[|es| - 1].record]
  }

  /** The rows one block contributes. */
  function BlockRows(ws: Worksheet, b: DayBlock): Option<seq<Row>>
    requires BlockOk(b)
  {
    match ScanFrom(ws, b, DayOf(ws, b), 0, 0, {}, [])
    case None => None
    case Some(es) => Some(RecordsOf(es))
  }

  /** The scan of a whole block, rows tagged with their cells. */
  function BlockScan(ws: Worksheet, b: DayBlock): Option<seq<Tagged>>
    requires BlockOk(b)
  {
    ScanFrom(ws, b, DayOf(ws, b), 0, 0, {}, [])
  }

  /** A listed row was read from a cell of the block that holds a class. */
  predicate Sound(ws: Worksheet, b: DayBlock, day: string, e: Tagged)
    requires BlockOk(b)
  {
    && e.row >= 1 && e.col >= 1 && e.row in b.roomRows && e.col in b.timeCols
    && RecordAt(ws, b, day, e.row, e.col) == Some(e.record)
  }

  /** A non-empty cell whose text is only white space: lines[0] fails on it. */
  predicate CrashCell(ws: Worksheet, r: int, c: int)
    requires r >= 1 && c >= 1
  {
    var v := GetCellValue(ws, r, c);
    Truthy(v) && ReadCell(Str(v)).Crash?
  }

  /** What one pass of the inner loop does, cell by cell. */
  lemma StepSpec(ws: Worksheet, b: DayBlock, day: string, r: int, c: int, processed: set<(int, int)>)
    requires BlockOk(b) && r >= 1 && c >= 1
    ensures Step(ws, b, day, r, c, processed).Halt? <==> (r, c) !in processed && CrashCell(ws, r, c)
    ensures match Step(ws, b, day, r, c, processed)
      case Halt => true
      case Next(marked, added) =>
        && processed <= marked <= processed + Claimed(ws, b, r, c)
        && ((r, c) in processed ==> added == [] && marked == processed)
        && ((r, c) !in processed && Truthy(GetCellValue(ws, r, c)) ==> marked == processed + Claimed(ws, b, r, c))
        && (added == [] || added == [Tagged(r, c, RecordAt(ws, b, day, r, c).value)])
        && ((r, c) !in processed ==>
              (added != [] <==> RecordAt(ws, b, day, r, c).Some?))
  {
  }

  /** Every row the scan lists comes from a class cell of the block, and what
      was listed before stays in front. */
  lemma {:induction false} ScanSound(ws: Worksheet, b: DayBlock, day: string, i: nat, j: nat, processed: set<(int, int)>, acc: seq<Tagged>)
    requires BlockOk(b) && i <= |b.roomRows| && j <= |b.timeCols|
    requires ScanFrom(ws, b, day, i, j, processed, acc).Some?
    ensures var es := ScanFrom(ws, b, day, i, j, processed, acc).value;
      acc <= es && forall k | |acc| <= k < |es| :: Sound(ws, b, day, es[k])
    decreases |b.roomRows| - i, |b.timeCols| - j
  {
    if i == |b.roomRows| {
    } else if j == |b.timeCols| {
      ScanSound(ws, b, day, i + 1, 0, processed, acc);
    } else {
      var r, c := b.roomRows[i], b.timeCols[j];
      StepSpec(ws, b, day, r, c, processed);
      match Step(ws, b, day, r, c, processed)
      case Next(marked, added) =>
        ScanSound(ws, b, day, i, j + 1, marked, acc + added);
        assert r in b.roomRows && c in b.timeCols;
    }
  }

  /** A later row never comes from a cell an earlier row claimed: a merged
      class is listed once, and no cell twice. */
  lemma {:induction false} ScanApart(ws: Worksheet, b: DayBlock, day: string, i: nat, j: nat, processed: set<(int, int)>, acc: seq<Tagged>)
    requires BlockOk(b) && i <= |b.roomRows| && j <= |b.timeCols|
    requires ScanFrom(ws, b, day, i, j, processed, acc).Some?
    requires forall e <- acc :: Claimed(ws, b, e.row, e.col) <= processed
    requires forall k1, k2 | 0 <= k1 < k2 < |acc| :: (acc[k2].row, acc[k2].col) !in Claimed(ws, b, acc[k1].row, acc[k1].col)
    ensures var es := ScanFrom(ws, b, day, i, j, processed, acc).value;
      forall k1, k2 | 0 <= k1 < k2 < |es| :: (es[k2].row, es[k2].col) !in Claimed(ws, b, es[k1].row, es[k1].col)
    decreases |b.roomRows| - i, |b.timeCols| - j
  {
    if i == |b.roomRows| {
    } else if j == |b.timeCols| {
      ScanApart(ws, b, day, i + 1, 0, processed, acc);
    } else {
      var r, c := b.roomRows[i], b.timeCols[j];
      StepSpec(ws, b, day, r, c, processed);
      match Step(ws, b, day, r, c, processed)
      case Next(marked, added) =>
        var acc' := acc + added;
        forall k1, k2 | 0 <= k1 < k2 < |acc'|
          ensures (acc'[k2].row, acc'[k2].col) !in Claimed(ws, b, acc'[k1].row, acc'[k1].col)
        {
          if k2 == |acc| {
            assert acc'[k1] in acc;
          }
        }
        ScanApart(ws, b, day, i, j + 1, marked, acc');
    }
  }

  /** Cell p was met before position (i, j) of the scan. */
  predicate Before(b: DayBlock, i: nat, j: nat, p: (int, int)) {
    p.0 in b.roomRows[..Min(i, |b.roomRows|)]
    || (i < |b.roomRows| && p.0 == b.roomRows[i] && p.1 in b.timeCols[..Min(j, |b.timeCols|)])
  }

  /** Only cells already met, or cells inside a merge range, are processed. */
  predicate NotAhead(ws: Worksheet, b: DayBlock, i: nat, j: nat, processed: set<(int, int)>) {
    forall p <- processed :: !Uncovered(ws, p.0, p.1) || Before(b, i, j, p)
  }

  lemma NotAheadStep(ws: Worksheet, b: DayBlock, i: nat, j: nat, processed: set<(int, int)>, marked: set<(int, int)>)
    requires BlockOk(b) && i < |b.roomRows| && j < |b.timeCols| && NotAhead(ws, b, i, j, processed)
    requires marked <= processed + Claimed(ws, b, b.roomRows[i], b.timeCols[j])
    ensures NotAhead(ws, b, i, j + 1, marked)
  {
    var r, c := b.roomRows[i], b.timeCols[j];
    assert c in b.timeCols;
    ClaimedSpec(ws, b, r, c);
    forall p <- marked ensures !Uncovered(ws, p.0, p.1) || Before(b, i, j + 1, p) {
      if p in processed && Before(b, i, j, p) && p.0 == r && i < |b.roomRows| {
        assert b.timeCols[..j] <= b.timeCols[..j + 1];
      } else if p == (r, c) {
        assert b.timeCols[..j + 1][j] == c;
      }
    }
  }

  lemma NotAheadRow(ws: Worksheet, b: DayBlock, i: nat, processed: set<(int, int)>)
    requires i < |b.roomRows| && NotAhead(ws, b, i, |b.timeCols|, processed)
    ensures NotAhead(ws, b, i + 1, 0, processed)
  {
    forall p <- processed | Before(b, i, |b.timeCols|, p) ensures Before(b, i + 1, 0, p) {
      if p.0 == b.roomRows[i] {
        assert b.roomRows[..i + 1][i] == p.0;
      } else {
        assert b.roomRows[..i] <= b.roomRows[..i + 1];
      }
    }
  }

  /** The cell at position (i, j) of the scan has not been met before it. */
  lemma NotBefore(b: DayBlock, i: nat, j: nat)
    requires BlockOk(b) && i < |b.roomRows| && j < |b.timeCols|
    ensures !Before(b, i, j, (b.roomRows[i], b.timeCols[j]))
  {
  }

  /** Cell (i2, j2) of the block lies at or after position (i, j) of the scan. */
  predicate Ahead(b: DayBlock, i: nat, j: nat, i2: int, j2: int) {
    i <= i2 < |b.roomRows| && 0 <= j2 < |b.timeCols| && (i < i2 || j <= j2)
  }

  /** Cell (i2, j2) of the block is not a blank-text cell and, if it holds a
      class, its row is among es. */
  predicate Listed(ws: Worksheet, b: DayBlock, day: string, es: seq<Tagged>, i2: int, j2: int)
    requires BlockOk(b) && 0 <= i2 < |b.roomRows| && 0 <= j2 < |b.timeCols|
  {
    var r, c := b.roomRows[i2], b.timeCols[j2];
    && !CrashCell(ws, r, c)
    && (RecordAt(ws, b, day, r, c).Some? ==> Tagged(r, c, RecordAt(ws, b, day, r, c).value) in es)
  }

  /** The cell the scan is at, when no merge range covers it, is listed. */
  lemma CellListed(ws: Worksheet, b: DayBlock, day: string, i: nat, j: nat, processed: set<(int, int)>, acc: seq<Tagged>)
    requires BlockOk(b) && i < |b.roomRows| && j < |b.timeCols|
    requires ScanFrom(ws, b, day, i, j, processed, acc).Some? && NotAhead(ws, b, i, j, processed)
    requires Uncovered(ws, b.roomRows[i], b.timeCols[j])
    ensures Listed(ws, b, day, ScanFrom(ws, b, day, i, j, processed, acc).value, i, j)
  {
    var r, c := b.roomRows[i], b.timeCols[j];
    StepSpec(ws, b, day, r, c, processed);
    NotBefore(b, i, j);
    assert (r, c) !in processed;
    match Step(ws, b, day, r, c, processed)
    case Next(marked, added) =>
      ScanSound(ws, b, day, i, j + 1, marked, acc + added);
      if RecordAt(ws, b, day, r, c).Some? {
        assert (acc + added)[|acc|] in ScanFrom(ws, b, day, i, j, processed, acc).value;
      }
  }

  /** Every class cell that no merge range covers, at or after the scan's
      position, is listed, and none of them is a blank-text cell (the scan
      would have stopped there). */
  lemma {:induction false} ScanComplete(ws: Worksheet, b: DayBlock, day: string, i: nat, j: nat, processed: set<(int, int)>, acc: seq<Tagged>)
    requires BlockOk(b) && i <= |b.roomRows| && j <= |b.timeCols|
    requires ScanFrom(ws, b, day, i, j, processed, acc).Some? && NotAhead(ws, b, i, j, processed)
    ensures forall i2, j2 | Ahead(b, i, j, i2, j2) && Uncovered(ws, b.roomRows[i2], b.timeCols[j2]) ::
      Listed(ws, b, day, ScanFrom(ws, b, day, i, j, processed, acc).value, i2, j2)
    decreases |b.roomRows| - i, |b.timeCols| - j
  {
    if i == |b.roomRows| {
    } else if j == |b.timeCols| {
      NotAheadRow(ws, b, i, processed);
      ScanComplete(ws, b, day, i + 1, 0, processed, acc);
      var es := ScanFrom(ws, b, day, i + 1, 0, processed, acc).value;
      assert ScanFrom(ws, b, day, i, j, processed, acc).value == es;
      forall i2, j2 | Ahead(b, i, j, i2, j2) && Uncovered(ws, b.roomRows[i2], b.timeCols[j2])
        ensures Listed(ws, b, day, es, i2, j2)
      {
        assert Ahead(b, i + 1, 0, i2, j2);
      }
    } else {
      var r, c := b.roomRows[i], b.timeCols[j];
      var st := Step(ws, b, day, r, c, processed);
      StepSpec(ws, b, day, r, c, processed);
      var es := ScanFrom(ws, b, day, i, j + 1, st.processed, acc + st.added).value;
      assert ScanFrom(ws, b, day, i, j, processed, acc).value == es;
      NotAheadStep(ws, b, i, j, processed, st.processed);
      ScanComplete(ws, b, day, i, j + 1, st.processed, acc + st.added);
      if Uncovered(ws, r, c) {
        CellListed(ws, b, day, i, j, processed, acc);
      }
      forall i2, j2 | Ahead(b, i, j, i2, j2) && Uncovered(ws, b.roomRows[i2], b.timeCols[j2])
        ensures Listed(ws, b, day, es, i2, j2)
      {
        if i2 != i || j2 != j {
          assert Ahead(b, i, j + 1, i2, j2);
        }
      }
    }
  }

  /** In a well-formed sheet every cell a block cell claims reads as that cell
      does: both read as the anchor of the one range covering them. */
  lemma ClaimedSameValue(ws: Worksheet, b: DayBlock, r: int, c: int)
    requires WellFormed(ws) && r >= 1 && c >= 1
    ensures forall p <- Claimed(ws, b, r, c) :: p.0 >= 1 && p.1 >= 1 && GetCellValue(ws, p.0, p.1) == GetCellValue(ws, r, c)
  {
    FirstCoveringFromSpec(ws.merges, r, c, 0);
    match FirstCovering(ws.merges, r, c)
    case None =>
    case Some(k) =>
      MergedCellReadsAnchor(ws, k, r, c);
      forall p <- Claimed(ws, b, r, c)
        ensures p.0 >= 1 && p.1 >= 1 && GetCellValue(ws, p.0, p.1) == GetCellValue(ws, r, c)
      {
        MergedCellReadsAnchor(ws, k, p.0, p.1);
      }
  }

  /** Every processed cell that reads as a class lies in the cells some row
      of acc claimed. */
  predicate ClaimsCovered(ws: Worksheet, b: DayBlock, day: string, processed: set<(int, int)>, acc: seq<Tagged>)
    requires BlockOk(b)
  {
    forall p <- processed | p.0 >= 1 && p.1 >= 1 && RecordAt(ws, b, day, p.0, p.1).Some? ::
      exists e <- acc :: p in Claimed(ws, b, e.row, e.col)
  }

  /** One pass of the inner loop keeps ClaimsCovered: a cell that reads as a
      class claims its range for its own row, and a cell that reads as
      something else claims only cells that read the same. */
  lemma StepCovers(ws: Worksheet, b: DayBlock, day: string, i: nat, j: nat, processed: set<(int, int)>, acc: seq<Tagged>)
    requires WellFormed(ws) && BlockOk(b) && i < |b.roomRows| && j < |b.timeCols|
    requires ClaimsCovered(ws, b, day, processed, acc)
    ensures var r, c := b.roomRows[i], b.timeCols[j];
      match Step(ws, b, day, r, c, processed)
      case Halt => true
      case Next(marked, added) =>
        && ClaimsCovered(ws, b, day, marked, acc + added)
        && (RecordAt(ws, b, day, r, c).Some? ==> (r, c) in marked)
  {
    var r, c := b.roomRows[i], b.timeCols[j];
    assert c in b.timeCols;
    StepSpec(ws, b, day, r, c, processed);
    ClaimedSpec(ws, b, r, c);
    ClaimedSameValue(ws, b, r, c);
    match Step(ws, b, day, r, c, processed)
    case Halt =>
    case Next(marked, added) =>
      var acc' := acc + added;
      forall p <- marked | p.0 >= 1 && p.1 >= 1 && RecordAt(ws, b, day, p.0, p.1).Some?
        ensures exists e <- acc' :: p in Claimed(ws, b, e.row, e.col)
      {
        if p in processed {
          var e :| e in acc && p in Claimed(ws, b, e.row, e.col);
          assert e in acc';
        } else {
          assert p in Claimed(ws, b, r, c);
          assert RecordAt(ws, b, day, r, c).Some?;
          assert acc'[|acc|] in acc';
        }
      }
  }

  /** Every cell at or after the scan's position that reads as a class, and
      every processed cell that does, lies in the cells some listed row
      claimed. */
  lemma {:induction false} ScanCovers(ws: Worksheet, b: DayBlock, day: string, i: nat, j: nat, processed: set<(int, int)>, acc: seq<Tagged>)
    requires WellFormed(ws) && BlockOk(b) && i <= |b.roomRows| && j <= |b.timeCols|
    requires ScanFrom(ws, b, day, i, j, processed, acc).Some? && ClaimsCovered(ws, b, day, processed, acc)
    ensures var es := ScanFrom(ws, b, day, i, j, processed, acc).value;
      && ClaimsCovered(ws, b, day, processed, es)
      && forall i2, j2 | Ahead(b, i, j, i2, j2) && RecordAt(ws, b, day, b.roomRows[i2], b.timeCols[j2]).Some? ::
           exists e <- es :: (b.roomRows[i2], b.timeCols[j2]) in Claimed(ws, b, e.row, e.col)
    decreases |b.roomRows| - i, |b.timeCols| - j
  {
    if i == |b.roomRows| {
    } else if j == |b.timeCols| {
      ScanCovers(ws, b, day, i + 1, 0, processed, acc);
      var es := ScanFrom(ws, b, day, i + 1, 0, processed, acc).value;
      forall i2, j2 | Ahead(b, i, j, i2, j2) && RecordAt(ws, b, day, b.roomRows[i2], b.timeCols[j2]).Some?
        ensures exists e <- es :: (b.roomRows[i2], b.timeCols[j2]) in Claimed(ws, b, e.row, e.col)
      {
        assert Ahead(b, i + 1, 0, i2, j2);
      }
    } else {
      var r, c := b.roomRows[i], b.timeCols[j];
      StepCovers(ws, b, day, i, j, processed, acc);
      StepSpec(ws, b, day, r, c, processed);
      var st := Step(ws, b, day, r, c, processed);
      ScanCovers(ws, b, day, i, j + 1, st.processed, acc + st.added);
      var es := ScanFrom(ws, b, day, i, j + 1, st.processed, acc + st.added).value;
      assert ScanFrom(ws, b, day, i, j, processed, acc).value == es;
      forall i2, j2 | Ahead(b, i, j, i2, j2) && RecordAt(ws, b, day, b.roomRows[i2], b.timeCols[j2]).Some?
        ensures exists e <- es :: (b.roomRows[i2], b.timeCols[j2]) in Claimed(ws, b, e.row, e.col)
      {
        if i2 != i || j2 != j {
          assert Ahead(b, i, j + 1, i2, j2);
        } else {
          assert (r, c) in st.processed;
        }
      }
    }
  }

  /** What the scan of one block lists: rows read from class cells of the
      block, no merged class twice, every class cell no merge range covers;
      and, in a well-formed sheet, every cell of the block that reads as a
      class (a merged one too) lies in what some listed row claimed. */
  lemma BlockScanSpec(ws: Worksheet, b: DayBlock)
    requires BlockOk(b) && BlockScan(ws, b).Some?
    ensures var es := BlockScan(ws, b).value;
      && (forall e <- es :: Sound(ws, b, DayOf(ws, b), e))
      && (forall k1, k2 | 0 <= k1 < k2 < |es| :: (es[k2].row, es[k2].col) !in Claimed(ws, b, es[k1].row, es[k1].col))
      && (forall i, j | 0 <= i < |b.roomRows| && 0 <= j < |b.timeCols| && Uncovered(ws, b.roomRows[i], b.timeCols[j]) ::
            Listed(ws, b, DayOf(ws, b), es, i, j))
      && (WellFormed(ws) ==>
            forall i, j | 0 <= i < |b.roomRows| && 0 <= j < |b.timeCols| &&
              RecordAt(ws, b, DayOf(ws, b), b.roomRows[i], b.timeCols[j]).Some? ::
              exists e <- es :: (b.roomRows[i], b.timeCols[j]) in Claimed(ws, b, e.row, e.col))
  {
    var day := DayOf(ws, b);
    ScanSound(ws, b, day, 0, 0, {}, []);
    ScanApart(ws, b, day, 0, 0, {}, []);
    ScanComplete(ws, b, day, 0, 0, {}, []);
    if WellFormed(ws) {
      ScanCovers(ws, b, day, 0, 0, {}, []);
      var es := BlockScan(ws, b).value;
      forall i, j | 0 <= i < |b.roomRows| && 0 <= j < |b.timeCols| &&
        RecordAt(ws, b, day, b.roomRows[i], b.timeCols[j]).Some?
        ensures exists e <- es :: (b.roomRows[i], b.timeCols[j]) in Claimed(ws, b, e.row, e.col)
      {
        assert Ahead(b, 0, 0, i, j);
      }
    }
  }

  /** No cell gives two rows. */
  lemma BlockScanDistinct(ws: Worksheet, b: DayBlock)
    requires BlockOk(b) && BlockScan(ws, b).Some?
    ensures var es := BlockScan(ws, b).value;
      forall k1, k2 | 0 <= k1 < k2 < |es| :: (es[k1].row, es[k1].col) != (es[k2].row, es[k2].col)
  {
    var es := BlockScan(ws, b).value;
    BlockScanSpec(ws, b);
    forall k1, k2 | 0 <= k1 < k2 < |es| ensures (es[k1].row, es[k1].col) != (es[k2].row, es[k2].col) {
      assert es[k1] in es;
      ClaimedSpec(ws, b, es[k1].row, es[k1].col);
    }
  }

  /** The scan of a block fails exactly when it meets a blank-text cell: one
      exists in the block, and none of them lies outside every merge range. */
  lemma BlockScanCrash(ws: Worksheet, b: DayBlock)
    requires BlockOk(b) && BlockScan(ws, b).None?
    ensures exists i, j | 0 <= i < |b.roomRows| && 0 <= j < |b.timeCols| :: CrashCell(ws, b.roomRows[i], b.timeCols[j])
  {
    ScanCrash(ws, b, DayOf(ws, b), 0, 0, {}, []);
  }

  /** The scan stops only at a blank-text cell of the block. */
  lemma {:induction false} ScanCrash(ws: Worksheet, b: DayBlock, day: string, i: nat, j: nat, processed: set<(int, int)>, acc: seq<Tagged>)
    requires BlockOk(b) && i <= |b.roomRows| && j <= |b.timeCols|
    requires ScanFrom(ws, b, day, i, j, processed, acc).None?
    ensures exists i2, j2 | Ahead(b, i, j, i2, j2) :: CrashCell(ws, b.roomRows[i2], b.timeCols[j2])
    decreases |b.roomRows| - i, |b.timeCols| - j
  {
    if i == |b.roomRows| {
    } else if j == |b.timeCols| {
      ScanCrash(ws, b, day, i + 1, 0, processed, acc);
      var i2, j2 :| Ahead(b, i + 1, 0, i2, j2) && CrashCell(ws, b.roomRows[i2], b.timeCols[j2]);
      assert Ahead(b, i, j, i2, j2);
    } else {
      var r, c := b.roomRows[i], b.timeCols[j];
      StepSpec(ws, b, day, r, c, processed);
      match Step(ws, b, day, r, c, processed)
      case Halt =>
        assert Ahead(b, i, j, i, j);
      case Next(marked, added) =>
        ScanCrash(ws, b, day, i, j + 1, marked, acc + added);
        var i2, j2 :| Ahead(b, i, j + 1, i2, j2) && CrashCell(ws, b.roomRows[i2], b.timeCols[j2]);
        assert Ahead(b, i, j, i2, j2);
    }
  }

  // ---------------------------------------------------------------------------
  // The scan as the converter runs it

  /** The nested loops that mark every time-column cell of a merge range. */
  method MarkRange(processed: set<(int, int)>, m: MergeRange, cols: seq<int>) returns (marked: set<(int, int)>)
    ensures marked == processed + RangeCells(m, cols)
  {
    marked := processed;
    var mr := m.minRow;
    while mr <= m.maxRow
      invariant m.minRow <= mr && (mr <= m.maxRow + 1 || mr == m.minRow)
      invariant marked == processed + RowsBelow(m, cols, mr)
      decreases m.maxRow - mr
    {
      var mc := m.minCol;
      while mc <= m.maxCol
        invariant m.minCol <= mc && (mc <= m.maxCol + 1 || mc == m.minCol)
        invariant marked == processed + RowsBelow(m, cols, mr) + RowPart(m, cols, mr, mc)
        decreases m.maxCol - mc
      {
        if mc in cols {
          marked := marked + {(mr, mc)};
        }
        RowPartNext(m, cols, mr, mc);
        mc := mc + 1;
      }
      RowsBelowNext(m, cols, mr, mc);
      mr := mr + 1;
    }
    RowsBelowAll(m, cols, mr);
  }

  /** The time-column cells of the range in rows before hi. */
  function RowsBelow(m: MergeRange, cols: seq<int>, hi: int): set<(int, int)> {
    set mr: int, mc: int | m.minRow <= mr < hi && mr <= m.maxRow && mc in cols && m.minCol <= mc <= m.maxCol :: (mr, mc)
  }

  /** The time-column cells of row mr of the range in columns before hi. */
  function RowPart(m: MergeRange, cols: seq<int>, mr: int, hi: int): set<(int, int)> {
    set mc: int | mc in cols && m.minCol <= mc < hi && mc <= m.maxCol :: (mr, mc)
  }

  lemma RowPartNext(m: MergeRange, cols: seq<int>, mr: int, mc: int)
    requires m.minCol <= mc <= m.maxCol
    ensures RowPart(m, cols, mr, mc + 1) == RowPart(m, cols, mr, mc) + (if mc in cols then {(mr, mc)} else {})
  {
  }

  lemma RowsBelowNext(m: MergeRange, cols: seq<int>, mr: int, mc: int)
    requires m.minRow <= mr <= m.maxRow && mc > m.maxCol
    ensures RowsBelow(m, cols, mr + 1) == RowsBelow(m, cols, mr) + RowPart(m, cols, mr, mc)
  {
    forall p | p in RowsBelow(m, cols, mr + 1) ensures p in RowsBelow(m, cols, mr) + RowPart(m, cols, mr, mc) {
      if p.0 == mr {
        assert p == (mr, p.1);
      }
    }
  }

  lemma RowsBelowAll(m: MergeRange, cols: seq<int>, mr: int)
    requires mr > m.maxRow
    ensures RowsBelow(m, cols, mr) == RangeCells(m, cols)
  {
  }

  /** The first range covering the cell: the for loop with its break. */
  method FindCovering(merges: seq<MergeRange>, r: int, c: int) returns (res: Option<nat>)
    ensures res == FirstCovering(merges, r, c)
  {
    var k := 0;
    while k < |merges|
      invariant 0 <= k <= |merges|
      invariant FirstCoveringFrom(merges, r, c, k) == FirstCovering(merges, r, c)
    {
      if Covers(merges[k], r, c) {
        return Some(k);
      }
      k := k + 1;
    }
    return None;
  }

  method MarkProcessed(ws: Worksheet, b: DayBlock, processed: set<(int, int)>, r: int, c: int) returns (marked: set<(int, int)>)
    ensures marked == processed + Claimed(ws, b, r, c)
  {
    var k := FindCovering(ws.merges, r, c);
    if k.Some? {
      FirstCoveringFromSpec(ws.merges, r, c, 0);
      marked := MarkRange(processed, ws.merges[k.value], b.timeCols);
    } else {
      marked := processed + {(r, c)};
    }
  }

  /** One pass of the inner loop at cell (r, c) of room row r, whose room
      text is room. */
  method VisitCell(ws: Worksheet, b: DayBlock, day: string, r: int, c: int, room: string, processed: set<(int, int)>)
    returns (res: StepResult)
    requires BlockOk(b) && r >= 1 && c >= 1 && room == Trim(Str(GetCellValue(ws, r, 2)))
    ensures res == Step(ws, b, day, r, c, processed)
  {
    if (r, c) in processed {
      return Next(processed, []);
    }
    var v := GetCellValue(ws, r, c);
    if !Truthy(v) {
      return Next(processed, []);
    }
    var marked := MarkProcessed(ws, b, processed, r, c);
    var out := ParseCell(Str(v));
    match out
    case Crash => res := Halt;
    case Skip => res := Next(marked, []);
    case Entry(subject, group, teachers, slot) =>
      var time;
      if slot.Some? {
        time := slot.value;
      } else {
        time := GetMergedTimeRange(ws, b, r, c);
      }
      res := Next(marked, [Tagged(r, c, Row(day, time, room, subject, group, teachers))]);
  }

  /** The loop over room rows and time columns of one block. */
  method BuildBlockRows(ws: Worksheet, b: DayBlock) returns (res: Option<seq<Row>>)
    requires BlockOk(b)
    ensures res == BlockRows(ws, b)
  {
    var day := DayOf(ws, b);
    var found: seq<Tagged> := [];
    var processed: set<(int, int)> := {};
    var i := 0;
    while i < |b.roomRows|
      invariant 0 <= i <= |b.roomRows|
      invariant ScanFrom(ws, b, day, i, 0, processed, found) == ScanFrom(ws, b, day, 0, 0, {}, [])
    {
      var r := b.roomRows[i];
      var room := Trim(Str(GetCellValue(ws, r, 2)));
      var j := 0;
      while j < |b.timeCols|
        invariant 0 <= j <= |b.timeCols|
        invariant ScanFrom(ws, b, day, i, j, processed, found) == ScanFrom(ws, b, day, 0, 0, {}, [])
      {
        var step := VisitCell(ws, b, day, r, b.timeCols[j], room, processed);
        if step.Halt? {
          return None;
        }
        processed, found := step.processed, found + step.added;
        j := j + 1;
      }
      i := i + 1;
    }
    res := Some(RecordsOf(found));
  }

  // ---------------------------------------------------------------------------
  // What a listed row holds

  /** The columns a class row always satisfies: its subject is one stripped,
      non-blank line that is not a filler subject, and its teacher column has
      no comma. */
  predicate RowOk(row: Row) {
    Tidy(row.subject) && '\n' !in row.subject && Lower(row.subject) !in SkipSubjects && ',' !in row.teachers
  }

  /** The row of a class cell: the block's day, the stripped room label of its
      room row, a well-formed subject and teacher column, and as its time the
      cell's own time line when it had one and the header's time otherwise. */
  lemma RecordAtSpec(ws: Worksheet, b: DayBlock, day: string, r: int, c: int)
    requires BlockOk(b) && r >= 1 && c >= 1 && RecordAt(ws, b, day, r, c).Some?
    ensures var row := RecordAt(ws, b, day, r, c).value;
      var out := ReadCell(Str(GetCellValue(ws, r, c)));
      && Truthy(GetCellValue(ws, r, c)) && out.Entry?
      && RowOk(row) && row.day == day && row.room == Trim(Str(GetCellValue(ws, r, 2)))
      && row.subject == out.subject && row.group == out.groups && row.teachers == out.teachers
      && (out.slot.Some? ==> row.time == out.slot.value)
      && (out.slot.None? ==> row.time == MergedTimeRange(ws, b, r, c))
  {
    ReadCellSpec(Str(GetCellValue(ws, r, c)));
  }

  /** Every row of a block is a class row carrying the block's day. */
  lemma BlockRowsSpec(ws: Worksheet, b: DayBlock)
    requires BlockOk(b) && BlockRows(ws, b).Some?
    ensures forall row <- BlockRows(ws, b).value :: RowOk(row) && row.day == DayOf(ws, b)
  {
    var es := BlockScan(ws, b).value;
    var rows := BlockRows(ws, b).value;
    ScanSound(ws, b, DayOf(ws, b), 0, 0, {}, []);
    forall row <- rows ensures RowOk(row) && row.day == DayOf(ws, b) {
      var k :| 0 <= k < |rows| && rows[k] == row;
      assert Sound(ws, b, DayOf(ws, b), es[k]);
      RecordAtSpec(ws, b, DayOf(ws, b), es[k].row, es[k].col);
    }
  }

  // ---------------------------------------------------------------------------
  // The whole workbook

  /** A day block and the index of the worksheet it was found on. */
  datatype Placed = Placed(sheet: nat, block: DayBlock)

  /** detect_day_blocks on one worksheet; None when it raises. */
  function Blocks(ws: Worksheet): (r: Option<seq<DayBlock>>)
    ensures r.Some? ==> forall b <- r.value :: BlockOk(b)
  {
    var r := DetectFrom(Classify(ws), 1, {}, []);
    if r.Some? then DetectedBlocksOk(ws); r else r
  }

  function Tag(sheet: nat, bs: seq<DayBlock>): (r: seq<Placed>)
    ensures |r| == |bs| && forall k | 0 <= k < |bs| :: r[k] == Placed(sheet, bs[k])
  {
    if bs == [] then [] else [Placed(sheet, bs[0])] + Tag(sheet, bs[1..])
  }

  /** The blocks of worksheets n.. appended to those found before, each with
      its sheet index; None when a worksheet's detection raises. */
  function DetectFromSheet(sheets: seq<Worksheet>, n: nat, acc: seq<Placed>): (r: Option<seq<Placed>>)
    requires n <= |sheets|
    ensures r.Some? && (forall p <- acc :: p.sheet < n && BlockOk(p.block)) ==>
      acc <= r.value && forall p <- r.value :: p.sheet < |sheets| && BlockOk(p.block)
    decreases |sheets| - n
  {
    if n == |sheets| then Some(acc)
    else match Blocks(sheets[n])
      case None => None
      case Some(bs) => DetectFromSheet(sheets, n + 1, acc + Tag(n, bs))
  }

  /** The blocks of the whole workbook. */
  function DetectAll(sheets: seq<Worksheet>): (r: Option<seq<Placed>>)
    ensures r.Some? ==> PlacedOk(sheets, r.value)
  {
    DetectFromSheet(sheets, 0, [])
  }

  predicate PlacedOk(sheets: seq<Worksheet>, ps: seq<Placed>) {
    forall p <- ps :: p.sheet < |sheets| && BlockOk(p.block)
  }

  /** The rows of block k. */
  function RowsOfBlock(sheets: seq<Worksheet>, ps: seq<Placed>, k: nat): Option<seq<Row>>
    requires PlacedOk(sheets, ps) && k < |ps|
  {
    assert ps[k] in ps;
    BlockRows(sheets[ps[k].sheet], ps[k].block)
  }

  /** The rows of blocks k.. appended to those gathered before; None when a
      block's scan raises. */
  function RowsFrom(sheets: seq<Worksheet>, ps: seq<Placed>, k: nat, acc: seq<Row>): Option<seq<Row>>
    requires PlacedOk(sheets, ps) && k <= |ps|
    decreases |ps| - k
  {
    if k == |ps| then Some(acc)
    else match RowsOfBlock(sheets, ps, k)
      case None => None
      case Some(more) => RowsFrom(sheets, ps, k + 1, acc + more)
  }

  /** fix_time_format on the Time column, fix_class_group_format on the
      Class/Group column. */
  function FixRow(row: Row): Row {
    row.(time := FixTimeFormat(row.time), group := FixClassGroupFormat(row.group))
  }

  function FinalFix(rows: seq<Row>): (r: seq<Row>)
    ensures |r| == |rows|
  {
    seq(|rows|, k requires 0 <= k < |rows| => FixRow(rows[k]))
  }

  /** convert_xlsx_to_csv: None when detection or a block's scan raises, or
      when blocks were found but no row was (the Time column then does not
      exist); the empty table when no block was found; otherwise the rows with
      their Time and Class/Group columns cleaned. */
  function Convert(sheets: seq<Worksheet>): Option<seq<Row>> {
    match DetectAll(sheets)
    case None => None
    case Some(ps) =>
      if ps == [] then Some([])
      else match RowsFrom(sheets, ps, 0, [])
        case None => None
        case Some(rows) => if rows == [] then None else Some(FinalFix(rows))
  }

  /** The detection loop over the worksheets. */
  method DetectAllSheets(sheets: seq<Worksheet>) returns (res: Option<seq<Placed>>)
    ensures res == DetectAll(sheets)
  {
    var placed: seq<Placed> := [];
    for s := 0 to |sheets|
      invariant DetectFromSheet(sheets, s, placed) == DetectAll(sheets)
    {
      var bs := DetectDayBlocks(sheets[s]);
      if bs.None? {
        return None;
      }
      placed := placed + Tag(s, bs.value);
    }
    return Some(placed);
  }

  /** The extraction loop over the blocks found. */
  method CollectRows(sheets: seq<Worksheet>, placed: seq<Placed>) returns (res: Option<seq<Row>>)
    requires PlacedOk(sheets, placed)
    ensures res == RowsFrom(sheets, placed, 0, [])
  {
    var rows: seq<Row> := [];
    for k := 0 to |placed|
      invariant RowsFrom(sheets, placed, k, rows) == RowsFrom(sheets, placed, 0, [])
    {
      assert placed[k] in placed;
      var more := BuildBlockRows(sheets[placed[k].sheet], placed[k].block);
      assert more == RowsOfBlock(sheets, placed, k);
      if more.None? {
        return None;
      }
      rows := rows + more.value;
    }
    return Some(rows);
  }

  /** The converter: detection, extraction, then the clean-up of the finished
      table. */
  method ConvertWorkbook(sheets: seq<Worksheet>) returns (res: Option<seq<Row>>)
    ensures res == Convert(sheets)
  {
    var placed := DetectAllSheets(sheets);
    if placed.None? {
      return None;
    }
    if placed.value == [] {
      return Some([]);
    }
    var rows := CollectRows(sheets, placed.value);
    if rows.None? || rows.value == [] {
      return None;
    }
    res := Some(FinalFix(rows.value));
  }

  lemma {:induction false} RowsFromOk(sheets: seq<Worksheet>, ps: seq<Placed>, k: nat, acc: seq<Row>)
    requires PlacedOk(sheets, ps) && k <= |ps| && RowsFrom(sheets, ps, k, acc).Some?
    requires forall row <- acc :: RowOk(row)
    ensures forall row <- RowsFrom(sheets, ps, k, acc).value :: RowOk(row)
    decreases |ps| - k
  {
    if k < |ps| {
      var p := ps[k];
      assert p in ps;
      BlockRowsSpec(sheets[p.sheet], p.block);
      var more := RowsOfBlock(sheets, ps, k).value;
      RowsFromOk(sheets, ps, k + 1, acc + more);
    }
  }

  /** Every row of the finished table is a class row whose time has no tab,
      only plain hyphens, and a space on either side of each. */
  lemma ConvertSpec(sheets: seq<Worksheet>)
    requires Convert(sheets).Some?
    ensures forall row <- Convert(sheets).value ::
      && RowOk(row) && '\t' !in row.time && EnDash !in row.time && EmDash !in row.time && Spaced(row.time)
  {
    var ps := DetectAll(sheets).value;
    if ps != [] {
      var rows := RowsFrom(sheets, ps, 0, []).value;
      RowsFromOk(sheets, ps, 0, []);
      forall row <- Convert(sheets).value
        ensures RowOk(row) && '\t' !in row.time && EnDash !in row.time && EmDash !in row.time && Spaced(row.time)
      {
        var k :| 0 <= k < |rows| && FinalFix(rows)[k] == row;
        assert rows[k] in rows;
        FixTimeFormatSpec(rows[k].time);
      }
    }
  }

  /** The table is empty exactly when no worksheet holds a day block; blocks
      without a single class make the conversion fail. */
  lemma ConvertEmpty(sheets: seq<Worksheet>)
    ensures Convert(sheets) == Some([]) <==> DetectAll(sheets) == Some([])
    ensures DetectAll(sheets).Some? && DetectAll(sheets).value != [] && RowsFrom(sheets, DetectAll(sheets).value, 0, []) == Some([])
      ==> Convert(sheets).None?
  {
  }
}

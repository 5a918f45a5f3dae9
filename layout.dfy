/** detect_day_blocks: the scan down column B that finds each day label, works
    out where that day's time header row and room rows are, and emits one block
    per day that has both time columns and rooms.

    The scan only ever asks a handful of yes/no questions about a cell (is it a
    day name, a time header, the "Rooms" label, empty ...).  Marks records those
    answers row by row, Classify reads them off a worksheet, and the scan itself
    is specified over Marks. */
module Layout {
  import opened Strings
  import opened Sheet

  /** One detected day: the row holding the day label (column B), the row of
      time headers, the room rows and the time columns, in sheet order. */
  datatype DayBlock = DayBlock(dayRow: int, timeRow: int, roomRows: seq<int>, timeCols: seq<int>, dayName: string)

  /** Where a day label at row R puts the rest of its block, and the rows the
      scan marks as processed. */
  datatype Layout = Layout(dayRow: int, timeRow: int, roomStart: int, claimed: set<int>)

  function Min(a: int, b: int): int { if a <= b then a else b }

  function Max(a: int, b: int): int { if a >= b then a else b }

  predicate Increasing(s: seq<int>) {
    forall i, j | 0 <= i < j < |s| :: s[i] < s[j]
  }

  lemma IncreasingConcat(a: seq<int>, b: seq<int>)
    requires Increasing(a) && Increasing(b)
    requires forall x, y | x in a && y in b :: x < y
    ensures Increasing(a + b)
  {
    forall i, j | 0 <= i < j < |a + b| ensures (a + b)[i] < (a + b)[j] {
      if j < |a| {
      } else if i >= |a| {
        assert (a + b)[i] == b[i - |a|] && (a + b)[j] == b[j - |a|];
      } else {
        assert (a + b)[i] in a && (a + b)[j] in b;
      }
    }
  }

  // The questions the scan asks of one cell; column B holds the day and room labels.

  predicate DayAt(ws: Worksheet, r: int) requires r >= 1 { IsDayName(GetCellValue(ws, r, 2)) }

  predicate RoomsAt(ws: Worksheet, r: int) requires r >= 1 { IsRoomsLabel(GetCellValue(ws, r, 2)) }

  predicate TimeAt(ws: Worksheet, r: int, c: int) requires r >= 1 && c >= 1 { IsTimeCell(GetCellValue(ws, r, c)) }

  predicate EmptyAt(ws: Worksheet, r: int) requires r >= 1 { !Truthy(GetCellValue(ws, r, 2)) }

  /** A non-blank label: truthy, and not white space only. */
  predicate LabelAt(ws: Worksheet, r: int) requires r >= 1 {
    var v := GetCellValue(ws, r, 2);
    Truthy(v) && Trim(Str(v)) != ""
  }

  /** A label that reads "rooms" once stripped and lower-cased. */
  predicate RoomsWordAt(ws: Worksheet, r: int) requires r >= 1 {
    Lower(Trim(Str(GetCellValue(ws, r, 2)))) == "rooms"
  }

  /** The cell below is a day label equal to this one, stripped and lower-cased. */
  predicate SameDayBelow(ws: Worksheet, r: int) requires r >= 1 {
    var above, below := GetCellValue(ws, r, 2), GetCellValue(ws, r + 1, 2);
    IsDayName(below) && Lower(Trim(Str(below))) == Lower(Trim(Str(above)))
  }

  /** The day name a block records: a date's weekday, or the label as written. */
  function DayNameAt(ws: Worksheet, r: int): string requires r >= 1 {
    var v := GetCellValue(ws, r, 2);
    if v.Date? then WeekdayName(v.weekday) else Trim(Str(v))
  }

  /** The answers for rows 0..max_row+1 (row 0 is never read and answers no),
      and for columns 0..19 of each row in the case of time headers. */
  datatype Marks = Marks(
    maxRow: nat,
    day: seq<bool>,
    roomsLabel: seq<bool>,
    labelled: seq<bool>,
    roomsWord: seq<bool>,
    blank: seq<bool>,
    sameBelow: seq<bool>,
    time: seq<seq<bool>>,
    name: seq<string>)

  /** What the scan can learn from a worksheet, for rows 0..max_row+1. */
  function Classify(ws: Worksheet): (m: Marks)
    ensures m.maxRow == ws.maxRow
  {
    var n := ws.maxRow + 2;
    Marks(ws.maxRow,
      seq(n, r => r >= 1 && DayAt(ws, r)),
      seq(n, r => r >= 1 && RoomsAt(ws, r)),
      seq(n, r => r >= 1 && LabelAt(ws, r)),
      seq(n, r => r >= 1 && RoomsWordAt(ws, r)),
      seq(n, r => r >= 1 && EmptyAt(ws, r)),
      seq(n, r => r >= 1 && SameDayBelow(ws, r)),
      seq(n, r => seq(20, c => r >= 1 && c >= 1 && TimeAt(ws, r, c))),
      seq(n, r => if r >= 1 then DayNameAt(ws, r) else ""))
  }

  predicate Day(m: Marks, r: int) { 0 <= r < |m.day| && m.day[r] }
  predicate RoomsLabel(m: Marks, r: int) { 0 <= r < |m.roomsLabel| && m.roomsLabel[r] }
  predicate Label(m: Marks, r: int) { 0 <= r < |m.labelled| && m.labelled[r] }
  predicate RoomsWord(m: Marks, r: int) { 0 <= r < |m.roomsWord| && m.roomsWord[r] }
  predicate Blank(m: Marks, r: int) { 0 <= r < |m.blank| && m.blank[r] }
  predicate SameBelow(m: Marks, r: int) { 0 <= r < |m.sameBelow| && m.sameBelow[r] }
  predicate Time(m: Marks, r: int, c: int) { 0 <= r < |m.time| && 0 <= c < |m.time[r]| && m.time[r][c] }
  function Name(m: Marks, r: int): string { if 0 <= r < |m.name| then m.name[r] else "" }

  /** m answers every question exactly as the cell read through get_cell_value
      would, for every row the scan can reach. */
  predicate Agrees(ws: Worksheet, m: Marks) {
    && m.maxRow == ws.maxRow
    && (forall r {:trigger DayAt(ws, r)} | 1 <= r <= ws.maxRow + 1 :: Day(m, r) == DayAt(ws, r))
    && (forall r {:trigger RoomsAt(ws, r)} | 1 <= r <= ws.maxRow + 1 :: RoomsLabel(m, r) == RoomsAt(ws, r))
    && (forall r {:trigger LabelAt(ws, r)} | 1 <= r <= ws.maxRow + 1 :: Label(m, r) == LabelAt(ws, r))
    && (forall r {:trigger RoomsWordAt(ws, r)} | 1 <= r <= ws.maxRow + 1 :: RoomsWord(m, r) == RoomsWordAt(ws, r))
    && (forall r {:trigger EmptyAt(ws, r)} | 1 <= r <= ws.maxRow + 1 :: Blank(m, r) == EmptyAt(ws, r))
    && (forall r {:trigger SameDayBelow(ws, r)} | 1 <= r <= ws.maxRow + 1 :: SameBelow(m, r) == SameDayBelow(ws, r))
    && (forall r, c {:trigger TimeAt(ws, r, c)} | 1 <= r <= ws.maxRow + 1 && 1 <= c < 20 :: Time(m, r, c) == TimeAt(ws, r, c))
    && (forall r {:trigger DayNameAt(ws, r)} | 1 <= r <= ws.maxRow + 1 :: Name(m, r) == DayNameAt(ws, r))
  }

  /** Classify reads a worksheet faithfully. */
  lemma ClassifyAgrees(ws: Worksheet)
    ensures Agrees(ws, Classify(ws))
  {
  }

  /** Some column C..N of the row holds a time header. */
  predicate TimeInRow(m: Marks, row: int) {
    exists col | 3 <= col < 15 :: Time(m, row, col)
  }

  /** The first row in [r, stop) whose column B reads "rooms". */
  function RoomsLabelFrom(m: Marks, r: int, stop: int): (res: Option<int>)
    ensures res.Some? ==> r <= res.value < stop
    decreases stop - r
  {
    if r >= stop then None
    else if RoomsLabel(m, r) then Some(r)
    else RoomsLabelFrom(m, r + 1, stop)
  }

  /** The search returns the first "rooms" row, and none only when there is none. */
  lemma {:induction false} RoomsLabelFromSpec(m: Marks, r: int, stop: int)
    ensures var res := RoomsLabelFrom(m, r, stop);
      && (res.Some? ==> RoomsLabel(m, res.value) && forall k | r <= k < res.value :: !RoomsLabel(m, k))
      && (res.None? ==> forall k | r <= k < stop :: !RoomsLabel(m, k))
    decreases stop - r
  {
    if r < stop && !RoomsLabel(m, r) {
      RoomsLabelFromSpec(m, r + 1, stop);
    }
  }

  /** The layout decision for a day label found at row R. */
  function Choose(m: Marks, row: int): (lay: Layout)
    ensures lay.dayRow == row || lay.dayRow == row + 1
    ensures row - 1 <= lay.timeRow <= Max(row, m.maxRow)
    ensures lay.roomStart == Max(lay.dayRow, lay.timeRow) + 1
    ensures forall k :: k in lay.claimed <==> row <= k <= lay.dayRow
  {
    if TimeInRow(m, row) then
      if SameBelow(m, row) then Layout(row + 1, row, row + 2, {row, row + 1})
      else Layout(row, row, row + 1, {row})
    else
      match RoomsLabelFrom(m, row + 1, Min(row + 5, m.maxRow + 1))
      case Some(k) => Layout(row, k, k + 1, {row})
      case None => Layout(row, row - 1, row + 1, {row})
  }

  /** The four layouts: a time header in the day's own row with the same label
      repeated below it, a time header in the day's own row otherwise, the first
      "rooms" label within the next four rows, or else the row above. */
  lemma ChooseSpec(m: Marks, row: int)
    ensures var lay := Choose(m, row);
      && (lay.dayRow == row + 1 <==> TimeInRow(m, row) && SameBelow(m, row))
      && (TimeInRow(m, row) ==> lay.timeRow == row)
      && (!TimeInRow(m, row) ==>
           || (row < lay.timeRow < Min(row + 5, m.maxRow + 1) && RoomsLabel(m, lay.timeRow)
               && forall k | row < k < lay.timeRow :: !RoomsLabel(m, k))
           || (lay.timeRow == row - 1 && forall k | row < k < Min(row + 5, m.maxRow + 1) :: !RoomsLabel(m, k)))
  {
    RoomsLabelFromSpec(m, row + 1, Min(row + 5, m.maxRow + 1));
  }

  /** The columns among C..(col-1) of a row holding time headers, left to right. */
  function TimeColsUpTo(m: Marks, row: int, col: int): seq<int>
    decreases col
  {
    if col <= 3 then []
    else TimeColsUpTo(m, row, col - 1) + if Time(m, row, col - 1) then [col - 1] else []
  }

  lemma {:induction false} TimeColsUpToSpec(m: Marks, row: int, col: int)
    ensures var cols := TimeColsUpTo(m, row, col);
      && Increasing(cols)
      && forall c :: c in cols <==> 3 <= c < col && Time(m, row, c)
    decreases col
  {
    if col > 3 {
      TimeColsUpToSpec(m, row, col - 1);
      var init := TimeColsUpTo(m, row, col - 1);
      var last := if Time(m, row, col - 1) then [col - 1] else [];
      assert TimeColsUpTo(m, row, col) == init + last;
      IncreasingConcat(init, last);
      forall c ensures c in init + last <==> 3 <= c < col && Time(m, row, c) {
      }
    }
  }

  /** Number of rows in [lo, hi) whose column B is falsy. */
  function EmptyCount(m: Marks, lo: int, hi: int): (n: nat)
    ensures n <= Max(hi - lo, 0)
    decreases hi - lo
  {
    if hi <= lo then 0
    else EmptyCount(m, lo, hi - 1) + if Blank(m, hi - 1) then 1 else 0
  }

  /** A row the room scan takes as a room: a non-blank label that is neither
      "rooms" nor a day name. */
  predicate RoomRowOk(m: Marks, r: int) {
    Label(m, r) && !RoomsWord(m, r) && !Day(m, r)
  }

  predicate NoDayBetween(m: Marks, lo: int, hi: int) {
    forall k | lo <= k <= hi :: !Day(m, k)
  }

  /** The room-row scan from row r up to stop with the rows found so far: stop at
      a day name; take a non-blank, non-"rooms" label; past the first room, stop
      when two of the next three rows are empty. */
  function RoomScan(m: Marks, r: int, stop: int, found: seq<int>): seq<int>
    decreases stop - r
  {
    if r >= stop || Day(m, r) then found
    else if Label(m, r) then RoomScan(m, r + 1, stop, if RoomsWord(m, r) then found else found + [r])
    else if |found| > 0 && EmptyCount(m, r, Min(r + 3, m.maxRow + 1)) >= 2 then found
    else RoomScan(m, r + 1, stop, found)
  }

  lemma {:induction false} RoomScanSpec(m: Marks, start: int, r: int, stop: int, found: seq<int>)
    requires start <= r
    requires r <= stop || found == []
    requires Increasing(found)
    requires forall x <- found :: start <= x < r && RoomRowOk(m, x)
    requires NoDayBetween(m, start, r - 1)
    ensures var rows := RoomScan(m, r, stop, found);
      && Increasing(rows)
      && found <= rows
      && forall x <- rows :: start <= x < Max(stop, r) && RoomRowOk(m, x) && NoDayBetween(m, start, x)
    decreases stop - r
  {
    if r < stop && !Day(m, r) {
      assert NoDayBetween(m, start, r);
      if Label(m, r) {
        if !RoomsWord(m, r) {
          IncreasingConcat(found, [r]);
          RoomScanSpec(m, start, r + 1, stop, found + [r]);
        } else {
          RoomScanSpec(m, start, r + 1, stop, found);
        }
      } else if !(|found| > 0 && EmptyCount(m, r, Min(r + 3, m.maxRow + 1)) >= 2) {
        RoomScanSpec(m, start, r + 1, stop, found);
      }
    }
  }

  /** The block a day label at row R emits: none without time columns or rooms. */
  function EmitAt(m: Marks, row: int): seq<DayBlock> {
    var lay := Choose(m, row);
    var cols := TimeColsUpTo(m, lay.timeRow, 20);
    var rooms := RoomScan(m, lay.roomStart, Min(lay.roomStart + 20, m.maxRow + 1), []);
    if cols == [] || rooms == [] then []
    else [DayBlock(lay.dayRow, lay.timeRow, rooms, cols, Name(m, lay.dayRow))]
  }

  /** The outer scan over rows row..max_row, as a loop over (row, processed_rows,
      blocks).  None stands for the ValueError openpyxl raises when the default
      layout puts the time row at row 0. */
  function DetectFrom(m: Marks, row: int, processed: set<int>, acc: seq<DayBlock>): Option<seq<DayBlock>>
    decreases m.maxRow + 1 - row
  {
    if row > m.maxRow then Some(acc)
    else if row in processed || !Day(m, row) then DetectFrom(m, row + 1, processed, acc)
    else if Choose(m, row).timeRow < 1 then None
    else DetectFrom(m, row + 1, processed + Choose(m, row).claimed, acc + EmitAt(m, row))
  }

  /** b is the block emitted for the day label at row R. */
  predicate BlockFromRow(m: Marks, row: int, b: DayBlock) {
    && 1 <= row <= m.maxRow
    && Day(m, row)
    && Choose(m, row).timeRow >= 1
    && EmitAt(m, row) == [b]
  }

  predicate DayRowsIncreasing(blocks: seq<DayBlock>) {
    forall i, j | 0 <= i < j < |blocks| :: blocks[i].dayRow < blocks[j].dayRow
  }

  /** The scan crashes exactly when row 1 is a day label with no time header in
      row 1 and no "rooms" label below it. */
  predicate CrashesAtFirstRow(m: Marks) {
    && m.maxRow >= 1
    && Day(m, 1)
    && !TimeInRow(m, 1)
    && RoomsLabelFrom(m, 2, Min(6, m.maxRow + 1)).None?
  }

  lemma {:induction false} DetectFromLaterRowsSucceed(m: Marks, row: int, processed: set<int>, acc: seq<DayBlock>)
    requires row >= 2
    ensures DetectFrom(m, row, processed, acc).Some?
    decreases m.maxRow + 1 - row
  {
    if row <= m.maxRow {
      if row in processed || !Day(m, row) {
        DetectFromLaterRowsSucceed(m, row + 1, processed, acc);
      } else {
        DetectFromLaterRowsSucceed(m, row + 1, processed + Choose(m, row).claimed, acc + EmitAt(m, row));
      }
    }
  }

  /** Only a day label in row 1 can send the time row to row 0. */
  lemma DetectCrash(m: Marks)
    ensures DetectFrom(m, 1, {}, []).None? <==> CrashesAtFirstRow(m)
  {
    if m.maxRow >= 1 {
      if Day(m, 1) {
        var lay := Choose(m, 1);
        assert lay.timeRow < 1 <==> !TimeInRow(m, 1) && RoomsLabelFrom(m, 2, Min(6, m.maxRow + 1)).None?;
        if lay.timeRow >= 1 {
          DetectFromLaterRowsSucceed(m, 2, {} + lay.claimed, [] + EmitAt(m, 1));
        }
      } else {
        DetectFromLaterRowsSucceed(m, 2, {}, []);
      }
    }
  }

  /** What the scan has gathered before row: blocks in order of their day
      rows, none past row (one at row only if row is already claimed), each
      emitted for a day label above row. */
  predicate ScanState(m: Marks, row: int, processed: set<int>, acc: seq<DayBlock>) {
    && DayRowsIncreasing(acc)
    && (forall b <- acc :: b.dayRow < row || (b.dayRow == row && row in processed))
    && (forall b <- acc :: exists r | 1 <= r < row :: BlockFromRow(m, r, b))
  }

  /** Blocks in order of their day rows, each emitted for a day label. */
  predicate FromDayLabels(m: Marks, blocks: seq<DayBlock>) {
    && DayRowsIncreasing(blocks)
    && forall b <- blocks :: exists r | 1 <= r <= m.maxRow :: BlockFromRow(m, r, b)
  }

  lemma {:induction false} DetectFromBlocks(m: Marks, row: int, processed: set<int>, acc: seq<DayBlock>)
    requires 1 <= row <= m.maxRow + 1
    requires DetectFrom(m, row, processed, acc).Some?
    requires ScanState(m, row, processed, acc)
    ensures FromDayLabels(m, DetectFrom(m, row, processed, acc).value)
    decreases m.maxRow + 1 - row
  {
    if row > m.maxRow {
      ScanDone(m, row, processed, acc);
    } else if row in processed || !Day(m, row) {
      ScanSkip(m, row, processed, acc);
      DetectFromBlocks(m, row + 1, processed, acc);
    } else {
      assert Choose(m, row).timeRow >= 1;
      EmitStep(m, row, processed, acc);
      var processed', acc' := processed + Choose(m, row).claimed, acc + EmitAt(m, row);
      assert DetectFrom(m, row, processed, acc) == DetectFrom(m, row + 1, processed', acc');
      DetectFromBlocks(m, row + 1, processed', acc');
    }
  }

  lemma ScanDone(m: Marks, row: int, processed: set<int>, acc: seq<DayBlock>)
    requires row == m.maxRow + 1 && ScanState(m, row, processed, acc)
    ensures FromDayLabels(m, acc)
  {
  }

  /** A row that is claimed or holds no day label adds nothing. */
  lemma ScanSkip(m: Marks, row: int, processed: set<int>, acc: seq<DayBlock>)
    requires ScanState(m, row, processed, acc) && (row in processed || !Day(m, row))
    ensures ScanState(m, row + 1, processed, acc)
  {
  }

  /** The blocks emitted for the day label at row keep the scan's invariant. */
  lemma EmitStep(m: Marks, row: int, processed: set<int>, acc: seq<DayBlock>)
    requires 1 <= row <= m.maxRow && row !in processed && Day(m, row) && Choose(m, row).timeRow >= 1
    requires ScanState(m, row, processed, acc)
    ensures ScanState(m, row + 1, processed + Choose(m, row).claimed, acc + EmitAt(m, row))
  {
    var lay := Choose(m, row);
    var emitted := EmitAt(m, row);
    var acc' := acc + emitted;
    forall b <- emitted ensures BlockFromRow(m, row, b) && (b.dayRow == row || b.dayRow == row + 1) {
    }
    assert DayRowsIncreasing(acc');
    forall b <- acc' ensures exists r | 1 <= r < row + 1 :: BlockFromRow(m, r, b) {
      if b in emitted {
        assert BlockFromRow(m, row, b);
      }
    }
  }

  /** The day labels the scan acts on: every day label except one that the
      visited label in the row above claimed as its true day row (a time header
      beside the upper label and the same day repeated below it). */
  predicate Visited(m: Marks, r: int)
    decreases r
  {
    r >= 1 && Day(m, r) && !(r >= 2 && Visited(m, r - 1) && TimeInRow(m, r - 1) && SameBelow(m, r - 1))
  }

  /** The visited row r claimed the row below it as well. */
  predicate ClaimsBelow(m: Marks, r: int) {
    Visited(m, r) && TimeInRow(m, r) && SameBelow(m, r)
  }

  /** f(lo) + f(lo + 1) + ... + f(hi). */
  function Flatten<T>(f: int -> seq<T>, lo: int, hi: int): seq<T>
    decreases hi - lo
  {
    if lo > hi then [] else f(lo) + Flatten(f, lo + 1, hi)
  }

  /** An element of the flattened list is an element of some f(r), and back. */
  lemma {:induction false} FlattenSpec<T>(f: int -> seq<T>, lo: int, hi: int)
    ensures forall r, x | lo <= r <= hi && x in f(r) :: x in Flatten(f, lo, hi)
    ensures forall x <- Flatten(f, lo, hi) :: exists r | lo <= r <= hi :: x in f(r)
    decreases hi - lo
  {
    if lo <= hi {
      FlattenSpec(f, lo + 1, hi);
    }
  }

  /** The block the day label at row r contributes to the scan's result. */
  function Emitted(m: Marks, r: int): seq<DayBlock> {
    if Visited(m, r) then EmitAt(m, r) else []
  }

  function EmittedAt(m: Marks): int -> seq<DayBlock> {
    r => Emitted(m, r)
  }

  /** The blocks of the visited day labels in rows row..max_row, top to bottom. */
  function EmittedFrom(m: Marks, row: int): seq<DayBlock> {
    Flatten(EmittedAt(m), row, m.maxRow)
  }

  lemma EmittedFromStep(m: Marks, row: int)
    requires row <= m.maxRow
    ensures EmittedFrom(m, row) == Emitted(m, row) + EmittedFrom(m, row + 1)
  {
  }

  /** processed_rows when the scan reaches row: of the rows still ahead, only
      row itself can be in it, and exactly when the label above claimed it. */
  ghost predicate ProcessedAhead(m: Marks, row: int, processed: set<int>) {
    && (forall k | k > row :: k !in processed)
    && (row in processed <==> ClaimsBelow(m, row - 1))
  }

  /** A row already processed, or without a day label, is not visited. */
  lemma SkipNotVisited(m: Marks, row: int, processed: set<int>)
    requires 1 <= row && ProcessedAhead(m, row, processed) && (row in processed || !Day(m, row))
    ensures !Visited(m, row) && ProcessedAhead(m, row + 1, processed)
  {
  }

  /** A fresh day label is visited, and what it claims keeps ProcessedAhead. */
  lemma ClaimKeepsAhead(m: Marks, row: int, processed: set<int>)
    requires 1 <= row && ProcessedAhead(m, row, processed) && row !in processed && Day(m, row)
    ensures Visited(m, row) && ProcessedAhead(m, row + 1, processed + Choose(m, row).claimed)
  {
    ChooseSpec(m, row);
  }

  lemma {:induction false} DetectFromEmits(m: Marks, row: int, processed: set<int>, acc: seq<DayBlock>)
    requires 1 <= row && DetectFrom(m, row, processed, acc).Some?
    requires ProcessedAhead(m, row, processed)
    ensures DetectFrom(m, row, processed, acc).value == acc + EmittedFrom(m, row)
    decreases m.maxRow + 1 - row
  {
    if row <= m.maxRow {
      EmittedFromStep(m, row);
      var rest := EmittedFrom(m, row + 1);
      if row in processed || !Day(m, row) {
        SkipNotVisited(m, row, processed);
        DetectSkipStep(m, row, processed, acc);
        DetectFromEmits(m, row + 1, processed, acc);
        assert Emitted(m, row) == [];
        assert [] + rest == rest;
      } else {
        ClaimKeepsAhead(m, row, processed);
        var here := EmitAt(m, row);
        var processed' := processed + Choose(m, row).claimed;
        DetectEmitStep(m, row, processed, acc);
        DetectFromEmits(m, row + 1, processed', acc + here);
        assert Emitted(m, row) == here;
        SeqAssoc(acc, here, rest);
      }
    }
  }

  lemma SeqAssoc<T>(a: seq<T>, b: seq<T>, c: seq<T>)
    ensures a + b + c == a + (b + c)
  {
  }

  /** One step of the scan past a processed row or a row without a day label. */
  lemma DetectSkipStep(m: Marks, row: int, processed: set<int>, acc: seq<DayBlock>)
    requires row <= m.maxRow && (row in processed || !Day(m, row))
    ensures DetectFrom(m, row, processed, acc) == DetectFrom(m, row + 1, processed, acc)
  {
  }

  /** One step of the scan at a fresh day label that does not crash. */
  lemma DetectEmitStep(m: Marks, row: int, processed: set<int>, acc: seq<DayBlock>)
    requires 1 <= row <= m.maxRow && row !in processed && Day(m, row)
    requires DetectFrom(m, row, processed, acc).Some?
    ensures DetectFrom(m, row, processed, acc)
      == DetectFrom(m, row + 1, processed + Choose(m, row).claimed, acc + EmitAt(m, row))
  {
  }

  /** A block comes from row r exactly when r is visited and emits it. */
  lemma EmittedIff(m: Marks, r: int, b: DayBlock)
    ensures b in EmittedAt(m)(r) <==> Visited(m, r) && EmitAt(m, r) == [b]
  {
  }

  /** Every visited day label's block is in EmittedFrom, and EmittedFrom holds
      nothing else. */
  lemma EmittedFromSpec(m: Marks, row: int)
    ensures forall r, b | row <= r <= m.maxRow && Visited(m, r) && EmitAt(m, r) == [b] ::
      b in EmittedFrom(m, row)
    ensures forall b <- EmittedFrom(m, row) :: exists r | row <= r <= m.maxRow ::
      Visited(m, r) && EmitAt(m, r) == [b]
  {
    var f := EmittedAt(m);
    FlattenSpec(f, row, m.maxRow);
    forall r, b | row <= r <= m.maxRow && Visited(m, r) && EmitAt(m, r) == [b]
      ensures b in EmittedFrom(m, row)
    {
      EmittedIff(m, r, b);
      assert b in f(r);
    }
    forall b <- EmittedFrom(m, row)
      ensures exists r | row <= r <= m.maxRow :: Visited(m, r) && EmitAt(m, r) == [b]
    {
      var r :| row <= r <= m.maxRow && b in f(r);
      EmittedIff(m, r, b);
    }
  }

  /** A scan that does not crash returns blocks in order of their day rows,
      each the block some day label on the sheet emits.  It returns exactly the
      blocks of the visited day labels, top to bottom: every visited label's
      block is found, and a label claimed by the one above it (a row put into
      processed_rows) never yields a block of its own. */
  lemma DetectedBlocks(m: Marks)
    requires DetectFrom(m, 1, {}, []).Some?
    ensures DayRowsIncreasing(DetectFrom(m, 1, {}, []).value)
    ensures forall b <- DetectFrom(m, 1, {}, []).value :: exists r | 1 <= r <= m.maxRow :: BlockFromRow(m, r, b)
    ensures DetectFrom(m, 1, {}, []).value == EmittedFrom(m, 1)
    ensures forall r, b | 1 <= r <= m.maxRow && Visited(m, r) && EmitAt(m, r) == [b] ::
      b in DetectFrom(m, 1, {}, []).value
    ensures forall b <- DetectFrom(m, 1, {}, []).value :: exists r | 1 <= r <= m.maxRow ::
      Visited(m, r) && EmitAt(m, r) == [b]
    ensures forall r | 2 <= r <= m.maxRow && ClaimsBelow(m, r - 1) :: !Visited(m, r)
  {
    DetectFromBlocks(m, 1, {}, []);
    DetectFromEmits(m, 1, {}, []);
    EmittedFromSpec(m, 1);
  }

  /** An emitted block's time row lies on the sheet and holds exactly the
      time columns listed, left to right; its day name is the day cell's. */
  lemma BlockTimeCols(m: Marks, row: int, b: DayBlock)
    requires BlockFromRow(m, row, b)
    ensures 1 <= b.timeRow <= m.maxRow && b.dayRow == Choose(m, row).dayRow
    ensures b.dayName == Name(m, b.dayRow)
    ensures b.timeCols != [] && Increasing(b.timeCols)
    ensures forall c :: c in b.timeCols <==> 3 <= c < 20 && Time(m, b.timeRow, c)
  {
    TimeColsUpToSpec(m, Choose(m, row).timeRow, 20);
  }

  /** An emitted block's room rows are increasing, inside the 20-row window, and
      each a non-blank, non-"rooms", non-day label with no day label before it. */
  lemma BlockRoomRows(m: Marks, row: int, b: DayBlock)
    requires BlockFromRow(m, row, b)
    ensures b.roomRows != [] && Increasing(b.roomRows)
    ensures var start := Choose(m, row).roomStart;
      forall x <- b.roomRows :: start <= x < start + 20 && x <= m.maxRow
        && RoomRowOk(m, x) && NoDayBetween(m, start, x)
  {
    var lay := Choose(m, row);
    RoomScanSpec(m, lay.roomStart, lay.roomStart, Min(lay.roomStart + 20, m.maxRow + 1), []);
  }

  // Single cell reads, each through get_cell_value, answered as an agreeing
  // Marks records them.

  method AskDay(ws: Worksheet, ghost m: Marks, r: int) returns (b: bool)
    requires Agrees(ws, m) && 1 <= r <= ws.maxRow + 1
    ensures b == Day(m, r)
  {
    b := DayAt(ws, r);
  }

  method AskTime(ws: Worksheet, ghost m: Marks, r: int, c: int) returns (b: bool)
    requires Agrees(ws, m) && 1 <= r <= ws.maxRow + 1 && 1 <= c < 20
    ensures b == Time(m, r, c)
  {
    b := TimeAt(ws, r, c);
  }

  method AskRoomsLabel(ws: Worksheet, ghost m: Marks, r: int) returns (b: bool)
    requires Agrees(ws, m) && 1 <= r <= ws.maxRow + 1
    ensures b == RoomsLabel(m, r)
  {
    b := RoomsAt(ws, r);
  }

  method AskSameBelow(ws: Worksheet, ghost m: Marks, r: int) returns (b: bool)
    requires Agrees(ws, m) && 1 <= r <= ws.maxRow
    ensures b == SameBelow(m, r)
  {
    b := SameDayBelow(ws, r);
  }

  method AskBlank(ws: Worksheet, ghost m: Marks, r: int) returns (b: bool)
    requires Agrees(ws, m) && 1 <= r <= ws.maxRow + 1
    ensures b == Blank(m, r)
  {
    b := EmptyAt(ws, r);
  }

  /** The room scan's reading of a label: non-blank, and whether it is "rooms". */
  method AskLabel(ws: Worksheet, ghost m: Marks, r: int) returns (isLabel: bool, roomsWord: bool)
    requires Agrees(ws, m) && 1 <= r <= ws.maxRow + 1
    ensures isLabel == Label(m, r) && roomsWord == RoomsWord(m, r)
  {
    isLabel := LabelAt(ws, r);
    roomsWord := RoomsWordAt(ws, r);
  }

  method AskName(ws: Worksheet, ghost m: Marks, r: int) returns (name: string)
    requires Agrees(ws, m) && 1 <= r <= ws.maxRow + 1
    ensures name == Name(m, r)
  {
    name := DayNameAt(ws, r);
  }

  /** The loop over columns C..N that looks for a time header in the day's row. */
  method HasTimeInSameRow(ws: Worksheet, ghost m: Marks, row: int) returns (found: bool)
    requires Agrees(ws, m) && 1 <= row <= ws.maxRow + 1
    ensures found == TimeInRow(m, row)
  {
    found := false;
    var col := 3;
    while col < 15
      invariant 3 <= col <= 15
      invariant forall c | 3 <= c < col :: !Time(m, row, c)
    {
      var isTime := AskTime(ws, m, row, col);
      if isTime {
        found := true;
        return;
      }
      col := col + 1;
    }
  }

  /** The loop over the four rows below the day label that looks for "Rooms". */
  method FindRoomsLabel(ws: Worksheet, ghost m: Marks, row: int) returns (res: Option<int>)
    requires Agrees(ws, m) && row >= 1
    ensures res == RoomsLabelFrom(m, row + 1, Min(row + 5, ws.maxRow + 1))
  {
    var stop := Min(row + 5, ws.maxRow + 1);
    var r := row + 1;
    while r < stop
      invariant row + 1 <= r
      invariant RoomsLabelFrom(m, r, stop) == RoomsLabelFrom(m, row + 1, stop)
      decreases stop - r
    {
      var isRooms := AskRoomsLabel(ws, m, r);
      if isRooms {
        return Some(r);
      }
      r := r + 1;
    }
    return None;
  }

  /** The day's layout, as the branches of the scan decide it. */
  method ChooseLayout(ws: Worksheet, ghost m: Marks, row: int) returns (lay: Layout)
    requires Agrees(ws, m) && 1 <= row <= ws.maxRow
    ensures lay == Choose(m, row)
  {
    var hasTime := HasTimeInSameRow(ws, m, row);
    if hasTime {
      var same := AskSameBelow(ws, m, row);
      if same {
        lay := Layout(row + 1, row, row + 2, {row, row + 1});
      } else {
        lay := Layout(row, row, row + 1, {row});
      }
    } else {
      var roomsRow := FindRoomsLabel(ws, m, row);
      if roomsRow.Some? {
        lay := Layout(row, roomsRow.value, roomsRow.value + 1, {row});
      } else {
        lay := Layout(row, row - 1, row + 1, {row});
      }
    }
  }

  /** The loop over columns C..S collecting the time columns of the time row. */
  method ScanTimeColumns(ws: Worksheet, ghost m: Marks, row: int) returns (cols: seq<int>)
    requires Agrees(ws, m) && 1 <= row <= ws.maxRow + 1
    ensures cols == TimeColsUpTo(m, row, 20)
  {
    cols := [];
    var col := 3;
    while col < 20
      invariant 3 <= col <= 20
      invariant cols == TimeColsUpTo(m, row, col)
    {
      var isTime := AskTime(ws, m, row, col);
      if isTime {
        cols := cols + [col];
      }
      col := col + 1;
    }
  }

  /** The look-ahead that counts empty labels in the next rows. */
  method CountEmpty(ws: Worksheet, ghost m: Marks, lo: int, hi: int) returns (n: nat)
    requires Agrees(ws, m) && lo >= 1 && hi <= ws.maxRow + 1
    ensures n == EmptyCount(m, lo, hi)
  {
    n := 0;
    var k := lo;
    while k < hi
      invariant lo <= k <= Max(lo, hi)
      invariant n == EmptyCount(m, lo, k)
      decreases hi - k
    {
      var blank := AskBlank(ws, m, k);
      if blank {
        n := n + 1;
      }
      k := k + 1;
    }
  }

  /** The loop collecting a day's room rows. */
  method ScanRoomRows(ws: Worksheet, ghost m: Marks, start: int, stop: int) returns (rows: seq<int>)
    requires Agrees(ws, m) && start >= 1 && stop <= ws.maxRow + 1
    ensures rows == RoomScan(m, start, stop, [])
  {
    rows := [];
    var r := start;
    while r < stop
      invariant start <= r
      invariant RoomScan(m, r, stop, rows) == RoomScan(m, start, stop, [])
      decreases stop - r
    {
      var isDay := AskDay(ws, m, r);
      if isDay {
        break;
      }
      var isLabel, roomsWord := AskLabel(ws, m, r);
      if isLabel {
        if !roomsWord {
          rows := rows + [r];
        }
      } else if |rows| > 0 {
        var empties := CountEmpty(ws, m, r, Min(r + 3, ws.maxRow + 1));
        if empties >= 2 {
          break;
        }
      }
      r := r + 1;
    }
  }

  /** One pass of the outer loop at a row that is a day label nobody claimed. */
  method VisitDayRow(ws: Worksheet, ghost m: Marks, row: int) returns (lay: Layout, emitted: seq<DayBlock>)
    requires Agrees(ws, m) && 1 <= row <= ws.maxRow
    ensures lay == Choose(m, row)
    ensures lay.timeRow >= 1 ==> emitted == EmitAt(m, row)
  {
    lay := ChooseLayout(ws, m, row);
    emitted := [];
    if lay.timeRow >= 1 {
      var cols := ScanTimeColumns(ws, m, lay.timeRow);
      var stop := Min(lay.roomStart + 20, ws.maxRow + 1);
      var rooms := ScanRoomRows(ws, m, lay.roomStart, stop);
      if cols != [] && rooms != [] {
        var dayName := AskName(ws, m, lay.dayRow);
        emitted := [DayBlock(lay.dayRow, lay.timeRow, rooms, cols, dayName)];
      }
    }
  }

  /** The outer loop over column B, reading the sheet through an agreeing m. */
  method ScanDays(ws: Worksheet, ghost m: Marks) returns (res: Option<seq<DayBlock>>)
    requires Agrees(ws, m)
    ensures res == DetectFrom(m, 1, {}, [])
  {
    var blocks: seq<DayBlock> := [];
    var processed: set<int> := {};
    var row := 1;
    while row <= ws.maxRow
      invariant 1 <= row
      invariant DetectFrom(m, row, processed, blocks) == DetectFrom(m, 1, {}, [])
      decreases ws.maxRow + 1 - row
    {
      var crashed;
      crashed, processed, blocks := ScanRow(ws, m, row, processed, blocks);
      if crashed {
        return None;
      }
      row := row + 1;
    }
    return Some(blocks);
  }

  /** One turn of the outer loop: the row is skipped, or its day label claims
      rows and emits its block, or the layout's time row is 0 and the scan
      crashes. */
  method ScanRow(ws: Worksheet, ghost m: Marks, row: int, processed: set<int>, blocks: seq<DayBlock>)
    returns (crashed: bool, processed': set<int>, blocks': seq<DayBlock>)
    requires Agrees(ws, m) && 1 <= row <= ws.maxRow
    ensures crashed ==> DetectFrom(m, row, processed, blocks) == None
    ensures !crashed ==> DetectFrom(m, row, processed, blocks) == DetectFrom(m, row + 1, processed', blocks')
  {
    processed', blocks' := processed, blocks;
    crashed := false;
    var isDay := AskDay(ws, m, row);
    if row !in processed && isDay {
      var lay, emitted := VisitDayRow(ws, m, row);
      if lay.timeRow < 1 {
        crashed := true;
      } else {
        processed' := processed + lay.claimed;
        blocks' := blocks + emitted;
      }
    }
  }

  /** detect_day_blocks over one worksheet: the outer scan over what the sheet's
      cells say; its properties are DetectCrash and DetectedBlocks. */
  method DetectDayBlocks(ws: Worksheet) returns (res: Option<seq<DayBlock>>)
    ensures res == DetectFrom(Classify(ws), 1, {}, [])
  {
    ClassifyAgrees(ws);
    res := ScanDays(ws, Classify(ws));
  }
}

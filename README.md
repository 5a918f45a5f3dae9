# Superior Academic Tool timetable pipeline, modelled in Dafny

The Superior Academic Tool turns a university's weekly timetable workbook
(`.xlsx`) into per-teacher and per-section timetables. The pipeline has three
stages:

- **The converter** (`converter.py`) scans every worksheet for *day blocks*.
  A day block is a day label in column B, a header row of time ranges, and
  the rows of rooms below it. The converter reads each class cell of a block
  (its subject, group lines, teacher lines and time lines) and writes one CSV
  row per class, with columns Day, Time, Room, Subject, Class/Group and
  Teacher(s) Name. Group notation and time ranges are cleaned along the way.
- **The web application** (`app.py`) reads that table in `process_file`:
  - It keeps the rows that name a subject and a teacher.
  - It splits each teacher column into teacher names and each group column
    into groups.
  - It merges consecutive slots of the same class.
  - It files every merged slot under each of its teachers in
    `timetable_data`, drops duplicates and sorts each teacher's list.
  - The `/timetable`, `/get_sections` and index routes read what it built.
- **The page** (`static/script.js`) sorts the entries it receives, drops
  duplicates and merges consecutive slots again. It also keeps the user's
  custom schedule.

## Project layout

| file | module | what it holds |
|---|---|---|
| `strings.dfy` | `Strings` | the `Option` type and Python's string operations over ASCII: `strip`, `split`, `str(n)`, `f"{n:02d}"`, `int()` |
| `ordering.dfy` | `Ordering` | sort keys compared as Python compares tuples; a stable insertion sort as the reference for `sorted`, `list.sort` and `Array.prototype.sort`; first-occurrence deduplication |
| `sheet.dfy` | `Sheet` | worksheets, merged ranges, `get_cell_value`, `is_time_cell`, `is_day_name`, `convert_to_24hour` |
| `layout.dfy` | `Layout` | `detect_day_blocks` as a specification and as the loops of the source |
| `rewrite.dfy` | `Rewrite` | the regular-expression substitutions written out as `re.sub`, and `fix_class_group_format` |
| `time_format.dfy` | `TimeFormat` | `clean_time_value` and `fix_time_format` |
| `cell_text.dfy` | `CellText` | reading one class cell: lines, group lines, time lines, teacher lines, the teacher column |
| `records.dfy` | `Records` | `get_merged_time_range`, the room-by-time loop with its processed set, and the whole conversion |
| `normalize.dfy` | `Normalize` | `parse_multiple_teachers`, `parse_groups`, `normalize_time`, `time_to_minutes`, `extract_semester_info`, and the two sorts of `app.py` |
| `merge.dfy` | `Merge` | `repr` of strings and lists, and `merge_consecutive_slots` |
| `timetable.dfy` | `Timetable` | what `process_file` builds, and what `get_timetable` and `get_sections` answer, as functions |
| `routes.dfy` | `Routes` | the `Store` class: `timetable_data` and `teacher_names` and the methods that change and read them |
| `client.dfy` | `Client` | `timeToMinutes` with `parseInt`, the page's sort, dedupe and merge, and the `Schedule` class |

## Modelling choices

- **Characters.** Character classes (`\d`, `\w`, `\s`, `isdigit`, `upper`,
  `lower`) are taken over ASCII. Python's wider Unicode classes are not
  modelled.
- **Cells.** A cell value is `None`, text, or a date. A number in a cell
  stands as its text, so a numeric zero counts as present where Python would
  take it as false (see "Left out"). A date is kept as its weekday and the
  text `str()` gives for it.
- **Failures.** Every point where the source raises becomes a `None` result:
  - a day label in row 1 sends the time row to row 0;
  - a class cell whose text is only white space;
  - `int()` on a start time that is not a number;
  - blocks that are found but give no row: the DataFrame then has no columns and reading its `Time` column raises KeyError (converter.py:448, 464).
- **Visited day labels.** `detect_day_blocks` acts on every day label in
  column B except one whose row the label just above it already put into
  `processed_rows`. That happens when the upper label has a time header in its
  own row and the same day repeated below it. `Layout.Visited` states this
  rule without reference to the loop, and the scan is proved to return
  exactly the blocks of the visited labels.
- **Dictionary order.** `timetable_data`'s key order is kept as the `order`
  sequence, because `dict` iterates in insertion order.
- **Sorting.** `sorted`, `list.sort` and `Array.prototype.sort` are stable.
  All three are modelled by the stable insertion sort `Ordering.SortBy`,
  which is proved to be a sorted permutation that keeps equal keys in their
  input order. Python's string comparison is code-point order. The page's
  `localeCompare` is locale collation; the model puts code-point order in its
  place (see "Left out").
- **Teachers sort key.** The merge key's `str(teachers)` is computed with a
  model of Python's `repr`. The repr is proved to round-trip
  (`Merge.ReprRoundTrip`).
- **Page-side numbers.** `parseInt` on the page is modelled on unbounded
  integers, which agree with the double-precision result on the clock times
  involved.
- **Dead fallback.** `get_timetable` and `get_sections` have a fallback for
  groups stored as a string. It cannot be reached, because `process_file`
  always stores a list, so it is not modelled.
- **Schedule duplicates.** `addToSchedule` refuses a subject and section
  pair that an item of the schedule already has, by comparing the two
  strings. The page's merge compares the group lists of two cards through
  `JSON.stringify`; this is modelled as equality of the lists.
- **Schedule fetch.** What the details request returns is a parameter of
  `Schedule.Add`, as an `Option`.
- **Page dedupe key.** The page's duplicate key joins its fields with `-`.
  It is kept as such: two different entries can share it.

## Model

| member | source | states |
|---|---|---|
| Sheet.GetCellValueSpec | converter.py:49-56 | a cell no merged range covers reads as itself; a covered cell reads as the anchor (top-left) of a range covering it |
| Sheet.MergedCellReadsAnchor | converter.py:49-56 | in a well-formed sheet every cell of a merged range, and the anchor itself, reads as the anchor's value |
| Sheet.CoveringUnique | converter.py:49-56 | in a well-formed sheet at most one merged range covers a cell, so the first range found is the only one |
| Sheet.TimeRangeFromSpec | converter.py:23-30 | the search for the time pattern succeeds exactly when the pattern matches at some position of the text |
| Sheet.TimeHeaderExample | converter.py:23-30 | "8:00-9:20" is a time header |
| Sheet.PeriodHeaderIsNotTimeCell | converter.py:23-30 | "10:45 AM - 12:25 PM" is not a time header, because the pattern allows only white space before the dash |
| Sheet.DateIsDayName | converter.py:32-38 | a datetime cell is always a day label |
| Sheet.Convert24Hour | converter.py:8-21 | an empty period returns the time unchanged; otherwise the hour is the 24-hour hour of the given hour and period, zero-padded to two digits with no zero put in front of a longer hour, and the minutes are copied as written |
| Sheet.Convert24HourAfternoon | converter.py:8-21 | "1:30" pm becomes "13:30" |
| Sheet.Convert24HourMorning | converter.py:8-21 | "10:45" AM stays "10:45" |
| Sheet.Convert24HourMidnight | converter.py:8-21 | "12:05" AM becomes "00:05" |
| Sheet.Convert24HourNoon | converter.py:8-21 | "12:25" PM stays "12:25" |
| Layout.ClassifyAgrees | converter.py:40-167 | the marks read off a worksheet agree with what its cells say |
| Layout.ChooseSpec | converter.py:70-113 | the four layouts of a day block: time header in the day's row with the same label below (the day row moves down one); time header in the day's row; the first "Rooms" label within four rows; otherwise the row above |
| Layout.TimeColsUpToSpec | converter.py:116-123 | the time columns are increasing and are exactly the columns from C on whose header is a time header |
| Layout.RoomScanSpec | converter.py:126-148 | the room rows collected are increasing, inside the scan window, each an acceptable room label, and no day label comes before any of them |
| Layout.DetectCrash | converter.py:40-167 | detection fails exactly when a day label in row 1 sends the time row to row 0 |
| Layout.DetectedBlocks | converter.py:40-167 | the blocks come out in order of their day rows; they are exactly the blocks of the visited day labels, top to bottom, so every visited label with time columns and rooms has its block found and every block comes from a visited label; a label the row above put into `processed_rows` is never visited |
| Layout.DetectFromEmits | converter.py:58-113 | the scan with its `processed_rows` set returns the blocks of the visited day labels, because the set holds, of the rows ahead, only the current row and exactly when the label above claimed it |
| Layout.EmittedFromSpec | converter.py:58-165 | every visited day label's block is listed, and nothing else is |
| Layout.BlockTimeCols | converter.py:96-123 | a block's time row lies on the sheet; its day name is that of its day row; its time columns are non-empty, increasing, and exactly the time headers in columns C to S |
| Layout.BlockRoomRows | converter.py:126-164 | a block's room rows are non-empty, increasing, inside the 20-row window, and each a non-blank, non-"Rooms", non-day label with no day label before it |
| Layout.HasTimeInSameRow | converter.py:72-76 | the column loop finds a time header in the day's row exactly when there is one |
| Layout.FindRoomsLabel | converter.py:96-113 | the row loop returns the first "Rooms" label within the next four rows, if any |
| Layout.ChooseLayout | converter.py:66-113 | the branches of the scan pick the layout ChooseSpec describes |
| Layout.ScanTimeColumns | converter.py:116-123 | the column loop collects the time columns TimeColsUpToSpec describes |
| Layout.CountEmpty | converter.py:143-148 | the look-ahead counts the empty labels in the rows it inspects |
| Layout.ScanRoomRows | converter.py:126-148 | the room loop collects the rows RoomScanSpec describes |
| Layout.ScanDays | converter.py:60-165 | the outer loop over column B produces the blocks of the detection specification |
| Layout.DetectDayBlocks | converter.py:40-167 | detect_day_blocks on a worksheet gives the blocks of the detection specification for what the sheet's cells say |
| Rewrite.FixUnchanged | converter.py:213-238 | a group text with neither '/' nor ',' comes back as it is |
| Rewrite.FixSharedCode | converter.py:218-222 | "BSDS/BSAI-6A" becomes "BSDS-6A & BSAI-6A" for every pair of programmes and section code |
| Rewrite.FixSlashPair | converter.py:225-229 | two full group names around a slash are joined with " & " |
| Rewrite.FixCommaListUnchanged | converter.py:232-236 | "BSSE-2A,2B" is left as it is: the comma rewrite needs a full name on both sides |
| Rewrite.CommaChainFirstPass | converter.py:232-236 | on three comma-separated names, one pass joins only the first two |
| Rewrite.CommaChainSecondPass | converter.py:232-236 | a second pass joins the remaining pair |
| Rewrite.FixNotIdempotentOnChains | converter.py:213-238 | fix_class_group_format is not idempotent on a chain of three names, and the converter applies it three times to the same text (converter.py:377, 443, 465) |
| Rewrite.NoMatchWithout | converter.py:213-238 | a substitution whose pattern needs a '/' or ',' leaves text without one unchanged |
| TimeFormat.CleanTimeValueSpec | converter.py:279-290 | a cleaned header time has no tab, no en or em dash, and a space on either side of every hyphen; an empty cell gives "" |
| TimeFormat.FixTimeFormatSpec | converter.py:450-461 | the same for fix_time_format, and an empty time stays empty |
| TimeFormat.FixTimeRange | converter.py:450-461 | two clock times around any dash, with spaces, become "c1 - c2" |
| TimeFormat.FixTabRange | converter.py:450-461 | white space holding a tab between two clock times becomes " - " |
| TimeFormat.TabGapWhole | converter.py:455 | a clock time, white space with a tab, and a clock time form one match of the tab rewrite |
| CellText.CellLinesSpec | converter.py:362 | every line of a cell is stripped, not blank, and has no newline |
| CellText.GroupMarkFromSpec | converter.py:375 | the group search succeeds exactly when the group pattern matches at some position of the line |
| CellText.BareParenSpec | converter.py:380-381 | a bare time line is white space, '(', a non-empty text without ')', ')' and white space; its content is that text |
| CellText.BareParenExact | converter.py:380-381 | every line of that form is recognised, with that content |
| CellText.TeacherParenExact | converter.py:401-404 | a line "name (c)" with a stripped name without '(' gives that teacher name and content |
| CellText.SlotWithoutPeriods | converter.py:384-397 | a time range without AM/PM is copied as "start - end", which fix_time_format leaves unchanged |
| CellText.ClockReads | converter.py:384 | the text read as a clock time is a clock time |
| CellText.ParseLines | converter.py:373-424 | the loop over the lines after the subject computes the line-by-line specification |
| CellText.ApplyLineSpec | converter.py:373-424 | a group line adds its reformatted text to the groups; a line with a readable time sets the slot; a line that is neither a group line nor a bare time adds one teacher: the name in front of its parenthesised time, or else the whole line |
| CellText.ParseUpToSpec | converter.py:373-424 | the groups are the group lines reformatted, in order; the slot is the last time read (a later one overrides); the teachers are, in order, the name in front of the parentheses or else the whole line of each line that is not a group line or a bare time |
| CellText.TeacherFieldNoComma | converter.py:435 | the teacher column never holds a comma |
| CellText.TeacherFieldPlain | converter.py:435 | stripped, non-blank, comma-free teachers come out joined by single spaces |
| CellText.ParseCell | converter.py:362-435 | reading a cell's text computes the cell outcome (skip, crash, or entry) |
| CellText.ReadCellSpec | converter.py:362-368 | an entry's subject is a stripped, one-line first line that is not a filler subject, and its teacher column has no comma; a crash means the cell had no line; a skip means the first line is a filler subject |
| Records.DetectedBlocksOk | converter.py:40-167 | every block detection returns has the shape the extraction loop needs |
| Records.GetMergedTimeRange | converter.py:294-329 | the loop over merged ranges computes the merged-time specification |
| Records.MergedUncovered | converter.py:294-329 | a cell no merged range covers takes its own column's header time |
| Records.MergedInRange | converter.py:294-329 | in a well-formed sheet, a cell inside a range takes what that range decides, or its own column's header when the range decides nothing |
| Records.MergedSkips | converter.py:300-326 | ranges that do not cover the cell are passed over |
| Records.MergedTimeShape | converter.py:294-329 | every header-derived time is a cleaned header or a clock range |
| Records.ClockRangeCanonical | converter.py:450-461 | a clock range "s - e" is already in the form fix_time_format gives |
| Records.ClaimedSpec | converter.py:344-359 | a visited cell marks itself processed, and anything else it marks lies in a merged range |
| Records.StepSpec | converter.py:335-445 | one pass of the inner loop: halts exactly on an unprocessed blank-text cell; a processed cell adds nothing; a non-empty cell marks what it claims; a row is added exactly when the cell reads as a class |
| Records.BlockScanSpec | converter.py:332-445 | the scan of one block lists rows read from its class cells, never a merged class twice, and every class cell no merged range covers; in a well-formed sheet every block cell that reads as a class, merged or not, lies in the range some listed row claimed |
| Records.ScanCovers | converter.py:332-445 | in a well-formed sheet, every cell from the scan's position on that reads as a class, and every processed one, lies in the cells some listed row claimed |
| Records.StepCovers | converter.py:338-366 | marking a cell processed claims its merged range for its own row when it reads as a class, and otherwise claims only cells that read the same |
| Records.ClaimedSameValue | converter.py:49-56 | in a well-formed sheet every cell a block cell claims reads as that cell does |
| Records.BlockScanDistinct | converter.py:332-445 | no cell gives two rows |
| Records.BlockScanCrash | converter.py:332-445 | when the scan of a block fails, the block holds a blank-text cell |
| Records.MarkRange | converter.py:350-354 | the nested loops mark exactly the time-column cells of the range |
| Records.FindCovering | converter.py:348-356 | the loop with its break finds the first range covering the cell |
| Records.MarkProcessed | converter.py:344-359 | the processed set grows by exactly what the cell claims |
| Records.VisitCell | converter.py:335-445 | one pass of the inner loop computes the step specification |
| Records.BuildBlockRows | converter.py:332-445 | the room-by-time loop computes the block's rows |
| Records.RecordAtSpec | converter.py:362-445 | a class cell's row carries the block's day, the stripped room label, a well-formed subject and teacher column, the cell's groups and teachers, and as time the cell's own time line if it has one, else the merged header time |
| Records.BlockRowsSpec | converter.py:332-445 | every row of a block is a class row carrying the block's day |
| Records.DetectAllSheets | converter.py:195-202 | the detection loop over the worksheets computes the detection of every sheet |
| Records.CollectRows | converter.py:252-445 | the extraction loop over the blocks computes the rows of every block |
| Records.ConvertWorkbook | converter.py:169-471 | the converter computes the conversion specification |
| Records.ConvertSpec | converter.py:169-471 | every row of the finished table is a class row whose time has no tab, only plain hyphens, and a space on either side of each |
| Records.ConvertEmpty | converter.py:206-211 | the table is empty exactly when no sheet has a day block; blocks without a single class make the conversion fail |
| Normalize.UpperPrefixesSpec | app.py:30 | the upper-cased prefixes are the prefix hierarchy upper-cased, position by position |
| Normalize.ParseMultipleTeachers | app.py:182-208 | the loop computes the teacher-splitting specification |
| Normalize.MultipleTeachersGroups | app.py:182-208 | the teachers of a non-blank text are the names of its word groups |
| Normalize.MultipleTeachersSpec | app.py:182-208 | blank text names nobody, and only blank text; the names joined by spaces are the input's words upper-cased and joined by spaces; every name after the first starts with a courtesy prefix; text with no prefix word after its first word is one name |
| Normalize.ParseGroups | app.py:210-245 | the method computes the group-expanding specification |
| Normalize.ExpandParts | app.py:219-236 | the loop expands the parts, carrying the last prefix |
| Normalize.FirstGroups | app.py:238-245 | the dedupe loop keeps the first occurrence of every group |
| Normalize.GroupsSpec | app.py:210-245 | blank text names no group; each group appears once and is not empty; the groups are exactly those the parts name, a bare suffix taking the prefix of the nearest full name before it; every full name given is kept; the groups keep the order in which they are first named |
| Normalize.NormalizeTimePieces | app.py:340-349 | a time with a colon normalises to the zero-padded hour and the minute, joined by one colon |
| Normalize.TimeToMinutesSpec | app.py:351-365 | no colon gives 0; "H:MM" with digit strings gives the minutes since midnight, hours 1 to 7 read as afternoon |
| Normalize.TimeToMinutesNotANumber | app.py:351-365 | a minute that is not a number makes the conversion fail |
| Normalize.ExtractSemesterInfoSpec | app.py:92-100 | no "Season-dd" in the name gives "Current Semester"; otherwise the leftmost match |
| Normalize.SemesterAtSpec | app.py:95 | a position matches exactly when a season, '-' and two digits stand there, and the match is that text |
| Normalize.DayIndex | app.py:413-421 | the weekday's position in the week, or 999 for anything else |
| Normalize.SortEntriesSpec | app.py:411-428 | the result has the same entries, ordered by weekday (unknown days last) and then by the start time read as a number |
| Normalize.TimeNumberClock | app.py:423-424 | the start time is read as one number, hours times 100 plus minutes, so "1:30" sorts before "08:30" |
| Normalize.TeacherRank | app.py:461-466 | the position of the first prefix the name starts with, or the number of prefixes when there is none |
| Normalize.SortTeachersSpec | app.py:460-474 | the same names, by prefix rank and then by name; the order the set yields them in does not matter |
| Merge.PyRepr | app.py:373 | repr of a string is quoted at both ends with the quote Python chooses |
| Merge.ReprRoundTrip | app.py:373 | repr loses nothing: reading a repr back gives the string |
| Merge.Joined | app.py:375-409 | the join of a list has no more slots than the list and is empty only when the list is |
| Merge.MergeConsecutiveSlots | app.py:367-409 | the list is sorted in place by the merge key and the result is the specified merge; when a start time does not convert, the list is unchanged and the call fails |
| Merge.StartsConvert | app.py:373 | reports whether every start time converts |
| Merge.JoinConsecutive | app.py:375-409 | the walk with `current` computes the join of the sorted slots |
| Merge.JoinedChains | app.py:375-409 | every merged slot is the start of a chain of input slots stretched to the chain's end |
| Merge.JoinedCount | app.py:375-409 | no slot is lost: the join has one slot per run of slots that follow each other, one more than the breaks |
| Merge.JoinedComplete | app.py:375-409 | no merged slot could be joined with the one before it |
| Merge.JoinedNothingToJoin | app.py:375-409 | a list in which no slot follows its predecessor is left as it is |
| Merge.JoinedIdempotent | app.py:375-409 | merging twice is merging once |
| Merge.JoinedOneChain | app.py:375-409 | a list that is one chain becomes one slot: the first slot stretched to the end of the last |
| Merge.MergeSlotsSpec | app.py:367-409 | an empty list gives an empty list; a start time that does not convert makes the merge fail; otherwise the merge joins the slots sorted by day, start minute, subject, room and teachers, keeps one slot per run of slots that follow each other (one more than the breaks, so no more slots than the input), and leaves no neighbours that could be joined |
| Timetable.SlotOfSpec | app.py:259-299 | a row is kept exactly when its subject is present and not F25 and its teachers are not blank; the kept slot's teachers are the parsed names, non-empty; its groups are the parsed groups; start and end are the stripped sides of the first '-', or the whole time |
| Timetable.NamesOfSpec | app.py:278-279 | teacher_names is exactly the teachers of the kept rows |
| Timetable.PostingsSpec | app.py:305-334 | the postings are the pairs of a merged slot's entry and one of its teachers |
| Timetable.FileAllShape | app.py:305-334 | every teacher is listed once; the listed teachers are those with a list; every posting's teacher has a list holding its slot; no list holds two entries for one slot |
| Timetable.SortedComplete | app.py:305-338 | after the filing and the sort, every posting's teacher has a list holding the posting's slot |
| Timetable.SortedSound | app.py:305-338 | after the filing and the sort, every entry under a teacher was posted to that teacher |
| Timetable.BuiltValid | app.py:247-338 | a successful process_file leaves timetable_data well-formed: keys once each, each list sorted by day and time, no duplicate slot |
| Timetable.BuiltCovers | app.py:247-338 | each teacher of a merged slot has an entry for that slot, and every entry under a teacher is the entry of a merged slot of that teacher |
| Timetable.TimetableOfTeacher | app.py:102-132 | a teacher's timetable is the teacher's stored list as it is, or nothing for an unknown name |
| Timetable.TimetableOfSection | app.py:102-132 | a section's timetable is exactly the filed entries with a group containing the lower-cased name, in day and time order |
| Timetable.TimetableOfAll | app.py:102-132 | without a name, every filed entry, as often as it is filed, in day and time order |
| Timetable.SectionListUnique | app.py:134-150 | the section list is determined: two lists that answer it are equal |
| Routes.Store.constructor | app.py:26-27 | both stores start empty |
| Routes.Store.ProcessFile | app.py:247-338 | teacher_names becomes the names of the kept rows; timetable_data becomes what process_file builds, or stays empty when the merge fails; the store stays well-formed |
| Routes.Store.FileMerged | app.py:302-338 | filing the merged slots and sorting the lists gives what process_file builds |
| Routes.Store.ReadRows | app.py:259-299 | the row loop collects the kept slots and adds their teachers to teacher_names |
| Routes.Store.AddNames | app.py:278-279 | teacher_names grows by exactly the row's teachers |
| Routes.Store.FileSlots | app.py:305-334 | the filing loop files every posting of the merged slots |
| Routes.Store.FileSlot | app.py:307-334 | one merged slot is filed under each of its teachers in turn |
| Routes.Store.FilePosting | app.py:318-334 | one posting is appended unless a duplicate is found; a new teacher becomes a new key |
| Routes.Store.SortEachList | app.py:337-338 | each teacher's list is replaced by its sorted copy |
| Routes.Store.GetTimetable | app.py:102-132 | the route answers the timetable specification |
| Routes.Store.GetSections | app.py:134-150 | the route answers the section list: every group of a filed entry once, sorted |
| Routes.Store.CollectSections | app.py:136-147 | the loop collects the groups of all filed entries |
| Routes.Store.SortedTeacherNames | app.py:175 | every teacher name once, by prefix rank and then by name |
| Routes.ListOfSet | app.py:469-472 | a set is listed with each element once |
| Routes.HasDuplicate | app.py:319-326 | finds a duplicate exactly when an entry with the same day, start, end, room and subject is present |
| Client.ParseIntJsLeadingDigits | static/script.js:190-206 | parseInt reads the digits at the front and ignores what follows |
| Client.TimeToMinutesJsNoColon | static/script.js:190-206 | a time with no colon counts as midnight |
| Client.ClockAgrees | static/script.js:190-206 | on "H:MM" with digit strings the page and the server agree: minutes since midnight, hours 1 to 7 read as afternoon |
| Client.DayIndexJs | static/script.js:169-187 | the weekday's position, -1 for anything else |
| Client.SortEntriesByDayAndTime | static/script.js:169-187 | sorts the entries in place, stably, by the page's day and time key |
| Client.CardOrderSpec | static/script.js:169-187 | the same entries, by weekday and then by start minutes; an entry whose day is not a weekday comes before every entry whose day is |
| Client.Merged | static/script.js:475-503 | the merge keeps the first start and the last end, and never has more entries than its input |
| Client.MergeConsecutiveSlots | static/script.js:455-503 | the array is sorted in place by the merge order, and the result is the merge of the sorted entries |
| Client.MergedCount | static/script.js:475-503 | the merge keeps one entry per run: one more than the breaks |
| Client.MergedComplete | static/script.js:475-503 | no merged entry adjoins the one before it |
| Client.MergedIdempotent | static/script.js:475-503 | merging twice is merging once |
| Client.MergedOneRun | static/script.js:475-503 | a single run becomes its first entry reaching the last entry's end |
| Client.RemoveDuplicateEntries | static/script.js:437-452 | the first entry of each key, in order, then sorted and merged |
| Client.DeduplicatedSpec | static/script.js:437-452 | one entry per key, every key of the input, each entry the first of its key, kept in the input's order (a subsequence of the input), and no more entries shown than that |
| Client.Schedule.constructor | static/script.js:506 | the schedule starts empty |
| Client.Schedule.Add | static/script.js:575-623 | an empty subject or section, a pair already present, a failed request or an empty answer change nothing; otherwise the details are added and the whole schedule is sorted |
| Client.Schedule.Display | static/script.js:626-686 | the display sorts the schedule itself |
| Client.Schedule.Remove | static/script.js:689-692 | splice removes the entry at the clamped index, or nothing past the end; the display sort leaves the rest where it was |
| Client.Schedule.Clear | static/script.js:695-704 | the schedule is emptied only when the user confirms |
| Client.SpliceStart | static/script.js:690 | where splice starts: a negative index counts from the end, and the start is clamped to the list |
| Client.Removed | static/script.js:690 | the list without its entry at the start, or all of it past the end |
| Client.SortedRemoval | static/script.js:689-692 | taking one entry out of a sorted list leaves it sorted |
| Client.AddedContents | static/script.js:604-606 | after an addition the schedule holds the old entries and the details, each as often as before, sorted |
| Ordering.SortByCorrect | app.py:411-428 | the stable sort is a sorted permutation of its input |
| Ordering.SortByStable | app.py:373 | the sort is stable: for every key, the elements with that key come out in the order they went in |
| Ordering.InsertWithKey | app.py:373 | one insertion step puts the new element after every element that has its key |
| Ordering.SortedUnique | app.py:460-474 | two sorted arrangements of the same elements with distinct keys are equal |
| Ordering.SortBySortedIdentity | app.py:109-130 | sorting a list that is already in order leaves it unchanged |
| Ordering.SortInPlace | app.py:373 | the in-place insertion sort leaves the stable sort of what the array held |
| Ordering.FirstByKeyInOrder | app.py:238-245 | the kept elements sit at strictly increasing positions of the input, each the first of its key |
| Ordering.FirstByKeyCorrect | app.py:238-245 | first-occurrence dedupe keeps every key, each once, each kept element the first of its key, and the kept elements form a subsequence of the input, in input order |

## Left out

- File, CSV and workbook I/O, pandas, openpyxl loading, `print`, and the folder structure (`create_folder_structure`, `get_latest_xlsx_file`, `get_current_csv_file`, the converter wrapper of `app.py`) are not modelled. The converter is given its worksheets, and `process_file` is given its CSV rows.
- `last_modified` and file modification times are not modelled, because they come from the clock and the file system. The index route is modelled only for the teacher list it sorts.
- `generate_cards_html`, the Flask templates and `jsonify` are not modelled, because they only render output.
- The page's `fetch` calls, the DOM, alerts and image capture are not modelled. `Client.Schedule.Add` takes the fetch outcome as a parameter and runs its checks and its push as one step, so a second addition that completes while the request is pending is not modelled.
- `get_subject_details` is not part of this model.
- Unicode character classes and case folding beyond ASCII are not modelled.
- JavaScript floating-point arithmetic is not modelled; `parseInt` works on unbounded integers.
- TimeFormat.FixTimeFormatSpec: states a space on either side of every hyphen rather than exactly one space, because a doubled dash ("--") produces " -  - ".
- Client.MergeConsecutiveSlots: orders cards of the same weekday and start minute by the code points of subject, room and teachers run together, where the page calls `localeCompare`. Locale collation can order two such cards differently (lower-case "art" before "Math", where code points put "Math" first), which changes which neighbours meet and so which slots merge; the model does not capture that order.
- Client.RemoveDuplicateEntries: merges with the same code-point tie-break in place of `localeCompare`, so the same difference in which slots merge applies.
- Sheet.Truthy: a numeric cell is held as its text, so a numeric zero is truthy in the model while Python's `if value` takes `0` as false. The converter's tests of a cell (converter.py:145, 272, 281, 345) would skip a cell holding the number 0 that the model reads.
- Strings.ParseInt: Python's `int()` also accepts underscores between digits ("1_0" is 10) and Unicode digits; the model accepts ASCII digits with an optional sign and surrounding white space only.

/** Reading the text of one timetable cell, as convert_xlsx_to_csv does inside
    its room-by-time loop: the cell is cut into stripped, non-blank lines; the
    first line is the subject; every further line is a group line, a time in
    parentheses, a teacher with a time in parentheses, or a plain teacher
    line.  The regular expressions involved are written out as recognisers. */
module CellText {
  import opened Strings
  import opened Sheet
  import opened Rewrite
  import opened TimeFormat

  // ---------------------------------------------------------------------------
  // Lines

  /** One piece, stripped, or nothing when it is blank. */
  function Kept(p: string): (r: seq<string>)
    ensures |r| <= 1
  {
    if Trim(p) != "" then [Trim(p)] else []
  }

  /** [p.strip() for p in pieces if p.strip()] */
  function KeepNonBlank(pieces: seq<string>): (r: seq<string>)
    ensures |r| <= |pieces|
  {
    if pieces == [] then [] else Kept(pieces[0]) + KeepNonBlank(pieces[1..])
  }

  /** The lines of a cell: str(val).strip().split("\n"), each stripped, blank ones dropped. */
  function CellLines(text: string): seq<string> {
    KeepNonBlank(Split(Trim(text), '\n'))
  }

  /** Stripped and not blank. */
  predicate Tidy(l: string) {
    l != "" && !IsSpace(l[0]) && !IsSpace(l[|l| - 1])
  }

  lemma TrimKeepsCharOut(s: string, c: char)
    requires c !in s
    ensures c !in Trim(s)
  {
    TrimSpec(s);
  }

  lemma {:induction false} KeepNonBlankSpec(pieces: seq<string>, c: char)
    requires forall k | 0 <= k < |pieces| :: c !in pieces[k]
    ensures forall k | 0 <= k < |KeepNonBlank(pieces)| :: Tidy(KeepNonBlank(pieces)[k]) && c !in KeepNonBlank(pieces)[k]
  {
    if pieces != [] {
      KeepNonBlankSpec(pieces[1..], c);
      TrimSpec(pieces[0]);
      TrimKeepsCharOut(pieces[0], c);
    }
  }

  /** Every line of a cell is stripped, not blank and holds no newline. */
  lemma CellLinesSpec(text: string)
    ensures forall k | 0 <= k < |CellLines(text)| :: Tidy(CellLines(text)[k]) && '\n' !in CellLines(text)[k]
  {
    KeepNonBlankSpec(Split(Trim(text), '\n'), '\n');
  }

  // ---------------------------------------------------------------------------
  // Group lines: re.search(r'\b(BS\w{2,4})[-/]\d+[A-Za-z]*', line)

  /** `\w{n}` at j, then '-' or '/', then a digit. */
  predicate GroupTail(s: string, j: nat, n: nat) {
    j + n + 1 < |s| && (forall k | j <= k < j + n :: IsWordChar(s[k]))
    && (s[j + n] == '-' || s[j + n] == '/') && IsDigit(s[j + n + 1])
  }

  /** The group pattern matches at i (the `[A-Za-z]*` at its end may match nothing). */
  predicate GroupMarkAt(s: string, i: nat) {
    WordStart(s, i) && i + 2 <= |s| && s[i] == 'B' && s[i + 1] == 'S'
    && (GroupTail(s, i + 2, 2) || GroupTail(s, i + 2, 3) || GroupTail(s, i + 2, 4))
  }

  predicate GroupMarkFrom(s: string, i: nat)
    decreases |s| - i
  {
    i < |s| && (GroupMarkAt(s, i) || GroupMarkFrom(s, i + 1))
  }

  predicate IsGroupLine(s: string) {
    GroupMarkFrom(s, 0)
  }

  lemma {:induction false} GroupMarkFromSpec(s: string, i: nat)
    ensures GroupMarkFrom(s, i) <==> exists k | i <= k < |s| :: GroupMarkAt(s, k)
    decreases |s| - i
  {
    if i < |s| {
      GroupMarkFromSpec(s, i + 1);
      if GroupMarkFrom(s, i + 1) && !GroupMarkAt(s, i) {
        var k :| i + 1 <= k < |s| && GroupMarkAt(s, k);
        assert i <= k;
      }
    }
  }

  // ---------------------------------------------------------------------------
  // Parentheses: `\(([^)]+)\)\s*$`

  /** Where `[^)]*` starting at i stops: the first ')' at or after i, or the end. */
  function CloseFrom(s: string, i: nat): (e: nat)
    requires i <= |s|
    ensures i <= e <= |s| && (e < |s| ==> s[e] == ')')
    ensures forall k | i <= k < e :: s[k] != ')'
    decreases |s| - i
  {
    if i == |s| || s[i] == ')' then i else CloseFrom(s, i + 1)
  }

  /** `\(([^)]+)\)\s*$` matches at j. */
  predicate ParenTailAt(s: string, j: nat) {
    j < |s| && s[j] == '(' && var e := CloseFrom(s, j + 1);
    j + 1 < e < |s| && SkipSpaces(s, e + 1) == |s|
  }

  function ParenContent(s: string, j: nat): string
    requires ParenTailAt(s, j)
  {
    s[j + 1..CloseFrom(s, j + 1)]
  }

  /** re.match(r'^\s*\(([^)]+)\)\s*$', line): the text between the parentheses. */
  function BareParen(s: string): Option<string> {
    var j := SkipSpaces(s, 0);
    if ParenTailAt(s, j) then Some(ParenContent(s, j)) else None
  }

  /** From x, white space and then a parenthesised tail to the end. */
  predicate TailFrom(s: string, x: nat) {
    ParenTailAt(s, SkipSpaces(s, x))
  }

  /** The lazy `(.*?)`: the shortest prefix after which the rest matches
      `\s*\(([^)]+)\)\s*$`. */
  function LazyFrom(s: string, a: nat): (r: Option<nat>)
    ensures r.Some? ==> a <= r.value <= |s| && TailFrom(s, r.value)
    decreases |s| + 1 - a
  {
    if a > |s| then None
    else if TailFrom(s, a) then Some(a)
    else LazyFrom(s, a + 1)
  }

  /** re.match(r"(.*?)\s*\(([^)]+)\)\s*$", line): the stripped teacher name and
      the text between the parentheses. */
  function TeacherParen(s: string): Option<(string, string)> {
    match LazyFrom(s, 0)
    case None => None
    case Some(a) => Some((Trim(s[..a]), ParenContent(s, SkipSpaces(s, a))))
  }

  lemma {:induction false} LazyFromFirst(s: string, a: nat)
    ensures match LazyFrom(s, a)
      case Some(b) => forall x | a <= x < b :: !TailFrom(s, x)
      case None => forall x | a <= x <= |s| :: !TailFrom(s, x)
  {
    match LazyFrom(s, a)
    case Some(b) => LazyFromBefore(s, a, b);
    case None => LazyFromNone(s, a);
  }

  lemma {:induction false} LazyFromBefore(s: string, a: nat, b: nat)
    requires LazyFrom(s, a) == Some(b)
    ensures forall x | a <= x < b :: !TailFrom(s, x)
    decreases |s| + 1 - a
  {
    if a < b {
      assert !TailFrom(s, a);
      LazyFromBefore(s, a + 1, b);
    }
  }

  lemma {:induction false} LazyFromNone(s: string, a: nat)
    requires LazyFrom(s, a) == None
    ensures forall x | a <= x <= |s| :: !TailFrom(s, x)
    decreases |s| + 1 - a
  {
    if a <= |s| {
      LazyFromNone(s, a + 1);
    }
  }

  /** s is white space, '(', c, ')' and white space, the '(' at j. */
  predicate ParenLine(s: string, j: nat, c: string) {
    j + |c| + 2 <= |s| && s[j] == '(' && s[j + 1..j + 1 + |c|] == c && s[j + 1 + |c|] == ')'
    && AllSpace(s[..j]) && AllSpace(s[j + |c| + 2..])
  }

  /** What BareParen accepts: white space, '(', a non-empty text without ')',
      ')' and white space to the end; the content is that text. */
  lemma BareParenSpec(s: string)
    ensures match BareParen(s)
      case Some(c) => c != "" && ')' !in c && ParenLine(s, SkipSpaces(s, 0), c)
      case None => true
  {
    var j := SkipSpaces(s, 0);
    if ParenTailAt(s, j) {
      var e := CloseFrom(s, j + 1);
      var c := s[j + 1..e];
      assert BareParen(s) == Some(c);
      assert |c| == e - j - 1;
      assert ')' !in c by {
        forall k | 0 <= k < |c| ensures c[k] != ')' { assert c[k] == s[j + 1 + k]; }
      }
      SpacesBefore(s, 0, j);
      SpacesBefore(s, e + 1, |s|);
      assert s[..j] == s[0..j];
      assert s[e + 1..] == s[e + 1..|s|];
    }
  }

  lemma SpacesBefore(s: string, i: nat, j: nat)
    requires i <= |s| && j == SkipSpaces(s, i) && j <= |s|
    ensures AllSpace(s[i..j])
  {
    SkipSpacesSpec(s, i);
    forall k | 0 <= k < j - i ensures IsSpace(s[i..j][k]) { assert s[i..j][k] == s[i + k]; }
  }

  /** `\s*` skips exactly white space. */
  lemma {:induction false} SkipSpacesSpec(s: string, i: nat)
    ensures forall k | i <= k < SkipSpaces(s, i) :: IsSpace(s[k])
    decreases |s| - i
  {
    if i < |s| && IsSpace(s[i]) {
      SkipSpacesSpec(s, i + 1);
    }
  }

  /** A line "w1(c)w2" with white space around and a non-empty c without ')'
      is a bare time line whose content is c. */
  lemma BareParenExact(w1: string, c: string, w2: string)
    requires AllSpace(w1) && AllSpace(w2) && c != "" && ')' !in c
    ensures BareParen(w1 + "(" + c + ")" + w2) == Some(c)
  {
    var s := w1 + "(" + c + ")" + w2;
    ParenTailShape(w1, c, w2);
    SkipRun(s, 0, |w1|);
  }

  /** "(c)" followed by white space is a parenthesised tail wherever it starts. */
  lemma ParenTailShape(w1: string, c: string, w2: string)
    requires AllSpace(w2) && c != "" && ')' !in c
    ensures var s := w1 + "(" + c + ")" + w2;
      && (forall k | 0 <= k < |w1| :: s[k] == w1[k]) && s[|w1|] == '('
      && ParenTailAt(s, |w1|) && ParenContent(s, |w1|) == c
  {
    var s, j := w1 + "(" + c + ")" + w2, |w1|;
    var e := j + 1 + |c|;
    forall k | 0 <= k < j ensures s[k] == w1[k] { }
    forall k | j + 1 <= k < e ensures s[k] != ')' { assert s[k] == c[k - j - 1]; }
    forall k | e + 1 <= k < |s| ensures IsSpace(s[k]) { assert s[k] == w2[k - e - 1]; }
    var u := w1 + "(" + c;
    assert s == u + ")" + w2;
    assert s[j + 1..e] == u[j + 1..];
    CloseAt(s, j + 1, e);
    SkipRun(s, e + 1, |s|);
  }

  /** A line "name w(c)w2" whose name is stripped and holds no '(' gives that
      teacher name and the content c. */
  lemma TeacherParenExact(name: string, w: string, c: string, w2: string)
    requires Tidy(name) && '(' !in name && AllSpace(w) && AllSpace(w2) && c != "" && ')' !in c
    ensures TeacherParen(name + w + "(" + c + ")" + w2) == Some((name, c))
  {
    var s := name + w + "(" + c + ")" + w2;
    var n := |name|;
    ParenTailShape(name + w, c, w2);
    SkipRun(s, n, n + |w|);
    forall x | 0 <= x < n ensures !TailFrom(s, x) {
      SkipSpacesSpec(s, x);
      var y := SkipSpaces(s, x);
      assert !IsSpace(s[n - 1]) by {
        assert s[n - 1] == name[n - 1];
      }
      assert y < n;
      assert s[y] == name[y];
    }
    LazyFromAt(s, 0, n);
    assert s[..n] == name;
    TidyTrim(name);
  }

  lemma {:induction false} LazyFromAt(s: string, a: nat, b: nat)
    requires a <= b <= |s| && TailFrom(s, b)
    requires forall x | a <= x < b :: !TailFrom(s, x)
    ensures LazyFrom(s, a) == Some(b)
    decreases b - a
  {
    if a < b {
      LazyFromAt(s, a + 1, b);
    }
  }

  lemma {:induction false} CloseAt(s: string, i: nat, e: nat)
    requires i <= e < |s| && s[e] == ')' && forall k | i <= k < e :: s[k] != ')'
    ensures CloseFrom(s, i) == e
    decreases e - i
  {
    if i < e {
      CloseAt(s, i + 1, e);
    }
  }

  // ---------------------------------------------------------------------------
  // Times: re.search(r'(\d{1,2}:\d{2})\s*(AM|PM)?\s*(?:-|TO|to)\s*(\d{1,2}:\d{2})\s*(AM|PM)?',
  //                  text, re.IGNORECASE)

  /** The two clock times of a match and the AM/PM written after each ("" if none). */
  datatype ClockMatch = ClockMatch(start: string, startPeriod: string, end: string, endPeriod: string)

  /** `(AM|PM)?` at p, ignoring case: its length. */
  function PeriodAt(t: string, p: nat): (n: nat)
    ensures n == 0 || (n == 2 && p + 2 <= |t|)
  {
    if p + 2 <= |t| && (UpperChar(t[p]) == 'A' || UpperChar(t[p]) == 'P') && UpperChar(t[p + 1]) == 'M' then 2
    else 0
  }

  /** `(?:-|TO|to)` at q, ignoring case: its length, 0 when absent. */
  function SepAt(t: string, q: nat): (n: nat)
    ensures n == 0 || (q + n <= |t| && (n == 1 || n == 2))
  {
    if q < |t| && t[q] == '-' then 1
    else if q + 2 <= |t| && LowerChar(t[q]) == 't' && LowerChar(t[q + 1]) == 'o' then 2
    else 0
  }

  /** The clock text that `\d{1,2}:\d{2}` reads at i fits convert_to_24hour. */
  lemma ClockHourMinute(t: string, i: nat)
    requires ClockLength(t, i) > 0
    ensures HourMinute(t[i..i + ClockLength(t, i)])
  {
    var c := t[i..i + ClockLength(t, i)];
    if ClockLength(t, i) == 4 {
      assert c[1] == ':' && c[..1] == [c[0]];
      ColonIndexAt(c, 1);
      assert c[2..] == [c[2], c[3]];
    } else {
      assert c[2] == ':' && c[..2] == [c[0], c[1]];
      ColonIndexAt(c, 2);
      assert c[3..] == [c[3], c[4]];
    }
  }

  /** The text `\d{1,2}:\d{2}` reads at i. */
  function ClockText(t: string, i: nat): (c: string)
    requires ClockLength(t, i) > 0
    ensures HourMinute(c) && Clock(c)
  {
    ClockHourMinute(t, i);
    ClockReads(t, i);
    t[i..i + ClockLength(t, i)]
  }

  predicate ValidMatch(m: ClockMatch) {
    HourMinute(m.start) && HourMinute(m.end)
  }

  /** The time pattern matched at i. */
  function TimeMatchAt(t: string, i: nat): (m: Option<ClockMatch>)
    ensures m.Some? ==> ValidMatch(m.value) && Clock(m.value.start) && Clock(m.value.end)
  {
    if ClockLength(t, i) == 0 then None
    else
      var p := SkipSpaces(t, i + ClockLength(t, i));
      var q := SkipSpaces(t, p + PeriodAt(t, p));
      if SepAt(t, q) == 0 then None
      else SecondClock(t, i, p, SkipSpaces(t, q + SepAt(t, q)))
  }

  /** The rest of a match whose first clock is at i, whose first AM/PM would
      be at p and whose second clock would be at r. */
  function SecondClock(t: string, i: nat, p: nat, r: nat): (m: Option<ClockMatch>)
    requires ClockLength(t, i) > 0 && p <= |t|
    ensures m.Some? ==> ValidMatch(m.value) && Clock(m.value.start) && Clock(m.value.end)
  {
    if ClockLength(t, r) == 0 then None
    else
      var u := SkipSpaces(t, r + ClockLength(t, r));
      Some(ClockMatch(ClockText(t, i), t[p..p + PeriodAt(t, p)], ClockText(t, r), t[u..u + PeriodAt(t, u)]))
  }

  /** re.search: the match at the first position where there is one. */
  function TimeMatchFrom(t: string, i: nat): (r: Option<ClockMatch>)
    ensures r.Some? ==> ValidMatch(r.value) && Clock(r.value.start) && Clock(r.value.end)
    decreases |t| - i
  {
    if i >= |t| then None
    else if TimeMatchAt(t, i).Some? then TimeMatchAt(t, i)
    else TimeMatchFrom(t, i + 1)
  }

  /** f"{start_time} - {end_time}", each converted to 24-hour time when an
      AM/PM followed it. */
  function SlotText(m: ClockMatch): string
    requires ValidMatch(m)
  {
    Convert24Hour(m.start, m.startPeriod) + " - " + Convert24Hour(m.end, m.endPeriod)
  }

  /** The teacher_timeslot a parenthesised text yields, if any. */
  function TimeSlotOf(text: string): Option<string> {
    match TimeMatchFrom(Trim(text), 0)
    case None => None
    case Some(m) => Some(SlotText(m))
  }

  /** A time range written without AM/PM is copied as it is, and is then
      already in the form fix_time_format produces. */
  lemma SlotWithoutPeriods(m: ClockMatch)
    requires ValidMatch(m) && m.startPeriod == "" && m.endPeriod == ""
    requires Clock(m.start) && Clock(m.end)
    ensures SlotText(m) == m.start + " - " + m.end
    ensures FixTimeFormat(SlotText(m)) == SlotText(m)
  {
    FixTimeRange(m.start, " ", '-', " ", m.end);
    SpacedLiteral(m.start, m.end);
  }

  /** The text ClockLength reads at i is itself a clock time. */
  lemma ClockReads(t: string, i: nat)
    requires ClockLength(t, i) > 0
    ensures Clock(t[i..i + ClockLength(t, i)])
  {
    var c := t[i..i + ClockLength(t, i)];
    assert c[0] == t[i] && c[1] == t[i + 1] && c[2] == t[i + 2] && c[3] == t[i + 3];
    if |c| == 5 {
      assert c[4] == t[i + 4];
    }
  }

  // ---------------------------------------------------------------------------
  // The lines after the subject

  /** What the lines after the subject have produced so far. */
  datatype Parsed = Parsed(groups: seq<string>, teachers: seq<string>, slot: Option<string>)

  /** One line: a group line is reformatted and kept as a group; a bare time
      in parentheses only sets the time slot (when a time can be read from
      it); a teacher with a time in parentheses adds the teacher and sets the
      time slot when a time can be read; anything else is a teacher. */
  function ApplyLine(st: Parsed, line: string): Parsed {
    if IsGroupLine(line) then st.(groups := st.groups + [FixClassGroupFormat(line)])
    else match BareParen(line)
      case Some(c) =>
        (match TimeSlotOf(c) case Some(t) => st.(slot := Some(t)) case None => st)
      case None =>
        match TeacherParen(line)
        case Some((name, c)) =>
          var slot := match TimeSlotOf(c) case Some(t) => Some(t) case None => st.slot;
          st.(teachers := st.teachers + [name], slot := slot)
        case None => st.(teachers := st.teachers + [line])
  }

  /** The first n lines applied in order. */
  function ParseUpTo(lines: seq<string>, n: nat): Parsed
    requires n <= |lines|
  {
    if n == 0 then Parsed([], [], None) else ApplyLine(ParseUpTo(lines, n - 1), lines[n - 1])
  }

  /** The loop over lines[1:]. */
  method ParseLines(lines: seq<string>) returns (groups: seq<string>, teachers: seq<string>, slot: Option<string>)
    ensures Parsed(groups, teachers, slot) == ParseUpTo(lines, |lines|)
  {
    var st := Parsed([], [], None);
    var i := 0;
    while i < |lines|
      invariant 0 <= i <= |lines|
      invariant st == ParseUpTo(lines, i)
    {
      st := ReadLineAt(lines, i, st);
      i := i + 1;
    }
    groups, teachers, slot := st.groups, st.teachers, st.slot;
  }

  /** Line i read into the state after the lines before it. */
  method ReadLineAt(lines: seq<string>, i: nat, st: Parsed) returns (next: Parsed)
    requires i < |lines| && st == ParseUpTo(lines, i)
    ensures next == ParseUpTo(lines, i + 1)
  {
    next := ReadLine(st, lines[i]);
  }

  /** The body of the loop over lines[1:]. */
  method ReadLine(st: Parsed, line: string) returns (next: Parsed)
    ensures next == ApplyLine(st, line)
  {
    var groups, teachers, slot := st.groups, st.teachers, st.slot;
    if IsGroupLine(line) {
      groups := groups + [FixClassGroupFormat(line)];
    } else {
      var bare := BareParen(line);
      if bare.Some? {
        var t := TimeSlotOf(bare.value);
        if t.Some? {
          slot := t;
        }
      } else {
        var tp := TeacherParen(line);
        if tp.Some? {
          var t := TimeSlotOf(tp.value.1);
          if t.Some? {
            slot := t;
          }
          teachers := teachers + [tp.value.0];
        } else {
          teachers := teachers + [line];
        }
      }
    }
    next := Parsed(groups, teachers, slot);
  }

  /** The group lines, reformatted, in order. */
  function GroupsOf(lines: seq<string>): seq<string> {
    if lines == [] then []
    else
      GroupsOf(lines[..|lines| - 1])
      + (if IsGroupLine(lines[|lines| - 1]) then [FixClassGroupFormat(lines[|lines| - 1])] else [])
  }

  /** The time slot the last line that yields one yields. */
  function LineSlot(line: string): Option<string> {
    if IsGroupLine(line) then None
    else match BareParen(line)
      case Some(c) => TimeSlotOf(c)
      case None =>
        match TeacherParen(line)
        case Some((_, c)) => TimeSlotOf(c)
        case None => None
  }

  function LastSlot(lines: seq<string>): Option<string> {
    if lines == [] then None
    else if LineSlot(lines[|lines| - 1]).Some? then LineSlot(lines[|lines| - 1])
    else LastSlot(lines[..|lines| - 1])
  }

  /** A line adds a teacher unless it is a group line or a bare time. */
  predicate AddsTeacher(line: string) {
    !IsGroupLine(line) && BareParen(line).None?
  }

  /** The teacher a line adds: the name before a parenthesised time, or the
      whole line. */
  function TeacherOf(line: string): string {
    match TeacherParen(line)
    case Some((name, _)) => name
    case None => line
  }

  /** The teachers the lines add, in order. */
  function TeachersOf(lines: seq<string>): seq<string> {
    if lines == [] then []
    else
      TeachersOf(lines[..|lines| - 1])
      + (if AddsTeacher(lines[|lines| - 1]) then [TeacherOf(lines[|lines| - 1])] else [])
  }

  /** The groups are exactly the group lines, reformatted and in order; the
      time slot is the one of the last line that gives one (a later time
      overrides an earlier one); the teachers are, in order, one per line
      that is neither a group line nor a bare time: the name in front of its
      parentheses, or else the whole line. */
  lemma {:induction false} ParseUpToSpec(lines: seq<string>, n: nat)
    requires n <= |lines|
    ensures var st := ParseUpTo(lines, n);
      && st.groups == GroupsOf(lines[..n])
      && st.slot == LastSlot(lines[..n])
      && st.teachers == TeachersOf(lines[..n])
  {
    if n > 0 {
      ParseUpToSpec(lines, n - 1);
      var line := lines[n - 1];
      ApplyLineSpec(ParseUpTo(lines, n - 1), line);
      var p := lines[..n];
      assert p[..n - 1] == lines[..n - 1] && p[n - 1] == line;
      assert GroupsOf(p) == GroupsOf(lines[..n - 1]) + (if IsGroupLine(line) then [FixClassGroupFormat(line)] else []);
      assert TeachersOf(p) == TeachersOf(lines[..n - 1]) + (if AddsTeacher(line) then [TeacherOf(line)] else []);
      assert LastSlot(p) == if LineSlot(line).Some? then LineSlot(line) else LastSlot(lines[..n - 1]);
    }
  }

  /** What one line does to each part of the state. */
  lemma ApplyLineSpec(st: Parsed, line: string)
    ensures ApplyLine(st, line).groups == st.groups + (if IsGroupLine(line) then [FixClassGroupFormat(line)] else [])
    ensures ApplyLine(st, line).slot == if LineSlot(line).Some? then LineSlot(line) else st.slot
    ensures ApplyLine(st, line).teachers == st.teachers + (if AddsTeacher(line) then [TeacherOf(line)] else [])
  {
  }

  // ---------------------------------------------------------------------------
  // The teacher column: " ".join(t.strip().strip(",") for t in ", ".join(teachers).split(",") if t.strip())

  function TeacherField(teachers: seq<string>): string {
    Join(KeepNonBlank(Split(Join(teachers, ", "), ',')), " ")
  }

  lemma {:induction false} JoinKeepsOut(parts: seq<string>, sep: string, c: char)
    requires c !in sep && forall k | 0 <= k < |parts| :: c !in parts[k]
    ensures c !in Join(parts, sep)
  {
    if |parts| > 1 {
      JoinKeepsOut(parts[1..], sep, c);
    }
  }

  /** The teacher column never holds a comma. */
  lemma TeacherFieldNoComma(teachers: seq<string>)
    ensures ',' !in TeacherField(teachers)
  {
    var pieces := Split(Join(teachers, ", "), ',');
    KeepNonBlankSpec(pieces, ',');
    JoinKeepsOut(KeepNonBlank(pieces), " ", ',');
  }

  /** Every piece but the first gets the blank ", " left behind. */
  function Prefixed(ts: seq<string>): (r: seq<string>)
    ensures |r| == |ts|
  {
    if ts == [] then [] else [" " + ts[0]] + Prefixed(ts[1..])
  }

  lemma {:induction false} SplitNone(x: string, d: char)
    requires d !in x
    ensures Split(x, d) == [x]
  {
    if x != [] {
      SplitNone(x[1..], d);
      assert [x[0]] + x[1..] == x;
    }
  }

  lemma {:induction false} SplitAt(x: string, d: char, y: string)
    requires d !in x
    ensures Split(x + [d] + y, d) == [x] + Split(y, d)
  {
    if x == [] {
      assert x + [d] + y == [d] + y;
      assert ([d] + y)[1..] == y;
    } else {
      SplitAt(x[1..], d, y);
      assert (x + [d] + y)[1..] == x[1..] + [d] + y;
      assert [x[0]] + x[1..] == x;
    }
  }

  lemma {:induction false} SplitJoin(ts: seq<string>)
    requires ts != [] && forall k | 0 <= k < |ts| :: ',' !in ts[k]
    ensures Split(Join(ts, ", "), ',') == [ts[0]] + Prefixed(ts[1..])
  {
    if |ts| == 1 {
      SplitNone(ts[0], ',');
    } else {
      var rest := Join(ts[1..], ", ");
      assert Join(ts, ", ") == ts[0] + [','] + (" " + rest);
      SplitAt(ts[0], ',', " " + rest);
      SplitJoinSpaced(ts[1..]);
    }
  }

  lemma {:induction false} SplitJoinSpaced(ts: seq<string>)
    requires ts != [] && forall k | 0 <= k < |ts| :: ',' !in ts[k]
    ensures Split(" " + Join(ts, ", "), ',') == Prefixed(ts)
    decreases |ts|
  {
    assert ',' !in " " + ts[0];
    if |ts| == 1 {
      SplitNone(" " + ts[0], ',');
    } else {
      var rest := Join(ts[1..], ", ");
      assert " " + Join(ts, ", ") == (" " + ts[0]) + [','] + (" " + rest);
      SplitAt(" " + ts[0], ',', " " + rest);
      SplitJoinSpaced(ts[1..]);
    }
  }

  lemma TrimAfterSpace(t: string)
    ensures Trim(" " + t) == Trim(t)
  {
    assert (" " + t)[1..] == t;
  }

  lemma {:induction false} KeepTidy(ts: seq<string>)
    requires forall k | 0 <= k < |ts| :: Tidy(ts[k])
    ensures KeepNonBlank(Prefixed(ts)) == ts
  {
    if ts != [] {
      TrimAfterSpace(ts[0]);
      TidyTrim(ts[0]);
      KeepTidy(ts[1..]);
    }
  }

  lemma TidyTrim(t: string)
    requires Tidy(t)
    ensures Trim(t) == t
  {
  }

  lemma {:induction false} KeepNonBlankAppend(a: seq<string>, b: seq<string>)
    ensures KeepNonBlank(a + b) == KeepNonBlank(a) + KeepNonBlank(b)
  {
    if a == [] {
      assert a + b == b;
    } else {
      var ab := a + b;
      assert ab[0] == a[0] && ab[1..] == a[1..] + b;
      assert KeepNonBlank(ab) == Kept(a[0]) + KeepNonBlank(a[1..] + b);
      KeepNonBlankAppend(a[1..], b);
      assert KeepNonBlank(a) == Kept(a[0]) + KeepNonBlank(a[1..]);
    }
  }

  /** Teachers that are stripped, not blank and comma-free come out joined by
      single spaces; a teacher line with commas in it is split there. */
  lemma TeacherFieldPlain(teachers: seq<string>)
    requires forall k | 0 <= k < |teachers| :: Tidy(teachers[k]) && ',' !in teachers[k]
    ensures TeacherField(teachers) == Join(teachers, " ")
  {
    if teachers == [] {
      assert Split("", ',') == [""];
    } else {
      KeptTeachers(teachers);
    }
  }

  lemma KeptTeachers(ts: seq<string>)
    requires ts != [] && forall k | 0 <= k < |ts| :: Tidy(ts[k]) && ',' !in ts[k]
    ensures KeepNonBlank(Split(Join(ts, ", "), ',')) == ts
  {
    SplitJoin(ts);
    KeptPieces(ts);
  }

  lemma KeptPieces(ts: seq<string>)
    requires ts != [] && forall k | 0 <= k < |ts| :: Tidy(ts[k])
    ensures KeepNonBlank([ts[0]] + Prefixed(ts[1..])) == ts
  {
    var first, rest := [ts[0]], Prefixed(ts[1..]);
    KeepNonBlankAppend(first, rest);
    KeepTidy(ts[1..]);
    assert KeepNonBlank(first) == first by {
      TidyTrim(ts[0]);
      assert first[1..] == [];
    }
    assert first + ts[1..] == ts;
  }

  // ---------------------------------------------------------------------------
  // One cell

  const SkipSubjects: seq<string> := ["used in cs department", "namaz break"]

  /** What one non-empty cell gives: Crash for a cell whose text is only white
      space (lines[0] raises IndexError), Skip for the two filler subjects,
      otherwise the subject, the group and teacher columns and the time slot
      read from the text (None: take the time from the header). */
  datatype CellOutcome = Crash | Skip | Entry(subject: string, groups: string, teachers: string, slot: Option<string>)

  function ReadCell(text: string): CellOutcome {
    var lines := CellLines(text);
    if lines == [] then Crash
    else if Lower(lines[0]) in SkipSubjects then Skip
    else
      var st := ParseUpTo(lines[1..], |lines| - 1);
      Entry(lines[0], FixClassGroupFormat(Join(st.groups, " & ")), TeacherField(st.teachers), st.slot)
  }

  method ParseCell(text: string) returns (out: CellOutcome)
    ensures out == ReadCell(text)
  {
    var lines := CellLines(text);
    if lines == [] {
      return Crash;
    }
    if Lower(lines[0]) in SkipSubjects {
      return Skip;
    }
    var groups, teachers, slot := ParseLines(lines[1..]);
    out := Entry(lines[0], FixClassGroupFormat(Join(groups, " & ")), TeacherField(teachers), slot);
  }

  /** An entry's subject is its first line, a stripped non-blank line that is
      not one of the filler subjects, and its teacher column has no comma. */
  lemma ReadCellSpec(text: string)
    ensures match ReadCell(text)
      case Entry(subject, _, teachers, _) =>
        Tidy(subject) && '\n' !in subject && Lower(subject) !in SkipSubjects && ',' !in teachers
      case Crash => CellLines(text) == []
      case Skip => Lower(CellLines(text)[0]) in SkipSubjects
  {
    CellLinesSpec(text);
    var lines := CellLines(text);
    if lines != [] {
      TeacherFieldNoComma(ParseUpTo(lines[1..], |lines| - 1).teachers);
    }
  }
}

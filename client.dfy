/** The browser side: the normalisation the page applies to the entries it
    receives (sorting by day and time, dropping duplicates, merging
    consecutive slots) and the custom schedule the user builds from them. */
module Client {
  import opened Strings
  import opened Ordering
  import opened CellText
  import opened Normalize

  /** An entry object as the page holds it; `section` is set only on the
      entries of the custom schedule (the empty string stands for undefined). */
  datatype Card = Card(day: string, start: string, end: string, location: string,
                       subject: string, groups: seq<string>, teachers: string, section: string)

  // ---------------------------------------------------------------------------
  // parseInt and timeToMinutes

  /** The white space parseInt skips: ECMAScript's WhiteSpace and LineTerminator. */
  predicate IsJsSpace(c: char) {
    c == ' ' || ('\t' <= c <= '\r') || c == '\U{A0}' || c == '\U{1680}'
    || ('\U{2000}' <= c <= '\U{200A}') || c == '\U{2028}' || c == '\U{2029}'
    || c == '\U{202F}' || c == '\U{205F}' || c == '\U{3000}' || c == '\U{FEFF}'
  }

  /** s without its leading white space. */
  function SkipJsSpace(s: string): (r: string)
    ensures |r| <= |s| && r == s[|s| - |r|..]
    ensures r != [] ==> !IsJsSpace(r[0])
  {
    if s != [] && IsJsSpace(s[0]) then SkipJsSpace(s[1..]) else s
  }

  /** The length of the run of decimal digits at the front of s. */
  function DigitRun(s: string): (k: nat)
    ensures k <= |s| && AllDigits(s[..k]) && (k < |s| ==> !IsDigit(s[k]))
  {
    if s != [] && IsDigit(s[0]) then
      var k := 1 + DigitRun(s[1..]);
      assert s[..k] == [s[0]] + s[1..][..k - 1];
      k
    else 0
  }

  predicate IsHexDigit(c: char) {
    IsDigit(c) || 'a' <= c <= 'f' || 'A' <= c <= 'F'
  }

  predicate AllHex(s: string) {
    forall i | 0 <= i < |s| :: IsHexDigit(s[i])
  }

  function HexDigitValue(c: char): (v: nat)
    requires IsHexDigit(c)
    ensures v < 16
  {
    if IsDigit(c) then DigitValue(c)
    else if 'a' <= c <= 'f' then c as int - 'a' as int + 10
    else c as int - 'A' as int + 10
  }

  /** The length of the run of hexadecimal digits at the front of s. */
  function HexRun(s: string): (k: nat)
    ensures k <= |s| && AllHex(s[..k]) && (k < |s| ==> !IsHexDigit(s[k]))
  {
    if s != [] && IsHexDigit(s[0]) then
      var k := 1 + HexRun(s[1..]);
      assert s[..k] == [s[0]] + s[1..][..k - 1];
      k
    else 0
  }

  function HexValue(s: string): nat
    requires AllHex(s)
  {
    if s == [] then 0 else HexValue(s[..|s| - 1]) * 16 + HexDigitValue(s[|s| - 1])
  }

  /** parseInt(s) with no radix: leading white space, an optional sign, then
      the longest run of digits, hexadecimal after "0x" or "0X"; None is NaN,
      which an empty run gives. */
  function ParseIntJs(s: string): Option<int> {
    var t := SkipJsSpace(s);
    var negative := t != [] && t[0] == '-';
    var body := if t != [] && (t[0] == '+' || t[0] == '-') then t[1..] else t;
    match Magnitude(body)
    case None => None
    case Some(v) => Some(if negative then -(v as int) else v)
  }

  /** The unsigned number at the front of s: hexadecimal digits after "0x"
      or "0X", decimal digits otherwise; None when there are none. */
  function Magnitude(body: string): Option<nat> {
    if |body| >= 2 && body[0] == '0' && (body[1] == 'x' || body[1] == 'X') then
      var hex := body[2..];
      var k := HexRun(hex);
      if k == 0 then None else Some(HexValue(hex[..k]))
    else
      var k := DigitRun(body);
      if k == 0 then None else Some(DigitsValue(body[..k]))
  }

  /** parseInt reads the digits at the front and ignores what follows them. */
  lemma ParseIntJsLeadingDigits(d: string, rest: string)
    requires d != [] && AllDigits(d)
    requires rest != [] ==> !IsDigit(rest[0])
    requires |d| == 1 && rest != [] ==> rest[0] != 'x' && rest[0] != 'X'
    ensures ParseIntJs(d + rest) == Some(DigitsValue(d))
  {
    var s := d + rest;
    assert s[0] == d[0] && IsDigit(s[0]);
    assert !IsJsSpace(s[0]);
    assert SkipJsSpace(s) == s;
    assert s[0] != '+' && s[0] != '-';
    MagnitudeOfDigits(d, rest);
  }

  lemma MagnitudeOfDigits(d: string, rest: string)
    requires d != [] && AllDigits(d)
    requires rest != [] ==> !IsDigit(rest[0])
    requires |d| == 1 && rest != [] ==> rest[0] != 'x' && rest[0] != 'X'
    ensures Magnitude(d + rest) == Some(DigitsValue(d))
  {
    var s := d + rest;
    assert |s| >= 2 ==> s[1] != 'x' && s[1] != 'X' by {
      if |s| >= 2 && |d| == 1 { assert s[1] == rest[0]; }
    }
    DigitRunOf(d, rest);
    assert s[..|d|] == d;
  }

  lemma {:induction false} DigitRunOf(d: string, rest: string)
    requires AllDigits(d)
    requires rest != [] ==> !IsDigit(rest[0])
    ensures DigitRun(d + rest) == |d|
  {
    if d != [] {
      assert (d + rest)[1..] == d[1..] + rest;
      DigitRunOf(d[1..], rest);
    } else {
      assert d + rest == rest;
    }
  }

  /** `parseInt(x) || 0`: NaN becomes 0. */
  function OrZero(r: Option<int>): int {
    if r.Some? then r.value else 0
  }

  /** timeToMinutes: 0 for an empty string or one that is not two
      colon-separated pieces; otherwise both pieces through parseInt (NaN read
      as 0), an hour from 1 to 7 read as an afternoon hour. */
  function TimeToMinutesJs(t: string): int {
    if t == "" then 0
    else
      var parts := Split(t, ':');
      if |parts| != 2 then 0
      else ClockMinutes(OrZero(ParseIntJs(parts[0])), OrZero(ParseIntJs(parts[1])))
  }

  /** A time with no colon counts as midnight. */
  lemma TimeToMinutesJsNoColon(t: string)
    requires ':' !in t
    ensures TimeToMinutesJs(t) == 0
  {
    if t != "" {
      SplitNone(t, ':');
    }
  }

  /** On "H:MM" with digit strings the page and the server agree: both give
      the minutes since midnight with hours 1 to 7 read as afternoon hours. */
  lemma ClockAgrees(h: string, m: string)
    requires h != [] && AllDigits(h) && m != [] && AllDigits(m)
    ensures TimeToMinutesJs(h + ":" + m) == ClockMinutes(DigitsValue(h), DigitsValue(m))
    ensures TimeToMinutes(h + ":" + m) == Some(ClockMinutes(DigitsValue(h), DigitsValue(m)))
  {
    ClockPieces(h, m);
    ParseIntJsLeadingDigits(h, []);
    ParseIntJsLeadingDigits(m, []);
    assert h + [] == h && m + [] == m;
    ServerClock(h, m);
  }

  lemma ClockPieces(h: string, m: string)
    requires h != [] && AllDigits(h) && m != [] && AllDigits(m)
    ensures Split(h + ":" + m, ':') == [h, m]
    ensures Trim(h + ":" + m) == h + ":" + m
  {
    var t := h + ":" + m;
    assert t == h + [':'] + m;
    assert ':' !in h && ':' !in m;
    SplitAt(h, ':', m);
    SplitNone(m, ':');
    assert Tidy(t) by {
      assert t[0] == h[0] && t[|t| - 1] == m[|m| - 1];
    }
    TidyTrim(t);
  }

  lemma ServerClock(h: string, m: string)
    requires h != [] && AllDigits(h) && m != [] && AllDigits(m)
    requires Split(h + ":" + m, ':') == [h, m] && Trim(h + ":" + m) == h + ":" + m
    ensures TimeToMinutes(h + ":" + m) == Some(ClockMinutes(DigitsValue(h), DigitsValue(m)))
  {
    var t := h + ":" + m;
    assert t[|h|] == ':';
    TimeToMinutesSpec(t);
  }

  // ---------------------------------------------------------------------------
  // sortEntriesByDayAndTime

  /** dayOrder.indexOf(day): the weekday's position, -1 for anything else. */
  function DayIndexJs(day: string): (r: int)
    ensures -1 <= r < |DayOrder|
    ensures r >= 0 <==> day in DayOrder
    ensures r >= 0 ==> DayOrder[r] == day
  {
    var k := DayIndex(day);
    if k == 999 then -1 else k
  }

  /** The comparator of sortEntriesByDayAndTime as a key. */
  function CardKey(c: Card): Key {
    [Num(DayIndexJs(c.day)), Num(TimeToMinutesJs(c.start))]
  }

  /** sortEntriesByDayAndTime: Array.prototype.sort, stable, in place. */
  method SortEntriesByDayAndTime(entries: array<Card>)
    modifies entries
    ensures entries[..] == SortBy(old(entries[..]), CardKey)
  {
    SortInPlace(entries, CardKey);
  }

  /** The sorted cards are the same cards, by weekday and then by start
      minutes, and a card whose day is not a weekday comes before every card
      whose day is. */
  lemma CardOrderSpec(cs: seq<Card>)
    ensures multiset(SortBy(cs, CardKey)) == multiset(cs)
    ensures var r := SortBy(cs, CardKey);
      forall i, j | 0 <= i < j < |r| :: DayIndexJs(r[i].day) < DayIndexJs(r[j].day) ||
        (DayIndexJs(r[i].day) == DayIndexJs(r[j].day) && TimeToMinutesJs(r[i].start) <= TimeToMinutesJs(r[j].start))
    ensures var r := SortBy(cs, CardKey);
      forall i, j | 0 <= i < j < |r| :: r[j].day !in DayOrder ==> r[i].day !in DayOrder
  {
    SortByCorrect(cs, CardKey);
    var r := SortBy(cs, CardKey);
    forall i, j | 0 <= i < j < |r| ensures DayIndexJs(r[i].day) < DayIndexJs(r[j].day) ||
      (DayIndexJs(r[i].day) == DayIndexJs(r[j].day) && TimeToMinutesJs(r[i].start) <= TimeToMinutesJs(r[j].start))
    {
      PairKeyLe(DayIndexJs(r[i].day), TimeToMinutesJs(r[i].start), DayIndexJs(r[j].day), TimeToMinutesJs(r[j].start));
    }
  }

  // ---------------------------------------------------------------------------
  // mergeConsecutiveSlots

  /** The comparator of mergeConsecutiveSlots as a key: weekday, start minutes,
      then subject, room and teachers run together. */
  function MergeOrder(c: Card): Key {
    [Num(DayIndexJs(c.day)), Num(TimeToMinutesJs(c.start)), Text(c.subject + c.location + c.teachers)]
  }

  /** Same day, subject, room, teachers and groups. */
  predicate SameClass(a: Card, b: Card) {
    a.day == b.day && a.subject == b.subject && a.location == b.location
    && a.teachers == b.teachers && a.groups == b.groups
  }

  /** b continues a: the same class, and a ends, as a string, where b starts. */
  predicate Adjoins(a: Card, b: Card) {
    SameClass(a, b) && a.end == b.start
  }

  /** A card with its end time moved. */
  function Extend(c: Card, end: string): (r: Card)
    ensures SameClass(r, c) && r.start == c.start && r.end == end && r.section == c.section
  {
    c.(end := end)
  }

  /** The loop of mergeConsecutiveSlots over sorted cards: a card that
      continues the current one extends it, any other starts a new one. */
  function Merged(es: seq<Card>): (r: seq<Card>)
    ensures |r| <= |es|
    ensures es != [] ==> r != [] && r[0].start == es[0].start && SameClass(r[0], es[0])
    ensures es != [] ==> SameClass(r[|r| - 1], es[|es| - 1]) && r[|r| - 1].end == es[|es| - 1].end
  {
    if |es| <= 1 then es
    else
      var init := es[..|es| - 1];
      var r := Merged(init);
      var x := es[|es| - 1];
      assert init[0] == es[0];
      if Adjoins(r[|r| - 1], x) then
        var last := Extend(r[|r| - 1], x.end);
        var m := r[..|r| - 1] + [last];
        assert m[0] == if |r| == 1 then last else r[0];
        m
      else
        var m := r + [x];
        assert m[0] == r[0];
        m
  }

  /** mergeConsecutiveSlots(entries): sorts the array in place and merges. */
  method MergeConsecutiveSlots(entries: array<Card>) returns (merged: seq<Card>)
    modifies entries
    ensures entries[..] == SortBy(old(entries[..]), MergeOrder)
    ensures merged == Merged(entries[..])
  {
    if entries.Length == 0 {
      return [];
    }
    SortInPlace(entries, MergeOrder);
    ghost var sorted := entries[..];
    merged := [];
    var current := entries[0];
    assert sorted[..1] == [current];
    for i := 1 to entries.Length
      invariant entries[..] == sorted
      invariant merged + [current] == Merged(sorted[..i])
    {
      var entry := entries[i];
      assert entry == sorted[i];
      MergedStep(sorted, i, merged, current);
      var joins := current.day == entry.day && current.subject == entry.subject && current.location == entry.location
        && current.teachers == entry.teachers && current.groups == entry.groups && current.end == entry.start;
      assert joins == Adjoins(current, entry);
      if joins {
        current := Extend(current, entry.end);
      } else {
        merged := merged + [current];
        current := entry;
      }
    }
    merged := merged + [current];
    assert sorted[..entries.Length] == sorted;
  }

  lemma MergedStep(es: seq<Card>, i: nat, merged: seq<Card>, current: Card)
    requires 0 < i < |es| && merged + [current] == Merged(es[..i])
    ensures Merged(es[..i + 1]) ==
      if Adjoins(current, es[i]) then merged + [Extend(current, es[i].end)] else merged + [current] + [es[i]]
  {
    var r := Merged(es[..i]);
    assert es[..i + 1][..i] == es[..i] && es[..i + 1][i] == es[i];
    assert r[..|r| - 1] == merged && r[|r| - 1] == current;
  }

  /** The places where a card does not continue the one before it. */
  function Breaks(es: seq<Card>): nat {
    if |es| < 2 then 0
    else Breaks(es[..|es| - 1]) + (if Adjoins(es[|es| - 2], es[|es| - 1]) then 0 else 1)
  }

  /** The merge keeps exactly one card per run: one more than the breaks. */
  lemma {:induction false} MergedCount(es: seq<Card>)
    requires es != []
    ensures |Merged(es)| == Breaks(es) + 1
  {
    if |es| >= 2 {
      var init := es[..|es| - 1];
      MergedCount(init);
      assert init[|init| - 1] == es[|es| - 2];
    }
  }

  /** No card of the result continues the one before it. */
  predicate NoneAdjoin(es: seq<Card>) {
    forall i | 0 <= i < |es| - 1 :: !Adjoins(es[i], es[i + 1])
  }

  lemma {:induction false} MergedComplete(es: seq<Card>)
    ensures NoneAdjoin(Merged(es))
  {
    if |es| >= 2 {
      var init := es[..|es| - 1];
      MergedComplete(init);
      var r := Merged(init);
      var x := es[|es| - 1];
      if Adjoins(r[|r| - 1], x) {
        var m := Merged(es);
        assert m == r[..|r| - 1] + [Extend(r[|r| - 1], x.end)];
        forall i | 0 <= i < |m| - 1 ensures !Adjoins(m[i], m[i + 1]) {
          assert m[i] == r[i];
          if i + 1 < |r| - 1 { assert m[i + 1] == r[i + 1]; }
        }
      }
    }
  }

  /** Cards of which none continues the one before are left as they are. */
  lemma {:induction false} MergedIdentity(es: seq<Card>)
    requires NoneAdjoin(es)
    ensures Merged(es) == es
  {
    if |es| >= 2 {
      var init := es[..|es| - 1];
      MergedIdentity(init);
      assert init + [es[|es| - 1]] == es;
    }
  }

  /** Merging a second time changes nothing. */
  lemma MergedIdempotent(es: seq<Card>)
    ensures Merged(Merged(es)) == Merged(es)
  {
    MergedComplete(es);
    MergedIdentity(Merged(es));
  }

  /** A single run collapses to its first card reaching the last card's end. */
  lemma {:induction false} MergedOneRun(es: seq<Card>)
    requires es != []
    requires forall i | 0 <= i < |es| - 1 :: Adjoins(es[i], es[i + 1])
    ensures Merged(es) == [Extend(es[0], es[|es| - 1].end)]
  {
    if |es| == 1 {
      assert Extend(es[0], es[0].end) == es[0];
    } else {
      var init := es[..|es| - 1];
      MergedOneRun(init);
      assert Adjoins(init[|init| - 1], es[|es| - 1]);
      assert Extend(Extend(es[0], init[|init| - 1].end), es[|es| - 1].end) == Extend(es[0], es[|es| - 1].end);
    }
  }

  // ---------------------------------------------------------------------------
  // removeDuplicateEntries

  /** The template-string key of removeDuplicateEntries. */
  function DupKey(c: Card): string {
    c.day + "-" + c.start + "-" + c.end + "-" + c.location + "-" + c.subject + "-" + c.teachers
  }

  /** removeDuplicateEntries: the first card of each key, in order, then
      mergeConsecutiveSlots on a fresh array of them. */
  method RemoveDuplicateEntries(entries: seq<Card>) returns (r: seq<Card>)
    ensures r == Merged(SortBy(FirstByKey(entries, DupKey), MergeOrder))
  {
    var unique: seq<Card> := [];
    var seen: set<string> := {};
    for i := 0 to |entries|
      invariant unique == FirstByKey(entries[..i], DupKey)
      invariant seen == KeysOf(entries[..i], DupKey)
    {
      SeenStep(entries, i);
      var key := DupKey(entries[i]);
      if key !in seen {
        seen := seen + {key};
        unique := unique + [entries[i]];
      }
    }
    assert entries[..|entries|] == entries;
    var a := new Card[|unique|](k requires 0 <= k < |unique| => unique[k]);
    assert a[..] == unique;
    r := MergeConsecutiveSlots(a);
  }

  lemma SeenStep(es: seq<Card>, i: nat)
    requires i < |es|
    ensures KeysOf(es[..i + 1], DupKey) == KeysOf(es[..i], DupKey) + {DupKey(es[i])}
    ensures FirstByKey(es[..i + 1], DupKey) ==
      FirstByKey(es[..i], DupKey) + if DupKey(es[i]) in KeysOf(es[..i], DupKey) then [] else [es[i]]
  {
    var p := es[..i + 1];
    assert p[..i] == es[..i];
    forall k | k in KeysOf(p, DupKey) ensures k in KeysOf(es[..i], DupKey) + {DupKey(es[i])} {
      var j :| 0 <= j < |p| && DupKey(p[j]) == k;
      if j < i { assert p[j] == es[..i][j]; }
    }
    forall k | k in KeysOf(es[..i], DupKey) ensures k in KeysOf(p, DupKey) {
      var j :| 0 <= j < i && DupKey(es[..i][j]) == k;
      assert p[j] == es[..i][j];
    }
  }

  /** What reaches the merge: one card per key, every key of the input, each
      card the first of its key, in the input's order; and the page shows no
      more cards than that. */
  lemma DeduplicatedSpec(entries: seq<Card>)
    ensures var u := FirstByKey(entries, DupKey);
      KeysOf(u, DupKey) == KeysOf(entries, DupKey) &&
      (forall i, j | 0 <= i < j < |u| :: DupKey(u[i]) != DupKey(u[j])) &&
      (forall k | 0 <= k < |u| :: exists i | 0 <= i < |entries| ::
        entries[i] == u[k] && DupKey(entries[i]) !in KeysOf(entries[..i], DupKey)) &&
      (exists idx :: PicksFirsts(entries, u, idx, DupKey)) &&
      |Merged(SortBy(u, MergeOrder))| <= |u| <= |entries|
  {
    FirstByKeyCorrect(entries, DupKey);
    FirstByKeyLength(entries, DupKey);
  }

  lemma {:induction false} FirstByKeyLength<T, K>(s: seq<T>, key: T -> K)
    ensures |FirstByKey(s, key)| <= |s|
  {
    if s != [] {
      FirstByKeyLength(s[..|s| - 1], key);
    }
  }

  // ---------------------------------------------------------------------------
  // The custom schedule

  /** customSchedule: the entries the user has added, kept in day and time
      order by the display that follows every change. */
  class Schedule {
    var items: seq<Card>

    constructor ()
      ensures items == [] && Valid()
    {
      items := [];
    }

    predicate Valid()
      reads this
    {
      SortedBy(items, CardKey)
    }

    /** customSchedule.some(item => item.subject === subject && item.section === section) */
    predicate Has(subject: string, section: string)
      reads this
    {
      exists k | 0 <= k < |items| :: items[k].subject == subject && items[k].section == section
    }

    /** addToSchedule, given what the details request returns (None when it
        fails): an empty subject or section, a pair already present, a
        failed request or an empty answer change nothing; otherwise the
        details are pushed and the display sorts the whole schedule. */
    method Add(subject: string, section: string, details: Option<seq<Card>>) returns (added: bool)
      requires Valid()
      modifies this
      ensures Valid()
      ensures added == (subject != "" && section != "" && !old(Has(subject, section)) &&
                        details.Some? && details.value != [])
      ensures items == if added then SortBy(old(items) + details.value, CardKey) else old(items)
    {
      if subject == "" || section == "" {
        return false;
      }
      if Has(subject, section) {
        return false;
      }
      if details.None? || details.value == [] {
        return false;
      }
      var fetched := details.value;
      for k := 0 to |fetched|
        invariant items == old(items) + fetched[..k]
      {
        assert fetched[..k + 1] == fetched[..k] + [fetched[k]];
        items := items + [fetched[k]];
      }
      assert fetched[..|fetched|] == fetched;
      Display();
      return true;
    }

    /** The sort updateCustomScheduleDisplay applies to customSchedule itself. */
    method Display()
      modifies this
      ensures items == SortBy(old(items), CardKey) && Valid()
    {
      if items == [] {
        return;
      }
      var s := items;
      var a := new Card[|s|](k requires 0 <= k < |s| => s[k]);
      assert a[..] == s;
      SortEntriesByDayAndTime(a);
      items := a[..];
      SortByCorrect(s, CardKey);
    }

    /** removeFromSchedule(index): customSchedule.splice(index, 1), then the
        display sort, which leaves the rest where it was. */
    method Remove(index: int)
      requires Valid()
      modifies this
      ensures Valid()
      ensures items == Removed(old(items), SpliceStart(|old(items)|, index))
    {
      var start := SpliceStart(|items|, index);
      SortedRemoval(items, start, CardKey);
      if start < |items| {
        items := items[..start] + items[start + 1..];
      }
      ghost var kept := items;
      Display();
      SortBySortedIdentity(kept, CardKey);
    }

    /** clearSchedule: empties the schedule once the user confirms. */
    method Clear(confirmed: bool)
      requires Valid()
      modifies this
      ensures Valid()
      ensures items == if confirmed then [] else old(items)
    {
      if items == [] {
        return;
      }
      if confirmed {
        items := [];
        Display();
      }
    }
  }

  /** Where s.splice(index, 1) starts on a list of n entries: a negative
      index counts from the end, and the start is clamped to 0..n. */
  function SpliceStart(n: nat, index: int): (start: nat)
    ensures start <= n
    ensures 0 <= index <= n ==> start == index
    ensures index < 0 && n + index >= 0 ==> start == n + index
    ensures index > n ==> start == n
    ensures n + index < 0 ==> start == 0
  {
    if index < 0 then (if n + index < 0 then 0 else n + index)
    else if index > n then n else index
  }

  /** s without its entry at k; all of s when k is past the end. */
  function Removed(s: seq<Card>, k: nat): (r: seq<Card>)
    ensures k < |s| ==> (|r| == |s| - 1 &&
      (forall i | 0 <= i < k :: r[i] == s[i]) && (forall i | k <= i < |r| :: r[i] == s[i + 1]))
    ensures k >= |s| ==> r == s
  {
    if k < |s| then s[..k] + s[k + 1..] else s
  }

  /** Taking one entry out of a sorted list leaves it sorted. */
  lemma SortedRemoval(s: seq<Card>, k: nat, key: Card -> Key)
    requires SortedBy(s, key)
    ensures SortedBy(Removed(s, k), key)
    ensures k < |s| ==> Removed(s, k) == s[..k] + s[k + 1..]
  {
    var r := Removed(s, k);
    if k < |s| {
      forall i, j | 0 <= i < j < |r| ensures KeyLe(key(r[i]), key(r[j])) {
        var i' := if i < k then i else i + 1;
        var j' := if j < k then j else j + 1;
        assert r[i] == s[i'] && r[j] == s[j'];
      }
    }
  }

  /** After an addition the schedule holds the old entries and the details,
      each as often as before. */
  lemma AddedContents(items: seq<Card>, details: seq<Card>)
    ensures multiset(SortBy(items + details, CardKey)) == multiset(items) + multiset(details)
    ensures SortedBy(SortBy(items + details, CardKey), CardKey)
  {
    SortByCorrect(items + details, CardKey);
  }
}

/** merge_consecutive_slots: the class slots collected from the sheet are
    sorted and back-to-back slots of the same class are joined into one. */
module Merge {
  import opened Strings
  import opened Ordering
  import opened Normalize

  /** A class slot before it is filed under its teachers. */
  datatype Slot = Slot(day: string, start: string, end: string, location: string,
                       subject: string, groups: seq<string>, teachers: seq<string>)

  // ---------------------------------------------------------------------------
  // Python's repr() of a string, the last component of the sort key

  /** The quote repr() encloses s in: a double quote only when s holds a single
      quote and no double quote. */
  function QuoteFor(s: string): (q: char)
    ensures q == '\'' || q == '"'
  {
    if '\'' in s && '"' !in s then '"' else '\''
  }

  function HexDigit(d: nat): (c: char)
    requires d < 16
  {
    if d < 10 then ('0' as int + d) as char else ('a' as int + d - 10) as char
  }

  function HexValue(c: char): nat {
    if '0' <= c <= '9' then c as int - '0' as int
    else if 'a' <= c <= 'f' then c as int - 'a' as int + 10
    else 0
  }

  /** How repr() writes one character inside quotes q: the quote and the
      backslash behind a backslash, tab, newline and carriage return by name,
      other ASCII control characters as \xhh. */
  function EscapeChar(c: char, q: char): string {
    if c == q || c == '\\' then ['\\', c]
    else if c == '\t' then "\\t"
    else if c == '\n' then "\\n"
    else if c == '\r' then "\\r"
    else if c < ' ' || c as int == 127 then ['\\', 'x', HexDigit(c as int / 16), HexDigit(c as int % 16)]
    else [c]
  }

  function Escape(s: string, q: char): string {
    if s == [] then [] else EscapeChar(s[0], q) + Escape(s[1..], q)
  }

  /** repr(s) */
  function PyRepr(s: string): (r: string)
    ensures |r| >= 2 && r[0] == r[|r| - 1] == QuoteFor(s)
  {
    var q := QuoteFor(s);
    [q] + Escape(s, q) + [q]
  }

  /** str(xs) of a list of strings: the reprs, comma-separated, in brackets. */
  function PyListRepr(xs: seq<string>): string {
    "[" + Join(seq(|xs|, i requires 0 <= i < |xs| => PyRepr(xs[i])), ", ") + "]"
  }

  function Unescaped(c: char): char {
    if c == 't' then '\t' else if c == 'n' then '\n' else if c == 'r' then '\r' else c
  }

  /** Reads back the characters between the quotes of a repr. */
  function Unescape(t: string): string
    decreases |t|
  {
    if t == [] then []
    else if t[0] == '\\' && |t| >= 2 then
      if t[1] == 'x' && |t| >= 4 then [(HexValue(t[2]) * 16 + HexValue(t[3])) as char] + Unescape(t[4..])
      else [Unescaped(t[1])] + Unescape(t[2..])
    else [t[0]] + Unescape(t[1..])
  }

  function Unrepr(r: string): string
    requires |r| >= 2
  {
    Unescape(r[1..|r| - 1])
  }

  lemma HexRoundTrip(d: nat)
    requires d < 16
    ensures HexValue(HexDigit(d)) == d
  {
  }

  lemma {:induction false} UnescapeChar(c: char, q: char, rest: string)
    requires q == '\'' || q == '"'
    ensures Unescape(EscapeChar(c, q) + rest) == [c] + Unescape(rest)
  {
    var t := EscapeChar(c, q) + rest;
    if c == q || c == '\\' || c == '\t' || c == '\n' || c == '\r' {
      assert t[2..] == rest;
    } else if c < ' ' || c as int == 127 {
      var hi := c as int / 16;
      var lo := c as int % 16;
      HexRoundTrip(hi);
      HexRoundTrip(lo);
      assert t[4..] == rest;
      assert (hi * 16 + lo) as char == c;
    } else {
      assert t[1..] == rest;
    }
  }

  /** Reading back what Escape wrote gives the string again. */
  lemma {:induction false} UnescapeEscape(s: string, q: char)
    requires q == '\'' || q == '"'
    ensures Unescape(Escape(s, q)) == s
  {
    if s != [] {
      UnescapeChar(s[0], q, Escape(s[1..], q));
      UnescapeEscape(s[1..], q);
      assert s == [s[0]] + s[1..];
    }
  }

  /** repr() loses nothing: reading a repr back gives the string. */
  lemma ReprRoundTrip(s: string)
    ensures Unrepr(PyRepr(s)) == s
  {
    var q := QuoteFor(s);
    var r := PyRepr(s);
    assert r[1..|r| - 1] == Escape(s, q);
    UnescapeEscape(s, q);
  }

  // ---------------------------------------------------------------------------
  // The sort and the merge

  /** time_to_minutes of the start time; only read once every start converts. */
  function StartMinutes(s: Slot): int {
    match TimeToMinutes(s.start)
    case Some(m) => m
    case None => 0
  }

  /** (day, time_to_minutes(start_time), subject, location, str(teachers)) */
  function MergeKey(s: Slot): Key {
    [Text(s.day), Num(StartMinutes(s)), Text(s.subject), Text(s.location), Text(PyListRepr(s.teachers))]
  }

  /** Every start time converts, so the sort does not raise. */
  predicate Timed(es: seq<Slot>) {
    forall i | 0 <= i < |es| :: Converts(es[i])
  }

  /** time_to_minutes accepts the start time. */
  predicate Converts(s: Slot) {
    TimeToMinutes(s.start).Some?
  }

  function TeacherSet(s: Slot): set<string> {
    set t | t in s.teachers
  }

  /** Same day, subject, room and groups, and the same teachers in any order. */
  predicate SameClass(a: Slot, b: Slot) {
    a.day == b.day && a.subject == b.subject && a.location == b.location &&
    a.groups == b.groups && TeacherSet(a) == TeacherSet(b)
  }

  /** b is the same class as a and starts when a ends, the two times compared
      after normalize_time. */
  predicate Follows(a: Slot, b: Slot) {
    SameClass(a, b) && NormalizeTime(a.end) == NormalizeTime(b.start)
  }

  /** The slot s stretched to end at `end`. */
  function Until(s: Slot, end: string): (r: Slot)
    ensures SameClass(r, s) && r.start == s.start && r.end == end
  {
    s.(end := end)
  }

  /** The joined slots of an already sorted list: a slot that follows its
      predecessor in the list stretches the last joined slot to its own end. */
  function Joined(es: seq<Slot>): (r: seq<Slot>)
    ensures |r| <= |es| && (r == [] <==> es == [])
  {
    if |es| <= 1 then es
    else
      var r := Joined(es[..|es| - 1]);
      var last := es[|es| - 1];
      if Follows(es[|es| - 2], last) then r[..|r| - 1] + [Until(r[|r| - 1], last.end)]
      else r + [last]
  }

  /** merge_consecutive_slots, None standing for the ValueError raised while
      computing the sort key of a start time that does not convert. */
  function MergeSlots(es: seq<Slot>): Option<seq<Slot>> {
    if es == [] then Some([])
    else if !Timed(es) then None
    else Some(Joined(SortBy(es, MergeKey)))
  }

  /** merge_consecutive_slots: sorts the list in place, computing every key
      first, then joins the sorted slots. */
  method MergeConsecutiveSlots(entries: array<Slot>) returns (merged: Option<seq<Slot>>)
    modifies entries
    ensures merged == MergeSlots(old(entries[..]))
    ensures entries[..] == if merged.Some? then SortBy(old(entries[..]), MergeKey) else old(entries[..])
  {
    if entries.Length == 0 {
      return Some([]);
    }
    var timed := StartsConvert(entries[..]);
    if !timed {
      return None;
    }
    SortInPlace(entries, MergeKey);
    var joined := JoinConsecutive(entries[..]);
    return Some(joined);
  }

  /** Computes time_to_minutes of every start time, stopping at the first
      that raises. */
  method StartsConvert(entries: seq<Slot>) returns (timed: bool)
    ensures timed == Timed(entries)
  {
    var i := 0;
    while i < |entries|
      invariant i <= |entries|
      invariant Timed(entries[..i])
    {
      if !Converts(entries[i]) {
        UntimedAt(entries, i);
        return false;
      }
      TimedSnoc(entries, i);
      i := i + 1;
    }
    assert entries[..i] == entries;
    return true;
  }

  lemma UntimedAt(es: seq<Slot>, i: nat)
    requires i < |es| && !Converts(es[i])
    ensures !Timed(es)
  {
  }

  lemma TimedSnoc(es: seq<Slot>, i: nat)
    requires i < |es| && Timed(es[..i]) && Converts(es[i])
    ensures Timed(es[..i + 1])
  {
    var p := es[..i + 1];
    forall k | 0 <= k < |p| ensures Converts(p[k]) {
      if k < i {
        assert p[k] == es[..i][k];
        assert Converts(es[..i][k]);
      } else {
        assert p[k] == es[i];
      }
    }
  }

  /** The walk over the sorted slots, keeping the slot being built in
      `current` and closing it when the next slot does not follow it. */
  method JoinConsecutive(entries: seq<Slot>) returns (merged: seq<Slot>)
    ensures merged == Joined(entries)
  {
    if entries == [] {
      return [];
    }
    merged := [];
    var current := entries[0];
    for i := 1 to |entries|
      invariant merged + [current] == Joined(entries[..i])
      invariant SameClass(current, entries[i - 1]) && current.end == entries[i - 1].end
    {
      var entry := entries[i];
      JoinedStep(entries, i);
      if Follows(current, entry) {
        current := current.(end := entry.end);
      } else {
        merged := merged + [current];
        current := entry;
      }
    }
    merged := merged + [current];
    assert entries[..|entries|] == entries;
  }

  /** Joining one more slot of a list. */
  lemma JoinedStep(es: seq<Slot>, i: nat)
    requires 1 <= i < |es|
    ensures var r := Joined(es[..i]);
      Joined(es[..i + 1]) ==
        if Follows(es[i - 1], es[i]) then r[..|r| - 1] + [Until(r[|r| - 1], es[i].end)] else r + [es[i]]
  {
    var p := es[..i + 1];
    assert |p| == i + 1 && p[..|p| - 1] == es[..i];
    JoinedUnfold(p);
    assert p[|p| - 2] == es[i - 1] && p[|p| - 1] == es[i];
  }

  // ---------------------------------------------------------------------------
  // What the merge guarantees

  /** The slots of es[a..b+1] form one chain of following slots. */
  predicate Chain(es: seq<Slot>, a: nat, b: nat)
    requires a <= b < |es|
  {
    forall k | a < k <= b :: Follows(es[k - 1], es[k])
  }

  /** Where the chain ending at the last slot begins. */
  function LastRunStart(es: seq<Slot>): (a: nat)
    requires es != []
    ensures a < |es|
  {
    var n := |es|;
    if n == 1 then 0
    else if Follows(es[n - 2], es[n - 1]) then LastRunStart(es[..n - 1])
    else n - 1
  }

  /** The last joined slot is the slot that starts the last chain, stretched
      to the end of the last slot; it is the last slot's class. */
  lemma {:induction false} JoinedLast(es: seq<Slot>)
    requires es != []
    ensures var r := Joined(es);
      r[|r| - 1] == Until(es[LastRunStart(es)], es[|es| - 1].end) &&
      SameClass(r[|r| - 1], es[|es| - 1])
  {
    var n := |es|;
    if n == 1 {
      assert es[0] == Until(es[0], es[0].end);
    } else {
      var p := es[..n - 1];
      JoinedLast(p);
      if Follows(es[n - 2], es[n - 1]) {
        var r, a := Joined(p), LastRunStart(p);
        LastRunStartFollows(es);
        JoinedFollowsLast(es);
        assert es[a] == p[a] && p[|p| - 1] == es[n - 2];
        Stretch(r[|r| - 1], p[a], p[|p| - 1], es[n - 1]);
      } else {
        JoinedLastBreak(es);
      }
    }
  }

  /** Stretching a stretched slot again, to the end of a slot of the same
      class, gives the original slot stretched once, of that class. */
  lemma Stretch(x: Slot, first: Slot, prev: Slot, next: Slot)
    requires x == Until(first, prev.end) && SameClass(x, prev) && SameClass(prev, next)
    ensures Until(x, next.end) == Until(first, next.end) && SameClass(Until(x, next.end), next)
  {
    SameClassTrans(x, prev, next);
    SameClassTrans(Until(x, next.end), x, next);
  }

  /** A slot that follows its predecessor continues the last chain. */
  lemma LastRunStartFollows(es: seq<Slot>)
    requires |es| >= 2 && Follows(es[|es| - 2], es[|es| - 1])
    ensures LastRunStart(es) == LastRunStart(es[..|es| - 1])
  {
  }

  /** A slot that follows its predecessor stretches the last joined slot to
      its own end. */
  lemma JoinedFollowsLast(es: seq<Slot>)
    requires |es| >= 2 && Follows(es[|es| - 2], es[|es| - 1])
    ensures var r := Joined(es[..|es| - 1]);
      Joined(es)[|Joined(es)| - 1] == Until(r[|r| - 1], es[|es| - 1].end)
  {
    var r := Joined(es[..|es| - 1]);
    var j := r[..|r| - 1] + [Until(r[|r| - 1], es[|es| - 1].end)];
    JoinedUnfold(es);
    assert Joined(es) == j;
  }

  /** A slot that does not follow its predecessor is the last joined slot. */
  lemma JoinedLastBreak(es: seq<Slot>)
    requires |es| >= 2 && !Follows(es[|es| - 2], es[|es| - 1])
    ensures var r := Joined(es);
      r[|r| - 1] == Until(es[LastRunStart(es)], es[|es| - 1].end) &&
      SameClass(r[|r| - 1], es[|es| - 1])
  {
    var last := es[|es| - 1];
    JoinedUnfold(es);
    assert Joined(es)[|Joined(es)| - 1] == last;
    assert last == Until(last, last.end);
  }


  /** Joined, unfolded once on the last slot. */
  lemma JoinedUnfold(es: seq<Slot>)
    requires |es| >= 2
    ensures var r := Joined(es[..|es| - 1]); var last := es[|es| - 1];
      Joined(es) == if Follows(es[|es| - 2], last) then r[..|r| - 1] + [Until(r[|r| - 1], last.end)] else r + [last]
  {
  }

  lemma SameClassTrans(a: Slot, b: Slot, c: Slot)
    requires SameClass(a, b) && SameClass(b, c)
    ensures SameClass(a, c)
  {
  }

  /** The slots from LastRunStart to the end form one chain. */
  lemma {:induction false} LastRunChain(es: seq<Slot>)
    requires es != []
    ensures Chain(es, LastRunStart(es), |es| - 1)
  {
    var n := |es|;
    if n > 1 && Follows(es[n - 2], es[n - 1]) {
      var p := es[..n - 1];
      LastRunChain(p);
      ChainExtend(es, LastRunStart(p));
    }
  }

  lemma ChainExtend(es: seq<Slot>, a: nat)
    requires 2 <= |es| && a <= |es| - 2
    requires Chain(es[..|es| - 1], a, |es| - 2) && Follows(es[|es| - 2], es[|es| - 1])
    ensures Chain(es, a, |es| - 1)
  {
    var n := |es|;
    var p := es[..n - 1];
    forall k | a < k <= n - 1 ensures Follows(es[k - 1], es[k]) {
      if k < n - 1 {
        assert p[k - 1] == es[k - 1] && p[k] == es[k];
      }
    }
  }

  lemma ChainPrefix(es: seq<Slot>, a: nat, b: nat)
    requires 1 <= |es| && a <= b < |es| - 1
    requires Chain(es[..|es| - 1], a, b)
    ensures Chain(es, a, b)
  {
    var p := es[..|es| - 1];
    forall k | a < k <= b ensures Follows(es[k - 1], es[k]) {
      assert p[k - 1] == es[k - 1] && p[k] == es[k];
    }
  }

  /** The joined slot j is a chain of input slots es[a..b+1]: its start,
      class and teachers are those of the chain's first slot and its end is
      that of the chain's last slot. */
  lemma {:induction false} JoinedChainAt(es: seq<Slot>, j: nat) returns (a: nat, b: nat)
    requires j < |Joined(es)|
    ensures a <= b < |es| && Chain(es, a, b) && Joined(es)[j] == Until(es[a], es[b].end)
  {
    if j == |Joined(es)| - 1 {
      a, b := JoinedLastChain(es);
    } else {
      var p := es[..|es| - 1];
      JoinedKeepsEarlier(es, j);
      a, b := JoinedChainAt(p, j);
      ChainGrow(es, a, b, Joined(es)[j]);
    }
  }

  /** The last joined slot is the chain that ends the list. */
  lemma JoinedLastChain(es: seq<Slot>) returns (a: nat, b: nat)
    requires es != []
    ensures var r := Joined(es);
      a <= b < |es| && Chain(es, a, b) && r[|r| - 1] == Until(es[a], es[b].end)
  {
    JoinedLast(es);
    LastRunChain(es);
    a, b := LastRunStart(es), |es| - 1;
  }

  /** A chain of all but the last slot is a chain of the whole list. */
  lemma ChainGrow(es: seq<Slot>, a: nat, b: nat, x: Slot)
    requires a <= b < |es| - 1
    requires Chain(es[..|es| - 1], a, b) && x == Until(es[..|es| - 1][a], es[..|es| - 1][b].end)
    ensures Chain(es, a, b) && x == Until(es[a], es[b].end)
  {
    ChainPrefix(es, a, b);
  }

  /** Joining one more slot leaves every joined slot but the last alone. */
  lemma JoinedKeepsEarlier(es: seq<Slot>, j: nat)
    requires j + 1 < |Joined(es)|
    ensures |es| >= 2 && j < |Joined(es[..|es| - 1])| && Joined(es)[j] == Joined(es[..|es| - 1])[j]
  {
    JoinedUnfold(es);
    var r := Joined(es[..|es| - 1]);
    var last := es[|es| - 1];
    if Follows(es[|es| - 2], last) {
      KeepsFront(r, Until(r[|r| - 1], last.end), j);
    } else {
      KeepsFront(r + [last], last, j);
    }
  }

  /** Replacing the last element keeps the others. */
  lemma KeepsFront(r: seq<Slot>, x: Slot, j: nat)
    requires j + 1 < |r|
    ensures (r[..|r| - 1] + [x])[j] == r[j]
  {
  }

  /** The joined slot j is the first slot of some chain of input slots,
      stretched to the end of the chain's last slot. */
  predicate JoinsChain(es: seq<Slot>, j: nat)
    requires j < |Joined(es)|
  {
    exists a: nat, b: nat | a <= b < |es| :: Chain(es, a, b) && Joined(es)[j] == Until(es[a], es[b].end)
  }

  /** Every joined slot joins a chain of input slots. */
  lemma JoinedChains(es: seq<Slot>)
    ensures forall j: nat | j < |Joined(es)| :: JoinsChain(es, j)
  {
    forall j: nat | j < |Joined(es)| ensures JoinsChain(es, j) {
      var a, b := JoinedChainAt(es, j);
    }
  }

  /** No slot of es follows the one before it. */
  predicate NoneFollows(es: seq<Slot>) {
    forall j | 0 < j < |es| :: !Follows(es[j - 1], es[j])
  }

  /** The join is complete: no joined slot follows the one before it. */
  lemma {:induction false} JoinedComplete(es: seq<Slot>)
    ensures NoneFollows(Joined(es))
  {
    var n := |es|;
    if n > 1 {
      var p := es[..n - 1];
      JoinedComplete(p);
      JoinedLast(p);
      var r := Joined(p);
      var r' := Joined(es);
      forall j | 0 < j < |r'| ensures !Follows(r'[j - 1], r'[j]) {
        if j < |r| - 1 {
          assert r'[j - 1] == r[j - 1] && r'[j] == r[j];
        } else if j == |r| - 1 {
          assert r'[j - 1] == r[j - 1];
          assert r'[j].start == r[j].start && SameClass(r'[j], r[j]);
        } else {
          assert r'[j - 1] == r[|r| - 1] && r'[j] == es[n - 1];
        }
      }
    }
  }

  /** A list in which no slot follows its predecessor is left as it is. */
  lemma {:induction false} JoinedNothingToJoin(es: seq<Slot>)
    requires NoneFollows(es)
    ensures Joined(es) == es
  {
    var n := |es|;
    if n > 1 {
      var p := es[..n - 1];
      JoinedNothingToJoin(p);
      assert p + [es[n - 1]] == es;
    }
  }

  /** Joining twice is joining once. */
  lemma JoinedIdempotent(es: seq<Slot>)
    ensures Joined(Joined(es)) == Joined(es)
  {
    JoinedComplete(es);
    JoinedNothingToJoin(Joined(es));
  }

  /** A list that is one chain becomes one slot: the first slot stretched to
      the end of the last. */
  lemma {:induction false} JoinedOneChain(es: seq<Slot>)
    requires es != [] && Chain(es, 0, |es| - 1)
    ensures Joined(es) == [Until(es[0], es[|es| - 1].end)]
  {
    var n := |es|;
    if n == 1 {
      assert es[0] == Until(es[0], es[0].end);
    } else {
      var p := es[..n - 1];
      assert Chain(p, 0, |p| - 1);
      JoinedOneChain(p);
    }
  }

  /** The places where a slot does not follow the one before it. */
  function Breaks(es: seq<Slot>): nat {
    if |es| < 2 then 0
    else Breaks(es[..|es| - 1]) + (if Follows(es[|es| - 2], es[|es| - 1]) then 0 else 1)
  }

  /** No slot is lost: the join keeps exactly one slot per run of slots that
      follow each other, one more than the breaks. */
  lemma {:induction false} JoinedCount(es: seq<Slot>)
    requires es != []
    ensures |Joined(es)| == Breaks(es) + 1
  {
    if |es| >= 2 {
      var init := es[..|es| - 1];
      JoinedCount(init);
      JoinedUnfold(es);
      assert init[|init| - 1] == es[|es| - 2];
    }
  }

  /** r joins the sorted permutation of es, has one slot per run of the
      sorted list (at least one and at most |es|), and no slot of r follows
      its predecessor. */
  predicate MergedFromSorted(es: seq<Slot>, r: seq<Slot>) {
    var sorted := SortBy(es, MergeKey);
    SortedBy(sorted, MergeKey) && multiset(sorted) == multiset(es) &&
    r == Joined(sorted) && |r| == Breaks(sorted) + 1 && 0 < |r| <= |es| && NoneFollows(r)
  }

  /** merge_consecutive_slots: an empty list gives an empty list; a start time
      that does not convert raises; otherwise the result joins the slots sorted
      by day, start minute, subject, room and teachers, keeps one slot per run
      of slots that follow each other (so no more slots than the input), and
      leaves no two neighbouring slots that could be joined. */
  lemma MergeSlotsSpec(es: seq<Slot>)
    ensures es == [] ==> MergeSlots(es) == Some([])
    ensures es != [] && !Timed(es) ==> MergeSlots(es) == None
    ensures es != [] && Timed(es) ==> MergeSlots(es).Some? && MergedFromSorted(es, MergeSlots(es).value)
  {
    if es != [] && Timed(es) {
      SortByCorrect(es, MergeKey);
      JoinedComplete(SortBy(es, MergeKey));
      JoinedCount(SortBy(es, MergeKey));
    }
  }
}

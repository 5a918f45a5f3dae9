/** The two time clean-ups of the converter: clean_time_value, applied to every
    header cell of a time column, and fix_time_format, applied to the Time
    column of the finished table.  Both drop tabs, turn en and em dashes into
    '-' and rewrite every dash with the white space around it into " - ". */
module TimeFormat {
  import opened Strings
  import opened Sheet
  import opened Rewrite

  const EnDash: char := '\U{2013}'
  const EmDash: char := '\U{2014}'

  /** .replace('–', '-').replace('—', '-') */
  function Dashes(s: string): string {
    ReplaceChar(ReplaceChar(s, EnDash, '-'), EmDash, '-')
  }

  /** clean_time_value: "" for an empty cell, otherwise the stripped text with
      tabs turned into spaces, dashes unified and spaced. */
  function CleanTimeValue(v: Cell): string {
    if !Truthy(v) then "" else Sub(SpacedDash, Dashes(ReplaceChar(Trim(Str(v)), '\t', ' ')))
  }

  /** The part of fix_time_format after the tab-between-times rewrite. */
  function FinishTime(s: string): string {
    Sub(SpacedDash, Trim(Dashes(ReplaceChar(s, '\t', ' '))))
  }

  /** fix_time_format: an empty time stays empty; otherwise a tab between two
      clock times becomes " - ", the other tabs spaces, and the dashes are
      unified and spaced. */
  function FixTimeFormat(t: string): string {
    if t == "" then t else FinishTime(Sub(TabGap, t))
  }

  /** Every '-' has a space on either side. */
  predicate Spaced(r: string) {
    forall k | 0 <= k < |r| && r[k] == '-' :: 0 < k < |r| - 1 && r[k - 1] == ' ' && r[k + 1] == ' '
  }

  lemma SpacedConcat(a: string, b: string)
    requires Spaced(a) && Spaced(b)
    ensures Spaced(a + b)
  {
    var r := a + b;
    forall k | 0 <= k < |r| && r[k] == '-' ensures 0 < k < |r| - 1 && r[k - 1] == ' ' && r[k + 1] == ' ' {
      if k < |a| {
        assert a[k] == '-';
      } else {
        assert b[k - |a|] == '-';
      }
    }
  }

  /** After the dash rewrite every '-' is the middle of a " - ". */
  lemma {:induction false} SpacedDashSpaced(s: string, i: nat)
    ensures Spaced(SubFrom(SpacedDash, s, i))
    decreases |s| - i
  {
    if i < |s| {
      var n := MatchLen(SpacedDash, s, i);
      if n > 0 {
        SpacedDashSpaced(s, i + n);
        SpacedConcat(" - ", SubFrom(SpacedDash, s, i + n));
      } else {
        assert s[i] != '-';
        SpacedDashSpaced(s, i + 1);
        SpacedConcat([s[i]], SubFrom(SpacedDash, s, i + 1));
      }
    }
  }

  /** The dash rewrite brings in nothing but spaces and hyphens. */
  lemma {:induction false} SpacedDashKeepsOut(s: string, i: nat, c: char)
    requires c != ' ' && c != '-' && c !in s
    ensures c !in SubFrom(SpacedDash, s, i)
    decreases |s| - i
  {
    if i < |s| {
      var n := MatchLen(SpacedDash, s, i);
      if n > 0 {
        SpacedDashKeepsOut(s, i + n, c);
      } else {
        SpacedDashKeepsOut(s, i + 1, c);
      }
    }
  }

  lemma ReplaceRemoves(s: string, a: char, b: char)
    requires a != b
    ensures a !in ReplaceChar(s, a, b)
  {
    var r := ReplaceChar(s, a, b);
    forall k | 0 <= k < |r| ensures r[k] != a {
    }
  }

  lemma ReplaceKeepsOut(s: string, a: char, b: char, c: char)
    requires c != b && c !in s
    ensures c !in ReplaceChar(s, a, b)
  {
    var r := ReplaceChar(s, a, b);
    forall k | 0 <= k < |r| ensures r[k] != c {
    }
  }

  lemma ReplaceAbsent(s: string, a: char, b: char)
    requires a !in s
    ensures ReplaceChar(s, a, b) == s
  {
  }

  lemma TrimLeftKeepsOut(s: string, c: char)
    requires c !in s
    ensures c !in TrimLeft(s)
  {
    TrimLeftSpec(s);
  }

  lemma TrimKeepsOut(s: string, c: char)
    requires c !in s
    ensures c !in Trim(s)
  {
    TrimLeftKeepsOut(s, c);
    TrimRightSpec(TrimLeft(s));
  }

  /** After Dashes and the tab-to-space step no tab, en dash or em dash is left. */
  lemma DashesClean(s: string)
    ensures var r := Dashes(ReplaceChar(s, '\t', ' '));
      '\t' !in r && EnDash !in r && EmDash !in r
  {
    var t := ReplaceChar(s, '\t', ' ');
    ReplaceRemoves(s, '\t', ' ');
    ReplaceRemoves(t, EnDash, '-');
    ReplaceKeepsOut(t, EnDash, '-', '\t');
    var u := ReplaceChar(t, EnDash, '-');
    ReplaceRemoves(u, EmDash, '-');
    ReplaceKeepsOut(u, EmDash, '-', '\t');
    ReplaceKeepsOut(u, EmDash, '-', EnDash);
  }

  /** The dash rewrite keeps a text free of tabs and of en and em dashes, and
      leaves every '-' spaced. */
  lemma SpacedDashClean(s: string)
    requires '\t' !in s && EnDash !in s && EmDash !in s
    ensures var r := Sub(SpacedDash, s);
      '\t' !in r && EnDash !in r && EmDash !in r && Spaced(r)
  {
    SpacedDashKeepsOut(s, 0, '\t');
    SpacedDashKeepsOut(s, 0, EnDash);
    SpacedDashKeepsOut(s, 0, EmDash);
    SpacedDashSpaced(s, 0);
  }

  /** A cleaned header time has no tabs, only plain hyphens, each with a space
      on either side; an empty cell gives "". */
  lemma CleanTimeValueSpec(v: Cell)
    ensures var r := CleanTimeValue(v);
      && '\t' !in r && EnDash !in r && EmDash !in r && Spaced(r)
      && (!Truthy(v) ==> r == "")
  {
    if Truthy(v) {
      DashesClean(Trim(Str(v)));
      SpacedDashClean(Dashes(ReplaceChar(Trim(Str(v)), '\t', ' ')));
    }
  }

  /** The same for fix_time_format, and an empty time stays empty. */
  lemma FixTimeFormatSpec(t: string)
    ensures var r := FixTimeFormat(t);
      && '\t' !in r && EnDash !in r && EmDash !in r && Spaced(r)
      && (t == "" ==> r == "")
  {
    if t != "" {
      var s := Sub(TabGap, t);
      var u := Dashes(ReplaceChar(s, '\t', ' '));
      DashesClean(s);
      TrimKeepsOut(u, '\t');
      TrimKeepsOut(u, EnDash);
      TrimKeepsOut(u, EmDash);
      SpacedDashClean(Trim(u));
    }
  }

  // ---------------------------------------------------------------------------
  // What the clean-up does to a time range

  /** A clock time as `\d{1,2}:\d{2}` matches it: "9:30" or "09:30". */
  predicate Clock(c: string) {
    |c| > 0 && ClockLength(c, 0) == |c|
  }

  predicate AllSpace(w: string) {
    forall k | 0 <= k < |w| :: IsSpace(w[k])
  }

  /** A dash as the clean-up sees it: hyphen, en dash or em dash. */
  predicate IsDash(d: char) {
    d == '-' || d == EnDash || d == EmDash
  }

  lemma ClockChars(c: string)
    requires Clock(c)
    ensures IsDigit(c[0]) && IsDigit(c[|c| - 1])
    ensures forall k | 0 <= k < |c| :: IsDigit(c[k]) || c[k] == ':'
  {
  }

  /** A clock time written at p is read back whole. */
  lemma ClockAt(s: string, p: nat, c: string)
    requires Clock(c) && p + |c| <= |s| && s[p..p + |c|] == c
    ensures ClockLength(s, p) == |c|
  {
    assert s[p] == c[0] && s[p + 1] == c[1] && s[p + 2] == c[2] && s[p + 3] == c[3];
    if |c| == 5 {
      assert s[p + 4] == c[4];
    }
  }

  /** `\s*` at i stops at j when s[i..j] is white space and s[j] is not. */
  lemma {:induction false} SkipRun(s: string, i: nat, j: nat)
    requires i <= j <= |s| && forall k | i <= k < j :: IsSpace(s[k])
    requires j == |s| || !IsSpace(s[j])
    ensures SkipSpaces(s, i) == j
    decreases j - i
  {
    if i < j {
      SkipRun(s, i + 1, j);
    }
  }

  /** The same for a gap of white space other than tabs. */
  lemma SkipGap(s: string, i: nat, j: nat)
    requires i <= j && Gap(s, i, j) && (j == |s| || IsDigit(s[j]) || s[j] == ':' || s[j] == '-')
    ensures SkipSpaces(s, i) == j
  {
    SkipRun(s, i, j);
  }

  lemma {:induction false} TabInAt(s: string, lo: nat, hi: nat, t: nat)
    requires lo <= t < hi && t < |s| && s[t] == '\t'
    ensures TabIn(s, lo, hi)
    decreases t - lo
  {
    if lo < t {
      TabInAt(s, lo + 1, hi, t);
    }
  }

  lemma {:induction false} TabInHasTab(s: string, lo: nat, hi: nat)
    requires TabIn(s, lo, hi)
    ensures '\t' in s
    decreases hi - lo
  {
    if s[lo] != '\t' {
      TabInHasTab(s, lo + 1, hi);
    }
  }

  /** Without a tab the tab-between-times rewrite changes nothing. */
  lemma NoTabGapWithoutTab(s: string)
    requires '\t' !in s
    ensures Sub(TabGap, s) == s
  {
    forall k | 0 <= k < |s| ensures MatchLen(TabGap, s, k) == 0 {
      var n := ClockLength(s, k);
      if n > 0 && TabIn(s, k + n, SkipSpaces(s, k + n)) {
        TabInHasTab(s, k + n, SkipSpaces(s, k + n));
      }
    }
    SubIdentity(TabGap, s);
  }

  /** Neither a space nor a hyphen anywhere in [lo, hi): no dash match starts there. */
  lemma NoDashMatch(s: string, lo: nat, hi: nat)
    requires hi <= |s| && forall k | lo <= k < hi :: !IsSpace(s[k]) && s[k] != '-'
    ensures forall k | lo <= k < hi :: MatchLen(SpacedDash, s, k) == 0
  {
    forall k | lo <= k < hi ensures MatchLen(SpacedDash, s, k) == 0 {
      assert SkipSpaces(s, k) == k;
    }
  }

  /** Digits and colons only in [lo, hi): the characters of clock times. */
  predicate Plain(s: string, lo: nat, hi: nat) {
    hi <= |s| && forall k | lo <= k < hi :: IsDigit(s[k]) || s[k] == ':'
  }

  /** White space other than tabs in [lo, hi). */
  predicate Gap(s: string, lo: nat, hi: nat) {
    hi <= |s| && forall k | lo <= k < hi :: IsSpace(s[k]) && s[k] != '\t'
  }

  lemma PlainAt(s: string, lo: nat, c: string)
    requires Clock(c) && lo + |c| <= |s| && s[lo..lo + |c|] == c
    ensures Plain(s, lo, lo + |c|)
  {
    ClockChars(c);
    forall k | lo <= k < lo + |c| ensures IsDigit(s[k]) || s[k] == ':' {
      assert s[k] == s[lo..lo + |c|][k - lo];
    }
  }

  lemma GapAt(s: string, lo: nat, w: string)
    requires AllSpace(w) && '\t' !in w && lo + |w| <= |s| && s[lo..lo + |w|] == w
    ensures Gap(s, lo, lo + |w|)
  {
    forall k | lo <= k < lo + |w| ensures IsSpace(s[k]) && s[k] != '\t' {
      assert s[k] == s[lo..lo + |w|][k - lo];
    }
  }

  /** Where the pieces of c1 + w1 + d + w2 + c2 sit. */
  lemma RangeShape(c1: string, w1: string, d: char, w2: string, c2: string)
    ensures var s, q := c1 + w1 + [d] + w2 + c2, |c1| + |w1|;
      && |s| == q + 1 + |w2| + |c2|
      && s[..|c1|] == c1 && s[|c1|..q] == w1 && s[q] == d && s[q + 1..q + 1 + |w2|] == w2
      && s[q + 1 + |w2|..] == c2 && s[..q] == c1 + w1 && s[q + 1..] == w2 + c2
  {
    var u := c1 + w1 + [d] + w2;
    assert (u + c2)[..|u|] == u && (u + c2)[|u|..] == c2;
  }

  /** c1 + w1 + d + w2 + c2 as regions: a clock, a gap, the dash, a gap, a clock. */
  lemma RangeRegions(c1: string, w1: string, d: char, w2: string, c2: string)
    requires Clock(c1) && Clock(c2) && AllSpace(w1) && AllSpace(w2) && '\t' !in w1 && '\t' !in w2
    ensures var s, q := c1 + w1 + [d] + w2 + c2, |c1| + |w1|;
      && Plain(s, 0, |c1|) && Gap(s, |c1|, q) && s[q] == d && Gap(s, q + 1, q + 1 + |w2|)
      && Plain(s, q + 1 + |w2|, |s|)
  {
    var s := c1 + w1 + [d] + w2 + c2;
    var p, q := |c1|, |c1| + |w1|;
    var o := q + 1 + |w2|;
    RangeShape(c1, w1, d, w2, c2);
    PlainAt(s, 0, c1);
    GapAt(s, p, w1);
    GapAt(s, q + 1, w2);
    PlainAt(s, o, c2);
  }

  /** A clock, a gap, a hyphen, a gap and a clock, laid out in s: the clean-up
      after the tab rewrite leaves the clocks and puts " - " between them. */
  lemma FinishRegions(s: string, p: nat, q: nat, o: nat)
    requires 0 < p <= q < o < |s|
    requires Plain(s, 0, p) && Gap(s, p, q) && s[q] == '-' && Gap(s, q + 1, o) && Plain(s, o, |s|)
    ensures FinishTime(s) == s[..p] + " - " + s[o..]
  {
    RegionsClean(s, p, q, o);
    CleanKeeps(s);
    DashRegionsSub(s, p, q, o);
  }

  lemma DashRegionsSub(s: string, p: nat, q: nat, o: nat)
    requires 0 < p <= q < o < |s|
    requires Plain(s, 0, p) && Gap(s, p, q) && s[q] == '-' && Gap(s, q + 1, o) && Plain(s, o, |s|)
    ensures Sub(SpacedDash, s) == s[..p] + " - " + s[o..]
  {
    PlainNoDash(s, 0, p);
    PlainNoDash(s, o, |s|);
    DashInGaps(s, p, q, o);
    SubThree(SpacedDash, s, p, o);
  }

  lemma PlainNoDash(s: string, lo: nat, hi: nat)
    requires Plain(s, lo, hi)
    ensures forall k | lo <= k < hi :: MatchLen(SpacedDash, s, k) == 0
  {
    NoDashMatch(s, lo, hi);
  }

  lemma RegionsClean(s: string, p: nat, q: nat, o: nat)
    requires 0 < p <= q < o < |s|
    requires Plain(s, 0, p) && Gap(s, p, q) && s[q] == '-' && Gap(s, q + 1, o) && Plain(s, o, |s|)
    ensures forall k | 0 <= k < |s| :: s[k] != '\t' && s[k] != EnDash && s[k] != EmDash
    ensures !IsSpace(s[0]) && !IsSpace(s[|s| - 1])
  {
    forall k | 0 <= k < |s| ensures s[k] != '\t' && s[k] != EnDash && s[k] != EmDash {
      if k < p {
      } else if k < q {
      } else if k == q {
      } else if k < o {
      }
    }
  }

  /** With no tab, en dash or em dash, and no white space at either end, the
      steps before the dash rewrite change nothing. */
  lemma CleanKeeps(s: string)
    requires s != [] && !IsSpace(s[0]) && !IsSpace(s[|s| - 1])
    requires forall k | 0 <= k < |s| :: s[k] != '\t' && s[k] != EnDash && s[k] != EmDash
    ensures Trim(Dashes(ReplaceChar(s, '\t', ' '))) == s
  {
    ReplaceAbsent(s, '\t', ' ');
    ReplaceAbsent(s, EnDash, '-');
    ReplaceAbsent(s, EmDash, '-');
    assert TrimLeft(s) == s;
  }

  /** `\s*-\s*` at p: a gap up to the hyphen at q, a gap up to o. */
  lemma DashInGaps(s: string, p: nat, q: nat, o: nat)
    requires p <= q < o && Gap(s, p, q) && q < |s| && s[q] == '-' && Gap(s, q + 1, o)
    requires o == |s| || IsDigit(s[o]) || s[o] == ':'
    ensures MatchLen(SpacedDash, s, p) == o - p && Replacement(SpacedDash, s, p) == " - "
  {
    SkipGap(s, p, q);
    SkipGap(s, q + 1, o);
  }

  /** The clean-up after the tab rewrite turns "9:30 - 10:45", "9:30-10:45" or
      "9:30   -  10:45" into "9:30 - 10:45". */
  lemma FinishRange(c1: string, w1: string, w2: string, c2: string)
    requires Clock(c1) && Clock(c2) && AllSpace(w1) && AllSpace(w2) && '\t' !in w1 && '\t' !in w2
    ensures FinishTime(c1 + w1 + "-" + w2 + c2) == c1 + " - " + c2
  {
    var s := c1 + w1 + "-" + w2 + c2;
    var p, q := |c1|, |c1| + |w1|;
    var o := q + 1 + |w2|;
    RangeRegions(c1, w1, '-', w2, c2);
    RangeShape(c1, w1, '-', w2, c2);
    FinishRegions(s, p, q, o);
  }

  /** Dashes turns the one dash of a text into a hyphen. */
  lemma DashesAt(s: string, q: nat)
    requires q < |s| && IsDash(s[q])
    requires forall k | 0 <= k < |s| && k != q :: s[k] != EnDash && s[k] != EmDash
    ensures Dashes(s) == s[..q] + "-" + s[q + 1..]
  {
    var r := s[..q] + "-" + s[q + 1..];
    assert |Dashes(s)| == |r|;
    forall k | 0 <= k < |s| ensures Dashes(s)[k] == r[k] {
      if k < q {
        assert r[k] == s[k];
      } else if k > q {
        assert r[k] == s[q + 1..][k - q - 1];
      }
    }
  }

  /** Unifying the dashes first changes nothing the clean-up would not. */
  lemma FinishDashesFirst(s: string)
    requires '\t' !in s
    ensures FinishTime(s) == FinishTime(Dashes(s))
  {
    var t := ReplaceChar(s, EnDash, '-');
    var u := Dashes(s);
    ReplaceAbsent(s, '\t', ' ');
    ReplaceKeepsOut(s, EnDash, '-', '\t');
    ReplaceKeepsOut(t, EmDash, '-', '\t');
    ReplaceAbsent(u, '\t', ' ');
    ReplaceRemoves(s, EnDash, '-');
    ReplaceKeepsOut(t, EmDash, '-', EnDash);
    ReplaceRemoves(t, EmDash, '-');
    ReplaceAbsent(u, EnDash, '-');
    ReplaceAbsent(u, EmDash, '-');
  }

  /** The dash of a range is the only character Dashes changes. */
  lemma DashRange(c1: string, w1: string, d: char, w2: string, c2: string)
    requires Clock(c1) && Clock(c2) && AllSpace(w1) && AllSpace(w2) && '\t' !in w1 && '\t' !in w2
    requires IsDash(d)
    ensures var s := c1 + w1 + [d] + w2 + c2;
      '\t' !in s && Dashes(s) == c1 + w1 + "-" + w2 + c2
  {
    var s := c1 + w1 + [d] + w2 + c2;
    var p, q := |c1|, |c1| + |w1|;
    var o := q + 1 + |w2|;
    RangeRegions(c1, w1, d, w2, c2);
    RangeShape(c1, w1, d, w2, c2);
    OneDash(s, p, q, o);
    DashesAt(s, q);
    RangeShape(c1, w1, '-', w2, c2);
  }

  lemma OneDash(s: string, p: nat, q: nat, o: nat)
    requires 0 < p <= q < o < |s|
    requires Plain(s, 0, p) && Gap(s, p, q) && IsDash(s[q]) && Gap(s, q + 1, o) && Plain(s, o, |s|)
    ensures forall k | 0 <= k < |s| :: s[k] != '\t' && (k != q ==> s[k] != EnDash && s[k] != EmDash)
  {
    forall k | 0 <= k < |s| ensures s[k] != '\t' && (k != q ==> s[k] != EnDash && s[k] != EmDash) {
      if k < p {
      } else if k < q {
      } else if k == q {
      } else if k < o {
      }
    }
  }

  /** fix_time_format turns a range written with any dash and spaces around it
      into "9:30 - 10:45". */
  lemma FixTimeRange(c1: string, w1: string, d: char, w2: string, c2: string)
    requires Clock(c1) && Clock(c2) && AllSpace(w1) && AllSpace(w2) && '\t' !in w1 && '\t' !in w2
    requires IsDash(d)
    ensures FixTimeFormat(c1 + w1 + [d] + w2 + c2) == c1 + " - " + c2
  {
    var s := c1 + w1 + [d] + w2 + c2;
    DashRange(c1, w1, d, w2, c2);
    NoTabGapWithoutTab(s);
    FinishDashesFirst(s);
    FinishRange(c1, w1, w2, c2);
  }

  /** A tab, alone or among spaces, between two clock times becomes " - ". */
  lemma FixTabRange(c1: string, w: string, c2: string)
    requires Clock(c1) && Clock(c2) && AllSpace(w) && '\t' in w
    ensures FixTimeFormat(c1 + w + c2) == c1 + " - " + c2
  {
    var s := c1 + w + c2;
    TabGapWhole(s, c1, w, c2);
    SubWhole(TabGap, s);
    FinishRange(c1, " ", " ", c2);
    SpacedLiteral(c1, c2);
  }

  /** c1 + w + c2, w white space holding a tab, is one match of the tab rewrite. */
  lemma TabGapWhole(s: string, c1: string, w: string, c2: string)
    requires Clock(c1) && Clock(c2) && AllSpace(w) && '\t' in w && s == c1 + w + c2
    ensures MatchLen(TabGap, s, 0) == |s|
    ensures Replacement(TabGap, s, 0) == c1 + " - " + c2
  {
    var p, q := |c1|, |c1| + |w|;
    assert s[..p] == c1 && s[0..p] == c1 && s[p..q] == w && s[q..] == c2 && s[q..q + |c2|] == c2;
    ClockChars(c2);
    ClockAt(s, 0, c1);
    forall k | p <= k < q ensures IsSpace(s[k]) {
      assert s[k] == w[k - p];
    }
    SkipRun(s, p, q);
    var t :| 0 <= t < |w| && w[t] == '\t';
    assert s[p + t] == '\t';
    TabInAt(s, p, q, p + t);
    ClockAt(s, q, c2);
  }

  lemma SpacedLiteral(c1: string, c2: string)
    ensures c1 + " " + "-" + " " + c2 == c1 + " - " + c2
  {
    assert c1 + " " + "-" + " " == c1 + " - ";
  }
}

/** The regular-expression substitutions of the converter, each written out as
    a recogniser of one match at a position plus Python's re.sub scan:
    fix_class_group_format (three rewrites of group notation), and the dash and
    tab clean-up that clean_time_value and fix_time_format apply to times.
    `\d`, `\w` and `\b` are taken over ASCII. */
module Rewrite {
  import opened Strings
  import opened Sheet

  /** The five patterns: the three group-notation rewrites, a tab between two
      clock times, and a dash with the white space around it. */
  datatype Pattern =
    | SharedCode     // \b([A-Z]{4})/([A-Z]{4})-(\d+[A-Za-z]*)\b   ->  \1-\3 & \2-\3
    | SlashPair      // \b([A-Z]{4}-\d+[A-Za-z]*)/([A-Z]{4}-\d+[A-Za-z]*)\b  ->  \1 & \2
    | CommaPair      // ([A-Z]{4}-\d+[A-Za-z]*)[,]([A-Z]{4}-\d+[A-Za-z]*)  ->  \1 & \2
    | TabGap         // (\d{1,2}:\d{2})\s*\t\s*(\d{1,2}:\d{2})  ->  \1 - \2
    | SpacedDash     // \s*-\s*  ->  " - "

  /** `\b` in front of a word character at i. */
  predicate WordStart(s: string, i: nat) {
    i == 0 || (i - 1 < |s| && !IsWordChar(s[i - 1]))
  }

  /** `\b` behind a word character that ends at e. */
  predicate WordEnd(s: string, e: nat) {
    e >= |s| || !IsWordChar(s[e])
  }

  /** `[A-Z]{4}` at i. */
  predicate Upper4(s: string, i: nat) {
    i + 4 <= |s| && forall k | i <= k < i + 4 :: IsUpper(s[k])
  }

  /** Length of the run of ASCII digits at i. */
  function DigitRun(s: string, i: nat): (n: nat)
    ensures i + n <= |s| || n == 0
    ensures forall k | i <= k < i + n :: IsDigit(s[k])
    ensures i + n < |s| ==> !IsDigit(s[i + n])
    decreases |s| - i
  {
    if i < |s| && IsDigit(s[i]) then 1 + DigitRun(s, i + 1) else 0
  }

  /** Length of the run of ASCII letters at i. */
  function LetterRun(s: string, i: nat): (n: nat)
    ensures i + n <= |s| || n == 0
    ensures forall k | i <= k < i + n :: IsLetter(s[k])
    ensures i + n < |s| ==> !IsLetter(s[i + n])
    decreases |s| - i
  {
    if i < |s| && IsLetter(s[i]) then 1 + LetterRun(s, i + 1) else 0
  }

  /** `\d+[A-Za-z]*` at i, greedy: its length, 0 when there are no digits. */
  function CodeLen(s: string, i: nat): (n: nat)
    ensures n == 0 || (i + n <= |s| && IsDigit(s[i]))
    ensures n > 0 && i + n < |s| ==> !IsLetter(s[i + n])
  {
    var d := DigitRun(s, i);
    if d == 0 then 0 else d + LetterRun(s, i + d)
  }

  /** `[A-Z]{4}-\d+[A-Za-z]*` at i: its length, 0 when it does not match. */
  function NameLen(s: string, i: nat): (n: nat)
    ensures n == 0 || (n >= 6 && i + n <= |s| && Upper4(s, i) && s[i + 4] == '-')
  {
    if Upper4(s, i) && i + 4 < |s| && s[i + 4] == '-' && CodeLen(s, i + 5) > 0 then 5 + CodeLen(s, i + 5) else 0
  }

  /** Some character of s[lo..hi] is a tab. */
  predicate TabIn(s: string, lo: nat, hi: nat)
    decreases hi - lo
  {
    lo < hi && lo < |s| && (s[lo] == '\t' || TabIn(s, lo + 1, hi))
  }

  /** Length of the match of p that starts at i, 0 when there is none.  Every
      pattern here matches at least one character. */
  function MatchLen(p: Pattern, s: string, i: nat): (n: nat)
    ensures i + n <= |s| || n == 0
  {
    match p
    case SharedCode => SharedCodeLen(s, i)
    case SlashPair => PairLen(s, i, '/')
    case CommaPair => PairLen(s, i, ',')
    case TabGap => TabGapLen(s, i)
    case SpacedDash => SpacedDashLen(s, i)
  }

  /** `\b([A-Z]{4})/([A-Z]{4})-(\d+[A-Za-z]*)\b` at i. */
  function SharedCodeLen(s: string, i: nat): (n: nat)
    ensures i + n <= |s| || n == 0
  {
    if WordStart(s, i) && Upper4(s, i) && i + 4 < |s| && s[i + 4] == '/' && Upper4(s, i + 5)
      && i + 9 < |s| && s[i + 9] == '-' && CodeLen(s, i + 10) > 0 && WordEnd(s, i + 10 + CodeLen(s, i + 10))
    then 10 + CodeLen(s, i + 10) else 0
  }

  /** Two names joined by sep at i; the slash form also needs `\b` on both sides. */
  function PairLen(s: string, i: nat, sep: char): (n: nat)
    ensures i + n <= |s| || n == 0
  {
    var a := NameLen(s, i);
    if (sep == ',' || WordStart(s, i)) && a > 0 && i + a < |s| && s[i + a] == sep && NameLen(s, i + a + 1) > 0
      && (sep == ',' || WordEnd(s, i + a + 1 + NameLen(s, i + a + 1)))
    then a + 1 + NameLen(s, i + a + 1) else 0
  }

  /** A clock time, white space holding a tab, and a clock time, at i. */
  function TabGapLen(s: string, i: nat): (n: nat)
    ensures i + n <= |s| || n == 0
  {
    var k := ClockLength(s, i);
    var j := SkipSpaces(s, i + k);
    if k > 0 && TabIn(s, i + k, j) && ClockLength(s, j) > 0
    then j + ClockLength(s, j) - i else 0
  }

  /** `\s*-\s*` at i. */
  function SpacedDashLen(s: string, i: nat): (n: nat)
    ensures i + n <= |s| || n == 0
  {
    var j := SkipSpaces(s, i);
    if j < |s| && s[j] == '-' then SkipSpaces(s, j + 1) - i else 0
  }

  /** The text that replaces the match of p at i. */
  function Replacement(p: Pattern, s: string, i: nat): string
    requires MatchLen(p, s, i) > 0
  {
    match p
    case SharedCode => SharedText(s, i)
    case SlashPair => PairText(s, i, NameLen(s, i), NameLen(s, i + NameLen(s, i) + 1))
    case CommaPair => PairText(s, i, NameLen(s, i), NameLen(s, i + NameLen(s, i) + 1))
    case TabGap => TabText(s, i)
    case SpacedDash => " - "
  }

  /** \1-\3 & \2-\3 for a shared-code match at i. */
  function SharedText(s: string, i: nat): string
    requires i + 10 + CodeLen(s, i + 10) <= |s|
  {
    var code := s[i + 10..i + 10 + CodeLen(s, i + 10)];
    s[i..i + 4] + "-" + code + " & " + s[i + 5..i + 9] + "-" + code
  }

  /** \1 & \2 for a slash or comma match at i, the names a and b long. */
  function PairText(s: string, i: nat, a: nat, b: nat): string
    requires i + a + 1 + b <= |s|
  {
    s[i..i + a] + " & " + s[i + a + 1..i + a + 1 + b]
  }

  /** \1 - \2 for a tab-gap match at i. */
  function TabText(s: string, i: nat): string
    requires i + ClockLength(s, i) <= SkipSpaces(s, i + ClockLength(s, i))
    requires SkipSpaces(s, i + ClockLength(s, i)) + ClockLength(s, SkipSpaces(s, i + ClockLength(s, i))) <= |s|
  {
    var k := ClockLength(s, i);
    var j := SkipSpaces(s, i + k);
    s[i..i + k] + " - " + s[j..j + ClockLength(s, j)]
  }

  /** Where the scan goes on after the match of p at i. */
  function After(p: Pattern, s: string, i: nat): nat {
    i + MatchLen(p, s, i)
  }

  /** re.sub(p, ..., s[i..]) with the pattern still seeing the characters before
      i (for `\b`): replace the match at the current position and go on after
      it, or copy one character and go on with the next. */
  function SubFrom(p: Pattern, s: string, i: nat): string
    decreases |s| - i
  {
    if i >= |s| then ""
    else if MatchLen(p, s, i) > 0 then Replacement(p, s, i) + SubFrom(p, s, After(p, s, i))
    else [s[i]] + SubFrom(p, s, i + 1)
  }

  function Sub(p: Pattern, s: string): string {
    SubFrom(p, s, 0)
  }

  /** Where p does not match, re.sub copies one character. */
  lemma SubCopies(p: Pattern, s: string, i: nat)
    requires i < |s| && MatchLen(p, s, i) == 0
    ensures SubFrom(p, s, i) == [s[i]] + SubFrom(p, s, i + 1)
  {
  }

  /** Where p does not match, re.sub copies the text unchanged. */
  lemma {:induction false} SubSkip(p: Pattern, s: string, i: nat, j: nat)
    requires i <= j <= |s|
    requires forall k | i <= k < j :: MatchLen(p, s, k) == 0
    ensures SubFrom(p, s, i) == s[i..j] + SubFrom(p, s, j)
    decreases j - i
  {
    if i < j {
      SubCopies(p, s, i);
      SubSkip(p, s, i + 1, j);
      SliceCons(s, i, j);
      PrependJoin(s[i], SubFrom(p, s, i), SubFrom(p, s, i + 1), s[i + 1..j], SubFrom(p, s, j), s[i..j]);
    }
  }

  /** a = x : b and b = mid + c give a = (x : mid) + c. */
  lemma PrependJoin<T>(x: T, a: seq<T>, b: seq<T>, mid: seq<T>, c: seq<T>, whole: seq<T>)
    requires a == [x] + b && b == mid + c && whole == [x] + mid
    ensures a == whole + c
  {
  }

  lemma SliceCons<T>(s: seq<T>, i: nat, j: nat)
    requires i < j <= |s|
    ensures s[i..j] == [s[i]] + s[i + 1..j]
  {
  }

  lemma AppendAssoc<T>(a: seq<T>, b: seq<T>, c: seq<T>)
    ensures a + (b + c) == (a + b) + c
  {
  }

  /** A text in which p matches nowhere is left as it is. */
  lemma SubIdentity(p: Pattern, s: string)
    requires forall k | 0 <= k < |s| :: MatchLen(p, s, k) == 0
    ensures Sub(p, s) == s
  {
    SubSkip(p, s, 0, |s|);
  }

  /** str.replace(a, b) for single characters. */
  function ReplaceChar(s: string, a: char, b: char): (r: string)
    ensures |r| == |s|
    ensures forall k | 0 <= k < |s| :: r[k] == (if s[k] == a then b else s[k])
  {
    if s == [] then [] else [if s[0] == a then b else s[0]] + ReplaceChar(s[1..], a, b)
  }

  // ---------------------------------------------------------------------------
  // fix_class_group_format

  /** fix_class_group_format: the three rewrites, one after the other. */
  function FixClassGroupFormat(s: string): string {
    if s == "" then s else Sub(CommaPair, Sub(SlashPair, Sub(SharedCode, s)))
  }

  /** The two slash rewrites need a '/', the comma rewrite a ','. */
  lemma MatchNeedsSeparator(p: Pattern, s: string, i: nat)
    requires p == SharedCode || p == SlashPair || p == CommaPair
    requires MatchLen(p, s, i) > 0
    ensures p != CommaPair ==> '/' in s
    ensures p == CommaPair ==> ',' in s
  {
    if p == SharedCode {
      assert s[i + 4] == '/';
    } else {
      assert s[i + NameLen(s, i)] == (if p == SlashPair then '/' else ',');
    }
  }

  lemma NoMatchWithout(p: Pattern, s: string)
    requires p == SharedCode || p == SlashPair || p == CommaPair
    requires p != CommaPair ==> '/' !in s
    requires p == CommaPair ==> ',' !in s
    ensures Sub(p, s) == s
  {
    forall k | 0 <= k < |s| ensures MatchLen(p, s, k) == 0 {
      if MatchLen(p, s, k) > 0 {
        MatchNeedsSeparator(p, s, k);
      }
    }
    SubIdentity(p, s);
  }

  /** The empty string comes back as it is, and so does any group text with
      neither a '/' nor a ',' in it. */
  lemma FixUnchanged(s: string)
    requires '/' !in s && ',' !in s
    ensures FixClassGroupFormat(s) == s
  {
    if s != "" {
      NoMatchWithout(SharedCode, s);
      NoMatchWithout(SlashPair, s);
      NoMatchWithout(CommaPair, s);
    }
  }

  predicate AllUpper(s: string) { forall k | 0 <= k < |s| :: IsUpper(s[k]) }
  predicate AllLetters(s: string) { forall k | 0 <= k < |s| :: IsLetter(s[k]) }

  /** A programme code: four capital letters. */
  predicate Programme(a: string) { |a| == 4 && AllUpper(a) }

  /** A semester-section code such as "6A": digits, then letters. */
  predicate SectionCode(d: string, l: string) { d != [] && AllDigits(d) && AllLetters(l) }

  lemma DigitRunExact(s: string, i: nat, n: nat)
    requires i + n <= |s| && forall k | i <= k < i + n :: IsDigit(s[k])
    requires i + n == |s| || !IsDigit(s[i + n])
    ensures DigitRun(s, i) == n
    decreases n
  {
    if n > 0 {
      DigitRunExact(s, i + 1, n - 1);
    }
  }

  lemma LetterRunExact(s: string, i: nat, n: nat)
    requires i + n <= |s| && forall k | i <= k < i + n :: IsLetter(s[k])
    requires i + n == |s| || !IsLetter(s[i + n])
    ensures LetterRun(s, i) == n
    decreases n
  {
    if n > 0 {
      LetterRunExact(s, i + 1, n - 1);
    }
  }

  /** A section code written at i reads back as exactly that code. */
  lemma CodeAt(s: string, i: nat, d: string, l: string)
    requires SectionCode(d, l) && i + |d| + |l| <= |s| && s[i..i + |d| + |l|] == d + l
    requires i + |d| + |l| == |s| || (!IsLetter(s[i + |d| + |l|]) && !IsDigit(s[i + |d| + |l|]))
    ensures CodeLen(s, i) == |d| + |l|
  {
    forall k | i <= k < i + |d| ensures IsDigit(s[k]) {
      assert s[k] == (d + l)[k - i];
    }
    forall k | i + |d| <= k < i + |d| + |l| ensures IsLetter(s[k]) {
      assert s[k] == (d + l)[k - i];
    }
    if l != [] {
      assert s[i + |d|] == (d + l)[|d|];
    }
    DigitRunExact(s, i, |d|);
    LetterRunExact(s, i + |d|, |l|);
  }

  /** A text that p matches as a whole is replaced as a whole. */
  lemma SubWhole(p: Pattern, s: string)
    requires s != [] && MatchLen(p, s, 0) == |s|
    ensures Sub(p, s) == Replacement(p, s, 0)
  {
    assert SubFrom(p, s, 0) == Replacement(p, s, 0) + SubFrom(p, s, |s|);
  }

  lemma SharedCodeMatch(a: string, b: string, d: string, l: string)
    requires Programme(a) && Programme(b) && SectionCode(d, l)
    ensures var s := a + "/" + b + "-" + d + l;
      && MatchLen(SharedCode, s, 0) == |s|
      && Replacement(SharedCode, s, 0) == a + "-" + d + l + " & " + b + "-" + d + l
  {
    var s := a + "/" + b + "-" + d + l;
    assert s[0..4] == a && s[5..9] == b && s[4] == '/' && s[9] == '-';
    assert s[10..|s|] == d + l;
    CodeAt(s, 10, d, l);
  }

  /** "BSDS/BSAI-6A" becomes "BSDS-6A & BSAI-6A": two programmes sharing one
      section code are written out in full. */
  lemma FixSharedCode(a: string, b: string, d: string, l: string)
    requires Programme(a) && Programme(b) && SectionCode(d, l)
    ensures FixClassGroupFormat(a + "/" + b + "-" + d + l) == a + "-" + d + l + " & " + b + "-" + d + l
  {
    var s := a + "/" + b + "-" + d + l;
    var r := a + "-" + d + l + " & " + b + "-" + d + l;
    SharedCodeMatch(a, b, d, l);
    SubWhole(SharedCode, s);
    NoSlashOrComma(r, a, b, d + l);
    NoMatchWithout(SlashPair, r);
    NoMatchWithout(CommaPair, r);
  }

  lemma NoSlashOrComma(r: string, a: string, b: string, c: string)
    requires r == a + "-" + c + " & " + b + "-" + c
    requires forall k | 0 <= k < |a| :: IsLetter(a[k])
    requires forall k | 0 <= k < |b| :: IsLetter(b[k])
    requires forall k | 0 <= k < |c| :: IsLetter(c[k]) || IsDigit(c[k])
    ensures '/' !in r && ',' !in r
  {
    forall k | 0 <= k < |r| ensures r[k] != '/' && r[k] != ',' {
      if k < |a| { assert r[k] == a[k]; }
      else if |a| + 1 <= k < |a| + 1 + |c| { assert r[k] == c[k - |a| - 1]; }
      else if |a| + |c| + 4 <= k < |a| + |c| + 4 + |b| { assert r[k] == b[k - |a| - |c| - 4]; }
      else if |a| + |c| + |b| + 5 <= k { assert r[k] == c[k - |a| - |c| - |b| - 5]; }
    }
  }

  /** A full group name such as "BSAI-1A". */
  function GroupName(a: string, d: string, l: string): string { a + "-" + d + l }

  /** A group name written at i, followed by neither a letter nor a digit,
      reads back as exactly that name. */
  lemma NameAt(s: string, i: nat, x: string, a: string, d: string, l: string)
    requires Programme(a) && SectionCode(d, l) && x == GroupName(a, d, l)
    requires i + |x| <= |s| && s[i..i + |x|] == x
    requires var e := i + |x|; e == |s| || (!IsLetter(s[e]) && !IsDigit(s[e]))
    ensures NameLen(s, i) == |x|
  {
    assert s[i..i + 4] == x[..4] == a;
    assert Upper4(s, i) by {
      forall k | i <= k < i + 4 ensures IsUpper(s[k]) { assert s[k] == a[k - i]; }
    }
    assert s[i + 4] == x[4] == '-';
    assert s[i + 5..i + |x|] == x[5..] == d + l;
    CodeAt(s, i + 5, d, l);
  }

  lemma SlashPairMatch(a: string, d1: string, l1: string, b: string, d2: string, l2: string, x: string, y: string)
    requires Programme(a) && SectionCode(d1, l1) && Programme(b) && SectionCode(d2, l2)
    requires x == GroupName(a, d1, l1) && y == GroupName(b, d2, l2)
    ensures MatchLen(SlashPair, x + "/" + y, 0) == |x + "/" + y|
    ensures Replacement(SlashPair, x + "/" + y, 0) == x + " & " + y
  {
    var s := x + "/" + y;
    NameBefore(x, "/" + y, a, d1, l1);
    NameAfter(x + "/", y, b, d2, l2);
    assert x + ("/" + y) == s;
    assert s[|x|] == '/';
    SlashPairAt(s, |x|, |y|);
  }

  lemma NameBefore(x: string, rest: string, a: string, d: string, l: string)
    requires Programme(a) && SectionCode(d, l) && x == GroupName(a, d, l)
    requires rest != [] && rest[0] == '/'
    ensures NameLen(x + rest, 0) == |x|
  {
    var s := x + rest;
    assert s[0..|x|] == x && s[|x|] == '/';
    NameAt(s, 0, x, a, d, l);
  }

  lemma NameAfter(pre: string, y: string, b: string, d: string, l: string)
    requires Programme(b) && SectionCode(d, l) && y == GroupName(b, d, l)
    ensures NameLen(pre + y, |pre|) == |y|
  {
    var s := pre + y;
    assert s[|pre|..|pre| + |y|] == y;
    NameAt(s, |pre|, y, b, d, l);
  }

  /** A name of length n1, a '/', and a name of length n2 filling s. */
  lemma SlashPairAt(s: string, n1: nat, n2: nat)
    requires NameLen(s, 0) == n1 > 0 && n1 < |s| && s[n1] == '/'
    requires NameLen(s, n1 + 1) == n2 > 0 && n1 + 1 + n2 == |s|
    ensures MatchLen(SlashPair, s, 0) == |s|
    ensures Replacement(SlashPair, s, 0) == s[0..n1] + " & " + s[n1 + 1..n1 + 1 + n2]
  {
    assert WordStart(s, 0) && WordEnd(s, |s|);
  }

  /** "BSAI-1A/BSDS-1A" becomes "BSAI-1A & BSDS-1A": two full group names
      around a slash are joined with " & ". */
  lemma FixSlashPair(a: string, d1: string, l1: string, b: string, d2: string, l2: string)
    requires Programme(a) && SectionCode(d1, l1) && Programme(b) && SectionCode(d2, l2)
    ensures var x, y := GroupName(a, d1, l1), GroupName(b, d2, l2);
      FixClassGroupFormat(x + "/" + y) == x + " & " + y
  {
    var x, y := GroupName(a, d1, l1), GroupName(b, d2, l2);
    var s := x + "/" + y;
    SlashPairNoSharedCode(a, d1, l1, b, d2, l2);
    SubIdentity(SharedCode, s);
    SlashPairMatch(a, d1, l1, b, d2, l2, x, y);
    SubWhole(SlashPair, s);
    GroupNameNoSeparator(a, d1, l1);
    GroupNameNoSeparator(b, d2, l2);
    NoCommaJoined(x, y);
    NoMatchWithout(CommaPair, x + " & " + y);
  }

  lemma NoCommaJoined(x: string, y: string)
    requires ',' !in x && ',' !in y
    ensures ',' !in x + " & " + y
  {
    var r := x + " & " + y;
    forall k | 0 <= k < |r| ensures r[k] != ',' {
      if k < |x| { assert r[k] == x[k]; }
      else if k >= |x| + 3 { assert r[k] == y[k - |x| - 3]; }
    }
  }

  /** The shared-code rewrite finds nothing in "AAAA-1A/BBBB-1A": the only '/'
      has a section code, not four capitals, in front of it. */
  lemma SlashPairNoSharedCode(a: string, d1: string, l1: string, b: string, d2: string, l2: string)
    requires Programme(a) && SectionCode(d1, l1) && Programme(b) && SectionCode(d2, l2)
    ensures var s := GroupName(a, d1, l1) + "/" + GroupName(b, d2, l2);
      forall k | 0 <= k < |s| :: MatchLen(SharedCode, s, k) == 0
  {
    var x, y := GroupName(a, d1, l1), GroupName(b, d2, l2);
    var s := x + "/" + y;
    var c := |d1| + |l1|;
    forall k | 0 <= k < |s| ensures MatchLen(SharedCode, s, k) == 0 {
      if k + 4 < |x| {
        assert s[k + 4] == x[k + 4];
        GroupNameChar(a, d1, l1, k + 4);
      } else if k + 4 == |x| {
        assert k == c + 1;
        if c <= 3 {
          assert s[k - 1] == a[k - 1];
          assert !WordStart(s, k);
        } else if c == 4 {
          assert s[5] == d1[0];
          assert !Upper4(s, k);
        } else {
          assert s[k - 1] == x[k - 1];
          GroupNameWordChar(a, d1, l1, k - 1);
          assert !WordStart(s, k);
        }
      } else if k + 4 < |s| {
        assert s[k + 4] == y[k + 4 - |x| - 1];
        GroupNameChar(b, d2, l2, k + 4 - |x| - 1);
      }
    }
  }

  /** A group name that ends the text is not followed by a comma. */
  lemma NoCommaPairAtEnd(s: string, i: nat, a: string, d: string, l: string)
    requires Programme(a) && SectionCode(d, l)
    requires i + |GroupName(a, d, l)| == |s| && s[i..] == GroupName(a, d, l)
    ensures forall k | i <= k < |s| :: MatchLen(CommaPair, s, k) == 0
  {
    var x := GroupName(a, d, l);
    NameAt(s, i, x, a, d, l);
    forall k | i < k < |s| ensures MatchLen(CommaPair, s, k) == 0 {
      if k + 4 < |s| {
        assert s[k + 4] == x[k + 4 - i];
        GroupNameChar(a, d, l, k + 4 - i);
      }
    }
  }

  lemma CommaListNoSlash(a: string, d1: string, l1: string, d2: string, l2: string)
    requires Programme(a) && SectionCode(d1, l1) && SectionCode(d2, l2)
    ensures '/' !in GroupName(a, d1, l1) + "," + d2 + l2
  {
    var x := GroupName(a, d1, l1);
    var s := x + "," + d2 + l2;
    forall k | 0 <= k < |s| ensures s[k] != '/' {
      if k < |x| { assert s[k] == x[k]; if k >= 5 { assert x[k] == (d1 + l1)[k - 5]; } }
      else if k > |x| { assert s[k] == (d2 + l2)[k - |x| - 1]; }
    }
  }

  lemma CommaListNoPair(a: string, d1: string, l1: string, d2: string, l2: string)
    requires Programme(a) && SectionCode(d1, l1) && SectionCode(d2, l2)
    ensures var s := GroupName(a, d1, l1) + "," + d2 + l2;
      forall k | 0 <= k < |s| :: MatchLen(CommaPair, s, k) == 0
  {
    var x := GroupName(a, d1, l1);
    var s := x + "," + d2 + l2;
    forall k | 0 <= k < |s| ensures MatchLen(CommaPair, s, k) == 0 {
      if k == 0 {
        assert s[..|x|] == x && s[|x|] == ',';
        NameAt(s, 0, x, a, d1, l1);
        assert s[|x| + 1] == d2[0];
      } else if k + 4 < |x| {
        assert s[k + 4] == x[k + 4];
        GroupNameChar(a, d1, l1, k + 4);
      } else if |x| < k + 4 < |s| {
        assert s[k + 4] == (d2 + l2)[k + 4 - |x| - 1];
      }
    }
  }

  /** "BSSE-2A,2B" is left as it is: the comma rewrite wants a full group name
      on both sides, so a list of bare section codes is not expanded. */
  lemma FixCommaListUnchanged(a: string, d1: string, l1: string, d2: string, l2: string)
    requires Programme(a) && SectionCode(d1, l1) && SectionCode(d2, l2)
    ensures FixClassGroupFormat(GroupName(a, d1, l1) + "," + d2 + l2) == GroupName(a, d1, l1) + "," + d2 + l2
  {
    var s := GroupName(a, d1, l1) + "," + d2 + l2;
    CommaListNoSlash(a, d1, l1, d2, l2);
    NoMatchWithout(SharedCode, s);
    NoMatchWithout(SlashPair, s);
    CommaListNoPair(a, d1, l1, d2, l2);
    SubIdentity(CommaPair, s);
  }

  /** What a character of a group name can be. */
  lemma GroupNameChar(a: string, d: string, l: string, k: int)
    requires Programme(a) && SectionCode(d, l)
    requires 0 <= k < |GroupName(a, d, l)|
    ensures var c := GroupName(a, d, l)[k];
      c != '/' && c != ',' && c != ' ' && c != '&' && (c == '-' <==> k == 4) && (k == 0 ==> IsUpper(c))
  {
    var x := GroupName(a, d, l);
    if k < 4 {
      assert x[k] == a[k];
    } else if k > 4 {
      assert x[k] == (d + l)[k - 5];
    }
  }

  /** Every character of a group name but its dash is a word character. */
  lemma GroupNameWordChar(a: string, d: string, l: string, k: int)
    requires Programme(a) && SectionCode(d, l)
    requires 0 <= k < |GroupName(a, d, l)| && k != 4
    ensures IsWordChar(GroupName(a, d, l)[k])
  {
    var x := GroupName(a, d, l);
    if k < 4 {
      assert x[k] == a[k];
    } else if k - 5 < |d| {
      assert x[k] == d[k - 5];
    } else {
      assert x[k] == l[k - 5 - |d|];
    }
  }

  /** A group name holds none of the separators the rewrites look for. */
  lemma GroupNameNoSeparator(a: string, d: string, l: string)
    requires Programme(a) && SectionCode(d, l)
    ensures var x := GroupName(a, d, l); '/' !in x && ',' !in x
  {
    var x := GroupName(a, d, l);
    forall k | 0 <= k < |x| ensures x[k] != '/' && x[k] != ',' {
      GroupNameChar(a, d, l, k);
    }
  }

  /** "x,y" at i, followed by the end or by a character that is no letter or
      digit, is one match of the comma rewrite. */
  lemma CommaPairAt(s: string, i: nat, x: string, y: string,
                    a: string, d1: string, l1: string, b: string, d2: string, l2: string)
    requires Programme(a) && SectionCode(d1, l1) && x == GroupName(a, d1, l1)
    requires Programme(b) && SectionCode(d2, l2) && y == GroupName(b, d2, l2)
    requires i + |x| + 1 + |y| <= |s| && s[i..i + |x|] == x && s[i + |x|] == ',' && s[i + |x| + 1..i + |x| + 1 + |y|] == y
    requires var e := i + |x| + 1 + |y|; e == |s| || (!IsLetter(s[e]) && !IsDigit(s[e]))
    ensures MatchLen(CommaPair, s, i) == |x| + 1 + |y|
    ensures Replacement(CommaPair, s, i) == x + " & " + y
  {
    CommaNames(s, i, x, y, a, d1, l1, b, d2, l2);
    PairFromLengths(s, i, x, y);
  }

  /** The two names around the comma are read with their full lengths. */
  lemma CommaNames(s: string, i: nat, x: string, y: string,
                   a: string, d1: string, l1: string, b: string, d2: string, l2: string)
    requires Programme(a) && SectionCode(d1, l1) && x == GroupName(a, d1, l1)
    requires Programme(b) && SectionCode(d2, l2) && y == GroupName(b, d2, l2)
    requires i + |x| + 1 + |y| <= |s| && s[i..i + |x|] == x && s[i + |x|] == ',' && s[i + |x| + 1..i + |x| + 1 + |y|] == y
    requires var e := i + |x| + 1 + |y|; e == |s| || (!IsLetter(s[e]) && !IsDigit(s[e]))
    ensures |x| > 0 && |y| > 0
    ensures NameLen(s, i) == |x| && NameLen(s, i + |x| + 1) == |y|
  {
    NameBeforeComma(s, i, x, a, d1, l1);
    NameAt(s, i + |x| + 1, y, b, d2, l2);
  }

  lemma NameBeforeComma(s: string, i: nat, x: string, a: string, d: string, l: string)
    requires Programme(a) && SectionCode(d, l) && x == GroupName(a, d, l)
    requires i + |x| < |s| && s[i..i + |x|] == x && s[i + |x|] == ','
    ensures |x| > 0 && NameLen(s, i) == |x|
  {
    NameAt(s, i, x, a, d, l);
  }

  /** The comma rewrite at i, given the two names around the comma and their lengths. */
  lemma PairFromLengths(s: string, i: nat, x: string, y: string)
    requires |x| > 0 && |y| > 0 && i + |x| + 1 + |y| <= |s|
    requires NameLen(s, i) == |x| && s[i + |x|] == ',' && NameLen(s, i + |x| + 1) == |y|
    requires s[i..i + |x|] == x && s[i + |x| + 1..i + |x| + 1 + |y|] == y
    ensures MatchLen(CommaPair, s, i) == |x| + 1 + |y|
    ensures Replacement(CommaPair, s, i) == x + " & " + y
  {
    PairMatchFromLengths(s, i, |x|, |y|);
    PairTextOf(s, i, x, y);
    CommaReplacement(s, i);
    EqTrans(Replacement(CommaPair, s, i), PairText(s, i, |x|, |y|), x + " & " + y);
  }

  lemma PairTextOf(s: string, i: nat, x: string, y: string)
    requires i + |x| + 1 + |y| <= |s|
    requires s[i..i + |x|] == x && s[i + |x| + 1..i + |x| + 1 + |y|] == y
    ensures PairText(s, i, |x|, |y|) == x + " & " + y
  {
  }

  lemma CommaReplacement(s: string, i: nat)
    requires MatchLen(CommaPair, s, i) > 0
    ensures Replacement(CommaPair, s, i) == PairText(s, i, NameLen(s, i), NameLen(s, i + NameLen(s, i) + 1))
  {
  }

  lemma EqTrans<T>(a: T, b: T, c: T)
    requires a == b && b == c
    ensures a == c
  {
  }

  lemma PairMatchFromLengths(s: string, i: nat, a: nat, b: nat)
    requires a > 0 && b > 0 && i + a + 1 + b <= |s|
    requires NameLen(s, i) == a && s[i + a] == ',' && NameLen(s, i + a + 1) == b
    ensures MatchLen(CommaPair, s, i) == a + 1 + b
  {
  }

  /** A match at the front, then nothing more: the replacement and a copy of the rest. */
  lemma SubMatchThenCopy(p: Pattern, s: string, m: nat)
    requires 0 < m <= |s| && MatchLen(p, s, 0) == m
    requires forall k | m <= k < |s| :: MatchLen(p, s, k) == 0
    ensures Sub(p, s) == Replacement(p, s, 0) + s[m..]
  {
    AfterIs(p, s, 0, m);
    SubAfterMatch(p, s, 0);
    SubBack(p, s, m);
  }

  /** Nothing up to o, then one match to the end: a copy of the front and the replacement. */
  lemma SubCopyThenMatch(p: Pattern, s: string, o: nat)
    requires o < |s| && MatchLen(p, s, o) == |s| - o
    requires forall k | 0 <= k < o :: MatchLen(p, s, k) == 0
    ensures Sub(p, s) == s[..o] + Replacement(p, s, o)
  {
    SubFront(p, s, o);
    AfterIs(p, s, o, |s|);
    SubAfterMatch(p, s, o);
    assert SubFrom(p, s, |s|) == "";
    assert Replacement(p, s, o) + "" == Replacement(p, s, o);
  }

  lemma SubAfterMatch(p: Pattern, s: string, a: nat)
    requires a < |s| && MatchLen(p, s, a) > 0
    ensures SubFrom(p, s, a) == Replacement(p, s, a) + SubFrom(p, s, After(p, s, a))
  {
  }

  /** Nothing before a, one match from a to b, nothing after: the text around
      the match is copied and the match replaced. */
  lemma SubThree(p: Pattern, s: string, a: nat, b: nat)
    requires a < b <= |s| && MatchLen(p, s, a) == b - a
    requires forall k | 0 <= k < a :: MatchLen(p, s, k) == 0
    requires forall k | b <= k < |s| :: MatchLen(p, s, k) == 0
    ensures Sub(p, s) == s[..a] + Replacement(p, s, a) + s[b..]
  {
    SubFront(p, s, a);
    SubMiddle(p, s, a, b);
    AppendAssoc(s[..a], Replacement(p, s, a), s[b..]);
  }

  /** One match from a to b and nothing after: the replacement and a copy of the rest. */
  lemma SubMiddle(p: Pattern, s: string, a: nat, b: nat)
    requires a < b <= |s| && MatchLen(p, s, a) == b - a
    requires forall k | b <= k < |s| :: MatchLen(p, s, k) == 0
    ensures SubFrom(p, s, a) == Replacement(p, s, a) + s[b..]
  {
    AfterIs(p, s, a, b);
    SubAfterMatch(p, s, a);
    SubBack(p, s, b);
  }

  lemma AfterIs(p: Pattern, s: string, a: nat, b: nat)
    requires MatchLen(p, s, a) == b - a
    ensures After(p, s, a) == b
  {
  }

  lemma SubFront(p: Pattern, s: string, a: nat)
    requires a <= |s| && forall k | 0 <= k < a :: MatchLen(p, s, k) == 0
    ensures Sub(p, s) == s[..a] + SubFrom(p, s, a)
  {
    SubSkip(p, s, 0, a);
    assert s[0..a] == s[..a];
  }

  lemma SubBack(p: Pattern, s: string, b: nat)
    requires b <= |s| && forall k | b <= k < |s| :: MatchLen(p, s, k) == 0
    ensures SubFrom(p, s, b) == s[b..]
  {
    SubSkip(p, s, b, |s|);
    assert s[b..|s|] == s[b..];
    assert SubFrom(p, s, |s|) == "";
  }

  /** "BSSE-2A,BSSE-2B,BSSE-2C": one pass joins the first two names only. */
  lemma CommaChainFirstPass(x: string, y: string, z: string,
                            a: string, d1: string, l1: string, b: string, d2: string, l2: string,
                            c: string, d3: string, l3: string)
    requires Programme(a) && SectionCode(d1, l1) && x == GroupName(a, d1, l1)
    requires Programme(b) && SectionCode(d2, l2) && y == GroupName(b, d2, l2)
    requires Programme(c) && SectionCode(d3, l3) && z == GroupName(c, d3, l3)
    ensures FixClassGroupFormat(x + "," + y + "," + z) == x + " & " + y + "," + z
  {
    var u, w := x + "," + y, "," + z;
    var s := u + w;
    AppendAssoc(u, ",", z);
    GroupNameNoSeparator(a, d1, l1);
    GroupNameNoSeparator(b, d2, l2);
    GroupNameNoSeparator(c, d3, l3);
    assert '/' !in s;
    NoMatchWithout(SharedCode, s);
    NoMatchWithout(SlashPair, s);
    assert s[..|u|] == u && s[|u|..] == w;
    assert s[0..|x|] == x && s[|x|] == ',' && s[|x| + 1..|u|] == y && s[|u|] == ',';
    CommaPairAt(s, 0, x, y, a, d1, l1, b, d2, l2);
    NoCommaPairAfter(s, |u|, c, d3, l3);
    SubMatchThenCopy(CommaPair, s, |u|);
    AppendAssoc(x + " & " + y, ",", z);
  }

  /** ",z" ending the text holds no comma match. */
  lemma NoCommaPairAfter(s: string, m: nat, c: string, d: string, l: string)
    requires Programme(c) && SectionCode(d, l)
    requires m < |s| && s[m] == ',' && s[m + 1..] == GroupName(c, d, l)
    ensures forall k | m <= k < |s| :: MatchLen(CommaPair, s, k) == 0
  {
    NoCommaPairAtEnd(s, m + 1, c, d, l);
    assert !IsUpper(s[m]);
  }

  /** A second pass over the result joins the remaining pair. */
  lemma CommaChainSecondPass(x: string, y: string, z: string,
                             a: string, d1: string, l1: string, b: string, d2: string, l2: string,
                             c: string, d3: string, l3: string)
    requires Programme(a) && SectionCode(d1, l1) && x == GroupName(a, d1, l1)
    requires Programme(b) && SectionCode(d2, l2) && y == GroupName(b, d2, l2)
    requires Programme(c) && SectionCode(d3, l3) && z == GroupName(c, d3, l3)
    ensures FixClassGroupFormat(x + " & " + y + "," + z) == x + " & " + y + " & " + z
  {
    var t := x + " & " + y + "," + z;
    var o := |x| + 3;
    GroupNameNoSeparator(a, d1, l1);
    GroupNameNoSeparator(b, d2, l2);
    GroupNameNoSeparator(c, d3, l3);
    assert '/' !in t;
    NoMatchWithout(SharedCode, t);
    NoMatchWithout(SlashPair, t);
    SecondPassPrefix(t, x, y, z, a, d1, l1, b, d2, l2);
    SecondPassShape(x, y, z);
    CommaPairAt(t, o, y, z, b, d2, l2, c, d3, l3);
    SubCopyThenMatch(CommaPair, t, o);
  }

  /** Where the pieces of "x & y,z" sit. */
  lemma SecondPassShape(x: string, y: string, z: string)
    ensures var t, o := x + " & " + y + "," + z, |x| + 3;
      && t[..o] == x + " & " && t[o..o + |y|] == y && t[o + |y|] == ',' && t[o + |y| + 1..] == z
      && t[..o] + (y + " & " + z) == x + " & " + y + " & " + z
  {
    var u := x + " & ";
    AppendAssoc(u, y + ",", z);
    AppendAssoc(u, y, ",");
    AppendAssoc(u, y + " & ", z);
    AppendAssoc(u, y, " & ");
  }

  /** No comma match starts inside "x & " of "x & y,z". */
  lemma SecondPassPrefix(t: string, x: string, y: string, z: string,
                         a: string, d1: string, l1: string, b: string, d2: string, l2: string)
    requires Programme(a) && SectionCode(d1, l1) && x == GroupName(a, d1, l1)
    requires Programme(b) && SectionCode(d2, l2) && y == GroupName(b, d2, l2)
    requires t == x + " & " + y + "," + z
    ensures forall k | 0 <= k < |x| + 3 :: MatchLen(CommaPair, t, k) == 0
  {
    var o := |x| + 3;
    forall k | 0 <= k < o ensures MatchLen(CommaPair, t, k) == 0 {
      if k == 0 {
        assert t[..|x|] == x && t[|x|] == ' ';
        NameAt(t, 0, x, a, d1, l1);
      } else if k + 4 < |x| {
        assert t[k + 4] == x[k + 4];
        GroupNameChar(a, d1, l1, k + 4);
      } else if k + 4 < o {
        assert t[k + 4] == (if k + 4 == |x| + 1 then '&' else ' ');
      } else if k + 4 < |t| {
        assert t[k + 4] == y[k + 4 - o];
        GroupNameChar(b, d2, l2, k + 4 - o);
      }
    }
  }

  /** fix_class_group_format is not idempotent on a chain of three names: the
      converter applies it three times over, and each pass joins one more pair. */
  lemma FixNotIdempotentOnChains(x: string, y: string, z: string,
                                 a: string, d1: string, l1: string, b: string, d2: string, l2: string,
                                 c: string, d3: string, l3: string)
    requires Programme(a) && SectionCode(d1, l1) && x == GroupName(a, d1, l1)
    requires Programme(b) && SectionCode(d2, l2) && y == GroupName(b, d2, l2)
    requires Programme(c) && SectionCode(d3, l3) && z == GroupName(c, d3, l3)
    ensures var once := FixClassGroupFormat(x + "," + y + "," + z);
      FixClassGroupFormat(once) != once
  {
    CommaChainFirstPass(x, y, z, a, d1, l1, b, d2, l2, c, d3, l3);
    CommaChainSecondPass(x, y, z, a, d1, l1, b, d2, l2, c, d3, l3);
    assert |x + " & " + y + " & " + z| != |x + " & " + y + "," + z|;
  }
}

/** The string and list normalisation of the web application: teacher lists
    split on the courtesy prefixes, group lists expanded, clock times turned
    into minutes, the semester read from the file name, and the sort keys of
    the index. */
module Normalize {
  import opened Strings
  import opened Ordering
  import opened CellText

  // ---------------------------------------------------------------------------
  // Teachers

  /** The courtesy prefixes, in the order that ranks teachers. */
  const PrefixHierarchy: seq<string> := ["Ms", "Mrs", "Miss", "Ma'am", "Maam", "Mr", "Sir", "Dr", "Prof"]

  /** The prefixes upper-cased, as the comparisons use them. */
  const UpperPrefixes: seq<string> := ["MS", "MRS", "MISS", "MA'AM", "MAAM", "MR", "SIR", "DR", "PROF"]

  lemma UpperPrefixesSpec()
    ensures |UpperPrefixes| == |PrefixHierarchy|
    ensures forall i | 0 <= i < |PrefixHierarchy| :: UpperPrefixes[i] == Upper(PrefixHierarchy[i])
  {
  }

  /** A word opens a new teacher name when its upper-case form starts with the
      upper-case form of a prefix (so "Mrs." and "Mr" both open one). */
  predicate OpensName(word: string) {
    exists p <- UpperPrefixes :: StartsWith(Upper(word), p)
  }

  /** The loop state of parse_multiple_teachers: the names finished so far and
      the one being built. */
  datatype Reading = Reading(teachers: seq<string>, current: string)

  /** The finished name, upper-cased, if the text built so far is not blank. */
  function Flush(current: string): seq<string> {
    if Trim(current) != "" then [Upper(Trim(current))] else []
  }

  /** The loop over the first n words. */
  function TeacherFold(words: seq<string>, n: nat, opens: string -> bool): Reading
    requires n <= |words|
  {
    if n == 0 then Reading([], "")
    else
      var st := TeacherFold(words, n - 1, opens);
      var word := words[n - 1];
      if opens(word) then Reading(st.teachers + Flush(st.current), word)
      else Reading(st.teachers, st.current + " " + word)
  }

  /** parse_multiple_teachers */
  function MultipleTeachers(s: string): seq<string> {
    if Trim(s) == "" then []
    else
      var words := Words(Trim(s));
      var st := TeacherFold(words, |words|, OpensName);
      st.teachers + Flush(st.current)
  }

  method ParseMultipleTeachers(s: string) returns (teachers: seq<string>)
    ensures teachers == MultipleTeachers(s)
  {
    var t := Trim(s);
    if t == "" {
      return [];
    }
    var words := Words(t);
    teachers := [];
    var current := "";
    for k := 0 to |words|
      invariant Reading(teachers, current) == TeacherFold(words, k, OpensName)
    {
      var word := words[k];
      if OpensName(word) {
        if Trim(current) != "" {
          teachers := teachers + [Upper(Trim(current))];
        }
        current := word;
      } else {
        current := current + " " + word;
      }
    }
    if Trim(current) != "" {
      teachers := teachers + [Upper(Trim(current))];
    }
  }

  /** The words of the first n, grouped into names: a name starts at the first
      word and at every word that opens a name. */
  function NameGroups(words: seq<string>, n: nat, opens: string -> bool): (g: seq<seq<string>>)
    requires 1 <= n <= |words|
    ensures g != [] && forall j | 0 <= j < |g| :: g[j] != []
  {
    if n == 1 then [[words[0]]]
    else
      var g := NameGroups(words, n - 1, opens);
      var w := words[n - 1];
      if opens(w) then g + [[w]] else g[..|g| - 1] + [g[|g| - 1] + [w]]
  }

  /** Each group as one upper-cased name. */
  function Names(gs: seq<seq<string>>): (r: seq<string>)
    ensures |r| == |gs|
  {
    if gs == [] then [] else Names(gs[..|gs| - 1]) + [Upper(Join(gs[|gs| - 1], " "))]
  }

  lemma {:induction false} NamesAt(gs: seq<seq<string>>, j: nat)
    requires j < |gs|
    ensures Names(gs)[j] == Upper(Join(gs[j], " "))
  {
    if j < |gs| - 1 {
      NamesAt(gs[..|gs| - 1], j);
    }
  }

  predicate SpaceFree(w: string) {
    w != [] && forall i | 0 <= i < |w| :: !IsSpace(w[i])
  }

  lemma {:induction false} JoinSnoc(xs: seq<string>, y: string, sep: string)
    ensures Join(xs + [y], sep) == if xs == [] then y else Join(xs, sep) + sep + y
    decreases |xs|
  {
    if |xs| >= 2 {
      assert (xs + [y])[1..] == xs[1..] + [y];
      JoinSnoc(xs[1..], y, sep);
    } else if |xs| == 1 {
      assert (xs + [y])[1..] == [y];
    }
  }

  /** Words joined by single spaces have no space at either end. */
  lemma {:induction false} JoinTidy(g: seq<string>)
    requires g != [] && forall j | 0 <= j < |g| :: SpaceFree(g[j])
    ensures Tidy(Join(g, " "))
    decreases |g|
  {
    assert SpaceFree(g[0]);
    if |g| > 1 {
      JoinTidy(g[1..]);
      assert SpaceFree(g[1..][0]);
    }
  }

  lemma UpperConcat(a: string, b: string)
    ensures Upper(a + b) == Upper(a) + Upper(b)
  {
    if a == [] {
      assert a + b == b;
    } else {
      assert (a + b)[0] == a[0];
      assert (a + b)[1..] == a[1..] + b;
      UpperConcat(a[1..], b);
    }
  }

  lemma UpperLength(a: string)
    ensures |Upper(a)| == |a|
  {
  }

  /** The loop state agrees with the groups: the finished names are all groups
      but the last, and the text being built is the last group. */
  predicate Tracks(st: Reading, g: seq<seq<string>>)
    requires g != []
  {
    var last := Join(g[|g| - 1], " ");
    st.teachers == Names(g[..|g| - 1]) && (st.current == last || st.current == " " + last)
  }

  /** The loop keeps the finished names equal to all groups but the last, and
      the text being built equal to the last group (after a leading space when
      the first word opened no name). */
  lemma {:induction false} FoldGroups(words: seq<string>, n: nat, opens: string -> bool)
    requires 1 <= n <= |words| && forall j | 0 <= j < |words| :: SpaceFree(words[j])
    ensures Tracks(TeacherFold(words, n, opens), NameGroups(words, n, opens))
  {
    assert SpaceFree(words[n - 1]);
    var w := words[n - 1];
    if n == 1 {
      assert TeacherFold(words, 0, opens) == Reading([], "");
      assert Flush("") == [];
      var st := TeacherFold(words, 1, opens);
      var g := NameGroups(words, 1, opens);
      assert g[..|g| - 1] == [];
      assert st.teachers == [];
      assert Join(g[|g| - 1], " ") == w;
      assert st.current == w || st.current == " " + w;
      assert Tracks(st, g);
    } else {
      FoldGroups(words, n - 1, opens);
      var st := TeacherFold(words, n - 1, opens);
      var g := NameGroups(words, n - 1, opens);
      assert Tracks(st, g);
      var lastGroup := g[|g| - 1];
      var last := Join(lastGroup, " ");
      forall j | 0 <= j < |lastGroup| ensures SpaceFree(lastGroup[j]) {
        GroupWords(words, n - 1, |g| - 1, j, opens);
      }
      JoinTidy(lastGroup);
      var st' := TeacherFold(words, n, opens);
      var g' := NameGroups(words, n, opens);
      if opens(w) {
        assert st' == Reading(st.teachers + Flush(st.current), w);
        assert g' == g + [[w]];
        OpenStep(st.teachers, st.current, g, w);
        assert g'[..|g'| - 1] == g;
        assert Tracks(st', g');
      } else {
        assert st' == Reading(st.teachers, st.current + " " + w);
        assert g' == g[..|g| - 1] + [lastGroup + [w]];
        assert g'[..|g'| - 1] == g[..|g| - 1];
        ExtendStep(st.current, lastGroup, w);
        assert Tracks(st', g');
      }
    }
  }

  /** A word that opens a name finishes the one being built. */
  lemma OpenStep(teachers: seq<string>, current: string, g: seq<seq<string>>, w: string)
    requires g != []
    requires var last := Join(g[|g| - 1], " ");
      Tidy(last) && teachers == Names(g[..|g| - 1]) && (current == last || current == " " + last)
    ensures teachers + Flush(current) == Names(g) && Join([w], " ") == w
  {
    var last := Join(g[|g| - 1], " ");
    assert Trim(current) == last by {
      if current != last {
        TrimAfterSpace(last);
      }
      TidyTrim(last);
    }
  }

  /** Any other word extends the name being built. */
  lemma ExtendStep(current: string, lastGroup: seq<string>, w: string)
    requires lastGroup != []
    requires current == Join(lastGroup, " ") || current == " " + Join(lastGroup, " ")
    ensures var last := Join(lastGroup + [w], " ");
      current + " " + w == last || current + " " + w == " " + last
  {
    JoinSnoc(lastGroup, w, " ");
  }

  /** Every word of every group is one of the words. */
  lemma {:induction false} GroupWords(words: seq<string>, n: nat, j: nat, i: nat, opens: string -> bool)
    requires 1 <= n <= |words|
    requires j < |NameGroups(words, n, opens)| && i < |NameGroups(words, n, opens)[j]|
    ensures NameGroups(words, n, opens)[j][i] in words
  {
    var g := NameGroups(words, n, opens);
    if n > 1 {
      var h := NameGroups(words, n - 1, opens);
      var w := words[n - 1];
      if opens(w) {
        assert g == h + [[w]];
        if j < |h| {
          assert g[j] == h[j];
          GroupWords(words, n - 1, j, i, opens);
        } else {
          assert g[j][i] == w;
        }
      } else {
        var last := h[|h| - 1];
        assert g == h[..|h| - 1] + [last + [w]];
        if j < |h| - 1 {
          assert g[j] == h[j];
          GroupWords(words, n - 1, j, i, opens);
        } else if i < |last| {
          assert g[j][i] == last[i];
          GroupWords(words, n - 1, |h| - 1, i, opens);
        } else {
          assert g[j][i] == w;
        }
      }
    }
  }

  /** A non-blank string has a word. */
  lemma WordsOfTrimmed(s: string)
    requires Trim(s) != ""
    ensures Words(Trim(s)) != []
  {
    TrimSpec(s);
  }

  /** parse_multiple_teachers names exactly the groups. */
  lemma MultipleTeachersGroups(s: string)
    requires Trim(s) != ""
    ensures var words := Words(Trim(s));
      words != [] && MultipleTeachers(s) == Names(NameGroups(words, |words|, OpensName))
  {
    var words := Words(Trim(s));
    WordsOfTrimmed(s);
    FoldGroups(words, |words|, OpensName);
    var g := NameGroups(words, |words|, OpensName);
    var st := TeacherFold(words, |words|, OpensName);
    var lastGroup := g[|g| - 1];
    var last := Join(lastGroup, " ");
    forall j | 0 <= j < |lastGroup| ensures SpaceFree(lastGroup[j]) {
      GroupWords(words, |words|, |g| - 1, j, OpensName);
    }
    JoinTidy(lastGroup);
    if st.current != last {
      TrimAfterSpace(last);
    }
    TidyTrim(last);
    assert Flush(st.current) == [Upper(last)];
    assert g == g[..|g| - 1] + [g[|g| - 1]];
  }

  lemma JoinExtendLast(init: seq<string>, x: string, y: string, sep: string)
    ensures Join(init + [x + y], sep) == Join(init + [x], sep) + y
  {
    JoinSnoc(init, x + y, sep);
    JoinSnoc(init, x, sep);
  }

  lemma UpperJoinSnoc(xs: seq<string>, w: string)
    requires xs != []
    ensures Upper(Join(xs + [w], " ")) == Upper(Join(xs, " ")) + " " + Upper(w)
  {
    JoinSnoc(xs, w, " ");
    assert Join(xs + [w], " ") == Join(xs, " ") + (" " + w);
    UpperConcat(Join(xs, " "), " " + w);
    UpperConcat(" ", w);
    assert Upper(" ") == " ";
    assert Upper(Join(xs, " ")) + (" " + Upper(w)) == Upper(Join(xs, " ")) + " " + Upper(w);
  }

  lemma NamesSnoc(gs: seq<seq<string>>, x: seq<string>)
    ensures Names(gs + [x]) == Names(gs) + [Upper(Join(x, " "))]
  {
    assert (gs + [x])[..|gs|] == gs;
  }

  /** The names joined by single spaces are the words joined by single spaces,
      upper-cased. */
  lemma {:induction false} JoinNames(words: seq<string>, n: nat, opens: string -> bool)
    requires 1 <= n <= |words|
    ensures Join(Names(NameGroups(words, n, opens)), " ") == Upper(Join(words[..n], " "))
  {
    var w := words[n - 1];
    var g' := NameGroups(words, n, opens);
    if n == 1 {
      assert words[..1] == [w];
      assert g' == [[w]];
      assert Names(g') == [Upper(w)];
    } else {
      JoinNames(words, n - 1, opens);
      var g := NameGroups(words, n - 1, opens);
      assert words[..n] == words[..n - 1] + [w];
      UpperJoinSnoc(words[..n - 1], w);
      GroupStepJoin(g, w, opens(w));
    }
  }

  /** One step of the grouping adds one word to the joined names. */
  lemma GroupStepJoin(g: seq<seq<string>>, w: string, opens: bool)
    requires g != [] && g[|g| - 1] != []
    ensures var g' := if opens then g + [[w]] else g[..|g| - 1] + [g[|g| - 1] + [w]];
      Join(Names(g'), " ") == Join(Names(g), " ") + " " + Upper(w)
  {
    if opens {
      NamesSnoc(g, [w]);
      assert Join([w], " ") == w;
      JoinSnoc(Names(g), Upper(w), " ");
    } else {
      GroupExtendJoin(g[..|g| - 1], g[|g| - 1], w);
      assert g[..|g| - 1] + [g[|g| - 1]] == g;
    }
  }

  lemma GroupExtendJoin(init: seq<seq<string>>, lastGroup: seq<string>, w: string)
    requires lastGroup != []
    ensures Join(Names(init + [lastGroup + [w]]), " ") == Join(Names(init + [lastGroup]), " ") + " " + Upper(w)
  {
    var x := Upper(Join(lastGroup, " "));
    NamesSnoc(init, lastGroup);
    NamesSnoc(init, lastGroup + [w]);
    UpperJoinSnoc(lastGroup, w);
    ConcatAssoc(x, " ", Upper(w));
    JoinExtendLast(Names(init), x, " " + Upper(w), " ");
    ConcatAssoc(Join(Names(init) + [x], " "), " ", Upper(w));
  }

  lemma ConcatAssoc(a: string, b: string, c: string)
    ensures a + b + c == a + (b + c)
  {
  }

  /** Every group after the first starts with a word that opens a name. */
  predicate OpenAfterFirst(g: seq<seq<string>>, opens: string -> bool) {
    forall j | 1 <= j < |g| :: g[j] != [] && opens(g[j][0])
  }

  lemma {:induction false} GroupsOpen(words: seq<string>, n: nat, opens: string -> bool)
    requires 1 <= n <= |words|
    ensures OpenAfterFirst(NameGroups(words, n, opens), opens)
  {
    if n > 1 {
      GroupsOpen(words, n - 1, opens);
      var g := NameGroups(words, n, opens);
      var h := NameGroups(words, n - 1, opens);
      var w := words[n - 1];
      if opens(w) {
        assert g == h + [[w]];
        assert forall j | 1 <= j < |h| :: g[j] == h[j];
      } else {
        var last := h[|h| - 1];
        assert g == h[..|h| - 1] + [last + [w]];
        assert forall j | 1 <= j < |h| - 1 :: g[j] == h[j];
        assert |g| > 1 ==> g[|g| - 1][0] == last[0];
      }
    }
  }

  /** When no word after the first opens a name, the whole text is one name. */
  lemma {:induction false} OneGroup(words: seq<string>, n: nat, opens: string -> bool)
    requires 1 <= n <= |words| && forall j | 1 <= j < n :: !opens(words[j])
    ensures NameGroups(words, n, opens) == [words[..n]]
  {
    if n == 1 {
      assert words[..1] == [words[0]];
    } else {
      OneGroup(words, n - 1, opens);
      assert !opens(words[n - 1]);
      assert words[..n] == words[..n - 1] + [words[n - 1]];
    }
  }

  lemma StartsWithTrans(a: string, b: string, c: string)
    requires StartsWith(a, b) && StartsWith(b, c)
    ensures StartsWith(a, c)
  {
    assert a[..|c|] == a[..|b|][..|c|];
  }

  lemma UpperStartsWith(a: string, b: string)
    requires StartsWith(a, b)
    ensures StartsWith(Upper(a), Upper(b))
  {
    assert a == b + a[|b|..];
    UpperConcat(b, a[|b|..]);
    UpperLength(b);
  }

  lemma {:induction false} JoinStartsWith(g: seq<string>, sep: string)
    requires g != []
    ensures StartsWith(Join(g, sep), g[0])
  {
  }

  /** Every name after the first starts with an upper-cased courtesy prefix. */
  predicate PrefixedAfterFirst(r: seq<string>) {
    forall k | 1 <= k < |r| :: exists p <- UpperPrefixes :: StartsWith(r[k], p)
  }

  lemma NamesPrefixed(g: seq<seq<string>>)
    requires OpenAfterFirst(g, OpensName)
    ensures PrefixedAfterFirst(Names(g))
  {
    var r := Names(g);
    forall k | 1 <= k < |r| ensures exists p <- UpperPrefixes :: StartsWith(r[k], p) {
      var u :| u in UpperPrefixes && StartsWith(Upper(g[k][0]), u);
      JoinStartsWith(g[k], " ");
      UpperStartsWith(Join(g[k], " "), g[k][0]);
      NamesAt(g, k);
      StartsWithTrans(r[k], Upper(g[k][0]), u);
    }
  }

  /** parse_multiple_teachers: a blank string names nobody; otherwise the names
      joined by single spaces are the input's words upper-cased and joined by
      single spaces, every name after the first starts with a courtesy prefix,
      and text without a prefix word after its first word is one name. */
  lemma MultipleTeachersSpec(s: string)
    ensures Trim(s) == "" <==> MultipleTeachers(s) == []
    ensures Join(MultipleTeachers(s), " ") == Upper(Join(Words(Trim(s)), " "))
    ensures PrefixedAfterFirst(MultipleTeachers(s))
    ensures var words := Words(Trim(s));
      (forall j | 1 <= j < |words| :: !OpensName(words[j])) ==>
        MultipleTeachers(s) == (if words == [] then [] else [Upper(Join(words, " "))])
  {
    var words := Words(Trim(s));
    if Trim(s) != "" {
      MultipleTeachersGroups(s);
      var g := NameGroups(words, |words|, OpensName);
      JoinNames(words, |words|, OpensName);
      assert words[..|words|] == words;
      GroupsOpen(words, |words|, OpensName);
      NamesPrefixed(g);
      if forall j | 1 <= j < |words| :: !OpensName(words[j]) {
        OneGroup(words, |words|, OpensName);
        assert Names(g) == [Upper(Join(g[0], " "))];
      }
    }
  }

  // ---------------------------------------------------------------------------
  // Groups

  /** The '&'-separated parts of a group list, each stripped. */
  function GroupParts(s: string): (r: seq<string>)
    ensures |r| == |Split(Trim(s), '&')|
  {
    var pieces := Split(Trim(s), '&');
    seq(|pieces|, k requires 0 <= k < |pieces| => Trim(pieces[k]))
  }

  /** The text before the first '-': "BSSE" for "BSSE-5A". */
  function Head(part: string): string {
    Split(part, '-')[0]
  }

  /** The loop state of parse_groups: the groups so far and the current prefix. */
  datatype Expansion = Expansion(groups: seq<string>, prefix: string)

  /** One part: a full name is kept and sets the prefix, a bare suffix is
      qualified with the prefix (or kept alone when there is none), a blank
      part is dropped. */
  function ExpandPart(st: Expansion, part: string): Expansion {
    if '-' in part then Expansion(st.groups + [part], Head(part))
    else if st.prefix != "" && part != "" then Expansion(st.groups + [st.prefix + "-" + part], st.prefix)
    else if part != "" then Expansion(st.groups + [part], st.prefix)
    else st
  }

  function ExpandFold(parts: seq<string>, n: nat): Expansion
    requires n <= |parts|
  {
    if n == 0 then Expansion([], "") else ExpandPart(ExpandFold(parts, n - 1), parts[n - 1])
  }

  function Itself(g: string): string { g }

  /** parse_groups */
  function Groups(s: string): seq<string> {
    if Trim(s) == "" then []
    else
      var parts := GroupParts(s);
      FirstByKey(ExpandFold(parts, |parts|).groups, Itself)
  }

  method ParseGroups(s: string) returns (unique: seq<string>)
    ensures unique == Groups(s)
  {
    if Trim(s) == "" {
      return [];
    }
    var parts := GroupParts(s);
    var groups := ExpandParts(parts);
    ExpandedNonEmpty(parts, |parts|);
    unique := FirstGroups(groups);
  }

  /** The loop that expands the parts, carrying the last prefix. */
  method ExpandParts(parts: seq<string>) returns (groups: seq<string>)
    ensures groups == ExpandFold(parts, |parts|).groups
  {
    groups := [];
    var prefix := "";
    for k := 0 to |parts|
      invariant Expansion(groups, prefix) == ExpandFold(parts, k)
    {
      var part := parts[k];
      if '-' in part {
        groups := groups + [part];
        prefix := Head(part);
      } else if prefix != "" && part != "" {
        groups := groups + [prefix + "-" + part];
      } else if part != "" {
        groups := groups + [part];
      }
    }
  }

  /** The loop that keeps the first occurrence of every non-empty group. */
  method FirstGroups(groups: seq<string>) returns (unique: seq<string>)
    requires forall k | 0 <= k < |groups| :: groups[k] != ""
    ensures unique == FirstByKey(groups, Itself)
  {
    var seen: set<string> := {};
    unique := [];
    for k := 0 to |groups|
      invariant unique == FirstByKey(groups[..k], Itself)
      invariant seen == KeysOf(groups[..k], Itself)
    {
      var group := groups[k];
      KeysOfSnoc(groups[..k], group);
      assert groups[..k + 1] == groups[..k] + [group];
      if group != "" && group !in seen {
        seen := seen + {group};
        unique := unique + [group];
      }
    }
    assert groups[..|groups|] == groups;
  }

  lemma KeysOfSnoc(gs: seq<string>, g: string)
    ensures KeysOf(gs + [g], Itself) == KeysOf(gs, Itself) + {g}
  {
    var t := gs + [g];
    forall x | x in KeysOf(t, Itself) ensures x in KeysOf(gs, Itself) + {g} {
      var i :| 0 <= i < |t| && Itself(t[i]) == x;
      if i < |gs| {
        assert t[i] == gs[i];
      }
    }
    forall x | x in KeysOf(gs, Itself) ensures x in KeysOf(t, Itself) {
      var i :| 0 <= i < |gs| && Itself(gs[i]) == x;
      assert t[i] == gs[i];
    }
    assert t[|gs|] == g;
  }

  /** No expanded group is empty. */
  lemma {:induction false} ExpandedNonEmpty(parts: seq<string>, n: nat)
    requires n <= |parts|
    ensures forall k | 0 <= k < |ExpandFold(parts, n).groups| :: ExpandFold(parts, n).groups[k] != ""
  {
    if n > 0 {
      ExpandedNonEmpty(parts, n - 1);
    }
  }

  /** The prefix in force before part n: the head of the nearest full name
      before it, or none. */
  function LastPrefix(parts: seq<string>, n: nat): string
    requires n <= |parts|
  {
    if n == 0 then ""
    else if '-' in parts[n - 1] then Head(parts[n - 1])
    else LastPrefix(parts, n - 1)
  }

  /** What part k adds to the list, judged on its own and the nearest full
      name before it. */
  function Contribution(parts: seq<string>, k: nat): seq<string>
    requires k < |parts|
  {
    var part := parts[k];
    var prefix := LastPrefix(parts, k);
    if '-' in part then [part]
    else if part == "" then []
    else if prefix != "" then [prefix + "-" + part]
    else [part]
  }

  /** The groups the first n parts name, with repetitions. */
  predicate Named(parts: seq<string>, n: nat, g: string)
    requires n <= |parts|
  {
    exists k | 0 <= k < n :: g in Contribution(parts, k)
  }

  /** The loop adds each part's contribution, and its prefix is the head of
      the nearest full name. */
  lemma {:induction false} ExpandFoldNamed(parts: seq<string>, n: nat)
    requires n <= |parts|
    ensures ExpandFold(parts, n).prefix == LastPrefix(parts, n)
    ensures forall g :: g in ExpandFold(parts, n).groups <==> Named(parts, n, g)
  {
    if n > 0 {
      ExpandFoldNamed(parts, n - 1);
      var st := ExpandFold(parts, n - 1);
      var st' := ExpandFold(parts, n);
      assert st'.groups == st.groups + Contribution(parts, n - 1);
      forall g ensures g in st'.groups <==> Named(parts, n, g) {
        if g in st'.groups && g !in st.groups {
          assert g in Contribution(parts, n - 1);
        }
        if Named(parts, n, g) {
          var k :| 0 <= k < n && g in Contribution(parts, k);
          if k < n - 1 {
            assert Named(parts, n - 1, g);
          }
        }
      }
    }
  }

  /** parse_groups: a blank list names no group; otherwise each group appears
      once, no group is empty, the groups are exactly those the parts name
      (a bare suffix qualified with the head of the nearest full name before
      it), every full name given is kept, and the groups come in the order of
      their first naming. */
  lemma GroupsSpec(s: string)
    ensures Trim(s) == "" ==> Groups(s) == []
    ensures var r := Groups(s);
      forall i, j | 0 <= i < j < |r| :: r[i] != r[j]
    ensures forall g | g in Groups(s) :: g != ""
    ensures Trim(s) != "" ==> var parts := GroupParts(s);
      forall g :: g in Groups(s) <==> Named(parts, |parts|, g)
    ensures Trim(s) != "" ==> var parts := GroupParts(s);
      forall k | 0 <= k < |parts| && '-' in parts[k] :: parts[k] in Groups(s)
    ensures Trim(s) != "" ==> var parts := GroupParts(s);
      exists idx :: PicksFirsts(ExpandFold(parts, |parts|).groups, Groups(s), idx, Itself)
  {
    if Trim(s) != "" {
      var parts := GroupParts(s);
      var gs := ExpandFold(parts, |parts|).groups;
      var r := Groups(s);
      FirstByKeyCorrect(gs, Itself);
      ExpandFoldNamed(parts, |parts|);
      ExpandedNonEmpty(parts, |parts|);
      forall g ensures g in r <==> g in gs {
        if g in r {
          var i :| 0 <= i < |r| && r[i] == g;
          assert Itself(r[i]) in KeysOf(r, Itself);
        }
        if g in gs {
          var i :| 0 <= i < |gs| && gs[i] == g;
          assert Itself(gs[i]) in KeysOf(gs, Itself);
        }
      }
      forall k | 0 <= k < |parts| && '-' in parts[k] ensures parts[k] in r {
        assert parts[k] in Contribution(parts, k);
      }
      forall i, j | 0 <= i < j < |r| ensures r[i] != r[j] {
        assert Itself(r[i]) != Itself(r[j]);
      }
    }
  }

  // ---------------------------------------------------------------------------
  // Clock times

  /** str.zfill(2): pads to two characters with '0', after a leading sign. */
  function ZFill2(x: string): (r: string)
    ensures |r| >= 2 && (|x| >= 2 ==> r == x)
  {
    if |x| >= 2 then x
    else if x == "" then "00"
    else if x[0] == '+' || x[0] == '-' then x + "0"
    else "0" + x
  }

  lemma {:induction false} SplitTwo(s: string, d: char)
    requires d in s
    ensures |Split(s, d)| >= 2
  {
    if s[0] != d {
      SplitTwo(s[1..], d);
    }
  }

  /** normalize_time: stripped, and when it holds a colon, the hour padded to
      two digits and the minute taken up to the next colon. */
  function NormalizeTime(t: string): string {
    var s := Trim(t);
    if ':' in s then
      var parts := Split(s, ':');
      SplitTwo(s, ':');
      ZFill2(parts[0]) + ":" + parts[1]
    else s
  }

  /** time_to_minutes, None standing for the ValueError of a failed unpacking
      or int() conversion.  Hours 1 to 7 are afternoon hours. */
  function TimeToMinutes(t: string): Option<int> {
    var n := NormalizeTime(t);
    if ':' in n then
      var p := Split(n, ':');
      if |p| != 2 then None
      else
        match (ParseInt(p[0]), ParseInt(p[1]))
        case (Some(h), Some(m)) => Some(ClockMinutes(h, m))
        case _ => None
    else Some(0)
  }

  /** Minutes since midnight, an hour from 1 to 7 read as an afternoon hour. */
  function ClockMinutes(h: int, m: int): int {
    (if 1 <= h <= 7 then h + 12 else h) * 60 + m
  }

  /** A normalised time with a colon has exactly two colon-separated pieces:
      the padded hour and the minute. */
  lemma NormalizeTimePieces(t: string)
    requires ':' in Trim(t)
    ensures var parts := Split(Trim(t), ':');
      |parts| >= 2 && Split(NormalizeTime(t), ':') == [ZFill2(parts[0]), parts[1]]
  {
    var parts := Split(Trim(t), ':');
    SplitTwo(Trim(t), ':');
    var h := ZFill2(parts[0]);
    assert ':' !in h;
    SplitAt(h, ':', parts[1]);
    SplitNone(parts[1], ':');
    assert h + ":" + parts[1] == h + [':'] + parts[1];
  }

  /** time_to_minutes: no colon gives 0; "H:MM" with digit strings gives the
      minutes since midnight, reading hours 1 to 7 as afternoon hours; text
      after a second colon is ignored. */
  lemma TimeToMinutesSpec(t: string)
    ensures ':' !in Trim(t) ==> TimeToMinutes(t) == Some(0)
    ensures ':' in Trim(t) ==> var parts := Split(Trim(t), ':');
      |parts| >= 2 &&
      (AllDigits(parts[0]) && parts[0] != "" && AllDigits(parts[1]) && parts[1] != "" ==>
        TimeToMinutes(t) == Some(ClockMinutes(DigitsValue(parts[0]), DigitsValue(parts[1]))))
  {
    if ':' in Trim(t) {
      var parts := Split(Trim(t), ':');
      NormalizeTimePieces(t);
      var h := ZFill2(parts[0]);
      assert ':' in NormalizeTime(t) by {
        assert NormalizeTime(t)[|h|] == ':';
      }
      if AllDigits(parts[0]) && parts[0] != "" && AllDigits(parts[1]) && parts[1] != "" {
        ZFill2Digits(parts[0]);
        var p := Split(NormalizeTime(t), ':');
        assert p == [h, parts[1]];
        assert ParseInt(p[0]) == Some(DigitsValue(parts[0]) as int);
        assert ParseInt(p[1]) == Some(DigitsValue(parts[1]) as int);
      }
    } else {
      assert NormalizeTime(t) == Trim(t);
    }
  }

  lemma ZFill2Digits(x: string)
    requires AllDigits(x) && x != ""
    ensures AllDigits(ZFill2(x)) && ZFill2(x) != "" && DigitsValue(ZFill2(x)) == DigitsValue(x)
  {
    if |x| == 1 {
      var r := "0" + x;
      assert r[..|r| - 1] == "0";
    }
  }

  /** A minute that is not a number makes int() fail. */
  lemma TimeToMinutesNotANumber()
    ensures TimeToMinutes("9:xx") == None
  {
    TidyTrim("9:xx");
    SplitAt("9", ':', "xx");
    SplitNone("xx", ':');
    assert "9:xx" == "9" + [':'] + "xx";
    NormalizeTimePieces("9:xx");
    assert NormalizeTime("9:xx") == "09" + ":" + "xx";
    TidyTrim("xx");
    assert ParseInt("xx") == None;
  }

  // ---------------------------------------------------------------------------
  // Semester

  const Seasons: seq<string> := ["Fall", "Spring", "Summer"]

  /** The match of (Fall|Spring|Summer)-(\d{2}) starting at position i, trying
      the seasons in order. */
  function SemesterAt(f: string, i: nat): Option<string> {
    SeasonAt(f, i, 0)
  }

  function SeasonAt(f: string, i: nat, k: nat): (r: Option<string>)
    requires k <= |Seasons|
    ensures r.Some? ==> exists j | k <= j < |Seasons| :: SeasonMatch(f, i, Seasons[j]) && r.value == SeasonText(f, i, Seasons[j])
    decreases |Seasons| - k
  {
    if k == |Seasons| then None
    else if SeasonMatch(f, i, Seasons[k]) then Some(SeasonText(f, i, Seasons[k]))
    else SeasonAt(f, i, k + 1)
  }

  /** `season` then '-' then two digits at position i of f. */
  predicate SeasonMatch(f: string, i: nat, season: string) {
    var j := i + |season|;
    j + 3 <= |f| && f[i..j] == season && f[j] == '-' && IsDigit(f[j + 1]) && IsDigit(f[j + 2])
  }

  function SeasonText(f: string, i: nat, season: string): string
    requires SeasonMatch(f, i, season)
  {
    var j := i + |season|;
    season + "-" + f[j + 1..j + 3]
  }

  /** The first position j from i to n at which `at` finds something. */
  function FirstFrom(at: nat -> Option<string>, n: nat, i: nat): Option<string>
    decreases n - i
  {
    if i > n then None
    else if at(i).Some? then at(i)
    else FirstFrom(at, n, i + 1)
  }

  lemma {:induction false} FirstFromSpec(at: nat -> Option<string>, n: nat, i: nat)
    ensures FirstFrom(at, n, i).None? <==> forall j | i <= j <= n :: at(j).None?
    ensures forall j | i <= j <= n && at(j).Some? && (forall l | i <= l < j :: at(l).None?) ::
      FirstFrom(at, n, i) == at(j)
    decreases n - i
  {
    if i <= n && at(i).None? {
      FirstFromSpec(at, n, i + 1);
      forall j | i <= j <= n && at(j).Some? && (forall l | i <= l < j :: at(l).None?)
        ensures FirstFrom(at, n, i) == at(j)
      {
        assert forall l | i + 1 <= l < j :: at(l).None?;
      }
    }
  }

  /** extract_semester_info: re.search finds the leftmost position where the
      pattern matches. */
  function ExtractSemesterInfo(f: string): string {
    match FirstFrom((j: nat) => SemesterAt(f, j), |f|, 0)
    case Some(x) => x
    case None => "Current Semester"
  }

  /** extract_semester_info: when the name holds no "Season-dd" the answer is
      "Current Semester"; otherwise it is the text matched at the leftmost
      position that matches. */
  lemma ExtractSemesterInfoSpec(f: string)
    ensures (forall i | 0 <= i <= |f| :: SemesterAt(f, i).None?) ==> ExtractSemesterInfo(f) == "Current Semester"
    ensures forall i | 0 <= i <= |f| && SemesterAt(f, i).Some? && (forall l | 0 <= l < i :: SemesterAt(f, l).None?) ::
      ExtractSemesterInfo(f) == SemesterAt(f, i).value && ExtractSemesterInfo(f) != "Current Semester"
  {
    var at := (j: nat) => SemesterAt(f, j);
    FirstFromSpec(at, |f|, 0);
    forall i | 0 <= i <= |f| && SemesterAt(f, i).Some? && (forall l | 0 <= l < i :: SemesterAt(f, l).None?)
      ensures ExtractSemesterInfo(f) == SemesterAt(f, i).value && ExtractSemesterInfo(f) != "Current Semester"
    {
      assert forall l | 0 <= l < i :: at(l).None?;
      assert FirstFrom(at, |f|, 0) == at(i);
      SemesterAtShape(f, i);
    }
    if forall i | 0 <= i <= |f| :: SemesterAt(f, i).None? {
      assert forall i | 0 <= i <= |f| :: at(i).None?;
    }
  }

  /** A match is a season, '-', and two digits, so it is never the fallback. */
  lemma SemesterAtShape(f: string, i: nat)
    requires SemesterAt(f, i).Some?
    ensures SemesterAt(f, i).value != "Current Semester"
  {
    var j :| 0 <= j < |Seasons| && SeasonMatch(f, i, Seasons[j]) && SemesterAt(f, i).value == SeasonText(f, i, Seasons[j]);
    var t := SemesterAt(f, i).value;
    assert t[|Seasons[j]|] == '-';
  }

  /** A position matches exactly when one of the seasons, '-' and two digits
      stand there. */
  lemma SemesterAtSpec(f: string, i: nat)
    ensures SemesterAt(f, i).Some? <==> exists season <- Seasons :: SeasonMatch(f, i, season)
    ensures SemesterAt(f, i).Some? ==> exists season <- Seasons ::
      SeasonMatch(f, i, season) && SemesterAt(f, i).value == SeasonText(f, i, season)
  {
    if SemesterAt(f, i).Some? {
      var j :| 0 <= j < |Seasons| && SeasonMatch(f, i, Seasons[j]) && SemesterAt(f, i).value == SeasonText(f, i, Seasons[j]);
      assert Seasons[j] in Seasons;
    } else {
      forall season | season in Seasons ensures !SeasonMatch(f, i, season) {
        SeasonAtNone(f, i, 0);
      }
    }
  }

  lemma {:induction false} SeasonAtNone(f: string, i: nat, k: nat)
    requires k <= |Seasons| && SeasonAt(f, i, k).None?
    ensures forall j | k <= j < |Seasons| :: !SeasonMatch(f, i, Seasons[j])
    decreases |Seasons| - k
  {
    if k < |Seasons| {
      SeasonAtNone(f, i, k + 1);
    }
  }

  // ---------------------------------------------------------------------------
  // The index's entries and their orders

  /** An entry of a teacher's timetable. */
  datatype Entry = Entry(day: string, start: string, end: string, location: string,
                         subject: string, groups: seq<string>, teachers: string)

  const DayOrder: seq<string> := ["Monday", "Tuesday", "Wednesday", "Thursday", "Friday", "Saturday", "Sunday"]

  /** day_order.index(day), or 999 for a day not in the week. */
  function DayIndex(day: string): (r: nat)
    ensures r < |DayOrder| ==> DayOrder[r] == day && day !in DayOrder[..r]
    ensures r == 999 <==> day !in DayOrder
    ensures r < |DayOrder| || r == 999
  {
    var k := IndexFrom(DayOrder, day, 0);
    assert DayOrder[0..] == DayOrder && DayOrder[0..k] == DayOrder[..k];
    if k == |DayOrder| then 999 else k
  }

  /** The first index at or after i holding x, or |xs| when there is none. */
  function IndexFrom(xs: seq<string>, x: string, i: nat): (r: nat)
    requires i <= |xs|
    ensures i <= r <= |xs|
    ensures r < |xs| ==> xs[r] == x
    ensures x !in xs[i..r]
    ensures r == |xs| <==> x !in xs[i..]
    decreases |xs| - i
  {
    if i == |xs| then i
    else if xs[i] == x then i
    else
      assert xs[i..] == [xs[i]] + xs[i + 1..];
      var r := IndexFrom(xs, x, i + 1);
      assert xs[i..r] == [xs[i]] + xs[i + 1..r];
      r
  }

  /** The start time with its colons removed, stripped, read as a number when
      it is all digits, else 0. */
  function TimeNumber(start: string): nat {
    var t := Trim(RemoveColons(start));
    if t != "" && AllDigits(t) then DigitsValue(t) else 0
  }

  function RemoveColons(s: string): (r: string)
    ensures ':' !in r
  {
    if s == [] then []
    else (if s[0] == ':' then [] else [s[0]]) + RemoveColons(s[1..])
  }

  /** The key of sort_entries_by_day_and_time. */
  function DayTimeKey(e: Entry): Key {
    [Num(DayIndex(e.day)), Num(TimeNumber(e.start))]
  }

  /** sort_entries_by_day_and_time */
  function SortEntries(es: seq<Entry>): seq<Entry> {
    SortBy(es, DayTimeKey)
  }

  /** sort_entries_by_day_and_time returns the same entries, by day of the
      week (unknown days last) and then by the start time read as a number. */
  lemma SortEntriesSpec(es: seq<Entry>)
    ensures multiset(SortEntries(es)) == multiset(es)
    ensures var r := SortEntries(es);
      forall i, j | 0 <= i < j < |r| :: DayIndex(r[i].day) < DayIndex(r[j].day) ||
        (DayIndex(r[i].day) == DayIndex(r[j].day) && TimeNumber(r[i].start) <= TimeNumber(r[j].start))
  {
    SortByCorrect(es, DayTimeKey);
    var r := SortEntries(es);
    forall i, j | 0 <= i < j < |r| ensures DayIndex(r[i].day) < DayIndex(r[j].day) ||
      (DayIndex(r[i].day) == DayIndex(r[j].day) && TimeNumber(r[i].start) <= TimeNumber(r[j].start))
    {
      PairKeyLe(DayIndex(r[i].day), TimeNumber(r[i].start), DayIndex(r[j].day), TimeNumber(r[j].start));
    }
  }

  lemma PairKeyLe(a: int, b: int, c: int, d: int)
    requires KeyLe([Num(a), Num(b)], [Num(c), Num(d)])
    ensures a < c || (a == c && b <= d)
  {
  }

  /** The hour is read with the minutes as one number, so an afternoon "1:30"
      (130) sorts before a morning "08:30" (830). */
  lemma TimeNumberClock(h: string, m: string)
    requires h != "" && AllDigits(h) && |m| == 2 && AllDigits(m)
    ensures TimeNumber(h + ":" + m) == DigitsValue(h) * 100 + DigitsValue(m)
  {
    RemoveColonsClock(h, m);
    DigitsTwo(h, m);
    assert AllDigits(h + m);
    TidyTrim(h + m);
  }

  lemma RemoveColonsClock(h: string, m: string)
    requires AllDigits(h) && AllDigits(m)
    ensures RemoveColons(h + ":" + m) == h + m
  {
    ConcatAssoc(h, ":", m);
    RemoveColonsConcat(h, ":" + m);
    RemoveColonsConcat(":", m);
    assert RemoveColons(":") == [];
    assert [] + m == m;
    RemoveColonsDigits(h);
    RemoveColonsDigits(m);
  }

  lemma DigitsTwo(h: string, m: string)
    requires AllDigits(h) && |m| == 2 && AllDigits(m)
    ensures DigitsValue(h + m) == DigitsValue(h) * 100 + DigitsValue(m)
  {
    var t1 := h + [m[0]];
    assert h + m == t1 + [m[1]];
    assert m == [m[0]] + [m[1]];
    DigitsSnoc(t1, m[1]);
    DigitsSnoc(h, m[0]);
    DigitsSnoc([m[0]], m[1]);
    DigitsSnoc([], m[0]);
    assert [] + [m[0]] == [m[0]];
  }

  lemma DigitsSnoc(x: string, c: char)
    requires AllDigits(x) && IsDigit(c)
    ensures AllDigits(x + [c]) && DigitsValue(x + [c]) == DigitsValue(x) * 10 + DigitValue(c)
  {
    assert (x + [c])[..|x|] == x;
  }

  lemma {:induction false} RemoveColonsConcat(a: string, b: string)
    ensures RemoveColons(a + b) == RemoveColons(a) + RemoveColons(b)
  {
    if a != [] {
      assert (a + b)[0] == a[0] && (a + b)[1..] == a[1..] + b;
      RemoveColonsConcat(a[1..], b);
    } else {
      assert a + b == b;
    }
  }

  lemma {:induction false} RemoveColonsDigits(a: string)
    requires AllDigits(a)
    ensures RemoveColons(a) == a
  {
    if a != [] {
      RemoveColonsDigits(a[1..]);
    }
  }

  /** The rank of a teacher: the position of the first prefix the name starts
      with, upper-cased, or 9 without one. */
  function TeacherRank(t: string): (r: nat)
    ensures r <= |UpperPrefixes|
    ensures r < |UpperPrefixes| ==> StartsWith(t, UpperPrefixes[r])
    ensures forall i | 0 <= i < r && i < |UpperPrefixes| :: !StartsWith(t, UpperPrefixes[i])
  {
    RankFrom(t, 0)
  }

  function RankFrom(t: string, i: nat): (r: nat)
    requires i <= |UpperPrefixes|
    ensures i <= r <= |UpperPrefixes|
    ensures r < |UpperPrefixes| ==> StartsWith(t, UpperPrefixes[r])
    ensures forall k | i <= k < r :: !StartsWith(t, UpperPrefixes[k])
    decreases |UpperPrefixes| - i
  {
    if i == |UpperPrefixes| then i
    else if StartsWith(t, UpperPrefixes[i]) then i
    else RankFrom(t, i + 1)
  }

  function TeacherKey(t: string): Key {
    [Num(TeacherRank(t)), Text(t)]
  }

  /** sort_teachers_by_prefix_and_name on the names in the order a set
      yields them. */
  function SortTeachers(names: seq<string>): seq<string> {
    SortBy(names, TeacherKey)
  }

  /** sort_teachers_by_prefix_and_name lists the same names by rank and then
      by name, and the order the set yields them in does not matter. */
  lemma SortTeachersSpec(a: seq<string>, b: seq<string>)
    requires forall i, j | 0 <= i < j < |a| :: a[i] != a[j]
    requires multiset(a) == multiset(b)
    ensures multiset(SortTeachers(a)) == multiset(a)
    ensures var r := SortTeachers(a);
      forall i, j | 0 <= i < j < |r| :: TeacherRank(r[i]) < TeacherRank(r[j]) ||
        (TeacherRank(r[i]) == TeacherRank(r[j]) && StrLe(r[i], r[j]))
    ensures SortTeachers(a) == SortTeachers(b)
  {
    SortByCorrect(a, TeacherKey);
    SortByCorrect(b, TeacherKey);
    var r := SortTeachers(a);
    DistinctAfterPermutation(a, r);
    forall i, j | 0 <= i < j < |r| ensures TeacherKey(r[i]) != TeacherKey(r[j]) {
      assert TeacherKey(r[i])[1] != TeacherKey(r[j])[1];
    }
    forall i, j | 0 <= i < j < |r| ensures TeacherRank(r[i]) < TeacherRank(r[j]) ||
      (TeacherRank(r[i]) == TeacherRank(r[j]) && StrLe(r[i], r[j]))
    {
      assert KeyLe(TeacherKey(r[i]), TeacherKey(r[j]));
      RankKeyLe(TeacherRank(r[i]), r[i], TeacherRank(r[j]), r[j]);
    }
    SortedUnique(r, SortTeachers(b), TeacherKey);
  }

  lemma RankKeyLe(a: int, x: string, c: int, y: string)
    requires KeyLe([Num(a), Text(x)], [Num(c), Text(y)])
    ensures a < c || (a == c && StrLe(x, y))
  {
    assert [Num(a), Text(x)][1..] == [Text(x)] && [Num(c), Text(y)][1..] == [Text(y)];
    StrLeTotal(x, x);
  }

  lemma DistinctAfterPermutation(a: seq<string>, r: seq<string>)
    requires forall i, j | 0 <= i < j < |a| :: a[i] != a[j]
    requires multiset(a) == multiset(r)
    ensures forall i, j | 0 <= i < j < |r| :: r[i] != r[j]
  {
    forall i, j | 0 <= i < j < |r| ensures r[i] != r[j] {
      if r[i] == r[j] {
        DistinctCount(a, r[i]);
        TwoCopies(r, i, j);
        assert false;
      }
    }
  }

  lemma {:induction false} DistinctCount(a: seq<string>, x: string)
    requires forall i, j | 0 <= i < j < |a| :: a[i] != a[j]
    ensures multiset(a)[x] <= 1
  {
    if a != [] {
      DistinctCount(a[1..], x);
      assert a == [a[0]] + a[1..];
      if a[0] == x {
        assert x !in a[1..];
      }
    }
  }
}

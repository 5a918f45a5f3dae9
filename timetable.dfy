/** process_file and the routes that read what it builds: every kept CSV row
    becomes a class slot, the slots are merged, each merged slot is filed under
    every one of its teachers (skipping a second entry for the same day, times,
    room and subject) and each teacher's list is sorted by day and time. */
module Timetable {
  import opened Strings
  import opened Ordering
  import opened Normalize
  import opened Records
  import opened Merge

  // ---------------------------------------------------------------------------
  // Rows to slots

  /** time.split(d, 1)[0] */
  function Before(s: string, d: char): (r: string)
    ensures d !in r
  {
    if s == [] then [] else if s[0] == d then [] else [s[0]] + Before(s[1..], d)
  }

  /** time.split(d, 1)[1], when d occurs in s */
  function After(s: string, d: char): string
    requires d in s
  {
    if s[0] == d then s[1..] else After(s[1..], d)
  }

  /** The two pieces of split(d, 1) and the separator give back the string. */
  lemma {:induction false} SplitOnce(s: string, d: char)
    requires d in s
    ensures s == Before(s, d) + [d] + After(s, d)
  {
    if s[0] != d {
      SplitOnce(s[1..], d);
      assert s == [s[0]] + s[1..];
    }
  }

  /** One CSV row of process_file: every column stripped; a row without a
      subject, with the placeholder subject F25 or without teachers is
      skipped; the time is cut at its first '-' into start and end. */
  function SlotOf(row: Row): Option<Slot> {
    var day := Trim(row.day);
    var time := Trim(row.time);
    var room := Trim(row.room);
    var subject := Trim(row.subject);
    var group := Trim(row.group);
    var names := Trim(row.teachers);
    if subject == "" || subject == "F25" || names == "" then None
    else
      var teachers := MultipleTeachers(names);
      if teachers == [] then None
      else
        var start := if '-' in time then Trim(Before(time, '-')) else Trim(time);
        var end := if '-' in time then Trim(After(time, '-')) else Trim(time);
        Some(Slot(day, start, end, room, subject, Groups(group), teachers))
  }

  /** A row is kept exactly when its subject is present and not F25 and its
      teachers column is not blank; the kept slot has at least one teacher,
      and its start and end are the two sides of the first '-' of the time
      (both the whole time when it has none). */
  lemma SlotOfSpec(row: Row)
    ensures SlotOf(row).Some? <==>
      Trim(row.subject) != "" && Trim(row.subject) != "F25" && Trim(row.teachers) != ""
    ensures SlotOf(row).Some? ==>
      var m := SlotOf(row).value;
      var time := Trim(row.time);
      m.teachers == MultipleTeachers(Trim(row.teachers)) && m.teachers != [] &&
      m.groups == Groups(Trim(row.group)) &&
      (if '-' in time then time == Before(time, '-') + "-" + After(time, '-') &&
          m.start == Trim(Before(time, '-')) && m.end == Trim(After(time, '-'))
       else m.start == m.end == Trim(time))
  {
    var names := Trim(row.teachers);
    MultipleTeachersSpec(names);
    TrimSpec(row.teachers);
    var time := Trim(row.time);
    if '-' in time {
      SplitOnce(time, '-');
    }
  }

  /** The slots of the kept rows, in row order. */
  function KeptSlots(rows: seq<Row>): (r: seq<Slot>)
    ensures |r| <= |rows|
  {
    if rows == [] then []
    else
      KeptSlots(rows[..|rows| - 1]) +
        match SlotOf(rows[|rows| - 1]) case Some(m) => [m] case None => []
  }

  /** teacher_names: the teachers of the kept rows. */
  function NamesOf(rows: seq<Row>): set<string> {
    if rows == [] then {}
    else
      NamesOf(rows[..|rows| - 1]) +
        match SlotOf(rows[|rows| - 1]) case Some(m) => set t | t in m.teachers case None => {}
  }

  /** The teacher names are exactly the teachers of the kept slots. */
  lemma {:induction false} NamesOfSpec(rows: seq<Row>)
    ensures forall t :: t in NamesOf(rows) <==> exists m <- KeptSlots(rows) :: t in m.teachers
  {
    if rows != [] {
      var init := rows[..|rows| - 1];
      NamesOfSpec(init);
      var kept := KeptSlots(init);
      match SlotOf(rows[|rows| - 1])
      case None =>
      case Some(m) =>
        assert KeptSlots(rows) == kept + [m];
        forall t ensures t in NamesOf(rows) <==> exists m' <- KeptSlots(rows) :: t in m'.teachers {
          if exists m' <- KeptSlots(rows) :: t in m'.teachers {
            var m' :| m' in KeptSlots(rows) && t in m'.teachers;
            if m' != m { assert m' in kept; }
          }
        }
    }
  }

  // ---------------------------------------------------------------------------
  // Filing the merged slots under their teachers

  /** The (day, start, end, location, subject) a duplicate check compares. */
  function SlotKey(e: Entry): (string, string, string, string, string) {
    (e.day, e.start, e.end, e.location, e.subject)
  }

  /** final_entry: the merged slot with its teachers joined by ", ". */
  function EntryOf(m: Slot): Entry {
    Entry(m.day, m.start, m.end, m.location, m.subject, m.groups, Join(m.teachers, ", "))
  }

  /** An entry to be filed under a teacher. */
  datatype Posting = Posting(teacher: string, entry: Entry)

  function PostingsOf(m: Slot): (r: seq<Posting>)
    ensures |r| == |m.teachers|
    ensures forall k | 0 <= k < |r| :: r[k] == Posting(m.teachers[k], EntryOf(m))
  {
    seq(|m.teachers|, k requires 0 <= k < |m.teachers| => Posting(m.teachers[k], EntryOf(m)))
  }

  /** The postings of the merged slots: slot by slot, teacher by teacher. */
  function Postings(ms: seq<Slot>): seq<Posting> {
    if ms == [] then [] else Postings(ms[..|ms| - 1]) + PostingsOf(ms[|ms| - 1])
  }

  /** timetable_data: the teachers in insertion order and their lists. */
  datatype Index = Index(order: seq<string>, lists: map<string, seq<Entry>>)

  predicate HasSlot(es: seq<Entry>, e: Entry) {
    exists k | 0 <= k < |es| :: SlotKey(es[k]) == SlotKey(e)
  }

  /** One posting: a new teacher gets a list of one entry; a known teacher
      gets the entry appended unless an entry with the same slot key is
      already there. */
  function File(ix: Index, p: Posting): Index {
    if p.teacher in ix.lists then
      if HasSlot(ix.lists[p.teacher], p.entry) then ix
      else Index(ix.order, ix.lists[p.teacher := ix.lists[p.teacher] + [p.entry]])
    else Index(ix.order + [p.teacher], ix.lists[p.teacher := [p.entry]])
  }

  function FileAll(ps: seq<Posting>): Index {
    if ps == [] then Index([], map[]) else File(FileAll(ps[..|ps| - 1]), ps[|ps| - 1])
  }

  // The reference the filing is measured against.

  function Teachers(ps: seq<Posting>): (r: seq<string>)
    ensures |r| == |ps| && forall j | 0 <= j < |ps| :: r[j] == ps[j].teacher
  {
    seq(|ps|, j requires 0 <= j < |ps| => ps[j].teacher)
  }

  /** The entries posted to t, in posting order. */
  function EntriesFor(ps: seq<Posting>, t: string): seq<Entry> {
    if ps == [] then []
    else EntriesFor(ps[..|ps| - 1], t) + (if ps[|ps| - 1].teacher == t then [ps[|ps| - 1].entry] else [])
  }

  /** What the filing builds: the teachers in order of first posting, and for
      each teacher the first posted entry of every slot key. */
  predicate Describes(ix: Index, ps: seq<Posting>) {
    && ix.lists.Keys == KeysOf(Teachers(ps), Itself)
    && ix.order == FirstByKey(Teachers(ps), Itself)
    && forall t | t in ix.lists :: ix.lists[t] == FirstByKey(EntriesFor(ps, t), SlotKey)
  }

  lemma KeysOfAppend<T, K>(s: seq<T>, x: T, key: T -> K)
    ensures KeysOf(s + [x], key) == KeysOf(s, key) + {key(x)}
  {
    var t := s + [x];
    forall k | k in KeysOf(t, key) ensures k in KeysOf(s, key) + {key(x)} {
      var i :| 0 <= i < |t| && key(t[i]) == k;
      if i < |s| { assert t[i] == s[i]; }
    }
    forall k | k in KeysOf(s, key) ensures k in KeysOf(t, key) {
      var i :| 0 <= i < |s| && key(s[i]) == k;
      assert t[i] == s[i];
    }
    assert t[|s|] == x;
  }

  lemma FirstByKeyAppend<T, K>(s: seq<T>, x: T, key: T -> K)
    ensures FirstByKey(s + [x], key) == FirstByKey(s, key) + if key(x) in KeysOf(s, key) then [] else [x]
  {
    assert (s + [x])[..|s|] == s;
  }

  lemma HasSlotKeys(es: seq<Entry>, e: Entry)
    ensures HasSlot(es, e) <==> SlotKey(e) in KeysOf(es, SlotKey)
  {
  }

  /** An entry list of a teacher nobody has posted to yet is empty. */
  lemma {:induction false} EntriesForAbsent(ps: seq<Posting>, t: string)
    requires t !in KeysOf(Teachers(ps), Itself)
    ensures EntriesFor(ps, t) == []
  {
    if ps != [] {
      var init := ps[..|ps| - 1];
      assert Teachers(init) == Teachers(ps)[..|ps| - 1];
      forall j | 0 <= j < |init| ensures Teachers(init)[j] != t {
        assert Itself(Teachers(ps)[j]) in KeysOf(Teachers(ps), Itself);
      }
      EntriesForAbsent(init, t);
      assert Itself(Teachers(ps)[|ps| - 1]) in KeysOf(Teachers(ps), Itself);
    }
  }

  /** One more posting keeps the description. */
  lemma FileStep(ix: Index, qs: seq<Posting>)
    requires qs != [] && Describes(ix, qs[..|qs| - 1])
    ensures Describes(File(ix, qs[|qs| - 1]), qs)
  {
    var ps := qs[..|qs| - 1];
    var p := qs[|qs| - 1];
    assert qs == ps + [p];
    var ix' := File(ix, p);
    FileStepTeachers(ix, ps, p);
    forall u | u in ix'.lists ensures ix'.lists[u] == FirstByKey(EntriesFor(qs, u), SlotKey) {
      FileStepList(ix, ps, p, u);
    }
  }

  lemma FileStepTeachers(ix: Index, ps: seq<Posting>, p: Posting)
    requires Describes(ix, ps)
    ensures File(ix, p).lists.Keys == KeysOf(Teachers(ps + [p]), Itself)
    ensures File(ix, p).order == FirstByKey(Teachers(ps + [p]), Itself)
  {
    assert Teachers(ps + [p]) == Teachers(ps) + [p.teacher];
    KeysOfAppend(Teachers(ps), p.teacher, Itself);
    FirstByKeyAppend(Teachers(ps), p.teacher, Itself);
  }

  lemma FileStepList(ix: Index, ps: seq<Posting>, p: Posting, u: string)
    requires Describes(ix, ps)
    requires u in File(ix, p).lists
    ensures File(ix, p).lists[u] == FirstByKey(EntriesFor(ps + [p], u), SlotKey)
  {
    var qs := ps + [p];
    var t := p.teacher;
    assert qs[..|ps|] == ps;
    if u == t {
      assert EntriesFor(qs, u) == EntriesFor(ps, u) + [p.entry];
      FirstByKeyAppend(EntriesFor(ps, u), p.entry, SlotKey);
      if t in ix.lists {
        FirstByKeyCorrect(EntriesFor(ps, u), SlotKey);
        HasSlotKeys(ix.lists[t], p.entry);
      } else {
        EntriesForAbsent(ps, t);
      }
    } else {
      assert EntriesFor(qs, u) == EntriesFor(ps, u);
    }
  }

  /** The filing builds what Describes says. */
  lemma {:induction false} FileAllDescribes(ps: seq<Posting>)
    ensures Describes(FileAll(ps), ps)
  {
    if ps == [] {
      assert KeysOf(Teachers(ps), Itself) == {};
    } else {
      var init := ps[..|ps| - 1];
      FileAllDescribes(init);
      FileStep(FileAll(init), ps);
    }
  }

  /** So every teacher is listed once, the listed teachers are those with a
      list, every posting's teacher has a list holding the posting's slot, and
      no list holds two entries for one slot. */
  lemma FileAllShape(ps: seq<Posting>)
    ensures var ix := FileAll(ps);
      && (forall i, j | 0 <= i < j < |ix.order| :: ix.order[i] != ix.order[j])
      && (forall t :: t in ix.lists <==> t in ix.order)
      && (forall j | 0 <= j < |ps| :: ps[j].teacher in ix.lists && HasSlot(ix.lists[ps[j].teacher], ps[j].entry))
      && (forall t | t in ix.lists :: DistinctSlots(ix.lists[t]))
  {
    FileAllDescribes(ps);
    OrderShape(FileAll(ps), ps);
    ListsShape(FileAll(ps), ps);
  }

  lemma OrderShape(ix: Index, ps: seq<Posting>)
    requires Describes(ix, ps)
    ensures forall i, j | 0 <= i < j < |ix.order| :: ix.order[i] != ix.order[j]
    ensures forall t :: t in ix.lists <==> t in ix.order
  {
    FirstByKeyCorrect(Teachers(ps), Itself);
    forall t ensures t in ix.lists <==> t in ix.order {
      if t in ix.order {
        var k :| 0 <= k < |ix.order| && ix.order[k] == t;
        assert Itself(ix.order[k]) in KeysOf(ix.order, Itself);
      }
      if t in ix.lists {
        var k :| 0 <= k < |ix.order| && Itself(ix.order[k]) == t;
      }
    }
    forall i, j | 0 <= i < j < |ix.order| ensures ix.order[i] != ix.order[j] {
      assert Itself(ix.order[i]) != Itself(ix.order[j]);
    }
  }

  lemma ListsShape(ix: Index, ps: seq<Posting>)
    requires Describes(ix, ps)
    ensures forall j | 0 <= j < |ps| :: ps[j].teacher in ix.lists && HasSlot(ix.lists[ps[j].teacher], ps[j].entry)
    ensures forall t | t in ix.lists :: DistinctSlots(ix.lists[t])
  {
    forall j | 0 <= j < |ps| ensures ps[j].teacher in ix.lists && HasSlot(ix.lists[ps[j].teacher], ps[j].entry) {
      var t := ps[j].teacher;
      assert Itself(Teachers(ps)[j]) in KeysOf(Teachers(ps), Itself);
      PostedEntry(ps, j);
      FirstByKeyCorrect(EntriesFor(ps, t), SlotKey);
      HasSlotKeys(ix.lists[t], ps[j].entry);
    }
    forall t | t in ix.lists ensures DistinctSlots(ix.lists[t]) {
      FirstByKeyCorrect(EntriesFor(ps, t), SlotKey);
    }
  }

  predicate DistinctSlots(es: seq<Entry>) {
    forall i, j | 0 <= i < j < |es| :: SlotKey(es[i]) != SlotKey(es[j])
  }

  /** The entry of posting j is among the entries posted to its teacher. */
  lemma {:induction false} PostedEntry(ps: seq<Posting>, j: nat)
    requires j < |ps|
    ensures SlotKey(ps[j].entry) in KeysOf(EntriesFor(ps, ps[j].teacher), SlotKey)
  {
    var t := ps[j].teacher;
    var init := ps[..|ps| - 1];
    var e := EntriesFor(init, t);
    if j == |ps| - 1 {
      assert EntriesFor(ps, t) == e + [ps[j].entry];
      assert EntriesFor(ps, t)[|e|] == ps[j].entry;
    } else {
      assert init[j] == ps[j];
      PostedEntry(init, j);
      var k :| 0 <= k < |e| && SlotKey(e[k]) == SlotKey(ps[j].entry);
      assert EntriesFor(ps, t)[k] == e[k];
    }
  }

  /** The postings are the pairs of a merged slot's entry and one of its
      teachers. */
  lemma {:induction false} PostingsSpec(ms: seq<Slot>)
    ensures forall p :: p in Postings(ms) <==>
      exists i | 0 <= i < |ms| :: p.teacher in ms[i].teachers && p.entry == EntryOf(ms[i])
  {
    if ms != [] {
      var init := ms[..|ms| - 1];
      var m := ms[|ms| - 1];
      PostingsSpec(init);
      forall p ensures p in Postings(ms) <==>
        exists i | 0 <= i < |ms| :: p.teacher in ms[i].teachers && p.entry == EntryOf(ms[i])
      {
        if p in Postings(ms) {
          if p in PostingsOf(m) {
            var k :| 0 <= k < |m.teachers| && PostingsOf(m)[k] == p;
            assert p.teacher in ms[|ms| - 1].teachers;
          } else {
            assert p in Postings(init);
            var i :| 0 <= i < |init| && p.teacher in init[i].teachers && p.entry == EntryOf(init[i]);
            assert ms[i] == init[i];
          }
        }
        if exists i | 0 <= i < |ms| :: p.teacher in ms[i].teachers && p.entry == EntryOf(ms[i]) {
          var i :| 0 <= i < |ms| && p.teacher in ms[i].teachers && p.entry == EntryOf(ms[i]);
          if i == |ms| - 1 {
            var k :| 0 <= k < |m.teachers| && m.teachers[k] == p.teacher;
            assert PostingsOf(m)[k] == p;
          } else {
            assert init[i] == ms[i];
          }
        }
      }
    }
  }

  /** Every entry filed under t was posted to t. */
  lemma {:induction false} EntriesForPosted(ps: seq<Posting>, t: string)
    ensures forall x <- EntriesFor(ps, t) :: Posting(t, x) in ps
  {
    if ps != [] {
      var init := ps[..|ps| - 1];
      EntriesForPosted(init, t);
      forall x <- EntriesFor(ps, t) ensures Posting(t, x) in ps {
        if x in EntriesFor(init, t) {
          assert Posting(t, x) in init;
        } else {
          assert ps[|ps| - 1] == Posting(t, x);
        }
      }
    }
  }

  // ---------------------------------------------------------------------------
  // The whole of process_file

  /** The last loop of process_file: each teacher's list sorted by day and time. */
  function SortLists(lists: map<string, seq<Entry>>): (r: map<string, seq<Entry>>)
    ensures r.Keys == lists.Keys
  {
    map t | t in lists :: SortEntries(lists[t])
  }

  /** What process_file leaves in timetable_data, None when the merge raises
      (timetable_data is then left empty). */
  function Built(rows: seq<Row>): Option<Index> {
    match MergeSlots(KeptSlots(rows))
    case None => None
    case Some(ms) =>
      var ix := FileAll(Postings(ms));
      Some(Index(ix.order, SortLists(ix.lists)))
  }

  /** The shape of timetable_data after a successful process_file: every
      teacher listed once, the listed teachers exactly those with a list, each
      list non-empty, sorted by day and time and free of two entries for one
      slot. */
  predicate IndexValid(ix: Index) {
    && (forall i, j | 0 <= i < j < |ix.order| :: ix.order[i] != ix.order[j])
    && (forall t | t in ix.lists :: t in ix.order)
    && (forall t | t in ix.order :: t in ix.lists)
    && (forall t | t in ix.lists :: ix.lists[t] != [] && SortedBy(ix.lists[t], DayTimeKey) && DistinctSlots(ix.lists[t]))
  }

  /** A permutation keeps distinct slot keys. */
  lemma DistinctSlotsPermuted(a: seq<Entry>, b: seq<Entry>)
    requires DistinctSlots(a) && multiset(a) == multiset(b)
    ensures DistinctSlots(b)
  {
    forall i, j | 0 <= i < j < |b| ensures SlotKey(b[i]) != SlotKey(b[j]) {
      if SlotKey(b[i]) == SlotKey(b[j]) {
        assert b[i] in multiset(a) && b[j] in multiset(a);
        var p :| 0 <= p < |a| && a[p] == b[i];
        var q :| 0 <= q < |a| && a[q] == b[j];
        if p == q {
          TwoCopies(b, i, j);
          assert multiset(a)[a[p]] >= 2;
          CountOfDistinct(a, p);
        }
      }
    }
  }

  lemma {:induction false} CountOfDistinct(a: seq<Entry>, p: nat)
    requires DistinctSlots(a) && p < |a|
    ensures multiset(a)[a[p]] == 1
  {
    if |a| == 1 {
    } else if p == |a| - 1 {
      var init := a[..|a| - 1];
      assert a == init + [a[p]];
      forall k | 0 <= k < |init| ensures init[k] != a[p] {
        assert init[k] == a[k];
      }
    } else {
      var init := a[..|a| - 1];
      assert a == init + [a[|a| - 1]];
      assert init[p] == a[p];
      assert DistinctSlots(init) by {
        forall i, j | 0 <= i < j < |init| ensures SlotKey(init[i]) != SlotKey(init[j]) {
          assert init[i] == a[i] && init[j] == a[j];
        }
      }
      CountOfDistinct(init, p);
      assert a[|a| - 1] != a[p];
    }
  }

  /** A successful process_file leaves timetable_data in that shape. */
  lemma BuiltValid(rows: seq<Row>)
    requires Built(rows).Some?
    ensures IndexValid(Built(rows).value)
  {
    var ms := MergeSlots(KeptSlots(rows)).value;
    var ps := Postings(ms);
    var ix := FileAll(ps);
    var built := Built(rows).value;
    FileAllShape(ps);
    FileAllDescribes(ps);
    forall t | t in built.lists
      ensures built.lists[t] != [] && SortedBy(built.lists[t], DayTimeKey) && DistinctSlots(built.lists[t])
    {
      SortByCorrect(ix.lists[t], DayTimeKey);
      DistinctSlotsPermuted(ix.lists[t], built.lists[t]);
      ListNotEmpty(ix, ps, t);
    }
  }

  /** The index a successful process_file builds from the merged slots ms,
      once they are filed into ix. */
  lemma BuiltFrom(rows: seq<Row>, ms: seq<Slot>, ix: Index)
    requires MergeSlots(KeptSlots(rows)) == Some(ms) && ix == FileAll(Postings(ms))
    ensures Built(rows) == Some(Index(ix.order, SortLists(ix.lists)))
    ensures IndexValid(Index(ix.order, SortLists(ix.lists)))
  {
    BuiltValid(rows);
  }

  lemma ListNotEmpty(ix: Index, ps: seq<Posting>, t: string)
    requires Describes(ix, ps) && t in ix.lists
    ensures ix.lists[t] != []
  {
    var j := TeacherPosted(ix, ps, t);
    PostedEntry(ps, j);
    FirstByKeyNotEmpty(EntriesFor(ps, t), SlotKey, SlotKey(ps[j].entry));
  }

  lemma TeacherPosted(ix: Index, ps: seq<Posting>, t: string) returns (j: nat)
    requires Describes(ix, ps) && t in ix.lists
    ensures j < |ps| && ps[j].teacher == t
  {
    var names := Teachers(ps);
    assert t in KeysOf(names, Itself);
    j :| 0 <= j < |names| && Itself(names[j]) == t;
  }

  /** After the filing and the sort, every posting's teacher has a list
      holding the posting's slot. */
  lemma SortedComplete(ps: seq<Posting>, j: nat)
    requires j < |ps|
    ensures var lists := SortLists(FileAll(ps).lists);
      ps[j].teacher in lists && HasSlot(lists[ps[j].teacher], ps[j].entry)
  {
    var filed := FileAll(ps).lists;
    var t := ps[j].teacher;
    FileAllShape(ps);
    var k :| 0 <= k < |filed[t]| && SlotKey(filed[t][k]) == SlotKey(ps[j].entry);
    SortByCorrect(filed[t], DayTimeKey);
    assert filed[t][k] in multiset(SortLists(filed)[t]);
  }

  /** After the filing and the sort, every entry under t was posted to t. */
  lemma SortedSound(ps: seq<Posting>, t: string, x: Entry)
    requires t in FileAll(ps).lists && x in SortLists(FileAll(ps).lists)[t]
    ensures Posting(t, x) in ps
  {
    var filed := FileAll(ps).lists;
    SortByCorrect(filed[t], DayTimeKey);
    assert x in multiset(filed[t]);
    FileAllDescribes(ps);
    FiledSound(FileAll(ps), ps, t, x);
  }

  lemma FiledSound(ix: Index, ps: seq<Posting>, t: string, x: Entry)
    requires Describes(ix, ps) && t in ix.lists && x in ix.lists[t]
    ensures Posting(t, x) in ps
  {
    FirstByKeySubset(EntriesFor(ps, t), SlotKey, x);
    EntriesForPosted(ps, t);
  }

  /** After a successful process_file, each teacher of a merged slot has an
      entry for that slot's day, times, room and subject, and every entry under
      a teacher is the entry of a merged slot of that teacher. */
  lemma BuiltCovers(rows: seq<Row>)
    requires Built(rows).Some?
    ensures var ms := MergeSlots(KeptSlots(rows)).value;
      var ix := Built(rows).value;
      && (forall i, t | 0 <= i < |ms| && t in ms[i].teachers :: t in ix.lists && HasSlot(ix.lists[t], EntryOf(ms[i])))
      && (forall t, x | t in ix.lists && x in ix.lists[t] ::
            exists i | 0 <= i < |ms| :: t in ms[i].teachers && x == EntryOf(ms[i]))
  {
    var ms := MergeSlots(KeptSlots(rows)).value;
    var ps := Postings(ms);
    var ix := Built(rows).value;
    PostingsSpec(ms);
    forall i, t | 0 <= i < |ms| && t in ms[i].teachers ensures t in ix.lists && HasSlot(ix.lists[t], EntryOf(ms[i])) {
      assert Posting(t, EntryOf(ms[i])) in ps;
      var j :| 0 <= j < |ps| && ps[j] == Posting(t, EntryOf(ms[i]));
      SortedComplete(ps, j);
    }
    forall t, x | t in ix.lists && x in ix.lists[t] ensures exists i | 0 <= i < |ms| :: t in ms[i].teachers && x == EntryOf(ms[i]) {
      SortedSound(ps, t, x);
      assert Posting(t, x) in ps;
    }
  }

  // ---------------------------------------------------------------------------
  // The /timetable and /get_sections routes, on the index

  /** timetable_data.get(t, []) */
  function ListOf(ix: Index, t: string): seq<Entry> {
    if t in ix.lists then ix.lists[t] else []
  }

  /** The lists of the teachers ts, one after the other. */
  function EntriesIn(ix: Index, ts: seq<string>): seq<Entry> {
    if ts == [] then [] else EntriesIn(ix, ts[..|ts| - 1]) + ListOf(ix, ts[|ts| - 1])
  }

  /** The section filter: the entry has groups and q occurs in one of them,
      both lower-cased. */
  predicate InSection(e: Entry, q: string) {
    e.groups != [] && exists g <- e.groups :: Contains(Lower(g), q)
  }

  /** The entries of es in the section q, in order. */
  function Matching(es: seq<Entry>, q: string): seq<Entry> {
    if es == [] then []
    else Matching(es[..|es| - 1], q) + if InSection(es[|es| - 1], q) then [es[|es| - 1]] else []
  }

  /** The section filter applied list by list over the teachers ts. */
  function SectionIn(ix: Index, ts: seq<string>, q: string): seq<Entry> {
    if ts == [] then [] else SectionIn(ix, ts[..|ts| - 1], q) + Matching(ListOf(ix, ts[|ts| - 1]), q)
  }

  /** get_timetable: the name upper-cased; no name gives every entry, type
      'teacher' the teacher's list, any other type the entries of the
      matching sections; the result sorted by day and time. */
  function TimetableOf(ix: Index, name: string, kind: string): seq<Entry> {
    var q := Upper(name);
    SortEntries(
      if q == "" then EntriesIn(ix, ix.order)
      else if kind == "teacher" then ListOf(ix, q)
      else SectionIn(ix, ix.order, Lower(q)))
  }

  lemma {:induction false} MatchingMembers(es: seq<Entry>, q: string)
    ensures forall e :: e in Matching(es, q) <==> e in es && InSection(e, q)
  {
    if es != [] {
      var init := es[..|es| - 1];
      MatchingMembers(init, q);
      assert es == init + [es[|es| - 1]];
    }
  }

  lemma {:induction false} EntriesInMembers(ix: Index, ts: seq<string>)
    ensures forall e :: e in EntriesIn(ix, ts) <==> exists t <- ts :: e in ListOf(ix, t)
  {
    if ts != [] {
      var init := ts[..|ts| - 1];
      EntriesInMembers(ix, init);
      assert ts == init + [ts[|ts| - 1]];
    }
  }

  lemma {:induction false} SectionInMembers(ix: Index, ts: seq<string>, q: string)
    ensures forall e :: e in SectionIn(ix, ts, q) <==> (exists t <- ts :: e in ListOf(ix, t)) && InSection(e, q)
  {
    if ts != [] {
      var init := ts[..|ts| - 1];
      var t := ts[|ts| - 1];
      SectionInMembers(ix, init, q);
      MatchingMembers(ListOf(ix, t), q);
      assert ts == init + [t];
    }
  }

  /** An entry is filed in the index when some teacher's list holds it. */
  predicate Filed(ix: Index, e: Entry) {
    exists t | t in ix.lists :: e in ix.lists[t]
  }

  lemma ListedIsFiled(ix: Index, e: Entry)
    requires IndexValid(ix)
    ensures (exists t <- ix.order :: e in ListOf(ix, t)) <==> Filed(ix, e)
  {
    if Filed(ix, e) {
      var t :| t in ix.lists && e in ix.lists[t];
      assert t in ix.order && e in ListOf(ix, t);
    }
  }

  /** get_timetable for a teacher: the teacher's stored list as it is (it is
      already in day and time order), or nothing for an unknown name. */
  lemma TimetableOfTeacher(ix: Index, name: string)
    requires IndexValid(ix) && Upper(name) != ""
    ensures TimetableOf(ix, name, "teacher") == if Upper(name) in ix.lists then ix.lists[Upper(name)] else []
  {
    var q := Upper(name);
    if q in ix.lists {
      SortBySortedIdentity(ix.lists[q], DayTimeKey);
    }
  }

  /** get_timetable for a section: exactly the filed entries whose groups
      contain the lower-cased name, in day and time order. */
  lemma TimetableOfSection(ix: Index, name: string, kind: string)
    requires IndexValid(ix) && Upper(name) != "" && kind != "teacher"
    ensures var r := TimetableOf(ix, name, kind);
      SortedBy(r, DayTimeKey) &&
      forall e :: e in r <==> Filed(ix, e) && InSection(e, Lower(Upper(name)))
  {
    var q := Lower(Upper(name));
    var found := SectionIn(ix, ix.order, q);
    assert TimetableOf(ix, name, kind) == SortEntries(found);
    SortEntriesMembers(found);
    SectionInMembers(ix, ix.order, q);
    forall e ensures e in found <==> Filed(ix, e) && InSection(e, q) {
      ListedIsFiled(ix, e);
    }
  }

  /** get_timetable without a name: every filed entry, as often as it is
      filed, in day and time order. */
  lemma TimetableOfAll(ix: Index, kind: string)
    requires IndexValid(ix)
    ensures var r := TimetableOf(ix, "", kind);
      SortedBy(r, DayTimeKey) && multiset(r) == multiset(EntriesIn(ix, ix.order)) &&
      forall e :: e in r <==> Filed(ix, e)
  {
    var found := EntriesIn(ix, ix.order);
    assert TimetableOf(ix, "", kind) == SortEntries(found);
    SortEntriesMembers(found);
    EntriesInMembers(ix, ix.order);
    forall e ensures e in found <==> Filed(ix, e) {
      ListedIsFiled(ix, e);
    }
  }

  lemma SortEntriesMembers(es: seq<Entry>)
    ensures SortedBy(SortEntries(es), DayTimeKey) && multiset(SortEntries(es)) == multiset(es)
    ensures forall e :: e in SortEntries(es) <==> e in es
  {
    SortByCorrect(es, DayTimeKey);
    forall e ensures e in SortEntries(es) <==> e in es {
      assert e in SortEntries(es) <==> e in multiset(SortEntries(es));
    }
  }

  /** The groups of the entries es. */
  function GroupsIn(es: seq<Entry>): set<string> {
    if es == [] then {} else GroupsIn(es[..|es| - 1]) + GroupSet(es[|es| - 1])
  }

  function GroupSet(e: Entry): set<string> {
    set g | g in e.groups
  }

  /** The groups of the lists of the teachers ts. */
  function SectionsIn(ix: Index, ts: seq<string>): set<string> {
    if ts == [] then {} else SectionsIn(ix, ts[..|ts| - 1]) + GroupsIn(ListOf(ix, ts[|ts| - 1]))
  }

  lemma {:induction false} GroupsInMembers(es: seq<Entry>)
    ensures forall g :: g in GroupsIn(es) <==> exists e <- es :: g in e.groups
  {
    if es != [] {
      var init := es[..|es| - 1];
      GroupsInMembers(init);
      assert es == init + [es[|es| - 1]];
    }
  }

  lemma {:induction false} SectionsInMembers(ix: Index, ts: seq<string>)
    ensures forall g :: g in SectionsIn(ix, ts) <==> exists t <- ts, e <- ListOf(ix, t) :: g in e.groups
  {
    if ts != [] {
      var init := ts[..|ts| - 1];
      var t := ts[|ts| - 1];
      SectionsInMembers(ix, init);
      GroupsInMembers(ListOf(ix, t));
      assert ts == init + [t];
    }
  }

  /** Sort key of sorted() on strings. */
  function TextKey(s: string): Key {
    [Text(s)]
  }

  /** The answer of get_sections: the distinct groups of all filed entries,
      in string order. */
  ghost predicate SectionList(ix: Index, r: seq<string>) {
    && SortedBy(r, TextKey)
    && (forall i, j | 0 <= i < j < |r| :: r[i] != r[j])
    && (forall g :: g in r <==> exists t <- ix.order, e <- ListOf(ix, t) :: g in e.groups)
  }

  /** The section list is determined: two lists that answer it are equal. */
  lemma SectionListUnique(ix: Index, a: seq<string>, b: seq<string>)
    requires SectionList(ix, a) && SectionList(ix, b)
    ensures a == b
  {
    DistinctSameElements(a, b);
    forall i, j | 0 <= i < j < |a| ensures TextKey(a[i]) != TextKey(a[j]) {
      assert TextKey(a[i])[0] != TextKey(a[j])[0];
    }
    SortedUnique(a, b, TextKey);
  }

  /** Two duplicate-free lists with the same elements are permutations. */
  lemma DistinctSameElements(a: seq<string>, b: seq<string>)
    requires forall i, j | 0 <= i < j < |a| :: a[i] != a[j]
    requires forall i, j | 0 <= i < j < |b| :: b[i] != b[j]
    requires forall x :: x in a <==> x in b
    ensures multiset(a) == multiset(b)
  {
    forall x ensures multiset(a)[x] == multiset(b)[x] {
      DistinctCount(a, x);
      DistinctCount(b, x);
      if x in a {
        assert x in multiset(a) && x in multiset(b);
      } else {
        assert x !in multiset(a) && x !in multiset(b);
      }
    }
  }
}

/** The application's module-level state and the code that changes and reads
    it: process_file rebuilding timetable_data and teacher_names, and the
    /timetable, /get_sections and index routes reading them. */
module Routes {
  import opened Strings
  import opened Ordering
  import opened Normalize
  import opened Records
  import opened Merge
  import opened Timetable

  /** timetable_data (its keys in insertion order and their lists) and
      teacher_names. */
  class Store {
    var order: seq<string>
    var lists: map<string, seq<Entry>>
    var teacherNames: set<string>

    constructor ()
      ensures order == [] && lists == map[] && teacherNames == {}
    {
      order := [];
      lists := map[];
      teacherNames := {};
    }

    /** The index as a value. */
    function Data(): Index
      reads this
    {
      Index(order, lists)
    }

    predicate Valid()
      reads this
    {
      IndexValid(Data())
    }

    /** process_file: clears both, reads the rows, merges the slots and files
        them; when the merge raises, timetable_data stays empty while
        teacher_names already holds the names of the kept rows. */
    method ProcessFile(rows: seq<Row>) returns (ok: bool)
      modifies this
      ensures teacherNames == NamesOf(rows)
      ensures ok == Built(rows).Some?
      ensures Data() == if ok then Built(rows).value else Index([], map[])
      ensures Valid()
    {
      order := [];
      lists := map[];
      teacherNames := {};
      var temp := ReadRows(rows);
      var slots := new Slot[|temp|](k requires 0 <= k < |temp| => temp[k]);
      assert slots[..] == temp;
      var merged := MergeConsecutiveSlots(slots);
      if merged.None? {
        return false;
      }
      FileMerged(rows, merged.value);
      return true;
    }

    /** The filing half of process_file: each merged slot under each of its
        teachers, then every list sorted by day and time. */
    method FileMerged(rows: seq<Row>, ms: seq<Slot>)
      requires MergeSlots(KeptSlots(rows)) == Some(ms)
      requires order == [] && lists == map[]
      modifies this`order, this`lists
      ensures Built(rows) == Some(Data()) && Valid()
    {
      FileSlots(ms);
      ghost var filed := Data();
      FileAllShape(Postings(ms));
      SortEachList();
      BuiltFrom(rows, ms, filed);
    }

    /** The row loop of process_file: the kept slots, adding their teachers
        to teacher_names on the way. */
    method ReadRows(rows: seq<Row>) returns (temp: seq<Slot>)
      requires teacherNames == {}
      modifies this`teacherNames
      ensures temp == KeptSlots(rows) && teacherNames == NamesOf(rows)
    {
      temp := [];
      for i := 0 to |rows|
        invariant temp == KeptSlots(rows[..i]) && teacherNames == NamesOf(rows[..i])
      {
        var slot := SlotOf(rows[i]);
        if slot.Some? {
          ReadKept(rows, i, slot.value);
          AddNames(slot.value.teachers);
          temp := temp + [slot.value];
        } else {
          ReadSkipped(rows, i);
        }
      }
      assert rows[..|rows|] == rows;
    }

    /** teacher_names.add for each teacher of a row. */
    method AddNames(teachers: seq<string>)
      modifies this`teacherNames
      ensures teacherNames == old(teacherNames) + set t | t in teachers
    {
      for k := 0 to |teachers|
        invariant teacherNames == old(teacherNames) + set t | t in teachers[..k]
      {
        assert teachers[..k + 1] == teachers[..k] + [teachers[k]];
        teacherNames := teacherNames + {teachers[k]};
      }
      assert teachers[..|teachers|] == teachers;
    }

    /** The filing loop of process_file, over the merged slots. */
    method FileSlots(ms: seq<Slot>)
      requires order == [] && lists == map[]
      modifies this`order, this`lists
      ensures Data() == FileAll(Postings(ms))
    {
      for i := 0 to |ms|
        invariant Data() == FileAll(Postings(ms[..i]))
      {
        FileSlot(Postings(ms[..i]), ms[i]);
        assert ms[..i + 1][..i] == ms[..i];
      }
      assert ms[..|ms|] == ms;
    }

    /** One merged slot filed under each of its teachers in turn. */
    method FileSlot(ghost before: seq<Posting>, m: Slot)
      requires Data() == FileAll(before)
      modifies this`order, this`lists
      ensures Data() == FileAll(before + PostingsOf(m))
    {
      var e := EntryOf(m);
      assert before + PostingsOf(m)[..0] == before;
      for k := 0 to |m.teachers|
        invariant Data() == FileAll(before + PostingsOf(m)[..k])
      {
        PostingsPrefixStep(before, m, k);
        FilePosting(before + PostingsOf(m)[..k], Posting(m.teachers[k], e));
      }
      assert PostingsOf(m)[..|m.teachers|] == PostingsOf(m);
    }

    /** One posting: the teacher's list gets the entry unless it holds a
        duplicate; a new teacher becomes a new key. */
    method FilePosting(ghost done: seq<Posting>, p: Posting)
      requires Data() == FileAll(done)
      modifies this`order, this`lists
      ensures Data() == FileAll(done + [p])
    {
      FileAllSnoc(done, p);
      var t := p.teacher;
      if t in lists {
        var duplicate := HasDuplicate(lists[t], p.entry);
        if !duplicate {
          lists := lists[t := lists[t] + [p.entry]];
        }
      } else {
        order := order + [t];
        lists := lists[t := [p.entry]];
      }
    }

    /** The last loop of process_file: each teacher's list, in key order,
        replaced by its sorted copy. */
    method SortEachList()
      requires forall i, j | 0 <= i < j < |order| :: order[i] != order[j]
      requires forall t :: t in lists <==> t in order
      modifies this`lists
      ensures lists == SortLists(old(lists))
    {
      ghost var filed := lists;
      PartlySortedNone(filed);
      for k := 0 to |order|
        invariant lists == PartlySorted(filed, order[..k])
      {
        var t := order[k];
        PartlySortedStep(filed, order, k);
        lists := lists[t := SortEntries(lists[t])];
      }
      assert order[..|order|] == order;
      PartlySortedAll(filed, order);
    }

    /** get_timetable, walking timetable_data for a section. */
    method GetTimetable(name: string, kind: string) returns (data: seq<Entry>)
      ensures data == TimetableOf(Data(), name, kind)
    {
      var q := Upper(name);
      var found: seq<Entry> := [];
      if q != "" {
        if kind == "teacher" {
          found := if q in lists then lists[q] else [];
        } else {
          var lq := Lower(q);
          for i := 0 to |order|
            invariant found == SectionIn(Data(), order[..i], lq)
          {
            var es := ListOf(Data(), order[i]);
            for j := 0 to |es|
              invariant found == SectionIn(Data(), order[..i], lq) + Matching(es[..j], lq)
            {
              var entry := es[j];
              assert es[..j + 1][..j] == es[..j];
              if entry.groups != [] && exists g <- entry.groups :: Contains(Lower(g), lq) {
                found := found + [entry];
              }
            }
            assert es[..|es|] == es;
            assert order[..i + 1][..i] == order[..i];
          }
          assert order[..|order|] == order;
        }
      } else {
        for i := 0 to |order|
          invariant found == EntriesIn(Data(), order[..i])
        {
          assert order[..i + 1][..i] == order[..i];
          found := found + ListOf(Data(), order[i]);
        }
        assert order[..|order|] == order;
      }
      data := SortEntries(found);
    }

    /** get_sections: the union of the groups of all entries, sorted. */
    method GetSections() returns (sections: seq<string>)
      requires Valid()
      ensures SectionList(Data(), sections)
    {
      var collected := CollectSections();
      SectionsInMembers(Data(), order);
      var listed := ListOfSet(collected);
      sections := SortBy(listed, TextKey);
      SortByCorrect(listed, TextKey);
      DistinctAfterPermutation(listed, sections);
      forall g ensures g in sections <==> g in listed {
        assert g in sections <==> g in multiset(sections);
      }
    }

    /** The loop of get_sections over timetable_data's lists. */
    method CollectSections() returns (collected: set<string>)
      ensures collected == SectionsIn(Data(), order)
    {
      collected := {};
      for i := 0 to |order|
        invariant collected == SectionsIn(Data(), order[..i])
      {
        var es := ListOf(Data(), order[i]);
        ghost var upTo := collected;
        for j := 0 to |es|
          invariant collected == upTo + GroupsIn(es[..j])
        {
          assert es[..j + 1][..j] == es[..j];
          if es[j].groups != [] {
            collected := collected + GroupSet(es[j]);
          }
        }
        assert es[..|es|] == es;
        assert order[..i + 1][..i] == order[..i];
      }
      assert order[..|order|] == order;
    }

    /** sort_teachers_by_prefix_and_name(teacher_names) for the index page:
        every name once, by prefix rank and then by name. */
    method SortedTeacherNames() returns (names: seq<string>)
      ensures forall i, j | 0 <= i < j < |names| :: names[i] != names[j]
      ensures forall t :: t in names <==> t in teacherNames
      ensures SortedBy(names, TeacherKey)
    {
      var listed := ListOfSet(teacherNames);
      names := SortTeachers(listed);
      SortTeachersSpec(listed, listed);
      SortByCorrect(listed, TeacherKey);
      DistinctAfterPermutation(listed, names);
      forall t ensures t in names <==> t in listed {
        assert t in names <==> t in multiset(names);
      }
    }
  }

  /** The entries of a set, in the order the set yields them. */
  method ListOfSet(s: set<string>) returns (xs: seq<string>)
    ensures forall i, j | 0 <= i < j < |xs| :: xs[i] != xs[j]
    ensures forall x :: x in xs <==> x in s
  {
    xs := [];
    var rest := s;
    while rest != {}
      invariant forall i, j | 0 <= i < j < |xs| :: xs[i] != xs[j]
      invariant forall x :: x in s <==> x in xs || x in rest
      invariant forall x :: x in xs ==> x !in rest
      decreases |rest|
    {
      var x :| x in rest;
      xs := xs + [x];
      rest := rest - {x};
    }
  }

  /** The duplicate check of process_file: an entry with the same day, start,
      end, room and subject is already in the list. */
  method HasDuplicate(existing: seq<Entry>, e: Entry) returns (found: bool)
    ensures found == HasSlot(existing, e)
  {
    for k := 0 to |existing|
      invariant forall j | 0 <= j < k :: SlotKey(existing[j]) != SlotKey(e)
    {
      var x := existing[k];
      if x.day == e.day && x.start == e.start && x.end == e.end && x.location == e.location && x.subject == e.subject {
        return true;
      }
    }
    return false;
  }

  /** A kept row adds its slot and its teachers. */
  lemma ReadKept(rows: seq<Row>, i: nat, m: Slot)
    requires i < |rows| && SlotOf(rows[i]) == Some(m)
    ensures KeptSlots(rows[..i + 1]) == KeptSlots(rows[..i]) + [m]
    ensures NamesOf(rows[..i + 1]) == NamesOf(rows[..i]) + set t | t in m.teachers
  {
    assert rows[..i + 1][..i] == rows[..i];
  }

  /** A dropped row changes neither. */
  lemma ReadSkipped(rows: seq<Row>, i: nat)
    requires i < |rows| && SlotOf(rows[i]).None?
    ensures KeptSlots(rows[..i + 1]) == KeptSlots(rows[..i])
    ensures NamesOf(rows[..i + 1]) == NamesOf(rows[..i])
  {
    assert rows[..i + 1][..i] == rows[..i];
  }

  lemma PostingsPrefixStep(before: seq<Posting>, m: Slot, k: nat)
    requires k < |m.teachers|
    ensures before + PostingsOf(m)[..k + 1] == before + PostingsOf(m)[..k] + [Posting(m.teachers[k], EntryOf(m))]
  {
    assert PostingsOf(m)[..k + 1] == PostingsOf(m)[..k] + [PostingsOf(m)[k]];
  }

  /** timetable_data while its keys are sorted one by one: the lists of the
      keys in done sorted, the others as filed. */
  function PartlySorted(filed: map<string, seq<Entry>>, done: seq<string>): (r: map<string, seq<Entry>>)
    ensures r.Keys == filed.Keys
  {
    map t | t in filed :: if t in done then SortEntries(filed[t]) else filed[t]
  }

  lemma PartlySortedNone(filed: map<string, seq<Entry>>)
    ensures PartlySorted(filed, []) == filed
  {
  }

  lemma PartlySortedStep(filed: map<string, seq<Entry>>, keys: seq<string>, k: nat)
    requires k < |keys| && keys[k] in filed
    requires forall i, j | 0 <= i < j < |keys| :: keys[i] != keys[j]
    ensures PartlySorted(filed, keys[..k])[keys[k] := SortEntries(filed[keys[k]])] == PartlySorted(filed, keys[..k + 1])
  {
    assert keys[..k + 1] == keys[..k] + [keys[k]];
    assert keys[k] !in keys[..k];
  }

  lemma PartlySortedAll(filed: map<string, seq<Entry>>, done: seq<string>)
    requires forall t | t in filed :: t in done
    ensures PartlySorted(filed, done) == SortLists(filed)
  {
  }

  lemma FileAllSnoc(ps: seq<Posting>, p: Posting)
    ensures FileAll(ps + [p]) == File(FileAll(ps), p)
  {
    assert (ps + [p])[..|ps|] == ps;
  }
}

/**
 * The expansion step of the loader (`_parse_and_expand_subjects` and
 * `validate_config_match` in project/src/data_loader.py): the sections of
 * GE/SEC/VAC/AEC groups, the split of a Course cell on '+', the Course_Semester
 * identifiers, the rule that a repeated subject must name its sections, and the
 * comparison of the sections found in the sheet with the configured counts.
 */
module DataLoaderExpand {
  import opened Wrappers
  import opened Text
  import opened Sorting
  import Grid
  import ConfigV2

  // ---------------------------------------------------------------------------
  // Sections of a GE/SEC/VAC/AEC group
  // ---------------------------------------------------------------------------

  /** One teacher row of a (semester, subject, type) group, reduced to what the
      section handling reads and writes. */
  datatype GroupRow = GroupRow(section: string, splitGroupId: Option<string>, mainTeacher: string)

  /** `teacher_data.get("split_group_id")` is truthy. */
  predicate InSplitGroup(r: GroupRow) { r.splitGroupId.Some? && r.splitGroupId.value != "" }

  /** `non_split_teachers`: the rows of no split group, in order. */
  function NonSplit(rows: seq<GroupRow>): (r: seq<GroupRow>)
    ensures |r| <= |rows|
  {
    if rows == [] then []
    else
      var last := rows[|rows| - 1];
      NonSplit(rows[..|rows| - 1]) + if InSplitGroup(last) then [] else [last]
  }

  /** `non_split_teachers` holds exactly the rows outside split groups. */
  lemma {:induction false} NonSplitMembers(rows: seq<GroupRow>)
    ensures forall x :: x in NonSplit(rows) <==> x in rows && !InSplitGroup(x)
    decreases |rows|
  {
    if rows != [] {
      NonSplitMembers(rows[..|rows| - 1]);
      assert rows == rows[..|rows| - 1] + [rows[|rows| - 1]];
    }
  }

  /** The split groups in which some member has no section. */
  function MissingSplitGroups(rows: seq<GroupRow>): set<string> {
    set x | x in rows && InSplitGroup(x) && x.section == "" :: x.splitGroupId.value
  }

  /** A member of a split group that lacks a section is given "A". */
  function FillSplitGroup(r: GroupRow, missing: set<string>): GroupRow {
    if InSplitGroup(r) && r.splitGroupId.value in missing then r.(section := "A") else r
  }

  /** Several rows, at least two outside split groups, one of those without a section. */
  predicate MissingSections(rows: seq<GroupRow>) {
    |rows| > 1 && |NonSplit(rows)| > 1 && exists x :: x in NonSplit(rows) && x.section == ""
  }

  /** The group after its sections are assigned (data_loader.py:489-525), before the sort. */
  function SectionsFilled(rows: seq<GroupRow>): Result<seq<GroupRow>, PyError> {
    if |rows| == 1 then
      Ok([if rows[0].section == "" then rows[0].(section := "A") else rows[0]])
    else if MissingSections(rows) then
      Err(ValueError("Missing sections for repeated GE/SEC/VAC/AEC subject"))
    else
      var missing := MissingSplitGroups(rows);
      Ok(seq(|rows|, i requires 0 <= i < |rows| => FillSplitGroup(rows[i], missing)))
  }

  /** The sort key of line 528: Python's order on the section strings. */
  predicate SectionLe(a: GroupRow, b: GroupRow) { LexLe(a.section, b.section) }

  /** The group as the loader leaves it: sections assigned, then sorted by section. */
  function GroupSections(rows: seq<GroupRow>): Result<seq<GroupRow>, PyError> {
    match SectionsFilled(rows)
    case Err(e) => Err(e)
    case Ok(filled) => Ok(SortBy(filled, SectionLe))
  }

  /** Lines 496-503: one pass over the group collects the rows outside split groups
      and the split groups that lack a section. */
  method ScanGroup(rows: seq<GroupRow>) returns (nonSplit: seq<GroupRow>, missing: set<string>)
    ensures nonSplit == NonSplit(rows)
    ensures missing == MissingSplitGroups(rows)
  {
    missing := {};
    nonSplit := [];
    var i := 0;
    while i < |rows|
      invariant 0 <= i <= |rows|
      invariant nonSplit == NonSplit(rows[..i])
      invariant missing == MissingSplitGroups(rows[..i])
    {
      MissingSplitGroupsStep(rows, i);
      assert rows[..i + 1][..i] == rows[..i];
      if InSplitGroup(rows[i]) {
        if rows[i].section == "" {
          missing := missing + {rows[i].splitGroupId.value};
        }
      } else {
        nonSplit := nonSplit + [rows[i]];
      }
      i := i + 1;
    }
    assert rows[..i] == rows;
  }

  lemma MissingSplitGroupsStep(rows: seq<GroupRow>, i: nat)
    requires i < |rows|
    ensures MissingSplitGroups(rows[..i + 1])
            == MissingSplitGroups(rows[..i])
               + if InSplitGroup(rows[i]) && rows[i].section == "" then {rows[i].splitGroupId.value} else {}
  {
    assert rows[..i + 1] == rows[..i] + [rows[i]];
  }

  /** Lines 518-525: every member of a split group that lacks a section gets "A". */
  method FillGroups(rows: seq<GroupRow>, missing: set<string>) returns (data: seq<GroupRow>)
    ensures |data| == |rows|
    ensures forall m :: 0 <= m < |rows| ==> data[m] == FillSplitGroup(rows[m], missing)
  {
    data := rows;
    var k := 0;
    while k < |rows|
      invariant 0 <= k <= |rows| && |data| == |rows|
      invariant forall m :: 0 <= m < k ==> data[m] == FillSplitGroup(rows[m], missing)
      invariant forall m :: k <= m < |rows| ==> data[m] == rows[m]
    {
      data := data[k := FillSplitGroup(data[k], missing)];
      k := k + 1;
    }
  }

  /** Lines 487-528: the sections are rewritten in place and the list is sorted. */
  method AssignSections(rows: seq<GroupRow>) returns (result: Result<seq<GroupRow>, PyError>)
    ensures result == GroupSections(rows)
  {
    var data := rows;
    if |rows| == 1 {
      if data[0].section == "" {
        data := [data[0].(section := "A")];
      }
    } else {
      var nonSplit, missing := ScanGroup(rows);
      if |nonSplit| > 1 {
        var j := 0;
        while j < |nonSplit|
          invariant 0 <= j <= |nonSplit|
          invariant forall k :: 0 <= k < j ==> nonSplit[k].section != ""
        {
          if nonSplit[j].section == "" {
            assert MissingSections(rows);
            return Err(ValueError("Missing sections for repeated GE/SEC/VAC/AEC subject"));
          }
          j := j + 1;
        }
      }
      assert !MissingSections(rows);
      data := FillGroups(rows, missing);
      assert data == seq(|rows|, i requires 0 <= i < |rows| => FillSplitGroup(rows[i], missing));
    }
    result := Ok(SortBy(data, SectionLe));
  }

  lemma SectionLeTotalPreorder()
    ensures TotalPreorder(SectionLe)
  {
    forall a: GroupRow, b: GroupRow
      ensures SectionLe(a, b) || SectionLe(b, a)
    {
      LexLeTotal(a.section, b.section);
    }
    forall a: GroupRow, b: GroupRow, c: GroupRow | SectionLe(a, b) && SectionLe(b, c)
      ensures SectionLe(a, c)
    {
      LexLeTransitive(a.section, b.section, c.section);
    }
  }

  lemma NonSplitSome(rows: seq<GroupRow>)
    ensures |NonSplit(rows)| > 0 <==> exists i :: 0 <= i < |rows| && !InSplitGroup(rows[i])
  {
    NonSplitMembers(rows);
    if exists i :: 0 <= i < |rows| && !InSplitGroup(rows[i]) {
      var i :| 0 <= i < |rows| && !InSplitGroup(rows[i]);
      assert rows[i] in NonSplit(rows);
    }
    if |NonSplit(rows)| > 0 {
      var x := NonSplit(rows)[0];
      assert x in rows;
      var i :| 0 <= i < |rows| && rows[i] == x;
    }
  }

  lemma NonSplitStep(rows: seq<GroupRow>)
    requires rows != []
    ensures NonSplit(rows) == NonSplit(rows[..|rows| - 1])
                              + if InSplitGroup(rows[|rows| - 1]) then [] else [rows[|rows| - 1]]
  {
  }

  lemma {:induction false} NonSplitPairIntro(rows: seq<GroupRow>, i: nat, j: nat)
    requires i < j < |rows| && !InSplitGroup(rows[i]) && !InSplitGroup(rows[j])
    ensures |NonSplit(rows)| > 1
    decreases |rows|
  {
    var n := |rows| - 1;
    var init := rows[..n];
    NonSplitStep(rows);
    assert init[i] == rows[i];
    if j < n {
      assert init[j] == rows[j];
      NonSplitPairIntro(init, i, j);
    } else {
      NonSplitSome(init);
    }
  }

  lemma {:induction false} NonSplitPairElim(rows: seq<GroupRow>)
    requires |NonSplit(rows)| > 1
    ensures exists i, j :: 0 <= i < j < |rows| && !InSplitGroup(rows[i]) && !InSplitGroup(rows[j])
    decreases |rows|
  {
    var n := |rows| - 1;
    var init := rows[..n];
    NonSplitStep(rows);
    if InSplitGroup(rows[n]) {
      NonSplitPairElim(init);
      var i, j :| 0 <= i < j < |init| && !InSplitGroup(init[i]) && !InSplitGroup(init[j]);
      assert rows[i] == init[i] && rows[j] == init[j];
    } else {
      NonSplitSome(init);
      var i :| 0 <= i < |init| && !InSplitGroup(init[i]);
      assert rows[i] == init[i];
    }
  }

  /** At least two rows lie outside every split group exactly when `non_split_teachers`
      has more than one entry. */
  lemma NonSplitPair(rows: seq<GroupRow>)
    ensures |NonSplit(rows)| > 1 <==>
            exists i, j :: 0 <= i < j < |rows| && !InSplitGroup(rows[i]) && !InSplitGroup(rows[j])
  {
    if |NonSplit(rows)| > 1 {
      NonSplitPairElim(rows);
    }
    if exists i, j :: 0 <= i < j < |rows| && !InSplitGroup(rows[i]) && !InSplitGroup(rows[j]) {
      var i, j :| 0 <= i < j < |rows| && !InSplitGroup(rows[i]) && !InSplitGroup(rows[j]);
      NonSplitPairIntro(rows, i, j);
    }
  }

  /** A group is rejected exactly when it has two rows outside split groups and some
      row outside the split groups has no section (data_loader.py:505-513). */
  lemma GroupSectionsFails(rows: seq<GroupRow>)
    ensures GroupSections(rows).Err? <==>
            (exists i, j :: 0 <= i < j < |rows| && !InSplitGroup(rows[i]) && !InSplitGroup(rows[j]))
            && (exists i :: 0 <= i < |rows| && !InSplitGroup(rows[i]) && rows[i].section == "")
  {
    NonSplitPair(rows);
    NonSplitMembers(rows);
    if exists i :: 0 <= i < |rows| && !InSplitGroup(rows[i]) && rows[i].section == "" {
      var i :| 0 <= i < |rows| && !InSplitGroup(rows[i]) && rows[i].section == "";
      assert rows[i] in NonSplit(rows);
    }
    if MissingSections(rows) {
      var x :| x in NonSplit(rows) && x.section == "";
      var i :| 0 <= i < |rows| && rows[i] == x;
    }
  }

  /** Every row of an accepted group comes out with a section, except the one row
      outside any split group when all its other rows are split-teaching rows; a row
      of a split group with a missing section gets "A", and every other row keeps
      its section. */
  lemma FilledSections(rows: seq<GroupRow>)
    requires SectionsFilled(rows).Ok?
    ensures var f := SectionsFilled(rows).value;
      && |f| == |rows|
      && (forall i :: 0 <= i < |rows| ==> f[i] == rows[i].(section := f[i].section))
      && (forall i :: 0 <= i < |rows| && |rows| > 1 && InSplitGroup(rows[i]) ==>
            f[i].section ==
              if exists j :: 0 <= j < |rows| && rows[j].splitGroupId == rows[i].splitGroupId
                             && rows[j].section == ""
              then "A" else rows[i].section)
      && (forall i :: 0 <= i < |rows| && f[i].section == "" ==>
            |rows| > 1 && !InSplitGroup(rows[i]) && |NonSplit(rows)| == 1)
  {
    var f := SectionsFilled(rows).value;
    if |rows| > 1 {
      var missing := MissingSplitGroups(rows);
      forall i | 0 <= i < |rows| && InSplitGroup(rows[i])
        ensures (rows[i].splitGroupId.value in missing) ==
                exists j :: 0 <= j < |rows| && rows[j].splitGroupId == rows[i].splitGroupId
                            && rows[j].section == ""
      {
        if rows[i].splitGroupId.value in missing {
          var x :| x in rows && InSplitGroup(x) && x.section == ""
                   && x.splitGroupId.value == rows[i].splitGroupId.value;
          var j :| 0 <= j < |rows| && rows[j] == x;
        }
        if exists j :: 0 <= j < |rows| && rows[j].splitGroupId == rows[i].splitGroupId
                       && rows[j].section == "" {
          var j :| 0 <= j < |rows| && rows[j].splitGroupId == rows[i].splitGroupId
                   && rows[j].section == "";
          assert rows[j] in rows;
        }
      }
      NonSplitMembers(rows);
      forall i | 0 <= i < |rows| && f[i].section == ""
        ensures !InSplitGroup(rows[i]) && |NonSplit(rows)| == 1
      {
        assert rows[i] in NonSplit(rows);
      }
    }
  }

  /** An accepted group comes back ordered by section, as a rearrangement of the
      filled rows, and a row without a section is never a split-teaching row. */
  lemma GroupSectionsOrdered(rows: seq<GroupRow>)
    requires GroupSections(rows).Ok?
    ensures var r := GroupSections(rows).value;
      && SortedBy(r, SectionLe)
      && multiset(r) == multiset(SectionsFilled(rows).value)
      && (forall x :: x in r && x.section == "" ==> !InSplitGroup(x) && |NonSplit(rows)| == 1)
  {
    var f := SectionsFilled(rows).value;
    SectionLeTotalPreorder();
    SortBySorted(f, SectionLe);
    FilledSections(rows);
    var r := GroupSections(rows).value;
    forall x | x in r && x.section == ""
      ensures !InSplitGroup(x) && |NonSplit(rows)| == 1
    {
      assert x in multiset(f);
      var i :| 0 <= i < |f| && f[i] == x;
    }
  }

  /** A split-teaching row without a section beside a single row outside any split
      group: the split row gets "A" and the other keeps its empty section, which
      sorts first. */
  lemma LoneRowBesideSplitGroup(splitId: string, t1: string, t2: string)
    requires splitId != ""
    ensures GroupSections([GroupRow("", Some(splitId), t1), GroupRow("", None, t2)])
            == Ok([GroupRow("", None, t2), GroupRow("A", Some(splitId), t1)])
  {
    var filled := [GroupRow("A", Some(splitId), t1), GroupRow("", None, t2)];
    LoneRowFilled(splitId, t1, t2);
    assert filled[..1] == [filled[0]] && filled[..0] == [];
    assert SortBy(filled[..1], SectionLe) == [filled[0]];
    assert !SectionLe(filled[0], filled[1]);
    assert SortBy(filled, SectionLe) == InsertBy(filled[1], [filled[0]], SectionLe);
    assert InsertBy(filled[1], [filled[0]], SectionLe) == [filled[1], filled[0]];
  }

  lemma LoneRowFilled(splitId: string, t1: string, t2: string)
    requires splitId != ""
    ensures SectionsFilled([GroupRow("", Some(splitId), t1), GroupRow("", None, t2)])
            == Ok([GroupRow("A", Some(splitId), t1), GroupRow("", None, t2)])
  {
    var rows := [GroupRow("", Some(splitId), t1), GroupRow("", None, t2)];
    assert rows[..1] == [rows[0]] && rows[..0] == [];
    assert NonSplit(rows) == [rows[1]];
    assert !MissingSections(rows);
    var missing := MissingSplitGroups(rows);
    assert splitId in missing by {
      assert rows[0] in rows;
    }
    var filled := [GroupRow("A", Some(splitId), t1), rows[1]];
    assert FillSplitGroup(rows[0], missing) == filled[0];
    assert FillSplitGroup(rows[1], missing) == filled[1];
    assert seq(|rows|, i requires 0 <= i < |rows| => FillSplitGroup(rows[i], missing)) == filled;
  }

  // ---------------------------------------------------------------------------
  // The Course cell of a DSC/DSE row
  // ---------------------------------------------------------------------------

  /** Lines 472-473: whitespace collapsed, split on '+', each part stripped. */
  function CourseParts(cell: string): (parts: seq<string>)
    ensures |parts| == Count(cell, '+') + 1
  {
    var raw := Split(NormalizeSpaces(Strip(cell)), '+');
    PlusCount(cell);
    seq(|raw|, i requires 0 <= i < |raw| => Strip(raw[i]))
  }

  /** Collapsing and stripping whitespace keeps every '+'. */
  lemma PlusCount(cell: string)
    ensures |Split(NormalizeSpaces(Strip(cell)), '+')| == Count(cell, '+') + 1
  {
    SplitCount(NormalizeSpaces(Strip(cell)), '+');
    CountNormalize(Strip(cell), '+');
    CountStrip(cell, '+');
  }

  /** A row is merged across courses exactly when its Course cell contains '+'. */
  lemma MergedIffPlus(cell: string)
    ensures |CourseParts(cell)| > 1 <==> '+' in cell
  {
    CountZero(cell, '+');
  }

  /** What one copy of a DSC/DSE row records about its course. */
  datatype CourseCopy = CourseCopy(course: string, isMerged: bool, mergeGroupId: Option<string>)

  /** `f"merge_{semester}_{subject_name}_{idx}"`. */
  function MergeGroupId(semester: int, subjectName: string, idx: nat): string {
    "merge_" + IntToString(semester) + "_" + subjectName + "_" + IntToString(idx)
  }

  /** Rows at different positions of the sheet get different merge group ids. */
  lemma MergeGroupIdsDistinct(semester: int, subjectName: string, i: nat, j: nat)
    ensures MergeGroupId(semester, subjectName, i) == MergeGroupId(semester, subjectName, j) <==> i == j
  {
    var p := "merge_" + IntToString(semester) + "_" + subjectName + "_";
    assert MergeGroupId(semester, subjectName, i) == p + IntToString(i);
    assert MergeGroupId(semester, subjectName, j) == p + IntToString(j);
    if MergeGroupId(semester, subjectName, i) == MergeGroupId(semester, subjectName, j) {
      assert IntToString(i) == (p + IntToString(i))[|p|..];
      assert IntToString(j) == (p + IntToString(j))[|p|..];
      ParseIntOfIntToString(i);
      ParseIntOfIntToString(j);
    }
  }

  /** Lines 472-484: one copy per course part, each under its full course name;
      the copies are merged, and share the row's merge group id, exactly when the
      cell names more than one course. */
  method ExpandCourse(cell: string, semester: int, subjectName: string, idx: nat)
    returns (copies: seq<CourseCopy>)
    ensures |copies| == Count(cell, '+') + 1
    ensures forall i :: 0 <= i < |copies| ==>
              copies[i].course == ConfigV2.GetFullCourseName(CourseParts(cell)[i])
    ensures forall i :: 0 <= i < |copies| ==> copies[i].isMerged == ('+' in cell)
    ensures forall i :: 0 <= i < |copies| ==>
              copies[i].mergeGroupId
              == if '+' in cell then Some(MergeGroupId(semester, subjectName, idx)) else None
  {
    var parts := CourseParts(cell);
    MergedIffPlus(cell);
    var isMerged := |parts| > 1;
    assert isMerged == ('+' in cell);
    var mergeGroupId := if isMerged then Some(MergeGroupId(semester, subjectName, idx)) else None;
    copies := CopiesOf(parts, isMerged, mergeGroupId);
    assert |copies| == |parts| == Count(cell, '+') + 1;
  }

  /** Lines 478-484: one copy per course part, under its full course name. */
  method CopiesOf(parts: seq<string>, isMerged: bool, mergeGroupId: Option<string>)
    returns (copies: seq<CourseCopy>)
    ensures |copies| == |parts|
    ensures forall k :: 0 <= k < |parts| ==>
              copies[k] == CourseCopy(ConfigV2.GetFullCourseName(parts[k]), isMerged, mergeGroupId)
  {
    copies := [];
    var i := 0;
    while i < |parts|
      invariant 0 <= i <= |parts| && |copies| == i
      invariant forall k :: 0 <= k < i ==>
                  copies[k] == CourseCopy(ConfigV2.GetFullCourseName(parts[k]), isMerged, mergeGroupId)
    {
      copies := copies + [CourseCopy(ConfigV2.GetFullCourseName(parts[i]), isMerged, mergeGroupId)];
      i := i + 1;
    }
  }

  // ---------------------------------------------------------------------------
  // Course_Semester identifiers
  // ---------------------------------------------------------------------------

  /** Lines 646-653: "{course}-Sem{n}-{section}", or, without a section, the
      subject name with its spaces removed and cut to 20 characters. */
  function CourseSemesterId(course: string, semester: int, section: string, subjectName: string): string {
    var prefix := course + "-Sem" + IntToString(semester) + "-";
    if section != "" then prefix + section else prefix + Take(RemoveChar(subjectName, ' '), 20)
  }

  /** Lines 533-537: the identifier of a GE/SEC/VAC/AEC section, with the subject
      name cut to 15 characters. */
  function CommonCourseSemesterId(subjectType: string, semester: int, subjectName: string, section: string): string {
    "COMMON-" + subjectType + "-Sem" + IntToString(semester) + "-"
    + Take(RemoveChar(subjectName, ' '), 15) + "-Sec" + section
  }

  /** Within one course and semester, sectioned rows share an identifier exactly
      when they name the same section. */
  lemma CourseSemesterIdSections(course: string, semester: int, s1: string, s2: string, name1: string, name2: string)
    requires s1 != "" && s2 != ""
    ensures CourseSemesterId(course, semester, s1, name1) == CourseSemesterId(course, semester, s2, name2)
            <==> s1 == s2
  {
    var prefix := course + "-Sem" + IntToString(semester) + "-";
    if CourseSemesterId(course, semester, s1, name1) == CourseSemesterId(course, semester, s2, name2) {
      assert s1 == (prefix + s1)[|prefix|..];
      assert s2 == (prefix + s2)[|prefix|..];
    }
  }

  /** The sections of one GE/SEC/VAC/AEC subject get distinct identifiers. */
  lemma CommonIdSections(subjectType: string, semester: int, subjectName: string, s1: string, s2: string)
    ensures (CommonCourseSemesterId(subjectType, semester, subjectName, s1)
             == CommonCourseSemesterId(subjectType, semester, subjectName, s2)) <==> s1 == s2
  {
    var prefix := "COMMON-" + subjectType + "-Sem" + IntToString(semester) + "-"
                  + Take(RemoveChar(subjectName, ' '), 15) + "-Sec";
    assert CommonCourseSemesterId(subjectType, semester, subjectName, s1) == prefix + s1;
    assert CommonCourseSemesterId(subjectType, semester, subjectName, s2) == prefix + s2;
    if prefix + s1 == prefix + s2 {
      assert s1 == (prefix + s1)[|prefix|..];
      assert s2 == (prefix + s2)[|prefix|..];
    }
  }

  /** Without a section the identifier ends in at most 20 characters of the
      subject name, none of them a space. */
  lemma UnsectionedId(course: string, semester: int, subjectName: string)
    ensures var prefix := course + "-Sem" + IntToString(semester) + "-";
      var id := CourseSemesterId(course, semester, "", subjectName);
      && prefix <= id && |id| - |prefix| <= 20
      && (forall k :: |prefix| <= k < |id| ==> id[k] != ' ' && id[k] in subjectName)
  {
    var prefix := course + "-Sem" + IntToString(semester) + "-";
    var tail := Take(RemoveChar(subjectName, ' '), 20);
    var id := prefix + tail;
    forall k | |prefix| <= k < |id|
      ensures id[k] != ' ' && id[k] in subjectName
    {
      assert id[k] == tail[k - |prefix|];
      assert tail[k - |prefix|] in RemoveChar(subjectName, ' ');
    }
  }

  // ---------------------------------------------------------------------------
  // A repeated subject must name its sections (lines 586-625)
  // ---------------------------------------------------------------------------

  /** A sheet row as the checks read it: Course, Semester, Subject, Subject_type and
      Section cells, already stripped and upper-cased where the loader does so. */
  datatype SheetRow = SheetRow(course: string, semester: int, subject: string, subjectType: string, section: string)

  /** Lines 591-604: a blank course counts as "COMMON"; a merged cell is grouped
      under its first course. */
  function RepetitionCourse(cell: string): string {
    var c := if Strip(cell) == "" then "COMMON" else Strip(cell);
    var first := if '+' in c then Strip(Split(c, '+')[0]) else c;
    ConfigV2.GetFullCourseName(first)
  }

  function RepetitionKey(r: SheetRow): (string, int, string, string) {
    (RepetitionCourse(r.course), r.semester, r.subject, r.subjectType)
  }

  /** Two rows share a key and one of them names no section. */
  predicate UnsectionedRepeat(rows: seq<SheetRow>) {
    exists i, j :: 0 <= i < |rows| && 0 <= j < |rows| && i != j
                   && RepetitionKey(rows[i]) == RepetitionKey(rows[j]) && rows[i].section == ""
  }

  /** The (section, row) pairs of one key, as `subject_repetition_check` holds them. */
  type Entries = seq<(string, nat)>

  /** `groups` holds, for each of the first `n` keys, the (section, row) pairs of
      the rows with that key, in row order. */
  ghost predicate GroupedBy<K(!new)>(keys: seq<K>, sections: seq<string>, n: nat, groups: map<K, Entries>) {
    && n <= |keys| == |sections|
    && (forall k :: k in groups <==> exists m :: 0 <= m < n && keys[m] == k)
    && (forall k, e: (string, nat) :: k in groups ==>
          (e in groups[k] <==> e.1 < n && keys[e.1] == k && e.0 == sections[e.1]))
    && (forall k :: k in groups ==>
          forall a, b :: 0 <= a < b < |groups[k]| ==> groups[k][a].1 < groups[k][b].1)
  }

  /** A key seen more than once with some row lacking a section. */
  predicate Unsectioned(entries: Entries) {
    |entries| > 1 && exists e :: e in entries && e.0 == ""
  }

  /** Lines 588-608: the rows grouped by key. */
  method GroupByKey<K(==,!new)>(keys: seq<K>, sections: seq<string>) returns (groups: map<K, Entries>)
    requires |keys| == |sections|
    ensures GroupedBy(keys, sections, |keys|, groups)
  {
    groups := map[];
    var i := 0;
    while i < |keys|
      invariant 0 <= i <= |keys|
      invariant GroupedBy(keys, sections, i, groups)
      invariant forall k :: k in groups ==> forall a :: 0 <= a < |groups[k]| ==> groups[k][a].1 < i
    {
      GroupedStep(keys, sections, i, groups);
      var key := keys[i];
      var entries := if key in groups then groups[key] else [];
      groups := groups[key := entries + [(sections[i], i)]];
      i := i + 1;
    }
  }

  lemma GroupedStep<K(!new)>(keys: seq<K>, sections: seq<string>, i: nat, groups: map<K, Entries>)
    requires i < |keys| && GroupedBy(keys, sections, i, groups)
    requires forall k :: k in groups ==> forall a :: 0 <= a < |groups[k]| ==> groups[k][a].1 < i
    ensures var key := keys[i];
      var g := groups[key := (if key in groups then groups[key] else []) + [(sections[i], i)]];
      && GroupedBy(keys, sections, i + 1, g)
      && forall k :: k in g ==> forall a :: 0 <= a < |g[k]| ==> g[k][a].1 < i + 1
  {
    var key := keys[i];
    var old_: Entries := if key in groups then groups[key] else [];
    var g: map<K, Entries> := groups[key := old_ + [(sections[i], i)]];
    GroupedStepOrder(keys, sections, i, groups, old_, g);
    GroupedStepMembers(keys, sections, i, groups, old_, g);
    GroupedStepKeys(keys, sections, i, groups, g);
  }

  lemma GroupedStepOrder<K(!new)>(keys: seq<K>, sections: seq<string>, i: nat, groups: map<K, Entries>,
                                  old_: Entries, g: map<K, Entries>)
    requires i < |keys| && GroupedBy(keys, sections, i, groups)
    requires forall k :: k in groups ==> forall a :: 0 <= a < |groups[k]| ==> groups[k][a].1 < i
    requires old_ == (if keys[i] in groups then groups[keys[i]] else [])
    requires g == groups[keys[i] := old_ + [(sections[i], i)]]
    ensures forall k :: k in g ==> forall a, b :: 0 <= a < b < |g[k]| ==> g[k][a].1 < g[k][b].1
    ensures forall k :: k in g ==> forall a :: 0 <= a < |g[k]| ==> g[k][a].1 < i + 1
  {
    forall k | k in g
      ensures forall a, b :: 0 <= a < b < |g[k]| ==> g[k][a].1 < g[k][b].1
      ensures forall a :: 0 <= a < |g[k]| ==> g[k][a].1 < i + 1
    {
      if k == keys[i] {
        assert g[k] == old_ + [(sections[i], i)];
      }
    }
  }

  lemma GroupedStepMembers<K(!new)>(keys: seq<K>, sections: seq<string>, i: nat, groups: map<K, Entries>,
                                    old_: Entries, g: map<K, Entries>)
    requires i < |keys| && GroupedBy(keys, sections, i, groups)
    requires forall k :: k in groups ==> forall a :: 0 <= a < |groups[k]| ==> groups[k][a].1 < i
    requires old_ == (if keys[i] in groups then groups[keys[i]] else [])
    requires g == groups[keys[i] := old_ + [(sections[i], i)]]
    ensures forall k, e: (string, nat) :: k in g ==>
      (e in g[k] <==> e.1 < i + 1 && keys[e.1] == k && e.0 == sections[e.1])
  {
    forall k, e: (string, nat) | k in g
      ensures e in g[k] <==> e.1 < i + 1 && keys[e.1] == k && e.0 == sections[e.1]
    {
      if k == keys[i] {
        assert g[k] == old_ + [(sections[i], i)];
        if e.1 < i && keys[e.1] == k {
          assert k in groups;
        }
      }
    }
  }

  lemma GroupedStepKeys<K(!new)>(keys: seq<K>, sections: seq<string>, i: nat, groups: map<K, Entries>,
                                 g: map<K, Entries>)
    requires i < |keys| && GroupedBy(keys, sections, i, groups)
    requires g.Keys == groups.Keys + {keys[i]}
    ensures forall k :: k in g <==> exists m :: 0 <= m < i + 1 && keys[m] == k
  {
    forall k
      ensures k in g <==> exists m :: 0 <= m < i + 1 && keys[m] == k
    {
      if k in groups {
        var m :| 0 <= m < i && keys[m] == k;
      }
      if k == keys[i] {
        assert keys[i] == k;
      }
    }
  }

  /** Two positions share a key and the first has no section. */
  predicate SharedWithoutSection<K(==)>(keys: seq<K>, sections: seq<string>)
    requires |keys| == |sections|
  {
    exists i, j :: 0 <= i < |keys| && 0 <= j < |keys| && i != j && keys[i] == keys[j] && sections[i] == ""
  }

  function RepetitionKeys(rows: seq<SheetRow>): (keys: seq<(string, int, string, string)>)
    ensures |keys| == |rows| && forall i :: 0 <= i < |rows| ==> keys[i] == RepetitionKey(rows[i])
  {
    seq(|rows|, i requires 0 <= i < |rows| => RepetitionKey(rows[i]))
  }

  function SectionsOf(rows: seq<SheetRow>): (sections: seq<string>)
    ensures |sections| == |rows| && forall i :: 0 <= i < |rows| ==> sections[i] == rows[i].section
  {
    seq(|rows|, i requires 0 <= i < |rows| => rows[i].section)
  }

  lemma UnsectionedRepeatKeys(rows: seq<SheetRow>)
    ensures UnsectionedRepeat(rows) <==> SharedWithoutSection(RepetitionKeys(rows), SectionsOf(rows))
  {
    var keys := RepetitionKeys(rows);
    var sections := SectionsOf(rows);
    if UnsectionedRepeat(rows) {
      var i, j :| 0 <= i < |rows| && 0 <= j < |rows| && i != j
                  && RepetitionKey(rows[i]) == RepetitionKey(rows[j]) && rows[i].section == "";
      assert keys[i] == keys[j] && sections[i] == "";
    }
    if SharedWithoutSection(keys, sections) {
      var i, j :| 0 <= i < |keys| && 0 <= j < |keys| && i != j && keys[i] == keys[j] && sections[i] == "";
      assert RepetitionKey(rows[i]) == RepetitionKey(rows[j]) && rows[i].section == "";
    }
  }

  /** Two rows share a key, one of them without a section, exactly when some key's
      group is unsectioned. */
  lemma GroupsRepeat<K(!new)>(keys: seq<K>, sections: seq<string>, groups: map<K, Entries>)
    requires GroupedBy(keys, sections, |keys|, groups)
    ensures SharedWithoutSection(keys, sections) <==> exists k :: k in groups && Unsectioned(groups[k])
  {
    if SharedWithoutSection(keys, sections) {
      var a, b :| 0 <= a < |keys| && 0 <= b < |keys| && a != b && keys[a] == keys[b] && sections[a] == "";
      var k := keys[a];
      assert (sections[a], a) in groups[k];
      assert (sections[b], b) in groups[k];
      assert Unsectioned(groups[k]);
    }
    if exists k :: k in groups && Unsectioned(groups[k]) {
      var k :| k in groups && Unsectioned(groups[k]);
      var g := groups[k];
      var e :| e in g && e.0 == "";
      var other := if g[0] == e then g[1] else g[0];
      assert other in g;
      assert other.1 != e.1 by {
        if g[0] == e {
          assert g[0].1 < g[1].1;
        } else {
          var x :| 0 <= x < |g| && g[x] == e;
          if x != 0 {
            assert g[0].1 < g[x].1;
          }
        }
      }
      assert keys[e.1] == keys[other.1];
    }
  }

  /** Lines 588-625: a key with more than one row and some row without a section
      raises ValueError; otherwise the check passes. */
  method CheckRepeatedSections(rows: seq<SheetRow>) returns (result: Result<bool, PyError>)
    ensures result.Err? <==> UnsectionedRepeat(rows)
    ensures result.Ok? ==> result.value
  {
    var keys := RepetitionKeys(rows);
    var sections := SectionsOf(rows);
    var groups := GroupByKey(keys, sections);
    GroupsRepeat(keys, sections, groups);
    UnsectionedRepeatKeys(rows);
    var found := FindUnsectioned(groups);
    if found {
      return Err(ValueError("Missing sections for repeated subject"));
    }
    result := Ok(true);
  }

  /** Lines 610-625: the scan over the groups for one that is unsectioned. */
  method FindUnsectioned<K(==)>(groups: map<K, Entries>) returns (found: bool)
    ensures found <==> exists k :: k in groups && Unsectioned(groups[k])
  {
    var pending := groups.Keys;
    while pending != {}
      invariant pending <= groups.Keys
      invariant forall k :: k in groups && k !in pending ==> !Unsectioned(groups[k])
      decreases |pending|
    {
      var k :| k in pending;
      if |groups[k]| > 1 && exists e :: e in groups[k] && e.0 == "" {
        return true;
      }
      pending := pending - {k};
    }
    found := false;
  }

  // ---------------------------------------------------------------------------
  // Sections found against COURSE_SECTIONS (lines 857-904)
  // ---------------------------------------------------------------------------

  /** Lines 871-874: the full names of the courses a Course cell names. */
  function CellCourses(cell: string): (r: seq<string>)
    ensures |r| == |Split(Strip(cell), '+')|
  {
    var parts := Split(Strip(cell), '+');
    seq(|parts|, i requires 0 <= i < |parts| => ConfigV2.GetFullCourseName(Strip(parts[i])))
  }

  /** The courses a row counts toward: none when its Course cell is blank (GE/SEC/VAC/AEC). */
  function CountedCourses(r: SheetRow): seq<string> {
    if Strip(r.course) == "" then [] else CellCourses(r.course)
  }

  /** A row counts toward (course, semester) when one of its course parts names it. */
  predicate RowCounts(r: SheetRow, course: string, semester: int) {
    r.semester == semester && course in CountedCourses(r)
  }

  type SectionSets = map<(string, int), set<string>>

  /** Lines 873-881 for one row: each of its courses gets an entry, and the row's
      section joins it when non-empty. */
  method AddRowSections(found: SectionSets, courses: seq<string>, semester: int, section: string)
    returns (updated: SectionSets)
    ensures forall c, n :: (c, n) in updated <==> (c, n) in found || (n == semester && c in courses)
    ensures forall c, n, s :: (c, n) in updated ==>
              (s in updated[(c, n)] <==>
                 ((c, n) in found && s in found[(c, n)])
                 || (n == semester && c in courses && s == section && s != ""))
  {
    updated := found;
    var p := 0;
    while p < |courses|
      invariant 0 <= p <= |courses|
      invariant forall c, n :: (c, n) in updated <==> (c, n) in found || (n == semester && c in courses[..p])
      invariant forall c, n, s :: (c, n) in updated ==>
                  (s in updated[(c, n)] <==>
                     ((c, n) in found && s in found[(c, n)])
                     || (n == semester && c in courses[..p] && s == section && s != ""))
    {
      assert courses[..p + 1] == courses[..p] + [courses[p]];
      var key := (courses[p], semester);
      var sections := if key in updated then updated[key] else {};
      updated := updated[key := if section != "" then sections + {section} else sections];
      p := p + 1;
    }
    assert courses[..p] == courses;
  }

  /** Lines 857-881 over the rows' counted courses, semesters and sections. */
  method CollectSectionSets(courses: seq<seq<string>>, semesters: seq<int>, sections: seq<string>)
    returns (found: SectionSets)
    requires |courses| == |semesters| == |sections|
    ensures forall c, n :: (c, n) in found <==>
              exists i :: 0 <= i < |courses| && semesters[i] == n && c in courses[i]
    ensures forall c, n, s :: (c, n) in found ==>
              (s in found[(c, n)] <==>
                 s != "" && exists i :: 0 <= i < |courses| && semesters[i] == n && c in courses[i]
                                        && sections[i] == s)
  {
    found := map[];
    var i := 0;
    while i < |courses|
      invariant 0 <= i <= |courses|
      invariant forall c, n :: (c, n) in found <==>
                  exists m :: 0 <= m < i && semesters[m] == n && c in courses[m]
      invariant forall c, n, s :: (c, n) in found ==>
                  (s in found[(c, n)] <==>
                     s != "" && exists m :: 0 <= m < i && semesters[m] == n && c in courses[m]
                                            && sections[m] == s)
    {
      found := AddRowSections(found, courses[i], semesters[i], sections[i]);
      i := i + 1;
    }
  }

  /** Lines 857-881: the set of non-empty sections found per (course, semester). */
  method CollectSections(rows: seq<SheetRow>) returns (found: SectionSets)
    ensures forall c, n :: (c, n) in found <==> exists i :: 0 <= i < |rows| && RowCounts(rows[i], c, n)
    ensures forall c, n, s :: (c, n) in found ==>
              (s in found[(c, n)] <==>
                 s != "" && exists i :: 0 <= i < |rows| && RowCounts(rows[i], c, n) && rows[i].section == s)
  {
    var courses := seq(|rows|, i requires 0 <= i < |rows| => CountedCourses(rows[i]));
    var semesters := seq(|rows|, i requires 0 <= i < |rows| => rows[i].semester);
    var sections := SectionsOf(rows);
    found := CollectSectionSets(courses, semesters, sections);
    forall i | 0 <= i < |rows|
      ensures forall c, n :: RowCounts(rows[i], c, n) <==> semesters[i] == n && c in courses[i]
    {
    }
    forall c, n
      ensures (c, n) in found <==> exists i :: 0 <= i < |rows| && RowCounts(rows[i], c, n)
    {
      if (c, n) in found {
        var i :| 0 <= i < |rows| && semesters[i] == n && c in courses[i];
        assert RowCounts(rows[i], c, n);
      }
    }
    forall c, n, s | (c, n) in found
      ensures s in found[(c, n)] <==>
                s != "" && exists i :: 0 <= i < |rows| && RowCounts(rows[i], c, n) && rows[i].section == s
    {
      if s in found[(c, n)] {
        var i :| 0 <= i < |rows| && semesters[i] == n && c in courses[i] && sections[i] == s;
        assert RowCounts(rows[i], c, n);
      }
    }
  }

  /** The outcome of comparing one (course, semester) with the configuration. */
  datatype SectionVerdict =
    | Unconfigured            // the course or semester is not in COURSE_SECTIONS: not compared here
    | NoSections              // only unsectioned rows: skipped
    | CountMismatch(found: nat, expected: nat)   // an error
    | LettersDiffer           // a warning
    | SectionsAgree

  /** `set(get_section_letters(n))`. */
  function LetterSet(n: nat): (r: set<string>)
    requires n <= 3
  {
    set s | s in Grid.SectionLetters(n)
  }

  lemma {:induction false} LetterSetSize(n: nat)
    requires n <= 3
    ensures |LetterSet(n)| == n
  {
    if n > 0 {
      LetterSetSize(n - 1);
      var letter := [(65 + n - 1) as char];
      assert Grid.SectionLetters(n) == Grid.SectionLetters(n - 1) + [letter];
      assert LetterSet(n) == LetterSet(n - 1) + {letter};
    }
  }

  /** Lines 884-904 for one (course, semester). */
  function CompareSections(course: string, semester: int, found: set<string>): SectionVerdict {
    if course !in Grid.CourseSections || semester !in Grid.CourseSections[course] then Unconfigured
    else
      var expected := Grid.CourseSections[course][semester];
      Grid.CourseSectionsSmall(course, semester);
      if |found| == 0 then NoSections
      else if |found| != expected then CountMismatch(|found|, expected)
      else if found != LetterSet(expected) then LettersDiffer
      else SectionsAgree
  }

  /** For a configured course and semester, the sections agree exactly when some
      section was found and the set found is the first `expected` letters; a count
      error is raised exactly when the number of sections found differs. */
  lemma CompareSectionsMeaning(course: string, semester: int, found: set<string>)
    requires course in Grid.CourseSections && semester in Grid.CourseSections[course]
    ensures var expected := Grid.CourseSections[course][semester];
      && expected <= 3
      && (CompareSections(course, semester, found) == SectionsAgree
          <==> found != {} && found == LetterSet(expected))
      && (CompareSections(course, semester, found).CountMismatch?
          <==> found != {} && |found| != expected)
  {
    var expected := Grid.CourseSections[course][semester];
    Grid.CourseSectionsSmall(course, semester);
    LetterSetSize(expected);
  }
}

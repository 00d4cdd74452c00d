/**
 * The row checks and the expansion of the first-generation loader
 * (older_versions/1st_version/src/data_loader.py): the "Le,Tu,Pr" format check,
 * the per-row validation, and the expansion of each row into one entry per
 * section of its course, or a single COMMON entry for GE/SEC/VAC/AEC subjects.
 * A sheet row arrives as plain cells; an empty (NaN) cell is `None`.
 */
module LoaderV1 {
  import opened Wrappers
  import opened Text
  import Grid
  import ConfigV1
  import DataLoader
  import ConfigV2

  type Hours = DataLoader.Hours

  /** One spreadsheet row. `semester` is `None` unless pandas read the cell as an integer. */
  datatype SheetRow = SheetRow(
    course: Option<string>,
    semester: Option<int>,
    subject: Option<string>,
    teacher: Option<string>,
    hours: Option<string>,          // "Subject Hour Requirements(Le,Tu,Pr)"
    department: Option<string>,
    subjectType: Option<string>)

  /** `pd.isna(v) or str(v).strip() == ""`. */
  predicate IsBlank(cell: Option<string>) { cell.None? || Strip(cell.value) == "" }

  /** `str(v)`: an empty cell reads "nan". */
  function CellText(cell: Option<string>): string { if cell.None? then "nan" else cell.value }

  /** The Subject_type cell stripped and upper-cased, "" when the cell is empty. */
  function SubjectTypeOf(row: SheetRow): string {
    if row.subjectType.None? then "" else Upper(Strip(row.subjectType.value))
  }

  /** The stripped hours cell. */
  function HourText(row: SheetRow): string { Strip(CellText(row.hours)) }

  // ---------------------------------------------------------------------------
  // `_validate_hour_format`
  // ---------------------------------------------------------------------------

  /** Exactly three comma-separated parts, each a non-negative integer once stripped. */
  predicate HourFormatValid(hourStr: string) {
    var parts := Split(hourStr, ',');
    |parts| == 3 && NonNegativeInt(parts[0]) && NonNegativeInt(parts[1]) && NonNegativeInt(parts[2])
  }

  /** `int(part.strip())` succeeds with a value of at least 0. */
  predicate NonNegativeInt(part: string) {
    var v := ParseInt(Strip(part));
    v.Some? && v.value >= 0
  }

  /** Every part checked so far passed. */
  predicate AllNonNegative(parts: seq<string>)
    decreases |parts|
  {
    parts == [] || (AllNonNegative(parts[..|parts| - 1]) && NonNegativeInt(parts[|parts| - 1]))
  }

  lemma AllNonNegativeStep(parts: seq<string>, k: nat)
    requires k < |parts|
    ensures AllNonNegative(parts[..k + 1]) == (AllNonNegative(parts[..k]) && NonNegativeInt(parts[k]))
  {
    var p := parts[..k + 1];
    assert p[..|p| - 1] == parts[..k] && p[|p| - 1] == parts[k];
  }

  lemma AllNonNegativeThree(parts: seq<string>)
    requires |parts| == 3
    ensures AllNonNegative(parts) <==>
      NonNegativeInt(parts[0]) && NonNegativeInt(parts[1]) && NonNegativeInt(parts[2])
  {
    var p2, p1, p0 := parts[..2], parts[..1], parts[..0];
    assert p2[..1] == p1 && p1[..0] == p0 && p0 == [];
    assert p2[1] == parts[1] && p1[0] == parts[0] && parts[..3] == parts;
    assert AllNonNegative(p0);
    assert AllNonNegative(p1) == NonNegativeInt(parts[0]);
    assert AllNonNegative(p2) == (AllNonNegative(p1) && NonNegativeInt(parts[1]));
    assert AllNonNegative(parts) == (AllNonNegative(p2) && NonNegativeInt(parts[2]));
  }

  /** Lines 154-168: the cell is split on ',' and the parts are checked. */
  method ValidateHourFormat(hourStr: string) returns (ok: bool)
    ensures ok <==> HourFormatValid(hourStr)
  {
    var parts := Split(hourStr, ',');
    ok := ValidateHourParts(parts);
    if |parts| == 3 {
      AllNonNegativeThree(parts);
    }
  }

  /** Lines 157-166: three parts are required, and each is checked in turn; a part
      that `int()` rejects (the caught exception) or that is negative fails. */
  method ValidateHourParts(parts: seq<string>) returns (ok: bool)
    ensures ok <==> |parts| == 3 && AllNonNegative(parts)
  {
    if |parts| != 3 {
      return false;
    }
    assert parts[..0] == [];
    for k := 0 to 3
      invariant AllNonNegative(parts[..k])
    {
      if !NonNegativeInt(parts[k]) {
        AllNonNegativeFails(parts, k);
        return false;
      }
      AllNonNegativeStep(parts, k);
    }
    assert parts[..3] == parts;
    return true;
  }

  /** One failing part makes the whole check fail. */
  lemma AllNonNegativeFails(parts: seq<string>, k: nat)
    requires k < |parts| && !NonNegativeInt(parts[k])
    ensures !AllNonNegative(parts)
  {
    AllNonNegativePrefix(parts, k + 1);
    AllNonNegativeStep(parts, k);
  }

  /** A part that fails makes every longer prefix fail. */
  lemma {:induction false} AllNonNegativePrefix(parts: seq<string>, n: nat)
    requires n <= |parts|
    ensures AllNonNegative(parts) ==> AllNonNegative(parts[..n])
    decreases |parts| - n
  {
    if n < |parts| {
      AllNonNegativePrefix(parts, n + 1);
      AllNonNegativeStep(parts, n);
    } else {
      assert parts[..n] == parts;
    }
  }

  /** The format check accepts exactly what the expansion's unpacking parses into a
      non-negative triple. */
  lemma HourFormatParses(hourStr: string)
    ensures HourFormatValid(hourStr) <==>
      DataLoader.ParseTriple(hourStr).Some? && DataLoader.NonNegative(DataLoader.ParseTriple(hourStr).value)
  {
    PartsParse(Split(hourStr, ','));
  }

  lemma PartsParse(parts: seq<string>)
    ensures var fields := DataLoader.StripAll(parts);
      (|parts| == 3 && NonNegativeInt(parts[0]) && NonNegativeInt(parts[1]) && NonNegativeInt(parts[2])) <==>
      && |fields| == 3
      && ParseInt(fields[0]).Some? && ParseInt(fields[1]).Some? && ParseInt(fields[2]).Some?
      && ParseInt(fields[0]).value >= 0 && ParseInt(fields[1]).value >= 0 && ParseInt(fields[2]).value >= 0
  {
    var fields := DataLoader.StripAll(parts);
    if |parts| == 3 {
      assert fields[0] == Strip(parts[0]) && fields[1] == Strip(parts[1]) && fields[2] == Strip(parts[2]);
    }
  }

  /** A triple written as "le,tu,pr" passes the check exactly when it is non-negative. */
  lemma FormattedHoursAccepted(h: Hours)
    ensures HourFormatValid(DataLoader.FormatHours(h)) <==> DataLoader.NonNegative(h)
  {
    DataLoader.ParseTripleOfFormat(h);
    HourFormatParses(DataLoader.FormatHours(h));
  }

  // ---------------------------------------------------------------------------
  // `_validate_row`
  // ---------------------------------------------------------------------------

  /** Why a row is rejected, in the order the checks are made. */
  datatype RowIssue =
    | SemesterNotNumber
    | EmptyValue(column: string)
    | CourseRequired
    | BadHourFormat
    | UnknownSubjectType
    | TypeNotAllowed
    | UnknownCourse
    | SemesterNotConfigured

  /** Lines 105-110: the first empty text column. The Semester column is on the same
      list in `_validate_row` but cannot be empty once it holds an integer. */
  function BlankCellIssue(row: SheetRow): Option<RowIssue> {
    if IsBlank(row.subject) then Some(EmptyValue("Subject"))
    else if IsBlank(row.teacher) then Some(EmptyValue("Teacher"))
    else if IsBlank(row.hours) then Some(EmptyValue("Subject Hour Requirements(Le,Tu,Pr)"))
    else if IsBlank(row.department) then Some(EmptyValue("Department"))
    else None
  }

  /** Lines 112-150, once the cells are present: the course, the hours and the type. */
  function ContentIssue(row: SheetRow, semester: int): Option<RowIssue> {
    var subjectType := SubjectTypeOf(row);
    if IsBlank(row.course) && subjectType !in Grid.FixedSlotTypes then Some(CourseRequired)
    else if !HourFormatValid(HourText(row)) then Some(BadHourFormat)
    else if row.subjectType.Some? && subjectType !in Grid.SubjectTypes then Some(UnknownSubjectType)
    else if row.subjectType.Some? && subjectType !in Grid.AllowedSubjectTypes(semester) then Some(TypeNotAllowed)
    else if !IsBlank(row.course) && Strip(row.course.value) !in Grid.CourseSections then Some(UnknownCourse)
    else if !IsBlank(row.course) && semester !in Grid.CourseSections[Strip(row.course.value)] then
      Some(SemesterNotConfigured)
    else None
  }

  /** Lines 92-150: the first check the row fails, or `None` when it passes. */
  function RowIssueOf(row: SheetRow): Option<RowIssue> {
    if row.semester.None? then Some(SemesterNotNumber)
    else if BlankCellIssue(row).Some? then BlankCellIssue(row)
    else ContentIssue(row, row.semester.value)
  }

  /** What an accepted row is, with no regard to the order of the checks. */
  predicate RowAcceptable(row: SheetRow) {
    && row.semester.Some?
    && !IsBlank(row.subject) && !IsBlank(row.teacher) && !IsBlank(row.hours) && !IsBlank(row.department)
    && ContentAcceptable(row, row.semester.value)
  }

  predicate ContentAcceptable(row: SheetRow, semester: int) {
    && (IsBlank(row.course) ==> SubjectTypeOf(row) in Grid.FixedSlotTypes)
    && HourFormatValid(HourText(row))
    && (row.subjectType.Some? ==>
          SubjectTypeOf(row) in Grid.SubjectTypes && SubjectTypeOf(row) in Grid.AllowedSubjectTypes(semester))
    && (!IsBlank(row.course) ==>
          var course := Strip(row.course.value);
          course in Grid.CourseSections && semester in Grid.CourseSections[course])
  }

  /** A row passes the checks exactly when it meets every one of them; an empty
      Course cell is allowed only for GE/SEC/VAC/AEC, and a named course must be
      configured for the row's semester. */
  lemma RowIssueOfMeaning(row: SheetRow)
    ensures RowIssueOf(row).None? <==> RowAcceptable(row)
  {
    if row.semester.Some? {
      if BlankCellIssue(row).Some? {
        assert RowIssueOf(row) == BlankCellIssue(row);
        BlankCellIssueMeaning(row);
      } else {
        assert RowIssueOf(row) == ContentIssue(row, row.semester.value);
        BlankCellIssueMeaning(row);
        ContentIssueMeaning(row, row.semester.value);
      }
    }
  }

  lemma BlankCellIssueMeaning(row: SheetRow)
    ensures BlankCellIssue(row).None? <==>
      !IsBlank(row.subject) && !IsBlank(row.teacher) && !IsBlank(row.hours) && !IsBlank(row.department)
  {
  }

  lemma ContentIssueMeaning(row: SheetRow, semester: int)
    ensures ContentIssue(row, semester).None? <==> ContentAcceptable(row, semester)
  {
    var subjectType := SubjectTypeOf(row);
    if IsBlank(row.course) && subjectType !in Grid.FixedSlotTypes {
      assert ContentIssue(row, semester) == Some(CourseRequired);
    } else if !HourFormatValid(HourText(row)) {
      assert ContentIssue(row, semester) == Some(BadHourFormat);
    } else if row.subjectType.Some? && subjectType !in Grid.SubjectTypes {
      assert ContentIssue(row, semester) == Some(UnknownSubjectType);
    } else if row.subjectType.Some? && subjectType !in Grid.AllowedSubjectTypes(semester) {
      assert ContentIssue(row, semester) == Some(TypeNotAllowed);
    } else if IsBlank(row.course) {
      assert ContentIssue(row, semester).None?;
    } else {
      var course := Strip(row.course.value);
      if course !in Grid.CourseSections {
        assert ContentIssue(row, semester) == Some(UnknownCourse);
      } else if semester !in Grid.CourseSections[course] {
        assert ContentIssue(row, semester) == Some(SemesterNotConfigured);
      } else {
        assert ContentIssue(row, semester).None?;
      }
    }
  }

  // ---------------------------------------------------------------------------
  // `_parse_and_expand_subjects`
  // ---------------------------------------------------------------------------

  /** One expanded subject-section record. */
  datatype Entry = Entry(
    course: string,
    semester: int,
    subject: string,
    teacher: string,
    department: string,
    subjectType: string,
    lectureHours: int,
    tutorialHours: int,
    practicalHours: int,
    totalHours: int,
    labType: Option<string>,
    courseSemester: string,
    section: string,
    studentsCount: nat)

  /** `DEPARTMENT_LABS.get(department, "Lab-General")`. */
  function LabTypeOf(department: string): string {
    if department in ConfigV1.DepartmentLabs then ConfigV1.DepartmentLabs[department] else "Lab-General"
  }

  /** The COMMON record of a GE/SEC/VAC/AEC row (lines 199-217); the per-section
      records copy it and replace its course, section and identifier. */
  function CommonEntry(row: SheetRow, h: Hours, semester: int): Entry {
    var prHours := h.pr * 2;
    Entry(
      "COMMON", semester,
      NormalizeSpaces(Strip(CellText(row.subject))),
      NormalizeSpaces(Strip(CellText(row.teacher))),
      Strip(CellText(row.department)),
      SubjectTypeOf(row),
      h.le, h.tu, prHours, h.le + h.tu + prHours,
      if prHours > 0 then Some(LabTypeOf(Strip(CellText(row.department)))) else None,
      "COMMON-Sem" + IntToString(semester),
      "ALL",
      0)
  }

  /** The record of one section of a DSC/DSE row (lines 224-240). */
  function SectionEntry(common: Entry, course: string, letter: string): Entry {
    common.(course := course,
            courseSemester := course + "-Sem" + IntToString(common.semester) + "-" + letter,
            section := letter,
            studentsCount := ConfigV1.StudentsPerSection)
  }

  /** The course name a DSC/DSE row is expanded under: spaces collapsed. */
  function CourseKey(row: SheetRow): string { NormalizeSpaces(Strip(CellText(row.course))) }

  /** `COURSE_SECTIONS[course][semester]`, with the KeyError of a missing course or
      semester. */
  function SectionCount(course: string, semester: int): (r: Result<nat, PyError>)
    ensures r.Ok? ==> r.value <= 3
  {
    if course !in Grid.CourseSections then Err(KeyError(course))
    else if semester !in Grid.CourseSections[course] then Err(KeyError(IntToString(semester)))
    else
      Grid.CourseSectionsSmall(course, semester);
      Ok(Grid.CourseSections[course][semester])
  }

  /** The lookup succeeds exactly for a configured course and semester, with the
      configured number of sections. */
  lemma SectionCountMeaning(course: string, semester: int)
    ensures SectionCount(course, semester).Ok? <==>
      course in Grid.CourseSections && semester in Grid.CourseSections[course]
    ensures SectionCount(course, semester).Ok? ==>
      SectionCount(course, semester).value == Grid.CourseSections[course][semester]
  {
  }

  /** One record per letter of `get_section_letters(n)` (lines 219-241). */
  function SectionEntries(common: Entry, course: string, n: nat): (r: seq<Entry>)
    requires n <= 3
    ensures |r| == n
    ensures forall i :: 0 <= i < n ==> r[i] == SectionEntry(common, course, [(65 + i) as char])
  {
    var letters := Grid.SectionLetters(n);
    seq(|letters|, i requires 0 <= i < |letters| => SectionEntry(common, course, letters[i]))
  }

  /** Lines 174-241 for one row. Unpacking the hours and `int(Semester)` raise
      ValueError; looking up an unconfigured course or semester raises KeyError. */
  function ExpandRow(row: SheetRow): Result<seq<Entry>, PyError> {
    var h := DataLoader.ParseTriple(HourText(row));
    if h.None? then Err(ValueError("invalid Le,Tu,Pr hours"))
    else if row.semester.None? then Err(ValueError("Semester is not an integer"))
    else ExpandParsed(row, h.value, row.semester.value)
  }

  /** Lines 181-241, once the hours and the semester are read. */
  function ExpandParsed(row: SheetRow, h: Hours, semester: int): Result<seq<Entry>, PyError> {
    var common := CommonEntry(row, h, semester);
    if SubjectTypeOf(row) in Grid.FixedSlotTypes then Ok([common])
    else
      match SectionCount(CourseKey(row), semester)
      case Err(e) => Err(e)
      case Ok(n) => Ok(SectionEntries(common, CourseKey(row), n))
  }

  lemma ExpandRowParsed(row: SheetRow, h: Hours)
    requires DataLoader.ParseTriple(HourText(row)) == Some(h)
    ensures ExpandRow(row) ==
      if row.semester.None? then Err(ValueError("Semester is not an integer"))
      else ExpandParsed(row, h, row.semester.value)
  {
  }

  /** Every record of a row carries Practical_hours = 2·pr and Total_hours =
      le + tu + 2·pr, and a lab type exactly when it has practical hours. */
  lemma ExpandRowHours(row: SheetRow, h: Hours)
    requires DataLoader.ParseTriple(HourText(row)) == Some(h)
    ensures ExpandRow(row).Ok? ==>
      var entries := ExpandRow(row).value;
      forall i :: 0 <= i < |entries| ==>
        && entries[i].lectureHours == h.le && entries[i].tutorialHours == h.tu
        && entries[i].practicalHours == 2 * h.pr
        && entries[i].totalHours == h.le + h.tu + 2 * h.pr
        && (entries[i].labType.Some? <==> h.pr > 0)
  {
    ExpandRowParsed(row, h);
    if row.semester.Some? {
      ExpandParsedHours(row, h, row.semester.value);
    }
  }

  lemma ExpandParsedHours(row: SheetRow, h: Hours, semester: int)
    ensures ExpandParsed(row, h, semester).Ok? ==>
      var entries := ExpandParsed(row, h, semester).value;
      forall i :: 0 <= i < |entries| ==>
        && entries[i].lectureHours == h.le && entries[i].tutorialHours == h.tu
        && entries[i].practicalHours == 2 * h.pr
        && entries[i].totalHours == h.le + h.tu + 2 * h.pr
        && (entries[i].labType.Some? <==> h.pr > 0)
  {
    var common := CommonEntry(row, h, semester);
    if SubjectTypeOf(row) !in Grid.FixedSlotTypes {
      var n := SectionCount(CourseKey(row), semester);
      if n.Ok? {
        assert ExpandParsed(row, h, semester) == Ok(SectionEntries(common, CourseKey(row), n.value));
      }
    }
  }

  /** A GE/SEC/VAC/AEC row gives exactly one record: course "COMMON", section "ALL",
      identifier "COMMON-Sem{n}" and a student count of 0. */
  lemma ExpandCommonRow(row: SheetRow)
    requires SubjectTypeOf(row) in Grid.FixedSlotTypes
    requires DataLoader.ParseTriple(HourText(row)).Some? && row.semester.Some?
    ensures ExpandRow(row).Ok? && |ExpandRow(row).value| == 1
    ensures var e := ExpandRow(row).value[0];
      && e.course == "COMMON" && e.section == "ALL" && e.studentsCount == 0
      && e.courseSemester == "COMMON-Sem" + IntToString(row.semester.value)
  {
  }

  /** Any other row gives one record per configured section, the i-th with letter
      'A'+i, identifier "{course}-Sem{n}-{letter}" and the default student count. */
  lemma ExpandSectionRows(row: SheetRow)
    requires SubjectTypeOf(row) !in Grid.FixedSlotTypes && ExpandRow(row).Ok?
    ensures var course := CourseKey(row);
      var entries := ExpandRow(row).value;
      && row.semester.Some?
      && SectionCount(course, row.semester.value).Ok?
      && |entries| == SectionCount(course, row.semester.value).value
      && forall i :: 0 <= i < |entries| ==>
           && entries[i].course == course
           && entries[i].section == [(65 + i) as char]
           && entries[i].courseSemester == course + "-Sem" + IntToString(row.semester.value) + "-" + entries[i].section
           && entries[i].studentsCount == ConfigV1.StudentsPerSection
  {
  }

  /** The records of one row have pairwise distinct identifiers. */
  lemma ExpandedIdsDistinct(row: SheetRow, i: nat, j: nat)
    requires ExpandRow(row).Ok? && i < j < |ExpandRow(row).value|
    ensures ExpandRow(row).value[i].courseSemester != ExpandRow(row).value[j].courseSemester
  {
    var entries := ExpandRow(row).value;
    if SubjectTypeOf(row) in Grid.FixedSlotTypes {
      ExpandRowFails(row);
      ExpandCommonRow(row);
    } else {
      ExpandSectionRows(row);
      var prefix := CourseKey(row) + "-Sem" + IntToString(row.semester.value) + "-";
      LastCharDiffers(prefix, entries[i].section, entries[j].section);
    }
  }

  /** Two strings that end in different characters after a shared prefix differ. */
  lemma LastCharDiffers(prefix: string, a: string, b: string)
    requires |a| == 1 && |b| == 1 && a != b
    ensures prefix + a != prefix + b
  {
    assert (prefix + a)[|prefix|] == a[0];
    assert (prefix + b)[|prefix|] == b[0];
  }

  /** Expansion fails exactly when the hours do not unpack, the semester is not an
      integer, or a DSC/DSE row's course or semester is not configured. */
  lemma ExpandRowFails(row: SheetRow)
    ensures ExpandRow(row).Err? <==>
      || DataLoader.ParseTriple(HourText(row)).None?
      || row.semester.None?
      || (SubjectTypeOf(row) !in Grid.FixedSlotTypes && SectionCount(CourseKey(row), row.semester.value).Err?)
  {
  }

  /** A row that passed validation expands without error, provided its course name
      has no runs of inner spaces (every configured course name is written so). */
  lemma ValidatedRowExpands(row: SheetRow)
    requires RowIssueOf(row).None?
    requires !IsBlank(row.course) ==> NormalizeSpaces(Strip(row.course.value)) == Strip(row.course.value)
    ensures ExpandRow(row).Ok?
  {
    RowIssueOfMeaning(row);
    HourFormatParses(HourText(row));
  }

  /** The outcome of `f` on each row, in order. */
  function Results<R, T>(f: R -> Result<seq<T>, PyError>, rows: seq<R>): (r: seq<Result<seq<T>, PyError>>)
    ensures |r| == |rows|
  {
    if rows == [] then [] else Results(f, rows[..|rows| - 1]) + [f(rows[|rows| - 1])]
  }

  lemma {:induction false} ResultsAt<R, T>(f: R -> Result<seq<T>, PyError>, rows: seq<R>, i: nat)
    requires i < |rows|
    ensures Results(f, rows)[i] == f(rows[i])
    decreases |rows|
  {
    if i < |rows| - 1 {
      var init := rows[..|rows| - 1];
      ResultsAt(f, init, i);
      assert init[i] == rows[i];
    }
  }

  lemma ResultsPrefix<R, T>(f: R -> Result<seq<T>, PyError>, rows: seq<R>, n: nat)
    requires n < |rows|
    ensures Results(f, rows[..n + 1]) == Results(f, rows[..n]) + [f(rows[n])]
  {
    var p := rows[..n + 1];
    assert p[..|p| - 1] == rows[..n] && p[|p| - 1] == rows[n];
  }

  lemma {:induction false} ResultsTake<R, T>(f: R -> Result<seq<T>, PyError>, rows: seq<R>, k: nat)
    requires k <= |rows|
    ensures Results(f, rows[..k]) == Results(f, rows)[..k]
    decreases |rows| - k
  {
    if k < |rows| {
      ResultsTake(f, rows, k + 1);
      ResultsPrefix(f, rows, k);
      assert Results(f, rows)[..k + 1][..k] == Results(f, rows)[..k];
    } else {
      assert rows[..k] == rows;
    }
  }

  /** The records gathered in order, and the error that stopped the gathering. */
  function Gather<T>(results: seq<Result<seq<T>, PyError>>): (seq<T>, Option<PyError>)
  {
    if results == [] then ([], None)
    else
      var (done, err) := Gather(results[..|results| - 1]);
      if err.Some? then (done, err)
      else match results[|results| - 1]
        case Ok(entries) => (done + entries, None)
        case Err(e) => (done, Some(e))
  }

  lemma GatherSnoc<T>(results: seq<Result<seq<T>, PyError>>, r: Result<seq<T>, PyError>)
    ensures Gather(results + [r]) ==
      if Gather(results).1.Some? then Gather(results)
      else if r.Ok? then (Gather(results).0 + r.value, None)
      else (Gather(results).0, Some(r.error))
  {
    var xs := results + [r];
    assert xs[..|xs| - 1] == results && xs[|xs| - 1] == r;
  }

  /** Gathering ends without an error exactly when every result is a success. */
  lemma {:induction false} GatherAllOk<T>(results: seq<Result<seq<T>, PyError>>)
    ensures Gather(results).1.None? <==> forall i :: 0 <= i < |results| ==> results[i].Ok?
    decreases |results|
  {
    if results != [] {
      var init := results[..|results| - 1];
      GatherAllOk(init);
      assert forall i :: 0 <= i < |init| ==> init[i] == results[i];
    }
  }

  /** Once a prefix of the results has failed, the rest changes nothing. */
  lemma {:induction false} GatherStops<T>(results: seq<Result<seq<T>, PyError>>, n: nat)
    requires n <= |results| && Gather(results[..n]).1.Some?
    ensures Gather(results) == Gather(results[..n])
    decreases |results| - n
  {
    if n < |results| {
      GatherSnoc(results[..n], results[n]);
      assert results[..n] + [results[n]] == results[..n + 1];
      GatherStops(results, n + 1);
    } else {
      assert results[..n] == results;
    }
  }

  /** The first failing result decides the outcome: the records gathered before it
      and its error. */
  lemma GatherFirstError<T>(results: seq<Result<seq<T>, PyError>>, k: nat)
    requires k < |results| && results[k].Err?
    requires forall i :: 0 <= i < k ==> results[i].Ok?
    ensures Gather(results) == (Gather(results[..k]).0, Some(results[k].error))
  {
    GatherAllOk(results[..k]);
    GatherSnoc(results[..k], results[k]);
    assert results[..k] + [results[k]] == results[..k + 1];
    GatherStops(results, k + 1);
  }

  /** The records of the rows in order, and the error that stopped the expansion. */
  function ExpandAll(rows: seq<SheetRow>): (seq<Entry>, Option<PyError>) {
    Gather(Results(ExpandRow, rows))
  }

  /** The expansion ends without an error exactly when every row expands. */
  lemma ExpandAllOk(rows: seq<SheetRow>)
    ensures ExpandAll(rows).1.None? <==> forall i :: 0 <= i < |rows| ==> ExpandRow(rows[i]).Ok?
  {
    var results := Results(ExpandRow, rows);
    GatherAllOk(results);
    forall i | 0 <= i < |rows|
      ensures results[i] == ExpandRow(rows[i])
    {
      ResultsAt(ExpandRow, rows, i);
    }
  }

  /** The first failing row decides the outcome: the records of the rows before it,
      and its error. */
  lemma ExpandAllFirstError(rows: seq<SheetRow>, k: nat)
    requires k < |rows| && ExpandRow(rows[k]).Err?
    requires forall i :: 0 <= i < k ==> ExpandRow(rows[i]).Ok?
    ensures ExpandAll(rows) == (ExpandAll(rows[..k]).0, Some(ExpandRow(rows[k]).error))
  {
    var results := Results(ExpandRow, rows);
    forall i | 0 <= i <= k
      ensures results[i] == ExpandRow(rows[i])
    {
      ResultsAt(ExpandRow, rows, i);
    }
    GatherFirstError(results, k);
    ResultsTake(ExpandRow, rows, k);
  }

  /** The loader object; `subjects` is the list the expansion fills. */
  class Loader {
    var subjects: seq<Entry>

    constructor()
      ensures subjects == []
    {
      subjects := [];
    }

    /** Lines 172-241: `self.subjects` is emptied, then each row's records are
        appended in turn; an exception leaves what was appended before it. */
    method ParseAndExpand(rows: seq<SheetRow>) returns (err: Option<PyError>)
      modifies this
      ensures (subjects, err) == ExpandAll(rows)
    {
      subjects := [];
      err := None;
      var i := 0;
      assert rows[..0] == [];
      while i < |rows|
        invariant 0 <= i <= |rows|
        invariant (subjects, err) == ExpandAll(rows[..i])
        invariant err.None?
      {
        var r := ExpandRow(rows[i]);
        ResultsPrefix(ExpandRow, rows, i);
        GatherSnoc(Results(ExpandRow, rows[..i]), r);
        if r.Err? {
          err := Some(r.error);
          ResultsTake(ExpandRow, rows, i + 1);
          GatherStops(Results(ExpandRow, rows), i + 1);
          return;
        }
        subjects := subjects + r.value;
        i := i + 1;
      }
      assert rows[..i] == rows;
    }
  }
}

/**
 * The allocation steps that follow the CP-SAT solve in project/src/solver_engine.py
 * (and its byte-identical copy in project_2): the subject identifier, the
 * assistant teachers sent to large practical batches, and first-fit room numbers.
 *
 * The solved timetable reaches `_assign_assistants` as `solution['master_schedule']`,
 * a dictionary of days, then slots, then class lists; it is modelled by the
 * sequence of its classes in that iteration order, each with its day and slot.
 * The iteration order of the `all_teachers` set is an input.
 */
module SolverEngine {
  import opened Wrappers
  import opened Records
  import ConfigV2
  import Sorting
  import Grid
  import RoomUsage

  /** Lines 18-27: "{Course_Semester}_{Subject}", and for a split-teaching row the
      main teacher's initials ("UNK" when the teacher has none) after a third `_`. */
  function BuildSubjectId(s: Subject, initials: map<string, string>): string {
    if s.isSplitTeaching then s.courseSemester + "_" + s.name + "_" + InitialsOf(initials, s.teacher)
    else s.courseSemester + "_" + s.name
  }

  function InitialsOf(initials: map<string, string>, teacher: string): string {
    if teacher in initials then initials[teacher] else "UNK"
  }

  /** An identifier extends "{Course_Semester}_{Subject}", and is longer than it
      exactly for split-teaching rows. */
  lemma SubjectIdShape(s: Subject, initials: map<string, string>)
    ensures var base := s.courseSemester + "_" + s.name;
      var id := BuildSubjectId(s, initials);
      && |base| <= |id| && id[..|base|] == base
      && (s.isSplitTeaching <==> |base| < |id|)
  {
    var base := s.courseSemester + "_" + s.name;
    if s.isSplitTeaching {
      var id := BuildSubjectId(s, initials);
      assert id == base + ("_" + InitialsOf(initials, s.teacher));
    }
  }

  /** Two split-teaching rows of one course-semester and subject get the same
      identifier exactly when their teachers' initials are the same. */
  lemma SplitIdsByInitials(s1: Subject, s2: Subject, initials: map<string, string>)
    requires s1.isSplitTeaching && s2.isSplitTeaching
    requires s1.courseSemester == s2.courseSemester && s1.name == s2.name
    ensures BuildSubjectId(s1, initials) == BuildSubjectId(s2, initials)
      <==> InitialsOf(initials, s1.teacher) == InitialsOf(initials, s2.teacher)
  {
    var base := s1.courseSemester + "_" + s1.name + "_";
    var a, b := InitialsOf(initials, s1.teacher), InitialsOf(initials, s2.teacher);
    assert BuildSubjectId(s1, initials) == base + a;
    assert BuildSubjectId(s2, initials) == base + b;
    if base + a == base + b {
      assert a == (base + a)[|base|..];
      assert b == (base + b)[|base|..];
    }
  }

  /** Lines 105-112: teachers needed for a batch, one per LAB_TEACHER_RATIO students
      rounded up; the main teacher is one of them. */
  function TeachersNeeded(students: int): int {
    (students + ConfigV2.LabTeacherRatio - 1) / ConfigV2.LabTeacherRatio
  }

  function AssistantsNeeded(students: int): int {
    TeachersNeeded(students) - 1
  }

  /** The count is the ceiling of students / LAB_TEACHER_RATIO: the smallest number
      of teachers with at most LAB_TEACHER_RATIO students each. */
  lemma TeachersNeededIsCeiling(students: int)
    ensures var t := TeachersNeeded(students);
      ConfigV2.LabTeacherRatio * (t - 1) < students <= ConfigV2.LabTeacherRatio * t
  {
    var a := students + ConfigV2.LabTeacherRatio - 1;
    var t := a / ConfigV2.LabTeacherRatio;
    assert a == ConfigV2.LabTeacherRatio * t + a % ConfigV2.LabTeacherRatio;
  }

  /** A practical batch gets assistants exactly when it has more students than one
      teacher may take. */
  lemma AssistantsWhenOverRatio(students: int)
    ensures AssistantsNeeded(students) > 0 <==> students > ConfigV2.LabTeacherRatio
  {
    TeachersNeededIsCeiling(students);
  }

  // ---------------------------------------------------------------------------
  // The teachers' tally: `teacher_workload` and `teacher_availability`, which the
  // program keeps as two dictionaries over the same keys.

  /** A teacher's hours so far and the time indices at which they are busy. */
  datatype Load = Load(hours: int, busy: set<int>)

  type Tally = map<string, Load>

  /** Every teacher starts with no hours and free at every index. */
  function InitialTally(teachers: seq<string>): (t: Tally)
    ensures forall x :: x in t <==> x in teachers
  {
    map x | x in teachers :: Load(0, {})
  }

  /** Lines 61-70: the loop that seeds both dictionaries. */
  method SeedTally(teachers: seq<string>) returns (tally: Tally)
    ensures tally == InitialTally(teachers)
  {
    tally := map[];
    for i := 0 to |teachers|
      invariant tally == InitialTally(teachers[..i])
    {
      tally := tally[teachers[i] := Load(0, {})];
      assert teachers[..i + 1] == teachers[..i] + [teachers[i]];
    }
    assert teachers[..|teachers|] == teachers;
  }

  /** `teacher_availability[teacher].get(h, False)`: the dictionary holds the
      indices 0 .. n-1, each set to False once the teacher is busy there. */
  predicate Free(tally: Tally, teacher: string, h: int, n: nat) {
    teacher in tally && 0 <= h < n && h !in tally[teacher].busy
  }

  /** `teacher_workload.get(teacher, 0)`. */
  function HoursOf(tally: Tally, teacher: string): int {
    if teacher in tally then tally[teacher].hours else 0
  }

  // ---------------------------------------------------------------------------
  // The solved timetable as `_assign_assistants` reads it.

  datatype ClassKind = Lecture | Tutorial | Practical

  /** The fields of one `class_info` entry the allocation reads; `is_continuation`
      is False where the entry has none. */
  datatype ClassInfo = ClassInfo(
    subject: string,
    courseSemester: string,
    kind: ClassKind,
    isContinuation: bool,
    teachers: seq<string>)

  /** One class of `master_schedule[day][slot]`. */
  datatype Placement = Placement(day: Grid.Day, slot: Grid.Hour, info: ClassInfo)

  /** Lines 76-80 and 125-129: the first index of `solution['time_slots']` holding
      (day, slot), if any. */
  function SlotIndex(timeSlots: seq<(Grid.Day, Grid.Hour)>, day: Grid.Day, slot: Grid.Hour): (r: Option<nat>)
    ensures r.Some? ==>
      && r.value < |timeSlots| && timeSlots[r.value] == (day, slot)
      && forall j :: 0 <= j < r.value ==> timeSlots[j] != (day, slot)
    ensures r.None? ==> forall j :: 0 <= j < |timeSlots| ==> timeSlots[j] != (day, slot)
  {
    if timeSlots == [] then None
    else if timeSlots[0] == (day, slot) then Some(0)
    else match SlotIndex(timeSlots[1..], day, slot)
      case None => None
      case Some(i) => Some(i + 1)
  }

  /** The `enumerate(...)` search with its early `break`. */
  method FindSlotIndex(timeSlots: seq<(Grid.Day, Grid.Hour)>, day: Grid.Day, slot: Grid.Hour) returns (r: Option<nat>)
    ensures r == SlotIndex(timeSlots, day, slot)
  {
    for i := 0 to |timeSlots|
      invariant forall j :: 0 <= j < i ==> timeSlots[j] != (day, slot)
    {
      if timeSlots[i] == (day, slot) {
        return Some(i);
      }
    }
    return None;
  }

  // ---------------------------------------------------------------------------
  // Lines 77-91: the main teaching marks each listed teacher busy and adds an hour.

  /** The teachers of one class, in list order; a name that is not a known teacher
      raises KeyError. */
  function MarkTeachers(tally: Tally, idx: nat, teachers: seq<string>): (r: Result<Tally, PyError>)
    ensures r.Ok? ==> r.value.Keys == tally.Keys
    decreases |teachers|
  {
    if teachers == [] then Ok(tally)
    else match MarkTeachers(tally, idx, teachers[..|teachers| - 1])
      case Err(e) => Err(e)
      case Ok(t) =>
        var x := teachers[|teachers| - 1];
        if x !in t then Err(KeyError(x))
        else Ok(t[x := Load(t[x].hours + 1, t[x].busy + {idx})])
  }

  /** Marking succeeds exactly when every listed teacher is known. */
  lemma {:induction false} MarkTeachersOk(tally: Tally, idx: nat, teachers: seq<string>)
    ensures MarkTeachers(tally, idx, teachers).Ok? <==> forall i :: 0 <= i < |teachers| ==> teachers[i] in tally
    decreases |teachers|
  {
    if teachers != [] {
      var init := teachers[..|teachers| - 1];
      MarkTeachersOk(tally, idx, init);
      assert forall i :: 0 <= i < |init| ==> init[i] == teachers[i];
    }
  }

  /** Then each known teacher gains one hour per appearance on the list and is busy
      at `idx` when listed; a teacher who is not listed is unchanged. */
  lemma {:induction false} MarkTeachersEffect(tally: Tally, idx: nat, teachers: seq<string>, x: string)
    requires MarkTeachers(tally, idx, teachers).Ok? && x in tally
    ensures MarkTeachers(tally, idx, teachers).value[x] ==
      Load(tally[x].hours + Occurrences(teachers, x), if x in teachers then tally[x].busy + {idx} else tally[x].busy)
    decreases |teachers|
  {
    if teachers != [] {
      var init := teachers[..|teachers| - 1];
      var last := teachers[|teachers| - 1];
      MarkTeachersEffect(tally, idx, init, x);
      assert teachers == init + [last];
      assert x in teachers <==> x in init || x == last;
    }
  }

  /** The placements in iteration order; a placement whose day and slot are not in
      `time_slots` is skipped. */
  function MarkSchedule(tally: Tally, timeSlots: seq<(Grid.Day, Grid.Hour)>, schedule: seq<Placement>): (r: Result<Tally, PyError>)
    ensures r.Ok? ==> r.value.Keys == tally.Keys
    decreases |schedule|
  {
    if schedule == [] then Ok(tally)
    else match MarkSchedule(tally, timeSlots, schedule[..|schedule| - 1])
      case Err(e) => Err(e)
      case Ok(t) =>
        var p := schedule[|schedule| - 1];
        match SlotIndex(timeSlots, p.day, p.slot)
          case None => Ok(t)
          case Some(idx) => MarkTeachers(t, idx, p.info.teachers)
  }

  /** Hours a teacher teaches in the schedule: one per appearance on the list of a
      class whose slot is in `time_slots`. */
  function Appearances(timeSlots: seq<(Grid.Day, Grid.Hour)>, schedule: seq<Placement>, x: string): nat
    decreases |schedule|
  {
    if schedule == [] then 0
    else
      var p := schedule[|schedule| - 1];
      Appearances(timeSlots, schedule[..|schedule| - 1], x)
        + (if SlotIndex(timeSlots, p.day, p.slot).Some? then Occurrences(p.info.teachers, x) else 0)
  }

  /** The indices at which a teacher teaches in the schedule. */
  function BusyIndices(timeSlots: seq<(Grid.Day, Grid.Hour)>, schedule: seq<Placement>, x: string): set<int>
    decreases |schedule|
  {
    if schedule == [] then {}
    else
      var p := schedule[|schedule| - 1];
      var idx := SlotIndex(timeSlots, p.day, p.slot);
      BusyIndices(timeSlots, schedule[..|schedule| - 1], x)
        + (if idx.Some? && x in p.info.teachers then {idx.value as int} else {})
  }

  /** After the main teaching is marked, each known teacher's hours are their
      appearances in the schedule and they are busy exactly at the indices where
      they teach (on top of the starting tally). */
  lemma {:induction false} MarkScheduleEffect(tally: Tally, timeSlots: seq<(Grid.Day, Grid.Hour)>, schedule: seq<Placement>, x: string)
    requires MarkSchedule(tally, timeSlots, schedule).Ok? && x in tally
    ensures MarkSchedule(tally, timeSlots, schedule).value[x] ==
      Load(tally[x].hours + Appearances(timeSlots, schedule, x), tally[x].busy + BusyIndices(timeSlots, schedule, x))
    decreases |schedule|
  {
    if schedule != [] {
      var init := schedule[..|schedule| - 1];
      var p := schedule[|schedule| - 1];
      var t := MarkSchedule(tally, timeSlots, init).value;
      MarkScheduleEffect(tally, timeSlots, init, x);
      var idx := SlotIndex(timeSlots, p.day, p.slot);
      if idx.Some? {
        MarkTeachersEffect(t, idx.value, p.info.teachers, x);
      }
    }
  }

  /** Once a prefix of the list has failed, the rest of the list changes nothing. */
  lemma {:induction false} MarkTeachersStops(tally: Tally, idx: nat, teachers: seq<string>, n: nat)
    requires n <= |teachers| && MarkTeachers(tally, idx, teachers[..n]).Err?
    ensures MarkTeachers(tally, idx, teachers) == MarkTeachers(tally, idx, teachers[..n])
    decreases |teachers| - n
  {
    if n < |teachers| {
      assert teachers[..n + 1][..n] == teachers[..n];
      MarkTeachersStops(tally, idx, teachers, n + 1);
    } else {
      assert teachers[..n] == teachers;
    }
  }

  /** Once a prefix of the schedule has failed, the rest changes nothing. */
  lemma {:induction false} MarkScheduleStops(tally: Tally, timeSlots: seq<(Grid.Day, Grid.Hour)>, schedule: seq<Placement>, n: nat)
    requires n <= |schedule| && MarkSchedule(tally, timeSlots, schedule[..n]).Err?
    ensures MarkSchedule(tally, timeSlots, schedule) == MarkSchedule(tally, timeSlots, schedule[..n])
    decreases |schedule| - n
  {
    if n < |schedule| {
      assert schedule[..n + 1][..n] == schedule[..n];
      MarkScheduleStops(tally, timeSlots, schedule, n + 1);
    } else {
      assert schedule[..n] == schedule;
    }
  }

  /** Lines 88-91: each listed teacher in turn. */
  method MarkClass(tally0: Tally, idx: nat, teachers: seq<string>) returns (r: Result<Tally, PyError>)
    ensures r == MarkTeachers(tally0, idx, teachers)
  {
    var tally := tally0;
    for i := 0 to |teachers|
      invariant MarkTeachers(tally0, idx, teachers[..i]) == Ok(tally)
    {
      var x := teachers[i];
      assert teachers[..i + 1][..i] == teachers[..i];
      if x !in tally {
        MarkTeachersStops(tally0, idx, teachers, i + 1);
        return Err(KeyError(x));
      }
      tally := tally[x := Load(tally[x].hours + 1, tally[x].busy + {idx})];
    }
    assert teachers[..|teachers|] == teachers;
    return Ok(tally);
  }

  /** Lines 77-91: every class of the schedule whose slot is found. */
  method MarkMainTeaching(tally0: Tally, timeSlots: seq<(Grid.Day, Grid.Hour)>, schedule: seq<Placement>)
    returns (r: Result<Tally, PyError>)
    ensures r == MarkSchedule(tally0, timeSlots, schedule)
  {
    var tally := tally0;
    for k := 0 to |schedule|
      invariant MarkSchedule(tally0, timeSlots, schedule[..k]) == Ok(tally)
    {
      var p := schedule[k];
      assert schedule[..k + 1][..k] == schedule[..k];
      var idx := FindSlotIndex(timeSlots, p.day, p.slot);
      if idx.Some? {
        var marked := MarkClass(tally, idx.value, p.info.teachers);
        if marked.Err? {
          MarkScheduleStops(tally0, timeSlots, schedule, k + 1);
          return marked;
        }
        tally := marked.value;
      }
    }
    assert schedule[..|schedule|] == schedule;
    return Ok(tally);
  }

  // ---------------------------------------------------------------------------
  // Lines 93-183: assistants for the practical batches.

  /** What the allocation reads: the engine's subjects and initials, the iteration
      order of the `all_teachers` set, and the solution's time slots and schedule. */
  datatype Context = Context(
    subjects: seq<Subject>,
    initials: map<string, string>,
    teachers: seq<string>,
    timeSlots: seq<(Grid.Day, Grid.Hour)>,
    schedule: seq<Placement>)

  /** The index of the first subject taught by `teacher`, if any. */
  function FirstSubjectOf(subjects: seq<Subject>, teacher: string): (r: Option<nat>)
    ensures r.Some? ==>
      && r.value < |subjects| && subjects[r.value].teacher == teacher
      && forall j :: 0 <= j < r.value ==> subjects[j].teacher != teacher
    ensures r.None? ==> forall j :: 0 <= j < |subjects| ==> subjects[j].teacher != teacher
  {
    if subjects == [] then None
    else if subjects[0].teacher == teacher then Some(0)
    else match FirstSubjectOf(subjects[1..], teacher)
      case None => None
      case Some(i) => Some(i + 1)
  }

  /** Lines 142-147: a teacher's department is that of the first subject they teach. */
  function DepartmentOf(subjects: seq<Subject>, teacher: string): Option<string> {
    match FirstSubjectOf(subjects, teacher)
      case None => None
      case Some(i) => Some(subjects[i].department)
  }

  method FindDepartment(subjects: seq<Subject>, teacher: string) returns (d: Option<string>)
    ensures d == DepartmentOf(subjects, teacher)
  {
    for i := 0 to |subjects|
      invariant forall j :: 0 <= j < i ==> subjects[j].teacher != teacher
    {
      if subjects[i].teacher == teacher {
        return Some(subjects[i].department);
      }
    }
    return None;
  }

  /** Lines 138-163: a teacher may assist `subj` at `start` when they are not its
      main teacher, belong to its department, have fewer than MAX_HOURS_PER_TEACHER
      hours, and are free at both hours of the session. */
  predicate Eligible(ctx: Context, tally: Tally, subj: Subject, start: nat, x: string) {
    && x != subj.teacher
    && DepartmentOf(ctx.subjects, x) == Some(subj.department)
    && HoursOf(tally, x) < ConfigV2.MaxHoursPerTeacher
    && Free(tally, x, start, |ctx.timeSlots|)
    && Free(tally, x, start + 1, |ctx.timeSlots|)
  }

  /** The eligible teachers of `xs`, in order. */
  function Candidates(ctx: Context, tally: Tally, subj: Subject, start: nat, xs: seq<string>): seq<string>
    decreases |xs|
  {
    if xs == [] then []
    else
      var x := xs[|xs| - 1];
      Candidates(ctx, tally, subj, start, xs[..|xs| - 1]) + (if Eligible(ctx, tally, subj, start, x) then [x] else [])
  }

  /** The candidates are exactly the eligible teachers of `xs`. */
  lemma {:induction false} CandidatesMembers(ctx: Context, tally: Tally, subj: Subject, start: nat, xs: seq<string>)
    ensures forall x :: x in Candidates(ctx, tally, subj, start, xs) <==> x in xs && Eligible(ctx, tally, subj, start, x)
    decreases |xs|
  {
    if xs != [] {
      CandidatesMembers(ctx, tally, subj, start, xs[..|xs| - 1]);
      assert forall y :: y in xs <==> y in xs[..|xs| - 1] || y == xs[|xs| - 1];
    }
  }

  /** Lines 136-163: the loop over `all_teachers`. */
  method FindCandidates(ctx: Context, tally: Tally, subj: Subject, start: nat) returns (cands: seq<string>)
    ensures cands == Candidates(ctx, tally, subj, start, ctx.teachers)
  {
    cands := [];
    for i := 0 to |ctx.teachers|
      invariant cands == Candidates(ctx, tally, subj, start, ctx.teachers[..i])
    {
      var x := ctx.teachers[i];
      assert ctx.teachers[..i + 1][..i] == ctx.teachers[..i];
      if x == subj.teacher {
        continue;
      }
      var dept := FindDepartment(ctx.subjects, x);
      if dept != Some(subj.department) {
        continue;
      }
      if HoursOf(tally, x) >= ConfigV2.MaxHoursPerTeacher {
        continue;
      }
      if Free(tally, x, start, |ctx.timeSlots|) && Free(tally, x, start + 1, |ctx.timeSlots|) {
        cands := cands + [x];
      }
    }
    assert ctx.teachers[..|ctx.teachers|] == ctx.teachers;
  }

  /** The sort key of line 166: fewer hours first. */
  function ByHours(tally: Tally): (string, string) -> bool {
    (a: string, b: string) => HoursOf(tally, a) <= HoursOf(tally, b)
  }

  lemma ByHoursTotal(tally: Tally)
    ensures Sorting.TotalPreorder(ByHours(tally))
  {
  }

  function Min(a: nat, b: nat): nat {
    if a < b then a else b
  }

  /** Lines 165-171: the first `needed` candidates by hours, ties in candidate order. */
  function Pick(tally: Tally, cands: seq<string>, needed: nat): seq<string> {
    var sorted := Sorting.SortBy(cands, ByHours(tally));
    sorted[..Min(needed, |sorted|)]
  }

  /** A list without repeats holds each element at most once. */
  lemma {:induction false} DistinctCounts(xs: seq<string>)
    requires Distinct(xs)
    ensures forall x :: multiset(xs)[x] <= 1
    decreases |xs|
  {
    if xs != [] {
      var init := xs[..|xs| - 1];
      DistinctCounts(init);
      assert xs == init + [xs[|xs| - 1]];
      assert xs[|xs| - 1] !in init;
    }
  }

  /** Reordering a list without repeats leaves it without repeats. */
  lemma DistinctPermutation(a: seq<string>, b: seq<string>)
    requires Distinct(a) && multiset(a) == multiset(b)
    ensures Distinct(b)
  {
    DistinctCounts(a);
    forall i, j | 0 <= i < j < |b|
      ensures b[i] != b[j]
    {
      RepeatCounts(b, i, j);
    }
  }

  lemma RepeatCounts(b: seq<string>, i: nat, j: nat)
    requires i < j < |b|
    ensures b[i] == b[j] ==> multiset(b)[b[j]] >= 2
  {
    assert b == b[..j] + b[j..];
    assert b[i] in b[..j] && b[j] in b[j..];
    assert multiset(b)[b[j]] == multiset(b[..j])[b[j]] + multiset(b[j..])[b[j]];
  }

  /** Lines 165-171: the chosen assistants are as many as needed or as there are
      candidates, whichever is fewer; each is a candidate; they come in order of
      hours; none has more hours than a candidate left out; and none repeats. */
  lemma PickProperties(tally: Tally, cands: seq<string>, needed: nat)
    ensures var r := Pick(tally, cands, needed);
      && |r| == Min(needed, |cands|)
      && (forall i :: 0 <= i < |r| ==> r[i] in cands)
      && (forall i, j :: 0 <= i < j < |r| ==> HoursOf(tally, r[i]) <= HoursOf(tally, r[j]))
      && (forall x, i :: x in cands && x !in r && 0 <= i < |r| ==> HoursOf(tally, r[i]) <= HoursOf(tally, x))
      && (Distinct(cands) ==> Distinct(r))
  {
    PickFromCandidates(tally, cands, needed);
    PickInOrder(tally, cands, needed);
    PickFewestHours(tally, cands, needed);
    if Distinct(cands) {
      DistinctPermutation(cands, Sorting.SortBy(cands, ByHours(tally)));
    }
  }

  lemma PickFromCandidates(tally: Tally, cands: seq<string>, needed: nat)
    ensures var r := Pick(tally, cands, needed);
      forall i :: 0 <= i < |r| ==> r[i] in cands
  {
    var sorted := Sorting.SortBy(cands, ByHours(tally));
    forall i | 0 <= i < Min(needed, |sorted|)
      ensures sorted[i] in cands
    {
      assert sorted[i] in multiset(sorted);
    }
  }

  lemma PickInOrder(tally: Tally, cands: seq<string>, needed: nat)
    ensures var r := Pick(tally, cands, needed);
      forall i, j :: 0 <= i < j < |r| ==> HoursOf(tally, r[i]) <= HoursOf(tally, r[j])
  {
    ByHoursTotal(tally);
    Sorting.SortBySorted(cands, ByHours(tally));
  }

  lemma PickFewestHours(tally: Tally, cands: seq<string>, needed: nat)
    ensures var r := Pick(tally, cands, needed);
      forall x, i :: x in cands && x !in r && 0 <= i < |r| ==> HoursOf(tally, r[i]) <= HoursOf(tally, x)
  {
    var le := ByHours(tally);
    var sorted := Sorting.SortBy(cands, le);
    var r := Pick(tally, cands, needed);
    ByHoursTotal(tally);
    Sorting.SortBySorted(cands, le);
    assert r == sorted[..|r|];
    forall x, i | x in cands && x !in r && 0 <= i < |r|
      ensures HoursOf(tally, r[i]) <= HoursOf(tally, x)
    {
      assert x in multiset(sorted);
      var k :| 0 <= k < |sorted| && sorted[k] == x;
      assert le(sorted[i], sorted[k]);
    }
  }

  /** Lines 173-179: each chosen assistant becomes busy at both hours, then gains
      two hours. */
  function Give(tally: Tally, chosen: seq<string>, start: nat): (r: Tally)
    requires forall i :: 0 <= i < |chosen| ==> chosen[i] in tally
    ensures r.Keys == tally.Keys
    decreases |chosen|
  {
    if chosen == [] then tally
    else
      var t := Give(tally, chosen[..|chosen| - 1], start);
      var a := chosen[|chosen| - 1];
      t[a := Load(t[a].hours + 2, t[a].busy + {start, start + 1})]
  }

  /** Each chosen assistant has two more hours and is busy at `start` and `start + 1`;
      every other teacher is unchanged. */
  lemma {:induction false} GiveEffect(tally: Tally, chosen: seq<string>, start: nat, x: string)
    requires forall i :: 0 <= i < |chosen| ==> chosen[i] in tally
    requires Distinct(chosen) && x in tally
    ensures Give(tally, chosen, start)[x] ==
      if x in chosen then Load(tally[x].hours + 2, tally[x].busy + {start, start + 1}) else tally[x]
    decreases |chosen|
  {
    if chosen != [] {
      var init := chosen[..|chosen| - 1];
      GiveEffect(tally, init, start, x);
      assert chosen == init + [chosen[|chosen| - 1]];
      assert chosen[|chosen| - 1] !in init;
    }
  }

  /** The tally and `assistant_assignments`, keyed by (subject id, start index). */
  datatype Plan = Plan(tally: Tally, assignments: map<(string, nat), seq<string>>)

  /** Every teacher of the iteration order has an entry in the tally. */
  predicate Known(ctx: Context, tally: Tally) {
    forall x :: x in ctx.teachers ==> x in tally
  }

  function Needed(subj: Subject): nat {
    var k := AssistantsNeeded(subj.studentsCount);
    if k < 0 then 0 else k
  }

  /** The chosen assistants of `subj`'s session at `start`. */
  function Chosen(ctx: Context, tally: Tally, subj: Subject, start: nat): seq<string> {
    Pick(tally, Candidates(ctx, tally, subj, start, ctx.teachers), Needed(subj))
  }

  /** Eligibility asks for a tally entry, so every chosen assistant has one. */
  lemma ChosenInTally(ctx: Context, tally: Tally, subj: Subject, start: nat)
    ensures forall i :: 0 <= i < |Chosen(ctx, tally, subj, start)| ==> Chosen(ctx, tally, subj, start)[i] in tally
  {
    CandidatesMembers(ctx, tally, subj, start, ctx.teachers);
    PickProperties(tally, Candidates(ctx, tally, subj, start, ctx.teachers), Needed(subj));
  }

  /** Lines 133-181: one practical session of `subj` starting at index `start`. */
  function Session(ctx: Context, plan: Plan, subj: Subject, start: nat): Plan {
    var chosen := Chosen(ctx, plan.tally, subj, start);
    ChosenInTally(ctx, plan.tally, subj, start);
    Plan(Give(plan.tally, chosen, start), plan.assignments[(BuildSubjectId(subj, ctx.initials), start) := chosen])
  }

  /** Lines 118-121: the entry opens a practical session of `subj`. */
  predicate OpensSession(p: Placement, subj: Subject) {
    && p.info.subject == subj.name
    && p.info.courseSemester == subj.courseSemester
    && p.info.kind == Practical
    && !p.info.isContinuation
  }

  /** Lines 115-132: the start index of the session that entry `p` opens for `subj`,
      if it opens one and its slot is found. */
  function EntryStart(ctx: Context, subj: Subject, p: Placement): Option<nat> {
    if OpensSession(p, subj) then SlotIndex(ctx.timeSlots, p.day, p.slot) else None
  }

  /** The start of every session of `subj` among the first `m` entries of the
      schedule, in schedule order. */
  function SessionStarts(ctx: Context, subj: Subject, m: nat): seq<nat>
    requires m <= |ctx.schedule|
  {
    if m == 0 then []
    else
      var before := SessionStarts(ctx, subj, m - 1);
      match EntryStart(ctx, subj, ctx.schedule[m - 1])
        case None => before
        case Some(start) => before + [start]
  }

  /** `step` applied to `plan` and to each of `xs` in turn. */
  function Fold<X>(step: (Plan, X) -> Plan, plan: Plan, xs: seq<X>): Plan
    decreases |xs|
  {
    if xs == [] then plan else step(Fold(step, plan, xs[..|xs| - 1]), xs[|xs| - 1])
  }

  lemma FoldSnoc<X>(step: (Plan, X) -> Plan, plan: Plan, xs: seq<X>, x: X)
    ensures Fold(step, plan, xs + [x]) == step(Fold(step, plan, xs), x)
  {
    assert (xs + [x])[..|xs|] == xs;
  }

  /** What every step keeps, the whole fold keeps. */
  lemma {:induction false} FoldKeeps<X>(step: (Plan, X) -> Plan, inv: Plan -> bool, plan: Plan, xs: seq<X>)
    requires inv(plan)
    requires forall p, i :: 0 <= i < |xs| && inv(p) ==> inv(step(p, xs[i]))
    ensures inv(Fold(step, plan, xs))
    decreases |xs|
  {
    if xs != [] {
      var init := xs[..|xs| - 1];
      assert forall i :: 0 <= i < |init| ==> init[i] == xs[i];
      FoldKeeps(step, inv, plan, init);
    }
  }

  function SessionStep(ctx: Context, subj: Subject): (Plan, nat) -> Plan {
    (p: Plan, start: nat) => Session(ctx, p, subj, start)
  }

  /** Lines 108-181: every session of `subj`, in schedule order. */
  function SubjectSessions(ctx: Context, plan: Plan, subj: Subject): Plan {
    Fold(SessionStep(ctx, subj), plan, SessionStarts(ctx, subj, |ctx.schedule|))
  }

  /** Lines 96-112: a subject with no practical hours, or with no assistants
      needed, is skipped. */
  predicate NeedsAssistants(subj: Subject) {
    subj.required.pr != 0 && AssistantsNeeded(subj.studentsCount) > 0
  }

  function SubjectStep(ctx: Context): (Plan, Subject) -> Plan {
    (p: Plan, subj: Subject) => if NeedsAssistants(subj) then SubjectSessions(ctx, p, subj) else p
  }

  /** Lines 93-181: the first `k` subjects in order. */
  function AfterSubjects(ctx: Context, plan: Plan, k: nat): Plan
    requires k <= |ctx.subjects|
  {
    Fold(SubjectStep(ctx), plan, ctx.subjects[..k])
  }

  /** Lines 58-194: the whole allocation; the KeyError of the main-teaching pass is
      the only way it fails. */
  function AssignAssistantsSpec(ctx: Context): Result<Plan, PyError> {
    match MarkSchedule(InitialTally(ctx.teachers), ctx.timeSlots, ctx.schedule)
      case Err(e) => Err(e)
      case Ok(t) => Ok(AfterSubjects(ctx, Plan(t, map[]), |ctx.subjects|))
  }

  /** Lines 168-179: the first `count` of the sorted candidates in turn. */
  method TakeAssistants(tally0: Tally, sorted: seq<string>, count: nat, start: nat)
    returns (chosen: seq<string>, tally: Tally)
    requires count <= |sorted| && forall i :: 0 <= i < count ==> sorted[i] in tally0
    ensures chosen == sorted[..count] && tally == Give(tally0, chosen, start)
  {
    chosen := [];
    tally := tally0;
    for i := 0 to count
      invariant chosen == sorted[..i]
      invariant tally == Give(tally0, chosen, start)
    {
      var a := sorted[i];
      assert sorted[..i + 1][..i] == sorted[..i];
      chosen := chosen + [a];
      tally := tally[a := Load(tally[a].hours + 2, tally[a].busy + {start, start + 1})];
    }
  }

  /** Lines 136-181: find and sort the candidates, take the assistants, and store
      the list under (subject id, start). */
  method RunSession(ctx: Context, plan: Plan, subj: Subject, start: nat) returns (r: Plan)
    ensures r == Session(ctx, plan, subj, start)
  {
    var cands := FindCandidates(ctx, plan.tally, subj, start);
    var sorted := Sorting.SortBy(cands, ByHours(plan.tally));
    var count := Min(Needed(subj), |sorted|);
    SessionParts(ctx, plan, subj, start);
    var chosen, tally := TakeAssistants(plan.tally, sorted, count, start);
    r := Plan(tally, plan.assignments[(BuildSubjectId(subj, ctx.initials), start) := chosen]);
  }

  /** The session in terms of the sorted candidates. */
  lemma SessionParts(ctx: Context, plan: Plan, subj: Subject, start: nat)
    ensures var sorted := Sorting.SortBy(Candidates(ctx, plan.tally, subj, start, ctx.teachers), ByHours(plan.tally));
      var count := Min(Needed(subj), |sorted|);
      && (forall i :: 0 <= i < count ==> sorted[i] in plan.tally)
      && Session(ctx, plan, subj, start) ==
           Plan(Give(plan.tally, sorted[..count], start),
                plan.assignments[(BuildSubjectId(subj, ctx.initials), start) := sorted[..count]])
  {
    SessionKnown(ctx, plan, subj, start);
  }

  lemma SessionKnown(ctx: Context, plan: Plan, subj: Subject, start: nat)
    ensures var sorted := Sorting.SortBy(Candidates(ctx, plan.tally, subj, start, ctx.teachers), ByHours(plan.tally));
      forall i :: 0 <= i < |sorted| ==> sorted[i] in plan.tally
  {
    var cands := Candidates(ctx, plan.tally, subj, start, ctx.teachers);
    var sorted := Sorting.SortBy(cands, ByHours(plan.tally));
    forall i | 0 <= i < |sorted|
      ensures sorted[i] in plan.tally
    {
      assert sorted[i] in multiset(cands);
      CandidateInTally(ctx, plan.tally, subj, start, sorted[i]);
    }
  }

  lemma CandidateInTally(ctx: Context, tally: Tally, subj: Subject, start: nat, c: string)
    requires c in Candidates(ctx, tally, subj, start, ctx.teachers)
    ensures c in tally
  {
    CandidatesMembers(ctx, tally, subj, start, ctx.teachers);
    assert Free(tally, c, start, |ctx.timeSlots|);
  }

  /** Lines 108-181 for one subject: every entry of the schedule in order. */
  method RunSubject(ctx: Context, plan: Plan, subj: Subject) returns (r: Plan)
    ensures r == SubjectSessions(ctx, plan, subj)
  {
    r := plan;
    for m := 0 to |ctx.schedule|
      invariant r == Fold(SessionStep(ctx, subj), plan, SessionStarts(ctx, subj, m))
    {
      var p := ctx.schedule[m];
      if OpensSession(p, subj) {
        var start := FindSlotIndex(ctx.timeSlots, p.day, p.slot);
        if start.Some? {
          FoldSnoc(SessionStep(ctx, subj), plan, SessionStarts(ctx, subj, m), start.value);
          r := RunSession(ctx, r, subj, start.value);
        }
      }
    }
  }

  /** The teachers `_assign_assistants` collects into `all_teachers` (lines 63-67): every main
      teacher and co-teacher. */
  function TeacherSet(subjects: seq<Subject>): set<string> {
    (set i | 0 <= i < |subjects| :: subjects[i].teacher)
      + (set i, x | 0 <= i < |subjects| && x in subjects[i].coTeachers :: x)
  }

  /** Lines 58-194. `ctx.teachers` is the iteration order of the `all_teachers` set. */
  method AssignAssistants(ctx: Context) returns (r: Result<Plan, PyError>)
    requires Distinct(ctx.teachers)
    requires forall x :: x in ctx.teachers <==> x in TeacherSet(ctx.subjects)
    ensures r == AssignAssistantsSpec(ctx)
  {
    var tally := SeedTally(ctx.teachers);
    var marked := MarkMainTeaching(tally, ctx.timeSlots, ctx.schedule);
    if marked.Err? {
      return Err(marked.error);
    }
    var plan := Plan(marked.value, map[]);
    for k := 0 to |ctx.subjects|
      invariant plan == AfterSubjects(ctx, Plan(marked.value, map[]), k)
    {
      var subj := ctx.subjects[k];
      assert ctx.subjects[..k + 1] == ctx.subjects[..k] + [subj];
      FoldSnoc(SubjectStep(ctx), Plan(marked.value, map[]), ctx.subjects[..k], subj);
      if subj.required.pr == 0 {
        continue;
      }
      if AssistantsNeeded(subj.studentsCount) <= 0 {
        continue;
      }
      plan := RunSubject(ctx, plan, subj);
    }
    return Ok(plan);
  }

  // ---------------------------------------------------------------------------
  // What the allocation promises.

  /** Filtering a list without repeats leaves none. */
  lemma {:induction false} CandidatesDistinct(ctx: Context, tally: Tally, subj: Subject, start: nat, xs: seq<string>)
    requires Distinct(xs)
    ensures Distinct(Candidates(ctx, tally, subj, start, xs))
    decreases |xs|
  {
    if xs != [] {
      var init := xs[..|xs| - 1];
      CandidatesDistinct(ctx, tally, subj, start, init);
      CandidatesMembers(ctx, tally, subj, start, init);
      assert xs[|xs| - 1] !in init;
    }
  }

  /** Lines 165-171: the assistants chosen for a session number at most the
      assistants needed, and fewer only when every eligible teacher is chosen. */
  lemma ChosenCount(ctx: Context, tally: Tally, subj: Subject, start: nat)
    ensures var chosen := Chosen(ctx, tally, subj, start);
      && |chosen| <= Needed(subj)
      && (|chosen| < Needed(subj) ==>
            forall x :: x in ctx.teachers && Eligible(ctx, tally, subj, start, x) ==> x in chosen)
  {
    var cands := Candidates(ctx, tally, subj, start, ctx.teachers);
    var chosen := Chosen(ctx, tally, subj, start);
    PickProperties(tally, cands, Needed(subj));
    CandidatesMembers(ctx, tally, subj, start, ctx.teachers);
    if |chosen| < Needed(subj) {
      var sorted := Sorting.SortBy(cands, ByHours(tally));
      assert chosen == sorted;
      forall x | x in cands
        ensures x in chosen
      {
        assert x in multiset(cands);
      }
    }
  }

  /** Lines 136-163: each assistant is an eligible teacher: not the main teacher, of
      the subject's department, under MAX_HOURS_PER_TEACHER and free at both hours;
      and none is chosen twice. */
  lemma ChosenEligible(ctx: Context, tally: Tally, subj: Subject, start: nat)
    requires Distinct(ctx.teachers)
    ensures var chosen := Chosen(ctx, tally, subj, start);
      && (forall x :: x in chosen ==> x in ctx.teachers && Eligible(ctx, tally, subj, start, x))
      && Distinct(chosen)
  {
    var cands := Candidates(ctx, tally, subj, start, ctx.teachers);
    var chosen := Chosen(ctx, tally, subj, start);
    PickProperties(tally, cands, Needed(subj));
    CandidatesMembers(ctx, tally, subj, start, ctx.teachers);
    CandidatesDistinct(ctx, tally, subj, start, ctx.teachers);
    forall x | x in chosen
      ensures x in cands
    {
      var i :| 0 <= i < |chosen| && chosen[i] == x;
    }
  }

  /** Lines 165-171: the assistants come in order of hours, and no eligible teacher
      left out has fewer hours than one chosen. */
  lemma ChosenFewestHours(ctx: Context, tally: Tally, subj: Subject, start: nat)
    ensures var chosen := Chosen(ctx, tally, subj, start);
      && (forall i, j :: 0 <= i < j < |chosen| ==> HoursOf(tally, chosen[i]) <= HoursOf(tally, chosen[j]))
      && (forall x, y :: x in chosen && y in ctx.teachers && Eligible(ctx, tally, subj, start, y) && y !in chosen
            ==> HoursOf(tally, x) <= HoursOf(tally, y))
  {
    var cands := Candidates(ctx, tally, subj, start, ctx.teachers);
    var chosen := Chosen(ctx, tally, subj, start);
    PickProperties(tally, cands, Needed(subj));
    CandidatesMembers(ctx, tally, subj, start, ctx.teachers);
    forall x, y | x in chosen && y in cands && y !in chosen
      ensures HoursOf(tally, x) <= HoursOf(tally, y)
    {
      var i :| 0 <= i < |chosen| && chosen[i] == x;
    }
  }

  /** Lines 173-181: after a session its assistants have two more hours and are busy
      at `start` and `start + 1`, every other teacher is unchanged, and the list is
      stored under (subject id, start). */
  lemma SessionEffect(ctx: Context, plan: Plan, subj: Subject, start: nat, x: string)
    requires Distinct(ctx.teachers) && x in plan.tally
    ensures var chosen := Chosen(ctx, plan.tally, subj, start);
      var r := Session(ctx, plan, subj, start);
      && r.tally[x] == (if x in chosen then Load(plan.tally[x].hours + 2, plan.tally[x].busy + {start, start + 1})
                        else plan.tally[x])
      && r.assignments[(BuildSubjectId(subj, ctx.initials), start)] == chosen
  {
    ChosenEligible(ctx, plan.tally, subj, start);
    ChosenInTally(ctx, plan.tally, subj, start);
    GiveEffect(plan.tally, Chosen(ctx, plan.tally, subj, start), start, x);
  }

  /** A later tally: the same teachers, hours never fewer, busy marks never lifted. */
  predicate Grows(a: Tally, b: Tally) {
    a.Keys == b.Keys && forall x :: x in a ==> LoadGrows(a[x], b[x])
  }

  predicate LoadGrows(a: Load, b: Load) {
    a.hours <= b.hours && a.busy <= b.busy
  }

  lemma SessionGrowsAt(ctx: Context, plan: Plan, subj: Subject, start: nat, x: string)
    requires Distinct(ctx.teachers) && x in plan.tally
    ensures LoadGrows(plan.tally[x], Session(ctx, plan, subj, start).tally[x])
  {
    SessionEffect(ctx, plan, subj, start, x);
  }

  lemma SubjectSessionsGrowAt(ctx: Context, plan: Plan, subj: Subject, x: string)
    requires Distinct(ctx.teachers) && x in plan.tally
    ensures x in SubjectSessions(ctx, plan, subj).tally
    ensures LoadGrows(plan.tally[x], SubjectSessions(ctx, plan, subj).tally[x])
  {
    var inv := (p: Plan) => x in p.tally && LoadGrows(plan.tally[x], p.tally[x]);
    var starts := SessionStarts(ctx, subj, |ctx.schedule|);
    forall p: Plan, i | 0 <= i < |starts| && inv(p)
      ensures inv(SessionStep(ctx, subj)(p, starts[i]))
    {
      SessionGrowsAt(ctx, p, subj, starts[i], x);
    }
    FoldKeeps(SessionStep(ctx, subj), inv, plan, starts);
  }

  lemma AfterSubjectsGrowAt(ctx: Context, plan: Plan, k: nat, x: string)
    requires k <= |ctx.subjects| && Distinct(ctx.teachers) && x in plan.tally
    ensures x in AfterSubjects(ctx, plan, k).tally
    ensures LoadGrows(plan.tally[x], AfterSubjects(ctx, plan, k).tally[x])
  {
    var inv := (p: Plan) => x in p.tally && LoadGrows(plan.tally[x], p.tally[x]);
    var subjects := ctx.subjects[..k];
    forall p: Plan, i | 0 <= i < |subjects| && inv(p)
      ensures inv(SubjectStep(ctx)(p, subjects[i]))
    {
      if NeedsAssistants(subjects[i]) {
        SubjectSessionsGrowAt(ctx, p, subjects[i], x);
      }
    }
    FoldKeeps(SubjectStep(ctx), inv, plan, subjects);
  }

  /** No pass adds or removes a teacher. */
  lemma SubjectSessionsHas(ctx: Context, plan: Plan, subj: Subject, x: string)
    ensures x in SubjectSessions(ctx, plan, subj).tally <==> x in plan.tally
  {
    var inv := (p: Plan) => (x in p.tally <==> x in plan.tally);
    var starts := SessionStarts(ctx, subj, |ctx.schedule|);
    forall p: Plan, i | 0 <= i < |starts| && inv(p)
      ensures inv(SessionStep(ctx, subj)(p, starts[i]))
    {
      assert SessionStep(ctx, subj)(p, starts[i]).tally.Keys == p.tally.Keys;
    }
    FoldKeeps(SessionStep(ctx, subj), inv, plan, starts);
  }

  lemma AfterSubjectsHas(ctx: Context, plan: Plan, k: nat, x: string)
    requires k <= |ctx.subjects|
    ensures x in AfterSubjects(ctx, plan, k).tally <==> x in plan.tally
  {
    var inv := (p: Plan) => (x in p.tally <==> x in plan.tally);
    var subjects := ctx.subjects[..k];
    forall p: Plan, i | 0 <= i < |subjects| && inv(p)
      ensures inv(SubjectStep(ctx)(p, subjects[i]))
    {
      if NeedsAssistants(subjects[i]) {
        SubjectSessionsHas(ctx, p, subjects[i], x);
      }
    }
    FoldKeeps(SubjectStep(ctx), inv, plan, subjects);
  }

  /** Lines 173-176 with 155-161: an assistant of a session stays busy at both of its
      hours, so in any later tally they are not eligible for a session that shares
      an hour with it. */
  lemma NoOverlappingAssistant(ctx: Context, plan: Plan, subj: Subject, start: nat,
                               later: Tally, other: Subject, start2: nat, x: string)
    requires Distinct(ctx.teachers)
    requires x in Chosen(ctx, plan.tally, subj, start)
    requires Grows(Session(ctx, plan, subj, start).tally, later)
    requires start2 == start || start2 == start + 1 || start2 + 1 == start
    ensures !Eligible(ctx, later, other, start2, x)
  {
    ChosenEligible(ctx, plan.tally, subj, start);
    SessionEffect(ctx, plan, subj, start, x);
  }

  /** Every stored list belongs to a subject with that identifier, leaves out that
      subject's main teacher, repeats nobody and is no longer than its assistants
      needed. */
  predicate PlanSound(ctx: Context, plan: Plan) {
    forall key :: key in plan.assignments ==>
      exists j :: 0 <= j < |ctx.subjects| && SoundFor(ctx, ctx.subjects[j], key.0, plan.assignments[key])
  }

  predicate SoundFor(ctx: Context, subj: Subject, id: string, assistants: seq<string>) {
    && BuildSubjectId(subj, ctx.initials) == id
    && subj.teacher !in assistants
    && Distinct(assistants)
    && |assistants| <= Needed(subj)
  }

  lemma SessionSound(ctx: Context, plan: Plan, j: nat, start: nat)
    requires j < |ctx.subjects| && Distinct(ctx.teachers)
    requires PlanSound(ctx, plan)
    ensures PlanSound(ctx, Session(ctx, plan, ctx.subjects[j], start))
  {
    var subj := ctx.subjects[j];
    var chosen := Chosen(ctx, plan.tally, subj, start);
    ChosenEligible(ctx, plan.tally, subj, start);
    ChosenCount(ctx, plan.tally, subj, start);
    assert SoundFor(ctx, subj, BuildSubjectId(subj, ctx.initials), chosen);
  }

  lemma SubjectSessionsSound(ctx: Context, plan: Plan, j: nat)
    requires j < |ctx.subjects| && Distinct(ctx.teachers)
    requires PlanSound(ctx, plan)
    ensures PlanSound(ctx, SubjectSessions(ctx, plan, ctx.subjects[j]))
  {
    var subj := ctx.subjects[j];
    var inv := (p: Plan) => PlanSound(ctx, p);
    var starts := SessionStarts(ctx, subj, |ctx.schedule|);
    forall p: Plan, i | 0 <= i < |starts| && inv(p)
      ensures inv(SessionStep(ctx, subj)(p, starts[i]))
    {
      SessionSound(ctx, p, j, starts[i]);
    }
    FoldKeeps(SessionStep(ctx, subj), inv, plan, starts);
  }

  lemma AfterSubjectsSound(ctx: Context, plan: Plan, k: nat)
    requires k <= |ctx.subjects| && Distinct(ctx.teachers)
    requires PlanSound(ctx, plan)
    ensures PlanSound(ctx, AfterSubjects(ctx, plan, k))
  {
    var inv := (p: Plan) => PlanSound(ctx, p);
    var subjects := ctx.subjects[..k];
    forall p: Plan, i | 0 <= i < |subjects| && inv(p)
      ensures inv(SubjectStep(ctx)(p, subjects[i]))
    {
      if NeedsAssistants(subjects[i]) {
        SubjectSessionsSound(ctx, p, i);
      }
    }
    FoldKeeps(SubjectStep(ctx), inv, plan, subjects);
  }

  /** Lines 58-194 as a whole: the allocation fails only when a class lists an
      unknown teacher; otherwise every stored list belongs to a subject with that
      identifier, never holds its main teacher, repeats nobody and is no longer than
      the assistants it needs, and the main-teaching tally only ever grows. */
  lemma AssignAssistantsSound(ctx: Context)
    requires Distinct(ctx.teachers)
    ensures AssignAssistantsSpec(ctx).Err? ==>
      exists i :: 0 <= i < |ctx.schedule| && SlotIndex(ctx.timeSlots, ctx.schedule[i].day, ctx.schedule[i].slot).Some?
        && exists x :: x in ctx.schedule[i].info.teachers && x !in ctx.teachers
    ensures AssignAssistantsSpec(ctx).Ok? ==>
      var marked := MarkSchedule(InitialTally(ctx.teachers), ctx.timeSlots, ctx.schedule).value;
      && PlanSound(ctx, AssignAssistantsSpec(ctx).value)
      && Grows(marked, AssignAssistantsSpec(ctx).value.tally)
  {
    var t0 := InitialTally(ctx.teachers);
    match MarkSchedule(t0, ctx.timeSlots, ctx.schedule)
    case Err(_) => MarkScheduleFails(t0, ctx.timeSlots, ctx.schedule);
    case Ok(t) =>
      AfterSubjectsSound(ctx, Plan(t, map[]), |ctx.subjects|);
      var final := AfterSubjects(ctx, Plan(t, map[]), |ctx.subjects|).tally;
      forall x
        ensures x in final <==> x in t
      {
        AfterSubjectsHas(ctx, Plan(t, map[]), |ctx.subjects|, x);
      }
      assert final.Keys == t.Keys;
      forall x | x in t
        ensures LoadGrows(t[x], AfterSubjects(ctx, Plan(t, map[]), |ctx.subjects|).tally[x])
      {
        AfterSubjectsGrowAt(ctx, Plan(t, map[]), |ctx.subjects|, x);
      }
  }

  /** The main-teaching pass fails only at a class whose slot is found and whose list
      names someone outside the tally. */
  lemma {:induction false} MarkScheduleFails(tally: Tally, timeSlots: seq<(Grid.Day, Grid.Hour)>, schedule: seq<Placement>)
    ensures MarkSchedule(tally, timeSlots, schedule).Err? ==>
      exists i :: 0 <= i < |schedule| && SlotIndex(timeSlots, schedule[i].day, schedule[i].slot).Some?
        && exists x :: x in schedule[i].info.teachers && x !in tally
    decreases |schedule|
  {
    if schedule != [] {
      var init := schedule[..|schedule| - 1];
      var p := schedule[|schedule| - 1];
      MarkScheduleFails(tally, timeSlots, init);
      match MarkSchedule(tally, timeSlots, init)
      case Err(_) =>
        var i :| 0 <= i < |init| && SlotIndex(timeSlots, init[i].day, init[i].slot).Some?
          && exists x :: x in init[i].info.teachers && x !in tally;
        assert schedule[i] == init[i];
      case Ok(t) =>
        var idx := SlotIndex(timeSlots, p.day, p.slot);
        if idx.Some? && MarkTeachers(t, idx.value, p.info.teachers).Err? {
          MarkTeachersOk(t, idx.value, p.info.teachers);
          var k :| 0 <= k < |p.info.teachers| && p.info.teachers[k] !in t;
          assert p.info.teachers[k] in p.info.teachers;
        }
    }
  }

  // ---------------------------------------------------------------------------
  // Lines 419-442: first-fit room numbers.

  /** Lines 426-431: the classrooms of the room table for "Classroom", and for any
      other type all the labs of the table, whichever department asked. */
  function RoomTotal(roomType: string): (r: nat)
    ensures r == if roomType == "Classroom" then 60 else 12
  {
    ConfigV2.RoomsByTypeTable("classroom");
    ConfigV2.RoomsByTypeTable("lab");
    if roomType == "Classroom" then |ConfigV2.RoomsByType("classroom")| else |ConfigV2.RoomsByType("lab")|
  }

  /** Lines 419-442: the first room of the type free at slot `t`, recorded in
      `room_usage`; the last room number, unrecorded, when all are taken. */
  method AssignRoom(usage: RoomUsage.Ledger, t: nat, roomType: string) returns (room: nat)
    modifies usage
    ensures room == RoomUsage.Answer(old(usage.used), t, roomType, RoomTotal(roomType))
    ensures usage.used == RoomUsage.Taken(old(usage.used), t, roomType, RoomTotal(roomType))
  {
    var total := RoomTotal(roomType);
    room := usage.Take(t, roomType, total);
  }
}

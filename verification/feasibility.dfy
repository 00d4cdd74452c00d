/**
 * The pre-solver feasibility checker (project/src/feasibility_checker.py, and its
 * byte-identical copy in project_2/src). Each check reads the expanded subject
 * records and appends its critical issues and warnings to the checker's lists;
 * the input is feasible exactly when no check raised an issue.
 *
 * Each check is specified by a function of the records; the class's methods run
 * the program's loops and are proved to append exactly what that function says.
 * Message texts are display; issues and warnings are datatypes carrying the
 * numbers the messages show.
 */
module Feasibility {
  import opened Wrappers
  import opened Records
  import ConfigV2
  import Grid
  import Sorting
  import DataLoaderWorkload

  datatype Issue =
    | TeacherOverload(teacher: string, total: int)
    | FixedSlotOverflow(slotType: string, needed: int, capacity: int)
    | NoSlotsConfigured(slotType: string, needed: int)
    | ClassroomShortage(needed: int, capacity: int)
    | LabShortage(needed: int, capacity: int)
    | NoLabsConfigured(needed: int)
    | PracticalSlotShortage(needed: int, capacity: int)
    | NoLabsDefined(needed: int)
    | NoConsecutiveSlots

  datatype Warning =
    | Underutilized(teacher: string, total: int)
    | FixedSlotBusy(slotType: string, needed: int, capacity: int)
    | ClassroomsBusy(needed: int, capacity: int)
    | LabsBusy(needed: int, capacity: int)
    | PracticalSlotsBusy(needed: int, capacity: int)

  /** What one check contributes: its issues and its warnings, in order. */
  datatype Notes = Notes(issues: seq<Issue>, warnings: seq<Warning>)

  function Then(a: Notes, b: Notes): Notes {
    Notes(a.issues + b.issues, a.warnings + b.warnings)
  }

  /** A fixed-slot type's entry of `stats["fixed_slot_usage"]`. */
  datatype SlotUsage = SlotUsage(subjects: nat, hoursNeeded: int, slotsAvailable: nat, capacity: int)

  datatype RoomStats = RoomStats(theoryNeeded: int, theoryCapacity: int, practicalNeeded: int, practicalCapacity: int)

  datatype PairStats = PairStats(needed: int, capacity: int)

  /** `self.stats`, one optional entry per key a check fills in. */
  datatype Stats = Stats(
    teacherLoads: Option<map<string, int>>,
    fixedSlotUsage: Option<map<string, SlotUsage>>,
    roomUsage: Option<RoomStats>,
    practicalSlots: Option<PairStats>,
    overview: Option<Overview>)

  /** `room_capacities.get("Classroom", {}).get("count", 10)`. */
  function ClassroomCount(roomCapacities: map<string, map<string, int>>): int {
    if "Classroom" in roomCapacities && "count" in roomCapacities["Classroom"]
    then roomCapacities["Classroom"]["count"] else 10
  }

  /** The rooms of type "lab" in the room table. */
  function LabCount(): (r: nat)
    ensures r == 12
  {
    ConfigV2.RoomsByTypeTable("lab");
    |ConfigV2.RoomsByType("lab")|
  }

  /** The float test `needed / capacity > 0.8` (or `needed / capacity * 100 > 80`)
      for a positive capacity, by cross-multiplication. */
  predicate Busy(needed: int, capacity: int) {
    5 * needed > 4 * capacity
  }

  // ---------------------------------------------------------------------------
  // Lines 37-120: teacher workload.

  const MaxHours: int := ConfigV2.MaxHoursPerTeacher

  /** Le+Tu+Pr taught; when that is 0, the total taught hours, else the total hours. */
  function MainHours(s: Subject): int {
    if TaughtSum(s) != 0 then TaughtSum(s) else s.totalTaughtHours.GetOr(s.totalHours)
  }

  /** `teacher_loads`: each teacher's total, and the teachers in the order they were
      first credited. */
  datatype Loads = Loads(totals: map<string, int>, order: seq<string>)

  function TotalOf(l: Loads, t: string): int {
    if t in l.totals then l.totals[t] else 0
  }

  /** The order lists each credited teacher once. */
  ghost predicate WellFormed(l: Loads) {
    Distinct(l.order) && forall t :: t in l.totals <==> t in l.order
  }

  function Credit(l: Loads, t: string, h: int): Loads {
    Loads(l.totals[t := TotalOf(l, t) + h], if t in l.totals then l.order else l.order + [t])
  }

  /** Credit each of `co` in turn. */
  function CreditAll(l: Loads, co: seq<string>, h: int): Loads
    decreases |co|
  {
    if co == [] then l else Credit(CreditAll(l, co[..|co| - 1], h), co[|co| - 1], h)
  }

  datatype WorkloadState = WorkloadState(loads: Loads, processed: set<string>)

  /** One subject of the loop at lines 45-89. A split-teaching subject credits no
      co-teacher, since each split part has a record of its own. */
  function WorkloadStep(acc: WorkloadState, s: Subject): WorkloadState {
    if DataLoaderWorkload.Skipped(s, acc.processed) then acc
    else
      var l := Credit(acc.loads, s.teacher, MainHours(s));
      WorkloadState(if s.isSplitTeaching then l else CreditAll(l, s.coTeachers, MainHours(s)),
                    DataLoaderWorkload.Marked(s, acc.processed))
  }

  function Workload(rows: seq<Subject>): WorkloadState
    decreases |rows|
  {
    if rows == [] then WorkloadState(Loads(map[], []), {})
    else WorkloadStep(Workload(rows[..|rows| - 1]), rows[|rows| - 1])
  }

  lemma CreditEffect(l: Loads, t: string, h: int, u: string)
    ensures TotalOf(Credit(l, t, h), u) == TotalOf(l, u) + if u == t then h else 0
    ensures WellFormed(l) ==> WellFormed(Credit(l, t, h))
  {
    if WellFormed(l) && t !in l.totals {
      var o := l.order + [t];
      forall i, j | 0 <= i < j < |o| ensures o[i] != o[j] {
        if j == |l.order| { assert o[i] in l.order; }
      }
    }
  }

  /** Each co-teacher is credited the hours once for each time it is listed. */
  lemma {:induction false} CreditAllTotal(l: Loads, co: seq<string>, h: int, u: string)
    ensures TotalOf(CreditAll(l, co, h), u) == TotalOf(l, u) + Occurrences(co, u) * h
    decreases |co|
  {
    if co != [] {
      var init := co[..|co| - 1];
      CreditAllTotal(l, init, h, u);
      CreditEffect(CreditAll(l, init, h), co[|co| - 1], h, u);
      assert (Occurrences(init, u) + 1) * h == Occurrences(init, u) * h + h;
    }
  }

  lemma {:induction false} CreditAllWellFormed(l: Loads, co: seq<string>, h: int)
    requires WellFormed(l)
    ensures WellFormed(CreditAll(l, co, h))
    decreases |co|
  {
    if co != [] {
      var init := co[..|co| - 1];
      CreditAllWellFormed(l, init, h);
      CreditEffect(CreditAll(l, init, h), co[|co| - 1], h, "");
    }
  }

  /** What a counted subject gives `u`: its main hours when `u` is its main teacher,
      and, unless it is split teaching, the same hours for each time `u` is listed
      as a co-teacher. */
  function Share(s: Subject, u: string): int {
    (if u == s.teacher then MainHours(s) else 0)
    + (if s.isSplitTeaching then 0 else Occurrences(s.coTeachers, u) * MainHours(s))
  }

  /** A counted subject adds its share to each teacher; a later subject of an
      already counted merge group adds nothing. */
  lemma StepEffect(acc: WorkloadState, s: Subject, u: string)
    ensures TotalOf(WorkloadStep(acc, s).loads, u) ==
      TotalOf(acc.loads, u) + (if DataLoaderWorkload.Skipped(s, acc.processed) then 0 else Share(s, u))
    ensures WellFormed(acc.loads) ==> WellFormed(WorkloadStep(acc, s).loads)
  {
    if !DataLoaderWorkload.Skipped(s, acc.processed) {
      var l := Credit(acc.loads, s.teacher, MainHours(s));
      CreditEffect(acc.loads, s.teacher, MainHours(s), u);
      CreditAllTotal(l, s.coTeachers, MainHours(s), u);
      if WellFormed(acc.loads) {
        CreditAllWellFormed(l, s.coTeachers, MainHours(s));
      }
    }
  }

  /** The tally's counted groups are the merge groups seen so far, and its order
      lists each credited teacher once. */
  lemma {:induction false} WorkloadInvariant(rows: seq<Subject>)
    ensures Workload(rows).processed == DataLoaderWorkload.SeenGroups(rows)
    ensures WellFormed(Workload(rows).loads)
    decreases |rows|
  {
    if rows != [] {
      var init := rows[..|rows| - 1];
      var s := rows[|rows| - 1];
      WorkloadInvariant(init);
      StepEffect(Workload(init), s, s.teacher);
      assert rows == init + [s];
      DataLoaderWorkload.SeenGroupsAppend(init, s);
    }
  }

  /** Lines 45-55: a merged subject whose group an earlier subject already counted
      changes nothing. */
  lemma MergedGroupCountedOnce(rows: seq<Subject>, s: Subject, j: nat)
    requires j < |rows| && rows[j].isMerged && s.isMerged
    requires rows[j].mergeGroupId == s.mergeGroupId && s.mergeGroupId.Some? && s.mergeGroupId.value != ""
    ensures Workload(rows + [s]) == Workload(rows)
  {
    WorkloadInvariant(rows);
    assert (rows + [s])[..|rows|] == rows;
  }

  /** Sorted by total, largest first; Python's sort is stable, so equal totals keep
      the order in which the teachers were first credited. */
  function ByTotalDesc(l: Loads): (string, string) -> bool {
    (a: string, b: string) => TotalOf(l, a) >= TotalOf(l, b)
  }

  lemma ByTotalDescPreorder(l: Loads)
    ensures Sorting.TotalPreorder(ByTotalDesc(l))
  {
  }

  /** Lines 93-115, one teacher: more than the maximum is an issue; at least 90% is
      near optimal; below 80% is a warning; in between, nothing. */
  function Band(l: Loads, t: string): Notes {
    var total := TotalOf(l, t);
    if total > MaxHours then Notes([TeacherOverload(t, total)], [])
    else if 10 * total >= 9 * MaxHours then Notes([], [])
    else if 5 * total < 4 * MaxHours then Notes([], [Underutilized(t, total)])
    else Notes([], [])
  }

  function Bands(l: Loads, ts: seq<string>): Notes
    decreases |ts|
  {
    if ts == [] then Notes([], []) else Then(Bands(l, ts[..|ts| - 1]), Band(l, ts[|ts| - 1]))
  }

  /** The teachers in the order the results are reported. */
  function Ranked(l: Loads): seq<string> {
    Sorting.SortBy(l.order, ByTotalDesc(l))
  }

  /** What `_check_teacher_workload` appends. */
  function WorkloadNotes(subjects: seq<Subject>): Notes {
    var l := Workload(subjects).loads;
    Bands(l, Ranked(l))
  }

  lemma {:induction false} BandsMembers(l: Loads, ts: seq<string>, t: string, n: int)
    ensures TeacherOverload(t, n) in Bands(l, ts).issues <==> t in ts && n == TotalOf(l, t) && n > MaxHours
    ensures Underutilized(t, n) in Bands(l, ts).warnings <==> t in ts && n == TotalOf(l, t) && 5 * n < 4 * MaxHours
    decreases |ts|
  {
    if ts != [] {
      BandsMembers(l, ts[..|ts| - 1], t, n);
      assert ts == ts[..|ts| - 1] + [ts[|ts| - 1]];
    }
  }

  lemma {:induction false} BandsIssuesOnly(l: Loads, ts: seq<string>)
    ensures forall k :: 0 <= k < |Bands(l, ts).issues| ==> Bands(l, ts).issues[k].TeacherOverload?
    decreases |ts|
  {
    if ts != [] {
      BandsIssuesOnly(l, ts[..|ts| - 1]);
    }
  }

  /** A teacher is reported overloaded, with its total, exactly when it was credited
      more than the maximum; it is reported underused exactly when it was credited
      less than 80% of the maximum. Every workload issue is an overload. */
  lemma WorkloadNotesMembers(subjects: seq<Subject>, t: string, n: int)
    ensures var l := Workload(subjects).loads;
      TeacherOverload(t, n) in WorkloadNotes(subjects).issues <==> t in l.totals && n == l.totals[t] && n > MaxHours
    ensures var l := Workload(subjects).loads;
      Underutilized(t, n) in WorkloadNotes(subjects).warnings <==> t in l.totals && n == l.totals[t] && 5 * n < 4 * MaxHours
  {
    var l := Workload(subjects).loads;
    WorkloadInvariant(subjects);
    BandsMembers(l, Ranked(l), t, n);
    assert t in Ranked(l) <==> t in multiset(Ranked(l));
  }

  /** No workload issue at all exactly when no teacher is credited more than the
      maximum. */
  lemma WorkloadNotesEmpty(subjects: seq<Subject>)
    ensures var l := Workload(subjects).loads;
      WorkloadNotes(subjects).issues == [] <==> forall t :: t in l.totals ==> l.totals[t] <= MaxHours
  {
    var l := Workload(subjects).loads;
    var issues := WorkloadNotes(subjects).issues;
    BandsIssuesOnly(l, Ranked(l));
    if issues != [] {
      var t := issues[0].teacher;
      WorkloadNotesMembers(subjects, t, issues[0].total);
    }
    forall t | t in l.totals && l.totals[t] > MaxHours ensures issues != [] {
      WorkloadNotesMembers(subjects, t, l.totals[t]);
    }
  }

  /** The reports come largest total first. */
  lemma RankedDescending(l: Loads)
    ensures forall i, j :: 0 <= i < j < |Ranked(l)| ==> TotalOf(l, Ranked(l)[i]) >= TotalOf(l, Ranked(l)[j])
  {
    ByTotalDescPreorder(l);
    Sorting.SortBySorted(l.order, ByTotalDesc(l));
  }

  // ---------------------------------------------------------------------------
  // Lines 122-219: fixed-slot capacity.

  /** The records `keep` accepts, in order. */
  function Filter(rows: seq<Subject>, keep: Subject -> bool): seq<Subject>
    decreases |rows|
  {
    if rows == [] then []
    else
      var init := Filter(rows[..|rows| - 1], keep);
      if keep(rows[|rows| - 1]) then init + [rows[|rows| - 1]] else init
  }

  lemma {:induction false} FilterMembers(rows: seq<Subject>, keep: Subject -> bool, s: Subject)
    ensures s in Filter(rows, keep) <==> s in rows && keep(s)
    decreases |rows|
  {
    if rows != [] {
      FilterMembers(rows[..|rows| - 1], keep, s);
      assert rows == rows[..|rows| - 1] + [rows[|rows| - 1]];
    }
  }

  function TypeIs(ty: string): Subject -> bool {
    (s: Subject) => s.subjectType == ty
  }

  /** The records of type `ty` (line 131). */
  function OfType(rows: seq<Subject>, ty: string): seq<Subject> {
    Filter(rows, TypeIs(ty))
  }

  /** Class hours one record needs: lectures, tutorials and two-hour practical sessions. */
  function ClassHours(s: Subject): int {
    s.required.le + s.required.tu + s.required.pr / 2
  }

  /** The hours needed, counting each merge group once. */
  function Needed(rows: seq<Subject>): int
    decreases |rows|
  {
    if rows == [] then 0
    else
      var init := rows[..|rows| - 1];
      var s := rows[|rows| - 1];
      if DataLoaderWorkload.Skipped(s, DataLoaderWorkload.SeenGroups(init)) then Needed(init)
      else Needed(init) + ClassHours(s)
  }

  /** Without merged records, every record counts. */
  lemma {:induction false} NeededUnmerged(rows: seq<Subject>)
    requires forall i :: 0 <= i < |rows| ==> !rows[i].isMerged
    ensures Needed(rows) == Sum(rows, ClassHours)
    decreases |rows|
  {
    if rows != [] {
      NeededUnmerged(rows[..|rows| - 1]);
    }
  }

  /** `f` summed over `rows`. */
  function Sum(rows: seq<Subject>, f: Subject -> int): int
    decreases |rows|
  {
    if rows == [] then 0 else Sum(rows[..|rows| - 1], f) + f(rows[|rows| - 1])
  }

  /** A merged record whose group is already counted adds no hours. */
  lemma NeededCountsGroupOnce(rows: seq<Subject>, s: Subject, j: nat)
    requires j < |rows| && rows[j].isMerged && s.isMerged
    requires rows[j].mergeGroupId == s.mergeGroupId && s.mergeGroupId.Some? && s.mergeGroupId.value != ""
    ensures Needed(rows + [s]) == Needed(rows)
  {
    assert (rows + [s])[..|rows|] == rows;
    assert s.mergeGroupId.value in DataLoaderWorkload.SeenGroups(rows);
  }

  /** The slots a record's semester reserves for `ty`. */
  function SemesterSlots(ty: string): Subject -> set<nat> {
    (s: Subject) => ConfigV2.SetOf(ConfigV2.FixedSlotIndices(ty, Some(s.semester)))
  }

  /** `f` united over `rows`. */
  function UnionOf(rows: seq<Subject>, f: Subject -> set<nat>): set<nat>
    decreases |rows|
  {
    if rows == [] then {} else UnionOf(rows[..|rows| - 1], f) + f(rows[|rows| - 1])
  }

  lemma {:induction false} UnionOfMembers(rows: seq<Subject>, f: Subject -> set<nat>, i: nat)
    ensures i in UnionOf(rows, f) <==> exists s :: s in rows && i in f(s)
    decreases |rows|
  {
    if rows != [] {
      var init := rows[..|rows| - 1];
      UnionOfMembers(init, f, i);
      assert rows == init + [rows[|rows| - 1]];
    }
  }

  /** The union of the semester-specific slots of the records (lines 159-167). */
  function UnionSlots(rows: seq<Subject>, ty: string): set<nat> {
    UnionOf(rows, SemesterSlots(ty))
  }

  /** SEC and VAC take their slots from the semesters of their records; GE and AEC
      from their own entries. */
  function SlotsAvailable(rows: seq<Subject>, ty: string): nat {
    if ty == "SEC" || ty == "VAC" then |UnionSlots(rows, ty)| else |ConfigV2.FixedSlotIndices(ty, None)|
  }

  function TypeUsage(subjects: seq<Subject>, roomCapacities: map<string, map<string, int>>, ty: string): SlotUsage {
    var rows := OfType(subjects, ty);
    var available := SlotsAvailable(rows, ty);
    SlotUsage(|rows|, Needed(rows), available, available * ClassroomCount(roomCapacities))
  }

  /** Lines 194-217: an overflow is an issue, and so is a capacity of zero. */
  function TypeNotes(ty: string, u: SlotUsage): Notes {
    if u.capacity > 0 then
      if u.hoursNeeded > u.capacity then Notes([FixedSlotOverflow(ty, u.hoursNeeded, u.capacity)], [])
      else if 100 * u.hoursNeeded > 80 * u.capacity then Notes([], [FixedSlotBusy(ty, u.hoursNeeded, u.capacity)])
      else Notes([], [])
    else Notes([NoSlotsConfigured(ty, u.hoursNeeded)], [])
  }

  /** Each type's figures, as a function of the type. */
  function UsageOf(subjects: seq<Subject>, roomCapacities: map<string, map<string, int>>): string -> SlotUsage {
    (ty: string) => TypeUsage(subjects, roomCapacities, ty)
  }

  /** The types `types` in turn, with figures `usage`; a type without records is skipped. */
  function NotesOver(types: seq<string>, usage: string -> SlotUsage): Notes
    decreases |types|
  {
    if types == [] then Notes([], [])
    else
      var prev := NotesOver(types[..|types| - 1], usage);
      var ty := types[|types| - 1];
      if usage(ty).subjects == 0 then prev else Then(prev, TypeNotes(ty, usage(ty)))
  }

  /** The figures reported per type, for the types with records. */
  function UsagesOver(types: seq<string>, usage: string -> SlotUsage): map<string, SlotUsage>
    decreases |types|
  {
    if types == [] then map[]
    else
      var prev := UsagesOver(types[..|types| - 1], usage);
      var ty := types[|types| - 1];
      if usage(ty).subjects == 0 then prev else prev[ty := usage(ty)]
  }

  function FixedSlotNotes(subjects: seq<Subject>, roomCapacities: map<string, map<string, int>>, types: seq<string>): Notes {
    NotesOver(types, UsageOf(subjects, roomCapacities))
  }

  function FixedSlotUsages(subjects: seq<Subject>, roomCapacities: map<string, map<string, int>>, types: seq<string>): map<string, SlotUsage> {
    UsagesOver(types, UsageOf(subjects, roomCapacities))
  }

  /** A type with records raises an issue exactly when its capacity is not positive
      or falls short of the hours needed. */
  lemma TypeNotesIssue(ty: string, u: SlotUsage)
    ensures TypeNotes(ty, u).issues == [] <==> u.capacity > 0 && u.hoursNeeded <= u.capacity
    ensures TypeNotes(ty, u).warnings != [] ==> u.capacity > 0 && Busy(u.hoursNeeded, u.capacity)
  {
  }

  /** A type without records needs nothing; one with records must fit its
      positive capacity. */
  predicate Fits(u: SlotUsage) {
    u.subjects > 0 ==> u.capacity > 0 && u.hoursNeeded <= u.capacity
  }

  predicate TypeFits(subjects: seq<Subject>, roomCapacities: map<string, map<string, int>>, ty: string) {
    Fits(UsageOf(subjects, roomCapacities)(ty))
  }

  /** The types raise no issue exactly when every one of them fits. */
  lemma {:induction false} NotesOverEmpty(types: seq<string>, usage: string -> SlotUsage)
    ensures NotesOver(types, usage).issues == [] <==> forall ty :: ty in types ==> Fits(usage(ty))
    decreases |types|
  {
    if types != [] {
      var init := types[..|types| - 1];
      var ty := types[|types| - 1];
      NotesOverEmpty(init, usage);
      TypeNotesIssue(ty, usage(ty));
      assert types == init + [ty];
    }
  }

  /** The fixed-slot check raises no issue exactly when every type fits. */
  lemma FixedSlotNotesEmpty(subjects: seq<Subject>, roomCapacities: map<string, map<string, int>>, types: seq<string>)
    ensures FixedSlotNotes(subjects, roomCapacities, types).issues == [] <==>
      forall ty :: ty in types ==> TypeFits(subjects, roomCapacities, ty)
  {
    NotesOverEmpty(types, UsageOf(subjects, roomCapacities));
  }

  // ---------------------------------------------------------------------------
  // Lines 221-301: room capacity for the DSC/DSE classes.

  predicate IsCore(s: Subject) {
    s.subjectType in ["DSC", "DSE", ""]
  }

  /** The DSC/DSE records (an empty type counts as DSC/DSE). */
  function CoreRows(rows: seq<Subject>): seq<Subject> {
    Filter(rows, IsCore)
  }

  function LectureHours(s: Subject): int { s.required.le }

  function TutorialHours(s: Subject): int { s.required.tu }

  function PracticalSessions(s: Subject): int { s.required.pr / 2 }

  /** The sums are over the records as listed: merged copies all count here. */
  function RoomStatsOf(subjects: seq<Subject>, roomCapacities: map<string, map<string, int>>, fixedCount: nat, labCount: nat): RoomStats {
    var core := CoreRows(subjects);
    var available := Grid.SlotCount - fixedCount;
    RoomStats(Sum(core, LectureHours) + Sum(core, TutorialHours), available * ClassroomCount(roomCapacities),
              Sum(core, PracticalSessions), if labCount > 0 then available * labCount else 0)
  }

  /** Lines 254-294: a shortage of classrooms or labs is an issue, and so is needing
      practicals with no lab capacity; over 80% use is a warning. */
  function RoomNotes(r: RoomStats): Notes {
    var theory :=
      if r.theoryCapacity > 0 then
        if r.theoryNeeded > r.theoryCapacity then Notes([ClassroomShortage(r.theoryNeeded, r.theoryCapacity)], [])
        else if Busy(r.theoryNeeded, r.theoryCapacity) then Notes([], [ClassroomsBusy(r.theoryNeeded, r.theoryCapacity)])
        else Notes([], [])
      else Notes([], []);
    var labs :=
      if r.practicalCapacity > 0 then
        if r.practicalNeeded > r.practicalCapacity then Notes([LabShortage(r.practicalNeeded, r.practicalCapacity)], [])
        else if Busy(r.practicalNeeded, r.practicalCapacity) then Notes([], [LabsBusy(r.practicalNeeded, r.practicalCapacity)])
        else Notes([], [])
      else if r.practicalNeeded > 0 then Notes([NoLabsConfigured(r.practicalNeeded)], [])
      else Notes([], []);
    Then(theory, labs)
  }

  /** The room check raises no issue exactly when the theory hours fit the classroom
      capacity (or there is none) and the practical sessions fit the lab capacity,
      or there are none to place. */
  lemma RoomNotesEmpty(r: RoomStats)
    ensures RoomNotes(r).issues == [] <==>
      && (r.theoryCapacity > 0 ==> r.theoryNeeded <= r.theoryCapacity)
      && (if r.practicalCapacity > 0 then r.practicalNeeded <= r.practicalCapacity else r.practicalNeeded <= 0)
  {
  }

  /** The sums do not depend on how the records are split up. */
  lemma {:induction false} SumAppend(a: seq<Subject>, b: seq<Subject>, f: Subject -> int)
    ensures Sum(a + b, f) == Sum(a, f) + Sum(b, f)
    decreases |b|
  {
    if b == [] {
      assert a + b == a;
    } else {
      var init := b[..|b| - 1];
      SumAppend(a, init, f);
      assert (a + b)[..|a + b| - 1] == a + init;
    }
  }

  // ---------------------------------------------------------------------------
  // Lines 303-370: consecutive slots for practicals.

  /** Slot `t` starts a pair within its day, and neither slot of the pair is fixed. */
  predicate PairFree(fixed: set<nat>, t: nat) {
    t % Grid.SlotsPerDay != Grid.SlotsPerDay - 1 && t !in fixed && t + 1 !in fixed
  }

  /** The free pairs starting before `n`. */
  function PairCount(fixed: set<nat>, n: nat): nat {
    if n == 0 then 0 else PairCount(fixed, n - 1) + if PairFree(fixed, n - 1) then 1 else 0
  }

  /** The count is the number of free pair starts. */
  lemma {:induction false} PairCountIsSize(fixed: set<nat>, n: nat)
    ensures PairCount(fixed, n) == |set t: nat | t < n && PairFree(fixed, t)|
  {
    if n > 0 {
      PairCountIsSize(fixed, n - 1);
      var before := set t: nat | t < n - 1 && PairFree(fixed, t);
      var after := set t: nat | t < n && PairFree(fixed, t);
      if PairFree(fixed, n - 1) {
        assert after == before + {n - 1};
      } else {
        assert after == before;
      }
    }
  }

  /** More fixed slots never leave more pairs: a pair touching a fixed slot is not
      counted. */
  lemma {:induction false} PairCountShrinks(a: set<nat>, b: set<nat>, n: nat)
    requires a <= b
    ensures PairCount(b, n) <= PairCount(a, n)
  {
    if n > 0 {
      PairCountShrinks(a, b, n - 1);
    }
  }

  /** With nothing fixed, every slot but the last of its day starts a pair, so a
      week of six nine-slot days has 48. */
  lemma {:induction false} PairCountUnblocked(n: nat)
    ensures PairCount({}, n) == n - n / Grid.SlotsPerDay
  {
    if n > 0 {
      PairCountUnblocked(n - 1);
      var q, r := (n - 1) / 9, (n - 1) % 9;
      assert n - 1 == 9 * q + r;
      assert n / 9 == if r == 8 then q + 1 else q;
    }
  }

  predicate HasPractical(s: Subject) {
    s.required.pr > 0
  }

  /** The records with practical hours (line 308). */
  function PracticalRows(rows: seq<Subject>): seq<Subject> {
    Filter(rows, HasPractical)
  }

  function PairStatsOf(subjects: seq<Subject>, fixed: set<nat>): PairStats {
    var pairs := PairCount(fixed, |Grid.Days| * Grid.SlotsPerDay);
    PairStats(Sum(PracticalRows(subjects), PracticalSessions), if LabCount() > 0 then pairs * LabCount() else 0)
  }

  /** Lines 334-365. */
  function PairNotes(p: PairStats): Notes {
    if p.capacity > 0 then
      if p.needed > p.capacity then Notes([PracticalSlotShortage(p.needed, p.capacity)], [])
      else if Busy(p.needed, p.capacity) then Notes([], [PracticalSlotsBusy(p.needed, p.capacity)])
      else Notes([], [])
    else if p.needed > 0 then
      if LabCount() == 0 then Notes([NoLabsDefined(p.needed)], []) else Notes([NoConsecutiveSlots], [])
    else Notes([], [])
  }

  /** With labs in the table, a zero capacity means every pair is blocked. */
  lemma PairNotesBlocked(subjects: seq<Subject>, fixed: set<nat>)
    requires PairStatsOf(subjects, fixed).needed > 0
    ensures PairNotes(PairStatsOf(subjects, fixed)).issues == [NoConsecutiveSlots]
      <==> PairCount(fixed, |Grid.Days| * Grid.SlotsPerDay) == 0
  {
  }

  /** The pair check raises no issue exactly when the sessions fit the pair capacity,
      or there are none to place. */
  lemma PairNotesEmpty(p: PairStats)
    ensures PairNotes(p).issues == [] <==> if p.capacity > 0 then p.needed <= p.capacity else p.needed <= 0
  {
  }

  // ---------------------------------------------------------------------------
  // Lines 17-35: all checks in order.

  function AllNotes(subjects: seq<Subject>, roomCapacities: map<string, map<string, int>>, fixed: set<nat>): Notes {
    Then(Then(Then(WorkloadNotes(subjects), FixedSlotNotes(subjects, roomCapacities, Grid.FixedSlotTypes)),
              RoomNotes(RoomStatsOf(subjects, roomCapacities, |fixed|, LabCount()))),
         PairNotes(PairStatsOf(subjects, fixed)))
  }

  /** The input passes exactly when no teacher is over the maximum, every fixed-slot
      type with records fits its capacity, the DSC/DSE classes fit the rooms and the
      practical sessions fit the free consecutive pairs. */
  lemma AllNotesEmpty(subjects: seq<Subject>, roomCapacities: map<string, map<string, int>>, fixed: set<nat>)
    ensures var l := Workload(subjects).loads;
      var r := RoomStatsOf(subjects, roomCapacities, |fixed|, LabCount());
      var p := PairStatsOf(subjects, fixed);
      AllNotes(subjects, roomCapacities, fixed).issues == [] <==>
        && (forall t :: t in l.totals ==> l.totals[t] <= MaxHours)
        && (forall ty :: ty in Grid.FixedSlotTypes ==> TypeFits(subjects, roomCapacities, ty))
        && (r.theoryCapacity > 0 ==> r.theoryNeeded <= r.theoryCapacity)
        && (if r.practicalCapacity > 0 then r.practicalNeeded <= r.practicalCapacity else r.practicalNeeded <= 0)
        && (if p.capacity > 0 then p.needed <= p.capacity else p.needed <= 0)
  {
    WorkloadNotesEmpty(subjects);
    FixedSlotNotesEmpty(subjects, roomCapacities, Grid.FixedSlotTypes);
    RoomNotesEmpty(RoomStatsOf(subjects, roomCapacities, |fixed|, LabCount()));
    PairNotesEmpty(PairStatsOf(subjects, fixed));
  }

  // ---------------------------------------------------------------------------
  // Loops the checks run.

  /** Lines 76-89: credit each co-teacher in turn. */
  method CreditCoTeachers(l0: Loads, coTeachers: seq<string>, mainHours: int) returns (l: Loads)
    ensures l == CreditAll(l0, coTeachers, mainHours)
  {
    l := l0;
    for k := 0 to |coTeachers|
      invariant l == CreditAll(l0, coTeachers[..k], mainHours)
    {
      assert coTeachers[..k + 1][..k] == coTeachers[..k];
      var co := coTeachers[k];
      var cur := if co in l.totals then l.totals[co] else 0;
      l := Loads(l.totals[co := cur + mainHours], if co in l.totals then l.order else l.order + [co]);
    }
    assert coTeachers[..|coTeachers|] == coTeachers;
  }

  /** Lines 58-89 for one subject: credit the main teacher, then each co-teacher
      unless the subject is split teaching. */
  method CreditSubject(l0: Loads, s: Subject) returns (l: Loads)
    ensures l == (var m := Credit(l0, s.teacher, MainHours(s));
                  if s.isSplitTeaching then m else CreditAll(m, s.coTeachers, MainHours(s)))
  {
    var mainHours := TaughtSum(s);
    if mainHours == 0 {
      mainHours := s.totalTaughtHours.GetOr(s.totalHours);
    }
    var known := s.teacher in l0.totals;
    l := Loads(l0.totals[s.teacher := TotalOf(l0, s.teacher) + mainHours],
               if known then l0.order else l0.order + [s.teacher]);
    if !s.isSplitTeaching {
      l := CreditCoTeachers(l, s.coTeachers, mainHours);
    }
  }

  /** Lines 42-89: the tally of every subject, counting merge groups once. */
  method TallyWorkload(subjects: seq<Subject>) returns (l: Loads)
    ensures l == Workload(subjects).loads
  {
    l := Loads(map[], []);
    var processed: set<string> := {};
    for i := 0 to |subjects|
      invariant WorkloadState(l, processed) == Workload(subjects[..i])
    {
      var s := subjects[i];
      assert subjects[..i + 1][..i] == subjects[..i];
      if s.isMerged && s.mergeGroupId.Some? && s.mergeGroupId.value in processed {
        continue;
      }
      if s.isMerged && s.mergeGroupId.Some? && s.mergeGroupId.value != "" {
        processed := processed + {s.mergeGroupId.value};
      }
      l := CreditSubject(l, s);
    }
    assert subjects[..|subjects|] == subjects;
  }

  /** Lines 93-115. */
  method RankTeachers(l: Loads) returns (notes: Notes)
    ensures notes == Bands(l, Ranked(l))
  {
    var ranked := Sorting.SortBy(l.order, ByTotalDesc(l));
    notes := Notes([], []);
    for j := 0 to |ranked|
      invariant notes == Bands(l, ranked[..j])
    {
      assert ranked[..j + 1][..j] == ranked[..j];
      var t := ranked[j];
      var total := TotalOf(l, t);
      if total > MaxHours {
        notes := Notes(notes.issues + [TeacherOverload(t, total)], notes.warnings);
      } else if 10 * total >= 9 * MaxHours {
      } else if 5 * total < 4 * MaxHours {
        notes := Notes(notes.issues, notes.warnings + [Underutilized(t, total)]);
      }
    }
    assert ranked[..|ranked|] == ranked;
  }

  method FilterRows(subjects: seq<Subject>, keep: Subject -> bool) returns (rows: seq<Subject>)
    ensures rows == Filter(subjects, keep)
  {
    rows := [];
    for i := 0 to |subjects|
      invariant rows == Filter(subjects[..i], keep)
    {
      assert subjects[..i + 1][..i] == subjects[..i];
      if keep(subjects[i]) {
        rows := rows + [subjects[i]];
      }
    }
    assert subjects[..|subjects|] == subjects;
  }

  /** Lines 137-156. */
  method SumNeeded(rows: seq<Subject>) returns (needed: int)
    ensures needed == Needed(rows)
  {
    var processed: set<string> := {};
    var lecture, tutorial, sessions := 0, 0, 0;
    for i := 0 to |rows|
      invariant processed == DataLoaderWorkload.SeenGroups(rows[..i])
      invariant lecture + tutorial + sessions == Needed(rows[..i])
    {
      var s := rows[i];
      assert rows[..i + 1] == rows[..i] + [s];
      DataLoaderWorkload.SeenGroupsAppend(rows[..i], s);
      if s.isMerged && s.mergeGroupId.Some? && s.mergeGroupId.value in processed {
        continue;
      }
      if s.isMerged && s.mergeGroupId.Some? && s.mergeGroupId.value != "" {
        processed := processed + {s.mergeGroupId.value};
      }
      lecture := lecture + s.required.le;
      tutorial := tutorial + s.required.tu;
      sessions := sessions + s.required.pr / 2;
    }
    assert rows[..|rows|] == rows;
    needed := lecture + tutorial + sessions;
  }

  /** Lines 159-171. */
  method CountSlots(rows: seq<Subject>, ty: string) returns (available: nat)
    ensures available == SlotsAvailable(rows, ty)
  {
    if ty == "SEC" || ty == "VAC" {
      var all: set<nat> := {};
      for i := 0 to |rows|
        invariant all == UnionOf(rows[..i], SemesterSlots(ty))
      {
        assert rows[..i + 1][..i] == rows[..i];
        var indices := ConfigV2.GetFixedSlotIndices(ty, Some(rows[i].semester));
        all := all + ConfigV2.SetOf(indices);
      }
      assert rows[..|rows|] == rows;
      available := |all|;
    } else {
      var indices := ConfigV2.GetFixedSlotIndices(ty, None);
      available := |indices|;
    }
  }

  method SumOver(rows: seq<Subject>, f: Subject -> int) returns (total: int)
    ensures total == Sum(rows, f)
  {
    total := 0;
    for i := 0 to |rows|
      invariant total == Sum(rows[..i], f)
    {
      assert rows[..i + 1][..i] == rows[..i];
      total := total + f(rows[i]);
    }
    assert rows[..|rows|] == rows;
  }

  /** Lines 315-323: over each day, each slot but the last. */
  method CountPairs(fixed: set<nat>) returns (pairs: nat)
    ensures pairs == PairCount(fixed, |Grid.Days| * Grid.SlotsPerDay)
  {
    pairs := 0;
    var slotsPerDay := Grid.SlotsPerDay;
    for day := 0 to |Grid.Days|
      invariant pairs == PairCount(fixed, day * slotsPerDay)
    {
      for slot := 0 to slotsPerDay - 1
        invariant pairs == PairCount(fixed, day * slotsPerDay + slot)
      {
        var t1 := day * slotsPerDay + slot;
        var t2 := t1 + 1;
        assert t1 % slotsPerDay == slot;
        if t1 !in fixed && t2 !in fixed {
          pairs := pairs + 1;
        }
      }
      assert (day * slotsPerDay + slotsPerDay - 1) % slotsPerDay == slotsPerDay - 1;
    }
  }

  /** Lines 131-177 for one type. */
  method TypeCheck(subjects: seq<Subject>, roomCapacities: map<string, map<string, int>>, ty: string) returns (u: SlotUsage)
    ensures u == TypeUsage(subjects, roomCapacities, ty)
  {
    var rows := FilterRows(subjects, TypeIs(ty));
    var needed := SumNeeded(rows);
    var available := CountSlots(rows, ty);
    u := SlotUsage(|rows|, needed, available, available * ClassroomCount(roomCapacities));
  }

  /** The loop over the fixed-slot types (lines 129-217). */
  method FixedSlotCheck(subjects: seq<Subject>, roomCapacities: map<string, map<string, int>>)
    returns (usage: map<string, SlotUsage>, notes: Notes)
    ensures usage == FixedSlotUsages(subjects, roomCapacities, Grid.FixedSlotTypes)
    ensures notes == FixedSlotNotes(subjects, roomCapacities, Grid.FixedSlotTypes)
  {
    usage := map[];
    notes := Notes([], []);
    var types := Grid.FixedSlotTypes;
    ghost var of := UsageOf(subjects, roomCapacities);
    for k := 0 to |types|
      invariant usage == UsagesOver(types[..k], of)
      invariant notes == NotesOver(types[..k], of)
    {
      assert types[..k + 1][..k] == types[..k];
      var ty := types[k];
      var u := TypeCheck(subjects, roomCapacities, ty);
      if u.subjects == 0 {
        continue;
      }
      usage := usage[ty := u];
      notes := Then(notes, TypeNotes(ty, u));
    }
    assert types[..|types|] == types;
  }

  /** The demand and capacity figures of lines 226-243. */
  method RoomCheck(subjects: seq<Subject>, roomCapacities: map<string, map<string, int>>, fixed: set<nat>, labCount: nat)
    returns (r: RoomStats)
    ensures r == RoomStatsOf(subjects, roomCapacities, |fixed|, labCount)
  {
    var core := FilterRows(subjects, IsCore);
    var lectures := SumOver(core, LectureHours);
    var tutorials := SumOver(core, TutorialHours);
    var practicals := SumOver(core, PracticalSessions);
    var available := Grid.SlotCount - |fixed|;
    var classroomCapacity := available * ClassroomCount(roomCapacities);
    var labCapacity := if labCount > 0 then available * labCount else 0;
    r := RoomStats(lectures + tutorials, classroomCapacity, practicals, labCapacity);
  }

  /** The demand and capacity figures of lines 308-328. */
  method PairCheck(subjects: seq<Subject>) returns (p: PairStats)
    ensures p == PairStatsOf(subjects, ConfigV2.AllFixedSlotIndices())
  {
    var rows := FilterRows(subjects, HasPractical);
    var sessions := SumOver(rows, PracticalSessions);
    var fixed := ConfigV2.GetAllFixedSlotIndices();
    var pairs := CountPairs(fixed);
    var labCount := LabCount();
    p := PairStats(sessions, if labCount > 0 then pairs * labCount else 0);
  }

  lemma Regroup<T>(a: seq<T>, b: seq<T>, c: seq<T>, d: seq<T>, e: seq<T>)
    ensures a + b + c + d + e == a + (b + c + d + e)
  {
    assert a + b + c + d + e == a + (b + c + d) + e;
  }

  // ---------------------------------------------------------------------------
  // Lines 372-388: the overview statistics.

  /** Line 380: a record without a subject type counts as "DSC/DSE". */
  function TypeKey(s: Subject): string {
    if s.subjectType == "" then "DSC/DSE" else s.subjectType
  }

  /** An entry of `by_type`: how many records have the type and their total hours. */
  datatype TypeTotals = TypeTotals(count: int, hours: int)

  /** `stats["overview"]`. */
  datatype Overview = Overview(totalSubjects: nat, totalHours: int, byType: map<string, TypeTotals>)

  /** Line 375: the records' `Total_hours`, summed. */
  function TotalHours(subjects: seq<Subject>): int
    decreases |subjects|
  {
    if subjects == [] then 0
    else TotalHours(subjects[..|subjects| - 1]) + subjects[|subjects| - 1].totalHours
  }

  /** Lines 378-382: `by_type` after the records, one at a time, each added to its type's
      entry (a missing entry starting at zero). */
  function ByType(subjects: seq<Subject>): map<string, TypeTotals>
    decreases |subjects|
  {
    if subjects == [] then map[]
    else Tally(ByType(subjects[..|subjects| - 1]), subjects[|subjects| - 1])
  }

  /** Lines 380-382 for one record. */
  function Tally(m: map<string, TypeTotals>, s: Subject): map<string, TypeTotals> {
    m[TypeKey(s) := Bumped(m, s)]
  }

  /** The entry of the record's type with the record added (a missing entry starting at zero). */
  function Bumped(m: map<string, TypeTotals>, s: Subject): TypeTotals {
    var t := if TypeKey(s) in m then m[TypeKey(s)] else TypeTotals(0, 0);
    TypeTotals(t.count + 1, t.hours + s.totalHours)
  }

  /** The types of `subjects` in the order they first appear, which is the order of
      `by_type`'s keys. */
  function TypeOrder(subjects: seq<Subject>): (r: seq<string>)
    ensures forall i, j :: 0 <= i < j < |r| ==> r[i] != r[j]
    decreases |subjects|
  {
    if subjects == [] then []
    else
      var n := |subjects| - 1;
      var ks := TypeOrder(subjects[..n]);
      if TypeKey(subjects[n]) in ks then ks else ks + [TypeKey(subjects[n])]
  }

  /** The entries of `m` at `keys`, added up. */
  function Total(m: map<string, TypeTotals>, keys: seq<string>): TypeTotals
    requires forall k :: k in keys ==> k in m
    decreases |keys|
  {
    if keys == [] then TypeTotals(0, 0)
    else
      var n := |keys| - 1;
      var t := Total(m, keys[..n]);
      TypeTotals(t.count + m[keys[n]].count, t.hours + m[keys[n]].hours)
  }

  /** Lines 384-388. */
  function OverviewOf(subjects: seq<Subject>): Overview {
    Overview(|subjects|, TotalHours(subjects), ByType(subjects))
  }

  /** `by_type` has an entry for exactly the types that occur. */
  lemma {:induction false} ByTypeKeys(subjects: seq<Subject>)
    ensures forall k :: k in ByType(subjects) <==> k in TypeOrder(subjects)
    ensures forall k :: k in ByType(subjects) <==> exists i :: 0 <= i < |subjects| && TypeKey(subjects[i]) == k
    decreases |subjects|
  {
    if subjects != [] {
      var n := |subjects| - 1;
      ByTypeKeys(subjects[..n]);
      forall k | k in ByType(subjects)
        ensures exists i :: 0 <= i < |subjects| && TypeKey(subjects[i]) == k
      {
        if k != TypeKey(subjects[n]) {
          assert k in ByType(subjects[..n]);
          var i :| 0 <= i < n && TypeKey(subjects[..n][i]) == k;
          assert subjects[i] == subjects[..n][i];
        }
      }
      forall k, i | 0 <= i < |subjects| && TypeKey(subjects[i]) == k
        ensures k in ByType(subjects)
      {
        if i < n {
          assert subjects[..n][i] == subjects[i];
        }
      }
    }
  }

  /** Changing an entry that `keys` names once changes their total by the difference. */
  lemma {:induction false} TotalUpdate(m: map<string, TypeTotals>, keys: seq<string>, k: string, t: TypeTotals)
    requires forall k' :: k' in keys ==> k' in m
    requires forall i, j :: 0 <= i < j < |keys| ==> keys[i] != keys[j]
    ensures k in keys ==>
      Total(m[k := t], keys) == TypeTotals(Total(m, keys).count - m[k].count + t.count, Total(m, keys).hours - m[k].hours + t.hours)
    ensures k !in keys ==> Total(m[k := t], keys) == Total(m, keys)
    decreases |keys|
  {
    if keys != [] {
      var n := |keys| - 1;
      assert forall k' :: k' in keys[..n] ==> k' in keys;
      TotalUpdate(m, keys[..n], k, t);
      if keys[n] == k {
        assert k !in keys[..n];
      }
    }
  }

  /** One record more adds one to the count and its hours to the hours of the total. */
  lemma TallyTotal(m: map<string, TypeTotals>, keys: seq<string>, s: Subject)
    requires forall k :: k in m <==> k in keys
    requires forall i, j :: 0 <= i < j < |keys| ==> keys[i] != keys[j]
    ensures var keys' := if TypeKey(s) in keys then keys else keys + [TypeKey(s)];
      (forall k :: k in keys' ==> k in Tally(m, s)) &&
      Total(Tally(m, s), keys') == TypeTotals(Total(m, keys).count + 1, Total(m, keys).hours + s.totalHours)
  {
    var k := TypeKey(s);
    TotalUpdate(m, keys, k, Bumped(m, s));
    if k !in keys {
      var keys' := keys + [k];
      assert keys'[..|keys|] == keys;
    }
  }

  /** Lines 384-388: the per-type counts add up to `total_subjects` and the per-type hours
      to `total_hours`. */
  lemma {:induction false} OverviewSums(subjects: seq<Subject>)
    ensures forall k :: k in TypeOrder(subjects) ==> k in ByType(subjects)
    ensures Total(ByType(subjects), TypeOrder(subjects)) == TypeTotals(|subjects|, TotalHours(subjects))
    decreases |subjects|
  {
    ByTypeKeys(subjects);
    if subjects != [] {
      var n := |subjects| - 1;
      var init := subjects[..n];
      OverviewSums(init);
      ByTypeKeys(init);
      TallyTotal(ByType(init), TypeOrder(init), subjects[n]);
    }
  }

  // ---------------------------------------------------------------------------
  // The checker object.

  class Checker {
    const subjects: seq<Subject>
    const roomCapacities: map<string, map<string, int>>
    var issues: seq<Issue>
    var warnings: seq<Warning>
    var stats: Stats

    /** Lines 10-15. */
    constructor(subjects: seq<Subject>, roomCapacities: map<string, map<string, int>>)
      ensures this.subjects == subjects && this.roomCapacities == roomCapacities
      ensures issues == [] && warnings == [] && stats == Stats(None, None, None, None, None)
    {
      this.subjects := subjects;
      this.roomCapacities := roomCapacities;
      issues := [];
      warnings := [];
      stats := Stats(None, None, None, None, None);
    }

    method Append(n: Notes)
      modifies this
      ensures issues == old(issues) + n.issues && warnings == old(warnings) + n.warnings
      ensures stats == old(stats)
    {
      issues := issues + n.issues;
      warnings := warnings + n.warnings;
    }

    /** Lines 37-120. */
    method CheckTeacherWorkload()
      modifies this
      ensures issues == old(issues) + WorkloadNotes(subjects).issues
      ensures warnings == old(warnings) + WorkloadNotes(subjects).warnings
      ensures stats == old(stats).(teacherLoads := Some(Workload(subjects).loads.totals))
    {
      var l := TallyWorkload(subjects);
      var notes := RankTeachers(l);
      Append(notes);
      stats := stats.(teacherLoads := Some(l.totals));
    }

    /** Lines 122-219. */
    method CheckFixedSlotCapacity()
      modifies this
      ensures issues == old(issues) + FixedSlotNotes(subjects, roomCapacities, Grid.FixedSlotTypes).issues
      ensures warnings == old(warnings) + FixedSlotNotes(subjects, roomCapacities, Grid.FixedSlotTypes).warnings
      ensures stats == old(stats).(fixedSlotUsage := Some(FixedSlotUsages(subjects, roomCapacities, Grid.FixedSlotTypes)))
    {
      var usage, notes := FixedSlotCheck(subjects, roomCapacities);
      Append(notes);
      stats := stats.(fixedSlotUsage := Some(usage));
    }

    /** Lines 221-301. */
    method CheckRoomCapacity()
      modifies this
      ensures issues == old(issues) + RoomNotes(RoomStatsOf(subjects, roomCapacities, |ConfigV2.AllFixedSlotIndices()|, LabCount())).issues
      ensures warnings == old(warnings) + RoomNotes(RoomStatsOf(subjects, roomCapacities, |ConfigV2.AllFixedSlotIndices()|, LabCount())).warnings
      ensures stats == old(stats).(roomUsage := Some(RoomStatsOf(subjects, roomCapacities, |ConfigV2.AllFixedSlotIndices()|, LabCount())))
    {
      var fixed := ConfigV2.GetAllFixedSlotIndices();
      var r := RoomCheck(subjects, roomCapacities, fixed, LabCount());
      Append(RoomNotes(r));
      stats := stats.(roomUsage := Some(r));
    }

    /** Lines 303-370. */
    method CheckPracticalSlots()
      modifies this
      ensures issues == old(issues) + PairNotes(PairStatsOf(subjects, ConfigV2.AllFixedSlotIndices())).issues
      ensures warnings == old(warnings) + PairNotes(PairStatsOf(subjects, ConfigV2.AllFixedSlotIndices())).warnings
      ensures stats == old(stats).(practicalSlots := Some(PairStatsOf(subjects, ConfigV2.AllFixedSlotIndices())))
    {
      var p := PairCheck(subjects);
      Append(PairNotes(p));
      stats := stats.(practicalSlots := Some(p));
    }

    /** Lines 17-35: the input is feasible exactly when no check raised an issue. */
    /** Line 375: `total_hours`. */
    method SumHours() returns (total: int)
      ensures total == TotalHours(subjects)
    {
      total := 0;
      for i := 0 to |subjects|
        invariant total == TotalHours(subjects[..i])
      {
        assert subjects[..i + 1][..i] == subjects[..i];
        total := total + subjects[i].totalHours;
      }
      assert subjects[..|subjects|] == subjects;
    }

    /** Lines 378-382: `by_type`. */
    method CountByType() returns (byType: map<string, TypeTotals>)
      ensures byType == ByType(subjects)
    {
      byType := map[];
      for i := 0 to |subjects|
        invariant byType == ByType(subjects[..i])
      {
        assert subjects[..i + 1][..i] == subjects[..i];
        var k := if subjects[i].subjectType == "" then "DSC/DSE" else subjects[i].subjectType;
        var t := if k in byType then byType[k] else TypeTotals(0, 0);
        byType := byType[k := TypeTotals(t.count + 1, t.hours + subjects[i].totalHours)];
      }
      assert subjects[..|subjects|] == subjects;
    }

    /** Lines 372-388, `_calculate_statistics`. */
    method CalculateStatistics()
      modifies this
      ensures issues == old(issues) && warnings == old(warnings)
      ensures stats == old(stats).(overview := Some(OverviewOf(subjects)))
    {
      var totalHours := SumHours();
      var byType := CountByType();
      stats := stats.(overview := Some(Overview(|subjects|, totalHours, byType)));
    }

    method CheckFeasibility() returns (feasible: bool)
      modifies this
      ensures issues == old(issues) + AllNotes(subjects, roomCapacities, ConfigV2.AllFixedSlotIndices()).issues
      ensures warnings == old(warnings) + AllNotes(subjects, roomCapacities, ConfigV2.AllFixedSlotIndices()).warnings
      ensures feasible <==> issues == []
      ensures stats == old(stats).(
        teacherLoads := Some(Workload(subjects).loads.totals),
        fixedSlotUsage := Some(FixedSlotUsages(subjects, roomCapacities, Grid.FixedSlotTypes)),
        roomUsage := Some(RoomStatsOf(subjects, roomCapacities, |ConfigV2.AllFixedSlotIndices()|, LabCount())),
        practicalSlots := Some(PairStatsOf(subjects, ConfigV2.AllFixedSlotIndices())),
        overview := Some(OverviewOf(subjects)))
    {
      ghost var all := AllNotes(subjects, roomCapacities, ConfigV2.AllFixedSlotIndices());
      ghost var w := WorkloadNotes(subjects);
      ghost var f := FixedSlotNotes(subjects, roomCapacities, Grid.FixedSlotTypes);
      ghost var r := RoomNotes(RoomStatsOf(subjects, roomCapacities, |ConfigV2.AllFixedSlotIndices()|, LabCount()));
      ghost var p := PairNotes(PairStatsOf(subjects, ConfigV2.AllFixedSlotIndices()));
      assert all == Then(Then(Then(w, f), r), p);
      CheckTeacherWorkload();
      CheckFixedSlotCapacity();
      CheckRoomCapacity();
      CheckPracticalSlots();
      CalculateStatistics();
      Regroup(old(issues), w.issues, f.issues, r.issues, p.issues);
      Regroup(old(warnings), w.warnings, f.warnings, r.warnings, p.warnings);
      feasible := |issues| == 0;
    }
  }
}

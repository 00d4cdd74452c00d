/**
 * The deterministic helpers of project/src/constraint_builder.py that decide
 * which decision variables the CP-SAT model gets and what the room-fit
 * penalties weigh: the subject identifier, consecutive slots, the slots each
 * kind of subject may use, the variable keys `_create_variables` creates, the
 * student count of merged groups and the room and lab fit penalties.
 *
 * The solver objects themselves (`NewBoolVar`, `model.Add`) are not modelled:
 * a variable is represented by its dictionary key, a penalty constraint by
 * the lower bound it puts on the penalty variable. Python sets are iterated
 * in an order the model leaves open (the methods pick any remaining element).
 */
module ConstraintBuilder {
  import opened Wrappers
  import opened Records
  import opened Grid
  import ConfigV2
  import SolverEngine

  // ---------------------------------------------------------------------------
  // Identifiers and consecutive slots.

  /** Lines 75-89: "{Course_Semester}_{Subject}", with the main teacher's initials
      ("UNK" when unknown) appended for a split-teaching row. */
  function BuildSubjectId(s: Subject, initials: map<string, string>): string {
    var teacherInitials := if s.teacher in initials then initials[s.teacher] else "UNK";
    if s.isSplitTeaching then s.courseSemester + "_" + s.name + "_" + teacherInitials
    else s.courseSemester + "_" + s.name
  }

  /** The builder and the solver engine name every record alike, so the engine
      finds the variables the builder made. */
  lemma SubjectIdsAgree(s: Subject, initials: map<string, string>)
    ensures BuildSubjectId(s, initials) == SolverEngine.BuildSubjectId(s, initials)
  {
  }

  /** Lines 1394-1412: slot `t` directly follows slot `t - 1` on the same day. */
  function IsConsecutiveSlot(t: int): bool {
    if t <= 0 then false
    else
      var dayCurrent, slotCurrent := t / SlotsPerDay, t % SlotsPerDay;
      var dayPrevious, slotPrevious := (t - 1) / SlotsPerDay, (t - 1) % SlotsPerDay;
      dayCurrent == dayPrevious && slotCurrent == slotPrevious + 1
  }

  /** A positive slot follows its predecessor exactly when it does not open a day. */
  lemma ConsecutiveSlotAt(t: int)
    ensures IsConsecutiveSlot(t) <==> t > 0 && t % SlotsPerDay != 0
    ensures IsConsecutiveSlot(t) ==> DayOf(t) == DayOf(t - 1) && HourOf(t) == HourOf(t - 1) + 1
  {
    if t > 0 {
      var q, r := (t - 1) / SlotsPerDay, (t - 1) % SlotsPerDay;
      assert t - 1 == q * SlotsPerDay + r;
      if r + 1 < SlotsPerDay {
        assert t == q * SlotsPerDay + (r + 1);
        assert t / SlotsPerDay == q && t % SlotsPerDay == r + 1;
      } else {
        assert t == (q + 1) * SlotsPerDay;
        assert t / SlotsPerDay == q + 1 && t % SlotsPerDay == 0;
      }
    }
  }

  // ---------------------------------------------------------------------------
  // Allowed slots (lines 91-153).

  /** `set(range(len(time_slots)))`: the whole week. */
  function AllSlots(): (r: set<nat>)
    ensures forall t: nat :: t in r <==> t < SlotCount
  {
    var indices: seq<nat> := seq(SlotCount, t => t);
    assert forall t: nat :: t in indices <==> t < SlotCount by {
      forall t: nat | t < SlotCount
        ensures t in indices
      {
        assert indices[t] == t;
      }
    }
    ConfigV2.SetOf(indices)
  }

  /** The indices a type reserves for a semester, as a set. */
  function TypeSlots(courseType: string, semester: Option<int>): set<nat> {
    ConfigV2.SetOf(ConfigV2.FixedSlotIndices(courseType, semester))
  }

  /** The union of `f(x)` over the entries of `xs`, gathered in order. */
  function UnionOver<T, U>(xs: seq<T>, f: T -> set<U>): set<U>
    decreases |xs|
  {
    if xs == [] then {}
    else UnionOver(xs[..|xs| - 1], f) + f(xs[|xs| - 1])
  }

  lemma {:induction false} UnionOverAt<T, U>(xs: seq<T>, f: T -> set<U>, u: U)
    ensures u in UnionOver(xs, f) <==> exists x :: x in xs && u in f(x)
    decreases |xs|
  {
    if xs != [] {
      var init, last := xs[..|xs| - 1], xs[|xs| - 1];
      UnionOverAt(init, f, u);
      assert xs == init + [last];
    }
  }

  /** The slots each type reserves for the semester. */
  function TypeSlotsIn(semester: int): string -> set<nat> {
    ty => TypeSlots(ty, Some(semester))
  }

  /** The reserved slots of the types `types` in the semester (lines 130-131). */
  function BlockedBy(types: seq<string>, semester: int): set<nat> {
    UnionOver(types, TypeSlotsIn(semester))
  }

  /** Lines 125-138: every fixed-slot type the semester offers, and the GE practical
      slots of all four years, are closed to DSC and DSE. */
  function Blocked(semester: int): set<nat> {
    BlockedBy(FixedSlotTypesForSemester(semester), semester) + ConfigV2.FamilySet("GE_LAB", 4)
  }

  /** Lines 91-138: a fixed-slot subject may use only its type's slots (AEC also the
      Saturday AEC slots); any other subject every slot not blocked. */
  function AllowedSlots(s: Subject): set<nat> {
    var ty := s.subjectType;
    if ty in FixedSlotTypes then FixedTypeSlots(ty, s.semester)
    else AllSlots() - Blocked(s.semester)
  }

  /** Lines 109-123: GE its lecture hour, SEC and VAC their year's slots, AEC its own
      slots and those of "AEC_SAT" (`ty + "_SAT"` in that branch). */
  function FixedTypeSlots(ty: string, semester: int): set<nat> {
    if ty == "GE" then TypeSlots(ty, None)
    else if ty == "SEC" || ty == "VAC" then TypeSlots(ty, Some(semester))
    else TypeSlots(ty, None) + TypeSlots(ty + "_SAT", None)
  }

  /** Lines 140-153: GE practicals may use the GE lecture hour or the GE practical
      slots of their own year. */
  function GePracticalSlots(semester: int): set<nat> {
    TypeSlots("GE", None) + TypeSlots("GE_LAB", Some(semester))
  }

  /** The GE practical slots of any year, by weekday position and start hour. */
  predicate GeLabAnyAt(d: nat, h: Hour) {
    ((d == 5 || d == 2 || d == 3) && 15 <= h <= 16) || (d == 1 && 10 <= h <= 11)
  }

  lemma BlockedByAt(types: seq<string>, semester: int, i: nat)
    ensures i in BlockedBy(types, semester) <==> exists ty :: ty in types && i in TypeSlots(ty, Some(semester))
  {
    UnionOverAt(types, TypeSlotsIn(semester), i);
  }

  /** A fixed-slot subject may use exactly the positions its type reserves for its
      semester. */
  lemma FixedTypeAllowed(s: Subject, i: nat)
    requires s.subjectType in FixedSlotTypes
    ensures i in AllowedSlots(s) <==>
      i < SlotCount && ConfigV2.ReservedAt(s.subjectType, Some(s.semester), DayOf(i), HourOf(i))
  {
    var ty := s.subjectType;
    if ty == "GE" {
      ConfigV2.GeReference(None, i);
    } else if ty == "SEC" || ty == "VAC" {
      ConfigV2.FixedSlotIndicesReference(ty, Some(s.semester), i);
    } else {
      ConfigV2.AecReference(None, i);
      ConfigV2.FixedSlotIndicesReference("AEC_SAT", None, i);
    }
  }

  /** A DSC or DSE subject may use exactly the slots of the week that no fixed-slot
      type of its semester reserves and that are no year's GE practical slot. */
  lemma CoreAllowed(s: Subject, i: nat)
    requires s.subjectType !in FixedSlotTypes
    ensures i in AllowedSlots(s) <==>
      && i < SlotCount
      && !GeLabAnyAt(DayOf(i), HourOf(i))
      && forall ty :: ty in FixedSlotTypesForSemester(s.semester) ==>
           !ConfigV2.ReservedAt(ty, Some(s.semester), DayOf(i), HourOf(i))
  {
    var types := FixedSlotTypesForSemester(s.semester);
    BlockedByAt(types, s.semester, i);
    ConfigV2.GeLabUnionAt(i);
    forall ty | ty in types
      ensures i in TypeSlots(ty, Some(s.semester)) <==>
        i < SlotCount && ConfigV2.ReservedAt(ty, Some(s.semester), DayOf(i), HourOf(i))
    {
      ConfigV2.FixedSlotIndicesReference(ty, Some(s.semester), i);
    }
  }

  /** A GE practical may use the 12:30 hour of any day or its year's GE practical
      slots, and nothing else. */
  lemma GePracticalAllowed(semester: int, i: nat)
    ensures i in GePracticalSlots(semester) <==>
      i < SlotCount && (HourOf(i) == 12 || ConfigV2.ReservedAt("GE_LAB", Some(semester), DayOf(i), HourOf(i)))
  {
    ConfigV2.GeReference(None, i);
    ConfigV2.FixedSlotIndicesReference("GE_LAB", Some(semester), i);
  }

  /** A DSC or DSE subject never meets a GE practical slot of any year. */
  lemma CoreAvoidsGeLab(s: Subject, semester: int, i: nat)
    requires s.subjectType !in FixedSlotTypes
    requires i in ConfigV2.FixedSlotIndices("GE_LAB", Some(semester))
    ensures i !in AllowedSlots(s)
  {
    ConfigV2.FixedSlotIndicesReference("GE_LAB", Some(semester), i);
    CoreAllowed(s, i);
  }

  /** In one semester, a subject of an offered fixed-slot type and a DSC or DSE
      subject never share an allowed slot. */
  lemma FixedAndCoreApart(fixed: Subject, core: Subject, i: nat)
    requires fixed.semester == core.semester
    requires fixed.subjectType in FixedSlotTypesForSemester(core.semester)
    requires core.subjectType !in FixedSlotTypes
    ensures !(i in AllowedSlots(fixed) && i in AllowedSlots(core))
  {
    FixedTypeAllowed(fixed, i);
    CoreAllowed(core, i);
  }

  /** Nor does a GE practical share a slot with a DSC or DSE subject of a semester
      that offers GE. */
  lemma GePracticalAndCoreApart(semester: int, core: Subject, i: nat)
    requires 1 <= core.semester <= 8
    requires core.subjectType !in FixedSlotTypes
    ensures !(i in GePracticalSlots(semester) && i in AllowedSlots(core))
  {
    GePracticalAllowed(semester, i);
    CoreAllowed(core, i);
    AllowedSubjectTypesByYear(core.semester);
    assert "GE" in FixedSlotTypesForSemester(core.semester);
    if i < SlotCount && ConfigV2.ReservedAt("GE_LAB", Some(semester), DayOf(i), HourOf(i)) {
      assert GeLabAnyAt(DayOf(i), HourOf(i));
    }
  }

  /** Lines 127-138 as a loop: block each offered type, then each year's GE practicals. */
  method GetAllowedSlots(s: Subject) returns (allowed: set<nat>)
    ensures allowed == AllowedSlots(s)
  {
    var ty := s.subjectType;
    if ty in FixedSlotTypes {
      if ty == "GE" {
        var ge := ConfigV2.GetFixedSlotIndices(ty, None);
        return ConfigV2.SetOf(ge);
      } else if ty == "SEC" || ty == "VAC" {
        var own := ConfigV2.GetFixedSlotIndices(ty, Some(s.semester));
        return ConfigV2.SetOf(own);
      } else {
        var aec := ConfigV2.GetFixedSlotIndices(ty, None);
        var aecSat := ConfigV2.GetFixedSlotIndices(ty + "_SAT", None);
        return ConfigV2.SetOf(aec) + ConfigV2.SetOf(aecSat);
      }
    }
    var types := FixedSlotTypesForSemester(s.semester);
    var blocked := BlockTypes(types, s.semester);
    blocked := ConfigV2.AddFamily(blocked, "GE_LAB", 4);
    allowed := AllSlots() - blocked;
  }

  /** Lines 130-131: the loop over the semester's fixed-slot types. */
  method BlockTypes(types: seq<string>, semester: int) returns (blocked: set<nat>)
    ensures blocked == BlockedBy(types, semester)
  {
    blocked := {};
    for k := 0 to |types|
      invariant blocked == BlockedBy(types[..k], semester)
    {
      assert types[..k + 1][..k] == types[..k];
      var indices := ConfigV2.GetFixedSlotIndices(types[k], Some(semester));
      blocked := blocked + ConfigV2.SetOf(indices);
    }
    assert types[..|types|] == types;
  }

  /** Lines 140-153. */
  method GetGePracticalSlots(semester: int) returns (allowed: set<nat>)
    ensures allowed == GePracticalSlots(semester)
  {
    var ge := ConfigV2.GetFixedSlotIndices("GE", None);
    var geLab := ConfigV2.GetFixedSlotIndices("GE_LAB", Some(semester));
    allowed := ConfigV2.SetOf(ge) + ConfigV2.SetOf(geLab);
  }

  // ---------------------------------------------------------------------------
  // Decision-variable keys (`_create_variables`, lines 155-337).

  datatype Kind = Lecture | Tutorial | Practical

  /** A lecture, tutorial or practical variable: `(subject_id, t)`. */
  type SlotKey = (string, nat)

  /** A room-assignment variable: `(subject_id, t, room, kind)`. */
  datatype RoomKey = RoomKey(id: string, t: nat, room: string, kind: Kind)

  datatype PenaltyKind = OversizedRoom | UndersizedRoom | OversizedLab | UndersizedLab

  /** A room-penalty variable: `(subject_id, t, kind)`. */
  datatype PenaltyKey = PenaltyKey(id: string, t: nat, kind: PenaltyKind)

  /** The keys of the dictionaries `_create_variables` fills. */
  datatype Variables = Variables(
    lecture: set<SlotKey>,
    tutorial: set<SlotKey>,
    practical: set<SlotKey>,
    rooms: set<RoomKey>,
    penalties: set<PenaltyKey>)

  /** The hours of a kind the record's teacher teaches. */
  function Taught(s: Subject, kind: Kind): int {
    match kind
    case Lecture => s.taught.le
    case Tutorial => s.taught.tu
    case Practical => s.taught.pr
  }

  /** Lines 185-192 and 231-237: lectures and tutorials use the subject's allowed
      slots; practicals too, except that GE practicals use the GE practical slots. */
  function SlotsFor(s: Subject, kind: Kind): set<nat> {
    if kind == Practical && s.isGeLab then GePracticalSlots(s.semester) else AllowedSlots(s)
  }

  /** Which slots a record may use for each kind of class. The builder's own is
      `SlotsFor`; the key sets below are stated for any such map. */
  type SlotMap = (Subject, Kind) -> set<nat>

  /** The slots at which the record gets variables of a kind. */
  function VariableSlots(s: Subject, kind: Kind, slots: SlotMap): set<nat> {
    if Taught(s, kind) > 0 then slots(s, kind) else {}
  }

  function Keyed(id: string, slots: set<nat>): set<SlotKey> {
    set t | t in slots :: (id, t)
  }

  /** Lines 180-219: the keys of one kind over the records `subjects`. */
  function SlotKeys(subjects: seq<Subject>, initials: map<string, string>, kind: Kind, slots: SlotMap): set<SlotKey>
    decreases |subjects|
  {
    if subjects == [] then {}
    else
      var s := subjects[|subjects| - 1];
      SlotKeys(subjects[..|subjects| - 1], initials, kind, slots) + Keyed(BuildSubjectId(s, initials), VariableSlots(s, kind, slots))
  }

  /** A variable of a kind exists for `(id, t)` exactly when some record named `id`
      teaches hours of that kind and may use slot `t` for it. */
  lemma {:induction false} SlotKeysAt(subjects: seq<Subject>, initials: map<string, string>, kind: Kind, slots: SlotMap, id: string, t: nat)
    ensures (id, t) in SlotKeys(subjects, initials, kind, slots) <==>
      exists s :: s in subjects && BuildSubjectId(s, initials) == id && Taught(s, kind) > 0 && t in slots(s, kind)
    decreases |subjects|
  {
    if subjects != [] {
      var init, last := subjects[..|subjects| - 1], subjects[|subjects| - 1];
      SlotKeysAt(init, initials, kind, slots, id, t);
      assert subjects == init + [last];
    }
  }

  /** Every variable lies on the grid. */
  lemma SlotsForOnGrid(s: Subject, kind: Kind, t: nat)
    requires t in SlotsFor(s, kind)
    ensures t < SlotCount
  {
    if kind == Practical && s.isGeLab {
      GePracticalAllowed(s.semester, t);
    } else if s.subjectType in FixedSlotTypes {
      FixedTypeAllowed(s, t);
    } else {
      CoreAllowed(s, t);
    }
  }

  /** A room table such as `ROOMS`: names with their entries, in table order. */
  type Table = seq<(string, ConfigV2.RoomInfo)>

  /** `get_rooms_by_type("classroom")` over a room table. */
  function ClassroomsIn(table: Table): seq<string> {
    ConfigV2.NamesWhere(table, "classroom", None)
  }

  /** `get_labs_by_department` over a room table. */
  function LabsIn(table: Table, department: string): seq<string> {
    ConfigV2.NamesWhere(table, "lab", Some(department))
  }

  /** Lines 240-242 as written: backup labs only for a department found among the
      lab codes of `DEPARTMENT_LABS`, looked up by that code. */
  function BackupLabsAsWritten(table: Table, department: string): seq<string> {
    if department in ConfigV2.DepartmentLabs.Values then LabsIn(table, department) else []
  }

  /** The lab codes of `DEPARTMENT_LABS`. */
  lemma LabCodes()
    ensures ConfigV2.DepartmentLabs.Values == {"CL", "PL", "ChemL", "BioL", "EL"}
  {
    assert ConfigV2.DepartmentLabs["Computer Science"] == "CL";
    assert ConfigV2.DepartmentLabs["Physics"] == "PL";
    assert ConfigV2.DepartmentLabs["Chemistry"] == "ChemL";
    assert ConfigV2.DepartmentLabs["Biology"] == "BioL";
    assert ConfigV2.DepartmentLabs["Electronics"] == "EL";
  }

  /** The codes are no department names of the `ROOMS` table, so the test and the
      look-up never both succeed: no subject ever gets a backup lab. */
  lemma BackupLabsAsWrittenEmpty(department: string)
    ensures BackupLabsAsWritten(ConfigV2.Rooms(), department) == []
  {
    if department in ConfigV2.DepartmentLabs.Values {
      LabCodeHasNoLabs(department);
    }
  }

  /** No room of the `ROOMS` table lists a lab code as its department. */
  lemma LabCodeHasNoLabs(code: string)
    requires code in ConfigV2.DepartmentLabs.Values
    ensures ConfigV2.LabsByDepartment(code) == []
  {
    LabCodes();
    ConfigV2.LabsByDepartmentTable(code);
  }

  /** The department's own labs as backup, checked against the department names. */
  function BackupLabs(table: Table, department: string): seq<string> {
    if department in ConfigV2.DepartmentLabs then LabsIn(table, department) else []
  }

  /** With the `ROOMS` table each configured department has its labs as backup. */
  lemma BackupLabsOfDepartment(department: string)
    ensures department in ConfigV2.DepartmentLabs ==>
      BackupLabs(ConfigV2.Rooms(), department) == ConfigV2.LabsByDepartment(department) != []
    ensures department == "Computer Science" ==> BackupLabs(ConfigV2.Rooms(), department) == ["CL-1", "CL-2", "CL-3", "CL-4"]
    ensures department !in ConfigV2.DepartmentLabs ==> BackupLabs(ConfigV2.Rooms(), department) == []
  {
    ConfigV2.LabsByDepartmentTable(department);
  }

  function Placed(id: string, slots: set<nat>, rooms: seq<string>, kind: Kind): set<RoomKey> {
    set t, room | t in slots && room in rooms :: RoomKey(id, t, room, kind)
  }

  /** The room keys so far and `dept_labs`, a local of the whole method that only
      the lecture branch assigns (`None` while unassigned). */
  datatype RoomPass = RoomPass(keys: set<RoomKey>, deptLabs: Option<seq<string>>)

  /** `dept_labs` after one record: line 243 reassigns it, with the test as
      written, when the record has lectures; otherwise it keeps its value. */
  function LabsAfter(deptLabs: Option<seq<string>>, s: Subject, table: Table): Option<seq<string>> {
    if s.taught.le > 0 then Some(BackupLabsAsWritten(table, s.department)) else deptLabs
  }

  /** The backup labs `dept_labs` offers: none while it is unassigned. */
  function BackupOf(labs: Option<seq<string>>): seq<string> {
    if labs.Some? then labs.value else []
  }

  /** `dept_labs` after the records of `subjects`, record by record. */
  function DeptLabsAfter(subjects: seq<Subject>, table: Table): Option<seq<string>>
    decreases |subjects|
  {
    if subjects == [] then None
    else LabsAfter(DeptLabsAfter(subjects[..|subjects| - 1], table), subjects[|subjects| - 1], table)
  }

  /** Every backup lab line 243 computes for some record with lectures. */
  function LectureBackups(subjects: seq<Subject>, table: Table): seq<string>
    decreases |subjects|
  {
    if subjects == [] then []
    else
      var last := subjects[|subjects| - 1];
      LectureBackups(subjects[..|subjects| - 1], table) + (if last.taught.le > 0 then BackupLabsAsWritten(table, last.department) else [])
  }

  /** Whatever `dept_labs` holds was computed for some record with lectures. */
  lemma {:induction false} DeptLabsFromLectures(subjects: seq<Subject>, table: Table, room: string)
    requires room in BackupOf(DeptLabsAfter(subjects, table))
    ensures room in LectureBackups(subjects, table)
    decreases |subjects|
  {
    var init, last := subjects[..|subjects| - 1], subjects[|subjects| - 1];
    if last.taught.le <= 0 {
      DeptLabsFromLectures(init, table, room);
    }
  }

  /** With the `ROOMS` table no record with lectures gets a backup lab. */
  lemma {:induction false} LectureBackupsEmpty(subjects: seq<Subject>)
    ensures LectureBackups(subjects, ConfigV2.Rooms()) == []
    decreases |subjects|
  {
    if subjects != [] {
      LectureBackupsEmpty(subjects[..|subjects| - 1]);
      BackupLabsAsWrittenEmpty(subjects[|subjects| - 1].department);
    }
  }

  /** Lines 227-280 for one record. Lectures assign `dept_labs` and offer the
      classrooms and those labs; tutorials offer the same rooms, reading
      `dept_labs` once per slot, so they fail only when it is unassigned and they
      have a slot at all; practicals offer the department's labs. */
  function RoomStep(p: RoomPass, s: Subject, initials: map<string, string>, table: Table, classrooms: seq<string>, slots: SlotMap)
    : Result<RoomPass, PyError>
  {
    var id := BuildSubjectId(s, initials);
    var labs := LabsAfter(p.deptLabs, s, table);
    var backup := BackupOf(labs);
    var lectures := if s.taught.le > 0 then Placed(id, slots(s, Lecture), classrooms + backup, Lecture) else {};
    if s.taught.tu > 0 && slots(s, Tutorial) != {} && labs.None? then Err(NameError("dept_labs"))
    else
      var tutorials := if s.taught.tu > 0 then Placed(id, slots(s, Tutorial), classrooms + backup, Tutorial) else {};
      var practicals := if s.taught.pr > 0 then Placed(id, slots(s, Practical), LabsIn(table, s.department), Practical) else {};
      Ok(RoomPass(p.keys + lectures + tutorials + practicals, labs))
  }

  function RoomKeys(subjects: seq<Subject>, initials: map<string, string>, table: Table, classrooms: seq<string>, slots: SlotMap)
    : Result<RoomPass, PyError>
    decreases |subjects|
  {
    if subjects == [] then Ok(RoomPass({}, None))
    else
      match RoomKeys(subjects[..|subjects| - 1], initials, table, classrooms, slots)
      case Err(e) => Err(e)
      case Ok(p) => RoomStep(p, subjects[|subjects| - 1], initials, table, classrooms, slots)
  }

  /** Has some record of `subjects` lectures (so `dept_labs` is assigned)? */
  predicate SomeLecture(subjects: seq<Subject>) {
    exists k :: 0 <= k < |subjects| && subjects[k].taught.le > 0
  }

  /** No record up to and including position `j` has lectures. */
  predicate NoLectureUpTo(subjects: seq<Subject>, j: nat) {
    forall k :: 0 <= k <= j && k < |subjects| ==> subjects[k].taught.le <= 0
  }

  /** One record fails exactly when it has tutorials and a slot for them, no
      lectures, and no earlier record assigned `dept_labs`; otherwise `dept_labs`
      is assigned afterwards exactly when it was before or the record has lectures. */
  lemma RoomStepFails(p: RoomPass, s: Subject, initials: map<string, string>, table: Table, classrooms: seq<string>, slots: SlotMap)
    ensures RoomStep(p, s, initials, table, classrooms, slots).Err? <==>
      s.taught.tu > 0 && slots(s, Tutorial) != {} && s.taught.le <= 0 && p.deptLabs.None?
    ensures RoomStep(p, s, initials, table, classrooms, slots).Ok? ==>
      (RoomStep(p, s, initials, table, classrooms, slots).value.deptLabs.Some? <==> s.taught.le > 0 || p.deptLabs.Some?)
    ensures RoomStep(p, s, initials, table, classrooms, slots).Ok? ==>
      RoomStep(p, s, initials, table, classrooms, slots).value.deptLabs == LabsAfter(p.deptLabs, s, table)
  {
  }

  /** The record at `j` has tutorials at some slot and no record up to it has
      lectures. */
  predicate TutorialFirst(subjects: seq<Subject>, slots: SlotMap, j: nat) {
    j < |subjects| && subjects[j].taught.tu > 0 && slots(subjects[j], Tutorial) != {} && NoLectureUpTo(subjects, j)
  }

  /** After a successful pass `dept_labs` is assigned exactly when some record has
      lectures. */
  lemma {:induction false} RoomKeysAssignLabs(subjects: seq<Subject>, initials: map<string, string>, table: Table, classrooms: seq<string>, slots: SlotMap)
    ensures RoomKeys(subjects, initials, table, classrooms, slots).Ok? ==>
      (RoomKeys(subjects, initials, table, classrooms, slots).value.deptLabs.Some? <==> SomeLecture(subjects))
    ensures RoomKeys(subjects, initials, table, classrooms, slots).Ok? ==>
      RoomKeys(subjects, initials, table, classrooms, slots).value.deptLabs == DeptLabsAfter(subjects, table)
    decreases |subjects|
  {
    if subjects != [] {
      var n := |subjects| - 1;
      var init, last := subjects[..n], subjects[n];
      RoomKeysAssignLabs(init, initials, table, classrooms, slots);
      assert SomeLecture(subjects) == (SomeLecture(init) || last.taught.le > 0);
      if RoomKeys(init, initials, table, classrooms, slots).Ok? {
        RoomStepFails(RoomKeys(init, initials, table, classrooms, slots).value, last, initials, table, classrooms, slots);
      }
    }
  }

  /** The pass fails exactly when a record with tutorials at some slot comes before
      (or is) the first record with lectures: `dept_labs` is then read before it is
      assigned. */
  lemma {:induction false} RoomKeysFails(subjects: seq<Subject>, initials: map<string, string>, table: Table, classrooms: seq<string>, slots: SlotMap)
    ensures RoomKeys(subjects, initials, table, classrooms, slots).Err? <==> exists j :: TutorialFirst(subjects, slots, j)
    decreases |subjects|
  {
    if subjects != [] {
      var n := |subjects| - 1;
      var init, last := subjects[..n], subjects[n];
      RoomKeysFails(init, initials, table, classrooms, slots);
      RoomKeysAssignLabs(init, initials, table, classrooms, slots);
      forall j: nat | j < n
        ensures TutorialFirst(subjects, slots, j) == TutorialFirst(init, slots, j)
      {
        assert NoLectureUpTo(subjects, j) == NoLectureUpTo(init, j);
      }
      assert NoLectureUpTo(subjects, n) == (!SomeLecture(init) && last.taught.le <= 0);
      if RoomKeys(init, initials, table, classrooms, slots).Ok? {
        RoomStepFails(RoomKeys(init, initials, table, classrooms, slots).value, last, initials, table, classrooms, slots);
        if TutorialFirst(subjects, slots, n) {
          assert RoomKeys(subjects, initials, table, classrooms, slots).Err?;
        }
      } else {
        var j :| TutorialFirst(init, slots, j);
        assert TutorialFirst(subjects, slots, j);
      }
    }
  }



  /** One record adds only keys of its own identifier, at slots where it has
      variables of the key's kind. */
  lemma RoomStepKeys(p: RoomPass, s: Subject, initials: map<string, string>, table: Table, classrooms: seq<string>, slots: SlotMap, k: RoomKey)
    requires RoomStep(p, s, initials, table, classrooms, slots).Ok?
    requires k in RoomStep(p, s, initials, table, classrooms, slots).value.keys && k !in p.keys
    ensures k.id == BuildSubjectId(s, initials) && k.t in VariableSlots(s, k.kind, slots)
  {
  }

  /** Every room-assignment variable belongs to a class variable of its kind: a
      room is only ever offered at a slot where the class itself may take place. */
  lemma {:induction false} RoomKeysBelong(subjects: seq<Subject>, initials: map<string, string>, table: Table, classrooms: seq<string>, slots: SlotMap, k: RoomKey)
    requires RoomKeys(subjects, initials, table, classrooms, slots).Ok?
    requires k in RoomKeys(subjects, initials, table, classrooms, slots).value.keys
    ensures (k.id, k.t) in SlotKeys(subjects, initials, k.kind, slots)
    decreases |subjects|
  {
    var init, last := subjects[..|subjects| - 1], subjects[|subjects| - 1];
    var p := RoomKeys(init, initials, table, classrooms, slots).value;
    if k in p.keys {
      RoomKeysBelong(init, initials, table, classrooms, slots, k);
    } else {
      RoomStepKeys(p, last, initials, table, classrooms, slots, k);
      assert (k.id, k.t) in Keyed(BuildSubjectId(last, initials), VariableSlots(last, k.kind, slots));
    }
  }

  /** The rooms a record's variables of `kind` may use, given `dept_labs` as the
      record leaves it: its department's labs for practicals, the classrooms and
      the backup labs otherwise. */
  predicate Offered(s: Subject, table: Table, classrooms: seq<string>, kind: Kind, room: string, labs: Option<seq<string>>) {
    if kind == Practical then room in LabsIn(table, s.department) else room in classrooms + BackupOf(labs)
  }

  /** One record keeps the keys gathered so far. */
  lemma RoomStepKeeps(p: RoomPass, s: Subject, initials: map<string, string>, table: Table, classrooms: seq<string>, slots: SlotMap)
    requires RoomStep(p, s, initials, table, classrooms, slots).Ok?
    ensures p.keys <= RoomStep(p, s, initials, table, classrooms, slots).value.keys
  {
  }

  /** One record adds a key for each of its variables and each room offered for it. */
  lemma RoomStepCovers(p: RoomPass, s: Subject, initials: map<string, string>, table: Table, classrooms: seq<string>, slots: SlotMap,
                       kind: Kind, t: nat, room: string)
    requires RoomStep(p, s, initials, table, classrooms, slots).Ok?
    requires t in VariableSlots(s, kind, slots) && Offered(s, table, classrooms, kind, room, LabsAfter(p.deptLabs, s, table))
    ensures RoomKey(BuildSubjectId(s, initials), t, room, kind) in RoomStep(p, s, initials, table, classrooms, slots).value.keys
  {
  }

  /** A successful fold over a non-empty list succeeded on all but its last record. */
  lemma RoomKeysUnfold(subjects: seq<Subject>, initials: map<string, string>, table: Table, classrooms: seq<string>, slots: SlotMap)
    requires subjects != [] && RoomKeys(subjects, initials, table, classrooms, slots).Ok?
    ensures RoomKeys(subjects[..|subjects| - 1], initials, table, classrooms, slots).Ok?
    ensures RoomKeys(subjects, initials, table, classrooms, slots) ==
      RoomStep(RoomKeys(subjects[..|subjects| - 1], initials, table, classrooms, slots).value, subjects[|subjects| - 1], initials, table, classrooms, slots)
  {
  }

  /** Every lecture and tutorial variable gets every classroom and every backup lab
      `dept_labs` holds once its record is reached, and every practical variable
      every lab of its department. */
  lemma {:induction false} RoomKeysCover(subjects: seq<Subject>, initials: map<string, string>, table: Table, classrooms: seq<string>, slots: SlotMap,
                                         j: nat, kind: Kind, t: nat, room: string)
    requires RoomKeys(subjects, initials, table, classrooms, slots).Ok?
    requires j < |subjects| && t in VariableSlots(subjects[j], kind, slots)
    requires Offered(subjects[j], table, classrooms, kind, room, DeptLabsAfter(subjects[..j + 1], table))
    ensures RoomKey(BuildSubjectId(subjects[j], initials), t, room, kind) in RoomKeys(subjects, initials, table, classrooms, slots).value.keys
    decreases |subjects|
  {
    var init, last := subjects[..|subjects| - 1], subjects[|subjects| - 1];
    RoomKeysUnfold(subjects, initials, table, classrooms, slots);
    var p := RoomKeys(init, initials, table, classrooms, slots).value;
    if j < |init| {
      assert init[j] == subjects[j] && init[..j + 1] == subjects[..j + 1];
      RoomKeysCover(init, initials, table, classrooms, slots, j, kind, t, room);
      RoomStepKeeps(p, last, initials, table, classrooms, slots);
    } else {
      assert j == |subjects| - 1 && subjects[..j + 1] == subjects;
      RoomKeysAssignLabs(init, initials, table, classrooms, slots);
      RoomStepCovers(p, subjects[j], initials, table, classrooms, slots, kind, t, room);
    }
  }

  /** A lecture or tutorial is only ever offered a classroom or a backup lab that
      line 243 computed for some record with lectures. */
  lemma {:induction false} RoomKeysTheoryRooms(subjects: seq<Subject>, initials: map<string, string>, table: Table, classrooms: seq<string>, slots: SlotMap,
                                               k: RoomKey)
    requires RoomKeys(subjects, initials, table, classrooms, slots).Ok?
    requires k in RoomKeys(subjects, initials, table, classrooms, slots).value.keys && k.kind != Practical
    ensures k.room in classrooms || k.room in LectureBackups(subjects, table)
    decreases |subjects|
  {
    var init, last := subjects[..|subjects| - 1], subjects[|subjects| - 1];
    RoomKeysUnfold(subjects, initials, table, classrooms, slots);
    var p := RoomKeys(init, initials, table, classrooms, slots).value;
    if k in p.keys {
      RoomKeysTheoryRooms(init, initials, table, classrooms, slots, k);
    } else if k.room !in classrooms && last.taught.le <= 0 {
      RoomKeysAssignLabs(init, initials, table, classrooms, slots);
      assert k.room in BackupOf(DeptLabsAfter(init, table));
      DeptLabsFromLectures(init, table, k.room);
    }
  }

  /** With the `ROOMS` table, as line 243 is written, lectures and tutorials get
      classrooms only. */
  lemma RoomKeysClassroomsOnly(subjects: seq<Subject>, initials: map<string, string>, classrooms: seq<string>, slots: SlotMap, k: RoomKey)
    requires RoomKeys(subjects, initials, ConfigV2.Rooms(), classrooms, slots).Ok?
    requires k in RoomKeys(subjects, initials, ConfigV2.Rooms(), classrooms, slots).value.keys && k.kind != Practical
    ensures k.room in classrooms
  {
    RoomKeysTheoryRooms(subjects, initials, ConfigV2.Rooms(), classrooms, slots, k);
    LectureBackupsEmpty(subjects);
  }


  /** Lines 301-317 for one record: size-penalty variables at every theory slot when
      the subject has lecture or tutorial hours, and at every practical slot when
      it has practical hours (required hours, not the teacher's share). */
  function PenaltiesOf(s: Subject, initials: map<string, string>, slots: SlotMap): set<PenaltyKey> {
    var id := BuildSubjectId(s, initials);
    (if s.required.le > 0 || s.required.tu > 0 then Penalized(id, slots(s, Lecture), OversizedRoom, UndersizedRoom) else {})
    + (if s.required.pr > 0 then Penalized(id, slots(s, Practical), OversizedLab, UndersizedLab) else {})
  }

  /** An oversize and an undersize penalty at each of the slots. */
  function Penalized(id: string, slots: set<nat>, over: PenaltyKind, under: PenaltyKind): set<PenaltyKey> {
    set t, kind | t in slots && kind in {over, under} :: PenaltyKey(id, t, kind)
  }

  function PenaltyKeys(subjects: seq<Subject>, initials: map<string, string>, slots: SlotMap): set<PenaltyKey>
    decreases |subjects|
  {
    if subjects == [] then {}
    else PenaltyKeys(subjects[..|subjects| - 1], initials, slots) + PenaltiesOf(subjects[|subjects| - 1], initials, slots)
  }

  /** Record `s` calls for penalty `k`: it carries `k`'s identifier and has
      lecture or tutorial hours and may use `k.t` for a classroom penalty, or
      practical hours and may hold a practical at `k.t` for a lab penalty. */
  predicate CallsFor(s: Subject, initials: map<string, string>, slots: SlotMap, k: PenaltyKey) {
    BuildSubjectId(s, initials) == k.id &&
      if k.kind == OversizedRoom || k.kind == UndersizedRoom
      then (s.required.le > 0 || s.required.tu > 0) && k.t in slots(s, Lecture)
      else s.required.pr > 0 && k.t in slots(s, Practical)
  }

  /** One record's penalties are exactly the ones it calls for. */
  lemma PenaltiesOfAt(s: Subject, initials: map<string, string>, slots: SlotMap, k: PenaltyKey)
    ensures k in PenaltiesOf(s, initials, slots) <==> CallsFor(s, initials, slots, k)
  {
  }

  /** A classroom penalty exists for `(id, t)` exactly when a record named `id` has
      lecture or tutorial hours and may use `t`; a lab penalty when it has practical
      hours and may hold a practical at `t`. */
  lemma {:induction false} PenaltyKeysAt(subjects: seq<Subject>, initials: map<string, string>, slots: SlotMap, k: PenaltyKey)
    ensures k in PenaltyKeys(subjects, initials, slots) <==>
      exists s :: s in subjects && CallsFor(s, initials, slots, k)
    decreases |subjects|
  {
    if subjects != [] {
      var init, last := subjects[..|subjects| - 1], subjects[|subjects| - 1];
      PenaltyKeysAt(init, initials, slots, k);
      PenaltiesOfAt(last, initials, slots, k);
      assert subjects == init + [last];
      assert (exists s :: s in subjects && CallsFor(s, initials, slots, k)) <==>
             (exists s :: s in init && CallsFor(s, initials, slots, k)) || CallsFor(last, initials, slots, k);
    }
  }

  /** What `_create_variables` returns, or the error it raises. */
  function VariablesOf(subjects: seq<Subject>, initials: map<string, string>, table: Table): Result<Variables, PyError> {
    match RoomKeys(subjects, initials, table, ClassroomsIn(table), SlotsFor)
    case Err(e) => Err(e)
    case Ok(p) =>
      Ok(Variables(SlotKeys(subjects, initials, Lecture, SlotsFor), SlotKeys(subjects, initials, Tutorial, SlotsFor),
                   SlotKeys(subjects, initials, Practical, SlotsFor), p.keys, PenaltyKeys(subjects, initials, SlotsFor)))
  }

  // ---------------------------------------------------------------------------
  // `_create_variables` as the loops it runs.

  /** Lines 184-192, repeated at 226-233 and 290-297: the slots of a subject's
      lectures and tutorials, and of its practicals. */
  method GetSlots(s: Subject) returns (theory: set<nat>, practical: set<nat>)
    ensures theory == SlotsFor(s, Lecture) == SlotsFor(s, Tutorial)
    ensures practical == SlotsFor(s, Practical)
  {
    theory := GetAllowedSlots(s);
    if s.isGeLab {
      practical := GetGePracticalSlots(s.semester);
    } else {
      practical := theory;
    }
  }

  /** One `for t in slots` loop of lines 197-217: a variable per slot. */
  method AddKeyed(keys: set<SlotKey>, id: string, slots: set<nat>) returns (r: set<SlotKey>)
    ensures r == keys + Keyed(id, slots)
  {
    r := keys;
    var left := slots;
    ghost var done: set<nat> := {};
    while left != {}
      invariant done + left == slots
      invariant r == keys + Keyed(id, done)
      decreases |left|
    {
      var t :| t in left;
      assert Keyed(id, done + {t}) == Keyed(id, done) + {(id, t)};
      r := r + {(id, t)};
      done, left := done + {t}, left - {t};
    }
  }


  /** The keys over one more record. */
  lemma SlotKeysNext(subjects: seq<Subject>, initials: map<string, string>, kind: Kind, slots: SlotMap, i: nat)
    requires i < |subjects|
    ensures SlotKeys(subjects[..i + 1], initials, kind, slots) ==
      SlotKeys(subjects[..i], initials, kind, slots) + Keyed(BuildSubjectId(subjects[i], initials), VariableSlots(subjects[i], kind, slots))
  {
    assert subjects[..i + 1][..i] == subjects[..i];
  }

  /** Lines 181-217 for one record: its lecture, tutorial and practical variables. */
  method KeySubject(lecture: set<SlotKey>, tutorial: set<SlotKey>, practical: set<SlotKey>, s: Subject, initials: map<string, string>)
    returns (lecture': set<SlotKey>, tutorial': set<SlotKey>, practical': set<SlotKey>)
    ensures lecture' == lecture + Keyed(BuildSubjectId(s, initials), VariableSlots(s, Lecture, SlotsFor))
    ensures tutorial' == tutorial + Keyed(BuildSubjectId(s, initials), VariableSlots(s, Tutorial, SlotsFor))
    ensures practical' == practical + Keyed(BuildSubjectId(s, initials), VariableSlots(s, Practical, SlotsFor))
  {
    var id := BuildSubjectId(s, initials);
    var theorySlots, practicalSlots := GetSlots(s);
    lecture', tutorial', practical' := lecture, tutorial, practical;
    if s.taught.le > 0 {
      lecture' := AddKeyed(lecture, id, theorySlots);
    }
    if s.taught.tu > 0 {
      tutorial' := AddKeyed(tutorial, id, theorySlots);
    }
    if s.taught.pr > 0 {
      practical' := AddKeyed(practical, id, practicalSlots);
    }
  }

  /** Lines 180-217: the lecture, tutorial and practical variables. */
  method SlotVariables(subjects: seq<Subject>, initials: map<string, string>)
    returns (lecture: set<SlotKey>, tutorial: set<SlotKey>, practical: set<SlotKey>)
    ensures lecture == SlotKeys(subjects, initials, Lecture, SlotsFor)
    ensures tutorial == SlotKeys(subjects, initials, Tutorial, SlotsFor)
    ensures practical == SlotKeys(subjects, initials, Practical, SlotsFor)
  {
    lecture, tutorial, practical := {}, {}, {};
    for i := 0 to |subjects|
      invariant lecture == SlotKeys(subjects[..i], initials, Lecture, SlotsFor)
      invariant tutorial == SlotKeys(subjects[..i], initials, Tutorial, SlotsFor)
      invariant practical == SlotKeys(subjects[..i], initials, Practical, SlotsFor)
    {
      SlotKeysNext(subjects, initials, Lecture, SlotsFor, i);
      SlotKeysNext(subjects, initials, Tutorial, SlotsFor, i);
      SlotKeysNext(subjects, initials, Practical, SlotsFor, i);
      lecture, tutorial, practical := KeySubject(lecture, tutorial, practical, subjects[i], initials);
    }
    assert subjects[..|subjects|] == subjects;
  }

  /** One `for t in slots: for room in rooms` nest of lines 236-280. */
  method AddPlaced(keys: set<RoomKey>, id: string, slots: set<nat>, rooms: seq<string>, kind: Kind)
    returns (r: set<RoomKey>)
    ensures r == keys + Placed(id, slots, rooms, kind)
  {
    r := keys;
    var left := slots;
    ghost var done: set<nat> := {};
    while left != {}
      invariant done + left == slots
      invariant r == keys + Placed(id, done, rooms, kind)
      decreases |left|
    {
      var t :| t in left;
      for j := 0 to |rooms|
        invariant r == keys + Placed(id, done, rooms, kind) + Placed(id, {t}, rooms[..j], kind)
      {
        PlacedOneMore(id, t, rooms, j, kind);
        r := r + {RoomKey(id, t, rooms[j], kind)};
      }
      assert rooms[..|rooms|] == rooms;
      PlacedUnion(id, done, t, rooms, kind);
      done, left := done + {t}, left - {t};
    }
  }

  lemma PlacedOneMore(id: string, t: nat, rooms: seq<string>, j: nat, kind: Kind)
    requires j < |rooms|
    ensures Placed(id, {t}, rooms[..j + 1], kind) == Placed(id, {t}, rooms[..j], kind) + {RoomKey(id, t, rooms[j], kind)}
  {
    assert rooms[..j + 1] == rooms[..j] + [rooms[j]];
  }

  lemma PlacedUnion(id: string, slots: set<nat>, t: nat, rooms: seq<string>, kind: Kind)
    ensures Placed(id, slots + {t}, rooms, kind) == Placed(id, slots, rooms, kind) + Placed(id, {t}, rooms, kind)
  {
  }


  /** Once the pass has failed on a prefix, it fails with that error. */
  lemma {:induction false} RoomKeysErrPersists(subjects: seq<Subject>, initials: map<string, string>, table: Table, classrooms: seq<string>, slots: SlotMap, i: nat)
    requires i <= |subjects| && RoomKeys(subjects[..i], initials, table, classrooms, slots).Err?
    ensures RoomKeys(subjects, initials, table, classrooms, slots) == RoomKeys(subjects[..i], initials, table, classrooms, slots)
    decreases |subjects|
  {
    if i == |subjects| {
      assert subjects[..i] == subjects;
    } else {
      var init := subjects[..|subjects| - 1];
      assert init[..i] == subjects[..i];
      RoomKeysErrPersists(init, initials, table, classrooms, slots, i);
    }
  }

  /** Lines 224-280 for one record: its room variables, and `dept_labs` as the
      lecture branch leaves it. */
  method PlaceRooms(p: RoomPass, s: Subject, initials: map<string, string>, table: Table, classrooms: seq<string>)
    returns (r: Result<RoomPass, PyError>)
    ensures r == RoomStep(p, s, initials, table, classrooms, SlotsFor)
  {
    var id := BuildSubjectId(s, initials);
    var theorySlots, practicalSlots := GetSlots(s);
    ghost var labs := LabsAfter(p.deptLabs, s, table);
    ghost var backupLabs := BackupOf(labs);
    ghost var lectures := if s.taught.le > 0 then Placed(id, theorySlots, classrooms + backupLabs, Lecture) else {};
    ghost var tutorials := if s.taught.tu > 0 then Placed(id, theorySlots, classrooms + backupLabs, Tutorial) else {};
    ghost var practicals := if s.taught.pr > 0 then Placed(id, practicalSlots, LabsIn(table, s.department), Practical) else {};
    var rooms, deptLabs := p.keys, p.deptLabs;
    if s.taught.le > 0 {
      deptLabs := Some(BackupLabsAsWritten(table, s.department));
      rooms := AddPlaced(rooms, id, theorySlots, classrooms + deptLabs.value, Lecture);
    }
    assert rooms == p.keys + lectures && deptLabs == labs;
    if s.taught.tu > 0 {
      if theorySlots != {} && deptLabs.None? {
        return Err(NameError("dept_labs"));
      }
      var backup := if deptLabs.Some? then deptLabs.value else [];
      rooms := AddPlaced(rooms, id, theorySlots, classrooms + backup, Tutorial);
    }
    assert rooms == p.keys + lectures + tutorials;
    if s.taught.pr > 0 {
      rooms := AddPlaced(rooms, id, practicalSlots, LabsIn(table, s.department), Practical);
    }
    assert rooms == p.keys + lectures + tutorials + practicals;
    return Ok(RoomPass(rooms, deptLabs));
  }

  /** Lines 222-280: the room-assignment variables, or the `NameError` raised when a
      tutorial reads `dept_labs` before any lecture assigned it. */
  method RoomVariables(subjects: seq<Subject>, initials: map<string, string>, table: Table)
    returns (r: Result<set<RoomKey>, PyError>)
    ensures RoomKeys(subjects, initials, table, ClassroomsIn(table), SlotsFor).Ok? ==>
      r == Ok(RoomKeys(subjects, initials, table, ClassroomsIn(table), SlotsFor).value.keys)
    ensures RoomKeys(subjects, initials, table, ClassroomsIn(table), SlotsFor).Err? ==>
      r == Err(RoomKeys(subjects, initials, table, ClassroomsIn(table), SlotsFor).error)
  {
    var classrooms := ClassroomsIn(table);
    var pass := RoomPass({}, None);
    for i := 0 to |subjects|
      invariant RoomKeys(subjects[..i], initials, table, classrooms, SlotsFor) == Ok(pass)
    {
      assert subjects[..i + 1][..i] == subjects[..i];
      var next := PlaceRooms(pass, subjects[i], initials, table, classrooms);
      if next.Err? {
        RoomKeysErrPersists(subjects, initials, table, classrooms, SlotsFor, i + 1);
        return Err(next.error);
      }
      pass := next.value;
    }
    assert subjects[..|subjects|] == subjects;
    return Ok(pass.keys);
  }

  lemma PenalizedOneMore(id: string, slots: set<nat>, t: nat, over: PenaltyKind, under: PenaltyKind)
    ensures Penalized(id, slots + {t}, over, under) ==
      Penalized(id, slots, over, under) + {PenaltyKey(id, t, over), PenaltyKey(id, t, under)}
  {
  }

  /** One `for t in slots` loop of lines 302-317: two penalties per slot. */
  method AddPenalties(keys: set<PenaltyKey>, id: string, slots: set<nat>, over: PenaltyKind, under: PenaltyKind)
    returns (r: set<PenaltyKey>)
    ensures r == keys + Penalized(id, slots, over, under)
  {
    r := keys;
    var left := slots;
    ghost var done: set<nat> := {};
    while left != {}
      invariant done + left == slots
      invariant r == keys + Penalized(id, done, over, under)
      decreases |left|
    {
      var t :| t in left;
      PenalizedOneMore(id, done, t, over, under);
      r := r + {PenaltyKey(id, t, over), PenaltyKey(id, t, under)};
      done, left := done + {t}, left - {t};
    }
  }


  /** Lines 285-317: the room-size penalty variables. */
  method PenaltyVariables(subjects: seq<Subject>, initials: map<string, string>) returns (penalties: set<PenaltyKey>)
    ensures penalties == PenaltyKeys(subjects, initials, SlotsFor)
  {
    penalties := {};
    for i := 0 to |subjects|
      invariant penalties == PenaltyKeys(subjects[..i], initials, SlotsFor)
    {
      var s := subjects[i];
      assert subjects[..i + 1][..i] == subjects[..i];
      var id := BuildSubjectId(s, initials);
      var theorySlots, practicalSlots := GetSlots(s);
      if s.required.le > 0 || s.required.tu > 0 {
        penalties := AddPenalties(penalties, id, theorySlots, OversizedRoom, UndersizedRoom);
      }
      if s.required.pr > 0 {
        penalties := AddPenalties(penalties, id, practicalSlots, OversizedLab, UndersizedLab);
      }
    }
    assert subjects[..|subjects|] == subjects;
  }

  /** Lines 155-337: every decision variable's key, or the error raised. */
  method CreateVariables(subjects: seq<Subject>, initials: map<string, string>, table: Table)
    returns (r: Result<Variables, PyError>)
    ensures r == VariablesOf(subjects, initials, table)
  {
    var lecture, tutorial, practical := SlotVariables(subjects, initials);
    var rooms := RoomVariables(subjects, initials, table);
    if rooms.Err? {
      return Err(rooms.error);
    }
    var penalties := PenaltyVariables(subjects, initials);
    r := Ok(Variables(lecture, tutorial, practical, rooms.value, penalties));
  }

  // ---------------------------------------------------------------------------
  // Room-fit penalty arithmetic (`_add_room_fit_penalties`, `_add_lab_fit_penalties`).

  /** The first record whose identifier is `id`, if any. */
  function FirstNamed(subjects: seq<Subject>, initials: map<string, string>, id: string): (r: Option<Subject>)
    ensures r.Some? ==> r.value in subjects && BuildSubjectId(r.value, initials) == id
    ensures r.None? <==> forall s :: s in subjects ==> BuildSubjectId(s, initials) != id
    decreases |subjects|
  {
    if subjects == [] then None
    else if BuildSubjectId(subjects[0], initials) == id then Some(subjects[0])
    else
      assert forall s :: s in subjects ==> s == subjects[0] || s in subjects[1..];
      FirstNamed(subjects[1..], initials, id)
  }

  /** The students of every record of merge group `group`. */
  function GroupCount(subjects: seq<Subject>, group: string): int
    decreases |subjects|
  {
    if subjects == [] then 0
    else (if subjects[0].mergeGroupId == Some(group) then subjects[0].studentsCount else 0) + GroupCount(subjects[1..], group)
  }

  /** Lines 497-510: the student count a class is fitted with. The first record
      named `id` decides: when it has a (non-empty) merge group, the students of the
      whole group; otherwise the count passed in. */
  function CountFor(subjects: seq<Subject>, initials: map<string, string>, id: string, studentCount: int): int {
    match FirstNamed(subjects, initials, id)
    case Some(s) =>
      if s.mergeGroupId.Some? && s.mergeGroupId.value != "" then GroupCount(subjects, s.mergeGroupId.value)
      else studentCount
    case None => studentCount
  }

  /** Lines 497-510 as the loop with its `break`. */
  method MergedCount(subjects: seq<Subject>, initials: map<string, string>, id: string, studentCount: int)
    returns (count: int)
    ensures count == CountFor(subjects, initials, id, studentCount)
  {
    count := studentCount;
    for i := 0 to |subjects|
      invariant FirstNamed(subjects[i..], initials, id) == FirstNamed(subjects, initials, id)
    {
      assert subjects[i..][1..] == subjects[i + 1..];
      if BuildSubjectId(subjects[i], initials) == id {
        var group := subjects[i].mergeGroupId;
        if group.Some? && group.value != "" {
          count := GroupCount(subjects, group.value);
        }
        return;
      }
    }
    assert subjects[|subjects|..] == [];
  }

  /** A group's total is at least each member's count when no count is negative. */
  lemma {:induction false} GroupCountCovers(subjects: seq<Subject>, group: string, s: Subject)
    requires forall r :: r in subjects ==> r.studentsCount >= 0
    requires s in subjects && s.mergeGroupId == Some(group)
    ensures GroupCount(subjects, group) >= s.studentsCount
    decreases |subjects|
  {
    GroupCountNonNegative(subjects[1..], group);
    if subjects[0] != s {
      GroupCountCovers(subjects[1..], group, s);
    }
  }

  lemma {:induction false} GroupCountNonNegative(subjects: seq<Subject>, group: string)
    requires forall r :: r in subjects ==> r.studentsCount >= 0
    ensures GroupCount(subjects, group) >= 0
    decreases |subjects|
  {
    if subjects != [] {
      GroupCountNonNegative(subjects[1..], group);
    }
  }

  /** Every record of a merge group is fitted with the same count: the group's. */
  lemma MergedCopiesAgree(subjects: seq<Subject>, initials: map<string, string>, id1: string, id2: string, n1: int, n2: int)
    requires FirstNamed(subjects, initials, id1).Some? && FirstNamed(subjects, initials, id2).Some?
    requires FirstNamed(subjects, initials, id1).value.mergeGroupId == FirstNamed(subjects, initials, id2).value.mergeGroupId
    requires FirstNamed(subjects, initials, id1).value.mergeGroupId.Some?
    requires FirstNamed(subjects, initials, id1).value.mergeGroupId.value != ""
    ensures CountFor(subjects, initials, id1, n1) == CountFor(subjects, initials, id2, n2)
  {
  }

  /** How a room's capacity band fits a class; `penalty` is what the penalty
      variable is bound from below by when the room is chosen. */
  datatype Fit = Fits | Oversized(penalty: nat) | Undersized(penalty: nat)

  /** Lines 521-547: inside `[capacityMin, capacityMax]` no penalty; below it the
      empty seats times the oversized weight; above it the overflow times the
      undersized weight (the last `elif` of `_add_room_fit_penalties` always holds when reached). */
  function RoomFit(students: int, capacityMin: int, capacityMax: int): (r: Fit)
    ensures r.Fits? <==> capacityMin <= students <= capacityMax
    ensures r.Oversized? <==> students < capacityMin
    ensures r.Undersized? <==> capacityMin <= students && capacityMax < students
    ensures !r.Fits? ==> r.penalty > 0
  {
    if capacityMin <= students <= capacityMax then Fits
    else if students < capacityMin then Oversized((capacityMin - students) * ConfigV2.OversizedRoomWeight)
    else Undersized((students - capacityMax) * ConfigV2.UndersizedRoomWeight)
  }

  /** The bound a fit puts on the penalty variable (none when the room fits). */
  function PenaltyOf(f: Fit): nat {
    if f.Fits? then 0 else f.penalty
  }

  /** Each further empty seat costs 10 and each further missing seat 100: the
      penalty grows with the distance from the band on either side. */
  lemma RoomFitGrows(a: int, b: int, capacityMin: int, capacityMax: int)
    requires a <= b
    ensures b < capacityMin ==> PenaltyOf(RoomFit(a, capacityMin, capacityMax)) == PenaltyOf(RoomFit(b, capacityMin, capacityMax)) + 10 * (b - a)
    ensures capacityMin <= a && capacityMax < a ==>
      PenaltyOf(RoomFit(b, capacityMin, capacityMax)) == PenaltyOf(RoomFit(a, capacityMin, capacityMax)) + 100 * (b - a)
  {
  }

  /** Lines 577-597: a lab fits within three students of its `capacity_max`, with the
      classroom formulas outside that window. */
  function LabFit(students: int, capacity: int): (r: Fit)
    ensures r.Fits? <==> -3 <= students - capacity <= 3
    ensures r.Oversized? ==> r.penalty == (capacity - 3 - students) * ConfigV2.OversizedRoomWeight
    ensures r.Undersized? ==> r.penalty == (students - capacity - 3) * ConfigV2.UndersizedRoomWeight
  {
    RoomFit(students, capacity - 3, capacity + 3)
  }

  /** The table entry of the room `name` (`ROOMS[name]`), if there is one. */
  function InfoIn(table: Table, name: string): (r: Option<ConfigV2.RoomInfo>)
    ensures r.Some? <==> exists k :: 0 <= k < |table| && table[k].0 == name
    decreases |table|
  {
    if table == [] then None
    else if table[0].0 == name then Some(table[0].1)
    else
      assert forall k :: 1 <= k < |table| ==> table[k] == table[1..][k - 1];
      InfoIn(table[1..], name)
  }

  /** A constraint the penalty pass adds: when `room` is chosen, the penalty variable
      `penalty` is at least `atLeast`. */
  datatype Bound = Bound(room: RoomKey, penalty: PenaltyKey, atLeast: nat)

  /** A classroom is fitted to the band `[capacity_min, capacity_max]` and its misfit
      charged to the `oversized`/`undersized` penalties; a lab to its window around
      `capacity_max` and the `oversized_lab`/`undersized_lab` penalties. */
  function BoundFor(room: RoomKey, info: ConfigV2.RoomInfo, students: int, lab: bool): seq<Bound> {
    var f := if lab then LabFit(students, info.capacityMax) else RoomFit(students, info.capacityMin, info.capacityMax);
    match f
    case Fits => []
    case Oversized(p) => [Bound(room, PenaltyKey(room.id, room.t, if lab then OversizedLab else OversizedRoom), p)]
    case Undersized(p) => [Bound(room, PenaltyKey(room.id, room.t, if lab then UndersizedLab else UndersizedRoom), p)]
  }

  /** Lines 514-547 (classrooms) and 564-597 (labs) without the solver: over the
      candidate rooms in order, skip those without an assignment variable for this
      class and slot, look the room up (`KeyError` when absent) and add the bound its
      fit calls for. */
  function FitBounds(keys: set<RoomKey>, table: Table, rooms: seq<string>, id: string, t: nat, students: int, kind: Kind, lab: bool)
    : Result<seq<Bound>, PyError>
    decreases |rooms|
  {
    if rooms == [] then Ok([])
    else
      match FitBounds(keys, table, rooms[..|rooms| - 1], id, t, students, kind, lab)
      case Err(e) => Err(e)
      case Ok(bounds) =>
        var room := RoomKey(id, t, rooms[|rooms| - 1], kind);
        if room !in keys then Ok(bounds)
        else
          match InfoIn(table, room.room)
          case None => Err(KeyError(room.room))
          case Some(info) => Ok(bounds + BoundFor(room, info, students, lab))
  }

  /** The loop over the candidate rooms, with its `continue`. */
  method FitBoundsLoop(keys: set<RoomKey>, table: Table, rooms: seq<string>, id: string, t: nat, students: int, kind: Kind, lab: bool)
    returns (r: Result<seq<Bound>, PyError>)
    ensures r == FitBounds(keys, table, rooms, id, t, students, kind, lab)
  {
    var bounds: seq<Bound> := [];
    for i := 0 to |rooms|
      invariant FitBounds(keys, table, rooms[..i], id, t, students, kind, lab) == Ok(bounds)
    {
      assert rooms[..i + 1][..i] == rooms[..i];
      var room := RoomKey(id, t, rooms[i], kind);
      if room !in keys {
        continue;
      }
      var info := InfoIn(table, rooms[i]);
      if info.None? {
        FitBoundsErrPersists(keys, table, rooms, id, t, students, kind, lab, i + 1);
        return Err(KeyError(rooms[i]));
      }
      bounds := bounds + BoundFor(room, info.value, students, lab);
    }
    assert rooms[..|rooms|] == rooms;
    return Ok(bounds);
  }

  lemma {:induction false} FitBoundsErrPersists(keys: set<RoomKey>, table: Table, rooms: seq<string>, id: string, t: nat, students: int,
                                                kind: Kind, lab: bool, i: nat)
    requires i <= |rooms| && FitBounds(keys, table, rooms[..i], id, t, students, kind, lab).Err?
    ensures FitBounds(keys, table, rooms, id, t, students, kind, lab) == FitBounds(keys, table, rooms[..i], id, t, students, kind, lab)
    decreases |rooms|
  {
    if i == |rooms| {
      assert rooms[..i] == rooms;
    } else {
      var init := rooms[..|rooms| - 1];
      assert init[..i] == rooms[..i];
      FitBoundsErrPersists(keys, table, init, id, t, students, kind, lab, i);
    }
  }

  /** Lines 482-547: the classroom bounds of a lecture or tutorial at slot `t`, fitted
      with the merged student count. */
  method RoomFitBounds(subjects: seq<Subject>, initials: map<string, string>, keys: set<RoomKey>, table: Table,
                       id: string, t: nat, studentCount: int, kind: Kind)
    returns (r: Result<seq<Bound>, PyError>)
    ensures r == FitBounds(keys, table, ClassroomsIn(table), id, t, CountFor(subjects, initials, id, studentCount), kind, false)
  {
    var count := MergedCount(subjects, initials, id, studentCount);
    var classrooms := ClassroomsIn(table);
    r := FitBoundsLoop(keys, table, classrooms, id, t, count, kind, false);
  }

  /** Lines 549-597: the lab bounds of a practical at slot `t`. */
  method LabFitBounds(keys: set<RoomKey>, table: Table, id: string, t: nat, studentCount: int, availableLabs: seq<string>)
    returns (r: Result<seq<Bound>, PyError>)
    ensures r == FitBounds(keys, table, availableLabs, id, t, studentCount, Practical, true)
  {
    r := FitBoundsLoop(keys, table, availableLabs, id, t, studentCount, Practical, true);
  }

  /** Rooms taken from the table itself are always found: the pass cannot fail. */
  lemma {:induction false} FitBoundsFound(keys: set<RoomKey>, table: Table, rooms: seq<string>, id: string, t: nat, students: int, kind: Kind, lab: bool)
    requires forall i :: 0 <= i < |rooms| ==> InfoIn(table, rooms[i]).Some?
    ensures FitBounds(keys, table, rooms, id, t, students, kind, lab).Ok?
    decreases |rooms|
  {
    if rooms != [] {
      FitBoundsFound(keys, table, rooms[..|rooms| - 1], id, t, students, kind, lab);
    }
  }

  /** Every name `NamesWhere` lists is in the table. */
  lemma NamesFound(table: Table, roomType: string, department: Option<string>, i: nat)
    requires i < |ConfigV2.NamesWhere(table, roomType, department)|
    ensures InfoIn(table, ConfigV2.NamesWhere(table, roomType, department)[i]).Some?
  {
    ConfigV2.NamesWhereSound(table, roomType, department, i);
  }

  /** So the classroom pass and the lab pass over a department's labs never fail. */
  lemma FitBoundsNeverFail(keys: set<RoomKey>, table: Table, id: string, t: nat, students: int, kind: Kind, department: string)
    ensures FitBounds(keys, table, ClassroomsIn(table), id, t, students, kind, false).Ok?
    ensures FitBounds(keys, table, LabsIn(table, department), id, t, students, Practical, true).Ok?
  {
    forall i | 0 <= i < |ClassroomsIn(table)|
      ensures InfoIn(table, ClassroomsIn(table)[i]).Some?
    {
      NamesFound(table, "classroom", None, i);
    }
    FitBoundsFound(keys, table, ClassroomsIn(table), id, t, students, kind, false);
    forall i | 0 <= i < |LabsIn(table, department)|
      ensures InfoIn(table, LabsIn(table, department)[i]).Some?
    {
      NamesFound(table, "lab", Some(department), i);
    }
    FitBoundsFound(keys, table, LabsIn(table, department), id, t, students, Practical, true);
  }

  /** Every bound belongs to an existing room variable of this class and slot,
      charges the penalty of the same class and slot, and is positive; a room that
      fits adds none. */
  lemma {:induction false} FitBoundsSound(keys: set<RoomKey>, table: Table, rooms: seq<string>, id: string, t: nat, students: int,
                                          kind: Kind, lab: bool, b: Bound)
    requires FitBounds(keys, table, rooms, id, t, students, kind, lab).Ok?
    requires b in FitBounds(keys, table, rooms, id, t, students, kind, lab).value
    ensures b.room in keys && b.room.id == id && b.room.t == t && b.room.kind == kind && b.room.room in rooms
    ensures b.penalty.id == id && b.penalty.t == t && b.atLeast > 0
    ensures b.penalty.kind in (if lab then {OversizedLab, UndersizedLab} else {OversizedRoom, UndersizedRoom})
    decreases |rooms|
  {
    var init := rooms[..|rooms| - 1];
    var bounds := FitBounds(keys, table, init, id, t, students, kind, lab).value;
    if b in bounds {
      FitBoundsSound(keys, table, init, id, t, students, kind, lab, b);
    }
  }

  /** And every candidate room with a variable gets the bound its fit calls for. */
  lemma {:induction false} FitBoundsComplete(keys: set<RoomKey>, table: Table, rooms: seq<string>, id: string, t: nat, students: int,
                                             kind: Kind, lab: bool, j: nat)
    requires FitBounds(keys, table, rooms, id, t, students, kind, lab).Ok?
    requires j < |rooms| && RoomKey(id, t, rooms[j], kind) in keys
    ensures InfoIn(table, rooms[j]).Some?
    ensures forall b :: b in BoundFor(RoomKey(id, t, rooms[j], kind), InfoIn(table, rooms[j]).value, students, lab) ==>
      b in FitBounds(keys, table, rooms, id, t, students, kind, lab).value
    decreases |rooms|
  {
    var init := rooms[..|rooms| - 1];
    if j < |init| {
      assert init[j] == rooms[j];
      FitBoundsComplete(keys, table, init, id, t, students, kind, lab, j);
    }
  }
}

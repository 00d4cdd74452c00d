/**
 * The first-generation solver engine (older_versions/1st_version/src/solver_engine.py)
 * after the CP-SAT solve: subject look-up by key, room numbering against the
 * ROOM_CAPACITIES table, and the master schedule built from the variables the
 * solver set. The solver's values are an input: each variable arrives with its
 * key and the value the solver gave it, in the dictionary's order.
 */
module SolverV1 {
  import opened Wrappers
  import opened Records
  import ConfigV1
  import Grid
  import Text
  import RoomUsage
  import LoaderV1

  type Entry = LoaderV1.Entry

  /** Line 184: "{Course_Semester}_{Subject}". */
  function SubjectKey(s: Entry): string {
    s.courseSemester + "_" + s.subject
  }

  /** The key is the course-semester, an underscore and the subject name, so two
      subjects of one course-semester share a key exactly when they share a name. */
  lemma SubjectKeyInjective(a: Entry, b: Entry)
    requires a.courseSemester == b.courseSemester
    ensures SubjectKey(a) == SubjectKey(b) <==> a.subject == b.subject
  {
    if SubjectKey(a) == SubjectKey(b) {
      var n := |a.courseSemester| + 1;
      assert a.subject == SubjectKey(a)[n..];
      assert b.subject == SubjectKey(b)[n..];
    }
  }

  /** Lines 181-186: the index of the first subject whose key is `id`. */
  function DetailsIndex(subjects: seq<Entry>, id: string): (r: Option<nat>)
    ensures r.Some? ==> r.value < |subjects| && SubjectKey(subjects[r.value]) == id
    ensures r.Some? ==> forall j :: 0 <= j < r.value ==> SubjectKey(subjects[j]) != id
    ensures r.None? ==> forall j :: 0 <= j < |subjects| ==> SubjectKey(subjects[j]) != id
  {
    if subjects == [] then None
    else if SubjectKey(subjects[0]) == id then Some(0)
    else match DetailsIndex(subjects[1..], id)
      case None => None
      case Some(i) => Some(i + 1)
  }

  /** The subject the look-up returns; `None` stands for the empty dictionary. */
  function Details(subjects: seq<Entry>, id: string): Option<Entry> {
    match DetailsIndex(subjects, id)
      case None => None
      case Some(i) => Some(subjects[i])
  }

  /** Lines 181-186. */
  method GetSubjectDetails(subjects: seq<Entry>, id: string) returns (r: Option<Entry>)
    ensures r == Details(subjects, id)
  {
    for i := 0 to |subjects|
      invariant forall j :: 0 <= j < i ==> SubjectKey(subjects[j]) != id
    {
      if SubjectKey(subjects[i]) == id {
        return Some(subjects[i]);
      }
    }
    return None;
  }

  // ---------------------------------------------------------------------------
  // Lines 158-179: first-fit room numbers over ROOM_CAPACITIES.

  /** The room a class of `roomType` at slot `t` gets. The lookup of the type's
      count raises KeyError for a type without an entry. */
  function RoomAnswer(u: RoomUsage.Usage, t: nat, roomType: string): Result<nat, PyError> {
    if roomType !in ConfigV1.RoomCapacities then Err(KeyError(roomType))
    else Ok(RoomUsage.Answer(u, t, roomType, ConfigV1.RoomCapacities[roomType].count))
  }

  /** The ledger afterwards: on the KeyError path the entries were already created. */
  function RoomLedger(u: RoomUsage.Usage, t: nat, roomType: string): RoomUsage.Usage {
    if roomType !in ConfigV1.RoomCapacities then RoomUsage.Opened(u, t, roomType)
    else RoomUsage.Taken(u, t, roomType, ConfigV1.RoomCapacities[roomType].count)
  }

  /** A known type gets a room between 1 and its count: the first free one, or the
      count itself once all are in use; the fifteen classrooms are such a type. */
  lemma RoomAnswerRange(u: RoomUsage.Usage, t: nat, roomType: string)
    ensures RoomAnswer(u, t, roomType).Err? <==> roomType !in ConfigV1.RoomCapacities
    ensures RoomAnswer(u, t, "Classroom").Ok?
    ensures RoomAnswer(u, t, roomType).Ok? ==>
      var count := ConfigV1.RoomCapacities[roomType].count;
      && RoomAnswer(u, t, roomType).value <= count
      && (count > 0 ==> 1 <= RoomAnswer(u, t, roomType).value)
  {
    if roomType in ConfigV1.RoomCapacities {
      var count := ConfigV1.RoomCapacities[roomType].count;
      var f := RoomUsage.FirstFree(RoomUsage.RoomsOf(u, t, roomType), count);
      assert f.Some? ==> RoomAnswer(u, t, roomType) == Ok(f.value);
    }
  }

  /** Lines 158-179. */
  method AssignRoom(usage: RoomUsage.Ledger, t: nat, roomType: string) returns (r: Result<nat, PyError>)
    modifies usage
    ensures r == RoomAnswer(old(usage.used), t, roomType)
    ensures usage.used == RoomLedger(old(usage.used), t, roomType)
  {
    usage.Open(t, roomType);
    if roomType !in ConfigV1.RoomCapacities {
      return Err(KeyError(roomType));
    }
    var room := usage.Take(t, roomType, ConfigV1.RoomCapacities[roomType].count);
    OpenedThenTaken(old(usage.used), t, roomType, ConfigV1.RoomCapacities[roomType].count);
    return Ok(room);
  }

  /** Opening first changes nothing that first-fit then sees or leaves behind. */
  lemma OpenedThenTaken(u: RoomUsage.Usage, t: nat, roomType: string, total: nat)
    ensures RoomUsage.Answer(RoomUsage.Opened(u, t, roomType), t, roomType, total) == RoomUsage.Answer(u, t, roomType, total)
    ensures RoomUsage.Taken(RoomUsage.Opened(u, t, roomType), t, roomType, total) == RoomUsage.Taken(u, t, roomType, total)
  {
    var before := RoomUsage.RoomsOf(u, t, roomType);
    RoomUsage.RecordedRooms(u, t, roomType, before, t, roomType);
    RoomUsage.RecordedTwice(u, t, roomType, before, before);
    match RoomUsage.FirstFree(before, total)
    case Some(n) =>
      RoomUsage.RecordedTwice(u, t, roomType, before, before + [n]);
    case None =>
  }

  // ---------------------------------------------------------------------------
  // Lines 38-156: the master schedule.

  datatype Kind = Lecture | Tutorial | Practical

  /** One `class_info` dictionary. Lectures and tutorials carry no `is_continuation`
      key; readers take it as false, and so does this record. */
  datatype ClassEntry = ClassEntry(
    subject: string,
    teacher: string,
    courseSemester: string,
    kind: Kind,
    room: string,
    roomType: string,
    subjectType: string,
    section: string,
    isContinuation: bool)

  /** `master_schedule`: day, then slot, then the classes in the order added. */
  type Schedule = map<Grid.Day, map<Grid.Hour, seq<ClassEntry>>>

  /** A decision variable: its key and the value the solver gave it. */
  datatype Var = Var(id: string, t: nat, value: int)

  /** The schedule and `room_usage` as the extraction builds them. */
  datatype Layout = Layout(schedule: Schedule, usage: RoomUsage.Usage)

  function EntriesAt(s: Schedule, day: Grid.Day, slot: Grid.Hour): seq<ClassEntry> {
    if day in s && slot in s[day] then s[day][slot] else []
  }

  /** Create the day's and the slot's entries when missing, then append `e`. */
  function Append(s: Schedule, day: Grid.Day, slot: Grid.Hour, e: ClassEntry): Schedule {
    var row := if day in s then s[day] else map[];
    s[day := row[slot := EntriesAt(s, day, slot) + [e]]]
  }

  /** Appending adds `e` at the end of its own cell and changes no other cell. */
  lemma AppendAt(s: Schedule, day: Grid.Day, slot: Grid.Hour, e: ClassEntry, day2: Grid.Day, slot2: Grid.Hour)
    ensures EntriesAt(Append(s, day, slot, e), day2, slot2) ==
      if day2 == day && slot2 == slot then EntriesAt(s, day, slot) + [e] else EntriesAt(s, day2, slot2)
  {
  }

  function Info(subj: Entry, kind: Kind, room: string, roomType: string, continuation: bool): ClassEntry {
    ClassEntry(subj.subject, subj.teacher, subj.courseSemester, kind, room, roomType,
               subj.subjectType, subj.section, continuation)
  }

  /** Lines 50-100: a lecture or tutorial variable set to 1 gets the next free
      classroom, recorded at its slot. A key outside the slot list raises IndexError
      and an unknown subject raises KeyError on 'Subject'. */
  function ClassStep(subjects: seq<Entry>, timeSlots: seq<(Grid.Day, Grid.Hour)>, kind: Kind,
                     l: Layout, v: Var): Result<Layout, PyError>
  {
    if v.value != 1 then Ok(l)
    else if v.t >= |timeSlots| then Err(IndexError(v.t))
    else match RoomAnswer(l.usage, v.t, "Classroom")
      case Err(e) => Err(e)
      case Ok(n) =>
        match Details(subjects, v.id)
          case None => Err(KeyError("Subject"))
          case Some(subj) =>
            var e := Info(subj, kind, "Room-" + Text.IntToString(n), "Classroom", false);
            Ok(Layout(Append(l.schedule, timeSlots[v.t].0, timeSlots[v.t].1, e),
                      RoomLedger(l.usage, v.t, "Classroom")))
  }

  /** The name a lab type goes by as a dictionary key; a missing lab type is Python's
      None. */
  function LabKey(labType: Option<string>): string {
    match labType
      case Some(k) => k
      case None => "None"
  }

  /** Lines 102-138: a practical variable set to 1 takes one lab of its lab type and
      is entered at its slot and, when there is a next slot, there too, with the
      same lab and marked as the continuation. */
  function PracticalStep(subjects: seq<Entry>, timeSlots: seq<(Grid.Day, Grid.Hour)>,
                         l: Layout, v: Var): Result<Layout, PyError>
  {
    if v.value != 1 then Ok(l)
    else if v.t >= |timeSlots| then Err(IndexError(v.t))
    else match Details(subjects, v.id)
      case None => Err(KeyError("Lab_type"))
      case Some(subj) =>
        var labType := LabKey(subj.labType);
        match RoomAnswer(l.usage, v.t, labType)
          case Err(e) => Err(e)
          case Ok(n) =>
            var first := Info(subj, Practical, labType + "-" + Text.IntToString(n), labType, false);
            Ok(Layout(TwoHours(l.schedule, timeSlots, v.t, first), RoomLedger(l.usage, v.t, labType)))
  }

  /** A practical's entry at slot `t` and, when there is one, its continuation at
      slot `t + 1`. */
  function TwoHours(s: Schedule, timeSlots: seq<(Grid.Day, Grid.Hour)>, t: nat, first: ClassEntry): Schedule
    requires t < |timeSlots|
  {
    var s1 := Append(s, timeSlots[t].0, timeSlots[t].1, first);
    if t + 1 < |timeSlots|
    then Append(s1, timeSlots[t + 1].0, timeSlots[t + 1].1, first.(isContinuation := true))
    else s1
  }

  /** `step` over `vars` in turn, stopping at the first error. */
  function Run(step: (Layout, Var) -> Result<Layout, PyError>, l: Layout, vars: seq<Var>): Result<Layout, PyError>
    decreases |vars|
  {
    if vars == [] then Ok(l)
    else match Run(step, l, vars[..|vars| - 1])
      case Err(e) => Err(e)
      case Ok(m) => step(m, vars[|vars| - 1])
  }

  lemma RunSnoc(step: (Layout, Var) -> Result<Layout, PyError>, l: Layout, vars: seq<Var>, v: Var)
    ensures Run(step, l, vars + [v]) ==
      match Run(step, l, vars)
        case Err(e) => Err(e)
        case Ok(m) => step(m, v)
  {
    assert (vars + [v])[..|vars|] == vars;
  }

  /** Once a prefix fails, the whole run fails with the same error. */
  lemma {:induction false} RunStops(step: (Layout, Var) -> Result<Layout, PyError>, l: Layout, vars: seq<Var>, k: nat)
    requires k <= |vars| && Run(step, l, vars[..k]).Err?
    ensures Run(step, l, vars) == Run(step, l, vars[..k])
    decreases |vars|
  {
    if k < |vars| {
      var init := vars[..|vars| - 1];
      assert init[..k] == vars[..k];
      RunStops(step, l, init, k);
    } else {
      assert vars[..k] == vars;
    }
  }

  /** What every successful step keeps, a successful run keeps. */
  lemma {:induction false} RunKeeps(step: (Layout, Var) -> Result<Layout, PyError>, inv: Layout -> bool,
                                    l: Layout, vars: seq<Var>)
    requires inv(l)
    requires forall m, i :: 0 <= i < |vars| && inv(m) && step(m, vars[i]).Ok? ==> inv(step(m, vars[i]).value)
    ensures Run(step, l, vars).Ok? ==> inv(Run(step, l, vars).value)
    decreases |vars|
  {
    if vars != [] {
      var init := vars[..|vars| - 1];
      assert forall i :: 0 <= i < |init| ==> init[i] == vars[i];
      RunKeeps(step, inv, l, init);
    }
  }

  function LectureStep(subjects: seq<Entry>, timeSlots: seq<(Grid.Day, Grid.Hour)>): (Layout, Var) -> Result<Layout, PyError> {
    (l: Layout, v: Var) => ClassStep(subjects, timeSlots, Lecture, l, v)
  }

  function TutorialStep(subjects: seq<Entry>, timeSlots: seq<(Grid.Day, Grid.Hour)>): (Layout, Var) -> Result<Layout, PyError> {
    (l: Layout, v: Var) => ClassStep(subjects, timeSlots, Tutorial, l, v)
  }

  function LabStep(subjects: seq<Entry>, timeSlots: seq<(Grid.Day, Grid.Hour)>): (Layout, Var) -> Result<Layout, PyError> {
    (l: Layout, v: Var) => PracticalStep(subjects, timeSlots, l, v)
  }

  /** Lines 38-156: lectures, then tutorials, then practicals, from an empty schedule
      and an empty `room_usage`. */
  function Extract(subjects: seq<Entry>, timeSlots: seq<(Grid.Day, Grid.Hour)>,
                   lectures: seq<Var>, tutorials: seq<Var>, practicals: seq<Var>): Result<Layout, PyError>
  {
    match Run(LectureStep(subjects, timeSlots), Layout(map[], map[]), lectures)
      case Err(e) => Err(e)
      case Ok(l1) =>
        match Run(TutorialStep(subjects, timeSlots), l1, tutorials)
          case Err(e) => Err(e)
          case Ok(l2) => Run(LabStep(subjects, timeSlots), l2, practicals)
  }

  // ---------------------------------------------------------------------------
  // What the extraction promises.

  /** The room ledger never repeats a number within one slot and type, and holds
      only numbers from 1 up. */
  predicate LedgerSound(l: Layout) {
    RoomUsage.NoRepeats(l.usage) && RoomUsage.Positive(l.usage)
  }

  lemma RoomLedgerSound(u: RoomUsage.Usage, t: nat, roomType: string)
    requires RoomUsage.NoRepeats(u) && RoomUsage.Positive(u)
    ensures RoomUsage.NoRepeats(RoomLedger(u, t, roomType)) && RoomUsage.Positive(RoomLedger(u, t, roomType))
  {
    if roomType in ConfigV1.RoomCapacities {
      RoomUsage.TakenKeepsInvariants(u, t, roomType, ConfigV1.RoomCapacities[roomType].count);
    } else {
      RoomUsage.TakenKeepsInvariants(u, t, roomType, 0);
      assert RoomUsage.FirstFree(RoomUsage.RoomsOf(u, t, roomType), 0).None?;
    }
  }

  lemma ClassStepSound(subjects: seq<Entry>, timeSlots: seq<(Grid.Day, Grid.Hour)>, kind: Kind, l: Layout, v: Var)
    requires LedgerSound(l) && ClassStep(subjects, timeSlots, kind, l, v).Ok?
    ensures LedgerSound(ClassStep(subjects, timeSlots, kind, l, v).value)
  {
    RoomLedgerSound(l.usage, v.t, "Classroom");
  }

  lemma PracticalStepSound(subjects: seq<Entry>, timeSlots: seq<(Grid.Day, Grid.Hour)>, l: Layout, v: Var)
    requires LedgerSound(l) && PracticalStep(subjects, timeSlots, l, v).Ok?
    ensures LedgerSound(PracticalStep(subjects, timeSlots, l, v).value)
  {
    match Details(subjects, v.id)
    case None =>
    case Some(subj) => RoomLedgerSound(l.usage, v.t, LabKey(subj.labType));
  }

  /** After a successful extraction no slot has handed out one room number of a type
      twice, so classes sharing a slot got distinct rooms while rooms remained. */
  lemma ExtractLedgerSound(subjects: seq<Entry>, timeSlots: seq<(Grid.Day, Grid.Hour)>,
                           lectures: seq<Var>, tutorials: seq<Var>, practicals: seq<Var>)
    ensures Extract(subjects, timeSlots, lectures, tutorials, practicals).Ok? ==>
      LedgerSound(Extract(subjects, timeSlots, lectures, tutorials, practicals).value)
  {
    var inv := (l: Layout) => LedgerSound(l);
    var lec := LectureStep(subjects, timeSlots);
    var tut := TutorialStep(subjects, timeSlots);
    var lab := LabStep(subjects, timeSlots);
    forall m, i | 0 <= i < |lectures| && inv(m) && lec(m, lectures[i]).Ok?
      ensures inv(lec(m, lectures[i]).value)
    {
      ClassStepSound(subjects, timeSlots, Lecture, m, lectures[i]);
    }
    RunKeeps(lec, inv, Layout(map[], map[]), lectures);
    var r1 := Run(lec, Layout(map[], map[]), lectures);
    if r1.Ok? {
      forall m, i | 0 <= i < |tutorials| && inv(m) && tut(m, tutorials[i]).Ok?
        ensures inv(tut(m, tutorials[i]).value)
      {
        ClassStepSound(subjects, timeSlots, Tutorial, m, tutorials[i]);
      }
      RunKeeps(tut, inv, r1.value, tutorials);
      var r2 := Run(tut, r1.value, tutorials);
      if r2.Ok? {
        forall m, i | 0 <= i < |practicals| && inv(m) && lab(m, practicals[i]).Ok?
          ensures inv(lab(m, practicals[i]).value)
        {
          PracticalStepSound(subjects, timeSlots, m, practicals[i]);
        }
        RunKeeps(lab, inv, r2.value, practicals);
      }
    }
  }

  /** A lecture or tutorial given a free classroom got a number not yet handed out at
      its slot, and that number is now recorded there. */
  lemma ClassStepFreshRoom(subjects: seq<Entry>, timeSlots: seq<(Grid.Day, Grid.Hour)>, kind: Kind, l: Layout, v: Var)
    requires v.value == 1 && ClassStep(subjects, timeSlots, kind, l, v).Ok?
    requires RoomUsage.FirstFree(RoomUsage.RoomsOf(l.usage, v.t, "Classroom"), ConfigV1.RoomCapacities["Classroom"].count).Some?
    ensures var n := RoomAnswer(l.usage, v.t, "Classroom").value;
      var after := ClassStep(subjects, timeSlots, kind, l, v).value;
      && n !in RoomUsage.RoomsOf(l.usage, v.t, "Classroom")
      && RoomUsage.RoomsOf(after.usage, v.t, "Classroom") == RoomUsage.RoomsOf(l.usage, v.t, "Classroom") + [n]
      && EntriesAt(after.schedule, timeSlots[v.t].0, timeSlots[v.t].1)
         == EntriesAt(l.schedule, timeSlots[v.t].0, timeSlots[v.t].1)
            + [Info(Details(subjects, v.id).value, kind, "Room-" + Text.IntToString(n), "Classroom", false)]
  {
    var count := ConfigV1.RoomCapacities["Classroom"].count;
    var f := RoomUsage.FirstFree(RoomUsage.RoomsOf(l.usage, v.t, "Classroom"), count);
    assert RoomAnswer(l.usage, v.t, "Classroom") == Ok(f.value);
    RoomUsage.TakenFresh(l.usage, v.t, "Classroom", count);
  }

  /** Lines 102-138: a practical at slot `t` is entered at `t` and, when `t + 1` is a
      slot, at `t + 1` with the same lab, only the second marked as the continuation;
      no other cell changes. */
  lemma PracticalLayout(subjects: seq<Entry>, timeSlots: seq<(Grid.Day, Grid.Hour)>, l: Layout, v: Var,
                        day: Grid.Day, slot: Grid.Hour)
    requires Distinct(timeSlots)
    requires v.value == 1 && PracticalStep(subjects, timeSlots, l, v).Ok?
    ensures var subj := Details(subjects, v.id).value;
      var labType := LabKey(subj.labType);
      var n := RoomAnswer(l.usage, v.t, labType).value;
      var first := Info(subj, Practical, labType + "-" + Text.IntToString(n), labType, false);
      var after := PracticalStep(subjects, timeSlots, l, v).value;
      EntriesAt(after.schedule, day, slot) ==
        if (day, slot) == timeSlots[v.t] then EntriesAt(l.schedule, day, slot) + [first]
        else if v.t + 1 < |timeSlots| && (day, slot) == timeSlots[v.t + 1]
        then EntriesAt(l.schedule, day, slot) + [first.(isContinuation := true)]
        else EntriesAt(l.schedule, day, slot)
  {
    var subj := Details(subjects, v.id).value;
    var labType := LabKey(subj.labType);
    var n := RoomAnswer(l.usage, v.t, labType).value;
    var first := Info(subj, Practical, labType + "-" + Text.IntToString(n), labType, false);
    var (d0, h0) := timeSlots[v.t];
    var s1 := Append(l.schedule, d0, h0, first);
    AppendAt(l.schedule, d0, h0, first, day, slot);
    if v.t + 1 < |timeSlots| {
      var (d1, h1) := timeSlots[v.t + 1];
      assert timeSlots[v.t] != timeSlots[v.t + 1];
      AppendAt(s1, d1, h1, first.(isContinuation := true), day, slot);
    }
  }

  // ---------------------------------------------------------------------------
  // The extraction as `_extract_solution` runs it.

  /** Lines 50-100 for one variable: the schedule is a local value, `room_usage` a
      ledger updated in place. */
  method PlaceClass(subjects: seq<Entry>, timeSlots: seq<(Grid.Day, Grid.Hour)>, kind: Kind,
                    schedule: Schedule, usage: RoomUsage.Ledger, v: Var) returns (r: Result<Schedule, PyError>)
    modifies usage
    ensures var want := ClassStep(subjects, timeSlots, kind, Layout(schedule, old(usage.used)), v);
      match r
        case Ok(s) => want == Ok(Layout(s, usage.used))
        case Err(e) => want == Err(e)
  {
    if v.value != 1 {
      return Ok(schedule);
    }
    if v.t >= |timeSlots| {
      return Err(IndexError(v.t));
    }
    var (day, slot) := timeSlots[v.t];
    var details := GetSubjectDetails(subjects, v.id);
    var room := AssignRoom(usage, v.t, "Classroom");
    RoomAnswerRange(old(usage.used), v.t, "Classroom");
    if details.None? {
      return Err(KeyError("Subject"));
    }
    var e := Info(details.value, kind, "Room-" + Text.IntToString(room.value), "Classroom", false);
    return Ok(Append(schedule, day, slot, e));
  }

  /** Lines 102-138 for one variable. */
  method PlacePractical(subjects: seq<Entry>, timeSlots: seq<(Grid.Day, Grid.Hour)>,
                        schedule: Schedule, usage: RoomUsage.Ledger, v: Var) returns (r: Result<Schedule, PyError>)
    modifies usage
    ensures var want := PracticalStep(subjects, timeSlots, Layout(schedule, old(usage.used)), v);
      match r
        case Ok(s) => want == Ok(Layout(s, usage.used))
        case Err(e) => want == Err(e)
  {
    if v.value != 1 {
      return Ok(schedule);
    }
    if v.t >= |timeSlots| {
      return Err(IndexError(v.t));
    }
    var details := GetSubjectDetails(subjects, v.id);
    if details.None? {
      return Err(KeyError("Lab_type"));
    }
    var labType := LabKey(details.value.labType);
    var lab := AssignRoom(usage, v.t, labType);
    if lab.Err? {
      return Err(lab.error);
    }
    var first := Info(details.value, Practical, labType + "-" + Text.IntToString(lab.value), labType, false);
    var s := schedule;
    for offset := 0 to 2
      invariant offset == 0 ==> s == schedule
      invariant offset == 1 ==> s == Append(schedule, timeSlots[v.t].0, timeSlots[v.t].1, first)
      invariant offset == 2 ==> s == TwoHours(schedule, timeSlots, v.t, first)
    {
      if v.t + offset < |timeSlots| {
        var (d, h) := timeSlots[v.t + offset];
        assert offset == 0 ==> first.(isContinuation := offset == 1) == first;
        s := Append(s, d, h, first.(isContinuation := offset == 1));
      }
    }
    return Ok(s);
  }

  /** Lines 38-156: the three loops. */
  method ExtractSolution(subjects: seq<Entry>, timeSlots: seq<(Grid.Day, Grid.Hour)>,
                         lectures: seq<Var>, tutorials: seq<Var>, practicals: seq<Var>)
    returns (r: Result<Layout, PyError>)
    ensures r == Extract(subjects, timeSlots, lectures, tutorials, practicals)
  {
    var usage := new RoomUsage.Ledger();
    var schedule: Schedule := map[];
    var lec := LectureStep(subjects, timeSlots);
    var tut := TutorialStep(subjects, timeSlots);
    var lab := LabStep(subjects, timeSlots);
    var l0 := Layout(map[], map[]);
    for i := 0 to |lectures|
      invariant Run(lec, l0, lectures[..i]) == Ok(Layout(schedule, usage.used))
    {
      RunSnoc(lec, l0, lectures[..i], lectures[i]);
      assert lectures[..i + 1] == lectures[..i] + [lectures[i]];
      var step := PlaceClass(subjects, timeSlots, Lecture, schedule, usage, lectures[i]);
      if step.Err? {
        RunStops(lec, l0, lectures, i + 1);
        return Err(step.error);
      }
      schedule := step.value;
    }
    assert lectures[..|lectures|] == lectures;
    var l1 := Layout(schedule, usage.used);
    for i := 0 to |tutorials|
      invariant Run(tut, l1, tutorials[..i]) == Ok(Layout(schedule, usage.used))
    {
      RunSnoc(tut, l1, tutorials[..i], tutorials[i]);
      assert tutorials[..i + 1] == tutorials[..i] + [tutorials[i]];
      var step := PlaceClass(subjects, timeSlots, Tutorial, schedule, usage, tutorials[i]);
      if step.Err? {
        RunStops(tut, l1, tutorials, i + 1);
        return Err(step.error);
      }
      schedule := step.value;
    }
    assert tutorials[..|tutorials|] == tutorials;
    var l2 := Layout(schedule, usage.used);
    for i := 0 to |practicals|
      invariant Run(lab, l2, practicals[..i]) == Ok(Layout(schedule, usage.used))
    {
      RunSnoc(lab, l2, practicals[..i], practicals[i]);
      assert practicals[..i + 1] == practicals[..i] + [practicals[i]];
      var step := PlacePractical(subjects, timeSlots, schedule, usage, practicals[i]);
      if step.Err? {
        RunStops(lab, l2, practicals, i + 1);
        return Err(step.error);
      }
      schedule := step.value;
    }
    assert practicals[..|practicals|] == practicals;
    return Ok(Layout(schedule, usage.used));
  }
}

# Timetable generator core, modelled in Dafny

The system builds weekly university timetables. A week is a grid of six days
(Monday to Saturday) by nine one-hour slots starting at 8:30. Subjects come
from a course table; each subject type (DSC, DSE, GE, SEC, VAC, AEC) has hour
requirements, and some types are held at fixed, reserved slots. A CP-SAT
solver places the classes. Around the solver sits deterministic logic, and
that logic is modelled here:

- configuration rules in two generations of the `Config` class (the grid,
  semester to year to allowed subject types, the fixed-slot index
  computation, hour requirements and remaining hours, course-name maps,
  strength defaults, room lists);
- input validation and expansion in the data loaders (the `"Le,Tu,Pr"` and
  pipe-separated hour parser-validator, section assignment, course-semester
  identifiers, the teacher workload accountant), for the current loader and
  the first-version one;
- the feasibility checks run before the solver (workload bands, fixed-slot,
  classroom and practical-pair capacity);
- slot admissibility, variable key sets and room-fit penalty arithmetic of
  the constraint builder;
- post-solve allocation: the greedy lab-assistant allocator and first-fit
  room numbering, plus the first version's practical two-slot layout;
- dot-path get/set and validation of the YAML settings document;
- the data helpers of the second-version PDF generator (room sort key,
  teacher hours, free-room grid, fixed-slot labels, teacher roles);
- a greedy prototype scheduler over a mutable day-by-slot table.

Modules, one per source concern: `Wrappers` (Option, Result, the Python
exceptions the code raises), `Text` (string helpers: split, strip,
integer parsing and printing), `Sorting` (a stable sort), `Grid` (parts shared
by both `Config` generations), `FixedSlotTables` (the loop shared by every
`get_fixed_slot_indices`), `ConfigV1`, `ConfigV2`, `Records` (the subject and
class records), `DataLoader`, `DataLoaderExpand`, `DataLoaderWorkload`,
`LoaderV1`, `Feasibility`, `ConstraintBuilder`, `RoomUsage`, `SolverEngine`,
`SolverV1`, `Settings`, `PdfHelpers`, `Mxcs`.

Copies of one file share one module. `project_2/src/config.py` and
`older_versions/2nd_version/src/config.py` are identical apart from the
error text at line 664, whose wording is not modelled; both are `ConfigV2`.
The byte-identical `project/src/config.py` and `older_versions/1st_version/src/config.py` are
`ConfigV1`; `project/src/solver_engine.py` and `project_2/src/solver_engine.py`
are `SolverEngine`; the two `feasibility_checker.py` files are `Feasibility`.
The modules of `project/src` (`data_loader.py`, `constraint_builder.py`,
`solver_engine.py`, `feasibility_checker.py`) import `Config` from their own
`project/src/config.py`, the first-generation file, which of the names they use
defines only `DEPARTMENT_LABS`; `ROOMS`, `LAB_TEACHER_RATIO`,
`get_labs_by_department`, `get_subject_requirement` and
`calculate_remaining_hours` exist only in the second-generation file, so these
modules are modelled against `ConfigV2`.
Slots are modelled by their start hour (8 to 16) instead of the
`"h:30-(h+1):30"` strings, which is a one-to-one renaming (`Grid.SlotLabelInjective`).

## Model

| member | source | states |
|---|---|---|
| Grid.SlotLabelInjective | project_2/src/config.py:14-16 | Distinct start hours give distinct slot labels, so a slot can be modelled by its start hour. |
| Grid.DaySlots | project_2/src/config.py:10-11 | A day has nine slots, the j-th starting at hour 8 + j. |
| Grid.TimeSlots | project_2/src/config.py:14-16 | The week has 54 (day, slot) pairs. |
| Grid.TimeSlotAt | project_2/src/config.py:14-16 | The pairs are day-major: index t is day t div 9 at slot t mod 9. |
| Grid.GridIndex | project_2/src/config.py:14-16 | Every index is recovered from its day and hour as 9 * day + (hour - 8). |
| Grid.YearFromSemester | project_2/src/config.py:544-553 | Semesters 2y-1 and 2y map to year y for y in 1..4; the result is 0 exactly outside 1..8. |
| Grid.AllowedSubjectTypes | project_2/src/config.py:62-77 | The allowed types are the year's list; outside semesters 1..8 the list is empty; every entry is a subject type. |
| Grid.AllowedSubjectTypesByYear | project_2/src/config.py:62-77 | Within 1..8: DSC and GE always; DSE from semester 3; VAC and AEC up to semester 4; SEC up to semester 6. |
| Grid.KeepIn | project_2/src/config.py:82 | The filter keeps exactly the listed types that are allowed, and never lengthens the list. |
| Grid.KeepInCounts | project_2/src/config.py:82 | The filter keeps each allowed entry as often as the list holds it, and no other. |
| Grid.KeepInSubsequence | project_2/src/config.py:82 | The filter keeps the list's order: its result is a subsequence of the list. |
| Grid.FixedTypesOfYear | project_2/src/config.py:80-82 | Years 1 and 2 keep all four fixed-slot types, year 3 GE and SEC, year 4 GE alone, any other year none. |
| Grid.FixedSlotTypesForSemester | project_2/src/config.py:80-82 | A fixed-slot type is returned iff it is allowed in the semester; semesters 1-4 give GE, SEC, VAC, AEC, semesters 5-6 GE, SEC, semesters 7-8 GE alone, in that order, and any other semester nothing. |
| Grid.SectionLetters | project_2/src/config.py:346-347 | n letters for n >= 0 (none for negative n), the i-th being the character 65 + i. |
| Grid.SectionLettersDistinct | project_2/src/config.py:346-347 | The section letters are pairwise distinct. |
| Grid.CourseSectionsSmall | project_2/src/config.py:169-188 | No configured course has more than three sections in a semester. |
| FixedSlotTables.MatchesAt | project_2/src/config.py:563-565 | The membership test is made on the (day, slot) pair the grid lists at the index. |
| FixedSlotTables.EntryMember | project_2/src/config.py:563-565 | An index is produced for an entry iff it is on the grid and the entry lists its day and slot. |
| FixedSlotTables.EntryIndicesBelow | project_2/src/config.py:563-565 | The indices below n an entry matches, in strictly increasing order. |
| FixedSlotTables.IndicesOfMember | project_2/src/config.py:579-584 | Over a list of keys, an index is produced iff some key present in the table covers it; absent keys contribute nothing. |
| FixedSlotTables.TwoKeyCover | project_2/src/config.py:579-584 | Two present keys reserve the union of what their entries cover. |
| FixedSlotTables.IndicesOfBounded | project_2/src/config.py:556-610 | Every produced index is below 54. |
| FixedSlotTables.ScanGrid | project_2/src/config.py:563-565 | The enumerate loop over the grid yields exactly the entry's indices, in order. |
| FixedSlotTables.CollectIndices | project_2/src/config.py:579-584 | The loop over keys and then the grid yields exactly the specified indices. |
| ConfigV1.GetFixedSlotIndices | project/src/config.py:175-208 | The loops produce exactly the type's specified indices, all on the grid. |
| ConfigV1.Entries | project/src/config.py:58-93 | Each table entry, read by weekday position and start hour (GE the 12:30 column, SEC Friday 13:30-14:30 and Saturday 8:30-9:30, and so on). |
| ConfigV1.FixedSlotIndicesReference | project/src/config.py:175-208 | An index is returned iff it is on the grid and the type reserves its position: SEC, VAC and AEC the union of their weekday and Saturday entries, any other key of the table its own entry. |
| ConfigV1.SecAt | project/src/config.py:181-187 | SEC reserves Friday 13:30-14:30 and Saturday 8:30-9:30, read off the SEC and SEC_SAT entries. |
| ConfigV1.VacAt | project/src/config.py:188-194 | VAC reserves Friday 15:30-16:30 and Saturday 10:30-11:30. |
| ConfigV1.AecAt | project/src/config.py:195-201 | AEC reserves the weekday 12:30 slots and Saturday 13:30-14:30. |
| ConfigV1.DirectAt | project/src/config.py:202-206 | A type looked up directly reserves exactly its own entry. |
| ConfigV1.UnknownTypeHasNoSlots | project/src/config.py:202-208 | A type that is not a key of the table reserves nothing. |
| ConfigV1.GetAllFixedSlotIndices | project/src/config.py:211-216 | The loop's set is the union of the GE, SEC, VAC and AEC indices. |
| ConfigV1.ReservedByNext | project/src/config.py:214-215 | Each loop step adds exactly that type's indices. |
| ConfigV1.AllFixedSlotIndicesCount | project/src/config.py:211-216 | The union is 16 indices: the weekday AEC hour coincides with GE, so it adds nothing. |
| ConfigV1.PositionIndex | project/src/config.py:211-216 | A position is in the union iff its index is in the listed 16. |
| ConfigV1.DepartmentLabsHaveCapacities | project/src/config.py:128-169 | Every department's lab type has a capacity entry with a positive room count. |
| ConfigV2.GetFixedSlotIndices | project_2/src/config.py:556-610 | The loops produce exactly the type's specified indices, all on the grid. |
| ConfigV2.GeEntries | project_2/src/config.py:85-166 | The GE entry and the four GE_LAB_YEAR entries, read by weekday position and start hour. |
| ConfigV2.SecEntries | project_2/src/config.py:85-166 | The SEC_YEAR entries, read by weekday position and start hour. |
| ConfigV2.VacAecEntries | project_2/src/config.py:85-166 | The VAC_YEAR and AEC entries, read by weekday position and start hour. |
| ConfigV2.GeReference | project_2/src/config.py:560-565 | GE reserves exactly the 12:30 column, whatever the semester. |
| ConfigV2.GeLabYear0 | project_2/src/config.py:567-574 | For a semester outside 1..8, the GE_LAB_YEAR0 key is absent, so nothing is returned. |
| ConfigV2.GeLabReference | project_2/src/config.py:567-574 | GE_LAB with a semester reserves exactly the year's practical block. |
| ConfigV2.SecReference | project_2/src/config.py:576-590 | SEC with a semester: years 1-2 their weekday and Saturday entries, year 3 its one entry, year 4 and invalid semesters nothing. |
| ConfigV2.VacReference | project_2/src/config.py:592-600 | VAC with a semester: years 1-2 their two entries, years 3-4 and invalid semesters nothing. |
| ConfigV2.AecReference | project_2/src/config.py:602-608 | AEC reserves the weekday 12:30 slots and Saturday 13:30-14:30. |
| ConfigV2.FixedSlotIndicesReference | project_2/src/config.py:556-610 | An index is returned iff it is on the grid and the position-based description reserves it, for every type and semester; GE_LAB, SEC and VAC without a semester, and unknown types, reserve nothing. |
| ConfigV2.ReservedFamiliesDisjoint | project_2/src/config.py:85-166 | Within one semester the SEC, VAC and GE-practical blocks never overlap each other, the GE hour or AEC; only GE and weekday AEC share the 12:30 column. |
| ConfigV2.FixedSlotFamiliesDisjoint | project_2/src/config.py:556-610 | The same disjointness, on the returned grid indices. |
| ConfigV2.AddFamily | project_2/src/config.py:616-624 | One loop of the union adds the type's indices for the first semester of years 1..n. |
| ConfigV2.GetAllFixedSlotIndices | project_2/src/config.py:613-626 | The set is the union of GE, GE_LAB for years 1-4, SEC for years 1-3, VAC for years 1-2 and AEC; an index is in it iff some family reserves its position. |
| ConfigV2.UnionAt | project_2/src/config.py:613-626 | Membership in the union of the five families, read by position. |
| ConfigV2.AnyReservedAtSplit | project_2/src/config.py:613-626 | The position-based union is the disjunction of the five families. |
| ConfigV2.SubjectRequirement | project_2/src/config.py:661-667 | An unknown type raises ValueError; otherwise practical hours are required iff the subject has a lab, every component is non-negative, and the type is worth 4 credits (DSC, DSE, GE) or 2. |
| ConfigV2.RemainingHours | project_2/src/config.py:670-684 | Unknown types raise; otherwise each component is non-negative, covers the shortfall, and is either 0 or exactly requirement minus taught. |
| ConfigV2.RemainingHoursZero | project_2/src/config.py:670-684 | Nothing remains iff every component has been taught in full. |
| ConfigV2.MapOfKeys | project_2/src/config.py:211 | A dict built from pairs has the pairs' first components as keys. |
| ConfigV2.MapOfAt | project_2/src/config.py:211 | With distinct first components, each pair's key maps to its own value. |
| ConfigV2.GetFullCourseName | project_2/src/config.py:214-216 | Unknown short forms pass through unchanged. |
| ConfigV2.GetShortCourseName | project_2/src/config.py:219-221 | Unknown full names pass through unchanged. |
| ConfigV2.ShortNamesDistinct | project_2/src/config.py:190-209 | The short forms are pairwise distinct. |
| ConfigV2.FullNamesDistinct | project_2/src/config.py:190-209 | The full names are pairwise distinct, so the inverted map loses nothing. |
| ConfigV2.ShortFormsDistinct | project_2/src/config.py:190-211 | Both the map and its inverse are built from pairs with distinct keys. |
| ConfigV2.CourseNameRoundTrip | project_2/src/config.py:190-221 | The two name maps are mutual inverses on every listed pair. |
| ConfigV2.ShortFormsCoverCourses | project_2/src/config.py:169-209 | Every short form names a configured course and every configured course has a short form. |
| ConfigV2.GetStudentStrength | project_2/src/config.py:629-637 | "COMMON" gives 30; a configured course, semester and section of another course gives its configured strength; an unconfigured one gives 30. |
| ConfigV2.GetGeSecVacStrength | project_2/src/config.py:640-647 | A configured type, semester, subject and section gives its configured strength; anything else gives 50. |
| ConfigV2.ClassroomBlock | project_2/src/config.py:358-404 | A block of classrooms R-lo .. R-(hi-1) with one capacity band and floor. |
| ConfigV2.NamesWhere | project_2/src/config.py:652 | The filtered names, in table order, never more than the rooms. |
| ConfigV2.NamesWhereSound | project_2/src/config.py:652 | Every listed name belongs to a room of the requested type and department. |
| ConfigV2.NamesWhereAppend | project_2/src/config.py:652 | Filtering distributes over concatenation of room tables. |
| ConfigV2.ClassroomBlockNames | project_2/src/config.py:358-404 | A classroom block contributes its names to the classroom list and nothing to any lab list. |
| ConfigV2.DepartmentGroup | project_2/src/config.py:406-500 | A department's group of labs is kept whole or dropped whole by the filter. |
| ConfigV2.RoomsByTypeTable | project_2/src/config.py:650-652 | "classroom" gives R-1 .. R-60 in order, "lab" the twelve labs in table order, anything else nothing. |
| ConfigV2.LabsByDepartmentTable | project_2/src/config.py:655-658 | Each department gets exactly the labs named with its code, in table order; any other name gets none. |
| Sorting.SortBy | project/src/solver_engine.py:166 | The stable sort returns a permutation of its input: the same elements with the same multiplicities. |
| Sorting.SortBySorted | project/src/solver_engine.py:166 | The sort's result is ordered by the key and is a permutation of its input. |
| RoomUsage.FreeFrom | project/src/solver_engine.py:433-437 | First fit from n: the smallest number in n..total that is unused, if any. |
| RoomUsage.FirstFree | project/src/solver_engine.py:433-442 | The room first fit picks is unused, in 1..total, and every smaller number is used; none is picked iff all are used. |
| RoomUsage.TakenFresh | project/src/solver_engine.py:433-438 | A room handed out while one is free is new at its slot and type and is appended to that list. |
| RoomUsage.TakenKeepsInvariants | project/src/solver_engine.py:419-442 | Taking a room keeps the ledger free of repeats and of numbers below 1. |
| RoomUsage.Ledger.Open | project/src/solver_engine.py:421-424 | The slot's dictionary and the type's list are created when missing; nothing else changes. |
| RoomUsage.Ledger.Take | project/src/solver_engine.py:433-442 | Hands out the first unused room in 1..total and records it; when all are used, answers total and records nothing. |
| SolverEngine.SubjectIdShape | project/src/solver_engine.py:18-27 | An identifier starts with "{Course_Semester}_{Subject}" and is longer than that exactly for split-teaching rows. |
| SolverEngine.SplitIdsByInitials | project/src/solver_engine.py:23-25 | Two split rows of one course-semester and subject share an identifier iff their teachers' initials (or "UNK") are equal. |
| SolverEngine.TeachersNeededIsCeiling | project/src/solver_engine.py:105-106 | Teachers needed t satisfies 20(t-1) < students <= 20t: the ceiling of students / LAB_TEACHER_RATIO. |
| SolverEngine.AssistantsWhenOverRatio | project/src/solver_engine.py:108-112 | A batch gets assistants iff it has more students than LAB_TEACHER_RATIO. |
| SolverEngine.InitialTally | project/src/solver_engine.py:68-70 | Every teacher starts with no hours and free at every index. |
| SolverEngine.SeedTally | project/src/solver_engine.py:61-70 | The seeding loop builds exactly that starting tally. |
| SolverEngine.SlotIndex | project/src/solver_engine.py:76-80 | The index found holds (day, slot) and no earlier index does; none is found iff no index holds it. |
| SolverEngine.FindSlotIndex | project/src/solver_engine.py:76-80 | The enumerate search with its early break returns that first index. |
| SolverEngine.MarkTeachersOk | project/src/solver_engine.py:87-91 | Marking a class succeeds iff every listed teacher is known; otherwise KeyError. |
| SolverEngine.MarkTeachersEffect | project/src/solver_engine.py:87-91 | Each known teacher gains one hour per appearance on the list and is busy at the index iff listed; others are unchanged. |
| SolverEngine.MarkScheduleEffect | project/src/solver_engine.py:72-91 | After the main-teaching pass each teacher's hours are their appearances in the schedule and they are busy exactly where they teach. |
| SolverEngine.MarkTeachersStops | project/src/solver_engine.py:87-91 | Once a name raises, the rest of the list changes nothing. |
| SolverEngine.MarkScheduleStops | project/src/solver_engine.py:72-91 | Once a class raises, the rest of the schedule changes nothing. |
| SolverEngine.MarkScheduleFails | project/src/solver_engine.py:72-91 | The pass fails only at a class whose slot is found and whose list names someone outside the tally. |
| SolverEngine.MarkClass | project/src/solver_engine.py:85-91 | The loop over one class's teachers computes the marking function. |
| SolverEngine.MarkMainTeaching | project/src/solver_engine.py:72-91 | The loop over the schedule computes the main-teaching pass. |
| SolverEngine.FirstSubjectOf | project/src/solver_engine.py:143-147 | The index found is the first subject the teacher is main for; none iff they are main for none. |
| SolverEngine.FindDepartment | project/src/solver_engine.py:143-147 | The department loop with its break returns the department of that first subject, or nothing. |
| SolverEngine.CandidatesMembers | project/src/solver_engine.py:136-163 | The candidates are exactly the eligible teachers of the iteration order, in that order. |
| SolverEngine.FindCandidates | project/src/solver_engine.py:136-163 | The loop over all teachers computes the candidate list. |
| SolverEngine.CandidatesDistinct | project/src/solver_engine.py:136-163 | Filtering a list without repeats leaves none. |
| SolverEngine.PickProperties | project/src/solver_engine.py:165-171 | The chosen are min(needed, candidates) candidates, in order of hours, none with more hours than a candidate left out, and without repeats. |
| SolverEngine.PickFromCandidates | project/src/solver_engine.py:165-171 | Every chosen assistant is a candidate and the count is min(needed, candidates). |
| SolverEngine.PickInOrder | project/src/solver_engine.py:165-171 | The chosen come in ascending order of hours. |
| SolverEngine.PickFewestHours | project/src/solver_engine.py:165-171 | No candidate left out has fewer hours than one chosen. |
| SolverEngine.Give | project/src/solver_engine.py:173-179 | Each chosen assistant becomes busy at both hours and gains two hours. |
| SolverEngine.GiveEffect | project/src/solver_engine.py:173-179 | Each chosen assistant has two more hours and is busy at start and start + 1; every other teacher is unchanged. |
| SolverEngine.ChosenInTally | project/src/solver_engine.py:153-158 | Every chosen assistant has a tally entry, since eligibility reads it. |
| SolverEngine.TakeAssistants | project/src/solver_engine.py:168-179 | The loop over the first count sorted candidates computes the same update. |
| SolverEngine.RunSession | project/src/solver_engine.py:136-183 | One session (find, sort, take, store) computed by loops equals the session function. |
| SolverEngine.SessionParts | project/src/solver_engine.py:165-183 | A session stores the first min(needed, candidates) of the sorted candidates under (subject id, start). |
| SolverEngine.RunSubject | project/src/solver_engine.py:115-183 | The loop over the schedule for one subject runs every session it opens, in order. |
| SolverEngine.AssignAssistants | project/src/solver_engine.py:58-196 | The whole allocation, for the given iteration order of the teacher set, equals its specification. |
| SolverEngine.ChosenCount | project/src/solver_engine.py:165-171 | A session's assistants are at most the number needed, and fewer only when every eligible teacher is chosen. |
| SolverEngine.ChosenEligible | project/src/solver_engine.py:136-163 | Each assistant is not the main teacher, is of the subject's department, is under MAX_HOURS_PER_TEACHER and free at both hours; none is chosen twice. |
| SolverEngine.ChosenFewestHours | project/src/solver_engine.py:165-171 | Assistants come in order of hours and no eligible teacher left out has fewer hours than one chosen. |
| SolverEngine.SessionEffect | project/src/solver_engine.py:173-183 | After a session its assistants have two more hours and are busy at both hours, others are unchanged, and the list is stored under (subject id, start). |
| SolverEngine.SubjectSessionsHas | project/src/solver_engine.py:115-183 | No pass adds or removes a teacher. |
| SolverEngine.NoOverlappingAssistant | project/src/solver_engine.py:155-179 | An assistant stays busy at both hours, so in any later tally they cannot be chosen for a session sharing an hour. |
| SolverEngine.AssignAssistantsSound | project/src/solver_engine.py:58-196 | The allocation fails only when a class lists an unknown teacher; otherwise every stored list belongs to its subject, omits the main teacher, repeats nobody, is no longer than needed, and hours never decrease. |
| SolverEngine.RoomTotal | project/src/solver_engine.py:427-431 | "Classroom" has 60 rooms; any other type counts all 12 labs of the table. |
| SolverEngine.AssignRoom | project/src/solver_engine.py:419-442 | Returns the first-fit room and updates the ledger as the first-fit specification says; all taken gives the total, unrecorded. |
| SolverV1.SubjectKeyInjective | older_versions/1st_version/src/solver_engine.py:184 | Within one course-semester two subjects share a key iff they share a name. |
| SolverV1.DetailsIndex | older_versions/1st_version/src/solver_engine.py:181-186 | The index found is the first subject with that key; none iff no subject has it. |
| SolverV1.GetSubjectDetails | older_versions/1st_version/src/solver_engine.py:181-186 | The loop returns the first matching subject, or nothing (the empty dict). |
| SolverV1.RoomAnswerRange | older_versions/1st_version/src/solver_engine.py:158-179 | An unknown type raises KeyError; a known type gets a room between 1 and its count; "Classroom" is known. |
| SolverV1.AssignRoom | older_versions/1st_version/src/solver_engine.py:158-179 | Returns the first-fit room over 1..count and updates the ledger accordingly; KeyError for an unknown type. |
| SolverV1.OpenedThenTaken | older_versions/1st_version/src/solver_engine.py:160-176 | Creating the empty entries first changes nothing first fit sees or leaves behind. |
| SolverV1.AppendAt | older_versions/1st_version/src/solver_engine.py:59-63 | Appending to a schedule cell changes only that cell, at its end. |
| SolverV1.RunStops | older_versions/1st_version/src/solver_engine.py:51-138 | Once a step raises, the whole extraction raises the same error. |
| SolverV1.RunKeeps | older_versions/1st_version/src/solver_engine.py:51-138 | What every successful step keeps, a successful run keeps. |
| SolverV1.ExtractLedgerSound | older_versions/1st_version/src/solver_engine.py:39-176 | After a successful extraction no slot handed out a room number of a type twice, so classes sharing a slot got distinct rooms while rooms remained. |
| SolverV1.ClassStepFreshRoom | older_versions/1st_version/src/solver_engine.py:51-100 | A lecture or tutorial given a free classroom gets a number new at its slot, recorded there, and its entry is appended at its cell. |
| SolverV1.PracticalLayout | older_versions/1st_version/src/solver_engine.py:102-138 | A practical at t is entered at t and, when t + 1 is a slot, at t + 1 with the same lab; only the second is a continuation; no other cell changes. |
| SolverV1.PlaceClass | older_versions/1st_version/src/solver_engine.py:51-100 | One lecture or tutorial variable, with the room ledger updated in place, as the step function says. |
| SolverV1.PlacePractical | older_versions/1st_version/src/solver_engine.py:103-138 | One practical variable, with the ledger updated in place, as the step function says. |
| SolverV1.ExtractSolution | older_versions/1st_version/src/solver_engine.py:39-156 | The three loops (lectures, tutorials, practicals) compute the extraction function. |
| Feasibility.LabCount | project/src/feasibility_checker.py:241-242 | The room table has 12 rooms of type "lab". |
| Feasibility.CreditEffect | project/src/feasibility_checker.py:69-89 | Crediting a teacher adds the hours to that teacher's total only. |
| Feasibility.CreditAllTotal | project/src/feasibility_checker.py:76-89 | Each co-teacher gains the main hours once per time it is listed, others nothing. |
| Feasibility.StepEffect | project/src/feasibility_checker.py:45-89 | A counted subject adds the main hours to its teacher and, unless split teaching, to each co-teacher; a later row of a counted merge group adds nothing. |
| Feasibility.WorkloadInvariant | project/src/feasibility_checker.py:42-89 | The counted groups are exactly the merge groups seen so far, and each credited teacher is listed once. |
| Feasibility.MergedGroupCountedOnce | project/src/feasibility_checker.py:45-55 | A merged row whose group an earlier row already counted changes nothing. |
| Feasibility.ByTotalDescPreorder | project/src/feasibility_checker.py:93 | Ordering by descending total is a total preorder, as the sort needs. |
| Feasibility.BandsMembers | project/src/feasibility_checker.py:93-117 | An overload issue is reported for t with n iff t is ranked, n is its total and n > MAX; an underuse warning iff 5n < 4 MAX. |
| Feasibility.BandsIssuesOnly | project/src/feasibility_checker.py:93-117 | Every issue of the banding is an overload. |
| Feasibility.WorkloadNotesMembers | project/src/feasibility_checker.py:37-117 | A teacher is reported overloaded with its total iff it was credited more than MAX, and underused iff credited less than 80% of MAX (integer cross-multiplication). |
| Feasibility.WorkloadNotesEmpty | project/src/feasibility_checker.py:37-117 | The workload check raises no issue iff no teacher is credited more than MAX. |
| Feasibility.RankedDescending | project/src/feasibility_checker.py:93 | Teachers are reported largest total first. |
| Feasibility.FilterMembers | project/src/feasibility_checker.py:131-134 | A filtered row is kept iff it is a row meeting the condition. |
| Feasibility.NeededUnmerged | project/src/feasibility_checker.py:137-156 | Without merged rows the hours needed are the plain sum of every row's class hours. |
| Feasibility.NeededCountsGroupOnce | project/src/feasibility_checker.py:137-156 | A merged row whose group is already counted adds no hours. |
| Feasibility.UnionOfMembers | project/src/feasibility_checker.py:159-171 | A slot is available iff some row's semester reserves it. |
| Feasibility.TypeNotesIssue | project/src/feasibility_checker.py:173-215 | A type raises an issue iff its capacity is not positive or below the hours needed; it warns only when capacity is positive and usage is high. |
| Feasibility.NotesOverEmpty | project/src/feasibility_checker.py:129-217 | The types raise no issue iff every one of them fits. |
| Feasibility.FixedSlotNotesEmpty | project/src/feasibility_checker.py:129-217 | The fixed-slot check raises no issue iff every fixed-slot type with rows fits its capacity. |
| Feasibility.RoomNotesEmpty | project/src/feasibility_checker.py:245-294 | The room check raises no issue iff the theory hours fit the classroom capacity (when positive) and the practical sessions fit the lab capacity (or none are needed). |
| Feasibility.SumAppend | project/src/feasibility_checker.py:226-235 | Sums of hours distribute over concatenation of the rows. |
| Feasibility.PairCountIsSize | project/src/feasibility_checker.py:311-323 | The pair count is the number of slots t whose pair (t, t+1) lies in one day and touches no fixed slot. |
| Feasibility.PairCountShrinks | project/src/feasibility_checker.py:311-323 | More fixed slots never leave more pairs. |
| Feasibility.PairCountUnblocked | project/src/feasibility_checker.py:311-323 | With nothing fixed every slot but the last of its day starts a pair: n - n div 9, so 48 in a week. |
| Feasibility.PairNotesBlocked | project/src/feasibility_checker.py:351-362 | Zero pair capacity with sessions needed raises exactly the "no consecutive slots" issue. |
| Feasibility.PairNotesEmpty | project/src/feasibility_checker.py:326-363 | The pair check raises no issue iff the sessions fit pairs times labs, or none are needed when that is zero. |
| Feasibility.AllNotesEmpty | project/src/feasibility_checker.py:17-35 | No issue at all iff no teacher is over MAX, every fixed-slot type fits, theory fits the classrooms, practicals fit the labs and the free pairs. |
| Feasibility.CreditCoTeachers | project/src/feasibility_checker.py:76-89 | The co-teacher loop computes the crediting function. |
| Feasibility.CreditSubject | project/src/feasibility_checker.py:57-89 | One subject: the main teacher, then each co-teacher unless split teaching, credited with the main hours (with the zero fallback to total hours). |
| Feasibility.TallyWorkload | project/src/feasibility_checker.py:42-89 | The loop over subjects computes the workload tally, counting merge groups once. |
| Feasibility.RankTeachers | project/src/feasibility_checker.py:93-117 | The reporting loop produces the banding of the teachers in descending order. |
| Feasibility.FilterRows | project/src/feasibility_checker.py:131-134 | The filtering loop computes the filter. |
| Feasibility.SumNeeded | project/src/feasibility_checker.py:137-156 | The loop sums Le+Tu+Pr div 2 over the rows, merge groups once. |
| Feasibility.CountSlots | project/src/feasibility_checker.py:159-171 | The loop counts the union of the rows' reserved slots. |
| Feasibility.SumOver | project/src/feasibility_checker.py:226-235 | The loop computes the sum. |
| Feasibility.CountPairs | project/src/feasibility_checker.py:311-323 | The nested loop counts the free consecutive pairs of the week. |
| Feasibility.TypeCheck | project/src/feasibility_checker.py:131-177 | One fixed-slot type's demand and capacity figures. |
| Feasibility.FixedSlotCheck | project/src/feasibility_checker.py:129-217 | The loop over the fixed-slot types yields their figures and notes. |
| Feasibility.RoomCheck | project/src/feasibility_checker.py:226-243 | The classroom and lab demand and capacity figures. |
| Feasibility.PairCheck | project/src/feasibility_checker.py:308-328 | The pair demand and capacity figures, against all fixed slots. |
| Feasibility.Checker.constructor | project/src/feasibility_checker.py:10-15 | A checker starts with no issues, no warnings and no statistics. |
| Feasibility.Checker.CheckTeacherWorkload | project/src/feasibility_checker.py:37-120 | Appends the workload notes and records the teacher totals; nothing else changes. |
| Feasibility.Checker.CheckFixedSlotCapacity | project/src/feasibility_checker.py:122-219 | Appends the fixed-slot notes and records the per-type usage. |
| Feasibility.Checker.CheckRoomCapacity | project/src/feasibility_checker.py:221-301 | Appends the room notes and records the room statistics. |
| Feasibility.Checker.CheckPracticalSlots | project/src/feasibility_checker.py:303-370 | Appends the pair notes and records the pair statistics. |
| Feasibility.Checker.SumHours | project/src/feasibility_checker.py:375 | `total_hours` is the sum of the records' `Total_hours`. |
| Feasibility.Checker.CountByType | project/src/feasibility_checker.py:378-382 | `by_type` is the per-type tally of the records, a record without a type counted as "DSC/DSE". |
| Feasibility.Checker.CalculateStatistics | project/src/feasibility_checker.py:372-388 | Records the overview (record count, total hours, per-type tally) and changes no issue or warning. |
| Feasibility.TypeOrder | project/src/feasibility_checker.py:378-382 | The types in the order they first appear, each once: the key order of `by_type`. |
| Feasibility.ByTypeKeys | project/src/feasibility_checker.py:378-382 | `by_type` has an entry for exactly the types some record has. |
| Feasibility.TotalUpdate | project/src/feasibility_checker.py:381-382 | Changing one entry changes the total over the keys by the difference. |
| Feasibility.TallyTotal | project/src/feasibility_checker.py:379-382 | One record more adds one to the summed counts and its hours to the summed hours. |
| Feasibility.OverviewSums | project/src/feasibility_checker.py:372-388 | The per-type counts add up to `total_subjects` and the per-type hours to `total_hours`. |
| Feasibility.Checker.CheckFeasibility | project/src/feasibility_checker.py:17-35 | Runs the four checks and the statistics in order; the issues and warnings are exactly the checks' notes, the input is feasible iff no issue was raised, and the statistics hold the teacher totals, fixed-slot usage, room and pair statistics and the overview. |
| ConstraintBuilder.SubjectIdsAgree | project/src/constraint_builder.py:75-89 | The builder and the solver engine build the same identifier for every record, so the engine finds the builder's variables. |
| ConstraintBuilder.ConsecutiveSlotAt | project/src/constraint_builder.py:1394-1412 | Slot t follows t - 1 iff t > 0 and t mod 9 != 0; then both lie on one day, an hour apart. |
| ConstraintBuilder.AllSlots | project/src/constraint_builder.py:104 | The whole week: exactly the indices below 54. |
| ConstraintBuilder.FixedTypeAllowed | project/src/constraint_builder.py:109-123 | A GE, SEC, VAC or AEC subject may use exactly the positions its type reserves for its semester. |
| ConstraintBuilder.CoreAllowed | project/src/constraint_builder.py:125-138 | A DSC or DSE subject may use exactly the slots no fixed-slot type of its semester reserves and that are no year's GE practical slot. |
| ConstraintBuilder.GePracticalAllowed | project/src/constraint_builder.py:140-153 | A GE practical may use the 12:30 hour of any day or its year's GE practical block, and nothing else. |
| ConstraintBuilder.CoreAvoidsGeLab | project/src/constraint_builder.py:133-138 | A DSC or DSE subject never meets a GE practical slot of any year. |
| ConstraintBuilder.FixedAndCoreApart | project/src/constraint_builder.py:109-138 | In one semester a subject of an offered fixed-slot type and a DSC or DSE subject never share an allowed slot. |
| ConstraintBuilder.GePracticalAndCoreApart | project/src/constraint_builder.py:125-153 | A GE practical never shares a slot with a DSC or DSE subject of a semester in 1..8. |
| ConstraintBuilder.GetAllowedSlots | project/src/constraint_builder.py:91-138 | The blocking loops compute the allowed-slot set. |
| ConstraintBuilder.BlockTypes | project/src/constraint_builder.py:130-131 | The loop over the semester's fixed-slot types gathers the union of their reserved slots. |
| ConstraintBuilder.GetGePracticalSlots | project/src/constraint_builder.py:140-153 | The union computes the GE practical slot set. |
| ConstraintBuilder.GetSlots | project/src/constraint_builder.py:185-192 | Lectures and tutorials use the subject's allowed slots; practicals the GE practical slots for a GE lab subject, else the same set. |
| ConstraintBuilder.SlotsForOnGrid | project/src/constraint_builder.py:185-192 | Every slot offered to a subject is on the grid. |
| ConstraintBuilder.SlotKeysAt | project/src/constraint_builder.py:180-219 | A variable of a kind exists for (id, t) iff some record with that identifier has taught hours of that kind and may use t. |
| ConstraintBuilder.AddKeyed | project/src/constraint_builder.py:197-217 | One `for t in slots` loop adds one key per slot. |
| ConstraintBuilder.KeySubject | project/src/constraint_builder.py:181-217 | One record adds its lecture, tutorial and practical keys. |
| ConstraintBuilder.SlotVariables | project/src/constraint_builder.py:180-219 | The loop over records computes the three key sets. |
| ConstraintBuilder.LabCodes | project_2/src/config.py:350-356 | The values of DEPARTMENT_LABS are the lab codes CL, PL, ChemL, BioL and EL. |
| ConstraintBuilder.LabCodeHasNoLabs | project_2/src/config.py:655-658 | No room of the table lists a lab code as its department. |
| ConstraintBuilder.BackupLabsAsWrittenEmpty | project/src/constraint_builder.py:243 | As written, the backup-lab test and the look-up never both succeed: no subject gets a backup lab. |
| ConstraintBuilder.BackupLabsOfDepartment | project/src/constraint_builder.py:241-243 | With the department checked against department names, each configured department gets its own non-empty lab list as backup, others none. |
| ConstraintBuilder.RoomStepFails | project/src/constraint_builder.py:240-270 | One record raises NameError iff it has tutorials and a slot for them, no lectures, and no earlier record assigned `dept_labs`; otherwise `dept_labs` is assigned afterwards iff it was or the record has lectures. |
| ConstraintBuilder.RoomKeysAssignLabs | project/src/constraint_builder.py:222-280 | After a successful pass `dept_labs` is assigned iff some record has lectures, and holds the backup list line 243 computed for the last such record. |
| ConstraintBuilder.RoomKeysFails | project/src/constraint_builder.py:222-280 | The pass fails iff a record with tutorials at some slot comes no later than the first record with lectures. |
| ConstraintBuilder.RoomKeysErrPersists | project/src/constraint_builder.py:222-280 | Once a prefix fails, the whole pass fails with that error. |
| ConstraintBuilder.RoomStepKeys | project/src/constraint_builder.py:227-280 | A record adds only keys with its own identifier, at slots where it has variables of the key's kind. |
| ConstraintBuilder.RoomStepKeeps | project/src/constraint_builder.py:227-280 | A record keeps the keys gathered so far. |
| ConstraintBuilder.RoomStepCovers | project/src/constraint_builder.py:227-280 | A record adds a key for each of its variables and each room offered for it: its department's labs for practicals, the classrooms and the `dept_labs` backups for lectures and tutorials. |
| ConstraintBuilder.RoomKeysBelong | project/src/constraint_builder.py:222-280 | Every room variable belongs to a class variable of its kind: rooms are offered only where the class may take place. |
| ConstraintBuilder.RoomKeysCover | project/src/constraint_builder.py:222-280 | Every lecture and tutorial variable gets every classroom and every backup lab `dept_labs` holds once its record is reached; every practical variable gets every lab of its department. |
| ConstraintBuilder.DeptLabsFromLectures | project/src/constraint_builder.py:240-243 | Whatever `dept_labs` holds was computed at line 243 for some record with lectures. |
| ConstraintBuilder.LectureBackupsEmpty | project/src/constraint_builder.py:243 | With the configured room table, line 243 as written gives no record with lectures a backup lab. |
| ConstraintBuilder.RoomKeysTheoryRooms | project/src/constraint_builder.py:222-270 | A lecture or tutorial room variable names a classroom or a backup lab line 243 computed for some record with lectures. |
| ConstraintBuilder.RoomKeysClassroomsOnly | project/src/constraint_builder.py:222-270 | With the configured room table, as line 243 is written, every lecture and tutorial room variable names a classroom. |
| ConstraintBuilder.AddPlaced | project/src/constraint_builder.py:245-280 | One `for t in slots: for room in rooms` nest adds a key per slot and room. |
| ConstraintBuilder.PlaceRooms | project/src/constraint_builder.py:227-280 | One record's room loops compute the room step, with the backup-lab test as written and including the NameError. |
| ConstraintBuilder.RoomVariables | project/src/constraint_builder.py:222-280 | The loop over records returns the room keys, or the NameError raised when a tutorial reads `dept_labs` unassigned. |
| ConstraintBuilder.PenaltiesOfAt | project/src/constraint_builder.py:301-317 | One record adds exactly the penalties it calls for: classroom penalties at its theory slots when it requires lectures or tutorials, lab penalties at its practical slots when it requires practicals. |
| ConstraintBuilder.PenaltyKeysAt | project/src/constraint_builder.py:285-317 | A classroom penalty exists for (id, t) iff a record with that identifier requires lectures or tutorials and may use t; a lab penalty iff it requires practicals and may use t for them. |
| ConstraintBuilder.AddPenalties | project/src/constraint_builder.py:302-317 | One slot loop adds the two penalties per slot. |
| ConstraintBuilder.PenaltyVariables | project/src/constraint_builder.py:285-317 | The loop computes the penalty key set. |
| ConstraintBuilder.CreateVariables | project/src/constraint_builder.py:155-337 | Every decision variable's key, or the error raised, as specified. |
| ConstraintBuilder.FirstNamed | project/src/constraint_builder.py:496-510 | The record found has the identifier; none is found iff no record has it. |
| ConstraintBuilder.MergedCount | project/src/constraint_builder.py:496-510 | The loop with its break computes the student count a class is fitted with. |
| ConstraintBuilder.GroupCountCovers | project/src/constraint_builder.py:502-508 | With no negative counts, a merge group's total is at least each member's count. |
| ConstraintBuilder.GroupCountNonNegative | project/src/constraint_builder.py:502-508 | With no negative counts, a merge group's total is non-negative. |
| ConstraintBuilder.MergedCopiesAgree | project/src/constraint_builder.py:496-510 | Every record of a merge group is fitted with the same count, the group's. |
| ConstraintBuilder.RoomFit | project/src/constraint_builder.py:521-547 | Fits iff min <= students <= max; oversized iff below min; undersized iff above max (and not below min); any misfit costs a positive penalty. |
| ConstraintBuilder.RoomFitGrows | project/src/constraint_builder.py:528-547 | Each further empty seat costs 10 and each further missing seat 100. |
| ConstraintBuilder.LabFit | project/src/constraint_builder.py:570-597 | A lab fits iff students are within 3 of capacity_max; outside that window the classroom formulas apply to the window's edges. |
| ConstraintBuilder.InfoIn | project/src/constraint_builder.py:519 | A room's entry is found iff the table lists that name. |
| ConstraintBuilder.FitBoundsLoop | project/src/constraint_builder.py:514-547 | The loop over candidate rooms with its `continue` computes the fit bounds. |
| ConstraintBuilder.FitBoundsSound | project/src/constraint_builder.py:514-597 | Every bound belongs to an existing room variable of this class and slot, charges that class's penalty of the right kind, and is positive. |
| ConstraintBuilder.FitBoundsComplete | project/src/constraint_builder.py:514-597 | Every candidate room with a variable gets the bound its fit calls for. |
| ConstraintBuilder.FitBoundsFound | project/src/constraint_builder.py:514-597 | When every candidate is in the table the pass cannot raise. |
| ConstraintBuilder.NamesFound | project_2/src/config.py:650-658 | Every listed room name is in the table. |
| ConstraintBuilder.FitBoundsNeverFail | project/src/constraint_builder.py:482-597 | The classroom pass and the pass over a department's labs never raise. |
| ConstraintBuilder.RoomFitBounds | project/src/constraint_builder.py:482-547 | The classroom bounds of a class at slot t, fitted with the merged student count. |
| ConstraintBuilder.LabFitBounds | project/src/constraint_builder.py:549-597 | The lab bounds of a practical at slot t over the available labs. |
| DataLoader.ParseTriple | project/src/data_loader.py:121-128 | An entry parses iff it has exactly three comma-separated fields, each an integer once stripped. |
| DataLoader.SummedMeaning | project/src/data_loader.py:118-136 | The per-teacher totals exist iff every entry is well formed and non-negative; they are then non-negative and bound each single entry. |
| DataLoader.SummedPrefixFails | project/src/data_loader.py:121-132 | The first bad entry ends the summation: every longer list fails too. |
| DataLoader.SummedStep | project/src/data_loader.py:134-136 | A further well-formed entry adds its hours to the running totals. |
| DataLoader.SummedStepFails | project/src/data_loader.py:124-132 | A malformed or negative entry makes the whole sum fail. |
| DataLoader.HoursTaughtValidMeaning | project/src/data_loader.py:103-205 | The hours cell is accepted iff teacher and hour entries agree in number, every entry is three non-negative integers, the subject type is known, the totals stay within its requirement, and there are practical hours only with a lab. |
| DataLoader.RequirementMeaning | project/src/data_loader.py:138-160 | For non-negative totals the requirement checks amount to a known type, each component within its bound and practicals only with a lab. |
| DataLoader.ValidEntriesWithinRequirement | project/src/data_loader.py:118-162 | In an accepted cell each single teacher's share is within the requirement too. |
| DataLoader.MismatchedSplitRejected | project/src/data_loader.py:108-116 | In split form a cell whose teacher and hour entry counts differ is rejected. |
| DataLoader.ParseTripleOfJoin | project/src/data_loader.py:121-128 | Three stripped, comma-free integer fields joined by commas parse back to their values. |
| DataLoader.ParseTripleOfFormat | project/src/data_loader.py:164-172 | Writing a triple as "le,tu,pr" and parsing it gives the triple back. |
| DataLoader.FormattedHoursValid | project/src/data_loader.py:164-200 | A single formatted triple is accepted iff it is non-negative, its type known, within the requirement and with practicals only with a lab. |
| DataLoader.SingleCellValid | project/src/data_loader.py:164-200 | A cell without '\|' is judged on its one triple alone. |
| DataLoader.SumEntries | project/src/data_loader.py:118-136 | The running totals of the '\|'-separated entries, or failure at the first bad one. |
| DataLoader.ValidateHoursTaught | project/src/data_loader.py:103-205 | The validator returns exactly the acceptance predicate, with every failure, including the ValueError of int(), giving false. |
| DataLoaderExpand.NonSplitMembers | project/src/data_loader.py:508 | non_split_teachers holds exactly the rows outside every split group, in order. |
| DataLoaderExpand.NonSplitPair | project/src/data_loader.py:508-511 | At least two rows lie outside split groups iff non_split_teachers has more than one entry. |
| DataLoaderExpand.ScanGroup | project/src/data_loader.py:497-508 | One pass collects the rows outside split groups and the split groups that lack a section. |
| DataLoaderExpand.FillGroups | project/src/data_loader.py:518-525 | Every member of a split group with a missing section gets "A". |
| DataLoaderExpand.GroupSectionsFails | project/src/data_loader.py:505-516 | A repeated GE/SEC/VAC/AEC subject is rejected iff two of its rows lie outside split groups and one of those has no section. |
| DataLoaderExpand.FilledSections | project/src/data_loader.py:487-525 | Filling keeps every row but its section; a split group with a missing section gets "A" throughout, a single row gets "A", and a row left without a section is outside every split group. |
| DataLoaderExpand.GroupSectionsOrdered | project/src/data_loader.py:487-528 | An accepted group comes back sorted by section as a rearrangement of the filled rows, and a row still without a section is the lone row outside the split groups. |
| DataLoaderExpand.LoneRowBesideSplitGroup | project/src/data_loader.py:493-528 | A split row and one plain row, both without a section: the split row gets "A" and the plain row keeps the empty section, sorted first. |
| DataLoaderExpand.AssignSections | project/src/data_loader.py:487-528 | The in-place rewrite of the sections followed by the sort computes the specified group. |
| DataLoaderExpand.CourseParts | project/src/data_loader.py:472-473 | The Course cell with whitespace collapsed, split on '+', each part stripped. |
| DataLoaderExpand.PlusCount | project/src/data_loader.py:472-473 | Collapsing and stripping whitespace keeps every '+'. |
| DataLoaderExpand.MergedIffPlus | project/src/data_loader.py:472-475 | A row is merged across courses iff its Course cell holds '+'. |
| DataLoaderExpand.MergeGroupIdsDistinct | project/src/data_loader.py:476 | Rows at different positions of the sheet get different merge group identifiers. |
| DataLoaderExpand.ExpandCourse | project/src/data_loader.py:472-484 | One copy per course part under its full name; the copies are merged, sharing the row's merge group identifier, iff the cell names more than one course. |
| DataLoaderExpand.CourseSemesterIdSections | project/src/data_loader.py:646-653 | Within one course and semester, sectioned rows share an identifier iff they name the same section. |
| DataLoaderExpand.CommonIdSections | project/src/data_loader.py:534-537 | The sections of one GE/SEC/VAC/AEC subject get distinct identifiers. |
| DataLoaderExpand.UnsectionedId | project/src/data_loader.py:650-653 | Without a section the identifier ends in at most 20 characters of the subject name, none a space. |
| DataLoaderExpand.GroupByKey | project/src/data_loader.py:590-609 | The rows grouped by (course, semester, subject, type), each group in sheet order. |
| DataLoaderExpand.GroupsRepeat | project/src/data_loader.py:590-623 | Two rows share a key, one without a section, iff some key's group has several rows and an empty section. |
| DataLoaderExpand.CheckRepeatedSections | project/src/data_loader.py:586-623 | The check raises ValueError iff a subject repeats under one key and some repetition has no section. |
| DataLoaderExpand.FindUnsectioned | project/src/data_loader.py:611-623 | The scan over the groups finds an unsectioned repeated group iff one exists. |
| DataLoaderExpand.CellCourses | project/src/data_loader.py:862-874 | The full names of the courses a Course cell names. |
| DataLoaderExpand.AddRowSections | project/src/data_loader.py:873-881 | Each of a row's courses gets an entry, and a non-empty section joins it. |
| DataLoaderExpand.CollectSectionSets | project/src/data_loader.py:857-881 | The pass over the rows gathers, per course and semester, exactly the non-empty sections found. |
| DataLoaderExpand.CollectSections | project/src/data_loader.py:857-881 | The loop computes the per-(course, semester) section sets. |
| DataLoaderExpand.CompareSectionsMeaning | project/src/data_loader.py:883-904 | For a configured course and semester, the sections agree iff some were found and they are exactly the first expected letters; a count error iff some were found and their number differs. |
| DataLoaderWorkload.MainHoursShares | project/src/data_loader.py:728-733 | When the fallback applies to a split row, the teachers' equal shares add up to the row's total. |
| DataLoaderWorkload.CreditCoEffect | project/src/data_loader.py:750-787 | Crediting co-teachers gives each listed teacher copies-many credits per listing, and nobody else anything. |
| DataLoaderWorkload.StepEffect | project/src/data_loader.py:708-787 | One row changes a teacher's tally by nothing when it repeats a counted merge group, else by its main-teacher and co-teacher shares. |
| DataLoaderWorkload.TalliedMatchesReference | project/src/data_loader.py:699-789 | The accountant remembers exactly the merge groups met so far, and each teacher's hours and subject count are their main share plus co-teacher share over the rows counted. |
| DataLoaderWorkload.TalliedIsReference | project/src/data_loader.py:699-789 | Each teacher's tally equals the reference sum. |
| DataLoaderWorkload.RepeatedGroupRowIgnored | project/src/data_loader.py:712-714 | A further row of an already counted merge group changes nothing. |
| DataLoaderWorkload.AsWrittenExcess | project/src/data_loader.py:750-787 | As written each teacher's tally exceeds the corrected one by exactly their co-teacher share. |
| DataLoaderWorkload.DoubleCreditExample | project/src/data_loader.py:763-787 | As written a co-teacher of a 3,1,0 row is credited 8 hours and two subjects; corrected, 4 hours and one. |
| DataLoaderWorkload.CreditCoTeachersAsWritten | project/src/data_loader.py:750-787 | The co-teacher loop as written credits each co-teacher twice. |
| DataLoaderWorkload.CreditCoTeachers | project/src/data_loader.py:750-774 | The co-teacher loop with one credit block credits each co-teacher once. |
| DataLoaderWorkload.CountTeacherHoursAsWritten | project/src/data_loader.py:699-789 | The accountant as written computes the reference tally with double co-teacher credit. |
| DataLoaderWorkload.CountTeacherHours | project/src/data_loader.py:699-789 | The corrected accountant computes the reference tally with single co-teacher credit. |
| LoaderV1.ValidateHourFormat | older_versions/1st_version/src/data_loader.py:154-168 | The format check on the cell split at ','. |
| LoaderV1.ValidateHourParts | older_versions/1st_version/src/data_loader.py:157-166 | Three parts are required, and each must parse as a non-negative integer; the caught exception gives false. |
| LoaderV1.AllNonNegativeFails | older_versions/1st_version/src/data_loader.py:161-164 | One failing part makes the check fail. |
| LoaderV1.AllNonNegativePrefix | older_versions/1st_version/src/data_loader.py:161-164 | A failing part makes every longer prefix fail. |
| LoaderV1.HourFormatParses | older_versions/1st_version/src/data_loader.py:154-175 | The format check accepts exactly what the expansion's unpacking parses into a non-negative triple. |
| LoaderV1.FormattedHoursAccepted | older_versions/1st_version/src/data_loader.py:154-168 | A triple written "le,tu,pr" passes iff it is non-negative. |
| LoaderV1.RowIssueOfMeaning | older_versions/1st_version/src/data_loader.py:88-152 | A row passes iff it meets every check: an integer semester, no blank required cell, a Course only optional for GE/SEC/VAC/AEC, a valid hour format, a known type allowed in the semester, a configured course and semester. |
| LoaderV1.SectionCount | older_versions/1st_version/src/data_loader.py:219 | The configured section count, or the KeyError of a missing course or semester. |
| LoaderV1.SectionCountMeaning | older_versions/1st_version/src/data_loader.py:219 | The look-up succeeds iff the course and semester are configured, giving their count. |
| LoaderV1.SectionEntries | older_versions/1st_version/src/data_loader.py:220-241 | One record per section letter. |
| LoaderV1.ExpandRowHours | older_versions/1st_version/src/data_loader.py:175-241 | Every record carries practical hours 2·pr, total le + tu + 2·pr, and a lab type iff it has practical hours. |
| LoaderV1.ExpandCommonRow | older_versions/1st_version/src/data_loader.py:197-215 | A GE/SEC/VAC/AEC row gives one record: course COMMON, section ALL, identifier COMMON-Sem{n}, student count 0. |
| LoaderV1.ExpandSectionRows | older_versions/1st_version/src/data_loader.py:216-241 | Any other row gives one record per configured section, the i-th lettered 'A'+i, with identifier {course}-Sem{n}-{letter} and the default student count. |
| LoaderV1.ExpandedIdsDistinct | older_versions/1st_version/src/data_loader.py:216-241 | The records of one row have pairwise distinct identifiers. |
| LoaderV1.ExpandRowFails | older_versions/1st_version/src/data_loader.py:173-241 | Expanding a row fails iff the hours do not unpack, the semester is not an integer, or a DSC/DSE row's course or semester is not configured. |
| LoaderV1.ValidatedRowExpands | older_versions/1st_version/src/data_loader.py:88-241 | A row that passed validation expands without error, provided its course name has no runs of inner spaces. |
| LoaderV1.GatherAllOk | older_versions/1st_version/src/data_loader.py:173-241 | Gathering ends without error iff every result succeeds. |
| LoaderV1.GatherStops | older_versions/1st_version/src/data_loader.py:173-241 | After a failure the remaining rows change nothing. |
| LoaderV1.GatherFirstError | older_versions/1st_version/src/data_loader.py:173-241 | The first failing row decides the outcome: the records before it and its error. |
| LoaderV1.ExpandAllOk | older_versions/1st_version/src/data_loader.py:170-243 | The expansion ends without error iff every row expands. |
| LoaderV1.ExpandAllFirstError | older_versions/1st_version/src/data_loader.py:170-243 | The first failing row decides: the records of the rows before it and its error. |
| LoaderV1.Loader.constructor | older_versions/1st_version/src/data_loader.py:10-13 | A new loader holds no subjects. |
| LoaderV1.Loader.ParseAndExpand | older_versions/1st_version/src/data_loader.py:170-243 | subjects is emptied, then each row's records are appended; an exception leaves what was appended before it. |
| Settings.LimitChecksMeans | project/config_manager.py:102-113 | The three limit checks pass iff every named limit is present as a number between 1 and 9. |
| Settings.Validate | project/config_manager.py:76-119 | A document is valid iff it is a non-empty mapping with semester, constraints and limits sections, an odd or even semester type, only boolean constraints and every limit between 1 and 9; any exception counts as invalid. |
| Settings.DefaultValid | project/config_manager.py:50-74 | The default document passes validation, so falling back to it always gives a valid configuration. |
| Settings.GetPathWalk | project/config_manager.py:290-306 | get answers the value stored at the dotted path when there is one other than None, and the default otherwise. |
| Settings.SetPathSucceeds | project/config_manager.py:308-321 | set succeeds iff no existing prefix of the path holds something other than a mapping. |
| Settings.SetThenGet | project/config_manager.py:290-321 | Reading a path right after setting it gives the value set (the default when None was set). |
| Settings.SetKeepsOthers | project/config_manager.py:290-321 | Setting one path leaves every path that parts ways with it unchanged. |
| Settings.ConfigManager.constructor | project/config_manager.py:14-17 | The manager holds the document that loading settled on. |
| Settings.ConfigManager.Get | project/config_manager.py:290-306 | The loop over the keys computes the path look-up. |
| Settings.ConfigManager.Set | project/config_manager.py:308-321 | On success the document becomes the old one with the path set, intermediate mappings created; when the walk raises nothing has changed. |
| PdfHelpers.SortRoomKey | older_versions/2nd_version/src/pdf_generator.py:572-584 | A name without '-' keys as itself; otherwise the key starts with the part before the first '-'. |
| PdfHelpers.NumberWord | older_versions/2nd_version/src/pdf_generator.py:578 | A decimal rendering is one word and reads back as its number. |
| PdfHelpers.NumberedRoomKey | older_versions/2nd_version/src/pdf_generator.py:572-581 | A room "<prefix>-<n>" keys as (prefix, "", n). |
| PdfHelpers.NumberedRoomsInOrder | older_versions/2nd_version/src/pdf_generator.py:572-581 | Numbered rooms with one prefix sort by number, so "R-9" precedes "R-10". |
| PdfHelpers.SortedRooms | older_versions/2nd_version/src/pdf_generator.py:448-449 | The rooms sorted by key, as a rearrangement of the input. |
| PdfHelpers.RemoveAll | older_versions/2nd_version/src/pdf_generator.py:469 | Removing a pattern never lengthens the string. |
| PdfHelpers.RemoveAllMissing | older_versions/2nd_version/src/pdf_generator.py:469 | A string without the pattern's first character is left as it is. |
| PdfHelpers.RemoveAllTrailing | older_versions/2nd_version/src/pdf_generator.py:469 | A trailing pattern after such a string is removed. |
| PdfHelpers.CleanRoomOfName | older_versions/2nd_version/src/pdf_generator.py:469-474 | Cleaning keeps a plain room name and strips a theory marker after it. |
| PdfHelpers.ListedNames | older_versions/2nd_version/src/pdf_generator.py:465-470 | A comma-separated room list gives one cleaned name per part. |
| PdfHelpers.UsedNamesOfName | older_versions/2nd_version/src/pdf_generator.py:463-474 | A plain room name, with or without a theory marker, occupies itself alone. |
| PdfHelpers.UsedAtMember | older_versions/2nd_version/src/pdf_generator.py:452-474 | A room is in use at a day and slot iff some class placed there occupies it. |
| PdfHelpers.FreeRooms | older_versions/2nd_version/src/pdf_generator.py:483-487 | The free rooms are exactly the table's rooms not in use, in table order. |
| PdfHelpers.FreeCellLines | older_versions/2nd_version/src/pdf_generator.py:489-498 | A cell lists at most 15 free rooms one per line, then a count of the rest; with no free room it says all are occupied. |
| PdfHelpers.MoreLine | older_versions/2nd_version/src/pdf_generator.py:492 | The count line holds no line break. |
| PdfHelpers.Capacities | older_versions/2nd_version/src/pdf_generator.py:443-446 | One entry per room of the table. |
| PdfHelpers.AllRooms | older_versions/2nd_version/src/pdf_generator.py:443-446 | The loop collects each room with its capacity. |
| PdfHelpers.CollectUsage | older_versions/2nd_version/src/pdf_generator.py:452-474 | The usage map agrees, at every listed day and slot, with the rooms the schedule occupies there. |
| PdfHelpers.FreeRoomsRow | older_versions/2nd_version/src/pdf_generator.py:479-500 | One day's row has a cell per slot, each listing the rooms free there in key order. |
| PdfHelpers.FreeRoomsGrid | older_versions/2nd_version/src/pdf_generator.py:440-504 | A row per day and a cell per slot, each the free-rooms cell of that day and slot. |
| PdfHelpers.HoursBounds | older_versions/2nd_version/src/pdf_generator.py:506-526 | A teacher's hours lie between the number of classes credited and twice that number. |
| PdfHelpers.CalculateTeacherHours | older_versions/2nd_version/src/pdf_generator.py:506-526 | The nested loops compute the teacher's hours: 2 per practical, 1 per other class, continuation entries and other teachers' classes skipped. |
| PdfHelpers.ClassesAt | older_versions/2nd_version/src/pdf_generator.py:252-253 | The classes of one cell are exactly those placed at that day and slot. |
| PdfHelpers.CellRoles | older_versions/2nd_version/src/pdf_generator.py:255-270 | A teacher's grid shows exactly the classes of the cell the teacher is listed in (continuations skipped), each as Main iff the teacher is listed first. |
| PdfHelpers.Tagged | older_versions/2nd_version/src/pdf_generator.py:562-563 | One claim per index of the type. |
| PdfHelpers.FixedInfoKeys | older_versions/2nd_version/src/pdf_generator.py:554-570 | A slot is labelled iff some claim names it. |
| PdfHelpers.FixedInfoNamesClaimers | older_versions/2nd_version/src/pdf_generator.py:562-568 | A label contains every type that claimed its slot. |
| PdfHelpers.FixedInfoFirstClaimer | older_versions/2nd_version/src/pdf_generator.py:565-566 | The first type to claim a slot starts its label. |
| PdfHelpers.FixedInfoSnoc | older_versions/2nd_version/src/pdf_generator.py:563-568 | One more claim changes only its own slot's label. |
| PdfHelpers.ClaimSlots | older_versions/2nd_version/src/pdf_generator.py:563-568 | The loop over one type's indices adds that type's claims. |
| PdfHelpers.ClaimTypes | older_versions/2nd_version/src/pdf_generator.py:560-568 | The loop over the semester's types adds every type's claims. |
| PdfHelpers.GetFixedSlotsInfo | older_versions/2nd_version/src/pdf_generator.py:554-570 | The labels of a semester are those of all claims of its fixed-slot types. |
| Mxcs.OrderedSlots | Testing/mxcs.py:79 | The preferred slots come first, and the order holds exactly the preferred slots and every grid slot. |
| Mxcs.DayHitsAppend | Testing/mxcs.py:81-85 | Visiting slots a then b finds a's open slots first, so preferred slots are found first. |
| Mxcs.HitsMember | Testing/mxcs.py:80-85 | The search finds exactly the open slots of the days and slots it visits. |
| Mxcs.HitsPrefix | Testing/mxcs.py:80-85 | Searching fewer days finds a prefix of what the whole search finds. |
| Mxcs.DayHitsPrefix | Testing/mxcs.py:81-85 | Visiting fewer slots of a day finds a prefix of what visiting them all finds. |
| Mxcs.KeepsShows | Testing/mxcs.py:91-122 | A label whose cells are kept stays shown. |
| Mxcs.KeepsAccounted | Testing/mxcs.py:91-122 | Keeping the taken cells keeps every subject shown or warned about, and the reserved slots. |
| Mxcs.AccountedGrow | Testing/mxcs.py:91-115 | More warnings account for at least as much. |
| Mxcs.WarnsAboutStep | Testing/mxcs.py:94-115 | A subject's warning joins those for the earlier subjects. |
| Mxcs.Timetable.constructor | Testing/mxcs.py:45-56 | Every day starts with GE at the GE slot, LUNCH at the lunch slot and FREE elsewhere. |
| Mxcs.FirstPairFrom | Testing/mxcs.py:62-65 | The first start on a day, from a given slot on, whose slot and the next are open; no earlier start is open. |
| Mxcs.FirstPairFound | Testing/mxcs.py:58-66 | The pair search fails iff no day of the order has an open pair; otherwise it gives the earliest open pair of the first day that has one. |
| Mxcs.LabPlacementOpen | Testing/mxcs.py:95-102 | A lab goes into an open pair on a day of its order, and is left out iff no such day has one. |
| Mxcs.TheoryPlacementOpen | Testing/mxcs.py:104-115 | Theory goes into two open single hours on different days that the single-slot search found, or else where a lab would go. |
| Mxcs.WrittenKeeps | Testing/mxcs.py:68-74 | Writing a placement into open slots keeps every taken cell and writes only the label and a break. |
| Mxcs.Timetable.FindTwoConsecutiveFree | Testing/mxcs.py:58-66 | The result is the first day of the order with two consecutive open slots, and the first such pair on it; none is found iff no day of the order has one. |
| Mxcs.Timetable.PlaceTwoConsecutive | Testing/mxcs.py:68-74 | The label fills slots i and i + 1; the next slot, when there is one and it is FREE, becomes BREAK; nothing else changes. |
| Mxcs.Timetable.FindSingleFreeSlots | Testing/mxcs.py:76-86 | The first open slots the search meets, preferred slots first on each day, at most count of them (at least one when one exists). |
| Mxcs.Timetable.ScanDay | Testing/mxcs.py:81-85 | One day of the search appends its open slots until the result is full. |
| Mxcs.Timetable.PlaceLab | Testing/mxcs.py:95-102 | The lab is placed iff the pair search finds a pair; the new table is the old one with the label in that first pair and a BREAK after it when that slot was FREE; otherwise the table is unchanged and no day of the order has an open pair. |
| Mxcs.Timetable.PlacePair | Testing/mxcs.py:68-74 | The new table is the old one with the label in the open pair and a BREAK after it when that slot was FREE; every taken cell is kept. |
| Mxcs.Timetable.PlaceTheory | Testing/mxcs.py:104-115 | When the first two open single hours found fall on different days they get the label and nothing else changes; otherwise the theory goes where a lab would (first open pair, BREAK after it); placed iff one of the two happens, and an unplaced course leaves the table unchanged. |
| Mxcs.Timetable.PlaceSingles | Testing/mxcs.py:110 | The new table is the old one with the label in the two given open slots on different days, and nothing else. |
| Mxcs.PlaceLabOf | Testing/mxcs.py:95-102 | One lab keeps the taken cells and writes only its label and a break; an unplaced lab leaves the table unchanged and found no open pair. |
| Mxcs.PlaceTheoryOf | Testing/mxcs.py:104-115 | One theory course keeps the taken cells and writes only its label and a break; an unplaced one leaves the table unchanged. |
| Mxcs.LabelsOnlyStep | Testing/mxcs.py:94-115 | Writing one more subject's label keeps every changed cell a subject's label or a break. |
| Mxcs.Timetable.BlankLeftovers | Testing/mxcs.py:117-120 | Every slot still FREE becomes "-", and nothing else changes. |
| Mxcs.PlaceLabs | Testing/mxcs.py:94-102 | Every subject's lab is shown or warned about; every warning names a subject whose lab found no open pair of slots on any day searched for it, which stays so in the final table; taken cells and the reserved slots stay, and every changed cell holds a subject's lab label or a break. |
| Mxcs.KeepsNoPair | Testing/mxcs.py:62-72 | Keeping the taken cells frees no slot, so a day without an open pair keeps having none. |
| Mxcs.KeepsMissed | Testing/mxcs.py:94-102 | Later placements keep every missed lab missed. |
| Mxcs.MissedStep | Testing/mxcs.py:94-102 | A lab that found no open pair justifies its warning; a placed lab adds none. |
| Mxcs.PlaceTheories | Testing/mxcs.py:104-115 | Every subject's theory is shown or warned about, every cell already taken is kept, and every changed cell holds a subject's theory label or a break. |
| Mxcs.ScheduleBatch | Testing/mxcs.py:91-122 | The finished table has no FREE slot, keeps GE and LUNCH, holds in every other slot a subject's lab or theory label, a BREAK or "-", shows or warns about every subject's lab and theory, and warns about nothing else. |
| RoomUsage.RecordedRooms | project/src/solver_engine.py:421-442 | Recording a room list changes only the list of that slot and room type. |
| RoomUsage.RecordedTwice | project/src/solver_engine.py:421-442 | A second recording at the same slot and type replaces the first. |
| RoomUsage.Ledger.constructor | project/src/solver_engine.py:206 | A new ledger records no rooms. |
| Text.ParseIntOfIntToString | project/src/data_loader.py:128 | int() reads back what str() wrote. |
| Text.NatToStringInjective | project/src/data_loader.py:650 | Distinct numbers are written differently, so identifiers built from distinct semesters differ. |
| Text.SplitJoin | project/src/data_loader.py:121 | Splitting undoes joining, for parts free of the separator. |
| Text.StripIdempotent | project/src/data_loader.py:109-110 | Stripping twice is stripping once. |
| Text.CountNormalize | project/src/data_loader.py:472 | Collapsing whitespace keeps every other character, so a '+' survives it. |

## Left out

- The CP-SAT model itself (`NewBoolVar`, `model.Add`, the objective, `solver.Value`, `SolverEngine.solve`, `print_summary`) is a foreign library; the constraint builder is modelled only as the key sets of its variables and the fit-penalty bounds it would post, and the post-solve passes take the solver's chosen values as input.
- The first-version constraint builder, `project/diagonistic_main.py` and the scripts under `Testing/` other than `mxcs.py` are not part of this model: they only drive the solver.
- Spreadsheet and file I/O: reading the workbook with pandas (`load_data`, `validate_data`, the current loader's `_validate_row`, NaN handling), YAML and JSON loading, saving and migration in `config_manager.py` (`load_config` and its fallback to the defaults are the `ConfigManager` constructor's argument), and every `main.py`. The model receives plain records and strings.
- Console output: every `print`, warning and error text. Messages become values (`Issue`/`Warning` notes, `PyError` exceptions) that carry their data but not their wording.
- Rendering with reportlab and openpyxl: fonts, colours, table styles, legends, the header row of the free-rooms grid and the text of teacher-grid cells; only the data those tables show is modelled.
- Interactive prompts: both `constraint_selector.py` files, `ConfigManager.interactive_configure`, the first-version `_validate_semester_type`, and the module-level part of `Testing/mxcs.py` (the prompt, the `COURSES` look-up and the CSV export); `Mxcs.ScheduleBatch` takes one batch's subject list.
- `validate_config_match` beyond the section comparison (the strength-table checks and the GE/SEC/VAC/AEC count warnings) is not modelled.
- Floating point: the utilization percentages of the feasibility checker are left out and its thresholds are compared by integer cross-multiplication.
- DataLoaderWorkload.CountTeacherHours: hours are exact `real` numbers, so the rounding of the floating-point fallback division (`Total_taught_hours / num_teachers`) is not captured.
- Nondeterminism: the order in which a Python set of teachers is iterated in `_assign_assistants`, and the day orders `random.sample` draws in `Testing/mxcs.py`, are inputs (one sequence per search); every property holds for every such order.
- The room table: the room-fit bounds, the variable key sets and the free-rooms grid take it as a parameter (`ConfigV2.Rooms` is the configured one) so that proofs do not unfold the literal table; the backup-lab finding and `ConstraintBuilder.RoomKeysClassroomsOnly` are stated against the configured table.
- The master schedule (day to slot to list of classes) is a flat sequence of placements in iteration order; the look-ups of a day and slot select from it.
- Settings.Checks: a truthy document that is not a mapping is treated as raising rather than following Python's `in` on lists and strings; the verdict of `_validate_config` is `False` either way.
- Settings.ConfigManager.Set: documents are values, so nested dictionaries shared between two places of a document (aliasing) are not captured; every dictionary is written as a copy.
- Mxcs.PlaceLabs: states that every changed cell holds some subject's lab label or a break, not the exact table the run of placements leaves; the exact table after each single placement is stated by `Mxcs.Timetable.PlaceLab`.
- Mxcs.PlaceTheories: likewise for theory labels; the exact table after each placement is stated by `Mxcs.Timetable.PlaceTheory`.
- Mxcs.ScheduleBatch: states what every cell can hold, not which subject's label ends up in which cell.
- Mxcs.Timetable.FindSingleFreeSlots: preferred slots must be grid slots (the program would raise KeyError on an unknown slot name), and days and slots are indices rather than names.
- Grid.SectionLetters: requires at most 0xD800 - 65 sections, so that every letter is a character; the configured counts are at most 3.
- Settings.Value: floats in the YAML document are not modelled.
- An interactive teacher-assignment store (assign, lock, reset, off days) is not in the code and is not modelled; the workload accountants and the ceil(students / ratio) assistant rule are what the code contains.

## Findings

| source | as written | input that shows it | evidently intended | confidence | as-written member | corrected member |
|---|---|---|---|---|---|---|
| project/src/constraint_builder.py:243 | Backup labs are offered only when the subject's department is among `DEPARTMENT_LABS.values()`, which are lab codes (CL, PL, ChemL, BioL, EL), and then looked up by department name; no department name is a lab code, so no lecture ever gets a backup lab (line 615 repeats the test); the room-variable pass is modelled with the test as written, and with the configured table its lecture and tutorial keys name classrooms only (`ConstraintBuilder.RoomKeysClassroomsOnly`) | any subject with lecture hours, e.g. of department "Computer Science" | test the department against the keys of `DEPARTMENT_LABS`, so a configured department's labs are backups | not executed | ConstraintBuilder.BackupLabsAsWrittenEmpty | ConstraintBuilder.BackupLabsOfDepartment |
| project/src/data_loader.py:763-787 | The block that credits a non-split co-teacher (763-774) is repeated verbatim (776-787), so each co-teacher is credited the hours and the subject twice | one row, main teacher T1, co-teacher T2, not split, hours 3,1,0: T2 gets 8 hours and 2 subjects | credit each co-teacher once (4 hours, 1 subject), as the feasibility checker does | not executed | DataLoaderWorkload.DoubleCreditExample | DataLoaderWorkload.CountTeacherHours |

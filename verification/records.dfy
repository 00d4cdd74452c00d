/**
 * The expanded subject record the loader hands to the feasibility checker, the
 * constraint builder and the solver engine (one dictionary per course-section
 * and teacher in the Python program).
 */
module Records {
  import opened Wrappers
  import ConfigV2

  type Hours = ConfigV2.Hours

  datatype Subject = Subject(
    course: string,                  // full course name, or "COMMON"
    semester: int,
    name: string,
    teacher: string,                 // the main teacher
    isMerged: bool,
    mergeGroupId: Option<string>,
    splitGroupId: Option<string>,
    coTeachers: seq<string>,
    isSplitTeaching: bool,
    department: string,
    subjectType: string,
    hasLab: bool,
    taught: Hours,                   // Taught_Lecture/Tutorial/Practical_hours
    remaining: Hours,                // Remaining_*_hours
    required: Hours,                 // Lecture_hours, Tutorial_hours, Practical_hours
    totalHours: int,                 // Total_hours
    totalTaughtHours: Option<int>,   // Total_taught_hours, when the record has it
    labType: Option<string>,
    courseSemester: string,
    section: string,
    studentsCount: int,
    isGeLab: bool)

  /** Le+Tu+Pr taught by the record's main teacher. */
  function TaughtSum(s: Subject): int {
    s.taught.le + s.taught.tu + s.taught.pr
  }

  /** The number of times `x` occurs in `xs`. */
  function Occurrences<T(==)>(xs: seq<T>, x: T): (r: nat)
    ensures r <= |xs|
    ensures r == 0 <==> x !in xs
    decreases |xs|
  {
    if xs == [] then 0
    else
      assert xs == xs[..|xs| - 1] + [xs[|xs| - 1]];
      Occurrences(xs[..|xs| - 1], x) + (if xs[|xs| - 1] == x then 1 else 0)
  }

  /** No element of `xs` repeats. */
  predicate Distinct<T(==)>(xs: seq<T>) {
    forall i, j :: 0 <= i < j < |xs| ==> xs[i] != xs[j]
  }
}

/**
 * The weekly grid and the semester rules shared by both generations of the
 * configuration: six teaching days, nine one-hour slots starting at 8:30,
 * semesters grouped into years, the subject types each year may offer and
 * the section letters of a course.
 */
module Grid {
  import opened Text

  datatype Day = Mon | Tue | Wed | Thu | Fri | Sat

  const Days: seq<Day> := [Mon, Tue, Wed, Thu, Fri, Sat]
  const StartHour: nat := 8
  const EndHour: nat := 17
  /** Number of slots in one day and in the whole week. */
  const SlotsPerDay: nat := 9
  const SlotCount: nat := 54

  /**
   * A slot is the hour `h` at which the period "h:30-(h+1):30" starts; the
   * label is only ever compared for equality, and `SlotLabelInjective` shows
   * that comparing labels is comparing start hours.
   */
  type Hour = nat

  function SlotLabel(h: Hour): string {
    NatToString(h) + ":30-" + NatToString(h + 1) + ":30"
  }

  lemma SlotLabelInjective(a: Hour, b: Hour)
    requires SlotLabel(a) == SlotLabel(b)
    ensures a == b
  {
    var da, db := NatToString(a), NatToString(b);
    var ra, rb := ":30-" + NatToString(a + 1) + ":30", ":30-" + NatToString(b + 1) + ":30";
    assert SlotLabel(a) == da + ra;
    assert SlotLabel(b) == db + rb;
    LeadingDigitsBeforeColon(da, ra);
    LeadingDigitsBeforeColon(db, rb);
    NatToStringInjective(a, b);
  }

  /** The longest prefix of `s` made of digits. */
  function LeadingDigits(s: string): string {
    if s != [] && IsDigit(s[0]) then [s[0]] + LeadingDigits(s[1..]) else []
  }

  lemma {:induction false} LeadingDigitsBeforeColon(d: string, rest: string)
    requires AllDigits(d) && rest != [] && rest[0] == ':'
    ensures LeadingDigits(d + rest) == d
    decreases |d|
  {
    if d != [] {
      LeadingDigitsBeforeColon(d[1..], rest);
      assert (d + rest)[1..] == d[1..] + rest;
    } else {
      assert d + rest == rest;
    }
  }

  /** The start hours of the slots of one day, in order. */
  function DaySlots(): (hs: seq<Hour>)
    ensures |hs| == SlotsPerDay
    ensures forall j :: 0 <= j < |hs| ==> hs[j] == StartHour + j
  {
    seq(EndHour - StartHour, j => StartHour + j)
  }

  /** Every pair `(d, h)` with `d` from `ds` and `h` from `hs`, days outermost. */
  function Product(ds: seq<Day>, hs: seq<Hour>): (r: seq<(Day, Hour)>)
    ensures |r| == |ds| * |hs|
  {
    if ds == [] then []
    else seq(|hs|, j requires 0 <= j < |hs| => (ds[0], hs[j])) + Product(ds[1..], hs)
  }

  lemma {:induction false} ProductAt(ds: seq<Day>, hs: seq<Hour>, i: nat, j: nat)
    requires i < |ds| && j < |hs|
    ensures i * |hs| + j < |ds| * |hs|
    ensures Product(ds, hs)[i * |hs| + j] == (ds[i], hs[j])
    decreases i
  {
    var n := |hs|;
    var head := seq(n, k requires 0 <= k < n => (ds[0], hs[k]));
    assert Product(ds, hs) == head + Product(ds[1..], hs);
    MulStep(|ds| - 1, n);
    if i > 0 {
      ProductAt(ds[1..], hs, i - 1, j);
      MulStep(i - 1, n);
      assert Product(ds, hs)[i * n + j] == Product(ds[1..], hs)[(i - 1) * n + j];
    }
  }

  /** `(a + 1) * n == a * n + n`. */
  lemma MulStep(a: nat, n: nat)
    ensures (a + 1) * n == a * n + n
  {
  }

  /** `get_time_slots`: the week as a list of (day, slot), Monday first. */
  function TimeSlots(): (r: seq<(Day, Hour)>)
    ensures |r| == SlotCount
  {
    Product(Days, DaySlots())
  }

  /** Slot index `t` is day `t / 9` at hour `8 + t % 9`. */
  lemma TimeSlotAt(t: nat)
    requires t < SlotCount
    ensures TimeSlots()[t] == (Days[t / SlotsPerDay], StartHour + t % SlotsPerDay)
  {
    ProductAt(Days, DaySlots(), t / SlotsPerDay, t % SlotsPerDay);
  }

  /** Position of a grid index's day in the week (0 is Monday) and its start hour. */
  function DayOf(t: nat): nat { t / SlotsPerDay }
  function HourOf(t: nat): Hour { StartHour + t % SlotsPerDay }

  /** Grid index `t` is the slot of day `d` at hour `h`. */
  lemma GridIndex(t: nat)
    requires t < SlotCount
    ensures DayOf(t) < 6 && StartHour <= HourOf(t) < EndHour
    ensures t == SlotsPerDay * DayOf(t) + (HourOf(t) - StartHour)
  {
  }

  /** The weekday at position `d`, read against the day lists the tables use. */
  lemma DayLists(d: nat)
    requires d < 6
    ensures Days[d] in Days
    ensures (Days[d] in [Mon, Tue, Wed, Thu, Fri]) == (d <= 4)
    ensures (Days[d] in [Mon, Tue]) == (d <= 1)
    ensures (Days[d] in [Tue]) == (d == 1)
    ensures (Days[d] in [Wed]) == (d == 2)
    ensures (Days[d] in [Thu]) == (d == 3)
    ensures (Days[d] in [Fri]) == (d == 4)
    ensures (Days[d] in [Sat]) == (d == 5)
  {
  }

  /** Semester numbers by parity. */
  const OddSemesters: seq<int> := [1, 3, 5, 7]
  const EvenSemesters: seq<int> := [2, 4, 6, 8]

  const SubjectTypes: seq<string> := ["DSC", "DSE", "GE", "SEC", "VAC", "AEC"]
  const FixedSlotTypes: seq<string> := ["GE", "SEC", "VAC", "AEC"]

  const Year1Subjects: seq<string> := ["DSC", "GE", "SEC", "VAC", "AEC"]
  const Year2Subjects: seq<string> := ["DSC", "DSE", "GE", "SEC", "VAC", "AEC"]
  const Year3Subjects: seq<string> := ["DSC", "DSE", "GE", "SEC"]
  const Year4Subjects: seq<string> := ["DSC", "DSE", "GE"]

  /** `get_year_from_semester`: semesters 1-2 are year 1, ..., 7-8 year 4; anything else 0. */
  function YearFromSemester(semester: int): (year: nat)
    ensures year <= 4
    ensures (year == 0) == !(1 <= semester <= 8)
    ensures year != 0 ==> year == (semester + 1) / 2
    ensures year != 0 ==> semester == 2 * year - 1 || semester == 2 * year
  {
    if semester in [1, 2] then 1
    else if semester in [3, 4] then 2
    else if semester in [5, 6] then 3
    else if semester in [7, 8] then 4
    else 0
  }

  function YearSubjects(year: nat): seq<string> {
    match year
    case 1 => Year1Subjects
    case 2 => Year2Subjects
    case 3 => Year3Subjects
    case 4 => Year4Subjects
    case _ => []
  }

  /** `get_allowed_subject_types_for_semester`. */
  function AllowedSubjectTypes(semester: int): (r: seq<string>)
    ensures r == YearSubjects(YearFromSemester(semester))
    ensures !(1 <= semester <= 8) ==> r == []
    ensures forall t :: t in r ==> t in SubjectTypes
  {
    if semester in [1, 2] then Year1Subjects
    else if semester in [3, 4] then Year2Subjects
    else if semester in [5, 6] then Year3Subjects
    else if semester in [7, 8] then Year4Subjects
    else []
  }

  /** Every year offers core (DSC) and generic elective (GE) subjects; only
      year 1 lacks discipline electives (DSE), and value-added courses (VAC)
      stop after year 2. */
  lemma AllowedSubjectTypesByYear(semester: int)
    requires 1 <= semester <= 8
    ensures "DSC" in AllowedSubjectTypes(semester) && "GE" in AllowedSubjectTypes(semester)
    ensures ("DSE" in AllowedSubjectTypes(semester)) == (semester >= 3)
    ensures ("VAC" in AllowedSubjectTypes(semester)) == (semester <= 4)
    ensures ("AEC" in AllowedSubjectTypes(semester)) == (semester <= 4)
    ensures ("SEC" in AllowedSubjectTypes(semester)) == (semester <= 6)
  {
  }

  /** `r` is `ts` with some entries dropped, the rest kept in their order. */
  predicate Subsequence(r: seq<string>, ts: seq<string>)
    decreases |ts|
  {
    if r == [] then true
    else if ts == [] then false
    else (r[0] == ts[0] && Subsequence(r[1..], ts[1..])) || Subsequence(r, ts[1..])
  }

  /** The list comprehension `[t for t in ts if t in allowed]`: the allowed entries
      of `ts`, each as often as it occurs there, in their order. */
  function KeepIn(ts: seq<string>, allowed: seq<string>): (r: seq<string>)
    ensures forall t :: t in r <==> t in ts && t in allowed
    ensures |r| <= |ts|
  {
    if ts == [] then []
    else
      (if ts[0] in allowed then [ts[0]] else []) + KeepIn(ts[1..], allowed)
  }

  /** The filter keeps each allowed entry as often as `ts` has it, and no other. */
  lemma {:induction false} KeepInCounts(ts: seq<string>, allowed: seq<string>, t: string)
    ensures multiset(KeepIn(ts, allowed))[t] == if t in allowed then multiset(ts)[t] else 0
    decreases |ts|
  {
    if ts != [] {
      KeepInCounts(ts[1..], allowed, t);
      assert ts == [ts[0]] + ts[1..];
    }
  }

  /** The filter keeps the order of `ts`: its result is a subsequence. */
  lemma {:induction false} KeepInSubsequence(ts: seq<string>, allowed: seq<string>)
    ensures Subsequence(KeepIn(ts, allowed), ts)
    decreases |ts|
  {
    if ts != [] {
      KeepInSubsequence(ts[1..], allowed);
      var rest := KeepIn(ts[1..], allowed);
      if ts[0] in allowed {
        assert KeepIn(ts, allowed) == [ts[0]] + rest;
        assert ([ts[0]] + rest)[1..] == rest;
      } else {
        assert KeepIn(ts, allowed) == rest;
      }
    }
  }

  /** When the allowed entries of `ts` are exactly its first `n`, the filter keeps
      that prefix. */
  lemma {:induction false} KeepInPrefix(ts: seq<string>, allowed: seq<string>, n: nat)
    requires n <= |ts|
    requires forall i :: 0 <= i < n ==> ts[i] in allowed
    requires forall i :: n <= i < |ts| ==> ts[i] !in allowed
    ensures KeepIn(ts, allowed) == ts[..n]
    decreases |ts|
  {
    if ts != [] {
      if n == 0 {
        KeepInPrefix(ts[1..], allowed, 0);
      } else {
        KeepInPrefix(ts[1..], allowed, n - 1);
        assert ts[..n] == [ts[0]] + ts[1..][..n - 1];
      }
    }
  }

  /** The fixed-slot types a year's subject list keeps: all four in years 1 and
      2, GE and SEC in year 3, GE alone in year 4, none outside. */
  lemma FixedTypesOfYear(year: nat)
    ensures KeepIn(FixedSlotTypes, YearSubjects(year)) ==
      match year
      case 1 => FixedSlotTypes
      case 2 => FixedSlotTypes
      case 3 => FixedSlotTypes[..2]
      case 4 => FixedSlotTypes[..1]
      case _ => []
  {
    var ts := FixedSlotTypes;
    match year {
      case 1 =>
        assert ts[0] == Year1Subjects[1] && ts[1] == Year1Subjects[2] && ts[2] == Year1Subjects[3] && ts[3] == Year1Subjects[4];
        KeepInPrefix(ts, Year1Subjects, 4);
      case 2 =>
        assert ts[0] == Year2Subjects[2] && ts[1] == Year2Subjects[3] && ts[2] == Year2Subjects[4] && ts[3] == Year2Subjects[5];
        KeepInPrefix(ts, Year2Subjects, 4);
      case 3 =>
        assert ts[0] == Year3Subjects[2] && ts[1] == Year3Subjects[3];
        KeepInPrefix(ts, Year3Subjects, 2);
      case 4 =>
        assert ts[0] == Year4Subjects[2];
        KeepInPrefix(ts, Year4Subjects, 1);
      case _ =>
        KeepInPrefix(ts, [], 0);
    }
  }

  /** `get_fixed_slot_types_for_semester`: the fixed-slot types the semester offers,
      in the order of the fixed-slot type list. */
  function FixedSlotTypesForSemester(semester: int): (r: seq<string>)
    ensures forall t :: t in r <==> t in FixedSlotTypes && t in AllowedSubjectTypes(semester)
    ensures r == if 1 <= semester <= 4 then ["GE", "SEC", "VAC", "AEC"]
                 else if 5 <= semester <= 6 then ["GE", "SEC"]
                 else if 7 <= semester <= 8 then ["GE"]
                 else []
  {
    FixedTypesOfYear(YearFromSemester(semester));
    KeepIn(FixedSlotTypes, AllowedSubjectTypes(semester))
  }

  /** `get_section_letters`: the first `n` capital letters, one string each; the model
      stops below the surrogate range of code points, where Python's `chr` would
      still go on. */
  function SectionLetters(n: int): (r: seq<string>)
    requires n <= 0xD800 - 65
    ensures |r| == if n < 0 then 0 else n
    ensures forall i :: 0 <= i < |r| ==> r[i] == [(65 + i) as char]
  {
    if n <= 0 then [] else SectionLetters(n - 1) + [[(65 + n - 1) as char]]
  }

  lemma SectionLettersDistinct(n: int)
    requires n <= 0xD800 - 65
    ensures forall i, j :: 0 <= i < j < |SectionLetters(n)| ==> SectionLetters(n)[i] != SectionLetters(n)[j]
  {
    var r := SectionLetters(n);
    forall i, j | 0 <= i < j < |r|
      ensures r[i] != r[j]
    {
      assert r[i][0] != r[j][0];
    }
  }

  /** Number of sections of each course in each semester (identical in both
      generations of the configuration). */
  const CourseSections: map<string, map<int, nat>> := map[
    "B.Sc. (Hons.) Chemistry" := map[1 := 2, 2 := 2, 3 := 2, 4 := 2, 5 := 2, 6 := 2, 7 := 1, 8 := 1],
    "B.Sc. (Hons) Computer Science" := Uniform(1),
    "B.Sc. (Hons) Electronics" := Uniform(1),
    "B.Sc. (Hons.) Mathematics" := Uniform(2),
    "B.Sc. (Hons.) Physics" := Uniform(2),
    "B.Sc. Physical science Industrial Chemistry" := Uniform(1),
    "B.Sc. Physical Science Chemistry" := Uniform(1),
    "B.Sc. Physical Science Electronics" := Uniform(1),
    "B.Sc. Physical Science Computer Science" := Uniform(1),
    "B.A. (Hons.) Economics" := Uniform(2),
    "B.A. (Hons.) English" := Uniform(1),
    "B.A. (Hons.) Hindi" := Uniform(1),
    "B.A. (Hons.) History" := Uniform(1),
    "B.A. (Hons.) Political Science" := Uniform(1),
    "B.A. Program" := Uniform(1),
    "B.Com (Hons)" := Uniform(3),
    "B.Com" := Uniform(3)
  ]

  /** The same number of sections in all eight semesters. */
  function Uniform(n: nat): (m: map<int, nat>)
    ensures m.Keys == {1, 2, 3, 4, 5, 6, 7, 8}
    ensures forall s :: s in m ==> m[s] == n
  {
    map[1 := n, 2 := n, 3 := n, 4 := n, 5 := n, 6 := n, 7 := n, 8 := n]
  }

  /** No course has more than three sections in any semester. */
  lemma CourseSectionsSmall(course: string, semester: int)
    requires course in CourseSections && semester in CourseSections[course]
    ensures CourseSections[course][semester] <= 3
  {
  }
}

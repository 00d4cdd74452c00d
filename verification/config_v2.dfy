/**
 * The current configuration (`Config` in project_2/src/config.py, also used
 * by project/src): year-specific fixed slots, subject hour requirements,
 * course names and strengths, and the individual rooms.
 */
module ConfigV2 {
  import opened Wrappers
  import opened Text
  import opened Grid
  import opened FixedSlotTables

  const AllDays: seq<Day> := [Mon, Tue, Wed, Thu, Fri, Sat]

  /** Reserved slots, keyed by subject type and (for most types) year. */
  const FixedSlots: Table := map[
    "GE" := FixedSlot([12], AllDays),
    "GE_LAB_YEAR1" := FixedSlot([15, 16], [Sat]),
    "GE_LAB_YEAR2" := FixedSlot([15, 16], [Wed]),
    "GE_LAB_YEAR3" := FixedSlot([15, 16], [Thu]),
    "GE_LAB_YEAR4" := FixedSlot([10, 11], [Tue]),
    "SEC_YEAR1" := FixedSlot([13, 14], [Fri]),
    "SEC_YEAR1_SAT" := FixedSlot([8, 9], [Sat]),
    "SEC_YEAR2" := FixedSlot([13, 14], [Fri]),
    "SEC_YEAR2_SAT" := FixedSlot([8, 9], [Sat]),
    "SEC_YEAR3" := FixedSlot([15, 16], [Mon, Tue]),
    "VAC_YEAR1" := FixedSlot([15, 16], [Fri]),
    "VAC_YEAR1_SAT" := FixedSlot([10, 11], [Sat]),
    "VAC_YEAR2" := FixedSlot([15, 16], [Fri]),
    "VAC_YEAR2_SAT" := FixedSlot([10, 11], [Sat]),
    "AEC" := FixedSlot([12], [Mon, Tue, Wed, Thu, Fri]),
    "AEC_SAT" := FixedSlot([13, 14], [Sat])
  ]

  /** The table keys `get_fixed_slot_indices` consults for a type and an optional
      semester; an unknown type, or a year-specific type without a semester,
      consults none. */
  function FixedSlotKeys(courseType: string, semester: Option<int>): seq<string> {
    if courseType == "GE" then ["GE"]
    else if courseType == "GE_LAB" && semester.Some? then
      ["GE_LAB_YEAR" + NatToString(YearFromSemester(semester.value))]
    else if courseType == "SEC" && semester.Some? then
      var year := YearFromSemester(semester.value);
      if year in [1, 2] then ["SEC_YEAR" + NatToString(year), "SEC_YEAR" + NatToString(year) + "_SAT"]
      else if year == 3 then ["SEC_YEAR3"]
      else []
    else if courseType == "VAC" && semester.Some? then
      var year := YearFromSemester(semester.value);
      if year in [1, 2] then ["VAC_YEAR" + NatToString(year), "VAC_YEAR" + NatToString(year) + "_SAT"]
      else []
    else if courseType == "AEC" then ["AEC", "AEC_SAT"]
    else []
  }

  /** The reserved grid indices of a type (and semester), as `get_fixed_slot_indices` lists them. */
  function FixedSlotIndices(courseType: string, semester: Option<int>): seq<nat> {
    IndicesOf(FixedSlots, FixedSlotKeys(courseType, semester))
  }

  /** `get_fixed_slot_indices`. */
  method GetFixedSlotIndices(courseType: string, semester: Option<int>) returns (indices: seq<nat>)
    ensures indices == FixedSlotIndices(courseType, semester)
    ensures forall i :: i in indices ==> i < SlotCount
  {
    indices := CollectIndices(FixedSlots, FixedSlotKeys(courseType, semester));
    IndicesOfBounded(FixedSlots, FixedSlotKeys(courseType, semester));
  }

  /**
   * Where each family of reserved slots lies, written directly by weekday
   * position `d` (0 is Monday) and start hour `h`, independently of the table.
   */
  predicate ReservedAt(courseType: string, semester: Option<int>, d: nat, h: Hour) {
    if courseType == "GE" then h == 12
    else if courseType == "GE_LAB" && semester.Some? then
      match YearFromSemester(semester.value)
      case 1 => d == 5 && 15 <= h <= 16
      case 2 => d == 2 && 15 <= h <= 16
      case 3 => d == 3 && 15 <= h <= 16
      case 4 => d == 1 && 10 <= h <= 11
      case _ => false
    else if courseType == "SEC" && semester.Some? then
      match YearFromSemester(semester.value)
      case 1 => (d == 4 && 13 <= h <= 14) || (d == 5 && 8 <= h <= 9)
      case 2 => (d == 4 && 13 <= h <= 14) || (d == 5 && 8 <= h <= 9)
      case 3 => d <= 1 && 15 <= h <= 16
      case _ => false
    else if courseType == "VAC" && semester.Some? then
      match YearFromSemester(semester.value)
      case 1 => (d == 4 && 15 <= h <= 16) || (d == 5 && 10 <= h <= 11)
      case 2 => (d == 4 && 15 <= h <= 16) || (d == 5 && 10 <= h <= 11)
      case _ => false
    else if courseType == "AEC" then (d <= 4 && h == 12) || (d == 5 && 13 <= h <= 14)
    else false
  }

  /** Each table entry, read by weekday position and start hour. */
  lemma GeEntries(d: nat, h: Hour)
    requires d < 6
    ensures Covers(FixedSlots["GE"], d, h) <==> h == 12
    ensures Covers(FixedSlots["GE_LAB_YEAR1"], d, h) <==> d == 5 && 15 <= h <= 16
    ensures Covers(FixedSlots["GE_LAB_YEAR2"], d, h) <==> d == 2 && 15 <= h <= 16
    ensures Covers(FixedSlots["GE_LAB_YEAR3"], d, h) <==> d == 3 && 15 <= h <= 16
    ensures Covers(FixedSlots["GE_LAB_YEAR4"], d, h) <==> d == 1 && 10 <= h <= 11
  {
    DayLists(d);
  }

  lemma SecEntries(d: nat, h: Hour)
    requires d < 6
    ensures Covers(FixedSlots["SEC_YEAR1"], d, h) <==> d == 4 && 13 <= h <= 14
    ensures Covers(FixedSlots["SEC_YEAR1_SAT"], d, h) <==> d == 5 && 8 <= h <= 9
    ensures Covers(FixedSlots["SEC_YEAR2"], d, h) <==> d == 4 && 13 <= h <= 14
    ensures Covers(FixedSlots["SEC_YEAR2_SAT"], d, h) <==> d == 5 && 8 <= h <= 9
    ensures Covers(FixedSlots["SEC_YEAR3"], d, h) <==> d <= 1 && 15 <= h <= 16
  {
    DayLists(d);
  }

  lemma VacAecEntries(d: nat, h: Hour)
    requires d < 6
    ensures Covers(FixedSlots["VAC_YEAR1"], d, h) <==> d == 4 && 15 <= h <= 16
    ensures Covers(FixedSlots["VAC_YEAR1_SAT"], d, h) <==> d == 5 && 10 <= h <= 11
    ensures Covers(FixedSlots["VAC_YEAR2"], d, h) <==> d == 4 && 15 <= h <= 16
    ensures Covers(FixedSlots["VAC_YEAR2_SAT"], d, h) <==> d == 5 && 10 <= h <= 11
    ensures Covers(FixedSlots["AEC"], d, h) <==> d <= 4 && h == 12
    ensures Covers(FixedSlots["AEC_SAT"], d, h) <==> d == 5 && 13 <= h <= 14
  {
    DayLists(d);
  }

  lemma GeReference(semester: Option<int>, i: nat)
    ensures i in FixedSlotIndices("GE", semester) <==>
      i < SlotCount && ReservedAt("GE", semester, DayOf(i), HourOf(i))
  {
    OneKeyReference("GE", semester, "GE", i);
    if i < SlotCount {
      GeEntries(DayOf(i), HourOf(i));
    }
  }

  lemma AecReference(semester: Option<int>, i: nat)
    ensures i in FixedSlotIndices("AEC", semester) <==>
      i < SlotCount && ReservedAt("AEC", semester, DayOf(i), HourOf(i))
  {
    TwoKeyReference("AEC", semester, "AEC", "AEC_SAT", i);
    if i < SlotCount {
      VacAecEntries(DayOf(i), HourOf(i));
    }
  }

  lemma GeLabYear0(semester: int, i: nat)
    requires YearFromSemester(semester) == 0
    ensures i !in FixedSlotIndices("GE_LAB", Some(semester))
  {
    assert NatToString(0) == "0";
    assert "GE_LAB_YEAR" + "0" == "GE_LAB_YEAR0";
    assert FixedSlotKeys("GE_LAB", Some(semester)) == ["GE_LAB_YEAR0"];
    assert "GE_LAB_YEAR0" !in FixedSlots;
    OneKey(FixedSlots, "GE_LAB_YEAR0", i);
  }

  lemma GeLabYear1(semester: int, i: nat)
    requires YearFromSemester(semester) == 1
    ensures i in FixedSlotIndices("GE_LAB", Some(semester)) <==>
      i < SlotCount && ReservedAt("GE_LAB", Some(semester), DayOf(i), HourOf(i))
  {
    assert NatToString(1) == "1";
    assert "GE_LAB_YEAR" + "1" == "GE_LAB_YEAR1";
    assert FixedSlotKeys("GE_LAB", Some(semester)) == ["GE_LAB_YEAR1"];
    OneKeyReference("GE_LAB", Some(semester), "GE_LAB_YEAR1", i);
    if i < SlotCount {
      GeEntries(DayOf(i), HourOf(i));
    }
  }

  lemma GeLabYear2(semester: int, i: nat)
    requires YearFromSemester(semester) == 2
    ensures i in FixedSlotIndices("GE_LAB", Some(semester)) <==>
      i < SlotCount && ReservedAt("GE_LAB", Some(semester), DayOf(i), HourOf(i))
  {
    assert NatToString(2) == "2";
    assert "GE_LAB_YEAR" + "2" == "GE_LAB_YEAR2";
    assert FixedSlotKeys("GE_LAB", Some(semester)) == ["GE_LAB_YEAR2"];
    OneKeyReference("GE_LAB", Some(semester), "GE_LAB_YEAR2", i);
    if i < SlotCount {
      GeEntries(DayOf(i), HourOf(i));
    }
  }

  lemma GeLabYear3(semester: int, i: nat)
    requires YearFromSemester(semester) == 3
    ensures i in FixedSlotIndices("GE_LAB", Some(semester)) <==>
      i < SlotCount && ReservedAt("GE_LAB", Some(semester), DayOf(i), HourOf(i))
  {
    assert NatToString(3) == "3";
    assert "GE_LAB_YEAR" + "3" == "GE_LAB_YEAR3";
    assert FixedSlotKeys("GE_LAB", Some(semester)) == ["GE_LAB_YEAR3"];
    OneKeyReference("GE_LAB", Some(semester), "GE_LAB_YEAR3", i);
    if i < SlotCount {
      GeEntries(DayOf(i), HourOf(i));
    }
  }

  lemma GeLabYear4(semester: int, i: nat)
    requires YearFromSemester(semester) == 4
    ensures i in FixedSlotIndices("GE_LAB", Some(semester)) <==>
      i < SlotCount && ReservedAt("GE_LAB", Some(semester), DayOf(i), HourOf(i))
  {
    assert NatToString(4) == "4";
    assert "GE_LAB_YEAR" + "4" == "GE_LAB_YEAR4";
    assert FixedSlotKeys("GE_LAB", Some(semester)) == ["GE_LAB_YEAR4"];
    OneKeyReference("GE_LAB", Some(semester), "GE_LAB_YEAR4", i);
    if i < SlotCount {
      var d, h := DayOf(i), HourOf(i);
      GeEntries(d, h);
      assert ReservedAt("GE_LAB", Some(semester), d, h) <==> d == 1 && 10 <= h <= 11;
    }
  }

  lemma GeLabReference(semester: int, i: nat)
    ensures i in FixedSlotIndices("GE_LAB", Some(semester)) <==>
      i < SlotCount && ReservedAt("GE_LAB", Some(semester), DayOf(i), HourOf(i))
  {
    match YearFromSemester(semester)
    case 0 => GeLabYear0(semester, i);
    case 1 => GeLabYear1(semester, i);
    case 2 => GeLabYear2(semester, i);
    case 3 => GeLabYear3(semester, i);
    case 4 => GeLabYear4(semester, i);
  }

  lemma SecYear1(semester: int, i: nat)
    requires YearFromSemester(semester) == 1
    ensures i in FixedSlotIndices("SEC", Some(semester)) <==>
      i < SlotCount && ReservedAt("SEC", Some(semester), DayOf(i), HourOf(i))
  {
    assert NatToString(1) == "1";
    assert "SEC_YEAR" + "1" == "SEC_YEAR1";
    assert "SEC_YEAR" + "1" + "_SAT" == "SEC_YEAR1_SAT";
    TwoKeyReference("SEC", Some(semester), "SEC_YEAR1", "SEC_YEAR1_SAT", i);
    if i < SlotCount {
      SecEntries(DayOf(i), HourOf(i));
    }
  }

  lemma SecYear2(semester: int, i: nat)
    requires YearFromSemester(semester) == 2
    ensures i in FixedSlotIndices("SEC", Some(semester)) <==>
      i < SlotCount && ReservedAt("SEC", Some(semester), DayOf(i), HourOf(i))
  {
    assert NatToString(2) == "2";
    assert "SEC_YEAR" + "2" == "SEC_YEAR2";
    assert "SEC_YEAR" + "2" + "_SAT" == "SEC_YEAR2_SAT";
    TwoKeyReference("SEC", Some(semester), "SEC_YEAR2", "SEC_YEAR2_SAT", i);
    if i < SlotCount {
      SecEntries(DayOf(i), HourOf(i));
    }
  }

  lemma VacYear1(semester: int, i: nat)
    requires YearFromSemester(semester) == 1
    ensures i in FixedSlotIndices("VAC", Some(semester)) <==>
      i < SlotCount && ReservedAt("VAC", Some(semester), DayOf(i), HourOf(i))
  {
    assert NatToString(1) == "1";
    assert "VAC_YEAR" + "1" == "VAC_YEAR1";
    assert "VAC_YEAR" + "1" + "_SAT" == "VAC_YEAR1_SAT";
    TwoKeyReference("VAC", Some(semester), "VAC_YEAR1", "VAC_YEAR1_SAT", i);
    if i < SlotCount {
      VacAecEntries(DayOf(i), HourOf(i));
    }
  }

  lemma VacYear2(semester: int, i: nat)
    requires YearFromSemester(semester) == 2
    ensures i in FixedSlotIndices("VAC", Some(semester)) <==>
      i < SlotCount && ReservedAt("VAC", Some(semester), DayOf(i), HourOf(i))
  {
    assert NatToString(2) == "2";
    assert "VAC_YEAR" + "2" == "VAC_YEAR2";
    assert "VAC_YEAR" + "2" + "_SAT" == "VAC_YEAR2_SAT";
    TwoKeyReference("VAC", Some(semester), "VAC_YEAR2", "VAC_YEAR2_SAT", i);
    if i < SlotCount {
      VacAecEntries(DayOf(i), HourOf(i));
    }
  }

  /** A family stored under one key reserves that entry. */
  lemma OneKeyReference(courseType: string, semester: Option<int>, k: string, i: nat)
    requires FixedSlotKeys(courseType, semester) == [k]
    requires k in FixedSlots
    ensures i in FixedSlotIndices(courseType, semester) <==>
      i < SlotCount && Covers(FixedSlots[k], DayOf(i), HourOf(i))
  {
    OneKey(FixedSlots, k, i);
    EntryMember(FixedSlots[k], i);
  }

  /** A family stored under two keys reserves the union of the two entries. */
  lemma TwoKeyReference(courseType: string, semester: Option<int>, k1: string, k2: string, i: nat)
    requires FixedSlotKeys(courseType, semester) == [k1, k2]
    requires k1 in FixedSlots && k2 in FixedSlots
    ensures i in FixedSlotIndices(courseType, semester) <==>
      i < SlotCount && (Covers(FixedSlots[k1], DayOf(i), HourOf(i)) || Covers(FixedSlots[k2], DayOf(i), HourOf(i)))
  {
    TwoKeyCover(FixedSlots, k1, k2, i);
  }

  lemma SecYear3(semester: int, i: nat)
    requires YearFromSemester(semester) == 3
    ensures i in FixedSlotIndices("SEC", Some(semester)) <==>
      i < SlotCount && ReservedAt("SEC", Some(semester), DayOf(i), HourOf(i))
  {
    OneKeyReference("SEC", Some(semester), "SEC_YEAR3", i);
    if i < SlotCount {
      SecEntries(DayOf(i), HourOf(i));
    }
  }

  lemma SecReference(semester: int, i: nat)
    ensures i in FixedSlotIndices("SEC", Some(semester)) <==>
      i < SlotCount && ReservedAt("SEC", Some(semester), DayOf(i), HourOf(i))
  {
    match YearFromSemester(semester)
    case 1 => SecYear1(semester, i);
    case 2 => SecYear2(semester, i);
    case 3 => SecYear3(semester, i);
    case _ => assert FixedSlotKeys("SEC", Some(semester)) == [];
  }

  lemma VacReference(semester: int, i: nat)
    ensures i in FixedSlotIndices("VAC", Some(semester)) <==>
      i < SlotCount && ReservedAt("VAC", Some(semester), DayOf(i), HourOf(i))
  {
    match YearFromSemester(semester)
    case 1 => VacYear1(semester, i);
    case 2 => VacYear2(semester, i);
    case _ => assert FixedSlotKeys("VAC", Some(semester)) == [];
  }

  /**
   * The table-driven `get_fixed_slot_indices` reserves exactly the slots the
   * position-based description names, for every type and semester.
   */
  lemma FixedSlotIndicesReference(courseType: string, semester: Option<int>, i: nat)
    ensures i in FixedSlotIndices(courseType, semester) <==>
      i < SlotCount && ReservedAt(courseType, semester, DayOf(i), HourOf(i))
  {
    if courseType == "GE" {
      GeReference(semester, i);
    } else if courseType == "GE_LAB" && semester.Some? {
      GeLabReference(semester.value, i);
    } else if courseType == "SEC" && semester.Some? {
      SecReference(semester.value, i);
    } else if courseType == "VAC" && semester.Some? {
      VacReference(semester.value, i);
    } else if courseType == "AEC" {
      AecReference(semester, i);
    } else {
      assert FixedSlotKeys(courseType, semester) == [];
    }
  }

  /**
   * Within one semester the SEC, VAC and GE-practical reservations never
   * overlap each other, the GE lecture hour, or the AEC slots; only the GE
   * lecture hour and AEC share the weekday 12:30 slots.
   */
  lemma ReservedFamiliesDisjoint(semester: int, d: nat, h: Hour)
    requires d < 6
    ensures !(ReservedAt("SEC", Some(semester), d, h) && ReservedAt("VAC", Some(semester), d, h))
    ensures !(ReservedAt("GE", None, d, h) && ReservedAt("SEC", Some(semester), d, h))
    ensures !(ReservedAt("GE", None, d, h) && ReservedAt("VAC", Some(semester), d, h))
    ensures !(ReservedAt("GE", None, d, h) && ReservedAt("GE_LAB", Some(semester), d, h))
    ensures !(ReservedAt("GE_LAB", Some(semester), d, h) && ReservedAt("SEC", Some(semester), d, h))
    ensures !(ReservedAt("GE_LAB", Some(semester), d, h) && ReservedAt("VAC", Some(semester), d, h))
    ensures !(ReservedAt("GE_LAB", Some(semester), d, h) && ReservedAt("AEC", None, d, h))
    ensures !(ReservedAt("AEC", None, d, h) && ReservedAt("SEC", Some(semester), d, h))
    ensures !(ReservedAt("AEC", None, d, h) && ReservedAt("VAC", Some(semester), d, h))
    ensures (ReservedAt("GE", None, d, h) && ReservedAt("AEC", None, d, h)) == (d <= 4 && h == 12)
  {
  }

  /** The same, on grid indices as `get_fixed_slot_indices` returns them. */
  lemma FixedSlotFamiliesDisjoint(semester: int, i: nat)
    ensures !(i in FixedSlotIndices("SEC", Some(semester)) && i in FixedSlotIndices("VAC", Some(semester)))
    ensures !(i in FixedSlotIndices("GE_LAB", Some(semester)) && i in FixedSlotIndices("GE", None))
    ensures !(i in FixedSlotIndices("GE_LAB", Some(semester)) && i in FixedSlotIndices("SEC", Some(semester)))
    ensures !(i in FixedSlotIndices("GE_LAB", Some(semester)) && i in FixedSlotIndices("VAC", Some(semester)))
    ensures !(i in FixedSlotIndices("GE", None) && i in FixedSlotIndices("SEC", Some(semester)))
    ensures !(i in FixedSlotIndices("GE", None) && i in FixedSlotIndices("VAC", Some(semester)))
  {
    FixedSlotIndicesReference("SEC", Some(semester), i);
    FixedSlotIndicesReference("VAC", Some(semester), i);
    FixedSlotIndicesReference("GE_LAB", Some(semester), i);
    FixedSlotIndicesReference("GE", None, i);
    if i < SlotCount {
      GridIndex(i);
      ReservedFamiliesDisjoint(semester, DayOf(i), HourOf(i));
    }
  }

  /** Every reserved slot of the week, by position: the 12:30 hour on every day
      (GE, and AEC on weekdays), AEC on Saturday afternoon, the GE practicals of
      the four years, SEC (years 1-3) and VAC (years 1-2). */
  predicate AnyReservedAt(d: nat, h: Hour) {
    h == 12
    || (d == 5 && 13 <= h <= 14)
    || ((d == 5 || d == 2 || d == 3) && 15 <= h <= 16) || (d == 1 && 10 <= h <= 11)
    || (d == 4 && 13 <= h <= 16) || (d == 5 && 8 <= h <= 11) || (d <= 1 && 15 <= h <= 16)
  }

  /** Index `i` is reserved for the type in one of years 1 .. `years`, each year
      represented by its odd semester, as the loops of `get_all_fixed_slot_indices` visit them. */
  predicate FamilyHas(courseType: string, years: nat, i: nat) {
    years > 0 && (FamilyHas(courseType, years - 1, i) || i in FixedSlotIndices(courseType, Some(years * 2 - 1)))
  }

  /** The indices a type reserves in years 1 .. `years`. */
  function FamilySet(courseType: string, years: nat): set<nat> {
    set i: nat | i < SlotCount && FamilyHas(courseType, years, i)
  }

  function SetOf(xs: seq<nat>): set<nat> {
    set x | x in xs
  }

  /** The slots `get_all_fixed_slot_indices` should return, by position. */
  function AllFixedSlotIndices(): set<nat> {
    set i: nat | i < SlotCount && AnyReservedAt(DayOf(i), HourOf(i))
  }

  /** One loop of `get_all_fixed_slot_indices`: add the type's indices for the first
      semester of each of years 1 .. `years`. */
  method AddFamily(all: set<nat>, courseType: string, years: nat) returns (result: set<nat>)
    ensures result == all + FamilySet(courseType, years)
  {
    result := all;
    for year := 1 to years + 1
      invariant result == all + FamilySet(courseType, year - 1)
    {
      var indices := GetFixedSlotIndices(courseType, Some(year * 2 - 1));
      result := result + SetOf(indices);
    }
  }

  /** `get_all_fixed_slot_indices`. */
  method GetAllFixedSlotIndices() returns (all: set<nat>)
    ensures all == AllFixedSlotIndices()
  {
    var indices := GetFixedSlotIndices("GE", None);
    all := SetOf(indices);
    ghost var ge := all;
    all := AddFamily(all, "GE_LAB", 4);
    all := AddFamily(all, "SEC", 3);
    all := AddFamily(all, "VAC", 2);
    indices := GetFixedSlotIndices("AEC", None);
    var aec := SetOf(indices);
    all := all + aec;
    forall i: nat
      ensures i in all <==> i < SlotCount && AnyReservedAt(DayOf(i), HourOf(i))
    {
      GeUnionAt(i);
      GeLabUnionAt(i);
      SecUnionAt(i);
      VacUnionAt(i);
      AecUnionAt(i);
      UnionAt(i, ge, FamilySet("GE_LAB", 4), FamilySet("SEC", 3), FamilySet("VAC", 2), aec);
    }
  }

  /** Membership in the union of the five families, read by position. */
  lemma UnionAt(i: nat, ge: set<nat>, geLab: set<nat>, sec: set<nat>, vac: set<nat>, aec: set<nat>)
    requires i in ge <==> i < SlotCount && HourOf(i) == 12
    requires i in geLab <==>
      i < SlotCount && (((DayOf(i) == 5 || DayOf(i) == 2 || DayOf(i) == 3) && 15 <= HourOf(i) <= 16)
                        || (DayOf(i) == 1 && 10 <= HourOf(i) <= 11))
    requires i in sec <==>
      i < SlotCount && ((DayOf(i) == 4 && 13 <= HourOf(i) <= 14) || (DayOf(i) == 5 && 8 <= HourOf(i) <= 9)
                        || (DayOf(i) <= 1 && 15 <= HourOf(i) <= 16))
    requires i in vac <==>
      i < SlotCount && ((DayOf(i) == 4 && 15 <= HourOf(i) <= 16) || (DayOf(i) == 5 && 10 <= HourOf(i) <= 11))
    requires i in aec <==>
      i < SlotCount && ((DayOf(i) <= 4 && HourOf(i) == 12) || (DayOf(i) == 5 && 13 <= HourOf(i) <= 14))
    ensures i in ge + geLab + sec + vac + aec <==> i < SlotCount && AnyReservedAt(DayOf(i), HourOf(i))
  {
  }

  lemma GeLabUnionAt(i: nat)
    ensures FamilyHas("GE_LAB", 4, i) <==>
      i < SlotCount && (((DayOf(i) == 5 || DayOf(i) == 2 || DayOf(i) == 3) && 15 <= HourOf(i) <= 16)
                        || (DayOf(i) == 1 && 10 <= HourOf(i) <= 11))
  {
    assert FamilyHas("GE_LAB", 1, i) == (false || i in FixedSlotIndices("GE_LAB", Some(1)));
    assert FamilyHas("GE_LAB", 2, i) == (FamilyHas("GE_LAB", 1, i) || i in FixedSlotIndices("GE_LAB", Some(3)));
    assert FamilyHas("GE_LAB", 3, i) == (FamilyHas("GE_LAB", 2, i) || i in FixedSlotIndices("GE_LAB", Some(5)));
    assert FamilyHas("GE_LAB", 4, i) == (FamilyHas("GE_LAB", 3, i) || i in FixedSlotIndices("GE_LAB", Some(7)));
    assert YearFromSemester(1) == 1 && YearFromSemester(3) == 2;
    assert YearFromSemester(5) == 3 && YearFromSemester(7) == 4;
    GeLabYear1(1, i);
    GeLabYear2(3, i);
    GeLabYear3(5, i);
    GeLabYear4(7, i);
  }

  lemma SecUnionAt(i: nat)
    ensures FamilyHas("SEC", 3, i) <==>
      i < SlotCount && ((DayOf(i) == 4 && 13 <= HourOf(i) <= 14) || (DayOf(i) == 5 && 8 <= HourOf(i) <= 9)
                        || (DayOf(i) <= 1 && 15 <= HourOf(i) <= 16))
  {
    assert FamilyHas("SEC", 1, i) == (false || i in FixedSlotIndices("SEC", Some(1)));
    assert FamilyHas("SEC", 2, i) == (FamilyHas("SEC", 1, i) || i in FixedSlotIndices("SEC", Some(3)));
    assert FamilyHas("SEC", 3, i) == (FamilyHas("SEC", 2, i) || i in FixedSlotIndices("SEC", Some(5)));
    FixedSlotIndicesReference("SEC", Some(1), i);
    FixedSlotIndicesReference("SEC", Some(3), i);
    FixedSlotIndicesReference("SEC", Some(5), i);
  }

  lemma VacUnionAt(i: nat)
    ensures FamilyHas("VAC", 2, i) <==>
      i < SlotCount && ((DayOf(i) == 4 && 15 <= HourOf(i) <= 16) || (DayOf(i) == 5 && 10 <= HourOf(i) <= 11))
  {
    assert FamilyHas("VAC", 1, i) == (false || i in FixedSlotIndices("VAC", Some(1)));
    assert FamilyHas("VAC", 2, i) == (FamilyHas("VAC", 1, i) || i in FixedSlotIndices("VAC", Some(3)));
    FixedSlotIndicesReference("VAC", Some(1), i);
    FixedSlotIndicesReference("VAC", Some(3), i);
  }

  lemma GeUnionAt(i: nat)
    ensures i in FixedSlotIndices("GE", None) <==> i < SlotCount && HourOf(i) == 12
  {
    GeReference(None, i);
  }

  lemma AecUnionAt(i: nat)
    ensures i in FixedSlotIndices("AEC", None) <==>
      i < SlotCount && ((DayOf(i) <= 4 && HourOf(i) == 12) || (DayOf(i) == 5 && 13 <= HourOf(i) <= 14))
  {
    AecReference(None, i);
  }

  /** `AnyReservedAt` is the union of the five families' positions. */
  lemma AnyReservedAtSplit(d: nat, h: Hour)
    ensures AnyReservedAt(d, h) ==
      (h == 12
       || ((d <= 4 && h == 12) || (d == 5 && 13 <= h <= 14))
       || (((d == 5 || d == 2 || d == 3) && 15 <= h <= 16) || (d == 1 && 10 <= h <= 11))
       || ((d == 4 && 13 <= h <= 14) || (d == 5 && 8 <= h <= 9) || (d <= 1 && 15 <= h <= 16))
       || ((d == 4 && 15 <= h <= 16) || (d == 5 && 10 <= h <= 11)))
  {
  }

  /** Predefined hours of a subject: lectures, tutorials and practical hours. */
  datatype Hours = Hours(le: int, tu: int, pr: int)

  datatype Requirement = Requirement(theoryOnly: Hours, withLab: Hours)

  const SubjectRequirements: map<string, Requirement> := map[
    "DSC" := Requirement(Hours(3, 1, 0), Hours(3, 0, 2)),
    "DSE" := Requirement(Hours(3, 1, 0), Hours(3, 0, 2)),
    "GE" := Requirement(Hours(3, 1, 0), Hours(3, 0, 2)),
    "SEC" := Requirement(Hours(2, 0, 0), Hours(0, 0, 4)),
    "VAC" := Requirement(Hours(2, 0, 0), Hours(0, 0, 4)),
    "AEC" := Requirement(Hours(2, 0, 0), Hours(0, 0, 4))
  ]

  /** Credits of a requirement: one per lecture or tutorial hour, one per two practical hours. */
  function Credits(h: Hours): int {
    h.le + h.tu + h.pr / 2
  }

  /** `get_subject_requirement`: an unknown type raises ValueError; a known type
      requires practical hours exactly when it has a lab, and is worth four
      credits (DSC, DSE, GE) or two (SEC, VAC, AEC) either way. */
  function SubjectRequirement(subjectType: string, hasLab: bool): (r: Result<Hours, PyError>)
    ensures r.Err? <==> subjectType !in SubjectTypes
    ensures r.Ok? ==> (r.value.pr > 0 <==> hasLab)
    ensures r.Ok? ==> r.value.le >= 0 && r.value.tu >= 0 && r.value.pr >= 0
    ensures r.Ok? ==> Credits(r.value) == if subjectType in ["DSC", "DSE", "GE"] then 4 else 2
  {
    if subjectType !in SubjectRequirements then
      Err(ValueError("Unknown subject type '" + subjectType + "' found in data"))
    else
      var req := SubjectRequirements[subjectType];
      Ok(if hasLab then req.withLab else req.theoryOnly)
  }

  function Max0(x: int): nat { if x < 0 then 0 else x }

  /** `calculate_remaining_hours`: what is still to be taught of the requirement,
      never negative. */
  function RemainingHours(subjectType: string, hasLab: bool, taughtLe: int, taughtTu: int, taughtPr: int)
    : (r: Result<Hours, PyError>)
    ensures r.Err? <==> subjectType !in SubjectTypes
    ensures r.Ok? ==>
      var req := SubjectRequirement(subjectType, hasLab).value;
      && r.value.le >= 0 && r.value.tu >= 0 && r.value.pr >= 0
      && taughtLe + r.value.le >= req.le && taughtTu + r.value.tu >= req.tu && taughtPr + r.value.pr >= req.pr
      && (r.value.le == 0 || taughtLe + r.value.le == req.le)
      && (r.value.tu == 0 || taughtTu + r.value.tu == req.tu)
      && (r.value.pr == 0 || taughtPr + r.value.pr == req.pr)
  {
    match SubjectRequirement(subjectType, hasLab)
    case Err(e) => Err(e)
    case Ok(req) => Ok(Hours(Max0(req.le - taughtLe), Max0(req.tu - taughtTu), Max0(req.pr - taughtPr)))
  }

  /** Nothing remains exactly when every component has been taught in full. */
  lemma RemainingHoursZero(subjectType: string, hasLab: bool, le: int, tu: int, pr: int)
    requires subjectType in SubjectTypes
    ensures var req := SubjectRequirement(subjectType, hasLab).value;
      (RemainingHours(subjectType, hasLab, le, tu, pr).value == Hours(0, 0, 0))
      == (le >= req.le && tu >= req.tu && pr >= req.pr)
  {
  }

  /** Short forms of the course names, in the order the configuration lists them. */
  const ShortForms: seq<(string, string)> := [
    ("CS(H)", "B.Sc. (Hons) Computer Science"),
    ("CS(P)", "B.Sc. Physical Science Computer Science"),
    ("Chem(H)", "B.Sc. (Hons.) Chemistry"),
    ("Chem(P)", "B.Sc. Physical Science Chemistry"),
    ("IC(P)", "B.Sc. Physical science Industrial Chemistry"),
    ("Elec(H)", "B.Sc. (Hons) Electronics"),
    ("Elec(P)", "B.Sc. Physical Science Electronics"),
    ("Math(H)", "B.Sc. (Hons.) Mathematics"),
    ("Phy(H)", "B.Sc. (Hons.) Physics"),
    ("Eco(H)", "B.A. (Hons.) Economics"),
    ("Eng(H)", "B.A. (Hons.) English"),
    ("Hin(H)", "B.A. (Hons.) Hindi"),
    ("His(H)", "B.A. (Hons.) History"),
    ("PolSci(H)", "B.A. (Hons.) Political Science"),
    ("CA(P)", "B.A. Program"),
    ("BCom(H)", "B.Com (Hons)"),
    ("BCom", "B.Com")
  ]

  /** A dict built from key/value pairs in order: a later pair for the same key wins. */
  function MapOf(pairs: seq<(string, string)>): (m: map<string, string>)
    decreases |pairs|
  {
    if pairs == [] then map[]
    else
      var last := pairs[|pairs| - 1];
      MapOf(pairs[..|pairs| - 1])[last.0 := last.1]
  }

  /** The dict's keys are the first components of the pairs. */
  lemma {:induction false} MapOfKeys(pairs: seq<(string, string)>)
    ensures MapOf(pairs).Keys == set p | p in pairs :: p.0
    decreases |pairs|
  {
    if pairs != [] {
      MapOfKeys(pairs[..|pairs| - 1]);
      assert pairs == pairs[..|pairs| - 1] + [pairs[|pairs| - 1]];
    }
  }

  function Swap(pairs: seq<(string, string)>): (r: seq<(string, string)>)
    ensures |r| == |pairs| && forall k :: 0 <= k < |r| ==> r[k] == (pairs[k].1, pairs[k].0)
  {
    seq(|pairs|, k requires 0 <= k < |pairs| => (pairs[k].1, pairs[k].0))
  }

  predicate DistinctFirsts(pairs: seq<(string, string)>) {
    forall a, b :: 0 <= a < b < |pairs| ==> pairs[a].0 != pairs[b].0
  }

  lemma {:induction false} MapOfAt(pairs: seq<(string, string)>, k: nat)
    requires DistinctFirsts(pairs) && k < |pairs|
    ensures pairs[k].0 in MapOf(pairs) && MapOf(pairs)[pairs[k].0] == pairs[k].1
    decreases |pairs|
  {
    if k < |pairs| - 1 {
      MapOfAt(pairs[..|pairs| - 1], k);
    }
  }

  /** `COURSE_SHORT_FORMS` and its reversal `COURSE_FULL_TO_SHORT`. */
  function ShortToFull(): map<string, string> { MapOf(ShortForms) }
  function FullToShort(): map<string, string> { MapOf(Swap(ShortForms)) }

  /** `get_full_course_name`: unknown names pass through unchanged. */
  function GetFullCourseName(shortForm: string): (r: string)
    ensures shortForm !in ShortToFull() ==> r == shortForm
  {
    if shortForm in ShortToFull() then ShortToFull()[shortForm] else shortForm
  }

  /** `get_short_course_name`: unknown names pass through unchanged. */
  function GetShortCourseName(fullName: string): (r: string)
    ensures fullName !in FullToShort() ==> r == fullName
  {
    if fullName in FullToShort() then FullToShort()[fullName] else fullName
  }

  /** No element reappears after its own position, hence all are distinct. */
  lemma DistinctByTails(xs: seq<string>)
    requires forall k :: 0 <= k < |xs| ==> xs[k] !in xs[k + 1..]
    ensures forall a, b :: 0 <= a < b < |xs| ==> xs[a] != xs[b]
  {
    forall a, b | 0 <= a < b < |xs|
      ensures xs[a] != xs[b]
    {
      assert xs[b] == xs[a + 1..][b - a - 1];
    }
  }

  function Firsts(pairs: seq<(string, string)>): (r: seq<string>)
    ensures |r| == |pairs| && forall k :: 0 <= k < |r| ==> r[k] == pairs[k].0
  {
    seq(|pairs|, k requires 0 <= k < |pairs| => pairs[k].0)
  }

  const ShortNames: seq<string> := [
    "CS(H)", "CS(P)", "Chem(H)", "Chem(P)", "IC(P)", "Elec(H)", "Elec(P)", "Math(H)", "Phy(H)",
    "Eco(H)", "Eng(H)", "Hin(H)", "His(H)", "PolSci(H)", "CA(P)", "BCom(H)", "BCom"
  ]

  const FullNames: seq<string> := [
    "B.Sc. (Hons) Computer Science", "B.Sc. Physical Science Computer Science",
    "B.Sc. (Hons.) Chemistry", "B.Sc. Physical Science Chemistry",
    "B.Sc. Physical science Industrial Chemistry", "B.Sc. (Hons) Electronics",
    "B.Sc. Physical Science Electronics", "B.Sc. (Hons.) Mathematics", "B.Sc. (Hons.) Physics",
    "B.A. (Hons.) Economics", "B.A. (Hons.) English", "B.A. (Hons.) Hindi", "B.A. (Hons.) History",
    "B.A. (Hons.) Political Science", "B.A. Program", "B.Com (Hons)", "B.Com"
  ]

  lemma ShortFormsColumns()
    ensures Firsts(ShortForms) == ShortNames && Firsts(Swap(ShortForms)) == FullNames
  {
  }

  lemma ShortNamesTail0()
    ensures ShortNames[0] !in ShortNames[1..]
  {
    assert ShortNames[1..] == ["CS(P)", "Chem(H)", "Chem(P)", "IC(P)", "Elec(H)", "Elec(P)", "Math(H)", "Phy(H)", "Eco(H)", "Eng(H)", "Hin(H)", "His(H)", "PolSci(H)", "CA(P)", "BCom(H)", "BCom"];
  }

  lemma ShortNamesTail1()
    ensures ShortNames[1] !in ShortNames[2..]
  {
    assert ShortNames[2..] == ["Chem(H)", "Chem(P)", "IC(P)", "Elec(H)", "Elec(P)", "Math(H)", "Phy(H)", "Eco(H)", "Eng(H)", "Hin(H)", "His(H)", "PolSci(H)", "CA(P)", "BCom(H)", "BCom"];
  }

  lemma ShortNamesTail2()
    ensures ShortNames[2] !in ShortNames[3..]
  {
    assert ShortNames[3..] == ["Chem(P)", "IC(P)", "Elec(H)", "Elec(P)", "Math(H)", "Phy(H)", "Eco(H)", "Eng(H)", "Hin(H)", "His(H)", "PolSci(H)", "CA(P)", "BCom(H)", "BCom"];
  }

  lemma ShortNamesTail3()
    ensures ShortNames[3] !in ShortNames[4..]
  {
    assert ShortNames[4..] == ["IC(P)", "Elec(H)", "Elec(P)", "Math(H)", "Phy(H)", "Eco(H)", "Eng(H)", "Hin(H)", "His(H)", "PolSci(H)", "CA(P)", "BCom(H)", "BCom"];
  }

  lemma ShortNamesTail4()
    ensures ShortNames[4] !in ShortNames[5..]
  {
    assert ShortNames[5..] == ["Elec(H)", "Elec(P)", "Math(H)", "Phy(H)", "Eco(H)", "Eng(H)", "Hin(H)", "His(H)", "PolSci(H)", "CA(P)", "BCom(H)", "BCom"];
  }

  lemma ShortNamesTail5()
    ensures ShortNames[5] !in ShortNames[6..]
  {
    assert ShortNames[6..] == ["Elec(P)", "Math(H)", "Phy(H)", "Eco(H)", "Eng(H)", "Hin(H)", "His(H)", "PolSci(H)", "CA(P)", "BCom(H)", "BCom"];
  }

  lemma ShortNamesTail6()
    ensures ShortNames[6] !in ShortNames[7..]
  {
    assert ShortNames[7..] == ["Math(H)", "Phy(H)", "Eco(H)", "Eng(H)", "Hin(H)", "His(H)", "PolSci(H)", "CA(P)", "BCom(H)", "BCom"];
  }

  lemma ShortNamesTail7()
    ensures ShortNames[7] !in ShortNames[8..]
  {
    assert ShortNames[8..] == ["Phy(H)", "Eco(H)", "Eng(H)", "Hin(H)", "His(H)", "PolSci(H)", "CA(P)", "BCom(H)", "BCom"];
  }

  lemma ShortNamesTail8()
    ensures ShortNames[8] !in ShortNames[9..]
  {
    assert ShortNames[9..] == ["Eco(H)", "Eng(H)", "Hin(H)", "His(H)", "PolSci(H)", "CA(P)", "BCom(H)", "BCom"];
  }

  lemma ShortNamesTail9()
    ensures ShortNames[9] !in ShortNames[10..]
  {
    assert ShortNames[10..] == ["Eng(H)", "Hin(H)", "His(H)", "PolSci(H)", "CA(P)", "BCom(H)", "BCom"];
  }

  lemma ShortNamesTail10()
    ensures ShortNames[10] !in ShortNames[11..]
  {
    assert ShortNames[11..] == ["Hin(H)", "His(H)", "PolSci(H)", "CA(P)", "BCom(H)", "BCom"];
  }

  lemma ShortNamesTail11()
    ensures ShortNames[11] !in ShortNames[12..]
  {
    assert ShortNames[12..] == ["His(H)", "PolSci(H)", "CA(P)", "BCom(H)", "BCom"];
  }

  lemma ShortNamesTail12()
    ensures ShortNames[12] !in ShortNames[13..]
  {
    assert ShortNames[13..] == ["PolSci(H)", "CA(P)", "BCom(H)", "BCom"];
  }

  lemma ShortNamesTail13()
    ensures ShortNames[13] !in ShortNames[14..]
  {
    assert ShortNames[14..] == ["CA(P)", "BCom(H)", "BCom"];
  }

  lemma ShortNamesTail14()
    ensures ShortNames[14] !in ShortNames[15..]
  {
    assert ShortNames[15..] == ["BCom(H)", "BCom"];
  }

  lemma ShortNamesTail15()
    ensures ShortNames[15] !in ShortNames[16..]
  {
    assert ShortNames[16..] == ["BCom"];
  }

  lemma FullNamesTail0()
    ensures FullNames[0] !in FullNames[1..]
  {
    forall k | 1 <= k < |FullNames|
      ensures FullNames[k] != FullNames[0]
    {
    }
  }

  lemma FullNamesTail1()
    ensures FullNames[1] !in FullNames[2..]
  {
    assert FullNames[2..] == ["B.Sc. (Hons.) Chemistry", "B.Sc. Physical Science Chemistry", "B.Sc. Physical science Industrial Chemistry", "B.Sc. (Hons) Electronics", "B.Sc. Physical Science Electronics", "B.Sc. (Hons.) Mathematics", "B.Sc. (Hons.) Physics", "B.A. (Hons.) Economics", "B.A. (Hons.) English", "B.A. (Hons.) Hindi", "B.A. (Hons.) History", "B.A. (Hons.) Political Science", "B.A. Program", "B.Com (Hons)", "B.Com"];
  }

  lemma FullNamesTail2()
    ensures FullNames[2] !in FullNames[3..]
  {
    assert FullNames[3..] == ["B.Sc. Physical Science Chemistry", "B.Sc. Physical science Industrial Chemistry", "B.Sc. (Hons) Electronics", "B.Sc. Physical Science Electronics", "B.Sc. (Hons.) Mathematics", "B.Sc. (Hons.) Physics", "B.A. (Hons.) Economics", "B.A. (Hons.) English", "B.A. (Hons.) Hindi", "B.A. (Hons.) History", "B.A. (Hons.) Political Science", "B.A. Program", "B.Com (Hons)", "B.Com"];
  }

  lemma FullNamesTail3()
    ensures FullNames[3] !in FullNames[4..]
  {
    assert FullNames[4..] == ["B.Sc. Physical science Industrial Chemistry", "B.Sc. (Hons) Electronics", "B.Sc. Physical Science Electronics", "B.Sc. (Hons.) Mathematics", "B.Sc. (Hons.) Physics", "B.A. (Hons.) Economics", "B.A. (Hons.) English", "B.A. (Hons.) Hindi", "B.A. (Hons.) History", "B.A. (Hons.) Political Science", "B.A. Program", "B.Com (Hons)", "B.Com"];
  }

  lemma FullNamesTail4()
    ensures FullNames[4] !in FullNames[5..]
  {
    assert FullNames[5..] == ["B.Sc. (Hons) Electronics", "B.Sc. Physical Science Electronics", "B.Sc. (Hons.) Mathematics", "B.Sc. (Hons.) Physics", "B.A. (Hons.) Economics", "B.A. (Hons.) English", "B.A. (Hons.) Hindi", "B.A. (Hons.) History", "B.A. (Hons.) Political Science", "B.A. Program", "B.Com (Hons)", "B.Com"];
  }

  lemma FullNamesTail5()
    ensures FullNames[5] !in FullNames[6..]
  {
    assert FullNames[6..] == ["B.Sc. Physical Science Electronics", "B.Sc. (Hons.) Mathematics", "B.Sc. (Hons.) Physics", "B.A. (Hons.) Economics", "B.A. (Hons.) English", "B.A. (Hons.) Hindi", "B.A. (Hons.) History", "B.A. (Hons.) Political Science", "B.A. Program", "B.Com (Hons)", "B.Com"];
  }

  lemma FullNamesTail6()
    ensures FullNames[6] !in FullNames[7..]
  {
    assert FullNames[7..] == ["B.Sc. (Hons.) Mathematics", "B.Sc. (Hons.) Physics", "B.A. (Hons.) Economics", "B.A. (Hons.) English", "B.A. (Hons.) Hindi", "B.A. (Hons.) History", "B.A. (Hons.) Political Science", "B.A. Program", "B.Com (Hons)", "B.Com"];
  }

  lemma FullNamesTail7()
    ensures FullNames[7] !in FullNames[8..]
  {
    assert FullNames[8..] == ["B.Sc. (Hons.) Physics", "B.A. (Hons.) Economics", "B.A. (Hons.) English", "B.A. (Hons.) Hindi", "B.A. (Hons.) History", "B.A. (Hons.) Political Science", "B.A. Program", "B.Com (Hons)", "B.Com"];
  }

  lemma FullNamesTail8()
    ensures FullNames[8] !in FullNames[9..]
  {
    assert FullNames[9..] == ["B.A. (Hons.) Economics", "B.A. (Hons.) English", "B.A. (Hons.) Hindi", "B.A. (Hons.) History", "B.A. (Hons.) Political Science", "B.A. Program", "B.Com (Hons)", "B.Com"];
  }

  lemma FullNamesTail9()
    ensures FullNames[9] !in FullNames[10..]
  {
    assert FullNames[10..] == ["B.A. (Hons.) English", "B.A. (Hons.) Hindi", "B.A. (Hons.) History", "B.A. (Hons.) Political Science", "B.A. Program", "B.Com (Hons)", "B.Com"];
  }

  lemma FullNamesTail10()
    ensures FullNames[10] !in FullNames[11..]
  {
    assert FullNames[11..] == ["B.A. (Hons.) Hindi", "B.A. (Hons.) History", "B.A. (Hons.) Political Science", "B.A. Program", "B.Com (Hons)", "B.Com"];
  }

  lemma FullNamesTail11()
    ensures FullNames[11] !in FullNames[12..]
  {
    assert FullNames[12..] == ["B.A. (Hons.) History", "B.A. (Hons.) Political Science", "B.A. Program", "B.Com (Hons)", "B.Com"];
  }

  lemma FullNamesTail12()
    ensures FullNames[12] !in FullNames[13..]
  {
    assert FullNames[13..] == ["B.A. (Hons.) Political Science", "B.A. Program", "B.Com (Hons)", "B.Com"];
  }

  lemma FullNamesTail13()
    ensures FullNames[13] !in FullNames[14..]
  {
    assert FullNames[14..] == ["B.A. Program", "B.Com (Hons)", "B.Com"];
  }

  lemma FullNamesTail14()
    ensures FullNames[14] !in FullNames[15..]
  {
    assert FullNames[15..] == ["B.Com (Hons)", "B.Com"];
  }

  lemma FullNamesTail15()
    ensures FullNames[15] !in FullNames[16..]
  {
    assert FullNames[16..] == ["B.Com"];
  }

  lemma ShortNamesDistinct()
    ensures forall a, b :: 0 <= a < b < |ShortNames| ==> ShortNames[a] != ShortNames[b]
  {
    ShortNamesTail0();
    ShortNamesTail1();
    ShortNamesTail2();
    ShortNamesTail3();
    ShortNamesTail4();
    ShortNamesTail5();
    ShortNamesTail6();
    ShortNamesTail7();
    ShortNamesTail8();
    ShortNamesTail9();
    ShortNamesTail10();
    ShortNamesTail11();
    ShortNamesTail12();
    ShortNamesTail13();
    ShortNamesTail14();
    ShortNamesTail15();
    assert ShortNames[16..] == [ShortNames[16]];
    DistinctByTails(ShortNames);
    DistinctByTails(ShortNames);
  }

  lemma FullNamesDistinct()
    ensures forall a, b :: 0 <= a < b < |FullNames| ==> FullNames[a] != FullNames[b]
  {
    FullNamesTail0();
    FullNamesTail1();
    FullNamesTail2();
    FullNamesTail3();
    FullNamesTail4();
    FullNamesTail5();
    FullNamesTail6();
    FullNamesTail7();
    FullNamesTail8();
    FullNamesTail9();
    FullNamesTail10();
    FullNamesTail11();
    FullNamesTail12();
    FullNamesTail13();
    FullNamesTail14();
    FullNamesTail15();
    assert FullNames[16..] == [FullNames[16]];
    DistinctByTails(FullNames);
    DistinctByTails(FullNames);
  }

  lemma ShortFormsDistinct()
    ensures DistinctFirsts(ShortForms) && DistinctFirsts(Swap(ShortForms))
  {
    ShortNamesDistinct();
    FullNamesDistinct();
    ShortFormsColumns();
    var firsts, seconds := Firsts(ShortForms), Firsts(Swap(ShortForms));
    assert forall k :: 0 <= k < |ShortForms| ==> ShortForms[k].0 == firsts[k] && Swap(ShortForms)[k].0 == seconds[k];
  }

  /** The two course-name maps are inverse to each other: shortening a
      lengthened short form gives it back, and the other way round. */
  lemma CourseNameRoundTrip(k: nat)
    requires k < |ShortForms|
    ensures GetFullCourseName(ShortForms[k].0) == ShortForms[k].1
    ensures GetShortCourseName(ShortForms[k].1) == ShortForms[k].0
    ensures GetShortCourseName(GetFullCourseName(ShortForms[k].0)) == ShortForms[k].0
    ensures GetFullCourseName(GetShortCourseName(ShortForms[k].1)) == ShortForms[k].1
  {
    ShortFormsDistinct();
    MapOfAt(ShortForms, k);
    MapOfAt(Swap(ShortForms), k);
  }

  /** Every configured course has a short form and every short form names a configured course. */
  lemma ShortFormsCoverCourses()
    ensures forall k :: 0 <= k < |ShortForms| ==> ShortForms[k].1 in CourseSections
    ensures forall c :: c in CourseSections ==> c in FullNames
  {
    ShortFormsColumns();
  }

  const CourseStrengths: map<string, map<int, map<string, nat>>> := map[
    "B.Sc. (Hons.) Chemistry" := map[
      1 := map["A" := 60, "B" := 58],
      2 := map["A" := 58, "B" := 56],
      3 := map["A" := 56, "B" := 54],
      4 := map["A" := 54, "B" := 52],
      5 := map["A" := 52, "B" := 50],
      6 := map["A" := 50, "B" := 48],
      7 := map["A" := 45],
      8 := map["A" := 43]
    ],
    "B.Sc. (Hons) Computer Science" := map[
      1 := map["A" := 55],
      2 := map["A" := 53],
      3 := map["A" := 51],
      4 := map["A" := 49],
      5 := map["A" := 47],
      6 := map["A" := 45],
      7 := map["A" := 30],
      8 := map["A" := 30]
    ],
    "B.Sc. (Hons) Electronics" := map[
      1 := map["A" := 50],
      2 := map["A" := 48],
      3 := map["A" := 46],
      4 := map["A" := 44],
      5 := map["A" := 42],
      6 := map["A" := 40],
      7 := map["A" := 38],
      8 := map["A" := 36]
    ],
    "B.Sc. (Hons.) Mathematics" := map[
      1 := map["A" := 55, "B" := 53],
      2 := map["A" := 53, "B" := 51],
      3 := map["A" := 51, "B" := 49],
      4 := map["A" := 49, "B" := 47],
      5 := map["A" := 47, "B" := 45],
      6 := map["A" := 45, "B" := 43],
      7 := map["A" := 43, "B" := 41],
      8 := map["A" := 41, "B" := 39]
    ],
    "B.Sc. (Hons.) Physics" := map[
      1 := map["A" := 58, "B" := 56],
      2 := map["A" := 56, "B" := 54],
      3 := map["A" := 54, "B" := 52],
      4 := map["A" := 52, "B" := 50],
      5 := map["A" := 50, "B" := 48],
      6 := map["A" := 48, "B" := 46],
      7 := map["A" := 46, "B" := 44],
      8 := map["A" := 44, "B" := 42]
    ],
    "B.Sc. Physical science Industrial Chemistry" := map[
      1 := map["A" := 45],
      2 := map["A" := 43],
      3 := map["A" := 41],
      4 := map["A" := 39],
      5 := map["A" := 37],
      6 := map["A" := 35],
      7 := map["A" := 33],
      8 := map["A" := 31]
    ],
    "B.Sc. Physical Science Chemistry" := map[
      1 := map["A" := 48],
      2 := map["A" := 46],
      3 := map["A" := 44],
      4 := map["A" := 42],
      5 := map["A" := 40],
      6 := map["A" := 38],
      7 := map["A" := 36],
      8 := map["A" := 34]
    ],
    "B.Sc. Physical Science Electronics" := map[
      1 := map["A" := 42],
      2 := map["A" := 40],
      3 := map["A" := 38],
      4 := map["A" := 36],
      5 := map["A" := 34],
      6 := map["A" := 32],
      7 := map["A" := 30],
      8 := map["A" := 28]
    ],
    "B.Sc. Physical Science Computer Science" := map[
      1 := map["A" := 50],
      2 := map["A" := 48],
      3 := map["A" := 46],
      4 := map["A" := 44],
      5 := map["A" := 42],
      6 := map["A" := 40],
      7 := map["A" := 38],
      8 := map["A" := 36]
    ],
    "B.A. (Hons.) Economics" := map[
      1 := map["A" := 60, "B" := 58],
      2 := map["A" := 58, "B" := 56],
      3 := map["A" := 56, "B" := 54],
      4 := map["A" := 54, "B" := 52],
      5 := map["A" := 52, "B" := 50],
      6 := map["A" := 50, "B" := 48],
      7 := map["A" := 48, "B" := 46],
      8 := map["A" := 46, "B" := 44]
    ],
    "B.A. (Hons.) English" := map[
      1 := map["A" := 45],
      2 := map["A" := 43],
      3 := map["A" := 41],
      4 := map["A" := 39],
      5 := map["A" := 37],
      6 := map["A" := 35],
      7 := map["A" := 33],
      8 := map["A" := 31]
    ],
    "B.A. (Hons.) Hindi" := map[
      1 := map["A" := 40],
      2 := map["A" := 38],
      3 := map["A" := 36],
      4 := map["A" := 34],
      5 := map["A" := 32],
      6 := map["A" := 30],
      7 := map["A" := 28],
      8 := map["A" := 26]
    ],
    "B.A. (Hons.) History" := map[
      1 := map["A" := 42],
      2 := map["A" := 40],
      3 := map["A" := 38],
      4 := map["A" := 36],
      5 := map["A" := 34],
      6 := map["A" := 32],
      7 := map["A" := 30],
      8 := map["A" := 28]
    ],
    "B.A. (Hons.) Political Science" := map[
      1 := map["A" := 48],
      2 := map["A" := 46],
      3 := map["A" := 44],
      4 := map["A" := 42],
      5 := map["A" := 40],
      6 := map["A" := 38],
      7 := map["A" := 36],
      8 := map["A" := 34]
    ],
    "B.A. Program" := map[
      1 := map["A" := 50],
      2 := map["A" := 48],
      3 := map["A" := 46],
      4 := map["A" := 44],
      5 := map["A" := 42],
      6 := map["A" := 40],
      7 := map["A" := 38],
      8 := map["A" := 36]
    ],
    "B.Com (Hons)" := map[
      1 := map["A" := 65, "B" := 63, "C" := 61],
      2 := map["A" := 63, "B" := 61, "C" := 59],
      3 := map["A" := 61, "B" := 59, "C" := 57],
      4 := map["A" := 59, "B" := 57, "C" := 55],
      5 := map["A" := 57, "B" := 55, "C" := 53],
      6 := map["A" := 55, "B" := 53, "C" := 51],
      7 := map["A" := 53, "B" := 51, "C" := 49],
      8 := map["A" := 51, "B" := 49, "C" := 47]
    ],
    "B.Com" := map[
      1 := map["A" := 60, "B" := 58, "C" := 56],
      2 := map["A" := 58, "B" := 56, "C" := 54],
      3 := map["A" := 56, "B" := 54, "C" := 52],
      4 := map["A" := 54, "B" := 52, "C" := 50],
      5 := map["A" := 52, "B" := 50, "C" := 48],
      6 := map["A" := 50, "B" := 48, "C" := 46],
      7 := map["A" := 48, "B" := 46, "C" := 44],
      8 := map["A" := 46, "B" := 44, "C" := 42]
    ]
  ]

  /** Does the strength table list this course, semester and section? */
  predicate StrengthConfigured(course: string, semester: int, section: string) {
    course in CourseStrengths && semester in CourseStrengths[course] && section in CourseStrengths[course][semester]
  }

  /** `get_student_strength`: the configured strength of a section, 30 for common
      (GE/SEC/VAC) entries and for anything not configured. */
  function GetStudentStrength(course: string, semester: int, section: string): (r: nat)
    ensures course == "COMMON" ==> r == 30
    ensures r != 30 ==>
              && course in CourseStrengths && semester in CourseStrengths[course]
              && section in CourseStrengths[course][semester]
              && r == CourseStrengths[course][semester][section]
    ensures course != "COMMON" && StrengthConfigured(course, semester, section) ==>
              r == CourseStrengths[course][semester][section]
    ensures !StrengthConfigured(course, semester, section) ==> r == 30
  {
    if course == "COMMON" then 30
    else if course in CourseStrengths && semester in CourseStrengths[course]
      && section in CourseStrengths[course][semester]
    then CourseStrengths[course][semester][section]
    else 30
  }

  const GeSecVacStrengths: map<string, map<int, map<string, map<string, nat>>>> := map[
    "GE" := map[
      1 := map["Programming using C++" := map["A" := 30, "B" := 30]],
      3 := map["Database Management System" := map["A" := 30, "B" := 30]],
      5 := map["Operating System" := map["A" := 50]],
      7 := map["Design and Analysis of Algo" := map["A" := 48]]
    ],
    "SEC" := map[
      1 := map["IT Skills and Data Analysis 1" := map["A" := 70]],
      3 := map["IT Skills and Data Analysis 1" := map["A" := 70]],
      5 := map["Latex Type setting for Beginners" := map["A" := 60]]
    ],
    "VAC" := map[
      1 := map["Digital Empowerment" := map["A" := 50]],
      3 := map["Emotional Intelligence" := map["A" := 48]]
    ],
    "AEC" := map[]
  ]

  /** Does the GE/SEC/VAC strength table list this subject and section? */
  predicate GeSecVacConfigured(subjectType: string, semester: int, subjectName: string, section: string) {
    && subjectType in GeSecVacStrengths && semester in GeSecVacStrengths[subjectType]
    && subjectName in GeSecVacStrengths[subjectType][semester]
    && section in GeSecVacStrengths[subjectType][semester][subjectName]
  }

  /** `get_ge_sec_vac_strength`: configured strength, 50 when not configured. */
  function GetGeSecVacStrength(subjectType: string, semester: int, subjectName: string, section: string): (r: nat)
    ensures r != 50 ==>
              && subjectType in GeSecVacStrengths && semester in GeSecVacStrengths[subjectType]
              && subjectName in GeSecVacStrengths[subjectType][semester]
              && section in GeSecVacStrengths[subjectType][semester][subjectName]
              && r == GeSecVacStrengths[subjectType][semester][subjectName][section]
    ensures GeSecVacConfigured(subjectType, semester, subjectName, section) ==>
              r == GeSecVacStrengths[subjectType][semester][subjectName][section]
    ensures !GeSecVacConfigured(subjectType, semester, subjectName, section) ==> r == 50
  {
    if subjectType in GeSecVacStrengths && semester in GeSecVacStrengths[subjectType]
      && subjectName in GeSecVacStrengths[subjectType][semester]
      && section in GeSecVacStrengths[subjectType][semester][subjectName]
    then GeSecVacStrengths[subjectType][semester][subjectName][section]
    else 50
  }

  /** Department to lab-code prefix. */
  const DepartmentLabs: map<string, string> := map[
    "Computer Science" := "CL",
    "Physics" := "PL",
    "Chemistry" := "ChemL",
    "Biology" := "BioL",
    "Electronics" := "EL"
  ]

  /** One room of the `ROOMS` table. */
  datatype RoomInfo = RoomInfo(roomType: string, capacityMin: nat, capacityMax: nat, floor: nat, department: string)

  /** Classrooms "R-lo" .. "R-(hi-1)" sharing one capacity band and floor. */
  function ClassroomBlock(lo: nat, hi: nat, capacityMin: nat, capacityMax: nat, floor: nat)
    : (rooms: seq<(string, RoomInfo)>)
    ensures |rooms| == if lo <= hi then hi - lo else 0
    ensures forall k :: 0 <= k < |rooms| ==>
              rooms[k] == ("R-" + NatToString(lo + k), RoomInfo("classroom", capacityMin, capacityMax, floor, "COMMON"))
  {
    if hi <= lo then []
    else seq(hi - lo, k requires 0 <= k < hi - lo =>
               ("R-" + NatToString(lo + k), RoomInfo("classroom", capacityMin, capacityMax, floor, "COMMON")))
  }

  const CsLabs: seq<(string, RoomInfo)> := [
    ("CL-1", RoomInfo("lab", 37, 43, 1, "Computer Science")),
    ("CL-2", RoomInfo("lab", 37, 43, 1, "Computer Science")),
    ("CL-3", RoomInfo("lab", 37, 43, 1, "Computer Science")),
    ("CL-4", RoomInfo("lab", 37, 43, 1, "Computer Science"))
  ]
  const PhysicsLabs: seq<(string, RoomInfo)> := [
    ("PL-1", RoomInfo("lab", 22, 28, 1, "Physics")),
    ("PL-2", RoomInfo("lab", 27, 33, 1, "Physics"))
  ]
  const ChemistryLabs: seq<(string, RoomInfo)> := [
    ("ChemL-1", RoomInfo("lab", 22, 28, 1, "Chemistry")),
    ("ChemL-2", RoomInfo("lab", 27, 33, 1, "Chemistry"))
  ]
  const BiologyLabs: seq<(string, RoomInfo)> := [
    ("BioL-1", RoomInfo("lab", 22, 28, 1, "Biology")),
    ("BioL-2", RoomInfo("lab", 22, 28, 1, "Biology"))
  ]
  const ElectronicsLabs: seq<(string, RoomInfo)> := [
    ("EL-1", RoomInfo("lab", 22, 28, 1, "Electronics")),
    ("EL-2", RoomInfo("lab", 27, 33, 1, "Electronics"))
  ]
  const LabRooms: seq<(string, RoomInfo)> := CsLabs + PhysicsLabs + ChemistryLabs + BiologyLabs + ElectronicsLabs

  /** The `ROOMS` table in insertion order: 60 classrooms over three floors, then the labs. */
  function Rooms(): seq<(string, RoomInfo)> {
    Classrooms() + LabRooms
  }

  /** Ground floor 1-15 (60-80), first floor 16-30 (60-80) and 31-45 (40-50),
      second floor 46-50 (40-50) and 51-60 (20-30). */
  function Classrooms(): seq<(string, RoomInfo)> {
    ClassroomBlock(1, 16, 60, 80, 0) + ClassroomBlock(16, 31, 60, 80, 1) + ClassroomBlock(31, 46, 40, 50, 1)
    + ClassroomBlock(46, 51, 40, 50, 2) + ClassroomBlock(51, 61, 20, 30, 2)
  }

  /** Names of the rooms satisfying a type and department filter, in table order. */
  function NamesWhere(rooms: seq<(string, RoomInfo)>, roomType: string, department: Option<string>): (names: seq<string>)
    ensures |names| <= |rooms|
  {
    if rooms == [] then []
    else
      var rest := NamesWhere(rooms[1..], roomType, department);
      if rooms[0].1.roomType == roomType && (department.Some? ==> rooms[0].1.department == department.value)
      then [rooms[0].0] + rest
      else rest
  }

  /** Every listed name belongs to a room of the requested type (and department). */
  lemma {:induction false} NamesWhereSound(rooms: seq<(string, RoomInfo)>, roomType: string, department: Option<string>, i: nat)
    requires i < |NamesWhere(rooms, roomType, department)|
    ensures exists k :: 0 <= k < |rooms| && rooms[k].0 == NamesWhere(rooms, roomType, department)[i]
                        && rooms[k].1.roomType == roomType
                        && (department.Some? ==> rooms[k].1.department == department.value)
  {
    var rest := NamesWhere(rooms[1..], roomType, department);
    if rooms[0].1.roomType == roomType && (department.Some? ==> rooms[0].1.department == department.value) {
      if i == 0 {
        assert rooms[0].0 == NamesWhere(rooms, roomType, department)[i];
      } else {
        NamesWhereSound(rooms[1..], roomType, department, i - 1);
        var k :| 0 <= k < |rooms[1..]| && rooms[1..][k].0 == rest[i - 1]
                 && rooms[1..][k].1.roomType == roomType
                 && (department.Some? ==> rooms[1..][k].1.department == department.value);
        assert rooms[k + 1] == rooms[1..][k];
      }
    } else {
      NamesWhereSound(rooms[1..], roomType, department, i);
      var k :| 0 <= k < |rooms[1..]| && rooms[1..][k].0 == rest[i]
               && rooms[1..][k].1.roomType == roomType
               && (department.Some? ==> rooms[1..][k].1.department == department.value);
      assert rooms[k + 1] == rooms[1..][k];
    }
  }

  lemma NamesWhereAppend(a: seq<(string, RoomInfo)>, b: seq<(string, RoomInfo)>, roomType: string, department: Option<string>)
    ensures NamesWhere(a + b, roomType, department) == NamesWhere(a, roomType, department) + NamesWhere(b, roomType, department)
    decreases |a|
  {
    if a == [] {
      assert a + b == b;
    } else {
      assert (a + b)[0] == a[0];
      assert (a + b)[1..] == a[1..] + b;
      NamesWhereAppend(a[1..], b, roomType, department);
    }
  }

  /** `get_rooms_by_type`. */
  function RoomsByType(roomType: string): seq<string> {
    NamesWhere(Rooms(), roomType, None)
  }

  /** `get_labs_by_department`. */
  function LabsByDepartment(department: string): seq<string> {
    NamesWhere(Rooms(), "lab", Some(department))
  }

  function ClassroomNames(lo: nat, hi: nat): seq<string>
    requires lo <= hi
  {
    seq(hi - lo, k requires 0 <= k < hi - lo => "R-" + NatToString(lo + k))
  }

  lemma ClassroomNamesConcat(lo: nat, mid: nat, hi: nat)
    requires lo <= mid <= hi
    ensures ClassroomNames(lo, mid) + ClassroomNames(mid, hi) == ClassroomNames(lo, hi)
  {
  }

  /** A block of classrooms contributes its names to the classroom list (of the
      "COMMON" department) and nothing to any other list. */
  lemma {:induction false} ClassroomBlockNames(lo: nat, hi: nat, capacityMin: nat, capacityMax: nat, floor: nat,
                                             roomType: string, department: Option<string>)
    requires lo <= hi
    ensures NamesWhere(ClassroomBlock(lo, hi, capacityMin, capacityMax, floor), roomType, department)
            == if roomType == "classroom" && (department.None? || department.value == "COMMON")
               then ClassroomNames(lo, hi) else []
    decreases hi - lo
  {
    if lo < hi {
      var rooms := ClassroomBlock(lo, hi, capacityMin, capacityMax, floor);
      var rest := ClassroomBlock(lo + 1, hi, capacityMin, capacityMax, floor);
      forall k | 0 <= k < |rest|
        ensures rooms[1..][k] == rest[k]
      {
        assert lo + 1 + k == lo + (k + 1);
      }
      assert rooms[1..] == rest;
      assert ClassroomNames(lo, lo + 1) == [rooms[0].0];
      ClassroomBlockNames(lo + 1, hi, capacityMin, capacityMax, floor, roomType, department);
      ClassroomNamesConcat(lo, lo + 1, hi);
    }
  }

  function Names(rooms: seq<(string, RoomInfo)>): seq<string> {
    seq(|rooms|, k requires 0 <= k < |rooms| => rooms[k].0)
  }

  /** A group of labs of one department: the filter keeps all of it or none of it. */
  lemma {:induction false} DepartmentGroup(rooms: seq<(string, RoomInfo)>, owner: string,
                                         roomType: string, department: Option<string>)
    requires forall k :: 0 <= k < |rooms| ==> rooms[k].1.roomType == "lab" && rooms[k].1.department == owner
    ensures NamesWhere(rooms, roomType, department) ==
      if roomType == "lab" && (department.None? || department.value == owner) then Names(rooms) else []
  {
    if rooms != [] {
      DepartmentGroup(rooms[1..], owner, roomType, department);
      assert Names(rooms) == [rooms[0].0] + Names(rooms[1..]);
    }
  }

  lemma ClassroomsFiltered(roomType: string, department: Option<string>)
    ensures NamesWhere(Classrooms(), roomType, department) ==
      if roomType == "classroom" && (department.None? || department.value == "COMMON")
      then ClassroomNames(1, 61) else []
  {
    var b1, b2, b3 := ClassroomBlock(1, 16, 60, 80, 0), ClassroomBlock(16, 31, 60, 80, 1), ClassroomBlock(31, 46, 40, 50, 1);
    var b4, b5 := ClassroomBlock(46, 51, 40, 50, 2), ClassroomBlock(51, 61, 20, 30, 2);
    ClassroomBlockNames(1, 16, 60, 80, 0, roomType, department);
    ClassroomBlockNames(16, 31, 60, 80, 1, roomType, department);
    ClassroomBlockNames(31, 46, 40, 50, 1, roomType, department);
    ClassroomBlockNames(46, 51, 40, 50, 2, roomType, department);
    ClassroomBlockNames(51, 61, 20, 30, 2, roomType, department);
    ClassroomNamesConcat(1, 16, 31);
    ClassroomNamesConcat(1, 31, 46);
    ClassroomNamesConcat(1, 46, 51);
    ClassroomNamesConcat(1, 51, 61);
    NamesWhereAppend(b1, b2, roomType, department);
    NamesWhereAppend(b1 + b2, b3, roomType, department);
    NamesWhereAppend(b1 + b2 + b3, b4, roomType, department);
    NamesWhereAppend(b1 + b2 + b3 + b4, b5, roomType, department);
  }

  lemma RoomsSplit(roomType: string, department: Option<string>)
    ensures NamesWhere(Rooms(), roomType, department)
            == NamesWhere(Classrooms(), roomType, department) + NamesWhere(LabRooms, roomType, department)
  {
    NamesWhereAppend(Classrooms(), LabRooms, roomType, department);
  }

  lemma LabRoomsFiltered(roomType: string, department: Option<string>)
    ensures NamesWhere(LabRooms, roomType, department) ==
      NamesWhere(CsLabs, roomType, department) + NamesWhere(PhysicsLabs, roomType, department)
      + NamesWhere(ChemistryLabs, roomType, department) + NamesWhere(BiologyLabs, roomType, department)
      + NamesWhere(ElectronicsLabs, roomType, department)
  {
    NamesWhereAppend(CsLabs, PhysicsLabs, roomType, department);
    NamesWhereAppend(CsLabs + PhysicsLabs, ChemistryLabs, roomType, department);
    NamesWhereAppend(CsLabs + PhysicsLabs + ChemistryLabs, BiologyLabs, roomType, department);
    NamesWhereAppend(CsLabs + PhysicsLabs + ChemistryLabs + BiologyLabs, ElectronicsLabs, roomType, department);
  }

  /** Each lab group, filtered: all of its labs or none. */
  lemma CsLabsFiltered(roomType: string, department: Option<string>)
    ensures NamesWhere(CsLabs, roomType, department) ==
      if roomType == "lab" && (department.None? || department.value == "Computer Science") then ["CL-1", "CL-2", "CL-3", "CL-4"] else []
  {
    DepartmentGroup(CsLabs, "Computer Science", roomType, department);
    assert Names(CsLabs) == ["CL-1", "CL-2", "CL-3", "CL-4"];
  }

  lemma PhysicsLabsFiltered(roomType: string, department: Option<string>)
    ensures NamesWhere(PhysicsLabs, roomType, department) ==
      if roomType == "lab" && (department.None? || department.value == "Physics") then ["PL-1", "PL-2"] else []
  {
    DepartmentGroup(PhysicsLabs, "Physics", roomType, department);
    assert Names(PhysicsLabs) == ["PL-1", "PL-2"];
  }

  lemma ChemistryLabsFiltered(roomType: string, department: Option<string>)
    ensures NamesWhere(ChemistryLabs, roomType, department) ==
      if roomType == "lab" && (department.None? || department.value == "Chemistry") then ["ChemL-1", "ChemL-2"] else []
  {
    DepartmentGroup(ChemistryLabs, "Chemistry", roomType, department);
    assert Names(ChemistryLabs) == ["ChemL-1", "ChemL-2"];
  }

  lemma BiologyLabsFiltered(roomType: string, department: Option<string>)
    ensures NamesWhere(BiologyLabs, roomType, department) ==
      if roomType == "lab" && (department.None? || department.value == "Biology") then ["BioL-1", "BioL-2"] else []
  {
    DepartmentGroup(BiologyLabs, "Biology", roomType, department);
    assert Names(BiologyLabs) == ["BioL-1", "BioL-2"];
  }

  lemma ElectronicsLabsFiltered(roomType: string, department: Option<string>)
    ensures NamesWhere(ElectronicsLabs, roomType, department) ==
      if roomType == "lab" && (department.None? || department.value == "Electronics") then ["EL-1", "EL-2"] else []
  {
    DepartmentGroup(ElectronicsLabs, "Electronics", roomType, department);
    assert Names(ElectronicsLabs) == ["EL-1", "EL-2"];
  }

  lemma LabGroupsFiltered(roomType: string, department: Option<string>)
    ensures NamesWhere(CsLabs, roomType, department) ==
      if roomType == "lab" && (department.None? || department.value == "Computer Science")
      then ["CL-1", "CL-2", "CL-3", "CL-4"] else []
    ensures NamesWhere(PhysicsLabs, roomType, department) ==
      if roomType == "lab" && (department.None? || department.value == "Physics") then ["PL-1", "PL-2"] else []
    ensures NamesWhere(ChemistryLabs, roomType, department) ==
      if roomType == "lab" && (department.None? || department.value == "Chemistry") then ["ChemL-1", "ChemL-2"] else []
    ensures NamesWhere(BiologyLabs, roomType, department) ==
      if roomType == "lab" && (department.None? || department.value == "Biology") then ["BioL-1", "BioL-2"] else []
    ensures NamesWhere(ElectronicsLabs, roomType, department) ==
      if roomType == "lab" && (department.None? || department.value == "Electronics") then ["EL-1", "EL-2"] else []
  {
    CsLabsFiltered(roomType, department);
    PhysicsLabsFiltered(roomType, department);
    ChemistryLabsFiltered(roomType, department);
    BiologyLabsFiltered(roomType, department);
    ElectronicsLabsFiltered(roomType, department);
  }

  /** The twelve lab names, department by department. */
  const LabNames: seq<string> :=
    ["CL-1", "CL-2", "CL-3", "CL-4"] + ["PL-1", "PL-2"] + ["ChemL-1", "ChemL-2"] + ["BioL-1", "BioL-2"] + ["EL-1", "EL-2"]

  lemma LabRoomsOfType(roomType: string)
    ensures NamesWhere(LabRooms, roomType, None) == if roomType == "lab" then LabNames else []
  {
    LabRoomsFiltered(roomType, None);
    LabGroupsFiltered(roomType, None);
  }

  /** `get_rooms_by_type`: "classroom" gives "R-1" .. "R-60" in order, "lab" the
      twelve labs in table order, anything else nothing. */
  lemma RoomsByTypeTable(roomType: string)
    ensures RoomsByType(roomType) ==
      if roomType == "classroom" then ClassroomNames(1, 61)
      else if roomType == "lab" then LabNames
      else []
    ensures |RoomsByType(roomType)| == if roomType == "classroom" then 60 else if roomType == "lab" then 12 else 0
  {
    RoomsSplit(roomType, None);
    ClassroomsFiltered(roomType, None);
    LabRoomsOfType(roomType);
  }

  lemma ClassroomsHaveNoLabs(department: string)
    ensures NamesWhere(Classrooms(), "lab", Some(department)) == []
  {
    ClassroomsFiltered("lab", Some(department));
  }

  lemma LabRoomsOfDepartment(department: string)
    ensures NamesWhere(LabRooms, "lab", Some(department)) ==
      if department == "Computer Science" then ["CL-1", "CL-2", "CL-3", "CL-4"]
      else if department == "Physics" then ["PL-1", "PL-2"]
      else if department == "Chemistry" then ["ChemL-1", "ChemL-2"]
      else if department == "Biology" then ["BioL-1", "BioL-2"]
      else if department == "Electronics" then ["EL-1", "EL-2"]
      else []
  {
    LabRoomsFiltered("lab", Some(department));
    LabGroupsFiltered("lab", Some(department));
  }

  /** `get_labs_by_department`: each configured department gets exactly the labs
      named with its code, in table order; any other name gets none. */
  lemma LabsByDepartmentTable(department: string)
    ensures LabsByDepartment(department) ==
      if department == "Computer Science" then ["CL-1", "CL-2", "CL-3", "CL-4"]
      else if department == "Physics" then ["PL-1", "PL-2"]
      else if department == "Chemistry" then ["ChemL-1", "ChemL-2"]
      else if department == "Biology" then ["BioL-1", "BioL-2"]
      else if department == "Electronics" then ["EL-1", "EL-2"]
      else []
  {
    RoomsSplit("lab", Some(department));
    ClassroomsHaveNoLabs(department);
    LabRoomsOfDepartment(department);
  }

  /** Penalty weights for room fit. */
  const OversizedRoomWeight: nat := 10
  const UndersizedRoomWeight: nat := 100
  const RoomMismatchWeight: nat := 5
  const IsolatedPracticalWeight: nat := 50
  const GeLectureSlotUsageWeight: nat := 30
  const TheoryInLabWeight: nat := 100

  /** One lab teacher per this many students. */
  const LabTeacherRatio: nat := 20
  const MaxHoursPerTeacher: nat := 16
}

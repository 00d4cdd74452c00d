/**
 * The older configuration (`Config` in project/src/config.py, identical to
 * older_versions/1st_version/src/config.py): one fixed-slot table for all
 * years, where SEC, VAC and AEC each combine a weekday entry with a Saturday
 * entry, and room capacities counted per room type.
 */
module ConfigV1 {
  import opened Grid
  import opened FixedSlotTables

  const FixedSlots: Table := map[
    "GE" := FixedSlot([12], [Mon, Tue, Wed, Thu, Fri, Sat]),
    "SEC" := FixedSlot([13, 14], [Fri]),
    "SEC_SAT" := FixedSlot([8, 9], [Sat]),
    "VAC" := FixedSlot([15, 16], [Fri]),
    "VAC_SAT" := FixedSlot([10, 11], [Sat]),
    "AEC" := FixedSlot([12], [Mon, Tue, Wed, Thu, Fri]),
    "AEC_SAT" := FixedSlot([13, 14], [Sat])
  ]

  /** The table keys `get_fixed_slot_indices` consults: SEC, VAC and AEC their own
      entry and its Saturday entry, any other key of the table itself, and an
      unknown type nothing. */
  function FixedSlotKeys(courseType: string): seq<string> {
    if courseType == "SEC" then ["SEC", "SEC_SAT"]
    else if courseType == "VAC" then ["VAC", "VAC_SAT"]
    else if courseType == "AEC" then ["AEC", "AEC_SAT"]
    else if courseType in FixedSlots then [courseType]
    else []
  }

  function FixedSlotIndices(courseType: string): seq<nat> {
    IndicesOf(FixedSlots, FixedSlotKeys(courseType))
  }

  /** `get_fixed_slot_indices`. */
  method GetFixedSlotIndices(courseType: string) returns (indices: seq<nat>)
    ensures indices == FixedSlotIndices(courseType)
    ensures forall i :: i in indices ==> i < SlotCount
  {
    indices := CollectIndices(FixedSlots, FixedSlotKeys(courseType));
    IndicesOfBounded(FixedSlots, FixedSlotKeys(courseType));
  }

  /** Where each type's slots lie, by weekday position `d` (0 is Monday) and start hour `h`. */
  predicate ReservedAt(courseType: string, d: nat, h: Hour) {
    if courseType == "GE" then h == 12
    else if courseType == "SEC" then (d == 4 && 13 <= h <= 14) || (d == 5 && 8 <= h <= 9)
    else if courseType == "VAC" then (d == 4 && 15 <= h <= 16) || (d == 5 && 10 <= h <= 11)
    else if courseType == "AEC" then (d <= 4 && h == 12) || (d == 5 && 13 <= h <= 14)
    else if courseType == "SEC_SAT" then d == 5 && 8 <= h <= 9
    else if courseType == "VAC_SAT" then d == 5 && 10 <= h <= 11
    else if courseType == "AEC_SAT" then d == 5 && 13 <= h <= 14
    else false
  }

  lemma Entries(d: nat, h: Hour)
    requires d < 6
    ensures Covers(FixedSlots["GE"], d, h) <==> h == 12
    ensures Covers(FixedSlots["SEC"], d, h) <==> d == 4 && 13 <= h <= 14
    ensures Covers(FixedSlots["SEC_SAT"], d, h) <==> d == 5 && 8 <= h <= 9
    ensures Covers(FixedSlots["VAC"], d, h) <==> d == 4 && 15 <= h <= 16
    ensures Covers(FixedSlots["VAC_SAT"], d, h) <==> d == 5 && 10 <= h <= 11
    ensures Covers(FixedSlots["AEC"], d, h) <==> d <= 4 && h == 12
    ensures Covers(FixedSlots["AEC_SAT"], d, h) <==> d == 5 && 13 <= h <= 14
  {
    DayLists(d);
  }

  lemma GeAt(courseType: string, i: nat)
    requires courseType == "GE"
    ensures i in FixedSlotIndices(courseType) <==> i < SlotCount && ReservedAt(courseType, DayOf(i), HourOf(i))
  {
    assert FixedSlotKeys(courseType) == ["GE"];
    OneKey(FixedSlots, "GE", i);
    EntryMember(FixedSlots["GE"], i);
    if i < SlotCount {
      Entries(DayOf(i), HourOf(i));
    }
  }


  lemma SecAt(courseType: string, i: nat)
    requires courseType == "SEC"
    ensures i in FixedSlotIndices(courseType) <==> i < SlotCount && ReservedAt(courseType, DayOf(i), HourOf(i))
  {
    assert FixedSlotKeys(courseType) == ["SEC", "SEC_SAT"];
    TwoKeyCover(FixedSlots, "SEC", "SEC_SAT", i);
    if i < SlotCount {
      Entries(DayOf(i), HourOf(i));
    }
  }


  lemma VacAt(courseType: string, i: nat)
    requires courseType == "VAC"
    ensures i in FixedSlotIndices(courseType) <==> i < SlotCount && ReservedAt(courseType, DayOf(i), HourOf(i))
  {
    assert FixedSlotKeys(courseType) == ["VAC", "VAC_SAT"];
    TwoKeyCover(FixedSlots, "VAC", "VAC_SAT", i);
    if i < SlotCount {
      Entries(DayOf(i), HourOf(i));
    }
  }


  lemma AecAt(courseType: string, i: nat)
    requires courseType == "AEC"
    ensures i in FixedSlotIndices(courseType) <==> i < SlotCount && ReservedAt(courseType, DayOf(i), HourOf(i))
  {
    assert FixedSlotKeys(courseType) == ["AEC", "AEC_SAT"];
    TwoKeyCover(FixedSlots, "AEC", "AEC_SAT", i);
    if i < SlotCount {
      Entries(DayOf(i), HourOf(i));
    }
  }


  /** A key of the table other than SEC, VAC and AEC is read directly. */
  lemma DirectAt(courseType: string, i: nat)
    requires courseType in FixedSlots && courseType !in {"SEC", "VAC", "AEC"}
    ensures i in FixedSlotIndices(courseType) <==> i < SlotCount && ReservedAt(courseType, DayOf(i), HourOf(i))
  {
    assert FixedSlotKeys(courseType) == [courseType];
    OneKey(FixedSlots, courseType, i);
    EntryMember(FixedSlots[courseType], i);
    if i < SlotCount {
      var d, h := DayOf(i), HourOf(i);
      assert courseType == "GE" || courseType == "SEC_SAT" || courseType == "VAC_SAT" || courseType == "AEC_SAT";
      Entries(d, h);
    }
  }

  /**
   * `get_fixed_slot_indices` returns exactly the grid indices the type
   * reserves: SEC, VAC and AEC the union of their weekday and Saturday
   * entries, another key of the table its own entry, anything else nothing.
   */
  lemma FixedSlotIndicesReference(courseType: string, i: nat)
    ensures i in FixedSlotIndices(courseType) <==> i < SlotCount && ReservedAt(courseType, DayOf(i), HourOf(i))
  {
    if courseType == "SEC" {
      SecAt(courseType, i);
    } else if courseType == "VAC" {
      VacAt(courseType, i);
    } else if courseType == "AEC" {
      AecAt(courseType, i);
    } else if courseType in FixedSlots {
      DirectAt(courseType, i);
    } else {
      assert FixedSlotKeys(courseType) == [];
    }
  }

  /** A type that is not a key of the table reserves nothing. */
  lemma UnknownTypeHasNoSlots(courseType: string)
    requires courseType !in FixedSlots
    ensures FixedSlotIndices(courseType) == []
  {
    assert FixedSlotKeys(courseType) == [];
  }

  /** Every reserved slot of the week: the 12:30 hour of every day, Friday from
      13:30 to 17:30 and Saturday from 8:30 to 15:30. */
  predicate AnyReservedAt(d: nat, h: Hour) {
    h == 12 || (d == 4 && 13 <= h <= 16) || (d == 5 && 8 <= h <= 14)
  }

  function AllFixedSlotIndices(): set<nat> {
    set i: nat | i < SlotCount && AnyReservedAt(DayOf(i), HourOf(i))
  }

  function SetOf(xs: seq<nat>): set<nat> {
    set x | x in xs
  }

  /** The types `get_all_fixed_slot_indices` visits. */
  const AllFixedTypes: seq<string> := ["GE", "SEC", "VAC", "AEC"]

  /** Index `i` is reserved by one of the first `n` types visited. */
  predicate ReservedByFirst(n: nat, i: nat)
    requires n <= |AllFixedTypes|
  {
    exists k :: 0 <= k < n && i < SlotCount && ReservedAt(AllFixedTypes[k], DayOf(i), HourOf(i))
  }

  /** `get_all_fixed_slot_indices`: the union of the GE, SEC, VAC and AEC indices. */
  method GetAllFixedSlotIndices() returns (all: set<nat>)
    ensures all == AllFixedSlotIndices()
  {
    all := {};
    for n := 0 to |AllFixedTypes|
      invariant forall i: nat :: i in all <==> ReservedByFirst(n, i)
    {
      var indices := GetFixedSlotIndices(AllFixedTypes[n]);
      all := all + SetOf(indices);
      forall i: nat
        ensures i in all <==> ReservedByFirst(n + 1, i)
      {
        ReservedByNext(n, i);
      }
    }
    forall i: nat
      ensures i in all <==> i < SlotCount && AnyReservedAt(DayOf(i), HourOf(i))
    {
      AllFixedAt(i);
    }
  }

  /** Visiting one more type adds exactly that type's indices. */
  lemma ReservedByNext(n: nat, i: nat)
    requires n < |AllFixedTypes|
    ensures ReservedByFirst(n + 1, i) <==> ReservedByFirst(n, i) || i in FixedSlotIndices(AllFixedTypes[n])
  {
    FixedSlotIndicesReference(AllFixedTypes[n], i);
    if ReservedByFirst(n + 1, i) && !ReservedByFirst(n, i) {
      var k :| 0 <= k < n + 1 && i < SlotCount && ReservedAt(AllFixedTypes[k], DayOf(i), HourOf(i));
      assert k == n;
    }
  }

  lemma AllFixedAt(i: nat)
    ensures ReservedByFirst(4, i) <==> i < SlotCount && AnyReservedAt(DayOf(i), HourOf(i))
  {
    if ReservedByFirst(4, i) {
      var k :| 0 <= k < 4 && i < SlotCount && ReservedAt(AllFixedTypes[k], DayOf(i), HourOf(i));
      assert k == 0 || k == 1 || k == 2 || k == 3;
    }
    if i < SlotCount {
      var d, h := DayOf(i), HourOf(i);
      if ReservedAt(AllFixedTypes[0], d, h) || ReservedAt(AllFixedTypes[1], d, h)
         || ReservedAt(AllFixedTypes[2], d, h) || ReservedAt(AllFixedTypes[3], d, h) {
        assert ReservedByFirst(4, i);
      }
    }
  }

  /** The union is the sixteen indices of the 12:30 column, Friday 13:30-17:30
      and Saturday 8:30-12:30 and 13:30-15:30: the weekday AEC hour is the GE hour. */
  lemma AllFixedSlotIndicesCount()
    ensures AllFixedSlotIndices() == AllFixedList
    ensures |AllFixedSlotIndices()| == 16
  {
    AllFixedSlotIndicesAre();
    AllFixedListSize();
  }

  lemma AllFixedSlotIndicesAre()
    ensures AllFixedSlotIndices() == AllFixedList
  {
    forall i: nat
      ensures i in AllFixedSlotIndices() <==> i in AllFixedList
    {
      if i < SlotCount {
        GridIndex(i);
        PositionIndex(DayOf(i), HourOf(i));
      }
    }
  }

  lemma AllFixedListSize()
    ensures |AllFixedList| == 16
  {
    PartSizes();
    PartsDisjoint();
    DisjointUnionSize(NoonColumn, FridayAfternoon);
    DisjointUnionSize(NoonColumn + FridayAfternoon, SaturdayBlock);
  }

  lemma PartsDisjoint()
    ensures forall x :: x in NoonColumn ==> x !in FridayAfternoon
    ensures forall x :: x in NoonColumn + FridayAfternoon ==> x !in SaturdayBlock
  {
    assert forall x :: x in NoonColumn ==> x <= 40;
    assert forall x :: x in FridayAfternoon ==> 41 <= x <= 44;
    assert forall x :: x in SaturdayBlock ==> 45 <= x;
  }

  lemma DisjointUnionSize(a: set<nat>, b: set<nat>)
    requires forall x :: x in a ==> x !in b
    ensures |a + b| == |a| + |b|
  {
    assert a * b == {};
  }

  lemma PartSizes()
    ensures |NoonColumn| == 5 && |FridayAfternoon| == 4 && |SaturdayBlock| == 7
  {
  }

  /** The 12:30 hour of Monday to Friday, Friday 13:30-17:30 and Saturday 8:30-15:30. */
  const NoonColumn: set<nat> := {4, 13, 22, 31, 40}
  const FridayAfternoon: set<nat> := {41, 42, 43, 44}
  const SaturdayBlock: set<nat> := {45, 46, 47, 48, 49, 50, 51}
  const AllFixedList: set<nat> := NoonColumn + FridayAfternoon + SaturdayBlock

  lemma PositionIndex(d: nat, h: Hour)
    requires d < 6 && StartHour <= h < EndHour
    ensures AnyReservedAt(d, h) <==> SlotsPerDay * d + (h - StartHour) in AllFixedList
  {
  }

  /** Room counts per room type, with their nominal capacity and allowed overflow. */
  datatype RoomCapacity = RoomCapacity(count: nat, capacity: nat, overflowAllowed: nat)

  const RoomCapacities: map<string, RoomCapacity> := map[
    "Classroom" := RoomCapacity(15, 60, 10),
    "Lab-Physics" := RoomCapacity(2, 30, 10),
    "Lab-Chemistry" := RoomCapacity(2, 30, 10),
    "Lab-Biology" := RoomCapacity(1, 30, 10),
    "Lab-Electronics" := RoomCapacity(2, 30, 10),
    "Lab-CS" := RoomCapacity(3, 30, 10)
  ]

  const DepartmentLabs: map<string, string> := map[
    "Physics" := "Lab-Physics",
    "Chemistry" := "Lab-Chemistry",
    "Biology" := "Lab-Biology",
    "Electronics" := "Lab-Electronics",
    "Computer Science" := "Lab-CS",
    "CS" := "Lab-CS"
  ]

  /** Every department's lab type has a capacity entry. */
  lemma DepartmentLabsHaveCapacities(department: string)
    requires department in DepartmentLabs
    ensures DepartmentLabs[department] in RoomCapacities
    ensures RoomCapacities[DepartmentLabs[department]].count > 0
  {
  }

  const StudentsPerSection: nat := 50
  const MaxHoursPerTeacher: nat := 16
}

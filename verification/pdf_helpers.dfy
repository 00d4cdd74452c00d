/**
 * The data behind the PDF report of the second-generation generator
 * (older_versions/2nd_version/src/pdf_generator.py): the room sort key, the free
 * rooms of every slot, a teacher's weekly hours and role in each class, and the
 * labels of reserved slots. Fonts, colours and table layout are not modelled.
 *
 * The master schedule (day, then slot, then the classes added there) is modelled,
 * as in the solver, by the sequence of its classes in that iteration order, each
 * with its day and slot.
 */
module PdfHelpers {
  import opened Wrappers
  import opened Text
  import Grid
  import ConfigV2
  import Sorting
  import FixedSlotTables

  // ---------------------------------------------------------------------------
  // Lines 572-584: `_sort_room_key`.

  /** The tuple `(room type, middle part, room number)` rooms are sorted by. */
  datatype RoomKey = RoomKey(roomType: string, middle: string, number: int)

  /** Split the name on '-'; a name without one keys as itself. Otherwise the number
      is `int` of the first word of the last part, and the middle part is kept only
      when there are three parts or more; when there is no word or it is not a
      number, the key is the first two parts and 0. */
  function SortRoomKey(name: string): (k: RoomKey)
    ensures '-' !in name ==> k == RoomKey(name, "", 0)
    ensures '-' in name ==> k.roomType == Split(name, '-')[0]
  {
    SplitCount(name, '-');
    CountZero(name, '-');
    var parts := Split(name, '-');
    if |parts| < 2 then RoomKey(name, "", 0)
    else
      var words := Words(parts[|parts| - 1]);
      var number := if words == [] then None else ParseInt(words[0]);
      match number
      case Some(n) => RoomKey(parts[0], if |parts| > 2 then parts[1] else "", n)
      case None => RoomKey(parts[0], parts[1], 0)
  }

  /** A decimal rendering is one word and reads back as its number. */
  lemma NumberWord(n: nat)
    ensures '-' !in NatToString(n)
    ensures Words(NatToString(n)) == [NatToString(n)]
    ensures ParseInt(NatToString(n)) == Some(n)
  {
    var digits := NatToString(n);
    forall i | 0 <= i < |digits|
      ensures digits[i] != '-' && !IsSpace(digits[i])
    {
      assert IsDigit(digits[i]);
    }
    WordsOfWord(digits);
    ParseIntOfIntToString(n);
  }

  /** A room named "<prefix>-<n>", such as "R-12" or "CL-3", keys as (prefix, "", n). */
  lemma NumberedRoomKey(prefix: string, n: nat)
    requires '-' !in prefix
    ensures SortRoomKey(prefix + "-" + NatToString(n)) == RoomKey(prefix, "", n)
  {
    var digits := NatToString(n);
    NumberWord(n);
    NumberedSplit(prefix, digits);
    var name := prefix + "-" + digits;
    assert Split(name, '-') == [prefix, digits];
    assert ParseInt(Words(digits)[0]) == Some(n);
  }

  lemma NumberedSplit(prefix: string, digits: string)
    requires '-' !in prefix && '-' !in digits
    ensures Split(prefix + "-" + digits, '-') == [prefix, digits]
  {
    SplitPrefix(prefix, '-', digits);
    SplitNoSep(digits, '-');
  }

  /** Python's `<=` on key tuples: field by field, strings by code point. */
  predicate KeyLe(a: RoomKey, b: RoomKey) {
    if a.roomType != b.roomType then LexLe(a.roomType, b.roomType)
    else if a.middle != b.middle then LexLe(a.middle, b.middle)
    else a.number <= b.number
  }

  /** Numbered rooms of one prefix sort by number, so "R-9" precedes "R-10". */
  lemma NumberedRoomsInOrder(prefix: string, a: nat, b: nat)
    requires '-' !in prefix
    ensures KeyLe(SortRoomKey(prefix + "-" + NatToString(a)), SortRoomKey(prefix + "-" + NatToString(b))) <==> a <= b
  {
    NumberedRoomKey(prefix, a);
    NumberedRoomKey(prefix, b);
  }

  lemma KeyLeTransitive(a: RoomKey, b: RoomKey, c: RoomKey)
    requires KeyLe(a, b) && KeyLe(b, c)
    ensures KeyLe(a, c)
  {
    if a.roomType != b.roomType || b.roomType != c.roomType {
      if a.roomType == c.roomType {
        LexLeAntisymmetric(a.roomType, b.roomType);
      } else if a.roomType == b.roomType || b.roomType == c.roomType {
      } else {
        LexLeTransitive(a.roomType, b.roomType, c.roomType);
      }
    } else if a.middle != b.middle || b.middle != c.middle {
      if a.middle == c.middle {
        LexLeAntisymmetric(a.middle, b.middle);
      } else if a.middle == b.middle || b.middle == c.middle {
      } else {
        LexLeTransitive(a.middle, b.middle, c.middle);
      }
    }
  }

  /** Rooms compare by the key of their name. */
  predicate RoomLe(x: (string, nat), y: (string, nat)) {
    KeyLe(SortRoomKey(x.0), SortRoomKey(y.0))
  }

  lemma RoomLeTotalPreorder()
    ensures Sorting.TotalPreorder(RoomLe)
  {
    forall x: (string, nat), y: (string, nat)
      ensures RoomLe(x, y) || RoomLe(y, x)
    {
      var a, b := SortRoomKey(x.0), SortRoomKey(y.0);
      LexLeTotal(a.roomType, b.roomType);
      LexLeTotal(a.middle, b.middle);
    }
    forall x: (string, nat), y: (string, nat), z: (string, nat) | RoomLe(x, y) && RoomLe(y, z)
      ensures RoomLe(x, z)
    {
      KeyLeTransitive(SortRoomKey(x.0), SortRoomKey(y.0), SortRoomKey(z.0));
    }
  }

  /** Line 450: `all_rooms.sort(key=_sort_room_key)`, a stable sort by key. */
  function SortedRooms(rooms: seq<(string, nat)>): (r: seq<(string, nat)>)
    ensures multiset(r) == multiset(rooms)
    ensures Sorting.SortedBy(r, RoomLe)
  {
    RoomLeTotalPreorder();
    Sorting.SortBySorted(rooms, RoomLe);
    Sorting.SortBy(rooms, RoomLe)
  }

  // ---------------------------------------------------------------------------
  // Lines 452-498: free rooms.

  /** `s.replace(pat, "")`: occurrences are removed left to right, without overlap. */
  function RemoveAll(s: string, pat: string): (r: string)
    requires pat != []
    ensures |r| <= |s|
    decreases |s|
  {
    if |s| < |pat| then s
    else if s[..|pat|] == pat then RemoveAll(s[|pat|..], pat)
    else [s[0]] + RemoveAll(s[1..], pat)
  }

  /** A string that lacks the first character of `pat` loses nothing. */
  lemma {:induction false} RemoveAllMissing(s: string, pat: string)
    requires pat != [] && pat[0] !in s
    ensures RemoveAll(s, pat) == s
    decreases |s|
  {
    if |s| >= |pat| {
      assert s[..|pat|][0] == s[0];
      RemoveAllMissing(s[1..], pat);
      assert [s[0]] + s[1..] == s;
    }
  }

  /** A trailing `pat` after such a string is removed. */
  lemma {:induction false} RemoveAllTrailing(s: string, pat: string)
    requires pat != [] && pat[0] !in s
    ensures RemoveAll(s + pat, pat) == s
    decreases |s|
  {
    if s == [] {
      assert (s + pat)[..|pat|] == pat;
      assert (s + pat)[|pat|..] == [];
    } else {
      assert (s + pat)[..|pat|][0] == s[0];
      assert (s + pat)[1..] == s[1..] + pat;
      RemoveAllTrailing(s[1..], pat);
      assert [s[0]] + s[1..] == s;
    }
  }

  /** Lines 472-476: drop the " (TH)" marker (then a bare "(TH)") and the spaces
      around the name. */
  function CleanRoom(room: string): string {
    Strip(RemoveAll(RemoveAll(room, " (TH)"), "(TH)"))
  }

  /** A room name made of no spaces and no '(' is a plain name. */
  predicate PlainName(name: string) {
    name != [] && NoSpace(name) && '(' !in name && ',' !in name
  }

  lemma PlainNameStrip(name: string)
    requires PlainName(name)
    ensures Strip(name) == name
  {
    StripTrimmed(name);
  }

  /** A plain name is kept as it is, and a theory marker after it is removed. */
  lemma CleanRoomOfName(name: string)
    requires PlainName(name)
    ensures CleanRoom(name) == name
    ensures CleanRoom(name + " (TH)") == name
  {
    forall i | 0 <= i < |name|
      ensures name[i] != ' '
    {
      assert !IsSpace(name[i]);
    }
    RemoveAllMissing(name, " (TH)");
    RemoveAllMissing(name, "(TH)");
    RemoveAllTrailing(name, " (TH)");
    PlainNameStrip(name);
  }

  /** Lines 465-476: the rooms a class's room string occupies; a string with commas
      lists several rooms. */
  function UsedNames(room: string): seq<string> {
    if ',' in room then ListedNames(Split(room, ','))
    else [CleanRoom(room)]
  }

  /** The cleaned rooms of a comma-separated list. */
  function ListedNames(parts: seq<string>): (r: seq<string>)
    ensures |r| == |parts|
  {
    seq(|parts|, k requires 0 <= k < |parts| => CleanRoom(Strip(parts[k])))
  }

  /** A plain room name occupies itself alone; with a theory marker too. */
  lemma UsedNamesOfName(name: string)
    requires PlainName(name)
    ensures UsedNames(name) == [name]
    ensures UsedNames(name + " (TH)") == [name]
  {
    CleanRoomOfName(name);
    var marked := name + " (TH)";
    forall i | 0 <= i < |marked|
      ensures marked[i] != ','
    {
      if i < |name| {
        assert marked[i] == name[i];
      }
    }
  }

  datatype ClassInfo = ClassInfo(
    teacher: string,
    teachersList: Option<seq<string>>,
    kind: string,
    room: string,
    isContinuation: bool)

  /** One class of `master_schedule[day][slot]`. */
  datatype Placement = Placement(day: Grid.Day, slot: Grid.Hour, info: ClassInfo)

  function SetOf(xs: seq<string>): set<string> {
    set x | x in xs
  }

  /** `room_usage[(day, slot)]`: every room some class at that slot occupies. */
  function UsedAt(schedule: seq<Placement>, day: Grid.Day, slot: Grid.Hour): set<string>
    decreases |schedule|
  {
    if schedule == [] then {}
    else
      var last := schedule[|schedule| - 1];
      UsedAt(schedule[..|schedule| - 1], day, slot)
        + (if last.day == day && last.slot == slot then SetOf(UsedNames(last.info.room)) else {})
  }

  /** Class `p` sits at (`day`, `slot`) and occupies `room`. */
  predicate Occupies(p: Placement, day: Grid.Day, slot: Grid.Hour, room: string) {
    p.day == day && p.slot == slot && room in UsedNames(p.info.room)
  }

  /** A room is in use at a slot exactly when some class there occupies it. */
  lemma {:induction false} UsedAtMember(schedule: seq<Placement>, day: Grid.Day, slot: Grid.Hour, room: string)
    ensures room in UsedAt(schedule, day, slot) <==>
      exists k :: 0 <= k < |schedule| && Occupies(schedule[k], day, slot, room)
    decreases |schedule|
  {
    if schedule != [] {
      var n := |schedule| - 1;
      var init := schedule[..n];
      UsedAtMember(init, day, slot, room);
      assert forall k :: 0 <= k < n ==> init[k] == schedule[k];
      if room in UsedAt(init, day, slot) {
        var k :| 0 <= k < n && Occupies(init[k], day, slot, room);
        assert Occupies(schedule[k], day, slot, room);
      } else if Occupies(schedule[n], day, slot, room) {
        assert room in SetOf(UsedNames(schedule[n].info.room));
      } else {
        assert room !in UsedAt(schedule, day, slot);
        forall k | 0 <= k < |schedule|
          ensures !Occupies(schedule[k], day, slot, room)
        {
          if k < n {
            assert !Occupies(init[k], day, slot, room);
          }
        }
      }
    }
  }

  /** The rooms of `rooms`, in order, that are not in `used`. */
  function FreeRooms(rooms: seq<(string, nat)>, used: set<string>): (r: seq<(string, nat)>)
    ensures forall x :: x in r <==> x in rooms && x.0 !in used
    ensures |r| <= |rooms|
  {
    if rooms == [] then []
    else (if rooms[0].0 in used then [] else [rooms[0]]) + FreeRooms(rooms[1..], used)
  }

  /** "room (capacity)". */
  function RoomLabel(x: (string, nat)): string {
    x.0 + " (" + NatToString(x.1) + ")"
  }

  function Labels(rooms: seq<(string, nat)>): (r: seq<string>)
    ensures |r| == |rooms|
  {
    seq(|rooms|, k requires 0 <= k < |rooms| => RoomLabel(rooms[k]))
  }

  const MaxListed: nat := 15

  /** The last line of a cell with more free rooms than it lists. */
  function MoreText(m: nat): string {
    "... +" + NatToString(m) + " more"
  }

  /** Lines 491-498: the text of one cell. */
  function FreeCell(labels: seq<string>): string {
    if labels == [] then "All rooms\noccupied"
    else if |labels| > MaxListed then
      Join(labels[..MaxListed], '\n') + "\n" + MoreText(|labels| - MaxListed)
    else Join(labels, '\n')
  }

  /** The lines a non-empty cell shows: the first 15 labels, then a count of the rest. */
  function Shown(labels: seq<string>): seq<string> {
    if |labels| > MaxListed then labels[..MaxListed] + [MoreText(|labels| - MaxListed)]
    else labels
  }

  /** A cell with free rooms lists at most 15 of them, one per line, then
      "... +N more" with N the number left out; with none it says all are occupied. */
  lemma FreeCellLines(labels: seq<string>)
    requires forall k :: 0 <= k < |labels| ==> '\n' !in labels[k]
    ensures labels == [] ==> FreeCell(labels) == "All rooms\noccupied"
    ensures labels != [] ==> Split(FreeCell(labels), '\n') == Shown(labels)
    ensures |Shown(labels)| <= MaxListed + 1
  {
    if |labels| > MaxListed {
      FreeCellLong(labels);
    } else if labels != [] {
      SplitJoin(labels, '\n');
    }
  }

  /** The count line holds no line break. */
  lemma MoreLine(m: nat)
    ensures '\n' !in MoreText(m)
  {
    var n := NatToString(m);
    var more := MoreText(m);
    forall i | 0 <= i < |more|
      ensures more[i] != '\n'
    {
      if 5 <= i < 5 + |n| {
        assert more[i] == n[i - 5];
        assert IsDigit(n[i - 5]);
      }
    }
  }

  lemma FreeCellLong(labels: seq<string>)
    requires forall k :: 0 <= k < |labels| ==> '\n' !in labels[k]
    requires |labels| > MaxListed
    ensures Split(FreeCell(labels), '\n') == Shown(labels)
  {
    var more := MoreText(|labels| - MaxListed);
    MoreLine(|labels| - MaxListed);
    var parts := labels[..MaxListed] + [more];
    assert forall k :: 0 <= k < |parts| ==> '\n' !in parts[k] by {
      forall k | 0 <= k < |parts|
        ensures '\n' !in parts[k]
      {
        if k < MaxListed {
          assert parts[k] == labels[k];
        }
      }
    }
    JoinSnoc(labels[..MaxListed], more, '\n');
    assert FreeCell(labels) == Join(parts, '\n');
    SplitJoin(parts, '\n');
  }

  /** One row of the free-rooms table: a day and a cell per slot. */
  datatype Row = Row(day: Grid.Day, cells: seq<string>)

  /** Lines 444-447: each room with its `capacity_max`. */
  function Capacities(table: seq<(string, ConfigV2.RoomInfo)>): (r: seq<(string, nat)>)
    ensures |r| == |table|
  {
    seq(|table|, k requires 0 <= k < |table| => (table[k].0, table[k].1.capacityMax))
  }

  /** The cell listing the rooms of `rooms` not in `used`. */
  function CellFor(rooms: seq<(string, nat)>, used: set<string>): string {
    FreeCell(Labels(FreeRooms(rooms, used)))
  }

  /** The cell for a slot: the sorted rooms not in use there. */
  function CellAt(table: seq<(string, ConfigV2.RoomInfo)>, schedule: seq<Placement>, day: Grid.Day, slot: Grid.Hour): string {
    CellFor(SortedRooms(Capacities(table)), UsedAt(schedule, day, slot))
  }

  /** `room_usage.get((day, slot), set())`. */
  function Used(usage: map<(Grid.Day, Grid.Hour), set<string>>, day: Grid.Day, slot: Grid.Hour): set<string> {
    if (day, slot) in usage then usage[(day, slot)] else {}
  }

  /** Lines 444-447: each room of the table with its `capacity_max`. */
  method AllRooms(table: seq<(string, ConfigV2.RoomInfo)>) returns (rooms: seq<(string, nat)>)
    ensures rooms == Capacities(table)
  {
    rooms := [];
    for k := 0 to |table|
      invariant rooms == Capacities(table[..k])
    {
      rooms := rooms + [(table[k].0, table[k].1.capacityMax)];
    }
    assert table[..|table|] == table;
  }

  /** Lines 455-476: record the rooms of every class at the listed days and slots. */
  method CollectUsage(schedule: seq<Placement>, days: seq<Grid.Day>, slots: seq<Grid.Hour>)
    returns (usage: map<(Grid.Day, Grid.Hour), set<string>>)
    ensures forall d, h :: d in days && h in slots ==> Used(usage, d, h) == UsedAt(schedule, d, h)
  {
    usage := map[];
    for k := 0 to |schedule|
      invariant forall d, h :: d in days && h in slots ==> Used(usage, d, h) == UsedAt(schedule[..k], d, h)
    {
      var p := schedule[k];
      assert schedule[..k + 1][..k] == schedule[..k];
      if p.day in days && p.slot in slots {
        usage := usage[(p.day, p.slot) := Used(usage, p.day, p.slot) + SetOf(UsedNames(p.info.room))];
      }
    }
    assert schedule[..|schedule|] == schedule;
  }

  /** Lines 483-500: one day's row, a cell per slot; `usage` agrees with the schedule
      on this day's slots and `sorted` is the table's rooms in key order. */
  method FreeRoomsRow(sorted: seq<(string, nat)>, usage: map<(Grid.Day, Grid.Hour), set<string>>,
                      day: Grid.Day, slots: seq<Grid.Hour>,
                      ghost table: seq<(string, ConfigV2.RoomInfo)>, ghost schedule: seq<Placement>)
    returns (cells: seq<string>)
    requires sorted == SortedRooms(Capacities(table))
    requires forall h :: h in slots ==> Used(usage, day, h) == UsedAt(schedule, day, h)
    ensures |cells| == |slots|
    ensures forall j :: 0 <= j < |slots| ==> cells[j] == CellAt(table, schedule, day, slots[j])
  {
    cells := [];
    for j := 0 to |slots|
      invariant |cells| == j
      invariant forall j' :: 0 <= j' < j ==> cells[j'] == CellAt(table, schedule, day, slots[j'])
    {
      assert slots[j] in slots;
      var free := FreeRooms(sorted, Used(usage, day, slots[j]));
      cells := cells + [FreeCell(Labels(free))];
    }
  }

  /** `_build_free_rooms_grid` without the header row: for every day a row, and in it
      for every slot the rooms free there, in key order. */
  method FreeRoomsGrid(table: seq<(string, ConfigV2.RoomInfo)>, days: seq<Grid.Day>, slots: seq<Grid.Hour>,
                       schedule: seq<Placement>) returns (rows: seq<Row>)
    ensures |rows| == |days|
    ensures forall i :: 0 <= i < |days| ==> rows[i].day == days[i] && |rows[i].cells| == |slots|
    ensures forall i, j :: 0 <= i < |days| && 0 <= j < |slots| ==>
      rows[i].cells[j] == CellAt(table, schedule, days[i], slots[j])
  {
    var rooms := AllRooms(table);
    var sorted := SortedRooms(rooms);
    var usage := CollectUsage(schedule, days, slots);
    rows := [];
    for i := 0 to |days|
      invariant |rows| == i
      invariant forall i' :: 0 <= i' < i ==> rows[i'].day == days[i'] && |rows[i'].cells| == |slots|
      invariant forall i', j :: 0 <= i' < i && 0 <= j < |slots| ==>
        rows[i'].cells[j] == CellAt(table, schedule, days[i'], slots[j])
    {
      assert days[i] in days;
      var cells := FreeRoomsRow(sorted, usage, days[i], slots, table, schedule);
      rows := rows + [Row(days[i], cells)];
    }
  }

  // ---------------------------------------------------------------------------
  // Lines 255-284 and 506-526: a teacher's classes.

  /** `class_info.get('teachers_list', [class_info['teacher']])`. */
  function TeachersOf(c: ClassInfo): seq<string> {
    if c.teachersList.Some? then c.teachersList.value else [c.teacher]
  }

  /** The hours a class adds to a teacher's total: none unless the teacher is among
      its teachers and it is not the second hour of a practical; a practical adds 2,
      anything else 1. */
  function Credit(teacher: string, c: ClassInfo): nat {
    if teacher !in TeachersOf(c) || c.isContinuation then 0
    else if c.kind == "Practical" then 2
    else 1
  }

  /** The classes a teacher is credited with. */
  predicate Teaches(teacher: string, c: ClassInfo) {
    teacher in TeachersOf(c) && !c.isContinuation
  }

  /** A teacher's total over the schedule. */
  function Hours(teacher: string, schedule: seq<Placement>): nat
    decreases |schedule|
  {
    if schedule == [] then 0
    else Hours(teacher, schedule[..|schedule| - 1]) + Credit(teacher, schedule[|schedule| - 1].info)
  }

  /** How many classes a teacher is credited with. */
  function Taught(teacher: string, schedule: seq<Placement>): nat
    decreases |schedule|
  {
    if schedule == [] then 0
    else Taught(teacher, schedule[..|schedule| - 1]) + (if Teaches(teacher, schedule[|schedule| - 1].info) then 1 else 0)
  }

  /** Every credited class counts one or two hours, and nothing else counts. */
  lemma {:induction false} HoursBounds(teacher: string, schedule: seq<Placement>)
    ensures Taught(teacher, schedule) <= Hours(teacher, schedule) <= 2 * Taught(teacher, schedule)
    decreases |schedule|
  {
    if schedule != [] {
      HoursBounds(teacher, schedule[..|schedule| - 1]);
    }
  }

  /** `_calculate_teacher_hours`. */
  method CalculateTeacherHours(schedule: seq<Placement>, teacher: string) returns (total: nat)
    ensures total == Hours(teacher, schedule)
  {
    total := 0;
    for k := 0 to |schedule|
      invariant total == Hours(teacher, schedule[..k])
    {
      assert schedule[..k + 1][..k] == schedule[..k];
      var c := schedule[k].info;
      var teachers := if c.teachersList.Some? then c.teachersList.value else [c.teacher];
      if teacher in teachers {
        if c.isContinuation {
          continue;
        }
        if c.kind == "Practical" {
          total := total + 2;
        } else {
          total := total + 1;
        }
      }
    }
    assert schedule[..|schedule|] == schedule;
  }

  /** `master_schedule[day][slot]`: the classes placed there, in order. */
  function ClassesAt(schedule: seq<Placement>, day: Grid.Day, slot: Grid.Hour): (r: seq<ClassInfo>)
    ensures forall c :: c in r <==> exists k :: 0 <= k < |schedule| && schedule[k] == Placement(day, slot, c)
  {
    if schedule == [] then []
    else
      (if schedule[0].day == day && schedule[0].slot == slot then [schedule[0].info] else [])
      + ClassesAt(schedule[1..], day, slot)
  }

  datatype Role = Main | Assistant

  /** The teacher heads the class's teacher list. */
  predicate ListedFirst(teacher: string, c: ClassInfo) {
    TeachersOf(c) != [] && TeachersOf(c)[0] == teacher
  }

  /** Lines 255-270: the classes of one cell a teacher's grid shows, each with the
      teacher's role: classes the teacher is not in, and continuation entries, are
      skipped; the teacher is Main exactly when listed first. */
  function CellRoles(teacher: string, classes: seq<ClassInfo>): (r: seq<(ClassInfo, Role)>)
    ensures forall k :: 0 <= k < |r| ==> r[k].0 in classes && Teaches(teacher, r[k].0)
    ensures forall k :: 0 <= k < |r| ==> (r[k].1 == Main <==> ListedFirst(teacher, r[k].0))
    ensures forall c :: c in classes && Teaches(teacher, c) ==> exists k :: 0 <= k < |r| && r[k].0 == c
  {
    if classes == [] then []
    else
      var c := classes[0];
      var rest := CellRoles(teacher, classes[1..]);
      assert forall x :: x in classes ==> x == c || x in classes[1..];
      if Teaches(teacher, c) then
        var r := [(c, if TeachersOf(c)[0] == teacher then Main else Assistant)] + rest;
        assert r[0].0 == c;
        assert forall k :: 0 <= k < |rest| ==> r[k + 1] == rest[k];
        r
      else rest
  }

  // ---------------------------------------------------------------------------
  // Lines 554-570: `_get_fixed_slots_info`.

  /** `s` contains `part` as a substring (Python's `part in s`). */
  predicate Contains(s: string, part: string) {
    exists i :: 0 <= i <= |s| - |part| && OccursAt(s, part, i)
  }

  predicate OccursAt(s: string, part: string, i: int) {
    0 <= i <= |s| - |part| && s[i..i + |part|] == part
  }

  /** The label of a slot after `ty` claims it: the type itself when unclaimed, and
      otherwise "/ty" appended unless the label already contains it. */
  function Claim(current: Option<string>, ty: string): string {
    match current
    case None => ty
    case Some(l) => if Contains(l, ty) then l else l + "/" + ty
  }

  /** Every claim names a grid index within `slots`. */
  predicate InRange(claims: seq<(string, nat)>, n: nat) {
    forall k :: 0 <= k < |claims| ==> claims[k].1 < n
  }

  /** The labels after the claims, in order. */
  function FixedInfoOf(claims: seq<(string, nat)>, slots: seq<(Grid.Day, Grid.Hour)>): map<(Grid.Day, Grid.Hour), string>
    requires InRange(claims, |slots|)
    decreases |claims|
  {
    if claims == [] then map[]
    else
      var info := FixedInfoOf(claims[..|claims| - 1], slots);
      var last := claims[|claims| - 1];
      var key := slots[last.1];
      info[key := Claim(if key in info then Some(info[key]) else None, last.0)]
  }

  /** The claims a type makes: each of its indices, tagged with the type. */
  function Tagged(ty: string, indices: seq<nat>): (r: seq<(string, nat)>)
    ensures |r| == |indices|
  {
    seq(|indices|, k requires 0 <= k < |indices| => (ty, indices[k]))
  }

  /** The reserved indices of each fixed-slot type in a semester. */
  function IndicesFor(semester: int): string -> seq<nat> {
    ty => ConfigV2.FixedSlotIndices(ty, Some(semester))
  }

  /** The claims of the types, type by type, each type's indices given by `indicesOf`. */
  function ClaimsFor(types: seq<string>, indicesOf: string -> seq<nat>): seq<(string, nat)>
    decreases |types|
  {
    if types == [] then []
    else
      var ty := types[|types| - 1];
      ClaimsFor(types[..|types| - 1], indicesOf) + Tagged(ty, indicesOf(ty))
  }

  lemma ClaimsForStep(types: seq<string>, indicesOf: string -> seq<nat>, i: nat)
    requires i < |types|
    ensures ClaimsFor(types[..i + 1], indicesOf) == ClaimsFor(types[..i], indicesOf) + Tagged(types[i], indicesOf(types[i]))
  {
    assert types[..i + 1][..i] == types[..i];
  }

  lemma {:induction false} ClaimsForInRange(types: seq<string>, semester: int)
    ensures InRange(ClaimsFor(types, IndicesFor(semester)), Grid.SlotCount)
    decreases |types|
  {
    if types != [] {
      var ty := types[|types| - 1];
      var init := ClaimsFor(types[..|types| - 1], IndicesFor(semester));
      var indices := IndicesFor(semester)(ty);
      ClaimsForInRange(types[..|types| - 1], semester);
      FixedSlotTables.IndicesOfBounded(ConfigV2.FixedSlots, ConfigV2.FixedSlotKeys(ty, Some(semester)));
      assert indices == ConfigV2.FixedSlotIndices(ty, Some(semester));
      assert forall j :: 0 <= j < |indices| ==> indices[j] in indices;
      InRangeTagged(init, ty, indices, Grid.SlotCount);
    }
  }

  /** The slots some claim names are exactly the labelled ones. */
  lemma {:induction false} FixedInfoKeys(claims: seq<(string, nat)>, slots: seq<(Grid.Day, Grid.Hour)>, key: (Grid.Day, Grid.Hour))
    requires InRange(claims, |slots|)
    ensures key in FixedInfoOf(claims, slots) <==> exists k :: 0 <= k < |claims| && slots[claims[k].1] == key
    decreases |claims|
  {
    if claims != [] {
      var init := claims[..|claims| - 1];
      FixedInfoKeys(init, slots, key);
      if exists k :: 0 <= k < |claims| && slots[claims[k].1] == key {
        var k :| 0 <= k < |claims| && slots[claims[k].1] == key;
        if k < |init| {
          assert init[k] == claims[k];
        }
      }
      if exists k :: 0 <= k < |init| && slots[init[k].1] == key {
        var k :| 0 <= k < |init| && slots[init[k].1] == key;
        assert claims[k] == init[k];
      }
    }
  }

  lemma ContainsWhole(s: string)
    ensures Contains(s, s)
  {
    assert s[0..|s|] == s;
    assert OccursAt(s, s, 0);
  }

  lemma ContainsExtended(l: string, ty: string, part: string)
    requires Contains(l, part)
    ensures Contains(l + "/" + ty, part)
  {
    var i :| 0 <= i <= |l| - |part| && OccursAt(l, part, i);
    assert (l + "/" + ty)[i..i + |part|] == part;
    assert OccursAt(l + "/" + ty, part, i);
  }

  lemma ContainsAppended(l: string, ty: string)
    ensures Contains(l + "/" + ty, ty)
  {
    var s := l + "/" + ty;
    assert s[|l| + 1..|l| + 1 + |ty|] == ty;
    assert OccursAt(s, ty, |l| + 1);
  }

  /** A claimed label names every type that claimed its slot. */
  lemma {:induction false} FixedInfoNamesClaimers(claims: seq<(string, nat)>, slots: seq<(Grid.Day, Grid.Hour)>, k: nat)
    requires InRange(claims, |slots|) && k < |claims|
    ensures slots[claims[k].1] in FixedInfoOf(claims, slots)
    ensures Contains(FixedInfoOf(claims, slots)[slots[claims[k].1]], claims[k].0)
    decreases |claims|
  {
    var init := claims[..|claims| - 1];
    var last := claims[|claims| - 1];
    var info := FixedInfoOf(init, slots);
    var key := slots[last.1];
    if k == |claims| - 1 {
      if key in info {
        if !Contains(info[key], last.0) {
          ContainsAppended(info[key], last.0);
        }
      } else {
        ContainsWhole(last.0);
      }
    } else {
      assert init[k] == claims[k];
      FixedInfoNamesClaimers(init, slots, k);
      var key' := slots[claims[k].1];
      if key' == key && !Contains(info[key], last.0) {
        ContainsExtended(info[key], last.0, claims[k].0);
      }
    }
  }

  /** The first type to claim a slot starts its label. */
  lemma {:induction false} FixedInfoFirstClaimer(claims: seq<(string, nat)>, slots: seq<(Grid.Day, Grid.Hour)>, k: nat)
    requires InRange(claims, |slots|) && k < |claims|
    requires forall j :: 0 <= j < k ==> slots[claims[j].1] != slots[claims[k].1]
    ensures slots[claims[k].1] in FixedInfoOf(claims, slots)
    ensures claims[k].0 <= FixedInfoOf(claims, slots)[slots[claims[k].1]]
    decreases |claims|
  {
    var init := claims[..|claims| - 1];
    var last := claims[|claims| - 1];
    var info := FixedInfoOf(init, slots);
    var key := slots[last.1];
    if k == |claims| - 1 {
      assert forall j :: 0 <= j < |init| ==> init[j] == claims[j];
      FixedInfoKeys(init, slots, key);
    } else {
      assert init[k] == claims[k];
      assert forall j :: 0 <= j < k ==> init[j] == claims[j];
      FixedInfoFirstClaimer(init, slots, k);
    }
  }

  lemma InRangeTagged(done: seq<(string, nat)>, ty: string, indices: seq<nat>, n: nat)
    requires InRange(done, n)
    requires forall j :: 0 <= j < |indices| ==> indices[j] < n
    ensures InRange(done + Tagged(ty, indices), n)
  {
    var claims := done + Tagged(ty, indices);
    forall k | 0 <= k < |claims|
      ensures claims[k].1 < n
    {
      if k >= |done| {
        assert claims[k] == (ty, indices[k - |done|]);
      }
    }
  }

  /** Claiming one more slot updates only that slot's label. */
  lemma FixedInfoSnoc(claims: seq<(string, nat)>, c: (string, nat), slots: seq<(Grid.Day, Grid.Hour)>)
    requires InRange(claims + [c], |slots|)
    ensures InRange(claims, |slots|) && c.1 < |slots|
    ensures var info := FixedInfoOf(claims, slots);
            var key := slots[c.1];
            FixedInfoOf(claims + [c], slots) == info[key := Claim(if key in info then Some(info[key]) else None, c.0)]
  {
    assert (claims + [c])[..|claims|] == claims;
    assert forall k :: 0 <= k < |claims| ==> claims[k] == (claims + [c])[k];
    assert (claims + [c])[|claims|] == c;
  }

  lemma TaggedSnoc(ty: string, indices: seq<nat>, j: nat)
    requires j < |indices|
    ensures Tagged(ty, indices[..j + 1]) == Tagged(ty, indices[..j]) + [(ty, indices[j])]
  {
  }

  /** Lines 563-569: one type claims each of its slots in turn. */
  method ClaimSlots(info0: map<(Grid.Day, Grid.Hour), string>, ghost done: seq<(string, nat)>, ty: string,
                    indices: seq<nat>, slots: seq<(Grid.Day, Grid.Hour)>)
    returns (info: map<(Grid.Day, Grid.Hour), string>)
    requires InRange(done, |slots|)
    requires forall j :: 0 <= j < |indices| ==> indices[j] < |slots|
    requires info0 == FixedInfoOf(done, slots)
    ensures InRange(done + Tagged(ty, indices), |slots|)
    ensures info == FixedInfoOf(done + Tagged(ty, indices), slots)
  {
    info := info0;
    InRangeTagged(done, ty, [], |slots|);
    assert done + Tagged(ty, indices[..0]) == done;
    for j := 0 to |indices|
      invariant InRange(done + Tagged(ty, indices[..j]), |slots|)
      invariant info == FixedInfoOf(done + Tagged(ty, indices[..j]), slots)
    {
      InRangeTagged(done, ty, indices[..j + 1], |slots|);
      TaggedSnoc(ty, indices, j);
      assert done + Tagged(ty, indices[..j + 1]) == (done + Tagged(ty, indices[..j])) + [(ty, indices[j])];
      FixedInfoSnoc(done + Tagged(ty, indices[..j]), (ty, indices[j]), slots);
      var key := slots[indices[j]];
      if key !in info {
        info := info[key := ty];
      } else if !Contains(info[key], ty) {
        info := info[key := info[key] + "/" + ty];
      } else {
        assert info[key := info[key]] == info;
      }
    }
    assert indices[..|indices|] == indices;
  }

  /** Lines 559-568 over the grid `slots`: each type of `types` claims its slots. */
  method ClaimTypes(types: seq<string>, semester: int, slots: seq<(Grid.Day, Grid.Hour)>)
    returns (info: map<(Grid.Day, Grid.Hour), string>)
    requires |slots| == Grid.SlotCount
    ensures InRange(ClaimsFor(types, IndicesFor(semester)), |slots|)
    ensures info == FixedInfoOf(ClaimsFor(types, IndicesFor(semester)), slots)
  {
    ghost var indicesOf := IndicesFor(semester);
    ClaimsForInRange(types, semester);
    ClaimsForInRange(types[..0], semester);
    info := map[];
    for i := 0 to |types|
      invariant InRange(ClaimsFor(types[..i], indicesOf), |slots|)
      invariant info == FixedInfoOf(ClaimsFor(types[..i], indicesOf), slots)
    {
      var ty := types[i];
      var indices := ConfigV2.GetFixedSlotIndices(ty, Some(semester));
      assert indices == indicesOf(ty);
      assert forall j :: 0 <= j < |indices| ==> indices[j] in indices;
      ClaimsForInRange(types[..i + 1], semester);
      ClaimsForStep(types, indicesOf, i);
      info := ClaimSlots(info, ClaimsFor(types[..i], indicesOf), ty, indices, slots);
    }
    assert types[..|types|] == types;
  }

  /** `_get_fixed_slots_info(semester)`. */
  method GetFixedSlotsInfo(semester: int) returns (info: map<(Grid.Day, Grid.Hour), string>)
    ensures InRange(ClaimsFor(Grid.FixedSlotTypesForSemester(semester), IndicesFor(semester)), |Grid.TimeSlots()|)
    ensures info == FixedInfoOf(ClaimsFor(Grid.FixedSlotTypesForSemester(semester), IndicesFor(semester)), Grid.TimeSlots())
  {
    info := ClaimTypes(Grid.FixedSlotTypesForSemester(semester), semester, Grid.TimeSlots());
  }
}

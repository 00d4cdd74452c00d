// The `room_usage` ledger that both solver generations fill while numbering rooms:
// for each slot index and room type, the room numbers handed out so far, in order.

module RoomUsage {
  import opened Wrappers
  import opened Records

  type Usage = map<nat, map<string, seq<nat>>>

  /** First fit from `n`: the smallest number in `n..total` that `used` lacks. */
  function FreeFrom(used: seq<nat>, n: nat, total: nat): (r: Option<nat>)
    ensures r.Some? ==> n <= r.value <= total && r.value !in used
    ensures r.Some? ==> forall m :: n <= m < r.value ==> m in used
    ensures r.None? ==> forall m :: n <= m <= total ==> m in used
    decreases total + 1 - n
  {
    if n > total then None
    else if n !in used then Some(n)
    else FreeFrom(used, n + 1, total)
  }

  /** The room `range(1, total + 1)` first-fit picks, if any is left. */
  function FirstFree(used: seq<nat>, total: nat): (r: Option<nat>)
    ensures r.Some? ==> 1 <= r.value <= total && r.value !in used
    ensures r.Some? ==> forall m :: 1 <= m < r.value ==> m in used
    ensures r.None? <==> forall m :: 1 <= m <= total ==> m in used
  {
    FreeFrom(used, 1, total)
  }

  /** The numbers handed out at slot `t` for `roomType` (none when the entry is missing). */
  function RoomsOf(u: Usage, t: nat, roomType: string): seq<nat> {
    if t in u && roomType in u[t] then u[t][roomType] else []
  }

  /** `u` with the list at (`t`, `roomType`) replaced by `rooms`, creating the slot's
      entry when it is missing. */
  function Recorded(u: Usage, t: nat, roomType: string, rooms: seq<nat>): Usage {
    var row := if t in u then u[t] else map[];
    u[t := row[roomType := rooms]]
  }

  /** Lines 421-424 of the solver: the entries for (`t`, `roomType`) exist, holding
      what they held before. */
  function Opened(u: Usage, t: nat, roomType: string): Usage {
    Recorded(u, t, roomType, RoomsOf(u, t, roomType))
  }

  /** The ledger after first-fit at (`t`, `roomType`) with `total` rooms. */
  function Taken(u: Usage, t: nat, roomType: string, total: nat): Usage {
    var before := RoomsOf(u, t, roomType);
    match FirstFree(before, total)
      case Some(n) => Recorded(u, t, roomType, before + [n])
      case None => Opened(u, t, roomType)
  }

  /** The number first-fit answers: the free room, or `total` when all are in use. */
  function Answer(u: Usage, t: nat, roomType: string, total: nat): nat {
    match FirstFree(RoomsOf(u, t, roomType), total)
      case Some(n) => n
      case None => total
  }

  /** Recording touches only its own list. */
  lemma RecordedRooms(u: Usage, t: nat, roomType: string, rooms: seq<nat>, t2: nat, roomType2: string)
    ensures RoomsOf(Recorded(u, t, roomType, rooms), t2, roomType2) ==
      if t2 == t && roomType2 == roomType then rooms else RoomsOf(u, t2, roomType2)
  {
  }

  /** A second recording at the same place replaces the first. */
  lemma RecordedTwice(u: Usage, t: nat, roomType: string, a: seq<nat>, b: seq<nat>)
    ensures Recorded(Recorded(u, t, roomType, a), t, roomType, b) == Recorded(u, t, roomType, b)
  {
    var row := if t in u then u[t] else map[];
    assert row[roomType := a][roomType := b] == row[roomType := b];
  }

  /** No list in the ledger repeats a number. */
  predicate NoRepeats(u: Usage) {
    forall t, roomType :: t in u && roomType in u[t] ==> Distinct(u[t][roomType])
  }

  /** Every number in the ledger is a room number, 1 or more. */
  predicate Positive(u: Usage) {
    forall t, roomType, i :: t in u && roomType in u[t] && 0 <= i < |u[t][roomType]| ==> u[t][roomType][i] >= 1
  }

  /** A room handed out while one is free is new at its slot and type, and it is
      appended to that slot's list for the type. */
  lemma TakenFresh(u: Usage, t: nat, roomType: string, total: nat)
    requires FirstFree(RoomsOf(u, t, roomType), total).Some?
    ensures Answer(u, t, roomType, total) !in RoomsOf(u, t, roomType)
    ensures RoomsOf(Taken(u, t, roomType, total), t, roomType) == RoomsOf(u, t, roomType) + [Answer(u, t, roomType, total)]
  {
    var before := RoomsOf(u, t, roomType);
    RecordedRooms(u, t, roomType, before + [FirstFree(before, total).value], t, roomType);
  }

  /** Taking a room keeps the ledger free of repeats and of numbers below 1, so no
      two classes of one slot and type share a number while rooms remain. */
  lemma TakenKeepsInvariants(u: Usage, t: nat, roomType: string, total: nat)
    requires NoRepeats(u) && Positive(u)
    ensures NoRepeats(Taken(u, t, roomType, total)) && Positive(Taken(u, t, roomType, total))
  {
    var before := RoomsOf(u, t, roomType);
    var after := Taken(u, t, roomType, total);
    match FirstFree(before, total)
    case Some(n) =>
      assert after == Recorded(u, t, roomType, before + [n]);
      var rooms := before + [n];
      assert Distinct(rooms) by {
        forall i, j | 0 <= i < j < |rooms|
          ensures rooms[i] != rooms[j]
        {
          if j == |before| {
            assert rooms[i] == before[i];
          }
        }
      }
      forall t2, rt2 | t2 in after && rt2 in after[t2]
        ensures Distinct(after[t2][rt2])
      {
        RecordedRooms(u, t, roomType, rooms, t2, rt2);
      }
      forall t2, rt2, i | t2 in after && rt2 in after[t2] && 0 <= i < |after[t2][rt2]|
        ensures after[t2][rt2][i] >= 1
      {
        RecordedRooms(u, t, roomType, rooms, t2, rt2);
      }
    case None =>
      assert after == Recorded(u, t, roomType, before);
      forall t2, rt2 | t2 in after && rt2 in after[t2]
        ensures Distinct(after[t2][rt2])
      {
        RecordedRooms(u, t, roomType, before, t2, rt2);
      }
      forall t2, rt2, i | t2 in after && rt2 in after[t2] && 0 <= i < |after[t2][rt2]|
        ensures after[t2][rt2][i] >= 1
      {
        RecordedRooms(u, t, roomType, before, t2, rt2);
      }
  }

  /** `room_usage` as a mutable ledger. */
  class Ledger {
    var used: Usage

    constructor()
      ensures used == map[]
    {
      used := map[];
    }

    function Rooms(t: nat, roomType: string): seq<nat>
      reads this
    {
      RoomsOf(used, t, roomType)
    }

    /** Lines 421-424: create the slot's dictionary and the type's list when missing. */
    method Open(t: nat, roomType: string)
      modifies this
      ensures used == Opened(old(used), t, roomType)
    {
      if t !in used {
        used := used[t := map[]];
      }
      if roomType !in used[t] {
        used := used[t := used[t][roomType := []]];
      } else {
        assert used[t][roomType := used[t][roomType]] == used[t];
        assert used[t := used[t]] == used;
      }
    }

    /** Lines 433-442: hand out the first room in `1..total` not yet used at this slot
        for this type and record it; when all are used, answer `total` and record
        nothing. */
    method Take(t: nat, roomType: string, total: nat) returns (room: nat)
      modifies this
      ensures room == Answer(old(used), t, roomType, total)
      ensures used == Taken(old(used), t, roomType, total)
    {
      Open(t, roomType);
      var rooms := used[t][roomType];
      assert rooms == RoomsOf(old(used), t, roomType);
      var n := 1;
      while n <= total
        invariant 1 <= n <= total + 1
        invariant used == Opened(old(used), t, roomType)
        invariant FreeFrom(rooms, 1, total) == FreeFrom(rooms, n, total)
        decreases total + 1 - n
      {
        if n !in rooms {
          RecordedTwice(old(used), t, roomType, rooms, rooms + [n]);
          used := used[t := used[t][roomType := rooms + [n]]];
          return n;
        }
        n := n + 1;
      }
      return total;
    }
  }
}

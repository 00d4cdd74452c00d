/**
 * A fixed-slot table maps a key such as "GE" or "SEC_YEAR1_SAT" to the hours
 * and days reserved for it; both generations of the configuration turn a
 * list of keys into the indices of the reserved slots of the weekly grid in
 * the same way: for each key present in the table, every grid index (in
 * grid order) whose day and hour the entry lists.
 */
module FixedSlotTables {
  import opened Grid

  datatype FixedSlot = FixedSlot(hours: seq<Hour>, days: seq<Day>)

  type Table = map<string, FixedSlot>

  /** Grid index `i` lies on one of the entry's days at one of its hours. */
  predicate Matches(e: FixedSlot, i: nat)
    requires i < SlotCount
  {
    Days[DayOf(i)] in e.days && HourOf(i) in e.hours
  }

  /** The same test, made on the (day, hour) pair `get_time_slots` lists at `i`. */
  lemma MatchesAt(e: FixedSlot, i: nat)
    requires i < SlotCount
    ensures Matches(e, i) == (TimeSlots()[i].0 in e.days && TimeSlots()[i].1 in e.hours)
  {
    TimeSlotAt(i);
  }

  /** The entry reserves hour `h` on the weekday at position `d`. */
  predicate Covers(e: FixedSlot, d: nat, h: Hour) {
    d < 6 && Days[d] in e.days && h in e.hours
  }

  /** Membership in an entry's indices, read off the grid position. */
  lemma EntryMember(e: FixedSlot, i: nat)
    ensures i in EntryIndices(e) <==> i < SlotCount && Covers(e, DayOf(i), HourOf(i))
  {
    if i < SlotCount {
      GridIndex(i);
    }
  }

  /** Indices below `n` whose slot the entry reserves, in increasing order. */
  function EntryIndicesBelow(e: FixedSlot, n: nat): (r: seq<nat>)
    requires n <= SlotCount
    ensures forall i: nat :: i in r <==> i < n && Matches(e, i)
    ensures forall a, b :: 0 <= a < b < |r| ==> r[a] < r[b]
  {
    if n == 0 then []
    else
      var prev := EntryIndicesBelow(e, n - 1);
      if Matches(e, n - 1) then
        AppendGreater(prev, n - 1);
        prev + [n - 1]
      else prev
  }

  /** Appending an element above every element keeps a sequence increasing. */
  lemma AppendGreater(xs: seq<nat>, x: nat)
    requires forall a, b :: 0 <= a < b < |xs| ==> xs[a] < xs[b]
    requires forall i: nat :: i in xs ==> i < x
    ensures forall a, b :: 0 <= a < b < |xs + [x]| ==> (xs + [x])[a] < (xs + [x])[b]
    ensures forall i: nat :: i in xs + [x] <==> i in xs || i == x
  {
    forall a, b | 0 <= a < b < |xs + [x]|
      ensures (xs + [x])[a] < (xs + [x])[b]
    {
      assert xs[a] in xs;
    }
  }

  function EntryIndices(e: FixedSlot): seq<nat> {
    EntryIndicesBelow(e, SlotCount)
  }

  /** The indices of all the listed keys found in the table, key by key. */
  function IndicesOf(table: Table, keys: seq<string>): seq<nat> {
    if keys == [] then []
    else
      var k := keys[|keys| - 1];
      IndicesOf(table, keys[..|keys| - 1]) + (if k in table then EntryIndices(table[k]) else [])
  }

  /** An index is reserved for the keys iff some listed key present in the table
      covers it; keys absent from the table contribute nothing. */
  lemma {:induction false} IndicesOfMember(table: Table, keys: seq<string>, i: nat)
    ensures i in IndicesOf(table, keys) <==>
      i < SlotCount && exists k :: k in keys && k in table && Matches(table[k], i)
    decreases |keys|
  {
    if keys != [] {
      var init, k := keys[..|keys| - 1], keys[|keys| - 1];
      IndicesOfMember(table, init, i);
      assert keys == init + [k];
      if i < SlotCount && (exists k' :: k' in keys && k' in table && Matches(table[k'], i)) {
        var k' :| k' in keys && k' in table && Matches(table[k'], i);
        if k' != k {
          assert k' in init;
        }
      }
    }
  }

  lemma OneKey(table: Table, k: string, i: nat)
    ensures i in IndicesOf(table, [k]) <==> k in table && i in EntryIndices(table[k])
  {
    assert [k][..0] == [];
  }

  lemma TwoKeys(table: Table, k1: string, k2: string, i: nat)
    ensures i in IndicesOf(table, [k1, k2]) <==>
      (k1 in table && i in EntryIndices(table[k1])) || (k2 in table && i in EntryIndices(table[k2]))
  {
    assert [k1, k2][..1] == [k1];
    OneKey(table, k1, i);
  }

  /** A family stored under two keys of the table reserves what either entry covers. */
  lemma TwoKeyCover(table: Table, k1: string, k2: string, i: nat)
    requires k1 in table && k2 in table
    ensures i in IndicesOf(table, [k1, k2]) <==>
      i < SlotCount && (Covers(table[k1], DayOf(i), HourOf(i)) || Covers(table[k2], DayOf(i), HourOf(i)))
  {
    TwoKeys(table, k1, k2, i);
    EntryMember(table[k1], i);
    EntryMember(table[k2], i);
  }

  /** Every index produced lies on the grid. */
  lemma IndicesOfBounded(table: Table, keys: seq<string>)
    ensures forall i :: i in IndicesOf(table, keys) ==> i < SlotCount
  {
    forall i | i in IndicesOf(table, keys)
      ensures i < SlotCount
    {
      IndicesOfMember(table, keys, i);
    }
  }

  /** One key's share of `get_fixed_slot_indices`: every grid index, in order,
      whose (day, hour) the entry lists. */
  method ScanGrid(e: FixedSlot) returns (found: seq<nat>)
    ensures found == EntryIndices(e)
  {
    var slots := TimeSlots();
    found := [];
    for i := 0 to |slots|
      invariant found == EntryIndicesBelow(e, i)
    {
      var (day, hour) := slots[i];
      MatchesAt(e, i);
      if day in e.days && hour in e.hours {
        assert EntryIndicesBelow(e, i + 1) == found + [i];
        found := found + [i];
      } else {
        assert EntryIndicesBelow(e, i + 1) == found;
      }
    }
  }

  /** The loop shared by every `get_fixed_slot_indices` branch: walk the keys in
      order and, for each one present in the table, the whole grid. */
  method CollectIndices(table: Table, keys: seq<string>) returns (indices: seq<nat>)
    ensures indices == IndicesOf(table, keys)
  {
    indices := [];
    for k := 0 to |keys|
      invariant indices == IndicesOf(table, keys[..k])
    {
      assert keys[..k + 1][..k] == keys[..k];
      var key := keys[k];
      if key in table {
        var found := ScanGrid(table[key]);
        indices := indices + found;
      }
    }
    assert keys[..|keys|] == keys;
  }
}

/** The single-batch timetable builder of Testing/mxcs.py: a table of six days by nine
    one-hour slots, labs placed as two consecutive hours followed by a break, theory as two
    single hours on different days (or else a consecutive pair), and leftover free slots
    blanked out. Days and slots are indices into the `DAYS` and `SLOTS` lists; the random
    day orders of the search are inputs. */
module Mxcs {
  import opened Wrappers

  const DayCount: nat := 6
  const SlotCount: nat := 9
  /** `GE_SLOT`, "12:30-13:30". */
  const GeSlot: nat := 4
  /** `LUNCH_SLOT`, "13:30-14:30". */
  const LunchSlot: nat := 5

  const Free := "FREE"
  const Break := "BREAK"
  const Blank := "-"

  /** The slots no class may take: `[GE_SLOT, LUNCH_SLOT]`. */
  const Reserved: set<nat> := {GeSlot, LunchSlot}

  /** Line 107: every slot but the general-elective and lunch hours, in day order. */
  const PreferredSlots: seq<nat> := [0, 1, 2, 3, 6, 7, 8]

  /** What `make_empty_table` writes into a slot. */
  function Initial(s: nat): string {
    if s == GeSlot then "GE" else if s == LunchSlot then "LUNCH" else Free
  }

  function LabLabel(subject: string): string { subject + " (Lab)" }
  function TheoryLabel(subject: string): string { subject + " (Th)" }
  function LabWarning(subject: string): string { "Lab for " + subject + " could not be placed!" }
  function TheoryWarning(subject: string): string { "Theory for " + subject + " could not be placed!" }

  /** A table has a row per day and a cell per slot. */
  predicate Shaped(cells: seq<seq<string>>) {
    |cells| == DayCount && forall d :: 0 <= d < DayCount ==> |cells[d]| == SlotCount
  }

  /** A day order names only days of the table. */
  predicate DaysOk(order: seq<nat>) {
    forall p :: 0 <= p < |order| ==> order[p] < DayCount
  }

  /** Slot `s` of day `d` exists, is not avoided and is "FREE". */
  predicate Open(cells: seq<seq<string>>, avoid: set<nat>, d: nat, s: nat) {
    d < |cells| && s < |cells[d]| && s !in avoid && cells[d][s] == Free
  }

  /** Slots `i` and `i + 1` of day `d` can take a two-hour class. */
  predicate PairOpen(cells: seq<seq<string>>, avoid: set<nat>, d: nat, i: nat) {
    Open(cells, avoid, d, i) && Open(cells, avoid, d, i + 1)
  }

  /** Day `d` has no room for a two-hour class. */
  ghost predicate NoPair(cells: seq<seq<string>>, avoid: set<nat>, d: nat) {
    forall i :: !PairOpen(cells, avoid, d, i)
  }

  /** Every cell that held something other than "FREE" still holds it. */
  predicate Keeps(before: seq<seq<string>>, after: seq<seq<string>>)
    requires Shaped(before) && Shaped(after)
  {
    forall d, s :: 0 <= d < DayCount && 0 <= s < SlotCount && before[d][s] != Free ==>
      after[d][s] == before[d][s]
  }

  /** Some cell of the table holds `tag`. */
  predicate Shows(cells: seq<seq<string>>, tag: string) {
    exists d, s :: 0 <= d < |cells| && 0 <= s < |cells[d]| && cells[d][s] == tag
  }

  /** `tag` went into two free slots `i` and `i + 1` of one day. */
  predicate PairPlaced(before: seq<seq<string>>, after: seq<seq<string>>, tag: string)
    requires Shaped(before) && Shaped(after)
  {
    exists d, i :: 0 <= d < DayCount && 0 <= i && i + 1 < SlotCount &&
      before[d][i] == Free && before[d][i + 1] == Free &&
      after[d][i] == tag && after[d][i + 1] == tag
  }

  /** `tag` went into two free slots on two different days. */
  predicate SplitPlaced(before: seq<seq<string>>, after: seq<seq<string>>, tag: string)
    requires Shaped(before) && Shaped(after)
  {
    exists d1, s1, d2, s2 :: 0 <= d1 < DayCount && 0 <= s1 < SlotCount &&
      0 <= d2 < DayCount && 0 <= s2 < SlotCount && d1 != d2 &&
      before[d1][s1] == Free && before[d2][s2] == Free &&
      after[d1][s1] == tag && after[d2][s2] == tag
  }

  /** A label that keeps its cell keeps being shown. */
  lemma KeepsShows(before: seq<seq<string>>, after: seq<seq<string>>, tag: string)
    requires Shaped(before) && Shaped(after) && Keeps(before, after)
    requires tag != Free && Shows(before, tag)
    ensures Shows(after, tag)
  {
    var d, s :| 0 <= d < |before| && 0 <= s < |before[d]| && before[d][s] == tag;
    assert after[d][s] == tag;
  }

  // ---------------------------------------------------------------------------
  // `find_single_free_slots`: the order in which it visits slots.

  /** Line 79: the preferred slots, then every other slot in table order. */
  function OrderedSlots(prefer: seq<nat>): (r: seq<nat>)
    ensures forall s: nat :: s in r <==> s in prefer || s < SlotCount
    ensures prefer <= r
  {
    prefer + Rest(prefer, SlotCount)
  }

  /** The slots below `n` that are not preferred, in table order. */
  function Rest(prefer: seq<nat>, n: nat): (r: seq<nat>)
    ensures forall s: nat :: s in r <==> s < n && s !in prefer
  {
    if n == 0 then [] else Rest(prefer, n - 1) + (if n - 1 in prefer then [] else [n - 1])
  }

  /** The open slots of day `d`, in the order `slots` visits them. */
  function DayHits(cells: seq<seq<string>>, avoid: set<nat>, d: nat, slots: seq<nat>): seq<(nat, nat)>
    decreases |slots|
  {
    if slots == [] then []
    else
      var n := |slots| - 1;
      DayHits(cells, avoid, d, slots[..n]) + (if Open(cells, avoid, d, slots[n]) then [(d, slots[n])] else [])
  }

  /** Every open slot, day by day in `order`, each day in the order `slots` visits them. */
  function Hits(cells: seq<seq<string>>, avoid: set<nat>, order: seq<nat>, slots: seq<nat>): seq<(nat, nat)>
    decreases |order|
  {
    if order == [] then []
    else
      var n := |order| - 1;
      Hits(cells, avoid, order[..n], slots) + DayHits(cells, avoid, order[n], slots)
  }

  /** At most `n` elements from the front of `s`. */
  function Take<T>(s: seq<T>, n: nat): (r: seq<T>)
    ensures |r| <= n && r <= s
    ensures |r| < n ==> r == s
  {
    if |s| <= n then s else s[..n]
  }

  lemma TakePrefix<T>(r: seq<T>, s: seq<T>, n: nat)
    requires r <= s && |r| == n
    ensures Take(s, n) == r
  {
  }

  /** Line 85: the length check comes after the append, so even a count of 0 keeps one. */
  function Wanted(count: nat): nat {
    if count == 0 then 1 else count
  }

  /** Visiting slots `a` then `b` finds the hits of `a` first: preferred slots come first. */
  lemma {:induction false} DayHitsAppend(cells: seq<seq<string>>, avoid: set<nat>, d: nat, a: seq<nat>, b: seq<nat>)
    ensures DayHits(cells, avoid, d, a + b) == DayHits(cells, avoid, d, a) + DayHits(cells, avoid, d, b)
    decreases |b|
  {
    if b != [] {
      var n := |b| - 1;
      assert (a + b)[..|a| + n] == a + b[..n];
      DayHitsAppend(cells, avoid, d, a, b[..n]);
    } else {
      assert a + b == a;
    }
  }

  lemma {:induction false} HitsAppend(cells: seq<seq<string>>, avoid: set<nat>, a: seq<nat>, b: seq<nat>, slots: seq<nat>)
    ensures Hits(cells, avoid, a + b, slots) == Hits(cells, avoid, a, slots) + Hits(cells, avoid, b, slots)
    decreases |b|
  {
    if b != [] {
      var n := |b| - 1;
      assert (a + b)[..|a| + n] == a + b[..n];
      HitsAppend(cells, avoid, a, b[..n], slots);
    } else {
      assert a + b == a;
    }
  }

  lemma {:induction false} DayHitsMember(cells: seq<seq<string>>, avoid: set<nat>, d: nat, slots: seq<nat>, x: (nat, nat))
    ensures x in DayHits(cells, avoid, d, slots) <==> x.0 == d && x.1 in slots && Open(cells, avoid, d, x.1)
    decreases |slots|
  {
    if slots != [] {
      var n := |slots| - 1;
      DayHitsMember(cells, avoid, d, slots[..n], x);
      assert slots == slots[..n] + [slots[n]];
    }
  }

  /** The search finds exactly the open slots of the days and slots it visits. */
  lemma {:induction false} HitsMember(cells: seq<seq<string>>, avoid: set<nat>, order: seq<nat>, slots: seq<nat>, x: (nat, nat))
    ensures x in Hits(cells, avoid, order, slots) <==> x.0 in order && x.1 in slots && Open(cells, avoid, x.0, x.1)
    decreases |order|
  {
    if order != [] {
      var n := |order| - 1;
      HitsMember(cells, avoid, order[..n], slots, x);
      DayHitsMember(cells, avoid, order[n], slots, x);
      assert order == order[..n] + [order[n]];
    }
  }

  /** Searching fewer days finds a prefix of what the whole search finds. */
  lemma HitsPrefix(cells: seq<seq<string>>, avoid: set<nat>, order: seq<nat>, slots: seq<nat>, p: nat)
    requires p <= |order|
    ensures Hits(cells, avoid, order[..p], slots) <= Hits(cells, avoid, order, slots)
  {
    HitsAppend(cells, avoid, order[..p], order[p..], slots);
    assert order[..p] + order[p..] == order;
  }

  /** Visiting fewer slots of a day finds a prefix of what visiting all of them finds. */
  lemma DayHitsPrefix(cells: seq<seq<string>>, avoid: set<nat>, d: nat, slots: seq<nat>, q: nat)
    requires q <= |slots|
    ensures DayHits(cells, avoid, d, slots[..q]) <= DayHits(cells, avoid, d, slots)
  {
    DayHitsAppend(cells, avoid, d, slots[..q], slots[q..]);
    assert slots[..q] + slots[q..] == slots;
  }

  /** One more slot visited on a day. */
  lemma DayHitsSnoc(cells: seq<seq<string>>, avoid: set<nat>, d: nat, slots: seq<nat>, q: nat)
    requires q < |slots|
    ensures DayHits(cells, avoid, d, slots[..q + 1]) ==
      DayHits(cells, avoid, d, slots[..q]) + (if Open(cells, avoid, d, slots[q]) then [(d, slots[q])] else [])
  {
    assert slots[..q + 1][..q] == slots[..q];
  }

  /** One more day searched. */
  lemma HitsSnoc(cells: seq<seq<string>>, avoid: set<nat>, order: seq<nat>, slots: seq<nat>, p: nat)
    requires p < |order|
    ensures Hits(cells, avoid, order[..p + 1], slots) ==
      Hits(cells, avoid, order[..p], slots) + DayHits(cells, avoid, order[p], slots)
  {
    assert order[..p + 1][..p] == order[..p];
  }

  // ---------------------------------------------------------------------------
  // `find_two_consecutive_free` as a function of the table.

  /** Lines 62-65 for one day: the first start `i` from `from` on whose slots `i` and
      `i + 1` are open. */
  function FirstPairFrom(cells: seq<seq<string>>, avoid: set<nat>, d: nat, from: nat): (r: Option<nat>)
    requires Shaped(cells) && d < DayCount
    ensures r.Some? ==> from <= r.value && PairOpen(cells, avoid, d, r.value)
    ensures forall i :: from <= i && (r.None? || i < r.value) ==> !PairOpen(cells, avoid, d, i)
    decreases SlotCount - from
  {
    if SlotCount <= from + 1 then None
    else if PairOpen(cells, avoid, d, from) then Some(from)
    else FirstPairFrom(cells, avoid, d, from + 1)
  }

  /** Lines 58-66: the first day of `order` with an open pair, and its first open pair. */
  function FirstPair(cells: seq<seq<string>>, avoid: set<nat>, order: seq<nat>): Option<(nat, nat)>
    requires Shaped(cells) && DaysOk(order)
    decreases |order|
  {
    if order == [] then None
    else match FirstPairFrom(cells, avoid, order[0], 0)
      case Some(i) => Some((order[0], i))
      case None => FirstPair(cells, avoid, order[1..])
  }

  /** The search finds a pair exactly when some day of `order` has one; what it finds
      is the earliest open pair of the first such day. */
  lemma {:induction false} FirstPairFound(cells: seq<seq<string>>, avoid: set<nat>, order: seq<nat>)
    requires Shaped(cells) && DaysOk(order)
    ensures FirstPair(cells, avoid, order).None? <==> forall p :: 0 <= p < |order| ==> NoPair(cells, avoid, order[p])
    ensures FirstPair(cells, avoid, order).Some? ==>
      var (d, i) := FirstPair(cells, avoid, order).value;
      PairOpen(cells, avoid, d, i) && (forall i': nat :: i' < i ==> !PairOpen(cells, avoid, d, i')) &&
      exists p :: 0 <= p < |order| && order[p] == d && forall p' :: 0 <= p' < p ==> NoPair(cells, avoid, order[p'])
    decreases |order|
  {
    if order != [] {
      var r := FirstPairFrom(cells, avoid, order[0], 0);
      if r.Some? {
        assert !NoPair(cells, avoid, order[0]);
      } else {
        assert NoPair(cells, avoid, order[0]);
        var rest := order[1..];
        FirstPairFound(cells, avoid, rest);
        assert forall p :: 1 <= p < |order| ==> order[p] == rest[p - 1];
        if FirstPair(cells, avoid, rest).Some? {
          var d := FirstPair(cells, avoid, rest).value.0;
          var p :| 0 <= p < |rest| && rest[p] == d && forall p' :: 0 <= p' < p ==> NoPair(cells, avoid, rest[p']);
          assert order[p + 1] == d;
          assert forall p' :: 0 <= p' < p + 1 ==> NoPair(cells, avoid, order[p']) by {
            forall p' | 0 <= p' < p + 1
              ensures NoPair(cells, avoid, order[p'])
            {
              if p' > 0 {
                assert order[p'] == rest[p' - 1];
              }
            }
          }
        } else {
          forall p | 0 <= p < |order|
            ensures NoPair(cells, avoid, order[p])
          {
            if p > 0 {
              assert order[p] == rest[p - 1];
            }
          }
        }
      }
    }
  }

  // ---------------------------------------------------------------------------
  // What one placement writes.

  /** Where a course goes: two single hours, a pair starting at `start`, or nowhere. */
  datatype Placement = Singles(first: (nat, nat), second: (nat, nat)) | Pair(day: nat, start: nat) | Unplaced

  /** Lines 97-102 for one lab: the first open pair the search meets. */
  function LabPlacement(cells: seq<seq<string>>, order: seq<nat>): Placement
    requires Shaped(cells) && DaysOk(order)
  {
    match FirstPair(cells, Reserved, order)
    case Some((d, i)) => Pair(d, i)
    case None => Unplaced
  }

  /** Lines 106-115 for one theory course: the first two open single hours the search
      meets when they fall on different days, or else the first open pair. */
  function TheoryPlacement(cells: seq<seq<string>>, prefer: seq<nat>, singleOrder: seq<nat>, pairOrder: seq<nat>): Placement
    requires Shaped(cells) && DaysOk(pairOrder)
  {
    var singles := Take(Hits(cells, Reserved, singleOrder, OrderedSlots(prefer)), 2);
    if |singles| >= 2 && singles[0].0 != singles[1].0 then Singles(singles[0], singles[1])
    else LabPlacement(cells, pairOrder)
  }

  /** Lines 68-74: `after` is `before` with `tag` in slots `i` and `i + 1` of day `d` and,
      when the slot after them exists and is free, a break there; nothing else differs. */
  predicate PairWritten(before: seq<seq<string>>, after: seq<seq<string>>, d: nat, i: nat, tag: string)
    requires Shaped(before) && Shaped(after)
  {
    d < DayCount && i + 1 < SlotCount &&
    after[d][i] == tag && after[d][i + 1] == tag &&
    (i + 2 < SlotCount ==> after[d][i + 2] == if before[d][i + 2] == Free then Break else before[d][i + 2]) &&
    forall d', s :: 0 <= d' < DayCount && 0 <= s < SlotCount && (d' != d || s < i || i + 2 < s) ==>
      after[d'][s] == before[d'][s]
  }

  /** Line 110: `after` is `before` with `tag` in the two given slots; nothing else differs. */
  predicate SinglesWritten(before: seq<seq<string>>, after: seq<seq<string>>, first: (nat, nat), second: (nat, nat),
                           tag: string)
    requires Shaped(before) && Shaped(after)
  {
    first.0 < DayCount && first.1 < SlotCount && second.0 < DayCount && second.1 < SlotCount &&
    after[first.0][first.1] == tag && after[second.0][second.1] == tag &&
    forall d, s :: 0 <= d < DayCount && 0 <= s < SlotCount && (d, s) != first && (d, s) != second ==>
      after[d][s] == before[d][s]
  }

  /** `after` is `before` with the placement `pl` of `tag` written in. */
  predicate Written(before: seq<seq<string>>, after: seq<seq<string>>, pl: Placement, tag: string)
    requires Shaped(before) && Shaped(after)
  {
    match pl
    case Singles(first, second) => SinglesWritten(before, after, first, second, tag)
    case Pair(d, i) => PairWritten(before, after, d, i, tag)
    case Unplaced => after == before
  }

  /** Every cell that differs between `before` and `after` now holds `tag` or a break. */
  predicate OnlyWrites(before: seq<seq<string>>, after: seq<seq<string>>, tag: string)
    requires Shaped(before) && Shaped(after)
  {
    forall d, s :: 0 <= d < DayCount && 0 <= s < SlotCount && after[d][s] != before[d][s] ==>
      after[d][s] == tag || after[d][s] == Break
  }

  /** The slots a placement writes to were open. */
  predicate PlacementOpen(cells: seq<seq<string>>, pl: Placement) {
    match pl
    case Singles(first, second) =>
      first.0 != second.0 && Open(cells, Reserved, first.0, first.1) && Open(cells, Reserved, second.0, second.1)
    case Pair(d, i) => PairOpen(cells, Reserved, d, i)
    case Unplaced => true
  }

  /** A lab is placed at the first open pair of the first day of `order` that has one,
      and left out only when no day of `order` has one. */
  lemma LabPlacementOpen(cells: seq<seq<string>>, order: seq<nat>)
    requires Shaped(cells) && DaysOk(order)
    ensures PlacementOpen(cells, LabPlacement(cells, order))
    ensures LabPlacement(cells, order).Unplaced? <==> NoPairOnAny(cells, order)
    ensures LabPlacement(cells, order).Pair? ==> LabPlacement(cells, order).day in order
    ensures !LabPlacement(cells, order).Singles?
  {
    FirstPairFound(cells, Reserved, order);
  }

  /** A theory course goes into two open single hours on different days, each one the
      search found, or else where a lab would go. */
  lemma TheoryPlacementOpen(cells: seq<seq<string>>, prefer: seq<nat>, singleOrder: seq<nat>, pairOrder: seq<nat>)
    requires Shaped(cells) && DaysOk(pairOrder)
    ensures PlacementOpen(cells, TheoryPlacement(cells, prefer, singleOrder, pairOrder))
    ensures TheoryPlacement(cells, prefer, singleOrder, pairOrder).Singles? ==>
      var pl := TheoryPlacement(cells, prefer, singleOrder, pairOrder);
      pl.first.0 in singleOrder && pl.second.0 in singleOrder &&
      pl.first.1 in OrderedSlots(prefer) && pl.second.1 in OrderedSlots(prefer)
    ensures !TheoryPlacement(cells, prefer, singleOrder, pairOrder).Singles? ==>
      TheoryPlacement(cells, prefer, singleOrder, pairOrder) == LabPlacement(cells, pairOrder)
  {
    var slots := OrderedSlots(prefer);
    var singles := Take(Hits(cells, Reserved, singleOrder, slots), 2);
    if |singles| >= 2 && singles[0].0 != singles[1].0 {
      HitsMember(cells, Reserved, singleOrder, slots, singles[0]);
      HitsMember(cells, Reserved, singleOrder, slots, singles[1]);
    } else {
      LabPlacementOpen(cells, pairOrder);
    }
  }

  /** Writing a placement into open slots keeps every taken cell and writes only the
      label and breaks. */
  lemma WrittenKeeps(before: seq<seq<string>>, after: seq<seq<string>>, pl: Placement, tag: string)
    requires Shaped(before) && Shaped(after) && Written(before, after, pl, tag) && PlacementOpen(before, pl)
    ensures Keeps(before, after) && OnlyWrites(before, after, tag)
  {
  }

  // ---------------------------------------------------------------------------
  // The table, updated in place.

  class Timetable {
    /** `table[DAYS[d]][SLOTS[s]]` is `cells[d][s]`. */
    var cells: seq<seq<string>>

    ghost predicate Valid()
      reads this
    {
      Shaped(cells)
    }

    /** Lines 45-56, `make_empty_table`. */
    constructor ()
      ensures Valid()
      ensures forall d, s :: 0 <= d < DayCount && 0 <= s < SlotCount ==> cells[d][s] == Initial(s)
    {
      var rows: seq<seq<string>> := [];
      for d := 0 to DayCount
        invariant |rows| == d
        invariant forall d' :: 0 <= d' < d ==> |rows[d']| == SlotCount
        invariant forall d', s :: 0 <= d' < d && 0 <= s < SlotCount ==> rows[d'][s] == Initial(s)
      {
        var row: seq<string> := [];
        for s := 0 to SlotCount
          invariant |row| == s
          invariant forall s' :: 0 <= s' < s ==> row[s'] == Initial(s')
        {
          if s == GeSlot {
            row := row + ["GE"];
          } else if s == LunchSlot {
            row := row + ["LUNCH"];
          } else {
            row := row + [Free];
          }
        }
        rows := rows + [row];
      }
      cells := rows;
    }

    /** Lines 58-66, `find_two_consecutive_free`: the first day in `order` with two
        consecutive open slots, and the first such pair on it. */
    method FindTwoConsecutiveFree(avoid: set<nat>, order: seq<nat>) returns (found: Option<(nat, nat)>)
      requires Valid() && DaysOk(order)
      ensures found.Some? ==>
        var (d, i) := found.value;
        d < DayCount && i + 1 < SlotCount && PairOpen(cells, avoid, d, i) &&
        (forall i' :: 0 <= i' < i ==> !PairOpen(cells, avoid, d, i')) &&
        exists p :: 0 <= p < |order| && order[p] == d &&
          forall p' :: 0 <= p' < p ==> NoPair(cells, avoid, order[p'])
      ensures found.None? ==> forall p :: 0 <= p < |order| ==> NoPair(cells, avoid, order[p])
      ensures found == FirstPair(cells, avoid, order)
    {
      for p := 0 to |order|
        invariant forall p' :: 0 <= p' < p ==> NoPair(cells, avoid, order[p'])
        invariant FirstPair(cells, avoid, order) == FirstPair(cells, avoid, order[p..])
      {
        var d := order[p];
        for i := 0 to SlotCount - 1
          invariant forall i' :: 0 <= i' < i ==> !PairOpen(cells, avoid, d, i')
          invariant FirstPairFrom(cells, avoid, d, 0) == FirstPairFrom(cells, avoid, d, i)
        {
          if i in avoid || i + 1 in avoid {
            continue;
          }
          if cells[d][i] == Free && cells[d][i + 1] == Free {
            return Some((d, i));
          }
        }
        assert order[p..][1..] == order[p + 1..];
        forall i: nat
          ensures !PairOpen(cells, avoid, d, i)
        {
          if SlotCount - 1 <= i {
            assert |cells[d]| <= i + 1;
          }
        }
      }
      assert order[|order|..] == [];
      return None;
    }

    /** Lines 68-74, `place_two_consecutive`: the label `tag` fills slots `i` and `i + 1`, and the
        slot after them, when there is one and it is free, becomes a break. */
    method PlaceTwoConsecutive(d: nat, i: nat, tag: string)
      requires Valid() && d < DayCount && i + 1 < SlotCount
      modifies this
      ensures Valid() && PairWritten(old(cells), cells, d, i, tag)
    {
      cells := cells[d := cells[d][i := tag]];
      cells := cells[d := cells[d][i + 1 := tag]];
      if i + 2 < SlotCount && cells[d][i + 2] == Free {
        cells := cells[d := cells[d][i + 2 := Break]];
      }
    }

    /** Lines 76-86, `find_single_free_slots`: the first open slots the search meets,
        `count` of them at most (but at least one when there is one). */
    method FindSingleFreeSlots(count: nat, prefer: seq<nat>, avoid: set<nat>, order: seq<nat>)
      returns (res: seq<(nat, nat)>)
      requires Valid() && DaysOk(order)
      requires forall k :: 0 <= k < |prefer| ==> prefer[k] < SlotCount
      ensures res == Take(Hits(cells, avoid, order, OrderedSlots(prefer)), Wanted(count))
    {
      var slots := OrderedSlots(prefer);
      var want := Wanted(count);
      res := [];
      for p := 0 to |order|
        invariant res == Hits(cells, avoid, order[..p], slots)
        invariant |res| < want
      {
        HitsSnoc(cells, avoid, order, slots, p);
        var full;
        res, full := ScanDay(res, order[p], slots, avoid, want);
        if full {
          HitsPrefix(cells, avoid, order, slots, p + 1);
          TakePrefix(res, Hits(cells, avoid, order, slots), want);
          return;
        }
      }
      assert order[..|order|] == order;
    }

    /** Lines 81-85: one day of the search, appending to `found` until it holds `want`. */
    method ScanDay(found: seq<(nat, nat)>, d: nat, slots: seq<nat>, avoid: set<nat>, want: nat)
      returns (res: seq<(nat, nat)>, full: bool)
      requires Valid() && d < DayCount && |found| < want
      requires forall s :: s in slots ==> s < SlotCount
      ensures full ==> |res| == want && res <= found + DayHits(cells, avoid, d, slots)
      ensures !full ==> |res| < want && res == found + DayHits(cells, avoid, d, slots)
    {
      res := found;
      for q := 0 to |slots|
        invariant res == found + DayHits(cells, avoid, d, slots[..q])
        invariant |res| < want
      {
        DayHitsSnoc(cells, avoid, d, slots, q);
        assert slots[q] in slots;
        if slots[q] in avoid {
          continue;
        }
        if cells[d][slots[q]] == Free {
          res := res + [(d, slots[q])];
          if |res| >= want {
            DayHitsPrefix(cells, avoid, d, slots, q + 1);
            return res, true;
          }
        }
      }
      assert slots[..|slots|] == slots;
      return res, false;
    }

    /** Lines 95-102: one lab, as two consecutive hours away from the reserved slots. */
    method PlaceLab(tag: string, order: seq<nat>) returns (placed: bool)
      requires Valid() && DaysOk(order) && tag != Free
      modifies this
      ensures Valid() && Keeps(old(cells), cells)
      ensures placed ==> PairPlaced(old(cells), cells, tag) && Shows(cells, tag)
      ensures !placed ==> cells == old(cells)
      ensures !placed ==> forall p :: 0 <= p < |order| ==> NoPair(old(cells), Reserved, order[p])
      ensures placed <==> !LabPlacement(old(cells), order).Unplaced?
      ensures Written(old(cells), cells, LabPlacement(old(cells), order), tag)
      ensures OnlyWrites(old(cells), cells, tag)
    {
      var found := FindTwoConsecutiveFree(Reserved, order);
      if found.Some? {
        PlacePair(found.value.0, found.value.1, tag);
        placed := true;
      } else {
        placed := false;
      }
    }

    /** Writing a two-hour class into an open pair keeps every taken cell. */
    method PlacePair(d: nat, i: nat, tag: string)
      requires Valid() && d < DayCount && i + 1 < SlotCount && PairOpen(cells, Reserved, d, i)
      modifies this
      ensures Valid() && Keeps(old(cells), cells) && PairPlaced(old(cells), cells, tag)
      ensures Shows(cells, tag)
      ensures PairWritten(old(cells), cells, d, i, tag) && OnlyWrites(old(cells), cells, tag)
    {
      PlaceTwoConsecutive(d, i, tag);
      assert old(cells)[d][i] == Free && old(cells)[d][i + 1] == Free;
    }

    /** Lines 104-115: one theory course, as two single hours on different days when the
        search finds such, or else as two consecutive hours. */
    method PlaceTheory(tag: string, prefer: seq<nat>, singleOrder: seq<nat>, pairOrder: seq<nat>)
      returns (placed: bool)
      requires Valid() && DaysOk(singleOrder) && DaysOk(pairOrder) && tag != Free
      requires forall k :: 0 <= k < |prefer| ==> prefer[k] < SlotCount
      modifies this
      ensures Valid() && Keeps(old(cells), cells)
      ensures placed ==> SplitPlaced(old(cells), cells, tag) || PairPlaced(old(cells), cells, tag)
      ensures placed ==> Shows(cells, tag)
      ensures !placed ==> cells == old(cells)
      ensures !placed ==> forall p :: 0 <= p < |pairOrder| ==> NoPair(old(cells), Reserved, pairOrder[p])
      ensures placed <==> !TheoryPlacement(old(cells), prefer, singleOrder, pairOrder).Unplaced?
      ensures Written(old(cells), cells, TheoryPlacement(old(cells), prefer, singleOrder, pairOrder), tag)
      ensures OnlyWrites(old(cells), cells, tag)
    {
      var singles := FindSingleFreeSlots(2, prefer, Reserved, singleOrder);
      if |singles| >= 2 && singles[0].0 != singles[1].0 {
        HitsMember(cells, Reserved, singleOrder, OrderedSlots(prefer), singles[0]);
        HitsMember(cells, Reserved, singleOrder, OrderedSlots(prefer), singles[1]);
        PlaceSingles(singles[0], singles[1], tag);
        placed := true;
      } else {
        var found := FindTwoConsecutiveFree(Reserved, pairOrder);
        if found.Some? {
          PlacePair(found.value.0, found.value.1, tag);
          placed := true;
        } else {
          placed := false;
        }
      }
    }

    /** Line 110: the label goes into two open slots on different days. */
    method PlaceSingles(first: (nat, nat), second: (nat, nat), tag: string)
      requires Valid() && first.0 != second.0
      requires Open(cells, Reserved, first.0, first.1) && Open(cells, Reserved, second.0, second.1)
      modifies this
      ensures Valid() && Keeps(old(cells), cells) && SplitPlaced(old(cells), cells, tag)
      ensures Shows(cells, tag)
      ensures SinglesWritten(old(cells), cells, first, second, tag) && OnlyWrites(old(cells), cells, tag)
    {
      var (d1, s1) := first;
      var (d2, s2) := second;
      cells := cells[d1 := cells[d1][s1 := tag]];
      cells := cells[d2 := cells[d2][s2 := tag]];
      assert cells[d1][s1] == tag && cells[d2][s2] == tag;
    }

    /** Lines 117-120: every slot still free becomes "-". */
    method BlankLeftovers()
      requires Valid()
      modifies this
      ensures Valid()
      ensures forall d, s :: 0 <= d < DayCount && 0 <= s < SlotCount ==>
        cells[d][s] == if old(cells)[d][s] == Free then Blank else old(cells)[d][s]
    {
      for d := 0 to DayCount
        invariant Valid()
        invariant forall d', s :: 0 <= d' < DayCount && 0 <= s < SlotCount ==>
          cells[d'][s] == if d' < d && old(cells)[d'][s] == Free then Blank else old(cells)[d'][s]
      {
        for s := 0 to SlotCount
          invariant Valid()
          invariant forall d', s' :: 0 <= d' < DayCount && 0 <= s' < SlotCount ==>
            cells[d'][s'] == if (d' < d || (d' == d && s' < s)) && old(cells)[d'][s'] == Free then Blank else old(cells)[d'][s']
        {
          if cells[d][s] == Free {
            cells := cells[d := cells[d][s := Blank]];
          }
        }
      }
    }
  }

  /** Every subject of `subjects[..n]` has its label on the table or a warning. */
  predicate Accounted(cells: seq<seq<string>>, warnings: seq<string>, subjects: seq<string>, n: nat,
                      labelOf: string -> string, warning: string -> string)
    requires n <= |subjects|
  {
    forall k :: 0 <= k < n ==> Shows(cells, labelOf(subjects[k])) || warning(subjects[k]) in warnings
  }

  /** Every warning is `warning` of one of `subjects[..n]`. */
  predicate WarnsAbout(warnings: seq<string>, subjects: seq<string>, n: nat, warning: string -> string)
    requires n <= |subjects|
  {
    forall w :: w in warnings ==> exists k :: 0 <= k < n && w == warning(subjects[k])
  }

  /** The reserved slots still hold what the empty table put there. */
  predicate ReservedKept(cells: seq<seq<string>>)
    requires Shaped(cells)
  {
    forall d :: 0 <= d < DayCount ==> cells[d][GeSlot] == "GE" && cells[d][LunchSlot] == "LUNCH"
  }

  lemma LabelsNotFree(subject: string)
    ensures LabLabel(subject) != Free && TheoryLabel(subject) != Free
  {
    assert |LabLabel(subject)| > |Free|;
    assert |TheoryLabel(subject)| > |Free|;
  }

  /** Keeping the taken cells keeps the shown labels and the reserved slots. */
  lemma KeepsAccounted(before: seq<seq<string>>, after: seq<seq<string>>, warnings: seq<string>,
                       subjects: seq<string>, n: nat, labelOf: string -> string, warning: string -> string)
    requires Shaped(before) && Shaped(after) && Keeps(before, after) && n <= |subjects|
    requires forall k :: 0 <= k < n ==> labelOf(subjects[k]) != Free
    requires Accounted(before, warnings, subjects, n, labelOf, warning)
    ensures Accounted(after, warnings, subjects, n, labelOf, warning)
  {
    forall k | 0 <= k < n && Shows(before, labelOf(subjects[k]))
      ensures Shows(after, labelOf(subjects[k]))
    {
      KeepsShows(before, after, labelOf(subjects[k]));
    }
  }

  /** More warnings, before or after, account for at least as much. */
  lemma AccountedGrow(cells: seq<seq<string>>, warnings: seq<string>, more: seq<string>, subjects: seq<string>,
                      n: nat, labelOf: string -> string, warning: string -> string)
    requires n <= |subjects| && Accounted(cells, warnings, subjects, n, labelOf, warning)
    ensures Accounted(cells, warnings + more, subjects, n, labelOf, warning)
    ensures Accounted(cells, more + warnings, subjects, n, labelOf, warning)
  {
    forall k | 0 <= k < n && warning(subjects[k]) in warnings
      ensures warning(subjects[k]) in warnings + more && warning(subjects[k]) in more + warnings
    {
    }
  }

  /** A subject shown or warned about extends the accounted prefix by one. */
  lemma AccountedStep(cells: seq<seq<string>>, warnings: seq<string>, subjects: seq<string>,
                      n: nat, labelOf: string -> string, warning: string -> string)
    requires n < |subjects| && Accounted(cells, warnings, subjects, n, labelOf, warning)
    requires Shows(cells, labelOf(subjects[n])) || warning(subjects[n]) in warnings
    ensures Accounted(cells, warnings, subjects, n + 1, labelOf, warning)
  {
  }

  /** Line 102 or 115: the warning for subject `n` joins those for earlier subjects. */
  lemma WarnsAboutStep(warnings: seq<string>, subjects: seq<string>, n: nat, warning: string -> string)
    requires n < |subjects| && WarnsAbout(warnings, subjects, n, warning)
    ensures WarnsAbout(warnings + [warning(subjects[n])], subjects, n + 1, warning)
  {
    forall w | w in warnings + [warning(subjects[n])]
      ensures exists k :: 0 <= k < n + 1 && w == warning(subjects[k])
    {
      if w in warnings {
        var k :| 0 <= k < n && w == warning(subjects[k]);
        assert 0 <= k < n + 1;
      } else {
        assert w == warning(subjects[n]);
      }
    }
  }

  /** Every cell that differs between `before` and `after` now holds the label of one
      of `subjects` or a break. */
  predicate LabelsOnly(before: seq<seq<string>>, after: seq<seq<string>>, subjects: seq<string>,
                       labelOf: string -> string)
    requires Shaped(before) && Shaped(after)
  {
    forall d, s :: 0 <= d < DayCount && 0 <= s < SlotCount && after[d][s] != before[d][s] ==>
      after[d][s] == Break || exists k :: 0 <= k < |subjects| && after[d][s] == labelOf(subjects[k])
  }

  /** Writing subject `k`'s label after other subjects' labels writes only labels of
      subjects. */
  lemma LabelsOnlyStep(a: seq<seq<string>>, b: seq<seq<string>>, c: seq<seq<string>>, subjects: seq<string>,
                       labelOf: string -> string, k: nat)
    requires Shaped(a) && Shaped(b) && Shaped(c) && k < |subjects|
    requires LabelsOnly(a, b, subjects, labelOf) && OnlyWrites(b, c, labelOf(subjects[k]))
    ensures LabelsOnly(a, c, subjects, labelOf)
  {
    forall d, s | 0 <= d < DayCount && 0 <= s < SlotCount && c[d][s] != a[d][s]
      ensures c[d][s] == Break || exists k' :: 0 <= k' < |subjects| && c[d][s] == labelOf(subjects[k'])
    {
      if c[d][s] != b[d][s] {
        assert c[d][s] == labelOf(subjects[k]) || c[d][s] == Break;
      } else {
        assert b[d][s] != a[d][s];
      }
    }
  }

  /** Lines 95-102 for one subject: placing its lab keeps the taken cells and writes only
      its label and a break; a lab left out found no open pair on any day. */
  method PlaceLabOf(table: Timetable, tag: string, order: seq<nat>) returns (placed: bool)
    requires table.Valid() && DaysOk(order) && tag != Free
    modifies table
    ensures table.Valid() && Keeps(old(table.cells), table.cells) && OnlyWrites(old(table.cells), table.cells, tag)
    ensures placed ==> Shows(table.cells, tag)
    ensures !placed ==> table.cells == old(table.cells) && NoPairOnAny(old(table.cells), order)
  {
    placed := table.PlaceLab(tag, order);
  }

  /** Lines 104-115 for one subject: placing its theory keeps the taken cells
      and writes only its label and breaks. */
  method PlaceTheoryOf(table: Timetable, tag: string, singleOrder: seq<nat>, pairOrder: seq<nat>) returns (placed: bool)
    requires table.Valid() && DaysOk(singleOrder) && DaysOk(pairOrder) && tag != Free
    modifies table
    ensures table.Valid() && Keeps(old(table.cells), table.cells) && OnlyWrites(old(table.cells), table.cells, tag)
    ensures placed ==> Shows(table.cells, tag)
    ensures !placed ==> table.cells == old(table.cells)
  {
    placed := table.PlaceTheory(tag, PreferredSlots, singleOrder, pairOrder);
  }

  /** No day of `order` has room for a two-hour class. */
  ghost predicate NoPairOnAny(cells: seq<seq<string>>, order: seq<nat>) {
    forall p :: 0 <= p < |order| ==> NoPair(cells, Reserved, order[p])
  }

  /** Every warning is the lab warning of one of `subjects[..n]` whose days, in
      the order searched for it, have no room for a two-hour class. */
  ghost predicate LabsMissed(cells: seq<seq<string>>, warnings: seq<string>, subjects: seq<string>, orders: seq<seq<nat>>, n: nat)
    requires n <= |subjects| == |orders|
  {
    forall w :: w in warnings ==>
      exists k :: 0 <= k < n && w == LabWarning(subjects[k]) && NoPairOnAny(cells, orders[k])
  }

  /** Keeping the taken cells frees no slot, so a day without an open pair keeps
      having none. */
  lemma KeepsNoPair(before: seq<seq<string>>, after: seq<seq<string>>, order: seq<nat>)
    requires Shaped(before) && Shaped(after) && Keeps(before, after)
    requires NoPairOnAny(before, order)
    ensures NoPairOnAny(after, order)
  {
    forall p, i | 0 <= p < |order|
      ensures !PairOpen(after, Reserved, order[p], i)
    {
      assert !PairOpen(before, Reserved, order[p], i);
    }
  }

  /** Later placements keep every missed lab missed. */
  lemma KeepsMissed(before: seq<seq<string>>, after: seq<seq<string>>, warnings: seq<string>,
                    subjects: seq<string>, orders: seq<seq<nat>>, n: nat)
    requires Shaped(before) && Shaped(after) && Keeps(before, after) && n <= |subjects| == |orders|
    requires LabsMissed(before, warnings, subjects, orders, n)
    ensures LabsMissed(after, warnings, subjects, orders, n)
  {
    forall w | w in warnings
      ensures exists k :: 0 <= k < n && w == LabWarning(subjects[k]) && NoPairOnAny(after, orders[k])
    {
      var k :| 0 <= k < n && w == LabWarning(subjects[k]) && NoPairOnAny(before, orders[k]);
      KeepsNoPair(before, after, orders[k]);
    }
  }

  /** Lines 100-102: subject `n`'s lab found no open pair, so its warning is
      justified; a placed lab adds no warning. */
  lemma MissedStep(cells: seq<seq<string>>, warnings: seq<string>, subjects: seq<string>, orders: seq<seq<nat>>,
                   n: nat, missed: bool)
    requires n < |subjects| == |orders| && LabsMissed(cells, warnings, subjects, orders, n)
    requires missed ==> NoPairOnAny(cells, orders[n])
    ensures LabsMissed(cells, warnings + (if missed then [LabWarning(subjects[n])] else []), subjects, orders, n + 1)
  {
    var more := if missed then [LabWarning(subjects[n])] else [];
    forall w | w in warnings + more
      ensures exists k :: 0 <= k < n + 1 && w == LabWarning(subjects[k]) && NoPairOnAny(cells, orders[k])
    {
      if w in warnings {
        var k :| 0 <= k < n && w == LabWarning(subjects[k]) && NoPairOnAny(cells, orders[k]);
        assert 0 <= k < n + 1;
      } else {
        assert w == LabWarning(subjects[n]);
      }
    }
  }

  /** Lines 95-102: a lab per subject, or a warning for it. */
  method PlaceLabs(table: Timetable, subjects: seq<string>, orders: seq<seq<nat>>) returns (warnings: seq<string>)
    requires table.Valid() && ReservedKept(table.cells)
    requires |orders| == |subjects| && forall k :: 0 <= k < |subjects| ==> DaysOk(orders[k])
    modifies table
    ensures table.Valid() && ReservedKept(table.cells) && Keeps(old(table.cells), table.cells)
    ensures Accounted(table.cells, warnings, subjects, |subjects|, LabLabel, LabWarning)
    ensures WarnsAbout(warnings, subjects, |subjects|, LabWarning)
    ensures LabsMissed(table.cells, warnings, subjects, orders, |subjects|)
    ensures LabelsOnly(old(table.cells), table.cells, subjects, LabLabel)
  {
    warnings := [];
    for k := 0 to |subjects|
      invariant table.Valid() && ReservedKept(table.cells) && Keeps(old(table.cells), table.cells)
      invariant LabelsOnly(old(table.cells), table.cells, subjects, LabLabel)
      invariant Accounted(table.cells, warnings, subjects, k, LabLabel, LabWarning)
      invariant WarnsAbout(warnings, subjects, k, LabWarning)
      invariant LabsMissed(table.cells, warnings, subjects, orders, k)
    {
      LabelsNotFree(subjects[k]);
      forall k' | 0 <= k' < k {
        LabelsNotFree(subjects[k']);
      }
      ghost var before := table.cells;
      var placed := PlaceLabOf(table, LabLabel(subjects[k]), orders[k]);
      LabelsOnlyStep(old(table.cells), before, table.cells, subjects, LabLabel, k);
      KeepsAccounted(before, table.cells, warnings, subjects, k, LabLabel, LabWarning);
      KeepsMissed(before, table.cells, warnings, subjects, orders, k);
      MissedStep(table.cells, warnings, subjects, orders, k, !placed);
      if !placed {
        AccountedGrow(table.cells, warnings, [LabWarning(subjects[k])], subjects, k, LabLabel, LabWarning);
        WarnsAboutStep(warnings, subjects, k, LabWarning);
        warnings := warnings + [LabWarning(subjects[k])];
      } else {
        assert warnings + [] == warnings;
        assert WarnsAbout(warnings, subjects, k + 1, LabWarning);
      }
      AccountedStep(table.cells, warnings, subjects, k, LabLabel, LabWarning);
    }
  }

  /** Lines 104-115: theory for every subject, or a warning for it; the table keeps
      every cell already taken. */
  method PlaceTheories(table: Timetable, subjects: seq<string>, singleOrders: seq<seq<nat>>,
                       pairOrders: seq<seq<nat>>) returns (warnings: seq<string>)
    requires table.Valid() && ReservedKept(table.cells)
    requires |singleOrders| == |pairOrders| == |subjects|
    requires forall k :: 0 <= k < |subjects| ==> DaysOk(singleOrders[k]) && DaysOk(pairOrders[k])
    modifies table
    ensures table.Valid() && ReservedKept(table.cells) && Keeps(old(table.cells), table.cells)
    ensures Accounted(table.cells, warnings, subjects, |subjects|, TheoryLabel, TheoryWarning)
    ensures WarnsAbout(warnings, subjects, |subjects|, TheoryWarning)
    ensures LabelsOnly(old(table.cells), table.cells, subjects, TheoryLabel)
  {
    warnings := [];
    for k := 0 to |subjects|
      invariant table.Valid() && ReservedKept(table.cells) && Keeps(old(table.cells), table.cells)
      invariant LabelsOnly(old(table.cells), table.cells, subjects, TheoryLabel)
      invariant Accounted(table.cells, warnings, subjects, k, TheoryLabel, TheoryWarning)
      invariant WarnsAbout(warnings, subjects, k, TheoryWarning)
    {
      LabelsNotFree(subjects[k]);
      forall k' | 0 <= k' < k {
        LabelsNotFree(subjects[k']);
      }
      ghost var before := table.cells;
      var placed := PlaceTheoryOf(table, TheoryLabel(subjects[k]), singleOrders[k], pairOrders[k]);
      LabelsOnlyStep(old(table.cells), before, table.cells, subjects, TheoryLabel, k);
      KeepsAccounted(before, table.cells, warnings, subjects, k, TheoryLabel, TheoryWarning);
      if !placed {
        AccountedGrow(table.cells, warnings, [TheoryWarning(subjects[k])], subjects, k, TheoryLabel, TheoryWarning);
        WarnsAboutStep(warnings, subjects, k, TheoryWarning);
        warnings := warnings + [TheoryWarning(subjects[k])];
      } else {
        assert WarnsAbout(warnings, subjects, k + 1, TheoryWarning);
      }
      AccountedStep(table.cells, warnings, subjects, k, TheoryLabel, TheoryWarning);
    }
  }

  /** Lines 91-122, `schedule_batch`: labs first, then theory, then every free slot blanked.
      `labOrders[k]`, `singleOrders[k]` and `pairOrders[k]` are the day orders the searches
      for subject `k` draw. */
  method ScheduleBatch(subjects: seq<string>, labOrders: seq<seq<nat>>, singleOrders: seq<seq<nat>>,
                       pairOrders: seq<seq<nat>>) returns (table: Timetable, warnings: seq<string>)
    requires |labOrders| == |singleOrders| == |pairOrders| == |subjects|
    requires forall k :: 0 <= k < |subjects| ==>
      DaysOk(labOrders[k]) && DaysOk(singleOrders[k]) && DaysOk(pairOrders[k])
    ensures fresh(table) && table.Valid()
    ensures forall d, s :: 0 <= d < DayCount && 0 <= s < SlotCount ==> table.cells[d][s] != Free
    ensures ReservedKept(table.cells)
    ensures Accounted(table.cells, warnings, subjects, |subjects|, LabLabel, LabWarning)
    ensures Accounted(table.cells, warnings, subjects, |subjects|, TheoryLabel, TheoryWarning)
    ensures forall w :: w in warnings ==>
      exists k :: 0 <= k < |subjects| && (w == LabWarning(subjects[k]) || w == TheoryWarning(subjects[k]))
    ensures forall d, s :: 0 <= d < DayCount && 0 <= s < SlotCount && s != GeSlot && s != LunchSlot ==>
      table.cells[d][s] == Break || table.cells[d][s] == Blank ||
      exists k :: 0 <= k < |subjects| && (table.cells[d][s] == LabLabel(subjects[k]) || table.cells[d][s] == TheoryLabel(subjects[k]))
  {
    table := new Timetable();
    ghost var empty := table.cells;
    assert forall d :: 0 <= d < DayCount ==>
      table.cells[d][GeSlot] == Initial(GeSlot) && table.cells[d][LunchSlot] == Initial(LunchSlot);
    forall k | 0 <= k < |subjects| {
      LabelsNotFree(subjects[k]);
    }
    var labWarnings := PlaceLabs(table, subjects, labOrders);
    ghost var afterLabs := table.cells;
    var theoryWarnings := PlaceTheories(table, subjects, singleOrders, pairOrders);
    KeepsAccounted(afterLabs, table.cells, labWarnings, subjects, |subjects|, LabLabel, LabWarning);
    warnings := labWarnings + theoryWarnings;
    AccountedGrow(table.cells, labWarnings, theoryWarnings, subjects, |subjects|, LabLabel, LabWarning);
    AccountedGrow(table.cells, theoryWarnings, labWarnings, subjects, |subjects|, TheoryLabel, TheoryWarning);
    ghost var beforeBlank := table.cells;
    table.BlankLeftovers();
    KeepsAccounted(beforeBlank, table.cells, warnings, subjects, |subjects|, LabLabel, LabWarning);
    KeepsAccounted(beforeBlank, table.cells, warnings, subjects, |subjects|, TheoryLabel, TheoryWarning);
    forall d, s | 0 <= d < DayCount && 0 <= s < SlotCount && s != GeSlot && s != LunchSlot
      ensures table.cells[d][s] == Break || table.cells[d][s] == Blank ||
        exists k :: 0 <= k < |subjects| && (table.cells[d][s] == LabLabel(subjects[k]) || table.cells[d][s] == TheoryLabel(subjects[k]))
    {
      assert empty[d][s] == Initial(s) == Free;
      if beforeBlank[d][s] != Free {
        if beforeBlank[d][s] != afterLabs[d][s] {
          assert beforeBlank[d][s] == Break || exists k :: 0 <= k < |subjects| && beforeBlank[d][s] == TheoryLabel(subjects[k]);
        } else {
          assert afterLabs[d][s] != empty[d][s];
          assert afterLabs[d][s] == Break || exists k :: 0 <= k < |subjects| && afterLabs[d][s] == LabLabel(subjects[k]);
        }
      }
    }
  }
}

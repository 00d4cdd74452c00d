/**
 * The loader's teacher workload accountant (`_count_teacher_hours_correctly`).
 *
 * Rows of a merge group after the first are skipped. The main teacher of every
 * other row is credited the row's main hours and one subject. Each co-teacher of a
 * row that is not split teaching is credited as well. As written, that credit
 * block is repeated, so each co-teacher is credited twice (`copies` = 2); the
 * corrected accountant credits once (`copies` = 1), as the feasibility checker does.
 *
 * Hours are `real`: the fallback for split rows divides the total among the
 * teachers, which Python does in floating point.
 */
module DataLoaderWorkload {
  import opened Wrappers
  import opened Records
  import ConfigV2

  /** A teacher's running tally: the hours and the number of subject entries. */
  datatype Load = Load(total: real, subjects: int)

  const Zero := Load(0.0, 0)

  function Plus(a: Load, b: Load): Load {
    Load(a.total + b.total, a.subjects + b.subjects)
  }

  /** `k` copies of `a`, added up. */
  function Times(k: nat, a: Load): Load {
    if k == 0 then Zero else Plus(Times(k - 1, a), a)
  }

  /** The tally of `t`, or zero when `t` has none yet. */
  function LoadOf(loads: map<string, Load>, t: string): Load {
    if t in loads then loads[t] else Zero
  }

  /** The hours a row credits: Le+Tu+Pr taught, or when that is 0 the total
      taught hours (else the total hours), shared among the teachers of a split row. */
  function MainHours(s: Subject): real {
    if TaughtSum(s) != 0 then TaughtSum(s) as real
    else
      var fallback := s.totalTaughtHours.GetOr(s.totalHours) as real;
      if s.isSplitTeaching && |s.coTeachers| > 0 then fallback / (1 + |s.coTeachers|) as real
      else fallback
  }

  /** When the fallback applies to a split row, the teachers' shares add up to the fallback. */
  lemma MainHoursShares(s: Subject)
    requires TaughtSum(s) == 0 && s.isSplitTeaching && |s.coTeachers| > 0
    ensures MainHours(s) * (1 + |s.coTeachers|) as real == s.totalTaughtHours.GetOr(s.totalHours) as real
  {
  }

  /** Credit `t` with `h` hours and one subject. */
  function Credit(loads: map<string, Load>, t: string, h: real): map<string, Load> {
    loads[t := Plus(LoadOf(loads, t), Load(h, 1))]
  }

  /** Credit `t` the same entry `k` times. */
  function CreditTimes(loads: map<string, Load>, t: string, h: real, k: nat): map<string, Load> {
    if k == 0 then loads else Credit(CreditTimes(loads, t, h, k - 1), t, h)
  }

  /** Credit every co-teacher in `co`, in order, `copies` times each. */
  function CreditCo(loads: map<string, Load>, co: seq<string>, h: real, copies: nat): map<string, Load>
    decreases |co|
  {
    if co == [] then loads
    else CreditTimes(CreditCo(loads, co[..|co| - 1], h, copies), co[|co| - 1], h, copies)
  }

  /** The accountant's state: the tallies and the merge groups already counted. */
  datatype Tally = Tally(loads: map<string, Load>, processed: set<string>)

  /** A merged row whose group has been counted is skipped. */
  predicate Skipped(s: Subject, processed: set<string>) {
    s.isMerged && s.mergeGroupId.Some? && s.mergeGroupId.value in processed
  }

  /** A merged row with a non-empty group id marks its group as counted. */
  function Marked(s: Subject, processed: set<string>): set<string> {
    if s.isMerged && s.mergeGroupId.Some? && s.mergeGroupId.value != "" then processed + {s.mergeGroupId.value}
    else processed
  }

  /** One row of the accountant's loop. */
  function Step(acc: Tally, s: Subject, copies: nat): Tally {
    if Skipped(s, acc.processed) then acc
    else
      var loads := Credit(acc.loads, s.teacher, MainHours(s));
      Tally(if s.isSplitTeaching then loads else CreditCo(loads, s.coTeachers, MainHours(s), copies),
            Marked(s, acc.processed))
  }

  /** The accountant's state after the rows `subjects`, in order. */
  function Tallied(subjects: seq<Subject>, copies: nat): Tally
    decreases |subjects|
  {
    if subjects == [] then Tally(map[], {})
    else Step(Tallied(subjects[..|subjects| - 1], copies), subjects[|subjects| - 1], copies)
  }

  // ---------------------------------------------------------------------------
  // An independent reference: sums over the rows that are not duplicates of an
  // earlier row of the same merge group.

  /** The non-empty merge groups of the merged rows in `rows`. */
  function SeenGroups(rows: seq<Subject>): set<string> {
    set j | 0 <= j < |rows| && rows[j].isMerged && rows[j].mergeGroupId.Some? && rows[j].mergeGroupId.value != ""
      :: rows[j].mergeGroupId.value
  }

  /** What a row gives `t` as its main teacher. */
  function MainShare(s: Subject, t: string): Load {
    if s.teacher == t then Load(MainHours(s), 1) else Zero
  }

  /** `x` once for every occurrence of `t` in `co`. */
  function CoSum(co: seq<string>, t: string, x: Load): Load
    decreases |co|
  {
    if co == [] then Zero
    else
      var prev := CoSum(co[..|co| - 1], t, x);
      if co[|co| - 1] == t then Plus(prev, x) else prev
  }

  /** What a row gives `t` as its co-teacher, with `copies` credit blocks. */
  function CoShare(s: Subject, t: string, copies: nat): Load {
    if s.isSplitTeaching then Zero else CoSum(s.coTeachers, t, Times(copies, Load(MainHours(s), 1)))
  }

  /** `t`'s main-teacher share over the counted rows. */
  function MainRef(rows: seq<Subject>, t: string): Load
    decreases |rows|
  {
    if rows == [] then Zero
    else
      var prefix := rows[..|rows| - 1];
      var s := rows[|rows| - 1];
      if Skipped(s, SeenGroups(prefix)) then MainRef(prefix, t) else Plus(MainRef(prefix, t), MainShare(s, t))
  }

  /** `t`'s co-teacher share over the counted rows. */
  function CoRef(rows: seq<Subject>, t: string, copies: nat): Load
    decreases |rows|
  {
    if rows == [] then Zero
    else
      var prefix := rows[..|rows| - 1];
      var s := rows[|rows| - 1];
      if Skipped(s, SeenGroups(prefix)) then CoRef(prefix, t, copies)
      else Plus(CoRef(prefix, t, copies), CoShare(s, t, copies))
  }

  // The lemmas below state tallies field by field: an equation between a tally and
  // the same tally plus `Zero` sends the solver round in circles.

  lemma CreditEffect(loads: map<string, Load>, t: string, h: real, u: string)
    ensures LoadOf(Credit(loads, t, h), u).total == LoadOf(loads, u).total + if u == t then h else 0.0
    ensures LoadOf(Credit(loads, t, h), u).subjects == LoadOf(loads, u).subjects + if u == t then 1 else 0
  {
  }

  lemma {:induction false} CreditTimesEffect(loads: map<string, Load>, t: string, h: real, k: nat, u: string)
    ensures LoadOf(CreditTimes(loads, t, h, k), u).total ==
      LoadOf(loads, u).total + if u == t then Times(k, Load(h, 1)).total else 0.0
    ensures LoadOf(CreditTimes(loads, t, h, k), u).subjects ==
      LoadOf(loads, u).subjects + if u == t then Times(k, Load(h, 1)).subjects else 0
  {
    if k > 0 {
      CreditTimesEffect(loads, t, h, k - 1, u);
      CreditEffect(CreditTimes(loads, t, h, k - 1), t, h, u);
    }
  }

  /** Crediting the co-teachers gives each one `copies` entries per occurrence and nothing to anyone else. */
  lemma {:induction false} CreditCoEffect(loads: map<string, Load>, co: seq<string>, h: real, copies: nat, u: string)
    ensures LoadOf(CreditCo(loads, co, h, copies), u).total == LoadOf(loads, u).total + CoSum(co, u, Times(copies, Load(h, 1))).total
    ensures LoadOf(CreditCo(loads, co, h, copies), u).subjects == LoadOf(loads, u).subjects + CoSum(co, u, Times(copies, Load(h, 1))).subjects
    decreases |co|
  {
    if co != [] {
      var prefix := co[..|co| - 1];
      CreditCoEffect(loads, prefix, h, copies, u);
      CreditTimesEffect(CreditCo(loads, prefix, h, copies), co[|co| - 1], h, copies, u);
    }
  }

  lemma {:induction false} CoSumPlus(co: seq<string>, t: string, a: Load, b: Load)
    ensures CoSum(co, t, Plus(a, b)).total == CoSum(co, t, a).total + CoSum(co, t, b).total
    ensures CoSum(co, t, Plus(a, b)).subjects == CoSum(co, t, a).subjects + CoSum(co, t, b).subjects
    decreases |co|
  {
    if co != [] {
      CoSumPlus(co[..|co| - 1], t, a, b);
    }
  }

  lemma SeenGroupsAppend(rows: seq<Subject>, s: Subject)
    ensures SeenGroups(rows + [s]) == Marked(s, SeenGroups(rows))
  {
    var all := rows + [s];
    forall g | g in SeenGroups(all) ensures g in Marked(s, SeenGroups(rows)) {
      var j :| 0 <= j < |all| && all[j].isMerged && all[j].mergeGroupId.Some? && all[j].mergeGroupId.value != ""
        && all[j].mergeGroupId.value == g;
      if j < |rows| {
        assert all[j] == rows[j];
      }
    }
    forall g | g in Marked(s, SeenGroups(rows)) ensures g in SeenGroups(all) {
      if g in SeenGroups(rows) {
        var j :| 0 <= j < |rows| && rows[j].isMerged && rows[j].mergeGroupId.Some? && rows[j].mergeGroupId.value != ""
          && rows[j].mergeGroupId.value == g;
        assert all[j] == rows[j];
      } else {
        assert all[|rows|] == s;
      }
    }
  }

  /** One row's effect on `t`'s tally: nothing when the row is skipped, else its main-teacher and co-teacher shares. */
  lemma StepEffect(acc: Tally, s: Subject, copies: nat, t: string)
    ensures LoadOf(Step(acc, s, copies).loads, t).total == LoadOf(acc.loads, t).total +
      if Skipped(s, acc.processed) then 0.0 else MainShare(s, t).total + CoShare(s, t, copies).total
    ensures LoadOf(Step(acc, s, copies).loads, t).subjects == LoadOf(acc.loads, t).subjects +
      if Skipped(s, acc.processed) then 0 else MainShare(s, t).subjects + CoShare(s, t, copies).subjects
  {
    if !Skipped(s, acc.processed) {
      var loads := Credit(acc.loads, s.teacher, MainHours(s));
      CreditEffect(acc.loads, s.teacher, MainHours(s), t);
      if !s.isSplitTeaching {
        CreditCoEffect(loads, s.coTeachers, MainHours(s), copies, t);
      }
    }
  }

  /** The accountant counts exactly the merge groups it has met, and each teacher's
      hours and subject count are their main-teacher share plus their co-teacher share,
      over the rows that are not repeats of a counted merge group. */
  lemma {:induction false} TalliedMatchesReference(subjects: seq<Subject>, copies: nat, t: string)
    ensures Tallied(subjects, copies).processed == SeenGroups(subjects)
    ensures LoadOf(Tallied(subjects, copies).loads, t).total == MainRef(subjects, t).total + CoRef(subjects, t, copies).total
    ensures LoadOf(Tallied(subjects, copies).loads, t).subjects == MainRef(subjects, t).subjects + CoRef(subjects, t, copies).subjects
    decreases |subjects|
  {
    if subjects == [] {
      assert SeenGroups(subjects) == {};
    } else {
      var prefix := subjects[..|subjects| - 1];
      var s := subjects[|subjects| - 1];
      assert subjects == prefix + [s];
      TalliedMatchesReference(prefix, copies, t);
      SeenGroupsAppend(prefix, s);
      StepEffect(Tallied(prefix, copies), s, copies, t);
      if Skipped(s, SeenGroups(prefix)) {
        assert Marked(s, SeenGroups(prefix)) == SeenGroups(prefix);
      }
    }
  }

  /** Each teacher's tally is exactly the reference sum. */
  lemma TalliedIsReference(subjects: seq<Subject>, copies: nat, t: string)
    ensures LoadOf(Tallied(subjects, copies).loads, t) == Plus(MainRef(subjects, t), CoRef(subjects, t, copies))
  {
    TalliedMatchesReference(subjects, copies, t);
  }

  lemma {:induction false} CoRefDoubled(rows: seq<Subject>, t: string)
    ensures CoRef(rows, t, 2).total == 2.0 * CoRef(rows, t, 1).total
    ensures CoRef(rows, t, 2).subjects == 2 * CoRef(rows, t, 1).subjects
    decreases |rows|
  {
    if rows != [] {
      var prefix := rows[..|rows| - 1];
      var s := rows[|rows| - 1];
      CoRefDoubled(prefix, t);
      var x := Load(MainHours(s), 1);
      assert Times(2, x) == Plus(Times(1, x), Times(1, x));
      CoSumPlus(s.coTeachers, t, Times(1, x), Times(1, x));
    }
  }

  /** As written, every teacher's tally exceeds the corrected one by exactly their
      corrected co-teacher share: the repeated block credits each co-teacher a second time. */
  lemma AsWrittenExcess(subjects: seq<Subject>, t: string)
    ensures LoadOf(Tallied(subjects, 2).loads, t).total == LoadOf(Tallied(subjects, 1).loads, t).total + CoRef(subjects, t, 1).total
    ensures LoadOf(Tallied(subjects, 2).loads, t).subjects == LoadOf(Tallied(subjects, 1).loads, t).subjects + CoRef(subjects, t, 1).subjects
  {
    TalliedMatchesReference(subjects, 2, t);
    TalliedMatchesReference(subjects, 1, t);
    CoRefDoubled(subjects, t);
  }

  /** A row of a merge group whose group was already seen changes nothing. */
  lemma RepeatedGroupRowIgnored(subjects: seq<Subject>, s: Subject, copies: nat)
    requires s.isMerged && s.mergeGroupId.Some?
    requires exists j :: 0 <= j < |subjects| && subjects[j].isMerged && subjects[j].mergeGroupId == s.mergeGroupId
    requires s.mergeGroupId.value != ""
    ensures Tallied(subjects + [s], copies) == Tallied(subjects, copies)
  {
    TalliedMatchesReference(subjects, copies, s.teacher);
    var j :| 0 <= j < |subjects| && subjects[j].isMerged && subjects[j].mergeGroupId == s.mergeGroupId;
    assert s.mergeGroupId.value in SeenGroups(subjects);
    assert (subjects + [s])[..|subjects|] == subjects;
  }

  /** A row with main teacher "T1", co-teacher "T2" and 3,1,0 taught: as written T2
      is credited 8 hours and two subjects, where the corrected accountant credits
      4 hours and one subject. */
  lemma DoubleCreditExample(row: Subject)
    requires row.teacher == "T1" && row.coTeachers == ["T2"] && !row.isSplitTeaching && !row.isMerged
    requires row.taught == ConfigV2.Hours(3, 1, 0)
    ensures LoadOf(Tallied([row], 2).loads, "T2") == Load(8.0, 2)
    ensures LoadOf(Tallied([row], 1).loads, "T2") == Load(4.0, 1)
  {
    assert MainHours(row) == 4.0;
    var loads := Credit(map[], "T1", 4.0);
    assert [row][..0] == [];
    assert row.coTeachers[..0] == [];
    assert Tallied([row], 2).loads == CreditCo(loads, ["T2"], 4.0, 2);
    assert Tallied([row], 1).loads == CreditCo(loads, ["T2"], 4.0, 1);
  }

  /** The co-teacher loop as written: each co-teacher is credited by two identical blocks. */
  method CreditCoTeachersAsWritten(loads0: map<string, Load>, coTeachers: seq<string>, mainHours: real)
    returns (loads: map<string, Load>)
    ensures loads == CreditCo(loads0, coTeachers, mainHours, 2)
  {
    loads := loads0;
    for k := 0 to |coTeachers|
      invariant loads == CreditCo(loads0, coTeachers[..k], mainHours, 2)
    {
      assert coTeachers[..k + 1][..k] == coTeachers[..k];
      var co := coTeachers[k];
      var coHours := mainHours;
      ghost var prev := loads;
      var cur := if co in loads then loads[co] else Zero;
      loads := loads[co := Load(cur.total + coHours, cur.subjects + 1)];
      cur := if co in loads then loads[co] else Zero;
      loads := loads[co := Load(cur.total + coHours, cur.subjects + 1)];
      assert CreditTimes(prev, co, mainHours, 1) == Credit(prev, co, mainHours);
    }
    assert coTeachers[..|coTeachers|] == coTeachers;
  }

  /** The co-teacher loop with the repeated block removed. */
  method CreditCoTeachers(loads0: map<string, Load>, coTeachers: seq<string>, mainHours: real)
    returns (loads: map<string, Load>)
    ensures loads == CreditCo(loads0, coTeachers, mainHours, 1)
  {
    loads := loads0;
    for k := 0 to |coTeachers|
      invariant loads == CreditCo(loads0, coTeachers[..k], mainHours, 1)
    {
      assert coTeachers[..k + 1][..k] == coTeachers[..k];
      var co := coTeachers[k];
      ghost var prev := loads;
      var cur := if co in loads then loads[co] else Zero;
      loads := loads[co := Load(cur.total + mainHours, cur.subjects + 1)];
      assert CreditTimes(prev, co, mainHours, 0) == prev;
    }
    assert coTeachers[..|coTeachers|] == coTeachers;
  }

  /** `_count_teacher_hours_correctly` as written. */
  method CountTeacherHoursAsWritten(subjects: seq<Subject>) returns (loads: map<string, Load>)
    ensures loads == Tallied(subjects, 2).loads
  {
    loads := map[];
    var processed: set<string> := {};
    for i := 0 to |subjects|
      invariant Tally(loads, processed) == Tallied(subjects[..i], 2)
    {
      var s := subjects[i];
      assert subjects[..i + 1][..i] == subjects[..i];
      if s.isMerged && s.mergeGroupId.Some? && s.mergeGroupId.value in processed {
        continue;
      }
      if s.isMerged && s.mergeGroupId.Some? && s.mergeGroupId.value != "" {
        processed := processed + {s.mergeGroupId.value};
      }
      var mainHours := MainHours(s);
      var cur := if s.teacher in loads then loads[s.teacher] else Zero;
      loads := loads[s.teacher := Load(cur.total + mainHours, cur.subjects + 1)];
      if !s.isSplitTeaching {
        loads := CreditCoTeachersAsWritten(loads, s.coTeachers, mainHours);
      }
    }
    assert subjects[..|subjects|] == subjects;
  }

  /** The accountant with the repeated block removed: each co-teacher is credited once. */
  method CountTeacherHours(subjects: seq<Subject>) returns (loads: map<string, Load>)
    ensures loads == Tallied(subjects, 1).loads
  {
    loads := map[];
    var processed: set<string> := {};
    for i := 0 to |subjects|
      invariant Tally(loads, processed) == Tallied(subjects[..i], 1)
    {
      var s := subjects[i];
      assert subjects[..i + 1][..i] == subjects[..i];
      if s.isMerged && s.mergeGroupId.Some? && s.mergeGroupId.value in processed {
        continue;
      }
      if s.isMerged && s.mergeGroupId.Some? && s.mergeGroupId.value != "" {
        processed := processed + {s.mergeGroupId.value};
      }
      var mainHours := MainHours(s);
      var cur := if s.teacher in loads then loads[s.teacher] else Zero;
      loads := loads[s.teacher := Load(cur.total + mainHours, cur.subjects + 1)];
      if !s.isSplitTeaching {
        loads := CreditCoTeachers(loads, s.coTeachers, mainHours);
      }
    }
    assert subjects[..|subjects|] == subjects;
  }
}

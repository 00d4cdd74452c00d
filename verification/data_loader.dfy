/**
 * The hours validator of `DataLoader` (project/src/data_loader.py): the
 * "Le,Tu,Pr" parser-validator with its pipe-separated split-teaching form.
 * Spreadsheet cells arrive as plain strings; reading the workbook is not
 * modelled.
 */
module DataLoader {
  import opened Wrappers
  import opened Text
  import Grid
  import ConfigV2
  import Sorting

  type Hours = ConfigV2.Hours

  predicate NonNegative(h: Hours) { h.le >= 0 && h.tu >= 0 && h.pr >= 0 }

  function AddHours(a: Hours, b: Hours): Hours {
    ConfigV2.Hours(a.le + b.le, a.tu + b.tu, a.pr + b.pr)
  }

  predicate AtMost(a: Hours, b: Hours) { a.le <= b.le && a.tu <= b.tu && a.pr <= b.pr }

  // ---------------------------------------------------------------------------
  // Hours taught: "Le,Tu,Pr", or one such triple per teacher separated by '|'
  // ---------------------------------------------------------------------------

  /** `[p.strip() for p in parts]`. */
  function StripAll(parts: seq<string>): (r: seq<string>)
    ensures |r| == |parts|
    ensures forall k :: 0 <= k < |r| ==> r[k] == Strip(parts[k])
  {
    seq(|parts|, k requires 0 <= k < |parts| => Strip(parts[k]))
  }

  /** One teacher's entry: exactly three comma-separated fields, each an integer
      once stripped. `None` stands for the wrong field count and for the
      ValueError of `int()`. */
  function ParseTriple(part: string): (r: Option<Hours>)
    ensures r.Some? ==> |Split(part, ',')| == 3
  {
    var fields := StripAll(Split(part, ','));
    if |fields| != 3 then None
    else
      var le, tu, pr := ParseInt(fields[0]), ParseInt(fields[1]), ParseInt(fields[2]);
      if le.Some? && tu.Some? && pr.Some? then Some(ConfigV2.Hours(le.value, tu.value, pr.value))
      else None
  }

  /** Split teaching is recognised only when both the teacher and the hours cells hold '|'. */
  predicate IsSplitMode(hoursStr: string, teacherStr: string) {
    '|' in teacherStr && '|' in hoursStr
  }

  /** The hour entries to check: one per '|'-separated teacher in split mode (`None`
      when the two cells have different numbers of parts), else the whole cell. */
  function HourEntries(hoursStr: string, teacherStr: string): Option<seq<string>> {
    if IsSplitMode(hoursStr, teacherStr) then
      var teacherParts := StripAll(Split(teacherStr, '|'));
      var hoursParts := StripAll(Split(hoursStr, '|'));
      if |teacherParts| != |hoursParts| then None else Some(hoursParts)
    else Some([hoursStr])
  }

  /** Every entry parsed on its own. */
  function ParseAll(entries: seq<string>): (r: seq<Option<Hours>>)
    ensures |r| == |entries|
    ensures forall k :: 0 <= k < |r| ==> r[k] == ParseTriple(entries[k])
  {
    seq(|entries|, k requires 0 <= k < |entries| => ParseTriple(entries[k]))
  }

  /** The running totals over the parsed entries, or `None` once one is malformed or negative. */
  function Summed(triples: seq<Option<Hours>>): Option<Hours>
    decreases |triples|
  {
    if triples == [] then Some(ConfigV2.Hours(0, 0, 0))
    else
      match Summed(triples[..|triples| - 1])
      case None => None
      case Some(total) =>
        match triples[|triples| - 1]
        case None => None
        case Some(h) => if NonNegative(h) then Some(AddHours(total, h)) else None
  }

  /** The checks of the totals against the subject requirement, in the order `_validate_hours_taught` makes them. */
  predicate WithinRequirement(total: Hours, subjectType: string, hasLab: bool) {
    match ConfigV2.SubjectRequirement(subjectType, hasLab)
    case Err(_) => false
    case Ok(req) =>
      && total.le <= req.le && total.tu <= req.tu && total.pr <= req.pr
      && !(hasLab && req.pr == 0)
      && !(!hasLab && total.pr > 0)
  }

  /** `_validate_hours_taught`, as a specification. */
  predicate HoursTaughtValid(hoursStr: string, subjectType: string, hasLab: bool, teacherStr: string) {
    match HourEntries(hoursStr, teacherStr)
    case None => false
    case Some(entries) =>
      match Summed(ParseAll(entries))
      case None => false
      case Some(total) => WithinRequirement(total, subjectType, hasLab)
  }

  /** Every entry is a triple of non-negative integers. */
  predicate WellFormed(triples: seq<Option<Hours>>) {
    forall k :: 0 <= k < |triples| ==> triples[k].Some? && NonNegative(triples[k].value)
  }

  /** The totals exist exactly when every entry is well formed; they are then
      non-negative and bound every single entry from above. */
  lemma {:induction false} SummedMeaning(triples: seq<Option<Hours>>)
    ensures Summed(triples).Some? <==> WellFormed(triples)
    ensures Summed(triples).Some? ==>
              && NonNegative(Summed(triples).value)
              && forall k :: 0 <= k < |triples| ==> AtMost(triples[k].value, Summed(triples).value)
    decreases |triples|
  {
    if triples != [] {
      var init := triples[..|triples| - 1];
      SummedMeaning(init);
      assert forall k :: 0 <= k < |init| ==> init[k] == triples[k];
    }
  }

  /** Once a prefix fails, the whole list fails. */
  lemma {:induction false} SummedPrefixFails(triples: seq<Option<Hours>>, n: nat)
    requires n <= |triples|
    requires Summed(triples[..n]) == None
    ensures Summed(triples) == None
    decreases |triples| - n
  {
    if n < |triples| {
      assert triples[..n + 1][..n] == triples[..n];
      SummedPrefixFails(triples, n + 1);
    } else {
      assert triples[..n] == triples;
    }
  }

  /** One more well-formed entry adds its hours to the running total. */
  lemma SummedStep(triples: seq<Option<Hours>>, i: nat, total: Hours, h: Hours)
    requires i < |triples| && Summed(triples[..i]) == Some(total)
    requires triples[i] == Some(h) && NonNegative(h)
    ensures Summed(triples[..i + 1]) == Some(AddHours(total, h))
  {
    assert triples[..i + 1][..i] == triples[..i];
  }

  /** A missing or negative entry makes the whole sum fail. */
  lemma SummedStepFails(triples: seq<Option<Hours>>, i: nat, total: Hours)
    requires i < |triples| && Summed(triples[..i]) == Some(total)
    requires triples[i].None? || !NonNegative(triples[i].value)
    ensures Summed(triples) == None
  {
    assert triples[..i + 1][..i] == triples[..i];
    SummedPrefixFails(triples, i + 1);
  }

  /** The hours are accepted exactly when the cells agree on the number of teachers,
      every entry is three non-negative integers, the subject type is known, each
      summed component is within the requirement, and practical hours appear only
      with a lab. The check for a lab on a type without practicals can never fire. */
  lemma HoursTaughtValidMeaning(hoursStr: string, subjectType: string, hasLab: bool, teacherStr: string)
    ensures HoursTaughtValid(hoursStr, subjectType, hasLab, teacherStr) <==>
      && HourEntries(hoursStr, teacherStr).Some?
      && WellFormed(ParseAll(HourEntries(hoursStr, teacherStr).value))
      && Summed(ParseAll(HourEntries(hoursStr, teacherStr).value)).Some?
      && subjectType in Grid.SubjectTypes
      && var total := Summed(ParseAll(HourEntries(hoursStr, teacherStr).value)).value;
         && AtMost(total, ConfigV2.SubjectRequirement(subjectType, hasLab).value)
         && (hasLab || total.pr == 0)
  {
    var entries := HourEntries(hoursStr, teacherStr);
    if entries.Some? {
      var triples := ParseAll(entries.value);
      SummedMeaning(triples);
      var summed := Summed(triples);
      if summed.Some? {
        RequirementMeaning(summed.value, subjectType, hasLab);
      }
    }
  }

  /** For non-negative totals, the requirement checks reduce to a known type, each
      component within bounds, and practical hours only with a lab. */
  lemma RequirementMeaning(total: Hours, subjectType: string, hasLab: bool)
    requires NonNegative(total)
    ensures WithinRequirement(total, subjectType, hasLab) <==>
      && subjectType in Grid.SubjectTypes
      && AtMost(total, ConfigV2.SubjectRequirement(subjectType, hasLab).value)
      && (hasLab || total.pr == 0)
  {
  }

  /** Every single teacher's share of an accepted entry is within the requirement. */
  lemma ValidEntriesWithinRequirement(hoursStr: string, subjectType: string, hasLab: bool, teacherStr: string, k: nat)
    requires HoursTaughtValid(hoursStr, subjectType, hasLab, teacherStr)
    requires k < |HourEntries(hoursStr, teacherStr).value|
    ensures var h := ParseTriple(HourEntries(hoursStr, teacherStr).value[k]);
      && h.Some? && NonNegative(h.value)
      && AtMost(h.value, ConfigV2.SubjectRequirement(subjectType, hasLab).value)
  {
    SummedMeaning(ParseAll(HourEntries(hoursStr, teacherStr).value));
  }

  /** In split mode, a different number of teachers and hour entries is rejected. */
  lemma MismatchedSplitRejected(hoursStr: string, subjectType: string, hasLab: bool, teacherStr: string)
    requires IsSplitMode(hoursStr, teacherStr)
    requires |Split(teacherStr, '|')| != |Split(hoursStr, '|')|
    ensures !HoursTaughtValid(hoursStr, subjectType, hasLab, teacherStr)
  {
  }

  /** The cell a single teacher's hours are written in: "le,tu,pr". */
  function FormatHours(h: Hours): string {
    Join([IntToString(h.le), IntToString(h.tu), IntToString(h.pr)], ',')
  }

  lemma IntToStringStripped(n: int)
    ensures Strip(IntToString(n)) == IntToString(n)
    ensures ',' !in IntToString(n) && '|' !in IntToString(n)
  {
    var s := IntToString(n);
    assert !IsSpace(s[0]) && !IsSpace(s[|s| - 1]);
    StripTrimmed(s);
  }

  /** Three stripped, comma-free integer fields joined by commas parse back to their values. */
  lemma ParseTripleOfJoin(a: string, b: string, c: string, h: Hours)
    requires ',' !in a && ',' !in b && ',' !in c
    requires Strip(a) == a && Strip(b) == b && Strip(c) == c
    requires ParseInt(a) == Some(h.le) && ParseInt(b) == Some(h.tu) && ParseInt(c) == Some(h.pr)
    ensures ParseTriple(Join([a, b, c], ',')) == Some(h)
  {
    FieldsOfJoin(a, b, c);
    FieldsParse(Join([a, b, c], ','), a, b, c, h);
  }

  lemma FieldsOfJoin(a: string, b: string, c: string)
    requires ',' !in a && ',' !in b && ',' !in c
    requires Strip(a) == a && Strip(b) == b && Strip(c) == c
    ensures StripAll(Split(Join([a, b, c], ','), ',')) == [a, b, c]
  {
    var parts := [a, b, c];
    assert forall k :: 0 <= k < |parts| ==> ',' !in parts[k];
    SplitJoin(parts, ',');
    var r := StripAll(parts);
    assert r[0] == a && r[1] == b && r[2] == c;
  }

  lemma FieldsParse(s: string, a: string, b: string, c: string, h: Hours)
    requires ParseInt(a) == Some(h.le) && ParseInt(b) == Some(h.tu) && ParseInt(c) == Some(h.pr)
    requires StripAll(Split(s, ',')) == [a, b, c]
    ensures ParseTriple(s) == Some(h)
  {
  }

  /** No '|' in three '|'-free strings joined by commas. */
  lemma NoPipeInJoin(a: string, b: string, c: string)
    requires '|' !in a && '|' !in b && '|' !in c
    ensures '|' !in Join([a, b, c], ',')
  {
    var s := Join([a, b, c], ',');
    assert [a, b, c][1..] == [b, c] && [b, c][1..] == [c];
    assert Join([c], ',') == c;
    assert Join([b, c], ',') == b + [','] + c;
    assert s == a + [','] + (b + [','] + c);
    forall x | x in s
      ensures x != '|'
    {
      assert x in a || x == ',' || x in b || x in c;
    }
  }

  /** Reading a formatted triple gives it back. */
  lemma ParseTripleOfFormat(h: Hours)
    ensures ParseTriple(FormatHours(h)) == Some(h)
    ensures '|' !in FormatHours(h)
  {
    IntToStringStripped(h.le);
    IntToStringStripped(h.tu);
    IntToStringStripped(h.pr);
    ParseIntOfIntToString(h.le);
    ParseIntOfIntToString(h.tu);
    ParseIntOfIntToString(h.pr);
    ParseTripleOfJoin(IntToString(h.le), IntToString(h.tu), IntToString(h.pr), h);
    NoPipeInJoin(IntToString(h.le), IntToString(h.tu), IntToString(h.pr));
  }

  /** A formatted single triple is accepted exactly when it is non-negative, the type
      is known, it is within the requirement and it has practical hours only with a lab. */
  lemma FormattedHoursValid(h: Hours, subjectType: string, hasLab: bool, teacherStr: string)
    ensures HoursTaughtValid(FormatHours(h), subjectType, hasLab, teacherStr) <==>
      && NonNegative(h)
      && subjectType in Grid.SubjectTypes
      && AtMost(h, ConfigV2.SubjectRequirement(subjectType, hasLab).value)
      && (hasLab || h.pr == 0)
  {
    ParseTripleOfFormat(h);
    SingleCellValid(FormatHours(h), h, subjectType, hasLab, teacherStr);
  }

  /** A cell without '|' holding one triple is judged on that triple alone. */
  lemma SingleCellValid(cell: string, h: Hours, subjectType: string, hasLab: bool, teacherStr: string)
    requires '|' !in cell && ParseTriple(cell) == Some(h)
    ensures HoursTaughtValid(cell, subjectType, hasLab, teacherStr) <==>
      && NonNegative(h)
      && subjectType in Grid.SubjectTypes
      && AtMost(h, ConfigV2.SubjectRequirement(subjectType, hasLab).value)
      && (hasLab || h.pr == 0)
  {
    assert HourEntries(cell, teacherStr) == Some([cell]);
    ParseAllSingle(cell);
    SummedSingle(h);
    if NonNegative(h) {
      RequirementMeaning(h, subjectType, hasLab);
    }
  }

  lemma ParseAllSingle(cell: string)
    ensures ParseAll([cell]) == [ParseTriple(cell)]
  {
    var r := ParseAll([cell]);
    assert |r| == 1 && r[0] == ParseTriple(cell);
  }

  lemma SummedSingle(h: Hours)
    ensures Summed([Some(h)]) == if NonNegative(h) then Some(h) else None
  {
    assert [Some(h)][..0] == [];
  }

  /** The requirement checks shared by both forms of the cell. */
  method CheckTotals(total: Hours, subjectType: string, hasLab: bool) returns (ok: bool)
    ensures ok == WithinRequirement(total, subjectType, hasLab)
  {
    var requirement := ConfigV2.SubjectRequirement(subjectType, hasLab);
    if requirement.Err? {
      return false;
    }
    var req := requirement.value;
    if total.le > req.le { return false; }
    if total.tu > req.tu { return false; }
    if total.pr > req.pr { return false; }
    if hasLab && req.pr == 0 { return false; }
    if !hasLab && total.pr > 0 { return false; }
    return true;
  }

  /** The running totals of the '|'-separated entries, stopping at the first bad one. */
  method SumEntries(hoursParts: seq<string>) returns (total: Option<Hours>)
    ensures total == Summed(ParseAll(hoursParts))
  {
    ghost var triples := ParseAll(hoursParts);
    var sum := ConfigV2.Hours(0, 0, 0);
    for i := 0 to |hoursParts|
      invariant Summed(triples[..i]) == Some(sum)
    {
      var triple := ParseTriple(hoursParts[i]);
      if triple.None? || triple.value.le < 0 || triple.value.tu < 0 || triple.value.pr < 0 {
        SummedStepFails(triples, i, sum);
        return None;
      }
      SummedStep(triples, i, sum, triple.value);
      sum := AddHours(sum, triple.value);
    }
    assert triples[..|hoursParts|] == triples;
    return Some(sum);
  }

  /** `_validate_hours_taught`: every failure, including the ValueError of `int()`
      and of an unknown subject type, ends in `false`. */
  method ValidateHoursTaught(hoursStr: string, subjectType: string, hasLab: bool, teacherStr: string)
    returns (ok: bool)
    ensures ok == HoursTaughtValid(hoursStr, subjectType, hasLab, teacherStr)
  {
    if '|' in teacherStr && '|' in hoursStr {
      var teacherParts := StripAll(Split(teacherStr, '|'));
      var hoursParts := StripAll(Split(hoursStr, '|'));
      if |teacherParts| != |hoursParts| {
        return false;
      }
      assert HourEntries(hoursStr, teacherStr) == Some(hoursParts);
      var total := SumEntries(hoursParts);
      if total.None? {
        return false;
      }
      ok := CheckTotals(total.value, subjectType, hasLab);
    } else {
      assert HourEntries(hoursStr, teacherStr) == Some([hoursStr]);
      ParseAllSingle(hoursStr);
      var triple := ParseTriple(hoursStr);
      if triple.None? {
        return false;
      }
      var h := triple.value;
      SummedSingle(h);
      if h.le < 0 || h.tu < 0 || h.pr < 0 {
        return false;
      }
      ok := CheckTotals(h, subjectType, hasLab);
    }
  }
}

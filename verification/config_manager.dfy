// The YAML configuration of the second-generation generator (`ConfigManager` in
// project/config_manager.py): the default document, its validation, and reading and
// writing nested settings by dot-separated key paths.

module Settings {
  import opened Wrappers
  import Text

  /** A document as `yaml.safe_load` returns it: nested dictionaries with string keys,
      lists and scalars (floats are not modelled). */
  datatype Value =
    | Null
    | Bool(b: bool)
    | Int(i: int)
    | Str(s: string)
    | List(items: seq<Value>)
    | Dict(entries: map<string, Value>)

  /** Python truthiness: `None`, `False`, `0`, `""`, `[]` and `{}` are false. */
  predicate Truthy(v: Value) {
    match v
    case Null => false
    case Bool(b) => b
    case Int(i) => i != 0
    case Str(s) => s != ""
    case List(xs) => xs != []
    case Dict(m) => m != map[]
  }

  /** `d.get(key, default)`. */
  function Lookup(m: map<string, Value>, key: string, default: Value): Value {
    if key in m then m[key] else default
  }

  /** What `<` and `>` against an int see: an int, or a bool as 0 or 1; anything else
      raises TypeError (None). */
  function AsNumber(v: Value): Option<int> {
    match v
    case Int(i) => Some(i)
    case Bool(b) => Some(if b then 1 else 0)
    case _ => None
  }

  const LimitNames: seq<string> := ["max_consecutive_classes", "max_daily_hours", "max_daily_teacher_hours"]

  /** `_create_default_config`. */
  function DefaultConfig(): Value {
    Dict(map[
      "semester" := Dict(map[
        "type" := Str("odd"),
        "valid_odd" := List([Int(1), Int(3), Int(5), Int(7)]),
        "valid_even" := List([Int(2), Int(4), Int(6), Int(8)])]),
      "constraints" := Dict(map[
        "practical_consecutive" := Bool(true),
        "max_consecutive_classes" := Bool(true),
        "max_daily_hours" := Bool(true),
        "max_daily_teacher_hours" := Bool(true),
        "early_completion" := Bool(true)]),
      "limits" := Dict(map[
        "max_consecutive_classes" := Int(3),
        "max_daily_hours" := Int(6),
        "max_daily_teacher_hours" := Int(6)]),
      "solver" := Dict(map[
        "time_limit_seconds" := Int(300),
        "max_teacher_hours_per_week" := Int(16)])])
  }

  // ---------------------------------------------------------------------------
  // Validation

  /** The three limit checks in order: a limit missing from `limits` reads as 0, a value
      that is not a number raises, one outside 1..9 fails the validation. */
  function LimitChecks(limits: map<string, Value>, names: seq<string>): Result<bool, PyError> {
    if names == [] then Ok(true)
    else
      match AsNumber(Lookup(limits, names[0], Int(0)))
      case None => Err(TypeError("'<' not supported"))
      case Some(n) => if n < 1 || n > 9 then Ok(false) else LimitChecks(limits, names[1..])
  }

  /** The body of `_validate_config` inside its `try`: `Ok(verdict)` where it returns,
      `Err` where a check raises. A truthy document that is not a mapping is treated as
      raising. */
  function Checks(config: Value): Result<bool, PyError> {
    if !Truthy(config) then Ok(false)
    else if !config.Dict? then Err(TypeError("configuration is not a mapping"))
    else
      var m := config.entries;
      if "semester" !in m || "constraints" !in m || "limits" !in m then Ok(false)
      else if !m["semester"].Dict? then Err(AttributeError("get"))
      else if Lookup(m["semester"].entries, "type", Null) !in [Str("odd"), Str("even")] then Ok(false)
      else if !m["constraints"].Dict? then Err(AttributeError("items"))
      else if exists k :: k in m["constraints"].entries && !m["constraints"].entries[k].Bool? then Ok(false)
      else if !m["limits"].Dict? then Err(AttributeError("get"))
      else LimitChecks(m["limits"].entries, LimitNames)
  }

  /** A limit that reads (0 when missing) as a number in 1..9. */
  predicate LimitOk(limits: map<string, Value>, name: string) {
    var n := AsNumber(Lookup(limits, name, Int(0)));
    n.Some? && 1 <= n.value <= 9
  }

  /** What a valid document is: a mapping with `semester`, `constraints` and `limits`;
      the semester a mapping whose `type` is "odd" or "even"; every constraint a bool;
      every limit in 1..9 (a missing one reading as 0). */
  predicate WellFormed(config: Value) {
    && config.Dict?
    && "semester" in config.entries
    && "constraints" in config.entries
    && "limits" in config.entries
    && config.entries["semester"].Dict?
    && Lookup(config.entries["semester"].entries, "type", Null) in {Str("odd"), Str("even")}
    && config.entries["constraints"].Dict?
    && (forall k :: k in config.entries["constraints"].entries ==> config.entries["constraints"].entries[k].Bool?)
    && config.entries["limits"].Dict?
    && (forall name :: name in LimitNames ==> LimitOk(config.entries["limits"].entries, name))
  }

  lemma {:induction false} LimitChecksMeans(limits: map<string, Value>, names: seq<string>)
    ensures LimitChecks(limits, names) == Ok(true) <==> forall name :: name in names ==> LimitOk(limits, name)
    decreases |names|
  {
    if names != [] {
      LimitChecksMeans(limits, names[1..]);
      assert names[0] in names;
      assert forall name :: name in names <==> name == names[0] || name in names[1..];
    }
  }

  /** `_validate_config`: a raised exception is caught and reported as invalid, so the
      verdict is true exactly for well-formed documents. */
  function Validate(config: Value): (ok: bool)
    ensures ok <==> WellFormed(config)
  {
    if config.Dict? && "limits" in config.entries && config.entries["limits"].Dict? then
      LimitChecksMeans(config.entries["limits"].entries, LimitNames);
      Checks(config) == Ok(true)
    else
      Checks(config) == Ok(true)
  }

  /** The default document is valid, so falling back to it always yields a valid one. */
  lemma DefaultValid()
    ensures Validate(DefaultConfig())
  {
    var limits := DefaultConfig().entries["limits"].entries;
    assert forall name :: name in LimitNames ==> LimitOk(limits, name);
  }

  // ---------------------------------------------------------------------------
  // Dot-path reads and writes

  /** `get`: follow `keys` through dictionaries; a key that is missing or holds None,
      or a step into something that is not a dictionary, yields `default`. */
  function GetPath(v: Value, keys: seq<string>, default: Value): Value
    decreases |keys|
  {
    if keys == [] then v
    else if !v.Dict? then default
    else
      var next := Lookup(v.entries, keys[0], Null);
      if next.Null? then default else GetPath(next, keys[1..], default)
  }

  /** The value stored under the path `keys`, if every step is a dictionary that
      holds the next key. */
  function Walk(v: Value, keys: seq<string>): Option<Value>
    decreases |keys|
  {
    if keys == [] then Some(v)
    else if v.Dict? && keys[0] in v.entries then Walk(v.entries[keys[0]], keys[1..])
    else None
  }

  /** `get` answers the stored value when there is one other than None, and the default
      otherwise: False and 0 come back as they are. */
  lemma {:induction false} GetPathWalk(v: Value, keys: seq<string>, default: Value)
    requires |keys| >= 1
    ensures GetPath(v, keys, default) ==
      if Walk(v, keys).Some? && !Walk(v, keys).value.Null? then Walk(v, keys).value else default
    decreases |keys|
  {
    if v.Dict? && keys[0] in v.entries && !v.entries[keys[0]].Null? && |keys| > 1 {
      GetPathWalk(v.entries[keys[0]], keys[1..], default);
    }
  }

  /** `set` on values: walk the first keys, creating an empty dictionary for each
      missing one, and store `x` under the last key. Stepping into, or storing into,
      something that is not a dictionary raises TypeError, before anything is
      created. */
  function SetPath(v: Value, keys: seq<string>, x: Value): Result<Value, PyError>
    requires |keys| >= 1
    decreases |keys|
  {
    if !v.Dict? then Err(TypeError("not a dictionary"))
    else if |keys| == 1 then Ok(Dict(v.entries[keys[0] := x]))
    else
      var child := if keys[0] in v.entries then v.entries[keys[0]] else Dict(map[]);
      match SetPath(child, keys[1..], x)
      case Ok(c) => Ok(Dict(v.entries[keys[0] := c]))
      case Err(e) => Err(e)
  }

  /** Every proper prefix of `keys` that leads somewhere leads to a dictionary. */
  predicate PrefixesAreDicts(v: Value, keys: seq<string>) {
    forall i :: 0 <= i < |keys| ==> Walk(v, keys[..i]).None? || Walk(v, keys[..i]).value.Dict?
  }

  /** `set` succeeds exactly when no existing prefix of the path holds a non-dictionary. */
  lemma {:induction false} SetPathSucceeds(v: Value, keys: seq<string>, x: Value)
    requires |keys| >= 1
    ensures SetPath(v, keys, x).Ok? <==> PrefixesAreDicts(v, keys)
    decreases |keys|
  {
    assert keys[..0] == [];
    if v.Dict? && |keys| > 1 {
      var k := keys[0];
      var child := if k in v.entries then v.entries[k] else Dict(map[]);
      SetPathSucceeds(child, keys[1..], x);
      forall i | 1 <= i < |keys|
        ensures Walk(v, keys[..i]) == if k in v.entries then Walk(child, keys[1..][..i - 1]) else None
      {
        assert keys[..i][1..] == keys[1..][..i - 1];
      }
      if k in v.entries {
        if PrefixesAreDicts(child, keys[1..]) {
          forall i | 0 <= i < |keys|
            ensures Walk(v, keys[..i]).None? || Walk(v, keys[..i]).value.Dict?
          {
            if i > 0 {
              assert Walk(child, keys[1..][..i - 1]).None? || Walk(child, keys[1..][..i - 1]).value.Dict?;
            }
          }
        } else {
          var j :| 0 <= j < |keys| - 1 && !(Walk(child, keys[1..][..j]).None? || Walk(child, keys[1..][..j]).value.Dict?);
          assert Walk(v, keys[..j + 1]) == Walk(child, keys[1..][..j]);
        }
      } else {
        assert PrefixesAreDicts(child, keys[1..]) by {
          forall i | 0 <= i < |keys| - 1
            ensures Walk(child, keys[1..][..i]).None? || Walk(child, keys[1..][..i]).value.Dict?
          {
            if i > 0 {
              assert keys[1..][..i] == [keys[1]] + keys[1..][..i][1..];
            }
          }
        }
      }
    }
  }

  /** Reading a path right after writing it gives the value written (the default when
      None was written). */
  lemma {:induction false} SetThenGet(v: Value, keys: seq<string>, x: Value, default: Value)
    requires |keys| >= 1 && SetPath(v, keys, x).Ok?
    ensures Walk(SetPath(v, keys, x).value, keys) == Some(x)
    ensures GetPath(SetPath(v, keys, x).value, keys, default) == if x.Null? then default else x
    decreases |keys|
  {
    if |keys| > 1 {
      var child := if keys[0] in v.entries then v.entries[keys[0]] else Dict(map[]);
      SetThenGet(child, keys[1..], x, default);
    }
    GetPathWalk(SetPath(v, keys, x).value, keys, default);
  }

  /** Two paths that part ways at some position. */
  predicate Diverge(p: seq<string>, q: seq<string>) {
    exists i :: 0 <= i < |p| && i < |q| && p[i] != q[i]
  }

  /** Writing one path leaves every path that parts ways with it as it was. */
  lemma {:induction false} SetKeepsOthers(v: Value, keys: seq<string>, x: Value, q: seq<string>, default: Value)
    requires |keys| >= 1 && SetPath(v, keys, x).Ok?
    requires |q| >= 1 && Diverge(keys, q)
    ensures Walk(SetPath(v, keys, x).value, q) == Walk(v, q)
    ensures GetPath(SetPath(v, keys, x).value, q, default) == GetPath(v, q, default)
    decreases |keys|
  {
    var k := keys[0];
    if q[0] == k {
      var i :| 0 <= i < |keys| && i < |q| && keys[i] != q[i];
      assert i >= 1;
      assert keys[1..][i - 1] != q[1..][i - 1];
      var child := if k in v.entries then v.entries[k] else Dict(map[]);
      SetKeepsOthers(child, keys[1..], x, q[1..], default);
    }
    GetPathWalk(SetPath(v, keys, x).value, q, default);
    GetPathWalk(v, q, default);
  }

  /** `ConfigManager` holding its document. */
  class ConfigManager {
    var config: Value

    /** The document `load_config` settled on, given here rather than read from disk. */
    constructor(loaded: Value)
      ensures config == loaded
    {
      config := loaded;
    }

    /** `get(key_path, default)`. */
    method Get(keyPath: string, default: Value) returns (r: Value)
      ensures r == GetPath(config, Text.Split(keyPath, '.'), default)
    {
      var keys := Text.Split(keyPath, '.');
      var value := config;
      var i := 0;
      while i < |keys|
        invariant 0 <= i <= |keys|
        invariant GetPath(value, keys[i..], default) == GetPath(config, keys, default)
      {
        if value.Dict? {
          value := Lookup(value.entries, keys[i], Null);
          if value.Null? {
            return default;
          }
        } else {
          return default;
        }
        assert keys[i..][1..] == keys[i + 1..];
        i := i + 1;
      }
      return value;
    }

    /** `set(key_path, value)`: on success the document is `SetPath` of the old one;
        when the walk raises, nothing has changed. */
    method Set(keyPath: string, x: Value) returns (r: Result<(), PyError>)
      modifies this
      ensures SetPath(old(config), Text.Split(keyPath, '.'), x).Ok? ==>
        r.Ok? && config == SetPath(old(config), Text.Split(keyPath, '.'), x).value
      ensures SetPath(old(config), Text.Split(keyPath, '.'), x).Err? ==>
        r.Err? && config == old(config)
    {
      var written := SetPath(config, Text.Split(keyPath, '.'), x);
      if written.Ok? {
        config := written.value;
        r := Ok(());
      } else {
        r := Err(written.error);
      }
    }
  }
}

/** The configuration file: a nested JSON object read and written whole,
    with dotted-path access to nested entries (`get_config_value("a.b")`). */
module Config {
  import opened Common
  import opened Strings

  type Cfg = map<string, Json>

  /** `load_config` on the file's state: the empty map when no file exists. */
  function Loaded(file: Option<Cfg>): Cfg
  {
    if file.None? then map[] else file.value
  }

  /** The value at a path, when every step finds an object holding the key. */
  function At(v: Json, path: seq<string>): (r: Option<Json>)
    decreases |path|
  {
    if path == [] then Some(v)
    else if v.JObj? && path[0] in v.fields then At(v.fields[path[0]], path[1..])
    else None
  }

  /** What `get_config_value(key, default)` returns for a configuration. */
  function GetValue(cfg: Cfg, key: string, default: Json): Json
  {
    var r := At(JObj(cfg), Split(key, '.'));
    if r.Some? then r.value else default
  }

  /** One step of the walk in `set_config_value`: the object under `k`, a new
      empty object when `k` is missing, or `None` when the value under `k` is
      not an object (Python then raises `TypeError`). */
  function Child(m: Cfg, k: string): Option<Cfg>
  {
    if k !in m then Some(map[])
    else if m[k].JObj? then Some(m[k].fields)
    else None
  }

  /** The configuration after setting the value at `path`, or `None` when the
      walk meets a value that is not an object. */
  function SetPath(m: Cfg, path: seq<string>, v: Json): Option<Cfg>
    requires |path| >= 1
    decreases |path|
  {
    if |path| == 1 then Some(m[path[0] := v])
    else
      var c := Child(m, path[0]);
      if c.None? then None
      else
        var inner := SetPath(c.value, path[1..], v);
        if inner.None? then None else Some(m[path[0] := JObj(inner.value)])
  }

  /** Nested objects holding `v` at `path` and nothing else. */
  function Nest(path: seq<string>, v: Json): Json
    decreases |path|
  {
    if path == [] then v else JObj(map[path[0] := Nest(path[1..], v)])
  }

  /** After a successful set, reading the same path gives the written value. */
  lemma {:induction false} GetAfterSet(m: Cfg, path: seq<string>, v: Json)
    requires |path| >= 1 && SetPath(m, path, v).Some?
    ensures At(JObj(SetPath(m, path, v).value), path) == Some(v)
    decreases |path|
  {
    if |path| > 1 {
      GetAfterSet(Child(m, path[0]).value, path[1..], v);
    }
  }

  /** A set leaves every path that leaves the written path somewhere along the
      way as it was; in particular every sibling of the written key. */
  lemma {:induction false} SetLeavesDivergingPaths(m: Cfg, path: seq<string>, v: Json, other: seq<string>, i: nat)
    requires |path| >= 1 && SetPath(m, path, v).Some?
    requires i < |path| && i < |other| && other[..i] == path[..i] && other[i] != path[i]
    ensures At(JObj(SetPath(m, path, v).value), other) == At(JObj(m), other)
    decreases i
  {
    var m' := SetPath(m, path, v).value;
    if i > 0 {
      assert other[0] == path[0];
      assert other[1..][..i - 1] == path[1..][..i - 1];
      var c := Child(m, path[0]).value;
      SetLeavesDivergingPaths(c, path[1..], v, other[1..], i - 1);
      if path[0] !in m {
        EmptyHasNothing(other[1..]);
      }
    }
  }

  lemma {:induction false} EmptyHasNothing(path: seq<string>)
    requires path != []
    ensures At(JObj(map[]), path) == None
  {
  }

  /** A missing first key is created as nested objects down to the value. */
  lemma {:induction false} SetCreatesMissing(m: Cfg, path: seq<string>, v: Json)
    requires |path| >= 1 && path[0] !in m
    ensures SetPath(m, path, v) == Some(m[path[0] := Nest(path[1..], v)])
    decreases |path|
  {
    if |path| > 1 {
      SetCreatesMissing(map[], path[1..], v);
    }
  }

  /** The walk fails exactly when some proper prefix of the path leads to a
      value that is not an object. */
  lemma {:induction false} SetFailsOnlyOnNonObject(m: Cfg, path: seq<string>, v: Json)
    requires |path| >= 1
    ensures SetPath(m, path, v).None? <==>
            exists i :: 0 < i < |path| && At(JObj(m), path[..i]).Some? && !At(JObj(m), path[..i]).value.JObj?
    decreases |path|
  {
    if |path| > 1 {
      var k := path[0];
      if k !in m {
        SetCreatesMissing(m, path, v);
        forall i | 0 < i < |path| ensures At(JObj(m), path[..i]).None? {
          assert path[..i][0] == k;
        }
      } else if !m[k].JObj? {
        assert path[..1] == [k];
        assert At(JObj(m), path[..1]) == Some(m[k]);
      } else {
        var c := m[k].fields;
        SetFailsOnlyOnNonObject(c, path[1..], v);
        forall i | 1 < i < |path|
          ensures At(JObj(m), path[..i]) == At(JObj(c), path[1..][..i - 1])
        {
          assert path[..i][1..] == path[1..][..i - 1];
        }
        assert path[..1] == [k];
        if SetPath(m, path, v).None? {
          var j :| 0 < j < |path| - 1 && At(JObj(c), path[1..][..j]).Some? && !At(JObj(c), path[1..][..j]).value.JObj?;
          assert At(JObj(m), path[..j + 1]) == At(JObj(c), path[1..][..j]);
        } else {
          forall i | 0 < i < |path| && At(JObj(m), path[..i]).Some?
            ensures At(JObj(m), path[..i]).value.JObj?
          {
            if i > 1 {
              assert At(JObj(m), path[..i]) == At(JObj(c), path[1..][..i - 1]);
            }
          }
        }
      }
    }
  }

  /** A key without '.' reads and writes a top-level entry. */
  lemma TopLevelKey(cfg: Cfg, key: string, v: Json, default: Json)
    requires '.' !in key
    ensures GetValue(cfg, key, default) == if key in cfg then cfg[key] else default
    ensures SetPath(cfg, Split(key, '.'), v) == Some(cfg[key := v])
  {
    SplitNoSeparator(key, '.');
    assert [key][1..] == [];
    if key in cfg {
      assert At(JObj(cfg), [key]) == At(cfg[key], []);
    }
  }

  /** The file `~/.omnidrive/config.json`: absent, or holding a configuration. */
  class ConfigFile {
    var file: Option<Cfg>

    constructor (initial: Option<Cfg>)
      ensures file == initial
    {
      file := initial;
    }

    /** `load_config`. */
    method LoadConfig() returns (cfg: Cfg)
      ensures file.None? ==> cfg == map[]
      ensures file.Some? ==> cfg == file.value
    {
      if file.None? {
        cfg := map[];
      } else {
        cfg := file.value;
      }
    }

    /** `save_config`: the file afterwards holds `cfg`, so a following
        `load_config` returns it. */
    method SaveConfig(cfg: Cfg)
      modifies this
      ensures file == Some(cfg) && Loaded(file) == cfg
    {
      file := Some(cfg);
    }

    /** `get_config_value`: walks the dotted key, returning `default` as soon
        as a step does not find an object holding the key. */
    method GetConfigValue(key: string, default: Json) returns (r: Json)
      ensures r == GetValue(Loaded(file), key, default)
    {
      var cfg := LoadConfig();
      var keys := Split(key, '.');
      var value := JObj(cfg);
      var i := 0;
      while i < |keys|
        invariant 0 <= i <= |keys|
        invariant At(JObj(cfg), keys) == At(value, keys[i..])
      {
        var k := keys[i];
        assert keys[i..][0] == k && keys[i..][1..] == keys[i + 1..];
        if value.JObj? && k in value.fields {
          value := value.fields[k];
        } else {
          return default;
        }
        i := i + 1;
      }
      r := value;
    }

    /** `set_config_value`: walks to the parent of the last key, creating
        missing objects, sets the last key and saves. When the walk meets a
        value that is not an object Python raises `TypeError` before saving:
        `ok` is false and the file is unchanged. */
    method SetConfigValue(key: string, value: Json) returns (ok: bool)
      modifies this
      ensures var r := SetPath(Loaded(old(file)), Split(key, '.'), value);
              (ok <==> r.Some?) && (ok ==> file == Some(r.value)) && (!ok ==> file == old(file))
    {
      var cfg := LoadConfig();
      var keys := Split(key, '.');
      var n := |keys|;
      // frames[j] is the object reached after j steps of the walk
      var frames: seq<Cfg> := [cfg];
      var current := cfg;
      var j := 0;
      while j < n - 1
        invariant 0 <= j <= n - 1
        invariant |frames| == j + 1 && frames[0] == cfg && frames[j] == current
        invariant forall t :: 0 <= t < j ==> Child(frames[t], keys[t]) == Some(frames[t + 1])
      {
        var c := Child(current, keys[j]);
        if c.None? {
          SetPathFailsBelow(frames, keys, value, j);
          return false;
        }
        current := c.value;
        frames := frames + [current];
        j := j + 1;
      }
      var acc := current[keys[n - 1] := value];
      var t := n - 1;
      assert keys[t..] == [keys[n - 1]];
      while t > 0
        invariant 0 <= t <= n - 1
        invariant SetPath(frames[t], keys[t..], value) == Some(acc)
      {
        t := t - 1;
        assert keys[t..][0] == keys[t] && keys[t..][1..] == keys[t + 1..];
        acc := frames[t][keys[t] := JObj(acc)];
      }
      SaveConfig(acc);
      ok := true;
    }
  }

  /** A walk that fails at step `j` makes the whole set fail. */
  lemma {:induction false} SetPathFailsBelow(frames: seq<Cfg>, keys: seq<string>, v: Json, j: nat)
    requires j < |frames| && j < |keys| - 1
    requires forall t :: 0 <= t < j ==> Child(frames[t], keys[t]) == Some(frames[t + 1])
    requires Child(frames[j], keys[j]).None?
    ensures SetPath(frames[0], keys, v).None?
    decreases j
  {
    if j > 0 {
      SetPathFailsBelow(frames[1..], keys[1..], v, j - 1);
    }
  }
}

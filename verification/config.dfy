/** The settings store: a JSON document navigated with dotted keys
    ("ui.theme"), the default document, and the decisions taken when the
    settings file is loaded. */
module Config {
  import opened Common
  import opened Text

  /** A JSON value as `json.loads` returns it. */
  datatype Json =
    | JNull
    | JBool(b: bool)
    | JNum(n: real)
    | JStr(s: string)
    | JList(items: seq<Json>)
    | JObj(fields: map<string, Json>)

  /** Why `set` or `update` raises: a non-dict on the way (`TypeError`), or
      a document that is not a dict (`AttributeError` from `update`). */
  datatype ConfigError = TypeError | AttributeError

  /** `key.split('.')`. */
  function KeyPath(key: string): (keys: seq<string>)
    ensures |keys| >= 1 && forall i :: 0 <= i < |keys| ==> '.' !in keys[i]
  {
    Split(key, '.')
  }

  /** `a` is an initial part of `b`. */
  predicate IsPrefix(a: seq<string>, b: seq<string>) {
    |a| <= |b| && b[..|a|] == a
  }

  /** The walk of `get`: follow the keys through nested dicts; none as soon
      as a key is missing or the value reached is not a dict. */
  function Lookup(node: Json, keys: seq<string>): (r: Option<Json>)
    ensures |keys| == 0 ==> r == Some(node)
    ensures |keys| > 0 && !node.JObj? ==> r.None?
    decreases |keys|
  {
    if |keys| == 0 then Some(node)
    else if node.JObj? && keys[0] in node.fields then Lookup(node.fields[keys[0]], keys[1..])
    else None
  }

  /** Walking two key lists one after the other is walking their
      concatenation. */
  lemma {:induction false} LookupConcat(node: Json, a: seq<string>, b: seq<string>)
    ensures Lookup(node, a + b) == (if Lookup(node, a).Some? then Lookup(Lookup(node, a).value, b) else None)
    decreases |a|
  {
    if |a| == 0 {
      assert a + b == b;
    } else {
      assert (a + b)[0] == a[0] && (a + b)[1..] == a[1..] + b;
      if node.JObj? && a[0] in node.fields {
        LookupConcat(node.fields[a[0]], a[1..], b);
      }
    }
  }

  /** `ConfigManager.get(key, default)`. */
  function Get(config: Json, key: string, default: Json): (v: Json)
    ensures Lookup(config, KeyPath(key)).Some? ==> v == Lookup(config, KeyPath(key)).value
    ensures Lookup(config, KeyPath(key)).None? ==> v == default
  {
    match Lookup(config, KeyPath(key))
    case Some(x) => x
    case None => default
  }

  /** `set` succeeds exactly when every value already on the key's way is a
      dict: a missing one is created, anything else raises. */
  predicate Settable(node: Json, keys: seq<string>)
    requires |keys| >= 1
    decreases |keys|
  {
    node.JObj? && (|keys| == 1 || keys[0] !in node.fields || Settable(node.fields[keys[0]], keys[1..]))
  }

  /** The document after `set`: missing dicts on the way are created and
      the last key gets the value. Nothing is changed when it raises, since
      a failure can only come before the first dict is created. */
  function SetPath(node: Json, keys: seq<string>, v: Json): (r: Result<Json, ConfigError>)
    requires |keys| >= 1
    ensures r.Ok? <==> Settable(node, keys)
    ensures r.Ok? ==> r.value.JObj? && r.value.fields.Keys == node.fields.Keys + {keys[0]}
    ensures r.Err? ==> r.error == TypeError
    decreases |keys|
  {
    if !node.JObj? then Err(TypeError)
    else if |keys| == 1 then Ok(JObj(node.fields[keys[0] := v]))
    else
      var child := if keys[0] in node.fields then node.fields[keys[0]] else JObj(map[]);
      match SetPath(child, keys[1..], v)
      case Err(e) => Err(e)
      case Ok(c) => Ok(JObj(node.fields[keys[0] := c]))
  }

  /** `ConfigManager.set(key, value)`. */
  function Set(config: Json, key: string, v: Json): (r: Result<Json, ConfigError>)
    ensures r.Ok? <==> Settable(config, KeyPath(key))
  {
    SetPath(config, KeyPath(key), v)
  }

  /** What `set` does to every lookup: below the key the new value is
      found, away from it nothing changes. */
  lemma {:induction false} SetLookup(node: Json, keys: seq<string>, v: Json, p: seq<string>)
    requires |keys| >= 1 && SetPath(node, keys, v).Ok?
    ensures IsPrefix(keys, p) ==> Lookup(SetPath(node, keys, v).value, p) == Lookup(v, p[|keys|..])
    ensures !IsPrefix(keys, p) && !IsPrefix(p, keys) ==>
              Lookup(SetPath(node, keys, v).value, p) == Lookup(node, p)
    decreases |keys|
  {
    var r := SetPath(node, keys, v).value;
    if |p| > 0 && p[0] == keys[0] {
      if |keys| == 1 {
        assert r.fields[keys[0]] == v;
      } else {
        var child := if keys[0] in node.fields then node.fields[keys[0]] else JObj(map[]);
        var c := SetPath(child, keys[1..], v).value;
        assert r.fields[keys[0]] == c;
        assert Lookup(r, p) == Lookup(c, p[1..]);
        SetLookup(child, keys[1..], v, p[1..]);
        PrefixCons(keys, p);
        PrefixCons(p, keys);
        if IsPrefix(keys, p) {
          assert p[1..][|keys[1..]|..] == p[|keys|..];
        }
      }
    }
  }

  /** Two key lists with the same first key: one is an initial part of the
      other exactly when their tails are. */
  lemma PrefixCons(a: seq<string>, b: seq<string>)
    requires |a| > 0 && |b| > 0 && a[0] == b[0]
    ensures IsPrefix(a, b) <==> IsPrefix(a[1..], b[1..])
  {
    if IsPrefix(a[1..], b[1..]) {
      assert b[..|a|] == [b[0]] + b[1..][..|a| - 1];
      assert a == [a[0]] + a[1..];
    }
    if IsPrefix(a, b) {
      assert b[1..][..|a| - 1] == b[..|a|][1..];
    }
  }

  /** `get(k)` after `set(k, v)` gives `v`. */
  lemma GetAfterSet(config: Json, key: string, v: Json, default: Json)
    requires Set(config, key, v).Ok?
    ensures Get(Set(config, key, v).value, key, default) == v
  {
    var keys := KeyPath(key);
    SetLookup(config, keys, v, keys);
    assert keys[|keys|..] == [];
  }

  /** `ConfigManager.update(updates)`: `dict.update`, a shallow merge. */
  function Update(config: Json, updates: map<string, Json>): (r: Result<Json, ConfigError>)
    ensures r.Err? <==> !config.JObj?
    ensures r.Ok? ==> r.value.JObj? && r.value.fields.Keys == config.fields.Keys + updates.Keys
  {
    if config.JObj? then Ok(JObj(config.fields + updates)) else Err(AttributeError)
  }

  /** After an update, everything under an updated key comes from the
      update alone (nested dicts are replaced, not merged), and everything
      under another key is as before. */
  lemma UpdateShallow(config: Json, updates: map<string, Json>, k: string, rest: seq<string>)
    requires config.JObj?
    ensures var r := Update(config, updates).value;
            && (k in updates ==> Lookup(r, [k] + rest) == Lookup(updates[k], rest))
            && (k !in updates ==> Lookup(r, [k] + rest) == Lookup(config, [k] + rest))
  {
    assert ([k] + rest)[0] == k && ([k] + rest)[1..] == rest;
  }

  // ---------------------------------------------------------------- loading

  /** `_get_default_config()`. */
  const DefaultConfig: Json := JObj(map[
    "output_format" := JStr("wav"),
    "theme" := JStr("light"),
    "window_geometry" := JObj(map["width" := JNum(1100.0), "height" := JNum(750.0)]),
    "last_paths" := JObj(map["ham" := JStr(""), "fon" := JStr(""), "output" := JStr("")])
  ])

  /** The default settings as the window reads them: every `get` of a
      dotted key below resolves to the shipped value. */
  lemma DefaultValues()
    ensures Lookup(DefaultConfig, ["output_format"]) == Some(JStr("wav"))
    ensures Lookup(DefaultConfig, ["theme"]) == Some(JStr("light"))
    ensures Lookup(DefaultConfig, ["window_geometry", "width"]) == Some(JNum(1100.0))
    ensures Lookup(DefaultConfig, ["window_geometry", "height"]) == Some(JNum(750.0))
    ensures Lookup(DefaultConfig, ["last_paths", "output"]) == Some(JStr(""))
    ensures Lookup(DefaultConfig, ["theme", "dark"]) == None
  {
    assert ["window_geometry", "width"][1..] == ["width"];
    assert ["window_geometry", "height"][1..] == ["height"];
    assert ["last_paths", "output"][1..] == ["output"];
    assert ["theme", "dark"][1..] == ["dark"];
  }

  /** What the settings file looks like when it is loaded: absent,
      unreadable (any error other than a JSON syntax error), or present with
      its size in bytes and its text. */
  datatype ConfigFile = Missing | Unreadable | Present(size: nat, content: string)

  /** The loaded document and the path the file was moved to, if it was
      set aside as corrupt. */
  datatype Loaded = Loaded(config: Json, backup: Option<string>)

  /** `ConfigManager.load`, with `json.loads` as `parse` (none on a syntax
      error). */
  function Load(path: string, file: ConfigFile, parse: string -> Option<Json>): (r: Loaded)
  {
    match file
    case Missing => Loaded(DefaultConfig, None)
    case Unreadable => Loaded(DefaultConfig, None)
    case Present(size, content) =>
      if size == 0 then Loaded(DefaultConfig, None)
      else
        var text := Strip(content);
        if text == "" then Loaded(DefaultConfig, None)
        else
          match parse(text)
          case None => Loaded(DefaultConfig, Some(path + ".backup"))
          case Some(j) => Loaded(j, None)
  }

  /** The file's own document is used exactly when it is present, not
      empty, not blank and parses; every other case falls back to the
      defaults, and only a file that does not parse is moved aside. */
  lemma LoadDecisions(path: string, file: ConfigFile, parse: string -> Option<Json>)
    ensures var r := Load(path, file, parse);
            var usable := file.Present? && file.size > 0 && Strip(file.content) != "";
            && (usable && parse(Strip(file.content)).Some? ==> r == Loaded(parse(Strip(file.content)).value, None))
            && (!(usable && parse(Strip(file.content)).Some?) ==> r.config == DefaultConfig)
            && (r.backup.Some? <==> usable && parse(Strip(file.content)).None?)
            && (r.backup.Some? ==> r.backup.value == path + ".backup")
  {
    match file
    case Missing =>
    case Unreadable =>
    case Present(size, content) =>
      if size > 0 && Strip(content) != "" {
        assert Load(path, file, parse) == (match parse(Strip(content))
                                           case None => Loaded(DefaultConfig, Some(path + ".backup"))
                                           case Some(j) => Loaded(j, None));
      }
  }

  /** A blank file (only whitespace) loads the defaults and is kept. */
  lemma BlankFileLoadsDefaults(path: string, content: string, parse: string -> Option<Json>)
    requires |content| > 0 && forall k :: 0 <= k < |content| ==> IsSpace(content[k])
    ensures Load(path, Present(|content|, content), parse) == Loaded(DefaultConfig, None)
  {
  }

  /** A document written as text that reads back as itself is what the
      next start loads. */
  lemma LoadAfterSave(path: string, config: Json, dump: Json -> string, parse: string -> Option<Json>)
    requires Strip(dump(config)) != "" && parse(Strip(dump(config))) == Some(config)
    ensures Load(path, Present(|dump(config)|, dump(config)), parse).config == config
  {
  }
}

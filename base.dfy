/** Shared constants and the pure helpers of the logging core: JSON-type
    validation, the logfmt encoders and the environment-seeded context. */
module Base {
  import opened Text
  import opened PyValue

  /** The record attribute (and `extra` key) naming the keys the adapter added. */
  const ExtraKey: string := "_stlog_extra"

  /** Attribute names that the reinjection handler and the formatter use but
      that this version of the base module does not define; they are modelled
      as two distinct private-looking names. */
  const ExtraKeysKey: string := "_stlog_extra_keys"
  const ManagedKey: string := "_stlog_managed"

  /** The natural `LogRecord` attributes, which are never taken as extras. */
  const ReservedNames: seq<string> := [
    "args", "asctime", "created", "exc_info", "exc_text", "filename",
    "funcName", "levelname", "levelno", "lineno", "module", "msecs",
    "message", "msg", "name", "pathname", "process", "processName",
    "relativeCreated", "stack_info", "thread", "threadName"
  ]

  const ReservedAttrs: set<string> := set i | 0 <= i < |ReservedNames| :: ReservedNames[i]

  // ---------------------------------------------------------------------
  // JSON-type validation

  /** Reference definition: a value built only from None, bool, str, int and
      float, through lists and str-keyed dicts, at any depth. */
  predicate IsJson(v: Value) {
    match v
    case None => true
    case Bool(_) => true
    case Int(_) => true
    case Float(_) => true
    case Str(_) => true
    case List(items) => forall i | 0 <= i < |items| :: IsJson(items[i])
    case Dict(entries) => forall i | 0 <= i < |entries| :: entries[i].0.Str? && IsJson(entries[i].1)
    case _ => false
  }

  /** `check_json_types_or_raise`: walks the value the way the source does
      (items of a list in order, then keys and values of a dict in order) and
      fails with `StLogError` on the first offending type or key. */
  function CheckJsonTypes(v: Value): (r: Outcome)
    ensures r.Pass? <==> IsJson(v)
    ensures r.Fail? ==> r.error == StLogError
    decreases v, 1
  {
    match v
    case None => Pass
    case Bool(_) => Pass
    case Int(_) => Pass
    case Float(_) => Pass
    case Str(_) => Pass
    case List(_) => CheckItems(v, 0)
    case Dict(_) => CheckEntries(v, 0)
    case _ => Fail(StLogError)
  }

  function CheckItems(list: Value, i: nat): (r: Outcome)
    requires list.List? && i <= |list.items|
    ensures r.Pass? <==> forall j | i <= j < |list.items| :: IsJson(list.items[j])
    ensures r.Fail? ==> r.error == StLogError
    decreases list, 0, |list.items| - i
  {
    if i == |list.items| then Pass
    else match CheckJsonTypes(list.items[i])
      case Fail(e) => Fail(e)
      case Pass => CheckItems(list, i + 1)
  }

  function CheckEntries(dict: Value, i: nat): (r: Outcome)
    requires dict.Dict? && i <= |dict.entries|
    ensures r.Pass? <==>
            forall j | i <= j < |dict.entries| :: dict.entries[j].0.Str? && IsJson(dict.entries[j].1)
    ensures r.Fail? ==> r.error == StLogError
    decreases dict, 0, |dict.entries| - i
  {
    if i == |dict.entries| then Pass
    else if !dict.entries[i].0.Str? then Fail(StLogError)
    else match CheckJsonTypes(dict.entries[i].1)
      case Fail(e) => Fail(e)
      case Pass => CheckEntries(dict, i + 1)
  }

  /** A set anywhere inside a list is rejected, and so is a dict with a
      non-str key, whatever else the value holds. */
  lemma {:induction false} NestedOffenderRejected(prefix: seq<Value>, bad: Value, suffix: seq<Value>)
    requires bad.Set? || (bad.Dict? && exists i | 0 <= i < |bad.entries| :: !bad.entries[i].0.Str?)
    ensures CheckJsonTypes(List(prefix + [bad] + suffix)) == Fail(StLogError)
  {
    var items := prefix + [bad] + suffix;
    assert items[|prefix|] == bad;
    assert !IsJson(bad);
  }

  // ---------------------------------------------------------------------
  // logfmt

  /** Reference escaping, one character at a time: `"` becomes `\"` and a
      newline becomes `\n`; every other character is kept. */
  function Escape(s: string): (r: string)
    ensures '\n' !in r
    ensures r == [] <==> s == []
  {
    if s == [] then []
    else (if s[0] == '"' then "\\\"" else if s[0] == '\n' then "\\n" else [s[0]]) + Escape(s[1..])
  }

  /** The source escapes with two successive `replace` calls; they amount to
      the one-pass escaping. */
  lemma {:induction false} ReplaceTwiceIsEscape(s: string)
    ensures Replace(Replace(s, '"', "\\\""), '\n', "\\n") == Escape(s)
  {
    if s != [] {
      ReplaceTwiceIsEscape(s[1..]);
      var head := if s[0] == '"' then "\\\"" else [s[0]];
      ReplaceAppend(head, Replace(s[1..], '"', "\\\""), '\n', "\\n");
      if s[0] == '"' {
        assert Replace(head, '\n', "\\n") == "\\\"";
      } else if s[0] == '\n' {
        assert Replace(head, '\n', "\\n") == "\\n";
      } else {
        assert Replace(head, '\n', "\\n") == [s[0]];
      }
    }
  }

  /** `logfmt_format_string`. */
  function LogfmtFormatString(value: string): (r: string)
    ensures value == "" ==> r == "\"\""
    ensures (' ' in value || '=' in value) ==> r == "\"" + Escape(value) + "\""
    ensures !(' ' in value || '=' in value) && value != "" ==> r == Escape(value)
    ensures '\n' !in r
  {
    var needsDquoteEscaping := '"' in value;
    var needsNewlineEscaping := '\n' in value;
    var needsQuoting := ' ' in value || '=' in value;
    var v1 := if needsDquoteEscaping then Replace(value, '"', "\\\"") else value;
    var v2 := if needsNewlineEscaping then Replace(v1, '\n', "\\n") else v1;
    ReplaceTwiceIsEscape(value);
    assert v2 == Escape(value);
    var v3 := if needsQuoting then "\"" + v2 + "\"" else v2;
    if v3 != "" then v3 else "\"\""
  }

  /** Reads back an escaped text: `\"` and `\n` are decoded, every other
      character is kept. */
  function Unescape(t: string): string {
    if t == [] then []
    else if |t| >= 2 && t[0] == '\\' && t[1] == '"' then ['"'] + Unescape(t[2..])
    else if |t| >= 2 && t[0] == '\\' && t[1] == 'n' then ['\n'] + Unescape(t[2..])
    else [t[0]] + Unescape(t[1..])
  }

  /** Reads back one logfmt value: strips the surrounding quotes, if any, then
      decodes the escapes. */
  function LogfmtReadString(t: string): string {
    if |t| >= 2 && t[0] == '"' && t[|t| - 1] == '"' then Unescape(t[1..|t| - 1]) else Unescape(t)
  }

  lemma {:induction false} EscapeRoundTrip(s: string)
    requires '\\' !in s
    ensures Unescape(Escape(s)) == s
  {
    if s != [] {
      EscapeRoundTrip(s[1..]);
      var rest := Escape(s[1..]);
      if s[0] == '"' {
        assert Escape(s) == "\\\"" + rest;
        assert (Escape(s))[2..] == rest;
      } else if s[0] == '\n' {
        assert Escape(s) == "\\n" + rest;
        assert (Escape(s))[2..] == rest;
      } else {
        assert Escape(s) == [s[0]] + rest;
        assert (Escape(s))[1..] == rest;
      }
    }
  }

  lemma EscapeDoesNotStartWithQuote(s: string)
    requires s != []
    ensures Escape(s)[0] != '"'
  {
  }

  /** Every string free of backslashes is recovered from its logfmt form. */
  lemma LogfmtStringRoundTrip(s: string)
    requires '\\' !in s
    ensures LogfmtReadString(LogfmtFormatString(s)) == s
  {
    var r := LogfmtFormatString(s);
    if s == "" {
      assert r == "\"\"";
      assert r[1..|r| - 1] == "";
    } else if ' ' in s || '=' in s {
      assert r[1..|r| - 1] == Escape(s);
      EscapeRoundTrip(s);
    } else {
      EscapeDoesNotStartWithQuote(s);
      EscapeRoundTrip(s);
    }
  }

  /** Backslashes are not escaped, so a newline and the two characters `\n`
      are written the same way. */
  lemma NewlineAndBackslashNCollide()
    ensures LogfmtFormatString("\n") == LogfmtFormatString("\\n") == "\\n"
  {
    assert Replace("\n", '\n', "\\n") == "\\n";
  }

  /** `logfmt_format_value`: None is empty, booleans are lower-case words
      (tested before numbers), numbers are their text, and anything else is
      its `str()` run through `logfmt_format_string`. `Nothing` when `str()`
      raises. */
  function LogfmtFormatValue(v: Value, render: Value -> Option<string>): (r: Option<string>)
    ensures v.None? ==> r == Some("")
    ensures v.Bool? ==> r == Some(if v.b then "true" else "false")
    ensures v.Int? ==> r == Some(IntText(v.i))
    ensures v.Float? ==> r == render(v)
    ensures v.Str? ==> r == Some(LogfmtFormatString(v.s))
  {
    match v
    case None => Some("")
    case Bool(b) => Some(if b then "true" else "false")
    case Int(_) => PyStr(v, render)
    case Float(_) => PyStr(v, render)
    case _ =>
      match PyStr(v, render)
      case Nothing => Nothing
      case Some(t) => Some(LogfmtFormatString(t))
  }

  /** Values that `ignore_compound_types` drops: instances of dict, list or set. */
  predicate IsCompound(v: Value) {
    IsInstance(v, {DictType, ListType, SetType})
  }

  /** The pairs `logfmt_format` keeps, in input order. */
  function Kept(kvs: seq<(string, Value)>, ignoreCompoundTypes: bool): (r: seq<(string, Value)>)
    ensures |r| <= |kvs|
    ensures forall p | p in r :: p in kvs && !(ignoreCompoundTypes && IsCompound(p.1))
    ensures forall p | p in kvs && !(ignoreCompoundTypes && IsCompound(p.1)) :: p in r
  {
    if kvs == [] then []
    else
      var rest := Kept(kvs[1..], ignoreCompoundTypes);
      if ignoreCompoundTypes && IsCompound(kvs[0].1) then rest else [kvs[0]] + rest
  }

  /** One `key=value` piece per kept pair, in the same order. */
  function LogfmtPieces(kept: seq<(string, Value)>, render: Value -> Option<string>): (r: Option<seq<string>>)
    ensures r.Some? ==> |r.value| == |kept|
  {
    if kept == [] then Some([])
    else match LogfmtFormatValue(kept[0].1, render)
      case Nothing => Nothing
      case Some(t) =>
        match LogfmtPieces(kept[1..], render)
        case Nothing => Nothing
        case Some(rest) => Some([kept[0].0 + "=" + t] + rest)
  }

  /** The pieces exist exactly when every kept value can be written, and
      piece `i` is the key and the written value of pair `i`. */
  lemma {:induction false} PiecesPointwise(kept: seq<(string, Value)>, render: Value -> Option<string>)
    ensures LogfmtPieces(kept, render).Some? <==>
            forall i | 0 <= i < |kept| :: LogfmtFormatValue(kept[i].1, render).Some?
    ensures LogfmtPieces(kept, render).Some? ==> forall i | 0 <= i < |kept| ::
              LogfmtPieces(kept, render).value[i] == kept[i].0 + "=" + LogfmtFormatValue(kept[i].1, render).value
  {
    if kept != [] {
      PiecesPointwise(kept[1..], render);
      assert forall i | 1 <= i < |kept| :: kept[1..][i - 1] == kept[i];
    }
  }

  /** `logfmt_format`: the space-joined `key=value` pieces. */
  function LogfmtFormat(kvs: seq<(string, Value)>, ignoreCompoundTypes: bool,
                        render: Value -> Option<string>): (r: Option<string>)
    ensures r.Some? <==> forall p | p in kvs && !(ignoreCompoundTypes && IsCompound(p.1)) ::
                           LogfmtFormatValue(p.1, render).Some?
  {
    var kept := Kept(kvs, ignoreCompoundTypes);
    assert forall i | 0 <= i < |kept| :: kept[i] in kept;
    PiecesPointwise(kept, render);
    match LogfmtPieces(Kept(kvs, ignoreCompoundTypes), render)
    case Nothing => Nothing
    case Some(pieces) => Some(Join(" ", pieces))
  }

  /** Filtering `a + b` keeps the pairs kept from `a`, then those kept from
      `b`: the order of the input is the order of the output. */
  lemma {:induction false} KeptAppend(a: seq<(string, Value)>, b: seq<(string, Value)>, ignoreCompoundTypes: bool)
    ensures Kept(a + b, ignoreCompoundTypes) == Kept(a, ignoreCompoundTypes) + Kept(b, ignoreCompoundTypes)
  {
    if a == [] {
      assert a + b == b;
    } else {
      assert (a + b)[0] == a[0];
      assert (a + b)[1..] == a[1..] + b;
      KeptAppend(a[1..], b, ignoreCompoundTypes);
    }
  }

  /** The pieces of `a + b` exist exactly when those of `a` and of `b` do. */
  lemma PiecesAppendDefined(a: seq<(string, Value)>, b: seq<(string, Value)>, render: Value -> Option<string>)
    ensures LogfmtPieces(a + b, render).Some? <==> LogfmtPieces(a, render).Some? && LogfmtPieces(b, render).Some?
  {
    PiecesPointwise(a + b, render);
    PiecesPointwise(a, render);
    PiecesPointwise(b, render);
    assert forall i | 0 <= i < |a| :: (a + b)[i] == a[i];
    assert forall i | 0 <= i < |b| :: (a + b)[|a| + i] == b[i];
  }

  /** The pieces of `a + b` are the pieces of `a`, then those of `b`. */
  lemma PiecesAppend(a: seq<(string, Value)>, b: seq<(string, Value)>, render: Value -> Option<string>)
    requires LogfmtPieces(a, render).Some? && LogfmtPieces(b, render).Some?
    ensures LogfmtPieces(a + b, render) == Some(LogfmtPieces(a, render).value + LogfmtPieces(b, render).value)
  {
    PiecesAppendDefined(a, b, render);
    var pab, pa, pb := LogfmtPieces(a + b, render).value, LogfmtPieces(a, render).value, LogfmtPieces(b, render).value;
    PiecesPointwise(a + b, render);
    PiecesPointwise(a, render);
    PiecesPointwise(b, render);
    forall i | 0 <= i < |pab|
      ensures pab[i] == (pa + pb)[i]
    {
      if i < |a| {
        assert (a + b)[i] == a[i];
      } else {
        assert (a + b)[i] == b[i - |a|];
      }
    }
    assert pab == pa + pb;
  }

  /** Formatting `a + b` joins the texts of `a` and of `b` with one space;
      a part that keeps no pair adds nothing. */
  lemma LogfmtFormatAppend(a: seq<(string, Value)>, b: seq<(string, Value)>, ignoreCompoundTypes: bool,
                           render: Value -> Option<string>)
    ensures LogfmtFormat(a + b, ignoreCompoundTypes, render).Some? <==>
            LogfmtFormat(a, ignoreCompoundTypes, render).Some? && LogfmtFormat(b, ignoreCompoundTypes, render).Some?
    ensures LogfmtFormat(a + b, ignoreCompoundTypes, render).Some? ==>
              var ta := LogfmtFormat(a, ignoreCompoundTypes, render).value;
              var tb := LogfmtFormat(b, ignoreCompoundTypes, render).value;
              LogfmtFormat(a + b, ignoreCompoundTypes, render).value
              == if ta == "" then tb else if tb == "" then ta else ta + " " + tb
  {
    var ka, kb := Kept(a, ignoreCompoundTypes), Kept(b, ignoreCompoundTypes);
    KeptAppend(a, b, ignoreCompoundTypes);
    PiecesAppendDefined(ka, kb, render);
    if LogfmtFormat(a + b, ignoreCompoundTypes, render).Some? {
      PiecesAppend(ka, kb, render);
      LogfmtFormatEmpty(a, ignoreCompoundTypes, render);
      LogfmtFormatEmpty(b, ignoreCompoundTypes, render);
      var pa, pb := LogfmtPieces(ka, render).value, LogfmtPieces(kb, render).value;
      if ka == [] {
        assert pa == [] && pa + pb == pb;
      } else if kb == [] {
        assert pb == [] && pa + pb == pa;
      } else {
        JoinAppend(" ", pa, pb);
      }
    }
  }

  /** A single pair is dropped when compound types are ignored and its value
      is one; otherwise it is written `key=value`. */
  lemma LogfmtFormatPair(k: string, v: Value, ignoreCompoundTypes: bool, render: Value -> Option<string>)
    ensures ignoreCompoundTypes && IsCompound(v) ==> LogfmtFormat([(k, v)], ignoreCompoundTypes, render) == Some("")
    ensures !(ignoreCompoundTypes && IsCompound(v)) ==>
              && (LogfmtFormat([(k, v)], ignoreCompoundTypes, render).Some? <==> LogfmtFormatValue(v, render).Some?)
              && (LogfmtFormat([(k, v)], ignoreCompoundTypes, render).Some? ==>
                    LogfmtFormat([(k, v)], ignoreCompoundTypes, render).value
                    == k + "=" + LogfmtFormatValue(v, render).value)
  {
    assert [(k, v)][1..] == [];
  }

  /** The logfmt text is empty exactly when no pair is kept (every piece
      holds at least its `=`). */
  lemma LogfmtFormatEmpty(kvs: seq<(string, Value)>, ignoreCompoundTypes: bool,
                          render: Value -> Option<string>)
    requires LogfmtFormat(kvs, ignoreCompoundTypes, render).Some?
    ensures LogfmtFormat(kvs, ignoreCompoundTypes, render).value == "" <==>
            Kept(kvs, ignoreCompoundTypes) == []
  {
    var kept := Kept(kvs, ignoreCompoundTypes);
    var pieces := LogfmtPieces(kept, render).value;
    PiecesPointwise(kept, render);
    JoinEmpty(" ", pieces);
    if kept != [] {
      assert pieces[0] == kept[0].0 + "=" + LogfmtFormatValue(kept[0].1, render).value;
      assert pieces[0][|kept[0].0|] == '=';
    }
  }

  // ---------------------------------------------------------------------
  // Environment-seeded context

  const EnvContextPrefix: string := "STLOG_ENV_CONTEXT_"
  const EnvJsonContextName: string := "STLOG_ENV_JSON_CONTEXT"
  const EnvIgnoreName: string := "STLOG_IGNORE_ENV_CONTEXT"

  /** `os.environ.get(name)` over the environment, given as its list of
      variables. */
  function EnvGet(env: seq<(string, string)>, name: string): (r: Option<string>)
    ensures r.Some? <==> exists i | 0 <= i < |env| :: env[i].0 == name
    ensures r.Some? ==> (name, r.value) in env
  {
    if env == [] then Nothing
    else if env[0].0 == name then Some(env[0].1)
    else EnvGet(env[1..], name)
  }

  /** The context key that a prefixed variable name gives, if any. */
  function PrefixedKey(name: string): Option<string> {
    if StartsWith(name, EnvContextPrefix) && |name| > |EnvContextPrefix|
    then Some(Lower(name[|EnvContextPrefix|..]))
    else Nothing
  }

  /** Specification of `_get_env_context`: the variables are visited in
      order, and a later variable wins on a shared lower-cased key. */
  function PrefixContext(env: seq<(string, string)>): map<string, Value> {
    if env == [] then map[]
    else
      var res := PrefixContext(env[..|env| - 1]);
      var last := env[|env| - 1];
      match PrefixedKey(last.0)
      case Nothing => res
      case Some(key) => res[key := Str(last.1)]
  }

  /** `_get_env_context`. */
  method GetEnvPrefixContext(env: seq<(string, string)>) returns (res: map<string, Value>)
    ensures res == PrefixContext(env)
  {
    res := map[];
    for i := 0 to |env|
      invariant res == PrefixContext(env[..i])
    {
      assert env[..i + 1][..i] == env[..i];
      var envKey := env[i].0;
      if !StartsWith(envKey, EnvContextPrefix) {
        continue;
      }
      var key := Lower(envKey[|EnvContextPrefix|..]);
      if key == "" {
        continue;
      }
      res := res[key := Str(env[i].1)];
    }
    assert env[..|env|] == env;
  }

  /** A key is in the prefix context exactly when some variable is the
      prefix followed by a non-empty name that lower-cases to it; every value
      is a string. */
  lemma {:induction false} PrefixContextKeys(env: seq<(string, string)>, key: string)
    ensures key in PrefixContext(env) <==>
            exists i | 0 <= i < |env| :: PrefixedKey(env[i].0) == Some(key)
    ensures key in PrefixContext(env) ==> PrefixContext(env)[key].Str?
  {
    if env != [] {
      var init := env[..|env| - 1];
      PrefixContextKeys(init, key);
      if exists i | 0 <= i < |init| :: PrefixedKey(init[i].0) == Some(key) {
        var i :| 0 <= i < |init| && PrefixedKey(init[i].0) == Some(key);
        assert env[i] == init[i];
      }
      if exists i | 0 <= i < |env| :: PrefixedKey(env[i].0) == Some(key) {
        var i :| 0 <= i < |env| && PrefixedKey(env[i].0) == Some(key);
        if i < |env| - 1 { assert init[i] == env[i]; }
      }
    }
  }

  /** A variable whose name is exactly the prefix is dropped. */
  lemma BarePrefixDropped()
    ensures PrefixedKey(EnvContextPrefix) == Nothing
  {
  }

  /** `_get_env_json_context`: the parsed JSON variable, or an empty dict
      when it is unset or `parse` (standing for `json.loads`) rejects it.
      Whatever JSON value parses is returned as is, dict or not. */
  function EnvJsonContext(env: seq<(string, string)>, parse: string -> Option<Value>): (r: Value)
    ensures EnvGet(env, EnvJsonContextName).Nothing? ==> r == Dict([])
    ensures EnvGet(env, EnvJsonContextName).Some? && parse(EnvGet(env, EnvJsonContextName).value).Nothing?
            ==> r == Dict([])
    ensures EnvGet(env, EnvJsonContextName).Some? && parse(EnvGet(env, EnvJsonContextName).value).Some?
            ==> r == parse(EnvGet(env, EnvJsonContextName).value).value
  {
    match EnvGet(env, EnvJsonContextName)
    case Nothing => Dict([])
    case Some(text) =>
      match parse(text)
      case Nothing => Dict([])
      case Some(v) => v
  }

  /** `STLOG_IGNORE_ENV_CONTEXT`, lower-cased then stripped, is 1, true or yes. */
  predicate IgnoreEnvContext(env: seq<(string, string)>) {
    var raw := match EnvGet(env, EnvIgnoreName) case Nothing => "0" case Some(t) => t;
    Strip(Lower(raw)) in {"1", "true", "yes"}
  }

  /** A dict's pairs as a map: a later pair wins on a repeated key. */
  function DictMap(entries: seq<(Value, Value)>): (m: map<Value, Value>)
    ensures forall k :: k in m <==> exists i | 0 <= i < |entries| :: entries[i].0 == k
  {
    if entries == [] then map[]
    else
      var init := DictMap(entries[..|entries| - 1]);
      var last := entries[|entries| - 1];
      assert forall i | 0 <= i < |entries| - 1 :: entries[..|entries| - 1][i] == entries[i];
      init[last.0 := last.1]
  }

  /** `{**_get_env_context(), **_get_env_json_context()}`. */
  function MergedEnvContext(prefix: map<string, Value>, json: map<Value, Value>): (m: map<Value, Value>)
    ensures forall k | k in json :: k in m && m[k] == json[k]
    ensures forall s | s in prefix && Str(s) !in json :: Str(s) in m && m[Str(s)] == prefix[s]
    ensures forall k | k in m :: k in json || (k.Str? && k.s in prefix)
  {
    (map s | s in prefix :: Str(s) := prefix[s]) + json
  }

  /** The key checks of `get_env_context`: a str, not reserved, an identifier. */
  predicate ValidEnvKey(k: Value) {
    k.Str? && k.s !in ReservedAttrs && IsIdentifier(k.s)
  }

  function StrKeyed(m: map<Value, Value>): (r: map<string, Value>)
    ensures forall s :: s in r <==> Str(s) in m
    ensures forall s | s in r :: r[s] == m[Str(s)]
  {
    map k | k in m && k.Str? :: k.s := m[k]
  }

  /** Specification of `get_env_context`. */
  function EnvContext(env: seq<(string, string)>, parse: string -> Option<Value>): Result<map<string, Value>> {
    if IgnoreEnvContext(env) then Ok(map[])
    else
      var json := EnvJsonContext(env, parse);
      if !json.Dict? then Err(TypeError)
      else
        var merged := MergedEnvContext(PrefixContext(env), DictMap(json.entries));
        if forall k | k in merged :: ValidEnvKey(k) then Ok(StrKeyed(merged)) else Err(StLogError)
  }

  /** `get_env_context`: merges both sources, then checks every key. */
  method GetEnvContext(env: seq<(string, string)>, parse: string -> Option<Value>)
      returns (r: Result<map<string, Value>>)
    ensures r == EnvContext(env, parse)
  {
    if IgnoreEnvContext(env) {
      return Ok(map[]);
    }
    var prefixContext := GetEnvPrefixContext(env);
    var json := EnvJsonContext(env, parse);
    if !json.Dict? {
      // `**` on a value that is not a mapping
      return Err(TypeError);
    }
    var envContext := MergedEnvContext(prefixContext, DictMap(json.entries));
    var valid := CheckEnvKeys(envContext);
    if !valid {
      return Err(StLogError);
    }
    return Ok(StrKeyed(envContext));
  }

  /** The key loop of `get_env_context`: answers whether every key is a
      non-reserved str identifier, stopping at the first that is not. */
  method CheckEnvKeys(envContext: map<Value, Value>) returns (valid: bool)
    ensures valid <==> forall k | k in envContext :: ValidEnvKey(k)
  {
    var todo := envContext.Keys;
    while todo != {}
      invariant todo <= envContext.Keys
      invariant forall k | k in envContext.Keys - todo :: ValidEnvKey(k)
      decreases todo
    {
      var key :| key in todo;
      if key.Str? && key.s in ReservedAttrs {
        return false;
      }
      if !key.Str? {
        return false;
      }
      if !IsIdentifier(key.s) {
        return false;
      }
      todo := todo - {key};
    }
    return true;
  }

  /** On a key present in both sources, the JSON value wins. */
  lemma EnvJsonOverridesPrefix(env: seq<(string, string)>, parse: string -> Option<Value>, key: string)
    requires EnvContext(env, parse).Ok? && !IgnoreEnvContext(env)
    requires EnvJsonContext(env, parse).Dict?
    requires Str(key) in DictMap(EnvJsonContext(env, parse).entries)
    ensures key in EnvContext(env, parse).value
    ensures EnvContext(env, parse).value[key] == DictMap(EnvJsonContext(env, parse).entries)[Str(key)]
  {
  }

  /** An unset or unparsable JSON variable leaves only the prefixed variables. */
  lemma EnvInvalidJsonIgnored(env: seq<(string, string)>, parse: string -> Option<Value>)
    requires !IgnoreEnvContext(env)
    requires EnvGet(env, EnvJsonContextName).Nothing? || parse(EnvGet(env, EnvJsonContextName).value).Nothing?
    requires forall s | s in PrefixContext(env) :: s !in ReservedAttrs && IsIdentifier(s)
    ensures EnvContext(env, parse) == Ok(PrefixContext(env))
  {
    var prefix := PrefixContext(env);
    assert EnvJsonContext(env, parse) == Dict([]);
    assert DictMap([]) == map[];
    var merged := MergedEnvContext(prefix, map[]);
    assert forall k | k in merged :: k.Str? && k.s in prefix;
    assert forall k | k in merged :: ValidEnvKey(k);
    StrKeyedOfPrefix(prefix, merged);
  }

  lemma StrKeyedOfPrefix(prefix: map<string, Value>, merged: map<Value, Value>)
    requires merged == MergedEnvContext(prefix, map[])
    ensures StrKeyed(merged) == prefix
  {
    var r := StrKeyed(merged);
    assert forall s | s in prefix :: Str(s) in merged && merged[Str(s)] == prefix[s];
    assert forall s | s in r :: s in prefix && r[s] == prefix[s];
    assert r.Keys == prefix.Keys;
  }

  /** The ignore switch, in any letter case and with any white space
      around it, yields an empty context whatever else is set. */
  lemma EnvIgnoredIsEmpty(env: seq<(string, string)>, parse: string -> Option<Value>,
                          pad1: string, word: string, pad2: string)
    requires EnvGet(env, EnvIgnoreName) == Some(pad1 + word + pad2)
    requires forall i | 0 <= i < |pad1| :: IsSpace(pad1[i])
    requires forall i | 0 <= i < |pad2| :: IsSpace(pad2[i])
    requires Lower(word) in {"1", "true", "yes"}
    ensures EnvContext(env, parse) == Ok(map[])
  {
    assert IgnoreEnvContext(env) by {
      IgnoreSwitch(pad1, word, pad2);
    }
  }

  /** The switch value, lower-cased and stripped, is the lower-cased word. */
  lemma IgnoreSwitch(pad1: string, word: string, pad2: string)
    requires forall i | 0 <= i < |pad1| :: IsSpace(pad1[i])
    requires forall i | 0 <= i < |pad2| :: IsSpace(pad2[i])
    requires Lower(word) in {"1", "true", "yes"}
    ensures Strip(Lower(pad1 + word + pad2)) == Lower(word)
  {
    var w := Lower(word);
    assert Lower(pad1 + word + pad2) == pad1 + w + pad2 by {
      LowerKeepsSpace(pad1);
      LowerKeepsSpace(pad2);
      LowerAppend(pad1, word);
      LowerAppend(pad1 + word, pad2);
    }
    SwitchWordUnpadded(w);
    StripPadded(pad1, w, pad2);
  }

  /** The switch words neither start nor end with white space. */
  lemma SwitchWordUnpadded(w: string)
    requires w in {"1", "true", "yes"}
    ensures w != [] && !IsSpace(w[0]) && !IsSpace(w[|w| - 1])
  {
    if w == "1" {
      assert w[0] == '1';
    } else if w == "true" {
      assert w[0] == 't' && w[3] == 'e';
    } else {
      assert w == "yes";
      assert w[0] == 'y' && w[2] == 's';
    }
  }

  /** A reserved or non-identifier key anywhere in the merged context is an
      error. */
  lemma EnvBadKeyRaises(env: seq<(string, string)>, parse: string -> Option<Value>, key: string)
    requires !IgnoreEnvContext(env) && EnvJsonContext(env, parse).Dict?
    requires key in PrefixContext(env) || Str(key) in DictMap(EnvJsonContext(env, parse).entries)
    requires key in ReservedAttrs || !IsIdentifier(key)
    ensures EnvContext(env, parse) == Err(StLogError)
  {
    var merged := MergedEnvContext(PrefixContext(env), DictMap(EnvJsonContext(env, parse).entries));
    assert Str(key) in merged && !ValidEnvKey(Str(key));
  }
}

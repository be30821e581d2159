/** The extras helpers of `stlog/formatter.py`: which record attributes the
    human formatter shows and how, the `format` round that adds and then
    removes the `extras` attribute, and the pieces of `JsonFormatter` that
    copy, rename and name fields. */
module Formatter {
  import opened Text
  import opened PyValue
  import opened Records
  import opened Base
  import opened KvFormatter

  // ---------------------------------------------------------------------
  // Shell-style patterns

  /** `re.match(re.compile(fnmatch.translate(pattern)), s)`: the whole of `s`
      matches, `*` standing for any text and `?` for any one character. */
  predicate GlobMatch(pattern: string, s: string)
    decreases |pattern| + |s|
  {
    if pattern == [] then s == []
    else if pattern[0] == '*' then GlobMatch(pattern[1..], s) || (s != [] && GlobMatch(pattern, s[1..]))
    else s != [] && (pattern[0] == '?' || pattern[0] == s[0]) && GlobMatch(pattern[1..], s[1..])
  }

  lemma {:induction false} StarMatchesAll(s: string)
    ensures GlobMatch("*", s)
  {
    if s != [] {
      StarMatchesAll(s[1..]);
    }
  }

  /** `_*` matches exactly the texts that start with an underscore. */
  lemma UnderscoreStarMatches(s: string)
    ensures GlobMatch("_*", s) <==> s != [] && s[0] == '_'
  {
    if s != [] {
      StarMatchesAll(s[1..]);
      assert "_*"[1..] == "*";
    }
  }

  // ---------------------------------------------------------------------
  // The human formatter's settings

  /** The fields `StLogFormatter.__init__` keeps. The glob patterns stand
      for the regular expressions compiled from them. */
  datatype ExtrasFormat = ExtrasFormat(
    template: seq<Field>,
    separator: string,
    prefix: string,
    suffix: string,
    includes: seq<string>,
    excludes: seq<string>,
    serializedTypes: set<PyType>,
    keyMaxLength: int,
    valueMaxLength: int)

  const DefaultExtrasFormat: ExtrasFormat :=
    ExtrasFormat(DefaultTemplate, " ", " ", "", ["*"], ["_*"],
                 {IntType, BoolType, StrType, BytesType, FloatType}, 32, 40)

  predicate SomeMatch(patterns: seq<string>, s: string) {
    exists i | 0 <= i < |patterns| :: GlobMatch(patterns[i], s)
  }

  /** What `_use_extra_key` answers for a key taken from the marker: never
      the marker itself; a key that is not a `str` makes `re.match` raise
      `TypeError`, once there is an include pattern to try. */
  function KeyUse(f: ExtrasFormat, key: Value): (r: Result<bool>)
    ensures r == Ok(true) ==> key.Str?
    ensures r.Err? ==> r.error == TypeError
  {
    if key == Str(ExtraKeysKey) then Ok(false)
    else if f.includes == [] then Ok(false)
    else if !key.Str? then Err(TypeError)
    else if !SomeMatch(f.includes, key.s) then Ok(false)
    else Ok(!SomeMatch(f.excludes, key.s))
  }

  /** `_use_extra_key`: the first matching include pattern ends the first
      loop; a matching exclude pattern rejects the key. */
  method UseExtraKey(f: ExtrasFormat, key: Value) returns (r: Result<bool>)
    ensures r == KeyUse(f, key)
  {
    if key == Str(ExtraKeysKey) {
      return Ok(false);
    }
    var found := false;
    var i := 0;
    while i < |f.includes| && !found
      invariant 0 <= i <= |f.includes|
      invariant i > 0 ==> key.Str?
      invariant found ==> key.Str? && SomeMatch(f.includes, key.s)
      invariant !found ==> forall j | 0 <= j < i :: !GlobMatch(f.includes[j], key.s)
    {
      if !key.Str? {
        return Err(TypeError);
      }
      if GlobMatch(f.includes[i], key.s) {
        found := true;
      }
      i := i + 1;
    }
    if !found {
      // the `else` of the first loop: no include pattern matched
      return Ok(false);
    }
    for j := 0 to |f.excludes|
      invariant forall m | 0 <= m < j :: !GlobMatch(f.excludes[m], key.s)
    {
      if GlobMatch(f.excludes[j], key.s) {
        return Ok(false);
      }
    }
    return Ok(true);
  }

  /** With the default patterns a `str` key is shown exactly when it does
      not start with an underscore (the marker name does). */
  lemma DefaultKeyUse(k: string)
    ensures KeyUse(DefaultExtrasFormat, Str(k)) == Ok(!(k != [] && k[0] == '_'))
  {
    StarMatchesAll(k);
    UnderscoreStarMatches(k);
    assert ["*"][0] == "*" && ["_*"][0] == "_*";
    assert SomeMatch(["*"], k);
    assert SomeMatch(["_*"], k) <==> GlobMatch("_*", k);
  }

  /** `_serialize_extra_value`: `Nothing` (the key is skipped) for a value
      that is neither None nor of a shown type; the stand-in text when
      `str()` raises, untruncated; otherwise the truncated text. */
  function SerializeExtraValue(f: ExtrasFormat, v: Value, render: Value -> Option<string>): (r: Option<string>)
    ensures r.Nothing? <==> !v.None? && !IsInstance(v, f.serializedTypes)
    ensures r.Some? && PyStr(v, render).Nothing? ==> r.value == CantSerialize
    ensures r.Some? && PyStr(v, render).Some? ==> r.value == TruncateStr(PyStr(v, render).value, f.valueMaxLength)
  {
    if !v.None? && !IsInstance(v, f.serializedTypes) then Nothing
    else match PyStr(v, render)
      case Nothing => Some(CantSerialize)
      case Some(t) => Some(TruncateStr(t, f.valueMaxLength))
  }

  // ---------------------------------------------------------------------
  // add_extras / remove_extras / format

  /** The values `for k in marker` walks through. A `set` has no order of
      its own: `setOrder` is the one the interpreter happens to use. */
  function Iterate(v: Value, setOrder: seq<Value>): (r: Result<seq<Value>>)
    ensures v.Set? ==> r == Ok(setOrder)
    ensures v.List? || v.Tuple? ==> r == Ok(v.items)
    ensures r.Err? <==> v.None? || v.Bool? || v.Int? || v.Float? || v.Object?
  {
    match v
    case List(items) => Ok(items)
    case Tuple(items) => Ok(items)
    case Set(_) => Ok(setOrder)
    case Dict(entries) => Ok(seq(|entries|, i requires 0 <= i < |entries| => entries[i].0))
    case Str(s) => Ok(seq(|s|, i requires 0 <= i < |s| => Str([s[i]])))
    case Bytes(d) => Ok(seq(|d|, i requires 0 <= i < |d| => Int(d[i] as int)))
    case _ => Err(TypeError)
  }

  /** `order` lists each member of `elems` once. */
  ghost predicate Enumerates(order: seq<Value>, elems: set<Value>) {
    && (forall i, j | 0 <= i < j < |order| :: order[i] != order[j])
    && (forall e :: e in elems <==> e in order)
  }

  /** The marker, when it is a set, is walked in an order that lists it. */
  ghost predicate MarkerOrder(attrs: map<string, Value>, setOrder: seq<Value>) {
    ExtraKeysKey in attrs && attrs[ExtraKeysKey].Set? ==> Enumerates(setOrder, attrs[ExtraKeysKey].elems)
  }

  /** Every log record carries its level name as a `str`. */
  predicate HasLevelName(attrs: map<string, Value>) {
    "levelname" in attrs && attrs["levelname"].Str?
  }

  function Prepend(done: seq<string>, r: Result<seq<string>>): (p: Result<seq<string>>)
    ensures done == [] ==> p == r
    ensures r.Err? ==> p == r
  {
    match r
    case Err(e) => Err(e)
    case Ok(rest) =>
      assert done == [] ==> done + rest == rest;
      Ok(done + rest)
  }

  lemma PrependTwice(a: seq<string>, b: seq<string>, r: Result<seq<string>>)
    ensures Prepend(a, Prepend(b, r)) == Prepend(a + b, r)
  {
    if r.Ok? {
      assert a + (b + r.value) == (a + b) + r.value;
    }
  }

  /** The `[key: value]` pieces of the marker's keys, in marker order: an
      unused key or a skipped value gives no piece; a key that makes
      `_use_extra_key` raise, or that names no attribute, stops the walk. */
  function ExtrasPieces(f: ExtrasFormat, attrs: map<string, Value>, keys: seq<Value>,
                        render: Value -> Option<string>): Result<seq<string>>
    decreases |keys|
  {
    if keys == [] then Ok([])
    else match KeyUse(f, keys[0])
      case Err(e) => Err(e)
      case Ok(use) =>
        if !use then ExtrasPieces(f, attrs, keys[1..], render)
        else if keys[0].s !in attrs then Err(AttributeError)
        else
          var rest := ExtrasPieces(f, attrs, keys[1..], render);
          match SerializeExtraValue(f, attrs[keys[0].s], render)
          case Nothing => rest
          case Some(v) => Prepend([Render(f.template, TruncateStr(keys[0].s, f.keyMaxLength), v)], rest)
  }

  /** The walk over the marker completes exactly when no key raises in
      `_use_extra_key` and every used key names an attribute. */
  lemma {:induction false} ExtrasPiecesOk(f: ExtrasFormat, attrs: map<string, Value>, keys: seq<Value>,
                                          render: Value -> Option<string>)
    ensures ExtrasPieces(f, attrs, keys, render).Ok? <==>
            forall i | 0 <= i < |keys| ::
              KeyUse(f, keys[i]).Ok? && (KeyUse(f, keys[i]).value ==> keys[i].s in attrs)
    decreases |keys|
  {
    if keys != [] {
      ExtrasPiecesOk(f, attrs, keys[1..], render);
      forall i | 1 <= i < |keys| ensures keys[i] == keys[1..][i - 1] { }
    }
  }

  /** The text `add_extras` stores in `record.extras`. */
  function ExtrasText(f: ExtrasFormat, attrs: map<string, Value>, keys: seq<Value>,
                      render: Value -> Option<string>): Result<string>
  {
    match ExtrasPieces(f, attrs, keys, render)
    case Err(e) => Err(e)
    case Ok(pieces) =>
      var extras := Join(f.separator, pieces);
      Ok(if extras != "" then f.prefix + extras + f.suffix else extras)
  }

  /** The attributes after `add_extras`, or the exception it raises (the
      record is then unchanged: both attributes are set at the very end). */
  function AddExtrasSpec(f: ExtrasFormat, attrs: map<string, Value>, setOrder: seq<Value>,
                         render: Value -> Option<string>): Result<map<string, Value>>
    requires HasLevelName(attrs)
  {
    if ExtraKeysKey !in attrs then Ok(attrs["extras" := Str("")])
    else match Iterate(attrs[ExtraKeysKey], setOrder)
      case Err(e) => Err(e)
      case Ok(keys) =>
        match ExtrasText(f, attrs, keys, render)
        case Err(e) => Err(e)
        case Ok(text) => Ok(attrs["extras" := Str(text)]["slevel_name" := Str("[" + attrs["levelname"].s + "]")])
  }

  /** `add_extras`. */
  method AddExtras(f: ExtrasFormat, record: LogRecord, setOrder: seq<Value>, render: Value -> Option<string>)
      returns (outcome: Outcome)
    modifies record
    requires HasLevelName(record.attrs) && MarkerOrder(record.attrs, setOrder)
    ensures var spec := AddExtrasSpec(f, old(record.attrs), setOrder, render);
            && (spec.Ok? ==> outcome == Pass && record.attrs == spec.value)
            && (spec.Err? ==> outcome == Fail(spec.error) && record.attrs == old(record.attrs))
  {
    if ExtraKeysKey !in record.attrs {
      record.attrs := record.attrs["extras" := Str("")];
      return Pass;
    }
    var attrs := record.attrs;
    var iterated := Iterate(attrs[ExtraKeysKey], setOrder);
    if iterated.Err? {
      return Fail(iterated.error);
    }
    var keys := iterated.value;
    var tmp: seq<string> := [];
    var i := 0;
    assert keys[0..] == keys;
    while i < |keys|
      invariant 0 <= i <= |keys|
      invariant record.attrs == attrs
      invariant Prepend(tmp, ExtrasPieces(f, attrs, keys[i..], render)) == ExtrasPieces(f, attrs, keys, render)
    {
      var k := keys[i];
      assert keys[i..][1..] == keys[i + 1..];
      var use := UseExtraKey(f, k);
      if use.Err? {
        assert ExtrasPieces(f, attrs, keys[i..], render) == Err(use.error);
        assert ExtrasPieces(f, attrs, keys, render) == Err(use.error);
        assert ExtrasText(f, attrs, keys, render) == Err(use.error);
        return Fail(use.error);
      }
      ghost var rest := ExtrasPieces(f, attrs, keys[i + 1..], render);
      if use.value {
        if k.s !in attrs {
          // `getattr(record, k)` on a missing attribute
          assert ExtrasPieces(f, attrs, keys[i..], render) == Err(AttributeError);
          return Fail(AttributeError);
        }
        var serialized := SerializeExtraValue(f, attrs[k.s], render);
        if serialized.Some? {
          var piece := Render(f.template, TruncateStr(k.s, f.keyMaxLength), serialized.value);
          assert ExtrasPieces(f, attrs, keys[i..], render) == Prepend([piece], rest);
          PrependTwice(tmp, [piece], rest);
          tmp := tmp + [piece];
        } else {
          assert ExtrasPieces(f, attrs, keys[i..], render) == rest;
        }
      } else {
        assert ExtrasPieces(f, attrs, keys[i..], render) == rest;
      }
      i := i + 1;
    }
    assert keys[|keys|..] == [] && tmp + [] == tmp;
    assert ExtrasPieces(f, attrs, keys, render) == Ok(tmp);
    var extras := Join(f.separator, tmp);
    if extras != "" {
      extras := f.prefix + extras + f.suffix;
    }
    record.attrs := record.attrs["extras" := Str(extras)];
    record.attrs := record.attrs["slevel_name" := Str("[" + attrs["levelname"].s + "]")];
    return Pass;
  }

  /** The attributes after `remove_extras` and whether it raised: deleting
      `extras` first and `slevel_name` second, so a record without the latter
      loses the former and raises `AttributeError`. */
  function RemoveExtrasSpec(attrs: map<string, Value>): (map<string, Value>, Outcome) {
    if "extras" !in attrs then (attrs, Fail(AttributeError))
    else if "slevel_name" !in attrs then (attrs - {"extras"}, Fail(AttributeError))
    else (attrs - {"extras", "slevel_name"}, Pass)
  }

  /** `remove_extras`. */
  method RemoveExtras(record: LogRecord) returns (outcome: Outcome)
    modifies record
    ensures (record.attrs, outcome) == RemoveExtrasSpec(old(record.attrs))
  {
    if "extras" !in record.attrs {
      return Fail(AttributeError);
    }
    record.attrs := record.attrs - {"extras"};
    if "slevel_name" !in record.attrs {
      return Fail(AttributeError);
    }
    record.attrs := record.attrs - {"slevel_name"};
    assert record.attrs == old(record.attrs) - {"extras", "slevel_name"};
    return Pass;
  }

  /** On a record with the marker, `remove_extras` undoes `add_extras`:
      only attributes the record had under those two names are lost. */
  lemma AddRemoveRoundTrip(f: ExtrasFormat, attrs: map<string, Value>, setOrder: seq<Value>,
                           render: Value -> Option<string>)
    requires HasLevelName(attrs) && ExtraKeysKey in attrs
    requires AddExtrasSpec(f, attrs, setOrder, render).Ok?
    ensures RemoveExtrasSpec(AddExtrasSpec(f, attrs, setOrder, render).value)
            == (attrs - {"extras", "slevel_name"}, Pass)
  {
    var added := AddExtrasSpec(f, attrs, setOrder, render).value;
    assert added - {"extras", "slevel_name"} == attrs - {"extras", "slevel_name"};
  }

  /** On a record without the marker (and without a `slevel_name` of its
      own), `add_extras` sets only `extras`, so `remove_extras` raises
      `AttributeError` after deleting it. */
  lemma FormatWithoutMarkerFails(f: ExtrasFormat, attrs: map<string, Value>, setOrder: seq<Value>,
                                 render: Value -> Option<string>)
    requires HasLevelName(attrs) && ExtraKeysKey !in attrs && "slevel_name" !in attrs
    ensures AddExtrasSpec(f, attrs, setOrder, render).Ok?
    ensures RemoveExtrasSpec(AddExtrasSpec(f, attrs, setOrder, render).value)
            == (attrs - {"extras"}, Fail(AttributeError))
  {
    var added := AddExtrasSpec(f, attrs, setOrder, render).value;
    assert added == attrs["extras" := Str("")];
    assert added - {"extras"} == attrs - {"extras"};
  }

  /** With the marker, the record `format` leaves behind is the record it
      was given without `extras` and `slevel_name`, plus the attributes the
      standard formatting wrote to it (`message`, `asctime`, `exc_text`). */
  lemma FormatLeavesBaseAttrs(f: ExtrasFormat, attrs: map<string, Value>, setOrder: seq<Value>,
                              render: Value -> Option<string>, written: map<string, Value>)
    requires HasLevelName(attrs) && ExtraKeysKey in attrs
    requires AddExtrasSpec(f, attrs, setOrder, render).Ok?
    requires "extras" !in written && "slevel_name" !in written
    ensures RemoveExtrasSpec(AddExtrasSpec(f, attrs, setOrder, render).value + written)
            == ((attrs - {"extras", "slevel_name"}) + written, Pass)
  {
    var added := AddExtrasSpec(f, attrs, setOrder, render).value;
    assert (added + written) - {"extras", "slevel_name"} == (attrs - {"extras", "slevel_name"}) + written;
  }

  /** `StLogFormatter.format`: `add_extras`, the standard formatting, then
      `remove_extras`. `base` stands for `logging.Formatter.format`: it
      answers the attributes it writes to the record (`message`, and
      `asctime` and `exc_text` when it computes them) and the text, or the
      exception it raises. */
  method Format(f: ExtrasFormat, record: LogRecord, setOrder: seq<Value>, render: Value -> Option<string>,
                base: map<string, Value> -> (map<string, Value>, Result<string>))
      returns (r: Result<string>)
    modifies record
    requires HasLevelName(record.attrs) && MarkerOrder(record.attrs, setOrder)
    ensures var added := AddExtrasSpec(f, old(record.attrs), setOrder, render);
            && (added.Err? ==> r == Err(added.error) && record.attrs == old(record.attrs))
            && (added.Ok? ==>
                  var (written, s) := base(added.value);
                  && (s.Err? ==> r == Err(s.error) && record.attrs == added.value + written)
                  && (s.Ok? ==>
                        var removed := RemoveExtrasSpec(added.value + written);
                        && record.attrs == removed.0
                        && r == (if removed.1.Pass? then Ok(s.value) else Err(removed.1.error))))
  {
    var added := AddExtras(f, record, setOrder, render);
    if added.Fail? {
      return Err(added.error);
    }
    var (written, s) := base(record.attrs);
    record.attrs := record.attrs + written;
    if s.Err? {
      return Err(s.error);
    }
    var removed := RemoveExtras(record);
    if removed.Fail? {
      return Err(removed.error);
    }
    return Ok(s.value);
  }

  // ---------------------------------------------------------------------
  // merge_record_extra

  /** An attribute `merge_record_extra` copies: not reserved, not private. */
  predicate Copied(key: string, reserved: set<string>) {
    key !in reserved && !StartsWith(key, "_")
  }

  /** `rename_fields.get(key, key)`. */
  function RenamedKey(rename: map<string, string>, key: string): string {
    if key in rename then rename[key] else key
  }

  /** `order` lists each key of `keys` once. */
  ghost predicate ListsKeys(order: seq<string>, keys: set<string>) {
    && (forall i, j | 0 <= i < j < |order| :: order[i] != order[j])
    && (forall k :: k in keys <==> k in order)
  }

  /** The target after copying the attributes named by `order`, in turn. */
  function MergeSpec(target: map<string, Value>, attrs: map<string, Value>, order: seq<string>,
                     reserved: set<string>, rename: map<string, string>): map<string, Value>
    requires forall i | 0 <= i < |order| :: order[i] in attrs
    decreases |order|
  {
    if order == [] then target
    else
      var k := order[0];
      var next := if Copied(k, reserved) then target[RenamedKey(rename, k) := attrs[k]] else target;
      MergeSpec(next, attrs, order[1..], reserved, rename)
  }

  /** The names the copied attributes land under. */
  function Destinations(order: seq<string>, reserved: set<string>, rename: map<string, string>): set<string> {
    if order == [] then {}
    else (if Copied(order[0], reserved) then {RenamedKey(rename, order[0])} else {})
         + Destinations(order[1..], reserved, rename)
  }

  /** `merge_record_extra`: updates `target` in place and returns it. */
  method MergeRecordExtra(record: LogRecord, target: Dict, reserved: set<string>, rename: map<string, string>,
                          order: seq<string>)
      returns (r: Dict)
    modifies target
    requires ListsKeys(order, record.attrs.Keys)
    ensures r == target
    ensures target.entries == MergeSpec(old(target.entries), record.attrs, order, reserved, rename)
  {
    ghost var start := target.entries;
    for i := 0 to |order|
      invariant MergeSpec(target.entries, record.attrs, order[i..], reserved, rename)
                == MergeSpec(start, record.attrs, order, reserved, rename)
    {
      assert order[i..][1..] == order[i + 1..];
      var key := order[i];
      if Copied(key, reserved) {
        target.entries := target.entries[RenamedKey(rename, key) := record.attrs[key]];
      }
    }
    assert order[|order|..] == [];
    return target;
  }

  /** The target gains exactly the destination names. */
  lemma {:induction false} MergeKeys(target: map<string, Value>, attrs: map<string, Value>, order: seq<string>,
                                     reserved: set<string>, rename: map<string, string>)
    requires forall i | 0 <= i < |order| :: order[i] in attrs
    ensures MergeSpec(target, attrs, order, reserved, rename).Keys
            == target.Keys + Destinations(order, reserved, rename)
    decreases |order|
  {
    if order != [] {
      var k := order[0];
      var next := if Copied(k, reserved) then target[RenamedKey(rename, k) := attrs[k]] else target;
      MergeKeys(next, attrs, order[1..], reserved, rename);
    }
  }

  /** A name no copied attribute lands under keeps its value. */
  lemma {:induction false} MergeUntouched(target: map<string, Value>, attrs: map<string, Value>, order: seq<string>,
                                          reserved: set<string>, rename: map<string, string>, name: string)
    requires forall i | 0 <= i < |order| :: order[i] in attrs
    requires name !in Destinations(order, reserved, rename)
    ensures var r := MergeSpec(target, attrs, order, reserved, rename);
            (name in r <==> name in target) && (name in target ==> r[name] == target[name])
    decreases |order|
  {
    if order != [] {
      var k := order[0];
      var next := if Copied(k, reserved) then target[RenamedKey(rename, k) := attrs[k]] else target;
      MergeUntouched(next, attrs, order[1..], reserved, rename, name);
    }
  }

  /** A copied attribute whose name no later copied attribute shares ends
      in the target with its value. */
  lemma {:induction false} MergeValue(target: map<string, Value>, attrs: map<string, Value>, order: seq<string>,
                                      reserved: set<string>, rename: map<string, string>, i: nat)
    requires forall j | 0 <= j < |order| :: order[j] in attrs
    requires i < |order| && Copied(order[i], reserved)
    requires forall j | i < j < |order| && Copied(order[j], reserved) ::
               RenamedKey(rename, order[j]) != RenamedKey(rename, order[i])
    ensures var r := MergeSpec(target, attrs, order, reserved, rename);
            RenamedKey(rename, order[i]) in r && r[RenamedKey(rename, order[i])] == attrs[order[i]]
    decreases |order|
  {
    var k := order[0];
    var next := if Copied(k, reserved) then target[RenamedKey(rename, k) := attrs[k]] else target;
    if i == 0 {
      var name := RenamedKey(rename, k);
      DestinationsMembers(order[1..], reserved, rename, name);
      MergeUntouched(next, attrs, order[1..], reserved, rename, name);
    } else {
      MergeValue(next, attrs, order[1..], reserved, rename, i - 1);
    }
  }

  lemma {:induction false} DestinationsMembers(order: seq<string>, reserved: set<string>, rename: map<string, string>,
                                               name: string)
    requires forall j | 0 <= j < |order| && Copied(order[j], reserved) :: RenamedKey(rename, order[j]) != name
    ensures name !in Destinations(order, reserved, rename)
    decreases |order|
  {
    if order != [] {
      DestinationsMembers(order[1..], reserved, rename, name);
    }
  }

  // ---------------------------------------------------------------------
  // Field renaming

  /** The log dict after renaming each `(old, new)` pair in turn, and whether
      a missing old field raised `KeyError` (earlier renames stay done). */
  function RenameSpec(m: map<string, Value>, renames: seq<(string, string)>): (map<string, Value>, Outcome)
    decreases |renames|
  {
    if renames == [] then (m, Pass)
    else
      var (prev, next) := renames[0];
      if prev !in m then (m, Fail(KeyError))
      else RenameSpec(m[next := m[prev]] - {prev}, renames[1..])
  }

  /** `JsonFormatter._perform_rename_log_fields`. */
  method PerformRenameLogFields(logRecord: Dict, renames: seq<(string, string)>) returns (outcome: Outcome)
    modifies logRecord
    ensures (logRecord.entries, outcome) == RenameSpec(old(logRecord.entries), renames)
  {
    for i := 0 to |renames|
      invariant RenameSpec(logRecord.entries, renames[i..]) == RenameSpec(old(logRecord.entries), renames)
    {
      assert renames[i..][1..] == renames[i + 1..];
      var (prev, next) := renames[i];
      if prev !in logRecord.entries {
        return Fail(KeyError);
      }
      logRecord.entries := logRecord.entries[next := logRecord.entries[prev]];
      logRecord.entries := logRecord.entries - {prev};
    }
    assert renames[|renames|..] == [];
    return Pass;
  }

  /** Renaming a present field to another name moves its value there. */
  lemma RenameMoves(m: map<string, Value>, prev: string, next: string)
    requires prev in m && prev != next
    ensures var r := RenameSpec(m, [(prev, next)]);
            && r.1 == Pass
            && r.0.Keys == m.Keys - {prev} + {next}
            && r.0[next] == m[prev]
            && forall k | k in m && k != prev && k != next :: r.0[k] == m[k]
  {
    assert [(prev, next)][1..] == [];
  }

  /** Renaming a field to its own name deletes it. */
  lemma RenameToItselfDeletes(m: map<string, Value>, name: string)
    requires name in m
    ensures RenameSpec(m, [(name, name)]) == (m - {name}, Pass)
  {
    assert [(name, name)][1..] == [];
    assert m[name := m[name]] == m;
  }

  /** A missing old field raises `KeyError` and changes nothing more. */
  lemma RenameMissing(m: map<string, Value>, prev: string, next: string, later: seq<(string, string)>)
    requires prev !in m
    ensures RenameSpec(m, [(prev, next)] + later) == (m, Fail(KeyError))
  {
  }

  // ---------------------------------------------------------------------
  // JsonFormatter.parse, percent style

  /** Where the lazy group of `%\((.+?)\)` ends: the first `)` at or after
      `j`, provided no newline comes first (`.` does not match one). */
  function CloseParen(s: string, j: nat): (r: Option<nat>)
    requires j <= |s|
    ensures r.Some? ==> j <= r.value < |s| && s[r.value] == ')'
    decreases |s| - j
  {
    if j == |s| || s[j] == '\n' then Nothing
    else if s[j] == ')' then Some(j)
    else CloseParen(s, j + 1)
  }

  /** `re.findall(r"%\((.+?)\)", fmt)`: the names of the placeholders, left
      to right, the scan resuming after each match. */
  function Placeholders(fmt: string): (r: seq<string>)
    ensures forall i | 0 <= i < |r| :: r[i] != []
    decreases |fmt|
  {
    if |fmt| < 3 then []
    else if fmt[0] == '%' && fmt[1] == '(' && fmt[2] != '\n' then
      match CloseParen(fmt, 3)
      case Some(m) => [fmt[2..m]] + Placeholders(fmt[m + 1..])
      case Nothing => Placeholders(fmt[1..])
    else Placeholders(fmt[1..])
  }

  /** `JsonFormatter.parse` for a `%`-style format. `fmt` is the effective
      `self._fmt`: `logging.Formatter.__init__` puts the `%(message)s`
      default there when the format given is missing or empty, so the
      empty-format branch, kept as the source writes it, is reached only
      when `_fmt` is assigned after construction. */
  function Parse(fmt: string): (r: seq<string>)
    ensures fmt == "" ==> r == []
    ensures forall i | 0 <= i < |r| :: r[i] != []
  {
    if fmt != "" then Placeholders(fmt) else []
  }

  /** A `%`-style format, as the pieces it is written with: plain text, and
      `%(name)` followed by its conversion (`s`, `-10.10s`, `d` ...). */
  datatype Segment = Plain(text: string) | Placeholder(name: string, conversion: string)

  function SegmentText(g: Segment): string {
    match g
    case Plain(t) => t
    case Placeholder(n, c) => "%(" + n + ")" + c
  }

  function FormatText(segs: seq<Segment>): string {
    if segs == [] then "" else SegmentText(segs[0]) + FormatText(segs[1..])
  }

  function Names(segs: seq<Segment>): seq<string> {
    if segs == [] then []
    else (if segs[0].Placeholder? then [segs[0].name] else []) + Names(segs[1..])
  }

  /** No `%` outside the placeholders, and names that are non-empty and hold
      neither `)` nor a newline. */
  predicate WellFormed(segs: seq<Segment>) {
    forall i | 0 <= i < |segs| ::
      match segs[i]
      case Plain(t) => '%' !in t
      case Placeholder(n, c) => n != [] && ')' !in n && '\n' !in n && '%' !in c
  }

  lemma {:induction false} SkipPlain(t: string, rest: string)
    requires '%' !in t
    ensures Placeholders(t + rest) == Placeholders(rest)
    decreases |t|
  {
    if t == [] {
      assert t + rest == rest;
    } else {
      assert t[0] != '%' && (t + rest)[0] == t[0];
      assert '%' !in t[1..] by {
        forall i | 0 <= i < |t[1..]| ensures t[1..][i] != '%' {
          assert t[1..][i] == t[i + 1];
        }
      }
      assert (t + rest)[1..] == t[1..] + rest;
      SkipPlain(t[1..], rest);
      if |t + rest| >= 3 {
        assert Placeholders(t + rest) == Placeholders((t + rest)[1..]);
      } else {
        assert |rest| < 3;
      }
    }
  }

  lemma {:induction false} CloseParenAt(s: string, j: nat, close: nat)
    requires j <= close < |s| && s[close] == ')'
    requires forall m | j <= m < close :: s[m] != ')' && s[m] != '\n'
    ensures CloseParen(s, j) == Some(close)
    decreases close - j
  {
    if j < close {
      CloseParenAt(s, j + 1, close);
    }
  }

  lemma TakePlaceholder(name: string, rest: string)
    requires name != [] && ')' !in name && '\n' !in name
    ensures Placeholders("%(" + name + ")" + rest) == [name] + Placeholders(rest)
  {
    var s := "%(" + name + ")" + rest;
    var close := 2 + |name|;
    assert s[close] == ')';
    forall m | 3 <= m < close ensures s[m] != ')' && s[m] != '\n' {
      assert s[m] == name[m - 2];
    }
    CloseParenAt(s, 3, close);
    assert s[2..close] == name;
    assert s[close + 1..] == rest;
  }

  /** Parsing a well-formed format finds exactly the names it was written
      with, in order. */
  lemma {:induction false} ParseRoundTrip(segs: seq<Segment>)
    requires WellFormed(segs)
    ensures Placeholders(FormatText(segs)) == Names(segs)
  {
    if segs != [] {
      assert WellFormed(segs[1..]) by {
        forall i | 0 <= i < |segs[1..]| ensures segs[1..][i] == segs[i + 1] { }
      }
      ParseRoundTrip(segs[1..]);
      var rest := FormatText(segs[1..]);
      match segs[0]
      case Plain(t) =>
        SkipPlain(t, rest);
      case Placeholder(n, c) =>
        assert FormatText(segs) == "%(" + n + ")" + (c + rest);
        TakePlaceholder(n, c + rest);
        SkipPlain(c, rest);
    }
  }
}

/** The key/value formatters of `stlog/kvformatter.py` and the truncation rule
    they share with the extras formatter of `stlog/formatter.py`. */
module KvFormatter {
  import opened Text
  import opened PyValue
  import opened Base

  const Ellipsis: string := "..."

  /** What stands for a value whose `str()` raised. */
  const CantSerialize: string := "[can't serialize]"

  // ---------------------------------------------------------------------
  // Truncation

  /** `_truncate_str` exactly as written. With a limit of 1 or 2 the slice
      bound `limit - 3` is negative, so Python counts it from the end of the
      text and the "truncated" result is longer than the limit, and can be
      longer than the text itself. */
  function TruncateStrAsWritten(s: string, limit: int): (r: string)
    ensures limit <= 0 || |s| <= limit ==> r == s
    ensures 0 < limit < |s| ==> r == PyPrefix(s, limit - 3) + Ellipsis
  {
    if limit <= 0 then s
    else if |s| > limit then PyPrefix(s, limit - 3) + Ellipsis
    else s
  }

  /** The counterexample: truncating a six-character text to two characters
      yields eight characters. */
  lemma TruncateAsWrittenGrows()
    ensures TruncateStrAsWritten("abcdef", 2) == "abcde..."
    ensures |TruncateStrAsWritten("abcdef", 2)| > |"abcdef"|
  {
    assert PyPrefix("abcdef", -1) == "abcde";
  }

  /** The as-written rule is not even idempotent at a limit of 2: the
      result is cut again, and grows again. */
  lemma TruncateAsWrittenNotIdempotent()
    ensures TruncateStrAsWritten(TruncateStrAsWritten("abcdef", 2), 2) != TruncateStrAsWritten("abcdef", 2)
  {
    assert PyPrefix("abcdef", -1) == "abcde";
    assert PyPrefix("abcde...", -1) == "abcde..";
  }

  function Max(a: int, b: int): int { if a < b then b else a }

  /** `_truncate_str` with the slice bound kept at zero or above: a text
      longer than a positive limit keeps its first `limit - 3` characters
      (none when the limit is below 3) followed by `...`. */
  function TruncateStr(s: string, limit: int): (r: string)
    ensures limit <= 0 || |s| <= limit ==> r == s
    ensures 0 < limit < |s| ==>
              && |r| == Max(limit, 3)
              && r[|r| - 3..] == Ellipsis
              && r[..|r| - 3] == s[..|r| - 3]
  {
    if limit <= 0 then s
    else if |s| > limit then s[..Max(limit - 3, 0)] + Ellipsis
    else s
  }

  /** Truncating twice with the same limit is truncating once. */
  lemma TruncateIdempotent(s: string, limit: int)
    ensures TruncateStr(TruncateStr(s, limit), limit) == TruncateStr(s, limit)
  {
    if 0 < limit < |s| {
      var r := TruncateStr(s, limit);
      if limit < 3 {
        assert r == "...";
      }
    }
  }

  /** The corrected rule agrees with the code as written for every limit
      the code handles as intended. */
  lemma TruncateAgrees(s: string, limit: int)
    requires limit <= 0 || limit >= 3
    ensures TruncateStr(s, limit) == TruncateStrAsWritten(s, limit)
  {
  }

  /** Key truncation to five characters: `abcdefghijk` becomes `ab...`, and
      `abc` is kept. */
  lemma TruncateExample()
    ensures TruncateStr("abcdefghijk", 5) == "ab..."
    ensures TruncateStr("abc", 5) == "abc"
  {
  }

  /** The text of `str(value)`, or `[can't serialize]` when that raises. */
  function Serialized(v: Value, render: Value -> Option<string>): string {
    match PyStr(v, render)
    case Nothing => CantSerialize
    case Some(t) => t
  }

  /** `_truncate_serialize`: never raises; the stand-in text is truncated
      like any other. */
  function TruncateSerialize(v: Value, limit: int, render: Value -> Option<string>): (r: string)
    ensures v.Str? ==> r == TruncateStr(v.s, limit)
    ensures PyStr(v, render).Nothing? ==> r == TruncateStr(CantSerialize, limit)
    ensures 3 <= limit ==> |r| <= limit
  {
    TruncateStr(Serialized(v, render), limit)
  }

  // ---------------------------------------------------------------------
  // Ordering of the pairs

  /** Keys in ascending order (equal keys may sit side by side). */
  predicate SortedByKey(s: seq<(string, Value)>) {
    forall i, j | 0 <= i < j < |s| :: !Less(s[j].0, s[i].0)
  }

  lemma NotLessTransitive(a: string, b: string, c: string)
    requires !Less(b, a) && !Less(c, b)
    ensures !Less(c, a)
  {
    LessTotal(a, b);
    if Less(c, a) && Less(a, b) {
      LessTransitive(c, a, b);
    }
  }

  lemma InsertFirst(p: (string, Value), s: seq<(string, Value)>)
    requires SortedByKey(s)
    requires s == [] || !Less(s[0].0, p.0)
    ensures SortedByKey([p] + s)
  {
    forall j | 0 <= j < |s| ensures !Less(s[j].0, p.0) {
      if j > 0 {
        NotLessTransitive(p.0, s[0].0, s[j].0);
      }
    }
  }

  lemma InsertAfterHead(p: (string, Value), s: seq<(string, Value)>, rest: seq<(string, Value)>)
    requires SortedByKey(s) && s != [] && Less(s[0].0, p.0)
    requires SortedByKey(rest) && multiset(rest) == multiset(s[1..]) + multiset{p}
    ensures SortedByKey([s[0]] + rest)
  {
    forall j | 0 <= j < |rest| ensures !Less(rest[j].0, s[0].0) {
      assert rest[j] in multiset(rest);
      if rest[j] == p {
        LessAsymmetric(s[0].0, p.0);
      } else {
        assert rest[j] in s[1..];
        var k :| 0 <= k < |s[1..]| && s[1..][k] == rest[j];
        assert s[k + 1] == rest[j];
      }
    }
  }

  /** Puts `p` in front of the first pair whose key is not below its own. */
  function Insert(p: (string, Value), s: seq<(string, Value)>): (r: seq<(string, Value)>)
    requires SortedByKey(s)
    ensures SortedByKey(r)
    ensures multiset(r) == multiset(s) + multiset{p}
  {
    if s == [] || !Less(s[0].0, p.0) then
      InsertFirst(p, s);
      [p] + s
    else
      var rest := Insert(p, s[1..]);
      assert s == [s[0]] + s[1..];
      InsertAfterHead(p, s, rest);
      [s[0]] + rest
  }

  /** `sorted(kvs.items(), key=lambda x: x[0])`: the same pairs, keys
      ascending. */
  function SortByKey(kvs: seq<(string, Value)>): (r: seq<(string, Value)>)
    ensures SortedByKey(r)
    ensures multiset(r) == multiset(kvs)
  {
    if kvs == [] then []
    else
      assert kvs == [kvs[0]] + kvs[1..];
      Insert(kvs[0], SortByKey(kvs[1..]))
  }

  // ---------------------------------------------------------------------
  // Formatters

  /** One part of an `extras_template`: literal text, the `{0}` field (the
      key) or the `{1}` field (the value). */
  datatype Field = Lit(text: string) | KeyField | ValueField

  /** `"[{0}: {1}]"`. */
  const DefaultTemplate: seq<Field> := [Lit("["), KeyField, Lit(": "), ValueField, Lit("]")]

  /** The number of literal characters of a template. */
  function LiteralLength(template: seq<Field>): nat {
    if template == [] then 0
    else (if template[0].Lit? then |template[0].text| else 0) + LiteralLength(template[1..])
  }

  /** `extras_template.format(key, value)`: every literal character of the
      template is in the result. */
  function Render(template: seq<Field>, key: string, value: string): (r: string)
    ensures |r| >= LiteralLength(template)
  {
    if template == [] then ""
    else
      var head := match template[0]
        case Lit(t) => t
        case KeyField => key
        case ValueField => value;
      head + Render(template[1..], key, value)
  }

  /** Rendering a template made of two parts renders each part in turn. */
  lemma {:induction false} RenderAppend(a: seq<Field>, b: seq<Field>, key: string, value: string)
    ensures Render(a + b, key, value) == Render(a, key, value) + Render(b, key, value)
  {
    if a == [] {
      assert a + b == b;
    } else {
      assert (a + b)[0] == a[0];
      assert (a + b)[1..] == a[1..] + b;
      RenderAppend(a[1..], b, key, value);
    }
  }

  /** Literal text is copied, `{0}` is replaced by the key and `{1}` by the
      value. */
  lemma RenderField(text: string, key: string, value: string)
    ensures Render([Lit(text)], key, value) == text
    ensures Render([KeyField], key, value) == key
    ensures Render([ValueField], key, value) == value
  {
    assert [Lit(text)][1..] == [KeyField][1..] == [ValueField][1..] == [];
  }

  /** `"[{0}: {1}]".format(key, value)`. */
  lemma DefaultTemplateRender(key: string, value: string)
    ensures Render(DefaultTemplate, key, value) == "[" + key + ": " + value + "]"
  {
    var t := DefaultTemplate;
    assert t == [Lit("[")] + [KeyField] + [Lit(": ")] + [ValueField] + [Lit("]")];
    RenderAppend([Lit("[")] + [KeyField] + [Lit(": ")] + [ValueField], [Lit("]")], key, value);
    RenderAppend([Lit("[")] + [KeyField] + [Lit(": ")], [ValueField], key, value);
    RenderAppend([Lit("[")] + [KeyField], [Lit(": ")], key, value);
    RenderAppend([Lit("[")], [KeyField], key, value);
    RenderField("[", key, value);
    RenderField(": ", key, value);
    RenderField("]", key, value);
  }

  /** The abstract `KVFormatter` and its three dataclasses, with their
      fields. */
  datatype KVFormatter =
    | EmptyKVFormatter
    | TemplateKVFormatter(template: seq<Field>, separator: string, prefix: string, suffix: string,
                          valueMaxLength: int)
    | LogFmtKVFormatter(ignoreCompoundTypes: bool, logfmtPrefix: string, logfmtSuffix: string)

  const DefaultTemplateKVFormatter: KVFormatter := TemplateKVFormatter(DefaultTemplate, " ", " ", "", 40)

  /** The default `LogFmtKVFormatter` given the value of the
      `STLOG_LOGFMT_IGNORE_COMPOUND_TYPES` setting. */
  function DefaultLogFmtKVFormatter(ignoreCompoundTypes: bool): KVFormatter {
    LogFmtKVFormatter(ignoreCompoundTypes, " {", "}")
  }

  /** The template piece of each pair, in order. */
  function TemplatePieces(template: seq<Field>, limit: int, items: seq<(string, Value)>,
                          render: Value -> Option<string>): (r: seq<string>)
    ensures |r| == |items|
    ensures forall i | 0 <= i < |items| ::
              r[i] == Render(template, items[i].0, TruncateSerialize(items[i].1, limit, render))
  {
    if items == [] then []
    else
      var rest := TemplatePieces(template, limit, items[1..], render);
      assert forall i | 1 <= i < |items| :: rest[i - 1] == Render(template, items[i].0, TruncateSerialize(items[i].1, limit, render));
      [Render(template, items[0].0, TruncateSerialize(items[0].1, limit, render))] + rest
  }

  /** The text `TemplateKVFormatter.format` answers: one piece per pair, keys
      ascending, joined; wrapped in prefix and suffix unless empty. */
  function TemplateFormatSpec(template: seq<Field>, separator: string, prefix: string, suffix: string,
                              limit: int, kvs: seq<(string, Value)>, render: Value -> Option<string>): string
  {
    var res := Join(separator, TemplatePieces(template, limit, SortByKey(kvs), render));
    if res != "" then prefix + res + suffix else res
  }

  /** `TemplateKVFormatter.format`. The pairs are the items of the dict, so
      their keys are distinct. */
  method TemplateFormat(template: seq<Field>, separator: string, prefix: string, suffix: string,
                        limit: int, kvs: seq<(string, Value)>, render: Value -> Option<string>)
      returns (res: string)
    ensures res == TemplateFormatSpec(template, separator, prefix, suffix, limit, kvs, render)
  {
    var items := SortByKey(kvs);
    var tmp: seq<string> := [];
    for i := 0 to |items|
      invariant |tmp| == i
      invariant forall j | 0 <= j < i ::
                  tmp[j] == Render(template, items[j].0, TruncateSerialize(items[j].1, limit, render))
    {
      // `_truncate_serialize` never answers None, so no pair is skipped
      var serialized := TruncateSerialize(items[i].1, limit, render);
      tmp := tmp + [Render(template, items[i].0, serialized)];
    }
    assert tmp == TemplatePieces(template, limit, items, render);
    res := Join(separator, tmp);
    if res != "" {
      res := prefix + res + suffix;
    }
  }

  /** With a template that has literal text, the formatted text is empty
      exactly when there are no pairs. */
  lemma TemplateFormatEmpty(template: seq<Field>, separator: string, prefix: string, suffix: string,
                            limit: int, kvs: seq<(string, Value)>, render: Value -> Option<string>)
    requires LiteralLength(template) > 0
    ensures TemplateFormatSpec(template, separator, prefix, suffix, limit, kvs, render) == "" <==> kvs == []
  {
    var items := SortByKey(kvs);
    var pieces := TemplatePieces(template, limit, items, render);
    JoinEmpty(separator, pieces);
    if kvs != [] {
      assert |multiset(items)| == |multiset(kvs)|;
      assert pieces[0] != "";
    }
  }

  /** `LogFmtKVFormatter._format`: the logfmt text of the pairs, keys
      ascending. `Nothing` when the `str()` of a value raises. */
  function LogFmtInner(ignoreCompoundTypes: bool, kvs: seq<(string, Value)>,
                       render: Value -> Option<string>): Option<string>
  {
    LogfmtFormat(SortByKey(kvs), ignoreCompoundTypes, render)
  }

  /** `LogFmtKVFormatter.format`. */
  function LogFmtFormat(ignoreCompoundTypes: bool, prefix: string, suffix: string,
                        kvs: seq<(string, Value)>, render: Value -> Option<string>): (r: Option<string>)
    ensures r.Some? <==> LogFmtInner(ignoreCompoundTypes, kvs, render).Some?
  {
    match LogFmtInner(ignoreCompoundTypes, kvs, render)
    case Nothing => Nothing
    case Some(t) => Some(if t == "" then "" else prefix + t + suffix)
  }

  /** The logfmt formatter answers the empty text exactly when every value
      is dropped as compound, and otherwise wraps the logfmt text of the
      sorted pairs. */
  lemma LogFmtFormatEmpty(ignoreCompoundTypes: bool, prefix: string, suffix: string,
                          kvs: seq<(string, Value)>, render: Value -> Option<string>)
    requires LogFmtFormat(ignoreCompoundTypes, prefix, suffix, kvs, render).Some?
    ensures var r := LogFmtFormat(ignoreCompoundTypes, prefix, suffix, kvs, render).value;
            && (r == "" <==> forall i | 0 <= i < |kvs| :: ignoreCompoundTypes && IsCompound(kvs[i].1))
            && (r != "" ==> r == prefix + LogFmtInner(ignoreCompoundTypes, kvs, render).value + suffix)
  {
    var sorted := SortByKey(kvs);
    LogfmtFormatEmpty(sorted, ignoreCompoundTypes, render);
    var kept := Kept(sorted, ignoreCompoundTypes);
    if kept == [] {
      forall i | 0 <= i < |kvs| ensures ignoreCompoundTypes && IsCompound(kvs[i].1) {
        assert kvs[i] in multiset(sorted);
      }
    } else {
      assert kept[0] in multiset(kvs);
      var i :| 0 <= i < |kvs| && kvs[i] == kept[0];
    }
  }

  /** `format` of each formatter: the empty formatter always answers the
      empty text, the template formatter never raises. */
  method Format(f: KVFormatter, kvs: seq<(string, Value)>, render: Value -> Option<string>)
      returns (r: Option<string>)
    ensures f.EmptyKVFormatter? ==> r == Some("")
    ensures f.TemplateKVFormatter? ==>
              r == Some(TemplateFormatSpec(f.template, f.separator, f.prefix, f.suffix, f.valueMaxLength, kvs, render))
    ensures f.LogFmtKVFormatter? ==> r == LogFmtFormat(f.ignoreCompoundTypes, f.logfmtPrefix, f.logfmtSuffix, kvs, render)
  {
    match f
    case EmptyKVFormatter =>
      r := Some("");
    case TemplateKVFormatter(template, separator, prefix, suffix, limit) =>
      var s := TemplateFormat(template, separator, prefix, suffix, limit, kvs, render);
      r := Some(s);
    case LogFmtKVFormatter(ignore, prefix, suffix) =>
      r := LogFmtFormat(ignore, prefix, suffix, kvs, render);
  }
}

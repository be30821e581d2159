/** The logger adapter of `stlog/adapter.py`: on every log call it merges
    the logger's own keyword arguments, an explicit `extra=` dict, the
    execution log context and the call-site keyword arguments into the one
    `extra` dict handed to the standard logger. */
module Adapter {
  import opened PyValue
  import opened Base
  import opened Context

  /** The keyword argument name the standard logger takes its extras from. */
  const ExtraArg: string := "extra"

  /** What `process` returns: the message and the keyword arguments for the
      standard logger. `kwargs` holds every argument but `extra`, which the
      source stores as `kwargs["extra"]` and the model keeps apart. */
  datatype Processed = Processed(msg: Value, kwargs: map<string, Value>, extra: map<string, Value>)

  /** `kwargs.get("extra")` is truthy. */
  predicate HasExplicitExtra(kwargs: map<string, Value>) {
    ExtraArg in kwargs && Truthy(kwargs[ExtraArg])
  }

  /** How `dict.update(arg)` reads its argument: the pairs it stores, in
      order, or the exception it raises. `Unknown` stands for what depends
      on something the model does not see: a set's iteration order, or the
      methods of an arbitrary object. */
  datatype Update = Pairs(pairs: seq<(Value, Value)>) | Raises(error: Error) | Unknown

  /** `hash(v)` succeeds: lists, dicts and sets are unhashable, and a tuple
      is hashable exactly when its items are. */
  predicate Hashable(v: Value) {
    match v
    case List(_) => false
    case Dict(_) => false
    case Set(_) => false
    case Tuple(items) => forall i | 0 <= i < |items| :: Hashable(items[i])
    case _ => true
  }

  /** A key and a value read from one element; the key must be hashable. */
  function KeyedPair(k: Value, v: Value): (r: Update)
    ensures r.Pairs? <==> Hashable(k)
    ensures r.Pairs? ==> r.pairs == [(k, v)]
    ensures r.Raises? ==> r.error == TypeError
  {
    if Hashable(k) then Pairs([(k, v)]) else Raises(TypeError)
  }

  /** One element of an iterable given to `dict.update`: it must itself be
      iterable (else `TypeError`) and yield exactly two items (else
      `ValueError`), the key and the value. Iterating a dict yields its keys,
      iterating bytes yields ints. */
  function ElementPair(item: Value): (r: Update)
    ensures r.Pairs? ==> |r.pairs| == 1
  {
    match item
    case List(items) => if |items| == 2 then KeyedPair(items[0], items[1]) else Raises(ValueError)
    case Tuple(items) => if |items| == 2 then KeyedPair(items[0], items[1]) else Raises(ValueError)
    case Str(s) => if |s| == 2 then Pairs([(Str([s[0]]), Str([s[1]]))]) else Raises(ValueError)
    case Bytes(d) => if |d| == 2 then Pairs([(Int(d[0] as int), Int(d[1] as int))]) else Raises(ValueError)
    case Dict(entries) => if |entries| == 2 then KeyedPair(entries[0].0, entries[1].0) else Raises(ValueError)
    case Set(elems) => if |elems| == 2 then Unknown else Raises(ValueError)
    case Object(_) => Unknown
    case _ => Raises(TypeError)
  }

  /** The elements of an iterable of pairs, read in order: the first element
      that is not a pair decides the outcome. */
  function SeqPairs(items: seq<Value>): (r: Update)
    ensures r.Pairs? ==> |r.pairs| == |items|
  {
    if items == [] then Pairs([])
    else
      match ElementPair(items[0])
      case Pairs(p) =>
        (match SeqPairs(items[1..])
         case Pairs(q) => Pairs(p + q)
         case other => other)
      case other => other
  }

  /** `dict.update(v)`: a dict is a mapping and gives its entries; any other
      iterable is read as a sequence of pairs; anything else is not iterable
      and raises `TypeError`. A character of a str is a str of length one,
      so a non-empty str raises `ValueError`; a byte is an int, so non-empty
      bytes raise `TypeError`. */
  function UpdatePairs(v: Value): Update {
    match v
    case Dict(entries) => Pairs(entries)
    case List(items) => SeqPairs(items)
    case Tuple(items) => SeqPairs(items)
    case Str(s) => if s == [] then Pairs([]) else Raises(ValueError)
    case Bytes(d) => if d == [] then Pairs([]) else Raises(TypeError)
    case Set(elems) => if elems == {} then Pairs([]) else Unknown
    case Object(_) => Unknown
    case _ => Raises(TypeError)
  }

  /** The model follows `extra.update(v)` when it stores only str keys. */
  predicate StoresStrKeys(v: Value) {
    var u := UpdatePairs(v);
    u.Pairs? && forall i | 0 <= i < |u.pairs| :: u.pairs[i].0.Str?
  }

  /** What `process` reports when `extra.update(v)` is not followed: the
      exception it raises, or `Unmodelled` when it stores a key that is not
      a str or its outcome is `Unknown`. */
  function UpdateError(v: Value): Error {
    match UpdatePairs(v)
    case Raises(e) => e
    case _ => Unmodelled
  }

  /** The first element that is not a pair decides the outcome of reading
      an iterable of pairs: its exception, or `Unknown`. */
  lemma {:induction false} FirstBadElement(items: seq<Value>, i: nat)
    requires i < |items|
    requires forall j | 0 <= j < i :: ElementPair(items[j]).Pairs?
    requires !ElementPair(items[i]).Pairs?
    ensures SeqPairs(items) == ElementPair(items[i])
  {
    if i > 0 {
      assert forall j | 0 <= j < i - 1 :: items[1..][j] == items[j + 1];
      FirstBadElement(items[1..], i - 1);
    }
  }

  /** When every element is a pair, `dict.update` stores those pairs, one
      per element, in order. */
  lemma {:induction false} AllElementsPairs(items: seq<Value>)
    requires forall j | 0 <= j < |items| :: ElementPair(items[j]).Pairs?
    ensures SeqPairs(items).Pairs?
    ensures forall j | 0 <= j < |items| :: SeqPairs(items).pairs[j] == ElementPair(items[j]).pairs[0]
  {
    if items != [] {
      assert forall j | 0 <= j < |items| - 1 :: items[1..][j] == items[j + 1];
      AllElementsPairs(items[1..]);
    }
  }

  /** `extra=[("k", v), ...]` stores the same pairs as `extra={"k": v, ...}`. */
  lemma PairListAgreesWithDict(entries: seq<(string, Value)>)
    ensures var pairs := seq(|entries|, i requires 0 <= i < |entries| => Tuple([Str(entries[i].0), entries[i].1]));
            UpdatePairs(List(pairs))
            == UpdatePairs(Dict(seq(|entries|, i requires 0 <= i < |entries| => (Str(entries[i].0), entries[i].1))))
  {
    var pairs := seq(|entries|, i requires 0 <= i < |entries| => Tuple([Str(entries[i].0), entries[i].1]));
    var stored := seq(|entries|, i requires 0 <= i < |entries| => (Str(entries[i].0), entries[i].1));
    forall j | 0 <= j < |pairs|
      ensures ElementPair(pairs[j]) == Pairs([stored[j]])
    {
      assert pairs[j].items[0] == Str(entries[j].0);
    }
    AllElementsPairs(pairs);
    assert SeqPairs(pairs).pairs == stored;
  }

  /** What `dict.update` makes of some arguments: a dict with an int key and
      a list holding a 2-character str are taken, and the key of a pair is
      the first item; an int is not iterable; a str's characters are not
      pairs. */
  lemma UpdateExamples()
    ensures UpdatePairs(Dict([(Int(1), Str("x"))])) == Pairs([(Int(1), Str("x"))])
    ensures !StoresStrKeys(Dict([(Int(1), Str("x"))]))
    ensures UpdatePairs(List([Tuple([Str("a"), Int(1)])])) == Pairs([(Str("a"), Int(1))])
    ensures UpdatePairs(List([Str("ab")])) == Pairs([(Str("a"), Str("b"))])
    ensures UpdatePairs(List([Tuple([List([]), Int(1)])])) == Raises(TypeError)
    ensures UpdatePairs(Int(5)) == Raises(TypeError)
    ensures UpdatePairs(Str("ab")) == Raises(ValueError)
  {
    assert !StoresStrKeys(Dict([(Int(1), Str("x"))])) by {
      assert UpdatePairs(Dict([(Int(1), Str("x"))])).pairs[0].0 == Int(1);
    }
  }

  /** The pairs an explicit `extra=` argument contributes, the later of two
      equal keys winning. */
  function ExplicitPairs(kwargs: map<string, Value>): (r: map<string, Value>)
    ensures !HasExplicitExtra(kwargs) ==> r == map[]
  {
    if HasExplicitExtra(kwargs) && UpdatePairs(kwargs[ExtraArg]).Pairs? then
      StrKeyed(DictMap(UpdatePairs(kwargs[ExtraArg]).pairs))
    else map[]
  }

  /** `extra=[("a", 1)]` contributes the key `a` with the value 1. */
  lemma ExplicitPairListExample(kwargs: map<string, Value>)
    requires ExtraArg in kwargs && kwargs[ExtraArg] == List([Tuple([Str("a"), Int(1)])])
    ensures ExplicitPairs(kwargs) == map["a" := Int(1)]
  {
    var pairs := [(Str("a"), Int(1))];
    assert UpdatePairs(kwargs[ExtraArg]) == Pairs(pairs) by {
      var items := [Tuple([Str("a"), Int(1)])];
      assert ElementPair(items[0]) == Pairs(pairs);
      assert items[1..] == [];
    }
    assert DictMap(pairs) == map[Str("a") := Int(1)] by {
      assert pairs[..0] == [];
    }
  }

  /** The keyword arguments left once a truthy `extra` has been popped. */
  function WithoutExplicitExtra(kwargs: map<string, Value>): (r: map<string, Value>)
    ensures ExtraArg in r ==> !Truthy(r[ExtraArg])
  {
    if HasExplicitExtra(kwargs) then kwargs - {ExtraArg} else kwargs
  }

  function Restrict(m: map<string, Value>, keys: set<string>): (r: map<string, Value>)
    ensures r.Keys == m.Keys * keys
    ensures forall k | k in r :: r[k] == m[k]
  {
    map k | k in m && k in keys :: m[k]
  }

  function Drop(m: map<string, Value>, keys: set<string>): (r: map<string, Value>)
    ensures r.Keys == m.Keys - keys
    ensures forall k | k in r :: r[k] == m[k]
  {
    map k | k in m && k !in keys :: m[k]
  }

  /** Every logger-level value passes `check_json_types_or_raise`. */
  predicate AllJson(m: map<string, Value>) {
    forall k | k in m :: IsJson(m[k])
  }

  /** The `extra` dict before the marker is added: the logger-level extras,
      updated with the explicit `extra=` dict, then with every non-reserved
      keyword argument. */
  function MergeExtra(loggerExtra: map<string, Value>, kwargs: map<string, Value>): (r: map<string, Value>)
    ensures var explicit := ExplicitPairs(kwargs);
            var moved := Drop(WithoutExplicitExtra(kwargs), ReservedAttrs);
            && r.Keys == loggerExtra.Keys + explicit.Keys + moved.Keys
            && (forall k | k in moved :: r[k] == moved[k])
            && (forall k | k !in moved && k in explicit :: r[k] == explicit[k])
            && (forall k | k !in moved && k !in explicit && k in loggerExtra :: r[k] == loggerExtra[k])
  {
    loggerExtra + ExplicitPairs(kwargs) + Drop(WithoutExplicitExtra(kwargs), ReservedAttrs)
  }

  /** Specification of `_KeywordArgumentAdapter.process`. */
  function KeywordProcessSpec(loggerExtra: Option<map<string, Value>>, msg: Value, kwargs: map<string, Value>)
    : Result<Processed>
  {
    if loggerExtra.Nothing? then Err(UnboundLocalError)
    else if !AllJson(loggerExtra.value) then Err(StLogError)
    else if HasExplicitExtra(kwargs) && !StoresStrKeys(kwargs[ExtraArg]) then Err(UpdateError(kwargs[ExtraArg]))
    else
      var extra := MergeExtra(loggerExtra.value, kwargs);
      Ok(Processed(msg, Restrict(WithoutExplicitExtra(kwargs), ReservedAttrs), extra[ExtraKey := KeySet(extra.Keys)]))
  }

  /** The keyword arguments `StLogLoggerAdapter.process` passes on: the
      context overlaid with the call-site ones, or the latter alone. */
  function MergedKwargs(ignoreContext: bool, context: map<string, Value>, kwargs: map<string, Value>)
    : (r: map<string, Value>)
    ensures ignoreContext ==> r == kwargs
  {
    if ignoreContext then kwargs else Overlay(context, kwargs)
  }

  /** Specification of `StLogLoggerAdapter.process`. */
  function ProcessSpec(loggerExtra: Option<map<string, Value>>, ignoreContext: bool, context: map<string, Value>,
                       msg: Value, kwargs: map<string, Value>): Result<Processed>
  {
    KeywordProcessSpec(loggerExtra, msg, MergedKwargs(ignoreContext, context, kwargs))
  }

  /** The keys `extra` ends up with besides the marker: the logger's own, the
      explicit dict's, and the non-reserved merged keyword arguments. */
  function SourceKeys(loggerExtra: map<string, Value>, merged: map<string, Value>): set<string> {
    loggerExtra.Keys + ExplicitPairs(merged).Keys + (WithoutExplicitExtra(merged).Keys - ReservedAttrs)
  }

  /** `check_json_types_or_raise(self.extra)`: every value is checked. */
  method CheckLoggerExtra(m: map<string, Value>) returns (r: Outcome)
    ensures r.Pass? <==> AllJson(m)
    ensures r.Fail? ==> r.error == StLogError
  {
    var todo := m.Keys;
    while todo != {}
      invariant todo <= m.Keys
      invariant forall k | k in m.Keys - todo :: IsJson(m[k])
      decreases |todo|
    {
      var k :| k in todo;
      r := CheckJsonTypes(m[k]);
      if r.Fail? {
        return;
      }
      todo := todo - {k};
    }
    return Pass;
  }

  /** The loop of `process` that pops every non-reserved keyword argument
      into `extra`; the reserved ones stay behind. */
  method MoveKeywords(extra: map<string, Value>, kwargs: map<string, Value>, reserved: set<string>)
      returns (e: map<string, Value>, kw: map<string, Value>)
    ensures forall k :: k in e <==> k in extra || (k in kwargs && k !in reserved)
    ensures forall k | k in kwargs && k !in reserved :: e[k] == kwargs[k]
    ensures forall k | k in extra && (k !in kwargs || k in reserved) :: e[k] == extra[k]
    ensures forall k :: k in kw <==> k in kwargs && k in reserved
    ensures forall k | k in kw :: kw[k] == kwargs[k]
  {
    e, kw := extra, kwargs;
    var names := kwargs.Keys;
    ghost var done: set<string> := {};
    while names != {}
      invariant names <= kwargs.Keys && done == kwargs.Keys - names
      invariant forall k :: k in kw <==> k in kwargs && (k !in done || k in reserved)
      invariant forall k | k in kw :: kw[k] == kwargs[k]
      invariant forall k :: k in e <==> k in extra || (k in done && k !in reserved)
      invariant forall k | k in done && k !in reserved :: e[k] == kwargs[k]
      invariant forall k | k in extra && (k !in done || k in reserved) :: e[k] == extra[k]
      decreases |names|
    {
      var name :| name in names;
      if name !in reserved {
        e := e[name := kw[name]];
        kw := kw - {name};
      }
      names := names - {name};
      done := done + {name};
    }
  }

  /** What `MoveKeywords` leaves behind, as whole maps. */
  lemma MovedMaps(extra: map<string, Value>, kwargs: map<string, Value>, reserved: set<string>,
                  e: map<string, Value>, kw: map<string, Value>)
    requires forall k :: k in e <==> k in extra || (k in kwargs && k !in reserved)
    requires forall k | k in kwargs && k !in reserved :: e[k] == kwargs[k]
    requires forall k | k in extra && (k !in kwargs || k in reserved) :: e[k] == extra[k]
    requires forall k :: k in kw <==> k in kwargs && k in reserved
    requires forall k | k in kw :: kw[k] == kwargs[k]
    ensures e == extra + Drop(kwargs, reserved)
    ensures kw == Restrict(kwargs, reserved)
  {
  }

  /** The call argument `extra` is not a reserved record attribute. */
  lemma ExtraArgNotReserved()
    ensures ExtraArg !in ReservedAttrs && ExtraKey !in ReservedAttrs
  {
  }

  /** A logger built by `getLogger` with keyword arguments `extra`, or by the
      adapter's own constructor. The context store is only ever read. */
  class StLogLoggerAdapter {
    const extra: Option<map<string, Value>>
    const ignoreGlobalContext: bool

    constructor (extra: Option<map<string, Value>>, ignoreGlobalContext: bool)
      ensures this.extra == extra && this.ignoreGlobalContext == ignoreGlobalContext
    {
      this.extra := extra;
      this.ignoreGlobalContext := ignoreGlobalContext;
    }

    /** `getLogger(name, **kwargs)`: the keyword arguments become the
        logger-level extras and the context is not ignored. */
    static method GetLogger(kwargs: map<string, Value>) returns (logger: StLogLoggerAdapter)
      ensures fresh(logger) && logger.extra == Some(kwargs) && !logger.ignoreGlobalContext
    {
      logger := new StLogLoggerAdapter(Some(kwargs), false);
    }

    /** `_KeywordArgumentAdapter.process`: copies the logger-level extras
        after checking their types, applies a truthy explicit `extra=` dict,
        then moves every non-reserved keyword argument into `extra` and
        records the key set under the marker key. */
    method KeywordProcess(msg: Value, kwargs: map<string, Value>) returns (r: Result<Processed>)
      ensures r == KeywordProcessSpec(extra, msg, kwargs)
    {
      if extra.Nothing? {
        // `extra` is never bound, whichever statement first reads it
        return Err(UnboundLocalError);
      }
      var checked := CheckLoggerExtra(extra.value);
      if checked.Fail? {
        return Err(checked.error);
      }
      var e := extra.value;
      var kw := kwargs;
      if HasExplicitExtra(kw) {
        var explicit := kw[ExtraArg];
        kw := kw - {ExtraArg};
        if !StoresStrKeys(explicit) {
          return Err(UpdateError(explicit));
        }
        e := e + StrKeyed(DictMap(UpdatePairs(explicit).pairs));
      }
      assert e == extra.value + ExplicitPairs(kwargs);
      assert kw == WithoutExplicitExtra(kwargs);
      ghost var e0, kw0 := e, kw;
      e, kw := MoveKeywords(e, kw, ReservedAttrs);
      MovedMaps(e0, kw0, ReservedAttrs, e, kw);
      r := Ok(Processed(msg, kw, e[ExtraKey := KeySet(e.Keys)]));
    }

    /** `StLogLoggerAdapter.process`: reads the current context, unless the
        logger ignores it, and lets the call-site keyword arguments win over
        it. */
    method Process(ctx: ExecutionLogContext, msg: Value, kwargs: map<string, Value>) returns (r: Result<Processed>)
      ensures r == ProcessSpec(extra, ignoreGlobalContext, ctx.current.entries, msg, kwargs)
    {
      var newKwargs;
      if ignoreGlobalContext {
        newKwargs := kwargs;
      } else {
        newKwargs := Overlay(ctx.Get().entries, kwargs);
      }
      r := KeywordProcess(msg, newKwargs);
    }
  }

  /** The error paths: a logger without extras, a logger-level value that is
      not JSON-like, and a truthy `extra=` that `dict.update` rejects (with
      its own exception) or that the model does not follow. */
  lemma ProcessErrors(loggerExtra: Option<map<string, Value>>, ignoreContext: bool, context: map<string, Value>,
                      msg: Value, kwargs: map<string, Value>)
    ensures loggerExtra.Nothing? ==> ProcessSpec(loggerExtra, ignoreContext, context, msg, kwargs) == Err(UnboundLocalError)
    ensures loggerExtra.Some? && !AllJson(loggerExtra.value) ==>
              ProcessSpec(loggerExtra, ignoreContext, context, msg, kwargs) == Err(StLogError)
    ensures ProcessSpec(loggerExtra, ignoreContext, context, msg, kwargs).Err? <==>
              || loggerExtra.Nothing?
              || !AllJson(loggerExtra.value)
              || (var merged := MergedKwargs(ignoreContext, context, kwargs);
                  HasExplicitExtra(merged) && !StoresStrKeys(merged[ExtraArg]))
    ensures var merged := MergedKwargs(ignoreContext, context, kwargs);
            loggerExtra.Some? && AllJson(loggerExtra.value) && HasExplicitExtra(merged)
            && UpdatePairs(merged[ExtraArg]).Raises? ==>
              ProcessSpec(loggerExtra, ignoreContext, context, msg, kwargs)
              == Err(UpdatePairs(merged[ExtraArg]).error)
  {
  }

  /** Which source a non-reserved key's value comes from: call-site keyword
      arguments over the context over the explicit `extra=` dict over the
      logger-level extras; a key is present iff one of them has it. */
  lemma ProcessPrecedence(loggerExtra: Option<map<string, Value>>, ignoreContext: bool, context: map<string, Value>,
                          msg: Value, kwargs: map<string, Value>, k: string)
    requires ProcessSpec(loggerExtra, ignoreContext, context, msg, kwargs).Ok?
    requires k != ExtraKey && k != ExtraArg && k !in ReservedAttrs
    ensures var extra := ProcessSpec(loggerExtra, ignoreContext, context, msg, kwargs).value.extra;
            var explicit := ExplicitPairs(MergedKwargs(ignoreContext, context, kwargs));
            && (k in extra <==> k in kwargs || (!ignoreContext && k in context) || k in explicit || k in loggerExtra.value)
            && (k in kwargs ==> extra[k] == kwargs[k])
            && (k !in kwargs && !ignoreContext && k in context ==> extra[k] == context[k])
            && (k !in kwargs && (ignoreContext || k !in context) && k in explicit ==> extra[k] == explicit[k])
            && (k !in kwargs && (ignoreContext || k !in context) && k !in explicit && k in loggerExtra.value ==>
                  extra[k] == loggerExtra.value[k])
  {
    var merged := MergedKwargs(ignoreContext, context, kwargs);
    ProcessExtra(loggerExtra, ignoreContext, context, msg, kwargs);
    MergeExtraAt(loggerExtra.value, merged, k);
  }

  /** On success, `extra` is the merged dict with the marker added. */
  lemma ProcessExtra(loggerExtra: Option<map<string, Value>>, ignoreContext: bool, context: map<string, Value>,
                     msg: Value, kwargs: map<string, Value>)
    requires ProcessSpec(loggerExtra, ignoreContext, context, msg, kwargs).Ok?
    ensures var unmarked := MergeExtra(loggerExtra.value, MergedKwargs(ignoreContext, context, kwargs));
            ProcessSpec(loggerExtra, ignoreContext, context, msg, kwargs).value.extra
            == unmarked[ExtraKey := KeySet(unmarked.Keys)]
  {
  }

  /** Where a non-reserved key of the merged dict takes its value from. */
  lemma MergeExtraAt(loggerExtra: map<string, Value>, merged: map<string, Value>, k: string)
    requires k != ExtraArg && k !in ReservedAttrs
    ensures var r := MergeExtra(loggerExtra, merged);
            var explicit := ExplicitPairs(merged);
            && (k in r <==> k in merged || k in explicit || k in loggerExtra)
            && (k in merged ==> r[k] == merged[k])
            && (k !in merged && k in explicit ==> r[k] == explicit[k])
            && (k !in merged && k !in explicit && k in loggerExtra ==> r[k] == loggerExtra[k])
  {
    var moved := Drop(WithoutExplicitExtra(merged), ReservedAttrs);
    assert k in moved <==> k in merged;
  }

  /** The message is returned unchanged, reserved keyword arguments stay in
      `kwargs` (and nothing else does), `extra` holds exactly the source
      keys plus the marker, and the marker is the set of those source keys
      as they stood before it was inserted. */
  lemma ProcessShape(loggerExtra: Option<map<string, Value>>, ignoreContext: bool, context: map<string, Value>,
                     msg: Value, kwargs: map<string, Value>)
    requires ProcessSpec(loggerExtra, ignoreContext, context, msg, kwargs).Ok?
    ensures var p := ProcessSpec(loggerExtra, ignoreContext, context, msg, kwargs).value;
            var merged := MergedKwargs(ignoreContext, context, kwargs);
            && p.msg == msg
            && p.kwargs.Keys <= ReservedAttrs
            && (forall k | k in merged && k in ReservedAttrs :: k in p.kwargs && p.kwargs[k] == merged[k])
            && p.extra.Keys == SourceKeys(loggerExtra.value, merged) + {ExtraKey}
            && p.extra[ExtraKey] == KeySet(SourceKeys(loggerExtra.value, merged))
  {
    var merged := MergedKwargs(ignoreContext, context, kwargs);
    ExtraArgNotReserved();
    var rest := WithoutExplicitExtra(merged);
    assert forall k | k in merged && k in ReservedAttrs :: k in rest && rest[k] == merged[k];
  }

  /** A logger that ignores the context sees none of it: every key of its
      `extra` comes from the logger, the call site or the marker. */
  lemma IgnoredContextAbsent(loggerExtra: Option<map<string, Value>>, context: map<string, Value>,
                             msg: Value, kwargs: map<string, Value>, k: string)
    requires ProcessSpec(loggerExtra, true, context, msg, kwargs).Ok?
    requires k in context && k !in kwargs && k !in loggerExtra.value && k !in ExplicitPairs(kwargs) && k != ExtraKey
    ensures k !in ProcessSpec(loggerExtra, true, context, msg, kwargs).value.extra
  {
  }

  /** Logger extras `{a: 1}`, context `{a: 2, b: 2}`, call-site arguments
      `{a: 3, c: 3}` and `extra={"a": 4}` give `a` the call-site value 3:
      the call-site arguments win over the explicit dict. */
  lemma PrecedenceExample(loggerExtra: map<string, Value>, context: map<string, Value>, kwargs: map<string, Value>)
    requires loggerExtra == map["a" := Int(1)]
    requires context == map["a" := Int(2), "b" := Int(2)]
    requires kwargs == map["a" := Int(3), "c" := Int(3), ExtraArg := Dict([(Str("a"), Int(4))])]
    ensures var r := ProcessSpec(Some(loggerExtra), false, context, None, kwargs);
            r.Ok? && r.value.extra["a"] == Int(3)
  {
    var r := ProcessSpec(Some(loggerExtra), false, context, None, kwargs);
    assert r.Ok? by {
      ExampleSucceeds(loggerExtra, context, kwargs);
    }
    assert "a" in kwargs && kwargs["a"] == Int(3);
    assert r.value.extra["a"] == kwargs["a"] by {
      AbcNotReserved();
      ProcessPrecedence(Some(loggerExtra), false, context, None, kwargs, "a");
    }
  }

  /** The example's logger extras are JSON-like and its `extra=` is a
      str-keyed dict, so processing succeeds. */
  lemma ExampleSucceeds(loggerExtra: map<string, Value>, context: map<string, Value>, kwargs: map<string, Value>)
    requires loggerExtra == map["a" := Int(1)]
    requires context == map["a" := Int(2), "b" := Int(2)]
    requires kwargs == map["a" := Int(3), "c" := Int(3), ExtraArg := Dict([(Str("a"), Int(4))])]
    ensures ProcessSpec(Some(loggerExtra), false, context, None, kwargs).Ok?
  {
    var explicit := Dict([(Str("a"), Int(4))]);
    var merged := MergedKwargs(false, context, kwargs);
    assert ExtraArg in merged && merged[ExtraArg] == explicit;
    assert AllJson(loggerExtra) && StoresStrKeys(explicit);
  }

  lemma AbcNotReserved()
    ensures "a" !in ReservedAttrs && "b" !in ReservedAttrs && "c" !in ReservedAttrs
  {
  }
}

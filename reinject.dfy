/** The context injection shared by the two `ContextReinjectHandlerWrapper`
    classes (`stlog/handler.py`, `standard_structlog/handler.py`) and, for its
    attribute-setting loop, by `ContextReinjectFilter`. */
module Reinject {
  import opened PyValue
  import opened Records
  import opened Context

  /** `for k, v in pairs.items(): setattr(record, k, v)`; answers the names
      it set, which the callers add to their key set. */
  method SetAttrs(record: LogRecord, pairs: map<string, Value>) returns (names: set<string>)
    modifies record
    ensures record.attrs == Overlay(old(record.attrs), pairs)
    ensures names == pairs.Keys
  {
    ghost var before := record.attrs;
    names := {};
    var todo := pairs.Keys;
    while todo != {}
      invariant todo <= pairs.Keys && names == pairs.Keys - todo
      invariant record.attrs == before + Part(pairs, names)
      decreases |todo|
    {
      var k :| k in todo;
      PartGrows(before, pairs, names, k);
      record.attrs := record.attrs[k := pairs[k]];
      names := names + {k};
      todo := todo - {k};
    }
    assert Part(pairs, names) == pairs;
  }

  /** The pairs of `pairs` whose keys are in `names`. */
  function Part(pairs: map<string, Value>, names: set<string>): (r: map<string, Value>)
    requires names <= pairs.Keys
  {
    map k | k in names :: pairs[k]
  }

  /** Setting one more pair extends the overlaid part by that key. */
  lemma PartGrows(before: map<string, Value>, pairs: map<string, Value>, names: set<string>, k: string)
    requires names <= pairs.Keys && k in pairs
    ensures before + Part(pairs, names + {k}) == (before + Part(pairs, names))[k := pairs[k]]
  {
  }

  /** `getattr(record, managedKey, False)` is truthy. */
  predicate Managed(attrs: map<string, Value>, managedKey: string) {
    managedKey in attrs && Truthy(attrs[managedKey])
  }

  /** The key-set attribute, when present, holds a `set`. */
  predicate KeysAttrIsSet(attrs: map<string, Value>, keysAttr: string) {
    keysAttr in attrs ==> attrs[keysAttr].Set?
  }

  /** The members of the key-set attribute (`set()` when absent). */
  function KeysBefore(attrs: map<string, Value>, keysAttr: string): set<Value> {
    if keysAttr in attrs && attrs[keysAttr].Set? then attrs[keysAttr].elems else {}
  }

  /** The attributes after the context was injected: every context pair and
      the managed flag set to `True`, and the key-set attribute grown by
      their names. */
  function Injected(attrs: map<string, Value>, context: map<string, Value>, managedKey: string, keysAttr: string)
    : map<string, Value>
  {
    var newKwargs := context[managedKey := Bool(true)];
    Overlay(attrs, newKwargs)[keysAttr := Set(KeysBefore(attrs, keysAttr) + KeySet(newKwargs.Keys).elems)]
  }

  /** What injection does, attribute by attribute. */
  lemma InjectedShape(attrs: map<string, Value>, context: map<string, Value>, managedKey: string, keysAttr: string)
    requires managedKey != keysAttr
    ensures var r := Injected(attrs, context, managedKey, keysAttr);
            && r.Keys == attrs.Keys + context.Keys + {managedKey, keysAttr}
            && r[managedKey] == Bool(true)
            && (forall k | k in context && k != managedKey && k != keysAttr :: r[k] == context[k])
            && (forall k | k in attrs && k !in context && k != managedKey && k != keysAttr :: r[k] == attrs[k])
            && r[keysAttr].Set?
            && (forall e :: e in r[keysAttr].elems <==>
                  e in KeysBefore(attrs, keysAttr) || e == Str(managedKey) || (e.Str? && e.s in context))
  {
  }

  /** An injected record counts as managed, so a second injection is skipped. */
  lemma InjectedIsManaged(attrs: map<string, Value>, context: map<string, Value>, managedKey: string, keysAttr: string)
    requires managedKey != keysAttr
    ensures Managed(Injected(attrs, context, managedKey, keysAttr), managedKey)
    ensures KeysAttrIsSet(Injected(attrs, context, managedKey, keysAttr), keysAttr)
  {
  }

  /** The body of both `handle` methods under `if not getattr(record, managedKey, False)`. */
  method Inject(record: LogRecord, context: map<string, Value>, managedKey: string, keysAttr: string)
    modifies record
    requires KeysAttrIsSet(record.attrs, keysAttr)
    ensures record.attrs == Injected(old(record.attrs), context, managedKey, keysAttr)
  {
    var newKwargs := context[managedKey := Bool(true)];
    // `getattr(record, keysAttr, set())`, taken before any attribute is set
    var extraKeys := KeysBefore(record.attrs, keysAttr);
    var names := SetAttrs(record, newKwargs);
    extraKeys := extraKeys + KeySet(names).elems;
    record.attrs := record.attrs[keysAttr := Set(extraKeys)];
  }
}

/** `ContextReinjectFilter` of `stlog/filter.py`: gives a record that did not
    go through the adapter the pairs of the execution log context. */
module Filter {
  import opened PyValue
  import opened Records
  import opened Base
  import opened Context
  import opened Reinject

  /** The record attributes after `filter`: a record with the marker is left
      alone; any other gets every context pair, then the marker, which names
      the context keys and, when `readExtraKwargs` is set, every non-reserved
      attribute name it has by then. */
  function FilterSpec(attrs: map<string, Value>, context: map<string, Value>, readExtraKwargs: bool)
    : map<string, Value>
  {
    if ExtraKey in attrs then attrs
    else
      var enriched := Overlay(attrs, context);
      var promoted := if readExtraKwargs then enriched.Keys - ReservedAttrs else {};
      enriched[ExtraKey := KeySet(context.Keys + promoted)]
  }

  /** A record that lacked the marker ends with every context pair (over
      same-named attributes), its other attributes unchanged, and the
      marker; a record that had it is unchanged. */
  lemma FilterEnriches(attrs: map<string, Value>, context: map<string, Value>, readExtraKwargs: bool)
    ensures var r := FilterSpec(attrs, context, readExtraKwargs);
            && (ExtraKey in attrs ==> r == attrs)
            && (ExtraKey !in attrs ==>
                  && r.Keys == attrs.Keys + context.Keys + {ExtraKey}
                  && (forall k | k in context && k != ExtraKey :: r[k] == context[k])
                  && (forall k | k in attrs && k !in context && k != ExtraKey :: r[k] == attrs[k]))
  {
  }

  /** The marker names exactly the context keys when the flag is off; with
      the flag on it also names every non-reserved attribute of the record. */
  lemma FilterMarker(attrs: map<string, Value>, context: map<string, Value>, readExtraKwargs: bool)
    requires ExtraKey !in attrs
    ensures var r := FilterSpec(attrs, context, readExtraKwargs);
            && (!readExtraKwargs ==> r[ExtraKey] == KeySet(context.Keys))
            && (readExtraKwargs ==>
                  r[ExtraKey] == KeySet(context.Keys + ((attrs.Keys - ReservedAttrs) - {ExtraKey})))
  {
    var enriched := Overlay(attrs, context);
    if readExtraKwargs {
      assert context.Keys + (enriched.Keys - ReservedAttrs) == context.Keys + ((attrs.Keys - ReservedAttrs) - {ExtraKey});
    }
  }

  /** Filtering a record a second time changes nothing, whatever the
      context has become in between. */
  lemma FilterIdempotent(attrs: map<string, Value>, context: map<string, Value>,
                                            later: map<string, Value>, readExtraKwargs: bool)
    ensures var once := FilterSpec(attrs, context, readExtraKwargs);
            FilterSpec(once, later, readExtraKwargs) == once
  {
  }

  /** A logging filter that never drops a record. */
  class ContextReinjectFilter {
    const readExtraKwargs: bool

    constructor (readExtraKwargs: bool)
      ensures this.readExtraKwargs == readExtraKwargs
    {
      this.readExtraKwargs := readExtraKwargs;
    }

    /** `filter`: always keeps the record, and enriches it in place when it
        lacks the marker. The context is only read. */
    method Filter(record: LogRecord, ctx: ExecutionLogContext) returns (keep: bool)
      modifies record
      ensures keep
      ensures record.attrs == FilterSpec(old(record.attrs), ctx.current.entries, readExtraKwargs)
    {
      if ExtraKey !in record.attrs {
        var context := ctx.Get().entries;
        ghost var before := record.attrs;
        // `getattr(record, STLOG_EXTRA_KEY, set())` is the empty set here
        var extraKeys: set<string> := {};
        var names := SetAttrs(record, context);
        extraKeys := extraKeys + names;
        if readExtraKwargs {
          extraKeys := AddNonReserved(extraKeys, record.attrs.Keys);
        }
        assert extraKeys == context.Keys + (if readExtraKwargs then Overlay(before, context).Keys - ReservedAttrs else {});
        record.attrs := record.attrs[ExtraKey := KeySet(extraKeys)];
        assert record.attrs == FilterSpec(before, context, readExtraKwargs);
      }
      return true;
    }
  }

  /** `for k in vars(record).keys(): if k not in RESERVED_ATTRS: keys.add(k)`. */
  method AddNonReserved(keys: set<string>, names: set<string>) returns (r: set<string>)
    ensures r == keys + (names - ReservedAttrs)
  {
    r := keys;
    var todo := names;
    while todo != {}
      invariant todo <= names
      invariant r == keys + ((names - todo) - ReservedAttrs)
      decreases |todo|
    {
      var k :| k in todo;
      if k !in ReservedAttrs {
        r := r + {k};
      }
      todo := todo - {k};
    }
  }
}

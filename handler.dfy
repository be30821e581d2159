/** `ContextReinjectHandlerWrapper` of `stlog/handler.py`: wraps a standard
    handler and, when the global reinjection switch is on, gives a record
    that is not yet managed the pairs of the execution log context before
    passing it on. */
module Handler {
  import opened PyValue
  import opened Records
  import opened Base
  import opened Context
  import opened Reinject

  /** The record attributes after `handle`; `reinject` stands for
      `GLOBAL_LOGGING_CONFIG.reinject_context_in_standard_logging`. */
  function HandleSpec(attrs: map<string, Value>, context: map<string, Value>, reinject: bool): map<string, Value> {
    if reinject && !Managed(attrs, ManagedKey) then Injected(attrs, context, ManagedKey, ExtraKeysKey) else attrs
  }

  /** With the switch off, or on a managed record, nothing changes; otherwise
      the context pairs and `managed = True` are set and the extra-keys set
      grows by exactly their names. */
  lemma HandleEffect(attrs: map<string, Value>, context: map<string, Value>, reinject: bool)
    ensures !reinject || Managed(attrs, ManagedKey) ==> HandleSpec(attrs, context, reinject) == attrs
    ensures reinject && !Managed(attrs, ManagedKey) ==>
              var r := HandleSpec(attrs, context, reinject);
              && r[ManagedKey] == Bool(true)
              && (forall k | k in context && k != ManagedKey && k != ExtraKeysKey :: r[k] == context[k])
              && (forall k | k in attrs && k !in context && k != ManagedKey && k != ExtraKeysKey :: r[k] == attrs[k])
              && (forall e :: e in r[ExtraKeysKey].elems <==>
                    e in KeysBefore(attrs, ExtraKeysKey) || e == Str(ManagedKey) || (e.Str? && e.s in context))
  {
    if reinject && !Managed(attrs, ManagedKey) {
      InjectedShape(attrs, context, ManagedKey, ExtraKeysKey);
    }
  }

  /** Handling a record twice injects the context at most once, even when
      the context changed in between. */
  lemma {:induction false} HandleTwice(attrs: map<string, Value>, context: map<string, Value>,
                                       later: map<string, Value>, reinject: bool)
    ensures var once := HandleSpec(attrs, context, reinject);
            HandleSpec(once, later, reinject) == once
  {
    if reinject && !Managed(attrs, ManagedKey) {
      InjectedIsManaged(attrs, context, ManagedKey, ExtraKeysKey);
    }
  }

  class ContextReinjectHandlerWrapper {
    const wrapped: Handler

    constructor (wrapped: Handler)
      ensures this.wrapped == wrapped
    {
      this.wrapped := wrapped;
    }

    /** `handle`: injects the context when the switch is on and the record is
        not managed, then hands the record to the wrapped handler, once, in
        every branch. */
    method Handle(record: LogRecord, ctx: ExecutionLogContext, reinject: bool)
      modifies record, wrapped
      requires reinject && !Managed(record.attrs, ManagedKey) ==> KeysAttrIsSet(record.attrs, ExtraKeysKey)
      ensures record.attrs == HandleSpec(old(record.attrs), ctx.current.entries, reinject)
      ensures wrapped.handled == old(wrapped.handled) + [record]
    {
      if reinject {
        if !Managed(record.attrs, ManagedKey) {
          Inject(record, ctx.Get().entries, ManagedKey, ExtraKeysKey);
        }
      }
      wrapped.Handle(record);
    }
  }

  /** The same record handled twice reaches the wrapped handler twice but
      receives the context once. */
  method HandleTwiceScenario(h: ContextReinjectHandlerWrapper, record: LogRecord, ctx: ExecutionLogContext)
    modifies record, h.wrapped
    requires !Managed(record.attrs, ManagedKey) ==> KeysAttrIsSet(record.attrs, ExtraKeysKey)
    ensures record.attrs == HandleSpec(old(record.attrs), ctx.current.entries, true)
    ensures h.wrapped.handled == old(h.wrapped.handled) + [record, record]
  {
    h.Handle(record, ctx, true);
    if !Managed(old(record.attrs), ManagedKey) {
      InjectedIsManaged(old(record.attrs), ctx.current.entries, ManagedKey, ExtraKeysKey);
    }
    h.Handle(record, ctx, true);
  }
}

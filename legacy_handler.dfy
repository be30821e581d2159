/** `ContextReinjectHandlerWrapper` of `standard_structlog/handler.py`: the
    older wrapper, which always reinjects the context of the older
    `ExecutionContext` into a record that is not yet managed and keeps the
    key set under `_daiquiri_extra_keys`. */
module LegacyHandler {
  import opened PyValue
  import opened Records
  import opened LegacyContext
  import opened Reinject

  /** The managed flag of `standard_structlog.base`, which is not part of
      this model; any name other than the key-set attribute will do. */
  const LegacyManagedKey: string := "_standard_structlog_managed"

  const DaiquiriExtraKeys: string := "_daiquiri_extra_keys"

  /** The record attributes after `handle`. */
  function LegacyHandleSpec(attrs: map<string, Value>, context: map<string, Value>): map<string, Value> {
    if !Managed(attrs, LegacyManagedKey) then Injected(attrs, context, LegacyManagedKey, DaiquiriExtraKeys) else attrs
  }

  /** A managed record is unchanged; any other gets every context pair and
      `managed = True`, and `_daiquiri_extra_keys` grows by exactly their
      names. */
  lemma LegacyHandleEffect(attrs: map<string, Value>, context: map<string, Value>)
    ensures Managed(attrs, LegacyManagedKey) ==> LegacyHandleSpec(attrs, context) == attrs
    ensures !Managed(attrs, LegacyManagedKey) ==>
              var r := LegacyHandleSpec(attrs, context);
              && r[LegacyManagedKey] == Bool(true)
              && (forall k | k in context && k != LegacyManagedKey && k != DaiquiriExtraKeys :: r[k] == context[k])
              && (forall k | k in attrs && k !in context && k != LegacyManagedKey && k != DaiquiriExtraKeys ::
                    r[k] == attrs[k])
              && (forall e :: e in r[DaiquiriExtraKeys].elems <==>
                    e in KeysBefore(attrs, DaiquiriExtraKeys) || e == Str(LegacyManagedKey) || (e.Str? && e.s in context))
  {
    if !Managed(attrs, LegacyManagedKey) {
      InjectedShape(attrs, context, LegacyManagedKey, DaiquiriExtraKeys);
    }
  }

  /** Handling a record twice injects the context at most once. */
  lemma {:induction false} LegacyHandleTwice(attrs: map<string, Value>, context: map<string, Value>,
                                             later: map<string, Value>)
    ensures var once := LegacyHandleSpec(attrs, context);
            LegacyHandleSpec(once, later) == once
  {
    if !Managed(attrs, LegacyManagedKey) {
      InjectedIsManaged(attrs, context, LegacyManagedKey, DaiquiriExtraKeys);
    }
  }

  class ContextReinjectHandlerWrapper {
    const wrapped: Handler

    constructor (wrapped: Handler)
      ensures this.wrapped == wrapped
    {
      this.wrapped := wrapped;
    }

    /** `handle`: injects the context into a record that is not managed,
        then hands the record to the wrapped handler, once, in both
        branches. */
    method Handle(record: LogRecord, ctx: ExecutionContext)
      modifies record, wrapped
      requires !Managed(record.attrs, LegacyManagedKey) ==> KeysAttrIsSet(record.attrs, DaiquiriExtraKeys)
      ensures record.attrs == LegacyHandleSpec(old(record.attrs), ctx.current.entries)
      ensures wrapped.handled == old(wrapped.handled) + [record]
    {
      if !Managed(record.attrs, LegacyManagedKey) {
        Inject(record, ctx.Get().entries, LegacyManagedKey, DaiquiriExtraKeys);
      }
      wrapped.Handle(record);
    }
  }
}

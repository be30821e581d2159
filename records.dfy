/** The mutable Python objects that the core passes around by reference. */
module Records {
  import opened PyValue

  /** A `dict[str, Any]` object. Several holders may reference the same one,
      so a change made through one reference is seen through all of them. */
  class Dict {
    var entries: map<string, Value>

    constructor (entries: map<string, Value>)
      ensures this.entries == entries
    {
      this.entries := entries;
    }
  }

  /** A `logging.LogRecord`, seen through its attribute dictionary
      (`vars(record)`); `setattr`, `getattr` and `hasattr` act on `attrs`. */
  class LogRecord {
    var attrs: map<string, Value>

    constructor (attrs: map<string, Value>)
      ensures this.attrs == attrs
    {
      this.attrs := attrs;
    }
  }

  /** A wrapped `logging.Handler`. What it does with a record (formatting,
      writing) is outside the core; the model keeps the records it was asked
      to handle, in order. */
  class Handler {
    var handled: seq<LogRecord>

    constructor ()
      ensures handled == []
    {
      handled := [];
    }

    method Handle(record: LogRecord)
      modifies this
      ensures handled == old(handled) + [record]
    {
      handled := handled + [record];
    }
  }
}

/** The older execution context of `standard_structlog/context.py`. It
    differs from `Context` in one respect: `remove` pops the keys out of the
    current mapping object in place instead of installing a new one, so every
    holder of that object sees the removal. */
module LegacyContext {
  import opened PyValue
  import opened Records
  import opened Context

  /** The context variable of one execution unit. */
  class ExecutionContext {
    /** The mapping the variable currently holds. */
    var current: Dict

    /** The variable's default value: an empty mapping. */
    constructor ()
      ensures fresh(current) && current.entries == map[]
    {
      current := new Dict(map[]);
    }

    /** `reset_context`. */
    method ResetContext()
      modifies this
      ensures fresh(current) && current.entries == map[]
    {
      current := new Dict(map[]);
    }

    /** `_add`: installs a new mapping and returns the token of that `set`. */
    method AddWithToken(kv: map<string, Value>) returns (token: Token)
      modifies this
      ensures fresh(current) && current.entries == Overlay(old(current.entries), kv)
      ensures token.saved == old(current)
    {
      token := Token(current);
      current := new Dict(Overlay(current.entries, kv));
    }

    /** `add`. */
    method Add(kv: map<string, Value>)
      modifies this
      ensures fresh(current) && current.entries == Overlay(old(current.entries), kv)
    {
      var _ := AddWithToken(kv);
    }

    /** `remove`: pops each key from the current mapping object, skipping
        the ones that are absent; the variable keeps the same object. */
    method Remove(keys: seq<string>)
      modifies current
      ensures current.entries == RemoveKeys(old(current.entries), keys)
    {
      var d := current;
      for i := 0 to |keys|
        invariant d.entries == RemoveKeys(old(d.entries), keys[..i])
      {
        if keys[i] in d.entries {
          d.entries := d.entries - {keys[i]};
        }
        assert keys[..i + 1] == keys[..i] + [keys[i]];
      }
      assert keys[..|keys|] == keys;
    }

    /** `get`: the live mapping object, not a copy. */
    function Get(): (d: Dict)
      reads this
      ensures d == current
    {
      current
    }

    /** `ContextVar.reset(token)`. */
    method ResetToken(token: Token)
      modifies this
      ensures current == token.saved
    {
      current := token.saved;
    }

    /** `with bind(**kv): <body>`: whatever the block does, and whether or not
        it raises, the variable holds the very mapping object it held before,
        with the same contents: the block only ever pops from mappings it
        installed itself. */
    method Bind(kv: map<string, Value>, body: seq<Op>) returns (raised: bool)
      modifies this
      ensures current == old(current) && current.entries == old(current.entries)
      ensures raised == RunSpec(Overlay(old(current.entries), kv), body).1
      decreases OpsSize(body) + 1, 0
    {
      var token := AddWithToken(kv);
      // try:
      raised := Run(body);
      // finally:
      ResetToken(token);
    }

    /** Runs a block step by step; stops at the first exception. The only
        existing object it may change is the mapping current on entry. */
    method Run(ops: seq<Op>) returns (raised: bool)
      modifies this, current
      ensures (current.entries, raised) == RunSpec(old(current.entries), ops)
      ensures current == old(current) || fresh(current)
      decreases OpsSize(ops), 1
    {
      if ops == [] {
        return false;
      }
      match ops[0] {
        case Raise =>
          return true;
        case Add(kv) =>
          Add(kv);
        case Remove(keys) =>
          Remove(keys);
        case Reset =>
          ResetContext();
        case Bind(kv, body) =>
          raised := Bind(kv, body);
          if raised {
            return true;
          }
      }
      raised := Run(ops[1..]);
    }
  }

  /** A mapping obtained from `get` sees a later `remove`: it is the same
      object the variable still holds. */
  method SnapshotSeesRemoval(ctx: ExecutionContext, keys: seq<string>) returns (snapshot: Dict)
    modifies ctx.current
    ensures snapshot == ctx.current == old(ctx.current)
    ensures snapshot.entries == RemoveKeys(old(ctx.current.entries), keys)
  {
    snapshot := ctx.Get();
    ctx.Remove(keys);
  }
}

/** The execution log context of `stlog/context.py`: one context variable per
    execution unit holding the current key/value mapping. Every change
    installs a new mapping object, so a mapping handed out earlier never
    changes (copy on write). */
module Context {
  import opened PyValue
  import opened Records

  /** A `contextvars.Token`: the mapping the variable held before the `set`
      that produced it. */
  datatype Token = Token(saved: Dict)

  /** One step of the block run under `with bind(...)`: the context
      operations a caller may perform there, including a nested `bind`, and
      `Raise`, an exception leaving the block. */
  datatype Op =
    | Add(kv: map<string, Value>)
    | Remove(keys: seq<string>)
    | Reset
    | Bind(kv: map<string, Value>, body: seq<Op>)
    | Raise

  function OpsSize(ops: seq<Op>): nat {
    if ops == [] then 0
    else (match ops[0] case Bind(_, body) => 1 + OpsSize(body) case _ => 1) + OpsSize(ops[1..])
  }

  /** `{**prev, **kv}`: the new pairs win, every other key keeps its value. */
  function Overlay(prev: map<string, Value>, kv: map<string, Value>): (r: map<string, Value>)
    ensures r.Keys == prev.Keys + kv.Keys
    ensures forall k | k in kv :: r[k] == kv[k]
    ensures forall k | k in prev && k !in kv :: r[k] == prev[k]
  {
    prev + kv
  }

  /** `{k: v for k, v in prev.items() if k not in keys}`: exactly the named
      keys are gone (absent ones are ignored), the rest is unchanged. */
  function RemoveKeys(prev: map<string, Value>, keys: seq<string>): (r: map<string, Value>)
    ensures r.Keys == prev.Keys - set k | k in keys
    ensures forall k | k in r :: r[k] == prev[k]
  {
    map k | k in prev && k !in keys :: prev[k]
  }

  /** What a block does to the mapping's contents, and whether it raised.
      Steps after an exception are not run; a `bind` step restores the
      mapping it started from, whether its own block raised or not, and
      lets the exception through. */
  function RunSpec(m: map<string, Value>, ops: seq<Op>): (map<string, Value>, bool)
    decreases OpsSize(ops)
  {
    if ops == [] then (m, false)
    else match ops[0]
      case Raise => (m, true)
      case Add(kv) => RunSpec(Overlay(m, kv), ops[1..])
      case Remove(keys) => RunSpec(RemoveKeys(m, keys), ops[1..])
      case Reset => RunSpec(map[], ops[1..])
      case Bind(kv, body) =>
        if RunSpec(Overlay(m, kv), body).1 then (m, true) else RunSpec(m, ops[1..])
  }

  /** A block is run to its end unless one of its top-level steps, or the
      block of one of its `bind` steps, raises. */
  lemma {:induction false} RunSpecRaises(m: map<string, Value>, ops: seq<Op>)
    ensures !RunSpec(m, ops).1 <==> forall i | 0 <= i < |ops| :: !ops[i].Raise? && (ops[i].Bind? ==> !RunSpec(Overlay(RunSpec(m, ops[..i]).0, ops[i].kv), ops[i].body).1)
    decreases OpsSize(ops)
  {
    if ops != [] {
      var m1 := match ops[0]
        case Add(kv) => Overlay(m, kv)
        case Remove(keys) => RemoveKeys(m, keys)
        case Reset => map[]
        case _ => m;
      assert ops[..1] == [ops[0]];
      if !ops[0].Raise? && (ops[0].Bind? ==> !RunSpec(Overlay(m, ops[0].kv), ops[0].body).1) {
        assert RunSpec(m, [ops[0]]).0 == m1 by {
          assert [ops[0]][1..] == [];
        }
        RunSpecRaises(m1, ops[1..]);
        forall i | 1 <= i < |ops| ensures RunSpec(m, ops[..i]).0 == RunSpec(m1, ops[1..][..i - 1]).0 {
          assert ops[..i][0] == ops[0] && ops[..i][1..] == ops[1..][..i - 1];
        }
        forall i | 1 <= i < |ops| ensures ops[i] == ops[1..][i - 1] { }
      }
      assert ops[..0] == [];
    }
  }

  /** The context variable of one execution unit. */
  class ExecutionLogContext {
    /** The mapping the variable currently holds. */
    var current: Dict

    /** The variable's default value: an empty mapping. */
    constructor ()
      ensures fresh(current) && current.entries == map[]
    {
      current := new Dict(map[]);
    }

    /** `ExecutionLogContext()`: the class is static and refuses to be
        instantiated. This records the source's refusal as it is written;
        it is not a derived property. The constructor above is not that
        call: it stands for the module-level variable's initial value. */
    static method Instantiate() returns (r: Outcome)
      ensures r == Fail(TypeError)
    {
      r := Fail(TypeError);
    }

    /** `reset_context`. */
    method ResetContext()
      modifies this
      ensures fresh(current) && current.entries == map[]
    {
      current := new Dict(map[]);
    }

    /** `_add`: installs a new mapping and returns the token of that `set`. */
    method AddWithToken(kv: map<string, Value>) returns (token: Token)
      modifies this
      ensures fresh(current) && current.entries == Overlay(old(current.entries), kv)
      ensures token.saved == old(current)
    {
      token := Token(current);
      current := new Dict(Overlay(current.entries, kv));
    }

    /** `add`. */
    method Add(kv: map<string, Value>)
      modifies this
      ensures fresh(current) && current.entries == Overlay(old(current.entries), kv)
    {
      var _ := AddWithToken(kv);
    }

    /** `remove`. */
    method Remove(keys: seq<string>)
      modifies this
      ensures fresh(current) && current.entries == RemoveKeys(old(current.entries), keys)
    {
      current := new Dict(RemoveKeys(current.entries, keys));
    }

    /** `_get`: the mapping object itself, not a copy. */
    function Get(): (d: Dict)
      reads this
      ensures d == current
    {
      current
    }

    /** `ContextVar.reset(token)`. */
    method ResetToken(token: Token)
      modifies this
      ensures current == token.saved
    {
      current := token.saved;
    }

    /** `with bind(**kv): <body>`: whatever the block does, and whether or not
        it raises, the variable holds the very mapping object it held before,
        with the same contents. A nested `bind` therefore restores the
        mapping of the enclosing one. */
    method Bind(kv: map<string, Value>, body: seq<Op>) returns (raised: bool)
      modifies this
      ensures current == old(current) && current.entries == old(current.entries)
      ensures raised == RunSpec(Overlay(old(current.entries), kv), body).1
      decreases OpsSize(body) + 1, 0
    {
      var token := AddWithToken(kv);
      // try:
      raised := Run(body);
      // finally:
      ResetToken(token);
    }

    /** Runs a block step by step; stops at the first exception. */
    method Run(ops: seq<Op>) returns (raised: bool)
      modifies this
      ensures (current.entries, raised) == RunSpec(old(current.entries), ops)
      decreases OpsSize(ops), 1
    {
      if ops == [] {
        return false;
      }
      match ops[0] {
        case Raise =>
          return true;
        case Add(kv) =>
          Add(kv);
        case Remove(keys) =>
          Remove(keys);
        case Reset =>
          ResetContext();
        case Bind(kv, body) =>
          raised := Bind(kv, body);
          if raised {
            return true;
          }
      }
      raised := Run(ops[1..]);
    }
  }

  /** A mapping obtained from `_get` keeps its contents through later
      `add`, `remove` and `reset_context` calls. */
  method SnapshotIsStable(ctx: ExecutionLogContext, kv: map<string, Value>, keys: seq<string>)
      returns (snapshot: Dict)
    modifies ctx
    ensures snapshot == old(ctx.current) && snapshot.entries == old(ctx.current.entries)
    ensures ctx.current.entries == map[]
  {
    snapshot := ctx.Get();
    ctx.Add(kv);
    ctx.Remove(keys);
    ctx.ResetContext();
  }
}

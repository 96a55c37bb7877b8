/** The managed side of the bridge, seen from the native side: the calls the
    bridge can make into its Host API, the out-parameters the managed side
    writes back, and a log of every call made so far (src/runtime.rs, the
    `RuntimeLibrary` function table). */
module Host {
  import opened Outcomes
  import opened Errors

  /** An opaque native pointer; `Null` is the null pointer. */
  datatype Ptr = Null | Addr(id: nat)

  /** One call into the Host API with the arguments the bridge passes. A string
      argument is the whole buffer the bridge hands over, terminator included;
      the managed side reads it only up to its first NUL. */
  datatype Call =
    | Ping
    | Destroy(target: Ptr)
    | Free(buffer: Ptr)
    | CreateScope
    | Unload(scope: Ptr)
    | LoadFromPath(scope: Ptr, path: string)
    | GetClass(assembly: Ptr, name: string)
    | New(cls: Ptr)
    | IsAssignableFrom(base: Ptr, target: Ptr)
    | GetMethod(cls: Ptr, name: string, arity: int32)
    | GetMetaData(cls: Ptr)
    | SetFieldValue(instance: Ptr, name: string, value: Ptr)
    | GetFieldValue(instance: Ptr, name: string)
    | SetPropertyValue(instance: Ptr, name: string, value: Ptr)
    | GetPropertyValue(instance: Ptr, name: string)
    | RuntimeInvoke(member: Ptr, instance: Ptr, args: seq<Ptr>)

  /** What a call writes back. `out` is the pointer out-parameter, `err` the
      status out-parameter and `flag` the integer out-parameter of `Ping` and
      `IsAssignableFrom`; `None` means the managed side left it as the bridge
      initialised it. `payload` is the NUL-terminated text `out` points to when
      the call returns a buffer. */
  datatype Reply = Reply(out: Option<Ptr>, err: Option<int32>, flag: Option<int>, payload: string)

  /** The managed side, as an oracle: its reply to a call, given every call made
      before it. The reply may depend on the whole history, so fresh handles,
      scopes that were unloaded and objects that were destroyed can all be
      answered for. */
  type Oracle = (seq<Call>, Call) -> Reply

  /** How often `c` occurs in `trace`; with `c` a `Destroy` or `Unload` of one
      handle, this is the release counter of that handle. */
  function Count(trace: seq<Call>, c: Call): nat {
    if trace == [] then 0
    else Count(trace[..|trace| - 1], c) + (if trace[|trace| - 1] == c then 1 else 0)
  }

  lemma {:induction false} CountAppend(a: seq<Call>, b: seq<Call>, c: Call)
    ensures Count(a + b, c) == Count(a, c) + Count(b, c)
    decreases |b|
  {
    if b == [] {
      assert a + b == a;
    } else {
      var b' := b[..|b| - 1];
      assert (a + b)[..|a + b| - 1] == a + b';
      assert (a + b)[|a + b| - 1] == b[|b| - 1];
      CountAppend(a, b', c);
    }
  }

  /** `RuntimeLibrary`: the resolved function table, and through it the managed
      side. `trace` records every call the bridge has made, in order. */
  class Library {
    const host: Oracle
    var trace: seq<Call>

    constructor (host: Oracle)
      ensures this.host == host && trace == []
    {
      this.host := host;
      trace := [];
    }
  }
}

/** The calling convention of the bridge (src/runtime.rs, `RuntimeLibrary` and
    `Object`): handle wrappers and their release on drop, the status check,
    NUL termination of names, result buffers, and argument passing. Each host
    call is a function from the history of calls made so far to the extended
    history and the value the bridge returns. */
module Protocol {
  import opened Outcomes
  import opened Errors
  import opened Text
  import opened Host

  // ---------------------------------------------------------------------------
  // Handle wrappers

  /** A load context. It holds whatever pointer `CreateScope` wrote, null
      included; dropping it unloads it. */
  datatype Scope = Scope(handle: Ptr)

  /** A loaded module. It is never released on its own: its memory goes with
      the scope that loaded it, so it has no drop. */
  datatype Assembly = Assembly(handle: Ptr)

  /** A type descriptor; dropping it destroys the handle. */
  datatype Class = Class(handle: Ptr)

  /** A resolved method; the last drop of the shared handle destroys it. */
  datatype Method = Method(handle: Ptr)

  /** An instance; dropping it destroys the handle. */
  datatype Object = Object(handle: Ptr)

  /** `Drop for Scope`: the log gains one `Unload` of the handle, whose status
      is ignored. */
  function DropScope(trace: seq<Call>, s: Scope): seq<Call>
  {
    trace + [Call.Unload(s.handle)]
  }

  /** `Drop for Class`: the log gains one `Destroy` of the handle. */
  function DropClass(trace: seq<Call>, c: Class): seq<Call>
  {
    trace + [Call.Destroy(c.handle)]
  }

  /** `Drop for Method`: the log gains one `Destroy` of the handle. */
  function DropMethod(trace: seq<Call>, m: Method): seq<Call>
  {
    trace + [Call.Destroy(m.handle)]
  }

  /** `Drop for Object`: the log gains one `Destroy` of the handle. */
  function DropObject(trace: seq<Call>, o: Object): seq<Call>
  {
    trace + [Call.Destroy(o.handle)]
  }

  lemma CountExtension(trace: seq<Call>, last: Call, c: Call)
    ensures Count(trace + [last], c) == Count(trace, c) + (if last == c then 1 else 0)
  {
    assert (trace + [last])[..|trace|] == trace;
  }

  /** Dropping a scope unloads its handle exactly once and makes no other
      call of any kind. */
  lemma ScopeDropUnloadsOnce(trace: seq<Call>, s: Scope, other: Call)
    ensures Count(DropScope(trace, s), other) == Count(trace, other) + (if other == Call.Unload(s.handle) then 1 else 0)
  {
    CountExtension(trace, Call.Unload(s.handle), other);
  }

  /** Dropping a class destroys its handle exactly once, and nothing else. */
  lemma ClassDropDestroysOnce(trace: seq<Call>, c: Class, other: Call)
    ensures Count(DropClass(trace, c), other) == Count(trace, other) + (if other == Call.Destroy(c.handle) then 1 else 0)
  {
    CountExtension(trace, Call.Destroy(c.handle), other);
  }

  /** Dropping a method destroys its handle exactly once, and nothing else. */
  lemma MethodDropDestroysOnce(trace: seq<Call>, m: Method, other: Call)
    ensures Count(DropMethod(trace, m), other) == Count(trace, other) + (if other == Call.Destroy(m.handle) then 1 else 0)
  {
    CountExtension(trace, Call.Destroy(m.handle), other);
  }

  /** Dropping an object destroys its handle exactly once, and nothing else. */
  lemma ObjectDropDestroysOnce(trace: seq<Call>, o: Object, other: Call)
    ensures Count(DropObject(trace, o), other) == Count(trace, other) + (if other == Call.Destroy(o.handle) then 1 else 0)
  {
    CountExtension(trace, Call.Destroy(o.handle), other);
  }

  // ---------------------------------------------------------------------------
  // Metadata and decoding

  /** A field as the metadata JSON describes it; attributes are kept as their
      JSON text. */
  datatype Field = Field(name: string, isStatic: bool, customAttributes: seq<string>)

  datatype Property = Property(
    name: string, isStatic: bool, customAttributes: seq<string>, canRead: bool, canWrite: bool)

  datatype MetaData = MetaData(fields: seq<Field>, properties: seq<Property>)

  /** `MetaData::default()`: no fields and no properties. */
  function DefaultMetaData(): MetaData {
    MetaData([], [])
  }

  /** What `serde_json::from_str` makes of a payload: a value or an error. */
  datatype Decoded<+A> = Decoded(value: A) | Malformed(reason: string)

  /** A host interaction: the call history afterwards and the bridge's result. */
  datatype Step<+T> = Step(trace: seq<Call>, result: T)

  // ---------------------------------------------------------------------------
  // Status protocol

  /** The status the bridge reads: `err` starts at -1 and keeps that value if
      the managed side does not write it. */
  function Status(r: Reply): int32 {
    r.err.GetOr(-1)
  }

  /** The pointer the bridge reads: it starts out null. */
  function Out(r: Reply): Ptr {
    r.out.GetOr(Null)
  }

  /** `if err > 0 { return Err(Error::from(err)); }`: only a positive status is
      an error, so 0 and the untouched -1 are both success; the error is never
      a native `Io` or `Json` one. */
  function Check(err: int32): (r: Result<()>)
    ensures r.Ok? <==> err <= 0
    ensures r.Err? ==> StatusOf(r.error) == (if err <= 11 then Some(err) else None)
    ensures r.Err? ==> !r.error.Io? && !r.error.Json?
  {
    if err > 0 then Err(FromStatus(err)) else Ok(())
  }

  /** A reply whose status the managed side did not write is a success. */
  lemma UnwrittenStatusIsSuccess(r: Reply)
    requires r.err.None?
    ensures Check(Status(r)) == Ok(())
  {
  }

  /** Status check, then the null check of the out pointer. */
  function Fetch(r: Reply): (res: Result<Option<Ptr>>)
    ensures res.Err? <==> Status(r) > 0
    ensures res.Err? ==> res.error == FromStatus(Status(r))
    ensures res == Ok(None) <==> Status(r) <= 0 && Out(r) == Null
    ensures res.Ok? && res.value.Some? ==> res.value.value == Out(r) != Null
  {
    if Status(r) > 0 then Err(FromStatus(Status(r)))
    else if Out(r) == Null then Ok(None)
    else Ok(Some(Out(r)))
  }

  // ---------------------------------------------------------------------------
  // Names and paths

  /** The text the managed side reads from a buffer: everything before the first
      NUL (all of it if there is none). */
  function CStr(buffer: string): (r: string)
    ensures StartsWith(buffer, r) && '\0' !in r
    ensures '\0' in buffer ==> |r| < |buffer| && buffer[|r|] == '\0'
    ensures '\0' !in buffer ==> r == buffer
  {
    match IndexOf(buffer, '\0')
    case Some(i) => buffer[..i]
    case None => buffer
  }

  /** The terminator rule of `load_from_path` and of the `Object` field and
      property calls: append a NUL unless `s` already ends with one. */
  function TerminateEnd(s: string): (r: string)
    ensures EndsWith(r, "\0")
    ensures r == s || r == s + "\0"
    ensures EndsWith(s, "\0") <==> r == s
  {
    if EndsWith(s, "\0") then s else s + "\0"
  }

  /** The terminator rule of `get_class` and `get_method`: append a NUL unless `s`
      STARTS with one. */
  function TerminateUnlessStarts(s: string): (r: string)
    ensures '\0' in r
    ensures r == s || r == s + "\0"
    ensures StartsWith(s, "\0") <==> r == s
  {
    if StartsWith(s, "\0") then s else s + "\0"
  }

  /** Appending is idempotent under the ends-with rule. */
  lemma TerminateEndIdempotent(s: string)
    ensures TerminateEnd(TerminateEnd(s)) == TerminateEnd(s)
  {
  }

  /** It is not under the starts-with rule: a non-empty name gains a second
      NUL each time the rule is applied. */
  lemma TerminateUnlessStartsNotIdempotent(s: string)
    requires s != [] && !StartsWith(s, "\0")
    ensures TerminateUnlessStarts(TerminateUnlessStarts(s)) == s + "\0\0"
  {
    var once := s + "\0";
    assert once[..1] == s[..1];
    assert once + "\0" == s + "\0\0";
  }

  lemma CStrOfExtension(a: string, b: string)
    requires '\0' in a
    ensures CStr(a + b) == CStr(a)
  {
    var j := IndexOf(a, '\0').value;
    assert (a + b)[..j] == a[..j];
    assert (a + b)[j] == '\0';
  }

  lemma CStrOfTerminated(s: string)
    requires '\0' !in s
    ensures CStr(s + "\0") == s
  {
    var buffer := s + "\0";
    assert buffer[..|s|] == s;
    assert buffer[|s|] == '\0';
  }

  /** Despite the two rules, the managed side always reads the same name: both
      buffers hold a NUL, and the text before the first one is the same. For a
      name without NUL it is the name itself. */
  lemma BothRulesDeliverTheSameName(s: string)
    ensures '\0' in TerminateEnd(s) && '\0' in TerminateUnlessStarts(s)
    ensures CStr(TerminateEnd(s)) == CStr(TerminateUnlessStarts(s))
    ensures '\0' !in s ==> CStr(TerminateEnd(s)) == s
  {
    assert EndsWith(TerminateEnd(s), "\0");
    assert TerminateEnd(s)[|TerminateEnd(s)| - 1] == '\0';
    if '\0' in s {
      CStrOfExtension(s, "\0");
      assert CStr(TerminateEnd(s)) == CStr(s);
      assert CStr(TerminateUnlessStarts(s)) == CStr(s);
    } else {
      CStrOfTerminated(s);
    }
  }

  // ---------------------------------------------------------------------------
  // Argument passing

  /** One argument: a reference to a caller-owned value (`&A`), passed by its
      address, or an `Object` passed by value. */
  datatype Param = Borrowed(address: Ptr) | Owned(obj: Object)

  /** `()`, a single argument, or a pair. */
  datatype Params = NoArgs | OneArg(first: Param) | TwoArgs(first: Param, second: Param)

  function Arity(ps: Params): nat {
    match ps
    case NoArgs => 0
    case OneArg(_) => 1
    case TwoArgs(_, _) => 2
  }

  /** The arguments, in order. */
  function Args(ps: Params): (args: seq<Param>)
    ensures |args| == Arity(ps)
  {
    match ps
    case NoArgs => []
    case OneArg(a) => [a]
    case TwoArgs(a, b) => [a, b]
  }

  /** The pointer an argument is passed as. */
  function PassedAs(p: Param): Ptr {
    match p
    case Borrowed(address) => address
    case Owned(obj) => obj.handle
  }

  /** The pointers of the arguments, in argument order. */
  function Pointers(args: seq<Param>): (ptrs: seq<Ptr>)
    ensures |ptrs| == |args|
    ensures forall i :: 0 <= i < |args| ==> ptrs[i] == PassedAs(args[i])
  {
    if args == [] then [] else [PassedAs(args[0])] + Pointers(args[1..])
  }

  /** The releases that passing the arguments makes: one `Destroy` for each
      `Object` taken by value, in argument order, and nothing for a reference. */
  function Releases(args: seq<Param>): (calls: seq<Call>)
    ensures forall i :: 0 <= i < |calls| ==> calls[i].Destroy?
  {
    if args == [] then []
    else (if args[0].Owned? then [Call.Destroy(args[0].obj.handle)] else []) + Releases(args[1..])
  }

  /** `ManagedParam::into_managed_param`. An `Object` taken by value is dropped
      when the conversion returns, so its handle is destroyed before the call
      that receives the pointer. */
  function ConvertParam(trace: seq<Call>, p: Param): (s: Step<Ptr>)
    ensures s == Step(trace + Releases([p]), PassedAs(p))
  {
    assert [p][1..] == [];
    match p
    case Borrowed(address) => Step(trace, address)
    case Owned(obj) => Step(DropObject(trace, obj), obj.handle)
  }

  /** `ManagedParams::into_managed_params`: the pointers of the arguments in
      argument order, after exactly the releases of the arguments taken by
      value; a reference is never released. */
  function ConvertParams(trace: seq<Call>, ps: Params): (s: Step<seq<Ptr>>)
    ensures s.result == Pointers(Args(ps))
    ensures s.trace == trace + Releases(Args(ps))
  {
    match ps
    case NoArgs => Step(trace, [])
    case OneArg(a) =>
      var first := ConvertParam(trace, a);
      Step(first.trace, [first.result])
    case TwoArgs(a, b) =>
      var first := ConvertParam(trace, a);
      var second := ConvertParam(first.trace, b);
      assert [a, b][1..] == [b];
      Step(second.trace, [first.result, second.result])
  }

  // ---------------------------------------------------------------------------
  // Host calls

  /** `ping`: alive exactly when the managed side wrote 1 (the out value starts
      at 0). */
  function Ping(host: Oracle, trace: seq<Call>): (s: Step<bool>)
    ensures s.trace == trace + [Call.Ping]
    ensures s.result <==> host(trace, Call.Ping).flag == Some(1)
  {
    Step(trace + [Call.Ping], host(trace, Call.Ping).flag.GetOr(0) == 1)
  }

  /** `free`: hands a result buffer back; the reply is ignored. */
  function FreeBuffer(trace: seq<Call>, buffer: Ptr): seq<Call>
  {
    trace + [Call.Free(buffer)]
  }

  /** `create_scope`: the scope wraps whatever pointer was written, unchecked. */
  function CreateScope(host: Oracle, trace: seq<Call>): (s: Step<Scope>)
    ensures s.trace == trace + [Call.CreateScope]
    ensures s.result.handle == Out(host(trace, Call.CreateScope))
  {
    Step(trace + [Call.CreateScope], Scope(Out(host(trace, Call.CreateScope))))
  }

  /** `load_from_path`: the path is terminated unless it ends with a NUL; a
      positive status is an error, a null assembly is `None`. */
  function LoadFromPath(host: Oracle, trace: seq<Call>, scope: Scope, path: string)
    : (s: Step<Result<Option<Assembly>>>)
    ensures s.trace == trace + [Call.LoadFromPath(scope.handle, TerminateEnd(path))]
    ensures var f := Fetch(host(trace, s.trace[|trace|]));
      && (s.result.Err? <==> f.Err?)
      && (f.Err? ==> s.result.error == f.error)
      && (f.Ok? ==> s.result.value == if f.value.None? then None else Some(Assembly(f.value.value)))
  {
    var c := Call.LoadFromPath(scope.handle, TerminateEnd(path));
    var t := trace + [c];
    match Fetch(host(trace, c))
    case Err(e) => Step(t, Err(e))
    case Ok(None) => Step(t, Ok(None))
    case Ok(Some(p)) => Step(t, Ok(Some(Assembly(p))))
  }

  /** `get_class`: the name is terminated unless it starts with a NUL. */
  function GetClass(host: Oracle, trace: seq<Call>, assembly: Assembly, name: string)
    : (s: Step<Result<Option<Class>>>)
    ensures s.trace == trace + [Call.GetClass(assembly.handle, TerminateUnlessStarts(name))]
    ensures var f := Fetch(host(trace, s.trace[|trace|]));
      && (s.result.Err? <==> f.Err?)
      && (f.Err? ==> s.result.error == f.error)
      && (f.Ok? ==> s.result.value == if f.value.None? then None else Some(Class(f.value.value)))
  {
    var c := Call.GetClass(assembly.handle, TerminateUnlessStarts(name));
    var t := trace + [c];
    match Fetch(host(trace, c))
    case Err(e) => Step(t, Err(e))
    case Ok(None) => Step(t, Ok(None))
    case Ok(Some(p)) => Step(t, Ok(Some(Class(p))))
  }

  /** `new_object`. */
  function NewObject(host: Oracle, trace: seq<Call>, cls: Class): (s: Step<Result<Option<Object>>>)
    ensures s.trace == trace + [Call.New(cls.handle)]
    ensures var f := Fetch(host(trace, Call.New(cls.handle)));
      && (s.result.Err? <==> f.Err?)
      && (f.Err? ==> s.result.error == f.error)
      && (f.Ok? ==> s.result.value == if f.value.None? then None else Some(Object(f.value.value)))
  {
    var c := Call.New(cls.handle);
    var t := trace + [c];
    match Fetch(host(trace, c))
    case Err(e) => Step(t, Err(e))
    case Ok(None) => Step(t, Ok(None))
    case Ok(Some(p)) => Step(t, Ok(Some(Object(p))))
  }

  /** `is_assignable_from`: after the status check, true exactly when the out
      value (which starts at 0) is 1. */
  function IsAssignableFrom(host: Oracle, trace: seq<Call>, base: Class, target: Class)
    : (s: Step<Result<bool>>)
    ensures s.trace == trace + [Call.IsAssignableFrom(base.handle, target.handle)]
    ensures var r := host(trace, Call.IsAssignableFrom(base.handle, target.handle));
      && (s.result.Err? <==> Status(r) > 0)
      && (Status(r) > 0 ==> s.result == Err(FromStatus(Status(r))))
      && (s.result.Ok? ==> (s.result.value <==> r.flag == Some(1)))
  {
    var c := Call.IsAssignableFrom(base.handle, target.handle);
    var r := host(trace, c);
    Step(trace + [c], if Status(r) > 0 then Err(FromStatus(Status(r))) else Ok(r.flag.GetOr(0) == 1))
  }

  /** `RuntimeLibrary::get_method`: the name is terminated unless it starts
      with a NUL; a null method is `None`, a "not found" that is not an error. */
  function GetMethod(host: Oracle, trace: seq<Call>, cls: Class, name: string, arity: int32)
    : (s: Step<Result<Option<Method>>>)
    ensures s.trace == trace + [Call.GetMethod(cls.handle, TerminateUnlessStarts(name), arity)]
    ensures var f := Fetch(host(trace, s.trace[|trace|]));
      && (s.result.Err? <==> f.Err?)
      && (f.Err? ==> s.result.error == f.error)
      && (f.Ok? ==> s.result.value == if f.value.None? then None else Some(Method(f.value.value)))
  {
    var c := Call.GetMethod(cls.handle, TerminateUnlessStarts(name), arity);
    var t := trace + [c];
    match Fetch(host(trace, c))
    case Err(e) => Step(t, Err(e))
    case Ok(None) => Step(t, Ok(None))
    case Ok(Some(p)) => Step(t, Ok(Some(Method(p))))
  }

  /** The result buffer of a call that succeeded (`trace` already holds the
      call): a null buffer is `None`; otherwise the payload is decoded and then
      the buffer is freed, except that a decoding error returns before the
      free. */
  function ReadBuffer<A>(trace: seq<Call>, r: Reply, decode: string -> Decoded<A>)
    : Step<Result<Option<A>>>
  {
    if Out(r) == Null then Step(trace, Ok(None))
    else
      match decode(r.payload)
      case Malformed(reason) => Step(trace, Err(Json(reason)))
      case Decoded(v) => Step(FreeBuffer(trace, Out(r)), Ok(Some(v)))
  }

  /** `get_meta_data`: status check, then the buffer; a null buffer gives the
      default, empty metadata. */
  function GetMetaData(host: Oracle, trace: seq<Call>, cls: Class, decode: string -> Decoded<MetaData>)
    : (s: Step<Result<MetaData>>)
    ensures var c := Call.GetMetaData(cls.handle);
      var r := host(trace, c);
      && (Status(r) > 0 ==> s == Step(trace + [c], Err(FromStatus(Status(r)))))
      && (Status(r) <= 0 && Out(r) == Null ==> s == Step(trace + [c], Ok(DefaultMetaData())))
      && (Status(r) <= 0 && Out(r) != Null && decode(r.payload).Malformed? ==>
            s == Step(trace + [c], Err(Json(decode(r.payload).reason))))
      && (Status(r) <= 0 && Out(r) != Null && decode(r.payload).Decoded? ==>
            s == Step(trace + [c, Call.Free(Out(r))], Ok(decode(r.payload).value)))
  {
    var c := Call.GetMetaData(cls.handle);
    var r := host(trace, c);
    var t := trace + [c];
    if Status(r) > 0 then Step(t, Err(FromStatus(Status(r))))
    else
      var b := ReadBuffer(t, r, decode);
      match b.result
      case Err(e) => Step(b.trace, Err(e))
      case Ok(None) => Step(b.trace, Ok(DefaultMetaData()))
      case Ok(Some(m)) => Step(b.trace, Ok(m))
  }

  /** `RuntimeLibrary::invoke`: no instance means a null instance pointer, which
      selects static dispatch. */
  function Invoke(host: Oracle, trace: seq<Call>, m: Method, instance: Option<Object>, args: seq<Ptr>)
    : (s: Step<Result<()>>)
    ensures |s.trace| == |trace| + 1 && s.trace[..|trace|] == trace
    ensures var c := s.trace[|trace|];
      && c.RuntimeInvoke? && c.member == m.handle && c.args == args
      && c.instance == (if instance.None? then Null else instance.value.handle)
      && s.result == Check(Status(host(trace, c)))
  {
    var c := Call.RuntimeInvoke(m.handle, if instance.None? then Null else instance.value.handle, args);
    Step(trace + [c], Check(Status(host(trace, c))))
  }

  /** A method bound to the instance it was looked up for. */
  datatype Invokable = Invokable(instance: Object, target: Method)

  /** `Invokable::invoke`: the arguments are converted first (dropping any
      `Object` passed by value), then the method runs on the bound instance. */
  function InvokeBound(host: Oracle, trace: seq<Call>, inv: Invokable, ps: Params): Step<Result<()>>
  {
    var conv := ConvertParams(trace, ps);
    var c := Call.RuntimeInvoke(inv.target.handle, inv.instance.handle, conv.result);
    Step(conv.trace + [c], Check(Status(host(conv.trace, c))))
  }

  /** An `Object` passed by value as the only argument is destroyed right before
      the call that receives its pointer. */
  lemma OwnedArgumentReleasedBeforeCall(host: Oracle, trace: seq<Call>, inv: Invokable, o: Object)
    ensures InvokeBound(host, trace, inv, OneArg(Owned(o))).trace
      == trace + [Call.Destroy(o.handle), Call.RuntimeInvoke(inv.target.handle, inv.instance.handle, [o.handle])]
  {
  }

  /** `Object::set_field_value` (and the identical `RuntimeLibrary::set_field_value`). */
  function SetFieldValue(host: Oracle, trace: seq<Call>, obj: Object, name: string, value: Param)
    : Step<Result<()>>
  {
    var v := ConvertParam(trace, value);
    var c := Call.SetFieldValue(obj.handle, TerminateEnd(name), v.result);
    Step(v.trace + [c], Check(Status(host(v.trace, c))))
  }

  /** `Object::set_property_value`. */
  function SetPropertyValue(host: Oracle, trace: seq<Call>, obj: Object, name: string, value: Param)
    : Step<Result<()>>
  {
    var v := ConvertParam(trace, value);
    var c := Call.SetPropertyValue(obj.handle, TerminateEnd(name), v.result);
    Step(v.trace + [c], Check(Status(host(v.trace, c))))
  }

  /** `Object::get_field_value`: status check, then the result buffer. */
  function GetFieldValue<A>(host: Oracle, trace: seq<Call>, obj: Object, name: string, decode: string -> Decoded<A>)
    : Step<Result<Option<A>>>
  {
    var c := Call.GetFieldValue(obj.handle, TerminateEnd(name));
    var r := host(trace, c);
    if Status(r) > 0 then Step(trace + [c], Err(FromStatus(Status(r))))
    else ReadBuffer(trace + [c], r, decode)
  }

  /** `Object::get_property_value`. */
  function GetPropertyValue<A>(host: Oracle, trace: seq<Call>, obj: Object, name: string, decode: string -> Decoded<A>)
    : Step<Result<Option<A>>>
  {
    var c := Call.GetPropertyValue(obj.handle, TerminateEnd(name));
    var r := host(trace, c);
    if Status(r) > 0 then Step(trace + [c], Err(FromStatus(Status(r))))
    else ReadBuffer(trace + [c], r, decode)
  }

  /** The handle lookups all follow one protocol: one call, then a positive
      status is that error, a null out pointer is `None`, and anything else is
      a handle wrapping exactly the pointer written. */
  lemma LookupsFollowStatusProtocol(host: Oracle, trace: seq<Call>, scope: Scope, assembly: Assembly, cls: Class,
                                    path: string, name: string, arity: int32)
    ensures var s := LoadFromPath(host, trace, scope, path);
      var r := host(trace, Call.LoadFromPath(scope.handle, TerminateEnd(path)));
      && |s.trace| == |trace| + 1
      && (s.result.Err? <==> Status(r) > 0) && (s.result.Err? ==> s.result.error == FromStatus(Status(r)))
      && (s.result == Ok(None) <==> Status(r) <= 0 && Out(r) == Null)
      && (s.result.Ok? && s.result.value.Some? ==> s.result.value.value.handle == Out(r) != Null)
    ensures var s := GetClass(host, trace, assembly, name);
      var r := host(trace, Call.GetClass(assembly.handle, TerminateUnlessStarts(name)));
      && |s.trace| == |trace| + 1
      && (s.result.Err? <==> Status(r) > 0) && (s.result.Err? ==> s.result.error == FromStatus(Status(r)))
      && (s.result == Ok(None) <==> Status(r) <= 0 && Out(r) == Null)
      && (s.result.Ok? && s.result.value.Some? ==> s.result.value.value.handle == Out(r) != Null)
    ensures var s := NewObject(host, trace, cls);
      var r := host(trace, Call.New(cls.handle));
      && |s.trace| == |trace| + 1
      && (s.result.Err? <==> Status(r) > 0) && (s.result.Err? ==> s.result.error == FromStatus(Status(r)))
      && (s.result == Ok(None) <==> Status(r) <= 0 && Out(r) == Null)
      && (s.result.Ok? && s.result.value.Some? ==> s.result.value.value.handle == Out(r) != Null)
    ensures var s := GetMethod(host, trace, cls, name, arity);
      var r := host(trace, Call.GetMethod(cls.handle, TerminateUnlessStarts(name), arity));
      && |s.trace| == |trace| + 1
      && (s.result.Err? <==> Status(r) > 0) && (s.result.Err? ==> s.result.error == FromStatus(Status(r)))
      && (s.result == Ok(None) <==> Status(r) <= 0 && Out(r) == Null)
      && (s.result.Ok? && s.result.value.Some? ==> s.result.value.value.handle == Out(r) != Null)
  {
  }

  /** What a bound call makes of its arguments: exactly the releases of the
      arguments taken by value come first, then one call on the bound method
      and instance with the arguments' pointers in argument order; its status
      is checked. */
  lemma InvokeBoundProtocol(host: Oracle, trace: seq<Call>, inv: Invokable, ps: Params)
    ensures var s := InvokeBound(host, trace, inv, ps);
      var before := trace + Releases(Args(ps));
      var c := Call.RuntimeInvoke(inv.target.handle, inv.instance.handle, Pointers(Args(ps)));
      && s.trace == before + [c]
      && s.result == Check(Status(host(before, c)))
  {
  }

  /** A field or property write sends the terminated name and the value's
      pointer; a value passed by value is destroyed right before the call, a
      reference never; the status is then checked. */
  lemma WritesReleaseOwnedValueFirst(host: Oracle, trace: seq<Call>, obj: Object, name: string, value: Param)
    ensures var f := SetFieldValue(host, trace, obj, name, value);
      var p := SetPropertyValue(host, trace, obj, name, value);
      var released := if value.Owned? then [Call.Destroy(value.obj.handle)] else [];
      var cf := Call.SetFieldValue(obj.handle, TerminateEnd(name), PassedAs(value));
      var cp := Call.SetPropertyValue(obj.handle, TerminateEnd(name), PassedAs(value));
      && f.trace == trace + released + [cf]
      && p.trace == trace + released + [cp]
      && f.result == Check(Status(host(trace + released, cf)))
      && p.result == Check(Status(host(trace + released, cp)))
  {
    assert [value][1..] == [];
    if value.Borrowed? {
      assert trace + [] == trace;
    }
  }

  /** A field or property read: a positive status is that error; then a null
      buffer is `None`, a payload that does not decode is a `Json` error, and
      only a decoded payload has its buffer freed, right after the read. */
  lemma ReadsFreeOnlyDecodedBuffers<A>(
    host: Oracle, trace: seq<Call>, obj: Object, name: string, decode: string -> Decoded<A>)
    ensures var cf := Call.GetFieldValue(obj.handle, TerminateEnd(name));
      var cp := Call.GetPropertyValue(obj.handle, TerminateEnd(name));
      && ReadOutcome(GetFieldValue(host, trace, obj, name, decode), trace, cf, host(trace, cf), decode)
      && ReadOutcome(GetPropertyValue(host, trace, obj, name, decode), trace, cp, host(trace, cp), decode)
  {
  }

  /** The outcome of a read whose call `c` got reply `r`. */
  ghost predicate ReadOutcome<A>(s: Step<Result<Option<A>>>, trace: seq<Call>, c: Call, r: Reply, decode: string -> Decoded<A>) {
    && (Status(r) > 0 ==> s == Step(trace + [c], Err(FromStatus(Status(r)))))
    && (Status(r) <= 0 && Out(r) == Null ==> s == Step(trace + [c], Ok(None)))
    && (Status(r) <= 0 && Out(r) != Null && decode(r.payload).Malformed? ==>
          s == Step(trace + [c], Err(Json(decode(r.payload).reason))))
    && (Status(r) <= 0 && Out(r) != Null && decode(r.payload).Decoded? ==>
          s == Step(trace + [c, Call.Free(Out(r))], Ok(Some(decode(r.payload).value))))
  }
}

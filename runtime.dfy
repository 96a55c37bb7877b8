/** The script registry (`Runtime` in src/runtime.rs): the load context, the
    loaded assemblies, registered script types with their method caches, and
    the operations that change them. Every host call goes through the
    `Library`, whose `trace` is the log the contracts speak about. */
module Registry {
  import opened Outcomes
  import opened Errors
  import opened Text
  import opened Host
  import opened Protocol

  // ---------------------------------------------------------------------------
  // Assemblies and their paths

  datatype AssemblyType = Engine | Scripts

  /** The `Display` text of an assembly type. */
  function AssemblyName(t: AssemblyType): string {
    match t
    case Engine => "Engine"
    case Scripts => "Scripts"
  }

  /** A directory as `PathBuf::join` extends it on Unix: with a separator added
      unless it is empty or already ends with one. */
  function Separated(base: string): string {
    if base == [] || EndsWith(base, "/") then base else base + "/"
  }

  /** `PathBuf::join` with a relative component. */
  function Join(base: string, component: string): string
    requires component != [] && component[0] != '/'
  {
    Separated(base) + component
  }

  /** `AssemblyType::path`: `<base>/managed/<Name>.dll`. */
  function AssemblyPath(t: AssemblyType, base: string): string {
    Join(Join(base, "managed"), AssemblyName(t) + ".dll")
  }

  /** Two joins put exactly one separator before `managed` (none if `base` is
      empty or already ends with one) and one after it. */
  lemma AssemblyPathShape(t: AssemblyType, base: string)
    ensures AssemblyPath(t, base) == Separated(base) + "managed/" + AssemblyName(t) + ".dll"
  {
    var dir := Separated(base) + "managed";
    assert dir != [] && dir[|dir| - 1] == 'd';
    assert !EndsWith(dir, "/");
  }

  /** The two assemblies never share a path. */
  lemma AssemblyPathsDiffer(base: string)
    ensures AssemblyPath(Engine, base) != AssemblyPath(Scripts, base)
  {
    AssemblyPathShape(Engine, base);
    AssemblyPathShape(Scripts, base);
    assert |AssemblyPath(Engine, base)| < |AssemblyPath(Scripts, base)|;
  }

  lemma AssemblyPathHasNoNul(t: AssemblyType, base: string)
    requires '\0' !in base
    ensures '\0' !in AssemblyPath(t, base)
  {
    AssemblyPathShape(t, base);
    assert '\0' !in Separated(base);
    assert '\0' !in "managed/" + AssemblyName(t) + ".dll";
  }

  /** A path without NUL reaches the managed side unchanged. */
  lemma AssemblyPathReachesHost(t: AssemblyType, base: string)
    requires '\0' !in base
    ensures CStr(TerminateEnd(AssemblyPath(t, base))) == AssemblyPath(t, base)
  {
    AssemblyPathHasNoNul(t, base);
    BothRulesDeliverTheSameName(AssemblyPath(t, base));
  }

  // ---------------------------------------------------------------------------
  // Script types

  /** A method cache key: the method's name and its parameter count. */
  type MethodKey = (string, int32)

  /** `Type`: a registered script class with its metadata and a cache of the
      methods resolved on it so far. */
  class ScriptType {
    const name: string
    const cls: Class
    const metadata: MetaData
    var methods: map<MethodKey, Method>

    constructor (name: string, cls: Class, metadata: MetaData)
      ensures this.name == name && this.cls == cls && this.metadata == metadata
      ensures methods == map[]
    {
      this.name := name;
      this.cls := cls;
      this.metadata := metadata;
      methods := map[];
    }
  }

  /** `Script`: an instance together with the index of its type. */
  datatype Script = Script(index: nat, instance: Object)

  // ---------------------------------------------------------------------------
  // What dropping the registry releases

  /** The key a drop of `m` reaches first. The hash map's iteration order is not
      part of the model, so this is any key at all. */
  ghost function AnyKey(m: map<MethodKey, Method>): MethodKey
    requires m != map[]
  {
    var k :| k in m; k
  }

  /** The releases made by dropping a method cache, as a bag: one `Destroy` per
      cached entry. */
  ghost function CacheReleases(m: map<MethodKey, Method>): (b: multiset<Call>)
    ensures |b| == |m|
    decreases |m|
  {
    if m == map[] then multiset{}
    else
      var k := AnyKey(m);
      multiset{Call.Destroy(m[k].handle)} + CacheReleases(m - {k})
  }

  /** The bag does not depend on which entry goes first. */
  lemma {:induction false} CacheReleasesFrom(m: map<MethodKey, Method>, k: MethodKey)
    requires k in m
    ensures CacheReleases(m) == multiset{Call.Destroy(m[k].handle)} + CacheReleases(m - {k})
    decreases |m|
  {
    var p := AnyKey(m);
    if p != k {
      var mp := m - {p};
      var mk := m - {k};
      var rest := m - {p} - {k};
      assert k in mp && mp[k] == m[k];
      assert p in mk && mk[p] == m[p];
      assert mp - {k} == rest;
      assert mk - {p} == rest;
      assert |mp| < |m| && |mk| < |m|;
      CacheReleasesFrom(mp, k);
      CacheReleasesFrom(mk, p);
      var dp := multiset{Call.Destroy(m[p].handle)};
      var dk := multiset{Call.Destroy(m[k].handle)};
      assert CacheReleases(m) == dp + CacheReleases(mp);
      assert CacheReleases(mp) == dk + CacheReleases(rest);
      assert CacheReleases(mk) == dp + CacheReleases(rest);
    }
  }

  lemma {:induction false} CacheReleasesAreDestroys(m: map<MethodKey, Method>, c: Call)
    requires c in CacheReleases(m)
    ensures c.Destroy?
    decreases |m|
  {
    if m != map[] {
      var k := AnyKey(m);
      if c != Call.Destroy(m[k].handle) {
        CacheReleasesAreDestroys(m - {k}, c);
      }
    }
  }

  /** One type's share of a drop: its class first, then each cached method
      once, in some order. */
  ghost predicate TypeReleased(segment: seq<Call>, t: ScriptType)
    reads t
  {
    && |segment| == 1 + |t.methods|
    && segment[0] == Call.Destroy(t.cls.handle)
    && multiset(segment[1..]) == CacheReleases(t.methods)
  }

  function Flatten(segments: seq<seq<Call>>): seq<Call> {
    if segments == [] then []
    else Flatten(segments[..|segments| - 1]) + segments[|segments| - 1]
  }

  lemma FlattenAppend(segments: seq<seq<Call>>, s: seq<Call>)
    ensures Flatten(segments + [s]) == Flatten(segments) + s
  {
    assert (segments + [s])[..|segments|] == segments;
  }

  /** A type's share of a drop consists of `Destroy` calls only. */
  lemma ReleasedAreDestroys(segment: seq<Call>, t: ScriptType)
    requires TypeReleased(segment, t)
    ensures forall j :: 0 <= j < |segment| ==> segment[j].Destroy?
  {
    forall j | 1 <= j < |segment|
      ensures segment[j].Destroy?
    {
      assert segment[j] == segment[1..][j - 1];
      assert segment[j] in multiset(segment[1..]);
      CacheReleasesAreDestroys(t.methods, segment[j]);
    }
  }

  lemma {:induction false} NoUnloadIn(trace: seq<Call>, h: Ptr)
    requires forall i :: 0 <= i < |trace| ==> trace[i].Destroy?
    ensures Count(trace, Call.Unload(h)) == 0
    decreases |trace|
  {
    if trace != [] {
      NoUnloadIn(trace[..|trace| - 1], h);
    }
  }

  /** Moving one entry from the cache still to drop onto the releases made. */
  lemma DropStep(segment: seq<Call>, segment': seq<Call>, pending: map<MethodKey, Method>,
                 pending': map<MethodKey, Method>, all: map<MethodKey, Method>, k: MethodKey)
    requires |segment| >= 1 && k in pending
    requires segment' == segment + [Call.Destroy(pending[k].handle)] && pending' == pending - {k}
    requires multiset(segment[1..]) + CacheReleases(pending) == CacheReleases(all)
    ensures |segment'| >= 1 && segment'[0] == segment[0] && |pending'| < |pending|
    ensures multiset(segment'[1..]) + CacheReleases(pending') == CacheReleases(all)
  {
    var c := Call.Destroy(pending[k].handle);
    CacheReleasesFrom(pending, k);
    TailOfAppend(segment, c);
    assert multiset(segment'[1..]) == multiset(segment[1..]) + multiset{c};
  }

  lemma TailOfAppend<T>(s: seq<T>, x: T)
    requires |s| >= 1
    ensures (s + [x])[1..] == s[1..] + [x]
  {
  }

  /** Appending one call to a trace extends the segment that follows `start`. */
  lemma Extend(trace: seq<Call>, start: seq<Call>, segment: seq<Call>, c: Call)
    requires trace == start + segment
    ensures trace + [c] == start + (segment + [c])
  {
  }

  /** Drops one cached method, taking it out of the entries still to drop. */
  method DropEntry(lib: Library, ghost start: seq<Call>, ghost segment: seq<Call>, pending: map<MethodKey, Method>,
                   ghost all: map<MethodKey, Method>)
    returns (ghost segment': seq<Call>, pending': map<MethodKey, Method>)
    requires pending != map[] && |segment| >= 1
    requires multiset(segment[1..]) + CacheReleases(pending) == CacheReleases(all)
    requires lib.trace == start + segment
    modifies lib
    ensures |segment'| >= 1 && segment'[0] == segment[0] && |pending'| < |pending|
    ensures multiset(segment'[1..]) + CacheReleases(pending') == CacheReleases(all)
    ensures exists k :: k in pending && pending' == pending - {k} && segment' == segment + [Call.Destroy(pending[k].handle)]
    ensures lib.trace == start + segment'
  {
    var k :| k in pending;
    var m := pending[k];
    Extend(lib.trace, start, segment, Call.Destroy(m.handle));
    lib.trace := DropMethod(lib.trace, m);
    segment' := segment + [Call.Destroy(m.handle)];
    pending' := pending - {k};
    DropStep(segment, segment', pending, pending', all, k);
    assert k in pending && pending' == pending - {k} && segment' == segment + [Call.Destroy(pending[k].handle)];
  }

  /** Dropping one `Type`: its class, then each cached method, in whatever
      order the map yields them. */
  method DropType(lib: Library, t: ScriptType) returns (ghost segment: seq<Call>)
    modifies lib
    ensures lib.trace == old(lib.trace) + segment
    ensures TypeReleased(segment, t)
  {
    lib.trace := DropClass(lib.trace, t.cls);
    segment := [Call.Destroy(t.cls.handle)];
    var pending := t.methods;
    while pending != map[]
      invariant |segment| >= 1 && segment[0] == Call.Destroy(t.cls.handle)
      invariant multiset(segment[1..]) + CacheReleases(pending) == CacheReleases(t.methods)
      invariant lib.trace == old(lib.trace) + segment
      decreases |pending|
    {
      segment, pending := DropEntry(lib, old(lib.trace), segment, pending, t.methods);
    }
    assert CacheReleases(pending) == multiset{};
    assert |segment| == 1 + |segment[1..]| == 1 + |multiset(segment[1..])|;
  }

  lemma {:induction false} ReleasesHoldNoUnload(released: seq<seq<Call>>, types: seq<ScriptType>, h: Ptr)
    requires |released| == |types|
    requires forall i {:trigger TypeReleased(released[i], types[i])} :: 0 <= i < |released| ==> TypeReleased(released[i], types[i])
    ensures Count(Flatten(released), Call.Unload(h)) == 0
    decreases |released|
  {
    if released != [] {
      var n := |released| - 1;
      ReleasesHoldNoUnload(released[..n], types[..n], h);
      ReleasedAreDestroys(released[n], types[n]);
      NoUnloadIn(released[n], h);
      CountAppend(Flatten(released[..n]), released[n], Call.Unload(h));
    }
  }

  /** Drops the next type in line, extending the releases made so far. */
  method DropNext(lib: Library, ghost start: seq<Call>, ghost released: seq<seq<Call>>, types: seq<ScriptType>, i: nat)
    returns (ghost released': seq<seq<Call>>)
    requires i == |released| < |types|
    requires forall j {:trigger TypeReleased(released[j], types[j])} :: 0 <= j < |released| ==> TypeReleased(released[j], types[j])
    requires lib.trace == start + Flatten(released)
    modifies lib
    ensures |released'| == |released| + 1 && released'[..|released|] == released
    ensures forall j {:trigger TypeReleased(released'[j], types[j])} :: 0 <= j < |released'| ==> TypeReleased(released'[j], types[j])
    ensures lib.trace == start + Flatten(released')
  {
    var segment := DropType(lib, types[i]);
    FlattenAppend(released, segment);
    released' := released + [segment];
    assert forall j :: 0 <= j < |released| ==> released'[j] == released[j];
  }

  /** `scripts.truncate(0)`: drops the types in index order. */
  method DropTypes(lib: Library, types: seq<ScriptType>) returns (ghost released: seq<seq<Call>>)
    modifies lib
    ensures |released| == |types|
    ensures forall i {:trigger TypeReleased(released[i], types[i])} :: 0 <= i < |released| ==> TypeReleased(released[i], types[i])
    ensures lib.trace == old(lib.trace) + Flatten(released)
  {
    released := [];
    var i := 0;
    while i < |types|
      invariant 0 <= i <= |types| && |released| == i
      invariant forall j {:trigger TypeReleased(released[j], types[j])} :: 0 <= j < i ==> TypeReleased(released[j], types[j])
      invariant lib.trace == old(lib.trace) + Flatten(released)
    {
      released := DropNext(lib, old(lib.trace), released, types, i);
      i := i + 1;
    }
  }

  /** The drops, the new scope and the two unloads of the replaced scope hold
      exactly two unloads of it. */
  lemma UnloadedTwice(before: seq<Call>, released: seq<seq<Call>>, types: seq<ScriptType>, h: Ptr)
    requires |released| == |types|
    requires forall i {:trigger TypeReleased(released[i], types[i])} :: 0 <= i < |released| ==> TypeReleased(released[i], types[i])
    ensures var trace := before + Flatten(released) + [Call.CreateScope, Call.Unload(h), Call.Unload(h)];
      Count(trace, Call.Unload(h)) == Count(before, Call.Unload(h)) + 2
  {
    var u := Call.Unload(h);
    ReleasesHoldNoUnload(released, types, h);
    CountAppend(before, Flatten(released), u);
    var dropped := before + Flatten(released);
    CountExtension(dropped, Call.CreateScope, u);
    CountExtension(dropped + [Call.CreateScope], u, u);
    CountExtension(dropped + [Call.CreateScope] + [u], u, u);
    assert dropped + [Call.CreateScope] + [u] + [u] == dropped + [Call.CreateScope, u, u];
  }

  // ---------------------------------------------------------------------------
  // The registry

  class Runtime {
    /** The host function table. */
    const lib: Library
    /** The directory of the executable, under which `managed/` lies. */
    const exe: string

    var scope: Option<Scope>
    var assemblies: map<AssemblyType, Assembly>
    var fullnameToScript: map<string, nat>
    var scripts: seq<ScriptType>

    /** Every registered name points at a script type, and each type appears
        once. */
    ghost predicate Valid()
      reads this
    {
      && (forall n :: n in fullnameToScript ==> fullnameToScript[n] < |scripts|)
      && (forall i, j :: 0 <= i < j < |scripts| ==> scripts[i] != scripts[j])
    }

    /** `Runtime::new` once the host is bound: no scope, nothing loaded. */
    constructor (lib: Library, exe: string)
      ensures this.lib == lib && this.exe == exe
      ensures scope == None && assemblies == map[] && fullnameToScript == map[] && scripts == []
      ensures Valid()
    {
      this.lib := lib;
      this.exe := exe;
      scope := None;
      assemblies := map[];
      fullnameToScript := map[];
      scripts := [];
    }

    /** `load`: without a scope nothing happens and the answer is `Ok`; with one,
        the assembly is loaded from its path, and a null assembly is
        `PathNotFound`. */
    method Load(t: AssemblyType) returns (r: Result<()>)
      modifies this`assemblies, lib
      ensures scope.None? ==> r == Ok(()) && assemblies == old(assemblies) && lib.trace == old(lib.trace)
      ensures scope.Some? ==>
        var s := Protocol.LoadFromPath(lib.host, old(lib.trace), scope.value, AssemblyPath(t, exe));
        && lib.trace == s.trace
        && (s.result.Err? ==> r == Err(s.result.error) && assemblies == old(assemblies))
        && (s.result == Ok(None) ==> r == Err(PathNotFound) && assemblies == old(assemblies))
        && (s.result.Ok? && s.result.value.Some? ==> r == Ok(()) && assemblies == old(assemblies)[t := s.result.value.value])
    {
      if scope.None? {
        return Ok(());
      }
      var s := Protocol.LoadFromPath(lib.host, lib.trace, scope.value, AssemblyPath(t, exe));
      lib.trace := s.trace;
      match s.result
      case Err(e) => r := Err(e);
      case Ok(None) => r := Err(PathNotFound);
      case Ok(Some(a)) =>
        assemblies := assemblies[t := a];
        r := Ok(());
    }

    /** `register`: resolves the class in the Scripts assembly, reads its
        metadata and appends a new type under `name`. A metadata error drops
        the class that was resolved. */
    method Register(name: string, decode: string -> Decoded<MetaData>) returns (r: Result<()>)
      requires Valid()
      modifies this`fullnameToScript, this`scripts, lib
      ensures Valid()
      ensures Scripts !in assemblies ==> r == Err(AssemblyNotLoaded) && lib.trace == old(lib.trace)
      ensures r.Err? ==> fullnameToScript == old(fullnameToScript) && scripts == old(scripts)
      ensures Scripts in assemblies ==>
        var g := Protocol.GetClass(lib.host, old(lib.trace), assemblies[Scripts], name);
        && (g.result.Err? ==> r == Err(g.result.error) && lib.trace == g.trace)
        && (g.result == Ok(None) ==> r == Err(ClassNotFound) && lib.trace == g.trace)
        && (g.result.Ok? && g.result.value.Some? ==>
              var c := g.result.value.value;
              var md := Protocol.GetMetaData(lib.host, g.trace, c, decode);
              && (md.result.Err? ==> r == Err(md.result.error) && lib.trace == DropClass(md.trace, c))
              && (md.result.Ok? ==>
                    && r == Ok(())
                    && lib.trace == md.trace
                    && |scripts| == |old(scripts)| + 1
                    && scripts[..|old(scripts)|] == old(scripts)
                    && fresh(scripts[|old(scripts)|])
                    && scripts[|old(scripts)|].name == name
                    && scripts[|old(scripts)|].cls == c
                    && scripts[|old(scripts)|].metadata == md.result.value
                    && scripts[|old(scripts)|].methods == map[]
                    && fullnameToScript == old(fullnameToScript)[name := |old(scripts)|]))
    {
      if Scripts !in assemblies {
        return Err(AssemblyNotLoaded);
      }
      var g := Protocol.GetClass(lib.host, lib.trace, assemblies[Scripts], name);
      lib.trace := g.trace;
      match g.result
      case Err(e) => r := Err(e);
      case Ok(None) => r := Err(ClassNotFound);
      case Ok(Some(c)) =>
        var md := Protocol.GetMetaData(lib.host, lib.trace, c, decode);
        match md.result
        case Err(e) =>
          lib.trace := DropClass(md.trace, c);
          r := Err(e);
        case Ok(m) =>
          lib.trace := md.trace;
          var t := new ScriptType(name, c, m);
          fullnameToScript := fullnameToScript[name := |scripts|];
          scripts := scripts + [t];
          r := Ok(());
    }

    /** `create`: instantiates the type registered under `name`. */
    method Create(name: string) returns (r: Result<Script>)
      requires Valid()
      modifies lib
      ensures name !in fullnameToScript ==> r == Err(ClassNotRegistered) && lib.trace == old(lib.trace)
      ensures name in fullnameToScript ==>
        var index := fullnameToScript[name];
        var n := Protocol.NewObject(lib.host, old(lib.trace), scripts[index].cls);
        && lib.trace == n.trace
        && (n.result.Err? ==> r == Err(n.result.error))
        && (n.result == Ok(None) ==> r == Err(UnknownManaged))
        && (n.result.Ok? && n.result.value.Some? ==> r == Ok(Script(index, n.result.value.value)))
    {
      if name !in fullnameToScript {
        return Err(ClassNotRegistered);
      }
      var index := fullnameToScript[name];
      var n := Protocol.NewObject(lib.host, lib.trace, scripts[index].cls);
      lib.trace := n.trace;
      match n.result
      case Err(e) => r := Err(e);
      case Ok(None) => r := Err(UnknownManaged);
      case Ok(Some(o)) => r := Ok(Script(index, o));
    }

    /** The types reachable through a script handle (none when the index is
        stale). */
    function TypeOf(handle: Script): set<ScriptType>
      reads this
    {
      if handle.index < |scripts| then {scripts[handle.index]} else {}
    }

    /** `get_method`: looks `(name, arity)` up in the type's cache and asks the
        host only on a miss; a method the host found is cached. */
    method GetMethod(handle: Script, name: string, arity: int32) returns (r: Result<Option<Invokable>>)
      modifies lib, TypeOf(handle)
      ensures handle.index >= |scripts| ==> r == Ok(None) && lib.trace == old(lib.trace)
      ensures handle.index < |scripts| ==>
        var t := scripts[handle.index];
        var key := (name, arity);
        && (key in old(t.methods) ==>
              r == Ok(Some(Invokable(handle.instance, old(t.methods)[key])))
              && lib.trace == old(lib.trace) && t.methods == old(t.methods))
        && (key !in old(t.methods) ==>
              var g := Protocol.GetMethod(lib.host, old(lib.trace), t.cls, name, arity);
              && lib.trace == g.trace
              && (g.result.Err? ==> r == Err(g.result.error) && t.methods == old(t.methods))
              && (g.result == Ok(None) ==> r == Ok(None) && t.methods == old(t.methods))
              && (g.result.Ok? && g.result.value.Some? ==>
                    r == Ok(Some(Invokable(handle.instance, g.result.value.value)))
                    && t.methods == old(t.methods)[key := g.result.value.value]))
    {
      if handle.index >= |scripts| {
        return Ok(None);
      }
      var t := scripts[handle.index];
      var key := (name, arity);
      if key in t.methods {
        return Ok(Some(Invokable(handle.instance, t.methods[key])));
      }
      var g := Protocol.GetMethod(lib.host, lib.trace, t.cls, name, arity);
      lib.trace := g.trace;
      match g.result
      case Err(e) => r := Err(e);
      case Ok(None) => r := Ok(None);
      case Ok(Some(m)) =>
        t.methods := t.methods[key := m];
        r := Ok(Some(Invokable(handle.instance, m)));
    }

    /** `get_meta_data`: the metadata of the handle's type; a stale index
        panics. */
    function MetaDataOf(handle: Script): (r: Outcome<MetaData>)
      reads this
      ensures r.Done? <==> handle.index < |scripts|
      ensures r.Done? ==> r.value == scripts[handle.index].metadata
    {
      if handle.index < |scripts| then Done(scripts[handle.index].metadata)
      else Panic("called `Option::unwrap()` on a `None` value")
    }

    /** `self.scope.replace(self.library.create_scope())`, and the unload of
        the scope it hands back: an explicit one, whose status is the result,
        and the one its drop makes. */
    method ReplaceScope() returns (r: Result<()>)
      modifies this`scope, lib
      ensures var created := Protocol.CreateScope(lib.host, old(lib.trace));
        && scope == Some(created.result)
        && (old(scope).None? ==> r == Ok(()) && lib.trace == created.trace)
        && (old(scope).Some? ==>
              var h := old(scope).value.handle;
              && lib.trace == created.trace + [Call.Unload(h), Call.Unload(h)]
              && r == Check(Status(lib.host(created.trace, Call.Unload(h)))))
    {
      var created := Protocol.CreateScope(lib.host, lib.trace);
      lib.trace := created.trace;
      var previous := scope;
      scope := Some(created.result);
      r := Ok(());
      if previous.Some? {
        var h := previous.value.handle;
        var status := Status(lib.host(lib.trace, Call.Unload(h)));
        lib.trace := lib.trace + [Call.Unload(h)];
        if status > 0 {
          r := Err(FromStatus(status));
        }
        lib.trace := DropScope(lib.trace, previous.value);
        assert lib.trace == created.trace + [Call.Unload(h), Call.Unload(h)];
      }
    }

    /** `clear`: drops every type (its class, then its cached methods in the
        map's order), empties the registries, installs a new scope and, if
        there was one, unloads the old scope: once explicitly, whose status is
        the result, and once more when the old `Scope` drops. */
    method Clear() returns (r: Result<()>, ghost released: seq<seq<Call>>)
      requires Valid()
      modifies this`scripts, this`fullnameToScript, this`assemblies, this`scope, lib
      ensures scripts == [] && fullnameToScript == map[] && assemblies == map[] && Valid()
      ensures |released| == |old(scripts)|
      ensures forall i {:trigger TypeReleased(released[i], old(scripts)[i])} :: 0 <= i < |released| ==> TypeReleased(released[i], old(scripts)[i])
      ensures var dropped := old(lib.trace) + Flatten(released);
        var created := Protocol.CreateScope(lib.host, dropped);
        && scope == Some(created.result)
        && (old(scope).None? ==> r == Ok(()) && lib.trace == created.trace)
        && (old(scope).Some? ==>
              var h := old(scope).value.handle;
              && lib.trace == created.trace + [Call.Unload(h), Call.Unload(h)]
              && r == Check(Status(lib.host(created.trace, Call.Unload(h))))
              && Count(lib.trace, Call.Unload(h)) == Count(old(lib.trace), Call.Unload(h)) + 2)
    {
      released := DropTypes(lib, scripts);
      scripts := [];
      fullnameToScript := map[];
      assemblies := map[];
      ghost var dropped := lib.trace;
      r := ReplaceScope();
      if old(scope).Some? {
        var h := old(scope).value.handle;
        assert lib.trace == old(lib.trace) + Flatten(released) + [Call.CreateScope, Call.Unload(h), Call.Unload(h)] by {
          assert dropped == old(lib.trace) + Flatten(released);
        }
        UnloadedTwice(old(lib.trace), released, old(scripts), h);
      }
    }
  }
}

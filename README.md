# A verified model of the native side of a C# scripting bridge

The repository embeds the .NET runtime in a Bevy game engine. The native
side (Rust) keeps a registry of managed script types: it loads the `Engine`
and `Scripts` assemblies into a load context (a *scope*), registers and
instantiates script classes, caches the methods it resolves and tears the
whole registry down again. Every step goes through a table of Host API
functions that return handles through out-pointers and report failures
through an `i32` status. The build script picks the .NET runtime to target
from the installed ones.

This project models and proves properties of:

- `outcomes.dfy` (module `Outcomes`): `Option` and `Outcome`. `Outcome` is
  either a value or a Rust panic (`unwrap`, `expect`).
- `text.dfy` (module `Text`): the Rust string operations the core uses:
  - `starts_with`, `ends_with` and `split_once`;
  - the decimal `Display` of integers;
  - the lexicographic order of `String`.
- `errors.dfy` (module `Errors`): the error enum and the decoding of status
  codes (`src/error.rs`).
- `config.dfy` (module `Config`): how the runtime-version setting is
  deserialised, compared with strings and defaulted (`src/config.rs`).
- `build.dfy` (module `Build`): `get_versions` from `build.rs`. The installed
  runtime directory names are its input.
- `host.dfy` (module `Host`): the managed side as an oracle, and the log of
  calls made into it.
  - Every host call is a `Call` value.
  - The reply the managed side writes back (`out`, `err`, an integer flag, a
    payload) depends on the call and on every call made before it.
  - `Library.trace` records the calls in order.
  - Releases are counted on that log: `Count(trace, Destroy(h))` and
    `Count(trace, Unload(h))`.
- `protocol.dfy` (module `Protocol`): the `RuntimeLibrary` wrappers and the
  `Object` accessors. Each is a function from the log to the extended log and
  the bridge's result. It covers:
  - the status rule;
  - the two NUL-termination rules;
  - result buffers;
  - argument passing;
  - the `Drop` of each handle wrapper.
- `runtime.dfy` (module `Registry`): `Runtime` as a class with the source's
  four fields (`scope`, `assemblies`, `fullname_to_script`, `scripts`).
  - Each script type is a class whose method cache is a mutable map.
  - `load`, `register`, `create`, `get_method` and `clear` are methods.
    `get_meta_data`, which changes nothing, is the function
    `Runtime.MetaDataOf`.
  - Each method states its whole new state and the calls it makes.
  - `clear` is specified down to the releases that dropping the registry
    makes.

## Model

| member | source | states |
|---|---|---|
| `Errors.FromStatus` | src/error.rs:19-35 | Codes 1 to 11 decode to the variant that the independent encoding `StatusOf` gives that code. Every other code, and only those, decodes to `UnknownManaged`. No code decodes to `Io` or `Json`. |
| `Errors.FromStatusInvertsStatusOf` | src/error.rs:21-32 | Decoding the status code of any error that has one gives that error back. |
| `Errors.FromStatusInjective` | src/error.rs:20-34 | Distinct codes in 1..11 decode to distinct variants. |
| `Text.Decimal` | build.rs:82 | `to_string` of an integer: non-empty digits, no leading zero, reading back as the number. |
| `Text.SplitOnce` | src/config.rs:34 | The text before and after the first occurrence of the separator. The result is `None` exactly when the separator does not occur. |
| `Text.StartsWith` | build.rs:82 | `str::starts_with`: the text's first characters are exactly the prefix. It also backs `strip_prefix` (src/config.rs:33) and the starts-with rule (src/runtime.rs:517). |
| `Text.EndsWith` | src/runtime.rs:499 | `str::ends_with`: the text's last characters are exactly the suffix. It also backs the separator test of `PathBuf::join`. |
| `Text.IndexOf` | src/config.rs:34 | The first occurrence of a character: the position holds it and no earlier one does. `None` exactly when it does not occur. |
| `Text.LexLe` | build.rs:77 | The order of `String` that `sort` uses: character-wise lexicographic, with a proper prefix first. `LexLeReflexive`, `LexLeAntisymmetric`, `LexLeTransitive` and `LexLeTotal` show it is a total order. |
| `Text.LexLeReflexive` | build.rs:77 | Every string is at most itself. |
| `Text.LexLeAntisymmetric` | build.rs:77 | Two strings each at most the other are equal. |
| `Text.LexLeTransitive` | build.rs:77 | The order is transitive. |
| `Text.LexLeTotal` | build.rs:77 | Any two strings are comparable. |
| `Config.ToAsciiLowercase` | src/config.rs:32 | Same length. Each ASCII capital becomes its small letter (code point + 32), every other character is unchanged, and no ASCII capital is left. |
| `Config.StripPrefix` | src/config.rs:33 | A rest exactly when the prefix is present, and the input is the prefix followed by that rest. |
| `Config.ParseU8` | src/config.rs:35 | A value only for non-empty text other than a lone `+`. |
| `Config.LowercaseIdempotent` | src/config.rs:32 | Lowercasing twice is lowercasing once. |
| `Config.DeserializeIgnoresCase` | src/config.rs:32 | A string and its lowercase version deserialise identically. |
| `Config.DeserializeFramework` | src/config.rs:36-38 | Input not starting with `net` in any case becomes `Framework` of its lowercase text. |
| `Config.DeserializeNet` | src/config.rs:33-35 | Input starting with `net` yields `Net` of the `u8` between `net` and the first `.`. It panics when there is no `.` or that text is not a `u8`. It never yields a framework. |
| `Config.DeserializeNetText` | src/config.rs:33-35 | For lowercase `net<major>.<rest>` with no `.` in `major`, the result is `Net(m)` if `major` parses to `m`, and a panic otherwise. |
| `Config.ParseDecimal` | src/config.rs:35 | Parsing the decimal text of any value below 256 gives that value. |
| `Config.NetRoundTrip` | src/config.rs:32-47 | For every `u8` `v`, `net{v}.0` deserialises to `Net(v)`, and `Net(v)` compares equal to it. |
| `Config.EqualsNetUnique` | src/config.rs:45 | A string compares equal to at most one `Net` version. |
| `Config.EqualsThenDeserialize` | src/config.rs:32-47 | A string equal to a version deserialises back to it exactly when the version is `Net`, or is a lowercase framework name not starting with `net`. |
| `Config.NetEightMoniker` | src/config.rs:45 | `Net(8)` is written `net8.0`. |
| `Config.CaseInsensitiveParseCaseSensitiveEquals` | src/config.rs:32-46 | `NET{v}.0` parses as `Net(v)` but does not compare equal to it. |
| `Config.LeadingZeroMajor` | src/config.rs:35 | `net08.0` parses as `Net(8)`. |
| `Config.PlusSignMajor` | src/config.rs:35 | `net+8.0` parses as `Net(8)`. |
| `Config.NonCanonicalMajors` | src/config.rs:35-45 | `net08.0` and `net+8.0` both parse as `Net(8)`, yet neither compares equal to it. |
| `Config.NetWithoutDotPanics` | src/config.rs:34 | `net8` panics in the first `unwrap`. |
| `Config.NonNumericMajorPanics` | src/config.rs:35 | `netcoreapp3.1` panics in the second `unwrap`. |
| `Config.OverflowingMajorPanics` | src/config.rs:35 | `net256.0` panics: 256 is not a `u8`. |
| `Config.Deserialize` | src/config.rs:28-40 | The deserialiser itself; its behaviour is stated by `DeserializeNet`, `DeserializeFramework`, `DeserializeIgnoresCase`, `NetRoundTrip` and the panic lemmas below. |
| `Config.NetMoniker` | src/config.rs:45 | The text `net{v}.0`; `NetEightMoniker` and `EqualsNetUnique` state what it is and that it is injective. |
| `Config.Equals` | src/config.rs:42-48 | The comparison with a string; `NetRoundTrip`, `EqualsNetUnique`, `EqualsThenDeserialize` and `CaseInsensitiveParseCaseSensitiveEquals` state its properties. |
| `Config.DefaultVersion` | src/config.rs:51-55 | The default; `DefaultIsNet8` states that it is `Net(8)` and round-trips through `net8.0`. |
| `Config.DefaultIsNet8` | src/config.rs:51-55 | The default is `Net(8)`: it compares equal to `net8.0`, and `net8.0` deserialises to it. |
| `Build.Insert` | build.rs:77 | Inserting into a sorted list keeps it sorted, and adds exactly that one element to its multiset. |
| `Build.Sort` | build.rs:77 | `sort` returns a sorted permutation of the listing. |
| `Build.SortKeepsElements` | build.rs:77 | Sorting keeps exactly the elements of the listing. |
| `Build.Matching` | build.rs:80-83 | `filter` keeps exactly the entries with the prefix, and keeps a sorted list sorted. |
| `Build.Find` | build.rs:86 | `find` returns an entry exactly when the name is listed, and that entry is the name. |
| `Build.Last` | build.rs:82-84 | The last entry of the filtered list; `LastIsGreatest` states that it is the greatest. |
| `Build.LastIsGreatest` | build.rs:84 | The last entry of a sorted non-empty list is greatest in string order. |
| `Build.SelectFramework` | build.rs:79-88 | The choice of runtime; `SelectNetIsGreatest`, `SelectFrameworkIsExact`, `SelectedIsInstalled` and `SelectionIgnoresListingOrder` state it. |
| `Build.NetOf` | build.rs:92 | The moniker of the chosen runtime; `NetOfSplitsAtFirstDot` states it. |
| `Build.GetVersions` | build.rs:68-94 | `get_versions` on a given listing; `GetVersionsOutcome`, `StringOrderNotVersionOrder` and `PrefixMatchesLongerMajor` state its result. |
| `Build.SelectNetIsGreatest` | build.rs:79-85 | For `Net(n)` there is a choice exactly when some installed name starts with the digits of `n`. That choice is installed, starts with those digits, and is greatest among such names in string order. |
| `Build.SelectFrameworkIsExact` | build.rs:86 | For `Framework(f)` the choice is `f` if it is installed, and there is none otherwise. |
| `Build.SelectedIsInstalled` | build.rs:79-88 | Whatever is configured, the chosen runtime is an installed one. |
| `Build.SelectionIgnoresListingOrder` | build.rs:69-87 | Two listings of the same names give the same choice, because the listing is sorted first. |
| `Build.GetVersionsOutcome` | build.rs:68-94 | The first half of the result is the chosen runtime, which is installed. The second is `net` + the text before its first `.` + `.0`. The build aborts exactly when nothing fits or the choice has no `.`. |
| `Build.NetMonikerAgreesWithConfig` | build.rs:90-93 | If the runtime chosen for `Net(n)` has major exactly `n`, its moniker compares equal to `Net(n)`. |
| `Build.SelectOfTwo` | build.rs:79-85 | Of two candidates with the same major, the later one in string order is chosen. |
| `Build.EightSelectsNine` | build.rs:77-85 | From 8.0.10 and 8.0.9, `Net(8)` selects 8.0.9. |
| `Build.NetOfSplitsAtFirstDot` | build.rs:92 | For a major without `.`, the moniker of `major.rest` is `net` + major + `.0`, whatever `rest` is. |
| `Build.NetOfEight` | build.rs:92 | The moniker of 8.0.9 is `net8.0`. |
| `Build.StringOrderNotVersionOrder` | build.rs:68-94 | With 8.0.10 and 8.0.9 installed, `get_versions` for `Net(8)` gives 8.0.9 and `net8.0`: names compare as strings, not as versions. |
| `Build.OneSelectsTen` | build.rs:80-85 | From 1.0.0 and 10.0.1, `Net(1)` selects 10.0.1. |
| `Build.PrefixMatchesLongerMajor` | build.rs:68-94 | `Net(1)` matches by string prefix. It accepts runtime 10.0.1 and then targets `net10.0`. |
| `Protocol.DropScope` | src/runtime.rs:660-665 | The log after a scope drops; `ScopeDropUnloadsOnce` states it. |
| `Protocol.DropClass` | src/runtime.rs:695-699 | The log after a class drops; `ClassDropDestroysOnce` states it. |
| `Protocol.DropMethod` | src/runtime.rs:715-719 | The log after a method drops; `MethodDropDestroysOnce` states it. |
| `Protocol.DropObject` | src/runtime.rs:814-818 | The log after an object drops; `ObjectDropDestroysOnce` states it. |
| `Protocol.ScopeDropUnloadsOnce` | src/runtime.rs:660-665 | Dropping a scope adds exactly one `Unload` of its handle to the log and nothing else. |
| `Protocol.ClassDropDestroysOnce` | src/runtime.rs:695-699 | Dropping a class adds exactly one `Destroy` of its handle and nothing else. |
| `Protocol.MethodDropDestroysOnce` | src/runtime.rs:715-719 | Dropping a method adds exactly one `Destroy` of its handle and nothing else. |
| `Protocol.ObjectDropDestroysOnce` | src/runtime.rs:814-818 | Dropping an object adds exactly one `Destroy` of its handle and nothing else. |
| `Protocol.Status` | src/runtime.rs:504 | The status the bridge reads: the value written, or the initial `-1` when nothing is written. `UnwrittenStatusIsSuccess` states that the `-1` is success. |
| `Protocol.Out` | src/runtime.rs:503 | The out pointer the bridge reads: the pointer written, or the initial null when nothing is written. |
| `Protocol.DefaultMetaData` | src/runtime.rs:820-825 | `MetaData::default()` derived: no fields and no properties. `GetMetaData` states that a null buffer gives it. |
| `Protocol.Check` | src/runtime.rs:78 | Success exactly when the status is at most 0. A positive status becomes the error it encodes (or `UnknownManaged`), never `Io` or `Json`. |
| `Protocol.UnwrittenStatusIsSuccess` | src/runtime.rs:504-506 | A status the managed side never writes stays -1, which is success. |
| `Protocol.Fetch` | src/runtime.rs:504-512 | Status check, then null check: an error exactly when the status is positive, and `None` exactly when it is not and the out pointer is null. Otherwise the result is the non-null pointer written. |
| `Protocol.CStr` | src/runtime.rs:505 | The managed side reads a string buffer up to its first NUL. The part read is a prefix containing no NUL, followed by the NUL when there is one; a buffer without NUL is read whole. |
| `Protocol.TerminateEnd` | src/runtime.rs:498-501 | The result ends with NUL. It is the input, or the input with one NUL appended, and it is the input exactly when the input already ends with NUL. |
| `Protocol.TerminateUnlessStarts` | src/runtime.rs:516-519 | The result contains a NUL. It is the input, or the input with one NUL appended, and it is the input exactly when the input starts with NUL. |
| `Protocol.TerminateEndIdempotent` | src/runtime.rs:734-737 | The ends-with rule is idempotent. |
| `Protocol.TerminateUnlessStartsNotIdempotent` | src/runtime.rs:567-570 | The starts-with rule is not idempotent: applied twice to a non-empty name that does not start with NUL, it appends two NULs. |
| `Protocol.CStrOfExtension` | src/runtime.rs:517-522 | Appending to a buffer that already holds a NUL does not change what is read. |
| `Protocol.CStrOfTerminated` | src/runtime.rs:499-505 | A NUL-free name with one NUL appended reads as the name. |
| `Protocol.BothRulesDeliverTheSameName` | src/runtime.rs:515-519 | Both rules produce a buffer with a NUL, and the managed side reads the same text from both. For a NUL-free name, that text is the name. |
| `Protocol.Arity` | src/runtime.rs:97-114 | The number of arguments in `()`, a single value and a pair. |
| `Protocol.Args` | src/runtime.rs:97-114 | The arguments of `()`, a single value and a pair, in order; as many as `Arity` counts. |
| `Protocol.PassedAs` | src/runtime.rs:83-95 | The pointer an argument passes: a reference's address, or an `Object`'s handle. |
| `Protocol.Pointers` | src/runtime.rs:97-114 | One pointer per argument, the `i`-th being what the `i`-th argument passes. |
| `Protocol.Releases` | src/runtime.rs:83-114 | The calls that converting the arguments makes, all `Destroy`s: one per `Object` passed by value, in argument order. |
| `Protocol.ConvertParam` | src/runtime.rs:83-95 | A reference passes its address and logs nothing. An `Object` passed by value passes its handle and is destroyed first. |
| `Protocol.ConvertParams` | src/runtime.rs:97-114 | The pointers are exactly `Pointers` of the arguments, in argument order. The log gains exactly `Releases` of the arguments. |
| `Protocol.Ping` | src/runtime.rs:479-483 | One `Ping` call. Alive exactly when the managed side wrote 1. |
| `Protocol.CreateScope` | src/runtime.rs:489-495 | One `CreateScope` call. The scope wraps the pointer written, null included, unchecked. |
| `Protocol.LoadFromPath` | src/runtime.rs:497-513 | One call carrying the path under the ends-with rule. The result follows `Fetch` of its reply, and a non-null pointer becomes an `Assembly`. |
| `Protocol.GetClass` | src/runtime.rs:515-530 | One call carrying the name under the starts-with rule. The result follows `Fetch`, and a non-null pointer becomes a `Class`. |
| `Protocol.NewObject` | src/runtime.rs:532-551 | One `New` call on the class. The result follows `Fetch`, and a non-null pointer becomes an `Object`. |
| `Protocol.IsAssignableFrom` | src/runtime.rs:553-559 | One call. An error exactly when the status is positive, and then the error that status encodes; otherwise true exactly when the out value written is 1. |
| `Protocol.GetMethod` | src/runtime.rs:561-581 | One call carrying the name under the starts-with rule and the arity. The result follows `Fetch`, and a non-null pointer becomes a `Method`. |
| `Protocol.LookupsFollowStatusProtocol` | src/runtime.rs:497-581 | Each of the four lookups makes one call. The result is an error exactly when the status is positive, `None` exactly when the status is not positive and the out pointer is null, and otherwise a handle on exactly the pointer written. |
| `Protocol.GetMetaData` | src/runtime.rs:583-599 | One `GetMetaData` call. A positive status is the error it encodes, with nothing more logged. A null buffer gives the empty default. A payload that does not decode is a `Json` error, and its buffer is not freed. A decoded payload is the result, and its buffer is freed right after the call. |
| `Protocol.Invoke` | src/runtime.rs:625-639 | One `RuntimeInvoke` call with the method, the arguments, and a null instance when none is given. The result is the status check. |
| `Protocol.Invokable` | src/runtime.rs:61-65 | The instance and the method that `get_method` binds together. The function pointer is the oracle's `RuntimeInvoke`. |
| `Protocol.InvokeBound` | src/runtime.rs:67-80 | `Invokable::invoke`; `InvokeBoundProtocol` and `OwnedArgumentReleasedBeforeCall` state it. |
| `Protocol.InvokeBoundProtocol` | src/runtime.rs:67-80 | The log gains `Releases` of the arguments, then one `RuntimeInvoke` of the bound method on the bound instance with exactly `Pointers` of the arguments. The result is the status check of that call's reply. |
| `Protocol.OwnedArgumentReleasedBeforeCall` | src/runtime.rs:67-95 | An `Object` given as the only argument is destroyed right before the call that receives its pointer. |
| `Protocol.SetFieldValue` | src/runtime.rs:733-745 | `Object::set_field_value`; `WritesReleaseOwnedValueFirst` states it. |
| `Protocol.SetPropertyValue` | src/runtime.rs:771-783 | `Object::set_property_value`; `WritesReleaseOwnedValueFirst` states it. |
| `Protocol.WritesReleaseOwnedValueFirst` | src/runtime.rs:733-783 | A field or property write logs the `Destroy` of a value passed by value, then one call with the name under the ends-with rule and the value's pointer. The result is the status check of that call's reply. |
| `Protocol.FreeBuffer` | src/runtime.rs:593 | The raw `(self.free)(out)` made here and at lines 766 and 804: the log gains one `Free` of the buffer. `ReadsFreeOnlyDecodedBuffers` and `GetMetaData` state when it happens. |
| `Protocol.ReadBuffer` | src/runtime.rs:761-768 | The result buffer after a successful call; `ReadsFreeOnlyDecodedBuffers` and `GetMetaData` state its outcomes. |
| `Protocol.GetFieldValue` | src/runtime.rs:747-769 | `Object::get_field_value`; `ReadsFreeOnlyDecodedBuffers` states it. |
| `Protocol.GetPropertyValue` | src/runtime.rs:785-807 | `Object::get_property_value`; `ReadsFreeOnlyDecodedBuffers` states it. |
| `Protocol.ReadsFreeOnlyDecodedBuffers` | src/runtime.rs:747-807 | Field and property reads behave as follows. A positive status is that error. A null buffer is `None`. A payload that does not decode is a `Json` error, and its buffer is not freed. Only a decoded payload has its buffer freed, right after the read. |
| `Host.Library` | src/runtime.rs:359-384 | The resolved function table as the oracle `host`, with the log of calls made; the constructor starts the log empty. |
| `Registry.AssemblyName` | src/runtime.rs:38-45 | The `Display` text of `Engine` and `Scripts`. `AssemblyPathsDiffer` uses it to show the two paths differ. |
| `Registry.Separated` | src/runtime.rs:46-50 | The directory as Unix `PathBuf::join` extends it: one `/` is added unless the text is empty or already ends with one. |
| `Registry.Join` | src/runtime.rs:46-50 | `PathBuf::join` with a relative component: the separated base followed by the component. `AssemblyPathShape` states its result for both joins. |
| `Registry.AssemblyPath` | src/runtime.rs:46-50 | `AssemblyType::path`; `AssemblyPathShape`, `AssemblyPathsDiffer` and `AssemblyPathHasNoNul` state it. |
| `Registry.AssemblyPathShape` | src/runtime.rs:46-50 | `path` is the base, one separator unless it already ends with one or is empty, then `managed/<Name>.dll`. |
| `Registry.AssemblyPathsDiffer` | src/runtime.rs:46-50 | `Engine` and `Scripts` never share a path. |
| `Registry.AssemblyPathHasNoNul` | src/runtime.rs:46-50 | A NUL-free base gives a NUL-free path. |
| `Registry.AssemblyPathReachesHost` | src/runtime.rs:259-262 | The managed side reads, unchanged, the assembly path that `load` sends for a NUL-free base. |
| `Registry.ScriptType.constructor` | src/runtime.rs:249-254 | A new `Type` has the given name, class and metadata, and an empty method cache. |
| `Registry.CacheReleases` | src/runtime.rs:57 | The releases that dropping a method cache makes form a bag with one entry per cached method. |
| `Registry.CacheReleasesFrom` | src/runtime.rs:57 | That bag is the same whichever entry the map's iteration reaches first. |
| `Registry.CacheReleasesAreDestroys` | src/runtime.rs:715-719 | Dropping a cache makes only `Destroy` calls. |
| `Registry.ReleasedAreDestroys` | src/runtime.rs:695-719 | Dropping a `Type` makes only `Destroy` calls. |
| `Registry.DropEntry` | src/runtime.rs:715-719 | Dropping one cached method takes exactly one key out of the entries still to drop and appends that method's `Destroy` to the log, keeping everything logged before. Its `Destroy` thereby moves from the bag still to come into the log. |
| `Registry.DropType` | src/runtime.rs:53-59 | Dropping a `Type` destroys its class first, then each cached method exactly once, in some order. |
| `Registry.DropNext` | src/runtime.rs:269 | One more type's drop appends one segment: the earlier releases are kept as a prefix, and the new segment releases the next type. |
| `Registry.DropTypes` | src/runtime.rs:269 | `truncate(0)` drops the types in index order. Each contributes its class's `Destroy` followed by its cache's releases. |
| `Registry.ReleasesHoldNoUnload` | src/runtime.rs:269 | Dropping the types unloads no scope. |
| `Registry.UnloadedTwice` | src/runtime.rs:273-277 | After the drops and the new scope, the old scope's explicit unload and its drop add exactly two `Unload`s of its handle. |
| `Registry.Runtime.constructor` | src/runtime.rs:212-222 | A new `Runtime` has no scope, no assemblies and no scripts. |
| `Registry.Runtime.Load` | src/runtime.rs:259-266 | Without a scope: `Ok`, and nothing else changes, no call included. With one: one `LoadFromPath` of the assembly's path. A host error is returned; a null assembly is `PathNotFound`. On failure the map is unchanged; on success the assembly is recorded under its type. |
| `Registry.Runtime.Register` | src/runtime.rs:236-257 | `AssemblyNotLoaded` without a Scripts assembly, with no call made. A `get_class` error is propagated, and `None` is `ClassNotFound`. A metadata error is propagated after the class is destroyed. On any failure the registry is unchanged. On success one fresh `Type` with an empty cache is appended at index `old(|scripts|)`, and the name is repointed to it. Re-registration leaves the old entry in place. The registry invariant is kept. |
| `Registry.Runtime.Create` | src/runtime.rs:226-234 | `ClassNotRegistered` without any call when the name is unknown. Otherwise one `New` on the registered class: a host error is returned, a null object is `UnknownManaged`, and otherwise the result is a `Script` whose index is the name's. |
| `Registry.Runtime.GetMethod` | src/runtime.rs:282-314 | A stale index gives `Ok(None)` with no call. A cache hit on `(name, arity)` returns the cached method with no call. On a miss, one host `GetMethod` is made: an error or `None` leaves the cache unchanged, and a method found is inserted under exactly that key and returned. |
| `Registry.Runtime.TypeOf` | src/runtime.rs:288 | `self.scripts.get(handle.index)`: the type a script handle reaches, or none when the index is stale. It is the frame of `GetMethod`, which changes at most that type's cache. |
| `Registry.Runtime.MetaDataOf` | src/runtime.rs:316-319 | A value exactly when the index is in range. The value is that type's metadata; otherwise it panics. |
| `Registry.Runtime.ReplaceScope` | src/runtime.rs:273-277 | A new scope is created and installed. The old scope, if any, is unloaded explicitly, and that unload's status is the result. It is then unloaded again when the old `Scope` drops. |
| `Registry.Runtime.Clear` | src/runtime.rs:268-280 | All three registries end up empty and the invariant holds. The log gains the releases of every type in order, then `CreateScope`. If there was a scope, exactly two `Unload`s of it follow, and the result is the status of the first. The error is returned with the state already cleared. |

## Left out

- Host bootstrap is not part of this model: `src/hostfxr.rs` and `RuntimeLibrary::new` (dlopen, hostfxr initialisation, function-pointer casts). The resolved function table is the oracle `Host.Oracle`.
- `Runtime::new` (environment and file-system path discovery, logging) is modelled only as the empty registry it produces, with the executable directory as a parameter.
- The `Drop` of `Runtime` and `hostfxr_close`, the path getters, the public wrapper `RuntimeLibrary::free` (it takes a `CStr` from a caller outside the core), and the Bevy `Resource`/`Component` plumbing are not modelled: they are I/O or carry no logic.
- `src/dotnet/`, `src/lib.rs`, the binaries and the rest of `build.rs` spawn processes, write files and glob. They are not part of this model. The scope that `lib.rs` installs directly (`runtime.scope = Some(create_scope())`) is reachable here as the field `scope`.
- JSON decoding (`serde_json::from_str`) is an abstract, possibly failing `decode` parameter. `to_string_lossy` of a payload is not modelled: the payload is already text.
- `Registry.CacheReleases`: the drop order of a `HashMap` is unspecified, so the releases of a method cache are stated as a bag (multiset), not a sequence.
- `Registry.Runtime.Clear`: the `Rc` counts of cached methods are not modelled. The model assumes that no `Invokable` handed out earlier still holds a method when `clear` runs; a method still held would be destroyed later, not during `clear`.
- The index of a `Script` is a plain natural number: `usize` overflow cannot happen in a sequence the model can build.
- Paths use `/` as the separator (Unix `PathBuf::join`); Windows separators and absolute components in `join` are not modelled.
- The directory read of `get_versions` (`read_dir`, `expect("host/fxr not found")`, dropped unreadable entries, `to_string_lossy`) is replaced by the list of names it produces.
- `Config.ParseU8`: the function itself states only that empty text and a lone `+` never parse. What it accepts is shown through `ParseDecimal`, `LeadingZeroMajor`, `PlusSignMajor` and `OverflowingMajorPanics`.
- Concurrency, the `RefCell` borrow checks and the `Send`/`Sync` hacks are memory-safety concerns, not behaviour.
- The native side ignores the status of `Scope::drop`'s unload; its reply is not read, so it does not appear in any result.

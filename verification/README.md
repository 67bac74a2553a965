# Dispatchable DFS backend: registry and dispatcher

This project models the decision logic of the eZ Publish "dispatchable DFS"
cluster file handler. A **registry** maps file paths to storage backends.
It holds an ordered list of path keys, each with a backend, plus a default
backend. A **dispatcher** implements the backend interface itself. It asks
the registry which backend owns a path and forwards the call there. When a
copy or rename spans two different backends, it splits the operation into a
read, a create and, for rename, a delete.

Backends are opaque handles compared by identity, as PHP's `===` compares
objects. Their answers come from an oracle, `Responder`. The oracle is given
the calls already issued during the current operation and the next call, and
returns the PHP value that call produces. Each dispatcher operation is a
pure function. It returns an `Outcome`: the operation's result and the
ordered trace of backend calls it issued. So "which backend received which
call, in which order, and what was not called" can be stated directly.

Files, one module each:

- `wrappers.dfy`: `Option` and `Result`.
- `php.dfy`: `strstr` (`StrStr`) with its reference meaning (`Contains`), PHP values,
  `=== true`, and the truthiness used by `?:`.
- `backend.dfy`: handles, the calls of the backend interface, traces and the oracle.
- `registry.dfy`: the registry constructor, `getHandler` and `getAllHandlers`.
- `registry_properties.dfy`: resolution properties (first key wins, default fallback,
  array resolution).
- `dispatcher.dfy`: every forwarding and composite operation of the dispatcher.
- `dispatcher_properties.dfy`: relations between the composite operations, and the
  fact that only registered backends are ever called.
- `scenarios.dfy`: the configurations of the repository's unit tests and the routing
  they exercise.

Resolution follows the code, not the method name. A key matches when it
occurs *anywhere* in the path, as with `strstr`, not only as a prefix.
For an array of paths, the keys are the outer loop. The first key, in
registration order, that occurs in *any* element wins. `delete` resolves its
whole argument once and hands it, unchanged, to that single backend. The
repository's `testArray` expects batch deletes grouped per backend, but the
code does not group, and that test does not parse. The model follows the
code: `Scenarios.DeleteMixedArrayTest` shows a mixed
array going to one backend in one call.

Registry keys come from a PHP array, so they are distinct. The model does
not require this: every registry property is proved for key lists with
repeats as well, where a repeated key is simply never reached.

Determinism of resolution holds by construction, because `GetHandler` is a
function. `RegistryProperties.ResolutionIsUnique` states the stronger fact
that the reference definition `ResolvesTo` admits exactly one backend.

## Model

| member | source | states |
|---|---|---|
| `Php.StrStr` | classes/ezdfsfilehandlerdfsregistry.php:61 | `strstr` finds something iff the key occurs somewhere in the path. What it returns is the suffix of the path that starts at the first occurrence. |
| `Php.FirstOccurrenceFrom` | classes/ezdfsfilehandlerdfsregistry.php:69 | The search returns the earliest offset at or after the start where the needle occurs. It returns none only when no such offset exists. |
| `Php.FalsyValues` | classes/ezdfsfilehandlerdfsdispatcher.php:110 | For the `?:` operand, a path-or-`false` value is falsy iff it is `false`, `""` or `"0"`. |
| `Php.OrElse` | classes/ezdfsfilehandlerdfsdispatcher.php:110 | `$dst ?: $src` yields `src` when `dst` is `false`, `""` or `"0"`, and `dst` for every other string. |
| `Php.StrictlyTrueExcludesTruthyValues` | classes/ezdfsfilehandlerdfsdispatcher.php:189 | `!== true` fails for every value but the boolean `true`. Integers, strings, null and `false` all count as failure, even when PHP treats them as true. |
| `DfsRegistry.CheckHandlers` | classes/ezdfsfilehandlerdfsregistry.php:35-41 | Validation succeeds iff every path handler is a backend. On success each key keeps its handler, in order. On failure the message names the class of the first non-backend. |
| `DfsRegistry.New` | classes/ezdfsfilehandlerdfsregistry.php:33-45 | The constructor raises InvalidArgumentException iff some path handler is not a backend; the message names the first one. Otherwise it stores the default and the key/handler pairs unchanged. |
| `DfsRegistry.AnyContains` | classes/ezdfsfilehandlerdfsregistry.php:57-66 | For an array, a key matches iff it occurs in at least one element. |
| `DfsRegistry.Hits` | classes/ezdfsfilehandlerdfsregistry.php:57-73 | One iteration's test matches the reference meaning for both a scalar path and an array. |
| `DfsRegistry.MatchIndexFrom` | classes/ezdfsfilehandlerdfsregistry.php:55-74 | The key loop stops at the first key that occurs in the argument. It falls through only when no remaining key occurs. |
| `DfsRegistry.GetHandler` | classes/ezdfsfilehandlerdfsregistry.php:53-77 | Resolution is total. The result is the handler of the earliest matching key, or the default when no key matches. |
| `DfsRegistry.Handlers` | classes/ezdfsfilehandlerdfsregistry.php:81 | `array_values` keeps every keyed handler, in registration order. |
| `DfsRegistry.GetAllHandlers` | classes/ezdfsfilehandlerdfsregistry.php:79-84 | The list has the keyed handlers in registration order, then the default, for a length of keys + 1. |
| `RegistryProperties.ResolutionIsUnique` | classes/ezdfsfilehandlerdfsregistry.php:53-77 | Exactly one backend satisfies the reference resolution, so resolving the same argument twice gives the same backend. |
| `RegistryProperties.EarliestMatchingKeyWins` | classes/ezdfsfilehandlerdfsregistry.php:55-72 | If key i occurs in the path and no earlier key does, key i's handler is returned. |
| `RegistryProperties.MatchingKeyBoundsWinner` | classes/ezdfsfilehandlerdfsregistry.php:55-72 | Any matching key bounds the winner: the winning key was registered no later. |
| `RegistryProperties.NoMatchGivesDefault` | classes/ezdfsfilehandlerdfsregistry.php:76 | When no key occurs in the path, the default handler is returned. No exception is raised, whatever the doc comment says. |
| `RegistryProperties.ResolvedHandlerIsListed` | classes/ezdfsfilehandlerdfsregistry.php:53-84 | Every handler `getHandler` can return appears in `getAllHandlers`. |
| `RegistryProperties.MatchIndexFromAgrees` | classes/ezdfsfilehandlerdfsregistry.php:55-74 | Two arguments matched by the same keys make the key loop stop at the same key. |
| `RegistryProperties.SameKeysSameHandler` | classes/ezdfsfilehandlerdfsregistry.php:53-77 | Two arguments matched by the same keys resolve to the same backend. |
| `RegistryProperties.EmptyArrayGivesDefault` | classes/ezdfsfilehandlerdfsregistry.php:57-66 | An empty array of paths resolves to the default handler. |
| `RegistryProperties.SingletonArrayLikeScalar` | classes/ezdfsfilehandlerdfsregistry.php:57-73 | The array `[p]` resolves to the same backend as the scalar `p`. |
| `RegistryProperties.ArrayOrderIrrelevant` | classes/ezdfsfilehandlerdfsregistry.php:55-66 | Arrays with the same elements resolve alike, whatever their order or repetitions. |
| `RegistryProperties.ArrayTakesEarliestElementMatch` | classes/ezdfsfilehandlerdfsregistry.php:55-66 | An array resolves key-major: its winning key is the minimum, over its elements, of the key each element would select alone. |
| `RegistryProperties.NewThenGetAllHandlers` | classes/ezdfsfilehandlerdfsregistry.php:33-84 | A successfully built registry lists exactly the supplied handlers, in order, followed by the default. |
| `DfsDispatcher.HandlerFor` | classes/ezdfsfilehandlerdfsdispatcher.php:57-60 | The dispatcher's private `getHandler` returns the registry's resolution. |
| `DfsDispatcher.CopyFromDFSToDFS` | classes/ezdfsfilehandlerdfsdispatcher.php:68-81 | Same backend: one native copy, and its result. Different backends: a read on the source's backend, then a create on the destination's backend with the value read. The create's result is returned. |
| `DfsDispatcher.CopyFromDFS` | classes/ezdfsfilehandlerdfsdispatcher.php:93-96 | One call, on the backend owning the DFS source, with the arguments unchanged; its result is returned. |
| `DfsDispatcher.CopyToDFS` | classes/ezdfsfilehandlerdfsdispatcher.php:108-111 | One call, on the backend owning `dst` when `dst` is truthy. Otherwise it goes to the backend owning `src` (falsy: `false`, `""`, `"0"`). Both arguments are forwarded unchanged. |
| `DfsDispatcher.Delete` | classes/ezdfsfilehandlerdfsdispatcher.php:122-125 | The whole argument, path or array, is resolved once. It goes unchanged to that one backend in exactly one call, and that call's result is returned. |
| `DfsDispatcher.Passthrough` | classes/ezdfsfilehandlerdfsdispatcher.php:136-139 | One call on the backend owning the path, with path, offset and length unchanged. |
| `DfsDispatcher.PassthroughWithDefaults` | classes/ezdfsfilehandlerdfsdispatcher.php:136-138 | When the optional arguments are omitted, offset 0 and length `false` are forwarded. |
| `DfsDispatcher.GetContents` | classes/ezdfsfilehandlerdfsdispatcher.php:149-152 | One call on the backend owning the path; its result is returned unchanged. |
| `DfsDispatcher.CreateFileOnDFS` | classes/ezdfsfilehandlerdfsdispatcher.php:162-165 | One call on the backend owning the path, with the contents unchanged. |
| `DfsDispatcher.RenameOnDFS` | classes/ezdfsfilehandlerdfsdispatcher.php:175-194 | Same backend: one native rename. Different backends: a read, then a create on the new backend. If the create is not exactly `true`, the result is `false` and nothing is deleted. Otherwise the old path is deleted on its backend and that result is returned. |
| `DfsDispatcher.ExistsOnDFS` | classes/ezdfsfilehandlerdfsdispatcher.php:203-206 | One call on the backend owning the path; its result is returned unchanged. |
| `DfsDispatcher.GetDfsFileSize` | classes/ezdfsfilehandlerdfsdispatcher.php:225-228 | One call on the backend owning the path; its result is returned unchanged. |
| `DispatcherProperties.SameBackendCopyIsNative` | classes/ezdfsfilehandlerdfsdispatcher.php:73-76 | Same backend: the only call is the native copy. The dispatcher issues no read and no create. |
| `DispatcherProperties.CrossBackendCopyBridgesContents` | classes/ezdfsfilehandlerdfsdispatcher.php:77-80 | Different backends: the native copy is never called. The create receives exactly what the read returned. |
| `DispatcherProperties.CrossBackendCopyForwardsFailedRead` | classes/ezdfsfilehandlerdfsdispatcher.php:79 | Different backends, when the read returns `false`: the destination is created with `false` as its contents, unchecked. |
| `DispatcherProperties.RenameAcrossBackendsBeginsWithCopy` | classes/ezdfsfilehandlerdfsdispatcher.php:186-190 | Different backends: rename starts with exactly the calls of a cross-backend copy. When that copy's result is not exactly `true`, rename stops there with `false`. |
| `DispatcherProperties.RenameDeletesSourceIffCreated` | classes/ezdfsfilehandlerdfsdispatcher.php:186-193 | Different backends: a delete is issued iff the create returned exactly `true`. Then it is the last call, issued once, on the old path's backend, with the old path. |
| `DispatcherProperties.CopyStaysInRegistry` | classes/ezdfsfilehandlerdfsdispatcher.php:68-81 | Every call a copy issues goes to a backend the registry lists. |
| `DispatcherProperties.RenameCallsOwningBackends` | classes/ezdfsfilehandlerdfsdispatcher.php:177-193 | Every call a rename issues goes to the backend owning the old path or the one owning the new path. |
| `DispatcherProperties.RenameStaysInRegistry` | classes/ezdfsfilehandlerdfsdispatcher.php:175-194 | Every call a rename issues goes to a backend the registry lists. |
| `DispatcherProperties.DeleteStaysInRegistry` | classes/ezdfsfilehandlerdfsdispatcher.php:122-125 | The call a delete issues goes to a backend the registry lists. |
| `Scenarios.RegistryTestPathOne` | tests/classes/ezdfsfilehandlerdfsregistry_test.php:43-46 | `path/to/file` resolves to the `path/to/` handler. |
| `Scenarios.RegistryTestPathTwo` | tests/classes/ezdfsfilehandlerdfsregistry_test.php:48-51 | `otherpath/to/file` resolves to the `path/to/` handler, not the `otherpath/to/` one: substring match, earliest key wins. |
| `Scenarios.RegistryTestPathThree` | tests/classes/ezdfsfilehandlerdfsregistry_test.php:53-56 | `differentpath/to/file` resolves to the `path/to/` handler, not the default. |
| `Scenarios.CopySameBackendTest` | tests/classes/ezdfsfilehandlerdfsdispatcher_test.php:49-61 | Two `one://` paths: a single native copy on the custom backend. |
| `Scenarios.CopyCrossBackendTest` | tests/classes/ezdfsfilehandlerdfsdispatcher_test.php:63-84 | From `one://` to `two://`: a read on the custom backend, then a create with the contents read on the default backend. |
| `Scenarios.CopyFromDFSTest` | tests/classes/ezdfsfilehandlerdfsdispatcher_test.php:86-99 | `copyFromDFS` of any `one://` path, with the destination omitted, goes to the source's backend. |
| `Scenarios.CopyToDFSTest` | tests/classes/ezdfsfilehandlerdfsdispatcher_test.php:101-115 | `copyToDFS` goes to the destination's backend. With destination `"0"` it goes to the source's backend. |
| `Scenarios.DeleteMixedArrayTest` | tests/classes/ezdfsfilehandlerdfsdispatcher_test.php:132-151 | The test's mixed array is not split per backend. The custom backend receives one delete carrying all five paths. |
| `Scenarios.RenameCrossBackendTest` | tests/classes/ezdfsfilehandlerdfsdispatcher_test.php:214-239 | From `one://` to `two://` with a successful create: read, create, then delete of the old path on the custom backend. |

## Left out

- `factory()` and `build()` read INI settings and instantiate classes by name, so they are not modelled. `factory()` also passes the list of backends where the registry constructor expects the default backend.
- `getMountPoint` has no implementation, and the dispatcher's `supports` always returns `false`.
- Capability-based resolution through `supports(path)` is not modelled. It is declared in classes/ezdfsfilehandlerdispatchabledfsbackendinterface.php, but no resolver in this code uses it, and the `OutOfRangeException` path is never taken.
- Grouping batch deletes per backend and listing files across backends are not modelled, because the code does neither.
- What backends actually do is not modelled. That includes the bytes `passthrough` writes to the output. Backends are opaque handles, and their answers are oracle values.
- `DfsRegistry.GetHandler`: its precondition requires every key to be non-empty. `strstr` with an empty needle returns `false` with a warning in PHP 7 and matches everywhere in PHP 8.
- `DfsRegistry.New`: keys are strings. PHP turns numeric-string array keys into integers. PHP 7's `strstr` would then read such a key as a character code.
- `DfsRegistry.New`: a non-backend path handler is described by its class name only. `get_class` on a non-object is not modelled.
- Paths are sequences of characters with one character per byte. PHP's `strstr` is byte-based, and no encoding is modelled.
- Exceptions a backend may raise are not modelled. Backends only return values, which the dispatcher passes through.
